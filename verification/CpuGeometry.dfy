/** The geometry of a CPU inventory, and which abstract cores each device owns (internal/nodeinfo/fingerprint.go,
    nodeinfo.go). */
module CpuGeometry {
  import opened Ordering
  import opened CpuTopology

  datatype Shape = Shape(sockets: nat, cores: nat, threads: nat)

  /** How many of the listed cores are in a group. */
  ghost function CountIn(cores: seq<Core>, g: Group): nat {
    if cores == [] then 0
    else CountIn(cores[..|cores| - 1], g) + if cores[|cores| - 1].group == g then 1 else 0
  }

  ghost function Groups(devices: Inventory): set<Group> {
    set n | n in devices :: devices[n].group
  }

  ghost predicate SameThreads(m: CPUMap) {
    forall j, k :: 0 <= j < |m.abstractToMachine| && 0 <= k < |m.abstractToMachine| ==>
             |m.abstractToMachine[j]| == |m.abstractToMachine[k]|
  }

  ghost predicate SameCores(devices: Inventory, cores: seq<Core>) {
    forall g, h :: g in Groups(devices) && h in Groups(devices) ==> CountIn(cores, g) == CountIn(cores, h)
  }

  ghost predicate HasShape(devices: Inventory, cores: seq<Core>, m: CPUMap, shape: Shape) {
    && shape.sockets == |devices| && shape.cores > 0 && shape.threads > 0
    && (forall g :: g in Groups(devices) ==> CountIn(cores, g) == shape.cores)
    && (forall k :: 0 <= k < |m.abstractToMachine| ==> |m.abstractToMachine[k]| == shape.threads)
  }

  lemma {:induction false} CountPositive(cores: seq<Core>, g: Group)
    ensures CountIn(cores, g) > 0 <==> exists k :: 0 <= k < |cores| && cores[k].group == g
  {
    if cores != [] {
      CountPositive(cores[..|cores| - 1], g);
    }
  }

  lemma CoreGroups(devices: Inventory, cores: seq<Core>, m: CPUMap)
    requires Sound(devices) && Maps(devices, cores, m)
    ensures forall g :: g in Groups(devices) <==> CountIn(cores, g) > 0
  {
    forall g ensures g in Groups(devices) <==> CountIn(cores, g) > 0 {
      CountPositive(cores, g);
      if g in Groups(devices) {
        var n :| n in devices && devices[n].group == g;
        var x := SomeElement(devices[n].cpus);
        assert InfoOf(devices[n], x) in Infos(devices);
        assert InfoOf(devices[n], x).Key() in cores;
      }
      if k :| 0 <= k < |cores| && cores[k].group == g {
        assert cores[k] in Cores(devices);
        var i :| i in Infos(devices) && i.Key() == cores[k];
        var n, x :| n in devices && x in devices[n].cpus && i == InfoOf(devices[n], x);
      }
    }
  }

  lemma {:induction false} GroupCount(devices: Inventory)
    requires forall m, n :: m in devices && n in devices && m != n ==> devices[m].group != devices[n].group
    ensures |Groups(devices)| == |devices|
  {
    if devices != map[] {
      var n :| n in devices;
      var rest := devices - {n};
      assert rest.Keys == devices.Keys - {n};
      GroupCount(rest);
      GroupsWithout(devices, n);
    }
  }

  lemma GroupsWithout(devices: Inventory, n: string)
    requires n in devices && forall m :: m in devices && m != n ==> devices[m].group != devices[n].group
    ensures Groups(devices) == Groups(devices - {n}) + {devices[n].group} && devices[n].group !in Groups(devices - {n})
  {
    var rest := devices - {n};
    forall g ensures g in Groups(devices) <==> g in Groups(rest) || g == devices[n].group {
      if g in Groups(devices) && g != devices[n].group {
        var m :| m in devices && devices[m].group == g;
        assert m in rest;
      }
    }
  }

  method Lowest(cpus: set<int>) returns (x: int)
    requires cpus != {}
    ensures x in cpus && forall y :: y in cpus ==> x <= y
  {
    x := Pick(cpus);
    var rest := cpus - {x};
    while rest != {}
      invariant rest <= cpus && x in cpus
      invariant forall y :: y in cpus && y !in rest ==> x <= y
    {
      var y := Pick(rest);
      rest := rest - {y};
      if y < x {
        x := y;
      }
    }
  }

  /** The CPUs of the k-th core lie in the core's group. */
  lemma CoreCpus(devices: Inventory, cores: seq<Core>, m: CPUMap, k: nat)
    requires Sound(devices) && Maps(devices, cores, m) && k < |cores|
    ensures m.abstractToMachine[k] != {}
    ensures forall x :: x in m.abstractToMachine[k] ==>
              x in m.infos && m.infos[x] in Infos(devices) && m.infos[x].Key() == cores[k]
  {
    assert cores[k] in Cores(devices);
    var i :| i in Infos(devices) && i.Key() == cores[k];
    assert i.cpu in Class(devices, cores[k]);
    forall x | x in Class(devices, cores[k])
      ensures x in m.infos && m.infos[x] in Infos(devices) && m.infos[x].Key() == cores[k]
    {
      var j :| j in Infos(devices) && j.group.socket == cores[k].group.socket && j.core == cores[k].id && j.cpu == x;
      ClassMembers(devices, j, cores[k]);
    }
  }

  ghost predicate Counted(counts: map<Group, nat>, cores: seq<Core>) {
    && (forall g :: g in counts <==> CountIn(cores, g) > 0)
    && (forall g :: g in counts ==> counts[g] == CountIn(cores, g))
  }

  /** The first loop of Geometry. */
  method CountCores(m: CPUMap, ghost devices: Inventory, ghost cores: seq<Core>)
    returns (r: Result<(nat, map<Group, nat>), string>)
    requires Sound(devices) && Maps(devices, cores, m)
    ensures r.Ok? <==> SameThreads(m)
    ensures r.Ok? ==> Counted(r.value.1, cores) && (cores != [] ==> r.value.0 > 0)
    ensures r.Ok? ==> forall k :: 0 <= k < |cores| ==> |m.abstractToMachine[k]| == r.value.0
  {
    var threads: nat, counts: map<Group, nat> := 0, map[];
    for n := 0 to |m.abstractToMachine|
      invariant n > 0 <==> threads > 0
      invariant forall k :: 0 <= k < n ==> |m.abstractToMachine[k]| == threads
      invariant Counted(counts, cores[..n])
    {
      var cpus := m.abstractToMachine[n];
      CoreCpus(devices, cores, m, n);
      if threads == 0 {
        threads := |cpus|;
      }
      if |cpus| != threads {
        assert |m.abstractToMachine[0]| != |m.abstractToMachine[n]|;
        return Err("non-uniform threads per core");
      }
      var lowest := Lowest(cpus);
      var group := m.infos[lowest].group;
      assert cores[..n + 1][..n] == cores[..n];
      counts := counts[group := (if group in counts then counts[group] else 0) + 1];
    }
    assert cores[..|cores|] == cores;
    return Ok((threads, counts));
  }

  method SameCounts(counts: map<Group, nat>) returns (r: Result<nat, string>)
    requires forall g :: g in counts ==> counts[g] > 0
    ensures r.Ok? <==> forall g, h :: g in counts && h in counts ==> counts[g] == counts[h]
    ensures r.Ok? ==> forall g :: g in counts ==> counts[g] == r.value
  {
    var per, rest := 0, counts.Keys;
    while rest != {}
      invariant rest <= counts.Keys
      invariant forall g :: g in counts && g !in rest ==> counts[g] == per
      invariant per == 0 ==> rest == counts.Keys
      invariant per > 0 ==> exists g :: g in counts && counts[g] == per
    {
      var g := Pick(rest);
      rest := rest - {g};
      if per == 0 {
        per := counts[g];
      }
      if counts[g] != per {
        return Err("non-uniform cores per socket after CPU reservations");
      }
    }
    return Ok(per);
  }

  /** Geometry. That the device inventory might not match the mapping is ruled out. */
  method Geometry(m: CPUMap, devices: Inventory, ghost cores: seq<Core>) returns (r: Result<Shape, string>)
    requires Sound(devices) && Maps(devices, cores, m)
    ensures devices == map[] ==> r == Ok(Shape(0, 0, 0))
    ensures devices != map[] ==> (r.Ok? <==> SameThreads(m) && SameCores(devices, cores))
    ensures devices != map[] && r.Ok? ==> HasShape(devices, cores, m, r.value)
  {
    CoreGroups(devices, cores, m);
    if |m.abstractToMachine| == 0 {
      if devices != map[] { DeviceHasGroup(devices); }
      return Ok(Shape(0, 0, 0));
    }
    SomeDevice(devices, cores);
    var counted := CountCores(m, devices, cores);
    if counted.Err? {
      return Err(counted.error);
    }
    var threads, counts := counted.value.0, counted.value.1;
    var per := SameCounts(counts);
    assert counts.Keys == Groups(devices);
    if per.Err? {
      return Err(per.error);
    }
    GroupCount(devices);
    var deviceSockets := set n | n in devices :: devices[n].group;
    assert |counts.Keys| == |counts|;
    if |counts| != |deviceSockets| {
      assert false;
    }
    assert forall g :: g in counts ==> CountIn(cores, g) == per.value;
    return Ok(Shape(|counts|, per.value, threads));
  }

  lemma DeviceHasGroup(devices: Inventory)
    requires devices != map[]
    ensures exists g :: g in Groups(devices)
  {
    var n :| n in devices;
    assert devices[n].group in Groups(devices);
  }

  lemma SomeDevice(devices: Inventory, cores: seq<Core>)
    requires cores != [] && forall g :: g in Groups(devices) <==> CountIn(cores, g) > 0
    ensures devices != map[]
  {
    CountPositive(cores, cores[0].group);
    assert cores[0].group in Groups(devices);
  }

  // --- blocks ---

  lemma {:induction false} LastGroup(cores: seq<Core>, g: Group)
    requires Ascending(cores, CoreLt) && forall k :: 0 <= k < |cores| ==>
               cores[k].group == g || GroupLt(cores[k].group, g)
    ensures CountIn(cores, g) <= |cores|
    ensures forall k :: 0 <= k < |cores| ==> (cores[k].group == g <==> k >= |cores| - CountIn(cores, g))
  {
    if cores != [] {
      LastGroup(cores[..|cores| - 1], g);
      if cores[|cores| - 1].group != g {
        forall k | 0 <= k < |cores| ensures cores[k].group != g {
          assert k < |cores| - 1 ==> CoreLt(cores[k], cores[|cores| - 1]);
        }
        CountPositive(cores, g);
      }
    }
  }

  lemma {:induction false} CountBefore(cores: seq<Core>, n: nat, g: Group)
    requires n <= |cores| && forall k :: n <= k < |cores| ==> cores[k].group != g
    ensures CountIn(cores[..n], g) == CountIn(cores, g)
  {
    if n < |cores| {
      CountBefore(cores[..|cores| - 1], n, g);
      assert cores[..|cores| - 1][..n] == cores[..n];
    } else {
      assert cores[..n] == cores;
    }
  }

  /** The k-th block of c indexes. */
  predicate InBlock(k: int, i: int, c: int) {
    k * c <= i < (k + 1) * c
  }

  /** The cores of the k-th group are the k-th block of c cores. */
  ghost predicate Blocks(cores: seq<Core>, groups: seq<Group>, c: nat) {
    && |cores| == |groups| * c
    && forall k, i :: 0 <= k < |groups| && 0 <= i < |cores| ==> (cores[i].group == groups[k] <==> InBlock(k, i, c))
  }

  lemma {:induction false} EqualBlocks(cores: seq<Core>, groups: seq<Group>, c: nat)
    requires Ascending(cores, CoreLt) && Ascending(groups, GroupLt)
    requires forall k :: 0 <= k < |cores| ==> cores[k].group in groups
    requires forall g :: g in groups ==> CountIn(cores, g) == c
    ensures Blocks(cores, groups, c)
  {
    assert cores != [] ==> cores[0].group in groups;
    if groups != [] {
      var n, last := |groups| - 1, groups[|groups| - 1];
      LastGroup(cores, last);
      var before := cores[..|cores| - c];
      forall g | g in groups[..n] ensures CountIn(before, g) == c {
        CountBefore(cores, |cores| - c, g);
      }
      EqualBlocks(before, groups[..n], c);
      AddBlock(cores, groups, c);
    }
  }

  lemma AddBlock(cores: seq<Core>, groups: seq<Group>, c: nat)
    requires groups != [] && c <= |cores| && Ascending(groups, GroupLt)
    requires Blocks(cores[..|cores| - c], groups[..|groups| - 1], c)
    requires forall i :: 0 <= i < |cores| ==> (cores[i].group == groups[|groups| - 1] <==> i >= |cores| - c)
    ensures Blocks(cores, groups, c)
  {
    var n := |groups| - 1;
    assert |cores| - c == n * c && |cores| == (n + 1) * c;
    forall k, i | 0 <= k < |groups| && 0 <= i < |cores| ensures cores[i].group == groups[k] <==> InBlock(k, i, c) {
      if k < n {
        Monotone(k + 1, n, c);
        if i < |cores| - c {
          assert cores[..|cores| - c][i] == cores[i] && groups[..n][k] == groups[k];
        } else {
          assert cores[i].group == groups[n];
        }
      }
    }
  }

  lemma Monotone(a: nat, b: nat, c: nat)
    requires a <= b
    ensures a * c <= b * c
  {
  }
}
