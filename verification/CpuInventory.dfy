/** Accepting a node's CPU devices (internal/nodeinfo/cpuinfo.go, NewCPUInfos; nodeinfo.go,
    NewNodeInfoFromResourceSlices). */
module CpuInventory {
  import opened Ordering
  import opened CpuTopology
  import opened CpuGeometry
  import SmtLayout

  datatype NodeInfo = NodeInfo(devices: Inventory, cpuMap: CPUMap)

  predicate IntLt(a: int, b: int) { a < b }

  /** The device's own data agree: capacity, sharing, and an SMT entry for every CPU that does not contradict disabled
      SMT. */
  ghost predicate DeviceOk(d: Device) {
    && d.capacity == |d.cpus| && d.shared
    && forall x :: x in d.cpus ==> x in d.siblings && (!d.smt ==> d.siblings[x] < 0)
  }

  ghost function InfosOf(d: Device): set<CPUInfo> {
    set x | x in d.cpus :: InfoOf(d, x)
  }

  /** With the siblings of a decoded layout, two allocatable CPUs share a core exactly when they are siblings, and the
      core has the ID of the lower one. */
  lemma DecodedCores(atoms: seq<SmtLayout.Atom>, d: Device, x: int, y: int)
    requires SmtLayout.Valid(atoms) && SmtLayout.Decoded(atoms, d.siblings)
    requires DeviceOk(d) && x in d.cpus && y in d.cpus && x != y
    ensures CoreOf(d, x) == CoreOf(d, y) <==> d.siblings[x] == y
    ensures d.siblings[x] == y ==> CoreOf(d, x) == if x < y then x else y
  {
    forall z | z in d.siblings
      ensures z >= 0 && (d.siblings[z] == -1 || (d.siblings[z] in d.siblings && d.siblings[d.siblings[z]] == z))
    {
      SmtLayout.SiblingsMutual(atoms, d.siblings, z);
      SmtLayout.DecodedNatural(atoms, d.siblings, z);
    }
    assert forall z :: z in d.cpus ==> z in d.siblings;
    CoreIsSiblingPair(d, x, y);
    CoreIsLowest(d, x);
    CoreIsLowest(d, y);
  }

  /** NewCPUInfos, for one device. */
  method NewCPUInfos(d: Device) returns (r: Result<seq<CPUInfo>, string>)
    ensures r.Ok? <==> DeviceOk(d)
    ensures r.Ok? ==> Distinct(r.value) && Elements(r.value) == InfosOf(d)
  {
    if d.capacity != |d.cpus| {
      return Err("device must expose CPU capacity equal to its allocatable CPU IDs");
    }
    if !d.shared {
      return Err("device must allow multiple allocations");
    }
    var cpus := ListAscending(d.cpus, IntLt);
    var infos: seq<CPUInfo> := [];
    for n := 0 to |cpus|
      invariant |infos| == n && forall k :: 0 <= k < n ==> infos[k] == InfoOf(d, cpus[k])
      invariant forall k :: 0 <= k < n ==> cpus[k] in d.siblings && (!d.smt ==> d.siblings[cpus[k]] < 0)
    {
      assert cpus[n] in cpus;
      if cpus[n] !in d.siblings {
        return Err("CPU is missing from device SMT map");
      }
      if !d.smt && d.siblings[cpus[n]] >= 0 {
        return Err("device SMT layout contradicts disabled SMT");
      }
      infos := infos + [InfoOf(d, cpus[n])];
    }
    Collected(d, cpus, infos);
    return Ok(infos);
  }

  lemma Collected(d: Device, cpus: seq<int>, infos: seq<CPUInfo>)
    requires Ascending(cpus, IntLt) && (forall x :: x in cpus <==> x in d.cpus)
    requires |infos| == |cpus| && forall k :: 0 <= k < |cpus| ==> infos[k] == InfoOf(d, cpus[k])
    ensures Distinct(infos) && Elements(infos) == InfosOf(d)
    ensures forall x :: x in d.cpus ==> exists k :: 0 <= k < |cpus| && cpus[k] == x
  {
    forall i ensures i in Elements(infos) <==> i in InfosOf(d) {
      if i in Elements(infos) {
        var k :| 0 <= k < |infos| && infos[k] == i;
        assert cpus[k] in cpus;
      }
      if i in InfosOf(d) {
        var x :| x in d.cpus && i == InfoOf(d, x);
        assert x in cpus;
        var k :| 0 <= k < |cpus| && cpus[k] == x;
        assert infos[k] == i;
      }
    }
    forall x | x in d.cpus ensures exists k :: 0 <= k < |cpus| && cpus[k] == x {
      assert x in cpus;
    }
    forall i, j | 0 <= i < j < |infos| ensures infos[i] != infos[j] {
      assert IntLt(cpus[i], cpus[j]);
    }
  }

  // --- filing devices ---

  ghost predicate NamesApart(devices: seq<Device>) {
    forall i, j :: 0 <= i < j < |devices| ==> devices[i].name != devices[j].name
  }

  ghost predicate GroupsApart(devices: seq<Device>) {
    forall i, j :: 0 <= i < j < |devices| ==> devices[i].group != devices[j].group
  }

  ghost predicate CpusApart(devices: seq<Device>) {
    forall i, j :: 0 <= i < j < |devices| ==> devices[i].cpus !! devices[j].cpus
  }

  ghost predicate Filed(devices: seq<Device>, inv: Inventory) {
    && (forall k :: 0 <= k < |devices| ==> devices[k].name in inv && inv[devices[k].name] == devices[k])
    && (forall n :: n in inv ==> exists k :: 0 <= k < |devices| && devices[k].name == n)
  }

  lemma FileOne(devices: seq<Device>, n: nat, inv: Inventory)
    requires n < |devices| && Filed(devices[..n], inv) && Sound(inv) && devices[n].cpus != {}
    requires devices[n].name !in inv && devices[n].group !in Groups(inv)
    requires forall i :: i in Infos(inv) ==> i.cpu !in devices[n].cpus
    ensures Filed(devices[..n + 1], inv[devices[n].name := devices[n]]) && Sound(inv[devices[n].name := devices[n]])
    ensures Infos(inv[devices[n].name := devices[n]]) == Infos(inv) + InfosOf(devices[n])
    ensures Infos(inv) !! InfosOf(devices[n])
  {
    var d, more := devices[n], inv[devices[n].name := devices[n]];
    var before, filed := devices[..n], devices[..n + 1];
    assert filed == before + [d];
    forall m | m in inv ensures inv[m].group != d.group && inv[m].cpus !! d.cpus {
      assert inv[m].group in Groups(inv);
      forall x | x in inv[m].cpus ensures x !in d.cpus {
        assert InfoOf(inv[m], x) in Infos(inv);
      }
    }
    forall m | m in more ensures exists k :: 0 <= k < |filed| && filed[k].name == m {
      if m in inv {
        var k :| 0 <= k < |before| && before[k].name == m;
        assert filed[k].name == m;
      } else {
        assert filed[n].name == m;
      }
    }
    forall i ensures i in Infos(more) <==> i in Infos(inv) + InfosOf(d) {
      if i in Infos(more) {
        var m, x :| m in more && x in more[m].cpus && i == InfoOf(more[m], x);
      }
      if i in Infos(inv) {
        var m, x :| m in inv && x in inv[m].cpus && i == InfoOf(inv[m], x);
        assert m in more && more[m] == inv[m];
      }
      if i in InfosOf(d) {
        var x :| x in d.cpus && i == InfoOf(d, x);
        assert d.name in more && more[d.name] == d;
      }
    }
  }

  ghost predicate Addable(inv: Inventory, d: Device) {
    d.name !in inv && d.group !in Groups(inv) && forall i :: i in Infos(inv) ==> i.cpu !in d.cpus
  }

  /** A device can be added exactly when it is apart from the ones before it. */
  lemma AddableApart(devices: seq<Device>, n: nat, inv: Inventory)
    requires n < |devices| && Filed(devices[..n], inv) && Sound(inv)
    ensures Addable(inv, devices[n]) <==> forall k :: 0 <= k < n ==>
              devices[k].name != devices[n].name && devices[k].group != devices[n].group
              && devices[k].cpus !! devices[n].cpus
  {
    var before, d := devices[..n], devices[n];
    assert forall k :: 0 <= k < n ==> before[k] == devices[k];
    if Addable(inv, d) {
      forall k | 0 <= k < n
        ensures devices[k].name != d.name && devices[k].group != d.group && devices[k].cpus !! d.cpus
      {
        assert before[k].name in inv && inv[before[k].name] == devices[k];
        assert devices[k].group in Groups(inv);
        forall x | x in devices[k].cpus ensures x !in d.cpus {
          assert InfoOf(devices[k], x) in Infos(inv);
        }
      }
    } else {
      if d.name in inv {
        var k :| 0 <= k < |before| && before[k].name == d.name;
        assert devices[k].name == d.name;
      } else if d.group in Groups(inv) {
        var m :| m in inv && inv[m].group == d.group;
        var k :| 0 <= k < |before| && before[k].name == m;
        assert devices[k].group == d.group;
      } else {
        var i :| i in Infos(inv) && i.cpu in d.cpus;
        var m, x :| m in inv && x in inv[m].cpus && i == InfoOf(inv[m], x);
        var k :| 0 <= k < |before| && before[k].name == m;
        assert x in devices[k].cpus && x in d.cpus;
      }
    }
  }

  method AnyKnown(infos: seq<CPUInfo>, cpus: set<int>) returns (known: bool)
    ensures known <==> exists k :: 0 <= k < |infos| && infos[k].cpu in cpus
  {
    for k := 0 to |infos|
      invariant forall j :: 0 <= j < k ==> infos[j].cpu !in cpus
    {
      if infos[k].cpu in cpus {
        return true;
      }
    }
    return false;
  }

  ghost predicate Apart(devices: seq<Device>) {
    NamesApart(devices) && GroupsApart(devices) && CpusApart(devices)
  }

  /** What the loop below has filed of the first n devices. */
  ghost predicate FiledFirst(devices: seq<Device>, n: nat, inv: Inventory, infos: seq<CPUInfo>)
    requires n <= |devices|
  {
    Sound(inv) && Filed(devices[..n], inv) && Distinct(infos) && Elements(infos) == Infos(inv) && Apart(devices[..n])
  }

  /** One device: well formed, and apart from those already filed. */
  method FileNext(devices: seq<Device>, n: nat, inv: Inventory, infos: seq<CPUInfo>)
    returns (r: Result<(Inventory, seq<CPUInfo>), string>)
    requires n < |devices| && devices[n].cpus != {} && FiledFirst(devices, n, inv, infos)
    ensures r.Ok? <==> DeviceOk(devices[n]) && Addable(inv, devices[n])
    ensures r.Ok? ==> FiledFirst(devices, n + 1, r.value.0, r.value.1)
  {
    var d := devices[n];
    var built := NewCPUInfos(d);
    if built.Err? {
      return Err(built.error);
    }
    if d.name in inv {
      return Err("duplicate device name");
    }
    if d.group in set m | m in inv :: inv[m].group {
      return Err("two devices represent one group");
    }
    var known := AnyKnown(infos, d.cpus);
    if known {
      ghost var k :| 0 <= k < |infos| && infos[k].cpu in d.cpus;
      assert infos[k] in Elements(infos);
      return Err("duplicate CPU ID");
    }
    forall i | i in Infos(inv) ensures i.cpu !in d.cpus {
      assert i in Elements(infos);
    }
    FileOne(devices, n, inv);
    ConcatInfos(infos, built.value);
    AddableApart(devices, n, inv);
    ApartMore(devices, n);
    return Ok((inv[d.name := d], infos + built.value));
  }

  /** The loop of NewNodeInfoFromResourceSlices over the devices of the selected slices. */
  method FileDevices(devices: seq<Device>) returns (r: Result<(Inventory, seq<CPUInfo>), string>)
    requires forall k :: 0 <= k < |devices| ==> devices[k].cpus != {}
    ensures r.Ok? <==> Apart(devices) && forall k :: 0 <= k < |devices| ==> DeviceOk(devices[k])
    ensures r.Ok? ==>
              Sound(r.value.0) && Filed(devices, r.value.0) && Distinct(r.value.1)
              && Elements(r.value.1) == Infos(r.value.0)
  {
    var inv: Inventory, infos: seq<CPUInfo> := map[], [];
    for n := 0 to |devices|
      invariant FiledFirst(devices, n, inv, infos) && forall k :: 0 <= k < n ==> DeviceOk(devices[k])
    {
      AddableApart(devices, n, inv);
      ApartMore(devices, n);
      var next := FileNext(devices, n, inv, infos);
      if next.Err? {
        return Err(next.error);
      }
      inv, infos := next.value.0, next.value.1;
    }
    assert devices[..|devices|] == devices;
    return Ok((inv, infos));
  }

  lemma ApartMore(devices: seq<Device>, n: nat)
    requires n < |devices| && Apart(devices[..n])
    ensures Apart(devices[..n + 1]) <==> forall k :: 0 <= k < n ==>
              devices[k].name != devices[n].name && devices[k].group != devices[n].group
              && devices[k].cpus !! devices[n].cpus
    ensures Apart(devices) ==> Apart(devices[..n + 1])
  {
    var before, more := devices[..n], devices[..n + 1];
    assert more == before + [devices[n]];
    assert forall k :: 0 <= k <= n ==> more[k] == devices[k];
  }

  lemma ConcatInfos(a: seq<CPUInfo>, b: seq<CPUInfo>)
    requires Distinct(a) && Distinct(b) && Elements(a) !! Elements(b)
    ensures Distinct(a + b) && Elements(a + b) == Elements(a) + Elements(b)
  {
    forall i, j | 0 <= i < j < |a + b| ensures (a + b)[i] != (a + b)[j] {
      if i < |a| <= j {
        assert a[i] in Elements(a) && b[j - |a|] in Elements(b);
      }
    }
  }

  // --- the groups ---

  /** Devices are all sockets or all NUMA nodes, and no NUMA node spans two sockets. */
  ghost predicate GroupsOk(groups: set<Group>) {
    && ((forall g :: g in groups ==> g.numa < 0) || (forall g :: g in groups ==> g.numa >= 0))
    && (forall g, h :: g in groups && h in groups && g.numa >= 0 && g.numa == h.numa ==> g.socket == h.socket)
  }

  method ValidateCPUDeviceGroups(groups: set<Group>) returns (ok: bool)
    ensures ok <==> GroupsOk(groups)
  {
    var byNUMA: map<int, int>, numaGrouped: set<Group> := map[], {};
    var rest := groups;
    while rest != {}
      invariant rest <= groups
      invariant forall g :: g in numaGrouped <==> g in groups && g !in rest && g.numa >= 0
      invariant forall g :: g in numaGrouped ==> g.numa in byNUMA && byNUMA[g.numa] == g.socket
      invariant forall k :: k in byNUMA ==> exists g :: g in numaGrouped && g.numa == k && g.socket == byNUMA[k]
    {
      var group := Pick(rest);
      rest := rest - {group};
      if group.numa < 0 {
        continue;
      }
      numaGrouped := numaGrouped + {group};
      if group.numa in byNUMA && byNUMA[group.numa] != group.socket {
        return false;
      }
      assert group in numaGrouped;
      byNUMA := byNUMA[group.numa := group.socket];
    }
    if |numaGrouped| != 0 && |numaGrouped| != |groups| {
      Mixed(groups, numaGrouped);
      return false;
    }
    AllOrNone(groups, numaGrouped);
    return true;
  }

  lemma Mixed(groups: set<Group>, numaGrouped: set<Group>)
    requires numaGrouped != {} && |numaGrouped| != |groups|
    requires forall g :: g in numaGrouped <==> g in groups && g.numa >= 0
    ensures !GroupsOk(groups)
  {
    var g :| g in numaGrouped;
    assert g in groups && g.numa >= 0;
    assert numaGrouped != groups;
    var h :| h in groups && h !in numaGrouped;
  }

  lemma AllOrNone(groups: set<Group>, numaGrouped: set<Group>)
    requires |numaGrouped| == 0 || |numaGrouped| == |groups|
    requires forall g :: g in numaGrouped <==> g in groups && g.numa >= 0
    requires forall g, h :: g in numaGrouped && h in numaGrouped && g.numa == h.numa ==> g.socket == h.socket
    ensures GroupsOk(groups)
  {
    if |numaGrouped| == |groups| {
      if h :| h in groups && h !in numaGrouped {
        assert numaGrouped <= groups - {h};
        CardOfSubset(numaGrouped, groups - {h});
      }
    } else {
      assert numaGrouped == {};
      forall g | g in groups ensures g.numa < 0 {
        assert g !in numaGrouped;
      }
    }
  }

  // --- uniform geometry, in terms of the devices alone ---

  ghost predicate UniformThreads(inv: Inventory) {
    forall a, b :: a in Cores(inv) && b in Cores(inv) ==> |Class(inv, a)| == |Class(inv, b)|
  }

  ghost function CoresIn(cores: set<Core>, g: Group): set<Core> {
    set c | c in cores && c.group == g
  }

  ghost predicate UniformCores(inv: Inventory) {
    forall g, h :: g in Groups(inv) && h in Groups(inv) ==> |CoresIn(Cores(inv), g)| == |CoresIn(Cores(inv), h)|
  }

  lemma {:induction false} CountIsCard(cores: seq<Core>, g: Group)
    requires Distinct(cores)
    ensures CountIn(cores, g) == |CoresIn(Elements(cores), g)|
  {
    if cores != [] {
      var before, last := cores[..|cores| - 1], cores[|cores| - 1];
      CountIsCard(before, g);
      assert cores == before + [last];
      OneMoreIn(Elements(before), last, g);
      assert Elements(cores) == Elements(before) + {last};
    }
  }

  lemma OneMoreIn(cores: set<Core>, last: Core, g: Group)
    requires last !in cores
    ensures |CoresIn(cores + {last}, g)| == |CoresIn(cores, g)| + if last.group == g then 1 else 0
  {
    if last.group == g {
      assert CoresIn(cores + {last}, g) == CoresIn(cores, g) + {last};
    } else {
      assert CoresIn(cores + {last}, g) == CoresIn(cores, g);
    }
  }

  lemma CoreOrder()
    ensures StrictTotal(CoreLt)
  {
  }

  lemma UniformAsListed(inv: Inventory, cores: seq<Core>, m: CPUMap)
    requires Maps(inv, cores, m)
    ensures UniformThreads(inv) <==> SameThreads(m)
    ensures UniformCores(inv) <==> SameCores(inv, cores)
  {
    CoreOrder();
    AscendingDistinct(cores, CoreLt);
    assert Elements(cores) == Cores(inv);
    forall g ensures CountIn(cores, g) == |CoresIn(Cores(inv), g)| {
      CountIsCard(cores, g);
    }
    if SameThreads(m) {
      forall a, b | a in Cores(inv) && b in Cores(inv) ensures |Class(inv, a)| == |Class(inv, b)| {
        assert a in cores && b in cores;
      }
    }
    if UniformThreads(inv) {
      forall j, k | 0 <= j < |cores| && 0 <= k < |cores| ensures |m.abstractToMachine[j]| == |m.abstractToMachine[k]| {
        assert cores[j] in cores && cores[k] in cores;
      }
    }
  }

  // --- the whole node ---

  /** No CPU has its sibling among another device's CPUs. */
  ghost predicate SiblingsAtHome(inv: Inventory) {
    forall m, n, x ::
             m in inv && n in inv && x in inv[m].cpus && x in inv[m].siblings && inv[m].siblings[x] in inv[n].cpus ==>
               m == n
  }

  ghost predicate Uniform(inv: Inventory) {
    GroupsOk(Groups(inv)) && UniformThreads(inv) && UniformCores(inv) && SiblingsAtHome(inv)
  }

  method CheckSiblings(inv: Inventory, m: CPUMap, ghost cores: seq<Core>) returns (ok: bool)
    requires Sound(inv) && Maps(inv, cores, m)
    ensures ok <==> SiblingsAtHome(inv)
  {
    var names := inv.Keys;
    while names != {}
      invariant names <= inv.Keys
      invariant forall n :: n in inv && n !in names ==> AtHome(inv, n)
    {
      var name := Pick(names);
      names := names - {name};
      ok := CheckDevice(inv, m, cores, name);
      if !ok {
        assert !AtHome(inv, name);
        return false;
      }
    }
    return true;
  }

  ghost predicate AtHome(inv: Inventory, m: string)
    requires m in inv
  {
    forall n, x :: n in inv && x in inv[m].cpus && x in inv[m].siblings && inv[m].siblings[x] in inv[n].cpus ==> m == n
  }

  method CheckDevice(inv: Inventory, m: CPUMap, ghost cores: seq<Core>, name: string) returns (ok: bool)
    requires Sound(inv) && Maps(inv, cores, m) && name in inv
    ensures ok <==> AtHome(inv, name)
  {
    var d := inv[name];
    var cpus := ListAscending(d.cpus, IntLt);
    for k := 0 to |cpus|
      invariant forall j, n :: 0 <= j < k && n in inv && cpus[j] in d.siblings && d.siblings[cpus[j]] in inv[n].cpus ==>
                  n == name
    {
      assert cpus[k] in cpus;
      if cpus[k] in d.siblings && d.siblings[cpus[k]] in m.infos {
        var other := m.infos[d.siblings[cpus[k]]];
        var n, x :| n in inv && x in inv[n].cpus && other == InfoOf(inv[n], x);
        if other.name != d.name {
          assert d.siblings[cpus[k]] in inv[n].cpus && n != name;
          return false;
        }
      }
      forall n | n in inv && cpus[k] in d.siblings && d.siblings[cpus[k]] in inv[n].cpus ensures n == name {
        assert InfoOf(inv[n], d.siblings[cpus[k]]) in Infos(inv);
      }
    }
    forall n, x | n in inv && x in d.cpus && x in d.siblings && d.siblings[x] in inv[n].cpus ensures n == name {
      assert x in cpus;
    }
    return true;
  }

  /** NewNodeInfoFromResourceSlices, on the devices of the selected slices: it accepts exactly the inventories whose
      devices are apart and well formed and whose geometry is uniform. */
  method NewNodeInfo(devices: seq<Device>) returns (r: Result<NodeInfo, string>)
    requires forall k :: 0 <= k < |devices| ==> devices[k].cpus != {}
    ensures r.Ok? <==> Apart(devices) && (forall k :: 0 <= k < |devices| ==> DeviceOk(devices[k]))
                       && forall inv :: Filed(devices, inv) ==> Uniform(inv)
    ensures r.Ok? ==>
              Filed(devices, r.value.devices) && Sound(r.value.devices)
              && exists cores :: Maps(r.value.devices, cores, r.value.cpuMap)
  {
    var filed := FileDevices(devices);
    if filed.Err? {
      return Err(filed.error);
    }
    var inv, infos := filed.value.0, filed.value.1;
    forall other | Filed(devices, other) ensures other == inv {
      FiledOnce(devices, inv, other);
    }
    var m := NewCPUMap(infos, inv);
    ghost var cores :| Maps(inv, cores, m);
    UniformAsListed(inv, cores, m);
    var groups := set n | n in inv :: inv[n].group;
    var grouped := ValidateCPUDeviceGroups(groups);
    if !grouped {
      return Err("CPU devices mix grouping");
    }
    var shape := Geometry(m, inv, cores);
    if shape.Err? {
      return Err(shape.error);
    }
    var home := CheckSiblings(inv, m, cores);
    if !home {
      return Err("CPU has a sibling in another device");
    }
    return Ok(NodeInfo(inv, m));
  }

  lemma FiledOnce(devices: seq<Device>, a: Inventory, b: Inventory)
    requires Filed(devices, a) && Filed(devices, b)
    ensures a == b
  {
    forall n ensures n in a <==> n in b {
      if n in a { var k :| 0 <= k < |devices| && devices[k].name == n; }
      if n in b { var k :| 0 <= k < |devices| && devices[k].name == n; }
    }
    forall n | n in a ensures a[n] == b[n] {
      var k :| 0 <= k < |devices| && devices[k].name == n;
    }
  }
}
