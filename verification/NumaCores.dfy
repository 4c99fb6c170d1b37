/** Which abstract cores a device owns, and the translations between bitmaps and CPU sets
    (internal/nodeinfo/nodeinfo.go, sortedCPUDeviceNames; cpumap.go). */
module NumaCores {
  import opened Ordering
  import opened CpuTopology
  import opened CpuGeometry
  import opened CpuInventory

  // --- device order ---

  function GroupOf(inv: Inventory, name: string): Group {
    if name in inv then inv[name].group else Group(-1, -1)
  }

  predicate NameLt(inv: Inventory, a: string, b: string) {
    GroupLt(GroupOf(inv, a), GroupOf(inv, b)) || (GroupOf(inv, a) == GroupOf(inv, b) && StringLt(a, b))
  }

  lemma NameOrder(inv: Inventory)
    ensures StrictTotal((a, b) => NameLt(inv, a, b))
  {
    StringOrder();
  }

  /** The devices in the order of their groups. */
  ghost predicate Listing(inv: Inventory, names: seq<string>) {
    && (forall k :: 0 <= k < |names| ==> names[k] in inv) && (forall n :: n in inv ==> n in names) && |names| == |inv|
    && forall i, j :: 0 <= i < j < |names| ==> names[i] != names[j] && GroupLt(inv[names[i]].group, inv[names[j]].group)
  }

  method SortedCPUDeviceNames(inv: Inventory) returns (names: seq<string>)
    requires Sound(inv)
    ensures Listing(inv, names)
  {
    NameOrder(inv);
    names := ListAscending(inv.Keys, (a, b) => NameLt(inv, a, b));
    assert |inv.Keys| == |inv|;
    forall i, j | 0 <= i < j < |names|
      ensures names[i] != names[j] && GroupLt(inv[names[i]].group, inv[names[j]].group)
    {
      assert names[i] in names && names[j] in names && NameLt(inv, names[i], names[j]);
      StringConnected(names[i], names[i]);
    }
    forall k | 0 <= k < |names| ensures names[k] in inv {
      assert names[k] in names;
    }
  }

  // --- blocks ---

  /** A core lies in one device or another, whole. */
  lemma OwnedByGroup(inv: Inventory, cores: seq<Core>, m: CPUMap, n: string, i: nat)
    requires Sound(inv) && Maps(inv, cores, m) && n in inv && i < |cores|
    ensures m.abstractToMachine[i] <= inv[n].cpus <==> cores[i].group == inv[n].group
    ensures m.abstractToMachine[i] !! inv[n].cpus <==> cores[i].group != inv[n].group
  {
    CoreCpus(inv, cores, m, i);
    forall x | x in m.abstractToMachine[i] ensures x in inv[n].cpus <==> cores[i].group == inv[n].group {
      var info := m.infos[x];
      var k, y :| k in inv && y in inv[k].cpus && info == InfoOf(inv[k], y);
    }
    var x := SomeElement(m.abstractToMachine[i]);
  }

  ghost function GroupsOf(inv: Inventory, names: seq<string>): seq<Group>
    requires Listing(inv, names)
  {
    seq(|names|, k requires 0 <= k < |names| => inv[names[k]].group)
  }

  lemma GroupBlocks(inv: Inventory, cores: seq<Core>, m: CPUMap, shape: Shape, names: seq<string>)
    requires Sound(inv) && Maps(inv, cores, m) && HasShape(inv, cores, m, shape) && Listing(inv, names)
    ensures Blocks(cores, GroupsOf(inv, names), shape.cores)
  {
    var groups := GroupsOf(inv, names);
    forall k | 0 <= k < |cores| ensures cores[k].group in groups {
      GroupListed(inv, cores, m, names, k);
      var j :| 0 <= j < |names| && inv[names[j]].group == cores[k].group;
      assert groups[j] == cores[k].group;
    }
    forall g | g in groups ensures CountIn(cores, g) == shape.cores {
      var k :| 0 <= k < |groups| && groups[k] == g;
      assert names[k] in inv && g in Groups(inv);
    }
    EqualBlocks(cores, groups, shape.cores);
  }

  /** With geometry (s, c, t) there are s * c abstract cores, and the k-th device in order owns exactly those of block
      k. */
  lemma DeviceBlocks(inv: Inventory, cores: seq<Core>, m: CPUMap, shape: Shape, names: seq<string>)
    requires Sound(inv) && Maps(inv, cores, m) && HasShape(inv, cores, m, shape) && Listing(inv, names)
    ensures |m.abstractToMachine| == shape.sockets * shape.cores
    ensures forall k, i :: 0 <= k < |names| && 0 <= i < |cores| ==>
              (Owns(inv, m, names[k], i) <==> InBlock(k, i, shape.cores))
  {
    GroupBlocks(inv, cores, m, shape, names);
    var groups := GroupsOf(inv, names);
    forall k, i | 0 <= k < |names| && 0 <= i < |cores|
      ensures Owns(inv, m, names[k], i) <==> InBlock(k, i, shape.cores)
    {
      OwnedByGroup(inv, cores, m, names[k], i);
      assert groups[k] == inv[names[k]].group;
    }
  }

  /** All CPUs of the i-th core are CPUs of the device. */
  ghost predicate Owns(inv: Inventory, m: CPUMap, n: string, i: int) {
    n in inv && 0 <= i < |m.abstractToMachine| && m.abstractToMachine[i] <= inv[n].cpus
  }

  lemma GroupListed(inv: Inventory, cores: seq<Core>, m: CPUMap, names: seq<string>, k: nat)
    requires Sound(inv) && Maps(inv, cores, m) && Listing(inv, names) && k < |cores|
    ensures exists j :: 0 <= j < |names| && inv[names[j]].group == cores[k].group
  {
    CoreCpus(inv, cores, m, k);
    var x := SomeElement(m.abstractToMachine[k]);
    var n, y :| n in inv && y in inv[n].cpus && m.infos[x] == InfoOf(inv[n], y);
    assert n in names;
    var j :| 0 <= j < |names| && names[j] == n;
  }

  // --- bitmaps and CPU sets ---

  type Bits = seq<bool>

  predicate InRange(m: CPUMap, bits: Bits) {
    forall k :: 0 <= k < |bits| && bits[k] ==> k < |m.abstractToMachine|
  }

  function Ones(bits: Bits): nat {
    if bits == [] then 0 else Ones(bits[..|bits| - 1]) + if bits[|bits| - 1] then 1 else 0
  }

  /** The CPUs of the cores in a bitmap; bits past the last core are ignored. */
  ghost function MachineOf(m: CPUMap, bits: Bits): set<int> {
    if bits == [] then {}
    else
      var n := |bits| - 1;
      MachineOf(m, bits[..n]) + if bits[n] && n < |m.abstractToMachine| then m.abstractToMachine[n] else {}
  }

  ghost predicate Named(m: CPUMap, bits: Bits, k: int, x: int) {
    0 <= k < |bits| && bits[k] && k < |m.abstractToMachine| && x in m.abstractToMachine[k]
  }

  lemma {:induction false} MachineHas(m: CPUMap, bits: Bits, x: int)
    ensures x in MachineOf(m, bits) <==> exists k :: Named(m, bits, k, x)
  {
    if bits != [] {
      var n, before := |bits| - 1, bits[..|bits| - 1];
      MachineHas(m, before, x);
      if k :| Named(m, before, k, x) {
        assert Named(m, bits, k, x);
      }
      if k :| Named(m, bits, k, x) {
        assert k < n ==> Named(m, before, k, x);
      }
      assert bits[n] && n < |m.abstractToMachine| && x in m.abstractToMachine[n] ==> Named(m, bits, n, x);
    }
  }

  /** A CPU of the set is on the core. */
  ghost predicate Touches(m: CPUMap, cpus: set<int>, k: int) {
    exists x :: x in cpus && x in m.machineToAbstract && m.machineToAbstract[x] == k
  }

  method ToMachineCPUs(m: CPUMap, bits: Bits) returns (cpus: set<int>)
    ensures cpus == MachineOf(m, bits)
  {
    cpus := {};
    for k := 0 to |bits|
      invariant cpus == MachineOf(m, bits[..k])
    {
      assert bits[..k + 1][..k] == bits[..k];
      if bits[k] && k < |m.abstractToMachine| {
        cpus := cpus + m.abstractToMachine[k];
      }
    }
    assert bits[..|bits|] == bits;
  }

  method ToAbstractCPUs(m: CPUMap, cpus: set<int>) returns (bits: Bits)
    requires forall x :: x in m.machineToAbstract ==> 0 <= m.machineToAbstract[x] < |m.abstractToMachine|
    ensures |bits| == |m.abstractToMachine|
    ensures forall k :: 0 <= k < |bits| ==> (bits[k] <==> Touches(m, cpus, k))
  {
    var list := ListAscending(cpus, IntLt);
    bits := seq(|m.abstractToMachine|, k => false);
    for n := 0 to |list|
      invariant |bits| == |m.abstractToMachine|
      invariant forall k :: 0 <= k < |bits| && bits[k] ==> Touches(m, cpus, k)
      invariant forall j :: 0 <= j < n && list[j] in m.machineToAbstract ==> bits[m.machineToAbstract[list[j]]]
    {
      assert list[n] in list;
      if list[n] in m.machineToAbstract {
        bits := bits[m.machineToAbstract[list[n]] := true];
      }
    }
    forall k | 0 <= k < |bits| && Touches(m, cpus, k) ensures bits[k] {
      var x :| x in cpus && x in m.machineToAbstract && m.machineToAbstract[x] == k;
      assert x in list;
    }
  }

  /** Machine-then-abstract is the identity on bitmaps within range. */
  lemma MachineThenAbstract(inv: Inventory, cores: seq<Core>, m: CPUMap, bits: Bits, k: nat)
    requires Sound(inv) && Maps(inv, cores, m) && k < |cores|
    ensures Touches(m, MachineOf(m, bits), k) <==> k < |bits| && bits[k]
  {
    if k < |bits| && bits[k] {
      CoreCpus(inv, cores, m, k);
      var x := SomeElement(m.abstractToMachine[k]);
      assert Named(m, bits, k, x);
      MachineHas(m, bits, x);
    }
    if Touches(m, MachineOf(m, bits), k) {
      var x :| x in MachineOf(m, bits) && x in m.machineToAbstract && m.machineToAbstract[x] == k;
      MachineHas(m, bits, x);
      var j :| Named(m, bits, j, x);
    }
  }

  /** Abstract-then-machine is the smallest union of whole cores that contains the CPUs. */
  lemma AbstractThenMachine(inv: Inventory, cores: seq<Core>, m: CPUMap, cpus: set<int>, back: Bits, other: Bits)
    requires Maps(inv, cores, m) && forall x :: x in cpus ==> x in m.machineToAbstract
    requires |back| == |cores| && forall k :: 0 <= k < |back| ==> (back[k] <==> Touches(m, cpus, k))
    ensures cpus <= MachineOf(m, back)
    ensures cpus <= MachineOf(m, other) ==> MachineOf(m, back) <= MachineOf(m, other)
  {
    forall x | x in cpus ensures x in MachineOf(m, back) {
      assert Named(m, back, m.machineToAbstract[x], x);
      MachineHas(m, back, x);
    }
    if cpus <= MachineOf(m, other) {
      forall y | y in MachineOf(m, back) ensures y in MachineOf(m, other) {
        MachineHas(m, back, y);
        var k :| Named(m, back, k, y);
        var x :| x in cpus && x in m.machineToAbstract && m.machineToAbstract[x] == k;
        MachineHas(m, other, x);
        var j :| Named(m, other, j, x);
        assert Named(m, other, j, y);
        MachineHas(m, other, y);
      }
    }
  }

  ghost predicate CoresApart(m: CPUMap, t: nat) {
    && (forall k :: 0 <= k < |m.abstractToMachine| ==> |m.abstractToMachine[k]| == t)
    && (forall j, k :: 0 <= j < k < |m.abstractToMachine| ==> m.abstractToMachine[j] !! m.abstractToMachine[k])
  }

  lemma MapApart(inv: Inventory, cores: seq<Core>, m: CPUMap, shape: Shape)
    requires Maps(inv, cores, m) && HasShape(inv, cores, m, shape)
    ensures CoresApart(m, shape.threads)
  {
    forall j, k, x | 0 <= j < k < |m.abstractToMachine| && x in m.abstractToMachine[j]
      ensures x !in m.abstractToMachine[k]
    {
      assert m.machineToAbstract[x] == j;
    }
  }

  lemma NotEarlier(m: CPUMap, t: nat, before: Bits, n: nat)
    requires CoresApart(m, t) && |before| <= n < |m.abstractToMachine|
    ensures MachineOf(m, before) !! m.abstractToMachine[n]
  {
    forall x | x in m.abstractToMachine[n] ensures x !in MachineOf(m, before) {
      MachineHas(m, before, x);
      forall k ensures !Named(m, before, k, x) {
      }
    }
  }

  /** A bitmap within range names as many CPUs as it has bits times threads per core. */
  lemma {:induction false} MachineCount(m: CPUMap, t: nat, bits: Bits)
    requires CoresApart(m, t) && InRange(m, bits)
    ensures |MachineOf(m, bits)| == Ones(bits) * t
  {
    if bits != [] {
      var n, before := |bits| - 1, bits[..|bits| - 1];
      MachineCount(m, t, before);
      if bits[n] {
        NotEarlier(m, t, before, n);
        Times(Ones(before), t);
      }
    }
  }

  lemma Times(a: nat, t: nat)
    ensures (a + 1) * t == a * t + t
  {
  }

  lemma {:induction false} AllOnes(bits: Bits)
    requires forall k :: 0 <= k < |bits| ==> bits[k]
    ensures Ones(bits) == |bits|
  {
    if bits != [] {
      AllOnes(bits[..|bits| - 1]);
    }
  }

  /** There are s * c * t CPUs. */
  lemma CpuCount(inv: Inventory, cores: seq<Core>, m: CPUMap, shape: Shape, names: seq<string>)
    requires Sound(inv) && Maps(inv, cores, m) && HasShape(inv, cores, m, shape) && Listing(inv, names)
    ensures |m.machineToAbstract| == shape.sockets * shape.cores * shape.threads
  {
    GroupBlocks(inv, cores, m, shape, names);
    var all := seq(|cores|, k => true);
    AllOnes(all);
    MapApart(inv, cores, m, shape);
    MachineCount(m, shape.threads, all);
    AllCpus(inv, cores, m, all);
    assert |m.machineToAbstract.Keys| == |m.machineToAbstract|;
  }

  lemma AllCpus(inv: Inventory, cores: seq<Core>, m: CPUMap, all: Bits)
    requires Maps(inv, cores, m) && |all| == |cores| && forall k :: 0 <= k < |all| ==> all[k]
    ensures m.machineToAbstract.Keys == MachineOf(m, all)
  {
    forall x ensures x in m.machineToAbstract.Keys <==> x in MachineOf(m, all) {
      MachineHas(m, all, x);
      if x in m.machineToAbstract { assert Named(m, all, m.machineToAbstract[x], x); }
    }
  }
}
