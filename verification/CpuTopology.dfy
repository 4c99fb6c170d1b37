/** A node's CPU inventory and Slurm's abstract cores (internal/nodeinfo: cpuinfo.go, cpumap.go, fingerprint.go,
    nodeinfo.go). */
module CpuTopology {
  import opened Ordering

  /** What a grouped CPU device stands for: a socket (numa is -1) or a NUMA node of a socket. */
  datatype Group = Group(socket: int, numa: int)

  /** A core, by the group of its device and its lowest allocatable CPU. */
  datatype Core = Core(group: Group, id: int)

  /** A device with its parsed CPU IDs and decoded SMT layout. */
  datatype Device = Device(name: string, group: Group, cpus: set<int>, siblings: map<int, int>, smt: bool,
                           capacity: int, shared: bool)

  datatype CPUInfo = CPUInfo(group: Group, core: int, cpu: int, name: string) {
    function Key(): Core { Core(group, core) }
  }

  type Inventory = map<string, Device>

  datatype CPUMap = CPUMap(infos: map<int, CPUInfo>, abstractToMachine: seq<set<int>>, machineToAbstract: map<int, int>)

  // --- orders ---

  predicate GroupLt(a: Group, b: Group) {
    a.socket < b.socket || (a.socket == b.socket && a.numa < b.numa)
  }

  predicate CoreLt(a: Core, b: Core) {
    GroupLt(a.group, b.group) || (a.group == b.group && a.id < b.id)
  }

  /** The order NewCPUMap sorts by; CPU IDs are distinct, so names never decide. */
  predicate InfoLt(a: CPUInfo, b: CPUInfo) {
    CoreLt(a.Key(), b.Key()) || (a.Key() == b.Key() && (a.cpu < b.cpu || (a.cpu == b.cpu && StringLt(a.name, b.name))))
  }

  lemma InfoOrder()
    ensures StrictTotal(InfoLt)
  {
    StringOrder();
  }

  // --- the CPUs of a device ---

  function Min(a: int, b: int): int { if a < b then a else b }

  /** A core is named by its lowest allocatable CPU: a sibling outside the device does not count. */
  function CoreOf(d: Device, cpu: int): int {
    if cpu in d.siblings && d.siblings[cpu] >= 0 && d.siblings[cpu] in d.cpus then Min(cpu, d.siblings[cpu]) else cpu
  }

  function InfoOf(d: Device, cpu: int): CPUInfo {
    CPUInfo(d.group, CoreOf(d, cpu), cpu, d.name)
  }

  /** With a decoded layout's mutual siblings, two allocatable CPUs share a core exactly when they are siblings. */
  lemma CoreIsSiblingPair(d: Device, x: int, y: int)
    requires forall z :: z in d.siblings ==>
               d.siblings[z] == -1 || (d.siblings[z] in d.siblings && d.siblings[d.siblings[z]] == z)
    requires d.cpus <= d.siblings.Keys && (forall z :: z in d.cpus ==> z >= 0) && x in d.cpus && y in d.cpus && x != y
    ensures CoreOf(d, x) == CoreOf(d, y) <==> d.siblings[x] == y
  {
    assert x in d.siblings && y in d.siblings;
    if d.siblings[x] == y {
      assert d.siblings[y] == x;
    }
    if CoreOf(d, x) == CoreOf(d, y) && d.siblings[x] >= 0 && d.siblings[x] in d.cpus {
      assert d.siblings[d.siblings[x]] == x;
    }
    if CoreOf(d, x) == CoreOf(d, y) && d.siblings[y] >= 0 && d.siblings[y] in d.cpus {
      assert d.siblings[d.siblings[y]] == y;
    }
  }

  /** A core's ID is its lowest allocatable CPU. */
  lemma CoreIsLowest(d: Device, x: int)
    requires forall z :: z in d.siblings ==>
               d.siblings[z] == -1 || (d.siblings[z] in d.siblings && d.siblings[d.siblings[z]] == z)
    requires d.cpus <= d.siblings.Keys && (forall z :: z in d.cpus ==> z >= 0) && x in d.cpus
    ensures CoreOf(d, x) in d.cpus && CoreOf(d, CoreOf(d, x)) == CoreOf(d, x)
    ensures forall y :: y in d.cpus && CoreOf(d, y) == CoreOf(d, x) ==> CoreOf(d, x) <= y
  {
    if d.siblings[x] >= 0 && d.siblings[x] in d.cpus {
      assert d.siblings[d.siblings[x]] == x;
    }
  }

  /** Devices are filed under their names, and share neither groups nor CPUs. */
  ghost predicate Sound(devices: Inventory) {
    && (forall n :: n in devices ==> devices[n].name == n && devices[n].cpus != {})
    && (forall m, n :: m in devices && n in devices && m != n ==>
         devices[m].group != devices[n].group && devices[m].cpus !! devices[n].cpus)
  }

  ghost function Infos(devices: Inventory): set<CPUInfo> {
    set n, x | n in devices && x in devices[n].cpus :: InfoOf(devices[n], x)
  }

  ghost function Cores(devices: Inventory): set<Core> {
    set i | i in Infos(devices) :: i.Key()
  }

  /** The CPUs of one core, as findCoreSiblings finds them: by socket and core ID only. */
  ghost function Class(devices: Inventory, core: Core): set<int> {
    set i | i in Infos(devices) && i.group.socket == core.group.socket && i.core == core.id :: i.cpu
  }

  /** CPUs with one core ID belong to one device, although findCoreSiblings does not look at NUMA nodes: the core ID is
      itself a CPU of the device. */
  lemma CoreNamesDevice(devices: Inventory, a: CPUInfo, b: CPUInfo)
    requires Sound(devices) && a in Infos(devices) && b in Infos(devices) && a.core == b.core
    ensures a.name == b.name && a.group == b.group && a.Key() == b.Key()
  {
    var m, x :| m in devices && x in devices[m].cpus && a == InfoOf(devices[m], x);
    var n, y :| n in devices && y in devices[n].cpus && b == InfoOf(devices[n], y);
    assert a.core in devices[m].cpus && b.core in devices[n].cpus;
  }

  lemma CpuNamesInfo(devices: Inventory, a: CPUInfo, b: CPUInfo)
    requires Sound(devices) && a in Infos(devices) && b in Infos(devices) && a.cpu == b.cpu
    ensures a == b
  {
    var m, x :| m in devices && x in devices[m].cpus && a == InfoOf(devices[m], x);
    var n, y :| n in devices && y in devices[n].cpus && b == InfoOf(devices[n], y);
  }

  lemma ClassMembers(devices: Inventory, i: CPUInfo, core: Core)
    requires Sound(devices) && i in Infos(devices) && core in Cores(devices)
    ensures i.cpu in Class(devices, core) <==> i.Key() == core
  {
    var k :| k in Infos(devices) && k.Key() == core;
    if i.cpu in Class(devices, core) {
      var j :| j in Infos(devices) && j.group.socket == core.group.socket && j.core == core.id && j.cpu == i.cpu;
      CpuNamesInfo(devices, i, j);
      CoreNamesDevice(devices, i, k);
    }
  }

  // --- the core map ---

  /** The abstract cores list every core in ascending order, and the two directions agree. */
  ghost predicate Maps(devices: Inventory, cores: seq<Core>, m: CPUMap) {
    && Ascending(cores, CoreLt) && (forall c :: c in cores <==> c in Cores(devices))
    && |m.abstractToMachine| == |cores|
    && (forall k :: 0 <= k < |cores| ==> m.abstractToMachine[k] == Class(devices, cores[k]))
    && (forall i :: i in Infos(devices) ==> i.cpu in m.infos && m.infos[i.cpu] == i)
    && (forall x :: x in m.infos ==> m.infos[x] in Infos(devices) && m.infos[x].cpu == x)
    && (forall x :: x in m.machineToAbstract ==>
          0 <= m.machineToAbstract[x] < |cores| && x in m.abstractToMachine[m.machineToAbstract[x]])
    && (forall k, x :: 0 <= k < |cores| && x in m.abstractToMachine[k] ==>
         x in m.machineToAbstract && m.machineToAbstract[x] == k)
  }

  method FindCoreSiblings(infos: seq<CPUInfo>, sibling: CPUInfo, ghost devices: Inventory) returns (cpus: set<int>)
    requires Elements(infos) == Infos(devices)
    ensures cpus == Class(devices, sibling.Key())
  {
    cpus := {};
    for n := 0 to |infos|
      invariant forall x :: x in cpus <==>
                  exists k ::
                    0 <= k < n && infos[k].group.socket == sibling.group.socket && infos[k].core == sibling.core
                    && infos[k].cpu == x
    {
      if sibling.group.socket == infos[n].group.socket && sibling.core == infos[n].core {
        cpus := cpus + {infos[n].cpu};
      }
    }
    forall x ensures x in cpus <==> x in Class(devices, sibling.Key()) {
      if x in cpus {
        var k :| 0 <= k < |infos| && infos[k].group.socket == sibling.group.socket && infos[k].core == sibling.core
        && infos[k].cpu == x;
        assert infos[k] in Elements(infos);
      }
      if x in Class(devices, sibling.Key()) {
        var i :| i in Infos(devices) && i.group.socket == sibling.group.socket && i.core == sibling.core && i.cpu == x;
        assert i in Elements(infos);
      }
    }
  }

  ghost predicate Seen(infos: seq<CPUInfo>, n: nat, core: Core)
    requires n <= |infos|
  {
    exists j :: 0 <= j < n && infos[j].Key() == core
  }

  /** The core list after the first n CPUs: their cores, in order, each once. */
  ghost predicate CoresSoFar(devices: Inventory, infos: seq<CPUInfo>, n: nat, cores: seq<Core>, classes: seq<set<int>>)
    requires n <= |infos|
  {
    && Ascending(cores, CoreLt) && |cores| == |classes|
    && (forall k :: 0 <= k < |cores| ==> classes[k] == Class(devices, cores[k]))
    && (forall k :: 0 <= k < |cores| ==> Seen(infos, n, cores[k]))
    && (forall j :: 0 <= j < n ==> infos[j].Key() in cores)
  }

  lemma SeenBefore(devices: Inventory, infos: seq<CPUInfo>, n: nat, core: Core)
    requires Elements(infos) == Infos(devices) && Ascending(infos, InfoLt) && n < |infos| && Seen(infos, n, core)
    ensures core in Cores(devices) && Seen(infos, n + 1, core)
            && (core == infos[n].Key() || CoreLt(core, infos[n].Key()))
  {
    var j :| 0 <= j < n && infos[j].Key() == core;
    assert infos[j] in Elements(infos) && InfoLt(infos[j], infos[n]);
  }

  lemma SameClass(devices: Inventory, i: CPUInfo, core: Core)
    requires Sound(devices) && i in Infos(devices) && core in Cores(devices)
             && Class(devices, core) == Class(devices, i.Key())
    ensures core == i.Key()
  {
    assert i.cpu in Class(devices, i.Key());
    ClassMembers(devices, i, core);
  }

  lemma OneMoreCore(devices: Inventory, infos: seq<CPUInfo>, n: nat, cores: seq<Core>, classes: seq<set<int>>)
    requires Sound(devices) && Elements(infos) == Infos(devices) && Ascending(infos, InfoLt)
    requires n < |infos| && CoresSoFar(devices, infos, n, cores, classes)
    ensures Class(devices, infos[n].Key()) in classes <==> infos[n].Key() in cores
    ensures infos[n].Key() in cores ==> CoresSoFar(devices, infos, n + 1, cores, classes)
    ensures infos[n].Key() !in cores ==>
              CoresSoFar(devices, infos, n + 1, cores + [infos[n].Key()], classes + [Class(devices, infos[n].Key())])
  {
    var i := infos[n];
    assert i in Elements(infos);
    forall k | 0 <= k < |cores|
      ensures cores[k] in Cores(devices) && Seen(infos, n + 1, cores[k])
              && (cores[k] == i.Key() || CoreLt(cores[k], i.Key()))
    {
      SeenBefore(devices, infos, n, cores[k]);
    }
    forall k | 0 <= k < |cores| && classes[k] == Class(devices, i.Key()) ensures cores[k] == i.Key() {
      SameClass(devices, i, cores[k]);
    }
    if i.Key() in cores {
      var k :| 0 <= k < |cores| && cores[k] == i.Key();
      assert classes[k] == Class(devices, i.Key());
    } else {
      assert Seen(infos, n + 1, i.Key()) by { assert infos[n].Key() == i.Key(); }
      AscendingAppend(cores, i.Key(), CoreLt);
    }
  }

  lemma SortedInfos(infos: seq<CPUInfo>)
    requires Distinct(infos)
    ensures Ascending(Sort(infos, InfoLt), InfoLt) && Elements(Sort(infos, InfoLt)) == Elements(infos)
  {
    InfoOrder();
    SortAscending(infos, InfoLt);
    MemberOfMultiset(Sort(infos, InfoLt), infos);
  }

  method ListCores(infos: seq<CPUInfo>, ghost devices: Inventory) returns (classes: seq<set<int>>)
    requires Sound(devices) && Elements(infos) == Infos(devices) && Ascending(infos, InfoLt)
    ensures exists cores :: CoresSoFar(devices, infos, |infos|, cores, classes)
  {
    classes := [];
    ghost var cores: seq<Core> := [];
    for n := 0 to |infos|
      invariant CoresSoFar(devices, infos, n, cores, classes)
    {
      var found := FindCoreSiblings(infos, infos[n], devices);
      OneMoreCore(devices, infos, n, cores, classes);
      if found !in classes {
        classes := classes + [found];
        cores := cores + [infos[n].Key()];
      }
    }
  }

  method NewCPUMap(infos: seq<CPUInfo>, ghost devices: Inventory) returns (m: CPUMap)
    requires Sound(devices) && Distinct(infos) && Elements(infos) == Infos(devices)
    ensures exists cores :: Maps(devices, cores, m)
  {
    SortedInfos(infos);
    var sorted := Sort(infos, InfoLt);
    var classes := ListCores(sorted, devices);
    ghost var cores :| CoresSoFar(devices, sorted, |sorted|, cores, classes);
    m := AssembleMap(sorted, classes, cores, devices);
  }

  method AssembleMap(infos: seq<CPUInfo>, classes: seq<set<int>>, ghost cores: seq<Core>, ghost devices: Inventory)
    returns (m: CPUMap)
    requires Sound(devices) && Elements(infos) == Infos(devices) && CoresSoFar(devices, infos, |infos|, cores, classes)
    ensures Maps(devices, cores, m)
  {
    CoresComplete(devices, infos, cores, classes);
    var byCpu := IndexInfos(infos, devices);
    var back := Invert(classes, cores, devices);
    m := CPUMap(byCpu, classes, back);
  }

  lemma CoresComplete(devices: Inventory, infos: seq<CPUInfo>, cores: seq<Core>, classes: seq<set<int>>)
    requires Elements(infos) == Infos(devices) && CoresSoFar(devices, infos, |infos|, cores, classes)
    ensures forall c :: c in cores <==> c in Cores(devices)
  {
    forall c ensures c in cores <==> c in Cores(devices) {
      if c in cores {
        var k :| 0 <= k < |cores| && cores[k] == c;
        assert Seen(infos, |infos|, cores[k]);
        var j :| 0 <= j < |infos| && infos[j].Key() == cores[k];
        assert infos[j] in Elements(infos);
      }
      if c in Cores(devices) {
        var i :| i in Infos(devices) && i.Key() == c;
        assert i in Elements(infos);
      }
    }
  }

  method IndexInfos(infos: seq<CPUInfo>, ghost devices: Inventory) returns (byCpu: map<int, CPUInfo>)
    requires Sound(devices) && Elements(infos) == Infos(devices)
    ensures forall i :: i in Infos(devices) ==> i.cpu in byCpu && byCpu[i.cpu] == i
    ensures forall x :: x in byCpu ==> byCpu[x] in Infos(devices) && byCpu[x].cpu == x
  {
    byCpu := map[];
    for n := 0 to |infos|
      invariant forall j :: 0 <= j < n ==> infos[j].cpu in byCpu && byCpu[infos[j].cpu] == infos[j]
      invariant forall x :: x in byCpu ==> byCpu[x] in Elements(infos) && byCpu[x].cpu == x
    {
      forall j | 0 <= j < n && infos[j].cpu == infos[n].cpu ensures infos[j] == infos[n] {
        assert infos[j] in Elements(infos) && infos[n] in Elements(infos);
        CpuNamesInfo(devices, infos[j], infos[n]);
      }
      byCpu := byCpu[infos[n].cpu := infos[n]];
    }
    forall i | i in Infos(devices) ensures i.cpu in byCpu && byCpu[i.cpu] == i {
      assert i in Elements(infos);
    }
  }

  lemma ClassesApart(devices: Inventory, a: Core, b: Core, x: int)
    requires Sound(devices) && a in Cores(devices) && b in Cores(devices) && x in Class(devices, a)
             && x in Class(devices, b)
    ensures a == b
  {
    var i :| i in Infos(devices) && i.group.socket == a.group.socket && i.core == a.id && i.cpu == x;
    ClassMembers(devices, i, a);
    ClassMembers(devices, i, b);
  }

  ghost predicate Inverted(classes: seq<set<int>>, n: nat, back: map<int, int>)
    requires n <= |classes|
  {
    && (forall x :: x in back ==> 0 <= back[x] < n && x in classes[back[x]])
    && (forall k :: 0 <= k < n ==> forall x :: x in classes[k] ==> x in back && back[x] == k)
  }

  ghost predicate AllApart(classes: seq<set<int>>) {
    forall j, k :: 0 <= j < k < |classes| ==> classes[j] !! classes[k]
  }

  lemma ClassesAllApart(classes: seq<set<int>>, cores: seq<Core>, devices: Inventory)
    requires Sound(devices) && |classes| == |cores| && Ascending(cores, CoreLt)
             && (forall c :: c in cores ==> c in Cores(devices))
    requires forall k :: 0 <= k < |cores| ==> classes[k] == Class(devices, cores[k])
    ensures AllApart(classes)
  {
    forall j, k | 0 <= j < k < |classes| ensures classes[j] !! classes[k] {
      forall x | x in classes[j] ensures x !in classes[k] {
        if x in classes[k] {
          ClassesApart(devices, cores[j], cores[k], x);
        }
      }
    }
  }

  lemma InvertNext(classes: seq<set<int>>, n: nat, back: map<int, int>)
    requires n < |classes| && AllApart(classes) && Inverted(classes, n, back)
    ensures Inverted(classes, n + 1, back + map x | x in classes[n] :: n)
  {
    var next := back + map x | x in classes[n] :: n;
    forall k | 0 <= k < n + 1 ensures forall x :: x in classes[k] ==> x in next && next[x] == k {
      if k < n { assert classes[k] !! classes[n]; }
    }
  }

  method Invert(classes: seq<set<int>>, ghost cores: seq<Core>, ghost devices: Inventory) returns (back: map<int, int>)
    requires Sound(devices) && |classes| == |cores| && Ascending(cores, CoreLt)
             && (forall c :: c in cores ==> c in Cores(devices))
    requires forall k :: 0 <= k < |cores| ==> classes[k] == Class(devices, cores[k])
    ensures Inverted(classes, |classes|, back)
  {
    ClassesAllApart(classes, cores, devices);
    back := InvertAll(classes);
  }

  method InvertAll(classes: seq<set<int>>) returns (back: map<int, int>)
    requires AllApart(classes)
    ensures Inverted(classes, |classes|, back)
  {
    back := map[];
    for n := 0 to |classes|
      invariant Inverted(classes, n, back)
    {
      InvertNext(classes, n, back);
      back := back + map x | x in classes[n] :: n;
    }
  }
}
