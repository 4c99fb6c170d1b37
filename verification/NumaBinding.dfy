/** The abstract cores of NUMA nodes, and the binding of devices to them (internal/nodeinfo/nodeinfo.go, NUMACores;
    internal/dra/gres.go, WithNUMACores). */
module NumaBinding {
  import opened Ordering
  import opened CpuTopology
  import opened CpuGeometry
  import opened CpuInventory
  import opened NumaCores

  ghost predicate ListsCores(m: CPUMap, cpus: set<int>, list: seq<int>) {
    Ascending(list, IntLt) && forall i :: i in list <==> Touches(m, cpus, i)
  }

  /** The inner loop of NUMACores: the cores of one device, each once, sorted. */
  method DeviceCores(m: CPUMap, cpus: set<int>) returns (list: seq<int>)
    ensures ListsCores(m, cpus, list)
  {
    var ids := ListAscending(cpus, IntLt);
    var found: seq<int> := [];
    for n := 0 to |ids|
      invariant Distinct(found)
      invariant forall k :: 0 <= k < |found| ==> Touches(m, cpus, found[k])
      invariant forall j :: 0 <= j < n && ids[j] in m.machineToAbstract ==> m.machineToAbstract[ids[j]] in found
    {
      assert ids[n] in ids;
      if ids[n] in m.machineToAbstract && m.machineToAbstract[ids[n]] !in found {
        found := found + [m.machineToAbstract[ids[n]]];
      }
    }
    forall i ensures i in found <==> Touches(m, cpus, i) {
      if Touches(m, cpus, i) {
        var x :| x in cpus && x in m.machineToAbstract && m.machineToAbstract[x] == i;
        assert x in ids;
      }
    }
    SortAscending(found, IntLt);
    MemberOfMultiset(Sort(found, IntLt), found);
    list := Sort(found, IntLt);
  }

  ghost function Block(k: nat, c: nat): seq<int> {
    seq(c, j => k * c + j)
  }

  lemma BlockHas(k: nat, c: nat, i: int)
    ensures i in Block(k, c) <==> InBlock(k, i, c)
    ensures Ascending(Block(k, c), IntLt)
  {
    assert (k + 1) * c == k * c + c;
    if InBlock(k, i, c) {
      assert Block(k, c)[i - k * c] == i;
    }
  }

  lemma BlockFits(k: nat, i: int, c: nat, s: nat)
    requires k < s && InBlock(k, i, c)
    ensures 0 <= i < s * c
  {
    assert (k + 1) * c <= s * c;
  }

  /** The cores a device's CPUs touch are the ones it owns. */
  lemma TouchedIsOwned(inv: Inventory, cores: seq<Core>, m: CPUMap, n: string, i: nat)
    requires Sound(inv) && Maps(inv, cores, m) && n in inv && i < |cores|
    ensures Touches(m, inv[n].cpus, i) <==> Owns(inv, m, n, i)
  {
    OwnedByGroup(inv, cores, m, n, i);
    CoreCpus(inv, cores, m, i);
    if Owns(inv, m, n, i) {
      var x := SomeElement(m.abstractToMachine[i]);
      assert m.machineToAbstract[x] == i;
    }
  }

  /** The cores of the k-th device are the k-th block. */
  lemma CoresAreBlock(inv: Inventory, cores: seq<Core>, m: CPUMap, shape: Shape, names: seq<string>, k: nat,
                      list: seq<int>)
    requires Sound(inv) && Maps(inv, cores, m) && HasShape(inv, cores, m, shape) && Listing(inv, names) && k < |names|
    requires ListsCores(m, inv[names[k]].cpus, list)
    ensures list == Block(k, shape.cores)
  {
    DeviceBlocks(inv, cores, m, shape, names);
    var n := names[k];
    forall i ensures i in list <==> i in Block(k, shape.cores) {
      BlockHas(k, shape.cores, i);
      if Touches(m, inv[n].cpus, i) {
        assert 0 <= i < |cores|;
        TouchedIsOwned(inv, cores, m, n, i);
      }
      if InBlock(k, i, shape.cores) {
        BlockFits(k, i, shape.cores, shape.sockets);
        TouchedIsOwned(inv, cores, m, n, i);
      }
    }
    BlockHas(k, shape.cores, 0);
    AscendingUnique(list, Block(k, shape.cores), IntLt);
  }

  /** What NUMACores starts from: an accepted inventory with its devices in order. */
  ghost predicate Ready(inv: Inventory, m: CPUMap, cores: seq<Core>, shape: Shape, names: seq<string>) {
    Sound(inv) && Maps(inv, cores, m) && HasShape(inv, cores, m, shape) && Listing(inv, names) && GroupsOk(Groups(inv))
  }

  method NodeCores(inv: Inventory, m: CPUMap, ghost cores: seq<Core>, ghost shape: Shape, ghost names: seq<string>,
                   n: string)
    returns (list: seq<int>)
    requires Ready(inv, m, cores, shape, names) && n in inv
    ensures forall k :: 0 <= k < |names| && names[k] == n ==> list == Block(k, shape.cores)
  {
    list := DeviceCores(m, inv[n].cpus);
    forall k | 0 <= k < |names| && names[k] == n ensures list == Block(k, shape.cores) {
      CoresAreBlock(inv, cores, m, shape, names, k, list);
    }
  }

  /** Different devices have different nodes. */
  lemma NodesApart(inv: Inventory, n: string, o: string)
    requires Sound(inv) && GroupsOk(Groups(inv)) && n in inv && o in inv
    requires inv[n].group.numa == inv[o].group.numa >= 0
    ensures n == o
  {
    assert inv[n].group in Groups(inv) && inv[o].group in Groups(inv);
  }

  /** NUMACores: nothing unless the devices are NUMA nodes, and then the k-th device's node has the k-th block of
      cores. */
  method NUMACores(inv: Inventory, m: CPUMap, ghost cores: seq<Core>, ghost shape: Shape, ghost names: seq<string>)
    returns (numa: map<int, seq<int>>)
    requires Ready(inv, m, cores, shape, names)
    ensures (exists n :: n in inv && inv[n].group.numa < 0) ==> numa == map[]
    ensures (forall n :: n in inv ==> inv[n].group.numa >= 0) ==> NodeBlocks(inv, shape, names, {}, numa)
  {
    if exists n :: n in inv && inv[n].group.numa < 0 {
      return map[];
    }
    numa := map[];
    var rest := inv.Keys;
    assert NodeBlocks(inv, shape, names, rest, numa);
    while rest != {}
      invariant rest <= inv.Keys && NodeBlocks(inv, shape, names, rest, numa)
    {
      var n := Pick(rest);
      var list := NodeCores(inv, m, cores, shape, names, n);
      OneMoreNode(inv, m, cores, shape, names, rest, numa, n, list);
      numa := numa[inv[n].group.numa := list];
      rest := rest - {n};
    }
  }

  lemma OneMoreNode(inv: Inventory, m: CPUMap, cores: seq<Core>, shape: Shape, names: seq<string>, rest: set<string>,
                    numa: map<int, seq<int>>, n: string, list: seq<int>)
    requires Ready(inv, m, cores, shape, names) && n in inv && n in rest && NodeBlocks(inv, shape, names, rest, numa)
    requires forall o :: o in inv ==> inv[o].group.numa >= 0
    requires forall k :: 0 <= k < |names| && names[k] == n ==> list == Block(k, shape.cores)
    ensures NodeBlocks(inv, shape, names, rest - {n}, numa[inv[n].group.numa := list])
  {
    forall k | 0 <= k < |names| && inv[names[k]].group.numa == inv[n].group.numa ensures names[k] == n {
      NodesApart(inv, names[k], n);
    }
  }

  /** The node of the k-th device has the k-th block, for the devices dealt with. */
  ghost predicate NodeBlocks(inv: Inventory, shape: Shape, names: seq<string>, rest: set<string>,
                             numa: map<int, seq<int>>)
    requires Listing(inv, names)
  {
    && (forall k :: 0 <= k < |names| && names[k] !in rest ==>
          inv[names[k]].group.numa in numa && numa[inv[names[k]].group.numa] == Block(k, shape.cores))
    && (forall node :: node in numa ==> exists n :: n in inv && inv[n].group.numa == node)
  }

  // --- binding ---

  ghost predicate OnNodes(numa: map<int, seq<int>>, nodes: seq<int>, i: int) {
    exists j :: 0 <= j < |nodes| && nodes[j] in numa && i in numa[nodes[j]]
  }

  /** The nodes' cores have no gap. */
  ghost predicate OneRange(numa: map<int, seq<int>>, nodes: seq<int>) {
    forall a, b, i :: OnNodes(numa, nodes, a) && OnNodes(numa, nodes, b) && a <= i <= b ==> OnNodes(numa, nodes, i)
  }

  /** Bound to exactly the nodes' cores if there are any and they form one range, and not bound otherwise. */
  ghost predicate Binds(numa: map<int, seq<int>>, nodes: seq<int>, bound: Option<seq<int>>) {
    && (bound.Some? <==> (exists i :: OnNodes(numa, nodes, i)) && OneRange(numa, nodes))
    && (bound.Some? ==> Ascending(bound.value, IntLt) && forall i :: i in bound.value <==> OnNodes(numa, nodes, i))
  }

  /** WithNUMACores, for one device: its nodes' cores, if there are any and they form one range. */
  method BindCores(numa: map<int, seq<int>>, nodes: seq<int>) returns (bound: Option<seq<int>>)
    ensures Binds(numa, nodes, bound)
  {
    var all: seq<int> := [];
    for j := 0 to |nodes|
      invariant forall i :: i in all <==> OnNodes(numa, nodes[..j], i)
    {
      var more := if nodes[j] in numa then numa[nodes[j]] else [];
      NodesMore(numa, nodes, j);
      all := all + more;
    }
    assert nodes[..|nodes|] == nodes;
    var cores := ListAscending((set i | i in all), IntLt);
    if |cores| == 0 {
      forall i ensures !OnNodes(numa, nodes, i) {
        assert i !in cores;
      }
      return None;
    }
    RangeIsOne(numa, nodes, cores);
    if cores[|cores| - 1] - cores[0] != |cores| - 1 {
      return None;
    }
    return Some(cores);
  }

  lemma RangeIsOne(numa: map<int, seq<int>>, nodes: seq<int>, cores: seq<int>)
    requires Ascending(cores, IntLt) && cores != [] && forall i :: i in cores <==> OnNodes(numa, nodes, i)
    ensures OneRange(numa, nodes) <==> cores[|cores| - 1] - cores[0] == |cores| - 1
    ensures OnNodes(numa, nodes, cores[0])
  {
    Range(cores);
    assert cores[0] in cores;
  }

  lemma NodesMore(numa: map<int, seq<int>>, nodes: seq<int>, j: nat)
    requires j < |nodes|
    ensures forall i :: OnNodes(numa, nodes[..j + 1], i) <==>
              OnNodes(numa, nodes[..j], i) || i in (if nodes[j] in numa then numa[nodes[j]] else [])
  {
    var before, more := nodes[..j], nodes[..j + 1];
    forall i
      ensures OnNodes(numa, more, i) <==>
                OnNodes(numa, before, i) || i in (if nodes[j] in numa then numa[nodes[j]] else []) {
      if k :| 0 <= k < |before| && before[k] in numa && i in numa[before[k]] {
        assert more[k] == before[k];
      }
      if k :| 0 <= k < |more| && more[k] in numa && i in numa[more[k]] {
        assert k < j ==> before[k] == more[k];
      }
      assert more[j] == nodes[j];
    }
  }

  /** A strictly ascending list of integers spans its length exactly when it has no gap. */
  lemma Range(s: seq<int>)
    requires Ascending(s, IntLt) && s != []
    ensures s[|s| - 1] - s[0] == |s| - 1 <==> forall a, b, i :: a in s && b in s && a <= i <= b ==> i in s
  {
    Spread(s, 0, |s| - 1);
    if s[|s| - 1] - s[0] == |s| - 1 {
      forall a, b, i | a in s && b in s && a <= i <= b ensures i in s {
        Ends(s, a);
        Ends(s, b);
        Spread(s, 0, i - s[0]);
        Spread(s, i - s[0], |s| - 1);
        assert s[i - s[0]] == i;
      }
    } else {
      assert s[0] in s && s[|s| - 1] in s;
      if forall a, b, i :: a in s && b in s && a <= i <= b ==> i in s {
        Gap(s);
      }
    }
  }

  lemma Ends(s: seq<int>, a: int)
    requires Ascending(s, IntLt) && a in s
    ensures s[0] <= a <= s[|s| - 1]
  {
    var k :| 0 <= k < |s| && s[k] == a;
    assert k > 0 ==> IntLt(s[0], s[k]);
    assert k < |s| - 1 ==> IntLt(s[k], s[|s| - 1]);
  }

  lemma {:induction false} Spread(s: seq<int>, i: int, j: int)
    requires Ascending(s, IntLt) && 0 <= i <= j < |s|
    ensures s[j] - s[i] >= j - i
    decreases j - i
  {
    if i < j {
      Spread(s, i, j - 1);
      assert IntLt(s[j - 1], s[j]);
    }
  }

  /** A list without gaps is no shorter than its span. */
  lemma Gap(s: seq<int>)
    requires Ascending(s, IntLt) && s != [] && forall i :: s[0] <= i <= s[|s| - 1] ==> i in s
    ensures s[|s| - 1] - s[0] == |s| - 1
  {
    Spread(s, 0, |s| - 1);
    var whole := seq(s[|s| - 1] - s[0] + 1, j => s[0] + j);
    forall i ensures i in s <==> i in whole {
      if i in s {
        Ends(s, i);
        assert whole[i - s[0]] == i;
      }
    }
    AscendingUnique(s, whole, IntLt);
  }

  /** A device with one CPU-bearing NUMA node is always bound, to that node's block. */
  lemma OneNodeBound(inv: Inventory, shape: Shape, names: seq<string>, numa: map<int, seq<int>>, nodes: seq<int>,
                     k: nat,
                     bound: Option<seq<int>>)
    requires Listing(inv, names) && NodeBlocks(inv, shape, names, {}, numa) && shape.cores > 0 && k < |names|
    requires inv[names[k]].group.numa in nodes
    requires forall j :: 0 <= j < |nodes| && nodes[j] in numa ==> nodes[j] == inv[names[k]].group.numa
    requires Binds(numa, nodes, bound)
    ensures bound == Some(Block(k, shape.cores))
  {
    var node, block := inv[names[k]].group.numa, Block(k, shape.cores);
    var j :| 0 <= j < |nodes| && nodes[j] == node;
    forall i ensures OnNodes(numa, nodes, i) <==> InBlock(k, i, shape.cores) {
      BlockHas(k, shape.cores, i);
      if i in block { assert nodes[j] in numa && i in numa[nodes[j]]; }
    }
    assert (k + 1) * shape.cores == k * shape.cores + shape.cores;
    assert OnNodes(numa, nodes, k * shape.cores);
    BlockHas(k, shape.cores, 0);
    forall i ensures i in bound.value <==> i in block {
      BlockHas(k, shape.cores, i);
    }
    AscendingUnique(bound.value, block, IntLt);
  }
}
