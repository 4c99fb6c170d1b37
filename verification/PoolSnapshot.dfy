/** The newest generation of each DRA resource pool (internal/dra/inventory.go). */
module PoolSnapshot {
  import opened Ordering

  datatype PoolID = PoolID(driver: string, pool: string)

  /** A device: its name, what profile selectors look at, and its NUMA nodes. */
  datatype Device = Device(name: string, attributes: int, numaNodes: seq<int>)

  /** What a slice says about its pool. It is not valid if it selects nodes other than by name. */
  datatype Header = Header(generation: int, count: int, nodeName: string, valid: bool)

  datatype Slice = Slice(id: PoolID, header: Header, devices: seq<Device>)

  type Snapshots = map<PoolID, seq<Slice>>

  function Generation(slices: seq<Slice>, id: PoolID): Option<int> {
    if slices == [] then None
    else
      var before, last := Generation(slices[..|slices| - 1], id), slices[|slices| - 1];
      if last.id == id && (before.None? || last.header.generation > before.value) then Some(last.header.generation)
      else before
  }

  function Select(slices: seq<Slice>, id: PoolID, generation: int): seq<Slice> {
    if slices == [] then []
    else
      var before, last := Select(slices[..|slices| - 1], id, generation), slices[|slices| - 1];
      if last.id == id && last.header.generation == generation then before + [last] else before
  }

  /** The slices of a pool's highest generation. */
  function Newest(slices: seq<Slice>, id: PoolID): seq<Slice> {
    match Generation(slices, id)
    case None => []
    case Some(g) => Select(slices, id, g)
  }

  lemma {:induction false} GenerationIsMax(slices: seq<Slice>, id: PoolID)
    ensures Generation(slices, id).None? <==> forall i :: 0 <= i < |slices| ==> slices[i].id != id
    ensures Generation(slices, id).Some? ==>
              && (forall i :: 0 <= i < |slices| && slices[i].id == id ==>
                   slices[i].header.generation <= Generation(slices, id).value)
              && Newest(slices, id) != []
  {
    if slices != [] {
      GenerationIsMax(slices[..|slices| - 1], id);
    }
  }

  lemma {:induction false} SelectNone(slices: seq<Slice>, id: PoolID, generation: int)
    requires forall i :: 0 <= i < |slices| && slices[i].id == id ==> slices[i].header.generation < generation
    ensures Select(slices, id, generation) == []
  {
    if slices != [] {
      SelectNone(slices[..|slices| - 1], id, generation);
    }
  }

  lemma {:induction false} SelectOnly(slices: seq<Slice>, id: PoolID, generation: int)
    ensures forall s :: s in Select(slices, id, generation) ==>
              s in slices && s.id == id && s.header.generation == generation
  {
    if slices != [] {
      SelectOnly(slices[..|slices| - 1], id, generation);
    }
  }

  /** What one more slice does to the newest generation of its pool. */
  lemma NewestNext(before: seq<Slice>, s: Slice, id: PoolID)
    ensures id != s.id ==> Newest(before + [s], id) == Newest(before, id)
    ensures id == s.id ==>
              Newest(before + [s], id) ==
                if Newest(before, id) == [] || s.header.generation > Newest(before, id)[0].header.generation then [s]
                else if s.header.generation < Newest(before, id)[0].header.generation then Newest(before, id)
                else Newest(before, id) + [s]
  {
    assert (before + [s])[..|before|] == before;
    GenerationIsMax(before, id);
    if Generation(before, id).Some? {
      SelectOnly(before, id, Generation(before, id).value);
      assert Newest(before, id)[0] in Newest(before, id);
      if id == s.id && s.header.generation > Generation(before, id).value {
        SelectNone(before, id, s.header.generation);
      }
    } else if id == s.id {
      SelectNone(before, id, s.header.generation);
    }
  }

  predicate Relevant(profiles: map<string, seq<string>>, driver: string) {
    driver in profiles && profiles[driver] != []
  }

  ghost predicate SnappedAt(profiles: map<string, seq<string>>, slices: seq<Slice>, m: Snapshots, id: PoolID) {
    (id in m <==> (id.driver in profiles && profiles[id.driver] != []) && Newest(slices, id) != [])
    && (id in m ==> m[id] == Newest(slices, id))
  }

  /** The snapshots are the newest generations of the pools whose drivers have profiles. */
  ghost predicate Snapped(profiles: map<string, seq<string>>, slices: seq<Slice>, m: Snapshots) {
    forall id :: SnappedAt(profiles, slices, m, id)
  }

  /** selectResourcePoolSnapshots and addResourceSliceToSnapshot. */
  method SelectSnapshots(profiles: map<string, seq<string>>, slices: seq<Slice>) returns (m: Snapshots)
    ensures Snapped(profiles, slices, m)
  {
    m := map[];
    for n := 0 to |slices|
      invariant Snapped(profiles, slices[..n], m)
    {
      var s := slices[n];
      assert slices[..n + 1] == slices[..n] + [s];
      Refreshed(profiles, slices[..n], s, m);
      if Relevant(profiles, s.id.driver) {
        m := AddSlice(m, s);
      }
    }
    assert slices[..|slices|] == slices;
  }

  function AddSlice(m: Snapshots, s: Slice): Snapshots {
    if s.id !in m || m[s.id] == [] || s.header.generation > m[s.id][0].header.generation then m[s.id := [s]]
    else if s.header.generation < m[s.id][0].header.generation then m
    else m[s.id := m[s.id] + [s]]
  }

  lemma Refreshed(profiles: map<string, seq<string>>, before: seq<Slice>, s: Slice, m: Snapshots)
    requires Snapped(profiles, before, m)
    ensures Snapped(profiles, before + [s], if Relevant(profiles, s.id.driver) then AddSlice(m, s) else m)
  {
    var after, next := before + [s], if Relevant(profiles, s.id.driver) then AddSlice(m, s) else m;
    forall id ensures SnappedAt(profiles, after, next, id) {
      assert SnappedAt(profiles, before, m, id);
      NewestNext(before, s, id);
    }
  }

  // --- complete pools ---

  ghost predicate SameHeaders(slices: seq<Slice>) {
    forall i, j :: 0 <= i < |slices| && 0 <= j < |slices| ==>
      slices[i].header.nodeName == slices[j].header.nodeName && slices[i].header.count == slices[j].header.count
  }

  ghost predicate AllNamed(slices: seq<Slice>) {
    forall i :: 0 <= i < |slices| ==> slices[i].header.valid && slices[i].header.nodeName != ""
  }

  predicate OnNode(slices: seq<Slice>, node: string) {
    slices != [] && slices[0].header.nodeName == node
  }

  /** A pool that names one node and one count throughout, and is complete if the node is ours. */
  ghost predicate PoolOk(slices: seq<Slice>, node: string) {
    AllNamed(slices) && SameHeaders(slices) && (OnNode(slices, node) ==> |slices| == slices[0].header.count)
  }

  method CheckPool(slices: seq<Slice>, node: string) returns (r: Result<bool, string>)
    requires slices != []
    ensures r.Ok? <==> PoolOk(slices, node)
    ensures r.Ok? ==> r.value == OnNode(slices, node)
    ensures r.Ok? ==> forall i :: 0 <= i < |slices| ==> (slices[i].header.nodeName == node <==> r.value)
    ensures r == Ok(true) ==> forall i :: 0 <= i < |slices| ==> slices[i].header.count == |slices|
  {
    var nodeName, count := slices[0].header.nodeName, slices[0].header.count;
    for i := 0 to |slices|
      invariant forall j :: 0 <= j < i ==> slices[j].header.valid && slices[j].header.nodeName != ""
      invariant forall j :: 0 <= j < i ==> slices[j].header.nodeName == nodeName && slices[j].header.count == count
    {
      var h := slices[i].header;
      if !h.valid || h.nodeName == "" {
        return Err("unsupported node selection");
      }
      if h.nodeName != nodeName {
        return Err("inconsistent nodeName values");
      }
      if h.count != count {
        return Err("inconsistent resourceSliceCount values");
      }
    }
    if nodeName != node {
      return Ok(false);
    }
    if |slices| != count {
      return Err("pool is incomplete");
    }
    return Ok(true);
  }

  predicate PoolLt(a: PoolID, b: PoolID) {
    StringLt(a.driver, b.driver) || (a.driver == b.driver && StringLt(a.pool, b.pool))
  }

  lemma PoolOrder()
    ensures StrictTotal(PoolLt)
  {
    StringOrder();
  }

  ghost predicate Ours(m: Snapshots, node: string, id: PoolID) {
    id in m && OnNode(m[id], node)
  }

  ghost predicate Sound(m: Snapshots, node: string, id: PoolID) {
    id in m && PoolOk(m[id], node)
  }

  ghost predicate Among(ids: seq<PoolID>, n: nat, id: PoolID)
    requires n <= |ids|
  {
    exists j :: 0 <= j < n && ids[j] == id
  }

  /** The pools of the node among the first n, in order. */
  ghost predicate Chosen(lt: (PoolID, PoolID) -> bool, m: Snapshots, node: string, ids: seq<PoolID>, n: nat,
                         chosen: seq<PoolID>)
    requires n <= |ids|
  {
    && (forall j :: 0 <= j < n ==> Sound(m, node, ids[j]) && (Ours(m, node, ids[j]) ==> ids[j] in chosen))
    && Ascending(chosen, lt)
    && (forall k :: 0 <= k < |chosen| ==> Among(ids, n, chosen[k]) && Ours(m, node, chosen[k]))
  }

  lemma ChosenBefore(lt: (PoolID, PoolID) -> bool, ids: seq<PoolID>, n: nat, id: PoolID)
    requires n < |ids| && Ascending(ids, lt) && Among(ids, n, id)
    ensures lt(id, ids[n]) && Among(ids, n + 1, id)
  {
    var j :| 0 <= j < n && ids[j] == id;
  }

  lemma ChooseNext(lt: (PoolID, PoolID) -> bool, m: Snapshots, node: string, ids: seq<PoolID>, n: nat,
                   chosen: seq<PoolID>)
    requires n < |ids| && Chosen(lt, m, node, ids, n, chosen) && Ascending(ids, lt) && Sound(m, node, ids[n])
    ensures Chosen(lt, m, node, ids, n + 1, if Ours(m, node, ids[n]) then chosen + [ids[n]] else chosen)
  {
    assert Among(ids, n + 1, ids[n]);
    forall k | 0 <= k < |chosen| ensures lt(chosen[k], ids[n]) && Among(ids, n + 1, chosen[k]) {
      ChosenBefore(lt, ids, n, chosen[k]);
    }
    AscendingAppend(chosen, ids[n], lt);
  }

  lemma ChosenAll(lt: (PoolID, PoolID) -> bool, m: Snapshots, node: string, ids: seq<PoolID>, chosen: seq<PoolID>)
    requires Chosen(lt, m, node, ids, |ids|, chosen) && forall id :: id in ids <==> id in m
    ensures forall id :: id in m ==> Sound(m, node, id)
    ensures forall id :: id in chosen <==> Ours(m, node, id)
  {
    forall id | id in m ensures Sound(m, node, id) && (Ours(m, node, id) ==> id in chosen) {
      assert id in ids;
    }
    forall id | id in chosen ensures Ours(m, node, id) {
      var k :| 0 <= k < |chosen| && chosen[k] == id;
    }
  }

  method ChoosePools(m: Snapshots, node: string, ids: seq<PoolID>, ghost lt: (PoolID, PoolID) -> bool)
    returns (r: Result<seq<PoolID>, string>)
    requires Ascending(ids, lt) && (forall i :: 0 <= i < |ids| ==> ids[i] in m && m[ids[i]] != [])
    ensures r.Ok? <==> forall i :: 0 <= i < |ids| ==> Sound(m, node, ids[i])
    ensures r.Ok? ==> Chosen(lt, m, node, ids, |ids|, r.value)
  {
    var chosen: seq<PoolID> := [];
    for n := 0 to |ids|
      invariant Chosen(lt, m, node, ids, n, chosen)
    {
      var ours := CheckPool(m[ids[n]], node);
      if ours.Err? {
        assert !Sound(m, node, ids[n]);
        return Err(ours.error);
      }
      ChooseNext(lt, m, node, ids, n, chosen);
      if ours.value {
        chosen := chosen + [ids[n]];
      }
    }
    return Ok(chosen);
  }

  /** completeResourcePoolSnapshots: the pools of the node, in order. */
  method CompleteSnapshots(m: Snapshots, node: string) returns (r: Result<seq<PoolID>, string>)
    requires forall id :: id in m ==> m[id] != []
    ensures r.Ok? <==> forall id :: id in m ==> PoolOk(m[id], node)
    ensures r.Ok? ==> Ascending(r.value, PoolLt) && forall id :: id in r.value <==> id in m && OnNode(m[id], node)
  {
    var ids := SortedPools(m);
    r := ChoosePools(m, node, ids, PoolLt);
    if r.Ok? {
      ChosenAll(PoolLt, m, node, ids, r.value);
      assert forall id :: id in m ==> Sound(m, node, id);
      assert forall id :: id in r.value <==> Ours(m, node, id);
    } else {
      ghost var i :| 0 <= i < |ids| && !Sound(m, node, ids[i]);
      assert ids[i] in m;
    }
  }

  method SortedPools(m: Snapshots) returns (ids: seq<PoolID>)
    ensures Ascending(ids, PoolLt) && (forall id :: id in ids <==> id in m)
    ensures forall i :: 0 <= i < |ids| ==> ids[i] in m
  {
    PoolOrder();
    ids := ListAscending(m.Keys, PoolLt);
    assert forall i :: 0 <= i < |ids| ==> ids[i] in ids;
  }
}
