/** Assigning the members of a gang to the nodes of its allocation (slurmbridge/native_state.go, nativeAssignments). */
module NativeAssignments {
  import opened Ordering

  datatype Key = Key(namespace: string, name: string)

  /** A Pod; its node is empty until it is bound. */
  datatype Pod = Pod(key: Key, uid: string, node: string)

  type Snapshot = map<string, seq<Pod>>

  predicate KeyLt(a: Key, b: Key) {
    StringLt(a.namespace, b.namespace) || (a.namespace == b.namespace && StringLt(a.name, b.name))
  }

  lemma KeyOrder()
    ensures StrictTotal(KeyLt)
  {
    StringOrder();
  }

  // --- placements that exist ---

  ghost predicate Occupies(snapshot: Snapshot, nodes: set<string>, p: Pod) {
    exists n :: n in nodes && n in snapshot && p in snapshot[n]
  }

  /** The scheduler's snapshot shows a Pod once. */
  ghost predicate Consistent(snapshot: Snapshot, nodes: set<string>) {
    forall p, q :: Occupies(snapshot, nodes, p) && Occupies(snapshot, nodes, q) && p.key == q.key ==> p == q
  }

  ghost predicate PlacedAs(snapshot: Snapshot, nodes: set<string>, placed: map<Key, Pod>) {
    && (forall k :: k in placed ==> placed[k].key == k && Occupies(snapshot, nodes, placed[k]))
    && (forall p :: Occupies(snapshot, nodes, p) ==> p.key in placed && placed[p.key] == p)
  }

  method Occupants(snapshot: Snapshot, nodes: set<string>) returns (r: Result<map<Key, Pod>, string>)
    requires Consistent(snapshot, nodes)
    ensures r.Ok? <==> forall n :: n in nodes ==> n in snapshot
    ensures r.Ok? ==> PlacedAs(snapshot, nodes, r.value)
  {
    var placed: map<Key, Pod> := map[];
    var rest := nodes;
    while rest != {}
      invariant rest <= nodes && forall n :: n in nodes && n !in rest ==> n in snapshot
      invariant forall k :: k in placed ==> placed[k].key == k && Occupies(snapshot, nodes, placed[k])
      invariant forall n, p :: n in nodes && n !in rest && n in snapshot && p in snapshot[n] ==>
                  p.key in placed && placed[p.key] == p
    {
      var node := Pick(rest);
      rest := rest - {node};
      if node !in snapshot {
        return Err("node not found");
      }
      placed := AddOccupants(snapshot, nodes, node, placed);
    }
    return Ok(placed);
  }

  method AddOccupants(snapshot: Snapshot, ghost nodes: set<string>, node: string, before: map<Key, Pod>)
    returns (placed: map<Key, Pod>)
    requires Consistent(snapshot, nodes) && node in nodes && node in snapshot
    requires forall k :: k in before ==> before[k].key == k && Occupies(snapshot, nodes, before[k])
    ensures forall k :: k in placed ==> placed[k].key == k && Occupies(snapshot, nodes, placed[k])
    ensures forall k :: k in before ==> k in placed && placed[k] == before[k]
    ensures forall p :: p in snapshot[node] ==> p.key in placed && placed[p.key] == p
  {
    placed := before;
    var pods := snapshot[node];
    for i := 0 to |pods|
      invariant forall k :: k in placed ==> placed[k].key == k && Occupies(snapshot, nodes, placed[k])
      invariant forall k :: k in before ==> k in placed && placed[k] == before[k]
      invariant forall j :: 0 <= j < i ==> pods[j].key in placed && placed[pods[j].key] == pods[j]
    {
      assert Occupies(snapshot, nodes, pods[i]);
      placed := placed[pods[i].key := pods[i]];
    }
  }

  /** Where a member is already placed: bound, or assumed under the same UID; empty if nowhere. */
  function FixedNode(pod: Pod, placed: map<Key, Pod>): Result<string, string> {
    if pod.key in placed && placed[pod.key].uid == pod.uid then
      if pod.node != "" && pod.node != placed[pod.key].node then Err("conflicting bound nodes")
      else Ok(placed[pod.key].node)
    else Ok(pod.node)
  }

  ghost predicate DistinctKeys(pods: seq<Pod>) {
    forall i, j :: 0 <= i < j < |pods| ==> pods[i].key != pods[j].key
  }

  /** The existing placements of the members. */
  function FixedMap(pods: seq<Pod>, placed: map<Key, Pod>): map<Key, string> {
    if pods == [] then map[]
    else
      var last, before := pods[|pods| - 1], FixedMap(pods[..|pods| - 1], placed);
      var node := FixedNode(last, placed);
      if node.Ok? && node.value != "" then before[last.key := node.value] else before
  }

  ghost predicate NoConflict(pods: seq<Pod>, placed: map<Key, Pod>) {
    forall i :: 0 <= i < |pods| ==> FixedNode(pods[i], placed).Ok?
  }

  ghost predicate Injective(m: map<Key, string>) {
    forall a, b :: a in m && b in m && a != b ==> m[a] != m[b]
  }

  ghost predicate Within(m: map<Key, string>, nodes: set<string>) {
    forall k :: k in m ==> m[k] in nodes
  }

  ghost predicate FixedTo(pods: seq<Pod>, placed: map<Key, Pod>, k: Key, node: string) {
    node != "" && exists i :: 0 <= i < |pods| && pods[i].key == k && FixedNode(pods[i], placed) == Ok(node)
  }

  lemma {:induction false} FixedHas(pods: seq<Pod>, placed: map<Key, Pod>, k: Key)
    requires k in FixedMap(pods, placed)
    ensures FixedTo(pods, placed, k, FixedMap(pods, placed)[k])
  {
    var before, last := pods[..|pods| - 1], pods[|pods| - 1];
    var node := FixedNode(last, placed);
    if node.Ok? && node.value != "" && last.key == k {
      assert pods[|pods| - 1].key == k;
    } else {
      FixedHas(before, placed, k);
      var i :| 0 <= i < |before| && before[i].key == k
      && FixedNode(before[i], placed) == Ok(FixedMap(before, placed)[k]);
      assert pods[i] == before[i];
    }
  }

  lemma {:induction false} FixedFrom(pods: seq<Pod>, placed: map<Key, Pod>, i: nat)
    requires DistinctKeys(pods) && i < |pods| && FixedNode(pods[i], placed).Ok?
             && FixedNode(pods[i], placed).value != ""
    ensures pods[i].key in FixedMap(pods, placed)
            && FixedMap(pods, placed)[pods[i].key] == FixedNode(pods[i], placed).value
  {
    if i < |pods| - 1 {
      assert pods[..|pods| - 1][i] == pods[i];
      FixedFrom(pods[..|pods| - 1], placed, i);
    }
  }

  lemma FixedUnseen(pods: seq<Pod>, placed: map<Key, Pod>, n: nat)
    requires DistinctKeys(pods) && n < |pods|
    ensures pods[n].key !in FixedMap(pods[..n], placed)
  {
    if pods[n].key in FixedMap(pods[..n], placed) {
      FixedHas(pods[..n], placed, pods[n].key);
    }
  }

  lemma FixedGrows(pods: seq<Pod>, placed: map<Key, Pod>, n: nat, k: Key)
    requires DistinctKeys(pods) && n <= |pods| && k in FixedMap(pods[..n], placed)
    ensures k in FixedMap(pods, placed) && FixedMap(pods, placed)[k] == FixedMap(pods[..n], placed)[k]
  {
    var before := pods[..n];
    FixedHas(before, placed, k);
    var i :| 0 <= i < |before| && before[i].key == k && FixedNode(before[i], placed) == Ok(FixedMap(before, placed)[k]);
    assert pods[i] == before[i];
    FixedFrom(pods, placed, i);
  }

  lemma ValuesAdd(m: map<Key, string>, k: Key, v: string)
    requires k !in m
    ensures m[k := v].Values == m.Values + {v}
  {
    var n := m[k := v];
    forall x | x in m.Values ensures x in n.Values {
      var j :| j in m && m[j] == x;
      assert n[j] == x;
    }
    assert n[k] == v;
  }

  /** A node that is not free makes the placements unusable. */
  lemma NotFree(pods: seq<Pod>, placed: map<Key, Pod>, nodes: set<string>, n: nat, node: string)
    requires DistinctKeys(pods) && n < |pods| && FixedNode(pods[n], placed) == Ok(node) && node != ""
    requires node !in nodes - FixedMap(pods[..n], placed).Values
    ensures !(Injective(FixedMap(pods, placed)) && Within(FixedMap(pods, placed), nodes))
  {
    FixedFrom(pods, placed, n);
    FixedUnseen(pods, placed, n);
    if node in FixedMap(pods[..n], placed).Values {
      var k :| k in FixedMap(pods[..n], placed) && FixedMap(pods[..n], placed)[k] == node;
      FixedGrows(pods, placed, n, k);
    }
  }

  /** The first loop of nativeAssignments: take the nodes of the members that are already placed. */
  method Reserve(pods: seq<Pod>, nodes: set<string>, placed: map<Key, Pod>)
    returns (r: Result<(set<string>, map<Key, string>), string>)
    requires DistinctKeys(pods) && "" !in nodes
    ensures r.Ok? <==>
              NoConflict(pods, placed) && Injective(FixedMap(pods, placed)) && Within(FixedMap(pods, placed), nodes)
    ensures r.Ok? ==> r.value.1 == FixedMap(pods, placed) && r.value.0 == nodes - FixedMap(pods, placed).Values
  {
    var available, assignments: map<Key, string> := nodes, map[];
    for n := 0 to |pods|
      invariant NoConflict(pods[..n], placed) && assignments == FixedMap(pods[..n], placed)
      invariant available == nodes - assignments.Values && Injective(assignments) && Within(assignments, nodes)
    {
      var node := FixedNode(pods[n], placed);
      assert pods[..n + 1][..n] == pods[..n];
      FixedUnseen(pods, placed, n);
      if node.Err? {
        return Err(node.error);
      }
      if node.value == "" {
        continue;
      }
      if node.value !in available {
        NotFree(pods, placed, nodes, n, node.value);
        return Err("gang node is outside the allocation or assigned more than once");
      }
      ValuesAdd(assignments, pods[n].key, node.value);
      available := available - {node.value};
      assignments := assignments[pods[n].key := node.value];
    }
    assert pods[..|pods|] == pods;
    return Ok((available, assignments));
  }

  // --- the plan ---

  ghost predicate Lists<T(!new)>(s: seq<T>, elements: set<T>, lt: (T, T) -> bool) {
    Ascending(s, lt) && forall x :: x in s <==> x in elements
  }

  ghost predicate Zipped(keys: set<Key>, fixed: map<Key, string>, nodes: set<string>, plan: map<Key, string>,
                         members: seq<Key>, free: seq<string>)
  {
    && Lists(members, keys - fixed.Keys, KeyLt) && Lists(free, nodes - fixed.Values, StringLt)
    && |members| <= |free| && forall i :: 0 <= i < |members| ==> members[i] in plan && plan[members[i]] == free[i]
  }

  /** Placed members stay; the others, by key, take the free nodes by name. */
  ghost predicate IsPlan(keys: set<Key>, fixed: map<Key, string>, nodes: set<string>, plan: map<Key, string>) {
    && plan.Keys == keys && fixed.Keys <= keys && (forall k :: k in fixed ==> k in plan && plan[k] == fixed[k])
    && exists members, free :: Zipped(keys, fixed, nodes, plan, members, free)
  }

  lemma PlanUnique(keys: set<Key>, fixed: map<Key, string>, nodes: set<string>, a: map<Key, string>,
                   b: map<Key, string>)
    requires IsPlan(keys, fixed, nodes, a) && IsPlan(keys, fixed, nodes, b)
    ensures a == b
  {
    KeyOrder();
    StringOrder();
    var members, free :| Zipped(keys, fixed, nodes, a, members, free);
    var others, rest :| Zipped(keys, fixed, nodes, b, others, rest);
    AscendingUnique(members, others, KeyLt);
    AscendingUnique(free, rest, StringLt);
    forall k | k in keys ensures a[k] == b[k] {
      if k !in fixed {
        assert k in members;
        var i :| 0 <= i < |members| && members[i] == k;
      }
    }
  }

  /** The plan is an injective assignment of all members into the nodes. */
  lemma PlanInjective(keys: set<Key>, fixed: map<Key, string>, nodes: set<string>, plan: map<Key, string>)
    requires IsPlan(keys, fixed, nodes, plan) && Injective(fixed) && Within(fixed, nodes)
    ensures Injective(plan) && Within(plan, nodes)
  {
    StringOrder();
    var members, free :| Zipped(keys, fixed, nodes, plan, members, free);
    forall k | k in plan && k !in fixed ensures plan[k] in nodes && plan[k] !in fixed.Values {
      assert k in members;
      var i :| 0 <= i < |members| && members[i] == k;
      assert free[i] in free;
    }
    forall a, b | a in plan && b in plan && a != b ensures plan[a] != plan[b] {
      if a !in fixed && b !in fixed {
        assert a in members && b in members;
        var i :| 0 <= i < |members| && members[i] == a;
        var j :| 0 <= j < |members| && members[j] == b;
        AscendingDistinct(free, StringLt);
      } else if a in fixed && b !in fixed {
        assert plan[a] in fixed.Values;
      } else if b in fixed && a !in fixed {
        assert plan[b] in fixed.Values;
      }
    }
  }

  ghost predicate Among(ordered: seq<Key>, n: nat, k: Key)
    requires n <= |ordered|
  {
    exists j :: 0 <= j < n && ordered[j] == k
  }

  /** A member that got a node: not placed before, among those dealt with, on the i-th free node. */
  ghost predicate Seated(fixed: map<Key, string>, ordered: seq<Key>, n: nat, free: seq<string>, plan: map<Key, string>,
                         k: Key, i: nat)
    requires n <= |ordered|
  {
    k in plan && k !in fixed && i < |free| && plan[k] == free[i] && Among(ordered, n, k)
  }

  /** The second loop of nativeAssignments, over the members sorted by key. */
  ghost predicate Filling(lt: (Key, Key) -> bool, fixed: map<Key, string>, ordered: seq<Key>, n: nat, free: seq<string>,
                          members: seq<Key>, plan: map<Key, string>)
    requires n <= |ordered|
  {
    && Ascending(members, lt) && |members| <= |free|
    && (forall i :: 0 <= i < |members| ==> Seated(fixed, ordered, n, free, plan, members[i], i))
    && (forall j :: 0 <= j < n ==> ordered[j] in fixed || ordered[j] in members)
    && (forall k :: k in fixed ==> k in plan && plan[k] == fixed[k])
    && (forall k :: k in plan ==> k in fixed || k in members)
  }

  method SortedNodes(nodes: set<string>) returns (s: seq<string>)
    ensures Lists(s, nodes, StringLt) && |s| == |nodes|
  {
    StringOrder();
    s := ListAscending(nodes, StringLt);
  }

  method SortedKeys(keys: set<Key>) returns (s: seq<Key>)
    ensures Lists(s, keys, KeyLt) && |s| == |keys|
  {
    KeyOrder();
    s := ListAscending(keys, KeyLt);
  }

  method FillLoop(fixed: map<Key, string>, ordered: seq<Key>, free: seq<string>, ghost lt: (Key, Key) -> bool,
                  ghost keys: set<Key>)
    returns (r: Result<map<Key, string>, string>, ghost members: seq<Key>)
    requires Ascending(ordered, lt) && StrictTotal(lt) && forall x :: x in ordered ==> x in keys
    ensures r.Ok? ==> Filling(lt, fixed, ordered, |ordered|, free, members, r.value)
    ensures r.Err? ==> |keys - fixed.Keys| > |free|
  {
    var remaining, plan := free, fixed;
    members := [];
    for n := 0 to |ordered|
      invariant Filling(lt, fixed, ordered, n, free, members, plan) && remaining == free[|members|..]
    {
      var key := ordered[n];
      if key in plan {
        Placed(lt, fixed, ordered, n, free, members, plan);
        continue;
      }
      if |remaining| == 0 {
        TooMany(lt, keys, fixed, ordered, n, free, members, plan);
        return Err("no Kubernetes node"), members;
      }
      AddMember(lt, fixed, ordered, n, free, members, plan);
      plan := plan[key := remaining[0]];
      remaining := remaining[1..];
      members := members + [key];
    }
    return Ok(plan), members;
  }

  method Fill(keys: set<Key>, fixed: map<Key, string>, nodes: set<string>, available: set<string>)
    returns (r: Result<map<Key, string>, string>)
    requires fixed.Keys <= keys && available == nodes - fixed.Values
    ensures r.Ok? <==> |keys - fixed.Keys| <= |available|
    ensures r.Ok? ==> IsPlan(keys, fixed, nodes, r.value)
  {
    var remaining := SortedNodes(available);
    var ordered := SortedKeys(keys);
    KeyOrder();
    ghost var members;
    r, members := FillLoop(fixed, ordered, remaining, KeyLt, keys);
    if r.Ok? {
      Filled(keys, fixed, nodes, ordered, remaining, members, r.value);
    }
  }

  lemma SeatedLater(fixed: map<Key, string>, ordered: seq<Key>, n: nat, free: seq<string>, plan: map<Key, string>,
                    k: Key, i: nat, more: map<Key, string>)
    requires n < |ordered| && Seated(fixed, ordered, n, free, plan, k, i) && k in more && more[k] == plan[k]
    ensures Seated(fixed, ordered, n + 1, free, more, k, i)
  {
    var j :| 0 <= j < n && ordered[j] == k;
  }

  lemma Placed(lt: (Key, Key) -> bool, fixed: map<Key, string>, ordered: seq<Key>, n: nat, free: seq<string>,
               members: seq<Key>, plan: map<Key, string>)
    requires n < |ordered| && Filling(lt, fixed, ordered, n, free, members, plan) && ordered[n] in plan
    ensures Filling(lt, fixed, ordered, n + 1, free, members, plan)
  {
    var m := n + 1;
    forall i | 0 <= i < |members| ensures Seated(fixed, ordered, m, free, plan, members[i], i) {
      SeatedLater(fixed, ordered, n, free, plan, members[i], i, plan);
    }
  }

  lemma SeatedBefore(lt: (Key, Key) -> bool, fixed: map<Key, string>, ordered: seq<Key>, n: nat, free: seq<string>,
                     plan: map<Key, string>, k: Key, i: nat)
    requires n < |ordered| && Ascending(ordered, lt) && Seated(fixed, ordered, n, free, plan, k, i)
    ensures lt(k, ordered[n])
  {
    var j :| 0 <= j < n && ordered[j] == k;
  }

  lemma AddMember(lt: (Key, Key) -> bool, fixed: map<Key, string>, ordered: seq<Key>, n: nat, free: seq<string>,
                  members: seq<Key>, plan: map<Key, string>)
    requires n < |ordered| && Filling(lt, fixed, ordered, n, free, members, plan) && ordered[n] !in plan
             && Ascending(ordered, lt)
    requires |members| < |free|
    ensures Filling(lt, fixed, ordered, n + 1, free, members + [ordered[n]], plan[ordered[n] := free[|members|]])
  {
    var key, m, more, next := ordered[n], n + 1, members + [ordered[n]], plan[ordered[n] := free[|members|]];
    forall i | 0 <= i < |members| ensures lt(members[i], key) {
      assert Seated(fixed, ordered, n, free, plan, members[i], i);
      SeatedBefore(lt, fixed, ordered, n, free, plan, members[i], i);
    }
    AscendingAppend(members, key, lt);
    forall i | 0 <= i < |more| ensures Seated(fixed, ordered, m, free, next, more[i], i) {
      if i < |members| {
        assert Seated(fixed, ordered, n, free, plan, members[i], i);
        SeatedLater(fixed, ordered, n, free, plan, members[i], i, next);
      } else {
        assert ordered[n] == key;
      }
    }
  }

  lemma TooMany(lt: (Key, Key) -> bool, keys: set<Key>, fixed: map<Key, string>, ordered: seq<Key>, n: nat,
                free: seq<string>, members: seq<Key>, plan: map<Key, string>)
    requires n < |ordered| && Filling(lt, fixed, ordered, n, free, members, plan) && StrictTotal(lt)
             && ordered[n] !in plan
    requires forall x :: x in ordered ==> x in keys
    ensures |keys - fixed.Keys| > |members|
  {
    var more := members + [ordered[n]];
    forall i | 0 <= i < |members| ensures members[i] in keys - fixed.Keys {
      assert Seated(fixed, ordered, n, free, plan, members[i], i);
      var j :| 0 <= j < n && ordered[j] == members[i];
      assert ordered[j] in ordered;
    }
    assert ordered[n] in ordered;
    MembersDistinct(lt, fixed, ordered, n, free, members, plan);
    DistinctCard(more);
    CardOfSubset(Elements(more), keys - fixed.Keys);
  }

  lemma MembersDistinct(lt: (Key, Key) -> bool, fixed: map<Key, string>, ordered: seq<Key>, n: nat, free: seq<string>,
                        members: seq<Key>, plan: map<Key, string>)
    requires n < |ordered| && Filling(lt, fixed, ordered, n, free, members, plan) && StrictTotal(lt)
             && ordered[n] !in plan
    ensures Distinct(members + [ordered[n]])
  {
    AscendingDistinct(members, lt);
    forall i | 0 <= i < |members| ensures members[i] != ordered[n] {
      assert Seated(fixed, ordered, n, free, plan, members[i], i);
    }
  }

  lemma MembersListed(keys: set<Key>, fixed: map<Key, string>, ordered: seq<Key>, free: seq<string>, members: seq<Key>,
                      plan: map<Key, string>)
    requires (forall x :: x in ordered <==> x in keys) && Filling(KeyLt, fixed, ordered, |ordered|, free, members, plan)
    ensures forall k :: k in members <==> k in keys - fixed.Keys
  {
    forall k ensures k in members <==> k in keys - fixed.Keys {
      if k in members {
        var i :| 0 <= i < |members| && members[i] == k;
        assert Seated(fixed, ordered, |ordered|, free, plan, members[i], i);
        var j :| 0 <= j < |ordered| && ordered[j] == members[i];
        assert ordered[j] in ordered;
      }
      if k in keys - fixed.Keys {
        assert k in ordered;
      }
    }
  }

  lemma KeysCard(s: seq<Key>, keys: set<Key>)
    requires Lists(s, keys, KeyLt)
    ensures |s| == |keys|
  {
    KeyOrder();
    AscendingDistinct(s, KeyLt);
    DistinctCard(s);
    assert Elements(s) == keys;
  }

  lemma SeatsAsPlanned(fixed: map<Key, string>, ordered: seq<Key>, free: seq<string>, members: seq<Key>,
                       plan: map<Key, string>)
    requires Filling(KeyLt, fixed, ordered, |ordered|, free, members, plan)
    ensures forall i :: 0 <= i < |members| ==> members[i] in plan && plan[members[i]] == free[i]
  {
    forall i | 0 <= i < |members| ensures members[i] in plan && plan[members[i]] == free[i] {
      assert Seated(fixed, ordered, |ordered|, free, plan, members[i], i);
    }
  }

  lemma Filled(keys: set<Key>, fixed: map<Key, string>, nodes: set<string>, ordered: seq<Key>, free: seq<string>,
               members: seq<Key>, plan: map<Key, string>)
    requires (forall x :: x in ordered <==> x in keys) && Lists(free, nodes - fixed.Values, StringLt)
             && fixed.Keys <= keys
    requires Filling(KeyLt, fixed, ordered, |ordered|, free, members, plan)
    ensures IsPlan(keys, fixed, nodes, plan) && |keys - fixed.Keys| <= |free|
  {
    MembersListed(keys, fixed, ordered, free, members, plan);
    KeysCard(members, keys - fixed.Keys);
    SeatsAsPlanned(fixed, ordered, free, members, plan);
    assert Zipped(keys, fixed, nodes, plan, members, free);
    forall k ensures k in plan.Keys <==> k in keys {
    }
    assert plan.Keys == keys;
  }

  ghost function Keys(pods: seq<Pod>): set<Key> {
    set p | p in pods :: p.key
  }

  /** When nativeAssignments has an answer: every node is known, no placement is contradictory, outside or double, and
      there are nodes for the rest. */
  ghost predicate Assignable(pods: seq<Pod>, nodes: set<string>, snapshot: Snapshot, placed: map<Key, Pod>) {
    (forall n :: n in nodes ==> n in snapshot) && Fits(pods, nodes, placed)
  }

  ghost predicate Fits(pods: seq<Pod>, nodes: set<string>, placed: map<Key, Pod>) {
    var fixed := FixedMap(pods, placed);
    NoConflict(pods, placed) && Injective(fixed) && Within(fixed, nodes)
    && |Keys(pods) - fixed.Keys| <= |nodes - fixed.Values|
  }

  /** What nativeAssignments answers: the plan if there is one, and otherwise an error. */
  ghost predicate Planned(pods: seq<Pod>, nodes: set<string>, snapshot: Snapshot, r: Result<map<Key, string>, string>) {
    forall placed :: PlacedAs(snapshot, nodes, placed) ==>
      && (r.Ok? <==> Assignable(pods, nodes, snapshot, placed))
      && (r.Ok? ==> IsPlan(Keys(pods), FixedMap(pods, placed), nodes, r.value))
  }

  method NativeAssignments(pods: seq<Pod>, nodes: set<string>, snapshot: Snapshot)
    returns (r: Result<map<Key, string>, string>)
    requires DistinctKeys(pods) && "" !in nodes && Consistent(snapshot, nodes)
    ensures Planned(pods, nodes, snapshot, r)
    ensures r.Ok? ==> Injective(r.value) && Within(r.value, nodes)
  {
    var occupants := Occupants(snapshot, nodes);
    if occupants.Err? {
      return Err(occupants.error);
    }
    ghost var placed := occupants.value;
    forall other | PlacedAs(snapshot, nodes, other) ensures other == placed {
      PlacedOnce(snapshot, nodes, placed, other);
    }
    r := Assign(pods, nodes, occupants.value);
  }

  method Assign(pods: seq<Pod>, nodes: set<string>, placed: map<Key, Pod>) returns (r: Result<map<Key, string>, string>)
    requires DistinctKeys(pods) && "" !in nodes
    ensures r.Ok? <==> Fits(pods, nodes, placed)
    ensures r.Ok? ==>
              IsPlan(Keys(pods), FixedMap(pods, placed), nodes, r.value) && Injective(r.value) && Within(r.value, nodes)
  {
    var reserved := Reserve(pods, nodes, placed);
    if reserved.Err? {
      return Err(reserved.error);
    }
    var available, fixed := reserved.value.0, reserved.value.1;
    forall k | k in fixed ensures k in Keys(pods) {
      FixedHas(pods, placed, k);
      var i :| 0 <= i < |pods| && pods[i].key == k;
      assert pods[i] in pods;
    }
    r := Fill(set p | p in pods :: p.key, fixed, nodes, available);
    if r.Ok? {
      PlanInjective(Keys(pods), fixed, nodes, r.value);
    }
  }

  lemma PlacedOnce(snapshot: Snapshot, nodes: set<string>, a: map<Key, Pod>, b: map<Key, Pod>)
    requires PlacedAs(snapshot, nodes, a) && PlacedAs(snapshot, nodes, b)
    ensures a == b
  {
    assert forall k :: k in a ==> k in b && b[k] == a[k];
    assert forall k :: k in b ==> k in a && a[k] == b[k];
  }

  // --- order independence and retries ---

  lemma FixedMapOrder(a: seq<Pod>, b: seq<Pod>, placed: map<Key, Pod>)
    requires DistinctKeys(a) && DistinctKeys(b) && forall p :: p in a ==> p in b
    ensures forall k :: k in FixedMap(a, placed) ==>
              k in FixedMap(b, placed) && FixedMap(b, placed)[k] == FixedMap(a, placed)[k]
  {
    forall k | k in FixedMap(a, placed)
      ensures k in FixedMap(b, placed) && FixedMap(b, placed)[k] == FixedMap(a, placed)[k]
    {
      FixedHas(a, placed, k);
      var i :| 0 <= i < |a| && a[i].key == k && FixedNode(a[i], placed) == Ok(FixedMap(a, placed)[k]);
      assert a[i] in a;
      var j :| 0 <= j < |b| && b[j] == a[i];
      FixedFrom(b, placed, j);
    }
  }

  /** Neither the answer nor whether there is one depends on the order of the Pod list. */
  lemma OrderDoesNotMatter(a: seq<Pod>, b: seq<Pod>, nodes: set<string>, snapshot: Snapshot, placed: map<Key, Pod>,
                           x: map<Key, string>, y: map<Key, string>)
    requires DistinctKeys(a) && DistinctKeys(b) && forall p :: p in a <==> p in b
    ensures Assignable(a, nodes, snapshot, placed) <==> Assignable(b, nodes, snapshot, placed)
    ensures IsPlan(Keys(a), FixedMap(a, placed), nodes, x) && IsPlan(Keys(b), FixedMap(b, placed), nodes, y) ==> x == y
  {
    SameFixed(a, b, placed);
    if IsPlan(Keys(a), FixedMap(a, placed), nodes, x) && IsPlan(Keys(b), FixedMap(b, placed), nodes, y) {
      PlanUnique(Keys(a), FixedMap(a, placed), nodes, x, y);
    }
  }

  lemma SameFixed(a: seq<Pod>, b: seq<Pod>, placed: map<Key, Pod>)
    requires DistinctKeys(a) && DistinctKeys(b) && forall p :: p in a <==> p in b
    ensures FixedMap(a, placed) == FixedMap(b, placed) && Keys(a) == Keys(b)
            && (NoConflict(a, placed) <==> NoConflict(b, placed))
  {
    FixedMapOrder(a, b, placed);
    FixedMapOrder(b, a, placed);
    ConflictOrder(a, b, placed);
    ConflictOrder(b, a, placed);
  }

  lemma ConflictOrder(a: seq<Pod>, b: seq<Pod>, placed: map<Key, Pod>)
    requires forall p :: p in b ==> p in a
    ensures NoConflict(a, placed) ==> NoConflict(b, placed)
  {
    if NoConflict(a, placed) {
      forall i | 0 <= i < |b| ensures FixedNode(b[i], placed).Ok? {
        assert b[i] in b;
        var j :| 0 <= j < |a| && a[j] == b[i];
      }
    }
  }

  /** The members without a placement, once some of them were placed where the plan puts them. */
  ghost function Since(fixed: map<Key, string>, plan: map<Key, string>, bound: set<Key>): map<Key, string> {
    map k | k in plan && (k in fixed || k in bound) :: plan[k]
  }

  /** The nodes free on a retry, in order: the planned nodes of the members still to be placed, then the unused ones. */
  ghost function Expected(plan: map<Key, string>, others: seq<Key>, free: seq<string>, used: nat): seq<string>
    requires used <= |free| && forall i :: 0 <= i < |others| ==> others[i] in plan
  {
    seq(|others|, i requires 0 <= i < |others| => plan[others[i]]) + free[used..]
  }

  ghost predicate Retry(keys: set<Key>, fixed: map<Key, string>, nodes: set<string>, plan: map<Key, string>,
                        bound: set<Key>,
                        members: seq<Key>, free: seq<string>, others: seq<Key>)
  {
    && plan.Keys == keys && fixed.Keys <= keys && (forall k :: k in fixed ==> k in plan && plan[k] == fixed[k])
    && Zipped(keys, fixed, nodes, plan, members, free) && Lists(others, keys - Since(fixed, plan, bound).Keys, KeyLt)
  }

  lemma OtherIndex(keys: set<Key>, fixed: map<Key, string>, nodes: set<string>, plan: map<Key, string>, bound: set<Key>,
                   members: seq<Key>, free: seq<string>, others: seq<Key>, i: nat) returns (m: nat)
    requires Retry(keys, fixed, nodes, plan, bound, members, free, others) && i < |others|
    ensures others[i] in plan && m < |members| && members[m] == others[i] && plan[others[i]] == free[m]
  {
    assert others[i] in others;
    assert others[i] in members;
    m :| 0 <= m < |members| && members[m] == others[i];
  }

  lemma InOrder(members: seq<Key>, m: nat, n: nat)
    requires Ascending(members, KeyLt) && m < |members| && n < |members| && KeyLt(members[m], members[n])
    ensures m < n
  {
    NotBoth(members[m], members[n]);
    assert forall p, q :: 0 <= p < q < |members| ==> KeyLt(members[p], members[q]);
  }

  lemma NotBoth(a: Key, b: Key)
    ensures !(KeyLt(a, b) && KeyLt(b, a)) && !KeyLt(a, a)
  {
    KeyOrder();
  }

  lemma ExpectedAscending(keys: set<Key>, fixed: map<Key, string>, nodes: set<string>, plan: map<Key, string>,
                          bound: set<Key>,
                          members: seq<Key>, free: seq<string>, others: seq<Key>)
    requires Retry(keys, fixed, nodes, plan, bound, members, free, others)
    ensures forall i :: 0 <= i < |others| ==> others[i] in plan
    ensures Ascending(Expected(plan, others, free, |members|), StringLt)
  {
    forall i | 0 <= i < |others| ensures others[i] in plan {
      var m := OtherIndex(keys, fixed, nodes, plan, bound, members, free, others, i);
    }
    var e := Expected(plan, others, free, |members|);
    forall i, j | 0 <= i < j < |e| ensures StringLt(e[i], e[j]) {
      if i < |others| {
        var m := OtherIndex(keys, fixed, nodes, plan, bound, members, free, others, i);
        if j < |others| {
          var n := OtherIndex(keys, fixed, nodes, plan, bound, members, free, others, j);
          assert KeyLt(others[i], others[j]);
          InOrder(members, m, n);
        }
      }
    }
  }

  lemma ExpectedFree(keys: set<Key>, fixed: map<Key, string>, nodes: set<string>, plan: map<Key, string>,
                     bound: set<Key>,
                     members: seq<Key>, free: seq<string>, others: seq<Key>)
    requires Retry(keys, fixed, nodes, plan, bound, members, free, others) && Injective(plan) && Within(plan, nodes)
    requires forall i :: 0 <= i < |others| ==> others[i] in plan
    ensures forall x :: x in Expected(plan, others, free, |members|) <==> x in nodes - Since(fixed, plan, bound).Values
  {
    var e, now := Expected(plan, others, free, |members|), Since(fixed, plan, bound);
    forall x | x in e ensures x in nodes - now.Values {
      var i :| 0 <= i < |e| && e[i] == x;
      StillFree(keys, fixed, nodes, plan, bound, members, free, others, i);
    }
    forall x | x in nodes - now.Values ensures x in e {
      Expects(keys, fixed, nodes, plan, bound, members, free, others, x);
    }
  }

  lemma StillFree(keys: set<Key>, fixed: map<Key, string>, nodes: set<string>, plan: map<Key, string>, bound: set<Key>,
                  members: seq<Key>, free: seq<string>, others: seq<Key>, i: nat)
    requires Retry(keys, fixed, nodes, plan, bound, members, free, others) && Injective(plan) && Within(plan, nodes)
    requires forall i :: 0 <= i < |others| ==> others[i] in plan
    requires i < |Expected(plan, others, free, |members|)|
    ensures Expected(plan, others, free, |members|)[i] in nodes - Since(fixed, plan, bound).Values
  {
    StringOrder();
    var x, now := Expected(plan, others, free, |members|)[i], Since(fixed, plan, bound);
    if i < |others| {
      assert others[i] in others && others[i] !in now;
    } else {
      var u := i - |others| + |members|;
      assert free[u] == x && free[u] in free;
      forall k | k in now ensures now[k] != x {
        if k in fixed {
          assert fixed[k] in fixed.Values;
        } else {
          assert k in members;
          var m :| 0 <= m < |members| && members[m] == k;
          assert StringLt(free[m], free[u]);
        }
      }
    }
  }

  lemma Expects(keys: set<Key>, fixed: map<Key, string>, nodes: set<string>, plan: map<Key, string>, bound: set<Key>,
                members: seq<Key>, free: seq<string>, others: seq<Key>, x: string)
    requires Retry(keys, fixed, nodes, plan, bound, members, free, others)
    requires forall i :: 0 <= i < |others| ==> others[i] in plan
    requires x in nodes - Since(fixed, plan, bound).Values
    ensures x in Expected(plan, others, free, |members|)
  {
    var e, now := Expected(plan, others, free, |members|), Since(fixed, plan, bound);
    assert forall k :: k in now ==> now[k] in now.Values;
    forall k | k in fixed ensures fixed[k] != x {
      assert k in now;
    }
    assert x in free;
    var i :| 0 <= i < |free| && free[i] == x;
    if i >= |members| {
      assert e[|others| + i - |members|] == x;
    } else {
      var k := members[i];
      assert k in members && plan[k] == x;
      assert k in others;
      var j :| 0 <= j < |others| && others[j] == k;
      assert e[j] == x;
    }
  }

  /** Placing any subset of the members on their planned nodes leaves the plan a plan. */
  lemma PlanStays(keys: set<Key>, fixed: map<Key, string>, nodes: set<string>, plan: map<Key, string>, bound: set<Key>)
    requires IsPlan(keys, fixed, nodes, plan) && Injective(fixed) && Within(fixed, nodes)
    ensures IsPlan(keys, Since(fixed, plan, bound), nodes, plan)
    ensures Injective(Since(fixed, plan, bound)) && Within(Since(fixed, plan, bound), nodes)
  {
    PlanInjective(keys, fixed, nodes, plan);
    var now := Since(fixed, plan, bound);
    var members, free :| Zipped(keys, fixed, nodes, plan, members, free);
    var others := ListOf(keys - now.Keys);
    ExpectedAscending(keys, fixed, nodes, plan, bound, members, free, others);
    ExpectedFree(keys, fixed, nodes, plan, bound, members, free, others);
    assert Zipped(keys, now, nodes, plan, others, Expected(plan, others, free, |members|));
  }

  lemma ListOf(keys: set<Key>) returns (s: seq<Key>)
    ensures Lists(s, keys, KeyLt)
  {
    KeyOrder();
    s := AscendingExists(keys, KeyLt);
  }

  // --- the retry itself ---

  /** Neither the member nor what the snapshot shows of it changed. */
  ghost predicate AsBefore(p: Pod, q: Pod, snapshot: Snapshot, again: Snapshot, nodes: set<string>) {
    q == p && forall x: Pod :: x.key == p.key ==> (Occupies(snapshot, nodes, x) <==> Occupies(again, nodes, x))
  }

  /** The member is bound to the node, or not seen as bound yet but assumed on it. */
  ghost predicate PutOn(q: Pod, again: Snapshot, nodes: set<string>, node: string) {
    || (q.node == node && forall x :: Occupies(again, nodes, x) && x.key == q.key && x.uid == q.uid ==> x.node == node)
    || (q.node in {"", node}
       && exists x :: Occupies(again, nodes, x) && x.key == q.key && x.uid == q.uid && x.node == node)
  }

  /** Since the plan was made, some members were placed on their planned nodes; about other Pods nothing is said. */
  ghost predicate Progressed(a: seq<Pod>, snapshot: Snapshot, b: seq<Pod>, again: Snapshot, nodes: set<string>,
                             plan: map<Key, string>)
  {
    && DistinctKeys(b) && Keys(a) == Keys(b) && (forall n :: n in nodes ==> n in again) && Consistent(again, nodes)
    && forall p, q :: p in a && q in b && p.key == q.key ==>
         AsBefore(p, q, snapshot, again, nodes)
         || (q.uid == p.uid && q.key in plan && PutOn(q, again, nodes, plan[q.key]))
  }

  lemma PlacedExists(snapshot: Snapshot, nodes: set<string>) returns (placed: map<Key, Pod>)
    requires Consistent(snapshot, nodes)
    ensures PlacedAs(snapshot, nodes, placed)
  {
    var all := set n, p | n in nodes && n in snapshot && p in snapshot[n] :: p;
    var keys := set p | p in all :: p.key;
    placed := map k | k in keys :: var p :| p in all && p.key == k; p;
    forall p | Occupies(snapshot, nodes, p) ensures p.key in placed && placed[p.key] == p {
      assert p in all && p.key in keys;
    }
  }

  lemma PutFixed(q: Pod, again: Snapshot, nodes: set<string>, node: string, placed: map<Key, Pod>)
    requires PlacedAs(again, nodes, placed) && PutOn(q, again, nodes, node)
    ensures FixedNode(q, placed) == Ok(node)
  {
  }

  lemma BeforeFixed(p: Pod, q: Pod, snapshot: Snapshot, again: Snapshot, nodes: set<string>, placed: map<Key, Pod>,
                    now: map<Key, Pod>)
    requires PlacedAs(snapshot, nodes, placed) && PlacedAs(again, nodes, now) && AsBefore(p, q, snapshot, again, nodes)
    ensures FixedNode(q, now) == FixedNode(p, placed)
  {
  }

  lemma FixedAt(pods: seq<Pod>, placed: map<Key, Pod>, p: Pod)
    requires DistinctKeys(pods) && p in pods && FixedNode(p, placed).Ok?
    ensures p.key in FixedMap(pods, placed) <==> FixedNode(p, placed).value != ""
    ensures p.key in FixedMap(pods, placed) ==> FixedMap(pods, placed)[p.key] == FixedNode(p, placed).value
  {
    var i :| 0 <= i < |pods| && pods[i] == p;
    if FixedNode(p, placed).value != "" {
      FixedFrom(pods, placed, i);
    } else if p.key in FixedMap(pods, placed) {
      FixedHas(pods, placed, p.key);
    }
  }

  /** The members that are on their planned nodes now. */
  ghost function Bound(b: seq<Pod>, again: Snapshot, nodes: set<string>, plan: map<Key, string>): set<Key> {
    set q | q in b && q.key in plan && PutOn(q, again, nodes, plan[q.key]) :: q.key
  }

  /** On a retry the member is placed if it was, or was put on its planned node since, and then on that node. */
  ghost predicate StandsAs(b: seq<Pod>, now: map<Key, Pod>, fixed: map<Key, string>, plan: map<Key, string>,
                           bound: set<Key>, q: Pod)
  {
    && FixedNode(q, now).Ok? && q.key in plan && (q.key in FixedMap(b, now) <==> q.key in fixed || q.key in bound)
    && (q.key in FixedMap(b, now) ==> FixedMap(b, now)[q.key] == plan[q.key])
  }

  lemma AllStand(b: seq<Pod>, now: map<Key, Pod>, fixed: map<Key, string>, plan: map<Key, string>, bound: set<Key>)
    requires plan.Keys == Keys(b) && forall i :: 0 <= i < |b| ==> StandsAs(b, now, fixed, plan, bound, b[i])
    ensures NoConflict(b, now) && FixedMap(b, now) == Since(fixed, plan, bound)
  {
    var since := Since(fixed, plan, bound);
    forall k
      ensures (k in FixedMap(b, now) <==> k in since) && (k in FixedMap(b, now) ==> FixedMap(b, now)[k] == since[k])
    {
      if k in FixedMap(b, now) {
        FixedHas(b, now, k);
        var i :| 0 <= i < |b| && b[i].key == k;
        assert StandsAs(b, now, fixed, plan, bound, b[i]);
      }
      if k in since {
        assert k in Keys(b);
        var i :| 0 <= i < |b| && b[i].key == k;
        assert StandsAs(b, now, fixed, plan, bound, b[i]);
      }
    }
    forall i | 0 <= i < |b| ensures FixedNode(b[i], now).Ok? {
      assert StandsAs(b, now, fixed, plan, bound, b[i]);
    }
  }

  lemma MemberNow(a: seq<Pod>, snapshot: Snapshot, placed: map<Key, Pod>, b: seq<Pod>, again: Snapshot,
                  now: map<Key, Pod>, nodes: set<string>,
                  plan: map<Key, string>, q: Pod)
    requires DistinctKeys(a) && "" !in nodes && PlacedAs(snapshot, nodes, placed) && NoConflict(a, placed)
    requires IsPlan(Keys(a), FixedMap(a, placed), nodes, plan) && Within(plan, nodes)
    requires Progressed(a, snapshot, b, again, nodes, plan) && PlacedAs(again, nodes, now) && q in b
    ensures StandsAs(b, now, FixedMap(a, placed), plan, Bound(b, again, nodes, plan), q)
  {
    assert q.key in Keys(b);
    var p :| p in a && p.key == q.key;
    FixedAt(a, placed, p);
    var i :| 0 <= i < |a| && a[i] == p;
    assert FixedNode(a[i], placed).Ok?;
    if PutOn(q, again, nodes, plan[q.key]) {
      PutFixed(q, again, nodes, plan[q.key], now);
      assert q.key in Bound(b, again, nodes, plan);
    } else {
      BeforeFixed(p, q, snapshot, again, nodes, placed, now);
      NotBound(b, again, nodes, plan, q);
    }
    FixedAt(b, now, q);
  }

  lemma NotBound(b: seq<Pod>, again: Snapshot, nodes: set<string>, plan: map<Key, string>, q: Pod)
    requires DistinctKeys(b) && q in b && q.key in plan && !PutOn(q, again, nodes, plan[q.key])
    ensures q.key !in Bound(b, again, nodes, plan)
  {
    forall r | r in b && r.key == q.key ensures r == q {
      var i :| 0 <= i < |b| && b[i] == r;
      var j :| 0 <= j < |b| && b[j] == q;
      assert i == j;
    }
  }

  /** The placements a retry finds are the earlier ones and those made since. */
  lemma FixedSince(a: seq<Pod>, snapshot: Snapshot, placed: map<Key, Pod>, b: seq<Pod>, again: Snapshot,
                   now: map<Key, Pod>, nodes: set<string>,
                   plan: map<Key, string>)
    requires DistinctKeys(a) && "" !in nodes && PlacedAs(snapshot, nodes, placed) && NoConflict(a, placed)
    requires IsPlan(Keys(a), FixedMap(a, placed), nodes, plan) && Within(plan, nodes)
    requires Progressed(a, snapshot, b, again, nodes, plan) && PlacedAs(again, nodes, now)
    ensures NoConflict(b, now) && FixedMap(b, now) == Since(FixedMap(a, placed), plan, Bound(b, again, nodes, plan))
  {
    forall i | 0 <= i < |b| ensures StandsAs(b, now, FixedMap(a, placed), plan, Bound(b, again, nodes, plan), b[i]) {
      MemberNow(a, snapshot, placed, b, again, now, nodes, plan, b[i]);
    }
    AllStand(b, now, FixedMap(a, placed), plan, Bound(b, again, nodes, plan));
  }

  /** A plan leaves nobody without a node. */
  lemma PlanFits(keys: set<Key>, fixed: map<Key, string>, nodes: set<string>, plan: map<Key, string>)
    requires IsPlan(keys, fixed, nodes, plan)
    ensures |keys - fixed.Keys| <= |nodes - fixed.Values|
  {
    KeyOrder();
    StringOrder();
    var members, free :| Zipped(keys, fixed, nodes, plan, members, free);
    AscendingDistinct(members, KeyLt);
    AscendingDistinct(free, StringLt);
    DistinctCard(members);
    DistinctCard(free);
    assert Elements(members) == keys - fixed.Keys && Elements(free) == nodes - fixed.Values;
  }

  /** Planning again after any members were placed on their planned nodes gives the identical assignment. */
  lemma RetryStable(a: seq<Pod>, snapshot: Snapshot, b: seq<Pod>, again: Snapshot, nodes: set<string>,
                    plan: map<Key, string>,
                    r: Result<map<Key, string>, string>)
    requires DistinctKeys(a) && "" !in nodes && Consistent(snapshot, nodes) && Planned(a, nodes, snapshot, Ok(plan))
    requires Progressed(a, snapshot, b, again, nodes, plan) && Planned(b, nodes, again, r)
    ensures r == Ok(plan)
  {
    var placed := PlacedExists(snapshot, nodes);
    var now := PlacedExists(again, nodes);
    var fixed := FixedMap(a, placed);
    assert Assignable(a, nodes, snapshot, placed) && IsPlan(Keys(a), fixed, nodes, plan);
    PlanInjective(Keys(a), fixed, nodes, plan);
    FixedSince(a, snapshot, placed, b, again, now, nodes, plan);
    var bound := Bound(b, again, nodes, plan);
    PlanStays(Keys(a), fixed, nodes, plan, bound);
    PlanFits(Keys(b), FixedMap(b, now), nodes, plan);
    assert Assignable(b, nodes, again, now);
    PlanUnique(Keys(b), FixedMap(b, now), nodes, r.value, plan);
  }
}
