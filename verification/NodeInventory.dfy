/** Classifying a node's DRA devices by profile (internal/dra/inventory.go). */
module NodeInventory {
  import opened Ordering
  import opened DevicePath
  import PS = PoolSnapshot

  /** What a profile's selector says of a device. */
  datatype Match = Yes | No | Failed

  /** The registry: the profiles of each driver, and their selectors. */
  datatype Rules = Rules(profiles: map<string, seq<string>>, selects: (string, PS.PoolID, PS.Device) -> Match)

  /** A device of a pool. */
  datatype Entry = Entry(id: PS.PoolID, device: PS.Device) {
    function Identity(): DeviceID { DeviceID(id.driver, id.pool, device.name) }
  }

  datatype ProfileInventory = ProfileInventory(profile: string, devices: seq<DeviceID>,
                                               numaNodes: map<DeviceID, seq<int>>)

  // --- one device ---

  /** The verdict after the first profiles: an error, or the only one that matched so far. */
  function Verdict(rules: Rules, names: seq<string>, e: Entry): Result<Option<string>, string> {
    if names == [] then Ok(None)
    else
      var before, last := Verdict(rules, names[..|names| - 1], e), names[|names| - 1];
      if before.Err? then before
      else
        match rules.selects(last, e.id, e.device)
        case Failed => Err("evaluate device profile")
        case No => before
        case Yes => if before.value.Some? then Err("overlapping device profiles") else Ok(Some(last))
  }

  function Profiles(rules: Rules, driver: string): seq<string> {
    if driver in rules.profiles then rules.profiles[driver] else []
  }

  function Profile(rules: Rules, e: Entry): Result<Option<string>, string> {
    Verdict(rules, Profiles(rules, e.id.driver), e)
  }

  function Selections(rules: Rules, names: seq<string>, e: Entry): nat {
    if names == [] then 0
    else Selections(rules, names[..|names| - 1], e) + if rules.selects(names[|names| - 1], e.id, e.device) ==
      Yes then 1 else 0
  }

  predicate AnyFailed(rules: Rules, names: seq<string>, e: Entry) {
    names != []
    && (AnyFailed(rules, names[..|names| - 1], e) || rules.selects(names[|names| - 1], e.id, e.device) == Failed)
  }

  /** A device has a profile exactly when no selector failed and exactly one selected it, and it is an error if one
      failed or two selected it. */
  lemma {:induction false} VerdictMeans(rules: Rules, names: seq<string>, e: Entry)
    ensures Verdict(rules, names, e).Ok? <==> !AnyFailed(rules, names, e) && Selections(rules, names, e) <= 1
    ensures Verdict(rules, names, e).Ok? ==>
              (Verdict(rules, names, e).value.Some? <==> Selections(rules, names, e) == 1)
    ensures Verdict(rules, names, e).Ok? && Verdict(rules, names, e).value.Some? ==>
              var p := Verdict(rules, names, e).value.value; p in names && rules.selects(p, e.id, e.device) == Yes
  {
    if names != [] {
      VerdictMeans(rules, names[..|names| - 1], e);
    }
  }

  /** matchDeviceProfile. */
  method MatchDeviceProfile(rules: Rules, e: Entry) returns (r: Result<Option<string>, string>)
    ensures r.Err? == Profile(rules, e).Err? && (r.Ok? ==> r == Profile(rules, e))
  {
    var names := Profiles(rules, e.id.driver);
    var matched: Option<string> := None;
    for n := 0 to |names|
      invariant Verdict(rules, names[..n], e) == Ok(matched)
    {
      assert names[..n + 1][..n] == names[..n];
      VerdictStays(rules, names, n + 1, e);
      match rules.selects(names[n], e.id, e.device) {
        case Failed =>
          return Err("evaluate device profile");
        case No =>
        case Yes =>
          if matched.Some? {
            return Err("overlapping device profiles");
          }
          matched := Some(names[n]);
      }
    }
    assert names[..|names|] == names;
    return Ok(matched);
  }

  lemma {:induction false} VerdictStays(rules: Rules, names: seq<string>, n: nat, e: Entry)
    requires n <= |names|
    ensures Verdict(rules, names[..n], e).Err? ==> Verdict(rules, names, e).Err?
  {
    if n < |names| {
      VerdictStays(rules, names[..|names| - 1], n, e);
      assert names[..|names| - 1][..n] == names[..n];
    } else {
      assert names[..n] == names;
    }
  }

  // --- collecting ---

  datatype State = State(byProfile: map<string, seq<DeviceID>>, numa: map<DeviceID, seq<int>>, seen: set<DeviceID>)

  predicate Matched(rules: Rules, e: Entry) {
    Profile(rules, e).Ok? && Profile(rules, e).value.Some?
  }

  predicate Belongs(rules: Rules, e: Entry, p: string, x: DeviceID) {
    Profile(rules, e) == Ok(Some(p)) && e.Identity() == x
  }

  ghost predicate Has(rules: Rules, entries: seq<Entry>, p: string, x: DeviceID) {
    exists i :: 0 <= i < |entries| && Belongs(rules, entries[i], p, x)
  }

  ghost predicate Classified(rules: Rules, entries: seq<Entry>) {
    forall i :: 0 <= i < |entries| ==> Profile(rules, entries[i]).Ok?
  }

  ghost predicate NoDuplicates(rules: Rules, entries: seq<Entry>) {
    forall i, j :: 0 <= i < j < |entries| && Matched(rules, entries[i]) && Matched(rules, entries[j]) ==>
             entries[i].Identity() != entries[j].Identity()
  }

  ghost predicate SeenAs(rules: Rules, entries: seq<Entry>, seen: set<DeviceID>) {
    forall x :: x in seen <==>
             exists i :: 0 <= i < |entries| && Matched(rules, entries[i]) && entries[i].Identity() == x
  }

  ghost predicate ListedFor(rules: Rules, entries: seq<Entry>, byProfile: map<string, seq<DeviceID>>, p: string) {
    && (p in byProfile <==> exists x :: Has(rules, entries, p, x))
    && (p in byProfile ==> Distinct(byProfile[p]) && forall x :: x in byProfile[p] <==> Has(rules, entries, p, x))
  }

  ghost predicate NumaAs(rules: Rules, entries: seq<Entry>, numa: map<DeviceID, seq<int>>) {
    && (forall i :: 0 <= i < |entries| && Matched(rules, entries[i]) ==>
          (entries[i].Identity() in numa <==> entries[i].device.numaNodes != []))
    && (forall i :: 0 <= i < |entries| && Matched(rules, entries[i]) && entries[i].Identity() in numa ==>
          numa[entries[i].Identity()] == entries[i].device.numaNodes)
    && (forall x :: x in numa ==>
         exists i :: 0 <= i < |entries| && Matched(rules, entries[i]) && entries[i].Identity() == x)
  }

  ghost predicate Collected(rules: Rules, entries: seq<Entry>, st: State) {
    && Classified(rules, entries) && NoDuplicates(rules, entries) && SeenAs(rules, entries, st.seen)
    && (forall p :: ListedFor(rules, entries, st.byProfile, p)) && NumaAs(rules, entries, st.numa)
  }

  lemma HasMore(rules: Rules, entries: seq<Entry>, e: Entry, p: string, x: DeviceID)
    ensures Has(rules, entries + [e], p, x) <==> Has(rules, entries, p, x) || Belongs(rules, e, p, x)
  {
    var more := entries + [e];
    if i :| 0 <= i < |entries| && Belongs(rules, entries[i], p, x) {
      assert more[i] == entries[i];
    }
    if i :| 0 <= i < |more| && Belongs(rules, more[i], p, x) {
      assert i < |entries| ==> more[i] == entries[i];
    }
    assert more[|entries|] == e;
  }

  function Noted(st: State, p: string, e: Entry): State {
    var x := e.Identity();
    State(st.byProfile[p := (if p in st.byProfile then st.byProfile[p] else []) + [x]],
          if e.device.numaNodes != [] then st.numa[x := e.device.numaNodes] else st.numa, st.seen + {x})
  }

  lemma NotedProfile(rules: Rules, entries: seq<Entry>, st: State, e: Entry, p: string, q: string)
    requires Collected(rules, entries, st) && Profile(rules, e) == Ok(Some(p)) && e.Identity() !in st.seen
    ensures ListedFor(rules, entries + [e], Noted(st, p, e).byProfile, q)
  {
    assert ListedFor(rules, entries, st.byProfile, q);
    var x := e.Identity();
    forall y ensures Has(rules, entries + [e], q, y) <==> Has(rules, entries, q, y) || (q == p && y == x) {
      HasMore(rules, entries, e, q, y);
    }
    if q == p {
      assert Has(rules, entries + [e], p, x);
      assert !Has(rules, entries, p, x);
    }
  }

  lemma NotedCollected(rules: Rules, entries: seq<Entry>, st: State, e: Entry, p: string)
    requires Collected(rules, entries, st) && Profile(rules, e) == Ok(Some(p)) && e.Identity() !in st.seen
    ensures Collected(rules, entries + [e], Noted(st, p, e))
  {
    var more, next := entries + [e], Noted(st, p, e);
    forall q ensures ListedFor(rules, more, next.byProfile, q) {
      NotedProfile(rules, entries, st, e, p, q);
    }
    assert forall i :: 0 <= i < |entries| ==> more[i] == entries[i];
    assert more[|entries|] == e;
    NotedSeen(rules, entries, st, e, p);
    NotedNuma(rules, entries, st, e, p);
  }

  lemma NotedSeen(rules: Rules, entries: seq<Entry>, st: State, e: Entry, p: string)
    requires Collected(rules, entries, st) && Profile(rules, e) == Ok(Some(p)) && e.Identity() !in st.seen
    ensures SeenAs(rules, entries + [e], Noted(st, p, e).seen) && NoDuplicates(rules, entries + [e])
  {
    var more := entries + [e];
    assert forall i :: 0 <= i < |entries| ==> more[i] == entries[i];
    assert more[|entries|] == e && Matched(rules, e);
  }

  lemma NotedNuma(rules: Rules, entries: seq<Entry>, st: State, e: Entry, p: string)
    requires Collected(rules, entries, st) && Profile(rules, e) == Ok(Some(p)) && e.Identity() !in st.seen
    ensures NumaAs(rules, entries + [e], Noted(st, p, e).numa)
  {
    var more, x := entries + [e], e.Identity();
    assert more[|entries|] == e && Matched(rules, e);
    forall i | 0 <= i < |entries| && Matched(rules, entries[i])
      ensures more[i] == entries[i] && entries[i].Identity() != x
    {
      assert entries[i].Identity() in st.seen;
    }
    forall y | y in st.numa
      ensures y != x && exists i :: 0 <= i < |more| && Matched(rules, more[i]) && more[i].Identity() == y
    {
      var i :| 0 <= i < |entries| && Matched(rules, entries[i]) && entries[i].Identity() == y;
      assert more[i] == entries[i];
    }
  }

  lemma SkippedCollected(rules: Rules, entries: seq<Entry>, st: State, e: Entry)
    requires Collected(rules, entries, st) && Profile(rules, e) == Ok(None)
    ensures Collected(rules, entries + [e], st)
  {
    var more := entries + [e];
    assert forall i :: 0 <= i < |entries| ==> more[i] == entries[i];
    assert more[|entries|] == e && !Matched(rules, e);
    forall q ensures ListedFor(rules, more, st.byProfile, q) {
      assert ListedFor(rules, entries, st.byProfile, q);
      forall y ensures Has(rules, more, q, y) <==> Has(rules, entries, q, y) {
        HasMore(rules, entries, e, q, y);
      }
    }
    SkippedSeen(rules, entries, st.seen, e);
    SkippedNuma(rules, entries, st.numa, e);
  }

  lemma SkippedSeen(rules: Rules, entries: seq<Entry>, seen: set<DeviceID>, e: Entry)
    requires SeenAs(rules, entries, seen) && NoDuplicates(rules, entries) && !Matched(rules, e)
    ensures SeenAs(rules, entries + [e], seen) && NoDuplicates(rules, entries + [e])
  {
    var more := entries + [e];
    assert more[|entries|] == e;
    forall x ensures x in seen <==> exists i :: 0 <= i < |more| && Matched(rules, more[i]) && more[i].Identity() == x {
      if i :| 0 <= i < |entries| && Matched(rules, entries[i]) && entries[i].Identity() == x {
        assert more[i] == entries[i];
      }
    }
  }

  lemma SkippedNuma(rules: Rules, entries: seq<Entry>, numa: map<DeviceID, seq<int>>, e: Entry)
    requires NumaAs(rules, entries, numa) && !Matched(rules, e)
    ensures NumaAs(rules, entries + [e], numa)
  {
    var more := entries + [e];
    assert more[|entries|] == e;
    forall x | x in numa ensures exists i :: 0 <= i < |more| && Matched(rules, more[i]) && more[i].Identity() == x {
      var i :| 0 <= i < |entries| && Matched(rules, entries[i]) && entries[i].Identity() == x;
      assert more[i] == entries[i];
    }
  }

  /** The device loop of BuildNodeInventory. */
  method Collect(rules: Rules, entries: seq<Entry>) returns (r: Result<State, string>)
    ensures r.Ok? <==> Classified(rules, entries) && NoDuplicates(rules, entries)
    ensures r.Ok? ==> Collected(rules, entries, r.value)
  {
    var st := State(map[], map[], {});
    assert forall p :: ListedFor(rules, [], map[], p);
    for n := 0 to |entries|
      invariant Collected(rules, entries[..n], st)
    {
      var e := entries[n];
      assert entries[..n + 1] == entries[..n] + [e];
      var profile := MatchDeviceProfile(rules, e);
      if profile.Err? {
        return Err(profile.error);
      }
      if profile.value.None? {
        SkippedCollected(rules, entries[..n], st, e);
        continue;
      }
      if e.Identity() in st.seen {
        var i :| 0 <= i < n && Matched(rules, entries[..n][i]) && entries[..n][i].Identity() == e.Identity();
        assert entries[i] == entries[..n][i];
        return Err("duplicate DRA device identity");
      }
      NotedCollected(rules, entries[..n], st, e, profile.value.value);
      st := Noted(st, profile.value.value, e);
    }
    assert entries[..|entries|] == entries;
    return Ok(st);
  }

  // --- sorting ---

  predicate DeviceLt(a: DeviceID, b: DeviceID) {
    StringLt(a.driver, b.driver)
    || (a.driver == b.driver && (StringLt(a.pool, b.pool) || (a.pool == b.pool && StringLt(a.device, b.device))))
  }

  lemma DeviceOrder()
    ensures StrictTotal(DeviceLt)
  {
    StringOrder();
  }

  /** One profile of an inventory: its devices in order, with the NUMA nodes of those that have any. */
  ghost predicate ProfileOf(rules: Rules, entries: seq<Entry>, inv: ProfileInventory) {
    && Ascending(inv.devices, DeviceLt) && (forall x :: x in inv.devices <==> Has(rules, entries, inv.profile, x))
    && (forall x :: x in inv.numaNodes ==> x in inv.devices)
    && (forall i :: 0 <= i < |entries| && Matched(rules, entries[i]) && entries[i].Identity() in inv.devices ==>
          NumaListed(entries[i], inv.numaNodes))
  }

  ghost predicate NumaListed(e: Entry, numaNodes: map<DeviceID, seq<int>>) {
    if e.device.numaNodes == [] then e.Identity() !in numaNodes
    else e.Identity() in numaNodes && numaNodes[e.Identity()] == e.device.numaNodes
  }

  ghost predicate InventoryOf(rules: Rules, entries: seq<Entry>, inv: seq<ProfileInventory>) {
    && (forall i, j :: 0 <= i < j < |inv| ==> StringLt(inv[i].profile, inv[j].profile))
    && (forall k :: 0 <= k < |inv| ==> ProfileOf(rules, entries, inv[k]) && inv[k].devices != [])
    && (forall p, x :: Has(rules, entries, p, x) ==> exists k :: 0 <= k < |inv| && inv[k].profile == p)
  }

  method SortedProfile(rules: Rules, ghost entries: seq<Entry>, st: State, p: string) returns (inv: ProfileInventory)
    requires Collected(rules, entries, st) && p in st.byProfile
    ensures SortedAs(rules, entries, p, inv)
  {
    assert ListedFor(rules, entries, st.byProfile, p);
    ghost var some :| Has(rules, entries, p, some);
    var devices := SortDevices(st.byProfile[p]);
    assert some in devices;
    var numa := map x | x in devices && x in st.numa :: st.numa[x];
    inv := ProfileInventory(p, devices, numa);
    forall i | 0 <= i < |entries| && Matched(rules, entries[i]) && entries[i].Identity() in devices
      ensures NumaListed(entries[i], numa)
    {
      KnownNuma(rules, entries, st.numa, i);
    }
  }

  lemma KnownNuma(rules: Rules, entries: seq<Entry>, numa: map<DeviceID, seq<int>>, i: nat)
    requires NumaAs(rules, entries, numa) && i < |entries| && Matched(rules, entries[i])
    ensures NumaListed(entries[i], numa)
  {
  }

  method SortDevices(devices: seq<DeviceID>) returns (r: seq<DeviceID>)
    requires Distinct(devices)
    ensures Ascending(r, DeviceLt) && forall x :: x in r <==> x in devices
  {
    DeviceOrder();
    SortAscending(devices, DeviceLt);
    MemberOfMultiset(Sort(devices, DeviceLt), devices);
    r := Sort(devices, DeviceLt);
  }

  method SortNames(names: set<string>) returns (r: seq<string>)
    ensures Ascending(r, StringLt) && (forall x :: x in r <==> x in names) && forall i :: 0 <= i < |r| ==> r[i] in names
  {
    StringOrder();
    r := ListAscending(names, StringLt);
    assert forall i :: 0 <= i < |r| ==> r[i] in r;
  }

  /** sortedProfileInventories. */
  method SortedProfileInventories(rules: Rules, ghost entries: seq<Entry>, st: State)
    returns (inv: seq<ProfileInventory>)
    requires Collected(rules, entries, st)
    ensures InventoryOf(rules, entries, inv)
  {
    var names := SortNames(st.byProfile.Keys);
    inv := [];
    for n := 0 to |names|
      invariant |inv| == n && forall k :: 0 <= k < n ==> SortedAs(rules, entries, names[k], inv[k])
    {
      var one := SortedProfile(rules, entries, st, names[n]);
      inv := inv + [one];
    }
    AllSorted(rules, entries, st, names, inv);
  }

  ghost predicate SortedAs(rules: Rules, entries: seq<Entry>, p: string, inv: ProfileInventory) {
    inv.profile == p && ProfileOf(rules, entries, inv) && inv.devices != []
  }

  lemma AllSorted(rules: Rules, entries: seq<Entry>, st: State, names: seq<string>, inv: seq<ProfileInventory>)
    requires Collected(rules, entries, st) && Ascending(names, StringLt)
             && (forall x :: x in names <==> x in st.byProfile)
    requires |inv| == |names| && forall k :: 0 <= k < |names| ==> SortedAs(rules, entries, names[k], inv[k])
    ensures InventoryOf(rules, entries, inv)
  {
    forall p, x | Has(rules, entries, p, x) ensures exists k :: 0 <= k < |inv| && inv[k].profile == p {
      assert ListedFor(rules, entries, st.byProfile, p);
      assert p in names;
      var k :| 0 <= k < |names| && names[k] == p;
      assert SortedAs(rules, entries, names[k], inv[k]);
    }
    forall k | 0 <= k < |inv|
      ensures inv[k].profile == names[k] && ProfileOf(rules, entries, inv[k]) && inv[k].devices != []
    {
      assert SortedAs(rules, entries, names[k], inv[k]);
    }
  }

  // --- the whole inventory ---

  function DevicesOf(slices: seq<PS.Slice>): seq<PS.Device> {
    if slices == [] then [] else DevicesOf(slices[..|slices| - 1]) + slices[|slices| - 1].devices
  }

  function EntriesOf(id: PS.PoolID, devices: seq<PS.Device>): seq<Entry> {
    if devices == [] then [] else EntriesOf(id, devices[..|devices| - 1]) + [Entry(id, devices[|devices| - 1])]
  }

  /** The devices of the given pools, pool by pool, slice by slice. */
  function Entries(m: PS.Snapshots, ids: seq<PS.PoolID>): seq<Entry>
    requires forall i :: 0 <= i < |ids| ==> ids[i] in m
  {
    if ids == [] then []
    else
      var last := ids[|ids| - 1];
      Entries(m, ids[..|ids| - 1]) + EntriesOf(last, DevicesOf(m[last]))
  }

  /** The pools of the node, in order. */
  ghost predicate NodePools(m: PS.Snapshots, node: string, ids: seq<PS.PoolID>) {
    && Ascending(ids, PS.PoolLt) && (forall id :: id in ids <==> id in m && PS.OnNode(m[id], node))
    && (forall i :: 0 <= i < |ids| ==> ids[i] in m)
  }

  ghost predicate PoolsOk(m: PS.Snapshots, node: string) {
    forall id :: id in m ==> PS.PoolOk(m[id], node)
  }

  /** What an inventory is made of: the newest slices of the pools, all consistent and complete where they name the
      node, each device with at most one profile, and no device twice. */
  ghost predicate Outcome(rules: Rules, node: string, slices: seq<PS.Slice>, m: PS.Snapshots, ids: seq<PS.PoolID>,
                          r: Result<seq<ProfileInventory>, string>)
  {
    && PS.Snapped(rules.profiles, slices, m) && (PoolsOk(m, node) ==> NodePools(m, node, ids))
       && (forall i :: 0 <= i < |ids| ==> ids[i] in m)
    && (r.Ok? <==> PoolsOk(m, node) && Classified(rules, Entries(m, ids)) && NoDuplicates(rules, Entries(m, ids)))
    && (r.Ok? ==> InventoryOf(rules, Entries(m, ids), r.value))
  }

  ghost predicate Built(rules: Rules, node: string, slices: seq<PS.Slice>, r: Result<seq<ProfileInventory>, string>) {
    exists m, ids :: Outcome(rules, node, slices, m, ids, r)
  }

  /** BuildNodeInventory. */
  method BuildNodeInventory(rules: Rules, node: string, slices: seq<PS.Slice>)
    returns (r: Result<seq<ProfileInventory>, string>)
    ensures Built(rules, node, slices, r)
  {
    var m := PS.SelectSnapshots(rules.profiles, slices);
    forall id | id in m ensures m[id] != [] {
      assert PS.SnappedAt(rules.profiles, slices, m, id);
    }
    var pools := PS.CompleteSnapshots(m, node);
    if pools.Err? {
      r := Err(pools.error);
      assert Outcome(rules, node, slices, m, [], r);
      return;
    }
    var ids := pools.value;
    assert forall i :: 0 <= i < |ids| ==> ids[i] in ids;
    var entries := Entries(m, ids);
    var st := Collect(rules, entries);
    if st.Err? {
      r := Err(st.error);
      assert Outcome(rules, node, slices, m, ids, r);
      return;
    }
    var inv := SortedProfileInventories(rules, entries, st.value);
    r := Ok(inv);
    assert Outcome(rules, node, slices, m, ids, r);
  }

  // --- canonical ---

  lemma {:induction false} AtLeastTwo(s: seq<Entry>, x: Entry)
    ensures multiset(s)[x] >= 2 <==> exists i, j :: 0 <= i < j < |s| && s[i] == x && s[j] == x
  {
    if s != [] {
      var before, last := s[..|s| - 1], s[|s| - 1];
      assert s == before + [last];
      AtLeastTwo(before, x);
      assert multiset(before)[x] >= 1 <==> x in before;
      if i, j :| 0 <= i < j < |before| && before[i] == x && before[j] == x {
        assert s[i] == x && s[j] == x;
      }
      if i, j :| 0 <= i < j < |s| && s[i] == x && s[j] == x {
        assert before[i] == x;
        assert j < |before| ==> before[j] == x;
      }
      if x in before && last == x {
        var i :| 0 <= i < |before| && before[i] == x;
        assert s[i] == x && s[|before|] == x;
      }
    }
  }

  /** Duplicates show in how often entries occur, not in where they stand. */
  ghost predicate DuplicateFree(rules: Rules, entries: multiset<Entry>) {
    forall e, f ::
             e in entries && f in entries && Matched(rules, e) && Matched(rules, f) && e.Identity() == f.Identity() ==>
               e == f && entries[e] < 2
  }

  lemma NoDuplicatesCounted(rules: Rules, entries: seq<Entry>)
    ensures NoDuplicates(rules, entries) <==> DuplicateFree(rules, multiset(entries))
  {
    if NoDuplicates(rules, entries) {
      forall e, f | e in multiset(entries) && f in multiset(entries) && Matched(rules, e) && Matched(rules, f)
             && e.Identity() == f.Identity()
        ensures e == f && multiset(entries)[e] < 2
      {
        var i :| 0 <= i < |entries| && entries[i] == e;
        var j :| 0 <= j < |entries| && entries[j] == f;
        AtLeastTwo(entries, e);
      }
    }
    if DuplicateFree(rules, multiset(entries)) {
      forall i, j | 0 <= i < j < |entries| && Matched(rules, entries[i]) && Matched(rules, entries[j])
        ensures entries[i].Identity() != entries[j].Identity()
      {
        AtLeastTwo(entries, entries[i]);
        assert entries[i] in multiset(entries) && entries[j] in multiset(entries);
      }
    }
  }

  lemma ClassifiedMembers(rules: Rules, entries: seq<Entry>)
    ensures Classified(rules, entries) <==> forall e :: e in entries ==> Profile(rules, e).Ok?
  {
    if Classified(rules, entries) {
      forall e | e in entries ensures Profile(rules, e).Ok? {
        var i :| 0 <= i < |entries| && entries[i] == e;
      }
    }
  }

  /** Whether the entries can be classified does not depend on their order. */
  lemma SameVerdict(rules: Rules, a: seq<Entry>, b: seq<Entry>)
    requires multiset(a) == multiset(b)
    ensures Classified(rules, a) && NoDuplicates(rules, a) <==> Classified(rules, b) && NoDuplicates(rules, b)
    ensures forall p, x :: Has(rules, a, p, x) <==> Has(rules, b, p, x)
  {
    MemberOfMultiset(a, b);
    ClassifiedMembers(rules, a);
    ClassifiedMembers(rules, b);
    NoDuplicatesCounted(rules, a);
    NoDuplicatesCounted(rules, b);
    forall p, x ensures Has(rules, a, p, x) <==> Has(rules, b, p, x) {
      SameHas(rules, a, b, p, x);
      SameHas(rules, b, a, p, x);
    }
  }

  lemma SameHas(rules: Rules, a: seq<Entry>, b: seq<Entry>, p: string, x: DeviceID)
    requires forall e :: e in a ==> e in b
    ensures Has(rules, a, p, x) ==> Has(rules, b, p, x)
  {
    if i :| 0 <= i < |a| && Belongs(rules, a[i], p, x) {
      assert a[i] in a;
      var j :| 0 <= j < |b| && b[j] == a[i];
    }
  }
}
