/** A node's inventory depends only on the newest slices of its pools (internal/dra/inventory.go). */
module CanonicalInventory {
  import opened Ordering
  import opened DevicePath
  import opened NodeInventory
  import PS = PoolSnapshot

  // --- one inventory per set of entries ---

  ghost function NamesOf(inv: seq<ProfileInventory>): seq<string> {
    seq(|inv|, k requires 0 <= k < |inv| => inv[k].profile)
  }

  lemma NameHas(rules: Rules, entries: seq<Entry>, inv: seq<ProfileInventory>, p: string)
    requires InventoryOf(rules, entries, inv)
    ensures p in NamesOf(inv) <==> exists x :: Has(rules, entries, p, x)
  {
    if p in NamesOf(inv) {
      var k :| 0 <= k < |inv| && NamesOf(inv)[k] == p;
      assert ProfileOf(rules, entries, inv[k]);
      assert inv[k].devices[0] in inv[k].devices;
    }
    if x :| Has(rules, entries, p, x) {
      var k :| 0 <= k < |inv| && inv[k].profile == p;
      assert NamesOf(inv)[k] == p;
    }
  }

  lemma SameNames(rules: Rules, a: seq<Entry>, b: seq<Entry>, x: seq<ProfileInventory>, y: seq<ProfileInventory>)
    requires multiset(a) == multiset(b) && InventoryOf(rules, a, x) && InventoryOf(rules, b, y)
    ensures NamesOf(x) == NamesOf(y)
  {
    StringOrder();
    SameVerdict(rules, a, b);
    forall p ensures p in NamesOf(x) <==> p in NamesOf(y) {
      NameHas(rules, a, x, p);
      NameHas(rules, b, y, p);
    }
    AscendingUnique(NamesOf(x), NamesOf(y), StringLt);
  }

  lemma SameProfile(rules: Rules, a: seq<Entry>, b: seq<Entry>, x: ProfileInventory, y: ProfileInventory)
    requires multiset(a) == multiset(b) && ProfileOf(rules, a, x) && ProfileOf(rules, b, y) && x.profile == y.profile
    ensures x == y
  {
    SameVerdict(rules, a, b);
    SameDevices(x.devices, y.devices);
    forall d | d in x.devices
      ensures (d in x.numaNodes <==> d in y.numaNodes) && (d in x.numaNodes ==> x.numaNodes[d] == y.numaNodes[d])
    {
      SameNuma(rules, a, b, x, y, d);
    }
    assert x.numaNodes == y.numaNodes;
  }

  lemma SameDevices(x: seq<DeviceID>, y: seq<DeviceID>)
    requires Ascending(x, DeviceLt) && Ascending(y, DeviceLt) && forall d :: d in x <==> d in y
    ensures x == y
  {
    DeviceOrder();
    AscendingUnique(x, y, DeviceLt);
  }

  lemma SameNuma(rules: Rules, a: seq<Entry>, b: seq<Entry>, x: ProfileInventory, y: ProfileInventory, d: DeviceID)
    requires multiset(a) == multiset(b) && ProfileOf(rules, a, x) && ProfileOf(rules, b, y) && d in x.devices
             && d in y.devices
    ensures (d in x.numaNodes <==> d in y.numaNodes) && (d in x.numaNodes ==> x.numaNodes[d] == y.numaNodes[d])
  {
    assert Has(rules, a, x.profile, d);
    var i :| 0 <= i < |a| && Belongs(rules, a[i], x.profile, d);
    MemberOfMultiset(a, b);
    assert a[i] in a && a[i] in b;
    var j :| 0 <= j < |b| && b[j] == a[i];
    assert Matched(rules, a[i]) && a[i].Identity() == d;
  }

  /** The inventory of a collection of entries does not depend on their order. */
  lemma InventoryUnique(rules: Rules, a: seq<Entry>, b: seq<Entry>, x: seq<ProfileInventory>, y: seq<ProfileInventory>)
    requires multiset(a) == multiset(b) && InventoryOf(rules, a, x) && InventoryOf(rules, b, y)
    ensures x == y
  {
    SameNames(rules, a, b, x, y);
    assert |x| == |NamesOf(x)| == |NamesOf(y)| == |y|;
    forall k | 0 <= k < |x| ensures x[k] == y[k] {
      assert NamesOf(x)[k] == x[k].profile && NamesOf(y)[k] == y[k].profile;
      SameProfile(rules, a, b, x[k], y[k]);
    }
  }

  /** Every device that a profile selects is in exactly one profile's list. */
  lemma OneProfile(rules: Rules, entries: seq<Entry>, inv: seq<ProfileInventory>, e: Entry)
    requires InventoryOf(rules, entries, inv) && NoDuplicates(rules, entries) && e in entries && Matched(rules, e)
    ensures exists k :: 0 <= k < |inv| && e.Identity() in inv[k].devices
    ensures forall i, j ::
              0 <= i < |inv| && 0 <= j < |inv| && e.Identity() in inv[i].devices && e.Identity() in inv[j].devices ==>
                i == j
  {
    var p, d := Profile(rules, e).value.value, e.Identity();
    var m :| 0 <= m < |entries| && entries[m] == e;
    assert Belongs(rules, entries[m], p, d);
    assert Has(rules, entries, p, d);
    var k :| 0 <= k < |inv| && inv[k].profile == p;
    assert ProfileOf(rules, entries, inv[k]);
    forall i | 0 <= i < |inv| && d in inv[i].devices ensures i == k {
      assert ProfileOf(rules, entries, inv[i]) && Has(rules, entries, inv[i].profile, d);
      var n :| 0 <= n < |entries| && Belongs(rules, entries[n], inv[i].profile, d);
      assert m == n;
      StringConnected(p, p);
    }
  }

  // --- one collection of entries per newest generation ---

  ghost function Headers(slices: seq<PS.Slice>): set<PS.Header> {
    set s | s in slices :: s.header
  }

  /** As many slices, the same headers and the same devices, in any order and distribution. */
  ghost predicate SamePool(x: seq<PS.Slice>, y: seq<PS.Slice>) {
    |x| == |y| && Headers(x) == Headers(y) && multiset(DevicesOf(x)) == multiset(DevicesOf(y))
  }

  /** The same devices. */
  ghost predicate SameOffer(x: seq<PS.Slice>, y: seq<PS.Slice>) {
    multiset(DevicesOf(x)) == multiset(DevicesOf(y))
  }

  lemma HeaderOf(x: seq<PS.Slice>, y: seq<PS.Slice>, i: nat) returns (j: nat)
    requires Headers(x) == Headers(y) && i < |x|
    ensures j < |y| && y[j].header == x[i].header
  {
    assert x[i] in x && x[i].header in Headers(y);
    var s :| s in y && s.header == x[i].header;
    j :| 0 <= j < |y| && y[j] == s;
  }

  lemma PoolOkCarries(x: seq<PS.Slice>, y: seq<PS.Slice>, node: string)
    requires SamePool(x, y) && PS.PoolOk(x, node)
    ensures PS.PoolOk(y, node) && (PS.OnNode(x, node) <==> PS.OnNode(y, node))
  {
    forall i, j | 0 <= i < |y| && 0 <= j < |y|
      ensures y[i].header.valid && y[i].header.nodeName != "" && y[i].header.nodeName == y[j].header.nodeName
              && y[i].header.count == y[j].header.count
    {
      var k := HeaderOf(y, x, i);
      var l := HeaderOf(y, x, j);
    }
    if y != [] {
      var k := HeaderOf(y, x, 0);
    }
  }

  lemma {:induction false} EntriesCount(id: PS.PoolID, devices: seq<PS.Device>, e: Entry)
    ensures multiset(EntriesOf(id, devices))[e] == if e.id == id then multiset(devices)[e.device] else 0
  {
    if devices != [] {
      var before, last := devices[..|devices| - 1], devices[|devices| - 1];
      EntriesCount(id, before, e);
      assert devices == before + [last];
      assert e == Entry(id, last) <==> e.id == id && e.device == last;
    }
  }

  lemma {:induction false} SameEntries(a: PS.Snapshots, b: PS.Snapshots, ids: seq<PS.PoolID>)
    requires forall i :: 0 <= i < |ids| ==> ids[i] in a && ids[i] in b && SameOffer(a[ids[i]], b[ids[i]])
    ensures multiset(Entries(a, ids)) == multiset(Entries(b, ids))
  {
    if ids != [] {
      var last := ids[|ids| - 1];
      SameEntries(a, b, ids[..|ids| - 1]);
      var x, y := EntriesOf(last, DevicesOf(a[last])), EntriesOf(last, DevicesOf(b[last]));
      forall e ensures multiset(x)[e] == multiset(y)[e] {
        EntriesCount(last, DevicesOf(a[last]), e);
        EntriesCount(last, DevicesOf(b[last]), e);
      }
      assert multiset(x) == multiset(y);
    }
  }

  ghost predicate SameNewest(profiles: map<string, seq<string>>, a: seq<PS.Slice>, b: seq<PS.Slice>) {
    forall id: PS.PoolID :: PS.Relevant(profiles, id.driver) ==> SamePool(PS.Newest(a, id), PS.Newest(b, id))
  }

  lemma SnapshotsSame(rules: Rules, a: seq<PS.Slice>, b: seq<PS.Slice>, m: PS.Snapshots, n: PS.Snapshots, id: PS.PoolID)
    requires SameNewest(rules.profiles, a, b) && PS.Snapped(rules.profiles, a, m) && PS.Snapped(rules.profiles, b, n)
    ensures id in m <==> id in n
    ensures id in m ==> SamePool(m[id], n[id])
  {
    assert PS.SnappedAt(rules.profiles, a, m, id) && PS.SnappedAt(rules.profiles, b, n, id);
    if PS.Relevant(rules.profiles, id.driver) {
      assert SamePool(PS.Newest(a, id), PS.Newest(b, id));
    }
  }

  lemma PoolsSame(rules: Rules, node: string, a: seq<PS.Slice>, b: seq<PS.Slice>, m: PS.Snapshots, n: PS.Snapshots)
    requires SameNewest(rules.profiles, a, b) && PS.Snapped(rules.profiles, a, m) && PS.Snapped(rules.profiles, b, n)
    requires PoolsOk(m, node)
    ensures PoolsOk(n, node)
    ensures forall id :: (id in m && PS.OnNode(m[id], node)) <==> (id in n && PS.OnNode(n[id], node))
  {
    forall id
      ensures (id in n ==> PS.PoolOk(n[id], node))
              && ((id in m && PS.OnNode(m[id], node)) <==> (id in n && PS.OnNode(n[id], node)))
    {
      SnapshotsSame(rules, a, b, m, n, id);
      if id in m {
        PoolOkCarries(m[id], n[id], node);
      }
    }
  }

  lemma SameIds(m: PS.Snapshots, n: PS.Snapshots, node: string, ids: seq<PS.PoolID>, others: seq<PS.PoolID>)
    requires NodePools(m, node, ids) && NodePools(n, node, others)
    requires forall id :: (id in m && PS.OnNode(m[id], node)) <==> (id in n && PS.OnNode(n[id], node))
    ensures ids == others
  {
    PS.PoolOrder();
    AscendingUnique(ids, others, PS.PoolLt);
  }

  lemma SameNewestReverse(profiles: map<string, seq<string>>, a: seq<PS.Slice>, b: seq<PS.Slice>)
    requires SameNewest(profiles, a, b)
    ensures SameNewest(profiles, b, a)
  {
    forall id: PS.PoolID | PS.Relevant(profiles, id.driver) ensures SamePool(PS.Newest(b, id), PS.Newest(a, id)) {
      assert SamePool(PS.Newest(a, id), PS.Newest(b, id));
    }
  }

  lemma Carries(rules: Rules, node: string, a: seq<PS.Slice>, b: seq<PS.Slice>, m: PS.Snapshots, n: PS.Snapshots,
                ids: seq<PS.PoolID>, others: seq<PS.PoolID>,
                x: Result<seq<ProfileInventory>, string>, y: Result<seq<ProfileInventory>, string>)
    requires SameNewest(rules.profiles, a, b) && Outcome(rules, node, a, m, ids, x)
             && Outcome(rules, node, b, n, others, y) && x.Ok?
    ensures y.Ok? && x.value == y.value
  {
    PoolsSame(rules, node, a, b, m, n);
    SameIds(m, n, node, ids, others);
    forall i | 0 <= i < |ids| ensures ids[i] in n && SamePool(m[ids[i]], n[ids[i]]) {
      SnapshotsSame(rules, a, b, m, n, ids[i]);
    }
    SameEntries(m, n, ids);
    SameVerdict(rules, Entries(m, ids), Entries(n, ids));
    InventoryUnique(rules, Entries(m, ids), Entries(n, ids), x.value, y.value);
  }

  /** Success and the exact inventory depend only on the newest generation of each pool. */
  lemma InventoryCanonical(rules: Rules, node: string, a: seq<PS.Slice>, b: seq<PS.Slice>,
                           x: Result<seq<ProfileInventory>, string>, y: Result<seq<ProfileInventory>, string>)
    requires SameNewest(rules.profiles, a, b) && Built(rules, node, a, x) && Built(rules, node, b, y)
    ensures (x.Ok? <==> y.Ok?) && (x.Ok? ==> x.value == y.value)
  {
    var m, ids :| Outcome(rules, node, a, m, ids, x);
    var n, others :| Outcome(rules, node, b, n, others, y);
    if x.Ok? {
      Carries(rules, node, a, b, m, n, ids, others, x, y);
    } else if y.Ok? {
      SameNewestReverse(rules.profiles, a, b);
      Carries(rules, node, b, a, n, m, others, ids, y, x);
    }
  }

  /** A pool was published again, in whatever number of slices and at whatever generation: both pass, and where they are
      on the node they have the same devices. Pools on other nodes may come, go and change. */
  ghost predicate Republished(x: seq<PS.Slice>, y: seq<PS.Slice>, node: string) {
    && PS.PoolOk(x, node) && PS.PoolOk(y, node) && (PS.OnNode(x, node) <==> PS.OnNode(y, node))
    && (PS.OnNode(x, node) ==> SameOffer(x, y))
  }

  ghost predicate AllRepublished(profiles: map<string, seq<string>>, a: seq<PS.Slice>, b: seq<PS.Slice>, node: string) {
    forall id: PS.PoolID :: PS.Relevant(profiles, id.driver) ==> Republished(PS.Newest(a, id), PS.Newest(b, id), node)
  }

  lemma RepublishedPool(rules: Rules, node: string, a: seq<PS.Slice>, b: seq<PS.Slice>, m: PS.Snapshots,
                        n: PS.Snapshots, id: PS.PoolID)
    requires AllRepublished(rules.profiles, a, b, node) && PS.Snapped(rules.profiles, a, m)
             && PS.Snapped(rules.profiles, b, n)
    ensures (id in m ==> PS.PoolOk(m[id], node)) && (id in n ==> PS.PoolOk(n[id], node))
    ensures (id in m && PS.OnNode(m[id], node)) <==> (id in n && PS.OnNode(n[id], node))
    ensures id in m && PS.OnNode(m[id], node) ==> SameOffer(m[id], n[id])
  {
    assert PS.SnappedAt(rules.profiles, a, m, id) && PS.SnappedAt(rules.profiles, b, n, id);
    if PS.Relevant(rules.profiles, id.driver) {
      assert Republished(PS.Newest(a, id), PS.Newest(b, id), node);
    }
  }

  /** Publishing the same devices again changes neither success nor the inventory. */
  lemma RepublishingDoesNotMatter(rules: Rules, node: string, a: seq<PS.Slice>, b: seq<PS.Slice>,
                                  x: Result<seq<ProfileInventory>, string>, y: Result<seq<ProfileInventory>, string>)
    requires AllRepublished(rules.profiles, a, b, node) && Built(rules, node, a, x) && Built(rules, node, b, y)
    ensures (x.Ok? <==> y.Ok?) && (x.Ok? ==> x.value == y.value)
  {
    var m, ids :| Outcome(rules, node, a, m, ids, x);
    var n, others :| Outcome(rules, node, b, n, others, y);
    forall id: PS.PoolID
      ensures (id in m ==> PS.PoolOk(m[id], node)) && (id in n ==> PS.PoolOk(n[id], node))
      ensures (id in m && PS.OnNode(m[id], node)) <==> (id in n && PS.OnNode(n[id], node))
    {
      RepublishedPool(rules, node, a, b, m, n, id);
    }
    SameIds(m, n, node, ids, others);
    forall i | 0 <= i < |ids| ensures ids[i] in n && SameOffer(m[ids[i]], n[ids[i]]) {
      assert ids[i] in ids;
      RepublishedPool(rules, node, a, b, m, n, ids[i]);
    }
    SameEntries(m, n, ids);
    SameVerdict(rules, Entries(m, ids), Entries(n, ids));
    if x.Ok? {
      InventoryUnique(rules, Entries(m, ids), Entries(n, ids), x.value, y.value);
    }
  }

  // --- order, distribution and obsolete generations ---

  /** A slice without the order of its devices. */
  datatype Content = Content(id: PS.PoolID, header: PS.Header, devices: multiset<PS.Device>)

  ghost function ContentOf(s: PS.Slice): Content {
    Content(s.id, s.header, multiset(s.devices))
  }

  ghost function Contents(slices: seq<PS.Slice>): multiset<Content> {
    if slices == [] then multiset{} else Contents(slices[..|slices| - 1]) + multiset{ContentOf(slices[|slices| - 1])}
  }

  ghost predicate Occurs(slices: seq<PS.Slice>, c: Content) {
    exists i :: 0 <= i < |slices| && ContentOf(slices[i]) == c
  }

  lemma OccursMore(before: seq<PS.Slice>, last: PS.Slice, c: Content)
    ensures Occurs(before + [last], c) <==> Occurs(before, c) || ContentOf(last) == c
  {
    var more := before + [last];
    if i :| 0 <= i < |before| && ContentOf(before[i]) == c {
      assert more[i] == before[i];
    }
    if i :| 0 <= i < |more| && ContentOf(more[i]) == c {
      assert i < |before| ==> before[i] == more[i];
    }
    assert more[|before|] == last;
  }

  lemma {:induction false} ContentHas(slices: seq<PS.Slice>, c: Content)
    ensures c in Contents(slices) <==> Occurs(slices, c)
  {
    if slices != [] {
      var before, last := slices[..|slices| - 1], slices[|slices| - 1];
      ContentHas(before, c);
      OccursMore(before, last, c);
      assert before + [last] == slices;
    }
  }

  lemma {:induction false} SelectCount(slices: seq<PS.Slice>, id: PS.PoolID, g: int, c: Content)
    ensures Contents(PS.Select(slices, id, g))[c] ==
              if c.id == id && c.header.generation == g then Contents(slices)[c] else 0
  {
    if slices != [] {
      var before, last := slices[..|slices| - 1], slices[|slices| - 1];
      SelectCount(before, id, g, c);
      var chosen := PS.Select(before, id, g);
      assert (chosen + [last])[..|chosen|] == chosen;
    }
  }

  lemma GenerationCarries(a: seq<PS.Slice>, b: seq<PS.Slice>, id: PS.PoolID, g: int)
    requires (forall c :: c in Contents(a) ==> c in Contents(b)) && PS.Generation(a, id) == Some(g)
    ensures PS.Generation(b, id).Some? && PS.Generation(b, id).value >= g
  {
    PS.GenerationIsMax(a, id);
    PS.SelectOnly(a, id, g);
    var s := PS.Newest(a, id)[0];
    assert s in PS.Newest(a, id) && s in a;
    var i :| 0 <= i < |a| && a[i] == s;
    ContentHas(a, ContentOf(s));
    ContentHas(b, ContentOf(s));
    var j :| 0 <= j < |b| && ContentOf(b[j]) == ContentOf(s);
    assert b[j].id == s.id && b[j].header == s.header;
    PS.GenerationIsMax(b, id);
  }

  lemma SameNewestContents(a: seq<PS.Slice>, b: seq<PS.Slice>, id: PS.PoolID)
    requires Contents(a) == Contents(b)
    ensures Contents(PS.Newest(a, id)) == Contents(PS.Newest(b, id))
  {
    var x, y := PS.Generation(a, id), PS.Generation(b, id);
    if x.Some? {
      GenerationCarries(a, b, id, x.value);
    }
    if y.Some? {
      GenerationCarries(b, a, id, y.value);
    }
    assert x == y;
    if x.Some? {
      forall c ensures Contents(PS.Newest(a, id))[c] == Contents(PS.Newest(b, id))[c] {
        SelectCount(a, id, x.value, c);
        SelectCount(b, id, x.value, c);
      }
    }
  }

  lemma {:induction false} ContentsConcat(a: seq<PS.Slice>, b: seq<PS.Slice>)
    ensures Contents(a + b) == Contents(a) + Contents(b)
            && multiset(DevicesOf(a + b)) == multiset(DevicesOf(a)) + multiset(DevicesOf(b))
  {
    if b == [] {
      assert a + b == a;
    } else {
      assert (a + b)[..|a + b| - 1] == a + b[..|b| - 1];
      ContentsConcat(a, b[..|b| - 1]);
    }
  }

  lemma WithoutOne(y: seq<PS.Slice>, k: nat)
    requires k < |y|
    ensures var rest := y[..k] + y[k + 1..];
            Contents(y) == Contents(rest) + multiset{ContentOf(y[k])}
            && multiset(DevicesOf(y)) == multiset(DevicesOf(rest)) + multiset(y[k].devices)
  {
    var before, after := y[..k], y[k + 1..];
    assert y == (before + [y[k]]) + after;
    ContentsConcat(before + [y[k]], after);
    ContentsConcat(before, after);
    assert (before + [y[k]])[..|before|] == before;
  }

  lemma CancelOne(a: multiset<Content>, b: multiset<Content>, c: Content)
    requires a + multiset{c} == b + multiset{c}
    ensures a == b
  {
    assert a == (a + multiset{c}) - multiset{c} && b == (b + multiset{c}) - multiset{c};
  }

  lemma {:induction false} SameContentsSamePool(x: seq<PS.Slice>, y: seq<PS.Slice>)
    requires Contents(x) == Contents(y)
    ensures |x| == |y| && multiset(DevicesOf(x)) == multiset(DevicesOf(y))
    decreases |x|
  {
    if x != [] {
      var before, last := x[..|x| - 1], x[|x| - 1];
      assert ContentOf(last) in Contents(y);
      ContentHas(y, ContentOf(last));
      var k :| 0 <= k < |y| && ContentOf(y[k]) == ContentOf(last);
      WithoutOne(y, k);
      CancelOne(Contents(before), Contents(y[..k] + y[k + 1..]), ContentOf(last));
      SameContentsSamePool(before, y[..k] + y[k + 1..]);
    }
  }

  lemma HeadersCarry(x: seq<PS.Slice>, y: seq<PS.Slice>)
    requires Contents(x) == Contents(y)
    ensures Headers(x) <= Headers(y)
  {
    forall h | h in Headers(x) ensures h in Headers(y) {
      var s :| s in x && s.header == h;
      var i :| 0 <= i < |x| && x[i] == s;
      ContentHas(x, ContentOf(s));
      ContentHas(y, ContentOf(s));
      var j :| 0 <= j < |y| && ContentOf(y[j]) == ContentOf(s);
      assert y[j] in y && y[j].header == h;
    }
  }

  /** Neither the order of the slices nor the order of the devices within them matters. */
  lemma OrderDoesNotMatter(profiles: map<string, seq<string>>, a: seq<PS.Slice>, b: seq<PS.Slice>)
    requires Contents(a) == Contents(b)
    ensures SameNewest(profiles, a, b)
  {
    forall id: PS.PoolID | PS.Relevant(profiles, id.driver) ensures SamePool(PS.Newest(a, id), PS.Newest(b, id)) {
      SameNewestContents(a, b, id);
      SameContentsSamePool(PS.Newest(a, id), PS.Newest(b, id));
      HeadersCarry(PS.Newest(a, id), PS.Newest(b, id));
      HeadersCarry(PS.Newest(b, id), PS.Newest(a, id));
    }
  }

  /** Nor does a slice of an obsolete generation. */
  lemma ObsoleteDoesNotMatter(profiles: map<string, seq<string>>, slices: seq<PS.Slice>, s: PS.Slice, newer: PS.Slice)
    requires newer in slices && newer.id == s.id && newer.header.generation > s.header.generation
    ensures SameNewest(profiles, slices + [s], slices)
  {
    forall id: PS.PoolID | PS.Relevant(profiles, id.driver)
      ensures SamePool(PS.Newest(slices + [s], id), PS.Newest(slices, id))
    {
      PS.NewestNext(slices, s, id);
      PS.GenerationIsMax(slices, id);
      if id == s.id {
        var g := PS.Generation(slices, id).value;
        PS.SelectOnly(slices, id, g);
        assert PS.Newest(slices, id)[0] in PS.Newest(slices, id);
      }
    }
  }
}
