/** Handing allocated GRES indexes to device requests, and looking up their devices (slurmbridge/deviceprofile.go;
    internal/dra/gres.go, Devices). */
module GresAllocation {
  import opened Ordering
  import opened DevicePath
  import opened GresIndex

  /** A device-class request. The GRES name of its profile is absent for a profile that is not indexed. */
  datatype Request = Request(className: string, profile: string, driver: string, count: nat,
                             gres: Option<Result<string, string>>)

  /** GRES that Slurm allocated on the node, with its expanded indexes. */
  datatype Layout = Layout(name: string, profile: string, indexes: Result<seq<int>, string>)

  datatype Allocation = Allocation(request: Request, indexes: seq<int>)

  function IndexedOnly(requests: seq<Request>): seq<Request> {
    if requests == [] then []
    else
      var last := requests[|requests| - 1];
      IndexedOnly(requests[..|requests| - 1]) + if last.gres.Some? then [last] else []
  }

  ghost predicate Usable(indexed: seq<Request>) {
    forall i :: 0 <= i < |indexed| ==> indexed[i].gres.Some? && indexed[i].gres.value.Ok?
  }

  /** Requests for one profile agree on its GRES name. */
  ghost predicate Agree(indexed: seq<Request>) {
    forall i, j :: 0 <= i < |indexed| && 0 <= j < |indexed| && indexed[i].profile == indexed[j].profile ==>
             indexed[i].gres == indexed[j].gres
  }

  ghost predicate Names(indexed: seq<Request>, names: map<string, string>) {
    && (forall i :: 0 <= i < |indexed| ==>
         indexed[i].profile in names && indexed[i].gres == Some(Ok(names[indexed[i].profile])))
    && (forall p :: p in names ==> exists i :: 0 <= i < |indexed| && indexed[i].profile == p)
  }

  method SelectIndexed(requests: seq<Request>) returns (r: Result<(seq<Request>, map<string, string>), string>)
    requires Agree(IndexedOnly(requests))
    ensures r.Ok? <==> Usable(IndexedOnly(requests))
    ensures r.Ok? ==> r.value.0 == IndexedOnly(requests) && Names(r.value.0, r.value.1)
  {
    var indexed: seq<Request>, names: map<string, string> := [], map[];
    for n := 0 to |requests|
      invariant indexed == IndexedOnly(requests[..n]) && indexed <= IndexedOnly(requests) && Names(indexed, names)
    {
      assert requests[..n + 1][..n] == requests[..n];
      SelectedPrefix(requests, n + 1);
      var request := requests[n];
      if request.gres.None? {
        continue;
      }
      ghost var more := indexed + [request];
      assert more <= IndexedOnly(requests) && IndexedOnly(requests)[|indexed|] == request;
      if request.gres.value.Err? {
        return Err(request.gres.value.error);
      }
      NameOne(IndexedOnly(requests), indexed, names, request);
      names := names[request.profile := request.gres.value.value];
      indexed := indexed + [request];
    }
    assert requests[..|requests|] == requests;
    return Ok((indexed, names));
  }

  lemma {:induction false} SelectedPrefix(requests: seq<Request>, n: nat)
    requires n <= |requests|
    ensures IndexedOnly(requests[..n]) <= IndexedOnly(requests)
  {
    if n < |requests| {
      SelectedPrefix(requests[..|requests| - 1], n);
      assert requests[..|requests| - 1][..n] == requests[..n];
    } else {
      assert requests[..n] == requests;
    }
  }

  lemma NameOne(all: seq<Request>, indexed: seq<Request>, names: map<string, string>, request: Request)
    requires Agree(all) && indexed + [request] <= all && Names(indexed, names) && request.gres.Some?
             && request.gres.value.Ok?
    ensures Names(indexed + [request], names[request.profile := request.gres.value.value])
  {
    var more, named := indexed + [request], names[request.profile := request.gres.value.value];
    assert all[|indexed|] == request;
    forall i | 0 <= i < |more| ensures more[i].profile in named && more[i].gres == Some(Ok(named[more[i].profile])) {
      assert all[i] == more[i];
    }
    forall p | p in named ensures exists i :: 0 <= i < |more| && more[i].profile == p {
      if p in names {
        var i :| 0 <= i < |indexed| && indexed[i].profile == p;
        assert more[i] == indexed[i];
      } else {
        assert more[|indexed|].profile == p;
      }
    }
  }

  // --- the indexes of a profile ---

  predicate Matches(names: map<string, string>, l: Layout) {
    l.profile in names && names[l.profile] == l.name
  }

  /** The indexes Slurm allocated to a profile, in the order of the layout. */
  function Pool(names: map<string, string>, layouts: seq<Layout>, profile: string): seq<int> {
    if layouts == [] then []
    else
      var l := layouts[|layouts| - 1];
      Pool(names, layouts[..|layouts| - 1], profile)
      + if Matches(names, l) && l.profile == profile && l.indexes.Ok? then l.indexes.value else []
  }

  ghost predicate Expanded(names: map<string, string>, layouts: seq<Layout>) {
    forall i :: 0 <= i < |layouts| && Matches(names, layouts[i]) ==> layouts[i].indexes.Ok?
  }

  /** Some layout entry is for the profile. */
  predicate Allocated(names: map<string, string>, layouts: seq<Layout>, profile: string) {
    layouts != [] && (Allocated(names, layouts[..|layouts| - 1], profile)
                      || (Matches(names, layouts[|layouts| - 1]) && layouts[|layouts| - 1].profile == profile))
  }

  ghost predicate GatheredFor(names: map<string, string>, layouts: seq<Layout>, pools: map<string, seq<int>>,
                              p: string)
  {
    (p in pools <==> Allocated(names, layouts, p)) && (if p in pools then pools[p] else []) == Pool(names, layouts, p)
  }

  ghost predicate Gathered(names: map<string, string>, layouts: seq<Layout>, pools: map<string, seq<int>>) {
    forall p :: GatheredFor(names, layouts, pools, p)
  }

  function Extended(pools: map<string, seq<int>>, l: Layout): map<string, seq<int>>
    requires l.indexes.Ok?
  {
    pools[l.profile := (if l.profile in pools then pools[l.profile] else []) + l.indexes.value]
  }

  lemma GatherOne(names: map<string, string>, layouts: seq<Layout>, n: nat, pools: map<string, seq<int>>)
    requires n < |layouts| && Gathered(names, layouts[..n], pools)
    ensures !Matches(names, layouts[n]) ==> Gathered(names, layouts[..n + 1], pools)
    ensures Matches(names, layouts[n]) && layouts[n].indexes.Ok? ==>
              Gathered(names, layouts[..n + 1], Extended(pools, layouts[n]))
  {
    var before, after := layouts[..n], layouts[..n + 1];
    assert after[..n] == before;
    if !Matches(names, layouts[n]) {
      forall p ensures GatheredFor(names, after, pools, p) {
        assert GatheredFor(names, before, pools, p);
      }
    } else if layouts[n].indexes.Ok? {
      var more := Extended(pools, layouts[n]);
      forall p ensures GatheredFor(names, after, more, p) {
        assert GatheredFor(names, before, pools, p);
      }
    }
  }

  /** An entry of the layout gives the index to the profile: it names the profile and its GRES. */
  ghost predicate Gives(names: map<string, string>, l: Layout, profile: string, index: int) {
    && l.profile == profile && profile in names && l.name == names[profile]
    && l.indexes.Ok? && index in l.indexes.value
  }

  ghost predicate GivenBy(names: map<string, string>, layouts: seq<Layout>, profile: string, index: int) {
    exists l :: l in layouts && Gives(names, l, profile, index)
  }

  lemma {:induction false} PoolContents(names: map<string, string>, layouts: seq<Layout>, profile: string, index: int)
    ensures index in Pool(names, layouts, profile) <==> GivenBy(names, layouts, profile, index)
  {
    if layouts != [] {
      var before, last := layouts[..|layouts| - 1], layouts[|layouts| - 1];
      assert layouts == before + [last];
      PoolContents(names, before, profile, index);
      if l :| l in before && Gives(names, l, profile, index) {
        assert l in layouts;
      }
      if Gives(names, last, profile, index) {
        assert last in layouts;
      }
    }
  }

  method GatherIndexes(names: map<string, string>, layouts: seq<Layout>)
    returns (r: Result<map<string, seq<int>>, string>)
    ensures r.Ok? <==> Expanded(names, layouts)
    ensures r.Ok? ==> Gathered(names, layouts, r.value)
    ensures r.Ok? ==> forall p, i :: GivenBy(names, layouts, p, i) <==> p in r.value && i in r.value[p]
  {
    var pools: map<string, seq<int>> := map[];
    for n := 0 to |layouts|
      invariant forall i :: 0 <= i < n && Matches(names, layouts[i]) ==> layouts[i].indexes.Ok?
      invariant Gathered(names, layouts[..n], pools)
    {
      GatherOne(names, layouts, n, pools);
      if !Matches(names, layouts[n]) {
        continue;
      }
      if layouts[n].indexes.Err? {
        return Err(layouts[n].indexes.error);
      }
      pools := Extended(pools, layouts[n]);
    }
    assert layouts[..|layouts|] == layouts;
    forall p, i ensures GivenBy(names, layouts, p, i) <==> p in pools && i in pools[p] {
      assert GatheredFor(names, layouts, pools, p);
      PoolContents(names, layouts, p, i);
    }
    return Ok(pools);
  }

  // --- windows ---

  /** How many indexes of a profile the first n requests take. */
  function Taken(indexed: seq<Request>, n: nat, profile: string): nat
    requires n <= |indexed|
  {
    if n == 0 then 0
    else Taken(indexed, n - 1, profile) + if indexed[n - 1].profile == profile then indexed[n - 1].count else 0
  }

  ghost predicate Enough(indexed: seq<Request>, i: nat, pools: map<string, seq<int>>)
    requires i < |indexed|
  {
    var p := indexed[i].profile;
    p in pools && Taken(indexed, i, p) + indexed[i].count <= |pools[p]|
  }

  /** The i-th request gets the next count indexes of its profile. */
  ghost predicate Window(indexed: seq<Request>, i: nat, pools: map<string, seq<int>>, a: Allocation)
    requires i < |indexed|
  {
    && Enough(indexed, i, pools) && a.request == indexed[i]
    && (var p := indexed[i].profile;
        a.indexes == pools[p][Taken(indexed, i, p)..Taken(indexed, i, p) + indexed[i].count])
  }

  method CutWindows(indexed: seq<Request>, pools: map<string, seq<int>>) returns (r: Result<seq<Allocation>, string>)
    ensures r.Ok? <==> forall i :: 0 <= i < |indexed| ==> Enough(indexed, i, pools)
    ensures r.Ok? ==> |r.value| == |indexed| && forall i :: 0 <= i < |indexed| ==> Window(indexed, i, pools, r.value[i])
  {
    var cursors: map<string, nat>, allocations: seq<Allocation> := map[], [];
    for n := 0 to |indexed|
      invariant forall p :: (if p in cursors then cursors[p] else 0) == Taken(indexed, n, p)
      invariant |allocations| == n && forall i :: 0 <= i < n ==> Window(indexed, i, pools, allocations[i])
    {
      var request := indexed[n];
      var p := request.profile;
      if p !in pools {
        assert !Enough(indexed, n, pools);
        return Err("the Slurm allocation has no matching indexed GRES");
      }
      var indexes := pools[p];
      var start := if p in cursors then cursors[p] else 0;
      if request.count > |indexes| - start {
        assert !Enough(indexed, n, pools);
        return Err("not enough allocated Slurm GRES indexes");
      }
      var end := start + request.count;
      allocations := allocations + [Allocation(request, indexes[start..end])];
      assert Window(indexed, n, pools, allocations[n]);
      cursors := cursors[p := end];
    }
    forall i | 0 <= i < |indexed| ensures Enough(indexed, i, pools) {
      assert Window(indexed, i, pools, allocations[i]);
    }
    return Ok(allocations);
  }

  /** What a successful allocation is made of. */
  ghost predicate Cut(indexed: seq<Request>, layouts: seq<Layout>, names: map<string, string>,
                      pools: map<string, seq<int>>, a: seq<Allocation>)
  {
    && Names(indexed, names) && Gathered(names, layouts, pools)
    && |a| == |indexed| && forall i :: 0 <= i < |indexed| ==> Window(indexed, i, pools, a[i])
  }

  /** Every request is indexed and named, every matching layout could be expanded, and no profile runs short. */
  ghost predicate Suffices(indexed: seq<Request>, layouts: seq<Layout>, names: map<string, string>,
                           pools: map<string, seq<int>>)
  {
    && Names(indexed, names) && Expanded(names, layouts) && Gathered(names, layouts, pools)
    && forall i :: 0 <= i < |indexed| ==> Enough(indexed, i, pools)
  }

  lemma NamesUnique(indexed: seq<Request>, a: map<string, string>, b: map<string, string>)
    requires Names(indexed, a) && Names(indexed, b)
    ensures a == b
  {
    forall p ensures p in a <==> p in b {
      if p in a { var i :| 0 <= i < |indexed| && indexed[i].profile == p; }
      if p in b { var i :| 0 <= i < |indexed| && indexed[i].profile == p; }
    }
    forall p | p in a ensures a[p] == b[p] {
      var i :| 0 <= i < |indexed| && indexed[i].profile == p;
    }
  }

  lemma GatheredUnique(names: map<string, string>, layouts: seq<Layout>, a: map<string, seq<int>>,
                       b: map<string, seq<int>>)
    requires Gathered(names, layouts, a) && Gathered(names, layouts, b)
    ensures a == b
  {
    forall p ensures (p in a <==> p in b) && (p in a ==> a[p] == b[p]) {
      assert GatheredFor(names, layouts, a, p) && GatheredFor(names, layouts, b, p);
    }
  }

  /** allocateIndexedGRESProfiles. */
  method AllocateIndexedGRESProfiles(requests: seq<Request>, layouts: seq<Layout>)
    returns (r: Result<seq<Allocation>, string>)
    requires Agree(IndexedOnly(requests))
    ensures r.Ok? <==> exists names, pools :: Suffices(IndexedOnly(requests), layouts, names, pools)
    ensures r.Ok? ==> exists names, pools :: Cut(IndexedOnly(requests), layouts, names, pools, r.value)
  {
    var selected := SelectIndexed(requests);
    if selected.Err? {
      return Err(selected.error);
    }
    var indexed, names := selected.value.0, selected.value.1;
    forall other | Names(indexed, other) ensures other == names {
      NamesUnique(indexed, names, other);
    }
    var gathered := GatherIndexes(names, layouts);
    if gathered.Err? {
      return Err(gathered.error);
    }
    var pools := gathered.value;
    forall other | Gathered(names, layouts, other) ensures other == pools {
      GatheredUnique(names, layouts, pools, other);
    }
    r := CutWindows(indexed, pools);
    if r.Ok? {
      assert Suffices(indexed, layouts, names, pools) && Cut(indexed, layouts, names, pools, r.value);
    }
  }

  lemma {:induction false} TakenGrows(indexed: seq<Request>, m: nat, n: nat, profile: string)
    requires m <= n <= |indexed|
    ensures Taken(indexed, m, profile) <= Taken(indexed, n, profile)
  {
    if m < n {
      TakenGrows(indexed, m, n - 1, profile);
    }
  }

  /** The indexes of a profile that the requests take: the first ones. */
  ghost function Used(indexed: seq<Request>, names: map<string, string>, layouts: seq<Layout>, p: string): seq<int> {
    var pool, taken := Pool(names, layouts, p), Taken(indexed, |indexed|, p);
    if taken <= |pool| then pool[..taken] else pool
  }

  lemma {:induction false} TakenFits(indexed: seq<Request>, n: nat, pools: map<string, seq<int>>, p: string)
    requires n <= |indexed| && forall i :: 0 <= i < n ==> Enough(indexed, i, pools)
    ensures Taken(indexed, n, p) == 0 || (p in pools && Taken(indexed, n, p) <= |pools[p]|)
  {
    if n > 0 {
      TakenFits(indexed, n - 1, pools, p);
      assert Enough(indexed, n - 1, pools);
    }
  }

  lemma UsedAll(indexed: seq<Request>, layouts: seq<Layout>, names: map<string, string>, pools: map<string, seq<int>>,
                a: seq<Allocation>, p: string)
    requires Cut(indexed, layouts, names, pools, a)
    ensures |Used(indexed, names, layouts, p)| == Taken(indexed, |indexed|, p)
  {
    forall i | 0 <= i < |indexed| ensures Enough(indexed, i, pools) {
      assert Window(indexed, i, pools, a[i]);
    }
    TakenFits(indexed, |indexed|, pools, p);
    assert GatheredFor(names, layouts, pools, p);
  }

  /** The k-th index of a request, as one of its profile's indexes. */
  lemma UsedAt(indexed: seq<Request>, layouts: seq<Layout>, names: map<string, string>, pools: map<string, seq<int>>,
               a: seq<Allocation>,
               i: nat, k: nat)
    requires Cut(indexed, layouts, names, pools, a) && i < |a| && k < indexed[i].count
    ensures var p := indexed[i].profile;
            && |a[i].indexes| == indexed[i].count && Taken(indexed, i, p) + k < |Used(indexed, names, layouts, p)|
            && a[i].indexes[k] == Used(indexed, names, layouts, p)[Taken(indexed, i, p) + k]
  {
    var p := indexed[i].profile;
    UsedAll(indexed, layouts, names, pools, a, p);
    assert Window(indexed, i, pools, a[i]) && GatheredFor(names, layouts, pools, p);
    TakenGrows(indexed, i + 1, |indexed|, p);
  }

  /** The request that takes the x-th index of a profile. */
  lemma {:induction false} TakerOf(indexed: seq<Request>, n: nat, p: string, x: nat) returns (i: nat)
    requires n <= |indexed| && x < Taken(indexed, n, p)
    ensures i < n && TakesAt(indexed, p, i, x)
  {
    if x < Taken(indexed, n - 1, p) {
      i := TakerOf(indexed, n - 1, p, x);
    } else {
      i := n - 1;
    }
  }

  /** Each request gets exactly its count of indexes, and if the used indexes are distinct, requests that share a
      profile share no index. */
  lemma WindowsApart(indexed: seq<Request>, layouts: seq<Layout>, names: map<string, string>,
                     pools: map<string, seq<int>>, a: seq<Allocation>,
                     i: nat, j: nat)
    requires Cut(indexed, layouts, names, pools, a) && i < j < |a| && indexed[i].profile == indexed[j].profile
    requires Distinct(Used(indexed, names, layouts, indexed[i].profile))
    ensures |a[i].indexes| == indexed[i].count && |a[j].indexes| == indexed[j].count && Distinct(a[i].indexes)
            && Distinct(a[j].indexes)
    ensures forall x, y :: 0 <= x < |a[i].indexes| && 0 <= y < |a[j].indexes| ==> a[i].indexes[x] != a[j].indexes[y]
  {
    assert Window(indexed, i, pools, a[i]) && Window(indexed, j, pools, a[j]);
    OwnIndexes(indexed, layouts, names, pools, a, i);
    OwnIndexes(indexed, layouts, names, pools, a, j);
    TakenGrows(indexed, i + 1, j, indexed[i].profile);
    forall x, y | 0 <= x < |a[i].indexes| && 0 <= y < |a[j].indexes| ensures a[i].indexes[x] != a[j].indexes[y] {
      UsedAt(indexed, layouts, names, pools, a, i, x);
      UsedAt(indexed, layouts, names, pools, a, j, y);
    }
  }

  lemma OwnIndexes(indexed: seq<Request>, layouts: seq<Layout>, names: map<string, string>,
                   pools: map<string, seq<int>>, a: seq<Allocation>, i: nat)
    requires Cut(indexed, layouts, names, pools, a) && i < |a|
             && Distinct(Used(indexed, names, layouts, indexed[i].profile))
    ensures Distinct(a[i].indexes)
  {
    assert Window(indexed, i, pools, a[i]);
    forall x, y | 0 <= x < y < |a[i].indexes| ensures a[i].indexes[x] != a[i].indexes[y] {
      UsedAt(indexed, layouts, names, pools, a, i, x);
      UsedAt(indexed, layouts, names, pools, a, i, y);
    }
  }

  // --- devices ---

  /** The devices of a profile's indexes. */
  ghost predicate Selected(applied: map<string, Applied>, profile: string, indexes: seq<int>, devices: seq<DeviceID>) {
    && profile in applied && |devices| == |indexes| && Distinct(indexes)
    && forall i :: 0 <= i < |indexes| ==>
         0 <= indexes[i] - applied[profile].firstIndex < |applied[profile].devices|
         && devices[i] == applied[profile].devices[indexes[i] - applied[profile].firstIndex]
  }

  ghost predicate Selectable(applied: map<string, Applied>, profile: string, indexes: seq<int>) {
    && profile in applied && Distinct(indexes)
    && forall i :: 0 <= i < |indexes| ==> 0 <= indexes[i] - applied[profile].firstIndex < |applied[profile].devices|
  }

  /** AppliedInventory.Devices: an index outside the range or repeated within one request is an error. */
  method Devices(applied: map<string, Applied>, profile: string, indexes: seq<int>)
    returns (r: Result<seq<DeviceID>, string>)
    ensures r.Ok? <==> Selectable(applied, profile, indexes)
    ensures r.Ok? ==> Selected(applied, profile, indexes, r.value)
  {
    if profile !in applied {
      return Err("applied inventory does not contain device profile");
    }
    var a := applied[profile];
    var selected: seq<DeviceID>, seen: map<int, bool> := [], map[];
    for i := 0 to |indexes|
      invariant |selected| == i && Selected(applied, profile, indexes[..i], selected)
      invariant forall x :: x in seen <==> exists j :: 0 <= j < i && indexes[j] == x
    {
      var index := indexes[i];
      var local := index - a.firstIndex;
      if local < 0 || local >= |a.devices| {
        return Err("index is outside the inventory range");
      }
      if index in seen {
        return Err("index is repeated");
      }
      seen := seen[index := true];
      selected := selected + [a.devices[local]];
      assert indexes[..i + 1] == indexes[..i] + [index];
    }
    assert indexes[..|indexes|] == indexes;
    return Ok(selected);
  }

  /** Each device of the applied inventory is in one profile, at one index. */
  ghost predicate Inventoried(applied: map<string, Applied>) {
    forall p, q, i, j ::
             p in applied && q in applied && 0 <= i < |applied[p].devices| && 0 <= j < |applied[q].devices| ==>
      (applied[p].devices[i] == applied[q].devices[j] ==> p == q && i == j)
  }

  ghost predicate Given(applied: map<string, Applied>, a: seq<Allocation>, results: seq<seq<DeviceID>>) {
    |results| == |a| && forall i :: 0 <= i < |a| ==> Selected(applied, a[i].request.profile, a[i].indexes, results[i])
  }

  function DeviceAt(profile: Applied, index: int): DeviceID
    requires 0 <= index - profile.firstIndex < |profile.devices|
  {
    profile.devices[index - profile.firstIndex]
  }

  /** The devices of a request can be selected, and all have the driver of its profile. */
  ghost predicate Allottable(applied: map<string, Applied>, a: Allocation) {
    && Selectable(applied, a.request.profile, a.indexes)
    && forall k :: 0 <= k < |a.indexes| ==>
         DeviceAt(applied[a.request.profile], a.indexes[k]).driver == a.request.driver
  }

  /** indexedGRESAllocationResults: the devices of every request. */
  method AllocationResults(applied: map<string, Applied>, a: seq<Allocation>)
    returns (r: Result<seq<seq<DeviceID>>, string>)
    ensures r.Ok? <==> forall i :: 0 <= i < |a| ==> Allottable(applied, a[i])
    ensures r.Ok? ==> Given(applied, a, r.value)
  {
    var results: seq<seq<DeviceID>> := [];
    for n := 0 to |a|
      invariant |results| == n
      invariant forall i :: 0 <= i < n ==> Allottable(applied, a[i])
      invariant forall i :: 0 <= i < n ==> Selected(applied, a[i].request.profile, a[i].indexes, results[i])
    {
      var devices := Devices(applied, a[n].request.profile, a[n].indexes);
      if devices.Err? {
        assert !Allottable(applied, a[n]);
        return Err(devices.error);
      }
      var ours := AllOfDriver(devices.value, a[n].request.driver);
      if !ours {
        ghost var k :| 0 <= k < |devices.value| && devices.value[k].driver != a[n].request.driver;
        assert !Allottable(applied, a[n]);
        return Err("applied profile contains another driver");
      }
      results := results + [devices.value];
    }
    return Ok(results);
  }

  method AllOfDriver(devices: seq<DeviceID>, driver: string) returns (ok: bool)
    ensures ok <==> forall k :: 0 <= k < |devices| ==> devices[k].driver == driver
  {
    for k := 0 to |devices|
      invariant forall j :: 0 <= j < k ==> devices[j].driver == driver
    {
      if devices[k].driver != driver {
        return false;
      }
    }
    return true;
  }

  ghost predicate SharesIndex(a: seq<Allocation>, i: nat, j: nat)
    requires i < |a| && j < |a|
  {
    a[i].request.profile == a[j].request.profile
    && exists x, y :: 0 <= x < |a[i].indexes| && 0 <= y < |a[j].indexes| && a[i].indexes[x] == a[j].indexes[y]
  }

  ghost predicate SharesDevice(results: seq<seq<DeviceID>>, i: nat, j: nat)
    requires i < |results| && j < |results|
  {
    exists x, y :: 0 <= x < |results[i]| && 0 <= y < |results[j]| && results[i][x] == results[j][y]
  }

  /** Two requests get a common device exactly when they share a profile and an index. */
  lemma SharedDeviceExactly(applied: map<string, Applied>, a: seq<Allocation>, results: seq<seq<DeviceID>>, i: nat,
                            j: nat)
    requires Inventoried(applied) && Given(applied, a, results) && i < j < |a|
    ensures SharesDevice(results, i, j) <==> SharesIndex(a, i, j)
  {
    assert Selected(applied, a[i].request.profile, a[i].indexes, results[i])
           && Selected(applied, a[j].request.profile, a[j].indexes, results[j]);
    if SharesDevice(results, i, j) {
      var x, y :| 0 <= x < |results[i]| && 0 <= y < |results[j]| && results[i][x] == results[j][y];
      assert a[i].indexes[x] == a[j].indexes[y];
    }
    if SharesIndex(a, i, j) {
      var x, y :| 0 <= x < |a[i].indexes| && 0 <= y < |a[j].indexes| && a[i].indexes[x] == a[j].indexes[y];
      assert results[i][x] == results[j][y];
    }
  }

  /** Each request gets exactly its count of devices, all different. */
  lemma DevicesCounted(indexed: seq<Request>, layouts: seq<Layout>, names: map<string, string>,
                       pools: map<string, seq<int>>, a: seq<Allocation>,
                       applied: map<string, Applied>, results: seq<seq<DeviceID>>, i: nat)
    requires Cut(indexed, layouts, names, pools, a) && Inventoried(applied) && Given(applied, a, results) && i < |a|
    ensures |results[i]| == indexed[i].count && Distinct(results[i])
  {
    OwnDevices(applied, a, results, i);
    assert Window(indexed, i, pools, a[i]);
  }

  /** No index is used twice, be it within a request or by two. */
  ghost predicate UsedOnce(indexed: seq<Request>, names: map<string, string>, layouts: seq<Layout>) {
    forall p :: Distinct(Used(indexed, names, layouts, p))
  }

  ghost predicate NoIndexShared(a: seq<Allocation>) {
    forall i, j :: 0 <= i < j < |a| ==> !SharesIndex(a, i, j)
  }

  /** The windows are free of repetition, within and across requests, exactly if the used indexes are. */
  lemma IndexesApart(indexed: seq<Request>, layouts: seq<Layout>, names: map<string, string>,
                     pools: map<string, seq<int>>, a: seq<Allocation>)
    requires Cut(indexed, layouts, names, pools, a)
    ensures (NoIndexShared(a) && forall i :: 0 <= i < |a| ==> Distinct(a[i].indexes)) <==>
              UsedOnce(indexed, names, layouts)
  {
    forall i | 0 <= i < |a| ensures a[i].request == indexed[i] {
      assert Window(indexed, i, pools, a[i]);
    }
    if UsedOnce(indexed, names, layouts) {
      forall i | 0 <= i < |a| ensures Distinct(a[i].indexes) {
        OwnIndexes(indexed, layouts, names, pools, a, i);
      }
      forall i, j | 0 <= i < j < |a| ensures !SharesIndex(a, i, j) {
        if indexed[i].profile == indexed[j].profile { WindowsApart(indexed, layouts, names, pools, a, i, j); }
      }
    }
    if NoIndexShared(a) && forall i :: 0 <= i < |a| ==> Distinct(a[i].indexes) {
      forall p ensures Distinct(Used(indexed, names, layouts, p)) {
        forall x, y | 0 <= x < y < |Used(indexed, names, layouts, p)|
          ensures Used(indexed, names, layouts, p)[x] != Used(indexed, names, layouts, p)[y]
        {
          RepetitionShows(indexed, layouts, names, pools, a, p, x, y);
        }
      }
    }
  }

  ghost predicate TakesAt(indexed: seq<Request>, p: string, i: nat, x: nat)
    requires i < |indexed|
  {
    indexed[i].profile == p && Taken(indexed, i, p) <= x < Taken(indexed, i, p) + indexed[i].count
  }

  lemma TakenBy(indexed: seq<Request>, layouts: seq<Layout>, names: map<string, string>, pools: map<string, seq<int>>,
                a: seq<Allocation>,
                p: string, i: nat, x: nat)
    requires Cut(indexed, layouts, names, pools, a) && i < |a| && TakesAt(indexed, p, i, x)
    ensures var k := x - Taken(indexed, i, p);
            && a[i].request.profile == p && k < |a[i].indexes| && x < |Used(indexed, names, layouts, p)|
            && a[i].indexes[k] == Used(indexed, names, layouts, p)[x]
  {
    assert Window(indexed, i, pools, a[i]);
    UsedAt(indexed, layouts, names, pools, a, i, x - Taken(indexed, i, p));
  }

  /** Two used positions of a profile belong to one request or to two, and their indexes differ in either case. */
  lemma RepetitionShows(indexed: seq<Request>, layouts: seq<Layout>, names: map<string, string>,
                        pools: map<string, seq<int>>, a: seq<Allocation>,
                        p: string, x: nat, y: nat)
    requires Cut(indexed, layouts, names, pools, a) && x < y < |Used(indexed, names, layouts, p)|
    requires NoIndexShared(a) && forall i :: 0 <= i < |a| ==> Distinct(a[i].indexes)
    ensures Used(indexed, names, layouts, p)[x] != Used(indexed, names, layouts, p)[y]
  {
    UsedAll(indexed, layouts, names, pools, a, p);
    var i := TakerOf(indexed, |indexed|, p, x);
    var j := TakerOf(indexed, |indexed|, p, y);
    TakenBy(indexed, layouts, names, pools, a, p, i, x);
    TakenBy(indexed, layouts, names, pools, a, p, j, y);
    if i < j {
      assert !SharesIndex(a, i, j);
    } else if i == j {
      assert Distinct(a[i].indexes);
    } else {
      TakenGrows(indexed, j + 1, i, p);
    }
  }

  /** No device goes to two requests, even if they share a profile, if and only if Slurm's indexes, as far as they are
      used, do not repeat. */
  lemma DevicesApart(indexed: seq<Request>, layouts: seq<Layout>, names: map<string, string>,
                     pools: map<string, seq<int>>, a: seq<Allocation>,
                     applied: map<string, Applied>, results: seq<seq<DeviceID>>)
    requires Cut(indexed, layouts, names, pools, a) && Inventoried(applied) && Given(applied, a, results)
    ensures (forall i, j :: 0 <= i < j < |a| ==> !SharesDevice(results, i, j)) <==> UsedOnce(indexed, names, layouts)
  {
    IndexesApart(indexed, layouts, names, pools, a);
    forall i | 0 <= i < |a| ensures Distinct(a[i].indexes) {
      assert Selected(applied, a[i].request.profile, a[i].indexes, results[i]);
    }
    forall i, j | 0 <= i < j < |a| ensures SharesDevice(results, i, j) <==> SharesIndex(a, i, j) {
      SharedDeviceExactly(applied, a, results, i, j);
    }
  }

  lemma OwnDevices(applied: map<string, Applied>, a: seq<Allocation>, results: seq<seq<DeviceID>>, i: nat)
    requires Inventoried(applied) && Given(applied, a, results) && i < |a|
    ensures |results[i]| == |a[i].indexes| && Distinct(results[i])
  {
    assert Selected(applied, a[i].request.profile, a[i].indexes, results[i]);
    forall x, y | 0 <= x < y < |results[i]| ensures results[i][x] != results[i][y] {
      assert a[i].indexes[x] != a[i].indexes[y];
    }
  }

  const TWO_REQUESTS :=
    [Request("class", "profile", "driver", 1, Some(Ok("gres"))),
     Request("other", "profile", "driver", 1, Some(Ok("gres")))]

  const TWO_LAYOUTS := [Layout("gres", "profile", Ok([0])), Layout("gres", "profile", Ok([0]))]

  lemma TwoIndexed()
    ensures IndexedOnly(TWO_REQUESTS) == TWO_REQUESTS && Agree(TWO_REQUESTS)
            && Names(TWO_REQUESTS, map["profile" := "gres"])
  {
    var one := TWO_REQUESTS[..1];
    assert one[..0] == [] && one[0] == TWO_REQUESTS[0] && IndexedOnly(one) == [TWO_REQUESTS[0]];
    assert TWO_REQUESTS[0].profile == "profile";
  }

  lemma TwoGathered()
    ensures Gathered(map["profile" := "gres"], TWO_LAYOUTS, map["profile" := [0, 0]])
  {
    var names, one := map["profile" := "gres"], TWO_LAYOUTS[..1];
    forall p ensures GatheredFor(names, TWO_LAYOUTS, map["profile" := [0, 0]], p) {
      assert one[..0] == [] && one[0] == TWO_LAYOUTS[0];
      assert Allocated(names, one, p) <==> p == "profile";
      assert Pool(names, one, p) == if p == "profile" then [0] else [];
      assert Pool(names, TWO_LAYOUTS, p) == if p == "profile" then [0, 0] else [];
    }
  }

  lemma TwoWindows(a: seq<Allocation>)
    requires a == [Allocation(TWO_REQUESTS[0], [0]), Allocation(TWO_REQUESTS[1], [0])]
    ensures forall i :: 0 <= i < 2 ==> Window(TWO_REQUESTS, i, map["profile" := [0, 0]], a[i])
  {
    assert Taken(TWO_REQUESTS, 0, "profile") == 0 && Taken(TWO_REQUESTS, 1, "profile") == 1;
    assert [0, 0][0..1] == [0] && [0, 0][1..2] == [0];
  }

  lemma CutSuffices(indexed: seq<Request>, layouts: seq<Layout>, names: map<string, string>,
                    pools: map<string, seq<int>>, a: seq<Allocation>)
    requires Names(indexed, names) && Expanded(names, layouts) && Gathered(names, layouts, pools) && |a| == |indexed|
    requires forall i :: 0 <= i < |indexed| ==> Window(indexed, i, pools, a[i])
    ensures Suffices(indexed, layouts, names, pools) && Cut(indexed, layouts, names, pools, a)
  {
    forall i | 0 <= i < |indexed| ensures Enough(indexed, i, pools) {
      assert Window(indexed, i, pools, a[i]);
    }
  }

  lemma OneGiven(applied: map<string, Applied>, d: DeviceID, i: Allocation, j: Allocation)
    requires applied == map["profile" := Applied(0, [d])]
    requires i.request.profile == "profile" && j.request.profile == "profile" && i.indexes == [0] && j.indexes == [0]
    requires i.request.driver == d.driver && j.request.driver == d.driver
    ensures Inventoried(applied) && Allottable(applied, i) && Allottable(applied, j)
    ensures Given(applied, [i, j], [[d], [d]]) && SharesDevice([[d], [d]], 0, 1)
  {
    assert [[d], [d]][0][0] == [[d], [d]][1][0];
  }

  /** If Slurm reports an index twice, two requests of one profile get the same device: only a repetition within one
      request is noticed. */
  lemma RepeatedIndex(d: DeviceID)
    returns (names: map<string, string>, pools: map<string, seq<int>>, a: seq<Allocation>, applied: map<string,
             Applied>)
    requires d.driver == "driver"
    ensures Agree(IndexedOnly(TWO_REQUESTS)) && Suffices(IndexedOnly(TWO_REQUESTS), TWO_LAYOUTS, names, pools)
    ensures Cut(IndexedOnly(TWO_REQUESTS), TWO_LAYOUTS, names, pools, a) && Inventoried(applied)
    ensures (forall i :: 0 <= i < |a| ==> Allottable(applied, a[i])) && Given(applied, a, [[d], [d]])
            && SharesDevice([[d], [d]], 0, 1)
  {
    names, pools := map["profile" := "gres"], map["profile" := [0, 0]];
    a := [Allocation(TWO_REQUESTS[0], [0]), Allocation(TWO_REQUESTS[1], [0])];
    applied := map["profile" := Applied(0, [d])];
    TwoIndexed();
    TwoGathered();
    TwoWindows(a);
    CutSuffices(TWO_REQUESTS, TWO_LAYOUTS, names, pools, a);
    OneGiven(applied, d, a[0], a[1]);
  }
}
