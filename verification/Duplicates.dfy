/** Recovery from duplicate allocations (internal/controller/registration/duplicates.go). */
module Duplicates {
  import opened Ordering
  import opened SlurmJob

  /** The key an allocation is grouped under: a group's identity, or "pod/" and a Pod identity. */
  datatype Key = GroupKey(group: Group) | PodKey(pod: PodRecord)

  type Grouping = map<Key, map<int, seq<RawJob>>>

  predicate Active(raw: RawJob): (active: bool)
    ensures active <==> raw.comment.Some? && FromJobInfo(raw).Ok? && !FromJobInfo(raw).value.finished
  {
    RegisteredJobFromInfo(raw).Ok? && !RegisteredJobFromInfo(raw).value.job.finished
  }

  function Alloc(raw: RawJob): (id: int)
    ensures Active(raw) ==> id > 0
  {
    match FromJobInfo(raw)
    case Ok(job) => job.AllocationID()
    case Err(_) => 0
  }

  ghost predicate Legacy(raw: RawJob) {
    raw.comment.Some? && raw.comment.value.composite.None? && raw.comment.value.podGroup.None?
  }

  ghost predicate NamedBy(pods: seq<PodRecord>, rec: PodRecord) {
    exists q :: q in pods && (rec == q || rec == PodRecord(q.ref, ""))
  }

  /** A modern PodGroup record claims its Pods, with and without their UIDs. */
  ghost predicate Claims(modern: RawJob, rec: PodRecord) {
    && Active(modern) && modern.comment.value.composite.None? && modern.comment.value.podGroup.Some?
    && NamedBy(modern.comment.value.pods, rec)
  }

  ghost predicate Meets(modern: RawJob, legacy: RawJob) {
    legacy.comment.Some? && exists rec :: rec in legacy.comment.value.pods && Claims(modern, rec)
  }

  /** The modern groups whose Pods a legacy record names. */
  ghost function Matches(jobs: set<RawJob>, legacy: RawJob): set<Group> {
    set m | m in jobs && Meets(m, legacy) && m.comment.Some?
    && m.comment.value.podGroup.Some? :: m.comment.value.podGroup.value
  }

  /** Where a record belongs. Ambiguous legacy ownership never names a group. */
  ghost predicate Under(jobs: set<RawJob>, raw: RawJob, key: Key) {
    && raw.comment.Some?
    && var info := raw.comment.value;
       if info.composite.Some? then key == GroupKey(info.composite.value)
       else if info.podGroup.Some? then key == GroupKey(info.podGroup.value)
       else if |Matches(jobs, raw)| == 1 then key.GroupKey? && key.group in Matches(jobs, raw)
       else key.PodKey? && key.pod in info.pods
  }

  ghost predicate Listed(groups: Grouping, key: Key, id: int, raw: RawJob) {
    key in groups && id in groups[key] && raw in groups[key][id]
  }

  ghost predicate GroupedAs(groups: Grouping, jobs: seq<RawJob>) {
    && (forall key, id, raw :: Listed(groups, key, id, raw) <==>
          raw in jobs && Active(raw) && Alloc(raw) == id && Under(Elements(jobs), raw, key))
    && (forall key, id :: key in groups && id in groups[key] ==> groups[key][id] != [])
  }

  function Add(groups: Grouping, key: Key, id: int, raw: RawJob): (r: Grouping)
    ensures forall k, i, x :: Listed(r, k, i, x) <==> Listed(groups, k, i, x) || (k == key && i == id && x == raw)
    ensures (forall k, i :: k in groups && i in groups[k] ==> groups[k][i] != []) ==>
              forall k, i :: k in r && i in r[k] ==> r[k][i] != []
  {
    var byId := if key in groups then groups[key] else map[];
    var listed := if id in byId then byId[id] else [];
    groups[key := byId[id := listed + [raw]]]
  }

  function AddAll(groups: Grouping, keys: seq<Key>, id: int, raw: RawJob): (r: Grouping)
    ensures forall k, i, x :: Listed(r, k, i, x) <==> Listed(groups, k, i, x) || (k in keys && i == id && x == raw)
    ensures (forall k, i :: k in groups && i in groups[k] ==> groups[k][i] != []) ==>
              forall k, i :: k in r && i in r[k] ==> r[k][i] != []
    decreases |keys|
  {
    if keys == [] then groups else AddAll(Add(groups, keys[0], id, raw), keys[1..], id, raw)
  }

  function PodKeys(pods: seq<PodRecord>): (keys: seq<Key>)
    ensures forall k :: k in keys <==> k.PodKey? && k.pod in pods
  {
    if pods == [] then [] else [PodKey(pods[0])] + PodKeys(pods[1..])
  }

  predicate Owns(owners: map<PodRecord, set<Group>>, rec: PodRecord, g: Group) {
    rec in owners && g in owners[rec]
  }

  function AddOwner(owners: map<PodRecord, set<Group>>, rec: PodRecord, group: Group): (r: map<PodRecord, set<Group>>)
    ensures forall k, g :: Owns(r, k, g) <==> Owns(owners, k, g) || (k == rec && g == group)
  {
    owners[rec := (if rec in owners then owners[rec] else {}) + {group}]
  }

  /** owners[rec] + group, for every identity of every Pod. */
  function AddOwners(owners: map<PodRecord, set<Group>>, pods: seq<PodRecord>,
                     group: Group): (r: map<PodRecord, set<Group>>)
    ensures forall k, g :: Owns(r, k, g) <==> Owns(owners, k, g) || (g == group && NamedBy(pods, k))
    decreases |pods|
  {
    if pods == [] then owners
    else
      var q := pods[0];
      assert pods == [q] + pods[1..];
      AddOwners(AddOwner(AddOwner(owners, q, group), PodRecord(q.ref, ""), group), pods[1..], group)
  }

  function OwnersOf(owners: map<PodRecord, set<Group>>, pods: seq<PodRecord>): (r: set<Group>)
    ensures forall g :: g in r <==> exists q :: q in pods && Owns(owners, q, g)
  {
    set q, g | q in pods && q in owners && g in owners[q] :: g
  }

  ghost predicate OwnersUpTo(owners: map<PodRecord, set<Group>>, jobs: seq<RawJob>) {
    forall rec, g :: Owns(owners, rec, g) <==> ClaimedFor(jobs, rec, g)
  }

  ghost predicate ClaimedFor(jobs: seq<RawJob>, rec: PodRecord, g: Group) {
    exists m :: m in jobs && Claims(m, rec) && m.comment.value.podGroup == Some(g)
  }

  /** The first loop of groupAllocations: modern records, the Pods they claim, and the legacy records. */
  method GroupModern(jobs: seq<RawJob>)
    returns (groups: Grouping, owners: map<PodRecord, set<Group>>, legacy: seq<RawJob>)
    ensures forall x :: x in legacy <==> x in jobs && Active(x) && Legacy(x)
    ensures forall k, i, x :: Listed(groups, k, i, x) <==>
              x in jobs && Active(x) && !Legacy(x) && Alloc(x) == i && Under(Elements(jobs), x, k)
    ensures forall k, i :: k in groups && i in groups[k] ==> groups[k][i] != []
    ensures OwnersUpTo(owners, jobs)
  {
    groups, owners, legacy := map[], map[], [];
    for n := 0 to |jobs|
      invariant forall x :: x in legacy <==> x in jobs[..n] && Active(x) && Legacy(x)
      invariant forall k, i, x :: Listed(groups, k, i, x) <==>
                  x in jobs[..n] && Active(x) && !Legacy(x) && Alloc(x) == i && Under(Elements(jobs), x, k)
      invariant forall k, i :: k in groups && i in groups[k] ==> groups[k][i] != []
      invariant OwnersUpTo(owners, jobs[..n])
    {
      var raw := jobs[n];
      assert jobs[..n + 1] == jobs[..n] + [raw];
      ClaimedMore(jobs[..n], raw);
      if Active(raw) {
        var info := raw.comment.value;
        if info.composite.Some? {
          groups := Add(groups, GroupKey(info.composite.value), Alloc(raw), raw);
        } else if info.podGroup.Some? {
          groups := Add(groups, GroupKey(info.podGroup.value), Alloc(raw), raw);
          owners := AddOwners(owners, info.pods, info.podGroup.value);
        } else {
          legacy := legacy + [raw];
        }
      }
    }
    assert jobs[..|jobs|] == jobs;
  }

  lemma ClaimedMore(jobs: seq<RawJob>, raw: RawJob)
    ensures forall rec, g :: ClaimedFor(jobs + [raw], rec, g) <==>
              ClaimedFor(jobs, rec, g) || (Claims(raw, rec) && raw.comment.value.podGroup == Some(g))
  {
    assert forall m :: m in jobs + [raw] <==> m in jobs || m == raw;
  }

  lemma OwnersAreMatches(owners: map<PodRecord, set<Group>>, jobs: seq<RawJob>, raw: RawJob)
    requires OwnersUpTo(owners, jobs) && raw.comment.Some?
    ensures OwnersOf(owners, raw.comment.value.pods) == Matches(Elements(jobs), raw)
  {
    var matches, pods := OwnersOf(owners, raw.comment.value.pods), raw.comment.value.pods;
    forall g ensures g in matches <==> g in Matches(Elements(jobs), raw) {
      if g in matches {
        var q :| q in pods && Owns(owners, q, g);
        assert ClaimedFor(jobs, q, g);
        var m :| m in jobs && Claims(m, q) && m.comment.value.podGroup == Some(g);
        assert Meets(m, raw);
      }
      if g in Matches(Elements(jobs), raw) {
        var m :| m in jobs && Meets(m, raw) && m.comment.Some? && m.comment.value.podGroup == Some(g);
        var q :| q in pods && Claims(m, q);
        assert ClaimedFor(jobs, q, g);
        assert Owns(owners, q, g);
      }
    }
  }

  /** groupAllocations. */
  method GroupAllocations(jobs: seq<RawJob>) returns (groups: Grouping)
    ensures GroupedAs(groups, jobs)
  {
    var owners, legacy;
    groups, owners, legacy := GroupModern(jobs);
    for n := 0 to |legacy|
      invariant forall k, i, x :: Listed(groups, k, i, x) <==>
                  && x in jobs && Active(x) && (Legacy(x) ==> x in legacy[..n]) && Alloc(x) == i
                     && Under(Elements(jobs), x, k)
      invariant forall k, i :: k in groups && i in groups[k] ==> groups[k][i] != []
    {
      var raw := legacy[n];
      assert raw in legacy && legacy[..n + 1] == legacy[..n] + [raw];
      var matches := OwnersOf(owners, raw.comment.value.pods);
      OwnersAreMatches(owners, jobs, raw);
      if |matches| == 1 {
        var g :| g in matches;
        assert matches == {g} by { SingletonOf(matches, g); }
        groups := Add(groups, GroupKey(g), Alloc(raw), raw);
      } else {
        groups := AddAll(groups, PodKeys(raw.comment.value.pods), Alloc(raw), raw);
      }
    }
    assert legacy[..|legacy|] == legacy;
  }

  lemma SingletonOf<T>(s: set<T>, x: T)
    requires |s| == 1 && x in s
    ensures s == {x}
  {
    assert |s - {x}| == 0;
  }

  /** A record sits under at most one group, and not at all when its Pods belong to several. */
  lemma LegacyNeverMerges(jobs: set<RawJob>, raw: RawJob, a: Group, b: Group)
    ensures Under(jobs, raw, GroupKey(a)) && Under(jobs, raw, GroupKey(b)) ==> a == b
    ensures Legacy(raw) && a in Matches(jobs, raw) && b in Matches(jobs, raw) && a != b ==>
              forall key :: Under(jobs, raw, key) ==> key.PodKey?
  {
    if |Matches(jobs, raw)| == 1 && a in Matches(jobs, raw) {
      SingletonOf(Matches(jobs, raw), a);
    }
  }

  /** An unfinished PodGroup record outside a composite names a Pod of the other record, with or without its UID. */
  ghost predicate SharesPod(modern: RawJob, legacy: RawJob, group: Group) {
    && modern.comment.Some? && modern.comment.value.composite.None? && modern.comment.value.podGroup == Some(group)
    && FromJobInfo(modern).Ok? && !FromJobInfo(modern).value.finished && legacy.comment.Some?
    && exists p, q :: p in legacy.comment.value.pods && q in modern.comment.value.pods &&
         p.ref == q.ref && (p.uid == q.uid || p.uid == "")
  }

  lemma MatchesMean(jobs: set<RawJob>, legacy: RawJob, group: Group)
    ensures group in Matches(jobs, legacy) <==> exists m :: m in jobs && SharesPod(m, legacy, group)
  {
    forall m ensures SharesPod(m, legacy, group) <==>
                       Meets(m, legacy) && m.comment.Some? && m.comment.value.podGroup == Some(group)
    {
      if SharesPod(m, legacy, group) {
        var p, q :| p in legacy.comment.value.pods && q in m.comment.value.pods &&
          p.ref == q.ref && (p.uid == q.uid || p.uid == "");
        assert NamedBy(m.comment.value.pods, p) && Claims(m, p);
      }
      if Meets(m, legacy) && m.comment.value.podGroup == Some(group) {
        var p :| p in legacy.comment.value.pods && Claims(m, p);
        var q :| q in m.comment.value.pods && (p == q || p == PodRecord(q.ref, ""));
      }
    }
  }

  /** A record from before groups were recorded belongs to the one group that unfinished records tie to its Pods; if
      they tie it to none, or to several, it stands for its own Pods. */
  lemma LegacyJoins(jobs: set<RawJob>, legacy: RawJob, group: Group)
    requires legacy.comment.Some? && legacy.comment.value.composite.None? && legacy.comment.value.podGroup.None?
    requires forall m, g :: m in jobs && SharesPod(m, legacy, g) ==> g == group
    ensures (exists m :: m in jobs && SharesPod(m, legacy, group)) ==>
              forall key :: Under(jobs, legacy, key) <==> key == GroupKey(group)
    ensures (forall m :: m in jobs ==> !SharesPod(m, legacy, group)) ==>
              forall key :: Under(jobs, legacy, key) <==> key.PodKey? && key.pod in legacy.comment.value.pods
  {
    forall g ensures g in Matches(jobs, legacy) <==> exists m :: m in jobs && SharesPod(m, legacy, g) {
      MatchesMean(jobs, legacy, g);
    }
    if exists m :: m in jobs && SharesPod(m, legacy, group) {
      assert Matches(jobs, legacy) == {group};
    } else {
      assert Matches(jobs, legacy) == {};
    }
  }

  // ---------------------------------------------------------------- the survivor

  /** The job runs or did run: its record shows it running, suspended or completing. */
  ghost predicate ShowsStart(raw: RawJob) {
    RUNNING in raw.states || SUSPENDED in raw.states || COMPLETING in raw.states
  }

  /** The job is pending and no longer held: its priority is not the number zero. */
  ghost predicate ShowsRelease(raw: RawJob) {
    PENDING in raw.states && !Carries(raw.priority, 0)
  }

  predicate Begun(raw: RawJob) {
    raw.states * {RUNNING, SUSPENDED, COMPLETING} != {}
  }

  predicate Freed(raw: RawJob) {
    FromJobInfo(raw).Ok? && FromJobInfo(raw).value.pending && !FromJobInfo(raw).value.held
  }

  ghost function Allocs(pool: set<RawJob>): set<int> {
    set r | r in pool :: Alloc(r)
  }

  /** Allocations with a started component. */
  ghost function StartedAllocs(pool: set<RawJob>): set<int> {
    set r | r in pool && Begun(r) :: Alloc(r)
  }

  /** Allocations with a released, pending component. */
  ghost function FreedAllocs(pool: set<RawJob>): set<int> {
    set r | r in pool && Freed(r) :: Alloc(r)
  }

  ghost predicate Least(best: int, ids: set<int>) {
    best in ids && forall id :: id in ids ==> best <= id
  }

  /** The least ID among started allocations, else among those whose release began, else overall. */
  ghost predicate IsSurvivor(pool: set<RawJob>, keep: int) {
    if StartedAllocs(pool) != {} then Least(keep, StartedAllocs(pool))
    else if FreedAllocs(pool) != {} then Least(keep, FreedAllocs(pool))
    else Least(keep, Allocs(pool))
  }

  lemma SurvivorUnique(pool: set<RawJob>, a: int, b: int)
    requires IsSurvivor(pool, a) && IsSurvivor(pool, b)
    ensures a == b && a in Allocs(pool)
  {
  }

  /** `active` lists the records of `pool` by allocation. */
  ghost predicate Lists(active: map<int, seq<RawJob>>, pool: set<RawJob>) {
    && (forall id, r :: id in active && r in active[id] ==> r in pool && Alloc(r) == id)
    && (forall r :: r in pool ==> Alloc(r) in active && r in active[Alloc(r)])
    && (forall id :: id in active ==> id > 0 && active[id] != [])
  }

  function Lower(best: int, id: int): int {
    if best == 0 || id < best then id else best
  }

  /** A running minimum over the chosen IDs visited so far; 0 means none yet. */
  ghost predicate LeastChosen(best: int, seen: set<int>, chosen: int -> bool) {
    if best == 0 then forall id :: id in seen ==> !chosen(id)
    else best in seen && chosen(best) && forall id :: id in seen && chosen(id) ==> best <= id
  }

  ghost predicate AnyBegun(records: seq<RawJob>) {
    exists r :: r in records && Begun(r)
  }

  ghost predicate AnyFreed(records: seq<RawJob>) {
    exists r :: r in records && Freed(r)
  }

  method ScanComponents(records: seq<RawJob>) returns (started: bool, freed: bool, ok: bool)
    ensures ok ==> started == AnyBegun(records) && freed == AnyFreed(records)
    ensures !ok <==> exists r :: r in records && FromJobInfo(r).Err?
  {
    started, freed := false, false;
    for n := 0 to |records|
      invariant started == AnyBegun(records[..n]) && freed == AnyFreed(records[..n])
      invariant forall r :: r in records[..n] ==> FromJobInfo(r).Ok?
    {
      var job := records[n];
      assert records[..n + 1] == records[..n] + [job];
      if FromJobInfo(job).Err? {
        return started, freed, false;
      }
      started, freed := started || Begun(job), freed || Freed(job);
    }
    assert records[..|records|] == records;
    ok := true;
  }

  /** The loop of survivingAllocation, whatever the map iteration order. */
  method ProgressMinima(active: map<int, seq<RawJob>>) returns (keep: int, released: int, lowest: int, ok: bool)
    requires forall id :: id in active ==> id > 0
    ensures ok ==> && LeastChosen(keep, active.Keys, id => id in active && AnyBegun(active[id]))
                   && LeastChosen(released, active.Keys, id => id in active && AnyFreed(active[id]))
                   && LeastChosen(lowest, active.Keys, id => true)
    ensures !ok <==> exists id, r :: id in active && r in active[id] && FromJobInfo(r).Err?
  {
    ghost var begun := (id: int) => id in active && AnyBegun(active[id]);
    ghost var free := (id: int) => id in active && AnyFreed(active[id]);
    keep, released, lowest := 0, 0, 0;
    var rest := active.Keys;
    ghost var seen: set<int> := {};
    while rest != {}
      invariant seen !! rest && seen + rest == active.Keys
      invariant LeastChosen(keep, seen, begun) && LeastChosen(released, seen, free)
                && LeastChosen(lowest, seen, id => true)
      invariant forall id, r :: id in seen && r in active[id] ==> FromJobInfo(r).Ok?
    {
      var id := Pick(rest);
      var started, freed;
      started, freed, ok := ScanComponents(active[id]);
      if !ok {
        return;
      }
      rest, seen := rest - {id}, seen + {id};
      lowest := Lower(lowest, id);
      if started {
        keep := Lower(keep, id);
      }
      if freed {
        released := Lower(released, id);
      }
    }
    ok := true;
    assert seen == active.Keys;
  }

  /** An allocation of the pool has a record that shows the sign, and no lower one has. */
  ghost predicate LowestWith(pool: set<RawJob>, sign: RawJob -> bool, keep: int) {
    && (exists x :: x in pool && sign(x) && Alloc(x) == keep)
    && (forall x :: x in pool && sign(x) ==> keep <= Alloc(x))
  }

  /** survivingAllocation: the lowest allocation that has started; if none has, the lowest whose release has begun; and
      if there is no such allocation either, the lowest of all. */
  method SurvivingAllocation(active: map<int, seq<RawJob>>, ghost pool: set<RawJob>) returns (r: Result<int, string>)
    requires Lists(active, pool) && pool != {}
    ensures r.Ok? ==> IsSurvivor(pool, r.value)
    ensures r.Err? <==> exists raw :: raw in pool && FromJobInfo(raw).Err?
    ensures r.Ok? && (exists x :: x in pool && ShowsStart(x)) ==> LowestWith(pool, x => ShowsStart(x), r.value)
    ensures r.Ok? && (forall x :: x in pool ==> !ShowsStart(x)) && (exists x :: x in pool && ShowsRelease(x)) ==>
              LowestWith(pool, x => ShowsRelease(x), r.value)
    ensures r.Ok? && (forall x :: x in pool ==> !ShowsStart(x) && !ShowsRelease(x)) ==>
              LowestWith(pool, x => true, r.value)
  {
    var keep, released, lowest, ok := ProgressMinima(active);
    if !ok {
      return Err("malformed job");
    }
    AllocsListed(active, pool);
    if keep == 0 {
      keep := released;
    }
    if keep == 0 {
      keep := lowest;
    }
    SurvivorSigns(pool, keep);
    return Ok(keep);
  }

  /** What the survivor is in terms of job states. */
  lemma SurvivorSigns(pool: set<RawJob>, keep: int)
    requires IsSurvivor(pool, keep) && forall x :: x in pool ==> FromJobInfo(x).Ok?
    ensures (exists x :: x in pool && ShowsStart(x)) ==> LowestWith(pool, x => ShowsStart(x), keep)
    ensures (forall x :: x in pool ==> !ShowsStart(x)) && (exists x :: x in pool && ShowsRelease(x)) ==>
              LowestWith(pool, x => ShowsRelease(x), keep)
    ensures (forall x :: x in pool ==> !ShowsStart(x) && !ShowsRelease(x)) ==> LowestWith(pool, x => true, keep)
  {
    SignsMean(pool);
    assert forall x :: x in pool && Begun(x) ==> Alloc(x) in StartedAllocs(pool);
    assert forall x :: x in pool && Freed(x) ==> Alloc(x) in FreedAllocs(pool);
    assert forall x :: x in pool ==> Alloc(x) in Allocs(pool);
  }

  lemma SignsMean(pool: set<RawJob>)
    requires forall x :: x in pool ==> FromJobInfo(x).Ok?
    ensures forall x :: x in pool ==> (Begun(x) <==> ShowsStart(x)) && (Freed(x) <==> ShowsRelease(x))
  {
    forall x | x in pool ensures Begun(x) <==> ShowsStart(x) {
      if ShowsStart(x) {
        var state := if RUNNING in x.states then RUNNING else if SUSPENDED in x.states then SUSPENDED else COMPLETING;
        assert state in x.states * {RUNNING, SUSPENDED, COMPLETING};
      }
    }
  }

  lemma AllocsListed(active: map<int, seq<RawJob>>, pool: set<RawJob>)
    requires Lists(active, pool)
    ensures Allocs(pool) == active.Keys
    ensures StartedAllocs(pool) == set id | id in active && AnyBegun(active[id])
    ensures FreedAllocs(pool) == set id | id in active && AnyFreed(active[id])
  {
    forall id | id in active ensures id in Allocs(pool) {
      assert active[id][0] in pool;
    }
  }

  // ---------------------------------------------------------------- canceling all but the survivor

  datatype CancelAnswer = Acknowledged | FailedWithoutEffect | FailedAfterEffect

  /** The live records behind a set of listed ones. */
  ghost function LiveOf(slurm: map<int, RawJob>, listed: set<RawJob>): set<RawJob> {
    set x | x in listed && x.jobId in slurm :: slurm[x.jobId]
  }

  /** The records of `jobs` that are active under `key`. */
  ghost function ActiveUnder(jobs: set<RawJob>, key: Key): set<RawJob> {
    set x | x in jobs && Active(x) && Under(jobs, x, key)
  }

  function CancelAll(slurm: map<int, RawJob>, id: int): map<int, RawJob> {
    map j | j in slurm :: if Alloc(slurm[j]) == id then slurm[j].(states := {CANCELLED}) else slurm[j]
  }

  ghost predicate Ended(slurm: map<int, RawJob>, ids: set<int>) {
    forall j :: j in slurm && Alloc(slurm[j]) in ids ==> !Active(slurm[j])
  }

  /** Slurm's table moved only by cancels of `ids`. */
  ghost predicate OnlyEnded(before: map<int, RawJob>, after: map<int, RawJob>, ids: set<int>) {
    && after.Keys == before.Keys
    && (forall j :: j in before ==> Alloc(after[j]) == Alloc(before[j]) && (Active(after[j]) ==> after[j] == before[j]))
    && (forall j :: j in before && Alloc(before[j]) !in ids ==> after[j] == before[j])
  }

  lemma CanceledRecord(raw: RawJob)
    ensures Alloc(raw.(states := {CANCELLED})) == Alloc(raw) && !Active(raw.(states := {CANCELLED}))
  {
    var states := {CANCELLED};
    assert CANCELLED in states && Terminal(CANCELLED);
    assert FinishedStates(states);
  }

  lemma CancelEnds(slurm: map<int, RawJob>, id: int)
    ensures OnlyEnded(slurm, CancelAll(slurm, id), {id}) && Ended(CancelAll(slurm, id), {id})
  {
    forall j | j in slurm { CanceledRecord(slurm[j]); }
  }

  lemma EndedStays(before: map<int, RawJob>, after: map<int, RawJob>, ids: set<int>, more: set<int>)
    requires OnlyEnded(before, after, more) && Ended(before, ids)
    ensures Ended(after, ids)
  {
    forall j | j in after && Alloc(after[j]) in ids ensures !Active(after[j]) {
      assert j in before;
    }
  }

  lemma EndedMore(a: map<int, RawJob>, b: map<int, RawJob>, c: map<int, RawJob>, ids: set<int>, id: int)
    requires OnlyEnded(a, b, ids) && OnlyEnded(b, c, {id})
    ensures OnlyEnded(a, c, ids + {id})
    ensures Ended(b, ids) && Ended(c, {id}) ==> Ended(c, ids + {id})
  {
    if Ended(b, ids) { EndedStays(b, c, ids, {id}); }
  }

  /** A cleaned conflict: nothing changes without a conflict; otherwise the survivor keeps all its records and, if no
      cancel failed, every other allocation has ended. */
  ghost predicate ConflictCleaned(before: map<int, RawJob>, after: map<int, RawJob>, pool: set<RawJob>, ok: bool) {
    if |Allocs(pool)| < 2 then after == before
    else
      || (after == before && !ok)
      || exists keep :: CleanedTo(before, after, pool, keep, ok)
  }

  ghost predicate CleanedTo(before: map<int, RawJob>, after: map<int, RawJob>, pool: set<RawJob>, keep: int, ok: bool) {
    && IsSurvivor(pool, keep) && OnlyEnded(before, after, Allocs(pool) - {keep})
    && (ok ==> Ended(after, Allocs(pool) - {keep}))
  }

  lemma GroupLists(groups: Grouping, jobs: seq<RawJob>, key: Key)
    requires GroupedAs(groups, jobs)
    ensures Lists(if key in groups then groups[key] else map[], ActiveUnder(Elements(jobs), key))
  {
    var active := if key in groups then groups[key] else map[];
    var pool := ActiveUnder(Elements(jobs), key);
    forall id, r | id in active && r in active[id] ensures r in pool && Alloc(r) == id {
      assert Listed(groups, key, id, r);
    }
    forall r | r in pool ensures Alloc(r) in active && r in active[Alloc(r)] {
      assert Listed(groups, key, Alloc(r), r);
    }
    forall id | id in active ensures id > 0 && active[id] != [] {
      assert Listed(groups, key, id, active[id][0]);
    }
  }

  class Cleaner {
    var slurm: map<int, RawJob>
    var cancels: nat
    const answer: nat -> CancelAnswer
    const readable: int -> bool

    constructor (slurm: map<int, RawJob>, answer: nat -> CancelAnswer, readable: int -> bool)
      ensures this.slurm == slurm && this.answer == answer && this.readable == readable
    {
      this.slurm, this.answer, this.readable, cancels := slurm, answer, readable, 0;
    }

    /** A cancel sent since the given one was not acknowledged, or one of the listed records could not be read. */
    ghost predicate Obstructed(since: nat, listed: set<RawJob>)
      reads this
    {
      (exists n :: since <= n < cancels && !answer(n).Acknowledged?) || (exists x :: x in listed && !readable(x.jobId))
    }

    method Cancel(id: int) returns (ok: bool)
      modifies this
      ensures cancels == old(cancels) + 1 && (ok <==> answer(old(cancels)).Acknowledged?)
      ensures OnlyEnded(old(slurm), slurm, {id}) && (ok ==> Ended(slurm, {id}))
    {
      CancelEnds(slurm, id);
      var reply := answer(cancels);
      cancels := cancels + 1;
      if !reply.FailedWithoutEffect? {
        slurm := CancelAll(slurm, id);
      }
      ok := reply.Acknowledged?;
    }

    /** Re-read every listed component; one unreadable record stops the recovery of its key. */
    method ReadLive(allocations: map<int, seq<RawJob>>, ghost listed: set<RawJob>) returns (live: seq<RawJob>, ok: bool)
      requires Lists(allocations, listed)
      ensures ok ==> Elements(live) == LiveOf(slurm, listed)
      ensures !ok <==> exists x :: x in listed && !readable(x.jobId)
    {
      live, ok := [], false;
      var rest := allocations.Keys;
      while rest != {}
        invariant rest <= allocations.Keys
        invariant forall x :: x in live <==>
                    exists r :: r in listed && Alloc(r) !in rest && r.jobId in slurm && slurm[r.jobId] == x
        invariant forall r :: r in listed && Alloc(r) !in rest ==> readable(r.jobId)
      {
        var id := Pick(rest);
        rest := rest - {id};
        ghost var before := live;
        for n := 0 to |allocations[id]|
          invariant forall x :: x in live <==>
                      (x in before || exists r :: r in allocations[id][..n] && r.jobId in slurm && slurm[r.jobId] == x)
          invariant forall r :: r in allocations[id][..n] ==> readable(r.jobId)
        {
          var r := allocations[id][n];
          assert allocations[id][..n + 1] == allocations[id][..n] + [r];
          if !readable(r.jobId) {
            return;
          }
          if r.jobId in slurm {
            live := live + [slurm[r.jobId]];
          }
        }
        assert allocations[id][..|allocations[id]|] == allocations[id];
      }
      ok := true;
    }

    /** cleanAllocationConflict. */
    method CleanAllocationConflict(key: Key, allocations: map<int, seq<RawJob>>, ghost listed: set<RawJob>,
                                   canceled: set<int>)
      returns (done: set<int>, ok: bool)
      requires Lists(allocations, listed) && Ended(slurm, canceled)
      modifies this
      ensures Ended(slurm, done) && canceled <= done
      ensures ConflictCleaned(old(slurm), slurm, ActiveUnder(LiveOf(old(slurm), listed), key), ok)
      ensures cancels >= old(cancels)
      ensures (exists x :: x in listed && !readable(x.jobId)) ==> !ok && slurm == old(slurm) && cancels == old(cancels)
      ensures !ok ==>
                Obstructed(old(cancels), listed)
                || exists raw :: raw in ActiveUnder(LiveOf(old(slurm), listed), key) && FromJobInfo(raw).Err?
    {
      done := canceled;
      var live;
      live, ok := ReadLive(allocations, listed);
      if !ok {
        return;
      }
      var groups := GroupAllocations(live);
      ghost var pool := ActiveUnder(Elements(live), key);
      GroupLists(groups, live, key);
      var active := if key in groups then groups[key] else map[];
      AllocsListed(active, pool);
      if |active.Keys| < 2 {
        return;
      }
      var survivor := SurvivingAllocation(active, pool);
      if survivor.Err? {
        return done, false;
      }
      done, ok := CancelOthers(active.Keys, survivor.value, canceled);
      assert CleanedTo(old(slurm), slurm, pool, survivor.value, ok);
    }

    method CancelOthers(active: set<int>, keep: int, canceled: set<int>) returns (done: set<int>, ok: bool)
      requires Ended(slurm, canceled)
      modifies this
      ensures OnlyEnded(old(slurm), slurm, active - {keep})
      ensures Ended(slurm, done) && (ok ==> Ended(slurm, active - {keep}))
      ensures canceled <= done <= canceled + (active - {keep}) && (ok ==> active - {keep} <= done)
      ensures active - {keep} <= canceled ==> cancels == old(cancels)
      ensures cancels >= old(cancels) && (!ok ==> Obstructed(old(cancels), {}))
    {
      done, ok := canceled, true;
      var rest := active;
      while rest != {}
        invariant rest <= active
        invariant OnlyEnded(old(slurm), slurm, active - rest - {keep})
        invariant Ended(slurm, done) && (ok ==> Ended(slurm, active - rest - {keep}))
        invariant canceled <= done <= canceled + (active - {keep}) && (ok ==> active - rest - {keep} <= done)
        invariant active - {keep} <= canceled ==> cancels == old(cancels)
        invariant cancels >= old(cancels) && (!ok ==> Obstructed(old(cancels), {}))
      {
        var id := Pick(rest);
        ghost var visited := active - rest - {keep};
        rest := rest - {id};
        if id == keep {
          assert active - rest - {keep} == visited;
          continue;
        }
        assert active - rest - {keep} == visited + {id};
        if id in done {
          assert Ended(slurm, {id});
          continue;
        }
        ghost var before := slurm;
        var gone := Cancel(id);
        EndedMore(old(slurm), before, slurm, visited, id);
        EndedStays(before, slurm, done, {id});
        if gone {
          done := done + {id};
        } else {
          ok := false;
        }
      }
      assert active - rest - {keep} == active - {keep};
    }

    /** cleanDuplicateAllocations: group the listed jobs, then recover every conflicting key in any order. */
    method CleanDuplicateAllocations(listed: seq<RawJob>, keys: set<Key>) returns (ok: bool)
      requires StableAlloc(slurm, listed) && OneOwner(listed)
      modifies this
      ensures forall key :: key in keys && key.GroupKey? ==>
                PassOutcome(old(slurm), slurm, StartPool(old(slurm), listed, key), ok)
      ensures OnlyEnded(old(slurm), slurm, Reach(listed, keys))
      ensures cancels >= old(cancels) && (!ok ==> Obstructed(old(cancels), Conflicting(listed, keys)))
    {
      ghost var start := slurm;
      var groups := GroupAllocations(listed);
      ok := true;
      var canceled: set<int> := {};
      var rest := groups.Keys;
      ghost var ids: set<int> := {};
      BeforeAnyKey(start, groups, listed, keys);
      while rest != {}
        invariant rest <= groups.Keys && Ended(slurm, canceled) && OnlyEnded(start, slurm, ids)
        invariant Settled(start, slurm, listed, keys, rest, ok) && ids <= Reach(listed, keys)
        invariant cancels >= old(cancels) && (!ok ==> Obstructed(old(cancels), Conflicting(listed, keys)))
      {
        var key := Pick(rest);
        ghost var before, wasOk := slurm, ok;
        if key in keys && |groups[key]| >= 2 {
          GroupLists(groups, listed, key);
          ConflictListed(groups, listed, keys, key);
          var clean;
          canceled, clean := CleanAllocationConflict(key, groups[key], CachedPool(listed, key), canceled);
          ok := ok && clean;
          RecoveredKey(start, before, slurm, ids, listed, keys, rest, key, clean, wasOk);
          OnlyEndedTogether(start, before, slurm, ids, Allocs(CachedPool(listed, key)));
          ids := ids + Allocs(CachedPool(listed, key));
        } else {
          QuietKey(start, slurm, groups, listed, keys, rest, key, ok);
        }
        rest := rest - {key};
      }
    }
  }

  ghost function CachedPool(listed: seq<RawJob>, key: Key): set<RawJob> {
    ActiveUnder(Elements(listed), key)
  }

  /** The records of keys listed with two allocations or more: all that a pass reads again. */
  ghost function Conflicting(listed: seq<RawJob>, keys: set<Key>): set<RawJob> {
    set key, x | key in keys && x in CachedPool(listed, key) && |Allocs(CachedPool(listed, key))| >= 2 :: x
  }

  lemma ConflictListed(groups: Grouping, listed: seq<RawJob>, keys: set<Key>, key: Key)
    requires GroupedAs(groups, listed) && key in keys && key in groups && |groups[key]| >= 2
    ensures CachedPool(listed, key) <= Conflicting(listed, keys)
  {
    GroupLists(groups, listed, key);
    AllocsListed(groups[key], CachedPool(listed, key));
    assert |groups[key].Keys| == |groups[key]|;
  }

  /** The allocations listed for the keys: all that a pass over them may touch. */
  ghost function Reach(listed: seq<RawJob>, keys: set<Key>): set<int> {
    set key, x | key in keys && x in CachedPool(listed, key) :: Alloc(x)
  }

  /** The records a pass finds active for a key: the live ones behind those listed for it, regrouped. */
  ghost function StartPool(slurm: map<int, RawJob>, listed: seq<RawJob>, key: Key): set<RawJob> {
    ActiveUnder(LiveOf(slurm, CachedPool(listed, key)), key)
  }

  /** A job keeps the allocation it was listed with. */
  ghost predicate StableAlloc(slurm: map<int, RawJob>, listed: seq<RawJob>) {
    forall x :: x in listed && x.jobId in slurm ==> Alloc(slurm[x.jobId]) == Alloc(x)
  }

  /** The components of one allocation record the same owner. */
  ghost predicate OneOwner(listed: seq<RawJob>) {
    forall x, y, key :: x in CachedPool(listed, key) && y in listed && Active(y) && Alloc(x) == Alloc(y) ==>
             y in CachedPool(listed, key)
  }

  ghost predicate Same(before: map<int, RawJob>, after: map<int, RawJob>, ids: set<int>) {
    forall j :: j in before && Alloc(before[j]) in ids ==> j in after && after[j] == before[j]
  }

  ghost predicate SurvivorLeft(before: map<int, RawJob>, after: map<int, RawJob>, pool: set<RawJob>, keep: int,
                               ok: bool)
  {
    IsSurvivor(pool, keep) && Same(before, after, {keep}) && (ok ==> Ended(after, Allocs(pool) - {keep}))
  }

  /** What a pass leaves of the allocations it found active for a key. */
  ghost predicate PassOutcome(before: map<int, RawJob>, after: map<int, RawJob>, pool: set<RawJob>, ok: bool) {
    if |Allocs(pool)| < 2 then Same(before, after, Allocs(pool))
    else (Same(before, after, Allocs(pool)) && !ok) || exists keep :: SurvivorLeft(before, after, pool, keep, ok)
  }

  ghost predicate StillActive(slurm: map<int, RawJob>, id: int) {
    exists j :: j in slurm && Alloc(slurm[j]) == id && Active(slurm[j])
  }

  lemma KeysDisjoint(listed: seq<RawJob>, key: Key, other: Key)
    requires OneOwner(listed) && (key.GroupKey? || other.GroupKey?) && key != other
    ensures Allocs(CachedPool(listed, key)) !! Allocs(CachedPool(listed, other))
  {
    forall id | id in Allocs(CachedPool(listed, key)) && id in Allocs(CachedPool(listed, other)) ensures false {
      var x :| x in CachedPool(listed, key) && Alloc(x) == id;
      var y :| y in CachedPool(listed, other) && Alloc(y) == id;
      assert y in CachedPool(listed, key);
      if key.GroupKey? && other.GroupKey? {
        LegacyNeverMerges(Elements(listed), y, key.group, other.group);
      }
    }
  }

  lemma PoolWithin(slurm: map<int, RawJob>, listed: seq<RawJob>, key: Key)
    requires StableAlloc(slurm, listed)
    ensures Allocs(StartPool(slurm, listed, key)) <= Allocs(CachedPool(listed, key))
  {
  }

  lemma SamePool(start: map<int, RawJob>, before: map<int, RawJob>, listed: seq<RawJob>, key: Key)
    requires StableAlloc(start, listed) && before.Keys == start.Keys
             && Same(start, before, Allocs(CachedPool(listed, key)))
    ensures StartPool(before, listed, key) == StartPool(start, listed, key)
  {
    var cached := CachedPool(listed, key);
    forall x | x in cached && x.jobId in start ensures before[x.jobId] == start[x.jobId] {
      assert Alloc(start[x.jobId]) in Allocs(cached);
    }
    assert LiveOf(before, cached) == LiveOf(start, cached);
  }

  lemma OneKey(start: map<int, RawJob>, before: map<int, RawJob>, after: map<int, RawJob>, ids: set<int>,
               listed: seq<RawJob>, key: Key, clean: bool)
    requires StableAlloc(start, listed) && OnlyEnded(start, before, ids)
    requires ConflictCleaned(before, after, StartPool(before, listed, key), clean)
    requires key.GroupKey? ==> Same(start, before, Allocs(CachedPool(listed, key)))
    ensures OnlyEnded(before, after, Allocs(CachedPool(listed, key)))
    ensures key.GroupKey? ==> PassOutcome(start, after, StartPool(start, listed, key), clean)
  {
    PoolWithin(before, listed, key);
    if key.GroupKey? {
      SamePool(start, before, listed, key);
      PoolWithin(start, listed, key);
      var pool := StartPool(start, listed, key);
      if |Allocs(pool)| >= 2 && !(after == before && !clean) {
        var keep :| CleanedTo(before, after, pool, keep, clean);
        SurvivorUnique(pool, keep, keep);
        assert SurvivorLeft(start, after, pool, keep, clean);
      }
    }
  }

  lemma OtherKey(start: map<int, RawJob>, before: map<int, RawJob>, after: map<int, RawJob>, ids: set<int>,
                 listed: seq<RawJob>, key: Key, other: Key, wasOk: bool, ok: bool)
    requires StableAlloc(start, listed) && OneOwner(listed) && other.GroupKey? && other != key && (ok ==> wasOk)
    requires OnlyEnded(start, before, ids) && OnlyEnded(before, after, Allocs(CachedPool(listed, key)))
    ensures Same(start, before, Allocs(CachedPool(listed, other))) ==>
              Same(start, after, Allocs(CachedPool(listed, other)))
    ensures PassOutcome(start, before, StartPool(start, listed, other), wasOk) ==>
              PassOutcome(start, after, StartPool(start, listed, other), ok)
  {
    KeysDisjoint(listed, key, other);
    PoolWithin(start, listed, other);
    var pool := StartPool(start, listed, other);
    if PassOutcome(start, before, pool, wasOk) && |Allocs(pool)| >= 2
       && !(Same(start, before, Allocs(pool)) && !wasOk) {
      var keep :| SurvivorLeft(start, before, pool, keep, wasOk);
      SurvivorUnique(pool, keep, keep);
      if wasOk { EndedStays(before, after, Allocs(pool) - {keep}, Allocs(CachedPool(listed, key))); }
      assert SurvivorLeft(start, after, pool, keep, ok);
    }
  }

  lemma OutcomeWeakens(start: map<int, RawJob>, slurm: map<int, RawJob>, pool: set<RawJob>, clean: bool, ok: bool)
    requires ok ==> clean
    ensures PassOutcome(start, slurm, pool, clean) ==> PassOutcome(start, slurm, pool, ok)
  {
    if PassOutcome(start, slurm, pool, clean) && |Allocs(pool)| >= 2 && !(Same(start, slurm, Allocs(pool)) && !clean) {
      var keep :| SurvivorLeft(start, slurm, pool, keep, clean);
      assert SurvivorLeft(start, slurm, pool, keep, ok);
    }
  }

  lemma OnlyEndedTogether(a: map<int, RawJob>, b: map<int, RawJob>, c: map<int, RawJob>, ids: set<int>, more: set<int>)
    requires OnlyEnded(a, b, ids) && OnlyEnded(b, c, more)
    ensures OnlyEnded(a, c, ids + more)
  {
  }

  /** A key listed with at most one allocation has no conflict among the live records either. */
  lemma NothingToClean(start: map<int, RawJob>, slurm: map<int, RawJob>, groups: Grouping, listed: seq<RawJob>,
                       key: Key, ok: bool)
    requires StableAlloc(start, listed) && GroupedAs(groups, listed)
    requires key in groups ==> |groups[key]| < 2
    requires Same(start, slurm, Allocs(CachedPool(listed, key)))
    ensures PassOutcome(start, slurm, StartPool(start, listed, key), ok)
  {
    GroupLists(groups, listed, key);
    AllocsListed(if key in groups then groups[key] else map[], CachedPool(listed, key));
    PoolWithin(start, listed, key);
    CardOfSubset(Allocs(StartPool(start, listed, key)), Allocs(CachedPool(listed, key)));
    assert key in groups ==> |groups[key].Keys| == |groups[key]|;
  }

  /** Part way through a pass: the keys to come are untouched, the others have their outcome. */
  ghost predicate Settled(start: map<int, RawJob>, slurm: map<int, RawJob>, listed: seq<RawJob>, keys: set<Key>,
                          rest: set<Key>, ok: bool)
  {
    forall key: Key :: key.GroupKey? ==> SettledKey(start, slurm, listed, keys, rest, ok, key)
  }

  ghost predicate SettledKey(start: map<int, RawJob>, slurm: map<int, RawJob>, listed: seq<RawJob>, keys: set<Key>,
                             rest: set<Key>,
                             ok: bool, key: Key)
  {
    if key in rest then Same(start, slurm, Allocs(CachedPool(listed, key)))
    else key in keys ==> PassOutcome(start, slurm, StartPool(start, listed, key), ok)
  }

  lemma BeforeAnyKey(start: map<int, RawJob>, groups: Grouping, listed: seq<RawJob>, keys: set<Key>)
    requires StableAlloc(start, listed) && GroupedAs(groups, listed)
    ensures Settled(start, start, listed, keys, groups.Keys, true)
  {
    forall key: Key | key.GroupKey? ensures SettledKey(start, start, listed, keys, groups.Keys, true, key) {
      if key !in groups { NothingToClean(start, start, groups, listed, key, true); }
    }
  }

  lemma QuietKey(start: map<int, RawJob>, slurm: map<int, RawJob>, groups: Grouping, listed: seq<RawJob>,
                 keys: set<Key>,
                 rest: set<Key>, key: Key, ok: bool)
    requires StableAlloc(start, listed) && GroupedAs(groups, listed)
    requires key in rest && rest <= groups.Keys && (key in keys ==> |groups[key]| < 2)
    requires Settled(start, slurm, listed, keys, rest, ok)
    ensures Settled(start, slurm, listed, keys, rest - {key}, ok)
  {
    forall other: Key | other.GroupKey? ensures SettledKey(start, slurm, listed, keys, rest - {key}, ok, other) {
      assert SettledKey(start, slurm, listed, keys, rest, ok, other);
      if other == key && key in keys { NothingToClean(start, slurm, groups, listed, key, ok); }
    }
  }

  lemma RecoveredKey(start: map<int, RawJob>, before: map<int, RawJob>, after: map<int, RawJob>, ids: set<int>,
                     listed: seq<RawJob>, keys: set<Key>, rest: set<Key>, key: Key, clean: bool, wasOk: bool)
    requires StableAlloc(start, listed) && OneOwner(listed) && OnlyEnded(start, before, ids) && key in rest
    requires ConflictCleaned(before, after, StartPool(before, listed, key), clean)
    requires Settled(start, before, listed, keys, rest, wasOk)
    ensures OnlyEnded(before, after, Allocs(CachedPool(listed, key)))
    ensures Settled(start, after, listed, keys, rest - {key}, wasOk && clean)
  {
    assert key.GroupKey? ==> SettledKey(start, before, listed, keys, rest, wasOk, key);
    OneKey(start, before, after, ids, listed, key, clean);
    forall other: Key | other.GroupKey?
      ensures SettledKey(start, after, listed, keys, rest - {key}, wasOk && clean, other)
    {
      assert SettledKey(start, before, listed, keys, rest, wasOk, other);
      if other == key {
        OutcomeWeakens(start, after, StartPool(start, listed, key), clean, wasOk && clean);
      } else {
        OtherSettled(start, before, after, ids, listed, keys, rest, key, other, wasOk, wasOk && clean);
      }
    }
  }

  lemma OtherSettled(start: map<int, RawJob>, before: map<int, RawJob>, after: map<int, RawJob>, ids: set<int>,
                     listed: seq<RawJob>,
                     keys: set<Key>, rest: set<Key>, key: Key, other: Key, wasOk: bool, ok: bool)
    requires StableAlloc(start, listed) && OneOwner(listed) && other.GroupKey? && other != key && (ok ==> wasOk)
    requires OnlyEnded(start, before, ids) && OnlyEnded(before, after, Allocs(CachedPool(listed, key)))
    requires SettledKey(start, before, listed, keys, rest, wasOk, other)
    ensures SettledKey(start, after, listed, keys, rest - {key}, ok, other)
  {
    OtherKey(start, before, after, ids, listed, key, other, wasOk, ok);
  }

  lemma OneOrMore(ids: set<int>, a: int, b: int)
    requires |ids| < 2 && a in ids && b in ids
    ensures a == b
  {
    assert |ids - {a}| < 1;
    assert ids - {a} == {};
  }

  ghost predicate OneLeft(slurm: map<int, RawJob>, ids: set<int>) {
    forall a, b :: a in ids && b in ids && StillActive(slurm, a) && StillActive(slurm, b) ==> a == b
  }

  /** A pass never takes a key from some active allocation to none, and without a failed cancel it leaves exactly
      one. */
  lemma NeverNone(before: map<int, RawJob>, after: map<int, RawJob>, pool: set<RawJob>, ok: bool)
    requires PassOutcome(before, after, pool, ok) && pool != {}
    requires forall x :: x in pool ==> Active(x) && x.jobId in before && before[x.jobId] == x
    ensures exists id :: id in Allocs(pool) && StillActive(after, id)
    ensures ok ==> OneLeft(after, Allocs(pool))
  {
    if |Allocs(pool)| < 2 || Same(before, after, Allocs(pool)) {
      var x :| x in pool;
      assert Alloc(x) in Allocs(pool) && after[x.jobId] == x && StillActive(after, Alloc(x));
    } else {
      var keep :| SurvivorLeft(before, after, pool, keep, ok);
      SurvivorUnique(pool, keep, keep);
      var x :| x in pool && Alloc(x) == keep;
      assert after[x.jobId] == x && StillActive(after, keep);
    }
    if ok {
      forall a, b | a in Allocs(pool) && b in Allocs(pool) && StillActive(after, a) && StillActive(after, b)
        ensures a == b
      {
        if |Allocs(pool)| < 2 {
          OneOrMore(Allocs(pool), a, b);
        } else {
          var keep :| SurvivorLeft(before, after, pool, keep, ok);
          assert a == keep && b == keep;
        }
      }
    }
  }

  /** Slurm's table is keyed by job ID. */
  ghost predicate Keyed(slurm: map<int, RawJob>) {
    forall j :: j in slurm ==> slurm[j].jobId == j
  }

  /** No started allocation of a key ends in favour of one that has not started: one that has started is left as it
      was, and without a failure only such an allocation is left. */
  lemma StartedKept(before: map<int, RawJob>, after: map<int, RawJob>, listed: seq<RawJob>, key: Key, ok: bool,
                    started: RawJob) returns (kept: RawJob)
    requires Keyed(before) && PassOutcome(before, after, StartPool(before, listed, key), ok)
    requires started in StartPool(before, listed, key)
    requires RUNNING in started.states || SUSPENDED in started.states || COMPLETING in started.states
    ensures kept in StartPool(before, listed, key) && Same(before, after, {Alloc(kept)})
    ensures RUNNING in kept.states || SUSPENDED in kept.states || COMPLETING in kept.states
    ensures kept.jobId in after && after[kept.jobId] == kept
    ensures ok ==> OnlyLeft(after, Allocs(StartPool(before, listed, key)), Alloc(kept))
  {
    var pool := StartPool(before, listed, key);
    PoolIsLive(before, listed, key);
    forall keep | IsSurvivor(pool, keep) ensures LowestWith(pool, x => ShowsStart(x), keep) {
      SurvivorSigns(pool, keep);
    }
    kept := SignKept(before, after, pool, ok, x => ShowsStart(x), started);
  }

  /** The same for release progress, while no allocation of the key has started. */
  lemma ReleasedKept(before: map<int, RawJob>, after: map<int, RawJob>, listed: seq<RawJob>, key: Key, ok: bool,
                     freed: RawJob) returns (kept: RawJob)
    requires Keyed(before) && PassOutcome(before, after, StartPool(before, listed, key), ok)
    requires forall x :: x in StartPool(before, listed, key) ==> !ShowsStart(x)
    requires freed in StartPool(before, listed, key) && PENDING in freed.states && !Carries(freed.priority, 0)
    ensures kept in StartPool(before, listed, key) && Same(before, after, {Alloc(kept)})
    ensures PENDING in kept.states && !Carries(kept.priority, 0)
    ensures kept.jobId in after && after[kept.jobId] == kept
    ensures ok ==> OnlyLeft(after, Allocs(StartPool(before, listed, key)), Alloc(kept))
  {
    var pool := StartPool(before, listed, key);
    PoolIsLive(before, listed, key);
    forall keep | IsSurvivor(pool, keep) ensures LowestWith(pool, x => ShowsRelease(x), keep) {
      SurvivorSigns(pool, keep);
    }
    kept := SignKept(before, after, pool, ok, x => ShowsRelease(x), freed);
  }

  /** No other of these allocations is left. */
  ghost predicate OnlyLeft(slurm: map<int, RawJob>, ids: set<int>, keep: int) {
    forall id :: id in ids && StillActive(slurm, id) ==> id == keep
  }

  lemma SignKept(before: map<int, RawJob>, after: map<int, RawJob>, pool: set<RawJob>, ok: bool, sign: RawJob -> bool,
                 shown: RawJob) returns (kept: RawJob)
    requires PassOutcome(before, after, pool, ok) && shown in pool && sign(shown)
    requires forall keep :: IsSurvivor(pool, keep) ==> LowestWith(pool, sign, keep)
    ensures kept in pool && sign(kept) && Same(before, after, {Alloc(kept)})
    ensures ok ==> OnlyLeft(after, Allocs(pool), Alloc(kept))
  {
    assert Alloc(shown) in Allocs(pool);
    if |Allocs(pool)| < 2 {
      kept := shown;
      forall id | id in Allocs(pool) ensures id == Alloc(shown) {
        OneOrMore(Allocs(pool), id, Alloc(shown));
      }
    } else if Same(before, after, Allocs(pool)) && !ok {
      kept := shown;
    } else {
      var keep :| SurvivorLeft(before, after, pool, keep, ok);
      kept :| kept in pool && sign(kept) && Alloc(kept) == keep;
    }
  }

  lemma PoolIsLive(before: map<int, RawJob>, listed: seq<RawJob>, key: Key)
    requires Keyed(before)
    ensures forall x :: x in StartPool(before, listed, key) ==>
              Active(x) && x.jobId in before && before[x.jobId] == x
  {
    forall x | x in StartPool(before, listed, key) ensures Active(x) && x.jobId in before && before[x.jobId] == x {
      var y :| y in CachedPool(listed, key) && y.jobId in before && x == before[y.jobId];
    }
  }

  /** A pass over a group key that had an active allocation leaves it at least one, and without a failure exactly
      one. */
  lemma PassLeavesOne(before: map<int, RawJob>, after: map<int, RawJob>, listed: seq<RawJob>, key: Key, ok: bool)
    requires Keyed(before) && StartPool(before, listed, key) != {}
             && PassOutcome(before, after, StartPool(before, listed, key), ok)
    ensures exists id :: id in Allocs(StartPool(before, listed, key)) && StillActive(after, id)
    ensures ok ==> OneLeft(after, Allocs(StartPool(before, listed, key)))
  {
    PoolIsLive(before, listed, key);
    NeverNone(before, after, StartPool(before, listed, key), ok);
  }
}
