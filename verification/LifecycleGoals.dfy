/** What the two loops of a lifecycle pass owe for each job and each Pod
    (internal/controller/registration/lifecycle.go:225-330), in terms of its log. */
module LifecycleGoals {
  import opened Ordering
  import opened SlurmJob
  import opened Lifecycle
  import opened LifecycleLog

  // ---------------------------------------------------------------- the release of all components

  /** The cache shows the job finished, and no member holds the finalizer. */
  ghost predicate Shortcut(env: Environment, j: RegisteredJob) {
    j.job.finished && forall p :: Member(env.cached, j.job.jobId, j.info, p) ==> !p.finalizer
  }

  /** Why a job counts as released: it was read live as released, or the cache is enough. */
  ghost predicate Freed(env: Environment, log: seq<Event>, from: nat, j: RegisteredJob) {
    SawReleased(log, from, j.job.jobId) || Shortcut(env, j)
  }

  /** The cache leaves it to a live release whether the job is released. */
  ghost predicate NeedsRelease(env: Environment, j: RegisteredJob) {
    !Shortcut(env, j) && (j.job.finished || ReleasableIn(env.cached, j.job.jobId, j.info))
  }

  ghost predicate TurnedIn(log: seq<Event>, from: nat, j: RegisteredJob) {
    exists a, b :: from <= a <= b <= |log| && Turned(log[..b], a, j)
  }

  /** The members are known and the job had its release, unless the cache rules it out or makes it unnecessary. */
  ghost predicate JobHandled(env: Environment, log: seq<Event>, from: nat, j: RegisteredJob) {
    MembersReadable(env.cached, j.job.jobId, j.info) && (NeedsRelease(env, j) ==> TurnedIn(log, from, j))
  }

  /** No cached member needs the job, and yet it is not known to be released. */
  ghost predicate Awaited(env: Environment, log: seq<Event>, from: nat, j: RegisteredJob) {
    ReleasableIn(env.cached, j.job.jobId, j.info) && !Freed(env, log, from, j)
  }

  ghost predicate CancelGround(log: seq<Event>, from: nat, jobs: seq<RegisteredJob>, cancel: Cancel) {
    exists j, start :: j in jobs && from <= start && CancelJustified(log, start, j, cancel)
  }

  ghost predicate Concerns(env: Environment, pods: seq<Pod>, jobs: seq<RegisteredJob>, p: Pod) {
    p in pods || exists j :: j in jobs && Member(env.cached, j.job.jobId, j.info, p)
  }

  /** Every Pod the pass is about, under its key, and no other. */
  ghost predicate Gathered(env: Environment, pods: seq<Pod>, jobs: seq<RegisteredJob>, members: map<PodRecord, Pod>) {
    && (forall k :: k in members ==> k in env.snapshot && members[k] == env.snapshot[k])
    && (forall k {:trigger Concerns(env, pods, jobs, members[k])} :: k in members ==>
          Concerns(env, pods, jobs, members[k]))
    && (forall p {:trigger Concerns(env, pods, jobs, p)} :: Concerns(env, pods, jobs, p) ==> KeyOf(p) in members)
  }

  /** Each Pod is associated with exactly the jobs it is a member of. */
  ghost predicate Linked(env: Environment, jobs: seq<RegisteredJob>, associated: map<PodRecord, set<int>>) {
    && (forall id, p {:trigger LinkedBy(env, jobs, id, p)} :: LinkedBy(env, jobs, id, p) ==>
          KeyOf(p) in associated && id in associated[KeyOf(p)])
    && (forall k :: k in associated ==> k in env.snapshot)
    && (forall k, id {:trigger LinkedBy(env, jobs, id, env.snapshot[k])} :: k in associated && id in associated[k] ==>
          LinkedBy(env, jobs, id, env.snapshot[k]))
  }

  ghost predicate LinkedBy(env: Environment, jobs: seq<RegisteredJob>, id: int, p: Pod) {
    exists j :: j in jobs && j.job.jobId == id && Member(env.cached, id, j.info, p)
  }

  /** The jobs counted as released are exactly those that have a ground. */
  ghost predicate Counted(env: Environment, log: seq<Event>, from: nat, jobs: seq<RegisteredJob>, released: set<int>) {
    && (forall j {:trigger Freed(env, log, from, j)} :: j in jobs ==>
          (j.job.jobId in released <==> Freed(env, log, from, j)))
    && (forall id {:trigger HasJob(jobs, id)} :: id in released ==> HasJob(jobs, id))
  }

  ghost predicate HasJob(jobs: seq<RegisteredJob>, id: int) {
    exists j :: j in jobs && j.job.jobId == id
  }

  ghost predicate DistinctJobs(jobs: seq<RegisteredJob>) {
    forall i, k :: 0 <= i < k < |jobs| ==> jobs[i].job.jobId != jobs[k].job.jobId
  }

  /** The Pods under their keys; a later Pod replaces an earlier one of the same key. */
  function ByKey(pods: seq<Pod>): (r: map<PodRecord, Pod>)
    ensures forall p :: p in pods ==> KeyOf(p) in r
    ensures forall k :: k in r ==> r[k] in pods && KeyOf(r[k]) == k
  {
    if pods == [] then map[] else
      var last := pods[|pods| - 1];
      ByKey(pods[..|pods| - 1])[KeyOf(last) := last]
  }

  function Associate(m: map<PodRecord, set<int>>, keys: set<PodRecord>, id: int): (r: map<PodRecord, set<int>>)
    ensures r.Keys == m.Keys + keys
    ensures forall k, i :: k in r ==> (i in r[k] <==> (k in m && i in m[k]) || (k in keys && i == id))
  {
    map k | k in m.Keys + keys :: (if k in m then m[k] else {}) + (if k in keys then {id} else {})
  }

  /** The members of one job, as the cache has them. */
  ghost predicate MembersOf(env: Environment, j: RegisteredJob, current: map<PodRecord, Pod>) {
    && (forall k :: k in current ==>
          k in env.snapshot && current[k] == env.snapshot[k] && Member(env.cached, j.job.jobId, j.info, current[k]))
    && (forall p :: Member(env.cached, j.job.jobId, j.info, p) ==> KeyOf(p) in current)
  }

  lemma GatheredMore(env: Environment, pods: seq<Pod>, jobs: seq<RegisteredJob>, members: map<PodRecord, Pod>,
                     j: RegisteredJob, current: map<PodRecord, Pod>)
    requires Gathered(env, pods, jobs, members) && MembersOf(env, j, current)
    ensures Gathered(env, pods, jobs + [j], members + current)
  {
    var more, all := jobs + [j], members + current;
    assert j in more;
    forall k | k in all ensures Concerns(env, pods, more, all[k]) {
      if k in current {
        assert Member(env.cached, j.job.jobId, j.info, current[k]);
      } else {
        assert Concerns(env, pods, jobs, members[k]);
      }
    }
    forall p | Concerns(env, pods, more, p) ensures KeyOf(p) in all {
      if !Concerns(env, pods, jobs, p) {
        assert Member(env.cached, j.job.jobId, j.info, p);
      }
    }
  }

  lemma LinkedMore(env: Environment, jobs: seq<RegisteredJob>, associated: map<PodRecord, set<int>>, j: RegisteredJob,
                   current: map<PodRecord, Pod>)
    requires Linked(env, jobs, associated) && MembersOf(env, j, current)
    ensures Linked(env, jobs + [j], Associate(associated, current.Keys, j.job.jobId))
  {
    var more, all := jobs + [j], Associate(associated, current.Keys, j.job.jobId);
    assert j in more;
    forall k, id | k in all && id in all[k] ensures LinkedBy(env, more, id, env.snapshot[k]) {
      if k in associated && id in associated[k] {
        assert LinkedBy(env, jobs, id, env.snapshot[k]);
      } else {
        assert Member(env.cached, j.job.jobId, j.info, current[k]);
      }
    }
    forall id, p | LinkedBy(env, more, id, p) ensures KeyOf(p) in all && id in all[KeyOf(p)] {
      if !LinkedBy(env, jobs, id, p) {
        assert id == j.job.jobId && Member(env.cached, id, j.info, p);
      }
    }
  }

  /** Reads of other jobs leave the grounds of a job as they were. */
  lemma FreedStays(env: Environment, before: seq<Event>, log: seq<Event>, from: nat, j: RegisteredJob)
    requires from <= |before| <= |log| && log[..|before|] == before
    requires forall k :: |before| <= k < |log| && log[k].ReadJob? ==> log[k].id != j.job.jobId
    ensures Freed(env, log, from, j) <==> Freed(env, before, from, j)
    ensures Awaited(env, log, from, j) <==> Awaited(env, before, from, j)
  {
    SawSplit(before, log, from, j.job.jobId);
  }

  /** A job not read before has its grounds from its own turn. */
  lemma FreedFrom(env: Environment, before: seq<Event>, log: seq<Event>, from: nat, j: RegisteredJob)
    requires from <= |before| <= |log| && log[..|before|] == before
    requires forall k :: from <= k < |before| && before[k].ReadJob? ==> before[k].id != j.job.jobId
    ensures Freed(env, log, from, j) <==> Freed(env, log, |before|, j)
  {
    SawSplit(before, log, from, j.job.jobId);
  }

  lemma HandledStays(env: Environment, before: seq<Event>, log: seq<Event>, from: nat, j: RegisteredJob)
    requires from <= |before| <= |log| && log[..|before|] == before && JobHandled(env, before, from, j)
    ensures JobHandled(env, log, from, j)
  {
    if NeedsRelease(env, j) {
      var a, b :| from <= a <= b <= |before| && Turned(before[..b], a, j);
      assert log[..b] == before[..b];
    }
  }

  /** What the first loop has established after some of the jobs. */
  ghost predicate Progress(env: Environment, log: seq<Event>, from: nat, jobs: seq<RegisteredJob>, released: set<int>,
                           waiting: bool)
  {
    && (forall j {:trigger JobHandled(env, log, from, j)} :: j in jobs ==> JobHandled(env, log, from, j))
    && Counted(env, log, from, jobs, released)
    && (waiting <==> exists j {:trigger Awaited(env, log, from, j)} :: j in jobs && Awaited(env, log, from, j))
  }

  /** The events of the first loop after the jobs `done`: no Pod is changed, and every cancel has its ground. */
  ghost predicate ReleaseEvents(log: seq<Event>, from: nat, done: seq<RegisteredJob>, jobs: seq<RegisteredJob>) {
    && OwnReads(log, from, done)
    && (forall k :: from <= k < |log| ==> !Touches(log[k]) && !log[k].Synced?)
    && (forall k :: from <= k < |log| && log[k].Canceled? ==> CancelGround(log[..k], from, jobs, log[k].cancel))
  }

  lemma ReleaseEventsMore(before: seq<Event>, log: seq<Event>, from: nat, jobs: seq<RegisteredJob>, n: nat)
    requires from <= |before| <= |log| && log[..|before|] == before && n < |jobs|
    requires ReleaseEvents(before, from, jobs[..n], jobs)
    requires forall k :: |before| <= k < |log| ==>
               !Touches(log[k]) && !log[k].Synced? && (log[k].ReadJob? ==> log[k].id == jobs[n].job.jobId)
    requires forall k :: |before| <= k < |log| && log[k].Canceled? ==>
               CancelJustified(log[..k], |before|, jobs[n], log[k].cancel)
    ensures ReleaseEvents(log, from, jobs[..n + 1], jobs)
    ensures Unbroken(log, from) <==> Unbroken(before, from) && Unbroken(log, |before|)
  {
    PrefixItems(before, log);
    UnbrokenSplit(before, log, from);
    assert jobs[n] in jobs && jobs[n] in jobs[..n + 1];
    forall k | from <= k < |log| && log[k].ReadJob? ensures HasJob(jobs[..n + 1], log[k].id) {
      if k < |before| {
        var j :| j in jobs[..n] && j.job.jobId == before[k].id;
        assert j in jobs[..n + 1];
      }
    }
  }

  ghost predicate OwnReads(log: seq<Event>, from: nat, jobs: seq<RegisteredJob>) {
    forall k :: from <= k < |log| && log[k].ReadJob? ==> HasJob(jobs, log[k].id)
  }

  lemma ProgressMore(env: Environment, before: seq<Event>, log: seq<Event>, from: nat, jobs: seq<RegisteredJob>,
                     j: RegisteredJob, released: set<int>, waiting: bool, freed: bool, wait: bool)
    requires from <= |before| <= |log| && log[..|before|] == before && DistinctJobs(jobs + [j])
    requires Progress(env, before, from, jobs, released, waiting) && OwnReads(before, from, jobs)
    requires forall k :: |before| <= k < |log| && log[k].ReadJob? ==> log[k].id == j.job.jobId
    requires JobHandled(env, log, |before|, j) && (freed <==> Freed(env, log, |before|, j))
    requires wait <==> Awaited(env, log, |before|, j)
    ensures Progress(env, log, from, jobs + [j], if freed then released + {j.job.jobId} else released, waiting || wait)
  {
    var more := jobs + [j];
    var all := if freed then released + {j.job.jobId} else released;
    PrefixItems(before, log);
    DistinctLast(jobs, j);
    FreedFrom(env, before, log, from, j);
    forall i | i in jobs
      ensures JobHandled(env, log, from, i) && (Freed(env, log, from, i) <==> Freed(env, before, from, i))
      ensures Awaited(env, log, from, i) <==> Awaited(env, before, from, i)
    {
      HandledStays(env, before, log, from, i);
      FreedStays(env, before, log, from, i);
    }
    assert TurnedIn(log, |before|, j) ==> TurnedIn(log, from, j);
    assert j in more && forall i :: i in more <==> i in jobs || i == j;
    assert !HasJob(jobs, j.job.jobId);
    forall i | i in more ensures i.job.jobId in all <==> Freed(env, log, from, i) {
      if i in jobs {
        assert i.job.jobId in released <==> Freed(env, before, from, i);
      } else {
        assert i == j && j.job.jobId !in released;
      }
    }
    forall id | id in all ensures HasJob(more, id) {
      if id in released {
        assert HasJob(jobs, id);
      }
    }
    forall i | i in more ensures Awaited(env, log, from, i) ==> waiting || wait {
    }
    assert wait <==> Awaited(env, log, from, j);
    if waiting {
      var i :| i in jobs && Awaited(env, before, from, i);
      assert i in more && Awaited(env, log, from, i);
    }
  }

  lemma DistinctLast(jobs: seq<RegisteredJob>, j: RegisteredJob)
    requires DistinctJobs(jobs + [j])
    ensures forall i :: i in jobs ==> i.job.jobId != j.job.jobId
  {
    forall i | i in jobs ensures i.job.jobId != j.job.jobId {
      var m :| 0 <= m < |jobs| && jobs[m] == i;
      assert (jobs + [j])[m] == i && (jobs + [j])[|jobs|] == j;
    }
  }

  // ---------------------------------------------------------------- the cleanup of all members

  /** The pass has to come back: a Pod was changed, or a labelled job was read live as not released. */
  ghost predicate WaitEvent(e: Event) {
    (e.Synced? && e.changed) || (e.ReadJob? && !ShowsReleased(e, e.id))
  }

  ghost predicate Waits(log: seq<Event>, from: nat) {
    exists k :: from <= k < |log| && WaitEvent(log[k])
  }

  ghost predicate LabelHeld(log: seq<Event>, from: nat, p: Pod) {
    && p.jobLabel > 0
    && exists k :: from <= k < |log| && log[k].ReadJob? && log[k].id == p.jobLabel && !ShowsReleased(log[k], p.jobLabel)
  }

  ghost predicate SyncedIn(log: seq<Event>, from: nat, p: Pod) {
    exists k :: from <= k < |log| && log[k].Synced? && log[k].of == p
  }

  ghost predicate CleanedIn(log: seq<Event>, from: nat, p: Pod) {
    exists a, b :: from <= a <= b <= |log| && Cleaned(log[..b], a, p)
  }

  ghost predicate ClaimsIn(log: seq<Event>, from: nat, p: Pod) {
    exists start :: from <= start && ClaimsDeleted(log, start, p)
  }

  /** What the second loop does for one Pod: it cleans up one that has ended and whose jobs are all released, unless
      its labelled job is not, and syncs one that has not ended. */
  ghost predicate MemberDone(log: seq<Event>, from: nat, safe: bool, p: Pod) {
    p.ours ==>
      if p.terminal || (p.deleting && p.node == "") then safe ==> CleanedIn(log, from, p) || LabelHeld(log, from, p)
      else p.gated || SyncedIn(log, from, p)
  }

  /** What one event of the second loop needs to have before it. */
  ghost predicate MemberEvent(log: seq<Event>, k: nat, from: nat, safe: bool, released: set<int>, p: Pod)
    requires k < |log|
  {
    var e := log[k];
    && !e.Canceled? && (e.ReadJob? ==> e.id > 0 && e.id !in released)
    && (Touches(e) ==>
          && e.of == p && safe && p.ours && (p.terminal || (p.deleting && p.node == ""))
          && (p.jobLabel > 0 ==> p.jobLabel in released || SawReleased(log[..k], from, p.jobLabel)))
    && (e.SentRemoval? ==> p.finalizer && ClaimsIn(log[..k], from, p))
    && (e.Synced? ==> e.of == p && p.ours && !p.gated && !p.terminal && (p.deleting ==> p.node != ""))
  }

  /** Every job the Pod is associated with is released. */
  predicate Safe(associated: map<PodRecord, set<int>>, released: set<int>, p: Pod) {
    KeyOf(p) in associated ==> associated[KeyOf(p)] <= released
  }

  ghost predicate FinalEvent(log: seq<Event>, k: nat, from: nat, members: map<PodRecord, Pod>,
                             associated: map<PodRecord, set<int>>, released: set<int>)
    requires k < |log|
  {
    exists key :: key in members &&
      MemberEvent(log, k, from, Safe(associated, released, members[key]), released, members[key])
  }

  lemma DoneStays(before: seq<Event>, log: seq<Event>, from: nat, safe: bool, p: Pod)
    requires from <= |before| <= |log| && log[..|before|] == before && MemberDone(before, from, safe, p)
    ensures MemberDone(log, from, safe, p)
  {
    PrefixItems(before, log);
    if CleanedIn(before, from, p) {
      var a, b :| from <= a <= b <= |before| && Cleaned(before[..b], a, p);
      assert log[..b] == before[..b];
    }
  }

  lemma DoneFrom(log: seq<Event>, from: nat, start: nat, safe: bool, p: Pod)
    requires from <= start <= |log| && MemberDone(log, start, safe, p)
    ensures MemberDone(log, from, safe, p)
  {
    if CleanedIn(log, start, p) {
      var a, b :| start <= a <= b <= |log| && Cleaned(log[..b], a, p);
    }
  }

  lemma EventFrom(log: seq<Event>, k: nat, from: nat, start: nat, safe: bool, released: set<int>, p: Pod)
    requires k < |log| && from <= start && MemberEvent(log, k, start, safe, released, p)
    ensures MemberEvent(log, k, from, safe, released, p)
  {
  }

  lemma WaitsSplit(before: seq<Event>, log: seq<Event>, from: nat)
    requires from <= |before| <= |log| && log[..|before|] == before
    ensures Waits(log, from) <==> Waits(before, from) || Waits(log, |before|)
  {
    PrefixItems(before, log);
  }

  /** A cleanup after at most one read of the labelled job. */
  lemma CleanupAfter(before: seq<Event>, log: seq<Event>, from: nat, released: set<int>, p: Pod)
    requires from <= |before| <= |log| && log[..|before|] == before && ReadyForCleanup(p) && p.ours
    requires forall k :: from <= k < |before| ==>
               ShowsReleased(before[k], p.jobLabel) && p.jobLabel > 0 && p.jobLabel !in released
    requires p.jobLabel > 0 && p.jobLabel !in released ==> from < |before|
    requires forall k :: |before| <= k < |log| ==> About(log[k], p)
    requires forall k :: |before| <= k < |log| && log[k].SentRemoval? ==>
               p.finalizer && ClaimsDeleted(log[..k], |before|, p)
    ensures Unbroken(log, from) <==> Unbroken(log, |before|)
    ensures !Waits(log, from)
    ensures forall k :: from <= k < |log| ==> MemberEvent(log, k, from, true, released, p)
    ensures Cleaned(log, |before|, p) ==> MemberDone(log, from, true, p)
  {
    PrefixItems(before, log);
    UnbrokenSplit(before, log, from);
    assert log[..|log|] == log;
    forall k | from <= k < |log| ensures MemberEvent(log, k, from, true, released, p) {
      if k >= |before| && p.jobLabel > 0 && p.jobLabel !in released {
        assert log[..k][from] == before[from];
      }
    }
  }

  /** No submission is recent, or the one that is was read live as released. */
  ghost predicate MemoCleared(log: seq<Event>, from: nat, memo: Option<int>) {
    memo.Some? ==> memo.value != 0 && SawReleased(log, from, memo.value)
  }

  lemma FinalStep(before: seq<Event>, log: seq<Event>, from: nat, members: map<PodRecord, Pod>,
                  associated: map<PodRecord, set<int>>, released: set<int>, key: PodRecord)
    requires from <= |before| <= |log| && log[..|before|] == before && key in members
    requires forall k :: from <= k < |before| ==> FinalEvent(before, k, from, members, associated, released)
    requires forall k :: |before| <= k < |log| ==>
               MemberEvent(log, k, |before|, Safe(associated, released, members[key]), released, members[key])
    ensures Unbroken(log, from) <==> Unbroken(before, from) && Unbroken(log, |before|)
    ensures Waits(log, from) <==> Waits(before, from) || Waits(log, |before|)
    ensures forall k :: from <= k < |log| ==> FinalEvent(log, k, from, members, associated, released)
  {
    PrefixItems(before, log);
    UnbrokenSplit(before, log, from);
    WaitsSplit(before, log, from);
    forall k | from <= k < |log| ensures FinalEvent(log, k, from, members, associated, released) {
      if k < |before| {
        assert FinalEvent(before, k, from, members, associated, released);
        var own :| own in members &&
          MemberEvent(before, k, from, Safe(associated, released, members[own]), released, members[own]);
        assert MemberEvent(log, k, from, Safe(associated, released, members[own]), released, members[own]);
      } else {
        EventFrom(log, k, from, |before|, Safe(associated, released, members[key]), released, members[key]);
      }
    }
  }

  /** What the first loop keeps, and its update by one job. */
  datatype Tally = Tally(
    members: map<PodRecord, Pod>, associated: map<PodRecord, set<int>>, released: set<int>, waiting: bool)
  {
    function Add(id: int, current: map<PodRecord, Pod>, freed: bool, wait: bool): Tally {
      Tally(members + current, Associate(associated, current.Keys, id), if freed then released + {id} else released,
            waiting || wait)
    }
  }

  /** What the first loop has established after the jobs `done`. */
  ghost predicate Phase(env: Environment, log: seq<Event>, from: nat, pods: seq<Pod>, done: seq<RegisteredJob>,
                        t: Tally)
  {
    && Gathered(env, pods, done, t.members) && Linked(env, done, t.associated)
    && Progress(env, log, from, done, t.released, t.waiting) && Unbroken(log, from)
  }

  lemma PhaseFirst(env: Environment, log: seq<Event>, pods: seq<Pod>, none: seq<RegisteredJob>)
    requires forall p :: p in pods ==> KeyOf(p) in env.snapshot && env.snapshot[KeyOf(p)] == p
    requires none == []
    ensures Phase(env, log, |log|, pods, none, Tally(ByKey(pods), map[], {}, false))
  {
    GatheredFirst(env, pods, none, ByKey(pods));
  }

  lemma GatheredFirst(env: Environment, pods: seq<Pod>, none: seq<RegisteredJob>, members: map<PodRecord, Pod>)
    requires forall p :: p in pods ==> KeyOf(p) in env.snapshot && env.snapshot[KeyOf(p)] == p
    requires none == [] && forall p :: p in pods ==> KeyOf(p) in members
    requires forall k :: k in members ==> members[k] in pods && KeyOf(members[k]) == k
    ensures Gathered(env, pods, none, members)
  {
  }

  lemma PhaseMore(env: Environment, before: seq<Event>, log: seq<Event>, from: nat, pods: seq<Pod>,
                  jobs: seq<RegisteredJob>, n: nat, t: Tally, current: map<PodRecord, Pod>, freed: bool, wait: bool)
    requires from <= |before| <= |log| && log[..|before|] == before && n < |jobs| && DistinctJobs(jobs)
    requires Phase(env, before, from, pods, jobs[..n], t)
    requires OwnReads(before, from, jobs[..n]) && Unbroken(log, |before|)
    requires forall k :: |before| <= k < |log| && log[k].ReadJob? ==> log[k].id == jobs[n].job.jobId
    requires MembersOf(env, jobs[n], current) && JobHandled(env, log, |before|, jobs[n])
    requires freed <==> Freed(env, log, |before|, jobs[n])
    requires wait <==> Awaited(env, log, |before|, jobs[n])
    ensures Phase(env, log, from, pods, jobs[..n + 1], t.Add(jobs[n].job.jobId, current, freed, wait))
  {
    assert jobs[..n + 1] == jobs[..n] + [jobs[n]];
    GatheredMore(env, pods, jobs[..n], t.members, jobs[n], current);
    LinkedMore(env, jobs[..n], t.associated, jobs[n], current);
    ProgressMore(env, before, log, from, jobs[..n], jobs[n], t.released, t.waiting, freed, wait);
    UnbrokenSplit(before, log, from);
  }

  /** What gathering the cached members gives. */
  lemma CachedMembers(env: Environment, j: RegisteredJob, current: map<PodRecord, Pod>)
    requires Plausible(env)
    requires forall k :: k in current ==> Member(env.cached, j.job.jobId, j.info, current[k]) && KeyOf(current[k]) == k
    requires forall p :: Member(env.cached, j.job.jobId, j.info, p) ==> KeyOf(p) in current
    ensures MembersOf(env, j, current)
    ensures Releasable(current) <==> ReleasableIn(env.cached, j.job.jobId, j.info)
    ensures Shortcut(env, j) <==> j.job.finished && forall k :: k in current ==> !current[k].finalizer
  {
    forall p | Member(env.cached, j.job.jobId, j.info, p) ensures current[KeyOf(p)] == p {
      assert Member(env.cached, j.job.jobId, j.info, current[KeyOf(p)]);
    }
    ReleasableMeans(env.cached, j.job.jobId, j.info, current);
  }

  function Owned(claims: seq<Claim>): (r: seq<Claim>)
    ensures forall c :: c in r <==> c in claims && c.owned
  {
    if claims == [] then []
    else if claims[0].owned then [claims[0]] + Owned(claims[1..])
    else Owned(claims[1..])
  }

  // ---------------------------------------------------------------- the whole pass

  ghost predicate Guarded(pods: seq<Pod>, jobs: seq<RegisteredJob>) {
    jobs == [] && exists p :: p in pods && (p.terminal || (p.deleting && p.node == ""))
  }

  /** Every indexed job the Pod is a member of counts as released. */
  ghost predicate AllFreed(env: Environment, log: seq<Event>, from: nat, jobs: seq<RegisteredJob>, p: Pod) {
    forall j {:trigger Freed(env, log, from, j)} :: j in jobs && Member(env.cached, j.job.jobId, j.info, p) ==>
      Freed(env, log, from, j)
  }

  /** A Pod of this scheduler that the pass is about has ended and holds the finalizer. */
  ghost predicate EndedHere(env: Environment, pods: seq<Pod>, jobs: seq<RegisteredJob>, p: Pod) {
    Concerns(env, pods, jobs, p) && p.ours && p.finalizer && (p.terminal || (p.deleting && p.node == ""))
  }

  /** What a pass without a failure has done, when its first loop ended at time `mid`. */
  ghost predicate PassDone(env: Environment, log: seq<Event>, from: nat, mid: nat, pods: seq<Pod>,
                           jobs: seq<RegisteredJob>)
    requires mid <= |log|
  {
    && (forall j {:trigger JobHandled(env, log[..mid], from, j)} :: j in jobs ==> JobHandled(env, log[..mid], from, j))
    && (forall p {:trigger Concerns(env, pods, jobs, p)} :: Concerns(env, pods, jobs, p) ==>
          MemberDone(log, mid, AllFreed(env, log[..mid], from, jobs, p), p))
  }

  /** A job no cached member needs is not released, a Pod was changed, or a labelled job is not released. */
  ghost predicate PassWaits(env: Environment, log: seq<Event>, from: nat, mid: nat, jobs: seq<RegisteredJob>)
    requires mid <= |log|
  {
    || (exists j {:trigger Awaited(env, log[..mid], from, j)} :: j in jobs && Awaited(env, log[..mid], from, j))
    || Waits(log, mid)
  }

  /** Why the claims of a Pod are looked up and deleted after the events `log`. */
  ghost predicate CleanupJustified(env: Environment, log: seq<Event>, mid: nat, from: nat, pods: seq<Pod>,
                                   jobs: seq<RegisteredJob>, memo: Option<int>, p: Pod)
    requires mid <= |log|
  {
    && p.ours && (p.terminal || (p.deleting && p.node == "")) && Concerns(env, pods, jobs, p)
    && AllFreed(env, log[..mid], from, jobs, p)
    && (jobs == [] ==> MemoCleared(log, from, memo))
    && (p.jobLabel > 0 ==> SawReleased(log, from, p.jobLabel) || FinishedLabel(env, jobs, p.jobLabel))
  }

  ghost predicate FinishedLabel(env: Environment, jobs: seq<RegisteredJob>, id: int) {
    exists j :: j in jobs && j.job.jobId == id && Shortcut(env, j)
  }

  /** Why a finalizer was removed after the events `log`: every indexed job the Pod is a member of was read live
      as absent or released in this pass; the cached `finished` flag is not enough for a Pod with the finalizer. */
  ghost predicate FinalizationJustified(env: Environment, log: seq<Event>, from: nat, jobs: seq<RegisteredJob>, p: Pod)
  {
    && p.finalizer && ClaimsIn(log, from, p)
    && (forall j :: j in jobs && Member(env.cached, j.job.jobId, j.info, p) ==> SawReleased(log, from, j.job.jobId))
  }

  /** What each event of the pass needs to have before it. */
  ghost predicate PassEvent(env: Environment, log: seq<Event>, k: nat, from: nat, mid: nat, pods: seq<Pod>,
                            jobs: seq<RegisteredJob>, memo: Option<int>)
    requires k < |log|
  {
    var e := log[k];
    && (e.Canceled? ==> k < mid && CancelGround(log[..k], from, jobs, e.cancel))
    && (Touches(e) ==> mid <= k && CleanupJustified(env, log[..k], mid, from, pods, jobs, memo, e.of))
    && (e.SentRemoval? ==> FinalizationJustified(env, log[..k], from, jobs, e.of))
    && (e.Synced? ==> && mid <= k && Concerns(env, pods, jobs, e.of) && e.of.ours && !e.of.gated
                      && !e.of.terminal && (e.of.deleting ==> e.of.node != ""))
    && (e.ReadJob? && mid <= k ==> e.id > 0 && forall j :: j in jobs && j.job.jobId == e.id ==>
                                                 !Freed(env, log[..mid], from, j))
  }

  lemma ReleaseFrom(env: Environment, l0: seq<Event>, l1: seq<Event>, from: nat, pods: seq<Pod>,
                    jobs: seq<RegisteredJob>, memo: Option<int>)
    requires from <= |l0| <= |l1| && l1[..|l0|] == l0 && OnlyReads(l0, from) && Unbroken(l0, from)
    requires forall k :: |l0| <= k < |l1| ==> !Touches(l1[k]) && !l1[k].Synced?
    requires forall k :: |l0| <= k < |l1| && l1[k].Canceled? ==> CancelGround(l1[..k], |l0|, jobs, l1[k].cancel)
    ensures Unbroken(l1, from) <==> Unbroken(l1, |l0|)
    ensures forall k :: from <= k < |l1| ==> PassEvent(env, l1, k, from, |l1|, pods, jobs, memo)
  {
    PrefixItems(l0, l1);
    UnbrokenSplit(l0, l1, from);
  }

  lemma PhaseFrom(env: Environment, l0: seq<Event>, l1: seq<Event>, from: nat, pods: seq<Pod>, jobs: seq<RegisteredJob>,
                  t: Tally)
    requires from <= |l0| <= |l1| && (jobs == [] || from == |l0|) && Unbroken(l1, from)
    requires Phase(env, l1, |l0|, pods, jobs, t)
    ensures Phase(env, l1, from, pods, jobs, t)
  {
    if jobs == [] {
      assert forall id :: !HasJob(jobs, id);
    }
  }

  /** The sets the loops keep decide exactly by the grounds. */
  lemma SafeMeans(env: Environment, log: seq<Event>, from: nat, jobs: seq<RegisteredJob>,
                  associated: map<PodRecord, set<int>>, released: set<int>, p: Pod)
    requires Linked(env, jobs, associated) && Counted(env, log, from, jobs, released) && DistinctJobs(jobs)
    requires KeyOf(p) in env.snapshot && env.snapshot[KeyOf(p)] == p
    ensures Safe(associated, released, p) <==> AllFreed(env, log, from, jobs, p)
  {
    if Safe(associated, released, p) {
      forall j | j in jobs && Member(env.cached, j.job.jobId, j.info, p) ensures Freed(env, log, from, j) {
        assert LinkedBy(env, jobs, j.job.jobId, p);
      }
    }
    if AllFreed(env, log, from, jobs, p) && KeyOf(p) in associated {
      forall id | id in associated[KeyOf(p)] ensures id in released {
        assert LinkedBy(env, jobs, id, env.snapshot[KeyOf(p)]);
        var j :| j in jobs && j.job.jobId == id && Member(env.cached, id, j.info, p);
        assert Freed(env, log, from, j);
      }
    }
  }

  /** A Pod with the finalizer rules out the cached shortcut for every job it is a member of. */
  lemma FinalizedJobs(env: Environment, mid: seq<Event>, log: seq<Event>, from: nat, jobs: seq<RegisteredJob>, p: Pod)
    requires |mid| <= |log| && log[..|mid|] == mid && p.finalizer && AllFreed(env, mid, from, jobs, p)
    ensures forall j :: j in jobs && Member(env.cached, j.job.jobId, j.info, p) ==> SawReleased(log, from, j.job.jobId)
  {
    PrefixItems(mid, log);
    forall j | j in jobs && Member(env.cached, j.job.jobId, j.info, p) ensures SawReleased(log, from, j.job.jobId) {
      assert Freed(env, mid, from, j);
      assert SawReleased(mid, from, j.job.jobId);
    }
  }

  /** An event of the second loop is one the pass may make. */
  lemma FinalizedPass(env: Environment, l1: seq<Event>, log: seq<Event>, k: nat, from: nat, pods: seq<Pod>,
                      jobs: seq<RegisteredJob>, memo: Option<int>, t: Tally)
    requires from <= |l1| <= k < |log| && log[..|l1|] == l1 && DistinctJobs(jobs)
    requires Guarded(pods, jobs) ==> MemoCleared(l1, from, memo)
    requires Phase(env, l1, from, pods, jobs, t)
    requires forall key :: key in t.members ==> KeyOf(t.members[key]) == key
    requires FinalEvent(log, k, |l1|, t.members, t.associated, t.released)
    ensures PassEvent(env, log, k, from, |l1|, pods, jobs, memo)
  {
    var key :| key in t.members &&
      MemberEvent(log, k, |l1|, Safe(t.associated, t.released, t.members[key]), t.released, t.members[key]);
    var p, before := t.members[key], log[..k];
    assert before[..|l1|] == l1 && Concerns(env, pods, jobs, t.members[key]);
    SafeMeans(env, l1, from, jobs, t.associated, t.released, p);
    if Touches(log[k]) {
      if p.jobLabel > 0 {
        LabelMeans(env, l1, before, from, jobs, t.released, p);
      }
      if jobs == [] {
        assert p in pods && Guarded(pods, jobs);
        PrefixItems(l1, before);
      }
      if log[k].SentRemoval? {
        FinalizedJobs(env, l1, before, from, jobs, p);
      }
    }
    if log[k].ReadJob? {
      forall j | j in jobs && j.job.jobId == log[k].id ensures !Freed(env, l1, from, j) {
      }
    }
  }

  lemma LabelMeans(env: Environment, l1: seq<Event>, log: seq<Event>, from: nat, jobs: seq<RegisteredJob>,
                   released: set<int>, p: Pod)
    requires from <= |l1| <= |log| && log[..|l1|] == l1 && Counted(env, l1, from, jobs, released)
    requires p.jobLabel in released || SawReleased(log, |l1|, p.jobLabel)
    ensures SawReleased(log, from, p.jobLabel) || FinishedLabel(env, jobs, p.jobLabel)
  {
    PrefixItems(l1, log);
    if p.jobLabel in released {
      assert HasJob(jobs, p.jobLabel);
      var j :| j in jobs && j.job.jobId == p.jobLabel;
      assert Freed(env, l1, from, j);
      SawSplit(l1, log, from, p.jobLabel);
    }
  }

  lemma FinalFrom(env: Environment, l1: seq<Event>, log: seq<Event>, from: nat, pods: seq<Pod>,
                  jobs: seq<RegisteredJob>, memo: Option<int>, t: Tally)
    requires from <= |l1| <= |log| && log[..|l1|] == l1 && DistinctJobs(jobs) && Plausible(env)
    requires Guarded(pods, jobs) ==> MemoCleared(l1, from, memo)
    requires Phase(env, l1, from, pods, jobs, t)
    requires forall k :: from <= k < |l1| ==> PassEvent(env, l1, k, from, |l1|, pods, jobs, memo)
    requires forall k :: |l1| <= k < |log| ==> FinalEvent(log, k, |l1|, t.members, t.associated, t.released)
    ensures forall k :: from <= k < |log| ==> PassEvent(env, log, k, from, |l1|, pods, jobs, memo)
    ensures Guarded(pods, jobs) ==> MemoCleared(log, from, memo)
  {
    PrefixItems(l1, log);
    forall key | key in t.members ensures KeyOf(t.members[key]) == key {
      assert KeyOf(env.snapshot[key]) == key;
    }
    forall k | from <= k < |log| ensures PassEvent(env, log, k, from, |l1|, pods, jobs, memo) {
      if k < |l1| {
        assert PassEvent(env, l1, k, from, |l1|, pods, jobs, memo);
      } else {
        FinalizedPass(env, l1, log, k, from, pods, jobs, memo, t);
      }
    }
  }

  lemma PassEnds(env: Environment, l1: seq<Event>, log: seq<Event>, from: nat, pods: seq<Pod>,
                 jobs: seq<RegisteredJob>, t: Tally)
    requires from <= |l1| <= |log| && log[..|l1|] == l1 && DistinctJobs(jobs) && Plausible(env)
    requires Phase(env, l1, from, pods, jobs, t)
    requires forall key :: key in t.members ==>
               MemberDone(log, |l1|, Safe(t.associated, t.released, t.members[key]), t.members[key])
    requires forall p :: p in pods ==> KeyOf(p) in env.snapshot && env.snapshot[KeyOf(p)] == p
    ensures PassDone(env, log, from, |l1|, pods, jobs)
    ensures t.waiting || Waits(log, |l1|) <==> PassWaits(env, log, from, |l1|, jobs)
    ensures !Waits(log, |l1|) ==>
              forall p :: EndedHere(env, pods, jobs, p) && AllFreed(env, l1, from, jobs, p) ==> Gone(log, |l1|, p)
  {
    forall p | Concerns(env, pods, jobs, p)
      ensures MemberDone(log, |l1|, AllFreed(env, l1, from, jobs, p), p)
    {
      assert t.members[KeyOf(p)] == p;
      SafeMeans(env, l1, from, jobs, t.associated, t.released, p);
    }
    if !Waits(log, |l1|) {
      forall p | EndedHere(env, pods, jobs, p) && AllFreed(env, l1, from, jobs, p) ensures Gone(log, |l1|, p) {
        assert MemberDone(log, |l1|, AllFreed(env, l1, from, jobs, p), p);
        DoneMeansGone(log, |l1|, p);
      }
    }
  }

  /** The second loop after the first. */
  lemma PassCloses(env: Environment, l1: seq<Event>, log: seq<Event>, from: nat, pods: seq<Pod>,
                   jobs: seq<RegisteredJob>, memo: Option<int>, t: Tally)
    requires from <= |l1| <= |log| && log[..|l1|] == l1 && DistinctJobs(jobs) && Plausible(env)
    requires Guarded(pods, jobs) ==> MemoCleared(l1, from, memo)
    requires Phase(env, l1, from, pods, jobs, t)
    requires forall p :: p in pods ==> KeyOf(p) in env.snapshot && env.snapshot[KeyOf(p)] == p
    requires forall k :: from <= k < |l1| ==> PassEvent(env, l1, k, from, |l1|, pods, jobs, memo)
    requires forall k :: |l1| <= k < |log| ==> FinalEvent(log, k, |l1|, t.members, t.associated, t.released)
    requires Unbroken(log, |l1|) ==> forall key :: key in t.members ==>
               MemberDone(log, |l1|, Safe(t.associated, t.released, t.members[key]), t.members[key])
    ensures forall k :: from <= k < |log| ==> PassEvent(env, log, k, from, |l1|, pods, jobs, memo)
    ensures Guarded(pods, jobs) ==> MemoCleared(log, from, memo)
    ensures Unbroken(log, from) <==> Unbroken(log, |l1|)
    ensures Unbroken(log, from) ==>
              PassDone(env, log, from, |l1|, pods, jobs) &&
              (t.waiting || Waits(log, |l1|) <==> PassWaits(env, log, from, |l1|, jobs))
    ensures Unbroken(log, from) && !Waits(log, |l1|) ==>
              forall p :: EndedHere(env, pods, jobs, p) && AllFreed(env, l1, from, jobs, p) ==> Gone(log, |l1|, p)
  {
    UnbrokenSplit(l1, log, from);
    FinalFrom(env, l1, log, from, pods, jobs, memo, t);
    if Unbroken(log, from) {
      PassEnds(env, l1, log, from, pods, jobs, t);
    }
  }

  lemma DoneMeansGone(log: seq<Event>, from: nat, p: Pod)
    requires MemberDone(log, from, true, p) && !Waits(log, from)
    requires p.ours && p.finalizer && (p.terminal || (p.deleting && p.node == ""))
    ensures Gone(log, from, p)
  {
    assert forall k :: from <= k < |log| ==> !WaitEvent(log[k]);
    assert CleanedIn(log, from, p);
    var a, b :| from <= a <= b <= |log| && Cleaned(log[..b], a, p);
    assert Gone(log[..b], a, p);
  }
}
