/** One lifecycle pass (internal/controller/registration/lifecycle.go:141-330, pod_sync.go:91-178), and what it
    achieves. */
module LifecyclePass {
  import opened Ordering
  import opened SlurmJob
  import opened Lifecycle
  import opened LifecycleLog
  import opened LifecycleGoals

  class Pass {
    const env: Environment
    var log: seq<Event>

    constructor (env: Environment)
      ensures this.env == env && log == []
    {
      this.env := env;
      log := [];
    }

    ghost predicate Valid() reads this {
      Plausible(env) && Honest(env, log)
    }

    method Note(e: Event)
      requires Valid() && HonestEvent(env, log, e)
      modifies this
      ensures Valid() && log == old(log) + [e]
    {
      HonestMore(env, log, e);
      log := log + [e];
    }

    /** liveJob: a record under another ID is an error. */
    method LiveJob(id: int) returns (answer: JobAnswer)
      requires Valid()
      modifies this
      ensures Valid() && log == old(log) + [ReadJob(id, answer)]
      ensures answer.Found? ==> answer.raw.jobId == id
    {
      answer := env.job(|log|, id);
      if answer.Found? && answer.raw.jobId != id {
        answer := Unreadable;
      }
      Note(ReadJob(id, answer));
    }

    /** A live read and whether it shows the job released; a record that does not decode is an error. */
    method LiveReleased(id: int) returns (released: bool, ok: bool)
      requires Valid()
      modifies this
      ensures Valid() && |old(log)| < |log| && log[..|old(log)|] == old(log)
      ensures log[|old(log)|].ReadJob? && log[|old(log)|].id == id
      ensures released <==> ShowsReleased(log[|old(log)|], id)
      ensures ok <==> Unbroken(log, |old(log)|)
      ensures (released ==> ok) && |log| == |old(log)| + 1
    {
      ghost var from := |log|;
      var answer := LiveJob(id);
      assert log[from] == ReadJob(id, answer);
      released := Released(answer);
      ok := !answer.Unreadable? && (answer.Found? ==> FromJobInfo(answer.raw).Ok?);
    }

    method LiveMembersReleasable(id: int, info: Ownership) returns (releasable: bool, ok: bool)
      requires Valid()
      modifies this
      ensures Valid() && (releasable ==> ok)
      ensures log == old(log) + [if ok then ReadMembers(id, info, releasable) else Failure(MembersUnreadable(id, info))]
    {
      var view := env.live(|log|);
      var members := ComponentMembers(view, id, info);
      if members.Err? {
        Note(Failure(MembersUnreadable(id, info)));
        return false, false;
      }
      releasable, ok := Releasable(members.value), true;
      assert Coherent(env.live(|log|));
      ReleasableMeans(view, id, info, members.value);
      Note(ReadMembers(id, info, releasable));
    }

    method SiblingReleasable(raw: RawJob) returns (releasable: bool, ok: bool)
      requires Valid() && Shown(log, raw)
      modifies this
      ensures Valid() && |log| == |old(log)| + 1 && log[..|old(log)|] == old(log)
      ensures if ok then raw.comment.Some? && log[|old(log)|] == ReadMembers(raw.jobId, raw.comment.value, releasable)
              else log[|old(log)|].Failure? && !releasable
    {
      var sibling := RegisteredJobFromInfo(raw);
      if sibling.Err? {
        Note(Failure(Malformed(raw)));
        return false, false;
      }
      releasable, ok := LiveMembersReleasable(sibling.value.job.jobId, sibling.value.info);
    }

    /** Every live record that names the heterogeneous job, cached or not, must be releasable. */
    method SiblingsReleasable(het: int) returns (releasable: bool, ok: bool)
      requires Valid() && het != 0
      modifies this
      ensures Valid() && |old(log)| < |log| && log[..|old(log)|] == old(log)
      ensures forall k :: |old(log)| <= k < |log| ==> log[k].ReadList? || log[k].ReadMembers? || log[k].Failure?
      ensures ok <==> Unbroken(log, |old(log)|)
      ensures releasable ==> ok && SiblingsSeen(log, |old(log)|, het)
      ensures ok && !releasable ==> SiblingHolds(log, |old(log)|, het)
    {
      ghost var from := |log|;
      var all := env.list(|log|);
      if all.Err? {
        Note(Failure(ListFailed));
        assert Broken(log[from]);
        return false, false;
      }
      var jobs := all.value;
      Note(ReadList(jobs));
      for n := 0 to |jobs|
        invariant Valid() && from < |log| && log[..from] == old(log) && log[from] == ReadList(jobs)
        invariant forall k :: from <= k < |log| ==> log[k].ReadList? || log[k].ReadMembers?
        invariant AllSeen(log, from, jobs[..n], het)
      {
        assert jobs[..n + 1] == jobs[..n] + [jobs[n]];
        if NamesHet(jobs[n], het) {
          ghost var before := log;
          assert log[from].ReadList? && jobs[n] in log[from].jobs;
          releasable, ok := SiblingReleasable(jobs[n]);
          PrefixItems(before, log);
          if !releasable {
            assert log[|log| - 1] == log[|before|];
            return;
          }
          AllSeenMore(before, log, from, jobs, n, het);
        }
      }
      assert jobs[..|jobs|] == jobs;
      return true, true;
    }

    /** The checks of releaseComponent up to its cancel. */
    method CheckRelease(cached: RegisteredJob) returns (verdict: Verdict)
      requires Valid()
      modifies this
      ensures Valid() && |old(log)| < |log| && log[..|old(log)|] == old(log)
      ensures OnlyReads(log, |old(log)|) && (verdict == Failed <==> !Unbroken(log, |old(log)|))
      ensures log[|old(log)|].ReadJob? && log[|old(log)|].id == cached.job.jobId
      ensures forall k :: |old(log)| < k < |log| ==> !log[k].ReadJob?
      ensures verdict == Settled(true) <==> ShowsReleased(log[|old(log)|], cached.job.jobId)
      ensures verdict.MustCancel? ==> CancelJustified(log, |old(log)|, cached, verdict.cancel)
      ensures verdict == Settled(false) ==> Held(log, |old(log)|, cached)
    {
      ghost var from := |log|;
      var id := cached.job.jobId;
      var answer := LiveJob(id);
      assert log[from] == ReadJob(id, answer);
      if !answer.Found? {
        return if answer.Absent? then Settled(true) else Failed;
      }
      var raw := answer.raw;
      assert Shown(log, raw);
      var decoded := FromJobInfo(raw);
      if decoded.Err? {
        return Failed;
      }
      var live := decoded.value;
      if live.finished {
        return Settled(Released(answer));
      }
      if || raw.comment != Some(cached.info)
         || live.AllocationID() != cached.job.AllocationID() || live.hetJobOffset != cached.job.hetJobOffset
      {
        Note(Failure(OwnershipChanged(raw, cached)));
        assert Broken(log[from + 1]);
        return Failed;
      }
      verdict := CheckMembers(cached, live);
    }

    /** The members, and the siblings that a cancel would end too, must be releasable. */
    method CheckMembers(cached: RegisteredJob, live: ExternalJob) returns (verdict: Verdict)
      requires Valid() && |log| > 0 && log[|log| - 1].ReadJob? && log[|log| - 1].id == cached.job.jobId
      requires log[|log| - 1].answer.Found? && log[|log| - 1].answer.raw.jobId == cached.job.jobId
      requires FromJobInfo(log[|log| - 1].answer.raw) == Ok(live)
      requires StillOurs(log[|log| - 1].answer.raw, cached)
      modifies this
      ensures Valid() && |old(log)| < |log| && log[..|old(log)|] == old(log)
      ensures OnlyReads(log, |old(log)| - 1) && (verdict == Failed <==> !Unbroken(log, |old(log)| - 1))
      ensures forall k :: |old(log)| <= k < |log| ==> !log[k].ReadJob?
      ensures verdict != Settled(true)
      ensures verdict.MustCancel? ==> CancelJustified(log, |old(log)| - 1, cached, verdict.cancel)
      ensures verdict == Settled(false) ==> Held(log, |old(log)| - 1, cached)
    {
      ghost var from := |log| - 1;
      ghost var start := log;
      var releasable, read := LiveMembersReleasable(cached.job.jobId, cached.info);
      assert log[from] == start[from] && !Broken(start[from]);
      UnbrokenMore(start, from, log[from + 1]);
      if !releasable {
        return if read then Settled(false) else Failed;
      }
      assert log[from + 1] == ReadMembers(cached.job.jobId, cached.info, true);
      if live.hetJobId != 0 && (live.pending || live.hetJobOffset == 0) {
        ghost var before := log;
        releasable, read := SiblingsReleasable(live.hetJobId);
        assert forall k :: 0 <= k < |before| ==> log[k] == before[k];
        if !releasable {
          return if read then Settled(false) else Failed;
        }
        assert SiblingsSeen(log, from, live.hetJobId);
      }
      return MustCancel(
          if live.hetJobId != 0 && !live.pending then OneComponent(live.hetJobId, live.hetJobOffset)
          else WholeAllocation(live.AllocationID()));
    }

    /** releaseComponent: true only after a live read saw the job absent or released; a cancel comes
        after the checks that justify it. An acknowledged cancel is not proof of release. */
    method ReleaseComponent(cached: RegisteredJob) returns (released: bool, ok: bool)
      requires Valid()
      modifies this
      ensures Valid() && |old(log)| < |log| && log[..|old(log)|] == old(log)
      ensures ok <==> Unbroken(log, |old(log)|)
      ensures released <==> ok && SawReleased(log, |old(log)|, cached.job.jobId)
      ensures ok ==> Turned(log, |old(log)|, cached)
      ensures forall k :: |old(log)| <= k < |log| ==>
                !Touches(log[k]) && !log[k].Synced? && (log[k].ReadJob? ==> log[k].id == cached.job.jobId)
      ensures forall k :: |old(log)| <= k < |log| && log[k].Canceled? ==>
                CancelJustified(log[..k], |old(log)|, cached, log[k].cancel)
    {
      ghost var from := |log|;
      var verdict := CheckRelease(cached);
      match verdict {
        case Settled(done) => return done, true;
        case Failed => return false, false;
        case MustCancel(cancel) =>
          ghost var checked := log;
          released, ok := EndJob(cached.job.jobId, cancel);
          PrefixItems(checked, log);
          CancelStands(checked, log, from, cached, cancel);
          UnbrokenSplit(checked, log, from);
          SawSplit(checked, log, from, cached.job.jobId);
      }
    }

    /** Cancel, and read again: the answer to the cancel says nothing about the nodes. */
    method EndJob(id: int, cancel: Cancel) returns (released: bool, ok: bool)
      requires Valid()
      modifies this
      ensures Valid() && |old(log)| < |log| && log[..|old(log)|] == old(log)
      ensures log[|old(log)|].Canceled? && log[|old(log)|].cancel == cancel
      ensures forall k :: |old(log)| < k < |log| ==> log[k].ReadJob? && log[k].id == id
      ensures ok <==> Unbroken(log, |old(log)|)
      ensures released <==> SawReleased(log, |old(log)|, id)
      ensures released ==> ok
    {
      ghost var from := |log|;
      var acked := env.acked(|log|);
      Note(Canceled(cancel, acked));
      ghost var sent := log;
      if !acked {
        assert Broken(log[from]);
        return false, false;
      }
      released, ok := LiveReleased(id);
      PrefixItems(sent, log);
      assert log[from] == Canceled(cancel, true);
    }

    method DeleteClaims(p: Pod, extended: bool, claims: seq<Claim>) returns (ok: bool)
      requires Valid() && HonestEvent(env, log, ReadClaims(p, extended, claims))
      modifies this
      ensures Valid() && |old(log)| < |log| && log[..|old(log)|] == old(log)
      ensures log[|old(log)|] == ReadClaims(p, extended, claims)
      ensures forall k :: |old(log)| < k < |log| ==> (log[k].DeletedClaim? && log[k].of == p) || log[k].Failure?
      ensures ok <==> Unbroken(log, |old(log)|)
      ensures ok ==> forall c :: c in claims ==> DeletedClaim(p, c) in log[|old(log)|..]
    {
      ghost var from := |log|;
      Note(ReadClaims(p, extended, claims));
      for n := 0 to |claims|
        invariant Valid() && from < |log| && log[..from] == old(log) && log[from] == ReadClaims(p, extended, claims)
        invariant forall k :: from < k < |log| ==> log[k].DeletedClaim? && log[k].of == p
        invariant forall m :: 0 <= m < n ==> DeletedClaim(p, claims[m]) in log[from..]
      {
        ghost var before := log;
        if env.deleted(|log|, claims[n]).DeleteFailed? {
          Note(Failure(DeletionFailed(claims[n])));
          assert Broken(log[|before|]);
          return false;
        }
        assert log[from].ReadClaims? && log[from].of == p && claims[n] in log[from].claims;
        Note(DeletedClaim(p, claims[n]));
        assert log[from..] == before[from..] + [DeletedClaim(p, claims[n])];
      }
      return true;
    }

    /** Delete the claims labelled with the Pod that it owns, and then the one its status names. */
    method DeletePodClaims(pod: Pod) returns (ok: bool)
      requires Valid()
      modifies this
      ensures Valid() && |old(log)| < |log| && log[..|old(log)|] == old(log)
      ensures forall k :: |old(log)| <= k < |log| ==> About(log[k], pod) && !log[k].SentRemoval?
      ensures ok <==> Unbroken(log, |old(log)|)
      ensures ok ==> ClaimsDeleted(log, |old(log)|, pod)
    {
      ghost var from := |log|;
      var claims := env.claims(|log|, pod);
      if claims.Err? {
        Note(Failure(ClaimsFailed(pod)));
        assert Broken(log[from]);
        return false;
      }
      ok := DeleteClaims(pod, false, Owned(claims.value));
      if !ok {
        return;
      }
      ghost var before := log;
      var extended := env.extended(|log|, pod);
      if extended.Err? {
        Note(Failure(ClaimsFailed(pod)));
        UnbrokenMore(before, from, Failure(ClaimsFailed(pod)));
        PrefixItems(before, log);
        return false;
      }
      ok := DeleteClaims(pod, true, extended.value);
      PrefixItems(before, log);
      assert log[from..] == before[from..] + log[|before|..];
      assert log[from] == before[from] && log[|before|].ReadClaims?;
    }

    /** The finalizer goes last, and only after every claim found for the Pod is gone. */
    method CleanUp(pod: Pod) returns (ok: bool)
      requires Valid()
      modifies this
      ensures Valid() && |old(log)| < |log| && log[..|old(log)|] == old(log)
      ensures forall k :: |old(log)| <= k < |log| ==> About(log[k], pod)
      ensures forall k :: |old(log)| <= k < |log| && log[k].SentRemoval? ==>
                pod.finalizer && ClaimsDeleted(log[..k], |old(log)|, pod)
      ensures ok <==> Unbroken(log, |old(log)|)
      ensures ok ==> ClaimsDeleted(log, |old(log)|, pod) && (pod.finalizer ==> Gone(log, |old(log)|, pod))
    {
      ghost var from := |log|;
      ok := DeletePodClaims(pod);
      if !ok || !pod.finalizer {
        return;
      }
      ghost var before := log;
      var patch := env.patched(|log|);
      Note(SentRemoval(pod, patch));
      UnbrokenMore(before, from, SentRemoval(pod, patch));
      PrefixItems(before, log);
      assert log[..|before|] == before && log[|before|] == SentRemoval(pod, patch);
      ClaimsLater(before, log, from, pod);
      ok := !patch.PatchFailed?;
    }

    /** prepareTerminalPod: only from the version the pass decided on. */
    method PrepareTerminalPod(expected: Pod) returns (ok: bool)
      requires Valid() && KeyOf(expected) in env.snapshot && env.snapshot[KeyOf(expected)] == expected
      modifies this
      ensures Valid() && |old(log)| < |log| && log[..|old(log)|] == old(log)
      ensures forall k :: |old(log)| <= k < |log| ==>
                About(log[k], expected) && (Touches(log[k]) ==> ReadyForCleanup(expected))
      ensures forall k :: |old(log)| <= k < |log| && log[k].SentRemoval? ==>
                expected.finalizer && ClaimsDeleted(log[..k], |old(log)|, expected)
      ensures ok <==> Unbroken(log, |old(log)|)
      ensures ok && ReadyForCleanup(expected) ==> Cleaned(log, |old(log)|, expected)
    {
      ghost var from := |log|;
      var read := env.pod(|log|, expected.ref);
      if read.NotFound? {
        Note(ReadPod(expected, false));
        assert log[from] == ReadPod(expected, false);
        return true;
      }
      if !SameVersion(read, expected) {
        Note(Failure(PodFailed(expected)));
        assert Broken(log[from]);
        return false;
      }
      Note(ReadPod(expected, true));
      ghost var found := log;
      assert read.pod == env.snapshot[KeyOf(expected)];
      if !ReadyForCleanup(read.pod) {
        return true;
      }
      ok := CleanUp(read.pod);
      PrefixItems(found, log);
      CleanUpEarlier(found, log, from, expected);
    }

    /** One turn of reconcileLifecycle's first loop. */
    method ReleaseJob(job: RegisteredJob) returns (current: map<PodRecord, Pod>, freed: bool, waiting: bool, ok: bool)
      requires Valid()
      modifies this
      ensures Valid() && |old(log)| <= |log| && log[..|old(log)|] == old(log)
      ensures ok <==> Unbroken(log, |old(log)|)
      ensures ok ==> MembersOf(env, job, current) && JobHandled(env, log, |old(log)|, job)
      ensures ok ==> (freed <==> Freed(env, log, |old(log)|, job))
      ensures ok ==> (waiting <==> Awaited(env, log, |old(log)|, job))
      ensures NeedsRelease(env, job) || forall k :: |old(log)| <= k < |log| ==> log[k].Failure?
      ensures forall k :: |old(log)| <= k < |log| ==>
                !Touches(log[k]) && !log[k].Synced? && (log[k].ReadJob? ==> log[k].id == job.job.jobId)
      ensures forall k :: |old(log)| <= k < |log| && log[k].Canceled? ==>
                CancelJustified(log[..k], |old(log)|, job, log[k].cancel)
    {
      ghost var from := |log|;
      var read := ComponentMembers(env.cached, job.job.jobId, job.info);
      if read.Err? {
        Note(Failure(CachedUnreadable(job.job.jobId, job.info)));
        assert Broken(log[from]);
        return map[], false, false, false;
      }
      current := read.value;
      CachedMembers(env, job, current);
      if job.job.finished && (forall k :: k in current ==> !current[k].finalizer) {
        return current, true, false, true;
      }
      if !Releasable(current) && !job.job.finished {
        return current, false, false, true;
      }
      freed, ok := ReleaseComponent(job);
      assert ok ==> Turned(log[..|log|], from, job) by { assert log[..|log|] == log; }
      waiting := !freed && Releasable(current);
    }

    /** ReleaseJob for the next job, with what the first loop keeps. */
    method ReleaseNext(ghost from: nat, ghost pods: seq<Pod>, jobs: seq<RegisteredJob>, n: nat, t: Tally)
      returns (more: Tally, ok: bool)
      requires Valid() && from <= |log| && n < |jobs| && DistinctJobs(jobs)
      requires Phase(env, log, from, pods, jobs[..n], t) && ReleaseEvents(log, from, jobs[..n], jobs)
      modifies this
      ensures Valid() && |old(log)| <= |log| && log[..|old(log)|] == old(log)
      ensures ReleaseEvents(log, from, jobs[..n + 1], jobs) && (ok <==> Unbroken(log, from))
      ensures ok ==> Phase(env, log, from, pods, jobs[..n + 1], more)
    {
      var current, freed, wait, read := ReleaseJob(jobs[n]);
      ReleaseEventsMore(old(log), log, from, jobs, n);
      if !read {
        return t, false;
      }
      PhaseMore(env, old(log), log, from, pods, jobs, n, t, current, freed, wait);
      return t.Add(jobs[n].job.jobId, current, freed, wait), true;
    }

    /** The first loop of reconcileLifecycle: release every component that may be released, and record
        which jobs each Pod is associated with. */
    method ReleaseJobs(pods: seq<Pod>, jobs: seq<RegisteredJob>) returns (t: Tally, ok: bool)
      requires Valid() && forall p :: p in pods ==> KeyOf(p) in env.snapshot && env.snapshot[KeyOf(p)] == p
      requires DistinctJobs(jobs)
      modifies this
      ensures Valid() && |old(log)| <= |log| && log[..|old(log)|] == old(log)
      ensures ok <==> Unbroken(log, |old(log)|)
      ensures ok ==> Phase(env, log, |old(log)|, pods, jobs, t)
      ensures forall k :: |old(log)| <= k < |log| ==> !Touches(log[k]) && !log[k].Synced?
      ensures forall k :: |old(log)| <= k < |log| && log[k].Canceled? ==>
                CancelGround(log[..k], |old(log)|, jobs, log[k].cancel)
    {
      ghost var from := |log|;
      t, ok := Tally(ByKey(pods), map[], {}, false), true;
      PhaseFirst(env, log, pods, jobs[..0]);
      for n := 0 to |jobs|
        invariant Valid() && from <= |log| && log[..from] == old(log) && ok
        invariant Phase(env, log, from, pods, jobs[..n], t)
        invariant ReleaseEvents(log, from, jobs[..n], jobs)
      {
        t, ok := ReleaseNext(from, pods, jobs, n, t);
        if !ok {
          return;
        }
      }
      assert jobs[..|jobs|] == jobs;
    }

    /** One turn of reconcileLifecycle's second loop. */
    method FinalizeMember(pod: Pod, jobs: set<int>, released: set<int>) returns (waiting: bool, ok: bool)
      requires Valid() && KeyOf(pod) in env.snapshot && env.snapshot[KeyOf(pod)] == pod
      modifies this
      ensures Valid() && |old(log)| <= |log| && log[..|old(log)|] == old(log)
      ensures ok <==> Unbroken(log, |old(log)|)
      ensures ok ==> MemberDone(log, |old(log)|, jobs <= released, pod) && (waiting <==> Waits(log, |old(log)|))
      ensures forall k :: |old(log)| <= k < |log| ==>
                MemberEvent(log, k, |old(log)|, jobs <= released, released, pod)
    {
      ghost var from := |log|;
      waiting, ok := false, true;
      if !pod.ours {
        return;
      }
      if !ReadyForCleanup(pod) {
        if !pod.gated {
          waiting, ok := SyncPod(pod);
        }
        return;
      }
      if !(jobs <= released) {
        return;
      }
      if pod.jobLabel > 0 && pod.jobLabel !in released {
        var done, read := LiveReleased(pod.jobLabel);
        if !done {
          assert read ==> WaitEvent(log[from]);
          return read, read;
        }
        assert |log| == from + 1;
      }
      ghost var before := log;
      ok := PrepareTerminalPod(pod);
      CleanupAfter(before, log, from, released, pod);
    }

    method SyncPod(pod: Pod) returns (waiting: bool, ok: bool)
      requires Valid()
      modifies this
      ensures Valid() && |log| == |old(log)| + 1 && log[..|old(log)|] == old(log)
      ensures log[|old(log)|] == if ok then Synced(pod, waiting) else Failure(PodSyncFailed(pod))
    {
      var answer := env.sync(|log|, pod);
      if answer.SyncFailed? {
        Note(Failure(PodSyncFailed(pod)));
        return false, false;
      }
      Note(Synced(pod, answer.Changed?));
      return answer.Changed?, true;
    }

    method FinalizeMembers(members: map<PodRecord, Pod>, associated: map<PodRecord, set<int>>, released: set<int>)
      returns (waiting: bool, ok: bool)
      requires Valid() && forall k :: k in members ==> k in env.snapshot && members[k] == env.snapshot[k]
      modifies this
      ensures Valid() && |old(log)| <= |log| && log[..|old(log)|] == old(log)
      ensures ok <==> Unbroken(log, |old(log)|)
      ensures ok ==> (waiting <==> Waits(log, |old(log)|))
      ensures ok ==> forall key :: key in members ==>
                MemberDone(log, |old(log)|, Safe(associated, released, members[key]), members[key])
      ensures forall k :: |old(log)| <= k < |log| ==>
                FinalEvent(log, k, |old(log)|, members, associated, released)
    {
      ghost var from := |log|;
      waiting, ok := false, true;
      var rest := members.Keys;
      while rest != {}
        invariant Valid() && from <= |log| && log[..from] == old(log) && rest <= members.Keys && ok
        invariant Unbroken(log, from) && (waiting <==> Waits(log, from))
        invariant forall key :: key in members && key !in rest ==>
                    MemberDone(log, from, Safe(associated, released, members[key]), members[key])
        invariant forall k :: from <= k < |log| ==> FinalEvent(log, k, from, members, associated, released)
      {
        var key :| key in rest;
        rest := rest - {key};
        ghost var before := log;
        var jobs := if key in associated then associated[key] else {};
        assert KeyOf(env.snapshot[key]) == key;
        assert jobs <= released <==> Safe(associated, released, members[key]);
        var wait, done := FinalizeMember(members[key], jobs, released);
        FinalStep(before, log, from, members, associated, released, key);
        if !done {
          return false, false;
        }
        forall other | other in members && other !in rest
          ensures MemberDone(log, from, Safe(associated, released, members[other]), members[other])
        {
          if other == key {
            DoneFrom(log, from, |before|, Safe(associated, released, members[key]), members[key]);
          } else {
            DoneStays(before, log, from, Safe(associated, released, members[other]), members[other]);
          }
        }
        waiting := waiting || wait;
      }
    }

    /** The memo check that opens reconcileLifecycle: a recent submission the index does not show yet must be
        read live as released, and one without a known ID must expire. */
    method MemoAllowsCleanup(memo: Option<int>) returns (proceed: bool, ok: bool)
      requires Valid()
      modifies this
      ensures Valid() && |old(log)| <= |log| && log[..|old(log)|] == old(log)
      ensures OnlyReads(log, |old(log)|) && (ok <==> Unbroken(log, |old(log)|))
      ensures ok ==> (proceed <==> MemoCleared(log, |old(log)|, memo))
    {
      if memo.None? {
        return true, true;
      }
      if memo.value == 0 {
        return false, true;
      }
      proceed, ok := LiveReleased(memo.value);
    }

    /** reconcileLifecycle, whose first loop ends at time `mid`: without a failure every job has had its release
        and every Pod its cleanup or sync, and the pass asks to be repeated exactly when something is left to wait
        for; whatever it changed is justified by what the pass itself read before. */
    method ReconcileLifecycle(memo: Option<int>, pods: seq<Pod>, jobs: seq<RegisteredJob>)
      returns (waiting: bool, ok: bool, ghost mid: nat)
      requires Valid() && forall p :: p in pods ==> KeyOf(p) in env.snapshot && env.snapshot[KeyOf(p)] == p
      requires DistinctJobs(jobs)
      modifies this
      ensures Valid() && |old(log)| <= mid <= |log| && log[..|old(log)|] == old(log)
      ensures ok <==> Unbroken(log, |old(log)|)
      ensures ok && Guarded(pods, jobs) && !MemoCleared(log, |old(log)|, memo) ==> waiting && OnlyReads(log, |old(log)|)
      ensures ok && !(Guarded(pods, jobs) && !MemoCleared(log, |old(log)|, memo)) ==>
                && PassDone(env, log, |old(log)|, mid, pods, jobs)
                && (waiting <==> PassWaits(env, log, |old(log)|, mid, jobs))
      ensures ok && !waiting ==>
                forall p :: EndedHere(env, pods, jobs, p) && AllFreed(env, log[..mid], |old(log)|, jobs, p) ==>
                  Gone(log, mid, p)
      ensures forall k :: |old(log)| <= k < |log| ==>
                PassEvent(env, log, k, |old(log)|, mid, pods, jobs, memo)
    {
      ghost var from := |log|;
      mid := from;
      if |jobs| == 0 && exists p :: p in pods && ReadyForCleanup(p) {
        var proceed, read := MemoAllowsCleanup(memo);
        if !read || !proceed {
          return read, read, |log|;
        }
      }
      ghost var l0 := log;
      var t, done := ReleaseJobs(pods, jobs);
      ghost var l1 := log;
      mid := |log|;
      ReleaseFrom(env, l0, l1, from, pods, jobs, memo);
      if !done {
        return false, false, mid;
      }
      PhaseFrom(env, l0, l1, from, pods, jobs, t);
      waiting, ok := FinalizeMembers(t.members, t.associated, t.released);
      waiting := waiting || t.waiting;
      PassCloses(env, l1, log, from, pods, jobs, memo, t);
    }
  }

  /** A pass that neither failed nor asks to be repeated has finalized every ended Pod of the scheduler none of whose
      jobs is still needed: each of its jobs was seen released, or has only releasable members in the cache. */
  lemma DuePodFinalized(env: Environment, log: seq<Event>, from: nat, mid: nat, pods: seq<Pod>,
                        jobs: seq<RegisteredJob>, p: Pod)
    requires from <= mid <= |log| && PassDone(env, log, from, mid, pods, jobs)
    requires !PassWaits(env, log, from, mid, jobs)
    requires p in pods || exists j :: j in jobs && Member(env.cached, j.job.jobId, j.info, p)
    requires p.ours && p.finalizer && (p.terminal || (p.deleting && p.node == ""))
    requires forall j :: j in jobs && Member(env.cached, j.job.jobId, j.info, p) ==>
               ReleasableIn(env.cached, j.job.jobId, j.info) || SawReleased(log[..mid], from, j.job.jobId)
    ensures exists k :: mid <= k < |log| &&
              (log[k] == ReadPod(p, false) || log[k] == SentRemoval(p, Patched) || log[k] == SentRemoval(p, PodGone))
  {
    forall j | j in jobs && Member(env.cached, j.job.jobId, j.info, p) ensures Freed(env, log[..mid], from, j) {
      assert !Awaited(env, log[..mid], from, j);
    }
    assert Concerns(env, pods, jobs, p);
    assert MemberDone(log, mid, AllFreed(env, log[..mid], from, jobs, p), p);
    DoneMeansGone(log, mid, p);
  }

  /** The component's members, and those of every record that names its allocation, are releasable in every live
      view that the pass may meet. */
  ghost predicate NobodyNeeds(env: Environment, from: nat, to: nat, j: RegisteredJob) {
    && (forall t {:trigger env.live(t)} :: from <= t < to ==> ReleasableIn(env.live(t), j.job.jobId, j.info))
    && (forall t, u, raw {:trigger env.live(t), raw in env.list(u).value} ::
          from <= t < to && from <= u < to && env.list(u).Ok? && raw in env.list(u).value &&
          PartOf(raw, j.job.AllocationID()) && raw.comment.Some? ==>
            ReleasableIn(env.live(t), raw.jobId, raw.comment.value))
  }

  /** A component nobody needs is canceled, unless its own live read shows that it has ended. */
  lemma CancelHappens(env: Environment, log: seq<Event>, from: nat, mid: nat, pods: seq<Pod>,
                      jobs: seq<RegisteredJob>, j: RegisteredJob)
    requires from <= mid <= |log| && Honest(env, log) && PassDone(env, log, from, mid, pods, jobs)
    requires j in jobs && !j.job.finished && ReleasableIn(env.cached, j.job.jobId, j.info)
    requires NobodyNeeds(env, from, mid, j)
    ensures || (exists k, start :: from <= start < k < mid && log[k].Canceled? &&
                  CancelJustified(log[..k], start, j, log[k].cancel))
            || (exists k :: from <= k < mid && ShowsEnded(log[k], j.job.jobId))
  {
    assert JobHandled(env, log[..mid], from, j);
    var a, b :| from <= a <= b <= mid && Turned(log[..mid][..b], a, j);
    assert log[..mid][..b] == log[..b];
    if Held(log[..b], a, j) {
      HeldMeansNeeded(env, log, from, a, b, j);
    } else if CanceledFor(log[..b], a, j) {
      var k :| a <= k < b && log[..b][k].Canceled? &&
        CancelJustified(log[..b][..k], a, j, log[..b][k].cancel);
      assert log[..b][..k] == log[..k];
    }
  }

  /** The job was read live as absent or finished. */
  ghost predicate ShowsEnded(e: Event, id: int) {
    && e.ReadJob? && e.id == id
    && (|| e.answer.Absent?
        || (e.answer.Found? && FromJobInfo(e.answer.raw).Ok? && FromJobInfo(e.answer.raw).value.finished))
  }

  lemma HeldMeansNeeded(env: Environment, log: seq<Event>, from: nat, a: nat, b: nat, j: RegisteredJob)
    requires from <= a <= b <= |log| && Honest(env, log) && NobodyNeeds(env, from, b, j) && Held(log[..b], a, j)
    ensures ShowsEnded(log[a], j.job.jobId)
  {
    assert log[..b][b - 1] == log[b - 1];
    assert HonestEvent(env, log[..b - 1], log[b - 1]);
    assert ReleasableIn(env.live(b - 1), j.job.jobId, j.info);
    forall k, raw | && a <= k < b - 1 && log[k].ReadList? && raw in log[k].jobs && raw.comment.Some?
                    && PartOf(raw, j.job.AllocationID())
      ensures ReleasableIn(env.live(b - 1), raw.jobId, raw.comment.value)
    {
      assert HonestEvent(env, log[..k], log[k]);
      assert raw in env.list(k).value;
    }
  }

  // ---------------------------------------------------------------- what a cancel ends

  /** Slurm's job table and the live view of Pods while one release runs. */
  datatype World = World(jobs: map<int, RawJob>, view: View)

  /** Slurm's own consistency: records decode, a heterogeneous job has one component per offset, and its leader
      belongs to it. */
  ghost predicate WellFormed(w: World) {
    && (forall id :: id in w.jobs ==> w.jobs[id].jobId == id && FromJobInfo(w.jobs[id]).Ok?)
    && (forall a, b :: a in w.jobs && b in w.jobs && Slot(w, a) == Slot(w, b) && Slot(w, a).0 != 0 ==> a == b)
    && (forall a, b :: a in w.jobs && b in w.jobs && Decoded(w, a).hetJobId == b ==> Decoded(w, b).hetJobId == b)
  }

  function Decoded(w: World, id: int): ExternalJob
    requires id in w.jobs
  {
    match FromJobInfo(w.jobs[id])
    case Ok(job) => job
    case Err(_) => ExternalJob(0, 0, 0, false, false, false)
  }

  function Slot(w: World, id: int): (int, int)
    requires id in w.jobs
  {
    (Decoded(w, id).hetJobId, Decoded(w, id).hetJobOffset)
  }

  /** TerminateJob ends the whole allocation; TerminateHetJobComponent ends one component, or everything at
      offset zero. */
  predicate Ends(w: World, cancel: Cancel, id: int)
    requires id in w.jobs
  {
    match cancel
    case WholeAllocation(alloc) => Decoded(w, id).AllocationID() == alloc
    case OneComponent(het, offset) =>
      Decoded(w, id).hetJobId == het && (offset == 0 || Decoded(w, id).hetJobOffset == offset)
  }

  ghost predicate Steady(env: Environment, w: World, from: nat, to: nat) {
    && (forall t :: from <= t < to ==> env.live(t) == w.view)
    && (forall t, id :: from <= t < to && env.job(t, id).Found? ==> id in w.jobs && env.job(t, id).raw == w.jobs[id])
    && (forall t, id :: from <= t < to && env.list(t).Ok? && id in w.jobs ==> w.jobs[id] in env.list(t).value)
  }

  lemma SawReleasableHolds(env: Environment, w: World, log: seq<Event>, from: nat, id: int, info: Ownership)
    requires Honest(env, log) && Steady(env, w, from, |log|) && SawReleasable(log, from, id, info)
    ensures ReleasableIn(w.view, id, info)
  {
    var k :| from <= k < |log| && log[k] == ReadMembers(id, info, true);
    assert HonestEvent(env, log[..k], log[k]);
  }

  /** Every cancel ends only components whose current members are all releasable, whether the component was
      pending or running and whether it was the leader or not. */
  lemma CancelCoverage(env: Environment, w: World, log: seq<Event>, from: nat, j: RegisteredJob, cancel: Cancel,
                       ended: int)
    requires Honest(env, log) && WellFormed(w) && Steady(env, w, from, |log|)
    requires CancelJustified(log, from, j, cancel)
    requires ended in w.jobs && Ends(w, cancel, ended)
    ensures w.jobs[ended].comment.Some? && ReleasableIn(w.view, ended, w.jobs[ended].comment.value)
  {
    var id := j.job.jobId;
    assert HonestEvent(env, log[..from], log[from]);
    assert w.jobs[id] == log[from].answer.raw;
    var live := Decoded(w, id);
    if live.hetJobId != 0 && (live.pending || live.hetJobOffset == 0) {
      var k :| from <= k < |log| && log[k].ReadList? && AllSeen(log, from, log[k].jobs, live.hetJobId);
      assert HonestEvent(env, log[..k], log[k]);
      var raw := w.jobs[ended];
      assert raw in log[k].jobs;
      assert Decoded(w, ended).hetJobId == live.hetJobId;
      assert PartOf(raw, live.hetJobId);
      SawReleasableHolds(env, w, log, from, ended, raw.comment.value);
    } else {
      assert live.hetJobId != 0 ==> Slot(w, ended) == Slot(w, id);
      assert ended == id;
      SawReleasableHolds(env, w, log, from, id, j.info);
    }
  }
}
