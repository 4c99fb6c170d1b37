/** The log of one lifecycle pass (internal/controller/registration/lifecycle.go:141-330, pod_sync.go:91-178):
    its reads, its effects and its failures. The n-th event happens at time n, and every live answer depends on
    its time, so Slurm and Kubernetes may change freely between two events. */
module LifecycleLog {
  import opened Ordering
  import opened SlurmJob
  import opened Lifecycle

  datatype JobAnswer = Absent | Unreadable | Found(raw: RawJob)
  datatype DeleteAnswer = Deleted | AlreadyGone | DeleteFailed
  datatype SyncAnswer = Changed | Unchanged | SyncFailed

  /** A patch that failed may have taken effect all the same. */
  datatype PatchAnswer = Patched | PodGone | PatchFailed

  datatype Claim = Claim(name: string, owned: bool)

  /** Slurm and Kubernetes as the pass meets them. `cached` is one snapshot for the whole pass. */
  datatype Environment = Environment(
    cached: View, snapshot: map<PodRecord, Pod>, live: nat -> View, job: (nat, int) -> JobAnswer,
    list: nat -> Result<seq<RawJob>, string>, acked: nat -> bool, pod: (nat, string) -> PodRead,
    claims: (nat, Pod) -> Result<seq<Claim>, string>, extended: (nat, Pod) -> Result<seq<Claim>, string>,
    deleted: (nat, Claim) -> DeleteAnswer, patched: nat -> PatchAnswer,
    sync: (nat, Pod) -> SyncAnswer)

  predicate SameVersion(read: PodRead, p: Pod) {
    read.Present? && read.pod.uid == p.uid && read.pod.version == p.version
  }

  /** The Pod is there, with the UID and the resourceVersion the pass knows. */
  ghost predicate SameObject(read: PodRead, p: Pod) {
    read.Present? && read.pod.uid == p.uid && read.pod.version == p.version
  }

  /** Cached membership comes from one snapshot of Pods, whose UID and resourceVersion identify their
      content; each live view is coherent. */
  ghost predicate Plausible(env: Environment) {
    && (forall i, a, p :: Member(env.cached, i, a, p) ==> KeyOf(p) in env.snapshot && env.snapshot[KeyOf(p)] == p)
    && (forall t {:trigger Coherent(env.live(t))} :: Coherent(env.live(t)))
    && (forall k :: k in env.snapshot ==> KeyOf(env.snapshot[k]) == k)
    && (forall t, k :: k in env.snapshot && SameObject(env.pod(t, k.ref), env.snapshot[k]) ==>
          env.pod(t, k.ref).pod == env.snapshot[k])
  }

  datatype Cancel = WholeAllocation(alloc: int) | OneComponent(het: int, offset: int)

  /** What can stop a pass, besides a live read, a cancel or a patch that fails. */
  datatype Cause =
    | Malformed(raw: RawJob)
    | OwnershipChanged(raw: RawJob, cached: RegisteredJob)
    | MembersUnreadable(id: int, info: Ownership)
    | CachedUnreadable(id: int, info: Ownership)
    | ListFailed
    | PodFailed(pod: Pod)
    | ClaimsFailed(pod: Pod)
    | DeletionFailed(claim: Claim)
    | PodSyncFailed(pod: Pod)

  datatype Event =
    | ReadJob(id: int, answer: JobAnswer)
    | ReadMembers(member: int, info: Ownership, releasable: bool)
    | ReadList(jobs: seq<RawJob>)
    | Canceled(cancel: Cancel, acked: bool)
    | ReadPod(of: Pod, found: bool)
    | ReadClaims(of: Pod, extended: bool, claims: seq<Claim>)
    | DeletedClaim(of: Pod, claim: Claim)
    | SentRemoval(of: Pod, patch: PatchAnswer)
    | Synced(of: Pod, changed: bool)
    | Failure(cause: Cause)

  /** allocationReleased, or a confirmed absence: COMPLETING still holds resources. */
  predicate Released(answer: JobAnswer) {
    match answer
    case Absent => true
    case Unreadable => false
    case Found(raw) => FromJobInfo(raw).Ok? && FromJobInfo(raw).value.finished && COMPLETING !in raw.states
  }

  /** The job was read live as released at or after time `from`. */
  ghost predicate SawReleased(log: seq<Event>, from: nat, id: int) {
    exists k :: from <= k < |log| && ShowsReleased(log[k], id)
  }

  /** A live answer that the job is gone, or has finished and is no longer completing. */
  ghost predicate ShowsReleased(e: Event, id: int) {
    && e.ReadJob? && e.id == id
    && (|| e.answer.Absent?
        || (&& e.answer.Found? && FromJobInfo(e.answer.raw).Ok? && FromJobInfo(e.answer.raw).value.finished
            && COMPLETING !in e.answer.raw.states))
  }

  /** No member needs the component: all have ended, or were deleted before they were bound; one ended
      LeaderWorkerSet member is enough. */
  ghost predicate ReleasableIn(view: View, id: int, info: Ownership) {
    || (forall p :: Member(view, id, info, p) ==> p.terminal || (p.deleting && p.node == ""))
    || (exists p :: Member(view, id, info, p) && p.lws && (p.terminal || (p.deleting && p.node == "")))
  }

  predicate NamesHet(raw: RawJob, het: int) {
    raw.het.Some? && (if raw.het.value.number.Some? then raw.het.value.number.value else 0) == het
  }

  /** The record is of a component of the heterogeneous job. */
  ghost predicate PartOf(raw: RawJob, het: int) {
    raw.het.Some? && raw.het.value.number == Some(het)
  }

  /** The members of this record were read live at or after time `from`, and were releasable. */
  ghost predicate SawReleasable(log: seq<Event>, from: nat, id: int, info: Ownership) {
    exists k :: from <= k < |log| && log[k] == ReadMembers(id, info, true)
  }

  ghost predicate SiblingsSeen(log: seq<Event>, from: nat, het: int) {
    exists k :: from <= k < |log| && log[k].ReadList? && AllSeen(log, from, log[k].jobs, het)
  }

  ghost predicate AllSeen(log: seq<Event>, from: nat, jobs: seq<RawJob>, het: int) {
    forall raw :: raw in jobs && PartOf(raw, het) ==>
      raw.comment.Some? && SawReleasable(log, from, raw.jobId, raw.comment.value)
  }

  /** Why a cancel was issued for the component `id` with ownership `info`, after the events `log`. */
  ghost predicate CancelJustified(log: seq<Event>, from: nat, j: RegisteredJob, cancel: Cancel) {
    && from < |log| && log[from].ReadJob? && log[from].id == j.job.jobId && log[from].answer.Found?
    && var raw := log[from].answer.raw;
       && StillOurs(raw, j)
       && var live := FromJobInfo(raw).value;
          && SawReleasable(log, from, j.job.jobId, j.info)
          && (live.hetJobId != 0 && (live.pending || live.hetJobOffset == 0) ==> SiblingsSeen(log, from, live.hetJobId))
          && cancel == (if live.hetJobId != 0 && !live.pending then OneComponent(live.hetJobId, live.hetJobOffset)
                        else WholeAllocation(live.AllocationID()))
  }

  /** The live record is unfinished, and has the place and the owner that the cache knows. */
  ghost predicate StillOurs(raw: RawJob, j: RegisteredJob) {
    && raw.jobId == j.job.jobId && FromJobInfo(raw).Ok? && raw.comment == Some(j.info)
    && var live := FromJobInfo(raw).value;
       !live.finished && live.AllocationID() == j.job.AllocationID() && live.hetJobOffset == j.job.hetJobOffset
  }

  /** The record was read before. */
  ghost predicate Shown(before: seq<Event>, raw: RawJob) {
    exists k :: 0 <= k < |before| &&
      (before[k] == ReadJob(raw.jobId, Found(raw)) || (before[k].ReadList? && raw in before[k].jobs))
  }

  /** The claim was found for the Pod before. */
  ghost predicate ClaimFound(before: seq<Event>, p: Pod, claim: Claim) {
    exists k :: 0 <= k < |before| && before[k].ReadClaims? && before[k].of == p && claim in before[k].claims
  }

  /** A failure is one the environment answered with. */
  ghost predicate HonestCause(env: Environment, before: seq<Event>, cause: Cause) {
    match cause
    case Malformed(raw) => Shown(before, raw) && RegisteredJobFromInfo(raw).Err?
    case OwnershipChanged(raw, cached) =>
      && Shown(before, raw) && raw.jobId == cached.job.jobId && FromJobInfo(raw).Ok?
      && (|| raw.comment != Some(cached.info) || FromJobInfo(raw).value.AllocationID() != cached.job.AllocationID()
          || FromJobInfo(raw).value.hetJobOffset != cached.job.hetJobOffset)
    case MembersUnreadable(id, info) => !MembersReadable(env.live(|before|), id, info)
    case CachedUnreadable(id, info) => !MembersReadable(env.cached, id, info)
    case ListFailed => env.list(|before|).Err?
    case PodFailed(p) => !SameObject(env.pod(|before|, p.ref), p) && !env.pod(|before|, p.ref).NotFound?
    case ClaimsFailed(p) => env.claims(|before|, p).Err? || env.extended(|before|, p).Err?
    case DeletionFailed(claim) => env.deleted(|before|, claim).DeleteFailed?
    case PodSyncFailed(p) => env.sync(|before|, p).SyncFailed?
  }

  /** A logged event is what the environment answered at that time. */
  ghost predicate HonestEvent(env: Environment, before: seq<Event>, e: Event) {
    match e
    case ReadJob(id, answer) =>
      if answer.Unreadable? then env.job(|before|, id).Unreadable?
                                 || (env.job(|before|, id).Found? && env.job(|before|, id).raw.jobId != id)
      else env.job(|before|, id) == answer && (answer.Found? ==> answer.raw.jobId == id)
    case ReadMembers(id, info, releasable) =>
      MembersReadable(env.live(|before|), id, info) && (releasable <==> ReleasableIn(env.live(|before|), id, info))
    case ReadList(jobs) => env.list(|before|) == Ok(jobs)
    case Canceled(_, acked) => env.acked(|before|) == acked
    case ReadPod(p, found) =>
      if found then SameObject(env.pod(|before|, p.ref), p) else env.pod(|before|, p.ref).NotFound?
    case ReadClaims(p, extended, claims) =>
      if extended then env.extended(|before|, p) == Ok(claims)
      else env.claims(|before|, p).Ok? && forall c :: c in claims <==> c in env.claims(|before|, p).value && c.owned
    case DeletedClaim(p, claim) => ClaimFound(before, p, claim) && !env.deleted(|before|, claim).DeleteFailed?
    case SentRemoval(_, patch) => env.patched(|before|) == patch
    case Synced(p, changed) => env.sync(|before|, p) == if changed then Changed else Unchanged
    case Failure(cause) => HonestCause(env, before, cause)
  }

  ghost predicate Honest(env: Environment, log: seq<Event>) {
    forall k {:trigger HonestEvent(env, log[..k], log[k])} :: 0 <= k < |log| ==> HonestEvent(env, log[..k], log[k])
  }

  /** Something the pass needed failed. */
  ghost predicate Broken(e: Event) {
    || e.Failure? || (e.Canceled? && !e.acked) || (e.SentRemoval? && e.patch.PatchFailed?)
    || (e.ReadJob? && (e.answer.Unreadable? || (e.answer.Found? && FromJobInfo(e.answer.raw).Err?)))
  }

  ghost predicate Unbroken(log: seq<Event>, from: nat) {
    forall k :: from <= k < |log| ==> !Broken(log[k])
  }

  /** The event is part of cleaning up a Pod: looking up or deleting its claims, or removing its finalizer. */
  ghost predicate Touches(e: Event) {
    e.ReadClaims? || e.DeletedClaim? || e.SentRemoval?
  }

  /** From time `from` on nothing is changed. */
  ghost predicate OnlyReads(log: seq<Event>, from: nat) {
    forall k :: from <= k < |log| ==> !log[k].Canceled? && !Touches(log[k]) && !log[k].Synced?
  }

  /** Both kinds of claims were looked up for the Pod, and every claim found for it since `from` was deleted. */
  ghost predicate ClaimsDeleted(log: seq<Event>, from: nat, p: Pod) {
    && LookedUp(log, from, p, false) && LookedUp(log, from, p, true)
    && forall k, c :: from <= k < |log| && log[k].ReadClaims? && log[k].of == p && c in log[k].claims ==>
         DeletedClaim(p, c) in log[from..]
  }

  ghost predicate LookedUp(log: seq<Event>, from: nat, p: Pod, extended: bool) {
    exists k :: from <= k < |log| && log[k].ReadClaims? && log[k].of == p && log[k].extended == extended
  }

  /** A sibling on the last list is still needed. */
  ghost predicate SiblingHolds(log: seq<Event>, from: nat, het: int) {
    exists k, raw :: from <= k < |log| - 1 && log[k].ReadList? && raw in log[k].jobs && PartOf(raw, het) &&
      raw.comment.Some? && log[|log| - 1] == ReadMembers(raw.jobId, raw.comment.value, false)
  }

  /** The reads that stopped a release: the job is finished but completing, or its members or those of a sibling
      that would end with it still need it. */
  ghost predicate Held(log: seq<Event>, from: nat, j: RegisteredJob) {
    && from < |log| && log[from].ReadJob? && log[from].id == j.job.jobId && log[from].answer.Found?
    && var raw := log[from].answer.raw;
       && FromJobInfo(raw).Ok?
       && var live := FromJobInfo(raw).value;
          || (live.finished && COMPLETING in raw.states)
          || (StillOurs(raw, j) && log[|log| - 1] == ReadMembers(j.job.jobId, j.info, false))
          || (&& StillOurs(raw, j) && live.hetJobId != 0 && (live.pending || live.hetJobOffset == 0)
              && SiblingHolds(log, from, live.hetJobId))
  }

  ghost predicate CanceledFor(log: seq<Event>, from: nat, j: RegisteredJob) {
    exists k :: from <= k < |log| && log[k].Canceled? &&
      CancelJustified(log[..k], from, j, log[k].cancel)
  }

  /** What a release that met no failure came to: the job had ended, or it is still held, or it was canceled. */
  ghost predicate Turned(log: seq<Event>, from: nat, j: RegisteredJob) {
    && from < |log| && log[from].ReadJob? && log[from].id == j.job.jobId
    && (ShowsReleased(log[from], j.job.jobId) || Held(log, from, j) || CanceledFor(log, from, j))
  }

  /** The event is about this Pod, or says what failed. */
  ghost predicate About(e: Event, p: Pod) {
    ((e.ReadPod? || Touches(e)) && e.of == p) || e.Failure?
  }

  /** The Pod lost its finalizer, or was gone when it was read or patched. */
  ghost predicate Gone(log: seq<Event>, from: nat, p: Pod) {
    exists k :: from <= k < |log| &&
      (log[k] == ReadPod(p, false) || log[k] == SentRemoval(p, Patched) || log[k] == SentRemoval(p, PodGone))
  }

  ghost predicate NotFoundIn(log: seq<Event>, from: nat, p: Pod) {
    exists k :: from <= k < |log| && log[k] == ReadPod(p, false)
  }

  /** The Pod is gone, or its claims are and so is its finalizer. */
  ghost predicate Cleaned(log: seq<Event>, from: nat, p: Pod) {
    NotFoundIn(log, from, p) || (ClaimsDeleted(log, from, p) && (p.finalizer ==> Gone(log, from, p)))
  }

  datatype Verdict = Settled(released: bool) | Failed | MustCancel(cancel: Cancel)

  lemma HonestMore(env: Environment, log: seq<Event>, e: Event)
    requires Honest(env, log) && HonestEvent(env, log, e)
    ensures Honest(env, log + [e])
  {
    var more := log + [e];
    forall k | 0 <= k < |more| ensures HonestEvent(env, more[..k], more[k]) {
      if k < |log| {
        assert more[..k] == log[..k];
        assert HonestEvent(env, log[..k], log[k]);
      } else {
        assert more[..k] == log;
      }
    }
  }

  lemma UnbrokenMore(log: seq<Event>, from: nat, e: Event)
    requires from <= |log|
    ensures Unbroken(log + [e], from) <==> Unbroken(log, from) && !Broken(e)
  {
    var more := log + [e];
    assert forall k :: 0 <= k < |log| ==> more[k] == log[k];
    assert more[|log|] == e;
  }

  lemma PrefixItems(before: seq<Event>, log: seq<Event>)
    requires |before| <= |log| && log[..|before|] == before
    ensures forall k :: 0 <= k < |before| ==> log[k] == before[k] && log[..k] == before[..k]
  {
    forall k | 0 <= k < |before| ensures log[k] == before[k] && log[..k] == before[..k] {
      assert log[k] == log[..|before|][k];
    }
  }

  /** The members gathered under their keys decide as all members do. */
  lemma ReleasableMeans(view: View, id: int, info: Ownership, members: map<PodRecord, Pod>)
    requires forall k :: k in members ==> Member(view, id, info, members[k]) && KeyOf(members[k]) == k
    requires forall p :: Member(view, id, info, p) ==> KeyOf(p) in members && members[KeyOf(p)] == p
    ensures Releasable(members) <==> ReleasableIn(view, id, info)
  {
    if Releasable(members) && !(forall k :: k in members ==> ReadyForCleanup(members[k])) {
      var k :| k in members && members[k].lws && ReadyForCleanup(members[k]);
      assert Member(view, id, info, members[k]);
    }
    if ReleasableIn(view, id, info) && !(forall p :: Member(view, id, info, p) ==> ReadyForCleanup(p)) {
      var p :| Member(view, id, info, p) && p.lws && ReadyForCleanup(p);
      assert members[KeyOf(p)] == p;
    }
  }

  lemma UnbrokenSplit(before: seq<Event>, log: seq<Event>, from: nat)
    requires from <= |before| <= |log| && log[..|before|] == before
    ensures Unbroken(log, from) <==> Unbroken(before, from) && Unbroken(log, |before|)
  {
    PrefixItems(before, log);
  }

  lemma SawSplit(before: seq<Event>, log: seq<Event>, from: nat, id: int)
    requires from <= |before| <= |log| && log[..|before|] == before
    ensures SawReleased(log, from, id) <==> SawReleased(before, from, id) || SawReleased(log, |before|, id)
  {
    PrefixItems(before, log);
  }

  lemma AllSeenMore(before: seq<Event>, log: seq<Event>, from: nat, jobs: seq<RawJob>, n: nat, het: int)
    requires from <= |before| < |log| && log[..|before|] == before && n < |jobs| && jobs[n].comment.Some?
    requires AllSeen(before, from, jobs[..n], het)
    requires log[|before|] == ReadMembers(jobs[n].jobId, jobs[n].comment.value, true)
    ensures AllSeen(log, from, jobs[..n + 1], het)
  {
    PrefixItems(before, log);
    forall raw | raw in jobs[..n + 1] && PartOf(raw, het)
      ensures raw.comment.Some? && SawReleasable(log, from, raw.jobId, raw.comment.value)
    {
      if raw in jobs[..n] {
        assert SawReleasable(before, from, raw.jobId, raw.comment.value);
      } else {
        assert raw == jobs[n];
      }
    }
  }

  /** A cancel after its checks, and the read after it. */
  lemma CancelStands(checked: seq<Event>, log: seq<Event>, from: nat, j: RegisteredJob, cancel: Cancel)
    requires from < |checked| < |log| && log[..|checked|] == checked
    requires log[|checked|].Canceled? && log[|checked|].cancel == cancel
    requires CancelJustified(checked, from, j, cancel)
    ensures Turned(log, from, j)
  {
    PrefixItems(checked, log);
    assert log[|checked|].Canceled?;
  }

  lemma ClaimsEarlier(log: seq<Event>, from: nat, start: nat, p: Pod)
    requires from <= start <= |log| && ClaimsDeleted(log, start, p)
    requires forall k :: from <= k < start ==> !log[k].ReadClaims?
    ensures ClaimsDeleted(log, from, p)
  {
    forall k, c | from <= k < |log| && log[k].ReadClaims? && log[k].of == p && c in log[k].claims
      ensures DeletedClaim(p, c) in log[from..]
    {
      assert DeletedClaim(p, c) in log[start..];
      var i :| start <= i < |log| && log[i] == DeletedClaim(p, c);
      assert log[from..][i - from] == log[i];
    }
  }

  /** One read of the Pod before a cleanup. */
  lemma CleanUpEarlier(found: seq<Event>, log: seq<Event>, from: nat, p: Pod)
    requires |found| == from + 1 <= |log| && log[..|found|] == found && found[from] == ReadPod(p, true)
    ensures Unbroken(log, from) <==> Unbroken(log, from + 1)
    ensures forall k :: from < k <= |log| && ClaimsDeleted(log[..k], from + 1, p) ==> ClaimsDeleted(log[..k], from, p)
    ensures ClaimsDeleted(log, from + 1, p) && (p.finalizer ==> Gone(log, from + 1, p)) ==> Cleaned(log, from, p)
  {
    UnbrokenSplit(found, log, from);
    assert log[from] == found[from];
    forall k | from < k <= |log| && ClaimsDeleted(log[..k], from + 1, p) ensures ClaimsDeleted(log[..k], from, p) {
      ClaimsEarlier(log[..k], from, from + 1, p);
    }
    assert log[..|log|] == log;
  }

  lemma ClaimsLater(before: seq<Event>, log: seq<Event>, from: nat, p: Pod)
    requires from <= |before| <= |log| && log[..|before|] == before && ClaimsDeleted(before, from, p)
    requires forall k :: |before| <= k < |log| ==> !log[k].ReadClaims?
    ensures ClaimsDeleted(log, from, p)
  {
    PrefixItems(before, log);
    assert log[from..] == before[from..] + log[|before|..];
  }
}
