/** Allocation registration (internal/controller/registration/registration.go, controller.go and
    internal/utils/slurmjob/allocation.go).

    One allocation key is followed through every interleaving of submissions (with lost responses),
    informer polls, job endings, record purges, memo expiry and restarts. */
module Registration {
  import opened Ordering
  import SlurmJob

  /** A component record as the index returns it. `alloc` is AllocationID(): the leader's ID. */
  datatype IndexedJob = IndexedJob(id: nat, alloc: nat, finished: bool)

  predicate AnyUnfinished(jobs: seq<IndexedJob>) {
    exists j :: j in jobs && !j.finished
  }

  predicate KnowsAllocation(jobs: seq<IndexedJob>, alloc: nat) {
    exists j :: j in jobs && j.alloc == alloc
  }

  /** What the index returns for a record: its decoded state, or why it has none, and whether its ownership can be
      read. */
  datatype Candidate = Candidate(job: Result<IndexedJob, string>, readable: bool)

  function CandidateOf(raw: SlurmJob.RawJob): (c: Candidate)
    ensures WellDecoded(c) && (c.readable <==> raw.comment.Some?)
    ensures c.job.Ok? <==> SlurmJob.FromJobInfo(raw).Ok?
    ensures c.job.Ok? ==>
              var job := SlurmJob.FromJobInfo(raw).value;
              && c.job.value.id == raw.jobId && (c.job.value.finished <==> job.finished)
              && c.job.value.alloc == if job.hetJobId > 0 then job.hetJobId else raw.jobId
  {
    Candidate(match SlurmJob.FromJobInfo(raw)
              case Err(e) => Err(e)
              case Ok(job) => Ok(IndexedJob(job.jobId, job.AllocationID(), job.finished)), raw.comment.Some?)
  }

  ghost predicate WellDecoded(c: Candidate) {
    c.job.Ok? ==> c.job.value.alloc > 0
  }

  ghost predicate IsJob(c: Candidate, id: nat) {
    c.job.Ok? && c.job.value.id == id
  }

  /** The candidate is malformed, or is the first record of its job and its ownership cannot be read. */
  ghost predicate Unreadable(candidates: seq<Candidate>, i: nat)
    requires i < |candidates|
  {
    || candidates[i].job.Err?
    || (!candidates[i].readable && forall k :: 0 <= k < i ==> !IsJob(candidates[k], candidates[i].job.value.id))
  }

  ghost predicate Ambiguous(jobs: seq<IndexedJob>) {
    exists a, b :: a in jobs && b in jobs && !a.finished && !b.finished && a.alloc != b.alloc
  }

  /** The jobs of the first n candidates, each once. */
  ghost predicate Collected(candidates: seq<Candidate>, n: nat, jobs: seq<IndexedJob>)
    requires n <= |candidates|
  {
    && (forall i, k :: 0 <= i < k < |jobs| ==> jobs[i].id != jobs[k].id)
    && (forall j {:trigger From(candidates, n, j)} :: j in jobs ==> From(candidates, n, j))
    && (forall i {:trigger Listed(jobs, candidates[i])} :: 0 <= i < n ==> Listed(jobs, candidates[i]))
  }

  ghost predicate From(candidates: seq<Candidate>, n: nat, j: IndexedJob)
    requires n <= |candidates|
  {
    exists i :: 0 <= i < n && candidates[i].job == Ok(j)
  }

  ghost predicate Listed(jobs: seq<IndexedJob>, c: Candidate) {
    exists j :: j in jobs && IsJob(c, j.id)
  }

  /** IndexedAllocation: candidates come from several indexes and may repeat a job. */
  method IndexedAllocation(candidates: seq<Candidate>) returns (r: Result<(seq<IndexedJob>, bool), string>)
    requires forall i :: 0 <= i < |candidates| ==> WellDecoded(candidates[i])
    ensures r.Err? <==> exists i :: 0 <= i < |candidates| && Unreadable(candidates, i)
    ensures r.Ok? ==> Collected(candidates, |candidates|, r.value.0) && (r.value.1 <==> Ambiguous(r.value.0))
    ensures r.Ok? ==> forall i :: 0 <= i < |candidates| ==>
              candidates[i].job.Ok? && exists j :: j in r.value.0 && j.id == candidates[i].job.value.id
  {
    var jobs: seq<IndexedJob> := [];
    var conflict, leader, seen := false, 0, {};
    for n := 0 to |candidates|
      invariant Collected(candidates, n, jobs) && forall i :: 0 <= i < n ==> !Unreadable(candidates, i)
      invariant forall id :: id in seen <==> exists i :: 0 <= i < n && IsJob(candidates[i], id)
      invariant if leader == 0 then !AnyUnfinished(jobs) else exists j :: j in jobs && !j.finished && j.alloc == leader
      invariant if conflict then Ambiguous(jobs) else forall j :: j in jobs && !j.finished ==> j.alloc == leader
    {
      if candidates[n].job.Err? {
        assert Unreadable(candidates, n);
        return Err(candidates[n].job.error);
      }
      var job := candidates[n].job.value;
      assert IsJob(candidates[n], job.id) && WellDecoded(candidates[n]);
      if job.id in seen {
        KnownJob(candidates, n, jobs);
        continue;
      }
      if !candidates[n].readable {
        assert Unreadable(candidates, n);
        return Err("unreadable ownership");
      }
      seen := seen + {job.id};
      OneMoreJob(candidates, n, jobs, job);
      ghost var before := jobs;
      jobs := jobs + [job];
      assert forall j :: j in jobs <==> j in before || j == job;
      if !job.finished {
        if leader != 0 && leader != job.alloc {
          conflict := true;
        }
        leader := job.alloc;
      }
    }
    forall i | 0 <= i < |candidates|
      ensures candidates[i].job.Ok? && exists j :: j in jobs && j.id == candidates[i].job.value.id
    {
      assert !Unreadable(candidates, i) && Listed(jobs, candidates[i]);
    }
    return Ok((jobs, conflict));
  }

  lemma FromMore(candidates: seq<Candidate>, n: nat, j: IndexedJob)
    requires n < |candidates| && From(candidates, n, j)
    ensures From(candidates, n + 1, j)
  {
    var i :| 0 <= i < n && candidates[i].job == Ok(j);
    var m := n + 1;
    assert 0 <= i < m && candidates[i].job == Ok(j);
  }

  lemma KnownJob(candidates: seq<Candidate>, n: nat, jobs: seq<IndexedJob>)
    requires n < |candidates| && Collected(candidates, n, jobs) && candidates[n].job.Ok?
    requires exists i :: 0 <= i < n && IsJob(candidates[i], candidates[n].job.value.id)
    ensures Collected(candidates, n + 1, jobs) && !Unreadable(candidates, n)
  {
    var i :| 0 <= i < n && IsJob(candidates[i], candidates[n].job.value.id);
    assert Listed(jobs, candidates[i]);
    var j :| j in jobs && IsJob(candidates[i], j.id);
    assert IsJob(candidates[n], j.id) && Listed(jobs, candidates[n]);
    forall k | k in jobs ensures From(candidates, n + 1, k) {
      assert From(candidates, n, k);
      FromMore(candidates, n, k);
    }
  }

  lemma OneMoreJob(candidates: seq<Candidate>, n: nat, jobs: seq<IndexedJob>, job: IndexedJob)
    requires n < |candidates| && Collected(candidates, n, jobs) && candidates[n].job == Ok(job)
    requires forall i :: 0 <= i < n ==> !IsJob(candidates[i], job.id)
    ensures Collected(candidates, n + 1, jobs + [job])
  {
    var more, m := jobs + [job], n + 1;
    assert forall j :: j in more <==> j in jobs || j == job;
    forall j | j in jobs ensures From(candidates, m, j) && j.id != job.id {
      assert From(candidates, n, j);
      FromMore(candidates, n, j);
      var i :| 0 <= i < n && candidates[i].job == Ok(j);
      assert !IsJob(candidates[i], job.id);
    }
    assert forall k :: 0 <= k < |jobs| ==> jobs[k] in jobs;
    assert candidates[n].job == Ok(job) && From(candidates, m, job);
    forall i | 0 <= i < m ensures Listed(more, candidates[i]) {
      if i < n {
        assert Listed(jobs, candidates[i]);
        var j :| j in jobs && IsJob(candidates[i], j.id);
        assert j in more;
      } else {
        assert job in more && IsJob(candidates[i], job.id);
      }
    }
  }

  function Candidates(raws: seq<SlurmJob.RawJob>): (candidates: seq<Candidate>)
    ensures |candidates| == |raws|
    ensures forall i :: 0 <= i < |raws| ==> candidates[i] == CandidateOf(raws[i]) && WellDecoded(candidates[i])
  {
    seq(|raws|, i requires 0 <= i < |raws| => CandidateOf(raws[i]))
  }

  /** The same from the records the informer has. */
  method IndexedRecords(raws: seq<SlurmJob.RawJob>) returns (r: Result<(seq<IndexedJob>, bool), string>)
    ensures r.Err? <==> exists i :: 0 <= i < |raws| && Unreadable(Candidates(raws), i)
    ensures r.Ok? ==> Collected(Candidates(raws), |raws|, r.value.0) && (r.value.1 <==> Ambiguous(r.value.0))
  {
    r := IndexedAllocation(Candidates(raws));
  }

  /** An entry of the `recent` memo: the accepted ID, or 0 when the response was lost. */
  datatype Memo = Memo(id: nat, setAt: nat)

  datatype Timing = Timing(lag: nat, duration: nat, cooldown: nat)

  /** cache.Expiring.Get: an entry is returned strictly before its expiry. */
  function LiveMemo(memo: Option<Memo>, now: nat, cooldown: nat): Option<nat> {
    if memo.Some? && now < memo.value.setAt + cooldown then Some(memo.value.id) else None
  }

  /** What registration looks at in a Pod of the workload. */
  datatype Pod = Pod(ours: bool, node: string, deleting: bool, terminal: bool)

  predicate Eligible(p: Pod) {
    p.ours && p.node == "" && !p.deleting && !p.terminal
  }

  predicate SubmissionAllowed(jobs: seq<IndexedJob>, cooling: Option<nat>, members: seq<Pod>) {
    && (forall p :: p in members ==> Eligible(p))
    && (cooling.None? || (cooling.value != 0 && KnowsAllocation(jobs, cooling.value)))
  }

  /** The answer of RegisterJob: refused before it reached Slurm, or a call whose returned ID is 0
      when no usable response arrived. */
  datatype Reply = NotSubmitted | Returned(id: nat)

  datatype Outcome = Observed | Waiting | Attempted

  class Reconciler<Key(==)> {
    var recent: map<Key, Memo>
    const cooldown: nat

    constructor (cooldown: nat)
      ensures recent == map[] && this.cooldown == cooldown
    {
      this.cooldown := cooldown;
      recent := map[];
    }

    function Entry(key: Key): Option<Memo> reads this {
      if key in recent then Some(recent[key]) else None
    }

    /** register: `checkedAt` is when the memo is read and `returnedAt` when RegisterJob returned. A job is submitted
        exactly when every known job is finished, the workload is ready, every member may still be scheduled here,
        and no submission is remembered but one that is itself among the known jobs. */
    method Register(key: Key, jobs: seq<IndexedJob>, members: seq<Pod>, ready: bool,
                    reply: Reply, checkedAt: nat, returnedAt: nat) returns (outcome: Outcome)
      modifies this
      ensures recent - {key} == old(recent) - {key}
      ensures outcome == Observed <==> exists j :: j in jobs && !j.finished
      ensures outcome == Attempted ==> ready && forall j :: j in jobs ==> j.finished
      ensures outcome == Attempted ==>
                forall p :: p in members ==> p.ours && p.node == "" && !p.deleting && !p.terminal
      ensures outcome == Attempted && key in old(recent) && checkedAt < old(recent)[key].setAt + cooldown ==>
                old(recent)[key].id != 0 && exists j :: j in jobs && j.alloc == old(recent)[key].id
      ensures && ready && (forall j :: j in jobs ==> j.finished)
              && (forall p :: p in members ==> p.ours && p.node == "" && !p.deleting && !p.terminal)
              && (|| key !in old(recent) || checkedAt >= old(recent)[key].setAt + cooldown
                  || (old(recent)[key].id != 0 && exists j :: j in jobs && j.alloc == old(recent)[key].id)) ==>
                outcome == Attempted
      ensures outcome == Observed || (outcome == Attempted && reply.NotSubmitted?) ==> key !in recent
      ensures outcome == Attempted && reply.Returned? ==> key in recent && recent[key] == Memo(reply.id, returnedAt)
      ensures outcome == Waiting ==> recent == old(recent)
      ensures Registered(jobs, old(Entry(key)), cooldown, members, ready, reply, checkedAt, returnedAt, outcome,
                         Entry(key))
    {
      if AnyUnfinished(jobs) {
        recent := recent - {key};
        return Observed;
      }
      var cooling := LiveMemo(Entry(key), checkedAt, cooldown);
      if !SubmissionAllowed(jobs, cooling, members) || !ready {
        return Waiting;
      }
      match reply {
        case NotSubmitted => recent := recent - {key};
        case Returned(id) => recent := recent[key := Memo(id, returnedAt)];
      }
      return Attempted;
    }
  }

  function MemoAfter(reply: Reply, now: nat): Option<Memo> {
    match reply
    case NotSubmitted => None
    case Returned(id) => Some(Memo(id, now))
  }

  // ---------------------------------------------------------------- the protocol as a state machine

  datatype Job = Job(alloc: nat, finished: bool)

  /** What a Slurm list returned: the key's records, the first job ID not yet issued, and when. */
  datatype Snapshot = Snapshot(jobs: map<nat, Job>, next: nat, time: nat)

  datatype Phase =
    | Idle
    | Reading(view: Snapshot, jobs: seq<IndexedJob>, started: nat)
    | Calling(view: Snapshot, committed: Option<nat>)

  /** `latest`, `last` and `committedAt` are history: the newest allocation has the IDs from `latest`
      up to `last`, its leader first, and was committed at `committedAt`. */
  datatype State = State(
    jobs: map<nat, Job>, next: nat, latest: nat, last: nat, committedAt: nat,
    cache: Option<Snapshot>, polled: Option<Snapshot>, memo: Option<Memo>, phase: Phase, now: nat)

  ghost predicate Lists(jobs: seq<IndexedJob>, records: map<nat, Job>) {
    && (forall j :: j in jobs ==> j.id in records && records[j.id] == Job(j.alloc, j.finished))
    && (forall id :: id in records ==> IndexedJob(id, records[id].alloc, records[id].finished) in jobs)
  }

  ghost predicate Init(s: State) {
    s == State(map[], 1, 0, 1, 0, None, None, None, Idle, 0)
  }

  ghost function Components(lead: nat, count: nat): (r: map<nat, Job>)
    ensures forall id :: id in r <==> lead <= id < lead + count
    ensures forall id :: id in r ==> r[id] == Job(lead, false)
  {
    if count == 0 then map[] else Components(lead, count - 1)[lead + count - 1 := Job(lead, false)]
  }

  datatype Event =
    | Tick(delta: nat) | OtherIDs(count: nat) | Poll | Install | Finish(id: nat) | Purge(id: nat)
    | Read(listed: seq<IndexedJob>) | GiveUp | Observe | Call(members: seq<Pod>) | Commit(components: nat)
    | Return(reply: Reply) | Restart

  /** A crash settles the call in flight: `Restart` loses the memo and the informer contents, and
      a reconcile needs a list taken afterwards (HasSynced). */
  ghost predicate Next(c: Timing, s: State, e: Event, t: State) {
    match e
    case Tick(delta) => t == s.(now := s.now + delta)
    case OtherIDs(count) => t == s.(next := s.next + count)
    case Poll => t == s.(polled := Some(Snapshot(s.jobs, s.next, s.now)))
    case Install => s.polled.Some? && t == s.(cache := s.polled)
    case Finish(id) => id in s.jobs && t == s.(jobs := s.jobs[id := s.jobs[id].(finished := true)])
    case Purge(id) => id in s.jobs && s.jobs[id].finished && t == s.(jobs := s.jobs - {id})
    case Read(listed) =>
      && s.phase.Idle? && s.cache.Some? && s.now <= s.cache.value.time + c.lag
      && Lists(listed, s.cache.value.jobs)
      && t == s.(phase := Reading(s.cache.value, listed, s.now))
    case GiveUp => s.phase.Reading? && t == s.(phase := Idle)
    case Observe => s.phase.Reading? && AnyUnfinished(s.phase.jobs) && t == s.(memo := None, phase := Idle)
    case Call(members) =>
      && s.phase.Reading? && s.now <= s.phase.started + c.duration
      && !AnyUnfinished(s.phase.jobs)
      && SubmissionAllowed(s.phase.jobs, LiveMemo(s.memo, s.now, c.cooldown), members)
      && t == s.(phase := Calling(s.phase.view, None))
    case Commit(components) =>
      && s.phase.Calling? && s.phase.committed.None? && components > 0
      && t == s.(jobs := s.jobs + Components(s.next, components), next := s.next + components,
                 latest := s.next, last := s.next + components, committedAt := s.now, phase :=
                             s.phase.(committed := Some(s.next)))
    case Return(reply) =>
      && s.phase.Calling? && Answers(reply, s.phase.committed)
      && t == s.(memo := MemoAfter(reply, s.now), phase := Idle)
    case Restart => t == s.(memo := None, cache := None, polled := None, phase := Idle)
  }

  ghost predicate Run(c: Timing, states: seq<State>, events: seq<Event>) {
    && |states| == |events| + 1 && Init(states[0])
    && forall i :: 0 <= i < |events| ==> Next(c, states[i], events[i], states[i + 1])
  }

  ghost predicate Reachable(c: Timing, s: State) {
    exists states: seq<State>, events: seq<Event> :: Run(c, states, events) && states[|events|] == s
  }

  ghost predicate OneUnfinished(jobs: map<nat, Job>) {
    forall i, k :: i in jobs && k in jobs && !jobs[i].finished && !jobs[k].finished ==> jobs[i].alloc == jobs[k].alloc
  }

  ghost predicate Safe(c: Timing) {
    forall s :: Reachable(c, s) ==> OneUnfinished(s.jobs)
  }

  /** What Register decides and leaves in the memo, for one key. */
  ghost predicate Registered(jobs: seq<IndexedJob>, memo: Option<Memo>, cooldown: nat, members: seq<Pod>, ready: bool,
                             reply: Reply, checkedAt: nat, returnedAt: nat, outcome: Outcome, after: Option<Memo>)
  {
    && (outcome == Observed <==> AnyUnfinished(jobs))
    && (outcome == Attempted <==>
         !AnyUnfinished(jobs) && ready && SubmissionAllowed(jobs, LiveMemo(memo, checkedAt, cooldown), members))
    && after ==
         match outcome { case Observed => None case Waiting => memo case Attempted => MemoAfter(reply, returnedAt) }
  }

  /** Register is made of the protocol's steps: Observe or GiveUp, or Call and, with Slurm's answer, Return. */
  lemma RegisterIsSteps(c: Timing, s: State, members: seq<Pod>, ready: bool, reply: Reply, returnedAt: nat,
                        outcome: Outcome, after: Option<Memo>)
    requires s.phase.Reading? && s.now <= s.phase.started + c.duration
    requires Registered(s.phase.jobs, s.memo, c.cooldown, members, ready, reply, s.now, returnedAt, outcome, after)
    ensures outcome == Observed ==> Next(c, s, Observe, s.(memo := after, phase := Idle))
    ensures outcome == Waiting ==> Next(c, s, GiveUp, s.(memo := after, phase := Idle))
    ensures outcome == Attempted ==> Next(c, s, Call(members), s.(phase := Calling(s.phase.view, None)))
    ensures outcome == Attempted ==>
              forall u: State :: u.phase.Calling? && u.now == returnedAt && Answers(reply, u.phase.committed) ==>
              Next(c, u, Return(reply), u.(memo := after, phase := Idle))
  {
  }

  /** A refusal comes without a submission, and an ID is that of the submission. */
  predicate Answers(reply: Reply, committed: Option<nat>) {
    match reply
    case NotSubmitted => committed.None?
    case Returned(id) => id == 0 || committed == Some(id)
  }

  // ---------------------------------------------------------------- invariant

  /** `b` was listed no earlier than `a`. */
  ghost predicate Later(a: Snapshot, b: Snapshot) {
    && a.next <= b.next && a.time <= b.time
    && forall id :: id in b.jobs && id < a.next ==>
         id in a.jobs && a.jobs[id].alloc == b.jobs[id].alloc && (a.jobs[id].finished ==> b.jobs[id].finished)
  }

  ghost function Current(s: State): Snapshot {
    Snapshot(s.jobs, s.next, s.now)
  }

  ghost predicate Consistent(s: State, v: Snapshot) {
    && Later(v, Current(s))
    && (v.time > s.committedAt ==> v.next > s.latest)
    && (v.next > s.latest ==> v.next >= s.last)
    && (forall id :: id in v.jobs ==> v.jobs[id].alloc <= id < v.next && id < s.last)
    && (forall id :: id in v.jobs && id < s.latest ==> v.jobs[id].finished)
    && (forall id :: id in v.jobs && id >= s.latest ==> v.jobs[id].alloc == s.latest)
  }

  ghost predicate Remembered(s: State) {
    s.memo.Some? && s.memo.value.setAt >= s.committedAt && s.memo.value.id in {0, s.latest}
  }

  ghost predicate AllFinished(v: Snapshot) {
    forall id :: id in v.jobs ==> v.jobs[id].finished
  }

  /** Every list in flight: `view` was read from an earlier cache, the cache installed from a poll. */
  ghost predicate ListsInv(s: State) {
    && (s.polled.Some? ==> Consistent(s, s.polled.value))
    && (s.cache.Some? ==> s.polled.Some? && Consistent(s, s.cache.value) && Later(s.cache.value, s.polled.value))
    && (!s.phase.Idle? ==> s.cache.Some? && Consistent(s, s.phase.view) && Later(s.phase.view, s.cache.value))
  }

  ghost predicate PhaseInv(c: Timing, s: State) {
    match s.phase
    case Idle => true
    case Reading(view, jobs, started) =>
      && Lists(jobs, view.jobs) && (view.next > s.latest || Remembered(s)) && started <= view.time + c.lag
    case Calling(view, committed) =>
      && AllFinished(view)
      && (committed.None? ==> view.next > s.latest) && (committed.Some? ==> committed.value == s.latest)
  }

  ghost predicate GuardInv(s: State) {
    && (s.cache.None? ==> s.phase.Idle? && s.memo.None? && (s.polled.Some? ==> s.polled.value.next > s.latest))
    && (s.cache.Some? ==>
          s.cache.value.next > s.latest || Remembered(s) || (s.phase.Calling? && s.phase.committed.Some?))
  }

  ghost predicate Inv(c: Timing, s: State) {
    && s.latest < s.last <= s.next && s.committedAt <= s.now
    && Consistent(s, Current(s)) && ListsInv(s) && GuardInv(s) && PhaseInv(c, s)
  }

  /** The view a permitted call is based on already contains the newest allocation. */
  lemma CallIsInformed(c: Timing, s: State, members: seq<Pod>, t: State)
    requires c.lag + c.duration < c.cooldown
    requires Inv(c, s) && Next(c, s, Call(members), t)
    ensures s.phase.view.next > s.latest && AllFinished(s.phase.view)
  {
    var view, jobs := s.phase.view, s.phase.jobs;
    forall id | id in view.jobs ensures view.jobs[id].finished {
      assert IndexedJob(id, view.jobs[id].alloc, view.jobs[id].finished) in jobs;
    }
    if Remembered(s) {
      var live := LiveMemo(s.memo, s.now, c.cooldown);
      if live.Some? {
        var j :| j in jobs && j.alloc == live.value;
        assert j.id in view.jobs;
      }
    }
  }

  /** A list no older than an informed view shows only finished records, and stays consistent with a commit. */
  lemma CommitConsistent(c: Timing, s: State, components: nat, t: State, v: Snapshot)
    requires Inv(c, s) && Next(c, s, Commit(components), t) && Consistent(s, v) && Later(s.phase.view, v)
    ensures Consistent(t, v)
  {
    forall id | id in v.jobs ensures v.jobs[id].finished {
      assert id in s.phase.view.jobs;
    }
  }

  /** A commit on an informed view leaves every older record finished in every list. */
  lemma CommitKeepsInv(c: Timing, s: State, components: nat, t: State)
    requires Inv(c, s) && Next(c, s, Commit(components), t)
    ensures Inv(c, t)
  {
    CommitConsistent(c, s, components, t, s.phase.view);
    CommitConsistent(c, s, components, t, s.cache.value);
    CommitPolled(c, s, components, t);
    CommitCurrent(c, s, components, t);
  }

  lemma CommitPolled(c: Timing, s: State, components: nat, t: State)
    requires Inv(c, s) && Next(c, s, Commit(components), t)
    ensures Consistent(t, s.polled.value)
  {
    LaterTwice(s.phase.view, s.cache.value, s.polled.value, s.last);
    CommitConsistent(c, s, components, t, s.polled.value);
  }

  lemma LaterTwice(a: Snapshot, b: Snapshot, v: Snapshot, last: nat)
    requires Later(a, b) && Later(b, v) && a.next >= last && forall id :: id in v.jobs ==> id < last
    ensures Later(a, v)
  {
  }

  lemma CommitCurrent(c: Timing, s: State, components: nat, t: State)
    requires Inv(c, s) && Next(c, s, Commit(components), t)
    ensures Consistent(t, Current(t))
  {
    forall id | id in s.jobs ensures s.jobs[id].finished {
      assert id in s.phase.view.jobs;
    }
  }

  /** Between commits Slurm only moves forward, and every list stays consistent with it. */
  lemma Forward(s: State, t: State, v: Snapshot)
    requires t.latest == s.latest && t.last == s.last && t.committedAt == s.committedAt
    requires Later(Current(s), Current(t))
    requires forall id :: id in t.jobs ==> id < s.next
    requires Consistent(s, v)
    ensures Consistent(t, v)
  {
  }

  lemma ForwardLists(s: State, t: State)
    requires t.latest == s.latest && t.last == s.last && t.committedAt == s.committedAt
    requires Later(Current(s), Current(t))
    requires forall id :: id in t.jobs ==> id < s.next
    requires t.polled == s.polled && t.cache == s.cache && t.phase == s.phase
    requires ListsInv(s)
    ensures ListsInv(t)
  {
    if s.polled.Some? { Forward(s, t, s.polled.value); }
    if s.cache.Some? { Forward(s, t, s.cache.value); }
    if !s.phase.Idle? { Forward(s, t, s.phase.view); }
  }

  lemma ClockKeepsInv(c: Timing, s: State, e: Event, t: State)
    requires (e.Tick? || e.OtherIDs?) && Inv(c, s) && Next(c, s, e, t)
    ensures Inv(c, t)
  {
    assert Later(Current(s), Current(t));
    ForwardLists(s, t);
  }

  lemma EndingKeepsInv(c: Timing, s: State, e: Event, t: State)
    requires (e.Finish? || e.Purge?) && Inv(c, s) && Next(c, s, e, t)
    ensures Inv(c, t)
  {
    EndingIsLater(c, s, e, t);
    ForwardLists(s, t);
    EndingCurrent(c, s, e, t);
  }

  lemma EndingIsLater(c: Timing, s: State, e: Event, t: State)
    requires (e.Finish? || e.Purge?) && Inv(c, s) && Next(c, s, e, t)
    ensures Later(Current(s), Current(t)) && forall id :: id in t.jobs ==> id < s.next
  {
  }

  lemma EndingCurrent(c: Timing, s: State, e: Event, t: State)
    requires (e.Finish? || e.Purge?) && Inv(c, s) && Next(c, s, e, t)
    ensures Consistent(t, Current(t))
  {
  }

  lemma PollKeepsInv(c: Timing, s: State, e: Event, t: State)
    requires e.Poll? && Inv(c, s) && Next(c, s, e, t)
    ensures Inv(c, t)
  {
    if s.polled.Some? { Forward(s, t, s.polled.value); }
    if s.cache.Some? { Forward(s, t, s.cache.value); }
    if !s.phase.Idle? { Forward(s, t, s.phase.view); }
  }

  lemma InstallKeepsInv(c: Timing, s: State, e: Event, t: State)
    requires e.Install? && Inv(c, s) && Next(c, s, e, t)
    ensures Inv(c, t)
  {
    if s.polled.Some? { Forward(s, t, s.polled.value); }
    if s.cache.Some? { Forward(s, t, s.cache.value); }
    if !s.phase.Idle? { Forward(s, t, s.phase.view); }
  }

  lemma RestartKeepsInv(c: Timing, s: State, e: Event, t: State)
    requires e.Restart? && Inv(c, s) && Next(c, s, e, t)
    ensures Inv(c, t)
  {
  }

  lemma ReadKeepsInv(c: Timing, s: State, e: Event, t: State)
    requires (e.Read? || e.GiveUp?) && Inv(c, s) && Next(c, s, e, t)
    ensures Inv(c, t)
  {
    Forward(s, t, s.polled.value);
    Forward(s, t, s.cache.value);
  }

  lemma ObserveKeepsInv(c: Timing, s: State, e: Event, t: State)
    requires e.Observe? && Inv(c, s) && Next(c, s, e, t)
    ensures Inv(c, t)
  {
    Forward(s, t, s.polled.value);
    Forward(s, t, s.cache.value);
  }

  lemma ReturnKeepsInv(c: Timing, s: State, e: Event, t: State)
    requires e.Return? && Inv(c, s) && Next(c, s, e, t)
    ensures Inv(c, t)
  {
    Forward(s, t, s.polled.value);
    Forward(s, t, s.cache.value);
  }

  lemma CallKeepsInv(c: Timing, s: State, e: Event, t: State)
    requires c.lag + c.duration < c.cooldown && e.Call? && Inv(c, s) && Next(c, s, e, t)
    ensures Inv(c, t)
  {
    CallIsInformed(c, s, e.members, t);
    Forward(s, t, s.polled.value);
    Forward(s, t, s.cache.value);
    Forward(s, t, s.phase.view);
  }

  lemma StepKeepsInv(c: Timing, s: State, e: Event, t: State)
    requires c.lag + c.duration < c.cooldown
    requires Inv(c, s) && Next(c, s, e, t)
    ensures Inv(c, t)
  {
    match e {
      case Tick(_) => ClockKeepsInv(c, s, e, t);
      case OtherIDs(_) => ClockKeepsInv(c, s, e, t);
      case Finish(_) => EndingKeepsInv(c, s, e, t);
      case Purge(_) => EndingKeepsInv(c, s, e, t);
      case Poll => PollKeepsInv(c, s, e, t);
      case Install => InstallKeepsInv(c, s, e, t);
      case Restart => RestartKeepsInv(c, s, e, t);
      case Read(_) => ReadKeepsInv(c, s, e, t);
      case GiveUp => ReadKeepsInv(c, s, e, t);
      case Observe => ObserveKeepsInv(c, s, e, t);
      case Call(_) => CallKeepsInv(c, s, e, t);
      case Commit(n) => CommitKeepsInv(c, s, n, t);
      case Return(_) => ReturnKeepsInv(c, s, e, t);
    }
  }

  lemma {:induction false} RunKeepsInv(c: Timing, states: seq<State>, events: seq<Event>, n: nat)
    requires c.lag + c.duration < c.cooldown
    requires Run(c, states, events) && n < |states|
    ensures Inv(c, states[n])
  {
    if n > 0 {
      RunKeepsInv(c, states, events, n - 1);
      StepKeepsInv(c, states[n - 1], events[n - 1], states[n]);
    }
  }

  /** At most one allocation is unfinished in Slurm, and no list the reconciler acts on shows two. */
  lemma AtMostOneAllocation(c: Timing, s: State)
    requires c.lag + c.duration < c.cooldown && Reachable(c, s)
    ensures OneUnfinished(s.jobs)
    ensures s.cache.Some? ==> OneUnfinished(s.cache.value.jobs)
  {
    var states: seq<State>, events: seq<Event> :| Run(c, states, events) && states[|events|] == s;
    RunKeepsInv(c, states, events, |events|);
  }

  /** The call that is in flight in a state of a run. */
  ghost predicate CalledFrom(states: seq<State>, events: seq<Event>, m: nat, n: nat)
    requires m < n < |states| && n <= |events|
  {
    && events[m].Call? && states[m].phase.Reading? && (forall j :: j in states[m].phase.jobs ==> j.finished)
    && (forall p :: p in events[m].members ==> p.ours && p.node == "" && !p.deleting && !p.terminal)
    && (forall i :: m < i <= n ==> states[i].phase.Calling?)
  }

  lemma {:induction false} CallInFlight(c: Timing, states: seq<State>, events: seq<Event>, n: nat)
    requires Run(c, states, events) && n < |states| && states[n].phase.Calling?
    ensures exists m :: 0 <= m < n && CalledFrom(states, events, m, n)
  {
    var k := n - 1;
    assert Next(c, states[k], events[k], states[k + 1]);
    if events[k].Call? {
      assert CalledFrom(states, events, k, n);
    } else {
      CallInFlight(c, states, events, k);
      var m :| 0 <= m < k && CalledFrom(states, events, m, k);
      assert CalledFrom(states, events, m, n);
    }
  }

  /** Every allocation that Slurm commits in a run comes from a call that saw only finished jobs and only members
      that could still be scheduled. */
  lemma SubmissionsEligible(c: Timing, states: seq<State>, events: seq<Event>, n: nat)
    requires Run(c, states, events) && n < |events| && events[n].Commit?
    ensures exists m :: 0 <= m < n && CalledFrom(states, events, m, n)
  {
    assert Next(c, states[n], events[n], states[n + 1]);
    CallInFlight(c, states, events, n);
  }

  lemma Extend(c: Timing, s: State, e: Event, t: State)
    requires Reachable(c, s) && Next(c, s, e, t)
    ensures Reachable(c, t)
  {
    var states: seq<State>, events: seq<Event> :| Run(c, states, events) && states[|events|] == s;
    var states', events' := states + [t], events + [e];
    assert Run(c, states', events') && states'[|events'|] == t;
  }

  lemma FirstCall(c: Timing) returns (s: State)
    ensures Reachable(c, s)
    ensures s == State(map[], 1, 0, 1, 0, Some(Snapshot(map[], 1, 0)), Some(Snapshot(map[], 1, 0)), None,
                       Calling(Snapshot(map[], 1, 0), None), 0)
  {
    var empty := Snapshot(map[], 1, 0);
    var s0 := State(map[], 1, 0, 1, 0, None, None, None, Idle, 0);
    var states, events: seq<Event> := [s0], [];
    assert Run(c, states, events) && states[|events|] == s0;
    var s1 := s0.(polled := Some(empty));
    Extend(c, s0, Poll, s1);
    var s2 := s1.(cache := Some(empty));
    Extend(c, s1, Install, s2);
    var s3 := s2.(phase := Reading(empty, [], 0));
    Extend(c, s2, Read([]), s3);
    s := s3.(phase := Calling(empty, None));
    Extend(c, s3, Call([]), s);
  }

  lemma FirstCommit(c: Timing) returns (s: State)
    ensures Reachable(c, s)
    ensures s == State(map[1 := Job(1, false)], 2, 1, 2, 0, Some(Snapshot(map[], 1, 0)), Some(Snapshot(map[], 1, 0)),
                       None, Calling(Snapshot(map[], 1, 0), Some(1)), 0)
  {
    var called := FirstCall(c);
    assert Components(1, 1) == map[1 := Job(1, false)];
    s := called.(jobs := map[1 := Job(1, false)], next := 2, latest := 1, last := 2,
                 phase := Calling(Snapshot(map[], 1, 0), Some(1)));
    Extend(c, called, Commit(1), s);
  }

  lemma FirstSubmission(c: Timing) returns (s: State)
    ensures Reachable(c, s)
    ensures s == State(map[1 := Job(1, false)], 2, 1, 2, 0, Some(Snapshot(map[], 1, 0)), Some(Snapshot(map[], 1, 0)),
                       Some(Memo(0, 0)), Idle, 0)
  {
    var committed := FirstCommit(c);
    s := committed.(memo := Some(Memo(0, 0)), phase := Idle);
    Extend(c, committed, Return(Returned(0)), s);
  }

  /** A call may be answered in each of the three ways: refused, accepted with the ID, or accepted with the ID lost. */
  lemma EveryReply(c: Timing) returns (refused: State, accepted: State, lost: State)
    ensures Reachable(c, refused) && refused.jobs == map[] && refused.memo == None && refused.phase.Idle?
    ensures Reachable(c, accepted) && accepted.jobs == map[1 := Job(1, false)] && accepted.memo == Some(Memo(1, 0))
    ensures Reachable(c, lost) && lost.jobs == map[1 := Job(1, false)] && lost.memo == Some(Memo(0, 0))
  {
    var called := FirstCall(c);
    refused := called.(memo := None, phase := Idle);
    Extend(c, called, Return(NotSubmitted), refused);
    var committed := FirstCommit(c);
    accepted := committed.(memo := Some(Memo(1, 0)), phase := Idle);
    Extend(c, committed, Return(Returned(1)), accepted);
    lost := FirstSubmission(c);
  }

  /** With a shorter cooldown a lost response is forgotten while the informer still misses the job. */
  lemma ShortCooldownIsUnsafe(c: Timing)
    requires c.lag + c.duration >= c.cooldown
    ensures !Safe(c)
  {
    var s := FirstSubmission(c);
    var s1 := s.(now := c.lag);
    Extend(c, s, Tick(c.lag), s1);
    var view := s.cache.value;
    var s2 := s1.(phase := Reading(view, [], c.lag));
    Extend(c, s1, Read([]), s2);
    var s3 := s2.(now := c.lag + c.duration);
    Extend(c, s2, Tick(c.duration), s3);
    var s4 := s3.(phase := Calling(view, None));
    Extend(c, s3, Call([]), s4);
    assert Components(2, 1) == map[2 := Job(2, false)];
    var s5 := s4.(jobs := map[1 := Job(1, false), 2 := Job(2, false)], next := 3, latest := 2, last := 3,
                  committedAt := c.lag + c.duration, phase := Calling(view, Some(2)));
    Extend(c, s4, Commit(1), s5);
    assert !s5.jobs[1].finished && !s5.jobs[2].finished && s5.jobs[1].alloc != s5.jobs[2].alloc;
  }

  /** The exact timing condition: informer lag plus one reconcile must stay below the cooldown. */
  lemma SafeExactly(c: Timing)
    ensures Safe(c) <==> c.lag + c.duration < c.cooldown
  {
    if c.lag + c.duration < c.cooldown {
      forall s | Reachable(c, s) ensures OneUnfinished(s.jobs) {
        AtMostOneAllocation(c, s);
      }
    } else {
      ShortCooldownIsUnsafe(c);
    }
  }

  const SYNC_PERIOD_SECONDS := 30
  const COOLDOWN_SECONDS := 2 * SYNC_PERIOD_SECONDS

  /** With the shipped constants and an informer at most one sync period behind, a reconcile has one
      sync period to reach its submission check. */
  lemma ShippedConstants(duration: nat)
    ensures SYNC_PERIOD_SECONDS == 30 && COOLDOWN_SECONDS == 60
    ensures Safe(Timing(SYNC_PERIOD_SECONDS, duration, COOLDOWN_SECONDS)) <==> duration < 30
  {
    SafeExactly(Timing(SYNC_PERIOD_SECONDS, duration, COOLDOWN_SECONDS));
  }
}
