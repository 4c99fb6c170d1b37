/** Whether the exclusions sent with a release are still the last recorded ones. A work carries those recorded when it
    was prepared; a result recorded while its progress is being updated is neither sent nor kept (slurmbridge.go,
    PostFilter; release.go). */
module ReleaseFreshness {
  import opened Ordering
  import opened EligibilityUpdate
  import opened HoldRelease

  // --- the components of a live work are recorded ---

  ghost predicate Carried(s: State, w: Work) {
    w.progress.Some? ==> forall i :: 0 <= i < |w.ir| ==> w.ir[i].name in Load(s, w.progress.value).components
  }

  ghost predicate AllCarried(s: State) {
    forall key, w :: LiveAt(s, key, w) ==> Carried(s, w)
  }

  /** No move takes a component out of an existing progress. */
  lemma ComponentsStay(het: Key -> bool, s: State, m: Move, t: State, h: Handle)
    requires Next(het, s, m, t) && h.serial < s.made
    ensures Load(s, h).components.Keys <= Load(t, h).components.Keys
  {
    match m {
      case Filtered(key, ir, index, pinned, held, now) => RecordedStay(s, key, ir, index, pinned, held, now, h);
      case _ =>
    }
  }

  lemma RecordedStay(s: State, key: Key, ir: seq<Component>, index: nat, pinned: seq<Job>, held: bool, now: int,
                     h: Handle)
    requires index < |ir| && h.serial < s.made
    ensures Load(s, h).components.Keys <= Load(Record(s, key, ir, index, pinned, held, now), h).components.Keys
  {
    var t := Note(s, key, ir[index].name, ir[index].exclusions, held, now);
    assert Load(s, h).components.Keys <= Load(t, h).components.Keys;
  }

  ghost predicate Descends(s: State, key: Key, w: Work) {
    exists v :: LiveAt(s, key, v) && v.ir == w.ir && v.progress == w.progress
  }

  lemma FilteredFrom(s: State, k: Key, ir: seq<Component>, index: nat, pinned: seq<Job>, held: bool, now: int, key: Key,
                     w: Work)
    requires index < |ir| && LiveAt(Record(s, k, ir, index, pinned, held, now), key, w)
    ensures Descends(s, key, w) || Carried(Record(s, k, ir, index, pinned, held, now), w)
  {
    if LiveAt(s, key, w) {
    } else {
      assert Record(s, k, ir, index, pinned, held, now).phase == Queuing(key, w);
    }
  }

  lemma FinishFrom(s: State, k: Key, log: seq<Event>, status: Status, key: Key, w: Work)
    requires k in s.flying && LiveAt(FinishWork(s, k, log, status), key, w)
    ensures Descends(s, key, w)
  {
    if !LiveAt(s, key, w) {
      assert LiveAt(s, key, s.flying[k]);
    }
  }

  /** A work live after a move was live before it, or was just prepared from complete results. */
  lemma CameFrom(het: Key -> bool, s: State, m: Move, t: State, key: Key, w: Work)
    requires Next(het, s, m, t) && LiveAt(t, key, w)
    ensures Descends(s, key, w) || Carried(t, w)
  {
    match m {
      case Filtered(k, ir, index, pinned, held, now) => FilteredFrom(s, k, ir, index, pinned, held, now, key, w);
      case Finish(k, log, status) => FinishFrom(s, k, log, status, key, w);
      case Ready(_, _, _, _) => assert w.progress.Some? ==> LiveAt(s, key, w);
      case _ => assert LiveAt(s, key, w);
    }
  }

  lemma CarriedNext(het: Key -> bool, s: State, m: Move, t: State)
    requires Inv(het, s) && AllCarried(s) && Next(het, s, m, t)
    ensures AllCarried(t)
  {
    forall key, w | LiveAt(t, key, w) ensures Carried(t, w) {
      CameFrom(het, s, m, t, key, w);
      if w.progress.Some? && Descends(s, key, w) {
        var v :| LiveAt(s, key, v) && v.ir == w.ir && v.progress == w.progress;
        assert KeyInv(het, s, key) && WorkOk(het, s, key, v);
        ComponentsStay(het, s, m, t, w.progress.value);
      }
    }
  }

  lemma {:induction false} CarriedRun(het: Key -> bool, moves: seq<Move>, t: State)
    requires Run(het, moves, t)
    ensures AllCarried(t)
  {
    if moves != [] {
      var s :| Run(het, moves[..|moves| - 1], s) && Next(het, s, moves[|moves| - 1], t);
      CarriedRun(het, moves[..|moves| - 1], s);
      RunKeeps(het, moves[..|moves| - 1], s);
      CarriedNext(het, s, moves[|moves| - 1], t);
    }
  }

  // --- the exact condition ---

  /** The work belongs to the key's progress. */
  ghost predicate Tracked(s: State, key: Key, w: Work) {
    LiveAt(s, key, w) && key in s.pending && w.progress == Some(s.pending[key])
  }

  /** The progress still has what the work carries: a comparison of two records the scheduler holds. */
  ghost predicate StillRecorded(s: State, w: Work) {
    w.progress.Some? && forall i :: 0 <= i < |w.ir| ==>
      && w.ir[i].name in Load(s, w.progress.value).components
      && Load(s, w.progress.value).components[w.ir[i].name] == w.ir[i].exclusions
  }

  /** At any time before its attempt, a work carries the last recorded exclusions of every component if and only if they
      are those in its progress. */
  lemma CurrentExactly(het: Key -> bool, s: State, key: Key, w: Work)
    requires Reachable(het, s) && Tracked(s, key, w)
    ensures UpToDate(s.history, key, w.ir) <==> StillRecorded(s, w)
  {
    ReachableInv(het, s);
    var moves :| Run(het, moves, s);
    CarriedRun(het, moves, s);
    assert KeyInv(het, s, key) && Carried(s, w);
    var p := Load(s, s.pending[key]);
    forall i | 0 <= i < |w.ir| ensures NotedAs(s.history, key, w.ir[i].name, p) {
    }
  }

  /** A cycle looked at one of the work's components again and got another result. */
  ghost predicate Supersedes(m: Move, key: Key, w: Work) {
    && m.Filtered? && m.key == key && m.index < |m.ir|
    && exists i ::
         0 <= i < |w.ir| && w.ir[i].name == m.ir[m.index].name && w.ir[i].exclusions != m.ir[m.index].exclusions
  }

  lemma FilteredHistory(s: State, key: Key, ir: seq<Component>, index: nat, pinned: seq<Job>, held: bool, now: int,
                        name: string)
    requires index < |ir|
    ensures Last(Record(s, key, ir, index, pinned, held, now).history, key, name) ==
              if name == ir[index].name then Some(Feasible(key, name, ir[index].exclusions, held))
                 else Last(s.history, key, name)
  {
    var e := Feasible(key, ir[index].name, ir[index].exclusions, held);
    Appended(s.history, e);
    var t := Note(s, key, ir[index].name, ir[index].exclusions, held, now);
    var p := Load(t, t.pending[key]);
    if Complete(p.components, ir) && !p.updating {
      Appended(t.history, Prepared(key, Launch(t, key, ir, pinned).phase.work));
    }
  }

  lemma OtherHistory(het: Key -> bool, s: State, m: Move, t: State, key: Key, name: string)
    requires Next(het, s, m, t) && !(m.Filtered? && m.key == key)
    ensures Last(t.history, key, name) == Last(s.history, key, name)
  {
    match m {
      case Filtered(other, ir, index, pinned, held, now) =>
        var e := Feasible(other, ir[index].name, ir[index].exclusions, held);
        Appended(s.history, e);
        var u := Note(s, other, ir[index].name, ir[index].exclusions, held, now);
        var p := Load(u, u.pending[other]);
        if Complete(p.components, ir) && !p.updating {
          Appended(u.history, Prepared(other, Launch(u, other, ir, pinned).phase.work));
        }
      case Ready(other, ir, pinned, held) => Appended(s.history,
                                                      Prepared(other, Work(s.made, None, ir, pinned, held, 0)));
      case Finish(other, log, status) => Appended(s.history, Attempted(other, s.flying[other], log, status));
      case _ =>
    }
  }

  /** A current work ceases to be current by nothing but a cycle that gets another result for one of its components. */
  lemma SupersededOnly(het: Key -> bool, s: State, m: Move, t: State, key: Key, w: Work)
    requires Next(het, s, m, t) && UpToDate(s.history, key, w.ir)
    ensures UpToDate(t.history, key, w.ir) <==> !Supersedes(m, key, w)
  {
    forall i | 0 <= i < |w.ir|
      ensures Last(t.history, key, w.ir[i].name).Some?
      ensures Last(t.history, key, w.ir[i].name).value.exclusions ==
                if m.Filtered? && m.key == key && w.ir[i].name == m.ir[m.index].name then m.ir[m.index].exclusions
                else Last(s.history, key, w.ir[i].name).value.exclusions
    {
      if m.Filtered? && m.key == key {
        FilteredHistory(s, key, m.ir, m.index, m.pinned, m.held, m.now, w.ir[i].name);
      } else {
        OtherHistory(het, s, m, t, key, w.ir[i].name);
      }
    }
  }

  /** Such a cycle found the progress being updated: it only records its result, and queues nothing. */
  lemma SkippedConcurrent(het: Key -> bool, s: State, m: Move, t: State, key: Key, w: Work)
    requires Reachable(het, s) && Tracked(s, key, w) && Next(het, s, m, t) && m.Filtered? && m.key == key
    ensures Load(s, s.pending[key]).updating
    ensures t.phase == s.phase && t.queued == s.queued && t.flying == s.flying && t.pending[key] == s.pending[key]
    ensures Load(t, s.pending[key]).components ==
              Load(s, s.pending[key]).components[m.ir[m.index].name := m.ir[m.index].exclusions]
  {
    ReachableInv(het, s);
    assert KeyInv(het, s, key) && WorkOk(het, s, key, w);
    assert !Stale(s, s.pending[key], m.now);
  }

  /** Over any stretch of a run. */
  lemma {:induction false} StaysCurrent(het: Key -> bool, states: seq<State>, moves: seq<Move>, key: Key, w: Work)
    requires |states| == |moves| + 1 && forall k :: 0 <= k < |moves| ==> Next(het, states[k], moves[k], states[k + 1])
    requires UpToDate(states[0].history, key, w.ir) && forall k :: 0 <= k < |moves| ==> !Supersedes(moves[k], key, w)
    ensures UpToDate(states[|moves|].history, key, w.ir)
    decreases |moves|
  {
    if moves != [] {
      var n := |moves| - 1;
      StaysCurrent(het, states[..|moves|], moves[..n], key, w);
      assert Next(het, states[n], moves[n], states[n + 1]);
      SupersededOnly(het, states[n], moves[n], states[n + 1], key, w);
    }
  }

  // --- at the release ---

  /** Each component's update with the exclusions last recorded for it was acknowledged. */
  ghost predicate LatestUpdated(history: seq<Item>, key: Key, ir: seq<Component>, log: seq<Event>) {
    forall i :: 0 <= i < |ir| ==>
      Last(history, key, ir[i].name).Some?
      && Updated(i, Last(history, key, ir[i].name).value.exclusions, None, Acknowledged) in log
  }

  lemma SentAsPrepared(ir: seq<Component>, held: bool, pinned: seq<Job>, log: seq<Event>, status: Status, m: nat,
                       i: nat, exclusions: seq<string>)
    requires Follows(ir, held, pinned, log, status) && m <= |log| && i < |ir|
    requires Updated(i, exclusions, None, Acknowledged) in log[..m]
    ensures exclusions == ir[i].exclusions
  {
    var k :| 0 <= k < m && log[k] == Updated(i, exclusions, None, Acknowledged);
    assert log[k].Step() == Plan(ir, held, k);
  }

  /** When an attempt released a component, every component had been updated with its last recorded exclusions if and
      only if the progress still had what the work carries. */
  lemma ReleaseCurrentExactly(het: Key -> bool, s: State, key: Key, log: seq<Event>, status: Status, t: State, m: nat)
    requires Reachable(het, s) && Next(het, s, Finish(key, log, status), t) && Tracked(s, key, s.flying[key])
    requires m < |log| && log[m].Released?
    ensures m > 0
            && (LatestUpdated(s.history, key, s.flying[key].ir, log[..m - 1]) <==> StillRecorded(s, s.flying[key]))
  {
    var w := s.flying[key];
    ReleaseGuarded(w.ir, w.held, w.pinned, log, status, m);
    CurrentExactly(het, s, key, w);
    if LatestUpdated(s.history, key, w.ir, log[..m - 1]) {
      forall i | 0 <= i < |w.ir| ensures Last(s.history, key, w.ir[i].name).value.exclusions == w.ir[i].exclusions {
        SentAsPrepared(w.ir, w.held, w.pinned, log, status, m - 1, i,
                       Last(s.history, key, w.ir[i].name).value.exclusions);
      }
    }
  }

  /** After a successful release neither a progress nor a work of the key is left, so a result recorded in the meantime
      is lost until a cycle computes it again. */
  lemma SuccessForgets(het: Key -> bool, s: State, key: Key, log: seq<Event>, t: State)
    requires Reachable(het, s) && Next(het, s, Finish(key, log, Success), t) && Tracked(s, key, s.flying[key])
    ensures key !in t.pending && forall w :: !LiveAt(t, key, w)
  {
    ReachableInv(het, s);
    assert KeyInv(het, s, key) && WorkOk(het, s, key, s.flying[key]);
    forall w | LiveAt(s, key, w) ensures w == s.flying[key] {
      assert WorkOk(het, s, key, w);
    }
  }

  // --- over the whole history ---

  /** No later result, or the same one. */
  ghost predicate Confirmed(later: seq<Item>, key: Key, component: Component) {
    var last := Last(later, key, component.name);
    last.Some? ==> last.value.exclusions == component.exclusions
  }

  lemma {:induction false} LastOfBoth(a: seq<Item>, b: seq<Item>, key: Key, name: string)
    ensures Last(a + b, key, name) == if Last(b, key, name).Some? then Last(b, key, name) else Last(a, key, name)
    decreases |b|
  {
    if b == [] {
      assert a + b == a;
    } else {
      var before, e := b[..|b| - 1], b[|b| - 1];
      assert a + b == (a + before) + [e] && b == before + [e];
      Appended(a + before, e);
      Appended(before, e);
      LastOfBoth(a, before, key, name);
    }
  }

  /** What HeldReleaseSafe leaves open: the exclusions sent with a release were still the last recorded ones if and only
      if no result recorded between the preparation and the end of the attempt differs from what was prepared. */
  lemma ReleasedCurrent(het: Key -> bool, s: State, n: nat, m: nat) returns (p: nat)
    requires Reachable(het, s) && n < |s.history| && s.history[n].Attempted? && het(s.history[n].key)
    requires m < |s.history[n].log| && s.history[n].log[m].Released?
    ensures p < n && PreparedAt(s.history, p, s.history[n].key, s.history[n].work)
    ensures UpToDate(s.history[..n], s.history[n].key, s.history[n].work.ir)
            <==> forall i :: 0 <= i < |s.history[n].work.ir| ==>
              Confirmed(s.history[p..n], s.history[n].key, s.history[n].work.ir[i])
  {
    p := HeldReleaseSafe(het, s, n, m);
    var key, ir := s.history[n].key, s.history[n].work.ir;
    assert s.history[..n] == s.history[..p] + s.history[p..n];
    forall i | 0 <= i < |ir|
      ensures Last(s.history[..n], key, ir[i].name).Some?
      ensures Last(s.history[..n], key, ir[i].name).value.exclusions == ir[i].exclusions <==>
                Confirmed(s.history[p..n], key, ir[i])
    {
      LastOfBoth(s.history[..p], s.history[p..n], key, ir[i].name);
    }
  }

  // --- a run that releases with superseded exclusions ---

  function A(exclusions: seq<string>): Component { Component("a", exclusions, None, [1]) }

  function B(exclusions: seq<string>): Component { Component("b", exclusions, None, [2]) }

  const PINNED := [Job(1, 1, false), Job(2, 1, false)]

  const SENT := [A(["n1"]), B(["n2"])]

  const ATTEMPT := [
    Checked(0, Jobs(PINNED), Success), Updated(0, ["n1"], None, Acknowledged), Updated(1, ["n2"], None, Acknowledged),
    Checked(0, Jobs(PINNED), Success), Released(0, 1, None, true),
    Checked(1, Jobs(PINNED), Success), Released(1, 2, None, true)]

  lemma AttemptFollows()
    ensures Follows(SENT, true, PINNED, ATTEMPT, Success)
  {
    forall n | 0 <= n < |ATTEMPT| ensures ATTEMPT[n].Step() == Plan(SENT, true, n) && Pinned(SENT, PINNED, ATTEMPT[n]) {
    }
  }

  lemma OneMoreMove(het: Key -> bool, moves: seq<Move>, s: State, m: Move, t: State)
    requires Run(het, moves, s) && Next(het, s, m, t)
    ensures Run(het, moves + [m], t)
  {
    var more := moves + [m];
    assert more[..|more| - 1] == moves && Next(het, s, more[|more| - 1], t);
  }

  function Shared(key: Key): Handle { Handle(key, 0) }

  function Waiting(key: Key): Work { Work(2, Some(Shared(key)), SENT, PINNED, true, 0) }

  /** The progress of the key with these results. */
  function Noted(key: Key, components: map<string, seq<string>>, updating: bool): map<Handle, Progress> {
    map[Shared(key) := Progress(components, true, updating, 0)]
  }

  function Looked(key: Key): seq<Item> { [Feasible(key, "a", ["n1"], true)] }

  function PreparedItems(key: Key): seq<Item> {
    Looked(key) + [Feasible(key, "b", ["n2"], true)] + [Prepared(key, Waiting(key))]
  }

  function Superseded(key: Key): seq<Item> { PreparedItems(key) + [Feasible(key, "a", ["n1", "n3"], true)] }

  const BOTH := map["a" := ["n1"], "b" := ["n2"]]

  const LATER := map["a" := ["n1", "n3"], "b" := ["n2"]]

  function AfterFirst(key: Key): State {
    State(Noted(key, map["a" := ["n1"]], false), map[key := Shared(key)], map[], map[], {}, Idle, 0, 1, Looked(key))
  }

  function AfterSecond(key: Key): State {
    State(Noted(key, BOTH, true), map[key := Shared(key)], map[], map[], {}, Queuing(key, Waiting(key)), 0, 3,
          PreparedItems(key))
  }

  function WorkQueued(key: Key): State {
    State(Noted(key, BOTH, true), map[key := Shared(key)], map[key := Waiting(key)], map[], {key}, Idle, 1, 3,
          PreparedItems(key))
  }

  function LookedAgain(key: Key): State {
    State(Noted(key, LATER, true), map[key := Shared(key)], map[key := Waiting(key)], map[], {key}, Idle, 1, 4,
          Superseded(key))
  }

  function WorkTaken(key: Key): State {
    State(Noted(key, LATER, true), map[key := Shared(key)], map[], map[key := Waiting(key)], {}, Idle, 1, 4,
          Superseded(key))
  }

  lemma LookAtFirst(key: Key)
    ensures Record(INIT, key, [A(["n1"]), B([])], 0, PINNED, true, 0) == AfterFirst(key)
  {
    var t := Note(INIT, key, "a", ["n1"], true, 0);
    assert Evicted(INIT, 0) == map[];
    assert t.store == Noted(key, map["a" := ["n1"]], false) && t.pending == map[key := Shared(key)];
    assert t.history == Looked(key) && t == AfterFirst(key);
    assert !Complete(Load(t, t.pending[key]).components, [A(["n1"]), B([])]) by {
      assert [A(["n1"]), B([])][1].name == "b";
    }
  }

  lemma LookAtSecond(key: Key)
    ensures Record(AfterFirst(key), key, [A([]), B(["n2"])], 1, PINNED, true, 0) == AfterSecond(key)
  {
    var ir := [A([]), B(["n2"])];
    assert Evicted(AfterFirst(key), 0) == map[key := Shared(key)];
    var t := Note(AfterFirst(key), key, "b", ["n2"], true, 0);
    assert t.store == Noted(key, BOTH, false);
    assert FilledAll(BOTH, ir) == SENT;
    assert Launch(t, key, ir, PINNED).store == Noted(key, BOTH, true);
  }

  lemma LookAgain(key: Key)
    ensures Record(WorkQueued(key), key, [A(["n1", "n3"]), B([])], 0, PINNED, true, 0) == LookedAgain(key)
  {
    assert Evicted(WorkQueued(key), 0) == map[key := Shared(key)];
    var t := Note(WorkQueued(key), key, "a", ["n1", "n3"], true, 0);
    assert BOTH["a" := ["n1", "n3"]] == LATER;
    assert t.store == Noted(key, LATER, true);
  }

  /** Both components are looked at, the second cycle prepares and queues the work, and the first is looked at again. */
  lemma RunToQueued(het: Key -> bool, key: Key)
    requires het(key)
    ensures Reachable(het, LookedAgain(key))
  {
    var one, two, three := [A(["n1"]), B([])], [A([]), B(["n2"])], [A(["n1", "n3"]), B([])];
    LookAtFirst(key);
    LookAtSecond(key);
    LookAgain(key);
    var s3 := ReleaseHold(AfterSecond(key));
    assert s3.(wake := s3.wake + {key}, phase := Idle) == WorkQueued(key);
    Grow(het, INIT, Filtered(key, one, 0, PINNED, true, 0), AfterFirst(key));
    Grow(het, AfterFirst(key), Filtered(key, two, 1, PINNED, true, 0), AfterSecond(key));
    Grow(het, AfterSecond(key), Enqueue, s3);
    Grow(het, s3, Notify, WorkQueued(key));
    Grow(het, WorkQueued(key), Filtered(key, three, 0, PINNED, true, 0), LookedAgain(key));
  }

  lemma Grow(het: Key -> bool, s: State, m: Move, t: State)
    requires (s == INIT || Reachable(het, s)) && Next(het, s, m, t)
    ensures Reachable(het, t)
  {
    if s == INIT {
      assert Run(het, [], s);
      OneMoreMove(het, [], s, m, t);
    } else {
      var moves :| Run(het, moves, s);
      OneMoreMove(het, moves, s, m, t);
    }
  }

  /** Then the work is attempted: the release is based on exclusions that are no longer the last ones, and nothing is
      left that would send those. */
  lemma SupersededRun(het: Key -> bool, key: Key) returns (s: State, n: nat)
    requires het(key)
    ensures Reachable(het, s) && n < |s.history| && s.history[n] == Attempted(key, Waiting(key), ATTEMPT, Success)
    ensures Waiting(key).ir[0].name == "a" && Waiting(key).ir[0].exclusions == ["n1"]
    ensures Last(s.history[..n], key, "a") == Some(Feasible(key, "a", ["n1", "n3"], true))
    ensures key !in s.pending && forall w :: !LiveAt(s, key, w)
  {
    RunToQueued(het, key);
    assert TakeWork(LookedAgain(key), key) == WorkTaken(key);
    Grow(het, LookedAgain(key), Take(key), WorkTaken(key));
    AttemptFollows();
    s := FinishWork(WorkTaken(key), key, ATTEMPT, Success);
    Grow(het, WorkTaken(key), Finish(key, ATTEMPT, Success), s);
    n := |WorkTaken(key).history|;
    assert s.history[..n] == WorkTaken(key).history;
    Appended(PreparedItems(key), Feasible(key, "a", ["n1", "n3"], true));
  }
}
