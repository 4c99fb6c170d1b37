/** The hold-release queue (release.go) and the part of PostFilter that feeds it (slurmbridge.go). Every move below is
    one critical section of the plugin's mutex, or one call of the work queue; the scheduler makes its moves one at a
    time, and the work queue runs at most one release per key. */
module HoldRelease {
  import opened Ordering
  import opened EligibilityUpdate

  const MAX_RELEASE_ATTEMPTS := 5
  const PENDING_TIMEOUT_SECONDS := 300

  datatype Key = Key(uid: string, jobId: int)

  /** A reference to a progress record, named by its key and the moment it was made. */
  datatype Handle = Handle(key: Key, serial: nat)

  datatype Progress = Progress(components: map<string, seq<string>>, held: bool, updating: bool, updated: int)

  datatype Work = Work(serial: nat, progress: Option<Handle>, ir: seq<Component>, pinned: seq<Job>, held: bool,
                       attempts: nat)

  /** The scheduler thread: nothing to do, about to queue a work, or about to send its event. */
  datatype Phase = Idle | Queuing(key: Key, work: Work) | Notifying(key: Key)

  /** What happened so far, for stating properties of whole runs. */
  datatype Item = Feasible(key: Key, name: string, exclusions: seq<string>, held: bool)
                | Prepared(key: Key, work: Work)
                | Attempted(key: Key, work: Work, log: seq<Event>, status: Status)

  datatype State = State(
    store: map<Handle, Progress>, pending: map<Key, Handle>, queued: map<Key, Work>, flying: map<Key, Work>,
    wake: set<Key>, phase: Phase, outstanding: int, made: nat, history: seq<Item>)

  datatype Move =
    | Filtered(key: Key, ir: seq<Component>, index: nat, pinned: seq<Job>, held: bool, now: int)
    | Ready(key: Key, ir: seq<Component>, pinned: seq<Job>, held: bool)
    | Started(key: Key)
    | Enqueue
    | Notify
    | Take(key: Key)
    | Finish(key: Key, log: seq<Event>, status: Status)

  // --- recordComponent ---

  /** Fill in what an earlier cycle recorded for a component this cycle did not look at. */
  function Filled(recorded: map<string, seq<string>>, component: Component): (r: Component)
    requires component.name in recorded
    ensures r.exclusions == recorded[component.name] <==> component.exclusions in {[], recorded[component.name]}
    ensures r == component.(exclusions := r.exclusions)
  {
    if component.exclusions == [] then component.(exclusions := recorded[component.name]) else component
  }

  predicate Complete(recorded: map<string, seq<string>>, ir: seq<Component>) {
    forall i :: 0 <= i < |ir| ==> ir[i].name in recorded
  }

  function FilledAll(recorded: map<string, seq<string>>, ir: seq<Component>): seq<Component>
    requires Complete(recorded, ir)
  {
    seq(|ir|, i requires 0 <= i < |ir| => Filled(recorded, ir[i]))
  }

  /** recordComponent, in place on the components of this cycle. */
  method RecordComponent(components: map<string, seq<string>>, ir: array<Component>, index: nat)
    returns (recorded: map<string, seq<string>>, complete: bool)
    requires index < ir.Length
    modifies ir
    ensures recorded == components[old(ir[index].name) := old(ir[index].exclusions)]
    ensures complete <==> Complete(recorded, old(ir[..]))
    ensures complete ==> ir[..] == FilledAll(recorded, old(ir[..]))
  {
    recorded := components[ir[index].name := ir[index].exclusions];
    for i := 0 to ir.Length
      invariant forall j :: 0 <= j < i ==> old(ir[j]).name in recorded && ir[j] == Filled(recorded, old(ir[j]))
      invariant forall j :: i <= j < ir.Length ==> ir[j] == old(ir[j])
    {
      if ir[i].name !in recorded {
        assert old(ir[..])[i].name !in recorded;
        return recorded, false;
      }
      var excluded := recorded[ir[i].name];
      if |excluded| > 0 && |ir[i].exclusions| == 0 {
        ir[i] := ir[i].(exclusions := excluded);
      }
    }
    complete := true;
  }

  // --- the moves ---

  function Fetch(store: map<Handle, Progress>, h: Handle): Progress {
    if h in store then store[h] else Progress(map[], false, false, 0)
  }

  function Load(s: State, h: Handle): Progress {
    Fetch(s.store, h)
  }

  predicate Stale(s: State, h: Handle, now: int) {
    !Load(s, h).updating && now - Load(s, h).updated > PENDING_TIMEOUT_SECONDS
  }

  function Evicted(s: State, now: int): map<Key, Handle> {
    map k | k in s.pending && !Stale(s, s.pending[k], now) :: s.pending[k]
  }

  /** Drop stale progress, then record this component's exclusions in the key's progress, made if missing. */
  function Note(s: State, key: Key, name: string, exclusions: seq<string>, held: bool, now: int): State {
    var kept := Evicted(s, now);
    var h := if key in kept then kept[key] else Handle(key, s.made);
    var was := if key in kept then Load(s, h) else Progress(map[], false, false, now);
    s.(pending := kept[key := h], made := s.made + 1,
       store := s.store[h := Progress(was.components[name := exclusions], was.held || held, was.updating, now)],
       history := s.history + [Feasible(key, name, exclusions, held)])
  }

  /** Mark the progress as updating and prepare its work. */
  function Launch(s: State, key: Key, ir: seq<Component>, pinned: seq<Job>): State
    requires key in s.pending && Complete(Load(s, s.pending[key]).components, ir)
  {
    var h := s.pending[key];
    var p := Load(s, h);
    var work := Work(s.made, Some(h), FilledAll(p.components, ir), pinned, p.held, 0);
    s.(store := s.store[h := p.(updating := true)], phase := Queuing(key, work), made := s.made + 1,
       history := s.history + [Prepared(key, work)])
  }

  /** The critical section of PostFilter for a pending heterogeneous allocation. */
  function Record(s: State, key: Key, ir: seq<Component>, index: nat, pinned: seq<Job>, held: bool, now: int): State
    requires index < |ir|
  {
    var t := Note(s, key, ir[index].name, ir[index].exclusions, held, now);
    var p := Load(t, t.pending[key]);
    if Complete(p.components, ir) && !p.updating then Launch(t, key, ir, pinned) else t
  }

  function ReadyWork(s: State, key: Key, ir: seq<Component>, pinned: seq<Job>, held: bool): State {
    var work := Work(s.made, None, ir, pinned, held, 0);
    s.(phase := Queuing(key, work), made := s.made + 1, history := s.history + [Prepared(key, work)])
  }

  /** releaseHold: the newest work of a key replaces one still queued. */
  function ReleaseHold(s: State): State
    requires s.phase.Queuing?
  {
    var key := s.phase.key;
    s.(outstanding := if key in s.queued then s.outstanding else s.outstanding + 1,
       queued := s.queued[key := s.phase.work], phase := Notifying(key))
  }

  function TakeWork(s: State, key: Key): State {
    var woken := s.(wake := s.wake - {key});
    if key in s.queued then woken.(queued := s.queued - {key}, flying := s.flying[key := s.queued[key]]) else woken
  }

  function Cleared(s: State, work: Work): map<Handle, Progress> {
    if work.progress.Some? then s.store[work.progress.value := Load(s, work.progress.value).(updating := false)]
       else s.store
  }

  /** The end of reconcileRelease: finishRelease, or another attempt unless a newer work is queued. */
  function FinishWork(s: State, key: Key, log: seq<Event>, status: Status): State
    requires key in s.flying
  {
    var work := s.flying[key];
    var tried := work.(attempts := work.attempts + 1);
    var landed := s.(flying := s.flying - {key}, history := s.history + [Attempted(key, work, log, status)]);
    if status == Success then
      landed.(store := Cleared(s, work), pending := s.pending - {key}, outstanding := s.outstanding - 1)
    else if status == Unschedulable || tried.attempts >= MAX_RELEASE_ATTEMPTS then
      landed.(store := Cleared(s, work), outstanding := s.outstanding - 1)
    else if key in s.queued then
      landed.(outstanding := s.outstanding - 1, wake := s.wake + {key})
    else
      landed.(queued := s.queued[key := tried], wake := s.wake + {key})
  }

  /** PostFilter computed exclusions only for the component of its own Pod. */
  predicate OnlyOwn(ir: seq<Component>, index: nat) {
    forall i :: 0 <= i < |ir| && i != index ==> ir[i].exclusions == []
  }

  /** Whether an allocation is heterogeneous does not change. */
  ghost predicate Next(het: Key -> bool, s: State, m: Move, t: State) {
    match m
    case Filtered(key, ir, index, pinned, held, now) =>
      het(key) && s.phase.Idle? && index < |ir| && OnlyOwn(ir, index)
      && t == Record(s, key, ir, index, pinned, held, now)
    case Ready(key, ir, pinned, held) => !het(key) && s.phase.Idle? && t == ReadyWork(s, key, ir, pinned, held)
    case Started(key) => s.phase.Idle? && t == s.(pending := s.pending - {key})
    case Enqueue => s.phase.Queuing? && t == ReleaseHold(s)
    case Notify => s.phase.Notifying? && t == s.(wake := s.wake + {s.phase.key}, phase := Idle)
    case Take(key) => key in s.wake && key !in s.flying && t == TakeWork(s, key)
    case Finish(key, log, status) =>
      && key in s.flying && Follows(s.flying[key].ir, s.flying[key].held, s.flying[key].pinned, log, status)
      && t == FinishWork(s, key, log, status)
  }

  const INIT := State(map[], map[], map[], map[], {}, Idle, 0, 0, [])

  ghost predicate Run(het: Key -> bool, moves: seq<Move>, t: State) {
    if moves == [] then t == INIT
    else exists s {:trigger Next(het, s, moves[|moves| - 1], t)} ::
      Run(het, moves[..|moves| - 1], s) && Next(het, s, moves[|moves| - 1], t)
  }

  ghost predicate Reachable(het: Key -> bool, s: State) {
    exists moves :: Run(het, moves, s)
  }

  // --- reading a history ---

  /** The feasibility result last recorded for a component. */
  function Last(history: seq<Item>, key: Key, name: string): (r: Option<Item>)
    ensures r.Some? ==> r.value.Feasible?
  {
    if history == [] then None
    else
      var e := history[|history| - 1];
      if e.Feasible? && e.key == key && e.name == name then Some(e) else Last(history[..|history| - 1], key, name)
  }

  /** How often a work was attempted. */
  function Tries(history: seq<Item>, key: Key, serial: nat): nat {
    if history == [] then 0
    else
      var e := history[|history| - 1];
      Tries(history[..|history| - 1], key, serial)
      + (if e.Attempted? && e.key == key && e.work.serial == serial then 1 else 0)
  }

  lemma Appended(history: seq<Item>, e: Item)
    ensures forall key, name :: Last(history + [e], key, name) ==
              if e.Feasible? && e.key == key && e.name == name then Some(e) else Last(history, key, name)
    ensures forall key, serial: nat :: Tries(history + [e], key, serial) ==
              Tries(history, key, serial) + if e.Attempted? && e.key == key && e.work.serial == serial then 1 else 0
  {
    assert (history + [e])[..|history|] == history;
  }

  /** Every component of the work has a feasibility result, and the work carries the latest. */
  ghost predicate UpToDate(history: seq<Item>, key: Key, ir: seq<Component>) {
    forall i :: 0 <= i < |ir| ==>
             Last(history, key, ir[i].name).Some? && Last(history, key, ir[i].name).value.exclusions == ir[i].exclusions
  }

  /** If the allocation was held when a component was last looked at, the work treats it as held. */
  ghost predicate HoldKnown(history: seq<Item>, key: Key, ir: seq<Component>, held: bool) {
    forall i :: 0 <= i < |ir| ==>
             (Last(history, key, ir[i].name).Some? && Last(history, key, ir[i].name).value.held ==> held)
  }

  ghost predicate PreparedAt(history: seq<Item>, n: nat, key: Key, work: Work) {
    n < |history| && history[n].Prepared? && history[n].key == key && history[n].work == work.(attempts := 0)
  }

  // --- the invariant ---

  ghost predicate LiveAt(s: State, key: Key, w: Work) {
    || (key in s.queued && s.queued[key] == w) || (key in s.flying && s.flying[key] == w) || s.phase == Queuing(key, w)
  }

  ghost predicate WorkOk(het: Key -> bool, s: State, key: Key, w: Work) {
    && w.serial < s.made && w.attempts < MAX_RELEASE_ATTEMPTS && Tries(s.history, key, w.serial) == w.attempts
    && (exists n: nat :: PreparedAt(s.history, n, key, w))
    && het(key) == w.progress.Some?
    && (het(key) ==>
         w.progress.value.key == key && w.progress.value.serial < s.made && Load(s, w.progress.value).updating)
  }

  ghost predicate Older(het: Key -> bool, key: Key, a: Work, b: Work) {
    a.serial < b.serial
    && (het(key) ==> a.progress.Some? && b.progress.Some? && a.progress.value.serial < b.progress.value.serial)
  }

  ghost predicate Ordered(het: Key -> bool, s: State, key: Key) {
    && (key in s.flying && key in s.queued ==> Older(het, key, s.flying[key], s.queued[key]))
    && (s.phase.Queuing? && s.phase.key == key ==>
          && (key in s.flying ==> Older(het, key, s.flying[key], s.phase.work))
          && (key in s.queued ==> Older(het, key, s.queued[key], s.phase.work)))
  }

  /** The progress has what was last recorded for a component. */
  ghost predicate NotedAs(history: seq<Item>, key: Key, name: string, p: Progress) {
    && name in p.components && Last(history, key, name).Some?
       && Last(history, key, name).value.exclusions == p.components[name]
    && (Last(history, key, name).value.held ==> p.held)
  }

  ghost predicate PendingOk(het: Key -> bool, s: State, key: Key) {
    key in s.pending ==>
      && het(key) && s.pending[key].key == key && s.pending[key].serial < s.made
      && (forall w :: LiveAt(s, key, w) ==> w.progress.Some? && w.progress.value.serial <= s.pending[key].serial)
      && (Load(s, s.pending[key]).updating ==> exists w :: LiveAt(s, key, w) && w.progress == Some(s.pending[key]))
      && (forall name :: name in Load(s, s.pending[key]).components ==>
           NotedAs(s.history, key, name, Load(s, s.pending[key])))
  }

  ghost predicate WorksOk(het: Key -> bool, s: State, key: Key) {
    forall w :: LiveAt(s, key, w) ==> WorkOk(het, s, key, w)
  }

  ghost predicate KeyInv(het: Key -> bool, s: State, key: Key) {
    && WorksOk(het, s, key)
    && Ordered(het, s, key) && PendingOk(het, s, key)
    && (key in s.queued ==> key in s.wake || s.phase == Notifying(key))
    && (forall serial: nat :: Tries(s.history, key, serial) <= if serial < s.made then MAX_RELEASE_ATTEMPTS else 0)
  }

  ghost predicate ItemOk(het: Key -> bool, history: seq<Item>, n: nat)
    requires n < |history|
  {
    match history[n]
    case Feasible(_, _, _, _) => true
    case Prepared(key, work) => het(key) ==>
      UpToDate(history[..n], key, work.ir) && HoldKnown(history[..n], key, work.ir, work.held)
    case Attempted(key, work, log, status) =>
      Follows(work.ir, work.held, work.pinned, log, status)
      && exists p: nat :: p < n && PreparedAt(history, p, key, work)
  }

  ghost predicate Inv(het: Key -> bool, s: State) {
    && s.outstanding == |s.queued| + |s.flying|
    && (forall key :: KeyInv(het, s, key))
    && (forall n :: 0 <= n < |s.history| ==> ItemOk(het, s.history, n))
  }

  /** Nothing a key's invariant speaks of got worse. */
  ghost predicate Untouched(s: State, t: State, key: Key) {
    && (key in t.queued <==> key in s.queued) && (key in s.queued ==> t.queued[key] == s.queued[key])
    && (key in t.flying <==> key in s.flying) && (key in s.flying ==> t.flying[key] == s.flying[key])
    && (forall w :: t.phase == Queuing(key, w) <==> s.phase == Queuing(key, w))
    && (key in s.wake || s.phase == Notifying(key) ==> key in t.wake || t.phase == Notifying(key))
    && (key in t.pending ==> key in s.pending && t.pending[key] == s.pending[key])
    && (forall h: Handle :: h.key == key ==> Load(t, h) == Load(s, h))
    && SameHistory(s, t, key)
  }

  ghost predicate SameHistory(s: State, t: State, key: Key) {
    && t.made >= s.made && s.history <= t.history
    && (forall name :: Last(t.history, key, name) == Last(s.history, key, name))
    && (forall serial: nat :: Tries(t.history, key, serial) == Tries(s.history, key, serial))
  }

  lemma OtherKey(het: Key -> bool, s: State, t: State, key: Key)
    requires KeyInv(het, s, key) && Untouched(s, t, key)
    ensures KeyInv(het, t, key)
  {
    forall w | LiveAt(t, key, w) ensures WorkOk(het, t, key, w) {
      assert LiveAt(s, key, w);
      var n: nat :| PreparedAt(s.history, n, key, w);
      assert PreparedAt(t.history, n, key, w);
    }
    if key in t.pending && Load(t, t.pending[key]).updating {
      var w :| LiveAt(s, key, w) && w.progress == Some(s.pending[key]);
      assert LiveAt(t, key, w);
    }
  }

  lemma ItemsKept(het: Key -> bool, history: seq<Item>, e: Item)
    requires forall n :: 0 <= n < |history| ==> ItemOk(het, history, n)
    ensures forall n :: 0 <= n < |history| ==> ItemOk(het, history + [e], n)
  {
    forall n | 0 <= n < |history| ensures ItemOk(het, history + [e], n) {
      assert ItemOk(het, history, n) && (history + [e])[..n] == history[..n];
      if history[n].Attempted? {
        var p: nat :| p < n && PreparedAt(history, p, history[n].key, history[n].work);
        assert PreparedAt(history + [e], p, history[n].key, history[n].work);
      }
    }
  }

  // --- each move keeps it ---

  lemma StartedKeeps(het: Key -> bool, s: State, key: Key)
    requires Inv(het, s)
    ensures Inv(het, s.(pending := s.pending - {key}))
  {
    var t := s.(pending := s.pending - {key});
    forall k ensures KeyInv(het, t, k) {
      OtherKey(het, s, t, k);
    }
  }

  lemma NotifyKeeps(het: Key -> bool, s: State)
    requires Inv(het, s) && s.phase.Notifying?
    ensures Inv(het, s.(wake := s.wake + {s.phase.key}, phase := Idle))
  {
    var t := s.(wake := s.wake + {s.phase.key}, phase := Idle);
    forall k ensures KeyInv(het, t, k) {
      OtherKey(het, s, t, k);
    }
  }

  /** A key's works moved between their places, or one was dropped that is not the newest. */
  ghost predicate Moved(het: Key -> bool, s: State, t: State, key: Key) {
    && (forall w :: LiveAt(t, key, w) ==> LiveAt(s, key, w))
    && (forall w :: LiveAt(s, key, w) && key in s.pending && w.progress == Some(s.pending[key]) ==> LiveAt(t, key, w))
    && Ordered(het, t, key) && t.store == s.store && t.pending == s.pending && t.made == s.made
       && t.history == s.history
    && (key in t.queued ==> key in t.wake || t.phase == Notifying(key))
  }

  lemma MovedKeeps(het: Key -> bool, s: State, t: State, key: Key)
    requires KeyInv(het, s, key) && Moved(het, s, t, key)
    ensures KeyInv(het, t, key)
  {
    if key in t.pending && Load(t, t.pending[key]).updating {
      var w :| LiveAt(s, key, w) && w.progress == Some(s.pending[key]);
      assert LiveAt(t, key, w);
    }
  }

  /** The accounting of one key moving in or out of a map. */
  lemma Counted(m: map<Key, Work>, key: Key, w: Work)
    ensures |m[key := w]| == if key in m then |m| else |m| + 1
    ensures |m - {key}| == if key in m then |m| - 1 else |m|
  {
    assert m[key := w].Keys == m.Keys + {key} && (m - {key}).Keys == m.Keys - {key};
  }

  lemma TakeMoves(het: Key -> bool, s: State, key: Key)
    requires KeyInv(het, s, key) && key !in s.flying
    ensures Moved(het, s, TakeWork(s, key), key)
  {
  }

  lemma TakeElsewhere(s: State, key: Key, k: Key)
    requires k != key
    ensures Untouched(s, TakeWork(s, key), k)
  {
  }

  lemma TakeCounts(s: State, key: Key)
    requires key !in s.flying
    ensures |TakeWork(s, key).queued| + |TakeWork(s, key).flying| == |s.queued| + |s.flying|
  {
    if key in s.queued {
      Counted(s.queued, key, s.queued[key]);
      Counted(s.flying, key, s.queued[key]);
    }
  }

  lemma TakeKeeps(het: Key -> bool, s: State, key: Key)
    requires Inv(het, s) && key !in s.flying
    ensures Inv(het, TakeWork(s, key))
  {
    TakeCounts(s, key);
    forall k ensures KeyInv(het, TakeWork(s, key), k) {
      assert KeyInv(het, s, k);
      if k == key {
        TakeMoves(het, s, key);
        MovedKeeps(het, s, TakeWork(s, key), k);
      } else {
        TakeElsewhere(s, key, k);
        OtherKey(het, s, TakeWork(s, key), k);
      }
    }
  }

  lemma EnqueueMoves(het: Key -> bool, s: State)
    requires s.phase.Queuing? && KeyInv(het, s, s.phase.key)
    ensures Moved(het, s, ReleaseHold(s), s.phase.key)
  {
    var key := s.phase.key;
    assert LiveAt(s, key, s.phase.work);
    assert WorkOk(het, s, key, s.phase.work);
  }

  lemma EnqueueKeeps(het: Key -> bool, s: State)
    requires Inv(het, s) && s.phase.Queuing?
    ensures Inv(het, ReleaseHold(s))
  {
    var t, key := ReleaseHold(s), s.phase.key;
    forall k ensures KeyInv(het, t, k) {
      assert KeyInv(het, s, k);
      if k == key {
        EnqueueMoves(het, s);
        MovedKeeps(het, s, t, k);
      } else {
        OtherKey(het, s, t, k);
      }
    }
    Counted(s.queued, key, s.phase.work);
  }

  lemma NoteWorks(het: Key -> bool, s: State, key: Key, name: string, exclusions: seq<string>, held: bool, now: int)
    requires KeyInv(het, s, key) && het(key)
    ensures WorksOk(het, Note(s, key, name, exclusions, held, now), key)
  {
    var t := Note(s, key, name, exclusions, held, now);
    Appended(s.history, Feasible(key, name, exclusions, held));
    forall w | LiveAt(t, key, w) ensures WorkOk(het, t, key, w) {
      assert LiveAt(s, key, w);
      var n: nat :| PreparedAt(s.history, n, key, w);
      assert PreparedAt(t.history, n, key, w);
    }
  }

  lemma NotePending(het: Key -> bool, s: State, key: Key, name: string, exclusions: seq<string>, held: bool, now: int)
    requires KeyInv(het, s, key) && het(key)
    ensures PendingOk(het, Note(s, key, name, exclusions, held, now), key)
  {
    var t := Note(s, key, name, exclusions, held, now);
    Appended(s.history, Feasible(key, name, exclusions, held));
    forall w ensures LiveAt(t, key, w) <==> LiveAt(s, key, w) {
    }
    if Load(t, t.pending[key]).updating {
      var w :| LiveAt(s, key, w) && w.progress == Some(s.pending[key]);
      assert LiveAt(t, key, w);
    }
  }

  lemma NoteOwn(het: Key -> bool, s: State, key: Key, name: string, exclusions: seq<string>, held: bool, now: int)
    requires KeyInv(het, s, key) && het(key)
    ensures KeyInv(het, Note(s, key, name, exclusions, held, now), key)
  {
    NoteWorks(het, s, key, name, exclusions, held, now);
    NotePending(het, s, key, name, exclusions, held, now);
    Appended(s.history, Feasible(key, name, exclusions, held));
  }

  lemma NoteElsewhere(s: State, key: Key, name: string, exclusions: seq<string>, held: bool, now: int, k: Key)
    requires k != key && (key in s.pending ==> s.pending[key].key == key)
    ensures Untouched(s, Note(s, key, name, exclusions, held, now), k)
  {
    Appended(s.history, Feasible(key, name, exclusions, held));
  }

  lemma NoteKeeps(het: Key -> bool, s: State, key: Key, name: string, exclusions: seq<string>, held: bool, now: int)
    requires Inv(het, s) && het(key)
    ensures Inv(het, Note(s, key, name, exclusions, held, now))
  {
    assert KeyInv(het, s, key);
    ItemsKept(het, s.history, Feasible(key, name, exclusions, held));
    forall k ensures KeyInv(het, Note(s, key, name, exclusions, held, now), k) {
      assert KeyInv(het, s, k);
      if k == key {
        NoteOwn(het, s, key, name, exclusions, held, now);
      } else {
        NoteElsewhere(s, key, name, exclusions, held, now, k);
        OtherKey(het, s, Note(s, key, name, exclusions, held, now), k);
      }
    }
  }

  lemma LaunchWorks(het: Key -> bool, s: State, key: Key, ir: seq<Component>, pinned: seq<Job>)
    requires KeyInv(het, s, key) && s.phase.Idle? && key in s.pending
    requires !Load(s, s.pending[key]).updating && Complete(Load(s, s.pending[key]).components, ir)
    ensures WorksOk(het, Launch(s, key, ir, pinned), key)
  {
    var t := Launch(s, key, ir, pinned);
    Appended(s.history, Prepared(key, t.phase.work));
    assert PreparedAt(t.history, |s.history|, key, t.phase.work);
    forall w | LiveAt(t, key, w) ensures WorkOk(het, t, key, w) {
      if w != t.phase.work {
        assert LiveAt(s, key, w);
        var n: nat :| PreparedAt(s.history, n, key, w);
        assert PreparedAt(t.history, n, key, w);
      }
    }
  }

  lemma LaunchOrder(het: Key -> bool, s: State, key: Key, ir: seq<Component>, pinned: seq<Job>)
    requires KeyInv(het, s, key) && s.phase.Idle? && key in s.pending
    requires !Load(s, s.pending[key]).updating && Complete(Load(s, s.pending[key]).components, ir)
    ensures Ordered(het, Launch(s, key, ir, pinned), key)
  {
    var t := Launch(s, key, ir, pinned);
    forall w | LiveAt(s, key, w) ensures Older(het, key, w, t.phase.work) {
      assert WorkOk(het, s, key, w);
    }
    assert key in s.queued ==> LiveAt(s, key, s.queued[key]);
    assert key in s.flying ==> LiveAt(s, key, s.flying[key]);
  }

  lemma LaunchOwn(het: Key -> bool, s: State, key: Key, ir: seq<Component>, pinned: seq<Job>)
    requires KeyInv(het, s, key) && s.phase.Idle? && key in s.pending
    requires !Load(s, s.pending[key]).updating && Complete(Load(s, s.pending[key]).components, ir)
    ensures KeyInv(het, Launch(s, key, ir, pinned), key)
  {
    var t := Launch(s, key, ir, pinned);
    LaunchWorks(het, s, key, ir, pinned);
    LaunchOrder(het, s, key, ir, pinned);
    Appended(s.history, Prepared(key, t.phase.work));
    assert LiveAt(t, key, t.phase.work);
    forall w | LiveAt(t, key, w) ensures w == t.phase.work || LiveAt(s, key, w) {
    }
  }

  lemma LaunchElsewhere(s: State, key: Key, ir: seq<Component>, pinned: seq<Job>, k: Key)
    requires key in s.pending && s.pending[key].key == key && Complete(Load(s, s.pending[key]).components, ir)
    requires k != key && s.phase.Idle?
    ensures Untouched(s, Launch(s, key, ir, pinned), k)
  {
    Appended(s.history, Prepared(key, Launch(s, key, ir, pinned).phase.work));
  }

  lemma LaunchUpToDate(het: Key -> bool, s: State, key: Key, ir: seq<Component>, index: nat)
    requires KeyInv(het, s, key) && key in s.pending && Complete(Load(s, s.pending[key]).components, ir)
    requires index < |ir| && OnlyOwn(ir, index)
             && Load(s, s.pending[key]).components[ir[index].name] == ir[index].exclusions
    ensures UpToDate(s.history, key, FilledAll(Load(s, s.pending[key]).components, ir))
    ensures HoldKnown(s.history, key, FilledAll(Load(s, s.pending[key]).components, ir), Load(s, s.pending[key]).held)
  {
    var recorded := Load(s, s.pending[key]).components;
    forall i | 0 <= i < |ir| ensures NotedAs(s.history, key, ir[i].name, Load(s, s.pending[key])) {
      assert ir[i].name in recorded;
    }
    forall i | 0 <= i < |ir| ensures Filled(recorded, ir[i]).exclusions == recorded[ir[i].name] {
      assert ir[i].name in recorded;
    }
  }

  lemma LaunchKeeps(het: Key -> bool, s: State, key: Key, ir: seq<Component>, index: nat, pinned: seq<Job>)
    requires Inv(het, s) && s.phase.Idle? && key in s.pending
    requires !Load(s, s.pending[key]).updating && Complete(Load(s, s.pending[key]).components, ir)
    requires index < |ir| && OnlyOwn(ir, index)
             && Load(s, s.pending[key]).components[ir[index].name] == ir[index].exclusions
    ensures Inv(het, Launch(s, key, ir, pinned))
  {
    var t := Launch(s, key, ir, pinned);
    assert KeyInv(het, s, key);
    ItemsKept(het, s.history, Prepared(key, t.phase.work));
    LaunchUpToDate(het, s, key, ir, index);
    assert t.history[..|s.history|] == s.history;
    assert ItemOk(het, t.history, |s.history|);
    forall k ensures KeyInv(het, t, k) {
      assert KeyInv(het, s, k);
      if k == key {
        LaunchOwn(het, s, key, ir, pinned);
      } else {
        LaunchElsewhere(s, key, ir, pinned, k);
        OtherKey(het, s, t, k);
      }
    }
  }

  lemma FilteredKeeps(het: Key -> bool, s: State, key: Key, ir: seq<Component>, index: nat, pinned: seq<Job>,
                      held: bool, now: int)
    requires Inv(het, s) && het(key) && s.phase.Idle? && index < |ir| && OnlyOwn(ir, index)
    ensures Inv(het, Record(s, key, ir, index, pinned, held, now))
  {
    NoteKeeps(het, s, key, ir[index].name, ir[index].exclusions, held, now);
    var t := Note(s, key, ir[index].name, ir[index].exclusions, held, now);
    if Complete(Load(t, t.pending[key]).components, ir) && !Load(t, t.pending[key]).updating {
      LaunchKeeps(het, t, key, ir, index, pinned);
    }
  }

  lemma ReadyOwn(het: Key -> bool, s: State, key: Key, ir: seq<Component>, pinned: seq<Job>, held: bool)
    requires KeyInv(het, s, key) && s.phase.Idle? && !het(key)
    ensures KeyInv(het, ReadyWork(s, key, ir, pinned, held), key)
  {
    var t := ReadyWork(s, key, ir, pinned, held);
    Appended(s.history, Prepared(key, t.phase.work));
    assert PreparedAt(t.history, |s.history|, key, t.phase.work);
    forall w | LiveAt(t, key, w) ensures WorkOk(het, t, key, w) {
      if w != t.phase.work {
        assert LiveAt(s, key, w);
        var n: nat :| PreparedAt(s.history, n, key, w);
        assert PreparedAt(t.history, n, key, w);
      }
    }
    assert key in s.queued ==> LiveAt(s, key, s.queued[key]);
    assert key in s.flying ==> LiveAt(s, key, s.flying[key]);
  }

  lemma ReadyKeeps(het: Key -> bool, s: State, key: Key, ir: seq<Component>, pinned: seq<Job>, held: bool)
    requires Inv(het, s) && s.phase.Idle? && !het(key)
    ensures Inv(het, ReadyWork(s, key, ir, pinned, held))
  {
    var t := ReadyWork(s, key, ir, pinned, held);
    var e := Prepared(key, t.phase.work);
    Appended(s.history, e);
    ItemsKept(het, s.history, e);
    assert ItemOk(het, t.history, |s.history|);
    forall k ensures KeyInv(het, t, k) {
      assert KeyInv(het, s, k);
      if k == key { ReadyOwn(het, s, key, ir, pinned, held); } else { OtherKey(het, s, t, k); }
    }
  }

  /** What a finished attempt leaves of the store and the history. */
  lemma FinishFacts(s: State, key: Key, log: seq<Event>, status: Status)
    requires key in s.flying
    ensures var t := FinishWork(s, key, log, status);
            && t.made == s.made && t.history == s.history + [Attempted(key, s.flying[key], log, status)]
            && forall h :: s.flying[key].progress != Some(h) ==> Load(t, h) == Load(s, h)
  {
  }

  lemma LiveOlder(het: Key -> bool, s: State, key: Key, w: Work)
    requires KeyInv(het, s, key) && key in s.flying && LiveAt(s, key, w) && w != s.flying[key]
    ensures Older(het, key, s.flying[key], w) && WorkOk(het, s, key, w)
  {
  }

  /** Works other than the one that landed keep their standing. */
  lemma FinishOthers(het: Key -> bool, s: State, key: Key, log: seq<Event>, status: Status, w: Work)
    requires KeyInv(het, s, key) && key in s.flying && LiveAt(s, key, w) && w != s.flying[key]
    ensures WorkOk(het, FinishWork(s, key, log, status), key, w)
    ensures het(key) ==> w.progress != s.flying[key].progress
  {
    FinishFacts(s, key, log, status);
    LiveOlder(het, s, key, w);
    OthersStand(het, s, FinishWork(s, key, log, status), key, Attempted(key, s.flying[key], log, status), w);
  }

  lemma OthersStand(het: Key -> bool, s: State, t: State, key: Key, e: Item, w: Work)
    requires WorkOk(het, s, key, w) && t.made == s.made && t.history == s.history + [e]
    requires e.Attempted? && e.work.serial != w.serial
    requires het(key) ==> Load(t, w.progress.value) == Load(s, w.progress.value)
    ensures WorkOk(het, t, key, w)
  {
    Appended(s.history, e);
    var n: nat :| PreparedAt(s.history, n, key, w);
    assert PreparedAt(t.history, n, key, w);
  }

  lemma FinishTries(het: Key -> bool, s: State, key: Key, log: seq<Event>, status: Status)
    requires KeyInv(het, s, key) && key in s.flying
    ensures forall serial: nat :: Tries(FinishWork(s, key, log, status).history, key, serial)
                <= if serial < s.made then MAX_RELEASE_ATTEMPTS else 0
  {
    Appended(s.history, Attempted(key, s.flying[key], log, status));
    assert LiveAt(s, key, s.flying[key]) && WorkOk(het, s, key, s.flying[key]);
  }

  lemma EndedWorks(het: Key -> bool, s: State, key: Key, log: seq<Event>, status: Status)
    requires KeyInv(het, s, key) && key in s.flying
    requires status != Error || s.flying[key].attempts + 1 >= MAX_RELEASE_ATTEMPTS
    ensures WorksOk(het, FinishWork(s, key, log, status), key)
  {
    var t := FinishWork(s, key, log, status);
    assert LiveAt(s, key, s.flying[key]) && WorkOk(het, s, key, s.flying[key]);
    forall w | LiveAt(t, key, w) ensures WorkOk(het, t, key, w) {
      FinishOthers(het, s, key, log, status, w);
    }
  }

  lemma EndedPending(het: Key -> bool, s: State, key: Key, log: seq<Event>, status: Status)
    requires KeyInv(het, s, key) && key in s.flying
    requires status != Error || s.flying[key].attempts + 1 >= MAX_RELEASE_ATTEMPTS
    ensures PendingOk(het, FinishWork(s, key, log, status), key)
  {
    var t := FinishWork(s, key, log, status);
    Appended(s.history, Attempted(key, s.flying[key], log, status));
    assert LiveAt(s, key, s.flying[key]) && WorkOk(het, s, key, s.flying[key]);
    forall w | LiveAt(t, key, w) ensures LiveAt(s, key, w) {
    }
    if key in t.pending && Load(t, t.pending[key]).updating {
      var w :| LiveAt(s, key, w) && w.progress == Some(s.pending[key]);
      assert LiveAt(t, key, w);
    }
  }

  lemma FinishEnded(het: Key -> bool, s: State, key: Key, log: seq<Event>, status: Status)
    requires KeyInv(het, s, key) && key in s.flying
    requires status != Error || s.flying[key].attempts + 1 >= MAX_RELEASE_ATTEMPTS
    ensures KeyInv(het, FinishWork(s, key, log, status), key)
  {
    FinishTries(het, s, key, log, status);
    EndedWorks(het, s, key, log, status);
    EndedPending(het, s, key, log, status);
  }

  /** A failed work gives way to a newer one, which then also is what the pending progress waits for. */
  lemma FinishDropped(het: Key -> bool, s: State, key: Key, log: seq<Event>, status: Status)
    requires KeyInv(het, s, key) && key in s.flying && key in s.queued
    requires status == Error && s.flying[key].attempts + 1 < MAX_RELEASE_ATTEMPTS
    ensures KeyInv(het, FinishWork(s, key, log, status), key)
  {
    FinishTries(het, s, key, log, status);
    DroppedWorks(het, s, key, log, status);
    DroppedPending(het, s, key, log, status);
  }

  lemma DroppedWorks(het: Key -> bool, s: State, key: Key, log: seq<Event>, status: Status)
    requires KeyInv(het, s, key) && key in s.flying && key in s.queued
    requires status == Error && s.flying[key].attempts + 1 < MAX_RELEASE_ATTEMPTS
    ensures WorksOk(het, FinishWork(s, key, log, status), key)
    ensures forall w :: LiveAt(FinishWork(s, key, log, status), key, w) ==> LiveAt(s, key, w)
  {
    var t := FinishWork(s, key, log, status);
    assert LiveAt(s, key, s.flying[key]) && WorkOk(het, s, key, s.flying[key]);
    forall w | LiveAt(t, key, w) ensures LiveAt(s, key, w) && WorkOk(het, t, key, w) {
      FinishOthers(het, s, key, log, status, w);
    }
  }

  lemma DroppedPending(het: Key -> bool, s: State, key: Key, log: seq<Event>, status: Status)
    requires KeyInv(het, s, key) && key in s.flying && key in s.queued
    requires status == Error && s.flying[key].attempts + 1 < MAX_RELEASE_ATTEMPTS
    ensures PendingOk(het, FinishWork(s, key, log, status), key)
  {
    var t := FinishWork(s, key, log, status);
    Appended(s.history, Attempted(key, s.flying[key], log, status));
    forall w | LiveAt(t, key, w) ensures LiveAt(s, key, w) {
    }
    if key in t.pending && Load(t, t.pending[key]).updating {
      assert LiveAt(s, key, s.queued[key]);
      var w :| LiveAt(s, key, w) && w.progress == Some(s.pending[key]);
      assert LiveAt(t, key, w);
    }
  }

  lemma FinishRetried(het: Key -> bool, s: State, key: Key, log: seq<Event>, status: Status)
    requires KeyInv(het, s, key) && key in s.flying && key !in s.queued
    requires status == Error && s.flying[key].attempts + 1 < MAX_RELEASE_ATTEMPTS
    ensures KeyInv(het, FinishWork(s, key, log, status), key)
  {
    FinishTries(het, s, key, log, status);
    RetriedWorks(het, s, key, log, status);
    RetriedPending(het, s, key, log, status);
    assert LiveAt(s, key, s.flying[key]) && WorkOk(het, s, key, s.flying[key]);
  }

  lemma RetriedWorks(het: Key -> bool, s: State, key: Key, log: seq<Event>, status: Status)
    requires KeyInv(het, s, key) && key in s.flying && key !in s.queued
    requires status == Error && s.flying[key].attempts + 1 < MAX_RELEASE_ATTEMPTS
    ensures WorksOk(het, FinishWork(s, key, log, status), key)
  {
    var t, work := FinishWork(s, key, log, status), s.flying[key];
    var again := work.(attempts := work.attempts + 1);
    Appended(s.history, Attempted(key, work, log, status));
    assert LiveAt(s, key, work) && WorkOk(het, s, key, work);
    var n: nat :| PreparedAt(s.history, n, key, work);
    assert PreparedAt(t.history, n, key, again);
    forall w | LiveAt(t, key, w) ensures WorkOk(het, t, key, w) {
      if w != again { FinishOthers(het, s, key, log, status, w); }
    }
  }

  lemma RetriedPending(het: Key -> bool, s: State, key: Key, log: seq<Event>, status: Status)
    requires KeyInv(het, s, key) && key in s.flying && key !in s.queued
    requires status == Error && s.flying[key].attempts + 1 < MAX_RELEASE_ATTEMPTS
    ensures PendingOk(het, FinishWork(s, key, log, status), key)
  {
    var t, work := FinishWork(s, key, log, status), s.flying[key];
    var again := work.(attempts := work.attempts + 1);
    Appended(s.history, Attempted(key, work, log, status));
    assert LiveAt(s, key, work);
    forall w | LiveAt(t, key, w) ensures w == again || LiveAt(s, key, w) {
    }
    if key in t.pending && Load(t, t.pending[key]).updating {
      var w :| LiveAt(s, key, w) && w.progress == Some(s.pending[key]);
      assert LiveAt(t, key, if w == work then again else w);
    }
  }

  lemma FinishElsewhere(s: State, key: Key, log: seq<Event>, status: Status, k: Key)
    requires k != key && key in s.flying
    requires s.flying[key].progress.Some? ==> s.flying[key].progress.value.key == key
    ensures Untouched(s, FinishWork(s, key, log, status), k)
  {
    var t := FinishWork(s, key, log, status);
    assert SameHistory(s, t, k) by { Appended(s.history, Attempted(key, s.flying[key], log, status)); }
    forall h: Handle | h.key == k ensures Load(t, h) == Load(s, h) {
    }
  }

  lemma FinishCounts(s: State, key: Key, log: seq<Event>, status: Status)
    requires key in s.flying && s.outstanding == |s.queued| + |s.flying|
    ensures var t := FinishWork(s, key, log, status); t.outstanding == |t.queued| + |t.flying|
  {
    Counted(s.flying, key, s.flying[key]);
    Counted(s.queued, key, s.flying[key].(attempts := s.flying[key].attempts + 1));
  }

  lemma FinishItem(het: Key -> bool, s: State, key: Key, log: seq<Event>, status: Status)
    requires KeyInv(het, s, key) && key in s.flying
    requires Follows(s.flying[key].ir, s.flying[key].held, s.flying[key].pinned, log, status)
    ensures ItemOk(het, FinishWork(s, key, log, status).history, |s.history|)
  {
    var t, work := FinishWork(s, key, log, status), s.flying[key];
    assert LiveAt(s, key, work) && WorkOk(het, s, key, work);
    var n: nat :| PreparedAt(s.history, n, key, work);
    assert PreparedAt(t.history, n, key, work);
  }

  lemma FinishKey(het: Key -> bool, s: State, key: Key, log: seq<Event>, status: Status, k: Key)
    requires KeyInv(het, s, key) && KeyInv(het, s, k) && key in s.flying
    ensures KeyInv(het, FinishWork(s, key, log, status), k)
  {
    assert LiveAt(s, key, s.flying[key]) && WorkOk(het, s, key, s.flying[key]);
    if k != key {
      FinishElsewhere(s, key, log, status, k);
      OtherKey(het, s, FinishWork(s, key, log, status), k);
    } else if status == Error && s.flying[key].attempts + 1 < MAX_RELEASE_ATTEMPTS {
      if key in s.queued { FinishDropped(het, s, key, log, status); } else { FinishRetried(het, s, key, log, status); }
    } else {
      FinishEnded(het, s, key, log, status);
    }
  }

  lemma FinishKeys(het: Key -> bool, s: State, key: Key, log: seq<Event>, status: Status)
    requires (forall k :: KeyInv(het, s, k)) && key in s.flying
    ensures forall k :: KeyInv(het, FinishWork(s, key, log, status), k)
  {
    var t := FinishWork(s, key, log, status);
    forall k ensures KeyInv(het, t, k) {
      assert KeyInv(het, s, k) && KeyInv(het, s, key);
      FinishKey(het, s, key, log, status, k);
    }
  }

  lemma FinishHistory(het: Key -> bool, s: State, key: Key, log: seq<Event>, status: Status)
    requires KeyInv(het, s, key) && key in s.flying && forall n :: 0 <= n < |s.history| ==> ItemOk(het, s.history, n)
    requires Follows(s.flying[key].ir, s.flying[key].held, s.flying[key].pinned, log, status)
    ensures var t := FinishWork(s, key, log, status); forall n :: 0 <= n < |t.history| ==> ItemOk(het, t.history, n)
  {
    ItemsKept(het, s.history, Attempted(key, s.flying[key], log, status));
    FinishItem(het, s, key, log, status);
  }

  lemma FinishKeeps(het: Key -> bool, s: State, key: Key, log: seq<Event>, status: Status)
    requires Inv(het, s) && key in s.flying
    requires Follows(s.flying[key].ir, s.flying[key].held, s.flying[key].pinned, log, status)
    ensures Inv(het, FinishWork(s, key, log, status))
  {
    assert KeyInv(het, s, key);
    FinishHistory(het, s, key, log, status);
    FinishCounts(s, key, log, status);
    FinishKeys(het, s, key, log, status);
  }

  lemma NextKeeps(het: Key -> bool, s: State, m: Move, t: State)
    requires Inv(het, s) && Next(het, s, m, t)
    ensures Inv(het, t)
  {
    match m {
      case Filtered(key, ir, index, pinned, held, now) => FilteredKeeps(het, s, key, ir, index, pinned, held, now);
      case Ready(key, ir, pinned, held) => ReadyKeeps(het, s, key, ir, pinned, held);
      case Started(key) => StartedKeeps(het, s, key);
      case Enqueue => EnqueueKeeps(het, s);
      case Notify => NotifyKeeps(het, s);
      case Take(key) => TakeKeeps(het, s, key);
      case Finish(key, log, status) => FinishKeeps(het, s, key, log, status);
    }
  }

  lemma InitHolds(het: Key -> bool)
    ensures Inv(het, INIT)
  {
    forall key ensures KeyInv(het, INIT, key) {
    }
  }

  lemma {:induction false} RunKeeps(het: Key -> bool, moves: seq<Move>, t: State)
    requires Run(het, moves, t)
    ensures Inv(het, t)
  {
    if moves == [] {
      InitHolds(het);
    } else {
      var s :| Run(het, moves[..|moves| - 1], s) && Next(het, s, moves[|moves| - 1], t);
      RunKeeps(het, moves[..|moves| - 1], s);
      NextKeeps(het, s, moves[|moves| - 1], t);
    }
  }

  lemma ReachableInv(het: Key -> bool, s: State)
    requires Reachable(het, s)
    ensures Inv(het, s)
  {
    var moves :| Run(het, moves, s);
    RunKeeps(het, moves, s);
  }

  // --- what the queue promises ---

  /** The outstanding-release count is the number of queued and in-flight works, and no queued work is forgotten by the
      work queue. */
  lemma QueueAccounted(het: Key -> bool, s: State)
    requires Reachable(het, s)
    ensures s.outstanding == |s.queued| + |s.flying|
    ensures forall key :: key in s.queued ==> key in s.wake || s.phase == Notifying(key)
  {
    ReachableInv(het, s);
    forall key | key in s.queued ensures key in s.wake || s.phase == Notifying(key) {
      assert KeyInv(het, s, key);
    }
  }

  /** A progress that blocks further updates has a work that will clear it: one queued, in flight, or about to be
      queued. */
  lemma UpdatingHasWork(het: Key -> bool, s: State, key: Key)
    requires Reachable(het, s) && key in s.pending && Load(s, s.pending[key]).updating
    ensures exists w :: LiveAt(s, key, w) && w.progress == Some(s.pending[key])
  {
    ReachableInv(het, s);
    assert KeyInv(het, s, key);
  }

  /** A progress that is being updated leaves pending only when its allocation started or a release of it succeeded. */
  lemma UpdatingLeavesOnly(het: Key -> bool, s: State, m: Move, t: State, key: Key)
    requires Next(het, s, m, t) && key in s.pending && Load(s, s.pending[key]).updating
    requires key !in t.pending || t.pending[key] != s.pending[key]
    ensures m == Started(key) || (m.Finish? && m.key == key && m.status == Success)
  {
  }

  /** That work is never dropped or replaced: while the progress stays in pending and marked, the same work stays
      live. */
  lemma WorkNotLost(het: Key -> bool, s: State, m: Move, t: State, key: Key, w: Work) returns (v: Work)
    requires Reachable(het, s) && Next(het, s, m, t)
    requires key in s.pending && Load(s, s.pending[key]).updating && LiveAt(s, key, w)
             && w.progress == Some(s.pending[key])
    requires key in t.pending && Load(t, s.pending[key]).updating
    ensures LiveAt(t, key, v) && v.progress == w.progress && v.serial == w.serial
  {
    ReachableInv(het, s);
    assert KeyInv(het, s, key);
    v := w;
    if m.Finish? {
      if m.key == key && s.flying[key] == w {
        FinishNotLost(het, s, m.log, m.status, key, w);
        v := w.(attempts := w.attempts + 1);
      } else {
        FinishStays(s, m.key, m.log, m.status, key, w);
      }
    } else {
      StaysLive(het, s, m, t, key, w);
    }
  }

  lemma FinishStays(s: State, done: Key, log: seq<Event>, status: Status, key: Key, w: Work)
    requires done in s.flying && LiveAt(s, key, w) && (done == key ==> s.flying[key] != w)
    ensures LiveAt(FinishWork(s, done, log, status), key, w)
  {
  }

  lemma StaysLive(het: Key -> bool, s: State, m: Move, t: State, key: Key, w: Work)
    requires KeyInv(het, s, key) && Next(het, s, m, t) && !m.Finish?
    requires key in s.pending && LiveAt(s, key, w) && w.progress == Some(s.pending[key])
    ensures LiveAt(t, key, w)
  {
    if m.Enqueue? && s.phase.key == key {
      assert LiveAt(s, key, s.phase.work) && WorkOk(het, s, key, s.phase.work);
    }
  }

  lemma FinishNotLost(het: Key -> bool, s: State, log: seq<Event>, status: Status, key: Key, w: Work)
    requires KeyInv(het, s, key) && key in s.flying && w == s.flying[key] && key in s.pending
             && w.progress == Some(s.pending[key])
    requires key in FinishWork(s, key, log, status).pending
             && Load(FinishWork(s, key, log, status), s.pending[key]).updating
    ensures LiveAt(FinishWork(s, key, log, status), key, w.(attempts := w.attempts + 1))
  {
    if key in s.queued {
      assert LiveAt(s, key, s.queued[key]);
    }
  }

  /** A failed attempt of any key is repeated while attempts are left: with nothing newer queued the same work is queued
      again with one more attempt, and a newer work stays as it is; either way the work queue is told. */
  lemma RetryQueued(s: State, key: Key, log: seq<Event>)
    requires key in s.flying && s.flying[key].attempts + 1 < 5
    ensures var t := FinishWork(s, key, log, Error);
            && key in t.queued && key in t.wake && key !in t.flying
            && t.queued[key] == (if key in s.queued then s.queued[key]
                                 else s.flying[key].(attempts := s.flying[key].attempts + 1))
            && t.store == s.store && t.pending == s.pending
  {
  }

  /** The work is queued, in flight or about to be queued, after any number of attempts. */
  ghost predicate StillLive(s: State, key: Key, work: Work) {
    exists a: nat :: LiveAt(s, key, work.(attempts := a))
  }

  /** An attempt of the work ended it: it succeeded, the allocation changed, or it was the fifth. */
  ghost predicate Concluded(history: seq<Item>, key: Key, work: Work) {
    exists k :: 0 <= k < |history| && Concludes(history[k], key, work)
  }

  ghost predicate Concludes(e: Item, key: Key, work: Work) {
    && e.Attempted? && e.key == key && e.work == work.(attempts := e.work.attempts)
    && (e.status == Success || e.status == Unschedulable || e.work.attempts + 1 >= 5)
  }

  ghost predicate Superseded(history: seq<Item>, key: Key, serial: nat) {
    exists k :: 0 <= k < |history| && history[k].Prepared? && history[k].key == key && history[k].work.serial > serial
  }

  ghost predicate Accounted(s: State, key: Key, work: Work) {
    StillLive(s, key, work) || Concluded(s.history, key, work) || Superseded(s.history, key, work.serial)
  }

  lemma AccountedStays(s: State, t: State, key: Key, work: Work)
    requires s.history <= t.history && Accounted(s, key, work)
    requires StillLive(s, key, work) ==> Accounted(t, key, work)
    ensures Accounted(t, key, work)
  {
    if Concluded(s.history, key, work) {
      var k :| 0 <= k < |s.history| && Concludes(s.history[k], key, work);
      assert Concludes(t.history[k], key, work);
    } else if Superseded(s.history, key, work.serial) {
      var k :| 0 <= k < |s.history| && s.history[k].Prepared? && s.history[k].key == key &&
        s.history[k].work.serial > work.serial;
      assert t.history[k] == s.history[k];
    }
  }

  /** A live work that is newer than another supersedes it. */
  lemma NewerSupersedes(het: Key -> bool, s: State, key: Key, w: Work, serial: nat)
    requires WorkOk(het, s, key, w) && w.serial > serial
    ensures Superseded(s.history, key, serial)
  {
    var n: nat :| PreparedAt(s.history, n, key, w);
  }

  lemma EnqueueAccounted(het: Key -> bool, s: State, key: Key, work: Work)
    requires KeyInv(het, s, key) && s.phase.Queuing? && StillLive(s, key, work)
    ensures Accounted(ReleaseHold(s), key, work)
  {
    var a: nat :| LiveAt(s, key, work.(attempts := a));
    if key == s.phase.key && key in s.queued && s.queued[key] == work.(attempts := a) {
      assert LiveAt(s, key, s.phase.work);
      NewerSupersedes(het, s, key, s.phase.work, work.serial);
    } else {
      assert LiveAt(ReleaseHold(s), key, work.(attempts := a));
    }
  }

  lemma FinishAccounted(het: Key -> bool, s: State, done: Key, log: seq<Event>, status: Status, key: Key, work: Work)
    requires KeyInv(het, s, key) && done in s.flying && StillLive(s, key, work)
    ensures Accounted(FinishWork(s, done, log, status), key, work)
  {
    var t := FinishWork(s, done, log, status);
    var a: nat :| LiveAt(s, key, work.(attempts := a));
    if done != key || s.flying[key] != work.(attempts := a) {
      FinishStays(s, done, log, status, key, work.(attempts := a));
    } else if status != Error || a + 1 >= 5 {
      assert Concludes(t.history[|s.history|], key, work);
    } else if key in s.queued {
      assert LiveAt(s, key, s.queued[key]);
      NewerSupersedes(het, s, key, s.queued[key], work.serial);
      AccountedStays(s.(flying := map[]), t, key, work);
    } else {
      RetryQueued(s, key, log);
      assert LiveAt(t, key, work.(attempts := a + 1));
    }
  }

  lemma HistoryGrows(het: Key -> bool, s: State, m: Move, t: State)
    requires Next(het, s, m, t)
    ensures s.history <= t.history
  {
  }

  lemma OtherMovesStay(het: Key -> bool, s: State, m: Move, t: State, key: Key, w: Work)
    requires Next(het, s, m, t) && !m.Enqueue? && !m.Finish? && LiveAt(s, key, w)
    ensures LiveAt(t, key, w)
  {
  }

  lemma LiveAccounted(het: Key -> bool, s: State, m: Move, t: State, key: Key, work: Work)
    requires KeyInv(het, s, key) && Next(het, s, m, t) && StillLive(s, key, work)
    ensures Accounted(t, key, work)
  {
    if m.Enqueue? {
      EnqueueAccounted(het, s, key, work);
    } else if m.Finish? {
      FinishAccounted(het, s, m.key, m.log, m.status, key, work);
    } else {
      var a: nat :| LiveAt(s, key, work.(attempts := a));
      OtherMovesStay(het, s, m, t, key, work.(attempts := a));
    }
  }

  lemma StepAccounted(het: Key -> bool, s: State, m: Move, t: State, key: Key, work: Work)
    requires KeyInv(het, s, key) && Next(het, s, m, t) && Accounted(s, key, work)
    ensures Accounted(t, key, work)
  {
    HistoryGrows(het, s, m, t);
    if StillLive(s, key, work) {
      LiveAccounted(het, s, m, t, key, work);
    }
    AccountedStays(s, t, key, work);
  }

  /** A prepared work is accounted for after a step, if it was before. */
  lemma StepItem(het: Key -> bool, s: State, m: Move, t: State, n: nat)
    requires Inv(het, s) && Next(het, s, m, t) && n < |t.history| && t.history[n].Prepared?
    requires n < |s.history| && s.history[n].Prepared? ==> Accounted(s, s.history[n].key, s.history[n].work)
    ensures Accounted(t, t.history[n].key, t.history[n].work)
  {
    HistoryGrows(het, s, m, t);
    if n < |s.history| {
      assert t.history[n] == s.history[n] && KeyInv(het, s, s.history[n].key);
      StepAccounted(het, s, m, t, s.history[n].key, s.history[n].work);
    } else {
      FreshlyPrepared(het, s, m, t, n);
    }
  }

  lemma {:induction false} PreparedAccounted(het: Key -> bool, moves: seq<Move>, t: State, n: nat)
    requires Run(het, moves, t) && n < |t.history| && t.history[n].Prepared?
    ensures Accounted(t, t.history[n].key, t.history[n].work)
  {
    var before, m := moves[..|moves| - 1], moves[|moves| - 1];
    var s :| Run(het, before, s) && Next(het, s, m, t);
    RunKeeps(het, before, s);
    if n < |s.history| && s.history[n].Prepared? {
      PreparedAccounted(het, before, s, n);
    }
    StepItem(het, s, m, t, n);
  }

  lemma FreshlyPrepared(het: Key -> bool, s: State, m: Move, t: State, n: nat)
    requires Next(het, s, m, t) && |s.history| <= n < |t.history| && t.history[n].Prepared?
    ensures StillLive(t, t.history[n].key, t.history[n].work)
  {
    var key, work := t.history[n].key, t.history[n].work;
    assert t.phase == Queuing(key, work);
    assert LiveAt(t, key, work.(attempts := work.attempts));
  }

  /** Serials number the prepared works in order. */
  ghost predicate Numbered(s: State) {
    && (forall n :: 0 <= n < |s.history| && s.history[n].Prepared? ==> s.history[n].work.serial < s.made)
    && (forall n, k :: 0 <= n < k < |s.history| && s.history[n].Prepared? && s.history[k].Prepared? ==>
          s.history[n].work.serial < s.history[k].work.serial)
  }

  lemma StepNumbered(het: Key -> bool, s: State, m: Move, t: State)
    requires Numbered(s) && Next(het, s, m, t)
    ensures Numbered(t)
  {
    HistoryGrows(het, s, m, t);
    assert t.made >= s.made;
    assert forall n :: |s.history| <= n < |t.history| && t.history[n].Prepared? ==>
             n == |t.history| - 1 && s.made <= t.history[n].work.serial < t.made;
  }

  lemma {:induction false} RunNumbered(het: Key -> bool, moves: seq<Move>, t: State)
    requires Run(het, moves, t)
    ensures Numbered(t)
  {
    if moves != [] {
      var before, m := moves[..|moves| - 1], moves[|moves| - 1];
      var s :| Run(het, before, s) && Next(het, s, m, t);
      RunNumbered(het, before, s);
      StepNumbered(het, s, m, t);
    }
  }

  /** In every run a prepared work stays live until an attempt of it succeeds, finds the allocation changed or is the
      fifth, or until another work of its key is prepared after it. */
  lemma PreparedNotForgotten(het: Key -> bool, moves: seq<Move>, t: State, n: nat)
    requires Run(het, moves, t) && n < |t.history| && t.history[n].Prepared?
    ensures var key, work := t.history[n].key, t.history[n].work;
            || (exists a: nat :: LiveAt(t, key, work.(attempts := a)))
            || (exists k :: n < k < |t.history| && t.history[k].Prepared? && t.history[k].key == key)
            || (exists k :: 0 <= k < |t.history| && Concludes(t.history[k], key, work))
  {
    PreparedAccounted(het, moves, t, n);
    RunNumbered(het, moves, t);
    var key, work := t.history[n].key, t.history[n].work;
    if Superseded(t.history, key, work.serial) {
      var k :| 0 <= k < |t.history| && t.history[k].Prepared? && t.history[k].key == key &&
        t.history[k].work.serial > work.serial;
      assert n < k;
    }
  }

  /** Each work is attempted at most maxReleaseAttempts times, and a work still live has attempts left. */
  lemma AttemptsBounded(het: Key -> bool, s: State, key: Key, serial: nat)
    requires Reachable(het, s)
    ensures Tries(s.history, key, serial) <= MAX_RELEASE_ATTEMPTS
    ensures forall w :: LiveAt(s, key, w) && w.serial == serial ==>
              Tries(s.history, key, serial) == w.attempts < MAX_RELEASE_ATTEMPTS
  {
    ReachableInv(het, s);
    assert KeyInv(het, s, key);
  }

  /** In every run, a release of a component of a heterogeneous allocation happens only in an attempt of a held work
      that was prepared when every component had a feasibility result, and after that same attempt updated every
      component with the exclusions that were the last recorded ones then, priority withheld, and re-checked the pinned
      jobs. Whether they are still the last ones at the release is the subject of ReleaseFreshness. */
  lemma HeldReleaseSafe(het: Key -> bool, s: State, n: nat, m: nat) returns (p: nat)
    requires Reachable(het, s) && n < |s.history| && s.history[n].Attempted? && het(s.history[n].key)
    requires m < |s.history[n].log| && s.history[n].log[m].Released?
    ensures p < n && PreparedAt(s.history, p, s.history[n].key, s.history[n].work)
    ensures UpToDate(s.history[..p], s.history[n].key, s.history[n].work.ir)
    ensures HoldKnown(s.history[..p], s.history[n].key, s.history[n].work.ir, s.history[n].work.held)
    ensures s.history[n].work.held && m > 0 && AllUpdated(s.history[n].work.ir, s.history[n].log[..m - 1])
    ensures var e, check := s.history[n].log[m], s.history[n].log[m - 1];
            check.Checked? && check.component == e.component && check.outcome == Success && check.found.Jobs?
            && e.component < |check.found.jobs| && e.job == check.found.jobs[e.component].id
            && SameIds(s.history[n].work.pinned, check.found.jobs)
  {
    ReachableInv(het, s);
    var e := s.history[n];
    assert ItemOk(het, s.history, n);
    p :| p < n && PreparedAt(s.history, p, e.key, e.work);
    assert ItemOk(het, s.history, p);
    ReleaseGuarded(e.work.ir, e.work.held, e.work.pinned, e.log, e.status, m);
    assert Pinned(e.work.ir, e.work.pinned, e.log[m - 1]);
  }
}
