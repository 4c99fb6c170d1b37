/** The plugin object behind the moves of HoldRelease: its maps are updated in place under one mutex. */
module ReleaseQueue {
  import opened Ordering
  import opened EligibilityUpdate
  import opened HoldRelease

  datatype Outcome = Unprocessed | Concurrent | Queue(work: Work)

  class SlurmBridge {
    var store: map<Handle, Progress>
    var pending: map<Key, Handle>
    var holdReleases: map<Key, Work>
    var inFlight: map<Key, Work>
    var wake: set<Key>
    var phase: Phase
    var releases: int
    var made: nat
    ghost var history: seq<Item>

    constructor ()
      ensures View() == INIT
    {
      store, pending, holdReleases, inFlight, wake := map[], map[], map[], map[], {};
      phase, releases, made, history := Idle, 0, 0, [];
    }

    ghost function View(): State
      reads this
    {
      State(store, pending, holdReleases, inFlight, wake, phase, releases, made, history)
    }

    method EvictStale(now: int)
      modifies `pending
      ensures pending == Evicted(old(View()), now)
      ensures forall k :: k in pending <==>
                k in old(pending) &&
                (Fetch(store, old(pending)[k]).updating || now - Fetch(store, old(pending)[k]).updated <= 300)
    {
      var rest := pending.Keys;
      while rest != {}
        invariant rest <= pending.Keys
        invariant forall k :: k in pending <==>
                    k in old(pending) && (k in rest || !Stale(old(View()), old(pending)[k], now))
        invariant forall k :: k in pending ==> pending[k] == old(pending)[k]
      {
        var k := Pick(rest);
        rest := rest - {k};
        var p := Fetch(store, pending[k]);
        if !p.updating && now - p.updated > PENDING_TIMEOUT_SECONDS {
          pending := pending - {k};
        }
      }
    }

    method FindProgress(key: Key, now: int) returns (h: Handle, p: Progress)
      modifies this
      ensures var kept := Evicted(old(View()), now);
              h == (if key in kept then kept[key] else Handle(key, old(made)))
              && p == (if key in kept then Load(old(View()), h) else Progress(map[], false, false, now))
              && View() == old(View()).(pending := kept[key := h], made := old(made) + 1)
    {
      EvictStale(now);
      if key in pending {
        h := pending[key];
        p := Fetch(store, h);
      } else {
        h := Handle(key, made);
        p := Progress(map[], false, false, now);
        pending := pending[key := h];
      }
      made := made + 1;
    }

    /** The part of PostFilter's critical section that records what this cycle found. */
    method NoteFeasibility(key: Key, ir: array<Component>, index: nat, held: bool, now: int)
      returns (h: Handle, p: Progress, complete: bool)
      requires index < ir.Length
      modifies this, ir
      ensures View() == Note(old(View()), key, old(ir[index]).name, old(ir[index]).exclusions, held, now)
      ensures key in pending && pending[key] == h && h in store && store[h] == p && p.updated == now
      ensures old(ir[index].name) in p.components && p.components[old(ir[index].name)] == old(ir[index].exclusions)
      ensures (held ==> p.held) && (complete <==> Complete(p.components, old(ir[..])))
      ensures complete ==> ir[..] == FilledAll(p.components, old(ir[..]))
    {
      h, p := FindProgress(key, now);
      history := history + [Feasible(key, ir[index].name, ir[index].exclusions, held)];
      var recorded;
      recorded, complete := RecordComponent(p.components, ir, index);
      p := Progress(recorded, p.held || held, p.updating, now);
      store := store[h := p];
    }

    /** PostFilter's critical section for a pending heterogeneous allocation. */
    method RecordFeasibility(key: Key, ir: array<Component>, index: nat, pinned: seq<Job>, held: bool, now: int)
      returns (r: Outcome)
      requires index < ir.Length
      modifies this, ir
      ensures View() == Record(old(View()), key, old(ir[..]), index, pinned, held, now)
      ensures r.Queue? ==> phase == Queuing(key, r.work) && r.work.ir == ir[..] && r.work.pinned == pinned
      ensures !r.Queue? ==> phase == old(phase)
      ensures key in pending && pending[key] in store && store[pending[key]].updated == now
      ensures var p := store[pending[key]];
              && old(ir[index].name) in p.components
              && p.components[old(ir[index].name)] == old(ir[index].exclusions)
              && (held ==> p.held) && (r.Queue? ==> p.updating && r.work.progress == Some(pending[key]))
              && (r.Unprocessed? <==> !Complete(p.components, old(ir[..])))
    {
      ghost var components, start := ir[..], View();
      var h, p, complete := NoteFeasibility(key, ir, index, held, now);
      ghost var noted := View();
      assert noted == Note(start, key, components[index].name, components[index].exclusions, held, now);
      if !complete {
        return Unprocessed;
      }
      if p.updating {
        return Concurrent;
      }
      r := PrepareWork(key, h, p, ir[..], pinned);
      assert View() == Launch(noted, key, components, pinned);
    }

    method PrepareWork(key: Key, h: Handle, p: Progress, ir: seq<Component>, pinned: seq<Job>) returns (r: Outcome)
      modifies this
      ensures r == Queue(Work(old(made), Some(h), ir, pinned, p.held, 0))
      ensures View() ==
                old(View()).(store := old(store)[h := p.(updating := true)], phase := Queuing(key, r.work),
                             made := old(made) + 1,
                                     history := old(history) + [Prepared(key, r.work)])
    {
      store := store[h := p.(updating := true)];
      var work := Work(made, Some(h), ir, pinned, p.held, 0);
      made := made + 1;
      phase := Queuing(key, work);
      history := history + [Prepared(key, work)];
      return Queue(work);
    }

    /** releaseHold, for the work the scheduler thread is about to queue. */
    method QueueRelease()
      requires phase.Queuing?
      modifies this
      ensures View() == ReleaseHold(old(View()))
      ensures holdReleases == old(holdReleases)[old(phase).key := old(phase).work] && phase == Notifying(old(phase).key)
    {
      var key, work := phase.key, phase.work;
      if key !in holdReleases {
        releases := releases + 1;
      }
      holdReleases := holdReleases[key := work];
      phase := Notifying(key);
    }

    /** The start of reconcileRelease. */
    method TakeRelease(key: Key) returns (work: Option<Work>)
      requires key in wake && key !in inFlight
      modifies this
      ensures View() == TakeWork(old(View()), key)
      ensures work == if key in old(holdReleases) then Some(old(holdReleases)[key]) else None
      ensures key !in holdReleases && (work.Some? ==> key in inFlight && inFlight[key] == work.value)
    {
      wake := wake - {key};
      if key !in holdReleases {
        return None;
      }
      work := Some(holdReleases[key]);
      inFlight := inFlight[key := holdReleases[key]];
      holdReleases := holdReleases - {key};
    }

    method FinishRelease(key: Key, work: Work, released: bool)
      requires key in inFlight && inFlight[key] == work
      modifies this
      ensures store == Cleared(old(View()), work) && pending == if released then old(pending) - {key} else old(pending)
      ensures View() ==
                old(View()).(store := store, pending := pending, flying := old(inFlight) - {key},
                             outstanding := old(releases) - 1)
    {
      if work.progress.Some? {
        store := store[work.progress.value := Fetch(store, work.progress.value).(updating := false)];
      }
      if released {
        pending := pending - {key};
      }
      inFlight := inFlight - {key};
      releases := releases - 1;
    }

    /** The rest of reconcileRelease, once updateExternalJob has answered: a success forgets the allocation's progress,
        any end lets its Pods trigger another update, and a failure with attempts left is tried again unless a newer
        work waits. */
    method ReconcileRelease(key: Key, ghost log: seq<Event>, status: Status) returns (retry: bool)
      requires key in inFlight
      modifies this
      ensures View() == FinishWork(old(View()), key, log, status)
      ensures retry <==> status == Error && old(inFlight)[key].attempts + 1 < 5
      ensures key !in inFlight && forall k :: k != key ==> (k in holdReleases <==> k in old(holdReleases))
      ensures retry ==> && key in holdReleases && key in wake && store == old(store) && pending == old(pending)
                        && holdReleases[key] == (if key in old(holdReleases) then old(holdReleases)[key]
                                                 else old(inFlight)[key].(attempts := old(inFlight)[key].attempts + 1))
      ensures !retry ==> && holdReleases == old(holdReleases)
                         && pending == (if status == Success then old(pending) - {key} else old(pending))
      ensures !retry && old(inFlight)[key].progress.Some? ==>
                old(inFlight)[key].progress.value in store && !store[old(inFlight)[key].progress.value].updating
    {
      var work := inFlight[key];
      var tried := work.(attempts := work.attempts + 1);
      history := history + [Attempted(key, work, log, status)];
      if status == Success {
        FinishRelease(key, work, true);
        return false;
      }
      if status == Unschedulable || tried.attempts >= MAX_RELEASE_ATTEMPTS {
        FinishRelease(key, work, false);
        return false;
      }
      var newer := key in holdReleases;
      if !newer {
        holdReleases := holdReleases[key := tried];
      }
      inFlight := inFlight - {key};
      if newer {
        releases := releases - 1;
      }
      wake := wake + {key};
      return true;
    }
  }
}
