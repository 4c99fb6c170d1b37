/** One eligibility update and hold release of an allocation (slurmbridge.go, updateExternalJob; allocation.go,
    checkAllocation). */
module EligibilityUpdate {
  import opened Ordering

  /** A component of the workload: its identity, the nodes to exclude, its priority and its Pods' job-ID labels. */
  datatype Component = Component(name: string, exclusions: seq<string>, priority: Option<int>, labels: seq<int>)

  datatype Job = Job(id: int, hetId: int, finished: bool)

  datatype Lookup = Jobs(jobs: seq<Job>) | Ambiguous | Missing | LookupFailed

  datatype Status = Success | Unschedulable | Error

  /** An elided update is answered like an acknowledged one. */
  datatype UpdateAnswer = Acknowledged | NotPending | UpdateFailed

  datatype Step = Check(component: nat)
                | Update(component: nat, exclusions: seq<string>, priority: Option<int>)
                | Release(component: nat, priority: Option<int>)

  /** A step together with what Slurm answered. */
  datatype Event = Checked(component: nat, found: Lookup, outcome: Status)
                 | Updated(component: nat, exclusions: seq<string>, priority: Option<int>, answer: UpdateAnswer)
                 | Released(component: nat, job: int, priority: Option<int>, ok: bool)
  {
    function Step(): Step {
      match this
      case Checked(i, _, _) => Check(i)
      case Updated(i, excluded, priority, _) => Update(i, excluded, priority)
      case Released(i, _, priority, _) => Release(i, priority)
    }

    function Outcome(): Status {
      match this
      case Checked(_, _, outcome) => outcome
      case Updated(_, _, _, answer) =>
        (match answer case Acknowledged => Success case NotPending => Unschedulable case UpdateFailed => Error)
      case Released(_, _, _, ok) => if ok then Success else Error
    }
  }

  predicate SameIds(a: seq<Job>, b: seq<Job>) {
    |a| == |b| && forall i :: 0 <= i < |a| ==> a[i].id == b[i].id && a[i].hetId == b[i].hetId
  }

  predicate Labelled(component: Component, job: Job) {
    !job.finished ==> forall m :: 0 <= m < |component.labels| ==> component.labels[m] == job.id
  }

  /** What an allocation lookup must show for a Pod of the component to go on. */
  predicate Acceptable(components: seq<Component>, pinned: seq<Job>, component: int, jobLabel: int, jobs: seq<Job>) {
    && |jobs| == |components| && 0 <= component < |jobs|
    && (pinned != [] ==> SameIds(pinned, jobs))
    && (forall i :: 0 <= i < |jobs| ==> Labelled(components[i], jobs[i]))
    && jobLabel == jobs[component].id && !jobs[component].finished
  }

  function Judged(components: seq<Component>, pinned: seq<Job>, component: int, jobLabel: int, found: Lookup): Status {
    match found
    case LookupFailed => Error
    case Ambiguous => Unschedulable
    case Missing => Unschedulable
    case Jobs(jobs) => if Acceptable(components, pinned, component, jobLabel, jobs) then Success else Unschedulable
  }

  function Withheld(component: Component, held: bool): Option<int> {
    if held then None else component.priority
  }

  function PlanLength(components: seq<Component>, held: bool): nat {
    1 + |components| + (if held then 2 * |components| else 0)
  }

  /** Everything a complete update does, in order: a check, all the updates, and for a held allocation a check and a
      release of each component. */
  function Plan(components: seq<Component>, held: bool, n: nat): (step: Step)
    requires n < PlanLength(components, held)
    ensures step.Release? ==> held && n > |components| + 1 && step.component < |components|
    ensures step.Release? ==>
              Plan(components, held, n - 1) == Check(step.component)
              && step.priority == components[step.component].priority
  {
    if n == 0 then Check(0)
    else if n <= |components| then Update(n - 1, components[n - 1].exclusions, Withheld(components[n - 1], held))
    else
      var k := n - 1 - |components|;
      if k % 2 == 0 then Check(k / 2) else Release(k / 2, components[k / 2].priority)
  }

  /** The log of one attempt: a prefix of the plan in which only the last step may have failed, every accepted lookup
      names the pinned jobs, and a release names the pinned job of its component. */
  ghost predicate Follows(components: seq<Component>, held: bool, pinned: seq<Job>, log: seq<Event>, status: Status) {
    && |log| <= PlanLength(components, held)
    && (forall n :: 0 <= n < |log| ==> log[n].Step() == Plan(components, held, n))
    && (forall n :: 0 <= n < |log| - 1 ==> log[n].Outcome() == Success)
    && (status == Success ==> |log| == PlanLength(components, held))
    && log != [] && log[|log| - 1].Outcome() == status
    && (forall n :: 0 <= n < |log| ==> Pinned(components, pinned, log[n]))
  }

  ghost predicate Pinned(components: seq<Component>, pinned: seq<Job>, e: Event) {
    && (e.Checked? && e.outcome == Success ==>
          && e.found.Jobs? && SameIds(pinned, e.found.jobs) && e.component < |components| && e.component < |pinned|
          && components[e.component].labels != [] && components[e.component].labels[0] == pinned[e.component].id
          && !e.found.jobs[e.component].finished)
    && (e.Released? ==> e.component < |pinned| && e.job == pinned[e.component].id)
  }

  /** Every component's update, priority withheld, was acknowledged earlier in the log. */
  ghost predicate AllUpdated(components: seq<Component>, log: seq<Event>) {
    forall i :: 0 <= i < |components| ==> Updated(i, components[i].exclusions, None, Acknowledged) in log
  }

  /** No component is released before every component of the held allocation is updated, and each release follows a
      fresh check that the allocation is still the pinned one. */
  lemma ReleaseGuarded(components: seq<Component>, held: bool, pinned: seq<Job>, log: seq<Event>, status: Status,
                       n: nat)
    requires Follows(components, held, pinned, log, status)
    requires n < |log| && log[n].Released?
    ensures held && n > 0 && log[n].component < |components|
    ensures AllUpdated(components, log[..n - 1])
    ensures log[n - 1].Checked? && log[n - 1].component == log[n].component && log[n - 1].outcome == Success
    ensures log[n - 1].found.Jobs? && log[n].component < |log[n - 1].found.jobs|
    ensures log[n].job == log[n - 1].found.jobs[log[n].component].id
            && !log[n - 1].found.jobs[log[n].component].finished
    ensures components[log[n].component].labels != [] && log[n].job == components[log[n].component].labels[0]
    ensures log[n].priority == components[log[n].component].priority
  {
    assert log[n].Step() == Plan(components, held, n);
    assert log[n - 1].Step() == Plan(components, held, n - 1);
    forall i | 0 <= i < |components| ensures Updated(i, components[i].exclusions, None, Acknowledged) in log[..n - 1] {
      assert log[1 + i].Step() == Plan(components, held, 1 + i) && log[1 + i].Outcome() == Success;
      assert log[..n - 1][1 + i] == Updated(i, components[i].exclusions, None, Acknowledged);
    }
  }

  /** Everything an attempt may have sent: an update carries the component's exclusions, and its priority exactly when
      the allocation is not held; only a held allocation is released, and then with the component's priority. */
  ghost predicate Sent(components: seq<Component>, held: bool, pinned: seq<Job>, e: Event) {
    && (e.Updated? ==>
          && e.component < |components| && e.exclusions == components[e.component].exclusions
          && e.priority == if held then None else components[e.component].priority)
    && (e.Released? ==>
          && held && e.component < |components| && e.component < |pinned| && e.job == pinned[e.component].id
          && e.priority == components[e.component].priority)
  }

  /** A component's update is acknowledged, and for a held allocation its release too. */
  ghost predicate Served(components: seq<Component>, held: bool, pinned: seq<Job>, log: seq<Event>, i: nat)
    requires i < |components|
  {
    && i < |pinned|
    && (!held ==> Updated(i, components[i].exclusions, components[i].priority, Acknowledged) in log)
    && (held ==>
          && Updated(i, components[i].exclusions, None, Acknowledged) in log
          && Released(i, pinned[i].id, components[i].priority, true) in log)
  }

  lemma EverythingSent(components: seq<Component>, held: bool, pinned: seq<Job>, log: seq<Event>, status: Status)
    requires Follows(components, held, pinned, log, status)
    ensures forall n :: 0 <= n < |log| ==> Sent(components, held, pinned, log[n])
  {
    forall n | 0 <= n < |log| ensures Sent(components, held, pinned, log[n]) {
      assert log[n].Step() == Plan(components, held, n);
    }
  }

  /** A successful attempt served every component. */
  lemma EverythingServed(components: seq<Component>, held: bool, pinned: seq<Job>, log: seq<Event>, i: nat)
    requires Follows(components, held, pinned, log, Success) && |pinned| == |components| && i < |components|
    ensures Served(components, held, pinned, log, i)
  {
    assert log[1 + i].Step() == Plan(components, held, 1 + i) && log[1 + i].Outcome() == Success;
    if held {
      ReleaseSucceeded(components, pinned, log, i);
    }
  }

  lemma ReleaseSucceeded(components: seq<Component>, pinned: seq<Job>, log: seq<Event>, i: nat)
    requires Follows(components, true, pinned, log, Success) && i < |components| && i < |pinned|
    ensures Released(i, pinned[i].id, components[i].priority, true) in log
  {
    var n := 2 + |components| + 2 * i;
    assert log[n].Step() == Plan(components, true, n) && log[n].Outcome() == Success;
    assert Plan(components, true, n) == Release(i, components[i].priority);
    assert Pinned(components, pinned, log[n]);
  }

  /** The attempt so far: the first steps of the plan, all successful. */
  ghost predicate Good(components: seq<Component>, held: bool, pinned: seq<Job>, log: seq<Event>) {
    && |log| <= PlanLength(components, held)
    && forall n :: 0 <= n < |log| ==>
         log[n].Step() == Plan(components, held, n) && log[n].Outcome() == Success && Pinned(components, pinned, log[n])
  }

  /** One more event: the attempt goes on if it succeeded, and is over otherwise. */
  lemma OneMore(components: seq<Component>, held: bool, pinned: seq<Job>, log: seq<Event>, e: Event)
    requires Good(components, held, pinned, log) && |log| < PlanLength(components, held)
    requires e.Step() == Plan(components, held, |log|) && Pinned(components, pinned, e)
    ensures e.Outcome() == Success ==> Good(components, held, pinned, log + [e])
    ensures e.Outcome() != Success ==> Follows(components, held, pinned, log + [e], e.Outcome())
  {
    var more := log + [e];
    forall n | 0 <= n < |more|
      ensures more[n].Step() == Plan(components, held, n) && Pinned(components, pinned, more[n])
      ensures n < |log| ==> more[n].Outcome() == Success
    {
      if n < |log| {
        assert more[n] == log[n];
      }
    }
  }

  method AllLabelled(labels: seq<int>, id: int) returns (ok: bool)
    ensures ok <==> forall m :: 0 <= m < |labels| ==> labels[m] == id
  {
    for m := 0 to |labels|
      invariant forall n :: 0 <= n < m ==> labels[n] == id
    {
      if labels[m] != id {
        return false;
      }
    }
    return true;
  }

  class Attempt {
    const components: array<Component>
    var allocation: seq<Job>
    var log: seq<Event>
    const lookup: nat -> Lookup
    const update: nat -> UpdateAnswer
    const release: nat -> bool

    constructor (components: array<Component>, allocation: seq<Job>, lookup: nat -> Lookup, update: nat -> UpdateAnswer,
                 release: nat -> bool)
      requires components.Length > 0 && forall i :: 0 <= i < components.Length ==> components[i].labels != []
      requires allocation == [] || |allocation| == components.Length
      ensures this.components == components && this.allocation == allocation && log == [] && Valid()
    {
      this.components, this.allocation, this.lookup, this.update, this.release :=
        components, allocation, lookup, update, release;
      log := [];
    }

    /** Every component has a Pod, and a pinned allocation has one job for each component. */
    ghost predicate Valid()
      reads this, components
    {
      && components.Length > 0 && (forall i :: 0 <= i < components.Length ==> components[i].labels != [])
      && (allocation == [] || |allocation| == components.Length)
    }

    /** checkAllocation, for the first Pod of a component. */
    method CheckAllocation(component: nat) returns (status: Status)
      requires Valid() && component < components.Length
      modifies this
      ensures Valid()
      ensures exists found ::
                status == Judged(components[..], old(allocation), component, components[component].labels[0], found)
                           && log == old(log) + [Checked(component, found, status)]
                           && Pinned(components[..], allocation, Checked(component, found, status))
      ensures allocation == old(allocation) || (old(allocation) == [] && status == Success)
    {
      var found := lookup(|log|);
      var jobLabel := components[component].labels[0];
      status := CheckJobs(component, jobLabel, found);
      if status == Success && allocation == [] {
        allocation := found.jobs;
      }
      log := log + [Checked(component, found, status)];
    }

    method CheckJobs(component: nat, jobLabel: int, found: Lookup) returns (status: Status)
      requires Valid()
      ensures status == Judged(components[..], allocation, component, jobLabel, found)
      ensures status == Error <==> found.LookupFailed?
      ensures status == Success ==>
                && found.Jobs? && |found.jobs| == components.Length && component < |found.jobs|
                && jobLabel == found.jobs[component].id && !found.jobs[component].finished
                && (allocation != [] ==> SameIds(allocation, found.jobs))
                && (forall i :: 0 <= i < |found.jobs| && !found.jobs[i].finished ==>
                      forall m :: 0 <= m < |components[i].labels| ==> components[i].labels[m] == found.jobs[i].id)
      ensures && found.Jobs? && |found.jobs| == components.Length && component < |found.jobs|
              && jobLabel == found.jobs[component].id && !found.jobs[component].finished
              && (allocation != [] ==> SameIds(allocation, found.jobs))
              && (forall i :: 0 <= i < |found.jobs| && !found.jobs[i].finished ==>
                    forall m :: 0 <= m < |components[i].labels| ==> components[i].labels[m] == found.jobs[i].id) ==>
                status == Success
    {
      if found.Ambiguous? || found.Missing? {
        return Unschedulable;
      }
      if found.LookupFailed? {
        return Error;
      }
      var jobs := found.jobs;
      if jobs == [] || |jobs| != components.Length {
        return Unschedulable;
      }
      for i := 0 to |jobs|
        invariant forall j :: 0 <= j < i ==> Labelled(components[j], jobs[j])
        invariant allocation != [] ==> SameIds(allocation[..i], jobs[..i])
      {
        if allocation != [] && (allocation[i].id != jobs[i].id || allocation[i].hetId != jobs[i].hetId) {
          return Unschedulable;
        }
        if jobs[i].finished {
          continue;
        }
        var labelled := AllLabelled(components[i].labels, jobs[i].id);
        if !labelled {
          return Unschedulable;
        }
      }
      assert jobs[..|jobs|] == jobs && (allocation != [] ==> allocation[..|jobs|] == allocation);
      if component >= components.Length || jobLabel != jobs[component].id {
        return Unschedulable;
      }
      if jobs[component].finished {
        return Unschedulable;
      }
      return Success;
    }

    /** UpdateJob with the component's priority withheld while the allocation is held, then put back. */
    method UpdateComponent(i: nat, held: bool) returns (status: Status)
      requires Valid() && i < components.Length
      modifies `log, components
      ensures components[..] == old(components[..])
      ensures exists e: Event :: log == old(log) + [e] && e.Outcome() == status
                && e.Step() == Update(i, components[i].exclusions, Withheld(components[i], held))
      ensures |log| == |old(log)| + 1 && log[|old(log)|].Updated?
      ensures log[|old(log)|].priority == if held then None else components[i].priority
      ensures status == Success <==> log[|old(log)|].answer == Acknowledged
      ensures status == Unschedulable <==> log[|old(log)|].answer == NotPending
    {
      var priority := components[i].priority;
      if held {
        components[i] := components[i].(priority := None);
      }
      var answer := update(|log|);
      var e := Updated(i, components[i].exclusions, components[i].priority, answer);
      log := log + [e];
      components[i] := components[i].(priority := priority);
      assert components[..] == old(components[..]);
      status := e.Outcome();
    }

    method ReleaseComponent(i: nat) returns (status: Status)
      requires Valid() && i < components.Length && |allocation| == components.Length
      modifies `log
      ensures exists e: Event :: log == old(log) + [e] && e.Outcome() == status
                && e.Step() == Release(i, components[i].priority) && e.Released? && e.job == allocation[i].id
      ensures |log| == |old(log)| + 1 && log[|old(log)|].Released?
      ensures log[|old(log)|].priority == components[i].priority && log[|old(log)|].job == allocation[i].id
      ensures status == if log[|old(log)|].ok then Success else Error
    {
      var e := Released(i, allocation[i].id, components[i].priority, release(|log|));
      log := log + [e];
      status := e.Outcome();
    }

    /** updateExternalJob: success means that every component's update was acknowledged, with its priority only if the
        allocation is not held, and that each component of a held allocation was released with its priority. */
    method UpdateExternalJob(held: bool) returns (status: Status)
      requires Valid()
      modifies this, components
      ensures Valid() && components[..] == old(components[..])
      ensures old(allocation) != [] ==> allocation == old(allocation)
      ensures old(log) <= log && Follows(components[..], held, allocation, log[|old(log)|..], status)
      ensures status == Success ==> |allocation| == components.Length
      ensures status == Success && !held ==> forall i :: 0 <= i < components.Length ==>
                Updated(i, components[i].exclusions, components[i].priority, Acknowledged) in log[|old(log)|..]
      ensures status == Success && held ==> forall i :: 0 <= i < components.Length ==>
                Updated(i, components[i].exclusions, None, Acknowledged) in log[|old(log)|..]
      ensures status == Success && held ==> forall i :: 0 <= i < components.Length ==>
                Released(i, allocation[i].id, components[i].priority, true) in log[|old(log)|..]
      ensures forall e :: e in log[|old(log)|..] ==> Sent(components[..], held, allocation, e)
    {
      status := WorkThrough(held);
      ghost var did := log[|old(log)|..];
      EverythingSent(components[..], held, allocation, did, status);
      if status == Success {
        forall i | 0 <= i < components.Length
          ensures !held ==> Updated(i, components[i].exclusions, components[i].priority, Acknowledged) in did
          ensures held ==> Updated(i, components[i].exclusions, None, Acknowledged) in did
          ensures held ==> Released(i, allocation[i].id, components[i].priority, true) in did
        {
          EverythingServed(components[..], held, allocation, did, i);
        }
      }
    }

    method WorkThrough(held: bool) returns (status: Status)
      requires Valid()
      modifies this, components
      ensures Valid() && components[..] == old(components[..])
      ensures old(allocation) != [] ==> allocation == old(allocation)
      ensures old(log) <= log && Follows(components[..], held, allocation, log[|old(log)|..], status)
      ensures status == Success ==> |allocation| == components.Length
    {
      ghost var start, did := log, [];
      status, did := CheckFirst(held);
      if status == Success {
        status, did := UpdateAll(held, start, did);
        if status == Success && held {
          status, did := ReleaseAll(start, did);
        }
      }
      assert log[|start|..] == did;
    }

    method CheckFirst(held: bool) returns (status: Status, ghost did: seq<Event>)
      requires Valid()
      modifies this
      ensures Valid() && log == old(log) + did && |did| == 1
      ensures old(allocation) != [] ==> allocation == old(allocation)
      ensures status == Success ==> |allocation| == components.Length && Good(components[..], held, allocation, did)
      ensures status != Success ==> Follows(components[..], held, allocation, did, status)
    {
      status := CheckAllocation(0);
      did := [log[|log| - 1]];
      OneMore(components[..], held, allocation, [], did[0]);
      assert [] + did == did;
    }

    method UpdateAll(held: bool, ghost start: seq<Event>, ghost checked: seq<Event>)
      returns (status: Status, ghost did: seq<Event>)
      requires Valid() && |allocation| == components.Length
      requires log == start + checked && |checked| == 1 && Good(components[..], held, allocation, checked)
      modifies `log, components
      ensures components[..] == old(components[..]) && log == start + did
      ensures status == Success ==> |did| == 1 + components.Length && Good(components[..], held, allocation, did)
      ensures status != Success ==> Follows(components[..], held, allocation, did, status)
    {
      ghost var ir := components[..];
      did, status := checked, Success;
      for i := 0 to components.Length
        invariant Valid() && components[..] == ir && status == Success
        invariant log == start + did && |did| == 1 + i && Good(ir, held, allocation, did)
      {
        ghost var before := did;
        status := UpdateComponent(i, held);
        did := before + [log[|log| - 1]];
        assert log == start + did;
        OneMore(ir, held, allocation, before, did[|before|]);
        if status != Success {
          return;
        }
      }
    }

    method ReleaseAll(ghost start: seq<Event>, ghost updated: seq<Event>)
      returns (status: Status, ghost did: seq<Event>)
      requires Valid() && |allocation| == components.Length
      requires log == start + updated && |updated| == 1 + components.Length
               && Good(components[..], true, allocation, updated)
      modifies this
      ensures Valid() && allocation == old(allocation)
      ensures log == start + did && Follows(components[..], true, allocation, did, status)
    {
      ghost var ir := components[..];
      did, status := updated, Success;
      for i := 0 to components.Length
        invariant Valid() && allocation == old(allocation) && status == Success
        invariant log == start + did && |did| == 1 + |ir| + 2 * i && Good(ir, true, allocation, did)
      {
        status, did := ReleaseOne(i, start, did);
        if status != Success {
          return;
        }
      }
    }

    method ReleaseOne(i: nat, ghost start: seq<Event>, ghost done: seq<Event>)
      returns (status: Status, ghost did: seq<Event>)
      requires Valid() && |allocation| == components.Length && i < components.Length
      requires log == start + done && |done| == 1 + components.Length + 2 * i
               && Good(components[..], true, allocation, done)
      modifies this
      ensures Valid() && allocation == old(allocation) && log == start + did
      ensures status == Success ==> |did| == |done| + 2 && Good(components[..], true, allocation, did)
      ensures status != Success ==> Follows(components[..], true, allocation, did, status)
    {
      ghost var ir := components[..];
      status := CheckAllocation(i);
      ghost var checked := done + [log[|log| - 1]];
      did := checked;
      assert log == start + did;
      OneMore(ir, true, allocation, done, checked[|done|]);
      if status != Success {
        return;
      }
      status := ReleaseComponent(i);
      did := checked + [log[|log| - 1]];
      assert log == start + did;
      OneMore(ir, true, allocation, checked, did[|checked|]);
    }
  }
}
