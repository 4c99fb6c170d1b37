/** The elision of unchanged job updates (slurmcontrol/slurmcontrol.go). */
module UpdateElision {
  import opened Ordering
  import EligibilityUpdate
  import SlurmJob

  /** What an update may set. Slurm keeps the hold of a job in its priority. */
  datatype Field = ExcludedNodes | Priority | Other(name: string)

  datatype Value = Nodes(nodes: seq<string>) | Number(number: int) | Text(text: string)

  type Record = map<Field, Value>

  /** A request reached Slurm and was acknowledged; took effect although it failed; or failed without effect. */
  datatype Answer = Acknowledged | LostReply | Refused

  datatype Op =
    | Submit(id: int, record: Record)
    | Update(id: int, desc: Record, answer: Answer)
    | Release(id: int, unheld: Value, priority: Option<Value>, freed: Answer, raised: Answer)
    | Forget(id: int)
    | Delete(leader: int, ids: set<int>)

  /** Slurm's records and the descriptions last acknowledged. */
  datatype State = State(records: map<int, Record>, last: map<int, Record>)

  // --- what Slurm does with a request ---

  function Apply(records: map<int, Record>, id: int, desc: Record, answer: Answer): map<int, Record> {
    if id in records && !answer.Refused? then records[id := records[id] + desc] else records
  }

  /** ReleaseJob: lift the hold, then, if that was acknowledged, set the priority in a request of its own. */
  function Freed(records: map<int, Record>, op: Op): map<int, Record>
    requires op.Release?
  {
    var lifted := Apply(records, op.id, map[Priority := op.unheld], op.freed);
    if op.freed.Acknowledged? && op.priority.Some?
    then Apply(lifted, op.id, map[Priority := op.priority.value], op.raised)
    else lifted
  }

  /** Always sending. */
  function Plain(records: map<int, Record>, op: Op): map<int, Record> {
    match op
    case Submit(id, record) => records[id := record]
    case Update(id, desc, answer) => Apply(records, id, desc, answer)
    case Release(_, _, _, _, _) => Freed(records, op)
    case Forget(_) => records
    case Delete(leader, ids) => records - ids - {leader}
  }

  predicate Elided(s: State, op: Op) {
    op.Update? && op.id in s.last && s.last[op.id] == op.desc
  }

  function Cached(s: State, op: Op): State {
    match op
    case Submit(id, record) => s.(records := Plain(s.records, op))
    case Update(id, desc, answer) =>
      if Elided(s, op) then s
      else State(Plain(s.records, op), if answer.Acknowledged? then s.last[id := desc] else s.last - {id})
    case Release(_, _, _, _, _) => s.(records := Plain(s.records, op))
    case Forget(id) => s.(last := s.last - {id})
    case Delete(leader, ids) => State(Plain(s.records, op), s.last - {leader})
  }

  // --- runs ---

  /** The description of the latest update of a job. */
  function Latest(ops: seq<Op>, id: int): Option<Record> {
    if ops == [] then None
    else
      var op := ops[|ops| - 1];
      if op.Update? && op.id == id then Some(op.desc) else Latest(ops[..|ops| - 1], id)
  }

  /** A release comes after an update of the same job that withheld the priority. */
  ghost predicate Withholding(ops: seq<Op>, op: Op) {
    op.Release? ==> var desc := Latest(ops, op.id); desc.Some? && Priority !in desc.value
  }

  /** Slurm gives a job a new ID. */
  ghost predicate NewId(ops: seq<Op>, op: Op) {
    op.Submit? ==> Latest(ops, op.id).None?
  }

  ghost predicate Disciplined(ops: seq<Op>) {
    forall n :: 0 <= n < |ops| ==> Withholding(ops[..n], ops[n]) && NewId(ops[..n], ops[n])
  }

  function RunCached(ops: seq<Op>): State {
    if ops == [] then State(map[], map[]) else Cached(RunCached(ops[..|ops| - 1]), ops[|ops| - 1])
  }

  /** The same run without the cache. Where the cache sends nothing, the extra request may get any answer. */
  function RunPlain(ops: seq<Op>, extra: nat -> Answer): map<int, Record> {
    if ops == [] then map[]
    else
      var before, op := ops[..|ops| - 1], ops[|ops| - 1];
      var sent := if Elided(RunCached(before), op) then op.(answer := extra(|before|)) else op;
      Plain(RunPlain(before, extra), sent)
  }

  /** A remembered description is the latest one sent, and sending it again would change nothing. */
  ghost predicate Inv(ops: seq<Op>, s: State) {
    forall id :: id in s.last ==>
      Latest(ops, id) == Some(s.last[id]) && (id in s.records ==> s.records[id] + s.last[id] == s.records[id])
  }

  lemma LatestOf(ops: seq<Op>, op: Op)
    ensures forall id :: Latest(ops + [op], id) == if op.Update? && op.id == id then Some(op.desc) else Latest(ops, id)
  {
    assert (ops + [op])[..|ops|] == ops;
  }

  lemma StepInv(ops: seq<Op>, s: State, op: Op)
    requires Inv(ops, s) && Withholding(ops, op) && NewId(ops, op)
    ensures Inv(ops + [op], Cached(s, op))
  {
    LatestOf(ops, op);
  }

  lemma Prefix(ops: seq<Op>)
    requires Disciplined(ops) && ops != []
    ensures Disciplined(ops[..|ops| - 1])
  {
    var before := ops[..|ops| - 1];
    forall n | 0 <= n < |before| ensures Withholding(before[..n], before[n]) && NewId(before[..n], before[n]) {
      assert before[..n] == ops[..n];
    }
  }

  lemma {:induction false} RunInv(ops: seq<Op>)
    requires Disciplined(ops)
    ensures Inv(ops, RunCached(ops))
  {
    if ops != [] {
      var before, op := ops[..|ops| - 1], ops[|ops| - 1];
      Prefix(ops);
      RunInv(before);
      assert ops == before + [op] && Withholding(ops[..|before|], op);
      StepInv(before, RunCached(before), op);
    }
  }

  /** Over every run, Slurm's records are those of always sending. */
  lemma {:induction false} ElisionIsInvisible(ops: seq<Op>, extra: nat -> Answer)
    requires Disciplined(ops)
    ensures RunCached(ops).records == RunPlain(ops, extra)
  {
    if ops != [] {
      Prefix(ops);
      ElisionIsInvisible(ops[..|ops| - 1], extra);
      RunInv(ops[..|ops| - 1]);
    }
  }

  /** After a release, eliding a repeated description is right exactly when that description left the priority out, or
      gave the priority the release ended with. */
  lemma ReleaseExact(s: State, desc: Record, op: Op)
    requires op.Release? && op.id in s.records && op.id in s.last && s.last[op.id] == desc
    requires s.records[op.id] + desc == s.records[op.id]
    ensures Elided(Cached(s, op), Update(op.id, desc, Acknowledged))
    ensures Plain(Cached(s, op).records, Update(op.id, desc, Acknowledged)) == Cached(s, op).records
            <==> (Priority in desc ==>
              Priority in Cached(s, op).records[op.id] && Cached(s, op).records[op.id][Priority] == desc[Priority])
  {
    var freed := Cached(s, op).records;
    var again := Plain(freed, Update(op.id, desc, Acknowledged));
    assert again == freed ==> again[op.id] == freed[op.id];
    if Priority in desc ==> Priority in freed[op.id] && freed[op.id][Priority] == desc[Priority] {
      assert freed[op.id] + desc == freed[op.id];
    }
  }

  /** Releasing a job whose last acknowledged description set another priority makes the two part. */
  lemma WithholdingNeeded(s: State, desc: Record, op: Op)
    requires op.Release? && op.id in s.records && op.id in s.last && s.last[op.id] == desc
    requires s.records[op.id] + desc == s.records[op.id] && Priority in desc
    requires op.freed.Acknowledged? && op.priority.None? && op.unheld != desc[Priority]
    ensures var again := Update(op.id, desc, Acknowledged);
            Plain(Cached(s, op).records, again) != Cached(Cached(s, op), again).records
  {
    ReleaseExact(s, desc, op);
  }

  /** The request leaves what is remembered of the job alone. */
  ghost predicate LeavesMemory(op: Op, id: int, desc: Record) {
    match op
    case Submit(_, _) => true
    case Update(other, sent, _) => other != id || sent == desc
    case Release(_, _, _, _, _) => true
    case Forget(other) => other != id
    case Delete(leader, _) => leader != id
  }

  /** Once acknowledged, a description is not sent again until another one is, or the job is forgotten or deleted: the
      repeated update changes neither Slurm's records nor the cache, whatever Slurm would have answered. */
  lemma {:induction false} RepeatElided(ops: seq<Op>, n: nat, id: int, desc: Record, answer: Answer)
    requires n < |ops| && ops[n] == Update(id, desc, Acknowledged)
    requires forall k :: n < k < |ops| ==> LeavesMemory(ops[k], id, desc)
    ensures id in RunCached(ops).last && RunCached(ops).last[id] == desc
    ensures RunCached(ops + [Update(id, desc, answer)]) == RunCached(ops)
  {
    var before, op := ops[..|ops| - 1], ops[|ops| - 1];
    if n < |before| {
      RepeatElided(before, n, id, desc, answer);
      assert op == ops[|before|] && LeavesMemory(op, id, desc);
    }
    assert (ops + [Update(id, desc, answer)])[..|ops|] == ops;
  }

  // --- what updateExternalJob issues ---

  predicate Describes(desc: Record, exclusions: seq<string>, priority: Option<int>) {
    && ExcludedNodes in desc && desc[ExcludedNodes] == Nodes(exclusions)
    && (Priority in desc <==> priority.Some?) && (priority.Some? ==> desc[Priority] == Number(priority.value))
  }

  /** buildJobUpdate: exclusions are always sent, so that an empty list clears the earlier one; a withheld priority is
      not. */
  function BuildJobUpdate(common: map<string, string>, exclusions: seq<string>, priority: Option<int>): (r: Record)
    ensures Describes(r, exclusions, priority)
    ensures ExcludedNodes in r && r[ExcludedNodes] == Nodes(exclusions)
    ensures if priority.Some? then Priority in r && r[Priority] == Number(priority.value) else Priority !in r
    ensures forall name :: name in common ==> Other(name) in r && r[Other(name)] == Text(common[name])
    ensures forall f :: f in r && f.Other? ==> f.name in common
  {
    (map name | name in common :: Other(name) := Text(common[name]))
    + map[ExcludedNodes := Nodes(exclusions)]
    + if priority.Some? then map[Priority := Number(priority.value)] else map[]
  }

  ghost predicate Issued(components: seq<EligibilityUpdate.Component>, e: EligibilityUpdate.Event, op: Op) {
    match e
    case Checked(_, _, _) => false
    case Updated(i, exclusions, priority, answer) =>
      && op.Update? && i < |components| && components[i].labels != [] && op.id == components[i].labels[0]
      && Describes(op.desc, exclusions, priority)
    case Released(i, job, priority, ok) => op.Release? && op.id == job
  }

  ghost predicate Mine(components: seq<EligibilityUpdate.Component>, id: int) {
    exists i :: 0 <= i < |components| && components[i].labels != [] && components[i].labels[0] == id
  }

  /** `ops` is what the attempt sent, in order, with requests for other jobs and forgotten cache entries in between:
      `origin` gives the event a request comes from, or -1. */
  ghost predicate Woven(components: seq<EligibilityUpdate.Component>, log: seq<EligibilityUpdate.Event>, ops: seq<Op>,
                        origin: seq<int>)
  {
    && |origin| == |ops|
    && (forall k :: 0 <= k < |ops| ==> OriginOf(components, log, ops[k], origin[k]))
    && (forall j, k :: 0 <= j < k < |ops| && origin[j] >= 0 && origin[k] >= 0 ==> origin[j] < origin[k])
    && (forall n :: 0 <= n < |log| && !log[n].Checked? ==> n in origin)
  }

  ghost predicate OriginOf(components: seq<EligibilityUpdate.Component>, log: seq<EligibilityUpdate.Event>, op: Op,
                           n: int)
  {
    if n < 0 then Foreign(components, op) else n < |log| && Issued(components, log[n], op)
  }

  ghost predicate Foreign(components: seq<EligibilityUpdate.Component>, op: Op) {
    || op.Forget? || op.Delete?
    || forall i :: 0 <= i < |components| && components[i].labels != [] ==> components[i].labels[0] != op.id
  }

  ghost predicate UpdatedIn(components: seq<EligibilityUpdate.Component>, log: seq<EligibilityUpdate.Event>, id: int) {
    exists n :: 0 <= n < |log| && log[n].Updated? && log[n].component < |components|
                && components[log[n].component].labels != [] && components[log[n].component].labels[0] == id
  }

  ghost predicate AllWithheld(log: seq<EligibilityUpdate.Event>) {
    forall n :: 0 <= n < |log| && log[n].Updated? ==> log[n].priority == None
  }

  predicate Updates(op: Op, id: int) {
    op.Update? && op.id == id
  }

  /** If a job was updated, and never with a priority, then its latest description has none. */
  lemma {:induction false} NeverPriority(before: seq<Op>, ops: seq<Op>, id: int)
    requires exists k :: 0 <= k < |ops| && Updates(ops[k], id)
    requires forall k :: 0 <= k < |ops| && Updates(ops[k], id) ==> Priority !in ops[k].desc
    ensures Latest(before + ops, id).Some? && Priority !in Latest(before + ops, id).value
    decreases |ops|
  {
    var prior, op := ops[..|ops| - 1], ops[|ops| - 1];
    assert before + ops == (before + prior) + [op];
    LatestOf(before + prior, op);
    if !Updates(op, id) {
      var k :| 0 <= k < |ops| && Updates(ops[k], id);
      assert prior[k] == ops[k];
      NeverPriority(before, prior, id);
    }
  }

  /** What an attempt sends for a job of its own, if the log withholds priorities. */
  lemma IssuedWithheld(components: seq<EligibilityUpdate.Component>, log: seq<EligibilityUpdate.Event>, op: Op, n: int,
                       id: int)
    requires OriginOf(components, log, op, n) && AllWithheld(log) && Mine(components, id) && Updates(op, id)
    ensures Priority !in op.desc
  {
    assert log[n].Updated? && log[n].priority == None;
  }

  /** Once an attempt on a held allocation has updated a job, the job's latest description has no priority. */
  lemma LatestWithheld(components: seq<EligibilityUpdate.Component>, log: seq<EligibilityUpdate.Event>,
                       origin: seq<int>,
                       before: seq<Op>, ops: seq<Op>, id: int)
    requires Woven(components, log, ops, origin) && AllWithheld(log) && UpdatedIn(components, log, id)
    ensures Latest(before + ops, id).Some? && Priority !in Latest(before + ops, id).value
  {
    var n :| 0 <= n < |log| && log[n].Updated? && log[n].component < |components|
             && components[log[n].component].labels != [] && components[log[n].component].labels[0] == id;
    var j :| 0 <= j < |origin| && origin[j] == n;
    assert OriginOf(components, log, ops[j], n) && Updates(ops[j], id);
    forall k | 0 <= k < |ops| && Updates(ops[k], id) ensures Priority !in ops[k].desc {
      IssuedWithheld(components, log, ops[k], origin[k], id);
    }
    NeverPriority(before, ops, id);
  }

  lemma HeldWithholds(components: seq<EligibilityUpdate.Component>, pinned: seq<EligibilityUpdate.Job>,
                      log: seq<EligibilityUpdate.Event>, status: EligibilityUpdate.Status, n: nat)
    requires EligibilityUpdate.Follows(components, true, pinned, log, status) && n <= |log|
    ensures AllWithheld(log[..n])
  {
    forall k | 0 <= k < n && log[k].Updated? ensures log[k].priority == None {
      assert log[k].Step() == EligibilityUpdate.Plan(components, true, k);
    }
  }

  /** Every release that updateExternalJob issues meets the discipline, whatever was sent before it and in between. */
  lemma AttemptWithholds(components: seq<EligibilityUpdate.Component>, held: bool, pinned: seq<EligibilityUpdate.Job>,
                         log: seq<EligibilityUpdate.Event>, status: EligibilityUpdate.Status, n: nat,
                         origin: seq<int>, before: seq<Op>, ops: seq<Op>, op: Op)
    requires EligibilityUpdate.Follows(components, held, pinned, log, status)
    requires n < |log| && log[n].Released? && Issued(components, log[n], op) && Woven(components, log[..n], ops, origin)
    ensures Withholding(before + ops, op)
  {
    EligibilityUpdate.ReleaseGuarded(components, held, pinned, log, status, n);
    var c := log[n].component;
    var done := EligibilityUpdate.Updated(c, components[c].exclusions, None, EligibilityUpdate.Acknowledged);
    assert done in log[..n - 1];
    var m :| 0 <= m < n - 1 && log[m] == done;
    assert log[..n][m] == done;
    HeldWithholds(components, pinned, log, status, n);
    LatestWithheld(components, log[..n], origin, before, ops, op.id);
  }

  /** Where a release comes from: event k of an attempt that began before request `start`. */
  datatype Source = Source(components: seq<EligibilityUpdate.Component>, held: bool, pinned: seq<EligibilityUpdate.Job>,
                           log: seq<EligibilityUpdate.Event>, status: EligibilityUpdate.Status, k: nat, start: nat,
                           origin: seq<int>)

  /** Request n is a release that an attempt of updateExternalJob issued, after all it had issued before. */
  ghost predicate IssuedBy(ops: seq<Op>, n: nat, source: Source) {
    && source.start <= n < |ops|
       && EligibilityUpdate.Follows(source.components, source.held, source.pinned, source.log, source.status)
    && source.k < |source.log| && source.log[source.k].Released?
       && Issued(source.components, source.log[source.k], ops[n])
    && Woven(source.components, source.log[..source.k], ops[source.start..n], source.origin)
  }

  /** A run of any number of attempts, one after the other or interleaved on different jobs, with updates, submissions,
      deletions and forgotten entries from anywhere; only attempts release. */
  ghost predicate ByAttempts(ops: seq<Op>) {
    forall n :: 0 <= n < |ops| && ops[n].Release? ==> exists source :: IssuedBy(ops, n, source)
  }

  /** Slurm gives every submitted job a new ID. */
  ghost predicate NewIds(ops: seq<Op>) {
    forall n :: 0 <= n < |ops| ==> NewId(ops[..n], ops[n])
  }

  lemma IssuedWithholds(ops: seq<Op>, n: nat, source: Source)
    requires IssuedBy(ops, n, source)
    ensures Withholding(ops[..n], ops[n])
  {
    assert ops[..n] == ops[..source.start] + ops[source.start..n];
    AttemptWithholds(source.components, source.held, source.pinned, source.log, source.status, source.k, source.origin,
                     ops[..source.start], ops[source.start..n], ops[n]);
  }

  lemma AttemptsDisciplined(ops: seq<Op>)
    requires ByAttempts(ops) && NewIds(ops)
    ensures Disciplined(ops)
  {
    forall n | 0 <= n < |ops| ensures Withholding(ops[..n], ops[n]) && NewId(ops[..n], ops[n]) {
      if ops[n].Release? {
        var source :| IssuedBy(ops, n, source);
        IssuedWithholds(ops, n, source);
      }
    }
  }

  /** As the program uses it, the elision cannot be told from always sending. */
  lemma AttemptsElide(ops: seq<Op>, extra: nat -> Answer)
    requires ByAttempts(ops) && NewIds(ops)
    ensures RunCached(ops).records == RunPlain(ops, extra)
  {
    AttemptsDisciplined(ops);
    ElisionIsInvisible(ops, extra);
  }

  // --- the cache itself ---

  class SlurmControl {
    var lastUpdate: map<int, Record>
    var slurm: map<int, Record>

    constructor ()
      ensures View() == State(map[], map[])
    {
      lastUpdate, slurm := map[], map[];
    }

    ghost function View(): State
      reads this
    {
      State(slurm, lastUpdate)
    }

    method Send(id: int, desc: Record, answer: Answer) returns (ok: bool)
      modifies `slurm
      ensures slurm == Apply(old(slurm), id, desc, answer) && (ok <==> answer.Acknowledged?)
      ensures answer.Refused? || id !in old(slurm) ==> slurm == old(slurm)
      ensures !answer.Refused? && id in old(slurm) ==> slurm == old(slurm)[id := old(slurm)[id] + desc]
    {
      if id in slurm && !answer.Refused? {
        slurm := slurm[id := slurm[id] + desc];
      }
      ok := answer.Acknowledged?;
    }

    /** UpdateJob, for the job ID in the Pod's label and the description built for its component. */
    method UpdateJob(jobLabel: Option<int>, built: Result<Record, string>, answer: Answer)
      returns (r: Result<int, string>)
      modifies this
      ensures jobLabel.None? || jobLabel.value <= 0 || built.Err? ==> r.Err? && View() == old(View())
      ensures jobLabel.Some? && jobLabel.value > 0 && built.Ok? ==>
                var op := Update(jobLabel.value, built.value, answer);
                View() == Cached(old(View()), op) && (r.Ok? <==> Elided(old(View()), op) || answer.Acknowledged?)
                && (r.Ok? ==> r.value == jobLabel.value)
      ensures jobLabel.Some? && jobLabel.value > 0 && built.Ok? && jobLabel.value in old(lastUpdate) &&
              old(lastUpdate)[jobLabel.value] == built.value ==>
                r == Ok(jobLabel.value) && slurm == old(slurm) && lastUpdate == old(lastUpdate)
      ensures jobLabel.Some? && jobLabel.value > 0 && built.Ok? && answer.Acknowledged? ==>
                r == Ok(jobLabel.value) && lastUpdate == old(lastUpdate)[jobLabel.value := built.value]
      ensures r.Err? && jobLabel.Some? && jobLabel.value > 0 && built.Ok? ==> jobLabel.value !in lastUpdate
      ensures answer.Refused? ==> slurm == old(slurm)
    {
      if jobLabel.None? {
        return Err("unable to parse job ID label");
      }
      if jobLabel.value <= 0 {
        return Err("invalid job ID");
      }
      if built.Err? {
        return Err(built.error);
      }
      var id, desc := jobLabel.value, built.value;
      if id in lastUpdate && lastUpdate[id] == desc {
        return Ok(id);
      }
      var ok := Send(id, desc, answer);
      if !ok {
        lastUpdate := lastUpdate - {id};
        return Err("could not update external job");
      }
      lastUpdate := lastUpdate[id := desc];
      return Ok(id);
    }

    method ReleaseJob(op: Op) returns (ok: bool)
      requires op.Release?
      modifies this
      ensures View() == Cached(old(View()), op)
      ensures ok <==> op.freed.Acknowledged? && (op.priority.Some? ==> op.raised.Acknowledged?)
      ensures lastUpdate == old(lastUpdate)
      ensures ok && op.id in old(slurm) ==>
                slurm == old(slurm)[op.id := old(slurm)[op.id][Priority :=
                                      if op.priority.Some? then op.priority.value else op.unheld]]
      ensures op.freed.Refused? || op.id !in old(slurm) ==> slurm == old(slurm)
      ensures op.freed.LostReply? && op.id in old(slurm) ==>
                slurm == old(slurm)[op.id := old(slurm)[op.id][Priority := op.unheld]]
    {
      ok := Send(op.id, map[Priority := op.unheld], op.freed);
      if ok && op.priority.Some? {
        ok := Send(op.id, map[Priority := op.priority.value], op.raised);
      }
      ghost var last := if op.priority.Some? then op.priority.value else op.unheld;
      if ok && op.id in old(slurm) {
        assert slurm[op.id] == old(slurm)[op.id][Priority := last];
        assert slurm.Keys == old(slurm).Keys;
      }
      assert op.id in old(slurm) ==>
               old(slurm)[op.id] + map[Priority := op.unheld] == old(slurm)[op.id][Priority := op.unheld];
    }

    /** GetJob forgets the description of a job that is not pending, for whatever reason. A Pod without the label has no
        job. */
    method GetJob(jobLabel: Option<int>, read: Reading) returns (r: Result<SlurmJob.ExternalJob, string>)
      modifies `lastUpdate
      ensures jobLabel.None? ==> r == Ok(NO_JOB) && View() == old(View())
      ensures jobLabel.Some? ==> r == Fetched(jobLabel.value, read)
      ensures jobLabel.Some? ==>
                View() == if IsPending(r) then old(View()) else Cached(old(View()), Forget(jobLabel.value))
      ensures jobLabel.Some? && r.Ok? && r.value.pending ==> lastUpdate == old(lastUpdate)
      ensures jobLabel.Some? && (r.Err? || !r.value.pending) ==> lastUpdate == old(lastUpdate) - {jobLabel.value}
    {
      if jobLabel.None? {
        return Ok(NO_JOB);
      }
      match read {
        case Gone => r := Ok(NO_JOB);
        case Failed => r := Err("could not get job for pod");
        case Found(raw) =>
          if raw.jobId != jobLabel.value {
            r := Err("Slurm returned another job");
          } else if !ActiveJob(raw) {
            r := Ok(NO_JOB);
          } else {
            r := SlurmJob.FromJobInfo(raw);
          }
      }
      if !IsPending(r) {
        lastUpdate := lastUpdate - {jobLabel.value};
      }
    }

    /** DeleteJob forgets only the ID it deletes: the leader of a heterogeneous allocation. A failed deletion counts as
        done if the Pod's job turns out to be gone. */
    method DeleteJob(jobLabel: int, hetLabel: int, components: set<int>, answer: Answer, read: Reading)
      returns (ok: bool)
      modifies this
      ensures ok <==> jobLabel == 0 || answer.Acknowledged? || Confirmed(Fetched(jobLabel, read))
      ensures jobLabel == 0 ==> View() == old(View())
      ensures var leader := if hetLabel != 0 then hetLabel else jobLabel;
              var after := Cached(old(View()), if answer.Refused? then Forget(leader) else Delete(leader, components));
              jobLabel != 0 ==>
                View() == if answer.Acknowledged? || IsPending(Fetched(jobLabel, read)) then after
                          else Cached(after, Forget(jobLabel))
      ensures jobLabel != 0 ==> (if hetLabel != 0 then hetLabel else jobLabel) !in lastUpdate
      ensures slurm == if jobLabel == 0 || answer.Refused? then old(slurm)
                       else old(slurm) - components - {if hetLabel != 0 then hetLabel else jobLabel}
      ensures ok && jobLabel != 0 && !answer.Acknowledged? ==>
                || read.Gone?
                || (&& read.Found? && read.raw.jobId == jobLabel
                    && (SlurmJob.CANCELLED in read.raw.states || SlurmJob.COMPLETED in read.raw.states))
    {
      if jobLabel == 0 {
        return true;
      }
      var id := if hetLabel != 0 then hetLabel else jobLabel;
      lastUpdate := lastUpdate - {id};
      if !answer.Refused? {
        slurm := slurm - components - {id};
      }
      if answer.Acknowledged? {
        return true;
      }
      var job := GetJob(Some(jobLabel), read);
      return Confirmed(job);
    }
  }

  // --- reading a job ---

  datatype Reading = Gone | Failed | Found(raw: SlurmJob.RawJob)

  const NO_JOB := SlurmJob.ExternalJob(0, 0, 0, false, false, false)

  predicate ActiveJob(raw: SlurmJob.RawJob) {
    SlurmJob.CANCELLED !in raw.states && SlurmJob.COMPLETED !in raw.states
  }

  predicate IsPending(r: Result<SlurmJob.ExternalJob, string>) {
    r.Ok? && r.value.pending
  }

  predicate Confirmed(r: Result<SlurmJob.ExternalJob, string>) {
    r.Ok? && r.value.jobId == 0
  }

  /** The active job with the label's ID, no job if there is none, and an error for another job or a malformed one. */
  function Fetched(id: int, read: Reading): (r: Result<SlurmJob.ExternalJob, string>)
    ensures r.Ok? && r.value != NO_JOB ==>
              read.Found? && r.value.jobId == id && ActiveJob(read.raw) && SlurmJob.FromJobInfo(read.raw) == r
    ensures IsPending(r) ==> read.Found? && read.raw.jobId == id && SlurmJob.PENDING in read.raw.states
    ensures Confirmed(r) <==>
              || read.Gone?
              || (&& read.Found? && read.raw.jobId == id
                  && (SlurmJob.CANCELLED in read.raw.states || SlurmJob.COMPLETED in read.raw.states))
    ensures read.Failed? || (read.Found? && read.raw.jobId != id) ==> r.Err?
    ensures && read.Found? && read.raw.jobId == id
            && SlurmJob.CANCELLED !in read.raw.states && SlurmJob.COMPLETED !in read.raw.states ==>
              r == SlurmJob.FromJobInfo(read.raw)
  {
    match read
    case Gone => Ok(NO_JOB)
    case Failed => Err("could not get job for pod")
    case Found(raw) =>
      if raw.jobId != id then Err("Slurm returned another job")
      else if !ActiveJob(raw) then Ok(NO_JOB)
      else SlurmJob.FromJobInfo(raw)
  }
}
