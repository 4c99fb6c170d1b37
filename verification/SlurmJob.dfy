/** Slurm job records (internal/utils/slurmjob/job.go). */
module SlurmJob {
  import opened Ordering

  datatype JobState =
    | PENDING | RUNNING | SUSPENDED | COMPLETING
    | COMPLETED | CANCELLED | FAILED | TIMEOUT | NODE_FAIL | PREEMPTED | BOOT_FAIL | DEADLINE | OUT_OF_MEMORY

  /** A REST number that may be absent, unset, or set without a value. */
  datatype NoVal = NoVal(isSet: bool, number: Option<int>)

  datatype Group = Group(composite: bool, name: string)

  /** A recorded Pod identity; legacy records have no UID. `ref` is namespace/name. */
  datatype PodRecord = PodRecord(ref: string, uid: string)

  /** The ownership recorded in the admin comment. */
  datatype Ownership = Ownership(pods: seq<PodRecord>, podGroup: Option<Group>, composite: Option<Group>)

  datatype RawJob = RawJob(
    jobId: int, het: Option<NoVal>, offset: Option<NoVal>, states: set<JobState>, priority: Option<NoVal>,
    comment: Option<Ownership>)

  datatype ExternalJob = ExternalJob(jobId: int, hetJobId: int, hetJobOffset: int, pending: bool, held: bool,
                                     finished: bool)
  {
    function AllocationID(): int {
      if hetJobId > 0 then hetJobId else jobId
    }
  }

  predicate Terminal(s: JobState) {
    || s.COMPLETED? || s.CANCELLED? || s.FAILED? || s.TIMEOUT? || s.NODE_FAIL? || s.PREEMPTED? || s.BOOT_FAIL?
    || s.DEADLINE? || s.OUT_OF_MEMORY?
  }

  predicate FinishedStates(states: set<JobState>) {
    && PENDING !in states && RUNNING !in states && SUSPENDED !in states
    && exists s :: s in states && Terminal(s)
  }

  /** A REST number that carries a value. */
  ghost predicate Carries(n: Option<NoVal>, value: int) {
    n.Some? && n.value.isSet && n.value.number == Some(value)
  }

  ghost predicate Names(raw: RawJob, het: int, offset: int) {
    Carries(raw.het, het) && Carries(raw.offset, offset)
  }

  /** FromJobInfo with validateExternalJobID: an accepted record has a positive job and allocation ID,
      and only the leader of a heterogeneous job sits at offset zero. */
  function FromJobInfo(raw: RawJob): (r: Result<ExternalJob, string>)
    ensures r.Ok? ==>
              && (r.value.pending <==> PENDING in raw.states)
              && (r.value.held <==> PENDING in raw.states && Carries(raw.priority, 0))
              && (PENDING in raw.states || RUNNING in raw.states || SUSPENDED in raw.states ==> !r.value.finished)
              && (r.value.finished ==> exists s :: s in raw.states && s !in {PENDING, RUNNING, SUSPENDED, COMPLETING})
    ensures r.Ok? && !r.value.finished ==>
              || PENDING in raw.states || RUNNING in raw.states || SUSPENDED in raw.states
              || forall s :: s in raw.states ==> s == COMPLETING
    ensures r.Ok? ==>
              && r.value.jobId == raw.jobId > 0 && r.value.AllocationID() > 0
              && r.value.hetJobId >= 0 && r.value.hetJobOffset >= 0
              && (r.value.hetJobId == 0 ==> r.value.hetJobOffset == 0)
              && (r.value.hetJobId != 0 && r.value.hetJobOffset == 0 ==> r.value.jobId == r.value.hetJobId)
              && !(r.value.pending && r.value.finished) && (r.value.held ==> r.value.pending)
  {
    var pending := PENDING in raw.states;
    var held := pending && raw.priority.Some? && raw.priority.value.isSet && raw.priority.value.number == Some(0);
    var job := ExternalJob(raw.jobId, 0, 0, pending, held, FinishedStates(raw.states));
    if raw.jobId <= 0 then Err("invalid or unset job ID")
    else if raw.het.None? || !raw.het.value.isSet then Ok(job)
    else if raw.het.value.number.None? then Err("het job ID is set but its value is missing")
    else if raw.offset.None? || !raw.offset.value.isSet || raw.offset.value.number.None?
    then Err("het job offset is missing")
    else
      var het, offset := raw.het.value.number.value, raw.offset.value.number.value;
      if het == 0 then
        if offset != 0 then Err("homogeneous job has non-zero offset") else Ok(job)
      else if het < 0 then Err("het job ID must be positive")
      else if offset < 0 then Err("het job offset is negative")
      else if het != raw.jobId && offset == 0 then Err("non-leader component has offset zero")
      else Ok(job.(hetJobId := het, hetJobOffset := offset))
  }

  /** A record without a heterogeneous identity is homogeneous; one with it is accepted exactly when its numbers
      carry values that fit together, and decodes to them. */
  lemma DecodesIdentity(raw: RawJob)
    requires raw.jobId > 0
    ensures raw.het.None? || !raw.het.value.isSet ==>
              FromJobInfo(raw).Ok? && FromJobInfo(raw).value.hetJobId == 0 == FromJobInfo(raw).value.hetJobOffset
    ensures raw.het.Some? && raw.het.value.isSet && FromJobInfo(raw).Ok? ==>
              Names(raw, FromJobInfo(raw).value.hetJobId, FromJobInfo(raw).value.hetJobOffset)
    ensures forall het, offset :: Names(raw, het, offset) ==>
              (FromJobInfo(raw).Ok? <==>
                 && het >= 0 && offset >= 0 && (het == 0 ==> offset == 0)
                 && (het > 0 && offset == 0 ==> het == raw.jobId))
  {
  }

  /** RegisteredJobFromInfo also needs readable ownership. */
  datatype RegisteredJob = RegisteredJob(job: ExternalJob, info: Ownership)

  function RegisteredJobFromInfo(raw: RawJob): Result<RegisteredJob, string> {
    match FromJobInfo(raw)
    case Err(e) => Err(e)
    case Ok(job) => if raw.comment.None? then Err("unreadable ownership") else Ok(RegisteredJob(job, raw.comment.value))
  }
}
