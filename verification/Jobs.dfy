/** The life of a job across threads, the worker container, the disk and API restarts.  Every
    step below is one effect of the API process, of a worker, or of the outside world; runs
    interleave them freely. */
module Jobs {
  import opened Common

  type JobId = nat

  datatype Outcome = Completed | Failed | Timeout

  datatype Status = Queued | Running | Done(outcome: Outcome)

  /** What the worker writes at the end: its own status, and the evidence. */
  datatype Observations = Observations(status: Outcome, evidence: nat)

  /** How `run_worker` ended. */
  datatype Meta = Meta(error: bool, timedOut: bool)

  datatype Report = Report(status: Outcome, observations: Option<Observations>, network: nat)

  /** A file that is not there, that was opened but not completely written, or that is complete. */
  datatype FileState<T> = Absent | Torn | Whole(content: T)

  /** The `output` directory of a job. */
  datatype Folder = Folder(tmp: FileState<Observations>, observations: FileState<Observations>,
                           report: FileState<Report>)

  /** An entry of `_jobs`. */
  datatype Entry = Entry(status: Status, report: Option<Report>)

  /** Where the request handler and then the executor thread of a job are. */
  datatype Pc =
    | Preparing
    | Waiting
    | Started
    | Working
    | Exited(meta: Meta)
    | Observed(meta: Meta, observations: Option<Observations>)
    | Built(result: Report)
    | Persisting(result: Report)
    | Persisted(result: Report, ok: bool)
    | Returned(result: Report)

  datatype WorkerPc = Analyzing | Writing(report: Observations) | Written(report: Observations) | Renamed

  /** `issued` and `produced` are history: the ids ever handed out, and what workers wrote. */
  datatype State = State(
    mem: map<JobId, Entry>, threads: map<JobId, Pc>, workers: map<JobId, WorkerPc>, disk: map<JobId, Folder>,
    issued: set<JobId>, produced: set<(JobId, Observations)>)

  datatype Step =
    | Prepare(job: JobId)
    | Accept(job: JobId)
    | Start(job: JobId)
    | Spawn(job: JobId)
    | WorkerOpen(job: JobId, report: Observations)
    | WorkerWrite(job: JobId)
    | WorkerRename(job: JobId)
    | WorkerDies(job: JobId)
    | Exit(job: JobId, meta: Meta, removed: bool)
    | Observe(job: JobId)
    | Build(job: JobId, network: nat)
    | PersistOpen(job: JobId)
    | PersistDone(job: JobId)
    | PersistFail(job: JobId)
    | Publish(job: JobId)
    | ThreadDies(job: JobId)
    | Delete(job: JobId, rmtreeWorks: bool)
    | Restart(expired: set<JobId>, survivors: set<JobId>)

  ghost predicate Init(s: State) {
    s == State(map[], map[], map[], map[], {}, {})
  }

  /** The status chosen by `_run_job`. */
  function StatusOf(meta: Meta, observations: Option<Observations>): Outcome {
    if meta.error then Failed
    else if meta.timedOut then Timeout
    else if observations.None? then Failed
    else observations.value.status
  }

  /** `read_observations`: a missing or unparsable file is no observations. */
  function ReadObservations(s: State, j: JobId): Option<Observations> {
    if j in s.disk && s.disk[j].observations.Whole? then Some(s.disk[j].observations.content) else None
  }

  ghost predicate Enabled(s: State, step: Step) {
    match step
    case Prepare(j) => j !in s.issued
    case Accept(j) => j in s.threads && s.threads[j].Preparing?
    case Start(j) => j in s.threads && s.threads[j].Waiting? && j in s.mem
    case Spawn(j) => j in s.threads && s.threads[j].Started?
    case WorkerOpen(j, o) => j in s.workers && s.workers[j].Analyzing? && j in s.disk
    case WorkerWrite(j) => j in s.workers && s.workers[j].Writing? && j in s.disk
    case WorkerRename(j) => j in s.workers && s.workers[j].Written? && j in s.disk
    case WorkerDies(j) => j in s.workers
    case Exit(j, meta, _) =>
      j in s.threads && (s.threads[j].Working? || (s.threads[j].Started? && meta.error))
    case Observe(j) => j in s.threads && s.threads[j].Exited?
    case Build(j, _) => j in s.threads && s.threads[j].Observed?
    case PersistOpen(j) => j in s.threads && s.threads[j].Built? && j in s.disk
    case PersistDone(j) => j in s.threads && s.threads[j].Persisting?
    case PersistFail(j) => j in s.threads && (s.threads[j].Built? || s.threads[j].Persisting?)
    case Publish(j) => j in s.threads && s.threads[j].Persisted? && j in s.mem
    case ThreadDies(j) => j in s.threads
    case Delete(_, _) => true
    case Restart(_, _) => true
  }

  ghost function Apply(s: State, step: Step): State
    requires Enabled(s, step)
  {
    match step
    case Prepare(j) =>
      s.(issued := s.issued + {j}, disk := s.disk[j := Folder(Absent, Absent, Absent)],
         threads := s.threads[j := Preparing])
    case Accept(j) => s.(mem := s.mem[j := Entry(Queued, None)], threads := s.threads[j := Waiting])
    case Start(j) => s.(mem := s.mem[j := s.mem[j].(status := Running)], threads := s.threads[j := Started])
    case Spawn(j) => s.(workers := s.workers[j := Analyzing], threads := s.threads[j := Working])
    case WorkerOpen(j, o) =>
      s.(workers := s.workers[j := Writing(o)], disk := s.disk[j := s.disk[j].(tmp := Torn)],
         produced := s.produced + {(j, o)})
    case WorkerWrite(j) =>
      var o := s.workers[j].report;
      s.(workers := s.workers[j := Written(o)], disk := s.disk[j := s.disk[j].(tmp := Whole(o))])
    case WorkerRename(j) =>
      // os.replace moves whatever the temporary file is by now
      s.(workers := s.workers[j := Renamed],
         disk := s.disk[j := s.disk[j].(observations := s.disk[j].tmp, tmp := Absent)])
    case WorkerDies(j) => s.(workers := s.workers - {j})
    case Exit(j, meta, removed) =>
      s.(threads := s.threads[j := Exited(meta)], workers := if removed then s.workers - {j} else s.workers)
    case Observe(j) =>
      s.(threads := s.threads[j := Observed(s.threads[j].meta, ReadObservations(s, j))])
    case Build(j, network) =>
      var pc := s.threads[j];
      s.(threads := s.threads[j := Built(Report(StatusOf(pc.meta, pc.observations), pc.observations, network))])
    case PersistOpen(j) =>
      s.(threads := s.threads[j := Persisting(s.threads[j].result)], disk := s.disk[j := s.disk[j].(report := Torn)])
    case PersistDone(j) =>
      // if the directory was deleted meanwhile, the write goes to a file without a name
      s.(threads := s.threads[j := Persisted(s.threads[j].result, true)],
         disk := if j in s.disk then s.disk[j := s.disk[j].(report := Whole(s.threads[j].result))] else s.disk)
    case PersistFail(j) => s.(threads := s.threads[j := Persisted(s.threads[j].result, false)])
    case Publish(j) =>
      var result := s.threads[j].result;
      s.(threads := s.threads[j := Returned(result)], mem := s.mem[j := Entry(Done(result.status), Some(result))])
    case ThreadDies(j) => s.(threads := s.threads - {j})
    case Delete(j, rmtreeWorks) =>
      s.(mem := s.mem - {j}, disk := if rmtreeWorks then s.disk - {j} else s.disk)
    case Restart(expired, survivors) =>
      s.(mem := map[], threads := map[], workers := map j | j in s.workers && j in survivors :: s.workers[j],
         disk := s.disk - expired)
  }

  ghost predicate Run(states: seq<State>, steps: seq<Step>) {
    && |states| == |steps| + 1 && Init(states[0])
    && forall i :: 0 <= i < |steps| ==> StepAt(states, steps, i)
  }

  ghost predicate StepAt(states: seq<State>, steps: seq<Step>, i: nat)
    requires i < |steps| && |states| == |steps| + 1
  {
    Enabled(states[i], steps[i]) && states[i + 1] == Apply(states[i], steps[i])
  }

  // ---- polling

  datatype Answer = Ok(report: Report) | Pending(status: Status) | NotFound | ServerError

  /** `get_report`: memory first, then the disk. */
  function Poll(s: State, j: JobId): Answer {
    if j in s.mem then
      match s.mem[j].report
      case Some(r) => Ok(r)
      case None => Pending(s.mem[j].status)
    else if j in s.disk then
      match s.disk[j].report
      case Whole(r) => Ok(r)
      case Torn => ServerError
      case Absent => NotFound
    else NotFound
  }

  // ---- the invariant

  predicate HasResult(pc: Pc) {
    pc.Built? || pc.Persisting? || pc.Persisted? || pc.Returned?
  }

  /** The thread and its entry in memory agree. */
  ghost predicate EntryMatches(pc: Pc, e: Entry) {
    match pc
    case Preparing => false
    case Waiting => e == Entry(Queued, None)
    case Returned(r) => e == Entry(Done(r.status), Some(r))
    case _ => e == Entry(Running, None)
  }

  /** The thread and the report file agree. */
  ghost predicate FileMatches(pc: Pc, file: FileState<Report>) {
    match pc
    case Persisting(_) => file == Torn
    case Persisted(r, ok) => if ok then file == Whole(r) else !file.Whole?
    case Returned(r) => file.Whole? ==> file.content == r
    case _ => file == Absent
  }

  /** A worker that has finished writing really has a complete temporary file. */
  ghost predicate TmpMatches(w: WorkerPc, file: FileState<Observations>) {
    w.Written? ==> file == Whole(w.report)
  }

  ghost predicate ReportSound(j: JobId, r: Report, s: State) {
    && (r.observations.Some? ==> (j, r.observations.value) in s.produced)
    && (r.status == Completed ==> r.observations.Some? && r.observations.value.status == Completed)
  }

  ghost predicate JobInv(s: State, j: JobId) {
    && (j in s.mem || j in s.threads || j in s.disk || j in s.workers ==> j in s.issued)
    && (j in s.mem && j in s.threads ==> EntryMatches(s.threads[j], s.mem[j]))
    && (j in s.disk && j in s.threads ==> FileMatches(s.threads[j], s.disk[j].report))
    && (j in s.disk && j in s.workers ==> TmpMatches(s.workers[j], s.disk[j].tmp))
    && (j in s.workers && (s.workers[j].Writing? || s.workers[j].Written?) ==> (j, s.workers[j].report) in s.produced)
    && (j in s.mem ==> (s.mem[j].status.Done? <==> s.mem[j].report.Some?))
    && (j in s.mem && s.mem[j].report.Some? ==>
          s.mem[j].status == Done(s.mem[j].report.value.status) && ReportSound(j, s.mem[j].report.value, s))
    && (j in s.mem && s.mem[j].report.Some? && j in s.disk && s.disk[j].report.Whole? ==>
          s.disk[j].report.content == s.mem[j].report.value)
    && (j in s.threads && HasResult(s.threads[j]) ==> ReportSound(j, s.threads[j].result, s))
    && (j in s.threads && s.threads[j].Observed? && s.threads[j].observations.Some? ==>
          (j, s.threads[j].observations.value) in s.produced)
    && (j in s.disk ==> !s.disk[j].observations.Torn?)
    && (j in s.disk && s.disk[j].observations.Whole? ==> (j, s.disk[j].observations.content) in s.produced)
    && (j in s.disk && s.disk[j].report.Whole? ==> ReportSound(j, s.disk[j].report.content, s))
    && (j in s.threads && s.threads[j].Preparing? ==> j !in s.mem)
  }

  predicate Concerns(step: Step, j: JobId) {
    step.Restart? || step.job == j
  }

  function Lookup<T>(m: map<JobId, T>, j: JobId): Option<T> {
    if j in m then Some(m[j]) else None
  }

  ghost predicate SameFor(s: State, s': State, j: JobId) {
    && Lookup(s'.mem, j) == Lookup(s.mem, j) && Lookup(s'.threads, j) == Lookup(s.threads, j)
    && Lookup(s'.workers, j) == Lookup(s.workers, j) && Lookup(s'.disk, j) == Lookup(s.disk, j)
    && (j in s.issued ==> j in s'.issued)
    && forall o :: (j, o) in s.produced ==> (j, o) in s'.produced
  }

  /** Jobs do not touch each other's entries, threads, containers or directories. */
  lemma OtherJobUntouched(s: State, step: Step, j: JobId)
    requires Enabled(s, step) && !Concerns(step, j)
    ensures SameFor(s, Apply(s, step), j)
  {}

  lemma SameKeepsInv(s: State, s': State, j: JobId)
    requires JobInv(s, j) && SameFor(s, s', j)
    ensures JobInv(s', j)
  {
    assert j in s'.mem <==> Lookup(s.mem, j).Some?;
    assert j in s'.threads <==> Lookup(s.threads, j).Some?;
    assert j in s'.workers <==> Lookup(s.workers, j).Some?;
    assert j in s'.disk <==> Lookup(s.disk, j).Some?;
  }

  lemma RequestKeepsInv(s: State, step: Step, j: JobId)
    requires JobInv(s, j) && Enabled(s, step)
    requires step == Prepare(j) || step == Accept(j) || step == Start(j)
    ensures JobInv(Apply(s, step), j)
  {}

  lemma EndKeepsInv(s: State, step: Step, j: JobId)
    requires JobInv(s, j) && Enabled(s, step)
    requires step == ThreadDies(j) || (step.Delete? && step.job == j)
    ensures JobInv(Apply(s, step), j)
  {}

  lemma ContainerKeepsInv(s: State, step: Step, j: JobId)
    requires JobInv(s, j) && Enabled(s, step)
    requires step == Spawn(j) || step == WorkerDies(j) || (step.Exit? && step.job == j)
    ensures JobInv(Apply(s, step), j)
  {}

  lemma WorkerKeepsInv(s: State, step: Step, j: JobId)
    requires JobInv(s, j) && Enabled(s, step)
    requires (step.WorkerOpen? && step.job == j) || step == WorkerWrite(j) || step == WorkerRename(j)
    ensures JobInv(Apply(s, step), j)
  {}

  lemma ResultKeepsInv(s: State, step: Step, j: JobId)
    requires JobInv(s, j) && Enabled(s, step)
    requires step == Observe(j) || (step.Build? && step.job == j)
    ensures JobInv(Apply(s, step), j)
  {}

  lemma PersistKeepsInv(s: State, step: Step, j: JobId)
    requires JobInv(s, j) && Enabled(s, step)
    requires step == PersistOpen(j) || step == PersistDone(j) || step == PersistFail(j) || step == Publish(j)
    ensures JobInv(Apply(s, step), j)
  {}

  lemma RestartKeepsInv(s: State, step: Step, j: JobId)
    requires JobInv(s, j) && step.Restart?
    ensures JobInv(Apply(s, step), j)
  {}

  lemma StepKeepsJobInv(s: State, step: Step, j: JobId)
    requires JobInv(s, j) && Enabled(s, step)
    ensures JobInv(Apply(s, step), j)
  {
    if !Concerns(step, j) {
      OtherJobUntouched(s, step, j);
      SameKeepsInv(s, Apply(s, step), j);
    } else if step.Restart? {
      RestartKeepsInv(s, step, j);
    } else if step.Prepare? || step.Accept? || step.Start? {
      RequestKeepsInv(s, step, j);
    } else if step.ThreadDies? || step.Delete? {
      EndKeepsInv(s, step, j);
    } else if step.Observe? || step.Build? {
      ResultKeepsInv(s, step, j);
    } else if step.PersistOpen? || step.PersistDone? || step.PersistFail? || step.Publish? {
      PersistKeepsInv(s, step, j);
    } else if step.Spawn? || step.WorkerDies? || step.Exit? {
      ContainerKeepsInv(s, step, j);
    } else {
      WorkerKeepsInv(s, step, j);
    }
  }

  lemma {:induction false} RunKeepsInv(states: seq<State>, steps: seq<Step>, i: nat, j: JobId)
    requires Run(states, steps) && i < |states|
    ensures JobInv(states[i], j)
  {
    if i > 0 {
      RunKeepsInv(states, steps, i - 1, j);
      assert StepAt(states, steps, i - 1);
      StepKeepsJobInv(states[i - 1], steps[i - 1], j);
    }
  }

  // ---- the disk

  /** `step` is among the first `n` steps. */
  ghost predicate Happened(steps: seq<Step>, n: nat, step: Step)
    requires n <= |steps|
  {
    exists m :: 0 <= m < n && steps[m] == step
  }

  lemma HappenedNext(steps: seq<Step>, n: nat, step: Step)
    requires n < |steps|
    ensures Happened(steps, n + 1, step) <==> Happened(steps, n, step) || steps[n] == step
  {
    if Happened(steps, n, step) {
      var m :| 0 <= m < n && steps[m] == step;
      assert 0 <= m < n + 1;
    }
  }

  lemma ObservedStep(s: State, step: Step, j: JobId)
    requires JobInv(s, j) && Enabled(s, step) && j in Apply(s, step).disk
    ensures j in s.disk || step == Prepare(j)
    ensures ReadObservations(Apply(s, step), j).Some? <==> ReadObservations(s, j).Some? || step == WorkerRename(j)
  {
    if !Concerns(step, j) {
      OtherJobUntouched(s, step, j);
      var s' := Apply(s, step);
      assert j in s'.disk <==> Lookup(s.disk, j).Some?;
    }
  }

  /** As long as a job has not been handed out, none of its files is written. */
  lemma {:induction false} NothingBeforeIssue(states: seq<State>, steps: seq<Step>, n: nat, j: JobId)
    requires Run(states, steps) && n < |states| && j !in states[n].issued
    ensures !Happened(steps, n, WorkerRename(j)) && !OpenedNotDone(steps, n, j)
    ensures !Happened(steps, n, PersistDone(j))
  {
    if n > 0 {
      NotIssuedBefore(states, steps, n - 1, j);
      NothingBeforeIssue(states, steps, n - 1, j);
      HappenedNext(steps, n - 1, WorkerRename(j));
      HappenedNext(steps, n - 1, PersistDone(j));
      OpenedNext(steps, n - 1, j);
    }
  }

  lemma NotIssuedBefore(states: seq<State>, steps: seq<Step>, n: nat, j: JobId)
    requires Run(states, steps) && n < |steps| && j !in states[n + 1].issued
    ensures j !in states[n].issued
    ensures steps[n] != WorkerRename(j) && steps[n] != PersistOpen(j) && steps[n] != PersistDone(j)
  {
    assert StepAt(states, steps, n);
    RunKeepsInv(states, steps, n, j);
  }

  lemma {:induction false} ObservedExactly(states: seq<State>, steps: seq<Step>, n: nat, j: JobId)
    requires Run(states, steps) && n < |states| && j in states[n].disk
    ensures ReadObservations(states[n], j).Some? <==> Happened(steps, n, WorkerRename(j))
  {
    if n > 0 {
      if j in states[n - 1].disk {
        ObservedExactly(states, steps, n - 1, j);
      }
      ObservedNext(states, steps, n - 1, j);
    }
  }

  lemma ObservedNext(states: seq<State>, steps: seq<Step>, n: nat, j: JobId)
    requires Run(states, steps) && n < |steps| && j in states[n + 1].disk
    requires j in states[n].disk ==> (ReadObservations(states[n], j).Some? <==> Happened(steps, n, WorkerRename(j)))
    ensures ReadObservations(states[n + 1], j).Some? <==> Happened(steps, n + 1, WorkerRename(j))
  {
    assert StepAt(states, steps, n);
    RunKeepsInv(states, steps, n, j);
    ObservedStep(states[n], steps[n], j);
    HappenedNext(steps, n, WorkerRename(j));
    if j !in states[n].disk { NothingBeforeIssue(states, steps, n, j); }
  }

  /** `observations.json` is never seen half-written, in any run: as long as the job's directory is
      there, reading it gives something exactly if the job's worker has come to its rename, and
      that is what a worker of this job set out to write. */
  lemma ObservationsAreWhole(states: seq<State>, steps: seq<Step>, n: nat, j: JobId)
    requires Run(states, steps) && n < |states| && j in states[n].disk
    ensures !states[n].disk[j].observations.Torn?
    ensures ReadObservations(states[n], j).Some? <==> Happened(steps, n, WorkerRename(j))
    ensures ReadObservations(states[n], j).Some? ==> (j, ReadObservations(states[n], j).value) in states[n].produced
  {
    RunKeepsInv(states, steps, n, j);
    ObservedExactly(states, steps, n, j);
  }

  /** `report.json` of the job has been opened for writing in the first `n` steps, and was not
      completed after that. */
  ghost predicate OpenedNotDone(steps: seq<Step>, n: nat, j: JobId)
    requires n <= |steps|
  {
    exists m :: 0 <= m < n && steps[m] == PersistOpen(j) && NotDone(steps, m, n, j)
  }

  ghost predicate NotDone(steps: seq<Step>, from: nat, to: nat, j: JobId)
    requires from <= to <= |steps|
  {
    forall i :: from <= i < to ==> steps[i] != PersistDone(j)
  }

  lemma OpenedNext(steps: seq<Step>, n: nat, j: JobId)
    requires n < |steps|
    ensures OpenedNotDone(steps, n + 1, j)
       <==> steps[n] == PersistOpen(j) || (steps[n] != PersistDone(j) && OpenedNotDone(steps, n, j))
  {
    if steps[n] == PersistOpen(j) {
      assert NotDone(steps, n, n + 1, j);
    } else if steps[n] != PersistDone(j) && OpenedNotDone(steps, n, j) {
      var m :| 0 <= m < n && steps[m] == PersistOpen(j) && NotDone(steps, m, n, j);
      assert NotDone(steps, m, n + 1, j);
    }
    if OpenedNotDone(steps, n + 1, j) {
      var m :| 0 <= m < n + 1 && steps[m] == PersistOpen(j) && NotDone(steps, m, n + 1, j);
      assert steps[n] != PersistDone(j);
      if m < n { assert NotDone(steps, m, n, j); }
    }
  }

  predicate TornReport(s: State, j: JobId) {
    j in s.disk && s.disk[j].report.Torn?
  }

  lemma TornReportStep(s: State, step: Step, j: JobId)
    requires JobInv(s, j) && Enabled(s, step) && j in Apply(s, step).disk
    ensures j in s.disk || step == Prepare(j)
    ensures TornReport(Apply(s, step), j) <==> step == PersistOpen(j) || (step != PersistDone(j) && TornReport(s, j))
  {
    if !Concerns(step, j) {
      OtherJobUntouched(s, step, j);
      var s' := Apply(s, step);
      assert j in s'.disk <==> Lookup(s.disk, j).Some?;
    }
  }

  /** The report file is torn exactly between its opening and its completion, and for ever if that
      does not come. */
  lemma {:induction false} TornExactly(states: seq<State>, steps: seq<Step>, n: nat, j: JobId)
    requires Run(states, steps) && n < |states| && j in states[n].disk
    ensures TornReport(states[n], j) <==> OpenedNotDone(steps, n, j)
  {
    if n > 0 {
      if j in states[n - 1].disk {
        TornExactly(states, steps, n - 1, j);
      }
      TornNext(states, steps, n - 1, j);
    }
  }

  lemma TornNext(states: seq<State>, steps: seq<Step>, n: nat, j: JobId)
    requires Run(states, steps) && n < |steps| && j in states[n + 1].disk
    requires j in states[n].disk ==> (TornReport(states[n], j) <==> OpenedNotDone(steps, n, j))
    ensures TornReport(states[n + 1], j) <==> OpenedNotDone(steps, n + 1, j)
  {
    assert StepAt(states, steps, n);
    RunKeepsInv(states, steps, n, j);
    TornReportStep(states[n], steps[n], j);
    OpenedNext(steps, n, j);
    if j !in states[n].disk { NothingBeforeIssue(states, steps, n, j); }
  }

  /** When a poll is a server error, in any run: exactly if the API does not remember the job, its
      directory is there, and writing its report was begun but not completed. */
  lemma ServerErrorExactly(states: seq<State>, steps: seq<Step>, n: nat, j: JobId)
    requires Run(states, steps) && n < |states|
    ensures Poll(states[n], j) == ServerError
       <==> j !in states[n].mem && j in states[n].disk && OpenedNotDone(steps, n, j)
  {
    if j in states[n].disk {
      TornExactly(states, steps, n, j);
    }
  }

  predicate WholeReport(s: State, j: JobId) {
    j in s.disk && s.disk[j].report.Whole?
  }

  lemma WholeReportStep(s: State, step: Step, j: JobId)
    requires JobInv(s, j) && Enabled(s, step) && j in Apply(s, step).disk
    ensures j in s.disk || step == Prepare(j)
    ensures WholeReport(Apply(s, step), j) <==> step == PersistDone(j) || WholeReport(s, j)
  {
    if !Concerns(step, j) {
      OtherJobUntouched(s, step, j);
      var s' := Apply(s, step);
      assert j in s'.disk <==> Lookup(s.disk, j).Some?;
    }
  }

  /** The report file is complete exactly if its writing has been completed. */
  lemma {:induction false} WholeExactly(states: seq<State>, steps: seq<Step>, n: nat, j: JobId)
    requires Run(states, steps) && n < |states| && j in states[n].disk
    ensures WholeReport(states[n], j) <==> Happened(steps, n, PersistDone(j))
  {
    if n > 0 {
      if j in states[n - 1].disk {
        WholeExactly(states, steps, n - 1, j);
      }
      WholeNext(states, steps, n - 1, j);
    }
  }

  lemma WholeNext(states: seq<State>, steps: seq<Step>, n: nat, j: JobId)
    requires Run(states, steps) && n < |steps| && j in states[n + 1].disk
    requires j in states[n].disk ==> (WholeReport(states[n], j) <==> Happened(steps, n, PersistDone(j)))
    ensures WholeReport(states[n + 1], j) <==> Happened(steps, n + 1, PersistDone(j))
  {
    assert StepAt(states, steps, n);
    RunKeepsInv(states, steps, n, j);
    WholeReportStep(states[n], steps[n], j);
    HappenedNext(steps, n, PersistDone(j));
    if j !in states[n].disk { NothingBeforeIssue(states, steps, n, j); }
  }

  // ---- what memory says

  /** The handler has not come to `Accept` yet. */
  ghost predicate NotYetAccepted(s: State, j: JobId) {
    j !in s.issued || (j in s.threads && s.threads[j].Preparing?)
  }

  lemma NotYetAcceptedStep(s: State, step: Step, j: JobId)
    requires JobInv(s, j) && Enabled(s, step) && NotYetAccepted(Apply(s, step), j)
    ensures NotYetAccepted(s, j) && step != Start(j) && step != Publish(j)
  {
    if !Concerns(step, j) {
      OtherJobUntouched(s, step, j);
      var s' := Apply(s, step);
      assert j in s'.threads <==> Lookup(s.threads, j).Some?;
    }
  }

  lemma {:induction false} NothingBeforeAccept(states: seq<State>, steps: seq<Step>, n: nat, j: JobId)
    requires Run(states, steps) && n < |states| && NotYetAccepted(states[n], j)
    ensures !Happened(steps, n, Start(j)) && !Happened(steps, n, Publish(j))
  {
    if n > 0 {
      NotAcceptedBefore(states, steps, n - 1, j);
      NothingBeforeAccept(states, steps, n - 1, j);
      HappenedNext(steps, n - 1, Start(j));
      HappenedNext(steps, n - 1, Publish(j));
    }
  }

  lemma NotAcceptedBefore(states: seq<State>, steps: seq<Step>, n: nat, j: JobId)
    requires Run(states, steps) && n < |steps| && NotYetAccepted(states[n + 1], j)
    ensures NotYetAccepted(states[n], j) && steps[n] != Start(j) && steps[n] != Publish(j)
  {
    assert StepAt(states, steps, n);
    RunKeepsInv(states, steps, n, j);
    NotYetAcceptedStep(states[n], steps[n], j);
  }

  lemma RememberedStep(s: State, step: Step, j: JobId)
    requires JobInv(s, j) && Enabled(s, step) && j in Apply(s, step).mem
    ensures j in s.mem || (step == Accept(j) && NotYetAccepted(s, j))
    ensures var now := Apply(s, step).mem[j].status;
            && (now.Done? <==> step == Publish(j) || (j in s.mem && s.mem[j].status.Done?))
            && (now.Queued? <==> step != Start(j) && step != Publish(j) && (j in s.mem ==> s.mem[j].status.Queued?))
  {
    if !Concerns(step, j) {
      OtherJobUntouched(s, step, j);
      var s' := Apply(s, step);
      assert j in s'.mem <==> Lookup(s.mem, j).Some?;
    }
  }

  /** What the API remembers of a job tells exactly how far its thread has come. */
  lemma {:induction false} RememberedExactly(states: seq<State>, steps: seq<Step>, n: nat, j: JobId)
    requires Run(states, steps) && n < |states| && j in states[n].mem
    ensures states[n].mem[j].status.Done? <==> Happened(steps, n, Publish(j))
    ensures states[n].mem[j].status.Queued? <==> !Happened(steps, n, Start(j)) && !Happened(steps, n, Publish(j))
  {
    if n > 0 {
      if j in states[n - 1].mem {
        RememberedExactly(states, steps, n - 1, j);
      }
      RememberedNext(states, steps, n - 1, j);
    }
  }

  lemma RememberedNext(states: seq<State>, steps: seq<Step>, n: nat, j: JobId)
    requires Run(states, steps) && n < |steps| && j in states[n + 1].mem
    requires j in states[n].mem ==>
               && (states[n].mem[j].status.Done? <==> Happened(steps, n, Publish(j)))
               && (states[n].mem[j].status.Queued? <==>
                     !Happened(steps, n, Start(j)) && !Happened(steps, n, Publish(j)))
    ensures states[n + 1].mem[j].status.Done? <==> Happened(steps, n + 1, Publish(j))
    ensures states[n + 1].mem[j].status.Queued? <==>
              !Happened(steps, n + 1, Start(j)) && !Happened(steps, n + 1, Publish(j))
  {
    assert StepAt(states, steps, n);
    RunKeepsInv(states, steps, n, j);
    RememberedStep(states[n], steps[n], j);
    HappenedNext(steps, n, Start(j));
    HappenedNext(steps, n, Publish(j));
    if j !in states[n].mem { NothingBeforeAccept(states, steps, n, j); }
  }

  /** What a poll answers, in every state of every run, read off the steps: while the API remembers
      the job, how far its thread has come; later, how far the writing of its report came. */
  lemma PollExactly(states: seq<State>, steps: seq<Step>, n: nat, j: JobId)
    requires Run(states, steps) && n < |states|
    ensures j in states[n].mem ==>
              && (Poll(states[n], j).Ok? <==> Happened(steps, n, Publish(j)))
              && (Poll(states[n], j) == Pending(Running) <==>
                    Happened(steps, n, Start(j)) && !Happened(steps, n, Publish(j)))
              && (Poll(states[n], j) == Pending(Queued) <==>
                    !Happened(steps, n, Start(j)) && !Happened(steps, n, Publish(j)))
    ensures j !in states[n].mem ==>
              && (Poll(states[n], j).Ok? <==> j in states[n].disk && Happened(steps, n, PersistDone(j)))
              && (Poll(states[n], j) == ServerError <==> j in states[n].disk && OpenedNotDone(steps, n, j))
              && (Poll(states[n], j) == NotFound <==>
                    j !in states[n].disk || !(Happened(steps, n, PersistDone(j)) || OpenedNotDone(steps, n, j)))
  {
    RunKeepsInv(states, steps, n, j);
    if j in states[n].mem {
      RememberedExactly(states, steps, n, j);
    } else if j in states[n].disk {
      TornExactly(states, steps, n, j);
      WholeExactly(states, steps, n, j);
    }
  }

  /** No `PersistFail` for the job in the first `n` steps. */
  ghost predicate WritesSucceed(steps: seq<Step>, n: nat, j: JobId)
    requires n <= |steps|
  {
    forall i :: 0 <= i < n ==> steps[i] != PersistFail(j)
  }

  /** A thread past its write, and an entry with a report, have the report on disk. */
  ghost predicate OnDisk(s: State, j: JobId) {
    j in s.disk ==>
      && (j in s.threads && s.threads[j].Persisted? ==> s.threads[j].ok)
      && (j in s.mem && s.mem[j].report.Some? ==> s.disk[j].report == Whole(s.mem[j].report.value))
  }

  lemma StepKeepsOnDisk(s: State, step: Step, j: JobId)
    requires JobInv(s, j) && OnDisk(s, j) && Enabled(s, step) && step != PersistFail(j)
    ensures OnDisk(Apply(s, step), j)
  {
    if !Concerns(step, j) {
      OtherJobUntouched(s, step, j);
      var s' := Apply(s, step);
      assert j in s'.mem <==> Lookup(s.mem, j).Some?;
      assert j in s'.threads <==> Lookup(s.threads, j).Some?;
      assert j in s'.disk <==> Lookup(s.disk, j).Some?;
    }
  }

  lemma {:induction false} WrittenByThen(states: seq<State>, steps: seq<Step>, n: nat, j: JobId)
    requires Run(states, steps) && n < |states| && WritesSucceed(steps, n, j)
    ensures OnDisk(states[n], j)
  {
    if n > 0 {
      RunKeepsInv(states, steps, n - 1, j);
      WrittenByThen(states, steps, n - 1, j);
      assert StepAt(states, steps, n - 1);
      StepKeepsOnDisk(states[n - 1], steps[n - 1], j);
    }
  }

  /** Persist before publish: whenever memory holds a report, its status is terminal and, the
      directory still being there and no write having failed, the disk holds the same report. */
  lemma PersistBeforePublish(states: seq<State>, steps: seq<Step>, n: nat, j: JobId)
    requires Run(states, steps) && n < |states| && j in states[n].mem
    ensures states[n].mem[j].report.Some? <==> states[n].mem[j].status.Done?
    ensures states[n].mem[j].report.Some? ==> states[n].mem[j].status == Done(states[n].mem[j].report.value.status)
    ensures states[n].mem[j].report.Some? && j in states[n].disk && WritesSucceed(steps, n, j) ==>
              states[n].disk[j].report == Whole(states[n].mem[j].report.value)
  {
    RunKeepsInv(states, steps, n, j);
    if j in states[n].disk && WritesSucceed(steps, n, j) {
      WrittenByThen(states, steps, n, j);
    }
  }

  // ---- stable answers

  /** Neither deleted nor expired between the two moments. */
  ghost predicate Kept(steps: seq<Step>, from: nat, to: nat, j: JobId)
    requires from <= to <= |steps|
  {
    forall i :: from <= i < to ==>
      match steps[i]
      case Delete(k, _) => k != j
      case Restart(expired, _) => j !in expired
      case _ => true
  }

  ghost predicate NoRestart(steps: seq<Step>, from: nat, to: nat)
    requires from <= to <= |steps|
  {
    forall i :: from <= i < to ==> !steps[i].Restart?
  }

  /** The report is complete on disk. */
  ghost predicate Saved(s: State, j: JobId, r: Report) {
    j in s.disk && s.disk[j].report == Whole(r)
  }

  lemma AnswerStep(s: State, step: Step, j: JobId, r: Report)
    requires JobInv(s, j) && Enabled(s, step) && Poll(s, j) == Ok(r)
    requires !(step.Delete? && step.job == j)
    requires step.Restart? ==> Saved(s, j, r) && j !in step.expired
    ensures Poll(Apply(s, step), j) == Ok(r)
    ensures Saved(s, j, r) ==> Saved(Apply(s, step), j, r)
  {
    if !Concerns(step, j) {
      OtherJobUntouched(s, step, j);
      var s' := Apply(s, step);
      assert j in s'.mem <==> Lookup(s.mem, j).Some?;
      assert j in s'.disk <==> Lookup(s.disk, j).Some?;
    }
  }

  /** Once a poll has returned a report, every later poll returns the same one until the job is
      deleted or expires: across any number of restarts if the report file was written, and
      otherwise as long as the API is not restarted. */
  lemma {:induction false} ReportIsStable(states: seq<State>, steps: seq<Step>, i: nat, k: nat, j: JobId, r: Report)
    requires Run(states, steps) && i <= k < |states| && Kept(steps, i, k, j)
    requires Poll(states[i], j) == Ok(r)
    requires Saved(states[i], j, r) || NoRestart(steps, i, k)
    ensures Poll(states[k], j) == Ok(r)
    ensures Saved(states[i], j, r) ==> Saved(states[k], j, r)
    decreases k
  {
    if i < k {
      ReportIsStable(states, steps, i, k - 1, j, r);
      RunKeepsInv(states, steps, k - 1, j);
      assert StepAt(states, steps, k - 1);
      AnswerStep(states[k - 1], steps[k - 1], j, r);
    }
  }

  /** No thread, no entry and no complete file: nothing can bring a report back. */
  ghost predicate Lost(s: State, j: JobId) {
    j in s.issued && j !in s.mem && j !in s.threads && (j in s.disk ==> !s.disk[j].report.Whole?)
  }

  lemma LostStep(s: State, step: Step, j: JobId)
    requires Enabled(s, step) && Lost(s, j)
    ensures Lost(Apply(s, step), j)
  {
    if !Concerns(step, j) {
      OtherJobUntouched(s, step, j);
      var s' := Apply(s, step);
      assert j in s'.mem <==> Lookup(s.mem, j).Some?;
      assert j in s'.threads <==> Lookup(s.threads, j).Some?;
      assert j in s'.disk <==> Lookup(s.disk, j).Some?;
    }
  }

  /** Answered from memory alone: the report file is missing or torn. */
  ghost predicate Unsaved(s: State, j: JobId, r: Report) {
    j in s.mem && s.mem[j].report == Some(r) && !Saved(s, j, r)
  }

  lemma UnsavedStep(s: State, step: Step, j: JobId, r: Report)
    requires JobInv(s, j) && Enabled(s, step) && Unsaved(s, j, r)
    requires !(step.Delete? && step.job == j)
    ensures if step.Restart? then Lost(Apply(s, step), j) else Unsaved(Apply(s, step), j, r)
  {
    if !Concerns(step, j) {
      OtherJobUntouched(s, step, j);
      var s' := Apply(s, step);
      assert j in s'.mem <==> Lookup(s.mem, j).Some?;
      assert j in s'.disk <==> Lookup(s.disk, j).Some?;
    }
  }

  /** A report that was answered but not saved stays unsaved, and is gone for good after the next
      restart, whenever that comes. */
  lemma {:induction false} UnsavedReportIsLost(
      states: seq<State>, steps: seq<Step>, i: nat, k: nat, j: JobId, r: Report)
    requires Run(states, steps) && i <= k < |states| && Kept(steps, i, k, j)
    requires Poll(states[i], j) == Ok(r) && !Saved(states[i], j, r)
    ensures if NoRestart(steps, i, k) then Unsaved(states[k], j, r) else Lost(states[k], j)
    decreases k
  {
    if i < k {
      UnsavedReportIsLost(states, steps, i, k - 1, j, r);
      RunKeepsInv(states, steps, k - 1, j);
      assert StepAt(states, steps, k - 1);
      assert NoRestart(steps, i, k) <==> NoRestart(steps, i, k - 1) && !steps[k - 1].Restart?;
      if NoRestart(steps, i, k - 1) {
        UnsavedStep(states[k - 1], steps[k - 1], j, r);
      } else {
        LostStep(states[k - 1], steps[k - 1], j);
      }
    }
  }

  /** The exact condition: between two moments without deletion or expiry, the answer is the same
      if and only if the report file had been written at the first one or the API was not
      restarted in between. */
  lemma ReportIsStableExactly(states: seq<State>, steps: seq<Step>, i: nat, k: nat, j: JobId, r: Report)
    requires Run(states, steps) && i <= k < |states| && Kept(steps, i, k, j)
    requires Poll(states[i], j) == Ok(r)
    ensures Poll(states[k], j) == Ok(r) <==> Saved(states[i], j, r) || NoRestart(steps, i, k)
  {
    if Saved(states[i], j, r) || NoRestart(steps, i, k) {
      ReportIsStable(states, steps, i, k, j, r);
    } else {
      UnsavedReportIsLost(states, steps, i, k, j, r);
    }
  }

  /** The report file was opened for writing and never completed, and nobody is left to do so. */
  ghost predicate LeftTorn(s: State, j: JobId) {
    Lost(s, j) && j in s.disk && s.disk[j].report.Torn?
  }

  lemma TornStep(s: State, step: Step, j: JobId)
    requires Enabled(s, step) && LeftTorn(s, j)
    requires !(step.Delete? && step.job == j) && (step.Restart? ==> j !in step.expired)
    ensures LeftTorn(Apply(s, step), j)
  {
    LostStep(s, step, j);
    if !Concerns(step, j) {
      OtherJobUntouched(s, step, j);
      assert j in Apply(s, step).disk <==> Lookup(s.disk, j).Some?;
    }
  }

  /** Then every later poll is a server error, until the job is deleted or expires. */
  lemma {:induction false} TornReportStaysTorn(states: seq<State>, steps: seq<Step>, i: nat, k: nat, j: JobId)
    requires Run(states, steps) && i <= k < |states| && Kept(steps, i, k, j) && LeftTorn(states[i], j)
    ensures LeftTorn(states[k], j) && Poll(states[k], j) == ServerError
    decreases k
  {
    if i < k {
      TornReportStaysTorn(states, steps, i, k - 1, j);
      assert StepAt(states, steps, k - 1);
      TornStep(states[k - 1], steps[k - 1], j);
    }
  }

  lemma Extend(states: seq<State>, steps: seq<Step>, step: Step)
      returns (states': seq<State>, steps': seq<Step>, s: State)
    requires Run(states, steps) && Enabled(states[|steps|], step)
    ensures Run(states', steps') && s == Apply(states[|steps|], step) == states'[|steps'|]
    ensures steps' == steps + [step] && states' == states + [s]
  {
    s := Apply(states[|steps|], step);
    states', steps' := states + [s], steps + [step];
    forall i | 0 <= i < |steps'| ensures StepAt(states', steps', i) {
      if i < |steps| { assert StepAt(states, steps, i); }
    }
  }

  /** A job whose container could not be started. */
  lemma FailedToStart(j: JobId) returns (states: seq<State>, steps: seq<Step>, s: State)
    ensures Run(states, steps) && s == states[|steps|]
    ensures s == State(map[j := Entry(Running, None)], map[j := Exited(Meta(true, false))], map[],
                       map[j := Folder(Absent, Absent, Absent)], {j}, {})
  {
    states, steps := [State(map[], map[], map[], map[], {}, {})], [];
    states, steps, s := Extend(states, steps, Prepare(j));
    states, steps, s := Extend(states, steps, Accept(j));
    states, steps, s := Extend(states, steps, Start(j));
    states, steps, s := Extend(states, steps, Exit(j, Meta(true, false), true));
  }

  /** Its report is published although it could not be written. */
  lemma PublishedUnsaved(j: JobId) returns (states: seq<State>, steps: seq<Step>, s: State)
    ensures Run(states, steps) && s == states[|steps|] && Unsaved(s, j, Report(Failed, None, 0))
  {
    states, steps, s := FailedToStart(j);
    states, steps, s := Extend(states, steps, Observe(j));
    states, steps, s := Extend(states, steps, Build(j, 0));
    states, steps, s := Extend(states, steps, PersistFail(j));
    states, steps, s := Extend(states, steps, Publish(j));
  }

  /** It happens: writing `report.json` fails, the report is answered all the same, and after a
      restart it is unknown. */
  lemma AnsweredThenLost(j: JobId) returns (states: seq<State>, steps: seq<Step>, i: nat, r: Report)
    ensures Run(states, steps) && i + 1 == |steps| && steps[i] == Restart({}, {})
    ensures Poll(states[i], j) == Ok(r) && !Saved(states[i], j, r)
    ensures Poll(states[i + 1], j) == NotFound || Poll(states[i + 1], j) == ServerError
  {
    var s;
    states, steps, s := PublishedUnsaved(j);
    i, r := |steps|, Report(Failed, None, 0);
    RunKeepsInv(states, steps, i, j);
    UnsavedStep(s, Restart({}, {}), j, r);
    states, steps, s := Extend(states, steps, Restart({}, {}));
  }

  /** It happens: the API dies between opening `report.json` and finishing it. */
  lemma DyingWhileWriting(j: JobId) returns (states: seq<State>, steps: seq<Step>, s: State)
    ensures Run(states, steps) && s == states[|steps|] && LeftTorn(s, j) && Poll(s, j) == ServerError
  {
    states, steps, s := FailedToStart(j);
    states, steps, s := Extend(states, steps, Observe(j));
    states, steps, s := Extend(states, steps, Build(j, 0));
    states, steps, s := Extend(states, steps, PersistOpen(j));
    states, steps, s := Extend(states, steps, Restart({}, {}));
  }

  /** What an answered report may claim: `Completed` only with complete observations that a
      worker of this very job wrote and called completed. */
  lemma AnswersAreSound(states: seq<State>, steps: seq<Step>, n: nat, j: JobId, r: Report)
    requires Run(states, steps) && n < |states| && Poll(states[n], j) == Ok(r)
    ensures r.observations.Some? ==> (j, r.observations.value) in states[n].produced
    ensures r.status == Completed ==> r.observations.Some? && r.observations.value.status == Completed
  {
    RunKeepsInv(states, steps, n, j);
  }

  // ---- where an answered report comes from

  /** Among the first `n` steps, the `e`-th is the end of the worker of `j`, with this result. */
  ghost predicate EndedAt(steps: seq<Step>, n: nat, e: nat, j: JobId, meta: Meta) {
    e < n <= |steps| && steps[e].Exit? && steps[e].job == j && steps[e].meta == meta
  }

  ghost predicate EndedBy(steps: seq<Step>, n: nat, j: JobId, meta: Meta) {
    exists e :: EndedAt(steps, n, e, j, meta)
  }

  /** After that, the `o`-th step reads the observations as they then are. */
  ghost predicate ReadAt(states: seq<State>, steps: seq<Step>, n: nat, o: nat, j: JobId,
                         meta: Meta, observations: Option<Observations>) {
    && o < n <= |steps| && |states| == |steps| + 1 && steps[o] == Observe(j)
    && observations == ReadObservations(states[o], j) && EndedBy(steps, o, j, meta)
  }

  ghost predicate ReadBy(states: seq<State>, steps: seq<Step>, n: nat, j: JobId,
                         meta: Meta, observations: Option<Observations>) {
    exists o :: ReadAt(states, steps, n, o, j, meta, observations)
  }

  /** What the status has to be: an orchestrator error fails the job, a worker that ran out of time
      is a timeout even if it left observations, otherwise the worker's own word counts. */
  predicate RightStatus(status: Outcome, meta: Meta, observations: Option<Observations>) {
    && (meta.error ==> status == Failed)
    && (!meta.error && meta.timedOut ==> status == Timeout)
    && (!meta.error && !meta.timedOut && observations.None? ==> status == Failed)
    && (!meta.error && !meta.timedOut && observations.Some? ==> status == observations.value.status)
  }

  /** And the `b`-th step builds the report from it. */
  ghost predicate MadeAt(states: seq<State>, steps: seq<Step>, n: nat, b: nat, j: JobId, r: Report, meta: Meta) {
    && b < n <= |steps| && steps[b] == Build(j, r.network)
    && ReadBy(states, steps, b, j, meta, r.observations) && RightStatus(r.status, meta, r.observations)
  }

  ghost predicate Made(states: seq<State>, steps: seq<Step>, n: nat, j: JobId, r: Report) {
    exists b, meta :: MadeAt(states, steps, n, b, j, r, meta)
  }

  /** Every intermediate result of the job has its steps behind it. */
  ghost predicate Traced(states: seq<State>, steps: seq<Step>, n: nat, j: JobId)
    requires n < |states|
  {
    var s := states[n];
    && (j in s.threads && s.threads[j].Exited? ==> EndedBy(steps, n, j, s.threads[j].meta))
    && (j in s.threads && s.threads[j].Observed? ==>
          ReadBy(states, steps, n, j, s.threads[j].meta, s.threads[j].observations))
    && (j in s.threads && HasResult(s.threads[j]) ==> Made(states, steps, n, j, s.threads[j].result))
    && (j in s.mem && s.mem[j].report.Some? ==> Made(states, steps, n, j, s.mem[j].report.value))
    && (j in s.disk && s.disk[j].report.Whole? ==> Made(states, steps, n, j, s.disk[j].report.content))
  }

  lemma EndedLater(steps: seq<Step>, n: nat, j: JobId, meta: Meta)
    requires n < |steps|
    ensures EndedBy(steps, n, j, meta) ==> EndedBy(steps, n + 1, j, meta)
  {
    if e :| EndedAt(steps, n, e, j, meta) { assert EndedAt(steps, n + 1, e, j, meta); }
  }

  lemma ReadLater(states: seq<State>, steps: seq<Step>, n: nat, j: JobId,
                  meta: Meta, observations: Option<Observations>)
    requires n < |steps|
    ensures ReadBy(states, steps, n, j, meta, observations) ==> ReadBy(states, steps, n + 1, j, meta, observations)
  {
    if o :| ReadAt(states, steps, n, o, j, meta, observations) {
      assert ReadAt(states, steps, n + 1, o, j, meta, observations);
    }
  }

  lemma MadeLater(states: seq<State>, steps: seq<Step>, n: nat, j: JobId, r: Report)
    requires n < |steps|
    ensures Made(states, steps, n, j, r) ==> Made(states, steps, n + 1, j, r)
  {
    if b, meta :| MadeAt(states, steps, n, b, j, r, meta) { assert MadeAt(states, steps, n + 1, b, j, r, meta); }
  }

  /** Where each intermediate result comes from in one step. */
  lemma ThreadStep(s: State, step: Step, j: JobId)
    requires JobInv(s, j) && Enabled(s, step) && j in Apply(s, step).threads
    ensures var pc := Apply(s, step).threads[j];
            && (pc.Exited? ==>
                  (step.Exit? && step.job == j && step.meta == pc.meta) || (j in s.threads && s.threads[j] == pc))
            && (pc.Observed? ==>
                  || (step == Observe(j) && j in s.threads && s.threads[j] == Exited(pc.meta)
                      && pc.observations == ReadObservations(s, j))
                  || (j in s.threads && s.threads[j] == pc))
            && (HasResult(pc) ==>
                  && j in s.threads
                  && ((HasResult(s.threads[j]) && s.threads[j].result == pc.result)
                      || (s.threads[j].Observed? && step == Build(j, pc.result.network)
                          && pc.result.observations == s.threads[j].observations
                          && RightStatus(pc.result.status, s.threads[j].meta, pc.result.observations))))
  {
    if !Concerns(step, j) {
      OtherJobUntouched(s, step, j);
      var s' := Apply(s, step);
      assert j in s'.threads <==> Lookup(s.threads, j).Some?;
    }
  }

  lemma ReportStep(s: State, step: Step, j: JobId)
    requires JobInv(s, j) && Enabled(s, step)
    ensures var s' := Apply(s, step);
            && (j in s'.mem && s'.mem[j].report.Some? ==>
                  || (j in s.mem && s.mem[j].report == s'.mem[j].report)
                  || (j in s.threads && HasResult(s.threads[j]) && s'.mem[j].report == Some(s.threads[j].result)))
            && (j in s'.disk && s'.disk[j].report.Whole? ==>
                  || (j in s.disk && s.disk[j].report == s'.disk[j].report)
                  || (j in s.threads && HasResult(s.threads[j]) && s'.disk[j].report.content == s.threads[j].result))
  {
    if !Concerns(step, j) {
      OtherJobUntouched(s, step, j);
      var s' := Apply(s, step);
      assert j in s'.mem <==> Lookup(s.mem, j).Some?;
      assert j in s'.disk <==> Lookup(s.disk, j).Some?;
    }
  }

  lemma ThreadTraced(states: seq<State>, steps: seq<Step>, n: nat, j: JobId)
    requires Run(states, steps) && n < |steps| && Traced(states, steps, n, j) && j in states[n + 1].threads
    ensures var pc := states[n + 1].threads[j];
            && (pc.Exited? ==> EndedBy(steps, n + 1, j, pc.meta))
            && (pc.Observed? ==> ReadBy(states, steps, n + 1, j, pc.meta, pc.observations))
            && (HasResult(pc) ==> Made(states, steps, n + 1, j, pc.result))
  {
    var s, step, pc := states[n], steps[n], states[n + 1].threads[j];
    assert StepAt(states, steps, n);
    RunKeepsInv(states, steps, n, j);
    ThreadStep(s, step, j);
    if pc.Exited? {
      if step.Exit? && step.job == j && step.meta == pc.meta { assert EndedAt(steps, n + 1, n, j, pc.meta); }
      else { EndedLater(steps, n, j, pc.meta); }
    } else if pc.Observed? {
      if s.threads[j] == pc { ReadLater(states, steps, n, j, pc.meta, pc.observations); }
      else { assert ReadAt(states, steps, n + 1, n, j, pc.meta, pc.observations); }
    } else if HasResult(pc) {
      if HasResult(s.threads[j]) { MadeLater(states, steps, n, j, pc.result); }
      else { assert MadeAt(states, steps, n + 1, n, j, pc.result, s.threads[j].meta); }
    }
  }

  lemma ReportTraced(states: seq<State>, steps: seq<Step>, n: nat, j: JobId)
    requires Run(states, steps) && n < |steps| && Traced(states, steps, n, j)
    ensures var s' := states[n + 1];
            && (j in s'.mem && s'.mem[j].report.Some? ==> Made(states, steps, n + 1, j, s'.mem[j].report.value))
            && (j in s'.disk && s'.disk[j].report.Whole? ==> Made(states, steps, n + 1, j, s'.disk[j].report.content))
  {
    var s' := states[n + 1];
    assert StepAt(states, steps, n);
    RunKeepsInv(states, steps, n, j);
    ReportStep(states[n], steps[n], j);
    if j in s'.mem && s'.mem[j].report.Some? { MadeLater(states, steps, n, j, s'.mem[j].report.value); }
    if j in s'.disk && s'.disk[j].report.Whole? { MadeLater(states, steps, n, j, s'.disk[j].report.content); }
  }

  lemma {:induction false} RunIsTraced(states: seq<State>, steps: seq<Step>, n: nat, j: JobId)
    requires Run(states, steps) && n < |states|
    ensures Traced(states, steps, n, j)
  {
    if n > 0 {
      RunIsTraced(states, steps, n - 1, j);
      ReportTraced(states, steps, n - 1, j);
      if j in states[n].threads { ThreadTraced(states, steps, n - 1, j); }
    }
  }

  /** A job whose worker has ended is past that for good. */
  ghost predicate PastEnd(s: State, j: JobId) {
    && j in s.issued
    && (j in s.threads ==>
          s.threads[j].Exited? || s.threads[j].Observed? || HasResult(s.threads[j]))
  }

  lemma PastEndStep(s: State, step: Step, j: JobId)
    requires JobInv(s, j) && Enabled(s, step)
    ensures PastEnd(s, j) ==> PastEnd(Apply(s, step), j) && !(step.Exit? && step.job == j)
    ensures step.Exit? && step.job == j ==> PastEnd(Apply(s, step), j)
  {
    if !Concerns(step, j) {
      OtherJobUntouched(s, step, j);
      var s' := Apply(s, step);
      assert j in s'.threads <==> Lookup(s.threads, j).Some?;
    }
  }

  lemma PastEndAt(states: seq<State>, steps: seq<Step>, n: nat, j: JobId)
    requires Run(states, steps) && n < |steps|
    ensures PastEnd(states[n], j) ==> PastEnd(states[n + 1], j) && !(steps[n].Exit? && steps[n].job == j)
    ensures steps[n].Exit? && steps[n].job == j ==> PastEnd(states[n + 1], j)
  {
    assert StepAt(states, steps, n);
    RunKeepsInv(states, steps, n, j);
    PastEndStep(states[n], steps[n], j);
  }

  lemma {:induction false} PastEndStays(states: seq<State>, steps: seq<Step>, e: nat, n: nat, j: JobId)
    requires Run(states, steps) && e < n < |states| && steps[e].Exit? && steps[e].job == j
    ensures PastEnd(states[n], j)
    decreases n
  {
    PastEndAt(states, steps, n - 1, j);
    if e < n - 1 { PastEndStays(states, steps, e, n - 1, j); }
  }

  /** A job's worker ends at most once. */
  lemma EndsOnce(states: seq<State>, steps: seq<Step>, d: nat, e: nat, j: JobId)
    requires Run(states, steps) && d < |steps| && e < |steps|
    requires steps[d].Exit? && steps[d].job == j && steps[e].Exit? && steps[e].job == j
    ensures d == e
  {
    if d < e {
      PastEndStays(states, steps, d, e, j);
      PastEndAt(states, steps, e, j);
    } else if e < d {
      PastEndStays(states, steps, e, d, j);
      PastEndAt(states, steps, d, j);
    }
  }

  /** Every answered report was built, by a step of the run, from what an earlier step of the run had
      read as the job's observations after its worker had ended. */
  lemma AnswersAreMade(states: seq<State>, steps: seq<Step>, n: nat, j: JobId, r: Report)
    requires Run(states, steps) && n < |states| && Poll(states[n], j) == Ok(r)
    ensures Made(states, steps, n, j, r)
  {
    RunIsTraced(states, steps, n, j);
  }

  /** So the status of an answered report follows from how the worker of the job ended. */
  lemma StatusFollowsEnd(states: seq<State>, steps: seq<Step>, n: nat, e: nat, j: JobId, r: Report)
    requires Run(states, steps) && n < |states| && Poll(states[n], j) == Ok(r)
    requires e < |steps| && steps[e].Exit? && steps[e].job == j
    ensures e < n && RightStatus(r.status, steps[e].meta, r.observations)
  {
    AnswersAreMade(states, steps, n, j, r);
    var b, meta :| MadeAt(states, steps, n, b, j, r, meta);
    var o :| ReadAt(states, steps, b, o, j, meta, r.observations);
    var d :| EndedAt(steps, o, d, j, meta);
    EndsOnce(states, steps, d, e, j);
  }

  // ---- the status only moves forward

  /** The handler is past `Accept`. */
  ghost predicate Accepted(s: State, j: JobId) {
    j in s.issued && (j in s.threads ==> !s.threads[j].Preparing?)
  }

  /** From `s` to `s'`, the entry has not gone back or reappeared, and has kept a terminal status with
      its report. */
  ghost predicate MovedOn(s: State, s': State, j: JobId) {
    j in s'.mem ==>
      && j in s.mem
      && (s'.mem[j].status.Queued? ==> s.mem[j].status.Queued?)
      && (s.mem[j].status.Done? ==> s'.mem[j] == s.mem[j])
  }

  lemma EntryStep(s: State, step: Step, j: JobId)
    requires JobInv(s, j) && Enabled(s, step) && Accepted(s, j)
    ensures var s' := Apply(s, step);
            && Accepted(s', j)
            && MovedOn(s, s', j)
            && (j in s'.mem && s'.mem[j].status.Done? && !s.mem[j].status.Done? ==> s.mem[j].status.Running?)
  {
    if !Concerns(step, j) {
      OtherJobUntouched(s, step, j);
      var s' := Apply(s, step);
      assert j in s'.mem <==> Lookup(s.mem, j).Some?;
      assert j in s'.threads <==> Lookup(s.threads, j).Some?;
    }
  }

  /** Queued, running, terminal, in this order; a terminal entry never changes and a removed one
      never comes back. */
  lemma {:induction false} StatusMovesForward(states: seq<State>, steps: seq<Step>, i: nat, k: nat, j: JobId)
    requires Run(states, steps) && i <= k < |states| && Accepted(states[i], j)
    ensures Accepted(states[k], j) && MovedOn(states[i], states[k], j)
    decreases k
  {
    if i < k {
      StatusMovesForward(states, steps, i, k - 1, j);
      StatusNext(states, steps, k - 1, j);
    }
  }

  lemma StatusNext(states: seq<State>, steps: seq<Step>, n: nat, j: JobId)
    requires Run(states, steps) && n < |steps| && Accepted(states[n], j)
    ensures Accepted(states[n + 1], j) && MovedOn(states[n], states[n + 1], j)
  {
    assert StepAt(states, steps, n);
    RunKeepsInv(states, steps, n, j);
    EntryStep(states[n], steps[n], j);
  }
}
