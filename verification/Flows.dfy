/** Whose flow is it?  Detonation containers come and go, Docker hands freed addresses out again,
    and fakenet logs only the source address and the time.  Each job later claims the log lines
    that carry its address and fall in its own time window. */
module Flows {
  import opened Common

  type JobId = nat
  type Ip = string
  type Time = int

  // ---- collect_network

  datatype Kind = Dns | Http | HttpConnect | Tcp | DnsError

  /** A line of the log: unparsable JSON, or an event whose timestamp may be missing or bad. */
  datatype Line = Garbled | Event(src: Ip, ts: Option<Time>, kind: Kind)

  const MAX_FLOWS := 120

  predicate InWindow(line: Line, ip: Ip, start: Time, end: Time) {
    line.Event? && line.src == ip && line.ts.Some? && start <= line.ts.value <= end
  }

  function Claimed(log: seq<Line>, ip: Ip, start: Time, end: Time, kinds: set<Kind>): seq<Line> {
    if log == [] then [] else
      var last := log[|log| - 1];
      Claimed(log[..|log| - 1], ip, start, end, kinds) +
      (if InWindow(last, ip, start, end) && last.kind in kinds then [last] else [])
  }

  /** The filter keeps exactly the matching lines. */
  lemma {:induction false} ClaimedExactly(log: seq<Line>, ip: Ip, start: Time, end: Time, kinds: set<Kind>, line: Line)
    ensures line in Claimed(log, ip, start, end, kinds)
       <==> line in log && InWindow(line, ip, start, end) && line.kind in kinds
  {
    if log != [] {
      var n := |log| - 1;
      ClaimedExactly(log[..n], ip, start, end, kinds, line);
      assert log == log[..n] + [log[n]];
    }
  }

  /** What a line must say to be listed. */
  ghost function Matching(ip: Ip, start: Time, end: Time, kinds: set<Kind>): Line -> bool {
    (line: Line) =>
      line.Event? && line.src == ip && line.ts.Some? && start <= line.ts.value <= end && line.kind in kinds
  }

  lemma {:induction false} ClaimedIsFilter(log: seq<Line>, ip: Ip, start: Time, end: Time, kinds: set<Kind>)
    ensures Claimed(log, ip, start, end, kinds) == Filter(log, Matching(ip, start, end, kinds))
  {
    if log != [] { ClaimedIsFilter(log[..|log| - 1], ip, start, end, kinds); }
  }

  /** They are kept in log order: there are increasing positions in the log at which they stand, and no
      other line of the log matches. */
  lemma ClaimedInOrder(log: seq<Line>, ip: Ip, start: Time, end: Time, kinds: set<Kind>) returns (pos: seq<nat>)
    ensures Picks(Claimed(log, ip, start, end, kinds), log, Matching(ip, start, end, kinds), pos)
  {
    ClaimedIsFilter(log, ip, start, end, kinds);
    pos := FilterPicks(log, Matching(ip, start, end, kinds));
  }

  datatype Flows = Flows(dns: seq<Line>, http: seq<Line>, tcp: seq<Line>)

  method CollectNetwork(log: Option<seq<Line>>, workerIp: Option<Ip>, startedAt: Option<Time>, finishedAt: Option<Time>)
    returns (flows: Flows)
    ensures workerIp.None? || workerIp.value == "" || startedAt.None? || finishedAt.None? || log.None?
            ==> flows == Flows([], [], [])
    ensures workerIp.Some? && workerIp.value != "" && startedAt.Some? && finishedAt.Some? && log.Some? ==>
              var ip, start, end := workerIp.value, startedAt.value, finishedAt.value;
              && flows.dns == Take(Claimed(log.value, ip, start, end, {Dns}), 120)
              && flows.http == Take(Claimed(log.value, ip, start, end, {Http, HttpConnect}), 120)
              && flows.tcp == Take(Claimed(log.value, ip, start, end, {Tcp}), 120)
  {
    if workerIp.None? || workerIp.value == "" || startedAt.None? || finishedAt.None? || log.None? {
      return Flows([], [], []);
    }
    var lines, ip, start, end := log.value, workerIp.value, startedAt.value, finishedAt.value;
    var dns: seq<Line>, http: seq<Line>, tcp: seq<Line> := [], [], [];
    for i := 0 to |lines|
      invariant dns == Claimed(lines[..i], ip, start, end, {Dns})
      invariant http == Claimed(lines[..i], ip, start, end, {Http, HttpConnect})
      invariant tcp == Claimed(lines[..i], ip, start, end, {Tcp})
    {
      var line := lines[i];
      assert lines[..i + 1][..i] == lines[..i];
      if line.Garbled? || line.src != ip || line.ts.None? || !(start <= line.ts.value <= end) {
        continue;
      }
      match line.kind {
        case Dns => dns := dns + [line];
        case Http => http := http + [line];
        case HttpConnect => http := http + [line];
        case Tcp => tcp := tcp + [line];
        case DnsError =>
      }
    }
    assert lines[..|lines|] == lines;
    flows := Flows(Take(dns, MAX_FLOWS), Take(http, MAX_FLOWS), Take(tcp, MAX_FLOWS));
  }

  // ---- the machine

  /** Where a job is in `run_worker`; the times are those of the steps already taken.  `Exited` is
      the moment the container's process ends, by itself, by kill or by forced removal: from then
      on it opens no flows and Docker may hand its address out again.  `known` says whether the
      job learned the address of its container, which a failing `reload` can prevent. */
  datatype Stage =
    | Prepared
    | Running(ip: Ip, launched: Time)
    | Exited(ip: Ip, launched: Time, exited: Time)
    | Finished(ip: Ip, launched: Time, exited: Time, finished: Time, known: bool)
    | Aborted(finished: Time)
  {
    predicate HadContainer() {
      Running? || Exited? || Finished?
    }

    predicate Over() {
      Finished? || Aborted?
    }
  }

  datatype Job = Job(started: Time, stage: Stage)

  /** A flow on its way to the log: opened by a container, later stamped by the sink's handler
      thread, later still appended.  `live` records whether the container was still running when
      the stamp was taken. */
  datatype Flow = Opened(owner: JobId, src: Ip, kind: Kind)
                | Stamped(owner: JobId, src: Ip, kind: Kind, ts: Time, live: bool)

  datatype State = State(now: Time, jobs: map<JobId, Job>, inFlight: multiset<Flow>, log: seq<Flow>)

  datatype Step =
    | Tick(to: Time)
    | Begin(job: JobId)
    | Launch(job: JobId, ip: Ip)
    | Open(job: JobId, kind: Kind)
    | Stamp(flow: Flow)
    | Append(flow: Flow)
    | Exit(job: JobId)
    | Finish(job: JobId, known: bool)

  ghost predicate Init(s: State) {
    s.jobs == map[] && s.inFlight == multiset{} && s.log == []
  }

  predicate InStage(s: State, j: JobId, running: bool) {
    j in s.jobs && (if running then s.jobs[j].stage.Running? else s.jobs[j].stage.Prepared?)
  }

  ghost predicate Enabled(s: State, step: Step) {
    match step
    case Tick(to) => s.now <= to
    case Begin(j) => j !in s.jobs
    case Launch(j, ip) =>
      // Docker never gives one address to two containers at a time
      InStage(s, j, false) && forall k :: InStage(s, k, true) ==> s.jobs[k].stage.ip != ip
    case Open(j, _) => InStage(s, j, true)
    case Stamp(f) => f in s.inFlight && f.Opened?
    case Append(f) => f in s.inFlight && f.Stamped?
    case Exit(j) => InStage(s, j, true)
    case Finish(j, _) => j in s.jobs && (s.jobs[j].stage.Prepared? || s.jobs[j].stage.Exited?)
  }

  ghost function Apply(s: State, step: Step): State
    requires Enabled(s, step)
  {
    match step
    case Tick(to) => s.(now := to)
    case Begin(j) => s.(jobs := s.jobs[j := Job(s.now, Prepared)])
    case Launch(j, ip) => s.(jobs := s.jobs[j := s.jobs[j].(stage := Running(ip, s.now))])
    case Open(j, kind) => s.(inFlight := s.inFlight + multiset{Opened(j, s.jobs[j].stage.ip, kind)})
    case Stamp(f) =>
      s.(inFlight := s.inFlight - multiset{f}
                     + multiset{Stamped(f.owner, f.src, f.kind, s.now, InStage(s, f.owner, true))})
    case Append(f) => s.(inFlight := s.inFlight - multiset{f}, log := s.log + [f])
    case Exit(j) =>
      var t := s.jobs[j].stage;
      s.(jobs := s.jobs[j := s.jobs[j].(stage := Exited(t.ip, t.launched, s.now))])
    case Finish(j, known) =>
      var t := s.jobs[j].stage;
      var over := if t.Prepared? then Aborted(s.now) else Finished(t.ip, t.launched, t.exited, s.now, known);
      s.(jobs := s.jobs[j := s.jobs[j].(stage := over)])
  }

  ghost predicate Run(states: seq<State>, steps: seq<Step>) {
    && |states| == |steps| + 1 && Init(states[0])
    && forall i :: 0 <= i < |steps| ==> StepAt(states, steps, i)
  }

  ghost predicate StepAt(states: seq<State>, steps: seq<Step>, i: nat)
    requires i < |steps| && |states| == |steps| + 1
  {
    Enabled(states[i], steps[i]) && states[i + 1] == Apply(states[i], steps[i])
  }

  /** One step more. */
  lemma Extend(states: seq<State>, steps: seq<Step>, step: Step)
      returns (states': seq<State>, steps': seq<Step>, s: State)
    requires Run(states, steps) && Enabled(states[|steps|], step)
    ensures Run(states', steps') && s == Apply(states[|steps|], step) == states'[|steps'|]
  {
    s := Apply(states[|steps|], step);
    states', steps' := states + [s], steps + [step];
    forall i | 0 <= i < |steps'| ensures StepAt(states', steps', i) {
      if i < |steps| { assert StepAt(states, steps, i); }
    }
  }

  // ---- the invariant

  ghost predicate TimesOrdered(job: Job, now: Time) {
    match job.stage
    case Prepared => job.started <= now
    case Running(_, launched) => job.started <= launched <= now
    case Exited(_, launched, exited) => job.started <= launched <= exited <= now
    case Finished(_, launched, exited, finished, _) => job.started <= launched <= exited <= finished <= now
    case Aborted(finished) => job.started <= finished <= now
  }

  /** `a`'s container was gone before `b`'s was launched. */
  ghost predicate Earlier(a: Job, b: Job) {
    (a.stage.Exited? || a.stage.Finished?) && b.stage.HadContainer() && a.stage.exited <= b.stage.launched
  }

  ghost predicate FlowTrue(f: Flow, s: State) {
    && f.owner in s.jobs && s.jobs[f.owner].stage.HadContainer() && f.src == s.jobs[f.owner].stage.ip
    && (f.Stamped? ==>
          var t := s.jobs[f.owner].stage;
          && t.launched <= f.ts <= s.now
          && (t.Running? ==> f.live)
          && (!t.Running? ==> if f.live then f.ts <= t.exited else t.exited <= f.ts))
  }

  ghost predicate Inv(s: State) {
    && JobsInOrder(s)
    && (forall f :: f in s.inFlight ==> FlowTrue(f, s))
    && (forall i :: 0 <= i < |s.log| ==> s.log[i].Stamped? && FlowTrue(s.log[i], s))
  }

  predicate SameIp(a: Job, b: Job) {
    a.stage.HadContainer() && b.stage.HadContainer() && a.stage.ip == b.stage.ip
  }

  lemma FlowStaysTrue(s: State, step: Step, f: Flow)
    requires Inv(s) && Enabled(s, step) && FlowTrue(f, s)
    ensures FlowTrue(f, Apply(s, step))
  {}

  lemma StampIsTrue(s: State, f: Flow)
    requires Inv(s) && f in s.inFlight && f.Opened?
    ensures FlowTrue(Stamped(f.owner, f.src, f.kind, s.now, InStage(s, f.owner, true)), s)
  {
    assert FlowTrue(f, s) && TimesOrdered(s.jobs[f.owner], s.now);
  }

  ghost predicate JobsInOrder(s: State) {
    && (forall j :: j in s.jobs ==> TimesOrdered(s.jobs[j], s.now))
    && (forall j, k :: j in s.jobs && k in s.jobs && j != k && SameIp(s.jobs[j], s.jobs[k]) ==>
          Earlier(s.jobs[j], s.jobs[k]) || Earlier(s.jobs[k], s.jobs[j]))
  }

  lemma PairStaysInOrder(s: State, step: Step, j: JobId, k: JobId)
    requires JobsInOrder(s) && Enabled(s, step)
    requires var s' := Apply(s, step);
             j in s'.jobs && k in s'.jobs && j != k && SameIp(s'.jobs[j], s'.jobs[k])
    ensures var s' := Apply(s, step);
            Earlier(s'.jobs[j], s'.jobs[k]) || Earlier(s'.jobs[k], s'.jobs[j])
  {
    assert j in s.jobs && k in s.jobs;
    if step.Launch? && (step.job == j || step.job == k) {
      var other := if step.job == j then k else j;
      assert !InStage(s, other, true);
      assert TimesOrdered(s.jobs[other], s.now);
    } else {
      assert SameIp(s.jobs[j], s.jobs[k]);
    }
  }

  lemma JobsStayInOrder(s: State, step: Step)
    requires JobsInOrder(s) && Enabled(s, step)
    ensures JobsInOrder(Apply(s, step))
  {
    var s' := Apply(s, step);
    forall j, k | j in s'.jobs && k in s'.jobs && j != k && SameIp(s'.jobs[j], s'.jobs[k])
      ensures Earlier(s'.jobs[j], s'.jobs[k]) || Earlier(s'.jobs[k], s'.jobs[j])
    {
      PairStaysInOrder(s, step, j, k);
    }
  }

  lemma StepKeepsInv(s: State, step: Step)
    requires Inv(s) && Enabled(s, step)
    ensures Inv(Apply(s, step))
  {
    var s' := Apply(s, step);
    JobsStayInOrder(s, step);
    forall f | FlowTrue(f, s) ensures FlowTrue(f, s') {
      FlowStaysTrue(s, step, f);
    }
    if step.Stamp? { StampIsTrue(s, step.flow); }
  }

  lemma {:induction false} RunKeepsInv(states: seq<State>, steps: seq<Step>, i: nat)
    requires Run(states, steps) && i < |states|
    ensures Inv(states[i])
  {
    if i > 0 {
      RunKeepsInv(states, steps, i - 1);
      assert StepAt(states, steps, i - 1);
      StepKeepsInv(states[i - 1], steps[i - 1]);
    }
  }

  // ---- attribution

  /** The filter of a finished job; without an address it collects nothing. */
  predicate Claims(job: Job, f: Flow)
    requires job.stage.Finished? && f.Stamped?
  {
    job.stage.known && f.src == job.stage.ip && job.started <= f.ts <= job.stage.finished
  }

  predicate IsFinished(s: State, k: JobId) {
    k in s.jobs && s.jobs[k].stage.Finished?
  }

  /** Its own job claims the flow, and no other finished job does. */
  ghost predicate RightlyClaimed(s: State, f: Flow)
    requires f.Stamped?
  {
    forall k :: IsFinished(s, k) ==> (Claims(s.jobs[k], f) <==> k == f.owner)
  }

  /** A logged flow passes its own job's filter exactly when the job knows its address and the flow
      was stamped by the time the job took its finish time, as all live ones were. */
  lemma OwnFlowsPass(states: seq<State>, steps: seq<Step>, n: nat, i: nat)
    requires Run(states, steps) && n < |states|
    requires i < |states[n].log| && states[n].log[i].Stamped?
    requires IsFinished(states[n], states[n].log[i].owner)
    ensures var f := states[n].log[i]; var job := states[n].jobs[f.owner];
            && (Claims(job, f) <==> job.stage.known && f.ts <= job.stage.finished)
            && (f.live ==> f.ts <= job.stage.finished)
  {
    RunKeepsInv(states, steps, n);
    var s := states[n];
    assert FlowTrue(s.log[i], s);
    assert TimesOrdered(s.jobs[s.log[i].owner], s.now);
  }

  /** When a job claims a flow that is not its own: it had the same address, earlier or later than
      the owner.  A later one claims it exactly if it started by the time of the stamp and finished
      no sooner, an earlier one exactly if it had not yet finished. */
  lemma CrossClaimExact(states: seq<State>, steps: seq<Step>, n: nat, i: nat, k: JobId)
    requires Run(states, steps) && n < |states|
    requires i < |states[n].log| && states[n].log[i].Stamped?
    requires IsFinished(states[n], k) && k != states[n].log[i].owner
    ensures states[n].log[i].owner in states[n].jobs
    ensures var f := states[n].log[i]; var mine, other := states[n].jobs[f.owner], states[n].jobs[k];
            && (Claims(other, f) ==> SameIp(mine, other))
            && (SameIp(mine, other) ==> Earlier(mine, other) || Earlier(other, mine))
            && (SameIp(mine, other) && Earlier(mine, other) ==>
                  (Claims(other, f) <==> other.stage.known && other.started <= f.ts <= other.stage.finished)
                  && (f.live ==> f.ts <= other.stage.finished))
            && (SameIp(mine, other) && Earlier(other, mine) ==>
                  (Claims(other, f) <==> other.stage.known && f.ts <= other.stage.finished))
  {
    RunKeepsInv(states, steps, n);
    var s := states[n];
    assert FlowTrue(s.log[i], s);
    assert TimesOrdered(s.jobs[k], s.now) && TimesOrdered(s.jobs[s.log[i].owner], s.now);
  }

  /** The time windows of two finished jobs have no moment in common. */
  predicate Apart(a: Job, b: Job)
    requires a.stage.Finished? && b.stage.Finished?
  {
    a.stage.finished < b.started || b.stage.finished < a.started
  }

  /** Finished jobs with one address have windows that do not meet. */
  ghost predicate WindowsOfOneIpApart(s: State) {
    forall j, k :: IsFinished(s, j) && IsFinished(s, k) && j != k && SameIp(s.jobs[j], s.jobs[k]) ==>
      Apart(s.jobs[j], s.jobs[k])
  }

  /** Then no flow at all passes two jobs' filters. */
  lemma OneClaimant(s: State, f: Flow, j: JobId, k: JobId)
    requires WindowsOfOneIpApart(s) && f.Stamped? && IsFinished(s, j) && IsFinished(s, k)
    requires Claims(s.jobs[j], f) && Claims(s.jobs[k], f)
    ensures j == k
  {}

  /** And in every run that comes to such a state, whatever the interleaving, a logged flow of a
      finished job goes to that job and to no other exactly when the job knows its address and the
      flow was stamped by the job's finish time. */
  lemma AttributionExact(states: seq<State>, steps: seq<Step>, n: nat, i: nat)
    requires Run(states, steps) && n < |states| && WindowsOfOneIpApart(states[n])
    requires i < |states[n].log| && states[n].log[i].Stamped?
    requires IsFinished(states[n], states[n].log[i].owner)
    ensures var f := states[n].log[i]; var own := states[n].jobs[f.owner];
            RightlyClaimed(states[n], f) <==> own.stage.known && f.ts <= own.stage.finished
  {
    OwnFlowsPass(states, steps, n, i);
    var s, f := states[n], states[n].log[i];
    assert Claims(s.jobs[f.owner], f) ==> RightlyClaimed(s, f) by {
      forall k | Claims(s.jobs[f.owner], f) && IsFinished(s, k)
        ensures Claims(s.jobs[k], f) <==> k == f.owner
      {
        if Claims(s.jobs[k], f) { OneClaimant(s, f, f.owner, k); }
      }
    }
  }

  // ---- when one flow can go to two jobs

  /** A run that comes to these jobs, and whose log then holds a flow that both of them claim. */
  ghost predicate Shares(states: seq<State>, steps: seq<Step>, i: nat, jobs: map<JobId, Job>, a: JobId, b: JobId) {
    && Run(states, steps) && states[|steps|].jobs == jobs
    && a in jobs && b in jobs && jobs[a].stage.Finished? && jobs[b].stage.Finished?
    && i < |states[|steps|].log| && states[|steps|].log[i].Stamped?
    && Claims(jobs[a], states[|steps|].log[i]) && Claims(jobs[b], states[|steps|].log[i])
  }

  ghost predicate CanShare(jobs: map<JobId, Job>, a: JobId, b: JobId) {
    exists states, steps, i :: Shares(states, steps, i, jobs, a, b)
  }

  /** The same state with one more flow on its way. */
  function Plus(s: State, f: Flow): State {
    s.(inFlight := s.inFlight + multiset{f})
  }

  /** It hinders no step, and no step touches it. */
  lemma PlusCommutes(s: State, f: Flow, step: Step)
    requires Enabled(s, step)
    ensures Enabled(Plus(s, f), step) && Apply(Plus(s, f), step) == Plus(Apply(s, step), f)
  {
    match step
    case Open(j, kind) => OneMoreAfter(s.inFlight, f, Opened(j, s.jobs[j].stage.ip, kind));
    case Stamp(g) =>
      OneLessAfter(s.inFlight, f, g);
      OneMoreAfter(s.inFlight - multiset{g}, f,
                   Stamped(g.owner, g.src, g.kind, s.now, InStage(s, g.owner, true)));
    case Append(g) => OneLessAfter(s.inFlight, f, g);
    case _ =>
  }

  lemma OneMoreAfter(m: multiset<Flow>, f: Flow, g: Flow)
    ensures m + multiset{f} + multiset{g} == m + multiset{g} + multiset{f}
  {}

  lemma OneLessAfter(m: multiset<Flow>, f: Flow, g: Flow)
    requires g in m
    ensures g in m + multiset{f} && m + multiset{f} - multiset{g} == m - multiset{g} + multiset{f}
  {}

  lemma StampPlus(s: State, f: Flow)
    requires f.Opened?
    ensures Enabled(Plus(s, f), Stamp(f))
    ensures Apply(Plus(s, f), Stamp(f))
         == Plus(s, Stamped(f.owner, f.src, f.kind, s.now, InStage(s, f.owner, true)))
  {
    assert s.inFlight + multiset{f} - multiset{f} == s.inFlight;
  }

  function Later(x: Time, y: Time): Time {
    if x <= y then y else x
  }

  /** `s'` is `s` with one more flow of `a`: opened as soon as the container of `a` runs, and stamped
      as soon as `b` has begun as well. */
  ghost predicate Carries(s': State, s: State, a: JobId, b: JobId) {
    if !(a in s.jobs && s.jobs[a].stage.HadContainer()) then s' == s
    else if b !in s.jobs then s' == Plus(s, Opened(a, s.jobs[a].stage.ip, Tcp))
    else exists live :: s' == Plus(s, Extra(s, a, b, live))
  }

  function Extra(s: State, a: JobId, b: JobId, live: bool): Flow
    requires a in s.jobs && s.jobs[a].stage.HadContainer() && b in s.jobs
  {
    Stamped(a, s.jobs[a].stage.ip, Tcp, Later(s.jobs[a].stage.launched, s.jobs[b].started), live)
  }

  /** A job that had a container keeps its address and its times, and jobs do not disappear. */
  lemma JobStays(s: State, step: Step, j: JobId)
    requires Inv(s) && Enabled(s, step) && j in s.jobs
    ensures var s' := Apply(s, step);
            && j in s'.jobs && s'.jobs[j].started == s.jobs[j].started
            && (s.jobs[j].stage.HadContainer() ==>
                  && s'.jobs[j].stage.HadContainer() && s'.jobs[j].stage.ip == s.jobs[j].stage.ip
                  && s'.jobs[j].stage.launched == s.jobs[j].stage.launched)
  {}

  /** What a step brings about for `a` and `b`. */
  lemma JobComes(s: State, step: Step, j: JobId)
    requires Inv(s) && Enabled(s, step)
    ensures var s' := Apply(s, step);
            && (j in s'.jobs && j !in s.jobs ==> step == Begin(j) && s'.jobs[j] == Job(s'.now, Prepared))
            && (j in s'.jobs && s'.jobs[j].stage.HadContainer() && !(j in s.jobs && s.jobs[j].stage.HadContainer()) ==>
                  step.Launch? && step.job == j && InStage(s', j, true) && s'.jobs[j].stage.launched == s'.now)
  {}

  /** A run that ends in `s'` in place of `s`, for `step` one step further. */
  lemma CarriesNext(states: seq<State>, steps: seq<Step>, s: State, step: Step, a: JobId, b: JobId)
      returns (states': seq<State>, steps': seq<Step>)
    requires Run(states, steps) && Inv(s) && Enabled(s, step) && a != b
    requires Carries(states[|steps|], s, a, b)
    ensures Run(states', steps') && Carries(states'[|steps'|], Apply(s, step), a, b)
  {
    var next := Apply(s, step);
    StepKeepsInv(s, step);
    JobComes(s, step, a);
    JobComes(s, step, b);
    if b in s.jobs { JobStays(s, step, b); }
    if a in s.jobs && s.jobs[a].stage.HadContainer() {
      JobStays(s, step, a);
      states', steps' := CarriedAlong(states, steps, s, step, a, b);
    } else {
      var s';
      states', steps', s' := Extend(states, steps, step);
      if a in next.jobs && next.jobs[a].stage.HadContainer() {
        states', steps' := CarriedFirst(states', steps', next, a, b);
      }
    }
  }

  /** The container of `a` has just been launched. */
  lemma CarriedFirst(states: seq<State>, steps: seq<Step>, s: State, a: JobId, b: JobId)
      returns (states': seq<State>, steps': seq<Step>)
    requires Run(states, steps) && states[|steps|] == s && Inv(s)
    requires InStage(s, a, true) && s.jobs[a].stage.launched == s.now
    ensures Run(states', steps') && Carries(states'[|steps'|], s, a, b)
  {
    var s';
    states', steps', s' := Extend(states, steps, Open(a, Tcp));
    assert s' == Plus(s, Opened(a, s.jobs[a].stage.ip, Tcp));
    if b in s.jobs {
      states', steps' := StampedNow(states', steps', s, a, b);
    }
  }

  lemma StampedNow(states: seq<State>, steps: seq<Step>, s: State, a: JobId, b: JobId)
      returns (states': seq<State>, steps': seq<Step>)
    requires Inv(s) && a in s.jobs && s.jobs[a].stage.HadContainer() && b in s.jobs
    requires Run(states, steps) && states[|steps|] == Plus(s, Opened(a, s.jobs[a].stage.ip, Tcp))
    requires s.jobs[a].stage.launched == s.now || s.jobs[b].started == s.now
    ensures Run(states', steps') && Carries(states'[|steps'|], s, a, b)
  {
    var f := Opened(a, s.jobs[a].stage.ip, Tcp);
    assert TimesOrdered(s.jobs[a], s.now) && TimesOrdered(s.jobs[b], s.now);
    StampPlus(s, f);
    var s';
    states', steps', s' := Extend(states, steps, Stamp(f));
    assert s' == Plus(s, Extra(s, a, b, InStage(s, a, true)));
  }

  /** The extra flow is there already. */
  lemma CarriedAlong(states: seq<State>, steps: seq<Step>, s: State, step: Step, a: JobId, b: JobId)
      returns (states': seq<State>, steps': seq<Step>)
    requires Run(states, steps) && Inv(s) && Enabled(s, step) && a != b && Inv(Apply(s, step))
    requires a in s.jobs && s.jobs[a].stage.HadContainer() && Carries(states[|steps|], s, a, b)
    requires var next := Apply(s, step);
             && a in next.jobs && next.jobs[a].stage.HadContainer()
             && next.jobs[a].stage.ip == s.jobs[a].stage.ip && next.jobs[a].stage.launched == s.jobs[a].stage.launched
             && (b in s.jobs ==> b in next.jobs && next.jobs[b].started == s.jobs[b].started)
             && (b in next.jobs && b !in s.jobs ==> next.jobs[b].started == next.now)
    ensures Run(states', steps') && Carries(states'[|steps'|], Apply(s, step), a, b)
  {
    var next, s' := Apply(s, step), states[|steps|];
    if b in s.jobs {
      var live :| s' == Plus(s, Extra(s, a, b, live));
      PlusCommutes(s, Extra(s, a, b, live), step);
      states', steps', s' := Extend(states, steps, step);
      assert s' == Plus(next, Extra(next, a, b, live));
    } else {
      PlusCommutes(s, Opened(a, s.jobs[a].stage.ip, Tcp), step);
      states', steps', s' := Extend(states, steps, step);
      if b in next.jobs {
        states', steps' := StampedNow(states', steps', next, a, b);
      }
    }
  }

  lemma {:induction false} RunCarries(states: seq<State>, steps: seq<Step>, n: nat, a: JobId, b: JobId)
      returns (states': seq<State>, steps': seq<Step>)
    requires Run(states, steps) && n < |states| && a != b
    ensures Run(states', steps') && Carries(states'[|steps'|], states[n], a, b)
  {
    if n == 0 {
      states', steps' := [states[0]], [];
    } else {
      states', steps' := RunCarries(states, steps, n - 1, a, b);
      RunKeepsInv(states, steps, n - 1);
      assert StepAt(states, steps, n - 1);
      states', steps' := CarriesNext(states', steps', states[n - 1], steps[n - 1], a, b);
    }
  }

  /** If the windows of two finished jobs with one known address meet, then some run comes to exactly
      the same jobs and has logged a flow that both claim. */
  lemma MeetingWindowsShare(states: seq<State>, steps: seq<Step>, a: JobId, b: JobId)
    requires Run(states, steps) && a != b && IsFinished(states[|steps|], a) && IsFinished(states[|steps|], b)
    requires var job, other := states[|steps|].jobs[a], states[|steps|].jobs[b];
             job.stage.known && other.stage.known && Earlier(job, other) && SameIp(job, other) && !Apart(job, other)
    ensures CanShare(states[|steps|].jobs, a, b)
  {
    var s := states[|steps|];
    RunKeepsInv(states, steps, |steps|);
    assert TimesOrdered(s.jobs[a], s.now) && TimesOrdered(s.jobs[b], s.now);
    var states', steps' := RunCarries(states, steps, |steps|, a, b);
    var live :| states'[|steps'|] == Plus(s, Extra(s, a, b, live));
    var f := Extra(s, a, b, live);
    var s';
    states', steps', s' := Extend(states', steps', Append(f));
    assert s'.log[|s.log|] == f;
    assert Shares(states', steps', |s.log|, s.jobs, a, b);
  }

  /** Exactly when two finished jobs can claim one flow: no run that comes to the same jobs has such
      a flow in its log, unless they know one address and their windows meet; and then one has. */
  lemma SharedClaimExact(states: seq<State>, steps: seq<Step>, a: JobId, b: JobId)
    requires Run(states, steps) && a != b && IsFinished(states[|steps|], a) && IsFinished(states[|steps|], b)
    ensures var jobs := states[|steps|].jobs;
            CanShare(jobs, a, b) <==>
              jobs[a].stage.known && jobs[b].stage.known && SameIp(jobs[a], jobs[b]) && !Apart(jobs[a], jobs[b])
  {
    var s := states[|steps|];
    RunKeepsInv(states, steps, |steps|);
    if s.jobs[a].stage.known && s.jobs[b].stage.known && SameIp(s.jobs[a], s.jobs[b]) && !Apart(s.jobs[a], s.jobs[b]) {
      assert JobsInOrder(s);
      if Earlier(s.jobs[a], s.jobs[b]) {
        MeetingWindowsShare(states, steps, a, b);
      } else {
        MeetingWindowsShare(states, steps, b, a);
        SharingIsMutual(s.jobs, a, b);
      }
    }
  }

  lemma SharingIsMutual(jobs: map<JobId, Job>, a: JobId, b: JobId)
    requires CanShare(jobs, b, a)
    ensures CanShare(jobs, a, b)
  {
    var states, steps, i :| Shares(states, steps, i, jobs, b, a);
    assert Shares(states, steps, i, jobs, a, b);
  }

  // ---- one executor slot and a clock that moves between jobs

  ghost predicate OneSlot(s: State) {
    forall j, k :: j in s.jobs && k in s.jobs && !s.jobs[j].stage.Over() && !s.jobs[k].stage.Over() ==> j == k
  }

  ghost predicate FreshStart(s: State, step: Step) {
    step.Begin? ==> forall k :: k in s.jobs ==> s.jobs[k].stage.Over() && s.jobs[k].stage.finished < s.now
  }

  ghost predicate SerialRun(states: seq<State>, steps: seq<Step>) {
    Run(states, steps) && forall i :: 0 <= i < |steps| ==> FreshStart(states[i], steps[i])
  }

  ghost predicate WindowsApart(s: State) {
    && OneSlot(s)
    && forall j, k :: j in s.jobs && k in s.jobs && j != k ==>
         FinishedBefore(s.jobs[j], s.jobs[k]) || FinishedBefore(s.jobs[k], s.jobs[j])
  }

  ghost predicate FinishedBefore(a: Job, b: Job) {
    a.stage.Over() && a.stage.finished < b.started
  }

  lemma {:induction false} SerialWindowsApart(states: seq<State>, steps: seq<Step>, i: nat)
    requires SerialRun(states, steps) && i < |states|
    ensures WindowsApart(states[i])
  {
    if i > 0 {
      SerialWindowsApart(states, steps, i - 1);
      assert StepAt(states, steps, i - 1) && FreshStart(states[i - 1], steps[i - 1]);
      if steps[i - 1].Begin? {
        BeginKeepsApart(states[i - 1], steps[i - 1]);
      } else {
        StepKeepsApart(states[i - 1], steps[i - 1]);
      }
    }
  }

  lemma BeginKeepsApart(s: State, step: Step)
    requires WindowsApart(s) && Enabled(s, step) && FreshStart(s, step) && step.Begin?
    ensures WindowsApart(Apply(s, step))
  {
    var s' := Apply(s, step);
    forall k | k in s'.jobs && k != step.job ensures FinishedBefore(s'.jobs[k], s'.jobs[step.job]) {
      assert s'.jobs[k] == s.jobs[k];
    }
  }

  lemma StepKeepsApart(s: State, step: Step)
    requires WindowsApart(s) && Enabled(s, step) && !step.Begin?
    ensures WindowsApart(Apply(s, step))
  {
    var s' := Apply(s, step);
    forall j | j in s'.jobs ensures j in s.jobs && s'.jobs[j].started == s.jobs[j].started {}
    forall j | j in s'.jobs && s.jobs[j].stage.Over() ensures s'.jobs[j] == s.jobs[j] {}
  }

  /** With one job at a time and a clock that has moved on before the next starts, windows of one
      address are apart.  So a flow of a finished job goes to that job and to no other exactly
      when its address is known and the stamp was taken by its finish time, and a flow of a job that is
      still at work goes to nobody. */
  lemma SerialAttribution(states: seq<State>, steps: seq<Step>, n: nat, i: nat)
    requires SerialRun(states, steps) && n < |states|
    requires i < |states[n].log| && states[n].log[i].Stamped?
    ensures WindowsOfOneIpApart(states[n]) && states[n].log[i].owner in states[n].jobs
    ensures var s, f := states[n], states[n].log[i]; var own := s.jobs[f.owner];
            if own.stage.Finished? then
              RightlyClaimed(s, f) <==> own.stage.known && f.ts <= own.stage.finished
            else
              forall k :: IsFinished(s, k) ==> !Claims(s.jobs[k], f)
  {
    RunKeepsInv(states, steps, n);
    SerialWindowsApart(states, steps, n);
    var s, f := states[n], states[n].log[i];
    FinishedApart(s);
    assert FlowTrue(f, s);
    if s.jobs[f.owner].stage.Finished? {
      AttributionExact(states, steps, n, i);
    } else {
      forall k | IsFinished(s, k) ensures !Claims(s.jobs[k], f) {
        assert TimesOrdered(s.jobs[f.owner], s.now);
        assert FinishedBefore(s.jobs[k], s.jobs[f.owner]);
      }
    }
  }

  lemma FinishedApart(s: State)
    requires WindowsApart(s)
    ensures WindowsOfOneIpApart(s)
  {
    forall j, k | IsFinished(s, j) && IsFinished(s, k) && j != k ensures Apart(s.jobs[j], s.jobs[k]) {
      assert FinishedBefore(s.jobs[j], s.jobs[k]) || FinishedBefore(s.jobs[k], s.jobs[j]);
    }
  }

  // ---- what the collector then returns

  function LineOf(f: Flow): Line {
    Event(f.src, if f.Stamped? then Some(f.ts) else None, f.kind)
  }

  function Lines(log: seq<Flow>): (r: seq<Line>)
    ensures |r| == |log| && forall i :: 0 <= i < |log| ==> r[i] == LineOf(log[i])
  {
    seq(|log|, i requires 0 <= i < |log| => LineOf(log[i]))
  }

  /** What the collector selects for a finished job before its cap; nothing without an address. */
  function Collected(log: seq<Flow>, job: Job, kinds: set<Kind>): seq<Line>
    requires job.stage.Finished?
  {
    if !job.stage.known then []
    else Claimed(Lines(log), job.stage.ip, job.started, job.stage.finished, kinds)
  }

  /** Whatever the job: a logged flow of the right kind is among what is read for it exactly if the job
      claims the flow. */
  lemma CollectedIsClaimed(log: seq<Flow>, i: nat, job: Job, kinds: set<Kind>)
    requires i < |log| && log[i].Stamped? && job.stage.Finished?
    ensures LineOf(log[i]) in Collected(log, job, kinds) <==> Claims(job, log[i]) && log[i].kind in kinds
  {
    assert Lines(log)[i] == LineOf(log[i]);
    ClaimedExactly(Lines(log), job.stage.ip, job.started, job.stage.finished, kinds, LineOf(log[i]));
  }

  /** What the collector reads for a finished job from the log of that moment: an own flow of the
      right kind is among it exactly when the job knows its address and the flow was stamped by
      the job's finish time, as all live ones were. */
  lemma OwnFlowsAreCollected(states: seq<State>, steps: seq<Step>, n: nat, i: nat, kinds: set<Kind>)
    requires Run(states, steps) && n < |states|
    requires i < |states[n].log| && states[n].log[i].Stamped? && states[n].log[i].kind in kinds
    requires IsFinished(states[n], states[n].log[i].owner)
    ensures var f := states[n].log[i]; var job := states[n].jobs[f.owner];
            && (job.stage.known && f.ts <= job.stage.finished <==> LineOf(f) in Collected(states[n].log, job, kinds))
            && (f.live ==> f.ts <= job.stage.finished)
  {
    OwnFlowsPass(states, steps, n, i);
    CollectedIsClaimed(states[n].log, i, states[n].jobs[states[n].log[i].owner], kinds);
  }

  // ---- two slots, or a late stamp, are enough for a wrong claim

  /** Job 1 alone up to the point where its container runs and a second job, if any, has begun. */
  lemma RunningAlone(second: bool) returns (states: seq<State>, steps: seq<Step>, s: State)
    ensures Run(states, steps) && s == states[|steps|] && s.now == 2 && s.log == []
    ensures s.jobs == if second then map[1 := Job(0, Running("ip", 0)), 2 := Job(1, Prepared)]
                      else map[1 := Job(0, Running("ip", 0))]
    ensures s.inFlight == multiset{Opened(1, "ip", Tcp)}
  {
    states, steps := [State(0, map[], multiset{}, [])], [];
    states, steps, s := Extend(states, steps, Begin(1));
    states, steps, s := Extend(states, steps, Launch(1, "ip"));
    states, steps, s := Extend(states, steps, Tick(1));
    states, steps, s := Extend(states, steps, Open(1, Tcp));
    if second {
      states, steps, s := Extend(states, steps, Begin(2));
    }
    states, steps, s := Extend(states, steps, Tick(2));
  }

  /** Its flow is logged, and it finishes at time 3 while job 2 is still preparing. */
  lemma LoggedAlone() returns (states: seq<State>, steps: seq<Step>, s: State)
    ensures Run(states, steps) && s == states[|steps|] && s.now == 3
    ensures s.log == [Stamped(1, "ip", Tcp, 2, true)]
    ensures s.jobs == map[1 := Job(0, Finished("ip", 0, 3, 3, true)), 2 := Job(1, Prepared)]
  {
    states, steps, s := RunningAlone(true);
    states, steps, s := Extend(states, steps, Stamp(Opened(1, "ip", Tcp)));
    states, steps, s := Extend(states, steps, Append(Stamped(1, "ip", Tcp, 2, true)));
    states, steps, s := Extend(states, steps, Tick(3));
    states, steps, s := Extend(states, steps, Exit(1));
    states, steps, s := Extend(states, steps, Finish(1, true));
  }

  /** Its flow is still on its way when it finishes at time 2 and job 2 takes its address at time 3. */
  lemma FollowedByAnother() returns (states: seq<State>, steps: seq<Step>, s: State)
    ensures Run(states, steps) && s == states[|steps|] && s.now == 3 && s.log == []
    ensures s.jobs == map[1 := Job(0, Finished("ip", 0, 2, 2, true)), 2 := Job(3, Running("ip", 3))]
    ensures s.inFlight == multiset{Opened(1, "ip", Tcp)}
  {
    states, steps, s := RunningAlone(false);
    states, steps, s := Extend(states, steps, Exit(1));
    states, steps, s := Extend(states, steps, Finish(1, true));
    states, steps, s := Extend(states, steps, Tick(3));
    states, steps, s := Extend(states, steps, Begin(2));
    states, steps, s := Extend(states, steps, Launch(2, "ip"));
  }

  /** Two slots: job 2 begins at time 1 while job 1's container lives, and gets its address after
      it exits at time 3.  Job 1's flow, stamped at time 2 in its lifetime, is claimed by both. */
  lemma OverlapMisattributes() returns (states: seq<State>, steps: seq<Step>, s: State)
    ensures Run(states, steps) && s == states[|steps|]
    ensures s.log == [Stamped(1, "ip", Tcp, 2, true)]
    ensures 1 in s.jobs && s.jobs[1] == Job(0, Finished("ip", 0, 3, 3, true)) && Claims(s.jobs[1], s.log[0])
    ensures 2 in s.jobs && s.jobs[2] == Job(1, Finished("ip", 3, 4, 4, true)) && Claims(s.jobs[2], s.log[0])
  {
    states, steps, s := LoggedAlone();
    states, steps, s := Extend(states, steps, Launch(2, "ip"));
    states, steps, s := Extend(states, steps, Tick(4));
    states, steps, s := Extend(states, steps, Exit(2));
    states, steps, s := Extend(states, steps, Finish(2, true));
  }

  /** One slot, but a sink that stamps only after its read timed out: job 1 is over at time 2, job 2
      takes its address at time 3, and the flow stamped at time 4 goes to job 2 instead of job 1. */
  lemma LateStampMisattributes() returns (states: seq<State>, steps: seq<Step>, s: State)
    ensures Run(states, steps) && s == states[|steps|]
    ensures s.log == [Stamped(1, "ip", Tcp, 4, false)]
    ensures 1 in s.jobs && s.jobs[1] == Job(0, Finished("ip", 0, 2, 2, true)) && !Claims(s.jobs[1], s.log[0])
    ensures 2 in s.jobs && s.jobs[2] == Job(3, Finished("ip", 3, 5, 5, true)) && Claims(s.jobs[2], s.log[0])
  {
    states, steps, s := FollowedByAnother();
    states, steps, s := Extend(states, steps, Tick(4));
    states, steps, s := Extend(states, steps, Stamp(Opened(1, "ip", Tcp)));
    states, steps, s := Extend(states, steps, Append(Stamped(1, "ip", Tcp, 4, false)));
    states, steps, s := Extend(states, steps, Tick(5));
    states, steps, s := Extend(states, steps, Exit(2));
    states, steps, s := Extend(states, steps, Finish(2, true));
  }
}
