// The bounded worker pool that runs the jobs of a phase. The parent loop launches one
// goroutine per peer, taking a semaphore token first; a job ends well, or counts itself
// as missed, or sends its error to a buffered channel; it then returns the token and
// signs off. The parent waits for all, closes the channel and reports. Schedules
// interleave the parent, the jobs and an outside cancellation.

module WorkerPool {
  import opened Counting
  import opened NodeRun

  datatype Outcome = Fine | Late | Failed(error: int)

  datatype Job =
    | Waiting                        // not launched
    | Working                        // inside the job function
    | Reporting(error: int)          // about to send on the error channel
    | Releasing(outcome: Outcome)    // about to return the token
    | Leaving(outcome: Outcome)      // about to sign off
    | Over(outcome: Outcome)

  // The loop tests for a cancellation, then takes a token, then launches the job.
  datatype Parent = AtLoop | Acquiring | Holding | AtWait | Returned(error: Option<int>)

  // `tokens` are in the semaphore, `wg` is the wait group's counter.
  datatype Pool = Pool(
    jobs: seq<Job>, next: nat, parent: Parent, cancelled: bool,
    tokens: nat, wg: nat, errors: seq<int>, missed: nat)

  const CANCELLED: int := -1
  const DEADLINE: int := -2

  datatype Action = ParentStep | JobStep(j: nat, outcome: Outcome) | Cancel

  function Start(n: nat): Pool {
    Pool(seq(n, _ => Waiting), 0, AtLoop, false, 0, 0, [], 0)
  }

  // A step is enabled unless it would block: on a full semaphore, on a full channel, on
  // a wait group that is not zero.
  predicate Enabled(p: Pool, limit: nat, a: Action) {
    match a
    case Cancel => true
    case ParentStep =>
      (match p.parent
       case AtLoop => true
       case Acquiring => p.tokens < limit
       case Holding => p.next < |p.jobs|
       case AtWait => p.wg == 0
       case Returned(_) => false)
    case JobStep(j, _) =>
      && j < |p.jobs|
      && match p.jobs[j]
         case Waiting => false
         case Working => true
         case Reporting(_) => |p.errors| < |p.jobs|
         case Releasing(_) => p.tokens > 0
         case Leaving(_) => p.wg > 0
         case Over(_) => false
  }

  function Verdict(p: Pool): Option<int> {
    if p.errors != [] then Some(p.errors[0]) else if p.cancelled then Some(CANCELLED) else None
  }

  function Next(p: Pool, limit: nat, a: Action): Pool
    requires Enabled(p, limit, a)
  {
    match a
    case Cancel => p.(cancelled := true)
    case ParentStep =>
      (match p.parent
       case AtLoop =>
         if p.next == |p.jobs| || p.cancelled then p.(parent := AtWait) else p.(parent := Acquiring)
       case Acquiring => p.(parent := Holding, tokens := p.tokens + 1)
       case Holding => p.(parent := AtLoop, jobs := p.jobs[p.next := Working], next := p.next + 1, wg := p.wg + 1)
       case AtWait => p.(parent := Returned(Verdict(p)))
       case Returned(_) => p)
    case JobStep(j, outcome) => NextJob(p, j, outcome)
  }

  // A deadline error counts as missed unless the whole run was cancelled.
  function NextJob(p: Pool, j: nat, outcome: Outcome): Pool
    requires j < |p.jobs|
    requires p.jobs[j].Releasing? ==> p.tokens > 0
    requires p.jobs[j].Leaving? ==> p.wg > 0
  {
    match p.jobs[j]
    case Working =>
      if outcome.Failed? then p.(jobs := p.jobs[j := Reporting(outcome.error)])
      else if outcome.Late? && p.cancelled then p.(jobs := p.jobs[j := Reporting(DEADLINE)])
      else if outcome.Late? then p.(jobs := p.jobs[j := Releasing(Late)], missed := p.missed + 1)
      else p.(jobs := p.jobs[j := Releasing(Fine)])
    case Reporting(e) => p.(jobs := p.jobs[j := Releasing(Failed(e))], errors := p.errors + [e])
    case Releasing(o) => p.(jobs := p.jobs[j := Leaving(o)], tokens := p.tokens - 1)
    case Leaving(o) => p.(jobs := p.jobs[j := Over(o)], wg := p.wg - 1)
    case _ => p
  }

  // --- what is being counted ---

  function InFlight(): Job -> bool {
    (j: Job) => j.Working? || j.Reporting? || j.Releasing?
  }

  function Launched(): Job -> bool {
    (j: Job) => !j.Waiting?
  }

  function Unfinished(): Job -> bool {
    (j: Job) => !j.Waiting? && !j.Over?
  }

  predicate HasOutcome(j: Job) {
    j.Releasing? || j.Leaving? || j.Over?
  }

  function Failures(): Job -> bool {
    (j: Job) => HasOutcome(j) && j.outcome.Failed?
  }

  function Lates(): Job -> bool {
    (j: Job) => HasOutcome(j) && j.outcome.Late?
  }

  function Successes(): Job -> bool {
    (j: Job) => HasOutcome(j) && j.outcome.Fine?
  }

  // The pool's result: the first error sent, or else the cancellation, or else nothing if
  // every job was launched.
  predicate Reports(p: Pool, error: Option<int>) {
    if p.errors != [] then error == Some(p.errors[0])
    else (error == Some(CANCELLED) && p.cancelled) || (error == None && p.next == |p.jobs|)
  }

  predicate Ok(p: Pool, limit: nat) {
    && p.next <= |p.jobs| && p.tokens <= limit
    && (forall j :: 0 <= j < |p.jobs| ==> (p.jobs[j].Waiting? <==> j >= p.next))
    && p.tokens == CountIf(p.jobs, InFlight()) + (if p.parent.Holding? then 1 else 0)
    && p.wg == CountIf(p.jobs, Unfinished())
    && |p.errors| == CountIf(p.jobs, Failures())
    && p.missed == CountIf(p.jobs, Lates())
    && (p.parent.Acquiring? || p.parent.Holding? ==> p.next < |p.jobs|)
    && (p.parent.AtWait? || p.parent.Returned? ==> p.next == |p.jobs| || p.cancelled)
    && (p.parent.Returned? ==> p.wg == 0 && Reports(p, p.parent.error))
  }

  lemma NoneCounted(n: nat, jobs: seq<Job>, p: Job -> bool)
    requires forall j :: 0 <= j < |jobs| ==> !p(jobs[j])
    ensures CountIf(jobs, p) == 0
  {
    CountIfBounds(jobs, p);
  }

  lemma StartOk(n: nat, limit: nat)
    ensures Ok(Start(n), limit)
  {
    var jobs := Start(n).jobs;
    NoneCounted(n, jobs, InFlight());
    NoneCounted(n, jobs, Unfinished());
    NoneCounted(n, jobs, Failures());
    NoneCounted(n, jobs, Lates());
  }

  // Replacing job `j` by `x` changes the count of `p` by what those two contribute.
  predicate Moved(jobs: seq<Job>, j: nat, x: Job, p: Job -> bool)
    requires j < |jobs|
  {
    CountIf(jobs[j := x], p) == CountIf(jobs, p) - (if p(jobs[j]) then 1 else 0) + if p(x) then 1 else 0
  }

  lemma JobChange(jobs: seq<Job>, j: nat, x: Job)
    requires j < |jobs|
    ensures Moved(jobs, j, x, InFlight()) && Moved(jobs, j, x, Unfinished())
    ensures Moved(jobs, j, x, Failures()) && Moved(jobs, j, x, Lates())
  {
    CountIfUpdate(jobs, j, x, InFlight());
    CountIfUpdate(jobs, j, x, Unfinished());
    CountIfUpdate(jobs, j, x, Failures());
    CountIfUpdate(jobs, j, x, Lates());
  }

  lemma StepKeepsOk(p: Pool, limit: nat, a: Action)
    requires Ok(p, limit) && Enabled(p, limit, a)
    ensures Ok(Next(p, limit, a), limit)
  {
    hide CountIf;
    match a
    case Cancel =>
    case ParentStep =>
      if p.parent.Holding? {
        JobChange(p.jobs, p.next, Working);
      }
    case JobStep(j, outcome) =>
      CountIfBounds(p.jobs, Unfinished());
      assert Unfinished()(p.jobs[j]);
      JobStepWork(p, j, outcome);
      JobChange(p.jobs, j, NextJob(p, j, outcome).jobs[j]);
  }

  // --- main results ---

  ghost predicate IsExecution(p: Pool, limit: nat, schedule: seq<Action>)
    decreases |schedule|
  {
    schedule != [] ==> Enabled(p, limit, schedule[0]) && IsExecution(Next(p, limit, schedule[0]), limit, schedule[1..])
  }

  ghost function Execute(p: Pool, limit: nat, schedule: seq<Action>): Pool
    requires IsExecution(p, limit, schedule)
    decreases |schedule|
  {
    if schedule == [] then p else Execute(Next(p, limit, schedule[0]), limit, schedule[1..])
  }

  lemma {:induction false} AlwaysOk(p: Pool, limit: nat, schedule: seq<Action>)
    requires Ok(p, limit) && IsExecution(p, limit, schedule)
    ensures Ok(Execute(p, limit, schedule), limit) && |Execute(p, limit, schedule).jobs| == |p.jobs|
    decreases |schedule|
  {
    hide Ok;
    if schedule != [] {
      StepKeepsOk(p, limit, schedule[0]);
      AlwaysOk(Next(p, limit, schedule[0]), limit, schedule[1..]);
    }
  }

  // Never more than `limit` jobs are in flight.
  lemma BoundedParallelism(n: nat, limit: nat, schedule: seq<Action>)
    requires IsExecution(Start(n), limit, schedule)
    ensures CountIf(Execute(Start(n), limit, schedule).jobs, InFlight()) <= limit
  {
    StartOk(n, limit);
    AlwaysOk(Start(n), limit, schedule);
  }

  // With at least one worker some step other than a cancellation is always possible until
  // the pool returns: nobody waits for a token, a channel slot or the wait group forever.
  lemma NoDeadlock(p: Pool, limit: nat)
    requires Ok(p, limit) && limit >= 1 && !p.parent.Returned?
    ensures exists a :: a != Cancel && Enabled(p, limit, a)
  {
    if Enabled(p, limit, ParentStep) {
    } else if p.parent.Acquiring? {
      CountIfBounds(p.jobs, InFlight());
      var j :| 0 <= j < |p.jobs| && InFlight()(p.jobs[j]);
      JobCanStep(p, limit, j);
      assert Enabled(p, limit, JobStep(j, Fine));
    } else {
      CountIfBounds(p.jobs, Unfinished());
      var j :| 0 <= j < |p.jobs| && Unfinished()(p.jobs[j]);
      JobCanStep(p, limit, j);
      assert Enabled(p, limit, JobStep(j, Fine));
    }
  }

  lemma JobCanStep(p: Pool, limit: nat, j: nat)
    requires Ok(p, limit) && j < |p.jobs| && Unfinished()(p.jobs[j])
    ensures Enabled(p, limit, JobStep(j, Fine))
  {
    CountIfBounds(p.jobs, InFlight());
    CountIfBounds(p.jobs, Unfinished());
    CountIfBounds(p.jobs, Failures());
    assert !Failures()(p.jobs[j]) || !p.jobs[j].Reporting?;
  }

  // When the pool has returned, every launched job is accounted for exactly once, as
  // missed, failed or successful; without a cancellation every job was launched; and the
  // error returned is the first one sent, or else a cancellation, or else none.
  lemma ReturnAccountsForAll(n: nat, limit: nat, schedule: seq<Action>)
    requires IsExecution(Start(n), limit, schedule) && Execute(Start(n), limit, schedule).parent.Returned?
    ensures var p := Execute(Start(n), limit, schedule);
            && |p.jobs| == n
            && p.missed + |p.errors| + CountIf(p.jobs, Successes()) == CountIf(p.jobs, Launched()) == p.next
            && (forall j :: 0 <= j < n ==> if j < p.next then p.jobs[j].Over? else p.jobs[j].Waiting?)
            && (!p.cancelled ==> p.next == n)
            && Reports(p, p.parent.error)
  {
    StartOk(n, limit);
    AlwaysOk(Start(n), limit, schedule);
    var p := Execute(Start(n), limit, schedule);
    hide Execute;
    CountIfBounds(p.jobs, Unfinished());
    forall j | 0 <= j < n ensures if j < p.next then p.jobs[j].Over? else p.jobs[j].Waiting? {
      assert !Unfinished()(p.jobs[j]);
    }
    OutcomesPartition(p.jobs);
    LaunchedPrefix(p.jobs, p.next);
  }

  lemma OutcomesPartition(jobs: seq<Job>)
    requires forall j :: 0 <= j < |jobs| ==> jobs[j].Over? || jobs[j].Waiting?
    ensures CountIf(jobs, Lates()) + CountIf(jobs, Failures()) + CountIf(jobs, Successes()) == CountIf(jobs, Launched())
  {
    if jobs != [] {
      OutcomesPartition(jobs[..|jobs| - 1]);
    }
  }

  lemma LaunchedPrefix(jobs: seq<Job>, n: nat)
    requires n <= |jobs| && forall j :: 0 <= j < |jobs| ==> (jobs[j].Waiting? <==> j >= n)
    ensures CountIf(jobs, Launched()) == n
  {
    if jobs != [] {
      LaunchedPrefix(jobs[..|jobs| - 1], if n == |jobs| then n - 1 else n);
    }
  }

  // Each step of the parent or a job brings the pool closer to its end.
  function JobWork(j: Job): int {
    match j
    case Waiting => 7
    case Working => 4
    case Reporting(_) => 3
    case Releasing(_) => 2
    case Leaving(_) => 1
    case Over(_) => 0
  }

  function ParentWork(p: Parent): nat {
    match p
    case AtLoop => 2
    case Acquiring => 1
    case Holding => 0
    case AtWait => 1
    case Returned(_) => 0
  }

  function JobWorks(jobs: seq<Job>): seq<int> {
    seq(|jobs|, j requires 0 <= j < |jobs| => JobWork(jobs[j]))
  }

  function Work(p: Pool): int {
    Sum(JobWorks(p.jobs)) + ParentWork(p.parent)
  }

  lemma WorkChange(jobs: seq<Job>, j: nat, x: Job)
    requires j < |jobs|
    ensures Sum(JobWorks(jobs[j := x])) == Sum(JobWorks(jobs)) - JobWork(jobs[j]) + JobWork(x)
  {
    SumUpdate(JobWorks(jobs), j, JobWork(x));
    assert JobWorks(jobs[j := x]) == JobWorks(jobs)[j := JobWork(x)];
  }

  lemma WorkBounds(p: Pool)
    ensures 0 <= Work(p) <= 7 * |p.jobs| + 2
  {
    SumBounds(JobWorks(p.jobs), 7);
  }

  lemma JobStepWork(p: Pool, j: nat, outcome: Outcome)
    requires j < |p.jobs| && !p.jobs[j].Waiting? && !p.jobs[j].Over?
    requires (p.jobs[j].Releasing? ==> p.tokens > 0) && (p.jobs[j].Leaving? ==> p.wg > 0)
    ensures var p' := NextJob(p, j, outcome);
            && p'.parent == p.parent && |p'.jobs| == |p.jobs| && p'.jobs == p.jobs[j := p'.jobs[j]]
            && JobWork(p'.jobs[j]) < JobWork(p.jobs[j])
  {
  }

  lemma StepsFinish(p: Pool, limit: nat, a: Action)
    requires Ok(p, limit) && Enabled(p, limit, a)
    ensures if a.Cancel? then Work(Next(p, limit, a)) == Work(p) else Work(Next(p, limit, a)) < Work(p)
  {
    assert p.parent.Holding? ==> p.jobs[p.next].Waiting?;
    hide Ok;
    hide Sum;
    hide JobWorks;
    match a
    case Cancel =>
    case ParentStep =>
      if p.parent.Holding? {
        WorkChange(p.jobs, p.next, Working);
      }
    case JobStep(j, outcome) =>
      JobStepWork(p, j, outcome);
      hide NextJob;
      WorkChange(p.jobs, j, NextJob(p, j, outcome).jobs[j]);
  }

  function Progress(): Action -> bool {
    (a: Action) => !a.Cancel?
  }

  // So whenever it is cancelled, however often, an execution has at most 7 n + 2 steps of
  // the parent and the jobs.
  lemma {:induction false} PoolTerminates(p: Pool, limit: nat, schedule: seq<Action>)
    requires Ok(p, limit) && IsExecution(p, limit, schedule)
    ensures CountIf(schedule, Progress()) <= Work(p) <= 7 * |p.jobs| + 2
    decreases |schedule|
  {
    WorkBounds(p);
    if schedule != [] {
      var a := schedule[0];
      StepsFinish(p, limit, a);
      StepKeepsOk(p, limit, a);
      PoolTerminates(Next(p, limit, a), limit, schedule[1..]);
      assert schedule == [a] + schedule[1..];
      CountIfConcat([a], schedule[1..], Progress());
      CountIfSingle(a, Progress());
    }
    hide CountIf;
    hide Work;
    hide Ok;
  }

  // --- what the pool reports against what the jobs did ---

  // The end of a job's function: its outcome, and whether the run was cancelled by then.
  datatype End = End(job: nat, outcome: Outcome, cancelled: bool)

  // The ends in the order in which they happened, the jobs that sent their error in that
  // order, and whether there was a cancellation: all read off the schedule.
  datatype Log = Log(ends: seq<End>, sends: seq<nat>, cancelled: bool)

  const NOTHING := Log([], [], false)

  function Record(p: Pool, a: Action, log: Log): Log {
    match a
    case Cancel => log.(cancelled := true)
    case ParentStep => log
    case JobStep(j, outcome) =>
      if j >= |p.jobs| then log
      else if p.jobs[j].Working? then log.(ends := log.ends + [End(j, outcome, log.cancelled)])
      else if p.jobs[j].Reporting? then log.(sends := log.sends + [j])
      else log
  }

  ghost function Observed(p: Pool, limit: nat, schedule: seq<Action>, log: Log): Log
    requires IsExecution(p, limit, schedule)
    decreases |schedule|
  {
    if schedule == [] then log
    else Observed(Next(p, limit, schedule[0]), limit, schedule[1..], Record(p, schedule[0], log))
  }

  // The error that an end calls for: its own, or the deadline if the run was cancelled.
  function ErrorOf(e: End): Option<int> {
    match e.outcome
    case Failed(x) => Some(x)
    case Late => if e.cancelled then Some(DEADLINE) else None
    case Fine => None
  }

  function IsMissed(): End -> bool {
    (e: End) => e.outcome.Late? && !e.cancelled
  }

  // The state of a job fits the end of its function.
  predicate Fits(job: Job, e: End) {
    match job
    case Waiting => false
    case Working => false
    case Reporting(x) => ErrorOf(e) == Some(x)
    case Releasing(o) => FitsOutcome(o, e)
    case Leaving(o) => FitsOutcome(o, e)
    case Over(o) => FitsOutcome(o, e)
  }

  predicate FitsOutcome(o: Outcome, e: End) {
    match ErrorOf(e)
    case Some(x) => o == Failed(x)
    case None => o == e.outcome
  }

  predicate HasEnded(log: Log, j: int) {
    exists x :: 0 <= x < |log.ends| && log.ends[x].job == j
  }

  ghost predicate EndsOk(p: Pool, log: Log) {
    && (forall x, y :: 0 <= x < y < |log.ends| ==> log.ends[x].job != log.ends[y].job)
    && (forall x :: 0 <= x < |log.ends| ==> log.ends[x].job < |p.jobs| && Fits(p.jobs[log.ends[x].job], log.ends[x]))
    && (forall j :: 0 <= j < |p.jobs| && !p.jobs[j].Waiting? && !p.jobs[j].Working? ==> HasEnded(log, j))
  }

  // The error channel holds the errors of the senders in order, each sent once.
  ghost predicate SendsOk(p: Pool, log: Log) {
    && |p.errors| == |log.sends|
    && (forall y :: 0 <= y < |log.sends| ==>
          log.sends[y] < |p.jobs| && Sent(p.jobs[log.sends[y]], p.errors[y]))
    && (forall y, z :: 0 <= y < z < |log.sends| ==> log.sends[y] != log.sends[z])
    && (forall j :: 0 <= j < |p.jobs| && FailedWith(p.jobs[j]) ==> j in log.sends)
  }

  predicate Sent(job: Job, error: int) {
    HasOutcome(job) && job.outcome == Failed(error)
  }

  ghost predicate Told(p: Pool, log: Log) {
    EndsOk(p, log) && SendsOk(p, log) && MissedOk(p, log)
  }

  // A job moves on without ending its function.
  lemma EndsMove(p: Pool, p': Pool, log: Log, log': Log, j: nat)
    requires EndsOk(p, log) && j < |p.jobs| == |p'.jobs| && log'.ends == log.ends
    requires forall y :: 0 <= y < |p.jobs| && y != j ==> p'.jobs[y] == p.jobs[y]
    requires forall e: End :: Fits(p.jobs[j], e) ==> Fits(p'.jobs[j], e)
    requires p.jobs[j].Waiting? || p.jobs[j].Working? ==> p'.jobs[j].Waiting? || p'.jobs[j].Working?
    ensures EndsOk(p', log')
  {
    forall y | 0 <= y < |p'.jobs| && !p'.jobs[y].Waiting? && !p'.jobs[y].Working? ensures HasEnded(log', y) {
      assert HasEnded(log, y);
    }
    hide Fits;
  }

  // A job ends its function.
  lemma EndsAppend(p: Pool, p': Pool, log: Log, log': Log, e: End)
    requires EndsOk(p, log) && e.job < |p.jobs| == |p'.jobs| && log'.ends == log.ends + [e]
    requires forall y :: 0 <= y < |p.jobs| && y != e.job ==> p'.jobs[y] == p.jobs[y]
    requires p.jobs[e.job].Working? && Fits(p'.jobs[e.job], e)
    ensures EndsOk(p', log')
  {
    assert forall x :: 0 <= x < |log.ends| ==> log'.ends[x] == log.ends[x] && log.ends[x].job != e.job;
    forall y | 0 <= y < |p'.jobs| && !p'.jobs[y].Waiting? && !p'.jobs[y].Working? ensures HasEnded(log', y) {
      if y == e.job {
        assert log'.ends[|log.ends|].job == y;
      } else {
        assert HasEnded(log, y);
        var x :| 0 <= x < |log.ends| && log.ends[x].job == y;
        assert log'.ends[x].job == y;
      }
    }
  }

  lemma EndsStep(p: Pool, limit: nat, a: Action, log: Log)
    requires Enabled(p, limit, a) && EndsOk(p, log) && p.cancelled == log.cancelled
    requires a.ParentStep? && p.parent.Holding? ==> p.jobs[p.next].Waiting?
    ensures EndsOk(Next(p, limit, a), Record(p, a, log))
  {
    var p', log' := Next(p, limit, a), Record(p, a, log);
    if a.JobStep? && p.jobs[a.j].Working? {
      EndsAppend(p, p', log, log', End(a.j, a.outcome, log.cancelled));
    } else if a.JobStep? {
      EndsMove(p, p', log, log', a.j);
    } else if a.ParentStep? && p.parent.Holding? {
      EndsMove(p, p', log, log', p.next);
    } else {
      assert p'.jobs == p.jobs && log'.ends == log.ends;
      assert forall j :: HasEnded(log', j) == HasEnded(log, j);
    }
    hide EndsOk;
    hide HasEnded;
  }

  predicate FailedWith(job: Job) {
    HasOutcome(job) && job.outcome.Failed?
  }

  // A job moves on without sending.
  lemma SendsMove(p: Pool, p': Pool, log: Log, log': Log, j: nat)
    requires SendsOk(p, log) && j < |p.jobs| == |p'.jobs| && log'.sends == log.sends && p'.errors == p.errors
    requires forall y :: 0 <= y < |p.jobs| && y != j ==> p'.jobs[y] == p.jobs[y]
    requires forall e: int :: Sent(p.jobs[j], e) ==> Sent(p'.jobs[j], e)
    requires FailedWith(p'.jobs[j]) ==> FailedWith(p.jobs[j])
    ensures SendsOk(p', log')
  {
    hide Sent;
    hide FailedWith;
  }

  lemma SendsAppend(p: Pool, p': Pool, log: Log, log': Log, j: nat, e: int)
    requires SendsOk(p, log) && j < |p.jobs| == |p'.jobs|
    requires log'.sends == log.sends + [j] && p'.errors == p.errors + [e]
    requires forall y :: 0 <= y < |p.jobs| && y != j ==> p'.jobs[y] == p.jobs[y]
    requires p.jobs[j].Reporting? && Sent(p'.jobs[j], e)
    ensures SendsOk(p', log')
  {
    assert forall y :: 0 <= y < |log.sends| ==> log.sends[y] != j;
    assert log'.sends[|log.sends|] == j;
    assert forall y :: y in log.sends ==> y in log'.sends;
    hide Sent;
    hide FailedWith;
  }

  lemma SendsStep(p: Pool, limit: nat, a: Action, log: Log)
    requires Enabled(p, limit, a) && SendsOk(p, log)
    requires a.ParentStep? && p.parent.Holding? ==> p.jobs[p.next].Waiting?
    ensures SendsOk(Next(p, limit, a), Record(p, a, log))
  {
    var p', log' := Next(p, limit, a), Record(p, a, log);
    if a.JobStep? && p.jobs[a.j].Reporting? {
      SendsAppend(p, p', log, log', a.j, p.jobs[a.j].error);
    } else if a.JobStep? {
      SendsMove(p, p', log, log', a.j);
    } else if a.ParentStep? && p.parent.Holding? {
      SendsMove(p, p', log, log', p.next);
    } else {
      assert p'.jobs == p.jobs && log'.sends == log.sends && p'.errors == p.errors;
    }
    hide SendsOk;
  }

  ghost predicate MissedOk(p: Pool, log: Log) {
    p.missed == CountIf(log.ends, IsMissed()) && p.cancelled == log.cancelled
  }

  lemma MissedStep(p: Pool, limit: nat, a: Action, log: Log)
    requires Enabled(p, limit, a) && MissedOk(p, log)
    ensures MissedOk(Next(p, limit, a), Record(p, a, log))
  {
    hide CountIf;
    if a.JobStep? && p.jobs[a.j].Working? {
      var e := End(a.j, a.outcome, log.cancelled);
      CountIfConcat(log.ends, [e], IsMissed());
      CountIfSingle(e, IsMissed());
    }
  }

  lemma NextIsWaiting(p: Pool, limit: nat)
    requires Ok(p, limit) && p.next < |p.jobs|
    ensures p.jobs[p.next].Waiting?
  {
    hide CountIf;
  }

  lemma ToldStep(p: Pool, limit: nat, a: Action, log: Log)
    requires Ok(p, limit) && Enabled(p, limit, a) && Told(p, log)
    ensures Told(Next(p, limit, a), Record(p, a, log))
  {
    if a.ParentStep? && p.parent.Holding? {
      NextIsWaiting(p, limit);
    }
    assert p.cancelled == log.cancelled;
    hide Ok;
    hide EndsOk;
    hide SendsOk;
    hide MissedOk;
    hide Next;
    hide Record;
    EndsStep(p, limit, a, log);
    SendsStep(p, limit, a, log);
    MissedStep(p, limit, a, log);
  }

  lemma {:induction false} AlwaysTold(p: Pool, limit: nat, schedule: seq<Action>, log: Log)
    requires Ok(p, limit) && IsExecution(p, limit, schedule) && Told(p, log)
    ensures Told(Execute(p, limit, schedule), Observed(p, limit, schedule, log))
    decreases |schedule|
  {
    if schedule != [] {
      StepKeepsOk(p, limit, schedule[0]);
      ToldStep(p, limit, schedule[0], log);
      AlwaysTold(Next(p, limit, schedule[0]), limit, schedule[1..], Record(p, schedule[0], log));
    }
    hide Ok;
    hide Told;
  }

  lemma StartTold(n: nat)
    ensures Told(Start(n), NOTHING)
  {
  }

  // The error of the end of job `j`'s function is `error`.
  predicate EndedWith(log: Log, j: int, error: int) {
    exists x :: 0 <= x < |log.ends| && log.ends[x].job == j && ErrorOf(log.ends[x]) == Some(error)
  }

  predicate NoneCancelled(log: Log) {
    !log.cancelled && forall x :: 0 <= x < |log.ends| ==> !log.ends[x].cancelled
  }

  lemma {:induction false} NeverCancelled(p: Pool, limit: nat, schedule: seq<Action>, log: Log)
    requires IsExecution(p, limit, schedule) && Cancel !in schedule && NoneCancelled(log)
    ensures NoneCancelled(Observed(p, limit, schedule, log))
    decreases |schedule|
  {
    if schedule != [] {
      assert schedule[0] != Cancel;
      assert NoneCancelled(Record(p, schedule[0], log));
      NeverCancelled(Next(p, limit, schedule[0]), limit, schedule[1..], Record(p, schedule[0], log));
    }
    hide NoneCancelled;
  }

  function IsLate(): End -> bool {
    (e: End) => e.outcome.Late?
  }

  // Without a cancellation the missed counter is the number of jobs that hit the deadline.
  lemma MissedAreTheLate(n: nat, limit: nat, schedule: seq<Action>)
    requires IsExecution(Start(n), limit, schedule) && Execute(Start(n), limit, schedule).parent.Returned?
    requires Cancel !in schedule
    ensures Execute(Start(n), limit, schedule).missed
         == CountIf(Observed(Start(n), limit, schedule, NOTHING).ends, IsLate())
  {
    NeverCancelled(Start(n), limit, schedule, NOTHING);
    PoolReportsTheTruth(n, limit, schedule);
    CountIfCongruent(Observed(Start(n), limit, schedule, NOTHING).ends, IsLate(), IsMissed());
    hide Execute;
    hide Observed;
    hide IsExecution;
  }

  // When the pool has returned, each launched job's function ended once; the missed counter
  // is the number of ends by the deadline; every end with an error sent it, once and only
  // it; and the error returned is that of the job that sent first.
  lemma PoolReportsTheTruth(n: nat, limit: nat, schedule: seq<Action>)
    requires IsExecution(Start(n), limit, schedule) && Execute(Start(n), limit, schedule).parent.Returned?
    ensures var p, log := Execute(Start(n), limit, schedule), Observed(Start(n), limit, schedule, NOTHING);
            && |p.jobs| == n && p.next <= n
            && (forall j :: 0 <= j < n ==> (HasEnded(log, j) <==> j < p.next))
            && (forall x, y :: 0 <= x < y < |log.ends| ==> log.ends[x].job != log.ends[y].job)
            && p.missed == CountIf(log.ends, IsMissed())
            && (forall x :: 0 <= x < |log.ends| && ErrorOf(log.ends[x]).Some? ==> log.ends[x].job in log.sends)
            && (forall y, z :: 0 <= y < z < |log.sends| ==> log.sends[y] != log.sends[z])
            && |p.errors| == |log.sends|
            && (forall y :: 0 <= y < |log.sends| ==> EndedWith(log, log.sends[y], p.errors[y]))
            && (log.sends != [] ==> p.parent.error == Some(p.errors[0]))
  {
    StartOk(n, limit);
    StartTold(n);
    AlwaysOk(Start(n), limit, schedule);
    AlwaysTold(Start(n), limit, schedule, NOTHING);
    ReturnAccountsForAll(n, limit, schedule);
    var p, log := Execute(Start(n), limit, schedule), Observed(Start(n), limit, schedule, NOTHING);
    hide Execute;
    hide Observed;
    hide Ok;
    TruthAtReturn(p, log);
  }

  lemma TruthAtReturn(p: Pool, log: Log)
    requires Told(p, log) && p.next <= |p.jobs|
    requires forall j :: 0 <= j < |p.jobs| ==> if j < p.next then p.jobs[j].Over? else p.jobs[j].Waiting?
    ensures forall j :: 0 <= j < |p.jobs| ==> (HasEnded(log, j) <==> j < p.next)
    ensures forall x :: 0 <= x < |log.ends| && ErrorOf(log.ends[x]).Some? ==> log.ends[x].job in log.sends
    ensures forall y :: 0 <= y < |log.sends| ==> EndedWith(log, log.sends[y], p.errors[y])
  {
    forall y | 0 <= y < |log.sends| ensures EndedWith(log, log.sends[y], p.errors[y]) {
      var j := log.sends[y];
      assert Sent(p.jobs[j], p.errors[y]) && HasEnded(log, j);
      var x :| 0 <= x < |log.ends| && log.ends[x].job == j;
      assert Fits(p.jobs[j], log.ends[x]);
    }
    forall x | 0 <= x < |log.ends| && ErrorOf(log.ends[x]).Some? ensures log.ends[x].job in log.sends {
      assert Fits(p.jobs[log.ends[x].job], log.ends[x]) && FailedWith(p.jobs[log.ends[x].job]);
    }
  }

  // --- the same, step by step of the schedule ---

  lemma {:induction false} ExecutionSplits(p: Pool, limit: nat, a: seq<Action>, b: seq<Action>, log: Log)
    requires IsExecution(p, limit, a + b)
    ensures IsExecution(p, limit, a) && IsExecution(Execute(p, limit, a), limit, b)
    ensures Execute(p, limit, a + b) == Execute(Execute(p, limit, a), limit, b)
    ensures Observed(p, limit, a + b, log) == Observed(Execute(p, limit, a), limit, b, Observed(p, limit, a, log))
    decreases |a|
  {
    if a == [] {
      assert a + b == b;
    } else {
      assert (a + b)[0] == a[0] && (a + b)[1..] == a[1..] + b;
      ExecutionSplits(Next(p, limit, a[0]), limit, a[1..], b, Record(p, a[0], log));
    }
  }

  lemma {:induction false} LogGrows(p: Pool, limit: nat, schedule: seq<Action>, log: Log)
    requires IsExecution(p, limit, schedule)
    ensures log.ends <= Observed(p, limit, schedule, log).ends
    ensures Observed(p, limit, schedule, log).cancelled <==> log.cancelled || Cancel in schedule
    decreases |schedule|
  {
    if schedule != [] {
      LogGrows(Next(p, limit, schedule[0]), limit, schedule[1..], Record(p, schedule[0], log));
      assert schedule == [schedule[0]] + schedule[1..];
    }
  }

  // Step `x` of the schedule is the end of the function of job `j`, with this outcome.
  ghost predicate EndsAt(n: nat, limit: nat, schedule: seq<Action>, x: nat, j: nat, outcome: Outcome)
    requires IsExecution(Start(n), limit, schedule)
  {
    && x < |schedule| && schedule[x] == JobStep(j, outcome)
    && IsExecution(Start(n), limit, schedule[..x])
    && j < |Execute(Start(n), limit, schedule[..x]).jobs|
    && Execute(Start(n), limit, schedule[..x]).jobs[j].Working?
  }

  lemma EndIsLogged(n: nat, limit: nat, schedule: seq<Action>, x: nat, j: nat, outcome: Outcome)
    requires IsExecution(Start(n), limit, schedule) && EndsAt(n, limit, schedule, x, j, outcome)
    ensures End(j, outcome, Cancel in schedule[..x]) in Observed(Start(n), limit, schedule, NOTHING).ends
  {
    var a, b := schedule[..x], schedule[x..];
    assert schedule == a + b && b[0] == schedule[x];
    ExecutionSplits(Start(n), limit, a, b, NOTHING);
    var p, log := Execute(Start(n), limit, a), Observed(Start(n), limit, a, NOTHING);
    LogGrows(Start(n), limit, a, NOTHING);
    var log' := Record(p, b[0], log);
    assert log'.ends[|log.ends|] == End(j, outcome, Cancel in a);
    LogGrows(Next(p, limit, b[0]), limit, b[1..], log');
    assert log'.ends <= Observed(p, limit, b, log).ends;
    assert Observed(p, limit, b, log).ends[|log.ends|] == End(j, outcome, Cancel in a);
    hide Execute;
  }

  // A job whose function fails has its error sent, and the pool does not report success;
  // the same holds for a job that misses the deadline after a cancellation.
  lemma FailureIsReported(n: nat, limit: nat, schedule: seq<Action>, x: nat, j: nat, outcome: Outcome)
    requires IsExecution(Start(n), limit, schedule) && Execute(Start(n), limit, schedule).parent.Returned?
    requires EndsAt(n, limit, schedule, x, j, outcome)
    requires outcome.Failed? || (outcome.Late? && Cancel in schedule[..x])
    ensures var p := Execute(Start(n), limit, schedule);
            && p.parent.error.Some?
            && (if outcome.Failed? then outcome.error else DEADLINE) in p.errors
  {
    EndIsLogged(n, limit, schedule, x, j, outcome);
    PoolReportsTheTruth(n, limit, schedule);
    var p, log := Execute(Start(n), limit, schedule), Observed(Start(n), limit, schedule, NOTHING);
    var e := End(j, outcome, Cancel in schedule[..x]);
    hide Execute;
    hide Observed;
    var z :| 0 <= z < |log.ends| && log.ends[z] == e;
    var y :| 0 <= y < |log.sends| && log.sends[y] == j;
    assert EndedWith(log, j, p.errors[y]);
    var z' :| 0 <= z' < |log.ends| && log.ends[z'].job == j && ErrorOf(log.ends[z']) == Some(p.errors[y]);
    assert z == z';
  }

  // The pool that returns in its last step reports success exactly if nothing was cancelled
  // before and no job's function ended with an error.
  lemma SuccessExactly(n: nat, limit: nat, init: seq<Action>)
    requires IsExecution(Start(n), limit, init + [ParentStep])
    requires Execute(Start(n), limit, init + [ParentStep]).parent.Returned?
    ensures var schedule := init + [ParentStep];
            var p, log := Execute(Start(n), limit, schedule), Observed(Start(n), limit, schedule, NOTHING);
            p.parent.error == None
            <==> Cancel !in init && forall x :: 0 <= x < |log.ends| ==> ErrorOf(log.ends[x]).None?
  {
    var s0, schedule := Start(n), init + [ParentStep];
    ExecutionSplits(s0, limit, init, [ParentStep], NOTHING);
    var q := Execute(s0, limit, init);
    var p, log := Execute(s0, limit, schedule), Observed(s0, limit, schedule, NOTHING);
    ReturningStep(q, limit);
    LogGrows(s0, limit, init, NOTHING);
    StartOk(n, limit);
    StartTold(n);
    AlwaysTold(s0, limit, init, NOTHING);
    PoolReportsTheTruth(n, limit, schedule);
    hide Execute;
    hide Observed;
    hide IsExecution;
    hide Told;
    hide ErrorOf;
    assert q.cancelled <==> Cancel in init by {
      assert Told(q, Observed(s0, limit, init, NOTHING));
      hide *;
      ToldCancelled(q, Observed(s0, limit, init, NOTHING));
    }
  }

  lemma ToldCancelled(p: Pool, log: Log)
    requires Told(p, log)
    ensures p.cancelled == log.cancelled
  {
    hide CountIf;
  }

  lemma ReturningStep(q: Pool, limit: nat)
    requires IsExecution(q, limit, [ParentStep]) && Execute(q, limit, [ParentStep]).parent.Returned?
    ensures var p := Execute(q, limit, [ParentStep]);
            && p == q.(parent := p.parent)
            && (p.parent.error == None <==> q.errors == [] && !q.cancelled)
  {
    assert [ParentStep][1..] == [];
    assert Execute(q, limit, [ParentStep]) == Next(q, limit, ParentStep);
  }

  // After a cancellation the parent launches at most the one job whose test came before it.
  lemma {:induction false} CancelStopsLaunching(p: Pool, limit: nat, schedule: seq<Action>)
    requires IsExecution(p, limit, schedule) && p.cancelled
    ensures var p' := Execute(p, limit, schedule);
            p'.next <= p.next + if p.parent.Acquiring? || p.parent.Holding? then 1 else 0
    decreases |schedule|
  {
    if schedule != [] {
      CancelStopsLaunching(Next(p, limit, schedule[0]), limit, schedule[1..]);
    }
  }
}
