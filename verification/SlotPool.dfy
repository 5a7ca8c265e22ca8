// The port-slot allocator of the grid runner. Task threads take a slot number from a
// shared queue, run a simulation on the ports of that slot, and put the slot back
// whether or not the run raised an exception. Schedules interleave the threads.

module SlotPool {
  import opened Counting

  const PORT_BASE: int := 20000
  const PORT_STRIDE: int := 200

  datatype Task = Queued | Running(slot: int) | Returning(slot: int) | Ended

  // `free` is the queue of slots, `counted` the completed-task counter.
  datatype Grid = Grid(free: seq<int>, tasks: seq<Task>, counted: nat)

  datatype Action = Action(task: nat, raises: bool)

  function Begin(slots: nat, tasks: nat): Grid {
    Grid(seq(slots, s => s), seq(tasks, _ => Queued), 0)
  }

  // Taking a slot waits for the queue to be nonempty.
  predicate Enabled(g: Grid, a: Action) {
    && a.task < |g.tasks|
    && match g.tasks[a.task]
       case Queued => g.free != []
       case Ended => false
       case _ => true
  }

  function Next(g: Grid, a: Action): Grid
    requires Enabled(g, a)
  {
    var t := a.task;
    match g.tasks[t]
    case Queued => Grid(g.free[1..], g.tasks[t := Running(g.free[0])], g.counted)
    case Running(s) => Grid(g.free, g.tasks[t := Returning(s)], g.counted + if a.raises then 0 else 1)
    case Returning(s) => Grid(g.free + [s], g.tasks[t := Ended], g.counted)
    case Ended => g
  }

  predicate Holds(task: Task, slot: int) {
    (task.Running? || task.Returning?) && task.slot == slot
  }

  function Holding(slot: int): Task -> bool {
    (task: Task) => Holds(task, slot)
  }

  function Is(slot: int): int -> bool {
    (s: int) => s == slot
  }

  // How often slot `s` is in the queue or held.
  function Places(g: Grid, s: int): nat {
    CountIf(g.free, Is(s)) + CountIf(g.tasks, Holding(s))
  }

  // Every slot below `slots` is in exactly one place: the queue or one task. Nothing else is.
  ghost predicate Ok(g: Grid, slots: nat) {
    forall s :: Places(g, s) == if 0 <= s < slots then 1 else 0
  }

  lemma {:induction false} RangeCount(n: nat, s: int)
    ensures CountIf(seq(n, x => x), Is(s)) == if 0 <= s < n then 1 else 0
  {
    if n > 0 {
      RangeCount(n - 1, s);
      assert seq(n, x => x)[..n - 1] == seq(n - 1, x => x);
    }
  }

  lemma BeginOk(slots: nat, tasks: nat)
    ensures Ok(Begin(slots, tasks), slots)
  {
    forall s ensures CountIf(Begin(slots, tasks).free, Is(s)) == if 0 <= s < slots then 1 else 0
             ensures CountIf(Begin(slots, tasks).tasks, Holding(s)) == 0 {
      RangeCount(slots, s);
      assert Begin(slots, tasks).free == seq(slots, x => x);
      CountIfBounds(Begin(slots, tasks).tasks, Holding(s));
    }
  }

  lemma TakenSlot(free: seq<int>, s: int)
    requires free != []
    ensures CountIf(free[1..], Is(s)) == CountIf(free, Is(s)) - if free[0] == s then 1 else 0
  {
    assert free == [free[0]] + free[1..];
    CountIfConcat([free[0]], free[1..], Is(s));
    CountIfSingle(free[0], Is(s));
    hide CountIf;
  }

  lemma ReturnedSlot(free: seq<int>, slot: int, s: int)
    ensures CountIf(free + [slot], Is(s)) == CountIf(free, Is(s)) + if slot == s then 1 else 0
  {
    CountIfConcat(free, [slot], Is(s));
    CountIfSingle(slot, Is(s));
    hide CountIf;
  }

  lemma StepMovesSlot(g: Grid, a: Action, s: int)
    requires Enabled(g, a)
    ensures Places(Next(g, a), s) == Places(g, s)
  {
    hide CountIf;
    CountIfUpdate(g.tasks, a.task, Next(g, a).tasks[a.task], Holding(s));
    match g.tasks[a.task]
    case Queued => TakenSlot(g.free, s);
    case Returning(slot) => ReturnedSlot(g.free, slot, s);
    case _ =>
  }

  lemma StepKeepsOk(g: Grid, slots: nat, a: Action)
    requires Ok(g, slots) && Enabled(g, a)
    ensures Ok(Next(g, a), slots)
  {
    forall s ensures Places(Next(g, a), s) == Places(g, s) {
      StepMovesSlot(g, a, s);
    }
    hide Next;
    hide Enabled;
    hide CountIf;
  }

  ghost predicate IsExecution(g: Grid, schedule: seq<Action>)
    decreases |schedule|
  {
    schedule != [] ==> Enabled(g, schedule[0]) && IsExecution(Next(g, schedule[0]), schedule[1..])
  }

  ghost function Execute(g: Grid, schedule: seq<Action>): (g': Grid)
    requires IsExecution(g, schedule)
    ensures |g'.tasks| == |g.tasks|
    decreases |schedule|
  {
    if schedule == [] then g else Execute(Next(g, schedule[0]), schedule[1..])
  }

  lemma {:induction false} AlwaysOk(g: Grid, slots: nat, schedule: seq<Action>)
    requires Ok(g, slots) && IsExecution(g, schedule)
    ensures Ok(Execute(g, schedule), slots)
    decreases |schedule|
  {
    hide Ok;
    if schedule != [] {
      StepKeepsOk(g, slots, schedule[0]);
      AlwaysOk(Next(g, schedule[0]), slots, schedule[1..]);
    }
  }

  // The ports of a simulation with `k` agents on a slot: the source's and one per agent.
  predicate UsesPort(slot: int, k: nat, port: int) {
    var source := PORT_BASE + slot * PORT_STRIDE;
    source <= port <= source + k
  }

  lemma HoldersDiffer(tasks: seq<Task>, slot: int, x: nat, y: nat)
    requires x < y < |tasks| && Holds(tasks[x], slot) && Holds(tasks[y], slot)
    ensures CountIf(tasks, Holding(slot)) >= 2
  {
    var p := Holding(slot);
    CountIfUpdate(tasks, x, Ended, p);
    CountIfUpdate(tasks[x := Ended], y, Ended, p);
  }

  // Tasks that run at the same time hold different slots of the pool, and no slot that a
  // task holds is in the queue.
  lemma SlotsAreExclusive(slots: nat, tasks: nat, schedule: seq<Action>, x: nat, y: nat, s: int, t: int)
    requires IsExecution(Begin(slots, tasks), schedule) && x < y < tasks
    requires Holds(Execute(Begin(slots, tasks), schedule).tasks[x], s)
    requires Holds(Execute(Begin(slots, tasks), schedule).tasks[y], t)
    ensures s != t && 0 <= s < slots && 0 <= t < slots
    ensures s !in Execute(Begin(slots, tasks), schedule).free
  {
    BeginOk(slots, tasks);
    AlwaysOk(Begin(slots, tasks), slots, schedule);
    var g := Execute(Begin(slots, tasks), schedule);
    hide Execute;
    assert Places(g, s) == (if 0 <= s < slots then 1 else 0) && Places(g, t) == if 0 <= t < slots then 1 else 0;
    CountIfBounds(g.tasks, Holding(s));
    CountIfBounds(g.tasks, Holding(t));
    CountIfBounds(g.free, Is(s));
    assert Holding(s)(g.tasks[x]) && Holding(t)(g.tasks[y]);
    if s == t {
      HoldersDiffer(g.tasks, s, x, y);
    }
  }

  // Simulations with `k` and `l` agents have disjoint ports on any two slots exactly if
  // each fits a stride together with its source.
  lemma PortsDisjointIffTheyFit(k: nat, l: nat)
    ensures k + 1 <= PORT_STRIDE && l + 1 <= PORT_STRIDE
            <==> forall s, t, port :: s != t ==> !(UsesPort(s, k, port) && UsesPort(t, l, port))
  {
    if k + 1 > PORT_STRIDE {
      assert UsesPort(0, k, PORT_BASE + PORT_STRIDE) && UsesPort(1, l, PORT_BASE + PORT_STRIDE);
    } else if l + 1 > PORT_STRIDE {
      assert UsesPort(1, k, PORT_BASE + PORT_STRIDE) && UsesPort(0, l, PORT_BASE + PORT_STRIDE);
    }
  }

  // Row `x` of the grid asks for `agents[x]` agents. Tasks that run at the same time never
  // share a port, whatever the schedule, if their own rows fit a stride.
  lemma RunningTasksShareNoPort(
      slots: nat, agents: seq<nat>, schedule: seq<Action>, x: nat, y: nat, s: int, t: int, port: int)
    requires IsExecution(Begin(slots, |agents|), schedule) && x < y < |agents|
    requires Holds(Execute(Begin(slots, |agents|), schedule).tasks[x], s)
    requires Holds(Execute(Begin(slots, |agents|), schedule).tasks[y], t)
    requires agents[x] + 1 <= PORT_STRIDE && agents[y] + 1 <= PORT_STRIDE
    ensures !(UsesPort(s, agents[x], port) && UsesPort(t, agents[y], port))
  {
    SlotsAreExclusive(slots, |agents|, schedule, x, y, s, t);
    PortsDisjointIffTheyFit(agents[x], agents[y]);
  }

  // When all tasks have ended, however many raised an exception, every slot is back.
  lemma EverySlotReturns(slots: nat, tasks: nat, schedule: seq<Action>)
    requires IsExecution(Begin(slots, tasks), schedule)
    requires forall x :: 0 <= x < |Execute(Begin(slots, tasks), schedule).tasks| ==>
               Execute(Begin(slots, tasks), schedule).tasks[x].Ended?
    ensures forall s :: CountIf(Execute(Begin(slots, tasks), schedule).free, Is(s)) == if 0 <= s < slots then 1 else 0
  {
    BeginOk(slots, tasks);
    AlwaysOk(Begin(slots, tasks), slots, schedule);
    var g := Execute(Begin(slots, tasks), schedule);
    hide Execute;
    forall s ensures CountIf(g.free, Is(s)) == if 0 <= s < slots then 1 else 0 {
      assert Places(g, s) == if 0 <= s < slots then 1 else 0;
      CountIfBounds(g.tasks, Holding(s));
    }
  }

  // With at least one slot some task can always proceed until all have ended.
  lemma NoTaskWaitsForever(g: Grid, slots: nat, x: nat)
    requires Ok(g, slots) && slots >= 1 && x < |g.tasks| && !g.tasks[x].Ended?
    ensures exists a :: Enabled(g, a)
  {
    if g.tasks[x].Queued? && g.free == [] {
      assert Places(g, 0) == 1;
      CountIfBounds(g.tasks, Holding(0));
      var y :| 0 <= y < |g.tasks| && Holding(0)(g.tasks[y]);
      assert Enabled(g, Action(y, false));
    } else {
      assert Enabled(g, Action(x, false));
    }
  }

  function StepsLeft(task: Task): int {
    match task
    case Queued => 3
    case Running(_) => 2
    case Returning(_) => 1
    case Ended => 0
  }

  function AllStepsLeft(tasks: seq<Task>): seq<int> {
    seq(|tasks|, x requires 0 <= x < |tasks| => StepsLeft(tasks[x]))
  }

  // Each task takes three steps, so every execution is finite and runs each task at most once.
  lemma {:induction false} ExecutionsAreBounded(g: Grid, schedule: seq<Action>)
    requires IsExecution(g, schedule)
    ensures |schedule| + Sum(AllStepsLeft(Execute(g, schedule).tasks)) == Sum(AllStepsLeft(g.tasks))
    decreases |schedule|
  {
    if schedule != [] {
      var a := schedule[0];
      var g' := Next(g, a);
      SumUpdate(AllStepsLeft(g.tasks), a.task, StepsLeft(g'.tasks[a.task]));
      assert AllStepsLeft(g'.tasks) == AllStepsLeft(g.tasks)[a.task := StepsLeft(g'.tasks[a.task])];
      hide Sum;
      ExecutionsAreBounded(g', schedule[1..]);
    }
  }

  lemma StepsAtTheEnd(tasks: seq<Task>)
    requires forall x :: 0 <= x < |tasks| ==> tasks[x].Ended?
    ensures Sum(AllStepsLeft(tasks)) == 0
  {
    if tasks != [] {
      StepsAtTheEnd(tasks[..|tasks| - 1]);
      assert AllStepsLeft(tasks)[..|tasks| - 1] == AllStepsLeft(tasks[..|tasks| - 1]);
    }
  }

  lemma StepsAtTheStart(n: nat)
    ensures Sum(seq(n, _ => 3)) == 3 * n
  {
    if n > 0 {
      StepsAtTheStart(n - 1);
      assert seq(n, _ => 3)[..n - 1] == seq(n - 1, _ => 3);
    }
  }

  // With at least one slot an execution that cannot be continued has run every task to its
  // end, each exactly once.
  lemma {:induction false} EveryTaskRuns(slots: nat, tasks: nat, schedule: seq<Action>)
    requires slots >= 1 && IsExecution(Begin(slots, tasks), schedule)
    requires forall a :: !Enabled(Execute(Begin(slots, tasks), schedule), a)
    ensures forall t :: t in Execute(Begin(slots, tasks), schedule).tasks ==> t.Ended?
    ensures |schedule| == 3 * tasks
  {
    BeginOk(slots, tasks);
    AlwaysOk(Begin(slots, tasks), slots, schedule);
    ExecutionsAreBounded(Begin(slots, tasks), schedule);
    var g := Execute(Begin(slots, tasks), schedule);
    hide Execute;
    forall x | 0 <= x < |g.tasks| ensures g.tasks[x].Ended? {
      if !g.tasks[x].Ended? {
        NoTaskWaitsForever(g, slots, x);
      }
    }
    StepsAtTheEnd(g.tasks);
    StepsAtTheStart(tasks);
    assert AllStepsLeft(Begin(slots, tasks).tasks) == seq(tasks, _ => 3);
  }

  // --- the queue order and the counter ---

  // The slots taken, the slots put back, and the runs that ended without an exception, in
  // the order of the steps.
  datatype Log = Log(taken: seq<int>, returned: seq<int>, completed: nat)

  function Record(g: Grid, a: Action, log: Log): Log
    requires Enabled(g, a)
  {
    match g.tasks[a.task]
    case Queued => log.(taken := log.taken + [Next(g, a).tasks[a.task].slot])
    case Running(_) => log.(completed := log.completed + if a.raises then 0 else 1)
    case Returning(slot) => log.(returned := log.returned + [slot])
    case Ended => log
  }

  ghost function Observed(g: Grid, schedule: seq<Action>, log: Log): Log
    requires IsExecution(g, schedule)
    decreases |schedule|
  {
    if schedule == [] then log
    else Observed(Next(g, schedule[0]), schedule[1..], Record(g, schedule[0], log))
  }

  lemma {:induction false} QueueKeepsOrder(g: Grid, schedule: seq<Action>, log: Log, slots: seq<int>)
    requires IsExecution(g, schedule)
    requires slots + log.returned == log.taken + g.free && g.counted == log.completed
    ensures var g', log' := Execute(g, schedule), Observed(g, schedule, log);
            slots + log'.returned == log'.taken + g'.free && g'.counted == log'.completed
    decreases |schedule|
  {
    if schedule != [] {
      var a := schedule[0];
      var g', log' := Next(g, a), Record(g, a, log);
      assert slots + log'.returned == log'.taken + g'.free by {
        match g.tasks[a.task]
        case Queued =>
          assert g.free == [g.free[0]] + g.free[1..];
        case Returning(slot) =>
          assert slots + (log.returned + [slot]) == (slots + log.returned) + [slot];
        case _ =>
      }
      QueueKeepsOrder(g', schedule[1..], log', slots);
    }
  }

  // Slots are handed out first come, first served: at every moment the slots taken so far,
  // followed by the queue, are the initial slots followed by those put back. The counter
  // shows how many runs have ended without an exception.
  lemma FirstComeFirstServed(slots: nat, tasks: nat, schedule: seq<Action>)
    requires IsExecution(Begin(slots, tasks), schedule)
    ensures var g0 := Begin(slots, tasks);
            var g, log := Execute(g0, schedule), Observed(g0, schedule, Log([], [], 0));
            && seq(slots, s => s) + log.returned == log.taken + g.free
            && g.counted == log.completed
  {
    var init := seq(slots, s => s);
    assert init + [] == [] + init;
    QueueKeepsOrder(Begin(slots, tasks), schedule, Log([], [], 0), init);
  }
}
