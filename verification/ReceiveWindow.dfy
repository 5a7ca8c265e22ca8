// One peer's receive window under concurrency. Any number of threads store messages,
// seal rounds and forget rounds; a schedule is the sequence of threads that take the
// next step. StoreMessage is two steps (the window test, then the append under the
// lock), and SealRound is a loop of two steps (load, then compare-and-swap).

module ReceiveWindow {
  import opened Counting
  import opened Tally
  import opened Mailbox

  datatype Op = Store(msg: Message) | SealOp(round: int) | ForgetOp(round: int)

  datatype Pc = Begin | Passed | Loaded(current: int) | Done(stored: bool)

  datatype State = State(sealed: int, log: seq<Message>, pcs: seq<Pc>)

  predicate WellFormed(ops: seq<Op>, s: State) {
    && |ops| == |s.pcs|
    && forall t :: 0 <= t < |ops| ==>
         match s.pcs[t]
         case Passed => ops[t].Store?
         case Loaded(c) => ops[t].SealOp? && c <= s.sealed && c < ToInt32(ops[t].round)
         case Done(_) => ops[t].SealOp? ==> ToInt32(ops[t].round) <= s.sealed
         case Begin => true
  }

  function Goto(s: State, t: nat, pc: Pc): State
    requires t < |s.pcs|
  {
    s.(pcs := s.pcs[t := pc])
  }

  // One step of thread `t`; a finished thread stays put.
  function Next(ops: seq<Op>, s: State, t: nat): (s': State)
    requires |ops| == |s.pcs| && t < |ops|
    ensures |s'.pcs| == |ops|
  {
    match (ops[t], s.pcs[t])
    case (_, Done(_)) => s
    case (Store(m), Passed) => Goto(s, t, Done(true)).(log := s.log + [m])
    case (Store(m), _) => Goto(s, t, if ToInt32(m.round) <= s.sealed then Done(false) else Passed)
    case (SealOp(r), Loaded(c)) =>
      if s.sealed == c then Goto(s, t, Done(false)).(sealed := ToInt32(r)) else Goto(s, t, Begin)
    case (SealOp(r), _) => Goto(s, t, if ToInt32(r) <= s.sealed then Done(false) else Loaded(s.sealed))
    case (ForgetOp(r), _) => Goto(s, t, Done(false)).(log := NotRound(s.log, r))
  }

  predicate IsSchedule(ops: seq<Op>, schedule: seq<nat>) {
    forall x :: 0 <= x < |schedule| ==> schedule[x] < |ops|
  }

  function Execute(ops: seq<Op>, s: State, schedule: seq<nat>): (s': State)
    requires |ops| == |s.pcs| && IsSchedule(ops, schedule)
    ensures |s'.pcs| == |ops|
    decreases |schedule|
  {
    if schedule == [] then s else Execute(ops, Next(ops, s, schedule[0]), schedule[1..])
  }

  function Initial(ops: seq<Op>, sealed: int): State {
    State(sealed, [], seq(|ops|, _ => Begin))
  }

  // --- the compare-and-swap loop ---

  lemma StepFacts(ops: seq<Op>, s: State, t: nat)
    requires WellFormed(ops, s) && t < |ops|
    ensures var s' := Next(ops, s, t);
            && WellFormed(ops, s') && s.sealed <= s'.sealed
            && (s.sealed != s'.sealed ==> ops[t].SealOp? && s'.sealed == ToInt32(ops[t].round) && s'.pcs[t].Done?)
            && (forall u :: 0 <= u < |ops| && s.pcs[u].Done? ==> s'.pcs[u] == s.pcs[u])
            && (forall u :: 0 <= u < |ops| && u != t ==> s'.pcs[u] == s.pcs[u])
  {
  }

  // The window never reopens, and a finished thread stays finished.
  lemma {:induction false} WindowOnlyCloses(ops: seq<Op>, s: State, schedule: seq<nat>)
    requires WellFormed(ops, s) && IsSchedule(ops, schedule)
    ensures var s' := Execute(ops, s, schedule);
            && WellFormed(ops, s') && s.sealed <= s'.sealed
            && (forall u :: 0 <= u < |ops| && s.pcs[u].Done? ==> s'.pcs[u] == s.pcs[u])
    decreases |schedule|
  {
    if schedule != [] {
      StepFacts(ops, s, schedule[0]);
      WindowOnlyCloses(ops, Next(ops, s, schedule[0]), schedule[1..]);
    }
  }

  // The window is the initial one or that of a finished sealer.
  ghost predicate Accounted(ops: seq<Op>, s: State, initial: int) {
    && |ops| == |s.pcs|
    && (s.sealed == initial
        || exists t :: 0 <= t < |ops| && ops[t].SealOp? && s.pcs[t].Done? && s.sealed == ToInt32(ops[t].round))
  }

  lemma {:induction false} WindowIsAccounted(ops: seq<Op>, s: State, schedule: seq<nat>, initial: int)
    requires WellFormed(ops, s) && IsSchedule(ops, schedule) && Accounted(ops, s, initial)
    ensures Accounted(ops, Execute(ops, s, schedule), initial)
    decreases |schedule|
  {
    if schedule != [] {
      StepFacts(ops, s, schedule[0]);
      hide WellFormed;
      WindowIsAccounted(ops, Next(ops, s, schedule[0]), schedule[1..], initial);
    }
  }

  ghost predicate IsMaximum(ops: seq<Op>, initial: int, sealed: int) {
    && initial <= sealed
    && (forall t :: 0 <= t < |ops| && ops[t].SealOp? ==> ToInt32(ops[t].round) <= sealed)
    && (sealed == initial || exists t :: 0 <= t < |ops| && ops[t].SealOp? && sealed == ToInt32(ops[t].round))
  }

  // However the callers of SealRound interleave, with each other and with stores and
  // sweeps: each has closed the window up to its round when it returns, and when all have
  // returned the window is the maximum of the initial value and all their rounds.
  lemma SealLinearizesToMaximum(ops: seq<Op>, initial: int, schedule: seq<nat>)
    requires IsSchedule(ops, schedule)
    ensures var s := Execute(ops, Initial(ops, initial), schedule);
            && (forall t :: 0 <= t < |ops| && ops[t].SealOp? && s.pcs[t].Done? ==> ToInt32(ops[t].round) <= s.sealed)
            && ((forall t :: 0 <= t < |ops| && ops[t].SealOp? ==> s.pcs[t].Done?) ==> IsMaximum(ops, initial, s.sealed))
  {
    var s0 := Initial(ops, initial);
    WindowOnlyCloses(ops, s0, schedule);
    WindowIsAccounted(ops, s0, schedule, initial);
  }

  // Work left: a stale load costs a retry, and each retry is paid for by the successful
  // swap that made the load stale.
  function Weight(pc: Pc, sealed: int): int {
    match pc
    case Done(_) => 0
    case Begin => 2
    case Passed => 1
    case Loaded(c) => if c == sealed then 1 else 3
  }

  function Weights(s: State): seq<int> {
    seq(|s.pcs|, t requires 0 <= t < |s.pcs| => Weight(s.pcs[t], s.sealed))
  }

  function IsPending(): Pc -> bool {
    (pc: Pc) => !pc.Done?
  }

  function Measure(s: State): int {
    (2 * |s.pcs| + 1) * CountIf(s.pcs, IsPending()) + Sum(Weights(s))
  }

  lemma MeasureBounds(s: State)
    ensures 0 <= Measure(s) <= (2 * |s.pcs| + 4) * |s.pcs|
  {
    hide Sum;
    hide CountIf;
    SumBounds(Weights(s), 3);
    CountIfBounds(s.pcs, IsPending());
    MulBetween(2 * |s.pcs| + 1, CountIf(s.pcs, IsPending()), |s.pcs|);
  }

  lemma MulBetween(a: nat, b: nat, c: nat)
    requires b <= c
    ensures 0 <= a * b <= a * c
  {
  }

  // A step that leaves the window alone only changes its own thread's weight.
  lemma QuietStep(ops: seq<Op>, s: State, t: nat)
    requires WellFormed(ops, s) && t < |ops| && Next(ops, s, t).sealed == s.sealed
    ensures var s' := Next(ops, s, t);
            && Sum(Weights(s')) == Sum(Weights(s)) - Weight(s.pcs[t], s.sealed) + Weight(s'.pcs[t], s.sealed)
            && (!s.pcs[t].Done? ==> Weight(s'.pcs[t], s.sealed) < Weight(s.pcs[t], s.sealed))
            && CountIf(s'.pcs, IsPending()) == CountIf(s.pcs, IsPending())
                 - (if s.pcs[t].Done? then 0 else 1) + if s'.pcs[t].Done? then 0 else 1
  {
    var s' := Next(ops, s, t);
    StepFacts(ops, s, t);
    assert s'.pcs == s.pcs[t := s'.pcs[t]];
    assert Weights(s') == Weights(s)[t := Weight(s'.pcs[t], s.sealed)];
    SumUpdate(Weights(s), t, Weight(s'.pcs[t], s.sealed));
    CountIfUpdate(s.pcs, t, s'.pcs[t], IsPending());
  }

  // A successful swap finishes its thread and makes the others' loads stale at worst.
  lemma SwapStep(ops: seq<Op>, s: State, t: nat)
    requires WellFormed(ops, s) && t < |ops| && Next(ops, s, t).sealed != s.sealed
    ensures var s' := Next(ops, s, t);
            && Sum(Weights(s')) <= Sum(Weights(s)) + 2 * |s.pcs|
            && CountIf(s'.pcs, IsPending()) == CountIf(s.pcs, IsPending()) - 1
  {
    var s' := Next(ops, s, t);
    StepFacts(ops, s, t);
    assert s'.pcs == s.pcs[t := s'.pcs[t]];
    SumRaise(Weights(s), Weights(s'), 2);
    CountIfUpdate(s.pcs, t, s'.pcs[t], IsPending());
  }

  lemma MeasureDecreases(ops: seq<Op>, s: State, t: nat)
    requires WellFormed(ops, s) && t < |ops| && !s.pcs[t].Done?
    ensures Measure(Next(ops, s, t)) < Measure(s)
  {
    var s' := Next(ops, s, t);
    var a, n, n' := 2 * |s.pcs| + 1, CountIf(s.pcs, IsPending()), CountIf(s'.pcs, IsPending());
    if s'.sealed == s.sealed {
      QuietStep(ops, s, t);
      StepFacts(ops, s, t);
    } else {
      SwapStep(ops, s, t);
    }
    hide CountIf;
    hide Weights;
    hide Sum;
    PayForSwap(a, n, n');
  }

  lemma PayForSwap(a: int, n: int, n': int)
    ensures n' == n - 1 ==> a * n' == a * n - a
  {
  }

  ghost predicate EveryStepWorks(ops: seq<Op>, s: State, schedule: seq<nat>)
    requires |ops| == |s.pcs| && IsSchedule(ops, schedule)
    decreases |schedule|
  {
    schedule != [] ==>
      !s.pcs[schedule[0]].Done? && EveryStepWorks(ops, Next(ops, s, schedule[0]), schedule[1..])
  }

  // No interleaving keeps the callers busy for more than (2T + 4) T steps.
  lemma {:induction false} ScheduleIsBounded(ops: seq<Op>, s: State, schedule: seq<nat>)
    requires WellFormed(ops, s) && IsSchedule(ops, schedule) && EveryStepWorks(ops, s, schedule)
    ensures |schedule| <= Measure(s) <= (2 * |ops| + 4) * |ops|
    decreases |schedule|
  {
    MeasureBounds(s);
    if schedule != [] {
      MeasureDecreases(ops, s, schedule[0]);
      StepFacts(ops, s, schedule[0]);
      hide Measure;
      ScheduleIsBounded(ops, Next(ops, s, schedule[0]), schedule[1..]);
    }
  }

  // --- the receive window ---

  // Once a SealRound(r) has returned, a message for r or earlier that has not been tested
  // yet is never stored.
  lemma {:induction false} LateMessageIsDropped(ops: seq<Op>, s: State, schedule: seq<nat>, sealer: nat, storer: nat)
    requires WellFormed(ops, s) && IsSchedule(ops, schedule) && sealer < |ops| && storer < |ops|
    requires ops[sealer].SealOp? && s.pcs[sealer].Done?
    requires ops[storer].Store? && s.pcs[storer] in {Begin, Done(false)}
    requires ToInt32(ops[storer].msg.round) <= ToInt32(ops[sealer].round)
    ensures Execute(ops, s, schedule).pcs[storer] in {Begin, Done(false)}
    decreases |schedule|
  {
    if schedule != [] {
      StepFacts(ops, s, schedule[0]);
      LateMessageIsDropped(ops, Next(ops, s, schedule[0]), schedule[1..], sealer, storer);
    }
  }

  function RoundVotes(log: seq<Message>, round: int): seq<Message> {
    if log == [] then []
    else
      var m := log[|log| - 1];
      RoundVotes(log[..|log| - 1], round) + if m.round == round then [m] else []
  }

  lemma RoundVotesAppend(log: seq<Message>, m: Message, round: int)
    ensures RoundVotes(log + [m], round) == RoundVotes(log, round) + if m.round == round then [m] else []
  {
    assert (log + [m])[..|log|] == log;
  }

  lemma RoundVotesSwept(log: seq<Message>, gone: int, round: int)
    requires gone != round
    ensures RoundVotes(NotRound(log, gone), round) == RoundVotes(log, round)
  {
    if log != [] {
      var init, m := log[..|log| - 1], log[|log| - 1];
      RoundVotesSwept(init, gone, round);
      RoundVotesAppend(NotRound(init, gone), m, round);
      assert NotRound(init, gone) + [] == NotRound(init, gone);
      assert RoundVotes(init, round) + [] == RoundVotes(init, round);
    }
  }

  predicate InFlight(ops: seq<Op>, s: State, round: int)
    requires |ops| == |s.pcs|
  {
    exists t :: 0 <= t < |ops| && s.pcs[t].Passed? && ops[t].Store? && ops[t].msg.round == round
  }

  predicate NoSweep(ops: seq<Op>, schedule: seq<nat>, round: int)
    requires IsSchedule(ops, schedule)
  {
    forall x :: 0 <= x < |schedule| ==> ops[schedule[x]] != ForgetOp(round)
  }

  lemma QuietRoundStep(ops: seq<Op>, s: State, t: nat, round: int)
    requires WellFormed(ops, s) && t < |ops| && ops[t] != ForgetOp(round)
    requires ToInt32(round) <= s.sealed && !InFlight(ops, s, round)
    ensures var s' := Next(ops, s, t);
            !InFlight(ops, s', round) && RoundVotes(s'.log, round) == RoundVotes(s.log, round)
  {
    var s' := Next(ops, s, t);
    StepFacts(ops, s, t);
    match ops[t]
    case Store(m) =>
      RoundVotesAppend(s.log, m, round);
      assert RoundVotes(s.log, round) + [] == RoundVotes(s.log, round);
    case SealOp(r) =>
    case ForgetOp(r) =>
      RoundVotesSwept(s.log, r, round);
  }

  lemma {:induction false} VotesStay(ops: seq<Op>, s: State, schedule: seq<nat>, round: int)
    requires WellFormed(ops, s) && IsSchedule(ops, schedule) && NoSweep(ops, schedule, round)
    requires ToInt32(round) <= s.sealed && !InFlight(ops, s, round)
    ensures RoundVotes(Execute(ops, s, schedule).log, round) == RoundVotes(s.log, round)
    decreases |schedule|
  {
    if schedule != [] {
      var t := schedule[0];
      QuietRoundStep(ops, s, t, round);
      StepFacts(ops, s, t);
      assert NoSweep(ops, schedule[1..], round);
      VotesStay(ops, Next(ops, s, t), schedule[1..], round);
    }
  }

  ghost predicate Frozen(ops: seq<Op>, s: State, round: int)
    requires |ops| == |s.pcs|
  {
    forall schedule: seq<nat> :: IsSchedule(ops, schedule) && NoSweep(ops, schedule, round) ==>
      RoundVotes(Execute(ops, s, schedule).log, round) == RoundVotes(s.log, round)
  }

  lemma OneStep(ops: seq<Op>, s: State, t: nat)
    requires WellFormed(ops, s) && t < |ops|
    ensures IsSchedule(ops, [t]) && Execute(ops, s, [t]) == Next(ops, s, t)
  {
    var schedule: seq<nat> := [t];
    assert schedule[1..] == [];
    assert Execute(ops, Next(ops, s, t), schedule[1..]) == Next(ops, s, t);
  }

  lemma InFlightThaws(ops: seq<Op>, s: State, round: int)
    requires WellFormed(ops, s) && InFlight(ops, s, round)
    ensures !Frozen(ops, s, round)
  {
    var t: nat :| t < |ops| && s.pcs[t].Passed? && ops[t].Store? && ops[t].msg.round == round;
    OneStep(ops, s, t);
    RoundVotesAppend(s.log, ops[t].msg, round);
    assert |RoundVotes(Next(ops, s, t).log, round)| == |RoundVotes(s.log, round)| + 1;
    assert NoSweep(ops, [t], round);
    hide Execute;
    hide Next;
  }

  // A sealed round's votes are frozen until it is forgotten exactly if no store of that
  // round has passed its test without having appended yet.
  lemma FrozenExactlyIfNoneInFlight(ops: seq<Op>, s: State, round: int)
    requires WellFormed(ops, s) && ToInt32(round) <= s.sealed
    ensures Frozen(ops, s, round) <==> !InFlight(ops, s, round)
  {
    if InFlight(ops, s, round) {
      InFlightThaws(ops, s, round);
    } else {
      forall schedule: seq<nat> | IsSchedule(ops, schedule) && NoSweep(ops, schedule, round)
        ensures RoundVotes(Execute(ops, s, schedule).log, round) == RoundVotes(s.log, round)
      {
        VotesStay(ops, s, schedule, round);
      }
    }
    hide Execute;
    hide InFlight;
    hide RoundVotes;
    hide NoSweep;
  }

  // So with the two steps apart a vote can slip in after its round is sealed, and even
  // after it is forgotten.
  lemma SplitStoreLeaksExample()
    ensures var m := Message(7, 0, 0, [1]);
            var ops := [Store(m), SealOp(0), ForgetOp(0)];
            var s := Execute(ops, Initial(ops, -1), [0, 1, 1, 2, 0]);
            s.sealed == 0 && s.pcs[2].Done? && s.log == [m]
  {
    var m := Message(7, 0, 0, [1]);
    var ops := [Store(m), SealOp(0), ForgetOp(0)];
    var s0 := Initial(ops, -1);
    var s1 := Next(ops, s0, 0);
    var s2 := Next(ops, s1, 1);
    var s3 := Next(ops, s2, 1);
    var s4 := Next(ops, s3, 2);
    var s5 := Next(ops, s4, 0);
    var tail: seq<nat> := [0];
    assert Execute(ops, s4, tail) == s5 by {
      assert tail[1..] == [];
      assert Execute(ops, s5, tail[1..]) == s5;
    }
    assert [2, 0][1..] == tail && [1, 2, 0][1..] == [2, 0] && [1, 1, 2, 0][1..] == [1, 2, 0];
    assert [0, 1, 1, 2, 0][1..] == [1, 1, 2, 0];
  }

  // --- sweeps ---

  lemma RoundVotesGone(log: seq<Message>, gone: int)
    ensures RoundVotes(NotRound(log, gone), gone) == []
  {
    if log != [] {
      var init, m := log[..|log| - 1], log[|log| - 1];
      RoundVotesGone(init, gone);
      RoundVotesAppend(NotRound(init, gone), m, gone);
      assert NotRound(init, gone) + [] == NotRound(init, gone);
    }
  }

  // When a sweep returns, nothing of its round is stored and every other round reads as
  // before.
  lemma SweepEmptiesItsRound(ops: seq<Op>, s: State, t: nat, round: int, other: int)
    requires WellFormed(ops, s) && t < |ops| && ops[t] == ForgetOp(round) && !s.pcs[t].Done? && other != round
    ensures var s' := Execute(ops, s, [t]);
            && s'.pcs[t].Done? && s'.sealed == s.sealed
            && RoundVotes(s'.log, round) == []
            && RoundVotes(s'.log, other) == RoundVotes(s.log, other)
  {
    OneStep(ops, s, t);
    RoundVotesGone(s.log, round);
    RoundVotesSwept(s.log, round, other);
  }

  lemma EmptyRoundStep(ops: seq<Op>, s: State, t: nat, round: int)
    requires WellFormed(ops, s) && t < |ops| && RoundVotes(s.log, round) == []
    requires ToInt32(round) <= s.sealed && !InFlight(ops, s, round)
    ensures var s' := Next(ops, s, t);
            && WellFormed(ops, s') && ToInt32(round) <= s'.sealed
            && !InFlight(ops, s', round) && RoundVotes(s'.log, round) == []
  {
    StepFacts(ops, s, t);
    if ops[t] == ForgetOp(round) {
      RoundVotesGone(s.log, round);
    } else {
      QuietRoundStep(ops, s, t, round);
    }
    hide RoundVotes;
    hide NotRound;
  }

  // An empty sealed round with no store of it in flight stays empty, whatever happens.
  lemma {:induction false} EmptyRoundStaysEmpty(ops: seq<Op>, s: State, schedule: seq<nat>, round: int)
    requires WellFormed(ops, s) && IsSchedule(ops, schedule) && RoundVotes(s.log, round) == []
    requires ToInt32(round) <= s.sealed && !InFlight(ops, s, round)
    ensures RoundVotes(Execute(ops, s, schedule).log, round) == []
    decreases |schedule|
  {
    if schedule != [] {
      EmptyRoundStep(ops, s, schedule[0], round);
      EmptyRoundStaysEmpty(ops, Next(ops, s, schedule[0]), schedule[1..], round);
    }
    hide RoundVotes;
    hide InFlight;
  }

  // So a sweep of a sealed round is final exactly if no store of that round is in flight.
  ghost predicate StaysEmpty(ops: seq<Op>, s: State, round: int)
    requires |ops| == |s.pcs|
  {
    forall schedule: seq<nat> :: IsSchedule(ops, schedule) ==> RoundVotes(Execute(ops, s, schedule).log, round) == []
  }

  lemma SweepIsFinalExactly(ops: seq<Op>, s: State, t: nat, round: int)
    requires WellFormed(ops, s) && t < |ops| && ops[t] == ForgetOp(round) && !s.pcs[t].Done?
    requires ToInt32(round) <= s.sealed
    ensures StaysEmpty(ops, Execute(ops, s, [t]), round) <==> !InFlight(ops, s, round)
  {
    var s' := Execute(ops, s, [t]);
    OneStep(ops, s, t);
    StepFacts(ops, s, t);
    SweepEmptiesItsRound(ops, s, t, round, round + 1);
    assert InFlight(ops, s', round) <==> InFlight(ops, s, round);
    if InFlight(ops, s', round) {
      InFlightLeaks(ops, s', round);
    } else {
      forall schedule: seq<nat> | IsSchedule(ops, schedule)
        ensures RoundVotes(Execute(ops, s', schedule).log, round) == []
      {
        EmptyRoundStaysEmpty(ops, s', schedule, round);
      }
    }
    hide Execute;
    hide RoundVotes;
    hide InFlight;
  }

  lemma InFlightLeaks(ops: seq<Op>, s: State, round: int)
    requires WellFormed(ops, s) && InFlight(ops, s, round)
    ensures !StaysEmpty(ops, s, round)
  {
    var t: nat :| t < |ops| && s.pcs[t].Passed? && ops[t].Store? && ops[t].msg.round == round;
    OneStep(ops, s, t);
    RoundVotesAppend(s.log, ops[t].msg, round);
    assert |RoundVotes(Execute(ops, s, [t]).log, round)| > 0;
    hide Execute;
    hide Next;
  }

  // --- test and append as one step ---

  // A thread's turn: a store runs through both of its steps.
  function Turn(ops: seq<Op>, s: State, t: nat): (s': State)
    requires |ops| == |s.pcs| && t < |ops|
    ensures |s'.pcs| == |ops|
  {
    var s1 := Next(ops, s, t);
    if s1.pcs[t].Passed? then Next(ops, s1, t) else s1
  }

  function ExecuteAtomically(ops: seq<Op>, s: State, schedule: seq<nat>): (s': State)
    requires |ops| == |s.pcs| && IsSchedule(ops, schedule)
    ensures |s'.pcs| == |ops|
    decreases |schedule|
  {
    if schedule == [] then s else ExecuteAtomically(ops, Turn(ops, s, schedule[0]), schedule[1..])
  }

  predicate NonePassed(s: State) {
    forall t :: 0 <= t < |s.pcs| ==> !s.pcs[t].Passed?
  }

  lemma {:induction false} AtomicStoresLeaveNoneInFlight(ops: seq<Op>, s: State, schedule: seq<nat>)
    requires WellFormed(ops, s) && NonePassed(s) && IsSchedule(ops, schedule)
    ensures var s' := ExecuteAtomically(ops, s, schedule); WellFormed(ops, s') && NonePassed(s')
    decreases |schedule|
  {
    if schedule != [] {
      var t := schedule[0];
      StepFacts(ops, s, t);
      StepFacts(ops, Next(ops, s, t), t);
      AtomicStoresLeaveNoneInFlight(ops, Turn(ops, s, t), schedule[1..]);
    }
  }

  // With atomic stores every sealed round is frozen, whatever happens afterwards.
  lemma AtomicStoresFreeze(ops: seq<Op>, initial: int, schedule: seq<nat>, round: int)
    requires IsSchedule(ops, schedule)
    requires ToInt32(round) <= ExecuteAtomically(ops, Initial(ops, initial), schedule).sealed
    ensures Frozen(ops, ExecuteAtomically(ops, Initial(ops, initial), schedule), round)
  {
    var s0 := Initial(ops, initial);
    AtomicStoresLeaveNoneInFlight(ops, s0, schedule);
    FrozenExactlyIfNoneInFlight(ops, ExecuteAtomically(ops, s0, schedule), round);
  }

  // --- atomic stores behave like the flat log ---

  function EventOf(op: Op): Event {
    match op
    case Store(m) => Arrive(m)
    case SealOp(r) => SealAt(r)
    case ForgetOp(r) => ForgetAt(r)
  }

  // The operations in the order in which they return.
  function Completed(ops: seq<Op>, s: State, schedule: seq<nat>): seq<Event>
    requires |ops| == |s.pcs| && IsSchedule(ops, schedule)
    decreases |schedule|
  {
    if schedule == [] then []
    else Returning(ops, s, schedule[0]) + Completed(ops, Turn(ops, s, schedule[0]), schedule[1..])
  }

  ghost predicate ReadsLike(s: State, events: seq<Event>) {
    s.log == Log(events) && s.sealed == Level(events)
  }

  lemma LogOneMore(events: seq<Event>, e: Event)
    ensures e.Arrive? ==>
              Log(events + [e]) == if ToInt32(e.msg.round) > Level(events) then Log(events) + [e.msg] else Log(events)
    ensures e.SealAt? ==> Log(events + [e]) == Log(events)
    ensures e.ForgetAt? ==> Log(events + [e]) == NotRound(Log(events), e.round)
    ensures Level(events + [e])
         == if e.SealAt? && ToInt32(e.round) > Level(events) then ToInt32(e.round) else Level(events)
  {
    assert (events + [e])[..|events|] == events;
  }

  lemma StoreTurn(ops: seq<Op>, s: State, t: nat, events: seq<Event>)
    requires WellFormed(ops, s) && NonePassed(s) && t < |ops| && ReadsLike(s, events) && ops[t].Store?
    ensures ReadsLike(Turn(ops, s, t), events + Returning(ops, s, t))
  {
    LogOneMore(events, Arrive(ops[t].msg));
    assert events + [] == events && !s.pcs[t].Passed?;
    hide Log;
    hide Level;
    hide ToInt32;
    hide NotRound;
    hide NonePassed;
    hide WellFormed;
  }

  lemma OtherTurn(ops: seq<Op>, s: State, t: nat, events: seq<Event>)
    requires WellFormed(ops, s) && NonePassed(s) && t < |ops| && ReadsLike(s, events) && !ops[t].Store?
    ensures ReadsLike(Turn(ops, s, t), events + Returning(ops, s, t))
  {
    StepFacts(ops, s, t);
    assert !Next(ops, s, t).pcs[t].Passed? && !s.pcs[t].Passed?;
    assert s.pcs[t].Loaded? ==> s.pcs[t].current < ToInt32(ops[t].round);
    LogOneMore(events, EventOf(ops[t]));
    assert events + [] == events;
    hide Log;
    hide Level;
    hide ToInt32;
    hide NotRound;
    hide NonePassed;
    hide WellFormed;
  }

  lemma TurnReads(ops: seq<Op>, s: State, t: nat, events: seq<Event>)
    requires WellFormed(ops, s) && NonePassed(s) && t < |ops| && ReadsLike(s, events)
    ensures WellFormed(ops, Turn(ops, s, t)) && NonePassed(Turn(ops, s, t)) && |Turn(ops, s, t).pcs| == |ops|
    ensures ReadsLike(Turn(ops, s, t), events + Returning(ops, s, t))
  {
    if ops[t].Store? {
      StoreTurn(ops, s, t, events);
    } else {
      OtherTurn(ops, s, t, events);
    }
    StepFacts(ops, s, t);
    StepFacts(ops, Next(ops, s, t), t);
    hide ReadsLike;
    hide Returning;
  }

  // The operation that returns in a turn, if any.
  function Returning(ops: seq<Op>, s: State, t: nat): seq<Event>
    requires |ops| == |s.pcs| && t < |ops|
  {
    if !s.pcs[t].Done? && Turn(ops, s, t).pcs[t].Done? then [EventOf(ops[t])] else []
  }

  lemma {:induction false} AtomicRunReadsLike(ops: seq<Op>, s: State, schedule: seq<nat>, events: seq<Event>)
    requires WellFormed(ops, s) && NonePassed(s) && IsSchedule(ops, schedule) && ReadsLike(s, events)
    ensures ReadsLike(ExecuteAtomically(ops, s, schedule), events + Completed(ops, s, schedule))
    decreases |schedule|
  {
    assert |ops| == |s.pcs|;
    hide ReadsLike;
    hide WellFormed;
    hide NonePassed;
    hide Turn;
    hide Returning;
    if schedule == [] {
      assert events + [] == events;
    } else {
      var t, rest := schedule[0], schedule[1..];
      TurnReads(ops, s, t, events);
      AtomicRunReadsLike(ops, Turn(ops, s, t), rest, events + Returning(ops, s, t));
      var e, more := Returning(ops, s, t), Completed(ops, Turn(ops, s, t), rest);
      assert (events + e) + more == events + (e + more);
    }
  }

  // With atomic stores every interleaving is linearizable: log and window are those of the
  // operations taken one after another, in the order in which they return.
  lemma AtomicRunIsLinearizable(ops: seq<Op>, schedule: seq<nat>)
    requires IsSchedule(ops, schedule)
    ensures var s0 := Initial(ops, -1);
            var s, events := ExecuteAtomically(ops, s0, schedule), Completed(ops, s0, schedule);
            s.log == Log(events) && s.sealed == Level(events) == Replay(events).sealed
  {
    var s0 := Initial(ops, -1);
    AtomicRunReadsLike(ops, s0, schedule, []);
    assert [] + Completed(ops, s0, schedule) == Completed(ops, s0, schedule);
    StoreRefinesLog(Completed(ops, s0, schedule), 0, 0);
    hide Completed;
    hide Replay;
  }

  // What is in memory at any moment of any atomic run: the messages that were let in and
  // whose round has not been swept since they came.
  lemma MemoryExactly(ops: seq<Op>, schedule: seq<nat>, m: Message)
    requires IsSchedule(ops, schedule)
    ensures m in ExecuteAtomically(ops, Initial(ops, -1), schedule).log
            <==> exists x: nat :: KeptSince(Completed(ops, Initial(ops, -1), schedule), x, m)
  {
    AtomicRunIsLinearizable(ops, schedule);
    LogHolds(Completed(ops, Initial(ops, -1), schedule), m);
    hide *;
  }
}
