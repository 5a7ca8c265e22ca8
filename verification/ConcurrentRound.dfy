// One concurrent round from the seal to its end, along any schedule: what the deciding
// peers may differ in, the invariant of the whole round, and why it always can finish.

module ConcurrentRound {
  import opened Counting
  import opened Tally
  import opened NodeRun
  import opened Mailbox
  import opened World
  import opened Delivery
  import opened Interleaving

  // --- the deciding stage ---

  // Peers that differ only in the order of the votes of round `i` they hold.
  predicate SameButOrder(i: nat, p: Peer, q: Peer) {
    && p == q.(box := p.box)
    && p.box == Box(Holding(i, View(p, i)).store, i)
    && q.box == Box(Holding(i, View(q, i)).store, i)
    && multiset(View(p, i)) == multiset(View(q, i))
  }

  lemma DecisionsIgnoreOrder(i: nat, p: Peer, q: Peer, truth: byte, rho: real, fault: Option<Fault>)
    requires SameButOrder(i, p, q)
    ensures var (p', f), (q', g) := DecideBit(p, i, truth, rho, fault), DecideBit(q, i, truth, rho, fault);
            SameButOrder(i, p', q') && f == g
  {
    DecideIgnoresOrder(View(p, i), View(q, i), p.core.blacklist, rho, truth);
    hide Decide;
    hide Holding;
  }

  lemma SweptAlike(i: nat, p: Peer, q: Peer)
    requires SameButOrder(i, p, q)
    ensures Sweep(p, i) == Sweep(q, i) && Sweep(p, i).box == Box(map[], i)
  {
    assert Forget(p.box, i) == Box(map[], i) && Forget(q.box, i) == Box(map[], i);
  }

  // Peer `j` in the sequential run, before and after deciding.
  function Ready(c: Setting, j: nat): Peer
    requires c.Shaped() && j < c.cfg.k
  {
    Seal(PeerDuring(c.cfg, c.net, c.start[j], c.i, c.exposed, c.cfg.k, j), c.i)
  }

  function Decision(c: Setting, j: nat): (Peer, Option<Fault>)
    requires c.Shaped() && j < c.cfg.k
  {
    DecideHonest(c.cfg, c.net, Ready(c, j), c.i, j)
  }

  function Expected(c: Setting, left: set<int>, j: nat): Peer
    requires c.Shaped() && j < c.cfg.k
  {
    if j in left then Ready(c, j) else Decision(c, j).0
  }

  ghost predicate SomeDecisionFails(c: Setting, left: set<int>)
    requires c.Shaped()
  {
    exists j: nat :: j < c.cfg.k && j !in left && Decision(c, j).1.Some?
  }

  // The jobs are over and each returned the fault it should.
  ghost predicate JobsWell(c: Setting, pcs: seq<Pc>) {
    |pcs| == c.cfg.k && JobsOver(pcs) && forall s :: 0 <= s < |pcs| ==> PcOk(c, pcs[s], s)
  }

  ghost predicate DecidingOk(c: Setting, sys: System, left: set<int>, failed: bool)
    requires c.Shaped()
  {
    && |sys.w| == c.cfg.k && left <= c.cfg.Honest() && JobsWell(c, sys.pcs) && !SomeBroken(sys.pcs)
    && (forall j :: 0 <= j < c.cfg.k ==> SameButOrder(c.i, sys.w[j], Expected(c, left, j)))
    && (failed <==> SomeDecisionFails(c, left))
  }

  lemma CountersAtEnd(c: Setting, pc: Pc, j: nat, p: Peer)
    requires c.Shaped() && j < c.cfg.k && pc.Ended? && CountersOk(c, pc, j, p)
    ensures p == PeerDuring(c.cfg, c.net, c.start[j], c.i, c.exposed, c.cfg.k, j).(box := p.box)
  {
    AckersCounted(c, j);
    hide Ackers;
    hide Acknowledged;
    hide Received;
    hide Holding;
  }

  lemma BoxAtEnd(c: Setting, pcs: seq<Pc>, j: nat, p: Peer)
    requires c.Valid() && |pcs| == c.cfg.k && j < c.cfg.k && JobsOver(pcs) && BoxOk(c, pcs, j, p)
    ensures var ms := Received(c.cfg, c.net, c.i, c.exposed, j, c.cfg.k);
            && multiset(View(p, c.i)) == multiset(ms)
            && SealTo(p.box, c.i) == Box(Holding(c.i, View(p, c.i)).store, c.i)
            && SealTo(Holding(c.i, ms), c.i) == Box(Holding(c.i, ms).store, c.i)
            && Lookup(Holding(c.i, ms).store, c.i, 0) == ms
  {
    var ms := Received(c.cfg, c.net, c.i, c.exposed, j, c.cfg.k);
    DeliveredAtEnd(c, pcs, j, c.cfg.k);
    HeldView(c.i, ms);
    SweptHolding(c.i, ms);
    SweptHolding(c.i, View(p, c.i));
    hide Received;
    hide Delivered;
    hide Holding;
    hide Lookup;
  }

  lemma SealedPeer(c: Setting, sys: System, j: nat)
    requires c.Valid() && VotingOk(c, sys) && JobsOver(sys.pcs) && j < c.cfg.k
    ensures SameButOrder(c.i, Seal(sys.w[j], c.i), Ready(c, j))
  {
    var p := sys.w[j];
    assert PeerOk(c, sys.pcs, j, p) && sys.pcs[j].Ended?;
    CountersAtEnd(c, sys.pcs[j], j, p);
    BoxAtEnd(c, sys.pcs, j, p);
    hide PeerOk;
    hide JobDone;
    hide Received;
    hide Holding;
    hide Lookup;
  }

  lemma AtTheSeal(c: Setting)
    requires c.Valid()
    ensures !SomeDecisionFails(c, c.cfg.Honest())
    ensures forall j: nat :: j < c.cfg.k ==> Expected(c, c.cfg.Honest(), j) == Ready(c, j)
  {
    hide Ready;
    hide DecideBit;
  }

  lemma SealingKeeps(c: Setting, sys: System)
    requires c.Valid() && VotingOk(c, sys) && sys.stage.Voting? && JobsOver(sys.pcs) && !SomeBroken(sys.pcs)
    ensures DecidingOk(c, Proceed(c, sys), c.cfg.Honest(), false)
  {
    forall j | 0 <= j < c.cfg.k ensures SameButOrder(c.i, Seal(sys.w[j], c.i), Ready(c, j)) {
      SealedPeer(c, sys, j);
    }
    forall j | 0 <= j < c.cfg.k ensures PcOk(c, sys.pcs[j], j) {
      assert PeerOk(c, sys.pcs, j, sys.w[j]);
    }
    AtTheSeal(c);
    hide PcOk;
    hide VotingOk;
    hide SameButOrder;
    hide Ready;
    hide Expected;
    hide SomeDecisionFails;
    hide Seal;
    hide SomeBroken;
  }

  lemma OneDecisionMore(c: Setting, left: set<int>, j: nat)
    requires c.Shaped() && j < c.cfg.k && j in left
    ensures SomeDecisionFails(c, left - {j}) <==> SomeDecisionFails(c, left) || Decision(c, j).1.Some?
  {
    hide Decision;
  }

  lemma DecidedPeer(c: Setting, p: Peer, left: set<int>, j: nat)
    requires c.Valid() && j < c.cfg.k && j in left && j !in c.cfg.byz
    requires SameButOrder(c.i, p, Expected(c, left, j))
    ensures var (p', fault) := DecideBit(p, c.i, c.cfg.truth[c.i], c.cfg.rho, c.net.verify(c.i, j));
            SameButOrder(c.i, p', Expected(c, left - {j}, j)) && fault == Decision(c, j).1
  {
    DecisionsIgnoreOrder(c.i, p, Ready(c, j), c.cfg.truth[c.i], c.cfg.rho, c.net.verify(c.i, j));
    hide SameButOrder;
    hide Ready;
    hide DecideBit;
  }

  lemma PeerAfterDecision(c: Setting, sys: System, left: set<int>, failed: bool, j: nat, x: nat)
    requires c.Valid() && DecidingOk(c, sys, left, failed) && sys.stage == Deciding(left, failed)
    requires j < c.cfg.k && j in left && x < c.cfg.k
    ensures SameButOrder(c.i, DecideOne(c, sys, j).w[x], Expected(c, left - {j}, x))
  {
    assert j in c.cfg.Honest() && SameButOrder(c.i, sys.w[x], Expected(c, left, x));
    if x == j {
      DecidedPeer(c, sys.w[j], left, j);
    }
    hide SameButOrder;
    hide Ready;
    hide Decision;
    hide DecideBit;
    hide DecidingOk;
  }

  lemma DecidingKeeps(c: Setting, sys: System, left: set<int>, failed: bool, j: nat)
    requires c.Valid() && DecidingOk(c, sys, left, failed) && sys.stage == Deciding(left, failed)
    requires j < c.cfg.k && j in left
    ensures var sys' := DecideOne(c, sys, j);
            sys'.stage.Deciding? && DecidingOk(c, sys', sys'.stage.left, sys'.stage.failed)
  {
    assert j in c.cfg.Honest() && SameButOrder(c.i, sys.w[j], Expected(c, left, j));
    DecidedPeer(c, sys.w[j], left, j);
    OneDecisionMore(c, left, j);
    var sys' := DecideOne(c, sys, j);
    forall x: nat | x < c.cfg.k ensures SameButOrder(c.i, sys'.w[x], Expected(c, left - {j}, x)) {
      PeerAfterDecision(c, sys, left, failed, j, x);
    }
    hide SameButOrder;
    hide Expected;
    hide Decision;
    hide DecideBit;
    hide JobsWell;
    hide SomeBroken;
    hide SomeDecisionFails;
  }

  // --- any schedule ---

  ghost predicate FinishedOk(c: Setting, sys: System)
    requires c.Shaped()
  {
    && |sys.w| == c.cfg.k && JobsWell(c, sys.pcs) && !SomeBroken(sys.pcs) && !SomeDecisionFails(c, {})
    && forall j :: 0 <= j < c.cfg.k ==> SweptOk(c, sys.w[j], j)
  }

  predicate SweptOk(c: Setting, p: Peer, j: nat)
    requires c.Shaped() && j < c.cfg.k
  {
    p == Sweep(Decision(c, j).0, c.i) && p.box == Box(map[], c.i)
  }

  ghost predicate Ok(c: Setting, sys: System)
    requires c.Shaped()
  {
    match sys.stage
    case Voting => VotingOk(c, sys)
    case Deciding(left, failed) => DecidingOk(c, sys, left, failed)
    case Finished => FinishedOk(c, sys)
    case Aborted =>
      |sys.w| == c.cfg.k && JobsWell(c, sys.pcs) && (SomeBroken(sys.pcs) || SomeDecisionFails(c, {}))
  }

  // Messages that come after the seal of their round change nothing.
  lemma StragglersAreDropped(c: Setting, sys: System, m: Message, t: nat)
    requires c.Valid() && Ok(c, sys) && !sys.stage.Aborted?
    ensures Straggler(c, sys, m, t) == sys
  {
    if t < |sys.w| && Late(c, sys.stage, m) {
      match sys.stage {
        case Voting => assert PeerOk(c, sys.pcs, t, sys.w[t]);
        case Deciding(left, failed) => assert SameButOrder(c.i, sys.w[t], Expected(c, left, t));
        case _ =>
      }
      assert m.round <= sys.w[t].box.sealed;
      assert sys.w[t := sys.w[t]] == sys.w;
    }
    hide PeerOk;
    hide Expected;
  }

  lemma AbortKeeps(c: Setting, sys: System)
    requires c.Valid() && Ok(c, sys)
    requires (sys.stage.Voting? && JobsOver(sys.pcs) && SomeBroken(sys.pcs)) || sys.stage == Deciding({}, true)
    ensures Ok(c, Proceed(c, sys))
  {
    if sys.stage.Voting? {
      forall j | 0 <= j < c.cfg.k ensures PcOk(c, sys.pcs[j], j) {
        assert PeerOk(c, sys.pcs, j, sys.w[j]);
      }
    }
    hide PcOk;
    hide SomeBroken;
    hide SomeDecisionFails;
    hide SameButOrder;
    hide Expected;
  }

  lemma SweptPeer(c: Setting, p: Peer, j: nat)
    requires c.Shaped() && j < c.cfg.k && SameButOrder(c.i, p, Expected(c, {}, j))
    ensures SweptOk(c, Sweep(p, c.i), j)
  {
    assert Expected(c, {}, j) == Decision(c, j).0;
    SweptAlike(c.i, p, Decision(c, j).0);
    hide Decision;
    hide SameButOrder;
    hide Sweep;
  }

  lemma SweptState(c: Setting, sys: System)
    requires |sys.w| == |sys.pcs| == c.cfg.k && sys.stage == Deciding({}, false)
    ensures var sys' := Proceed(c, sys);
            && sys'.stage.Finished? && sys'.pcs == sys.pcs
            && forall j :: 0 <= j < c.cfg.k ==> sys'.w[j] == Sweep(sys.w[j], c.i)
  {
    hide Sweep;
  }

  lemma SweepingKeeps(c: Setting, sys: System)
    requires c.Valid() && DecidingOk(c, sys, {}, false) && sys.stage == Deciding({}, false)
    ensures FinishedOk(c, Proceed(c, sys)) && Proceed(c, sys).stage.Finished?
  {
    hide SameButOrder;
    hide Expected;
    hide SweptOk;
    hide JobsWell;
    hide SomeBroken;
    hide SomeDecisionFails;
    assert |sys.pcs| == c.cfg.k by {
      WellCounts(c, sys.pcs);
    }
    SweptState(c, sys);
    hide Proceed;
    forall j | 0 <= j < c.cfg.k ensures SweptOk(c, Sweep(sys.w[j], c.i), j) {
      SweptPeer(c, sys.w[j], j);
    }
    hide Sweep;
  }

  lemma WellCounts(c: Setting, pcs: seq<Pc>)
    requires JobsWell(c, pcs)
    ensures |pcs| == c.cfg.k
  {
  }

  lemma ProceedKeeps(c: Setting, sys: System)
    requires c.Valid() && |sys.w| == |sys.pcs| == c.cfg.k && Ok(c, sys)
    ensures Ok(c, Proceed(c, sys))
  {
    match sys.stage
    case Voting =>
      if JobsOver(sys.pcs) {
        if SomeBroken(sys.pcs) {
          AbortKeeps(c, sys);
        } else {
          SealingKeeps(c, sys);
        }
      }
    case Deciding(left, failed) =>
      if left == {} {
        if failed {
          AbortKeeps(c, sys);
        } else {
          SweepingKeeps(c, sys);
        }
      }
    case _ =>
    hide VotingOk;
    hide DecidingOk;
    hide FinishedOk;
    hide SomeBroken;
    hide JobsOver;
    hide JobsWell;
    hide Seal;
    hide Sweep;
    hide SomeDecisionFails;
  }

  lemma DecideOneKeeps(c: Setting, sys: System, j: nat)
    requires c.Valid() && |sys.w| == |sys.pcs| == c.cfg.k && Ok(c, sys)
    ensures Ok(c, DecideOne(c, sys, j))
  {
    if sys.stage.Deciding? && j < c.cfg.k && j in sys.stage.left {
      DecidingKeeps(c, sys, sys.stage.left, sys.stage.failed, j);
    }
    hide DecidingOk;
    hide VotingOk;
    hide DecideBit;
  }

  lemma StepKeepsOk(c: Setting, sys: System, a: Action)
    requires c.Valid() && |sys.w| == |sys.pcs| == c.cfg.k && Ok(c, sys)
    ensures Ok(c, Step(c, sys, a))
  {
    match a
    case Main => ProceedKeeps(c, sys);
    case Straggle(m, t) =>
      if !sys.stage.Aborted? {
        StragglersAreDropped(c, sys, m, t);
      }
    case DecideStep(j) => DecideOneKeeps(c, sys, j);
    case _ =>
      if sys.stage.Voting? {
        VoteKeeps(c, sys, a);
      }
    hide VotingOk;
    hide DecidingOk;
    hide Vote;
    hide Proceed;
    hide DecideOne;
    hide JobsWell;
    hide SomeBroken;
    hide SomeDecisionFails;
    hide Receive;
  }

  lemma {:induction false} ExecuteKeepsOk(c: Setting, sys: System, schedule: seq<Action>)
    requires c.Valid() && |sys.w| == |sys.pcs| == c.cfg.k && Ok(c, sys)
    ensures Ok(c, Execute(c, sys, schedule))
    decreases |schedule|
  {
    hide Ok;
    hide Step;
    if schedule != [] {
      StepKeepsOk(c, sys, schedule[0]);
      ExecuteKeepsOk(c, Step(c, sys, schedule[0]), schedule[1..]);
    }
  }

  function Launch(w: seq<Peer>): System {
    System(w, seq(|w|, _ => Idle), Voting)
  }

  lemma LaunchOk(c: Setting)
    requires c.Valid()
    ensures Ok(c, Launch(c.start))
  {
    var sys := Launch(c.start);
    forall j | 0 <= j < c.cfg.k ensures PeerOk(c, sys.pcs, j, sys.w[j]) {
      NothingDelivered(c, sys.pcs, j, c.cfg.k);
      HeldView(c.i, []);
    }
  }

  // --- progress ---

  // How many steps the job of peer `s` can still take, at most.
  function JobLeft(c: Setting, pc: Pc, s: int): int {
    match pc
    case Idle => Sum(CopiesDue(c, s)) + c.cfg.k + 4
    case Asked => Sum(CopiesDue(c, s)) + c.cfg.k + 3
    case Recorded => Sum(CopiesDue(c, s)) + c.cfg.k + 2
    case Sending(left, open, _) => Sum(left) + |open| + 1
    case Ended(_, _) => 0
  }

  function JobsLeft(c: Setting, pcs: seq<Pc>): seq<int> {
    seq(|pcs|, s requires 0 <= s < |pcs| => JobLeft(c, pcs[s], s))
  }

  function StepsLeft(c: Setting, sys: System): int {
    match sys.stage
    case Voting => Sum(JobsLeft(c, sys.pcs)) + |c.cfg.Honest()| + 2
    case Deciding(left, _) => |left| + 1
    case _ => 0
  }

  lemma SumNonNegative(s: seq<int>)
    requires forall x :: 0 <= x < |s| ==> 0 <= s[x]
    ensures 0 <= Sum(s)
  {
  }

  lemma StepsLeftBound(c: Setting, sys: System)
    ensures 0 <= StepsLeft(c, sys)
  {
    if sys.stage.Voting? {
      forall s | 0 <= s < |sys.pcs| ensures 0 <= JobLeft(c, sys.pcs[s], s) {
        SumNonNegative(CopiesDue(c, s));
        if sys.pcs[s].Sending? {
          SumNonNegative(sys.pcs[s].left);
        }
      }
      SumNonNegative(JobsLeft(c, sys.pcs));
    }
  }

  // Step `a` brings the job of peer `s` closer to its end.
  predicate Helps(c: Setting, sys: System, s: nat, a: Action)
    requires c.Shaped() && |sys.w| == |sys.pcs| == c.cfg.k && s < c.cfg.k
  {
    var pcs := Vote(c, sys, a).pcs;
    pcs == sys.pcs[s := pcs[s]] && JobLeft(c, pcs[s], s) < JobLeft(c, sys.pcs[s], s)
  }

  lemma ReplyHelps(c: Setting, sys: System, s: nat, t: nat)
    requires c.Shaped() && |sys.w| == |sys.pcs| == c.cfg.k && s < c.cfg.k
    requires sys.pcs[s].Sending? && t in sys.pcs[s].open
    ensures Helps(c, sys, s, Reply(s, t))
  {
    var open := sys.pcs[s].open;
    assert |open - {t}| == |open| - 1;
    hide Sum;
  }

  lemma DeliveryHelps(c: Setting, sys: System, s: nat, t: nat)
    requires c.Shaped() && |sys.w| == |sys.pcs| == c.cfg.k && s < c.cfg.k
    requires sys.pcs[s].Sending? && t < |sys.pcs[s].left| && t < c.cfg.k && sys.pcs[s].left[t] > 0
    ensures Helps(c, sys, s, Deliver(s, t))
  {
    var left := sys.pcs[s].left;
    SumUpdate(left, t, left[t] - 1);
    hide Sum;
    hide Receive;
    hide VoteOf;
  }

  lemma SendingProgress(c: Setting, sys: System, s: nat) returns (a: Action)
    requires c.Valid() && VotingOk(c, sys) && s < c.cfg.k && sys.pcs[s].Sending?
    ensures Helps(c, sys, s, a)
  {
    assert PeerOk(c, sys.pcs, s, sys.w[s]);
    var Sending(left, open, first) := sys.pcs[s];
    assert |left| == c.cfg.k && open <= Others(c, s);
    if open != {} {
      var t :| t in open;
      assert t in Others(c, s);
      a := Reply(s, t);
      ReplyHelps(c, sys, s, t);
    } else if t :| 0 <= t < |left| && left[t] > 0 {
      a := Deliver(s, t);
      DeliveryHelps(c, sys, s, t);
    } else {
      a := JobStep(s);
      SumNonNegative(left);
      assert AllThrough(left, open) && Helps(c, sys, s, a);
    }
    hide *;
  }

  // A job that has not sent its vote yet.
  lemma StartHelps(c: Setting, sys: System, s: nat)
    requires c.Shaped() && |sys.w| == |sys.pcs| == c.cfg.k && s < c.cfg.k
    requires !sys.pcs[s].Sending? && !sys.pcs[s].Ended?
    ensures Helps(c, sys, s, JobStep(s))
  {
    SubsetSize(Others(c, s), UpTo(c.cfg.k));
    SumNonNegative(CopiesDue(c, s));
    hide Others;
    hide CopiesDue;
    hide Sum;
    hide Receive;
    hide VoteOf;
    hide VotesIn;
  }

  lemma JobProgress(c: Setting, sys: System, s: nat) returns (a: Action)
    requires c.Valid() && VotingOk(c, sys) && s < c.cfg.k && !sys.pcs[s].Ended?
    ensures Helps(c, sys, s, a)
  {
    if sys.pcs[s].Sending? {
      a := SendingProgress(c, sys, s);
    } else {
      a := JobStep(s);
      StartHelps(c, sys, s);
    }
    hide *;
  }

  lemma VotingProgress(c: Setting, sys: System, s: nat) returns (a: Action)
    requires c.Valid() && VotingOk(c, sys) && sys.stage.Voting? && s < c.cfg.k && !sys.pcs[s].Ended?
    ensures StepsLeft(c, Step(c, sys, a)) < StepsLeft(c, sys)
  {
    a := JobProgress(c, sys, s);
    var sys' := Vote(c, sys, a);
    assert sys' == Step(c, sys, a);
    SumUpdate(JobsLeft(c, sys.pcs), s, JobLeft(c, sys'.pcs[s], s));
    assert JobsLeft(c, sys'.pcs) == JobsLeft(c, sys.pcs)[s := JobLeft(c, sys'.pcs[s], s)];
    hide Sum;
    hide Vote;
    hide JobLeft;
    hide JobsLeft;
    hide VotingOk;
  }

  lemma SealProgress(c: Setting, sys: System)
    requires c.Shaped() && |sys.w| == |sys.pcs| == c.cfg.k && sys.stage.Voting? && JobsOver(sys.pcs)
    ensures StepsLeft(c, Step(c, sys, Main)) < StepsLeft(c, sys)
  {
    SumOfZeros(JobsLeft(c, sys.pcs));
    hide SomeBroken;
    hide Sum;
    hide Seal;
  }

  lemma DecidingProgress(c: Setting, sys: System, left: set<int>) returns (a: Action)
    requires c.Shaped() && |sys.w| == |sys.pcs| == c.cfg.k
    requires sys.stage.Deciding? && sys.stage.left == left <= c.cfg.Honest()
    ensures StepsLeft(c, Step(c, sys, a)) < StepsLeft(c, sys)
  {
    if left == {} {
      a := Main;
    } else {
      var j :| j in left;
      assert j in c.cfg.Honest() && 0 <= j < c.cfg.k;
      a := DecideStep(j);
      assert |left - {j}| == |left| - 1;
    }
    hide DecideBit;
    hide Sweep;
  }

  // Until the round is over some step brings it closer to its end.
  lemma RoundProgress(c: Setting, sys: System) returns (a: Action)
    requires c.Valid() && |sys.w| == |sys.pcs| == c.cfg.k && Ok(c, sys)
    requires sys.stage.Voting? || sys.stage.Deciding?
    ensures StepsLeft(c, Step(c, sys, a)) < StepsLeft(c, sys)
  {
    match sys.stage
    case Voting =>
      if s :| 0 <= s < c.cfg.k && !sys.pcs[s].Ended? {
        a := VotingProgress(c, sys, s);
      } else {
        a := Main;
        SealProgress(c, sys);
      }
    case Deciding(left, failed) =>
      a := DecidingProgress(c, sys, left);
    hide *;
  }

  lemma SumOfZeros(s: seq<int>)
    requires forall x :: 0 <= x < |s| ==> s[x] == 0
    ensures Sum(s) == 0
  {
  }

  // Every state a round can be in can be run to its end.
  lemma {:induction false} RoundCanFinish(c: Setting, sys: System) returns (schedule: seq<Action>)
    requires c.Valid() && |sys.w| == |sys.pcs| == c.cfg.k && Ok(c, sys)
    ensures var end := Execute(c, sys, schedule); end.stage.Finished? || end.stage.Aborted?
    decreases StepsLeft(c, sys)
  {
    StepsLeftBound(c, sys);
    if sys.stage.Finished? || sys.stage.Aborted? {
      schedule := [];
    } else {
      var a := RoundProgress(c, sys);
      StepKeepsOk(c, sys, a);
      StepsLeftBound(c, Step(c, sys, a));
      hide Ok;
      hide StepsLeft;
      hide Step;
      var rest := RoundCanFinish(c, Step(c, sys, a));
      schedule := [a] + rest;
      assert schedule[1..] == rest;
    }
  }
}
