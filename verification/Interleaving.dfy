// One bit-round executed concurrently, over any network. Each peer's job is a series of
// small steps -- ask the source, record the query, store the own vote -- and so is each of
// its sends: copies of the vote reach their target one by one, and the sender learns how
// the request ended. The steps of all jobs interleave freely; so do the decisions, and
// messages that come too late. The main thread seals when all jobs have ended and sweeps
// when all honest peers have decided, unless some error ends the run. A schedule is the
// sequence of steps taken.

module Interleaving {
  import opened Tally
  import opened NodeRun
  import opened Mailbox
  import opened World
  import opened Delivery

  // A job sending its vote: the copies still under way to each target, the targets whose
  // request has not ended, and the one whose error arrived first.
  datatype Pc =
    | Idle
    | Asked
    | Recorded
    | Sending(left: seq<nat>, open: set<int>, first: Option<int>)
    | Ended(fault: Option<Fault>, first: Option<int>)

  datatype Stage = Voting | Deciding(left: set<int>, failed: bool) | Finished | Aborted

  datatype System = System(w: seq<Peer>, pcs: seq<Pc>, stage: Stage)

  datatype Action =
    | JobStep(s: nat)
    | Deliver(s: nat, target: nat)      // one copy of the vote of `s` arrives
    | Reply(s: nat, target: nat)        // peer `s` learns how its request to `target` ended
    | Straggle(m: Message, target: nat) // a message arrives after its round was sealed
    | DecideStep(j: nat)
    | Main

  // Round `i`, the peers at its start, and the Byzantine peers told to vote.
  datatype Setting = Setting(cfg: Config, net: Net, i: nat, exposed: set<int>, start: seq<Peer>)
  {
    predicate Shaped() {
      i < |cfg.truth| && IsBit(cfg.truth[i]) && |start| == cfg.k
    }

    ghost predicate Valid() {
      Shaped() && cfg.Valid() && cfg.Fits() && AllEmpty(start, i) && exposed == ExposedIn(cfg, start)
    }
  }

  function Others(c: Setting, s: int): set<int> {
    UpTo(c.cfg.k) - {s}
  }

  function Put(sys: System, s: nat, p: Peer, pc: Pc): System
    requires s < |sys.w| == |sys.pcs|
  {
    sys.(w := sys.w[s := p], pcs := sys.pcs[s := pc])
  }

  function CopiesTo(c: Setting, s: int, t: int): nat {
    if t == s then 0 else c.net.copies(c.i, s, t)
  }

  function CopiesDue(c: Setting, s: int): seq<nat> {
    seq(c.cfg.k, t => CopiesTo(c, s, t))
  }

  function StoreOwn(c: Setting, sys: System, s: nat): System
    requires c.Shaped() && s < |sys.w| == |sys.pcs|
  {
    var p := sys.w[s];
    Put(sys, s, p.(box := Receive(p.box, VoteOf(c.cfg, c.i, s))), Sending(CopiesDue(c, s), Others(c, s), None))
  }

  predicate AllThrough(left: seq<nat>, open: set<int>) {
    open == {} && forall t :: 0 <= t < |left| ==> left[t] == 0
  }

  function FaultSeen(c: Setting, s: int, first: Option<int>): Option<Fault> {
    match first
    case None => None
    case Some(t) => c.net.lost(c.i, s, t)
  }

  // The next step of the job of peer `s` itself.
  function Advance(c: Setting, sys: System, s: nat): (sys': System)
    requires c.Shaped() && s < |sys.w| == |sys.pcs|
    ensures |sys'.w| == |sys.w| == |sys'.pcs| && sys'.stage == sys.stage
  {
    var p := sys.w[s];
    match sys.pcs[s]
    case Idle =>
      if !VotesIn(c.cfg, c.i, c.exposed, s) then Put(sys, s, p, Ended(None, None))
      else if s in c.cfg.byz then StoreOwn(c, sys, s)
      else Put(sys, s, p.(sourceQueries := p.sourceQueries + 1), Asked)
    case Asked =>
      if c.net.ask(c.i, s).Some? then Put(sys, s, p, Ended(c.net.ask(c.i, s), None))
      else Put(sys, s, p.(primary := p.primary + 1), Recorded)
    case Recorded => StoreOwn(c, sys, s)
    case Sending(left, open, first) =>
      if AllThrough(left, open) then Put(sys, s, p, Ended(FaultSeen(c, s, first), first)) else sys
    case Ended(_, _) => sys
  }

  function DeliverOne(c: Setting, sys: System, s: nat, t: nat): (sys': System)
    requires c.Shaped() && s < |sys.w| == |sys.pcs|
    ensures |sys'.w| == |sys.w| == |sys'.pcs| && sys'.stage == sys.stage
  {
    match sys.pcs[s]
    case Sending(left, open, first) =>
      if t < |left| && t < |sys.w| && left[t] > 0 then
        var q := sys.w[t];
        sys.(w := sys.w[t := q.(box := Receive(q.box, VoteOf(c.cfg, c.i, s)))],
             pcs := sys.pcs[s := Sending(left[t := left[t] - 1], open, first)])
      else sys
    case _ => sys
  }

  // Only honest sends that succeed are counted.
  function EndRequest(c: Setting, sys: System, s: nat, t: nat): (sys': System)
    requires c.Shaped() && s < |sys.w| == |sys.pcs|
    ensures |sys'.w| == |sys.w| == |sys'.pcs| && sys'.stage == sys.stage
  {
    var p := sys.w[s];
    match sys.pcs[s]
    case Sending(left, open, first) =>
      if t !in open then sys
      else if c.net.lost(c.i, s, t).Some? then
        Put(sys, s, p, Sending(left, open - {t}, if first.None? then Some(t) else first))
      else
        var sent := if s in c.cfg.byz then 0 else 1;
        Put(sys, s, p.(messagesSent := p.messagesSent + sent), Sending(left, open - {t}, first))
    case _ => sys
  }

  function Vote(c: Setting, sys: System, a: Action): (sys': System)
    requires c.Shaped() && |sys.w| == |sys.pcs| == c.cfg.k
    ensures |sys'.w| == |sys'.pcs| == c.cfg.k && sys'.stage == sys.stage
  {
    match a
    case JobStep(s) => if s < c.cfg.k then Advance(c, sys, s) else sys
    case Deliver(s, t) => if s < c.cfg.k then DeliverOne(c, sys, s, t) else sys
    case Reply(s, t) => if s < c.cfg.k then EndRequest(c, sys, s, t) else sys
    case _ => sys
  }

  predicate Late(c: Setting, stage: Stage, m: Message) {
    0 <= m.round && (m.round < c.i || (m.round == c.i && !stage.Voting?))
  }

  function Straggler(c: Setting, sys: System, m: Message, t: nat): (sys': System)
    requires |sys.w| == |sys.pcs|
    ensures |sys'.w| == |sys.w| == |sys'.pcs| && sys'.stage == sys.stage && sys'.pcs == sys.pcs
  {
    if t < |sys.w| && Late(c, sys.stage, m) then
      sys.(w := sys.w[t := sys.w[t].(box := Receive(sys.w[t].box, m))])
    else sys
  }

  predicate JobsOver(pcs: seq<Pc>) {
    forall s :: 0 <= s < |pcs| ==> pcs[s].Ended?
  }

  predicate SomeBroken(pcs: seq<Pc>) {
    exists s :: 0 <= s < |pcs| && pcs[s].Ended? && pcs[s].fault == Some(Broken)
  }

  // The main thread between the phases.
  function Proceed(c: Setting, sys: System): (sys': System)
    requires |sys.w| == |sys.pcs| == c.cfg.k
    ensures |sys'.w| == |sys'.pcs| == c.cfg.k
  {
    match sys.stage
    case Voting =>
      if !JobsOver(sys.pcs) then sys
      else if SomeBroken(sys.pcs) then sys.(stage := Aborted)
      else
        System(seq(c.cfg.k, j requires 0 <= j < c.cfg.k => Seal(sys.w[j], c.i)), sys.pcs,
               Deciding(c.cfg.Honest(), false))
    case Deciding(left, failed) =>
      if left != {} then sys
      else if failed then sys.(stage := Aborted)
      else System(seq(c.cfg.k, j requires 0 <= j < c.cfg.k => Sweep(sys.w[j], c.i)), sys.pcs, Finished)
    case _ => sys
  }

  function DecideOne(c: Setting, sys: System, j: nat): (sys': System)
    requires c.Shaped() && |sys.w| == |sys.pcs| == c.cfg.k
    ensures |sys'.w| == |sys'.pcs| == c.cfg.k
  {
    match sys.stage
    case Deciding(left, failed) =>
      if j < c.cfg.k && j in left then
        var (p, fault) := DecideBit(sys.w[j], c.i, c.cfg.truth[c.i], c.cfg.rho, c.net.verify(c.i, j));
        sys.(w := sys.w[j := p], stage := Deciding(left - {j}, failed || fault.Some?))
      else sys
    case _ => sys
  }

  function Step(c: Setting, sys: System, a: Action): (sys': System)
    requires c.Shaped() && |sys.w| == |sys.pcs| == c.cfg.k
    ensures |sys'.w| == |sys'.pcs| == c.cfg.k
  {
    match a
    case Main => Proceed(c, sys)
    case Straggle(m, t) => Straggler(c, sys, m, t)
    case DecideStep(j) => DecideOne(c, sys, j)
    case _ => if sys.stage.Voting? then Vote(c, sys, a) else sys
  }

  function Execute(c: Setting, sys: System, schedule: seq<Action>): (sys': System)
    requires c.Shaped() && |sys.w| == |sys.pcs| == c.cfg.k
    ensures |sys'.w| == |sys'.pcs| == c.cfg.k
    decreases |schedule|
  {
    if schedule == [] then sys else Execute(c, Step(c, sys, schedule[0]), schedule[1..])
  }

  // --- who has received what ---

  // How many copies of the vote of `s` peer `j` has received.
  function Got(c: Setting, pc: Pc, s: int, j: nat): int {
    match pc
    case Sending(left, _, _) => Arrivals(c.net, c.i, s, j) - if j < |left| then left[j] else 0
    case Ended(_, _) => if Sends(c.cfg, c.net, c.i, c.exposed, s) then Arrivals(c.net, c.i, s, j) else 0
    case _ => 0
  }

  function Times(x: int): nat {
    if x < 0 then 0 else x
  }

  // The votes of `s` that peer `j` has received.
  function Part(c: Setting, pc: Pc, s: int, j: nat): multiset<Message>
    requires c.Shaped()
  {
    multiset(Repeat(VoteOf(c.cfg, c.i, s), Times(Got(c, pc, s, j))))
  }

  // The votes delivered to peer `j` so far by the peers below `s`.
  function Delivered(c: Setting, pcs: seq<Pc>, j: nat, s: nat): multiset<Message>
    requires c.Shaped() && s <= |pcs|
  {
    if s == 0 then multiset{} else Delivered(c, pcs, j, s - 1) + Part(c, pcs[s - 1], s - 1, j)
  }

  lemma RepeatOneMore(m: Message, n: nat)
    ensures multiset(Repeat(m, n + 1)) == multiset(Repeat(m, n)) + multiset{m}
  {
    assert Repeat(m, n + 1) == Repeat(m, n) + [m];
  }

  lemma PartAfter(c: Setting, pc: Pc, pc': Pc, s: int, j: nat, more: bool)
    requires c.Shaped() && 0 <= Got(c, pc, s, j) && Got(c, pc', s, j) == Got(c, pc, s, j) + if more then 1 else 0
    ensures Part(c, pc', s, j) == Part(c, pc, s, j) + if more then multiset{VoteOf(c.cfg, c.i, s)} else multiset{}
  {
    RepeatOneMore(VoteOf(c.cfg, c.i, s), Got(c, pc, s, j));
    hide Got;
    hide VoteOf;
    hide Repeat;
  }

  lemma {:induction false} DeliveredAfter(c: Setting, pcs: seq<Pc>, j: nat, s: nat, t: nat, pc: Pc, more: bool)
    requires c.Shaped() && s < |pcs| && t <= |pcs| && 0 <= Got(c, pcs[s], s, j)
    requires Got(c, pc, s, j) == Got(c, pcs[s], s, j) + if more then 1 else 0
    ensures Delivered(c, pcs[s := pc], j, t)
         == Delivered(c, pcs, j, t) + if more && s < t then multiset{VoteOf(c.cfg, c.i, s)} else multiset{}
  {
    hide Got;
    hide VoteOf;
    hide Part;
    if t > 0 {
      DeliveredAfter(c, pcs, j, s, t - 1, pc, more);
      if t - 1 == s {
        PartAfter(c, pcs[s], pc, s, j, more);
      } else {
        assert pcs[s := pc][t - 1] == pcs[t - 1];
      }
    }
  }

  lemma {:induction false} DeliveredAtEnd(c: Setting, pcs: seq<Pc>, j: nat, s: nat)
    requires c.Shaped() && s <= |pcs| && JobsOver(pcs)
    ensures Delivered(c, pcs, j, s) == multiset(Received(c.cfg, c.net, c.i, c.exposed, j, s))
  {
    hide Sends;
    hide Arrivals;
    hide VoteOf;
    if s > 0 {
      DeliveredAtEnd(c, pcs, j, s - 1);
      assert pcs[s - 1].Ended?;
      assert Repeat(VoteOf(c.cfg, c.i, s - 1), 0) == [];
    }
  }

  lemma {:induction false} NothingDelivered(c: Setting, pcs: seq<Pc>, j: nat, s: nat)
    requires c.Shaped() && s <= |pcs| && forall x :: 0 <= x < |pcs| ==> pcs[x].Idle?
    ensures Delivered(c, pcs, j, s) == multiset{}
  {
    if s > 0 {
      NothingDelivered(c, pcs, j, s - 1);
      assert pcs[s - 1].Idle?;
      assert Repeat(VoteOf(c.cfg, c.i, s - 1), 0) == [];
    }
  }

  // --- the invariant of the voting stage ---

  // Of the ended requests, `first` is one that failed, or none did.
  ghost predicate FirstOk(c: Setting, s: int, open: set<int>, first: Option<int>) {
    match first
    case None => forall t :: t in Others(c, s) && t !in open ==> c.net.lost(c.i, s, t).None?
    case Some(t) => t in Others(c, s) && t !in open && c.net.lost(c.i, s, t).Some?
  }

  function FirstOf(first: Option<int>): int {
    match first
    case None => -1
    case Some(t) => t
  }

  ghost predicate PcOk(c: Setting, pc: Pc, s: int) {
    match pc
    case Idle => true
    case Asked => s !in c.cfg.byz && c.cfg.committee(c.i, s)
    case Recorded => s !in c.cfg.byz && Sends(c.cfg, c.net, c.i, c.exposed, s)
    case Sending(left, open, first) =>
      && Sends(c.cfg, c.net, c.i, c.exposed, s) && |left| == c.cfg.k && open <= Others(c, s)
      && (forall t :: 0 <= t < |left| ==> left[t] <= CopiesDue(c, s)[t])
      && FirstOk(c, s, open, first)
    case Ended(fault, first) => fault == JobFault(c.cfg, c.net, c.i, c.exposed, s, FirstOf(first))
  }

  // The targets whose requests succeed.
  function Ackers(c: Setting, s: int): set<int> {
    set t | t in Others(c, s) && c.net.lost(c.i, s, t).None?
  }

  predicate InCommittee(c: Setting, s: int) {
    s !in c.cfg.byz && c.cfg.committee(c.i, s)
  }

  // How far the counters of peer `s` are ahead of the round's start.
  function Asks(c: Setting, pc: Pc, s: int): nat {
    if !InCommittee(c, s) || pc.Idle? then 0 else 1
  }

  function Records(c: Setting, pc: Pc, s: int): nat {
    if !InCommittee(c, s) || c.net.ask(c.i, s).Some? || pc.Idle? || pc.Asked? then 0 else 1
  }

  function Acks(c: Setting, pc: Pc, s: int): nat {
    if !InCommittee(c, s) || c.net.ask(c.i, s).Some? then 0
    else
      match pc
      case Sending(_, open, _) => |Ackers(c, s) - open|
      case Ended(_, _) => |Ackers(c, s)|
      case _ => 0
  }

  predicate CountersOk(c: Setting, pc: Pc, j: nat, p: Peer)
    requires j < |c.start|
  {
    var p0 := c.start[j];
    && p.core == p0.core
    && p.sourceQueries == p0.sourceQueries + Asks(c, pc, j)
    && p.primary == p0.primary + Records(c, pc, j)
    && p.messagesSent == p0.messagesSent + Acks(c, pc, j)
  }

  predicate BoxOk(c: Setting, pcs: seq<Pc>, j: nat, p: Peer)
    requires c.Shaped()
  {
    p.box == Holding(c.i, View(p, c.i)) && multiset(View(p, c.i)) == Delivered(c, pcs, j, |pcs|)
  }

  ghost predicate PeerOk(c: Setting, pcs: seq<Pc>, j: nat, p: Peer)
    requires c.Shaped() && j < |pcs| == |c.start|
  {
    PcOk(c, pcs[j], j) && CountersOk(c, pcs[j], j, p) && BoxOk(c, pcs, j, p)
  }

  ghost predicate VotingOk(c: Setting, sys: System)
    requires c.Shaped()
  {
    && |sys.w| == |sys.pcs| == c.cfg.k
    && forall j :: 0 <= j < c.cfg.k ==> PeerOk(c, sys.pcs, j, sys.w[j])
  }

  // --- every step of the voting stage keeps it ---

  // Peer `s` moves to `pc` with counters as in `p`; if `more`, its vote reaches peer `to`.
  function Change(c: Setting, sys: System, s: nat, p: Peer, pc: Pc, more: bool, to: nat): System
    requires c.Shaped() && s < |sys.w| == |sys.pcs| && to < |sys.w|
  {
    var w := sys.w[s := p];
    sys.(w := if more then w[to := w[to].(box := Receive(w[to].box, VoteOf(c.cfg, c.i, s)))] else w,
         pcs := sys.pcs[s := pc])
  }

  // One copy more for peer `to`, if `more`; for everyone else as before.
  ghost predicate Moves(c: Setting, pc: Pc, pc': Pc, s: nat, more: bool, to: nat) {
    forall j: nat :: j < c.cfg.k ==> Got(c, pc', s, j) == Got(c, pc, s, j) + if more && j == to then 1 else 0
  }

  lemma GotSomething(c: Setting, pc: Pc, s: nat, j: nat)
    requires PcOk(c, pc, s) && s < c.cfg.k && j < c.cfg.k
    ensures 0 <= Got(c, pc, s, j)
  {
    hide FirstOk;
    hide Sends;
    hide JobFault;
    if pc.Sending? {
      assert pc.left[j] <= CopiesDue(c, s)[j];
    }
  }

  lemma BoxAfter(c: Setting, pcs: seq<Pc>, s: nat, pc: Pc, j: nat, p: Peer, p': Peer, more: bool)
    requires c.Valid() && s < |pcs| && BoxOk(c, pcs, j, p) && 0 <= Got(c, pcs[s], s, j)
    requires Got(c, pc, s, j) == Got(c, pcs[s], s, j) + if more then 1 else 0
    requires p'.box == if more then Receive(p.box, VoteOf(c.cfg, c.i, s)) else p.box
    ensures BoxOk(c, pcs[s := pc], j, p')
  {
    var m, v := VoteOf(c.cfg, c.i, s), View(p, c.i);
    DeliveredAfter(c, pcs, j, s, |pcs|, pc, more);
    HoldingOneMore(c.i, v, m);
    HeldView(c.i, v + [m]);
    hide Got;
    hide Delivered;
    hide Holding;
    hide Receive;
    hide Lookup;
  }

  lemma ChangeKeepsCounters(c: Setting, sys: System, s: nat, p: Peer, pc: Pc, more: bool, to: nat, j: nat)
    requires c.Shaped() && |sys.w| == |sys.pcs| == c.cfg.k && s < c.cfg.k && to < c.cfg.k && j < c.cfg.k
    requires if j == s then CountersOk(c, pc, s, p) else CountersOk(c, sys.pcs[j], j, sys.w[j])
    ensures var sys' := Change(c, sys, s, p, pc, more, to); CountersOk(c, sys'.pcs[j], j, sys'.w[j])
  {
    hide Receive;
    hide VoteOf;
    hide Asks;
    hide Records;
    hide Acks;
  }

  lemma ChangeKeepsBoxes(c: Setting, sys: System, s: nat, p: Peer, pc: Pc, more: bool, to: nat, j: nat)
    requires c.Valid() && |sys.w| == |sys.pcs| == c.cfg.k && s < c.cfg.k && to < c.cfg.k && j < c.cfg.k
    requires BoxOk(c, sys.pcs, j, sys.w[j]) && p.box == sys.w[s].box
    requires 0 <= Got(c, sys.pcs[s], s, j) && Moves(c, sys.pcs[s], pc, s, more, to)
    ensures var sys' := Change(c, sys, s, p, pc, more, to); BoxOk(c, sys'.pcs, j, sys'.w[j])
  {
    var sys' := Change(c, sys, s, p, pc, more, to);
    BoxAfter(c, sys.pcs, s, pc, j, sys.w[j], sys'.w[j], more && j == to);
    hide BoxOk;
    hide Got;
    hide Receive;
    hide VoteOf;
  }

  lemma ChangeKeepsPeer(c: Setting, sys: System, s: nat, p: Peer, pc: Pc, more: bool, to: nat, j: nat)
    requires c.Valid() && VotingOk(c, sys) && s < c.cfg.k && to < c.cfg.k && j < c.cfg.k
    requires PcOk(c, pc, s) && CountersOk(c, pc, s, p) && p.box == sys.w[s].box
    requires Moves(c, sys.pcs[s], pc, s, more, to)
    ensures var sys' := Change(c, sys, s, p, pc, more, to); PeerOk(c, sys'.pcs, j, sys'.w[j])
  {
    assert PeerOk(c, sys.pcs, j, sys.w[j]) && PeerOk(c, sys.pcs, s, sys.w[s]);
    GotSomething(c, sys.pcs[s], s, j);
    ChangeKeepsCounters(c, sys, s, p, pc, more, to, j);
    ChangeKeepsBoxes(c, sys, s, p, pc, more, to, j);
    hide VotingOk;
    hide BoxOk;
    hide CountersOk;
    hide PcOk;
    hide Moves;
    hide Receive;
    hide VoteOf;
  }

  lemma ChangeKeepsVoting(c: Setting, sys: System, s: nat, p: Peer, pc: Pc, more: bool, to: nat)
    requires c.Valid() && VotingOk(c, sys) && s < c.cfg.k && to < c.cfg.k
    requires PcOk(c, pc, s) && CountersOk(c, pc, s, p) && p.box == sys.w[s].box
    requires Moves(c, sys.pcs[s], pc, s, more, to)
    ensures VotingOk(c, Change(c, sys, s, p, pc, more, to))
  {
    forall j | 0 <= j < c.cfg.k
      ensures var sys' := Change(c, sys, s, p, pc, more, to); PeerOk(c, sys'.pcs, j, sys'.w[j])
    {
      ChangeKeepsPeer(c, sys, s, p, pc, more, to, j);
    }
    hide PeerOk;
    hide PcOk;
    hide CountersOk;
    hide Moves;
  }

  // --- the steps of a job ---

  function AckersUnder(c: Setting, s: int, j: nat): set<int> {
    set t | t in Ackers(c, s) && t < j
  }

  lemma {:induction false} AckersBelow(c: Setting, s: nat, j: nat)
    requires j <= c.cfg.k && s < c.cfg.k
    ensures |AckersUnder(c, s, j)| == Acknowledged(c.net, c.i, s, j)
  {
    assert forall t :: t in Ackers(c, s) <==> 0 <= t < c.cfg.k && t != s && c.net.lost(c.i, s, t).None?;
    hide Ackers;
    if j == 0 {
      assert AckersUnder(c, s, j) == {};
    } else {
      AckersBelow(c, s, j - 1);
      var before := AckersUnder(c, s, j - 1);
      assert AckersUnder(c, s, j) == before + if j - 1 in Ackers(c, s) then {j - 1} else {};
      assert j - 1 !in before;
    }
  }

  lemma AckersCounted(c: Setting, s: nat)
    requires s < c.cfg.k
    ensures |Ackers(c, s)| == Acknowledged(c.net, c.i, s, c.cfg.k)
  {
    AckersBelow(c, s, c.cfg.k);
    assert Ackers(c, s) == AckersUnder(c, s, c.cfg.k);
  }

  lemma NoFaultBelow(c: Setting, s: nat, j: nat)
    requires s < c.cfg.k && j <= c.cfg.k
    requires forall t :: t in Others(c, s) ==> c.net.lost(c.i, s, t).None?
    ensures FirstFault(c.net, c.i, s, j).None?
  {
    if j > 0 {
      NoFaultBelow(c, s, j - 1);
      assert j - 1 != s ==> j - 1 in Others(c, s);
    }
  }

  // A job whose requests have all ended returns the fault that arrived first.
  lemma SeenIsReported(c: Setting, s: nat, first: Option<int>)
    requires s < c.cfg.k && FirstOk(c, s, {}, first) && Sends(c.cfg, c.net, c.i, c.exposed, s)
    ensures FaultSeen(c, s, first) == JobFault(c.cfg, c.net, c.i, c.exposed, s, FirstOf(first))
  {
    if first.None? {
      NoFaultBelow(c, s, c.cfg.k);
    } else {
      assert first.value in Others(c, s);
    }
  }

  lemma StoreOwnMoves(c: Setting, pc: Pc, s: nat)
    requires s < c.cfg.k && (pc.Idle? || pc.Recorded?)
    ensures Moves(c, pc, Sending(CopiesDue(c, s), Others(c, s), None), s, true, s)
  {
  }

  lemma StoreOwnOk(c: Setting, s: nat)
    requires s < c.cfg.k && Sends(c.cfg, c.net, c.i, c.exposed, s)
    ensures PcOk(c, Sending(CopiesDue(c, s), Others(c, s), None), s)
    ensures Acks(c, Sending(CopiesDue(c, s), Others(c, s), None), s) == 0
  {
    assert Ackers(c, s) - Others(c, s) == {};
    hide Sends;
  }

  lemma StoreOwnKeeps(c: Setting, sys: System, s: nat)
    requires c.Valid() && VotingOk(c, sys) && s < c.cfg.k && Sends(c.cfg, c.net, c.i, c.exposed, s)
    requires sys.pcs[s].Recorded? || (sys.pcs[s].Idle? && s in c.cfg.byz)
    ensures VotingOk(c, StoreOwn(c, sys, s))
  {
    var pc := Sending(CopiesDue(c, s), Others(c, s), None);
    assert PeerOk(c, sys.pcs, s, sys.w[s]);
    StoreOwnMoves(c, sys.pcs[s], s);
    StoreOwnOk(c, s);
    assert CountersOk(c, pc, s, sys.w[s]);
    assert StoreOwn(c, sys, s) == Change(c, sys, s, sys.w[s], pc, true, s);
    hide *;
    ChangeKeepsVoting(c, sys, s, sys.w[s], pc, true, s);
  }

  // A job that does not send anything in this step.
  lemma QuietStepKeeps(c: Setting, sys: System, s: nat, p: Peer, pc: Pc)
    requires c.Valid() && VotingOk(c, sys) && s < c.cfg.k
    requires PcOk(c, pc, s) && CountersOk(c, pc, s, p) && p.box == sys.w[s].box
    requires forall j: nat :: j < c.cfg.k ==> Got(c, pc, s, j) == Got(c, sys.pcs[s], s, j)
    ensures VotingOk(c, Put(sys, s, p, pc))
  {
    assert Put(sys, s, p, pc) == Change(c, sys, s, p, pc, false, s);
    assert Moves(c, sys.pcs[s], pc, s, false, s);
    hide *;
    ChangeKeepsVoting(c, sys, s, p, pc, false, s);
  }

  lemma AskingKeeps(c: Setting, sys: System, s: nat)
    requires c.Valid() && VotingOk(c, sys) && s < c.cfg.k && (sys.pcs[s].Idle? || sys.pcs[s].Asked?)
    ensures VotingOk(c, Advance(c, sys, s))
  {
    assert PeerOk(c, sys.pcs, s, sys.w[s]);
    if sys.pcs[s].Idle? && s in c.cfg.byz && VotesIn(c.cfg, c.i, c.exposed, s) {
      StoreOwnKeeps(c, sys, s);
    } else {
      var sys' := Advance(c, sys, s);
      assert sys' == Put(sys, s, sys'.w[s], sys'.pcs[s]);
      AskingOk(c, sys, s);
      hide *;
      QuietStepKeeps(c, sys, s, sys'.w[s], sys'.pcs[s]);
    }
  }

  lemma AskingOk(c: Setting, sys: System, s: nat)
    requires c.Valid() && |sys.w| == |sys.pcs| == c.cfg.k && s < c.cfg.k && PeerOk(c, sys.pcs, s, sys.w[s])
    requires sys.pcs[s].Asked? || (sys.pcs[s].Idle? && !(s in c.cfg.byz && VotesIn(c.cfg, c.i, c.exposed, s)))
    ensures var sys' := Advance(c, sys, s);
            && PcOk(c, sys'.pcs[s], s) && CountersOk(c, sys'.pcs[s], s, sys'.w[s]) && sys'.w[s].box == sys.w[s].box
            && forall j: nat :: j < c.cfg.k ==> Got(c, sys'.pcs[s], s, j) == Got(c, sys.pcs[s], s, j)
  {
    hide BoxOk;
    hide ReportedFrom;
  }

  lemma EndingKeeps(c: Setting, sys: System, s: nat)
    requires c.Valid() && VotingOk(c, sys) && s < c.cfg.k && sys.pcs[s].Sending?
    requires AllThrough(sys.pcs[s].left, sys.pcs[s].open)
    ensures VotingOk(c, Advance(c, sys, s))
  {
    var pc := sys.pcs[s];
    var pc' := Ended(FaultSeen(c, s, pc.first), pc.first);
    assert PeerOk(c, sys.pcs, s, sys.w[s]);
    SeenIsReported(c, s, pc.first);
    assert Ackers(c, s) - {} == Ackers(c, s);
    assert CountersOk(c, pc', s, sys.w[s]) && PcOk(c, pc', s);
    assert forall j: nat :: j < c.cfg.k ==> Got(c, pc', s, j) == Got(c, pc, s, j);
    assert Advance(c, sys, s) == Put(sys, s, sys.w[s], pc');
    hide *;
    QuietStepKeeps(c, sys, s, sys.w[s], pc');
  }

  lemma DeliveryOk(c: Setting, pc: Pc, s: nat, t: nat, pc': Pc)
    requires PcOk(c, pc, s) && s < c.cfg.k && t < c.cfg.k && pc.Sending? && t < |pc.left| && pc.left[t] > 0
    requires pc' == pc.(left := pc.left[t := pc.left[t] - 1])
    ensures PcOk(c, pc', s) && Acks(c, pc', s) == Acks(c, pc, s)
    ensures Moves(c, pc, pc', s, true, t)
  {
    hide Sends;
    hide FirstOk;
    hide Ackers;
    hide Arrivals;
    hide Others;
  }

  lemma DeliveryKeeps(c: Setting, sys: System, s: nat, t: nat)
    requires c.Valid() && VotingOk(c, sys) && s < c.cfg.k && t < c.cfg.k
    requires sys.pcs[s].Sending? && t < |sys.pcs[s].left| && sys.pcs[s].left[t] > 0
    ensures VotingOk(c, DeliverOne(c, sys, s, t))
  {
    var pc := sys.pcs[s];
    var pc' := pc.(left := pc.left[t := pc.left[t] - 1]);
    assert PeerOk(c, sys.pcs, s, sys.w[s]);
    DeliveryOk(c, pc, s, t, pc');
    SameCounters(c, pc, pc', s, sys.w[s]);
    DeliveryIsChange(c, sys, s, t);
    hide *;
    ChangeKeepsVoting(c, sys, s, sys.w[s], pc', true, t);
  }

  lemma SameCounters(c: Setting, pc: Pc, pc': Pc, s: nat, p: Peer)
    requires s < |c.start| && CountersOk(c, pc, s, p)
    requires pc.Sending? && pc'.Sending? && Acks(c, pc', s) == Acks(c, pc, s)
    ensures CountersOk(c, pc', s, p)
  {
    hide Acks;
  }

  lemma DeliveryIsChange(c: Setting, sys: System, s: nat, t: nat)
    requires c.Shaped() && |sys.w| == |sys.pcs| == c.cfg.k && s < c.cfg.k && t < c.cfg.k
    requires sys.pcs[s].Sending? && t < |sys.pcs[s].left| && sys.pcs[s].left[t] > 0
    ensures var pc := sys.pcs[s];
            DeliverOne(c, sys, s, t)
            == Change(c, sys, s, sys.w[s], pc.(left := pc.left[t := pc.left[t] - 1]), true, t)
  {
    assert sys.w[s := sys.w[s]] == sys.w;
    hide Receive;
    hide VoteOf;
  }

  lemma ReplyOk(c: Setting, pc: Pc, s: nat, t: nat, pc': Pc)
    requires PcOk(c, pc, s) && s < c.cfg.k && pc.Sending? && t in pc.open
    requires pc' == pc.(open := pc.open - {t},
                        first := if c.net.lost(c.i, s, t).Some? && pc.first.None? then Some(t) else pc.first)
    ensures PcOk(c, pc', s)
    ensures Acks(c, pc', s)
         == Acks(c, pc, s) + if InCommittee(c, s) && c.net.lost(c.i, s, t).None? then 1 else 0
    ensures forall j: nat :: j < c.cfg.k ==> Got(c, pc', s, j) == Got(c, pc, s, j)
  {
    var a := Ackers(c, s);
    assert t in Others(c, s);
    if c.net.lost(c.i, s, t).None? {
      assert a - (pc.open - {t}) == (a - pc.open) + {t};
    } else {
      assert a - (pc.open - {t}) == a - pc.open;
    }
  }

  lemma ReplyKeeps(c: Setting, sys: System, s: nat, t: nat)
    requires c.Valid() && VotingOk(c, sys) && s < c.cfg.k && sys.pcs[s].Sending? && t in sys.pcs[s].open
    ensures VotingOk(c, EndRequest(c, sys, s, t))
  {
    var pc, sys' := sys.pcs[s], EndRequest(c, sys, s, t);
    assert PeerOk(c, sys.pcs, s, sys.w[s]);
    ReplyOk(c, pc, s, t, sys'.pcs[s]);
    assert sys' == Put(sys, s, sys'.w[s], sys'.pcs[s]);
    assert CountersOk(c, sys'.pcs[s], s, sys'.w[s]);
    hide *;
    QuietStepKeeps(c, sys, s, sys'.w[s], sys'.pcs[s]);
  }

  lemma AdvanceKeeps(c: Setting, sys: System, s: nat)
    requires c.Valid() && VotingOk(c, sys) && s < c.cfg.k
    ensures VotingOk(c, Advance(c, sys, s))
  {
    assert PeerOk(c, sys.pcs, s, sys.w[s]);
    match sys.pcs[s]
    case Recorded => StoreOwnKeeps(c, sys, s);
    case Sending(left, open, first) =>
      if AllThrough(left, open) {
        EndingKeeps(c, sys, s);
      }
    case Ended(_, _) =>
    case _ => AskingKeeps(c, sys, s);
  }

  lemma VoteKeeps(c: Setting, sys: System, a: Action)
    requires c.Valid() && VotingOk(c, sys)
    ensures VotingOk(c, Vote(c, sys, a))
  {
    match a
    case JobStep(s) =>
      if s < c.cfg.k {
        AdvanceKeeps(c, sys, s);
      }
    case Deliver(s, t) =>
      if s < c.cfg.k && sys.pcs[s].Sending? && t < c.cfg.k && t < |sys.pcs[s].left| && sys.pcs[s].left[t] > 0 {
        DeliveryKeeps(c, sys, s, t);
      }
    case Reply(s, t) =>
      if s < c.cfg.k && sys.pcs[s].Sending? && t in sys.pcs[s].open {
        ReplyKeeps(c, sys, s, t);
      }
    case _ =>
    hide VotingOk;
    hide Advance;
  }
}
