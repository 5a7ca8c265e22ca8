// What each peer holds, and what its counters show, when it decides a bit: exactly, for
// any network.

module Delivery {
  import opened Tally
  import opened NodeRun
  import opened Mailbox
  import opened World
  import opened WholeRun

  // Peer `s` is due to vote in round `i`; it does so unless its committee query fails.
  predicate VotesIn(cfg: Config, i: int, exposed: set<int>, s: int) {
    if s in cfg.byz then cfg.adversary.Drip? ==> s in exposed else cfg.committee(i, s)
  }

  predicate Sends(cfg: Config, net: Net, i: int, exposed: set<int>, s: int) {
    VotesIn(cfg, i, exposed, s) && (s in cfg.byz || net.ask(i, s).None?)
  }

  // How often the vote of `s` reaches peer `j`: its own once, any other as the network says.
  function Arrivals(net: Net, i: int, s: int, j: int): nat {
    if j == s then 1 else net.copies(i, s, j)
  }

  function Repeat(m: Message, times: nat): (r: seq<Message>)
    ensures |r| == times
  {
    if times == 0 then [] else Repeat(m, times - 1) + [m]
  }

  // The votes of round `i` that peer `j` receives from the peers below `s`.
  function Received(cfg: Config, net: Net, i: nat, exposed: set<int>, j: int, s: nat): seq<Message>
    requires i < |cfg.truth| && IsBit(cfg.truth[i])
  {
    if s == 0 then []
    else
      Received(cfg, net, i, exposed, j, s - 1)
      + if Sends(cfg, net, i, exposed, s - 1) then Repeat(VoteOf(cfg, i, s - 1), Arrivals(net, i, s - 1, j)) else []
  }

  // A mailbox that holds just the votes `ms` of round `i`.
  function Holding(i: int, ms: seq<Message>): Box {
    Box(if ms == [] then map[] else map[i := map[0 := ms]], i - 1)
  }

  // A peer with its job for round `i` done, apart from its mailbox.
  function JobDone(cfg: Config, net: Net, p: Peer, i: int, j: int): Peer {
    if j in cfg.byz || !cfg.committee(i, j) then p
    else if net.ask(i, j).Some? then p.(sourceQueries := p.sourceQueries + 1)
    else
      p.(sourceQueries := p.sourceQueries + 1, primary := p.primary + 1,
         messagesSent := p.messagesSent + Acknowledged(net, i, j, cfg.k))
  }

  // Peer `j` once the peers below `s` have done their jobs.
  function PeerDuring(cfg: Config, net: Net, p: Peer, i: nat, exposed: set<int>, s: nat, j: int): Peer
    requires i < |cfg.truth| && IsBit(cfg.truth[i])
  {
    var done := if j < s then JobDone(cfg, net, p, i, j) else p;
    done.(box := Holding(i, Received(cfg, net, i, exposed, j, s)))
  }

  // The error of the job of peer `s`, given the target whose error arrives first.
  function JobFault(cfg: Config, net: Net, i: int, exposed: set<int>, s: int, first: int): Option<Fault> {
    if !VotesIn(cfg, i, exposed, s) then None
    else if s !in cfg.byz && net.ask(i, s).Some? then net.ask(i, s)
    else ReportedFrom(cfg, net, i, s, first)
  }

  lemma HoldingOneMore(i: nat, ms: seq<Message>, m: Message)
    requires i < TWO_TO_THE_31 && m.round == i && m.topic == 0
    ensures Receive(Holding(i, ms), m) == Holding(i, ms + [m])
  {
    var st := Holding(i, ms).store;
    assert Lookup(st, i, 0) == ms && ByTopic(st, i)[0 := ms + [m]] == map[0 := ms + [m]];
    assert Append(st, m) == map[i := map[0 := ms + [m]]];
  }

  lemma {:induction false} HoldingMore(i: nat, ms: seq<Message>, m: Message, times: nat)
    requires i < TWO_TO_THE_31 && m.round == i && m.topic == 0
    ensures ReceiveTimes(Holding(i, ms), m, times) == Holding(i, ms + Repeat(m, times))
  {
    if times == 0 {
      assert ms + Repeat(m, 0) == ms;
    } else {
      HoldingMore(i, ms, m, times - 1);
      HoldingOneMore(i, ms + Repeat(m, times - 1), m);
      assert ms + Repeat(m, times) == (ms + Repeat(m, times - 1)) + [m];
      hide Holding;
    }
  }

  lemma HeldView(i: nat, ms: seq<Message>)
    ensures Lookup(Holding(i, ms).store, i, 0) == ms
  {
  }

  lemma ReceiveIsOnce(b: Box, m: Message)
    ensures ReceiveTimes(b, m, 1) == Receive(b, m)
  {
    assert ReceiveTimes(b, m, 0) == b;
  }

  // What a vote of peer `s` does to peer `j`.
  lemma BroadcastReaches(cfg: Config, net: Net, w: seq<Peer>, i: nat, ms: seq<Message>, s: nat, m: Message, j: nat)
    requires cfg.Fits() && |w| == cfg.k && i < |cfg.truth| && s < cfg.k && j < cfg.k
    requires m.round == i && m.topic == 0 && w[j].box == Holding(i, ms)
    ensures Broadcast(cfg, net, w, s, m)[j]
         == w[j].(box := Holding(i, ms + Repeat(m, Arrivals(net, i, s, j))),
                  messagesSent := w[j].messagesSent
                    + if j == s && s !in cfg.byz then Acknowledged(net, i, s, cfg.k) else 0)
  {
    HoldingMore(i, ms, m, Arrivals(net, i, s, j));
    ReceiveIsOnce(w[j].box, m);
    hide Holding;
    hide Receive;
    hide ReceiveTimes;
  }

  lemma JobReaches(cfg: Config, net: Net, w: seq<Peer>, p: Peer, i: nat, exposed: set<int>, s: nat, j: nat)
    requires cfg.Valid() && cfg.Fits() && |w| == cfg.k && i < |cfg.truth| && s < cfg.k && j < cfg.k
    requires w[j] == PeerDuring(cfg, net, p, i, exposed, s, j)
    ensures var (w', fault) := Job(cfg, net, w, i, exposed, s);
            && w'[j] == PeerDuring(cfg, net, p, i, exposed, s + 1, j)
            && fault == JobFault(cfg, net, i, exposed, s, net.first(i, s))
  {
    var ms, m := Received(cfg, net, i, exposed, j, s), VoteOf(cfg, i, s);
    assert Received(cfg, net, i, exposed, j, s + 1)
        == ms + if Sends(cfg, net, i, exposed, s) then Repeat(m, Arrivals(net, i, s, j)) else [];
    hide Broadcast;
    hide ReportedFrom;
    hide Received;
    hide Holding;
    hide Acknowledged;
    assert ms + [] == ms;
    if Sends(cfg, net, i, exposed, s) {
      if s in cfg.byz {
        BroadcastReaches(cfg, net, w, i, ms, s, m, j);
      } else {
        var asked := w[s].(sourceQueries := w[s].sourceQueries + 1);
        BroadcastReaches(cfg, net, w[s := asked.(primary := asked.primary + 1)], i, ms, s, m, j);
      }
    }
  }

  lemma BeforeJobs(cfg: Config, net: Net, p: Peer, i: nat, exposed: set<int>, j: nat)
    requires i < |cfg.truth| && IsBit(cfg.truth[i]) && p.box == Box(map[], i - 1)
    ensures PeerDuring(cfg, net, p, i, exposed, 0, j) == p
  {
  }

  // The state of every peer in the middle of the voting phase.
  lemma {:induction false} JobsReach(cfg: Config, net: Net, w: seq<Peer>, i: nat, exposed: set<int>, s: nat, j: nat)
    requires cfg.Valid() && cfg.Fits() && |w| == cfg.k && i < |cfg.truth| && s <= cfg.k && j < cfg.k
    requires w[j].box == Box(map[], i - 1)
    ensures Jobs(cfg, net, w, i, exposed, s).w[j] == PeerDuring(cfg, net, w[j], i, exposed, s, j)
  {
    assert IsBit(cfg.truth[i]);
    hide *;
    if s == 0 {
      BeforeJobs(cfg, net, w[j], i, exposed, j);
      JobsAtStart(cfg, net, w, i, exposed);
    } else {
      JobsUnfold(cfg, net, w, i, exposed, s);
      JobsReach(cfg, net, w, i, exposed, s - 1, j);
      JobReaches(cfg, net, Jobs(cfg, net, w, i, exposed, s - 1).w, w[j], i, exposed, s - 1, j);
    }
  }

  // --- which jobs fail ---

  lemma JobFaultIs(cfg: Config, net: Net, w: seq<Peer>, i: nat, exposed: set<int>, s: nat)
    requires |w| == cfg.k && s < cfg.k && i < |cfg.truth| && IsBit(cfg.truth[i])
    ensures Job(cfg, net, w, i, exposed, s).1 == JobFault(cfg, net, i, exposed, s, net.first(i, s))
  {
    hide Broadcast;
    hide ReportedFrom;
  }

  ghost predicate SomeJobBreaks(cfg: Config, net: Net, i: int, exposed: set<int>, s: nat) {
    exists x :: 0 <= x < s && JobFault(cfg, net, i, exposed, x, net.first(i, x)) == Some(Broken)
  }

  lemma {:induction false} JobsFail(cfg: Config, net: Net, w: seq<Peer>, i: nat, exposed: set<int>, s: nat)
    requires |w| == cfg.k && s <= cfg.k && i < |cfg.truth| && IsBit(cfg.truth[i])
    ensures Jobs(cfg, net, w, i, exposed, s).failed <==> SomeJobBreaks(cfg, net, i, exposed, s)
  {
    hide Job;
    hide JobFault;
    if s > 0 {
      JobsFail(cfg, net, w, i, exposed, s - 1);
      JobFaultIs(cfg, net, Jobs(cfg, net, w, i, exposed, s - 1).w, i, exposed, s - 1);
    }
  }

  function MissedJobs(cfg: Config, net: Net, i: int, exposed: set<int>, s: nat): set<nat> {
    set x: nat | x < s && JobFault(cfg, net, i, exposed, x, net.first(i, x)) == Some(Deadline)
  }

  // The missed counter is the number of jobs that return the deadline's error.
  lemma {:induction false} JobsMissed(cfg: Config, net: Net, w: seq<Peer>, i: nat, exposed: set<int>, s: nat)
    requires |w| == cfg.k && s <= cfg.k && i < |cfg.truth| && IsBit(cfg.truth[i])
    ensures Jobs(cfg, net, w, i, exposed, s).missed == |MissedJobs(cfg, net, i, exposed, s)|
  {
    hide Job;
    hide JobFault;
    if s == 0 {
      assert MissedJobs(cfg, net, i, exposed, s) == {};
    } else {
      JobsMissed(cfg, net, w, i, exposed, s - 1);
      JobFaultIs(cfg, net, Jobs(cfg, net, w, i, exposed, s - 1).w, i, exposed, s - 1);
      var late := JobFault(cfg, net, i, exposed, s - 1, net.first(i, s - 1)) == Some(Deadline);
      assert MissedJobs(cfg, net, i, exposed, s)
          == MissedJobs(cfg, net, i, exposed, s - 1) + if late then {s - 1} else {};
    }
  }

  // --- the moment of decision ---

  // Every mailbox is empty and its window open from round `i` on.
  ghost predicate AllEmpty(w: seq<Peer>, i: int) {
    forall j :: 0 <= j < |w| ==> w[j].box == Box(map[], i - 1)
  }

  lemma ReadyPeer(cfg: Config, net: Net, w: seq<Peer>, i: nat, j: nat)
    requires cfg.Valid() && cfg.Fits() && |w| == cfg.k && i < |cfg.truth| && j < cfg.k && AllEmpty(w, i)
    ensures AtDecision(cfg, net, w, i)[j] == Seal(PeerDuring(cfg, net, w[j], i, ExposedIn(cfg, w), cfg.k, j), i)
    ensures View(AtDecision(cfg, net, w, i)[j], i) == Received(cfg, net, i, ExposedIn(cfg, w), j, cfg.k)
  {
    JobsReach(cfg, net, w, i, ExposedIn(cfg, w), cfg.k, j);
    HeldView(i, Received(cfg, net, i, ExposedIn(cfg, w), j, cfg.k));
    hide Jobs;
    hide Received;
    hide ExposedIn;
    hide Holding;
  }

  // The decisions and the sweep, from the peers that are `ready`; None if a query fails.
  function Concluded(cfg: Config, net: Net, ready: seq<Peer>, i: nat): Option<seq<Peer>>
    requires |ready| == cfg.k && i < |cfg.truth|
  {
    if exists j :: 0 <= j < cfg.k && DecideHonest(cfg, net, ready[j], i, j).1.Some? then None
    else Some(seq(cfg.k, j requires 0 <= j < cfg.k => Sweep(DecideHonest(cfg, net, ready[j], i, j).0, i)))
  }

  // How a round ends, in terms of what each job and each peer met with.
  lemma RoundEnds(cfg: Config, net: Net, w: seq<Peer>, i: nat)
    requires cfg.Valid() && |w| == cfg.k && i < |cfg.truth|
    ensures Round(cfg, net, w, i)
         == if SomeJobBreaks(cfg, net, i, ExposedIn(cfg, w), cfg.k) then None
            else Concluded(cfg, net, AtDecision(cfg, net, w, i), i)
  {
    JobsFail(cfg, net, w, i, ExposedIn(cfg, w), cfg.k);
    hide Jobs;
    hide AtDecision;
    hide DecideHonest;
    hide SomeJobBreaks;
  }

  lemma {:induction false} RoundsStartEmpty(cfg: Config, net: Net, i: nat)
    requires cfg.Valid() && cfg.Fits() && i <= |cfg.truth| && Rounds(cfg, net, i).Some?
    ensures AllEmpty(Rounds(cfg, net, i).value, i)
  {
    hide Round;
    if i > 0 {
      var w := Rounds(cfg, net, i - 1).value;
      RoundsStartEmpty(cfg, net, i - 1);
      var after := Round(cfg, net, w, i - 1).value;
      forall j | 0 <= j < cfg.k ensures after[j].box == Box(map[], i - 1) {
        RoundLeavesEmpty(cfg, net, w, i - 1, j);
      }
    }
  }

  lemma RoundLeavesEmpty(cfg: Config, net: Net, w: seq<Peer>, i: nat, j: nat)
    requires cfg.Valid() && cfg.Fits() && |w| == cfg.k && i < |cfg.truth| && j < cfg.k && AllEmpty(w, i)
    requires Round(cfg, net, w, i).Some?
    ensures Round(cfg, net, w, i).value[j].box == Box(map[], i)
  {
    ReadyPeer(cfg, net, w, i, j);
    RoundAt(cfg, net, w, i, j);
    SweptHolding(i, Received(cfg, net, i, ExposedIn(cfg, w), j, cfg.k));
    hide Round;
    hide AtDecision;
    hide Decide;
    hide Holding;
    hide Received;
    hide ExposedIn;
  }

  lemma SweptHolding(i: nat, ms: seq<Message>)
    requires i < TWO_TO_THE_31
    ensures Forget(SealTo(Holding(i, ms), i), i) == Box(map[], i)
    ensures SealTo(Holding(i, ms), i) == Box(Holding(i, ms).store, i)
  {
  }

  // The votes an honest peer decides on: one from each voter the network let through, and
  // as many copies of it as arrived.
  lemma ViewIsReceived(cfg: Config, net: Net, j: nat, i: nat)
    requires cfg.Valid() && cfg.Fits() && j < cfg.k && i < |cfg.truth| && Rounds(cfg, net, i).Some?
    ensures ViewOf(cfg, net, j, i)
         == Received(cfg, net, i, ExposedIn(cfg, Rounds(cfg, net, i).value), j, cfg.k)
  {
    RoundsStartEmpty(cfg, net, i);
    ReadyPeer(cfg, net, Rounds(cfg, net, i).value, i, j);
    hide Rounds;
    hide AtDecision;
  }
}
