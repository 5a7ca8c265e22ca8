// Over any network: exactly which votes a peer decides on, how a Byzantine peer gets
// caught, when a round fails, and what the counters show. The statements speak of the
// configuration, the network and the blacklists, not of how the round computes them.

module Ballots {
  import opened Counting
  import opened Tally
  import opened NodeRun
  import opened World
  import opened WholeRun
  import opened Delivery

  // --- the drip adversary's voters ---

  function LiveUnder(cfg: Config, caught: set<int>, s: int): set<int> {
    set x | x in cfg.byz && x !in caught && x < s
  }

  // Peer `s` is Byzantine, unlisted, and among the first Exposure(rho) of those.
  predicate Exposes(cfg: Config, caught: set<int>, s: int) {
    s in cfg.byz && s !in caught && |LiveUnder(cfg, caught, s)| < Exposure(cfg.rho)
  }

  lemma LiveUnderOneMore(cfg: Config, caught: set<int>, t: nat)
    requires cfg.Valid()
    ensures |LiveUnder(cfg, caught, t + 1)|
         == |LiveUnder(cfg, caught, t)| + if t in cfg.byz && t !in caught then 1 else 0
    ensures |LiveUnder(cfg, caught, 0)| == 0
  {
    var live := t in cfg.byz && t !in caught;
    assert LiveUnder(cfg, caught, t + 1) == LiveUnder(cfg, caught, t) + if live then {t} else {};
    assert LiveUnder(cfg, caught, 0) == {};
  }

  lemma ExposedStep(cfg: Config, caught: set<int>, t: nat)
    requires cfg.Valid() && |Exposed(cfg, caught, t)| == Min(|LiveUnder(cfg, caught, t)|, Exposure(cfg.rho))
    ensures Exposed(cfg, caught, t + 1) == Exposed(cfg, caught, t) + if Exposes(cfg, caught, t) then {t} else {}
    ensures |Exposed(cfg, caught, t + 1)| == Min(|LiveUnder(cfg, caught, t + 1)|, Exposure(cfg.rho))
  {
    ExposedBelow(cfg, caught, t);
    LiveUnderOneMore(cfg, caught, t);
    var e := Exposed(cfg, caught, t);
    assert t !in e && |e + {t}| == |e| + 1;
    hide LiveUnder;
    hide Exposure;
  }

  lemma NobodyExposed(cfg: Config, caught: set<int>)
    requires cfg.Valid()
    ensures Exposed(cfg, caught, 0) == {} && Min(|LiveUnder(cfg, caught, 0)|, Exposure(cfg.rho)) == 0
  {
    LiveUnderOneMore(cfg, caught, 0);
  }

  lemma {:induction false} ExposedExactly(cfg: Config, caught: set<int>, t: nat)
    requires cfg.Valid()
    ensures |Exposed(cfg, caught, t)| == Min(|LiveUnder(cfg, caught, t)|, Exposure(cfg.rho))
    ensures forall s :: s in Exposed(cfg, caught, t) <==> 0 <= s < t && Exposes(cfg, caught, s)
  {
    hide *;
    if t == 0 {
      NobodyExposed(cfg, caught);
    } else {
      ExposedExactly(cfg, caught, t - 1);
      ExposedStep(cfg, caught, t - 1);
    }
  }

  // Peer `h` is the honest one with the least id.
  ghost predicate LeastHonest(cfg: Config, h: nat) {
    h < cfg.k && h !in cfg.byz && forall x :: 0 <= x < h ==> x in cfg.byz
  }

  // In round `i` the adversary has peer `s` vote: always, or under drip if it is among the
  // first live ones in the eyes of the least honest peer.
  ghost predicate Lies(cfg: Config, net: Net, i: nat, s: int)
    requires cfg.Valid() && i <= |cfg.truth| && Rounds(cfg, net, i).Some?
  {
    s in cfg.byz
    && (cfg.adversary.Drip? ==>
          exists h: nat :: LeastHonest(cfg, h) && Exposes(cfg, Rounds(cfg, net, i).value[h].core.blacklist, s))
  }

  lemma ExposedInExactly(cfg: Config, net: Net, i: nat, s: int)
    requires cfg.Valid() && i <= |cfg.truth| && Rounds(cfg, net, i).Some? && s in cfg.byz
    ensures VotesIn(cfg, i, ExposedIn(cfg, Rounds(cfg, net, i).value), s) <==> Lies(cfg, net, i, s)
  {
    var w := Rounds(cfg, net, i).value;
    var h := FirstHonest(cfg, 0);
    FirstHonestExists(cfg);
    FirstHonestSkipsByzantine(cfg, 0);
    assert LeastHonest(cfg, h);
    forall h' | LeastHonest(cfg, h') ensures h' == h {
    }
    ExposedExactly(cfg, w[h].core.blacklist, cfg.k);
    hide Exposed;
    hide Exposes;
    hide Rounds;
  }

  // --- the votes of a round ---

  // What a Byzantine peer says: its coin if the adversary is random, the false bit otherwise.
  function LieOf(cfg: Config, i: nat, s: int): byte
    requires i < |cfg.truth| && IsBit(cfg.truth[i])
  {
    if cfg.adversary == Random then cfg.coin(i, s) else if cfg.truth[i] == 0 then 1 else 0
  }

  // `m` is a vote sent in round `i`: the true bit from an honest member of the committee
  // that got it from the source, or the word of a Byzantine peer.
  ghost predicate IsVote(cfg: Config, net: Net, i: nat, m: Message)
    requires cfg.Valid() && i < |cfg.truth| && Rounds(cfg, net, i).Some?
  {
    && 0 <= m.sender < cfg.k && m.round == i && m.topic == 0
    && if m.sender in cfg.byz then Lies(cfg, net, i, m.sender) && m.value == [LieOf(cfg, i, m.sender)]
       else cfg.committee(i, m.sender) && net.ask(i, m.sender).None? && m.value == [cfg.truth[i]]
  }

  lemma RepeatCount(v: Message, times: nat, m: Message)
    ensures multiset(Repeat(v, times))[m] == if m == v then times else 0
  {
    if times > 0 {
      RepeatCount(v, times - 1, m);
    }
  }

  lemma {:induction false} ReceivedCount(
      cfg: Config, net: Net, i: nat, exposed: set<int>, j: int, s: nat, m: Message)
    requires i < |cfg.truth| && IsBit(cfg.truth[i])
    ensures multiset(Received(cfg, net, i, exposed, j, s))[m]
         == if 0 <= m.sender < s && Sends(cfg, net, i, exposed, m.sender) && m == VoteOf(cfg, i, m.sender)
            then Arrivals(net, i, m.sender, j) else 0
  {
    hide Sends;
    hide Repeat;
    hide Arrivals;
    if s > 0 {
      ReceivedCount(cfg, net, i, exposed, j, s - 1, m);
      RepeatCount(VoteOf(cfg, i, s - 1), Arrivals(net, i, s - 1, j), m);
    }
  }

  lemma SentIsVote(cfg: Config, net: Net, i: nat, m: Message)
    requires cfg.Valid() && i < |cfg.truth| && Rounds(cfg, net, i).Some? && 0 <= m.sender < cfg.k
    ensures Sends(cfg, net, i, ExposedIn(cfg, Rounds(cfg, net, i).value), m.sender) && m == VoteOf(cfg, i, m.sender)
            <==> IsVote(cfg, net, i, m)
  {
    if m.sender in cfg.byz {
      ExposedInExactly(cfg, net, i, m.sender);
    }
    hide Rounds;
    hide ExposedIn;
    hide Lies;
  }

  // Over any network and under any of the four adversaries: peer `j` decides round `i` on
  // every vote sent, as often as it arrived, its own once, and on nothing else.
  lemma VotesDecidedOn(cfg: Config, net: Net, j: nat, i: nat, m: Message)
    requires cfg.Valid() && cfg.Fits() && j < cfg.k && i < |cfg.truth| && Rounds(cfg, net, i).Some?
    ensures multiset(ViewOf(cfg, net, j, i))[m]
         == if !IsVote(cfg, net, i, m) then 0 else if m.sender == j then 1 else net.copies(i, m.sender, j)
  {
    ViewIsReceived(cfg, net, j, i);
    ReceivedCount(cfg, net, i, ExposedIn(cfg, Rounds(cfg, net, i).value), j, cfg.k, m);
    if 0 <= m.sender < cfg.k {
      SentIsVote(cfg, net, i, m);
    }
    hide Rounds;
    hide ExposedIn;
    hide Sends;
    hide VoteOf;
    hide Received;
    hide ViewOf;
    hide Lies;
  }

  // --- how Byzantine peers are caught ---

  // In round `t` peer `j` meets a conflict and has a false vote of `s` in hand.
  ghost predicate CaughtLying(cfg: Config, net: Net, j: nat, s: int, t: nat)
    requires cfg.Valid() && j < cfg.k && t < |cfg.truth|
  {
    && Rounds(cfg, net, t).Some? && RunOf(cfg, net, j).VerdictAt(t).conflict
    && Lies(cfg, net, t, s) && net.copies(t, s, j) > 0 && LieOf(cfg, t, s) != cfg.truth[t]
  }

  lemma CaughtIsLying(cfg: Config, net: Net, j: nat, s: int, t: nat)
    requires cfg.Valid() && cfg.Fits() && j < cfg.k && j !in cfg.byz && s in cfg.byz && t < |cfg.truth|
    requires Rounds(cfg, net, t).Some? && RunOf(cfg, net, j).Valid()
    ensures RunOf(cfg, net, j).CaughtIn(t, s) ==> CaughtLying(cfg, net, j, s, t)
    ensures CaughtLying(cfg, net, j, s, t) && s !in RunOf(cfg, net, j).After(t).blacklist
            ==> RunOf(cfg, net, j).CaughtIn(t, s)
  {
    var r, view := RunOf(cfg, net, j), ViewOf(cfg, net, j, t);
    assert r.views[t] == view && r.truth == cfg.truth;
    var black := r.After(t).blacklist;
    forall m ensures m in view <==> multiset(view)[m] > 0 {
      assert m in view <==> m in multiset(view);
    }
    hide ViewOf;
    hide Rounds;
    hide Decide;
    hide Lies;
    if m :| m in view && m.sender == s && VotesFor(m, black, Flip(cfg.truth[t])) {
      VotesDecidedOn(cfg, net, j, t, m);
      assert IsVote(cfg, net, t, m);
    }
    if CaughtLying(cfg, net, j, s, t) {
      var m := Message(s, t, 0, [LieOf(cfg, t, s)]);
      assert IsBit(LieOf(cfg, t, s));
      VotesDecidedOn(cfg, net, j, t, m);
      assert IsVote(cfg, net, t, m) && m in view;
    }
  }

  // An honest peer has a Byzantine one on its blacklist exactly if, in some conflict so
  // far, that one's vote was false and arrived.
  lemma CaughtExactly(cfg: Config, net: Net, j: nat, s: int, i: nat)
    requires cfg.Valid() && cfg.Fits() && j < cfg.k && j !in cfg.byz && s in cfg.byz
    requires i <= |cfg.truth| && Rounds(cfg, net, i).Some?
    ensures s in Rounds(cfg, net, i).value[j].core.blacklist
            <==> exists t: nat :: t < i && CaughtLying(cfg, net, j, s, t)
  {
    var r := RunOf(cfg, net, j);
    RunOfIsHonest(cfg, net, j);
    CoreFollowsRun(cfg, net, i, j);
    assert |r.views| == |cfg.truth|;
    r.BlacklistIsTheCaught(i, s);
    forall t: nat | t < i
      ensures r.CaughtIn(t, s) ==> CaughtLying(cfg, net, j, s, t)
      ensures CaughtLying(cfg, net, j, s, t) ==> s in r.After(i).blacklist
    {
      CaughtWhile(cfg, net, j, s, t, i);
    }
    hide *;
  }

  lemma CaughtWhile(cfg: Config, net: Net, j: nat, s: int, t: nat, i: nat)
    requires cfg.Valid() && cfg.Fits() && j < cfg.k && j !in cfg.byz && s in cfg.byz
    requires t < i <= |cfg.truth| && Rounds(cfg, net, i).Some? && RunOf(cfg, net, j).Valid()
    ensures RunOf(cfg, net, j).CaughtIn(t, s) ==> CaughtLying(cfg, net, j, s, t)
    ensures CaughtLying(cfg, net, j, s, t) ==> s in RunOf(cfg, net, j).After(i).blacklist
  {
    var r := RunOf(cfg, net, j);
    if Rounds(cfg, net, t).None? {
      FailureIsFinal(cfg, net, t, i);
    }
    CaughtIsLying(cfg, net, j, s, t);
    assert |r.views| == |r.truth| == |cfg.truth|;
    r.BlacklistGrows(t, i);
    r.BlacklistIsTheCaught(i, s);
    hide *;
  }

  // So a random peer is caught exactly in a conflict that its coin came up false in, and
  // never if its coin is always true.
  lemma RandomCaughtExactly(cfg: Config, net: Net, j: nat, s: int, i: nat)
    requires cfg.Valid() && cfg.Fits() && j < cfg.k && j !in cfg.byz && s in cfg.byz && cfg.adversary == Random
    requires i <= |cfg.truth| && Rounds(cfg, net, i).Some?
    ensures s in Rounds(cfg, net, i).value[j].core.blacklist
            <==> exists t: nat :: t < i && RunOf(cfg, net, j).VerdictAt(t).conflict
                                  && net.copies(t, s, j) > 0 && cfg.coin(t, s) != cfg.truth[t]
  {
    CaughtExactly(cfg, net, j, s, i);
    forall t: nat | t < i
      ensures CaughtLying(cfg, net, j, s, t)
        <==> RunOf(cfg, net, j).VerdictAt(t).conflict && net.copies(t, s, j) > 0 && cfg.coin(t, s) != cfg.truth[t]
    {
      if Rounds(cfg, net, t).None? {
        FailureIsFinal(cfg, net, t, i);
      }
    }
    hide Rounds;
    hide RunOf;
    hide Decide;
  }

  // --- when a round fails ---

  predicate Refused(cfg: Config, net: Net, i: nat, s: int, t: int) {
    0 <= t < cfg.k && t != s && net.lost(i, s, t).Some?
  }

  // Of the targets that refuse the vote of `s`, `t` is the one whose error arrives first.
  ghost predicate Reporter(cfg: Config, net: Net, i: nat, s: int, t: int) {
    && Refused(cfg, net, i, s, t)
    && (t == net.first(i, s)
        || (!Refused(cfg, net, i, s, net.first(i, s)) && forall u :: 0 <= u < t ==> !Refused(cfg, net, i, s, u)))
  }

  lemma {:induction false} FirstRefusal(cfg: Config, net: Net, i: nat, s: int, j: nat)
    requires j <= cfg.k
    ensures FirstFault(net, i, s, j).None? <==> forall u :: 0 <= u < j ==> !Refused(cfg, net, i, s, u)
    ensures FirstFault(net, i, s, j).Some? ==>
              exists t :: 0 <= t < j && Refused(cfg, net, i, s, t) && FirstFault(net, i, s, j) == net.lost(i, s, t)
                          && forall u :: 0 <= u < t ==> !Refused(cfg, net, i, s, u)
  {
    if j > 0 {
      FirstRefusal(cfg, net, i, s, j - 1);
      if FirstFault(net, i, s, j - 1).None? && FirstFault(net, i, s, j).Some? {
        assert Refused(cfg, net, i, s, j - 1);
      }
    }
  }

  ghost predicate Returns(cfg: Config, net: Net, i: nat, s: int, fault: Fault) {
    exists t :: Reporter(cfg, net, i, s, t) && net.lost(i, s, t) == Some(fault)
  }

  lemma ReportedExactly(cfg: Config, net: Net, i: nat, s: int, fault: Fault)
    ensures Reported(cfg, net, i, s) == Some(fault) <==> Returns(cfg, net, i, s, fault)
  {
    var first := net.first(i, s);
    FirstRefusal(cfg, net, i, s, cfg.k);
    if Refused(cfg, net, i, s, first) {
      assert Reporter(cfg, net, i, s, first);
    } else if FirstFault(net, i, s, cfg.k).Some? {
      var t :| 0 <= t < cfg.k && Refused(cfg, net, i, s, t) && FirstFault(net, i, s, cfg.k) == net.lost(i, s, t)
               && forall u :: 0 <= u < t ==> !Refused(cfg, net, i, s, u);
      assert Reporter(cfg, net, i, s, t);
      forall t' | Reporter(cfg, net, i, s, t') ensures t' == t {
      }
    }
    hide FirstFault;
  }

  // The job of `s` ends with an error that is not the deadline.
  ghost predicate JobBreaks(cfg: Config, net: Net, i: nat, s: int)
    requires cfg.Valid() && i < |cfg.truth| && Rounds(cfg, net, i).Some?
  {
    if s in cfg.byz then Lies(cfg, net, i, s) && Returns(cfg, net, i, s, Broken)
    else
      cfg.committee(i, s)
      && (net.ask(i, s) == Some(Broken) || (net.ask(i, s).None? && Returns(cfg, net, i, s, Broken)))
  }

  lemma JobBreaksExactly(cfg: Config, net: Net, i: nat, s: int)
    requires cfg.Valid() && i < |cfg.truth| && Rounds(cfg, net, i).Some?
    ensures JobFault(cfg, net, i, ExposedIn(cfg, Rounds(cfg, net, i).value), s, net.first(i, s)) == Some(Broken)
            <==> JobBreaks(cfg, net, i, s)
  {
    if s in cfg.byz {
      ExposedInExactly(cfg, net, i, s);
    }
    ReportedExactly(cfg, net, i, s, Broken);
    hide ReportedFrom;
    hide Returns;
    hide Lies;
    hide Rounds;
    hide ExposedIn;
  }

  lemma SomeJobBreaksExactly(cfg: Config, net: Net, i: nat)
    requires cfg.Valid() && i < |cfg.truth| && Rounds(cfg, net, i).Some?
    ensures SomeJobBreaks(cfg, net, i, ExposedIn(cfg, Rounds(cfg, net, i).value), cfg.k)
            <==> exists s :: 0 <= s < cfg.k && JobBreaks(cfg, net, i, s)
  {
    var exposed := ExposedIn(cfg, Rounds(cfg, net, i).value);
    forall s | 0 <= s < cfg.k
      ensures JobFault(cfg, net, i, exposed, s, net.first(i, s)) == Some(Broken) <==> JobBreaks(cfg, net, i, s)
    {
      JobBreaksExactly(cfg, net, i, s);
    }
    hide JobFault;
    hide JobBreaks;
    hide Rounds;
    hide ExposedIn;
  }

  // Peer `j` has to ask the source in round `i`: its votes clash, or none counts.
  ghost predicate NeedsSource(cfg: Config, net: Net, i: nat, j: nat)
    requires cfg.Valid() && j < cfg.k && i < |cfg.truth| && Rounds(cfg, net, i).Some?
  {
    var view, black := ViewOf(cfg, net, j, i), Rounds(cfg, net, i).value[j].core.blacklist;
    Clashing(view, black, cfg.rho) || (Votes(view, black, 0) == 0 && Votes(view, black, 1) == 0)
  }

  lemma DecisionFailsExactly(cfg: Config, net: Net, i: nat, j: nat)
    requires cfg.Valid() && cfg.Fits() && j < cfg.k && i < |cfg.truth| && Rounds(cfg, net, i).Some?
    ensures DecideHonest(cfg, net, AtDecision(cfg, net, Rounds(cfg, net, i).value, i)[j], i, j).1.Some?
            <==> j !in cfg.byz && NeedsSource(cfg, net, i, j) && net.verify(i, j).Some?
  {
    var w := Rounds(cfg, net, i).value;
    var p := AtDecision(cfg, net, w, i)[j];
    RoundsStartEmpty(cfg, net, i);
    ReadyPeer(cfg, net, w, i, j);
    assert j !in cfg.byz ==> p.core == w[j].core;
    QueriedExactly(View(p, i), w[j].core.blacklist, cfg.rho, cfg.truth[i]);
    assert ViewOf(cfg, net, j, i) == View(p, i);
    hide Rounds;
    hide AtDecision;
    hide ViewOf;
    hide View;
    hide Decide;
    hide Clashing;
    hide PeerDuring;
  }

  // A round that is reached fails exactly if some job ends with an error other than the
  // deadline, or some honest peer has to ask the source and its query fails.
  lemma RoundFailsExactly(cfg: Config, net: Net, i: nat)
    requires cfg.Valid() && cfg.Fits() && i < |cfg.truth| && Rounds(cfg, net, i).Some?
    ensures Rounds(cfg, net, i + 1).None?
            <==> (exists s :: 0 <= s < cfg.k && JobBreaks(cfg, net, i, s))
                 || exists j: nat :: j < cfg.k && j !in cfg.byz && NeedsSource(cfg, net, i, j) && net.verify(i, j).Some?
  {
    var w := Rounds(cfg, net, i).value;
    RoundEnds(cfg, net, w, i);
    SomeJobBreaksExactly(cfg, net, i);
    var ready := AtDecision(cfg, net, w, i);
    forall j: nat | j < cfg.k
      ensures DecideHonest(cfg, net, ready[j], i, j).1.Some?
              <==> j !in cfg.byz && NeedsSource(cfg, net, i, j) && net.verify(i, j).Some?
    {
      DecisionFailsExactly(cfg, net, i, j);
    }
    assert Rounds(cfg, net, i + 1) == Round(cfg, net, w, i);
    hide Rounds;
    hide Round;
    hide SomeJobBreaks;
    hide JobBreaks;
    hide NeedsSource;
    hide DecideHonest;
    hide AtDecision;
    hide ExposedIn;
    hide Sweep;
  }

  // --- the counters, faults or not ---

  // The first `i` rounds with peer `j` in the committee, and those in which the source
  // answered it.
  function Seated(cfg: Config, i: nat, j: int): set<nat> {
    set t: nat | t < i && cfg.committee(t, j)
  }

  function Answered(cfg: Config, net: Net, i: nat, j: int): set<nat> {
    set t: nat | t < i && cfg.committee(t, j) && net.ask(t, j).None?
  }

  // The peers that acknowledge the vote of `j` in round `t`.
  function Reached(cfg: Config, net: Net, t: int, j: int): set<nat> {
    set x: nat | x < cfg.k && x != j && net.lost(t, j, x).None?
  }

  function MessagesIn(cfg: Config, net: Net, i: nat, j: int): seq<int> {
    seq(i, t => if cfg.committee(t, j) && net.ask(t, j).None? then |Reached(cfg, net, t, j)| else 0)
  }

  function AcknowledgedBy(net: Net, i: int, s: int, j: nat): set<nat> {
    set x: nat | x < j && x != s && net.lost(i, s, x).None?
  }

  lemma {:induction false} AcknowledgedAre(net: Net, i: int, s: int, j: nat)
    ensures Acknowledged(net, i, s, j) == |AcknowledgedBy(net, i, s, j)|
  {
    if j == 0 {
      assert AcknowledgedBy(net, i, s, 0) == {};
    } else {
      AcknowledgedAre(net, i, s, j - 1);
      var more := j - 1 != s && net.lost(i, s, j - 1).None?;
      assert AcknowledgedBy(net, i, s, j) == AcknowledgedBy(net, i, s, j - 1) + if more then {j - 1} else {};
      AddOne(AcknowledgedBy(net, i, s, j - 1), j - 1, more);
    }
  }

  lemma SeatedOneMore(cfg: Config, i: nat, j: int)
    ensures |Seated(cfg, i + 1, j)| == |Seated(cfg, i, j)| + if cfg.committee(i, j) then 1 else 0
  {
    assert Seated(cfg, i + 1, j) == Seated(cfg, i, j) + if cfg.committee(i, j) then {i} else {};
    AddOne(Seated(cfg, i, j), i, cfg.committee(i, j));
  }

  lemma AnsweredOneMore(cfg: Config, net: Net, i: nat, j: int)
    ensures |Answered(cfg, net, i + 1, j)|
         == |Answered(cfg, net, i, j)| + if cfg.committee(i, j) && net.ask(i, j).None? then 1 else 0
  {
    var more := cfg.committee(i, j) && net.ask(i, j).None?;
    assert Answered(cfg, net, i + 1, j) == Answered(cfg, net, i, j) + if more then {i} else {};
    AddOne(Answered(cfg, net, i, j), i, more);
  }

  lemma RoundsOneMore(cfg: Config, net: Net, i: nat, j: int)
    ensures |Seated(cfg, i + 1, j)| == |Seated(cfg, i, j)| + if cfg.committee(i, j) then 1 else 0
    ensures |Answered(cfg, net, i + 1, j)|
         == |Answered(cfg, net, i, j)| + if cfg.committee(i, j) && net.ask(i, j).None? then 1 else 0
    ensures Sum(MessagesIn(cfg, net, i + 1, j))
         == Sum(MessagesIn(cfg, net, i, j))
            + if cfg.committee(i, j) && net.ask(i, j).None? then |Reached(cfg, net, i, j)| else 0
  {
    hide Seated;
    hide Answered;
    hide Reached;
    SeatedOneMore(cfg, i, j);
    AnsweredOneMore(cfg, net, i, j);
    assert MessagesIn(cfg, net, i + 1, j)[..i] == MessagesIn(cfg, net, i, j);
  }

  // Peer `j` after `i` rounds: a query for every seat and every verification, failed or
  // not; primary queries only for the answered ones; messages only to those reached.
  ghost predicate CountersAre(cfg: Config, net: Net, p: Peer, i: nat, j: nat) {
    if j in cfg.byz then p.sourceQueries == p.primary == p.messagesSent == 0
    else
      && p.sourceQueries == |Seated(cfg, i, j)| + p.core.verify
      && p.primary == |Answered(cfg, net, i, j)|
      && p.messagesSent == Sum(MessagesIn(cfg, net, i, j))
  }

  lemma CountersOfRound(cfg: Config, net: Net, w: seq<Peer>, i: nat, j: nat)
    requires cfg.Valid() && cfg.Fits() && |w| == cfg.k && i < |cfg.truth| && j < cfg.k && AllEmpty(w, i)
    requires Round(cfg, net, w, i).Some?
    ensures var p, p' := w[j], Round(cfg, net, w, i).value[j];
            var seated := j !in cfg.byz && cfg.committee(i, j);
            var answered := seated && net.ask(i, j).None?;
            && p'.sourceQueries - p'.core.verify == p.sourceQueries - p.core.verify + (if seated then 1 else 0)
            && p'.primary == p.primary + (if answered then 1 else 0)
            && p'.messagesSent == p.messagesSent + (if answered then |Reached(cfg, net, i, j)| else 0)
            && (j in cfg.byz ==> p'.core == p.core)
  {
    ReadyPeer(cfg, net, w, i, j);
    RoundAt(cfg, net, w, i, j);
    AcknowledgedAre(net, i, j, cfg.k);
    assert AcknowledgedBy(net, i, j, cfg.k) == Reached(cfg, net, i, j);
    hide Reached;
    hide AcknowledgedBy;
    hide Round;
    hide AtDecision;
    hide Decide;
    hide Received;
    hide Holding;
    hide View;
    hide ExposedIn;
    hide Acknowledged;
  }

  lemma {:induction false} CountersExactly(cfg: Config, net: Net, i: nat, j: nat)
    requires cfg.Valid() && cfg.Fits() && i <= |cfg.truth| && j < cfg.k && Rounds(cfg, net, i).Some?
    ensures CountersAre(cfg, net, Rounds(cfg, net, i).value[j], i, j)
    ensures j in cfg.byz ==> Rounds(cfg, net, i).value[j].core.verify == 0
  {
    hide Round;
    if i == 0 {
      assert Seated(cfg, 0, j) == {} && Answered(cfg, net, 0, j) == {} && MessagesIn(cfg, net, 0, j) == [];
    } else {
      CountersExactly(cfg, net, i - 1, j);
      RoundsStartEmpty(cfg, net, i - 1);
      CountersOfRound(cfg, net, Rounds(cfg, net, i - 1).value, i - 1, j);
      RoundsOneMore(cfg, net, i - 1, j);
      hide Seated;
      hide Answered;
      hide MessagesIn;
      hide Reached;
      hide Sum;
    }
  }
}
