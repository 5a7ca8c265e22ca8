// Runs in which every message arrives exactly once. All honest peers then stay in
// lockstep, so one run stands for all of them, and the cost of each adversary can be
// stated exactly.

module Lockstep {
  import opened Tally
  import opened NodeRun
  import opened Mailbox
  import opened World
  import opened WholeRun
  import opened Delivery

  // The votes of round `i` by the peers below `s`.
  function VotesCast(cfg: Config, i: nat, exposed: set<int>, s: nat): seq<Message>
    requires i < |cfg.truth| && IsBit(cfg.truth[i])
  {
    if s == 0 then []
    else VotesCast(cfg, i, exposed, s - 1) + if VotesIn(cfg, i, exposed, s - 1) then [VoteOf(cfg, i, s - 1)] else []
  }

  // The votes every honest peer holds in a round that finds `caught` blacklisted.
  function CommonView(cfg: Config, i: nat, caught: set<int>): seq<Message>
    requires i < |cfg.truth| && IsBit(cfg.truth[i])
  {
    VotesCast(cfg, i, ExposedGiven(cfg, caught), cfg.k)
  }

  // The common state of the honest peers after `i` rounds, and the common run.
  function CommonCore(cfg: Config, i: nat): Core
    requires cfg.Valid() && i <= |cfg.truth|
  {
    if i == 0 then FRESH
    else
      var c := CommonCore(cfg, i - 1);
      DecideRound(c, i - 1, CommonView(cfg, i - 1, c.blacklist), cfg.truth[i - 1], cfg.rho)
  }

  function CommonRun(cfg: Config): (r: Run)
    requires cfg.Valid()
    ensures r.Valid()
  {
    Run(cfg.truth, cfg.rho, seq(|cfg.truth|, t requires 0 <= t < |cfg.truth| =>
      CommonView(cfg, t, CommonCore(cfg, t).blacklist)))
  }

  lemma {:induction false} CommonRunAfter(cfg: Config, i: nat)
    requires cfg.Valid() && i <= |cfg.truth|
    ensures CommonRun(cfg).After(i) == CommonCore(cfg, i)
  {
    hide DecideRound;
    hide CommonView;
    if i > 0 {
      CommonRunAfter(cfg, i - 1);
      assert CommonRun(cfg).views[i - 1] == CommonView(cfg, i - 1, CommonCore(cfg, i - 1).blacklist);
    }
  }

  // How often honest peer `j` was in the committee of the first `i` rounds.
  function Sittings(cfg: Config, i: nat, j: int): nat {
    if i == 0 then 0 else Sittings(cfg, i - 1, j) + if cfg.committee(i - 1, j) then 1 else 0
  }

  // The exact state of peer `j` after `i` rounds.
  function PeerAfter(cfg: Config, i: nat, j: int): Peer
    requires cfg.Valid() && i <= |cfg.truth|
  {
    var box := Box(map[], i - 1);
    if j in cfg.byz then Peer(FRESH, box, 0, 0, 0)
    else
      var c, q := CommonCore(cfg, i), Sittings(cfg, i, j);
      Peer(c, box, q + c.verify, Fanout(cfg.k, q), q)
  }

  lemma ReceivedIsCast(cfg: Config, net: Net, i: nat, exposed: set<int>, j: nat, s: nat)
    requires net.Full() && i < |cfg.truth| && IsBit(cfg.truth[i])
    ensures Received(cfg, net, i, exposed, j, s) == VotesCast(cfg, i, exposed, s)
  {
    if s > 0 {
      ReceivedIsCast(cfg, net, i, exposed, j, s - 1);
      var m := VoteOf(cfg, i, s - 1);
      assert Repeat(m, 1) == [m] by {
        assert Repeat(m, 0) == [];
      }
      hide VoteOf;
    }
  }

  lemma JobDoneExactly(cfg: Config, net: Net, i: nat, j: nat)
    requires cfg.Valid() && net.Full() && i < |cfg.truth| && j < cfg.k && j !in cfg.byz
    ensures var p, q := JobDone(cfg, net, PeerAfter(cfg, i, j), i, j), Sittings(cfg, i + 1, j);
            && p.core == CommonCore(cfg, i) && p.primary == q && p.messagesSent == Fanout(cfg.k, q)
            && p.sourceQueries == q + CommonCore(cfg, i).verify
  {
    AllAcknowledge(net, i, j, cfg.k);
    FanoutSuccessor(cfg.k, Sittings(cfg, i, j));
    hide CommonCore;
  }

  lemma RoundExactly(cfg: Config, net: Net, w: seq<Peer>, i: nat, j: nat)
    requires cfg.Valid() && cfg.Fits() && net.Full() && |w| == cfg.k && i < |cfg.truth| && j < cfg.k
    requires forall x :: 0 <= x < cfg.k ==> w[x] == PeerAfter(cfg, i, x)
    ensures Round(cfg, net, w, i).Some?
    ensures Round(cfg, net, w, i).value[j] == PeerAfter(cfg, i + 1, j)
  {
    NobodyFails(cfg, net, w, i);
    FirstHonestExists(cfg);
    var exposed := ExposedIn(cfg, w);
    assert exposed == ExposedGiven(cfg, CommonCore(cfg, i).blacklist);
    assert AllEmpty(w, i);
    ReadyPeer(cfg, net, w, i, j);
    RoundAt(cfg, net, w, i, j);
    DecisionExactly(cfg, net, i, exposed, j);
    hide *;
  }

  lemma NobodyFails(cfg: Config, net: Net, w: seq<Peer>, i: nat)
    requires cfg.Valid() && net.Full() && |w| == cfg.k && i < |cfg.truth|
    ensures Round(cfg, net, w, i).Some?
  {
    forall s | 0 <= s < cfg.k ensures JobFault(cfg, net, i, ExposedIn(cfg, w), s, net.first(i, s)).None? {
      AllAcknowledge(net, i, s, cfg.k);
    }
    JobsFail(cfg, net, w, i, ExposedIn(cfg, w), cfg.k);
    hide Jobs;
    hide AtDecision;
    hide Decide;
    hide ExposedIn;
    hide JobFault;
  }

  lemma DecisionExactly(cfg: Config, net: Net, i: nat, exposed: set<int>, j: nat)
    requires cfg.Valid() && cfg.Fits() && net.Full() && i < |cfg.truth| && j < cfg.k
    requires exposed == ExposedGiven(cfg, CommonCore(cfg, i).blacklist)
    ensures var p := Seal(PeerDuring(cfg, net, PeerAfter(cfg, i, j), i, exposed, cfg.k, j), i);
            Sweep(DecideHonest(cfg, net, p, i, j).0, i) == PeerAfter(cfg, i + 1, j)
  {
    ReceivedIsCast(cfg, net, i, exposed, j, cfg.k);
    var ms := VotesCast(cfg, i, exposed, cfg.k);
    HeldView(i, ms);
    SweptHolding(i, ms);
    if j !in cfg.byz {
      JobDoneExactly(cfg, net, i, j);
    }
    hide Decide;
    hide VotesCast;
    hide Received;
    hide Holding;
    hide Acknowledged;
    hide Fanout;
  }

  // Under full delivery every peer's state is known exactly; all honest peers agree.
  lemma {:induction false} LockstepRun(cfg: Config, net: Net, i: nat)
    requires cfg.Valid() && cfg.Fits() && net.Full() && i <= |cfg.truth|
    ensures Rounds(cfg, net, i) == Some(seq(cfg.k, j requires 0 <= j < cfg.k => PeerAfter(cfg, i, j)))
  {
    hide Round;
    if i == 0 {
      assert Start(cfg) == seq(cfg.k, j requires 0 <= j < cfg.k => PeerAfter(cfg, 0, j));
    } else {
      LockstepRun(cfg, net, i - 1);
      var w := Rounds(cfg, net, i - 1).value;
      forall j | 0 <= j < cfg.k
        ensures Round(cfg, net, w, i - 1).Some? && Round(cfg, net, w, i - 1).value[j] == PeerAfter(cfg, i, j)
      {
        RoundExactly(cfg, net, w, i - 1, j);
      }
      FirstHonestExists(cfg);
      RoundExactly(cfg, net, w, i - 1, 0);
      assert Round(cfg, net, w, i - 1).value == seq(cfg.k, j requires 0 <= j < cfg.k => PeerAfter(cfg, i, j));
    }
  }
}
