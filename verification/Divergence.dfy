// Where honest peers, or an honest peer and the source, part ways: exactly when two honest
// peers hold different blacklists, and runs in which votes disagree without anyone asking.

module Divergence {
  import opened Counting
  import opened Tally
  import opened NodeRun
  import opened World
  import opened WholeRun
  import opened Delivery

  lemma EarlierRounds(cfg: Config, net: Net, i: nat, n: nat)
    requires cfg.Valid() && i <= n <= |cfg.truth| && Rounds(cfg, net, n).Some?
    ensures Rounds(cfg, net, i).Some?
  {
    if Rounds(cfg, net, i).None? {
      FailureIsFinal(cfg, net, i, n);
    }
  }

  ghost predicate SameBlacklistAfter(cfg: Config, net: Net, j: nat, l: nat, i: nat)
    requires cfg.Valid() && i <= |cfg.truth| && j < cfg.k && l < cfg.k
  {
    Rounds(cfg, net, i).Some?
    && Rounds(cfg, net, i).value[j].core.blacklist == Rounds(cfg, net, i).value[l].core.blacklist
  }

  lemma RunsComparable(cfg: Config, net: Net, j: nat, l: nat)
    requires cfg.Valid() && j < cfg.k && l < cfg.k
    ensures Comparable(RunOf(cfg, net, j), RunOf(cfg, net, l))
  {
    RunOfIsHonest(cfg, net, j);
    RunOfIsHonest(cfg, net, l);
    hide ViewOf;
  }

  lemma SameBlacklistIs(cfg: Config, net: Net, j: nat, l: nat, i: nat, n: nat)
    requires cfg.Valid() && i <= n <= |cfg.truth| && Rounds(cfg, net, n).Some?
    requires j < cfg.k && l < cfg.k && j !in cfg.byz && l !in cfg.byz
    requires Comparable(RunOf(cfg, net, j), RunOf(cfg, net, l))
    ensures SameBlacklistAfter(cfg, net, j, l, i) <==> EqualAt(RunOf(cfg, net, j), RunOf(cfg, net, l), i)
  {
    EarlierRounds(cfg, net, i, n);
    CoreFollowsRun(cfg, net, i, j);
    CoreFollowsRun(cfg, net, i, l);
    hide Rounds;
    hide ViewOf;
  }

  // Over any network, two honest peers hold the same blacklist after every round exactly if
  // in every round they catch the same liars.
  lemma HonestBlacklistsAgreeExactly(cfg: Config, net: Net, j: nat, l: nat, n: nat)
    requires cfg.Valid() && n <= |cfg.truth| && Rounds(cfg, net, n).Some?
    requires j < cfg.k && l < cfg.k && j !in cfg.byz && l !in cfg.byz
    ensures Comparable(RunOf(cfg, net, j), RunOf(cfg, net, l))
    ensures (forall i :: 0 <= i <= n ==> SameBlacklistAfter(cfg, net, j, l, i))
            <==> forall i :: 0 <= i < n ==> SameCatchIn(RunOf(cfg, net, j), RunOf(cfg, net, l), i)
  {
    var r, q := RunOf(cfg, net, j), RunOf(cfg, net, l);
    RunsComparable(cfg, net, j, l);
    assert |r.views| == |cfg.truth|;
    forall i: nat | i <= n ensures SameBlacklistAfter(cfg, net, j, l, i) <==> EqualAt(r, q, i) {
      SameBlacklistIs(cfg, net, j, l, i, n);
    }
    hide *;
    BlacklistsAgreeExactly(r, q, n);
  }

  // Every vote reaches peers `j` and `l` equally often.
  ghost predicate EqualDelivery(net: Net, j: int, l: int) {
    forall i, s :: Arrivals(net, i, s, j) == Arrivals(net, i, s, l)
  }

  lemma EqualDeliveryEqualVotes(cfg: Config, net: Net, i: nat, exposed: set<int>, j: nat, l: nat, s: nat)
    requires EqualDelivery(net, j, l) && i < |cfg.truth| && IsBit(cfg.truth[i])
    ensures Received(cfg, net, i, exposed, j, s) == Received(cfg, net, i, exposed, l, s)
  {
    hide VoteOf;
    hide Sends;
    hide Repeat;
    hide Arrivals;
  }

  lemma EqualDeliveryEqualViews(cfg: Config, net: Net, j: nat, l: nat, i: nat, n: nat)
    requires cfg.Valid() && cfg.Fits() && i < n <= |cfg.truth| && Rounds(cfg, net, n).Some?
    requires j < cfg.k && l < cfg.k && EqualDelivery(net, j, l)
    ensures RunOf(cfg, net, j).views[i] == RunOf(cfg, net, l).views[i]
  {
    EarlierRounds(cfg, net, i, n);
    ViewIsReceived(cfg, net, j, i);
    ViewIsReceived(cfg, net, l, i);
    EqualDeliveryEqualVotes(cfg, net, i, ExposedIn(cfg, Rounds(cfg, net, i).value), j, l, cfg.k);
    hide Rounds;
    hide ViewOf;
    hide Received;
  }

  // Lost and duplicated votes are harmless as long as both peers miss and repeat the same.
  lemma EqualDeliveryKeepsBlacklistsEqual(cfg: Config, net: Net, j: nat, l: nat, n: nat)
    requires cfg.Valid() && cfg.Fits() && n <= |cfg.truth| && Rounds(cfg, net, n).Some?
    requires j < cfg.k && l < cfg.k && j !in cfg.byz && l !in cfg.byz && EqualDelivery(net, j, l)
    ensures SameBlacklistAfter(cfg, net, j, l, n)
  {
    var r, q := RunOf(cfg, net, j), RunOf(cfg, net, l);
    HonestBlacklistsAgreeExactly(cfg, net, j, l, n);
    assert |r.views| == |cfg.truth|;
    forall i | 0 <= i < n ensures SameCatchIn(r, q, i) {
      EqualDeliveryEqualViews(cfg, net, j, l, i, n);
    }
    hide *;
    assert SameBlacklistAfter(cfg, net, j, l, n);
  }

  // --- two runs of one round ---

  // After the first round an honest peer holds what the votes it received make it conclude.
  lemma FirstRound(cfg: Config, net: Net, j: nat, votes: seq<Message>)
    requires cfg.Valid() && cfg.Fits() && |cfg.truth| > 0 && j < cfg.k && j !in cfg.byz && Rounds(cfg, net, 1).Some?
    requires Received(cfg, net, 0, ExposedIn(cfg, Start(cfg)), j, cfg.k) == votes
    ensures var v := Decide(votes, {}, cfg.rho, cfg.truth[0]);
            Rounds(cfg, net, 1).value[j].core == Core(map[0 := v.bit], v.losers, if v.queried then 1 else 0)
  {
    assert Rounds(cfg, net, 0) == Some(Start(cfg));
    CoreFollowsRun(cfg, net, 1, j);
    ViewIsReceived(cfg, net, j, 0);
    assert RunOf(cfg, net, j).After(0) == FRESH;
    var v := Decide(votes, {}, cfg.rho, cfg.truth[0]);
    assert {} + v.losers == v.losers && map[][0 := v.bit] == map[0 := v.bit];
    hide Rounds;
    hide Decide;
    hide Received;
    hide ViewOf;
  }

  // Three peers, the last one Byzantine and told to vote; everyone sits in the committee.
  const THREE: Config := Config(3, {2}, [1], 0.5, Drip, (i, s) => true, (i, s) => 0)

  // The only request that fails is the liar's vote for peer 1, by the deadline.
  predicate Misses(s: int, j: int) {
    s == 2 && j == 1
  }

  const LOSSY: Net := Net(
    (i, s) => None, (i, s) => None,
    (i, s, j) => if Misses(s, j) then 0 else 1, (i, s, j) => if Misses(s, j) then Some(Deadline) else None,
    (i, s) => 1)

  lemma ThreeIsValid()
    ensures THREE.Valid() && THREE.Fits()
  {
    assert |THREE.byz| == 1;
  }

  lemma LiarIsExposed()
    ensures ExposedIn(THREE, Start(THREE)) == {2}
  {
    var caught: set<int> := {};
    assert FirstHonest(THREE, 0) == 0;
    assert Exposed(THREE, caught, 0) == {};
    assert Exposed(THREE, caught, 1) == {} && Exposed(THREE, caught, 2) == {};
    assert Exposed(THREE, caught, 3) == {2};
  }

  lemma OnceIsOne(m: Message)
    ensures Repeat(m, 1) == [m] && Repeat(m, 0) == []
  {
    assert Repeat(m, 0) == [];
  }

  lemma ThreeReceive(j: nat)
    requires j < 2
    ensures var honest := [Ballot(0, 0, 1), Ballot(1, 0, 1)];
            Received(THREE, LOSSY, 0, {2}, j, 3) == if j == 0 then honest + [Ballot(2, 0, 0)] else honest
  {
    var a, b, d := VoteOf(THREE, 0, 0), VoteOf(THREE, 0, 1), VoteOf(THREE, 0, 2);
    OnceIsOne(a);
    OnceIsOne(b);
    OnceIsOne(d);
    hide Repeat;
    assert Received(THREE, LOSSY, 0, {2}, j, 0) == [];
    assert Received(THREE, LOSSY, 0, {2}, j, 1) == [a];
    assert Received(THREE, LOSSY, 0, {2}, j, 2) == [a, b];
  }

  lemma ThreeRun()
    ensures Rounds(THREE, LOSSY, 1).Some?
  {
  }

  lemma ThreeDecide()
    ensures var a, b, d := Ballot(0, 0, 1), Ballot(1, 0, 1), Ballot(2, 0, 0);
            && Decide([a, b, d], {}, 0.5, 1) == Verdict(1, true, true, {2})
            && Decide([a, b], {}, 0.5, 1) == Verdict(1, false, false, {})
  {
    var a, b, d := Ballot(0, 0, 1), Ballot(1, 0, 1), Ballot(2, 0, 0);
    forall p: Message -> bool ensures CountIf([a, b], p) == (if p(a) then 1 else 0) + if p(b) then 1 else 0
                              ensures CountIf([a, b, d], p) == CountIf([a, b], p) + if p(d) then 1 else 0 {
      assert [a, b] == [a] + [b] && [a, b, d] == [a, b] + [d];
      CountIfSingle(a, p);
      CountIfSingle(b, p);
      CountIfSingle(d, p);
      CountIfConcat([a], [b], p);
      CountIfConcat([a, b], [d], p);
    }
    assert Voters([a, b, d], {}, 0) == {2} by {
      assert d in [a, b, d] && VotesFor(d, {}, 0);
    }
    hide CountIf;
  }

  lemma ThreeAre()
    ensures THREE.truth == [1] && THREE.rho == 0.5 && THREE.k == 3 && THREE.byz == {2}
  {
  }

  lemma ThreeCore(j: nat)
    requires j < 2
    ensures Rounds(THREE, LOSSY, 1).Some?
    ensures Rounds(THREE, LOSSY, 1).value[j].core
         == if j == 0 then Core(map[0 := 1], {2}, 1) else Core(map[0 := 1], {}, 0)
  {
    hide *;
    var honest := [Ballot(0, 0, 1), Ballot(1, 0, 1)];
    var votes := if j == 0 then honest + [Ballot(2, 0, 0)] else honest;
    ThreeAre();
    ThreeIsValid();
    ThreeRun();
    LiarIsExposed();
    ThreeReceive(j);
    FirstRound(THREE, LOSSY, j, votes);
    ThreeDecide();
    assert honest + [Ballot(2, 0, 0)] == [Ballot(0, 0, 1), Ballot(1, 0, 1), Ballot(2, 0, 0)];
  }

  // One vote of the liar misses its deadline at peer 1. The run succeeds; peer 0 lists the
  // liar and peer 1 does not, although both hold enough honest votes to be right.
  lemma MissedVoteSplitsBlacklists()
    ensures THREE.Valid() && Rounds(THREE, LOSSY, 1).Some?
    ensures var w := Rounds(THREE, LOSSY, 1).value;
            && w[0].core.blacklist == {2} && w[1].core.blacklist == {}
            && w[0].core.bits == w[1].core.bits == map[0 := 1]
  {
    hide *;
    ThreeIsValid();
    ThreeAre();
    ThreeCore(0);
    ThreeCore(1);
  }

  // One honest and one Byzantine peer, with the least rho that is ever derived.
  const TWO: Config := Config(2, {1}, [1], 1.0, Flood, (i, s) => true, (i, s) => 0)

  lemma TwoIsValid()
    ensures TWO.Valid() && TWO.Fits()
  {
    assert |TWO.byz| == 1;
  }

  lemma TwoDecide()
    ensures Decide([Ballot(0, 0, 1), Ballot(1, 0, 0)], {}, 1.0, 1) == Verdict(0, false, false, {})
  {
    var a, b := Ballot(0, 0, 1), Ballot(1, 0, 0);
    forall p: Message -> bool ensures CountIf([a, b], p) == (if p(a) then 1 else 0) + if p(b) then 1 else 0 {
      assert [a, b] == [a] + [b];
      CountIfSingle(a, p);
      CountIfSingle(b, p);
      CountIfConcat([a], [b], p);
    }
    hide CountIf;
  }

  lemma TwoReceive(net: Net)
    requires net.Full()
    ensures Received(TWO, net, 0, {}, 0, 2) == [Ballot(0, 0, 1), Ballot(1, 0, 0)]
  {
    var a, b := VoteOf(TWO, 0, 0), VoteOf(TWO, 0, 1);
    OnceIsOne(a);
    OnceIsOne(b);
    hide Repeat;
    assert Received(TWO, net, 0, {}, 0, 0) == [];
    assert Received(TWO, net, 0, {}, 0, 1) == [a];
  }

  // The two votes disagree and nothing is lost, yet the honest peer asks nobody, lists
  // nobody, and outputs the wrong bit.
  lemma UnresolvedDisagreement(net: Net)
    requires net.Full()
    ensures TWO.Valid() && Rounds(TWO, net, 1).Some?
    ensures Rounds(TWO, net, 1).value[0].core == Core(map[0 := 0], {}, 0)
  {
    TwoIsValid();
    CleanRunBalances(TWO, net, 1, 0);
    assert ExposedIn(TWO, Start(TWO)) == {};
    TwoReceive(net);
    TwoDecide();
    assert TWO.truth == [1] && TWO.rho == 1.0 && TWO.k == 2 && TWO.byz == {1};
    hide *;
    FirstRound(TWO, net, 0, [Ballot(0, 0, 1), Ballot(1, 0, 0)]);
  }
}
