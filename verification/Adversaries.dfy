// What each adversary costs an honest peer under full delivery, exactly.

module Adversaries {
  import opened Counting
  import opened Tally
  import opened NodeRun
  import opened World
  import opened WholeRun
  import opened Parameters
  import opened Delivery
  import opened Lockstep

  function HonestCommittee(cfg: Config, i: int): set<int> {
    set id | id in cfg.Honest() && cfg.committee(i, id)
  }

  ghost predicate StrongCommittees(cfg: Config) {
    forall i :: 0 <= i < |cfg.truth| ==> |HonestCommittee(cfg, i)| as real > cfg.rho
  }

  // --- the common view ---

  lemma VotesCastAre(cfg: Config, i: nat, exposed: set<int>, s: nat)
    requires cfg.Valid() && i < |cfg.truth|
    ensures forall m :: m in VotesCast(cfg, i, exposed, s) <==>
              0 <= m.sender < s && VotesIn(cfg, i, exposed, m.sender) && m == VoteOf(cfg, i, m.sender)
    ensures OneVotePerSender(VotesCast(cfg, i, exposed, s))
  {
  }

  // The voters for `b` are the peers that vote, are unlisted, and say `b`.
  lemma VotersAre(cfg: Config, i: nat, exposed: set<int>, caught: set<int>, b: byte, id: int)
    requires cfg.Valid() && i < |cfg.truth|
    ensures id in Voters(VotesCast(cfg, i, exposed, cfg.k), caught, b)
            <==> 0 <= id < cfg.k && VotesIn(cfg, i, exposed, id) && VotesFor(VoteOf(cfg, i, id), caught, b)
  {
    var votes := VotesCast(cfg, i, exposed, cfg.k);
    VotesCastAre(cfg, i, exposed, cfg.k);
    hide VotesCast;
    hide VotesIn;
    assert VoteOf(cfg, i, id).sender == id;
    hide VoteOf;
    hide VotesFor;
    if 0 <= id < cfg.k && VotesIn(cfg, i, exposed, id) && VotesFor(VoteOf(cfg, i, id), caught, b) {
      assert VoteOf(cfg, i, id) in votes;
    }
  }

  lemma HonestVotesAre(cfg: Config, i: nat, exposed: set<int>)
    requires cfg.Valid() && i < |cfg.truth|
    ensures HonestTruthful(VotesCast(cfg, i, exposed, cfg.k), cfg.Honest(), cfg.truth[i])
    ensures HonestVotes(VotesCast(cfg, i, exposed, cfg.k), cfg.Honest()) == |HonestCommittee(cfg, i)|
  {
    var votes, p := VotesCast(cfg, i, exposed, cfg.k), FromHonest(cfg.Honest());
    VotesCastAre(cfg, i, exposed, cfg.k);
    SendersCounted(votes, p);
    forall id ensures id in (set m | m in votes && p(m) :: m.sender) <==> id in HonestCommittee(cfg, i) {
      if id in HonestCommittee(cfg, i) {
        assert VoteOf(cfg, i, id) in votes;
      }
    }
    assert (set m | m in votes && p(m) :: m.sender) == HonestCommittee(cfg, i);
  }

  // The common run obeys every hypothesis of the one-peer theorems.
  lemma CommonRunIsFair(cfg: Config)
    requires cfg.Valid()
    ensures var r := CommonRun(cfg);
            && r.Honest(cfg.Honest()) && r.SendersIn(cfg.Honest() + cfg.byz) && r.OneVote()
            && (StrongCommittees(cfg) ==> r.WellAttended(cfg.Honest()))
  {
    forall t | 0 <= t < |cfg.truth|
      ensures var v := CommonRun(cfg).views[t];
              && HonestTruthful(v, cfg.Honest(), cfg.truth[t]) && OneVotePerSender(v)
              && (forall m :: m in v ==> m.sender in cfg.Honest() + cfg.byz)
              && HonestVotes(v, cfg.Honest()) == |HonestCommittee(cfg, t)|
    {
      var exposed := ExposedGiven(cfg, CommonCore(cfg, t).blacklist);
      VotesCastAre(cfg, t, exposed, cfg.k);
      HonestVotesAre(cfg, t, exposed);
    }
  }

  // Under full delivery honest committees larger than rho make every output right.
  lemma FullDeliveryIsSafe(cfg: Config, net: Net, j: nat)
    requires cfg.Valid() && cfg.Fits() && net.Full() && StrongCommittees(cfg) && j < cfg.k && j !in cfg.byz
    ensures var w := Rounds(cfg, net, |cfg.truth|);
            w.Some? && Reconstructed(w.value[j].core.bits, |cfg.truth|) == Some(cfg.truth)
  {
    hide Decide;
    hide CommonView;
    hide HonestCommittee;
    hide HonestTruthful;
    hide HonestVotes;
    LockstepRun(cfg, net, |cfg.truth|);
    CommonRunIsFair(cfg);
    CommonRun(cfg).Safety(cfg.Honest());
    CommonRunAfter(cfg, |cfg.truth|);
    hide CommonCore;
    hide Rounds;
  }

  // --- drip ---

  function Live(cfg: Config, caught: set<int>, s: nat): (r: set<int>)
    ensures forall id :: id in r <==> id in cfg.byz && id !in caught && 0 <= id < s
  {
    if s == 0 then {}
    else Live(cfg, caught, s - 1) + if s - 1 in cfg.byz && s - 1 !in caught then {s - 1} else {}
  }

  // The adversary exposes live peers only, and all of them unless it reaches the exposure.
  lemma {:induction false} ExposedAre(cfg: Config, caught: set<int>, s: nat)
    requires cfg.rho >= 0.0
    ensures Exposed(cfg, caught, s) <= Live(cfg, caught, s)
    ensures |Exposed(cfg, caught, s)| <= Exposure(cfg.rho)
    ensures |Exposed(cfg, caught, s)| < Exposure(cfg.rho) ==> Exposed(cfg, caught, s) == Live(cfg, caught, s)
  {
    assert Exposure(cfg.rho) > 0;
    if s > 0 {
      hide Exposure;
      ExposedAre(cfg, caught, s - 1);
    }
  }

  lemma ExposedSize(cfg: Config, caught: set<int>)
    requires cfg.Valid() && caught <= cfg.byz
    ensures Exposed(cfg, caught, cfg.k) <= cfg.byz - caught
    ensures |Exposed(cfg, caught, cfg.k)| == Min(Exposure(cfg.rho), |cfg.byz| - |caught|)
  {
    ExposedAre(cfg, caught, cfg.k);
    hide Exposed;
    hide Exposure;
    assert Live(cfg, caught, cfg.k) == cfg.byz - caught;
    assert |cfg.byz - caught| == |cfg.byz| - |caught|;
    SubsetSize(Exposed(cfg, caught, cfg.k), cfg.byz - caught);
  }

  // A drip round is a conflict exactly if enough Byzantine peers are still unlisted, and
  // then it costs the exposed ones.
  lemma DripRound(cfg: Config, i: nat, caught: set<int>)
    requires cfg.Valid() && cfg.adversary.Drip? && i < |cfg.truth| && caught <= cfg.byz
    requires |HonestCommittee(cfg, i)| as real > cfg.rho
    ensures var v := Decide(CommonView(cfg, i, caught), caught, cfg.rho, cfg.truth[i]);
            && (v.conflict <==> |cfg.byz| - |caught| >= Exposure(cfg.rho))
            && (v.queried <==> v.conflict)
            && v.losers == if v.conflict then Exposed(cfg, caught, cfg.k) else {}
  {
    var e, t, view := Exposed(cfg, caught, cfg.k), cfg.truth[i], CommonView(cfg, i, caught);
    DripView(cfg, i, caught);
    ExposedSize(cfg, caught);
    HonestVotesCounted(view, caught, cfg.Honest(), t);
  }

  lemma DripView(cfg: Config, i: nat, caught: set<int>)
    requires cfg.Valid() && cfg.adversary.Drip? && i < |cfg.truth| && caught <= cfg.byz
    ensures var view := CommonView(cfg, i, caught);
            && Voters(view, caught, Flip(cfg.truth[i])) == Exposed(cfg, caught, cfg.k)
            && Votes(view, caught, Flip(cfg.truth[i])) == |Exposed(cfg, caught, cfg.k)|
            && HonestTruthful(view, cfg.Honest(), cfg.truth[i])
            && HonestVotes(view, cfg.Honest()) == |HonestCommittee(cfg, i)|
  {
    var e, wrong, view := Exposed(cfg, caught, cfg.k), Flip(cfg.truth[i]), CommonView(cfg, i, caught);
    VotesCastAre(cfg, i, e, cfg.k);
    HonestVotesAre(cfg, i, e);
    ExposedSize(cfg, caught);
    VotersCounted(view, caught, wrong);
    hide VotesCast;
    hide Exposed;
    hide Voters;
    forall id ensures id in Voters(view, caught, wrong) <==> id in e {
      VotersAre(cfg, i, e, caught, wrong, id);
    }
  }

  lemma DripStep(i: nat, e: nat, b: nat, c: nat)
    requires e > 0 && c == Min(i, b / e)
    ensures Min(i + 1, b / e) == c + if b - c * e >= e then 1 else 0
  {
    var q := b / e;
    assert b == q * e + b % e;
    if c < q {
      MulMonotone(c + 1, q, e);
      MulSuccessor(c, e);
    }
  }

  lemma DripGrowth(cfg: Config, caught: set<int>)
    requires cfg.Valid() && caught <= cfg.byz
    ensures var e := Exposed(cfg, caught, cfg.k);
            && caught + e <= cfg.byz && |caught + e| == |caught| + |e|
            && (|cfg.byz| - |caught| >= Exposure(cfg.rho) ==> |e| == Exposure(cfg.rho))
  {
    ExposedSize(cfg, caught);
  }

  lemma DripCore(cfg: Config, i: nat, c: Core)
    requires cfg.Valid() && cfg.adversary.Drip? && i < |cfg.truth| && c.blacklist <= cfg.byz
    requires |HonestCommittee(cfg, i)| as real > cfg.rho
    ensures var c' := DecideRound(c, i, CommonView(cfg, i, c.blacklist), cfg.truth[i], cfg.rho);
            && c'.blacklist <= cfg.byz
            && if |cfg.byz| - |c.blacklist| >= Exposure(cfg.rho)
               then c'.verify == c.verify + 1 && |c'.blacklist| == |c.blacklist| + Exposure(cfg.rho)
               else c'.verify == c.verify && c'.blacklist == c.blacklist
  {
    DripRound(cfg, i, c.blacklist);
    DripGrowth(cfg, c.blacklist);
    assert c.blacklist + {} == c.blacklist;
    hide Decide;
    hide CommonView;
    hide Exposed;
  }

  lemma {:induction false} DripCounts(cfg: Config, i: nat)
    requires cfg.Valid() && cfg.adversary.Drip? && StrongCommittees(cfg) && i <= |cfg.truth|
    ensures var c, d := CommonCore(cfg, i), Min(i, |cfg.byz| / Exposure(cfg.rho));
            c.verify == d && c.blacklist <= cfg.byz && |c.blacklist| == d * Exposure(cfg.rho)
  {
    hide DecideRound;
    if i > 0 {
      DripCounts(cfg, i - 1);
      var c, e := CommonCore(cfg, i - 1), Exposure(cfg.rho);
      DripCore(cfg, i - 1, c);
      DripStep(i - 1, e, |cfg.byz|, c.verify);
      MulSuccessor(c.verify, e);
    }
  }

  // Drip forces exactly min(n, B div e) verify queries on each honest peer, and no rival
  // limited to one vote per sender and round, however adaptive, forces more conflicts.
  lemma DripIsExactAndOptimal(cfg: Config, net: Net, j: nat, rival: Run)
    requires cfg.Valid() && cfg.Fits() && net.Full() && cfg.adversary.Drip? && StrongCommittees(cfg)
    requires j < cfg.k && j !in cfg.byz
    requires rival.Valid() && |rival.views| == |cfg.truth| && rival.rho == cfg.rho
    requires rival.Honest(cfg.Honest()) && rival.SendersIn(cfg.Honest() + cfg.byz) && rival.OneVote()
    ensures Rounds(cfg, net, |cfg.truth|).Some?
    ensures var p, e := Rounds(cfg, net, |cfg.truth|).value[j], Exposure(cfg.rho);
            var d := Min(|cfg.truth|, |cfg.byz| / e);
            && p.core.verify == d && |p.core.blacklist| == d * e
            && p.sourceQueries == p.primary + d
            && rival.Conflicts(|cfg.truth|) <= d
  {
    LockstepRun(cfg, net, |cfg.truth|);
    DripCounts(cfg, |cfg.truth|);
    rival.ConflictBound(cfg.Honest(), cfg.byz);
  }

  // --- flood and collude ---

  ghost predicate EveryByzantineLies(cfg: Config) {
    cfg.adversary.Flood? || cfg.adversary.Collude?
  }

  lemma FloodRunLies(cfg: Config)
    requires cfg.Valid() && EveryByzantineLies(cfg)
    ensures CommonRun(cfg).EveryoneLies(cfg.byz)
  {
    forall t | 0 <= t < |cfg.truth| ensures AllLie(CommonRun(cfg).views[t], cfg.byz, cfg.truth[t]) {
      VotesCastAre(cfg, t, ExposedGiven(cfg, CommonCore(cfg, t).blacklist), cfg.k);
      forall id | id in cfg.byz
        ensures exists m :: m in CommonRun(cfg).views[t] && m.sender == id && VotesFor(m, {}, Flip(cfg.truth[t]))
      {
        assert VoteOf(cfg, t, id) in CommonRun(cfg).views[t];
      }
    }
  }

  // Round `i` pits more than rho honest voters against more than rho liars.
  ghost predicate Clash(cfg: Config, i: int) {
    Min(|HonestCommittee(cfg, i)|, |cfg.byz|) as real > cfg.rho
  }

  lemma FloodFirstConflict(cfg: Config, i: nat)
    requires cfg.Valid() && EveryByzantineLies(cfg) && i < |cfg.truth|
    ensures Decide(CommonView(cfg, i, {}), {}, cfg.rho, cfg.truth[i]).conflict <==> Clash(cfg, i)
  {
    var view, t := CommonView(cfg, i, {}), cfg.truth[i];
    VotesCastAre(cfg, i, ExposedGiven(cfg, {}), cfg.k);
    HonestVotesAre(cfg, i, ExposedGiven(cfg, {}));
    VotersCounted(view, {}, Flip(t));
    VotersCounted(view, {}, t);
    hide VotesCast;
    hide Voters;
    forall id
      ensures id in Voters(view, {}, Flip(t)) <==> id in cfg.byz
      ensures id in Voters(view, {}, t) <==> id in HonestCommittee(cfg, i)
    {
      VotersAre(cfg, i, ExposedGiven(cfg, {}), {}, Flip(t), id);
      VotersAre(cfg, i, ExposedGiven(cfg, {}), {}, t, id);
    }
    assert Voters(view, {}, Flip(t)) == cfg.byz && Voters(view, {}, t) == HonestCommittee(cfg, i);
  }

  ghost predicate ClashBefore(cfg: Config, i: nat) {
    exists t :: 0 <= t < i && Clash(cfg, t)
  }

  // Lying all at once costs an honest peer one conflict in the whole run, in the first
  // round with enough voters on both sides, and none if there is no such round.
  lemma {:induction false} FloodCostsOneConflict(cfg: Config, i: nat)
    requires cfg.Valid() && EveryByzantineLies(cfg) && i <= |cfg.truth|
    ensures CommonRun(cfg).Conflicts(i) == if ClashBefore(cfg, i) then 1 else 0
    ensures CommonCore(cfg, i).blacklist == if ClashBefore(cfg, i) then cfg.byz else {}
  {
    hide Decide;
    hide CommonCore;
    hide CommonView;
    hide Clash;
    FloodBlacklist(cfg, i);
    if i > 0 {
      FloodCostsOneConflict(cfg, i - 1);
      if !ClashBefore(cfg, i - 1) {
        FloodVerdict(cfg, i - 1);
      }
    }
  }

  lemma FloodBlacklist(cfg: Config, i: nat)
    requires cfg.Valid() && EveryByzantineLies(cfg) && i <= |cfg.truth|
    ensures CommonRun(cfg).Conflicts(i) <= 1
    ensures CommonCore(cfg, i).blacklist == if CommonRun(cfg).Conflicts(i) == 0 then {} else cfg.byz
  {
    CommonRunIsFair(cfg);
    FloodRunLies(cfg);
    CommonRunAfter(cfg, i);
    hide CommonView;
    CommonRun(cfg).FloodCaughtAtOnce(cfg.Honest(), cfg.byz, i);
  }

  lemma FloodVerdict(cfg: Config, i: nat)
    requires cfg.Valid() && EveryByzantineLies(cfg) && i < |cfg.truth| && CommonCore(cfg, i).blacklist == {}
    ensures CommonRun(cfg).VerdictAt(i).conflict <==> Clash(cfg, i)
  {
    FloodFirstConflict(cfg, i);
    CommonRunAfter(cfg, i);
    hide Decide;
    hide CommonView;
  }

  // With an honest voter in every committee each honest peer verifies at most once.
  lemma FloodVerifyQueries(cfg: Config, net: Net, j: nat)
    requires cfg.Valid() && cfg.Fits() && net.Full() && EveryByzantineLies(cfg) && j < cfg.k && j !in cfg.byz
    requires forall i :: 0 <= i < |cfg.truth| ==> HonestCommittee(cfg, i) != {}
    ensures Rounds(cfg, net, |cfg.truth|).Some?
    ensures Rounds(cfg, net, |cfg.truth|).value[j].core.verify
         == if ClashBefore(cfg, |cfg.truth|) then 1 else 0
  {
    var r, n := CommonRun(cfg), |cfg.truth|;
    LockstepRun(cfg, net, n);
    CommonRunAfter(cfg, n);
    r.VerifySplits(n);
    FloodCostsOneConflict(cfg, n);
    NeverSilent(cfg, n);
  }

  lemma NotSilentAt(cfg: Config, i: nat)
    requires cfg.Valid() && i < |cfg.truth| && HonestCommittee(cfg, i) != {}
    ensures var r := CommonRun(cfg); r.Counted(i, cfg.truth[i]) > 0
  {
    var r := CommonRun(cfg);
    CommonRunIsFair(cfg);
    r.HonestNeverListed(cfg.Honest(), i);
    HonestVotesAre(cfg, i, ExposedGiven(cfg, CommonCore(cfg, i).blacklist));
    HonestVotesCounted(r.views[i], r.After(i).blacklist, cfg.Honest(), cfg.truth[i]);
  }

  lemma NeverSilent(cfg: Config, i: nat)
    requires cfg.Valid() && i <= |cfg.truth|
    requires forall t :: 0 <= t < |cfg.truth| ==> HonestCommittee(cfg, t) != {}
    ensures CommonRun(cfg).Silent(i) == 0
  {
    forall t | 0 <= t < i ensures CommonRun(cfg).Counted(t, cfg.truth[t]) > 0 {
      NotSilentAt(cfg, t);
    }
    assert CommonRun(cfg).truth == cfg.truth;
    hide *;
    CommonRun(cfg).NeverSilent(i);
  }

  // --- saturated committees and the derived rho ---

  ghost predicate Saturated(cfg: Config) {
    forall i, id :: cfg.committee(i, id)
  }

  lemma SaturatedCommitteeIsEveryone(cfg: Config, i: int)
    requires cfg.Valid() && Saturated(cfg)
    ensures |HonestCommittee(cfg, i)| == cfg.k - |cfg.byz|
  {
    assert HonestCommittee(cfg, i) == cfg.Honest();
    assert cfg.byz <= UpTo(cfg.k);
    assert |UpTo(cfg.k) - cfg.byz| == cfg.k - |cfg.byz|;
  }

  lemma SittingsAll(cfg: Config, i: nat, j: int)
    requires Saturated(cfg)
    ensures Sittings(cfg, i, j) == i
  {
  }

  lemma SaturatedIsStrong(cfg: Config, divisor: real, root: real)
    requires cfg.Valid() && Saturated(cfg) && |cfg.truth| > 0 && divisor > 0.0
    requires IsRoot(root, Radicand(cfg.k, |cfg.byz|, |cfg.truth|, divisor)) && cfg.rho == PaperRho(cfg.k, root)
    ensures StrongCommittees(cfg) <==> BeatsRho(cfg, divisor)
  {
    SaturatedCommitteeBeatsRho(cfg.k, |cfg.byz|, |cfg.truth|, divisor, root);
    forall i ensures |HonestCommittee(cfg, i)| == cfg.k - |cfg.byz| {
      SaturatedCommitteeIsEveryone(cfg, i);
    }
    hide Radicand;
    hide IsRoot;
    hide PaperRho;
    hide HonestCommittee;
    assert |HonestCommittee(cfg, 0)| == cfg.k - |cfg.byz|;
  }

  // At least two honest peers, and B < d * n * H.
  predicate BeatsRho(cfg: Config, divisor: real) {
    && cfg.k - |cfg.byz| >= 2
    && |cfg.byz| as real < divisor * |cfg.truth| as real * (cfg.k - |cfg.byz|) as real
  }

  // The committee coins of probability `p`.
  ghost predicate CoinsOf(cfg: Config, p: real, draw: (int, int) -> real) {
    forall i, id :: cfg.committee(i, id) <==> InCommittee(p, draw(i, id))
  }

  // A probability clamped to 1 seats everyone in every committee; one clamped to 0, no one.
  lemma ClampedCommittees(cfg: Config, p: real, draw: (int, int) -> real)
    requires CoinsOf(cfg, p, draw)
    ensures p == 1.0 ==> Saturated(cfg)
    ensures p == 0.0 ==> forall i :: HonestCommittee(cfg, i) == {}
  {
    forall i ensures p == 0.0 ==> HonestCommittee(cfg, i) == {} {
      assert p == 0.0 ==> forall id :: !cfg.committee(i, id);
    }
  }

  // When the committee probability is clamped to 1, the derived rho gives a deterministic
  // guarantee: every output is right, and under drip each honest peer spends exactly
  // n + min(n, B div e) queries.
  lemma SaturatedGuarantee(cfg: Config, net: Net, j: nat, divisor: real, root: real)
    requires cfg.Valid() && cfg.Fits() && net.Full() && Saturated(cfg) && j < cfg.k && j !in cfg.byz
    requires |cfg.truth| > 0 && divisor > 0.0 && IsRoot(root, Radicand(cfg.k, |cfg.byz|, |cfg.truth|, divisor))
    requires cfg.rho == PaperRho(cfg.k, root) && BeatsRho(cfg, divisor)
    ensures Rounds(cfg, net, |cfg.truth|).Some?
    ensures var n, p := |cfg.truth|, Rounds(cfg, net, |cfg.truth|).value[j];
            && Reconstructed(p.core.bits, n) == Some(cfg.truth)
            && (cfg.adversary.Drip? ==> p.sourceQueries == n + Min(n, |cfg.byz| / Exposure(cfg.rho)))
  {
    SaturatedIsStrong(cfg, divisor, root);
    FullDeliveryIsSafe(cfg, net, j);
    LockstepRun(cfg, net, |cfg.truth|);
    SittingsAll(cfg, |cfg.truth|, j);
    if cfg.adversary.Drip? {
      DripCounts(cfg, |cfg.truth|);
    }
  }

  // The square-root bound for the program's own runs, over any network that duplicates
  // no message.
  lemma ConflictsWithinSquareRoot(cfg: Config, net: Net, j: nat, divisor: real, root: real)
    requires cfg.Valid() && AtMostOnce(net) && j < cfg.k && j !in cfg.byz && |cfg.truth| > 0 && divisor > 0.0
    requires IsRoot(root, Radicand(cfg.k, |cfg.byz|, |cfg.truth|, divisor)) && cfg.rho == PaperRho(cfg.k, root)
    ensures RunOf(cfg, net, j).Valid()
    ensures WithinSquareRoot(RunOf(cfg, net, j).Conflicts(|cfg.truth|), cfg.k, |cfg.byz|, |cfg.truth|, divisor)
  {
    RunOfIsHonest(cfg, net, j);
    RunOfOneVote(cfg, net, j);
    var r := RunOf(cfg, net, j);
    assert |r.views| == |cfg.truth| && r.rho == cfg.rho;
    hide *;
    RunSquareRootBound(r, cfg.Honest(), cfg.byz, cfg.k, divisor, root);
  }
}
