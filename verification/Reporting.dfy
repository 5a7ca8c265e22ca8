// What the numbers of a finished scenario's report mean.

module Reporting {
  import opened Counting
  import opened Tally
  import opened NodeRun
  import opened World
  import opened AgentNode
  import opened Scenario
  import opened WholeRun

  predicate Right(cfg: Config, p: Peer) {
    Reconstructed(p.core.bits, |cfg.truth|) == Some(cfg.truth)
  }

  // The honest peers below `j`, by whether they output the source's array.
  function RightPeers(cfg: Config, w: seq<Peer>, j: nat): set<nat>
    requires j <= |w|
  {
    set x: nat | x < j && x !in cfg.byz && Right(cfg, w[x])
  }

  function WrongPeers(cfg: Config, w: seq<Peer>, j: nat): set<nat>
    requires j <= |w|
  {
    set x: nat | x < j && x !in cfg.byz && !Right(cfg, w[x])
  }

  function HonestBelow(cfg: Config, j: nat): set<nat> {
    set x: nat | x < j && x !in cfg.byz
  }

  lemma HonestCounted(cfg: Config)
    requires cfg.Valid()
    ensures |HonestBelow(cfg, cfg.k)| == cfg.k - |cfg.byz| >= 1
  {
    assert HonestBelow(cfg, cfg.k) == cfg.Honest();
    assert cfg.byz <= UpTo(cfg.k);
    assert |UpTo(cfg.k) - cfg.byz| == cfg.k - |cfg.byz|;
  }

  lemma PeersSplit(cfg: Config, w: seq<Peer>, j: nat)
    requires j <= |w|
    ensures |RightPeers(cfg, w, j)| + |WrongPeers(cfg, w, j)| == |HonestBelow(cfg, j)|
  {
    hide Right;
    assert RightPeers(cfg, w, j) + WrongPeers(cfg, w, j) == HonestBelow(cfg, j);
    assert RightPeers(cfg, w, j) !! WrongPeers(cfg, w, j);
  }

  lemma OneRightMore(cfg: Config, w: seq<Peer>, j: nat)
    requires j < |w|
    ensures var right := j !in cfg.byz && Right(cfg, w[j]);
            |RightPeers(cfg, w, j + 1)| == |RightPeers(cfg, w, j)| + if right then 1 else 0
  {
    hide Right;
    var right, before := j !in cfg.byz && Right(cfg, w[j]), RightPeers(cfg, w, j);
    assert j !in before && RightPeers(cfg, w, j + 1) == before + if right then {j} else {};
    hide *;
    AddOne(before, j, right);
  }

  lemma OneWrongMore(cfg: Config, w: seq<Peer>, j: nat)
    requires j < |w|
    ensures var wrong := j !in cfg.byz && !Right(cfg, w[j]);
            |WrongPeers(cfg, w, j + 1)| == |WrongPeers(cfg, w, j)| + if wrong then 1 else 0
  {
    hide Right;
    var wrong, before := j !in cfg.byz && !Right(cfg, w[j]), WrongPeers(cfg, w, j);
    assert j !in before && WrongPeers(cfg, w, j + 1) == before + if wrong then {j} else {};
    hide *;
    AddOne(before, j, wrong);
  }

  // Completed and failed count the honest peers that are right and those that are wrong.
  lemma {:induction false} OutcomesCounted(cfg: Config, w: seq<Peer>, j: nat)
    requires j <= |w|
    ensures var r := ReportOn(cfg, w, j);
            r.completed == |RightPeers(cfg, w, j)| && r.failed == |WrongPeers(cfg, w, j)|
  {
    if j > 0 {
      OutcomesCounted(cfg, w, j - 1);
      OneRightMore(cfg, w, j - 1);
      OneWrongMore(cfg, w, j - 1);
    }
    hide RightPeers;
    hide WrongPeers;
    hide Reconstructed;
    hide Missing;
  }

  // --- sums over peers ---

  // A number of each peer below `j`; of Byzantine peers only if `all`.
  function PerPeer(cfg: Config, w: seq<Peer>, j: nat, all: bool, f: Peer -> nat): seq<int>
    requires j <= |w|
  {
    seq(j, x requires 0 <= x < j => if all || x !in cfg.byz then f(w[x]) else 0)
  }

  function Queries(): Peer -> nat { (p: Peer) => p.sourceQueries }

  function Primaries(): Peer -> nat { (p: Peer) => p.primary }

  function Verifies(): Peer -> nat { (p: Peer) => p.core.verify }

  function Sends(): Peer -> nat { (p: Peer) => p.messagesSent }

  // The bits that a wrong output lacks.
  function Gaps(truth: seq<byte>): Peer -> nat {
    (p: Peer) =>
      if Reconstructed(p.core.bits, |truth|) == Some(truth) then 0
      else |set i: nat | i < |truth| && i !in p.core.bits|
  }

  lemma PerPeerOneMore(cfg: Config, w: seq<Peer>, j: nat, all: bool, f: Peer -> nat)
    requires j < |w|
    ensures Sum(PerPeer(cfg, w, j + 1, all, f))
         == Sum(PerPeer(cfg, w, j, all, f)) + if all || j !in cfg.byz then f(w[j]) else 0
  {
    var more := PerPeer(cfg, w, j + 1, all, f);
    assert more[..j] == PerPeer(cfg, w, j, all, f);
  }

  // The reported totals are the sums of the peers' counters, whatever state the run ended
  // in: queries over everyone and over the honest, messages and missing bits over the honest.
  lemma {:induction false} TotalsAreSums(cfg: Config, w: seq<Peer>, j: nat)
    requires j <= |w|
    ensures var r := ReportOn(cfg, w, j);
            && r.totalQueries == Sum(PerPeer(cfg, w, j, true, Queries()))
            && r.honestQueries == Sum(PerPeer(cfg, w, j, false, Queries()))
            && r.messages == Sum(PerPeer(cfg, w, j, false, Sends()))
            && r.missingBits == Sum(PerPeer(cfg, w, j, false, Gaps(cfg.truth)))
  {
    hide Sum;
    hide PerPeer;
    hide Reconstructed;
    hide Missing;
    EmptyBalance(cfg, w);
    if j > 0 {
      TotalsAreSums(cfg, w, j - 1);
      PerPeerOneMore(cfg, w, j - 1, true, Queries());
      PerPeerOneMore(cfg, w, j - 1, false, Queries());
      PerPeerOneMore(cfg, w, j - 1, false, Sends());
      PerPeerOneMore(cfg, w, j - 1, false, Gaps(cfg.truth));
      MissingCounted(w[j - 1].core.bits, |cfg.truth|);
    }
  }

  lemma NoGaps(cfg: Config, w: seq<Peer>, j: nat)
    requires j <= |w|
    requires forall x :: 0 <= x < j && x !in cfg.byz ==> Reconstructed(w[x].core.bits, |cfg.truth|).Some?
    ensures Sum(PerPeer(cfg, w, j, false, Gaps(cfg.truth))) == 0
  {
    if j > 0 {
      NoGaps(cfg, w, j - 1);
      PerPeerOneMore(cfg, w, j - 1, false, Gaps(cfg.truth));
      var bits := w[j - 1].core.bits;
      NothingMissing(bits, |cfg.truth|);
      MissingCounted(bits, |cfg.truth|);
    }
    hide Sum;
    hide PerPeer;
    hide Reconstructed;
    hide Missing;
  }

  // Peer `x` is the first honest one below `j` with the most queries.
  ghost predicate FirstTop(cfg: Config, w: seq<Peer>, j: nat, x: nat)
    requires j <= |w|
  {
    && x < j && x !in cfg.byz
    && (forall y :: 0 <= y < j && y !in cfg.byz ==> w[y].sourceQueries <= w[x].sourceQueries)
    && (forall y :: 0 <= y < x && y !in cfg.byz ==> w[y].sourceQueries < w[x].sourceQueries)
  }

  // The maxima bound every honest peer, and the query maximum comes with the split of the
  // first peer that attains it.
  lemma {:induction false} MaximaAttained(cfg: Config, w: seq<Peer>, j: nat)
    requires j <= |w|
    ensures var r := ReportOn(cfg, w, j);
            && (forall x :: 0 <= x < j && x !in cfg.byz ==>
                  w[x].sourceQueries <= r.maxQueries && |w[x].core.blacklist| <= r.maxBlacklist)
            && (r.maxQueries == r.maxPrimary == r.maxVerify == 0
                || exists x: nat :: FirstTop(cfg, w, j, x) && w[x].sourceQueries == r.maxQueries
                               && w[x].primary == r.maxPrimary && w[x].core.verify == r.maxVerify)
            && (r.maxBlacklist == 0
                || exists x :: 0 <= x < j && x !in cfg.byz && |w[x].core.blacklist| == r.maxBlacklist)
  {
    hide Reconstructed;
    hide Missing;
    if j > 0 {
      MaximaAttained(cfg, w, j - 1);
      var before, r := ReportOn(cfg, w, j - 1), ReportOn(cfg, w, j);
      if j - 1 !in cfg.byz && w[j - 1].sourceQueries > before.maxQueries {
        assert FirstTop(cfg, w, j, j - 1);
      } else if x: nat :| FirstTop(cfg, w, j - 1, x) && w[x].sourceQueries == before.maxQueries
                          && w[x].primary == before.maxPrimary && w[x].core.verify == before.maxVerify {
        assert FirstTop(cfg, w, j, x);
      }
    }
  }

  lemma FanoutAdds(k: nat, a: nat, b: nat)
    ensures Fanout(k, a + b) == Fanout(k, a) + Fanout(k, b)
  {
  }

  lemma {:induction false} TotalsBalance(cfg: Config, w: seq<Peer>, j: nat)
    requires j <= |w| == cfg.k && forall x :: 0 <= x < j ==> BooksBalance(cfg, w[x], x)
    ensures var primary, verify :=
              Sum(PerPeer(cfg, w, j, false, Primaries())), Sum(PerPeer(cfg, w, j, false, Verifies()));
            && primary >= 0
            && Sum(PerPeer(cfg, w, j, false, Sends())) == Fanout(cfg.k, primary)
            && Sum(PerPeer(cfg, w, j, true, Queries())) == primary + verify
            && Sum(PerPeer(cfg, w, j, false, Queries())) == primary + verify
  {
    hide Fanout;
    hide Sum;
    hide PerPeer;
    if j == 0 {
      EmptyBalance(cfg, w);
    } else {
      TotalsBalance(cfg, w, j - 1);
      var x := j - 1;
      PerPeerOneMore(cfg, w, x, false, Primaries());
      PerPeerOneMore(cfg, w, x, false, Verifies());
      PerPeerOneMore(cfg, w, x, false, Sends());
      PerPeerOneMore(cfg, w, x, true, Queries());
      PerPeerOneMore(cfg, w, x, false, Queries());
      FanoutAdds(cfg.k, Sum(PerPeer(cfg, w, x, false, Primaries())), w[x].primary);
    }
  }

  lemma EmptyBalance(cfg: Config, w: seq<Peer>)
    ensures forall all, f: Peer -> nat :: Sum(PerPeer(cfg, w, 0, all, f)) == 0
    ensures Fanout(cfg.k, 0) == 0
  {
  }

  // No round of peer `j` fails.
  ghost predicate Unfailing(cfg: Config, net: Net, j: nat)
    requires cfg.Valid() && j < cfg.k
  {
    RunOf(cfg, net, j).Valid() && forall i :: 0 <= i < |cfg.truth| ==> !RunOf(cfg, net, j).FailsAt(i)
  }

  lemma RightIfUnfailing(cfg: Config, net: Net, j: nat)
    requires cfg.Valid() && j < cfg.k && j !in cfg.byz && Rounds(cfg, net, |cfg.truth|).Some?
    ensures var p := Rounds(cfg, net, |cfg.truth|).value[j];
            && Reconstructed(p.core.bits, |cfg.truth|).Some? && |p.core.blacklist| <= |cfg.byz|
            && (Right(cfg, p) <==> Unfailing(cfg, net, j))
  {
    FinishedRun(cfg, net, j);
    SubsetSize(Rounds(cfg, net, |cfg.truth|).value[j].core.blacklist, cfg.byz);
    hide RunOf;
    hide Rounds;
  }

  // A scenario that returns reports on every honest peer, of which there is at least one,
  // and misses no bit; those reported right are exactly the ones without a failed round.
  lemma FinishedReport(cfg: Config, net: Net)
    requires cfg.Valid() && Rounds(cfg, net, |cfg.truth|).Some?
    ensures var r := ReportOn(cfg, Rounds(cfg, net, |cfg.truth|).value, cfg.k);
            && r.completed == |set j: nat | j < cfg.k && j !in cfg.byz && Unfailing(cfg, net, j)|
            && r.completed + r.failed == cfg.k - |cfg.byz| >= 1
            && r.missingBits == 0
            && r.maxBlacklist <= |cfg.byz|
  {
    var w := Rounds(cfg, net, |cfg.truth|).value;
    forall j: nat | j < cfg.k && j !in cfg.byz
      ensures Reconstructed(w[j].core.bits, |cfg.truth|).Some? && |w[j].core.blacklist| <= |cfg.byz|
      ensures Right(cfg, w[j]) <==> Unfailing(cfg, net, j)
    {
      RightIfUnfailing(cfg, net, j);
    }
    OutcomesCounted(cfg, w, cfg.k);
    PeersSplit(cfg, w, cfg.k);
    HonestCounted(cfg);
    TotalsAreSums(cfg, w, cfg.k);
    NoGaps(cfg, w, cfg.k);
    BlacklistMaximum(cfg, w, cfg.k, |cfg.byz|);
    assert RightPeers(cfg, w, cfg.k) == set j: nat | j < cfg.k && j !in cfg.byz && Unfailing(cfg, net, j);
    hide Unfailing;
    hide Right;
    hide Rounds;
    hide ReportOn;
    hide Sum;
    hide PerPeer;
    hide WrongPeers;
    hide HonestBelow;
  }

  lemma BlacklistMaximum(cfg: Config, w: seq<Peer>, j: nat, limit: nat)
    requires j <= |w| && forall x :: 0 <= x < j && x !in cfg.byz ==> |w[x].core.blacklist| <= limit
    ensures ReportOn(cfg, w, j).maxBlacklist <= limit
  {
  }

  // Without faults the reported Q splits into committee and verify queries, and the
  // reported M is k - 1 messages per committee query.
  lemma CleanReport(cfg: Config, net: Net)
    requires cfg.Valid() && net.Clean()
    ensures Rounds(cfg, net, |cfg.truth|).Some?
    ensures var w := Rounds(cfg, net, |cfg.truth|).value;
            var r := ReportOn(cfg, w, cfg.k);
            var primary, verify :=
              Sum(PerPeer(cfg, w, cfg.k, false, Primaries())), Sum(PerPeer(cfg, w, cfg.k, false, Verifies()));
            && r.maxQueries == r.maxPrimary + r.maxVerify
            && primary >= 0 && r.messages == Fanout(cfg.k, primary)
            && r.totalQueries == r.honestQueries == primary + verify
  {
    forall j | 0 <= j < cfg.k
      ensures Rounds(cfg, net, |cfg.truth|).Some? && BooksBalance(cfg, Rounds(cfg, net, |cfg.truth|).value[j], j)
    {
      CleanRunBalances(cfg, net, |cfg.truth|, j);
    }
    FirstHonestExists(cfg);
    CleanRunBalances(cfg, net, |cfg.truth|, 0);
    var w := Rounds(cfg, net, |cfg.truth|).value;
    hide Rounds;
    MaximaAttained(cfg, w, cfg.k);
    TotalsBalance(cfg, w, cfg.k);
    TotalsAreSums(cfg, w, cfg.k);
    hide ReportOn;
    hide Sum;
    hide PerPeer;
  }
}
