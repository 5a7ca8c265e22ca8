// How a scenario is set up: the number of Byzantine peers, which ones they are, and
// the derived fractions.

module Setup {
  import opened Tally
  import opened World
  import opened Parameters
  import opened Scenario
  import opened Reporting

  lemma ScaledRatio(ratio: real, k: real)
    requires 0.0 <= ratio < 1.0 && k > 0.0
    ensures 0.0 <= ratio * k < k
  {
    RealMulMonotone(0.0, ratio, k);
    PositiveProduct(1.0 - ratio, k);
  }

  // floor(ratio * k), clamped so that one peer stays honest.
  function ByzantineCount(ratio: real, k: int): (c: int)
    requires 0.0 <= ratio < 1.0 && k >= 2
    ensures 0 <= c < k
  {
    ScaledRatio(ratio, k as real);
    var c := (ratio * k as real).Floor;
    if c >= k then k - 1 else c
  }

  // For an admissible ratio the count is the largest one whose fraction does not exceed
  // the ratio; at least one peer is honest, and the clamp never acts.
  lemma ByzantineCountIsLargest(ratio: real, k: int, c: int)
    requires 0.0 <= ratio < 1.0 && k >= 2
    ensures 0 <= ByzantineCount(ratio, k) <= k - 1
    ensures c <= ByzantineCount(ratio, k) <==> c as real <= ratio * k as real
  {
    ScaledRatio(ratio, k as real);
    FloorIsLargest(ratio * k as real, c);
    FloorIsLargest(ratio * k as real, k);
  }

  lemma FloorIsLargest(x: real, c: int)
    ensures c <= x.Floor <==> c as real <= x
  {
  }

  // gamma and beta are complementary, so PaperRho's 1 - beta is the honest fraction.
  lemma FractionsComplement(k: nat, byz: nat)
    requires byz < k
    ensures (k - byz) as real / k as real == 1.0 - byz as real / k as real
    ensures (k - byz) as real / k as real > 0.0
  {
    var kk := k as real;
    var gamma, beta := (k - byz) as real / kk, byz as real / kk;
    assert gamma * kk == (k - byz) as real && beta * kk == byz as real;
    assert (k - byz) as real == kk - byz as real;
    Complementary(gamma, beta, kk, (k - byz) as real, byz as real);
  }

  lemma Complementary(gamma: real, beta: real, k: real, h: real, b: real)
    requires k > 0.0 && h > 0.0 && h + b == k && gamma * k == h && beta * k == b
    ensures gamma == 1.0 - beta && gamma > 0.0
  {
    var x := gamma - (1.0 - beta);
    assert x * k == gamma * k + beta * k - k == 0.0;
    if x > 0.0 {
      PositiveProduct(x, k);
    } else if x < 0.0 {
      PositiveProduct(-x, k);
    }
    if gamma <= 0.0 {
      RealMulMonotone(gamma, 0.0, k);
    }
  }

  ghost predicate IsPermutation(perm: seq<nat>) {
    && (forall x :: 0 <= x < |perm| ==> perm[x] < |perm|)
    && (forall x, y :: 0 <= x < y < |perm| ==> perm[x] != perm[y])
  }

  function Members(s: seq<nat>): set<nat> {
    set x | x in s
  }

  lemma MembersDistinct(s: seq<nat>)
    requires forall x, y :: 0 <= x < y < |s| ==> s[x] != s[y]
    ensures |Members(s)| == |s|
  {
    if s != [] {
      var init, last := s[..|s| - 1], s[|s| - 1];
      MembersDistinct(init);
      assert s == init + [last];
      assert Members(s) == Members(init) + {last};
      assert last !in Members(init);
    }
  }

  function Marked(selected: array<bool>): set<nat>
    reads selected
  {
    set i: nat | i < selected.Length && selected[i]
  }

  // Marks the first `count` entries of a random permutation: exactly `count` peers.
  method SelectByzantine(total: nat, count: nat, perm: seq<nat>) returns (selected: array<bool>)
    requires |perm| == total && IsPermutation(perm) && count <= total
    ensures fresh(selected) && selected.Length == total
    ensures Marked(selected) == Members(perm[..count]) && |Marked(selected)| == count
  {
    selected := new bool[total](_ => false);
    for i := 0 to count
      invariant forall j :: 0 <= j < total ==> (selected[j] <==> j in perm[..i])
    {
      selected[perm[i]] := true;
    }
    MembersDistinct(perm[..count]);
    assert Marked(selected) == Members(perm[..count]);
  }

  // A configuration with bits and coins in order whose Byzantine peers are those marked
  // for `ratio`.
  ghost predicate SetUpFor(cfg: Config, ratio: real, perm: seq<nat>) {
    && cfg.k >= 2 && 0.0 <= ratio < 1.0 && |perm| == cfg.k && IsPermutation(perm)
    && cfg.byz == Members(perm[..ByzantineCount(ratio, cfg.k)])
    && cfg.rho >= 0.0
    && (forall i :: 0 <= i < |cfg.truth| ==> IsBit(cfg.truth[i]))
    && (forall i, id :: IsBit(cfg.coin(i, id)))
  }

  // It is valid, with as many Byzantine peers as counted and at least one honest peer.
  lemma SelectionIsValid(cfg: Config, ratio: real, perm: seq<nat>)
    requires SetUpFor(cfg, ratio, perm)
    ensures cfg.Valid() && |cfg.byz| == ByzantineCount(ratio, cfg.k) < cfg.k
  {
    MembersDistinct(perm[..ByzantineCount(ratio, cfg.k)]);
  }

  // A finished scenario reports on k minus the marked peers.
  lemma ReportCountsUnmarked(cfg: Config, net: Net, ratio: real, perm: seq<nat>)
    requires SetUpFor(cfg, ratio, perm) && Rounds(cfg, net, |cfg.truth|).Some?
    ensures var r := ReportOn(cfg, Rounds(cfg, net, |cfg.truth|).value, cfg.k);
            r.completed + r.failed == cfg.k - ByzantineCount(ratio, cfg.k) >= 1
  {
    SelectionIsValid(cfg, ratio, perm);
    FinishedReport(cfg, net);
    hide *;
  }
}
