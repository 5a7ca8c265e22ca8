// The protocol's derived parameters, over the reals: rho, the committee
// probability and the committee coin. A square root enters as a number whose
// square is the radicand, a logarithm as its value.

module Parameters {
  import opened Counting
  import opened Tally
  import opened NodeRun

  predicate IsRoot(root: real, x: real) {
    root >= 0.0 && root * root == x
  }

  // The radicand of rho for `byz` Byzantine peers out of `k`.
  function Radicand(k: nat, byz: nat, n: nat, divisor: real): real
    requires byz < k && n > 0 && divisor > 0.0
  {
    var beta := byz as real / k as real;
    (1.0 - beta) * beta / (divisor * n as real)
  }

  // max{1, k * root}
  function PaperRho(k: nat, root: real): real {
    var r := k as real * root;
    if r < 1.0 then 1.0 else r
  }

  // min{(lnCoeff * ln(max(n, 2)) + rhoCoeff * rho) / (gamma * k), 1}, and at least 0.
  function CommitteeProbability(
    n: int, k: int, gamma: real, rho: real, ln: int -> real, lnCoeff: real, rhoCoeff: real): (p: real)
    ensures 0.0 <= p <= 1.0
    ensures var q := lnCoeff * ln(Max(n, 2)) + rhoCoeff * rho;
            && (p == 1.0 <==> k <= 0 || gamma <= 0.0 || q >= gamma * k as real)
            && (p < 1.0 ==> p * (gamma * k as real) == if q < 0.0 then 0.0 else q)
  {
    if k <= 0 || gamma <= 0.0 then 1.0
    else
      var q, d := lnCoeff * ln(if n < 2 then 2 else n) + rhoCoeff * rho, gamma * k as real;
      QuotientAgainstOne(q, d);
      if q / d > 1.0 then 1.0 else if q / d < 0.0 then 0.0 else q / d
  }

  lemma QuotientAgainstOne(q: real, d: real)
    requires d > 0.0
    ensures q / d > 1.0 <==> q > d
    ensures q / d == 1.0 <==> q == d
    ensures q / d < 0.0 <==> q < 0.0
    ensures q / d * d == q
  {
    var x := q / d;
    assert x * d == q;
    if x > 1.0 {
      assert (x - 1.0) * d > 0.0;
    } else if x < 1.0 {
      assert (1.0 - x) * d > 0.0;
    }
    ScaleIff(0.0, x, d);
  }

  // A coin is a draw from [0, 1).
  predicate InCommittee(p: real, draw: real) {
    p >= 1.0 || (p > 0.0 && draw < p)
  }

  // Of the draws in [0, 1) exactly those below p seat a peer, clamped or not.
  lemma CoinIsBelow(p: real, draw: real)
    requires 0.0 <= draw < 1.0
    ensures InCommittee(p, draw) <==> draw < p
  {
  }

  lemma PositiveProduct(a: real, b: real)
    requires a > 0.0 && b > 0.0
    ensures a * b > 0.0
  {
  }

  lemma RealMulMonotone(a: real, b: real, c: real)
    requires a <= b && c >= 0.0
    ensures a * c <= b * c
  {
  }

  lemma ScaleIff(a: real, b: real, c: real)
    requires c > 0.0
    ensures a <= b <==> a * c <= b * c
  {
    if a <= b {
      RealMulMonotone(a, b, c);
    } else {
      PositiveProduct(a - b, c);
      assert (a - b) * c == a * c - b * c;
    }
  }

  lemma SquareIff(a: real, b: real)
    requires a >= 0.0 && b >= 0.0
    ensures a <= b <==> a * a <= b * b
  {
    if a <= b {
      RealMulMonotone(a, b, a);
      RealMulMonotone(a, b, b);
    } else {
      PositiveProduct(a - b, a + b);
      assert (a - b) * (a + b) == a * a - b * b;
    }
  }

  // The derived radicand, cleared of fractions: (k * root)^2 * d * n = H * B.
  lemma RadicandCleared(k: nat, byz: nat, n: nat, divisor: real, root: real)
    requires byz < k && n > 0 && divisor > 0.0
    requires IsRoot(root, Radicand(k, byz, n, divisor))
    ensures var r := k as real * root;
            r * r * (divisor * n as real) == (k - byz) as real * byz as real
  {
    var kk, bb := k as real, byz as real;
    var beta, dn := bb / kk, divisor * n as real;
    assert dn > 0.0;
    assert beta * kk == bb;
    assert (1.0 - beta) * kk == kk - bb;
    var x := (1.0 - beta) * beta;
    assert root * root * dn == x by {
      assert x / dn * dn == x;
    }
    calc {
      kk * root * (kk * root) * dn;
      kk * kk * (root * root * dn);
      kk * kk * x;
      ((1.0 - beta) * kk) * (beta * kk);
      (kk - bb) * bb;
    }
  }

  // The derived rho exactly: 1 as long as H * B is at most d * n, and the root beyond.
  lemma RhoExactly(k: nat, byz: nat, n: nat, divisor: real, root: real)
    requires byz < k && n > 0 && divisor > 0.0
    requires IsRoot(root, Radicand(k, byz, n, divisor))
    ensures var rho, dn, hb := PaperRho(k, root), divisor * n as real, (k - byz) as real * byz as real;
            && rho >= 1.0
            && (rho == 1.0 <==> hb <= dn)
            && (hb > dn ==> rho * rho * dn == hb)
  {
    var r, dn := k as real * root, divisor * n as real;
    RadicandCleared(k, byz, n, divisor, root);
    assert dn > 0.0 && r >= 0.0;
    SquareIff(r, 1.0);
    ScaleIff(r * r, 1.0, dn);
    hide Radicand;
  }

  // rho^2 * d * n >= H * B for the derived rho.
  lemma RhoSquared(k: nat, byz: nat, n: nat, divisor: real, root: real)
    requires byz < k && n > 0 && divisor > 0.0
    requires IsRoot(root, Radicand(k, byz, n, divisor))
    ensures var rho := PaperRho(k, root);
            rho * rho * (divisor * n as real) >= (k - byz) as real * byz as real
  {
    var r, rho := k as real * root, PaperRho(k, root);
    RadicandCleared(k, byz, n, divisor, root);
    assert 0.0 <= r <= rho;
    SquareIff(r, rho);
    RealMulMonotone(r * r, rho * rho, divisor * n as real);
  }

  // c * rho <= B and H * B <= rho^2 * D give c^2 * H <= D * B.
  lemma CombineBounds(c: real, rho: real, b: real, h: real, d: real)
    requires c >= 0.0 && rho >= 0.0 && b > 0.0 && d >= 0.0
    requires c * rho <= b && h * b <= rho * rho * d
    ensures c * c * h <= d * b
  {
    var x, y := c * c, c * rho;
    SquareIff(y, b);
    calc {
      (x * h) * b;
      x * (h * b);
    <= { RealMulMonotone(h * b, rho * rho * d, x); }
      x * (rho * rho * d);
      (y * y) * d;
    <= { RealMulMonotone(y * y, b * b, d); }
      (b * b) * d;
      (d * b) * b;
    }
    ScaleIff(x * h, d * b, b);
  }

  // c^2 * H <= d * n * B, with H = k - B.
  predicate WithinSquareRoot(c: nat, k: nat, byz: nat, n: nat, divisor: real) {
    c as real * c as real * (k - byz) as real <= divisor * n as real * byz as real
  }

  lemma RelaxExposure(c: nat, rho: real, e: int, b: nat)
    requires rho <= e as real && c * e <= b
    ensures c as real * rho <= b as real
  {
    RealMulMonotone(rho, e as real, c as real);
    assert (c * e) as real == c as real * e as real;
  }

  // If c conflicts cost more than rho liars each, then c^2 * H <= d * n * B.
  lemma SquareRootBound(c: nat, k: nat, byz: nat, n: nat, divisor: real, root: real)
    requires byz < k && n > 0 && divisor > 0.0
    requires IsRoot(root, Radicand(k, byz, n, divisor))
    requires c * Exposure(PaperRho(k, root)) <= byz
    ensures WithinSquareRoot(c, k, byz, n, divisor)
  {
    hide Radicand;
    hide IsRoot;
    var rho, e := PaperRho(k, root), Exposure(PaperRho(k, root));
    assert e >= 1;
    if byz == 0 {
      MulMonotone(1, e, c);
      assert c == 0;
    } else {
      RelaxExposure(c, rho, e, byz);
      RhoSquared(k, byz, n, divisor, root);
      hide PaperRho;
      CombineBounds(c as real, rho, byz as real, (k - byz) as real, divisor * n as real);
    }
  }

  // With everyone in the committee, H honest votes beat the derived rho in exactly these cases.
  lemma SaturatedCommitteeBeatsRho(k: nat, byz: nat, n: nat, divisor: real, root: real)
    requires byz < k && n > 0 && divisor > 0.0
    requires IsRoot(root, Radicand(k, byz, n, divisor))
    ensures (k - byz) as real > PaperRho(k, root)
            <==> k - byz >= 2 && byz as real < divisor * n as real * (k - byz) as real
  {
    var r, hh, bb, dn := k as real * root, (k - byz) as real, byz as real, divisor * n as real;
    RadicandCleared(k, byz, n, divisor, root);
    assert dn > 0.0 && hh > 0.0;
    SquareIff(hh, r);
    ScaleIff(hh * hh, r * r, dn);
    assert hh * hh * dn == (dn * hh) * hh;
    ScaleIff(dn * hh, bb, hh);
  }

  // The number of conflicts any adversary can force on an honest peer under the derived rho
  // grows only with the square root of the number of bits.
  lemma RunSquareRootBound(r: Run, honest: set<int>, byz: set<int>, k: nat, divisor: real, root: real)
    requires r.Valid() && r.Honest(honest) && r.SendersIn(honest + byz) && r.OneVote()
    requires |byz| < k && |r.views| > 0 && divisor > 0.0
    requires IsRoot(root, Radicand(k, |byz|, |r.views|, divisor)) && r.rho == PaperRho(k, root)
    ensures WithinSquareRoot(r.Conflicts(|r.views|), k, |byz|, |r.views|, divisor)
  {
    assert r.rho >= 0.0;
    hide *;
    r.ConflictBound(honest, byz);
    SquareRootBound(r.Conflicts(|r.views|), k, |byz|, |r.views|, divisor, root);
  }
}
