// Counting and summing over sequences, shared by the vote tallies and by the
// state machines of the concurrent parts.

module Counting {

  function Min(a: int, b: int): int {
    if a < b then a else b
  }

  function Max(a: int, b: int): int {
    if a < b then b else a
  }

  // The number of elements of `s` that satisfy `p`.
  function CountIf<T>(s: seq<T>, p: T -> bool): nat {
    if s == [] then 0
    else CountIf(s[..|s| - 1], p) + if p(s[|s| - 1]) then 1 else 0
  }

  lemma CountIfConcat<T>(s: seq<T>, t: seq<T>, p: T -> bool)
    ensures CountIf(s + t, p) == CountIf(s, p) + CountIf(t, p)
  {
    if t == [] {
      assert s + t == s;
    } else {
      CountIfConcat(s, t[..|t| - 1], p);
      assert (s + t)[..|s + t| - 1] == s + t[..|t| - 1];
    }
  }

  lemma CountIfSingle<T>(x: T, p: T -> bool)
    ensures CountIf([x], p) == if p(x) then 1 else 0
  {
    assert [x][..0] == [];
  }

  lemma CountIfUpdate<T>(s: seq<T>, i: nat, x: T, p: T -> bool)
    requires i < |s|
    ensures CountIf(s[i := x], p) == CountIf(s, p) - (if p(s[i]) then 1 else 0) + if p(x) then 1 else 0
  {
    var n := |s| - 1;
    if i < n {
      CountIfUpdate(s[..n], i, x, p);
      assert s[i := x][..n] == s[..n][i := x];
    } else {
      assert s[i := x][..n] == s[..n];
    }
  }

  lemma CountIfBounds<T>(s: seq<T>, p: T -> bool)
    ensures CountIf(s, p) <= |s|
    ensures CountIf(s, p) > 0 <==> exists i :: 0 <= i < |s| && p(s[i])
    ensures CountIf(s, p) == |s| <==> forall i :: 0 <= i < |s| ==> p(s[i])
  {
    if s != [] {
      var n := |s| - 1;
      CountIfBounds(s[..n], p);
      assert forall i :: 0 <= i < n ==> s[i] == s[..n][i];
      if exists i :: 0 <= i < |s| && p(s[i]) {
        var i :| 0 <= i < |s| && p(s[i]);
        assert i < n ==> p(s[..n][i]);
      }
    }
  }

  // Predicates that agree on the elements count alike.
  lemma CountIfCongruent<T>(s: seq<T>, p: T -> bool, q: T -> bool)
    requires forall i :: 0 <= i < |s| ==> p(s[i]) == q(s[i])
    ensures CountIf(s, p) == CountIf(s, q)
  {
    if s != [] {
      CountIfCongruent(s[..|s| - 1], p, q);
    }
  }

  function Without<T>(s: seq<T>, k: nat): seq<T>
    requires k < |s|
  {
    s[..k] + s[k + 1..]
  }

  lemma WithoutMultiset<T>(s: seq<T>, k: nat)
    requires k < |s|
    ensures multiset(Without(s, k)) == multiset(s) - multiset{s[k]}
  {
    assert s == s[..k] + ([s[k]] + s[k + 1..]);
  }

  lemma WithoutCount<T>(s: seq<T>, k: nat, p: T -> bool)
    requires k < |s|
    ensures CountIf(s, p) == CountIf(Without(s, k), p) + if p(s[k]) then 1 else 0
  {
    hide CountIf;
    assert s == s[..k] + ([s[k]] + s[k + 1..]);
    CountIfConcat(s[..k], [s[k]] + s[k + 1..], p);
    CountIfConcat([s[k]], s[k + 1..], p);
    CountIfConcat(s[..k], s[k + 1..], p);
    CountIfSingle(s[k], p);
  }

  // Counting depends on the multiset of elements only, not on their order.
  lemma {:induction false} CountIfPermutation<T>(s: seq<T>, t: seq<T>, p: T -> bool)
    requires multiset(s) == multiset(t)
    ensures CountIf(s, p) == CountIf(t, p)
    decreases |s|
  {
    assert |multiset(s)| == |s| && |multiset(t)| == |t|;
    if s != [] {
      var n := |s| - 1;
      assert s[n] in multiset(s);
      assert s[n] in t;
      var k :| 0 <= k < |t| && t[k] == s[n];
      assert Without(s, n) == s[..n];
      WithoutMultiset(s, n);
      WithoutMultiset(t, k);
      CountIfPermutation(s[..n], Without(t, k), p);
      WithoutCount(t, k, p);
    }
  }

  function Sum(s: seq<int>): int {
    if s == [] then 0 else Sum(s[..|s| - 1]) + s[|s| - 1]
  }

  lemma SumUpdate(s: seq<int>, i: nat, x: int)
    requires i < |s|
    ensures Sum(s[i := x]) == Sum(s) - s[i] + x
  {
    var n := |s| - 1;
    if i < n {
      SumUpdate(s[..n], i, x);
      assert s[i := x][..n] == s[..n][i := x];
    } else {
      assert s[i := x][..n] == s[..n];
    }
  }

  // Raising every element by at most `c` raises the sum by at most `c * |s|`.
  lemma {:induction false} SumRaise(s: seq<int>, t: seq<int>, c: nat)
    requires |s| == |t| && forall i :: 0 <= i < |s| ==> t[i] <= s[i] + c
    ensures Sum(t) <= Sum(s) + c * |s|
  {
    if s != [] {
      var n := |s| - 1;
      SumRaise(s[..n], t[..n], c);
      assert c * |s| == c * n + c;
    }
  }

  lemma {:induction false} SumBounds(s: seq<int>, c: nat)
    requires forall i :: 0 <= i < |s| ==> 0 <= s[i] <= c
    ensures 0 <= Sum(s) <= c * |s|
  {
    if s != [] {
      var n := |s| - 1;
      SumBounds(s[..n], c);
      assert c * |s| == c * n + c;
    }
  }

  lemma AddOne<T>(s: set<T>, x: T, more: bool)
    requires x !in s
    ensures |s + if more then {x} else {}| == |s| + if more then 1 else 0
  {
  }

  lemma SubsetSize<T>(a: set<T>, b: set<T>)
    requires a <= b
    ensures |a| <= |b|
    ensures |a| == |b| ==> a == b
  {
    assert b == a + (b - a);
    assert |b| == |a| + |b - a|;
  }
}
