// One honest peer over a whole run. A run is driven by the votes the peer has in
// hand when it decides each bit (its view); nothing is assumed about how they got
// there, so quantifying over runs covers every adaptive, equivocating adversary,
// every delivery order and every duplication.

module NodeRun {
  import opened Counting
  import opened Tally

  datatype Option<+T> = None | Some(value: T)

  // The part of a peer's state that deciding bits reads and writes.
  datatype Core = Core(bits: map<int, byte>, blacklist: set<int>, verify: nat)

  const FRESH := Core(map[], {}, 0)

  function DecideRound(c: Core, i: int, view: seq<Message>, truth: byte, rho: real): Core {
    var v := Decide(view, c.blacklist, rho, truth);
    Core(c.bits[i := v.bit], c.blacklist + v.losers, c.verify + if v.queried then 1 else 0)
  }

  // The peer's output array, or None if any bit is missing.
  function Reconstructed(bits: map<int, byte>, n: nat): Option<seq<byte>> {
    if forall i :: 0 <= i < n ==> i in bits then
      Some(seq(n, i requires 0 <= i < n => bits[i]))
    else
      None
  }

  lemma ReconstructedAre(bits: map<int, byte>, truth: seq<byte>)
    requires forall i :: 0 <= i < |truth| ==> i in bits
    ensures var out := Reconstructed(bits, |truth|);
            && out.Some? && |out.value| == |truth|
            && (forall i :: 0 <= i < |truth| ==> out.value[i] == bits[i])
            && (out.value == truth <==> forall i :: 0 <= i < |truth| ==> bits[i] == truth[i])
  {
    var out := Reconstructed(bits, |truth|).value;
    if forall i :: 0 <= i < |truth| ==> bits[i] == truth[i] {
      assert out == truth;
    }
  }

  datatype Run = Run(truth: seq<byte>, rho: real, views: seq<seq<Message>>)
  {
    ghost predicate Valid() {
      |truth| == |views| && forall i :: 0 <= i < |truth| ==> IsBit(truth[i])
    }

    // The peer's state after the first `i` rounds.
    function After(i: nat): Core
      requires i <= |views| && i <= |truth|
    {
      if i == 0 then FRESH else DecideRound(After(i - 1), i - 1, views[i - 1], truth[i - 1], rho)
    }

    function VerdictAt(i: nat): Verdict
      requires i < |views| && i < |truth|
    {
      Decide(views[i], After(i).blacklist, rho, truth[i])
    }

    function Counted(i: nat, b: byte): nat
      requires i < |views| && i < |truth|
    {
      Votes(views[i], After(i).blacklist, b)
    }

    // How many of the first `i` rounds were conflicts, and how many had no counted vote.
    function Conflicts(i: nat): nat
      requires i <= |views| && i <= |truth|
    {
      if i == 0 then 0 else Conflicts(i - 1) + if VerdictAt(i - 1).conflict then 1 else 0
    }

    function Silent(i: nat): nat
      requires i <= |views| && i <= |truth|
    {
      if i == 0 then 0
      else Silent(i - 1) + if !VerdictAt(i - 1).conflict && Counted(i - 1, 0) + Counted(i - 1, 1) == 0 then 1 else 0
    }

    ghost predicate Honest(honest: set<int>) {
      |truth| == |views| && forall i :: 0 <= i < |views| ==> HonestTruthful(views[i], honest, truth[i])
    }

    ghost predicate OneVote() {
      forall i :: 0 <= i < |views| ==> OneVotePerSender(views[i])
    }

    ghost predicate SendersIn(peers: set<int>) {
      forall i, m :: 0 <= i < |views| && m in views[i] ==> m.sender in peers
    }

    ghost predicate WellAttended(honest: set<int>) {
      forall i :: 0 <= i < |views| ==> HonestVotes(views[i], honest) as real > rho
    }

    // Round `i` leaves the wrong bit behind.
    ghost predicate FailsAt(i: nat)
      requires Valid() && i < |views|
    {
      var c, w := Counted(i, truth[i]), Counted(i, Flip(truth[i]));
      c as real <= rho && (w > c || (w == c && c > 0 && truth[i] == 1))
    }

    // `id` was caught in round `j`: there was a conflict and its counted vote was false.
    ghost predicate CaughtIn(j: nat, id: int)
      requires Valid() && j < |views|
    {
      VerdictAt(j).conflict
      && exists m :: m in views[j] && m.sender == id && VotesFor(m, After(j).blacklist, Flip(truth[j]))
    }

    // --- what the blacklist holds ---

    lemma {:induction false} BlacklistGrows(i: nat, j: nat)
      requires i <= j <= |views| && j <= |truth|
      ensures After(i).blacklist <= After(j).blacklist
    {
      if i < j {
        BlacklistGrows(i, j - 1);
      }
    }

    lemma LosersAreCaught(j: nat, id: int)
      requires Valid() && j < |views|
      ensures id in VerdictAt(j).losers <==> CaughtIn(j, id)
    {
      LosersVotedWrong(views[j], After(j).blacklist, rho, truth[j], id);
    }

    // The blacklist holds exactly the peers that were caught in a conflict.
    lemma {:induction false} BlacklistIsTheCaught(i: nat, id: int)
      requires Valid() && i <= |views|
      ensures id in After(i).blacklist <==> exists j :: 0 <= j < i && CaughtIn(j, id)
    {
      hide Decide;
      hide CaughtIn;
      if i > 0 {
        BlacklistIsTheCaught(i - 1, id);
        LosersAreCaught(i - 1, id);
      }
    }

    lemma {:induction false} HonestNeverListed(honest: set<int>, i: nat)
      requires Valid() && Honest(honest) && i <= |views|
      ensures After(i).blacklist !! honest
    {
      forall id | id in honest ensures id !in After(i).blacklist {
        BlacklistIsTheCaught(i, id);
        forall j | 0 <= j < i ensures !CaughtIn(j, id) {
          assert HonestTruthful(views[j], honest, truth[j]);
        }
      }
    }

    lemma {:induction false} ListedAreByzantine(honest: set<int>, byz: set<int>, i: nat)
      requires Valid() && Honest(honest) && SendersIn(honest + byz) && i <= |views|
      ensures After(i).blacklist <= byz - honest
    {
      HonestNeverListed(honest, i);
      forall id | id in After(i).blacklist ensures id in honest + byz {
        BlacklistIsTheCaught(i, id);
        var j :| 0 <= j < i && CaughtIn(j, id);
        var m :| m in views[j] && m.sender == id;
      }
    }

    // --- correctness of the output ---

    lemma AfterBits(i: nat)
      requires i < |views| && i < |truth|
      ensures After(i + 1).bits == After(i).bits[i := VerdictAt(i).bit]
    {
      hide Decide;
    }

    lemma NothingStored()
      ensures After(0).bits == map[]
    {
    }

    lemma {:induction false} BitsStored(i: nat)
      requires i <= |views| && i <= |truth|
      ensures forall b :: b in After(i).bits <==> 0 <= b < i
      ensures forall b :: 0 <= b < i ==> After(i).bits[b] == VerdictAt(b).bit
    {
      hide *;
      if i == 0 {
        NothingStored();
      } else {
        BitsStored(i - 1);
        AfterBits(i - 1);
      }
    }

    lemma RoundFailsIffBitWrong(i: nat)
      requires Valid() && i < |views|
      ensures VerdictAt(i).bit != truth[i] <==> FailsAt(i)
    {
      WrongBitCondition(views[i], After(i).blacklist, rho, truth[i]);
    }

    // The output is complete, and it is wrong in exactly the bits whose round fails.
    lemma OutputWrongExactlyAtFailures()
      requires Valid()
      ensures var out := Reconstructed(After(|views|).bits, |truth|);
              && out.Some? && |out.value| == |truth|
              && (forall i :: 0 <= i < |truth| ==> (out.value[i] != truth[i] <==> FailsAt(i)))
              && (out.value == truth <==> forall i :: 0 <= i < |truth| ==> !FailsAt(i))
    {
      var bits := After(|views|).bits;
      BitsStored(|views|);
      forall i | 0 <= i < |truth| ensures bits[i] != truth[i] <==> FailsAt(i) {
        RoundFailsIffBitWrong(i);
      }
      hide *;
      ReconstructedAre(bits, truth);
    }

    // Whatever the Byzantine peers do, a peer that holds more than rho honest votes
    // in every round outputs the source's array.
    lemma Safety(honest: set<int>)
      requires Valid() && Honest(honest) && WellAttended(honest)
      ensures Reconstructed(After(|views|).bits, |truth|) == Some(truth)
    {
      forall i | 0 <= i < |truth| ensures !FailsAt(i) {
        HonestNeverListed(honest, i);
        HonestVotesCounted(views[i], After(i).blacklist, honest, truth[i]);
      }
      OutputWrongExactlyAtFailures();
    }

    // --- cost of the run ---

    lemma {:induction false} VerifySplits(i: nat)
      requires i <= |views| && i <= |truth|
      ensures After(i).verify == Conflicts(i) + Silent(i)
    {
      if i > 0 {
        VerifySplits(i - 1);
      }
    }

    lemma SilentStart()
      ensures Silent(0) == 0
    {
    }

    lemma SilentStep(i: nat)
      requires Valid() && i < |views| && Counted(i, truth[i]) > 0
      ensures Silent(i + 1) == Silent(i)
    {
      assert truth[i] == 0 || truth[i] == 1;
      hide Run.Counted;
      hide Run.VerdictAt;
    }

    // A true vote counted in every round leaves no round silent.
    lemma {:induction false} NeverSilent(i: nat)
      requires Valid() && i <= |views| && forall t :: 0 <= t < i ==> Counted(t, truth[t]) > 0
      ensures Silent(i) == 0
    {
      hide *;
      if i == 0 {
        SilentStart();
      } else {
        NeverSilent(i - 1);
        SilentStep(i - 1);
      }
    }

    lemma ConflictGrowsBlacklist(i: nat)
      requires Valid() && OneVote() && i < |views|
      ensures var grown := |After(i + 1).blacklist| - |After(i).blacklist|;
              if VerdictAt(i).conflict then grown >= Exposure(rho) else grown == 0
    {
      var black, v := After(i).blacklist, VerdictAt(i);
      assert OneVotePerSender(views[i]);
      ConflictExposes(views[i], black, rho, truth[i]);
      if v.conflict {
        assert |black + v.losers| == |black| + |v.losers|;
      } else {
        assert black + v.losers == black;
      }
    }

    // Each conflict uses up more than rho liars for good.
    lemma {:induction false} Potential(i: nat)
      requires Valid() && OneVote() && i <= |views|
      ensures Conflicts(i) * Exposure(rho) <= |After(i).blacklist|
    {
      hide Decide;
      if i > 0 {
        Potential(i - 1);
        ConflictGrowsBlacklist(i - 1);
        var hit := VerdictAt(i - 1).conflict;
        PotentialStep(Conflicts(i - 1), hit, Exposure(rho), |After(i - 1).blacklist|, |After(i).blacklist|);
      }
    }

    lemma ConflictsAtMostRounds(i: nat)
      requires i <= |views| && i <= |truth|
      ensures Conflicts(i) <= i
    {
    }

    // No adversary limited to one vote per sender and round forces more conflicts than this.
    lemma ConflictBound(honest: set<int>, byz: set<int>)
      requires Valid() && Honest(honest) && SendersIn(honest + byz) && OneVote() && rho >= 0.0
      ensures Conflicts(|views|) * Exposure(rho) <= |After(|views|).blacklist| <= |byz|
      ensures Conflicts(|views|) <= Min(|views|, |byz| / Exposure(rho))
    {
      Potential(|views|);
      ListedAreByzantine(honest, byz, |views|);
      SubsetSize(After(|views|).blacklist, byz);
      ConflictsAtMostRounds(|views|);
      QuotientBound(Conflicts(|views|), Exposure(rho), |byz|);
    }

    // --- adversaries whose every member lies in every round (flood, collude) ---

    ghost predicate EveryoneLies(byz: set<int>) {
      Valid() && forall i :: 0 <= i < |views| ==> AllLie(views[i], byz, truth[i])
    }

    // The first conflict lists every Byzantine peer, and there is no second one.
    lemma {:induction false} FloodCaughtAtOnce(honest: set<int>, byz: set<int>, i: nat)
      requires Valid() && Honest(honest) && SendersIn(honest + byz) && honest !! byz
      requires EveryoneLies(byz) && rho >= 0.0 && i <= |views|
      ensures Conflicts(i) <= 1
      ensures After(i).blacklist == if Conflicts(i) == 0 then {} else byz
    {
      hide Decide;
      if i > 0 {
        FloodCaughtAtOnce(honest, byz, i - 1);
        assert HonestTruthful(views[i - 1], honest, truth[i - 1]);
        if Conflicts(i - 1) == 0 {
          LiarsLoseTogether(views[i - 1], honest, byz, rho, truth[i - 1]);
        } else {
          NoLosersLeft(views[i - 1], honest, byz, rho, truth[i - 1]);
        }
      }
    }

    // After that conflict the only verify queries left are rounds without an honest vote.
    lemma FloodLaterQueriesAreSilent(honest: set<int>, byz: set<int>, i: nat)
      requires Valid() && Honest(honest) && SendersIn(honest + byz) && honest !! byz
      requires EveryoneLies(byz) && rho >= 0.0 && i < |views| && Conflicts(i) == 1
      ensures !VerdictAt(i).conflict
      ensures VerdictAt(i).queried <==> HonestVotes(views[i], honest) == 0
    {
      FloodCaughtAtOnce(honest, byz, i);
      assert HonestTruthful(views[i], honest, truth[i]);
      OnlyTruthLeft(views[i], honest, byz, truth[i]);
    }
  }

  ghost predicate AllLie(view: seq<Message>, byz: set<int>, truth: byte)
    requires IsBit(truth)
  {
    forall id :: id in byz ==> exists m :: m in view && m.sender == id && VotesFor(m, {}, Flip(truth))
  }

  // A conflict in which everyone Byzantine lies, met with an empty blacklist.
  lemma LiarsLoseTogether(view: seq<Message>, honest: set<int>, byz: set<int>, rho: real, truth: byte)
    requires IsBit(truth) && HonestTruthful(view, honest, truth) && honest !! byz
    requires forall m :: m in view ==> m.sender in honest + byz
    requires AllLie(view, byz, truth)
    ensures var v := Decide(view, {}, rho, truth);
            v.losers == if v.conflict then byz else {}
  {
    var v := Decide(view, {}, rho, truth);
    if v.conflict {
      forall id ensures id in v.losers <==> id in byz {
        LosersVotedWrong(view, {}, rho, truth, id);
      }
    }
  }

  // Once every Byzantine peer is listed, exactly the honest votes count, all of them true.
  lemma OnlyTruthLeft(view: seq<Message>, honest: set<int>, byz: set<int>, truth: byte)
    requires IsBit(truth) && HonestTruthful(view, honest, truth) && honest !! byz
    requires forall m :: m in view ==> m.sender in honest + byz
    ensures Votes(view, byz, Flip(truth)) == 0
    ensures Votes(view, byz, truth) == HonestVotes(view, honest)
  {
    CountIfBounds(view, Backing(byz, Flip(truth)));
    forall x | 0 <= x < |view| ensures Backing(byz, truth)(view[x]) == FromHonest(honest)(view[x]) {
      assert view[x] in view;
    }
    CountIfCongruent(view, Backing(byz, truth), FromHonest(honest));
  }

  lemma NoLosersLeft(view: seq<Message>, honest: set<int>, byz: set<int>, rho: real, truth: byte)
    requires IsBit(truth) && HonestTruthful(view, honest, truth) && honest !! byz && rho >= 0.0
    requires forall m :: m in view ==> m.sender in honest + byz
    ensures var v := Decide(view, byz, rho, truth); !v.conflict && v.losers == {}
  {
    OnlyTruthLeft(view, honest, byz, truth);
  }

  lemma PotentialStep(conflicts: nat, hit: bool, e: int, before: nat, after: nat)
    requires conflicts * e <= before
    requires if hit then after - before >= e else after == before
    ensures (conflicts + if hit then 1 else 0) * e <= after
  {
    MulSuccessor(conflicts, e);
  }

  lemma MulSuccessor(a: int, b: int)
    ensures (a + 1) * b == a * b + b
  {
  }

  lemma MulMonotone(a: int, b: int, e: nat)
    requires a <= b
    ensures a * e <= b * e
  {
  }

  // --- two honest peers in the same protocol run ---

  // The same bits are decided with the same rho; what the peers see may differ.
  ghost predicate Comparable(r: Run, q: Run) {
    r.Valid() && q.Valid() && r.truth == q.truth && r.rho == q.rho >= 0.0
  }

  ghost predicate SameCatchIn(r: Run, q: Run, i: nat)
    requires Comparable(r, q) && i < |r.views|
  {
    SameCatch(r.views[i], q.views[i], r.After(i).blacklist, r.rho, r.truth[i])
  }

  ghost predicate EqualAt(r: Run, q: Run, i: nat)
    requires Comparable(r, q) && i <= |r.views|
  {
    r.After(i).blacklist == q.After(i).blacklist
  }

  lemma EqualAtStart(r: Run, q: Run)
    requires Comparable(r, q)
    ensures EqualAt(r, q, 0)
  {
  }

  lemma BlacklistsSplit(r: Run, q: Run, i: nat)
    requires Comparable(r, q) && i < |r.views| && EqualAt(r, q, i)
    ensures EqualAt(r, q, i + 1) <==> SameCatchIn(r, q, i)
  {
    BlacklistsStayEqual(r.views[i], q.views[i], r.After(i).blacklist, r.rho, r.truth[i]);
    hide Decide;
    hide SameCatch;
  }

  lemma {:induction false} SameCatchesKeepEqual(r: Run, q: Run, n: nat)
    requires Comparable(r, q) && n <= |r.views|
    requires forall i :: 0 <= i < n ==> SameCatchIn(r, q, i)
    ensures EqualAt(r, q, n)
  {
    if n == 0 {
      EqualAtStart(r, q);
    } else {
      SameCatchesKeepEqual(r, q, n - 1);
      BlacklistsSplit(r, q, n - 1);
    }
    hide *;
  }

  // Two honest peers hold the same blacklist at every point of their runs exactly if in
  // every round they catch the same liars.
  lemma BlacklistsAgreeExactly(r: Run, q: Run, n: nat)
    requires Comparable(r, q) && n <= |r.views|
    ensures (forall i :: 0 <= i <= n ==> EqualAt(r, q, i)) <==> forall i :: 0 <= i < n ==> SameCatchIn(r, q, i)
  {
    hide *;
    if forall i :: 0 <= i <= n ==> EqualAt(r, q, i) {
      forall i | 0 <= i < n ensures SameCatchIn(r, q, i) {
        assert EqualAt(r, q, i + 1);
        BlacklistsSplit(r, q, i);
      }
    } else if forall i :: 0 <= i < n ==> SameCatchIn(r, q, i) {
      var i :| 0 <= i <= n && !EqualAt(r, q, i);
      SameCatchesKeepEqual(r, q, i);
      assert false;
    }
  }

  lemma QuotientBound(c: nat, e: nat, b: nat)
    requires e > 0 && c * e <= b
    ensures c <= b / e
  {
    var q := b / e;
    assert b == q * e + b % e;
    MulSuccessor(q, e);
    if c > q {
      MulMonotone(q + 1, c, e);
    }
  }
}
