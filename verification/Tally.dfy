// The vote tally of one bit-round: which received messages count, what the
// counts are, and what a peer concludes from them.

module Tally {
  import opened Counting

  newtype byte = x: int | 0 <= x < 256

  datatype Message = Message(sender: int, round: int, topic: int, value: seq<byte>)

  predicate IsBit(b: byte) {
    b == 0 || b == 1
  }

  function Flip(b: byte): byte
    requires IsBit(b)
  {
    1 - b
  }

  // A message takes part in the tally unless it is empty or its sender is blacklisted.
  // Its vote is for 0 if the first byte is 0 and for 1 otherwise.
  predicate VotesFor(m: Message, black: set<int>, b: byte) {
    m.value != [] && m.sender !in black && ((m.value[0] == 0) <==> (b == 0))
  }

  function Backing(black: set<int>, b: byte): Message -> bool {
    m => VotesFor(m, black, b)
  }

  function Votes(votes: seq<Message>, black: set<int>, b: byte): nat {
    CountIf(votes, Backing(black, b))
  }

  function Voters(votes: seq<Message>, black: set<int>, b: byte): set<int> {
    set m | m in votes && VotesFor(m, black, b) :: m.sender
  }

  datatype Verdict = Verdict(bit: byte, queried: bool, conflict: bool, losers: set<int>)

  // What a peer with blacklist `black` concludes about a bit whose true value is `truth`.
  function Decide(votes: seq<Message>, black: set<int>, rho: real, truth: byte): Verdict {
    var s0 := Votes(votes, black, 0);
    var s1 := Votes(votes, black, 1);
    var conflict := Min(s0, s1) as real > rho;
    if conflict then
      Verdict(truth, true, true, Voters(votes, black, if truth == 1 then 0 else 1))
    else if s0 + s1 == 0 then
      Verdict(truth, true, false, {})
    else
      Verdict(if s1 > s0 then 1 else 0, false, false, {})
  }

  // The exposure that trips the conflict test: one more than the largest integer up to rho.
  function Exposure(rho: real): int {
    rho.Floor + 1
  }

  lemma ExposureIsLeastAboveRho(rho: real, c: int)
    ensures c as real > rho <==> c >= Exposure(rho)
  {
  }

  predicate OneVotePerSender(votes: seq<Message>) {
    forall x, y :: 0 <= x < y < |votes| ==> votes[x].sender != votes[y].sender
  }

  // Every message of an honest peer carries exactly the true bit.
  predicate HonestTruthful(votes: seq<Message>, honest: set<int>, truth: byte) {
    forall m :: m in votes && m.sender in honest ==> m.value == [truth]
  }

  function FromHonest(honest: set<int>): Message -> bool {
    (m: Message) => m.sender in honest
  }

  function HonestVotes(votes: seq<Message>, honest: set<int>): nat {
    CountIf(votes, FromHonest(honest))
  }

  // The verdict is a function of the multiset of votes: arrival order is irrelevant.
  lemma DecideIgnoresOrder(v: seq<Message>, w: seq<Message>, black: set<int>, rho: real, truth: byte)
    requires multiset(v) == multiset(w)
    ensures Decide(v, black, rho, truth) == Decide(w, black, rho, truth)
  {
    CountIfPermutation(v, w, Backing(black, 0));
    CountIfPermutation(v, w, Backing(black, 1));
    forall m: Message ensures m in v <==> m in w {
      assert m in v <==> m in multiset(v);
      assert m in w <==> m in multiset(w);
    }
    assert forall b :: Voters(v, black, b) == Voters(w, black, b);
  }

  // --- which messages count, and as what ---

  lemma VotesConcat(a: seq<Message>, b: seq<Message>, black: set<int>, side: byte)
    ensures Votes(a + b, black, side) == Votes(a, black, side) + Votes(b, black, side)
    ensures Voters(a + b, black, side) == Voters(a, black, side) + Voters(b, black, side)
  {
    CountIfConcat(a, b, Backing(black, side));
  }

  lemma VotesOfOne(m: Message, black: set<int>, side: byte)
    ensures Votes([m], black, side) == if VotesFor(m, black, side) then 1 else 0
    ensures Voters([m], black, side) == if VotesFor(m, black, side) then {m.sender} else {}
  {
    CountIfSingle(m, Backing(black, side));
    assert forall x :: x in [m] <==> x == m;
  }

  // Swapping one message for others with the same votes leaves the verdict alone.
  lemma SameVotesSameVerdict(
      a: seq<Message>, v: seq<Message>, w: seq<Message>, b: seq<Message>, black: set<int>, rho: real, truth: byte)
    requires forall side :: Votes(v, black, side) == Votes(w, black, side)
    requires forall side :: Voters(v, black, side) == Voters(w, black, side)
    ensures Decide(a + v + b, black, rho, truth) == Decide(a + w + b, black, rho, truth)
  {
    forall side: byte
      ensures Votes(a + v + b, black, side) == Votes(a + w + b, black, side)
      ensures Voters(a + v + b, black, side) == Voters(a + w + b, black, side)
    {
      VotesConcat(a + v, b, black, side);
      VotesConcat(a, v, black, side);
      VotesConcat(a + w, b, black, side);
      VotesConcat(a, w, black, side);
    }
    hide Votes;
    hide Voters;
  }

  // An empty message, or one from a listed sender, changes nothing wherever it stands.
  lemma VoidVotesAreIgnored(a: seq<Message>, m: Message, b: seq<Message>, black: set<int>, rho: real, truth: byte)
    requires m.value == [] || m.sender in black
    ensures Decide(a + [m] + b, black, rho, truth) == Decide(a + b, black, rho, truth)
  {
    forall side: byte ensures Votes([m], black, side) == Votes([], black, side) == 0
                      ensures Voters([m], black, side) == Voters([], black, side) == {} {
      VotesOfOne(m, black, side);
    }
    SameVotesSameVerdict(a, [m], [], b, black, rho, truth);
    assert a + [] + b == a + b;
    hide Decide;
  }

  // Of any other message only the sender and the first byte matter, and of that byte only
  // whether it is 0.
  lemma OnlyTheFirstByteCounts(
      a: seq<Message>, m: Message, m': Message, b: seq<Message>, black: set<int>, rho: real, truth: byte)
    requires m.value != [] && m'.value != [] && m.sender == m'.sender && (m.value[0] == 0 <==> m'.value[0] == 0)
    ensures Decide(a + [m] + b, black, rho, truth) == Decide(a + [m'] + b, black, rho, truth)
  {
    forall side: byte ensures Votes([m], black, side) == Votes([m'], black, side)
                      ensures Voters([m], black, side) == Voters([m'], black, side) {
      VotesOfOne(m, black, side);
      VotesOfOne(m', black, side);
    }
    SameVotesSameVerdict(a, [m], [m'], b, black, rho, truth);
    hide Decide;
  }

  // A lone counted vote decides the bit; without one the source is asked.
  lemma LoneVoteDecides(m: Message, black: set<int>, rho: real, truth: byte)
    requires rho >= 0.0
    ensures Decide([m], black, rho, truth)
         == if m.value == [] || m.sender in black then Verdict(truth, true, false, {})
            else Verdict(if m.value[0] == 0 then 0 else 1, false, false, {})
  {
    VotesOfOne(m, black, 0);
    VotesOfOne(m, black, 1);
    hide Votes;
    hide Voters;
  }

  // The source is asked exactly in a clash or when no vote counts.
  lemma QueriedExactly(votes: seq<Message>, black: set<int>, rho: real, truth: byte)
    ensures Decide(votes, black, rho, truth).queried
            <==> Clashing(votes, black, rho) || (Votes(votes, black, 0) == 0 && Votes(votes, black, 1) == 0)
  {
  }

  // Exactly when a round ends with the wrong bit: too few correct votes to trip the
  // conflict test, and the wrong side ahead -- or tied, since ties go to 0.
  lemma WrongBitCondition(votes: seq<Message>, black: set<int>, rho: real, truth: byte)
    requires IsBit(truth)
    ensures var c, w := Votes(votes, black, truth), Votes(votes, black, Flip(truth));
            Decide(votes, black, rho, truth).bit != truth
            <==> c as real <= rho && (w > c || (w == c && c > 0 && truth == 1))
  {
  }

  // Honest votes of unlisted peers are all counted, on the true side.
  lemma HonestVotesCounted(votes: seq<Message>, black: set<int>, honest: set<int>, truth: byte)
    requires IsBit(truth) && HonestTruthful(votes, honest, truth) && black !! honest
    ensures HonestVotes(votes, honest) <= Votes(votes, black, truth)
  {
    if votes != [] {
      var init := votes[..|votes| - 1];
      assert forall m :: m in init ==> m in votes;
      HonestVotesCounted(init, black, honest, truth);
      assert votes[|votes| - 1] in votes;
    }
  }

  // With one vote per sender, counting messages is counting senders.
  lemma SendersCounted(votes: seq<Message>, p: Message -> bool)
    requires OneVotePerSender(votes)
    ensures CountIf(votes, p) == |set m | m in votes && p(m) :: m.sender|
  {
    if votes != [] {
      var init, last := votes[..|votes| - 1], votes[|votes| - 1];
      SendersCounted(init, p);
      assert forall m :: m in votes <==> m in init || m == last;
      assert forall m :: m in init ==> m.sender != last.sender;
      assert (set m | m in votes && p(m) :: m.sender)
          == (set m | m in init && p(m) :: m.sender) + if p(last) then {last.sender} else {};
    }
  }

  lemma VotersCounted(votes: seq<Message>, black: set<int>, b: byte)
    requires OneVotePerSender(votes)
    ensures Votes(votes, black, b) == |Voters(votes, black, b)|
  {
    SendersCounted(votes, Backing(black, b));
    assert Voters(votes, black, b) == set m | m in votes && Backing(black, b)(m) :: m.sender;
  }

  // Whoever loses a conflict voted against the source, and was not listed before.
  lemma LosersVotedWrong(votes: seq<Message>, black: set<int>, rho: real, truth: byte, id: int)
    requires IsBit(truth)
    ensures var v := Decide(votes, black, rho, truth);
            id in v.losers <==>
            v.conflict && exists m :: m in votes && m.sender == id && VotesFor(m, black, Flip(truth))
  {
  }

  // With one vote per sender a conflict exposes more than rho new liars.
  lemma ConflictExposes(votes: seq<Message>, black: set<int>, rho: real, truth: byte)
    requires IsBit(truth) && OneVotePerSender(votes)
    ensures var v := Decide(votes, black, rho, truth);
            v.conflict ==> |v.losers| >= Exposure(rho) && v.losers !! black
  {
    VotersCounted(votes, black, Flip(truth));
  }

  // Votes on both sides are taken to the source exactly if more than rho peers back each;
  // otherwise the majority stands, or 0 on a tie, and nobody is blacklisted.
  lemma DisagreementResolvedExactly(votes: seq<Message>, black: set<int>, rho: real, truth: byte)
    requires IsBit(truth)
    requires Votes(votes, black, 0) > 0 && Votes(votes, black, 1) > 0
    ensures var s0, s1, v := Votes(votes, black, 0), Votes(votes, black, 1), Decide(votes, black, rho, truth);
            && (v.queried <==> s0 as real > rho && s1 as real > rho)
            && (v.queried ==> v.bit == truth && v.losers == Voters(votes, black, Flip(truth)))
            && (!v.queried ==> v.losers == {} && (v.bit == 1 <==> s1 > s0) && IsBit(v.bit))
  {
  }

  // --- two peers that decide the same bit ---

  // Both sides have more than rho counted votes.
  predicate Clashing(votes: seq<Message>, black: set<int>, rho: real) {
    Votes(votes, black, 0) as real > rho && Votes(votes, black, 1) as real > rho
  }

  // Two views in which the same liars are caught: both clash, or neither does, and if they
  // clash the false votes come from the same unlisted senders.
  ghost predicate SameCatch(v: seq<Message>, w: seq<Message>, black: set<int>, rho: real, truth: byte)
    requires IsBit(truth)
  {
    && (Clashing(v, black, rho) <==> Clashing(w, black, rho))
    && (Clashing(v, black, rho) ==> Voters(v, black, Flip(truth)) == Voters(w, black, Flip(truth)))
  }

  lemma ConflictNamesSomeone(votes: seq<Message>, black: set<int>, rho: real, truth: byte)
    requires IsBit(truth) && rho >= 0.0
    ensures var v := Decide(votes, black, rho, truth);
            && (v.conflict <==> Clashing(votes, black, rho)) && (v.conflict <==> v.losers != {})
            && v.losers !! black
            && (v.conflict ==> v.losers == Voters(votes, black, Flip(truth)))
  {
    CountIfBounds(votes, Backing(black, Flip(truth)));
    if Clashing(votes, black, rho) {
      var x :| 0 <= x < |votes| && Backing(black, Flip(truth))(votes[x]);
      assert votes[x].sender in Voters(votes, black, Flip(truth));
    }
  }

  // Peers with equal blacklists leave a round with equal blacklists exactly if they catch
  // the same liars.
  lemma BlacklistsStayEqual(v: seq<Message>, w: seq<Message>, black: set<int>, rho: real, truth: byte)
    requires IsBit(truth) && rho >= 0.0
    ensures black + Decide(v, black, rho, truth).losers == black + Decide(w, black, rho, truth).losers
            <==> SameCatch(v, w, black, rho, truth)
  {
    ConflictNamesSomeone(v, black, rho, truth);
    ConflictNamesSomeone(w, black, rho, truth);
    hide Decide;
    hide Clashing;
    hide Voters;
    var a, b := Decide(v, black, rho, truth).losers, Decide(w, black, rho, truth).losers;
    assert (black + a) - black == a && (black + b) - black == b;
  }
}
