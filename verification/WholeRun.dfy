// Theorems about finished runs over any network: deadlines missed, messages
// duplicated or lost, for all four adversaries.

module WholeRun {
  import opened Counting
  import opened Tally
  import opened NodeRun
  import opened Mailbox
  import opened World

  // The run of honest peer `j`, as the sequence of views it decides on.
  function RunOf(cfg: Config, net: Net, j: nat): Run
    requires cfg.Valid() && j < cfg.k
  {
    Run(cfg.truth, cfg.rho, seq(|cfg.truth|, t requires 0 <= t < |cfg.truth| => ViewOf(cfg, net, j, t)))
  }

  function ViewOf(cfg: Config, net: Net, j: nat, t: nat): seq<Message>
    requires cfg.Valid() && j < cfg.k && t < |cfg.truth|
  {
    match Rounds(cfg, net, t)
    case None => []
    case Some(w) => View(AtDecision(cfg, net, w, t)[j], t)
  }

  // --- what the voting phase leaves alone ---

  lemma ReceiveTimesKeepsSeal(b: Box, m: Message, times: nat)
    ensures ReceiveTimes(b, m, times).sealed == b.sealed
  {
  }

  lemma JobKeepsCore(cfg: Config, net: Net, w: seq<Peer>, i: nat, exposed: set<int>, s: nat, j: nat)
    requires |w| == cfg.k && s < cfg.k && i < |cfg.truth| && IsBit(cfg.truth[i]) && j < cfg.k
    ensures var p := Job(cfg, net, w, i, exposed, s).0[j]; p.core == w[j].core && p.box.sealed == w[j].box.sealed
  {
    hide Acknowledged;
    hide Reported;
    var m := VoteOf(cfg, i, s);
    ReceiveTimesKeepsSeal(w[j].box, m, net.copies(i, s, j));
  }

  lemma JobsAtStart(cfg: Config, net: Net, w: seq<Peer>, i: nat, exposed: set<int>)
    requires |w| == cfg.k && i < |cfg.truth| && IsBit(cfg.truth[i])
    ensures Jobs(cfg, net, w, i, exposed, 0) == Phase(w, 0, false)
  {
  }

  lemma JobsUnfold(cfg: Config, net: Net, w: seq<Peer>, i: nat, exposed: set<int>, s: nat)
    requires |w| == cfg.k && 0 < s <= cfg.k && i < |cfg.truth| && IsBit(cfg.truth[i])
    ensures var before, r := Jobs(cfg, net, w, i, exposed, s - 1), Jobs(cfg, net, w, i, exposed, s);
            && r.w == Job(cfg, net, before.w, i, exposed, s - 1).0
            && (Job(cfg, net, before.w, i, exposed, s - 1).1.None? ==>
                  r.missed == before.missed && r.failed == before.failed)
  {
  }

  lemma {:induction false} JobsKeepCores(cfg: Config, net: Net, w: seq<Peer>, i: nat, exposed: set<int>, s: nat, j: nat)
    requires |w| == cfg.k && s <= cfg.k && i < |cfg.truth| && IsBit(cfg.truth[i]) && j < cfg.k
    ensures var p := Jobs(cfg, net, w, i, exposed, s).w[j]; p.core == w[j].core && p.box.sealed == w[j].box.sealed
  {
    hide *;
    if s == 0 {
      JobsAtStart(cfg, net, w, i, exposed);
    } else {
      JobsUnfold(cfg, net, w, i, exposed, s);
      JobsKeepCores(cfg, net, w, i, exposed, s - 1, j);
      JobKeepsCore(cfg, net, Jobs(cfg, net, w, i, exposed, s - 1).w, i, exposed, s - 1, j);
    }
  }

  // An honest peer's bits, blacklist and verify count are those of its run; a
  // Byzantine peer keeps none.
  lemma {:induction false} CoreFollowsRun(cfg: Config, net: Net, i: nat, j: nat)
    requires cfg.Valid() && i <= |cfg.truth| && j < cfg.k && Rounds(cfg, net, i).Some?
    ensures Rounds(cfg, net, i).value[j].core == if j in cfg.byz then FRESH else RunOf(cfg, net, j).After(i)
  {
    hide Round;
    hide DecideRound;
    hide AtDecision;
    if i > 0 {
      CoreFollowsRun(cfg, net, i - 1, j);
      var w := Rounds(cfg, net, i - 1).value;
      CoreOfRound(cfg, net, w, i - 1, j);
      assert RunOf(cfg, net, j).views[i - 1] == View(AtDecision(cfg, net, w, i - 1)[j], i - 1);
      hide View;
    }
  }

  lemma CoreOfRound(cfg: Config, net: Net, w: seq<Peer>, i: nat, j: nat)
    requires cfg.Valid() && |w| == cfg.k && i < |cfg.truth| && j < cfg.k && Round(cfg, net, w, i).Some?
    ensures Round(cfg, net, w, i).value[j].core
         == if j in cfg.byz then w[j].core
            else DecideRound(w[j].core, i, View(AtDecision(cfg, net, w, i)[j], i), cfg.truth[i], cfg.rho)
  {
    JobsKeepCores(cfg, net, w, i, ExposedIn(cfg, w), cfg.k, j);
    RoundAt(cfg, net, w, i, j);
    hide Jobs;
    hide Decide;
    hide Round;
  }

  // What a completed round does to peer `j`.
  lemma RoundAt(cfg: Config, net: Net, w: seq<Peer>, i: nat, j: nat)
    requires cfg.Valid() && |w| == cfg.k && i < |cfg.truth| && j < cfg.k && Round(cfg, net, w, i).Some?
    ensures var p := AtDecision(cfg, net, w, i)[j];
            var d := DecideHonest(cfg, net, p, i, j);
            d.1.None? && Round(cfg, net, w, i).value[j] == Sweep(d.0, i)
  {
  }

  // --- honest votes are true ---

  predicate GoodMessage(cfg: Config, m: Message) {
    && 0 <= m.sender < cfg.k
    && (m.sender !in cfg.byz ==> 0 <= m.round < |cfg.truth| && m.value == [cfg.truth[m.round]])
  }

  ghost predicate GoodStore(cfg: Config, st: Store) {
    forall r, t, m :: m in Lookup(st, r, t) ==> m.round == r && GoodMessage(cfg, m)
  }

  lemma {:induction false} ReceiveTimesKeepsGood(cfg: Config, b: Box, m: Message, times: nat)
    requires GoodStore(cfg, b.store) && GoodMessage(cfg, m)
    ensures GoodStore(cfg, ReceiveTimes(b, m, times).store)
  {
    if times > 0 {
      ReceiveTimesKeepsGood(cfg, b, m, times - 1);
      var st := ReceiveTimes(b, m, times - 1).store;
      forall r, t ensures Lookup(Append(st, m), r, t) == Lookup(st, r, t) + if Keyed(m, r, t) then [m] else [] {
        AppendLookup(st, m, r, t);
      }
      hide Lookup;
      hide Append;
    }
  }

  lemma JobKeepsGood(cfg: Config, net: Net, w: seq<Peer>, i: nat, exposed: set<int>, s: nat, j: nat)
    requires |w| == cfg.k && s < cfg.k && i < |cfg.truth| && IsBit(cfg.truth[i]) && j < cfg.k
    requires GoodStore(cfg, w[j].box.store)
    ensures GoodStore(cfg, Job(cfg, net, w, i, exposed, s).0[j].box.store)
  {
    var m := VoteOf(cfg, i, s);
    ReceiveTimesKeepsGood(cfg, w[j].box, m, 1);
    assert ReceiveTimes(w[j].box, m, 1) == Receive(w[j].box, m) by {
      assert ReceiveTimes(w[j].box, m, 0) == w[j].box;
    }
    ReceiveTimesKeepsGood(cfg, w[j].box, m, net.copies(i, s, j));
  }

  lemma {:induction false} JobsKeepGood(cfg: Config, net: Net, w: seq<Peer>, i: nat, exposed: set<int>, s: nat, j: nat)
    requires |w| == cfg.k && s <= cfg.k && i < |cfg.truth| && IsBit(cfg.truth[i]) && j < cfg.k
    requires GoodStore(cfg, w[j].box.store)
    ensures GoodStore(cfg, Jobs(cfg, net, w, i, exposed, s).w[j].box.store)
  {
    hide *;
    if s == 0 {
      JobsAtStart(cfg, net, w, i, exposed);
    } else {
      JobsUnfold(cfg, net, w, i, exposed, s);
      JobsKeepGood(cfg, net, w, i, exposed, s - 1, j);
      JobKeepsGood(cfg, net, Jobs(cfg, net, w, i, exposed, s - 1).w, i, exposed, s - 1, j);
    }
  }

  lemma ForgetKeepsGood(cfg: Config, b: Box, i: int)
    requires GoodStore(cfg, b.store)
    ensures GoodStore(cfg, Forget(b, i).store)
  {
    forall r, t ensures Lookup(Forget(b, i).store, r, t) == if r == i then [] else Lookup(b.store, r, t) {
    }
  }

  lemma DecisionViewIsGood(cfg: Config, net: Net, w: seq<Peer>, i: nat, j: nat)
    requires cfg.Valid() && |w| == cfg.k && i < |cfg.truth| && j < cfg.k && GoodStore(cfg, w[j].box.store)
    ensures GoodStore(cfg, AtDecision(cfg, net, w, i)[j].box.store)
  {
    JobsKeepGood(cfg, net, w, i, ExposedIn(cfg, w), cfg.k, j);
    hide Jobs;
    hide GoodStore;
  }

  lemma {:induction false} StoresStayGood(cfg: Config, net: Net, i: nat, j: nat)
    requires cfg.Valid() && i <= |cfg.truth| && j < cfg.k && Rounds(cfg, net, i).Some?
    ensures GoodStore(cfg, Rounds(cfg, net, i).value[j].box.store)
  {
    hide Jobs;
    hide Decide;
    hide AtDecision;
    if i > 0 {
      hide GoodStore;
      var w := Rounds(cfg, net, i - 1).value;
      StoresStayGood(cfg, net, i - 1, j);
      DecisionViewIsGood(cfg, net, w, i - 1, j);
      ForgetKeepsGood(cfg, AtDecision(cfg, net, w, i - 1)[j].box, i - 1);
      RoundAt(cfg, net, w, i - 1, j);
      hide Round;
    }
  }

  lemma ViewOfIsGood(cfg: Config, net: Net, j: nat, t: nat)
    requires cfg.Valid() && j < cfg.k && t < |cfg.truth|
    ensures forall m :: m in ViewOf(cfg, net, j, t) ==> m.round == t && GoodMessage(cfg, m)
  {
    hide Rounds;
    hide AtDecision;
    if Rounds(cfg, net, t).Some? {
      StoresStayGood(cfg, net, t, j);
      DecisionViewIsGood(cfg, net, Rounds(cfg, net, t).value, t, j);
    }
  }

  lemma RunOfIsHonest(cfg: Config, net: Net, j: nat)
    requires cfg.Valid() && j < cfg.k
    ensures RunOf(cfg, net, j).Valid()
    ensures RunOf(cfg, net, j).Honest(cfg.Honest()) && RunOf(cfg, net, j).SendersIn(cfg.Honest() + cfg.byz)
  {
    hide ViewOf;
    forall t | 0 <= t < |cfg.truth|
      ensures forall m :: m in ViewOf(cfg, net, j, t) ==> m.round == t && GoodMessage(cfg, m)
    {
      ViewOfIsGood(cfg, net, j, t);
    }
  }

  // --- bounded memory ---

  lemma ReceiveTimesKeys(b: Box, m: Message, times: nat)
    ensures ReceiveTimes(b, m, times).store.Keys <= b.store.Keys + {m.round}
  {
  }

  lemma JobKeys(cfg: Config, net: Net, w: seq<Peer>, i: nat, exposed: set<int>, s: nat, j: nat)
    requires |w| == cfg.k && s < cfg.k && i < |cfg.truth| && IsBit(cfg.truth[i]) && j < cfg.k
    ensures Job(cfg, net, w, i, exposed, s).0[j].box.store.Keys <= w[j].box.store.Keys + {i}
  {
    hide Acknowledged;
    hide Reported;
    var m := VoteOf(cfg, i, s);
    ReceiveTimesKeys(w[j].box, m, net.copies(i, s, j));
    hide ReceiveTimes;
  }

  lemma {:induction false} JobsKeys(cfg: Config, net: Net, w: seq<Peer>, i: nat, exposed: set<int>, s: nat, j: nat)
    requires |w| == cfg.k && s <= cfg.k && i < |cfg.truth| && IsBit(cfg.truth[i]) && j < cfg.k
    ensures Jobs(cfg, net, w, i, exposed, s).w[j].box.store.Keys <= w[j].box.store.Keys + {i}
  {
    hide *;
    if s == 0 {
      JobsAtStart(cfg, net, w, i, exposed);
    } else {
      JobsUnfold(cfg, net, w, i, exposed, s);
      JobsKeys(cfg, net, w, i, exposed, s - 1, j);
      JobKeys(cfg, net, Jobs(cfg, net, w, i, exposed, s - 1).w, i, exposed, s - 1, j);
    }
  }

  lemma DecidingStore(cfg: Config, net: Net, w: seq<Peer>, i: nat, j: nat)
    requires cfg.Valid() && |w| == cfg.k && i < |cfg.truth| && j < cfg.k && w[j].box.store == map[]
    ensures AtDecision(cfg, net, w, i)[j].box.store.Keys <= {i}
  {
    JobsKeys(cfg, net, w, i, ExposedIn(cfg, w), cfg.k, j);
    hide Jobs;
  }

  lemma RoundEmptiesStore(cfg: Config, net: Net, w: seq<Peer>, i: nat, j: nat)
    requires cfg.Valid() && |w| == cfg.k && i < |cfg.truth| && j < cfg.k && w[j].box.store == map[]
    requires Round(cfg, net, w, i).Some?
    ensures Round(cfg, net, w, i).value[j].box.store == map[]
  {
    DecidingStore(cfg, net, w, i, j);
    RoundAt(cfg, net, w, i, j);
    hide Round;
    hide AtDecision;
    hide Decide;
    assert Round(cfg, net, w, i).value[j].box.store.Keys == {};
  }

  // With atomic stores no peer keeps any message between rounds, whatever was lost or
  // duplicated; while a bit is decided a peer stores messages of that round only.
  lemma {:induction false} StoresEmptyBetweenRounds(cfg: Config, net: Net, i: nat, j: nat)
    requires cfg.Valid() && i <= |cfg.truth| && j < cfg.k && Rounds(cfg, net, i).Some?
    ensures Rounds(cfg, net, i).value[j].box.store == map[]
    ensures i < |cfg.truth| ==> AtDecision(cfg, net, Rounds(cfg, net, i).value, i)[j].box.store.Keys <= {i}
  {
    hide Round;
    hide AtDecision;
    if i > 0 {
      StoresEmptyBetweenRounds(cfg, net, i - 1, j);
      RoundEmptiesStore(cfg, net, Rounds(cfg, net, i - 1).value, i - 1, j);
    }
    if i < |cfg.truth| {
      DecidingStore(cfg, net, Rounds(cfg, net, i).value, i, j);
    }
  }

  // --- networks that duplicate nothing ---

  ghost predicate AtMostOnce(net: Net) {
    forall i, s, j :: net.copies(i, s, j) <= 1
  }

  ghost predicate SendersBelow(b: Box, i: nat, s: nat) {
    OneVotePerSender(Lookup(b.store, i, 0)) && forall m :: m in Lookup(b.store, i, 0) ==> 0 <= m.sender < s
  }

  lemma ReceiveKeepsOneVote(b: Box, i: nat, s: nat, m: Message, times: nat)
    requires SendersBelow(b, i, s) && m.sender == s && m.round == i && m.topic == 0 && times <= 1
    ensures SendersBelow(ReceiveTimes(b, m, times), i, s + 1) && SendersBelow(Receive(b, m), i, s + 1)
    ensures SendersBelow(b, i, s + 1)
  {
    AppendLookup(b.store, m, i, 0);
    hide Lookup;
    hide Append;
    assert ReceiveTimes(b, m, 0) == b;
  }

  lemma NoSenders(b: Box, i: nat)
    requires b.store == map[]
    ensures SendersBelow(b, i, 0)
  {
  }

  lemma {:induction false} JobsOneVote(cfg: Config, net: Net, w: seq<Peer>, i: nat, exposed: set<int>, s: nat, j: nat)
    requires |w| == cfg.k && s <= cfg.k && i < |cfg.truth| && IsBit(cfg.truth[i]) && j < cfg.k
    requires AtMostOnce(net) && w[j].box.store == map[]
    ensures SendersBelow(Jobs(cfg, net, w, i, exposed, s).w[j].box, i, s)
  {
    hide *;
    if s == 0 {
      JobsAtStart(cfg, net, w, i, exposed);
      NoSenders(w[j].box, i);
    } else {
      JobsUnfold(cfg, net, w, i, exposed, s);
      JobsOneVote(cfg, net, w, i, exposed, s - 1, j);
      JobKeepsOneVote(cfg, net, Jobs(cfg, net, w, i, exposed, s - 1).w, i, exposed, s - 1, j);
    }
  }

  lemma JobKeepsOneVote(cfg: Config, net: Net, w: seq<Peer>, i: nat, exposed: set<int>, s: nat, j: nat)
    requires |w| == cfg.k && s < cfg.k && i < |cfg.truth| && IsBit(cfg.truth[i]) && j < cfg.k
    requires AtMostOnce(net) && SendersBelow(w[j].box, i, s)
    ensures SendersBelow(Job(cfg, net, w, i, exposed, s).0[j].box, i, s + 1)
  {
    hide Acknowledged;
    hide Reported;
    var m := VoteOf(cfg, i, s);
    ReceiveKeepsOneVote(w[j].box, i, s, m, net.copies(i, s, j));
    hide ReceiveTimes;
    hide Receive;
    hide SendersBelow;
  }

  lemma ViewOfOneVote(cfg: Config, net: Net, j: nat, t: nat)
    requires cfg.Valid() && AtMostOnce(net) && j < cfg.k && t < |cfg.truth|
    ensures OneVotePerSender(ViewOf(cfg, net, j, t))
  {
    hide Jobs;
    hide Round;
    if Rounds(cfg, net, t).Some? {
      var w := Rounds(cfg, net, t).value;
      StoresEmptyBetweenRounds(cfg, net, t, j);
      JobsOneVote(cfg, net, w, t, ExposedIn(cfg, w), cfg.k, j);
    }
  }

  // --- main results ---

  // A run that returns without an error leaves every honest peer with exactly the bits
  // 0 .. n - 1, wrong precisely where a round failed; blacklists hold only Byzantine peers.
  lemma FinishedRun(cfg: Config, net: Net, j: nat)
    requires cfg.Valid() && j < cfg.k && j !in cfg.byz && Rounds(cfg, net, |cfg.truth|).Some?
    ensures var core, r := Rounds(cfg, net, |cfg.truth|).value[j].core, RunOf(cfg, net, j);
            && r.Valid()
            && (forall b :: b in core.bits <==> 0 <= b < |cfg.truth|)
            && core.blacklist <= cfg.byz
            && var out := Reconstructed(core.bits, |cfg.truth|);
               out.Some? && (out.value == cfg.truth <==> forall i :: 0 <= i < |cfg.truth| ==> !r.FailsAt(i))
  {
    var r := RunOf(cfg, net, j);
    CoreFollowsRun(cfg, net, |cfg.truth|, j);
    RunOfIsHonest(cfg, net, j);
    r.BitsStored(|cfg.truth|);
    r.OutputWrongExactlyAtFailures();
    r.ListedAreByzantine(cfg.Honest(), cfg.byz, |cfg.truth|);
  }

  // Enough honest votes in every view make the output right, whatever the network and
  // the adversary did otherwise.
  lemma FinishedRunIsSafe(cfg: Config, net: Net, j: nat)
    requires cfg.Valid() && j < cfg.k && j !in cfg.byz && Rounds(cfg, net, |cfg.truth|).Some?
    requires RunOf(cfg, net, j).WellAttended(cfg.Honest())
    ensures Reconstructed(Rounds(cfg, net, |cfg.truth|).value[j].core.bits, |cfg.truth|) == Some(cfg.truth)
  {
    CoreFollowsRun(cfg, net, |cfg.truth|, j);
    RunOfIsHonest(cfg, net, j);
    RunOf(cfg, net, j).Safety(cfg.Honest());
  }

  // If no message arrives twice, an honest peer's verify queries are its conflicts and its
  // rounds without a counted vote, and each conflict has listed more than rho liars.
  lemma VerifyQueriesBounded(cfg: Config, net: Net, j: nat)
    requires cfg.Valid() && AtMostOnce(net) && j < cfg.k && j !in cfg.byz && Rounds(cfg, net, |cfg.truth|).Some?
    ensures var core, r := Rounds(cfg, net, |cfg.truth|).value[j].core, RunOf(cfg, net, j);
            && r.Valid() && r.OneVote()
            && core.verify == r.Conflicts(|cfg.truth|) + r.Silent(|cfg.truth|)
            && r.Conflicts(|cfg.truth|) * Exposure(cfg.rho) <= |core.blacklist| <= |cfg.byz|
            && r.Conflicts(|cfg.truth|) <= Min(|cfg.truth|, |cfg.byz| / Exposure(cfg.rho))
  {
    var r := RunOf(cfg, net, j);
    CoreFollowsRun(cfg, net, |cfg.truth|, j);
    RunOfIsHonest(cfg, net, j);
    RunOfOneVote(cfg, net, j);
    hide Rounds;
    hide ViewOf;
    r.VerifySplits(|cfg.truth|);
    r.ConflictBound(cfg.Honest(), cfg.byz);
  }

  lemma RunOfOneVote(cfg: Config, net: Net, j: nat)
    requires cfg.Valid() && AtMostOnce(net) && j < cfg.k
    ensures RunOf(cfg, net, j).OneVote()
  {
    hide ViewOf;
    forall t | 0 <= t < |cfg.truth| ensures OneVotePerSender(ViewOf(cfg, net, j, t)) {
      ViewOfOneVote(cfg, net, j, t);
    }
  }

  // --- conservation of queries and messages ---

  // The messages of `q` broadcasts to everyone else.
  function Fanout(k: nat, q: nat): nat {
    if k == 0 then 0 else (k - 1) * q
  }

  lemma FanoutSuccessor(k: nat, q: nat)
    ensures k > 0 ==> Fanout(k, q + 1) == Fanout(k, q) + (k - 1)
  {
  }

  predicate BooksBalance(cfg: Config, p: Peer, j: int) {
    if j in cfg.byz then p.sourceQueries == p.messagesSent == p.primary == p.core.verify == 0
    else p.sourceQueries == p.primary + p.core.verify && p.messagesSent == Fanout(cfg.k, p.primary)
  }

  lemma AllAcknowledge(net: Net, i: int, s: nat, j: nat)
    requires net.Clean()
    ensures Acknowledged(net, i, s, j) == if s < j then j - 1 else j
    ensures FirstFault(net, i, s, j).None?
  {
  }

  lemma JobKeepsBooks(cfg: Config, net: Net, w: seq<Peer>, i: nat, exposed: set<int>, s: nat, j: nat)
    requires cfg.Valid() && net.Clean() && |w| == cfg.k && s < cfg.k && i < |cfg.truth| && j < cfg.k
    requires BooksBalance(cfg, w[j], j)
    ensures BooksBalance(cfg, Job(cfg, net, w, i, exposed, s).0[j], j)
    ensures Job(cfg, net, w, i, exposed, s).1.None?
  {
    AllAcknowledge(net, i, s, cfg.k);
    FanoutSuccessor(cfg.k, w[j].primary);
  }

  predicate Balanced(cfg: Config, r: Phase, j: nat)
    requires j < |r.w|
  {
    r.missed == 0 && !r.failed && BooksBalance(cfg, r.w[j], j)
  }

  lemma JobsStep(cfg: Config, net: Net, w: seq<Peer>, i: nat, exposed: set<int>, s: nat, j: nat)
    requires cfg.Valid() && net.Clean() && |w| == cfg.k && s < cfg.k && i < |cfg.truth| && j < cfg.k
    requires Balanced(cfg, Jobs(cfg, net, w, i, exposed, s), j)
    ensures Balanced(cfg, Jobs(cfg, net, w, i, exposed, s + 1), j)
  {
    assert IsBit(cfg.truth[i]);
    JobsUnfold(cfg, net, w, i, exposed, s + 1);
    JobKeepsBooks(cfg, net, Jobs(cfg, net, w, i, exposed, s).w, i, exposed, s, j);
    hide BooksBalance;
    hide Jobs;
    hide Job;
  }

  lemma {:induction false} JobsBalance(cfg: Config, net: Net, w: seq<Peer>, i: nat, exposed: set<int>, s: nat, j: nat)
    requires cfg.Valid() && net.Clean() && |w| == cfg.k && s <= cfg.k && i < |cfg.truth| && j < cfg.k
    requires BooksBalance(cfg, w[j], j)
    ensures Balanced(cfg, Jobs(cfg, net, w, i, exposed, s), j)
  {
    assert IsBit(cfg.truth[i]);
    assert Balanced(cfg, Phase(w, 0, false), j);
    hide *;
    if s == 0 {
      JobsAtStart(cfg, net, w, i, exposed);
    } else {
      JobsBalance(cfg, net, w, i, exposed, s - 1, j);
      JobsStep(cfg, net, w, i, exposed, s - 1, j);
    }
  }

  lemma RoundKeepsBooks(cfg: Config, net: Net, w: seq<Peer>, i: nat, j: nat)
    requires cfg.Valid() && net.Clean() && |w| == cfg.k && i < |cfg.truth| && j < cfg.k
    requires BooksBalance(cfg, w[j], j)
    ensures Round(cfg, net, w, i).Some? && BooksBalance(cfg, Round(cfg, net, w, i).value[j], j)
  {
    JobsBalance(cfg, net, w, i, ExposedIn(cfg, w), cfg.k, j);
    hide Jobs;
    hide Decide;
    assert Round(cfg, net, w, i).Some?;
    RoundAt(cfg, net, w, i, j);
  }

  // When no request fails the run completes, every honest query is a committee or a verify
  // query, and every committee query is followed by k - 1 messages -- duplicates or not.
  lemma {:induction false} CleanRunBalances(cfg: Config, net: Net, i: nat, j: nat)
    requires cfg.Valid() && net.Clean() && i <= |cfg.truth| && j < cfg.k
    ensures Rounds(cfg, net, i).Some? && BooksBalance(cfg, Rounds(cfg, net, i).value[j], j)
  {
    hide Round;
    if i > 0 {
      CleanRunBalances(cfg, net, i - 1, j);
      RoundKeepsBooks(cfg, net, Rounds(cfg, net, i - 1).value, i - 1, j);
    }
  }
}
