// Concurrent runs against sequential ones: the same outcome, for any network and all
// interleavings.

module ConcurrentRun {
  import opened Tally
  import opened NodeRun
  import opened World
  import opened Delivery
  import opened Lockstep
  import opened Interleaving
  import opened ConcurrentRound

  // --- the sequential counterpart ---

  // Networks that differ only in which of several failed requests reports first.
  ghost predicate SameButFirst(net: Net, net': Net) {
    net' == net.(first := net'.first)
  }

  lemma ReceivedSame(cfg: Config, net: Net, net': Net, i: nat, exposed: set<int>, j: nat, s: nat)
    requires SameButFirst(net, net') && i < |cfg.truth| && IsBit(cfg.truth[i])
    ensures Received(cfg, net', i, exposed, j, s) == Received(cfg, net, i, exposed, j, s)
  {
    hide VoteOf;
    hide Repeat;
  }

  lemma AcknowledgedSame(net: Net, net': Net, i: int, s: int, j: nat)
    requires SameButFirst(net, net')
    ensures Acknowledged(net', i, s, j) == Acknowledged(net, i, s, j)
    ensures FirstFault(net', i, s, j) == FirstFault(net, i, s, j)
  {
  }

  lemma PeerDuringSame(cfg: Config, net: Net, net': Net, p: Peer, i: nat, exposed: set<int>, s: nat, j: nat)
    requires SameButFirst(net, net') && i < |cfg.truth| && IsBit(cfg.truth[i])
    ensures PeerDuring(cfg, net', p, i, exposed, s, j) == PeerDuring(cfg, net, p, i, exposed, s, j)
  {
    ReceivedSame(cfg, net, net', i, exposed, j, s);
    AcknowledgedSame(net, net', i, j, cfg.k);
    hide Received;
    hide Acknowledged;
    hide Holding;
  }

  lemma JobFaultSame(cfg: Config, net: Net, net': Net, i: int, exposed: set<int>, s: int, first: int)
    requires SameButFirst(net, net')
    ensures JobFault(cfg, net', i, exposed, s, first) == JobFault(cfg, net, i, exposed, s, first)
  {
    AcknowledgedSame(net, net', i, s, cfg.k);
    hide FirstFault;
  }

  // The errors of the jobs arrived in the order that `net'` says.
  ghost predicate Matches(c: Setting, pcs: seq<Pc>, net': Net) {
    && SameButFirst(c.net, net')
    && forall s :: 0 <= s < |pcs| && pcs[s].Ended? ==> net'.first(c.i, s) == FirstOf(pcs[s].first)
  }

  lemma BrokenAlike(c: Setting, pcs: seq<Pc>, net': Net)
    requires JobsWell(c, pcs) && Matches(c, pcs, net')
    ensures SomeBroken(pcs) <==> SomeJobBreaks(c.cfg, net', c.i, c.exposed, c.cfg.k)
  {
    forall s | 0 <= s < c.cfg.k
      ensures pcs[s].Ended? && pcs[s].fault == JobFault(c.cfg, net', c.i, c.exposed, s, net'.first(c.i, s))
    {
      assert pcs[s].Ended? && PcOk(c, pcs[s], s);
      JobFaultSame(c.cfg, c.net, net', c.i, c.exposed, s, net'.first(c.i, s));
    }
    hide JobFault;
    hide PcOk;
  }

  lemma ReadySame(c: Setting, net': Net, j: nat)
    requires c.Valid() && SameButFirst(c.net, net') && j < c.cfg.k
    ensures AtDecision(c.cfg, net', c.start, c.i)[j] == Ready(c, j)
    ensures DecideHonest(c.cfg, net', Ready(c, j), c.i, j) == Decision(c, j)
  {
    ReadyPeer(c.cfg, net', c.start, c.i, j);
    PeerDuringSame(c.cfg, c.net, net', c.start[j], c.i, c.exposed, c.cfg.k, j);
    hide PeerDuring;
    hide AtDecision;
    hide DecideBit;
    hide Seal;
  }

  ghost predicate ReadyFor(c: Setting, net': Net, ready: seq<Peer>)
    requires c.Shaped() && |ready| == c.cfg.k
  {
    forall j: nat :: j < c.cfg.k ==> DecideHonest(c.cfg, net', ready[j], c.i, j) == Decision(c, j)
  }

  lemma ConcludedIs(c: Setting, net': Net, ready: seq<Peer>, w: seq<Peer>)
    requires c.Shaped() && |ready| == |w| == c.cfg.k && ReadyFor(c, net', ready)
    ensures SomeDecisionFails(c, {}) ==> Concluded(c.cfg, net', ready, c.i) == None
    ensures !SomeDecisionFails(c, {}) && (forall j :: 0 <= j < c.cfg.k ==> w[j] == Sweep(Decision(c, j).0, c.i))
            ==> Concluded(c.cfg, net', ready, c.i) == Some(w)
  {
    var swept := seq(c.cfg.k, j requires 0 <= j < c.cfg.k => Sweep(DecideHonest(c.cfg, net', ready[j], c.i, j).0, c.i));
    assert (forall j :: 0 <= j < c.cfg.k ==> w[j] == Sweep(Decision(c, j).0, c.i)) ==> swept == w;
    hide Sweep;
    hide Decision;
    hide DecideHonest;
  }

  // A round executed concurrently ends as the sequential round does, over the network that
  // reports each broadcast's errors in the order in which they happened to arrive.
  lemma OutcomeIsSequential(c: Setting, sys: System, net': Net)
    requires c.Valid() && Ok(c, sys) && Matches(c, sys.pcs, net')
    ensures sys.stage.Finished? ==> Round(c.cfg, net', c.start, c.i) == Some(sys.w)
    ensures sys.stage.Aborted? ==> Round(c.cfg, net', c.start, c.i) == None
  {
    if sys.stage.Finished? || sys.stage.Aborted? {
      var ready := AtDecision(c.cfg, net', c.start, c.i);
      BrokenAlike(c, sys.pcs, net');
      forall j: nat | j < c.cfg.k ensures DecideHonest(c.cfg, net', ready[j], c.i, j) == Decision(c, j) {
        ReadySame(c, net', j);
      }
      ConcludedIs(c, net', ready, sys.w);
      RoundEnds(c.cfg, net', c.start, c.i);
    }
    hide Round;
    hide AtDecision;
    hide Concluded;
    hide DecideHonest;
    hide Decision;
    hide Ready;
    hide SomeJobBreaks;
    hide SomeBroken;
    hide SomeDecisionFails;
    hide Matches;
    hide JobsWell;
    hide Sweep;
  }

  // --- main results ---

  datatype Result = Stuck | Failed | Done(w: seq<Peer>)

  // Round `i` from the peers `w`, executed along `schedule`.
  function EndOf(cfg: Config, net: Net, w: seq<Peer>, i: nat, schedule: seq<Action>): (sys: System)
    requires |w| == cfg.k && i < |cfg.truth| && IsBit(cfg.truth[i])
    ensures |sys.w| == |sys.pcs| == cfg.k
  {
    Execute(Setting(cfg, net, i, ExposedIn(cfg, w), w), Launch(w), schedule)
  }

  function ResultOf(sys: System): Result {
    match sys.stage
    case Finished => Done(sys.w)
    case Aborted => Failed
    case _ => Stuck
  }

  // Concurrent rounds, one schedule each; stuck if some schedule stops before its round ends.
  function ConcurrentRounds(cfg: Config, net: Net, schedules: seq<seq<Action>>, i: nat): (r: Result)
    requires i <= |schedules| && i <= |cfg.truth| && forall t :: 0 <= t < |cfg.truth| ==> IsBit(cfg.truth[t])
    ensures r.Done? ==> |r.w| == cfg.k
  {
    if i == 0 then Done(Start(cfg))
    else
      match ConcurrentRounds(cfg, net, schedules, i - 1)
      case Done(w) => ResultOf(EndOf(cfg, net, w, i - 1, schedules[i - 1]))
      case other => other
  }

  // The target whose error was the first to reach peer `s` in round `i`; -1 if none did.
  function FirstError(cfg: Config, net: Net, schedules: seq<seq<Action>>, i: int, s: int): int
    requires forall t :: 0 <= t < |cfg.truth| ==> IsBit(cfg.truth[t])
  {
    if 0 <= i < |schedules| && i < |cfg.truth| && 0 <= s < cfg.k then
      match ConcurrentRounds(cfg, net, schedules, i)
      case Done(w) =>
        var pc := EndOf(cfg, net, w, i, schedules[i]).pcs[s];
        if pc.Ended? then FirstOf(pc.first) else -1
      case _ => -1
    else -1
  }

  // The network with errors reported in the order in which they arrived.
  ghost function AsObserved(cfg: Config, net: Net, schedules: seq<seq<Action>>): Net
    requires cfg.Valid()
  {
    net.(first := (i, s) => FirstError(cfg, net, schedules, i, s))
  }

  lemma RoundIsSequential(cfg: Config, net: Net, schedules: seq<seq<Action>>, w: seq<Peer>, i: nat)
    requires cfg.Valid() && cfg.Fits() && i < |schedules| && i < |cfg.truth| && |w| == cfg.k && AllEmpty(w, i)
    requires ConcurrentRounds(cfg, net, schedules, i) == Done(w)
    ensures var r := ResultOf(EndOf(cfg, net, w, i, schedules[i]));
            match r
            case Stuck => true
            case Failed => Round(cfg, AsObserved(cfg, net, schedules), w, i) == None
            case Done(w') => Round(cfg, AsObserved(cfg, net, schedules), w, i) == Some(w')
  {
    var c := Setting(cfg, net, i, ExposedIn(cfg, w), w);
    LaunchOk(c);
    ExecuteKeepsOk(c, Launch(w), schedules[i]);
    var end := EndOf(cfg, net, w, i, schedules[i]);
    hide Execute;
    assert Matches(c, end.pcs, AsObserved(cfg, net, schedules));
    OutcomeIsSequential(c, end, AsObserved(cfg, net, schedules));
    hide Round;
    hide Ok;
    hide ConcurrentRounds;
  }

  // The concurrent and the sequential run of the first `i` rounds end alike.
  ghost predicate EndsLike(cfg: Config, r: Result, net: Net, i: nat)
    requires cfg.Valid() && i <= |cfg.truth|
  {
    match r
    case Stuck => true
    case Failed => Rounds(cfg, net, i) == None
    case Done(w) => Rounds(cfg, net, i) == Some(w)
  }

  lemma NoRoundsYet(cfg: Config, net: Net, schedules: seq<seq<Action>>)
    requires cfg.Valid()
    ensures SameButFirst(net, AsObserved(cfg, net, schedules))
    ensures EndsLike(cfg, ConcurrentRounds(cfg, net, schedules, 0), AsObserved(cfg, net, schedules), 0)
  {
  }

  lemma OneRoundMore(cfg: Config, net: Net, schedules: seq<seq<Action>>, i: nat)
    requires cfg.Valid() && cfg.Fits() && i < |schedules| && i < |cfg.truth|
    requires EndsLike(cfg, ConcurrentRounds(cfg, net, schedules, i), AsObserved(cfg, net, schedules), i)
    ensures EndsLike(cfg, ConcurrentRounds(cfg, net, schedules, i + 1), AsObserved(cfg, net, schedules), i + 1)
  {
    var r := ConcurrentRounds(cfg, net, schedules, i);
    if r.Done? {
      RoundsStartEmpty(cfg, AsObserved(cfg, net, schedules), i);
      RoundIsSequential(cfg, net, schedules, r.w, i);
    }
    hide Round;
    hide EndOf;
    hide AsObserved;
    hide AllEmpty;
  }

  // Every concurrent run is a sequential one: whatever the interleavings, stragglers and
  // faults, all rounds leave all peers exactly as the sequential execution does over the
  // same network -- the one in which a broadcast with several errors reports the one that
  // arrived first -- and fail exactly if it does.
  lemma {:induction false} ConcurrentRunIsSequential(cfg: Config, net: Net, schedules: seq<seq<Action>>, i: nat)
    requires cfg.Valid() && cfg.Fits() && i <= |schedules| && i <= |cfg.truth|
    ensures SameButFirst(net, AsObserved(cfg, net, schedules))
    ensures EndsLike(cfg, ConcurrentRounds(cfg, net, schedules, i), AsObserved(cfg, net, schedules), i)
  {
    hide *;
    if i == 0 {
      NoRoundsYet(cfg, net, schedules);
    } else {
      ConcurrentRunIsSequential(cfg, net, schedules, i - 1);
      OneRoundMore(cfg, net, schedules, i - 1);
    }
  }

  // --- when the order of errors does not matter ---

  // No broadcast meets two kinds of faults.
  ghost predicate OneKindOfFault(net: Net) {
    forall i, s, t, u :: net.lost(i, s, t).Some? && net.lost(i, s, u).Some? ==> net.lost(i, s, t) == net.lost(i, s, u)
  }

  lemma FirstFaultIs(net: Net, i: int, s: int, j: nat)
    ensures FirstFault(net, i, s, j).Some? ==>
              exists u :: 0 <= u < j && u != s && FirstFault(net, i, s, j) == net.lost(i, s, u)
    ensures FirstFault(net, i, s, j).None? ==> forall u :: 0 <= u < j && u != s ==> net.lost(i, s, u).None?
  {
    if j > 0 {
      FirstFaultIs(net, i, s, j - 1);
    }
  }

  lemma ReportedSame(cfg: Config, net: Net, i: int, s: int, first: int)
    requires OneKindOfFault(net)
    ensures ReportedFrom(cfg, net, i, s, first) == FirstFault(net, i, s, cfg.k)
  {
    FirstFaultIs(net, i, s, cfg.k);
    hide FirstFault;
  }

  lemma BreaksSame(cfg: Config, net: Net, net': Net, i: int, exposed: set<int>)
    requires OneKindOfFault(net) && SameButFirst(net, net')
    ensures SomeJobBreaks(cfg, net, i, exposed, cfg.k) <==> SomeJobBreaks(cfg, net', i, exposed, cfg.k)
  {
    forall x | 0 <= x < cfg.k
      ensures JobFault(cfg, net, i, exposed, x, net.first(i, x)) == JobFault(cfg, net', i, exposed, x, net'.first(i, x))
    {
      JobFaultSame(cfg, net, net', i, exposed, x, net'.first(i, x));
      ReportedSame(cfg, net, i, x, net.first(i, x));
      ReportedSame(cfg, net, i, x, net'.first(i, x));
    }
    hide JobFault;
  }

  lemma ConcludedSame(cfg: Config, net: Net, net': Net, ready: seq<Peer>, i: nat)
    requires SameButFirst(net, net') && |ready| == cfg.k && i < |cfg.truth|
    ensures Concluded(cfg, net', ready, i) == Concluded(cfg, net, ready, i)
  {
    hide DecideBit;
    hide Sweep;
    var a := seq(cfg.k, j requires 0 <= j < cfg.k => Sweep(DecideHonest(cfg, net, ready[j], i, j).0, i));
    var b := seq(cfg.k, j requires 0 <= j < cfg.k => Sweep(DecideHonest(cfg, net', ready[j], i, j).0, i));
    assert a == b;
  }

  lemma RoundSame(c: Setting, net': Net)
    requires c.Valid() && OneKindOfFault(c.net) && SameButFirst(c.net, net')
    ensures Round(c.cfg, net', c.start, c.i) == Round(c.cfg, c.net, c.start, c.i)
  {
    BreaksSame(c.cfg, c.net, net', c.i, c.exposed);
    forall j: nat | j < c.cfg.k
      ensures AtDecision(c.cfg, net', c.start, c.i)[j] == AtDecision(c.cfg, c.net, c.start, c.i)[j]
    {
      ReadySame(c, net', j);
      ReadySame(c, c.net, j);
    }
    hide AtDecision;
    assert AtDecision(c.cfg, net', c.start, c.i) == AtDecision(c.cfg, c.net, c.start, c.i);
    hide *;
    ConcludedSame(c.cfg, c.net, net', AtDecision(c.cfg, c.net, c.start, c.i), c.i);
    RoundEnds(c.cfg, net', c.start, c.i);
    RoundEnds(c.cfg, c.net, c.start, c.i);
  }

  lemma {:induction false} RoundsSame(cfg: Config, net: Net, net': Net, i: nat)
    requires cfg.Valid() && cfg.Fits() && OneKindOfFault(net) && SameButFirst(net, net') && i <= |cfg.truth|
    ensures Rounds(cfg, net', i) == Rounds(cfg, net, i)
  {
    hide Round;
    if i > 0 {
      RoundsSame(cfg, net, net', i - 1);
      if Rounds(cfg, net, i - 1).Some? {
        var w := Rounds(cfg, net, i - 1).value;
        RoundsStartEmpty(cfg, net, i - 1);
        RoundSame(Setting(cfg, net, i - 1, ExposedIn(cfg, w), w), net');
      }
    }
  }

  // Unless some broadcast meets two kinds of faults, every interleaving of the whole run
  // that is carried to its end has the same outcome, that of the sequential run.
  lemma AllInterleavingsAgree(cfg: Config, net: Net, schedules: seq<seq<Action>>, i: nat)
    requires cfg.Valid() && cfg.Fits() && OneKindOfFault(net) && i <= |schedules| && i <= |cfg.truth|
    ensures EndsLike(cfg, ConcurrentRounds(cfg, net, schedules, i), net, i)
  {
    ConcurrentRunIsSequential(cfg, net, schedules, i);
    RoundsSame(cfg, net, AsObserved(cfg, net, schedules), i);
    hide ConcurrentRounds;
    hide Rounds;
    hide AsObserved;
  }

  // Under full delivery every interleaving keeps all honest peers in lockstep: their state
  // after each round is the one and only PeerAfter.
  lemma InterleavingsKeepLockstep(cfg: Config, net: Net, schedules: seq<seq<Action>>, i: nat, j: nat)
    requires cfg.Valid() && cfg.Fits() && net.Full() && i <= |schedules| && i <= |cfg.truth| && j < cfg.k
    ensures var r := ConcurrentRounds(cfg, net, schedules, i);
            !r.Failed? && (r.Done? ==> r.w[j] == PeerAfter(cfg, i, j))
  {
    assert OneKindOfFault(net);
    AllInterleavingsAgree(cfg, net, schedules, i);
    LockstepRun(cfg, net, i);
    hide ConcurrentRounds;
    hide Rounds;
    hide PeerAfter;
  }
}
