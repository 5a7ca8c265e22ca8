// The whole protocol as a function on values: all peers, all rounds, one job after
// another. Everything outside the program's control enters as data: the committee
// coins, the random adversary's coins, and what the network does to each request.
// The methods of module Scenario are proved against these functions.

module World {
  import opened Counting
  import opened Tally
  import opened NodeRun
  import opened Mailbox

  datatype Peer = Peer(core: Core, box: Box, sourceQueries: nat, messagesSent: nat, primary: nat)

  const NEWCOMER := Peer(FRESH, EMPTY, 0, 0, 0)

  // The peers 0 .. n - 1
  function UpTo(n: nat): (r: set<int>)
    ensures forall x :: x in r <==> 0 <= x < n
    ensures |r| == n
  {
    if n == 0 then {} else UpTo(n - 1) + {n - 1}
  }

  datatype Adversary = Random | Collude | Flood | Drip

  datatype Config = Config(
    k: nat,
    byz: set<int>,
    truth: seq<byte>,
    rho: real,
    adversary: Adversary,
    committee: (int, int) -> bool,  // round, peer
    coin: (int, int) -> byte)       // round, peer
  {
    ghost predicate Valid() {
      && (forall id :: id in byz ==> 0 <= id < k)
      && |byz| < k
      && rho >= 0.0
      && (forall i :: 0 <= i < |truth| ==> IsBit(truth[i]))
      && (forall i, id :: IsBit(coin(i, id)))
    }

    // Round numbers survive the conversion to 32 bits.
    ghost predicate Fits() {
      |truth| <= TWO_TO_THE_31
    }

    function Honest(): set<int> {
      UpTo(k) - byz
    }
  }

  // Why a request fails: the round's deadline passed, or anything else.
  datatype Fault = Deadline | Broken

  // What the network does to each request. A message may reach its target several
  // times (retries), and may reach it although the sender sees a fault. If several
  // requests of a broadcast fail, `first` names the target whose fault is reported.
  datatype Net = Net(
    ask: (int, int) -> Option<Fault>,        // committee query: round, peer
    verify: (int, int) -> Option<Fault>,     // conflict query: round, peer
    copies: (int, int, int) -> nat,          // round, sender, target
    lost: (int, int, int) -> Option<Fault>,  // round, sender, target
    first: (int, int) -> int)                // round, sender
  {
    // No request fails and every message arrives exactly once.
    ghost predicate Full() {
      Clean() && forall i, s, j :: copies(i, s, j) == 1
    }

    ghost predicate Clean() {
      && (forall i, j :: ask(i, j).None? && verify(i, j).None?)
      && (forall i, s, j :: lost(i, s, j).None?)
    }
  }

  // --- one job: a peer's part in the voting phase of round `i` ---

  function Ballot(sender: int, round: int, value: byte): Message {
    Message(sender, round, 0, [value])
  }

  function ByzantineValue(cfg: Config, i: nat, s: int): byte
    requires i < |cfg.truth| && IsBit(cfg.truth[i])
  {
    if cfg.adversary.Random? then cfg.coin(i, s) else Flip(cfg.truth[i])
  }

  function VoteOf(cfg: Config, i: nat, s: int): Message
    requires i < |cfg.truth| && IsBit(cfg.truth[i])
  {
    Ballot(s, i, if s in cfg.byz then ByzantineValue(cfg, i, s) else cfg.truth[i])
  }

  function ReceiveTimes(b: Box, m: Message, times: nat): Box {
    if times == 0 then b else Receive(ReceiveTimes(b, m, times - 1), m)
  }

  // How many of the targets below `j` acknowledged, and the fault of the lowest that failed.
  function Acknowledged(net: Net, i: int, s: int, j: nat): nat {
    if j == 0 then 0
    else Acknowledged(net, i, s, j - 1) + if j - 1 != s && net.lost(i, s, j - 1).None? then 1 else 0
  }

  function FirstFault(net: Net, i: int, s: int, j: nat): Option<Fault> {
    if j == 0 then None
    else if FirstFault(net, i, s, j - 1).Some? then FirstFault(net, i, s, j - 1)
    else if j - 1 != s then net.lost(i, s, j - 1) else None
  }

  // The fault a broadcast returns, given the target whose error arrives first.
  function ReportedFrom(cfg: Config, net: Net, i: int, s: int, first: int): Option<Fault> {
    if 0 <= first < cfg.k && first != s && net.lost(i, s, first).Some? then net.lost(i, s, first)
    else FirstFault(net, i, s, cfg.k)
  }

  function Reported(cfg: Config, net: Net, i: int, s: int): Option<Fault> {
    ReportedFrom(cfg, net, i, s, net.first(i, s))
  }

  function BroadcastTo(net: Net, p: Peer, j: int, s: int, m: Message): Peer {
    if j == s then p.(box := Receive(p.box, m))
    else p.(box := ReceiveTimes(p.box, m, net.copies(m.round, s, j)))
  }

  // Peer `s` sends `m` to everyone; only honest sends are counted.
  function Broadcast(cfg: Config, net: Net, w: seq<Peer>, s: nat, m: Message): (w': seq<Peer>)
    requires |w| == cfg.k && s < cfg.k
    ensures |w'| == cfg.k
  {
    var told := seq(cfg.k, j requires 0 <= j < cfg.k => BroadcastTo(net, w[j], j, s, m));
    told[s := told[s].(messagesSent := told[s].messagesSent +
      if s in cfg.byz then 0 else Acknowledged(net, m.round, s, cfg.k))]
  }

  function Job(cfg: Config, net: Net, w: seq<Peer>, i: nat, exposed: set<int>, s: nat): (r: (seq<Peer>, Option<Fault>))
    requires |w| == cfg.k && s < cfg.k && i < |cfg.truth| && IsBit(cfg.truth[i])
    ensures |r.0| == cfg.k
  {
    if s in cfg.byz then
      if cfg.adversary.Drip? && s !in exposed then (w, None)
      else (Broadcast(cfg, net, w, s, VoteOf(cfg, i, s)), Reported(cfg, net, i, s))
    else if !cfg.committee(i, s) then (w, None)
    else
      var asked := w[s].(sourceQueries := w[s].sourceQueries + 1);
      if net.ask(i, s).Some? then (w[s := asked], net.ask(i, s))
      else
        var w1 := w[s := asked.(primary := asked.primary + 1)];
        (Broadcast(cfg, net, w1, s, VoteOf(cfg, i, s)), Reported(cfg, net, i, s))
  }

  // The jobs of the first `s` peers: what they leave behind, how many missed the
  // deadline, and whether any failed otherwise.
  datatype Phase = Phase(w: seq<Peer>, missed: nat, failed: bool)

  function Jobs(cfg: Config, net: Net, w: seq<Peer>, i: nat, exposed: set<int>, s: nat): (r: Phase)
    requires |w| == cfg.k && s <= cfg.k && i < |cfg.truth| && IsBit(cfg.truth[i])
    ensures |r.w| == cfg.k
  {
    if s == 0 then Phase(w, 0, false)
    else
      var before := Jobs(cfg, net, w, i, exposed, s - 1);
      var (w', fault) := Job(cfg, net, before.w, i, exposed, s - 1);
      Phase(w', before.missed + (if fault == Some(Deadline) then 1 else 0), before.failed || fault == Some(Broken))
  }

  // --- the drip adversary's choice: the first Exposure(rho) live Byzantine peers ---

  function Exposed(cfg: Config, caught: set<int>, s: nat): set<int> {
    if s == 0 then {}
    else
      var before := Exposed(cfg, caught, s - 1);
      if s - 1 in cfg.byz && s - 1 !in caught && |before| < Exposure(cfg.rho) then before + {s - 1} else before
  }

  lemma ExposedBelow(cfg: Config, caught: set<int>, s: nat)
    ensures forall id :: id in Exposed(cfg, caught, s) ==> 0 <= id < s
  {
  }

  // The first honest peer stands in for what the adversary knows to be caught.
  function FirstHonest(cfg: Config, s: nat): nat
    requires s <= cfg.k
    ensures FirstHonest(cfg, s) <= cfg.k
    decreases cfg.k - s
  {
    if s == cfg.k || s !in cfg.byz then s else FirstHonest(cfg, s + 1)
  }

  lemma FirstHonestExists(cfg: Config)
    requires cfg.Valid()
    ensures FirstHonest(cfg, 0) < cfg.k && FirstHonest(cfg, 0) !in cfg.byz
  {
    FirstHonestSkipsByzantine(cfg, 0);
    if FirstHonest(cfg, 0) == cfg.k {
      SubsetSize(UpTo(cfg.k), cfg.byz);
    }
  }

  lemma FirstHonestSkipsByzantine(cfg: Config, s: nat)
    requires s <= cfg.k
    ensures s <= FirstHonest(cfg, s)
    ensures forall id :: s <= id < FirstHonest(cfg, s) ==> id in cfg.byz
    ensures FirstHonest(cfg, s) < cfg.k ==> FirstHonest(cfg, s) !in cfg.byz
    decreases cfg.k - s
  {
  }

  function ExposedGiven(cfg: Config, caught: set<int>): set<int> {
    if cfg.adversary.Drip? then Exposed(cfg, caught, cfg.k) else {}
  }

  function ExposedIn(cfg: Config, w: seq<Peer>): set<int>
    requires |w| == cfg.k
  {
    var rep := FirstHonest(cfg, 0);
    if rep < cfg.k then ExposedGiven(cfg, w[rep].core.blacklist) else {}
  }

  // --- sealing, deciding, forgetting ---

  function Seal(p: Peer, i: int): Peer {
    p.(box := SealTo(p.box, i))
  }

  function Sweep(p: Peer, i: int): Peer {
    p.(box := Forget(p.box, i))
  }

  function View(p: Peer, i: int): seq<Message> {
    Lookup(p.box.store, i, 0)
  }

  function DecideBit(p: Peer, i: int, truth: byte, rho: real, fault: Option<Fault>): (Peer, Option<Fault>) {
    var v := Decide(View(p, i), p.core.blacklist, rho, truth);
    var asked := p.(sourceQueries := p.sourceQueries + if v.queried then 1 else 0);
    if v.queried && fault.Some? then (asked, fault)
    else (asked.(core := DecideRound(p.core, i, View(p, i), truth, rho)), None)
  }

  function DecideHonest(cfg: Config, net: Net, p: Peer, i: nat, j: int): (Peer, Option<Fault>)
    requires i < |cfg.truth|
  {
    if j in cfg.byz then (p, None) else DecideBit(p, i, cfg.truth[i], cfg.rho, net.verify(i, j))
  }

  // Each peer after voting, at the moment it decides bit `i`.
  function AtDecision(cfg: Config, net: Net, w: seq<Peer>, i: nat): (w': seq<Peer>)
    requires |w| == cfg.k && i < |cfg.truth| && IsBit(cfg.truth[i])
    ensures |w'| == cfg.k
  {
    var voted := Jobs(cfg, net, w, i, ExposedIn(cfg, w), cfg.k).w;
    seq(cfg.k, j requires 0 <= j < cfg.k => Seal(voted[j], i))
  }

  // One bit-round; None if some job failed for a reason other than the deadline.
  function Round(cfg: Config, net: Net, w: seq<Peer>, i: nat): (r: Option<seq<Peer>>)
    requires |w| == cfg.k && i < |cfg.truth| && IsBit(cfg.truth[i])
    ensures r.Some? ==> |r.value| == cfg.k
  {
    if Jobs(cfg, net, w, i, ExposedIn(cfg, w), cfg.k).failed then None
    else
      var ready := AtDecision(cfg, net, w, i);
      if exists j :: 0 <= j < cfg.k && DecideHonest(cfg, net, ready[j], i, j).1.Some? then None
      else Some(seq(cfg.k, j requires 0 <= j < cfg.k => Sweep(DecideHonest(cfg, net, ready[j], i, j).0, i)))
  }

  function Start(cfg: Config): (w: seq<Peer>)
    ensures |w| == cfg.k
  {
    seq(cfg.k, _ => NEWCOMER)
  }

  function Rounds(cfg: Config, net: Net, i: nat): (r: Option<seq<Peer>>)
    requires i <= |cfg.truth| && forall t :: 0 <= t < |cfg.truth| ==> IsBit(cfg.truth[t])
    ensures r.Some? ==> |r.value| == cfg.k
  {
    if i == 0 then Some(Start(cfg))
    else
      match Rounds(cfg, net, i - 1)
      case None => None
      case Some(w) => Round(cfg, net, w, i - 1)
  }

  // A run that failed stays failed.
  lemma FailureIsFinal(cfg: Config, net: Net, i: nat, t: nat)
    requires i <= t <= |cfg.truth| && (forall x :: 0 <= x < |cfg.truth| ==> IsBit(cfg.truth[x]))
    requires Rounds(cfg, net, i).None?
    ensures Rounds(cfg, net, t).None?
  {
  }
}
