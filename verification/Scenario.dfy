// The scenario runner on live objects: the voting jobs, the decision jobs, the round
// loop and the final accounting, with the jobs of a phase executed one after another.
// Module ConcurrentRun shows that executing them concurrently changes nothing.

module Scenario {
  import opened Counting
  import opened Tally
  import opened NodeRun
  import opened Mailbox
  import opened World
  import opened AgentNode

  ghost predicate Peers(cfg: Config, agents: seq<Agent>) {
    && |agents| == cfg.k
    && (forall j :: 0 <= j < cfg.k ==> agents[j].id == j && (agents[j].isByzantine <==> j in cfg.byz))
    && (forall x, y :: 0 <= x < y < cfg.k ==> agents[x] != agents[y])
  }

  function States(agents: seq<Agent>): (w: seq<Peer>)
    reads agents
    ensures |w| == |agents|
    ensures forall j :: 0 <= j < |agents| ==> w[j] == agents[j].State()
  {
    if agents == [] then []
    else States(agents[..|agents| - 1]) + [agents[|agents| - 1].State()]
  }

  // The broadcast of `m` by peer `s` when the targets below `j` have been dealt with.
  ghost predicate Told(cfg: Config, net: Net, w: seq<Peer>, now: seq<Peer>, s: nat, m: Message, j: nat)
    requires |w| == |now| == cfg.k && s < cfg.k
  {
    && (forall x :: 0 <= x < cfg.k && x != s ==> now[x] == if x < j then BroadcastTo(net, w[x], x, s, m) else w[x])
    && now[s] == w[s].(
         box := Receive(w[s].box, m),
         messagesSent := w[s].messagesSent + if s in cfg.byz then 0 else Acknowledged(net, m.round, s, j))
  }

  lemma ToldAtStart(cfg: Config, net: Net, w: seq<Peer>, s: nat, m: Message)
    requires |w| == cfg.k && s < cfg.k
    ensures Told(cfg, net, w, w[s := w[s].(box := Receive(w[s].box, m))], s, m, 0)
  {
    hide Receive;
  }

  // What one request does: its target gets its copies, and an honest sender counts it if
  // it succeeds.
  function AfterSend(cfg: Config, net: Net, w: seq<Peer>, s: nat, m: Message, j: nat): (w': seq<Peer>)
    requires |w| == cfg.k && s < cfg.k && j < cfg.k
    ensures |w'| == cfg.k
  {
    var sent := if s in cfg.byz || net.lost(m.round, s, j).Some? then 0 else 1;
    w[j := BroadcastTo(net, w[j], j, s, m)][s := w[s].(messagesSent := w[s].messagesSent + sent)]
  }

  lemma ToldOneMore(cfg: Config, net: Net, w: seq<Peer>, now: seq<Peer>, s: nat, m: Message, j: nat)
    requires |w| == |now| == cfg.k && s < cfg.k && j < cfg.k && Told(cfg, net, w, now, s, m, j)
    ensures Told(cfg, net, w, if j == s then now else AfterSend(cfg, net, now, s, m, j), s, m, j + 1)
  {
    hide Receive;
    hide BroadcastTo;
  }

  lemma FirstFaultOneMore(net: Net, i: int, s: int, j: nat)
    ensures FirstFault(net, i, s, 0).None?
    ensures FirstFault(net, i, s, j + 1)
         == if FirstFault(net, i, s, j).Some? then FirstFault(net, i, s, j)
            else if j != s then net.lost(i, s, j) else None
  {
  }

  lemma ToldAll(cfg: Config, net: Net, w: seq<Peer>, now: seq<Peer>, s: nat, m: Message)
    requires |w| == |now| == cfg.k && s < cfg.k && Told(cfg, net, w, now, s, m, cfg.k)
    ensures now == Broadcast(cfg, net, w, s, m)
  {
    hide Receive;
    hide ReceiveTimes;
    hide Acknowledged;
  }

  // Stores `m` locally and delivers it to every other peer, as often as the network
  // does; returns the fault that the network reports first.
  method BroadcastMessage(cfg: Config, net: Net, agents: seq<Agent>, s: nat, m: Message) returns (err: Option<Fault>)
    requires Peers(cfg, agents) && s < cfg.k
    modifies agents
    ensures States(agents) == Broadcast(cfg, net, old(States(agents)), s, m)
    ensures err == Reported(cfg, net, m.round, s)
  {
    hide States;
    hide Broadcast;
    hide Receive;
    hide ReceiveTimes;
    ghost var w := States(agents);
    agents[s].StoreMessage(m);
    assert States(agents) == w[s := w[s].(box := Receive(w[s].box, m))];
    ToldAtStart(cfg, net, w, s, m);
    hide *;
    err := SendToAll(cfg, net, agents, s, m, w);
    ToldAll(cfg, net, w, States(agents), s, m);
    ReportedIs(cfg, net, m.round, s);
    var first := net.first(m.round, s);
    if 0 <= first < cfg.k && first != s && net.lost(m.round, s, first).Some? {
      err := net.lost(m.round, s, first);
    }
  }

  // The requests to all other peers; returns the fault of the first of them that fails.
  method SendToAll(cfg: Config, net: Net, agents: seq<Agent>, s: nat, m: Message, ghost w: seq<Peer>)
    returns (err: Option<Fault>)
    requires Peers(cfg, agents) && s < cfg.k && |w| == cfg.k && Told(cfg, net, w, States(agents), s, m, 0)
    modifies agents
    ensures Told(cfg, net, w, States(agents), s, m, cfg.k) && err == FirstFault(net, m.round, s, cfg.k)
  {
    hide States;
    hide Told;
    hide FirstFault;
    hide AfterSend;
    FirstFaultOneMore(net, m.round, s, 0);
    err := None;
    for j := 0 to cfg.k
      invariant err == FirstFault(net, m.round, s, j)
      invariant Told(cfg, net, w, States(agents), s, m, j)
    {
      ToldOneMore(cfg, net, w, States(agents), s, m, j);
      FirstFaultOneMore(net, m.round, s, j);
      if agents[j].id != agents[s].id {
        var fault := SendTo(cfg, net, agents, s, m, j);
        err := if err.None? then fault else err;
      }
    }
  }

  lemma ReportedIs(cfg: Config, net: Net, i: int, s: int)
    ensures var first := net.first(i, s);
            Reported(cfg, net, i, s)
            == if 0 <= first < cfg.k && first != s && net.lost(i, s, first).Some? then net.lost(i, s, first)
               else FirstFault(net, i, s, cfg.k)
  {
  }

  // One request of a broadcast; a send that succeeds is counted if the sender is honest.
  method SendTo(cfg: Config, net: Net, agents: seq<Agent>, s: nat, m: Message, j: nat) returns (fault: Option<Fault>)
    requires Peers(cfg, agents) && s < cfg.k && j < cfg.k && j != s
    modifies agents
    ensures fault == net.lost(m.round, s, j)
    ensures States(agents) == AfterSend(cfg, net, old(States(agents)), s, m, j)
  {
    hide States;
    hide ReceiveTimes;
    Deliver(agents[j], m, net.copies(m.round, s, j));
    fault := net.lost(m.round, s, j);
    if fault.None? && !agents[s].isByzantine {
      agents[s].messagesSent := agents[s].messagesSent + 1;
    }
  }

  method Deliver(a: Agent, m: Message, times: nat)
    modifies a
    ensures a.State() == old(a.State()).(box := ReceiveTimes(old(a.State()).box, m, times))
  {
    for c := 0 to times
      invariant a.State() == old(a.State()).(box := ReceiveTimes(old(a.State()).box, m, c))
    {
      a.StoreMessage(m);
    }
  }

  method ByzantineVote(cfg: Config, net: Net, agents: seq<Agent>, s: nat, bit: nat, trueBit: byte)
      returns (err: Option<Fault>)
    requires Peers(cfg, agents) && s < cfg.k && bit < |cfg.truth| && IsBit(trueBit) && trueBit == cfg.truth[bit]
    modifies agents
    ensures States(agents) == Broadcast(cfg, net, old(States(agents)), s, Ballot(s, bit, ByzantineValue(cfg, bit, s)))
    ensures err == Reported(cfg, net, bit, s)
  {
    var value: byte;
    match cfg.adversary {
      case Random => value := cfg.coin(bit, s);
      case _ => value := Flip(trueBit);
    }
    err := BroadcastMessage(cfg, net, agents, s, Ballot(s, bit, value));
  }

  method RunJob(cfg: Config, net: Net, agents: seq<Agent>, src: Source, bit: nat, exposed: set<int>, s: nat)
    returns (err: Option<Fault>)
    requires Peers(cfg, agents) && s < cfg.k && bit < |cfg.truth| && IsBit(cfg.truth[bit])
    requires src.Valid() && src.bits[..] == cfg.truth
    modifies agents, src`queryCount
    ensures (States(agents), err) == Job(cfg, net, old(States(agents)), bit, exposed, s)
  {
    hide States;
    hide Broadcast;
    hide Reported;
    ghost var w := States(agents);
    var a := agents[s];
    if a.isByzantine {
      if cfg.adversary == Drip && a.id !in exposed {
        return None;
      }
      err := ByzantineVote(cfg, net, agents, s, bit, cfg.truth[bit]);
      return;
    }
    if !cfg.committee(bit, a.id) {
      return None;
    }
    var value;
    value, err := a.QueryBit(src, bit, net.ask(bit, s));
    if err.Some? {
      assert States(agents) == w[s := w[s].(sourceQueries := w[s].sourceQueries + 1)];
      return;
    }
    a.RecordPrimaryQuery();
    assert States(agents) == w[s := w[s].(sourceQueries := w[s].sourceQueries + 1, primary := w[s].primary + 1)];
    err := BroadcastMessage(cfg, net, agents, s, Ballot(a.id, bit, value));
  }

  // The voting phase: every peer's job, faults counted or reported.
  method RunRoundJobs(cfg: Config, net: Net, agents: seq<Agent>, src: Source, bit: nat, exposed: set<int>)
    returns (missed: nat, failed: bool)
    requires Peers(cfg, agents) && bit < |cfg.truth| && IsBit(cfg.truth[bit])
    requires src.Valid() && src.bits[..] == cfg.truth
    modifies agents, src`queryCount
    ensures Phase(States(agents), missed, failed) == Jobs(cfg, net, old(States(agents)), bit, exposed, cfg.k)
  {
    hide States;
    hide Job;
    ghost var w := States(agents);
    missed, failed := 0, false;
    for s := 0 to cfg.k
      invariant src.Valid() && src.bits[..] == cfg.truth
      invariant Phase(States(agents), missed, failed) == Jobs(cfg, net, w, bit, exposed, s)
    {
      ghost var before := States(agents);
      var err := RunJob(cfg, net, agents, src, bit, exposed, s);
      if err == Some(Deadline) {
        missed := missed + 1;
      } else if err.Some? {
        failed := true;
      }
      assert err == Job(cfg, net, before, bit, exposed, s).1;
      assert err.Some? ==> err.value.Deadline? || err.value.Broken?;
      assert Jobs(cfg, net, w, bit, exposed, s + 1).w == States(agents);
    }
  }

  // The drip adversary's choice, from what the representative honest peer has listed.
  method ChooseExposed(cfg: Config, agents: seq<Agent>, rep: Agent) returns (exposed: set<int>)
    requires Peers(cfg, agents) && cfg.rho >= 0.0
    ensures exposed == Exposed(cfg, rep.State().core.blacklist, cfg.k)
  {
    var exposePerRound := cfg.rho.Floor + 1;
    exposed := {};
    var live := 0;
    assert Exposed(cfg, rep.State().core.blacklist, 0) == {} && exposePerRound == Exposure(cfg.rho) > 0;
    hide Exposed;
    hide Exposure;
    for s := 0 to cfg.k
      invariant exposed == Exposed(cfg, rep.State().core.blacklist, s)
      invariant live == |exposed| < exposePerRound
    {
      ExposedOneMore(cfg, rep.State().core.blacklist, s);
      if agents[s].isByzantine && agents[s].id !in rep.blacklist {
        exposed := exposed + {agents[s].id};
        live := live + 1;
        if live >= exposePerRound {
          ExposedFull(cfg, rep.State().core.blacklist, s + 1, cfg.k);
          return;
        }
      }
    }
  }

  lemma ExposedOneMore(cfg: Config, caught: set<int>, s: nat)
    ensures var e := Exposed(cfg, caught, s);
            && |e + {s}| == |e| + 1
            && Exposed(cfg, caught, s + 1)
               == if s in cfg.byz && s !in caught && |e| < Exposure(cfg.rho) then e + {s} else e
  {
    ExposedBelow(cfg, caught, s);
  }

  lemma ExposedFull(cfg: Config, caught: set<int>, s: nat, t: nat)
    requires s <= t && |Exposed(cfg, caught, s)| >= Exposure(cfg.rho)
    ensures Exposed(cfg, caught, t) == Exposed(cfg, caught, s)
  {
    if s < t {
      ExposedFull(cfg, caught, s, t - 1);
    }
  }

  method TallyVotes(a: Agent, votes: seq<Message>) returns (s0: nat, s1: nat, voters0: seq<int>, voters1: seq<int>)
    ensures s0 == Votes(votes, a.blacklist, 0) && s1 == Votes(votes, a.blacklist, 1)
    ensures AsSet(voters0) == Voters(votes, a.blacklist, 0) && AsSet(voters1) == Voters(votes, a.blacklist, 1)
  {
    s0, s1 := 0, 0;
    voters0, voters1 := [], [];
    for x := 0 to |votes|
      invariant s0 == Votes(votes[..x], a.blacklist, 0) && s1 == Votes(votes[..x], a.blacklist, 1)
      invariant AsSet(voters0) == Voters(votes[..x], a.blacklist, 0)
      invariant AsSet(voters1) == Voters(votes[..x], a.blacklist, 1)
    {
      var v := votes[x];
      TallyOneMore(votes, x, a.blacklist, 0);
      TallyOneMore(votes, x, a.blacklist, 1);
      hide Votes;
      hide Voters;
      if v.value == [] || v.sender in a.blacklist {
        continue;
      }
      if v.value[0] == 0 {
        s0 := s0 + 1;
        voters0 := voters0 + [v.sender];
      } else {
        s1 := s1 + 1;
        voters1 := voters1 + [v.sender];
      }
    }
    assert votes[..|votes|] == votes;
  }

  method BlacklistAll(a: Agent, ids: seq<int>)
    modifies a`blacklist
    ensures a.blacklist == old(a.blacklist) + AsSet(ids)
  {
    for x := 0 to |ids|
      invariant a.blacklist == old(a.blacklist) + AsSet(ids[..x])
    {
      a.Blacklist(ids[x]);
      assert ids[..x + 1] == ids[..x] + [ids[x]];
    }
    assert ids[..|ids|] == ids;
  }

  // Tallies the votes for one bit and resolves a conflict at the source.
  method DecideOneBit(a: Agent, src: Source, bit: nat, rho: real, fault: Option<Fault>) returns (err: Option<Fault>)
    requires src.Valid() && bit < src.totalBits
    modifies a, src`queryCount
    ensures (a.State(), err) == DecideBit(old(a.State()), bit, src.bits[bit], rho, fault)
  {
    var votes := a.Messages(bit, 0);
    var s0, s1, voters0, voters1 := TallyVotes(a, votes);
    hide Votes;
    hide Voters;
    assert a.blacklist + {} == a.blacklist;
    var conflict := Min(s0, s1) as real > rho;
    if conflict || s0 + s1 == 0 {
      var value;
      value, err := a.QueryBit(src, bit, fault);
      if err.Some? {
        return;
      }
      a.RecordVerifyQuery();
      a.StoreBit(bit, value);
      if conflict {
        var losers := voters1;
        if value == 1 {
          losers := voters0;
        }
        BlacklistAll(a, losers);
      }
      return None;
    }
    var value: byte := 0;
    if s1 > s0 {
      value := 1;
    }
    a.StoreBit(bit, value);
    return None;
  }

  function AsSet(ids: seq<int>): set<int> {
    set id | id in ids
  }

  lemma TallyOneMore(votes: seq<Message>, x: nat, black: set<int>, b: byte)
    requires x < |votes|
    ensures var more := VotesFor(votes[x], black, b);
            && Votes(votes[..x + 1], black, b) == Votes(votes[..x], black, b) + (if more then 1 else 0)
            && Voters(votes[..x + 1], black, b) == Voters(votes[..x], black, b) + if more then {votes[x].sender} else {}
  {
    assert votes[..x + 1] == votes[..x] + [votes[x]];
    assert votes[..x + 1][..x] == votes[..x];
  }

  // The honest peers, in order, with their positions.
  method HonestAgents(cfg: Config, agents: seq<Agent>) returns (honest: seq<Agent>, ghost at: seq<nat>)
    requires Peers(cfg, agents)
    ensures forall a :: a in honest <==> a in agents && !a.isByzantine
    ensures |honest| == |at| && forall x :: 0 <= x < |honest| ==>
              at[x] < cfg.k && honest[x] == agents[at[x]] && at[x] !in cfg.byz
    ensures forall j :: 0 <= j < cfg.k && j !in cfg.byz ==> j in at
    ensures forall x, y :: 0 <= x < y < |at| ==> at[x] < at[y]
  {
    honest, at := [], [];
    for s := 0 to cfg.k
      invariant |at| == |honest|
      invariant forall x :: 0 <= x < |at| ==> at[x] < s && honest[x] == agents[at[x]] && at[x] !in cfg.byz
      invariant forall j :: 0 <= j < s && j !in cfg.byz ==> j in at
      invariant forall x, y :: 0 <= x < y < |at| ==> at[x] < at[y]
    {
      if !agents[s].isByzantine {
        honest, at := honest + [agents[s]], at + [s];
      }
    }
  }

  ghost predicate SomeFault(cfg: Config, net: Net, w: seq<Peer>, bit: nat, js: seq<nat>)
    requires |w| == cfg.k && bit < |cfg.truth| && forall j :: j in js ==> j < cfg.k
  {
    exists j :: j in js && DecideHonest(cfg, net, w[j], bit, j).1.Some?
  }

  lemma SomeFaultGrows(cfg: Config, net: Net, w: seq<Peer>, bit: nat, js: seq<nat>, j: nat)
    requires |w| == cfg.k && bit < |cfg.truth| && j < cfg.k && forall x :: x in js ==> x < cfg.k
    ensures SomeFault(cfg, net, w, bit, js + [j])
            <==> SomeFault(cfg, net, w, bit, js) || DecideHonest(cfg, net, w[j], bit, j).1.Some?
  {
    hide DecideHonest;
  }

  // The peers `js` have decided bit `bit`, starting from `w`; the others are as in `w`.
  ghost predicate DecidedBy(cfg: Config, net: Net, w: seq<Peer>, now: seq<Peer>, bit: nat, js: seq<nat>)
    requires |w| == |now| == cfg.k && bit < |cfg.truth|
  {
    forall j :: 0 <= j < cfg.k ==> now[j] == if j in js then DecideHonest(cfg, net, w[j], bit, j).0 else w[j]
  }

  lemma DecidedByOneMore(cfg: Config, net: Net, w: seq<Peer>, now: seq<Peer>, bit: nat, js: seq<nat>, j: nat)
    requires |w| == |now| == cfg.k && bit < |cfg.truth| && j < cfg.k && DecidedBy(cfg, net, w, now, bit, js)
    ensures DecidedBy(cfg, net, w, now[j := DecideHonest(cfg, net, w[j], bit, j).0], bit, js + [j])
  {
    hide DecideHonest;
  }

  // The decision phase: every honest peer decides bit `bit`.
  method RunDecisions(cfg: Config, net: Net, agents: seq<Agent>, src: Source, bit: nat) returns (failed: bool)
    requires Peers(cfg, agents) && bit < |cfg.truth|
    requires src.Valid() && src.bits[..] == cfg.truth
    modifies agents, src`queryCount
    ensures forall j :: 0 <= j < cfg.k ==>
              agents[j].State() == DecideHonest(cfg, net, old(agents[j].State()), bit, j).0
    ensures failed <==> exists j :: 0 <= j < cfg.k && DecideHonest(cfg, net, old(agents[j].State()), bit, j).1.Some?
  {
    hide States;
    hide DecideBit;
    ghost var w := States(agents);
    var honest, at := HonestAgents(cfg, agents);
    failed := false;
    for x := 0 to |honest|
      invariant src.Valid() && src.bits[..] == cfg.truth
      invariant DecidedBy(cfg, net, w, States(agents), bit, at[..x])
      invariant failed <==> SomeFault(cfg, net, w, bit, at[..x])
    {
      ghost var j, before := at[x], States(agents);
      assert at[..x + 1] == at[..x] + [j] && j !in at[..x];
      assert before[j] == w[j];
      assert DecideHonest(cfg, net, w[j], bit, j) == DecideBit(w[j], bit, cfg.truth[bit], cfg.rho, net.verify(bit, j));
      SomeFaultGrows(cfg, net, w, bit, at[..x], j);
      DecidedByOneMore(cfg, net, w, before, bit, at[..x], j);
      hide DecideHonest;
      hide SomeFault;
      hide DecidedBy;
      var err := DecideOneBit(honest[x], src, bit, cfg.rho, net.verify(bit, honest[x].id));
      failed := failed || err.Some?;
      assert States(agents) == before[j := honest[x].State()];
    }
    assert at[..|honest|] == at;
  }

  // One bit-round; false if some job failed for a reason other than the deadline.
  method RunRound(cfg: Config, net: Net, agents: seq<Agent>, src: Source, bit: nat, rep: Agent) returns (ok: bool)
    requires cfg.Valid() && Peers(cfg, agents) && bit < |cfg.truth|
    requires src.Valid() && src.bits[..] == cfg.truth
    requires FirstHonest(cfg, 0) < cfg.k && rep == agents[FirstHonest(cfg, 0)]
    modifies agents, src`queryCount
    ensures ok <==> Round(cfg, net, old(States(agents)), bit).Some?
    ensures ok ==> Round(cfg, net, old(States(agents)), bit) == Some(States(agents))
  {
    hide States;
    hide Jobs;
    hide Exposed;
    hide DecideHonest;
    ghost var w := States(agents);
    var exposed := {};
    if cfg.adversary == Drip {
      exposed := ChooseExposed(cfg, agents, rep);
    }
    assert exposed == ExposedIn(cfg, w);
    var missed, failed := RunRoundJobs(cfg, net, agents, src, bit, exposed);
    if failed {
      return false;
    }
    SealAll(cfg, agents, bit);
    ghost var ready := AtDecision(cfg, net, w, bit);
    assert States(agents) == ready;
    failed := RunDecisions(cfg, net, agents, src, bit);
    if failed {
      return false;
    }
    SweepAll(cfg, agents, bit);
    assert Round(cfg, net, w, bit).value == States(agents);
    return true;
  }

  method SealAll(cfg: Config, agents: seq<Agent>, bit: nat)
    requires Peers(cfg, agents)
    modifies agents
    ensures forall j :: 0 <= j < cfg.k ==> agents[j].State() == Seal(old(agents[j].State()), bit)
  {
    for s := 0 to cfg.k
      invariant forall j :: 0 <= j < cfg.k ==>
                  agents[j].State() == if j < s then Seal(old(agents[j].State()), bit) else old(agents[j].State())
    {
      agents[s].SealRound(bit);
    }
  }

  method SweepAll(cfg: Config, agents: seq<Agent>, bit: nat)
    requires Peers(cfg, agents)
    modifies agents
    ensures forall j :: 0 <= j < cfg.k ==> agents[j].State() == Sweep(old(agents[j].State()), bit)
  {
    for s := 0 to cfg.k
      invariant forall j :: 0 <= j < cfg.k ==>
                  agents[j].State() == if j < s then Sweep(old(agents[j].State()), bit) else old(agents[j].State())
    {
      agents[s].ForgetRound(bit);
    }
  }

  // --- the report ---

  datatype Report = Report(
    completed: nat, failed: nat, missingBits: nat,
    maxQueries: nat, maxPrimary: nat, maxVerify: nat,
    maxBlacklist: nat, honestQueries: nat, totalQueries: nat, messages: nat)

  // The report on the first `j` peers of a final state.
  function ReportOn(cfg: Config, w: seq<Peer>, j: nat): Report
    requires j <= |w|
  {
    if j == 0 then Report(0, 0, 0, 0, 0, 0, 0, 0, 0, 0)
    else
      var r, p := ReportOn(cfg, w, j - 1), w[j - 1];
      var r1 := r.(totalQueries := r.totalQueries + p.sourceQueries);
      if j - 1 in cfg.byz then r1 else Include(r1, p, cfg.truth)
  }

  function Include(r: Report, p: Peer, truth: seq<byte>): Report {
    var right := Reconstructed(p.core.bits, |truth|) == Some(truth);
    var top := p.sourceQueries > r.maxQueries;
    Report(
      r.completed + if right then 1 else 0,
      r.failed + if right then 0 else 1,
      r.missingBits + if right then 0 else Missing(p.core.bits, |truth|),
      if top then p.sourceQueries else r.maxQueries,
      if top then p.primary else r.maxPrimary,
      if top then p.core.verify else r.maxVerify,
      Max(r.maxBlacklist, |p.core.blacklist|),
      r.honestQueries + p.sourceQueries,
      r.totalQueries,
      r.messages + p.messagesSent)
  }

  method ReconstructedCorrectly(a: Agent, truth: seq<byte>) returns (ok: bool)
    ensures ok <==> Reconstructed(a.bits, |truth|) == Some(truth)
  {
    var data := a.Reconstruct(|truth|);
    ok := data != null && data[..] == truth;
  }

  // Adds an honest peer to the report.
  method Observe(a: Agent, truth: seq<byte>, before: Report) returns (r: Report)
    ensures r == Include(before, a.State(), truth)
  {
    hide Reconstructed;
    hide Missing;
    r := before.(messages := before.messages + a.messagesSent, honestQueries := before.honestQueries + a.sourceQueries);
    if a.sourceQueries > r.maxQueries {
      r := r.(maxQueries := a.sourceQueries, maxPrimary := a.primaryQueries, maxVerify := a.verifyQueries);
    }
    if |a.blacklist| > r.maxBlacklist {
      r := r.(maxBlacklist := |a.blacklist|);
    }
    var right := ReconstructedCorrectly(a, truth);
    if right {
      r := r.(completed := r.completed + 1);
    } else {
      var missing := a.MissingBitCount(|truth|);
      r := r.(failed := r.failed + 1, missingBits := r.missingBits + missing);
    }
  }

  method Account(cfg: Config, agents: seq<Agent>) returns (r: Report)
    requires Peers(cfg, agents)
    ensures r == ReportOn(cfg, States(agents), cfg.k)
  {
    hide States;
    hide Include;
    r := Report(0, 0, 0, 0, 0, 0, 0, 0, 0, 0);
    for s := 0 to cfg.k
      invariant r == ReportOn(cfg, States(agents), s)
    {
      r := r.(totalQueries := r.totalQueries + agents[s].sourceQueries);
      if !agents[s].isByzantine {
        r := Observe(agents[s], cfg.truth, r);
      }
    }
  }

  // The honest peer whose blacklist the adversary watches.
  method Representative(cfg: Config, agents: seq<Agent>) returns (rep: Agent)
    requires cfg.Valid() && Peers(cfg, agents)
    ensures FirstHonest(cfg, 0) < cfg.k && rep == agents[FirstHonest(cfg, 0)]
  {
    FirstHonestExists(cfg);
    FirstHonestSkipsByzantine(cfg, 0);
    var honest, at := HonestAgents(cfg, agents);
    assert FirstHonest(cfg, 0) in at;
    assert at[0] == FirstHonest(cfg, 0);
    rep := honest[0];
  }

  // The whole scenario: n bit-rounds, then the report; None if some request failed for a
  // reason other than a round's deadline.
  method RunBlacklistScenario(cfg: Config, net: Net, agents: seq<Agent>, src: Source) returns (result: Option<Report>)
    requires cfg.Valid() && Peers(cfg, agents) && States(agents) == Start(cfg)
    requires src.Valid() && src.bits[..] == cfg.truth
    modifies agents, src`queryCount
    ensures result.Some? <==> Rounds(cfg, net, |cfg.truth|).Some?
    ensures result.Some? ==> Rounds(cfg, net, |cfg.truth|) == Some(States(agents))
                             && result == Some(ReportOn(cfg, States(agents), cfg.k))
  {
    hide States;
    hide Round;
    FirstHonestExists(cfg);
    var rep := Representative(cfg, agents);
    for i := 0 to |cfg.truth|
      invariant src.Valid() && src.bits[..] == cfg.truth
      invariant Rounds(cfg, net, i) == Some(States(agents))
    {
      var ok := RunRound(cfg, net, agents, src, i, rep);
      if !ok {
        FailureIsFinal(cfg, net, i + 1, |cfg.truth|);
        return None;
      }
    }
    var report := Account(cfg, agents);
    return Some(report);
  }
}
