// A peer's message store and its receive window. Stored messages are keyed by
// round and topic; the window is a sealed round kept as a 32-bit integer. The
// flat log at the end is the independent reference the store is checked against.

module Mailbox {
  import opened Counting
  import opened Tally

  const TWO_TO_THE_31: int := 0x8000_0000
  const TWO_TO_THE_32: int := 0x1_0000_0000

  // Conversion to a signed 32-bit integer, wrapping around.
  function ToInt32(x: int): (r: int)
    ensures -TWO_TO_THE_31 <= r < TWO_TO_THE_31
    ensures (x - r) % TWO_TO_THE_32 == 0
    ensures r == x <==> -TWO_TO_THE_31 <= x < TWO_TO_THE_31
  {
    (x + TWO_TO_THE_31) % TWO_TO_THE_32 - TWO_TO_THE_31
  }

  type Store = map<int, map<int, seq<Message>>>

  datatype Box = Box(store: Store, sealed: int)

  const EMPTY := Box(map[], -1)

  function ByTopic(store: Store, round: int): map<int, seq<Message>> {
    if round in store then store[round] else map[]
  }

  function Lookup(store: Store, round: int, topic: int): seq<Message> {
    if topic in ByTopic(store, round) then ByTopic(store, round)[topic] else []
  }

  function Append(store: Store, m: Message): Store {
    store[m.round := ByTopic(store, m.round)[m.topic := Lookup(store, m.round, m.topic) + [m]]]
  }

  // StoreMessage: the window is tested on the wrapped round number, the key is the full one.
  function Receive(b: Box, m: Message): Box {
    if ToInt32(m.round) <= b.sealed then b else b.(store := Append(b.store, m))
  }

  // SealRound: the window only ever closes further.
  function SealTo(b: Box, round: int): Box {
    if ToInt32(round) <= b.sealed then b else b.(sealed := ToInt32(round))
  }

  // ForgetRound
  function Forget(b: Box, round: int): Box {
    b.(store := b.store - {round})
  }

  function ReceiveAll(b: Box, ms: seq<Message>): Box {
    if ms == [] then b else Receive(ReceiveAll(b, ms[..|ms| - 1]), ms[|ms| - 1])
  }

  predicate Keyed(m: Message, round: int, topic: int) {
    m.round == round && m.topic == topic
  }

  function Select(ms: seq<Message>, round: int, topic: int): seq<Message> {
    if ms == [] then []
    else
      var m := ms[|ms| - 1];
      Select(ms[..|ms| - 1], round, topic) + if Keyed(m, round, topic) then [m] else []
  }

  // --- the flat log ---

  datatype Event = Arrive(msg: Message) | SealAt(round: int) | ForgetAt(round: int)

  function Apply(b: Box, e: Event): Box {
    match e
    case Arrive(m) => Receive(b, m)
    case SealAt(r) => SealTo(b, r)
    case ForgetAt(r) => Forget(b, r)
  }

  function Replay(events: seq<Event>): Box {
    if events == [] then EMPTY else Apply(Replay(events[..|events| - 1]), events[|events| - 1])
  }

  function NotRound(ms: seq<Message>, round: int): seq<Message> {
    if ms == [] then []
    else
      var m := ms[|ms| - 1];
      NotRound(ms[..|ms| - 1], round) + if m.round != round then [m] else []
  }

  // The highest round sealed so far.
  function Level(events: seq<Event>): int {
    if events == [] then -1
    else
      var before, e := Level(events[..|events| - 1]), events[|events| - 1];
      if e.SealAt? && ToInt32(e.round) > before then ToInt32(e.round) else before
  }

  // The accepted and not yet forgotten messages, in arrival order.
  function Log(events: seq<Event>): seq<Message> {
    if events == [] then []
    else
      var init, e := events[..|events| - 1], events[|events| - 1];
      match e
      case Arrive(m) => if ToInt32(m.round) > Level(init) then Log(init) + [m] else Log(init)
      case SealAt(_) => Log(init)
      case ForgetAt(r) => NotRound(Log(init), r)
  }

  lemma SelectNotRound(ms: seq<Message>, gone: int, round: int, topic: int)
    ensures Select(NotRound(ms, gone), round, topic) == if round == gone then [] else Select(ms, round, topic)
  {
    if ms != [] {
      var init, m := ms[..|ms| - 1], ms[|ms| - 1];
      SelectNotRound(init, gone, round, topic);
      assert NotRound(init, gone) + [] == NotRound(init, gone);
      assert Select(init, round, topic) + [] == Select(init, round, topic);
      SelectOneMore(NotRound(init, gone), m, round, topic);
    }
  }

  lemma AppendLookup(st: Store, m: Message, round: int, topic: int)
    ensures Lookup(Append(st, m), round, topic)
         == Lookup(st, round, topic) + if Keyed(m, round, topic) then [m] else []
  {
  }

  lemma ForgetLookup(b: Box, gone: int, round: int, topic: int)
    ensures Lookup(Forget(b, gone).store, round, topic) == if round == gone then [] else Lookup(b.store, round, topic)
  {
  }

  lemma SelectOneMore(ms: seq<Message>, m: Message, round: int, topic: int)
    ensures Select(ms + [m], round, topic) == Select(ms, round, topic) + if Keyed(m, round, topic) then [m] else []
  {
    assert (ms + [m])[..|ms|] == ms;
  }

  // The nested store always reads like the flat log.
  lemma {:induction false} StoreRefinesLog(events: seq<Event>, round: int, topic: int)
    ensures Replay(events).sealed == Level(events)
    ensures Lookup(Replay(events).store, round, topic) == Select(Log(events), round, topic)
  {
    if events != [] {
      var init, e := events[..|events| - 1], events[|events| - 1];
      StoreRefinesLog(init, round, topic);
      hide Lookup;
      hide Append;
      hide Select;
      match e
      case Arrive(m) =>
        AppendLookup(Replay(init).store, m, round, topic);
        SelectOneMore(Log(init), m, round, topic);
      case SealAt(_) =>
      case ForgetAt(r) =>
        ForgetLookup(Replay(init), r, round, topic);
        SelectNotRound(Log(init), r, round, topic);
    }
  }

  // `m` arrived as event `x` with the window open, and its round was not forgotten since.
  ghost predicate KeptSince(events: seq<Event>, x: nat, m: Message) {
    && x < |events| && events[x] == Arrive(m) && ToInt32(m.round) > Level(events[..x])
    && forall y :: x < y < |events| ==> events[y] != ForgetAt(m.round)
  }

  lemma NotRoundHas(ms: seq<Message>, gone: int, m: Message)
    ensures m in NotRound(ms, gone) <==> m in ms && m.round != gone
  {
    if ms != [] {
      NotRoundHas(ms[..|ms| - 1], gone, m);
      assert ms == ms[..|ms| - 1] + [ms[|ms| - 1]];
    }
  }

  lemma KeptOneMore(init: seq<Event>, e: Event, x: nat, m: Message)
    ensures KeptSince(init + [e], x, m)
      <==> if x == |init| then e == Arrive(m) && ToInt32(m.round) > Level(init)
           else KeptSince(init, x, m) && e != ForgetAt(m.round)
  {
    var events := init + [e];
    hide Level;
    hide ToInt32;
    assert events[..|init|] == init;
    if x < |init| {
      assert events[..x] == init[..x];
      assert events[|init|] == e;
      assert forall y :: x < y < |init| ==> events[y] == init[y];
    }
  }

  // What the log holds: the messages let in and not forgotten since.
  lemma {:induction false} LogHolds(events: seq<Event>, m: Message)
    ensures m in Log(events) <==> exists x: nat :: KeptSince(events, x, m)
  {
    if events != [] {
      var init, e := events[..|events| - 1], events[|events| - 1];
      assert events == init + [e];
      LogHolds(init, m);
      forall x: nat
        ensures KeptSince(events, x, m)
          <==> if x == |init| then e == Arrive(m) && ToInt32(m.round) > Level(init)
               else KeptSince(init, x, m) && e != ForgetAt(m.round)
      {
        KeptOneMore(init, e, x, m);
      }
      if e.ForgetAt? {
        NotRoundHas(Log(init), e.round, m);
      }
      hide KeptSince;
      assert KeptSince(events, |init|, m) <==> e == Arrive(m) && ToInt32(m.round) > Level(init);
    }
    hide Level;
    hide NotRound;
    hide KeptSince;
  }

  // Once a round is sealed its votes stay as they are until the round is forgotten.
  lemma {:induction false} FrozenOnceSealed(events: seq<Event>, tail: seq<Event>, round: int, topic: int)
    requires ToInt32(round) <= Level(events) && ForgetAt(round) !in tail
    ensures Level(events) <= Level(events + tail)
    ensures Lookup(Replay(events + tail).store, round, topic) == Lookup(Replay(events).store, round, topic)
  {
    if tail == [] {
      assert events + tail == events;
    } else {
      var init := tail[..|tail| - 1];
      assert (events + tail)[..|events + tail| - 1] == events + init;
      FrozenOnceSealed(events, init, round, topic);
      hide Lookup;
      hide Append;
      var b, e := Replay(events + init), tail[|tail| - 1];
      assert Replay(events + tail) == Apply(b, e);
      assert e in tail;
      StoreRefinesLog(events + init, round, topic);
      if e.Arrive? {
        AppendLookup(b.store, e.msg, round, topic);
        var had := Lookup(b.store, round, topic);
        assert had + [] == had;
      } else if e.ForgetAt? {
        ForgetLookup(b, e.round, round, topic);
      }
    }
  }

  // --- one protocol round ---

  lemma ReceiveAllLookup(b: Box, ms: seq<Message>, round: int, topic: int)
    ensures ReceiveAll(b, ms).sealed == b.sealed
    ensures Lookup(ReceiveAll(b, ms).store, round, topic)
         == Lookup(b.store, round, topic) + if ToInt32(round) <= b.sealed then [] else Select(ms, round, topic)
  {
    if ms != [] {
      var init, m := ms[..|ms| - 1], ms[|ms| - 1];
      ReceiveAllLookup(b, init, round, topic);
      var had, got := Lookup(b.store, round, topic), Select(init, round, topic);
      assert (had + got) + [m] == had + (got + [m]) && had + (got + []) == had + got;
    }
  }

  // The store at the end of round `i`: messages, the seal, latecomers, the decision, the sweep.
  function BeforeDecision(b: Box, i: int, early: seq<Message>, late: seq<Message>): Box {
    ReceiveAll(SealTo(ReceiveAll(b, early), i), late)
  }

  function MailRound(b: Box, i: int, early: seq<Message>, late: seq<Message>): Box {
    Forget(BeforeDecision(b, i, early, late), i)
  }

  // The votes a peer decides on are those it had plus those that came before the seal.
  lemma ViewIsArrivals(b: Box, i: int, early: seq<Message>, late: seq<Message>)
    requires b.sealed < ToInt32(i)
    ensures Lookup(BeforeDecision(b, i, early, late).store, i, 0) == Lookup(b.store, i, 0) + Select(early, i, 0)
  {
    ReceiveAllLookup(b, early, i, 0);
    ReceiveAllLookup(SealTo(ReceiveAll(b, early), i), late, i, 0);
  }

  // --- bounded memory ---

  // Only rounds above the seal are stored, apart from the one being decided.
  predicate FreshBut(b: Box, spare: int) {
    forall r :: r in b.store ==> r > b.sealed || r == spare
  }

  predicate Fresh(b: Box) {
    forall r :: r in b.store ==> r > b.sealed
  }

  // The round numbers whose 32-bit image lies above them and inside the protocol's range.
  predicate WrapsUp(round: int) {
    round < -TWO_TO_THE_31 && ToInt32(round) >= 0
  }

  lemma WrapsUpMeaning(round: int)
    ensures WrapsUp(round) <==> round < ToInt32(round) && ToInt32(round) >= 0
  {
  }

  lemma ReceiveAllKeepsFresh(b: Box, ms: seq<Message>, spare: int)
    requires FreshBut(b, spare) && b.sealed >= -1
    requires forall m :: m in ms ==> !WrapsUp(m.round)
    ensures FreshBut(ReceiveAll(b, ms), spare) && ReceiveAll(b, ms).sealed == b.sealed
  {
    if ms != [] {
      assert forall m :: m in ms[..|ms| - 1] ==> m in ms;
      ReceiveAllKeepsFresh(b, ms[..|ms| - 1], spare);
      assert ms[|ms| - 1] in ms;
      WrapsUpMeaning(ms[|ms| - 1].round);
    }
  }

  // After its round a peer holds nothing of that round or earlier ones, and while it
  // decides it holds at most that round besides later ones.
  lemma NothingSealedIsKept(b: Box, i: int, early: seq<Message>, late: seq<Message>)
    requires Fresh(b) && b.sealed == i - 1 && 0 <= i < TWO_TO_THE_31
    requires forall m :: m in early + late ==> !WrapsUp(m.round)
    ensures FreshBut(BeforeDecision(b, i, early, late), i)
    ensures var after := MailRound(b, i, early, late); Fresh(after) && after.sealed == i
  {
    assert forall m :: m in early || m in late ==> m in early + late;
    ReceiveAllKeepsFresh(b, early, i);
    ReceiveAllKeepsFresh(SealTo(ReceiveAll(b, early), i), late, i);
  }

  // That depends on the round numbers of messages not wrapping upward: those, and only
  // those, can be stored under a round that is already sealed.
  lemma OnlyWrappedRoundsGoStale(m: Message)
    ensures WrapsUp(m.round) <==> exists b :: Fresh(b) && b.sealed >= -1 && !Fresh(Receive(b, m))
  {
    WrapsUpMeaning(m.round);
    if WrapsUp(m.round) {
      var b := Box(map[], ToInt32(m.round) - 1);
      assert m.round in Receive(b, m).store;
      assert Fresh(b) && b.sealed >= -1 && !Fresh(Receive(b, m));
    }
  }

  // For instance a message for round -2^32 passes a window sealed at -1, and is never swept.
  lemma WrappedRoundExample()
    ensures var m := Message(0, -TWO_TO_THE_32, 0, [1]);
            var after := MailRound(EMPTY, 0, [m], []);
            m.round in after.store && m.round <= after.sealed
  {
    var m := Message(0, -TWO_TO_THE_32, 0, [1]);
    assert ReceiveAll(EMPTY, [m][..0]) == EMPTY;
    assert ReceiveAll(EMPTY, [m]) == Receive(EMPTY, m);
    assert ToInt32(m.round) == 0;
  }

  // --- a whole run ---

  // What reaches a peer in one round, before and after its seal.
  datatype Traffic = Traffic(early: seq<Message>, late: seq<Message>)

  function MailRun(run: seq<Traffic>, n: nat): Box
    requires n <= |run|
  {
    if n == 0 then EMPTY else MailRound(MailRun(run, n - 1), n - 1, run[n - 1].early, run[n - 1].late)
  }

  // Where the window stands after `n` rounds: it sticks at the largest 32-bit integer.
  function WindowAfter(n: nat): int {
    Min(n, TWO_TO_THE_31) - 1
  }

  predicate Passes(m: Message, window: int) {
    ToInt32(m.round) > window
  }

  function Accepted(ms: seq<Message>, window: int): seq<Message> {
    if ms == [] then []
    else
      var m := ms[|ms| - 1];
      Accepted(ms[..|ms| - 1], window) + if Passes(m, window) then [m] else []
  }

  // Everything the window let through in the first `n` rounds, in order of arrival.
  function AcceptedBy(run: seq<Traffic>, n: nat): seq<Message>
    requires n <= |run|
  {
    if n == 0 then []
    else
      AcceptedBy(run, n - 1)
      + (Accepted(run[n - 1].early, WindowAfter(n - 1)) + Accepted(run[n - 1].late, WindowAfter(n)))
  }

  // `m` reaches the peer during the first `n` rounds while the window is open for it.
  ghost predicate LetIn(run: seq<Traffic>, n: nat, m: Message)
    requires n <= |run|
  {
    exists x :: 0 <= x < n && LetInDuring(run[x], x, m)
  }

  predicate LetInDuring(t: Traffic, x: nat, m: Message) {
    || (m in t.early && Passes(m, WindowAfter(x)))
    || (m in t.late && Passes(m, WindowAfter(x + 1)))
  }

  predicate Decided(round: int, n: nat) {
    0 <= round < n
  }

  lemma AcceptedAre(ms: seq<Message>, window: int, m: Message)
    ensures m in Accepted(ms, window) <==> m in ms && Passes(m, window)
  {
    if ms != [] {
      var init := ms[..|ms| - 1];
      AcceptedAre(init, window, m);
      assert ms == init + [ms[|ms| - 1]];
    }
  }

  lemma SelectAccepted(ms: seq<Message>, window: int, round: int, topic: int)
    ensures Select(Accepted(ms, window), round, topic)
         == if ToInt32(round) <= window then [] else Select(ms, round, topic)
  {
    if ms != [] {
      var init, m := ms[..|ms| - 1], ms[|ms| - 1];
      SelectAccepted(init, window, round, topic);
      SelectOneMore(Accepted(init, window), m, round, topic);
      assert Accepted(init, window) + [] == Accepted(init, window);
      assert Select(init, round, topic) + [] == Select(init, round, topic);
    }
  }

  lemma {:induction false} SelectConcat(a: seq<Message>, b: seq<Message>, round: int, topic: int)
    ensures Select(a + b, round, topic) == Select(a, round, topic) + Select(b, round, topic)
  {
    if b == [] {
      assert a + b == a;
    } else {
      var init, m := b[..|b| - 1], b[|b| - 1];
      SelectConcat(a, init, round, topic);
      assert a + b == (a + init) + [m];
      SelectOneMore(a + init, m, round, topic);
    }
  }

  lemma PassedAreUndecided(round: int, n: nat)
    requires ToInt32(round) > WindowAfter(n)
    ensures !Decided(round, n)
  {
  }

  lemma RunWindow(run: seq<Traffic>, n: nat)
    requires n <= |run|
    ensures MailRun(run, n).sealed == WindowAfter(n)
    ensures n > 0 ==> SealTo(ReceiveAll(MailRun(run, n - 1), run[n - 1].early), n - 1).sealed == WindowAfter(n)
  {
    if n > 0 {
      var b, t := MailRun(run, n - 1), run[n - 1];
      RunWindow(run, n - 1);
      ReceiveAllLookup(b, t.early, 0, 0);
      ReceiveAllLookup(SealTo(ReceiveAll(b, t.early), n - 1), t.late, 0, 0);
    }
  }

  lemma ReceiveAllSelects(b: Box, ms: seq<Message>, round: int, topic: int)
    ensures ReceiveAll(b, ms).sealed == b.sealed
    ensures Lookup(ReceiveAll(b, ms).store, round, topic)
         == Lookup(b.store, round, topic) + Select(Accepted(ms, b.sealed), round, topic)
  {
    ReceiveAllLookup(b, ms, round, topic);
    SelectAccepted(ms, b.sealed, round, topic);
  }

  lemma SelectNothing(ms: seq<Message>, n: nat, round: int, topic: int)
    requires Decided(round, n)
    ensures Select(Accepted(ms, WindowAfter(n)), round, topic) == []
  {
    SelectAccepted(ms, WindowAfter(n), round, topic);
    if ToInt32(round) > WindowAfter(n) {
      PassedAreUndecided(round, n);
    }
  }

  lemma RoundContents(b: Box, n: nat, t: Traffic, round: int, topic: int)
    requires b.sealed == WindowAfter(n) && SealTo(ReceiveAll(b, t.early), n).sealed == WindowAfter(n + 1)
    ensures Lookup(MailRound(b, n, t.early, t.late).store, round, topic)
         == if round == n then [] else
              (Lookup(b.store, round, topic) + Select(Accepted(t.early, WindowAfter(n)), round, topic))
              + Select(Accepted(t.late, WindowAfter(n + 1)), round, topic)
  {
    var shut := SealTo(ReceiveAll(b, t.early), n);
    ReceiveAllSelects(b, t.early, round, topic);
    ReceiveAllSelects(shut, t.late, round, topic);
    ForgetLookup(ReceiveAll(shut, t.late), n, round, topic);
    assert shut.store == ReceiveAll(b, t.early).store;
    hide Lookup;
    hide Select;
    hide Accepted;
    hide ReceiveAll;
  }

  lemma SelectRound(run: seq<Traffic>, n: nat, round: int, topic: int)
    requires n < |run|
    ensures Select(AcceptedBy(run, n + 1), round, topic)
         == (Select(AcceptedBy(run, n), round, topic)
             + Select(Accepted(run[n].early, WindowAfter(n)), round, topic))
            + Select(Accepted(run[n].late, WindowAfter(n + 1)), round, topic)
  {
    var had := AcceptedBy(run, n);
    var e, l := Accepted(run[n].early, WindowAfter(n)), Accepted(run[n].late, WindowAfter(n + 1));
    assert AcceptedBy(run, n + 1) == (had + e) + l;
    hide *;
    SelectConcat(had + e, l, round, topic);
    SelectConcat(had, e, round, topic);
  }

  // After `n` rounds the store holds what the window let through, in order of arrival,
  // except for the rounds decided so far.
  lemma {:induction false} RunContents(run: seq<Traffic>, n: nat, round: int, topic: int)
    requires n <= |run|
    ensures Lookup(MailRun(run, n).store, round, topic)
         == if Decided(round, n) then [] else Select(AcceptedBy(run, n), round, topic)
  {
    if n == 0 {
      assert Lookup(MailRun(run, 0).store, round, topic) == Select(AcceptedBy(run, 0), round, topic) == [];
    } else {
      var t := run[n - 1];
      RunContents(run, n - 1, round, topic);
      RunWindow(run, n - 1);
      RunWindow(run, n);
      RoundContents(MailRun(run, n - 1), n - 1, t, round, topic);
      SelectRound(run, n - 1, round, topic);
      if Decided(round, n - 1) {
        SelectNothing(t.early, n - 1, round, topic);
        SelectNothing(t.late, n, round, topic);
      }
    }
    hide Lookup;
    hide Select;
    hide Accepted;
    hide AcceptedBy;
    hide MailRound;
    hide WindowAfter;
  }

  lemma SelectHas(ms: seq<Message>, m: Message, round: int, topic: int)
    ensures m in Select(ms, round, topic) <==> m in ms && Keyed(m, round, topic)
  {
    if ms != [] {
      SelectHas(ms[..|ms| - 1], m, round, topic);
      assert ms == ms[..|ms| - 1] + [ms[|ms| - 1]];
    }
  }

  lemma {:induction false} AcceptedByAre(run: seq<Traffic>, n: nat, m: Message)
    requires n <= |run|
    ensures m in AcceptedBy(run, n) <==> LetIn(run, n, m)
  {
    if n > 0 {
      AcceptedByAre(run, n - 1, m);
      AcceptedAre(run[n - 1].early, WindowAfter(n - 1), m);
      AcceptedAre(run[n - 1].late, WindowAfter(n), m);
      hide Accepted;
      hide Passes;
      hide WindowAfter;
      assert LetIn(run, n, m) <==> LetIn(run, n - 1, m) || LetInDuring(run[n - 1], n - 1, m);
    }
  }

  // A message outlives the first `n` rounds exactly if the window was open for it when it
  // arrived and its full round number is none of those rounds.
  lemma OutlivesExactly(run: seq<Traffic>, n: nat, m: Message)
    requires n <= |run|
    ensures m in Lookup(MailRun(run, n).store, m.round, m.topic) <==> LetIn(run, n, m) && !Decided(m.round, n)
  {
    RunContents(run, n, m.round, m.topic);
    SelectHas(AcceptedBy(run, n), m, m.round, m.topic);
    AcceptedByAre(run, n, m);
  }

  predicate HasRound(ms: seq<Message>, round: int) {
    exists m :: m in ms && m.round == round
  }

  lemma ReceiveAllRounds(b: Box, ms: seq<Message>, round: int)
    ensures ReceiveAll(b, ms).sealed == b.sealed
    ensures round in ReceiveAll(b, ms).store <==> round in b.store || HasRound(Accepted(ms, b.sealed), round)
  {
    if ms != [] {
      var init, m := ms[..|ms| - 1], ms[|ms| - 1];
      ReceiveAllRounds(b, init, round);
      var before, after := Accepted(init, b.sealed), Accepted(ms, b.sealed);
      assert forall x :: x in after <==> x in before || (Passes(m, b.sealed) && x == m);
      hide Accepted;
      assert HasRound(after, round) <==> HasRound(before, round) || (Passes(m, b.sealed) && m.round == round);
    }
  }

  // The rounds stored after `n` rounds.
  lemma {:induction false} RunRounds(run: seq<Traffic>, n: nat, round: int)
    requires n <= |run|
    ensures round in MailRun(run, n).store <==> HasRound(AcceptedBy(run, n), round) && !Decided(round, n)
  {
    if n > 0 {
      var b, t := MailRun(run, n - 1), run[n - 1];
      RunRounds(run, n - 1, round);
      RunWindow(run, n - 1);
      RunWindow(run, n);
      ReceiveAllRounds(b, t.early, round);
      ReceiveAllRounds(SealTo(ReceiveAll(b, t.early), n - 1), t.late, round);
      var e, l := Accepted(t.early, WindowAfter(n - 1)), Accepted(t.late, WindowAfter(n));
      assert HasRound(e, round) || HasRound(l, round) ==> !Decided(round, n - 1) by {
        NewRoundsAreUndecided(t.early, n - 1, round);
        NewRoundsAreUndecided(t.late, n, round);
      }
      hide Accepted;
      hide ReceiveAll;
      assert HasRound(AcceptedBy(run, n), round)
        <==> HasRound(AcceptedBy(run, n - 1), round) || HasRound(e, round) || HasRound(l, round);
    }
  }

  lemma NewRoundsAreUndecided(ms: seq<Message>, n: nat, round: int)
    ensures HasRound(Accepted(ms, WindowAfter(n)), round) ==> !Decided(round, n)
  {
    forall m | m in Accepted(ms, WindowAfter(n)) && m.round == round ensures !Decided(round, n) {
      AcceptedAre(ms, WindowAfter(n), m);
      PassedAreUndecided(round, n);
    }
  }

  // The store is empty after `n` rounds exactly if every message the window let through
  // was for one of those rounds.
  lemma EmptyExactly(run: seq<Traffic>, n: nat)
    requires n <= |run|
    ensures MailRun(run, n).store == map[] <==> forall m :: LetIn(run, n, m) ==> Decided(m.round, n)
  {
    var st := MailRun(run, n).store;
    assert st == map[] <==> forall r :: r !in st by {
      assert (forall r :: r !in st) ==> st == map[];
    }
    forall m ensures m in AcceptedBy(run, n) <==> LetIn(run, n, m) {
      AcceptedByAre(run, n, m);
    }
    forall r ensures r in st <==> HasRound(AcceptedBy(run, n), r) && !Decided(r, n) {
      RunRounds(run, n, r);
    }
    hide MailRun;
    hide AcceptedBy;
    hide LetIn;
    if m :| LetIn(run, n, m) && !Decided(m.round, n) {
      assert m.round in st;
    }
  }

  // Every message let through in round `x` is for round `x`.
  ghost predicate Punctual(t: Traffic, x: nat) {
    forall m :: LetInDuring(t, x, m) ==> m.round == x
  }

  // A message let through in round `x` for a round up to `x` is for round `x` itself.
  lemma LetInThenDecided(t: Traffic, x: nat, m: Message)
    requires LetInDuring(t, x, m) && Decided(m.round, x + 1)
    ensures m.round == x
  {
    if m.round != x {
      PassedAreUndecided(m.round, x);
    }
  }

  lemma PunctualLeavesNothing(run: seq<Traffic>, n: nat)
    requires n <= |run| && forall x :: 0 <= x < n ==> Punctual(run[x], x)
    ensures MailRun(run, n).store == map[]
  {
    EmptyExactly(run, n);
    hide MailRun;
    hide LetInDuring;
  }

  lemma EmptyMeansPunctual(run: seq<Traffic>, x: nat)
    requires x < |run| && MailRun(run, x + 1).store == map[]
    ensures Punctual(run[x], x)
  {
    EmptyExactly(run, x + 1);
    forall m | LetInDuring(run[x], x, m) ensures m.round == x {
      assert LetIn(run, x + 1, m);
      LetInThenDecided(run[x], x, m);
    }
  }

  ghost predicate AlwaysEmpty(run: seq<Traffic>, n: nat)
    requires n <= |run|
  {
    forall i :: 0 <= i <= n ==> MailRun(run, i).store == map[]
  }

  // No message is ever carried over from one round to the next exactly if all traffic is
  // punctual.
  lemma NothingCarriedOverExactly(run: seq<Traffic>, n: nat)
    requires n <= |run|
    ensures AlwaysEmpty(run, n) <==> forall x :: 0 <= x < n ==> Punctual(run[x], x)
  {
    if forall x :: 0 <= x < n ==> Punctual(run[x], x) {
      forall i | 0 <= i <= n ensures MailRun(run, i).store == map[] {
        PunctualLeavesNothing(run, i);
      }
    }
    if AlwaysEmpty(run, n) {
      forall x | 0 <= x < n ensures Punctual(run[x], x) {
        assert MailRun(run, x + 1).store == map[];
        EmptyMeansPunctual(run, x);
      }
    }
    hide MailRun;
    hide Punctual;
  }

  // For instance a message for round 5 that comes in round 0 is still stored at the end of
  // every run of up to five rounds.
  lemma EarlyMessageExample(n: nat)
    requires 1 <= n <= 5
    ensures var m := Message(0, 5, 0, [1]);
            var run := seq(n, x => if x == 0 then Traffic([m], []) else Traffic([], []));
            m in Lookup(MailRun(run, n).store, 5, 0)
  {
    var m := Message(0, 5, 0, [1]);
    var run := seq(n, x => if x == 0 then Traffic([m], []) else Traffic([], []));
    assert LetInDuring(run[0], 0, m);
    assert LetIn(run, n, m);
    OutlivesExactly(run, n, m);
  }
}
