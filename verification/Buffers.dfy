// The message store with real byte buffers. Messages come in with the sender's buffer
// and go out to readers; the store copies both ways, so no one outside can reach the
// buffers it keeps. Its contents are tied to the value-level store of module Mailbox.

module Buffers {
  import opened Tally
  import opened Mailbox

  datatype Envelope = Envelope(sender: int, round: int, topic: int, value: array<byte>)

  function Content(e: Envelope): Message
    reads e.value
  {
    Message(e.sender, e.round, e.topic, e.value[..])
  }

  ghost predicate Owned(es: seq<Envelope>, owned: set<array<byte>>) {
    forall x :: 0 <= x < |es| ==> es[x].value in owned
  }

  ghost function Contents(es: seq<Envelope>, owned: set<array<byte>>): seq<Message>
    requires Owned(es, owned)
    reads owned
  {
    seq(|es|, x requires 0 <= x < |es| && Owned(es, owned) reads owned => Content(es[x]))
  }

  lemma ContentsGrow(es: seq<Envelope>, owned: set<array<byte>>, e: Envelope, more: set<array<byte>>)
    requires Owned(es, owned) && owned <= more && e.value in more
    ensures Owned(es, more) && Contents(es, more) == Contents(es, owned)
    ensures Owned(es + [e], more) && Contents(es + [e], more) == Contents(es, owned) + [Content(e)]
  {
  }

  method CopyOf(value: array<byte>) returns (copied: array<byte>)
    ensures fresh(copied) && copied[..] == value[..]
  {
    copied := new byte[value.Length];
    for i := 0 to value.Length
      invariant copied[..i] == value[..i]
    {
      copied[i] := value[i];
    }
    assert copied[..] == value[..];
  }

  class MessageStore {
    var messages: map<int, map<int, seq<Envelope>>>
    var sealedRound: int
    ghost var box: Box                 // the value-level contents
    ghost var owned: set<array<byte>>  // the store's own buffers

    ghost predicate Valid()
      reads this, owned
    {
      && box.sealed == sealedRound
      && (forall r, t :: Owned(Kept(r, t), owned) && Contents(Kept(r, t), owned) == Lookup(box.store, r, t))
    }

    function Kept(round: int, topic: int): seq<Envelope>
      reads this`messages
    {
      if round in messages && topic in messages[round] then messages[round][topic] else []
    }

    constructor ()
      ensures Valid() && box == EMPTY && owned == {}
    {
      messages := map[];
      sealedRound := -1;
      box := EMPTY;
      owned := {};
    }

    // The message is stored under a copy of its buffer, so `msg.value` stays outside.
    method StoreMessage(msg: Envelope)
      requires Valid()
      modifies this
      ensures Valid() && fresh(owned - old(owned))
      ensures box == Receive(old(box), Content(msg))
    {
      hide Append;
      hide Lookup;
      hide Contents;
      if ToInt32(msg.round) <= sealedRound {
        return;
      }
      var value := CopyOf(msg.value);
      var copied := Envelope(msg.sender, msg.round, msg.topic, value);
      var byTopic := if msg.round in messages then messages[msg.round] else map[];
      messages := messages[msg.round := byTopic[msg.topic := Kept(msg.round, msg.topic) + [copied]]];
      owned := owned + {value};
      box := Receive(box, Content(msg));
      assert Content(copied) == Content(msg);
      forall r, t ensures Kept(r, t) == old(Kept(r, t)) + if r == msg.round && t == msg.topic then [copied] else [] {
      }
      forall r, t ensures Owned(Kept(r, t), owned) && Contents(Kept(r, t), owned) == Lookup(box.store, r, t) {
        AppendLookup(old(box).store, Content(msg), r, t);
        ContentsGrow(old(Kept(r, t)), old(owned), copied, owned);
        hide Append;
        hide Lookup;
        assert old(Contents(Kept(r, t), owned)) == Contents(old(Kept(r, t)), old(owned));
      }
    }

    method SealRound(round: int)
      requires Valid()
      modifies this
      ensures Valid() && owned == old(owned) && box == SealTo(old(box), round)
    {
      if ToInt32(round) > sealedRound {
        sealedRound := ToInt32(round);
      }
      box := SealTo(box, round);
      assert forall r, t :: Kept(r, t) == old(Kept(r, t));
    }

    method ForgetRound(round: int)
      requires Valid()
      modifies this
      ensures Valid() && owned == old(owned) && box == Forget(old(box), round)
    {
      messages := messages - {round};
      box := Forget(box, round);
      forall r, t
        ensures Kept(r, t) == if r == round then [] else old(Kept(r, t))
        ensures Lookup(box.store, r, t) == if r == round then [] else Lookup(old(box).store, r, t)
      {
      }
    }

    // Readers get copies: the buffers handed out are new and not the store's.
    method Messages(round: int, topic: int) returns (copied: seq<Envelope>, ghost handed: set<array<byte>>)
      requires Valid()
      ensures fresh(handed) && handed !! owned && Owned(copied, handed)
      ensures Contents(copied, handed) == Lookup(box.store, round, topic)
    {
      var msgs := Kept(round, topic);
      copied, handed := [], {};
      for x := 0 to |msgs|
        invariant fresh(handed) && handed !! owned && |copied| == x && Owned(copied, handed)
        invariant forall y :: 0 <= y < x ==> Content(copied[y]) == Content(msgs[y])
      {
        var value := CopyOf(msgs[x].value);
        copied := copied + [Envelope(msgs[x].sender, msgs[x].round, msgs[x].topic, value)];
        handed := handed + {value};
      }
      assert Contents(copied, handed) == Contents(msgs, owned);
    }
  }

  // Whatever is written into a caller's or a reader's buffer, the store keeps its contents.
  method Scribble(store: MessageStore, buffer: array<byte>, at: nat, b: byte)
    requires store.Valid() && buffer !in store.owned && at < buffer.Length
    modifies buffer
    ensures store.Valid() && store.box == old(store.box)
  {
    buffer[at] := b;
    assert forall r, t :: Contents(store.Kept(r, t), store.owned) == old(Contents(store.Kept(r, t), store.owned));
  }
}
