// The objects of the simulation: the trusted source and the peers. Each method is
// proved against the corresponding function on Peer values (module World).

module AgentNode {
  import opened Tally
  import opened NodeRun
  import opened Mailbox
  import opened World

  class Source {
    const bits: array<byte>
    const totalBits: int
    var queryCount: nat

    ghost predicate Valid()
      reads this, bits
    {
      totalBits == bits.Length >= 1 && forall i :: 0 <= i < totalBits ==> IsBit(bits[i])
    }

    // The draws stand for the seeded random generator.
    constructor (totalBits: int, draw: int -> byte)
      requires forall i :: IsBit(draw(i))
      ensures Valid() && fresh(bits) && queryCount == 0
      ensures this.totalBits == if totalBits < 1 then 1 else totalBits
      ensures forall i :: 0 <= i < this.totalBits ==> bits[i] == draw(i)
    {
      var n := if totalBits < 1 then 1 else totalBits;
      var filled := new byte[n];
      for i := 0 to n
        invariant forall x :: 0 <= x < i ==> filled[x] == draw(x)
      {
        filled[i] := draw(i);
      }
      this.bits := filled;
      this.totalBits := n;
      queryCount := 0;
    }

    method GetBit(index: int) returns (bit: byte, ok: bool)
      requires Valid()
      ensures ok <==> 0 <= index < totalBits
      ensures bit == if ok then bits[index] else 0
    {
      if index < 0 || index >= totalBits {
        return 0, false;
      }
      return bits[index], true;
    }

    // A copy of the input array: writing to it does not reach the source.
    method Object() returns (copied: array<byte>)
      requires Valid()
      ensures fresh(copied) && copied[..] == bits[..]
    {
      copied := new byte[bits.Length];
      for i := 0 to bits.Length
        invariant forall x :: 0 <= x < i ==> copied[x] == bits[x]
      {
        copied[i] := bits[i];
      }
    }

    // One answered request; requests for missing bits are not counted.
    method Serve(index: int) returns (bit: byte, ok: bool)
      requires Valid()
      modifies this`queryCount
      ensures ok <==> 0 <= index < totalBits
      ensures ok ==> bit == bits[index]
      ensures queryCount == old(queryCount) + if ok then 1 else 0
    {
      bit, ok := GetBit(index);
      if ok {
        queryCount := queryCount + 1;
      }
    }
  }

  // How many of the bits 0 .. n - 1 are missing.
  function Missing(bits: map<int, byte>, n: nat): nat {
    if n == 0 then 0 else Missing(bits, n - 1) + if n - 1 in bits then 0 else 1
  }

  lemma NothingMissing(bits: map<int, byte>, n: nat)
    ensures Missing(bits, n) == 0 <==> Reconstructed(bits, n).Some?
  {
    MissingSome(bits, n);
  }

  lemma {:induction false} MissingCounted(bits: map<int, byte>, n: nat)
    ensures Missing(bits, n) == |set i: nat | i < n && i !in bits|
  {
    var gaps := set i: nat | i < n && i !in bits;
    if n == 0 {
      assert gaps == {};
    } else {
      MissingCounted(bits, n - 1);
      var before := set i: nat | i < n - 1 && i !in bits;
      assert gaps == before + if n - 1 in bits then {} else {n - 1};
    }
  }

  lemma MissingSome(bits: map<int, byte>, n: nat)
    ensures Missing(bits, n) == 0 <==> forall i :: 0 <= i < n ==> i in bits
  {
  }

  class Agent {
    const id: nat
    const isByzantine: bool

    var bits: map<int, byte>
    var messages: Store
    var sealedRound: int
    var blacklist: set<int>

    var sourceQueries: nat
    var messagesSent: nat
    var primaryQueries: nat
    var verifyQueries: nat

    function State(): Peer
      reads this
    {
      Peer(Core(bits, blacklist, verifyQueries), Box(messages, sealedRound),
           sourceQueries, messagesSent, primaryQueries)
    }

    constructor (id: nat, isByzantine: bool)
      ensures this.id == id && this.isByzantine == isByzantine && State() == NEWCOMER
    {
      this.id := id;
      this.isByzantine := isByzantine;
      bits := map[];
      messages := map[];
      sealedRound := -1;
      blacklist := {};
      sourceQueries, messagesSent, primaryQueries, verifyQueries := 0, 0, 0, 0;
    }

    method StoreBit(index: int, bit: byte)
      modifies this`bits
      ensures bits == old(bits)[index := bit]
    {
      bits := bits[index := bit];
    }

    method MissingBitCount(totalBits: nat) returns (missing: nat)
      ensures missing == Missing(bits, totalBits)
    {
      missing := 0;
      for i := 0 to totalBits
        invariant missing == Missing(bits, i)
      {
        if i !in bits {
          missing := missing + 1;
        }
      }
    }

    // The output array, or null if any bit is missing.
    method Reconstruct(totalBits: nat) returns (result: array?<byte>)
      ensures result == null <==> Reconstructed(bits, totalBits).None?
      ensures result != null ==> fresh(result) && Reconstructed(bits, totalBits) == Some(result[..])
    {
      result := new byte[totalBits];
      for i := 0 to totalBits
        invariant result != null && fresh(result) && result.Length == totalBits
        invariant forall x :: 0 <= x < i ==> x in bits && result[x] == bits[x]
      {
        if i !in bits {
          return null;
        }
        result[i] := bits[i];
      }
      assert result[..] == Reconstructed(bits, totalBits).value;
    }

    method SealRound(round: int)
      modifies this`sealedRound
      ensures State() == Seal(old(State()), round)
    {
      if ToInt32(round) > sealedRound {
        sealedRound := ToInt32(round);
      }
    }

    method ForgetRound(round: int)
      modifies this`messages
      ensures State() == Sweep(old(State()), round)
    {
      messages := messages - {round};
    }

    method StoreMessage(msg: Message)
      modifies this`messages
      ensures State() == old(State()).(box := Receive(old(State()).box, msg))
    {
      if ToInt32(msg.round) <= sealedRound {
        return;
      }
      var byTopic := map[];
      if msg.round in messages {
        byTopic := messages[msg.round];
      }
      var held := [];
      if msg.topic in byTopic {
        held := byTopic[msg.topic];
      }
      messages := messages[msg.round := byTopic[msg.topic := held + [msg]]];
    }

    method Messages(round: int, topic: int) returns (msgs: seq<Message>)
      ensures msgs == Lookup(messages, round, topic)
    {
      if round !in messages || topic !in messages[round] {
        return [];
      }
      return messages[round][topic];
    }

    method Blacklist(id: int)
      modifies this`blacklist
      ensures blacklist == old(blacklist) + {id}
    {
      blacklist := blacklist + {id};
    }

    method RecordPrimaryQuery()
      modifies this`primaryQueries
      ensures primaryQueries == old(primaryQueries) + 1
    {
      primaryQueries := primaryQueries + 1;
    }

    method RecordVerifyQuery()
      modifies this`verifyQueries
      ensures verifyQueries == old(verifyQueries) + 1
    {
      verifyQueries := verifyQueries + 1;
    }

    // Asks the source for a bit. The attempt is counted whether or not it succeeds;
    // `fault` is what the network does to it.
    method QueryBit(src: Source, index: int, fault: Option<Fault>) returns (value: byte, err: Option<Fault>)
      requires src.Valid()
      modifies this`sourceQueries, src`queryCount
      ensures sourceQueries == old(sourceQueries) + 1
      ensures err == if fault.None? && !(0 <= index < src.totalBits) then Some(Broken) else fault
      ensures err.None? ==> value == src.bits[index]
      ensures src.queryCount == old(src.queryCount) + if err.None? then 1 else 0
    {
      sourceQueries := sourceQueries + 1;
      if fault.Some? {
        return 0, fault;
      }
      var bit, ok := src.Serve(index);
      return bit, if ok then None else Some(Broken);
    }
  }
}
