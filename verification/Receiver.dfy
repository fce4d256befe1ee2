/** The receiver as it is called: registration and Unwrap, proved against the operations of the
    receiver machine and against the wire format. */
module Receiver {
  import opened Bytes
  import opened Options
  import opened BigEndian
  import opened Memory
  import opened Snp
  import opened Duplex
  import opened Binding
  import opened Aead
  import opened AeadBinding
  import opened LinkTypes
  import opened Packets
  import opened ReceiverMachine

  datatype Arguments = Arguments(id: byte, packet: Buffer, packetLength: nat, header: Buffer, headerLength: nat,
                                 payload: Buffer, payloadCapacity: nat, hasPayloadLength: bool)

  predicate InMemory(a: Arguments, size: nat) {
    && Fits(a.packet, a.packetLength, size)
    && Fits(a.header, a.headerLength, size)
    && Fits(a.payload, a.payloadCapacity, size)
  }

  predicate BuffersGiven(a: Arguments) {
    a.packet.At? && a.payload.At? && a.hasPayloadLength && (a.header.Null? ==> a.headerLength == 0)
  }

  predicate LengthsFit(a: Arguments) {
    && OVERHEAD <= a.packetLength <= OVERHEAD + MAX_PAYLOAD
    && a.payloadCapacity >= a.packetLength - OVERHEAD
  }

  /** The counter that a packet shows and, if the packet is authentic, its payload. */
  function Opened(p: Permutation, key: Key, prefix: Prefix, header: seq<byte>, packet: seq<byte>): Option<seq<byte>>
    requires |packet| >= OVERHEAD
  {
    Open(p, ASCON128A, key, prefix + packet[..4], header, packet[4..])
  }

  /** A packet opens to a payload exactly when it is the packet of that payload under its counter. */
  lemma OpenedIffPacket(p: Permutation, key: Key, prefix: Prefix, header: seq<byte>, packet: seq<byte>, payload: seq<byte>)
    requires |packet| >= OVERHEAD
    ensures Opened(p, key, prefix, header, packet) == Some(payload)
            <==> packet == PacketOf(p, key, prefix, Value(packet[..4]), header, payload)
  {
    hide Open, Seal, Value, ToBytes;
    ToBytesOfValue(packet[..4]);
    OpenIffSeal(p, ASCON128A, key, prefix + packet[..4], header, packet[4..], payload);
    var made := PacketOf(p, key, prefix, Value(packet[..4]), header, payload);
    assert made[..4] == packet[..4] && made[4..] == Seal(p, ASCON128A, key, prefix + packet[..4], header, payload);
    assert packet == packet[..4] + packet[4..] && made == made[..4] + made[4..];
  }

  /** Unwrapping what Wrap made gives back the counter and the payload. */
  lemma WrapThenUnwrap(p: Permutation, key: Key, prefix: Prefix, counter: nat, header: seq<byte>, payload: seq<byte>)
    requires counter < COUNTER_VALUES
    ensures var packet := PacketOf(p, key, prefix, counter, header, payload);
            Value(packet[..4]) == counter && Opened(p, key, prefix, header, packet) == Some(payload)
  {
    hide Open, Seal, Value, ToBytes, Opened;
    var packet := PacketOf(p, key, prefix, counter, header, payload);
    assert packet[..4] == ToBytes(counter, 4);
    ValueOfToBytes(counter, 4);
    FourByteSize();
    OpenedIffPacket(p, key, prefix, header, packet, payload);
  }

  /** A packet that is accepted with another header than the one it was made with, or with another
      counter, shows a collision of the permutation. */
  lemma AcceptedTwiceIsCollision(p: Permutation, key: Key, prefix: Prefix, header1: seq<byte>, packet1: seq<byte>,
                                 header2: seq<byte>, packet2: seq<byte>)
    requires Injective(p) && |packet1| >= OVERHEAD && |packet2| >= OVERHEAD && packet1[4..] == packet2[4..]
    requires || (header1 == header2 && packet1[..4] != packet2[..4])
             || (packet1 == packet2 && header1 != [] && header2 != [] && DifferInOneBlock(16, header1, header2))
    requires Opened(p, key, prefix, header1, packet1).Some? && Opened(p, key, prefix, header2, packet2).Some?
    ensures var step, body := Decrypting(p, ASCON128A), packet1[4..|packet1| - 16];
            var s := Start(p, ASCON128A, key, prefix + packet1[..4], header1);
            var t := Start(p, ASCON128A, key, prefix + packet2[..4], header2);
            Meet(step, 16, s, t, body) || TagsCollide(p, ASCON128A, key, Run(step, s, body).0, Run(step, t, body).0)
  {
    hide Run, Meet, TagsCollide, StartState, Open, DifferInOneBlock;
    var nonce1, nonce2 := prefix + packet1[..4], prefix + packet2[..4];
    assert nonce1[12..] == packet1[..4] && nonce2[12..] == packet2[..4];
    var c := packet1[4..];
    assert c[..|c| - 16] == packet1[4..|packet1| - 16];
    AeadBinding.AcceptedTwiceIsCollision(p, ASCON128A, key, Sealed(nonce1, header1, []), Sealed(nonce2, header2, []), c);
  }

  class Receiver {
    const permutation: Permutation
    const hash: Digest
    var receiverReady: bool
    const peers: array<Peer>
    var stored: map<string, nat>

    ghost predicate Valid()
      reads this
    {
      peers.Length == MAX_PEERS
    }

    ghost function State(): Gateway
      requires Valid()
      reads this, peers
    {
      Gateway(receiverReady, peers[..], stored)
    }

    constructor (permutation: Permutation, hash: Digest)
      ensures Valid() && fresh(peers)
      ensures this.permutation == permutation && this.hash == hash
      ensures State() == Gateway(false, NoPeers(), map[])
    {
      this.permutation := permutation;
      this.hash := hash;
      receiverReady := false;
      peers := new Peer[MAX_PEERS](_ => NO_PEER);
      stored := map[];
    }

    method IndexOf(id: byte) returns (i: nat)
      requires Valid()
      ensures i == FindPeer(peers[..], id)
    {
      i := 0;
      while i < MAX_PEERS
        invariant i <= MAX_PEERS
        invariant forall j | 0 <= j < i :: !(peers[j].used && peers[j].id == id)
      {
        if peers[i].used && peers[i].id == id {
          FindPeerAt(peers[..], id, i);
          return;
        }
        i := i + 1;
      }
      FindPeerAt(peers[..], id, i);
    }

    method Begin(accessible: bool) returns (status: Status)
      requires Valid()
      modifies this`receiverReady, peers
      ensures (State(), status) == ReceiverBegin(old(State()), accessible)
    {
      forall i | 0 <= i < MAX_PEERS {
        peers[i] := NO_PEER;
      }
      assert peers[..] == NoPeers();
      if !accessible {
        receiverReady := false;
        return ERR_NVS;
      }
      receiverReady := true;
      return OK;
    }

    method Register(id: byte, key: Option<Key>, prefix: Option<Prefix>, look: Lookup) returns (status: Status)
      requires Valid()
      modifies peers
      ensures key.Some? && prefix.Some? ==>
        (State(), status) == AddPeer(hash, old(State()), id, key.value, prefix.value, look)
      ensures !(key.Some? && prefix.Some?) ==>
        State() == old(State()) && status == if receiverReady then ERR_BUFFER else ERR_NOT_READY
    {
      hide CounterName, FindPeer, FindFree;
      if !receiverReady {
        return ERR_NOT_READY;
      }
      if key.None? || prefix.None? {
        return ERR_BUFFER;
      }
      var fingerprint := hash(key.value + prefix.value);
      var peer := IndexOf(id);
      if peer == MAX_PEERS {
        peer := FirstFree();
      }
      if peer == MAX_PEERS {
        return ERR_FULL;
      }
      if !look.accessible {
        return ERR_NVS;
      }
      var counterKey := CounterName(fingerprint);
      var hasAccepted := look.isKey && counterKey in stored;
      var lastAccepted := if hasAccepted && look.value then stored[counterKey] else 0;
      peers[peer] := Peer(true, id, key.value, prefix.value, fingerprint, hasAccepted, lastAccepted);
      return OK;
    }

    method FirstFree() returns (i: nat)
      requires Valid()
      ensures i == FindFree(peers[..])
    {
      i := 0;
      while i < MAX_PEERS
        invariant i <= MAX_PEERS
        invariant forall j | 0 <= j < i :: peers[j].used
      {
        if !peers[i].used {
          FindFreeAt(peers[..], i);
          return;
        }
        i := i + 1;
      }
      FindFreeAt(peers[..], i);
    }

    /** Checks the replay counter, stores the new one and raises every entry with the same key. */
    method AcceptCounter(peer: nat, counter: nat, accessible: bool, outcome: Outcome) returns (status: Status)
      requires Valid() && peer < MAX_PEERS && !outcome.Crashes?
      modifies this`stored, peers
      ensures (State(), status) == Accept(old(State()), peer, counter, accessible, outcome)
    {
      hide CounterName;
      if peers[peer].hasAccepted && counter <= peers[peer].lastAccepted {
        return ERR_REPLAY;
      }
      if !accessible {
        return ERR_NVS;
      }
      var fingerprint := peers[peer].fingerprint;
      if TakesEffect(outcome) {
        stored := stored[CounterName(fingerprint) := counter];
      }
      if !outcome.Works? {
        return ERR_NVS;
      }
      ghost var before, storedNow := peers[..], stored;
      var i := 0;
      while i < MAX_PEERS
        invariant i <= MAX_PEERS && stored == storedNow
        invariant forall j | 0 <= j < MAX_PEERS ::
                    peers[j] == if j < i then Raised(before, fingerprint, counter)[j] else before[j]
      {
        if peers[i].used && peers[i].fingerprint == fingerprint {
          peers[i] := peers[i].(hasAccepted := true, lastAccepted := counter);
        }
        i := i + 1;
      }
      assert peers[..] == Raised(before, fingerprint, counter);
      return OK;
    }

    /** Authenticates, then tests for replay, then stores the counter, and only then delivers.  A packet
        that is refused for any reason leaves the payload buffer alone, and one that is not authentic
        changes nothing at all. */
    method Unwrap(mem: array<byte>, a: Arguments, accessible: bool, outcome: Outcome)
        returns (status: Status, payloadLength: nat)
      requires Valid() && !outcome.Crashes? && InMemory(a, mem.Length)
      modifies this`stored, peers, mem
      ensures status == ERR_NOT_READY <==> !receiverReady
      ensures status == ERR_PEER <==> receiverReady && BuffersGiven(a) && FindPeer(old(peers[..]), a.id) == MAX_PEERS
      ensures status == ERR_BUFFER <==> receiverReady && (!BuffersGiven(a)
                                        || (FindPeer(old(peers[..]), a.id) < MAX_PEERS && !LengthsFit(a)))
      ensures receiverReady && BuffersGiven(a) && FindPeer(old(peers[..]), a.id) < MAX_PEERS && LengthsFit(a) ==>
        var i := FindPeer(old(peers[..]), a.id);
        var packet := Read(old(mem[..]), a.packet, a.packetLength);
        var counter := Value(packet[..4]);
        var plaintext := Opened(permutation, old(peers[i]).key, old(peers[i]).prefix,
                                Read(old(mem[..]), a.header, a.headerLength), packet);
        if plaintext.None? then status == ERR_AUTH && State() == old(State())
        else (State(), status) == Accept(old(State()), i, counter, accessible, outcome)
             && (status == OK ==> payloadLength == |plaintext.value|
                                  && mem[..] == Splice(old(mem[..]), a.payload.offset, plaintext.value))
      ensures status != OK ==> payloadLength == 0 && mem[..] == old(mem[..])
      ensures status in {ERR_NOT_READY, ERR_BUFFER, ERR_PEER} ==> State() == old(State())
    {
      hide Splice, Opened, Value, Accept, FindPeer;
      payloadLength := 0;
      if !receiverReady {
        return ERR_NOT_READY, payloadLength;
      }
      if a.packet.Null? || a.payload.Null? || !a.hasPayloadLength {
        return ERR_BUFFER, payloadLength;
      }
      if a.header.Null? && a.headerLength > 0 {
        return ERR_BUFFER, payloadLength;
      }
      var peer := IndexOf(a.id);
      if peer == MAX_PEERS {
        return ERR_PEER, payloadLength;
      }
      if a.packetLength < OVERHEAD || a.packetLength - OVERHEAD > MAX_PAYLOAD {
        return ERR_BUFFER, payloadLength;
      }
      if a.payloadCapacity < a.packetLength - OVERHEAD {
        return ERR_BUFFER, payloadLength;
      }
      var counter, plaintext := OpenPacket(mem, a, peers[peer].key, peers[peer].prefix);
      if plaintext.None? {
        return ERR_AUTH, payloadLength;
      }
      AcceptStatus(State(), peer, counter, accessible, outcome);
      status := AcceptCounter(peer, counter, accessible, outcome);
      if status != OK {
        return;
      }
      Write(mem, a.payload.offset, plaintext.value);
      payloadLength := |plaintext.value|;
    }

    /** Decrypts into a buffer of its own.  Both buffers are stretches of one scratch memory here: the
        ciphertext in front, the plaintext behind it. */
    method OpenPacket(mem: array<byte>, a: Arguments, key: Key, prefix: Prefix)
        returns (counter: nat, plaintext: Option<seq<byte>>)
      requires InMemory(a, mem.Length) && a.packet.At? && LengthsFit(a)
      ensures counter == Value(mem[a.packet.offset..a.packet.offset + a.packetLength][..4])
      ensures plaintext == Opened(permutation, key, prefix, Read(mem[..], a.header, a.headerLength),
                                  Read(mem[..], a.packet, a.packetLength))
      ensures plaintext.Some? ==> |plaintext.value| == a.packetLength - OVERHEAD
    {
      hide Open, Splice, Value, ToBytes;
      ghost var packet := Read(mem[..], a.packet, a.packetLength);
      var cipherLength := a.packetLength - COUNTER_BYTES;
      var start := a.packet.offset;
      counter := ReadCounterBE(mem, start);
      assert packet[..4] == mem[start..start + 4];
      var nonce := new byte[16];
      BuildNonce(nonce, prefix, counter);
      var scratch := new byte[cipherLength + MAX_PAYLOAD];
      ghost var blank := scratch[..];
      assert mem[start + COUNTER_BYTES..start + a.packetLength] == packet[4..];
      Write(scratch, 0, mem[start + COUNTER_BYTES..start + a.packetLength]);
      SpliceHere(blank, 0, packet[4..]);
      ghost var before := scratch[..];
      var ad := if a.header.At? then mem[a.header.offset..a.header.offset + a.headerLength] else [];
      var result, recovered := Decrypt(permutation, ASCON128A, scratch, cipherLength, 0, 0, cipherLength, ad, nonce[..], key);
      if result < 0 {
        plaintext := None;
      } else {
        plaintext := Some(scratch[cipherLength..cipherLength + recovered]);
        SpliceHere(before, cipherLength, Open(permutation, ASCON128A, key, prefix + packet[..4], ad, packet[4..]).value);
      }
    }
  }

  lemma FindPeerAt(peers: seq<Peer>, id: byte, i: nat)
    requires i <= |peers|
    requires i < |peers| ==> peers[i].used && peers[i].id == id
    requires forall j | 0 <= j < i :: !(peers[j].used && peers[j].id == id)
    ensures FindPeer(peers, id) == i
  {
  }

  lemma FindFreeAt(peers: seq<Peer>, i: nat)
    requires i <= |peers|
    requires i < |peers| ==> !peers[i].used
    requires forall j | 0 <= j < i :: peers[j].used
    ensures FindFree(peers) == i
  {
  }

  lemma AcceptStatus(g: Gateway, i: nat, counter: nat, accessible: bool, outcome: Outcome)
    requires i < 8
    ensures Accept(g, i, counter, accessible, outcome).1 in {OK, ERR_REPLAY, ERR_NVS}
  {
  }
}
