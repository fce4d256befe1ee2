/** The sender as it is called from one task: loading, provisioning, reset and Wrap, proved against
    the steps of the sender machine and against the wire format. */
module Sender {
  import opened Bytes
  import opened Options
  import opened BigEndian
  import opened Memory
  import opened Snp
  import opened Aead
  import opened LinkTypes
  import opened Packets
  import opened SenderMachine

  // ---------------------------------------------------------------- arguments of Wrap

  datatype Arguments = Arguments(payload: Buffer, payloadLength: nat, header: Buffer, headerLength: nat,
                                 packet: Buffer, packetCapacity: nat, hasPacketLength: bool)

  predicate InMemory(a: Arguments, size: nat) {
    && Fits(a.payload, a.payloadLength, size)
    && Fits(a.header, a.headerLength, size)
    && Fits(a.packet, a.packetCapacity, size)
  }

  /** The packet must not be written over a header that is still to be read. */
  ghost predicate HeaderApart(a: Arguments)
    requires a.packet.At?
  {
    a.header.At? ==> forall i | Within(i, a.header.offset, a.headerLength) :: !Within(i, a.packet.offset, a.packetCapacity)
  }

  ghost predicate Acceptable(a: Arguments) {
    && a.payload.At? && a.packet.At? && a.hasPacketLength
    && (a.header.Null? ==> a.headerLength == 0)
    && a.payloadLength <= MAX_PAYLOAD
    && a.packetCapacity >= a.payloadLength + OVERHEAD
    && HeaderApart(a)
  }

  /** One task and no history: what the class is compared with. */
  function Alone(nvs: Nvs, ram: Ram): Node {
    Node(nvs, ram, [Idle], [], [], {}, {}, {})
  }

  class Sender {
    const permutation: Permutation
    var nvs: Nvs
    var senderReady: bool
    const senderKey: array<byte>
    const senderPrefix: array<byte>
    var senderCounter: nat
    var senderReserved: nat

    ghost predicate Valid()
      reads this
    {
      senderKey.Length == 16 && senderPrefix.Length == 12 && senderKey != senderPrefix
      && senderCounter < COUNTER_VALUES
      && (nvs.reserved.Some? ==> nvs.reserved.value < COUNTER_VALUES)
    }

    ghost function Ram(): Ram
      requires Valid()
      reads this, senderKey, senderPrefix
    {
      SenderMachine.Ram(senderReady, senderKey[..], senderPrefix[..], senderCounter, senderReserved)
    }

    constructor (permutation: Permutation)
      ensures Valid() && fresh(senderKey) && fresh(senderPrefix)
      ensures this.permutation == permutation && nvs == Nvs(None, None, None) && Ram() == EMPTY_RAM
    {
      this.permutation := permutation;
      nvs := Nvs(None, None, None);
      senderReady := false;
      senderKey := new byte[16](_ => 0);
      senderPrefix := new byte[12](_ => 0);
      senderCounter := 0;
      senderReserved := 0;
    }

    method LoadSenderState(access: Access) returns (status: Status)
      requires Valid()
      modifies this, senderKey, senderPrefix
      ensures Valid() && nvs == old(nvs)
      ensures (Ram(), status) == Load(nvs, old(Ram()), access)
    {
      hide Splice;
      senderReady := false;
      if !access.accessible {
        return ERR_NVS;
      }
      if !access.isKey || nvs.key.None? {
        return ERR_NOT_PROVISIONED;
      }
      if !access.key {
        return ERR_NVS;
      }
      Fill(senderKey, nvs.key.value);
      if !access.prefix || nvs.prefix.None? {
        return ERR_NVS;
      }
      Fill(senderPrefix, nvs.prefix.value);
      var reserved := if access.reserved && nvs.reserved.Some? then nvs.reserved.value else 0;
      if reserved < COUNTER_WINDOW {
        Fill(senderKey, Zeros(16));
        Fill(senderPrefix, Zeros(12));
        return ERR_NVS;
      }
      senderCounter := reserved;
      senderReserved := reserved;
      senderReady := true;
      return OK;
    }

    /** Generates key and prefix if there is no key yet; the key is stored last. */
    method Provision(accessible: bool, isKey: bool, rng: bool, key: Key, prefix: Prefix,
                     putPrefix: Outcome, putReserved: Outcome, putKey: Outcome, access: Access) returns (status: Status)
      requires Valid() && !putPrefix.Crashes? && !putReserved.Crashes? && !putKey.Crashes?
      modifies this, senderKey, senderPrefix
      ensures Valid()
      ensures var n := DoProvision(Alone(old(nvs), old(Ram())), accessible, isKey, rng, key, prefix,
                                   putPrefix, putReserved, putKey, access);
              nvs == n.nvs && Ram() == n.ram
      ensures status == OK ==> Ram().ready && nvs.key == Some(Ram().key) && nvs.prefix == Some(Ram().prefix)
      ensures status == OK && !(isKey && old(nvs).key.Some?) ==> nvs == Nvs(Some(key), Some(prefix), Some(COUNTER_WINDOW))
      ensures accessible && isKey && old(nvs).key.Some? ==> nvs == old(nvs) && status == Load(nvs, old(Ram()), access).1
      ensures accessible && !(isKey && old(nvs).key.Some?) ==>
        (status == OK <==> rng && putPrefix.Works? && putReserved.Works? && putKey.Works? && access == EVERY_ACCESS)
    {
      hide Load;
      if !accessible {
        return ERR_NVS;
      }
      if !(isKey && nvs.key.Some?) {
        if !rng {
          return ERR_RNG;
        }
        if TakesEffect(putPrefix) {
          nvs := nvs.(prefix := Some(prefix));
        }
        if !putPrefix.Works? {
          return ERR_NVS;
        }
        if TakesEffect(putReserved) {
          nvs := nvs.(reserved := Some(COUNTER_WINDOW));
        }
        if !putReserved.Works? {
          return ERR_NVS;
        }
        if TakesEffect(putKey) {
          nvs := nvs.(key := Some(key));
        }
        if !putKey.Works? {
          return ERR_NVS;
        }
      }
      status := LoadSenderState(access);
    }

    method FactoryReset(accessible: bool, outcome: Outcome, left: Nvs) returns (status: Status)
      requires Valid() && !outcome.Crashes? && Remains(left, nvs)
      modifies this, senderKey, senderPrefix
      ensures Valid()
      ensures var n := DoFactoryReset(Alone(old(nvs), old(Ram())), accessible, outcome, left);
              nvs == n.nvs && Ram() == n.ram
      ensures status == if accessible && outcome.Works? then OK else ERR_NVS
      ensures status == OK ==> nvs == Nvs(None, None, None) && !senderReady && Ram() == EMPTY_RAM
      ensures status != OK ==> Ram() == old(Ram()) && Remains(nvs, old(nvs))
    {
      if !accessible {
        return ERR_NVS;
      }
      nvs := if outcome.Works? then Nvs(None, None, None) else left;
      if !outcome.Works? {
        return ERR_NVS;
      }
      Fill(senderKey, Zeros(16));
      Fill(senderPrefix, Zeros(12));
      senderCounter := 0;
      senderReserved := 0;
      senderReady := false;
      return OK;
    }

    method ReserveCounters(accessible: bool, outcome: Outcome) returns (status: Status)
      requires Valid() && !outcome.Crashes?
      modifies this`nvs, this`senderReserved
      ensures Valid()
      ensures var value := Reservation(senderCounter);
              && nvs == (if accessible && TakesEffect(outcome) then old(nvs).(reserved := Some(value)) else old(nvs))
              && senderReserved == (if accessible && outcome.Works? && value > old(senderReserved)
                                    then value else old(senderReserved))
      ensures status == if accessible && outcome.Works? then OK else ERR_NVS
    {
      if !accessible {
        return ERR_NVS;
      }
      var reservation := (senderCounter + COUNTER_WINDOW) % COUNTER_VALUES;
      if TakesEffect(outcome) {
        nvs := nvs.(reserved := Some(reservation));
      }
      if !outcome.Works? {
        return ERR_NVS;
      }
      if reservation > senderReserved {
        senderReserved := reservation;
      }
      return OK;
    }

    /** The part of Wrap that hands out a counter. */
    method NextCounter(accessible: bool, outcome: Outcome) returns (status: Status, counter: nat)
      requires Valid() && senderReady && !outcome.Crashes?
      modifies this`nvs, this`senderReserved, this`senderCounter
      ensures Valid()
      ensures var n := Wrapped(Alone(old(nvs), old(Ram())), 0, accessible, outcome);
              && nvs == n.nvs && Ram() == n.ram
              && (status == OK <==> |n.uses| == 1)
              && (status == OK ==> n.uses[0].counter == counter == old(senderCounter))
      ensures status == OK <==> old(senderCounter) < COUNTER_LIMIT
                                && (old(senderCounter) < old(senderReserved) || (accessible && outcome.Works?))
      ensures status == ERR_EXHAUSTED <==> old(senderCounter) >= COUNTER_LIMIT
      ensures status in {OK, ERR_EXHAUSTED, ERR_NVS}
    {
      counter := 0;
      var exhausted := senderCounter >= COUNTER_LIMIT;
      var needsReservation := senderCounter >= senderReserved;
      if exhausted {
        return ERR_EXHAUSTED, counter;
      }
      if needsReservation {
        status := ReserveCounters(accessible, outcome);
        if status != OK {
          return;
        }
      }
      if senderCounter >= COUNTER_LIMIT {
        return ERR_EXHAUSTED, counter;
      }
      if senderCounter >= senderReserved {
        return ERR_NVS, counter;
      }
      counter := senderCounter;
      senderCounter := (senderCounter + 1) % COUNTER_VALUES;
      return OK, counter;
    }

    /** Encrypts the payload into a packet; payload and packet may overlap in any way. */
    method Wrap(mem: array<byte>, a: Arguments, accessible: bool, outcome: Outcome) returns (status: Status, packetLength: nat)
      requires Valid() && !outcome.Crashes?
      requires InMemory(a, mem.Length) && mem != senderKey && mem != senderPrefix
      modifies mem, this`nvs, this`senderReserved, this`senderCounter
      ensures Valid()
      ensures var n := Wrapped(Alone(old(nvs), old(Ram())), 0, accessible, outcome);
              if old(senderReady) && Acceptable(a) then nvs == n.nvs && Ram() == n.ram && (status == OK <==> |n.uses| == 1)
              else nvs == old(nvs) && Ram() == old(Ram())
      ensures status == ERR_NOT_READY <==> !old(senderReady)
      ensures status == ERR_BUFFER <==> old(senderReady) && !Acceptable(a)
      ensures status == ERR_EXHAUSTED <==> old(senderReady) && Acceptable(a) && old(senderCounter) >= COUNTER_LIMIT
      ensures status in {OK, ERR_NOT_READY, ERR_BUFFER, ERR_EXHAUSTED, ERR_NVS}
      ensures status == OK ==>
        && packetLength == a.payloadLength + OVERHEAD
        && mem[..] == Splice(old(mem[..]), a.packet.offset,
                             PacketOf(permutation, senderKey[..], senderPrefix[..], old(senderCounter),
                                      Read(old(mem[..]), a.header, a.headerLength), Read(old(mem[..]), a.payload, a.payloadLength)))
      ensures status != OK ==> packetLength == 0 && mem[..] == old(mem[..])
    {
      hide Splice, PacketOf, Wrapped, Read;
      packetLength := 0;
      if !senderReady {
        return ERR_NOT_READY, packetLength;
      }
      if a.payload.Null? || a.packet.Null? || !a.hasPacketLength {
        return ERR_BUFFER, packetLength;
      }
      if a.header.Null? && a.headerLength > 0 {
        return ERR_BUFFER, packetLength;
      }
      if a.payloadLength > MAX_PAYLOAD || a.packetCapacity < a.payloadLength + OVERHEAD {
        return ERR_BUFFER, packetLength;
      }
      if a.header.At? {
        var overlap := RangesOverlap(a.header.offset, a.headerLength, a.packet.offset, a.packetCapacity);
        if overlap {
          return ERR_BUFFER, packetLength;
        }
      }
      assert Acceptable(a);
      var counter;
      status, counter := NextCounter(accessible, outcome);
      if status != OK {
        return;
      }
      packetLength := BuildPacket(mem, a, counter);
    }

    method BuildPacket(mem: array<byte>, a: Arguments, counter: nat) returns (packetLength: nat)
      requires Valid() && Acceptable(a) && counter < COUNTER_VALUES
      requires InMemory(a, mem.Length) && mem != senderKey && mem != senderPrefix
      modifies mem
      ensures packetLength == a.payloadLength + OVERHEAD
      ensures mem[..] == Splice(old(mem[..]), a.packet.offset,
                                PacketOf(permutation, senderKey[..], senderPrefix[..], counter,
                                         Read(old(mem[..]), a.header, a.headerLength), Read(old(mem[..]), a.payload, a.payloadLength)))
    {
      hide Splice, Seal, ToBytes, HeaderApart;
      var nonce := new byte[16];
      BuildNonce(nonce, senderPrefix[..], counter);
      ghost var before := mem[..];
      ghost var payload, header := Read(before, a.payload, a.payloadLength), Read(before, a.header, a.headerLength);
      var cipherStart := a.packet.offset + COUNTER_BYTES;
      Move(mem, cipherStart, a.payload.offset, a.payloadLength);
      HeaderKept(a, before, payload);
      var ad := if a.header.At? then mem[a.header.offset..a.header.offset + a.headerLength] else [];
      assert mem[cipherStart..cipherStart + a.payloadLength] == payload by { SpliceHere(before, cipherStart, payload); }
      var cipherLength := Encrypt(permutation, ASCON128A, mem, cipherStart, cipherStart, a.payloadLength,
                                  ad, nonce[..], senderKey[..]);
      ghost var sealed := Seal(permutation, ASCON128A, senderKey[..], NonceOf(senderPrefix[..], counter), header, payload);
      SpliceOver(before, cipherStart, payload, sealed);
      SpliceBefore(before, a.packet.offset, ToBytes(counter, 4), sealed);
      WriteCounterBE(mem, a.packet.offset, counter);
      packetLength := COUNTER_BYTES + cipherLength;
    }
  }

  lemma HeaderKept(a: Arguments, before: seq<byte>, payload: seq<byte>)
    requires Acceptable(a) && InMemory(a, |before|) && |payload| == a.payloadLength
    ensures a.header.At? ==>
      Splice(before, a.packet.offset + COUNTER_BYTES, payload)[a.header.offset..a.header.offset + a.headerLength]
      == before[a.header.offset..a.header.offset + a.headerLength]
  {
    if a.header.At? {
      var now, start := Splice(before, a.packet.offset + COUNTER_BYTES, payload), a.header.offset;
      forall i | start <= i < start + a.headerLength
        ensures now[i] == before[i]
      {
        assert Within(i, a.header.offset, a.headerLength);
      }
    }
  }

  method Fill(a: array<byte>, data: seq<byte>)
    requires a.Length == |data|
    modifies a
    ensures a[..] == data
  {
    Write(a, 0, data);
  }
}
