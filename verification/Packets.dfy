/** The wire format: counters, nonces and the layout of a packet. */
module Packets {
  import opened Bytes
  import opened BigEndian
  import opened Memory
  import opened Snp
  import opened Aead
  import opened LinkTypes

  /** Byte by byte, so that the format does not depend on the machine. */
  method WriteCounterBE(mem: array<byte>, at: nat, value: nat)
    requires at + 4 <= mem.Length && value < COUNTER_VALUES
    modifies mem
    ensures mem[..] == Splice(old(mem[..]), at, ToBytes(value, 4))
  {
    hide ByteOf;
    FourBytes(value);
    mem[at] := ByteOf(value / 0x100_0000 % 0x100);
    mem[at + 1] := ByteOf(value / 0x1_0000 % 0x100);
    mem[at + 2] := ByteOf(value / 0x100 % 0x100);
    mem[at + 3] := ByteOf(value % 0x100);
  }

  lemma FourBytes(value: nat)
    ensures ToBytes(value, 4) == [ByteOf(value / 0x100_0000 % 0x100), ByteOf(value / 0x1_0000 % 0x100),
                                  ByteOf(value / 0x100 % 0x100), ByteOf(value % 0x100)]
  {
    hide ByteOf, ToBytes;
    Shifts(value);
    ToBytesNext(value, 3);
    ToBytesNext(value / 0x100, 2);
    ToBytesNext(value / 0x100 / 0x100, 1);
    ToBytesNext(value / 0x100 / 0x100 / 0x100, 0);
  }

  lemma Shifts(value: nat)
    ensures value / 0x100 / 0x100 == value / 0x1_0000
    ensures value / 0x100 / 0x100 / 0x100 == value / 0x100_0000
  {
  }

  lemma ToBytesNext(n: nat, len: nat)
    ensures ToBytes(n, len + 1) == ToBytes(n / 0x100, len) + [ByteOf(n % 0x100)]
    ensures ToBytes(n, 0) == []
  {
  }

  method ReadCounterBE(mem: array<byte>, at: nat) returns (value: nat)
    requires at + 4 <= mem.Length
    ensures value == Value(mem[at..at + 4]) < COUNTER_VALUES && ToBytes(value, 4) == mem[at..at + 4]
  {
    hide Num, Value, ToBytes;
    ghost var bytes := mem[at..at + 4];
    assert bytes[0] == mem[at] && bytes[1] == mem[at + 1] && bytes[2] == mem[at + 2] && bytes[3] == mem[at + 3];
    value := Num(mem[at]) * 0x100_0000 + Num(mem[at + 1]) * 0x1_0000 + Num(mem[at + 2]) * 0x100 + Num(mem[at + 3]);
    ValueOfFour(bytes);
    ToBytesOfValue(bytes);
  }

  lemma ValueOfFour(s: seq<byte>)
    requires |s| == 4
    ensures Value(s) == Num(s[0]) * 0x100_0000 + Num(s[1]) * 0x1_0000 + Num(s[2]) * 0x100 + Num(s[3])
    ensures Value(s) < COUNTER_VALUES
  {
    hide Num;
    assert s[..3][..2] == s[..2] && s[..2][..1] == s[..1] && s[..1][..0] == [];
    assert Value(s[..1]) == Num(s[0]);
    assert Value(s[..2]) == Num(s[0]) * 0x100 + Num(s[1]);
    assert Value(s[..3]) == Value(s[..2]) * 0x100 + Num(s[2]);
  }

  /** The nonce of a message: the prefix of the node, then the counter. */
  function NonceOf(prefix: Prefix, counter: nat): (nonce: seq<byte>)
    ensures |nonce| == 16
  {
    prefix + ToBytes(counter, 4)
  }

  /** Different counters under one prefix, and different prefixes, give different nonces. */
  lemma NoncesDiffer(prefix1: Prefix, counter1: nat, prefix2: Prefix, counter2: nat)
    requires counter1 < COUNTER_VALUES && counter2 < COUNTER_VALUES
    requires NonceOf(prefix1, counter1) == NonceOf(prefix2, counter2)
    ensures prefix1 == prefix2 && counter1 == counter2
  {
    hide ToBytes;
    var n1, n2 := NonceOf(prefix1, counter1), NonceOf(prefix2, counter2);
    assert n1[..12] == prefix1 && n2[..12] == prefix2;
    assert n1[12..] == ToBytes(counter1, 4) && n2[12..] == ToBytes(counter2, 4);
    ValueOfToBytes(counter1, 4);
    ValueOfToBytes(counter2, 4);
    FourByteSize();
  }

  lemma FourByteSize()
    ensures Pow256(4) == COUNTER_VALUES
  {
    assert Pow256(0) == 1 && Pow256(1) == 0x100 && Pow256(2) == 0x1_0000;
  }

  method BuildNonce(nonce: array<byte>, prefix: Prefix, counter: nat)
    requires nonce.Length == 16 && counter < COUNTER_VALUES
    modifies nonce
    ensures nonce[..] == NonceOf(prefix, counter)
  {
    Write(nonce, 0, prefix);
    WriteCounterBE(nonce, 12, counter);
  }

  predicate Within(i: nat, start: nat, length: nat) { start <= i < start + length }

  /** Whether two stretches of memory have a byte in common; a missing buffer has none. */
  method RangesOverlap(a: nat, aLength: nat, b: nat, bLength: nat) returns (overlap: bool)
    ensures overlap <==> exists i :: Within(i, a, aLength) && Within(i, b, bLength)
  {
    if aLength == 0 || bLength == 0 {
      return false;
    }
    overlap := a < b + bLength && b < a + aLength;
    if overlap {
      var i := if a <= b then b else a;
      assert Within(i, a, aLength) && Within(i, b, bLength);
    }
  }

  /** The bytes on the air: the counter, then the ciphertext with its tag. */
  function PacketOf(p: Permutation, key: Key, prefix: Prefix, counter: nat, header: seq<byte>, payload: seq<byte>)
      : (packet: seq<byte>)
    ensures |packet| == |payload| + OVERHEAD
  {
    ToBytes(counter, 4) + Seal(p, ASCON128A, key, NonceOf(prefix, counter), header, payload)
  }

  // ---------------------------------------------------------------- buffers

  /** A pointer argument. */
  datatype Buffer = Null | At(offset: nat)

  predicate Fits(b: Buffer, length: nat, size: nat) {
    b.At? ==> b.offset + length <= size
  }

  function Read(mem: seq<byte>, b: Buffer, length: nat): seq<byte>
    requires Fits(b, length, |mem|)
  {
    if b.Null? then [] else mem[b.offset..b.offset + length]
  }
}
