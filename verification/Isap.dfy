/** ISAP: encryption and authentication with keys that are re-derived bit by bit for every message. */
module Isap {
  import opened Bytes
  import opened Options
  import opened Snp
  import opened Duplex
  import opened Memory
  import opened AeadCommon
  import opened BigEndian
  import opened Binding
  import Sponge

  const TAG_SIZE: nat := 16
  const NONCE_SIZE: nat := 16
  const RATE: Rate := 8

  /** Key size and the number of rounds for hashing, encryption, key bits and keying. */
  datatype VariantData = Variant(keySize: nat, sH: nat, sE: nat, sB: nat, sK: nat)

  type Variant = v: VariantData | 16 <= v.keySize <= 20 && v.sH <= 12 && v.sE <= 12 && v.sB <= 12 && v.sK <= 12
    witness Variant(16, 12, 12, 12, 12)

  const ISAP128: Variant := Variant(16, 12, 12, 12, 12)
  const ISAP128A: Variant := Variant(16, 12, 6, 1, 12)
  const ISAP80PQ: Variant := Variant(20, 12, 12, 12, 12)

  /** The permutation states for encryption and authentication, with the key already in them. */
  datatype Keys = Keys(ke: Block, ka: Block)

  // ---------------------------------------------------------------- what is computed

  function Iv(v: Variant, purpose: byte, len: nat): (iv: seq<byte>)
    requires len >= 8
    ensures |iv| == len
  {
    [purpose, SmallByte(v.keySize * 8), 64, 1, SmallByte(v.sH), SmallByte(v.sB), SmallByte(v.sE), SmallByte(v.sK)]
    + Zeros(len - 8)
  }

  function SmallByte(n: nat): byte
    requires n < 0x100
  {
    n as byte
  }

  function Expanded(p: Permutation, v: Variant, k: seq<byte>): Keys
    requires |k| == v.keySize
  {
    Keys(p(k + Iv(v, 3, 40 - |k|), 12 - v.sK), p(k + Iv(v, 2, 40 - |k|), 12 - v.sK))
  }

  /** One bit of a byte, counted from the highest, in the place of the highest bit. */
  function BitOf(value: byte, bit: nat): byte
    requires bit < 8
  {
    (value << bit) & 0x80
  }

  function AddBit(s: Block, value: byte, bit: nat): Block
    requires bit < 8
  {
    s[0 := XorByte(s[0], BitOf(value, bit))]
  }

  /** The state after the first `bits` bits of the data; all but the last are followed by sB rounds. */
  function RekeyedTo(p: Permutation, v: Variant, key: Block, data: seq<byte>, bits: nat): Block
    requires bits <= 8 * |data|
  {
    if bits == 0 then key
    else
      p(AddBit(RekeyedTo(p, v, key, data, bits - 1), data[(bits - 1) / 8], (bits - 1) % 8),
        12 - if bits == 8 * |data| then v.sK else v.sB)
  }

  function Rekeyed(p: Permutation, v: Variant, key: Block, data: seq<byte>): Block {
    RekeyedTo(p, v, key, data, 8 * |data|)
  }

  function Reading(p: Permutation, v: Variant): Step { SqueezeAfterPermute(p, RATE, 12 - v.sE) }

  function KeystreamFrom(p: Permutation, v: Variant, keys: Keys, npub: seq<byte>): Cursor
    requires |npub| == NONCE_SIZE
  {
    Cursor(OverwriteAt(Rekeyed(p, v, keys.ke, npub), npub, 24), 0)
  }

  function Keystream(p: Permutation, v: Variant, keys: Keys, npub: seq<byte>, n: nat): (z: seq<byte>)
    requires |npub| == NONCE_SIZE
    ensures |z| == n
  {
    Run(Reading(p, v), KeystreamFrom(p, v, keys, npub), Zeros(n)).1
  }

  function Crypted(p: Permutation, v: Variant, keys: Keys, npub: seq<byte>, m: seq<byte>): (c: seq<byte>)
    requires |npub| == NONCE_SIZE
    ensures |c| == |m|
  {
    XorBytes(m, Keystream(p, v, keys, npub, |m|))
  }

  function Hashed(p: Permutation, v: Variant, npub: seq<byte>, ad: seq<byte>, c: seq<byte>): Block
    requires |npub| == NONCE_SIZE
  {
    var first := 12 - v.sH;
    var header := AddSeparator(Absorbed(p, RATE, first, p(npub + Iv(v, 1, 24), first), ad, true));
    Absorbed(p, RATE, first, header, c, true)
  }

  /** What the last permutation is run on.  The first part of the hash is the data for re-keying, the
      rest stays in the state. */
  function LastInput(p: Permutation, v: Variant, keys: Keys, hashed: Block): Block {
    var rekeyed := Rekeyed(p, v, keys.ka, ExtractAt(hashed, 0, v.keySize));
    OverwriteAt(rekeyed, ExtractAt(hashed, v.keySize, 40 - v.keySize), v.keySize)
  }

  function MacOf(p: Permutation, v: Variant, keys: Keys, npub: seq<byte>, ad: seq<byte>, c: seq<byte>): (tag: seq<byte>)
    requires |npub| == NONCE_SIZE
    ensures |tag| == TAG_SIZE
  {
    ExtractAt(p(LastInput(p, v, keys, Hashed(p, v, npub, ad, c)), 12 - v.sH), 0, TAG_SIZE)
  }

  function Seal(p: Permutation, v: Variant, keys: Keys, npub: seq<byte>, ad: seq<byte>, m: seq<byte>): (c: seq<byte>)
    requires |npub| == NONCE_SIZE
    ensures |c| == |m| + TAG_SIZE
  {
    var body := Crypted(p, v, keys, npub, m);
    body + MacOf(p, v, keys, npub, ad, body)
  }

  function Open(p: Permutation, v: Variant, keys: Keys, npub: seq<byte>, ad: seq<byte>, c: seq<byte>): (m: Option<seq<byte>>)
    requires |npub| == NONCE_SIZE
    ensures m.Some? ==> |c| == |m.value| + TAG_SIZE
  {
    if |c| < TAG_SIZE then None
    else
      var body := c[..|c| - TAG_SIZE];
      if MacOf(p, v, keys, npub, ad, body) == c[|c| - TAG_SIZE..] then Some(Crypted(p, v, keys, npub, body)) else None
  }

  /** Encrypting twice gives the text back. */
  lemma CryptedTwice(p: Permutation, v: Variant, keys: Keys, npub: seq<byte>, m: seq<byte>)
    requires |npub| == NONCE_SIZE
    ensures Crypted(p, v, keys, npub, Crypted(p, v, keys, npub, m)) == m
  {
    XorTwice(m, Keystream(p, v, keys, npub, |m|));
  }

  /** A string is accepted exactly when it is the encryption of what it decrypts to. */
  lemma OpenIffSeal(p: Permutation, v: Variant, keys: Keys, npub: seq<byte>, ad: seq<byte>, c: seq<byte>, m: seq<byte>)
    requires |npub| == NONCE_SIZE
    ensures Open(p, v, keys, npub, ad, c) == Some(m) <==> c == Seal(p, v, keys, npub, ad, m)
  {
    hide Crypted, MacOf;
    CryptedTwice(p, v, keys, npub, m);
    if c == Seal(p, v, keys, npub, ad, m) {
      assert c[..|c| - TAG_SIZE] == Crypted(p, v, keys, npub, m);
    }
    if Open(p, v, keys, npub, ad, c) == Some(m) {
      CryptedTwice(p, v, keys, npub, c[..|c| - TAG_SIZE]);
      assert c == c[..|c| - TAG_SIZE] + c[|c| - TAG_SIZE..];
    }
  }

  // ---------------------------------------------------------------- re-keying uses every bit

  function Halved(n: nat, times: nat): nat
    decreases times
  {
    if times == 0 then n else Halved(n / 2, times - 1)
  }

  /** The bits of the value of a byte, from the highest. */
  predicate IsSet(b: byte, bit: nat)
    requires bit < 8
  {
    Halved(Num(b), 7 - bit) % 2 == 1
  }

  /** The bits of a string, in order. */
  predicate BitAt(data: seq<byte>, i: nat)
    requires i < 8 * |data|
  {
    IsSet(data[i / 8], i % 8)
  }

  lemma Nibbles(n: nat)
    ensures Halved(n, 0) == n && Halved(n, 1) == n / 2 && Halved(n, 2) == n / 2 / 2 && Halved(n, 3) == n / 2 / 2 / 2
    ensures Halved(n, 4) == Halved(n / 2 / 2 / 2, 1) && Halved(n, 5) == Halved(n / 2 / 2 / 2, 2)
    ensures Halved(n, 6) == Halved(n / 2 / 2 / 2, 3) && Halved(n, 7) == Halved(n / 2 / 2 / 2 / 2, 3)
  {
  }

  lemma BitsOfWeigh(b7: bool, b6: bool, b5: bool, b4: bool, b3: bool, b2: bool, b1: bool, b0: bool)
    ensures var n := Weigh(b7, b6, b5, b4, b3, b2, b1, b0);
            && (Halved(n, 0) % 2 == 1) == b0 && (Halved(n, 1) % 2 == 1) == b1
            && (Halved(n, 2) % 2 == 1) == b2 && (Halved(n, 3) % 2 == 1) == b3
            && (Halved(n, 4) % 2 == 1) == b4 && (Halved(n, 5) % 2 == 1) == b5
            && (Halved(n, 6) % 2 == 1) == b6 && (Halved(n, 7) % 2 == 1) == b7
  {
    hide Twice, Halved;
    var n7 := Twice(0, b7);
    var n6 := Twice(n7, b6);
    var n5 := Twice(n6, b5);
    var n4 := Twice(n5, b4);
    var n3 := Twice(n4, b3);
    var n2 := Twice(n3, b2);
    var n1 := Twice(n2, b1);
    HalfOfTwice(0, b7);
    HalfOfTwice(n7, b6);
    HalfOfTwice(n6, b5);
    HalfOfTwice(n5, b4);
    HalfOfTwice(n4, b3);
    HalfOfTwice(n3, b2);
    HalfOfTwice(n2, b1);
    HalfOfTwice(n1, b0);
    Nibbles(Twice(n1, b0));
    Nibbles(n3);
    Nibbles(n4);
  }

  lemma BitsOfNum(b: byte)
    ensures IsSet(b, 0) == (b & 0x80 != 0) && IsSet(b, 1) == (b & 0x40 != 0)
    ensures IsSet(b, 2) == (b & 0x20 != 0) && IsSet(b, 3) == (b & 0x10 != 0)
    ensures IsSet(b, 4) == (b & 0x08 != 0) && IsSet(b, 5) == (b & 0x04 != 0)
    ensures IsSet(b, 6) == (b & 0x02 != 0) && IsSet(b, 7) == (b & 0x01 != 0)
  {
    hide Weigh, Halved;
    BitsOfWeigh(b & 0x80 != 0, b & 0x40 != 0, b & 0x20 != 0, b & 0x10 != 0,
                b & 0x08 != 0, b & 0x04 != 0, b & 0x02 != 0, b & 0x01 != 0);
  }

  lemma BitOfIsSet(b: byte, bit: nat)
    requires bit < 8
    ensures BitOf(b, bit) == if IsSet(b, bit) then 0x80 else 0
  {
    hide IsSet;
    BitsOfNum(b);
    ShiftedBits(b);
  }

  lemma ShiftedBits(b: byte)
    ensures BitOf(b, 0) == (if b & 0x80 != 0 then 0x80 else 0) && BitOf(b, 1) == if b & 0x40 != 0 then 0x80 else 0
    ensures BitOf(b, 2) == (if b & 0x20 != 0 then 0x80 else 0) && BitOf(b, 3) == if b & 0x10 != 0 then 0x80 else 0
    ensures BitOf(b, 4) == (if b & 0x08 != 0 then 0x80 else 0) && BitOf(b, 5) == if b & 0x04 != 0 then 0x80 else 0
    ensures BitOf(b, 6) == (if b & 0x02 != 0 then 0x80 else 0) && BitOf(b, 7) == if b & 0x01 != 0 then 0x80 else 0
  {
  }

  lemma AddedBits(s: Block, t: Block, a: byte, b: byte, bit: nat)
    requires bit < 8
    ensures s == t ==> (AddBit(s, a, bit) == AddBit(t, b, bit) <==> IsSet(a, bit) == IsSet(b, bit))
    ensures s != t && IsSet(a, bit) == IsSet(b, bit) ==> AddBit(s, a, bit) != AddBit(t, b, bit)
  {
    hide BitOf, IsSet, XorByte;
    BitOfIsSet(a, bit);
    BitOfIsSet(b, bit);
    XorByteCancels(s[0], BitOf(a, bit), BitOf(b, bit));
    XorByteCancels(BitOf(a, bit), s[0], t[0]);
    if s != t && IsSet(a, bit) == IsSet(b, bit) {
      var i :| 0 <= i < 40 && s[i] != t[i];
      assert AddBit(s, a, bit)[i] != AddBit(t, b, bit)[i];
    } else if s == t {
      assert AddBit(s, a, bit)[0] == XorByte(s[0], BitOf(a, bit)) && AddBit(t, b, bit)[0] == XorByte(s[0], BitOf(b, bit));
    }
  }

  /** While the states agree, they go on agreeing exactly if the next bits are the same. */
  lemma NextBitCounts(p: Permutation, v: Variant, key: Block, data1: seq<byte>, data2: seq<byte>, i: nat)
    requires Injective(p) && |data1| == |data2| && i < 8 * |data1|
    requires RekeyedTo(p, v, key, data1, i) == RekeyedTo(p, v, key, data2, i)
    ensures RekeyedTo(p, v, key, data1, i + 1) == RekeyedTo(p, v, key, data2, i + 1) <==> BitAt(data1, i) == BitAt(data2, i)
  {
    hide AddBit, IsSet;
    AddedBits(RekeyedTo(p, v, key, data1, i), RekeyedTo(p, v, key, data2, i), data1[i / 8], data2[i / 8], i % 8);
  }

  /** Different states stay different over the same bits. */
  lemma {:induction false} SameBitsKeepApart(p: Permutation, v: Variant, key1: Block, key2: Block, data1: seq<byte>, data2: seq<byte>,
                                             start: nat, end: nat)
    requires Injective(p) && |data1| == |data2| && start <= end <= 8 * |data1|
    requires RekeyedTo(p, v, key1, data1, start) != RekeyedTo(p, v, key2, data2, start)
    requires forall j | start <= j < end :: BitAt(data1, j) == BitAt(data2, j)
    ensures RekeyedTo(p, v, key1, data1, end) != RekeyedTo(p, v, key2, data2, end)
    decreases end
  {
    hide AddBit, IsSet;
    if start < end {
      SameBitsKeepApart(p, v, key1, key2, data1, data2, start, end - 1);
      assert BitAt(data1, end - 1) == BitAt(data2, end - 1);
      AddedBits(RekeyedTo(p, v, key1, data1, end - 1), RekeyedTo(p, v, key2, data2, end - 1),
                data1[(end - 1) / 8], data2[(end - 1) / 8], (end - 1) % 8);
    }
  }

  lemma {:induction false} SameBitsAgree(p: Permutation, v: Variant, key: Block, data1: seq<byte>, data2: seq<byte>, end: nat)
    requires Injective(p) && |data1| == |data2| && end <= 8 * |data1|
    requires forall j | 0 <= j < end :: BitAt(data1, j) == BitAt(data2, j)
    ensures RekeyedTo(p, v, key, data1, end) == RekeyedTo(p, v, key, data2, end)
    decreases end
  {
    hide RekeyedTo;
    if end > 0 {
      SameBitsAgree(p, v, key, data1, data2, end - 1);
      NextBitCounts(p, v, key, data1, data2, end - 1);
    } else {
      NoBits(p, v, key, data1);
      NoBits(p, v, key, data2);
    }
  }

  lemma NoBits(p: Permutation, v: Variant, key: Block, data: seq<byte>)
    ensures RekeyedTo(p, v, key, data, 0) == key
  {
  }

  /** Data that differ in a single bit, whichever it is, give different keys. */
  lemma EveryBitCounts(p: Permutation, v: Variant, key: Block, data1: seq<byte>, data2: seq<byte>, i: nat)
    requires Injective(p) && |data1| == |data2| && i < 8 * |data1| && BitAt(data1, i) != BitAt(data2, i)
    requires forall j | 0 <= j < 8 * |data1| && j != i :: BitAt(data1, j) == BitAt(data2, j)
    ensures Rekeyed(p, v, key, data1) != Rekeyed(p, v, key, data2)
  {
    hide RekeyedTo;
    SameBitsAgree(p, v, key, data1, data2, i);
    NextBitCounts(p, v, key, data1, data2, i);
    SameBitsKeepApart(p, v, key, key, data1, data2, i + 1, 8 * |data1|);
  }

  /** So do different keys and the same data. */
  lemma KeysStayApart(p: Permutation, v: Variant, key1: Block, key2: Block, data: seq<byte>)
    requires Injective(p) && key1 != key2
    ensures Rekeyed(p, v, key1, data) != Rekeyed(p, v, key2, data)
  {
    hide RekeyedTo;
    NoBits(p, v, key1, data);
    NoBits(p, v, key2, data);
    SameBitsKeepApart(p, v, key1, key2, data, data, 0, 8 * |data|);
  }

  /** Between two bits the permutation runs sB rounds, and behind the last one sK. */
  lemma RoundsOfBits(p: Permutation, v: Variant, key: Block, data: seq<byte>, i: nat) returns (x: Block)
    requires 0 < i <= 8 * |data|
    ensures RekeyedTo(p, v, key, data, i) == p(x, 12 - if i < 8 * |data| then v.sB else v.sK)
    ensures x == RekeyedTo(p, v, key, data, i - 1)[0 := x[0]]
    ensures x[0] == RekeyedTo(p, v, key, data, i - 1)[0] <==> !BitAt(data, i - 1)
  {
    hide BitOf, IsSet, XorByte;
    var s := RekeyedTo(p, v, key, data, i - 1);
    x := AddBit(s, data[(i - 1) / 8], (i - 1) % 8);
    BitOfIsSet(data[(i - 1) / 8], (i - 1) % 8);
    PadBitCounts(s[0]);
    XorByteZero(s[0]);
  }

  // ---------------------------------------------------------------- what else is kept apart

  /** The keys for encryption and authentication differ. */
  lemma PurposesApart(p: Permutation, v: Variant, k: seq<byte>)
    requires Injective(p) && |k| == v.keySize
    ensures Expanded(p, v, k).ke != Expanded(p, v, k).ka
  {
    var a, b := k + Iv(v, 3, 40 - |k|), k + Iv(v, 2, 40 - |k|);
    assert a[|k|] == 3 && b[|k|] == 2;
  }

  /** Both tell any two keys apart, and only through the permutation. */
  lemma KeyEnters(p: Permutation, v: Variant, k1: seq<byte>, k2: seq<byte>)
    requires |k1| == |k2| == v.keySize && k1 != k2
    ensures Injective(p) ==> Expanded(p, v, k1).ke != Expanded(p, v, k2).ke && Expanded(p, v, k1).ka != Expanded(p, v, k2).ka
    ensures Expanded(p, v, k1).ke == Expanded(p, v, k2).ke <==>
              p(k1 + Iv(v, 3, 40 - |k1|), 12 - v.sK) == p(k2 + Iv(v, 3, 40 - |k2|), 12 - v.sK)
    ensures Expanded(p, v, k1).ka == Expanded(p, v, k2).ka <==>
              p(k1 + Iv(v, 2, 40 - |k1|), 12 - v.sK) == p(k2 + Iv(v, 2, 40 - |k2|), 12 - v.sK)
  {
    InputsApart(k1, k2, Iv(v, 3, 40 - |k1|));
    InputsApart(k1, k2, Iv(v, 2, 40 - |k1|));
  }

  lemma InputsApart(k1: seq<byte>, k2: seq<byte>, iv: seq<byte>)
    requires |k1| == |k2| && k1 != k2
    ensures k1 + iv != k2 + iv
  {
    assert (k1 + iv)[..|k1|] == k1 && (k2 + iv)[..|k2|] == k2;
  }

  /** Different nonces start different keystreams. */
  lemma KeystreamsApart(p: Permutation, v: Variant, keys: Keys, npub1: seq<byte>, npub2: seq<byte>)
    requires |npub1| == |npub2| == NONCE_SIZE && npub1 != npub2
    ensures KeystreamFrom(p, v, keys, npub1).s != KeystreamFrom(p, v, keys, npub2).s
  {
    hide Rekeyed;
    assert KeystreamFrom(p, v, keys, npub1).s[24..] == npub1 && KeystreamFrom(p, v, keys, npub2).s[24..] == npub2;
  }

  /** What is authenticated. */
  datatype Text = Text(npub: seq<byte>, ad: seq<byte>, c: seq<byte>)

  /** The hash tells texts apart in which the nonce, or one block of the associated data or of the
      ciphertext, is changed. */
  lemma HashedApart(p: Permutation, v: Variant, a: Text, b: Text)
    requires Injective(p) && |a.npub| == |b.npub| == NONCE_SIZE
    requires || (a.npub != b.npub && a.ad == b.ad && a.c == b.c)
             || (a.npub == b.npub && DifferInOneBlock(RATE, a.ad, b.ad) && a.c == b.c)
             || (a.npub == b.npub && a.ad == b.ad && DifferInOneBlock(RATE, a.c, b.c))
    ensures Hashed(p, v, a.npub, a.ad, a.c) != Hashed(p, v, b.npub, b.ad, b.c)
  {
    hide Absorbed, DifferInBlock, AddSeparator, Iv;
    var first := 12 - v.sH;
    var s, t := p(a.npub + Iv(v, 1, 24), first), p(b.npub + Iv(v, 1, 24), first);
    var headed1, headed2 := Absorbed(p, RATE, first, s, a.ad, true), Absorbed(p, RATE, first, t, b.ad, true);
    if a.c != b.c {
      var n :| DifferInBlock(RATE, a.c, b.c, n);
      AbsorbedApart(p, RATE, first, AddSeparator(headed1), a.c, b.c, n, true);
    } else {
      if a.npub != b.npub {
        assert (a.npub + Iv(v, 1, 24))[..16] == a.npub && (b.npub + Iv(v, 1, 24))[..16] == b.npub;
        AbsorbedKeepsApart(p, RATE, first, s, t, a.ad, true);
      } else {
        var n :| DifferInBlock(RATE, a.ad, b.ad, n);
        AbsorbedApart(p, RATE, first, s, a.ad, b.ad, n, true);
      }
      PaddedApart(headed1, headed2, 0);
      AbsorbedKeepsApart(p, RATE, first, AddSeparator(headed1), AddSeparator(headed2), a.c, true);
    }
  }

  /** Associated data are not confused with ciphertext. */
  lemma PartsApart(p: Permutation, v: Variant, npub: seq<byte>, ad: seq<byte>, c: seq<byte>)
    requires Injective(p) && |npub| == NONCE_SIZE
    ensures Hashed(p, v, npub, ad, c)
         != Absorbed(p, RATE, 12 - v.sH, p(npub + Iv(v, 1, 24), 12 - v.sH), PaddedTo(RATE, ad) + c, true)
  {
    hide Run, EncryptStep, PadAt, AddSeparator, Iv;
    var first := 12 - v.sH;
    var s, step := p(npub + Iv(v, 1, 24), first), EncryptStep(p, RATE, first);
    SeparatorCounts(p, RATE, first, s, ad, c);
    var d, e := Run(step, Cursor(AddSeparator(Absorbed(p, RATE, first, s, ad, true)), 0), c).0,
                Run(step, Cursor(s, 0), PaddedTo(RATE, ad) + c).0;
    PaddedApart(d.s, e.s, d.posn);
  }

  /** The part of the hash that is not used for re-keying reaches the last permutation through the
      state; so equal tags of such texts are a collision of the sixteen bytes read. */
  lemma SameTagIff(p: Permutation, v: Variant, keys: Keys, a: Text, b: Text)
    requires |a.npub| == |b.npub| == NONCE_SIZE
    requires Hashed(p, v, a.npub, a.ad, a.c)[v.keySize..] != Hashed(p, v, b.npub, b.ad, b.c)[v.keySize..]
    ensures var x := LastInput(p, v, keys, Hashed(p, v, a.npub, a.ad, a.c));
            var y := LastInput(p, v, keys, Hashed(p, v, b.npub, b.ad, b.c));
            x != y
            && (MacOf(p, v, keys, a.npub, a.ad, a.c) == MacOf(p, v, keys, b.npub, b.ad, b.c)
                <==> p(x, 12 - v.sH)[..16] == p(y, 12 - v.sH)[..16])
  {
    hide Rekeyed, Hashed;
    var x, y := LastInput(p, v, keys, Hashed(p, v, a.npub, a.ad, a.c)), LastInput(p, v, keys, Hashed(p, v, b.npub, b.ad, b.c));
    assert x[v.keySize..] == Hashed(p, v, a.npub, a.ad, a.c)[v.keySize..];
    assert y[v.keySize..] == Hashed(p, v, b.npub, b.ad, b.c)[v.keySize..];
  }

  // ---------------------------------------------------------------- the key object

  class Key {
    const variant: Variant
    const ke: State
    const ka: State

    ghost predicate Valid()
      reads this, ke, ka
    {
      ke.Valid() && ka.Valid() && ke.B != ka.B && ke.permutation == ka.permutation
    }

    ghost function Now(): Keys
      requires Valid()
      reads this, ke, ka, ke.B, ka.B
    {
      Keys(ke.Bytes(), ka.Bytes())
    }

    ghost function P(): Permutation
      reads ke
    {
      ke.permutation
    }

    constructor (p: Permutation, v: Variant, k: seq<byte>)
      requires |k| == v.keySize
      ensures Valid() && fresh(ke) && fresh(ka) && fresh(ke.B) && fresh(ka.B)
      ensures variant == v && P() == p && Now() == Expanded(p, v, k)
    {
      var first := ExpandedState(p, v, 3, k);
      var second := ExpandedState(p, v, 2, k);
      variant := v;
      ke := first;
      ka := second;
    }

    /** From a key that was saved before. */
    constructor Load(p: Permutation, v: Variant, saved: seq<byte>)
      requires |saved| == 80
      ensures Valid() && fresh(ke) && fresh(ka) && fresh(ke.B) && fresh(ka.B)
      ensures variant == v && P() == p && Now() == Keys(saved[..40], saved[40..])
    {
      var first := LoadedState(p, saved[..40]);
      var second := LoadedState(p, saved[40..]);
      variant := v;
      ke := first;
      ka := second;
    }

    method Save() returns (saved: seq<byte>)
      requires Valid()
      ensures |saved| == 80 && Keys(saved[..40], saved[40..]) == Now()
    {
      var first := ke.ExtractBytes(0, 40);
      var second := ka.ExtractBytes(0, 40);
      saved := first + second;
    }
  }

  method ExpandedState(p: Permutation, v: Variant, purpose: byte, k: seq<byte>) returns (state: State)
    requires |k| == v.keySize
    ensures fresh(state) && fresh(state.B) && state.Valid() && state.permutation == p
    ensures state.Bytes() == p(k + Iv(v, purpose, 40 - |k|), 12 - v.sK)
  {
    hide Iv, OverwriteAt;
    state := new State(p);
    BothParts(state.Bytes(), k, Iv(v, purpose, 40 - |k|));
    state.OverwriteBytes(k, 0);
    state.OverwriteBytes(Iv(v, purpose, 40 - |k|), |k|);
    state.Permute(12 - v.sK);
  }

  method LoadedState(p: Permutation, bytes: Block) returns (state: State)
    ensures fresh(state) && fresh(state.B) && state.Valid() && state.permutation == p
    ensures state.Bytes() == bytes
  {
    state := new State(p);
    OverwriteAll(state.Bytes(), bytes);
    state.OverwriteBytes(bytes, 0);
  }

  lemma BothParts(s: Block, a: seq<byte>, b: seq<byte>)
    requires |a| + |b| == 40
    ensures OverwriteAt(OverwriteAt(s, a, 0), b, |a|) == a + b
  {
  }

  // ---------------------------------------------------------------- the loops

  method AddBitTo(state: State, value: byte, bit: nat)
    requires state.Valid() && bit < 8
    modifies state.B
    ensures state.Bytes() == AddBit(old(state.Bytes()), value, bit)
  {
    hide BitOf, XorByte;
    state.B[0] := XorByte(state.B[0], BitOf(value, bit));
  }

  /** Whatever the state was, the new one depends on the key and the data alone. */
  method Rekey(state: State, v: Variant, key: State, data: seq<byte>)
    requires state.Valid() && key.Valid() && state.B != key.B && |data| > 0
    modifies state.B
    ensures state.Bytes() == Rekeyed(state.permutation, v, key.Bytes(), data)
  {
    hide AddBit;
    state.CopyFrom(key);
    var numBits := |data| * 8 - 1;
    var bit := 0;
    while bit < numBits
      invariant bit <= numBits
      invariant state.Bytes() == RekeyedTo(state.permutation, v, key.Bytes(), data, bit)
    {
      AddBitTo(state, data[bit / 8], bit % 8);
      state.Permute(12 - v.sB);
      bit := bit + 1;
    }
    AddBitTo(state, data[bit / 8], bit % 8);
    state.Permute(12 - v.sK);
  }

  /** How far the encryption has come. */
  ghost predicate Reached(step: Step, start: Cursor, before: seq<byte>, dest: nat, input: seq<byte>,
                          done: nat, c: Cursor, now: seq<byte>)
    requires done <= |input| && dest + |input| <= |before|
  {
    var (mid, out) := Run(step, start, Zeros(done));
    mid == c && now == Splice(before, dest, XorBytes(input[..done], out))
  }

  lemma Reach(p: Permutation, v: Variant, start: Cursor, before: seq<byte>, dest: nat, src: nat, input: seq<byte>,
              done: nat, c: Cursor, now: seq<byte>, n: nat)
    requires done + n <= |input| && dest + |input| <= |before| && src + |input| <= |before|
    requires Ordered(dest, src, |input|) && input == before[src..src + |input|]
    requires c.posn == 0 && 0 < n <= RATE
    requires Reached(Reading(p, v), start, before, dest, input, done, c, now)
    ensures |now| == |before| && now[src + done..src + done + n] == input[done..done + n]
    ensures var s := p(c.s, 12 - v.sE);
            Reached(Reading(p, v), start, before, dest, input, done + n, Cursor(s, if n == RATE then 0 else n),
                    Splice(now, dest + done, XorBytes(input[done..done + n], ExtractAt(s, 0, n))))
  {
    hide Run, Splice, ExtractAt, XorBytes;
    var step := Reading(p, v);
    var (mid, out) := Run(step, start, Zeros(done));
    assert Zeros(done) + Zeros(n) == Zeros(done + n);
    RunConcat(step, start, Zeros(done), Zeros(n));
    Sponge.SqueezeAfterPart(p, RATE, 12 - v.sE, c, n);
    assert input[..done] + input[done..done + n] == input[..done + n];
    var more := ExtractAt(p(c.s, 12 - v.sE), 0, n);
    XorInTwo(input[..done], input[done..done + n], out, more);
    SpliceInTwo(before, dest, XorBytes(input[..done], out), XorBytes(input[done..done + n], more));
    SpliceElsewhere(before, dest, XorBytes(input[..done], out), src + done, src + done + n);
    SliceOfSlice(before, src, |input|, done, n);
  }

  /** Encrypts and decrypts: the input may be where the output goes. */
  method Crypt(state: State, key: Key, npub: seq<byte>, mem: array<byte>, dest: nat, src: nat, len: nat)
    requires state.Valid() && key.Valid() && key.P() == state.permutation && |npub| == NONCE_SIZE
    requires state.B != key.ke.B && state.B != key.ka.B && mem != state.B && mem != key.ke.B && mem != key.ka.B
    requires dest + len <= mem.Length && src + len <= mem.Length && Ordered(dest, src, len)
    modifies state.B, mem
    ensures mem[..] == Splice(old(mem[..]), dest, Crypted(state.permutation, key.variant, key.Now(), npub, old(mem[src..src + len])))
  {
    hide Run, Splice, ExtractAt, XorBytes, OverwriteAt, Rekeyed, Reached;
    var v := key.variant;
    ghost var p, before, input, keys := state.permutation, mem[..], mem[src..src + len], key.Now();
    ghost var start := KeystreamFrom(p, v, keys, npub);
    Rekey(state, v, key.ke, npub);
    state.OverwriteBytes(npub, 24);
    var done := 0;
    ReachedNothing(Reading(p, v), start, before, dest, input);
    while len - done >= RATE
      invariant done <= len
      invariant Reached(Reading(p, v), start, before, dest, input, done, Cursor(state.Bytes(), 0), mem[..])
    {
      Reach(p, v, start, before, dest, src, input, done, Cursor(state.Bytes(), 0), mem[..], RATE);
      state.Permute(12 - v.sE);
      var block := state.ExtractAndAddBytes(mem[src + done..src + done + RATE], 0);
      Write(mem, dest + done, block);
      done := done + RATE;
    }
    if done < len {
      Reach(p, v, start, before, dest, src, input, done, Cursor(state.Bytes(), 0), mem[..], len - done);
      state.Permute(12 - v.sE);
      var block := state.ExtractAndAddBytes(mem[src + done..src + len], 0);
      Write(mem, dest + done, block);
      ReachedAll(Reading(p, v), start, before, dest, input, Cursor(state.Bytes(), len - done), mem[..]);
    } else {
      ReachedAll(Reading(p, v), start, before, dest, input, Cursor(state.Bytes(), 0), mem[..]);
    }
  }

  lemma ReachedNothing(step: Step, start: Cursor, before: seq<byte>, dest: nat, input: seq<byte>)
    requires dest + |input| <= |before|
    ensures Reached(step, start, before, dest, input, 0, start, before)
  {
    assert Zeros(0) == [];
    RunNothing(step, start);
    SpliceNothing(before, dest);
    assert XorBytes(input[..0], []) == [];
  }

  lemma ReachedAll(step: Step, start: Cursor, before: seq<byte>, dest: nat, input: seq<byte>, c: Cursor, now: seq<byte>)
    requires dest + |input| <= |before|
    requires Reached(step, start, before, dest, input, |input|, c, now)
    ensures now == Splice(before, dest, XorBytes(input, Run(step, start, Zeros(|input|)).1))
  {
    assert input[..|input|] == input;
  }

  /** Whatever the state was, the tag depends on the key, the nonce and the two strings alone. */
  method Mac(state: State, key: Key, npub: seq<byte>, ad: seq<byte>, c: seq<byte>) returns (tag: seq<byte>)
    requires state.Valid() && key.Valid() && key.P() == state.permutation && |npub| == NONCE_SIZE
    requires state.B != key.ke.B && state.B != key.ka.B
    modifies state.B
    ensures tag == MacOf(state.permutation, key.variant, key.Now(), npub, ad, c)
  {
    hide Absorbed, AddSeparator, ExtractAt, OverwriteAt, Rekeyed, Iv;
    var v := key.variant;
    BothParts(state.Bytes(), npub, Iv(v, 1, 24));
    state.OverwriteBytes(npub, 0);
    state.OverwriteBytes(Iv(v, 1, 24), 16);
    state.Permute(12 - v.sH);
    Absorb(state, ad, RATE, 12 - v.sH, true);
    state.Separator();
    Absorb(state, c, RATE, 12 - v.sH, true);
    var k := state.ExtractBytes(0, v.keySize);
    var preserve := state.ExtractBytes(v.keySize, 40 - v.keySize);
    Rekey(state, v, key.ka, k);
    state.OverwriteBytes(preserve, v.keySize);
    state.Permute(12 - v.sH);
    tag := state.ExtractBytes(0, TAG_SIZE);
  }

  // ---------------------------------------------------------------- messages

  method Encrypt(key: Key, mem: array<byte>, c: nat, m: nat, mlen: nat, ad: seq<byte>, npub: seq<byte>) returns (clen: nat)
    requires key.Valid() && |npub| == NONCE_SIZE && mem != key.ke.B && mem != key.ka.B
    requires m + mlen <= mem.Length && c + mlen + TAG_SIZE <= mem.Length && Ordered(c, m, mlen)
    modifies mem
    ensures clen == mlen + TAG_SIZE
    ensures mem[..] == Splice(old(mem[..]), c, Seal(key.P(), key.variant, key.Now(), npub, ad, old(mem[m..m + mlen])))
  {
    hide Splice, Crypted, MacOf;
    clen := mlen + TAG_SIZE;
    var state := new State(key.ke.permutation);
    ghost var before := mem[..];
    ghost var body := Crypted(key.P(), key.variant, key.Now(), npub, mem[m..m + mlen]);
    Crypt(state, key, npub, mem, c, m, mlen);
    SpliceHere(before, c, body);
    var tag := Mac(state, key, npub, ad, mem[c..c + mlen]);
    SpliceInTwo(before, c, body, tag);
    Write(mem, c + mlen, tag);
  }

  /** The tag is computed first and checked last; a mismatch wipes the plaintext. */
  method Decrypt(key: Key, mem: array<byte>, m: nat, mlenBefore: nat, c: nat, clen: nat, ad: seq<byte>, npub: seq<byte>)
      returns (result: int, mlen: nat)
    requires key.Valid() && |npub| == NONCE_SIZE && mem != key.ke.B && mem != key.ka.B
    requires c + clen <= mem.Length
    requires clen >= TAG_SIZE ==> m + clen - TAG_SIZE <= mem.Length && Ordered(m, c, clen)
    modifies mem
    ensures clen < TAG_SIZE ==> result == -1 && mlen == mlenBefore && mem[..] == old(mem[..])
    ensures clen >= TAG_SIZE ==> mlen == clen - TAG_SIZE
    ensures clen >= TAG_SIZE ==>
      match Open(key.P(), key.variant, key.Now(), npub, ad, old(mem[c..c + clen]))
      case Some(plaintext) => result == 0 && mem[..] == Splice(old(mem[..]), m, plaintext)
      case None => result == -1 && mem[..] == Splice(old(mem[..]), m, Zeros(mlen))
  {
    hide Splice, Crypted, MacOf;
    if clen < TAG_SIZE {
      return -1, mlenBefore;
    }
    mlen := clen - TAG_SIZE;
    var state := new State(key.ke.permutation);
    ghost var before, sealed := mem[..], mem[c..c + clen];
    assert mem[c..c + mlen] == sealed[..mlen];
    var tag := Mac(state, key, npub, ad, mem[c..c + mlen]);
    ghost var body := Crypted(key.P(), key.variant, key.Now(), npub, sealed[..mlen]);
    Crypt(state, key, npub, mem, m, c, mlen);
    SpliceElsewhere(before, m, body, c + mlen, c + clen);
    SliceOfSlice(before, c, clen, mlen, TAG_SIZE);
    SpliceTwice(before, m, body, Zeros(mlen));
    result := CheckTag(mem, m, mlen, tag, mem[c + mlen..c + clen]);
  }

  /** What was encrypted with a key is decrypted, here in place, with the key saved and loaded again. */
  method ReloadedKeyDecrypts(key: Key, mem: array<byte>, c: nat, m: nat, mlen: nat, ad: seq<byte>, npub: seq<byte>)
      returns (result: int)
    requires key.Valid() && |npub| == NONCE_SIZE && mem != key.ke.B && mem != key.ka.B
    requires m + mlen <= mem.Length && c + mlen + TAG_SIZE <= mem.Length && Ordered(c, m, mlen)
    modifies mem
    ensures result == 0 && mem[c..c + mlen] == old(mem[m..m + mlen])
  {
    hide Splice, Seal, Open;
    ghost var message, before := mem[m..m + mlen], mem[..];
    var saved := key.Save();
    var reloaded := new Key.Load(key.ke.permutation, key.variant, saved);
    var clen := Encrypt(key, mem, c, m, mlen, ad, npub);
    ghost var sealed := Seal(key.P(), key.variant, key.Now(), npub, ad, message);
    SpliceHere(before, c, sealed);
    assert mem[c..c + clen] == sealed;
    OpenIffSeal(key.P(), key.variant, key.Now(), npub, ad, sealed, message);
    ghost var now := mem[..];
    var mlenAgain;
    result, mlenAgain := Decrypt(reloaded, mem, c, 0, c, clen, ad, npub);
    SpliceHere(now, c, message);
  }
}
