/** Where the hash functions start: the source keeps the permuted initialization vectors of the usual
    output lengths in tables.  The tables are what the permutation computes, so every length is treated
    alike, and different lengths start from different states. */
module SpongeStart {
  import opened Bytes
  import opened BigEndian
  import opened Snp
  import opened AsconRounds
  import opened HashTables
  import opened WordBytes
  import opened Binding
  import opened Sponge
  import BytePermutation

  const LENGTH_LIMIT: nat := 0x2000_0000

  // ---------------------------------------------------------------- initialization vectors

  /** Zero stands for output of any length, and so does a length that does not fit. */
  function Length(outlen: nat): (n: nat)
    ensures n < LENGTH_LIMIT
  {
    if outlen >= LENGTH_LIMIT then 0 else outlen
  }

  /** The rate in bits, the twelve rounds, how many of them are left out between blocks, and the length of
      the output in bits. */
  function HashIv(d: Discipline, outlen: nat): (iv: seq<byte>)
    ensures |iv| == 8
  {
    [0x00, ByteOf(8 * d.rateIn), 12, ByteOf(d.first)] + ToBytes(8 * Length(outlen), 4)
  }

  function HashStart(p: Permutation, d: Discipline, outlen: nat): Block { p(HashIv(d, outlen) + Zeros(32), 0) }

  /** The size of the key, the rate of the output, the twelve rounds, no reduced rounds, and the length. */
  function PrfIv(outlen: nat): (iv: seq<byte>)
    ensures |iv| == 8
  {
    [0x80, ByteOf(8 * PRF.rateOut), 0x8c, ByteOf(PRF.first)] + ToBytes(8 * Length(outlen), 4)
  }

  function PrfStart(p: Permutation, key: seq<byte>, outlen: nat): Block
    requires |key| == 16
  {
    p(PrfIv(outlen) + key + Zeros(16), 0)
  }

  /** Two lengths start from the same state exactly if both are zero or too large, or they are equal. */
  lemma SameStartIff(p: Permutation, d: Discipline, outlen1: nat, outlen2: nat)
    requires Injective(p)
    ensures HashStart(p, d, outlen1) == HashStart(p, d, outlen2) <==> Length(outlen1) == Length(outlen2)
  {
    hide ByteOf, ToBytes, Length;
    var a, b := HashIv(d, outlen1) + Zeros(32), HashIv(d, outlen2) + Zeros(32);
    assert a[4..8] == ToBytes(8 * Length(outlen1), 4) && b[4..8] == ToBytes(8 * Length(outlen2), 4);
    SameBytes(8 * Length(outlen1), 8 * Length(outlen2));
  }

  /** So do two keys and lengths of the PRF. */
  lemma SamePrfStartIff(p: Permutation, key1: seq<byte>, outlen1: nat, key2: seq<byte>, outlen2: nat)
    requires Injective(p) && |key1| == |key2| == 16
    ensures PrfStart(p, key1, outlen1) == PrfStart(p, key2, outlen2) <==> key1 == key2 && Length(outlen1) == Length(outlen2)
  {
    hide ByteOf, ToBytes, Length;
    var a, b := PrfIv(outlen1) + key1 + Zeros(16), PrfIv(outlen2) + key2 + Zeros(16);
    assert a[4..8] == ToBytes(8 * Length(outlen1), 4) && b[4..8] == ToBytes(8 * Length(outlen2), 4);
    assert a[8..24] == key1 && b[8..24] == key2;
    SameBytes(8 * Length(outlen1), 8 * Length(outlen2));
  }

  lemma SameBytes(n: nat, m: nat)
    requires n < 8 * LENGTH_LIMIT && m < 8 * LENGTH_LIMIT
    ensures ToBytes(n, 4) == ToBytes(m, 4) <==> n == m
  {
    hide ToBytes, Value;
    ValueOfToBytes(n, 4);
    ValueOfToBytes(m, 4);
    assert Pow256(0) == 1 && Pow256(1) == 0x100 && Pow256(2) == 0x1_0000;
  }

  /** The two hash functions never start from the same state. */
  lemma AlgorithmsApart(p: Permutation, outlen1: nat, outlen2: nat)
    requires Injective(p)
    ensures HashStart(p, XOF, outlen1) != HashStart(p, XOFA, outlen2)
  {
    hide ByteOf, ToBytes;
    var a, b := HashIv(XOF, outlen1) + Zeros(32), HashIv(XOFA, outlen2) + Zeros(32);
    assert a[3] == ByteOf(0) && b[3] == ByteOf(4);
    NumOfByte(0);
    NumOfByte(4);
  }

  // ---------------------------------------------------------------- the branches of the source

  lemma IvWords(iv: seq<byte>)
    requires |iv| == 8
    ensures BytePermutation.LoadWords(iv + Zeros(32)) == Words(LoadWord(iv), 0, 0, 0, 0)
  {
    hide LoadWord;
    var s: Block := iv + Zeros(32);
    assert s[0..8] == iv && s[8..16] == s[16..24] == s[24..32] == s[32..40] == Zeros(8);
    NoBytes();
  }

  lemma NoBytes()
    ensures LoadWord(Zeros(8)) == 0
  {
  }

  lemma LengthBytes()
    ensures ToBytes(0, 4) == [0, 0, 0, 0] && ToBytes(256, 4) == [0, 0, 1, 0]
  {
    hide ByteOf;
    SmallBytes();
    assert ToBytes(0, 1) == [0];
    assert ToBytes(0, 2) == [0, 0];
    assert ToBytes(0, 3) == [0, 0, 0];
    assert ToBytes(1, 1) == [1];
    assert ToBytes(1, 2) == [0, 1];
    assert ToBytes(1, 3) == [0, 0, 1];
  }

  lemma SmallBytes()
    ensures ByteOf(0) == 0 && ByteOf(1) == 1 && ByteOf(4) == 4 && ByteOf(64) == 64
  {
    hide Join;
    Joined();
  }

  lemma Joined()
    ensures Join(false, false, false, false, false, false, false, false) == 0
    ensures Join(false, false, false, false, false, false, false, true) == 1
    ensures Join(false, false, false, false, false, true, false, false) == 4
    ensures Join(false, true, false, false, false, false, false, false) == 64
  {
  }

  lemma IvLoads()
    ensures LoadWord([0x00, 64, 12, 0] + [0, 0, 0, 0]) == 0x00400c0000000000
    ensures LoadWord([0x00, 64, 12, 0] + [0, 0, 1, 0]) == 0x00400c0000000100
    ensures LoadWord([0x00, 64, 12, 4] + [0, 0, 0, 0]) == 0x00400c0400000000
    ensures LoadWord([0x00, 64, 12, 4] + [0, 0, 1, 0]) == 0x00400c0400000100
  {
  }

  lemma Tables()
    ensures HashStart(BytePermutation.Permute, XOF, 0) == BytePermutation.StoreWords(XOF_TABLE)
    ensures HashStart(BytePermutation.Permute, XOF, 32) == BytePermutation.StoreWords(HASH_TABLE)
    ensures HashStart(BytePermutation.Permute, XOFA, 0) == BytePermutation.StoreWords(XOFA_TABLE)
    ensures HashStart(BytePermutation.Permute, XOFA, 32) == BytePermutation.StoreWords(HASHA_TABLE)
  {
    hide ByteOf, ToBytes, LoadWord, Rounds, BytePermutation.LoadWords, BytePermutation.StoreWords;
    SmallBytes();
    LengthBytes();
    IvLoads();
    XofTable();
    HashTable();
    XofaTable();
    HashaTable();
    IvWords([0x00, 64, 12, 0] + [0, 0, 0, 0]);
    IvWords([0x00, 64, 12, 0] + [0, 0, 1, 0]);
    IvWords([0x00, 64, 12, 4] + [0, 0, 0, 0]);
    IvWords([0x00, 64, 12, 4] + [0, 0, 1, 0]);
  }

  /** The source's branches: tables for output of any length and of 32 bytes, and the permutation for every
      other length.  All of them give the permuted initialization vector. */
  method InitFixed(d: Discipline, outlen: nat) returns (s: Block)
    requires d == XOF || d == XOFA
    ensures s == HashStart(BytePermutation.Permute, d, outlen)
  {
    hide HashIv, BytePermutation.StoreWords, BytePermutation.Permute, OverwriteAt;
    Tables();
    var length := if outlen >= LENGTH_LIMIT then 0 else outlen;
    SameIv(d, outlen, length);
    if length == 0 {
      s := BytePermutation.StoreWords(if d == XOF then XOF_TABLE else XOFA_TABLE);
    } else if length == 32 {
      s := BytePermutation.StoreWords(if d == XOF then HASH_TABLE else HASHA_TABLE);
    } else {
      var state := new State(BytePermutation.Permute);
      FrontOverwritten(HashIv(d, length));
      state.OverwriteBytes(HashIv(d, length), 0);
      state.Permute(0);
      s := state.ExtractBytes(0, 40);
    }
  }

  lemma SameIv(d: Discipline, outlen: nat, length: nat)
    requires length == Length(outlen)
    ensures HashIv(d, outlen) == HashIv(d, length)
  {
  }

  lemma FrontOverwritten(iv: seq<byte>)
    requires |iv| == 8
    ensures OverwriteAt(Zeros(40), iv, 0) == iv + Zeros(32)
  {
  }

  method InitPrf(p: Permutation, key: seq<byte>, outlen: nat) returns (s: Block)
    requires |key| == 16
    ensures s == PrfStart(p, key, outlen)
  {
    hide PrfIv, OverwriteAt;
    var state := new State(p);
    KeyOverwritten(PrfIv(outlen), key);
    state.OverwriteBytes(PrfIv(outlen), 0);
    state.OverwriteBytes(key, 8);
    state.Permute(0);
    s := state.ExtractBytes(0, 40);
  }

  lemma KeyOverwritten(iv: seq<byte>, key: seq<byte>)
    requires |iv| == 8 && |key| == 16
    ensures OverwriteAt(OverwriteAt(Zeros(40), iv, 0), key, 8) == iv + key + Zeros(16)
  {
  }
}
