/** HMAC over the incremental hash: the key is absorbed in pieces of 32 bytes, so that no buffer of a
    whole block is needed. */
module Hmac {
  import opened Bytes
  import opened Snp
  import opened Duplex
  import opened Sponge

  const HASH_SIZE: nat := 32
  const BLOCK_SIZE: nat := 64
  const IPAD: byte := 0x36
  const OPAD: byte := 0x5c

  /** A hash is a sponge with the state after its initialization vector. */
  datatype Algorithm = Algorithm(p: Permutation, d: Discipline, iv: Block)

  // ---------------------------------------------------------------- what is computed

  function Fresh(alg: Algorithm): (z: SpongeState)
    ensures Proper(alg.d, z)
  {
    At(alg.iv, 0, false)
  }

  function Feed(alg: Algorithm, z: SpongeState, data: seq<byte>): (r: SpongeState)
    requires Proper(alg.d, z)
    ensures Proper(alg.d, r)
  {
    AbsorbedProper(alg.p, alg.d, z, data);
    Absorbed(alg.p, alg.d, z, data)
  }

  function Digest(alg: Algorithm, z: SpongeState): (digest: seq<byte>)
    requires Proper(alg.d, z)
    ensures |digest| == HASH_SIZE
  {
    Squeezed(alg.p, alg.d, z, HASH_SIZE).1
  }

  function Hash(alg: Algorithm, message: seq<byte>): (digest: seq<byte>)
    ensures |digest| == HASH_SIZE
  {
    Digest(alg, Feed(alg, Fresh(alg), message))
  }

  /** The key as one block: hashed if it is too long, and filled up with zeros. */
  function KeyBlock(alg: Algorithm, key: seq<byte>): (block: seq<byte>)
    ensures |block| == BLOCK_SIZE
  {
    var short := if |key| <= BLOCK_SIZE then key else Hash(alg, key);
    short + Zeros(BLOCK_SIZE - |short|)
  }

  function XorPad(s: seq<byte>, pad: byte): (r: seq<byte>)
    ensures |r| == |s|
  {
    seq(|s|, i requires 0 <= i < |s| => XorByte(s[i], pad))
  }

  /** HMAC as defined in section 2 of RFC 2104, for a block of 64 bytes. */
  function Mac(alg: Algorithm, key: seq<byte>, text: seq<byte>): (tag: seq<byte>)
    ensures |tag| == HASH_SIZE
  {
    Hash(alg, XorPad(KeyBlock(alg, key), OPAD) + Hash(alg, XorPad(KeyBlock(alg, key), IPAD) + text))
  }

  /** The hash state after the key block. */
  function Keyed(alg: Algorithm, key: seq<byte>, pad: byte): (z: SpongeState)
    ensures Proper(alg.d, z)
  {
    Feed(alg, Fresh(alg), XorPad(KeyBlock(alg, key), pad))
  }

  function FeedAll(alg: Algorithm, z: SpongeState, chunks: seq<seq<byte>>): (r: SpongeState)
    requires Proper(alg.d, z)
    ensures Proper(alg.d, r)
    decreases |chunks|
  {
    if chunks == [] then z else FeedAll(alg, Feed(alg, z, chunks[0]), chunks[1..])
  }

  /** What finalizing an incremental HMAC gives. */
  function Finished(alg: Algorithm, key: seq<byte>, z: SpongeState): seq<byte>
    requires Proper(alg.d, z)
  {
    Digest(alg, Feed(alg, Keyed(alg, key, OPAD), Digest(alg, z)))
  }

  lemma FeedInTwo(alg: Algorithm, z: SpongeState, a: seq<byte>, b: seq<byte>)
    requires Proper(alg.d, z)
    ensures Feed(alg, Feed(alg, z, a), b) == Feed(alg, z, a + b)
  {
    AbsorbInTwo(alg.p, alg.d, z, a, b);
  }

  lemma FeedNothing(alg: Algorithm, z: SpongeState)
    requires Proper(alg.d, z) && !z.squeezing
    ensures Feed(alg, z, []) == z
  {
    RunNothing(AbsorbStep(alg.p, alg.d), Cursor(z.s, z.count));
  }

  lemma {:induction false} FeedAllIsFeed(alg: Algorithm, z: SpongeState, chunks: seq<seq<byte>>)
    requires Proper(alg.d, z) && !z.squeezing
    ensures FeedAll(alg, z, chunks) == Feed(alg, z, Flatten(chunks))
    decreases |chunks|
  {
    hide Feed;
    if chunks == [] {
      FeedNothing(alg, z);
    } else {
      var next := Feed(alg, z, chunks[0]);
      assert !next.squeezing by { AbsorbedProper(alg.p, alg.d, z, chunks[0]); FeedAbsorbs(alg, z, chunks[0]); }
      FeedAllIsFeed(alg, next, chunks[1..]);
      FeedInTwo(alg, z, chunks[0], Flatten(chunks[1..]));
    }
  }

  lemma FeedAbsorbs(alg: Algorithm, z: SpongeState, data: seq<byte>)
    requires Proper(alg.d, z)
    ensures !Feed(alg, z, data).squeezing
  {
  }

  /** For every key and every way of cutting the text, the incremental form computes HMAC. */
  lemma PiecesAreMac(alg: Algorithm, key: seq<byte>, chunks: seq<seq<byte>>)
    ensures Finished(alg, key, FeedAll(alg, Keyed(alg, key, IPAD), chunks)) == Mac(alg, key, Flatten(chunks))
  {
    hide Feed, Digest, XorPad, KeyBlock;
    var inner, outer := XorPad(KeyBlock(alg, key), IPAD), XorPad(KeyBlock(alg, key), OPAD);
    FeedAbsorbs(alg, Fresh(alg), inner);
    FeedAllIsFeed(alg, Keyed(alg, key, IPAD), chunks);
    FeedInTwo(alg, Fresh(alg), inner, Flatten(chunks));
    FeedInTwo(alg, Fresh(alg), outer, Hash(alg, inner + Flatten(chunks)));
  }

  lemma OnePieceIsMac(alg: Algorithm, key: seq<byte>, text: seq<byte>)
    ensures Finished(alg, key, Feed(alg, Keyed(alg, key, IPAD), text)) == Mac(alg, key, text)
  {
    hide Feed, Digest, XorPad, KeyBlock;
    PiecesAreMac(alg, key, [text]);
    var z := Keyed(alg, key, IPAD);
    assert [text][1..] == [] && Flatten([]) == [];
    assert Flatten([text]) == text + Flatten([]);
    assert text + [] == text;
    assert FeedAll(alg, Feed(alg, z, text), []) == Feed(alg, z, text);
    assert FeedAll(alg, z, [text]) == FeedAll(alg, Feed(alg, z, text), []);
  }

  // ---------------------------------------------------------------- what the key does

  /** Keys of up to a block are the same key exactly if one is the other with zeros behind it. */
  lemma SameKeyIff(alg: Algorithm, key1: seq<byte>, key2: seq<byte>)
    requires |key1| <= |key2| <= BLOCK_SIZE
    ensures KeyBlock(alg, key1) == KeyBlock(alg, key2)
            <==> key2[..|key1|] == key1 && forall i | |key1| <= i < |key2| :: key2[i] == 0
  {
    hide Hash;
    var a, b := KeyBlock(alg, key1), KeyBlock(alg, key2);
    if a == b {
      assert forall i | 0 <= i < |key2| :: key2[i] == b[i];
    }
  }

  /** A longer key stands for its hash. */
  lemma LongKeyIsItsHash(alg: Algorithm, key: seq<byte>, text: seq<byte>)
    requires |key| > BLOCK_SIZE
    ensures Mac(alg, key, text) == Mac(alg, Hash(alg, key), text)
  {
    hide Hash;
  }

  /** The two hashes of a MAC begin with key blocks that differ in every byte, and from which two
      different keys are told apart. */
  lemma MacIsNested(alg: Algorithm, key: seq<byte>, text: seq<byte>) returns (outer: seq<byte>, inner: seq<byte>)
    ensures |outer| == |inner| == BLOCK_SIZE && Mac(alg, key, text) == Hash(alg, outer + Hash(alg, inner + text))
    ensures forall i | 0 <= i < BLOCK_SIZE :: outer[i] != inner[i]
    ensures XorPad(outer, OPAD) == XorPad(inner, IPAD) == KeyBlock(alg, key)
  {
    hide Hash, KeyBlock;
    var block := KeyBlock(alg, key);
    outer, inner := XorPad(block, OPAD), XorPad(block, IPAD);
    forall i | 0 <= i < BLOCK_SIZE
      ensures outer[i] != inner[i] && XorByte(outer[i], OPAD) == block[i] && XorByte(inner[i], IPAD) == block[i]
    {
      PadsApart(block[i]);
    }
  }

  lemma PadsApart(b: byte)
    ensures XorByte(b, OPAD) != XorByte(b, IPAD)
    ensures XorByte(XorByte(b, OPAD), OPAD) == b && XorByte(XorByte(b, IPAD), IPAD) == b
  {
  }

  /** Two texts with the same MAC under one key show a collision of the hash. */
  lemma SameMacIsCollision(alg: Algorithm, key: seq<byte>, text1: seq<byte>, text2: seq<byte>) returns (x: seq<byte>, y: seq<byte>)
    requires text1 != text2 && Mac(alg, key, text1) == Mac(alg, key, text2)
    ensures x != y && Hash(alg, x) == Hash(alg, y)
  {
    hide Hash, KeyBlock;
    var inner, outer := XorPad(KeyBlock(alg, key), IPAD), XorPad(KeyBlock(alg, key), OPAD);
    x, y := inner + text1, inner + text2;
    assert x[BLOCK_SIZE..] == text1 && y[BLOCK_SIZE..] == text2;
    if Hash(alg, x) != Hash(alg, y) {
      var d, e := Hash(alg, x), Hash(alg, y);
      x, y := outer + d, outer + e;
      assert x[BLOCK_SIZE..] == d && y[BLOCK_SIZE..] == e;
    }
  }

  // ---------------------------------------------------------------- the object

  class State {
    const alg: Algorithm
    const hash: Xof

    ghost predicate Valid()
      reads this, hash, hash.state
    {
      hash.Valid() && hash.P() == alg.p && hash.d == alg.d
    }

    ghost function Now(): SpongeState
      requires Valid()
      reads this, hash, hash.state, hash.state.B
    {
      hash.Now()
    }

    constructor (alg: Algorithm, key: seq<byte>)
      ensures Valid() && fresh(hash) && fresh(hash.state) && fresh(hash.state.B)
      ensures this.alg == alg && Now() == Keyed(alg, key, IPAD)
    {
      this.alg := alg;
      hash := new Xof(alg.p, alg.d, alg.iv);
      new;
      AbsorbKey(key, IPAD);
    }

    method Update(input: seq<byte>)
      requires Valid()
      modifies hash, hash.state.B
      ensures Valid() && Now() == Feed(alg, old(Now()), input)
    {
      hash.Absorb(input);
    }

    method FinalizeHash() returns (out: seq<byte>)
      requires Valid()
      modifies hash, hash.state.B
      ensures Valid() && out == Digest(alg, old(Now()))
    {
      out := hash.Squeeze(HASH_SIZE);
    }

    /** Absorbs the formatted key block, 32 bytes at a time, into a hash state that has just been
        initialized. */
    method AbsorbKey(key: seq<byte>, pad: byte)
      requires Valid() && Now() == Fresh(alg)
      modifies hash, hash.state.B
      ensures Valid() && Now() == Keyed(alg, key, pad)
    {
      hide Feed, XorPad, Hash, Digest;
      var posn := 0;
      ghost var block := XorPad(KeyBlock(alg, key), pad);
      FeedNothing(alg, Now());
      assert block[..0] == [];
      if |key| <= BLOCK_SIZE {
        while posn < |key|
          invariant posn <= |key|
          invariant Valid() && Now() == Feed(alg, Fresh(alg), block[..posn])
        {
          var len := if |key| - posn > HASH_SIZE then HASH_SIZE else |key| - posn;
          var temp := XorPad(key[posn..posn + len], pad);
          KeyPart(alg, key, pad, posn, len);
          FeedInTwo(alg, Fresh(alg), block[..posn], temp);
          Update(temp);
          posn := posn + len;
        }
      } else {
        Update(key);
        var temp := FinalizeHash();
        HashUnfolds(alg, key);
        hash.Reinit(alg.iv);
        HashedKeyPart(alg, key, pad);
        Update(XorPad(temp, pad));
        posn := HASH_SIZE;
      }
      while posn < BLOCK_SIZE
        invariant posn <= BLOCK_SIZE && (if |key| <= BLOCK_SIZE then |key| else HASH_SIZE) <= posn
        invariant Valid() && Now() == Feed(alg, Fresh(alg), block[..posn])
      {
        var len := if BLOCK_SIZE - posn > HASH_SIZE then HASH_SIZE else BLOCK_SIZE - posn;
        var temp := seq(len, _ => pad);
        PadPart(alg, key, pad, posn, len);
        FeedInTwo(alg, Fresh(alg), block[..posn], temp);
        Update(temp);
        posn := posn + len;
      }
      assert block[..posn] == block;
    }

    method Reinit(key: seq<byte>)
      requires Valid()
      modifies hash, hash.state.B
      ensures Valid() && Now() == Keyed(alg, key, IPAD)
    {
      hash.Reinit(alg.iv);
      AbsorbKey(key, IPAD);
    }

    method Finalize(key: seq<byte>) returns (out: seq<byte>)
      requires Valid()
      modifies hash, hash.state.B
      ensures Valid() && out == Finished(alg, key, old(Now()))
    {
      var temp := FinalizeHash();
      hash.Reinit(alg.iv);
      AbsorbKey(key, OPAD);
      Update(temp);
      out := FinalizeHash();
    }
  }

  lemma HashUnfolds(alg: Algorithm, message: seq<byte>)
    ensures Hash(alg, message) == Digest(alg, Feed(alg, Fresh(alg), message))
  {
  }

  lemma KeyPart(alg: Algorithm, key: seq<byte>, pad: byte, posn: nat, len: nat)
    requires |key| <= BLOCK_SIZE && posn + len <= |key|
    ensures var block := XorPad(KeyBlock(alg, key), pad);
            block[..posn] + XorPad(key[posn..posn + len], pad) == block[..posn + len]
  {
    hide XorByte;
  }

  lemma HashedKeyPart(alg: Algorithm, key: seq<byte>, pad: byte)
    requires |key| > BLOCK_SIZE
    ensures XorPad(Hash(alg, key), pad) == XorPad(KeyBlock(alg, key), pad)[..HASH_SIZE]
  {
    hide XorByte, Hash;
  }

  lemma PadPart(alg: Algorithm, key: seq<byte>, pad: byte, posn: nat, len: nat)
    requires (if |key| <= BLOCK_SIZE then |key| else HASH_SIZE) <= posn && posn + len <= BLOCK_SIZE
    ensures var block := XorPad(KeyBlock(alg, key), pad);
            block[..posn] + seq(len, _ => pad) == block[..posn + len]
  {
    hide XorByte, Hash;
    ZeroPadded(pad);
  }

  lemma ZeroPadded(pad: byte)
    ensures XorByte(0, pad) == pad
  {
  }

  /** One call for the whole computation. */
  method Compute(alg: Algorithm, key: seq<byte>, input: seq<byte>) returns (out: seq<byte>)
    ensures out == Mac(alg, key, input)
  {
    var state := new State(alg, key);
    state.Update(input);
    OnePieceIsMac(alg, key, input);
    out := state.Finalize(key);
  }
}
