/** HKDF: extraction, and an expansion that can be read in any number of calls. */
module Hkdf {
  import opened Bytes
  import opened BigEndian
  import opened Hmac
  import opened Options

  const LAST_BLOCK: nat := 255
  const LIMIT: nat := 255 * 32

  // ---------------------------------------------------------------- what is computed

  /** The pseudorandom key of section 2.2 of RFC 5869. */
  function Extracted(alg: Algorithm, key: seq<byte>, salt: seq<byte>): (prk: seq<byte>)
    ensures |prk| == HASH_SIZE
  {
    Mac(alg, salt, key)
  }

  /** No salt is the same as a salt of zeros. */
  lemma NoSaltIsZeros(alg: Algorithm, key: seq<byte>, n: nat)
    requires n <= BLOCK_SIZE
    ensures Extracted(alg, key, []) == Extracted(alg, key, Zeros(n))
  {
    hide Hash;
    SameKeyIff(alg, [], Zeros(n));
  }

  /** T(i) of section 2.3 of RFC 5869. */
  function OutputBlock(alg: Algorithm, prk: seq<byte>, info: seq<byte>, i: nat): (t: seq<byte>)
    requires i <= LAST_BLOCK
    ensures |t| == if i == 0 then 0 else HASH_SIZE
  {
    if i == 0 then [] else Mac(alg, prk, OutputBlock(alg, prk, info, i - 1) + info + [ByteOf(i)])
  }

  /** T(1) | T(2) | ... | T(n). */
  function Stream(alg: Algorithm, prk: seq<byte>, info: seq<byte>, n: nat): (okm: seq<byte>)
    requires n <= LAST_BLOCK
    ensures |okm| == n * HASH_SIZE
  {
    if n == 0 then [] else Stream(alg, prk, info, n - 1) + OutputBlock(alg, prk, info, n)
  }

  /** Reading `outlen` bytes from a position of the stream: past its end there are only zeros, and the
      reader is told. */
  function Reading(okm: seq<byte>, position: nat, outlen: nat): (r: (int, seq<byte>, nat))
    requires position <= |okm|
    ensures |r.1| == outlen && position <= r.2 <= |okm|
  {
    if position + outlen <= |okm| then (0, okm[position..position + outlen], position + outlen)
    else (-1, okm[position..] + Zeros(position + outlen - |okm|), |okm|)
  }

  /** Two reads give what one read of the whole length gives. */
  lemma ReadInTwo(okm: seq<byte>, position: nat, n: nat, m: nat)
    requires position <= |okm|
    ensures var (r1, out1, middle) := Reading(okm, position, n);
            var (r2, out2, end) := Reading(okm, middle, m);
            Reading(okm, position, n + m) == (if r1 == 0 && r2 == 0 then 0 else -1, out1 + out2, end)
  {
    var middle := Reading(okm, position, n).2;
    if position + n + m <= |okm| {
      assert okm[position..position + n] + okm[middle..middle + m] == okm[position..position + n + m];
    } else if position + n <= |okm| {
      assert okm[position..middle] + okm[middle..] == okm[position..];
      assert okm[position..middle] + (okm[middle..] + Zeros(middle + m - |okm|))
          == okm[position..] + Zeros(position + n + m - |okm|);
    } else {
      assert Zeros(position + n - |okm|) + Zeros(m) == Zeros(position + n + m - |okm|);
      assert Reading(okm, middle, m).1 == Zeros(m);
      assert okm[position..] + Zeros(position + n - |okm|) + Zeros(m)
          == okm[position..] + (Zeros(position + n - |okm|) + Zeros(m));
    }
  }

  function Sum(lengths: seq<nat>): nat {
    if lengths == [] then 0 else lengths[0] + Sum(lengths[1..])
  }

  /** A sequence of reads: what they return together, with -1 if one of them did. */
  function Readings(okm: seq<byte>, position: nat, lengths: seq<nat>): (r: (int, seq<byte>, nat))
    requires position <= |okm|
    decreases |lengths|
  {
    if lengths == [] then (0, [], position)
    else
      var (r1, out1, middle) := Reading(okm, position, lengths[0]);
      var (r2, out2, end) := Readings(okm, middle, lengths[1..]);
      (if r1 == 0 && r2 == 0 then 0 else -1, out1 + out2, end)
  }

  /** Any sequence of reads gives what one read of the whole length gives. */
  lemma {:induction false} ReadingsAreOne(okm: seq<byte>, position: nat, lengths: seq<nat>)
    requires position <= |okm|
    ensures Readings(okm, position, lengths) == Reading(okm, position, Sum(lengths))
    decreases |lengths|
  {
    if lengths != [] {
      ReadingsAreOne(okm, Reading(okm, position, lengths[0]).2, lengths[1..]);
      ReadInTwo(okm, position, lengths[0], Sum(lengths[1..]));
    }
  }

  lemma {:induction false} StreamPrefix(alg: Algorithm, prk: seq<byte>, info: seq<byte>, n: nat, m: nat)
    requires n <= m <= LAST_BLOCK
    ensures Stream(alg, prk, info, n) == Stream(alg, prk, info, m)[..n * HASH_SIZE]
    decreases m - n
  {
    hide OutputBlock;
    if n < m {
      assert Stream(alg, prk, info, m) == Stream(alg, prk, info, m - 1) + OutputBlock(alg, prk, info, m);
      StreamPrefix(alg, prk, info, n, m - 1);
    }
  }

  /** Block i of the stream, where it stands. */
  lemma BlockInStream(alg: Algorithm, prk: seq<byte>, info: seq<byte>, i: nat)
    requires 0 < i <= LAST_BLOCK
    ensures OutputBlock(alg, prk, info, i) == Stream(alg, prk, info, LAST_BLOCK)[(i - 1) * HASH_SIZE..i * HASH_SIZE]
  {
    StreamPrefix(alg, prk, info, i, LAST_BLOCK);
    var okm := Stream(alg, prk, info, LAST_BLOCK);
    assert Stream(alg, prk, info, i) == okm[..i * HASH_SIZE];
    assert Stream(alg, prk, info, i)[(i - 1) * HASH_SIZE..] == OutputBlock(alg, prk, info, i);
  }

  /** No two blocks of the stream are made from the same text. */
  lemma BlocksHaveTheirOwnText(alg: Algorithm, prk: seq<byte>, info: seq<byte>, i: nat, j: nat)
      returns (x: seq<byte>, y: seq<byte>)
    requires 0 < i < j <= LAST_BLOCK
    ensures OutputBlock(alg, prk, info, i) == Mac(alg, prk, x) && OutputBlock(alg, prk, info, j) == Mac(alg, prk, y)
    ensures x != y
  {
    hide Mac, ByteOf, Num;
    x := OutputBlock(alg, prk, info, i - 1) + info + [ByteOf(i)];
    y := OutputBlock(alg, prk, info, j - 1) + info + [ByteOf(j)];
    NumOfByte(i);
    NumOfByte(j);
    assert x[|x| - 1] == ByteOf(i) && y[|y| - 1] == ByteOf(j);
  }

  /** Nor are the blocks of two info strings, at any place. */
  lemma InfoEnters(alg: Algorithm, prk: seq<byte>, info1: seq<byte>, info2: seq<byte>, i: nat)
      returns (x: seq<byte>, y: seq<byte>)
    requires 0 < i <= LAST_BLOCK && info1 != info2
    ensures OutputBlock(alg, prk, info1, i) == Mac(alg, prk, x) && OutputBlock(alg, prk, info2, i) == Mac(alg, prk, y)
    ensures x != y
  {
    hide Mac, ByteOf;
    var a, b := OutputBlock(alg, prk, info1, i - 1), OutputBlock(alg, prk, info2, i - 1);
    x, y := a + info1 + [ByteOf(i)], b + info2 + [ByteOf(i)];
    assert x[|a|..|x| - 1] == info1 && y[|b|..|y| - 1] == info2;
  }

  lemma PartOfBlock(stream: seq<byte>, block: seq<byte>, at: nat, from: nat, len: nat)
    requires at + |block| <= |stream| && stream[at..at + |block|] == block && from + len <= |block|
    ensures block[from..from + len] == stream[at + from..at + from + len]
  {
    var left, right := block[from..from + len], stream[at + from..at + from + len];
    forall i | 0 <= i < len
      ensures left[i] == right[i]
    {
      assert left[i] == stream[at..at + |block|][from + i] == stream[at + from + i];
    }
  }

  lemma BlockUnfolds(alg: Algorithm, prk: seq<byte>, info: seq<byte>, i: nat)
    requires 0 < i <= LAST_BLOCK
    ensures OutputBlock(alg, prk, info, i)
         == Mac(alg, prk, (if i == 1 then [] else OutputBlock(alg, prk, info, i - 1)) + info + [ByteOf(i)])
  {
    hide Mac, ByteOf;
  }

  // ---------------------------------------------------------------- the object

  class State {
    const alg: Algorithm
    var prk: seq<byte>
    var out: seq<byte>
    var counter: byte
    var posn: nat

    ghost predicate Valid()
      reads this
    {
      |prk| == HASH_SIZE && |out| == HASH_SIZE && posn <= HASH_SIZE && (Num(counter) == 1 ==> posn == HASH_SIZE)
    }

    /** The number of blocks made so far: the counter has gone around once the last one is made. */
    ghost function Made(): (n: nat)
      reads this
      ensures n <= LAST_BLOCK
    {
      if Num(counter) == 0 then LAST_BLOCK else Num(counter) - 1
    }

    /** All calls so far were made with this info string. */
    ghost predicate Follows(info: seq<byte>)
      requires Valid()
      reads this
    {
      Made() > 0 ==> out == OutputBlock(alg, prk, info, Made())
    }

    /** The number of bytes handed out. */
    ghost function Position(): (n: int)
      requires Valid()
      reads this
    {
      Made() * HASH_SIZE - (HASH_SIZE - posn)
    }

    constructor Extract(alg: Algorithm, key: seq<byte>, salt: seq<byte>)
      ensures Valid() && this.alg == alg && prk == Extracted(alg, key, salt)
      ensures Made() == 0 && posn == HASH_SIZE
      ensures forall info :: Follows(info)
    {
      hide Mac, OutputBlock, ByteOf, Num;
      this.alg := alg;
      out := Zeros(HASH_SIZE);
      counter := ByteOf(1);
      posn := HASH_SIZE;
      prk := Zeros(HASH_SIZE);
      new;
      NumOfByte(1);
      prk := Compute(alg, salt, key);
    }

    /** The next `outlen` bytes of the stream; -1 exactly when the stream ends before that. */
    method Expand(info: seq<byte>, outlen: nat) returns (result: int, okm: seq<byte>)
      requires Valid() && Follows(info)
      modifies this
      ensures Valid() && Follows(info) && prk == old(prk)
      ensures 0 <= old(Position()) <= LIMIT
      ensures (result, okm, Position()) == Reading(Stream(alg, prk, info, LAST_BLOCK), old(Position()), outlen)
    {
      hide Stream, OutputBlock, Num, ByteOf;
      ghost var stream, start := Stream(alg, prk, info, LAST_BLOCK), Position();
      okm := LeftOver(info, outlen);
      while outlen > |okm|
        invariant Valid() && Follows(info) && prk == old(prk)
        invariant |okm| <= outlen && (|okm| < outlen ==> posn == HASH_SIZE)
        invariant Position() == start + |okm| <= LIMIT
        invariant okm == stream[start..start + |okm|]
      {
        if Num(counter) == 0 {
          assert Position() == LIMIT == |stream| && stream[start..LIMIT] == stream[start..];
          okm := okm + Zeros(outlen - |okm|);
          return -1, okm;
        }
        var part := Refill(info, outlen - |okm|);
        okm := okm + part;
      }
      return 0, okm;
    }

    /** What is left of the last block. */
    method LeftOver(info: seq<byte>, outlen: nat) returns (part: seq<byte>)
      requires Valid() && Follows(info)
      modifies this`posn
      ensures Valid() && Follows(info)
      ensures 0 <= old(Position()) && Position() == old(Position()) + |part| <= LIMIT
      ensures |part| <= outlen && (|part| < outlen ==> posn == HASH_SIZE)
      ensures part == Stream(alg, prk, info, LAST_BLOCK)[old(Position())..Position()]
    {
      hide Stream, OutputBlock, Num, ByteOf;
      var len := if HASH_SIZE - posn > outlen then outlen else HASH_SIZE - posn;
      part := out[posn..posn + len];
      if Made() > 0 {
        BlockInStream(alg, prk, info, Made());
        PartOfBlock(Stream(alg, prk, info, LAST_BLOCK), out, (Made() - 1) * HASH_SIZE, posn, len);
      }
      posn := posn + len;
    }

    /** Makes the next block and takes the beginning of it. */
    method Refill(info: seq<byte>, outlen: nat) returns (part: seq<byte>)
      requires Valid() && Follows(info) && Num(counter) > 0 && posn == HASH_SIZE && outlen > 0
      modifies this
      ensures Valid() && Follows(info) && prk == old(prk)
      ensures 0 <= old(Position()) && Position() == old(Position()) + |part| <= LIMIT
      ensures 0 < |part| <= outlen && (|part| < outlen ==> posn == HASH_SIZE)
      ensures part == Stream(alg, prk, info, LAST_BLOCK)[old(Position())..Position()]
    {
      hide Stream, OutputBlock, Num, ByteOf;
      Advance(info);
      var len := if outlen < HASH_SIZE then outlen else HASH_SIZE;
      BlockInStream(alg, prk, info, Made());
      PartOfBlock(Stream(alg, prk, info, LAST_BLOCK), out, (Made() - 1) * HASH_SIZE, 0, len);
      part := out[..len];
      posn := len;
    }

    /** The next block is made, and the counter moves on, from 255 to 0. */
    method Advance(info: seq<byte>)
      requires Valid() && Follows(info) && Num(counter) > 0 && posn == HASH_SIZE
      modifies this`out, this`counter
      ensures Valid() && Follows(info)
      ensures Made() == old(Made()) + 1
    {
      hide Stream, OutputBlock, Num, ByteOf;
      out := NextBlock(info);
      NumOfByte((Num(counter) + 1) % 0x100);
      counter := ByteOf((Num(counter) + 1) % 0x100);
    }

    method NextBlock(info: seq<byte>) returns (t: seq<byte>)
      requires Valid() && Follows(info) && Num(counter) > 0
      ensures t == OutputBlock(alg, prk, info, Num(counter))
    {
      hide Num, Mac, Feed, Keyed, Finished;
      var hmac := new Hmac.State(alg, prk);
      ghost var z := hmac.Now();
      ghost var previous := if Num(counter) == 1 then [] else out;
      if Num(counter) != 1 {
        hmac.Update(out);
        FeedInTwo(alg, z, out, info);
      } else {
        assert [] + info == info;
      }
      hmac.Update(info);
      assert hmac.Now() == Feed(alg, z, previous + info);
      hmac.Update([counter]);
      FeedInTwo(alg, z, previous + info, [counter]);
      OnePieceIsMac(alg, prk, previous + info + [counter]);
      ByteOfNum(counter);
      BlockUnfolds(alg, prk, info, Num(counter));
      t := hmac.Finalize(prk);
    }
  }
  /** Extraction and expansion in one call; nothing is written when too much is asked for. */
  method Derive(alg: Algorithm, outlen: nat, key: seq<byte>, salt: seq<byte>, info: seq<byte>)
      returns (result: int, okm: Option<seq<byte>>)
    ensures outlen > LIMIT <==> result == -1
    ensures outlen <= LIMIT ==> result == 0 && okm == Some(Stream(alg, Extracted(alg, key, salt), info, LAST_BLOCK)[..outlen])
    ensures outlen > LIMIT ==> okm == None
  {
    hide Stream, OutputBlock, Mac;
    if outlen > HASH_SIZE * 255 {
      return -1, None;
    }
    var state := new State.Extract(alg, key, salt);
    var r, out := state.Expand(info, outlen);
    return 0, Some(out);
  }
}
