/** Bytes, byte strings and the operations on a 40-byte state that every backend of the
    permutation offers.  The functions here are the simple form: a state is its 40 bytes in
    transmission order. */
module Bytes {
  type byte = bv8

  type Block = s: seq<byte> | |s| == 40 witness seq(40, _ => 0)

  function Zeros(n: nat): (z: seq<byte>)
    ensures |z| == n
  {
    seq(n, _ => 0)
  }

  function XorByte(a: byte, b: byte): byte { a ^ b }

  function XorBytes(a: seq<byte>, b: seq<byte>): (r: seq<byte>)
    requires |a| == |b|
    ensures |r| == |a|
  {
    seq(|a|, i requires 0 <= i < |a| => XorByte(a[i], b[i]))
  }

  lemma XorTwice(a: seq<byte>, b: seq<byte>)
    requires |a| == |b|
    ensures XorBytes(XorBytes(a, b), b) == a
  {
    forall i | 0 <= i < |a|
      ensures XorBytes(XorBytes(a, b), b)[i] == a[i]
    {
      XorByteTwice(a[i], b[i]);
    }
  }

  lemma XorByteTwice(a: byte, b: byte)
    ensures XorByte(XorByte(a, b), b) == a
    ensures XorByte(a, XorByte(a, b)) == b
  {
  }

  // ---------------------------------------------------------------- the state operations

  function OverwriteAt(s: Block, data: seq<byte>, offset: nat): Block
    requires offset + |data| <= 40
  {
    s[..offset] + data + s[offset + |data|..]
  }

  function ExtractAt(s: Block, offset: nat, size: nat): (r: seq<byte>)
    requires offset + size <= 40
    ensures |r| == size
  {
    s[offset..offset + size]
  }

  function AddAt(s: Block, data: seq<byte>, offset: nat): Block
    requires offset + |data| <= 40
  {
    OverwriteAt(s, XorBytes(ExtractAt(s, offset, |data|), data), offset)
  }

  /** How much of a span lies inside the state; the backends ignore the rest. */
  function Fit(offset: nat, size: nat): (n: nat)
    ensures n <= size && (offset + size <= 40 ==> n == size) && (offset <= 40 ==> offset + n <= 40)
  {
    if offset >= 40 then 0 else if size > 40 - offset then 40 - offset else size
  }

  function AddWithin(s: Block, data: seq<byte>, offset: nat): (r: Block)
    ensures offset + |data| <= 40 ==> r == AddAt(s, data, offset)
  {
    assert offset + |data| <= 40 ==> data[..Fit(offset, |data|)] == data;
    if offset > 40 then s else AddAt(s, data[..Fit(offset, |data|)], offset)
  }

  function OverwriteWithin(s: Block, data: seq<byte>, offset: nat): (r: Block)
    ensures offset + |data| <= 40 ==> r == OverwriteAt(s, data, offset)
  {
    assert offset + |data| <= 40 ==> data[..Fit(offset, |data|)] == data;
    if offset > 40 then s else OverwriteAt(s, data[..Fit(offset, |data|)], offset)
  }

  function ExtractWithin(s: Block, offset: nat, size: nat): (r: seq<byte>)
    ensures |r| == Fit(offset, size)
    ensures offset + size <= 40 ==> r == ExtractAt(s, offset, size)
  {
    if offset > 40 then [] else ExtractAt(s, offset, Fit(offset, size))
  }

  function XorWithin(s: Block, input: seq<byte>, offset: nat): (r: seq<byte>)
    ensures |r| == Fit(offset, |input|)
    ensures offset + |input| <= 40 ==> r == XorBytes(input, ExtractAt(s, offset, |input|))
  {
    assert offset + |input| <= 40 ==> input[..Fit(offset, |input|)] == input;
    XorBytes(input[..Fit(offset, |input|)], ExtractWithin(s, offset, |input|))
  }

  /** The 10* padding bit of a block whose first `offset` bytes are taken. */
  function PadAt(s: Block, offset: nat): Block
    requires offset < 40
  {
    s[offset := XorByte(s[offset], 0x80)]
  }

  /** The domain separation bit, the lowest bit of the last byte. */
  function AddSeparator(s: Block): Block {
    s[39 := XorByte(s[39], 0x01)]
  }

  lemma OverwriteInTwo(s: Block, a: seq<byte>, b: seq<byte>, offset: nat)
    requires offset + |a| + |b| <= 40
    ensures OverwriteAt(OverwriteAt(s, a, offset), b, offset + |a|) == OverwriteAt(s, a + b, offset)
  {
  }

  lemma AddAtIndex(s: Block, data: seq<byte>, offset: nat, i: nat)
    requires offset + |data| <= 40 && i < 40
    ensures AddAt(s, data, offset)[i] == if offset <= i < offset + |data| then XorByte(s[i], data[i - offset]) else s[i]
  {
  }

  lemma AddInTwo(s: Block, a: seq<byte>, b: seq<byte>, offset: nat)
    requires offset + |a| + |b| <= 40
    ensures AddAt(AddAt(s, a, offset), b, offset + |a|) == AddAt(s, a + b, offset)
  {
    hide XorByte, AddAt;
    var left, right := AddAt(AddAt(s, a, offset), b, offset + |a|), AddAt(s, a + b, offset);
    forall i | 0 <= i < 40
      ensures left[i] == right[i]
    {
      AddAtIndex(AddAt(s, a, offset), b, offset + |a|, i);
      AddAtIndex(s, a, offset, i);
      AddAtIndex(s, a + b, offset, i);
    }
  }

  lemma OverwriteAll(s: Block, data: Block)
    ensures OverwriteAt(s, data, 0) == data
  {
  }

  // ---------------------------------------------------------------- steps of loops over a part of the state

  lemma ExtractInTwo(s: Block, offset: nat, m: nat, n: nat)
    requires offset + m + n <= 40
    ensures ExtractAt(s, offset, m) + ExtractAt(s, offset + m, n) == ExtractAt(s, offset, m + n)
  {
  }

  lemma ExtractNothing(s: Block, offset: nat)
    requires offset <= 40
    ensures ExtractAt(s, offset, 0) == []
  {
  }

  lemma OverwriteNothing(s: Block, offset: nat)
    requires offset <= 40
    ensures OverwriteAt(s, [], offset) == s
  {
  }

  lemma AddNothing(s: Block, offset: nat)
    requires offset <= 40
    ensures AddAt(s, [], offset) == s
  {
  }

  lemma XorNothing()
    ensures XorBytes([], []) == []
  {
  }

  lemma XorInTwo(a: seq<byte>, b: seq<byte>, c: seq<byte>, d: seq<byte>)
    requires |a| == |c| && |b| == |d|
    ensures XorBytes(a, c) + XorBytes(b, d) == XorBytes(a + b, c + d)
  {
    hide XorByte;
  }

  lemma ExtractBeyond(s: Block, chunk: seq<byte>, offset: nat, n: nat)
    requires offset + |chunk| + n <= 40
    ensures ExtractAt(OverwriteAt(s, chunk, offset), offset + |chunk|, n) == ExtractAt(s, offset + |chunk|, n)
  {
  }

  // One more chunk of n bytes, after `at` bytes have been handled.
  lemma ExtractStep(s: Block, input: seq<byte>, offset: nat, at: nat, n: nat)
    requires at + n <= |input| && offset + |input| <= 40
    ensures input[at..][..n] == input[at..at + n]
    ensures XorBytes(input[..at], ExtractAt(s, offset, at)) + XorBytes(input[at..at + n], ExtractAt(s, offset + at, n))
         == XorBytes(input[..at + n], ExtractAt(s, offset, at + n))
  {
    hide XorBytes, ExtractAt;
    assert input[..at] + input[at..at + n] == input[..at + n];
    ExtractInTwo(s, offset, at, n);
    XorInTwo(input[..at], input[at..at + n], ExtractAt(s, offset, at), ExtractAt(s, offset + at, n));
  }

  lemma OverwriteStep(s: Block, input: seq<byte>, offset: nat, at: nat, n: nat)
    requires at + n <= |input| && offset + |input| <= 40
    ensures OverwriteAt(OverwriteAt(s, input[..at], offset), input[at..at + n], offset + at)
         == OverwriteAt(s, input[..at + n], offset)
    ensures ExtractAt(OverwriteAt(s, input[..at], offset), offset + at, n) == ExtractAt(s, offset + at, n)
  {
    hide OverwriteAt, ExtractAt;
    assert input[..at] + input[at..at + n] == input[..at + n];
    OverwriteInTwo(s, input[..at], input[at..at + n], offset);
    ExtractBeyond(s, input[..at], offset, n);
  }

  lemma WholePrefix(input: seq<byte>)
    ensures input[..|input|] == input
  {
  }

  lemma ExtractOneMore(s: Block, offset: nat, n: nat)
    requires offset + n < 40
    ensures ExtractAt(s, offset, n) + [s[offset + n]] == ExtractAt(s, offset, n + 1)
  {
  }

  lemma ExtractUpdated(s: Block, b: byte, offset: nat, n: nat)
    requires offset + n < 40
    ensures ExtractAt(s[offset + n := b], offset, n + 1) == ExtractAt(s, offset, n) + [b]
  {
  }

  lemma AddOne(s: Block, b: byte, i: nat)
    requires i < 40
    ensures AddAt(s, [b], i) == s[i := XorByte(s[i], b)]
  {
    hide XorByte;
  }

  lemma OverwriteOneMore(s: Block, init: seq<byte>, b: byte, offset: nat)
    requires offset + |init| < 40
    ensures var mid := OverwriteAt(s, init, offset);
            && mid[offset + |init|] == s[offset + |init|]
            && mid[offset + |init| := b] == OverwriteAt(s, init + [b], offset)
  {
  }

  lemma AddOneMore(s: Block, init: seq<byte>, b: byte, offset: nat)
    requires offset + |init| < 40
    ensures var mid := AddAt(s, init, offset);
            mid[offset + |init| := XorByte(mid[offset + |init|], b)] == AddAt(s, init + [b], offset)
  {
    hide AddAt, XorByte;
    AddInTwo(s, init, [b], offset);
    AddOne(AddAt(s, init, offset), b, offset + |init|);
  }

  lemma XorOneMore(init: seq<byte>, b: byte, s: Block, offset: nat)
    requires offset + |init| < 40
    ensures XorBytes(init + [b], ExtractAt(s, offset, |init| + 1))
         == XorBytes(init, ExtractAt(s, offset, |init|)) + [XorByte(b, s[offset + |init|])]
  {
    hide XorByte;
  }

  lemma AddZeros(s: Block, n: nat, offset: nat)
    requires offset + n <= 40
    ensures AddAt(s, Zeros(n), offset) == s
  {
    hide AddAt, XorByte;
    var added := AddAt(s, Zeros(n), offset);
    forall i | 0 <= i < 40
      ensures added[i] == s[i]
    {
      AddAtIndex(s, Zeros(n), offset, i);
      XorByteZero(s[i]);
    }
  }

  lemma XorByteZero(b: byte)
    ensures XorByte(b, 0) == b
  {
  }
}
