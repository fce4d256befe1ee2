/** The backend that keeps the state as ten 32-bit words, the even and the odd bits of five
    64-bit words.  Bytes that do not fill a word are gathered in a 64-bit value with shifts and
    masks.  Every operation is shown to do to the 40 bytes of the state what the plain byte
    form does, for every offset and length that fit the state. */
module Sliced32 {
  import opened Bytes
  import opened WordBytes
  import opened BytePermutation
  import opened AsconSlicing
  import opened AsconRounds
  import AsconC32

  function JoinedWords(w: seq<bv32>): (ws: seq<bv64>)
    requires |w| == 10
    ensures |ws| == 5
  {
    seq(5, k requires 0 <= k < 5 => Join(w[2 * k], w[2 * k + 1]))
  }

  class State {
    const W: array<bv32>

    ghost predicate Valid()
      reads this
    {
      W.Length == 10
    }

    ghost function Words(): (ws: seq<bv64>)
      reads this, W
      requires Valid()
      ensures |ws| == 5
    {
      JoinedWords(W[..])
    }

    ghost function Bytes(): Block
      reads this, W
      requires Valid()
    {
      StateBytes(Words())
    }

    constructor ()
      ensures Valid() && fresh(W)
      ensures Bytes() == Zeros(40)
    {
      hide Join, StoreWord;
      W := new bv32[10](_ => 0);
      new;
      JoinZero();
      assert forall k | 0 <= k < 5 :: StoreWord(Words()[k]) == Zeros(8);
    }

    // ---------------------------------------------------------------- one word at a time

    method SetWord(value: bv64, k: nat, ghost d: seq<byte>)
      requires Valid() && k < 5 && |d| == 8 && value == LoadWord(d)
      modifies W
      ensures Bytes() == OverwriteAt(old(Bytes()), d, 8 * k)
    {
      hide Separate, High, Low, MergeEven, MergeOdd, Join, StateBytes, LoadWord;
      ghost var before := W[..];
      var high, low := Separate(High(value)), Separate(Low(value));
      W[2 * k] := MergeEven(high, low);
      W[2 * k + 1] := MergeOdd(high, low);
      WordReplaced(before, W[..], k, value);
      StateWithWord(JoinedWords(before), k, d);
    }

    method AbsorbWord(value: bv64, k: nat, ghost d: seq<byte>)
      requires Valid() && k < 5 && |d| == 8 && value == LoadWord(d)
      modifies W
      ensures Bytes() == AddAt(old(Bytes()), d, 8 * k)
    {
      hide Separate, High, Low, MergeEven, MergeOdd, Join, StateBytes, LoadWord, StoreWord, Xor32, XorByte;
      ghost var before := W[..];
      var high, low := Separate(High(value)), Separate(Low(value));
      W[2 * k] := Xor32(W[2 * k], MergeEven(high, low));
      W[2 * k + 1] := Xor32(W[2 * k + 1], MergeOdd(high, low));
      WordAdded(before, W[..], k, value);
      XorLoadStored(WordAt(before, k), d);
      StateWithWord(JoinedWords(before), k, XorBytes(StoreWord(WordAt(before, k)), d));
      WordOfState(JoinedWords(before), k);
    }

    method SqueezeWord(k: nat) returns (value: bv64)
      requires Valid() && k < 5
      ensures value == LoadWord(ExtractAt(Bytes(), 8 * k, 8))
    {
      hide Join, StateBytes, LoadWord, StoreWord;
      WordOfState(Words(), k);
      value := Join(W[2 * k], W[2 * k + 1]);
    }
  
    // ---------------------------------------------------------------- part of one word

    method AddPart(data: seq<byte>, k: nat, ofs: nat) returns (posn: nat)
      requires Valid() && k < 5 && ofs < 8
      modifies W
      ensures posn == if |data| < 8 - ofs then |data| else 8 - ofs
      ensures Bytes() == AddAt(old(Bytes()), data[..posn], 8 * k + ofs)
    {
      hide StateBytes, LoadWord, AddAt;
      var value;
      value, posn := GatherBytes(data, ofs);
      AbsorbWord(value, k, Spread(data[..posn], ofs));
      AddSpread(old(Bytes()), data[..posn], k, ofs);
    }

    method OverwritePart(data: seq<byte>, k: nat, ofs: nat) returns (posn: nat)
      requires Valid() && k < 5 && ofs < 8
      modifies W
      ensures posn == if |data| < 8 - ofs then |data| else 8 - ofs
      ensures Bytes() == OverwriteAt(old(Bytes()), data[..posn], 8 * k + ofs)
    {
      hide StateBytes, LoadWord, OverwriteAt, ExtractAt, Patch;
      ghost var d := ExtractAt(Bytes(), 8 * k, 8);
      var value := SqueezeWord(k);
      value, posn := ReplaceBytes(value, d, data, ofs);
      SetWord(value, k, Patch(d, data[..posn], ofs));
      OverwritePatch(old(Bytes()), data[..posn], k, ofs);
    }

    method ExtractPart(k: nat, ofs: nat, size: nat) returns (data: seq<byte>)
      requires Valid() && k < 5 && ofs < 8
      ensures |data| == if size < 8 - ofs then size else 8 - ofs
      ensures data == ExtractAt(Bytes(), 8 * k + ofs, |data|)
    {
      hide StateBytes, LoadWord;
      var value := SqueezeWord(k);
      data := TakeBytes(value, ExtractAt(Bytes(), 8 * k, 8), ofs, size);
      ExtractInside(Bytes(), 8 * k, ofs, |data|);
    }

    method ExtractWord(k: nat) returns (data: seq<byte>)
      requires Valid() && k < 5
      ensures data == ExtractAt(Bytes(), 8 * k, 8)
    {
      hide StateBytes, LoadWord, StoreWord;
      var value := SqueezeWord(k);
      StoreLoad(ExtractAt(Bytes(), 8 * k, 8));
      data := StoreWord(value);
    }

    // Both sliced words at once.
    method ClearWord(k: nat)
      requires Valid() && k < 5
      modifies W
      ensures Bytes() == OverwriteAt(old(Bytes()), Zeros(8), 8 * k)
    {
      hide Join, StateBytes, LoadWord;
      ghost var before := W[..];
      W[2 * k] := 0;
      W[2 * k + 1] := 0;
      LoadZero();
      SlicedZero();
      WordReplaced(before, W[..], k, 0);
      StateWithWord(JoinedWords(before), k, Zeros(8));
    }

    method ZeroFirstPart(k: nat, ofs: nat, posn: nat)
      requires Valid() && k < 5 && 0 < ofs < 8 && ofs + posn <= 8
      modifies W
      ensures Bytes() == OverwriteAt(old(Bytes()), Zeros(posn), 8 * k + ofs)
    {
      hide And, Or, StateBytes, LoadWord, HighMask, LowMask, OverwriteAt, ExtractAt, Patch;
      ghost var d := ExtractAt(Bytes(), 8 * k, 8);
      var value := SqueezeWord(k);
      ZeroMiddle(d, ofs, posn);
      SetWord(Or(And(value, HighMask(ofs)), And(value, LowMask(8 - ofs - posn))), k, Patch(d, Zeros(posn), ofs));
      OverwritePatch(old(Bytes()), Zeros(posn), k, ofs);
    }

    method ZeroLastPart(k: nat, size: nat)
      requires Valid() && k < 5 && 0 < size < 8
      modifies W
      ensures Bytes() == OverwriteAt(old(Bytes()), Zeros(size), 8 * k)
    {
      hide And, StateBytes, LoadWord, LowMask, OverwriteAt, ExtractAt, Patch;
      ghost var d := ExtractAt(Bytes(), 8 * k, 8);
      var value := SqueezeWord(k);
      ZeroFront(d, size);
      SetWord(And(value, LowMask(8 - size)), k, Patch(d, Zeros(size), 0));
      OverwritePatch(old(Bytes()), Zeros(size), k, 0);
    }

    // ---------------------------------------------------------------- byte operations

    method AddBytes(data: seq<byte>, offset: nat)
      requires Valid() && offset + |data| <= 40
      modifies W
      ensures Bytes() == AddAt(old(Bytes()), data, offset)
    {
      hide StateBytes, LoadWord, AddAt;
      ghost var was := Bytes();
      var at := 0;
      AddNothing(was, offset);
      if offset % 8 != 0 {
        at := AddPart(data, offset / 8, offset % 8);
      }
      while |data| - at >= 8
        invariant at <= |data| && (at == |data| || (offset + at) % 8 == 0)
        invariant Bytes() == AddAt(was, data[..at], offset)
      {
        AbsorbWord(LoadWord(data[at..at + 8]), (offset + at) / 8, data[at..at + 8]);
        AddInTwo(was, data[..at], data[at..at + 8], offset);
        assert data[..at] + data[at..at + 8] == data[..at + 8];
        at := at + 8;
      }
      assert data[..at] + data[at..] == data && (at == |data| ==> data[..at] == data);
      if at < |data| {
        var posn := AddPart(data[at..], (offset + at) / 8, 0);
        assert data[at..][..posn] == data[at..];
        AddInTwo(was, data[..at], data[at..], offset);
      }
    }

    method OverwriteBytes(data: seq<byte>, offset: nat)
      requires Valid() && offset + |data| <= 40
      modifies W
      ensures Bytes() == OverwriteAt(old(Bytes()), data, offset)
    {
      hide StateBytes, LoadWord, OverwriteAt;
      ghost var was := Bytes();
      var at := 0;
      OverwriteNothing(was, offset);
      if offset % 8 != 0 {
        at := OverwritePart(data, offset / 8, offset % 8);
      }
      while |data| - at >= 8
        invariant at <= |data| && (at == |data| || (offset + at) % 8 == 0)
        invariant Bytes() == OverwriteAt(was, data[..at], offset)
      {
        SetWord(LoadWord(data[at..at + 8]), (offset + at) / 8, data[at..at + 8]);
        OverwriteInTwo(was, data[..at], data[at..at + 8], offset);
        assert data[..at] + data[at..at + 8] == data[..at + 8];
        at := at + 8;
      }
      assert data[..at] + data[at..] == data && (at == |data| ==> data[..at] == data);
      if at < |data| {
        var posn := OverwritePart(data[at..], (offset + at) / 8, 0);
        assert data[at..][..posn] == data[at..];
        OverwriteInTwo(was, data[..at], data[at..], offset);
      }
    }

    method OverwriteWithZeroes(offset: nat, size: nat)
      requires Valid() && offset + size <= 40
      modifies W
      ensures Bytes() == OverwriteAt(old(Bytes()), Zeros(size), offset)
    {
      hide StateBytes, OverwriteAt, Zeros;
      ghost var was := Bytes();
      var at := 0;
      OverwriteNothing(was, offset);
      ZerosInTwo(0, 0);
      if offset % 8 != 0 {
        at := if 8 - offset % 8 > size then size else 8 - offset % 8;
        ZeroFirstPart(offset / 8, offset % 8, at);
      }
      while size - at >= 8
        invariant at <= size && (at == size || (offset + at) % 8 == 0)
        invariant Bytes() == OverwriteAt(was, Zeros(at), offset)
      {
        ClearWord((offset + at) / 8);
        OverwriteInTwo(was, Zeros(at), Zeros(8), offset);
        ZerosInTwo(at, 8);
        at := at + 8;
      }
      if at < size {
        ZeroLastPart((offset + at) / 8, size - at);
        OverwriteInTwo(was, Zeros(at), Zeros(size - at), offset);
        ZerosInTwo(at, size - at);
      }
    }

    method ExtractBytes(offset: nat, size: nat) returns (data: seq<byte>)
      requires Valid() && offset + size <= 40
      ensures data == ExtractAt(Bytes(), offset, size)
    {
      hide StateBytes, ExtractAt;
      data := [];
      ExtractNothing(Bytes(), offset);
      if offset % 8 != 0 {
        data := ExtractPart(offset / 8, offset % 8, size);
      }
      while size - |data| >= 8
        invariant |data| <= size && (|data| == size || (offset + |data|) % 8 == 0)
        invariant data == ExtractAt(Bytes(), offset, |data|)
      {
        var next := ExtractWord((offset + |data|) / 8);
        ExtractInTwo(Bytes(), offset, |data|, 8);
        data := data + next;
      }
      if |data| < size {
        var next := ExtractPart((offset + |data|) / 8, 0, size - |data|);
        ExtractInTwo(Bytes(), offset, |data|, |next|);
        data := data + next;
      }
    }

    method ExtractAndAddBytes(input: seq<byte>, offset: nat) returns (output: seq<byte>)
      requires Valid() && offset + |input| <= 40
      ensures output == XorBytes(input, ExtractAt(Bytes(), offset, |input|))
    {
      hide StateBytes, XorBytes, ExtractAt, AddedTo;
      output := [];
      NothingAdded(Bytes(), input, offset);
      if offset % 8 != 0 {
        output := AddPartTo(input, offset / 8, offset % 8);
        assert input[0..|output|] == input[..|output|] && [] + output == output;
        AddMore(Bytes(), input, offset, [], output);
      }
      while |input| - |output| >= 8
        invariant |output| <= |input| && (|output| == |input| || (offset + |output|) % 8 == 0)
        invariant AddedTo(Bytes(), input, offset, output)
      {
        var next := DecryptWordNoInsert(input[|output|..|output| + 8], (offset + |output|) / 8);
        AddMore(Bytes(), input, offset, output, next);
        output := output + next;
      }
      if |output| < |input| {
        var next := AddPartTo(input[|output|..], (offset + |output|) / 8, 0);
        assert input[|output|..][..|next|] == input[|output|..|output| + |next|];
        AddMore(Bytes(), input, offset, output, next);
        output := output + next;
      }
      AllAdded(Bytes(), input, offset, output);
    }

    method ExtractAndOverwriteBytes(input: seq<byte>, offset: nat) returns (output: seq<byte>)
      requires Valid() && offset + |input| <= 40
      modifies W
      ensures output == XorBytes(input, ExtractAt(old(Bytes()), offset, |input|))
      ensures Bytes() == OverwriteAt(old(Bytes()), input, offset)
    {
      hide StateBytes, XorBytes, ExtractAt, OverwriteAt, SwappedTo;
      ghost var was := Bytes();
      output := [];
      NothingSwapped(was, input, offset);
      if offset % 8 != 0 {
        output := SwapPart(input, offset / 8, offset % 8);
        assert input[0..|output|] == input[..|output|] && [] + output == output;
        SwapMore(was, was, Bytes(), input, offset, [], output);
      }
      while |input| - |output| >= 8
        invariant |output| <= |input| && (|output| == |input| || (offset + |output|) % 8 == 0)
        invariant SwappedTo(was, Bytes(), input, offset, output)
      {
        ghost var now := Bytes();
        var next := DecryptWord(input[|output|..|output| + 8], (offset + |output|) / 8);
        SwapMore(was, now, Bytes(), input, offset, output, next);
        output := output + next;
      }
      if |output| < |input| {
        ghost var now := Bytes();
        var next := SwapPart(input[|output|..], (offset + |output|) / 8, 0);
        assert input[|output|..][..|next|] == input[|output|..|output| + |next|];
        SwapMore(was, now, Bytes(), input, offset, output, next);
        output := output + next;
      }
      AllSwapped(was, Bytes(), input, offset, output);
    }

    // ---------------------------------------------------------------- block macros

    method DecryptWordNoInsert(input: seq<byte>, k: nat) returns (output: seq<byte>)
      requires Valid() && k < 5 && |input| == 8
      ensures output == XorBytes(input, ExtractAt(Bytes(), 8 * k, 8))
    {
      hide Even, Odd, Join, StateBytes, LoadWord, StoreWord, Xor, Xor32, XorBytes;
      var c := LoadWord(input);
      WordOfState(Words(), k);
      output := StoreWord(Join(Xor32(Even(c), W[2 * k]), Xor32(Odd(c), W[2 * k + 1])));
      XorSliced(c, W[2 * k], W[2 * k + 1]);
      XorWithStored(input, Words()[k]);
    }

    method DecryptWord(input: seq<byte>, k: nat) returns (output: seq<byte>)
      requires Valid() && k < 5 && |input| == 8
      modifies W
      ensures output == XorBytes(input, ExtractAt(old(Bytes()), 8 * k, 8))
      ensures Bytes() == OverwriteAt(old(Bytes()), input, 8 * k)
    {
      hide StateBytes, LoadWord, XorBytes, ExtractAt, OverwriteAt;
      output := DecryptWordNoInsert(input, k);
      SetWord(LoadWord(input), k, input);
    }

    method EncryptWord(input: seq<byte>, k: nat) returns (output: seq<byte>)
      requires Valid() && k < 5 && |input| == 8
      modifies W
      ensures Bytes() == AddAt(old(Bytes()), input, 8 * k)
      ensures output == ExtractAt(Bytes(), 8 * k, 8)
    {
      hide StateBytes, LoadWord, ExtractAt, AddAt;
      AbsorbWord(LoadWord(input), k, input);
      output := ExtractWord(k);
    }

    method Pad(offset: nat)
      requires Valid() && offset < 40
      modifies W
      ensures Bytes() == PadAt(old(Bytes()), offset)
    {
      hide Join, StateBytes, LoadWord, StoreWord, Xor, Xor32, XorByte, PaddingBit, AddAt;
      ghost var before := W[..];
      var k, j := offset / 8, offset % 8;
      ghost var d := Zeros(8)[j := 0x80];
      W[2 * k + 1] := Xor32(W[2 * k + 1], PaddingBit(j));
      PaddingSliced(j);
      Xor32Zero(before[2 * k]);
      AddSlicedWord(before, W[..], k, d);
      AddOneBit(old(Bytes()), k, j, 0x80);
    }

    method Separator()
      requires Valid()
      modifies W
      ensures Bytes() == AddSeparator(old(Bytes()))
    {
      hide Join, StateBytes, LoadWord, StoreWord, Xor, Xor32, XorByte, AddAt;
      ghost var before := W[..];
      ghost var d := Zeros(8)[7 := 0x01];
      W[8] := Xor32(W[8], 0x01);
      SeparatorSliced();
      Xor32Zero(before[9]);
      AddSlicedWord(before, W[..], 4, d);
      AddOneBit(old(Bytes()), 4, 7, 0x01);
    }

    method Permute(firstRound: nat)
      requires Valid()
      modifies W
      ensures Bytes() == BytePermutation.Permute(old(Bytes()), firstRound)
    {
      hide Join, StateBytes, LoadWord, StoreWord, Rounds;
      SlicedWordsOfState(W[..]);
      AsconC32.Permute(W, firstRound);
      SlicedWordsOfState(W[..]);
    }

    method AddPartTo(input: seq<byte>, k: nat, ofs: nat) returns (output: seq<byte>)
      requires Valid() && k < 5 && ofs < 8
      ensures |output| == if |input| < 8 - ofs then |input| else 8 - ofs
      ensures output == XorBytes(input[..|output|], ExtractAt(Bytes(), 8 * k + ofs, |output|))
    {
      hide StateBytes, LoadWord, XorByte, GetByte, ShiftOf, XorBytes, ExtractAt;
      var value := SqueezeWord(k);
      ghost var d := ExtractAt(Bytes(), 8 * k, 8);
      output := [];
      XorNothing();
      var shift := ShiftOf(ofs);
      while |output| < 8 - ofs && |output| < |input|
        invariant |output| <= 8 - ofs && |output| <= |input|
        invariant shift == ShiftOf(ofs + |output|)
        invariant output == XorBytes(input[..|output|], d[ofs..ofs + |output|])
      {
        GetByteAt(d, ofs + |output|);
        ShiftSteps(ofs + |output|);
        XorPartOneMore(input, d, ofs, |output|);
        output, shift := output + [XorByte(input[|output|], GetByte(value, shift))], shift - 8;
      }
      ExtractInside(Bytes(), 8 * k, ofs, |output|);
    }

    method SwapPart(input: seq<byte>, k: nat, ofs: nat) returns (output: seq<byte>)
      requires Valid() && k < 5 && ofs < 8
      modifies W
      ensures |output| == if |input| < 8 - ofs then |input| else 8 - ofs
      ensures output == XorBytes(input[..|output|], ExtractAt(old(Bytes()), 8 * k + ofs, |output|))
      ensures Bytes() == OverwriteAt(old(Bytes()), input[..|output|], 8 * k + ofs)
    {
      hide StateBytes, XorBytes, ExtractAt, OverwriteAt;
      output := AddPartTo(input, k, ofs);
      var posn := OverwritePart(input, k, ofs);
    }
  }

  /** How far the state has been added to the input. */
  ghost predicate AddedTo(s: Block, input: seq<byte>, offset: nat, output: seq<byte>)
    requires offset + |input| <= 40
  {
    |output| <= |input| && output == XorBytes(input[..|output|], ExtractAt(s, offset, |output|))
  }

  lemma NothingAdded(s: Block, input: seq<byte>, offset: nat)
    requires offset + |input| <= 40
    ensures AddedTo(s, input, offset, [])
  {
    hide XorBytes, ExtractAt;
    ExtractNothing(s, offset);
    XorNothing();
  }

  lemma AddMore(s: Block, input: seq<byte>, offset: nat, output: seq<byte>, next: seq<byte>)
    requires offset + |input| <= 40 && |output| + |next| <= |input| && AddedTo(s, input, offset, output)
    requires next == XorBytes(input[|output|..|output| + |next|], ExtractAt(s, offset + |output|, |next|))
    ensures AddedTo(s, input, offset, output + next)
  {
    hide XorBytes, ExtractAt;
    ExtractStep(s, input, offset, |output|, |next|);
  }

  lemma AllAdded(s: Block, input: seq<byte>, offset: nat, output: seq<byte>)
    requires offset + |input| <= 40 && |output| == |input| && AddedTo(s, input, offset, output)
    ensures output == XorBytes(input, ExtractAt(s, offset, |input|))
  {
    WholePrefix(input);
  }

  /** How far the input has been exchanged with the state. */
  ghost predicate SwappedTo(was: Block, now: Block, input: seq<byte>, offset: nat, output: seq<byte>)
    requires offset + |input| <= 40
  {
    && |output| <= |input|
    && output == XorBytes(input[..|output|], ExtractAt(was, offset, |output|))
    && now == OverwriteAt(was, input[..|output|], offset)
  }

  lemma NothingSwapped(was: Block, input: seq<byte>, offset: nat)
    requires offset + |input| <= 40
    ensures SwappedTo(was, was, input, offset, [])
  {
    hide XorBytes, ExtractAt, OverwriteAt;
    ExtractNothing(was, offset);
    OverwriteNothing(was, offset);
    XorNothing();
  }

  lemma SwapMore(was: Block, now: Block, later: Block, input: seq<byte>, offset: nat, output: seq<byte>, next: seq<byte>)
    requires offset + |input| <= 40 && |output| + |next| <= |input| && SwappedTo(was, now, input, offset, output)
    requires var at, n := |output|, |next|;
             next == XorBytes(input[at..at + n], ExtractAt(now, offset + at, n))
             && later == OverwriteAt(now, input[at..at + n], offset + at)
    ensures SwappedTo(was, later, input, offset, output + next)
  {
    hide XorBytes, ExtractAt, OverwriteAt;
    ExtractStep(was, input, offset, |output|, |next|);
    OverwriteStep(was, input, offset, |output|, |next|);
  }

  lemma AllSwapped(was: Block, now: Block, input: seq<byte>, offset: nat, output: seq<byte>)
    requires offset + |input| <= 40 && |output| == |input| && SwappedTo(was, now, input, offset, output)
    ensures output == XorBytes(input, ExtractAt(was, offset, |input|)) && now == OverwriteAt(was, input, offset)
  {
    WholePrefix(input);
  }

  lemma XorPartOneMore(input: seq<byte>, d: seq<byte>, ofs: nat, n: nat)
    requires n < |input| && ofs + n < |d|
    ensures XorBytes(input[..n], d[ofs..ofs + n]) + [XorByte(input[n], d[ofs + n])]
         == XorBytes(input[..n + 1], d[ofs..ofs + n + 1])
  {
    hide XorByte;
  }

  lemma ExtractInside(s: Block, start: nat, ofs: nat, n: nat)
    requires start + 8 <= 40 && ofs + n <= 8
    ensures ExtractAt(s, start, 8)[ofs..ofs + n] == ExtractAt(s, start + ofs, n)
  {
    var a, b := ExtractAt(s, start, 8)[ofs..ofs + n], ExtractAt(s, start + ofs, n);
    assert forall i | 0 <= i < n :: a[i] == b[i];
  }

  lemma ZerosInTwo(m: nat, n: nat)
    ensures Zeros(m) + Zeros(n) == Zeros(m + n)
    ensures Zeros(0) == []
  {
  }

  ghost function WordAt(w: seq<bv32>, k: nat): bv64
    requires |w| == 10 && k < 5
  {
    JoinedWords(w)[k]
  }

  lemma JoinZero()
    ensures Join(0, 0) == 0
    ensures StoreWord(0) == Zeros(8)
  {
  }

  lemma WordReplaced(w: seq<bv32>, w': seq<bv32>, k: nat, value: bv64)
    requires |w| == 10 && k < 5
    requires w' == w[2 * k := Even(value)][2 * k + 1 := Odd(value)]
    ensures JoinedWords(w') == JoinedWords(w)[k := value]
  {
    hide Even, Odd, Join;
    JoinSliced(value);
    forall i | 0 <= i < 5
      ensures JoinedWords(w')[i] == JoinedWords(w)[k := value][i]
    {
      assert i != k ==> w'[2 * i] == w[2 * i] && w'[2 * i + 1] == w[2 * i + 1];
    }
  }

  lemma WordAdded(w: seq<bv32>, w': seq<bv32>, k: nat, value: bv64)
    requires |w| == 10 && k < 5
    requires w' == w[2 * k := Xor32(w[2 * k], Even(value))][2 * k + 1 := Xor32(w[2 * k + 1], Odd(value))]
    ensures JoinedWords(w') == JoinedWords(w)[k := Xor(WordAt(w, k), value)]
  {
    hide Even, Odd, Join, Xor32, Xor;
    var v := WordAt(w, k);
    SlicedJoin(w[2 * k], w[2 * k + 1]);
    EvenXor(v, value);
    WordReplaced(w, w', k, Xor(v, value));
  }

  lemma XorLoadStored(v: bv64, d: seq<byte>)
    requires |d| == 8
    ensures Xor(v, LoadWord(d)) == LoadWord(XorBytes(StoreWord(v), d))
  {
    hide LoadWord, StoreWord, XorByte, Xor;
    LoadStore(v);
    XorLoad(StoreWord(v), d);
  }

  // ---------------------------------------------------------------- bytes of one value

  /** Eight bytes that are zero but for `chunk` at position ofs. */
  function Spread(chunk: seq<byte>, ofs: nat): (d: seq<byte>)
    requires ofs + |chunk| <= 8
    ensures |d| == 8
  {
    Zeros(ofs) + chunk + Zeros(8 - ofs - |chunk|)
  }

  /** Places bytes in a zero value, from byte ofs on, until it is full or they run out. */
  method GatherBytes(data: seq<byte>, ofs: nat) returns (value: bv64, posn: nat)
    requires ofs < 8
    ensures posn == if |data| < 8 - ofs then |data| else 8 - ofs
    ensures value == LoadWord(Spread(data[..posn], ofs))
  {
    hide LoadWord, OrByte, ShiftOf;
    value, posn := 0, 0;
    var shift := ShiftOf(ofs);
    LoadZero();
    assert Spread(data[..0], ofs) == Zeros(8);
    while posn < 8 - ofs && posn < |data|
      invariant posn <= 8 - ofs && posn <= |data|
      invariant shift == ShiftOf(ofs + posn)
      invariant value == LoadWord(Spread(data[..posn], ofs))
    {
      OrByteAt(Spread(data[..posn], ofs), ofs + posn, data[posn]);
      ShiftSteps(ofs + posn);
      assert Spread(data[..posn + 1], ofs) == Spread(data[..posn], ofs)[ofs + posn := data[posn]];
      value := OrByte(value, shift, data[posn]);
      posn, shift := posn + 1, shift - 8;
    }
  }

  lemma LoadZero()
    ensures LoadWord(Zeros(8)) == 0
  {
  }

  lemma AddSpread(s: Block, chunk: seq<byte>, k: nat, ofs: nat)
    requires k < 5 && ofs + |chunk| <= 8
    ensures AddAt(s, Spread(chunk, ofs), 8 * k) == AddAt(s, chunk, 8 * k + ofs)
  {
    hide XorByte, AddAt, Spread;
    var d := Spread(chunk, ofs);
    SpreadBytes(chunk, ofs);
    forall i: nat | i < 40
      ensures AddAt(s, d, 8 * k)[i] == AddAt(s, chunk, 8 * k + ofs)[i]
    {
      AddAtIndex(s, d, 8 * k, i);
      AddAtIndex(s, chunk, 8 * k + ofs, i);
      XorZero(s[i]);
    }
  }

  lemma SpreadBytes(chunk: seq<byte>, ofs: nat)
    requires ofs + |chunk| <= 8
    ensures forall j | 0 <= j < 8 ::
              Spread(chunk, ofs)[j] == if ofs <= j < ofs + |chunk| then chunk[j - ofs] else 0
  {
  }

  /** d with `chunk` written over it at position ofs. */
  function Patch(d: seq<byte>, chunk: seq<byte>, ofs: nat): (e: seq<byte>)
    requires |d| == 8 && ofs + |chunk| <= 8
    ensures |e| == 8
  {
    d[..ofs] + chunk + d[ofs + |chunk|..]
  }

  lemma OverwritePatch(s: Block, chunk: seq<byte>, k: nat, ofs: nat)
    requires k < 5 && ofs + |chunk| <= 8
    ensures OverwriteAt(s, Patch(ExtractAt(s, 8 * k, 8), chunk, ofs), 8 * k) == OverwriteAt(s, chunk, 8 * k + ofs)
  {
    var at, end := 8 * k, ofs + |chunk|;
    var d := ExtractAt(s, at, 8);
    assert d[..ofs] == s[at..at + ofs] && d[end..] == s[at + end..at + 8];
    assert s[..at] + s[at..at + ofs] == s[..at + ofs] && s[at + end..at + 8] + s[at + 8..] == s[at + end..];
    assert s[..at] + (d[..ofs] + chunk + d[end..]) + s[at + 8..] == (s[..at] + d[..ofs]) + chunk + (d[end..] + s[at + 8..]);
  }

  /** Replaces bytes of a value, from byte ofs on, until its end or theirs. */
  method ReplaceBytes(value: bv64, ghost d: seq<byte>, data: seq<byte>, ofs: nat) returns (v: bv64, posn: nat)
    requires ofs < 8 && |d| == 8 && value == LoadWord(d)
    ensures posn == if |data| < 8 - ofs then |data| else 8 - ofs
    ensures v == LoadWord(Patch(d, data[..posn], ofs))
  {
    hide LoadWord, OrByte, ClearByte, ShiftOf;
    v, posn := value, 0;
    var shift := ShiftOf(ofs);
    assert Patch(d, data[..0], ofs) == d;
    while posn < 8 - ofs && posn < |data|
      invariant posn <= 8 - ofs && posn <= |data|
      invariant shift == ShiftOf(ofs + posn)
      invariant v == LoadWord(Patch(d, data[..posn], ofs))
    {
      ghost var e := Patch(d, data[..posn], ofs);
      ClearByteAt(e, ofs + posn);
      OrByteAt(e[ofs + posn := 0], ofs + posn, data[posn]);
      ShiftSteps(ofs + posn);
      assert Patch(d, data[..posn + 1], ofs) == e[ofs + posn := 0][ofs + posn := data[posn]];
      v := ClearByte(v, shift);
      v := OrByte(v, shift, data[posn]);
      posn, shift := posn + 1, shift - 8;
    }
  }

  /** Reads bytes of a value, from byte ofs on, until its end or `size` of them. */
  method TakeBytes(value: bv64, ghost d: seq<byte>, ofs: nat, size: nat) returns (data: seq<byte>)
    requires ofs < 8 && |d| == 8 && value == LoadWord(d)
    ensures |data| == if size < 8 - ofs then size else 8 - ofs
    ensures data == d[ofs..ofs + |data|]
  {
    hide LoadWord, GetByte, ShiftOf;
    data := [];
    var shift := ShiftOf(ofs);
    while |data| < 8 - ofs && |data| < size
      invariant |data| <= 8 - ofs && |data| <= size
      invariant shift == ShiftOf(ofs + |data|)
      invariant data == d[ofs..ofs + |data|]
    {
      GetByteAt(d, ofs + |data|);
      ShiftSteps(ofs + |data|);
      data, shift := data + [GetByte(value, shift)], shift - 8;
    }
  }

  // ---------------------------------------------------------------- masks for runs of bytes

  function HighMask(n: nat): bv64
    requires 0 < n < 8
  {
    0xFFFF_FFFF_FFFF_FFFF << ((8 - n) * 8)
  }

  function LowMask(n: nat): bv64
    requires n < 8
  {
    (1 << (n * 8)) - 1
  }

  function Ones(n: nat): (o: seq<byte>)
    ensures |o| == n
  {
    seq(n, _ => 0xFF)
  }

  lemma SlicedZero()
    ensures Even(0) == 0 && Odd(0) == 0
  {
  }

  lemma HighMaskBytes()
    ensures HighMask(1) == LoadWord(Ones(1) + Zeros(7))
    ensures HighMask(2) == LoadWord(Ones(2) + Zeros(6))
    ensures HighMask(3) == LoadWord(Ones(3) + Zeros(5))
    ensures HighMask(4) == LoadWord(Ones(4) + Zeros(4))
    ensures HighMask(5) == LoadWord(Ones(5) + Zeros(3))
    ensures HighMask(6) == LoadWord(Ones(6) + Zeros(2))
    ensures HighMask(7) == LoadWord(Ones(7) + Zeros(1))
  {
  }

  lemma LowMaskBytes()
    ensures LowMask(0) == LoadWord(Zeros(8) + Ones(0))
    ensures LowMask(1) == LoadWord(Zeros(7) + Ones(1))
    ensures LowMask(2) == LoadWord(Zeros(6) + Ones(2))
    ensures LowMask(3) == LoadWord(Zeros(5) + Ones(3))
    ensures LowMask(4) == LoadWord(Zeros(4) + Ones(4))
    ensures LowMask(5) == LoadWord(Zeros(3) + Ones(5))
    ensures LowMask(6) == LoadWord(Zeros(2) + Ones(6))
    ensures LowMask(7) == LoadWord(Zeros(1) + Ones(7))
  {
  }

  lemma MasksAt(n: nat)
    requires n < 8
    ensures 0 < n ==> HighMask(n) == LoadWord(Ones(n) + Zeros(8 - n))
    ensures LowMask(n) == LoadWord(Zeros(8 - n) + Ones(n))
  {
    hide HighMask, LowMask, LoadWord, Ones, Zeros;
    HighMaskBytes();
    LowMaskBytes();
    if n == 0 {
    } else if n == 1 {
    } else if n == 2 {
    } else if n == 3 {
    } else if n == 4 {
    } else if n == 5 {
    } else if n == 6 {
    } else {
    }
  }

  function BitAnd(a: byte, b: byte): byte { a & b }

  function Or(x: bv64, y: bv64): bv64 { x | y }

  function BitOr(a: byte, b: byte): byte { a | b }

  lemma BitLaws(a: byte)
    ensures BitOr(a, 0) == a && BitOr(0, a) == a
    ensures BitAnd(a, 0xFF) == a && BitAnd(a, 0) == 0
  {
  }

  function ByteWise(f: (byte, byte) -> byte, d: seq<byte>, e: seq<byte>): (r: seq<byte>)
    requires |d| == 8 && |e| == 8
    ensures |r| == 8
  {
    seq(8, i requires 0 <= i < 8 => f(d[i], e[i]))
  }

  lemma OrLoad(d: seq<byte>, e: seq<byte>)
    requires |d| == 8 && |e| == 8
    ensures Or(LoadWord(d), LoadWord(e)) == LoadWord(ByteWise(BitOr, d, e))
  {
    hide WordOfBytes, BitOr, Or;
    OrOfBytes(d[0], d[1], d[2], d[3], d[4], d[5], d[6], d[7],
              e[0], e[1], e[2], e[3], e[4], e[5], e[6], e[7]);
  }

  lemma AndLoad(d: seq<byte>, e: seq<byte>)
    requires |d| == 8 && |e| == 8
    ensures And(LoadWord(d), LoadWord(e)) == LoadWord(ByteWise(BitAnd, d, e))
  {
    hide WordOfBytes, BitAnd, And;
    AndOfBytes(d[0], d[1], d[2], d[3], d[4], d[5], d[6], d[7],
               e[0], e[1], e[2], e[3], e[4], e[5], e[6], e[7]);
  }

  lemma OrOfBytes(a0: byte, a1: byte, a2: byte, a3: byte, a4: byte, a5: byte, a6: byte, a7: byte,
                  b0: byte, b1: byte, b2: byte, b3: byte, b4: byte, b5: byte, b6: byte, b7: byte)
    ensures Or(WordOfBytes(a0, a1, a2, a3, a4, a5, a6, a7), WordOfBytes(b0, b1, b2, b3, b4, b5, b6, b7))
         == WordOfBytes(BitOr(a0, b0), BitOr(a1, b1), BitOr(a2, b2), BitOr(a3, b3),
                        BitOr(a4, b4), BitOr(a5, b5), BitOr(a6, b6), BitOr(a7, b7))
  {
  }

  lemma AndOfBytes(a0: byte, a1: byte, a2: byte, a3: byte, a4: byte, a5: byte, a6: byte, a7: byte,
                  b0: byte, b1: byte, b2: byte, b3: byte, b4: byte, b5: byte, b6: byte, b7: byte)
    ensures And(WordOfBytes(a0, a1, a2, a3, a4, a5, a6, a7), WordOfBytes(b0, b1, b2, b3, b4, b5, b6, b7))
         == WordOfBytes(BitAnd(a0, b0), BitAnd(a1, b1), BitAnd(a2, b2), BitAnd(a3, b3),
                        BitAnd(a4, b4), BitAnd(a5, b5), BitAnd(a6, b6), BitAnd(a7, b7))
  {
  }

  lemma KeepHigh(d: seq<byte>, n: nat)
    requires |d| == 8 && 0 < n < 8
    ensures And(LoadWord(d), HighMask(n)) == LoadWord(d[..n] + Zeros(8 - n))
  {
    hide LoadWord, HighMask, LowMask, BitAnd, And;
    var mask := Ones(n) + Zeros(8 - n);
    var kept, result := ByteWise(BitAnd, d, mask), d[..n] + Zeros(8 - n);
    MasksAt(n);
    AndLoad(d, mask);
    forall i | 0 <= i < 8
      ensures kept[i] == result[i]
    {
      BitLaws(d[i]);
    }
    assert kept == result;
  }

  lemma KeepLow(d: seq<byte>, n: nat)
    requires |d| == 8 && n < 8
    ensures And(LoadWord(d), LowMask(n)) == LoadWord(Zeros(8 - n) + d[8 - n..])
  {
    hide LoadWord, HighMask, LowMask, BitAnd, And;
    var mask := Zeros(8 - n) + Ones(n);
    var kept, result := ByteWise(BitAnd, d, mask), Zeros(8 - n) + d[8 - n..];
    MasksAt(n);
    AndLoad(d, mask);
    forall i | 0 <= i < 8
      ensures kept[i] == result[i]
    {
      BitLaws(d[i]);
    }
    assert kept == result;
  }

  lemma ZeroFront(d: seq<byte>, n: nat)
    requires |d| == 8 && 0 < n < 8
    ensures And(LoadWord(d), LowMask(8 - n)) == LoadWord(Patch(d, Zeros(n), 0))
  {
    hide LoadWord, LowMask, And;
    KeepLow(d, 8 - n);
    assert Patch(d, Zeros(n), 0) == Zeros(n) + d[n..];
  }

  lemma ZeroMiddle(d: seq<byte>, ofs: nat, n: nat)
    requires |d| == 8 && 0 < ofs < 8 && ofs + n <= 8
    ensures Or(And(LoadWord(d), HighMask(ofs)), And(LoadWord(d), LowMask(8 - ofs - n))) == LoadWord(Patch(d, Zeros(n), ofs))
  {
    hide LoadWord, HighMask, LowMask, BitOr, And, Or;
    var a, b := d[..ofs] + Zeros(8 - ofs), Zeros(ofs + n) + d[ofs + n..];
    KeepHigh(d, ofs);
    KeepLow(d, 8 - ofs - n);
    OrLoad(a, b);
    forall i | 0 <= i < 8
      ensures ByteWise(BitOr, a, b)[i] == Patch(d, Zeros(n), ofs)[i]
    {
      BitLaws(a[i]);
      BitLaws(b[i]);
    }
    assert ByteWise(BitOr, a, b) == Patch(d, Zeros(n), ofs);
  }

  // ---------------------------------------------------------------- more about chunks

  lemma XorSliced(c: bv64, even: bv32, odd: bv32)
    ensures Join(Xor32(Even(c), even), Xor32(Odd(c), odd)) == Xor(c, Join(even, odd))
  {
    hide Even, Odd, Join, Xor, Xor32;
    var v := Join(even, odd);
    SlicedJoin(even, odd);
    EvenXor(c, v);
    JoinSliced(Xor(c, v));
  }

  // Adding the two halves of a word to the words of the state adds its bytes.
  lemma AddSlicedWord(w: seq<bv32>, w': seq<bv32>, k: nat, d: seq<byte>)
    requires |w| == 10 && k < 5 && |d| == 8
    requires w' == w[2 * k := Xor32(w[2 * k], Even(LoadWord(d)))][2 * k + 1 := Xor32(w[2 * k + 1], Odd(LoadWord(d)))]
    ensures StateBytes(JoinedWords(w')) == AddAt(StateBytes(JoinedWords(w)), d, 8 * k)
  {
    hide Even, Odd, Join, StateBytes, LoadWord, StoreWord, Xor, Xor32, XorByte;
    WordAdded(w, w', k, LoadWord(d));
    XorLoadStored(WordAt(w, k), d);
    StateWithWord(JoinedWords(w), k, XorBytes(StoreWord(WordAt(w, k)), d));
    WordOfState(JoinedWords(w), k);
  }

  /** The padding bit of byte j is an odd bit of its word. */
  function PaddingBit(j: nat): bv32
    requires j < 8
  {
    0x8000_0000 >> (j * 4)
  }

  lemma PaddingSliced(j: nat)
    requires j < 8
    ensures Even(LoadWord(Zeros(8)[j := 0x80])) == 0
    ensures Odd(LoadWord(Zeros(8)[j := 0x80])) == PaddingBit(j)
  {
    hide Even, Odd, LoadWord, PaddingBit, PaddingWord;
    PaddingWordBytes(j);
    PaddingWords();
    PaddingBits();
    PaddingHalves();
  }

  lemma PaddingBits()
    ensures PaddingBit(0) == 0x80000000
    ensures PaddingBit(1) == 0x08000000
    ensures PaddingBit(2) == 0x00800000
    ensures PaddingBit(3) == 0x00080000
    ensures PaddingBit(4) == 0x00008000
    ensures PaddingBit(5) == 0x00000800
    ensures PaddingBit(6) == 0x00000080
    ensures PaddingBit(7) == 0x00000008
  {
  }

  lemma PaddingHalves()
    ensures Even(0x8000000000000000) == 0 && Odd(0x8000000000000000) == 0x80000000
    ensures Even(0x0080000000000000) == 0 && Odd(0x0080000000000000) == 0x08000000
    ensures Even(0x0000800000000000) == 0 && Odd(0x0000800000000000) == 0x00800000
    ensures Even(0x0000008000000000) == 0 && Odd(0x0000008000000000) == 0x00080000
    ensures Even(0x0000000080000000) == 0 && Odd(0x0000000080000000) == 0x00008000
    ensures Even(0x0000000000800000) == 0 && Odd(0x0000000000800000) == 0x00000800
    ensures Even(0x0000000000008000) == 0 && Odd(0x0000000000008000) == 0x00000080
    ensures Even(0x0000000000000080) == 0 && Odd(0x0000000000000080) == 0x00000008
  {
  }

  lemma SeparatorSliced()
    ensures Even(LoadWord(Zeros(8)[7 := 0x01])) == 0x01
    ensures Odd(LoadWord(Zeros(8)[7 := 0x01])) == 0
  {
    hide Even, Odd, LoadWord;
    SeparatorWordBytes();
    SlicedOne();
  }

  lemma SlicedOne()
    ensures Even(1) == 1 && Odd(1) == 0
  {
  }

  lemma Xor32Zero(x: bv32)
    ensures Xor32(x, 0) == x
  {
  }

  lemma SlicedWordsOfState(w: seq<bv32>)
    requires |w| == 10
    ensures LoadWords(StateBytes(JoinedWords(w))) == AsconC32.StateWords32(w)
    ensures StateBytes(JoinedWords(w)) == StoreWords(AsconC32.StateWords32(w))
  {
    hide Join, StateBytes, LoadWord, StoreWord;
    var ws := JoinedWords(w);
    WordOfState(ws, 0);
    WordOfState(ws, 1);
    WordOfState(ws, 2);
    WordOfState(ws, 3);
    WordOfState(ws, 4);
    assert ws == WordSeq(AsconC32.StateWords32(w));
  }
}
