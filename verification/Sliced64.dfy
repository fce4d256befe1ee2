/** The backend that keeps the state as five 64-bit words.  Single bytes are reached through the
    bytes the words occupy in memory, at a place that depends on the machine's byte order;
    whole blocks are handled a word at a time.  Every operation is shown to do to the 40
    bytes of the state what the plain byte form does. */
module Sliced64 {
  import opened Bytes
  import opened WordBytes
  import opened BytePermutation
  import AsconRounds
  import AsconC64

  /** The shift that selects byte m, counted in memory order, of a stored word. */
  function MemoryShift(m: nat, littleEndian: bool): bv7
    requires m < 8
  {
    if littleEndian then ShiftOf(7 - m) else ShiftOf(m)
  }

  /** Where in memory the byte number `offset` of the state is. */
  function ByteForOffset(offset: nat, littleEndian: bool): nat {
    if littleEndian then offset / 8 * 8 + (7 - offset % 8) else offset
  }

  class State {
    const S: array<bv64>
    const littleEndian: bool

    ghost predicate Valid()
      reads this
    {
      S.Length == 5
    }

    ghost function Bytes(): Block
      reads this, S
      requires Valid()
    {
      StateBytes(S[..])
    }

    constructor (littleEndian: bool)
      ensures Valid() && fresh(S) && this.littleEndian == littleEndian
      ensures Bytes() == Zeros(40)
    {
      S := new bv64[5](_ => 0);
      this.littleEndian := littleEndian;
      new;
      assert forall k | 0 <= k < 5 :: StoreWord(S[..][k]) == Zeros(8);
    }

    // ---------------------------------------------------------------- bytes in memory

    method ReadMemory(place: nat) returns (b: byte)
      requires Valid() && place < 40
      ensures forall offset: nat {:trigger ByteForOffset(offset, littleEndian)} |
                offset < 40 && place == ByteForOffset(offset, littleEndian) :: b == Bytes()[offset]
    {
      hide StoreWord, LoadWord, GetByte, ShiftOf;
      GetByteAt(StoreWord(S[place / 8]), if littleEndian then 7 - place % 8 else place % 8);
      LoadStore(S[place / 8]);
      b := GetByte(S[place / 8], MemoryShift(place % 8, littleEndian));
    }

    method WriteMemory(place: nat, b: byte)
      requires Valid() && place < 40
      modifies S
      ensures forall offset: nat {:trigger ByteForOffset(offset, littleEndian)} |
                offset < 40 && place == ByteForOffset(offset, littleEndian) ::
                Bytes() == old(Bytes())[offset := b]
    {
      hide StateBytes, StoreWord, LoadWord, ClearByte, OrByte, ShiftOf;
      var k, shift := place / 8, MemoryShift(place % 8, littleEndian);
      ghost var j := if littleEndian then 7 - place % 8 else place % 8;
      ghost var d := StoreWord(S[k])[j := b];
      WordWithByte(S[k], j, b);
      WordOfState(S[..], k);
      SetWord(k, d, OrByte(ClearByte(S[k], shift), shift, b));
      OverwriteOneByte(old(Bytes()), k, j, b);
      forall offset: nat | offset < 40 && place == ByteForOffset(offset, littleEndian)
        ensures offset == 8 * k + j
      {
      }
    }

    // ---------------------------------------------------------------- byte operations

    method AddBytes(data: seq<byte>, offset: nat)
      requires Valid()
      modifies S
      ensures Bytes() == AddWithin(old(Bytes()), data, offset)
    {
      hide StateBytes, AddAt, XorByte;
      ghost var was := Bytes();
      if offset <= 40 {
        AddNothing(was, offset);
      }
      var posn := 0;
      while offset + posn < 40 && posn < |data|
        invariant posn <= Fit(offset, |data|)
        invariant Bytes() == if offset > 40 then was else AddAt(was, data[..posn], offset)
      {
        AddOneMore(was, data[..posn], data[posn], offset);
        assert data[..posn] + [data[posn]] == data[..posn + 1];
        PlaceInMemory(offset + posn, littleEndian);
        var b := ReadMemory(ByteForOffset(offset + posn, littleEndian));
        WriteMemory(ByteForOffset(offset + posn, littleEndian), XorByte(b, data[posn]));
        posn := posn + 1;
      }
    }

    method OverwriteBytes(data: seq<byte>, offset: nat)
      requires Valid()
      modifies S
      ensures Bytes() == OverwriteWithin(old(Bytes()), data, offset)
    {
      hide StateBytes, OverwriteAt;
      ghost var was := Bytes();
      if offset <= 40 {
        OverwriteNothing(was, offset);
      }
      var posn := 0;
      while offset + posn < 40 && posn < |data|
        invariant posn <= Fit(offset, |data|)
        invariant Bytes() == if offset > 40 then was else OverwriteAt(was, data[..posn], offset)
      {
        OverwriteOneMore(was, data[..posn], data[posn], offset);
        assert data[..posn] + [data[posn]] == data[..posn + 1];
        PlaceInMemory(offset + posn, littleEndian);
        WriteMemory(ByteForOffset(offset + posn, littleEndian), data[posn]);
        posn := posn + 1;
      }
    }

    method OverwriteWithZeroes(offset: nat, size: nat)
      requires Valid()
      modifies S
      ensures Bytes() == OverwriteWithin(old(Bytes()), Zeros(size), offset)
    {
      hide StateBytes, OverwriteAt;
      ghost var was := Bytes();
      if offset <= 40 {
        OverwriteNothing(was, offset);
      }
      assert Zeros(0) == [];
      var posn := 0;
      while offset + posn < 40 && posn < size
        invariant posn <= Fit(offset, size)
        invariant Bytes() == if offset > 40 then was else OverwriteAt(was, Zeros(posn), offset)
      {
        OverwriteOneMore(was, Zeros(posn), 0, offset);
        assert Zeros(posn) + [0] == Zeros(posn + 1);
        PlaceInMemory(offset + posn, littleEndian);
        WriteMemory(ByteForOffset(offset + posn, littleEndian), 0);
        posn := posn + 1;
      }
      assert Zeros(size)[..posn] == Zeros(posn);
    }

    method ExtractBytes(offset: nat, size: nat) returns (data: seq<byte>)
      requires Valid()
      ensures data == ExtractWithin(Bytes(), offset, size)
    {
      hide StateBytes, ExtractAt;
      data := [];
      if offset <= 40 {
        ExtractNothing(Bytes(), offset);
      }
      while offset + |data| < 40 && |data| < size
        invariant |data| <= Fit(offset, size)
        invariant data == if offset > 40 then [] else ExtractAt(Bytes(), offset, |data|)
      {
        ExtractOneMore(Bytes(), offset, |data|);
        PlaceInMemory(offset + |data|, littleEndian);
        var b := ReadMemory(ByteForOffset(offset + |data|, littleEndian));
        data := data + [b];
      }
    }

    method ExtractAndAddBytes(input: seq<byte>, offset: nat) returns (output: seq<byte>)
      requires Valid()
      ensures output == XorWithin(Bytes(), input, offset)
    {
      hide StateBytes, XorBytes, ExtractAt, XorByte;
      output := [];
      XorNothing();
      if offset <= 40 {
        ExtractNothing(Bytes(), offset);
      }
      while offset + |output| < 40 && |output| < |input|
        invariant |output| <= Fit(offset, |input|)
        invariant output == if offset > 40 then [] else XorBytes(input[..|output|], ExtractAt(Bytes(), offset, |output|))
      {
        var posn := |output|;
        XorOneMore(input[..posn], input[posn], Bytes(), offset);
        assert input[..posn] + [input[posn]] == input[..posn + 1];
        PlaceInMemory(offset + posn, littleEndian);
        var b := ReadMemory(ByteForOffset(offset + posn, littleEndian));
        output := output + [XorByte(input[posn], b)];
      }
    }

    method ExtractAndOverwriteBytes(input: seq<byte>, offset: nat) returns (output: seq<byte>)
      requires Valid()
      modifies S
      ensures output == XorWithin(old(Bytes()), input, offset)
      ensures Bytes() == OverwriteWithin(old(Bytes()), input, offset)
    {
      hide StateBytes, XorBytes, ExtractAt, OverwriteAt, XorByte;
      ghost var was := Bytes();
      output := [];
      XorNothing();
      if offset <= 40 {
        ExtractNothing(was, offset);
        OverwriteNothing(was, offset);
      }
      while offset + |output| < 40 && |output| < |input|
        invariant |output| <= Fit(offset, |input|)
        invariant output == if offset > 40 then [] else XorBytes(input[..|output|], ExtractAt(was, offset, |output|))
        invariant Bytes() == if offset > 40 then was else OverwriteAt(was, input[..|output|], offset)
      {
        var posn := |output|;
        XorOneMore(input[..posn], input[posn], was, offset);
        OverwriteOneMore(was, input[..posn], input[posn], offset);
        assert input[..posn] + [input[posn]] == input[..posn + 1];
        var byteIn := input[posn];
        PlaceInMemory(offset + posn, littleEndian);
        var b := ReadMemory(ByteForOffset(offset + posn, littleEndian));
        output := output + [XorByte(byteIn, b)];
        WriteMemory(ByteForOffset(offset + posn, littleEndian), byteIn);
      }
    }

    // ---------------------------------------------------------------- word operations

    method SetWord(k: nat, ghost d: seq<byte>, v: bv64)
      requires Valid() && k < 5 && |d| == 8 && v == LoadWord(d)
      modifies S
      ensures Bytes() == OverwriteAt(old(Bytes()), d, 8 * k)
    {
      hide StateBytes, LoadWord;
      ghost var before := S[..];
      S[k] := v;
      assert S[..] == before[k := v];
      StateWithWord(before, k, d);
    }

    method AddWord(k: nat, ghost d: seq<byte>, v: bv64)
      requires Valid() && k < 5 && |d| == 8 && v == LoadWord(d)
      modifies S
      ensures Bytes() == AddAt(old(Bytes()), d, 8 * k)
    {
      hide StateBytes, LoadWord, StoreWord, AsconRounds.Xor;
      ghost var was := StoreWord(S[k]);
      WordOfState(S[..], k);
      LoadStore(S[k]);
      XorLoad(was, d);
      SetWord(k, XorBytes(was, d), AsconRounds.Xor(S[k], v));
    }

    method Pad(offset: nat)
      requires Valid() && offset < 40
      modifies S
      ensures Bytes() == PadAt(old(Bytes()), offset)
    {
      hide StateBytes, LoadWord, PaddingWord, XorByte;
      ghost var d := Zeros(8)[offset % 8 := 0x80];
      PaddingWordBytes(offset % 8);
      AddWord(offset / 8, d, PaddingWord(offset % 8));
      AddOneBit(old(Bytes()), offset / 8, offset % 8, 0x80);
    }

    method Separator()
      requires Valid()
      modifies S
      ensures Bytes() == AddSeparator(old(Bytes()))
    {
      hide StateBytes, LoadWord, XorByte;
      ghost var d := Zeros(8)[7 := 0x01];
      SeparatorWordBytes();
      AddWord(4, d, 0x01);
      AddOneBit(old(Bytes()), 4, 7, 0x01);
    }

    method Absorb8(data: seq<byte>, offset: nat)
      requires Valid() && |data| == 8 && offset % 8 == 0 && offset < 40
      modifies S
      ensures Bytes() == AddAt(old(Bytes()), data, offset)
    {
      AddWord(offset / 8, data, LoadWord(data));
    }

    method Encrypt8(data: seq<byte>, offset: nat) returns (output: seq<byte>)
      requires Valid() && |data| == 8 && offset % 8 == 0 && offset < 40
      modifies S
      ensures Bytes() == AddAt(old(Bytes()), data, offset)
      ensures output == ExtractAt(Bytes(), offset, 8)
    {
      AddWord(offset / 8, data, LoadWord(data));
      WordOfState(S[..], offset / 8);
      output := StoreWord(S[offset / 8]);
    }

    method Decrypt8(data: seq<byte>, offset: nat) returns (output: seq<byte>)
      requires Valid() && |data| == 8 && offset % 8 == 0 && offset < 40
      modifies S
      ensures output == XorBytes(data, ExtractAt(old(Bytes()), offset, 8))
      ensures Bytes() == OverwriteAt(old(Bytes()), data, offset)
    {
      hide StateBytes, LoadWord, StoreWord, XorByte, AsconRounds.Xor;
      var k := offset / 8;
      var word := LoadWord(data);
      WordOfState(S[..], k);
      output := StoreWord(AsconRounds.Xor(word, S[k]));
      XorWithStored(data, S[k]);
      SetWord(k, data, word);
    }

    method Permute(firstRound: nat)
      requires Valid()
      modifies S
      ensures Bytes() == BytePermutation.Permute(old(Bytes()), firstRound)
    {
      hide StateBytes, LoadWord, StoreWord, AsconRounds.Rounds;
      WordsOfState(S[..]);
      AsconC64.Permute(S, firstRound);
      assert S[..] == WordSeq(AsconC64.StateWords(S[..]));
    }
  }

  lemma PlaceInMemory(offset: nat, littleEndian: bool)
    requires offset < 40
    ensures ByteForOffset(offset, littleEndian) < 40
  {
  }

  lemma OverwriteOneByte(s: Block, k: nat, j: nat, b: byte)
    requires k < 5 && j < 8
    ensures OverwriteAt(s, ExtractAt(s, 8 * k, 8)[j := b], 8 * k) == s[8 * k + j := b]
  {
  }

  lemma WordWithByte(v: bv64, j: nat, b: byte)
    requires j < 8
    ensures ShiftOf(j) <= 56
    ensures OrByte(ClearByte(v, ShiftOf(j)), ShiftOf(j), b) == LoadWord(StoreWord(v)[j := b])
  {
    hide StoreWord, LoadWord, ClearByte, OrByte, ShiftOf;
    var d := StoreWord(v);
    LoadStore(v);
    ClearByteAt(d, j);
    OrByteAt(d[j := 0], j, b);
    assert d[j := 0][j := b] == d[j := b];
  }

  lemma WordsOfState(ws: seq<bv64>)
    requires |ws| == 5
    ensures LoadWords(StateBytes(ws)) == AsconC64.StateWords(ws)
    ensures StateBytes(ws) == StoreWords(AsconC64.StateWords(ws))
  {
    hide StateBytes, LoadWord, StoreWord;
    WordOfState(ws, 0);
    WordOfState(ws, 1);
    WordOfState(ws, 2);
    WordOfState(ws, 3);
    WordOfState(ws, 4);
    assert ws == WordSeq(AsconC64.StateWords(ws));
  }
}
