/** The direct-XOR backend: the state is its 40 bytes and every operation is a byte loop.  This
    is the form the word-based backends are measured against and the one the modes of
    operation are built on.  The permutation is a parameter, so everything proved on top of
    this class holds for any function on 40-byte states. */
module Snp {
  import opened Bytes

  type Permutation = (Block, nat) -> Block

  class State {
    const B: array<byte>
    const permutation: Permutation

    ghost predicate Valid()
      reads this
    {
      B.Length == 40
    }

    ghost function Bytes(): Block
      reads this, B
      requires Valid()
    {
      B[..]
    }

    constructor (permutation: Permutation)
      ensures Valid() && fresh(B)
      ensures this.permutation == permutation
      ensures Bytes() == Zeros(40)
    {
      B := new byte[40](_ => 0);
      this.permutation := permutation;
    }

    method AddBytes(data: seq<byte>, offset: nat)
      requires Valid()
      modifies B
      ensures Bytes() == AddWithin(old(Bytes()), data, offset)
    {
      hide AddAt, XorByte;
      ghost var was := Bytes();
      if offset <= 40 {
        AddNothing(was, offset);
      }
      var posn := 0;
      while offset + posn < 40 && posn < |data|
        invariant posn <= Fit(offset, |data|)
        invariant B[..] == if offset > 40 then was else AddAt(was, data[..posn], offset)
      {
        AddOneMore(was, data[..posn], data[posn], offset);
        assert data[..posn] + [data[posn]] == data[..posn + 1];
        B[offset + posn] := XorByte(B[offset + posn], data[posn]);
        posn := posn + 1;
      }
    }

    method OverwriteBytes(data: seq<byte>, offset: nat)
      requires Valid()
      modifies B
      ensures Bytes() == OverwriteWithin(old(Bytes()), data, offset)
    {
      hide OverwriteAt;
      ghost var was := Bytes();
      if offset <= 40 {
        OverwriteNothing(was, offset);
      }
      var posn := 0;
      while offset + posn < 40 && posn < |data|
        invariant posn <= Fit(offset, |data|)
        invariant B[..] == if offset > 40 then was else OverwriteAt(was, data[..posn], offset)
      {
        OverwriteOneMore(was, data[..posn], data[posn], offset);
        assert data[..posn] + [data[posn]] == data[..posn + 1];
        B[offset + posn] := data[posn];
        posn := posn + 1;
      }
    }

    method OverwriteWithZeroes(offset: nat, size: nat)
      requires Valid()
      modifies B
      ensures Bytes() == OverwriteWithin(old(Bytes()), Zeros(size), offset)
    {
      hide OverwriteAt;
      ghost var was := Bytes();
      if offset <= 40 {
        OverwriteNothing(was, offset);
      }
      assert Zeros(0) == [];
      var posn := 0;
      while offset + posn < 40 && posn < size
        invariant posn <= Fit(offset, size)
        invariant B[..] == if offset > 40 then was else OverwriteAt(was, Zeros(posn), offset)
      {
        OverwriteOneMore(was, Zeros(posn), 0, offset);
        assert Zeros(posn) + [0] == Zeros(posn + 1);
        B[offset + posn] := 0;
        posn := posn + 1;
      }
      assert Zeros(size)[..posn] == Zeros(posn);
    }

    method ExtractBytes(offset: nat, size: nat) returns (data: seq<byte>)
      requires Valid()
      ensures data == ExtractWithin(Bytes(), offset, size)
    {
      hide ExtractAt;
      data := [];
      if offset <= 40 {
        ExtractNothing(Bytes(), offset);
      }
      while offset + |data| < 40 && |data| < size
        invariant |data| <= Fit(offset, size)
        invariant data == if offset > 40 then [] else ExtractAt(Bytes(), offset, |data|)
      {
        ExtractOneMore(Bytes(), offset, |data|);
        data := data + [B[offset + |data|]];
      }
    }

    method ExtractAndAddBytes(input: seq<byte>, offset: nat) returns (output: seq<byte>)
      requires Valid()
      ensures output == XorWithin(Bytes(), input, offset)
    {
      hide XorBytes, ExtractAt, XorByte;
      output := [];
      XorNothing();
      if offset <= 40 {
        ExtractNothing(Bytes(), offset);
      }
      while offset + |output| < 40 && |output| < |input|
        invariant |output| <= Fit(offset, |input|)
        invariant output == if offset > 40 then [] else XorBytes(input[..|output|], ExtractAt(Bytes(), offset, |output|))
      {
        var posn := |output|;
        XorOneMore(input[..posn], input[posn], Bytes(), offset);
        assert input[..posn] + [input[posn]] == input[..posn + 1];
        output := output + [XorByte(input[posn], B[offset + posn])];
      }
    }

    method ExtractAndOverwriteBytes(input: seq<byte>, offset: nat) returns (output: seq<byte>)
      requires Valid()
      modifies B
      ensures output == XorWithin(old(Bytes()), input, offset)
      ensures Bytes() == OverwriteWithin(old(Bytes()), input, offset)
    {
      hide XorBytes, ExtractAt, OverwriteAt, XorByte;
      ghost var was := Bytes();
      output := [];
      XorNothing();
      if offset <= 40 {
        ExtractNothing(was, offset);
        OverwriteNothing(was, offset);
      }
      while offset + |output| < 40 && |output| < |input|
        invariant |output| <= Fit(offset, |input|)
        invariant output == if offset > 40 then [] else XorBytes(input[..|output|], ExtractAt(was, offset, |output|))
        invariant B[..] == if offset > 40 then was else OverwriteAt(was, input[..|output|], offset)
      {
        var posn := |output|;
        XorOneMore(input[..posn], input[posn], was, offset);
        OverwriteOneMore(was, input[..posn], input[posn], offset);
        assert input[..posn] + [input[posn]] == input[..posn + 1];
        var byteIn := input[posn];
        output := output + [XorByte(byteIn, B[offset + posn])];
        B[offset + posn] := byteIn;
      }
    }

    method Pad(offset: nat)
      requires Valid() && offset < 40
      modifies B
      ensures Bytes() == PadAt(old(Bytes()), offset)
    {
      B[offset] := B[offset] ^ 0x80;
    }

    method Separator()
      requires Valid()
      modifies B
      ensures Bytes() == AddSeparator(old(Bytes()))
    {
      B[39] := B[39] ^ 0x01;
    }

    method Permute(firstRound: nat)
      requires Valid()
      modifies B
      ensures Bytes() == permutation(old(Bytes()), firstRound)
    {
      var s := permutation(B[..], firstRound);
      forall i | 0 <= i < 40 {
        B[i] := s[i];
      }
    }

    method CopyFrom(src: State)
      requires Valid() && src.Valid()
      modifies B
      ensures Bytes() == old(src.Bytes())
    {
      var s := src.B[..];
      forall i | 0 <= i < 40 {
        B[i] := s[i];
      }
    }
  }
}
