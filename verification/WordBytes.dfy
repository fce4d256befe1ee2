/** 64-bit words as eight bytes in big-endian order, and how the word-based backends read and
    change single bytes of a word with shifts and masks. */
module WordBytes {
  import opened Bytes
  import opened AsconRounds

  function WordOfBytes(b0: byte, b1: byte, b2: byte, b3: byte, b4: byte, b5: byte, b6: byte, b7: byte): bv64 {
    ((b0 as bv64) << 56) | ((b1 as bv64) << 48) | ((b2 as bv64) << 40) | ((b3 as bv64) << 32) |
    ((b4 as bv64) << 24) | ((b5 as bv64) << 16) | ((b6 as bv64) << 8) | (b7 as bv64)
  }

  /** The word whose big-endian bytes are d. */
  function LoadWord(d: seq<byte>): bv64
    requires |d| == 8
  {
    WordOfBytes(d[0], d[1], d[2], d[3], d[4], d[5], d[6], d[7])
  }

  function StoreWord(v: bv64): (d: seq<byte>)
    ensures |d| == 8
  {
    [(v >> 56) as byte, ((v >> 48) & 0xFF) as byte, ((v >> 40) & 0xFF) as byte, ((v >> 32) & 0xFF) as byte,
     ((v >> 24) & 0xFF) as byte, ((v >> 16) & 0xFF) as byte, ((v >> 8) & 0xFF) as byte, (v & 0xFF) as byte]
  }

  lemma StoreOfBytes(b0: byte, b1: byte, b2: byte, b3: byte, b4: byte, b5: byte, b6: byte, b7: byte)
    ensures StoreWord(WordOfBytes(b0, b1, b2, b3, b4, b5, b6, b7)) == [b0, b1, b2, b3, b4, b5, b6, b7]
  {
  }

  lemma StoreLoad(d: seq<byte>)
    requires |d| == 8
    ensures StoreWord(LoadWord(d)) == d
  {
    hide WordOfBytes, StoreWord;
    StoreOfBytes(d[0], d[1], d[2], d[3], d[4], d[5], d[6], d[7]);
  }

  lemma LoadStore(v: bv64)
    ensures LoadWord(StoreWord(v)) == v
  {
  }

  lemma XorOfBytes(a0: byte, a1: byte, a2: byte, a3: byte, a4: byte, a5: byte, a6: byte, a7: byte,
                   b0: byte, b1: byte, b2: byte, b3: byte, b4: byte, b5: byte, b6: byte, b7: byte)
    ensures Xor(WordOfBytes(a0, a1, a2, a3, a4, a5, a6, a7), WordOfBytes(b0, b1, b2, b3, b4, b5, b6, b7))
         == WordOfBytes(XorByte(a0, b0), XorByte(a1, b1), XorByte(a2, b2), XorByte(a3, b3),
                        XorByte(a4, b4), XorByte(a5, b5), XorByte(a6, b6), XorByte(a7, b7))
  {
  }

  lemma XorLoad(d: seq<byte>, e: seq<byte>)
    requires |d| == 8 && |e| == 8
    ensures Xor(LoadWord(d), LoadWord(e)) == LoadWord(XorBytes(d, e))
  {
    hide WordOfBytes, Xor, XorByte;
    XorOfBytes(d[0], d[1], d[2], d[3], d[4], d[5], d[6], d[7],
               e[0], e[1], e[2], e[3], e[4], e[5], e[6], e[7]);
  }

  // ---------------------------------------------------------------- shifts and masks

  /** The shift that selects byte j; one step past the last byte it has wrapped around. */
  function ShiftOf(j: nat): bv7
    requires j <= 8
  {
    if j == 0 then 56 else if j == 1 then 48 else if j == 2 then 40 else if j == 3 then 32
    else if j == 4 then 24 else if j == 5 then 16 else if j == 6 then 8 else if j == 7 then 0
    else 120
  }

  lemma ShiftSteps(j: nat)
    requires j < 8
    ensures ShiftOf(j + 1) == ShiftOf(j) - 8
    ensures ShiftOf(j) <= 56
  {
  }

  function GetByte(v: bv64, shift: bv7): byte
    requires shift <= 56
  {
    ((v >> shift) & 0xFF) as byte
  }

  function ClearByte(v: bv64, shift: bv7): bv64
    requires shift <= 56
  {
    v & !(0xFF << shift)
  }

  function OrByte(v: bv64, shift: bv7, b: byte): bv64
    requires shift <= 56
  {
    v | ((b as bv64) << shift)
  }

  lemma GetByteAt(d: seq<byte>, j: nat)
    requires |d| == 8 && j < 8
    ensures ShiftOf(j) <= 56 && GetByte(LoadWord(d), ShiftOf(j)) == d[j]
  {
    hide GetByte, WordOfBytes;
    if j == 0 {
      Get0(d[0], d[1], d[2], d[3], d[4], d[5], d[6], d[7]);
    } else if j == 1 {
      Get1(d[0], d[1], d[2], d[3], d[4], d[5], d[6], d[7]);
    } else if j == 2 {
      Get2(d[0], d[1], d[2], d[3], d[4], d[5], d[6], d[7]);
    } else if j == 3 {
      Get3(d[0], d[1], d[2], d[3], d[4], d[5], d[6], d[7]);
    } else if j == 4 {
      Get4(d[0], d[1], d[2], d[3], d[4], d[5], d[6], d[7]);
    } else if j == 5 {
      Get5(d[0], d[1], d[2], d[3], d[4], d[5], d[6], d[7]);
    } else if j == 6 {
      Get6(d[0], d[1], d[2], d[3], d[4], d[5], d[6], d[7]);
    } else {
      Get7(d[0], d[1], d[2], d[3], d[4], d[5], d[6], d[7]);
    }
  }

  lemma ClearByteAt(d: seq<byte>, j: nat)
    requires |d| == 8 && j < 8
    ensures ShiftOf(j) <= 56 && ClearByte(LoadWord(d), ShiftOf(j)) == LoadWord(d[j := 0])
  {
    hide ClearByte, WordOfBytes;
    if j == 0 {
      Clear0(d[0], d[1], d[2], d[3], d[4], d[5], d[6], d[7]);
    } else if j == 1 {
      Clear1(d[0], d[1], d[2], d[3], d[4], d[5], d[6], d[7]);
    } else if j == 2 {
      Clear2(d[0], d[1], d[2], d[3], d[4], d[5], d[6], d[7]);
    } else if j == 3 {
      Clear3(d[0], d[1], d[2], d[3], d[4], d[5], d[6], d[7]);
    } else if j == 4 {
      Clear4(d[0], d[1], d[2], d[3], d[4], d[5], d[6], d[7]);
    } else if j == 5 {
      Clear5(d[0], d[1], d[2], d[3], d[4], d[5], d[6], d[7]);
    } else if j == 6 {
      Clear6(d[0], d[1], d[2], d[3], d[4], d[5], d[6], d[7]);
    } else {
      Clear7(d[0], d[1], d[2], d[3], d[4], d[5], d[6], d[7]);
    }
  }

  lemma OrByteAt(d: seq<byte>, j: nat, b: byte)
    requires |d| == 8 && j < 8 && d[j] == 0
    ensures ShiftOf(j) <= 56 && OrByte(LoadWord(d), ShiftOf(j), b) == LoadWord(d[j := b])
  {
    hide OrByte, WordOfBytes;
    if j == 0 {
      Or0(d[0], d[1], d[2], d[3], d[4], d[5], d[6], d[7], b);
    } else if j == 1 {
      Or1(d[0], d[1], d[2], d[3], d[4], d[5], d[6], d[7], b);
    } else if j == 2 {
      Or2(d[0], d[1], d[2], d[3], d[4], d[5], d[6], d[7], b);
    } else if j == 3 {
      Or3(d[0], d[1], d[2], d[3], d[4], d[5], d[6], d[7], b);
    } else if j == 4 {
      Or4(d[0], d[1], d[2], d[3], d[4], d[5], d[6], d[7], b);
    } else if j == 5 {
      Or5(d[0], d[1], d[2], d[3], d[4], d[5], d[6], d[7], b);
    } else if j == 6 {
      Or6(d[0], d[1], d[2], d[3], d[4], d[5], d[6], d[7], b);
    } else {
      Or7(d[0], d[1], d[2], d[3], d[4], d[5], d[6], d[7], b);
    }
  }

  // ---------------------------------------------------------------- five words as forty bytes

  function StateBytes(ws: seq<bv64>): Block
    requires |ws| == 5
  {
    seq(40, i requires 0 <= i < 40 => StoreWord(ws[i / 8])[i % 8])
  }

  lemma WordOfState(ws: seq<bv64>, k: nat)
    requires |ws| == 5 && k < 5
    ensures ExtractAt(StateBytes(ws), 8 * k, 8) == StoreWord(ws[k])
    ensures LoadWord(ExtractAt(StateBytes(ws), 8 * k, 8)) == ws[k]
  {
    hide StoreWord, LoadWord;
    assert ExtractAt(StateBytes(ws), 8 * k, 8) == StoreWord(ws[k]);
    LoadStore(ws[k]);
  }

  /** Replacing a word replaces its eight bytes. */
  lemma StateWithWord(ws: seq<bv64>, k: nat, d: seq<byte>)
    requires |ws| == 5 && k < 5 && |d| == 8
    ensures StateBytes(ws[k := LoadWord(d)]) == OverwriteAt(StateBytes(ws), d, 8 * k)
  {
    hide StoreWord, LoadWord;
    StoreLoad(d);
  }

  // ---------------------------------------------------------------- words with one bit set

  function PaddingWord(j: nat): bv64
    requires j < 8
  {
    0x8000_0000_0000_0000 >> (j * 8)
  }

  lemma PaddingWordBytes(j: nat)
    requires j < 8
    ensures PaddingWord(j) == LoadWord(Zeros(8)[j := 0x80])
  {
    hide PaddingWord, LoadWord;
    PaddingWords();
    WordsWithOneBit();
  }

  lemma PaddingWords()
    ensures PaddingWord(0) == 0x8000000000000000
    ensures PaddingWord(1) == 0x0080000000000000
    ensures PaddingWord(2) == 0x0000800000000000
    ensures PaddingWord(3) == 0x0000008000000000
    ensures PaddingWord(4) == 0x0000000080000000
    ensures PaddingWord(5) == 0x0000000000800000
    ensures PaddingWord(6) == 0x0000000000008000
    ensures PaddingWord(7) == 0x0000000000000080
  {
  }

  lemma WordsWithOneBit()
    ensures LoadWord(Zeros(8)[0 := 0x80]) == 0x8000000000000000
    ensures LoadWord(Zeros(8)[1 := 0x80]) == 0x0080000000000000
    ensures LoadWord(Zeros(8)[2 := 0x80]) == 0x0000800000000000
    ensures LoadWord(Zeros(8)[3 := 0x80]) == 0x0000008000000000
    ensures LoadWord(Zeros(8)[4 := 0x80]) == 0x0000000080000000
    ensures LoadWord(Zeros(8)[5 := 0x80]) == 0x0000000000800000
    ensures LoadWord(Zeros(8)[6 := 0x80]) == 0x0000000000008000
    ensures LoadWord(Zeros(8)[7 := 0x80]) == 0x0000000000000080
  {
  }

  lemma SeparatorWordBytes()
    ensures LoadWord(Zeros(8)[7 := 0x01]) == 0x01
  {
  }

  // Adding a word that is zero but for one byte changes that byte only.
  lemma AddOneBit(s: Block, k: nat, j: nat, b: byte)
    requires k < 5 && j < 8
    ensures AddAt(s, Zeros(8)[j := b], 8 * k) == s[8 * k + j := XorByte(s[8 * k + j], b)]
  {
    hide XorByte;
    var d := Zeros(8)[j := b];
    forall i: nat | i < 40
      ensures AddAt(s, d, 8 * k)[i] == s[8 * k + j := XorByte(s[8 * k + j], b)][i]
    {
      AddAtIndex(s, d, 8 * k, i);
      XorZero(s[i]);
    }
  }

  lemma XorZero(b: byte)
    ensures XorByte(b, 0) == b
  {
  }

  lemma XorWithStored(data: seq<byte>, v: bv64)
    requires |data| == 8
    ensures StoreWord(Xor(LoadWord(data), v)) == XorBytes(data, StoreWord(v))
  {
    hide StoreWord, LoadWord, XorByte, Xor;
    LoadStore(v);
    XorLoad(data, StoreWord(v));
    StoreLoad(XorBytes(data, StoreWord(v)));
  }

  // The same, one byte position at a time.

  lemma Get0(b0: byte, b1: byte, b2: byte, b3: byte, b4: byte, b5: byte, b6: byte, b7: byte)
    ensures GetByte(WordOfBytes(b0, b1, b2, b3, b4, b5, b6, b7), 56) == b0
  {
  }

  lemma Clear0(b0: byte, b1: byte, b2: byte, b3: byte, b4: byte, b5: byte, b6: byte, b7: byte)
    ensures ClearByte(WordOfBytes(b0, b1, b2, b3, b4, b5, b6, b7), 56)
         == WordOfBytes(0, b1, b2, b3, b4, b5, b6, b7)
  {
  }

  lemma Or0(b0: byte, b1: byte, b2: byte, b3: byte, b4: byte, b5: byte, b6: byte, b7: byte, b: byte)
    ensures OrByte(WordOfBytes(0, b1, b2, b3, b4, b5, b6, b7), 56, b)
         == WordOfBytes(b, b1, b2, b3, b4, b5, b6, b7)
  {
  }

  lemma Get1(b0: byte, b1: byte, b2: byte, b3: byte, b4: byte, b5: byte, b6: byte, b7: byte)
    ensures GetByte(WordOfBytes(b0, b1, b2, b3, b4, b5, b6, b7), 48) == b1
  {
  }

  lemma Clear1(b0: byte, b1: byte, b2: byte, b3: byte, b4: byte, b5: byte, b6: byte, b7: byte)
    ensures ClearByte(WordOfBytes(b0, b1, b2, b3, b4, b5, b6, b7), 48)
         == WordOfBytes(b0, 0, b2, b3, b4, b5, b6, b7)
  {
  }

  lemma Or1(b0: byte, b1: byte, b2: byte, b3: byte, b4: byte, b5: byte, b6: byte, b7: byte, b: byte)
    ensures OrByte(WordOfBytes(b0, 0, b2, b3, b4, b5, b6, b7), 48, b)
         == WordOfBytes(b0, b, b2, b3, b4, b5, b6, b7)
  {
  }

  lemma Get2(b0: byte, b1: byte, b2: byte, b3: byte, b4: byte, b5: byte, b6: byte, b7: byte)
    ensures GetByte(WordOfBytes(b0, b1, b2, b3, b4, b5, b6, b7), 40) == b2
  {
  }

  lemma Clear2(b0: byte, b1: byte, b2: byte, b3: byte, b4: byte, b5: byte, b6: byte, b7: byte)
    ensures ClearByte(WordOfBytes(b0, b1, b2, b3, b4, b5, b6, b7), 40)
         == WordOfBytes(b0, b1, 0, b3, b4, b5, b6, b7)
  {
  }

  lemma Or2(b0: byte, b1: byte, b2: byte, b3: byte, b4: byte, b5: byte, b6: byte, b7: byte, b: byte)
    ensures OrByte(WordOfBytes(b0, b1, 0, b3, b4, b5, b6, b7), 40, b)
         == WordOfBytes(b0, b1, b, b3, b4, b5, b6, b7)
  {
  }

  lemma Get3(b0: byte, b1: byte, b2: byte, b3: byte, b4: byte, b5: byte, b6: byte, b7: byte)
    ensures GetByte(WordOfBytes(b0, b1, b2, b3, b4, b5, b6, b7), 32) == b3
  {
  }

  lemma Clear3(b0: byte, b1: byte, b2: byte, b3: byte, b4: byte, b5: byte, b6: byte, b7: byte)
    ensures ClearByte(WordOfBytes(b0, b1, b2, b3, b4, b5, b6, b7), 32)
         == WordOfBytes(b0, b1, b2, 0, b4, b5, b6, b7)
  {
  }

  lemma Or3(b0: byte, b1: byte, b2: byte, b3: byte, b4: byte, b5: byte, b6: byte, b7: byte, b: byte)
    ensures OrByte(WordOfBytes(b0, b1, b2, 0, b4, b5, b6, b7), 32, b)
         == WordOfBytes(b0, b1, b2, b, b4, b5, b6, b7)
  {
  }

  lemma Get4(b0: byte, b1: byte, b2: byte, b3: byte, b4: byte, b5: byte, b6: byte, b7: byte)
    ensures GetByte(WordOfBytes(b0, b1, b2, b3, b4, b5, b6, b7), 24) == b4
  {
  }

  lemma Clear4(b0: byte, b1: byte, b2: byte, b3: byte, b4: byte, b5: byte, b6: byte, b7: byte)
    ensures ClearByte(WordOfBytes(b0, b1, b2, b3, b4, b5, b6, b7), 24)
         == WordOfBytes(b0, b1, b2, b3, 0, b5, b6, b7)
  {
  }

  lemma Or4(b0: byte, b1: byte, b2: byte, b3: byte, b4: byte, b5: byte, b6: byte, b7: byte, b: byte)
    ensures OrByte(WordOfBytes(b0, b1, b2, b3, 0, b5, b6, b7), 24, b)
         == WordOfBytes(b0, b1, b2, b3, b, b5, b6, b7)
  {
  }

  lemma Get5(b0: byte, b1: byte, b2: byte, b3: byte, b4: byte, b5: byte, b6: byte, b7: byte)
    ensures GetByte(WordOfBytes(b0, b1, b2, b3, b4, b5, b6, b7), 16) == b5
  {
  }

  lemma Clear5(b0: byte, b1: byte, b2: byte, b3: byte, b4: byte, b5: byte, b6: byte, b7: byte)
    ensures ClearByte(WordOfBytes(b0, b1, b2, b3, b4, b5, b6, b7), 16)
         == WordOfBytes(b0, b1, b2, b3, b4, 0, b6, b7)
  {
  }

  lemma Or5(b0: byte, b1: byte, b2: byte, b3: byte, b4: byte, b5: byte, b6: byte, b7: byte, b: byte)
    ensures OrByte(WordOfBytes(b0, b1, b2, b3, b4, 0, b6, b7), 16, b)
         == WordOfBytes(b0, b1, b2, b3, b4, b, b6, b7)
  {
  }

  lemma Get6(b0: byte, b1: byte, b2: byte, b3: byte, b4: byte, b5: byte, b6: byte, b7: byte)
    ensures GetByte(WordOfBytes(b0, b1, b2, b3, b4, b5, b6, b7), 8) == b6
  {
  }

  lemma Clear6(b0: byte, b1: byte, b2: byte, b3: byte, b4: byte, b5: byte, b6: byte, b7: byte)
    ensures ClearByte(WordOfBytes(b0, b1, b2, b3, b4, b5, b6, b7), 8)
         == WordOfBytes(b0, b1, b2, b3, b4, b5, 0, b7)
  {
  }

  lemma Or6(b0: byte, b1: byte, b2: byte, b3: byte, b4: byte, b5: byte, b6: byte, b7: byte, b: byte)
    ensures OrByte(WordOfBytes(b0, b1, b2, b3, b4, b5, 0, b7), 8, b)
         == WordOfBytes(b0, b1, b2, b3, b4, b5, b, b7)
  {
  }

  lemma Get7(b0: byte, b1: byte, b2: byte, b3: byte, b4: byte, b5: byte, b6: byte, b7: byte)
    ensures GetByte(WordOfBytes(b0, b1, b2, b3, b4, b5, b6, b7), 0) == b7
  {
  }

  lemma Clear7(b0: byte, b1: byte, b2: byte, b3: byte, b4: byte, b5: byte, b6: byte, b7: byte)
    ensures ClearByte(WordOfBytes(b0, b1, b2, b3, b4, b5, b6, b7), 0)
         == WordOfBytes(b0, b1, b2, b3, b4, b5, b6, 0)
  {
  }

  lemma Or7(b0: byte, b1: byte, b2: byte, b3: byte, b4: byte, b5: byte, b6: byte, b7: byte, b: byte)
    ensures OrByte(WordOfBytes(b0, b1, b2, b3, b4, b5, b6, 0), 0, b)
         == WordOfBytes(b0, b1, b2, b3, b4, b5, b6, b)
  {
  }
}
