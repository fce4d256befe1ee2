/** The 32-bit implementation of the permutation, on words sliced into even and odd bits.  It
    runs the rounds of the 64-bit implementation on both halves at once, with every 64-bit
    rotation rewritten as rotations of the halves. */
module AsconC32 {
  import opened AsconRounds
  import opened AsconSlicing
  import opened AsconC64

  datatype Half = Half(x0: bv32, x1: bv32, x2: bv32, x3: bv32, x4: bv32)

  function EvenHalf(s: Words): Half {
    Half(Even(s.x0), Even(s.x1), Even(s.x2), Even(s.x3), Even(s.x4))
  }

  function OddHalf(s: Words): Half {
    Half(Odd(s.x0), Odd(s.x1), Odd(s.x2), Odd(s.x3), Odd(s.x4))
  }

  function JoinHalves(e: Half, o: Half): Words {
    Words(Join(e.x0, o.x0), Join(e.x1, o.x1), Join(e.x2, o.x2), Join(e.x3, o.x3), Join(e.x4, o.x4))
  }

  /** The 320-bit state that ten sliced words stand for. */
  function StateWords32(w: seq<bv32>): Words
    requires |w| == 10
  {
    JoinHalves(Half(w[0], w[2], w[4], w[6], w[8]), Half(w[1], w[3], w[5], w[7], w[9]))
  }

  lemma HalvesJoined(e: Half, o: Half)
    ensures EvenHalf(JoinHalves(e, o)) == e && OddHalf(JoinHalves(e, o)) == o
  {
    hide Even, Odd, Join;
    SlicedJoin(e.x0, o.x0);
    SlicedJoin(e.x1, o.x1);
    SlicedJoin(e.x2, o.x2);
    SlicedJoin(e.x3, o.x3);
    SlicedJoin(e.x4, o.x4);
  }

  lemma JoinedHalves(s: Words)
    ensures JoinHalves(EvenHalf(s), OddHalf(s)) == s
  {
    hide Even, Odd, Join;
    JoinSliced(s.x0);
    JoinSliced(s.x1);
    JoinSliced(s.x2);
    JoinSliced(s.x3);
    JoinSliced(s.x4);
  }

  // The pairs of the table: the even and the odd bits of each complemented constant.
  const RC32: seq<(bv32, bv32)> := [
    (!12, !12), (!9, !12), (!12, !9), (!9, !9), (!6, !12), (!3, !12),
    (!6, !9), (!3, !9), (!12, !6), (!9, !6), (!12, !3), (!9, !3)
  ]

  lemma ConstantsSliced(round: nat)
    requires round < 12
    ensures Even(RC[round]) == RC32[round].0
    ensures Odd(RC[round]) == RC32[round].1
  {
    hide Even, Odd, RC, RC32;
    TableValues();
    ConstantValues();
    SlicedConstants();
  }

  lemma TableLengths()
    ensures |RC| == 12 && |RC32| == 12
  {
  }

  lemma TableValues()
    ensures RC32[0] == (!12, !12) && RC32[1] == (!9, !12) && RC32[2] == (!12, !9) && RC32[3] == (!9, !9)
    ensures RC32[4] == (!6, !12) && RC32[5] == (!3, !12) && RC32[6] == (!6, !9) && RC32[7] == (!3, !9)
    ensures RC32[8] == (!12, !6) && RC32[9] == (!9, !6) && RC32[10] == (!12, !3) && RC32[11] == (!9, !3)
  {
  }

  lemma SlicedConstants()
    ensures Even(!0xF0) == !12 && Odd(!0xF0) == !12 && Even(!0xE1) == !9 && Odd(!0xE1) == !12
    ensures Even(!0xD2) == !12 && Odd(!0xD2) == !9 && Even(!0xC3) == !9 && Odd(!0xC3) == !9
    ensures Even(!0xB4) == !6 && Odd(!0xB4) == !12 && Even(!0xA5) == !3 && Odd(!0xA5) == !12
    ensures Even(!0x96) == !6 && Odd(!0x96) == !9 && Even(!0x87) == !3 && Odd(!0x87) == !9
    ensures Even(!0x78) == !12 && Odd(!0x78) == !6 && Even(!0x69) == !9 && Odd(!0x69) == !6
    ensures Even(!0x5A) == !12 && Odd(!0x5A) == !3 && Even(!0x4B) == !9 && Odd(!0x4B) == !3
  {
  }

  // ---------------------------------------------------------------- rotations as shifts

  function RightRotate32(x: bv32, bits: nat): bv32
    requires bits <= 32
  {
    (x >> bits) | (x << (32 - bits))
  }

  lemma HalfRotateBy1(x: bv32)
    ensures Rotate32(x, 1) == x.RotateRight(1)
  {
    assert Rotate32(x, 0) == x;
  }

  lemma HalfRotateBy2(x: bv32)
    ensures Rotate32(x, 2) == x.RotateRight(2)
  {
    hide RotateOnce32;
    calc {
      Rotate32(x, 2);
      { RotateRotate32(x, 1, 1); }
      Rotate32(Rotate32(x, 1), 1);
      { HalfRotateBy1(x); }
      Rotate32(x.RotateRight(1), 1);
      { HalfRotateBy1(x.RotateRight(1)); }
      x.RotateRight(1).RotateRight(1);
      x.RotateRight(2);
    }
  }

  lemma HalfRotateBy3(x: bv32)
    ensures Rotate32(x, 3) == x.RotateRight(3)
  {
    hide RotateOnce32;
    calc {
      Rotate32(x, 3);
      { RotateRotate32(x, 2, 1); }
      Rotate32(Rotate32(x, 2), 1);
      { HalfRotateBy2(x); }
      Rotate32(x.RotateRight(2), 1);
      { HalfRotateBy1(x.RotateRight(2)); }
      x.RotateRight(2).RotateRight(1);
      x.RotateRight(3);
    }
  }

  lemma HalfRotateBy4(x: bv32)
    ensures Rotate32(x, 4) == x.RotateRight(4)
  {
    hide RotateOnce32;
    calc {
      Rotate32(x, 4);
      { RotateRotate32(x, 2, 2); }
      Rotate32(Rotate32(x, 2), 2);
      { HalfRotateBy2(x); }
      Rotate32(x.RotateRight(2), 2);
      { HalfRotateBy2(x.RotateRight(2)); }
      x.RotateRight(2).RotateRight(2);
      x.RotateRight(4);
    }
  }

  lemma HalfRotateBy5(x: bv32)
    ensures Rotate32(x, 5) == x.RotateRight(5)
  {
    hide RotateOnce32;
    calc {
      Rotate32(x, 5);
      { RotateRotate32(x, 4, 1); }
      Rotate32(Rotate32(x, 4), 1);
      { HalfRotateBy4(x); }
      Rotate32(x.RotateRight(4), 1);
      { HalfRotateBy1(x.RotateRight(4)); }
      x.RotateRight(4).RotateRight(1);
      x.RotateRight(5);
    }
  }

  lemma HalfRotateBy8(x: bv32)
    ensures Rotate32(x, 8) == x.RotateRight(8)
  {
    hide RotateOnce32;
    calc {
      Rotate32(x, 8);
      { RotateRotate32(x, 4, 4); }
      Rotate32(Rotate32(x, 4), 4);
      { HalfRotateBy4(x); }
      Rotate32(x.RotateRight(4), 4);
      { HalfRotateBy4(x.RotateRight(4)); }
      x.RotateRight(4).RotateRight(4);
      x.RotateRight(8);
    }
  }

  lemma HalfRotateBy9(x: bv32)
    ensures Rotate32(x, 9) == x.RotateRight(9)
  {
    hide RotateOnce32;
    calc {
      Rotate32(x, 9);
      { RotateRotate32(x, 8, 1); }
      Rotate32(Rotate32(x, 8), 1);
      { HalfRotateBy8(x); }
      Rotate32(x.RotateRight(8), 1);
      { HalfRotateBy1(x.RotateRight(8)); }
      x.RotateRight(8).RotateRight(1);
      x.RotateRight(9);
    }
  }

  lemma HalfRotateBy10(x: bv32)
    ensures Rotate32(x, 10) == x.RotateRight(10)
  {
    hide RotateOnce32;
    calc {
      Rotate32(x, 10);
      { RotateRotate32(x, 9, 1); }
      Rotate32(Rotate32(x, 9), 1);
      { HalfRotateBy9(x); }
      Rotate32(x.RotateRight(9), 1);
      { HalfRotateBy1(x.RotateRight(9)); }
      x.RotateRight(9).RotateRight(1);
      x.RotateRight(10);
    }
  }

  lemma HalfRotateBy11(x: bv32)
    ensures Rotate32(x, 11) == x.RotateRight(11)
  {
    hide RotateOnce32;
    calc {
      Rotate32(x, 11);
      { RotateRotate32(x, 10, 1); }
      Rotate32(Rotate32(x, 10), 1);
      { HalfRotateBy10(x); }
      Rotate32(x.RotateRight(10), 1);
      { HalfRotateBy1(x.RotateRight(10)); }
      x.RotateRight(10).RotateRight(1);
      x.RotateRight(11);
    }
  }

  lemma HalfRotateBy16(x: bv32)
    ensures Rotate32(x, 16) == x.RotateRight(16)
  {
    hide RotateOnce32;
    calc {
      Rotate32(x, 16);
      { RotateRotate32(x, 8, 8); }
      Rotate32(Rotate32(x, 8), 8);
      { HalfRotateBy8(x); }
      Rotate32(x.RotateRight(8), 8);
      { HalfRotateBy8(x.RotateRight(8)); }
      x.RotateRight(8).RotateRight(8);
      x.RotateRight(16);
    }
  }

  lemma HalfRotateBy17(x: bv32)
    ensures Rotate32(x, 17) == x.RotateRight(17)
  {
    hide RotateOnce32;
    calc {
      Rotate32(x, 17);
      { RotateRotate32(x, 16, 1); }
      Rotate32(Rotate32(x, 16), 1);
      { HalfRotateBy16(x); }
      Rotate32(x.RotateRight(16), 1);
      { HalfRotateBy1(x.RotateRight(16)); }
      x.RotateRight(16).RotateRight(1);
      x.RotateRight(17);
    }
  }

  lemma HalfRotateBy19(x: bv32)
    ensures Rotate32(x, 19) == x.RotateRight(19)
  {
    hide RotateOnce32;
    calc {
      Rotate32(x, 19);
      { RotateRotate32(x, 17, 2); }
      Rotate32(Rotate32(x, 17), 2);
      { HalfRotateBy17(x); }
      Rotate32(x.RotateRight(17), 2);
      { HalfRotateBy2(x.RotateRight(17)); }
      x.RotateRight(17).RotateRight(2);
      x.RotateRight(19);
    }
  }

  lemma HalfRotateBy20(x: bv32)
    ensures Rotate32(x, 20) == x.RotateRight(20)
  {
    hide RotateOnce32;
    calc {
      Rotate32(x, 20);
      { RotateRotate32(x, 19, 1); }
      Rotate32(Rotate32(x, 19), 1);
      { HalfRotateBy19(x); }
      Rotate32(x.RotateRight(19), 1);
      { HalfRotateBy1(x.RotateRight(19)); }
      x.RotateRight(19).RotateRight(1);
      x.RotateRight(20);
    }
  }

  lemma RotationAmounts32(x: bv32)
    ensures RightRotate32(x, 1) == Rotate32(x, 1) && RightRotate32(x, 2) == Rotate32(x, 2)
    ensures RightRotate32(x, 3) == Rotate32(x, 3) && RightRotate32(x, 4) == Rotate32(x, 4)
    ensures RightRotate32(x, 5) == Rotate32(x, 5) && RightRotate32(x, 9) == Rotate32(x, 9)
    ensures RightRotate32(x, 10) == Rotate32(x, 10) && RightRotate32(x, 11) == Rotate32(x, 11)
    ensures RightRotate32(x, 17) == Rotate32(x, 17) && RightRotate32(x, 19) == Rotate32(x, 19)
    ensures RightRotate32(x, 20) == Rotate32(x, 20)
  {
    hide Rotate32;
    HalfRotateBy1(x);
    HalfRotateBy2(x);
    HalfRotateBy3(x);
    HalfRotateBy4(x);
    HalfRotateBy5(x);
    HalfRotateBy9(x);
    HalfRotateBy10(x);
    HalfRotateBy11(x);
    HalfRotateBy17(x);
    HalfRotateBy19(x);
    HalfRotateBy20(x);
  }

  // ---------------------------------------------------------------- one round

  /** The substitution macro on one half of the sliced words. */
  method Sbox(x: Half) returns (r: Half)
    ensures forall s: Words {:trigger EvenHalf(s)} ::
              && (x == EvenHalf(s) ==> r == EvenHalf(SubstituteKept(s)))
              && (x == OddHalf(s) ==> r == OddHalf(SubstituteKept(s)))
  {
    hide Xor32, And32, Not32, Even, Odd, SubstituteKept;
    var x0, x1, x2, x3, x4 := x.x0, x.x1, x.x2, x.x3, x.x4;
    x0, x4, x2 := Xor32(x0, x4), Xor32(x4, x3), Xor32(x2, x1);
    var t0, t1, t2, t3, t4 := Not32(x0), Not32(x1), Not32(x2), Not32(x3), Not32(x4);
    t0, t1, t2, t3, t4 := And32(t0, x1), And32(t1, x2), And32(t2, x3), And32(t3, x4), And32(t4, x0);
    x0, x1, x2, x3, x4 := Xor32(x0, t1), Xor32(x1, t2), Xor32(x2, t3), Xor32(x3, t4), Xor32(x4, t0);
    x1 := Xor32(x1, x0);
    x0, x3 := Xor32(x0, x4), Xor32(x3, x2);
    r := Half(x0, x1, x2, x3, x4);
    assert r == SboxHalf(x);
    forall s: Words
      ensures SboxHalf(EvenHalf(s)) == EvenHalf(SubstituteKept(s))
      ensures SboxHalf(OddHalf(s)) == OddHalf(SubstituteKept(s))
    {
      SboxSliced(s);
    }
  }

  function ChiWord32(x: bv32, y: bv32, z: bv32): bv32 { Xor32(x, And32(Not32(y), z)) }

  function SboxHalf(x: Half): Half {
    var a0, a2, a4 := Xor32(x.x0, x.x4), Xor32(x.x2, x.x1), Xor32(x.x4, x.x3);
    var b0 := ChiWord32(a0, x.x1, a2);
    var b1 := ChiWord32(x.x1, a2, x.x3);
    var b2 := ChiWord32(a2, x.x3, a4);
    var b3 := ChiWord32(x.x3, a4, a0);
    var b4 := ChiWord32(a4, a0, x.x1);
    Half(Xor32(b0, b4), Xor32(b1, b0), b2, Xor32(b3, b2), b4)
  }

  lemma ChiWordSliced(x: bv64, y: bv64, z: bv64)
    ensures Even(ChiWord(x, y, z)) == ChiWord32(Even(x), Even(y), Even(z))
    ensures Odd(ChiWord(x, y, z)) == ChiWord32(Odd(x), Odd(y), Odd(z))
  {
    hide Xor, And, Not, Xor32, And32, Not32, Even, Odd;
    EvenNot(y);
    EvenAnd(Not(y), z);
    EvenXor(x, And(Not(y), z));
  }

  lemma SboxSliced(s: Words)
    ensures SboxHalf(EvenHalf(s)) == EvenHalf(SubstituteKept(s))
    ensures SboxHalf(OddHalf(s)) == OddHalf(SubstituteKept(s))
  {
    hide Xor, Xor32, ChiWord, ChiWord32, Even, Odd;
    var a := Mix(s);
    EvenXor(s.x0, s.x4);
    EvenXor(s.x2, s.x1);
    EvenXor(s.x4, s.x3);
    ChiWordSliced(a.x0, a.x1, a.x2);
    ChiWordSliced(a.x1, a.x2, a.x3);
    ChiWordSliced(a.x2, a.x3, a.x4);
    ChiWordSliced(a.x3, a.x4, a.x0);
    ChiWordSliced(a.x4, a.x0, a.x1);
    var b := Chi(a);
    EvenXor(b.x0, b.x4);
    EvenXor(b.x1, b.x0);
    EvenXor(b.x3, b.x2);
  }

  // One half of a diffused word: the half itself and two rotated terms, of which the second
  // is rotated in two moves.
  lemma TwoMoves(x: bv32, y: bv32, z: bv32, a: nat, b: nat)
    ensures Xor32(x, Rotate32(Xor32(y, Rotate32(z, a)), b))
         == Xor32(Xor32(x, Rotate32(y, b)), Rotate32(z, a + b))
    ensures Xor32(x, Rotate32(Xor32(y, Rotate32(z, a)), b))
         == Xor32(Xor32(x, Rotate32(z, a + b)), Rotate32(y, b))
  {
    hide Xor32, Rotate32;
    RotateXor32(y, Rotate32(z, a), b);
    RotateRotate32(z, a, b);
    XorAssoc32(x, Rotate32(y, b), Rotate32(z, a + b));
    XorAssoc32(x, Rotate32(z, a + b), Rotate32(y, b));
    XorAssoc32(Rotate32(y, b), Rotate32(z, a + b), x);
  }

  lemma LayerSliced(x: bv64, a: nat, b: nat)
    ensures Even(Layer(x, a, b)) == Xor32(Xor32(Even(x), Even(Rotate(x, a))), Even(Rotate(x, b)))
    ensures Odd(Layer(x, a, b)) == Xor32(Xor32(Odd(x), Odd(Rotate(x, a))), Odd(Rotate(x, b)))
  {
    hide Xor, Xor32, Even, Odd, Rotate;
    EvenXor(x, Rotate(x, a));
    EvenXor(Xor(x, Rotate(x, a)), Rotate(x, b));
  }

  lemma Row0Sliced(x: bv64)
    ensures var e, o := Even(x), Odd(x);
            && Even(Layer(x, 19, 28)) == Xor32(e, Rotate32(Xor32(o, Rotate32(e, 5)), 9))
            && Odd(Layer(x, 19, 28)) == Xor32(o, Rotate32(Xor32(e, Rotate32(o, 4)), 10))
  {
    hide Xor32, Even, Odd, Layer, Rotate, Rotate32;
    var e, o := Even(x), Odd(x);
    LayerSliced(x, 19, 28);
    OddRotate(x, 9);
    EvenRotate(x, 14);
    TwoMoves(e, o, e, 5, 9);
    TwoMoves(o, e, o, 4, 10);
  }

  lemma Row1Sliced(x: bv64)
    ensures var e, o := Even(x), Odd(x);
            && Even(Layer(x, 61, 39)) == Xor32(e, Rotate32(Xor32(o, Rotate32(o, 11)), 19))
            && Odd(Layer(x, 61, 39)) == Xor32(o, Rotate32(Xor32(e, Rotate32(e, 11)), 20))
  {
    hide Xor32, Even, Odd, Layer, Rotate, Rotate32;
    var e, o := Even(x), Odd(x);
    LayerSliced(x, 61, 39);
    OddRotate(x, 30);
    OddRotate(x, 19);
    TwoMoves(e, o, o, 11, 19);
    TwoMoves(o, e, e, 11, 20);
  }

  lemma Row2Sliced(x: bv64)
    ensures var e, o := Even(x), Odd(x);
            && Even(Layer(x, 1, 6)) == Xor32(e, Rotate32(Xor32(o, Rotate32(e, 3)), 0))
            && Odd(Layer(x, 1, 6)) == Xor32(o, Rotate32(Xor32(e, Rotate32(o, 2)), 1))
  {
    hide Xor32, Even, Odd, Layer, Rotate, Rotate32;
    var e, o := Even(x), Odd(x);
    LayerSliced(x, 1, 6);
    OddRotate(x, 0);
    EvenRotate(x, 3);
    TwoMoves(e, o, e, 3, 0);
    TwoMoves(o, e, o, 2, 1);
  }

  lemma Row3Sliced(x: bv64)
    ensures var e, o := Even(x), Odd(x);
            && Even(Layer(x, 10, 17)) == Xor32(e, Rotate32(Xor32(e, Rotate32(o, 3)), 5))
            && Odd(Layer(x, 10, 17)) == Xor32(o, Rotate32(Xor32(o, Rotate32(e, 4)), 5))
  {
    hide Xor32, Even, Odd, Layer, Rotate, Rotate32;
    var e, o := Even(x), Odd(x);
    LayerSliced(x, 10, 17);
    EvenRotate(x, 5);
    OddRotate(x, 8);
    TwoMoves(e, e, o, 3, 5);
    TwoMoves(o, o, e, 4, 5);
  }

  lemma Row4Sliced(x: bv64)
    ensures var e, o := Even(x), Odd(x);
            && Even(Layer(x, 7, 41)) == Xor32(e, Rotate32(Xor32(o, Rotate32(o, 17)), 3))
            && Odd(Layer(x, 7, 41)) == Xor32(o, Rotate32(Xor32(e, Rotate32(e, 17)), 4))
  {
    hide Xor32, Even, Odd, Layer, Rotate, Rotate32;
    var e, o := Even(x), Odd(x);
    LayerSliced(x, 7, 41);
    OddRotate(x, 3);
    OddRotate(x, 20);
    TwoMoves(e, o, o, 17, 3);
    TwoMoves(o, e, e, 17, 4);
  }

  lemma Turn32(x: bv32, bits: nat)
    requires bits in {1, 2, 3, 4, 5, 9, 10, 11, 17, 19, 20}
    ensures RightRotate32(x, bits) == Rotate32(x, bits)
  {
    hide RightRotate32, Rotate32;
    RotationAmounts32(x);
  }

  /** The linear diffusion layer on both halves. */
  method Diffuse32(e: Half, o: Half) returns (e': Half, o': Half)
    ensures JoinHalves(e', o') == Diffuse(JoinHalves(e, o))
  {
    hide Xor32, Even, Odd, Join, Layer, Rotate32, RightRotate32;
    ghost var s := JoinHalves(e, o);
    HalvesJoined(e, o);
    Row0Sliced(s.x0);
    Row1Sliced(s.x1);
    Row2Sliced(s.x2);
    Row3Sliced(s.x3);
    Row4Sliced(s.x4);

    var t0 := Xor32(e.x0, RightRotate32(o.x0, 4));
    var t1 := Xor32(o.x0, RightRotate32(e.x0, 5));
    Turn32(o.x0, 4);
    Turn32(e.x0, 5);
    Turn32(t1, 9);
    Turn32(t0, 10);
    var x0_e, x0_o := Xor32(e.x0, RightRotate32(t1, 9)), Xor32(o.x0, RightRotate32(t0, 10));

    t0 := Xor32(e.x1, RightRotate32(e.x1, 11));
    t1 := Xor32(o.x1, RightRotate32(o.x1, 11));
    Turn32(e.x1, 11);
    Turn32(o.x1, 11);
    Turn32(t1, 19);
    Turn32(t0, 20);
    var x1_e, x1_o := Xor32(e.x1, RightRotate32(t1, 19)), Xor32(o.x1, RightRotate32(t0, 20));

    t0 := Xor32(e.x2, RightRotate32(o.x2, 2));
    t1 := Xor32(o.x2, RightRotate32(e.x2, 3));
    Turn32(o.x2, 2);
    Turn32(e.x2, 3);
    RotationZero32(t1);
    Turn32(t0, 1);
    var x2_e, x2_o := Xor32(e.x2, t1), Xor32(o.x2, RightRotate32(t0, 1));

    t0 := Xor32(e.x3, RightRotate32(o.x3, 3));
    t1 := Xor32(o.x3, RightRotate32(e.x3, 4));
    Turn32(o.x3, 3);
    Turn32(e.x3, 4);
    Turn32(t0, 5);
    Turn32(t1, 5);
    var x3_e, x3_o := Xor32(e.x3, RightRotate32(t0, 5)), Xor32(o.x3, RightRotate32(t1, 5));

    t0 := Xor32(e.x4, RightRotate32(e.x4, 17));
    t1 := Xor32(o.x4, RightRotate32(o.x4, 17));
    Turn32(e.x4, 17);
    Turn32(o.x4, 17);
    Turn32(t1, 3);
    Turn32(t0, 4);
    var x4_e, x4_o := Xor32(e.x4, RightRotate32(t1, 3)), Xor32(o.x4, RightRotate32(t0, 4));

    e', o' := Half(x0_e, x1_e, x2_e, x3_e, x4_e), Half(x0_o, x1_o, x2_o, x3_o, x4_o);
    assert e' == EvenHalf(Diffuse(s)) && o' == OddHalf(Diffuse(s));
    JoinedHalves(Diffuse(s));
  }

  lemma RotationZero32(x: bv32)
    ensures Rotate32(x, 0) == x
  {
  }

  /** The body of the loop: the 64-bit loop body on the word the halves stand for. */
  method OneRound32(e: Half, o: Half, round: nat) returns (e': Half, o': Half)
    requires round < 12
    ensures JoinHalves(e', o') == Step(JoinHalves(e, o), RC[round])
  {
    hide Xor, Xor32, Even, Odd, Join, Diffuse, SubstituteKept, RC, RC32;
    ghost var s := JoinHalves(e, o);
    HalvesJoined(e, o);
    TableLengths();
    ConstantsSliced(round);
    EvenXor(s.x2, RC[round]);
    ghost var keyed := s.(x2 := Xor(s.x2, RC[round]));
    e' := e.(x2 := Xor32(e.x2, RC32[round].0));
    o' := o.(x2 := Xor32(o.x2, RC32[round].1));
    assert e' == EvenHalf(keyed) && o' == OddHalf(keyed);
    e' := Sbox(e');
    o' := Sbox(o');
    JoinedHalves(SubstituteKept(keyed));
    e', o' := Diffuse32(e', o');
  }

  /** Loads the state into local words. */
  method Load(W: array<bv32>) returns (e: Half, o: Half)
    requires W.Length == 10
    ensures JoinHalves(e, o) == StateWords32(W[..])
  {
    hide JoinHalves;
    e := Half(W[0], W[2], W[4], W[6], W[8]);
    o := Half(W[1], W[3], W[5], W[7], W[9]);
  }

  /** Writes local words back to the state. */
  method Store(W: array<bv32>, e: Half, o: Half)
    requires W.Length == 10
    modifies W
    ensures StateWords32(W[..]) == JoinHalves(e, o)
  {
    hide JoinHalves;
    W[0], W[1], W[2], W[3], W[4] := e.x0, o.x0, e.x1, o.x1, e.x2;
    W[5], W[6], W[7], W[8], W[9] := o.x2, e.x3, o.x3, e.x4, o.x4;
    assert W[0] == e.x0 && W[2] == e.x1 && W[4] == e.x2 && W[6] == e.x3 && W[8] == e.x4;
    assert W[1] == o.x0 && W[3] == o.x1 && W[5] == o.x2 && W[7] == o.x3 && W[9] == o.x4;
  }

  method Permute(W: array<bv32>, firstRound: nat)
    requires W.Length == 10
    modifies W
    ensures StateWords32(W[..]) == Rounds(StateWords32(old(W[..])), firstRound)
  {
    hide Not, Not32, JoinHalves, Complement2, Round, Step, RC, StateWords32;
    TableLengths();
    var e, o := Load(W);
    ComplementHalves(e, o);
    e, o := e.(x2 := Not32(e.x2)), o.(x2 := Not32(o.x2));
    var round := firstRound;
    while round < 12
      invariant Rounds(Complement2(JoinHalves(e, o)), round) == Rounds(StateWords32(old(W[..])), firstRound)
    {
      StepIsRound(JoinHalves(e, o), round);
      e, o := OneRound32(e, o, round);
      round := round + 1;
    }
    ComplementHalves(e, o);
    Store(W, e.(x2 := Not32(e.x2)), o.(x2 := Not32(o.x2)));
  }

  lemma ComplementHalves(e: Half, o: Half)
    ensures JoinHalves(e.(x2 := Not32(e.x2)), o.(x2 := Not32(o.x2))) == Complement2(JoinHalves(e, o))
    ensures Complement2(Complement2(JoinHalves(e, o))) == JoinHalves(e, o)
  {
    hide Not, Not32, Even, Odd, Join;
    var s := JoinHalves(e, o);
    HalvesJoined(e, o);
    EvenNot(s.x2);
    NotAsXor(s.x2);
    JoinedHalves(Complement2(s));
  }
}
