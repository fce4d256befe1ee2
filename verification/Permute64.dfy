/** The 64-bit implementation of the permutation.  It keeps the third word complemented for
    the whole loop and complements the round constants instead. */
module AsconC64 {
  import opened AsconRounds

  function StateWords(s: seq<bv64>): Words
    requires |s| == 5
  {
    Words(s[0], s[1], s[2], s[3], s[4])
  }

  function RightRotate(x: bv64, bits: nat): bv64
    requires bits <= 64
  {
    (x >> bits) | (x << (64 - bits))
  }

  // The table entries are the complements of the textbook constants.
  function ComplementedConstant(round: bv64): bv64 { !(((0x0F - round) << 4) | round) }

  const RC: seq<bv64> := [
    ComplementedConstant(0), ComplementedConstant(1), ComplementedConstant(2),
    ComplementedConstant(3), ComplementedConstant(4), ComplementedConstant(5),
    ComplementedConstant(6), ComplementedConstant(7), ComplementedConstant(8),
    ComplementedConstant(9), ComplementedConstant(10), ComplementedConstant(11)
  ]

  lemma ConstantValues()
    ensures RC == [!0xF0, !0xE1, !0xD2, !0xC3, !0xB4, !0xA5, !0x96, !0x87, !0x78, !0x69, !0x5A, !0x4B]
  {
  }

  lemma ConstantsComplemented(round: nat)
    requires round < 12
    ensures RC[round] == Not(ROUND_CONSTANTS[round])
  {
    hide ComplementedConstant;
    ConstantValues();
  }

  /** The substitution layer without its final complement of the third word. */
  function SubstituteKept(s: Words): Words {
    var b := Chi(Mix(s));
    Words(Xor(b.x0, b.x4), Xor(b.x1, b.x0), b.x2, Xor(b.x3, b.x2), b.x4)
  }

  /** One pass of the loop on the five local words. */
  function Step(s: Words, rc: bv64): Words {
    Diffuse(SubstituteKept(s.(x2 := Xor(s.x2, rc))))
  }

  function Complement2(s: Words): Words { s.(x2 := Not(s.x2)) }

  lemma LayerOfNot(x: bv64, a: nat, b: nat)
    ensures Layer(Not(x), a, b) == Not(Layer(x, a, b))
  {
    hide Xor, Not, Rotate;
    var ones := 0xFFFF_FFFF_FFFF_FFFF;
    RotateOnes(a);
    RotateOnes(b);
    NotAsXor(x);
    NotAsXor(Layer(x, a, b));
    RotateXor(x, ones, a);
    RotateXor(x, ones, b);
    XorNine(0, x, 0, ones, Rotate(x, a), Rotate(x, b));
    calc {
      Layer(Not(x), a, b);
      Xor(Xor(Xor(x, ones), Xor(Rotate(x, a), ones)), Xor(Rotate(x, b), ones));
      { XorComm(Rotate(x, a), ones); XorCancel(x, ones, Rotate(x, a)); }
      Xor(Xor(x, Rotate(x, a)), Xor(Rotate(x, b), ones));
      { XorAssoc(Xor(x, Rotate(x, a)), Rotate(x, b), ones); }
      Xor(Layer(x, a, b), ones);
    }
  }

  lemma {:induction false} RotateOnes(n: nat)
    ensures Rotate(0xFFFF_FFFF_FFFF_FFFF, n) == 0xFFFF_FFFF_FFFF_FFFF
  {
    if n > 0 {
      RotateOnes(n - 1);
    }
  }

  /** A pass of the loop is a textbook round between complementing the third word. */
  lemma StepIsRound(s: Words, round: nat)
    requires round < 12
    ensures Complement2(Step(s, RC[round])) == Round(Complement2(s), round)
  {
    hide Xor, Not, Layer, Chi, Mix;
    ConstantsComplemented(round);
    NotOfXor(s.x2, ROUND_CONSTANTS[round]);
    var b := Chi(Mix(AddConstant(Complement2(s), round)));
    LayerOfNot(b.x2, 1, 6);
  }

  lemma NotOfXor(x: bv64, y: bv64)
    ensures Xor(x, Not(y)) == Xor(Not(x), y)
  {
    hide Xor, Not;
    NotAsXor(x);
    NotAsXor(y);
    XorAssoc(x, y, 0xFFFF_FFFF_FFFF_FFFF);
    XorSwap(x, y, 0xFFFF_FFFF_FFFF_FFFF);
  }

  lemma RotationAmounts(x0: bv64, x1: bv64, x2: bv64, x3: bv64, x4: bv64)
    ensures RightRotate(x0, 19) == Rotate(x0, 19) && RightRotate(x0, 28) == Rotate(x0, 28)
    ensures RightRotate(x1, 61) == Rotate(x1, 61) && RightRotate(x1, 39) == Rotate(x1, 39)
    ensures RightRotate(x2, 1) == Rotate(x2, 1) && RightRotate(x2, 6) == Rotate(x2, 6)
    ensures RightRotate(x3, 10) == Rotate(x3, 10) && RightRotate(x3, 17) == Rotate(x3, 17)
    ensures RightRotate(x4, 7) == Rotate(x4, 7) && RightRotate(x4, 41) == Rotate(x4, 41)
  {
    hide Rotate;
    RotateBy19(x0);
    RotateBy28(x0);
    RotateBy61(x1);
    RotateBy39(x1);
    RotateBy1(x2);
    RotateBy6(x2);
    RotateBy10(x3);
    RotateBy17(x3);
    RotateBy7(x4);
    RotateBy41(x4);
  }

  /** The substitution layer, without its final complement of x2. */
  method Substitution(s: Words) returns (r: Words)
    ensures r == SubstituteKept(s)
  {
    hide Xor, And, Not;
    var x0, x1, x2, x3, x4 := s.x0, s.x1, s.x2, s.x3, s.x4;
    x0, x4, x2 := Xor(x0, x4), Xor(x4, x3), Xor(x2, x1);
    var t0, t1, t2, t3, t4 := Not(x0), Not(x1), Not(x2), Not(x3), Not(x4);
    t0, t1, t2, t3, t4 := And(t0, x1), And(t1, x2), And(t2, x3), And(t3, x4), And(t4, x0);
    x0, x1, x2, x3, x4 := Xor(x0, t1), Xor(x1, t2), Xor(x2, t3), Xor(x3, t4), Xor(x4, t0);
    x1 := Xor(x1, x0);
    x0, x3 := Xor(x0, x4), Xor(x3, x2);
    r := Words(x0, x1, x2, x3, x4);
  }

  /** The body of the loop: on words whose third one is complemented, a textbook round. */
  method OneRound(s: Words, round: nat) returns (r: Words)
    requires round < 12
    ensures Complement2(r) == Round(Complement2(s), round)
  {
    hide Xor, And, Not, Rotate, RightRotate, SubstituteKept, Round, Complement2;
    r := Substitution(s.(x2 := Xor(s.x2, RC[round])));
    var x0, x1, x2, x3, x4 := r.x0, r.x1, r.x2, r.x3, r.x4;
    RotationAmounts(x0, x1, x2, x3, x4);
    x0 := Xor(Xor(x0, RightRotate(x0, 19)), RightRotate(x0, 28));
    x1 := Xor(Xor(x1, RightRotate(x1, 61)), RightRotate(x1, 39));
    x2 := Xor(Xor(x2, RightRotate(x2, 1)), RightRotate(x2, 6));
    x3 := Xor(Xor(x3, RightRotate(x3, 10)), RightRotate(x3, 17));
    x4 := Xor(Xor(x4, RightRotate(x4, 7)), RightRotate(x4, 41));
    r := Words(x0, x1, x2, x3, x4);
    assert r == Step(s, RC[round]);
    StepIsRound(s, round);
  }

  method Permute(S: array<bv64>, firstRound: nat)
    requires S.Length == 5
    modifies S
    ensures StateWords(S[..]) == Rounds(StateWords(old(S[..])), firstRound)
  {
    hide Not, Round;
    var x := StateWords(S[..]);
    NotAsXor(x.x2);
    x := x.(x2 := Not(x.x2));
    var round := firstRound;
    while round < 12
      invariant Rounds(Complement2(x), round) == Rounds(StateWords(old(S[..])), firstRound)
    {
      x := OneRound(x, round);
      round := round + 1;
    }
    x := x.(x2 := Not(x.x2));
    S[0], S[1], S[2], S[3], S[4] := x.x0, x.x1, x.x2, x.x3, x.x4;
    assert S[..] == [x.x0, x.x1, x.x2, x.x3, x.x4];
  }
}
