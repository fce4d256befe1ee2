/** The Ascon permutation as section 2.6 of the Ascon v1.2 submission describes it: twelve
    rounds of constant addition, a bit-sliced 5-bit substitution layer and a linear diffusion
    layer on five 64-bit words, of which a caller runs the ones from `first` on.  The two
    implementations of the repository are proved against `Rounds`; here the permutation
    itself is shown to be a bijection on states. */
module AsconRounds {

  datatype Words = Words(x0: bv64, x1: bv64, x2: bv64, x3: bv64, x4: bv64)

  // Wrapping the bitwise operations in functions lets the algebraic lemmas hide their
  // bit-level meaning from the solver.
  function Xor(x: bv64, y: bv64): bv64 { x ^ y }

  function And(x: bv64, y: bv64): bv64 { x & y }

  function Not(x: bv64): bv64 { !x }

  function RotateOnce(x: bv64): bv64 { (x >> 1) | (x << 63) }

  /** Rotation to the right by n bit positions. */
  function Rotate(x: bv64, n: nat): bv64 {
    if n == 0 then x else RotateOnce(Rotate(x, n - 1))
  }

  // ---------------------------------------------------------------- the round

  const ROUND_CONSTANTS: seq<bv64> := [
    0xF0, 0xE1, 0xD2, 0xC3, 0xB4, 0xA5, 0x96, 0x87, 0x78, 0x69, 0x5A, 0x4B
  ]

  function AddConstant(s: Words, round: nat): Words
    requires round < 12
  {
    s.(x2 := Xor(s.x2, ROUND_CONSTANTS[round]))
  }

  function Mix(s: Words): Words {
    Words(Xor(s.x0, s.x4), s.x1, Xor(s.x2, s.x1), s.x3, Xor(s.x4, s.x3))
  }

  function ChiWord(x: bv64, y: bv64, z: bv64): bv64 { Xor(x, And(Not(y), z)) }

  function Chi(s: Words): Words {
    Words(ChiWord(s.x0, s.x1, s.x2),
          ChiWord(s.x1, s.x2, s.x3),
          ChiWord(s.x2, s.x3, s.x4),
          ChiWord(s.x3, s.x4, s.x0),
          ChiWord(s.x4, s.x0, s.x1))
  }

  function Unmix(s: Words): Words {
    Words(Xor(s.x0, s.x4), Xor(s.x1, s.x0), Not(s.x2), Xor(s.x3, s.x2), s.x4)
  }

  function Substitute(s: Words): Words { Unmix(Chi(Mix(s))) }

  function Layer(x: bv64, a: nat, b: nat): bv64 { Xor(Xor(x, Rotate(x, a)), Rotate(x, b)) }

  function Diffuse(s: Words): Words {
    Words(Layer(s.x0, 19, 28),
          Layer(s.x1, 61, 39),
          Layer(s.x2, 1, 6),
          Layer(s.x3, 10, 17),
          Layer(s.x4, 7, 41))
  }

  function Round(s: Words, round: nat): Words
    requires round < 12
  {
    Diffuse(Substitute(AddConstant(s, round)))
  }

  /** The rounds numbered first, first + 1, ..., 11. */
  function Rounds(s: Words, first: nat): Words
    decreases 12 - first
  {
    if first >= 12 then s else Rounds(Round(s, first), first + 1)
  }

  // ---------------------------------------------------------------- algebra of words

  lemma XorComm(x: bv64, y: bv64)
    ensures Xor(x, y) == Xor(y, x)
  {
  }

  lemma XorAssoc(x: bv64, y: bv64, z: bv64)
    ensures Xor(Xor(x, y), z) == Xor(x, Xor(y, z))
  {
    calc {
      Xor(Xor(x, y), z);
      Xor(x ^ y, z);
      (x ^ y) ^ z;
      x ^ (y ^ z);
      Xor(x, y ^ z);
      Xor(x, Xor(y, z));
    }
  }

  lemma XorSelf(x: bv64, y: bv64)
    ensures Xor(Xor(x, y), y) == x
    ensures Xor(y, y) == 0
    ensures Xor(x, 0) == x
  {
  }

  lemma NotAsXor(x: bv64)
    ensures Not(x) == Xor(x, 0xFFFF_FFFF_FFFF_FFFF)
    ensures Not(Not(x)) == x
  {
  }

  lemma RotateOnceXor(x: bv64, y: bv64)
    ensures RotateOnce(Xor(x, y)) == Xor(RotateOnce(x), RotateOnce(y))
  {
  }

  lemma {:induction false} RotateXor(x: bv64, y: bv64, n: nat)
    ensures Rotate(Xor(x, y), n) == Xor(Rotate(x, n), Rotate(y, n))
  {
    hide Xor;
    hide RotateOnce;
    if n > 0 {
      RotateXor(x, y, n - 1);
      RotateOnceXor(Rotate(x, n - 1), Rotate(y, n - 1));
    }
  }

  lemma {:induction false} RotateRotate(x: bv64, a: nat, b: nat)
    ensures Rotate(Rotate(x, a), b) == Rotate(x, a + b)
  {
    hide RotateOnce;
    if b > 0 {
      RotateRotate(x, a, b - 1);
    }
  }

  // ---------------------------------------------------------------- rotations as shifts

  // `Rotate` by a constant is the two shifts of the implementations' rotation macros; each
  // amount is the sum of two smaller ones.
  lemma RotateBy1(x: bv64)
    ensures Rotate(x, 1) == (x >> 1) | (x << 63)
  {
    assert Rotate(x, 0) == x;
  }

  lemma RotateBy2(x: bv64)
    ensures Rotate(x, 2) == (x >> 2) | (x << 62)
  {
    hide RotateOnce;
    calc {
      Rotate(x, 2);
      { RotateRotate(x, 1, 1); }
      Rotate(Rotate(x, 1), 1);
      { RotateBy1(x); }
      Rotate((x >> 1) | (x << 63), 1);
      { RotateBy1((x >> 1) | (x << 63)); }
      (((x >> 1) | (x << 63)) >> 1) | (((x >> 1) | (x << 63)) << 63);
      (x >> 2) | (x << 62);
    }
  }

  lemma RotateBy4(x: bv64)
    ensures Rotate(x, 4) == (x >> 4) | (x << 60)
  {
    hide RotateOnce;
    calc {
      Rotate(x, 4);
      { RotateRotate(x, 2, 2); }
      Rotate(Rotate(x, 2), 2);
      { RotateBy2(x); }
      Rotate((x >> 2) | (x << 62), 2);
      { RotateBy2((x >> 2) | (x << 62)); }
      (((x >> 2) | (x << 62)) >> 2) | (((x >> 2) | (x << 62)) << 62);
      (x >> 4) | (x << 60);
    }
  }

  lemma RotateBy6(x: bv64)
    ensures Rotate(x, 6) == (x >> 6) | (x << 58)
  {
    hide RotateOnce;
    calc {
      Rotate(x, 6);
      { RotateRotate(x, 4, 2); }
      Rotate(Rotate(x, 4), 2);
      { RotateBy4(x); }
      Rotate((x >> 4) | (x << 60), 2);
      { RotateBy2((x >> 4) | (x << 60)); }
      (((x >> 4) | (x << 60)) >> 2) | (((x >> 4) | (x << 60)) << 62);
      (x >> 6) | (x << 58);
    }
  }

  lemma RotateBy7(x: bv64)
    ensures Rotate(x, 7) == (x >> 7) | (x << 57)
  {
    hide RotateOnce;
    calc {
      Rotate(x, 7);
      { RotateRotate(x, 6, 1); }
      Rotate(Rotate(x, 6), 1);
      { RotateBy6(x); }
      Rotate((x >> 6) | (x << 58), 1);
      { RotateBy1((x >> 6) | (x << 58)); }
      (((x >> 6) | (x << 58)) >> 1) | (((x >> 6) | (x << 58)) << 63);
      (x >> 7) | (x << 57);
    }
  }

  lemma RotateBy8(x: bv64)
    ensures Rotate(x, 8) == (x >> 8) | (x << 56)
  {
    hide RotateOnce;
    calc {
      Rotate(x, 8);
      { RotateRotate(x, 4, 4); }
      Rotate(Rotate(x, 4), 4);
      { RotateBy4(x); }
      Rotate((x >> 4) | (x << 60), 4);
      { RotateBy4((x >> 4) | (x << 60)); }
      (((x >> 4) | (x << 60)) >> 4) | (((x >> 4) | (x << 60)) << 60);
      (x >> 8) | (x << 56);
    }
  }

  lemma RotateBy10(x: bv64)
    ensures Rotate(x, 10) == (x >> 10) | (x << 54)
  {
    hide RotateOnce;
    calc {
      Rotate(x, 10);
      { RotateRotate(x, 8, 2); }
      Rotate(Rotate(x, 8), 2);
      { RotateBy8(x); }
      Rotate((x >> 8) | (x << 56), 2);
      { RotateBy2((x >> 8) | (x << 56)); }
      (((x >> 8) | (x << 56)) >> 2) | (((x >> 8) | (x << 56)) << 62);
      (x >> 10) | (x << 54);
    }
  }

  lemma RotateBy12(x: bv64)
    ensures Rotate(x, 12) == (x >> 12) | (x << 52)
  {
    hide RotateOnce;
    calc {
      Rotate(x, 12);
      { RotateRotate(x, 10, 2); }
      Rotate(Rotate(x, 10), 2);
      { RotateBy10(x); }
      Rotate((x >> 10) | (x << 54), 2);
      { RotateBy2((x >> 10) | (x << 54)); }
      (((x >> 10) | (x << 54)) >> 2) | (((x >> 10) | (x << 54)) << 62);
      (x >> 12) | (x << 52);
    }
  }

  lemma RotateBy16(x: bv64)
    ensures Rotate(x, 16) == (x >> 16) | (x << 48)
  {
    hide RotateOnce;
    calc {
      Rotate(x, 16);
      { RotateRotate(x, 8, 8); }
      Rotate(Rotate(x, 8), 8);
      { RotateBy8(x); }
      Rotate((x >> 8) | (x << 56), 8);
      { RotateBy8((x >> 8) | (x << 56)); }
      (((x >> 8) | (x << 56)) >> 8) | (((x >> 8) | (x << 56)) << 56);
      (x >> 16) | (x << 48);
    }
  }

  lemma RotateBy17(x: bv64)
    ensures Rotate(x, 17) == (x >> 17) | (x << 47)
  {
    hide RotateOnce;
    calc {
      Rotate(x, 17);
      { RotateRotate(x, 16, 1); }
      Rotate(Rotate(x, 16), 1);
      { RotateBy16(x); }
      Rotate((x >> 16) | (x << 48), 1);
      { RotateBy1((x >> 16) | (x << 48)); }
      (((x >> 16) | (x << 48)) >> 1) | (((x >> 16) | (x << 48)) << 63);
      (x >> 17) | (x << 47);
    }
  }

  lemma RotateBy19(x: bv64)
    ensures Rotate(x, 19) == (x >> 19) | (x << 45)
  {
    hide RotateOnce;
    calc {
      Rotate(x, 19);
      { RotateRotate(x, 17, 2); }
      Rotate(Rotate(x, 17), 2);
      { RotateBy17(x); }
      Rotate((x >> 17) | (x << 47), 2);
      { RotateBy2((x >> 17) | (x << 47)); }
      (((x >> 17) | (x << 47)) >> 2) | (((x >> 17) | (x << 47)) << 62);
      (x >> 19) | (x << 45);
    }
  }

  lemma RotateBy28(x: bv64)
    ensures Rotate(x, 28) == (x >> 28) | (x << 36)
  {
    hide RotateOnce;
    calc {
      Rotate(x, 28);
      { RotateRotate(x, 16, 12); }
      Rotate(Rotate(x, 16), 12);
      { RotateBy16(x); }
      Rotate((x >> 16) | (x << 48), 12);
      { RotateBy12((x >> 16) | (x << 48)); }
      (((x >> 16) | (x << 48)) >> 12) | (((x >> 16) | (x << 48)) << 52);
      (x >> 28) | (x << 36);
    }
  }

  lemma RotateBy32(x: bv64)
    ensures Rotate(x, 32) == (x >> 32) | (x << 32)
  {
    hide RotateOnce;
    calc {
      Rotate(x, 32);
      { RotateRotate(x, 16, 16); }
      Rotate(Rotate(x, 16), 16);
      { RotateBy16(x); }
      Rotate((x >> 16) | (x << 48), 16);
      { RotateBy16((x >> 16) | (x << 48)); }
      (((x >> 16) | (x << 48)) >> 16) | (((x >> 16) | (x << 48)) << 48);
      (x >> 32) | (x << 32);
    }
  }

  lemma RotateBy39(x: bv64)
    ensures Rotate(x, 39) == (x >> 39) | (x << 25)
  {
    hide RotateOnce;
    calc {
      Rotate(x, 39);
      { RotateRotate(x, 32, 7); }
      Rotate(Rotate(x, 32), 7);
      { RotateBy32(x); }
      Rotate((x >> 32) | (x << 32), 7);
      { RotateBy7((x >> 32) | (x << 32)); }
      (((x >> 32) | (x << 32)) >> 7) | (((x >> 32) | (x << 32)) << 57);
      (x >> 39) | (x << 25);
    }
  }

  lemma RotateBy41(x: bv64)
    ensures Rotate(x, 41) == (x >> 41) | (x << 23)
  {
    hide RotateOnce;
    calc {
      Rotate(x, 41);
      { RotateRotate(x, 39, 2); }
      Rotate(Rotate(x, 39), 2);
      { RotateBy39(x); }
      Rotate((x >> 39) | (x << 25), 2);
      { RotateBy2((x >> 39) | (x << 25)); }
      (((x >> 39) | (x << 25)) >> 2) | (((x >> 39) | (x << 25)) << 62);
      (x >> 41) | (x << 23);
    }
  }

  lemma RotateBy60(x: bv64)
    ensures Rotate(x, 60) == (x >> 60) | (x << 4)
  {
    hide RotateOnce;
    calc {
      Rotate(x, 60);
      { RotateRotate(x, 41, 19); }
      Rotate(Rotate(x, 41), 19);
      { RotateBy41(x); }
      Rotate((x >> 41) | (x << 23), 19);
      { RotateBy19((x >> 41) | (x << 23)); }
      (((x >> 41) | (x << 23)) >> 19) | (((x >> 41) | (x << 23)) << 45);
      (x >> 60) | (x << 4);
    }
  }

  lemma RotateBy61(x: bv64)
    ensures Rotate(x, 61) == (x >> 61) | (x << 3)
  {
    hide RotateOnce;
    calc {
      Rotate(x, 61);
      { RotateRotate(x, 60, 1); }
      Rotate(Rotate(x, 60), 1);
      { RotateBy60(x); }
      Rotate((x >> 60) | (x << 4), 1);
      { RotateBy1((x >> 60) | (x << 4)); }
      (((x >> 60) | (x << 4)) >> 1) | (((x >> 60) | (x << 4)) << 63);
      (x >> 61) | (x << 3);
    }
  }

  lemma RotateFull(x: bv64)
    ensures Rotate(x, 64) == x
  {
    hide RotateOnce;
    RotateRotate(x, 32, 32);
    RotateBy32(x);
    RotateBy32((x >> 32) | (x << 32));
  }

  lemma {:induction false} RotateMultiple(x: bv64, n: nat)
    ensures Rotate(x, 64 * n) == x
  {
    hide RotateOnce;
    if n > 0 {
      RotateMultiple(x, n - 1);
      RotateRotate(x, 64 * (n - 1), 64);
      RotateFull(x);
    }
  }

  // ---------------------------------------------------------------- the diffusion layer

  /** The layer applied n times. */
  function Layers(x: bv64, a: nat, b: nat, n: nat): bv64 {
    if n == 0 then x else Layer(Layers(x, a, b, n - 1), a, b)
  }

  lemma XorSwap(x: bv64, y: bv64, z: bv64)
    ensures Xor(Xor(x, y), z) == Xor(Xor(x, z), y)
  {
    hide Xor;
    XorAssoc(x, y, z);
    XorComm(y, z);
    XorAssoc(x, z, y);
  }

  lemma XorCancel(x: bv64, y: bv64, z: bv64)
    ensures Xor(Xor(x, y), Xor(y, z)) == Xor(x, z)
  {
    hide Xor;
    XorAssoc(Xor(x, y), y, z);
    XorSelf(x, y);
  }

  // The nine terms of a layer of a layer: the mixed rotation and both single ones cancel.
  lemma XorNine(x: bv64, a: bv64, b: bv64, aa: bv64, ab: bv64, bb: bv64)
    ensures Xor(Xor(Xor(Xor(x, a), b), Xor(Xor(a, aa), ab)), Xor(Xor(b, ab), bb)) == Xor(Xor(x, aa), bb)
  {
    hide Xor;
    calc {
      Xor(Xor(Xor(x, a), b), Xor(Xor(a, aa), ab));
      { XorSwap(x, a, b); XorAssoc(a, aa, ab); }
      Xor(Xor(Xor(x, b), a), Xor(a, Xor(aa, ab)));
      { XorCancel(Xor(x, b), a, Xor(aa, ab)); }
      Xor(Xor(x, b), Xor(aa, ab));
      { XorAssoc(Xor(x, b), aa, ab); }
      Xor(Xor(Xor(x, b), aa), ab);
      { XorSwap(x, b, aa); XorAssoc(Xor(x, aa), b, ab); }
      Xor(Xor(x, aa), Xor(b, ab));
    }
    XorCancel(Xor(x, aa), Xor(b, ab), bb);
  }

  /** Composing a layer with itself doubles both of its rotations. */
  lemma LayerTwice(x: bv64, a: nat, b: nat)
    ensures Layer(Layer(x, a, b), a, b) == Layer(x, 2 * a, 2 * b)
  {
    hide Xor;
    hide Rotate;
    var ra, rb := Rotate(x, a), Rotate(x, b);
    RotateXor(Xor(x, ra), rb, a);
    RotateXor(x, ra, a);
    RotateXor(Xor(x, ra), rb, b);
    RotateXor(x, ra, b);
    RotateRotate(x, a, a);
    RotateRotate(x, a, b);
    RotateRotate(x, b, a);
    RotateRotate(x, b, b);
    XorNine(x, ra, rb, Rotate(x, 2 * a), Rotate(x, a + b), Rotate(x, 2 * b));
  }

  lemma {:induction false} LayersAdd(x: bv64, a: nat, b: nat, m: nat, n: nat)
    ensures Layers(x, a, b, m + n) == Layers(Layers(x, a, b, m), a, b, n)
  {
    hide Layer;
    if n > 0 {
      LayersAdd(x, a, b, m, n - 1);
    }
  }

  lemma {:induction false} LayersDouble(x: bv64, a: nat, b: nat, n: nat)
    ensures Layers(x, a, b, 2 * n) == Layers(x, 2 * a, 2 * b, n)
  {
    hide Layer;
    if n > 0 {
      LayersDouble(x, a, b, n - 1);
      LayerTwice(Layers(x, a, b, 2 * (n - 1)), a, b);
      assert Layers(x, a, b, 2 * n) == Layer(Layer(Layers(x, a, b, 2 * n - 2), a, b), a, b);
    }
  }

  /** The 64th power of every diffusion layer is the identity, whatever its rotations. */
  lemma LayerOrder(x: bv64, a: nat, b: nat)
    ensures Layers(x, a, b, 64) == x
  {
    hide Layer;
    LayersDouble(x, a, b, 32);
    LayersDouble(x, 2 * a, 2 * b, 16);
    LayersDouble(x, 4 * a, 4 * b, 8);
    LayersDouble(x, 8 * a, 8 * b, 4);
    LayersDouble(x, 16 * a, 16 * b, 2);
    LayersDouble(x, 32 * a, 32 * b, 1);
    assert Layers(x, 64 * a, 64 * b, 1) == Layer(Layers(x, 64 * a, 64 * b, 0), 64 * a, 64 * b);
    LayerOfMultiples(x, a, b);
  }

  lemma LayerOfMultiples(x: bv64, a: nat, b: nat)
    ensures Layer(x, 64 * a, 64 * b) == x
  {
    hide Xor;
    hide Rotate;
    RotateMultiple(x, a);
    RotateMultiple(x, b);
    XorSelf(x, x);
  }

  function LayerInverse(x: bv64, a: nat, b: nat): bv64 { Layers(x, a, b, 63) }

  lemma LayerInverts(x: bv64, a: nat, b: nat)
    ensures Layer(LayerInverse(x, a, b), a, b) == x
    ensures LayerInverse(Layer(x, a, b), a, b) == x
  {
    hide Layer;
    LayerOrder(x, a, b);
    LayersAdd(x, a, b, 1, 63);
    assert Layers(x, a, b, 1) == Layer(Layers(x, a, b, 0), a, b);
  }

  function DiffuseInverse(s: Words): Words {
    Words(LayerInverse(s.x0, 19, 28),
          LayerInverse(s.x1, 61, 39),
          LayerInverse(s.x2, 1, 6),
          LayerInverse(s.x3, 10, 17),
          LayerInverse(s.x4, 7, 41))
  }

  lemma DiffuseInverts(s: Words)
    ensures Diffuse(DiffuseInverse(s)) == s
    ensures DiffuseInverse(Diffuse(s)) == s
  {
    hide Layer;
    hide LayerInverse;
    LayerInverts(s.x0, 19, 28);
    LayerInverts(s.x1, 61, 39);
    LayerInverts(s.x2, 1, 6);
    LayerInverts(s.x3, 10, 17);
    LayerInverts(s.x4, 7, 41);
  }

  // ---------------------------------------------------------------- the substitution layer

  function MixInverse(s: Words): Words {
    Words(Xor(s.x0, Xor(s.x4, s.x3)), s.x1, Xor(s.x2, s.x1), s.x3, Xor(s.x4, s.x3))
  }

  function UnmixInverse(s: Words): Words {
    var x0, x2 := Xor(s.x0, s.x4), Not(s.x2);
    Words(x0, Xor(s.x1, x0), x2, Xor(s.x3, x2), s.x4)
  }

  function UnchiWord(x0: bv64, x1: bv64, x2: bv64, x3: bv64, x4: bv64): bv64 {
    x0 ^ (!x1 & (x2 ^ (!x3 & x4)))
  }

  function ChiInverse(s: Words): Words {
    Words(UnchiWord(s.x0, s.x1, s.x2, s.x3, s.x4),
          UnchiWord(s.x1, s.x2, s.x3, s.x4, s.x0),
          UnchiWord(s.x2, s.x3, s.x4, s.x0, s.x1),
          UnchiWord(s.x3, s.x4, s.x0, s.x1, s.x2),
          UnchiWord(s.x4, s.x0, s.x1, s.x2, s.x3))
  }

  // The two polynomial identities behind the inverse, for every bit position at once.
  lemma UnchiOfChi(a0: bv64, a1: bv64, a2: bv64, a3: bv64, a4: bv64)
    ensures UnchiWord(ChiWord(a0, a1, a2), ChiWord(a1, a2, a3), ChiWord(a2, a3, a4),
                      ChiWord(a3, a4, a0), ChiWord(a4, a0, a1)) == a0
  {
    hide ChiWord, UnchiWord;
    calc {
      UnchiWord(ChiWord(a0, a1, a2), ChiWord(a1, a2, a3), ChiWord(a2, a3, a4),
                ChiWord(a3, a4, a0), ChiWord(a4, a0, a1));
      {
        ChiWordBits(a0, a1, a2);
        ChiWordBits(a1, a2, a3);
        ChiWordBits(a2, a3, a4);
        ChiWordBits(a3, a4, a0);
        ChiWordBits(a4, a0, a1);
      }
      UnchiWord(a0 ^ (!a1 & a2), a1 ^ (!a2 & a3), a2 ^ (!a3 & a4), a3 ^ (!a4 & a0), a4 ^ (!a0 & a1));
      { UnchiOfChiBits(a0, a1, a2, a3, a4); }
      a0;
    }
  }

  lemma UnchiOfChiBits(a0: bv64, a1: bv64, a2: bv64, a3: bv64, a4: bv64)
    ensures UnchiWord(a0 ^ (!a1 & a2), a1 ^ (!a2 & a3), a2 ^ (!a3 & a4), a3 ^ (!a4 & a0), a4 ^ (!a0 & a1)) == a0
  {
  }

  lemma ChiOfUnchi(a0: bv64, a1: bv64, a2: bv64, a3: bv64, a4: bv64)
    ensures ChiWord(UnchiWord(a0, a1, a2, a3, a4), UnchiWord(a1, a2, a3, a4, a0),
                    UnchiWord(a2, a3, a4, a0, a1)) == a0
  {
    hide ChiWord;
    calc {
      ChiWord(UnchiWord(a0, a1, a2, a3, a4), UnchiWord(a1, a2, a3, a4, a0), UnchiWord(a2, a3, a4, a0, a1));
      ChiWord(a0 ^ (!a1 & (a2 ^ (!a3 & a4))), a1 ^ (!a2 & (a3 ^ (!a4 & a0))), a2 ^ (!a3 & (a4 ^ (!a0 & a1))));
      { ChiOfUnchiBits(a0, a1, a2, a3, a4); }
      a0;
    }
  }

  lemma ChiOfUnchiBits(a0: bv64, a1: bv64, a2: bv64, a3: bv64, a4: bv64)
    ensures ChiWord(a0 ^ (!a1 & (a2 ^ (!a3 & a4))),
                    a1 ^ (!a2 & (a3 ^ (!a4 & a0))),
                    a2 ^ (!a3 & (a4 ^ (!a0 & a1)))) == a0
  {
    hide ChiWord;
    var c0 := a0 ^ (!a1 & (a2 ^ (!a3 & a4)));
    var c1 := a1 ^ (!a2 & (a3 ^ (!a4 & a0)));
    var c2 := a2 ^ (!a3 & (a4 ^ (!a0 & a1)));
    calc {
      ChiWord(c0, c1, c2);
      { ChiWordBits(c0, c1, c2); }
      c0 ^ (!c1 & c2);
      a0;
    }
  }

  lemma ChiWordBits(x: bv64, y: bv64, z: bv64)
    ensures ChiWord(x, y, z) == x ^ (!y & z)
  {
    calc {
      ChiWord(x, y, z);
      Xor(x, And(!y, z));
      Xor(x, !y & z);
      x ^ (!y & z);
    }
  }

  function SubstituteInverse(s: Words): Words { MixInverse(ChiInverse(UnmixInverse(s))) }

  lemma ChiInverts(s: Words)
    ensures ChiInverse(Chi(s)) == s
    ensures Chi(ChiInverse(s)) == s
  {
    hide ChiWord;
    hide UnchiWord;
    UnchiOfChi(s.x0, s.x1, s.x2, s.x3, s.x4);
    UnchiOfChi(s.x1, s.x2, s.x3, s.x4, s.x0);
    UnchiOfChi(s.x2, s.x3, s.x4, s.x0, s.x1);
    UnchiOfChi(s.x3, s.x4, s.x0, s.x1, s.x2);
    UnchiOfChi(s.x4, s.x0, s.x1, s.x2, s.x3);
    ChiOfUnchi(s.x0, s.x1, s.x2, s.x3, s.x4);
    ChiOfUnchi(s.x1, s.x2, s.x3, s.x4, s.x0);
    ChiOfUnchi(s.x2, s.x3, s.x4, s.x0, s.x1);
    ChiOfUnchi(s.x3, s.x4, s.x0, s.x1, s.x2);
    ChiOfUnchi(s.x4, s.x0, s.x1, s.x2, s.x3);
  }

  lemma MixInverts(s: Words)
    ensures MixInverse(Mix(s)) == s
    ensures Mix(MixInverse(s)) == s
  {
    hide Xor;
    XorSelf(s.x0, s.x4);
    XorSelf(s.x2, s.x1);
    XorSelf(s.x4, s.x3);
    XorSelf(s.x0, Xor(s.x4, s.x3));
  }

  lemma UnmixInverts(s: Words)
    ensures UnmixInverse(Unmix(s)) == s
    ensures Unmix(UnmixInverse(s)) == s
  {
    hide Xor, Not;
    XorSelf(s.x0, s.x4);
    XorSelf(s.x1, s.x0);
    XorSelf(s.x3, s.x2);
    NotAsXor(s.x2);
    XorSelf(s.x1, Xor(s.x0, s.x4));
    XorSelf(s.x3, Not(s.x2));
  }

  lemma SubstituteInverts(s: Words)
    ensures SubstituteInverse(Substitute(s)) == s
    ensures Substitute(SubstituteInverse(s)) == s
  {
    hide Mix, Chi, Unmix, MixInverse, ChiInverse, UnmixInverse;
    MixInverts(s);
    ChiInverts(Mix(s));
    UnmixInverts(Chi(Mix(s)));
    UnmixInverts(s);
    ChiInverts(UnmixInverse(s));
    MixInverts(ChiInverse(UnmixInverse(s)));
  }

  // ---------------------------------------------------------------- the permutation

  function RoundInverse(s: Words, round: nat): Words
    requires round < 12
  {
    AddConstant(SubstituteInverse(DiffuseInverse(s)), round)
  }

  lemma AddConstantInverts(s: Words, round: nat)
    requires round < 12
    ensures AddConstant(AddConstant(s, round), round) == s
  {
    hide Xor;
    XorSelf(s.x2, ROUND_CONSTANTS[round]);
  }

  lemma RoundInverts(s: Words, round: nat)
    requires round < 12
    ensures RoundInverse(Round(s, round), round) == s
    ensures Round(RoundInverse(s, round), round) == s
  {
    hide AddConstant, Substitute, SubstituteInverse, Diffuse, DiffuseInverse;
    AddConstantInverts(s, round);
    SubstituteInverts(AddConstant(s, round));
    DiffuseInverts(Substitute(AddConstant(s, round)));
    DiffuseInverts(s);
    SubstituteInverts(DiffuseInverse(s));
    AddConstantInverts(SubstituteInverse(DiffuseInverse(s)), round);
  }

  /** The inverse rounds, taken from the last one down to `first`. */
  function RoundsInverse(s: Words, first: nat): Words
    decreases 12 - first
  {
    if first >= 12 then s else RoundInverse(RoundsInverse(s, first + 1), first)
  }

  /** The permutation is a bijection on 320-bit states, for every first round. */
  lemma {:induction false} RoundsBijective(s: Words, first: nat)
    ensures RoundsInverse(Rounds(s, first), first) == s
    ensures Rounds(RoundsInverse(s, first), first) == s
    decreases 12 - first
  {
    hide Round, RoundInverse;
    if first < 12 {
      RoundsBijective(Round(s, first), first + 1);
      RoundInverts(s, first);
      RoundsBijective(s, first + 1);
      RoundInverts(RoundsInverse(s, first + 1), first);
    }
  }

  lemma RoundsInjective(s: Words, t: Words, first: nat)
    ensures Rounds(s, first) == Rounds(t, first) <==> s == t
  {
    hide Rounds, RoundsInverse;
    RoundsBijective(s, first);
    RoundsBijective(t, first);
  }
}
