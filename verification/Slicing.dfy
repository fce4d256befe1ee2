/** Bit slicing: a 64-bit word kept as two 32-bit words, one holding its even-numbered bits and
    one its odd-numbered bits.  The separating and combining steps are those of the 32-bit
    backend; here they are shown to be inverse to each other and to commute with the bitwise
    operations and, up to exchanging the halves, with rotation. */
module AsconSlicing {
  import opened AsconRounds

  function Xor32(x: bv32, y: bv32): bv32 { x ^ y }

  function And32(x: bv32, y: bv32): bv32 { x & y }

  function Not32(x: bv32): bv32 { !x }

  function RotateOnce32(x: bv32): bv32 { (x >> 1) | (x << 31) }

  function Rotate32(x: bv32, n: nat): bv32 {
    if n == 0 then x else RotateOnce32(Rotate32(x, n - 1))
  }

  // ---------------------------------------------------------------- separating and combining

  /** Moves the even bits of a word to its lower half and the odd bits to its upper half. */
  function Separate(x: bv32): bv32 {
    var t := ((x >> 1) ^ x) & 0x2222_2222;
    var x := (x ^ t) ^ (t << 1);
    var t := ((x >> 2) ^ x) & 0x0c0c_0c0c;
    var x := (x ^ t) ^ (t << 2);
    var t := ((x >> 4) ^ x) & 0x00f0_00f0;
    var x := (x ^ t) ^ (t << 4);
    var t := ((x >> 8) ^ x) & 0x0000_ff00;
    (x ^ t) ^ (t << 8)
  }

  function Combine(x: bv32): bv32 {
    var t := ((x >> 15) ^ x) & 0x0000_aaaa;
    var x := (x ^ t) ^ (t << 15);
    var t := ((x >> 14) ^ x) & 0x0000_cccc;
    var x := (x ^ t) ^ (t << 14);
    var t := ((x >> 12) ^ x) & 0x0000_f0f0;
    var x := (x ^ t) ^ (t << 12);
    var t := ((x >> 8) ^ x) & 0x0000_ff00;
    (x ^ t) ^ (t << 8)
  }

  lemma CombineSeparate(x: bv32)
    ensures Combine(Separate(x)) == x
    ensures Separate(Combine(x)) == x
  {
  }

  lemma SeparateXor(x: bv32, y: bv32)
    ensures Separate(Xor32(x, y)) == Xor32(Separate(x), Separate(y))
  {
  }

  lemma SeparateAnd(x: bv32, y: bv32)
    ensures Separate(And32(x, y)) == And32(Separate(x), Separate(y))
  {
  }

  function High(v: bv64): bv32 { (v >> 32) as bv32 }

  function Low(v: bv64): bv32 { (v & 0xFFFF_FFFF) as bv32 }

  function MergeEven(high: bv32, low: bv32): bv32 { (high << 16) | (low & 0x0000_FFFF) }

  function MergeOdd(high: bv32, low: bv32): bv32 { (high & 0xFFFF_0000) | (low >> 16) }

  function Even(v: bv64): bv32 {
    MergeEven(Separate(High(v)), Separate(Low(v)))
  }

  function Odd(v: bv64): bv32 {
    MergeOdd(Separate(High(v)), Separate(Low(v)))
  }

  function Join(even: bv32, odd: bv32): bv64 {
    var high := (even >> 16) | (odd & 0xFFFF_0000);
    var low := (even & 0x0000_FFFF) | (odd << 16);
    ((Combine(high) as bv64) << 32) | (Combine(low) as bv64)
  }

  lemma HalvesXor(x: bv64, y: bv64)
    ensures High(Xor(x, y)) == Xor32(High(x), High(y))
    ensures Low(Xor(x, y)) == Xor32(Low(x), Low(y))
  {
  }

  lemma HalvesAnd(x: bv64, y: bv64)
    ensures High(And(x, y)) == And32(High(x), High(y))
    ensures Low(And(x, y)) == And32(Low(x), Low(y))
  {
  }

  lemma MergeXor(p: bv32, q: bv32, r: bv32, s: bv32)
    ensures MergeEven(Xor32(p, q), Xor32(r, s)) == Xor32(MergeEven(p, r), MergeEven(q, s))
    ensures MergeOdd(Xor32(p, q), Xor32(r, s)) == Xor32(MergeOdd(p, r), MergeOdd(q, s))
  {
  }

  lemma MergeAnd(p: bv32, q: bv32, r: bv32, s: bv32)
    ensures MergeEven(And32(p, q), And32(r, s)) == And32(MergeEven(p, r), MergeEven(q, s))
    ensures MergeOdd(And32(p, q), And32(r, s)) == And32(MergeOdd(p, r), MergeOdd(q, s))
  {
  }

  lemma EvenXor(x: bv64, y: bv64)
    ensures Even(Xor(x, y)) == Xor32(Even(x), Even(y))
    ensures Odd(Xor(x, y)) == Xor32(Odd(x), Odd(y))
  {
    hide Separate, High, Low, Xor, Xor32, MergeEven, MergeOdd;
    HalvesXor(x, y);
    SeparateXor(High(x), High(y));
    SeparateXor(Low(x), Low(y));
    MergeXor(Separate(High(x)), Separate(High(y)), Separate(Low(x)), Separate(Low(y)));
  }

  lemma EvenAnd(x: bv64, y: bv64)
    ensures Even(And(x, y)) == And32(Even(x), Even(y))
    ensures Odd(And(x, y)) == And32(Odd(x), Odd(y))
  {
    hide Separate, High, Low, And, And32, MergeEven, MergeOdd;
    HalvesAnd(x, y);
    SeparateAnd(High(x), High(y));
    SeparateAnd(Low(x), Low(y));
    MergeAnd(Separate(High(x)), Separate(High(y)), Separate(Low(x)), Separate(Low(y)));
  }

  lemma EvenNot(x: bv64)
    ensures Even(Not(x)) == Not32(Even(x))
    ensures Odd(Not(x)) == Not32(Odd(x))
  {
    hide Not, Not32, Even, Odd, Xor, Xor32;
    NotAsXor(x);
    EvenXor(x, 0xFFFF_FFFF_FFFF_FFFF);
    SlicedOnes();
    NotAsXor32(Even(x));
    NotAsXor32(Odd(x));
  }

  lemma SlicedOnes()
    ensures Even(0xFFFF_FFFF_FFFF_FFFF) == 0xFFFF_FFFF
    ensures Odd(0xFFFF_FFFF_FFFF_FFFF) == 0xFFFF_FFFF
  {
  }

  lemma NotAsXor32(x: bv32)
    ensures Not32(x) == Xor32(x, 0xFFFF_FFFF)
  {
  }

  /** Rotating by one position exchanges the halves, and the odd half rotates with it. */
  lemma EvenRotateOnce(x: bv64)
    ensures Even(RotateOnce(x)) == Odd(x)
    ensures Odd(RotateOnce(x)) == RotateOnce32(Even(x))
  {
    hide Even, Odd, RotateOnce32;
    EvenOfShifts(x);
    OddOfShifts(x);
  }

  // Shifting a word right by one while the lowest bit of another enters at the top.
  lemma SeparateShifted(high: bv32, low: bv32)
    ensures Separate((high >> 1) | (low << 31))
         == (Separate(high) >> 16) | ((Separate(high) << 15) & 0x7FFF_0000) | (Separate(low) << 31)
  {
  }

  lemma HalvesOfShifts(x: bv64)
    ensures High((x >> 1) | (x << 63)) == (High(x) >> 1) | (Low(x) << 31)
    ensures Low((x >> 1) | (x << 63)) == (Low(x) >> 1) | (High(x) << 31)
  {
  }

  lemma EvenOfShifts(x: bv64)
    ensures Even((x >> 1) | (x << 63)) == Odd(x)
  {
    hide Separate, High, Low;
    HalvesOfShifts(x);
    SeparateShifted(High(x), Low(x));
    SeparateShifted(Low(x), High(x));
  }

  lemma OddOfShifts(x: bv64)
    ensures Odd((x >> 1) | (x << 63)) == RotateOnce32(Even(x))
  {
    hide Separate, High, Low;
    HalvesOfShifts(x);
    SeparateShifted(High(x), Low(x));
    SeparateShifted(Low(x), High(x));
  }

  lemma JoinSliced(v: bv64)
    ensures Join(Even(v), Odd(v)) == v
  {
  }

  lemma SlicedJoin(even: bv32, odd: bv32)
    ensures Even(Join(even, odd)) == even
    ensures Odd(Join(even, odd)) == odd
  {
  }

  lemma {:induction false} EvenRotate(x: bv64, k: nat)
    ensures Even(Rotate(x, 2 * k)) == Rotate32(Even(x), k)
    ensures Odd(Rotate(x, 2 * k)) == Rotate32(Odd(x), k)
  {
    hide Even, Odd, RotateOnce, RotateOnce32;
    if k > 0 {
      EvenRotate(x, k - 1);
      var y := Rotate(x, 2 * (k - 1));
      EvenRotateOnce(y);
      EvenRotateOnce(RotateOnce(y));
      assert Rotate(x, 2 * k) == RotateOnce(Rotate(x, 2 * k - 1)) == RotateOnce(RotateOnce(y));
    }
  }

  lemma OddRotate(x: bv64, k: nat)
    ensures Even(Rotate(x, 2 * k + 1)) == Rotate32(Odd(x), k)
    ensures Odd(Rotate(x, 2 * k + 1)) == Rotate32(Even(x), k + 1)
  {
    hide Even, Odd, RotateOnce, RotateOnce32;
    EvenRotate(x, k);
    EvenRotateOnce(Rotate(x, 2 * k));
  }

  lemma {:induction false} RotateXor32(x: bv32, y: bv32, n: nat)
    ensures Rotate32(Xor32(x, y), n) == Xor32(Rotate32(x, n), Rotate32(y, n))
  {
    hide Xor32, RotateOnce32;
    if n > 0 {
      RotateXor32(x, y, n - 1);
      RotateOnceXor32(Rotate32(x, n - 1), Rotate32(y, n - 1));
    }
  }

  lemma RotateOnceXor32(x: bv32, y: bv32)
    ensures RotateOnce32(Xor32(x, y)) == Xor32(RotateOnce32(x), RotateOnce32(y))
  {
  }

  lemma {:induction false} RotateRotate32(x: bv32, a: nat, b: nat)
    ensures Rotate32(Rotate32(x, a), b) == Rotate32(x, a + b)
  {
    hide RotateOnce32;
    if b > 0 {
      RotateRotate32(x, a, b - 1);
    }
  }

  lemma XorAssoc32(x: bv32, y: bv32, z: bv32)
    ensures Xor32(Xor32(x, y), z) == Xor32(x, Xor32(y, z))
    ensures Xor32(x, y) == Xor32(y, x)
  {
  }
}
