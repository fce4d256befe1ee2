/** Big-endian numbers in byte strings. */
module BigEndian {
  import opened Bytes

  /** The value of a byte, bit by bit. */
  function Num(b: byte): (n: nat)
    ensures n < 0x100
  {
    Weigh(b & 0x80 != 0, b & 0x40 != 0, b & 0x20 != 0, b & 0x10 != 0,
          b & 0x08 != 0, b & 0x04 != 0, b & 0x02 != 0, b & 0x01 != 0)
  }

  /** The low eight bits of a number. */
  function ByteOf(n: nat): byte {
    Join(n / 2 / 2 / 2 / 2 / 2 / 2 / 2 % 2 == 1, n / 2 / 2 / 2 / 2 / 2 / 2 % 2 == 1,
         n / 2 / 2 / 2 / 2 / 2 % 2 == 1, n / 2 / 2 / 2 / 2 % 2 == 1,
         n / 2 / 2 / 2 % 2 == 1, n / 2 / 2 % 2 == 1, n / 2 % 2 == 1, n % 2 == 1)
  }

  function Weigh(b7: bool, b6: bool, b5: bool, b4: bool, b3: bool, b2: bool, b1: bool, b0: bool): (n: nat)
    ensures n < 0x100
  {
    Twice(Twice(Twice(Twice(Twice(Twice(Twice(Twice(0, b7), b6), b5), b4), b3), b2), b1), b0)
  }

  function Twice(n: nat, bit: bool): nat { 2 * n + if bit then 1 else 0 }

  function Join(b7: bool, b6: bool, b5: bool, b4: bool, b3: bool, b2: bool, b1: bool, b0: bool): byte {
    (if b7 then 0x80 else 0) | (if b6 then 0x40 else 0) | (if b5 then 0x20 else 0) | (if b4 then 0x10 else 0)
    | (if b3 then 0x08 else 0) | (if b2 then 0x04 else 0) | (if b1 then 0x02 else 0) | (if b0 then 0x01 else 0)
  }

  lemma BitsOfJoin(b7: bool, b6: bool, b5: bool, b4: bool, b3: bool, b2: bool, b1: bool, b0: bool)
    ensures var b := Join(b7, b6, b5, b4, b3, b2, b1, b0);
            && (b & 0x80 != 0) == b7 && (b & 0x40 != 0) == b6 && (b & 0x20 != 0) == b5 && (b & 0x10 != 0) == b4
            && (b & 0x08 != 0) == b3 && (b & 0x04 != 0) == b2 && (b & 0x02 != 0) == b1 && (b & 0x01 != 0) == b0
  {
  }

  lemma JoinOfBits(b: byte)
    ensures Join(b & 0x80 != 0, b & 0x40 != 0, b & 0x20 != 0, b & 0x10 != 0,
                 b & 0x08 != 0, b & 0x04 != 0, b & 0x02 != 0, b & 0x01 != 0) == b
  {
  }

  lemma HalfOfTwice(n: nat, bit: bool)
    ensures Twice(n, bit) / 2 == n && (Twice(n, bit) % 2 == 1) == bit
    ensures Twice(n / 2, n % 2 == 1) == n
  {
  }

  lemma ByteOfWeigh(b7: bool, b6: bool, b5: bool, b4: bool, b3: bool, b2: bool, b1: bool, b0: bool)
    ensures ByteOf(Weigh(b7, b6, b5, b4, b3, b2, b1, b0)) == Join(b7, b6, b5, b4, b3, b2, b1, b0)
  {
    hide Twice, Join;
    assert Twice(0, false) == 0 by { HalfOfTwice(0, false); }
    var n7 := Twice(0, b7);
    var n6 := Twice(n7, b6);
    var n5 := Twice(n6, b5);
    var n4 := Twice(n5, b4);
    var n3 := Twice(n4, b3);
    var n2 := Twice(n3, b2);
    var n1 := Twice(n2, b1);
    HalfOfTwice(0, b7);
    HalfOfTwice(n7, b6);
    HalfOfTwice(n6, b5);
    HalfOfTwice(n5, b4);
    HalfOfTwice(n4, b3);
    HalfOfTwice(n3, b2);
    HalfOfTwice(n2, b1);
    HalfOfTwice(n1, b0);
  }

  lemma NumOfJoin(b7: bool, b6: bool, b5: bool, b4: bool, b3: bool, b2: bool, b1: bool, b0: bool)
    ensures Num(Join(b7, b6, b5, b4, b3, b2, b1, b0)) == Weigh(b7, b6, b5, b4, b3, b2, b1, b0)
  {
    hide Join, Weigh;
    BitsOfJoin(b7, b6, b5, b4, b3, b2, b1, b0);
  }

  lemma WeighHalves(n: nat)
    requires n < 0x100
    ensures n == Weigh(n / 2 / 2 / 2 / 2 / 2 / 2 / 2 % 2 == 1, n / 2 / 2 / 2 / 2 / 2 / 2 % 2 == 1,
                       n / 2 / 2 / 2 / 2 / 2 % 2 == 1, n / 2 / 2 / 2 / 2 % 2 == 1,
                       n / 2 / 2 / 2 % 2 == 1, n / 2 / 2 % 2 == 1, n / 2 % 2 == 1, n % 2 == 1)
  {
    hide Twice;
    var n1 := n / 2;
    var n2 := n1 / 2;
    var n3 := n2 / 2;
    var n4 := n3 / 2;
    var n5 := n4 / 2;
    var n6 := n5 / 2;
    var n7 := n6 / 2;
    Halve(n, 0x80);
    Halve(n1, 0x40);
    Halve(n2, 0x20);
    Halve(n3, 0x10);
    Halve(n4, 0x08);
    Halve(n5, 0x04);
    Halve(n6, 0x02);
    Halve(n7, 0x01);
  }

  lemma Halve(n: nat, bound: nat)
    requires n < 2 * bound
    ensures n / 2 < bound && Twice(n / 2, n % 2 == 1) == n
  {
  }

  lemma NumOfByte(n: nat)
    requires n < 0x100
    ensures Num(ByteOf(n)) == n
  {
    hide Join, Weigh, Num;
    WeighHalves(n);
    NumOfJoin(n / 2 / 2 / 2 / 2 / 2 / 2 / 2 % 2 == 1, n / 2 / 2 / 2 / 2 / 2 / 2 % 2 == 1,
              n / 2 / 2 / 2 / 2 / 2 % 2 == 1, n / 2 / 2 / 2 / 2 % 2 == 1,
              n / 2 / 2 / 2 % 2 == 1, n / 2 / 2 % 2 == 1, n / 2 % 2 == 1, n % 2 == 1);
  }

  lemma ByteOfNum(b: byte)
    ensures ByteOf(Num(b)) == b
  {
    hide Weigh, Join, ByteOf;
    ByteOfWeigh(b & 0x80 != 0, b & 0x40 != 0, b & 0x20 != 0, b & 0x10 != 0,
                b & 0x08 != 0, b & 0x04 != 0, b & 0x02 != 0, b & 0x01 != 0);
    JoinOfBits(b);
  }

  function Pow256(n: nat): (r: nat)
    ensures r > 0
  {
    if n == 0 then 1 else 0x100 * Pow256(n - 1)
  }

  function Times(a: nat, b: nat): nat { a * b }

  function Value(s: seq<byte>): nat {
    if s == [] then 0 else Value(s[..|s| - 1]) * 0x100 + Num(s[|s| - 1])
  }

  /** The low `len` bytes of a number. */
  function ToBytes(n: nat, len: nat): (s: seq<byte>)
    ensures |s| == len
    decreases len
  {
    if len == 0 then [] else ToBytes(n / 0x100, len - 1) + [ByteOf(n % 0x100)]
  }

  lemma {:induction false} ValueBound(s: seq<byte>)
    ensures Value(s) < Pow256(|s|)
  {
    hide Num;
    if s != [] {
      ValueBound(s[..|s| - 1]);
    }
  }

  lemma {:induction false} ValueInjective(a: seq<byte>, b: seq<byte>)
    requires |a| == |b| && Value(a) == Value(b)
    ensures a == b
  {
    hide Num, ByteOf;
    if a != [] {
      var n := |a| - 1;
      ByteOfNum(a[n]);
      ByteOfNum(b[n]);
      Digits(Value(a[..n]), Num(a[n]));
      Digits(Value(b[..n]), Num(b[n]));
      ValueInjective(a[..n], b[..n]);
      assert a == a[..n] + [a[n]] && b == b[..n] + [b[n]];
    }
  }

  lemma {:induction false} ValuePrepend(b: byte, s: seq<byte>)
    ensures Value([b] + s) == Times(Num(b), Pow256(|s|)) + Value(s)
  {
    hide Num;
    if s == [] {
      assert ([b] + s)[..0] == [];
    } else {
      var n := |s| - 1;
      ValuePrepend(b, s[..n]);
      assert ([b] + s)[..n + 1] == [b] + s[..n];
      assert Num(b) * Pow256(n + 1) == Num(b) * Pow256(n) * 0x100;
    }
  }

  /** Writing a number and reading it back keeps its low bytes. */
  lemma {:induction false} ValueOfToBytes(n: nat, len: nat)
    ensures Value(ToBytes(n, len)) == n % Pow256(len)
    decreases len
  {
    hide Num, ByteOf;
    if len > 0 {
      ValueOfToBytes(n / 0x100, len - 1);
      var s, rest := ToBytes(n, len), ToBytes(n / 0x100, len - 1);
      assert s[..len - 1] == rest;
      NumOfByte(n % 0x100);
      ModInTwo(n, Pow256(len - 1));
    }
  }

  lemma ModInTwo(n: nat, m: nat)
    requires m > 0
    ensures n % (0x100 * m) == n / 0x100 % m * 0x100 + n % 0x100
  {
    var high, low := n / 0x100, n % 0x100;
    var q, r := high / m, high % m;
    assert high == q * m + r;
    assert n == q * (0x100 * m) + (r * 0x100 + low) by {
      assert q * (0x100 * m) == 0x100 * (q * m);
    }
    ModUnique(n, 0x100 * m, q, r * 0x100 + low);
  }

  lemma ModUnique(n: nat, d: nat, q: nat, r: nat)
    requires d > 0 && n == q * d + r && r < d
    ensures n % d == r
  {
    var e := n / d - q;
    assert n == n / d * d + n % d;
    assert e * d == n / d * d - q * d;
    MulAtLeast(e, d);
    MulAtLeast(-e, d);
  }

  lemma MulAtLeast(e: int, d: nat)
    ensures e >= 1 ==> e * d >= d
    ensures e * d == -(-e * d)
  {
  }

  lemma Digits(high: nat, low: nat)
    requires low < 0x100
    ensures (high * 0x100 + low) / 0x100 == high && (high * 0x100 + low) % 0x100 == low
  {
  }

  lemma {:induction false} ToBytesOfValue(s: seq<byte>)
    ensures ToBytes(Value(s), |s|) == s
  {
    hide Num, ByteOf;
    if s != [] {
      var n := |s| - 1;
      ByteOfNum(s[n]);
      ToBytesOfValue(s[..n]);
      Digits(Value(s[..n]), Num(s[n]));
      assert s == s[..n] + [s[n]];
    }
  }
}
