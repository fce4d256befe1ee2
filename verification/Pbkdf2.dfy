/** PBKDF2 over HMAC. */
module Pbkdf2 {
  import opened Bytes
  import opened BigEndian
  import opened Hmac

  // ---------------------------------------------------------------- what is computed

  /** U_j of section 5.2 of RFC 8018, for j from 1. */
  function U(alg: Algorithm, password: seq<byte>, salt: seq<byte>, block: nat, j: nat): (u: seq<byte>)
    requires j > 0
    ensures |u| == HASH_SIZE
  {
    if j == 1 then Mac(alg, password, salt + ToBytes(block, 4))
    else Mac(alg, password, U(alg, password, salt, block, j - 1))
  }

  /** The sum of U_1 to U_j. */
  function SumTo(alg: Algorithm, password: seq<byte>, salt: seq<byte>, block: nat, j: nat): (t: seq<byte>)
    requires j > 0
    ensures |t| == HASH_SIZE
  {
    if j == 1 then U(alg, password, salt, block, 1)
    else XorBytes(SumTo(alg, password, salt, block, j - 1), U(alg, password, salt, block, j))
  }

  /** A count of zero iterates once. */
  function F(alg: Algorithm, password: seq<byte>, salt: seq<byte>, count: nat, block: nat): (t: seq<byte>)
    ensures |t| == HASH_SIZE
  {
    SumTo(alg, password, salt, block, if count == 0 then 1 else count)
  }

  /** T_1 | T_2 | ... | T_n. */
  function Blocks(alg: Algorithm, password: seq<byte>, salt: seq<byte>, count: nat, n: nat): (t: seq<byte>)
    ensures |t| == n * HASH_SIZE
  {
    if n == 0 then [] else Blocks(alg, password, salt, count, n - 1) + F(alg, password, salt, count, n)
  }

  /** The chains of two blocks, up to the 2^32nd, begin with different texts, and so do those of two
      salts. */
  lemma ChainsBeginApart(alg: Algorithm, password: seq<byte>, salt1: seq<byte>, block1: nat, salt2: seq<byte>, block2: nat)
      returns (x: seq<byte>, y: seq<byte>)
    requires block1 < Pow256(4) && block2 < Pow256(4) && (block1 != block2 || salt1 != salt2)
    ensures U(alg, password, salt1, block1, 1) == Mac(alg, password, x)
    ensures U(alg, password, salt2, block2, 1) == Mac(alg, password, y)
    ensures x != y
  {
    hide Mac, ToBytes, Value, Pow256;
    x, y := salt1 + ToBytes(block1, 4), salt2 + ToBytes(block2, 4);
    NumbersTell(block1, block2);
    EndsTell(salt1, ToBytes(block1, 4), salt2, ToBytes(block2, 4));
  }

  lemma NumbersTell(n: nat, m: nat)
    requires n < Pow256(4) && m < Pow256(4)
    ensures ToBytes(n, 4) == ToBytes(m, 4) ==> n == m
  {
    hide ToBytes, Value, Pow256;
    ValueOfToBytes(n, 4);
    ValueOfToBytes(m, 4);
  }

  lemma EndsTell(a: seq<byte>, b: seq<byte>, c: seq<byte>, d: seq<byte>)
    requires |b| == |d|
    ensures a + b == c + d ==> a == c && b == d
  {
    if a + b == c + d {
      assert (a + b)[..|a|] == a && (c + d)[..|c|] == c;
      assert (a + b)[|a|..] == b && (c + d)[|c|..] == d;
    }
  }

  /** Every link of a chain is the MAC of the one before. */
  lemma ChainLink(alg: Algorithm, password: seq<byte>, salt: seq<byte>, count: nat, block: nat)
    requires count > 1
    ensures XorBytes(F(alg, password, salt, count, block), F(alg, password, salt, count - 1, block))
         == U(alg, password, salt, block, count)
    ensures U(alg, password, salt, block, count) == Mac(alg, password, U(alg, password, salt, block, count - 1))
  {
    hide Mac, XorByte, U;
    var sum, u := SumTo(alg, password, salt, block, count - 1), U(alg, password, salt, block, count);
    assert F(alg, password, salt, count, block) == XorBytes(sum, u);
    forall i | 0 <= i < HASH_SIZE
      ensures XorBytes(XorBytes(sum, u), sum)[i] == u[i]
    {
      SumCancels(sum[i], u[i]);
    }
    NextLink(alg, password, salt, block, count);
  }

  lemma NextLink(alg: Algorithm, password: seq<byte>, salt: seq<byte>, block: nat, j: nat)
    requires j > 1
    ensures U(alg, password, salt, block, j) == Mac(alg, password, U(alg, password, salt, block, j - 1))
  {
    hide Mac;
  }

  lemma SumCancels(a: byte, b: byte)
    ensures XorByte(XorByte(a, b), a) == b
  {
  }

  // ---------------------------------------------------------------- the loops

  method BlockOf(alg: Algorithm, password: seq<byte>, salt: seq<byte>, iterations: nat, blocknum: nat) returns (t: seq<byte>)
    ensures t == F(alg, password, salt, iterations, blocknum)
  {
    hide Mac, Feed, Keyed, Finished, XorBytes, ToBytes;
    var count := iterations;
    var b := ToBytes(blocknum, 4);
    var state := new Hmac.State(alg, password);
    ghost var z := state.Now();
    state.Update(salt);
    state.Update(b);
    FeedInTwo(alg, z, salt, b);
    OnePieceIsMac(alg, password, salt + b);
    t := state.Finalize(password);
    if count > 1 {
      state.Reinit(password);
      state.Update(t);
      OnePieceIsMac(alg, password, t);
      var u := state.Finalize(password);
      t := XorBytes(t, u);
      assert U(alg, password, salt, blocknum, 2) == Mac(alg, password, U(alg, password, salt, blocknum, 1));
      ghost var j := 2;
      while count > 2
        invariant state.Valid() && state.alg == alg && fresh(state.hash) && fresh(state.hash.state) && fresh(state.hash.state.B)
        invariant count >= 2 && 2 <= j && count - 2 == iterations - j
        invariant u == U(alg, password, salt, blocknum, j) && t == SumTo(alg, password, salt, blocknum, j)
      {
        state.Reinit(password);
        state.Update(u);
        OnePieceIsMac(alg, password, u);
        u := state.Finalize(password);
        t := XorBytes(t, u);
        j := j + 1;
        count := count - 1;
      }
    }
  }

  lemma {:induction false} BlocksPrefix(alg: Algorithm, password: seq<byte>, salt: seq<byte>, count: nat, n: nat, m: nat)
    requires n <= m
    ensures Blocks(alg, password, salt, count, n) == Blocks(alg, password, salt, count, m)[..n * HASH_SIZE]
    decreases m - n
  {
    hide F;
    if n < m {
      BlocksPrefix(alg, password, salt, count, n, m - 1);
      assert Blocks(alg, password, salt, count, m)
          == Blocks(alg, password, salt, count, m - 1) + F(alg, password, salt, count, m);
    }
  }

  /** The key is a prefix of the blocks T_1, T_2, ..., as many as it takes. */
  method Derive(alg: Algorithm, outlen: nat, password: seq<byte>, salt: seq<byte>, count: nat) returns (out: seq<byte>)
    ensures |out| == outlen
    ensures forall n | n * HASH_SIZE >= outlen :: out == Blocks(alg, password, salt, count, n)[..outlen]
  {
    hide F, XorBytes, Mac;
    out := [];
    var blocknum := 1;
    ghost var made := 0;
    while outlen > |out|
      invariant blocknum == made + 1 && |out| == made * HASH_SIZE <= outlen
      invariant out == Blocks(alg, password, salt, count, made)
    {
      var t := BlockOf(alg, password, salt, count, blocknum);
      made := made + 1;
      if outlen - |out| >= HASH_SIZE {
        out := out + t;
      } else {
        out := out + t[..outlen - |out|];
        break;
      }
      blocknum := blocknum + 1;
    }
    assert (made - 1) * HASH_SIZE < outlen <= made * HASH_SIZE && out == Blocks(alg, password, salt, count, made)[..outlen];
    forall n | n * HASH_SIZE >= outlen
      ensures out == Blocks(alg, password, salt, count, n)[..outlen]
    {
      BlocksPrefix(alg, password, salt, count, made, n);
    }
  }
}
