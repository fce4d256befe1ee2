/** What the tag is bound to.  For a permutation that loses nothing, the nonce, the associated data and
    the payload all enter the state the tag is taken from; a string accepted where it was not made
    shows a collision of the permutation. */
module AeadBinding {
  import opened Bytes
  import opened Options
  import opened Snp
  import opened Duplex
  import opened AeadCommon
  import opened Aead
  import opened Binding

  /** The initialization vectors name the parameters of the variants: the size of the key and the rate in
      bits, the twelve rounds, and how many of them run between blocks. */
  lemma IvNamesParameters(v: Variant)
    requires v == ASCON128 || v == ASCON128A || v == ASCON80PQ
    ensures v.iv[0] as nat == 8 * (24 - |v.iv|) && v.iv[1] as nat == 8 * v.rate
    ensures v.iv[2] == 12 && v.iv[3] as nat == 12 - v.first
  {
  }

  // ---------------------------------------------------------------- the start state

  lemma InitialApart(v: Variant, k1: seq<byte>, npub1: seq<byte>, k2: seq<byte>, npub2: seq<byte>)
    requires KeyFor(v, k1) && KeyFor(v, k2) && |npub1| == |npub2| == NONCE_SIZE && (k1 != k2 || npub1 != npub2)
    ensures v.iv + k1 + npub1 != v.iv + k2 + npub2
  {
    var a, b := v.iv + k1 + npub1, v.iv + k2 + npub2;
    assert a[|v.iv|..24] == k1 && b[|v.iv|..24] == k2;
    assert a[24..] == npub1 && b[24..] == npub2;
  }

  /** Different nonces lead to different start states. */
  lemma NonceEnters(p: Permutation, v: Variant, k: seq<byte>, npub1: seq<byte>, npub2: seq<byte>, ad: seq<byte>)
    requires Injective(p) && KeyFor(v, k) && |npub1| == |npub2| == NONCE_SIZE && npub1 != npub2
    ensures StartState(p, v, k, npub1, ad) != StartState(p, v, k, npub2, ad)
  {
    hide AddAt, Absorbed, AddSeparator;
    InitialApart(v, k, npub1, k, npub2);
    var s, t := p(v.iv + k + npub1, 0), p(v.iv + k + npub2, 0);
    StatesStayApart(s, t, k, 40 - |k|);
    var i, j := AddAt(s, k, 40 - |k|), AddAt(t, k, 40 - |k|);
    if ad != [] {
      AbsorbedKeepsApart(p, v.rate, v.first, i, j, ad, true);
      PaddedApart(Absorbed(p, v.rate, v.first, i, ad, true), Absorbed(p, v.rate, v.first, j, ad, true), 0);
    } else {
      PaddedApart(i, j, 0);
    }
  }

  /** And only through the permutation: where it does not tell two nonces apart, nothing does. */
  lemma NonceIsPermuted(p: Permutation, v: Variant, k: seq<byte>, npub1: seq<byte>, npub2: seq<byte>, ad: seq<byte>)
    requires KeyFor(v, k) && |npub1| == |npub2| == NONCE_SIZE && p(v.iv + k + npub1, 0) == p(v.iv + k + npub2, 0)
    ensures StartState(p, v, k, npub1, ad) == StartState(p, v, k, npub2, ad)
  {
    hide AddAt, Absorbed, AddSeparator;
  }

  /** So do associated data that differ within one block, of any lengths. */
  lemma HeaderEnters(p: Permutation, v: Variant, k: seq<byte>, npub: seq<byte>, ad1: seq<byte>, ad2: seq<byte>, front: nat)
    requires Injective(p) && KeyFor(v, k) && |npub| == NONCE_SIZE
    requires ad1 != [] && ad2 != [] && DifferInBlock(v.rate, ad1, ad2, front)
    ensures StartState(p, v, k, npub, ad1) != StartState(p, v, k, npub, ad2)
  {
    hide AddAt, Absorbed, AddSeparator, DifferInBlock;
    var initial := AddAt(p(v.iv + k + npub, 0), k, 40 - |k|);
    AbsorbedApart(p, v.rate, v.first, initial, ad1, ad2, front, true);
    PaddedApart(Absorbed(p, v.rate, v.first, initial, ad1, true), Absorbed(p, v.rate, v.first, initial, ad2, true), 0);
  }

  /** The key enters in three places, each of which tells two keys apart on its own: in front of the
      first permutation, behind it, and in front of and behind the last one. */
  lemma KeyEnters(p: Permutation, v: Variant, k1: seq<byte>, k2: seq<byte>, npub: seq<byte>, ad: seq<byte>, c: Cursor)
    requires Injective(p) && KeyFor(v, k1) && KeyFor(v, k2) && k1 != k2 && |npub| == NONCE_SIZE
    ensures p(v.iv + k1 + npub, 0) != p(v.iv + k2 + npub, 0)
    ensures LastInput(v, k1, c) != LastInput(v, k2, c)
  {
    hide AddAt;
    InitialApart(v, k1, npub, k2, npub);
    AddedApart(PadAt(c.s, c.posn), k1, k2, v.rate);
  }

  /** Even where a permutation maps both to the same state, the keys added behind it differ. */
  lemma KeyEntersAgain(p: Permutation, v: Variant, k1: seq<byte>, k2: seq<byte>, npub: seq<byte>, c: Cursor)
    requires KeyFor(v, k1) && KeyFor(v, k2) && k1 != k2 && |npub| == NONCE_SIZE
    ensures p(v.iv + k1 + npub, 0) == p(v.iv + k2 + npub, 0) ==>
              StartState(p, v, k1, npub, []) != StartState(p, v, k2, npub, [])
    ensures p(LastInput(v, k1, c), 0) == p(LastInput(v, k2, c), 0) && k1[|k1| - 16..] != k2[|k2| - 16..] ==>
              Tag(p, v, k1, c) != Tag(p, v, k2, c)
  {
    hide AddAt, ExtractAt, LastInput;
    var s := p(v.iv + k1 + npub, 0);
    AddedApart(s, k1, k2, 40 - |k1|);
    PaddedApart(AddAt(s, k1, 40 - |k1|), AddAt(s, k2, 40 - |k1|), 0);
    TagReads(p, v, k1, c);
    TagReads(p, v, k2, c);
    if Tag(p, v, k1, c) == Tag(p, v, k2, c) {
      XorTwice(k1[|k1| - 16..], p(LastInput(v, k1, c), 0)[24..40]);
      XorTwice(k2[|k2| - 16..], p(LastInput(v, k2, c), 0)[24..40]);
    }
  }

  // ---------------------------------------------------------------- the tag

  lemma TagReads(p: Permutation, v: Variant, k: seq<byte>, c: Cursor)
    requires KeyFor(v, k)
    ensures Tag(p, v, k, c) == XorBytes(k[|k| - 16..], p(LastInput(v, k, c), 0)[24..40])
  {
    hide LastInput, XorByte;
    var s, t := p(LastInput(v, k, c), 0), Tag(p, v, k, c);
    forall i | 0 <= i < 16
      ensures t[i] == XorBytes(k[|k| - 16..], s[24..40])[i]
    {
      AddAtIndex(s, k[|k| - 16..], 24, 24 + i);
      Commutes(s[24 + i], k[|k| - 16..][i]);
    }
  }

  lemma Commutes(a: byte, b: byte)
    ensures XorByte(a, b) == XorByte(b, a)
  {
  }

  /** Under one key, tags agree exactly when the last states agree in the sixteen bytes read. */
  lemma SameTagIff(p: Permutation, v: Variant, k: seq<byte>, c: Cursor, d: Cursor)
    requires KeyFor(v, k)
    ensures Tag(p, v, k, c) == Tag(p, v, k, d) <==> p(LastInput(v, k, c), 0)[24..40] == p(LastInput(v, k, d), 0)[24..40]
  {
    hide Tag, LastInput, XorBytes;
    TagReads(p, v, k, c);
    TagReads(p, v, k, d);
    var key, s, t := k[|k| - 16..], p(LastInput(v, k, c), 0)[24..40], p(LastInput(v, k, d), 0)[24..40];
    Masked(key, s, t);
  }

  lemma Masked(key: seq<byte>, s: seq<byte>, t: seq<byte>)
    requires |key| == |s| == |t|
    ensures XorBytes(key, s) == XorBytes(key, t) ==> s == t
  {
    hide XorByte;
    if XorBytes(key, s) == XorBytes(key, t) {
      forall i | 0 <= i < |s|
        ensures s[i] == t[i]
      {
        assert XorBytes(key, s)[i] == XorBytes(key, t)[i];
        XorByteCancels(key[i], s[i], t[i]);
      }
    }
  }

  /** The permutation maps two different states to ones that agree in the sixteen bytes that the tag
      reads. */
  predicate TagsCollide(p: Permutation, v: Variant, k: seq<byte>, c: Cursor, d: Cursor)
    requires KeyFor(v, k)
  {
    LastInput(v, k, c) != LastInput(v, k, d) && p(LastInput(v, k, c), 0)[24..40] == p(LastInput(v, k, d), 0)[24..40]
  }

  lemma LastApart(v: Variant, k: seq<byte>, c: Cursor, d: Cursor)
    requires KeyFor(v, k) && PadAt(c.s, c.posn) != PadAt(d.s, d.posn)
    ensures LastInput(v, k, c) != LastInput(v, k, d)
  {
    hide AddAt, PadAt;
    StatesStayApart(PadAt(c.s, c.posn), PadAt(d.s, d.posn), k, v.rate);
  }

  // ---------------------------------------------------------------- what is encrypted

  /** What is sealed besides the key. */
  datatype Sealed = Sealed(npub: seq<byte>, ad: seq<byte>, m: seq<byte>)

  /** One part is changed: the nonce, or a block of the associated data or of the payload. */
  ghost predicate OnePartDiffers(v: Variant, a: Sealed, b: Sealed) {
    || (a.npub != b.npub && a.ad == b.ad && a.m == b.m)
    || (a.npub == b.npub && a.m == b.m && a.ad != [] && b.ad != [] && DifferInOneBlock(v.rate, a.ad, b.ad))
    || (a.npub == b.npub && a.ad == b.ad && DifferInOneBlock(v.rate, a.m, b.m))
  }

  function EndOf(p: Permutation, v: Variant, k: seq<byte>, a: Sealed): Cursor
    requires KeyFor(v, k) && |a.npub| == NONCE_SIZE
  {
    Run(Encrypting(p, v), Start(p, v, k, a.npub, a.ad), a.m).0
  }

  /** The state the tag is taken from tells them apart; so equal tags are a collision. */
  lemma EveryPartEnters(p: Permutation, v: Variant, k: seq<byte>, a: Sealed, b: Sealed)
    requires Injective(p) && KeyFor(v, k) && |a.npub| == |b.npub| == NONCE_SIZE && OnePartDiffers(v, a, b)
    ensures LastInput(v, k, EndOf(p, v, k, a)) != LastInput(v, k, EndOf(p, v, k, b))
    ensures var sealed1, sealed2 := Seal(p, v, k, a.npub, a.ad, a.m), Seal(p, v, k, b.npub, b.ad, b.m);
            sealed1[|a.m|..] == sealed2[|b.m|..] <==> TagsCollide(p, v, k, EndOf(p, v, k, a), EndOf(p, v, k, b))
  {
    hide Run, EncryptStep, StartState, LastInput, Tag, PadAt, DifferInBlock;
    var c, d := EndOf(p, v, k, a), EndOf(p, v, k, b);
    assert PadAt(c.s, c.posn) != PadAt(d.s, d.posn) by {
      if a.m != b.m {
        var n :| DifferInBlock(v.rate, a.m, b.m, n);
        BlockEnters(p, v.rate, v.first, StartState(p, v, k, a.npub, a.ad), a.m, b.m, n);
      } else {
        if a.npub != b.npub {
          NonceEnters(p, v, k, a.npub, b.npub, a.ad);
        } else {
          var n :| DifferInBlock(v.rate, a.ad, b.ad, n);
          HeaderEnters(p, v, k, a.npub, a.ad, b.ad, n);
        }
        RunsStayApart(p, v.rate, v.first, Start(p, v, k, a.npub, a.ad), Start(p, v, k, b.npub, b.ad), a.m);
        PaddedApart(c.s, d.s, c.posn);
      }
    }
    LastApart(v, k, c, d);
    SameTagIff(p, v, k, c, d);
  }

  // ---------------------------------------------------------------- header and payload

  /** The separator keeps the two phases apart: absorbing the padded header as associated data and then
      the payload is never the same as going on with the payload as associated data. */
  lemma PhasesApart(p: Permutation, v: Variant, k: seq<byte>, npub: seq<byte>, ad: seq<byte>, m: seq<byte>)
    requires Injective(p) && KeyFor(v, k) && |npub| == NONCE_SIZE && ad != []
    ensures var initial := AddAt(p(v.iv + k + npub, 0), k, 40 - |k|);
            Run(Encrypting(p, v), Start(p, v, k, npub, ad), m).0.s
            != Run(Encrypting(p, v), Cursor(initial, 0), PaddedTo(v.rate, ad) + m).0.s
  {
    hide AddAt, Absorbed, Run, EncryptStep;
    SeparatorCounts(p, v.rate, v.first, AddAt(p(v.iv + k + npub, 0), k, 40 - |k|), ad, m);
  }

  // ---------------------------------------------------------------- what is decrypted

  /** The capacities meet after `i` bytes of one ciphertext, while the states differ. */
  predicate MeetAt(step: Step, rate: Rate, c: Cursor, d: Cursor, data: seq<byte>, i: nat)
    requires i <= |data|
  {
    var e, f := Run(step, c, data[..i]).0, Run(step, d, data[..i]).0;
    e.s != f.s && e.s[rate..] == f.s[rate..]
  }

  ghost predicate Meet(step: Step, rate: Rate, c: Cursor, d: Cursor, data: seq<byte>) {
    exists i | 0 <= i <= |data| :: MeetAt(step, rate, c, d, data, i)
  }

  /** Different states that decrypt the same bytes stay different, unless their capacities meet. */
  lemma {:induction false} DecryptsApart(p: Permutation, rate: Rate, first: nat, c: Cursor, d: Cursor, data: seq<byte>)
    requires Injective(p) && c.posn == d.posn < rate && c.s != d.s
    ensures var e, f := Run(DecryptStep(p, rate, first), c, data).0, Run(DecryptStep(p, rate, first), d, data).0;
            e.posn == f.posn < rate && (e.s != f.s || Meet(DecryptStep(p, rate, first), rate, c, d, data))
    decreases |data|
  {
    hide DecryptStep, MeetAt;
    var step := DecryptStep(p, rate, first);
    if data != [] {
      var n := |data| - 1;
      var init, b := data[..n], data[n];
      DecryptsApart(p, rate, first, c, d, init);
      assert data == init + [b];
      RunConcat(step, c, init, [b]);
      RunConcat(step, d, init, [b]);
      var e, f := Run(step, c, init).0, Run(step, d, init).0;
      RunOne(step, e, b);
      RunOne(step, f, b);
      if e.s == f.s {
        var i :| 0 <= i <= n && MeetAt(step, rate, c, d, init, i);
        MeetLater(step, rate, c, d, data, n, i);
        OneByteDecrypted(p, rate, first, e, f, b);
      } else {
        OneByteDecrypted(p, rate, first, e, f, b);
        MeetHere(step, rate, c, d, data, n);
      }
    }
  }

  lemma MeetHere(step: Step, rate: Rate, c: Cursor, d: Cursor, data: seq<byte>, i: nat)
    requires i <= |data|
    ensures var e, f := Run(step, c, data[..i]).0, Run(step, d, data[..i]).0;
            e.s != f.s && e.s[rate..] == f.s[rate..] ==> Meet(step, rate, c, d, data)
  {
    hide Run;
    var e, f := Run(step, c, data[..i]).0, Run(step, d, data[..i]).0;
    if e.s != f.s && e.s[rate..] == f.s[rate..] {
      assert MeetAt(step, rate, c, d, data, i);
    }
  }

  lemma MeetLater(step: Step, rate: Rate, c: Cursor, d: Cursor, data: seq<byte>, n: nat, i: nat)
    requires i <= n <= |data| && MeetAt(step, rate, c, d, data[..n], i)
    ensures Meet(step, rate, c, d, data)
  {
    assert data[..n][..i] == data[..i];
    assert MeetAt(step, rate, c, d, data, i);
  }

  lemma OneByteDecrypted(p: Permutation, rate: Rate, first: nat, c: Cursor, d: Cursor, b: byte)
    requires Injective(p) && c.posn == d.posn < rate
    ensures var e, f := DecryptStep(p, rate, first)(c, b).0, DecryptStep(p, rate, first)(d, b).0;
            e.posn == f.posn < rate && (e.s == f.s ==> c.s[rate..] == d.s[rate..])
  {
    hide XorByte;
    if c.s[c.posn := b] == d.s[c.posn := b] {
      OneByteApart(rate, c.s, d.s, c.posn, b);
    }
  }

  lemma OneByteApart(rate: Rate, s: Block, t: Block, posn: nat, b: byte)
    requires posn < rate && s[posn := b] == t[posn := b]
    ensures s[rate..] == t[rate..]
  {
    forall i | rate <= i < 40
      ensures s[i] == t[i]
    {
      assert s[posn := b][i] == t[posn := b][i];
    }
  }

  /** A string accepted under two nonces, or under two headers that differ in one block, shows a
      collision: of the capacity, on the way, or of the sixteen bytes of the tag. */
  lemma AcceptedTwiceIsCollision(p: Permutation, v: Variant, k: seq<byte>, a: Sealed, b: Sealed, c: seq<byte>)
    requires Injective(p) && KeyFor(v, k) && |a.npub| == |b.npub| == NONCE_SIZE && OnePartDiffers(v, a, b.(m := a.m))
    requires Open(p, v, k, a.npub, a.ad, c).Some? && Open(p, v, k, b.npub, b.ad, c).Some?
    ensures var body := c[..|c| - TAG_SIZE];
            var s, t := Start(p, v, k, a.npub, a.ad), Start(p, v, k, b.npub, b.ad);
            var e, f := Run(Decrypting(p, v), s, body).0, Run(Decrypting(p, v), t, body).0;
            Meet(Decrypting(p, v), v.rate, s, t, body) || TagsCollide(p, v, k, e, f)
  {
    hide Run, DecryptStep, StartState, LastInput, Tag, PadAt, DifferInBlock, Meet;
    var body := c[..|c| - TAG_SIZE];
    var s, t := Start(p, v, k, a.npub, a.ad), Start(p, v, k, b.npub, b.ad);
    if a.npub != b.npub {
      NonceEnters(p, v, k, a.npub, b.npub, a.ad);
    } else {
      var n :| DifferInBlock(v.rate, a.ad, b.ad, n);
      HeaderEnters(p, v, k, a.npub, a.ad, b.ad, n);
    }
    DecryptsApart(p, v.rate, v.first, s, t, body);
    var e, f := Run(Decrypting(p, v), s, body).0, Run(Decrypting(p, v), t, body).0;
    if e.s != f.s {
      PaddedApart(e.s, f.s, e.posn);
      LastApart(v, k, e, f);
      SameTagIff(p, v, k, e, f);
    }
  }

  // ---------------------------------------------------------------- a changed ciphertext

  /** Decrypting bytes that differ within one block: the states behind the block differ. */
  lemma ChangeDecrypted(p: Permutation, rate: Rate, first: nat, c: Cursor, x: seq<byte>, u: seq<byte>, w: seq<byte>)
    requires Injective(p) && |u| == |w| == rate && u != w && Run(DecryptStep(p, rate, first), c, x).0.posn == 0
    ensures var d1, d2 := Run(DecryptStep(p, rate, first), c, x + u).0, Run(DecryptStep(p, rate, first), c, x + w).0;
            d1.posn == d2.posn == 0 && d1.s != d2.s
  {
    hide Run, DecryptStep, XorBytes;
    var step := DecryptStep(p, rate, first);
    var mid := Run(step, c, x).0;
    DecryptPart(p, rate, first, mid, u);
    DecryptPart(p, rate, first, mid, w);
    OverwritesApart(mid.s, u, w);
    RunConcat(step, c, x, u);
    RunConcat(step, c, x, w);
  }

  lemma OverwritesApart(s: Block, u: seq<byte>, w: seq<byte>)
    requires |u| == |w| <= 40 && u != w
    ensures OverwriteAt(s, u, 0) != OverwriteAt(s, w, 0)
  {
    assert OverwriteAt(s, u, 0)[..|u|] == u && OverwriteAt(s, w, 0)[..|u|] == w;
  }

  lemma EndsDecryptedApart(s: Block, u: seq<byte>, w: seq<byte>)
    requires |u| < 40 && |w| < 40 && u != w
    ensures PadAt(OverwriteAt(s, u, 0), |u|) != PadAt(OverwriteAt(s, w, 0), |w|)
  {
    hide XorByte;
    if |u| == |w| {
      OverwritesApart(s, u, w);
      PaddedApart(OverwriteAt(s, u, 0), OverwriteAt(s, w, 0), |u|);
    } else {
      var end := if |u| < |w| then |w| else |u|;
      PadBitCounts(s[end]);
      assert PadAt(OverwriteAt(s, u, 0), |u|)[end] != PadAt(OverwriteAt(s, w, 0), |w|)[end];
    }
  }

  lemma MiddleDecryptedApart(p: Permutation, rate: Rate, first: nat, start: Cursor, body1: seq<byte>, body2: seq<byte>, front: nat)
    requires Injective(p) && start.posn == 0 && DifferInBlock(rate, body1, body2, front)
    requires front + rate <= |body1| && front + rate <= |body2|
    ensures var step, next := DecryptStep(p, rate, first), front + rate;
            var e, f := Run(step, start, body1).0, Run(step, start, body2).0;
            || Meet(step, rate, Run(step, start, body1[..next]).0, Run(step, start, body2[..next]).0, body1[next..])
            || (e.posn == f.posn && e.s != f.s)
  {
    hide Run, DecryptStep, Meet, AtBlock;
    var step, x, next := DecryptStep(p, rate, first), body1[..front], front + rate;
    var u, w, y := body1[front..next], body2[front..next], body1[next..];
    assert body1[..next] == x + u && body2[..next] == x + w;
    assert body1 == body1[..next] + y && body2 == body2[..next] + y;
    DecryptPosn(p, rate, first, start, x);
    ChangeDecrypted(p, rate, first, start, x, u, w);
    RunConcat(step, start, body1[..next], y);
    RunConcat(step, start, body2[..next], y);
    DecryptsApart(p, rate, first, Run(step, start, body1[..next]).0, Run(step, start, body2[..next]).0, y);
  }

  lemma TailDecrypted(p: Permutation, rate: Rate, first: nat, start: Cursor, x: seq<byte>, u: seq<byte>)
    requires start.posn == 0 && AtBlock(rate, |x|) && |u| < rate
    ensures var mid := Run(DecryptStep(p, rate, first), start, x).0;
            Run(DecryptStep(p, rate, first), start, x + u).0 == Cursor(OverwriteAt(mid.s, u, 0), |u|)
  {
    hide Run, DecryptStep, XorBytes, OverwriteAt, AtBlock;
    DecryptPosn(p, rate, first, start, x);
    var mid := Run(DecryptStep(p, rate, first), start, x).0;
    RunConcat(DecryptStep(p, rate, first), start, x, u);
    DecryptPart(p, rate, first, mid, u);
  }

  lemma TailDecryptedApart(p: Permutation, rate: Rate, first: nat, start: Cursor, body1: seq<byte>, body2: seq<byte>, front: nat)
    requires Injective(p) && start.posn == 0 && DifferInBlock(rate, body1, body2, front)
    requires |body1| < front + rate && |body2| < front + rate
    ensures var e, f := Run(DecryptStep(p, rate, first), start, body1).0, Run(DecryptStep(p, rate, first), start, body2).0;
            PadAt(e.s, e.posn) != PadAt(f.s, f.posn)
  {
    hide Run, DecryptStep, PadAt, OverwriteAt, AtBlock;
    var x, u, w := body1[..front], body1[front..], body2[front..];
    assert body1 == x + u && body2 == x + w;
    TailDecrypted(p, rate, first, start, x, u);
    TailDecrypted(p, rate, first, start, x, w);
    EndsDecryptedApart(Run(DecryptStep(p, rate, first), start, x).0.s, u, w);
  }

  /** The capacities meet, behind a change that ends at `next`. */
  ghost predicate MeetBehind(step: Step, rate: Rate, start: Cursor, body1: seq<byte>, body2: seq<byte>, next: nat) {
    && next <= |body1| && next <= |body2|
    && Meet(step, rate, Run(step, start, body1[..next]).0, Run(step, start, body2[..next]).0, body1[next..])
  }

  lemma ChangeDecryptedApart(p: Permutation, rate: Rate, first: nat, start: Cursor, body1: seq<byte>, body2: seq<byte>, front: nat)
    requires Injective(p) && start.posn == 0 && DifferInBlock(rate, body1, body2, front)
    ensures var step := DecryptStep(p, rate, first);
            var e, f := Run(step, start, body1).0, Run(step, start, body2).0;
            MeetBehind(step, rate, start, body1, body2, front + rate) || PadAt(e.s, e.posn) != PadAt(f.s, f.posn)
  {
    hide Run, DecryptStep, PadAt, Meet, AtBlock;
    var step := DecryptStep(p, rate, first);
    if front + rate <= |body1| && front + rate <= |body2| {
      MiddleDecryptedApart(p, rate, first, start, body1, body2, front);
      var e, f := Run(step, start, body1).0, Run(step, start, body2).0;
      if e.s != f.s {
        PaddedApart(e.s, f.s, e.posn);
      }
    } else {
      TailDecryptedApart(p, rate, first, start, body1, body2, front);
    }
  }

  lemma TagsMeet(p: Permutation, v: Variant, k: seq<byte>, c: Cursor, d: Cursor)
    requires KeyFor(v, k) && PadAt(c.s, c.posn) != PadAt(d.s, d.posn) && Tag(p, v, k, c) == Tag(p, v, k, d)
    ensures TagsCollide(p, v, k, c, d)
  {
    hide PadAt, LastInput, Tag;
    LastApart(v, k, c, d);
    SameTagIff(p, v, k, c, d);
  }

  /** A string whose ciphertext has been changed within one block and which is still accepted under its
      old tag shows a collision as well: of the capacity, behind the change, or of the tag. */
  lemma TamperedIsCollision(p: Permutation, v: Variant, k: seq<byte>, npub: seq<byte>, ad: seq<byte>,
                            body1: seq<byte>, body2: seq<byte>, tag: seq<byte>, front: nat)
    requires Injective(p) && KeyFor(v, k) && |npub| == NONCE_SIZE && |tag| == TAG_SIZE
    requires DifferInBlock(v.rate, body1, body2, front)
    requires Open(p, v, k, npub, ad, body1 + tag).Some? && Open(p, v, k, npub, ad, body2 + tag).Some?
    ensures var step, start := Decrypting(p, v), Start(p, v, k, npub, ad);
            || MeetBehind(step, v.rate, start, body1, body2, front + v.rate)
            || TagsCollide(p, v, k, Run(step, start, body1).0, Run(step, start, body2).0)
  {
    hide Run, DecryptStep, StartState, Tag, PadAt, MeetBehind, TagsCollide, Open, DifferInBlock;
    var step, start := Decrypting(p, v), Start(p, v, k, npub, ad);
    ChangeDecryptedApart(p, v.rate, v.first, start, body1, body2, front);
    SameTag(p, v, k, npub, ad, body1, tag);
    SameTag(p, v, k, npub, ad, body2, tag);
    var e, f := Run(step, start, body1).0, Run(step, start, body2).0;
    if PadAt(e.s, e.posn) != PadAt(f.s, f.posn) {
      TagsMeet(p, v, k, e, f);
    }
  }

  lemma DecryptPosn(p: Permutation, rate: Rate, first: nat, c: Cursor, data: seq<byte>)
    requires c.posn == 0 && AtBlock(rate, |data|)
    ensures Run(DecryptStep(p, rate, first), c, data).0.posn == 0
  {
    EncryptUndoesDecrypt(p, rate, first, c, data);
    PosnAfter(p, rate, first, c, Run(DecryptStep(p, rate, first), c, data).1);
  }

  lemma SameTag(p: Permutation, v: Variant, k: seq<byte>, npub: seq<byte>, ad: seq<byte>, body: seq<byte>, tag: seq<byte>)
    requires KeyFor(v, k) && |npub| == NONCE_SIZE && |tag| == TAG_SIZE
    ensures Open(p, v, k, npub, ad, body + tag).Some?
            <==> Tag(p, v, k, Run(Decrypting(p, v), Start(p, v, k, npub, ad), body).0) == tag
  {
    hide Run, DecryptStep, StartState, Tag;
    var c := body + tag;
    assert c[..|c| - TAG_SIZE] == body && c[|c| - TAG_SIZE..] == tag;
  }
}
