/** The incremental AEAD objects: the payload is handed over in pieces of any size. */
module AeadIncremental {
  import opened Bytes
  import opened Snp
  import opened Duplex
  import opened Memory
  import opened AeadCommon
  import opened Options
  import opened BigEndian
  import opened Aead

  // ---------------------------------------------------------------- nonces

  /** Adds one to the nonce, a big-endian number. */
  method IncrementNonce(npub: array<byte>)
    requires npub.Length == NONCE_SIZE
    modifies npub
    ensures Value(npub[..]) == (Value(old(npub[..])) + 1) % Pow256(NONCE_SIZE)
  {
    hide Num, ByteOf, Value, Pow256;
    ghost var before := npub[..];
    var index: nat := NONCE_SIZE;
    var carry: nat := 1;
    assert Pow256(0) == 1 by { PowZero(); }
    assert before[16..] == npub[16..];
    while index > 0
      invariant 0 <= index <= NONCE_SIZE && carry <= 1
      invariant npub[..index] == before[..index]
      invariant Value(npub[index..]) + Times(carry, Pow256(NONCE_SIZE - index)) == Value(before[index..]) + 1
    {
      ghost var tail := npub[index..];
      index := index - 1;
      assert npub[index] == before[index];
      assert before[index..] == [before[index]] + before[index + 1..];
      ghost var carryIn := carry;
      carry := carry + Num(npub[index]);
      CarryOn(before[index], tail, before[index + 1..], carryIn, carry % 0x100, carry / 0x100);
      npub[index] := ByteOf(carry % 0x100);
      assert npub[index..] == [npub[index]] + tail;
      carry := carry / 0x100;
    }
    assert npub[0..] == npub[..] && before[0..] == before;
    ValueBound(npub[..]);
    ValueBound(before);
    CarriedOut(Value(npub[..]), Value(before), carry, Pow256(NONCE_SIZE));
  }

  lemma CarryOn(b: byte, tail: seq<byte>, tailBefore: seq<byte>, carry: nat, low: nat, high: nat)
    requires |tail| == |tailBefore| && carry <= 1
    requires low < 0x100 && carry + Num(b) == 0x100 * high + low
    requires Value(tail) + Times(carry, Pow256(|tail|)) == Value(tailBefore) + 1
    ensures high <= 1
    ensures Value([ByteOf(low)] + tail) + Times(high, Pow256(|tail| + 1)) == Value([b] + tailBefore) + 1
  {
    hide Num, ByteOf, Value, Pow256, Times;
    NumOfByte(low);
    ValuePrepend(ByteOf(low), tail);
    ValuePrepend(b, tailBefore);
    PowNext(|tail|);
    CarrySum(carry, Num(b), low, high, Pow256(|tail|));
  }

  lemma CarrySum(carry: nat, digit: nat, low: nat, high: nat, weight: nat)
    requires carry <= 1 && digit < 0x100 && low < 0x100
    requires carry + digit == 0x100 * high + low
    ensures high <= 1
    ensures Times(low, weight) + Times(high, 0x100 * weight) == Times(digit, weight) + Times(carry, weight)
  {
    assert (carry + digit) * weight == carry * weight + digit * weight;
    assert high == 0 || high == 1;
  }

  lemma PowZero()
    ensures Pow256(0) == 1
  {
  }

  lemma PowNext(n: nat)
    ensures Pow256(n + 1) == 0x100 * Pow256(n)
  {
  }

  lemma CarriedOut(now: nat, before: nat, carry: nat, size: nat)
    requires now < size && before < size && carry <= 1
    requires now + Times(carry, size) == before + 1
    ensures now == (before + 1) % size
  {
    ModUnique(before + 1, size, carry, now);
  }

  // ---------------------------------------------------------------- the object

  class Incremental {
    const variant: Variant
    const state: State
    const key: array<byte>
    const nonce: array<byte>
    var posn: nat

    ghost predicate Valid()
      reads this, state
    {
      && state.Valid()
      && |variant.iv| + key.Length == 24
      && nonce.Length == NONCE_SIZE
      && posn < variant.rate
      && key != nonce && state.B != key && state.B != nonce
    }

    ghost function Progress(): Cursor
      reads this, state, state.B
      requires Valid()
    {
      Cursor(state.Bytes(), posn)
    }

    constructor (p: Permutation, v: Variant, npub: Option<seq<byte>>, k: Option<seq<byte>>)
      requires k.Some? ==> KeyFor(v, k.value)
      requires npub.Some? ==> |npub.value| == NONCE_SIZE
      ensures Valid() && fresh(state) && fresh(state.B) && fresh(key) && fresh(nonce)
      ensures variant == v && state.permutation == p
      ensures key[..] == if k.Some? then k.value else Zeros(24 - |v.iv|)
      ensures nonce[..] == if npub.Some? then npub.value else Zeros(NONCE_SIZE)
      ensures posn == 0
    {
      variant := v;
      state := new State(p);
      key := new byte[24 - |v.iv|];
      nonce := new byte[NONCE_SIZE];
      posn := 0;
      new;
      Reinit(npub, k);
    }

    method Reinit(npub: Option<seq<byte>>, k: Option<seq<byte>>)
      requires Valid()
      requires k.Some? ==> KeyFor(variant, k.value)
      requires npub.Some? ==> |npub.value| == NONCE_SIZE
      modifies this, key, nonce
      ensures Valid()
      ensures key[..] == if k.Some? then k.value else Zeros(key.Length)
      ensures nonce[..] == if npub.Some? then npub.value else Zeros(NONCE_SIZE)
      ensures posn == 0
    {
      SpliceAll(key[..], if k.Some? then k.value else Zeros(key.Length));
      Write(key, 0, if k.Some? then k.value else Zeros(key.Length));
      SpliceAll(nonce[..], if npub.Some? then npub.value else Zeros(NONCE_SIZE));
      Write(nonce, 0, if npub.Some? then npub.value else Zeros(NONCE_SIZE));
      posn := 0;
    }

    /** Begins a packet; the nonce moves on for the next one. */
    method Begin(ad: seq<byte>)
      requires Valid()
      modifies this, nonce, state.B
      ensures Valid()
      ensures Progress() == Start(state.permutation, variant, key[..], old(nonce[..]), ad)
      ensures Value(nonce[..]) == (Value(old(nonce[..])) + 1) % Pow256(NONCE_SIZE)
    {
      hide StartState, Value, Pow256;
      StartMode(state, variant, key[..], nonce[..], ad);
      posn := 0;
      IncrementNonce(nonce);
    }

    method EncryptBlock(mem: array<byte>, src: nat, dest: nat, len: nat)
      requires Valid() && mem != state.B && mem != key && mem != nonce
      requires dest + len <= mem.Length && src + len <= mem.Length && Ordered(dest, src, len)
      modifies this, state.B, mem
      ensures Valid()
      ensures var (last, out) := Run(Encrypting(state.permutation, variant), old(Progress()), old(mem[src..src + len]));
              Progress() == last && mem[..] == Splice(old(mem[..]), dest, out)
    {
      posn := EncryptBlocks(state, mem, dest, src, len, variant.rate, variant.first, posn);
    }

    method EncryptFinalize() returns (tag: seq<byte>)
      requires Valid()
      modifies state.B
      ensures Valid()
      ensures tag == Tag(state.permutation, variant, key[..], old(Progress()))
    {
      tag := FinishMode(state, variant, key[..], posn);
    }

    method DecryptBlock(mem: array<byte>, src: nat, dest: nat, len: nat)
      requires Valid() && mem != state.B && mem != key && mem != nonce
      requires dest + len <= mem.Length && src + len <= mem.Length && Ordered(dest, src, len)
      modifies this, state.B, mem
      ensures Valid()
      ensures var (last, out) := Run(Decrypting(state.permutation, variant), old(Progress()), old(mem[src..src + len]));
              Progress() == last && mem[..] == Splice(old(mem[..]), dest, out)
    {
      posn := DecryptBlocks(state, mem, dest, src, len, variant.rate, variant.first, posn);
    }

    method DecryptFinalize(tag: seq<byte>) returns (result: int)
      requires Valid() && |tag| == TAG_SIZE
      modifies state.B
      ensures Valid()
      ensures result == if tag == Tag(state.permutation, variant, key[..], old(Progress())) then 0 else -1
    {
      var tag2 := FinishMode(state, variant, key[..], posn);
      var nothing := new byte[0];
      result := CheckTag(nothing, 0, 0, tag2, tag);
    }
  }

  lemma SpliceAll(s: seq<byte>, data: seq<byte>)
    requires |data| == |s|
    ensures Splice(s, 0, data) == data
  {
  }

  // ---------------------------------------------------------------- pieces of any size

  /** Begin, EncryptBlock on every piece and EncryptFinalize give the one-shot ciphertext. */
  lemma PiecesSeal(p: Permutation, v: Variant, k: seq<byte>, npub: seq<byte>, ad: seq<byte>, pieces: seq<seq<byte>>)
    requires KeyFor(v, k) && |npub| == NONCE_SIZE
    ensures var (last, out) := RunChunks(Encrypting(p, v), Start(p, v, k, npub, ad), pieces);
            out + Tag(p, v, k, last) == Seal(p, v, k, npub, ad, Flatten(pieces))
  {
    RunChunksFlatten(Encrypting(p, v), Start(p, v, k, npub, ad), pieces);
  }

  /** Begin, DecryptBlock on every piece and DecryptFinalize accept exactly what the one-shot form
      accepts, and produce the same plaintext. */
  lemma PiecesOpen(p: Permutation, v: Variant, k: seq<byte>, npub: seq<byte>, ad: seq<byte>,
                   pieces: seq<seq<byte>>, tag: seq<byte>)
    requires KeyFor(v, k) && |npub| == NONCE_SIZE && |tag| == TAG_SIZE
    ensures var (last, out) := RunChunks(Decrypting(p, v), Start(p, v, k, npub, ad), pieces);
            Open(p, v, k, npub, ad, Flatten(pieces) + tag) == if tag == Tag(p, v, k, last) then Some(out) else None
  {
    RunChunksFlatten(Decrypting(p, v), Start(p, v, k, npub, ad), pieces);
    var c := Flatten(pieces) + tag;
    assert c[..|c| - TAG_SIZE] == Flatten(pieces) && c[|c| - TAG_SIZE..] == tag;
  }

  /** Whatever pieces the two sides choose, the receiver gets the plaintext and accepts. */
  lemma PiecesRoundTrip(p: Permutation, v: Variant, k: seq<byte>, npub: seq<byte>, ad: seq<byte>,
                        sent: seq<seq<byte>>, received: seq<seq<byte>>)
    requires KeyFor(v, k) && |npub| == NONCE_SIZE
    requires Flatten(received) == RunChunks(Encrypting(p, v), Start(p, v, k, npub, ad), sent).1
    ensures RunChunks(Decrypting(p, v), Start(p, v, k, npub, ad), received)
         == (RunChunks(Encrypting(p, v), Start(p, v, k, npub, ad), sent).0, Flatten(sent))
  {
    var start := Start(p, v, k, npub, ad);
    RunChunksFlatten(Encrypting(p, v), start, sent);
    RunChunksFlatten(Decrypting(p, v), start, received);
    DecryptUndoesEncrypt(p, v.rate, v.first, start, Flatten(sent));
  }
}
