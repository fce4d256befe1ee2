/** ASCON-128, ASCON-128a and ASCON-80pq.  Seal and Open say what the ciphertext and the plaintext
    are, a byte at a time; the methods work block by block on buffers that may overlap. */
module Aead {
  import opened Bytes
  import opened Snp
  import opened Duplex
  import opened Memory
  import opened AeadCommon
  import opened Options

  const TAG_SIZE: nat := 16
  const NONCE_SIZE: nat := 16

  /** `first` is the first of the twelve rounds that is run between blocks. */
  datatype VariantData = Variant(iv: seq<byte>, rate: Rate, first: nat)

  type Variant = v: VariantData | 4 <= |v.iv| <= 8 && v.rate <= 16
    witness Variant(Zeros(8), 8, 6)

  const ASCON128: Variant := Variant([0x80, 0x40, 0x0c, 0x06, 0, 0, 0, 0], 8, 6)
  const ASCON128A: Variant := Variant([0x80, 0x80, 0x0c, 0x08, 0, 0, 0, 0], 16, 4)
  const ASCON80PQ: Variant := Variant([0xa0, 0x40, 0x0c, 0x06], 8, 6)

  /** The initialization vector and the key fill the bytes in front of the nonce. */
  predicate KeyFor(v: Variant, k: seq<byte>) {
    |v.iv| + |k| == 24
  }

  // ---------------------------------------------------------------- what the mode computes

  function StartState(p: Permutation, v: Variant, k: seq<byte>, npub: seq<byte>, ad: seq<byte>): Block
    requires KeyFor(v, k) && |npub| == NONCE_SIZE
  {
    var initial := AddAt(p(v.iv + k + npub, 0), k, 40 - |k|);
    AddSeparator(if ad == [] then initial else Absorbed(p, v.rate, v.first, initial, ad, true))
  }

  /** What the last permutation is run on. */
  function LastInput(v: Variant, k: seq<byte>, c: Cursor): Block
    requires KeyFor(v, k)
  {
    AddAt(PadAt(c.s, c.posn), k, v.rate)
  }

  function Tag(p: Permutation, v: Variant, k: seq<byte>, c: Cursor): (tag: seq<byte>)
    requires KeyFor(v, k)
    ensures |tag| == TAG_SIZE
  {
    ExtractAt(AddAt(p(LastInput(v, k, c), 0), k[|k| - 16..], 24), 24, 16)
  }

  function Start(p: Permutation, v: Variant, k: seq<byte>, npub: seq<byte>, ad: seq<byte>): Cursor
    requires KeyFor(v, k) && |npub| == NONCE_SIZE
  {
    Cursor(StartState(p, v, k, npub, ad), 0)
  }

  function Encrypting(p: Permutation, v: Variant): Step { EncryptStep(p, v.rate, v.first) }

  function Decrypting(p: Permutation, v: Variant): Step { DecryptStep(p, v.rate, v.first) }

  function Seal(p: Permutation, v: Variant, k: seq<byte>, npub: seq<byte>, ad: seq<byte>, m: seq<byte>): (c: seq<byte>)
    requires KeyFor(v, k) && |npub| == NONCE_SIZE
    ensures |c| == |m| + TAG_SIZE
  {
    var (last, out) := Run(Encrypting(p, v), Start(p, v, k, npub, ad), m);
    out + Tag(p, v, k, last)
  }

  function Open(p: Permutation, v: Variant, k: seq<byte>, npub: seq<byte>, ad: seq<byte>, c: seq<byte>)
      : (m: Option<seq<byte>>)
    requires KeyFor(v, k) && |npub| == NONCE_SIZE
    ensures m.Some? ==> |c| == |m.value| + TAG_SIZE
  {
    if |c| < TAG_SIZE then None
    else
      var (last, out) := Run(Decrypting(p, v), Start(p, v, k, npub, ad), c[..|c| - TAG_SIZE]);
      if Tag(p, v, k, last) == c[|c| - TAG_SIZE..] then Some(out) else None
  }

  /** A string is accepted exactly when it is the encryption of what it decrypts to. */
  lemma OpenIffSeal(p: Permutation, v: Variant, k: seq<byte>, npub: seq<byte>, ad: seq<byte>, c: seq<byte>, m: seq<byte>)
    requires KeyFor(v, k) && |npub| == NONCE_SIZE
    ensures Open(p, v, k, npub, ad, c) == Some(m) <==> c == Seal(p, v, k, npub, ad, m)
  {
    hide Run, EncryptStep, DecryptStep, StartState, Tag;
    var start := Start(p, v, k, npub, ad);
    DecryptUndoesEncrypt(p, v.rate, v.first, start, m);
    if c == Seal(p, v, k, npub, ad, m) {
      assert c[..|c| - TAG_SIZE] == Run(Encrypting(p, v), start, m).1;
    }
    if Open(p, v, k, npub, ad, c) == Some(m) {
      var body := c[..|c| - TAG_SIZE];
      EncryptUndoesDecrypt(p, v.rate, v.first, start, body);
      assert c == body + c[|c| - TAG_SIZE..];
    }
  }

  // ---------------------------------------------------------------- the parts of the methods

  /** Loads the key and the nonce and absorbs the associated data. */
  method StartMode(state: State, v: Variant, k: seq<byte>, npub: seq<byte>, ad: seq<byte>)
    requires state.Valid()
    requires KeyFor(v, k) && |npub| == NONCE_SIZE
    modifies state.B
    ensures state.Bytes() == StartState(state.permutation, v, k, npub, ad)
  {
    hide Absorbed, AddAt, OverwriteAt, AddSeparator;
    ghost var before := state.Bytes();
    state.OverwriteBytes(v.iv, 0);
    state.OverwriteBytes(k, |v.iv|);
    state.OverwriteBytes(npub, 24);
    AllOverwritten(before, v.iv, k, npub);
    state.Permute(0);
    state.AddBytes(k, 40 - |k|);
    if |ad| > 0 {
      Absorb(state, ad, v.rate, v.first, true);
    }
    state.Separator();
  }

  /** Nothing of the state that was there before is left. */
  lemma AllOverwritten(s: Block, iv: seq<byte>, k: seq<byte>, npub: seq<byte>)
    requires |iv| + |k| == 24 && |npub| == NONCE_SIZE
    ensures OverwriteAt(OverwriteAt(OverwriteAt(s, iv, 0), k, |iv|), npub, 24) == iv + k + npub
  {
    OverwriteInTwo(s, iv, k, 0);
    OverwriteInTwo(s, iv + k, npub, 0);
  }

  method FinishMode(state: State, v: Variant, k: seq<byte>, posn: nat) returns (tag: seq<byte>)
    requires state.Valid()
    requires KeyFor(v, k) && posn < 40
    modifies state.B
    ensures tag == Tag(state.permutation, v, k, Cursor(old(state.Bytes()), posn))
  {
    hide AddAt, ExtractAt, PadAt;
    state.Pad(posn);
    state.AddBytes(k, v.rate);
    state.Permute(0);
    state.AddBytes(k[|k| - 16..], 24);
    tag := state.ExtractBytes(24, 16);
  }

  // ---------------------------------------------------------------- one-shot encryption

  method Encrypt(p: Permutation, v: Variant, mem: array<byte>, c: nat, m: nat, mlen: nat,
                 ad: seq<byte>, npub: seq<byte>, k: seq<byte>) returns (clen: nat)
    requires KeyFor(v, k) && |npub| == NONCE_SIZE
    requires m + mlen <= mem.Length && c + mlen + TAG_SIZE <= mem.Length && Ordered(c, m, mlen)
    modifies mem
    ensures clen == mlen + TAG_SIZE
    ensures mem[..] == Splice(old(mem[..]), c, Seal(p, v, k, npub, ad, old(mem[m..m + mlen])))
  {
    hide Run, EncryptStep, StartState, Tag, Splice;
    clen := mlen + TAG_SIZE;
    var state := new State(p);
    StartMode(state, v, k, npub, ad);
    ghost var before, input := mem[..], mem[m..m + mlen];
    var partial := EncryptBlocks(state, mem, c, m, mlen, v.rate, v.first, 0);
    ghost var body := Run(Encrypting(p, v), Start(p, v, k, npub, ad), input).1;
    var tag := FinishMode(state, v, k, partial);
    SpliceInTwo(before, c, body, tag);
    Write(mem, c + mlen, tag);
  }

  // ---------------------------------------------------------------- one-shot decryption

  /** `mlen` goes in with whatever the caller's variable holds: it is only written when the
      ciphertext is long enough to hold a tag. */
  method Decrypt(p: Permutation, v: Variant, mem: array<byte>, m: nat, mlenBefore: nat, c: nat, clen: nat,
                 ad: seq<byte>, npub: seq<byte>, k: seq<byte>) returns (result: int, mlen: nat)
    requires KeyFor(v, k) && |npub| == NONCE_SIZE
    requires c + clen <= mem.Length
    requires clen >= TAG_SIZE ==> m + clen - TAG_SIZE <= mem.Length && Ordered(m, c, clen)
    modifies mem
    ensures clen < TAG_SIZE ==> result == -1 && mlen == mlenBefore && mem[..] == old(mem[..])
    ensures clen >= TAG_SIZE ==> mlen == clen - TAG_SIZE
    ensures clen >= TAG_SIZE ==>
      match Open(p, v, k, npub, ad, old(mem[c..c + clen]))
      case Some(plaintext) => result == 0 && mem[..] == Splice(old(mem[..]), m, plaintext)
      case None => result == -1 && mem[..] == Splice(old(mem[..]), m, Zeros(mlen))
  {
    hide Run, DecryptStep, StartState, Tag, Splice;
    if clen < TAG_SIZE {
      return -1, mlenBefore;
    }
    mlen := clen - TAG_SIZE;
    var state := new State(p);
    StartMode(state, v, k, npub, ad);
    ghost var before, sealed := mem[..], mem[c..c + clen];
    assert mem[c..c + mlen] == sealed[..mlen];
    var partial := DecryptBlocks(state, mem, m, c, mlen, v.rate, v.first, 0);
    ghost var body := Run(Decrypting(p, v), Start(p, v, k, npub, ad), sealed[..mlen]).1;
    var tag := FinishMode(state, v, k, partial);
    SpliceElsewhere(before, m, body, c + mlen, c + clen);
    SliceOfSlice(before, c, clen, mlen, TAG_SIZE);
    SpliceTwice(before, m, body, Zeros(mlen));
    result := CheckTag(mem, m, mlen, tag, mem[c + mlen..c + clen]);
  }
}
