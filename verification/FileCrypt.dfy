/** The file encryption tool: loops over one buffer, with the last 16 bytes read held back. */
module FileCrypt {
  import opened Bytes
  import opened Options
  import opened Snp
  import opened Duplex
  import opened Memory
  import opened AeadCommon
  import opened Aead
  import opened AeadIncremental
  import opened BigEndian

  const MAX_FILE_SIZE: nat := 1024 * 1024 * 1024 * 1024
  const HEADER_SIZE: nat := 28
  const SIV_SIZE: nat := 52
  const MAGIC: seq<byte> := [0x41, 0x53, 0x43, 0x4f, 0x4e, 0x63, 0x72, 0x79, 0x70, 0x74]
  const VERSION: seq<byte> := [0, 1]

  /** What the tool calls and this model does not look into: the permutation, the derivation of key and
      nonce from password and salt, and the cipher that protects the file key. */
  datatype Tools = Tools(p: Permutation,
                         derive: (seq<byte>, seq<byte>) -> KeyNonce,
                         sivEncrypt: (KeyNonce, seq<byte>, seq<byte>) -> SivBlock,
                         sivDecrypt: (KeyNonce, seq<byte>, seq<byte>) -> Option<KeyNonce>)

  type KeyNonce = s: seq<byte> | |s| == 36 witness Zeros(36)

  type SivBlock = s: seq<byte> | |s| == 52 witness Zeros(52)

  /** The protected file key can be recovered. */
  ghost predicate Invertible(t: Tools) {
    forall kn: KeyNonce, header: seq<byte>, secret: KeyNonce ::
      t.sivDecrypt(kn, header, t.sivEncrypt(kn, header, secret)) == Some(secret)
  }

  // ---------------------------------------------------------------- what the files hold

  function Header(salt: seq<byte>): (h: seq<byte>)
    requires |salt| == 16
    ensures |h| == HEADER_SIZE
  {
    MAGIC + VERSION + salt
  }

  function FileKey(secret: KeyNonce): seq<byte> { secret[..20] }

  function FileNonce(secret: KeyNonce): seq<byte> { secret[20..] }

  function Siv(t: Tools, password: seq<byte>, salt: seq<byte>, secret: KeyNonce): SivBlock
    requires |salt| == 16
  {
    t.sivEncrypt(t.derive(password, salt), Header(salt), secret)
  }

  /** The encrypted file. */
  function Image(t: Tools, password: seq<byte>, salt: seq<byte>, secret: KeyNonce, plain: seq<byte>): seq<byte>
    requires |salt| == 16
  {
    var siv := Siv(t, password, salt, secret);
    Header(salt) + siv + Seal(t.p, ASCON80PQ, FileKey(secret), FileNonce(secret), siv, plain)
  }

  /** What the tool makes of a file that claims to be encrypted. */
  function Contents(t: Tools, password: seq<byte>, file: seq<byte>): Option<seq<byte>> {
    if |file| < HEADER_SIZE + SIV_SIZE || file[..12] != MAGIC + VERSION then None
    else
      var siv := file[28..80];
      var secret := t.sivDecrypt(t.derive(password, file[12..28]), file[..28], siv);
      if secret.None? || |file| < 80 + TAG_SIZE || |file| - 80 - TAG_SIZE > MAX_FILE_SIZE then None
      else Open(t.p, ASCON80PQ, FileKey(secret.value), FileNonce(secret.value), siv, file[80..])
  }

  /** For every file within the limit, decryption gives back what was encrypted. */
  lemma ContentsOfImage(t: Tools, password: seq<byte>, salt: seq<byte>, secret: KeyNonce, plain: seq<byte>)
    requires Invertible(t) && |salt| == 16
    ensures Contents(t, password, Image(t, password, salt, secret, plain))
         == if |plain| <= MAX_FILE_SIZE then Some(plain) else None
  {
    hide Seal, Open;
    var siv, file := Siv(t, password, salt, secret), Image(t, password, salt, secret, plain);
    var sealed := Seal(t.p, ASCON80PQ, FileKey(secret), FileNonce(secret), siv, plain);
    assert file[..12] == MAGIC + VERSION && file[12..28] == salt && file[..28] == Header(salt);
    assert file[28..80] == siv && file[80..] == sealed;
    OpenIffSeal(t.p, ASCON80PQ, FileKey(secret), FileNonce(secret), siv, sealed, plain);
  }

  /** A file is decrypted to a text exactly if it begins with the magic and the version, its salt and the
      password open the protected key under that header, and the rest is that text encrypted with the
      file key, with the protected key as associated data. */
  lemma ContentsIff(t: Tools, password: seq<byte>, file: seq<byte>, plain: seq<byte>)
    ensures Contents(t, password, file) == Some(plain) <==>
              && |file| == 96 + |plain| && |plain| <= MAX_FILE_SIZE && file[..12] == MAGIC + VERSION
              && (var secret := t.sivDecrypt(t.derive(password, file[12..28]), file[..28], file[28..80]);
                  secret.Some?
                  && file[80..] == Seal(t.p, ASCON80PQ, secret.value[..20], secret.value[20..], file[28..80], plain))
  {
    hide Seal, Open;
    if |file| >= 80 && file[..12] == MAGIC + VERSION {
      var secret := t.sivDecrypt(t.derive(password, file[12..28]), file[..28], file[28..80]);
      if secret.Some? {
        OpenIffSeal(t.p, ASCON80PQ, FileKey(secret.value), FileNonce(secret.value), file[28..80], file[80..], plain);
      }
    }
  }

  // ---------------------------------------------------------------- files

  /** What one call of the system does: it moves some bytes, or it fails. */
  datatype Piece = Moves(n: nat) | Breaks

  /** A file that is read in pieces whose sizes the system chooses; a call may fail. */
  class Input {
    const contents: seq<byte>
    var position: nat
    var script: seq<Piece>
    ghost var failed: bool

    ghost predicate Valid()
      reads this
    {
      position <= |contents|
    }

    constructor (contents: seq<byte>, script: seq<Piece>)
      ensures Valid() && this.contents == contents && this.script == script && position == 0 && !failed
    {
      this.contents := contents;
      this.script := script;
      position := 0;
      failed := false;
    }

    /** One call of the system: -1, or at least one byte unless nothing is asked for or left. */
    method ReadPiece(len: nat) returns (temp: int, data: seq<byte>)
      requires Valid()
      modifies this`position, this`script
      ensures Valid() && temp <= len && (temp >= 0 ==> temp == |data|)
      ensures position == old(position) + |data| && data == contents[old(position)..position]
      ensures temp == 0 ==> len == 0 || old(position) == |contents|
      ensures len == 0 || old(position) == |contents| ==> temp <= 0
      ensures old(script) == [] ==> temp >= 0 && script == []
    {
      var most := if |contents| - position < len then |contents| - position else len;
      var piece := if script == [] then Moves(most) else script[0];
      script := if script == [] then [] else script[1..];
      if piece.Breaks? {
        return -1, [];
      }
      var count := if piece.n == 0 || piece.n > most then most else piece.n;
      data := contents[position..position + count];
      position := position + count;
      return count, data;
    }

    /** Reads on until the buffer is full or the file has ended; -1 as soon as a call fails. */
    method Read(mem: array<byte>, at: nat, size: nat) returns (result: int)
      requires Valid() && at + size <= mem.Length
      modifies this, mem
      ensures Valid() && failed == (old(failed) || result == -1)
      ensures result == -1 || (0 <= result <= size && position == old(position) + result)
      ensures result >= 0 ==> result == if size <= |contents| - old(position) then size else |contents| - old(position)
      ensures result >= 0 ==> mem[..] == Splice(old(mem[..]), at, contents[old(position)..position])
      ensures old(script) == [] ==> result >= 0 && script == []
    {
      hide Splice;
      result := 0;
      var len: nat := size;
      ghost var start, before := position, mem[..];
      SpliceNothing(before, at);
      assert contents[start..start] == [];
      while true
        invariant Valid() && 0 <= result && result + len == size && position == start + result && failed == old(failed)
        invariant mem[..] == Splice(before, at, contents[start..position])
        invariant old(script) == [] ==> script == []
        decreases len
      {
        var temp, data := ReadPiece(len);
        if temp < 0 {
          failed := true;
          return -1;
        } else if temp == 0 {
          break;
        }
        SpliceInTwo(before, at, contents[start..start + result], data);
        assert contents[start..start + result] + data == contents[start..position];
        Write(mem, at + result, data);
        result := result + temp;
        len := len - temp;
      }
    }
  }

  /** One write of the tool: how much was to be written, how much was stored, and what was returned. */
  datatype Call = Call(length: nat, stored: nat, result: int)

  predicate AllStored(calls: seq<Call>) {
    forall i | 0 <= i < |calls| :: calls[i].stored == calls[i].length
  }

  /** The tool takes a write for failed exactly when it returns zero. */
  predicate NoneRefused(calls: seq<Call>) {
    forall i | 0 <= i < |calls| :: calls[i].result != 0
  }

  /** What a write of `len` bytes returns, what it stores, and what is left of the script.  It returns
      the number of bytes stored, or -1: after none, some or even all of them. */
  function Writing(script: seq<Piece>, len: nat): (r: (int, nat, seq<Piece>))
    ensures r.1 <= len && (r.0 == -1 || r.0 == r.1)
  {
    if script == [] then (len, len, [])
    else if script[0].Breaks? then (-1, 0, script[1..])
    else
      var n := if script[0].n < len then script[0].n else len;
      if n == 0 then (0, 0, script[1..])
      else
        var (result, stored, rest) := Writing(script[1..], len - n);
        (if result < 0 then -1 else n + result, n + stored, rest)
  }

  function ScriptAfter(plan: seq<Piece>, calls: seq<Call>): seq<Piece> {
    if calls == [] then plan
    else Writing(ScriptAfter(plan, calls[..|calls| - 1]), calls[|calls| - 1].length).2
  }

  /** Every call did what the system had planned. */
  predicate AsPlanned(plan: seq<Piece>, calls: seq<Call>) {
    calls == []
    || (var earlier, last := calls[..|calls| - 1], calls[|calls| - 1];
        var (result, stored, _) := Writing(ScriptAfter(plan, earlier), last.length);
        AsPlanned(plan, earlier) && last == Call(last.length, stored, result))
  }

  /** The file that is written.  `sent` is all that was handed to it. */
  class Output {
    const plan: seq<Piece>
    var script: seq<Piece>
    var contents: seq<byte>
    var deleted: bool
    ghost var sent: seq<byte>
    ghost var calls: seq<Call>

    ghost predicate Valid()
      reads this
    {
      && script == ScriptAfter(plan, calls) && AsPlanned(plan, calls)
      && |contents| <= |sent| && (calls == [] ==> sent == [])
      && (if AllStored(calls) then contents == sent else |contents| < |sent|)
    }

    constructor (plan: seq<Piece>)
      ensures Valid() && this.plan == plan && contents == [] && sent == [] && calls == [] && !deleted
    {
      this.plan := plan;
      script := plan;
      contents := [];
      deleted := false;
      sent := [];
      calls := [];
    }

    method WritePiece(data: seq<byte>) returns (temp: int)
      modifies this`script, this`contents
      ensures -1 <= temp <= |data|
      ensures script == if old(script) == [] then [] else old(script)[1..]
      ensures temp == if old(script) == [] then |data|
                      else if old(script)[0].Breaks? then -1
                      else if old(script)[0].n < |data| then old(script)[0].n else |data|
      ensures contents == old(contents) + if temp < 0 then [] else data[..temp]
    {
      var piece := if script == [] then Moves(|data|) else script[0];
      script := if script == [] then [] else script[1..];
      if piece.Breaks? {
        return -1;
      }
      temp := if piece.n < |data| then piece.n else |data|;
      contents := contents + data[..temp];
    }

    /** Writes on until a call fails or moves nothing. */
    method Write(data: seq<byte>) returns (result: int)
      requires Valid()
      modifies this
      ensures Valid() && deleted == old(deleted)
      ensures sent == old(sent) + data
      ensures calls == old(calls) + [Call(|data|, Writing(old(script), |data|).1, result)]
      ensures result == Writing(old(script), |data|).0
    {
      hide Writing, ScriptAfter, AsPlanned, AllStored, Ahead;
      result := 0;
      var d := data;
      ghost var stored := 0;
      WritingAhead(script, |data|);
      while true
        invariant 0 <= result && result == stored && stored + |d| == |data| && d == data[stored..]
        invariant contents == old(contents) + data[..stored]
        invariant sent == old(sent) && calls == old(calls) && deleted == old(deleted)
        invariant Writing(old(script), |data|) == Ahead(stored, Writing(script, |d|))
        decreases |d|
      {
        WritingStep(script, |d|, stored);
        var temp := WritePiece(d);
        if temp <= 0 {
          result := if temp < 0 then -1 else result;
          CallAdded(plan, old(script), old(calls), |data|, old(sent), old(contents), data, stored, result);
          sent := sent + data;
          calls := calls + [Call(|data|, stored, result)];
          return;
        }
        TwoParts(data, stored, temp);
        result := result + temp;
        stored := stored + temp;
        d := d[temp..];
      }
    }

    method Delete()
      modifies this`deleted
      ensures deleted
    {
      deleted := true;
    }
  }

  lemma TwoParts(data: seq<byte>, n: nat, m: nat)
    requires n + m <= |data|
    ensures data[..n] + data[n..][..m] == data[..n + m] && data[n..][m..] == data[n + m..]
  {
  }

  function Ahead(n: nat, r: (int, nat, seq<Piece>)): (int, nat, seq<Piece>) {
    (if r.0 < 0 then -1 else n + r.0, n + r.1, r.2)
  }

  lemma WritingAhead(script: seq<Piece>, len: nat)
    ensures Writing(script, len) == Ahead(0, Writing(script, len))
  {
  }

  /** One call of the system, in the middle of a write. */
  lemma WritingStep(script: seq<Piece>, len: nat, done: nat)
    ensures var rest := if script == [] then [] else script[1..];
            var temp := if script == [] then len
                        else if script[0].Breaks? then -1
                        else if script[0].n < len then script[0].n else len;
            if temp < 0 then Ahead(done, Writing(script, len)) == (-1, done, rest)
            else if temp == 0 then Ahead(done, Writing(script, len)) == (done, done, rest)
            else Ahead(done, Writing(script, len)) == Ahead(done + temp, Writing(rest, len - temp))
  {
  }

  lemma CallAdded(plan: seq<Piece>, script: seq<Piece>, calls: seq<Call>, length: nat, sent: seq<byte>, contents: seq<byte>,
                  data: seq<byte>, stored: nat, result: int)
    requires script == ScriptAfter(plan, calls) && AsPlanned(plan, calls)
    requires |contents| <= |sent| && (if AllStored(calls) then contents == sent else |contents| < |sent|)
    requires length == |data| && stored <= |data|
    requires Writing(script, length).0 == result && Writing(script, length).1 == stored
    ensures var more := calls + [Call(length, stored, result)];
            && ScriptAfter(plan, more) == Writing(script, length).2 && AsPlanned(plan, more)
            && (if AllStored(more) then contents + data[..stored] == sent + data
                else |contents + data[..stored]| < |sent + data|)
  {
    hide Writing;
    var more := calls + [Call(length, stored, result)];
    assert more[..|more| - 1] == calls;
    assert AllStored(more) <==> AllStored(calls) && stored == length by {
      assert more[|calls|] == Call(length, stored, result);
      assert forall i | 0 <= i < |calls| :: more[i] == calls[i];
    }
    if stored == length {
      assert data[..stored] == data;
    }
  }

  // ---------------------------------------------------------------- encryption

  /** Nothing has been written yet. */
  ghost predicate Untouched(output: Output)
    reads output
  {
    output.Valid() && output.contents == [] && output.sent == [] && output.calls == []
  }

  predicate NoneEmpty(calls: seq<Call>) {
    forall i | 0 <= i < |calls| :: calls[i].length > 0
  }

  /** The random numbers are parameters.  Exactly when the tool reports success; and when it does, the
      output is the encrypted file exactly if every write stored all it was given, which the tool does
      not check. */
  method EncryptFile(t: Tools, password: seq<byte>, input: Input, output: Output, rng: bool, salt: seq<byte>,
                     secret: KeyNonce, bufsize: nat) returns (exitVal: int)
    requires input.Valid() && input.position == 0 && !input.failed && Untouched(output) && |salt| == 16 && bufsize > 16
    modifies input, output
    ensures output.Valid() && NoneEmpty(output.calls)
    ensures exitVal == if rng && |input.contents| <= MAX_FILE_SIZE && !input.failed && NoneRefused(output.calls) then 1 else 0
    ensures exitVal == 1 ==> (output.contents == Image(t, password, salt, secret, input.contents) <==> AllStored(output.calls))
    ensures output.deleted <==> exitVal == 0 || old(output.deleted)
    ensures rng ==> output.calls != [] && output.calls[0].length == HEADER_SIZE
    ensures old(input.script) == [] ==> !input.failed
  {
    hide Seal, AllStored, NoneRefused, NoneEmpty, Writing, ScriptAfter, AsPlanned;
    NoCalls();
    if !rng {
      output.Delete();
      return 0;
    }
    var siv := t.sivEncrypt(t.derive(password, salt), Header(salt), secret);
    exitVal := 1;
    var r := output.Write(Header(salt));
    OneCall([], output.calls[0]);
    if r == 0 {
      exitVal := 0;
    } else {
      ghost var calls := output.calls;
      r := output.Write(siv);
      OneCall(calls, output.calls[1]);
      if r == 0 {
        exitVal := 0;
      }
    }
    assert exitVal == 1 ==> output.sent == Header(salt) + siv;
    exitVal := EncryptBody(exitVal, t.p, FileKey(secret), FileNonce(secret), siv, input, output, bufsize);
    if exitVal == 0 {
      output.Delete();
    } else {
      assert output.sent == Image(t, password, salt, secret, input.contents);
    }
  }

  lemma NoCalls()
    ensures NoneEmpty([]) && NoneRefused([])
  {
  }

  lemma OneCall(calls: seq<Call>, c: Call)
    ensures NoneEmpty(calls + [c]) <==> NoneEmpty(calls) && c.length > 0
    ensures NoneRefused(calls + [c]) <==> NoneRefused(calls) && c.result != 0
  {
    var more := calls + [c];
    assert more[|calls|] == c && forall i | 0 <= i < |calls| :: more[i] == calls[i];
  }

  method EncryptBody(exitBefore: int, p: Permutation, k: seq<byte>, npub: seq<byte>, siv: seq<byte>, input: Input,
                     output: Output, bufsize: nat) returns (exitVal: int)
    requires |k| == 20 && |npub| == NONCE_SIZE && bufsize > 16
    requires input.Valid() && input.position == 0 && !input.failed
    requires output.Valid() && NoneEmpty(output.calls) && exitBefore == if NoneRefused(output.calls) then 1 else 0
    modifies input, output
    ensures output.Valid() && NoneEmpty(output.calls) && output.deleted == old(output.deleted)
    ensures exitVal == if |input.contents| <= MAX_FILE_SIZE && !input.failed && NoneRefused(output.calls) then 1 else 0
    ensures exitVal == 1 ==> output.sent == old(output.sent) + Seal(p, ASCON80PQ, k, npub, siv, input.contents)
    ensures old(output.calls) <= output.calls && (exitBefore == 0 ==> exitVal == 0)
    ensures old(input.script) == [] ==> !input.failed
  {
    hide Seal, Run, EncryptStep, Tag, Start, Value, Pow256, AllStored, NoneRefused, NoneEmpty, Writing, ScriptAfter, AsPlanned;
    var state := new Incremental(p, ASCON80PQ, Some(npub), Some(k));
    state.Begin(siv);
    SealUnfolds(p, k, npub, siv, input.contents);
    ghost var sent := output.sent;
    exitVal := EncryptLoop(exitBefore, state, input, output, bufsize);
    var tag := state.EncryptFinalize();
    if exitVal != 0 {
      ghost var calls, body := output.calls, output.sent;
      var r := output.Write(tag);
      OneCall(calls, output.calls[|calls|]);
      if r == 0 {
        exitVal := 0;
      }
    }
  }

  lemma SealUnfolds(p: Permutation, k: seq<byte>, npub: seq<byte>, ad: seq<byte>, m: seq<byte>)
    requires |k| == 20 && |npub| == NONCE_SIZE
    ensures var (last, out) := Run(Encrypting(p, ASCON80PQ), Start(p, ASCON80PQ, k, npub, ad), m);
            Seal(p, ASCON80PQ, k, npub, ad, m) == out + Tag(p, ASCON80PQ, k, last)
  {
  }

  /** Encrypts the front of the buffer in place and writes it. */
  method EncryptAndWrite(state: Incremental, data: array<byte>, len: nat, output: Output) returns (result: int)
    requires state.Valid() && state.variant == ASCON80PQ && 0 < len <= data.Length
    requires data != state.state.B && data != state.key && data != state.nonce
    requires output.Valid() && NoneEmpty(output.calls)
    modifies state, state.state.B, data, output
    ensures state.Valid() && output.Valid() && NoneEmpty(output.calls) && output.deleted == old(output.deleted)
    ensures var (last, out) := Run(Encrypting(state.state.permutation, ASCON80PQ), old(state.Progress()), old(data[..len]));
            state.Progress() == last && output.sent == old(output.sent) + out
    ensures old(output.calls) <= output.calls
    ensures NoneRefused(output.calls) <==> NoneRefused(old(output.calls)) && result != 0
  {
    hide Run, EncryptStep, Splice, AllStored, NoneRefused, NoneEmpty, Writing, ScriptAfter, AsPlanned;
    ghost var full, c := data[..], state.Progress();
    assert data[0..len] == full[..len];
    state.EncryptBlock(data, 0, 0, len);
    SpliceHere(full, 0, Run(Encrypting(state.state.permutation, ASCON80PQ), c, full[..len]).1);
    assert data[..len] == data[0..len];
    ghost var calls := output.calls;
    result := output.Write(data[..len]);
    OneCall(calls, output.calls[|calls|]);
  }

  /** The same for decryption. */
  method DecryptAndWrite(state: Incremental, data: array<byte>, len: nat, output: Output) returns (result: int)
    requires state.Valid() && state.variant == ASCON80PQ && 0 < len <= data.Length
    requires data != state.state.B && data != state.key && data != state.nonce
    requires output.Valid() && NoneEmpty(output.calls)
    modifies state, state.state.B, data, output
    ensures state.Valid() && output.Valid() && NoneEmpty(output.calls) && output.deleted == old(output.deleted)
    ensures var (last, out) := Run(Decrypting(state.state.permutation, ASCON80PQ), old(state.Progress()), old(data[..len]));
            state.Progress() == last && output.sent == old(output.sent) + out && data[len..] == old(data[len..])
    ensures old(output.calls) <= output.calls
    ensures NoneRefused(output.calls) <==> NoneRefused(old(output.calls)) && result != 0
  {
    hide Run, DecryptStep, Splice, AllStored, NoneRefused, NoneEmpty, Writing, ScriptAfter, AsPlanned;
    ghost var full, c := data[..], state.Progress();
    assert data[0..len] == full[..len];
    state.DecryptBlock(data, 0, 0, len);
    ghost var plain := Run(Decrypting(state.state.permutation, ASCON80PQ), c, full[..len]).1;
    SpliceHere(full, 0, plain);
    SpliceElsewhere(full, 0, plain, len, |full|);
    assert data[..len] == data[0..len] && data[len..] == data[len..|full|];
    ghost var calls := output.calls;
    result := output.Write(data[..len]);
    OneCall(calls, output.calls[|calls|]);
  }

  method EncryptLoop(exitBefore: int, state: Incremental, input: Input, output: Output, bufsize: nat) returns (exitVal: int)
    requires state.Valid() && state.variant == ASCON80PQ && bufsize > 16
    requires input.Valid() && input.position == 0 && !input.failed
    requires output.Valid() && NoneEmpty(output.calls) && exitBefore == if NoneRefused(output.calls) then 1 else 0
    modifies input, output, state, state.state.B
    ensures state.Valid() && output.Valid() && NoneEmpty(output.calls) && output.deleted == old(output.deleted)
    ensures exitVal == if |input.contents| <= MAX_FILE_SIZE && !input.failed && NoneRefused(output.calls) then 1 else 0
    ensures exitVal == 1 ==>
      var (last, out) := Run(Encrypting(state.state.permutation, ASCON80PQ), old(state.Progress()), input.contents);
      state.Progress() == last && output.sent == old(output.sent) + out
    ensures old(output.calls) <= output.calls && (exitBefore == 0 ==> exitVal == 0)
    ensures old(input.script) == [] ==> !input.failed
  {
    hide Run, EncryptStep, Splice, AllStored, NoneRefused, NoneEmpty, Writing, ScriptAfter, AsPlanned;
    var data := new byte[bufsize];
    var size := 0;
    ghost var step, start, sent := Encrypting(state.state.permutation, ASCON80PQ), state.Progress(), output.sent;
    exitVal := exitBefore;
    RunNothing(step, start);
    assert input.contents[..0] == [];
    while exitVal != 0
      invariant state.Valid() && input.Valid() && output.Valid() && NoneEmpty(output.calls)
      invariant output.deleted == old(output.deleted) && old(output.calls) <= output.calls
      invariant exitBefore == 0 ==> exitVal == 0
      invariant exitVal == (if NoneRefused(output.calls) then 1 else 0) && !input.failed
      invariant size == input.position <= MAX_FILE_SIZE
      invariant exitVal == 1 ==> state.Progress() == Run(step, start, input.contents[..size]).0
                                 && output.sent == sent + Run(step, start, input.contents[..size]).1
      invariant old(input.script) == [] ==> input.script == []
      decreases |input.contents| - input.position, exitVal
    {
      ghost var before := data[..];
      var len := input.Read(data, 0, bufsize);
      if len < 0 {
        return 0;
      } else if len == 0 {
        break;
      }
      ghost var chunk := input.contents[size..size + len];
      SpliceHere(before, 0, chunk);
      size := size + len;
      if size > MAX_FILE_SIZE {
        return 0;
      }
      assert data[..len] == data[0..len];
      RunConcat(step, start, input.contents[..size - len], chunk);
      assert input.contents[..size - len] + chunk == input.contents[..size];
      var r := EncryptAndWrite(state, data, len, output);
      if r == 0 {
        exitVal := 0;
      }
      if len < bufsize {
        break;
      }
    }
    if exitVal == 1 {
      assert input.contents[..size] == input.contents;
    }
  }

  // ---------------------------------------------------------------- decryption

  /** Exactly when the tool reports success; and when it does, the output is the contents exactly if every
      write stored all it was given. */
  method DecryptFile(t: Tools, password: seq<byte>, input: Input, output: Output, bufsize: nat) returns (exitVal: int)
    requires input.Valid() && input.position == 0 && !input.failed && Untouched(output) && bufsize > 16
    modifies input, output
    ensures output.Valid() && NoneEmpty(output.calls)
    ensures var contents := Contents(t, password, input.contents);
            && exitVal == (if contents.Some? && !input.failed && NoneRefused(output.calls) then 1 else 0)
            && (exitVal == 1 ==> (output.contents == contents.value <==> AllStored(output.calls)))
    ensures output.deleted <==> exitVal == 0 || old(output.deleted)
    ensures old(input.script) == [] ==> !input.failed
  {
    hide Open, Splice, AllStored, NoneRefused, NoneEmpty, Writing, ScriptAfter, AsPlanned;
    NoCalls();
    var siv, secret := ReadHeader(t, password, input);
    if secret.None? {
      output.Delete();
      return 0;
    }
    exitVal := DecryptBody(t.p, FileKey(secret.value), FileNonce(secret.value), siv, input, output, bufsize);
    if exitVal == 0 {
      output.Delete();
    }
  }

  /** The file key, if the header is right and the password opens it. */
  method ReadHeader(t: Tools, password: seq<byte>, input: Input) returns (siv: SivBlock, secret: Option<KeyNonce>)
    requires input.Valid() && input.position == 0 && !input.failed
    modifies input
    ensures input.Valid() && (secret.Some? ==> input.position == 80 && !input.failed)
    ensures var file := input.contents;
            secret.Some? <==> !input.failed && |file| >= HEADER_SIZE + SIV_SIZE && file[..12] == MAGIC + VERSION
                              && t.sivDecrypt(t.derive(password, file[12..28]), file[..28], file[28..80]).Some?
    ensures var file := input.contents;
            secret.Some? ==> siv == file[28..80]
                             && secret == t.sivDecrypt(t.derive(password, file[12..28]), file[..28], file[28..80])
    ensures old(input.script) == [] ==> !input.failed && (secret.Some? ==> input.script == [])
  {
    hide Splice;
    siv := Zeros(52);
    var header := new byte[80];
    ghost var blank := header[..];
    var got := input.Read(header, 0, 80);
    if got != 80 {
      return siv, None;
    }
    SpliceHere(blank, 0, input.contents[..80]);
    assert header[..] == header[0..80] == input.contents[..80];
    HeaderParts(header[..], input.contents);
    if header[..10] != MAGIC || header[10..12] != VERSION {
      return siv, None;
    }
    siv := header[28..80];
    secret := t.sivDecrypt(t.derive(password, header[12..28]), header[..28], siv);
  }

  lemma HeaderParts(header: seq<byte>, file: seq<byte>)
    requires |file| >= 80 && header == file[..80]
    ensures header[28..80] == file[28..80] && header[12..28] == file[12..28] && header[..28] == file[..28]
    ensures header[..10] == MAGIC && header[10..12] == VERSION <==> file[..12] == MAGIC + VERSION
  {
    assert file[..12] == header[..10] + header[10..12];
    assert (MAGIC + VERSION)[..10] == MAGIC && (MAGIC + VERSION)[10..] == VERSION;
    assert file[..12][..10] == header[..10] && file[..12][10..] == header[10..12];
  }

  method DecryptBody(p: Permutation, k: seq<byte>, npub: seq<byte>, siv: seq<byte>, input: Input, output: Output, bufsize: nat)
      returns (exitVal: int)
    requires |k| == 20 && |npub| == NONCE_SIZE && bufsize > 16
    requires input.Valid() && input.position == 80 && !input.failed && Untouched(output)
    modifies input, output
    ensures output.Valid() && NoneEmpty(output.calls) && output.deleted == old(output.deleted)
    ensures var contents := if |input.contents| < 96 || |input.contents| - 96 > MAX_FILE_SIZE then None
                            else Open(p, ASCON80PQ, k, npub, siv, input.contents[80..]);
            && exitVal == (if contents.Some? && !input.failed && NoneRefused(output.calls) then 1 else 0)
            && (exitVal == 1 ==> output.sent == contents.value)
    ensures old(input.script) == [] ==> !input.failed
  {
    hide Open, Run, DecryptStep, Tag, Start, Splice, Value, Pow256, AllStored, NoneRefused, NoneEmpty, Writing, ScriptAfter, AsPlanned;
    NoCalls();
    var data := new byte[bufsize];
    ghost var empty := data[..];
    var got := input.Read(data, 0, 16);
    if got != 16 {
      return 0;
    }
    SpliceHere(empty, 0, input.contents[80..96]);
    assert data[..16] == data[0..16];
    var state := new Incremental(p, ASCON80PQ, Some(npub), Some(k));
    state.Begin(siv);
    exitVal := DecryptLoop(state, input, output, data, bufsize);
    var result := state.DecryptFinalize(data[..16]);
    OpenUnfolds(p, k, npub, siv, input.contents[80..]);
    if result != 0 && exitVal != 0 {
      exitVal := 0;
    }
  }

  lemma OpenUnfolds(p: Permutation, k: seq<byte>, npub: seq<byte>, ad: seq<byte>, c: seq<byte>)
    requires |k| == 20 && |npub| == NONCE_SIZE && |c| >= TAG_SIZE
    ensures var (last, out) := Run(Decrypting(p, ASCON80PQ), Start(p, ASCON80PQ, k, npub, ad), c[..|c| - TAG_SIZE]);
            Open(p, ASCON80PQ, k, npub, ad, c)
            == if c[|c| - TAG_SIZE..] == Tag(p, ASCON80PQ, k, last) then Some(out) else None
  {
  }

  /** The buffer begins with the 16 bytes that were read last; everything before them has been
      decrypted once and in order. */
  ghost predicate HeldBack(step: Step, start: Cursor, body: seq<byte>, done: nat, c: Cursor, output: seq<byte>, front: seq<byte>)
    requires done + 16 <= |body|
  {
    (c, output) == Run(step, start, body[..done]) && front == body[done..done + 16]
  }

  method DecryptLoop(state: Incremental, input: Input, output: Output, data: array<byte>, bufsize: nat) returns (exitVal: int)
    requires state.Valid() && state.variant == ASCON80PQ && bufsize > 16
    requires input.Valid() && input.position == 96 && !input.failed && Untouched(output)
    requires data.Length == bufsize && data != state.state.B && data != state.key && data != state.nonce
    requires data[..16] == input.contents[80..96]
    modifies input, output, state, state.state.B, data
    ensures state.Valid() && output.Valid() && NoneEmpty(output.calls) && output.deleted == old(output.deleted)
    ensures exitVal == if |input.contents| - 96 <= MAX_FILE_SIZE && !input.failed && NoneRefused(output.calls) then 1 else 0
    ensures exitVal == 1 ==>
      HeldBack(Decrypting(state.state.permutation, ASCON80PQ), old(state.Progress()), input.contents[80..],
               |input.contents| - 96, state.Progress(), output.sent, data[..16])
    ensures old(input.script) == [] ==> !input.failed
  {
    hide Run, DecryptStep, Splice, HeldBack, AllStored, NoneRefused, NoneEmpty, Writing, ScriptAfter, AsPlanned;
    var size := 0;
    ghost var step, start, body := Decrypting(state.state.permutation, ASCON80PQ), state.Progress(), input.contents[80..];
    exitVal := 1;
    NoCalls();
    HoldFirst(step, start, body);
    assert body[..16] == input.contents[80..96];
    while exitVal != 0
      invariant state.Valid() && input.Valid() && output.Valid() && NoneEmpty(output.calls)
      invariant output.deleted == old(output.deleted)
      invariant exitVal == (if NoneRefused(output.calls) then 1 else 0) && !input.failed
      invariant 96 + size == input.position && size <= MAX_FILE_SIZE
      invariant HeldBack(step, start, body, size, state.Progress(), output.sent, data[..16])
      invariant old(input.script) == [] ==> input.script == []
      decreases |input.contents| - input.position, exitVal
    {
      ghost var front, before := data[..16], data[..];
      var len := input.Read(data, 16, bufsize - 16);
      if len < 0 {
        return 0;
      } else if len == 0 {
        assert data[..16] == front by { SpliceElsewhere(before, 16, input.contents[96 + size..96 + size + len], 0, 16); }
        break;
      }
      ghost var held, c, full := size, state.Progress(), data[..];
      size := size + len;
      if size > MAX_FILE_SIZE {
        return 0;
      }
      Window(step, start, body, held, c, output.sent, before, input.contents, len);
      assert data[..len] == full[..len];
      var r := DecryptAndWrite(state, data, len, output);
      assert data[len..len + 16] == full[len..len + 16] by { SameTail(data[..], full, len); }
      ghost var decrypted := data[..];
      Move(data, 0, len, 16);
      SpliceHere(decrypted, 0, full[len..len + 16]);
      assert data[..16] == full[len..len + 16];
      if r == 0 {
        exitVal := 0;
      }
      if len < bufsize - 16 {
        break;
      }
    }
  }

  lemma SameTail(a: seq<byte>, b: seq<byte>, len: nat)
    requires |a| == |b| && len + 16 <= |a| && a[len..] == b[len..]
    ensures a[len..len + 16] == b[len..len + 16]
  {
    assert a[len..len + 16] == a[len..][..16] && b[len..len + 16] == b[len..][..16];
  }

  lemma HoldFirst(step: Step, start: Cursor, body: seq<byte>)
    requires |body| >= 16
    ensures HeldBack(step, start, body, 0, start, [], body[..16])
  {
    assert body[..0] == [];
    RunNothing(step, start);
  }

  /** After a read the buffer shows a window of the file: the held bytes, then the new ones.  Its front
      is the next part to decrypt, and the 16 bytes behind that are held back in turn. */
  lemma Window(step: Step, start: Cursor, body: seq<byte>, done: nat, c: Cursor, output: seq<byte>,
               before: seq<byte>, file: seq<byte>, len: nat)
    requires |file| >= 96 && body == file[80..] && done + 16 + len <= |body| && 16 + len <= |before|
    requires HeldBack(step, start, body, done, c, output, before[..16])
    ensures var full := Splice(before, 16, file[96 + done..96 + done + len]);
            && full[..len] == body[done..done + len]
            && full[len..len + 16] == body[done + len..done + len + 16]
    ensures var (next, out) := Run(step, c, body[done..done + len]);
            var full := Splice(before, 16, file[96 + done..96 + done + len]);
            HeldBack(step, start, body, done + len, next, output + out, full[len..len + 16])
  {
    hide Run;
    var full := Splice(before, 16, file[96 + done..96 + done + len]);
    assert full[..16 + len] == body[done..done + 16 + len] by { Shown(body, done, before, file, len); }
    assert full[..len] == full[..16 + len][..len];
    assert full[len..len + 16] == full[..16 + len][len..];
    assert body[done..done + 16 + len][..len] == body[done..done + len];
    assert body[done..done + 16 + len][len..] == body[done + len..done + len + 16];
    RunConcat(step, start, body[..done], body[done..done + len]);
    assert body[..done] + body[done..done + len] == body[..done + len];
  }

  lemma Shown(body: seq<byte>, done: nat, before: seq<byte>, file: seq<byte>, len: nat)
    requires |file| >= 96 && body == file[80..] && done + 16 + len <= |body| && 16 + len <= |before|
    requires before[..16] == body[done..done + 16]
    ensures Splice(before, 16, file[96 + done..96 + done + len])[..16 + len] == body[done..done + 16 + len]
  {
    var full, window := Splice(before, 16, file[96 + done..96 + done + len]), body[done..done + 16 + len];
    forall i | 0 <= i < 16 + len
      ensures full[i] == window[i]
    {
      if i < 16 {
        assert full[i] == before[..16][i] == body[done..done + 16][i];
      } else {
        assert full[i] == file[96 + done + (i - 16)] == body[done + i];
      }
    }
  }

  // ---------------------------------------------------------------- a failed write

  lemma {:induction false} BrokenOnce(calls: seq<Call>)
    requires calls != [] && AsPlanned([Breaks], calls) && NoneEmpty(calls)
    ensures calls[0] == Call(calls[0].length, 0, -1)
    ensures ScriptAfter([Breaks], calls) == [] && NoneRefused(calls)
  {
    var n := |calls| - 1;
    var earlier, last := calls[..n], calls[n];
    if n > 0 {
      assert forall i | 0 <= i < n :: earlier[i] == calls[i];
      BrokenOnce(earlier);
    } else {
      assert ScriptAfter([Breaks], earlier) == [Breaks];
    }
  }

  /** What the returned values say: a count tells exactly what was stored, -1 does not. */
  lemma {:induction false} ReturnedIsStored(plan: seq<Piece>, calls: seq<Call>, i: nat)
    requires AsPlanned(plan, calls) && i < |calls|
    ensures calls[i].result == -1 || calls[i].result == calls[i].stored
  {
    hide Writing, ScriptAfter;
    if i < |calls| - 1 {
      ReturnedIsStored(plan, calls[..|calls| - 1], i);
    }
  }

  /** So a caller that compares every count with what it asked for would know, unless a call failed. */
  lemma CountsTell(plan: seq<Piece>, calls: seq<Call>)
    requires AsPlanned(plan, calls)
    ensures (forall i | 0 <= i < |calls| :: calls[i].result == calls[i].length) ==> AllStored(calls)
    ensures (forall i | 0 <= i < |calls| :: calls[i].result != -1) ==>
              (AllStored(calls) <==> forall i | 0 <= i < |calls| :: calls[i].result == calls[i].length)
  {
    hide AsPlanned;
    forall i | 0 <= i < |calls|
      ensures calls[i].result == -1 || calls[i].result == calls[i].stored
    {
      ReturnedIsStored(plan, calls, i);
    }
  }

  /** All bytes may be stored although -1 is returned, since the loop makes one more call. */
  lemma StoredThoughFailed(len: nat)
    requires len > 0
    ensures Writing([Moves(len), Breaks], len) == (-1, len, [])
  {
    assert [Moves(len), Breaks][1..] == [Breaks] && [Breaks][1..] == [];
    assert Writing([Breaks], 0) == (-1, 0, []);
  }

  /** A run in which the very first write fails: nothing of it is stored, -1 is returned, and the tool
      reports success with a file that is not the encrypted one. */
  method FailedWriteReportedAsSuccess(t: Tools, password: seq<byte>, plain: seq<byte>, salt: seq<byte>, secret: KeyNonce,
                                      bufsize: nat) returns (exitVal: int, written: seq<byte>)
    requires |salt| == 16 && bufsize > 16 && |plain| <= MAX_FILE_SIZE
    ensures exitVal == 1 && written != Image(t, password, salt, secret, plain)
  {
    hide Image, NoneRefused, Writing;
    var input := new Input(plain, []);
    var output := new Output([Breaks]);
    exitVal := EncryptFile(t, password, input, output, true, salt, secret, bufsize);
    BrokenOnce(output.calls);
    assert !AllStored(output.calls);
    written := output.contents;
  }

  /** The same for decryption of any encrypted file that is not empty. */
  method FailedWriteLosesPlaintext(t: Tools, password: seq<byte>, plain: seq<byte>, salt: seq<byte>, secret: KeyNonce,
                                   bufsize: nat) returns (exitVal: int, written: seq<byte>)
    requires Invertible(t) && |salt| == 16 && bufsize > 16 && 0 < |plain| <= MAX_FILE_SIZE
    ensures exitVal == 1 && written != plain
  {
    hide Image, NoneRefused, Writing, Contents;
    var input := new Input(Image(t, password, salt, secret, plain), []);
    var output := new Output([Breaks]);
    ContentsOfImage(t, password, salt, secret, plain);
    exitVal := DecryptFile(t, password, input, output, bufsize);
    NoCalls();
    assert output.calls != [];
    BrokenOnce(output.calls);
    assert !AllStored(output.calls);
    written := output.contents;
  }
}
