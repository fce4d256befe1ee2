/** The receiver of the link as a step machine: restarts, repeated Begin, re-registration, replaced
    keys, one key under several ids, and storage writes that fail before or after taking effect. */
module ReceiverMachine {
  import opened Bytes
  import opened Options
  import opened LinkTypes

  const MAX_PEERS: nat := 8

  /** The hash that fingerprints are cut from. */
  type Digest = (seq<byte>) -> Fingerprint

  type Fingerprint = f: seq<byte> | |f| == 8 witness Zeros(8)

  datatype Peer = Peer(used: bool, id: byte, key: Key, prefix: Prefix, fingerprint: Fingerprint,
                       hasAccepted: bool, lastAccepted: nat)

  const NO_PEER := Peer(false, 0, Zeros(16), Zeros(12), Zeros(8), false, 0)

  type Peers = p: seq<Peer> | |p| == 8 witness seq(8, _ => NO_PEER)

  function NoPeers(): Peers { seq(8, _ => NO_PEER) }

  /** The stored counters survive a restart; the peers do not. */
  datatype Gateway = Gateway(ready: bool, peers: Peers, stored: map<string, nat>)

  // ---------------------------------------------------------------- names of stored counters

  const DIGITS := "0123456789abcdef"

  function HighDigit(b: byte): (i: nat)
    ensures i < 16
  {
    (b >> 4) as nat
  }

  function LowDigit(b: byte): (i: nat)
    ensures i < 16
  {
    (b & 0x0f) as nat
  }

  function Hex(bytes: seq<byte>): (name: string)
    ensures |name| == 2 * |bytes|
  {
    if bytes == [] then ""
    else Hex(bytes[..|bytes| - 1]) + HexOf(bytes[|bytes| - 1])
  }

  function HexOf(b: byte): (name: string)
    ensures |name| == 2
  {
    [DIGITS[HighDigit(b)], DIGITS[LowDigit(b)]]
  }

  /** Seven of the eight bytes, in hexadecimal behind a `c`. */
  function CounterName(fingerprint: Fingerprint): (name: string)
    ensures |name| == 15
  {
    "c" + Hex(fingerprint[..7])
  }

  lemma HexOfInjective(a: byte, b: byte)
    requires HexOf(a) == HexOf(b)
    ensures a == b
  {
    assert HexOf(a)[0] == HexOf(b)[0] && HexOf(a)[1] == HexOf(b)[1];
    DigitsDiffer(HighDigit(a), HighDigit(b));
    DigitsDiffer(LowDigit(a), LowDigit(b));
    NibblesDetermine(a, b);
  }

  lemma DigitsDiffer(i: nat, j: nat)
    requires i < 16 && j < 16 && DIGITS[i] == DIGITS[j]
    ensures i == j
  {
  }

  lemma NibblesDetermine(a: byte, b: byte)
    requires HighDigit(a) == HighDigit(b) && LowDigit(a) == LowDigit(b)
    ensures a == b
  {
    assert a >> 4 == b >> 4;
    assert a & 0x0f == b & 0x0f;
  }

  lemma {:induction false} HexInjective(a: seq<byte>, b: seq<byte>)
    requires Hex(a) == Hex(b)
    ensures a == b
    decreases |a|
  {
    hide HexOf;
    assert |a| == |b|;
    if a != [] {
      var n := |a| - 1;
      assert Hex(a)[..2 * n] == Hex(a[..n]) && Hex(b)[..2 * n] == Hex(b[..n]);
      assert Hex(a)[2 * n..] == HexOf(a[n]) && Hex(b)[2 * n..] == HexOf(b[n]);
      HexInjective(a[..n], b[..n]);
      HexOfInjective(a[n], b[n]);
      assert a == a[..n] + [a[n]] && b == b[..n] + [b[n]];
    }
  }

  /** Two fingerprints share a stored counter exactly when they agree in their first seven bytes. */
  lemma SameNameIff(a: Fingerprint, b: Fingerprint)
    ensures CounterName(a) == CounterName(b) <==> a[..7] == b[..7]
  {
    if CounterName(a) == CounterName(b) {
      assert CounterName(a)[1..] == Hex(a[..7]) && CounterName(b)[1..] == Hex(b[..7]);
      HexInjective(a[..7], b[..7]);
    }
  }

  // ---------------------------------------------------------------- the operations

  function FindPeer(peers: seq<Peer>, id: byte): (i: nat)
    ensures i <= |peers|
    ensures i < |peers| ==> peers[i].used && peers[i].id == id
    ensures forall j | 0 <= j < i :: !(peers[j].used && peers[j].id == id)
  {
    if peers == [] then 0
    else if peers[0].used && peers[0].id == id then 0
    else
      var rest := peers[1..];
      assert forall j | 1 <= j < |peers| :: peers[j] == rest[j - 1];
      1 + FindPeer(rest, id)
  }

  function FindFree(peers: seq<Peer>): (i: nat)
    ensures i <= |peers|
    ensures i < |peers| ==> !peers[i].used
    ensures forall j | 0 <= j < i :: peers[j].used
  {
    if peers == [] then 0
    else if !peers[0].used then 0
    else
      var rest := peers[1..];
      assert forall j | 1 <= j < |peers| :: peers[j] == rest[j - 1];
      1 + FindFree(rest)
  }

  function ReceiverBegin(g: Gateway, accessible: bool): (Gateway, Status) {
    (Gateway(accessible, NoPeers(), g.stored), if accessible then OK else ERR_NVS)
  }

  /** Which accesses to the stored counter go through when a peer is registered: opening the storage,
      asking whether the counter is there, and reading it.  Only the first is checked. */
  datatype Lookup = Lookup(accessible: bool, isKey: bool, value: bool)

  const FOUND := Lookup(true, true, true)

  function Registered(hash: Digest, id: byte, key: Key, prefix: Prefix, stored: map<string, nat>, look: Lookup): Peer {
    var fingerprint := hash(key + prefix);
    var name := CounterName(fingerprint);
    var hasAccepted := look.isKey && name in stored;
    Peer(true, id, key, prefix, fingerprint, hasAccepted, if hasAccepted && look.value then stored[name] else 0)
  }

  /** The entry of an id that is there already is replaced. */
  function AddPeer(hash: Digest, g: Gateway, id: byte, key: Key, prefix: Prefix, look: Lookup): (Gateway, Status) {
    var found := FindPeer(g.peers, id);
    var i := if found < 8 then found else FindFree(g.peers);
    if !g.ready then (g, ERR_NOT_READY)
    else if i == 8 then (g, ERR_FULL)
    else if !look.accessible then (g, ERR_NVS)
    else (g.(peers := g.peers[i := Registered(hash, id, key, prefix, g.stored, look)]), OK)
  }

  /** Every entry with this fingerprint takes the counter. */
  function Raised(peers: seq<Peer>, fingerprint: Fingerprint, counter: nat): (r: seq<Peer>)
    ensures |r| == |peers|
  {
    seq(|peers|, i requires 0 <= i < |peers| =>
      if peers[i].used && peers[i].fingerprint == fingerprint
      then peers[i].(hasAccepted := true, lastAccepted := counter) else peers[i])
  }

  /** What a packet that has passed the tag check does: replay test, storage, table. */
  function Accept(g: Gateway, i: nat, counter: nat, accessible: bool, outcome: Outcome): (Gateway, Status)
    requires i < 8
  {
    var peer := g.peers[i];
    if peer.hasAccepted && counter <= peer.lastAccepted then (g, ERR_REPLAY)
    else if !accessible then (g, ERR_NVS)
    else
      var stored := if TakesEffect(outcome) then g.stored[CounterName(peer.fingerprint) := counter] else g.stored;
      if outcome.Works? then (Gateway(g.ready, Raised(g.peers, peer.fingerprint, counter), stored), OK)
      else (g.(stored := stored), ERR_NVS)
  }

  // ---------------------------------------------------------------- events

  datatype Message = Message(key: Key, prefix: Prefix, counter: nat, header: seq<byte>, payload: seq<byte>)

  /** The receiver with what it has delivered. */
  datatype Station = Station(gateway: Gateway, delivered: seq<Message>)

  /** `authentic` says whether the packet passes the tag check under the key of the peer. */
  datatype Event =
    | Restart
    | Begin(accessible: bool)
    | Register(id: byte, key: Key, prefix: Prefix, look: Lookup)
    | Lose(names: set<string>)
    | Receive(id: byte, counter: nat, header: seq<byte>, payload: seq<byte>, authentic: bool,
              accessible: bool, outcome: Outcome)

  function Fresh(): Station { Station(Gateway(false, NoPeers(), map[]), []) }

  function Do(hash: Digest, s: Station, e: Event): Station {
    match e
    case Restart => s.(gateway := Gateway(false, NoPeers(), s.gateway.stored))
    case Begin(accessible) => s.(gateway := ReceiverBegin(s.gateway, accessible).0)
    case Register(id, key, prefix, look) =>
      s.(gateway := AddPeer(hash, s.gateway, id, key, prefix, look).0)
    case Lose(names) => s.(gateway := s.gateway.(stored := s.gateway.stored - names))
    case Receive(id, counter, header, payload, authentic, accessible, outcome) =>
      var i := FindPeer(s.gateway.peers, id);
      if !s.gateway.ready || i == 8 || !authentic then s
      else
        var peer := s.gateway.peers[i];
        var (gateway, status) := Accept(s.gateway, i, counter, accessible, outcome);
        if outcome.Crashes? then s.(gateway := Gateway(false, NoPeers(), gateway.stored))
        else s.(gateway := gateway,
                delivered := if status != OK then s.delivered
                             else s.delivered + [Message(peer.key, peer.prefix, counter, header, payload)])
  }

  function After(hash: Digest, s: Station, events: seq<Event>): Station
    decreases |events|
  {
    if events == [] then s else After(hash, Do(hash, s, events[0]), events[1..])
  }

  // ---------------------------------------------------------------- the invariant

  type Material = (Key, Prefix)

  function Print(hash: Digest, m: Message): Fingerprint { hash(m.key + m.prefix) }

  function Name(hash: Digest, pair: Material): string { CounterName(hash(pair.0 + pair.1)) }

  /** No two keys have different fingerprints and yet the same stored counter. */
  predicate NoClash(hash: Digest, pairs: set<Material>) {
    forall a, b | a in pairs && b in pairs && Name(hash, a) == Name(hash, b) :: hash(a.0 + a.1) == hash(b.0 + b.1)
  }

  predicate RegistersOnly(events: seq<Event>, pairs: set<Material>) {
    forall i | 0 <= i < |events| && events[i].Register? :: (events[i].key, events[i].prefix) in pairs
  }

  /** No stored counter is lost, and those that are looked up are read as they are. */
  predicate Sound(e: Event) {
    !e.Lose? && (e.Register? ==> e.look.isKey && e.look.value)
  }

  predicate AllSound(events: seq<Event>) {
    forall i | 0 <= i < |events| :: Sound(events[i])
  }

  /** Under one key and prefix the delivered counters only go up. */
  predicate Increasing(delivered: seq<Message>) {
    forall i, j | 0 <= i < j < |delivered| && delivered[i].key == delivered[j].key && delivered[i].prefix == delivered[j].prefix ::
      delivered[i].counter < delivered[j].counter
  }

  /** Keys with one fingerprint even share the order. */
  predicate IncreasingByPrint(hash: Digest, delivered: seq<Message>) {
    forall i, j | 0 <= i < j < |delivered| && Print(hash, delivered[i]) == Print(hash, delivered[j]) ::
      delivered[i].counter < delivered[j].counter
  }

  predicate IdsDistinct(peers: seq<Peer>) {
    forall i, j | 0 <= i < j < |peers| && peers[i].used && peers[j].used :: peers[i].id != peers[j].id
  }

  predicate PeerKnown(hash: Digest, pairs: set<Material>, p: Peer) {
    p.used ==> (p.key, p.prefix) in pairs && p.fingerprint == hash(p.key + p.prefix)
  }

  /** The entry rejects everything that was delivered under its fingerprint. */
  predicate PeerAbove(hash: Digest, delivered: seq<Message>, p: Peer) {
    p.used ==> forall d | 0 <= d < |delivered| && Print(hash, delivered[d]) == p.fingerprint ::
      p.hasAccepted && delivered[d].counter <= p.lastAccepted
  }

  /** So does the stored counter. */
  predicate StoredAbove(hash: Digest, s: Station, m: Message) {
    var name := CounterName(Print(hash, m));
    name in s.gateway.stored && m.counter <= s.gateway.stored[name]
  }

  /** Everything delivered is below the stored counter of its key, and rejected by every entry. */
  predicate Guarded(hash: Digest, s: Station) {
    && (forall d | 0 <= d < |s.delivered| :: StoredAbove(hash, s, s.delivered[d]))
    && (forall i | 0 <= i < 8 :: PeerAbove(hash, s.delivered, s.gateway.peers[i]))
  }

  /** What holds whatever happens to the storage. */
  predicate Consistent(hash: Digest, pairs: set<Material>, s: Station) {
    && IdsDistinct(s.gateway.peers)
    && (forall i | 0 <= i < 8 :: PeerKnown(hash, pairs, s.gateway.peers[i]))
    && (forall i | 0 <= i < 8 && s.gateway.peers[i].used :: s.gateway.ready)
    && (forall d | 0 <= d < |s.delivered| :: (s.delivered[d].key, s.delivered[d].prefix) in pairs)
  }

  predicate Safe(hash: Digest, pairs: set<Material>, s: Station) {
    Consistent(hash, pairs, s) && Guarded(hash, s) && IncreasingByPrint(hash, s.delivered)
  }

  /** Every event keeps the table in order, sound or not. */
  lemma ConsistentStep(hash: Digest, pairs: set<Material>, s: Station, e: Event)
    requires Consistent(hash, pairs, s)
    requires e.Register? ==> (e.key, e.prefix) in pairs
    ensures Consistent(hash, pairs, Do(hash, s, e))
  {
    hide CounterName, FindPeer;
    if e.Register? {
      ConsistentRegister(hash, pairs, s, e);
    } else if e.Receive? && FindPeer(s.gateway.peers, e.id) < 8 {
      ConsistentReceive(hash, pairs, s, e);
    }
  }

  lemma ConsistentRegister(hash: Digest, pairs: set<Material>, s: Station, e: Event)
    requires Consistent(hash, pairs, s) && e.Register? && (e.key, e.prefix) in pairs
    ensures Consistent(hash, pairs, Do(hash, s, e))
  {
    hide CounterName;
    var m, peer := Do(hash, s, e), Registered(hash, e.id, e.key, e.prefix, s.gateway.stored, e.look);
    forall i | 0 <= i < 8
      ensures PeerKnown(hash, pairs, m.gateway.peers[i])
    {
      assert m.gateway.peers[i] == s.gateway.peers[i] || m.gateway.peers[i] == peer;
    }
  }

  lemma ConsistentReceive(hash: Digest, pairs: set<Material>, s: Station, e: Event)
    requires Consistent(hash, pairs, s) && e.Receive? && FindPeer(s.gateway.peers, e.id) < 8
    ensures Consistent(hash, pairs, Do(hash, s, e))
  {
    hide CounterName;
    var m := Do(hash, s, e);
    assert PeerKnown(hash, pairs, s.gateway.peers[FindPeer(s.gateway.peers, e.id)]);
    forall i | 0 <= i < 8
      ensures PeerKnown(hash, pairs, m.gateway.peers[i])
    {
      assert PeerKnown(hash, pairs, s.gateway.peers[i]);
    }
  }

  lemma {:induction false} ConsistentRun(hash: Digest, pairs: set<Material>, s: Station, events: seq<Event>)
    requires Consistent(hash, pairs, s) && RegistersOnly(events, pairs)
    ensures Consistent(hash, pairs, After(hash, s, events))
    decreases |events|
  {
    hide Consistent, Do;
    if events != [] {
      ConsistentStep(hash, pairs, s, events[0]);
      ConsistentRun(hash, pairs, Do(hash, s, events[0]), events[1..]);
    }
  }

  lemma SafeRegister(hash: Digest, pairs: set<Material>, s: Station, e: Event)
    requires Safe(hash, pairs, s) && e.Register? && (e.key, e.prefix) in pairs && Sound(e)
    ensures Safe(hash, pairs, Do(hash, s, e))
  {
    hide CounterName;
    ConsistentStep(hash, pairs, s, e);
    var m := Do(hash, s, e);
    var peer := Registered(hash, e.id, e.key, e.prefix, s.gateway.stored, e.look);
    assert PeerAbove(hash, m.delivered, peer) by {
      forall d | 0 <= d < |s.delivered| && Print(hash, s.delivered[d]) == peer.fingerprint
        ensures peer.hasAccepted && s.delivered[d].counter <= peer.lastAccepted
      {
        assert StoredAbove(hash, s, s.delivered[d]);
      }
    }
    forall i | 0 <= i < 8
      ensures PeerAbove(hash, m.delivered, m.gateway.peers[i])
    {
      assert m.gateway.peers[i] == s.gateway.peers[i] || m.gateway.peers[i] == peer;
    }
    forall d | 0 <= d < |m.delivered|
      ensures StoredAbove(hash, m, m.delivered[d])
    {
      assert StoredAbove(hash, s, s.delivered[d]);
    }
  }

  lemma SafeReceive(hash: Digest, pairs: set<Material>, s: Station, e: Event)
    requires NoClash(hash, pairs) && Safe(hash, pairs, s) && e.Receive?
    ensures Safe(hash, pairs, Do(hash, s, e))
  {
    hide CounterName;
    var m, i := Do(hash, s, e), FindPeer(s.gateway.peers, e.id);
    ConsistentStep(hash, pairs, s, e);
    if s.gateway.ready && i < 8 && e.authentic {
      StoredAfterReceive(hash, pairs, s, e);
      PeersAfterReceive(hash, pairs, s, e);
      assert PeerKnown(hash, pairs, s.gateway.peers[i]) && PeerAbove(hash, s.delivered, s.gateway.peers[i]);
    }
  }

  /** A write for one key leaves the counter of every other key alone, and raises its own. */
  lemma StoredAfterReceive(hash: Digest, pairs: set<Material>, s: Station, e: Event)
    requires NoClash(hash, pairs) && Safe(hash, pairs, s) && e.Receive?
    requires s.gateway.ready && FindPeer(s.gateway.peers, e.id) < 8 && e.authentic
    ensures var m := Do(hash, s, e);
            forall d | 0 <= d < |m.delivered| :: StoredAbove(hash, m, m.delivered[d])
  {
    hide CounterName;
    var m, peer := Do(hash, s, e), s.gateway.peers[FindPeer(s.gateway.peers, e.id)];
    assert PeerKnown(hash, pairs, peer) && PeerAbove(hash, s.delivered, peer);
    forall d | 0 <= d < |m.delivered|
      ensures StoredAbove(hash, m, m.delivered[d])
    {
      if d < |s.delivered| {
        var before := s.delivered[d];
        assert StoredAbove(hash, s, before);
        assert Name(hash, (before.key, before.prefix)) == Name(hash, (peer.key, peer.prefix)) ==>
            Print(hash, before) == peer.fingerprint;
      }
    }
  }

  lemma PeersAfterReceive(hash: Digest, pairs: set<Material>, s: Station, e: Event)
    requires Safe(hash, pairs, s) && e.Receive?
    requires s.gateway.ready && FindPeer(s.gateway.peers, e.id) < 8 && e.authentic
    ensures var m := Do(hash, s, e);
            forall j | 0 <= j < 8 :: PeerAbove(hash, m.delivered, m.gateway.peers[j])
  {
    hide CounterName;
    var m, peer := Do(hash, s, e), s.gateway.peers[FindPeer(s.gateway.peers, e.id)];
    assert PeerKnown(hash, pairs, peer) && PeerAbove(hash, s.delivered, peer);
    forall j | 0 <= j < 8
      ensures PeerAbove(hash, m.delivered, m.gateway.peers[j])
    {
      assert PeerKnown(hash, pairs, s.gateway.peers[j]) && PeerAbove(hash, s.delivered, s.gateway.peers[j]);
    }
  }

  lemma SafeStep(hash: Digest, pairs: set<Material>, s: Station, e: Event)
    requires NoClash(hash, pairs) && Safe(hash, pairs, s)
    requires (e.Register? ==> (e.key, e.prefix) in pairs) && Sound(e)
    ensures Safe(hash, pairs, Do(hash, s, e))
  {
    match e
    case Register(_, _, _, _) => SafeRegister(hash, pairs, s, e);
    case Receive(_, _, _, _, _, _, _) => SafeReceive(hash, pairs, s, e);
    case Lose(_) =>
    case _ =>
      forall d | 0 <= d < |s.delivered|
        ensures StoredAbove(hash, Do(hash, s, e), s.delivered[d])
      {
        assert StoredAbove(hash, s, s.delivered[d]);
      }
  }

  lemma {:induction false} SafeRun(hash: Digest, pairs: set<Material>, s: Station, events: seq<Event>)
    requires NoClash(hash, pairs) && Safe(hash, pairs, s) && RegistersOnly(events, pairs) && AllSound(events)
    ensures Safe(hash, pairs, After(hash, s, events))
    decreases |events|
  {
    hide NoClash, Safe, Do;
    if events != [] {
      SafeStep(hash, pairs, s, events[0]);
      SafeRun(hash, pairs, Do(hash, s, events[0]), events[1..]);
    }
  }

  // ---------------------------------------------------------------- the theorems

  /** Over every run in which stored counters are neither lost nor misread, whatever packets arrive: the
      delivered counters of a key strictly increase, the stored counter is never below one that was
      delivered, and used ids stay distinct. */
  lemma DeliveredIncrease(hash: Digest, pairs: set<Material>, events: seq<Event>)
    requires NoClash(hash, pairs) && RegistersOnly(events, pairs) && AllSound(events)
    ensures var s := After(hash, Fresh(), events);
            Increasing(s.delivered) && Guarded(hash, s) && IdsDistinct(s.gateway.peers)
  {
    SafeRun(hash, pairs, Fresh(), events);
    ByPrintByKey(hash, After(hash, Fresh(), events).delivered);
  }

  lemma ByPrintByKey(hash: Digest, delivered: seq<Message>)
    requires IncreasingByPrint(hash, delivered)
    ensures Increasing(delivered)
  {
    forall i, j | 0 <= i < j < |delivered| && delivered[i].key == delivered[j].key && delivered[i].prefix == delivered[j].prefix
      ensures delivered[i].counter < delivered[j].counter
    {
      assert Print(hash, delivered[i]) == Print(hash, delivered[j]);
    }
  }

  // ---------------------------------------------------------------- lost and misread counters

  /** Exactly when the protection holds from here on.  Take any run at all, with lost and misread
      counters.  In every continuation without further losses the order of delivery is kept, for each
      fingerprint, if and only if it has been kept so far, the stored counter of everything delivered is
      there and not below it, and so is what every registered entry was told. */
  lemma ProtectedFromHereIff(hash: Digest, pairs: set<Material>, before: seq<Event>)
    requires NoClash(hash, pairs) && RegistersOnly(before, pairs)
    ensures var s := After(hash, Fresh(), before);
            (forall later | RegistersOnly(later, pairs) && AllSound(later) ::
               IncreasingByPrint(hash, After(hash, s, later).delivered))
            <==> IncreasingByPrint(hash, s.delivered) && Guarded(hash, s)
  {
    hide NoClash, Consistent, Guarded, IncreasingByPrint, Do;
    var s := After(hash, Fresh(), before);
    assert Consistent(hash, pairs, Fresh()) by { FreshIsConsistent(hash, pairs); }
    ConsistentRun(hash, pairs, Fresh(), before);
    if IncreasingByPrint(hash, s.delivered) && Guarded(hash, s) {
      forall later | RegistersOnly(later, pairs) && AllSound(later)
        ensures IncreasingByPrint(hash, After(hash, s, later).delivered)
      {
        SafeRun(hash, pairs, s, later);
      }
    } else if IncreasingByPrint(hash, s.delivered) {
      var later := Unguarded(hash, pairs, s);
      assert RegistersOnly(later, pairs) && AllSound(later);
    } else {
      assert RegistersOnly([], pairs) && AllSound([]) && After(hash, s, []) == s;
    }
  }

  lemma FreshIsConsistent(hash: Digest, pairs: set<Material>)
    ensures Consistent(hash, pairs, Fresh())
  {
  }

  /** Where something delivered is not guarded, it can be delivered again. */
  lemma Unguarded(hash: Digest, pairs: set<Material>, s: Station) returns (later: seq<Event>)
    requires Consistent(hash, pairs, s) && !Guarded(hash, s)
    ensures RegistersOnly(later, pairs) && AllSound(later)
    ensures !IncreasingByPrint(hash, After(hash, s, later).delivered)
  {
    hide CounterName, Do;
    if d :| 0 <= d < |s.delivered| && !StoredAbove(hash, s, s.delivered[d]) {
      var m := s.delivered[d];
      later := [Restart, Begin(true), Register(1, m.key, m.prefix, FOUND), Again(1, m)];
      var t := Do(hash, s, Restart);
      Restarted(hash, s);
      RegisteredAgain(hash, t, m, FOUND);
      RunFour(hash, s, later[0], later[1], later[2], later[3]);
      TwiceIsNotIncreasing(hash, s.delivered, d, m);
    } else {
      var i :| 0 <= i < 8 && !PeerAbove(hash, s.delivered, s.gateway.peers[i]);
      later := UnguardedEntry(hash, pairs, s, i);
    }
  }

  lemma UnguardedEntry(hash: Digest, pairs: set<Material>, s: Station, i: nat) returns (later: seq<Event>)
    requires Consistent(hash, pairs, s) && i < 8 && !PeerAbove(hash, s.delivered, s.gateway.peers[i])
    ensures RegistersOnly(later, pairs) && AllSound(later)
    ensures !IncreasingByPrint(hash, After(hash, s, later).delivered)
  {
    hide CounterName, Do;
    var p := s.gateway.peers[i];
    var d :| 0 <= d < |s.delivered| && Print(hash, s.delivered[d]) == p.fingerprint
             && !(p.hasAccepted && s.delivered[d].counter <= p.lastAccepted);
    assert PeerKnown(hash, pairs, p);
    var m := s.delivered[d].(key := p.key, prefix := p.prefix);
    later := [Again(p.id, m)];
    EntryAccepts(hash, s, i, m);
    RunOne(hash, s, later[0]);
    TwiceIsNotIncreasing(hash, s.delivered, d, m);
  }

  /** The packet of a message arrives once more. */
  function Again(id: byte, m: Message): Event {
    Receive(id, m.counter, m.header, m.payload, true, true, Works)
  }

  lemma TwiceIsNotIncreasing(hash: Digest, delivered: seq<Message>, d: nat, m: Message)
    requires d < |delivered| && Print(hash, delivered[d]) == Print(hash, m) && delivered[d].counter == m.counter
    ensures !IncreasingByPrint(hash, delivered + [m])
  {
    var more := delivered + [m];
    assert more[d] == delivered[d] && more[|delivered|] == m;
  }

  lemma Restarted(hash: Digest, s: Station)
    ensures Do(hash, s, Restart).gateway.stored == s.gateway.stored && Do(hash, s, Restart).delivered == s.delivered
  {
  }

  lemma EntryAccepts(hash: Digest, s: Station, i: nat, m: Message)
    requires i < 8 && s.gateway.ready && IdsDistinct(s.gateway.peers)
    requires var p := s.gateway.peers[i];
             p.used && p.key == m.key && p.prefix == m.prefix && !(p.hasAccepted && m.counter <= p.lastAccepted)
    ensures Do(hash, s, Again(s.gateway.peers[i].id, m)).delivered == s.delivered + [m]
  {
    hide CounterName;
    var found := FindPeer(s.gateway.peers, s.gateway.peers[i].id);
    assert found == i;
  }

  /** A key registered after a restart accepts whatever is above the counter it was told. */
  lemma RegisteredAgain(hash: Digest, s: Station, m: Message, look: Lookup)
    requires look.accessible
    requires var p := Registered(hash, 1, m.key, m.prefix, s.gateway.stored, look);
             !(p.hasAccepted && m.counter <= p.lastAccepted)
    ensures var begun := Do(hash, Do(hash, s, Begin(true)), Register(1, m.key, m.prefix, look));
            Do(hash, begun, Again(1, m)).delivered == s.delivered + [m]
  {
    hide CounterName;
    var begun := Do(hash, Do(hash, s, Begin(true)), Register(1, m.key, m.prefix, look));
    assert begun.gateway.peers[0] == Registered(hash, 1, m.key, m.prefix, s.gateway.stored, look);
    EntryAccepts(hash, begun, 0, m);
  }

  /** Unlike the sender, the receiver does not notice that a stored counter is lost: whatever was
      delivered under the key is delivered again after a restart. */
  lemma LostCounterReplays(hash: Digest, s: Station, m: Message)
    requires m in s.delivered
    ensures var events := [Lose({CounterName(Print(hash, m))}), Restart, Begin(true), Register(1, m.key, m.prefix, FOUND), Again(1, m)];
            After(hash, s, events).delivered == s.delivered + [m]
  {
    hide CounterName, Do;
    var lost := Do(hash, s, Lose({CounterName(Print(hash, m))}));
    assert lost.delivered == s.delivered && CounterName(Print(hash, m)) !in lost.gateway.stored by { LostIsGone(hash, s, m); }
    var events := [Lose({CounterName(Print(hash, m))}), Restart, Begin(true), Register(1, m.key, m.prefix, FOUND), Again(1, m)];
    assert events[1..] == [Restart, Begin(true), Register(1, m.key, m.prefix, FOUND), Again(1, m)];
    RunFour(hash, lost, Restart, Begin(true), Register(1, m.key, m.prefix, FOUND), Again(1, m));
    Restarted(hash, lost);
    RegisteredAgain(hash, Do(hash, lost, Restart), m, FOUND);
  }

  lemma LostIsGone(hash: Digest, s: Station, m: Message)
    ensures var lost := Do(hash, s, Lose({CounterName(Print(hash, m))}));
            lost.delivered == s.delivered && CounterName(Print(hash, m)) !in lost.gateway.stored
  {
  }

  /** Nor does it notice that asking for the counter has failed: the peer is registered with the
      protection off. */
  lemma MisreadCounterReplays(hash: Digest, s: Station, m: Message)
    requires m in s.delivered
    ensures var events := [Restart, Begin(true), Register(1, m.key, m.prefix, Lookup(true, false, true)), Again(1, m)];
            After(hash, s, events).delivered == s.delivered + [m]
  {
    hide CounterName, Do;
    var look := Lookup(true, false, true);
    RunFour(hash, s, Restart, Begin(true), Register(1, m.key, m.prefix, look), Again(1, m));
    Restarted(hash, s);
    RegisteredAgain(hash, Do(hash, s, Restart), m, look);
  }

  // ---------------------------------------------------------------- keys that share a counter

  /** Two keys whose fingerprints differ only in the eighth byte overwrite each other's stored counter;
      after a restart an old packet is delivered again. */
  lemma ClashReplays(hash: Digest, a: Material, b: Material) returns (events: seq<Event>)
    requires Name(hash, a) == Name(hash, b) && hash(a.0 + a.1) != hash(b.0 + b.1)
    ensures RegistersOnly(events, {a, b}) && AllSound(events)
    ensures !Increasing(After(hash, Fresh(), events).delivered)
  {
    hide CounterName, Do, Registered;
    var message := Message(a.0, a.1, 5, [], []);
    var beginning, again, other := Begin(true), Again(1, message), Receive(2, 3, [], [], true, true, Works);
    var first, second := Register(1, a.0, a.1, FOUND), Register(2, b.0, b.1, FOUND);
    // Both keys are registered; then each delivers, the second with the lower counter.
    var s3 := Do(hash, Do(hash, Do(hash, Fresh(), beginning), first), second);
    BothRegistered(hash, a, b);
    BothDeliver(hash, a, b, s3);
    var s6 := Do(hash, Do(hash, Do(hash, s3, again), other), Restart);
    // After the restart the first key goes on from the counter of the second one.
    LowerIsAccepted(hash, s6, a);
    RegisteredAgain(hash, s6, message, FOUND);
    var s9 := Do(hash, Do(hash, Do(hash, s6, beginning), first), again);
    assert s9.delivered[0] == s9.delivered[2] == message;
    RunNine(hash, Fresh(), [beginning, first, second], [again, other, Restart], [beginning, first, again]);
    events := [beginning, first, second] + [again, other, Restart] + [beginning, first, again];
  }

  lemma LowerIsAccepted(hash: Digest, s: Station, a: Material)
    requires Name(hash, a) in s.gateway.stored && s.gateway.stored[Name(hash, a)] == 3
    ensures Registered(hash, 1, a.0, a.1, s.gateway.stored, FOUND).lastAccepted == 3
  {
    hide CounterName;
  }

  lemma BothDeliver(hash: Digest, a: Material, b: Material, s: Station)
    requires Name(hash, a) == Name(hash, b) && hash(a.0 + a.1) != hash(b.0 + b.1)
    requires s.gateway.ready && s.gateway.stored == map[] && s.delivered == []
    requires s.gateway.peers[0] == Registered(hash, 1, a.0, a.1, map[], FOUND)
    requires s.gateway.peers[1] == Registered(hash, 2, b.0, b.1, map[], FOUND)
    ensures var m := Do(hash, Do(hash, Do(hash, s, Again(1, Message(a.0, a.1, 5, [], []))),
                                 Receive(2, 3, [], [], true, true, Works)), Restart);
            && Name(hash, a) in m.gateway.stored && m.gateway.stored[Name(hash, a)] == 3
            && m.delivered == [Message(a.0, a.1, 5, [], []), Message(b.0, b.1, 3, [], [])]
  {
    hide CounterName;
    var m := Do(hash, s, Again(1, Message(a.0, a.1, 5, [], [])));
    assert FindPeer(s.gateway.peers, 1) == 0;
    assert m.gateway.peers[0].id == 1 && m.gateway.peers[1] == s.gateway.peers[1];
    assert FindPeer(m.gateway.peers, 2) == 1;
  }

  lemma BothRegistered(hash: Digest, a: Material, b: Material)
    ensures var s := Do(hash, Do(hash, Do(hash, Fresh(), Begin(true)), Register(1, a.0, a.1, FOUND)),
                        Register(2, b.0, b.1, FOUND));
            && s.gateway.ready && s.gateway.stored == map[] && s.delivered == []
            && s.gateway.peers[0] == Registered(hash, 1, a.0, a.1, map[], FOUND)
            && s.gateway.peers[1] == Registered(hash, 2, b.0, b.1, map[], FOUND)
  {
    hide CounterName;
    var one := Do(hash, Do(hash, Fresh(), Begin(true)), Register(1, a.0, a.1, FOUND));
    assert one.gateway.peers[0] == Registered(hash, 1, a.0, a.1, map[], FOUND) && one.gateway.peers[1] == NO_PEER;
  }

  lemma RunNine(hash: Digest, s: Station, a: seq<Event>, b: seq<Event>, c: seq<Event>)
    requires |a| == |b| == |c| == 3
    ensures var s1 := Do(hash, Do(hash, Do(hash, s, a[0]), a[1]), a[2]);
            var s2 := Do(hash, Do(hash, Do(hash, s1, b[0]), b[1]), b[2]);
            After(hash, s, a + b + c) == Do(hash, Do(hash, Do(hash, s2, c[0]), c[1]), c[2])
  {
    hide Do, After;
    var s1 := Do(hash, Do(hash, Do(hash, s, a[0]), a[1]), a[2]);
    var s2 := Do(hash, Do(hash, Do(hash, s1, b[0]), b[1]), b[2]);
    assert a == [a[0], a[1], a[2]] && b == [b[0], b[1], b[2]] && c == [c[0], c[1], c[2]];
    RunThree(hash, s, a[0], a[1], a[2]);
    RunThree(hash, s1, b[0], b[1], b[2]);
    RunThree(hash, s2, c[0], c[1], c[2]);
    AfterInTwo(hash, s, a, b);
    AfterInTwo(hash, s, a + b, c);
  }

  lemma RunOne(hash: Digest, s: Station, a: Event)
    ensures After(hash, s, [a]) == Do(hash, s, a)
  {
    hide Do;
    assert [a][1..] == [];
    assert After(hash, Do(hash, s, a), []) == Do(hash, s, a);
  }

  lemma RunFour(hash: Digest, s: Station, a: Event, b: Event, c: Event, d: Event)
    ensures After(hash, s, [a, b, c, d]) == Do(hash, Do(hash, Do(hash, Do(hash, s, a), b), c), d)
  {
    hide Do;
    assert [a, b, c, d][1..] == [b, c, d];
    RunThree(hash, Do(hash, s, a), b, c, d);
  }

  lemma RunThree(hash: Digest, s: Station, a: Event, b: Event, c: Event)
    ensures After(hash, s, [a, b, c]) == Do(hash, Do(hash, Do(hash, s, a), b), c)
  {
    hide Do;
    assert [a, b, c][1..] == [b, c] && [b, c][1..] == [c] && [c][1..] == [];
    var last := Do(hash, Do(hash, s, a), b);
    assert After(hash, last, [c]) == Do(hash, last, c);
    assert After(hash, Do(hash, s, a), [b, c]) == Do(hash, last, c);
  }

  lemma {:induction false} AfterInTwo(hash: Digest, s: Station, a: seq<Event>, b: seq<Event>)
    ensures After(hash, s, a + b) == After(hash, After(hash, s, a), b)
    decreases |a|
  {
    if a == [] {
      assert a + b == b;
    } else {
      assert (a + b)[0] == a[0] && (a + b)[1..] == a[1..] + b;
      AfterInTwo(hash, Do(hash, s, a[0]), a[1..], b);
    }
  }

  /** The protection holds in every run with these keys, stored counters neither lost nor misread,
      exactly when no two of the keys clash. */
  lemma ProtectedIffNoClash(hash: Digest, pairs: set<Material>)
    ensures (forall events | RegistersOnly(events, pairs) && AllSound(events) ::
               Increasing(After(hash, Fresh(), events).delivered))
            <==> NoClash(hash, pairs)
  {
    hide Do;
    if NoClash(hash, pairs) {
      forall events | RegistersOnly(events, pairs) && AllSound(events)
        ensures Increasing(After(hash, Fresh(), events).delivered)
      {
        DeliveredIncrease(hash, pairs, events);
      }
    } else {
      var a, b :| a in pairs && b in pairs && Name(hash, a) == Name(hash, b) && hash(a.0 + a.1) != hash(b.0 + b.1);
      var events := ClashReplays(hash, a, b);
      assert RegistersOnly(events, pairs);
    }
  }
}
