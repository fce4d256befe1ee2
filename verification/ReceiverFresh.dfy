/** The other half of replay protection: what is new is delivered.  Nothing but packets that have
    arrived raises a counter, whatever fails and whatever gets lost. */
module ReceiverFresh {
  import opened Bytes
  import opened Options
  import opened LinkTypes
  import opened ReceiverMachine

  /** A packet has passed the tag check under a key with this fingerprint. */
  datatype Arrival = Arrival(fingerprint: Fingerprint, counter: nat)

  /** The entry of an id that can receive. */
  predicate Receives(s: Station, id: byte) {
    s.gateway.ready && FindPeer(s.gateway.peers, id) < 8
  }

  function Arrives(s: Station, e: Event): set<Arrival> {
    if e.Receive? && e.authentic && Receives(s, e.id)
    then {Arrival(s.gateway.peers[FindPeer(s.gateway.peers, e.id)].fingerprint, e.counter)}
    else {}
  }

  /** All that have arrived in a run. */
  function Arrivals(hash: Digest, s: Station, events: seq<Event>): set<Arrival>
    decreases |events|
  {
    if events == [] then {} else Arrives(s, events[0]) + Arrivals(hash, Do(hash, s, events[0]), events[1..])
  }

  predicate Reached(arrived: set<Arrival>, name: string, counter: nat) {
    exists a :: a in arrived && CounterName(a.fingerprint) == name && counter <= a.counter
  }

  /** No entry and no stored counter is above everything that has arrived under its name. */
  predicate Bounded(s: Station, arrived: set<Arrival>) {
    && (forall name | name in s.gateway.stored :: Reached(arrived, name, s.gateway.stored[name]))
    && (forall i | 0 <= i < 8 && s.gateway.peers[i].used && s.gateway.peers[i].hasAccepted ::
          Reached(arrived, CounterName(s.gateway.peers[i].fingerprint), s.gateway.peers[i].lastAccepted))
  }

  lemma ReachedMore(arrived: set<Arrival>, more: set<Arrival>, name: string, counter: nat)
    requires Reached(arrived, name, counter)
    ensures Reached(arrived + more, name, counter)
  {
    var a :| a in arrived && CounterName(a.fingerprint) == name && counter <= a.counter;
    assert a in arrived + more;
  }

  lemma BoundedMore(s: Station, arrived: set<Arrival>, more: set<Arrival>)
    requires Bounded(s, arrived)
    ensures Bounded(s, arrived + more)
  {
    hide CounterName, Reached;
    forall name | name in s.gateway.stored
      ensures Reached(arrived + more, name, s.gateway.stored[name])
    {
      ReachedMore(arrived, more, name, s.gateway.stored[name]);
    }
    forall i | 0 <= i < 8 && s.gateway.peers[i].used && s.gateway.peers[i].hasAccepted
      ensures Reached(arrived + more, CounterName(s.gateway.peers[i].fingerprint), s.gateway.peers[i].lastAccepted)
    {
      ReachedMore(arrived, more, CounterName(s.gateway.peers[i].fingerprint), s.gateway.peers[i].lastAccepted);
    }
  }

  lemma BoundedReceive(hash: Digest, s: Station, arrived: set<Arrival>, e: Event)
    requires Bounded(s, arrived) && Arrives(s, e) != {}
    ensures Bounded(Do(hash, s, e), arrived + Arrives(s, e))
  {
    hide CounterName, Reached;
    var now := arrived + Arrives(s, e);
    BoundedMore(s, arrived, Arrives(s, e));
    var peer := s.gateway.peers[FindPeer(s.gateway.peers, e.id)];
    assert Reached(now, CounterName(peer.fingerprint), e.counter) by {
      JustArrived(now, peer.fingerprint, e.counter);
    }
    var m := Do(hash, s, e);
    forall i | 0 <= i < 8 && m.gateway.peers[i].used && m.gateway.peers[i].hasAccepted
      ensures Reached(now, CounterName(m.gateway.peers[i].fingerprint), m.gateway.peers[i].lastAccepted)
    {
      assert m.gateway.peers[i] == s.gateway.peers[i]
          || (m.gateway.peers[i].fingerprint == peer.fingerprint && m.gateway.peers[i].lastAccepted == e.counter);
    }
  }

  lemma JustArrived(arrived: set<Arrival>, fingerprint: Fingerprint, counter: nat)
    requires Arrival(fingerprint, counter) in arrived
    ensures Reached(arrived, CounterName(fingerprint), counter)
  {
  }

  lemma BoundedStep(hash: Digest, s: Station, arrived: set<Arrival>, e: Event)
    requires Bounded(s, arrived)
    ensures Bounded(Do(hash, s, e), arrived + Arrives(s, e))
  {
    hide CounterName, Reached;
    if Arrives(s, e) != {} {
      BoundedReceive(hash, s, arrived, e);
    } else {
      assert arrived + {} == arrived;
      if e.Register? {
        BoundedRegister(hash, s, arrived, e);
      }
    }
  }

  lemma BoundedRegister(hash: Digest, s: Station, arrived: set<Arrival>, e: Event)
    requires Bounded(s, arrived) && e.Register?
    ensures Bounded(Do(hash, s, e), arrived)
  {
    hide CounterName, Reached;
    var m, peer := Do(hash, s, e), Registered(hash, e.id, e.key, e.prefix, s.gateway.stored, e.look);
    if peer.hasAccepted && peer.lastAccepted == 0 {
      ReachedBelow(arrived, CounterName(peer.fingerprint), s.gateway.stored[CounterName(peer.fingerprint)]);
    }
    forall i | 0 <= i < 8 && m.gateway.peers[i].used && m.gateway.peers[i].hasAccepted
      ensures Reached(arrived, CounterName(m.gateway.peers[i].fingerprint), m.gateway.peers[i].lastAccepted)
    {
      assert m.gateway.peers[i] == s.gateway.peers[i] || m.gateway.peers[i] == peer;
    }
  }

  lemma ReachedBelow(arrived: set<Arrival>, name: string, counter: nat)
    requires Reached(arrived, name, counter)
    ensures Reached(arrived, name, 0)
  {
  }

  lemma {:induction false} BoundedRun(hash: Digest, s: Station, arrived: set<Arrival>, events: seq<Event>)
    requires Bounded(s, arrived)
    ensures Bounded(After(hash, s, events), arrived + Arrivals(hash, s, events))
    decreases |events|
  {
    hide Bounded, Do, Arrives;
    if events != [] {
      BoundedStep(hash, s, arrived, events[0]);
      BoundedRun(hash, Do(hash, s, events[0]), arrived + Arrives(s, events[0]), events[1..]);
      assert arrived + Arrives(s, events[0]) + Arrivals(hash, Do(hash, s, events[0]), events[1..])
          == arrived + Arrivals(hash, s, events);
    } else {
      assert arrived + {} == arrived;
    }
  }

  // ---------------------------------------------------------------- the theorems

  /** The counter is above every one that has arrived under this stored counter. */
  predicate AboveName(arrived: set<Arrival>, name: string, counter: nat) {
    forall a | a in arrived && CounterName(a.fingerprint) == name :: a.counter < counter
  }

  function EntryOf(s: Station, id: byte): Peer
    requires Receives(s, id)
  {
    s.gateway.peers[FindPeer(s.gateway.peers, id)]
  }

  /** Over every run, with any restarts, registrations, failed writes, lost and misread counters: an
      authentic packet for a registered id, with a counter above every one that has arrived under the
      same stored counter, is delivered if its write works. */
  lemma NewIsDelivered(hash: Digest, events: seq<Event>, e: Event)
    requires e.Receive? && e.authentic && e.accessible && e.outcome == Works
    requires var s := After(hash, Fresh(), events);
             Receives(s, e.id)
             && AboveName(Arrivals(hash, Fresh(), events), CounterName(EntryOf(s, e.id).fingerprint), e.counter)
    ensures var s := After(hash, Fresh(), events);
            var peer := EntryOf(s, e.id);
            Do(hash, s, e).delivered == s.delivered + [Message(peer.key, peer.prefix, e.counter, e.header, e.payload)]
  {
    hide CounterName;
    var s, arrived := After(hash, Fresh(), events), Arrivals(hash, Fresh(), events);
    assert Bounded(Fresh(), {});
    BoundedRun(hash, Fresh(), {}, events);
    assert {} + arrived == arrived;
    var peer := EntryOf(s, e.id);
    if peer.hasAccepted {
      assert Reached(arrived, CounterName(peer.fingerprint), peer.lastAccepted);
    }
  }

  /** Only packets under registered keys arrive. */
  lemma {:induction false} ArrivalsKnown(hash: Digest, pairs: set<Material>, s: Station, events: seq<Event>)
    requires Consistent(hash, pairs, s) && RegistersOnly(events, pairs)
    ensures forall a | a in Arrivals(hash, s, events) ::
              exists pair :: pair in pairs && hash(pair.0 + pair.1) == a.fingerprint
    decreases |events|
  {
    hide Consistent, Do, CounterName;
    if events != [] {
      ConsistentStep(hash, pairs, s, events[0]);
      ArrivalsKnown(hash, pairs, Do(hash, s, events[0]), events[1..]);
      if Arrives(s, events[0]) != {} {
        EntryKnown(hash, pairs, s, events[0].id);
      }
    }
  }

  lemma EntryKnown(hash: Digest, pairs: set<Material>, s: Station, id: byte)
    requires Consistent(hash, pairs, s) && Receives(s, id)
    ensures (EntryOf(s, id).key, EntryOf(s, id).prefix) in pairs
    ensures EntryOf(s, id).fingerprint == hash(EntryOf(s, id).key + EntryOf(s, id).prefix)
  {
    assert PeerKnown(hash, pairs, EntryOf(s, id));
  }

  /** Where no two keys clash, only what has arrived under the fingerprint of the key counts: keys with
      other fingerprints never stop a packet. */
  lemma NewUnderItsKeyIsDelivered(hash: Digest, pairs: set<Material>, events: seq<Event>, e: Event)
    requires NoClash(hash, pairs) && RegistersOnly(events, pairs)
    requires e.Receive? && e.authentic && e.accessible && e.outcome == Works
    requires var s := After(hash, Fresh(), events);
             Receives(s, e.id)
             && forall a | a in Arrivals(hash, Fresh(), events) && a.fingerprint == EntryOf(s, e.id).fingerprint ::
                  a.counter < e.counter
    ensures var s := After(hash, Fresh(), events);
            var peer := EntryOf(s, e.id);
            Do(hash, s, e).delivered == s.delivered + [Message(peer.key, peer.prefix, e.counter, e.header, e.payload)]
  {
    hide CounterName, Do, Consistent;
    var s, arrived := After(hash, Fresh(), events), Arrivals(hash, Fresh(), events);
    FreshIsConsistent(hash, pairs);
    ConsistentRun(hash, pairs, Fresh(), events);
    ArrivalsKnown(hash, pairs, Fresh(), events);
    EntryKnown(hash, pairs, s, e.id);
    var peer := EntryOf(s, e.id);
    forall a | a in arrived && CounterName(a.fingerprint) == CounterName(peer.fingerprint)
      ensures a.counter < e.counter
    {
      var pair :| pair in pairs && hash(pair.0 + pair.1) == a.fingerprint;
      assert Name(hash, pair) == Name(hash, (peer.key, peer.prefix));
    }
    NewIsDelivered(hash, events, e);
  }

  /** In particular two packets that arrive in order are both delivered. */
  lemma BothAreDelivered(g: Gateway, i: nat, c: nat, d: nat)
    requires i < 8 && g.peers[i].used && Accept(g, i, c, true, Works).1 == OK && c < d
    ensures Accept(Accept(g, i, c, true, Works).0, i, d, true, Works).1 == OK
    ensures Accept(Accept(g, i, c, true, Works).0, i, c, true, Works).1 == ERR_REPLAY
  {
  }

  /** Registration goes through exactly when the id has an entry or there is a free one; the id then
      receives under the new key, and no other id is touched. */
  lemma RegisterIff(hash: Digest, s: Station, e: Event)
    requires e.Register? && IdsDistinct(s.gateway.peers)
    ensures AddPeer(hash, s.gateway, e.id, e.key, e.prefix, e.look).1 == OK <==>
              s.gateway.ready && e.look.accessible
              && exists j | 0 <= j < 8 :: !s.gateway.peers[j].used || s.gateway.peers[j].id == e.id
    ensures AddPeer(hash, s.gateway, e.id, e.key, e.prefix, e.look).1 == OK ==>
              var m := Do(hash, s, e);
              Receives(m, e.id) && EntryOf(m, e.id).key == e.key && EntryOf(m, e.id).prefix == e.prefix
    ensures forall id | id != e.id && Receives(s, id) ::
              Receives(Do(hash, s, e), id) && EntryOf(Do(hash, s, e), id) == EntryOf(s, id)
  {
    hide CounterName, FindPeer, FindFree;
    var m, found := Do(hash, s, e), FindPeer(s.gateway.peers, e.id);
    var i := if found < 8 then found else FindFree(s.gateway.peers);
    if AddPeer(hash, s.gateway, e.id, e.key, e.prefix, e.look).1 == OK {
      OnlyEntry(m.gateway.peers, i);
    }
    forall id | id != e.id && Receives(s, id)
      ensures Receives(m, id) && EntryOf(m, id) == EntryOf(s, id)
    {
      var j := FindPeer(s.gateway.peers, id);
      assert m.gateway.peers[j] == s.gateway.peers[j];
      OnlyEntry(m.gateway.peers, j);
    }
  }

  lemma OnlyEntry(peers: seq<Peer>, i: nat)
    requires i < |peers| && peers[i].used && IdsDistinct(peers)
    ensures FindPeer(peers, peers[i].id) == i
  {
    hide FindPeer;
    var found := FindPeer(peers, peers[i].id);
    assert found <= i;
  }
}
