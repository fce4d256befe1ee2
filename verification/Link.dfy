/** Both ends together, with a network that loses, repeats, reorders and injects packets.  The cipher
    is ideal for the keys of the sender: a packet passes the tag check under such a key only if the
    sender wrapped it under that key, prefix and counter, with that header. */
module Link {
  import opened Bytes
  import opened LinkTypes
  import S = SenderMachine
  import Safety = SenderSafety
  import R = ReceiverMachine

  datatype World = World(sender: S.Node, sent: seq<R.Message>, receiver: R.Station)

  /** A step of the sender carries the header and the payload that the running Wrap was given. */
  datatype Event =
    | Send(e: S.Event, header: seq<byte>, payload: seq<byte>)
    | Arrive(r: R.Event)

  function Start(tasks: nat): World { World(S.Factory(tasks), [], R.Fresh()) }

  function Packet(u: S.Use, header: seq<byte>, payload: seq<byte>): R.Message {
    R.Message(u.key, u.prefix, u.counter, header, payload)
  }

  /** What the tag check may accept.  Keys that are not the sender's are unconstrained. */
  predicate Ideal(w: World, e: R.Event)
    requires e.Receive?
  {
    var i := R.FindPeer(w.receiver.gateway.peers, e.id);
    e.authentic && i < 8 ==>
      var peer := w.receiver.gateway.peers[i];
      peer.key in w.sender.keys ==> R.Message(peer.key, peer.prefix, e.counter, e.header, e.payload) in w.sent
  }

  /** A key that the sender draws is new to the receiver as well. */
  predicate Unseen(w: World, e: S.Event) {
    e.Provision? ==> forall i | 0 <= i < |w.receiver.delivered| :: w.receiver.delivered[i].key != e.key
  }

  predicate Possible(pairs: set<R.Material>, w: World, e: Event) {
    match e
    case Send(e, _, _) => S.Enabled(w.sender, e) && Unseen(w, e)
    case Arrive(r) => (r.Receive? ==> Ideal(w, r)) && (r.Register? ==> (r.key, r.prefix) in pairs) && R.Sound(r)
  }

  /** The same, with reservations that land in order. */
  predicate Enabled(pairs: set<R.Material>, w: World, e: Event) {
    Possible(pairs, w, e) && (e.Send? ==> Safety.InOrder(w.sender, e.e))
  }

  function Do(hash: R.Digest, w: World, e: Event): World
    requires e.Send? ==> S.Enabled(w.sender, e.e)
  {
    match e
    case Send(e, header, payload) =>
      var sender := S.Do(w.sender, e);
      w.(sender := sender,
         sent := if |sender.uses| > |w.sender.uses|
                 then w.sent + [Packet(sender.uses[|w.sender.uses|], header, payload)] else w.sent)
    case Arrive(r) => w.(receiver := R.Do(hash, w.receiver, r))
  }

  predicate Allowed(hash: R.Digest, pairs: set<R.Material>, w: World, events: seq<Event>)
    decreases |events|
  {
    events != [] ==> Enabled(pairs, w, events[0]) && Allowed(hash, pairs, Do(hash, w, events[0]), events[1..])
  }

  predicate AllPossible(hash: R.Digest, pairs: set<R.Material>, w: World, events: seq<Event>)
    decreases |events|
  {
    events != [] ==> Possible(pairs, w, events[0]) && AllPossible(hash, pairs, Do(hash, w, events[0]), events[1..])
  }

  function After(hash: R.Digest, pairs: set<R.Material>, w: World, events: seq<Event>): World
    requires Allowed(hash, pairs, w, events)
    decreases |events|
  {
    if events == [] then w else After(hash, pairs, Do(hash, w, events[0]), events[1..])
  }

  // ---------------------------------------------------------------- the invariant

  /** What was sent is the list of uses, each with its own header and payload. */
  predicate Matches(sent: seq<R.Message>, uses: seq<S.Use>) {
    && |sent| == |uses|
    && forall i | 0 <= i < |sent| ::
         sent[i].key == uses[i].key && sent[i].prefix == uses[i].prefix && sent[i].counter == uses[i].counter
  }

  /** Nothing was delivered under a key of the sender that the sender did not send. */
  predicate Genuine(w: World) {
    forall i | 0 <= i < |w.receiver.delivered| && w.receiver.delivered[i].key in w.sender.keys ::
      w.receiver.delivered[i] in w.sent
  }

  predicate Safe(hash: R.Digest, pairs: set<R.Material>, w: World) {
    && Safety.Safe(w.sender)
    && Matches(w.sent, w.sender.uses)
    && R.Safe(hash, pairs, w.receiver)
    && Genuine(w)
  }

  lemma UsesStep(n: S.Node, e: S.Event)
    requires S.Enabled(n, e)
    ensures var m := S.Do(n, e);
            && n.uses <= m.uses && |m.uses| <= |n.uses| + 1
            && n.keys <= m.keys && m.keys <= n.keys + if e.Provision? then {e.key} else {}
  {
  }

  lemma SafeSend(hash: R.Digest, pairs: set<R.Material>, w: World, e: Event)
    requires Safe(hash, pairs, w) && e.Send? && Enabled(pairs, w, e)
    ensures Safe(hash, pairs, Do(hash, w, e))
  {
    hide Safety.Safe, R.Safe, S.Do, S.Enabled, Safety.InOrder;
    Safety.SafeStep(w.sender, e.e);
    UsesStep(w.sender, e.e);
  }

  lemma SafeArrive(hash: R.Digest, pairs: set<R.Material>, w: World, e: Event)
    requires R.NoClash(hash, pairs) && Safe(hash, pairs, w) && e.Arrive? && Enabled(pairs, w, e)
    ensures Safe(hash, pairs, Do(hash, w, e))
  {
    hide Safety.Safe, R.Safe, R.NoClash, R.Registered, R.CounterName;
    R.SafeStep(hash, pairs, w.receiver, e.r);
  }

  lemma {:induction false} SafeRun(hash: R.Digest, pairs: set<R.Material>, w: World, events: seq<Event>)
    requires R.NoClash(hash, pairs) && Safe(hash, pairs, w) && Allowed(hash, pairs, w, events)
    ensures Safe(hash, pairs, After(hash, pairs, w, events))
    decreases |events|
  {
    hide Safe, R.NoClash, Do, Safety.InOrder, Ideal, Unseen;
    if events != [] {
      if events[0].Send? {
        SafeSend(hash, pairs, w, events[0]);
      } else {
        SafeArrive(hash, pairs, w, events[0]);
      }
      SafeRun(hash, pairs, Do(hash, w, events[0]), events[1..]);
    }
  }

  // ---------------------------------------------------------------- the theorem

  /** The messages of one key and prefix, in order. */
  function Of(ms: seq<R.Message>, key: Key, prefix: Prefix): (r: seq<R.Message>)
    ensures forall m :: m in r <==> m in ms && m.key == key && m.prefix == prefix
  {
    if ms == [] then []
    else
      var rest := Of(ms[1..], key, prefix);
      if ms[0].key == key && ms[0].prefix == prefix then [ms[0]] + rest else rest
  }

  predicate Ascending(ms: seq<R.Message>) {
    forall i, j | 0 <= i < j < |ms| :: ms[i].counter < ms[j].counter
  }

  /** The first list is the second one with some elements left out. */
  predicate IsSubsequence(a: seq<R.Message>, b: seq<R.Message>) {
    if a == [] then true
    else if b == [] then false
    else if a[0] == b[0] then IsSubsequence(a[1..], b[1..])
    else IsSubsequence(a, b[1..])
  }

  lemma {:induction false} OfAscends(ms: seq<R.Message>, key: Key, prefix: Prefix)
    requires R.Increasing(ms)
    ensures Ascending(Of(ms, key, prefix))
  {
    if ms != [] {
      OfAscends(ms[1..], key, prefix);
      var rest := Of(ms[1..], key, prefix);
      if ms[0].key == key && ms[0].prefix == prefix {
        forall j | 0 <= j < |rest|
          ensures ms[0].counter < rest[j].counter
        {
          assert rest[j] in rest;
          var k :| 0 <= k < |ms[1..]| && ms[1..][k] == rest[j];
          assert ms[k + 1] == rest[j];
        }
      }
    }
  }

  lemma {:induction false} SubsequenceOf(a: seq<R.Message>, b: seq<R.Message>)
    requires Ascending(a) && Ascending(b)
    requires forall m | m in a :: m in b
    ensures IsSubsequence(a, b)
    decreases |b|
  {
    if a != [] {
      assert a[0] in b;
      var rest := if a[0] == b[0] then a[1..] else a;
      forall m | m in rest
        ensures m in b[1..]
      {
        var i :| 0 <= i < |rest| && rest[i] == m;
        assert m in a && m in b;
        var j :| 0 <= j < |b| && b[j] == m;
        if a[0] == b[0] {
          assert m == a[i + 1] && a[0].counter < m.counter;
        } else {
          var k :| 0 <= k < |b| && b[k] == a[0];
          assert b[0].counter < a[0].counter <= m.counter;
        }
        assert b[1..][j - 1] == m;
      }
      SubsequenceOf(rest, b[1..]);
    }
  }

  /** End to end, over every run of both ends and the network: for each key of the sender, the messages
      that the receiver delivers are, in the same order, without repetition and each with its own
      header and payload, some of those that the sender wrapped. */
  lemma DeliveredIsSubsequenceOfSent(hash: R.Digest, pairs: set<R.Material>, tasks: nat, events: seq<Event>,
                                     key: Key, prefix: Prefix)
    requires R.NoClash(hash, pairs) && Allowed(hash, pairs, Start(tasks), events)
    requires key in After(hash, pairs, Start(tasks), events).sender.keys
    ensures var w := After(hash, pairs, Start(tasks), events);
            && IsSubsequence(Of(w.receiver.delivered, key, prefix), Of(w.sent, key, prefix))
            && Ascending(Of(w.receiver.delivered, key, prefix)) && Ascending(Of(w.sent, key, prefix))
  {
    StartIsSafe(hash, pairs, tasks);
    SafeRun(hash, pairs, Start(tasks), events);
    var w := After(hash, pairs, Start(tasks), events);
    SafeOrders(hash, pairs, w, key, prefix);
  }

  /** With one sending task every possible run is in order. */
  lemma {:induction false} OneTaskInOrder(hash: R.Digest, pairs: set<R.Material>, w: World, events: seq<Event>)
    requires S.Orderly(w.sender) && Safety.OneTask(w.sender) && AllPossible(hash, pairs, w, events)
    ensures Allowed(hash, pairs, w, events)
    decreases |events|
  {
    hide S.Orderly, Safety.OneTask, Safety.InOrder, Ideal, Unseen, S.Do, R.Do;
    if events != [] {
      if events[0].Send? {
        S.OrderlyStep(w.sender, events[0].e);
        Safety.OneTaskStep(w.sender, events[0].e);
      }
      OneTaskInOrder(hash, pairs, Do(hash, w, events[0]), events[1..]);
    }
  }

  /** End to end for one sending task, without any assumption on the order of storage writes. */
  lemma OneTaskDeliversInOrder(hash: R.Digest, pairs: set<R.Material>, events: seq<Event>, key: Key, prefix: Prefix)
    requires R.NoClash(hash, pairs) && AllPossible(hash, pairs, Start(1), events)
    ensures Allowed(hash, pairs, Start(1), events)
    ensures var w := After(hash, pairs, Start(1), events);
            key in w.sender.keys ==>
              && IsSubsequence(Of(w.receiver.delivered, key, prefix), Of(w.sent, key, prefix))
              && Ascending(Of(w.receiver.delivered, key, prefix)) && Ascending(Of(w.sent, key, prefix))
  {
    OneTaskInOrder(hash, pairs, Start(1), events);
    if key in After(hash, pairs, Start(1), events).sender.keys {
      DeliveredIsSubsequenceOfSent(hash, pairs, 1, events, key, prefix);
    }
  }

  lemma StartIsSafe(hash: R.Digest, pairs: set<R.Material>, tasks: nat)
    ensures Safe(hash, pairs, Start(tasks))
  {
    assert Safety.SafeHistory(S.Factory(tasks));
  }

  lemma SafeOrders(hash: R.Digest, pairs: set<R.Material>, w: World, key: Key, prefix: Prefix)
    requires Safe(hash, pairs, w) && key in w.sender.keys
    ensures IsSubsequence(Of(w.receiver.delivered, key, prefix), Of(w.sent, key, prefix))
    ensures Ascending(Of(w.receiver.delivered, key, prefix)) && Ascending(Of(w.sent, key, prefix))
  {
    hide Of, IsSubsequence, Ascending;
    SentIncrease(w.sent, w.sender.uses);
    R.ByPrintByKey(hash, w.receiver.delivered);
    OfAscends(w.sent, key, prefix);
    OfAscends(w.receiver.delivered, key, prefix);
    SubsequenceOf(Of(w.receiver.delivered, key, prefix), Of(w.sent, key, prefix));
  }

  lemma SentIncrease(sent: seq<R.Message>, uses: seq<S.Use>)
    requires Matches(sent, uses) && Safety.Increasing(uses)
    ensures R.Increasing(sent)
  {
  }
}
