/** The key is written last and marks a complete provisioning: when that works, and exactly when a
    provisioning run that overlooks a key leaves material of different origin. */
module SenderProvision {
  import opened Bytes
  import opened Options
  import opened LinkTypes
  import opened SenderMachine

  /** The key and the prefix in storage were drawn together. */
  predicate StoredTogether(n: Node) {
    n.nvs.key.Some? && n.nvs.prefix.Some? ==> (n.nvs.key.value, n.nvs.prefix.value) in n.drawn
  }

  /** So were those in use. */
  predicate UsedTogether(n: Node) {
    n.ram.ready ==> (n.ram.key, n.ram.prefix) in n.drawn
  }

  // ---------------------------------------------------------------- what the events tell

  /** Draws new material although it may find a key. */
  predicate Draws(n: Node, e: Event) {
    e.Provision? && e.accessible && e.rng && !(e.isKey && n.nvs.key.Some?)
  }

  predicate StoresPrefix(e: Event)
    requires e.Provision?
  {
    TakesEffect(e.putPrefix)
  }

  predicate StoresKey(e: Event)
    requires e.Provision?
  {
    e.putPrefix.Works? && e.putReserved.Works? && TakesEffect(e.putKey)
  }

  /** Whether material of different origin is in storage and in use, as told by what the writes did: it
      gets into storage exactly when a key is overlooked and the new prefix is stored but not the new
      key; it stays until key or prefix is replaced or gone; and a load puts it to use. */
  datatype Mixed = Mixed(stored: bool, used: bool)

  function MixedStorage(n: Node, mixed: bool, e: Event): bool
    requires Enabled(n, e)
  {
    if Draws(n, e) then
      if StoresKey(e) then false
      else if StoresPrefix(e) then n.nvs.key.Some?
      else mixed
    else mixed && Do(n, e).nvs.key.Some? && Do(n, e).nvs.prefix.Some?
  }

  function NextMixed(n: Node, mixed: Mixed, e: Event): Mixed
    requires Enabled(n, e)
  {
    var stored := MixedStorage(n, mixed.stored, e);
    Mixed(stored, Do(n, e).ram.ready && if LoadsState(n, e) then stored else mixed.used)
  }

  function MixedAfter(n: Node, mixed: Mixed, events: seq<Event>): Mixed
    requires Allowed(n, events)
    decreases |events|
  {
    if events == [] then mixed
    else MixedAfter(Do(n, events[0]), NextMixed(n, mixed, events[0]), events[1..])
  }

  // ---------------------------------------------------------------- the condition is exact

  /** Every drawn pair is of known origin, and so are the keys in storage and in use. */
  predicate Origins(n: Node) {
    && (forall pair | pair in n.drawn :: pair.0 in n.keys && pair.1 in n.prefixes)
    && (n.nvs.key.Some? ==> n.nvs.key.value in n.keys)
    && (n.ram.ready ==> n.ram.key in n.keys)
  }

  predicate Told(n: Node, mixed: Mixed) {
    && Origins(n)
    && (StoredTogether(n) <==> !mixed.stored)
    && (UsedTogether(n) <==> !mixed.used)
  }

  lemma ToldDraw(n: Node, mixed: Mixed, e: Event)
    requires Told(n, mixed) && Enabled(n, e) && Draws(n, e)
    ensures var m := Do(n, e); Origins(m) && (StoredTogether(m) <==> !MixedStorage(n, mixed.stored, e))
  {
    hide Load, Quiet, UsedTogether;
    var m := Do(n, e);
    if StoresPrefix(e) && !StoresKey(e) && n.nvs.key.Some? {
      assert m.nvs.key == n.nvs.key && m.nvs.prefix == Some(e.prefix);
      assert (n.nvs.key.value, e.prefix) !in m.drawn;
    }
  }

  lemma ToldStorage(n: Node, mixed: Mixed, e: Event)
    requires Told(n, mixed) && Enabled(n, e)
    ensures var m := Do(n, e); Origins(m) && (StoredTogether(m) <==> !MixedStorage(n, mixed.stored, e))
  {
    hide Load, Quiet, UsedTogether;
    if Draws(n, e) {
      ToldDraw(n, mixed, e);
    }
  }

  lemma ToldUse(n: Node, mixed: Mixed, e: Event)
    requires Told(n, mixed) && Enabled(n, e)
    ensures UsedTogether(Do(n, e)) <==> !NextMixed(n, mixed, e).used
  {
    hide Load, Quiet;
    ToldStorage(n, mixed, e);
    if LoadsState(n, e) {
      LoadedIsStored(n, e);
    } else if Draws(n, e) {
      DrawnIsNew(n, e);
    }
  }

  /** What a load puts to use is what storage holds. */
  lemma LoadedIsStored(n: Node, e: Event)
    requires Enabled(n, e) && LoadsState(n, e)
    ensures var m := Do(n, e);
            m.ram.ready ==> m.nvs.key == Some(m.ram.key) && m.nvs.prefix == Some(m.ram.prefix)
  {
    hide Quiet;
  }

  /** Drawing adds one pair, of which neither half is in use. */
  lemma DrawnIsNew(n: Node, e: Event)
    requires Enabled(n, e) && Draws(n, e) && !LoadsState(n, e)
    ensures var m := Do(n, e);
            m.drawn == n.drawn + {(e.key, e.prefix)} && (!m.ram.ready || m.ram == n.ram)
  {
    hide Load, Quiet;
  }

  lemma {:induction false} ToldRun(n: Node, mixed: Mixed, events: seq<Event>)
    requires Told(n, mixed) && Allowed(n, events)
    ensures Told(After(n, events), MixedAfter(n, mixed, events))
    decreases |events|
  {
    hide Origins, StoredTogether, UsedTogether, MixedStorage;
    if events != [] {
      ToldStorage(n, mixed, events[0]);
      ToldUse(n, mixed, events[0]);
      ToldRun(Do(n, events[0]), NextMixed(n, mixed, events[0]), events[1..]);
    }
  }

  /** Over every run: key and prefix in storage, and those in use, were drawn together exactly when the
      outcomes of the writes do not tell otherwise. */
  lemma TogetherIff(tasks: nat, events: seq<Event>)
    requires Allowed(Factory(tasks), events)
    ensures var n, mixed := After(Factory(tasks), events), MixedAfter(Factory(tasks), Mixed(false, false), events);
            && (StoredTogether(n) <==> !mixed.stored)
            && (UsedTogether(n) <==> !mixed.used)
  {
    ToldRun(Factory(tasks), Mixed(false, false), events);
  }

  // ---------------------------------------------------------------- what the source relies on

  /** Provisioning sees the key that is there. */
  predicate AllSeeKey(n: Node, events: seq<Event>)
    requires Allowed(n, events)
    decreases |events|
  {
    events != [] ==>
      && (events[0].Provision? && n.nvs.key.Some? ==> events[0].isKey)
      && AllSeeKey(Do(n, events[0]), events[1..])
  }

  lemma {:induction false} SeenNeverMixes(n: Node, events: seq<Event>)
    requires Allowed(n, events) && AllSeeKey(n, events)
    ensures MixedAfter(n, Mixed(false, false), events) == Mixed(false, false)
    decreases |events|
  {
    hide Load, Quiet;
    if events != [] {
      SeenNeverMixes(Do(n, events[0]), events[1..]);
    }
  }

  /** In every run in which provisioning sees the key that is there, a power loss or a failed write at
      any point never leaves key and prefix of different origin in storage or in use. */
  lemma KeyMarksCompletion(tasks: nat, events: seq<Event>)
    requires Allowed(Factory(tasks), events) && AllSeeKey(Factory(tasks), events)
    ensures var n := After(Factory(tasks), events); StoredTogether(n) && UsedTogether(n)
  {
    SeenNeverMixes(Factory(tasks), events);
    TogetherIff(tasks, events);
  }

  /** A run in which it happens: the board is provisioned, a second provisioning overlooks the key and
      loses power after it has stored the prefix, and the node then runs on material that was not drawn
      together. */
  lemma MixedMaterialHappens(tasks: nat, key1: Key, prefix1: Prefix, key2: Key, prefix2: Prefix) returns (events: seq<Event>)
    requires key1 != key2 && prefix1 != prefix2
    ensures Allowed(Factory(tasks), events)
    ensures var n := After(Factory(tasks), events);
            n.ram.ready && n.ram.key == key1 && n.ram.prefix == prefix2 && !UsedTogether(n) && !StoredTogether(n)
  {
    var first := Provision(true, true, true, key1, prefix1, Works, Works, Works, EVERY_ACCESS);
    var second := Provision(true, false, true, key2, prefix2, Works, Crashes(false), Works, EVERY_ACCESS);
    events := [first, second, Begin(EVERY_ACCESS)];
    RunThree(Factory(tasks), first, second, Begin(EVERY_ACCESS));
  }
}
