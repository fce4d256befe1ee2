/** No counter is used twice under one key and prefix, over every run of the sender machine in which
    reservations reach storage in non-decreasing order; and what happens when they do not. */
module SenderSafety {
  import opened Bytes
  import opened Options
  import opened LinkTypes
  import opened SenderMachine

  /** The order assumption, for one event: a reservation that reaches storage is not below one that
      was loaded or reached storage since the load. */
  predicate InOrder(n: Node, e: Event)
    requires Enabled(n, e)
  {
    e.Put? && TakesEffect(e.outcome) ==> n.tasks[e.task].value >= Highest(n.log)
  }

  predicate OrderedRun(n: Node, events: seq<Event>)
    requires Allowed(n, events)
    decreases |events|
  {
    events != [] ==> InOrder(n, events[0]) && OrderedRun(Do(n, events[0]), events[1..])
  }

  // ---------------------------------------------------------------- the invariant

  predicate UsesBelow(uses: seq<Use>, key: Key, prefix: Prefix, bound: nat) {
    forall i | 0 <= i < |uses| && uses[i].key == key && uses[i].prefix == prefix :: uses[i].counter < bound
  }

  /** Under one key and prefix the counters only go up. */
  predicate Increasing(uses: seq<Use>) {
    forall i, j | 0 <= i < j < |uses| && uses[i].key == uses[j].key && uses[i].prefix == uses[j].prefix ::
      uses[i].counter < uses[j].counter
  }

  predicate InFlash(nvs: Nvs, key: Key, prefix: Prefix) {
    nvs.key == Some(key) && nvs.prefix == Some(prefix)
  }

  predicate Known(n: Node) {
    && (n.nvs.key.Some? ==> n.nvs.key.value in n.keys)
    && (n.nvs.prefix.Some? ==> n.nvs.prefix.value in n.prefixes)
    && (n.ram.ready ==> n.ram.key in n.keys && n.ram.prefix in n.prefixes)
    && (forall i | 0 <= i < |n.uses| :: n.uses[i].key in n.keys && n.uses[i].prefix in n.prefixes)
  }

  /** What storage would load is above everything used with it. */
  predicate FlashAbove(n: Node) {
    n.nvs.key.Some? && n.nvs.prefix.Some? && n.nvs.reserved.Some? ==>
      UsesBelow(n.uses, n.nvs.key.value, n.nvs.prefix.value, n.nvs.reserved.value)
  }

  /** Material in storage that is not the loaded one has never been used. */
  predicate FlashUnused(n: Node) {
    n.ram.ready && n.nvs.key.Some? && n.nvs.prefix.Some? && !InFlash(n.nvs, n.ram.key, n.ram.prefix) ==>
      UsesBelow(n.uses, n.nvs.key.value, n.nvs.prefix.value, 0)
  }

  /** The stored reservation, if there is one, covers all that was reserved since the load. */
  predicate FlashCovers(n: Node) {
    n.ram.ready && InFlash(n.nvs, n.ram.key, n.ram.prefix) && n.nvs.reserved.Some? ==>
      Highest(n.log) <= n.nvs.reserved.value
  }

  predicate RamAbove(n: Node) {
    n.ram.ready ==> UsesBelow(n.uses, n.ram.key, n.ram.prefix, n.ram.counter)
  }

  /** The parts of the invariant that need the order assumption. */
  predicate SafeHistory(n: Node) {
    Known(n) && FlashAbove(n) && FlashUnused(n) && FlashCovers(n) && RamAbove(n) && Increasing(n.uses)
  }

  predicate Safe(n: Node) {
    Orderly(n) && SafeHistory(n)
  }

  // ---------------------------------------------------------------- every event keeps it

  lemma NeverUsed(n: Node, key: Key, prefix: Prefix)
    requires Known(n) && (key !in n.keys || prefix !in n.prefixes)
    ensures UsesBelow(n.uses, key, prefix, 0)
  {
  }

  lemma SafeLoad(n: Node, access: Access)
    requires SafeHistory(n)
    ensures SafeHistory(LoadInto(n, access))
  {
    var m := LoadInto(n, access);
    if m.ram.ready {
      assert m.log == [] + [Loaded(m.ram.counter)];
      HighestNext([], Loaded(m.ram.counter));
    }
  }

  lemma SafeProvision(n: Node, e: Event)
    requires Safe(n) && e.Provision? && Enabled(n, e)
    ensures SafeHistory(Do(n, e))
  {
    hide Orderly, UsesBelow, Increasing, Quiet, Load;
    if !e.accessible || (e.isKey && n.nvs.key.Some?) || !e.rng {
      if e.accessible && e.isKey && n.nvs.key.Some? {
        SafeLoad(n, e.access);
      }
    } else {
      var a := n.(keys := n.keys + {e.key}, prefixes := n.prefixes + {e.prefix},
                  drawn := n.drawn + {(e.key, e.prefix)});
      assert SafeHistory(a);
      assert Known(n);
      if TakesEffect(e.putPrefix) {
        var b := a.(nvs := a.nvs.(prefix := Some(e.prefix)));
        assert SafeHistory(b) by { FreshPrefix(n, b, e.prefix); }
        assert Safe(n);
        if e.putPrefix.Works? && TakesEffect(e.putReserved) {
          var c := b.(nvs := b.nvs.(reserved := Some(COUNTER_WINDOW)));
          assert SafeHistory(c) by { FreshPrefix(n, c, e.prefix); }
          if e.putReserved.Works? && TakesEffect(e.putKey) {
            var d := c.(nvs := c.nvs.(key := Some(e.key)));
            assert SafeHistory(d) by { FreshPrefix(n, d, e.prefix); }
            if e.putKey.Works? {
              SafeLoad(d, e.access);
            }
          }
        }
      }
    }
  }

  /** With a prefix in storage that was never used, nothing in storage can be repeated. */
  lemma FreshPrefix(n: Node, m: Node, prefix: Prefix)
    requires Safe(n) && prefix !in n.prefixes
    requires m.uses == n.uses && m.ram == n.ram && m.nvs.prefix == Some(prefix)
    requires n.keys <= m.keys && n.prefixes <= m.prefixes && prefix in m.prefixes
    requires m.nvs.key.Some? ==> m.nvs.key.value in m.keys
    ensures SafeHistory(m)
  {
    hide Orderly;
    if m.nvs.key.Some? {
      NeverUsed(n, m.nvs.key.value, prefix);
    }
  }

  lemma SafePut(n: Node, e: Event)
    requires Safe(n) && e.Put? && Enabled(n, e) && InOrder(n, e)
    ensures SafeHistory(Do(n, e))
  {
    hide Highest, Hands, Covered;
    assert TaskValid(n, n.tasks[e.task]);
    HighestNext(n.log, Landed(n.tasks[e.task].value));
  }

  lemma SafePublish(n: Node, e: Event)
    requires Safe(n) && e.Publish? && Enabled(n, e)
    ensures SafeHistory(Do(n, e))
  {
    hide Highest, Hands, Covered;
    assert TaskValid(n, n.tasks[e.task]);
  }

  lemma SafeTake(n: Node, e: Event)
    requires Safe(n) && e.Take? && Enabled(n, e)
    ensures SafeHistory(Do(n, e))
  {
    hide Highest, Hands, Covered;
    assert TaskValid(n, n.tasks[e.task]);
    HighestNext(n.log, Handed(n.ram.counter));
  }

  lemma SafeStep(n: Node, e: Event)
    requires Safe(n) && Enabled(n, e) && InOrder(n, e)
    ensures Safe(Do(n, e))
  {
    hide Highest, Hands, Covered, Counting, Load;
    OrderlyStep(n, e);
    match e
    case Begin(access) => SafeLoad(n, access);
    case Provision(_, _, _, _, _, _, _, _, _) => SafeProvision(n, e);
    case Put(_, _) => SafePut(n, e);
    case Take(_) => SafeTake(n, e);
    case Publish(_) => SafePublish(n, e);
    case _ =>
  }

  lemma {:induction false} SafeRun(n: Node, events: seq<Event>)
    requires Safe(n) && Allowed(n, events) && OrderedRun(n, events)
    ensures Safe(After(n, events))
    decreases |events|
  {
    if events != [] {
      SafeStep(n, events[0]);
      SafeRun(Do(n, events[0]), events[1..]);
    }
  }

  // ---------------------------------------------------------------- the theorems

  predicate Limited(uses: seq<Use>) {
    forall i | 0 <= i < |uses| :: uses[i].counter < COUNTER_LIMIT
  }

  /** In any order, only counters below the limit are handed out. */
  lemma {:induction false} LimitedRun(n: Node, events: seq<Event>)
    requires Limited(n.uses) && Allowed(n, events)
    ensures Limited(After(n, events).uses)
    decreases |events|
  {
    hide Load, Quiet;
    if events != [] {
      LimitedStep(n, events[0]);
      LimitedRun(Do(n, events[0]), events[1..]);
    }
  }

  lemma LimitedStep(n: Node, e: Event)
    requires Limited(n.uses) && Enabled(n, e)
    ensures Limited(Do(n, e).uses)
  {
    hide Load, Quiet;
  }

  /** Over provisioning, loads, wraps, resets, lost entries, failed writes and power losses, in every
      run with ordered reservations: the counters used with one key and prefix strictly increase, so
      none is used twice, and none reaches the limit. */
  lemma CountersNeverRepeat(tasks: nat, events: seq<Event>)
    requires Allowed(Factory(tasks), events) && OrderedRun(Factory(tasks), events)
    ensures Increasing(After(Factory(tasks), events).uses)
    ensures Limited(After(Factory(tasks), events).uses)
  {
    hide Limited;
    SafeRun(Factory(tasks), events);
    LimitedRun(Factory(tasks), events) by { NothingLimited(); }
  }

  lemma NothingLimited()
    ensures Limited([])
  {
  }

  // ---------------------------------------------------------------- one sending task

  /** With one task a reservation is always the largest so far. */
  predicate OneTask(n: Node) {
    && |n.tasks| == 1
    && (n.tasks[0].Reserving? ==> n.tasks[0].value == n.ram.counter + COUNTER_WINDOW)
    && (n.ram.ready ==> Highest(n.log) <= n.ram.counter + COUNTER_WINDOW)
  }

  lemma OneTaskStep(n: Node, e: Event)
    requires Orderly(n) && OneTask(n) && Enabled(n, e)
    ensures OneTask(Do(n, e)) && InOrder(n, e)
  {
    hide Highest, Hands, Covered, Counting, Load;
    match e
    case Begin(access) => OneLoad(n, access);
    case Provision(_, _, _, _, _, _, _, _, _) => OneProvision(n, e);
    case Put(_, _) => OnePutOrTake(n, e);
    case Take(_) => OnePutOrTake(n, e);
    case Reserve(_, _) => OneReserve(n, e);
    case _ =>
  }

  lemma OneReserve(n: Node, e: Event)
    requires Orderly(n) && OneTask(n) && e.Reserve? && Enabled(n, e)
    ensures OneTask(Do(n, e))
  {
    hide Highest, Hands, Covered;
    assert TaskValid(n, n.tasks[0]);
  }

  lemma OnePutOrTake(n: Node, e: Event)
    requires Orderly(n) && OneTask(n) && (e.Put? || e.Take?) && Enabled(n, e)
    ensures OneTask(Do(n, e)) && InOrder(n, e)
  {
    hide Highest, Hands, Covered;
    assert TaskValid(n, n.tasks[0]);
    if e.Put? {
      HighestNext(n.log, Landed(n.tasks[0].value));
    } else {
      HighestNext(n.log, Handed(n.ram.counter));
    }
  }

  lemma OneLoad(n: Node, access: Access)
    requires |n.tasks| == 1 && Quiet(n)
    ensures OneTask(LoadInto(n, access))
  {
    var m := LoadInto(n, access);
    if m.ram.ready {
      assert m.log == [] + [Loaded(m.ram.counter)];
      HighestNext([], Loaded(m.ram.counter));
    }
  }

  lemma OneProvision(n: Node, e: Event)
    requires OneTask(n) && e.Provision? && Enabled(n, e)
    ensures OneTask(Do(n, e))
  {
    hide Highest;
    if e.accessible {
      if e.isKey && n.nvs.key.Some? {
        OneLoad(n, e.access);
      } else if e.rng && e.putPrefix.Works? && e.putReserved.Works? && e.putKey.Works? {
        var written := n.(keys := n.keys + {e.key}, prefixes := n.prefixes + {e.prefix},
                          drawn := n.drawn + {(e.key, e.prefix)},
                          nvs := Nvs(Some(e.key), Some(e.prefix), Some(COUNTER_WINDOW)));
        OneLoad(written, e.access);
      }
    }
  }

  lemma {:induction false} OneTaskRun(n: Node, events: seq<Event>)
    requires Orderly(n) && OneTask(n) && Allowed(n, events)
    ensures OrderedRun(n, events)
    decreases |events|
  {
    if events != [] {
      OrderlyStep(n, events[0]);
      OneTaskStep(n, events[0]);
      OneTaskRun(Do(n, events[0]), events[1..]);
    }
  }

  /** One sending task needs no assumption on the order. */
  lemma OneTaskNeverRepeats(events: seq<Event>)
    requires Allowed(Factory(1), events)
    ensures Increasing(After(Factory(1), events).uses) && Limited(After(Factory(1), events).uses)
  {
    OneTaskRun(Factory(1), events);
    CountersNeverRepeat(1, events);
  }
}
