/** The reservation is written outside the lock, so with several tasks an old one may reach storage
    late.  Exactly when that lets a counter repeat, and a run in which it does. */
module SenderLateWrite {
  import opened Bytes
  import opened Options
  import opened LinkTypes
  import opened SenderMachine
  import opened SenderSafety

  // ---------------------------------------------------------------- what holds without the order

  /** Everything between the loaded counter and the next one has been used, and no reservation under
      way is below the loaded one. */
  predicate Tracked(n: Node) {
    n.ram.ready && n.log != [] ==>
      && (forall v | n.log[0].value <= v < n.ram.counter :: Use(n.ram.key, n.ram.prefix, v) in n.uses)
      && (forall t | 0 <= t < |n.tasks| && n.tasks[t].Reserving? :: n.log[0].value <= n.tasks[t].value)
      && (n.ram.counter <= COUNTER_LIMIT || n.ram.counter == n.log[0].value)
  }

  /** The stored reservation, if there is one, is not below the loaded one. */
  predicate StoredSince(n: Node) {
    n.ram.ready && n.log != [] && InFlash(n.nvs, n.ram.key, n.ram.prefix) && n.nvs.reserved.Some? ==>
      n.log[0].value <= n.nvs.reserved.value
  }

  /** What late writes cannot break until the next load. */
  predicate Unordered(n: Node) {
    && Orderly(n) && Known(n) && FlashUnused(n) && RamAbove(n) && Increasing(n.uses)
    && Tracked(n) && StoredSince(n)
  }

  predicate NoLoads(n: Node, events: seq<Event>)
    requires Allowed(n, events)
    decreases |events|
  {
    events != [] ==> !LoadsState(n, events[0]) && NoLoads(Do(n, events[0]), events[1..])
  }

  lemma TrackedStep(n: Node, e: Event)
    requires Orderly(n) && Tracked(n) && Enabled(n, e)
    ensures Tracked(Do(n, e))
  {
    hide Highest, Hands, Covered, Load;
    match e
    case Take(t) =>
      assert TaskValid(n, n.tasks[t]);
      var m := Do(n, e);
      if m.uses != n.uses {
        assert m.uses[|n.uses|] == Use(n.ram.key, n.ram.prefix, n.ram.counter);
      }
    case Reserve(t, _) => assert TaskValid(n, n.tasks[t]);
    case Begin(access) => assert LoadInto(n, access).tasks == n.tasks;
    case Provision(_, _, _, _, _, _, _, _, _) => TrackedProvision(n, e);
    case _ =>
  }

  lemma TrackedProvision(n: Node, e: Event)
    requires Orderly(n) && Tracked(n) && e.Provision? && Enabled(n, e)
    ensures Tracked(Do(n, e))
  {
    hide Highest, Hands, Covered, Load;
    assert Do(n, e).tasks == n.tasks || !Do(n, e).ram.ready;
    assert Do(n, e).uses == n.uses;
  }

  lemma {:induction false} TrackedRun(n: Node, events: seq<Event>)
    requires Orderly(n) && Tracked(n) && Allowed(n, events)
    ensures Tracked(After(n, events))
    decreases |events|
  {
    if events != [] {
      OrderlyStep(n, events[0]);
      TrackedStep(n, events[0]);
      TrackedRun(Do(n, events[0]), events[1..]);
    }
  }

  /** Up to the next load, an event in any order keeps it. */
  lemma UnorderedStep(n: Node, e: Event)
    requires Unordered(n) && Enabled(n, e) && !LoadsState(n, e)
    ensures Unordered(Do(n, e))
  {
    hide Orderly, Tracked, Load, Quiet;
    OrderlyStep(n, e);
    TrackedStep(n, e);
    match e
    case Provision(_, _, _, _, _, _, _, _, _) => UnorderedProvision(n, e);
    case Put(_, _) => UnorderedPut(n, e);
    case Take(_) => UnorderedTake(n, e);
    case _ =>
  }

  lemma UnorderedProvision(n: Node, e: Event)
    requires Unordered(n) && e.Provision? && Enabled(n, e) && !LoadsState(n, e)
    ensures var m := Do(n, e); Known(m) && FlashUnused(m) && RamAbove(m) && Increasing(m.uses) && StoredSince(m)
  {
    hide Orderly, Tracked, Load, Quiet, Increasing;
    var m := Do(n, e);
    assert m.uses == n.uses;
    if m.nvs.key.Some? && m.nvs.prefix == Some(e.prefix) && n.nvs.prefix != m.nvs.prefix {
      NeverUsed(n, m.nvs.key.value, e.prefix);
    }
  }

  lemma UnorderedPut(n: Node, e: Event)
    requires Unordered(n) && e.Put? && Enabled(n, e)
    ensures var m := Do(n, e); Known(m) && FlashUnused(m) && RamAbove(m) && Increasing(m.uses) && StoredSince(m)
  {
    hide Highest, Hands, Covered, Increasing;
    assert TaskValid(n, n.tasks[e.task]);
  }

  lemma UnorderedTake(n: Node, e: Event)
    requires Unordered(n) && e.Take? && Enabled(n, e)
    ensures var m := Do(n, e); Known(m) && FlashUnused(m) && RamAbove(m) && Increasing(m.uses) && StoredSince(m)
  {
    hide Highest, Hands, Covered;
    assert TaskValid(n, n.tasks[e.task]);
  }

  lemma {:induction false} UnorderedRun(n: Node, events: seq<Event>)
    requires Unordered(n) && Allowed(n, events) && NoLoads(n, events)
    ensures Unordered(After(n, events))
    decreases |events|
  {
    hide Unordered;
    if events != [] {
      UnorderedStep(n, events[0]);
      UnorderedRun(Do(n, events[0]), events[1..]);
    }
  }

  lemma SafeIsUnordered(n: Node)
    requires Safe(n) && Tracked(n)
    ensures Unordered(n)
  {
    hide Hands, Covered, UsesBelow, Increasing;
    if n.ram.ready {
      FirstIsCounted(n);
    }
  }

  lemma FirstIsCounted(n: Node)
    requires Orderly(n) && n.ram.ready
    ensures n.log != [] && n.log[0].value <= n.ram.counter <= Highest(n.log)
  {
    hide Highest, Hands, Covered;
  }

  // ---------------------------------------------------------------- power loss and restart

  /** The power fails, and the next boot sends a message. */
  function Restarted(n: Node): Node
    requires |n.tasks| > 0
  {
    Wrapped(LoadInto(Crashed(n), EVERY_ACCESS), 0, true, Works)
  }

  /** That is a run of the machine. */
  lemma RestartIsARun(n: Node)
    requires |n.tasks| > 0
    ensures var events := [Crash, Begin(EVERY_ACCESS)] + Wrapping(LoadInto(Crashed(n), EVERY_ACCESS), 0, true, Works);
            Allowed(n, events) && After(n, events) == Restarted(n)
  {
    var booted := LoadInto(Crashed(n), EVERY_ACCESS);
    RunTwo(n, Crash, Begin(EVERY_ACCESS));
    WrapAlone(booted, 0, true, Works);
    AfterInTwo(n, [Crash, Begin(EVERY_ACCESS)], Wrapping(booted, 0, true, Works));
  }

  /** Storage holds a reservation that a load accepts and that has been passed already. */
  predicate Behind(n: Node) {
    && InFlash(n.nvs, n.ram.key, n.ram.prefix)
    && n.nvs.reserved.Some?
    && COUNTER_WINDOW <= n.nvs.reserved.value < n.ram.counter
  }

  /** The exact condition, at any time.  Take any run in which reservations have landed in order, and let
      it go on in any way without a new load: any late landings, any further messages.  No counter has
      repeated so far; and a power loss now, with a message after the restart, repeats one exactly if
      the stored reservation is behind the counter. */
  lemma RestartRepeatsIff(tasks: nat, before: seq<Event>, later: seq<Event>)
    requires tasks > 0
    requires Allowed(Factory(tasks), before) && OrderedRun(Factory(tasks), before)
    requires Allowed(After(Factory(tasks), before), later) && NoLoads(After(Factory(tasks), before), later)
    requires After(After(Factory(tasks), before), later).ram.ready
    ensures var n := After(After(Factory(tasks), before), later);
            |n.tasks| == tasks && Increasing(n.uses) && (Increasing(Restarted(n).uses) <==> !Behind(n))
  {
    hide Safe, Tracked, Unordered, Increasing, Behind, Restarted;
    FactoryIsSafe(tasks);
    SafeRun(Factory(tasks), before);
    OrderlyFromSafe(Factory(tasks));
    TrackedRun(Factory(tasks), before);
    SafeIsUnordered(After(Factory(tasks), before));
    UnorderedRun(After(Factory(tasks), before), later);
    var n := After(After(Factory(tasks), before), later);
    TasksStay(Factory(tasks), before);
    TasksStay(After(Factory(tasks), before), later);
    RestartFrom(n);
    UnorderedIncreases(n);
  }

  lemma FactoryIsSafe(tasks: nat)
    ensures Safe(Factory(tasks)) && Tracked(Factory(tasks))
  {
  }

  lemma OrderlyFromSafe(n: Node)
    requires Safe(n)
    ensures Orderly(n)
  {
  }

  lemma UnorderedIncreases(n: Node)
    requires Unordered(n)
    ensures Increasing(n.uses)
  {
  }

  lemma RestartFrom(n: Node)
    requires Unordered(n) && n.ram.ready && |n.tasks| > 0
    ensures Increasing(Restarted(n).uses) <==> !Behind(n)
  {
    hide Highest, Hands, Covered;
    var m, booted := Restarted(n), LoadInto(Crashed(n), EVERY_ACCESS);
    assert booted.uses == n.uses;
    if booted.ram.ready && booted.ram.counter < COUNTER_LIMIT {
      var value := n.nvs.reserved.value;
      assert m.uses == n.uses + [Use(n.nvs.key.value, n.nvs.prefix.value, value)];
      if Behind(n) {
        assert Use(n.ram.key, n.ram.prefix, value) in n.uses;
        var i :| 0 <= i < |n.uses| && n.uses[i] == Use(n.ram.key, n.ram.prefix, value);
        assert m.uses[i] == m.uses[|n.uses|];
      }
    } else {
      assert m.uses == n.uses;
    }
  }

  /** An instance: a waiting reservation lands and the power fails at once. */
  lemma LateWriteRepeatsIff(tasks: nat, events: seq<Event>, t: nat)
    requires Allowed(Factory(tasks), events) && OrderedRun(Factory(tasks), events)
    requires var n := After(Factory(tasks), events); t < |n.tasks| && n.tasks[t].Reserving?
    ensures var n := After(Factory(tasks), events);
            Increasing(Restarted(Do(n, Put(t, Works))).uses)
            <==> !(InFlash(n.nvs, n.ram.key, n.ram.prefix) && n.tasks[t].value < n.ram.counter)
  {
    var n := After(Factory(tasks), events);
    OrderlyRun(Factory(tasks), events);
    TasksStay(Factory(tasks), events);
    assert TaskValid(n, n.tasks[t]);
    RunOne(n, Put(t, Works));
    assert NoLoads(n, [Put(t, Works)]) by { NothingLoads(n, t); }
    RestartRepeatsIff(tasks, events, [Put(t, Works)]);
  }

  lemma NothingLoads(n: Node, t: nat)
    requires Enabled(n, Put(t, Works))
    ensures Allowed(n, [Put(t, Works)]) && NoLoads(n, [Put(t, Works)])
  {
    RunOne(n, Put(t, Works));
    assert [Put(t, Works)][1..] == [];
    assert NoLoads(Do(n, Put(t, Works)), []);
  }

  // ---------------------------------------------------------------- a run with a repeated counter

  /** Two tasks, the first holding a reservation of 64 that has not been written. */
  predicate Waiting(n: Node, counter: nat, reserved: nat) {
    && n.tasks == [Reserving(64), Idle]
    && n.ram == Ram(true, Zeros(16), Zeros(12), counter, reserved)
    && InFlash(n.nvs, Zeros(16), Zeros(12))
    && Highest(n.log) == reserved
  }

  function Provisioning(): Event {
    Provision(true, true, true, Zeros(16), Zeros(12), Works, Works, Works, EVERY_ACCESS)
  }

  /** Both tasks ask for a reservation at the same time, and only the second one writes it. */
  lemma StartWaiting() returns (events: seq<Event>)
    ensures Allowed(Factory(2), events) && OrderedRun(Factory(2), events)
    ensures Waiting(After(Factory(2), events), 33, 64)
  {
    var n0 := Factory(2);
    var n1 := Do(n0, Provisioning());
    assert n1.log == [] + [Loaded(32)];
    HighestNext([], Loaded(32));
    var n2 := Do(n1, Check(0));
    assert n2.tasks == [MustReserve, Idle];
    var n3 := Do(n2, Reserve(0, true));
    assert n3.tasks == [Reserving(64), Idle];
    events := [Provisioning(), Check(0), Reserve(0, true)];
    RunThree(n0, Provisioning(), Check(0), Reserve(0, true));
    OrderedThree(n0, Provisioning(), Check(0), Reserve(0, true));
    var more := OneMore(n3, 32, 32);
    AfterInTwo(n0, events, more);
    OrderedInTwo(n0, events, more);
    events := events + more;
  }

  lemma OrderedOne(n: Node, a: Event, rest: seq<Event>)
    requires Enabled(n, a) && Allowed(Do(n, a), rest)
    requires InOrder(n, a) && OrderedRun(Do(n, a), rest)
    ensures Allowed(n, [a] + rest) && OrderedRun(n, [a] + rest)
  {
    hide Do, Enabled;
    assert ([a] + rest)[0] == a && ([a] + rest)[1..] == rest;
  }

  lemma Standing(n: Node)
    ensures Allowed(n, []) && OrderedRun(n, [])
  {
  }

  lemma OrderedTwo(n: Node, a: Event, b: Event)
    requires Enabled(n, a) && Enabled(Do(n, a), b) && InOrder(n, a) && InOrder(Do(n, a), b)
    ensures Allowed(n, [a, b]) && OrderedRun(n, [a, b])
  {
    hide Do, Enabled, InOrder;
    var m := Do(n, a);
    assert Allowed(Do(m, b), []) && OrderedRun(Do(m, b), []);
    OrderedOne(m, b, []);
    OrderedOne(n, a, [b]);
    assert [b] + [] == [b] && [a] + [b] == [a, b];
  }

  lemma OrderedThree(n: Node, a: Event, b: Event, c: Event)
    requires Enabled(n, a) && Enabled(Do(n, a), b) && Enabled(Do(Do(n, a), b), c)
    requires InOrder(n, a) && InOrder(Do(n, a), b) && InOrder(Do(Do(n, a), b), c)
    ensures Allowed(n, [a, b, c]) && OrderedRun(n, [a, b, c])
  {
    hide Do, Enabled, InOrder;
    OrderedTwo(Do(n, a), b, c);
    OrderedOne(n, a, [b, c]);
    assert [a] + [b, c] == [a, b, c];
  }

  lemma {:induction false} OrderedInTwo(n: Node, a: seq<Event>, b: seq<Event>)
    requires Allowed(n, a) && Allowed(After(n, a), b) && OrderedRun(n, a) && OrderedRun(After(n, a), b)
    ensures Allowed(n, a + b) && OrderedRun(n, a + b)
    decreases |a|
  {
    AfterInTwo(n, a, b);
    if a == [] {
      assert a + b == b;
    } else {
      assert (a + b)[0] == a[0] && (a + b)[1..] == a[1..] + b;
      OrderedInTwo(Do(n, a[0]), a[1..], b);
    }
  }

  /** The second task sends one message. */
  lemma OneMore(n: Node, counter: nat, reserved: nat) returns (events: seq<Event>)
    requires Waiting(n, counter, reserved) && counter <= reserved <= 64
    ensures Allowed(n, events) && OrderedRun(n, events)
    ensures Waiting(After(n, events), counter + 1, if counter < reserved then reserved else counter + 32)
  {
    hide Highest, Allowed, After, OrderedRun, Wrapping, InOrder, Wrapped;
    events := Wrapping(n, 1, true, Works);
    WrapAlone(n, 1, true, Works);
    WrapInOrder(n, 1);
    StillWaiting(n, counter, reserved);
  }

  lemma StillWaiting(n: Node, counter: nat, reserved: nat)
    requires Waiting(n, counter, reserved) && counter <= reserved <= 64
    ensures Waiting(Wrapped(n, 1, true, Works), counter + 1, if counter < reserved then reserved else counter + 32)
  {
    hide Highest, Hands, Reservation;
    assert Reservation(counter) == counter + 32 by { ReservationIsAhead(counter); }
    var m := Wrapped(n, 1, true, Works);
    if counter < reserved {
      HighestNext(n.log, Handed(counter));
      assert m.log == n.log + [Handed(counter)];
    } else {
      HighestNext(n.log, Landed(counter + 32));
      HighestNext(n.log + [Landed(counter + 32)], Handed(counter));
      assert m.log == n.log + [Landed(counter + 32)] + [Handed(counter)];
    }
  }

  lemma ReservationIsAhead(counter: nat)
    requires counter < COUNTER_LIMIT
    ensures Reservation(counter) == counter + 32
  {
  }

  lemma WrapInOrder(n: Node, t: nat)
    requires t < |n.tasks| && n.tasks[t] == Idle
    requires n.ram.reserved <= n.ram.counter < COUNTER_LIMIT ==> Highest(n.log) <= n.ram.counter + COUNTER_WINDOW
    ensures Allowed(n, Wrapping(n, t, true, Works)) && OrderedRun(n, Wrapping(n, t, true, Works))
  {
    hide Highest, Allowed, After, OrderedRun;
    var checked := Do(n, Check(t));
    if n.ram.ready && n.ram.counter < COUNTER_LIMIT {
      if n.ram.counter < n.ram.reserved {
        OrderedTwo(n, Check(t), Take(t));
      } else {
        var written := Do(Do(checked, Reserve(t, true)), Put(t, Works));
        assert Enabled(written, Publish(t));
        OrderedThree(n, Check(t), Reserve(t, true), Put(t, Works));
        OrderedTwo(written, Publish(t), Take(t));
        RunThree(n, Check(t), Reserve(t, true), Put(t, Works));
        OrderedInTwo(n, [Check(t), Reserve(t, true), Put(t, Works)], [Publish(t), Take(t)]);
        assert [Check(t), Reserve(t, true), Put(t, Works)] + [Publish(t), Take(t)]
            == [Check(t), Reserve(t, true), Put(t, Works), Publish(t), Take(t)];
      }
    } else {
      assert Allowed(checked, []) && OrderedRun(checked, []) by { Standing(checked); }
      OrderedOne(n, Check(t), []);
      assert [Check(t)] + [] == [Check(t)];
    }
  }

  lemma {:induction false} ManyMore(n: Node, counter: nat) returns (events: seq<Event>)
    requires Waiting(n, counter, 64) && counter <= 64
    ensures Allowed(n, events) && OrderedRun(n, events)
    ensures Waiting(After(n, events), 65, 96)
    decreases 64 - counter
  {
    events := OneMore(n, counter, 64);
    if counter < 64 {
      var rest := ManyMore(After(n, events), counter + 1);
      AfterInTwo(n, events, rest);
      OrderedInTwo(n, events, rest);
      events := events + rest;
    }
  }

  /** The order assumption is needed: with two tasks there is a run that repeats a counter. */
  lemma LateWriteHappens() returns (events: seq<Event>)
    ensures Allowed(Factory(2), events)
    ensures !Increasing(After(Factory(2), events).uses)
  {
    var start := StartWaiting();
    var sent := ManyMore(After(Factory(2), start), 33);
    AfterInTwo(Factory(2), start, sent);
    OrderedInTwo(Factory(2), start, sent);
    var n := After(Factory(2), start + sent);
    LateWriteRepeatsIff(2, start + sent, 0);
    RunOne(n, Put(0, Works));
    AfterInTwo(Factory(2), start + sent, [Put(0, Works)]);
    var landed := Do(n, Put(0, Works));
    RestartIsARun(landed);
    var last := [Crash, Begin(EVERY_ACCESS)] + Wrapping(LoadInto(Crashed(landed), EVERY_ACCESS), 0, true, Works);
    AfterInTwo(Factory(2), start + sent + [Put(0, Works)], last);
    events := start + sent + [Put(0, Works)] + last;
  }
}
