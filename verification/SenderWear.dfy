/** What reservations cost a sender with one task: counters skipped at reloads, writes to storage, and
    the messages that can be sent before the counter is exhausted. */
module SenderWear {
  import opened Bytes
  import opened Options
  import opened LinkTypes
  import opened SenderMachine
  import opened SenderSafety

  // ---------------------------------------------------------------- one reload

  predicate StoredNear(n: Node) {
    n.ram.ready && InFlash(n.nvs, n.ram.key, n.ram.prefix) && n.nvs.reserved.Some? ==>
      n.nvs.reserved.value <= n.ram.counter + COUNTER_WINDOW
  }

  lemma NearStep(n: Node, e: Event)
    requires Safe(n) && OneTask(n) && StoredNear(n) && Enabled(n, e)
    ensures StoredNear(Do(n, e))
  {
    hide Highest, Hands, Covered, Load;
    assert TaskValid(n, n.tasks[0]);
    match e
    case Provision(_, _, _, _, _, _, _, _, _) => NearProvision(n, e);
    case _ =>
  }

  lemma NearProvision(n: Node, e: Event)
    requires Known(n) && StoredNear(n) && e.Provision? && Enabled(n, e)
    ensures StoredNear(Do(n, e))
  {
    hide Highest, Hands, Load;
  }

  lemma {:induction false} NearRun(n: Node, events: seq<Event>)
    requires Safe(n) && OneTask(n) && StoredNear(n) && Allowed(n, events)
    ensures Safe(After(n, events)) && StoredNear(After(n, events))
    decreases |events|
  {
    if events != [] {
      OneTaskStep(n, events[0]);
      SafeStep(n, events[0]);
      NearStep(n, events[0]);
      NearRun(Do(n, events[0]), events[1..]);
    }
  }

  /** After any run of a node with one sending task, losing the power and loading again goes on at or
      above the next counter, and skips at most 32. */
  lemma ReloadSkipsAtMost32(events: seq<Event>, access: Access)
    requires Allowed(Factory(1), events)
    requires var n := After(Factory(1), events); n.ram.ready && InFlash(n.nvs, n.ram.key, n.ram.prefix)
    ensures var n := After(Factory(1), events);
            var m := LoadInto(Crashed(n), access);
            m.ram.ready ==> n.ram.counter <= m.ram.counter <= n.ram.counter + 32
  {
    NearRun(Factory(1), events);
  }

  // ---------------------------------------------------------------- one boot

  predicate Sending(e: Event) {
    e.Check? || e.Reserve? || e.Put? || e.Publish? || e.Take?
  }

  predicate NoPowerLoss(e: Event) {
    e.Put? ==> !e.outcome.Crashes?
  }

  function Reservations(events: seq<Event>): nat {
    if events == [] then 0
    else (if events[0].Put? && events[0].outcome.Works? then 1 else 0) + Reservations(events[1..])
  }

  /** A boot that began at `first` has sent the counters from there on, with this many reservations. */
  predicate Booted(n: Node, first: nat, reservations: nat) {
    && n.ram.ready && |n.tasks| == 1
    && n.ram.counter <= n.ram.reserved <= n.ram.counter + COUNTER_WINDOW
    && first <= n.ram.counter
    && match n.tasks[0]
       case Reserved(value) => n.ram.reserved == first + 32 * (reservations - 1) && n.ram.counter == n.ram.reserved
                               && value == n.ram.counter + COUNTER_WINDOW
       case Reserving(value) => n.ram.reserved == first + 32 * reservations && n.ram.counter == n.ram.reserved
                                && value == n.ram.counter + COUNTER_WINDOW
       case MustReserve => n.ram.reserved == first + 32 * reservations && n.ram.counter == n.ram.reserved
       case _ => n.ram.reserved == first + 32 * reservations
  }

  lemma BootedStep(n: Node, e: Event, first: nat, reservations: nat)
    requires Orderly(n) && Booted(n, first, reservations)
    requires Enabled(n, e) && Sending(e) && NoPowerLoss(e)
    ensures Booted(Do(n, e), first, reservations + if e.Put? && e.outcome.Works? then 1 else 0)
    ensures Do(n, e).ram.counter - n.ram.counter == |Do(n, e).uses| - |n.uses|
  {
    hide Highest, Hands, Covered;
    assert TaskValid(n, n.tasks[0]);
  }

  lemma {:induction false} BootedRun(n: Node, events: seq<Event>, first: nat, reservations: nat)
    requires Orderly(n) && Booted(n, first, reservations) && Allowed(n, events)
    requires forall i | 0 <= i < |events| :: Sending(events[i]) && NoPowerLoss(events[i])
    ensures Booted(After(n, events), first, reservations + Reservations(events))
    ensures After(n, events).ram.counter - n.ram.counter == |After(n, events).uses| - |n.uses|
    decreases |events|
  {
    if events != [] {
      OrderlyStep(n, events[0]);
      BootedStep(n, events[0], first, reservations);
      var next := reservations + if events[0].Put? && events[0].outcome.Works? then 1 else 0;
      BootedRun(Do(n, events[0]), events[1..], first, next);
    }
  }

  /** A boot that sends m messages makes at most m / 32 + 1 successful reservations. */
  lemma WritesPerBoot(before: seq<Event>, access: Access, events: seq<Event>)
    requires Allowed(Factory(1), before) && Quiet(After(Factory(1), before))
    requires LoadInto(After(Factory(1), before), access).ram.ready
    requires Allowed(LoadInto(After(Factory(1), before), access), events)
    requires forall i | 0 <= i < |events| :: Sending(events[i]) && NoPowerLoss(events[i])
    ensures var n := LoadInto(After(Factory(1), before), access);
            var sent := |After(n, events).uses| - |n.uses|;
            Reservations(events) <= sent / 32 + 1
  {
    OrderlyRun(Factory(1), before);
    TasksStay(Factory(1), before);
    var n := LoadInto(After(Factory(1), before), access);
    OrderlyLoad(After(Factory(1), before), access);
    BootedRun(n, events, n.ram.counter, 0);
  }

  // ---------------------------------------------------------------- until the counter is exhausted

  /** The loads of a run that go through. */
  function Reloads(n: Node, events: seq<Event>): nat
    requires Allowed(n, events)
    decreases |events|
  {
    if events == [] then 0 else Reload(n, events[0]) + Reloads(Do(n, events[0]), events[1..])
  }

  function Reload(n: Node, e: Event): nat
    requires Enabled(n, e)
  {
    if LoadsState(n, e) && Do(n, e).ram.ready then 1 else 0
  }

  /** Storage and counter are not further than messages and reloads account for. */
  predicate Budget(n: Node, first: nat, sent: int, reloads: nat) {
    && 0 <= sent
    && (n.nvs.reserved.Some? ==> n.nvs.reserved.value <= first + sent + COUNTER_WINDOW * (reloads + 1))
    && (n.ram.ready ==> n.ram.counter <= first + sent + COUNTER_WINDOW * reloads)
  }

  lemma BudgetStep(n: Node, e: Event, first: nat, sent: int, reloads: nat)
    requires Orderly(n) && OneTask(n) && Budget(n, first, sent, reloads) && Enabled(n, e)
    ensures var m := Do(n, e); Budget(m, first, sent + |m.uses| - |n.uses|, reloads + Reload(n, e))
  {
    hide Highest, Hands, Covered, Quiet;
    assert TaskValid(n, n.tasks[0]);
    if e.Provision? {
      BudgetProvision(n, e, first, sent, reloads);
    }
  }

  lemma BudgetProvision(n: Node, e: Event, first: nat, sent: int, reloads: nat)
    requires Budget(n, first, sent, reloads) && e.Provision? && Enabled(n, e)
    ensures var m := Do(n, e); Budget(m, first, sent + |m.uses| - |n.uses|, reloads + Reload(n, e))
  {
    hide Quiet;
  }

  lemma {:induction false} BudgetRun(n: Node, events: seq<Event>, first: nat, sent: int, reloads: nat)
    requires Orderly(n) && OneTask(n) && Budget(n, first, sent, reloads) && Allowed(n, events)
    ensures var m := After(n, events);
            Budget(m, first, sent + |m.uses| - |n.uses|, reloads + Reloads(n, events))
    decreases |events|
  {
    hide Orderly, OneTask, Budget, Do, Enabled, Reload;
    if events != [] {
      var e, m := events[0], Do(n, events[0]);
      OrderlyStep(n, e);
      OneTaskStep(n, e);
      BudgetStep(n, e, first, sent, reloads);
      BudgetRun(m, events[1..], first, sent + |m.uses| - |n.uses|, reloads + Reload(n, e));
    }
  }

  /** A node with one task that has just loaded its state is not exhausted before LIMIT - c - 32 * b
      messages, where c is the loaded counter (32 for a new key) and b the number of reloads: whatever
      failed, lost power, was refused, reset or provisioned again in between. */
  lemma MessagesBeforeExhaustion(before: seq<Event>, access: Access, events: seq<Event>)
    requires Allowed(Factory(1), before) && Quiet(After(Factory(1), before))
    requires var n := LoadInto(After(Factory(1), before), access);
             n.ram.ready && Allowed(n, events) && After(n, events).ram.ready && After(n, events).ram.counter >= COUNTER_LIMIT
    ensures var n := LoadInto(After(Factory(1), before), access);
            |After(n, events).uses| - |n.uses| >= COUNTER_LIMIT - n.ram.counter - 32 * Reloads(n, events)
  {
    hide Orderly, OneTask, Do, Enabled, Load;
    var start, n := After(Factory(1), before), LoadInto(After(Factory(1), before), access);
    OneTaskReached(before);
    OrderlyLoad(start, access);
    OneLoad(start, access);
    BudgetRun(n, events, n.ram.counter, 0, 0);
  }

  lemma OneTaskReached(events: seq<Event>)
    requires Allowed(Factory(1), events)
    ensures Orderly(After(Factory(1), events)) && OneTask(After(Factory(1), events))
  {
    OneTaskRunKeeps(Factory(1), events);
  }

  lemma {:induction false} OneTaskRunKeeps(n: Node, events: seq<Event>)
    requires Orderly(n) && OneTask(n) && Allowed(n, events)
    ensures Orderly(After(n, events)) && OneTask(After(n, events))
    decreases |events|
  {
    hide Orderly, OneTask, Do, Enabled;
    if events != [] {
      OrderlyStep(n, events[0]);
      OneTaskStep(n, events[0]);
      OneTaskRunKeeps(Do(n, events[0]), events[1..]);
    }
  }

  /** From the factory on, over every run: at least LIMIT - 32 * b messages before the counter is
      exhausted, where b counts every load, the first one included. */
  lemma MessagesOfANode(events: seq<Event>)
    requires Allowed(Factory(1), events)
    requires After(Factory(1), events).ram.ready && After(Factory(1), events).ram.counter >= COUNTER_LIMIT
    ensures |After(Factory(1), events).uses| >= COUNTER_LIMIT - 32 * Reloads(Factory(1), events)
  {
    BudgetRun(Factory(1), events, 0, 0, 0);
  }
}
