/** What a factory reset leaves: no load finds anything, nothing is sent until new material has been
    drawn, and no key from before is ever used again.  And what a power loss leaves: nothing is sent before
    the state has been loaded. */
module SenderReset {
  import opened Bytes
  import opened Options
  import opened LinkTypes
  import opened SenderMachine
  import opened SenderLateWrite

  /** The node after a reset that has worked. */
  function Reset(n: Node): Node { DoFactoryReset(n, true, Works, n.nvs) }

  /** Storage is empty, and whatever accesses go through, a load refuses. */
  lemma NothingIsLeft(n: Node, access: Access)
    ensures Reset(n).nvs == Nvs(None, None, None) && !Reset(n).ram.ready
    ensures var (ram, status) := Load(Reset(n).nvs, Reset(n).ram, access);
            !ram.ready && status == if access.accessible then ERR_NOT_PROVISIONED else ERR_NVS
  {
  }

  /** A reset that cannot open the storage changes nothing, and one that fails keeps what is in use; what
      it leaves in storage is part of what was there. */
  lemma FailedReset(n: Node, accessible: bool, outcome: Outcome, left: Nvs)
    requires Remains(left, n.nvs) && !outcome.Crashes? && !(accessible && outcome.Works?)
    ensures var m := DoFactoryReset(n, accessible, outcome, left);
            m.ram == n.ram && m.uses == n.uses && Remains(m.nvs, n.nvs) && (!accessible ==> m == n)
  {
  }

  // ---------------------------------------------------------------- what may follow

  /** Everything in storage and in use, and everything used since `sent` messages, is under keys that
      were not known before. */
  predicate Forgotten(n: Node, before: set<Key>, sent: nat) {
    && before <= n.keys && sent <= |n.uses|
    && (n.nvs.key.Some? ==> n.nvs.key.value !in before)
    && (n.ram.ready ==> n.ram.key !in before)
    && (forall i | sent <= i < |n.uses| :: n.uses[i].key !in before)
  }

  lemma ForgottenStep(n: Node, e: Event, before: set<Key>, sent: nat)
    requires Orderly(n) && Forgotten(n, before, sent) && Enabled(n, e)
    ensures Forgotten(Do(n, e), before, sent)
  {
    hide Highest, Hands, Covered, Counting, Quiet;
    match e
    case Take(t) => assert TaskValid(n, n.tasks[t]);
    case Provision(_, _, _, _, _, _, _, _, _) => ForgottenProvision(n, e, before, sent);
    case _ =>
  }

  lemma ForgottenProvision(n: Node, e: Event, before: set<Key>, sent: nat)
    requires Forgotten(n, before, sent) && e.Provision? && Enabled(n, e)
    ensures Forgotten(Do(n, e), before, sent)
  {
    hide Quiet;
  }

  lemma {:induction false} ForgottenRun(n: Node, events: seq<Event>, before: set<Key>, sent: nat)
    requires Orderly(n) && Forgotten(n, before, sent) && Allowed(n, events)
    ensures Forgotten(After(n, events), before, sent)
    decreases |events|
  {
    hide Orderly, Forgotten, Do, Enabled;
    if events != [] {
      OrderlyStep(n, events[0]);
      ForgottenStep(n, events[0], before, sent);
      ForgottenRun(Do(n, events[0]), events[1..], before, sent);
    }
  }

  /** Over every run: after a reset that has worked, no key from before is in storage, in use or used
      again, whatever happens later, provisioning included. */
  lemma ResetForgets(tasks: nat, earlier: seq<Event>, later: seq<Event>)
    requires Allowed(Factory(tasks), earlier) && Quiet(After(Factory(tasks), earlier))
    requires Allowed(Reset(After(Factory(tasks), earlier)), later)
    ensures var n := After(Factory(tasks), earlier);
            var m := After(Reset(n), later);
            && |n.uses| <= |m.uses|
            && (forall i | |n.uses| <= i < |m.uses| :: m.uses[i].key !in n.keys)
            && (m.nvs.key.Some? ==> m.nvs.key.value !in n.keys)
  {
    hide Orderly, Do, Enabled;
    var n := After(Factory(tasks), earlier);
    FactoryIsOrderly(tasks);
    OrderlyRun(Factory(tasks), earlier);
    assert Do(n, FactoryReset(true, Works, n.nvs)) == Reset(n) && Enabled(n, FactoryReset(true, Works, n.nvs)) by {
      ResetIsEvent(n);
    }
    OrderlyStep(n, FactoryReset(true, Works, n.nvs));
    ForgottenRun(Reset(n), later, n.keys, |n.uses|);
  }

  lemma FactoryIsOrderly(tasks: nat)
    ensures Orderly(Factory(tasks))
  {
  }

  lemma ResetIsEvent(n: Node)
    requires Quiet(n)
    ensures Enabled(n, FactoryReset(true, Works, n.nvs)) && Do(n, FactoryReset(true, Works, n.nvs)) == Reset(n)
  {
  }

  /** No provisioning draws new material. */
  predicate DrawsNothing(events: seq<Event>) {
    forall i | 0 <= i < |events| && events[i].Provision? :: !(events[i].accessible && events[i].rng)
  }

  predicate Silent(n: Node) {
    n.nvs.key == None && !n.ram.ready && forall t | 0 <= t < |n.tasks| :: n.tasks[t] == Idle
  }

  lemma {:induction false} SilentRun(n: Node, events: seq<Event>)
    requires Silent(n) && Allowed(n, events) && DrawsNothing(events)
    ensures Silent(After(n, events)) && After(n, events).uses == n.uses
    decreases |events|
  {
    if events != [] {
      var m := Do(n, events[0]);
      assert Silent(m) && m.uses == n.uses by { SilentStep(n, events[0]); }
      assert forall i | 0 <= i < |events| - 1 :: events[1..][i] == events[i + 1];
      SilentRun(m, events[1..]);
    }
  }

  lemma SilentStep(n: Node, e: Event)
    requires Silent(n) && Enabled(n, e) && (e.Provision? ==> !(e.accessible && e.rng))
    ensures Silent(Do(n, e)) && Do(n, e).uses == n.uses
  {
  }

  /** Over every run: after a reset nothing is sent before provisioning has drawn new material. */
  lemma ResetSilences(tasks: nat, earlier: seq<Event>, later: seq<Event>)
    requires Allowed(Factory(tasks), earlier) && Quiet(After(Factory(tasks), earlier))
    requires Allowed(Reset(After(Factory(tasks), earlier)), later) && DrawsNothing(later)
    ensures var n := After(Factory(tasks), earlier);
            After(Reset(n), later).uses == n.uses && !After(Reset(n), later).ram.ready
  {
    SilentRun(Reset(After(Factory(tasks), earlier)), later);
  }

  // ---------------------------------------------------------------- power loss

  predicate Stopped(n: Node) {
    !n.ram.ready && Quiet(n)
  }

  lemma StoppedStep(n: Node, e: Event)
    requires Stopped(n) && Enabled(n, e) && !LoadsState(n, e)
    ensures Stopped(Do(n, e)) && Do(n, e).uses == n.uses
  {
  }

  lemma {:induction false} StoppedRun(n: Node, events: seq<Event>)
    requires Stopped(n) && Allowed(n, events) && NoLoads(n, events)
    ensures Stopped(After(n, events)) && After(n, events).uses == n.uses
    decreases |events|
  {
    hide Stopped, Do, Enabled, LoadsState;
    if events != [] {
      StoppedStep(n, events[0]);
      StoppedRun(Do(n, events[0]), events[1..]);
    }
  }

  /** Wherever the power fails, storage stays as it is, every task stops, and nothing is sent before the
      sender has loaded its state again; and what it sends first is the stored reservation. */
  lemma PowerLossSilences(n: Node, later: seq<Event>, access: Access, t: nat)
    requires Allowed(Crashed(n), later) && NoLoads(Crashed(n), later) && t < |n.tasks|
    ensures Crashed(n).nvs == n.nvs && After(Crashed(n), later).uses == n.uses && Quiet(After(Crashed(n), later))
    ensures var loaded := LoadInto(After(Crashed(n), later), access);
            t < |loaded.tasks| && loaded.tasks[t] == Idle
            && (loaded.ram.ready && loaded.ram.counter < COUNTER_LIMIT ==>
                  var first := Wrapped(loaded, t, true, Works);
                  |first.uses| == |n.uses| + 1 && Some(first.uses[|n.uses|].counter) == loaded.nvs.reserved)
  {
    hide Highest, Hands;
    StoppedRun(Crashed(n), later);
    TasksStay(Crashed(n), later);
  }
}
