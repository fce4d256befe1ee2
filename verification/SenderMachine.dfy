/** The sender of the link as a step machine: any number of tasks run Wrap's critical sections and
    storage accesses in any interleaving, storage operations fail before or after taking effect,
    entries get lost, and the power fails between any two storage accesses.  The node carries its
    history, about which the theorems speak. */
module SenderMachine {
  import opened Bytes
  import opened Options
  import opened LinkTypes

  const COUNTER_WINDOW: nat := 32
  const COUNTER_LIMIT: nat := 0xFFFF_F000

  // ---------------------------------------------------------------- state

  /** Non-volatile storage; an entry that was lost or cannot be read as written is None. */
  datatype Nvs = Nvs(key: Option<Key>, prefix: Option<Prefix>, reserved: Option<nat>)

  datatype Ram = Ram(ready: bool, key: Key, prefix: Prefix, counter: nat, reserved: nat)

  /** Where a task is inside Wrap. */
  datatype Task = Idle | MustReserve | Reserving(value: nat) | Reserved(value: nat) | MayTake

  /** What happened since the sender state was last loaded. */
  datatype Entry = Loaded(value: nat) | Landed(value: nat) | Handed(value: nat)

  datatype Use = Use(key: Key, prefix: Prefix, counter: nat)

  datatype Node = Node(nvs: Nvs, ram: Ram, tasks: seq<Task>,
                       log: seq<Entry>, uses: seq<Use>, keys: set<Key>, prefixes: set<Prefix>,
                       drawn: set<(Key, Prefix)>)

  const EMPTY_RAM := Ram(false, Zeros(16), Zeros(12), 0, 0)

  function Factory(tasks: nat): Node {
    Node(Nvs(None, None, None), EMPTY_RAM, seq(tasks, _ => Idle), [], [], {}, {}, {})
  }

  // ---------------------------------------------------------------- loading

  /** Which of the accesses of a load go through. */
  datatype Access = Access(accessible: bool, isKey: bool, key: bool, prefix: bool, reserved: bool)

  const EVERY_ACCESS := Access(true, true, true, true, true)

  /** A load goes through exactly when everything is there and the stored counter is one that was
      reserved; it then resumes at that counter, and otherwise nothing can be sent.  In particular a
      missing counter is refused and never restarts from zero. */
  function Load(nvs: Nvs, ram: Ram, access: Access): (r: (Ram, Status))
    ensures r.0.ready <==> r.1 == OK
    ensures r.1 == OK <==> access == EVERY_ACCESS && nvs.key.Some? && nvs.prefix.Some?
                           && nvs.reserved.Some? && nvs.reserved.value >= COUNTER_WINDOW
    ensures r.1 == OK ==> r.0 == Ram(true, nvs.key.value, nvs.prefix.value, nvs.reserved.value, nvs.reserved.value)
  {
    if !access.accessible then (ram.(ready := false), ERR_NVS)
    else if !access.isKey || nvs.key.None? then (ram.(ready := false), ERR_NOT_PROVISIONED)
    else if !access.key then (ram.(ready := false), ERR_NVS)
    else if !access.prefix || nvs.prefix.None? then (ram.(ready := false, key := nvs.key.value), ERR_NVS)
    else
      var reserved := if access.reserved && nvs.reserved.Some? then nvs.reserved.value else 0;
      if reserved < COUNTER_WINDOW then
        (ram.(ready := false, key := Zeros(16), prefix := Zeros(12)), ERR_NVS)
      else
        (Ram(true, nvs.key.value, nvs.prefix.value, reserved, reserved), OK)
  }

  // ---------------------------------------------------------------- events

  datatype Event =
    | Begin(access: Access)
    | Provision(accessible: bool, isKey: bool, rng: bool, key: Key, prefix: Prefix,
                putPrefix: Outcome, putReserved: Outcome, putKey: Outcome, access: Access)
    | FactoryReset(accessible: bool, outcome: Outcome, left: Nvs)
    | Crash
    | Lose(left: Nvs)
    | Check(task: nat)
    | Reserve(task: nat, accessible: bool)
    | Put(task: nat, outcome: Outcome)
    | Publish(task: nat)
    | Take(task: nat)

  predicate Quiet(n: Node) {
    forall t | 0 <= t < |n.tasks| :: n.tasks[t] == Idle
  }

  /** Every entry is the old one or gone. */
  predicate Remains(left: Nvs, nvs: Nvs) {
    && (left.key == nvs.key || left.key == None)
    && (left.prefix == nvs.prefix || left.prefix == None)
    && (left.reserved == nvs.reserved || left.reserved == None)
  }

  /** Begin, Provision and FactoryReset run with no Wrap in flight, and the material that Provision
      draws is new. */
  predicate Enabled(n: Node, e: Event) {
    match e
    case Begin(_) => Quiet(n)
    case Provision(_, _, _, key, prefix, _, _, _, _) => Quiet(n) && key !in n.keys && prefix !in n.prefixes
    case FactoryReset(_, _, left) => Quiet(n) && Remains(left, n.nvs)
    case Crash => true
    case Lose(left) => Remains(left, n.nvs)
    case Check(t) => t < |n.tasks| && n.tasks[t] == Idle
    case Reserve(t, _) => t < |n.tasks| && n.tasks[t] == MustReserve
    case Put(t, _) => t < |n.tasks| && n.tasks[t].Reserving?
    case Publish(t) => t < |n.tasks| && n.tasks[t].Reserved?
    case Take(t) => t < |n.tasks| && n.tasks[t] == MayTake
  }

  function Crashed(n: Node): Node {
    n.(ram := EMPTY_RAM, tasks := seq(|n.tasks|, _ => Idle), log := [])
  }

  function LoadInto(n: Node, access: Access): Node {
    var ram := Load(n.nvs, n.ram, access).0;
    n.(ram := ram, log := if ram.ready then [Loaded(ram.counter)] else [])
  }

  /** The prefix goes first, then the first reservation, and the key last. */
  function DoProvision(n: Node, accessible: bool, isKey: bool, rng: bool, key: Key, prefix: Prefix,
                       putPrefix: Outcome, putReserved: Outcome, putKey: Outcome, access: Access): Node {
    if !accessible then n
    else if isKey && n.nvs.key.Some? then LoadInto(n, access)
    else if !rng then n
    else
      var n := n.(keys := n.keys + {key}, prefixes := n.prefixes + {prefix},
                   drawn := n.drawn + {(key, prefix)});
      var n := if TakesEffect(putPrefix) then n.(nvs := n.nvs.(prefix := Some(prefix))) else n;
      if putPrefix.Fails? then n else if putPrefix.Crashes? then Crashed(n)
      else
        var n := if TakesEffect(putReserved) then n.(nvs := n.nvs.(reserved := Some(COUNTER_WINDOW))) else n;
        if putReserved.Fails? then n else if putReserved.Crashes? then Crashed(n)
        else
          var n := if TakesEffect(putKey) then n.(nvs := n.nvs.(key := Some(key))) else n;
          if putKey.Fails? then n else if putKey.Crashes? then Crashed(n)
          else LoadInto(n, access)
  }

  function DoFactoryReset(n: Node, accessible: bool, outcome: Outcome, left: Nvs): Node {
    if !accessible then n
    else if outcome.Works? then n.(nvs := Nvs(None, None, None), ram := EMPTY_RAM, log := [])
    else if outcome.Fails? then n.(nvs := left)
    else Crashed(n.(nvs := left))
  }

  function DoCheck(n: Node, t: nat): Node
    requires t < |n.tasks|
  {
    if !n.ram.ready then n
    else if n.ram.counter >= COUNTER_LIMIT then n
    else n.(tasks := n.tasks[t := if n.ram.counter >= n.ram.reserved then MustReserve else MayTake])
  }

  /** The value that is written ahead of the counter, in 32 bits. */
  function Reservation(counter: nat): nat { (counter + COUNTER_WINDOW) % COUNTER_VALUES }

  function DoReserve(n: Node, t: nat, accessible: bool): Node
    requires t < |n.tasks|
  {
    n.(tasks := n.tasks[t := if accessible then Reserving(Reservation(n.ram.counter)) else Idle])
  }

  function DoPut(n: Node, t: nat, outcome: Outcome): Node
    requires t < |n.tasks| && n.tasks[t].Reserving?
  {
    var value := n.tasks[t].value;
    var n := if TakesEffect(outcome) then n.(nvs := n.nvs.(reserved := Some(value)), log := n.log + [Landed(value)]) else n;
    if outcome.Crashes? then Crashed(n)
    else n.(tasks := n.tasks[t := if outcome.Works? then Reserved(value) else Idle])
  }

  function DoPublish(n: Node, t: nat): Node
    requires t < |n.tasks| && n.tasks[t].Reserved?
  {
    var value := n.tasks[t].value;
    n.(ram := if value > n.ram.reserved then n.ram.(reserved := value) else n.ram, tasks := n.tasks[t := MayTake])
  }

  function DoTake(n: Node, t: nat): Node
    requires t < |n.tasks|
  {
    var ram := n.ram;
    if ram.counter >= COUNTER_LIMIT || ram.counter >= ram.reserved then n.(tasks := n.tasks[t := Idle])
    else n.(ram := ram.(counter := (ram.counter + 1) % COUNTER_VALUES),
            tasks := n.tasks[t := Idle],
            log := n.log + [Handed(ram.counter)],
            uses := n.uses + [Use(ram.key, ram.prefix, ram.counter)])
  }

  function Do(n: Node, e: Event): Node
    requires Enabled(n, e)
  {
    match e
    case Begin(access) => LoadInto(n, access)
    case Provision(accessible, isKey, rng, key, prefix, putPrefix, putReserved, putKey, access) =>
      DoProvision(n, accessible, isKey, rng, key, prefix, putPrefix, putReserved, putKey, access)
    case FactoryReset(accessible, outcome, left) => DoFactoryReset(n, accessible, outcome, left)
    case Crash => Crashed(n)
    case Lose(left) => n.(nvs := left)
    case Check(t) => DoCheck(n, t)
    case Reserve(t, accessible) => DoReserve(n, t, accessible)
    case Put(t, outcome) => DoPut(n, t, outcome)
    case Publish(t) => DoPublish(n, t)
    case Take(t) => DoTake(n, t)
  }

  /** The event makes the sender load its state anew. */
  predicate LoadsState(n: Node, e: Event) {
    || e.Begin?
    || (e.Provision? && e.accessible
        && ((e.isKey && n.nvs.key.Some?) || (e.rng && e.putPrefix.Works? && e.putReserved.Works? && e.putKey.Works?)))
  }

  // ---------------------------------------------------------------- runs

  predicate Allowed(n: Node, events: seq<Event>)
    decreases |events|
  {
    events != [] ==> Enabled(n, events[0]) && Allowed(Do(n, events[0]), events[1..])
  }

  function After(n: Node, events: seq<Event>): Node
    requires Allowed(n, events)
    decreases |events|
  {
    if events == [] then n else After(Do(n, events[0]), events[1..])
  }

  lemma {:induction false} AfterInTwo(n: Node, a: seq<Event>, b: seq<Event>)
    requires Allowed(n, a) && Allowed(After(n, a), b)
    ensures Allowed(n, a + b) && After(n, a + b) == After(After(n, a), b)
    decreases |a|
  {
    if a == [] {
      assert a + b == b;
    } else {
      assert (a + b)[0] == a[0] && (a + b)[1..] == a[1..] + b;
      AfterInTwo(Do(n, a[0]), a[1..], b);
    }
  }

  lemma {:induction false} TasksStay(n: Node, events: seq<Event>)
    requires Allowed(n, events)
    ensures |After(n, events).tasks| == |n.tasks|
    decreases |events|
  {
    if events != [] {
      TasksStay(Do(n, events[0]), events[1..]);
    }
  }

  /** The events of one whole Wrap by one task while the others stand still. */
  function Wrapping(n: Node, t: nat, accessible: bool, outcome: Outcome): seq<Event> {
    if !n.ram.ready || n.ram.counter >= COUNTER_LIMIT then [Check(t)]
    else if n.ram.counter < n.ram.reserved then [Check(t), Take(t)]
    else if !accessible then [Check(t), Reserve(t, false)]
    else if !outcome.Works? then [Check(t), Reserve(t, true), Put(t, outcome)]
    else [Check(t), Reserve(t, true), Put(t, outcome), Publish(t), Take(t)]
  }

  function Wrapped(n: Node, t: nat, accessible: bool, outcome: Outcome): Node
    requires t < |n.tasks| && n.tasks[t] == Idle
  {
    var ram := n.ram;
    if !ram.ready || ram.counter >= COUNTER_LIMIT then n
    else if ram.counter < ram.reserved then HandOut(n)
    else if !accessible then n
    else
      var value := Reservation(ram.counter);
      var stored := if TakesEffect(outcome)
                    then n.(nvs := n.nvs.(reserved := Some(value)), log := n.log + [Landed(value)]) else n;
      if outcome.Crashes? then Crashed(stored)
      else if outcome.Fails? then stored
      else
        var published := stored.(ram := if value > ram.reserved then ram.(reserved := value) else ram);
        if ram.counter >= published.ram.reserved then published else HandOut(published)
  }

  function HandOut(n: Node): Node {
    n.(ram := n.ram.(counter := (n.ram.counter + 1) % COUNTER_VALUES),
       log := n.log + [Handed(n.ram.counter)],
       uses := n.uses + [Use(n.ram.key, n.ram.prefix, n.ram.counter)])
  }

  /** Run without interruption, the critical sections of Wrap add up to one step. */
  lemma WrapAlone(n: Node, t: nat, accessible: bool, outcome: Outcome)
    requires t < |n.tasks| && n.tasks[t] == Idle
    ensures Allowed(n, Wrapping(n, t, accessible, outcome))
    ensures After(n, Wrapping(n, t, accessible, outcome)) == Wrapped(n, t, accessible, outcome)
  {
    hide Allowed, After, Enabled, Do;
    var ram := n.ram;
    if !ram.ready || ram.counter >= COUNTER_LIMIT {
      assert Do(n, Check(t)) == n && Enabled(n, Check(t)) by { FirstSteps(n, t); }
      RunOne(n, Check(t));
    } else if ram.counter < ram.reserved {
      FirstSteps(n, t);
      LastStep(n, Do(n, Check(t)), t);
      RunTwo(n, Check(t), Take(t));
    } else {
      FirstSteps(n, t);
      var checked := Do(n, Check(t));
      ReserveStep(n, checked, t, accessible);
      if accessible {
        WrapReserving(n, t, outcome);
      } else {
        RunTwo(n, Check(t), Reserve(t, false));
      }
    }
  }

  lemma WrapReserving(n: Node, t: nat, outcome: Outcome)
    requires t < |n.tasks| && n.tasks[t] == Idle
    requires n.ram.ready && n.ram.reserved <= n.ram.counter < COUNTER_LIMIT
    ensures Allowed(n, Wrapping(n, t, true, outcome))
    ensures After(n, Wrapping(n, t, true, outcome)) == Wrapped(n, t, true, outcome)
  {
    hide Allowed, After, Enabled, Do, Reservation, Crashed;
    FirstSteps(n, t);
    var checked := Do(n, Check(t));
    ReserveStep(n, checked, t, true);
    var reserving := Do(checked, Reserve(t, true));
    PutStep(n, reserving, t, outcome);
    if outcome.Works? {
      WrapWorks(n, t, checked, reserving, Do(reserving, Put(t, Works)));
    } else {
      RunThree(n, Check(t), Reserve(t, true), Put(t, outcome));
    }
  }

  lemma WrapWorks(n: Node, t: nat, checked: Node, reserving: Node, written: Node)
    requires t < |n.tasks| && n.tasks[t] == Idle
    requires n.ram.ready && n.ram.reserved <= n.ram.counter < COUNTER_LIMIT
    requires Enabled(n, Check(t)) && checked == Do(n, Check(t))
    requires Enabled(checked, Reserve(t, true)) && reserving == Do(checked, Reserve(t, true))
    requires Enabled(reserving, Put(t, Works)) && written == Do(reserving, Put(t, Works))
    requires var value := Reservation(n.ram.counter);
             written == At(n.(nvs := n.nvs.(reserved := Some(value)), log := n.log + [Landed(value)]), t, Reserved(value))
    ensures Allowed(n, Wrapping(n, t, true, Works))
    ensures After(n, Wrapping(n, t, true, Works)) == Wrapped(n, t, true, Works)
  {
    hide Allowed, After, Enabled, Do, Wrapped, Reservation;
    PublishStep(n, written, t);
    RunFive(n, Check(t), Reserve(t, true), Put(t, Works), Publish(t), Take(t));
  }

  /** The node in which one task stands at another place. */
  function At(n: Node, t: nat, task: Task): Node
    requires t < |n.tasks|
  {
    n.(tasks := n.tasks[t := task])
  }

  lemma FirstSteps(n: Node, t: nat)
    requires t < |n.tasks| && n.tasks[t] == Idle
    ensures Enabled(n, Check(t))
    ensures Do(n, Check(t)) ==
            if !n.ram.ready || n.ram.counter >= COUNTER_LIMIT then n
            else At(n, t, if n.ram.counter >= n.ram.reserved then MustReserve else MayTake)
  {
  }

  lemma ReserveStep(n: Node, m: Node, t: nat, accessible: bool)
    requires t < |n.tasks| && n.tasks[t] == Idle && m == At(n, t, MustReserve)
    ensures Enabled(m, Reserve(t, accessible))
    ensures Do(m, Reserve(t, accessible))
         == if accessible then At(n, t, Reserving(Reservation(n.ram.counter))) else n
  {
    assert n.tasks[t := MustReserve][t := Idle] == n.tasks;
    var moved := Reserving(Reservation(n.ram.counter));
    assert n.tasks[t := MustReserve][t := moved] == n.tasks[t := moved];
  }

  lemma PutStep(n: Node, m: Node, t: nat, outcome: Outcome)
    requires t < |n.tasks| && n.tasks[t] == Idle
    requires m == At(n, t, Reserving(Reservation(n.ram.counter)))
    ensures Enabled(m, Put(t, outcome))
    ensures var value := Reservation(n.ram.counter);
            var stored := if TakesEffect(outcome)
                          then n.(nvs := n.nvs.(reserved := Some(value)), log := n.log + [Landed(value)]) else n;
            Do(m, Put(t, outcome)) == if outcome.Crashes? then Crashed(stored)
                                      else if outcome.Fails? then stored else At(stored, t, Reserved(value))
  {
    var value := m.tasks[t].value;
    assert n.tasks[t := Reserving(value)][t := Idle] == n.tasks;
    assert n.tasks[t := Reserving(value)][t := Reserved(value)] == n.tasks[t := Reserved(value)];
  }

  lemma PublishStep(n: Node, m: Node, t: nat)
    requires t < |n.tasks| && n.tasks[t] == Idle
    requires n.ram.ready && n.ram.reserved <= n.ram.counter < COUNTER_LIMIT
    requires var value := Reservation(n.ram.counter);
             m == At(n.(nvs := n.nvs.(reserved := Some(value)), log := n.log + [Landed(value)]), t, Reserved(value))
    ensures Enabled(m, Publish(t)) && Enabled(Do(m, Publish(t)), Take(t))
    ensures Do(Do(m, Publish(t)), Take(t)) == Wrapped(n, t, true, Works)
  {
    var value := m.tasks[t].value;
    assert n.tasks[t := Reserved(value)][t := MayTake] == n.tasks[t := MayTake];
    assert n.tasks[t := MayTake][t := Idle] == n.tasks;
  }

  lemma LastStep(n: Node, m: Node, t: nat)
    requires t < |n.tasks| && n.tasks[t] == Idle && m == At(n, t, MayTake)
    requires n.ram.counter < n.ram.reserved && n.ram.counter < COUNTER_LIMIT
    ensures Enabled(m, Take(t)) && Do(m, Take(t)) == HandOut(n)
  {
    assert n.tasks[t := MayTake][t := Idle] == n.tasks;
  }

  lemma RunOne(n: Node, a: Event)
    requires Enabled(n, a)
    ensures Allowed(n, [a]) && After(n, [a]) == Do(n, a)
  {
    hide Enabled, Do;
    assert [a][1..] == [];
    assert After(Do(n, a), []) == Do(n, a);
  }

  lemma RunTwo(n: Node, a: Event, b: Event)
    requires Enabled(n, a) && Enabled(Do(n, a), b)
    ensures Allowed(n, [a, b]) && After(n, [a, b]) == Do(Do(n, a), b)
  {
    hide Enabled, Do;
    RunOne(Do(n, a), b);
    assert [a, b][1..] == [b];
  }

  lemma RunThree(n: Node, a: Event, b: Event, c: Event)
    requires Enabled(n, a) && Enabled(Do(n, a), b) && Enabled(Do(Do(n, a), b), c)
    ensures Allowed(n, [a, b, c]) && After(n, [a, b, c]) == Do(Do(Do(n, a), b), c)
  {
    hide Enabled, Do;
    RunTwo(Do(n, a), b, c);
    assert [a, b, c][1..] == [b, c];
  }

  lemma RunFive(n: Node, a: Event, b: Event, c: Event, d: Event, e: Event)
    requires Enabled(n, a) && Enabled(Do(n, a), b) && Enabled(Do(Do(n, a), b), c)
    requires var m := Do(Do(Do(n, a), b), c); Enabled(m, d) && Enabled(Do(m, d), e)
    ensures Allowed(n, [a, b, c, d, e]) && After(n, [a, b, c, d, e]) == Do(Do(Do(Do(Do(n, a), b), c), d), e)
  {
    hide Enabled, Do;
    RunThree(Do(Do(n, a), b), c, d, e);
    assert [b, c, d, e][1..] == [c, d, e];
    assert [a, b, c, d, e][1..] == [b, c, d, e];
  }

  /** The largest reservation that has reached storage since the load, the loaded one included. */
  function Highest(log: seq<Entry>): nat {
    if log == [] then 0
    else
      var rest, last := Highest(log[..|log| - 1]), log[|log| - 1];
      if last.Handed? || last.value <= rest then rest else last.value
  }

  /** The counters handed out since the load, in order. */
  function Hands(log: seq<Entry>): (hands: seq<nat>)
    ensures |hands| <= |log|
  {
    if log == [] then []
    else
      var rest, last := Hands(log[..|log| - 1]), log[|log| - 1];
      if last.Handed? then rest + [last.value] else rest
  }

  // ---------------------------------------------------------------- within one load, any interleaving

  /** No value is handed out before a larger one is in storage. */
  predicate Covered(log: seq<Entry>) {
    forall i | 0 <= i < |log| && log[i].Handed? ::
      log[i].value < COUNTER_LIMIT && log[i].value < Highest(log[..i])
  }

  predicate TaskValid(n: Node, task: Task) {
    match task
    case Idle => true
    case Reserving(value) => n.ram.ready && n.ram.counter <= COUNTER_LIMIT
                             && COUNTER_WINDOW <= value <= COUNTER_LIMIT + COUNTER_WINDOW
    case Reserved(value) => n.ram.ready && n.ram.counter <= COUNTER_LIMIT
                            && COUNTER_WINDOW <= value <= COUNTER_LIMIT + COUNTER_WINDOW && value <= Highest(n.log)
    case _ => n.ram.ready && n.ram.counter <= COUNTER_LIMIT
  }

  predicate Counting(n: Node) {
    && n.log != [] && n.log[0].Loaded?
    && COUNTER_WINDOW <= n.log[0].value
    && n.ram.counter == n.log[0].value + |Hands(n.log)|
    && (forall i | 0 <= i < |Hands(n.log)| :: Hands(n.log)[i] == n.log[0].value + i)
    && n.ram.counter <= n.ram.reserved <= Highest(n.log)
    && n.ram.counter <= COUNTER_LIMIT + COUNTER_WINDOW
  }

  predicate Orderly(n: Node) {
    && (if n.ram.ready then Counting(n) else n.log == [])
    && Covered(n.log)
    && (forall t | 0 <= t < |n.tasks| :: TaskValid(n, n.tasks[t]))
    && (n.nvs.reserved.Some? ==> n.nvs.reserved.value <= COUNTER_LIMIT + COUNTER_WINDOW)
  }

  lemma HighestNext(log: seq<Entry>, e: Entry)
    ensures Highest(log) <= Highest(log + [e])
    ensures e.Handed? ==> Highest(log + [e]) == Highest(log)
    ensures !e.Handed? ==> e.value <= Highest(log + [e]) && (e.value >= Highest(log) ==> Highest(log + [e]) == e.value)
    ensures Hands(log + [e]) == if e.Handed? then Hands(log) + [e.value] else Hands(log)
  {
    var longer := log + [e];
    assert longer[..|longer| - 1] == log;
  }

  lemma CoveredNext(log: seq<Entry>, e: Entry)
    requires Covered(log)
    requires e.Handed? ==> e.value < COUNTER_LIMIT && e.value < Highest(log)
    ensures Covered(log + [e])
  {
    var longer := log + [e];
    assert longer[..|log|] == log;
    forall i | 0 <= i < |longer| && longer[i].Handed?
      ensures longer[i].value < COUNTER_LIMIT && longer[i].value < Highest(longer[..i])
    {
      if i < |log| {
        assert longer[..i] == log[..i];
      }
    }
  }

  lemma NothingCovered()
    ensures Covered([]) && Hands([]) == []
  {
  }

  lemma OrderlyLoad(n: Node, access: Access)
    requires Orderly(n) && Quiet(n)
    ensures Orderly(LoadInto(n, access))
  {
    hide Highest, Hands, Covered, Load;
    var m := LoadInto(n, access);
    assert Load(n.nvs, n.ram, access).0 == m.ram;
    NothingCovered();
    if m.ram.ready {
      assert m.log == [] + [Loaded(m.ram.counter)];
      HighestNext([], Loaded(m.ram.counter));
      CoveredNext([], Loaded(m.ram.counter));
    }
  }

  lemma OrderlyProvision(n: Node, e: Event)
    requires Orderly(n) && e.Provision? && Enabled(n, e)
    ensures Orderly(Do(n, e))
  {
    hide Highest, Hands, Covered, Load;
    if e.accessible {
      if e.isKey && n.nvs.key.Some? {
        OrderlyLoad(n, e.access);
      } else if e.rng && e.putPrefix.Works? && e.putReserved.Works? && e.putKey.Works? {
        var ready := n.(keys := n.keys + {e.key}, prefixes := n.prefixes + {e.prefix},
                        drawn := n.drawn + {(e.key, e.prefix)},
                        nvs := Nvs(Some(e.key), Some(e.prefix), Some(COUNTER_WINDOW)));
        OrderlyLoad(ready, e.access);
      } else {
        assert Covered([]) by { NothingCovered(); }
      }
    }
  }

  lemma OrderlyTask(n: Node, e: Event)
    requires Orderly(n) && (e.Check? || e.Reserve? || e.Publish?) && Enabled(n, e)
    ensures Orderly(Do(n, e))
  {
    hide Highest, Hands, Covered;
    var m := Do(n, e);
    forall t | 0 <= t < |m.tasks|
      ensures TaskValid(m, m.tasks[t])
    {
      assert TaskValid(n, n.tasks[t]) && TaskValid(n, n.tasks[e.task]);
    }
  }

  lemma OrderlyPut(n: Node, e: Event)
    requires Orderly(n) && e.Put? && Enabled(n, e)
    ensures Orderly(Do(n, e))
  {
    hide Highest, Hands, Covered;
    var m := Do(n, e);
    var value := n.tasks[e.task].value;
    assert TaskValid(n, n.tasks[e.task]);
    NothingCovered();
    HighestNext(n.log, Landed(value));
    CoveredNext(n.log, Landed(value));
    forall t | 0 <= t < |m.tasks|
      ensures TaskValid(m, m.tasks[t])
    {
      assert TaskValid(n, n.tasks[t]);
    }
  }

  lemma OrderlyTake(n: Node, e: Event)
    requires Orderly(n) && e.Take? && Enabled(n, e)
    ensures Orderly(Do(n, e))
  {
    hide Highest, Hands, Covered;
    var m := Do(n, e);
    assert TaskValid(n, n.tasks[e.task]);
    if m.log != n.log {
      HighestNext(n.log, Handed(n.ram.counter));
      CoveredNext(n.log, Handed(n.ram.counter));
    }
    forall t | 0 <= t < |m.tasks|
      ensures TaskValid(m, m.tasks[t])
    {
      assert TaskValid(n, n.tasks[t]);
    }
  }

  lemma OrderlyStep(n: Node, e: Event)
    requires Orderly(n) && Enabled(n, e)
    ensures Orderly(Do(n, e))
  {
    hide Highest, Hands, Load;
    match e
    case Begin(access) => OrderlyLoad(n, access);
    case Provision(_, _, _, _, _, _, _, _, _) => OrderlyProvision(n, e);
    case Put(_, _) => OrderlyPut(n, e);
    case Take(_) => OrderlyTake(n, e);
    case Check(_) => OrderlyTask(n, e);
    case Reserve(_, _) => OrderlyTask(n, e);
    case Publish(_) => OrderlyTask(n, e);
    case _ =>
  }

  lemma {:induction false} OrderlyRun(n: Node, events: seq<Event>)
    requires Orderly(n) && Allowed(n, events)
    ensures Orderly(After(n, events))
    decreases |events|
  {
    if events != [] {
      OrderlyStep(n, events[0]);
      OrderlyRun(Do(n, events[0]), events[1..]);
    }
  }

  /** A value above `v` was loaded, or had reached storage, among these entries. */
  predicate Backed(log: seq<Entry>, v: nat) {
    exists j :: 0 <= j < |log| && !log[j].Handed? && log[j].value > v
  }

  lemma {:induction false} HighestIsBacked(log: seq<Entry>, v: nat)
    requires v < Highest(log)
    ensures Backed(log, v)
  {
    var shorter, last := log[..|log| - 1], log[|log| - 1];
    if v < Highest(shorter) {
      HighestIsBacked(shorter, v);
      var j :| 0 <= j < |shorter| && !shorter[j].Handed? && shorter[j].value > v;
      assert log[j] == shorter[j];
    } else {
      assert !log[|log| - 1].Handed? && log[|log| - 1].value > v;
    }
  }

  /** Whatever the number of tasks and their interleaving, since the load the counters handed out are
      consecutive, none reaches the limit, so none wraps around 32 bits, and each was preceded by a
      larger value that was loaded from or written to storage. */
  lemma HandedOutInOrder(tasks: nat, events: seq<Event>)
    requires Allowed(Factory(tasks), events)
    ensures var log := After(Factory(tasks), events).log;
            && (forall i | 0 <= i < |Hands(log)| - 1 :: Hands(log)[i + 1] == Hands(log)[i] + 1)
            && (forall i | 0 <= i < |log| && log[i].Handed? ::
                  log[i].value < COUNTER_LIMIT < COUNTER_VALUES && Backed(log[..i], log[i].value))
  {
    OrderlyRun(Factory(tasks), events);
    var n := After(Factory(tasks), events);
    forall i | 0 <= i < |n.log| && n.log[i].Handed?
      ensures Backed(n.log[..i], n.log[i].value)
    {
      HighestIsBacked(n.log[..i], n.log[i].value);
    }
  }
}
