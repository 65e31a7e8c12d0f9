/** kernel/reflex_sched.c: the task table between cooperative switch points.

    A saved context is opaque: what a task does between two switch points is not part of this
    module, only what it does to the table. */
module Sched {
  import opened Arith
  import opened Errors

  const MAX_TASKS: nat := 16
  const TICK_HZ: nat := 1000
  const MIN_STACK: nat := 1024
  const HALF: int := 0x8000_0000
  /** No task: the null pointer for a slot, and the index -1. */
  const NOBODY: int := -1

  datatype TaskState = Free | Ready | Running | Blocked | Dead

  /** A control block; `blockedOn` names the queue a task waits on. */
  datatype Tcb = Tcb(state: TaskState, priority: int, wakeTick: nat, stackSize: nat, hasStack: bool, started: bool,
                     blockedOn: Option<nat>, deadlineValid: bool)

  const EMPTY: Tcb := Tcb(Free, 0, 0, 0, false, false, None, false)

  // ---- Time ----

  /** The conversion at a tick rate: 64-bit, then clamped to 32 bits. */
  function TicksAt(ms: nat, hz: nat): (ticks: nat)
    ensures ticks < U32
  {
    var ticks := ms * hz / 1000;
    if ticks > 0xFFFF_FFFF then 0xFFFF_FFFF else ticks
  }

  function MsToTicks(ms: nat): nat { TicksAt(ms, TICK_HZ) }

  /** Longer waits never become shorter ones, at any rate; at 1000 Hz nothing is lost. */
  lemma TicksGrow(ms: nat, longer: nat, hz: nat)
    requires ms <= longer
    ensures TicksAt(ms, hz) <= TicksAt(longer, hz)
    ensures ms < U32 ==> MsToTicks(ms) == ms
  {
    assert ms * hz <= longer * hz;
    DivGrows(ms * hz, longer * hz);
  }

  /** The clamped conversion is the largest 32-bit count of whole ticks that fits in the time asked for. */
  lemma TicksFit(ms: nat, hz: nat, other: nat)
    requires other < U32 && other * 1000 <= ms * hz
    ensures TicksAt(ms, hz) * 1000 <= ms * hz && other <= TicksAt(ms, hz)
  {
    DivBounds(ms * hz, other);
  }

  lemma DivBounds(n: nat, k: nat)
    requires k * 1000 <= n
    ensures n / 1000 * 1000 <= n && k <= n / 1000
  {
  }

  lemma DivGrows(a: nat, b: nat)
    requires a <= b
    ensures a / 1000 <= b / 1000
  {
  }

  /** A 32-bit word read as signed is not negative. */
  predicate NotNegative(x: nat) { x < HALF }

  predicate TickReached(now: nat, deadline: nat)
    requires now < U32 && deadline < U32
  {
    NotNegative(USub(now, deadline))
  }

  predicate ShouldTimeWake(t: Tcb, now: nat)
    requires now < U32 && t.wakeTick < U32
  {
    t.state == Blocked && t.deadlineValid && TickReached(now, t.wakeTick)
  }

  /** The counter after n ticks since start-up. */
  function Wrapped(n: nat): (w: nat)
    ensures w < U32
  {
    n % 0x1_0000_0000
  }

  /** Of two moments, counted without wrapping, less than 2^31 ticks apart, the test says which came first. */
  lemma TickReachedIsOrder(now: nat, deadline: nat)
    requires -HALF <= now - deadline < HALF
    ensures TickReached(Wrapped(now), Wrapped(deadline)) <==> now >= deadline
  {
    var a, b := now / 0x1_0000_0000, deadline / 0x1_0000_0000;
    assert now == a * 0x1_0000_0000 + Wrapped(now) && deadline == b * 0x1_0000_0000 + Wrapped(deadline);
    assert -1 <= a - b <= 1;
  }

  lemma WrappedSum(n: nat, d: nat)
    requires d < U32
    ensures Wrapped(n + d) == UAdd(Wrapped(n), d)
  {
    var a := n / 0x1_0000_0000;
    assert n == a * 0x1_0000_0000 + Wrapped(n);
  }

  /** Of `e` ticks since the start of a wait of `d`, the 32-bit test says that it is over. */
  predicate Due(e: nat, d: nat) { (e - d) % 0x1_0000_0000 < HALF }

  /** For a wait of at most 2^31 ticks that is what it says, for 2^31 ticks after the end. */
  lemma DueIsOver(e: nat, d: nat)
    requires d <= HALF && e < d + HALF
    ensures Due(e, d) <==> e >= d
  {
  }

  /** And only for those: a longer wait is over before it has begun. */
  lemma NeverEarlyExactly(d: nat)
    requires d < U32
    ensures (forall e: nat :: e < d ==> !Due(e, d)) <==> d <= HALF
  {
    if d > HALF {
      assert Due(0, d);
    }
  }

  lemma WrappedMinus(n: nat, m: nat)
    ensures USub(Wrapped(n), Wrapped(m)) == (n - m) % 0x1_0000_0000
  {
    var a, b := n / 0x1_0000_0000, m / 0x1_0000_0000;
    assert n == a * 0x1_0000_0000 + Wrapped(n) && m == b * 0x1_0000_0000 + Wrapped(m);
    var r := USub(Wrapped(n), Wrapped(m));
    var q := a - b - (if Wrapped(n) < Wrapped(m) then 1 else 0);
    assert n - m == q * 0x1_0000_0000 + r;
    DivModUnique(q, 0x1_0000_0000, r);
  }

  /** The test on the counters, `e` ticks after a wait of `d` began at `asked`. */
  lemma ReachedIsDue(asked: nat, d: nat, e: nat)
    requires d < U32
    ensures TickReached(Wrapped(asked + e), UAdd(Wrapped(asked), d)) <==> Due(e, d)
  {
    WrappedSum(asked, d);
    WrappedMinus(asked + e, asked + d);
  }

  /** The ticks a delay of `ms` lasts. */
  function DelayTicks(ms: nat): (d: nat)
    requires ms < U32
    ensures 1 <= d < U32
  {
    var t := MsToTicks(ms);
    if t == 0 then 1 else t
  }

  /** A task that asked at tick `asked` to sleep for `ms` is woken by a sweep at tick `now` exactly when
      that long has passed. */
  lemma DelayIsExact(t: Tcb, asked: nat, ms: nat, now: nat)
    requires ms < HALF && asked <= now && now - asked < HALF + DelayTicks(ms)
    requires t.state == Blocked && t.deadlineValid && t.wakeTick == UAdd(Wrapped(asked), DelayTicks(ms))
    ensures DelayTicks(ms) == if ms == 0 then 1 else ms
    ensures ShouldTimeWake(t, Wrapped(now)) <==> now - asked >= DelayTicks(ms)
  {
    WrappedSum(asked, DelayTicks(ms));
    TickReachedIsOrder(now, asked + DelayTicks(ms));
  }

  /** The clock alone never wakes a task that waits without a deadline. */
  lemma UntimedNeverWoken(t: Tcb, now: nat)
    requires now < U32 && t.wakeTick < U32 && !t.deadlineValid
    ensures Swept(t, now) == t
  {
  }

  // ---- One control block ----

  /** Collect a retired task. */
  function Reaped(t: Tcb): Tcb
  {
    if t.state == Dead then Tcb(Free, t.priority, 0, 0, false, false, None, false) else t
  }

  function Woken(t: Tcb): Tcb { t.(blockedOn := None, deadlineValid := false, state := Ready) }

  function Swept(t: Tcb, now: nat): Tcb
    requires now < U32 && t.wakeTick < U32
  {
    if ShouldTimeWake(t, now) then Woken(t) else t
  }

  /** A task that waits on queue q. */
  function ParkedOn(t: Tcb, q: nat, deadline: nat, forever: bool): Tcb
  {
    t.(blockedOn := Some(q), wakeTick := deadline, deadlineValid := !forever, state := Blocked)
  }

  /** What every block satisfies: only a blocked task, or one that was blocked when it was deleted, waits on anything. */
  ghost predicate Tidy(t: Tcb)
  {
    && t.wakeTick < U32
    && (t.state != Blocked && t.state != Dead ==> t.blockedOn == None && !t.deadlineValid)
  }

  // ---- Choosing ----

  /** How many slots after `begin` slot i comes in the cyclic scan. */
  function Distance(begin: nat, i: nat, n: nat): (d: nat)
    requires begin < n && i < n
    ensures d < n
  {
    if i >= begin then i - begin else i + n - begin
  }

  /** The choice of reflex_sched_select: of the ready tasks of highest priority, the one the scan meets first. */
  ghost predicate Chosen(ts: seq<Tcb>, begin: nat, idx: int)
    requires begin < |ts|
  {
    if idx == NOBODY then forall j :: 0 <= j < |ts| ==> ts[j].state != Ready
    else
      && 0 <= idx < |ts| && ts[idx].state == Ready
      && forall j :: 0 <= j < |ts| && ts[j].state == Ready ==>
           && ts[j].priority <= ts[idx].priority
           && (ts[j].priority == ts[idx].priority ==> Distance(begin, idx, |ts|) <= Distance(begin, j, |ts|))
  }

  lemma ChosenIsUnique(ts: seq<Tcb>, begin: nat, a: int, b: int)
    requires begin < |ts| && Chosen(ts, begin, a) && Chosen(ts, begin, b)
    ensures a == b
  {
    if a != NOBODY && b != NOBODY {
      assert ts[a].state == Ready && ts[b].state == Ready;
    }
  }

  /** A start index brought into range, as C's remainder and the correction do. */
  function Begin(start: int, n: nat): (b: nat)
    requires n > 0
    ensures b < n
  {
    start % n
  }

  method Select(ts: array<Tcb>, count: nat, start: int) returns (best: int)
    requires 0 < count <= ts.Length
    ensures Chosen(ts[..count], Begin(start, count), best)
  {
    var begin := Begin(start, count);
    best := NOBODY;
    for i := 0 to count
      invariant ChosenSoFar(ts[..count], begin, i, best)
    {
      var idx := (begin + i) % count;
      ScanPosition(begin, i, count);
      if ts[idx].state == Ready {
        if best < 0 || ts[idx].priority > ts[best].priority {
          best := idx;
        }
      }
    }
  }

  /** The best of the first i slots of the scan. */
  ghost predicate ChosenSoFar(ts: seq<Tcb>, begin: nat, i: nat, best: int)
    requires begin < |ts|
  {
    if best == NOBODY then forall j :: 0 <= j < |ts| && Distance(begin, j, |ts|) < i ==> ts[j].state != Ready
    else
      && 0 <= best < |ts| && ts[best].state == Ready && Distance(begin, best, |ts|) < i
      && forall j :: 0 <= j < |ts| && ts[j].state == Ready && Distance(begin, j, |ts|) < i ==>
           && ts[j].priority <= ts[best].priority
           && (ts[j].priority == ts[best].priority ==> Distance(begin, best, |ts|) <= Distance(begin, j, |ts|))
  }

  lemma ScanPosition(begin: nat, i: nat, n: nat)
    requires begin < n && i < n
    ensures (begin + i) % n == if begin + i < n then begin + i else begin + i - n
    ensures Distance(begin, (begin + i) % n, n) == i
  {
    if begin + i < n {
      DivModUnique(0, n, begin + i);
    } else {
      DivModUnique(1, n, begin + i - n);
    }
  }

  // ---- The table ----

  function ReapedAll(ts: seq<Tcb>): (rs: seq<Tcb>)
    ensures |rs| == |ts|
  {
    seq(|ts|, i requires 0 <= i < |ts| => Reaped(ts[i]))
  }

  function SweptAll(ts: seq<Tcb>, now: nat): (rs: seq<Tcb>)
    requires now < U32 && forall i :: 0 <= i < |ts| ==> ts[i].wakeTick < U32
    ensures |rs| == |ts|
  {
    seq(|ts|, i requires 0 <= i < |ts| => Swept(ts[i], now))
  }

  ghost predicate TidyTable(ts: seq<Tcb>)
  {
    |ts| == MAX_TASKS && forall i :: 0 <= i < |ts| ==> Tidy(ts[i])
  }

  lemma ReapedTidy(ts: seq<Tcb>)
    requires TidyTable(ts)
    ensures TidyTable(ReapedAll(ts))
  {
    forall i | 0 <= i < |ts| ensures Tidy(ReapedAll(ts)[i]) {
      assert Tidy(ts[i]);
    }
  }

  /** The table a decision chooses from: retired tasks collected, due sleepers woken. */
  ghost function DecisionTable(ts: seq<Tcb>, now: nat): (rs: seq<Tcb>)
    requires TidyTable(ts) && now < U32
    ensures |rs| == MAX_TASKS
  {
    ReapedTidy(ts);
    assert forall i :: 0 <= i < |ts| ==> Tidy(ReapedAll(ts)[i]);
    SweptAll(ReapedAll(ts), now)
  }

  /** What a decision makes of one block: a retired one is collected, a due one is ready and waits on nothing,
      and any other stays as it is. */
  lemma DecisionMeans(ts: seq<Tcb>, now: nat, i: nat)
    requires TidyTable(ts) && now < U32 && i < MAX_TASKS
    ensures var t, r := ts[i], DecisionTable(ts, now)[i];
      var due := t.state == Blocked && t.deadlineValid && (now - t.wakeTick) % 0x1_0000_0000 < HALF;
      && (due ==>
            && r.state == Ready && r.blockedOn == None && !r.deadlineValid && r.wakeTick == t.wakeTick
            && r.priority == t.priority && r.stackSize == t.stackSize && r.hasStack == t.hasStack && r.started == t.started)
      && (t.state == Dead ==>
            && r.state == Free && r.blockedOn == None && !r.deadlineValid && r.wakeTick == 0
            && r.priority == t.priority && r.stackSize == 0 && !r.hasStack && !r.started)
      && (!due && t.state != Dead ==> r == t)
  {
    assert Tidy(ts[i]) && Tidy(ReapedAll(ts)[i]);
    assert Wrapped(now) == now && Wrapped(ts[i].wakeTick) == ts[i].wakeTick;
    WrappedMinus(now, ts[i].wakeTick);
  }

  /** The first slot at i or later in a state, or the length. */
  function FindState(ts: seq<Tcb>, s: TaskState, i: nat): (k: nat)
    requires i <= |ts|
    ensures i <= k <= |ts| && (k < |ts| ==> ts[k].state == s)
    ensures forall j :: i <= j < k ==> ts[j].state != s
    decreases |ts| - i
  {
    if i == |ts| || ts[i].state == s then i else FindState(ts, s, i + 1)
  }

  /** Only the current task runs. */
  ghost predicate OneRuns(ts: seq<Tcb>, current: int)
  {
    && -1 <= current < |ts|
    && forall i :: 0 <= i < |ts| && i != current ==> ts[i].state != Running
  }

  /** The current slot after collection: forgotten if the task in it retired. */
  function StillCurrent(ts: seq<Tcb>, current: int): int
    requires -1 <= current < |ts|
  {
    if current >= 0 && Reaped(ts[current]).state == Free then NOBODY else current
  }

  /** Where the scan of a decision starts. */
  function ScanStart(current: int): int { if current >= 0 then current + 1 else 0 }

  /** The choice a decision makes: collect, forget a retired current task, wake what is due, and scan. */
  ghost predicate Picks(ts: seq<Tcb>, current: int, now: nat, idx: int)
    requires TidyTable(ts) && -1 <= current < MAX_TASKS && now < U32
  {
    Chosen(DecisionTable(ts, now), Begin(ScanStart(StillCurrent(ts, current)), MAX_TASKS), idx)
  }

  /** The table when task idx has been given the processor. */
  function Dispatched(ts: seq<Tcb>, idx: nat): (rs: seq<Tcb>)
    requires idx < |ts|
    ensures |rs| == |ts|
  {
    ts[idx := ts[idx].(state := Running, started := true)]
  }

  class Scheduler {
    const tasks: array<Tcb>
    var current: int
    var tick: nat
    var started: bool

    ghost predicate Valid()
      reads this, tasks
    {
      TidyTable(tasks[..]) && OneRuns(tasks[..], current) && tick < U32
    }

    constructor ()
      ensures Valid() && fresh(tasks) && current == NOBODY && tick == 0 && !started
      ensures forall i :: 0 <= i < MAX_TASKS ==> tasks[i] == EMPTY
    {
      tasks := new Tcb[MAX_TASKS](_ => EMPTY);
      current, tick, started := NOBODY, 0, false;
    }

    /** reflex_sched_init: an empty table but for the idle task, in the lowest slot and of priority 0. */
    method Init()
      requires Valid()
      modifies this, tasks
      ensures Valid() && current == NOBODY && tick == 0 && !started
      ensures tasks[0] == Tcb(Ready, 0, 0, MIN_STACK, true, false, None, false)
      ensures forall i :: 1 <= i < MAX_TASKS ==> tasks[i] == EMPTY
    {
      for i := 0 to MAX_TASKS
        invariant tasks.Length == MAX_TASKS && forall j :: 0 <= j < i ==> tasks[j] == EMPTY
      {
        tasks[i] := EMPTY;
      }
      current, tick, started := NOBODY, 0, false;
      var err, slot := CreateTask(true, MIN_STACK, 0, true);
    }

    method CreateTask(entry: bool, stackBytes: nat, priority: int, stackFits: bool) returns (err: Err, slot: nat)
      requires Valid()
      modifies tasks
      ensures Valid()
      ensures err == if !entry then InvalidArg
                     else if FindState(old(tasks[..]), Free, 0) == MAX_TASKS || !stackFits then NoMem else Ok
      ensures err == Ok ==>
        && slot == FindState(old(tasks[..]), Free, 0)
        && tasks[..] == old(tasks[..])[slot := Tcb(Ready, priority, 0, if stackBytes < MIN_STACK then MIN_STACK else stackBytes,
                                                   true, false, None, false)]
      ensures err != Ok ==> tasks[..] == old(tasks[..])
    {
      slot := 0;
      if !entry {
        return InvalidArg, 0;
      }
      while slot < MAX_TASKS && tasks[slot].state != Free
        invariant slot <= MAX_TASKS
        invariant FindState(tasks[..], Free, slot) == FindState(tasks[..], Free, 0)
      {
        slot := slot + 1;
      }
      if slot == MAX_TASKS || !stackFits {
        return NoMem, 0;
      }
      tasks[slot] := Tcb(Ready, priority, 0, if stackBytes < MIN_STACK then MIN_STACK else stackBytes, true, false, None, false);
      err := Ok;
    }

    /** reflex_sched_reap over the slots from..to. */
    method Reap(from: nat, to: nat)
      requires Valid() && from <= to <= MAX_TASKS
      modifies tasks
      ensures TidyTable(tasks[..])
      ensures forall i :: 0 <= i < MAX_TASKS ==> tasks[i] == if from <= i < to then Reaped(old(tasks[i])) else old(tasks[i])
    {
      for i := from to to
        invariant forall j :: 0 <= j < MAX_TASKS ==> tasks[j] == if from <= j < i then Reaped(old(tasks[j])) else old(tasks[j])
      {
        if tasks[i].state != Dead {
          continue;
        }
        tasks[i] := Tcb(Free, tasks[i].priority, 0, 0, false, false, None, false);
      }
      forall i | 0 <= i < MAX_TASKS ensures Tidy(tasks[..][i]) {
        assert Tidy(old(tasks[..])[i]);
      }
    }

    /** The sweep of pick_next over the deadlines. */
    method Sweep()
      requires TidyTable(tasks[..]) && tick < U32
      modifies tasks
      ensures TidyTable(tasks[..])
      ensures TidyTable(old(tasks[..])) && tasks[..] == SweptAll(old(tasks[..]), tick)
    {
      ghost var ts := tasks[..];
      for i := 0 to MAX_TASKS
        invariant forall j :: 0 <= j < MAX_TASKS ==> Tidy(ts[j]) && tasks[j] == if j < i then Swept(ts[j], tick) else ts[j]
      {
        if ShouldTimeWake(tasks[i], tick) {
          tasks[i] := Woken(tasks[i]);
        }
      }
    }

    method PickNext() returns (next: int)
      requires Valid()
      modifies this`current, tasks
      ensures Valid()
      ensures tasks[..] == DecisionTable(old(tasks[..]), tick)
      ensures current == StillCurrent(old(tasks[..]), old(current))
      ensures Chosen(tasks[..], Begin(ScanStart(current), MAX_TASKS), next)
      ensures TidyTable(old(tasks[..])) && Picks(old(tasks[..]), old(current), tick, next)
    {
      ghost var ts := tasks[..];
      Reap(0, MAX_TASKS);
      assert tasks[..] == ReapedAll(ts);
      if current >= 0 && tasks[current].state == Free {
        current := NOBODY;
      }
      Sweep();
      var start := if current >= 0 then current + 1 else 0;
      assert tasks[..MAX_TASKS] == tasks[..];
      next := Select(tasks, MAX_TASKS, start);
    }

    /** What the scheduler loop does with its choice. */
    method Dispatch(next: int)
      requires Valid() && 0 <= next < MAX_TASKS && tasks[next].state == Ready
      requires current >= 0 ==> tasks[current].state != Running
      modifies this`current, tasks
      ensures Valid() && current == next
      ensures tasks[..] == Dispatched(old(tasks[..]), next)
    {
      current := next;
      tasks[next] := tasks[next].(state := Running, started := true);
    }

    method Tick()
      requires Valid()
      modifies this`tick
      ensures Valid() && tick == UAdd(old(tick), 1)
    {
      tick := UAdd(tick, 1);
    }

    /** The table's part of a yield: a running task becomes ready, one that has set its own state keeps it. */
    method Yield()
      requires Valid()
      modifies tasks
      ensures Valid()
      ensures tasks[..] == if started && current >= 0 && old(tasks[current]).state == Running
                           then old(tasks[..])[current := old(tasks[current]).(state := Ready)] else old(tasks[..])
    {
      if !started {
        return;
      }
      if current >= 0 {
        if tasks[current].state == Running {
          tasks[current] := tasks[current].(state := Ready);
        }
      }
    }

    method DelayMs(ms: nat)
      requires Valid() && ms < U32
      modifies tasks
      ensures Valid()
      ensures tasks[..] == if started && current >= 0
        then old(tasks[..])[current := old(tasks[current]).(state := Blocked, deadlineValid := true,
                                                             wakeTick := UAdd(tick, DelayTicks(ms)))]
        else old(tasks[..])
    {
      if !started || current < 0 {
        return;
      }
      var ticks := MsToTicks(ms);
      if ticks == 0 {
        ticks := 1;
      }
      tasks[current] := tasks[current].(wakeTick := UAdd(tick, ticks));
      tasks[current] := tasks[current].(deadlineValid := true);
      tasks[current] := tasks[current].(state := Blocked);
      Yield();
    }

    /** The end of a pass of queue_wait that waits: mark the current task blocked on queue q. */
    method Park(q: nat, deadline: nat, forever: bool)
      requires Valid() && current != NOBODY && deadline < U32
      modifies tasks
      ensures Valid() && tasks[..] == old(tasks[..])[current := ParkedOn(old(tasks[current]), q, deadline, forever)]
    {
      tasks[current] := tasks[current].(blockedOn := Some(q));
      tasks[current] := tasks[current].(wakeTick := deadline);
      tasks[current] := tasks[current].(deadlineValid := !forever);
      tasks[current] := tasks[current].(state := Blocked);
    }

    /** `slot` is -1 for a null handle. */
    method DeleteTask(slot: int)
      requires Valid() && -1 <= slot < MAX_TASKS
      modifies tasks
      ensures Valid()
      ensures var who := if slot == NOBODY then current else slot;
        tasks[..] ==
          if who == NOBODY then old(tasks[..])
          else
            var dead := old(tasks[who]).(state := Dead);
            old(tasks[..])[who := if who != current && !started then Reaped(dead) else dead]
    {
      if slot == NOBODY || slot == current {
        if current >= 0 {
          tasks[current] := tasks[current].(state := Dead);
          Yield();
        }
        return;
      }
      tasks[slot] := tasks[slot].(state := Dead);
      if !started {
        Reap(slot, slot + 1);
      }
    }

    method SetPriority(slot: nat, priority: int)
      requires Valid() && slot < MAX_TASKS
      modifies tasks
      ensures Valid() && tasks[..] == old(tasks[..])[slot := old(tasks[slot]).(priority := priority)]
    {
      tasks[slot] := tasks[slot].(priority := priority);
    }

    /** wake_one_waiter: the lowest slot parked on queue q. */
    method WakeOneWaiter(q: nat)
      requires Valid()
      modifies tasks
      ensures Valid() && tasks[..] == WokenOne(old(tasks[..]), q)
    {
      for i := 0 to MAX_TASKS
        invariant tasks[..] == old(tasks[..])
        invariant forall j :: 0 <= j < i ==> !WaitsOn(tasks[j], q)
      {
        if tasks[i].state == Blocked && tasks[i].blockedOn == Some(q) {
          FirstWaiterIs(tasks[..], q, i);
          tasks[i] := Woken(tasks[i]);
          return;
        }
      }
      FirstWaiterIs(tasks[..], q, MAX_TASKS);
    }
  }

  predicate WaitsOn(t: Tcb, q: nat)
  {
    t.state == Blocked && t.blockedOn == Some(q)
  }

  /** The lowest slot parked on queue q, or the length. */
  function FirstWaiter(ts: seq<Tcb>, q: nat): (k: nat)
    ensures k <= |ts| && (k < |ts| ==> WaitsOn(ts[k], q))
    ensures forall j :: 0 <= j < k ==> !WaitsOn(ts[j], q)
  {
    if ts == [] || WaitsOn(ts[0], q) then 0 else 1 + FirstWaiter(ts[1..], q)
  }

  function WokenOne(ts: seq<Tcb>, q: nat): (rs: seq<Tcb>)
    ensures |rs| == |ts|
  {
    var k := FirstWaiter(ts, q);
    if k < |ts| then ts[k := Woken(ts[k])] else ts
  }

  lemma FirstWaiterIs(ts: seq<Tcb>, q: nat, k: nat)
    requires k <= |ts| && (k < |ts| ==> WaitsOn(ts[k], q)) && forall j :: 0 <= j < k ==> !WaitsOn(ts[j], q)
    ensures FirstWaiter(ts, q) == k
  {
  }

  /** What a wakeup does: the lowest task that waits on the queue is ready and waits on nothing; no other block changes. */
  lemma WokenMeans(ts: seq<Tcb>, q: nat, i: nat)
    requires i < |ts|
    ensures var t, r := ts[i], WokenOne(ts, q)[i];
      if t.state == Blocked && t.blockedOn == Some(q)
         && forall j :: 0 <= j < i ==> !(ts[j].state == Blocked && ts[j].blockedOn == Some(q))
      then
        && r.state == Ready && r.blockedOn == None && !r.deadlineValid && r.wakeTick == t.wakeTick
        && r.priority == t.priority && r.stackSize == t.stackSize && r.hasStack == t.hasStack && r.started == t.started
      else r == t
  {
    var k := FirstWaiter(ts, q);
    if i > k {
      assert WaitsOn(ts[k], q);
    }
    assert forall j :: 0 <= j < i ==> (WaitsOn(ts[j], q) <==> ts[j].state == Blocked && ts[j].blockedOn == Some(q));
  }

  // ---- Decisions ----

  /** While the idle task in slot 0 only ever yields, a decision finds a task. */
  lemma IdleIsFound(ts: seq<Tcb>, now: nat, begin: nat, idx: int)
    requires TidyTable(ts) && now < U32 && ts[0].state == Ready && begin < MAX_TASKS
    requires Chosen(DecisionTable(ts, now), begin, idx)
    ensures idx != NOBODY
  {
    assert DecisionTable(ts, now)[0].state == Ready;
  }

  /** A task that is ready at the highest priority. */
  ghost predicate TopReady(ts: seq<Tcb>, k: nat)
  {
    k < |ts| && ts[k].state == Ready && forall j :: 0 <= j < |ts| && ts[j].state == Ready ==> ts[j].priority <= ts[k].priority
  }

  /** A decision that passes over a top task starts the next scan closer to it. */
  lemma ScanGetsCloser(ts: seq<Tcb>, begin: nat, idx: int, k: nat)
    requires begin < |ts| && TopReady(ts, k) && Chosen(ts, begin, idx)
    ensures 0 <= idx < |ts|
    ensures idx != k ==> Distance(Begin(idx + 1, |ts|), k, |ts|) < Distance(begin, k, |ts|)
  {
    assert ts[k].state == Ready;
    if idx != k {
      ScanPosition(idx, 1, |ts|);
    }
  }

  /** One decision: the table it scans, where it starts, and what it takes. */
  datatype Decision = Decision(table: seq<Tcb>, begin: nat, idx: int)

  ghost predicate Taken(d: Decision)
  {
    |d.table| == MAX_TASKS && d.begin < MAX_TASKS && Chosen(d.table, d.begin, d.idx)
  }

  /** Decisions with no retirement of the task that ran in between: each scan starts after the last choice,
      and anything else may have happened to the table. */
  ghost predicate Unbroken(ds: seq<Decision>)
  {
    && (forall n :: 0 <= n < |ds| ==> Taken(ds[n]))
    && (forall n :: 0 < n < |ds| ==> ds[n].begin == Begin(ds[n - 1].idx + 1, MAX_TASKS))
  }

  lemma {:induction false} RunsWithin(ds: seq<Decision>, k: nat)
    requires Unbroken(ds) && k < MAX_TASKS && |ds| > 0
    requires forall n :: 0 <= n < |ds| ==> TopReady(ds[n].table, k)
    requires |ds| > Distance(ds[0].begin, k, MAX_TASKS)
    ensures exists n :: 0 <= n < |ds| && ds[n].idx == k
    decreases |ds|
  {
    var d := ds[0];
    ScanGetsCloser(d.table, d.begin, d.idx, k);
    if d.idx != k {
      assert ds[1].begin == Begin(d.idx + 1, MAX_TASKS);
      RunsWithin(ds[1..], k);
      var n :| 0 <= n < |ds[1..]| && ds[1..][n].idx == k;
      assert ds[n + 1].idx == k;
    }
  }

  /** A task that stays ready at top priority is taken within sixteen decisions. */
  lemma TopTaskRuns(ds: seq<Decision>, k: nat)
    requires Unbroken(ds) && k < MAX_TASKS && |ds| == MAX_TASKS
    requires forall n :: 0 <= n < |ds| ==> TopReady(ds[n].table, k)
    ensures exists n :: 0 <= n < |ds| && ds[n].idx == k
  {
    RunsWithin(ds, k);
  }

  // ---- What a blocked mark means ----

  /** A task deleted while it waits keeps its mark until it is collected. */
  lemma DeletedWaiterKeepsMark(t: Tcb, q: nat)
    requires Tidy(t) && WaitsOn(t, q)
    ensures Tidy(t.(state := Dead)) && t.(state := Dead).blockedOn == Some(q)
    ensures !WaitsOn(t.(state := Dead), q) && Reaped(t.(state := Dead)).blockedOn == None
  {
  }
}
