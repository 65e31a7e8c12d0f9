/** Blocking send and receive of kernel/reflex_sched.c over one queue, in any interleaving of cooperative switch points. */
module QueueWait {
  import opened Arith
  import opened Errors
  import opened Sched
  import KQueue

  type Item = seq<bv8>

  /** The queue the model watches; tasks may wait on others. */
  const QUEUE: nat := 0

  /** A send or receive in progress in queue_wait. */
  datatype Call = NoCall | Call(sending: bool, item: Item, forever: bool, deadline: nat)

  /** REFLEX_SCHED_WAIT_FOREVER. */
  const FOREVER: nat := 0xFFFF_FFFF

  /** A call with a timeout of `ms` that begins when the counter stands at `tick`. */
  function CallAt(tick: nat, sending: bool, item: Item, ms: nat): (c: Call)
    requires tick < U32 && ms < U32
    ensures c.Call? && c.deadline < U32
  {
    Call(sending, item, ms == FOREVER, if ms == FOREVER then 0 else UAdd(tick, MsToTicks(ms)))
  }

  datatype Verdict = Done | TimedOut | Parks

  datatype State = State(ts: seq<Tcb>, current: int, calls: seq<Call>, ring: seq<Item>, cap: nat,
                         sent: seq<Item>, got: seq<Item>, tick: nat)

  function ParkedTcb(t: Tcb, q: nat, c: Call): Tcb
    requires c.Call?
  {
    ParkedOn(t, q, c.deadline, c.forever)
  }

  function VerdictOf(ring: seq<Item>, cap: nat, c: Call, tick: nat): Verdict
    requires c.Call? && c.deadline < U32 && tick < U32
  {
    if Able(ring, cap, c.sending) then Done
    else if !c.forever && TickReached(tick, c.deadline) then TimedOut
    else Parks
  }

  function TableAfter(ts: seq<Tcb>, q: nat, i: nat, c: Call, v: Verdict): (rs: seq<Tcb>)
    requires i < |ts| && c.Call?
    ensures |rs| == |ts|
  {
    match v
    case Done => WokenOne(ts, q)
    case TimedOut => ts
    case Parks => ts[i := ParkedTcb(ts[i], q, c)]
  }

  function RingAfter(ring: seq<Item>, c: Call, v: Verdict): seq<Item>
    requires c.Call? && (v == Done && !c.sending ==> |ring| > 0)
  {
    if v != Done then ring else if c.sending then ring + [c.item] else ring[1..]
  }

  /** There is room to send, or an item to receive. */
  predicate Able(ring: seq<Item>, cap: nat, sending: bool) { if sending then |ring| < cap else |ring| > 0 }

  /** `e` ticks after it began, a call with a timeout of `ms` is over. */
  predicate TimeIsUp(ms: nat, e: nat) { ms != FOREVER && Due(e, ms) }

  /** For a timeout of up to 2^31 ms that is so from `ms` ticks on, for another 2^31. */
  lemma UpAtTimeout(ms: nat, e: nat)
    requires ms <= HALF && e < ms + HALF
    ensures TimeIsUp(ms, e) <==> e >= ms
  {
    DueIsOver(e, ms);
  }

  /** A longer one is up when the call begins. */
  lemma LongTimesOutAtOnce(ms: nat)
    requires HALF < ms < FOREVER
    ensures TimeIsUp(ms, 0)
  {
  }

  /** The test of the loop, at tick `now` in a call that began at tick `asked`, both counted without wrapping. */
  lemma UpIsReached(asked: nat, now: nat, c: Call, ms: nat)
    requires c.Call? && ms < U32 && asked <= now && c == CallAt(Wrapped(asked), c.sending, c.item, ms)
    ensures TimeIsUp(ms, now - asked) <==> !c.forever && TickReached(Wrapped(now), c.deadline)
    ensures (c.forever <==> ms == FOREVER) && (ms != FOREVER ==> c.deadline == Wrapped(asked + ms))
  {
    TicksGrow(ms, ms, TICK_HZ);
    WrappedSum(asked, ms);
    ReachedIsDue(asked, ms, now - asked);
  }

  /** Between two tables task i has parked on queue q, for `ms` from tick `asked` on or for ever. */
  ghost predicate WaitsFrom(ts: seq<Tcb>, rs: seq<Tcb>, i: nat, q: nat, asked: nat, ms: nat)
  {
    && i < |ts| == |rs| && rs[i].state == Blocked && rs[i].blockedOn == Some(q)
    && (rs[i].deadlineValid <==> ms != FOREVER) && (ms != FOREVER ==> rs[i].wakeTick == Wrapped(asked + ms))
    && rs[i].priority == ts[i].priority && rs[i].stackSize == ts[i].stackSize
    && rs[i].hasStack == ts[i].hasStack && rs[i].started == ts[i].started
    && forall j :: 0 <= j < |ts| && j != i ==> rs[j] == ts[j]
  }

  /** The head of queue_wait, which fixes the deadline. */
  method BeginCall(s: Scheduler, sending: bool, item: Item, ms: nat) returns (c: Call)
    requires s.Valid() && ms < U32
    ensures c == CallAt(s.tick, sending, item, ms)
  {
    var forever := ms == FOREVER;
    var deadline := 0;
    if !forever {
      deadline := UAdd(s.tick, MsToTicks(ms));
    }
    c := Call(sending, item, forever, deadline);
  }

  /** One pass of the loop in queue_wait, from its critical section to the return or the yield, at tick `now` of a call
      that began at tick `asked` with a timeout of `ms`; `discard` is a null receive buffer. */
  method TryOnce(s: Scheduler, q: KQueue.Queue<Item>, id: nat, c: Call, discard: bool,
                 ghost asked: nat, ghost now: nat, ghost ms: nat)
    returns (err: Err, v: Verdict, got: Option<Item>)
    requires s.Valid() && q.Valid() && c.Call? && ms < U32 && c == CallAt(Wrapped(asked), c.sending, c.item, ms)
    requires asked <= now && s.tick == Wrapped(now)
    modifies s.tasks, q, q.storage
    ensures s.Valid() && q.Valid()
    ensures v == Parks ==> s.started && s.current != NOBODY
    ensures s.started && s.current != NOBODY ==>
      && v == VerdictOf(old(q.Contents()), Room(q), c, s.tick)
      && s.tasks[..] == TableAfter(old(s.tasks[..]), id, s.current, c, v)
    ensures !(s.started && s.current != NOBODY) ==> (v == Done <==> Able(old(q.Contents()), Room(q), c.sending))
    ensures Able(old(q.Contents()), Room(q), c.sending) ==> v == Done && err == Ok
    ensures !Able(old(q.Contents()), Room(q), c.sending) ==>
      && (err == Timeout <==> !s.started || s.current == NOBODY || TimeIsUp(ms, now - asked))
      && (err == Timeout ==> v == TimedOut && s.tasks[..] == old(s.tasks[..]))
      && (err != Timeout ==> err == Ok && v == Parks && WaitsFrom(old(s.tasks[..]), s.tasks[..], s.current, id, asked, ms))
    ensures q.Contents() == RingAfter(old(q.Contents()), c, v)
    ensures err == (if v == TimedOut then Timeout else Ok)
    ensures v == Done && !c.sending && !discard ==> got == Some(old(q.Contents())[0])
  {
    UpIsReached(asked, now, c, ms);
    got := None;
    var done;
    if c.sending {
      done := q.TrySend(Some(c.item));
    } else {
      done, got := q.TryRecv(discard);
    }
    if done {
      s.WakeOneWaiter(id);
      return Ok, Done, got;
    }
    if !s.started || s.current == NOBODY {
      return Timeout, TimedOut, None;
    }
    if !c.forever && TickReached(s.tick, c.deadline) {
      return Timeout, TimedOut, None;
    }
    s.Park(id, c.deadline, c.forever);
    return Ok, Parks, None;
  }

  /** How many items a queue can hold; once destroyed, none. */
  ghost function Room(q: KQueue.Queue<Item>): nat
    reads q
  {
    if q.storage == null then 0 else q.length
  }

  // ---- Any interleaving ----

  /** A step between two switch points. */
  datatype Step =
    | Run(i: nat)                 // a decision gives the task it chooses the processor
    | Wait                        // a decision finds nobody
    | Enter(i: nat, call: Call, ms: nat)   // the running task sends or receives, up to its return or its yield
    | Retry(i: nat)               // a woken task tries again
    | Yield(i: nat)               // the running task yields outside any call
    | Tick
    | Other(i: nat, tcb: Tcb)     // a task outside any call on this queue is created, blocks elsewhere, wakes or dies
    | Drop(i: nat)                // a task in a call, parked or woken, is deleted

  function Parked(s: State, i: nat): bool
    requires i < |s.ts|
  {
    WaitsOn(s.ts[i], QUEUE)
  }

  ghost predicate Shaped(s: State)
  {
    && TidyTable(s.ts) && -1 <= s.current < MAX_TASKS && |s.calls| == MAX_TASKS
    && s.tick < U32 && s.cap > 0 && |s.ring| <= s.cap
    && forall i :: 0 <= i < MAX_TASKS ==> InStep(s, i)
  }

  /** A task parked on the queue is in a call; a task in a call is parked or about to try again. */
  ghost predicate InStep(s: State, i: nat)
    requires i < |s.ts| && i < |s.calls|
  {
    && (s.calls[i].NoCall? ==> !Parked(s, i))
    && (s.calls[i].Call? ==> s.calls[i].deadline < U32 && (Parked(s, i) || s.ts[i].state == Ready || s.ts[i].state == Running))
  }

  /** Tasks that may block: senders and receivers.  Others use calls that do not wait.  `kills` says whether a task
      that was woken, and has not tried again yet, may be deleted. */
  datatype Roles = Roles(senders: set<nat>, receivers: set<nat>, kills: bool)

  function Members(r: Roles, sending: bool): set<nat> { if sending then r.senders else r.receivers }

  ghost predicate Enabled(s: State, step: Step, roles: Roles)
    requires Shaped(s)
  {
    match step
    case Run(i) => NobodyRuns(s.ts) && i < MAX_TASKS && Picks(s.ts, s.current, s.tick, i)
    case Wait => NobodyRuns(s.ts) && Picks(s.ts, s.current, s.tick, NOBODY)
    case Enter(i, c, ms) =>
      && 0 < i < MAX_TASKS && s.ts[i].state == Running && s.calls[i].NoCall?
      && c.Call? && ms < U32 && c == CallAt(s.tick, c.sending, c.item, ms)
      && (VerdictOf(s.ring, s.cap, c, s.tick) == Parks ==> i in Members(roles, c.sending))
    case Retry(i) => i < MAX_TASKS && s.ts[i].state == Running && s.calls[i].Call?
    case Yield(i) => i < MAX_TASKS && s.ts[i].state == Running && s.calls[i].NoCall?
    case Tick => true
    case Other(i, t) => i < MAX_TASKS && s.calls[i].NoCall? && Tidy(t) && !WaitsOn(t, QUEUE)
    case Drop(i) => i < MAX_TASKS && s.calls[i].Call? && (Parked(s, i) || (roles.kills && s.ts[i].state == Ready))
  }

  predicate NobodyRuns(ts: seq<Tcb>)
  {
    forall j :: 0 <= j < |ts| ==> ts[j].state != Running
  }

  function Attempt(s: State, i: nat, c: Call): State
    requires i < |s.ts| && i < |s.calls| && c.Call? && c.deadline < U32 && s.tick < U32
  {
    var v := VerdictOf(s.ring, s.cap, c, s.tick);
    State(TableAfter(s.ts, QUEUE, i, c, v), s.current, s.calls[i := if v == Parks then c else NoCall], RingAfter(s.ring, c, v), s.cap,
          if v == Done && c.sending then s.sent + [c.item] else s.sent,
          if v == Done && !c.sending then s.got + [s.ring[0]] else s.got, s.tick)
  }

  function SetState(s: State, i: nat, state: TaskState): State
    requires i < |s.ts|
  {
    s.(ts := s.ts[i := s.ts[i].(state := state)])
  }

  ghost function Next(s: State, step: Step, roles: Roles): State
    requires Shaped(s) && Enabled(s, step, roles)
  {
    match step
    case Run(i) => s.(ts := Dispatched(DecisionTable(s.ts, s.tick), i), current := i)
    case Wait => s.(ts := DecisionTable(s.ts, s.tick), current := StillCurrent(s.ts, s.current))
    case Enter(i, c, ms) => Attempt(s, i, c)
    case Retry(i) =>
      assert InStep(s, i);
      Attempt(s, i, s.calls[i])
    case Yield(i) => SetState(s, i, Ready)
    case Tick => s.(tick := UAdd(s.tick, 1))
    case Other(i, t) => s.(ts := s.ts[i := t])
    case Drop(i) => SetState(s, i, Dead).(calls := s.calls[i := NoCall])
  }

  // ---- What the steps keep ----

  /** Items come out in the order they went in: those received, then those still in the ring. */
  ghost predicate InOrder(s: State) { s.sent == s.got + s.ring }

  /** Whoever waits is one of those that may. */
  ghost predicate RolesKept(s: State, roles: Roles)
    requires Shaped(s)
  {
    forall i :: 0 <= i < MAX_TASKS && s.calls[i].Call? ==> i in Members(roles, s.calls[i].sending)
  }

  ghost predicate WaitsHere(s: State, i: nat, sending: bool)
    requires i < |s.ts| && i < |s.calls|
  {
    s.calls[i].Call? && s.calls[i].sending == sending && Parked(s, i)
  }

  ghost predicate AnyWaits(s: State, sending: bool)
    requires |s.ts| == |s.calls| == MAX_TASKS
  {
    exists i :: 0 <= i < MAX_TASKS && WaitsHere(s, i, sending)
  }

  /** Tasks in a call that have been woken and have not tried again yet. */
  ghost function Awake(s: State, sending: bool): set<nat>
    requires |s.ts| == |s.calls| == MAX_TASKS
  {
    set i: nat | i < MAX_TASKS && s.calls[i].Call? && s.calls[i].sending == sending && !Parked(s, i)
  }

  /** What a waiter waits for: room for a sender, an item for a receiver. */
  function Slack(s: State, sending: bool): int { if sending then s.cap - |s.ring| else |s.ring| }

  /** While anyone is parked, no more of what it waits for is there than woken tasks are on their way to take. */
  ghost predicate Covered(s: State, sending: bool)
    requires |s.ts| == |s.calls| == MAX_TASKS
  {
    AnyWaits(s, sending) ==> Slack(s, sending) <= |Awake(s, sending)|
  }

  ghost predicate NoLostWakeup(s: State)
    requires Shaped(s)
  {
    Covered(s, true) && Covered(s, false)
  }

  /** At most one task may block in each direction; or only one direction blocks, and nobody woken is deleted. */
  predicate Tame(roles: Roles)
  {
    || (|roles.senders| <= 1 && |roles.receivers| <= 1)
    || (!roles.kills && (roles.senders == {} || roles.receivers == {}))
  }

  lemma StepShaped(s: State, step: Step, roles: Roles)
    requires Shaped(s) && InOrder(s) && RolesKept(s, roles) && Enabled(s, step, roles)
    ensures Shaped(Next(s, step, roles)) && InOrder(Next(s, step, roles)) && RolesKept(Next(s, step, roles), roles)
  {
    var n := Next(s, step, roles);
    match step
    case Enter(i, c, ms) => AttemptShaped(s, i, c, roles);
    case Retry(i) =>
      assert InStep(s, i);
      AttemptShaped(s, i, s.calls[i], roles);
    case Run(i) =>
      DecideShaped(s, s.current);
      DispatchShaped(s.(ts := DecisionTable(s.ts, s.tick)), i);
    case Wait => DecideShaped(s, StillCurrent(s.ts, s.current));
    case _ =>
      forall j | 0 <= j < MAX_TASKS ensures Tidy(n.ts[j]) && InStep(n, j) {
        assert Tidy(s.ts[j]) && InStep(s, j);
      }
  }

  lemma AttemptShaped(s: State, i: nat, c: Call, roles: Roles)
    requires Shaped(s) && InOrder(s) && RolesKept(s, roles)
    requires i < MAX_TASKS && s.ts[i].state == Running && c.Call? && c.deadline < U32
    requires VerdictOf(s.ring, s.cap, c, s.tick) == Parks ==> i in Members(roles, c.sending)
    ensures Shaped(Attempt(s, i, c)) && InOrder(Attempt(s, i, c)) && RolesKept(Attempt(s, i, c), roles)
  {
    var n := Attempt(s, i, c);
    forall j | 0 <= j < MAX_TASKS ensures Tidy(n.ts[j]) && InStep(n, j) {
      assert Tidy(s.ts[j]) && InStep(s, j);
    }
    if VerdictOf(s.ring, s.cap, c, s.tick) == Done && !c.sending {
      assert s.ring == [s.ring[0]] + s.ring[1..];
    }
  }

  lemma DecideShaped(s: State, current: int)
    requires Shaped(s) && -1 <= current < MAX_TASKS
    ensures Shaped(s.(ts := DecisionTable(s.ts, s.tick), current := current))
  {
    var n := s.(ts := DecisionTable(s.ts, s.tick), current := current);
    forall j | 0 <= j < MAX_TASKS ensures Tidy(n.ts[j]) && InStep(n, j) {
      assert Tidy(s.ts[j]) && InStep(s, j);
    }
  }

  lemma DispatchShaped(s: State, i: nat)
    requires Shaped(s) && i < MAX_TASKS && s.ts[i].state == Ready
    ensures Shaped(s.(ts := Dispatched(s.ts, i), current := i))
  {
    var n := s.(ts := Dispatched(s.ts, i), current := i);
    forall j | 0 <= j < MAX_TASKS ensures Tidy(n.ts[j]) && InStep(n, j) {
      assert Tidy(s.ts[j]) && InStep(s, j);
    }
  }

  // ---- No lost wakeup ----

  lemma {:induction false} SubsetIsSmaller(a: set<nat>, b: set<nat>)
    requires a <= b
    ensures |a| <= |b|
    decreases |b|
  {
    if a != {} {
      var x :| x in a;
      SubsetIsSmaller(a - {x}, b - {x});
    }
  }

  lemma LoseOne(a: set<nat>, b: set<nat>, x: nat)
    requires b - {x} <= a
    ensures |b| - 1 <= |a|
  {
    SubsetIsSmaller(b - {x}, a);
  }

  /** The only member is the one that waits, so nobody is awake. */
  lemma OneWaits(s: State, roles: Roles, sending: bool, i: nat)
    requires Shaped(s) && RolesKept(s, roles) && i < MAX_TASKS && WaitsHere(s, i, sending)
    requires |Members(roles, sending)| <= 1
    ensures Awake(s, sending) == {}
  {
    var m := Members(roles, sending);
    assert i in m;
    forall j | j in Awake(s, sending) ensures false {
      assert j in m && j != i;
      SubsetIsSmaller({i, j}, m);
    }
  }

  /** Both directions are never parked at once. */
  lemma OneDirectionWaits(s: State, roles: Roles)
    requires Shaped(s) && RolesKept(s, roles) && NoLostWakeup(s) && Tame(roles)
    ensures !(AnyWaits(s, true) && AnyWaits(s, false))
  {
    if AnyWaits(s, true) && AnyWaits(s, false) {
      var i :| 0 <= i < MAX_TASKS && WaitsHere(s, i, true);
      var j :| 0 <= j < MAX_TASKS && WaitsHere(s, j, false);
      assert i in roles.senders && j in roles.receivers;
      OneWaits(s, roles, true, i);
      OneWaits(s, roles, false, j);
    }
  }

  /** A success takes one from what its own direction waits for. */
  lemma DoneCoversOwn(s: State, i: nat, c: Call)
    requires Shaped(s) && NoLostWakeup(s)
    requires i < MAX_TASKS && s.ts[i].state == Running && c.Call? && c.deadline < U32
    requires s.calls[i].Call? ==> s.calls[i] == c
    requires VerdictOf(s.ring, s.cap, c, s.tick) == Done
    ensures Covered(Attempt(s, i, c), c.sending)
  {
    var n, d := Attempt(s, i, c), c.sending;
    if AnyWaits(n, d) {
      var j :| 0 <= j < MAX_TASKS && WaitsHere(n, j, d);
      assert WaitsHere(s, j, d);
      forall x | x in Awake(s, d) && x != i ensures x in Awake(n, d) {
      }
      LoseOne(Awake(n, d), Awake(s, d), i);
    }
  }

  /** And adds one to what the other direction waits for, one of whose waiters it wakes. */
  lemma DoneCoversOther(s: State, i: nat, c: Call, roles: Roles)
    requires Shaped(s) && RolesKept(s, roles) && NoLostWakeup(s) && Tame(roles)
    requires i < MAX_TASKS && s.ts[i].state == Running && c.Call? && c.deadline < U32
    requires s.calls[i].Call? ==> s.calls[i] == c
    requires VerdictOf(s.ring, s.cap, c, s.tick) == Done
    ensures Covered(Attempt(s, i, c), !c.sending)
  {
    var n, e := Attempt(s, i, c), !c.sending;
    if AnyWaits(n, e) {
      var j :| 0 <= j < MAX_TASKS && WaitsHere(n, j, e);
      assert WaitsHere(s, j, e);
      OneDirectionWaits(s, roles);
      var k := FirstWaiter(s.ts, QUEUE);
      assert Parked(s, j) && k < MAX_TASKS && InStep(s, k) && Parked(s, k);
      assert WaitsHere(s, k, s.calls[k].sending);
      assert s.calls[k].sending == e && k != i;
      OneMoreAwake(s, n, i, c, k);
    }
  }

  lemma OneMoreAwake(s: State, n: State, i: nat, c: Call, k: nat)
    requires Shaped(s) && i < MAX_TASKS && s.ts[i].state == Running && c.Call? && c.deadline < U32
    requires VerdictOf(s.ring, s.cap, c, s.tick) == Done && n == Attempt(s, i, c)
    requires s.calls[i].Call? ==> s.calls[i] == c
    requires k == FirstWaiter(s.ts, QUEUE) < MAX_TASKS && k != i && WaitsHere(s, k, !c.sending)
    ensures Awake(n, !c.sending) == Awake(s, !c.sending) + {k} && k !in Awake(s, !c.sending)
  {
  }

  lemma AttemptCovers(s: State, i: nat, c: Call, roles: Roles)
    requires Shaped(s) && RolesKept(s, roles) && NoLostWakeup(s) && Tame(roles)
    requires i < MAX_TASKS && s.ts[i].state == Running && c.Call? && c.deadline < U32
    requires s.calls[i].Call? ==> s.calls[i] == c
    requires Shaped(Attempt(s, i, c))
    ensures NoLostWakeup(Attempt(s, i, c))
  {
    var n, v := Attempt(s, i, c), VerdictOf(s.ring, s.cap, c, s.tick);
    if v == Done {
      DoneCoversOwn(s, i, c);
      DoneCoversOther(s, i, c, roles);
    } else {
      var e := !c.sending;
      assert Slack(n, c.sending) == 0;
      if AnyWaits(n, e) {
        var j :| 0 <= j < MAX_TASKS && WaitsHere(n, j, e);
        assert WaitsHere(s, j, e);
        assert Awake(n, e) == Awake(s, e);
      }
    }
  }

  /** Steps that wake or remove waiters and leave the ring alone. */
  lemma QuietCovers(s: State, n: State, sending: bool)
    requires Shaped(s) && Shaped(n) && Covered(s, sending)
    requires n.ring == s.ring && n.cap == s.cap
    requires forall j :: 0 <= j < MAX_TASKS && WaitsHere(n, j, sending) ==> WaitsHere(s, j, sending)
    requires Awake(s, sending) <= Awake(n, sending)
    ensures Covered(n, sending)
  {
    if AnyWaits(n, sending) {
      var j :| 0 <= j < MAX_TASKS && WaitsHere(n, j, sending);
      assert WaitsHere(s, j, sending);
      SubsetIsSmaller(Awake(s, sending), Awake(n, sending));
    }
  }

  lemma StepCovers(s: State, step: Step, roles: Roles)
    requires Shaped(s) && InOrder(s) && RolesKept(s, roles) && Enabled(s, step, roles)
    requires NoLostWakeup(s) && Tame(roles)
    ensures Shaped(Next(s, step, roles)) && NoLostWakeup(Next(s, step, roles))
  {
    StepShaped(s, step, roles);
    var n := Next(s, step, roles);
    match step
    case Enter(i, c, ms) => AttemptCovers(s, i, c, roles);
    case Retry(i) =>
      assert InStep(s, i);
      AttemptCovers(s, i, s.calls[i], roles);
    case Drop(i) =>
      DropCovers(s, i, roles, true);
      DropCovers(s, i, roles, false);
    case _ =>
      QuietCovers(s, n, true);
      QuietCovers(s, n, false);
  }

  /** Deleting a woken task takes it away from those on their way; then nobody else waits in its direction. */
  lemma DropCovers(s: State, i: nat, roles: Roles, sending: bool)
    requires Shaped(s) && RolesKept(s, roles) && Enabled(s, Drop(i), roles) && Tame(roles)
    requires Covered(s, sending) && Shaped(Next(s, Drop(i), roles))
    ensures Covered(Next(s, Drop(i), roles), sending)
  {
    var n := Next(s, Drop(i), roles);
    if i in Awake(s, sending) {
      if AnyWaits(n, sending) {
        var j :| 0 <= j < MAX_TASKS && WaitsHere(n, j, sending);
        assert WaitsHere(s, j, sending) && j in Members(roles, sending) && i in Members(roles, sending);
        SubsetIsSmaller({i, j}, Members(roles, sending));
      }
    } else {
      QuietCovers(s, n, sending);
    }
  }

  // ---- Runs ----

  ghost predicate Start(s: State)
  {
    && Shaped(s) && s.sent == s.got == s.ring == [] && s.ts[0].state == Ready && s.ts[0].priority == 0
    && forall i :: 0 <= i < MAX_TASKS ==> s.calls[i].NoCall?
  }

  /** The states of a run, one step after another. */
  ghost predicate IsRun(run: seq<State>, steps: seq<Step>, roles: Roles)
  {
    && |run| == |steps| + 1 && Start(run[0])
    && forall k :: 0 <= k < |steps| ==> Follows(run[k], steps[k], roles, run[k + 1])
  }

  ghost predicate Follows(s: State, step: Step, roles: Roles, n: State)
  {
    Shaped(s) && Enabled(s, step, roles) && n == Next(s, step, roles)
  }

  /** At every moment of every run, what was sent is what was received followed by what the ring holds. */
  lemma {:induction false} RunInOrder(run: seq<State>, steps: seq<Step>, roles: Roles, k: nat)
    requires IsRun(run, steps, roles) && k < |run|
    ensures Shaped(run[k]) && InOrder(run[k]) && RolesKept(run[k], roles)
  {
    if k > 0 {
      RunInOrder(run, steps, roles, k - 1);
      assert Follows(run[k - 1], steps[k - 1], roles, run[k]);
      StepShaped(run[k - 1], steps[k - 1], roles);
    }
  }

  /** Under that condition no wakeup is lost in any run. */
  lemma {:induction false} TameRunsLoseNothing(run: seq<State>, steps: seq<Step>, roles: Roles, k: nat)
    requires IsRun(run, steps, roles) && k < |run| && Tame(roles)
    ensures Shaped(run[k]) && NoLostWakeup(run[k])
  {
    RunInOrder(run, steps, roles, k);
    if k > 0 {
      TameRunsLoseNothing(run, steps, roles, k - 1);
      assert Follows(run[k - 1], steps[k - 1], roles, run[k]);
      RunInOrder(run, steps, roles, k - 1);
      StepCovers(run[k - 1], steps[k - 1], roles);
    }
  }
}
