/** Whole runs of the scheduler loop of kernel/reflex_sched.c: decisions, and what the chosen tasks do between them. */
module SchedRun {
  import opened Arith
  import opened Errors
  import opened Sched

  type Word32 = n: nat | n < U32

  /** What can happen to the table during a turn: a tick, or a call of the running task. */
  datatype Op =
    | Tick
    | Create(stackBytes: nat, priority: int, fits: bool)
    | Delete(slot: nat)
    | SetPriority(slot: nat, priority: int)
    | Wake(queue: nat)

  /** How a turn ends: at the next switch point, or with the task. */
  datatype Ending = Yields | Sleeps(ms: Word32) | Waits(queue: nat, deadline: Word32, forever: bool) | Retires

  datatype Turn = Turn(ops: seq<Op>, ending: Ending)

  /** The scheduler's variables. */
  datatype View = View(ts: seq<Tcb>, current: int, tick: nat, started: bool)

  ghost predicate Sane(v: View)
  {
    TidyTable(v.ts) && -1 <= v.current < MAX_TASKS && v.tick < U32
  }

  /** Nobody runs, and the idle task in slot 0 is ready. */
  ghost predicate AtRest(v: View)
  {
    Sane(v) && v.ts[0].state == Ready && forall i :: 0 <= i < MAX_TASKS ==> v.ts[i].state != Running
  }

  ghost predicate AtDecision(v: View) { AtRest(v) && v.started }

  /** The current task runs, and the idle task runs or is ready. */
  ghost predicate AtTurn(v: View)
  {
    && Sane(v) && v.started && 0 <= v.current && v.ts[v.current].state == Running
    && (v.ts[0].state == Ready || v.current == 0)
    && forall i :: 0 <= i < MAX_TASKS && i != v.current ==> v.ts[i].state != Running
  }

  function NewTask(stackBytes: nat, priority: int): Tcb
  {
    Tcb(Ready, priority, 0, if stackBytes < MIN_STACK then MIN_STACK else stackBytes, true, false, None, false)
  }

  /** One operation.  The idle task makes no calls, nobody deletes it, and a task that deletes itself ends its turn. */
  function AfterOp(v: View, op: Op): View
    requires v.tick < U32
  {
    if v.current == 0 && !op.Tick? then v
    else
      match op
      case Tick => v.(tick := UAdd(v.tick, 1))
      case Create(stackBytes, priority, fits) =>
        var k := FindState(v.ts, Free, 0);
        if fits && k < |v.ts| then v.(ts := v.ts[k := NewTask(stackBytes, priority)]) else v
      case Delete(slot) =>
        if slot == 0 || slot >= |v.ts| || slot == v.current then v
        else
          var dead := v.ts[slot].(state := Dead);
          v.(ts := v.ts[slot := if v.started then dead else Reaped(dead)])
      case SetPriority(slot, priority) =>
        if slot < |v.ts| then v.(ts := v.ts[slot := v.ts[slot].(priority := priority)]) else v
      case Wake(queue) => v.(ts := WokenOne(v.ts, queue))
  }

  function AfterOps(v: View, ops: seq<Op>): (w: View)
    requires v.tick < U32
    ensures w.tick < U32
    decreases |ops|, v.tick
  {
    if ops == [] then v else AfterOp(AfterOps(v, ops[..|ops| - 1]), ops[|ops| - 1])
  }

  /** The idle task only ever yields. */
  function AfterEnding(v: View, e: Ending): View
    requires 0 <= v.current < |v.ts| && v.tick < U32
  {
    var t := v.ts[v.current];
    var u :=
      if v.current == 0 then t.(state := Ready)
      else
        match e
        case Yields => t.(state := Ready)
        case Sleeps(ms) => t.(state := Blocked, deadlineValid := true, wakeTick := UAdd(v.tick, DelayTicks(ms)))
        case Waits(queue, deadline, forever) => ParkedOn(t, queue, deadline, forever)
        case Retires => t.(state := Dead);
    v.(ts := v.ts[v.current := u])
  }

  // ---- What a turn keeps ----

  lemma OpKeeps(v: View, op: Op)
    requires AtTurn(v)
    ensures AtTurn(AfterOp(v, op)) && AfterOp(v, op).current == v.current
  {
    var w := AfterOp(v, op);
    forall i | 0 <= i < MAX_TASKS ensures Tidy(w.ts[i]) {
      assert Tidy(v.ts[i]);
    }
  }

  lemma {:induction false} OpsKeep(v: View, ops: seq<Op>)
    requires AtTurn(v)
    ensures AtTurn(AfterOps(v, ops)) && AfterOps(v, ops).current == v.current
    decreases |ops|
  {
    if ops != [] {
      OpsKeep(v, ops[..|ops| - 1]);
      OpKeeps(AfterOps(v, ops[..|ops| - 1]), ops[|ops| - 1]);
    }
  }

  lemma EndingRests(v: View, e: Ending)
    requires AtTurn(v)
    ensures AtDecision(AfterEnding(v, e)) && AfterEnding(v, e).current == v.current
    ensures AfterEnding(v, e).ts[v.current].state != Free
    ensures AfterEnding(v, e).ts[v.current].state == Dead <==> e.Retires? && v.current != 0
  {
    var w := AfterEnding(v, e);
    forall i | 0 <= i < MAX_TASKS ensures Tidy(w.ts[i]) {
      assert Tidy(v.ts[i]);
    }
  }

  // ---- Runs ----

  function Given(table: seq<Tcb>, idx: nat, tick: nat): View
    requires idx < |table|
  {
    View(Dispatched(table, idx), idx, tick, true)
  }

  function AfterTurn(v: View, t: Turn): View
    requires v.tick < U32 && 0 <= AfterOps(v, t.ops).current < |AfterOps(v, t.ops).ts|
  {
    AfterEnding(AfterOps(v, t.ops), t.ending)
  }

  /** One decision from v and the turn it gives; without a ready task the loop only waits. */
  ghost predicate Follows(v: View, d: Decision, t: Turn, w: View)
  {
    AtDecision(v) ==>
      var cur := StillCurrent(v.ts, v.current);
      && d.table == DecisionTable(v.ts, v.tick) && d.begin == Begin(ScanStart(cur), MAX_TASKS)
      && Chosen(d.table, d.begin, d.idx)
      && if d.idx == NOBODY then w == v.(ts := d.table, current := cur) else TurnTaken(v, d, t, w)
  }

  ghost predicate TurnTaken(v: View, d: Decision, t: Turn, w: View)
    requires AtDecision(v) && d.table == DecisionTable(v.ts, v.tick) && 0 <= d.idx < MAX_TASKS && d.table[d.idx].state == Ready
  {
    GivenTurn(v, d.idx);
    OpsKeep(Given(d.table, d.idx, v.tick), t.ops);
    w == AfterTurn(Given(d.table, d.idx, v.tick), t)
  }

  lemma GivenTurn(v: View, idx: int)
    requires AtDecision(v) && 0 <= idx < MAX_TASKS && DecisionTable(v.ts, v.tick)[idx].state == Ready
    ensures AtTurn(Given(DecisionTable(v.ts, v.tick), idx, v.tick))
  {
    var table := DecisionTable(v.ts, v.tick);
    forall i | 0 <= i < MAX_TASKS ensures Tidy(table[i]) && table[i].state != Running {
      assert Tidy(v.ts[i]);
    }
  }

  /** The scheduler's states at its decisions, the decisions, and the turns they give. */
  ghost predicate IsRun(vs: seq<View>, ds: seq<Decision>, turns: seq<Turn>)
  {
    && |vs| == |turns| + 1 && |ds| == |turns| && AtDecision(vs[0])
    && forall n :: 0 <= n < |turns| ==> Follows(vs[n], ds[n], turns[n], vs[n + 1])
  }

  /** A decision finds a task, and its turn leads to the next decision. */
  lemma DecisionFinds(v: View, d: Decision, t: Turn, w: View)
    requires AtDecision(v) && Follows(v, d, t, w)
    ensures 0 <= d.idx < MAX_TASKS && Taken(d) && AtDecision(w) && w.current == d.idx
    ensures StillCurrent(w.ts, w.current) == if t.ending.Retires? && d.idx != 0 then NOBODY else d.idx
  {
    IdleIsFound(v.ts, v.tick, d.begin, d.idx);
    GivenTurn(v, d.idx);
    OpsKeep(Given(d.table, d.idx, v.tick), t.ops);
    EndingRests(AfterOps(Given(d.table, d.idx, v.tick), t.ops), t.ending);
  }

  /** While slot 0 only yields, every decision of every run finds a task. */
  lemma {:induction false} EveryDecisionFinds(vs: seq<View>, ds: seq<Decision>, turns: seq<Turn>, n: nat)
    requires IsRun(vs, ds, turns) && n <= |turns|
    ensures AtDecision(vs[n])
    ensures n < |turns| ==> Taken(ds[n]) && ds[n].idx != NOBODY
  {
    if n > 0 {
      EveryDecisionFinds(vs, ds, turns, n - 1);
      DecisionFinds(vs[n - 1], ds[n - 1], turns[n - 1], vs[n]);
    }
    if n < |turns| {
      DecisionFinds(vs[n], ds[n], turns[n], vs[n + 1]);
    }
  }

  /** The task of turn n retires. */
  predicate RetiresIn(ds: seq<Decision>, turns: seq<Turn>, n: nat)
    requires n < |ds| && n < |turns|
  {
    turns[n].ending.Retires? && ds[n].idx != 0
  }

  /** Scans of decisions between which no running task retires follow on from each other. */
  lemma RunIsUnbroken(vs: seq<View>, ds: seq<Decision>, turns: seq<Turn>, a: nat, b: nat)
    requires IsRun(vs, ds, turns) && a <= b <= |turns|
    requires forall n :: a <= n < b - 1 ==> !RetiresIn(ds, turns, n)
    ensures Unbroken(ds[a..b])
  {
    forall n | a <= n < b ensures Taken(ds[n]) && (n > a ==> ds[n].begin == Begin(ds[n - 1].idx + 1, MAX_TASKS)) {
      EveryDecisionFinds(vs, ds, turns, n);
      DecisionFinds(vs[n], ds[n], turns[n], vs[n + 1]);
      if n > a {
        EveryDecisionFinds(vs, ds, turns, n - 1);
        DecisionFinds(vs[n - 1], ds[n - 1], turns[n - 1], vs[n]);
        assert !RetiresIn(ds, turns, n - 1);
      }
    }
  }

  /** In every run, a task that is ready at top priority at sixteen decisions in a row, between which no running task
      retires, is given one of them. */
  lemma TopTaskTaken(vs: seq<View>, ds: seq<Decision>, turns: seq<Turn>, a: nat, k: nat)
    requires IsRun(vs, ds, turns) && a + MAX_TASKS <= |turns| && k < MAX_TASKS
    requires forall n :: a <= n < a + MAX_TASKS - 1 ==> !RetiresIn(ds, turns, n)
    requires forall n :: a <= n < a + MAX_TASKS ==> TopReady(ds[n].table, k)
    ensures exists n :: a <= n < a + MAX_TASKS && ds[n].idx == k
  {
    var b := a + MAX_TASKS;
    RunIsUnbroken(vs, ds, turns, a, b);
    TopTaskRuns(ds[a..b], k);
    var n :| 0 <= n < |ds[a..b]| && ds[a..b][n].idx == k;
    assert ds[a + n].idx == k;
  }

  // ---- The loop itself ----

  method DoOp(s: Scheduler, op: Op)
    requires s.Valid() && (AtTurn(Of(s)) || (!s.started && s.current == NOBODY))
    modifies s, s.tasks
    ensures s.Valid() && Of(s) == AfterOp(old(Of(s)), op)
  {
    if s.current == 0 && !op.Tick? {
      return;
    }
    match op
    case Tick => s.Tick();
    case Create(stackBytes, priority, fits) =>
      var err, slot := s.CreateTask(true, stackBytes, priority, fits);
    case Delete(slot) =>
      if slot != 0 && slot < MAX_TASKS && slot != s.current {
        s.DeleteTask(slot);
      }
    case SetPriority(slot, priority) =>
      if slot < MAX_TASKS {
        s.SetPriority(slot, priority);
      }
    case Wake(queue) => s.WakeOneWaiter(queue);
  }

  ghost function Of(s: Scheduler): View
    reads s, s.tasks
  {
    View(s.tasks[..], s.current, s.tick, s.started)
  }

  method EndTurn(s: Scheduler, e: Ending)
    requires s.Valid() && AtTurn(Of(s))
    modifies s, s.tasks
    ensures s.Valid() && Of(s) == AfterEnding(old(Of(s)), e)
  {
    if s.current == 0 {
      s.Yield();
      return;
    }
    match e
    case Yields => s.Yield();
    case Sleeps(ms) => s.DelayMs(ms);
    case Waits(queue, deadline, forever) =>
      s.Park(queue, deadline, forever);
      s.Yield();
    case Retires => s.DeleteTask(NOBODY);
  }

  method TakeTurn(s: Scheduler, t: Turn)
    requires s.Valid() && AtTurn(Of(s))
    modifies s, s.tasks
    ensures s.Valid() && AtTurn(AfterOps(old(Of(s)), t.ops)) && Of(s) == AfterTurn(old(Of(s)), t)
  {
    ghost var v := Of(s);
    for i := 0 to |t.ops|
      invariant s.Valid() && Of(s) == AfterOps(v, t.ops[..i])
    {
      OpsKeep(v, t.ops[..i]);
      assert t.ops[..i + 1][..i] == t.ops[..i];
      DoOp(s, t.ops[i]);
    }
    assert t.ops[..|t.ops|] == t.ops;
    OpsKeep(v, t.ops);
    EndTurn(s, t.ending);
  }

  /** One pass of the scheduler loop. */
  method OneDecision(s: Scheduler, t: Turn) returns (next: nat, ghost d: Decision)
    requires s.Valid() && AtDecision(Of(s))
    modifies s, s.tasks
    ensures s.Valid() && AtDecision(Of(s)) && next == d.idx && Follows(old(Of(s)), d, t, Of(s))
  {
    ghost var v := Of(s);
    var idx := s.PickNext();
    d := Decision(s.tasks[..], Begin(ScanStart(s.current), MAX_TASKS), idx);
    IdleIsFound(v.ts, v.tick, d.begin, d.idx);
    GivenTurn(v, idx);
    next := idx;
    s.Dispatch(next);
    TakeTurn(s, t);
    assert Follows(v, d, t, Of(s));
    DecisionFinds(v, d, t, Of(s));
  }

  /** The scheduler loop, for as many decisions as there are turns.  It never finds nobody to run. */
  method RunTurns(s: Scheduler, turns: seq<Turn>) returns (chosen: seq<nat>, ghost vs: seq<View>, ghost ds: seq<Decision>)
    requires s.Valid() && AtDecision(Of(s))
    modifies s, s.tasks
    ensures s.Valid() && IsRun(vs, ds, turns) && vs[0] == old(Of(s)) && vs[|turns|] == Of(s)
    ensures |chosen| == |turns| && forall n :: 0 <= n < |turns| ==> chosen[n] == ds[n].idx
  {
    chosen, vs, ds := [], [Of(s)], [];
    for n := 0 to |turns|
      invariant s.Valid() && AtDecision(Of(s)) && |chosen| == n
      invariant IsRun(vs, ds, turns[..n]) && vs[0] == old(Of(s)) && vs[n] == Of(s)
      invariant forall m :: 0 <= m < n ==> chosen[m] == ds[m].idx
    {
      ghost var d;
      var next;
      next, d := OneDecision(s, turns[n]);
      RunGrows(vs, ds, turns[..n], d, turns[n], Of(s));
      assert turns[..n + 1] == turns[..n] + [turns[n]];
      chosen, vs, ds := chosen + [next], vs + [Of(s)], ds + [d];
    }
    assert turns[..|turns|] == turns;
  }

  lemma RunGrows(vs: seq<View>, ds: seq<Decision>, turns: seq<Turn>, d: Decision, t: Turn, w: View)
    requires IsRun(vs, ds, turns) && Follows(vs[|turns|], d, t, w)
    ensures IsRun(vs + [w], ds + [d], turns + [t])
  {
    var vs', ds', turns' := vs + [w], ds + [d], turns + [t];
    forall n | 0 <= n < |turns'| ensures Follows(vs'[n], ds'[n], turns'[n], vs'[n + 1]) {
      if n < |turns| {
        assert Follows(vs[n], ds[n], turns[n], vs[n + 1]);
      }
    }
  }

  // ---- From the start ----

  /** The table that reflex_sched_init leaves. */
  function InitView(): View
  {
    View(seq(MAX_TASKS, i => if i == 0 then NewTask(MIN_STACK, 0) else EMPTY), NOBODY, 0, false)
  }

  lemma {:induction false} BootRests(before: seq<Op>)
    ensures AtRest(AfterOps(InitView(), before))
    ensures AfterOps(InitView(), before).current == NOBODY && !AfterOps(InitView(), before).started
    decreases |before|
  {
    if before != [] {
      var v, op := AfterOps(InitView(), before[..|before| - 1]), before[|before| - 1];
      BootRests(before[..|before| - 1]);
      forall i | 0 <= i < MAX_TASKS
        ensures Tidy(AfterOp(v, op).ts[i]) && AfterOp(v, op).ts[i].state != Running
      {
        assert Tidy(v.ts[i]) && v.ts[i].state != Running;
      }
    }
  }

  /** The scheduler when it starts, after what was created and deleted before. */
  function Booted(before: seq<Op>): View
  {
    AfterOps(InitView(), before).(started := true)
  }

  /** From reflex_sched_init on: set up, start, and run.  No decision ever finds nobody. */
  method FromInit(before: seq<Op>, turns: seq<Turn>) returns (chosen: seq<nat>, ghost vs: seq<View>, ghost ds: seq<Decision>)
    ensures IsRun(vs, ds, turns) && vs[0] == Booted(before)
    ensures |chosen| == |turns| && forall n :: 0 <= n < |turns| ==> chosen[n] == ds[n].idx
  {
    var s := new Scheduler();
    s.Init();
    assert Of(s) == InitView();
    for i := 0 to |before|
      invariant s.Valid() && Of(s) == AfterOps(InitView(), before[..i]) && fresh(s) && fresh(s.tasks)
    {
      BootRests(before[..i]);
      assert before[..i + 1][..i] == before[..i];
      DoOp(s, before[i]);
    }
    assert before[..|before|] == before;
    BootRests(before);
    s.started := true;
    chosen, vs, ds := RunTurns(s, turns);
  }

  // ---- Starvation ----

  const IDLE: Tcb := NewTask(MIN_STACK, 0)
  const PEER: Tcb := NewTask(MIN_STACK, 1)
  const GONE: Tcb := PEER.(state := Dead, started := true)
  const FREED: Tcb := EMPTY.(priority := 1)

  /** Three tasks of one priority before the start, the middle one deleted again. */
  const SETUP: seq<Op> := [Create(MIN_STACK, 1, true), Create(MIN_STACK, 1, true), Create(MIN_STACK, 1, true), Delete(2)]

  /** A task that creates another like it and retires. */
  const RELAY: Turn := Turn([Create(MIN_STACK, 1, true)], Retires)

  /** A peer is ready in slot a, 1 or 2; its predecessor was in the other; slot 3 has a peer of theirs. */
  ghost predicate Relayed(ts: seq<Tcb>, a: nat, other: Tcb)
  {
    && |ts| == MAX_TASKS && (a == 1 || a == 2)
    && ts[0] == IDLE && ts[a] == PEER && ts[3 - a] == other && ts[3] == PEER
    && forall i :: 4 <= i < MAX_TASKS ==> ts[i] == EMPTY
  }

  ghost predicate RelayView(v: View, a: nat, first: bool)
  {
    && v.tick == 0 && v.started && Relayed(v.ts, a, if first then FREED else GONE)
    && v.current == if first then NOBODY else 3 - a
  }

  lemma Creates(v: View, k: nat)
    requires |v.ts| == MAX_TASKS && v.current != 0 && v.tick == 0 && k < MAX_TASKS && v.ts[k].state == Free
    requires forall j :: 0 <= j < k ==> v.ts[j].state != Free
    ensures AfterOp(v, Create(MIN_STACK, 1, true)) == v.(ts := v.ts[k := PEER])
  {
    assert FindState(v.ts, Free, 0) == k;
  }

  lemma SetupIsRelay()
    ensures RelayView(Booted(SETUP), 1, true)
  {
    var c, v := Create(MIN_STACK, 1, true), InitView();
    ThreeCreated(v, c);
    MoreOps(v, [c, c, c], Delete(2));
    assert [c, c, c] + [Delete(2)] == SETUP;
  }

  lemma ThreeCreated(v: View, c: Op)
    requires v == InitView() && c == Create(MIN_STACK, 1, true)
    ensures AfterOps(v, [c, c, c]) == v.(ts := v.ts[1 := PEER][2 := PEER][3 := PEER])
  {
    Creates(v, 1);
    MoreOps(v, [], c);
    assert [] + [c] == [c];
    var v1 := v.(ts := v.ts[1 := PEER]);
    Creates(v1, 2);
    MoreOps(v, [c], c);
    assert [c] + [c] == [c, c];
    var v2 := v1.(ts := v1.ts[2 := PEER]);
    Creates(v2, 3);
    MoreOps(v, [c, c], c);
    assert [c, c] + [c] == [c, c, c];
  }

  lemma MoreOps(v: View, ops: seq<Op>, op: Op)
    requires v.tick < U32
    ensures AfterOps(v, ops + [op]) == AfterOp(AfterOps(v, ops), op)
  {
    assert (ops + [op])[..|ops|] == ops;
  }

  lemma RelayRests(v: View, a: nat, first: bool)
    requires RelayView(v, a, first)
    ensures AtDecision(v) && StillCurrent(v.ts, v.current) == NOBODY
    ensures Relayed(DecisionTable(v.ts, v.tick), a, FREED)
  {
    forall i | 0 <= i < MAX_TASKS ensures Tidy(v.ts[i]) && v.ts[i].state != Running {
      if i == a || i == 3 - a {
      } else if i >= 4 {
      }
    }
  }

  lemma RelayChoice(ts: seq<Tcb>, a: nat)
    requires Relayed(ts, a, FREED)
    ensures Chosen(ts, 0, a) && TopReady(ts, 3)
  {
    forall j | 0 <= j < MAX_TASKS && ts[j].state == Ready ensures j == 0 || j == a || j == 3 {
    }
  }

  lemma RelayTurn(ts: seq<Tcb>, a: nat)
    requires Relayed(ts, a, FREED)
    ensures AfterOps(Given(ts, a, 0), RELAY.ops).current == a && |AfterOps(Given(ts, a, 0), RELAY.ops).ts| == MAX_TASKS
    ensures RelayView(AfterTurn(Given(ts, a, 0), RELAY), 3 - a, false)
  {
    var v := Given(ts, a, 0);
    Creates(v, 3 - a);
    assert RELAY.ops[..0] == [];
    assert AfterOps(v, RELAY.ops) == AfterOp(v, RELAY.ops[0]) == v.(ts := v.ts[3 - a := PEER]);
  }

  lemma RelayStep(v: View, a: nat, first: bool) returns (d: Decision, w: View)
    requires RelayView(v, a, first)
    ensures Follows(v, d, RELAY, w) && RelayView(w, 3 - a, false)
    ensures TopReady(d.table, 3) && d.idx != 3
  {
    RelayRests(v, a, first);
    d := Decision(DecisionTable(v.ts, v.tick), 0, a);
    RelayChoice(d.table, a);
    RelayTurn(d.table, a);
    w := AfterTurn(Given(d.table, a, 0), RELAY);
  }

  /** For every n there is a run from the start in which a task in slot 3 is ready at top priority at each of n decisions
      and is never taken: two others create and relieve each other, and every scan starts at slot 0 again. */
  lemma {:induction false} RetirementStarves(n: nat) returns (vs: seq<View>, ds: seq<Decision>, turns: seq<Turn>)
    ensures IsRun(vs, ds, turns) && vs[0] == Booted(SETUP) && |turns| == n
    ensures forall m :: 0 <= m < n ==> turns[m] == RELAY && TopReady(ds[m].table, 3) && ds[m].idx != 3
    ensures RelayView(vs[n], 1 + n % 2, n == 0)
  {
    if n == 0 {
      SetupIsRelay();
      RelayRests(Booted(SETUP), 1, true);
      return [Booted(SETUP)], [], [];
    }
    vs, ds, turns := RetirementStarves(n - 1);
    var d, w := RelayStep(vs[n - 1], 1 + (n - 1) % 2, n == 1);
    RunGrows(vs, ds, turns, d, RELAY, w);
    vs, ds, turns := vs + [w], ds + [d], turns + [RELAY];
  }
}
