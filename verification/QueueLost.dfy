/** Where blocking loses a wakeup: runs, with the scheduler's own choices, that end with a task parked although what it
    waits for is there and nobody is on the way; and exactly for which numbers of blocking tasks there are such runs. */
module QueueLost {
  import opened Errors
  import opened Sched
  import opened QueueWait

  const SEND: Call := Call(true, [], true, 0)
  const RECV: Call := Call(false, [], true, 0)

  /** A task of priority p; a blocked one is parked on the queue. */
  function Task(p: int, state: TaskState): Tcb
  {
    Tcb(state, p, 0, MIN_STACK, true, true, if state == Blocked then Some(QUEUE) else None, false)
  }

  /** The idle task in slot 0; tasks of priorities 3, 2 and 1 in slots 1, 2 and r; nothing else. */
  function Table(r: nat, x: TaskState, y: TaskState, z: TaskState): (ts: seq<Tcb>)
    requires 3 <= r < MAX_TASKS
    ensures |ts| == MAX_TASKS && ts[0] == Task(0, Ready) && ts[1] == Task(3, x) && ts[2] == Task(2, y) && ts[r] == Task(1, z)
    ensures forall i :: 3 <= i < MAX_TASKS && i != r ==> ts[i] == EMPTY
  {
    [Task(0, Ready), Task(3, x), Task(2, y), EMPTY, EMPTY, EMPTY, EMPTY, EMPTY,
     EMPTY, EMPTY, EMPTY, EMPTY, EMPTY, EMPTY, EMPTY, EMPTY][r := Task(1, z)]
  }

  function Calls(r: nat, a: Call, b: Call, c: Call): (cs: seq<Call>)
    ensures |cs| == MAX_TASKS
  {
    seq(MAX_TASKS, i => if i == 1 then a else if i == 2 then b else if i == r then c else NoCall)
  }

  /** A queue of one item; `sent` and `got` count empty items. */
  function At(r: nat, current: int, x: TaskState, y: TaskState, z: TaskState, a: Call, b: Call, c: Call,
              sent: seq<Item>, got: seq<Item>, ring: seq<Item>): State
    requires 3 <= r < MAX_TASKS
  {
    State(Table(r, x, y, z), current, Calls(r, a, b, c), ring, 1, sent, got, 0)
  }

  predicate Known(t: TaskState, c: Call)
  {
    && (c == NoCall || c == SEND || c == RECV)
    && (t == Ready || t == Running || (t == Blocked && c != NoCall) || (t == Dead && c == NoCall))
  }

  lemma KnownShaped(r: nat, current: int, x: TaskState, y: TaskState, z: TaskState, a: Call, b: Call, c: Call,
                    sent: seq<Item>, got: seq<Item>, ring: seq<Item>)
    requires 3 <= r < MAX_TASKS && Known(x, a) && Known(y, b) && Known(z, c) && |ring| <= 1 && -1 <= current < MAX_TASKS
    ensures Shaped(At(r, current, x, y, z, a, b, c, sent, got, ring))
  {
  }

  /** Nothing to collect and nobody to wake. */
  lemma Settled(ts: seq<Tcb>, now: nat)
    requires TidyTable(ts) && now < 0x1_0000_0000
    requires forall i :: 0 <= i < MAX_TASKS ==> ts[i].state != Dead && !ts[i].deadlineValid
    ensures DecisionTable(ts, now) == ts
  {
  }

  /** The one task of highest priority is chosen, wherever the scan starts. */
  lemma Runs(s: State, n: State, i: nat, roles: Roles)
    requires Shaped(s) && i < MAX_TASKS && s.ts[i].state == Ready && s.ts[i].started && NobodyRuns(s.ts)
    requires forall j :: 0 <= j < MAX_TASKS ==> s.ts[j].state != Dead && !s.ts[j].deadlineValid
    requires forall j :: 0 <= j < MAX_TASKS && j != i && s.ts[j].state == Ready ==> s.ts[j].priority < s.ts[i].priority
    requires n == s.(ts := n.ts, current := i) && n.ts == s.ts[i := s.ts[i].(state := Running)]
    ensures Follows(s, Run(i), roles, n)
  {
    Settled(s.ts, s.tick);
  }

  /** A call of the running task. */
  lemma Enters(s: State, n: State, i: nat, c: Call, roles: Roles)
    requires Shaped(s) && 0 < i < MAX_TASKS && s.ts[i].state == Running && s.calls[i].NoCall? && (c == SEND || c == RECV)
    requires VerdictOf(s.ring, s.cap, c, s.tick) == Parks ==> i in Members(roles, c.sending)
    requires n == Attempt(s, i, c)
    ensures Follows(s, Enter(i, c, FOREVER), roles, n)
  {
  }

  lemma Retries(s: State, n: State, i: nat, roles: Roles)
    requires Shaped(s) && i < MAX_TASKS && s.ts[i].state == Running && (s.calls[i] == SEND || s.calls[i] == RECV)
    requires n == Attempt(s, i, s.calls[i])
    ensures Follows(s, Retry(i), roles, n)
  {
  }

  /** The run so far with one more step. */
  lemma Longer(run: seq<State>, steps: seq<Step>, roles: Roles, step: Step, n: State)
    requires IsRun(run, steps, roles) && Follows(run[|run| - 1], step, roles, n)
    ensures IsRun(run + [n], steps + [step], roles)
  {
    var run', steps' := run + [n], steps + [step];
    forall k | 0 <= k < |steps'| ensures Follows(run'[k], steps'[k], roles, run'[k + 1]) {
      if k < |steps| {
        assert Follows(run[k], steps[k], roles, run[k + 1]);
      }
    }
  }

  /** An attempt that succeeds and wakes the task in slot k, or nobody when k is the number of slots. */
  lemma Succeeds(s: State, n: State, i: nat, c: Call, k: nat)
    requires Shaped(s) && i < MAX_TASKS && (c == SEND || c == RECV)
    requires VerdictOf(s.ring, s.cap, c, s.tick) == Done
    requires k <= MAX_TASKS && (k < MAX_TASKS ==> Parked(s, k))
    requires forall j :: 0 <= j < k ==> !Parked(s, j)
    requires n.ts == (if k < MAX_TASKS then s.ts[k := Woken(s.ts[k])] else s.ts) && n.calls == s.calls[i := NoCall]
    requires n.cap == s.cap && n.tick == s.tick && n.current == s.current
    requires if c.sending then n.ring == s.ring + [[]] && n.sent == s.sent + [[]] && n.got == s.got
             else n.ring == s.ring[1..] && n.got == s.got + [s.ring[0]] && n.sent == s.sent
    ensures n == Attempt(s, i, c)
  {
    forall j | 0 <= j < k ensures !WaitsOn(s.ts[j], QUEUE) {
      assert !Parked(s, j);
    }
    FirstWaiterIs(s.ts, QUEUE, k);
  }

  /** An attempt that fails and parks. */
  lemma Blocks(s: State, n: State, i: nat, c: Call)
    requires Shaped(s) && i < MAX_TASKS && (c == SEND || c == RECV)
    requires if c.sending then |s.ring| == s.cap else |s.ring| == 0
    requires n == s.(ts := n.ts, calls := n.calls) && n.ts == s.ts[i := ParkedTcb(s.ts[i], QUEUE, c)] && n.calls == s.calls[i := c]
    ensures n == Attempt(s, i, c)
  {
  }

  /** The call of the tasks that send or of those that receive, and the ring at which they park. */
  function Own(sending: bool): Call { if sending then SEND else RECV }
  function Full(sending: bool): seq<Item> { if sending then [[]] else [] }

  /** The run starts, and the first task runs. */
  lemma FirstTurn(r: nat, roles: Roles) returns (run: seq<State>, steps: seq<Step>)
    requires 3 <= r < MAX_TASKS
    ensures IsRun(run, steps, roles)
    ensures run[|run| - 1] == At(r, 1, Running, Ready, Ready, NoCall, NoCall, NoCall, [], [], [])
  {
    var s0 := At(r, NOBODY, Ready, Ready, Ready, NoCall, NoCall, NoCall, [], [], []);
    KnownShaped(r, NOBODY, Ready, Ready, Ready, NoCall, NoCall, NoCall, [], [], []);
    run, steps := [s0], [];
    var s1 := At(r, 1, Running, Ready, Ready, NoCall, NoCall, NoCall, [], [], []);
    Runs(s0, s1, 1, roles);
    Longer(run, steps, roles, Run(1), s1);
    run, steps := run + [s1], steps + [Run(1)];
  }

  /** If it is going to send, it fills the queue first. */
  lemma FirstRuns(r: nat, roles: Roles, sending: bool) returns (run: seq<State>, steps: seq<Step>)
    requires 3 <= r < MAX_TASKS
    ensures IsRun(run, steps, roles)
    ensures run[|run| - 1] == At(r, 1, Running, Ready, Ready, NoCall, NoCall, NoCall, Full(sending), [], Full(sending))
  {
    run, steps := FirstTurn(r, roles);
    if sending {
      var s1 := run[|run| - 1];
      KnownShaped(r, 1, Running, Ready, Ready, NoCall, NoCall, NoCall, [], [], []);
      var s2 := At(r, 1, Running, Ready, Ready, NoCall, NoCall, NoCall, Full(sending), [], Full(sending));
      Succeeds(s1, s2, 1, SEND, MAX_TASKS);
      Enters(s1, s2, 1, SEND, roles);
      Longer(run, steps, roles, Enter(1, SEND, FOREVER), s2);
      run, steps := run + [s2], steps + [Enter(1, SEND, FOREVER)];
    }
  }

  /** The first task parks. */
  lemma FirstParks(r: nat, roles: Roles, sending: bool) returns (run: seq<State>, steps: seq<Step>)
    requires 3 <= r < MAX_TASKS && 1 in Members(roles, sending)
    ensures IsRun(run, steps, roles)
    ensures run[|run| - 1] == At(r, 1, Blocked, Ready, Ready, Own(sending), NoCall, NoCall, Full(sending), [], Full(sending))
  {
    var c, ring := Own(sending), Full(sending);
    run, steps := FirstRuns(r, roles, sending);
    var s2 := run[|run| - 1];
    KnownShaped(r, 1, Running, Ready, Ready, NoCall, NoCall, NoCall, ring, [], ring);
    var s3 := At(r, 1, Blocked, Ready, Ready, c, NoCall, NoCall, ring, [], ring);
    Blocks(s2, s3, 1, c);
    Enters(s2, s3, 1, c, roles);
    Longer(run, steps, roles, Enter(1, c, FOREVER), s3);
    run, steps := run + [s3], steps + [Enter(1, c, FOREVER)];
  }

  lemma SecondRuns(r: nat, roles: Roles, sending: bool) returns (run: seq<State>, steps: seq<Step>)
    requires 3 <= r < MAX_TASKS && 1 in Members(roles, sending)
    ensures IsRun(run, steps, roles)
    ensures run[|run| - 1] == At(r, 2, Blocked, Running, Ready, Own(sending), NoCall, NoCall, Full(sending), [], Full(sending))
  {
    var c, ring := Own(sending), Full(sending);
    run, steps := FirstParks(r, roles, sending);
    var s3 := run[|run| - 1];
    KnownShaped(r, 1, Blocked, Ready, Ready, c, NoCall, NoCall, ring, [], ring);
    var s4 := At(r, 2, Blocked, Running, Ready, c, NoCall, NoCall, ring, [], ring);
    Runs(s3, s4, 2, roles);
    Longer(run, steps, roles, Run(2), s4);
    run, steps := run + [s4], steps + [Run(2)];
  }

  /** The first two tasks park. */
  lemma BothPark(r: nat, roles: Roles, sending: bool) returns (run: seq<State>, steps: seq<Step>)
    requires 3 <= r < MAX_TASKS && {1, 2} <= Members(roles, sending)
    ensures IsRun(run, steps, roles)
    ensures run[|run| - 1] == At(r, 2, Blocked, Blocked, Ready, Own(sending), Own(sending), NoCall, Full(sending), [], Full(sending))
  {
    var c, ring := Own(sending), Full(sending);
    run, steps := SecondRuns(r, roles, sending);
    var s4 := run[|run| - 1];
    KnownShaped(r, 2, Blocked, Running, Ready, c, NoCall, NoCall, ring, [], ring);
    var s5 := At(r, 2, Blocked, Blocked, Ready, c, c, NoCall, ring, [], ring);
    Blocks(s4, s5, 2, c);
    Enters(s4, s5, 2, c, roles);
    Longer(run, steps, roles, Enter(2, c, FOREVER), s5);
    run, steps := run + [s5], steps + [Enter(2, c, FOREVER)];
  }

  lemma ThirdRuns(r: nat, roles: Roles, sending: bool) returns (run: seq<State>, steps: seq<Step>)
    requires 3 <= r < MAX_TASKS && {1, 2} <= Members(roles, sending)
    ensures IsRun(run, steps, roles)
    ensures run[|run| - 1] == At(r, r, Blocked, Blocked, Running, Own(sending), Own(sending), NoCall, Full(sending), [], Full(sending))
  {
    var c, ring := Own(sending), Full(sending);
    run, steps := BothPark(r, roles, sending);
    var s5 := run[|run| - 1];
    KnownShaped(r, 2, Blocked, Blocked, Ready, c, c, NoCall, ring, [], ring);
    var s6 := At(r, r, Blocked, Blocked, Running, c, c, NoCall, ring, [], ring);
    Runs(s5, s6, r, roles);
    Longer(run, steps, roles, Run(r), s6);
    run, steps := run + [s6], steps + [Run(r)];
  }

  /** The third task succeeds, waking the first. */
  lemma ThirdActs(r: nat, roles: Roles, sending: bool) returns (run: seq<State>, steps: seq<Step>)
    requires 3 <= r < MAX_TASKS && {1, 2} <= Members(roles, sending)
    ensures IsRun(run, steps, roles)
    ensures run[|run| - 1] == At(r, r, Ready, Blocked, Running, Own(sending), Own(sending), NoCall, [[]], Full(sending), Full(!sending))
  {
    var c, o, ring, other := Own(sending), Own(!sending), Full(sending), Full(!sending);
    run, steps := ThirdRuns(r, roles, sending);
    var s6 := run[|run| - 1];
    KnownShaped(r, r, Blocked, Blocked, Running, c, c, NoCall, ring, [], ring);
    var s7 := At(r, r, Ready, Blocked, Running, c, c, NoCall, [[]], ring, other);
    Succeeds(s6, s7, r, o, 1);
    Enters(s6, s7, r, o, roles);
    Longer(run, steps, roles, Enter(r, o, FOREVER), s7);
    run, steps := run + [s7], steps + [Enter(r, o, FOREVER)];
  }

  /** Then the third, calling again, parks. */
  lemma ThirdParks(r: nat, roles: Roles, sending: bool) returns (run: seq<State>, steps: seq<Step>)
    requires 3 <= r < MAX_TASKS && {1, 2} <= Members(roles, sending) && r in Members(roles, !sending)
    ensures IsRun(run, steps, roles)
    ensures run[|run| - 1] == At(r, r, Ready, Blocked, Blocked, Own(sending), Own(sending), Own(!sending), [[]], Full(sending), Full(!sending))
  {
    var c, o, ring, other := Own(sending), Own(!sending), Full(sending), Full(!sending);
    run, steps := ThirdActs(r, roles, sending);
    var s7 := run[|run| - 1];
    KnownShaped(r, r, Ready, Blocked, Running, c, c, NoCall, [[]], ring, other);
    var s8 := At(r, r, Ready, Blocked, Blocked, c, c, o, [[]], ring, other);
    Blocks(s7, s8, r, o);
    Enters(s7, s8, r, o, roles);
    Longer(run, steps, roles, Enter(r, o, FOREVER), s8);
    run, steps := run + [s8], steps + [Enter(r, o, FOREVER)];
  }

  function SentTwice(sending: bool): seq<Item> { if sending then [[], []] else [[]] }

  lemma FirstRunsAgain(r: nat, roles: Roles, sending: bool) returns (run: seq<State>, steps: seq<Step>)
    requires 3 <= r < MAX_TASKS && {1, 2} <= Members(roles, sending) && r in Members(roles, !sending)
    ensures IsRun(run, steps, roles)
    ensures run[|run| - 1] == At(r, 1, Running, Blocked, Blocked, Own(sending), Own(sending), Own(!sending), [[]], Full(sending), Full(!sending))
  {
    var c, o, ring, other := Own(sending), Own(!sending), Full(sending), Full(!sending);
    run, steps := ThirdParks(r, roles, sending);
    var s8 := run[|run| - 1];
    KnownShaped(r, r, Ready, Blocked, Blocked, c, c, o, [[]], ring, other);
    var s9 := At(r, 1, Running, Blocked, Blocked, c, c, o, [[]], ring, other);
    Runs(s8, s9, 1, roles);
    Longer(run, steps, roles, Run(1), s9);
    run, steps := run + [s9], steps + [Run(1)];
  }

  /** Then the first runs again, succeeds and wakes the second, its own kind. */
  lemma FirstSucceeds(r: nat, roles: Roles, sending: bool) returns (run: seq<State>, steps: seq<Step>)
    requires 3 <= r < MAX_TASKS && {1, 2} <= Members(roles, sending) && r in Members(roles, !sending)
    ensures IsRun(run, steps, roles)
    ensures run[|run| - 1] ==
      At(r, 1, Running, Ready, Blocked, NoCall, Own(sending), Own(!sending), SentTwice(sending), [[]], Full(sending))
  {
    var c, o, ring, other := Own(sending), Own(!sending), Full(sending), Full(!sending);
    run, steps := FirstRunsAgain(r, roles, sending);
    var s9 := run[|run| - 1];
    KnownShaped(r, 1, Running, Blocked, Blocked, c, c, o, [[]], ring, other);
    var s10 := At(r, 1, Running, Ready, Blocked, NoCall, c, o, SentTwice(sending), [[]], ring);
    Succeeds(s9, s10, 1, c, 2);
    Retries(s9, s10, 1, roles);
    Longer(run, steps, roles, Retry(1), s10);
    run, steps := run + [s10], steps + [Retry(1)];
  }

  /** With two blocking on one side and one on the other: the third stays parked although what it waits for is there and
      nobody is on the way to take it. */
  lemma OneIsLost(r: nat, roles: Roles, sending: bool) returns (run: seq<State>, steps: seq<Step>)
    requires 3 <= r < MAX_TASKS && {1, 2} <= Members(roles, sending) && r in Members(roles, !sending)
    ensures IsRun(run, steps, roles) && Shaped(run[|run| - 1]) && !NoLostWakeup(run[|run| - 1])
  {
    run, steps := FirstSucceeds(r, roles, sending);
    var c, o, ring := Own(sending), Own(!sending), Full(sending);
    KnownShaped(r, 1, Running, Ready, Blocked, NoCall, c, o, SentTwice(sending), [[]], ring);
    NobodyOnTheWay(run[|run| - 1], r, !sending);
  }

  lemma NobodyOnTheWay(s: State, i: nat, sending: bool)
    requires Shaped(s) && i < MAX_TASKS && WaitsHere(s, i, sending) && Slack(s, sending) > 0
    requires forall j :: 0 <= j < MAX_TASKS && s.calls[j].Call? && s.calls[j].sending == sending ==> Parked(s, j)
    ensures !NoLostWakeup(s)
  {
    assert Awake(s, sending) == {};
  }

  /** When woken tasks may be deleted, two that block on one side are enough: the first, woken, is deleted before it
      runs, and the second stays parked although what both wait for is there. */
  lemma KillLoses(r: nat, roles: Roles, sending: bool) returns (run: seq<State>, steps: seq<Step>)
    requires 3 <= r < MAX_TASKS && {1, 2} <= Members(roles, sending) && roles.kills
    ensures IsRun(run, steps, roles) && Shaped(run[|run| - 1]) && !NoLostWakeup(run[|run| - 1])
    ensures |run| >= 2 && steps[|steps| - 1] == Drop(1) && Shaped(run[|run| - 2]) && NoLostWakeup(run[|run| - 2])
  {
    var c, ring, other := Own(sending), Full(sending), Full(!sending);
    run, steps := ThirdActs(r, roles, sending);
    var s7 := run[|run| - 1];
    KnownShaped(r, r, Ready, Blocked, Running, c, c, NoCall, [[]], ring, other);
    StillCovered(s7, sending);
    var s8 := At(r, r, Dead, Blocked, Running, NoCall, c, NoCall, [[]], ring, other);
    KnownShaped(r, r, Dead, Blocked, Running, NoCall, c, NoCall, [[]], ring, other);
    assert s8.ts == SetState(s7, 1, Dead).ts && s8.calls == s7.calls[1 := NoCall];
    assert Follows(s7, Drop(1), roles, s8);
    Longer(run, steps, roles, Drop(1), s8);
    run, steps := run + [s8], steps + [Drop(1)];
    NobodyOnTheWay(s8, 2, sending);
  }

  lemma StillCovered(s: State, sending: bool)
    requires Shaped(s) && 1 in Awake(s, sending) && Slack(s, sending) <= 1 && !AnyWaits(s, !sending)
    ensures NoLostWakeup(s)
  {
    SubsetIsSmaller({1}, Awake(s, sending));
  }

  // ---- Exactly when ----

  function SlotsFrom(a: nat, n: nat): (s: set<nat>)
    ensures |s| == n && forall i :: i in s <==> a <= i < a + n
  {
    if n == 0 then {} else SlotsFrom(a, n - 1) + {a + n - 1}
  }

  /** No wakeup is lost in any run, whatever slots that many blocking senders and receivers have. */
  ghost predicate AlwaysCovered(senders: nat, receivers: nat, kills: bool)
  {
    forall roles: Roles, run: seq<State>, steps: seq<Step>, k: nat | Counts(roles, senders, receivers, kills) ::
      IsRun(run, steps, roles) && k < |run| ==> Fine(run, k)
  }

  predicate Counts(roles: Roles, senders: nat, receivers: nat, kills: bool)
  {
    |roles.senders| == senders && |roles.receivers| == receivers && roles.kills == kills
  }

  ghost predicate Fine(run: seq<State>, k: nat)
    requires k < |run|
  {
    Shaped(run[k]) && NoLostWakeup(run[k])
  }

  /** How many may block in each direction: one task, or, while nobody woken is deleted, any number in one direction. */
  predicate FewEnough(senders: nat, receivers: nat, kills: bool)
  {
    (senders <= 1 && receivers <= 1) || (!kills && (senders == 0 || receivers == 0))
  }

  /** Those of the crowded side from slot 1 up, those of the other from slot 15 down. */
  function RolesFor(senders: nat, receivers: nat, kills: bool, sending: bool): (roles: Roles)
    requires senders < MAX_TASKS && receivers < MAX_TASKS
    ensures Counts(roles, senders, receivers, kills)
  {
    if sending then Roles(SlotsFrom(1, senders), SlotsFrom(MAX_TASKS - receivers, receivers), kills)
    else Roles(SlotsFrom(MAX_TASKS - senders, senders), SlotsFrom(1, receivers), kills)
  }

  lemma RolesHave(senders: nat, receivers: nat, kills: bool, sending: bool)
    requires senders < MAX_TASKS && receivers < MAX_TASKS && (if sending then senders >= 2 else receivers >= 2)
    ensures var roles := RolesFor(senders, receivers, kills, sending);
      && {1, 2} <= Members(roles, sending)
      && ((if sending then receivers else senders) > 0 ==> MAX_TASKS - 1 in Members(roles, !sending))
  {
  }

  lemma SomeRunLoses(senders: nat, receivers: nat, kills: bool)
    requires senders < MAX_TASKS && receivers < MAX_TASKS && !FewEnough(senders, receivers, kills)
    ensures !AlwaysCovered(senders, receivers, kills)
  {
    var sending := senders >= 2;
    var roles := RolesFor(senders, receivers, kills, sending);
    RolesHave(senders, receivers, kills, sending);
    var run, steps;
    if kills {
      run, steps := KillLoses(MAX_TASKS - 1, roles, sending);
    } else {
      run, steps := OneIsLost(MAX_TASKS - 1, roles, sending);
    }
    assert !Fine(run, |run| - 1);
  }

  /** The exact condition, for any numbers that slots 1 to 15 can hold. */
  lemma CoveredExactly(senders: nat, receivers: nat, kills: bool)
    requires senders < MAX_TASKS && receivers < MAX_TASKS
    ensures AlwaysCovered(senders, receivers, kills) <==> FewEnough(senders, receivers, kills)
  {
    if FewEnough(senders, receivers, kills) {
      forall roles: Roles, run: seq<State>, steps: seq<Step>, k: nat |
        Counts(roles, senders, receivers, kills) && IsRun(run, steps, roles) && k < |run|
        ensures Fine(run, k)
      {
        TameRunsLoseNothing(run, steps, roles, k);
      }
    } else {
      SomeRunLoses(senders, receivers, kills);
    }
  }
}
