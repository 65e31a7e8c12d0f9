/** When blocking calls end, over whole runs of tasks that send and receive. */
module QueueTime {
  import opened Arith
  import opened Errors
  import opened Sched
  import opened QueueWait

  /** The ticks among the steps a up to n. */
  function Elapsed(steps: seq<Step>, a: nat, n: nat): nat
    requires n <= |steps|
  {
    if n <= a then 0 else Elapsed(steps, a, n - 1) + if steps[n - 1].Tick? then 1 else 0
  }

  /** The counter moves with the ticks and with nothing else. */
  ghost predicate Ticking(run: seq<State>, steps: seq<Step>)
  {
    && |run| == |steps| + 1 && (forall k :: 0 <= k < |run| ==> run[k].tick < U32)
    && forall k :: 0 <= k < |steps| ==> run[k + 1].tick == if steps[k].Tick? then UAdd(run[k].tick, 1) else run[k].tick
  }

  lemma RunTicks(run: seq<State>, steps: seq<Step>, roles: Roles)
    requires IsRun(run, steps, roles)
    ensures Ticking(run, steps)
  {
    forall k | 0 <= k < |run| ensures run[k].tick < U32 {
      RunInOrder(run, steps, roles, k);
    }
    forall k | 0 <= k < |steps|
      ensures run[k + 1].tick == if steps[k].Tick? then UAdd(run[k].tick, 1) else run[k].tick
    {
      StepTicks(run[k], steps[k], roles, run[k + 1]);
    }
  }

  lemma StepTicks(s: State, step: Step, roles: Roles, n: State)
    requires Follows(s, step, roles, n)
    ensures n.tick == if step.Tick? then UAdd(s.tick, 1) else s.tick
  {
  }

  lemma {:induction false} TicksPass(run: seq<State>, steps: seq<Step>, a: nat, n: nat, asked: nat)
    requires Ticking(run, steps) && a <= n <= |steps| && run[a].tick == Wrapped(asked)
    ensures run[n].tick == Wrapped(asked + Elapsed(steps, a, n))
    decreases n
  {
    if n > a {
      TicksPass(run, steps, a, n - 1, asked);
      WrappedSum(asked + Elapsed(steps, a, n - 1), 1);
      assert run[n - 1 + 1].tick == if steps[n - 1].Tick? then UAdd(run[n - 1].tick, 1) else run[n - 1].tick;
    }
  }

  // ---- The marks of a waiting task ----

  /** A parked task carries the deadline of its call. */
  ghost predicate Marked(s: State, i: nat)
    requires i < |s.ts| && i < |s.calls|
  {
    s.calls[i].Call? && Parked(s, i) ==>
      s.ts[i].wakeTick == s.calls[i].deadline && (s.ts[i].deadlineValid <==> !s.calls[i].forever)
  }

  lemma StepMarks(s: State, step: Step, roles: Roles, i: nat)
    requires Shaped(s) && Enabled(s, step, roles) && i < MAX_TASKS && Marked(s, i)
    requires |Next(s, step, roles).ts| == |Next(s, step, roles).calls| == MAX_TASKS
    ensures Marked(Next(s, step, roles), i)
  {
    assert InStep(s, i);
    match step
    case Run(j) => DecisionMeans(s.ts, s.tick, i);
    case Wait => DecisionMeans(s.ts, s.tick, i);
    case _ =>
  }

  lemma {:induction false} RunMarks(run: seq<State>, steps: seq<Step>, roles: Roles, n: nat, i: nat)
    requires IsRun(run, steps, roles) && n < |run| && i < MAX_TASKS
    ensures Shaped(run[n]) && Marked(run[n], i)
  {
    RunInOrder(run, steps, roles, n);
    if n > 0 {
      RunMarks(run, steps, roles, n - 1, i);
      assert Follows(run[n - 1], steps[n - 1], roles, run[n]);
      StepMarks(run[n - 1], steps[n - 1], roles, i);
    }
  }

  // ---- A call in progress ----

  /** Task i entered a call with a timeout of `ms` in step a, and is still in it at state n. */
  ghost predicate InCall(run: seq<State>, steps: seq<Step>, roles: Roles, a: nat, n: nat, i: nat, c: Call, ms: nat)
  {
    && IsRun(run, steps, roles) && a < n < |run| && steps[a] == Enter(i, c, ms)
    && forall m :: a < m <= n ==> i < |run[m].calls| && run[m].calls[i] == c
  }

  lemma CallBegan(run: seq<State>, steps: seq<Step>, roles: Roles, a: nat, n: nat, i: nat, c: Call, ms: nat)
    returns (asked: nat)
    requires IsRun(run, steps, roles) && a < |steps| && a <= n <= |steps| && steps[a] == Enter(i, c, ms)
    ensures c.Call? && i < MAX_TASKS && ms < U32 && asked < U32 && c == CallAt(Wrapped(asked), c.sending, c.item, ms)
    ensures run[n].tick == Wrapped(asked + Elapsed(steps, a, n))
  {
    assert Follows(run[a], steps[a], roles, run[a + 1]);
    asked := run[a].tick;
    RunTicks(run, steps, roles);
    TicksPass(run, steps, a, n, asked);
  }

  /** What an attempt of task i in call c leads to, if the call began `e` ticks ago with a timeout of `ms`. */
  ghost predicate Answered(s: State, n: State, i: nat, c: Call, ms: nat, e: nat)
    requires Shaped(s) && i < MAX_TASKS && c.Call?
  {
    if Able(s.ring, s.cap, c.sending) then
      |n.calls| == MAX_TASKS && n.calls[i] == NoCall && n.ring == if c.sending then s.ring + [c.item] else s.ring[1..]
    else if TimeIsUp(ms, e) then n == s.(calls := s.calls[i := NoCall])
    else n == s.(ts := n.ts, calls := s.calls[i := c]) && |n.ts| == MAX_TASKS && Parked(n, i)
  }

  /** Every attempt of a call, the first and those after a wakeup: it succeeds if it can; otherwise it returns Timeout if
      and only if the time is up, and parks if not. */
  lemma AttemptIsAnswered(run: seq<State>, steps: seq<Step>, roles: Roles, a: nat, n: nat, i: nat, c: Call, ms: nat)
    requires IsRun(run, steps, roles) && a <= n < |steps| && steps[a] == Enter(i, c, ms)
    requires n > a ==> InCall(run, steps, roles, a, n, i, c, ms) && steps[n] == Retry(i)
    ensures c.Call? && i < MAX_TASKS && Shaped(run[n])
    ensures Answered(run[n], run[n + 1], i, c, ms, Elapsed(steps, a, n))
  {
    var asked := CallBegan(run, steps, roles, a, n, i, c, ms);
    StepAnswers(run[n], steps[n], roles, run[n + 1], i, c, ms, asked, Elapsed(steps, a, n));
  }

  lemma StepAnswers(s: State, step: Step, roles: Roles, n: State, i: nat, c: Call, ms: nat, asked: nat, e: nat)
    requires Follows(s, step, roles, n) && c.Call? && ms < U32 && c == CallAt(Wrapped(asked), c.sending, c.item, ms)
    requires i < MAX_TASKS && s.tick == Wrapped(asked + e) && (step == Enter(i, c, ms) || (step == Retry(i) && s.calls[i] == c))
    ensures Answered(s, n, i, c, ms, e)
  {
    assert n == Attempt(s, i, c);
    UpIsReached(asked, asked + e, c, ms);
  }

  /** In milliseconds: with a timeout of at most 2^31 ms no attempt returns Timeout before it has passed, and none that
      comes within another 2^31 parks after. */
  lemma TimeoutIsExact(run: seq<State>, steps: seq<Step>, roles: Roles, a: nat, n: nat, i: nat, c: Call, ms: nat)
    requires IsRun(run, steps, roles) && a <= n < |steps| && steps[a] == Enter(i, c, ms)
    requires n > a ==> InCall(run, steps, roles, a, n, i, c, ms) && steps[n] == Retry(i)
    requires ms <= HALF && Elapsed(steps, a, n) < ms + HALF
    ensures c.Call? && i < MAX_TASKS && Shaped(run[n])
    ensures !Able(run[n].ring, run[n].cap, c.sending) ==>
      if Elapsed(steps, a, n) >= ms then run[n + 1] == run[n].(calls := run[n].calls[i := NoCall])
      else |run[n + 1].ts| == |run[n + 1].calls| == MAX_TASKS && run[n + 1].calls[i] == c && Parked(run[n + 1], i)
  {
    AttemptIsAnswered(run, steps, roles, a, n, i, c, ms);
    UpAtTimeout(ms, Elapsed(steps, a, n));
  }

  /** A decision wakes a parked task if and only if the time of its call is up. */
  lemma DecisionWakes(run: seq<State>, steps: seq<Step>, roles: Roles, a: nat, n: nat, i: nat, c: Call, ms: nat)
    requires InCall(run, steps, roles, a, n, i, c, ms) && n < |steps| && (steps[n].Run? || steps[n].Wait?)
    requires i < |run[n].ts| && Parked(run[n], i)
    ensures |run[n + 1].ts| == MAX_TASKS && i < MAX_TASKS
    ensures Parked(run[n + 1], i) <==> !TimeIsUp(ms, Elapsed(steps, a, n))
    ensures Parked(run[n + 1], i) || run[n + 1].ts[i].state == if steps[n] == Run(i) then Running else Ready
  {
    var asked := CallBegan(run, steps, roles, a, n, i, c, ms);
    RunMarks(run, steps, roles, n, i);
    StepWakes(run[n], steps[n], roles, run[n + 1], i, c, ms, asked, Elapsed(steps, a, n));
  }

  lemma StepWakes(s: State, step: Step, roles: Roles, n: State, i: nat, c: Call, ms: nat, asked: nat, e: nat)
    requires Follows(s, step, roles, n) && c.Call? && ms < U32 && c == CallAt(Wrapped(asked), c.sending, c.item, ms)
    requires i < MAX_TASKS && s.tick == Wrapped(asked + e) && s.calls[i] == c && Parked(s, i) && Marked(s, i)
    requires step.Run? || step.Wait?
    ensures |n.ts| == MAX_TASKS && (Parked(n, i) <==> !TimeIsUp(ms, e))
    ensures Parked(n, i) || n.ts[i].state == if step == Run(i) then Running else Ready
  {
    UpIsReached(asked, asked + e, c, ms);
    ReachedIsTest(s.tick, s.ts[i].wakeTick);
    DecisionMeans(s.ts, s.tick, i);
  }

  lemma ReachedIsTest(now: nat, deadline: nat)
    requires now < U32 && deadline < U32
    ensures TickReached(now, deadline) <==> (now - deadline) % 0x1_0000_0000 < HALF
  {
    assert Wrapped(now) == now && Wrapped(deadline) == deadline;
    WrappedMinus(now, deadline);
  }
}
