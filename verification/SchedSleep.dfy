/** How long a task sleeps, over whole runs of the scheduler loop. */
module SchedSleep {
  import opened Arith
  import opened Errors
  import opened Sched
  import opened SchedRun

  // ---- Ticks ----

  /** The ticks among some operations. */
  function Ticks(ops: seq<Op>): nat
  {
    if ops == [] then 0 else Ticks(ops[..|ops| - 1]) + if ops[|ops| - 1].Tick? then 1 else 0
  }

  /** The ticks during the turns a up to n. */
  function Elapsed(turns: seq<Turn>, a: nat, n: nat): nat
    requires n <= |turns|
  {
    if n <= a then 0 else Elapsed(turns, a, n - 1) + Ticks(turns[n - 1].ops)
  }

  lemma {:induction false} OpsTick(v: View, ops: seq<Op>, now: nat)
    requires v.tick == Wrapped(now)
    ensures AfterOps(v, ops).tick == Wrapped(now + Ticks(ops))
    decreases |ops|
  {
    if ops != [] {
      OpsTick(v, ops[..|ops| - 1], now);
      WrappedSum(now + Ticks(ops[..|ops| - 1]), 1);
    }
  }

  lemma TurnTicks(v: View, d: Decision, t: Turn, w: View, now: nat)
    requires AtDecision(v) && Follows(v, d, t, w) && v.tick == Wrapped(now)
    ensures w.tick == Wrapped(now + Ticks(t.ops))
  {
    DecisionFinds(v, d, t, w);
    OpsTick(Given(d.table, d.idx, v.tick), t.ops, now);
  }

  // ---- One sleeper ----

  /** Blocked until `wake`, and on nothing but the clock. */
  predicate Asleep(t: Tcb, wake: nat)
  {
    t.state == Blocked && t.deadlineValid && t.blockedOn == None && t.wakeTick == wake
  }

  /** Nobody deletes task k. */
  predicate Spares(ops: seq<Op>, k: nat)
  {
    forall i :: 0 <= i < |ops| ==> ops[i] != Delete(k)
  }

  lemma OpLeaves(v: View, op: Op, k: nat, wake: nat)
    requires AtTurn(v) && k < MAX_TASKS && Asleep(v.ts[k], wake) && op != Delete(k)
    ensures Asleep(AfterOp(v, op).ts[k], wake)
  {
  }

  lemma {:induction false} OpsLeave(v: View, ops: seq<Op>, k: nat, wake: nat)
    requires AtTurn(v) && k < MAX_TASKS && Asleep(v.ts[k], wake) && Spares(ops, k)
    ensures AtTurn(AfterOps(v, ops)) && Asleep(AfterOps(v, ops).ts[k], wake)
    decreases |ops|
  {
    if ops != [] {
      OpsLeave(v, ops[..|ops| - 1], k, wake);
      OpsKeep(v, ops[..|ops| - 1]);
      OpLeaves(AfterOps(v, ops[..|ops| - 1]), ops[|ops| - 1], k, wake);
    }
    OpsKeep(v, ops);
  }

  /** A decision sees a sleeper as its deadline says, and a turn given to another leaves it asleep. */
  lemma SleeperDecided(v: View, d: Decision, t: Turn, w: View, k: nat, wake: nat)
    requires AtDecision(v) && Follows(v, d, t, w) && k < MAX_TASKS && Asleep(v.ts[k], wake) && wake < U32
    ensures AtDecision(w) && |d.table| == MAX_TASKS
    ensures d.table[k].state == if TickReached(v.tick, wake) then Ready else Blocked
    ensures !TickReached(v.tick, wake) && Spares(t.ops, k) ==> Asleep(w.ts[k], wake)
  {
    DecisionFinds(v, d, t, w);
    assert Tidy(v.ts[k]);
    if !TickReached(v.tick, wake) && Spares(t.ops, k) {
      GivenTurn(v, d.idx);
      OpsLeave(Given(d.table, d.idx, v.tick), t.ops, k, wake);
      OpsKeep(Given(d.table, d.idx, v.tick), t.ops);
    }
  }

  /** At a decision, `e` ticks after task k went to sleep at `asked`, it is still asleep. */
  ghost predicate AsleepAt(v: View, k: nat, asked: nat, e: nat, ms: Word32)
  {
    && AtDecision(v) && k < MAX_TASKS && asked < U32 && v.tick == Wrapped(asked + e)
    && Asleep(v.ts[k], UAdd(asked, DelayTicks(ms)))
  }

  lemma SleeperPassed(v: View, d: Decision, t: Turn, w: View, k: nat, asked: nat, e: nat, ms: Word32)
    requires AsleepAt(v, k, asked, e, ms) && Follows(v, d, t, w)
    ensures |d.table| == MAX_TASKS && d.table[k].state == if Due(e, DelayTicks(ms)) then Ready else Blocked
    ensures !Due(e, DelayTicks(ms)) && Spares(t.ops, k) ==> AsleepAt(w, k, asked, e + Ticks(t.ops), ms)
  {
    assert Wrapped(asked) == asked;
    ReachedIsDue(asked, DelayTicks(ms), e);
    SleeperDecided(v, d, t, w, k, UAdd(asked, DelayTicks(ms)));
    TurnTicks(v, d, t, w, asked + e);
  }

  /** What a turn that ends in a sleep leaves. */
  lemma FallsAsleep(v: View, d: Decision, t: Turn, w: View)
    requires AtDecision(v) && Follows(v, d, t, w) && t.ending.Sleeps? && d.idx != 0
    ensures d.idx > 0 && AsleepAt(w, d.idx, w.tick, 0, t.ending.ms)
  {
    DecisionFinds(v, d, t, w);
    GivenTurn(v, d.idx);
    OpsKeep(Given(d.table, d.idx, v.tick), t.ops);
    assert Tidy(AfterOps(Given(d.table, d.idx, v.tick), t.ops).ts[d.idx]);
  }

  // ---- Over runs ----

  /** Task k goes to sleep in turn a, and nobody deletes it before decision n. */
  ghost predicate SleepsFrom(vs: seq<View>, ds: seq<Decision>, turns: seq<Turn>, a: nat, n: nat, k: nat, ms: Word32)
  {
    && IsRun(vs, ds, turns) && a < n < |turns| && 0 < k == ds[a].idx && turns[a].ending == Sleeps(ms)
    && forall m :: a < m < n ==> Spares(turns[m].ops, k)
  }

  /** At decision m the 32-bit test says that a sleep since the end of turn a is over. */
  predicate OverAt(turns: seq<Turn>, a: nat, m: nat, ms: Word32)
    requires m <= |turns|
  {
    Due(Elapsed(turns, a + 1, m), DelayTicks(ms))
  }

  /** Decision n is the first at which the sleep may be over. */
  ghost predicate NotBefore(turns: seq<Turn>, a: nat, n: nat, ms: Word32)
    requires n <= |turns|
  {
    forall m :: a < m < n ==> !OverAt(turns, a, m, ms)
  }

  lemma {:induction false} StillAsleep(vs: seq<View>, ds: seq<Decision>, turns: seq<Turn>, a: nat, n: nat, k: nat, ms: Word32)
    returns (asked: nat)
    requires SleepsFrom(vs, ds, turns, a, n, k, ms) && NotBefore(turns, a, n, ms)
    ensures AsleepAt(vs[n], k, asked, Elapsed(turns, a + 1, n), ms)
    decreases n
  {
    if n == a + 1 {
      EveryDecisionFinds(vs, ds, turns, a);
      FallsAsleep(vs[a], ds[a], turns[a], vs[a + 1]);
      asked := vs[a + 1].tick;
    } else {
      asked := StillAsleep(vs, ds, turns, a, n - 1, k, ms);
      assert !OverAt(turns, a, n - 1, ms) && Spares(turns[n - 1].ops, k);
      SleeperPassed(vs[n - 1], ds[n - 1], turns[n - 1], vs[n], k, asked, Elapsed(turns, a + 1, n - 1), ms);
    }
  }

  /** Until the first decision at which the 32-bit test says that the sleep is over the task is blocked, and at that
      decision it is ready. */
  lemma SleepIsExact(vs: seq<View>, ds: seq<Decision>, turns: seq<Turn>, a: nat, n: nat, k: nat, ms: Word32)
    requires SleepsFrom(vs, ds, turns, a, n, k, ms)
    requires NotBefore(turns, a, n, ms)
    ensures |ds[n].table| == MAX_TASKS && k < MAX_TASKS
    ensures ds[n].table[k].state == if OverAt(turns, a, n, ms) then Ready else Blocked
  {
    var asked := StillAsleep(vs, ds, turns, a, n, k, ms);
    SleeperPassed(vs[n], ds[n], turns[n], vs[n + 1], k, asked, Elapsed(turns, a + 1, n), ms);
  }

  lemma {:induction false} ElapsedGrows(turns: seq<Turn>, a: nat, m: nat, n: nat)
    requires m <= n <= |turns|
    ensures Elapsed(turns, a, m) <= Elapsed(turns, a, n)
    decreases n
  {
    if m < n {
      ElapsedGrows(turns, a, m, n - 1);
    }
  }

  /** A sleep of up to 2^31 ms lasts exactly max(1, ms) ticks: at a decision before that the task is blocked, and at the
      first one after, if it comes within another 2^31 ticks, it is ready. */
  lemma SleepLasts(vs: seq<View>, ds: seq<Decision>, turns: seq<Turn>, a: nat, n: nat, k: nat, ms: Word32)
    requires SleepsFrom(vs, ds, turns, a, n, k, ms) && ms <= HALF
    ensures |ds[n].table| == MAX_TASKS && k < MAX_TASKS
    ensures var d := if ms == 0 then 1 else ms;
      var e := Elapsed(turns, a + 1, n);
      && (e < d ==> ds[n].table[k].state == Blocked)
      && (d <= e < d + HALF && Elapsed(turns, a + 1, n - 1) < d ==> ds[n].table[k].state == Ready)
  {
    EveryDecisionFinds(vs, ds, turns, n);
    EveryDecisionFinds(vs, ds, turns, a);
    DecisionFinds(vs[a], ds[a], turns[a], vs[a + 1]);
    var d := DelayTicks(ms);
    if Elapsed(turns, a + 1, n - 1) < d {
      forall m | a < m < n ensures !OverAt(turns, a, m, ms) {
        ElapsedGrows(turns, a + 1, m, n - 1);
        DueIsOver(Elapsed(turns, a + 1, m), d);
      }
      SleepIsExact(vs, ds, turns, a, n, k, ms);
      if Elapsed(turns, a + 1, n) < d + HALF {
        DueIsOver(Elapsed(turns, a + 1, n), d);
      }
    } else {
      ElapsedGrows(turns, a + 1, n - 1, n);
    }
  }
}
