/** vm/task_runtime.c: a VM task and the party that starts and stops it, at cooperative switch points.

    What runs between two switch points runs alone.  The task gives up the processor when it sleeps between
    slices, inside a system call of the program, and while parked; the stopper gives it up in its two delays. */
module TaskRuntime {
  import opened Errors

  const STOP_TIMEOUT_MS: nat := 2000
  const STOP_POLL_MS: nat := 10

  /** Where a live task will go on: at the top of its loop, inside a slice, or parked behind it. */
  datatype Phase = AtTop | Slicing | Parked

  /** What the program does with one turn: sleeps between slices, blocks inside one, or halts or faults. */
  datatype Turn = Sleeps | Blocks | Halts

  /** The task with this name gets the processor. */
  datatype Move = Move(task: nat, turn: Turn)

  // ---- A task that was asked to stop ----

  /** Where its next turn leaves it: it parks from the top of its loop, or when the program halts. */
  function PhaseAfter(p: Phase, turn: Turn): Phase
  {
    if p != Slicing then Parked else match turn case Sleeps => AtTop case Blocks => Slicing case Halts => Parked
  }

  /** The turns task h gets among some moves. */
  function TurnsOf(h: nat, moves: seq<Move>): seq<Turn>
  {
    if moves == [] then []
    else
      var n := |moves| - 1;
      if moves[n].task == h then TurnsOf(h, moves[..n]) + [moves[n].turn] else TurnsOf(h, moves[..n])
  }

  function PhaseAfterAll(p: Phase, turns: seq<Turn>): Phase
  {
    if turns == [] then p else PhaseAfter(PhaseAfterAll(p, turns[..|turns| - 1]), turns[|turns| - 1])
  }

  /** It parks if it gets a turn at the top of its loop: it stood there, or a slice ended before its last turn; or if the
      program halts. */
  predicate GetsToPark(p: Phase, turns: seq<Turn>)
  {
    || p == Parked || (p == AtTop && turns != [])
    || (exists i :: 0 <= i < |turns| && (turns[i] == Halts || (turns[i] == Sleeps && i + 1 < |turns|)))
  }

  lemma {:induction false} ParksExactly(p: Phase, turns: seq<Turn>)
    ensures PhaseAfterAll(p, turns) == Parked <==> GetsToPark(p, turns)
    ensures PhaseAfterAll(p, turns) == AtTop ==> if turns == [] then p == AtTop else turns[|turns| - 1] == Sleeps
    ensures PhaseAfterAll(p, turns) == Slicing ==> forall i :: 0 <= i < |turns| ==> turns[i] == Blocks
  {
    if turns != [] {
      var n := |turns| - 1;
      ParksExactly(p, turns[..n]);
      if GetsToPark(p, turns[..n]) && p != Parked && !(p == AtTop && turns[..n] != []) {
        var i :| 0 <= i < n && (turns[..n][i] == Halts || (turns[..n][i] == Sleeps && i + 1 < n));
        assert turns[i] == turns[..n][i];
      }
      if PhaseAfterAll(p, turns[..n]) == AtTop && n > 0 {
        assert turns[n - 1] == turns[..n][n - 1];
      }
      if GetsToPark(p, turns) && !GetsToPark(p, turns[..n]) && PhaseAfterAll(p, turns[..n]) == Slicing {
        assert forall i :: 0 <= i < n ==> turns[..n][i] == Blocks;
      }
    }
  }

  lemma {:induction false} PhaseOnAndOn(p: Phase, a: seq<Turn>, b: seq<Turn>)
    ensures PhaseAfterAll(p, a + b) == PhaseAfterAll(PhaseAfterAll(p, a), b)
    decreases |b|
  {
    if b == [] {
      assert a + b == a;
    } else {
      var n := |b| - 1;
      PhaseOnAndOn(p, a, b[..n]);
      assert (a + b)[..|a + b| - 1] == a + b[..n];
    }
  }

  /** The turns of task h during the first k of the delays. */
  function TurnsIn(h: nat, delays: seq<seq<Move>>, k: nat): seq<Turn>
  {
    if k == 0 then [] else TurnsIn(h, delays, k - 1) + TurnsOf(h, Delay(delays, k - 1))
  }

  /** What happens during delay k; nothing after the last one given. */
  function Delay(delays: seq<seq<Move>>, k: nat): seq<Move> { if k < |delays| then delays[k] else [] }

  lemma OneMoreDelay(p: Phase, h: nat, delays: seq<seq<Move>>, k: nat, q: Phase)
    requires q == PhaseAfterAll(p, TurnsIn(h, delays, k))
    ensures PhaseAfterAll(p, TurnsIn(h, delays, k + 1)) == PhaseAfterAll(q, TurnsOf(h, Delay(delays, k)))
  {
    PhaseOnAndOn(p, TurnsIn(h, delays, k), TurnsOf(h, Delay(delays, k)));
  }

  lemma {:induction false} ParkedForGood(turns: seq<Turn>)
    ensures PhaseAfterAll(Parked, turns) == Parked
  {
    if turns != [] {
      ParkedForGood(turns[..|turns| - 1]);
    }
  }

  lemma {:induction false} StillParked(p: Phase, h: nat, delays: seq<seq<Move>>, k: nat, n: nat)
    requires k <= n && PhaseAfterAll(p, TurnsIn(h, delays, k)) == Parked
    ensures PhaseAfterAll(p, TurnsIn(h, delays, n)) == Parked
    decreases n
  {
    if k < n {
      StillParked(p, h, delays, k, n - 1);
      OneMoreDelay(p, h, delays, n - 1, Parked);
      ParkedForGood(TurnsOf(h, Delay(delays, n - 1)));
    }
  }

  class Runtime {
    var running: bool
    var stopRequested: bool
    var finished: bool
    var handle: Option<nat>

    /** Live tasks of this runtime. */
    var live: map<nat, Phase>
    /** Names of tasks are not used twice. */
    var nextName: nat

    /** At most one live task, known by the handle; a parked one has published that it finished and was asked to stop. */
    ghost predicate OneTask()
      reads this
    {
      && (handle.None? ==> live == map[])
      && (handle.Some? ==>
            && live.Keys == {handle.value} && handle.value < nextName
            && (live[handle.value] == Parked <==> finished)
            && (live[handle.value] == Parked ==> stopRequested && !running))
    }

    /** When nobody is inside stop: a task that was not asked to stop is running, and a runtime that is not running has none. */
    ghost predicate Quiet()
      reads this
    {
      OneTask() && (handle.Some? ==> running && !stopRequested)
    }

    /** Where the task of the handle stands. */
    ghost function Place(): Phase
      reads this
    {
      if handle.Some? && handle.value in live then live[handle.value] else Parked
    }

    constructor ()
      ensures Quiet() && handle == None && live == map[] && !running
    {
      running, stopRequested, finished, handle := false, false, false, None;
      live, nextName := map[], 0;
    }

    /** The end of reflex_vm_task_entry: no switch point between publishing `finished` and reading `stop_requested`. */
    method Retire(id: nat)
      requires id in live
      modifies this
      ensures finished && running == old(running) && stopRequested == old(stopRequested) && nextName == old(nextName)
      ensures stopRequested ==> handle == old(handle) && live == old(live)[id := Parked]
      ensures !stopRequested ==> handle == None && live == old(live) - {id}
    {
      finished := true;
      if stopRequested {
        live := live[id := Parked];
        return;
      }
      handle := None;
      live := live - {id};
    }

    /** One turn of a task, from one switch point to the next. */
    method TakeTurn(m: Move)
      requires OneTask()
      modifies this
      ensures OneTask() && stopRequested == old(stopRequested) && (running ==> old(running)) && nextName == old(nextName)
      ensures old(Quiet()) ==> Quiet()
      ensures handle != old(handle) ==> handle == None && !stopRequested
      ensures stopRequested && !old(running) && handle.Some? ==>
        Place() == if m.task == handle.value then PhaseAfter(old(Place()), m.turn) else old(Place())
    {
      if m.task !in live || live[m.task] == Parked {
        return;
      }
      if live[m.task] == AtTop && !running {
        Retire(m.task);
        return;
      }
      match m.turn
      case Sleeps => live := live[m.task := AtTop];
      case Blocks => live := live[m.task := Slicing];
      case Halts =>
        running := false;
        Retire(m.task);
    }

    /** Everything that happens while another party is delayed. */
    method Elapse(moves: seq<Move>)
      requires OneTask()
      modifies this
      ensures OneTask() && stopRequested == old(stopRequested) && (running ==> old(running)) && nextName == old(nextName)
      ensures old(Quiet()) ==> Quiet()
      ensures handle != old(handle) ==> handle == None && !stopRequested
      ensures stopRequested && !old(running) && handle.Some? ==>
        Place() == PhaseAfterAll(old(Place()), TurnsOf(handle.value, moves))
    {
      for i := 0 to |moves|
        invariant stopRequested && !old(running) && handle.Some? ==>
          Place() == PhaseAfterAll(old(Place()), TurnsOf(handle.value, moves[..i]))
        invariant OneTask() && stopRequested == old(stopRequested) && (running ==> old(running)) && nextName == old(nextName)
        invariant old(Quiet()) ==> Quiet()
        invariant handle != old(handle) ==> handle == None && !stopRequested
      {
        TakeTurn(moves[i]);
        assert moves[..i + 1][..i] == moves[..i];
      }
      assert moves[..|moves|] == moves;
    }

    /** Starting from an image (`loadErr` is then Ok: a valid image loads) or from a packed binary (`imageErr` is then Ok).
        `created` says whether the task can be created. */
    method Start(imageErr: Err, loadErr: Err, created: bool) returns (err: Err)
      requires forall id :: id in live ==> id < nextName
      modifies this
      ensures err == if old(running) then InvalidState else if imageErr != Ok then imageErr
                     else if loadErr != Ok then loadErr else if !created then Fail else Ok
      ensures err == Ok ==> running && !stopRequested && !finished
      ensures err == Ok ==> handle == Some(old(nextName)) && live == old(live)[old(nextName) := AtTop]
      ensures err != Ok ==> live == old(live)
      ensures old(Quiet()) ==> Quiet()
      ensures err == Ok ==> |live| == |old(live)| + 1
      ensures !old(running) && imageErr == Ok && loadErr != Ok ==> running
    {
      if running {
        return InvalidState;
      }
      if imageErr != Ok {
        return imageErr;
      }
      running := true;
      stopRequested := false;
      finished := false;
      if loadErr != Ok {
        return loadErr;
      }
      if !created {
        running := false;
        handle := None;
        return Fail;
      }
      handle := Some(nextName);
      live := live[nextName := AtTop];
      nextName := nextName + 1;
      return Ok;
    }

    /** `delays` holds what happens during each of the stopper's delays; `deleted` is where the task it deletes stands. */
    method Stop(delays: seq<seq<Move>>) returns (err: Err, ghost deleted: Option<Phase>)
      requires OneTask()
      modifies this
      ensures OneTask() && (err == Ok || err == Timeout)
      ensures err == Ok ==> live == map[] && handle == None && Quiet()
      ensures err == Timeout ==> deleted == None && handle.Some? && live[handle.value] != Parked && !running
      ensures deleted.Some? ==> deleted == Some(Parked)
      ensures old(handle).None? ==> err == Ok
      ensures old(handle).Some? ==>
        (err == Ok <==> GetsToPark(old(Place()), TurnsIn(old(handle).value, delays, STOP_TIMEOUT_MS / STOP_POLL_MS)))
    {
      ghost var h, p := if handle.Some? then handle.value else 0, Place();
      deleted := None;
      stopRequested := true;
      running := false;
      var waited, k := 0, 0;
      while !finished && handle.Some? && waited < STOP_TIMEOUT_MS
        invariant OneTask() && stopRequested && !running
        invariant handle == old(handle) && waited == STOP_POLL_MS * k <= STOP_TIMEOUT_MS
        invariant handle.Some? ==> handle.value == h && Place() == PhaseAfterAll(p, TurnsIn(h, delays, k))
        decreases STOP_TIMEOUT_MS - waited
      {
        OneMoreDelay(p, h, delays, k, Place());
        Elapse(Delay(delays, k));
        waited, k := waited + STOP_POLL_MS, k + 1;
      }
      ParksExactly(p, TurnsIn(h, delays, STOP_TIMEOUT_MS / STOP_POLL_MS));
      if !finished && handle.Some? {
        return Timeout, None;
      }
      if handle.Some? {
        StillParked(p, h, delays, k, STOP_TIMEOUT_MS / STOP_POLL_MS);
        var doomed := handle.value;
        handle := None;
        deleted := Some(live[doomed]);
        live := live - {doomed};
      } else {
        Elapse(Delay(delays, k));
      }
      return Ok, deleted;
    }
  }

  /** What a caller and time do with a runtime. */
  datatype Op =
    | StartOp(imageErr: Err, loadErr: Err, created: bool)
    | StopOp(delays: seq<seq<Move>>)
    | Wait(moves: seq<Move>)

  /** In every run up to the first stop that times out: the handle is set exactly when one task is live. */
  method RunOps(r: Runtime, ops: seq<Op>) returns (timedOut: bool)
    requires r.Quiet()
    modifies r
    ensures !timedOut ==> r.Quiet() && (r.handle.Some? <==> |r.live| == 1) && (r.handle.None? <==> |r.live| == 0)
    ensures timedOut ==> r.OneTask() && r.handle.Some?
  {
    for i := 0 to |ops|
      invariant r.Quiet()
    {
      match ops[i] {
        case StartOp(imageErr, loadErr, created) =>
          var _ := r.Start(imageErr, loadErr, created);
        case StopOp(delays) =>
          var err, _ := r.Stop(delays);
          if err == Timeout {
            return true;
          }
        case Wait(moves) => r.Elapse(moves);
      }
    }
    LiveCount(r.live, r.handle);
    return false;
  }

  lemma LiveCount(live: map<nat, Phase>, handle: Option<nat>)
    requires if handle.None? then live == map[] else live.Keys == {handle.value}
    ensures |live| == if handle.None? then 0 else 1
  {
    assert |live| == |live.Keys|;
  }

  /** Why a timeout has to be excluded: the runtime it leaves passes start's only guard, and a second task joins the first. */
  method SecondTask(r: Runtime)
    requires r.OneTask() && r.handle.Some? && !r.running
    modifies r
    ensures |r.live| == 2 && !r.OneTask()
  {
    LiveCount(r.live, r.handle);
    var err := r.Start(Ok, Ok, true);
    assert |r.live| == |r.live.Keys|;
  }
}
