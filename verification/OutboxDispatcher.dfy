/**
 The outbox dispatcher: a drain loop, one timer and wake-ups that must not be lost.

 The process is single threaded and yields only at `await`, so each method below is one stretch of
 code between two awaits.  Starting and stopping do not overlap.
 */
module OutboxDispatcher {
  import opened Wrappers

  const POLL_INTERVAL_MS := 30_000
  const EMPTY_DRAIN_FLOOR_MS := 50
  const FAILED_DRAIN_RETRY_MS := 2_000

  // ---------- when to wake next ----------

  datatype DrainResult = Threw | NoRelay | Drained(dispatched: nat, failed: nat, dueInMs: Option<real>)

  function Ceil(x: real): int { -((-x).Floor) }

  function NextWakeMs(result: DrainResult): int {
    match result
    case Threw => FAILED_DRAIN_RETRY_MS
    case NoRelay => POLL_INTERVAL_MS
    case Drained(dispatched, failed, dueInMs) =>
      var floor := if dispatched + failed == 0 then EMPTY_DRAIN_FLOOR_MS else 0;
      var due := Ceil(dueInMs.GetOr(POLL_INTERVAL_MS as real));
      var next := if due < floor then floor else due;
      if next < POLL_INTERVAL_MS then next else POLL_INTERVAL_MS
  }

  /** Never past the poll interval, and immediate only after a drain that settled something. */
  lemma NextWakeBounds(result: DrainResult)
    ensures 0 <= NextWakeMs(result) <= POLL_INTERVAL_MS
    ensures NextWakeMs(result) == 0 ==>
              result.Drained? && result.dispatched + result.failed > 0 && result.dueInMs.Some? && result.dueInMs.value <= 0.0
    ensures result.Drained? && result.dueInMs.Some? && 50.0 <= result.dueInMs.value <= 30000.0 ==>
              result.dueInMs.value <= NextWakeMs(result) as real < result.dueInMs.value + 1.0
  {
    if result.Drained? && result.dueInMs.Some? {
      var due := Ceil(result.dueInMs.value);
      assert due as real - 1.0 < result.dueInMs.value <= due as real;
    }
  }

  /**
   The next wake, exactly: the least delay that the due time, the floor after an idle drain and the poll
   interval allow.  A failed drain is tried again after two seconds.
   */
  lemma NextWakeIsLeast(result: DrainResult, delay: int)
    ensures NextWakeMs(result) <= delay <==>
            match result
            case Threw => 2_000 <= delay
            case NoRelay => 30_000 <= delay
            case Drained(dispatched, failed, dueInMs) =>
              30_000 <= delay ||
              (dueInMs.Some? && dueInMs.value <= delay as real && delay >= if dispatched == 0 && failed == 0 then 50 else 0)
  {
    if result.Drained? && result.dueInMs.Some? {
      var due := Ceil(result.dueInMs.value);
      assert due as real - 1.0 < result.dueInMs.value <= due as real;
    }
  }

  // ---------- the state ----------

  /** `begun` counts drains ever begun, `loops` the drain loops now running. */
  datatype State = State(
    started: bool,
    stopped: bool,
    starting: bool,
    stopping: bool,
    draining: bool,
    wakeRequested: bool,
    timer: Option<int>,
    loops: nat,
    begun: nat)

  const INITIAL := State(false, true, false, false, false, false, None, 0, 0)

  function Woken(s: State): State {
    if s.stopped then s
    else if s.draining then s.(wakeRequested := true)
    else s.(timer := None, draining := true, wakeRequested := false, loops := s.loops + 1, begun := s.begun + 1)
  }

  function DrainEnded(s: State, nextWakeMs: int): State
    requires s.loops > 0
  {
    if !s.stopped && (s.wakeRequested || nextWakeMs == 0) then s.(wakeRequested := false, begun := s.begun + 1)
    else s.(draining := false, loops := s.loops - 1, timer := if s.stopped then s.timer else Some(nextWakeMs))
  }

  datatype Step = StartCalled | StartDone | Wake | TimerFired | DrainEnds(result: DrainResult) | StopCalled | StopDone

  predicate Enabled(s: State, step: Step) {
    match step
    case StartCalled => !s.stopping && !s.starting
    case StartDone => s.starting
    case Wake => true
    case TimerFired => s.timer.Some?
    case DrainEnds(_) => s.loops > 0
    case StopCalled => !s.starting
    case StopDone => s.stopping && s.loops == 0
  }

  function Apply(s: State, step: Step): State
    requires Enabled(s, step)
  {
    match step
    case StartCalled => if s.started then s else s.(started := true, stopped := false, starting := true)
    case StartDone => Woken(s.(starting := false))
    case Wake => Woken(s)
    case TimerFired => Woken(s.(timer := None))
    case DrainEnds(result) => DrainEnded(s, NextWakeMs(result))
    case StopCalled => s.(started := false, stopped := true, stopping := true, timer := None)
    case StopDone => s.(stopping := false)
  }

  ghost predicate ValidRun(s: State, steps: seq<Step>)
    decreases |steps|
  {
    steps == [] || (Enabled(s, steps[0]) && ValidRun(Apply(s, steps[0]), steps[1..]))
  }

  ghost function Run(s: State, steps: seq<Step>): State
    requires ValidRun(s, steps)
    decreases |steps|
  {
    if steps == [] then s else Run(Apply(s, steps[0]), steps[1..])
  }

  /** One loop at most; a running dispatcher at rest has its timer armed; a stopped one has none. */
  predicate Sound(s: State) {
    && s.started == !s.stopped
    && (s.starting ==> s.started && !s.stopping)
    && (s.stopping ==> s.stopped)
    && s.loops == (if s.draining then 1 else 0)
    && (s.stopped ==> s.timer.None?)
    && (s.draining ==> s.timer.None?)
    && (s.started && !s.starting && !s.draining ==> s.timer.Some?)
    && (s.timer.Some? ==> 0 < s.timer.value <= POLL_INTERVAL_MS)
  }

  class Dispatcher {
    var started: bool
    var stopped: bool
    var starting: bool
    var stopping: bool
    var draining: bool
    var wakeRequested: bool
    var timer: Option<int>
    ghost var loops: nat
    ghost var begun: nat

    ghost function View(): State
      reads this
    {
      State(started, stopped, starting, stopping, draining, wakeRequested, timer, loops, begun)
    }

    constructor ()
      ensures View() == INITIAL
    {
      started, stopped, starting, stopping := false, true, false, false;
      draining, wakeRequested, timer := false, false, None;
      loops, begun := 0, 0;
    }

    /** `start` up to its first await. */
    method Start()
      requires Sound(View()) && Enabled(View(), StartCalled)
      modifies this
      ensures View() == Apply(old(View()), StartCalled) && Sound(View())
      ensures started && !stopped && begun == old(begun)
      ensures if old(started) then View() == old(View()) else starting
    {
      if started { return; }
      started, stopped, starting := true, false, true;
    }

    /** `start` after the listener is up. */
    method FinishStart()
      requires Sound(View()) && Enabled(View(), StartDone)
      modifies this
      ensures View() == Apply(old(View()), StartDone)
      ensures Sound(View())
      ensures !starting && draining && (old(draining) || begun == old(begun) + 1)
    {
      starting := false;
      WakeUp();
    }

    /** A notification, a reconnect or the timer. */
    method WakeUp()
      modifies this
      ensures View() == Woken(old(View()))
      ensures old(stopped) ==> View() == old(View())
      ensures !old(stopped) ==> draining && (if old(draining) then wakeRequested else begun == old(begun) + 1 && timer.None?)
    {
      if stopped { return; }
      if draining {
        wakeRequested := true;
        return;
      }
      timer := None;
      draining := true;
      loops := loops + 1;
      BeginDrain();
    }

    method FireTimer()
      requires Sound(View()) && Enabled(View(), TimerFired)
      modifies this
      ensures View() == Apply(old(View()), TimerFired) && Sound(View())
      ensures draining && begun == old(begun) + 1
    {
      timer := None;
      WakeUp();
    }

    /** The top of the drain loop, up to the drain it awaits. */
    method BeginDrain()
      modifies this`wakeRequested, this`begun
      ensures !wakeRequested && begun == old(begun) + 1
    {
      wakeRequested := false;
      begun := begun + 1;
    }

    /** The drain loop after a drain came back with `result`. */
    method EndDrain(result: DrainResult)
      requires Sound(View()) && Enabled(View(), DrainEnds(result))
      modifies this
      ensures View() == Apply(old(View()), DrainEnds(result)) && Sound(View())
      ensures var again := !old(stopped) && (old(wakeRequested) || NextWakeMs(result) == 0);
        && draining == again && begun == old(begun) + (if again then 1 else 0)
        && (again ==> !wakeRequested)
        && timer == (if draining || stopped then None else Some(NextWakeMs(result)))
        && started == old(started) && stopped == old(stopped) && starting == old(starting) && stopping == old(stopping)
    {
      NextWakeBounds(result);
      var nextWakeMs := NextWakeMs(result);
      if !stopped && (wakeRequested || nextWakeMs == 0) {
        BeginDrain();
      } else {
        draining := false;
        loops := loops - 1;
        if !stopped { timer := Some(nextWakeMs); }
      }
    }

    /** `stop` up to its wait for the running drain. */
    method Stop()
      requires Sound(View()) && Enabled(View(), StopCalled)
      modifies this
      ensures View() == Apply(old(View()), StopCalled) && Sound(View())
      ensures stopped && stopping && timer.None? && draining == old(draining) && begun == old(begun)
    {
      started, stopped, stopping := false, true, true;
      timer := None;
    }

    /** `stop` after the running drain and the listener are done. */
    method FinishStop()
      requires Sound(View()) && Enabled(View(), StopDone)
      modifies this
      ensures View() == Apply(old(View()), StopDone) && Sound(View())
      ensures stopped && !stopping && !draining && timer.None?
    {
      stopping := false;
    }
  }

  lemma StepSound(s: State, step: Step)
    requires Sound(s) && Enabled(s, step)
    ensures Sound(Apply(s, step))
  {
    if step.DrainEnds? { NextWakeBounds(step.result); }
  }

  lemma {:induction false} RunSound(s: State, steps: seq<Step>)
    requires Sound(s) && ValidRun(s, steps)
    ensures Sound(Run(s, steps))
    decreases |steps|
  {
    if steps != [] {
      StepSound(s, steps[0]);
      RunSound(Apply(s, steps[0]), steps[1..]);
    }
  }

  /** In every reachable state at most one drain loop runs, and a dispatcher at rest wakes within the poll interval. */
  lemma AlwaysSound(steps: seq<Step>)
    requires ValidRun(INITIAL, steps)
    ensures var s := Run(INITIAL, steps);
      && s.loops <= 1
      && (s.started && !s.starting && s.loops == 0 ==> s.timer.Some? && 0 < s.timer.value <= POLL_INTERVAL_MS)
      && (s.stopped || s.loops == 1 ==> s.timer.None?)
  {
    RunSound(INITIAL, steps);
  }

  // ---------- no lost wake-up ----------

  lemma {:induction false} DrainsOnlyGrow(s: State, steps: seq<Step>)
    requires ValidRun(s, steps)
    ensures Run(s, steps).begun >= s.begun
    decreases |steps|
  {
    if steps != [] {
      DrainsOnlyGrow(Apply(s, steps[0]), steps[1..]);
    }
  }

  /** A wake-up that met a running drain is paid for when that drain ends, unless a stop comes first. */
  lemma {:induction false} RequestIsHonoured(s: State, steps: seq<Step>, j: nat)
    requires ValidRun(s, steps) && Sound(s) && s.draining && s.wakeRequested && !s.stopped
    requires j < |steps| && steps[j].DrainEnds? && forall i :: 0 <= i < |steps| ==> !steps[i].StopCalled?
    ensures Run(s, steps).begun > s.begun
    decreases |steps|
  {
    var t := Apply(s, steps[0]);
    StepSound(s, steps[0]);
    if steps[0].DrainEnds? {
      DrainsOnlyGrow(t, steps[1..]);
    } else {
      assert steps[j] == steps[1..][j - 1];
      RequestIsHonoured(t, steps[1..], j - 1);
    }
  }

  /**
   After any wake-up of a dispatcher that is not stopped, a drain begins: at once when none runs,
   otherwise no later than the end of the drain that was running.
   */
  lemma NoLostWakeup(before: seq<Step>, after: seq<Step>, j: nat)
    requires ValidRun(INITIAL, before) && !Run(INITIAL, before).stopped
    requires ValidRun(Apply(Run(INITIAL, before), Wake), after)
    requires Run(INITIAL, before).draining ==> j < |after| && after[j].DrainEnds?
    requires forall i :: 0 <= i < |after| ==> !after[i].StopCalled?
    ensures Run(Apply(Run(INITIAL, before), Wake), after).begun > Run(INITIAL, before).begun
  {
    RunSound(INITIAL, before);
    var s := Run(INITIAL, before);
    var t := Apply(s, Wake);
    StepSound(s, Wake);
    if s.draining {
      RequestIsHonoured(t, after, j);
    } else {
      DrainsOnlyGrow(t, after);
    }
  }

  /** From a stop on, until the next start, no drain begins; once the stop is done none runs either. */
  lemma {:induction false} NothingDrainsAfterStop(s: State, steps: seq<Step>)
    requires ValidRun(s, steps) && Sound(s) && s.stopped
    requires forall i :: 0 <= i < |steps| ==> !steps[i].StartCalled?
    ensures var t := Run(s, steps);
      && t.begun == s.begun && t.stopped && t.timer.None? && t.loops <= s.loops
      && (s.stopping && !t.stopping ==> t.loops == 0)
    decreases |steps|
  {
    if steps != [] {
      StepSound(s, steps[0]);
      NothingDrainsAfterStop(Apply(s, steps[0]), steps[1..]);
    }
  }
}
