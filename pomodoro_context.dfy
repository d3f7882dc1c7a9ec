/**
 * The app-wide Pomodoro provider: a one-minute countdown that stops at
 * zero, with toggle and reset, and the guard of its consumer hook.
 */
module PomodoroContext {
  import opened Wrappers

  /** POMODORO_TIME: one minute, in seconds. */
  const PomodoroTime: int := 60

  /** The interval's `setTimeLeft` updater. */
  function TickValue(prev: int): (next: int)
    ensures next >= 0
    ensures prev >= 1 ==> next == prev - 1
    ensures prev <= 1 ==> next == 0
  {
    if prev <= 1 then 0 else prev - 1
  }

  /** Whether the updater also stops the timer and ends the session. */
  predicate TickFinishes(prev: int)
  {
    prev <= 1
  }

  class PomodoroProvider {
    var timeLeft: int
    var isRunning: bool
    var sessionActive: bool

    /** The remaining time stays within one Pomodoro and never goes negative. */
    ghost predicate Valid()
      reads this
    {
      0 <= timeLeft <= PomodoroTime
    }

    constructor ()
      ensures Valid() && timeLeft == PomodoroTime && !isRunning && !sessionActive
    {
      timeLeft := PomodoroTime;
      isRunning := false;
      sessionActive := false;
    }

    /**
     * One firing of the one-second interval. The interval is installed only
     * while the timer runs, so a stopped timer is left as it is.
     */
    method IntervalTick()
      requires Valid()
      modifies this
      ensures Valid()
      ensures !old(isRunning) ==> timeLeft == old(timeLeft) && !isRunning && sessionActive == old(sessionActive)
      ensures old(isRunning) ==> timeLeft == TickValue(old(timeLeft))
      ensures old(isRunning) && TickFinishes(old(timeLeft)) ==> !isRunning && !sessionActive && timeLeft == 0
      ensures old(isRunning) && !TickFinishes(old(timeLeft)) ==> isRunning && sessionActive == old(sessionActive)
    {
      if !isRunning {
        return;
      }
      var prev := timeLeft;
      if TickFinishes(prev) {
        isRunning := false;
        sessionActive := false;
      }
      timeLeft := TickValue(prev);
    }

    method ToggleTimer()
      requires Valid()
      modifies this
      ensures Valid()
      ensures sessionActive && isRunning == !old(isRunning) && timeLeft == old(timeLeft)
    {
      sessionActive := true;
      isRunning := !isRunning;
    }

    method ResetTimer()
      requires Valid()
      modifies this
      ensures Valid()
      ensures !isRunning && timeLeft == PomodoroTime && sessionActive == old(sessionActive)
    {
      isRunning := false;
      timeLeft := PomodoroTime;
    }
  }

  /** Running from a full minute, the timer ends after exactly sixty ticks. */
  lemma {:induction false} TicksToZero(t: int)
    requires 0 <= t
    ensures TickCount(t) == if t == 0 then 1 else t
    decreases t
  {
    if t > 1 {
      TicksToZero(t - 1);
    }
  }

  /** The number of interval firings until the updater reports the end. */
  function TickCount(t: int): (n: nat)
    decreases if t <= 1 then 0 else t
  {
    if TickFinishes(t) then 1 else 1 + TickCount(TickValue(t))
  }

  /** `usePomodoro`: the provider in scope, or the error the hook throws outside one. */
  function UsePomodoro(context: Option<PomodoroProvider>): (r: Result<PomodoroProvider, string>)
    ensures r.Success? <==> context.Some?
    ensures r.Success? ==> r.value == context.value
    ensures r.Failure? ==> r.error == "usePomodoro must be used within PomodoroProvider"
  {
    if context.None? then Failure("usePomodoro must be used within PomodoroProvider") else Success(context.value)
  }
}
