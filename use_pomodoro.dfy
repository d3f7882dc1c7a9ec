/**
 * The stand-alone Pomodoro hook: a 25-minute countdown that reports each
 * completed session and starts over. It persists itself with a timestamp
 * and, on mount, restores by subtracting the whole seconds elapsed since;
 * because the persistence effect runs first, the record restored is the
 * one just written.
 */
module UsePomodoro {
  import opened Wrappers

  /** POMODORO_TIME: 25 minutes, in seconds. */
  const PomodoroTime: int := 1500

  /** The interval's `setTimeLeft` updater: the next time and whether `onTaskComplete` fires. */
  function TickUpdate(prev: int): (r: (int, bool))
    ensures r.1 <==> prev <= 1
    ensures r.1 ==> r.0 == PomodoroTime
    ensures !r.1 ==> r.0 == prev - 1 && r.0 >= 1
  {
    if prev <= 1 then (PomodoroTime, true) else (prev - 1, false)
  }

  /** The whole seconds elapsed between two millisecond clock readings, rounded down. */
  function ElapsedSeconds(now: int, timestamp: int): (e: int)
    ensures e * 1000 <= now - timestamp < (e + 1) * 1000
    ensures now >= timestamp ==> e >= 0
  {
    (now - timestamp) / 1000
  }

  /** The restored time: the saved time less the elapsed seconds, but never below zero. */
  function RestoredTime(saved: int, now: int, timestamp: int): (t: int)
    ensures t >= 0
    ensures t >= saved - ElapsedSeconds(now, timestamp)
    ensures t > 0 ==> t == saved - ElapsedSeconds(now, timestamp)
    ensures now >= timestamp && saved >= 0 ==> t <= saved
  {
    var newTime := saved - ElapsedSeconds(now, timestamp);
    if newTime < 0 then 0 else newTime
  }

  /** What the hook writes to storage on every change. */
  datatype SavedTimer = SavedTimer(timeLeft: int, isRunning: bool, sessionActive: bool, timestamp: int)

  /**
   * Saving and restoring round-trip: restored k whole seconds later (give
   * or take less than one), the time is the saved time less k, floored at 0.
   */
  lemma RestoreAfterSave(saved: int, timestamp: int, k: nat, extraMs: int)
    requires saved >= 0 && 0 <= extraMs < 1000
    ensures RestoredTime(saved, timestamp + 1000 * k + extraMs, timestamp) == if saved >= k then saved - k else 0
    ensures RestoredTime(saved, timestamp, timestamp) == saved
  {
    var e := ElapsedSeconds(timestamp + 1000 * k + extraMs, timestamp);
    assert e == k by {
      assert e * 1000 <= 1000 * k + extraMs < (e + 1) * 1000;
    }
  }

  /**
   * The time left after mounting as the hook is written: the persistence
   * effect runs first and overwrites storage with the fresh state stamped
   * `saveNow`, so the restore effect reads that snapshot back and whatever
   * an earlier page stored (`previous`) plays no part.
   */
  function MountedTimeAsWritten(initial: int, previous: Option<SavedTimer>, saveNow: int, restoreNow: int): (t: int)
    ensures initial >= 0 && 0 <= restoreNow - saveNow < 1000 ==> t == initial
  {
    RestoredTime(initial, restoreNow, saveNow)
  }

  /** The time left after mounting when the earlier page's record is restored before it is overwritten. */
  function MountedTimeIntended(initial: int, previous: Option<SavedTimer>, now: int): (t: int)
    ensures previous.None? ==> t == initial
    ensures previous.Some? ==> t == RestoredTime(previous.value.timeLeft, now, previous.value.timestamp)
  {
    if previous.Some? then RestoredTime(previous.value.timeLeft, now, previous.value.timestamp) else initial
  }

  /**
   * The discrepancy: a page left with 300 s and a running timer, and the
   * next page mounts a minute later. As written it shows a full 1500 s;
   * restoring first gives the intended 240 s.
   */
  lemma MountIgnoresPreviousSave()
    ensures MountedTimeAsWritten(PomodoroTime, Some(SavedTimer(300, true, true, 0)), 60000, 60000) == PomodoroTime
    ensures MountedTimeIntended(PomodoroTime, Some(SavedTimer(300, true, true, 0)), 60000) == 240
  {
    RestoreAfterSave(300, 0, 60, 0);
  }

  /**
   * With restore first, a page that mounts k whole seconds after the
   * earlier page saved t seconds shows t - k, floored at 0.
   */
  lemma {:induction false} IntendedMountResumes(initial: int, t: int, running: bool, active: bool, ts: int, k: nat, extraMs: int)
    requires t >= 0 && 0 <= extraMs < 1000
    ensures MountedTimeIntended(initial, Some(SavedTimer(t, running, active, ts)), ts + 1000 * k + extraMs)
      == if t >= k then t - k else 0
  {
    RestoreAfterSave(t, ts, k, extraMs);
  }

  class PomodoroHook {
    var timeLeft: int
    var isRunning: bool
    var sessionActive: bool

    /** The remaining time never goes negative. */
    ghost predicate Valid()
      reads this
    {
      timeLeft >= 0
    }

    constructor ()
      ensures Valid() && timeLeft == PomodoroTime && !isRunning && !sessionActive
    {
      timeLeft := PomodoroTime;
      isRunning := false;
      sessionActive := false;
    }

    /** The state the persistence effect writes, stamped with `now`. */
    function Snapshot(now: int): (s: SavedTimer)
      reads this
      ensures s.timeLeft == timeLeft && s.isRunning == isRunning && s.sessionActive == sessionActive
      ensures s.timestamp == now
    {
      SavedTimer(timeLeft, isRunning, sessionActive, now)
    }

    /**
     * The mount-time restore; `saved` is None when nothing is stored or it
     * does not parse. Only the time is restored, and the timer is stopped.
     */
    method Restore(saved: Option<SavedTimer>, now: int)
      requires Valid()
      modifies this
      ensures Valid()
      ensures saved.None? ==> timeLeft == old(timeLeft) && isRunning == old(isRunning)
      ensures saved.Some? ==> timeLeft == RestoredTime(saved.value.timeLeft, now, saved.value.timestamp) && !isRunning
      ensures sessionActive == old(sessionActive)
    {
      if saved.Some? {
        var newTime := RestoredTime(saved.value.timeLeft, now, saved.value.timestamp);
        timeLeft := newTime;
        isRunning := false;
      }
    }

    /**
     * The two mount-time effects in their written order: the persistence
     * effect stores the fresh state stamped `saveNow`, replacing `previous`,
     * then the restore effect reads that record back at `restoreNow`.
     * Returns what storage holds after the first effect.
     */
    method Mount(previous: Option<SavedTimer>, saveNow: int, restoreNow: int) returns (stored: SavedTimer)
      requires Valid()
      modifies this
      ensures Valid()
      ensures stored == old(Snapshot(saveNow))
      ensures timeLeft == MountedTimeAsWritten(old(timeLeft), previous, saveNow, restoreNow) && !isRunning
      ensures sessionActive == old(sessionActive)
    {
      stored := Snapshot(saveNow);
      Restore(Some(stored), restoreNow);
    }

    /**
     * The mount with the restore effect ahead of the persistence effect:
     * the earlier page's record is read first, then the restored state is
     * stored stamped `now`.
     */
    method MountRestoringFirst(previous: Option<SavedTimer>, now: int) returns (stored: SavedTimer)
      requires Valid()
      modifies this
      ensures Valid()
      ensures timeLeft == MountedTimeIntended(old(timeLeft), previous, now)
      ensures previous.Some? ==> !isRunning
      ensures previous.None? ==> isRunning == old(isRunning)
      ensures sessionActive == old(sessionActive)
      ensures stored == Snapshot(now)
    {
      Restore(previous, now);
      stored := Snapshot(now);
    }

    /**
     * One firing of the interval, which exists only while running; returns
     * whether `onTaskComplete` was called.
     */
    method IntervalTick() returns (completed: bool)
      requires Valid()
      modifies this
      ensures Valid()
      ensures completed <==> old(isRunning) && old(timeLeft) <= 1
      ensures !old(isRunning) ==> timeLeft == old(timeLeft) && !isRunning && sessionActive == old(sessionActive)
      ensures old(isRunning) ==> timeLeft == TickUpdate(old(timeLeft)).0
      ensures completed ==> !isRunning && !sessionActive && timeLeft == PomodoroTime
      ensures old(isRunning) && !completed ==> isRunning && sessionActive == old(sessionActive)
    {
      completed := false;
      if !isRunning {
        return;
      }
      var next := TickUpdate(timeLeft);
      if next.1 {
        completed := true;
        isRunning := false;
        sessionActive := false;
      }
      timeLeft := next.0;
    }

    method ToggleTimer()
      requires Valid()
      modifies this
      ensures Valid()
      ensures sessionActive && isRunning == !old(isRunning) && timeLeft == old(timeLeft)
    {
      sessionActive := true;
      isRunning := !isRunning;
    }

    method ResetTimer()
      requires Valid()
      modifies this
      ensures Valid()
      ensures !isRunning && timeLeft == PomodoroTime && sessionActive == old(sessionActive)
    {
      isRunning := false;
      timeLeft := PomodoroTime;
    }
  }
}
