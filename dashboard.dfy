/**
 * The study dashboard: the task list read back from storage, the journey
 * progress bar, completing the current task when a Pomodoro ends, and the
 * choice of the current task.
 */
module Dashboard {
  import opened TimeFormat
  import PomodoroContext
  import TaskPath

  const GiftEmojis: seq<string> := [
    "🧸", "🎈", "🍰", "🎀", "🦋", "🎵", "📚", "🌟", "🎨", "🎭",
    "🎪", "🎲", "🎸", "🎯", "🏆", "👑", "💎", "🌺", "🦄", "🚀"
  ]

  datatype Task = Task(id: string, text: string, completed: bool, articleEmoji: string)

  /**
   * A stored text field as `||` sees it: `Missing` stands for every falsy
   * value (absent, null, false, 0); `Text` for a string, which is falsy
   * only when empty.
   */
  datatype StoredText = Missing | Text(s: string)

  /** A stored `completed` field: only the JSON literal `true` counts as done. */
  datatype StoredFlag = LiteralTrue | LiteralFalse | NotBoolean

  /**
   * One element of the stored array. `Null` is a null or undefined element,
   * whose field access throws inside the loader.
   */
  datatype StoredItem =
    | Record(id: StoredText, text: StoredText, name: StoredText, completed: StoredFlag, articleEmoji: StoredText)
    | Null

  /** What `localStorage` and `JSON.parse` hand the loader. */
  datatype Stored =
    | NoWindow        // rendered on the server
    | NoEntry         // no "santaTasks" item, or an empty one
    | Unparsable      // `JSON.parse` throws
    | NotAnArray      // valid JSON of another shape
    | Items(items: seq<StoredItem>)

  /** A text field with a fallback for a missing or empty value. */
  function OrElse(value: StoredText, fallback: string): (r: string)
    ensures value.Text? && value.s != "" ==> r == value.s
    ensures value.Missing? || value.s == "" ==> r == fallback
  {
    if value.Text? && value.s != "" then value.s else fallback
  }

  /** The task the loader builds from element i of the stored array. */
  function Normalise(item: StoredItem, i: nat): (t: Task)
    requires item.Record?
    ensures t.id != "" && t.text != "" && t.articleEmoji != ""
    ensures t.completed <==> item.completed == LiteralTrue
    ensures item.id.Text? && item.id.s != "" ==> t.id == item.id.s
    ensures !(item.id.Text? && item.id.s != "") ==> t.id == NatToString(i)
    ensures item.text.Text? && item.text.s != "" ==> t.text == item.text.s
    ensures !(item.text.Text? && item.text.s != "") && item.name.Text? && item.name.s != "" ==>
      t.text == item.name.s
    ensures !(item.text.Text? && item.text.s != "") && !(item.name.Text? && item.name.s != "") ==>
      t.text == "Task " + NatToString(i + 1)
    ensures item.articleEmoji.Text? && item.articleEmoji.s != "" ==> t.articleEmoji == item.articleEmoji.s
    ensures !(item.articleEmoji.Text? && item.articleEmoji.s != "") ==>
      t.articleEmoji == GiftEmojis[i % |GiftEmojis|] && t.articleEmoji in GiftEmojis
  {
    Task(
      OrElse(item.id, NatToString(i)),
      OrElse(item.text, OrElse(item.name, "Task " + NatToString(i + 1))),
      item.completed == LiteralTrue,
      OrElse(item.articleEmoji, GiftEmojis[i % |GiftEmojis|]))
  }

  predicate HasNull(items: seq<StoredItem>)
  {
    exists i :: 0 <= i < |items| && items[i].Null?
  }

  /**
   * `loadTasksFromStorage`: a non-empty stored array of elements is
   * normalised element by element; anything else, and an array holding a
   * null element, gives the empty list.
   */
  function LoadTasks(stored: Stored): (tasks: seq<Task>)
    ensures !(stored.Items? && |stored.items| > 0 && !HasNull(stored.items)) ==> tasks == []
    ensures stored.Items? && !HasNull(stored.items) ==>
      |tasks| == |stored.items|
      && forall i :: 0 <= i < |tasks| ==> tasks[i] == Normalise(stored.items[i], i)
  {
    if stored.Items? && |stored.items| > 0 && !HasNull(stored.items) then
      seq(|stored.items|, i requires 0 <= i < |stored.items| => Normalise(stored.items[i], i))
    else
      []
  }

  /** Default fields: a record with nothing usable gets index-based id, text and emoji. */
  lemma NormaliseDefaults(i: nat)
    ensures Normalise(Record(Missing, Missing, Missing, NotBoolean, Missing), i)
      == Task(NatToString(i), "Task " + NatToString(i + 1), false, GiftEmojis[i % 20])
  {
  }

  predicate AllCompleted(tasks: seq<Task>)
  {
    forall i :: 0 <= i < |tasks| ==> tasks[i].completed
  }

  /** The number of completed tasks. */
  function CompletedCount(tasks: seq<Task>): (c: nat)
    ensures c <= |tasks|
    ensures c == |tasks| <==> AllCompleted(tasks)
    decreases |tasks|
  {
    if tasks == [] then 0
    else CompletedCount(tasks[..|tasks| - 1]) + (if tasks[|tasks| - 1].completed then 1 else 0)
  }

  /** The fraction of the running Pomodoro already spent. */
  function SessionFraction(sessionActive: bool, timeLeft: int): real
  {
    if sessionActive then (PomodoroContext.PomodoroTime - timeLeft) as real / PomodoroContext.PomodoroTime as real else 0.0
  }

  /**
   * `journeyProgress`: the percentage of the journey behind the sleigh. The
   * journey has one leg per task plus one; finished tasks count whole and
   * the running session counts by the time spent.
   */
  function JourneyProgress(tasks: seq<Task>, sessionActive: bool, timeLeft: int): (p: real)
    ensures tasks == [] ==> p == 0.0
    ensures tasks != [] ==>
      p * (|tasks| + 1) as real == (CompletedCount(tasks) as real + SessionFraction(sessionActive, timeLeft)) * 100.0
  {
    if |tasks| == 0 then 0.0
    else
      var q := (CompletedCount(tasks) as real + SessionFraction(sessionActive, timeLeft)) / (|tasks| + 1) as real;
      assert q * (|tasks| + 1) as real == CompletedCount(tasks) as real + SessionFraction(sessionActive, timeLeft);
      q * 100.0
  }

  /** With the remaining time within one Pomodoro the progress is a percentage. */
  lemma JourneyProgressBounds(tasks: seq<Task>, sessionActive: bool, timeLeft: int)
    requires 0 <= timeLeft <= PomodoroContext.PomodoroTime
    ensures 0.0 <= JourneyProgress(tasks, sessionActive, timeLeft) <= 100.0
  {
    if tasks != [] {
      var n := (|tasks| + 1) as real;
      var f := SessionFraction(sessionActive, timeLeft);
      assert 0.0 <= f <= 1.0;
      var steps := CompletedCount(tasks) as real + f;
      assert 0.0 <= steps <= n;
      var p := JourneyProgress(tasks, sessionActive, timeLeft);
      assert p == steps / n * 100.0;
      FractionBounds(steps, n);
    }
  }

  lemma FractionBounds(a: real, b: real)
    requires 0.0 <= a <= b && b > 0.0
    ensures 0.0 <= a / b <= 1.0
  {
    var q := a / b;
    assert q * b == a;
    assert (1.0 - q) * b == b - a;
  }

  /** While a session runs, less time left means more progress. */
  lemma JourneyProgressAdvancesWithTime(tasks: seq<Task>, t1: int, t2: int)
    requires tasks != [] && t2 < t1
    ensures JourneyProgress(tasks, true, t1) < JourneyProgress(tasks, true, t2)
  {
    var n := (|tasks| + 1) as real;
    var c := CompletedCount(tasks) as real;
    var p1, p2 := JourneyProgress(tasks, true, t1), JourneyProgress(tasks, true, t2);
    var f1, f2 := SessionFraction(true, t1), SessionFraction(true, t2);
    assert f2 - f1 == (t1 - t2) as real / 60.0;
    assert (p2 - p1) * n == (f2 - f1) * 100.0;
    assert p2 - p1 == (f2 - f1) * 100.0 / n;
  }

  /** The list `completeTask` stores: the task at `index` marked completed. */
  function MarkComplete(tasks: seq<Task>, index: int): (r: seq<Task>)
    ensures |r| == |tasks|
    ensures forall i :: 0 <= i < |tasks| && i != index ==> r[i] == tasks[i]
    ensures 0 <= index < |tasks| ==> r[index] == tasks[index].(completed := true)
  {
    seq(|tasks|, i requires 0 <= i < |tasks| => if i == index then tasks[i].(completed := true) else tasks[i])
  }

  /** Marking a task adds one to the completed count exactly when it was not yet done. */
  lemma {:induction false} MarkCompleteCount(tasks: seq<Task>, index: int)
    ensures CompletedCount(MarkComplete(tasks, index))
      == CompletedCount(tasks) + (if 0 <= index < |tasks| && !tasks[index].completed then 1 else 0)
    decreases |tasks|
  {
    if tasks != [] {
      var n := |tasks|;
      var r := MarkComplete(tasks, index);
      assert r[..n - 1] == MarkComplete(tasks[..n - 1], index);
      MarkCompleteCount(tasks[..n - 1], index);
    }
  }

  /** The index of the first incomplete task, or -1 when there is none (as `findIndex` reports it). */
  function FirstIncomplete(tasks: seq<Task>): (k: int)
    ensures -1 <= k < |tasks|
    ensures k == -1 <==> AllCompleted(tasks)
    ensures k >= 0 ==> !tasks[k].completed && forall j :: 0 <= j < k ==> tasks[j].completed
    decreases |tasks|
  {
    if tasks == [] then -1
    else if !tasks[0].completed then 0
    else
      var k := FirstIncomplete(tasks[1..]);
      if k == -1 then -1 else k + 1
  }

  /** The node offsets along the journey path: the same placement as `TaskPath`. */
  function NodeProgresses(count: nat): (ps: seq<real>)
    ensures |ps| == count
    ensures forall i :: 0 <= i < count ==> 0.0 < ps[i] < 100.0
  {
    seq(count, i requires 0 <= i < count => TaskPath.Progress(i, count))
  }

  /** Nodes advance along the path in list order. */
  lemma NodeProgressesIncreasing(count: nat)
    ensures forall i, j :: 0 <= i < j < count ==> NodeProgresses(count)[i] < NodeProgresses(count)[j]
  {
    forall i, j | 0 <= i < j < count
      ensures NodeProgresses(count)[i] < NodeProgresses(count)[j]
    {
      TaskPath.ProgressIncreasing(i, j, count);
    }
  }

  /** The `Dashboard` page's state that the logic reads and writes. */
  class DashboardPage {
    var tasks: seq<Task>
    var currentTaskIndex: int
    var showCelebration: bool
    /** The 500 ms timeout that restarts the timer for the next task is pending. */
    var restartPending: bool

    /** The first render: tasks loaded from storage, first index, no celebration. */
    constructor (stored: Stored)
      ensures tasks == LoadTasks(stored) && currentTaskIndex == 0 && !showCelebration && !restartPending
    {
      tasks := LoadTasks(stored);
      currentTaskIndex := 0;
      showCelebration := false;
      restartPending := false;
    }

    /** `allTasksCompleted`: a non-empty list with every task done. */
    function AllTasksCompleted(): (done: bool)
      reads this
      ensures done <==> |tasks| > 0 && CompletedCount(tasks) == |tasks|
    {
      |tasks| > 0 && AllCompleted(tasks)
    }

    /** The timer panel's caption: the current task's text, or "No Task". */
    function CurrentTaskText(): (text: string)
      reads this
      ensures text != ""
      ensures 0 <= currentTaskIndex < |tasks| && tasks[currentTaskIndex].text != "" ==> text == tasks[currentTaskIndex].text
      ensures !(0 <= currentTaskIndex < |tasks| && tasks[currentTaskIndex].text != "") ==> text == "No Task"
    {
      if 0 <= currentTaskIndex < |tasks| && tasks[currentTaskIndex].text != "" then tasks[currentTaskIndex].text else "No Task"
    }

    /**
     * `completeTask`: the current task is marked done. If that finishes the
     * list the celebration shows; otherwise the timer restart is scheduled.
     * An empty list counts as finished.
     */
    method CompleteTask()
      modifies this`tasks, this`showCelebration, this`restartPending
      ensures tasks == MarkComplete(old(tasks), currentTaskIndex)
      ensures AllCompleted(tasks) ==> showCelebration && restartPending == old(restartPending)
      ensures !AllCompleted(tasks) ==> restartPending && showCelebration == old(showCelebration)
    {
      tasks := MarkComplete(tasks, currentTaskIndex);
      if AllCompleted(tasks) {
        showCelebration := true;
      } else {
        restartPending := true;
      }
    }

    /** The scheduled restart fires: reset the timer, then start it. */
    method AutoRestart(timer: PomodoroContext.PomodoroProvider)
      requires timer.Valid() && restartPending
      modifies timer, this`restartPending
      ensures timer.Valid() && !restartPending
      ensures timer.isRunning && timer.sessionActive && timer.timeLeft == PomodoroContext.PomodoroTime
    {
      timer.ResetTimer();
      timer.ToggleTimer();
      restartPending := false;
    }

    /**
     * The effect watching the timer, run when one of its three fields
     * changes: a finished session (no time left, stopped, inactive) completes
     * the current task.
     */
    method ObserveTimer(timeLeft: int, isRunning: bool, sessionActive: bool)
      modifies this`tasks, this`showCelebration, this`restartPending
      ensures !(timeLeft == 0 && !isRunning && !sessionActive) ==>
        tasks == old(tasks) && showCelebration == old(showCelebration) && restartPending == old(restartPending)
      ensures timeLeft == 0 && !isRunning && !sessionActive ==> tasks == MarkComplete(old(tasks), currentTaskIndex)
      ensures timeLeft == 0 && !isRunning && !sessionActive && AllCompleted(tasks) ==>
        showCelebration && restartPending == old(restartPending)
      ensures timeLeft == 0 && !isRunning && !sessionActive && !AllCompleted(tasks) ==>
        restartPending && showCelebration == old(showCelebration)
    {
      if timeLeft == 0 && !isRunning && !sessionActive {
        CompleteTask();
      }
    }

    /** The effect run when the list changes: move to the first unfinished task, if any. */
    method SyncCurrentIndex()
      modifies this`currentTaskIndex
      ensures !AllCompleted(tasks) ==> currentTaskIndex == FirstIncomplete(tasks)
      ensures AllCompleted(tasks) ==> currentTaskIndex == old(currentTaskIndex)
      ensures !AllCompleted(tasks) ==>
        !tasks[currentTaskIndex].completed && forall j :: 0 <= j < currentTaskIndex ==> tasks[j].completed
    {
      if |tasks| > 0 {
        var k := FirstIncomplete(tasks);
        if k != -1 {
          currentTaskIndex := k;
        }
      }
    }

    /**
     * The focus and visibility handlers: reload the list; when it is not
     * empty, point at its first unfinished task (or at 0 when all are done)
     * and celebrate a finished list.
     */
    method Reload(stored: Stored)
      modifies this`tasks, this`currentTaskIndex, this`showCelebration
      ensures tasks == LoadTasks(stored)
      ensures tasks == [] ==> currentTaskIndex == old(currentTaskIndex) && showCelebration == old(showCelebration)
      ensures tasks != [] && !AllCompleted(tasks) ==>
        currentTaskIndex == FirstIncomplete(tasks) && showCelebration == old(showCelebration)
      ensures tasks != [] && AllCompleted(tasks) ==> currentTaskIndex == 0 && showCelebration
    {
      tasks := LoadTasks(stored);
      if |tasks| > 0 {
        var k := FirstIncomplete(tasks);
        currentTaskIndex := if k != -1 then k else 0;
        if AllCompleted(tasks) {
          showCelebration := true;
        }
      }
    }

    /** "Start New Journey": drop the list, hide the celebration and reset the timer. */
    method StartNewJourney(timer: PomodoroContext.PomodoroProvider)
      requires timer.Valid()
      modifies this`tasks, this`showCelebration, this`currentTaskIndex, timer
      ensures tasks == [] && !showCelebration && currentTaskIndex == 0
      ensures timer.Valid() && !timer.isRunning && timer.timeLeft == PomodoroContext.PomodoroTime
      ensures timer.sessionActive == old(timer.sessionActive)
    {
      tasks := [];
      showCelebration := false;
      currentTaskIndex := 0;
      timer.ResetTimer();
    }
  }

  /** Completing the last unfinished task celebrates and schedules no restart. */
  lemma LastTaskCelebrates(tasks: seq<Task>, index: nat)
    requires index < |tasks| && FirstIncomplete(tasks) == index
    requires forall j :: index < j < |tasks| ==> tasks[j].completed
    ensures AllCompleted(MarkComplete(tasks, index))
    ensures CompletedCount(MarkComplete(tasks, index)) == CompletedCount(tasks) + 1
  {
    MarkCompleteCount(tasks, index);
  }
}
