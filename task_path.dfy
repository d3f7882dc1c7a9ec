/**
 * `TaskPath`: each task becomes a marker along the snowy path, placed at a
 * percentage of the path's length, with a check or gift icon and a
 * "Session n" caption.
 */
module TaskPath {
  import opened HomeTasks
  import opened TimeFormat

  /**
   * The offset of the marker for task `index` of `count`, in percent of the
   * path: the path is cut into count + 1 equal pieces and the markers sit on
   * the inner cut points.
   */
  function Progress(index: nat, count: nat): (p: real)
    ensures p * (count + 1) as real == (index + 1) as real * 100.0
    ensures 0.0 < p
    ensures index < count ==> p < 100.0
  {
    var q := (index + 1) as real / (count + 1) as real;
    assert q * (count + 1) as real == (index + 1) as real;
    q * 100.0
  }

  /** Later tasks sit further along the path. */
  lemma ProgressIncreasing(i: nat, j: nat, count: nat)
    requires i < j
    ensures Progress(i, count) < Progress(j, count)
  {
    var n := (count + 1) as real;
    var pi, pj := Progress(i, count), Progress(j, count);
    assert (pj - pi) * n == (j - i) as real * 100.0;
    var gap := (j - i) as real * 100.0;
    assert pj - pi == gap / n;
    assert gap / n > 0.0;
  }

  datatype Icon = CheckCircle | Gift

  /** A completed task shows the check icon, any other the bouncing gift. */
  function IconFor(task: Task): (icon: Icon)
    ensures icon == CheckCircle <==> task.completed
  {
    if task.completed then CheckCircle else Gift
  }

  /** The caption under marker `index`: sessions are numbered from 1. */
  function SessionLabel(index: nat): (text: string)
    ensures |text| > 8 && text[..8] == "Session "
    ensures AllDigits(text[8..]) && DigitsValue(text[8..]) == index + 1
    ensures |text| == 9 || text[8] != '0'
  {
    NatToStringValue(index + 1);
    var text := "Session " + NatToString(index + 1);
    assert text[8..] == NatToString(index + 1);
    text
  }

  datatype Marker = Marker(key: string, tooltip: string, progress: real, icon: Icon, caption: string)

  /** The markers `TaskPath` renders for a task list, in list order. */
  function Markers(tasks: seq<Task>): (markers: seq<Marker>)
    ensures |markers| == |tasks|
  {
    seq(|tasks|, i requires 0 <= i < |tasks| =>
      Marker(tasks[i].id, tasks[i].text, Progress(i, |tasks|), IconFor(tasks[i]), SessionLabel(i)))
  }

  /**
   * Every marker lies strictly inside the path, markers advance along it in
   * list order, and each shows its own task's text and completion.
   */
  lemma MarkersLayout(tasks: seq<Task>)
    ensures forall i :: 0 <= i < |tasks| ==>
      0.0 < Markers(tasks)[i].progress < 100.0
      && Markers(tasks)[i].tooltip == tasks[i].text
      && (Markers(tasks)[i].icon == CheckCircle <==> tasks[i].completed)
    ensures forall i, j :: 0 <= i < j < |tasks| ==> Markers(tasks)[i].progress < Markers(tasks)[j].progress
  {
    forall i, j | 0 <= i < j < |tasks|
      ensures Markers(tasks)[i].progress < Markers(tasks)[j].progress
    {
      ProgressIncreasing(i, j, |tasks|);
    }
  }
}
