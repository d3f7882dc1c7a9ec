/** The placeholder `PomodoroTimer` component: renders a duration as m:ss. */
module PomodoroTimer {
  import opened TimeFormat

  /** The `duration` prop's default: twenty-five minutes, in seconds. */
  const DefaultDuration: nat := 25 * 60

  /** Whole minutes and leftover seconds of a duration. */
  function Split(duration: nat): (r: (nat, nat))
    ensures r.0 * 60 + r.1 == duration && r.1 < 60
  {
    (duration / 60, duration % 60)
  }

  /** The text the component shows: the same string `formatTime` builds. */
  function Render(duration: nat): (text: string)
    ensures text == FormatTime(duration)
  {
    var (minutes, seconds) := Split(duration);
    NatToString(minutes) + ":" + SecondsField(seconds)
  }

  /** With no `duration` given the component shows 25:00. */
  lemma DefaultRendersTwentyFiveMinutes()
    ensures Render(DefaultDuration) == "25:00"
  {
    FormatTimeExamples();
  }
}
