/** The session state machine of src/components/App.jsx as values: the three
    pieces of React state (seconds, timerState, sessionCounter), the durations
    each handler reads, the transitions the handlers perform, and the strings
    and flags the component derives from the state. */
module Timer {
  import TimeFormat

  datatype TimerState = Stopped | Running | Paused

  /** The four stored settings, in seconds except the delay, which is a
      session count. */
  datatype Config = Config(
    pomodoroDuration: nat,
    shortBreakDuration: nat,
    longBreakDuration: nat,
    longBreakDelay: nat)

  datatype Session = Session(seconds: nat, timerState: TimerState, sessionCounter: nat)

  /** The longest of the three durations: no interval the handlers start is
      longer. */
  function LongestDuration(c: Config): (m: nat)
    ensures c.pomodoroDuration <= m && c.shortBreakDuration <= m && c.longBreakDuration <= m
    ensures m == c.pomodoroDuration || m == c.shortBreakDuration || m == c.longBreakDuration
  {
    var m := if c.pomodoroDuration < c.shortBreakDuration then c.shortBreakDuration else c.pomodoroDuration;
    if m < c.longBreakDuration then c.longBreakDuration else m
  }

  /** What handleStop leaves behind, and the state at start-up and after a
      settings change. */
  function Reset(c: Config): Session {
    Session(c.pomodoroDuration, Stopped, 1)
  }

  /** handleSkip: the equality with the delay is tested before the parity, and
      only the branch entering a work session stops the timer. */
  function Skipped(s: Session, c: Config): Session {
    if s.sessionCounter == c.longBreakDelay then
      Session(c.longBreakDuration, s.timerState, s.sessionCounter + 1)
    else if s.sessionCounter % 2 != 0 then
      Session(c.shortBreakDuration, s.timerState, s.sessionCounter + 1)
    else
      Session(c.pomodoroDuration, Stopped, s.sessionCounter + 1)
  }

  /** The interval callback: at zero it skips, otherwise it counts down. */
  function Ticked(s: Session, c: Config): Session {
    if s.seconds == 0 then Skipped(s, c) else s.(seconds := s.seconds - 1)
  }

  /** The onStart handler the controls receive. */
  function ToggledState(t: TimerState): TimerState {
    if t == Stopped || t == Paused then Running else Paused
  }

  function Toggled(s: Session): Session {
    s.(timerState := ToggledState(s.timerState))
  }

  // ---- derived views ----

  /** The label of the start/pause button. */
  function ButtonLabel(t: TimerState): (text: string)
    ensures text == "Start" <==> t == Stopped
    ensures text == "Pause" <==> t == Running
    ensures text == "Resume" <==> t == Paused
  {
    assert "Start"[0] != "Pause"[0] && |"Resume"| != |"Start"| && |"Resume"| != |"Pause"|;
    match t
    case Stopped => "Start"
    case Running => "Pause"
    case Paused => "Resume"
  }

  /** The skip control is disabled only before anything has happened since the
      last reset. */
  function SkipDisabled(s: Session): bool {
    s.timerState == Stopped && s.sessionCounter == 1
  }

  const WorkSuffix: string := " - Work"
  const BreakSuffix: string := " - Break"

  /** The document title: the formatted time, then a suffix chosen by the
      parity of the session counter. */
  function Title(s: Session): (title: string)
    ensures var time := TimeFormat.GetTimeInMMSS(s.seconds);
      |time| < |title| && title[..|time|] == time
      && (s.sessionCounter % 2 == 1 <==> title[|time|..] == WorkSuffix)
      && (s.sessionCounter % 2 == 0 <==> title[|time|..] == BreakSuffix)
  {
    if s.sessionCounter % 2 != 0 then TimeFormat.GetTimeInMMSS(s.seconds) + WorkSuffix
    else TimeFormat.GetTimeInMMSS(s.seconds) + BreakSuffix
  }

  /** A desktop notification's heading and text. */
  datatype Notice = Notice(title: string, body: string)

  const BreakNotice: Notice := Notice("It's Break Time", "Take a short break... :)")
  const WorkNotice: Notice := Notice("It's Work Time!", "Time to get back work... :)")

  /** The notification notify shows for the counter the skip started from. */
  function NoticeFor(sessionCounter: nat): (n: Notice)
    ensures n == BreakNotice <==> sessionCounter % 2 == 1
    ensures n == WorkNotice <==> sessionCounter % 2 == 0
  {
    if sessionCounter % 2 != 0 then BreakNotice else WorkNotice
  }

  // ---- properties of the transitions ----

  /** The three branches of handleSkip, and the counter step they share. */
  lemma SkipSequencing(s: Session, c: Config)
    ensures Skipped(s, c).sessionCounter == s.sessionCounter + 1
    ensures s.sessionCounter == c.longBreakDelay ==>
      Skipped(s, c).seconds == c.longBreakDuration && Skipped(s, c).timerState == s.timerState
    ensures s.sessionCounter != c.longBreakDelay && s.sessionCounter % 2 == 1 ==>
      Skipped(s, c).seconds == c.shortBreakDuration && Skipped(s, c).timerState == s.timerState
    ensures s.sessionCounter != c.longBreakDelay && s.sessionCounter % 2 == 0 ==>
      Skipped(s, c).seconds == c.pomodoroDuration && Skipped(s, c).timerState == Stopped
  {
  }

  /** A skip does not look at how much time was left. */
  lemma SkipIgnoresSeconds(s: Session, c: Config, seconds: nat)
    ensures Skipped(s.(seconds := seconds), c) == Skipped(s, c)
  {
  }

  /** Skipping early and letting the countdown run out lead to the same state. */
  lemma SkipEqualsExpiry(s: Session, c: Config)
    ensures Ticked(s.(seconds := 0), c) == Skipped(s, c)
  {
  }

  /** A tick with time left only counts down. */
  lemma TickCountsDown(s: Session, c: Config)
    requires s.seconds > 0
    ensures Ticked(s, c) == Session(s.seconds - 1, s.timerState, s.sessionCounter)
  {
  }

  /** A reset leaves the skip control disabled. */
  lemma ResetDisablesSkip(c: Config)
    ensures SkipDisabled(Reset(c))
  {
  }

  /** Start/pause: stopped and paused become running, running becomes paused;
      the button names the transition it performs. */
  lemma ToggleMatchesLabel(t: TimerState)
    ensures ToggledState(t) == Running <==> ButtonLabel(t) != "Pause"
    ensures ToggledState(t) == Paused <==> ButtonLabel(t) == "Pause"
    ensures t != Stopped ==> ToggledState(ToggledState(t)) == t
  {
  }

  /** After any skip the skip control is enabled, since the counter is past 1. */
  lemma SkipEnablesSkip(s: Session, c: Config)
    requires 1 <= s.sessionCounter
    ensures !SkipDisabled(Skipped(s, c))
  {
  }

  /** With an even stored delay (the default 4, or any value the settings form
      stores doubled) the long break is chosen when a break ends and runs at an
      odd counter, so the title calls it work; the skip after it picks a short
      break again without stopping the timer. */
  lemma LongBreakAtOddCounter(s: Session, c: Config)
    requires c.longBreakDelay % 2 == 0 && s.sessionCounter == c.longBreakDelay
    ensures var r := Skipped(s, c);
      r.seconds == c.longBreakDuration && r.sessionCounter % 2 == 1
      && Title(r) == TimeFormat.GetTimeInMMSS(r.seconds) + WorkSuffix
      && Skipped(r, c) == Session(c.shortBreakDuration, s.timerState, s.sessionCounter + 2)
  {
  }

  /** The notification is chosen by parity alone: apart from the long-break
      case it announces the interval the skip begins, but at an even delay it
      announces work while a long break begins. */
  lemma NoticeMatchesNextInterval(s: Session, c: Config)
    ensures s.sessionCounter != c.longBreakDelay && NoticeFor(s.sessionCounter) == BreakNotice ==>
      Skipped(s, c) == Session(c.shortBreakDuration, s.timerState, s.sessionCounter + 1)
    ensures s.sessionCounter != c.longBreakDelay && NoticeFor(s.sessionCounter) == WorkNotice ==>
      Skipped(s, c) == Session(c.pomodoroDuration, Stopped, s.sessionCounter + 1)
    ensures s.sessionCounter == c.longBreakDelay && c.longBreakDelay % 2 == 0 ==>
      NoticeFor(s.sessionCounter) == WorkNotice && Skipped(s, c).seconds == c.longBreakDuration
  {
  }
}
