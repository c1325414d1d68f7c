/** The App component of src/components/App.jsx: the store plus the three
    pieces of session state, one event per handler, and a class whose methods
    perform each handler's update in place. */
module Pomodoro {
  import opened Wrappers
  import opened Timer
  import opened Store

  datatype AppState = AppState(store: map<string, nat>, session: Session)

  /** What every render leaves true: the four settings are stored, the
      session counter has not gone below its reset value, and the time left is
      no longer than the longest stored duration. */
  predicate WellFormed(a: AppState) {
    HasAllKeys(a.store) && 1 <= a.session.sessionCounter
    && a.session.seconds <= LongestDuration(ConfigOf(a.store))
  }

  /** The handlers the controls and the interval call. */
  datatype Event =
    | Toggle                                            // onStart: start, pause or resume
    | Skip                                              // handleSkip
    | Tick                                              // the interval callback
    | Stop                                              // handleStop
    | ChangeSettings(settings: seq<(string, nat)>)      // handleSettingsChange

  /** The first render: the defaults rule, then the initial React state. */
  function Initial(stored: map<string, nat>): (a: AppState)
    ensures WellFormed(a)
  {
    var store := WithDefaults(stored);
    AppState(store, Reset(ConfigOf(store)))
  }

  function Step(a: AppState, e: Event): (r: AppState)
    requires HasAllKeys(a.store)
    ensures WellFormed(a) ==> WellFormed(r)
  {
    var c := ConfigOf(a.store);
    match e
    case Toggle => a.(session := Toggled(a.session))
    case Skip => a.(session := Skipped(a.session, c))
    case Tick => a.(session := Ticked(a.session, c))
    case Stop => a.(session := Reset(c))
    case ChangeSettings(settings) =>
      var store := ApplySettings(a.store, settings);
      ApplySettingsKeepsKeys(a.store, settings);
      AppState(store, Reset(ConfigOf(store)))
  }

  function Run(a: AppState, events: seq<Event>): (r: AppState)
    requires HasAllKeys(a.store)
    ensures HasAllKeys(r.store)
    ensures WellFormed(a) ==> WellFormed(r)
    decreases |events|
  {
    if events == [] then a else Run(Step(a, events[0]), events[1..])
  }

  predicate IsReset(e: Event) {
    e.Stop? || e.ChangeSettings?
  }

  /** The event reaches handleSkip: a skip, or a tick at zero. */
  predicate Advances(s: Session, e: Event) {
    e.Skip? || (e.Tick? && s.seconds == 0)
  }

  /** The event takes handleSkip's long-break branch. */
  predicate TakesLongBreak(a: AppState, e: Event)
    requires HasAllKeys(a.store)
  {
    Advances(a.session, e) && a.session.sessionCounter == ConfigOf(a.store).longBreakDelay
  }

  /** How many long breaks a run of events starts. */
  function LongBreaks(a: AppState, events: seq<Event>): nat
    requires HasAllKeys(a.store)
    decreases |events|
  {
    if events == [] then 0
    else (if TakesLongBreak(a, events[0]) then 1 else 0) + LongBreaks(Step(a, events[0]), events[1..])
  }

  predicate NoResets(events: seq<Event>) {
    forall i :: 0 <= i < |events| ==> !IsReset(events[i])
  }

  // ---- properties of the state machine ----

  /** A skip, and a tick at zero, add one to the counter; stop and a settings
      change set it to 1; every other event leaves it alone. Only a settings
      change writes the store. */
  lemma StepCounter(a: AppState, e: Event)
    requires HasAllKeys(a.store)
    ensures var r := Step(a, e);
      && (Advances(a.session, e) ==> r.session.sessionCounter == a.session.sessionCounter + 1)
      && (IsReset(e) ==> r.session.sessionCounter == 1)
      && (!Advances(a.session, e) && !IsReset(e) ==> r.session.sessionCounter == a.session.sessionCounter)
      && (!e.ChangeSettings? ==> r.store == a.store)
  {
  }

  /** Stop from any state leaves the timer stopped at the start of a work
      session, and stopping again changes nothing. */
  lemma StopIdempotent(a: AppState)
    requires HasAllKeys(a.store)
    ensures Step(a, Stop) == AppState(a.store, Session(a.store[PomodoroKey], Stopped, 1))
    ensures Step(Step(a, Stop), Stop) == Step(a, Stop)
  {
  }

  /** After a settings change the store holds the scaled values, unsupplied
      keys keep theirs, and the session is reset to the new work duration. */
  lemma {:induction false} ChangeSettingsResets(a: AppState, settings: seq<(string, nat)>, k: string)
    requires HasAllKeys(a.store)
    ensures var r := Step(a, ChangeSettings(settings));
      && r.session == Session(r.store[PomodoroKey], Stopped, 1)
      && (k !in SuppliedKeys(settings) && k in a.store ==> r.store[k] == a.store[k])
      && (k in SuppliedKeys(settings) ==>
            exists i :: LastFor(settings, k, i) && r.store[k] == Scaled(k, settings[i].1))
  {
    ApplySettingsAt(a.store, settings, k);
  }

  /** Once the counter is past the delay, no later event of a run without
      resets takes the long-break branch. */
  lemma {:induction false} NoLongBreakPastDelay(a: AppState, events: seq<Event>)
    requires HasAllKeys(a.store) && NoResets(events)
    requires a.session.sessionCounter > ConfigOf(a.store).longBreakDelay
    ensures LongBreaks(a, events) == 0
    decreases |events|
  {
    if events != [] {
      assert !IsReset(events[0]);
      StepCounter(a, events[0]);
      assert NoResets(events[1..]) by {
        forall i | 0 <= i < |events[1..]| ensures !IsReset(events[1..][i]) {
          assert events[1..][i] == events[i + 1];
        }
      }
      NoLongBreakPastDelay(Step(a, events[0]), events[1..]);
    }
  }

  /** The long-break branch is an equality test on a counter that only grows
      between resets, so a run without stop or settings changes takes it at
      most once. */
  lemma {:induction false} LongBreakAtMostOnce(a: AppState, events: seq<Event>)
    requires HasAllKeys(a.store) && NoResets(events)
    ensures LongBreaks(a, events) <= 1
    decreases |events|
  {
    if events != [] {
      assert !IsReset(events[0]);
      StepCounter(a, events[0]);
      assert NoResets(events[1..]) by {
        forall i | 0 <= i < |events[1..]| ensures !IsReset(events[1..][i]) {
          assert events[1..][i] == events[i + 1];
        }
      }
      if TakesLongBreak(a, events[0]) {
        NoLongBreakPastDelay(Step(a, events[0]), events[1..]);
      } else {
        LongBreakAtMostOnce(Step(a, events[0]), events[1..]);
      }
    }
  }

  /** The skip control is disabled after exactly the resets, and otherwise only
      stays disabled across ticks that leave the counter at 1. */
  lemma StepSkipDisabled(a: AppState, e: Event)
    requires WellFormed(a)
    ensures IsReset(e) ==> SkipDisabled(Step(a, e).session)
    ensures SkipDisabled(Step(a, e).session) ==> IsReset(e) || (SkipDisabled(a.session) && e.Tick?)
  {
  }

  /** With the default settings, four skips from the first render start the
      long break at counter 5, and the fifth starts a short break. */
  lemma DefaultCycle()
    ensures Run(Initial(map[]), [Toggle, Skip]).session == Session(300, Running, 2)
    ensures Run(Initial(map[]), [Toggle, Skip, Skip]).session == Session(1500, Stopped, 3)
    ensures Run(Initial(map[]), [Toggle, Skip, Skip, Toggle, Skip]).session == Session(300, Running, 4)
    ensures Run(Initial(map[]), [Toggle, Skip, Skip, Toggle, Skip, Skip]).session == Session(1200, Running, 5)
    ensures Run(Initial(map[]), [Toggle, Skip, Skip, Toggle, Skip, Skip, Skip]).session == Session(300, Running, 6)
  {
  }

  function Repeat(e: Event, n: nat): (r: seq<Event>)
    ensures |r| == n && forall i :: 0 <= i < n ==> r[i] == e
  {
    if n == 0 then [] else [e] + Repeat(e, n - 1)
  }

  /** Running two lists of events one after the other is running their
      concatenation. */
  lemma {:induction false} RunConcat(a: AppState, xs: seq<Event>, ys: seq<Event>)
    requires HasAllKeys(a.store)
    ensures Run(a, xs + ys) == Run(Run(a, xs), ys)
    decreases |xs|
  {
    if xs != [] {
      assert (xs + ys)[0] == xs[0] && (xs + ys)[1..] == xs[1..] + ys;
      RunConcat(Step(a, xs[0]), xs[1..], ys);
    } else {
      assert xs + ys == ys;
    }
  }

  /** `n` ticks with at least `n` seconds left count down `n` seconds and
      touch nothing else. */
  lemma {:induction false} TicksCountDown(a: AppState, n: nat)
    requires HasAllKeys(a.store) && n <= a.session.seconds
    ensures Run(a, Repeat(Tick, n)) == a.(session := a.session.(seconds := a.session.seconds - n))
    decreases n
  {
    if n > 0 {
      var b := Step(a, Tick);
      assert b == a.(session := a.session.(seconds := a.session.seconds - 1));
      assert Repeat(Tick, n)[1..] == Repeat(Tick, n - 1);
      TicksCountDown(b, n - 1);
    }
  }

  /** Work 5, short break 2, long break 3, delay 2: after starting, five ticks
      empty the work session and the sixth starts the short break at counter
      2; when that runs out the counter equals the delay, and the equality test
      coming first starts the long break, not a work session. */
  lemma {:induction false} ShortDelayScenario()
    ensures var a := Initial(map[PomodoroKey := 5, ShortBreakKey := 2, LongBreakKey := 3, LongBreakDelayKey := 2]);
      && Run(a, [Toggle] + Repeat(Tick, 5) + [Tick]).session == Session(2, Running, 2)
      && Run(a, [Toggle] + Repeat(Tick, 5) + [Tick] + Repeat(Tick, 2) + [Tick]).session == Session(3, Running, 3)
  {
    var a0 := Initial(map[PomodoroKey := 5, ShortBreakKey := 2, LongBreakKey := 3, LongBreakDelayKey := 2]);
    assert ConfigOf(a0.store) == Config(5, 2, 3, 2);
    var a1 := Step(a0, Toggle);
    assert Run(a0, [Toggle]) == a1 by { assert Run(a1, []) == a1; }
    TicksCountDown(a1, 5);
    var a2 := Run(a1, Repeat(Tick, 5));
    assert a2.session == Session(0, Running, 1);
    var a3 := Step(a2, Tick);
    assert Run(a2, [Tick]) == a3 by { assert Run(a3, []) == a3; }
    assert a3.session == Session(2, Running, 2);
    TicksCountDown(a3, 2);
    var a4 := Run(a3, Repeat(Tick, 2));
    assert a4.session == Session(0, Running, 2);
    var a5 := Step(a4, Tick);
    assert Run(a4, [Tick]) == a5 by { assert Run(a5, []) == a5; }
    assert a5.session == Session(3, Running, 3);
    RunConcat(a0, [Toggle], Repeat(Tick, 5));
    RunConcat(a0, [Toggle] + Repeat(Tick, 5), [Tick]);
    RunConcat(a0, [Toggle] + Repeat(Tick, 5) + [Tick], Repeat(Tick, 2));
    RunConcat(a0, [Toggle] + Repeat(Tick, 5) + [Tick] + Repeat(Tick, 2), [Tick]);
  }

  /** Every state reachable from the first render by any handlers is well
      formed: in particular the time left never exceeds the longest stored
      duration. */
  lemma ReachableWellFormed(stored: map<string, nat>, events: seq<Event>)
    ensures WellFormed(Run(Initial(stored), events))
  {
  }

  /** Skipping gives the same state as letting the countdown run to zero and
      ticking once more. */
  lemma {:induction false} SkipEqualsCountdown(a: AppState)
    requires HasAllKeys(a.store)
    ensures Run(a, Repeat(Tick, a.session.seconds) + [Tick]) == Step(a, Skip)
  {
    var n := a.session.seconds;
    TicksCountDown(a, n);
    var b := Run(a, Repeat(Tick, n));
    RunConcat(a, Repeat(Tick, n), [Tick]);
    assert Run(b, [Tick]) == Step(b, Tick) by { assert Run(Step(b, Tick), []) == Step(b, Tick); }
    assert b.session.seconds == 0 && b.store == a.store;
    SkipIgnoresSeconds(a.session, ConfigOf(a.store), 0);
  }

  // ---- the component ----

  /** The App component's mutable state: the store and the three React state
      variables. Each method is one handler, applied as one atomic update. */
  class App {
    var store: map<string, nat>
    var seconds: nat
    var timerState: TimerState
    var sessionCounter: nat

    function State(): AppState
      reads this
    {
      AppState(store, Session(seconds, timerState, sessionCounter))
    }

    ghost predicate Valid()
      reads this
    {
      WellFormed(State())
    }

    /** The first render: apply the defaults rule to what was stored, then
        start stopped at the work duration with the counter at 1. */
    constructor (stored: map<string, nat>)
      ensures Valid() && State() == Initial(stored)
    {
      store := stored;
      seconds := 0;
      timerState := Stopped;
      sessionCounter := 1;
      new;
      FillDefaults();
      seconds := store[PomodoroKey];
    }

    /** The defaults block at the top of every render. */
    method FillDefaults()
      modifies this
      ensures store == WithDefaults(old(store))
      ensures seconds == old(seconds) && timerState == old(timerState) && sessionCounter == old(sessionCounter)
    {
      if !(PomodoroKey in store) || !(ShortBreakKey in store) || !(LongBreakKey in store)
         || !(LongBreakDelayKey in store)
      {
        store := store[PomodoroKey := 1500];
        store := store[ShortBreakKey := 300];
        store := store[LongBreakKey := 1200];
        store := store[LongBreakDelayKey := 4];
      }
    }

    method HandleStop()
      requires Valid()
      modifies this
      ensures Valid() && State() == Step(old(State()), Stop)
      ensures store == old(store)
      ensures seconds == store[PomodoroKey] && sessionCounter == 1 && timerState == Stopped
    {
      seconds := store[PomodoroKey];
      sessionCounter := 1;
      timerState := Stopped;
    }

    /** handleSkip; returns the notification notify is asked to show, chosen
        by the counter before the skip. */
    method HandleSkip() returns (notice: Notice)
      requires Valid()
      modifies this
      ensures Valid() && State() == Step(old(State()), Skip)
      ensures store == old(store) && sessionCounter == old(sessionCounter) + 1
      ensures notice == NoticeFor(old(sessionCounter))
    {
      if sessionCounter == store[LongBreakDelayKey] {
        seconds := store[LongBreakKey];
      } else if sessionCounter % 2 != 0 {
        seconds := store[ShortBreakKey];
      } else {
        seconds := store[PomodoroKey];
        timerState := Stopped;
      }
      sessionCounter := sessionCounter + 1;
      notice := NoticeFor(sessionCounter - 1);
    }

    /** The interval callback; the caller issues it once a second while the
        timer runs. Returns the notification when the tick reached handleSkip. */
    method OnTick() returns (notice: Option<Notice>)
      requires Valid()
      modifies this
      ensures Valid() && State() == Step(old(State()), Tick)
      ensures old(seconds) > 0 ==>
        seconds == old(seconds) - 1 && timerState == old(timerState)
        && sessionCounter == old(sessionCounter) && notice == None
      ensures old(seconds) == 0 ==> notice == Some(NoticeFor(old(sessionCounter)))
    {
      if seconds == 0 {
        var n := HandleSkip();
        notice := Some(n);
      } else {
        seconds := seconds - 1;
        notice := None;
      }
    }

    /** The start/pause button. */
    method OnStart()
      requires Valid()
      modifies this
      ensures Valid() && State() == Step(old(State()), Toggle)
      ensures old(timerState) == Running ==> timerState == Paused
      ensures old(timerState) != Running ==> timerState == Running
      ensures store == old(store) && seconds == old(seconds) && sessionCounter == old(sessionCounter)
    {
      if timerState == Stopped || timerState == Paused {
        timerState := Running;
      } else {
        timerState := Paused;
      }
    }

    /** handleSettingsChange: write each supplied setting, scaled, in order;
        then reset to the newly stored work duration. */
    method HandleSettingsChange(settings: seq<(string, nat)>)
      requires Valid()
      modifies this
      ensures Valid() && State() == Step(old(State()), ChangeSettings(settings))
      ensures store == ApplySettings(old(store), settings)
      ensures seconds == store[PomodoroKey] && timerState == Stopped && sessionCounter == 1
    {
      var i := 0;
      while i < |settings|
        invariant 0 <= i <= |settings|
        invariant store == ApplySettings(old(store), settings[..i])
      {
        var (key, value) := settings[i];
        if key == LongBreakDelayKey {
          store := store[key := value * 2];
        } else {
          store := store[key := value * 60];
        }
        assert settings[..i + 1][..i] == settings[..i];
        i := i + 1;
      }
      assert settings[..i] == settings;
      ApplySettingsKeepsKeys(old(store), settings);
      seconds := store[PomodoroKey];
      timerState := Stopped;
      sessionCounter := 1;
    }
  }
}
