/** The settings kept in the browser's key-value store, modelled as a map from
    key to stored integer: the all-or-nothing defaults rule that runs on every
    render, and the unit conversion handleSettingsChange applies when writing. */
module Store {
  import Timer

  const PomodoroKey: string := "pomodoroDuration"
  const ShortBreakKey: string := "shortBreakDuration"
  const LongBreakKey: string := "longBreakDuration"
  const LongBreakDelayKey: string := "longBreakDelay"

  const SettingKeys: set<string> := {PomodoroKey, ShortBreakKey, LongBreakKey, LongBreakDelayKey}

  predicate HasAllKeys(m: map<string, nat>) {
    PomodoroKey in m && ShortBreakKey in m && LongBreakKey in m && LongBreakDelayKey in m
  }

  /** The durations a render reads from a complete store. */
  function ConfigOf(m: map<string, nat>): Timer.Config
    requires HasAllKeys(m)
  {
    Timer.Config(m[PomodoroKey], m[ShortBreakKey], m[LongBreakKey], m[LongBreakDelayKey])
  }

  /** If any of the four keys is missing, all four are written with their
      defaults (overwriting those that were present); otherwise nothing is. */
  function WithDefaults(m: map<string, nat>): (r: map<string, nat>)
    ensures HasAllKeys(r)
    ensures HasAllKeys(m) ==> r == m
    ensures !HasAllKeys(m) ==>
      ConfigOf(r) == Timer.Config(1500, 300, 1200, 4)
      && r.Keys == m.Keys + SettingKeys
      && forall k :: k in m && k !in SettingKeys ==> r[k] == m[k]
  {
    if HasAllKeys(m) then m
    else m[PomodoroKey := 1500][ShortBreakKey := 300][LongBreakKey := 1200][LongBreakDelayKey := 4]
  }

  /** The factor a supplied setting is multiplied by before it is stored:
      minutes become seconds, and the delay is doubled. */
  function Scaled(key: string, value: nat): nat {
    if key == LongBreakDelayKey then value * 2 else value * 60
  }

  function SuppliedKeys(settings: seq<(string, nat)>): set<string> {
    set i | 0 <= i < |settings| :: settings[i].0
  }

  /** Entry `i` is the last one in `settings` that names `key`. */
  predicate LastFor(settings: seq<(string, nat)>, key: string, i: int) {
    0 <= i < |settings| && settings[i].0 == key
    && forall j :: i < j < |settings| ==> settings[j].0 != key
  }

  /** The store after writing each supplied setting in order. */
  function ApplySettings(m: map<string, nat>, settings: seq<(string, nat)>): (r: map<string, nat>)
    ensures r.Keys == m.Keys + SuppliedKeys(settings)
  {
    if settings == [] then m
    else
      var (key, value) := settings[|settings| - 1];
      var before := settings[..|settings| - 1];
      assert SuppliedKeys(settings) == SuppliedKeys(before) + {key} by {
        forall k | k in SuppliedKeys(settings) ensures k in SuppliedKeys(before) + {key} {
          var i :| 0 <= i < |settings| && settings[i].0 == k;
          if i < |before| { assert before[i] == settings[i]; }
        }
        forall k | k in SuppliedKeys(before) ensures k in SuppliedKeys(settings) {
          var i :| 0 <= i < |before| && before[i].0 == k;
          assert settings[i] == before[i];
        }
      }
      ApplySettings(m, before)[key := Scaled(key, value)]
  }

  /** A key nobody supplied keeps its stored value; a supplied key holds the
      last value supplied for it, scaled. */
  lemma {:induction false} ApplySettingsAt(m: map<string, nat>, settings: seq<(string, nat)>, k: string)
    ensures k !in SuppliedKeys(settings) && k in m ==> ApplySettings(m, settings)[k] == m[k]
    ensures k in SuppliedKeys(settings) ==>
      exists i :: LastFor(settings, k, i) && ApplySettings(m, settings)[k] == Scaled(k, settings[i].1)
  {
    if settings != [] {
      var n := |settings| - 1;
      var before := settings[..n];
      ApplySettingsAt(m, before, k);
      if settings[n].0 == k {
        assert LastFor(settings, k, n);
      } else {
        if k in SuppliedKeys(settings) {
          var i0 :| 0 <= i0 < |settings| && settings[i0].0 == k;
          assert before[i0].0 == k;
          assert k in SuppliedKeys(before);
          var i :| LastFor(before, k, i) && ApplySettings(m, before)[k] == Scaled(k, before[i].1);
          assert LastFor(settings, k, i);
        } else {
          forall i | 0 <= i < |before| ensures before[i].0 != k {
            assert before[i] == settings[i];
          }
        }
      }
    }
  }

  /** Writing settings never removes one of the four keys. */
  lemma ApplySettingsKeepsKeys(m: map<string, nat>, settings: seq<(string, nat)>)
    requires HasAllKeys(m)
    ensures HasAllKeys(ApplySettings(m, settings))
  {
  }

  /** A delay that is even stays even: a supplied one is stored doubled, an
      unsupplied one is kept. */
  lemma StoredDelayStaysEven(m: map<string, nat>, settings: seq<(string, nat)>)
    requires HasAllKeys(m) && m[LongBreakDelayKey] % 2 == 0
    ensures ApplySettings(m, settings)[LongBreakDelayKey] % 2 == 0
  {
  }

  /** The defaults rule rewrites a complete store to itself, so running it again
      on a later render changes nothing. */
  lemma WithDefaultsIdempotent(m: map<string, nat>)
    ensures WithDefaults(WithDefaults(m)) == WithDefaults(m)
  {
  }
}
