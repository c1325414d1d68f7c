/** The remaining-time display: non-negative whole seconds rendered as `MM:SS`
    (getTimeInMMSS in src/components/App.jsx), with a parser as its inverse. */
module TimeFormat {
  import opened Wrappers

  predicate IsDigit(ch: char) {
    '0' <= ch <= '9'
  }

  predicate AllDigits(s: string) {
    forall i :: 0 <= i < |s| ==> IsDigit(s[i])
  }

  function DigitChar(d: nat): (ch: char)
    requires d < 10
    ensures IsDigit(ch) && ch as int - '0' as int == d
  {
    ('0' as int + d) as char
  }

  function DigitValue(ch: char): nat
    requires IsDigit(ch)
  {
    ch as int - '0' as int
  }

  /** The decimal text of `n`, as a JavaScript template literal renders a
      non-negative integer: no sign, no leading zeros. */
  function NatToString(n: nat): (s: string)
    ensures 1 <= |s| && AllDigits(s)
    ensures n < 10 <==> |s| == 1
    ensures 10 <= n < 100 <==> |s| == 2
  {
    if n < 10 then [DigitChar(n)] else NatToString(n / 10) + [DigitChar(n % 10)]
  }

  /** The number a string of decimal digits denotes (leading zeros allowed). */
  function ValueOf(s: string): nat
    requires AllDigits(s)
  {
    if s == [] then 0 else ValueOf(s[..|s| - 1]) * 10 + DigitValue(s[|s| - 1])
  }

  lemma {:induction false} ValueOfNatToString(n: nat)
    ensures ValueOf(NatToString(n)) == n
  {
    if n >= 10 {
      var s := NatToString(n);
      assert s[..|s| - 1] == NatToString(n / 10);
      ValueOfNatToString(n / 10);
    }
  }

  /** A leading zero does not change the value of a digit string. */
  lemma {:induction false} ValueOfLeadingZero(s: string)
    requires AllDigits(s)
    ensures AllDigits("0" + s) && ValueOf("0" + s) == ValueOf(s)
  {
    var t := "0" + s;
    if s != [] {
      assert t[..|t| - 1] == "0" + s[..|s| - 1];
      ValueOfLeadingZero(s[..|s| - 1]);
    }
  }

  /** `n` left-padded with one zero when it has a single digit. */
  function Pad2(n: nat): string {
    if n < 10 then "0" + NatToString(n) else NatToString(n)
  }

  lemma Pad2Denotes(n: nat)
    ensures 2 <= |Pad2(n)| && AllDigits(Pad2(n)) && ValueOf(Pad2(n)) == n
    ensures n < 100 <==> |Pad2(n)| == 2
  {
    ValueOfNatToString(n);
    if n < 10 {
      ValueOfLeadingZero(NatToString(n));
    }
  }

  /** getTimeInMMSS: whole minutes, then the seconds left over, each padded to
      two digits only when it is below ten. */
  function GetTimeInMMSS(seconds: nat): (r: string)
    ensures r == Pad2(seconds / 60) + ":" + Pad2(seconds % 60)
  {
    var minutesLeft := seconds / 60;
    var secondsLeft := seconds - minutesLeft * 60;
    if minutesLeft < 10 && secondsLeft < 10 then
      "0" + NatToString(minutesLeft) + ":0" + NatToString(secondsLeft)
    else if minutesLeft < 10 then
      "0" + NatToString(minutesLeft) + ":" + NatToString(secondsLeft)
    else if secondsLeft < 10 then
      NatToString(minutesLeft) + ":0" + NatToString(secondsLeft)
    else
      NatToString(minutesLeft) + ":" + NatToString(secondsLeft)
  }

  /** Reads `M..M:SS` back: at least two minute digits, a colon, exactly two
      second digits denoting a value below 60. */
  function ParseMMSS(t: string): Option<nat> {
    if 5 <= |t| && t[|t| - 3] == ':' && AllDigits(t[..|t| - 3]) && AllDigits(t[|t| - 2..])
       && ValueOf(t[|t| - 2..]) < 60
    then Some(ValueOf(t[..|t| - 3]) * 60 + ValueOf(t[|t| - 2..]))
    else None
  }

  /** The shape of every formatted time: the minutes as at least two digits,
      a colon, and the seconds as exactly two digits with value in 0..59. */
  lemma {:induction false} GetTimeInMMSSShape(seconds: nat)
    ensures var r := GetTimeInMMSS(seconds);
      5 <= |r| && r[|r| - 3] == ':'
      && AllDigits(r[..|r| - 3]) && ValueOf(r[..|r| - 3]) == seconds / 60
      && AllDigits(r[|r| - 2..]) && ValueOf(r[|r| - 2..]) == seconds % 60 < 60
  {
    var r := GetTimeInMMSS(seconds);
    var mm, ss := Pad2(seconds / 60), Pad2(seconds % 60);
    Pad2Denotes(seconds / 60);
    Pad2Denotes(seconds % 60);
    assert r == mm + ":" + ss;
    assert r[..|r| - 3] == mm;
    assert r[|r| - 2..] == ss;
  }

  /** Parsing a formatted time gives back the seconds it was made from. */
  lemma {:induction false} ParseGetTimeInMMSS(seconds: nat)
    ensures ParseMMSS(GetTimeInMMSS(seconds)) == Some(seconds)
  {
    GetTimeInMMSSShape(seconds);
  }

  /** Different remaining times never display the same. */
  lemma {:induction false} GetTimeInMMSSInjective(a: nat, b: nat)
    requires GetTimeInMMSS(a) == GetTimeInMMSS(b)
    ensures a == b
  {
    ParseGetTimeInMMSS(a);
    ParseGetTimeInMMSS(b);
  }

  lemma GetTimeInMMSSExamples()
    ensures GetTimeInMMSS(0) == "00:00"
    ensures GetTimeInMMSS(59) == "00:59"
    ensures GetTimeInMMSS(60) == "01:00"
    ensures GetTimeInMMSS(599) == "09:59"
    ensures GetTimeInMMSS(600) == "10:00"
    ensures GetTimeInMMSS(1500) == "25:00"
  {
  }
}
