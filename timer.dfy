/**
 * The game timer: a counter of elapsed seconds, advanced once per tick, and
 * its `m:ss` rendering (minutes without padding, seconds always two digits).
 * The rendering is specified by `FormatTime`; `ParseTime` reads such a text
 * back and is its inverse.
 */
module TimerModel {

  import opened Wrappers

  predicate IsDigit(ch: char)
  {
    '0' <= ch <= '9'
  }

  predicate AllDigits(s: string)
  {
    forall i :: 0 <= i < |s| ==> IsDigit(s[i])
  }

  function Digit(d: nat): (ch: char)
    requires d < 10
    ensures IsDigit(ch)
  {
    ('0' as int + d) as char
  }

  function DigitValue(ch: char): (d: nat)
    requires IsDigit(ch)
    ensures d < 10 && Digit(d) == ch
  {
    ch as int - '0' as int
  }

  /** Decimal text of `n`, without leading zeros (as JavaScript prints a number). */
  function Decimal(n: nat): (s: string)
    ensures |s| >= 1 && AllDigits(s)
    ensures n < 10 <==> |s| == 1
    decreases n
  {
    if n < 10 then [Digit(n)] else Decimal(n / 10) + [Digit(n % 10)]
  }

  function ParseDecimal(s: string): nat
    requires AllDigits(s)
  {
    if |s| == 0 then 0 else ParseDecimal(s[..|s| - 1]) * 10 + DigitValue(s[|s| - 1])
  }

  lemma {:induction false} DecimalRoundTrip(n: nat)
    ensures ParseDecimal(Decimal(n)) == n
    decreases n
  {
    if n >= 10 {
      DecimalRoundTrip(n / 10);
      var s := Decimal(n);
      assert s[..|s| - 1] == Decimal(n / 10);
    }
  }

  /** The seconds field: a leading "0" below 10, so always two characters. */
  function SecondsText(sec: nat): (s: string)
    requires sec < 60
    ensures |s| == 2 && AllDigits(s)
  {
    if sec < 10 then "0" + Decimal(sec) else Decimal(sec)
  }

  lemma LeadingZero(sec: nat)
    requires sec < 60
    ensures SecondsText(sec)[0] == '0' <==> sec < 10
  {
    if sec >= 10 {
      assert Decimal(sec)[0] == Digit(sec / 10);
    }
  }

  lemma SecondsRoundTrip(sec: nat)
    requires sec < 60
    ensures ParseDecimal(SecondsText(sec)) == sec
  {
    DecimalRoundTrip(sec);
    if sec < 10 {
      var s := SecondsText(sec);
      assert s[..1] == "0";
      assert ParseDecimal(s[..0]) == 0;
    }
  }

  /** `minutes + ":" + seconds`, where minutes is the elapsed time divided by 60. */
  function FormatTime(t: nat): (s: string)
    ensures |s| >= 4 && s[|s| - 3] == ':' && AllDigits(s[..|s| - 3]) && AllDigits(s[|s| - 2..])
  {
    Decimal(t / 60) + ":" + SecondsText(t % 60)
  }

  /** Index of the first ':' in `s`, if any. */
  function ColonAt(s: string): (r: Option<nat>)
    ensures r.Some? ==> r.value < |s| && s[r.value] == ':'
  {
    if |s| == 0 then None
    else if s[0] == ':' then Some(0)
    else match ColonAt(s[1..]) {
      case None => None
      case Some(i) => Some(i + 1)
    }
  }

  lemma {:induction false} ColonAfterDigits(p: string, rest: string)
    requires AllDigits(p)
    ensures ColonAt(p + ":" + rest) == Some(|p|)
    decreases |p|
  {
    if |p| > 0 {
      ColonAfterDigits(p[1..], rest);
      assert (p + ":" + rest)[1..] == p[1..] + ":" + rest;
    }
  }

  /** Reads an `m:ss` text back into seconds. */
  function ParseTime(s: string): Option<nat>
  {
    match ColonAt(s) {
      case None => None
      case Some(i) =>
        var m, sec := s[..i], s[i + 1..];
        if 1 <= |m| && AllDigits(m) && |sec| == 2 && AllDigits(sec) && ParseDecimal(sec) < 60
        then Some(ParseDecimal(m) * 60 + ParseDecimal(sec))
        else None
    }
  }

  /**
   * The rendering loses nothing: minutes * 60 + seconds is the elapsed time,
   * and the seconds field is two digits below 60.
   */
  lemma FormatTimeRoundTrip(t: nat)
    ensures ParseTime(FormatTime(t)) == Some(t)
  {
    var m, sec := Decimal(t / 60), SecondsText(t % 60);
    ColonAfterDigits(m, sec);
    var s := FormatTime(t);
    assert s[..|m|] == m;
    assert s[|m| + 1..] == sec;
    DecimalRoundTrip(t / 60);
    SecondsRoundTrip(t % 60);
  }

  /**
   * The two display texts of a time: whole minutes (the integer part of
   * `t / 60`) and the seconds, with a "0" in front below 10.
   */
  method DisplayTexts(t: nat) returns (minutes: string, seconds: string)
    ensures minutes == Decimal(t / 60) && seconds == SecondsText(t % 60)
    ensures ParseDecimal(minutes) * 60 + ParseDecimal(seconds) == t && |seconds| == 2
  {
    minutes := Decimal(t / 60);
    var sec := t % 60;
    seconds := if sec < 10 then "0" + Decimal(sec) else Decimal(sec);
    DecimalRoundTrip(t / 60);
    SecondsRoundTrip(sec);
  }

  class Timer {
    var timeElapsed: nat

    constructor ()
      ensures timeElapsed == 0
    {
      timeElapsed := 0;
    }

    /**
     * One tick of the interval: one more second, and the texts written to the
     * minutes and seconds displays.
     */
    method RefreshTimeDisplay() returns (minutes: string, seconds: string)
      modifies this
      ensures timeElapsed == old(timeElapsed) + 1
      ensures minutes == Decimal(timeElapsed / 60) && seconds == SecondsText(timeElapsed % 60)
    {
      timeElapsed := timeElapsed + 1;
      minutes, seconds := DisplayTexts(timeElapsed);
    }

    /** The final time shown when the game is won; the counter is left as it is. */
    method ProvideFinalTime() returns (s: string)
      ensures s == FormatTime(timeElapsed)
      ensures ParseTime(s) == Some(timeElapsed)
    {
      var minutes, seconds := DisplayTexts(timeElapsed);
      s := minutes + ":" + seconds;
      FormatTimeRoundTrip(timeElapsed);
    }
  }
}
