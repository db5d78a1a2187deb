/**
 * The Pomodoro timer of the page: a focus session of 25 minutes, then a
 * break of 5 minutes, counted down one second per tick, and the `MM:SS`
 * text the countdown shows.
 */
module Pomodoro {
  import opened Wrappers

  /** `FOCUS_TIME`, in seconds. */
  const FocusTime: int := 25 * 60
  /** `BREAK_TIME`, in seconds. */
  const BreakTime: int := 5 * 60

  // ---------------------------------------------------------------------------
  // The timer state and its transitions

  /** `timer`, `isRunning` and `isFocusSession`. */
  datatype Clock = Clock(remaining: int, isRunning: bool, isFocusSession: bool)

  /** The state after `resetTimer`: a full focus session, stopped. */
  const Fresh: Clock := Clock(FocusTime, false, true)

  /** The seconds a session of the given kind starts with. */
  function SessionLength(isFocusSession: bool): int {
    if isFocusSession then FocusTime else BreakTime
  }

  /** The countdown never leaves its session's range. */
  predicate InRange(c: Clock) {
    1 <= c.remaining <= SessionLength(c.isFocusSession)
  }

  /** `startTimer`: nothing while already running, otherwise the interval starts. */
  function Started(c: Clock): Clock {
    if c.isRunning then c else c.(isRunning := true)
  }

  /**
   * One call of the interval callback: one second off; at zero or below the
   * interval stops and the other kind of session is loaded.
   */
  function Ticked(c: Clock): Clock {
    var r := c.remaining - 1;
    if r <= 0 then
      if c.isFocusSession then Clock(BreakTime, false, false) else Clock(FocusTime, false, true)
    else c.(remaining := r)
  }

  /** `n` ticks in a row. */
  function TickedTimes(c: Clock, n: nat): Clock
    decreases n
  {
    if n == 0 then c else TickedTimes(Ticked(c), n - 1)
  }

  /** Every transition keeps the countdown within `1 ..` its session's length. */
  lemma TransitionsKeepRange(c: Clock)
    requires InRange(c)
    ensures InRange(Started(c)) && InRange(Ticked(c)) && InRange(Fresh)
    ensures 1 <= Ticked(c).remaining <= FocusTime
  {
  }

  /**
   * A running session that has `c.remaining` seconds left ends after exactly
   * that many ticks: before the last one it is still running in the same kind
   * of session, and the last one stops it and loads the other kind in full.
   */
  lemma {:induction false} SessionEndsOnTime(c: Clock)
    requires InRange(c) && c.isRunning
    ensures var before := TickedTimes(c, c.remaining - 1);
            before == c.(remaining := 1)
    ensures var after := TickedTimes(c, c.remaining);
            after == Clock(SessionLength(!c.isFocusSession), false, !c.isFocusSession)
    decreases c.remaining
  {
    if c.remaining > 1 {
      var next := Ticked(c);
      assert next == c.(remaining := c.remaining - 1);
      SessionEndsOnTime(next);
    }
  }

  /** The timer itself: the three variables of the page, updated in place. */
  class Timer {
    var remaining: int
    var isRunning: bool
    var isFocusSession: bool

    function State(): Clock
      reads this
    {
      Clock(remaining, isRunning, isFocusSession)
    }

    ghost predicate Valid()
      reads this
    {
      InRange(State())
    }

    /** The page's initial values. */
    constructor()
      ensures State() == Fresh && Valid()
    {
      remaining := FocusTime;
      isRunning := false;
      isFocusSession := true;
    }

    /** `startTimer`. */
    method Start()
      requires Valid()
      modifies this
      ensures State() == Started(old(State())) && Valid()
    {
      if isRunning {
        return;
      }
      isRunning := true;
    }

    /** The callback `setInterval` calls every second; it only fires while the interval is set. */
    method Tick()
      requires Valid() && isRunning
      modifies this
      ensures State() == Ticked(old(State())) && Valid()
    {
      remaining := remaining - 1;
      if remaining <= 0 {
        isRunning := false;
        if isFocusSession {
          remaining := BreakTime;
          isFocusSession := false;
        } else {
          remaining := FocusTime;
          isFocusSession := true;
        }
      }
    }

    /** `pauseTimer`: the interval is cleared, the countdown kept. */
    method Pause()
      requires Valid()
      modifies this
      ensures State() == old(State()).(isRunning := false) && Valid()
    {
      isRunning := false;
    }

    /** `resetTimer`. */
    method Reset()
      modifies this
      ensures State() == Fresh && Valid()
    {
      isRunning := false;
      remaining := FocusTime;
      isFocusSession := true;
    }
  }

  // ---------------------------------------------------------------------------
  // `formatTime`

  /** The decimal digit character of `d`. */
  function DigitChar(d: nat): char
    requires d < 10
  {
    "0123456789"[d]
  }

  predicate IsDigit(c: char) {
    '0' <= c <= '9'
  }

  predicate AllDigits(s: string) {
    forall i :: 0 <= i < |s| ==> IsDigit(s[i])
  }

  /** The value of one digit character. */
  function DigitValue(c: char): (d: nat)
    requires IsDigit(c)
    ensures d < 10
  {
    var d := c as int - '0' as int;
    assert 0 <= d;
    d
  }

  /** `n.toString()` for a whole number `n >= 0`. */
  function Decimal(n: nat): (s: string)
    ensures 1 <= |s| && AllDigits(s)
    ensures n < 10 <==> |s| == 1
    ensures n < 100 ==> |s| <= 2
  {
    if n < 10 then [DigitChar(n)] else Decimal(n / 10) + [DigitChar(n % 10)]
  }

  /** `padStart(2, '0')`: a zero in front of a one-character text. */
  function Pad2(s: string): (r: string)
    ensures |r| == if |s| < 2 then 2 else |s|
  {
    if |s| == 0 then "00" else if |s| == 1 then "0" + s else s
  }

  /** `formatTime(seconds)` for `seconds >= 0`. */
  function FormatTime(seconds: nat): string {
    Pad2(Decimal(seconds / 60)) + ":" + Pad2(Decimal(seconds % 60))
  }

  /** The number a text of decimal digits stands for. */
  function ValueOf(s: string): nat
    requires AllDigits(s)
  {
    if |s| == 0 then 0 else 10 * ValueOf(s[..|s| - 1]) + DigitValue(s[|s| - 1])
  }

  /** How the countdown text reads back: minutes before the colon, two digits of seconds after it. */
  function ReadClock(text: string): Option<nat> {
    if |text| >= 4 && text[|text| - 3] == ':' && AllDigits(text[..|text| - 3]) && AllDigits(text[|text| - 2..]) then
      var seconds := ValueOf(text[|text| - 2..]);
      if seconds < 60 then Some(60 * ValueOf(text[..|text| - 3]) + seconds) else None
    else None
  }

  /** `Decimal` writes the number it is given. */
  lemma {:induction false} DecimalValue(n: nat)
    ensures ValueOf(Decimal(n)) == n
  {
    if n >= 10 {
      var front := Decimal(n / 10);
      var s := Decimal(n);
      assert s[..|s| - 1] == front;
      DecimalValue(n / 10);
    }
  }

  /** A zero in front changes no value. */
  lemma {:induction false} LeadingZero(s: string)
    requires AllDigits(s)
    ensures AllDigits("0" + s)
    ensures ValueOf("0" + s) == ValueOf(s)
    decreases |s|
  {
    var z := "0" + s;
    assert AllDigits(z) by {
      assert forall i :: 1 <= i < |z| ==> z[i] == s[i - 1];
    }
    if |s| > 0 {
      assert z[..|z| - 1] == "0" + s[..|s| - 1];
      LeadingZero(s[..|s| - 1]);
    }
  }

  /** Padding keeps the digits and the value. */
  lemma Pad2Value(n: nat)
    ensures var p := Pad2(Decimal(n));
            AllDigits(p) && ValueOf(p) == n
  {
    DecimalValue(n);
    if |Decimal(n)| == 1 {
      LeadingZero(Decimal(n));
    }
  }

  /** A text `minutes:ss` reads back as its minutes and seconds. */
  lemma ReadClockOf(m: string, s: string)
    requires 2 <= |m| && AllDigits(m)
    requires |s| == 2 && AllDigits(s) && ValueOf(s) < 60
    ensures ReadClock(m + ":" + s) == Some(60 * ValueOf(m) + ValueOf(s))
  {
    var text := m + ":" + s;
    assert |text| == |m| + 3 && text[|text| - 3] == ':';
    assert text[..|text| - 3] == m;
    assert text[|text| - 2..] == s;
    assert AllDigits(text[..|text| - 3]) && AllDigits(text[|text| - 2..]);
    var seconds := ValueOf(text[|text| - 2..]);
    assert seconds == ValueOf(s) < 60;
    assert ReadClock(text) == Some(60 * ValueOf(text[..|text| - 3]) + seconds);
  }

  /**
   * The countdown text reads back as the number of seconds it was made from,
   * with the seconds field always two digits; below 100 minutes it is exactly
   * `MM:SS`.
   */
  lemma FormatTimeReadsBack(seconds: nat)
    ensures ReadClock(FormatTime(seconds)) == Some(seconds)
    ensures seconds < 6000 ==> |FormatTime(seconds)| == 5
  {
    Pad2Value(seconds / 60);
    Pad2Value(seconds % 60);
    ReadClockOf(Pad2(Decimal(seconds / 60)), Pad2(Decimal(seconds % 60)));
  }
}
