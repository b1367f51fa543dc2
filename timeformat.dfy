/**
 * The integer arithmetic behind the two clocks on the page: the countdown
 * display with its colour thresholds, and the elapsed time on the results
 * screen. Both print a number of seconds as `m:ss`.
 */
module TimeFormat {
  import opened Wrappers

  /** `Math.floor(a / b)` for a positive divisor. */
  function FloorDiv(a: int, b: int): (q: int)
    requires b > 0
    ensures b * q <= a < b * (q + 1)
  {
    a / b
  }

  /** JavaScript's `a % b` for a positive divisor: the remainder takes the sign of `a`. */
  function JsRem(a: int, b: int): (r: int)
    requires b > 0
    ensures -b < r < b
    ensures a >= 0 ==> r == a % b
    ensures a < 0 ==> r <= 0
  {
    if a >= 0 then a % b else -((-a) % b)
  }

  /** JavaScript's remainder is odd in its dividend: `(-a) % b === -(a % b)`. */
  lemma JsRemOdd(a: int, b: int)
    requires b > 0
    ensures JsRem(-a, b) == -JsRem(a, b)
  {
  }

  predicate IsDigit(c: char)
  {
    '0' <= c <= '9'
  }

  predicate AllDigits(s: string)
  {
    forall i :: 0 <= i < |s| ==> IsDigit(s[i])
  }

  function DigitChar(d: nat): (c: char)
    requires d < 10
    ensures IsDigit(c) && c as int - '0' as int == d
  {
    ('0' as int + d) as char
  }

  /** The decimal value of a string of digits. */
  function DecimalValue(s: string): nat
    requires AllDigits(s)
  {
    if s == [] then 0
    else DecimalValue(s[..|s| - 1]) * 10 + (s[|s| - 1] as int - '0' as int)
  }

  /** `n.toString()` for a non-negative integer: its decimal digits, no leading zero. */
  function NatToString(n: nat): (s: string)
    ensures 1 <= |s| && AllDigits(s)
    ensures n < 10 <==> |s| == 1
    ensures n >= 10 ==> s[0] != '0'
  {
    if n < 10 then [DigitChar(n)] else NatToString(n / 10) + [DigitChar(n % 10)]
  }

  /** Printing a number and reading the digits back gives the number. */
  lemma {:induction false} NatToStringRoundTrip(n: nat)
    ensures DecimalValue(NatToString(n)) == n
  {
    var s := NatToString(n);
    if n >= 10 {
      NatToStringRoundTrip(n / 10);
      assert s[..|s| - 1] == NatToString(n / 10);
    }
  }

  /** `i.toString()` for an integer. */
  function IntToString(i: int): string
  {
    if i < 0 then "-" + NatToString(-i) else NatToString(i)
  }

  /** `s.padStart(2, '0')`. */
  function PadStart2(s: string): (r: string)
    ensures |s| >= 2 ==> r == s
    ensures |s| < 2 ==> |r| == 2 && r[2 - |s|..] == s && forall i :: 0 <= i < 2 - |s| ==> r[i] == '0'
  {
    if |s| >= 2 then s else seq(2 - |s|, _ => '0') + s
  }

  /** A number of seconds as the page prints it: whole minutes, a colon, two-digit seconds. */
  function MinSec(t: int): string
  {
    IntToString(FloorDiv(t, 60)) + ":" + PadStart2(IntToString(JsRem(t, 60)))
  }

  /** Reads an `m:ss` display back into seconds; `None` when it does not have that shape. */
  function ParseMinSec(s: string): (r: Option<int>)
    ensures r.Some? ==> r.value >= 0
  {
    if |s| >= 4 && s[|s| - 3] == ':' && AllDigits(s[..|s| - 3]) && AllDigits(s[|s| - 2..])
    then Some(DecimalValue(s[..|s| - 3]) * 60 + DecimalValue(s[|s| - 2..]))
    else None
  }

  /** Seconds below a minute print as exactly two digits holding their value. */
  lemma TwoDigitSeconds(sec: nat)
    requires sec < 60
    ensures var ss := PadStart2(IntToString(sec));
      |ss| == 2 && AllDigits(ss) && DecimalValue(ss) == sec
  {
    var ss := PadStart2(IntToString(sec));
    if sec < 10 {
      assert ss == ['0', DigitChar(sec)];
      assert ss[..1] == ['0'];
      assert DecimalValue(['0']) == 0 by { assert ['0'][..0] == []; }
    } else {
      assert NatToString(sec / 10) == [DigitChar(sec / 10)];
      assert ss == NatToString(sec);
      NatToStringRoundTrip(sec);
    }
  }

  /** A digit string, a colon and two digits parse as minutes and seconds. */
  lemma ParseJoined(ms: string, ss: string)
    requires AllDigits(ms) && AllDigits(ss) && |ms| >= 1 && |ss| == 2
    ensures ParseMinSec(ms + ":" + ss) == Some(DecimalValue(ms) * 60 + DecimalValue(ss))
  {
    var s := ms + ":" + ss;
    assert s[..|s| - 3] == ms;
    assert s[|s| - 2..] == ss;
  }

  /**
   * For a non-negative count of seconds the display is well formed, its
   * seconds field is below 60, and reading it back gives the count.
   */
  lemma MinSecRoundTrip(t: int)
    requires t >= 0
    ensures ParseMinSec(MinSec(t)) == Some(t)
    ensures var s := MinSec(t); |s| >= 4 && AllDigits(s[|s| - 2..]) && DecimalValue(s[|s| - 2..]) < 60
  {
    var m, sec := t / 60, t % 60;
    var ms, ss := NatToString(m), PadStart2(IntToString(sec));
    TwoDigitSeconds(sec);
    NatToStringRoundTrip(m);
    assert MinSec(t) == ms + ":" + ss;
    ParseJoined(ms, ss);
    var s := MinSec(t);
    assert s[|s| - 2..] == ss;
  }

  /** `Math.floor((end - start) / 1000)`: whole seconds between two millisecond timestamps. */
  function ElapsedSeconds(start: int, end: int): (s: int)
    ensures 1000 * s <= end - start < 1000 * (s + 1)
  {
    FloorDiv(end - start, 1000)
  }

  /** The colour class of the countdown. */
  datatype TimerLevel = Normal | Warning | Danger

  /** How urgent a level is, for comparing levels. */
  function Urgency(l: TimerLevel): nat
  {
    match l
    case Normal => 0
    case Warning => 1
    case Danger => 2
  }

  /** Five minutes or less left is `danger`; otherwise ten minutes or less is `warning`. */
  function TimerLevelOf(timeRemaining: int): TimerLevel
  {
    if timeRemaining <= 300 then Danger
    else if timeRemaining <= 600 then Warning
    else Normal
  }

  /** Less time left never makes the countdown look less urgent. */
  lemma UrgencyMonotone(a: int, b: int)
    requires a <= b
    ensures Urgency(TimerLevelOf(a)) >= Urgency(TimerLevelOf(b))
  {
  }
}
