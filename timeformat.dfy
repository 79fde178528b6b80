/** Utils.formatTime: a playback position or duration in seconds, shown as
    minutes, a colon and two-digit seconds ("3:07"). Times arrive as
    JavaScript numbers; NaN and the infinities are one case, any other value
    a real number (floating-point rounding is not modelled). */
module TimeFormat {
  import FileNames

  datatype Seconds = Finite(value: real) | NotFinite

  datatype Option<T> = None | Some(value: T)

  predicate AllDigits(s: string) {
    forall k :: 0 <= k < |s| ==> FileNames.IsDigit(s[k])
  }

  function DigitChar(d: nat): (c: char)
    requires d < 10
    ensures FileNames.IsDigit(c)
  {
    (('0' as int) + d) as char
  }

  /** `Number.prototype.toString()` of a non-negative integer: decimal,
      no leading zeros. */
  function NatToString(n: nat): (r: string)
    ensures |r| >= 1 && AllDigits(r)
    ensures n < 10 <==> |r| == 1
  {
    if n < 10 then [DigitChar(n)] else NatToString(n / 10) + [DigitChar(n % 10)]
  }

  /** `toString()` of any integer: a minus sign before a negative one. */
  function IntToString(n: int): (r: string)
    ensures |r| >= 1
    ensures r[0] == '-' <==> n < 0
    ensures n >= 0 ==> AllDigits(r)
  {
    if n < 0 then "-" + NatToString(-n) else NatToString(n)
  }

  /** `padStart(2, '0')`. */
  function PadStart2(s: string): (r: string)
    ensures |r| == if |s| >= 2 then |s| else 2
  {
    if |s| >= 2 then s else seq(2 - |s|, _ => '0') + s
  }

  /** Truncation toward zero, which JavaScript's `%` is built on. */
  function Trunc(x: real): int {
    if x >= 0.0 then x.Floor else -((-x).Floor)
  }

  /** JavaScript's `x % m` on numbers: the remainder keeps the sign of x,
      is no larger than x in magnitude, and is x itself when |x| < m.
      Playback.JsRem is the same operator on integer indices; times are
      reals here, so the two cannot share one definition. */
  function JsRem(x: real, m: real): (r: real)
    requires m != 0.0
    ensures m > 0.0 && x >= 0.0 ==> 0.0 <= r <= x
    ensures m > 0.0 && x < 0.0 ==> x <= r <= 0.0
    ensures -m < x < m ==> r == x
  {
    var q := Trunc(x / m);
    if m > 0.0 then QuotientTruncation(x, m); x - m * q as real else x - m * q as real
  }

  /** The truncated quotient has the sign of x, m times it lies between 0
      and x, and it is 0 when |x| < m. */
  lemma QuotientTruncation(x: real, m: real)
    requires m > 0.0
    ensures var q := Trunc(x / m);
      (x >= 0.0 ==> 0 <= q && 0.0 <= m * q as real <= x) &&
      (x < 0.0 ==> q <= 0 && x <= m * q as real <= 0.0) &&
      (-m < x < m ==> q == 0)
  {
    var y := x / m;
    assert m * y == x;
    assert x >= 0.0 <==> y >= 0.0;
    if -m < x < m {
      SmallQuotient(x, m);
    }
  }

  lemma SmallQuotient(x: real, m: real)
    requires m > 0.0 && -m < x < m
    ensures -1.0 < x / m < 1.0
  {
    var y := x / m;
    assert m * y == x;
    assert m * (y - 1.0) < 0.0 && m * (y + 1.0) > 0.0;
  }

  /** `formatTime(seconds)`: "0:00" for NaN or an infinity, otherwise
      `Math.floor(seconds / 60)`, a colon, and `Math.floor(seconds % 60)`
      padded to two characters. */
  function FormatTime(t: Seconds): (r: string)
    ensures |r| >= 4 && ':' in r
  {
    match t
    case NotFinite => "0:00"
    case Finite(s) =>
      IntToString((s / 60.0).Floor) + ":" + PadStart2(IntToString(JsRem(s, 60.0).Floor))
  }

  /** The value of a string of decimal digits. */
  function DigitsValue(s: string): nat
    requires AllDigits(s)
  {
    if s == [] then 0 else DigitsValue(s[..|s| - 1]) * 10 + (s[|s| - 1] as int - '0' as int)
  }

  /** Reads an "m:ss" clock back into whole seconds: at least one digit of
      minutes, a colon, and two digits of seconds below 60. */
  function ParseClock(s: string): Option<nat> {
    if |s| < 4 || s[|s| - 3] != ':' then None
    else
      var m, ss := s[..|s| - 3], s[|s| - 2..];
      if AllDigits(m) && AllDigits(ss) && DigitsValue(ss) < 60 then
        Some(DigitsValue(m) * 60 + DigitsValue(ss))
      else None
  }

  // ---------------------------------------------------------------------
  // Properties
  // ---------------------------------------------------------------------

  lemma {:induction false} NatToStringValue(n: nat)
    ensures DigitsValue(NatToString(n)) == n
  {
    if n >= 10 {
      var s := NatToString(n);
      assert s[..|s| - 1] == NatToString(n / 10);
      NatToStringValue(n / 10);
    }
  }

  /** For a non-negative time the minutes and seconds are those of its
      whole seconds: the real division, `%` and floors agree with integer
      division and remainder on `Math.floor(seconds)`. */
  lemma WholeMinutesAndSeconds(s: real)
    requires s >= 0.0
    ensures (s / 60.0).Floor == s.Floor / 60
    ensures JsRem(s, 60.0).Floor == s.Floor % 60
  {
    var n := s.Floor;
    var q, r := n / 60, n % 60;
    assert n == 60 * q + r;
    assert q as real <= s / 60.0 < q as real + 1.0;
    assert Trunc(s / 60.0) == q;
    assert r as real <= JsRem(s, 60.0) < r as real + 1.0;
  }

  /** The padded seconds field of a value below 60: two digits, the first
      below 6, reading back as the value. */
  lemma SecondsField(r: nat)
    requires r < 60
    ensures var f := PadStart2(IntToString(r));
      |f| == 2 && AllDigits(f) && '0' <= f[0] <= '5' && DigitsValue(f) == r
  {
    var f := PadStart2(IntToString(r));
    if r < 10 {
      assert f == ['0', DigitChar(r)];
      assert f[..1] == ['0'];
      assert f[..1][..0] == [];
      assert DigitsValue(f[..1]) == 0;
      assert DigitsValue(f) == DigitChar(r) as int - '0' as int == r;
    } else {
      assert NatToString(r / 10) == [DigitChar(r / 10)];
      assert f == [DigitChar(r / 10), DigitChar(r % 10)];
      assert f[..1] == [DigitChar(r / 10)];
      assert f[..1][..0] == [];
      assert DigitsValue(f[..1]) == r / 10;
      assert DigitsValue(f) == (r / 10) * 10 + r % 10 == r;
    }
  }

  /** The display of whole seconds n: minutes, a colon, padded seconds. */
  function Clock(n: nat): string {
    NatToString(n / 60) + ":" + PadStart2(IntToString(n % 60))
  }

  /** A non-negative time is shown as the clock of its whole seconds. */
  lemma FormatTimeIsClock(s: real)
    requires s >= 0.0
    ensures FormatTime(Finite(s)) == Clock(s.Floor)
  {
    WholeMinutesAndSeconds(s);
  }

  lemma ParseClockOfClock(n: nat)
    ensures ParseClock(Clock(n)) == Some(n)
  {
    var m, f := NatToString(n / 60), PadStart2(IntToString(n % 60));
    SecondsField(n % 60);
    NatToStringValue(n / 60);
    var str := m + ":" + f;
    assert str[..|str| - 3] == m;
    assert str[|str| - 2..] == f;
  }

  /** Reading the display of a non-negative time back gives its whole
      seconds: minutes and seconds are split correctly and the seconds
      field always has two digits below 60. */
  lemma ParseFormatTime(s: real)
    requires s >= 0.0
    ensures ParseClock(FormatTime(Finite(s))) == Some(s.Floor)
  {
    FormatTimeIsClock(s);
    ParseClockOfClock(s.Floor);
  }

  /** Two non-negative times that differ in their whole seconds are shown
      differently. */
  lemma FormatTimeDistinguishes(s: real, t: real)
    requires s >= 0.0 && t >= 0.0 && s.Floor != t.Floor
    ensures FormatTime(Finite(s)) != FormatTime(Finite(t))
  {
    ParseFormatTime(s);
    ParseFormatTime(t);
  }

  /** NaN and the infinities show as zero, the same as a zero time. */
  lemma NotFiniteShowsZero()
    ensures FormatTime(NotFinite) == "0:00" == FormatTime(Finite(0.0))
  {
    assert IntToString(0) == "0";
  }

  /** A negative time is not clamped: `Math.floor` rounds the minutes down
      while `%` keeps the sign of the seconds. */
  lemma NegativeTimeShape()
    ensures FormatTime(Finite(-5.0)) == "-1:-5"
  {
    assert (-5.0 / 60.0).Floor == -1;
    assert Trunc(-5.0 / 60.0) == 0;
    assert JsRem(-5.0, 60.0) == -5.0;
    assert IntToString(-1) == "-1";
    assert IntToString(-5) == "-5";
  }
}
