/**
 * `formatTime` of the player (components/playerContent.tsx): a time in
 * seconds shown as minutes, a colon and the seconds padded to two digits.
 *
 * JavaScript's `%` on numbers keeps the sign of the dividend (the quotient
 * is truncated), and `Number.prototype.toString` of an integer is its
 * decimal digits with a leading `-` when negative; both are written out
 * here, so the function is defined for every time, negative ones included.
 * `ParseClock` reads an `m:ss` text back and is the partner that the
 * round-trip lemma pairs with `FormatTime`.
 */
module TimeText {
  import opened Wrappers

  predicate IsDigit(c: char)
  {
    '0' <= c <= '9'
  }

  predicate AllDigits(s: string)
  {
    forall i :: 0 <= i < |s| ==> IsDigit(s[i])
  }

  function DigitChar(d: int): (c: char)
    requires 0 <= d < 10
    ensures IsDigit(c)
  {
    (d + '0' as int) as char
  }

  function DigitValue(c: char): int
  {
    c as int - '0' as int
  }

  /** Value of a string of decimal digits. */
  function ParseDigits(s: string): nat
  {
    if s == [] then 0
    else
      var d := DigitValue(s[|s| - 1]);
      ParseDigits(s[..|s| - 1]) * 10 + (if 0 <= d then d else 0)
  }

  /**
   * Decimal digits of a natural number: they read back as the number, and
   * only the number 0 starts with the digit 0 (no leading zeros).
   */
  function NatToString(n: nat): (s: string)
    ensures |s| >= 1 && AllDigits(s)
    ensures ParseDigits(s) == n
    ensures s[0] == '0' ==> s == "0"
    decreases n
  {
    if n < 10 then
      var s := [DigitChar(n)];
      assert s[..0] == [];
      s
    else
      var front := NatToString(n / 10);
      var s := front + [DigitChar(n % 10)];
      assert s[..|s| - 1] == front;
      s
  }

  /**
   * `String(n)` for an integer `n`: the digits of `n`, or for a negative
   * `n` a minus sign followed by the digits of `-n`.
   */
  function IntToString(n: int): (r: string)
    ensures n >= 0 ==> |r| >= 1 && AllDigits(r) && ParseDigits(r) == n
    ensures n >= 0 ==> (r[0] == '0' ==> r == "0")
    ensures n < 0 ==> |r| >= 2 && r[0] == '-' && AllDigits(r[1..]) && ParseDigits(r[1..]) == -n
    ensures n < 0 ==> r[1] != '0'
  {
    if n < 0 then
      var r := "-" + NatToString(-n);
      assert r[1..] == NatToString(-n);
      r
    else NatToString(n)
  }

  /** `s.padStart(width, fill)` for a one-character fill. */
  function PadStart(s: string, width: nat, fill: char): (r: string)
    ensures |r| == if |s| >= width then |s| else width
    ensures r[|r| - |s|..] == s
    ensures forall i :: 0 <= i < |r| - |s| ==> r[i] == fill
  {
    if |s| >= width then s else seq(width - |s|, _ => fill) + s
  }

  /** `Math.trunc`: the integer next to `x` on the side of zero. */
  function Trunc(x: real): (r: int)
    ensures x >= 0.0 ==> 0 <= r && r as real <= x < r as real + 1.0
    ensures x < 0.0 ==> r <= 0 && r as real - 1.0 < x <= r as real
  {
    if x >= 0.0 then x.Floor else -((-x).Floor)
  }

  /**
   * JavaScript's `a % b` on numbers: `a` minus a whole multiple of `b`,
   * taking the sign of `a` and, for `b > 0`, lying strictly within `b` of 0.
   */
  function JsRem(a: real, b: real): (r: real)
    requires b != 0.0
    ensures (a - r) / b == ((a - r) / b).Floor as real
    ensures b > 0.0 && a >= 0.0 ==> 0.0 <= r < b
    ensures b > 0.0 && a < 0.0 ==> -b < r <= 0.0
  {
    var q := Trunc(a / b);
    RemainderBounds(a, b, q);
    a - b * q as real
  }

  lemma RemainderBounds(a: real, b: real, q: int)
    requires b != 0.0 && q == Trunc(a / b)
    ensures (a - (a - b * q as real)) / b == q as real
    ensures b > 0.0 && a >= 0.0 ==> 0.0 <= a - b * q as real < b
    ensures b > 0.0 && a < 0.0 ==> -b < a - b * q as real <= 0.0
  {
    var m := b * q as real;
    MultipleQuotient(b, q as real);
    assert m / b == q as real;
    assert a - (a - m) == m;
    if b > 0.0 {
      var x := a / b;
      DivTimes(a, b);
      if a >= 0.0 {
        RemainderBelow(a, b, x, q as real);
      } else {
        RemainderAbove(a, b, x, q as real);
      }
    }
  }

  /** With `a = b * x`, `b > 0` and `x` within 1 above a whole `q`, the remainder lies in [0, b). */
  lemma RemainderBelow(a: real, b: real, x: real, q: real)
    requires b > 0.0 && b * x == a && 0.0 <= x - q < 1.0
    ensures 0.0 <= a - b * q < b
  {
    var f := x - q;
    assert a - b * q == b * f;
    ScaledFraction(b, f);
    assert 0.0 <= b * f < b;
  }

  /** With `a = b * x`, `b > 0` and `x` within 1 below a whole `q`, the remainder lies in (-b, 0]. */
  lemma RemainderAbove(a: real, b: real, x: real, q: real)
    requires b > 0.0 && b * x == a && -1.0 < x - q <= 0.0
    ensures -b < a - b * q <= 0.0
  {
    var f := x - q;
    assert a - b * q == b * f;
    ScaledFraction(b, f);
    assert -b < b * f <= 0.0;
  }

  lemma MultipleQuotient(b: real, y: real)
    requires b != 0.0
    ensures (b * y) / b == y
  {
  }

  lemma DivTimes(a: real, b: real)
    requires b != 0.0
    ensures b * (a / b) == a
  {
  }

  lemma ScaledFraction(b: real, f: real)
    requires b > 0.0
    ensures 0.0 <= f < 1.0 ==> 0.0 <= b * f < b
    ensures -1.0 < f <= 0.0 ==> -b < b * f <= 0.0
  {
  }

  /**
   * `formatTime`: the floored minutes, a colon and the floored `%` seconds
   * padded to two characters. For a time t >= 0 that is m + ":" + ss with
   * m = ⌊t⌋ div 60 unpadded and ss = ⌊t⌋ mod 60 in exactly two digits.
   */
  function FormatTime(time: real): (r: string)
    ensures time >= 0.0 ==> r == NatToString(time.Floor / 60) + ":" + TwoDigits(time.Floor % 60)
  {
    var r := IntToString((time / 60.0).Floor) + ":" + PadStart(IntToString(JsRem(time, 60.0).Floor), 2, '0');
    if time >= 0.0 then
      FloorParts(time);
      PaddedSeconds(time.Floor % 60);
      r
    else
      r
  }


  /** Reads `m:ss` (any number of minute digits, exactly two second digits below 60) back to whole seconds. */
  function ParseClock(s: string): Option<nat>
  {
    if |s| >= 4 && s[|s| - 3] == ':' && AllDigits(s[..|s| - 3]) && AllDigits(s[|s| - 2..]) then
      var minutes := ParseDigits(s[..|s| - 3]);
      var seconds := ParseDigits(s[|s| - 2..]);
      if seconds < 60 then Some(minutes * 60 + seconds) else None
    else None
  }

  /** For a non-negative time the minutes are its whole seconds divided by 60 and the `%` part floors to the remainder. */
  lemma FloorParts(time: real)
    requires time >= 0.0
    ensures (time / 60.0).Floor == time.Floor / 60
    ensures JsRem(time, 60.0).Floor == time.Floor % 60
  {
    var f := time.Floor;
    var q, r := f / 60, f % 60;
    assert f == 60 * q + r;
    assert f as real <= time < f as real + 1.0;
    assert q as real <= time / 60.0 < q as real + 1.0 by {
      assert time / 60.0 >= (60 * q) as real / 60.0;
      assert time / 60.0 < (60 * q + r + 1) as real / 60.0;
      assert r + 1 <= 60;
    }
    assert Trunc(time / 60.0) == q;
    assert JsRem(time, 60.0) == time - 60.0 * q as real;
    assert r as real <= time - 60.0 * q as real < r as real + 1.0;
  }

  /** Two digits of a seconds value below 60, as `padStart(2, '0')` shows it. */
  lemma {:induction false} PaddedSeconds(s: int)
    requires 0 <= s < 60
    ensures PadStart(IntToString(s), 2, '0') == TwoDigits(s)
  {
    if s < 10 {
      assert IntToString(s) == [DigitChar(s)];
    } else {
      assert IntToString(s) == NatToString(s / 10) + [DigitChar(s % 10)];
      assert NatToString(s / 10) == [DigitChar(s / 10)];
    }
  }


  /** The two digits of a seconds value below 60. */
  function TwoDigits(sec: int): string
    requires 0 <= sec < 60
  {
    [DigitChar(sec / 10), DigitChar(sec % 10)]
  }

  /** Reading `m:ss` back gives m * 60 + ss. */
  lemma {:induction false} ParseClockText(m: nat, sec: int)
    requires 0 <= sec < 60
    ensures ParseClock(NatToString(m) + ":" + TwoDigits(sec)) == Some(m * 60 + sec)
  {
    var digits := NatToString(m);
    var ss := TwoDigits(sec);
    var s := digits + ":" + ss;
    assert s[..|s| - 3] == digits;
    assert s[|s| - 2..] == ss;
    assert s[|s| - 3] == ':';
    assert ParseDigits(ss) == sec by {
      var hi, lo := DigitChar(sec / 10), DigitChar(sec % 10);
      assert DigitValue(hi) == sec / 10 && DigitValue(lo) == sec % 10;
      assert ss[..1] == [hi];
      assert [hi][..0] == [];
      assert ParseDigits([hi]) == sec / 10;
      assert ParseDigits(ss) == ParseDigits([hi]) * 10 + sec % 10;
    }
  }

  /** Reading the text of a time t >= 0 back gives ⌊t⌋: minutes * 60 + seconds is the whole number of seconds. */
  lemma {:induction false} FormatParseRoundTrip(time: real)
    requires time >= 0.0
    ensures ParseClock(FormatTime(time)) == Some(time.Floor)
  {
    ParseWholeSeconds(time.Floor);
  }

  /** The text of a whole number of seconds reads back as that number. */
  lemma ParseWholeSeconds(f: nat)
    ensures ParseClock(NatToString(f / 60) + ":" + TwoDigits(f % 60)) == Some(f)
  {
    ParseClockText(f / 60, f % 60);
    MinutesSeconds(f);
  }

  lemma MinutesSeconds(f: int)
    ensures f / 60 * 60 + f % 60 == f
  {
  }

  /** Negative times follow JavaScript: floor and truncating `%` disagree, so -1 s reads "-1:-1". */
  lemma NegativeTime()
    ensures FormatTime(-1.0) == "-1:-1"
  {
    assert (-1.0 / 60.0).Floor == -1;
    assert Trunc(-1.0 / 60.0) == 0;
    assert JsRem(-1.0, 60.0).Floor == -1;
    assert IntToString(-1) == "-1";
  }
}
