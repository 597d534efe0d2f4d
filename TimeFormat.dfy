/**
 * The time-formatting helpers of index.js: `pad`, `mmss` and `mmssss`.
 * Inputs are natural numbers. For the safe integers of JavaScript (below
 * 2^53) `Math.floor(a / b)` and `a % b` coincide with Dafny's `/` and `%`;
 * larger inputs lose precision in JavaScript and are outside this model.
 */
module TimeFormat {
  import opened Wrappers

  predicate IsDigit(c: char) { '0' <= c <= '9' }

  predicate AllDigits(s: string) { forall i :: 0 <= i < |s| ==> IsDigit(s[i]) }

  function DigitValue(c: char): nat
    requires IsDigit(c)
  {
    c as int - '0' as int
  }

  /** The numeral character of the decimal digit `d`. */
  function DigitChar(d: nat): (c: char)
    requires d < 10
    ensures IsDigit(c) && DigitValue(c) == d
  {
    ('0' as int + d) as char
  }

  /**
   * The decimal numeral JavaScript produces when a non-negative safe integer
   * is concatenated to a string: no sign and no leading zero. (From 10^21 on
   * JavaScript switches to exponent notation; such inputs are not modelled.)
   */
  function DecimalString(n: nat): (s: string)
    ensures 1 <= |s| && AllDigits(s)
    ensures s[0] == '0' ==> n == 0
    decreases n
  {
    if n < 10 then [DigitChar(n)] else DecimalString(n / 10) + [DigitChar(n % 10)]
  }

  /** The number a string of decimal digits denotes; the inverse of DecimalString. */
  function DecimalValue(s: string): nat
    requires AllDigits(s)
    decreases |s|
  {
    if s == [] then 0 else 10 * DecimalValue(s[..|s| - 1]) + DigitValue(s[|s| - 1])
  }

  lemma {:induction false} DecimalRoundTrip(n: nat)
    ensures DecimalValue(DecimalString(n)) == n
  {
    if n >= 10 {
      var s := DecimalString(n);
      assert s[..|s| - 1] == DecimalString(n / 10);
      DecimalRoundTrip(n / 10);
    }
  }

  /** `pad` (index.js:12-14): the last two characters of `'0' + n`. */
  function Pad(n: nat): (r: string)
    ensures |r| == 2 && AllDigits(r)
  {
    var s := "0" + DecimalString(n);
    s[|s| - 2..]
  }

  /** The zero-padded two-digit rendering of a number below 100. */
  function TwoDigits(n: nat): (r: string)
    requires n < 100
    ensures |r| == 2 && AllDigits(r)
    ensures 10 * DigitValue(r[0]) + DigitValue(r[1]) == n
  {
    [DigitChar(n / 10), DigitChar(n % 10)]
  }

  lemma LastDigit(m: nat)
    ensures DecimalString(m)[|DecimalString(m)| - 1] == DigitChar(m % 10)
  {
  }

  lemma {:induction false} MulAtLeast(d: nat, k: nat)
    requires k >= 1
    ensures d * k >= d
    decreases k
  {
    if k > 1 {
      MulAtLeast(d, k - 1);
      assert d * k == d * (k - 1) + d;
    }
  }

  /** Quotient and remainder are determined by any decomposition `x == d * q + r` with `0 <= r < d`. */
  lemma DivModOf(x: int, d: int, q: int, r: int)
    requires d > 0 && 0 <= r < d && x == d * q + r
    ensures x / d == q && x % d == r
  {
    var q', r' := x / d, x % d;
    assert d * q' + r' == x;
    if q > q' {
      MulAtLeast(d, q - q');
      assert false;
    } else if q < q' {
      MulAtLeast(d, q' - q);
      assert false;
    }
  }

  /** Adding a multiple of `d` shifts the quotient by that multiple and keeps the remainder. */
  lemma DivModShift(x: nat, d: nat, k: nat)
    requires d > 0
    ensures (x + d * k) / d == x / d + k && (x + d * k) % d == x % d
  {
    DivModOf(x + d * k, d, x / d + k, x % d);
  }

  lemma TensDigit(n: nat)
    ensures (n / 10) % 10 == (n % 100) / 10
    ensures n % 10 == (n % 100) % 10
  {
    var a, b := n / 100, n % 100;
    DivModOf(n, 100, a, b);
    DivModOf(n, 10, 10 * a + b / 10, b % 10);
    DivModOf(n / 10, 10, a, b / 10);
  }

  /** The last two characters of `'0' + DecimalString(n)` are the last two digits of `n`, zero-filled. */
  lemma {:induction false} PadIsTwoDigits(n: nat)
    ensures Pad(n) == TwoDigits(n % 100)
  {
    var d := DecimalString(n);
    var s := "0" + d;
    assert Pad(n) == s[|s| - 2..];
    if n < 10 {
      assert d == [DigitChar(n)];
      assert s == [DigitChar(0), DigitChar(n)];
      assert n % 100 == n;
    } else {
      var q := n / 10;
      var dq := DecimalString(q);
      assert d == dq + [DigitChar(n % 10)];
      LastDigit(q);
      TensDigit(n);
      var hi, lo := DigitChar((n % 100) / 10), DigitChar((n % 100) % 10);
      assert dq[|dq| - 1] == hi;
      assert s == "0" + dq + [lo];
      assert s[|s| - 2..] == [hi, lo];
    }
  }

  lemma PadBelowTen(n: nat)
    requires n < 10
    ensures Pad(n) == ['0', DigitChar(n)]
  {
    PadIsTwoDigits(n);
  }

  /** Reading a padded field back gives the number modulo 100. */
  lemma PadValue(n: nat)
    ensures 10 * DigitValue(Pad(n)[0]) + DigitValue(Pad(n)[1]) == n % 100
  {
    PadIsTwoDigits(n);
  }

  /** A clock display: two-digit fields separated by `':'`. */
  function Clock(fields: seq<nat>): (r: string)
    requires |fields| >= 1 && forall i :: 0 <= i < |fields| ==> fields[i] < 100
    ensures |r| == 3 * |fields| - 1
    decreases |fields|
  {
    if |fields| == 1 then TwoDigits(fields[0])
    else TwoDigits(fields[0]) + ":" + Clock(fields[1..])
  }

  lemma ClockTwo(a: nat, b: nat)
    requires a < 100 && b < 100
    ensures Clock([a, b]) == TwoDigits(a) + ":" + TwoDigits(b)
  {
    assert [a, b][1..] == [b];
  }

  lemma ClockThree(a: nat, b: nat, c: nat)
    requires a < 100 && b < 100 && c < 100
    ensures Clock([a, b, c]) == TwoDigits(a) + ":" + TwoDigits(b) + ":" + TwoDigits(c)
  {
    assert [a, b, c][1..] == [b, c];
    ClockTwo(b, c);
  }

  /** Reads a clock display back into its fields; None when the text is not one. */
  function ParseClock(r: string): Option<seq<nat>>
    decreases |r|
  {
    if |r| < 2 || !IsDigit(r[0]) || !IsDigit(r[1]) then None
    else
      var field := 10 * DigitValue(r[0]) + DigitValue(r[1]);
      if |r| == 2 then Some([field])
      else if r[2] != ':' then None
      else match ParseClock(r[3..])
        case None => None
        case Some(rest) => Some([field] + rest)
  }

  lemma {:induction false} ClockRoundTrip(fields: seq<nat>)
    requires |fields| >= 1 && forall i :: 0 <= i < |fields| ==> fields[i] < 100
    ensures ParseClock(Clock(fields)) == Some(fields)
    decreases |fields|
  {
    var r := Clock(fields);
    var head := TwoDigits(fields[0]);
    assert r[..2] == head;
    assert 10 * DigitValue(r[0]) + DigitValue(r[1]) == fields[0];
    if |fields| > 1 {
      assert r == head + ":" + Clock(fields[1..]);
      assert r[2] == ':';
      assert r[3..] == Clock(fields[1..]);
      ClockRoundTrip(fields[1..]);
      assert fields == [fields[0]] + fields[1..];
    } else {
      assert fields == [fields[0]];
    }
  }

  /** Every third character of a clock display, from index 2 on, is the separator; the others are digits. */
  lemma {:induction false} ClockLayout(fields: seq<nat>, i: nat)
    requires |fields| >= 1 && forall j :: 0 <= j < |fields| ==> fields[j] < 100
    requires i < 3 * |fields| - 1
    ensures Clock(fields)[i] == ':' <==> i % 3 == 2
    ensures i % 3 != 2 ==> IsDigit(Clock(fields)[i])
    decreases |fields|
  {
    if i >= 3 {
      ClockLayout(fields[1..], i - 3);
    }
  }

  /** `mmss` (index.js:70-77). */
  function Mmss(secs: nat): string
  {
    var minutes := secs / 60;
    var seconds := secs % 60;
    Pad(minutes % 60) + ":" + Pad(seconds)
  }

  /** `mmssss` (index.js:79-87); the minutes are not reduced modulo 60. */
  function Mmssss(ms: nat): string
  {
    var secs := ms / 1000;
    var minutes := secs / 60;
    var seconds := secs % 60;
    var hundredths := (ms % 1000) / 10;
    Pad(minutes) + ":" + Pad(seconds) + ":" + Pad(hundredths)
  }

  /** `mmss` shows minutes modulo 60 and seconds modulo 60 as a two-field clock. */
  lemma MmssIsClock(secs: nat)
    ensures Mmss(secs) == Clock([secs / 60 % 60, secs % 60])
  {
    var minutes, seconds := secs / 60 % 60, secs % 60;
    assert minutes < 60 && seconds < 60;
    assert minutes % 100 == minutes && seconds % 100 == seconds;
    PadIsTwoDigits(minutes);
    PadIsTwoDigits(seconds);
    calc {
      Mmss(secs);
      Pad(minutes) + ":" + Pad(seconds);
      TwoDigits(minutes) + ":" + TwoDigits(seconds);
      { ClockTwo(minutes, seconds); }
      Clock([minutes, seconds]);
    }
  }

  lemma MmssShape(secs: nat)
    ensures |Mmss(secs)| == 5 && Mmss(secs)[2] == ':'
    ensures IsDigit(Mmss(secs)[0]) && IsDigit(Mmss(secs)[1])
    ensures IsDigit(Mmss(secs)[3]) && IsDigit(Mmss(secs)[4])
  {
  }

  lemma MmssFields(secs: nat)
    ensures ParseClock(Mmss(secs)) == Some([secs / 60 % 60, secs % 60])
  {
    MmssIsClock(secs);
    ClockRoundTrip([secs / 60 % 60, secs % 60]);
  }

  /** Whole hours are discarded: the display repeats every 3600 seconds. */
  lemma ShiftByHours(secs: nat, hours: nat)
    ensures (secs + 3600 * hours) / 60 % 60 == secs / 60 % 60
    ensures (secs + 3600 * hours) % 60 == secs % 60
  {
    DivModShift(secs, 60, 60 * hours);
    DivModShift(secs / 60, 60, hours);
  }

  lemma MmssDiscardsHours(secs: nat, hours: nat)
    ensures Mmss(secs + 3600 * hours) == Mmss(secs)
  {
    ShiftByHours(secs, hours);
    MmssIsClock(secs);
    MmssIsClock(secs + 3600 * hours);
  }

  /** Within one hour, distinct second counts give distinct displays. */
  lemma MmssInjectiveWithinHour(a: nat, b: nat)
    requires a < 3600 && b < 3600
    requires Mmss(a) == Mmss(b)
    ensures a == b
  {
    MmssFields(a);
    MmssFields(b);
    assert a / 60 == b / 60 && a % 60 == b % 60;
  }

  lemma MinutesOfMilliseconds(ms: nat)
    ensures ms / 1000 / 60 == ms / 60000
  {
    var m, r := ms / 60000, ms % 60000;
    DivModOf(ms, 60000, m, r);
    DivModOf(ms, 1000, 60 * m + r / 1000, r % 1000);
    DivModOf(ms / 1000, 60, m, r / 1000);
  }

  /** Three padded fields joined by `':'` form a three-field clock display. */
  lemma PaddedTriple(a: nat, b: nat, c: nat)
    requires b < 100 && c < 100
    ensures Pad(a) + ":" + Pad(b) + ":" + Pad(c) == Clock([a % 100, b, c])
  {
    var pa, pb, pc := Pad(a), Pad(b), Pad(c);
    PadIsTwoDigits(a);
    PadIsTwoDigits(b);
    PadIsTwoDigits(c);
    assert b % 100 == b && c % 100 == c;
    assert pa == TwoDigits(a % 100) && pb == TwoDigits(b) && pc == TwoDigits(c);
    ClockThree(a % 100, b, c);
  }

  /**
   * `mmssss` shows the minutes modulo 100 (only `pad` cuts them), the seconds
   * modulo 60 and the hundredths, which always lie in 0..99.
   */
  lemma MmssssIsClock(ms: nat)
    ensures (ms % 1000) / 10 < 100
    ensures Mmssss(ms) == Clock([ms / 60000 % 100, ms / 1000 % 60, ms % 1000 / 10])
  {
    MinutesOfMilliseconds(ms);
    PaddedTriple(ms / 1000 / 60, ms / 1000 % 60, ms % 1000 / 10);
  }

  lemma MmssssShape(ms: nat)
    ensures |Mmssss(ms)| == 8 && Mmssss(ms)[2] == ':' && Mmssss(ms)[5] == ':'
  {
  }

  lemma MmssssFields(ms: nat)
    ensures ParseClock(Mmssss(ms)) == Some([ms / 60000 % 100, ms / 1000 % 60, ms % 1000 / 10])
  {
    MmssssIsClock(ms);
    ClockRoundTrip([ms / 60000 % 100, ms / 1000 % 60, ms % 1000 / 10]);
  }

  lemma ClockPrefix(a: nat, b: nat, c: nat)
    requires a < 100 && b < 100 && c < 100
    ensures Clock([a, b, c])[..5] == Clock([a, b])
  {
    ClockThree(a, b, c);
    ClockTwo(a, b);
  }

  /** Below one hour `mmssss` begins with the `mmss` display of the whole seconds. */
  lemma MmssssExtendsMmss(ms: nat)
    requires ms < 3600000
    ensures Mmssss(ms)[..5] == Mmss(ms / 1000)
  {
    MinutesOfMilliseconds(ms);
    var minutes, seconds, hundredths := ms / 60000, ms / 1000 % 60, ms % 1000 / 10;
    assert minutes < 60;
    assert minutes % 100 == ms / 1000 / 60 % 60;
    MmssssIsClock(ms);
    MmssIsClock(ms / 1000);
    ClockPrefix(minutes % 100, seconds, hundredths);
  }

  lemma ShiftByHundredMinutes(ms: nat, k: nat)
    ensures (ms + 6000000 * k) / 60000 % 100 == ms / 60000 % 100
    ensures (ms + 6000000 * k) / 1000 % 60 == ms / 1000 % 60
    ensures (ms + 6000000 * k) % 1000 / 10 == ms % 1000 / 10
  {
    DivModShift(ms, 60000, 100 * k);
    DivModShift(ms / 60000, 100, k);
    DivModShift(ms, 1000, 6000 * k);
    DivModShift(ms / 1000, 60, 100 * k);
  }

  /** Unlike `mmss`, `mmssss` does not fold hours: its display repeats every 100 minutes. */
  lemma MmssssRepeatsEveryHundredMinutes(ms: nat, k: nat)
    ensures Mmssss(ms + 6000000 * k) == Mmssss(ms)
  {
    ShiftByHundredMinutes(ms, k);
    MmssssIsClock(ms);
    MmssssIsClock(ms + 6000000 * k);
  }

  lemma SmallTwoDigits()
    ensures TwoDigits(0) == "00" && TwoDigits(1) == "01" && TwoDigits(5) == "05"
    ensures TwoDigits(23) == "23" && TwoDigits(60) == "60"
  {
  }

  lemma MmssExamples()
    ensures Mmss(0) == "00:00"
    ensures Mmss(65) == "01:05"
    ensures Mmss(3661) == "01:01"
  {
    assert 65 / 60 % 60 == 1 && 65 % 60 == 5;
    assert 3661 / 60 % 60 == 1 && 3661 % 60 == 1;
    SmallTwoDigits();
    MmssIsClock(0);
    MmssIsClock(65);
    MmssIsClock(3661);
    ClockTwo(0, 0);
    ClockTwo(1, 5);
    ClockTwo(1, 1);
  }

  lemma MmssssExamples()
    ensures Mmssss(0) == "00:00:00"
    ensures Mmssss(61234) == "01:01:23"
  {
    assert 0 / 60000 % 100 == 0 && 0 / 1000 % 60 == 0 && 0 % 1000 / 10 == 0;
    assert 61234 / 60000 % 100 == 1 && 61234 / 1000 % 60 == 1 && 61234 % 1000 / 10 == 23;
    SmallTwoDigits();
    MmssssIsClock(0);
    MmssssIsClock(61234);
    ClockThree(0, 0, 0);
    ClockThree(1, 1, 23);
  }

  /** At one hour the two helpers disagree: `mmss` has folded the hour away, `mmssss` shows 60 minutes. */
  lemma OneHourDisplays()
    ensures Mmssss(3600000) == "60:00:00" && Mmss(3600) == "00:00"
  {
    assert 3600000 / 60000 % 100 == 60 && 3600000 / 1000 % 60 == 0 && 3600000 % 1000 / 10 == 0;
    assert 3600 / 60 % 60 == 0 && 3600 % 60 == 0;
    SmallTwoDigits();
    MmssssIsClock(3600000);
    MmssIsClock(3600);
    ClockThree(60, 0, 0);
    ClockTwo(0, 0);
  }
}
