/**
 * The minutes:seconds text used by the plot axes (`time_formatter`) and
 * by the elapsed-time label (`update_time_label`).
 */
module Clock {
  import opened Wrappers
  import opened Decimal

  /** Python's `int(x)` on a float: truncation toward zero. */
  function Truncate(x: real): (n: int)
    ensures 0.0 <= x ==> n as real <= x < n as real + 1.0
    ensures x < 0.0 ==> n as real - 1.0 < x <= n as real
  {
    if 0.0 <= x then x.Floor else -((-x).Floor)
  }

  /** Python's `n // 60` and `n % 60`, which floor; Dafny's division agrees for a positive divisor. */
  function MinutesSeconds(total: int): (r: (int, int))
    ensures r.0 * 60 + r.1 == total
    ensures 0 <= r.1 < 60
  {
    (total / 60, total % 60)
  }

  /** Python's `f"{n:02d}"`: zero-padded to width two, the sign counting toward the width. */
  function Pad2(n: int): (s: string)
    ensures |s| >= 2
    ensures 0 <= n ==> AllDigits(s) && DigitsValue(s) == n
    ensures 0 <= n < 100 ==> |s| == 2
    ensures n < 0 ==> s[0] == '-' && AllDigits(s[1..]) && DigitsValue(s[1..]) == -n
    ensures 10 <= n ==> s[0] != '0'
    ensures n < 0 ==> s[1] != '0'
  {
    var d := DecimalString(if n < 0 then -n else n);
    DecimalRoundTrip(if n < 0 then -n else n);
    if n < 0 then
      assert ("-" + d)[1..] == d;
      "-" + d
    else if n < 10 then
      assert DigitsValue("0" + d) == DigitsValue(d) by { LeadingZero(d); }
      "0" + d
    else
      TwoDigitsAtLeast(n);
      d
  }

  /** A leading zero does not change the value of a digit string. */
  lemma {:induction false} LeadingZero(d: string)
    requires AllDigits(d)
    ensures AllDigits("0" + d) && DigitsValue("0" + d) == DigitsValue(d)
  {
    if d != [] {
      LeadingZero(d[..|d| - 1]);
      assert ("0" + d)[..|"0" + d| - 1] == "0" + d[..|d| - 1];
    }
  }

  /** A number of at least ten prints with at least two digits, and one below a hundred with exactly two. */
  lemma TwoDigitsAtLeast(n: nat)
    requires n >= 10
    ensures |DecimalString(n)| >= 2
    ensures n < 100 ==> |DecimalString(n)| == 2
  {
    assert DecimalString(n) == DecimalString(n / 10) + [DigitChar(n % 10)];
  }

  /**
   * The text `MM:SS` for a count of seconds: the two characters after the
   * colon are the seconds past the minute; before it stand the whole
   * minutes, zero-padded to two digits and no further, with a '-' in front
   * (counted toward the width) for a count below zero.
   */
  function FormatClock(total: int): (c: string)
    ensures |c| >= 5 && c[|c| - 3] == ':'
    ensures AllDigits(c[|c| - 2..]) && DigitsValue(c[|c| - 2..]) == total % 60
    ensures 0 <= total ==> AllDigits(c[..|c| - 3]) && DigitsValue(c[..|c| - 3]) == total / 60
    ensures 0 <= total ==> |c| == 5 || c[0] != '0'
    ensures total < 0 ==> c[0] == '-' && c[1] != '0'
    ensures total < 0 ==> AllDigits(c[1..|c| - 3]) && DigitsValue(c[1..|c| - 3]) == -(total / 60)
  {
    var (m, s) := MinutesSeconds(total);
    var mm, ss := Pad2(m), Pad2(s);
    var c := mm + ":" + ss;
    assert |ss| == 2;
    assert c[..|c| - 3] == mm && c[|c| - 2..] == ss;
    assert c[1..|c| - 3] == mm[1..];
    c
  }

  /**
   * The axis tick formatter. The model keeps sample times in milliseconds
   * since the first sample, so the tick value `xMs` is in milliseconds; the
   * source's tick is the same instant in seconds, `xMs / 1000`, cut toward
   * zero to whole seconds.
   */
  function TimeFormatter(xMs: real): (c: string)
    ensures 0.0 <= xMs ==> ReadClock(c) == Some((xMs / 1000.0).Floor)
    ensures -1000.0 < xMs < 0.0 ==> c == "00:00"
    ensures |c| >= 5 && (xMs <= -1000.0 ==> c[0] == '-')
    ensures xMs < 0.0 ==> c == FormatClock(-((-xMs / 1000.0).Floor))
  {
    var n := Truncate(xMs / 1000.0);
    var c := FormatClock(n);
    assert 0.0 <= xMs ==> ReadClock(c) == Some((xMs / 1000.0).Floor) by {
      if 0.0 <= xMs { ClockRoundTrip((xMs / 1000.0).Floor); }
    }
    assert -1000.0 < xMs < 0.0 ==> c == "00:00" by {
      if -1000.0 < xMs < 0.0 {
        assert n == 0;
        assert MinutesSeconds(0) == (0, 0);
        assert Pad2(0) == "00";
      }
    }
    c
  }

  const ElapsedPrefix: string := "Tiempo Transcurrido: "

  /**
   * The text of the elapsed-time label, with the two clock readings in
   * milliseconds: the clock text of the whole seconds elapsed, cut toward
   * zero, so a clock that has gone back shows minus the whole seconds.
   */
  function ElapsedLabel(startMs: int, nowMs: int): (r: string)
    ensures startMs <= nowMs ==> r == ElapsedPrefix + FormatClock((nowMs - startMs) / 1000)
    ensures nowMs < startMs ==> r == ElapsedPrefix + FormatClock(-((startMs - nowMs) / 1000))
  {
    ElapsedSeconds(startMs, nowMs);
    ElapsedPrefix + FormatClock(Truncate((nowMs - startMs) as real / 1000.0))
  }

  /** After its prefix, the label reads back as the whole seconds elapsed. */
  lemma ElapsedRoundTrip(startMs: int, nowMs: int)
    requires startMs <= nowMs
    ensures var r := ElapsedLabel(startMs, nowMs);
      |r| > |ElapsedPrefix| && r[..|ElapsedPrefix|] == ElapsedPrefix &&
      ReadClock(r[|ElapsedPrefix|..]) == Some((nowMs - startMs) / 1000)
  {
    var c := FormatClock((nowMs - startMs) / 1000);
    ClockRoundTrip((nowMs - startMs) / 1000);
    assert (ElapsedPrefix + c)[|ElapsedPrefix|..] == c;
  }

  /** The whole seconds between two readings, cut toward zero: minus the whole seconds back when the clock went back. */
  lemma ElapsedSeconds(startMs: int, nowMs: int)
    ensures startMs <= nowMs ==> Truncate((nowMs - startMs) as real / 1000.0) == (nowMs - startMs) / 1000
    ensures nowMs < startMs ==> Truncate((nowMs - startMs) as real / 1000.0) == -((startMs - nowMs) / 1000)
  {
    if startMs <= nowMs {
      WholeSeconds(nowMs - startMs);
    } else {
      WholeSeconds(startMs - nowMs);
      assert (nowMs - startMs) as real / 1000.0 == -((startMs - nowMs) as real / 1000.0);
    }
  }

  /** Cutting a non-negative count of milliseconds to seconds is integer division by 1000. */
  lemma WholeSeconds(ms: nat)
    ensures Truncate(ms as real / 1000.0) == ms / 1000
  {
    var n := Truncate(ms as real / 1000.0);
    assert n as real * 1000.0 <= ms as real < n as real * 1000.0 + 1000.0;
    assert n * 1000 <= ms < n * 1000 + 1000;
  }

  /**
   * Reading a clock text back: the digits before the colon are the minutes,
   * at least two and zero-padded only to two, the two after it the seconds,
   * below sixty; `None` for any other shape.
   */
  function ReadClock(c: string): (r: Option<int>)
    ensures r.Some? ==> 0 <= r.value
  {
    if |c| >= 5 && c[|c| - 3] == ':' && AllDigits(c[..|c| - 3]) && AllDigits(c[|c| - 2..])
       && DigitsValue(c[|c| - 2..]) < 60 && (|c| == 5 || c[0] != '0')
    then Some(DigitsValue(c[..|c| - 3]) * 60 + DigitsValue(c[|c| - 2..]))
    else None
  }

  /** A non-negative count of seconds survives the trip through its clock text. */
  lemma {:induction false} ClockRoundTrip(total: nat)
    ensures ReadClock(FormatClock(total)) == Some(total)
  {
    var (m, s) := MinutesSeconds(total);
    var c := FormatClock(total);
    assert c == Pad2(m) + ":" + Pad2(s);
    assert |Pad2(s)| == 2;
    assert c[..|c| - 3] == Pad2(m);
    assert c[|c| - 2..] == Pad2(s);
  }

  /** Minutes text that is at least two digits and padded only to two is what `Pad2` prints. */
  lemma Pad2Canonical(s: string)
    requires AllDigits(s) && |s| >= 2 && (|s| == 2 || s[0] != '0')
    ensures Pad2(DigitsValue(s)) == s
  {
    var v := DigitsValue(s);
    if s[0] == '0' {
      var d := s[1..];
      assert s == "0" + d;
      LeadingZero(d);
      DecimalCanonical(d);
    } else {
      DecimalCanonical(s);
    }
  }

  /** Floor division by sixty undoes `m * 60 + s` for seconds below sixty. */
  lemma DivideMinutes(m: nat, s: nat)
    requires s < 60
    ensures (m * 60 + s) / 60 == m && (m * 60 + s) % 60 == s
  {
  }

  /** The clock text is the padded minutes, a colon and the padded seconds. */
  lemma FormatClockParts(total: int)
    ensures FormatClock(total) == Pad2(total / 60) + ":" + Pad2(total % 60)
  {
  }

  /** Canonical minutes and seconds digits, joined by a colon, are the clock text of their count. */
  lemma FormatOfParts(mm: string, ss: string, n: int)
    requires AllDigits(mm) && |mm| >= 2 && (|mm| == 2 || mm[0] != '0')
    requires AllDigits(ss) && |ss| == 2
    requires n / 60 == DigitsValue(mm) && n % 60 == DigitsValue(ss)
    ensures FormatClock(n) == mm + ":" + ss
  {
    FormatClockParts(n);
    Pad2Canonical(mm);
    Pad2Canonical(ss);
  }

  /** Every text `ReadClock` accepts is exactly the clock text of the count it reads. */
  lemma ReadClockCanonical(c: string)
    requires ReadClock(c).Some?
    ensures FormatClock(ReadClock(c).value) == c
  {
    var mm, ss := c[..|c| - 3], c[|c| - 2..];
    assert mm[0] == c[0];
    DivideMinutes(DigitsValue(mm), DigitsValue(ss));
    FormatOfParts(mm, ss, ReadClock(c).value);
    assert c == mm + ":" + ss;
  }

  /** The axis text of a tick a little past a whole second names that second. */
  lemma TickExample()
    ensures TimeFormatter(125700.0) == "02:05"
  {
    assert Truncate(125700.0 / 1000.0) == 125;
    assert MinutesSeconds(125) == (2, 5);
  }

  /** Ninety seconds and a half after start the label reads one minute thirty. */
  lemma ElapsedExample(startMs: int)
    ensures ElapsedLabel(startMs, startMs + 90500) == "Tiempo Transcurrido: 01:30"
  {
    assert MinutesSeconds(90500 / 1000) == (1, 30);
  }

  /** Five seconds before the start the label shows minus five seconds, with floor minutes. */
  lemma ElapsedBackwardsExample()
    ensures ElapsedLabel(5000, 0) == "Tiempo Transcurrido: -1:55"
  {
    assert (5000 - 0) / 1000 == 5;
    NegativeExample();
  }

  /** A clock read before the start (a negative count) keeps the floor semantics of the source. */
  lemma NegativeExample()
    ensures FormatClock(-5) == "-1:55"
  {
    assert MinutesSeconds(-5) == (-1, 55);
  }
}
