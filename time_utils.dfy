/** Uptime arithmetic and the header's uptime text. */
module TimeUtils {
  import opened MachineInts
  import opened Wrappers

  /** `seconds_to_days`: splits a count of seconds into days, hours, minutes and seconds. */
  function SecondsToDays(seconds: u64): (r: (u64, u64, u64, u64))
    ensures r.0 * 86400 + r.1 * 3600 + r.2 * 60 + r.3 == seconds
    ensures r.1 < 24 && r.2 < 60 && r.3 < 60
  {
    var days := seconds / 86400;
    var rest := seconds % 86400;
    var hours := rest / 3600;
    var rest' := rest % 3600;
    var minutes := rest' / 60;
    (days, hours, minutes, rest' % 60)
  }

  /** The decomposition is the only one with those bounds; in particular the day count is the
      quotient by 86400. */
  lemma SecondsToDaysUnique(seconds: u64, d: nat, h: nat, m: nat, s: nat)
    requires d * 86400 + h * 3600 + m * 60 + s == seconds
    requires h < 24 && m < 60 && s < 60
    ensures SecondsToDays(seconds) == (d, h, m, s)
    ensures d == seconds / 86400
  {
    var r := SecondsToDays(seconds);
    assert h * 3600 + m * 60 + s < 86400;
    assert r.1 * 3600 + r.2 * 60 + r.3 < 86400;
    assert d == r.0;
    assert m * 60 + s < 3600 && r.2 * 60 + r.3 < 3600;
    assert h == r.1;
  }

  /** Distinct uptimes give distinct tuples. */
  lemma SecondsToDaysInjective(a: u64, b: u64)
    requires SecondsToDays(a) == SecondsToDays(b)
    ensures a == b
  {
  }

  // ---------------------------------------------------------------- decimal text

  predicate IsDigit(c: char) {
    '0' <= c <= '9'
  }

  predicate AllDigits(s: string) {
    forall i :: 0 <= i < |s| ==> IsDigit(s[i])
  }

  function Digit(d: nat): (c: char)
    requires d < 10
  {
    (48 + d) as char
  }

  function DigitValue(c: char): nat
    requires IsDigit(c)
  {
    c as int - 48
  }

  /** Rust's `{}` display of an unsigned integer: decimal, no leading zeros. */
  function DecimalString(n: nat): (s: string)
    ensures |s| >= 1 && AllDigits(s)
    ensures s[0] == '0' <==> n == 0
    ensures n == 0 ==> s == "0"
  {
    if n < 10 then [Digit(n)] else DecimalString(n / 10) + [Digit(n % 10)]
  }

  function ParseDecimal(s: string): nat
    requires AllDigits(s)
  {
    if s == [] then 0 else ParseDecimal(s[..|s| - 1]) * 10 + DigitValue(s[|s| - 1])
  }

  /** Rust's `{:02}`: zero-padded to two characters. */
  function Pad2(x: nat): string {
    if x < 10 then "0" + DecimalString(x) else DecimalString(x)
  }

  /** `dy`: the singular word exactly for one day, the plural otherwise. */
  function DayWord(d: nat): (w: string)
    ensures w == "day" <==> d == 1
    ensures d != 1 ==> w == "day" + "s"
  {
    if d == 1 then "day" else "days"
  }

  /** `format_time`: `"{d} {dy}, {h:02}:{m:02}:{s:02}"`. The day count has no leading zero, and
      right after it comes the singular word exactly when there is one day. */
  function FormatTime(seconds: u64): (t: string)
    ensures var d := SecondsToDays(seconds).0;
      var k := |DecimalString(d)|;
      |t| >= k + 6
      && (t[k..k + 6] == " day, " <==> d == 1)
      && (d != 1 ==> t[k..k + 6] == " days,")
      && (t[0] == '0' <==> d == 0)
  {
    var (d, h, m, s) := SecondsToDays(seconds);
    PartsDayWord(d, Clock(h, m, s));
    assert " days,"[4] != " day, "[4];
    DecimalString(d) + DaySuffix(d) + Clock(h, m, s)
  }

  /** The `" {dy}, "` between the day count and the clock. */
  function DaySuffix(d: nat): string {
    " " + DayWord(d) + ", "
  }

  /** The `{h:02}:{m:02}:{s:02}` clock. */
  function Clock(h: nat, m: nat, s: nat): string {
    Pad2(h) + ":" + Pad2(m) + ":" + Pad2(s)
  }

  lemma {:induction false} DecimalRoundTrip(n: nat)
    ensures ParseDecimal(DecimalString(n)) == n
  {
    if n >= 10 {
      var s := DecimalString(n);
      assert s[..|s| - 1] == DecimalString(n / 10);
      DecimalRoundTrip(n / 10);
    }
  }

  lemma Pad2Digits(x: nat)
    requires x < 100
    ensures Pad2(x) == [Digit(x / 10), Digit(x % 10)]
  {
    if x >= 10 {
      assert DecimalString(x / 10) == [Digit(x / 10)];
    }
  }

  // ---------------------------------------------------------------- reading the text back

  function LeadingDigits(s: string): (k: nat)
    ensures k <= |s|
  {
    if s == [] || !IsDigit(s[0]) then 0 else 1 + LeadingDigits(s[1..])
  }

  predicate IsClock(c: string) {
    && |c| == 8 && c[2] == ':' && c[5] == ':'
    && IsDigit(c[0]) && IsDigit(c[1]) && IsDigit(c[3]) && IsDigit(c[4]) && IsDigit(c[6]) && IsDigit(c[7])
  }

  function ClockField(c: string, at: nat): nat
    requires IsClock(c) && at in {0, 3, 6}
  {
    DigitValue(c[at]) * 10 + DigitValue(c[at + 1])
  }

  /** An independent reader of the uptime text: the day count, the word that agrees with it,
      and a `HH:MM:SS` clock. */
  function ParseTime(t: string): Option<nat> {
    var k := LeadingDigits(t);
    assert AllDigits(t[..k]) by { LeadingDigitsAreDigits(t); }
    if k == 0 then None else ParseAfterDays(ParseDecimal(t[..k]), t[k..])
  }

  /** After the day count: the separator spelled out for the count, then the clock. */
  function ParseAfterDays(d: nat, rest: string): Option<nat> {
    var word := if d == 1 then " day, " else " days, ";
    if |rest| != |word| + 8 || rest[..|word|] != word then None
    else ParseClock(d, rest[|word|..])
  }

  function ParseClock(d: nat, c: string): Option<nat> {
    if !IsClock(c) then None
    else Some(d * 86400 + ClockField(c, 0) * 3600 + ClockField(c, 3) * 60 + ClockField(c, 6))
  }

  lemma {:induction false} LeadingDigitsAreDigits(s: string)
    ensures AllDigits(s[..LeadingDigits(s)])
  {
    if s != [] && IsDigit(s[0]) {
      LeadingDigitsAreDigits(s[1..]);
      assert s[..LeadingDigits(s)] == [s[0]] + s[1..][..LeadingDigits(s[1..])];
    }
  }

  lemma {:induction false} LeadingDigitsOfNumber(a: string, b: string)
    requires AllDigits(a)
    requires b != [] && !IsDigit(b[0])
    ensures LeadingDigits(a + b) == |a|
    decreases |a|
  {
    if a == [] {
      assert a + b == b;
    } else {
      assert (a + b)[1..] == a[1..] + b;
      LeadingDigitsOfNumber(a[1..], b);
    }
  }

  lemma ClockDigits(h: nat, m: nat, s: nat)
    requires h < 100 && m < 100 && s < 100
    ensures Clock(h, m, s)
         == [Digit(h / 10), Digit(h % 10), ':', Digit(m / 10), Digit(m % 10), ':', Digit(s / 10), Digit(s % 10)]
  {
    Pad2Digits(h);
    Pad2Digits(m);
    Pad2Digits(s);
  }

  lemma ClockReadsBack(h: nat, m: nat, s: nat)
    requires h < 100 && m < 100 && s < 100
    ensures IsClock(Clock(h, m, s))
    ensures ClockField(Clock(h, m, s), 0) == h
    ensures ClockField(Clock(h, m, s), 3) == m
    ensures ClockField(Clock(h, m, s), 6) == s
  {
    ClockDigits(h, m, s);
  }

  lemma AfterDaysRoundTrip(d: nat, h: nat, m: nat, s: nat, total: nat)
    requires h < 100 && m < 100 && s < 100 && total == d * 86400 + h * 3600 + m * 60 + s
    ensures ParseAfterDays(d, DaySuffix(d) + Clock(h, m, s)) == Some(total)
  {
    var word, clock := DaySuffix(d), Clock(h, m, s);
    assert word == if d == 1 then " day, " else " days, ";
    ClockReadsBack(h, m, s);
    assert (word + clock)[..|word|] == word;
    assert (word + clock)[|word|..] == clock;
  }

  lemma PartsRoundTrip(d: nat, h: nat, m: nat, s: nat, total: nat)
    requires h < 100 && m < 100 && s < 100 && total == d * 86400 + h * 3600 + m * 60 + s
    ensures ParseTime(DecimalString(d) + DaySuffix(d) + Clock(h, m, s)) == Some(total)
  {
    var digits, rest := DecimalString(d), DaySuffix(d) + Clock(h, m, s);
    var t := digits + rest;
    assert DecimalString(d) + DaySuffix(d) + Clock(h, m, s) == t;
    LeadingDigitsOfNumber(digits, rest);
    assert t[..|digits|] == digits;
    assert t[|digits|..] == rest;
    DecimalRoundTrip(d);
    AfterDaysRoundTrip(d, h, m, s, total);
  }

  /** The text of an uptime, from its decomposition. */
  lemma FormatTimeParts(seconds: u64, d: nat, h: nat, m: nat, s: nat)
    requires SecondsToDays(seconds) == (d, h, m, s)
    ensures FormatTime(seconds) == DecimalString(d) + DaySuffix(d) + Clock(h, m, s)
  {
  }

  /** The uptime text reads back as the uptime it was made from. */
  lemma FormatTimeRoundTrip(seconds: u64)
    ensures ParseTime(FormatTime(seconds)) == Some(seconds)
  {
    var (d, h, m, s) := SecondsToDays(seconds);
    FormatTimeParts(seconds, d, h, m, s);
    PartsRoundTrip(d, h, m, s, seconds);
  }

  /** Formatting never maps two uptimes to the same text. */
  lemma FormatTimeInjective(a: u64, b: u64)
    requires FormatTime(a) == FormatTime(b)
    ensures a == b
  {
    FormatTimeRoundTrip(a);
    FormatTimeRoundTrip(b);
  }

  /** The text ends in the clock, each field as exactly two digits. */
  lemma FormatTimeClock(seconds: u64)
    ensures var (d, h, m, s) := SecondsToDays(seconds);
      var t := FormatTime(seconds);
      |t| >= 8 && t[|t| - 8..]
        == [Digit(h / 10), Digit(h % 10), ':', Digit(m / 10), Digit(m % 10), ':', Digit(s / 10), Digit(s % 10)]
  {
    var (d, h, m, s) := SecondsToDays(seconds);
    ClockDigits(h, m, s);
    FormatTimeParts(seconds, d, h, m, s);
    var t := FormatTime(seconds);
    assert t == (DecimalString(d) + DaySuffix(d)) + Clock(h, m, s);
  }

  lemma DaySuffixStart(d: nat, rest: string)
    ensures |DaySuffix(d) + rest| >= 6
    ensures (DaySuffix(d) + rest)[..6] == if d == 1 then " day, " else " days,"
  {
  }

  lemma PartsDayWord(d: nat, clock: string)
    ensures var t, k := DecimalString(d) + DaySuffix(d) + clock, |DecimalString(d)|;
      |t| >= k + 6 && t[k..k + 6] == if d == 1 then " day, " else " days,"
  {
    var digits, rest := DecimalString(d), DaySuffix(d) + clock;
    var t := DecimalString(d) + DaySuffix(d) + clock;
    assert t == digits + rest;
    DaySuffixStart(d, clock);
    assert t[|digits|..|digits| + 6] == rest[..6];
  }

  /** A formatted uptime from its parts, with the clock spelled out. */
  lemma FormatTimeOf(seconds: u64, d: nat, h: nat, m: nat, s: nat)
    requires d * 86400 + h * 3600 + m * 60 + s == seconds
    requires h < 24 && m < 60 && s < 60
    ensures FormatTime(seconds) == DecimalString(d) + DaySuffix(d)
      + [Digit(h / 10), Digit(h % 10), ':', Digit(m / 10), Digit(m % 10), ':', Digit(s / 10), Digit(s % 10)]
  {
    SecondsToDaysUnique(seconds, d, h, m, s);
    FormatTimeParts(seconds, d, h, m, s);
    ClockDigits(h, m, s);
  }

  lemma FormatTimeZero()
    ensures FormatTime(0) == "0 days, 00:00:00"
  {
    SecondsToDaysUnique(0, 0, 0, 0, 0);
    FormatTimeParts(0, 0, 0, 0, 0);
    assert Pad2(0) == "00";
    assert Clock(0, 0, 0) == "00:00:00";
    assert DecimalString(0) + DaySuffix(0) == "0 days, ";
  }

  lemma FormatTimeOneDay()
    ensures FormatTime(86400) == "1 day, 00:00:00"
  {
    SecondsToDaysUnique(86400, 1, 0, 0, 0);
    FormatTimeParts(86400, 1, 0, 0, 0);
    assert Pad2(0) == "00";
    assert Clock(0, 0, 0) == "00:00:00";
    assert DecimalString(1) + DaySuffix(1) == "1 day, ";
  }

  lemma FormatTimeExample()
    ensures FormatTime(266399) == "3 days, 01:59:59"
  {
    SecondsToDaysUnique(266399, 3, 1, 59, 59);
    FormatTimeParts(266399, 3, 1, 59, 59);
    assert Pad2(1) == "01";
    assert Pad2(59) == "59" by {
      assert DecimalString(5) == "5" && DecimalString(9) == "9";
    }
    assert Clock(1, 59, 59) == "01:59:59";
    assert DecimalString(3) + DaySuffix(3) == "3 days, ";
  }
}
