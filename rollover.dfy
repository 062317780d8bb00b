/** The hourly window of the store subscriber: nextRollOver, which
    truncates a clock reading to its UTC hour, and genFileName, which names
    the file of a window after the calendar hour it starts. Instants are
    milliseconds since 1970-01-01T00:00:00Z. */
module Rollover {
  import opened Wrappers
  import opened Calendar
  import opened Decimal

  const HourMs := 3_600_000
  const DayMs := 86_400_000

  /** windowInit and the windowCloseTS that nextRollOver returns. */
  datatype Window = Window(start: int, close: int)

  /** nextRollOver(): the UTC hour holding the clock reading `now`. */
  function NextRollOver(now: int): (w: Window)
    ensures w.start <= now < w.close
    ensures w.close == w.start + HourMs
    ensures w.start % HourMs == 0
  {
    var start := now - now % HourMs;
    Window(start, start + HourMs)
  }

  /** The window start is the only hour boundary at or before `now` within
      an hour of it: it is `now` truncated to the hour. */
  lemma WindowIsTruncation(now: int, s: int)
    requires s % HourMs == 0 && s <= now < s + HourMs
    ensures NextRollOver(now).start == s
  {
    var w := NextRollOver(now);
    assert (w.start - s) % HourMs == 0;
  }

  /** A later clock reading never gives an earlier roll-over time. */
  lemma NextRollOverMonotone(a: int, b: int)
    requires a <= b
    ensures NextRollOver(a).close <= NextRollOver(b).close
    ensures NextRollOver(a).start <= NextRollOver(b).start
  {
  }

  /** The calendar fields genFileName reads from a UTC instant:
      Year(), Month(), Day() and the hour of Clock(). */
  datatype Stamp = Stamp(year: int, month: int, day: int, hour: int)

  function StampOf(t: int): (st: Stamp)
    ensures 1 <= st.month <= 12 && 1 <= st.day <= DaysIn(st.year, st.month) && 0 <= st.hour <= 23
  {
    var d := CivilFromDays(t / DayMs);
    Stamp(d.year, d.month, d.day, (t % DayMs) / HourMs)
  }

  /** The instant at which a calendar hour begins. */
  function StampStart(st: Stamp): int {
    DaysFromCivil(Date(st.year, st.month, st.day)) * DayMs + st.hour * HourMs
  }

  /** The day of an instant plus its hour of the day is the instant
      truncated to the hour. */
  lemma DayPlusHour(t: int)
    ensures (t / DayMs) * DayMs + ((t % DayMs) / HourMs) * HourMs == t - t % HourMs
  {
    var q, r := t / DayMs, t % DayMs;
    var h, m := r / HourMs, r % HourMs;
    assert r == h * HourMs + m;
    var k := q * 24 + h;
    assert t == k * HourMs + m;
    assert t % HourMs == m;
  }

  /** The calendar hour of an instant begins at the instant truncated to
      the hour. */
  lemma StampStartOf(t: int)
    ensures StampStart(StampOf(t)) == t - t % HourMs
  {
    var q := t / DayMs;
    var d := CivilFromDays(q);
    assert Date(d.year, d.month, d.day) == d;
    DaysCivilRoundTrip(q);
    DayPlusHour(t);
  }

  /** A number below 10 given a leading "0", as genFileName does for
      month, day and hour. */
  function Pad2(n: int): string {
    if n < 10 then "0" + Itoa(n) else Itoa(n)
  }

  lemma Pad2TwoDigits(n: int)
    requires 0 <= n < 100
    ensures |Pad2(n)| == 2 && AllDigits(Pad2(n)) && DigitsValue(Pad2(n)) == n
  {
    DigitsValueOfNatToString(n);
    if n < 10 {
      assert Pad2(n) == ['0', DigitChar(n)];
      assert Pad2(n)[1..] == [DigitChar(n)];
      assert DigitValue(DigitChar(n)) == n;
    } else {
      assert Pad2(n) == NatToString(n / 10) + [DigitChar(n % 10)];
    }
  }

  /** genFileName(startTime): "fr-", the year, two-digit month, day and
      hour, then "00.csv". */
  function GenFileName(start: int): string {
    var st := StampOf(start);
    "fr-" + Itoa(st.year) + Pad2(st.month) + Pad2(st.day) + "_" + Pad2(st.hour) + "00.csv"
  }

  /** Reads back a year written by Itoa. */
  function ParseYear(s: string): Option<int> {
    if |s| >= 2 && s[0] == '-' && AllDigits(s[1..]) then Some(-DigitsValue(s[1..]))
    else if |s| >= 1 && AllDigits(s) then Some(DigitsValue(s))
    else None
  }

  /** Reads back the calendar hour from a file name. */
  function DecodeFileName(name: string): Option<Stamp> {
    var n := |name|;
    if n < 17 || name[..3] != "fr-" || name[n - 9] != '_' || name[n - 6..] != "00.csv" then None
    else
      var mm, dd, hh := name[n - 13..n - 11], name[n - 11..n - 9], name[n - 8..n - 6];
      if !AllDigits(mm) || !AllDigits(dd) || !AllDigits(hh) then None
      else match ParseYear(name[3..n - 13])
        case None => None
        case Some(y) => Some(Stamp(y, DigitsValue(mm), DigitsValue(dd), DigitsValue(hh)))
  }

  lemma ParseYearItoa(y: int)
    ensures ParseYear(Itoa(y)) == Some(y)
  {
    if y < 0 {
      DigitsValueOfNatToString(-y);
      assert Itoa(y)[1..] == NatToString(-y);
    } else {
      DigitsValueOfNatToString(y);
    }
  }

  /** Every file name genFileName produces decodes to the calendar hour of
      its window. */
  lemma DecodeGenFileName(t: int)
    ensures DecodeFileName(GenFileName(t)) == Some(StampOf(t))
  {
    var st := StampOf(t);
    var y, mm, dd, hh := Itoa(st.year), Pad2(st.month), Pad2(st.day), Pad2(st.hour);
    Pad2TwoDigits(st.month);
    Pad2TwoDigits(st.day);
    Pad2TwoDigits(st.hour);
    ParseYearItoa(st.year);
    var name := GenFileName(t);
    var n := |name|;
    assert name == "fr-" + y + mm + dd + "_" + hh + "00.csv";
    assert n == |y| + 16;
    assert name[..3] == "fr-";
    assert name[3..n - 13] == y;
    assert name[n - 13..n - 11] == mm;
    assert name[n - 11..n - 9] == dd;
    assert name[n - 9] == '_';
    assert name[n - 8..n - 6] == hh;
    assert name[n - 6..] == "00.csv";
  }

  /** Distinct windows get distinct file names. */
  lemma GenFileNameInjective(a: int, b: int)
    requires a % HourMs == 0 && b % HourMs == 0
    requires GenFileName(a) == GenFileName(b)
    ensures a == b
  {
    DecodeGenFileName(a);
    DecodeGenFileName(b);
    StampStartOf(a);
    StampStartOf(b);
  }

  /** 1677999600000 ms is 2023-03-05T07:00:00Z. */
  lemma StampOfExample()
    ensures StampOf(1_677_999_600_000) == Stamp(2023, 3, 5, 7)
  {
    assert 1_677_999_600_000 / DayMs == 19421 && 1_677_999_600_000 % DayMs == 7 * HourMs;
    assert SplitEraDay(8404) == EraDay(23, 4);
    assert CivilFromDays(19421) == Date(2023, 3, 5) by {
      assert (19421 + EpochShift) / DaysPerEra == 5 && (19421 + EpochShift) % DaysPerEra == 8404;
    }
  }

  /** 2023-03-05T07:00:00Z is written as fr-20230305_0700.csv. */
  lemma GenFileNameExample()
    ensures GenFileName(1_677_999_600_000) == "fr-20230305_0700.csv"
  {
    StampOfExample();
    assert Itoa(2023) == "2023";
    assert Pad2(3) == "03" && Pad2(5) == "05" && Pad2(7) == "07";
  }
}
