/**
 Calendar dates and their text forms: the `%Y-%m-%d %H:%M:%S` timestamps the
 backend writes into the `date` column, the `%Y-%m` month prefix of the
 monthly summary, and Python's `datetime.strptime(s, '%Y-%m-%d')`, which
 validates the bounds of a date-range query.
 */
module Calendar {
  import opened Text

  datatype Date = Date(year: int, month: int, day: int)

  predicate IsLeapYear(y: int)
  {
    y % 4 == 0 && (y % 100 != 0 || y % 400 == 0)
  }

  function DaysInMonth(y: int, m: int): (n: int)
    requires 1 <= m <= 12
    ensures 28 <= n <= 31
  {
    if m == 2 then (if IsLeapYear(y) then 29 else 28)
    else if m == 4 || m == 6 || m == 9 || m == 11 then 30
    else 31
  }

  /** A date Python's `datetime.date` accepts (years 1 to 9999, proleptic Gregorian). */
  predicate ValidDate(d: Date)
  {
    1 <= d.year <= 9999 && 1 <= d.month <= 12 && 1 <= d.day <= DaysInMonth(d.year, d.month)
  }

  /** Chronological order, the order Python's `datetime` comparison uses. */
  predicate DateLe(a: Date, b: Date)
  {
    a.year < b.year || (a.year == b.year && (a.month < b.month || (a.month == b.month && a.day <= b.day)))
  }

  /** A reading of the server's clock, `datetime.now()`. */
  datatype Clock = Clock(date: Date, hour: int, minute: int, second: int)

  /** A real clock reading; the year has four digits, so `%Y` writes no padding of its own. */
  predicate ValidClock(c: Clock)
  {
    ValidDate(c.date) && 1000 <= c.date.year
    && 0 <= c.hour < 24 && 0 <= c.minute < 60 && 0 <= c.second < 60
  }

  type Instant = c: Clock | ValidClock(c) witness Clock(Date(1970, 1, 1), 0, 0, 0)

  /** The zero-padded `YYYY-MM-DD` text of a date. */
  function FormatDate(d: Date): (s: string)
    requires ValidDate(d)
    ensures |s| == 10
  {
    Pad(d.year, 4) + MonthDayText(d.month, d.day)
  }

  /** The `-MM-DD` tail of a date's text. */
  function MonthDayText(m: nat, d: nat): (s: string)
    ensures |s| == 6
  {
    "-" + (Pad(m, 2) + ("-" + Pad(d, 2)))
  }

  /** `strftime('%Y-%m-%d %H:%M:%S')`: the text stored in the `date` column. */
  function FormatTimestamp(c: Instant): (s: string)
    ensures |s| == 19
  {
    FormatDate(c.date) + (" " + ClockText(c.hour, c.minute, c.second))
  }

  /** The `HH:MM:SS` tail of a timestamp. */
  function ClockText(h: nat, m: nat, sec: nat): (s: string)
    ensures |s| == 8
  {
    Pad(h, 2) + (":" + (Pad(m, 2) + (":" + Pad(sec, 2))))
  }

  /** `strftime('%Y-%m')`: the month the monthly summary reports on. */
  function MonthPrefix(c: Instant): (s: string)
    ensures |s| == 7
  {
    Pad(c.date.year, 4) + ("-" + Pad(c.date.month, 2))
  }

  /** The `%m` field of strptime: `1[0-2]|0[1-9]|[1-9]`. */
  function MonthToken(t: string): (r: Option<int>)
    ensures r.Some? ==> 1 <= r.value <= 12
  {
    if |t| == 2 && t[0] == '1' && '0' <= t[1] <= '2' then Some(10 + DigitValue(t[1]))
    else if |t| == 2 && t[0] == '0' && '1' <= t[1] <= '9' then Some(DigitValue(t[1]))
    else if |t| == 1 && '1' <= t[0] <= '9' then Some(DigitValue(t[0]))
    else None
  }

  /** The `%d` field of strptime, `3[01]|[12]\d|0[1-9]|[1-9]| [1-9]`, which must
      take everything up to the end of the string. */
  function DayToken(t: string): (r: Option<int>)
    ensures r.Some? ==> 1 <= r.value <= 31
  {
    if |t| == 2 && t[0] == '3' && '0' <= t[1] <= '1' then Some(30 + DigitValue(t[1]))
    else if |t| == 2 && '1' <= t[0] <= '2' && IsDigit(t[1]) then Some(10 * DigitValue(t[0]) + DigitValue(t[1]))
    else if |t| == 2 && t[0] == '0' && '1' <= t[1] <= '9' then Some(DigitValue(t[1]))
    else if |t| == 1 && '1' <= t[0] <= '9' then Some(DigitValue(t[0]))
    else if |t| == 2 && t[0] == ' ' && '1' <= t[1] <= '9' then Some(DigitValue(t[1]))
    else None
  }

  /** `datetime.strptime(s, '%Y-%m-%d')`: four digits, `-`, a month field, `-`,
      a day field, nothing after it, and a date that exists. `None` stands for
      the `ValueError` it raises otherwise. Month and day need no zero padding. */
  function ParseDate(s: string): (r: Option<Date>)
    ensures r.Some? ==> ValidDate(r.value) && 8 <= |s| <= 10
  {
    if |s| < 5 || !AllDigits(s[..4]) || s[4] != '-' then None
    else
      var rest := s[5..];
      var cut := if |rest| >= 2 && rest[1] == '-' then 1 else if |rest| >= 3 && rest[2] == '-' then 2 else 0;
      if cut == 0 then None
      else
        match (MonthToken(rest[..cut]), DayToken(rest[cut + 1..]))
        case (Some(m), Some(d)) =>
          var y := Val(s[..4]);
          if 1 <= y && d <= DaysInMonth(y, m) then Some(Date(y, m, d)) else None
        case _ => None
  }

  /** A date written in the zero-padded form `YYYY-MM-DD` that the error message asks for. */
  predicate IsCanonicalDate(s: string)
  {
    ParseDate(s).Some? && FormatDate(ParseDate(s).value) == s
  }

  /** Two decimal digits whose value is below `bound`. */
  predicate TwoDigitsBelow(hi: char, lo: char, bound: int)
  {
    IsDigit(hi) && IsDigit(lo) && 10 * DigitValue(hi) + DigitValue(lo) < bound
  }

  /** `HH:MM:SS` with an hour below 24 and minutes and seconds below 60. */
  predicate IsTimeText(t: string)
  {
    |t| == 8 && t[2] == ':' && t[5] == ':'
    && TwoDigitsBelow(t[0], t[1], 24) && TwoDigitsBelow(t[3], t[4], 60) && TwoDigitsBelow(t[6], t[7], 60)
  }

  /** Text of the form `strftime('%Y-%m-%d %H:%M:%S')` produces. */
  predicate IsTimestampText(s: string)
  {
    |s| == 19 && IsCanonicalDate(s[..10]) && s[10] == ' ' && IsTimeText(s[11..])
  }

  /** SQLite's `date(x)` on a stored timestamp: its `YYYY-MM-DD` part, or NULL
      when the text is not a timestamp. */
  function SqlDate(s: string): (r: Option<string>)
    ensures r.Some? ==> IsCanonicalDate(r.value) && StartsWith(s, r.value)
  {
    if IsTimestampText(s) then Some(s[..10]) else None
  }

  lemma MonthTokenOfPad(m: int)
    requires 1 <= m <= 12
    ensures MonthToken(Pad(m, 2)) == Some(m)
  {
    Pad2(m);
  }

  lemma DayTokenOfPad(d: int)
    requires 1 <= d <= 31
    ensures DayToken(Pad(d, 2)) == Some(d)
  {
    Pad2(d);
  }

  /** Reading back a formatted date gives the same date: strptime(strftime(d)) == d. */
  lemma ParseFormatDate(d: Date)
    requires ValidDate(d)
    ensures ParseDate(FormatDate(d)) == Some(d)
  {
    var s := FormatDate(d);
    var ys, ms, ds := Pad(d.year, 4), Pad(d.month, 2), Pad(d.day, 2);
    assert s[..4] == ys;
    var rest := s[5..];
    assert rest == ms + ("-" + ds);
    Pad2(d.month);
    assert rest[1] != '-' && rest[2] == '-';
    assert rest[..2] == ms && rest[3..] == ds;
    MonthTokenOfPad(d.month);
    DayTokenOfPad(d.day);
    assert Pow10(4) == 10000;
    ValPad(d.year, 4);
  }

  lemma FormatDateIsCanonical(d: Date)
    requires ValidDate(d)
    ensures IsCanonicalDate(FormatDate(d))
  {
    ParseFormatDate(d);
  }

  lemma ClockTextWellFormed(h: nat, m: nat, sec: nat)
    requires h < 24 && m < 60 && sec < 60
    ensures IsTimeText(ClockText(h, m, sec))
  {
    Pad2(h);
    Pad2(m);
    Pad2(sec);
  }

  /** The stored timestamp text is well formed, and its date part names the clock's date. */
  lemma TimestampText(c: Instant)
    ensures IsTimestampText(FormatTimestamp(c))
    ensures FormatTimestamp(c)[..10] == FormatDate(c.date)
    ensures SqlDate(FormatTimestamp(c)) == Some(FormatDate(c.date))
  {
    var s := FormatTimestamp(c);
    assert s[..10] == FormatDate(c.date) && s[10] == ' ' && s[11..] == ClockText(c.hour, c.minute, c.second);
    FormatDateIsCanonical(c.date);
    ClockTextWellFormed(c.hour, c.minute, c.second);
  }

  lemma DashOrder(x: string, y: string)
    ensures StrLe("-" + x, "-" + y) <==> StrLe(x, y)
  {
    assert ("-" + x)[1..] == x && ("-" + y)[1..] == y;
  }

  lemma MonthDayOrder(a: Date, b: Date)
    requires ValidDate(a) && ValidDate(b)
    ensures StrLe(MonthDayText(a.month, a.day), MonthDayText(b.month, b.day))
            <==> a.month < b.month || (a.month == b.month && a.day <= b.day)
  {
    assert Pow10(2) == 100;
    var da, db := "-" + Pad(a.day, 2), "-" + Pad(b.day, 2);
    DashOrder(Pad(a.month, 2) + da, Pad(b.month, 2) + db);
    StrLeConcat(Pad(a.month, 2), Pad(b.month, 2), da, db);
    PadOrder(a.month, b.month, 2);
    PadInjective(a.month, b.month, 2);
    DashOrder(Pad(a.day, 2), Pad(b.day, 2));
    PadOrder(a.day, b.day, 2);
  }

  /** On zero-padded dates the string order SQLite uses is the calendar order. */
  lemma FormatDateOrder(a: Date, b: Date)
    requires ValidDate(a) && ValidDate(b)
    ensures StrLe(FormatDate(a), FormatDate(b)) <==> DateLe(a, b)
  {
    assert Pow10(4) == 10000;
    StrLeConcat(Pad(a.year, 4), Pad(b.year, 4), MonthDayText(a.month, a.day), MonthDayText(b.month, b.day));
    PadOrder(a.year, b.year, 4);
    PadInjective(a.year, b.year, 4);
    MonthDayOrder(a, b);
  }

  /** A stored timestamp matches `LIKE 'YYYY-MM%'` for the current month exactly
      when it was written in the same year and month. */
  lemma MonthPrefixMatches(c: Instant, now: Instant)
    ensures StartsWith(FormatTimestamp(c), MonthPrefix(now))
            <==> c.date.year == now.date.year && c.date.month == now.date.month
  {
    assert Pow10(4) == 10000 && Pow10(2) == 100;
    var yc, mc := Pad(c.date.year, 4), Pad(c.date.month, 2);
    var yn, mn := Pad(now.date.year, 4), Pad(now.date.month, 2);
    assert FormatTimestamp(c)[..7] == yc + ("-" + mc);
    PadInjective(c.date.year, now.date.year, 4);
    PadInjective(c.date.month, now.date.month, 2);
    if yc + ("-" + mc) == yn + ("-" + mn) {
      assert (yc + ("-" + mc))[..4] == yc && (yn + ("-" + mn))[..4] == yn;
      assert (yc + ("-" + mc))[5..] == mc && (yn + ("-" + mn))[5..] == mn;
    }
  }
}
