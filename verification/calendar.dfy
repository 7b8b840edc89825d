/** Dates of src/lockdown/pairing.rs: day counts to Gregorian dates, and UTCTime. */
module Calendar {
  import opened Bytes
  import Der

  predicate IsLeap(y: nat) {
    y % 4 == 0 && (y % 100 != 0 || y % 400 == 0)
  }

  function YearDays(y: nat): nat {
    if IsLeap(y) then 366 else 365
  }

  function MonthDays(y: nat, m: nat): (n: nat)
    requires 1 <= m <= 12
    ensures 28 <= n <= 31
  {
    if m == 2 then if IsLeap(y) then 29 else 28
    else if m == 4 || m == 6 || m == 9 || m == 11 then 30
    else 31
  }

  // ---- the reference: days since 1970-01-01 in closed form ----

  /** Leap years among the years 1 to y. */
  function Leaps(y: nat): int {
    y / 4 - y / 100 + y / 400
  }

  /** Days from 1970-01-01 to the first of January of year y; negative for earlier years. */
  function Elapsed(y: nat): int
    requires y >= 1
  {
    365 * (y - 1970) + Leaps(y - 1) - Leaps(1969)
  }

  /** Days of the year before month m: from March on, 153 days every five months. */
  function DaysBeforeMonth(y: nat, m: nat): nat
    requires 1 <= m <= 13
  {
    if m <= 2 then 31 * (m - 1)
    else 59 + (if IsLeap(y) then 1 else 0) + (153 * (m - 3) + 2) / 5
  }

  predicate ValidDate(y: nat, m: nat, d: nat) {
    y >= 1 && 1 <= m <= 12 && 1 <= d <= DaysBeforeMonth(y, m + 1) - DaysBeforeMonth(y, m)
  }

  function DayNumber(y: nat, m: nat, d: nat): int
    requires ValidDate(y, m, d)
  {
    Elapsed(y) + DaysBeforeMonth(y, m) + (d - 1)
  }

  lemma QuarterStep(y: nat)
    requires y >= 1
    ensures y / 4 - (y - 1) / 4 == if y % 4 == 0 then 1 else 0
  {}

  lemma Hundreds(n: nat, q: nat, r: nat)
    requires n == 100 * q + r && r < 100
    ensures n / 100 == q
  {}

  lemma CenturyStep(y: nat)
    requires y >= 1
    ensures y / 100 - (y - 1) / 100 == if y % 100 == 0 then 1 else 0
  {
    var q, r := y / 100, y % 100;
    if r == 0 {
      Hundreds(y - 1, q - 1, 99);
    } else {
      Hundreds(y - 1, q, r - 1);
    }
  }

  lemma MultipleOfFour(q: nat)
    ensures (4 * q) % 4 == 0
  {}

  lemma CenturyIsQuarter(y: nat)
    ensures y % 100 == 0 ==> y % 4 == 0
  {
    if y % 100 == 0 {
      var q := 25 * (y / 100);
      assert y == 4 * q;
      MultipleOfFour(q);
    }
  }

  lemma FourHundreds(n: nat, q: nat, r: nat)
    requires n == 400 * q + r && r < 400
    ensures n / 400 == q
  {}

  lemma MultipleOfHundred(q: nat)
    ensures (100 * q) % 100 == 0
  {}

  lemma FourCenturyStep(y: nat)
    requires y >= 1
    ensures y / 400 - (y - 1) / 400 == if y % 400 == 0 then 1 else 0
  {
    var q, r := y / 400, y % 400;
    if r == 0 {
      FourHundreds(y - 1, q - 1, 399);
    } else {
      FourHundreds(y - 1, q, r - 1);
    }
  }

  lemma FourCenturyIsCentury(y: nat)
    ensures y % 400 == 0 ==> y % 100 == 0
  {
    if y % 400 == 0 {
      var q := 4 * (y / 400);
      assert y == 100 * q;
      MultipleOfHundred(q);
    }
  }

  lemma LeapsStep(y: nat)
    requires y >= 1
    ensures Leaps(y) == Leaps(y - 1) + if IsLeap(y) then 1 else 0
  {
    QuarterStep(y);
    CenturyStep(y);
    CenturyIsQuarter(y);
    FourCenturyStep(y);
    FourCenturyIsCentury(y);
  }

  lemma ElapsedStep(y: nat)
    requires y >= 1
    ensures Elapsed(y + 1) == Elapsed(y) + YearDays(y)
  {
    LeapsStep(y);
    hide Leaps;
  }

  lemma MonthStep(y: nat, m: nat)
    requires 1 <= m <= 12
    ensures DaysBeforeMonth(y, 1) == 0
    ensures DaysBeforeMonth(y, m + 1) == DaysBeforeMonth(y, m) + MonthDays(y, m)
  {
    hide IsLeap;
  }

  lemma YearTotal(y: nat)
    ensures DaysBeforeMonth(y, 13) == YearDays(y)
  {
    hide IsLeap;
  }

  /** For every day count the date is valid and its day number is the count. */
  method DaysToYmd(count: nat) returns (y: nat, m: nat, d: nat)
    ensures ValidDate(y, m, d) && y >= 1970 && DayNumber(y, m, d) == count
  {
    hide IsLeap, Leaps, DaysBeforeMonth, MonthDays;
    var days: nat := count;
    y := 1970;
    assert Elapsed(1970) == 0;
    hide Elapsed;
    while days >= YearDays(y)
      invariant y >= 1970 && Elapsed(y) + days == count
      decreases days
    {
      ElapsedStep(y);
      days := days - YearDays(y);
      y := y + 1;
    }
    YearTotal(y);
    m := 1;
    MonthStep(y, 1);
    ghost var left: nat := days;
    while m <= 12 && days >= MonthDays(y, m)
      invariant 1 <= m <= 13 && left == DaysBeforeMonth(y, m) + days
      decreases 13 - m
    {
      MonthStep(y, m);
      days := days - MonthDays(y, m);
      m := m + 1;
    }
    MonthStep(y, m);
    d := days + 1;
  }

  // ---- day numbers order dates, so the date of a count is unique ----

  predicate DateBefore(y: nat, m: nat, d: nat, y': nat, m': nat, d': nat) {
    y < y' || (y == y' && (m < m' || (m == m' && d < d')))
  }

  lemma {:induction false} ElapsedGrows(y: nat, y': nat)
    requires 1 <= y < y'
    ensures Elapsed(y) + YearDays(y) <= Elapsed(y')
    decreases y' - y
  {
    hide IsLeap, Leaps;
    ElapsedStep(y);
    if y + 1 < y' {
      ElapsedGrows(y + 1, y');
    }
    hide Elapsed;
  }

  lemma {:induction false} MonthsGrow(y: nat, m: nat, m': nat)
    requires 1 <= m < m' <= 13
    ensures DaysBeforeMonth(y, m + 1) <= DaysBeforeMonth(y, m')
    decreases m' - m
  {
    if m + 1 < m' {
      MonthStep(y, m' - 1);
      MonthsGrow(y, m, m' - 1);
    }
    hide IsLeap, MonthDays, DaysBeforeMonth;
  }

  lemma EarlierDate(y: nat, m: nat, d: nat, y': nat, m': nat, d': nat)
    requires ValidDate(y, m, d) && ValidDate(y', m', d') && DateBefore(y, m, d, y', m', d')
    ensures DayNumber(y, m, d) < DayNumber(y', m', d')
  {
    hide Elapsed, YearDays, IsLeap, MonthDays;
    if y < y' {
      ElapsedGrows(y, y');
      YearTotal(y);
      MonthsGrow(y, m, 13);
    } else if m < m' {
      MonthsGrow(y, m, m');
    }
  }

  /** Later dates have larger day numbers, and only they do. */
  lemma DayNumberOrders(y: nat, m: nat, d: nat, y': nat, m': nat, d': nat)
    requires ValidDate(y, m, d) && ValidDate(y', m', d')
    ensures DayNumber(y, m, d) < DayNumber(y', m', d') <==> DateBefore(y, m, d, y', m', d')
  {
    if DateBefore(y, m, d, y', m', d') {
      EarlierDate(y, m, d, y', m', d');
    } else if DateBefore(y', m', d', y, m, d) {
      EarlierDate(y', m', d', y, m, d);
    }
    hide DayNumber, ValidDate;
  }

  // ---- UTCTime ----

  datatype Date = Date(y: nat, m: nat, d: nat)

  /** The date of a day count: the only valid one with that day number. */
  ghost predicate IsDateOf(t: Date, count: nat) {
    ValidDate(t.y, t.m, t.d) && DayNumber(t.y, t.m, t.d) == count
  }

  lemma DateUnique(s: Date, t: Date, count: nat)
    requires IsDateOf(s, count) && IsDateOf(t, count)
    ensures s == t
  {
    DayNumberOrders(s.y, s.m, s.d, t.y, t.m, t.d);
    DayNumberOrders(t.y, t.m, t.d, s.y, s.m, s.d);
    hide DayNumber, ValidDate;
  }

  function TwoDigits(n: nat): (s: seq<byte>)
    requires n < 100
    ensures |s| == 2
  {
    [48 + n / 10, 48 + n % 10]
  }

  /** YYMMDDHHMMSSZ */
  function UtcText(t: Date, secs: nat): (s: seq<byte>)
    requires t.m < 100 && t.d < 100 && secs < 86400
    ensures |s| == 13
  {
    TwoDigits(t.y % 100) + TwoDigits(t.m) + TwoDigits(t.d)
    + TwoDigits(secs / 3600) + TwoDigits(secs % 3600 / 60) + TwoDigits(secs % 60) + [90]
  }

  /** The tagged text of a moment. */
  method UtcTime(unix: nat) returns (der: seq<byte>)
    ensures exists t :: IsDateOf(t, unix / 86400) && der == Der.DerTag(0x17, UtcText(t, unix % 86400))
  {
    var days, rem := unix / 86400, unix % 86400;
    var y, m, d := DaysToYmd(days);
    var s := TwoDigits(y % 100) + TwoDigits(m) + TwoDigits(d);
    s := s + TwoDigits(rem / 3600) + TwoDigits(rem % 3600 / 60) + TwoDigits(rem % 60) + [90];
    assert IsDateOf(Date(y, m, d), days) && s == UtcText(Date(y, m, d), rem);
    der := Der.EncodeTag(0x17, s);
  }

  function ReadTwo(s: seq<byte>, at: nat): int
    requires at + 2 <= |s|
  {
    10 * (s[at] as int - 48) + (s[at + 1] as int - 48)
  }

  /** The year a two-digit year stands for (RFC 5280 section 4.1.2.5.1). */
  function FullYear(yy: int): int {
    if yy >= 50 then 1900 + yy else 2000 + yy
  }

  /** What a reader takes UTCTime text to say: year, month, day and second of the day. */
  function ReadUtc(s: seq<byte>): (int, int, int, int)
    requires |s| == 13
  {
    (FullYear(ReadTwo(s, 0)), ReadTwo(s, 2), ReadTwo(s, 4),
     ReadTwo(s, 6) * 3600 + ReadTwo(s, 8) * 60 + ReadTwo(s, 10))
  }

  lemma UtcFields(t: Date, secs: nat)
    requires t.m < 100 && t.d < 100 && secs < 86400
    ensures var s := UtcText(t, secs);
      && ReadTwo(s, 0) == t.y % 100 && ReadTwo(s, 2) == t.m && ReadTwo(s, 4) == t.d
      && ReadTwo(s, 6) == secs / 3600 && ReadTwo(s, 8) == secs % 3600 / 60 && ReadTwo(s, 10) == secs % 60
      && s[12] == 90
  {}

  /** The text is read back as the moment it was made from exactly before 2050. */
  lemma UtcRoundTrip(unix: nat, t: Date)
    requires IsDateOf(t, unix / 86400)
    ensures t.m < 100 && t.d < 100
    ensures ReadUtc(UtcText(t, unix % 86400)) == (t.y, t.m, t.d, unix % 86400) <==> unix < 2524608000
  {
    hide IsLeap, UtcText, ReadTwo, Elapsed, DayNumber, MonthDays;
    UtcFields(t, unix % 86400);
    BeforeYear(t, unix / 86400, 2050);
    BeforeYear(t, unix / 86400, 1970);
    Epochs();
    YearRead(t.y);
    SecondsOf(unix % 86400);
    assert unix / 86400 < 29220 <==> unix < 2524608000;
  }

  lemma Epochs()
    ensures Elapsed(1970) == 0 && Elapsed(2050) == 29220
  {}

  lemma YearRead(y: nat)
    requires y >= 1970
    ensures FullYear(y % 100) == y <==> y < 2050
  {}

  lemma SecondsOf(secs: nat)
    ensures secs / 3600 * 3600 + secs % 3600 / 60 * 60 + secs % 60 == secs
  {
    assert secs % 3600 % 60 == secs % 60;
  }

  lemma BeforeYear(t: Date, count: nat, y: nat)
    requires IsDateOf(t, count) && y >= 1
    ensures t.y < y <==> count < Elapsed(y)
  {
    hide IsLeap, MonthDays, Elapsed;
    YearTotal(t.y);
    MonthsGrow(t.y, t.m, 13);
    if t.y < y {
      ElapsedGrows(t.y, y);
    } else if y < t.y {
      ElapsedGrows(y, t.y);
    }
  }
}
