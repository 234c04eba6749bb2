/**
 Audit retention: rows carry the UTC text CURRENT_TIMESTAMP writes, and trimming
 compares that text with the formatted cutoff.
 */
module AuditRetention {
  import opened Wrappers

  // ----- the calendar -----

  datatype Date = Date(year: nat, month: nat, day: nat)

  datatype DateTime = DateTime(date: Date, hour: nat, minute: nat, second: nat)

  predicate IsLeap(y: nat) {
    y % 4 == 0 && (y % 100 != 0 || y % 400 == 0)
  }

  function DaysIn(y: nat, m: nat): nat {
    if m == 2 then (if IsLeap(y) then 29 else 28)
    else if m == 4 || m == 6 || m == 9 || m == 11 then 30 else 31
  }

  predicate ValidDate(d: Date) {
    1 <= d.month <= 12 && 1 <= d.day <= DaysIn(d.year, d.month)
  }

  predicate Valid(t: DateTime) {
    ValidDate(t.date) && t.hour < 24 && t.minute < 60 && t.second < 60
  }

  function DaysBeforeYear(y: nat): nat {
    if y == 0 then 0 else DaysBeforeYear(y - 1) + (if IsLeap(y - 1) then 366 else 365)
  }

  function DaysBeforeMonth(y: nat, m: nat): nat
    requires 1 <= m <= 13
  {
    if m == 1 then 0 else DaysBeforeMonth(y, m - 1) + DaysIn(y, m - 1)
  }

  /** Days since the last day before the year 0; the calendar is proleptic Gregorian. */
  function DayNumber(d: Date): nat
    requires ValidDate(d)
  {
    DaysBeforeYear(d.year) + DaysBeforeMonth(d.year, d.month) + d.day
  }

  /** Seconds on a scale on which every day has 86400 of them. */
  function Seconds(t: DateTime): nat
    requires Valid(t)
  {
    DayNumber(t.date) * 86400 + t.hour * 3600 + t.minute * 60 + t.second
  }

  lemma YearLength(y: nat)
    ensures DaysBeforeMonth(y, 13) == if IsLeap(y) then 366 else 365
    ensures DaysBeforeMonth(y, 12) == DaysBeforeMonth(y, 13) - 31
  {
    assert DaysBeforeMonth(y, 2) == 31;
    assert DaysBeforeMonth(y, 3) == 31 + DaysIn(y, 2);
    assert DaysBeforeMonth(y, 5) == 62 + DaysIn(y, 2) + 30;
    assert DaysBeforeMonth(y, 7) == 123 + DaysIn(y, 2) + 30;
    assert DaysBeforeMonth(y, 9) == 185 + DaysIn(y, 2) + 30;
    assert DaysBeforeMonth(y, 11) == 246 + DaysIn(y, 2) + 30;
  }

  lemma {:induction false} YearsAscend(a: nat, b: nat)
    requires a <= b
    ensures DaysBeforeYear(a) <= DaysBeforeYear(b)
    decreases b
  {
    if a < b {
      YearsAscend(a, b - 1);
    }
  }

  lemma {:induction false} MonthsAscend(y: nat, a: nat, b: nat)
    requires 1 <= a <= b <= 13
    ensures DaysBeforeMonth(y, a) <= DaysBeforeMonth(y, b)
    decreases b
  {
    if a < b {
      MonthsAscend(y, a, b - 1);
    }
  }

  /** The date fits within its month and its year. */
  lemma DateWithinYear(d: Date)
    requires ValidDate(d)
    ensures DaysBeforeMonth(d.year, d.month) + d.day <= DaysBeforeMonth(d.year, d.month + 1)
    ensures DaysBeforeYear(d.year) < DayNumber(d) <= DaysBeforeYear(d.year + 1)
  {
    MonthsAscend(d.year, d.month + 1, 13);
    YearLength(d.year);
  }

  predicate DateBefore(a: Date, b: Date) {
    a.year < b.year || (a.year == b.year && (a.month < b.month || (a.month == b.month && a.day < b.day)))
  }

  lemma DatesAscend(a: Date, b: Date)
    requires ValidDate(a) && ValidDate(b) && DateBefore(a, b)
    ensures DayNumber(a) < DayNumber(b)
  {
    DateWithinYear(a);
    DateWithinYear(b);
    if a.year < b.year {
      YearsAscend(a.year + 1, b.year);
    } else if a.month < b.month {
      MonthsAscend(a.year, a.month + 1, b.month);
    }
  }

  /** The day before; there is none before 0000-01-01. */
  function PreviousDay(d: Date): Date
    requires ValidDate(d) && DayNumber(d) > 1
  {
    if d.day > 1 then d.(day := d.day - 1)
    else if d.month > 1 then Date(d.year, d.month - 1, DaysIn(d.year, d.month - 1))
    else if d.year > 0 then Date(d.year - 1, 12, 31)
    else d
  }

  lemma NewYearsEve(y: nat)
    requires y > 0
    ensures ValidDate(Date(y, 1, 1)) && ValidDate(Date(y - 1, 12, 31))
    ensures DayNumber(Date(y - 1, 12, 31)) == DayNumber(Date(y, 1, 1)) - 1
  {
    YearLength(y - 1);
  }

  lemma PreviousDayIsOneLess(d: Date)
    requires ValidDate(d) && DayNumber(d) > 1
    ensures ValidDate(PreviousDay(d)) && DayNumber(PreviousDay(d)) == DayNumber(d) - 1
  {
    if d.day == 1 && d.month == 1 && d.year > 0 {
      NewYearsEve(d.year);
    }
  }

  /** `AddDate(0, 0, -n)`. */
  function DaysEarlier(d: Date, n: nat): (r: Date)
    requires ValidDate(d) && DayNumber(d) > n
    ensures ValidDate(r) && DayNumber(r) == DayNumber(d) - n
    decreases n
  {
    if n == 0 then d
    else
      PreviousDayIsOneLess(d);
      DaysEarlier(PreviousDay(d), n - 1)
  }

  // ----- the calendar in closed form -----

  lemma FourthYear(y: nat)
    ensures (y + 4) / 4 == (y + 3) / 4 + (if y % 4 == 0 then 1 else 0)
  {
  }

  lemma Hundreds(n: nat, q: nat, r: nat)
    requires n == 100 * q + r && r < 100
    ensures n / 100 == q
  {
  }

  lemma HundredthYear(y: nat)
    ensures (y + 100) / 100 == (y + 99) / 100 + (if y % 100 == 0 then 1 else 0)
    ensures y % 100 == 0 ==> y % 4 == 0
  {
    var q, r := y / 100, y % 100;
    Hundreds(y + 100, q + 1, r);
    if r == 0 {
      Hundreds(y + 99, q, 99);
      assert y == 4 * (25 * q);
    } else {
      Hundreds(y + 99, q + 1, r - 1);
    }
  }

  lemma FourHundreds(n: nat, q: nat, r: nat)
    requires n == 400 * q + r && r < 400
    ensures n / 400 == q
  {
  }

  lemma FourHundredthYear(y: nat)
    ensures (y + 400) / 400 == (y + 399) / 400 + (if y % 400 == 0 then 1 else 0)
    ensures y % 400 == 0 ==> y % 100 == 0
  {
    var q, r := y / 400, y % 400;
    FourHundreds(y + 400, q + 1, r);
    if r == 0 {
      FourHundreds(y + 399, q, 399);
      assert y == 100 * (4 * q);
    } else {
      FourHundreds(y + 399, q + 1, r - 1);
    }
  }

  /** Every fourth year is longer by a day, but for the hundredth ones that are no four hundredth ones. */
  lemma {:induction false} YearsInClosedForm(y: nat)
    ensures DaysBeforeYear(y) == 365 * y + (y + 3) / 4 - (y + 99) / 100 + (y + 399) / 400
  {
    if y > 0 {
      YearsInClosedForm(y - 1);
      FourthYear(y - 1);
      HundredthYear(y - 1);
      FourHundredthYear(y - 1);
    }
  }

  const DAYS_BEFORE: seq<nat> := [0, 31, 59, 90, 120, 151, 181, 212, 243, 273, 304, 334]

  lemma MonthsInClosedForm(y: nat, m: nat)
    requires 1 <= m <= 12
    ensures DaysBeforeMonth(y, m) ==
            DAYS_BEFORE[m - 1] + if m > 2 && y % 4 == 0 && (y % 100 != 0 || y % 400 == 0) then 1 else 0
  {
    if m > 1 {
      MonthsInClosedForm(y, m - 1);
    }
  }

  /** The number of a day, from the number of the year's leap days and a table of the months. */
  lemma DayNumberInClosedForm(d: Date)
    requires ValidDate(d)
    ensures var y, m := d.year, d.month;
            DayNumber(d) ==
            365 * y + (y + 3) / 4 - (y + 99) / 100 + (y + 399) / 400
            + [0, 31, 59, 90, 120, 151, 181, 212, 243, 273, 304, 334][m - 1]
            + (if m > 2 && y % 4 == 0 && (y % 100 != 0 || y % 400 == 0) then 1 else 0) + d.day
  {
    YearsInClosedForm(d.year);
    MonthsInClosedForm(d.year, d.month);
  }

  // ----- text -----

  /** Byte-wise comparison of two texts, as SQLite compares them. */
  predicate Less(a: string, b: string) {
    b != [] && (a == [] || a[0] < b[0] || (a[0] == b[0] && Less(a[1..], b[1..])))
  }

  lemma {:induction false} LessConcat(a: string, b: string, a': string, b': string)
    requires |a| == |b|
    ensures Less(a + a', b + b') <==> Less(a, b) || (a == b && Less(a', b'))
    decreases |a|
  {
    if a == [] {
      assert a + a' == a' && b + b' == b';
    } else {
      LessConcat(a[1..], b[1..], a', b');
      assert (a + a')[1..] == a[1..] + a' && (b + b')[1..] == b[1..] + b';
      assert a == b <==> a[0] == b[0] && a[1..] == b[1..];
    }
  }

  function Pow10(w: nat): nat {
    if w == 0 then 1 else 10 * Pow10(w - 1)
  }

  function DigitChar(d: nat): char
    requires d < 10
  {
    (48 + d) as char
  }

  /** `n` in decimal, zero-padded to `w` places. */
  function Digits(n: nat, w: nat): (r: string)
    ensures |r| == w
    decreases w
  {
    if w == 0 then "" else Digits(n / 10, w - 1) + [DigitChar(n % 10)]
  }

  lemma OneChar(a: char, b: char)
    ensures Less([a], [b]) <==> a < b
  {
  }

  /** Fixed-width decimals compare as numbers, and different numbers look different. */
  lemma {:induction false} DigitsOrder(x: nat, y: nat, w: nat)
    requires x < Pow10(w) && y < Pow10(w)
    ensures Less(Digits(x, w), Digits(y, w)) <==> x < y
    ensures Digits(x, w) == Digits(y, w) <==> x == y
    decreases w
  {
    if w > 0 {
      DigitsOrder(x / 10, y / 10, w - 1);
      var dx, dy := DigitChar(x % 10), DigitChar(y % 10);
      LessConcat(Digits(x / 10, w - 1), Digits(y / 10, w - 1), [dx], [dy]);
      OneChar(dx, dy);
      assert dx < dy <==> x % 10 < y % 10;
      if Digits(x, w) == Digits(y, w) {
        assert Digits(x, w)[w - 1] == dx && Digits(y, w)[w - 1] == dy;
        assert Digits(x, w)[..w - 1] == Digits(x / 10, w - 1) && Digits(y, w)[..w - 1] == Digits(y / 10, w - 1);
      }
    }
  }

  /** Two-digit fields, each after its separator. */
  function Fields(separators: string, values: seq<nat>): (r: string)
    requires |separators| == |values|
    ensures |r| == 3 * |values|
    decreases |values|
  {
    if values == [] then "" else ([separators[0]] + Digits(values[0], 2)) + Fields(separators[1..], values[1..])
  }

  predicate TupleLess(a: seq<nat>, b: seq<nat>)
    requires |a| == |b|
  {
    a != [] && (a[0] < b[0] || (a[0] == b[0] && TupleLess(a[1..], b[1..])))
  }

  lemma {:induction false} FieldsOrder(separators: string, a: seq<nat>, b: seq<nat>)
    requires |separators| == |a| == |b|
    requires forall i :: 0 <= i < |a| ==> a[i] < 100 && b[i] < 100
    ensures Less(Fields(separators, a), Fields(separators, b)) <==> TupleLess(a, b)
    ensures Fields(separators, a) == Fields(separators, b) <==> a == b
    decreases |a|
  {
    if a != [] {
      var sep := [separators[0]];
      var da, db := Digits(a[0], 2), Digits(b[0], 2);
      var ra, rb := Fields(separators[1..], a[1..]), Fields(separators[1..], b[1..]);
      FieldsOrder(separators[1..], a[1..], b[1..]);
      assert Pow10(2) == 100;
      DigitsOrder(a[0], b[0], 2);
      LessConcat(sep, sep, da, db);
      OneChar(separators[0], separators[0]);
      LessConcat(sep + da, sep + db, ra, rb);
      assert sep + da == sep + db <==> da == db by {
        assert (sep + da)[1..] == da && (sep + db)[1..] == db;
      }
      assert ((sep + da) + ra)[..3] == sep + da && ((sep + da) + ra)[3..] == ra;
      assert ((sep + db) + rb)[..3] == sep + db && ((sep + db) + rb)[3..] == rb;
      assert a == b <==> a[0] == b[0] && a[1..] == b[1..];
    }
  }

  function Parts(t: DateTime): seq<nat> {
    [t.date.month, t.date.day, t.hour, t.minute, t.second]
  }

  /** `2006-01-02 15:04:05`. */
  function Format(t: DateTime): string {
    Digits(t.date.year, 4) + Fields("-- ::", Parts(t))
  }

  predicate TimeBefore(a: DateTime, b: DateTime) {
    || DateBefore(a.date, b.date)
    || (a.date == b.date
        && (a.hour < b.hour
            || (a.hour == b.hour && (a.minute < b.minute || (a.minute == b.minute && a.second < b.second)))))
  }

  lemma TupleLessFrom(a: seq<nat>, b: seq<nat>, i: nat)
    requires |a| == |b| && i < |a|
    ensures TupleLess(a[i..], b[i..]) <==> a[i] < b[i] || (a[i] == b[i] && TupleLess(a[i + 1..], b[i + 1..]))
  {
    assert a[i..][1..] == a[i + 1..] && b[i..][1..] == b[i + 1..];
  }

  lemma PartsOrder(a: DateTime, b: DateTime)
    ensures a.date.year < b.date.year || (a.date.year == b.date.year && TupleLess(Parts(a), Parts(b))) <==>
            TimeBefore(a, b)
  {
    var p, q := Parts(a), Parts(b);
    assert p[0..] == p && q[0..] == q;
    TupleLessFrom(p, q, 0);
    TupleLessFrom(p, q, 1);
    TupleLessFrom(p, q, 2);
    TupleLessFrom(p, q, 3);
    TupleLessFrom(p, q, 4);
  }

  lemma TimesAscend(a: DateTime, b: DateTime)
    requires Valid(a) && Valid(b)
    ensures TimeBefore(a, b) <==> Seconds(a) < Seconds(b)
    ensures a == b <==> Seconds(a) == Seconds(b)
  {
    if DateBefore(a.date, b.date) {
      DatesAscend(a.date, b.date);
    } else if DateBefore(b.date, a.date) {
      DatesAscend(b.date, a.date);
    } else {
      assert a.date == b.date;
    }
  }

  /** Comparing the texts is comparing the times, and different times have different texts. */
  lemma TextOrderIsTimeOrder(a: DateTime, b: DateTime)
    requires Valid(a) && Valid(b) && a.date.year <= 9999 && b.date.year <= 9999
    ensures Less(Format(a), Format(b)) <==> Seconds(a) < Seconds(b)
    ensures Format(a) == Format(b) <==> a == b
  {
    var ya, yb := Digits(a.date.year, 4), Digits(b.date.year, 4);
    var fa, fb := Fields("-- ::", Parts(a)), Fields("-- ::", Parts(b));
    assert Pow10(2) == 100 && Pow10(4) == 10000;
    DigitsOrder(a.date.year, b.date.year, 4);
    FieldsOrder("-- ::", Parts(a), Parts(b));
    LessConcat(ya, yb, fa, fb);
    assert (ya + fa)[..4] == ya && (ya + fa)[4..] == fa;
    assert (yb + fb)[..4] == yb && (yb + fb)[4..] == fb;
    PartsOrder(a, b);
    TimesAscend(a, b);
  }

  // ----- retention -----

  const DEFAULT_RETENTION_DAYS := 90
  const MAX_DETAIL := 2000

  predicate IsValidRetentionDays(days: int) {
    days == 7 || days == 30 || days == 90 || days == 180 || days == 365
  }

  function DigitsValue(s: string): Option<nat>
    decreases |s|
  {
    if s == "" then Some(0)
    else
      var n := |s| - 1;
      var before := DigitsValue(s[..n]);
      if before.Some? && '0' <= s[n] <= '9' then Some(10 * before.value + (s[n] as int - 48)) else None
  }

  /** `strconv.Atoi`: an optional sign, at least one digit, and a value that fits int64. */
  function Atoi(s: string): Option<int> {
    var signed := s != "" && (s[0] == '+' || s[0] == '-');
    var digits := if signed then s[1..] else s;
    var magnitude := DigitsValue(digits);
    if digits == "" || magnitude.None? then None
    else
      var value: int := if signed && s[0] == '-' then 0 - magnitude.value else magnitude.value;
      if -0x8000_0000_0000_0000 <= value < 0x8000_0000_0000_0000 then Some(value) else None
  }

  /** The window used: the stored preset, or the default for a missing, unreadable or off-preset setting. */
  function RetentionDays(setting: Option<string>): (days: nat)
    ensures days == 7 || days == 30 || days == 90 || days == 180 || days == 365
    ensures days != 90 ==> setting.Some? && Atoi(setting.value) == Some(days)
    ensures setting.Some? && Atoi(setting.value).Some?
            && (var n := Atoi(setting.value).value; n == 7 || n == 30 || n == 90 || n == 180 || n == 365) ==>
      days == Atoi(setting.value).value
  {
    if setting.None? then DEFAULT_RETENTION_DAYS
    else
      var parsed := Atoi(setting.value);
      if parsed.None? || !IsValidRetentionDays(parsed.value) then DEFAULT_RETENTION_DAYS else parsed.value
  }

  lemma {:induction false} DigitsAreRead(n: nat, w: nat)
    requires n < Pow10(w)
    ensures DigitsValue(Digits(n, w)) == Some(n)
    decreases w
  {
    if w > 0 {
      DigitsAreRead(n / 10, w - 1);
      assert Digits(n, w)[..w - 1] == Digits(n / 10, w - 1);
    }
  }

  lemma SliceAfter(a: string, b: string, i: nat, j: nat)
    requires i <= j <= |b|
    ensures (a + b)[|a| + i..|a| + j] == b[i..j]
  {
  }

  lemma {:induction false} FieldsAt(separators: string, values: seq<nat>, i: nat)
    requires |separators| == |values| && i < |values|
    ensures Fields(separators, values)[3 * i] == separators[i]
    ensures Fields(separators, values)[3 * i + 1..3 * i + 3] == Digits(values[i], 2)
    decreases |values|
  {
    var first, rest := [separators[0]] + Digits(values[0], 2), Fields(separators[1..], values[1..]);
    assert Fields(separators, values) == first + rest;
    if i == 0 {
      assert (first + rest)[1..3] == Digits(values[0], 2);
    } else {
      FieldsAt(separators[1..], values[1..], i - 1);
      var k := 3 * (i - 1);
      SliceAfter(first, rest, k + 1, k + 3);
      assert |first| == 3 && 3 * i == 3 + k;
    }
  }

  /** One field of a formatted time: its separator and its value. */
  lemma FormatField(t: DateTime, i: nat)
    requires Valid(t) && i < 5
    ensures |Format(t)| == 19 && Format(t)[4 + 3 * i] == "-- ::"[i]
    ensures DigitsValue(Format(t)[5 + 3 * i..7 + 3 * i]) == Some(Parts(t)[i])
  {
    var year, fields := Digits(t.date.year, 4), Fields("-- ::", Parts(t));
    FieldsAt("-- ::", Parts(t), i);
    assert (year + fields)[4 + 3 * i] == fields[3 * i];
    assert (year + fields)[5 + 3 * i..7 + 3 * i] == fields[3 * i + 1..3 * i + 3];
    assert Pow10(2) == 100;
    DigitsAreRead(Parts(t)[i], 2);
  }

  lemma FormatDateReadsBack(t: DateTime)
    requires Valid(t) && t.date.year <= 9999
    ensures var f := Format(t);
            && |f| == 19 && f[4] == '-' && f[7] == '-' && DigitsValue(f[..4]) == Some(t.date.year)
            && DigitsValue(f[5..7]) == Some(t.date.month) && DigitsValue(f[8..10]) == Some(t.date.day)
  {
    FormatField(t, 0);
    FormatField(t, 1);
    assert Pow10(4) == 10000;
    DigitsAreRead(t.date.year, 4);
    assert Format(t)[..4] == Digits(t.date.year, 4);
  }

  lemma FormatTimeReadsBack(t: DateTime)
    requires Valid(t)
    ensures var f := Format(t);
            && |f| == 19 && f[10] == ' ' && f[13] == ':' && f[16] == ':'
            && DigitsValue(f[11..13]) == Some(t.hour) && DigitsValue(f[14..16]) == Some(t.minute)
            && DigitsValue(f[17..19]) == Some(t.second)
  {
    FormatField(t, 2);
    FormatField(t, 3);
    FormatField(t, 4);
  }

  /** A formatted time reads back: the year, month and day, then the hour, minute and second, each at its place. */
  lemma FormatReadsBack(t: DateTime)
    requires Valid(t) && t.date.year <= 9999
    ensures var f := Format(t);
            && |f| == 19 && f[4] == '-' && f[7] == '-' && f[10] == ' ' && f[13] == ':' && f[16] == ':'
            && DigitsValue(f[..4]) == Some(t.date.year)
            && DigitsValue(f[5..7]) == Some(t.date.month) && DigitsValue(f[8..10]) == Some(t.date.day)
            && DigitsValue(f[11..13]) == Some(t.hour) && DigitsValue(f[14..16]) == Some(t.minute)
            && DigitsValue(f[17..19]) == Some(t.second)
  {
    FormatDateReadsBack(t);
    FormatTimeReadsBack(t);
  }

  /** What `strconv.Itoa` writes for a nonnegative number. */
  function Itoa(n: nat): (s: string)
    ensures s != ""
  {
    Digits(n, Width(n))
  }

  /** The number of decimal digits. */
  function Width(n: nat): (w: nat)
    ensures w > 0 && n < Pow10(w) && (n >= 10 ==> Pow10(w - 1) <= n)
  {
    if n < 10 then 1 else 1 + Width(n / 10)
  }

  lemma DigitsStart(n: nat, w: nat)
    requires w > 0
    ensures '0' <= Digits(n, w)[0] <= '9'
    decreases w
  {
  }

  lemma NumberIsRead(n: nat, w: nat)
    requires w > 0 && n < Pow10(w) && n < 0x8000_0000_0000_0000
    ensures Atoi(Digits(n, w)) == Some(n)
  {
    DigitsAreRead(n, w);
    DigitsStart(n, w);
  }

  /** What the settings page stores is what the trim reads; a stored number is used exactly when it is a preset. */
  lemma StoredDaysAreUsed(days: nat)
    requires days < 0x8000_0000_0000_0000
    ensures RetentionDays(Some(Itoa(days))) == days <==>
            days == 7 || days == 30 || days == 90 || days == 180 || days == 365
    ensures RetentionDays(Some(Itoa(days))) != days ==> RetentionDays(Some(Itoa(days))) == 90
  {
    NumberIsRead(days, Width(days));
  }

  lemma {:induction false} NoNumber(s: string, i: nat)
    requires i < |s| && !('0' <= s[i] <= '9')
    ensures DigitsValue(s) == None
    decreases |s|
  {
    if i < |s| - 1 {
      NoNumber(s[..|s| - 1], i);
    }
  }

  /** A preset is read with or without a plus sign and leading zeros. */
  lemma RetentionOfNumber(days: nat, w: nat)
    requires days < Pow10(w) && (days == 7 || days == 30 || days == 90 || days == 180 || days == 365)
    ensures RetentionDays(Some(Digits(days, w))) == days && RetentionDays(Some("+" + Digits(days, w))) == days
    ensures RetentionDays(Some("-" + Digits(days, w))) == 90
  {
    var digits := Digits(days, w);
    NumberIsRead(days, w);
    assert ("+" + digits)[1..] == digits && ("-" + digits)[1..] == digits;
    DigitsAreRead(days, w);
  }

  /** No setting, an empty one, and any text that is no number mean 90 days. */
  lemma RetentionOfNonsense(s: string)
    requires s == "" || exists i :: 0 < i < |s| && !('0' <= s[i] <= '9')
    ensures RetentionDays(Some(s)) == 90 && RetentionDays(None) == 90
  {
    if i :| 0 < i < |s| && !('0' <= s[i] <= '9') {
      NoNumber(s, i);
      NoNumber(s[1..], i - 1);
    }
  }

  /** The detail is cut by bytes. */
  datatype Entry = Entry(action: string, detail: seq<bv8>)

  datatype AuditRow = AuditRow(createdAt: string, entry: Entry)

  type Rows = map<nat, AuditRow>

  function TrimmedBefore(rows: Rows, cutoff: string): Rows {
    map id | id in rows && !Less(rows[id].createdAt, cutoff) :: rows[id]
  }

  predicate Representable(t: DateTime) {
    Valid(t) && 1 <= t.date.year <= 9999
  }

  lemma AYearFits(t: DateTime, days: nat)
    requires Representable(t) && days <= 365
    ensures DayNumber(t.date) > days
  {
    DateWithinYear(t.date);
    YearsAscend(1, t.date.year);
  }

  function Cutoff(now: DateTime, days: nat): (r: DateTime)
    requires Representable(now) && days <= 365
    ensures Valid(r) && r.date.year <= 9999
    ensures Seconds(r) == Seconds(now) - days * 86400
  {
    AYearFits(now, days);
    var r := now.(date := DaysEarlier(now.date, days));
    CutoffYear(now.date, r.date);
    r
  }

  lemma CutoffYear(d: Date, r: Date)
    requires ValidDate(d) && ValidDate(r) && DayNumber(r) <= DayNumber(d)
    ensures r.year <= d.year
  {
    if r.year > d.year {
      DateWithinYear(d);
      DateWithinYear(r);
      YearsAscend(d.year + 1, r.year);
    }
  }

  /** Trimming deletes exactly the rows stamped before the cutoff, a whole number of days ago. */
  lemma TrimIsExact(rows: Rows, now: DateTime, days: nat, id: nat, stamp: DateTime)
    requires Representable(now) && days <= 365
    requires id in rows && Representable(stamp) && rows[id].createdAt == Format(stamp)
    ensures id in TrimmedBefore(rows, Format(Cutoff(now, days))) <==> Seconds(stamp) >= Seconds(now) - days * 86400
  {
    TextOrderIsTimeOrder(stamp, Cutoff(now, days));
  }

  function Bounded(e: Entry): Entry {
    if |e.detail| > MAX_DETAIL then e.(detail := e.detail[..MAX_DETAIL]) else e
  }

  /** The table after one recorded action, stamped at `inserted` and trimmed at `now`. */
  function Recorded(rows: Rows, id: nat, e: Entry, inserted: DateTime, now: DateTime, days: nat): Rows
    requires Representable(now) && days <= 365
  {
    TrimmedBefore(rows[id := AuditRow(Format(inserted), Bounded(e))], Format(Cutoff(now, days)))
  }

  lemma NewRowStays(rows: Rows, id: nat, e: Entry, inserted: DateTime, now: DateTime, days: nat)
    requires Representable(inserted) && Representable(now) && 7 <= days <= 365 && id !in rows
    requires Seconds(inserted) >= Seconds(now) - 7 * 86400
    ensures var after := Recorded(rows, id, e, inserted, now, days);
            && id in after && after[id] == AuditRow(Format(inserted), Bounded(e))
            && forall k :: k in after ==> k == id || (k in rows && after[k] == rows[k])
  {
    TrimIsExact(rows[id := AuditRow(Format(inserted), Bounded(e))], now, days, id, inserted);
  }

  lemma OldRowStaysIff(rows: Rows, id: nat, e: Entry, inserted: DateTime, now: DateTime, days: nat, k: nat, t: DateTime)
    requires Representable(now) && days <= 365 && id !in rows
    requires k in rows && Representable(t) && rows[k].createdAt == Format(t)
    ensures k in Recorded(rows, id, e, inserted, now, days) <==> Seconds(t) >= Seconds(now) - days * 86400
  {
    TrimIsExact(rows[id := AuditRow(Format(inserted), Bounded(e))], now, days, k, t);
  }

  /**
   Recording keeps the new row and exactly the old rows of the retention window, all
   unchanged, whatever text the setting holds.
   */
  lemma RecordKeepsTheWindow(rows: Rows, id: nat, e: Entry, inserted: DateTime, now: DateTime, setting: Option<string>)
    requires Representable(inserted) && Representable(now) && id !in rows
    requires Seconds(inserted) >= Seconds(now) - 7 * 86400
    ensures var days := RetentionDays(setting);
            var after := Recorded(rows, id, e, inserted, now, days);
            && id in after && after[id].createdAt == Format(inserted) && after[id].entry.action == e.action
            && after[id].entry.detail == (if |e.detail| <= 2000 then e.detail else e.detail[..2000])
            && (forall k :: k in after ==> k == id || (k in rows && after[k] == rows[k]))
            && (forall k, t :: k in rows && Representable(t) && rows[k].createdAt == Format(t) ==>
                  (k in after <==> Seconds(t) >= Seconds(now) - days * 86400))
  {
    var days := RetentionDays(setting);
    NewRowStays(rows, id, e, inserted, now, days);
    forall k, t | k in rows && Representable(t) && rows[k].createdAt == Format(t)
      ensures k in Recorded(rows, id, e, inserted, now, days) <==> Seconds(t) >= Seconds(now) - days * 86400
    {
      OldRowStaysIff(rows, id, e, inserted, now, days, k, t);
    }
  }

  /** The audit table and the retention setting. */
  class Recorder {
    var rows: Rows
    var nextId: nat
    var setting: Option<string>

    ghost predicate Valid()
      reads this
    {
      forall id :: id in rows ==> id < nextId
    }

    constructor ()
      ensures Valid() && rows == map[] && setting == None
    {
      rows, nextId, setting := map[], 0, None;
    }

    /** The insert and the trim may fail; neither failure is reported. */
    method Record(e: Entry, inserted: DateTime, now: DateTime, insertOk: bool, trimOk: bool)
      requires Valid() && Representable(now)
      modifies this
      ensures Valid() && setting == old(setting)
      ensures nextId == if insertOk then old(nextId) + 1 else old(nextId)
      ensures insertOk && !trimOk ==>
        && old(nextId) in rows && rows == old(rows)[old(nextId) := rows[old(nextId)]]
        && rows[old(nextId)].createdAt == Format(inserted) && rows[old(nextId)].entry.action == e.action
        && rows[old(nextId)].entry.detail == if |e.detail| <= 2000 then e.detail else e.detail[..2000]
      ensures rows ==
              if !insertOk then old(rows)
              else if !trimOk then old(rows)[old(nextId) := AuditRow(Format(inserted), Bounded(e))]
              else Recorded(old(rows), old(nextId), e, inserted, now, RetentionDays(setting))
    {
      var detail := e.detail;
      if |detail| > MAX_DETAIL {
        detail := detail[..MAX_DETAIL];
      }
      if !insertOk {
        return;
      }
      rows := rows[nextId := AuditRow(Format(inserted), e.(detail := detail))];
      nextId := nextId + 1;
      var cutoff := Format(Cutoff(now, RetentionDays(setting)));
      if trimOk {
        rows := TrimmedBefore(rows, cutoff);
      }
    }
  }
}
