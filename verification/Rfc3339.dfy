/** UTC timestamps with whole seconds, as `time.RFC3339` prints them, and their order.
    Instants are seconds since 0000-01-01T00:00:00Z in the proleptic Gregorian calendar. */
module Rfc3339 {
  import opened Text

  const SECONDS_PER_DAY := 86400

  /** The first second whose year needs five digits. */
  const END := 3652425 * SECONDS_PER_DAY

  datatype Civil = Civil(year: nat, month: nat, day: nat, hour: nat, minute: nat, second: nat)

  predicate IsLeap(year: nat) {
    year % 4 == 0 && (year % 100 != 0 || year % 400 == 0)
  }

  function YearLength(year: nat): nat {
    if IsLeap(year) then 366 else 365
  }

  function MonthLength(leap: bool, month: nat): nat {
    if month == 2 then (if leap then 29 else 28)
    else if month in {4, 6, 9, 11} then 30
    else 31
  }

  /** Days from 0000-01-01 to the first day of `year`. */
  function DaysBeforeYear(year: nat): nat {
    if year == 0 then 0 else DaysBeforeYear(year - 1) + YearLength(year - 1)
  }

  /** Days from the first of January to the first day of `month`. */
  function DaysBeforeMonth(leap: bool, month: nat): nat {
    if month <= 1 then 0 else DaysBeforeMonth(leap, month - 1) + MonthLength(leap, month - 1)
  }

  predicate ValidCivil(c: Civil) {
    1 <= c.month <= 12 && 1 <= c.day <= MonthLength(IsLeap(c.year), c.month) &&
    c.hour < 24 && c.minute < 60 && c.second < 60
  }

  function DayNumber(c: Civil): int {
    DaysBeforeYear(c.year) + DaysBeforeMonth(IsLeap(c.year), c.month) + c.day - 1
  }

  /** The instant a calendar date and a time of day denote. */
  function Instant(c: Civil): int {
    DayNumber(c) * SECONDS_PER_DAY + c.hour * 3600 + c.minute * 60 + c.second
  }

  /** Counts whole years off `days`, starting at `year`; returns the year reached and the days left in it. */
  function SplitYear(year: nat, days: nat): (nat, nat)
    decreases days
  {
    if days < YearLength(year) then (year, days)
    else SplitYear(year + 1, days - YearLength(year))
  }

  /** Counts whole months off `days`, starting at `month`; returns the month reached and the days left in it. */
  function SplitMonth(leap: bool, month: nat, days: nat): (nat, nat)
    decreases days
  {
    if days < MonthLength(leap, month) then (month, days)
    else SplitMonth(leap, month + 1, days - MonthLength(leap, month))
  }

  lemma {:induction false} SplitYearExact(year: nat, days: nat)
    ensures var (y, rest) := SplitYear(year, days);
      rest < YearLength(y) && DaysBeforeYear(y) + rest == DaysBeforeYear(year) + days
    decreases days
  {
    if days >= YearLength(year) {
      SplitYearExact(year + 1, days - YearLength(year));
    }
  }

  lemma {:induction false} SplitMonthExact(leap: bool, month: nat, days: nat)
    requires 1 <= month <= 12 && DaysBeforeMonth(leap, month) + days < DaysBeforeMonth(leap, 13)
    ensures var (m, rest) := SplitMonth(leap, month, days);
      1 <= m <= 12 && rest < MonthLength(leap, m) && DaysBeforeMonth(leap, m) + rest == DaysBeforeMonth(leap, month) + days
    decreases days
  {
    assert DaysBeforeMonth(leap, month + 1) == DaysBeforeMonth(leap, month) + MonthLength(leap, month);
    if days >= MonthLength(leap, month) {
      SplitMonthExact(leap, month + 1, days - MonthLength(leap, month));
    }
  }

  lemma YearIsItsMonths(leap: bool)
    ensures DaysBeforeMonth(leap, 13) == if leap then 366 else 365
  {
    assert DaysBeforeMonth(leap, 2) == 31;
    assert DaysBeforeMonth(leap, 3) == 31 + MonthLength(leap, 2);
    assert DaysBeforeMonth(leap, 5) == DaysBeforeMonth(leap, 3) + 61;
    assert DaysBeforeMonth(leap, 7) == DaysBeforeMonth(leap, 5) + 61;
    assert DaysBeforeMonth(leap, 9) == DaysBeforeMonth(leap, 7) + 62;
    assert DaysBeforeMonth(leap, 11) == DaysBeforeMonth(leap, 9) + 61;
  }

  /** The calendar date and time of day of an instant. */
  function ToCivil(t: nat): Civil {
    var (year, yearDay) := SplitYear(0, t / SECONDS_PER_DAY);
    var (month, monthDay) := SplitMonth(IsLeap(year), 1, yearDay);
    var s := t % SECONDS_PER_DAY;
    Civil(year, month, monthDay + 1, s / 3600, s / 60 % 60, s % 60)
  }

  lemma TimeOfDayExact(s: nat)
    requires s < SECONDS_PER_DAY
    ensures s / 3600 < 24 && s / 60 % 60 < 60 && s == s / 3600 * 3600 + s / 60 % 60 * 60 + s % 60
  {
    assert s / 60 / 60 == s / 3600;
  }

  /** The conversion finds the one date and time that denotes the instant. */
  lemma ToCivilExact(t: nat)
    ensures ValidCivil(ToCivil(t)) && Instant(ToCivil(t)) == t
  {
    var (year, yearDay) := SplitYear(0, t / SECONDS_PER_DAY);
    SplitYearExact(0, t / SECONDS_PER_DAY);
    YearIsItsMonths(IsLeap(year));
    var (month, monthDay) := SplitMonth(IsLeap(year), 1, yearDay);
    SplitMonthExact(IsLeap(year), 1, yearDay);
    TimeOfDayExact(t % SECONDS_PER_DAY);
    assert ToCivil(t).month == month && ToCivil(t).day == monthDay + 1;
  }

  function Digit(n: nat): char {
    '0' + (n % 10) as char
  }

  function Pad2(n: nat): (s: string)
    ensures |s| == 2
  {
    [Digit(n / 10), Digit(n)]
  }

  function Pad4(n: nat): (s: string)
    ensures |s| == 4
  {
    Pad2(n / 100) + Pad2(n)
  }

  /** Two-digit fields, each after its separator, up to the zone. */
  function Tail(fields: seq<(char, nat)>): string {
    if fields == [] then "Z"
    else [fields[0].0] + (Pad2(fields[0].1) + Tail(fields[1..]))
  }

  function Fields(c: Civil): seq<(char, nat)> {
    [('-', c.month), ('-', c.day), ('T', c.hour), (':', c.minute), (':', c.second)]
  }

  function Render(c: Civil): string {
    Pad4(c.year) + Tail(Fields(c))
  }

  /** How many of the years before `year` the rule "every `k` years" makes leap years, the year 0 included. */
  function Multiples(year: nat, k: nat): nat
    requires k > 0
  {
    (year + (k - 1)) / k
  }

  lemma MultiplesStep(year: nat)
    ensures Multiples(year + 1, 4) == Multiples(year, 4) + if year % 4 == 0 then 1 else 0
    ensures Multiples(year + 1, 100) == Multiples(year, 100) + if year % 100 == 0 then 1 else 0
    ensures Multiples(year + 1, 400) == Multiples(year, 400) + if year % 400 == 0 then 1 else 0
  {
    assert (year + 4) / 4 == year / 4 + 1;
    assert (year + 100) / 100 == year / 100 + 1;
    assert (year + 400) / 400 == year / 400 + 1;
  }

  lemma LeapRule(year: nat)
    ensures year % 100 == 0 ==> year % 4 == 0
    ensures year % 400 == 0 ==> year % 100 == 0
  {
    if year % 100 == 0 {
      assert year == 4 * (25 * (year / 100));
    }
    if year % 400 == 0 {
      assert year == 100 * (4 * (year / 400));
    }
  }

  /** The calendar in closed form: a leap day every 4 years, but not every 100, but every 400. */
  lemma {:induction false} DaysBeforeYearClosed(year: nat)
    ensures DaysBeforeYear(year) == 365 * year + Multiples(year, 4) - Multiples(year, 100) + Multiples(year, 400)
  {
    if year > 0 {
      DaysBeforeYearClosed(year - 1);
      MultiplesStep(year - 1);
      LeapRule(year - 1);
    }
  }

  lemma {:induction false} DaysBeforeYearMonotone(y: nat, z: nat)
    requires y < z
    ensures DaysBeforeYear(y) + YearLength(y) <= DaysBeforeYear(z)
  {
    if y + 1 < z {
      DaysBeforeYearMonotone(y, z - 1);
    }
  }

  lemma {:induction false} DaysBeforeMonthMonotone(leap: bool, m: nat, n: nat)
    requires 1 <= m < n <= 13
    ensures DaysBeforeMonth(leap, m) + MonthLength(leap, m) <= DaysBeforeMonth(leap, n)
  {
    if m + 1 < n {
      DaysBeforeMonthMonotone(leap, m, n - 1);
    }
  }

  lemma TenThousandYears()
    ensures DaysBeforeYear(10000) == 3652425
  {
    DaysBeforeYearClosed(10000);
  }

  /** Years have four digits exactly before `END`. */
  lemma FourDigitYears(t: nat)
    ensures ToCivil(t).year < 10000 <==> t < END
  {
    TenThousandYears();
    SplitYearExact(0, t / SECONDS_PER_DAY);
    var days := t / SECONDS_PER_DAY;
    var (year, yearDay) := SplitYear(0, days);
    if year < 10000 {
      DaysBeforeYearMonotone(year, 10000);
    } else if year > 10000 {
      DaysBeforeYearMonotone(10000, year);
    }
    assert year < 10000 <==> days < 3652425;
  }

  /** Field by field, most significant first. */
  predicate CivilLess(a: Civil, b: Civil) {
    a.year < b.year || (a.year == b.year && (
    a.month < b.month || (a.month == b.month && (
    a.day < b.day || (a.day == b.day && (
    a.hour < b.hour || (a.hour == b.hour && (
    a.minute < b.minute || (a.minute == b.minute && a.second < b.second)))))))))
  }

  lemma DayNumberMonotone(a: Civil, b: Civil)
    requires ValidCivil(a) && ValidCivil(b)
    requires a.year < b.year || (a.year == b.year && (a.month < b.month || (a.month == b.month && a.day < b.day)))
    ensures DayNumber(a) < DayNumber(b)
  {
    if a.year < b.year {
      DaysBeforeYearMonotone(a.year, b.year);
      YearIsItsMonths(IsLeap(a.year));
      DaysBeforeMonthMonotone(IsLeap(a.year), a.month, 13);
    } else if a.month < b.month {
      DaysBeforeMonthMonotone(IsLeap(a.year), a.month, b.month);
    }
  }

  lemma InstantMonotone(a: Civil, b: Civil)
    requires ValidCivil(a) && ValidCivil(b) && CivilLess(a, b)
    ensures Instant(a) < Instant(b)
  {
    if a.year == b.year && a.month == b.month && a.day == b.day {
      assert DayNumber(a) == DayNumber(b);
    } else {
      DayNumberMonotone(a, b);
    }
  }

  lemma Pad2Order(x: nat, y: nat)
    requires x < 100 && y < 100
    ensures StrLess(Pad2(x), Pad2(y)) <==> x < y
    ensures Pad2(x) == Pad2(y) <==> x == y
  {
    var a, b := Pad2(x), Pad2(y);
    DigitOrder(x / 10, y / 10);
    DigitOrder(x % 10, y % 10);
    assert a[0] == Digit(x / 10) && a[1] == Digit(x % 10) && b[0] == Digit(y / 10) && b[1] == Digit(y % 10);
    assert !StrLess(a[1..][1..], b[1..][1..]);
    assert StrLess(a[1..], b[1..]) <==> x % 10 < y % 10;
    assert StrLess(a, b) <==> x / 10 < y / 10 || (x / 10 == y / 10 && x % 10 < y % 10);
  }

  lemma DigitOrder(x: nat, y: nat)
    requires x < 10 && y < 10
    ensures Digit(x) < Digit(y) <==> x < y
    ensures Digit(x) == Digit(y) <==> x == y
  {
  }

  /** Two digits show a number modulo 100. */
  lemma Pad2Mod(x: nat)
    ensures Pad2(x) == Pad2(x % 100)
  {
    var q, r := x / 100, x % 100;
    assert x / 10 == 10 * q + r / 10;
    assert (10 * q + r / 10) % 10 == r / 10 % 10;
    assert x % 10 == r % 10;
  }

  lemma Pad4Order(x: nat, y: nat)
    requires x < 10000 && y < 10000
    ensures StrLess(Pad4(x), Pad4(y)) <==> x < y
    ensures Pad4(x) == Pad4(y) <==> x == y
  {
    Pad2Order(x / 100, y / 100);
    Pad2Order(x % 100, y % 100);
    assert Pad2(x) == Pad2(x % 100) && Pad2(y) == Pad2(y % 100) by {
      Pad2Mod(x);
      Pad2Mod(y);
    }
    StrLessConcat(Pad2(x / 100), Pad2(x), Pad2(y / 100), Pad2(y));
    if Pad4(x) == Pad4(y) {
      assert Pad4(x)[..2] == Pad2(x / 100) && Pad4(y)[..2] == Pad2(y / 100);
      assert Pad4(x)[2..] == Pad2(x) && Pad4(y)[2..] == Pad2(y);
    }
  }

  /** The first field that differs decides. */
  ghost predicate FieldsLess(xs: seq<(char, nat)>, ys: seq<(char, nat)>)
    requires |xs| == |ys|
  {
    xs != [] && (xs[0].1 < ys[0].1 || (xs[0].1 == ys[0].1 && FieldsLess(xs[1..], ys[1..])))
  }

  lemma {:induction false} TailOrder(xs: seq<(char, nat)>, ys: seq<(char, nat)>)
    requires |xs| == |ys| && forall i: nat | i < |xs| :: xs[i].1 < 100 && ys[i].1 < 100 && xs[i].0 == ys[i].0
    ensures StrLess(Tail(xs), Tail(ys)) <==> FieldsLess(xs, ys)
  {
    if xs == [] {
      StrLessIrreflexive("Z");
    } else {
      TailOrder(xs[1..], ys[1..]);
      var separator, x, y := [xs[0].0], xs[0].1, ys[0].1;
      StrLessIrreflexive(separator);
      StrLessConcat(separator, Pad2(x) + Tail(xs[1..]), separator, Pad2(y) + Tail(ys[1..]));
      StrLessConcat(Pad2(x), Tail(xs[1..]), Pad2(y), Tail(ys[1..]));
      Pad2Order(x, y);
    }
  }

  lemma {:induction false} TailForm(xs: seq<(char, nat)>)
    ensures |Tail(xs)| == 3 * |xs| + 1 && Tail(xs)[|Tail(xs)| - 1] == 'Z'
  {
    if xs != [] {
      TailForm(xs[1..]);
    }
  }

  lemma FieldsOrder(a: Civil, b: Civil)
    ensures FieldsLess(Fields(a), Fields(b)) <==> CivilLess(a.(year := 0), b.(year := 0))
  {
    var x, y := Fields(a), Fields(b);
    assert FieldsLess(x[5..], y[5..]) == false;
    assert forall i | 0 <= i < 5 :: x[i..][1..] == x[i + 1..] && y[i..][1..] == y[i + 1..];
    assert FieldsLess(x[4..], y[4..]) <==> a.second < b.second;
    assert FieldsLess(x[3..], y[3..]) <==> a.minute < b.minute || (a.minute == b.minute && a.second < b.second);
    assert FieldsLess(x[2..], y[2..]) <==> a.hour < b.hour || (a.hour == b.hour && FieldsLess(x[3..], y[3..]));
    assert FieldsLess(x[1..], y[1..]) <==> a.day < b.day || (a.day == b.day && FieldsLess(x[2..], y[2..]));
    assert x[0..] == x && y[0..] == y;
  }

  lemma RenderOrder(a: Civil, b: Civil)
    requires ValidCivil(a) && ValidCivil(b) && a.year < 10000 && b.year < 10000
    ensures StrLess(Render(a), Render(b)) <==> CivilLess(a, b)
  {
    StrLessConcat(Pad4(a.year), Tail(Fields(a)), Pad4(b.year), Tail(Fields(b)));
    Pad4Order(a.year, b.year);
    TailOrder(Fields(a), Fields(b));
    FieldsOrder(a, b);
  }

  /** `Format(time.RFC3339)` of a UTC instant. */
  function Stamp(t: nat): string {
    Render(ToCivil(t))
  }

  /** The `n` characters of `s` at `i` are the decimal digits of `value`. */
  predicate Reads(s: string, i: nat, n: nat, value: nat) {
    i + n <= |s| && AllDigits(s[i..i + n]) && Decimal(s[i..i + n]) == value
  }

  lemma Pad2Reads(x: nat)
    requires x < 100
    ensures AllDigits(Pad2(x)) && Decimal(Pad2(x)) == x
  {
    var s := Pad2(x);
    assert s[..1] == [Digit(x / 10)] && s[..1][..0] == "";
    assert Decimal(s[..1]) == x / 10;
  }

  lemma {:induction false} DecimalConcat(a: string, b: string)
    requires AllDigits(a) && AllDigits(b) && |b| == 2
    ensures AllDigits(a + b) && Decimal(a + b) == 100 * Decimal(a) + Decimal(b)
  {
    var s := a + b;
    assert s[..|s| - 1] == a + b[..1] && (a + b[..1])[..|a|] == a;
    assert b[..1][..0] == "";
    assert b[0] in b && b[1] in b;
    var x, y := b[0] as int - '0' as int, b[1] as int - '0' as int;
    assert Decimal(a + b[..1]) == 10 * Decimal(a) + x;
    assert Decimal(b[..1]) == x;
    assert Decimal(s) == 10 * Decimal(a + b[..1]) + y;
    assert Decimal(b) == 10 * x + y;
  }

  lemma Pad4Reads(x: nat)
    requires x < 10000
    ensures AllDigits(Pad4(x)) && Decimal(Pad4(x)) == x
  {
    Pad2Reads(x / 100);
    Pad2Reads(x % 100);
    Pad2Mod(x);
    DecimalConcat(Pad2(x / 100), Pad2(x));
  }

  lemma TailStep(xs: seq<(char, nat)>)
    requires xs != []
    ensures |Tail(xs)| == 3 + |Tail(xs[1..])| && Tail(xs)[0] == xs[0].0
    ensures Tail(xs)[1..3] == Pad2(xs[0].1) && Tail(xs)[3..] == Tail(xs[1..])
  {
    hide Pad2;
    ThreeParts(xs[0].0, Pad2(xs[0].1), Tail(xs[1..]));
  }

  lemma ThreeParts(c: char, a: string, b: string)
    requires |a| == 2
    ensures var s := [c] + (a + b); |s| == 3 + |b| && s[0] == c && s[1..3] == a && s[3..] == b
  {
  }

  lemma {:induction false} TailReads(xs: seq<(char, nat)>, i: nat)
    requires i < |xs| && forall k: nat | k < |xs| :: xs[k].1 < 100
    ensures |Tail(xs)| == 3 * |xs| + 1
    ensures Tail(xs)[3 * i] == xs[i].0 && Reads(Tail(xs), 3 * i + 1, 2, xs[i].1)
  {
    hide Tail, Decimal, AllDigits, Pad2;
    TailForm(xs);
    TailStep(xs);
    if i == 0 {
      Pad2Reads(xs[0].1);
    } else {
      TailReads(xs[1..], i - 1);
      var s, rest := Tail(xs), Tail(xs[1..]);
      var j := 3 * (i - 1);
      assert s[3..][j] == s[j + 3] && s[3..][j + 1..j + 3] == s[j + 4..j + 6];
    }
  }

  /** A stamp reads `YYYY-MM-DDTHH:MM:SSZ`, with the date and time of its instant (section 5.6 of RFC 3339). */
  lemma StampReads(t: nat)
    requires t < END
    ensures var s, c := Stamp(t), ToCivil(t);
      |s| == 20 && s[4] == '-' && s[7] == '-' && s[10] == 'T' && s[13] == ':' && s[16] == ':' && s[19] == 'Z' &&
      Reads(s, 0, 4, c.year) && Reads(s, 5, 2, c.month) && Reads(s, 8, 2, c.day) &&
      Reads(s, 11, 2, c.hour) && Reads(s, 14, 2, c.minute) && Reads(s, 17, 2, c.second)
  {
    FourDigitYears(t);
    ToCivilExact(t);
    var c := ToCivil(t);
    FieldsRead(c);
    Pad4Reads(c.year);
    var s := Stamp(t);
    assert s[0..4] == Pad4(c.year) && s[4..] == Tail(Fields(c));
    assert s[5..7] == Tail(Fields(c))[1..3] && s[8..10] == Tail(Fields(c))[4..6] && s[11..13] == Tail(Fields(c))[7..9];
    assert s[14..16] == Tail(Fields(c))[10..12] && s[17..19] == Tail(Fields(c))[13..15];
  }

  lemma FieldsRead(c: Civil)
    requires ValidCivil(c)
    ensures var s := Tail(Fields(c));
      |s| == 16 && s[0] == '-' && s[3] == '-' && s[6] == 'T' && s[9] == ':' && s[12] == ':' && s[15] == 'Z' &&
      Reads(s, 1, 2, c.month) && Reads(s, 4, 2, c.day) && Reads(s, 7, 2, c.hour) &&
      Reads(s, 10, 2, c.minute) && Reads(s, 13, 2, c.second)
  {
    hide Reads, Tail;
    var xs := Fields(c);
    TailForm(xs);
    TailReads(xs, 0);
    TailReads(xs, 1);
    TailReads(xs, 2);
    TailReads(xs, 3);
    TailReads(xs, 4);
  }

  /** The days before each month of a common year; a leap day moves those after February. */
  lemma MonthStarts(leap: bool, month: nat)
    requires 1 <= month <= 13
    ensures DaysBeforeMonth(leap, month) ==
      [0, 31, 59, 90, 120, 151, 181, 212, 243, 273, 304, 334, 365][month - 1] + if leap && month > 2 then 1 else 0
  {
    if month > 1 {
      MonthStarts(leap, month - 1);
    }
  }

  /** The calendar is anchored where Unix time starts. */
  lemma UnixEpoch()
    ensures ToCivil(719528 * SECONDS_PER_DAY) == Civil(1970, 1, 1, 0, 0, 0)
  {
    var days: nat := 719528;
    var (year, yearDay) := SplitYear(0, days);
    SplitYearExact(0, days);
    DaysBeforeYearClosed(1970);
    if year < 1970 {
      DaysBeforeYearMonotone(year, 1970);
    } else if year > 1970 {
      DaysBeforeYearMonotone(1970, year);
    }
    assert days * SECONDS_PER_DAY / SECONDS_PER_DAY == days && days * SECONDS_PER_DAY % SECONDS_PER_DAY == 0;
  }

  /** The string comparison is the time comparison. */
  lemma StampOrder(t: nat, u: nat)
    requires t < END && u < END
    ensures StrLess(Stamp(t), Stamp(u)) <==> t < u
  {
    FourDigitYears(t);
    FourDigitYears(u);
    ToCivilExact(t);
    ToCivilExact(u);
    var a, b := ToCivil(t), ToCivil(u);
    RenderOrder(a, b);
    if CivilLess(a, b) {
      InstantMonotone(a, b);
    } else if a != b {
      assert CivilLess(b, a);
      InstantMonotone(b, a);
    }
  }

  /** Stamps have one width; distinct instants have distinct stamps. */
  lemma StampForm(t: nat, u: nat)
    requires t < END && u < END
    ensures |Stamp(t)| == 20 && Stamp(t)[19] == 'Z'
    ensures Stamp(t) == Stamp(u) <==> t == u
  {
    TailForm(Fields(ToCivil(t)));
    StampOrder(t, u);
    StampOrder(u, t);
    StrLessIrreflexive(Stamp(t));
  }

  /** Six digits. */
  function Pad6(n: nat): (s: string)
    ensures |s| == 6
  {
    Pad2(n / 10000) + Pad4(n % 10000)
  }

  lemma Pad6Order(x: nat, y: nat)
    requires x < 1000000 && y < 1000000
    ensures StrLess(Pad6(x), Pad6(y)) <==> x < y
    ensures Pad6(x) == Pad6(y) <==> x == y
  {
    Pad2Order(x / 10000, y / 10000);
    Pad4Order(x % 10000, y % 10000);
    StrLessConcat(Pad2(x / 10000), Pad4(x % 10000), Pad2(y / 10000), Pad4(y % 10000));
    if Pad6(x) == Pad6(y) {
      assert Pad6(x)[..2] == Pad2(x / 10000) && Pad6(y)[..2] == Pad2(y / 10000);
      assert Pad6(x)[2..] == Pad4(x % 10000) && Pad6(y)[2..] == Pad4(y % 10000);
    }
  }

  /** A stamp with a fraction of its second, e.g. `2026-07-25T00:00:00.123456Z`. */
  function MicroStamp(t: nat, fraction: string): string {
    TailForm(Fields(ToCivil(t)));
    Stamp(t)[..19] + ("." + fraction + "Z")
  }

  /** `isoformat` in UTC, as the API stamps: it leaves out the fraction of a whole second. */
  function Iso(t: nat, micros: nat): string {
    if micros == 0 then Stamp(t) else MicroStamp(t, Pad6(micros))
  }

  /** A fraction is printed as six digits between the seconds and the zone. */
  lemma IsoReads(t: nat, micros: nat)
    requires t < END && 0 < micros < 1000000
    ensures var s := Iso(t, micros);
      |s| == 27 && |Stamp(t)| == 20 && s[..19] == Stamp(t)[..19] && s[19] == '.' && Reads(s, 20, 6, micros) && s[26] == 'Z'
  {
    hide Stamp;
    StampForm(t, t);
    Pad2Reads(micros / 10000);
    Pad4Reads(micros % 10000);
    var a, b := Pad2(micros / 10000), Pad4(micros % 10000);
    DecimalConcat(a, b[..2]);
    assert Pad6(micros) == (a + b[..2]) + b[2..];
    DecimalConcat(a + b[..2], b[2..]);
    DecimalConcat(b[..2], b[2..]);
    assert b == b[..2] + b[2..];
    assert Iso(t, micros)[20..26] == Pad6(micros);
  }

  /** Stamps of whatever precision are ordered by their seconds first, then by what follows those. */
  lemma SecondsFirst(t: nat, u: nat, x: string, y: string)
    requires t < END && u < END
    ensures |Stamp(t)| == |Stamp(u)| == 20 && Stamp(t) == Stamp(t)[..19] + "Z" && Stamp(u) == Stamp(u)[..19] + "Z"
    ensures StrLess(Stamp(t)[..19] + x, Stamp(u)[..19] + y) <==> t < u || (t == u && StrLess(x, y))
  {
    hide Stamp;
    StampForm(t, u);
    StampForm(u, t);
    StampOrder(t, u);
    var a, b := Stamp(t)[..19], Stamp(u)[..19];
    assert Stamp(t) == a + "Z" && Stamp(u) == b + "Z";
    StrLessIrreflexive("Z");
    StrLessConcat(a, "Z", b, "Z");
    StrLessConcat(a, x, b, y);
  }

  /** A stamp with a fraction against a whole second, e.g. a cutoff: it sorts before its own second. */
  lemma MicroStampMisordered(t: nat, fraction: string, u: nat)
    requires t < END && u < END
    ensures StrLess(MicroStamp(t, fraction), Stamp(u)) <==> t <= u
    ensures StrLess(Stamp(u), MicroStamp(t, fraction)) <==> u < t
  {
    hide Stamp;
    SecondsFirst(t, u, "." + fraction + "Z", "Z");
    SecondsFirst(u, t, "Z", "." + fraction + "Z");
  }

  /** The exact order of the API's stamps: within a second, the whole second comes last. */
  lemma IsoOrder(t: nat, f: nat, u: nat, g: nat)
    requires t < END && u < END && f < 1000000 && g < 1000000
    ensures StrLess(Iso(t, f), Iso(u, g)) <==> t < u || (t == u && f != 0 && (g == 0 || f < g))
  {
    hide Stamp, Pad6;
    if f == 0 && g == 0 {
      StampOrder(t, u);
    } else if g == 0 {
      MicroStampMisordered(t, Pad6(f), u);
    } else if f == 0 {
      MicroStampMisordered(u, Pad6(g), t);
    } else {
      SecondsFirst(t, u, "." + Pad6(f) + "Z", "." + Pad6(g) + "Z");
      Pad6Order(f, g);
      StrLessIrreflexive(".");
      StrLessIrreflexive("Z");
      StrLessConcat(".", Pad6(f) + "Z", ".", Pad6(g) + "Z");
      StrLessConcat(Pad6(f), "Z", Pad6(g), "Z");
      assert "." + Pad6(f) + "Z" == "." + (Pad6(f) + "Z") && "." + Pad6(g) + "Z" == "." + (Pad6(g) + "Z");
    }
  }

  /** The API's stamps sort as time passes, except a whole second against fractions of the same second. */
  lemma IsoOrderIsTime(t: nat, f: nat, u: nat, g: nat)
    requires t < END && u < END && f < 1000000 && g < 1000000
    ensures (StrLess(Iso(t, f), Iso(u, g)) <==> t < u || (t == u && f < g)) &&
            (StrLess(Iso(u, g), Iso(t, f)) <==> u < t || (u == t && g < f))
            <==> t != u || f == g || (f != 0 && g != 0)
  {
    IsoOrder(t, f, u, g);
    IsoOrder(u, g, t, f);
  }
}
