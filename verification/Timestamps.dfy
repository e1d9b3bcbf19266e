/** `datetime.isoformat()` for UTC: the text order of such strings is the order of time, although the
    fraction is six digits or absent. */
module Timestamps {
  import opened Text

  // ----- The calendar ---------------------------------------------------------------------------

  predicate IsLeap(year: nat) {
    year % 4 == 0 && (year % 100 != 0 || year % 400 == 0)
  }

  function DaysInMonth(year: nat, month: nat): (days: nat)
    ensures 28 <= days <= 31
  {
    if month == 2 then (if IsLeap(year) then 29 else 28)
    else if month in {4, 6, 9, 11} then 30
    else 31
  }

  function DaysBeforeYear(year: nat): int {
    var y := year - 1;
    y * 365 + y / 4 - y / 100 + y / 400
  }

  function DaysBeforeMonth(year: nat, month: nat): nat {
    if month <= 1 then 0 else DaysBeforeMonth(year, month - 1) + DaysInMonth(year, month - 1)
  }

  datatype Stamp = Stamp(year: nat, month: nat, day: nat, hour: nat, minute: nat, second: nat, micro: nat) {
    predicate Valid() {
      && 1 <= year <= 9999
      && 1 <= month <= 12
      && 1 <= day <= DaysInMonth(year, month)
      && hour < 24 && minute < 60 && second < 60
      && micro < 1000000
    }

    /** The proleptic Gregorian ordinal; day 1 is the first of January of year 1. */
    function Ordinal(): int {
      DaysBeforeYear(year) + DaysBeforeMonth(year, month) + day
    }

    function SecondOfDay(): nat {
      (hour * 60 + minute) * 60 + second
    }

    /** Microseconds of UTC since the day before ordinal 1. */
    function Instant(): int {
      (Ordinal() * 86400 + SecondOfDay()) * 1000000 + micro
    }
  }

  lemma YearLength(year: nat)
    requires year >= 1
    ensures DaysBeforeYear(year + 1) == DaysBeforeYear(year) + if IsLeap(year) then 366 else 365
  {
    Carry(year, 4);
    Carry(year, 100);
    Carry(year, 400);
  }

  lemma Carry(n: nat, d: nat)
    requires n >= 1 && d in {4, 100, 400}
    ensures n / d == (n - 1) / d + if n % d == 0 then 1 else 0
  {
  }

  lemma {:induction false} YearsIncrease(early: nat, late: nat)
    requires 1 <= early <= late
    ensures DaysBeforeYear(early) <= DaysBeforeYear(late)
    decreases late
  {
    if early < late {
      YearsIncrease(early, late - 1);
      YearLength(late - 1);
    }
  }

  lemma {:induction false} MonthsIncrease(year: nat, early: nat, late: nat)
    requires 1 <= early < late
    ensures DaysBeforeMonth(year, early) + DaysInMonth(year, early) <= DaysBeforeMonth(year, late)
    decreases late
  {
    if early < late - 1 {
      MonthsIncrease(year, early, late - 1);
    }
  }

  lemma MonthsFillYear(year: nat)
    ensures DaysBeforeMonth(year, 13) == if IsLeap(year) then 366 else 365
  {
    assert DaysBeforeMonth(year, 2) == 31;
    assert DaysBeforeMonth(year, 3) == if IsLeap(year) then 60 else 59;
    QuarterDays(year, 3);
    QuarterDays(year, 6);
    QuarterDays(year, 9);
    assert DaysBeforeMonth(year, 13) == DaysBeforeMonth(year, 12) + 31;
  }

  lemma QuarterDays(year: nat, month: nat)
    requires month in {3, 6, 9}
    ensures DaysBeforeMonth(year, month + 3) == DaysBeforeMonth(year, month) + if month == 9 then 91 else 92
  {
    assert DaysBeforeMonth(year, month + 1) == DaysBeforeMonth(year, month) + DaysInMonth(year, month);
    assert DaysBeforeMonth(year, month + 2) == DaysBeforeMonth(year, month + 1) + DaysInMonth(year, month + 1);
  }

  /** A date lies between the start of its month and the start of the next, and of its year and the next. */
  lemma OrdinalBounds(s: Stamp)
    requires s.Valid()
    ensures DaysBeforeYear(s.year) < s.Ordinal() <= DaysBeforeYear(s.year + 1)
  {
    MonthsIncrease(s.year, s.month, 13);
    MonthsFillYear(s.year);
    YearLength(s.year);
  }

  predicate EarlierDate(s: Stamp, t: Stamp) {
    s.year < t.year || (s.year == t.year && (s.month < t.month || (s.month == t.month && s.day < t.day)))
  }

  lemma EarlierDateOrdinal(s: Stamp, t: Stamp)
    requires s.Valid() && t.Valid() && EarlierDate(s, t)
    ensures s.Ordinal() < t.Ordinal()
  {
    if s.year < t.year {
      OrdinalBounds(s);
      OrdinalBounds(t);
      YearsIncrease(s.year + 1, t.year);
    } else if s.month < t.month {
      MonthsIncrease(s.year, s.month, t.month);
    }
  }

  lemma DateOrder(s: Stamp, t: Stamp)
    requires s.Valid() && t.Valid()
    ensures EarlierDate(s, t) <==> s.Ordinal() < t.Ordinal()
    ensures s.year == t.year && s.month == t.month && s.day == t.day <==> s.Ordinal() == t.Ordinal()
  {
    if EarlierDate(s, t) {
      EarlierDateOrdinal(s, t);
    } else if EarlierDate(t, s) {
      EarlierDateOrdinal(t, s);
    }
  }

  // ----- The text ----------------------------------------------------------------------------------

  function Digits(n: nat, width: nat): (text: string)
    ensures |text| == width
  {
    if width == 0 then "" else Digits(n / 10, width - 1) + [('0' as int + n % 10) as char]
  }

  function DateText(s: Stamp): string {
    Digits(s.year, 4) + ("-" + (Digits(s.month, 2) + ("-" + Digits(s.day, 2))))
  }

  function ClockText(s: Stamp): string {
    Digits(s.hour, 2) + (":" + (Digits(s.minute, 2) + (":" + Digits(s.second, 2))))
  }

  /** No fraction at all on a whole second. */
  function Tail(micro: nat): string {
    if micro == 0 then "+00:00" else "." + (Digits(micro, 6) + "+00:00")
  }

  function IsoFormat(s: Stamp): string {
    DateText(s) + ("T" + (ClockText(s) + Tail(s.micro)))
  }

  // ----- Text order is number order ------------------------------------------------------------------

  /** The texts `a` and `b` compare as the numbers `p` and `q` do. */
  ghost predicate Compares(a: string, b: string, p: int, q: int) {
    (Less(a, b) <==> p < q) && (a == b <==> p == q)
  }

  function Pow10(width: nat): (p: nat)
    ensures p > 0
  {
    if width == 0 then 1 else 10 * Pow10(width - 1)
  }

  lemma OneCharLess(a: char, b: char)
    ensures Less([a], [b]) <==> a < b
  {
  }

  lemma {:induction false} DigitsCompare(m: nat, n: nat, width: nat)
    requires m < Pow10(width) && n < Pow10(width)
    ensures Compares(Digits(m, width), Digits(n, width), m, n)
  {
    if width > 0 {
      var a, b := ('0' as int + m % 10) as char, ('0' as int + n % 10) as char;
      DigitsCompare(m / 10, n / 10, width - 1);
      OneCharLess(a, b);
      PairCompares(Digits(m / 10, width - 1), Digits(n / 10, width - 1), m / 10, n / 10, [a], [b], m % 10, n % 10, m, n);
    }
  }

  /** Heads of equal length decide, tails break ties; `x` and `y` combine the numbers the same way. */
  lemma PairCompares(a: string, b: string, p: int, q: int, s: string, t: string, u: int, v: int, x: int, y: int)
    requires |a| == |b| && Compares(a, b, p, q) && Compares(s, t, u, v)
    requires x < y <==> p < q || (p == q && u < v)
    requires x == y <==> p == q && u == v
    ensures Compares(a + s, b + t, x, y)
  {
    LessConcat(a, b, s, t);
    if a + s == b + t {
      assert a == (a + s)[..|a|] && b == (b + t)[..|b|];
      assert s == (a + s)[|a|..] && t == (b + t)[|b|..];
    }
  }

  lemma SeparatorCompares(separator: string, s: string, t: string, u: int, v: int)
    requires Compares(s, t, u, v)
    ensures Compares(separator + s, separator + t, u, v)
  {
    Irreflexive(separator);
    PairCompares(separator, separator, 0, 0, s, t, u, v, u, v);
  }

  lemma TwoDigits(m: nat, n: nat)
    requires m < 100 && n < 100
    ensures Compares(Digits(m, 2), Digits(n, 2), m, n)
  {
    assert Pow10(2) == 100;
    DigitsCompare(m, n, 2);
  }

  lemma DateCompares(s: Stamp, t: Stamp)
    requires s.Valid() && t.Valid()
    ensures Compares(DateText(s), DateText(t), s.Ordinal(), t.Ordinal())
  {
    TwoDigits(s.day, t.day);
    SeparatorCompares("-", Digits(s.day, 2), Digits(t.day, 2), s.day, t.day);
    TwoDigits(s.month, t.month);
    PairCompares(Digits(s.month, 2), Digits(t.month, 2), s.month, t.month,
                 "-" + Digits(s.day, 2), "-" + Digits(t.day, 2), s.day, t.day,
                 s.month * 100 + s.day, t.month * 100 + t.day);
    YearCompares(s, t, "-" + (Digits(s.month, 2) + ("-" + Digits(s.day, 2))), "-" + (Digits(t.month, 2) + ("-" + Digits(t.day, 2))),
                 Digits(s.month, 2) + ("-" + Digits(s.day, 2)), Digits(t.month, 2) + ("-" + Digits(t.day, 2)));
  }

  lemma YearCompares(s: Stamp, t: Stamp, a: string, b: string, c: string, d: string)
    requires s.Valid() && t.Valid() && a == "-" + c && b == "-" + d
    requires Compares(c, d, s.month * 100 + s.day, t.month * 100 + t.day)
    ensures Compares(Digits(s.year, 4) + a, Digits(t.year, 4) + b, s.Ordinal(), t.Ordinal())
  {
    SeparatorCompares("-", c, d, s.month * 100 + s.day, t.month * 100 + t.day);
    assert Pow10(4) == 10000;
    DigitsCompare(s.year, t.year, 4);
    DateOrder(s, t);
    PairCompares(Digits(s.year, 4), Digits(t.year, 4), s.year, t.year, a, b,
                 s.month * 100 + s.day, t.month * 100 + t.day, s.Ordinal(), t.Ordinal());
  }

  lemma ClockCompares(s: Stamp, t: Stamp)
    requires s.Valid() && t.Valid()
    ensures Compares(ClockText(s), ClockText(t), s.SecondOfDay(), t.SecondOfDay())
  {
    TwoDigits(s.second, t.second);
    SeparatorCompares(":", Digits(s.second, 2), Digits(t.second, 2), s.second, t.second);
    TwoDigits(s.minute, t.minute);
    var x, y := s.minute * 60 + s.second, t.minute * 60 + t.second;
    var a, b := Digits(s.minute, 2) + (":" + Digits(s.second, 2)), Digits(t.minute, 2) + (":" + Digits(t.second, 2));
    PairCompares(Digits(s.minute, 2), Digits(t.minute, 2), s.minute, t.minute,
                 ":" + Digits(s.second, 2), ":" + Digits(t.second, 2), s.second, t.second, x, y);
    SeparatorCompares(":", a, b, x, y);
    TwoDigits(s.hour, t.hour);
    PairCompares(Digits(s.hour, 2), Digits(t.hour, 2), s.hour, t.hour, ":" + a, ":" + b, x, y,
                 s.SecondOfDay(), t.SecondOfDay());
  }

  /** A whole second has no fraction and sorts first, because '+' comes before '.'. */
  lemma TailCompares(m: nat, n: nat)
    requires m < 1000000 && n < 1000000
    ensures Compares(Tail(m), Tail(n), m, n)
  {
    Irreflexive("+00:00");
    if m > 0 && n > 0 {
      assert Pow10(6) == 1000000;
      DigitsCompare(m, n, 6);
      PairCompares(Digits(m, 6), Digits(n, 6), m, n, "+00:00", "+00:00", 0, 0, m, n);
      SeparatorCompares(".", Digits(m, 6) + "+00:00", Digits(n, 6) + "+00:00", m, n);
    } else if m != n {
      assert Tail(m)[0] != Tail(n)[0];
    }
  }

  lemma ClockLength(s: Stamp, t: Stamp)
    ensures |ClockText(s)| == |ClockText(t)| && |DateText(s)| == |DateText(t)|
  {
  }

  /** For all UTC stamps, text order is time order and equal texts are equal instants. */
  lemma TextOrderIsTimeOrder(s: Stamp, t: Stamp)
    requires s.Valid() && t.Valid()
    ensures Less(IsoFormat(s), IsoFormat(t)) <==> s.Instant() < t.Instant()
    ensures IsoFormat(s) == IsoFormat(t) <==> s.Instant() == t.Instant()
  {
    ClockLength(s, t);
    DateCompares(s, t);
    ClockCompares(s, t);
    TailCompares(s.micro, t.micro);
    var x, y := s.SecondOfDay() * 1000000 + s.micro, t.SecondOfDay() * 1000000 + t.micro;
    var a, b := ClockText(s) + Tail(s.micro), ClockText(t) + Tail(t.micro);
    PairCompares(ClockText(s), ClockText(t), s.SecondOfDay(), t.SecondOfDay(), Tail(s.micro), Tail(t.micro), s.micro, t.micro, x, y);
    SeparatorCompares("T", a, b, x, y);
    PairCompares(DateText(s), DateText(t), s.Ordinal(), t.Ordinal(), "T" + a, "T" + b, x, y, s.Instant(), t.Instant());
  }

  /** The text determines the stamp. */
  lemma FormatIsInjective(s: Stamp, t: Stamp)
    requires s.Valid() && t.Valid() && IsoFormat(s) == IsoFormat(t)
    ensures s == t
  {
    TextOrderIsTimeOrder(s, t);
    DateOrder(s, t);
  }
}
