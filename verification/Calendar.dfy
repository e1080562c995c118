/** Calendar dates as Python's `datetime.date` has them: the proleptic Gregorian calendar of
    the years 1 to 9999, its ISO text (ISO 8601-1:2019, section 5.2.2) and its day count. */
module Calendar {
  import opened Options
  import opened Text

  datatype Date = Date(y: int, m: int, d: int)

  predicate Leap(y: int) { y % 4 == 0 && (y % 100 != 0 || y % 400 == 0) }

  function DaysIn(y: int, m: int): int {
    if m == 2 then (if Leap(y) then 29 else 28)
    else if m == 4 || m == 6 || m == 9 || m == 11 then 30
    else 31
  }

  predicate Valid(t: Date) { 1 <= t.y <= 9999 && 1 <= t.m <= 12 && 1 <= t.d <= DaysIn(t.y, t.m) }

  /** `date.isoformat()` */
  function Iso(t: Date): string
    requires Valid(t)
  {
    Pad(4, t.y) + "-" + Pad(2, t.m) + "-" + Pad(2, t.d)
  }

  /** `_mk` */
  function Mk(y: int, m: int, d: int): Option<string> {
    if Valid(Date(y, m, d)) then Some(Iso(Date(y, m, d))) else None
  }

  /** `date.fromisoformat(s)` on a text `isoformat` made */
  function FromIso(s: string): Date
    requires |s| == 10 && AllDigits(s[..4]) && AllDigits(s[5..7]) && AllDigits(s[8..])
  {
    Date(Read(s[..4]), Read(s[5..7]), Read(s[8..]))
  }

  predicate Before(a: Date, b: Date) { a.y < b.y || (a.y == b.y && (a.m < b.m || (a.m == b.m && a.d < b.d))) }

  function Next(t: Date): Date {
    if t.d < DaysIn(t.y, t.m) then Date(t.y, t.m, t.d + 1)
    else if t.m < 12 then Date(t.y, t.m + 1, 1)
    else Date(t.y + 1, 1, 1)
  }

  /** Long and short months alternate from January to July and from August to December. */
  lemma MonthLengths(y: int, m: int)
    requires 1 <= m <= 12
    ensures m <= 7 && m != 2 ==> DaysIn(y, m) == 30 + m % 2
    ensures m >= 8 ==> DaysIn(y, m) == 31 - m % 2
    ensures DaysIn(y, 2) == 28 + if y % 400 == 0 || (y % 4 == 0 && y % 100 != 0) then 1 else 0
  {}

  // -------------------------------------------------------------- day count

  function DaysBeforeYear(y: int): int
    requires y >= 1
  {
    365 * (y - 1) + (y - 1) / 4 - (y - 1) / 100 + (y - 1) / 400
  }

  function DaysBeforeMonth(y: int, m: int): int
    requires 1 <= m <= 12
    decreases m
  {
    if m == 1 then 0 else DaysBeforeMonth(y, m - 1) + DaysIn(y, m - 1)
  }

  /** `date.toordinal()` */
  function Ordinal(t: Date): int
    requires Valid(t)
  {
    DaysBeforeYear(t.y) + DaysBeforeMonth(t.y, t.m) + t.d
  }

  lemma YearLength(y: int)
    requires y >= 1
    ensures DaysBeforeYear(y + 1) == DaysBeforeYear(y) + if Leap(y) then 366 else 365
  {
    DivStep(y, 4);
    DivStep(y, 100);
    DivStep(y, 400);
    LeapParts(y);
  }

  /** The leap rule as the three counts see it. */
  lemma LeapParts(y: int)
    ensures (if Leap(y) then 1 else 0)
         == (if y % 4 == 0 then 1 else 0) - (if y % 100 == 0 then 1 else 0) + (if y % 400 == 0 then 1 else 0)
  {
    if y % 100 == 0 { Multiple(25 * (y / 100), 4); }
    if y % 400 == 0 { Multiple(4 * (y / 400), 100); }
  }

  lemma Multiple(q: int, k: int)
    requires k > 0
    ensures (q * k) % k == 0
  {
    var n := q * k;
    assert n == (n / k) * k + n % k;
    assert (q - n / k) * k == n % k;
    if q - n / k > 0 { Product(q - n / k, k); }
    assert (n / k - q) * k == -(n % k);
    if n / k - q > 0 { Product(n / k - q, k); }
  }

  lemma DivStep(y: int, k: int)
    requires y >= 1 && k > 0
    ensures y / k == (y - 1) / k + if y % k == 0 then 1 else 0
  {
    var q, r := y / k, y % k;
    assert y == q * k + r;
    if r == 0 {
      assert y - 1 == (q - 1) * k + (k - 1);
      DivIs(y - 1, k, q - 1, k - 1);
    } else {
      DivIs(y - 1, k, q, r - 1);
    }
  }

  lemma DivIs(n: int, k: int, q: int, r: int)
    requires k > 0 && n == q * k + r && 0 <= r < k
    ensures n / k == q
  {
    var p := n / k;
    assert n == p * k + n % k;
    assert (p - q) * k == r - n % k;
    assert (q - p) * k == -((p - q) * k);
    if p > q { Product(p - q, k); }
    if q > p { Product(q - p, k); }
  }

  lemma Product(a: int, k: int)
    requires a >= 1 && k >= 1
    ensures a * k >= k
  {
    assert a * k == (a - 1) * k + k;
  }

  lemma YearDays(y: int)
    ensures DaysBeforeMonth(y, 12) + DaysIn(y, 12) == if Leap(y) then 366 else 365
  {
    assert DaysBeforeMonth(y, 2) == 31;
    assert DaysBeforeMonth(y, 4) == 31 + DaysIn(y, 2) + 31;
    assert DaysBeforeMonth(y, 6) == DaysBeforeMonth(y, 4) + 61;
    assert DaysBeforeMonth(y, 8) == DaysBeforeMonth(y, 6) + 61;
    assert DaysBeforeMonth(y, 10) == DaysBeforeMonth(y, 8) + 61;
    assert DaysBeforeMonth(y, 12) == DaysBeforeMonth(y, 10) + 61;
  }

  /** The day count counts days: the next date has the next number. */
  lemma OrdinalCounts(t: Date)
    requires Valid(t) && Valid(Next(t))
    ensures Ordinal(Next(t)) == Ordinal(t) + 1
    ensures Before(t, Next(t))
  {
    hide DaysBeforeYear;
    if t.d < DaysIn(t.y, t.m) {
    } else if t.m < 12 {
    } else {
      YearDays(t.y);
      YearLength(t.y);
      hide Leap;
      assert DaysBeforeMonth(t.y + 1, 1) == 0;
    }
  }

  lemma {:induction false} MonthsMonotone(y: int, a: int, b: int)
    requires 1 <= a < b <= 12
    ensures DaysBeforeMonth(y, a) + DaysIn(y, a) <= DaysBeforeMonth(y, b)
    decreases b
  {
    if a < b - 1 { MonthsMonotone(y, a, b - 1); }
  }

  lemma {:induction false} YearsMonotone(a: int, b: int)
    requires 1 <= a < b
    ensures DaysBeforeYear(a) + (if Leap(a) then 366 else 365) <= DaysBeforeYear(b)
    decreases b
  {
    YearLength(a);
    if a < b - 1 {
      YearsMonotone(a, b - 1);
      YearLength(b - 1);
    }
    hide DaysBeforeYear, Leap;
  }

  lemma DayOfYear(t: Date)
    requires Valid(t)
    ensures 1 <= DaysBeforeMonth(t.y, t.m) + t.d <= if Leap(t.y) then 366 else 365
  {
    YearDays(t.y);
    if t.m < 12 { MonthsMonotone(t.y, t.m, 12); }
    MonthPositive(t.y, t.m);
    hide Leap;
  }

  lemma {:induction false} MonthPositive(y: int, m: int)
    requires 1 <= m <= 12
    ensures DaysBeforeMonth(y, m) >= 0
    decreases m
  {
    if m > 1 { MonthPositive(y, m - 1); }
  }

  lemma BeforeCounts(a: Date, b: Date)
    requires Valid(a) && Valid(b) && Before(a, b)
    ensures Ordinal(a) < Ordinal(b)
  {
    hide DaysBeforeYear, DaysBeforeMonth, Leap, DaysIn;
    if a.y < b.y {
      YearsMonotone(a.y, b.y);
      DayOfYear(a);
      DayOfYear(b);
    } else if a.m < b.m {
      MonthsMonotone(a.y, a.m, b.m);
    }
  }

  lemma BeforeTotal(a: Date, b: Date)
    ensures Before(a, b) || a == b || Before(b, a)
  {}

  // --------------------------------------------------------------- ISO text

  lemma IsoShape(t: Date)
    requires Valid(t)
    ensures |Pad(4, t.y)| == 4 && |Pad(2, t.m)| == 2 && |Pad(2, t.d)| == 2
    ensures Read(Pad(4, t.y)) == t.y && Read(Pad(2, t.m)) == t.m && Read(Pad(2, t.d)) == t.d
  {
    assert Pow10(2) == 100 && Pow10(4) == 10000;
    assert DaysIn(t.y, t.m) < 100;
    ShowLength(t.y, 4);
    ShowLength(t.m, 2);
    ShowLength(t.d, 2);
    PadShape(4, t.y);
    PadShape(2, t.m);
    PadShape(2, t.d);
  }

  /** The ISO text of a date reads back as the date. */
  lemma FromIsoInverts(t: Date)
    requires Valid(t)
    ensures var s := Iso(t);
            |s| == 10 && AllDigits(s[..4]) && AllDigits(s[5..7]) && AllDigits(s[8..]) && FromIso(s) == t
  {
    IsoShape(t);
    hide Pad, Read, AllDigits;
    var s := Iso(t);
    assert s[..4] == Pad(4, t.y) && s[5..7] == Pad(2, t.m) && s[8..] == Pad(2, t.d);
  }

  lemma TextOrder(a: Date, b: Date)
    requires Valid(a) && Valid(b)
    ensures Less(Iso(a), Iso(b)) <==> Before(a, b)
  {
    IsoShape(a);
    IsoShape(b);
    var ma, mb := Pad(2, a.m) + ("-" + Pad(2, a.d)), Pad(2, b.m) + ("-" + Pad(2, b.d));
    assert Iso(a) == Pad(4, a.y) + ("-" + ma) && Iso(b) == Pad(4, b.y) + ("-" + mb);
    LessAppend(Pad(4, a.y), Pad(4, b.y), "-" + ma, "-" + mb);
    LessAppend("-", "-", ma, mb);
    LessAppend(Pad(2, a.m), Pad(2, b.m), "-" + Pad(2, a.d), "-" + Pad(2, b.d));
    LessAppend("-", "-", Pad(2, a.d), Pad(2, b.d));
    LessIrreflexive("-");
    NumeralOrder(Pad(4, a.y), Pad(4, b.y));
    NumeralOrder(Pad(2, a.m), Pad(2, b.m));
    NumeralOrder(Pad(2, a.d), Pad(2, b.d));
    hide Pad, Read, Less, AllDigits, Iso;
    if a.y == b.y { assert Pad(4, a.y) == Pad(4, b.y); }
    if a.m == b.m { assert Pad(2, a.m) == Pad(2, b.m); }
  }

  /** ISO string order, calendar order and day-count order are one order. */
  lemma OrdersAgree(a: Date, b: Date)
    requires Valid(a) && Valid(b)
    ensures Less(Iso(a), Iso(b)) <==> Before(a, b)
    ensures Before(a, b) <==> Ordinal(a) < Ordinal(b)
    ensures Iso(a) == Iso(b) <==> a == b
    ensures Ordinal(a) == Ordinal(b) <==> a == b
  {
    TextOrder(a, b);
    FromIsoInverts(a);
    FromIsoInverts(b);
    hide Less, Iso, Ordinal, FromIso, AllDigits;
    BeforeTotal(a, b);
    if Before(a, b) { BeforeCounts(a, b); }
    if Before(b, a) { BeforeCounts(b, a); }
    hide Before;
  }

  /** The date `n` days on, while the calendar lasts. */
  function DaysOn(t: Date, n: nat): Option<Date> {
    if n == 0 then Some(t)
    else
      match DaysOn(t, n - 1)
      case None => None
      case Some(u) => if Valid(Next(u)) then Some(Next(u)) else None
  }

  lemma {:induction false} DaysOnCounts(t: Date, n: nat)
    requires Valid(t) && DaysOn(t, n).Some?
    ensures Valid(DaysOn(t, n).value) && Ordinal(DaysOn(t, n).value) == Ordinal(t) + n
  {
    if n > 0 {
      DaysOnCounts(t, n - 1);
      OrdinalCounts(DaysOn(t, n - 1).value);
    }
    hide Ordinal, Valid, Next;
  }

  lemma {:induction false} DaysOnReaches(a: Date, b: Date, n: nat)
    requires Valid(a) && Valid(b) && Ordinal(b) == Ordinal(a) + n
    ensures DaysOn(a, n) == Some(b)
    decreases n
  {
    hide Ordinal, DaysIn;
    if n == 0 {
      OrdersAgree(a, b);
    } else {
      Previous(b, a);
      var c := Prior(b);
      OrdinalCounts(c);
      DaysOnReaches(a, c, n - 1);
    }
  }

  function Prior(t: Date): Date {
    if t.d > 1 then Date(t.y, t.m, t.d - 1)
    else if t.m > 1 then Date(t.y, t.m - 1, DaysIn(t.y, t.m - 1))
    else Date(t.y - 1, 12, 31)
  }

  lemma Previous(t: Date, earlier: Date)
    requires Valid(t) && Valid(earlier) && Ordinal(earlier) < Ordinal(t)
    ensures Valid(Prior(t)) && Next(Prior(t)) == t
  {
    OrdersAgree(earlier, t);
    hide Ordinal, Iso, Less, Leap;
  }

  /** The difference of two day counts is the number of days from one date to the other. */
  lemma DifferenceIsDays(a: Date, b: Date, n: nat)
    requires Valid(a) && Valid(b)
    ensures Ordinal(b) - Ordinal(a) == n <==> DaysOn(a, n) == Some(b)
  {
    hide Ordinal, DaysOn, Valid;
    if Ordinal(b) - Ordinal(a) == n { DaysOnReaches(a, b, n); }
    if DaysOn(a, n) == Some(b) { DaysOnCounts(a, n); }
  }
}
