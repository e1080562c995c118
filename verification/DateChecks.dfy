/** The two checks on parsed dates: doci/tools/check_date_order.py and doci/tools/invoice_age.py. */
module DateChecks {
  import opened Calendar
  import opened Dates
  import opened Options
  import opened Text

  // ------------------------------------------------------------- date order

  datatype Dated = Dated(name: Option<string>, date: Value)
  datatype Stamp = Stamp(name: string, date: string)
  datatype Pair = Pair(before: Stamp, after: Stamp)
  datatype Report =
    Report(ordered: bool, parsed: seq<Stamp>, unparsed: seq<string>, violations: seq<Pair>, tooFew: bool)

  predicate Proper(v: Value) { v.OnDay? ==> Valid(v.date) }

  predicate AllProper(items: seq<Dated>) { forall k | 0 <= k < |items| :: Proper(items[k].date) }

  /** A missing label is the item's place. */
  function LabelOf(items: seq<Dated>, k: nat): string
    requires k < |items|
  {
    match items[k].name case Some(s) => s case None => "#" + Show(k)
  }

  function Stamps(letters: set<char>, items: seq<Dated>, n: nat): seq<Stamp>
    requires AllProper(items) && n <= |items|
  {
    if n == 0 then []
    else
      Stamps(letters, items, n - 1)
      + match ToDate(letters, items[n - 1].date)
        case Some(iso) => [Stamp(LabelOf(items, n - 1), iso)]
        case None => []
  }

  function Unread(letters: set<char>, items: seq<Dated>, n: nat): seq<string>
    requires AllProper(items) && n <= |items|
  {
    if n == 0 then []
    else
      Unread(letters, items, n - 1)
      + if ToDate(letters, items[n - 1].date).None? then [LabelOf(items, n - 1)] else []
  }

  /** The neighbours out of order among the first `n`. */
  function Violations(parsed: seq<Stamp>, n: nat): seq<Pair>
    requires n <= |parsed|
  {
    if n < 2 then []
    else
      Violations(parsed, n - 1)
      + if Less(parsed[n - 1].date, parsed[n - 2].date) then [Pair(parsed[n - 2], parsed[n - 1])] else []
  }

  lemma NameIsLabel(items: seq<Dated>, k: nat, name: string)
    requires k < |items| && name == match items[k].name case Some(s) => s case None => "#" + Show(k)
    ensures name == LabelOf(items, k)
  {}

  /** `check_date_order` */
  method CheckDateOrder(letters: set<char>, items: seq<Dated>) returns (r: Report)
    requires AllProper(items)
    ensures r.parsed == Stamps(letters, items, |items|)
    ensures r.unparsed == Unread(letters, items, |items|)
    ensures r.violations == Violations(r.parsed, |r.parsed|)
    ensures r.ordered <==> InOrder(r.parsed)
    ensures r.tooFew <==> |r.parsed| < 2
  {
    hide ToDate, Less, LabelOf;
    var parsed: seq<Stamp>, unparsed: seq<string> := [], [];
    var i := 0;
    while i < |items|
      invariant 0 <= i <= |items|
      invariant parsed == Stamps(letters, items, i) && unparsed == Unread(letters, items, i)
    {
      var name := match items[i].name case Some(s) => s case None => "#" + Show(i);
      NameIsLabel(items, i, name);
      match ToDate(letters, items[i].date) {
        case Some(iso) => parsed := parsed + [Stamp(name, iso)];
        case None => unparsed := unparsed + [name];
      }
      i := i + 1;
    }
    var violations: seq<Pair> := [];
    var k := 1;
    while k < |parsed|
      invariant 1 <= k && (k <= |parsed| || parsed == [])
      invariant violations == Violations(parsed, if k <= |parsed| then k else |parsed|)
    {
      if Less(parsed[k].date, parsed[k - 1].date) {
        violations := violations + [Pair(parsed[k - 1], parsed[k])];
      }
      k := k + 1;
    }
    StampsAreDates(letters, items, |items|);
    NoViolationIffInOrder(parsed);
    r := Report(violations == [], parsed, unparsed, violations, |parsed| < 2);
  }

  /** No later date, near or far, comes before an earlier one. */
  predicate InOrder(parsed: seq<Stamp>) {
    forall i, j | 0 <= i < j < |parsed| :: !Less(parsed[j].date, parsed[i].date)
  }

  ghost predicate IsDate(s: string) { exists t :: Valid(t) && s == Iso(t) }

  ghost predicate AllDates(parsed: seq<Stamp>) { forall k | 0 <= k < |parsed| :: IsDate(parsed[k].date) }

  lemma {:induction false} StampsAreDates(letters: set<char>, items: seq<Dated>, n: nat)
    requires AllProper(items) && n <= |items|
    ensures AllDates(Stamps(letters, items, n))
  {
    hide Iso, ToDate;
    if n > 0 {
      StampsAreDates(letters, items, n - 1);
      var v := items[n - 1].date;
      if ToDate(letters, v).Some? {
        AnswerIsDate(letters, v);
        assert IsDate(ToDate(letters, v).value);
      }
    }
  }

  lemma ToTheDay(a: string) returns (t: Date)
    requires IsDate(a)
    ensures Valid(t) && a == Iso(t)
  {
    t :| Valid(t) && a == Iso(t);
  }

  /** Not-after is a total order on the texts of dates. */
  lemma NotLaterChains(a: string, b: string, c: string)
    requires IsDate(a) && IsDate(b) && IsDate(c) && !Less(b, a) && !Less(c, b)
    ensures !Less(c, a)
  {
    var x := ToTheDay(a);
    var y := ToTheDay(b);
    var z := ToTheDay(c);
    OrdersAgree(y, x);
    OrdersAgree(z, y);
    OrdersAgree(z, x);
    hide Less, Iso, Ordinal, Valid, Before;
  }

  /** The checker reports no violation exactly when all pairs are in order. */
  lemma {:induction false} NoViolationIffInOrder(parsed: seq<Stamp>)
    requires AllDates(parsed)
    ensures Violations(parsed, |parsed|) == [] <==> InOrder(parsed)
  {
    NoViolationTo(parsed, |parsed|);
    assert parsed[..|parsed|] == parsed;
  }

  lemma {:induction false} NoViolationTo(parsed: seq<Stamp>, n: nat)
    requires AllDates(parsed) && n <= |parsed|
    ensures Violations(parsed, n) == [] <==> InOrder(parsed[..n])
  {
    hide Less, IsDate;
    if n >= 2 {
      NoViolationTo(parsed, n - 1);
      var p, q := parsed[..n - 1], parsed[..n];
      if InOrder(p) && !Less(parsed[n - 1].date, parsed[n - 2].date) {
        forall i, j | 0 <= i < j < n ensures !Less(q[j].date, q[i].date) {
          if j < n - 1 {
            assert !Less(p[j].date, p[i].date);
          } else if i < n - 2 {
            assert !Less(p[n - 2].date, p[i].date);
            NotLaterChains(parsed[i].date, parsed[n - 2].date, parsed[n - 1].date);
          }
        }
      }
      if InOrder(q) {
        assert !Less(q[n - 1].date, q[n - 2].date);
        forall i, j | 0 <= i < j < n - 1 ensures !Less(p[j].date, p[i].date) { assert !Less(q[j].date, q[i].date); }
      }
    }
  }

  /** Each violation is a pair of neighbours out of order, and each such pair is one. */
  lemma {:induction false} ViolationsAre(parsed: seq<Stamp>, n: nat, v: Pair)
    requires n <= |parsed|
    ensures v in Violations(parsed, n)
            <==> exists k :: 1 <= k < n && v == Pair(parsed[k - 1], parsed[k]) && Less(parsed[k].date, parsed[k - 1].date)
  {
    hide Less;
    if n >= 2 { ViolationsAre(parsed, n - 1, v); }
  }

  /** The reported pairs by positions: those before the `k`-th are the ones among the first `k`
      items, and the `k`-th comes next exactly when it is earlier than its neighbour. */
  lemma {:induction false} ViolationAt(parsed: seq<Stamp>, n: nat, k: nat)
    requires 1 <= k < n <= |parsed|
    ensures var all, m := Violations(parsed, n), |Violations(parsed, k)|;
            && Violations(parsed, k) <= Violations(parsed, k + 1) <= all
            && if Less(parsed[k].date, parsed[k - 1].date)
               then |Violations(parsed, k + 1)| == m + 1 <= |all| && all[m] == Pair(parsed[k - 1], parsed[k])
               else |Violations(parsed, k + 1)| == m
  {
    hide Less;
    if k < n - 1 { ViolationAt(parsed, n - 1, k); }
  }

  /** Every item is either read or reported as unread, in its place and under its own name, or
      under its number when it has none. */
  lemma {:induction false} NothingLost(letters: set<char>, items: seq<Dated>, n: nat, k: nat)
    requires AllProper(items) && k < n <= |items|
    ensures |Stamps(letters, items, n)| + |Unread(letters, items, n)| == n
    ensures var read, unread := Stamps(letters, items, n), Unread(letters, items, n);
            var a, b := |Stamps(letters, items, k)|, |Unread(letters, items, k)|;
            var name := items[k].name;
            var shown := if name.Some? then name.value else "#" + Show(k);
            && Stamps(letters, items, k) <= Stamps(letters, items, k + 1) <= read
            && Unread(letters, items, k) <= Unread(letters, items, k + 1) <= unread
            && match ToDate(letters, items[k].date)
               case Some(iso) =>
                 a < |read| && read[a] == Stamp(shown, iso) && |Stamps(letters, items, k + 1)| == a + 1
                 && |Unread(letters, items, k + 1)| == b
               case None =>
                 b < |unread| && unread[b] == shown && |Unread(letters, items, k + 1)| == b + 1
                 && |Stamps(letters, items, k + 1)| == a
  {
    hide ToDate;
    if k < n - 1 { NothingLost(letters, items, n - 1, k); } else { CountsAdd(letters, items, n); }
  }

  lemma {:induction false} CountsAdd(letters: set<char>, items: seq<Dated>, n: nat)
    requires AllProper(items) && n <= |items|
    ensures |Stamps(letters, items, n)| + |Unread(letters, items, n)| == n
  {
    hide ToDate;
    if n > 0 { CountsAdd(letters, items, n - 1); }
  }

  // ------------------------------------------------------------ invoice age

  datatype Age =
    | BadInvoice
    | BadReference
    | Age(invoice: string, reference: string, days: int, futureDated: bool, overMax: bool)

  /** What Python takes for false: no value, or an empty text. */
  predicate Falsy(v: Value) { v.Missing? || v == Written("") }

  const MAX_DAYS := 180

  /** A text `fromisoformat` reads back to the date it prints. */
  predicate IsoText(s: string) {
    && |s| == 10 && AllDigits(s[..4]) && AllDigits(s[5..7]) && AllDigits(s[8..])
    && Valid(FromIso(s)) && s == Iso(FromIso(s))
  }

  lemma DateReads(t: Date)
    requires Valid(t)
    ensures IsoText(Iso(t)) && FromIso(Iso(t)) == t
  {
    FromIsoInverts(t);
    hide Iso, AllDigits;
  }

  lemma AnswerReads(letters: set<char>, v: Value)
    requires Proper(v)
    ensures ToDate(letters, v).Some? ==> IsoText(ToDate(letters, v).value)
  {
    hide ToDate, Iso, IsoText;
    if ToDate(letters, v).Some? {
      AnswerIsDate(letters, v);
      var t := ToTheDay(ToDate(letters, v).value);
      DateReads(t);
    }
  }

  function AgeOf(inv: string, ref: string, maxDays: int): Age
    requires IsoText(inv) && IsoText(ref)
  {
    var days := Ordinal(FromIso(ref)) - Ordinal(FromIso(inv));
    Age(inv, ref, days, days < 0, days > maxDays)
  }

  /** `invoice_age`; `today` is what the clock says. */
  function InvoiceAge(letters: set<char>, invoice: Value, reference: Value, today: Date, maxDays: int := MAX_DAYS): Age
    requires Proper(invoice) && Proper(reference) && Valid(today)
  {
    AnswerReads(letters, invoice);
    AnswerReads(letters, reference);
    DateReads(today);
    match ToDate(letters, invoice)
    case None => BadInvoice
    case Some(inv) =>
      match if Falsy(reference) then Some(Iso(today)) else ToDate(letters, reference)
      case None => BadReference
      case Some(ref) => AgeOf(inv, ref, maxDays)
  }

  lemma AgeOfCounts(inv: string, ref: string, maxDays: int, n: nat)
    requires IsoText(inv) && IsoText(ref)
    ensures var a := AgeOf(inv, ref, maxDays);
            && (a.days == n <==> DaysOn(FromIso(inv), n) == Some(FromIso(ref)))
            && (a.days + n == 0 <==> DaysOn(FromIso(ref), n) == Some(FromIso(inv)))
            && (a.futureDated <==> Before(FromIso(ref), FromIso(inv)))
            && (a.futureDated <==> Less(ref, inv))
  {
    var x, y := FromIso(inv), FromIso(ref);
    hide Iso, FromIso, Ordinal, Before, DaysOn, Less, Valid;
    DifferenceIsDays(x, y, n);
    DifferenceIsDays(y, x, n);
    OrdersAgree(y, x);
  }

  /** The age is the number of days from the invoice to its reference (today when none is
      given), counted on the calendar in either direction; an unreadable date is an error. */
  lemma AgeCountsDays(letters: set<char>, invoice: Value, reference: Value, today: Date, maxDays: int, n: nat)
    requires Proper(invoice) && Proper(reference) && Valid(today)
    ensures InvoiceAge(letters, invoice, reference, today) == InvoiceAge(letters, invoice, reference, today, 180)
    ensures var a := InvoiceAge(letters, invoice, reference, today, maxDays);
            var inv, ref := ToDate(letters, invoice), ToDate(letters, reference);
            && (a.BadInvoice? <==> inv.None?)
            && (a.BadReference? <==> inv.Some? && !Falsy(reference) && ref.None?)
            && (a.Age? ==>
                  && IsoText(a.invoice) && IsoText(a.reference) && inv == Some(a.invoice)
                  && (if Falsy(reference) then FromIso(a.reference) == today else ref == Some(a.reference))
                  && (a.days == n <==> DaysOn(FromIso(a.invoice), n) == Some(FromIso(a.reference)))
                  && (a.days + n == 0 <==> DaysOn(FromIso(a.reference), n) == Some(FromIso(a.invoice)))
                  && (a.futureDated <==> Before(FromIso(a.reference), FromIso(a.invoice)))
                  && (a.overMax <==> a.days > maxDays))
  {
    AnswerReads(letters, invoice);
    AnswerReads(letters, reference);
    DateReads(today);
    var a := InvoiceAge(letters, invoice, reference, today, maxDays);
    hide ToDate, Iso, FromIso, Ordinal, Before, DaysOn, IsoText, Valid;
    if a.Age? { AgeOfCounts(a.invoice, a.reference, maxDays, n); }
  }

  /** Listing the invoice before its reference violates the order exactly when the age check
      calls the invoice future-dated. */
  lemma ChecksAgree(letters: set<char>, invoice: Value, reference: Value, today: Date, maxDays: int,
                    a: Option<string>, b: Option<string>)
    requires Proper(invoice) && Proper(reference) && Valid(today) && !Falsy(reference)
    ensures var items := [Dated(a, invoice), Dated(b, reference)];
            var age := InvoiceAge(letters, invoice, reference, today, maxDays);
            var parsed := Stamps(letters, items, 2);
            Violations(parsed, |parsed|) != [] <==> age.Age? && age.futureDated
  {
    var items := [Dated(a, invoice), Dated(b, reference)];
    TwoStamps(letters, items);
    AnswerReads(letters, invoice);
    AnswerReads(letters, reference);
    hide ToDate, Iso, FromIso, Ordinal, Stamps, LabelOf, Less, AgeOf, IsoText, Violations;
    var i, r := ToDate(letters, invoice), ToDate(letters, reference);
    TwoViolate(Stamps(letters, items, 2));
    if i.Some? && r.Some? { AgeOfCounts(i.value, r.value, maxDays, 0); }
  }

  lemma TwoStamps(letters: set<char>, items: seq<Dated>)
    requires |items| == 2 && AllProper(items)
    ensures var i, r := ToDate(letters, items[0].date), ToDate(letters, items[1].date);
            (Stamps(letters, items, 2)
             == (if i.Some? then [Stamp(LabelOf(items, 0), i.value)] else [])
                + (if r.Some? then [Stamp(LabelOf(items, 1), r.value)] else []))
  {
    hide ToDate, LabelOf;
    assert Stamps(letters, items, 0) == [];
    assert Stamps(letters, items, 2) == Stamps(letters, items, 1)
        + match ToDate(letters, items[1].date)
          case Some(iso) => [Stamp(LabelOf(items, 1), iso)]
          case None => [];
  }

  lemma TwoViolate(parsed: seq<Stamp>)
    requires |parsed| <= 2
    ensures Violations(parsed, |parsed|) != [] <==> |parsed| == 2 && Less(parsed[1].date, parsed[0].date)
  {
    hide Less;
    if |parsed| == 2 { assert Violations(parsed, 1) == []; }
  }
}
