/** The money parser of doci/tools/parse_money.py, on exact decimals. */
module Money {
  import opened Lexing
  import opened Options
  import opened Text

  datatype Value = Missing | Number(amount: real) | Written(text: string)

  // ---------------------------------------------------------- string methods

  predicate Kept(c: char) { IsDigit(c) || c == '.' || c == ',' }

  /** `re.sub(r"[^0-9.,]", "", s)` */
  function Keep(s: string): string {
    if s == [] then [] else Keep(s[..|s| - 1]) + (if Kept(s[|s| - 1]) then [s[|s| - 1]] else [])
  }

  /** `s.replace(c, "")` */
  function Drop(s: string, c: char): string {
    if s == [] then [] else Drop(s[..|s| - 1], c) + (if s[|s| - 1] == c then [] else [s[|s| - 1]])
  }

  /** `s.replace(c, d)` for one character each */
  function Swap(s: string, c: char, d: char): string {
    if s == [] then [] else Swap(s[..|s| - 1], c, d) + [if s[|s| - 1] == c then d else s[|s| - 1]]
  }

  /** `s.split(c)` */
  function Split(s: string, c: char): (r: seq<string>)
    ensures r != []
  {
    if s == [] then [""]
    else
      var parts, x := Split(s[..|s| - 1], c), s[|s| - 1];
      if x == c then parts + [""] else parts[..|parts| - 1] + [parts[|parts| - 1] + [x]]
  }

  /** `s.rfind(c)` */
  function LastIndex(s: string, c: char): int {
    if s == [] then -1 else if s[|s| - 1] == c then |s| - 1 else LastIndex(s[..|s| - 1], c)
  }

  /** The digits after a decimal point. */
  function Fraction(digits: string): real
    requires AllDigits(digits)
  {
    Pow10Positive(|digits|);
    Read(digits) as real / Pow10(|digits|) as real
  }

  function Decimal(whole: string, fraction: string): real
    requires AllDigits(whole) && AllDigits(fraction)
  {
    Read(whole) as real + Fraction(fraction)
  }

  /** `float(s)` on a text of digits and points */
  function ToFloat(s: string): Option<real> {
    var parts := Split(s, '.');
    if |parts| == 1 && s != [] && AllDigits(s) then Some(Decimal(s, []))
    else if |parts| == 2 && |s| > 1 && AllDigits(parts[0]) && AllDigits(parts[1])
    then Some(Decimal(parts[0], parts[1]))
    else None
  }

  // -------------------------------------------------------------- the parser

  predicate Grouped(s: string, c: char) {
    var parts := Split(s, c);
    |parts| > 1 && |parts[0]| <= 3 && forall k | 1 <= k < |parts| :: |parts[k]| == 3
  }

  /** Infers which separator is which. */
  function Normalized(s: string): string {
    if ',' in s && '.' in s then
      if LastIndex(s, ',') > LastIndex(s, '.') then Swap(Drop(s, '.'), ',', '.') else Drop(s, ',')
    else if ',' in s then
      if Grouped(s, ',') then Drop(s, ',') else Swap(s, ',', '.')
    else if '.' in s && Grouped(s, '.') then Drop(s, '.')
    else s
  }

  function Unsigned(s: string): Option<real> { if s == [] then None else ToFloat(Normalized(s)) }

  function Negated(r: Option<real>): Option<real> { match r case None => None case Some(x) => Some(-x) }

  predicate Signed(raw: string) { raw != [] && (raw[0] == '-' || raw[0] == '(') }

  /** `to_money` */
  function ToMoney(v: Value): Option<real> {
    match v
    case Missing => None
    case Number(x) => Some(x)
    case Written(text) =>
      var raw := Strip(text);
      var r := Unsigned(Keep(raw));
      if Signed(raw) then Negated(r) else r
  }

  /** What is no text is taken as it stands. */
  lemma NoText(x: real)
    ensures ToMoney(Missing) == None && ToMoney(Number(x)) == Some(x)
  {}

  // ------------------------------------------------- facts on string methods

  lemma {:induction false} KeepAppend(a: string, b: string)
    ensures Keep(a + b) == Keep(a) + Keep(b)
  {
    if b == [] {
      assert a + b == a;
    } else {
      assert (a + b)[..|a + b| - 1] == a + b[..|b| - 1];
      KeepAppend(a, b[..|b| - 1]);
    }
  }

  lemma {:induction false} KeepNone(s: string)
    requires forall k | 0 <= k < |s| :: !Kept(s[k])
    ensures Keep(s) == []
  {
    if s != [] { KeepNone(s[..|s| - 1]); }
  }

  lemma {:induction false} KeepAll(s: string)
    requires forall k | 0 <= k < |s| :: Kept(s[k])
    ensures Keep(s) == s
  {
    if s != [] {
      KeepAll(s[..|s| - 1]);
      assert s == s[..|s| - 1] + [s[|s| - 1]];
    }
  }

  lemma {:induction false} DropAppend(a: string, b: string, c: char)
    ensures Drop(a + b, c) == Drop(a, c) + Drop(b, c)
  {
    if b == [] {
      assert a + b == a;
    } else {
      assert (a + b)[..|a + b| - 1] == a + b[..|b| - 1];
      DropAppend(a, b[..|b| - 1], c);
    }
  }

  lemma {:induction false} DropNone(s: string, c: char)
    requires c !in s
    ensures Drop(s, c) == s
  {
    if s != [] {
      assert s == s[..|s| - 1] + [s[|s| - 1]];
      DropNone(s[..|s| - 1], c);
    }
  }

  lemma {:induction false} SwapAppend(a: string, b: string, c: char, d: char)
    ensures Swap(a + b, c, d) == Swap(a, c, d) + Swap(b, c, d)
  {
    if b == [] {
      assert a + b == a;
    } else {
      assert (a + b)[..|a + b| - 1] == a + b[..|b| - 1];
      SwapAppend(a, b[..|b| - 1], c, d);
    }
  }

  lemma {:induction false} SwapNone(s: string, c: char, d: char)
    requires c !in s
    ensures Swap(s, c, d) == s
  {
    if s != [] {
      assert s == s[..|s| - 1] + [s[|s| - 1]];
      SwapNone(s[..|s| - 1], c, d);
    }
  }

  lemma {:induction false} SplitWhole(s: string, c: char)
    requires c !in s
    ensures Split(s, c) == [s]
  {
    if s != [] {
      assert s == s[..|s| - 1] + [s[|s| - 1]];
      SplitWhole(s[..|s| - 1], c);
    }
  }

  lemma {:induction false} SplitLast(a: string, c: char, b: string)
    requires c !in b
    ensures Split(a + [c] + b, c) == Split(a, c) + [b]
  {
    var s := a + [c] + b;
    if b == [] {
      assert s[..|s| - 1] == a;
    } else {
      var b' := b[..|b| - 1];
      assert b == b' + [b[|b| - 1]];
      assert s[..|s| - 1] == a + [c] + b';
      SplitLast(a, c, b');
    }
  }

  lemma {:induction false} LastIndexBound(s: string, c: char)
    ensures LastIndex(s, c) < |s|
  {
    if s != [] { LastIndexBound(s[..|s| - 1], c); }
  }

  lemma {:induction false} LastIndexSkips(a: string, b: string, c: char)
    requires c !in b
    ensures LastIndex(a + b, c) == LastIndex(a, c)
  {
    if b == [] {
      assert a + b == a;
    } else {
      assert b == b[..|b| - 1] + [b[|b| - 1]];
      assert (a + b)[..|a + b| - 1] == a + b[..|b| - 1];
      LastIndexSkips(a, b[..|b| - 1], c);
    }
  }

  lemma DropSelf(c: char)
    ensures Drop([c], c) == []
  {}

  lemma NoSeparator(s: string)
    requires AllDigits(s)
    ensures ',' !in s && '.' !in s
  {}

  // ------------------------------------------------------------ round trips

  predicate Separator(c: char) { c == ',' || c == '.' }

  /** `n` printed in groups of three digits. */
  function Group(n: nat, sep: char): string {
    if n < 1000 then Show(n) else Group(n / 1000, sep) + [sep] + Pad(3, n % 1000)
  }

  lemma PadThree(n: nat)
    requires n < 1000
    ensures |Pad(3, n)| == 3 && Read(Pad(3, n)) == n
  {
    PadShape(3, n);
    assert Pow10(3) == 1000;
    ShowLength(n, 3);
  }

  lemma {:induction false} GroupParts(n: nat, sep: char)
    requires Separator(sep)
    ensures var parts := Split(Group(n, sep), sep);
            && |parts[0]| <= 3 && (forall k | 1 <= k < |parts| :: |parts[k]| == 3)
            && (|parts| > 1 <==> n >= 1000)
  {
    if n < 1000 {
      assert Pow10(3) == 1000;
      ShowLength(n, 3);
      NoSeparator(Show(n));
      SplitWhole(Show(n), sep);
    } else {
      GroupParts(n / 1000, sep);
      PadThree(n % 1000);
      NoSeparator(Pad(3, n % 1000));
      SplitLast(Group(n / 1000, sep), sep, Pad(3, n % 1000));
    }
  }

  lemma GroupStep(n: nat, sep: char)
    requires Separator(sep) && n >= 1000
    ensures Group(n, sep) == Group(n / 1000, sep) + [sep] + Pad(3, n % 1000)
    ensures Drop(Group(n, sep), sep) == Drop(Group(n / 1000, sep), sep) + Pad(3, n % 1000)
  {
    hide Drop, Pad, AllDigits;
    var a, b := Group(n / 1000, sep), Pad(3, n % 1000);
    assert Group(n, sep) == a + [sep] + b;
    hide Group;
    NoSeparator(b);
    DropAppend(a + [sep], b, sep);
    DropAppend(a, [sep], sep);
    DropNone(b, sep);
    DropSelf(sep);
    assert Drop(a, sep) + [] == Drop(a, sep);
  }

  /** Without its separators, grouped text prints the number. */
  lemma {:induction false} GroupDigits(n: nat, sep: char)
    requires Separator(sep)
    ensures var d := Drop(Group(n, sep), sep); AllDigits(d) && d != [] && Read(d) == n
  {
    if n < 1000 {
      NoSeparator(Show(n));
      DropNone(Show(n), sep);
      ReadShow(n);
    } else {
      assert Pow10(3) == 1000;
      hide Drop, Group, Pad, Read, Pow10;
      GroupDigits(n / 1000, sep);
      PadThree(n % 1000);
      GroupStep(n, sep);
      ReadAppend(Drop(Group(n / 1000, sep), sep), Pad(3, n % 1000));
    }
  }

  lemma {:induction false} GroupChars(n: nat, sep: char)
    requires Separator(sep)
    ensures var g := Group(n, sep);
            && g != [] && (forall k | 0 <= k < |g| :: IsDigit(g[k]) || g[k] == sep)
            && (sep in g <==> n >= 1000)
  {
    if n < 1000 {
      NoSeparator(Show(n));
    } else {
      GroupChars(n / 1000, sep);
      GroupStep(n, sep);
      var a := Group(n / 1000, sep);
      assert Group(n, sep)[|a|] == sep;
      hide Drop, Group, IsDigit;
    }
  }

  lemma NoFraction()
    ensures Fraction([]) == 0.0
  {
    assert Pow10(0) == 1 && Read([]) == 0;
  }

  lemma FloatWhole(s: string)
    requires AllDigits(s) && s != []
    ensures ToFloat(s) == Some(Read(s) as real)
  {
    NoSeparator(s);
    SplitWhole(s, '.');
    NoFraction();
    hide Read, Fraction, Split;
  }

  lemma FloatPoint(a: string, b: string)
    requires AllDigits(a) && AllDigits(b) && a + b != []
    ensures ToFloat(a + ['.'] + b) == Some(Decimal(a, b))
  {
    NoSeparator(a);
    NoSeparator(b);
    SplitWhole(a, '.');
    SplitLast(a, '.', b);
  }

  lemma OneKind(s: string, c: char)
    requires Separator(c) && c in s && forall d :: Separator(d) && d != c ==> d !in s
    ensures Normalized(s) == if Grouped(s, c) then Drop(s, c) else Swap(s, ',', '.')
  {
    hide Grouped, Drop, Swap, LastIndex;
    assert Separator(',') && Separator('.');
    if c == '.' { SwapNone(s, ',', '.'); }
  }

  /** Thousands grouping by either separator is inverted, for every natural number. */
  lemma GroupingInverted(n: nat, sep: char)
    requires Separator(sep)
    ensures Unsigned(Group(n, sep)) == Some(n as real)
  {
    var g := Group(n, sep);
    GroupDigits(n, sep);
    GroupChars(n, sep);
    GroupParts(n, sep);
    FloatWhole(Drop(g, sep));
    hide Group, Drop, Read, Swap, ToFloat, LastIndex;
    if n < 1000 {
      DropNone(g, sep);
      NoSeparator(g);
    } else {
      hide IsDigit, Normalized;
      assert forall d | Separator(d) && d != sep :: d !in g by { assert !IsDigit(',') && !IsDigit('.') by { NotDigits(); } }
      OneKind(g, sep);
    }
  }

  lemma NotDigits()
    ensures !IsDigit(',') && !IsDigit('.')
  {}

  /** Text with both separators, the second only once and rightmost. */
  lemma PointedReads(g: string, sep: char, point: char, fraction: string)
    requires Separator(sep) && Separator(point) && sep != point && AllDigits(fraction)
    requires sep in g && point !in g && AllDigits(Drop(g, sep)) && Drop(g, sep) != []
    ensures Unsigned(g + [point] + fraction) == Some(Decimal(Drop(g, sep), fraction))
  {
    hide Drop, Swap, LastIndex, AllDigits, ToFloat, Normalized, Decimal;
    var s := g + [point] + fraction;
    NoSeparator(fraction);
    FloatPoint(Drop(g, sep), fraction);
    PointedNormal(g, sep, point, fraction);
  }

  lemma PointLast(g: string, sep: char, point: char, fraction: string)
    requires sep !in fraction && point !in fraction && sep != point && sep in g
    ensures var s := g + [point] + fraction;
            sep in s && point in s && LastIndex(s, point) > LastIndex(s, sep)
  {
    var s := g + [point] + fraction;
    LastIndexSkips(g + [point], fraction, point);
    assert LastIndex(g + [point], point) == |g|;
    hide LastIndex;
    assert s == g + ([point] + fraction);
    LastIndexSkips(g, [point] + fraction, sep);
    LastIndexBound(g, sep);
    var k :| 0 <= k < |g| && g[k] == sep;
    assert s[k] == sep && s[|g|] == point;
  }

  lemma PointedNormal(g: string, sep: char, point: char, fraction: string)
    requires Separator(sep) && Separator(point) && sep != point && AllDigits(fraction)
    requires sep in g && point !in g && AllDigits(Drop(g, sep))
    ensures Normalized(g + [point] + fraction) == Drop(g, sep) + ['.'] + fraction
  {
    var s := g + [point] + fraction;
    NoSeparator(fraction);
    PointLast(g, sep, point, fraction);
    hide Drop, Swap, LastIndex, AllDigits, Grouped;
    assert s == g + ([point] + fraction);
    DropAppend(g, [point] + fraction, sep);
    DropNone([point] + fraction, sep);
    var whole := Drop(g, sep);
    assert Drop(s, sep) == whole + [point] + fraction by { assert whole + ([point] + fraction) == whole + [point] + fraction; }
    SwapPoint(whole, point, fraction);
  }

  /** `s.replace(",", ".")` on digits, one separator, digits. */
  lemma SwapPoint(whole: string, point: char, fraction: string)
    requires AllDigits(whole) && AllDigits(fraction) && Separator(point)
    ensures Swap(whole + [point] + fraction, ',', '.') == whole + ['.'] + fraction
  {
    hide AllDigits;
    NoSeparator(whole);
    NoSeparator(fraction);
    SwapAppend(whole + [point], fraction, ',', '.');
    SwapAppend(whole, [point], ',', '.');
    SwapNone(whole, ',', '.');
    SwapNone(fraction, ',', '.');
    assert Swap([point], ',', '.') == ['.'];
    hide Swap, AllDigits;
  }

  lemma DropPoint(whole: string, point: char, fraction: string)
    requires AllDigits(whole) && AllDigits(fraction) && Separator(point)
    ensures Drop(whole + [point] + fraction, point) == whole + fraction
  {
    hide Drop, AllDigits;
    NoSeparator(whole);
    NoSeparator(fraction);
    DropAppend(whole + [point], fraction, point);
    DropAppend(whole, [point], point);
    DropNone(whole, point);
    DropNone(fraction, point);
    DropSelf(point);
    assert whole + [] == whole;
  }

  /** Grouped text with a fraction of any length after the other separator is inverted. */
  lemma GroupedFractionInverted(n: nat, sep: char, point: char, fraction: string)
    requires n >= 1000 && Separator(sep) && Separator(point) && sep != point && AllDigits(fraction)
    ensures Unsigned(Group(n, sep) + [point] + fraction) == Some(n as real + Fraction(fraction))
  {
    hide Group, Drop, Read, Fraction, Unsigned, AllDigits, Separator;
    GroupDigits(n, sep);
    GroupLacks(n, sep, point);
    PointedReads(Group(n, sep), sep, point, fraction);
  }

  lemma GroupLacks(n: nat, sep: char, point: char)
    requires n >= 1000 && Separator(sep) && Separator(point) && sep != point
    ensures sep in Group(n, sep) && point !in Group(n, sep)
  {
    GroupChars(n, sep);
    hide Group;
  }

  lemma PointParts(whole: string, point: char, fraction: string)
    requires AllDigits(whole) && AllDigits(fraction) && Separator(point)
    ensures var s := whole + [point] + fraction;
            && point in s && (forall d :: Separator(d) && d != point ==> d !in s)
            && (Grouped(s, point) <==> |whole| <= 3 && |fraction| == 3)
  {
    hide Split;
    NoSeparator(whole);
    NoSeparator(fraction);
    assert (whole + [point] + fraction)[|whole|] == point;
    SplitWhole(whole, point);
    SplitLast(whole, point, fraction);
    var parts := Split(whole + [point] + fraction, point);
    assert parts == [whole, fraction] && parts[1] == fraction;
  }

  /** Digits, one separator, digits: read as thousands exactly when at most three come before
      and exactly three after, else as a decimal. */
  lemma UngroupedReads(whole: string, point: char, fraction: string)
    requires AllDigits(whole) && AllDigits(fraction) && whole + fraction != [] && Separator(point)
    ensures AllDigits(whole + fraction)
    ensures Unsigned(whole + [point] + fraction)
         == Some(if |whole| <= 3 && |fraction| == 3 then Read(whole + fraction) as real
                 else Decimal(whole, fraction))
  {
    assert AllDigits(whole + fraction);
    hide Drop, Swap, ToFloat, AllDigits, Read, Decimal, Grouped, Normalized;
    var s := whole + [point] + fraction;
    FloatPoint(whole, fraction);
    FloatWhole(whole + fraction);
    DropPoint(whole, point, fraction);
    SwapPoint(whole, point, fraction);
    PointParts(whole, point, fraction);
    OneKind(s, point);
  }

  lemma GroupOfThree(whole: string, fraction: string)
    requires AllDigits(whole) && AllDigits(fraction) && |fraction| == 3
    ensures AllDigits(whole + fraction) && Read(whole + fraction) == Read(whole) * 1000 + Read(fraction)
    ensures Fraction(fraction) == Read(fraction) as real / 1000.0
  {
    ReadAppend(whole, fraction);
    assert Pow10(3) == 1000;
    hide Read, AllDigits;
  }

  /** The decimal value comes back exactly when the text does not look like one group of
      thousands, or says zero. */
  lemma UngroupedExactIff(whole: string, point: char, fraction: string)
    requires AllDigits(whole) && AllDigits(fraction) && whole + fraction != [] && Separator(point)
    ensures Unsigned(whole + [point] + fraction) == Some(Decimal(whole, fraction))
            <==> !(|whole| <= 3 && |fraction| == 3) || (Read(whole) == 0 && Read(fraction) == 0)
  {
    hide Unsigned, Read, AllDigits, Fraction, Separator;
    UngroupedReads(whole, point, fraction);
    if |whole| <= 3 && |fraction| == 3 { GroupOfThree(whole, fraction); }
  }

  lemma Reading(text: string)
    ensures ToMoney(Written(text))
         == if Signed(Strip(text)) then Negated(Unsigned(Keep(text))) else Unsigned(Keep(text))
  {
    KeepStrip(text);
    hide Keep, Strip, Unsigned;
  }

  /** A leading minus or parenthesis negates a text that has none of its own. */
  lemma SignNegates(sign: char, text: string)
    requires sign == '-' || sign == '('
    ensures ToMoney(Written([sign] + text))
         == if Signed(Strip(text)) then ToMoney(Written(text)) else Negated(ToMoney(Written(text)))
  {
    Reading(text);
    Reading([sign] + text);
    KeepAppend([sign], text);
    KeepNone([sign]);
    SignFirst(sign, text);
    assert [] + Keep(text) == Keep(text);
    hide Strip, Keep, Unsigned, ToMoney, Signed;
  }

  lemma SignFirst(sign: char, text: string)
    requires sign == '-' || sign == '('
    ensures Signed(Strip([sign] + text))
  {
    assert ([sign] + text)[0] == sign && !IsSpace(sign);
    StripFirst([sign] + text);
    hide Strip, IsSpace;
  }

  lemma {:induction false} SpacesDropped(s: string)
    requires AllSpace(s)
    ensures Keep(s) == []
  {
    hide Strip;
    if s != [] { SpacesDropped(s[..|s| - 1]); }
  }

  lemma KeepStrip(s: string)
    ensures Keep(Strip(s)) == Keep(s)
  {
    StripIs(s);
    KeepAppend(Before(s) + Strip(s), After(s));
    KeepAppend(Before(s), Strip(s));
    SpacesDropped(Before(s));
    SpacesDropped(After(s));
  }

  /** Trailing text without digits or separators changes nothing. */
  lemma TrailingIgnored(text: string, unit: string)
    requires forall k | 0 <= k < |unit| :: !Kept(unit[k])
    ensures ToMoney(Written(text + unit)) == ToMoney(Written(text))
  {
    Reading(text);
    Reading(text + unit);
    KeepAppend(text, unit);
    KeepNone(unit);
    assert Keep(text) + [] == Keep(text);
    if AllSpace(text) { SpacesDropped(text); } else { TrailingSign(text, unit); }
    hide Strip, Keep, Signed, AllSpace, Normalized, ToFloat;
  }

  lemma TrailingSign(text: string, unit: string)
    requires !AllSpace(text)
    ensures Signed(Strip(text + unit)) == Signed(Strip(text))
  {
    StripFirst(text);
    StripFirst(text + unit);
    StripLeftAppend(text, unit);
    assert AllSpace(text + unit) ==> AllSpace(text) by {
      assert forall k | 0 <= k < |text| :: (text + unit)[k] == text[k];
    }
    hide Strip, AllSpace, IsSpace;
  }

  lemma BareReads(body: string)
    requires body != [] && forall k | 0 <= k < |body| :: Kept(body[k])
    ensures !Signed(Strip(body)) && ToMoney(Written(body)) == Unsigned(body)
  {
    assert Kept(body[0]) && Kept(body[|body| - 1]);
    KeepAll(body);
    StripClean(body);
    hide Strip, Keep, Unsigned;
  }

  /** An amount as facts write it: an optional sign, digits and separators, a unit. */
  lemma AmountReads(sign: string, body: string, unit: string)
    requires sign == "" || sign == "-" || sign == "("
    requires body != [] && forall k | 0 <= k < |body| :: Kept(body[k])
    requires forall k | 0 <= k < |unit| :: !Kept(unit[k])
    ensures ToMoney(Written(sign + body + unit))
         == if sign == "" then Unsigned(body) else Negated(Unsigned(body))
  {
    hide Strip, Keep, IsSpace, ToMoney, Unsigned;
    TrailingIgnored(sign + body, unit);
    BareReads(body);
    if sign != "" {
      SignNegates(sign[0], body);
      assert [sign[0]] == sign;
    } else {
      assert sign + body == body;
    }
  }

  lemma GroupKept(n: nat, sep: char)
    requires Separator(sep)
    ensures Group(n, sep) != [] && forall k | 0 <= k < |Group(n, sep)| :: Kept(Group(n, sep)[k])
  {
    GroupChars(n, sep);
    hide Group;
  }

  /** Grouped whole amounts with a sign and a unit. */
  lemma GroupedAmountReads(sign: string, n: nat, sep: char, unit: string)
    requires sign == "" || sign == "-" || sign == "("
    requires Separator(sep) && forall k | 0 <= k < |unit| :: !Kept(unit[k])
    ensures ToMoney(Written(sign + Group(n, sep) + unit)) == Some(if sign == "" then n as real else -(n as real))
  {
    hide ToMoney, Unsigned, Group, Kept, Separator;
    GroupKept(n, sep);
    GroupingInverted(n, sep);
    AmountReads(sign, Group(n, sep), unit);
  }

  // -------------------------------------------------------------- rejection

  function Count(s: string, c: char): nat {
    if s == [] then 0 else Count(s[..|s| - 1], c) + if s[|s| - 1] == c then 1 else 0
  }

  predicate HasDigit(s: string) { exists k | 0 <= k < |s| :: IsDigit(s[k]) }

  predicate AllKept(s: string) { forall k | 0 <= k < |s| :: Kept(s[k]) }

  predicate Pointed(s: string) { forall k | 0 <= k < |s| :: IsDigit(s[k]) || s[k] == '.' }

  lemma {:induction false} CountIn(s: string, c: char)
    ensures Count(s, c) > 0 <==> c in s
  {
    if s != [] {
      CountIn(s[..|s| - 1], c);
      assert s == s[..|s| - 1] + [s[|s| - 1]];
    }
  }

  lemma {:induction false} SplitCounts(s: string, c: char)
    ensures |Split(s, c)| == Count(s, c) + 1
  {
    if s != [] { SplitCounts(s[..|s| - 1], c); }
  }

  /** Between the points there are only digits. */
  lemma {:induction false} SplitDigits(s: string)
    requires Pointed(s)
    ensures forall k | 0 <= k < |Split(s, '.')| :: AllDigits(Split(s, '.')[k])
  {
    if s != [] { SplitDigits(s[..|s| - 1]); }
  }

  lemma HasDigitSnoc(s: string)
    requires s != []
    ensures HasDigit(s) <==> HasDigit(s[..|s| - 1]) || IsDigit(s[|s| - 1])
  {
    hide IsDigit;
    var t := s[..|s| - 1];
    if HasDigit(t) {
      var k :| 0 <= k < |t| && IsDigit(t[k]);
      assert s[k] == t[k];
    }
    if HasDigit(s) {
      var k :| 0 <= k < |s| && IsDigit(s[k]);
      if k < |t| { assert t[k] == s[k]; }
    }
  }

  /** With at most one point, and not the point alone, there is a digit. */
  lemma {:induction false} DigitOrPoint(s: string)
    requires Pointed(s)
    ensures HasDigit(s) <==> Count(s, '.') < |s|
    ensures Count(s, '.') <= |s|
  {
    if s != [] {
      HasDigitSnoc(s);
      DigitOrPoint(s[..|s| - 1]);
    }
  }

  lemma FloatFailsIff(s: string)
    requires Pointed(s)
    ensures ToFloat(s).None? <==> !HasDigit(s) || Count(s, '.') > 1
  {
    SplitCounts(s, '.');
    SplitDigits(s);
    DigitOrPoint(s);
    CountIn(s, '.');
    hide Split, Count, HasDigit, Decimal;
    if Count(s, '.') == 0 { assert AllDigits(s); }
  }

  lemma {:induction false} DropCounts(s: string, c: char, d: char)
    requires AllKept(s) && Separator(c)
    ensures c !in Drop(s, c) && AllKept(Drop(s, c)) && (HasDigit(Drop(s, c)) <==> HasDigit(s))
    ensures c != d ==> Count(Drop(s, c), d) == Count(s, d) && (d in Drop(s, c) <==> d in s)
  {
    if s != [] {
      var t, x := s[..|s| - 1], s[|s| - 1];
      DropCounts(t, c, d);
      HasDigitSnoc(s);
      assert s == t + [x] && Kept(x) && !IsDigit(c);
      assert Drop(s, c) == if x == c then Drop(t, c) else Drop(t, c) + [x];
      if x != c {
        var r := Drop(t, c) + [x];
        assert r[..|r| - 1] == Drop(t, c);
        HasDigitSnoc(r);
      }
      hide HasDigit;
    }
  }

  lemma {:induction false} SwapCounts(s: string)
    requires AllKept(s)
    ensures Pointed(Swap(s, ',', '.')) && (HasDigit(Swap(s, ',', '.')) <==> HasDigit(s))
    ensures Count(Swap(s, ',', '.'), '.') == Count(s, ',') + Count(s, '.')
  {
    if s != [] {
      var t, x := s[..|s| - 1], s[|s| - 1];
      SwapCounts(t);
      HasDigitSnoc(s);
      var r := Swap(t, ',', '.') + [if x == ',' then '.' else x];
      assert r[..|r| - 1] == Swap(t, ',', '.') && Kept(x) && !IsDigit(',') && !IsDigit('.');
      HasDigitSnoc(r);
      hide HasDigit;
    }
  }

  /** Which separator `to_money` takes for the decimal one, when both are there. */
  function Rightmost(s: string): char { if LastIndex(s, ',') > LastIndex(s, '.') then ',' else '.' }

  /** An amount is rejected exactly when it has no digit, or repeats the rightmost of two kinds
      of separator, or repeats its only kind without being grouped by it. */
  lemma RejectedIff(s: string)
    requires AllKept(s)
    ensures Unsigned(s).None?
        <==> || !HasDigit(s)
             || (',' in s && '.' in s && Count(s, Rightmost(s)) > 1)
             || ('.' !in s && Count(s, ',') > 1 && !Grouped(s, ','))
             || (',' !in s && Count(s, '.') > 1 && !Grouped(s, '.'))
  {
    NormalCounts(s);
    CountIn(s, ',');
    CountIn(s, '.');
    hide Normalized, HasDigit, Count, ToFloat, Grouped, AllKept;
    if s == [] { NothingThere(); } else { FloatFailsIff(Normalized(s)); }
  }

  lemma NothingThere()
    ensures !HasDigit([])
  {}

  /** What resolving the separators keeps. */
  lemma NormalCounts(s: string)
    requires AllKept(s)
    ensures var n := Normalized(s);
            && Pointed(n) && (HasDigit(n) <==> HasDigit(s))
            && Count(n, '.') == if ',' in s && '.' in s then Count(s, Rightmost(s))
                                else if ',' in s then (if Grouped(s, ',') then 0 else Count(s, ','))
                                else if '.' in s && Grouped(s, '.') then 0
                                else Count(s, '.')
  {
    hide HasDigit, Count, Drop, Swap, LastIndex, Grouped, AllKept, Pointed;
    DropCounts(s, '.', ',');
    DropCounts(s, ',', '.');
    SwapCounts(s);
    SwapCounts(Drop(s, '.'));
    CountIn(s, ',');
    CountIn(s, '.');
    CountIn(Drop(s, '.'), '.');
    CountIn(Drop(s, ','), '.');
    KeptPointed(s);
    KeptPointed(Drop(s, ','));
    KeptPointed(Drop(s, '.'));
  }

  lemma KeptPointed(s: string)
    requires AllKept(s)
    ensures ',' !in s ==> Pointed(s)
  {}
}
