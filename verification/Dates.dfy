/** The date parser of doci/tools/parse_date.py: three searches, the first that matches decides. */
module Dates {
  import opened Calendar
  import opened Lexing
  import opened Options
  import opened Patterns
  import opened Text

  datatype Value = Missing | OnDay(date: Date) | Written(text: string)

  const THANG: string := "th\U{00E1}ng"
  const NAM: string := "n\U{0103}m"
  const SEPARATORS: set<char> := {'/', '-', '.'}

  // The patterns, from the back so that each step of a match names what is left of them.
  const VN_YEAR: seq<Item> := [Digits(4, 4)]
  const VN_NAM: seq<Item> := [Literal(NAM)] + ([Spaces] + VN_YEAR)
  const VN_MONTH: seq<Item> := [Digits(1, 2)] + ([Spaces] + VN_NAM)
  const VN_THANG: seq<Item> := [Literal(THANG)] + ([Spaces] + VN_MONTH)
  const VN: seq<Item> := [Digits(1, 2)] + ([Spaces] + VN_THANG)

  const ISO_DAY: seq<Item> := [Digits(1, 2)] + [Boundary]
  const ISO_MONTH: seq<Item> := [Digits(1, 2)] + ([OneOf(SEPARATORS)] + ISO_DAY)
  const ISO: seq<Item> := [Boundary] + ([Digits(4, 4)] + ([OneOf(SEPARATORS)] + ISO_MONTH))

  const DMY_YEAR: seq<Item> := [Digits(4, 4)] + [Boundary]
  const DMY_MONTH: seq<Item> := [Digits(1, 2)] + ([OneOf(SEPARATORS)] + DMY_YEAR)
  const DMY: seq<Item> := [Boundary] + ([Digits(1, 2)] + ([OneOf(SEPARATORS)] + DMY_MONTH))

  lemma ThreeGroups()
    ensures Arity(VN) == 3 && Arity(ISO) == 3 && Arity(DMY) == 3
  {
    assert Arity(VN_YEAR) == 1;
    ArityAdds(Spaces, VN_YEAR);
    ArityAdds(Literal(NAM), [Spaces] + VN_YEAR);
    ArityAdds(Spaces, VN_NAM);
    ArityAdds(Digits(1, 2), [Spaces] + VN_NAM);
    ArityAdds(Spaces, VN_MONTH);
    ArityAdds(Literal(THANG), [Spaces] + VN_MONTH);
    ArityAdds(Spaces, VN_THANG);
    ArityAdds(Digits(1, 2), [Spaces] + VN_THANG);
    assert Arity([Boundary]) == 0;
    ArityAdds(Digits(1, 2), [Boundary]);
    ArityAdds(OneOf(SEPARATORS), ISO_DAY);
    ArityAdds(Digits(1, 2), [OneOf(SEPARATORS)] + ISO_DAY);
    ArityAdds(OneOf(SEPARATORS), ISO_MONTH);
    ArityAdds(Digits(4, 4), [OneOf(SEPARATORS)] + ISO_MONTH);
    ArityAdds(Boundary, [Digits(4, 4)] + ([OneOf(SEPARATORS)] + ISO_MONTH));
    ArityAdds(Digits(4, 4), [Boundary]);
    ArityAdds(OneOf(SEPARATORS), DMY_YEAR);
    ArityAdds(Digits(1, 2), [OneOf(SEPARATORS)] + DMY_YEAR);
    ArityAdds(OneOf(SEPARATORS), DMY_MONTH);
    ArityAdds(Digits(1, 2), [OneOf(SEPARATORS)] + DMY_MONTH);
    ArityAdds(Boundary, [Digits(1, 2)] + ([OneOf(SEPARATORS)] + DMY_MONTH));
  }

  lemma ArityAdds(item: Item, p: seq<Item>)
    ensures Arity([item] + p) == (if item.Digits? then 1 else 0) + Arity(p)
  {
    assert ([item] + p)[1..] == p;
  }

  /** `lower` on the letters of ASCII, of Latin-1, and on the letter of the year's word; the
      others are left as they are, none of them being in a pattern. */
  function LowerChar(c: char): char {
    if 'A' <= c <= 'Z' || ('\U{00C0}' <= c <= '\U{00DE}' && c != '\U{00D7}') then (c as int + 32) as char
    else if c == '\U{0102}' then '\U{0103}'
    else c
  }

  function Lower(s: string): (r: string)
    ensures |r| == |s| && forall k | 0 <= k < |s| :: r[k] == LowerChar(s[k])
  {
    seq(|s|, k requires 0 <= k < |s| => LowerChar(s[k]))
  }

  /** `to_date`, given the word characters beyond ASCII */
  function ToDate(letters: set<char>, v: Value): Option<string>
    requires v.OnDay? ==> Valid(v.date)
  {
    match v
    case Missing => None
    case OnDay(t) => Some(Iso(t))
    case Written(text) => Parsed(letters, Lower(Strip(text)))
  }

  function Parsed(letters: set<char>, s: string): Option<string> {
    ThreeGroups();
    var vn, iso, dmy := Search(letters, None, s, VN), Search(letters, None, s, ISO), Search(letters, None, s, DMY);
    if s == [] then None
    else if vn.Some? then MkRead(vn.value[2], vn.value[1], vn.value[0])
    else if iso.Some? then MkRead(iso.value[0], iso.value[1], iso.value[2])
    else if dmy.Some? then MkRead(dmy.value[2], dmy.value[1], dmy.value[0])
    else None
  }

  function MkRead(y: string, m: string, d: string): Option<string>
    requires AllDigits(y) && AllDigits(m) && AllDigits(d)
  {
    Mk(Read(y), Read(m), Read(d))
  }

  /** Every answer is the ISO text of a date. */
  lemma AnswerIsDate(letters: set<char>, v: Value)
    requires (v.OnDay? ==> Valid(v.date)) && ToDate(letters, v).Some?
    ensures exists t :: Valid(t) && ToDate(letters, v) == Some(Iso(t))
  {
    hide Search, Iso, Lower, Strip, Read, Arity;
    if v.Written? {
      var s := Lower(Strip(v.text));
      ThreeGroups();
      var vn, iso, dmy := Search(letters, None, s, VN), Search(letters, None, s, ISO), Search(letters, None, s, DMY);
      if vn.Some? {
        MkIsDate(vn.value[2], vn.value[1], vn.value[0]);
      } else if iso.Some? {
        MkIsDate(iso.value[0], iso.value[1], iso.value[2]);
      } else {
        MkIsDate(dmy.value[2], dmy.value[1], dmy.value[0]);
      }
    }
  }

  lemma MkIsDate(y: string, m: string, d: string)
    requires AllDigits(y) && AllDigits(m) && AllDigits(d)
    ensures MkRead(y, m, d).Some? ==> exists t :: Valid(t) && MkRead(y, m, d) == Some(Iso(t))
  {
    hide Iso;
    if MkRead(y, m, d).Some? { assert MkRead(y, m, d) == Some(Iso(Date(Read(y), Read(m), Read(d)))); }
  }

  /** The pattern can be read somewhere in the text. */
  ghost predicate Occurs(letters: set<char>, s: string, p: seq<Item>) {
    exists k: nat, ks: seq<nat> :: k <= |s| && Reads(letters, Last(None, s[..k]), s[k..], p, ks)
  }

  lemma OccursIff(letters: set<char>, s: string, p: seq<Item>)
    ensures Search(letters, None, s, p).Some? <==> Occurs(letters, s, p)
  {
    SearchFailsIff(letters, None, s, p);
    hide Search, Match, Reads;
    forall k | 0 <= k <= |s|
      ensures Match(letters, Last(None, s[..k]), s[k..], p).Some?
              <==> exists ks: seq<nat> :: Reads(letters, Last(None, s[..k]), s[k..], p, ks)
    {
      MatchIff(letters, Last(None, s[..k]), s[k..], p);
    }
  }

  /** A text in which none of the three forms can be read anywhere has no date. */
  lemma NoFormNoDate(letters: set<char>, text: string)
    requires var s := Lower(Strip(text)); !Occurs(letters, s, VN) && !Occurs(letters, s, ISO) && !Occurs(letters, s, DMY)
    ensures ToDate(letters, Written(text)) == None
  {
    hide Search, Occurs, Lower, Strip;
    var s := Lower(Strip(text));
    OccursIff(letters, s, VN);
    OccursIff(letters, s, ISO);
    OccursIff(letters, s, DMY);
  }

  // ----------------------------------------------------- what the texts are

  /** A day or month numeral, with or without its leading zero. */
  predicate Short(s: string) { AllDigits(s) && 1 <= |s| <= 2 }

  predicate Year(s: string) { AllDigits(s) && |s| == 4 }

  predicate NoDigit(s: string) { forall k | 0 <= k < |s| :: !IsDigit(s[k]) }

  /** Not part of a word, as far as the pattern sees. */
  predicate Apart(letters: set<char>, c: Option<char>) { c.Some? ==> !IsWord(letters, LowerChar(c.value)) }

  // ------------------------------------------------------------- matches

  lemma {:induction false} VnMatches(letters: set<char>, prev: Option<char>, d: string, w1: string, w2: string,
                                     m: string, w3: string, w4: string, y: string, after: string)
    requires Short(d) && Short(m) && Year(y) && AllSpace(w1) && AllSpace(w2) && AllSpace(w3) && AllSpace(w4)
    ensures Match(letters, prev, d + (w1 + (THANG + (w2 + (m + (w3 + (NAM + (w4 + (y + after)))))))), VN)
         == Some([d, m, y])
  {
    hide Match, IsSpace;
    var t8 := y + after;
    var t7 := w4 + t8;
    var t6 := NAM + t7;
    var t5 := w3 + t6;
    var t4 := m + t5;
    var t3 := w2 + t4;
    var t2 := THANG + t3;
    var t1 := w1 + t2;
    var p1 := Last(prev, d);
    var p2 := Last(p1, w1);
    var p3 := Last(p2, THANG);
    var p4 := Last(p3, w2);
    var p5 := Last(p4, m);
    var p6 := Last(p5, w3);
    var p7 := Last(p6, NAM);
    var p8 := Last(p7, w4);
    NumeralEdges(d);
    NumeralEdges(m);
    NumeralEdges(y);
    SpaceEdges(w1);
    SpaceEdges(w3);
    WordEdges();
    hide AllDigits, AllSpace, Last;
    MatchesAll(letters, Last(p8, y), after);
    StepDigits(letters, p8, y, after, 4, 4, []);
    assert VN_YEAR == [Digits(4, 4)] + [];
    assert t8[0] == y[0];
    StepSpaces(letters, p7, w4, t8, VN_YEAR);
    StepWord(letters, p6, NAM, t7, [Spaces] + VN_YEAR);
    assert t6[0] == NAM[0];
    StepSpaces(letters, p5, w3, t6, VN_NAM);
    assert t5[0] == if w3 == [] then NAM[0] else w3[0];
    StepDigits(letters, p4, m, t5, 1, 2, [Spaces] + VN_NAM);
    assert t4[0] == m[0];
    StepSpaces(letters, p3, w2, t4, VN_MONTH);
    StepWord(letters, p2, THANG, t3, [Spaces] + VN_MONTH);
    assert t2[0] == THANG[0];
    StepSpaces(letters, p1, w1, t2, VN_THANG);
    assert t1[0] == if w1 == [] then THANG[0] else w1[0];
    StepDigits(letters, prev, d, t1, 1, 2, [Spaces] + VN_THANG);
    assert [d] + ([m] + ([y] + [])) == [d, m, y];
  }

  lemma MatchesAll(letters: set<char>, prev: Option<char>, t: string)
    ensures Match(letters, prev, t, []) == Some([])
  {}

  lemma NumeralEdges(s: string)
    requires AllDigits(s) && s != []
    ensures IsDigit(s[0]) && !IsSpace(s[0]) && IsDigit(s[|s| - 1])
  {}

  lemma SpaceEdges(s: string)
    requires AllSpace(s)
    ensures s != [] ==> !IsDigit(s[0])
  {}

  lemma WordEdges()
    ensures !IsSpace(THANG[0]) && !IsDigit(THANG[0]) && !IsSpace(NAM[0]) && !IsDigit(NAM[0])
  {}

  lemma {:induction false} IsoMatches(letters: set<char>, prev: Option<char>, y: string, s1: char, m: string,
                                      s2: char, d: string, after: string)
    requires Year(y) && Short(m) && Short(d) && s1 in SEPARATORS && s2 in SEPARATORS
    requires !WordAt(letters, prev) && !WordAt(letters, First(after))
    ensures Match(letters, prev, y + ([s1] + (m + ([s2] + (d + after)))), ISO) == Some([y, m, d])
  {
    hide Match;
    NumeralEdges(y);
    NumeralEdges(m);
    NumeralEdges(d);
    SeparatorEdges(s1);
    SeparatorEdges(s2);
    hide AllDigits;
    var t4 := d + after;
    var t3 := [s2] + t4;
    var t2 := m + t3;
    var t1 := [s1] + t2;
    var t0 := y + t1;
    var p4, p2 := Last(Some(s2), d), Last(Some(s1), m);
    MatchesAll(letters, p4, after);
    assert [Boundary] == [Boundary] + [];
    StepBoundary(letters, p4, after, []);
    assert after != [] ==> !IsDigit(after[0]);
    StepDigits(letters, Some(s2), d, after, 1, 2, [Boundary]);
    StepOneOf(letters, p2, s2, t4, SEPARATORS, ISO_DAY);
    StepDigits(letters, Some(s1), m, t3, 1, 2, [OneOf(SEPARATORS)] + ISO_DAY);
    StepOneOf(letters, Last(prev, y), s1, t2, SEPARATORS, ISO_MONTH);
    StepDigits(letters, prev, y, t1, 4, 4, [OneOf(SEPARATORS)] + ISO_MONTH);
    assert t0[0] == y[0];
    StepBoundary(letters, prev, t0, [Digits(4, 4)] + ([OneOf(SEPARATORS)] + ISO_MONTH));
    assert [y] + ([m] + ([d] + [])) == [y, m, d];
  }

  lemma SeparatorEdges(c: char)
    requires c in SEPARATORS
    ensures !IsDigit(c) && !IsSpace(c) && c != 't' && LowerChar(c) == c
  {}

  lemma {:induction false} DmyMatches(letters: set<char>, prev: Option<char>, d: string, s1: char, m: string,
                                      s2: char, y: string, after: string)
    requires Year(y) && Short(m) && Short(d) && s1 in SEPARATORS && s2 in SEPARATORS
    requires !WordAt(letters, prev) && !WordAt(letters, First(after))
    ensures Match(letters, prev, d + ([s1] + (m + ([s2] + (y + after)))), DMY) == Some([d, m, y])
  {
    hide Match;
    NumeralEdges(y);
    NumeralEdges(m);
    NumeralEdges(d);
    SeparatorEdges(s1);
    SeparatorEdges(s2);
    hide AllDigits;
    var t4 := y + after;
    var t3 := [s2] + t4;
    var t2 := m + t3;
    var t1 := [s1] + t2;
    var t0 := d + t1;
    var p4, p2 := Last(Some(s2), y), Last(Some(s1), m);
    MatchesAll(letters, p4, after);
    assert [Boundary] == [Boundary] + [];
    StepBoundary(letters, p4, after, []);
    StepDigits(letters, Some(s2), y, after, 4, 4, [Boundary]);
    StepOneOf(letters, p2, s2, t4, SEPARATORS, DMY_YEAR);
    StepDigits(letters, Some(s1), m, t3, 1, 2, [OneOf(SEPARATORS)] + DMY_YEAR);
    StepOneOf(letters, Last(prev, d), s1, t2, SEPARATORS, DMY_MONTH);
    StepDigits(letters, prev, d, t1, 1, 2, [OneOf(SEPARATORS)] + DMY_MONTH);
    assert t0[0] == d[0];
    StepBoundary(letters, prev, t0, [Digits(1, 2)] + ([OneOf(SEPARATORS)] + DMY_MONTH));
    assert [d] + ([m] + ([y] + [])) == [d, m, y];
  }

  // ---------------------------------------------- where the patterns cannot match

  lemma Peel(letters: set<char>, prev: Option<char>, t: string, item: Item, p: seq<Item>, ks: seq<nat>)
    requires Reads(letters, prev, t, [item] + p, ks)
    ensures ks != [] && ks[0] <= |t| && Fits(letters, prev, t, item, ks[0])
    ensures Reads(letters, Last(prev, t[..ks[0]]), t[ks[0]..], p, ks[1..])
  {
    assert ([item] + p)[1..] == p;
    hide Fits;
  }

  /** One or two digits, white space, the month's word, later a digit: what the first pattern
      needs. */
  predicate VnAt(t: string, d: nat, j: nat, k: nat) {
    && 1 <= d <= 2 && d <= j && j + 5 <= k < |t|
    && (forall x | 0 <= x < d :: IsDigit(t[x])) && (forall x | d <= x < j :: IsSpace(t[x]))
    && ThangAt(t, j) && IsDigit(t[k])
  }

  predicate ThangAt(t: string, k: nat) { k + 5 <= |t| && t[k..k + 5] == THANG }

  ghost predicate VnShape(t: string) { exists d: nat, j: nat, k: nat :: VnAt(t, d, j, k) }

  lemma VnNeeds(letters: set<char>, prev: Option<char>, t: string)
    requires Match(letters, prev, t, VN).Some?
    ensures VnShape(t)
  {
    MatchReads(letters, prev, t, VN);
    var ks := Lengths(letters, prev, t, VN);
    hide Reads, Match, Lengths, IsSpace;
    Peel(letters, prev, t, Digits(1, 2), [Spaces] + VN_THANG, ks);
    var p1, t1 := Last(prev, t[..ks[0]]), t[ks[0]..];
    Peel(letters, p1, t1, Spaces, VN_THANG, ks[1..]);
    var p2, t2 := Last(p1, t1[..ks[1]]), t1[ks[1]..];
    Peel(letters, p2, t2, Literal(THANG), [Spaces] + VN_MONTH, ks[1..][1..]);
    assert ks[1..][1..][0] == ks[2] && |t2[..ks[2]]| == 5;
    var p3, t3 := Last(p2, t2[..ks[2]]), t2[ks[2]..];
    Peel(letters, p3, t3, Spaces, VN_MONTH, ks[1..][1..][1..]);
    assert ks[1..][1..][1..][0] == ks[3];
    var p4, t4 := Last(p3, t3[..ks[3]]), t3[ks[3]..];
    Peel(letters, p4, t4, Digits(1, 2), [Spaces] + VN_NAM, ks[1..][1..][1..][1..]);
    assert ks[1..][1..][1..][1..][0] == ks[4];
    assert t4[..ks[4]][0] == t4[0];
    var j := ks[0] + ks[1];
    var k := j + ks[2] + ks[3];
    assert t[k] == t4[0];
    hide IsDigit, Fits, AllDigits, AllSpace;
    VnFrom(t, ks[0], ks[1], k);
  }

  lemma VnFrom(t: string, d: nat, w: nat, k: nat)
    requires 1 <= d <= 2 && d + w + 5 <= k < |t| && IsDigit(t[k])
    requires AllDigits(t[..d]) && AllSpace(t[d..][..w]) && t[d..][w..][..5] == THANG
    ensures VnShape(t)
  {
    hide IsDigit, IsSpace;
    var j := d + w;
    forall x | 0 <= x < d ensures IsDigit(t[x]) { assert t[..d][x] == t[x]; }
    forall x | d <= x < j ensures IsSpace(t[x]) { assert t[d..][..w][x - d] == t[x]; }
    assert t[j..j + 5] == t[d..][w..][..5];
    assert VnAt(t, d, j, k);
  }

  /** Four digits, a separator, a digit: what the second pattern needs. */
  predicate IsoAt(t: string) {
    |t| > 5 && (forall x | 0 <= x < 4 :: IsDigit(t[x])) && t[4] in SEPARATORS && IsDigit(t[5])
  }

  lemma IsoNeeds(letters: set<char>, prev: Option<char>, t: string)
    requires Match(letters, prev, t, ISO).Some?
    ensures IsoAt(t)
  {
    MatchReads(letters, prev, t, ISO);
    var ks := Lengths(letters, prev, t, ISO);
    hide Reads, Match, Lengths, WordAt;
    Peel(letters, prev, t, Boundary, [Digits(4, 4)] + ([OneOf(SEPARATORS)] + ISO_MONTH), ks);
    assert t[0..] == t && t[..0] == [];
    Peel(letters, prev, t, Digits(4, 4), [OneOf(SEPARATORS)] + ISO_MONTH, ks[1..]);
    assert ks[1..][0] == 4;
    var p1, t1 := Last(prev, t[..4]), t[4..];
    Peel(letters, p1, t1, OneOf(SEPARATORS), ISO_MONTH, ks[1..][1..]);
    var t2 := t1[1..];
    Peel(letters, Last(p1, t1[..1]), t2, Digits(1, 2), [OneOf(SEPARATORS)] + ISO_DAY, ks[1..][1..][1..]);
    var k := ks[1..][1..][1..][0];
    assert t2[..k][0] == t2[0] == t[5];
    forall x | 0 <= x < 4 ensures IsDigit(t[x]) { assert t[..4][x] == t[x]; }
  }

  /** One or two digits, a separator: what the third pattern needs. */
  predicate DmyAt(t: string, d: nat) {
    1 <= d <= 2 && d < |t| && (forall x | 0 <= x < d :: IsDigit(t[x])) && t[d] in SEPARATORS
  }

  lemma DmyNeeds(letters: set<char>, prev: Option<char>, t: string)
    requires Match(letters, prev, t, DMY).Some?
    ensures DmyAt(t, 1) || DmyAt(t, 2)
  {
    MatchReads(letters, prev, t, DMY);
    var ks := Lengths(letters, prev, t, DMY);
    hide Reads, Match, Lengths, WordAt;
    Peel(letters, prev, t, Boundary, [Digits(1, 2)] + ([OneOf(SEPARATORS)] + DMY_MONTH), ks);
    assert t[0..] == t && t[..0] == [];
    Peel(letters, prev, t, Digits(1, 2), [OneOf(SEPARATORS)] + DMY_MONTH, ks[1..]);
    var d := ks[1..][0];
    Peel(letters, Last(prev, t[..d]), t[d..], OneOf(SEPARATORS), DMY_MONTH, ks[1..][1..]);
    assert t[d] == t[d..][0] && (d == 1 || d == 2);
    forall x | 0 <= x < d ensures IsDigit(t[x]) { assert t[..d][x] == t[x]; }
  }

  // ------------------------------------------------------ text around a date

  /** The month's word is nowhere in the text. */
  predicate NoThang(s: string) { forall k | 0 <= k < |s| :: !ThangAt(s, k) }

  predicate NoSeparator(s: string) { forall k | 0 <= k < |s| :: s[k] !in SEPARATORS }

  predicate EndsInDigit(s: string) { s != [] && IsDigit(s[|s| - 1]) }

  /** Text in which no date is read: without digits, or with neither separators nor the word. */
  predicate Quiet(s: string) { NoDigit(s) || (NoSeparator(s) && NoThang(s)) }

  /** Text in which no date in words is read, nor around a date in figures: without digits, or
      without the word. */
  predicate Wordless(s: string) { NoDigit(s) || NoThang(s) }

  /** Text that may lead in to a date in words: without digits, or ending in none and without the
      word. */
  predicate LeadsIn(s: string) { NoDigit(s) || (NoThang(s) && !EndsInDigit(s)) }

  /** Digits and separators. */
  predicate Numeric(s: string) { forall k | 0 <= k < |s| :: IsDigit(s[k]) || s[k] in SEPARATORS }

  lemma ThangPiece(s: string, k: nat, l: nat, j: nat)
    requires k <= l <= |s|
    ensures ThangAt(s[k..l], j) ==> ThangAt(s, k + j)
  {
    if ThangAt(s[k..l], j) {
      var word := s[k + j..k + j + 5];
      forall x | 0 <= x < 5 ensures word[x] == THANG[x] { assert s[k..l][j..j + 5][x] == s[k..l][j + x]; }
    }
  }

  lemma QuietPiece(s: string, k: nat)
    requires k <= |s|
    ensures Quiet(s) ==> Quiet(s[k..]) && Quiet(s[..k])
    ensures LeadsIn(s) ==> LeadsIn(s[k..])
    ensures Wordless(s) ==> Wordless(s[..k])
  {
    hide IsDigit, ThangAt;
    assert s[k..] == s[k..|s|] && s[..k] == s[0..k];
    forall j: nat ensures ThangAt(s[k..], j) ==> ThangAt(s, k + j) { ThangPiece(s, k, |s|, j); }
    forall j: nat ensures ThangAt(s[..k], j) ==> ThangAt(s, j) { ThangPiece(s, 0, k, j); }
    assert NoThang(s) ==> NoThang(s[k..]) && NoThang(s[..k]) by { ThangEnds(s); }
  }

  /** The word ends within the text. */
  lemma ThangEnds(s: string)
    ensures forall k: nat | ThangAt(s, k) :: k < |s|
  {}

  /** The word's letters are no digits, separators or white space. */
  lemma ThangLetters(t: string, k: nat, x: nat)
    requires ThangAt(t, k) && k <= x < k + 5
    ensures !IsDigit(t[x]) && t[x] !in SEPARATORS && !IsSpace(t[x])
  {
    assert t[x] == THANG[x - k];
  }

  lemma NotSpace(c: char)
    requires IsDigit(c)
    ensures !IsSpace(c)
  {}

  /** The first pattern is not read from before the day. */
  lemma VnNotBefore(before: string, t: string, k: nat)
    requires LeadsIn(before) && k < |before| && t != [] && IsDigit(t[0])
    ensures !VnShape(before[k..] + t)
  {
    var u, r := before[k..] + t, |before| - k;
    NotSpace(t[0]);
    assert u[r] == t[0] && u[0] == before[k] && u[r - 1] == before[|before| - 1];
    forall d: nat, j: nat, x: nat | 1 <= d <= 2 ensures !VnAt(u, d, j, x) {
      if ThangAt(u, j) {
        hide IsDigit, IsSpace;
        if j + 5 <= r {
          ThangWithin(before, t, k, j);
        } else if j <= r {
          ThangLetters(u, j, r);
        }
      }
    }
  }

  lemma ThangWithin(before: string, t: string, k: nat, j: nat)
    requires k <= |before| && ThangAt(before[k..] + t, j) && j + 5 <= |before| - k
    ensures ThangAt(before, k + j)
  {
    assert before[k + j..k + j + 5] == (before[k..] + t)[j..j + 5];
  }

  /** Nor are the others, where the text before neither ends in a digit nor reads as a date. */
  lemma IsoNotBefore(before: string, t: string, k: nat)
    requires Quiet(before) && !EndsInDigit(before) && k < |before|
    ensures !IsoAt(before[k..] + t)
  {
    var u, r := before[k..] + t, |before| - k;
    assert u[r - 1] == before[|before| - 1] && u[0] == before[k] && (4 < r ==> u[4] == before[k + 4]);
    hide IsDigit;
    if IsoAt(u) { FourDigits(u, if r <= 4 then r - 1 else 0); }
  }

  lemma FourDigits(u: string, x: nat)
    requires IsoAt(u) && x < 4
    ensures IsDigit(u[x])
  {}

  lemma DmyNotBefore(before: string, t: string, k: nat, d: nat)
    requires Quiet(before) && !EndsInDigit(before) && k < |before|
    ensures !DmyAt(before[k..] + t, d)
  {
    var u, r := before[k..] + t, |before| - k;
    assert u[r - 1] == before[|before| - 1] && u[0] == before[k] && (d < r ==> u[d] == before[k + d]);
    hide IsDigit;
    if DmyAt(u, d) { FirstDigits(u, d, if r <= d then r - 1 else 0); }
  }

  lemma FirstDigits(u: string, d: nat, x: nat)
    requires DmyAt(u, d) && x < d
    ensures IsDigit(u[x])
  {}

  /** What stands before the date is passed over. */
  lemma SearchPast(letters: set<char>, before: string, t: string, p: seq<Item>)
    requires Match(letters, Last(None, before), t, p).Some? && t != [] && IsDigit(t[0])
    requires (p == VN && LeadsIn(before)) || ((p == ISO || p == DMY) && Quiet(before) && !EndsInDigit(before))
    ensures Search(letters, None, before + t, p) == Match(letters, Last(None, before), t, p)
  {
    forall k | 0 <= k < |before| ensures Match(letters, Last(None, before[..k]), before[k..] + t, p).None? {
      NotBefore(letters, before, t, p, k);
    }
    hide Match;
    SearchSkips(letters, None, before, t, p);
  }

  lemma NotBefore(letters: set<char>, before: string, t: string, p: seq<Item>, k: nat)
    requires k < |before| && t != [] && IsDigit(t[0])
    requires (p == VN && LeadsIn(before)) || ((p == ISO || p == DMY) && Quiet(before) && !EndsInDigit(before))
    ensures Match(letters, Last(None, before[..k]), before[k..] + t, p).None?
  {
    hide Match, VnShape, IsoAt, DmyAt, Quiet, LeadsIn, EndsInDigit, IsDigit;
    var prev, u := Last(None, before[..k]), before[k..] + t;
    if p == VN {
      VnNotBefore(before, t, k);
      if Match(letters, prev, u, VN).Some? { VnNeeds(letters, prev, u); }
    } else if p == ISO {
      IsoNotBefore(before, t, k);
      if Match(letters, prev, u, ISO).Some? { IsoNeeds(letters, prev, u); }
    } else {
      DmyNotBefore(before, t, k, 1);
      DmyNotBefore(before, t, k, 2);
      if Match(letters, prev, u, DMY).Some? { DmyNeeds(letters, prev, u); }
    }
  }

  /** No date in words in such text around digits and separators. */
  lemma NoVn(letters: set<char>, before: string, body: string, after: string)
    requires Wordless(before) && Wordless(after) && Numeric(body) && body != []
    ensures Search(letters, None, before + body + after, VN) == None
  {
    var t := before + body + after;
    forall i | 0 <= i <= |t| ensures Match(letters, Last(None, t[..i]), t[i..], VN).None? {
      NoVnShape(before, body, after, i);
      hide Match, VnShape;
      if Match(letters, Last(None, t[..i]), t[i..], VN).Some? { VnNeeds(letters, Last(None, t[..i]), t[i..]); }
    }
    hide Match;
    SearchFails(letters, None, t, VN);
  }

  lemma NoVnShape(before: string, body: string, after: string, i: nat)
    requires Wordless(before) && Wordless(after) && Numeric(body) && body != [] && i <= |before + body + after|
    ensures !VnShape((before + body + after)[i..])
  {
    var t := before + body + after;
    var u := t[i..];
    Located(before, body, after);
    assert forall x | 0 <= x < |u| :: u[x] == t[i + x];
    forall d: nat, j: nat, k: nat | 1 <= d <= 2 ensures !VnAt(u, d, j, k) {
      hide IsDigit, IsSpace, Numeric;
      if VnAt(u, d, j, k) {
        VnEnds(u, d, j, k);
        ThangPiece(t, i, |t|, j);
        assert u == t[i..|t|];
        ThangOutside(before, body, after, i + j);
        ThangEnds(before);
        hide VnAt, ThangAt;
      }
    }
  }

  lemma VnEnds(t: string, d: nat, j: nat, k: nat)
    requires VnAt(t, d, j, k)
    ensures IsDigit(t[0]) && ThangAt(t, j) && 0 < j && j + 5 <= k < |t| && IsDigit(t[k])
  {}

  /** Where each character of the text lies. */
  lemma Located(before: string, body: string, after: string)
    ensures var t, p, q := before + body + after, |before|, |before| + |body|;
            forall x | 0 <= x < |t| :: t[x] == if x < p then before[x] else if x < q then body[x - p] else after[x - q]
  {}

  /** The word lies before or after the digits and separators. */
  lemma ThangOutside(before: string, body: string, after: string, x: nat)
    requires Numeric(body) && body != [] && ThangAt(before + body + after, x)
    ensures (x < |before| && ThangAt(before, x))
            || (x >= |before| + |body| && x - |before| - |body| < |after| && ThangAt(after, x - |before| - |body|))
  {
    var t, p, q := before + body + after, |before|, |before| + |body|;
    if x + 5 <= p {
      assert t[x..x + 5] == before[x..x + 5];
    } else if x >= q {
      assert t[x..x + 5] == after[x - q..x - q + 5];
    } else {
      var y := if x < p then p else x;
      ThangLetters(t, x, y);
      NumericAt(body, y - p);
      Located(before, body, after);
    }
  }

  lemma NumericAt(s: string, k: nat)
    requires Numeric(s) && k < |s|
    ensures IsDigit(s[k]) || s[k] in SEPARATORS
  {}

  /** No ISO form in day, month, year. */
  lemma NoIso(letters: set<char>, before: string, d: string, s1: char, m: string, s2: char, y: string, after: string)
    requires Year(y) && Short(m) && Short(d) && s1 in SEPARATORS && s2 in SEPARATORS
    requires Quiet(before) && !EndsInDigit(before) && Quiet(after)
    ensures Search(letters, None, before + (d + [s1] + m + [s2] + y) + after, ISO) == None
  {
    var t := before + (d + [s1] + m + [s2] + y) + after;
    forall i | 0 <= i <= |t| ensures Match(letters, Last(None, t[..i]), t[i..], ISO).None? {
      NoIsoAt(before, d, s1, m, s2, y, after, i);
      hide Match, IsoAt;
      if Match(letters, Last(None, t[..i]), t[i..], ISO).Some? { IsoNeeds(letters, Last(None, t[..i]), t[i..]); }
    }
    hide Match;
    SearchFails(letters, None, t, ISO);
  }

  /** The separator such a form needs after four digits is none of the text's. */
  lemma NoIsoAt(before: string, d: string, s1: char, m: string, s2: char, y: string, after: string, i: nat)
    requires Year(y) && Short(m) && Short(d) && s1 in SEPARATORS && s2 in SEPARATORS
    requires Quiet(before) && !EndsInDigit(before) && Quiet(after)
    requires i <= |before + (d + [s1] + m + [s2] + y) + after|
    ensures !IsoAt((before + (d + [s1] + m + [s2] + y) + after)[i..])
  {
    var body := d + [s1] + m + [s2] + y;
    var t := before + body + after;
    var u, p := t[i..], |before|;
    Located(before, body, after);
    assert forall x | 0 <= x < |u| :: u[x] == t[i + x];
    assert body[|d|] == s1 && t[p + |d|] == s1;
    SeparatorEdges(s1);
    BodySeparators(d, s1, m, s2, y);
    hide IsDigit, NoThang;
    assert p > 0 ==> t[p - 1] == before[p - 1];
    if IsoAt(u) {
      FourDigits(u, 0);
      FourDigits(u, 1);
      FourDigits(u, 2);
      FourDigits(u, 3);
    }
  }

  lemma BodySeparators(d: string, s1: char, m: string, s2: char, y: string)
    requires AllDigits(d) && AllDigits(m) && AllDigits(y)
    ensures var body := d + [s1] + m + [s2] + y;
            forall k | 0 <= k < |body| && k != |d| && k != |d| + 1 + |m| :: body[k] !in SEPARATORS
  {
    var body := d + [s1] + m + [s2] + y;
    assert forall k | 0 <= k < |body| ::
        body[k] == if k < |d| then d[k]
                   else if k == |d| then s1
                   else if k < |d| + 1 + |m| then m[k - |d| - 1]
                   else if k == |d| + 1 + |m| then s2
                   else y[k - |d| - |m| - 2];
    DigitsNotSeparators();
    hide IsDigit;
  }

  lemma DigitsNotSeparators()
    ensures forall c | c in SEPARATORS :: !IsDigit(c)
  {}

  // ------------------------------------------------------------ lower case

  lemma LowerAppend(a: string, b: string)
    ensures Lower(a + b) == Lower(a) + Lower(b)
  {
    hide LowerChar;
  }

  lemma LowerDigits(s: string)
    ensures NoDigit(s) ==> NoDigit(Lower(s))
    ensures AllDigits(s) ==> Lower(s) == s
    ensures AllSpace(s) ==> Lower(s) == s
  {}

  lemma LowerSeparator(c: char)
    requires c in SEPARATORS
    ensures Lower([c]) == [c]
  {
    SeparatorEdges(c);
  }

  /** Stripping and lowering work on each side of a body that starts and ends with a digit. */
  lemma StripLower(before: string, body: string, after: string)
    requires body != [] && IsDigit(body[0]) && IsDigit(body[|body| - 1])
    ensures Lower(Strip(before + body + after)) == Lower(StripLeft(before)) + Lower(body) + Lower(StripRight(after))
  {
    assert !IsSpace(body[0]) && !IsSpace(body[|body| - 1]);
    hide LowerChar, Lower, StripLeft, StripRight, Strip, IsSpace;
    StripAround(before, body, after);
    LowerAppend(StripLeft(before) + body, StripRight(after));
    LowerAppend(StripLeft(before), body);
  }

  /** What stripping leaves around a date reads no worse. */
  lemma StillQuiet(s: string)
    ensures Quiet(Lower(s)) ==> Quiet(Lower(StripLeft(s))) && Quiet(Lower(StripRight(s)))
    ensures LeadsIn(Lower(s)) ==> LeadsIn(Lower(StripLeft(s)))
    ensures Wordless(Lower(s)) ==> Wordless(Lower(StripRight(s)))
  {
    hide Quiet, LeadsIn, Wordless, LowerChar, LeftEdge, RightEdge;
    assert Lower(StripLeft(s)) == Lower(s)[LeftEdge(s)..];
    assert Lower(StripRight(s)) == Lower(s)[..RightEdge(s)];
    QuietPiece(Lower(s), LeftEdge(s));
    QuietPiece(Lower(s), RightEdge(s));
  }

  lemma ApartEnd(letters: set<char>, s: string)
    requires !WordAt(letters, Last(None, s))
    ensures !EndsInDigit(s)
  {}

  /** The edges of what is left are still apart from the date. */
  lemma StillApart(letters: set<char>, before: string, after: string)
    requires Apart(letters, Last(None, before)) && Apart(letters, First(after))
    ensures !WordAt(letters, Last(None, Lower(StripLeft(before))))
    ensures !WordAt(letters, First(Lower(StripRight(after))))
  {
    EdgesStay(before);
    EdgesStay(after);
    hide LowerChar, IsWord, StripLeft, StripRight;
  }

  // ------------------------------------------------------------ the theorems

  /** Day, the month's word, month, the year's word, year: in any letter case, with any white
      space, before any text at all and after any text that has no digits, or that does not end
      in one and has the month's word nowhere. */
  lemma VietnameseInverted(letters: set<char>, before: string, d: string, w1: string, month: string, w2: string,
                           m: string, w3: string, year: string, w4: string, y: string, after: string)
    requires LeadsIn(Lower(before)) && Short(d) && Short(m) && Year(y)
    requires AllSpace(w1) && AllSpace(w2) && AllSpace(w3) && AllSpace(w4)
    requires Lower(month) == THANG && Lower(year) == NAM
    ensures ToDate(letters, Written(before + (d + w1 + month + w2 + m + w3 + year + w4 + y) + after)) == MkRead(y, m, d)
  {
    hide LowerChar, Lower, StripLeft, StripRight, Strip, IsSpace, Search, Match, MkRead;
    var body := d + w1 + month + w2 + m + w3 + year + w4 + y;
    NumeralEdges(d);
    NumeralEdges(y);
    assert body[0] == d[0] && body[|body| - 1] == y[|y| - 1];
    StripLower(before, body, after);
    StillQuiet(before);
    LowerVietnamese(d, w1, month, w2, m, w3, year, w4, y);
    hide AllDigits, AllSpace, LeadsIn;
    var b, a := Lower(StripLeft(before)), Lower(StripRight(after));
    var t := d + (w1 + (THANG + (w2 + (m + (w3 + (NAM + (w4 + (y + a))))))));
    VnMatches(letters, Last(None, b), d, w1, w2, m, w3, w4, y, a);
    SearchPast(letters, b, t, VN);
    Regroup(d, w1, THANG, w2, m, w3, NAM, w4, y, a);
    Shift(b, Lower(body), a);
  }

  lemma Shift(x: string, y: string, z: string)
    ensures (x + y) + z == x + (y + z)
  {}

  lemma RegroupFive(p: string, s1: string, q: string, s2: string, r: string, a: string)
    ensures (p + s1 + q + s2 + r) + a == p + (s1 + (q + (s2 + (r + a))))
  {
    Shift(p + s1 + q + s2, r, a);
    Shift(p + s1 + q, s2, r + a);
    Shift(p + s1, q, s2 + (r + a));
    Shift(p, s1, q + (s2 + (r + a)));
  }

  lemma Regroup(d: string, w1: string, month: string, w2: string, m: string, w3: string, year: string, w4: string,
                y: string, a: string)
    ensures (d + w1 + month + w2 + m + w3 + year + w4 + y) + a
         == d + (w1 + (month + (w2 + (m + (w3 + (year + (w4 + (y + a))))))))
  {
    Shift(d + w1 + month + w2 + m + w3 + year + w4, y, a);
    Shift(d + w1 + month + w2 + m + w3 + year, w4, y + a);
    Shift(d + w1 + month + w2 + m + w3, year, w4 + (y + a));
    Shift(d + w1 + month + w2 + m, w3, year + (w4 + (y + a)));
    Shift(d + w1 + month + w2, m, w3 + (year + (w4 + (y + a))));
    Shift(d + w1 + month, w2, m + (w3 + (year + (w4 + (y + a)))));
    Shift(d + w1, month, w2 + (m + (w3 + (year + (w4 + (y + a))))));
    Shift(d, w1, month + (w2 + (m + (w3 + (year + (w4 + (y + a)))))));
  }

  lemma LowerVietnamese(d: string, w1: string, month: string, w2: string, m: string, w3: string,
                        year: string, w4: string, y: string)
    requires Short(d) && Short(m) && Year(y)
    requires AllSpace(w1) && AllSpace(w2) && AllSpace(w3) && AllSpace(w4)
    requires Lower(month) == THANG && Lower(year) == NAM
    ensures Lower(d + w1 + month + w2 + m + w3 + year + w4 + y) == d + w1 + THANG + w2 + m + w3 + NAM + w4 + y
  {
    LowerDigits(d);
    LowerDigits(m);
    LowerDigits(y);
    LowerDigits(w1);
    LowerDigits(w2);
    LowerDigits(w3);
    LowerDigits(w4);
    hide Lower;
    LowerAppend(d, w1);
    LowerAppend(d + w1, month);
    LowerAppend(d + w1 + month, w2);
    LowerAppend(d + w1 + month + w2, m);
    LowerAppend(d + w1 + month + w2 + m, w3);
    LowerAppend(d + w1 + month + w2 + m + w3, year);
    LowerAppend(d + w1 + month + w2 + m + w3 + year, w4);
    LowerAppend(d + w1 + month + w2 + m + w3 + year + w4, y);
  }

  lemma LowerNumeric(a: string, s1: char, b: string, s2: char, c: string)
    requires AllDigits(a) && AllDigits(b) && AllDigits(c) && s1 in SEPARATORS && s2 in SEPARATORS
    ensures Lower(a + [s1] + b + [s2] + c) == a + [s1] + b + [s2] + c
  {
    LowerDigits(a);
    LowerDigits(b);
    LowerDigits(c);
    LowerSeparator(s1);
    LowerSeparator(s2);
    hide Lower;
    LowerAppend(a, [s1]);
    LowerAppend(a + [s1], b);
    LowerAppend(a + [s1] + b, [s2]);
    LowerAppend(a + [s1] + b + [s2], c);
  }

  lemma FormIsNumeric(a: string, s1: char, b: string, s2: char, c: string)
    requires AllDigits(a) && AllDigits(b) && AllDigits(c) && s1 in SEPARATORS && s2 in SEPARATORS
    ensures Numeric(a + [s1] + b + [s2] + c)
  {}

  /** Year, month, day between any two of the separators, standing apart: after text that has no
      digits, or neither separators nor the month's word, and before any text that has no
      digits or not the month's word.  A date in the day-first form may follow: the year-first
      form decides. */
  lemma IsoInverted(letters: set<char>, before: string, y: string, s1: char, m: string, s2: char, d: string, after: string)
    requires Year(y) && Short(m) && Short(d) && s1 in SEPARATORS && s2 in SEPARATORS
    requires Quiet(Lower(before)) && Wordless(Lower(after))
    requires Apart(letters, Last(None, before)) && Apart(letters, First(after))
    ensures ToDate(letters, Written(before + (y + [s1] + m + [s2] + d) + after)) == MkRead(y, m, d)
  {
    hide LowerChar, Lower, StripLeft, StripRight, Strip, Search, Match, MkRead, IsWord, Apart;
    var body := y + [s1] + m + [s2] + d;
    NumeralEdges(y);
    NumeralEdges(d);
    assert body[0] == y[0] && body[|body| - 1] == d[|d| - 1];
    StripLower(before, body, after);
    StillQuiet(before);
    StillQuiet(after);
    StillApart(letters, before, after);
    ApartEnd(letters, Lower(StripLeft(before)));
    LowerNumeric(y, s1, m, s2, d);
    FormIsNumeric(y, s1, m, s2, d);
    hide AllDigits, Quiet, Numeric, EndsInDigit, IsDigit;
    var b, a := Lower(StripLeft(before)), Lower(StripRight(after));
    NoVn(letters, b, body, a);
    var t := y + ([s1] + (m + ([s2] + (d + a))));
    IsoMatches(letters, Last(None, b), y, s1, m, s2, d, a);
    SearchPast(letters, b, t, ISO);
    RegroupFive(y, [s1], m, [s2], d, a);
    Shift(b, body, a);
  }

  /** Day, month, year between any two of the separators, likewise. */
  lemma DmyInverted(letters: set<char>, before: string, d: string, s1: char, m: string, s2: char, y: string, after: string)
    requires Year(y) && Short(m) && Short(d) && s1 in SEPARATORS && s2 in SEPARATORS
    requires Quiet(Lower(before)) && Quiet(Lower(after))
    requires Apart(letters, Last(None, before)) && Apart(letters, First(after))
    ensures ToDate(letters, Written(before + (d + [s1] + m + [s2] + y) + after)) == MkRead(y, m, d)
  {
    hide LowerChar, Lower, StripLeft, StripRight, Strip, Search, Match, MkRead, IsWord, Apart;
    var body := d + [s1] + m + [s2] + y;
    NumeralEdges(d);
    NumeralEdges(y);
    assert body[0] == d[0] && body[|body| - 1] == y[|y| - 1];
    StripLower(before, body, after);
    StillQuiet(before);
    StillQuiet(after);
    StillApart(letters, before, after);
    ApartEnd(letters, Lower(StripLeft(before)));
    LowerNumeric(d, s1, m, s2, y);
    FormIsNumeric(d, s1, m, s2, y);
    hide AllDigits, Quiet, Numeric, EndsInDigit, IsDigit;
    var b, a := Lower(StripLeft(before)), Lower(StripRight(after));
    NoVn(letters, b, body, a);
    NoIso(letters, b, d, s1, m, s2, y, a);
    var t := d + ([s1] + (m + ([s2] + (y + a))));
    DmyMatches(letters, Last(None, b), d, s1, m, s2, y, a);
    SearchPast(letters, b, t, DMY);
    RegroupFive(d, [s1], m, [s2], y, a);
    Shift(b, body, a);
  }

  /** How a date's day or month is printed, with or without the zero. */
  predicate Prints(s: string, n: int) { n >= 0 && (s == Show(n) || s == Pad(2, n)) }

  lemma PrintsShort(s: string, n: int)
    requires 0 <= n < 100 && Prints(s, n)
    ensures Short(s) && Read(s) == n
  {
    assert Pow10(2) == 100;
    ShowLength(n, 2);
    ReadShow(n);
    PadShape(2, n);
  }

  /** Every valid date comes back as its ISO text from each of the three forms, and as itself;
      nothing comes from nothing. */
  lemma FormsInverted(letters: set<char>, t: Date, d: string, m: string, s1: char, s2: char, w1: string, w2: string,
                      w3: string, w4: string)
    requires Valid(t) && Prints(d, t.d) && Prints(m, t.m) && s1 in {'/', '-', '.'} && s2 in {'/', '-', '.'}
    requires AllSpace(w1) && AllSpace(w2) && AllSpace(w3) && AllSpace(w4)
    ensures ToDate(letters, OnDay(t)) == Some(Iso(t)) && ToDate(letters, Missing) == None
    ensures ToDate(letters, Written(Iso(t))) == Some(Iso(t))
    ensures ToDate(letters, Written(Pad(4, t.y) + [s1] + m + [s2] + d)) == Some(Iso(t))
    ensures ToDate(letters, Written(d + [s1] + m + [s2] + Pad(4, t.y))) == Some(Iso(t))
    ensures ToDate(letters, Written(d + w1 + "th\U{00E1}ng" + w2 + m + w3 + "n\U{0103}m" + w4 + Pad(4, t.y))) == Some(Iso(t))
  {
    hide ToDate, Short, Year, Iso;
    NoText(letters, t);
    FormOf(letters, t, d, m, s1, s2, w1, w2, w3, w4);
    FormOf(letters, t, Pad(2, t.d), Pad(2, t.m), '-', '-', w1, w2, w3, w4);
    assert Iso(t) == Pad(4, t.y) + ['-'] + Pad(2, t.m) + ['-'] + Pad(2, t.d) by { IsoIs(t); }
  }

  lemma NoText(letters: set<char>, t: Date)
    requires Valid(t)
    ensures ToDate(letters, OnDay(t)) == Some(Iso(t)) && ToDate(letters, Missing) == None
  {}

  lemma IsoIs(t: Date)
    requires Valid(t)
    ensures Iso(t) == Pad(4, t.y) + ['-'] + Pad(2, t.m) + ['-'] + Pad(2, t.d)
  {
    hide Pad;
    assert "-" == ['-'];
  }

  lemma FormOf(letters: set<char>, t: Date, d: string, m: string, s1: char, s2: char, w1: string, w2: string,
               w3: string, w4: string)
    requires Valid(t) && Prints(d, t.d) && Prints(m, t.m) && s1 in SEPARATORS && s2 in SEPARATORS
    requires AllSpace(w1) && AllSpace(w2) && AllSpace(w3) && AllSpace(w4)
    ensures ToDate(letters, Written(Pad(4, t.y) + [s1] + m + [s2] + d)) == Some(Iso(t))
    ensures ToDate(letters, Written(d + [s1] + m + [s2] + Pad(4, t.y))) == Some(Iso(t))
    ensures ToDate(letters, Written(d + w1 + THANG + w2 + m + w3 + NAM + w4 + Pad(4, t.y))) == Some(Iso(t))
  {
    var y := Pad(4, t.y);
    PrintsShort(d, t.d);
    PrintsShort(m, t.m);
    IsoShape(t);
    assert MkRead(y, m, d) == Some(Iso(t));
    LowerWords();
    hide ToDate, Iso, Lower, Pad, Prints, AllDigits, AllSpace, MkRead, Apart;
    NothingApart(letters);
    IsoInverted(letters, [], y, s1, m, s2, d, []);
    assert [] + (y + [s1] + m + [s2] + d) + [] == y + [s1] + m + [s2] + d;
    DmyInverted(letters, [], d, s1, m, s2, y, []);
    assert [] + (d + [s1] + m + [s2] + y) + [] == d + [s1] + m + [s2] + y;
    VietnameseInverted(letters, [], d, w1, THANG, w2, m, w3, NAM, w4, y, []);
    var vn := d + w1 + THANG + w2 + m + w3 + NAM + w4 + y;
    assert [] + vn + [] == vn;
  }

  lemma NothingApart(letters: set<char>)
    ensures Quiet(Lower([])) && LeadsIn(Lower([])) && Apart(letters, Last(None, [])) && Apart(letters, First([]))
  {}

  lemma LowerWords()
    ensures Lower(THANG) == THANG && Lower(NAM) == NAM
  {}
}
