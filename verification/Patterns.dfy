/** Python's `re` on the patterns the date parser uses: a sequence of items, each taking as
    much as lets the rest match, tried from the leftmost place. */
module Patterns {
  import opened Lexing
  import opened Options
  import opened Text

  datatype Item =
    | Digits(lo: nat, hi: nat)   // a group: (\d{lo,hi})
    | Spaces                     // \s*
    | Literal(word: string)
    | OneOf(chars: set<char>)
    | Boundary                   // \b

  /** `\w`, given the word characters beyond ASCII. */
  predicate IsWord(letters: set<char>, c: char) {
    IsDigit(c) || 'a' <= c <= 'z' || 'A' <= c <= 'Z' || c == '_' || (c as int >= 0x80 && c in letters)
  }

  predicate WordAt(letters: set<char>, c: Option<char>) { c.Some? && IsWord(letters, c.value) }

  function First(t: string): Option<char> { if t == [] then None else Some(t[0]) }

  /** The character before what follows `taken`. */
  function Last(prev: Option<char>, taken: string): Option<char> {
    if taken == [] then prev else Some(taken[|taken| - 1])
  }

  /** Whether the item can take the first `k` characters of `t`. */
  predicate Fits(letters: set<char>, prev: Option<char>, t: string, item: Item, k: nat)
    requires k <= |t|
  {
    match item
    case Digits(lo, hi) => lo <= k <= hi && AllDigits(t[..k])
    case Spaces => AllSpace(t[..k])
    case Literal(word) => t[..k] == word
    case OneOf(chars) => k == 1 && t[0] in chars
    case Boundary => k == 0 && WordAt(letters, prev) != WordAt(letters, First(t))
  }

  function Captured(item: Item, taken: string): seq<string> { if item.Digits? then [taken] else [] }

  function Arity(p: seq<Item>): nat {
    if p == [] then 0 else (if p[0].Digits? then 1 else 0) + Arity(p[1..])
  }

  predicate AllNumerals(g: seq<string>) { forall k | 0 <= k < |g| :: AllDigits(g[k]) }

  /** The groups of the pattern matched at the start of `t`, which follows `prev`. */
  function Match(letters: set<char>, prev: Option<char>, t: string, p: seq<Item>): (r: Option<seq<string>>)
    ensures r.Some? ==> |r.value| == Arity(p) && AllNumerals(r.value)
    decreases |p|, |t| + 2
  {
    if p == [] then Some([]) else Try(letters, prev, t, p, |t|)
  }

  /** Backtracking: the first item takes `k` characters, or fewer. */
  function Try(letters: set<char>, prev: Option<char>, t: string, p: seq<Item>, k: nat): (r: Option<seq<string>>)
    requires p != [] && k <= |t|
    ensures r.Some? ==> |r.value| == Arity(p) && AllNumerals(r.value)
    decreases |p|, k + 1
  {
    var rest := Rest(letters, prev, t, p, k);
    if rest.Some? then Some(Captured(p[0], t[..k]) + rest.value)
    else if k == 0 then None
    else Try(letters, prev, t, p, k - 1)
  }

  function Rest(letters: set<char>, prev: Option<char>, t: string, p: seq<Item>, k: nat): (r: Option<seq<string>>)
    requires p != [] && k <= |t|
    ensures r.Some? ==> Fits(letters, prev, t, p[0], k) && |r.value| == Arity(p[1..]) && AllNumerals(r.value)
    decreases |p|, 0
  {
    if Fits(letters, prev, t, p[0], k) then Match(letters, Last(prev, t[..k]), t[k..], p[1..]) else None
  }

  /** `re.search`: the groups of the leftmost match. */
  function Search(letters: set<char>, prev: Option<char>, t: string, p: seq<Item>): (r: Option<seq<string>>)
    ensures r.Some? ==> |r.value| == Arity(p) && AllNumerals(r.value)
    decreases |t|
  {
    var here := Match(letters, prev, t, p);
    if here.Some? || t == [] then here else Search(letters, Some(t[0]), t[1..], p)
  }

  // ---------------------------------------------------- what a match means

  /** `t` starts with pieces of the lengths `ks` that fit the items one by one. */
  predicate Reads(letters: set<char>, prev: Option<char>, t: string, p: seq<Item>, ks: seq<nat>)
    decreases |p|
  {
    if p == [] || ks == [] then p == [] && ks == []
    else
      && ks[0] <= |t| && Fits(letters, prev, t, p[0], ks[0])
      && Reads(letters, Last(prev, t[..ks[0]]), t[ks[0]..], p[1..], ks[1..])
  }

  function Groups(t: string, p: seq<Item>, ks: seq<nat>): seq<string>
    decreases |p|
  {
    if p == [] || ks == [] || ks[0] > |t| then []
    else Captured(p[0], t[..ks[0]]) + Groups(t[ks[0]..], p[1..], ks[1..])
  }

  /** The lengths the matcher settles on. */
  function Lengths(letters: set<char>, prev: Option<char>, t: string, p: seq<Item>): seq<nat>
    decreases |p|, |t| + 1
  {
    if p == [] then [] else TryLengths(letters, prev, t, p, |t|)
  }

  function TryLengths(letters: set<char>, prev: Option<char>, t: string, p: seq<Item>, k: nat): seq<nat>
    requires p != [] && k <= |t|
    decreases |p|, k
  {
    if k == 0 || Rest(letters, prev, t, p, k).Some?
    then [k] + Lengths(letters, Last(prev, t[..k]), t[k..], p[1..])
    else TryLengths(letters, prev, t, p, k - 1)
  }

  /** A match found is a reading, and its groups are that reading's. */
  lemma {:induction false} MatchReads(letters: set<char>, prev: Option<char>, t: string, p: seq<Item>)
    requires Match(letters, prev, t, p).Some?
    ensures Reads(letters, prev, t, p, Lengths(letters, prev, t, p))
    ensures Match(letters, prev, t, p).value == Groups(t, p, Lengths(letters, prev, t, p))
    decreases |p|, |t| + 1
  {
    if p != [] { TryReads(letters, prev, t, p, |t|); }
  }

  lemma {:induction false} TryReads(letters: set<char>, prev: Option<char>, t: string, p: seq<Item>, k: nat)
    requires p != [] && k <= |t| && Try(letters, prev, t, p, k).Some?
    ensures Reads(letters, prev, t, p, TryLengths(letters, prev, t, p, k))
    ensures Try(letters, prev, t, p, k).value == Groups(t, p, TryLengths(letters, prev, t, p, k))
    decreases |p|, k
  {
    if Rest(letters, prev, t, p, k).Some? {
      hide Fits;
      var ks := Lengths(letters, Last(prev, t[..k]), t[k..], p[1..]);
      MatchReads(letters, Last(prev, t[..k]), t[k..], p[1..]);
      assert TryLengths(letters, prev, t, p, k) == [k] + ks;
      assert ([k] + ks)[1..] == ks;
    } else {
      TryReads(letters, prev, t, p, k - 1);
    }
  }

  /** Where a reading exists, a match is found. */
  lemma {:induction false} ReadsMatch(letters: set<char>, prev: Option<char>, t: string, p: seq<Item>, ks: seq<nat>)
    requires Reads(letters, prev, t, p, ks)
    ensures Match(letters, prev, t, p).Some?
    decreases |p|
  {
    if p != [] {
      ReadsMatch(letters, Last(prev, t[..ks[0]]), t[ks[0]..], p[1..], ks[1..]);
      TryFinds(letters, prev, t, p, ks[0], |t|);
    }
  }

  lemma {:induction false} TryFinds(letters: set<char>, prev: Option<char>, t: string, p: seq<Item>, k: nat, from: nat)
    requires p != [] && k <= from <= |t| && Rest(letters, prev, t, p, k).Some?
    ensures Try(letters, prev, t, p, from).Some?
    decreases from
  {
    if k < from { TryFinds(letters, prev, t, p, k, from - 1); }
  }

  /** The pattern matches here exactly when some reading exists. */
  lemma MatchIff(letters: set<char>, prev: Option<char>, t: string, p: seq<Item>)
    ensures Match(letters, prev, t, p).Some? <==> exists ks: seq<nat> :: Reads(letters, prev, t, p, ks)
  {
    hide Match, Reads;
    if Match(letters, prev, t, p).Some? {
      MatchReads(letters, prev, t, p);
      var ks: seq<nat> := Lengths(letters, prev, t, p);
      assert Reads(letters, prev, t, p, ks);
      assert exists ks: seq<nat> :: Reads(letters, prev, t, p, ks);
    }
    forall ks: seq<nat> | Reads(letters, prev, t, p, ks) ensures Match(letters, prev, t, p).Some? {
      ReadsMatch(letters, prev, t, p, ks);
    }
  }

  // ----------------------------------------------------- following a match

  /** An item takes `k` characters when the rest then matches and it fits nothing longer. */
  lemma {:induction false} TakesLongest(letters: set<char>, prev: Option<char>, t: string, p: seq<Item>, k: nat, from: nat)
    requires p != [] && k <= from <= |t| && Rest(letters, prev, t, p, k).Some?
    requires forall j :: k < j <= |t| ==> !Fits(letters, prev, t, p[0], j)
    ensures Try(letters, prev, t, p, from) == Some(Captured(p[0], t[..k]) + Rest(letters, prev, t, p, k).value)
    decreases from
  {
    if k < from {
      assert !Fits(letters, prev, t, p[0], from);
      TakesLongest(letters, prev, t, p, k, from - 1);
    }
  }

  /** One step of a match: the first item takes exactly `token`. */
  lemma Step(letters: set<char>, prev: Option<char>, token: string, t: string, item: Item, p: seq<Item>)
    requires Fits(letters, prev, token + t, item, |token|)
    requires forall j :: |token| < j <= |token + t| ==> !Fits(letters, prev, token + t, item, j)
    requires Match(letters, Last(prev, token), t, p).Some?
    ensures Match(letters, prev, token + t, [item] + p)
         == Some(Captured(item, token) + Match(letters, Last(prev, token), t, p).value)
  {
    var s := token + t;
    hide Fits, Match;
    assert s[..|token|] == token && s[|token|..] == t && ([item] + p)[1..] == p;
    TakesLongest(letters, prev, s, [item] + p, |token|, |s|);
    MatchTries(letters, prev, s, [item] + p);
  }

  lemma MatchTries(letters: set<char>, prev: Option<char>, t: string, p: seq<Item>)
    requires p != []
    ensures Match(letters, prev, t, p) == Try(letters, prev, t, p, |t|)
  {}

  lemma StepDigits(letters: set<char>, prev: Option<char>, token: string, t: string, lo: nat, hi: nat, p: seq<Item>)
    requires AllDigits(token) && lo <= |token| <= hi
    requires |token| == hi || t == [] || !IsDigit(t[0])
    requires Match(letters, Last(prev, token), t, p).Some?
    ensures Match(letters, prev, token + t, [Digits(lo, hi)] + p)
         == Some([token] + Match(letters, Last(prev, token), t, p).value)
  {
    hide Match;
    var s := token + t;
    assert s[..|token|] == token;
    forall j | |token| < j <= |s| ensures !Fits(letters, prev, s, Digits(lo, hi), j) {
      assert s[..j][|token|] == t[0];
    }
    Step(letters, prev, token, t, Digits(lo, hi), p);
  }

  lemma StepSpaces(letters: set<char>, prev: Option<char>, token: string, t: string, p: seq<Item>)
    requires AllSpace(token) && (t == [] || !IsSpace(t[0]))
    requires Match(letters, Last(prev, token), t, p).Some?
    ensures Match(letters, prev, token + t, [Spaces] + p) == Match(letters, Last(prev, token), t, p)
  {
    hide Match, IsSpace;
    var s := token + t;
    assert s[..|token|] == token;
    forall j | |token| < j <= |s| ensures !Fits(letters, prev, s, Spaces, j) {
      assert s[..j][|token|] == t[0];
    }
    Step(letters, prev, token, t, Spaces, p);
    assert [] + Match(letters, Last(prev, token), t, p).value == Match(letters, Last(prev, token), t, p).value;
  }

  lemma StepWord(letters: set<char>, prev: Option<char>, word: string, t: string, p: seq<Item>)
    requires Match(letters, Last(prev, word), t, p).Some?
    ensures Match(letters, prev, word + t, [Literal(word)] + p) == Match(letters, Last(prev, word), t, p)
  {
    hide Match;
    var s := word + t;
    assert s[..|word|] == word;
    forall j | |word| < j <= |s| ensures !Fits(letters, prev, s, Literal(word), j) { assert |s[..j]| == j; }
    Step(letters, prev, word, t, Literal(word), p);
    assert [] + Match(letters, Last(prev, word), t, p).value == Match(letters, Last(prev, word), t, p).value;
  }

  lemma StepOneOf(letters: set<char>, prev: Option<char>, c: char, t: string, chars: set<char>, p: seq<Item>)
    requires c in chars && Match(letters, Some(c), t, p).Some?
    ensures Match(letters, prev, [c] + t, [OneOf(chars)] + p) == Match(letters, Some(c), t, p)
  {
    hide Match;
    assert Last(prev, [c]) == Some(c);
    Step(letters, prev, [c], t, OneOf(chars), p);
    assert [] + Match(letters, Some(c), t, p).value == Match(letters, Some(c), t, p).value;
  }

  lemma StepBoundary(letters: set<char>, prev: Option<char>, t: string, p: seq<Item>)
    requires WordAt(letters, prev) != WordAt(letters, First(t))
    requires Match(letters, prev, t, p).Some?
    ensures Match(letters, prev, t, [Boundary] + p) == Match(letters, prev, t, p)
  {
    hide Match, WordAt;
    assert [] + t == t;
    Step(letters, prev, [], t, Boundary, p);
    assert [] + Match(letters, prev, t, p).value == Match(letters, prev, t, p).value;
  }

  /** A search passes over a prefix where nothing matches. */
  lemma {:induction false} SearchSkips(letters: set<char>, prev: Option<char>, before: string, t: string, p: seq<Item>)
    requires forall k :: 0 <= k < |before| ==> Match(letters, Last(prev, before[..k]), before[k..] + t, p).None?
    requires Match(letters, Last(prev, before), t, p).Some?
    ensures Search(letters, prev, before + t, p) == Match(letters, Last(prev, before), t, p)
    decreases |before|
  {
    hide Match;
    if before == [] {
      assert before + t == t;
    } else {
      var rest := before[1..];
      assert before[..0] == [] && before[0..] == before;
      assert (before + t)[1..] == rest + t && (before + t)[0] == before[0];
      forall k | 0 <= k < |rest| ensures Match(letters, Last(Some(before[0]), rest[..k]), rest[k..] + t, p).None? {
        assert rest[k..] == before[k + 1..] && before[..k + 1] == [before[0]] + rest[..k];
        assert Last(prev, before[..k + 1]) == Last(Some(before[0]), rest[..k]);
      }
      assert Last(prev, before) == Last(Some(before[0]), rest);
      SearchSkips(letters, Some(before[0]), rest, t, p);
    }
  }

  /** A search finds nothing when nothing matches at any place. */
  lemma {:induction false} SearchFails(letters: set<char>, prev: Option<char>, t: string, p: seq<Item>)
    requires forall k :: 0 <= k <= |t| ==> Match(letters, Last(prev, t[..k]), t[k..], p).None?
    ensures Search(letters, prev, t, p) == None
    decreases |t|
  {
    hide Match;
    assert t[..0] == [] && t[0..] == t;
    if t != [] {
      var rest := t[1..];
      forall k | 0 <= k <= |rest| ensures Match(letters, Last(Some(t[0]), rest[..k]), rest[k..], p).None? {
        assert rest[k..] == t[k + 1..] && t[..k + 1] == [t[0]] + rest[..k];
        assert Last(prev, t[..k + 1]) == Last(Some(t[0]), rest[..k]);
      }
      SearchFails(letters, Some(t[0]), rest, p);
    }
  }

  /** A search fails exactly when the pattern can be read at no place. */
  lemma {:induction false} SearchFailsIff(letters: set<char>, prev: Option<char>, t: string, p: seq<Item>)
    ensures Search(letters, prev, t, p) == None
        <==> forall k :: 0 <= k <= |t| ==> Match(letters, Last(prev, t[..k]), t[k..], p).None?
    decreases |t|
  {
    hide Match;
    assert t[..0] == [] && t[0..] == t;
    if Search(letters, prev, t, p) == None {
      forall k | 0 <= k <= |t| ensures Match(letters, Last(prev, t[..k]), t[k..], p).None? {
        if k > 0 {
          var rest := t[1..];
          SearchFailsIff(letters, Some(t[0]), rest, p);
          assert rest[k - 1..] == t[k..] && t[..k] == [t[0]] + rest[..k - 1];
          assert Last(prev, t[..k]) == Last(Some(t[0]), rest[..k - 1]);
        }
      }
    } else if forall k :: 0 <= k <= |t| ==> Match(letters, Last(prev, t[..k]), t[k..], p).None? {
      SearchFails(letters, prev, t, p);
    }
  }
}
