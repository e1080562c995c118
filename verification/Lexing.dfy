/** Python's whitespace and `str.strip`. */
module Lexing {

  /** `str.isspace` on one character, and `\s` */
  predicate IsSpace(c: char) {
    var u := c as int;
    || 0x09 <= u <= 0x0D || 0x1C <= u <= 0x20 || u == 0x85 || u == 0xA0 || u == 0x1680
    || 0x2000 <= u <= 0x200A || u == 0x2028 || u == 0x2029 || u == 0x202F || u == 0x205F || u == 0x3000
  }

  predicate AllSpace(s: string) { forall i | 0 <= i < |s| :: IsSpace(s[i]) }

  /** Where the text after the leading white space starts. */
  function LeftEdge(s: string): (k: nat)
    ensures k <= |s| && (k < |s| ==> !IsSpace(s[k]))
  {
    if s != [] && IsSpace(s[0]) then LeftEdge(s[1..]) + 1 else 0
  }

  /** Where the text before the trailing white space ends. */
  function RightEdge(s: string): (k: nat)
    ensures k <= |s| && (k > 0 ==> !IsSpace(s[k - 1]))
  {
    if s != [] && IsSpace(s[|s| - 1]) then RightEdge(s[..|s| - 1]) else |s|
  }

  function StripLeft(s: string): string { s[LeftEdge(s)..] }

  /** `s.strip()` */
  function Strip(s: string): string { StripLeft(s)[..RightEdge(StripLeft(s))] }

  lemma {:induction false} LeftSpaces(s: string)
    ensures AllSpace(s[..LeftEdge(s)])
  {
    if s != [] && IsSpace(s[0]) {
      LeftSpaces(s[1..]);
      var k := LeftEdge(s[1..]);
      hide IsSpace, LeftEdge;
      assert s[..k + 1] == [s[0]] + s[1..][..k];
    }
  }

  lemma {:induction false} RightSpaces(s: string)
    ensures AllSpace(s[RightEdge(s)..])
  {
    if s != [] && IsSpace(s[|s| - 1]) {
      var n := |s| - 1;
      RightSpaces(s[..n]);
      var k := RightEdge(s[..n]);
      hide IsSpace, RightEdge;
      assert s[k..] == s[..n][k..] + [s[n]];
    }
  }

  function Before(s: string): string { s[..LeftEdge(s)] }

  function After(s: string): string { StripLeft(s)[RightEdge(StripLeft(s))..] }

  /** Stripping takes white space off both ends, all of it and nothing else. */
  lemma StripIs(s: string)
    ensures s == Before(s) + Strip(s) + After(s) && AllSpace(Before(s)) && AllSpace(After(s))
    ensures Strip(s) != [] ==> !IsSpace(Strip(s)[0]) && !IsSpace(Strip(s)[|Strip(s)| - 1])
  {
    LeftSpaces(s);
    RightSpaces(StripLeft(s));
    hide IsSpace, AllSpace;
  }

  /** A text without white space at its ends is left alone. */
  lemma StripClean(s: string)
    requires s != [] ==> !IsSpace(s[0]) && !IsSpace(s[|s| - 1])
    ensures Strip(s) == s
  {
    hide IsSpace;
  }

  lemma FirstSpace(s: string)
    requires AllSpace(s) && s != []
    ensures IsSpace(s[0])
  {}

  /** The first character left is the first that is not white space. */
  lemma StripFirst(s: string)
    ensures StripLeft(s) == [] <==> AllSpace(s)
    ensures Strip(s) == [] <==> AllSpace(s)
    ensures !AllSpace(s) ==> Strip(s)[0] == StripLeft(s)[0]
  {
    var t := StripLeft(s);
    LeftSpaces(s);
    RightSpaces(t);
    hide IsSpace, LeftEdge, RightEdge;
    if t == [] {
      assert s[..LeftEdge(s)] == s;
    } else {
      assert t[0] == s[LeftEdge(s)];
      var rest := t[RightEdge(t)..];
      if rest != [] { FirstSpace(rest); }
    }
  }

  lemma {:induction false} StripLeftAppend(s: string, t: string)
    ensures StripLeft(s + t) == if AllSpace(s) then StripLeft(t) else StripLeft(s) + t
  {
    hide IsSpace;
    if s == [] {
      assert s + t == t;
    } else if IsSpace(s[0]) {
      assert (s + t)[1..] == s[1..] + t;
      StripLeftAppend(s[1..], t);
      assert s == [s[0]] + s[1..];
    }
  }

  lemma {:induction false} RightEdgeAppend(s: string, t: string)
    requires s != [] && !IsSpace(s[|s| - 1])
    ensures RightEdge(s + t) == |s| + RightEdge(t)
  {
    hide IsSpace;
    if t == [] {
      assert s + t == s;
    } else if IsSpace(t[|t| - 1]) {
      assert (s + t)[..|s + t| - 1] == s + t[..|t| - 1];
      RightEdgeAppend(s, t[..|t| - 1]);
    }
  }

  function StripRight(s: string): string { s[..RightEdge(s)] }

  /** Stripping leaves a text that starts and ends with something else than white space, and
      works on what stands before and after it. */
  lemma StripAround(before: string, body: string, after: string)
    requires body != [] && !IsSpace(body[0]) && !IsSpace(body[|body| - 1])
    ensures Strip(before + body + after) == StripLeft(before) + body + StripRight(after)
  {
    hide IsSpace, StripLeft, StripRight, Strip, AllSpace;
    var rest := body + after;
    var s := StripLeft(before) + body;
    assert before + body + after == before + rest;
    assert rest[0] == body[0] && s[|s| - 1] == body[|body| - 1];
    StripLeftAppend(before, rest);
    StripFirst(before);
    LeftClean(rest);
    assert StripLeft(before) + rest == s + after && [] + rest == rest;
    assert StripLeft(before + rest) == s + after;
    RightAround(s, after);
    Twice(before + rest);
  }

  lemma Twice(s: string)
    ensures Strip(s) == StripRight(StripLeft(s))
  {}

  lemma RightAround(s: string, t: string)
    requires s != [] && !IsSpace(s[|s| - 1])
    ensures StripRight(s + t) == s + StripRight(t)
  {
    hide IsSpace, RightEdge;
    RightEdgeAppend(s, t);
  }

  lemma LeftClean(s: string)
    requires s != [] && !IsSpace(s[0])
    ensures StripLeft(s) == s
  {
    hide IsSpace;
  }

  /** What is left of the text keeps its inner edge. */
  lemma EdgesStay(s: string)
    ensures StripLeft(s) != [] ==> s != [] && StripLeft(s)[|StripLeft(s)| - 1] == s[|s| - 1]
    ensures StripRight(s) != [] ==> s != [] && StripRight(s)[0] == s[0]
  {}
}
