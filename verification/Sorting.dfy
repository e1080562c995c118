/** Python's `sorted` on lists whose keys are all different. */
module Sorting {

  /** `less` is a strict order. */
  ghost predicate Strict<T(!new)>(less: (T, T) -> bool) {
    && (forall x :: !less(x, x))
    && (forall x, y, z :: less(x, y) && less(y, z) ==> less(x, z))
  }

  /** Any two different members of `s` compare. */
  ghost predicate Comparable<T(!new)>(less: (T, T) -> bool, s: seq<T>) {
    forall x, y :: x in s && y in s && x != y ==> less(x, y) || less(y, x)
  }

  ghost predicate Ascending<T(!new)>(less: (T, T) -> bool, s: seq<T>) {
    forall i, j :: 0 <= i < j < |s| ==> less(s[i], s[j])
  }

  ghost predicate Distinct<T(!new)>(s: seq<T>) {
    forall i, j :: 0 <= i < j < |s| ==> s[i] != s[j]
  }

  ghost predicate SameMembers<T(!new)>(a: seq<T>, b: seq<T>) { forall x :: x in a <==> x in b }

  function Insert<T>(less: (T, T) -> bool, x: T, s: seq<T>): seq<T> {
    if s == [] || less(x, s[0]) then [x] + s else [s[0]] + Insert(less, x, s[1..])
  }

  function Sort<T>(less: (T, T) -> bool, s: seq<T>): seq<T> {
    if s == [] then [] else Insert(less, s[0], Sort(less, s[1..]))
  }

  lemma {:induction false} InsertMembers<T(!new)>(less: (T, T) -> bool, x: T, s: seq<T>)
    ensures forall y :: y in Insert(less, x, s) <==> y == x || y in s
  {
    if s != [] && !less(x, s[0]) {
      InsertMembers(less, x, s[1..]);
      assert s == [s[0]] + s[1..];
    }
  }

  lemma {:induction false} InsertAscending<T(!new)>(less: (T, T) -> bool, x: T, s: seq<T>)
    requires Strict(less) && Ascending(less, s) && x !in s
    requires forall y :: y in s ==> less(x, y) || less(y, x)
    ensures Ascending(less, Insert(less, x, s))
  {
    if s != [] {
      if less(x, s[0]) {
        assert forall j :: 0 < j < |s| ==> less(s[0], s[j]);
      } else {
        var rest := Insert(less, x, s[1..]);
        InsertAscending(less, x, s[1..]);
        InsertMembers(less, x, s[1..]);
        forall j | 0 <= j < |rest| ensures less(s[0], rest[j]) {
          assert rest[j] in rest;
          if rest[j] != x {
            var k :| 0 <= k < |s[1..]| && s[1..][k] == rest[j];
          } else {
            assert s[0] in s;
          }
        }
      }
    }
  }

  /** Sorting distinct comparable members yields them, each once, in ascending order. */
  lemma {:induction false} SortSorts<T(!new)>(less: (T, T) -> bool, s: seq<T>)
    requires Strict(less) && Comparable(less, s) && Distinct(s)
    ensures SameMembers(Sort(less, s), s) && Ascending(less, Sort(less, s))
  {
    if s != [] {
      var t := s[1..];
      assert forall x :: x in t ==> x in s;
      assert forall j :: 0 <= j < |t| ==> t[j] == s[j + 1] != s[0];
      SortSorts(less, t);
      assert s[0] !in t && s[0] in s;
      InsertMembers(less, s[0], Sort(less, t));
      assert s == [s[0]] + t;
      forall y | y in Sort(less, t) ensures less(s[0], y) || less(y, s[0]) { assert y in t; }
      InsertAscending(less, s[0], Sort(less, t));
    }
  }

  lemma HeadIsMember<T>(s: seq<T>)
    ensures s == [] || s[0] in s
  {}

  lemma HeadFirst<T(!new)>(less: (T, T) -> bool, s: seq<T>, k: nat)
    requires Ascending(less, s) && k < |s|
    ensures k > 0 ==> less(s[0], s[k])
  {}

  /** An ascending list is determined by its members. */
  lemma {:induction false} AscendingUnique<T(!new)>(less: (T, T) -> bool, a: seq<T>, b: seq<T>)
    requires Strict(less) && Ascending(less, a) && Ascending(less, b) && SameMembers(a, b)
    ensures a == b
  {
    HeadIsMember(b);
    if a != [] {
      var n := |a| - 1;
      assert a[n] in b;
      var m := |b| - 1;
      assert b[m] in a;
      var i :| 0 <= i <= m && b[i] == a[n];
      var j :| 0 <= j <= n && a[j] == b[m];
      assert a[n] == b[m];
      forall x ensures x in a[..n] <==> x in b[..m] {
        if x in a[..n] {
          var k :| 0 <= k < n && a[k] == x;
          assert x in a;
          var l :| 0 <= l <= m && b[l] == x;
        }
        if x in b[..m] {
          var k :| 0 <= k < m && b[k] == x;
          assert x in b;
          var l :| 0 <= l <= n && a[l] == x;
        }
      }
      AscendingUnique(less, a[..n], b[..m]);
      assert a == a[..n] + [a[n]] && b == b[..m] + [b[m]];
    }
  }

  lemma SortUnique<T(!new)>(less: (T, T) -> bool, s: seq<T>, t: seq<T>)
    requires Strict(less) && Comparable(less, s) && Distinct(s) && Distinct(t) && SameMembers(s, t)
    ensures Sort(less, s) == Sort(less, t)
  {
    SortSorts(less, s);
    SortSorts(less, t);
    AscendingUnique(less, Sort(less, s), Sort(less, t));
  }

  /** The members of `s`, each once, in some order. */
  ghost function Listing<T(!new)>(s: set<T>): (r: seq<T>)
    ensures Distinct(r) && forall x :: x in r <==> x in s
  {
    if s == {} then []
    else
      var x :| x in s;
      var rest := Listing(s - {x});
      [x] + rest
  }
}
