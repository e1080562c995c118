/** Strings as the program compares and prints them: lexicographic order on code
    points, decimal numerals, and numerals zero-padded to a minimum width. */
module Text {

  // ---------------------------------------------------------------- order

  /** Python's `<` on strings. */
  predicate Less(a: string, b: string) {
    b != [] && (a == [] || a[0] < b[0] || (a[0] == b[0] && Less(a[1..], b[1..])))
  }

  lemma {:induction false} LessIrreflexive(a: string)
    ensures !Less(a, a)
  {
    if a != [] { LessIrreflexive(a[1..]); }
  }

  lemma {:induction false} LessTransitive(a: string, b: string, c: string)
    requires Less(a, b) && Less(b, c)
    ensures Less(a, c)
  {
    if a != [] && a[0] == b[0] && b[0] == c[0] { LessTransitive(a[1..], b[1..], c[1..]); }
  }

  lemma {:induction false} LessTotal(a: string, b: string)
    ensures Less(a, b) || a == b || Less(b, a)
  {
    if a != [] && b != [] && a[0] == b[0] {
      LessTotal(a[1..], b[1..]);
      assert a == [a[0]] + a[1..] && b == [b[0]] + b[1..];
    }
  }

  /** Two texts of equal length decide the order unless they are equal. */
  lemma {:induction false} LessAppend(a: string, b: string, x: string, y: string)
    requires |a| == |b|
    ensures Less(a + x, b + y) <==> Less(a, b) || (a == b && Less(x, y))
  {
    if a == [] {
      assert a + x == x && b + y == y;
    } else {
      assert (a + x)[1..] == a[1..] + x && (b + y)[1..] == b[1..] + y;
      assert (a == b) == (a[0] == b[0] && a[1..] == b[1..]) by {
        assert a == [a[0]] + a[1..] && b == [b[0]] + b[1..];
      }
      LessAppend(a[1..], b[1..], x, y);
    }
  }

  // ------------------------------------------------------------- numerals

  predicate IsDigit(c: char) { '0' <= c <= '9' }

  predicate AllDigits(s: string) { forall i | 0 <= i < |s| :: IsDigit(s[i]) }

  function DigitChar(d: nat): char
    requires d < 10
  { ('0' as int + d) as char }

  function DigitValue(c: char): nat
    requires IsDigit(c)
  { c as int - '0' as int }

  function Pow10(k: nat): nat { if k == 0 then 1 else 10 * Pow10(k - 1) }

  /** `str(n)` */
  function Show(n: nat): (s: string)
    ensures s != [] && AllDigits(s)
  {
    if n < 10 then [DigitChar(n)] else Show(n / 10) + [DigitChar(n % 10)]
  }

  /** `int(s)` on a text of digits */
  function Read(s: string): nat
    requires AllDigits(s)
  {
    if s == [] then 0 else Read(s[..|s| - 1]) * 10 + DigitValue(s[|s| - 1])
  }

  /** `f"{n:0{width}d}"` */
  function Pad(width: nat, n: nat): (s: string)
    ensures AllDigits(s)
    decreases width
  {
    if width <= |Show(n)| then Show(n) else "0" + Pad(width - 1, n)
  }

  lemma {:induction false} Pow10Add(a: nat, b: nat)
    ensures Pow10(a + b) == Pow10(a) * Pow10(b)
  {
    if a > 0 { Pow10Add(a - 1, b); }
  }

  lemma {:induction false} Pow10Positive(k: nat)
    ensures Pow10(k) >= 1
  {
    if k > 0 { Pow10Positive(k - 1); }
  }

  lemma {:induction false} ReadAppend(a: string, b: string)
    requires AllDigits(a) && AllDigits(b)
    ensures AllDigits(a + b) && Read(a + b) == Read(a) * Pow10(|b|) + Read(b)
  {
    if b == [] {
      assert a + b == a;
    } else {
      var c := b[..|b| - 1];
      assert (a + b)[..|a + b| - 1] == a + c;
      ReadAppend(a, c);
      assert Pow10(|b|) == 10 * Pow10(|c|);
      hide Read, Pow10;
      TenTimes(Read(a), Pow10(|c|));
    }
  }

  lemma TenTimes(x: nat, p: nat)
    ensures x * (10 * p) == 10 * (x * p)
  {}

  lemma {:induction false} ReadBound(s: string)
    requires AllDigits(s)
    ensures Read(s) < Pow10(|s|)
  {
    if s != [] { ReadBound(s[..|s| - 1]); }
  }

  lemma {:induction false} ReadShow(n: nat)
    ensures Read(Show(n)) == n
  {
    if n >= 10 {
      ReadShow(n / 10);
      assert Show(n)[..|Show(n)| - 1] == Show(n / 10);
    }
  }

  lemma {:induction false} PadShape(width: nat, n: nat)
    ensures |Pad(width, n)| == if width <= |Show(n)| then |Show(n)| else width
    ensures Read(Pad(width, n)) == n
    decreases width
  {
    if width <= |Show(n)| {
      ReadShow(n);
    } else {
      PadShape(width - 1, n);
      ReadAppend("0", Pad(width - 1, n));
      assert Read("0") == 0;
      hide Read, Show, Pow10;
    }
  }

  /** A number prints in at most `k` digits exactly when it is below 10^k. */
  lemma {:induction false} ShowLength(n: nat, k: nat)
    requires k > 0
    ensures |Show(n)| <= k <==> n < Pow10(k)
    decreases k
  {
    if k == 1 {
      assert Pow10(1) == 10 * Pow10(0);
    } else if n < 10 {
      Pow10Positive(k - 1);
    } else {
      ShowLength(n / 10, k - 1);
    }
  }

  lemma ShowLengthMonotone(a: nat, b: nat)
    requires a <= b
    ensures |Show(a)| <= |Show(b)|
  {
    ShowLength(b, |Show(b)|);
    ShowLength(a, |Show(b)|);
  }

  /** Numerals of equal length compare as the numbers they print. */
  lemma {:induction false} NumeralOrder(a: string, b: string)
    requires AllDigits(a) && AllDigits(b) && |a| == |b|
    ensures Less(a, b) <==> Read(a) < Read(b)
  {
    if a != [] {
      var x, y := a[1..], b[1..];
      var p := Pow10(|x|);
      assert a == [a[0]] + x && b == [b[0]] + y;
      ReadAppend([a[0]], x);
      ReadAppend([b[0]], y);
      var u, v := DigitValue(a[0]), DigitValue(b[0]);
      assert Read([a[0]]) == u && Read([b[0]]) == v;
      assert Read(a) == u * p + Read(x) && Read(b) == v * p + Read(y);
      ReadBound(x);
      ReadBound(y);
      if u < v {
        Scaled(u, v, p);
      } else if v < u {
        Scaled(v, u, p);
      } else {
        NumeralOrder(x, y);
      }
    }
  }

  lemma {:induction false} Scaled(u: nat, v: nat, p: nat)
    requires u < v
    ensures u * p + p <= v * p
  {
    assert v * p == (v - 1) * p + p;
    if u < v - 1 { Scaled(u, v - 1, p); }
  }

  /** Padded numerals of equal printed width order as their numbers, whatever follows. */
  lemma PadOrder(width: nat, a: nat, b: nat, x: string, y: string)
    requires a < b && |Pad(width, a)| == |Pad(width, b)|
    ensures Less(Pad(width, a) + x, Pad(width, b) + y)
  {
    PadShape(width, a);
    PadShape(width, b);
    NumeralOrder(Pad(width, a), Pad(width, b));
    LessAppend(Pad(width, a), Pad(width, b), x, y);
  }

  lemma PadInjective(width: nat, a: nat, b: nat)
    requires Pad(width, a) == Pad(width, b)
    ensures a == b
  {
    PadShape(width, a);
    PadShape(width, b);
  }

  lemma {:induction false} ShowPower(k: nat)
    ensures Show(Pow10(k))[0] == '1'
    ensures k > 0 ==> Show(Pow10(k) - 1)[0] == '9'
    ensures |Show(Pow10(k))| == k + 1
  {
    if k > 0 {
      Pow10Positive(k - 1);
      ShowPower(k - 1);
      assert Pow10(k) / 10 == Pow10(k - 1);
      if k > 1 {
        Pow10Positive(k - 2);
        assert (Pow10(k) - 1) / 10 == Pow10(k - 1) - 1;
      }
    }
  }

  /** A counter's successor sorts after it exactly when printing it needs no more room
      than the padding or the counter already takes. */
  lemma PadSuccessor(width: nat, n: nat, x: string, y: string)
    requires width > 0
    ensures Less(Pad(width, n) + x, Pad(width, n + 1) + y)
            <==> n + 1 < Pow10(width) || |Show(n)| == |Show(n + 1)|
  {
    PadShape(width, n);
    PadShape(width, n + 1);
    ShowLength(n + 1, width);
    ShowLengthMonotone(n, n + 1);
    if |Pad(width, n)| == |Pad(width, n + 1)| {
      PadOrder(width, n, n + 1, x, y);
      if |Show(n)| != |Show(n + 1)| { assert |Show(n)| < |Show(n + 1)|; }
    } else {
      var k := |Show(n)|;
      ShowLength(n, k);
      ShowLength(n + 1, k);
      assert n + 1 == Pow10(k);
      ShowPower(k);
      assert k >= width;
      assert (Pad(width, n) + x)[0] == '9' && (Pad(width, n + 1) + y)[0] == '1';
    }
  }

  // ------------------------------------------------------ signed numerals

  /** `str(i)` for any integer */
  function ShowInt(i: int): string { if i < 0 then "-" + Show(-i) else Show(i) }

  /** `int(s)` on a text that `ShowInt` can produce */
  function ReadInt(s: string): int
    requires s != [] && AllDigits(s[1..]) && (IsDigit(s[0]) || s[0] == '-')
  {
    if s[0] == '-' then -(Read(s[1..]) as int) else Read(s) as int
  }

  lemma ReadShowInt(i: int)
    ensures var s := ShowInt(i);
            s != [] && AllDigits(s[1..]) && (IsDigit(s[0]) || s[0] == '-') && ReadInt(s) == i
    ensures ':' !in ShowInt(i)
  {
    ReadShow(if i < 0 then -i else i);
    if i < 0 { assert ShowInt(i)[1..] == Show(-i); }
  }
}
