/** Zero-padded counters: channel versions (doci/workflows/checkpoint.py) and page locators
    (doci/documents/models.py), both compared as strings. */
module Versions {
  import opened Options
  import opened Text

  /** A channel's current version: none yet, a plain integer, or a version text. */
  datatype Version = NoVersion | Counter(n: nat) | Printed(s: string)

  /** `s.split(".")[0]` */
  function BeforeDot(s: string): string {
    if s == [] || s[0] == '.' then [] else [s[0]] + BeforeDot(s[1..])
  }

  function VersionText(n: nat, suffix: string): string { Pad(32, n) + "." + suffix }

  /** `get_next_version` with the random suffix it drew; a text whose counter is not a
      decimal numeral is refused. */
  function NextVersion(current: Version, suffix: string): Option<string> {
    match current
    case NoVersion => Some(VersionText(1, suffix))
    case Counter(n) => Some(VersionText(n + 1, suffix))
    case Printed(s) =>
      var head := BeforeDot(s);
      if head == "" || !AllDigits(head) then None else Some(VersionText(Read(head) + 1, suffix))
  }

  lemma {:induction false} BeforeDotOf(a: string, b: string)
    requires '.' !in a
    ensures BeforeDot(a + "." + b) == a
  {
    if a == [] {
      assert a + "." + b == "." + b;
    } else {
      assert (a + "." + b)[1..] == a[1..] + "." + b;
      BeforeDotOf(a[1..], b);
    }
  }

  /** The counter is read back from the text, whatever the suffix, and grows by one in 32
      digits; a plain integer grows alike, and no version counts as zero. */
  lemma NextOfPrinted(n: nat, suffix: string, suffix': string)
    ensures NextVersion(Printed(VersionText(n, suffix)), suffix') == Some(VersionText(n + 1, suffix'))
    ensures NextVersion(Printed(Pad(32, n) + "." + suffix), suffix') == Some(Pad(32, n + 1) + "." + suffix')
    ensures NextVersion(Counter(n), suffix') == Some(Pad(32, n + 1) + "." + suffix')
    ensures NextVersion(NoVersion, suffix') == Some(Pad(32, 1) + "." + suffix')
  {
    PadShape(32, n);
    BeforeDotOf(Pad(32, n), suffix);
    assert Pad(32, n) != "";
  }

  /** The next version is strictly greater as a string, for every two suffixes, exactly while
      the counter prints in the padding (or its successor prints no longer). */
  lemma NextIsGreaterIff(n: nat, suffix: string, suffix': string)
    ensures NextVersion(Printed(VersionText(n, suffix)), suffix').Some?
    ensures Less(VersionText(n, suffix), NextVersion(Printed(VersionText(n, suffix)), suffix').value)
            <==> n + 1 < Pow10(32) || |Show(n)| == |Show(n + 1)|
  {
    NextOfPrinted(n, suffix, suffix');
    hide Pow10, Show, Pad, NextVersion;
    assert forall k: nat, s: string :: VersionText(k, s) == Pad(32, k) + ("." + s);
    PadSuccessor(32, n, "." + suffix, "." + suffix');
  }

  /** Calls chained from no version, one per suffix. */
  function Chain(suffixes: seq<string>): Version {
    if suffixes == [] then NoVersion
    else
      match NextVersion(Chain(suffixes[..|suffixes| - 1]), suffixes[|suffixes| - 1])
      case None => NoVersion
      case Some(s) => Printed(s)
  }

  /** After n calls the counter is n. */
  lemma {:induction false} ChainCounts(suffixes: seq<string>)
    requires suffixes != []
    ensures Chain(suffixes) == Printed(VersionText(|suffixes|, suffixes[|suffixes| - 1]))
  {
    var n := |suffixes| - 1;
    if n > 0 {
      ChainCounts(suffixes[..n]);
      NextOfPrinted(n, suffixes[n - 1], suffixes[n]);
    }
    hide VersionText;
  }

  /** Along such a chain, versions order as their positions. */
  lemma ChainOrdered(suffixes: seq<string>, i: nat, j: nat)
    requires 0 < i < j <= |suffixes| < Pow10(32)
    ensures Chain(suffixes[..i]).Printed? && Chain(suffixes[..j]).Printed?
         && Less(Chain(suffixes[..i]).s, Chain(suffixes[..j]).s)
  {
    hide Chain, Pow10, VersionText, Less;
    ChainCounts(suffixes[..i]);
    ChainCounts(suffixes[..j]);
    VersionOrder(i, j, suffixes[i - 1], suffixes[j - 1]);
  }

  lemma VersionOrder(i: nat, j: nat, x: string, y: string)
    requires i < j < Pow10(32)
    ensures Less(VersionText(i, x), VersionText(j, y))
  {
    assert VersionText(i, x) == Pad(32, i) + ("." + x) && VersionText(j, y) == Pad(32, j) + ("." + y);
    hide Pow10, Show, Pad, Less, VersionText, Read;
    PadShape(32, i);
    PadShape(32, j);
    ShowLength(i, 32);
    ShowLength(j, 32);
    PadOrder(32, i, j, "." + x, "." + y);
  }

  // ------------------------------------------------------------------ pages

  /** `page_locator` */
  function PageLocator(page: nat): string { "p" + Pad(5, page) }

  /** Locators of different pages differ. */
  lemma PageLocatorInjective(a: nat, b: nat)
    requires PageLocator(a) == PageLocator(b)
    ensures a == b
  {
    assert Pad(5, a) == PageLocator(a)[1..] && Pad(5, b) == PageLocator(b)[1..];
    PadInjective(5, a, b);
  }

  /** Up to five digits, locators sort in page order. */
  lemma PageLocatorOrder(a: nat, b: nat)
    requires a < 100000 && b < 100000
    ensures Less(PageLocator(a), PageLocator(b)) <==> a < b
  {
    FiveDigits();
    forall x: nat, y: nat | x < y < 100000 ensures Less(PageLocator(x), PageLocator(y)) {
      ShowLength(x, 5);
      ShowLength(y, 5);
      PadShape(5, x);
      PadShape(5, y);
      PadOrder(5, x, y, "", "");
      assert Pad(5, x) + "" == Pad(5, x) && Pad(5, y) + "" == Pad(5, y);
      LessAppend("p", "p", Pad(5, x), Pad(5, y));
    }
    LessIrreflexive(PageLocator(a));
    if b < a && Less(PageLocator(a), PageLocator(b)) {
      LessTransitive(PageLocator(a), PageLocator(b), PageLocator(a));
    }
  }

  /** The next page's locator sorts after a page's exactly while it needs no more digits. */
  lemma NextPageSortsIff(page: nat)
    ensures Less(PageLocator(page), PageLocator(page + 1))
            <==> page + 1 < 100000 || |Show(page)| == |Show(page + 1)|
  {
    FiveDigits();
    PadSuccessor(5, page, "", "");
    assert Pad(5, page) + "" == Pad(5, page) && Pad(5, page + 1) + "" == Pad(5, page + 1);
    LessIrreflexive("p");
    LessAppend("p", "p", Pad(5, page), Pad(5, page + 1));
  }

  lemma FiveDigits()
    ensures Pow10(5) == 100000
  {
    assert Pow10(2) == 100 && Pow10(3) == 10 * Pow10(2) && Pow10(4) == 10 * Pow10(3);
  }
}
