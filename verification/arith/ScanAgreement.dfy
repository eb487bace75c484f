/** A decoder that reads a segment finds in it the items it was written for. */
module ScanAgreement {
  import opened Powers
  import opened CodeInterval
  import opened CoefficientModel
  import opened CoefficientDivergence
  import opened ScanModel
  import opened ScanReading

  /** Two different items of the same kind cannot be mistaken for each other, if a decoder can read one
      of them at all. */
  lemma ItemDiverges(s: Scan, p: Pred, k: Kind, x: Item, y: Item)
    requires HasKind(s, x, k) && HasKind(s, y, k) && x != y && Readable(s, p, x) && 1 <= FirstIndex(s)
    requires !k.DcKind? && !k.BitKind? ==> FirstIndex(s) <= s.se
    ensures Diverge(ItemRead(s, p, x), ItemRead(s, p, y))
  {
    match k
    case DcKind(ci) =>
      DcDiverges(DcTable(s, ci), ContextAt(p, ci), x.value - Predicted(p, ci), y.value - Predicted(p, ci));
    case AcKind(tbl) =>
      BandsDiffer(x.vals, y.vals, FirstIndex(s), s.se);
      AcDiverges(tbl, Cond(s, tbl), x.vals, y.vals, FirstIndex(s) - 1, s.se);
    case BitKind =>
    case RefineKind(tbl, prev) =>
      BandsDiffer(x.vals, y.vals, FirstIndex(s), s.se);
      RefinementDiverges(tbl, prev, x.vals, y.vals, FirstIndex(s) - 1, s.se);
  }

  lemma BandsDiffer(x: seq<int>, y: seq<int>, first: nat, se: nat)
    requires 1 <= first <= se && |x| == se + 1 && Spelled(y, se) && x != y
    requires forall j :: 0 <= j < first ==> x[j] == 0 && y[j] == 0
    ensures Differ(x, y, first - 1, se)
  {
    assert |y| == se + 1 ==> exists j :: 0 <= j <= se && x[j] != y[j];
  }

  lemma DivergePrefix(x0: seq<Decision>, y0: seq<Decision>, x: seq<Decision>, y: seq<Decision>)
    requires Diverge(x0, y0) && x0 <= x && y0 <= y
    ensures Diverge(x, y)
  {
    DivergeMore(x0, y0, x[|x0|..], y[|y0|..]);
    assert x == x0 + x[|x0|..] && y == y0 + y[|y0|..];
  }

  lemma {:induction false} CodePrefix(s: Scan, p: Pred, xs: seq<Item>, n: nat)
    requires n <= |xs|
    ensures ItemsCode(s, p, xs[..n]) <= ItemsCode(s, p, xs)
    decreases |xs|
  {
    if n < |xs| {
      var init := xs[..|xs| - 1];
      assert xs[..n] == init[..n];
      CodePrefix(s, p, init, n);
    } else {
      assert xs[..n] == xs;
    }
  }

  /** What is read of an item is where its code starts. */
  lemma ReadStartsCode(s: Scan, p: Pred, x: Item)
    ensures ItemRead(s, p, x) <= ItemCode(s, p, x)
    ensures Readable(s, p, x) ==> ItemRead(s, p, x) == ItemCode(s, p, x)
  {
    if x.DcItem? {
      DcReadStartsCode(DcTable(s, x.ci), ContextAt(p, x.ci), x.value - Predicted(p, x.ci));
    }
  }

  lemma ReadAfterItems(s: Scan, p: Pred, xs: seq<Item>, n: nat)
    requires n < |xs|
    ensures ItemsCode(s, p, xs[..n]) + ItemRead(s, After(s, p, xs[..n]), xs[n]) <= ItemsCode(s, p, xs)
  {
    var q := After(s, p, xs[..n]);
    assert xs[..n + 1][..n] == xs[..n];
    ReadStartsCode(s, q, xs[n]);
    CodePrefix(s, p, xs, n + 1);
  }

  /** Items of the given kinds as an encoder codes them: only DC differences may be too large to be read. */
  ghost predicate ItemsCoded(s: Scan, kinds: seq<Kind>, xs: seq<Item>) {
    forall i {:trigger Key(i)} :: Key(i) ==>
      && |xs| == |kinds|
      && forall j :: 0 <= j < |kinds| ==> ItemCoded(s, kinds[j], xs[j])
  }

  ghost predicate ItemCoded(s: Scan, k: Kind, x: Item) {
    && HasKind(s, x, k) && 1 <= FirstIndex(s)
    && (!k.DcKind? && !k.BitKind? ==> FirstIndex(s) <= s.se)
    && (!k.DcKind? ==> forall p :: Readable(s, p, x))
  }

  lemma CodedAt(s: Scan, kinds: seq<Kind>, xs: seq<Item>, j: nat)
    requires ItemsCoded(s, kinds, xs) && j < |kinds|
    ensures |xs| == |kinds| && HasKind(s, xs[j], kinds[j]) && 1 <= FirstIndex(s)
    ensures !kinds[j].DcKind? && !kinds[j].BitKind? ==> FirstIndex(s) <= s.se
  {
    assert Key(0);
  }

  /** Two codes that do not diverge agree in the next item, if it can be read from one of them. */
  lemma NextItemAgrees(s: Scan, p: Pred, k: Kind, pre: seq<Decision>, x: Item, y: Item, cx: seq<Decision>, cy: seq<Decision>)
    requires HasKind(s, x, k) && HasKind(s, y, k) && 1 <= FirstIndex(s)
    requires !k.DcKind? && !k.BitKind? ==> FirstIndex(s) <= s.se
    requires Readable(s, p, x) || Readable(s, p, y)
    requires pre + ItemRead(s, p, x) <= cx && pre + ItemRead(s, p, y) <= cy && !Diverge(cx, cy)
    ensures x == y
  {
    if x != y {
      if Readable(s, p, x) {
        ItemDiverges(s, p, k, x, y);
      } else {
        ItemDiverges(s, p, k, y, x);
        DivergeSwap(ItemRead(s, p, y), ItemRead(s, p, x));
      }
      DivergeAfter(pre, ItemRead(s, p, x), ItemRead(s, p, y));
      DivergePrefix(pre + ItemRead(s, p, x), pre + ItemRead(s, p, y), cx, cy);
    }
  }

  /** A decoder of some kinds of items reads the items that were coded, up to the first one that cannot
      be read. */
  lemma ItemsAgree(s: Scan, p: Pred, kinds: seq<Kind>, xs: seq<Item>, good: seq<Item>, bad: seq<Item>,
                   cx: seq<Decision>, cy: seq<Decision>)
    requires ItemsCoded(s, kinds, xs) && ItemsRead(s, p, kinds, good, bad)
    requires ItemsCode(s, p, xs) <= cx && ReadCode(s, p, good, bad) <= cy && !Diverge(cx, cy)
    ensures |good| <= |xs| && good == xs[..|good|]
    ensures bad == [] ==> good == xs && AllReadable(s, p, xs)
    ensures bad != [] ==> |good| < |xs| && !Readable(s, After(s, p, good), xs[|good|])
  {
    var n := |good|;
    assert Key(0);
    GoodItemsAgree(s, p, kinds, xs, good, n, cx, cy);
    assert good[..n] == good;
    if bad != [] {
      CodedAt(s, kinds, xs, n);
      ReadAfterItems(s, p, xs, n);
      if Readable(s, After(s, p, good), xs[n]) {
        NextItemAgrees(s, After(s, p, good), kinds[n], ItemsCode(s, p, good), xs[n], bad[0], cx, cy);
      }
    } else {
      assert xs[..n] == xs;
    }
  }

  lemma {:induction false} GoodItemsAgree(s: Scan, p: Pred, kinds: seq<Kind>, xs: seq<Item>, good: seq<Item>, n: nat,
                                          cx: seq<Decision>, cy: seq<Decision>)
    requires ItemsCoded(s, kinds, xs) && n <= |good| <= |xs| == |kinds| && AllReadable(s, p, good)
    requires forall j :: 0 <= j < |good| ==> HasKind(s, good[j], kinds[j])
    requires ItemsCode(s, p, xs) <= cx && ItemsCode(s, p, good) <= cy && !Diverge(cx, cy)
    ensures good[..n] == xs[..n]
  {
    if n > 0 {
      var m := n - 1;
      GoodItemsAgree(s, p, kinds, xs, good, m, cx, cy);
      CodedAt(s, kinds, xs, m);
      assert Readable(s, After(s, p, good[..m]), good[m]) && HasKind(s, good[m], kinds[m]);
      NthItemAgrees(s, p, kinds[m], xs, good, m, cx, cy);
      OneLonger(good, xs, m);
    }
  }

  lemma OneLonger(x: seq<Item>, y: seq<Item>, m: nat)
    requires m < |x| && m < |y| && x[..m] == y[..m] && x[m] == y[m]
    ensures x[..m + 1] == y[..m + 1]
  {
    assert x[..m + 1] == x[..m] + [x[m]];
    assert y[..m + 1] == y[..m] + [y[m]];
  }

  lemma NthItemAgrees(s: Scan, p: Pred, k: Kind, xs: seq<Item>, good: seq<Item>, n: nat, cx: seq<Decision>, cy: seq<Decision>)
    requires n < |xs| && n < |good| && good[..n] == xs[..n] && Readable(s, After(s, p, good[..n]), good[n])
    requires HasKind(s, xs[n], k) && HasKind(s, good[n], k) && 1 <= FirstIndex(s)
    requires !k.DcKind? && !k.BitKind? ==> FirstIndex(s) <= s.se
    requires ItemsCode(s, p, xs) <= cx && ItemsCode(s, p, good) <= cy && !Diverge(cx, cy)
    ensures xs[n] == good[n]
  {
    var pre, q := ItemsCode(s, p, good[..n]), After(s, p, good[..n]);
    ReadAfterItems(s, p, xs, n);
    ReadAfterItems(s, p, good, n);
    NextItemAgrees(s, q, k, pre, xs[n], good[n], cx, cy);
  }
}
