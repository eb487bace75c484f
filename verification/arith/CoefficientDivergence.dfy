/** The decisions of two different values diverge: they first differ in the outcome of a decision in
    the same bin, so that a code point cannot belong to both. */
module CoefficientDivergence {
  import opened Powers
  import opened CodeInterval
  import opened CoefficientModel
  import opened CoefficientReading
  import opened RefinementReading

  lemma {:induction false} DivergeSwap(x: seq<Decision>, y: seq<Decision>)
    requires Diverge(x, y)
    ensures Diverge(y, x)
    decreases |x|
  {
    if x[0].bit == y[0].bit {
      DivergeSwap(x[1..], y[1..]);
    }
  }

  // ----- magnitudes -----

  /** A run of ones that ends is not a longer run of ones. */
  lemma UnaryDiverges(st: Bin, k: nat, n: nat, x: seq<Decision>, y: seq<Decision>)
    requires k < n
    ensures Diverge(Unary(st, k) + x, Ones(st, n) + y)
  {
    assert (Unary(st, k) + x)[..k] == Ones(st, k) == (Ones(st, n) + y)[..k];
    DivergeAt(Unary(st, k) + x, Ones(st, n) + y, k);
  }

  lemma {:induction false} PatternDiverges(st: Bin, v: nat, w: nat, k: nat)
    requires Pow2(k) <= v < 2 * Pow2(k) && Pow2(k) <= w < 2 * Pow2(k) && v != w
    ensures Diverge(Pattern(st, v, k), Pattern(st, w, k))
  {
    var q, r, b, c := v / 2, w / 2, v % 2 == 1, w % 2 == 1;
    PatternAppend(st, q, b, k - 1);
    PatternAppend(st, r, c, k - 1);
    if q != r {
      PatternDiverges(st, q, r, k - 1);
      DivergeMore(Pattern(st, q, k - 1), Pattern(st, r, k - 1), [Decision(st, b)], [Decision(st, c)]);
    } else {
      DivergeAfter(Pattern(st, q, k - 1), [Decision(st, b)], [Decision(st, c)]);
    }
  }

  /** Category and bits of two different magnitudes. */
  lemma MagnitudeDiverges(bin: Bin, v: nat, w: nat, p0: nat)
    requires v > 0 && w > 0 && v != w && p0 <= Category(v) && p0 <= Category(w)
    ensures Diverge(Unary(bin, Category(v) - p0) + Pattern(bin.Plus(Category(v) - p0 + 14), v, Category(v)),
                    Unary(bin, Category(w) - p0) + Pattern(bin.Plus(Category(w) - p0 + 14), w, Category(w)))
  {
    var k, n := Category(v) - p0, Category(w) - p0;
    var x, y := Pattern(bin.Plus(k + 14), v, Category(v)), Pattern(bin.Plus(n + 14), w, Category(w));
    if k < n {
      UnaryDiverges(bin, k, n, x, [Decision(bin.Plus(n), false)] + y);
      Associate(Ones(bin, n), [Decision(bin.Plus(n), false)], y);
    } else if n < k {
      UnaryDiverges(bin, n, k, y, [Decision(bin.Plus(k), false)] + x);
      Associate(Ones(bin, k), [Decision(bin.Plus(k), false)], x);
      DivergeSwap(Unary(bin, n) + y, Unary(bin, k) + x);
    } else {
      PatternDiverges(bin.Plus(k + 14), v, w, Category(v));
      DivergeAfter(Unary(bin, k), x, y);
    }
  }

  // ----- DC differences -----

  /** The magnitude of a DC difference, as far as a decoder reads it. */
  function DcTail(st: Bin, x1: Bin, w: nat): seq<Decision> {
    if w < 0x8000 then DcMagnitude(st, x1, w) else [Decision(st, true)] + Ones(x1, 15)
  }

  lemma DcTailDiverges(st: Bin, x1: Bin, v: nat, w: nat)
    requires v != w && v < 0x8000
    ensures Diverge(DcTail(st, x1, v), DcTail(st, x1, w))
  {
    if v > 0 && w > 0 {
      var x := Unary(x1, Category(v)) + Pattern(x1.Plus(Category(v) + 14), v, Category(v));
      if w < 0x8000 {
        var y := Unary(x1, Category(w)) + Pattern(x1.Plus(Category(w) + 14), w, Category(w));
        MagnitudeDiverges(x1, v, w, 0);
        DivergeAfter([Decision(st, true)], x, y);
      } else {
        LowCategory(v);
        UnaryDiverges(x1, Category(v), 15, Pattern(x1.Plus(Category(v) + 14), v, Category(v)), []);
        assert Ones(x1, 15) + [] == Ones(x1, 15);
        DivergeAfter([Decision(st, true)], x, Ones(x1, 15));
      }
    }
  }

  lemma DcReadParts(tbl: nat, context: nat, v: int)
    requires v != 0
    ensures DcRead(tbl, context, v)
         == [Decision(Dc(tbl, context), true), Decision(Dc(tbl, context + 1), v < 0)]
            + DcTail(Dc(tbl, context + (if v > 0 then 2 else 3)), Dc(tbl, 20), Abs(v) - 1)
  {
    DcReadIs(tbl, context, v);
  }

  lemma DcReadZero(tbl: nat, context: nat, v: int)
    requires v == 0
    ensures DcRead(tbl, context, v) == [Decision(Dc(tbl, context), false)]
  {
    DcReadIs(tbl, context, v);
  }

  /** Two differences, of which at least one can be decoded. */
  lemma DcDiverges(tbl: nat, context: nat, v: int, w: int)
    requires v != w && Abs(v) <= 0x8000
    ensures Diverge(DcRead(tbl, context, v), DcRead(tbl, context, w))
  {
    if v != 0 { DcReadParts(tbl, context, v); } else { DcReadZero(tbl, context, v); }
    if w != 0 { DcReadParts(tbl, context, w); } else { DcReadZero(tbl, context, w); }
    if v != 0 && w != 0 && (v < 0) == (w < 0) {
      var st := Dc(tbl, context + (if v > 0 then 2 else 3));
      DcTailDiverges(st, Dc(tbl, 20), Abs(v) - 1, Abs(w) - 1);
      DivergeAfter([Decision(Dc(tbl, context), true), Decision(Dc(tbl, context + 1), v < 0)],
                   DcTail(st, Dc(tbl, 20), Abs(v) - 1), DcTail(st, Dc(tbl, 20), Abs(w) - 1));
    }
  }

  /** What a decoder reads of a difference that it gives up on is where its code starts. */
  lemma DcReadStartsCode(tbl: nat, context: nat, v: int)
    ensures DcRead(tbl, context, v) <= DcDifference(tbl, context, v)
    ensures Abs(v) <= 0x8000 ==> DcRead(tbl, context, v) == DcDifference(tbl, context, v)
  {
    DcReadIs(tbl, context, v);
    if Abs(v) > 0x8000 {
      var w, x1 := Abs(v) - 1, Dc(tbl, 20);
      var k := Category(w);
      CategoryAtLeast(w);
      DcDifferenceIs(tbl, context, v);
      assert Ones(x1, k)[..15] == Ones(x1, 15);
      assert Ones(x1, 15) <= Unary(x1, k) + Pattern(x1.Plus(k + 14), w, k);
      DcReadParts(tbl, context, v);
    }
  }

  lemma CategoryAtLeast(w: nat)
    requires w >= 0x8000
    ensures Category(w) >= 15
  {
    var k := Category(w);
    PowerValues();
    if k < 15 {
      PowerGrows(k, 14);
    }
  }

  // ----- AC coefficients -----

  /** The magnitude of an AC coefficient at index k, as far as a decoder reads it. */
  function AcTail(tbl: nat, c: Conditioning, k: nat, w: nat): seq<Decision>
    requires k > 0
  {
    if w < 0x8000 then AcMagnitude(Ac(tbl, 3 * k - 1), AcX2(tbl, c, k), w) else AcOverflow(tbl, c, k)
  }

  lemma AcTailDiverges(tbl: nat, c: Conditioning, k: nat, v: nat, w: nat)
    requires k > 0 && v != w && v < 0x8000
    ensures Diverge(AcTail(tbl, c, k, v), AcTail(tbl, c, k, w))
  {
    var st, x2 := Ac(tbl, 3 * k - 1), AcX2(tbl, c, k);
    if v > 1 && w > 1 {
      LargeDiverges(x2, v, w);
      DivergeAfter([Decision(st, true), Decision(st, true)], LargeTail(x2, v), LargeTail(x2, w));
    } else if v == 0 || w == 0 {
      DivergeAt(AcTail(tbl, c, k, v), AcTail(tbl, c, k, w), 0);
    } else {
      DivergeAt(AcTail(tbl, c, k, v), AcTail(tbl, c, k, w), 1);
    }
  }

  /** Category and bits of a magnitude above 1, as far as a decoder reads them. */
  function LargeTail(x2: Bin, w: nat): seq<Decision>
    requires w > 1
  {
    if w < 0x8000 then Unary(x2, Category(w) - 1) + Pattern(x2.Plus(Category(w) - 1 + 14), w, Category(w))
    else Ones(x2, 14)
  }

  lemma LargeDiverges(x2: Bin, v: nat, w: nat)
    requires 1 < v < 0x8000 && w > 1 && v != w
    ensures Diverge(LargeTail(x2, v), LargeTail(x2, w))
  {
    if w < 0x8000 {
      MagnitudeDiverges(x2, v, w, 1);
    } else {
      LowCategory(v);
      UnaryDiverges(x2, Category(v) - 1, 14, Pattern(x2.Plus(Category(v) - 1 + 14), v, Category(v)), []);
      assert Ones(x2, 14) + [] == Ones(x2, 14);
    }
  }

  /** The values differ behind index k, or one list leaves the band there. */
  predicate Differ(x: seq<int>, y: seq<int>, k: nat, se: nat)
    requires se < |x| && se < |y|
  {
    k < se && (|y| > se + 1 || exists j :: k < j <= se && x[j] != y[j])
  }

  /** Different values of a band, of which at least the first can be decoded. */
  lemma {:induction false} AcDiverges(tbl: nat, c: Conditioning, x: seq<int>, y: seq<int>, k: nat, se: nat)
    requires Decodable(x, se) && Spelled(y, se) && Differ(x, y, k, se)
    ensures Diverge(AcCoefficients(tbl, c, x, k, se), AcCoefficients(tbl, c, y, k, se))
    decreases se - k, 1
  {
    if !ZeroAfter(x, k) && !ZeroAfter(y, k) {
      AcRunDiverges(tbl, c, x, y, k, se);
    }
  }

  lemma {:induction false} AcRunDiverges(tbl: nat, c: Conditioning, x: seq<int>, y: seq<int>, k: nat, se: nat)
    requires Decodable(x, se) && Spelled(y, se) && Differ(x, y, k, se) && !ZeroAfter(x, k) && !ZeroAfter(y, k)
    ensures Diverge(AcRun(tbl, c, x, k, se), AcRun(tbl, c, y, k, se))
    decreases se - k, 0
  {
    var v, w := x[k + 1], y[k + 1];
    if v == 0 && w == 0 {
      AcRunDiverges(tbl, c, x, y, k + 1, se);
    } else if v != 0 && w != 0 && (v < 0) == (w < 0) {
      AfterSignDiverges(tbl, c, x, y, k + 1, se);
      DivergeAfter([Decision(Ac(tbl, 3 * k + 1), true), Decision(Fixed, v < 0)],
                   AfterSign(tbl, c, x, k + 1, se), AfterSign(tbl, c, y, k + 1, se));
    }
  }

  lemma {:induction false} AfterSignDiverges(tbl: nat, c: Conditioning, x: seq<int>, y: seq<int>, k: nat, se: nat)
    requires 1 <= k <= se && Decodable(x, se) && Spelled(y, se) && Differ(x, y, k - 1, se)
    requires x[k] != 0 && y[k] != 0 && (x[k] < 0) == (y[k] < 0)
    ensures Diverge(AfterSign(tbl, c, x, k, se), AfterSign(tbl, c, y, k, se))
    decreases se - k, 2
  {
    if x[k] != y[k] {
      OtherTailDiverges(tbl, c, x, y, k, se);
    } else {
      AcDiverges(tbl, c, x, y, k, se);
      SameTailDiverges(tbl, c, x, y, k, se);
    }
  }

  lemma OtherTailDiverges(tbl: nat, c: Conditioning, x: seq<int>, y: seq<int>, k: nat, se: nat)
    requires 1 <= k <= se < |x| && se < |y| && 0 < Abs(x[k]) <= 0x8000 && y[k] != 0 && Abs(x[k]) != Abs(y[k])
    ensures Diverge(AfterSign(tbl, c, x, k, se), AfterSign(tbl, c, y, k, se))
  {
    TailThenRest(tbl, c, x, k, se);
    TailThenRest(tbl, c, y, k, se);
    AcTailDiverges(tbl, c, k, Abs(x[k]) - 1, Abs(y[k]) - 1);
    DivergeMore(AcTail(tbl, c, k, Abs(x[k]) - 1), AcTail(tbl, c, k, Abs(y[k]) - 1), AcCoefficients(tbl, c, x, k, se),
                if Abs(y[k]) > 0x8000 then [] else AcCoefficients(tbl, c, y, k, se));
  }

  lemma SameTailDiverges(tbl: nat, c: Conditioning, x: seq<int>, y: seq<int>, k: nat, se: nat)
    requires 1 <= k <= se < |x| && se < |y| && 0 < Abs(x[k]) <= 0x8000 && x[k] == y[k]
    requires Diverge(AcCoefficients(tbl, c, x, k, se), AcCoefficients(tbl, c, y, k, se))
    ensures Diverge(AfterSign(tbl, c, x, k, se), AfterSign(tbl, c, y, k, se))
  {
    TailThenRest(tbl, c, x, k, se);
    TailThenRest(tbl, c, y, k, se);
    DivergeAfter(AcTail(tbl, c, k, Abs(x[k]) - 1), AcCoefficients(tbl, c, x, k, se), AcCoefficients(tbl, c, y, k, se));
  }

  lemma TailThenRest(tbl: nat, c: Conditioning, x: seq<int>, k: nat, se: nat)
    requires 1 <= k <= se < |x| && x[k] != 0
    ensures AfterSign(tbl, c, x, k, se)
         == AcTail(tbl, c, k, Abs(x[k]) - 1) + (if Abs(x[k]) > 0x8000 then [] else AcCoefficients(tbl, c, x, k, se))
  {
  }

  // ----- refinement -----

  /** Different continuations of the same scans. */
  lemma {:induction false} RefinementDiverges(tbl: nat, prev: seq<int>, x: seq<int>, y: seq<int>, k: nat, se: nat)
    requires |prev| == |x| == se + 1 && Spelled(y, se) && Refines(x, prev) && Refines(y, prev) && Differ(x, y, k, se)
    ensures Diverge(AcRefinement(tbl, x, k, se), AcRefinement(tbl, y, k, se))
  {
    MakeContinued(prev, x, y, se);
    OneContinuesOther(tbl, prev, x, y, k, se);
  }

  /** Two continuations of the same values. */
  ghost predicate Continued(prev: seq<int>, x: seq<int>, y: seq<int>, se: nat) {
    forall i {:trigger Key(i)} :: Key(i) ==>
      |prev| == |x| == se + 1 && Spelled(y, se) && Refines(x, prev) && Refines(y, prev)
  }

  lemma MakeContinued(prev: seq<int>, x: seq<int>, y: seq<int>, se: nat)
    requires |prev| == |x| == se + 1 && Spelled(y, se) && Refines(x, prev) && Refines(y, prev)
    ensures Continued(prev, x, y, se)
  {
  }

  lemma {:induction false} OneContinuesOther(tbl: nat, prev: seq<int>, x: seq<int>, y: seq<int>, k: nat, se: nat)
    requires Continued(prev, x, y, se) && se < |x| && se < |y| && Differ(x, y, k, se)
    ensures Diverge(AcRefinement(tbl, x, k, se), AcRefinement(tbl, y, k, se))
    decreases se - k, 1
  {
    if ZeroAfter(x, k) || ZeroAfter(y, k) {
      EndDiverges(tbl, prev, x, y, k, se);
    } else {
      SameOpening(prev, x, y, k, se);
      RefinementRunDiverges(tbl, prev, x, y, k, se);
    }
  }

  lemma EndDiverges(tbl: nat, prev: seq<int>, x: seq<int>, y: seq<int>, k: nat, se: nat)
    requires Continued(prev, x, y, se) && se < |x| && se < |y| && Differ(x, y, k, se)
    requires ZeroAfter(x, k) || ZeroAfter(y, k)
    ensures Diverge(AcRefinement(tbl, x, k, se), AcRefinement(tbl, y, k, se))
  {
    assert Key(0);
    OpenIfNew(x, prev, k);
    OpenIfNew(y, prev, k);
  }

  lemma SameOpening(prev: seq<int>, x: seq<int>, y: seq<int>, k: nat, se: nat)
    requires Continued(prev, x, y, se) && se < |x| && se < |y| && k <= se
    ensures NewAfter(x, k) == NewAfter(y, k)
  {
    assert Key(0);
    OpenIfNew(x, prev, k);
    OpenIfNew(y, prev, k);
  }

  lemma {:induction false} RefinementRunDiverges(tbl: nat, prev: seq<int>, x: seq<int>, y: seq<int>, k: nat, se: nat)
    requires Continued(prev, x, y, se) && se < |x| && se < |y| && Differ(x, y, k, se)
    requires !ZeroAfter(x, k) && !ZeroAfter(y, k)
    ensures Diverge(RefinementRun(tbl, x, k, se), RefinementRun(tbl, y, k, se))
    decreases se - k, 0
  {
    if x[k + 1] != y[k + 1] {
      OtherValueDiverges(tbl, prev, x, y, k, se);
    } else {
      StillDiffer(prev, x, y, k, se);
      if x[k + 1] == 0 {
        NonzeroLater(x, k);
        NonzeroLater(y, k);
        RefinementRunDiverges(tbl, prev, x, y, k + 1, se);
      } else {
        OneContinuesOther(tbl, prev, x, y, k + 1, se);
      }
      SameValueDiverges(tbl, x, y, k, se);
    }
  }

  lemma OtherValueDiverges(tbl: nat, prev: seq<int>, x: seq<int>, y: seq<int>, k: nat, se: nat)
    requires Continued(prev, x, y, se) && k < se < |x| && se < |y| && !ZeroAfter(x, k) && !ZeroAfter(y, k)
    requires x[k + 1] != y[k + 1]
    ensures Diverge(RefinementRun(tbl, x, k, se), RefinementRun(tbl, y, k, se))
  {
    assert Half(x[k + 1]) == prev[k + 1] == Half(y[k + 1]) by { assert Key(0); }
    RunByValue(tbl, x, k, se);
    RunByValue(tbl, y, k, se);
    ValuesDiverge(tbl, k, x[k + 1], y[k + 1]);
    DivergeMore(ValueCode(tbl, k, x[k + 1]), ValueCode(tbl, k, y[k + 1]), AfterValue(tbl, x, k, se), AfterValue(tbl, y, k, se));
  }

  lemma SameValueDiverges(tbl: nat, x: seq<int>, y: seq<int>, k: nat, se: nat)
    requires k < se < |x| && se < |y| && !ZeroAfter(x, k) && !ZeroAfter(y, k) && x[k + 1] == y[k + 1]
    requires Diverge(AfterValue(tbl, x, k, se), AfterValue(tbl, y, k, se))
    ensures Diverge(RefinementRun(tbl, x, k, se), RefinementRun(tbl, y, k, se))
  {
    RunByValue(tbl, x, k, se);
    RunByValue(tbl, y, k, se);
    DivergeAfter(ValueCode(tbl, k, x[k + 1]), AfterValue(tbl, x, k, se), AfterValue(tbl, y, k, se));
  }

  lemma NonzeroLater(vals: seq<int>, k: nat)
    requires k + 1 < |vals| && vals[k + 1] == 0 && !ZeroAfter(vals, k)
    ensures !ZeroAfter(vals, k + 1)
  {
  }

  lemma StillDiffer(prev: seq<int>, x: seq<int>, y: seq<int>, k: nat, se: nat)
    requires Continued(prev, x, y, se) && se < |x| && se < |y| && Differ(x, y, k, se)
    requires x[k + 1] == y[k + 1] && !ZeroAfter(x, k)
    ensures Differ(x, y, k + 1, se)
  {
    assert Key(0);
  }

  /** What is coded of one value, and of the values behind it. */
  function ValueCode(tbl: nat, k: nat, v: int): seq<Decision> {
    if v == 0 then [Decision(Ac(tbl, 3 * k + 1), false)] else RefinedValue(tbl, k, v)
  }

  function AfterValue(tbl: nat, vals: seq<int>, k: nat, se: nat): seq<Decision>
    requires k < se < |vals| && !ZeroAfter(vals, k)
  {
    if vals[k + 1] == 0 then RefinementRun(tbl, vals, k + 1, se) else AcRefinement(tbl, vals, k + 1, se)
  }

  lemma {:induction false} RunByValue(tbl: nat, vals: seq<int>, k: nat, se: nat)
    requires k < se < |vals| && !ZeroAfter(vals, k)
    ensures RefinementRun(tbl, vals, k, se) == ValueCode(tbl, k, vals[k + 1]) + AfterValue(tbl, vals, k, se)
  {
    if vals[k + 1] != 0 { RunOfOne(tbl, vals, k, se); }
  }

  lemma ValuesDiverge(tbl: nat, k: nat, v: int, w: int)
    requires v != w && Half(v) == Half(w)
    ensures Diverge(ValueCode(tbl, k, v), ValueCode(tbl, k, w))
  {
    if Abs(v) <= 1 && v != 0 && w != 0 {
      assert ValueCode(tbl, k, v)[1..] == [Decision(Fixed, v < 0)];
      assert ValueCode(tbl, k, w)[1..] == [Decision(Fixed, w < 0)];
    }
  }
}
