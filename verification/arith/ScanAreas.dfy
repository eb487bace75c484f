/** Every bin that a scan uses lies in its statistics area: below 49 for DC and below 245 for AC, as far as
    values can be read; below the 64 and 256 that are allocated for any 16-bit coefficients. */
module ScanAreas {
  import opened Powers
  import opened CodeInterval
  import opened CoefficientModel
  import opened CoefficientDivergence
  import opened ScanModel
  import opened ScanReading
  import opened ScanAgreement
  import opened ScanBytes
  import opened ScanReadability

  const DC_STAT_BINS := 64
  const AC_STAT_BINS := 256

  predicate HasContexts(p: Pred) {
    |p.dc| == |p.context| && forall c :: 0 <= c < |p.context| ==> IsContext(p.context[c])
  }

  lemma ContextAtIs(p: Pred, ci: nat)
    requires HasContexts(p)
    ensures IsContext(ContextAt(p, ci))
  {
  }

  lemma NextContexts(s: Scan, p: Pred, x: Item)
    requires HasContexts(p)
    ensures HasContexts(Next(s, p, x))
  {
  }

  lemma {:induction false} AfterContexts(s: Scan, p: Pred, xs: seq<Item>)
    requires HasContexts(p)
    ensures HasContexts(After(s, p, xs))
  {
    if xs != [] {
      AfterContexts(s, p, xs[..|xs| - 1]);
      NextContexts(s, After(s, p, xs[..|xs| - 1]), xs[|xs| - 1]);
    }
  }

  /** The bins of one value, as a decoder reads it. */
  lemma ItemReadInAreas(s: Scan, p: Pred, x: Item)
    requires ScanValid(s) && HasContexts(p)
    ensures InAreas(ItemRead(s, p, x))
  {
    ScanFacts(s);
    match x
    case DcItem(ci, v) =>
      ContextAtIs(p, ci);
      DcInAreas(DcTable(s, ci), ContextAt(p, ci), v - Predicted(p, ci));
    case AcItem(tbl, vals) =>
      if s.se < |vals| { AcInAreas(tbl, Cond(s, tbl), vals, FirstIndex(s) - 1, s.se); }
    case BitItem(_) =>
    case RefineItem(tbl, vals) =>
      if s.se < |vals| { RefinementInAreas(tbl, vals, FirstIndex(s) - 1, s.se); }
  }

  lemma ReadableInit(s: Scan, p: Pred, xs: seq<Item>)
    requires xs != [] && AllReadable(s, p, xs)
    ensures AllReadable(s, p, xs[..|xs| - 1]) && Readable(s, After(s, p, xs[..|xs| - 1]), xs[|xs| - 1])
  {
    var init := xs[..|xs| - 1];
    forall i | 0 <= i < |init| ensures Readable(s, After(s, p, init[..i]), init[i]) {
      assert init[..i] == xs[..i];
    }
  }

  /** The bins of readable values, as an encoder codes them. */
  lemma {:induction false} ItemsInAreas(s: Scan, p: Pred, xs: seq<Item>)
    requires ScanValid(s) && HasContexts(p) && AllReadable(s, p, xs)
    ensures InAreas(ItemsCode(s, p, xs))
  {
    if xs != [] {
      var init, x := xs[..|xs| - 1], xs[|xs| - 1];
      ReadableInit(s, p, xs);
      ItemsInAreas(s, p, init);
      AfterContexts(s, p, init);
      ItemReadInAreas(s, After(s, p, init), x);
      ReadStartsCode(s, After(s, p, init), x);
      InAreasConcat(ItemsCode(s, p, init), ItemCode(s, After(s, p, init), x));
    }
  }

  /** All decisions read so far in this segment are in their areas. */
  ghost predicate ReadInAreas(t: DecoderState) {
    InAreas(t.decoded) && HasContexts(t.pred)
  }

  /** Whatever the input, decoding an MCU, with the restart before it, stays inside the areas. */
  lemma DecodedInAreas(s: Scan, t: DecoderState, t2: DecoderState, prev: seq<int>, items: seq<seq<Item>>, bad: seq<Item>)
    requires ScanValid(s) && ReadInAreas(t) && 0x8000 <= t.origin.a <= 0x1_0000
    requires McuOutcome(s, DecoderRestart(s, t), t2, prev, items, bad)
    ensures ReadInAreas(t2)
  {
    var r := DecoderRestart(s, t);
    assert ReadInAreas(r);
    if !r.failed {
      var good := Flat(items);
      OutcomeRead(s, r, t2, McuKinds(s, |s.membership|, prev), good, bad);
      AfterContexts(s, r.pred, good);
      ItemsInAreas(s, r.pred, good);
      if bad != [] {
        ItemReadInAreas(s, After(s, r.pred, good), bad[0]);
        InAreasConcat(ItemsCode(s, r.pred, good), ItemRead(s, After(s, r.pred, good), bad[0]));
      }
      InAreasConcat(r.decoded, ReadCode(s, r.pred, good, bad));
    }
  }

  lemma OutcomeRead(s: Scan, t: DecoderState, t2: DecoderState, kinds: seq<Kind>, good: seq<Item>, bad: seq<Item>)
    requires Outcome(s, t, t2, kinds, good, bad)
    ensures AllReadable(s, t.pred, good) && t2 == DecoderStep(s, t, good, bad)
  {
    assert Key(0);
  }

  /** Encoding MCUs that can be read stays inside the areas, up to every MCU of the scan. */
  lemma {:induction false} CodedInAreas(s: Scan, t: EncoderState, mcus: seq<seq<seq<int>>>)
    requires ScanValid(s) && EncoderRuns(t) && HasContexts(t.pred) && InAreas(t.coded)
    requires McusReadable(s, t, mcus)
    ensures var r := AfterMcus(s, t, mcus); InAreas(r.coded) && HasContexts(r.pred)
    decreases |mcus|
  {
    if mcus != [] {
      var r, xs := EncoderRestart(s, t), McuItems(s, mcus[0]);
      ItemsInAreas(s, r.pred, xs);
      InAreasConcat(r.coded, ItemsCode(s, r.pred, xs));
      AfterContexts(s, r.pred, xs);
      CodedInAreas(s, AfterMcu(s, t, mcus[0]), mcus[1..]);
    }
  }

  // ----- values that cannot be read -----

  predicate Allocated(bin: Bin) {
    match bin
    case Dc(_, i) => i < DC_STAT_BINS
    case Ac(_, i) => i < AC_STAT_BINS
    case Fixed => true
  }

  predicate AllAllocated(ds: seq<Decision>) {
    forall i :: 0 <= i < |ds| ==> Allocated(ds[i].bin)
  }

  lemma AllocatedConcat(x: seq<Decision>, y: seq<Decision>)
    requires AllAllocated(x) && AllAllocated(y)
    ensures AllAllocated(x + y)
  {
  }

  lemma AreasAllocated(ds: seq<Decision>)
    requires InAreas(ds)
    ensures AllAllocated(ds)
  {
    forall i | 0 <= i < |ds| ensures Allocated(ds[i].bin) {
      assert InArea(ds[i].bin);
    }
  }

  /** A difference that is too large to be read has category 15. */
  lemma LargeCategory(w: nat)
    requires 0x8000 <= w < 0x1_0000
    ensures Category(w) == 15
  {
    PowerValues();
    CategoryAtMost(w, 16);
    CategoryAtLeast(w);
  }

  /** Coding such a difference uses bin 49, which no readable value needs, and none above. */
  lemma {:induction false} LargeDifference(tbl: nat, context: nat, v: int)
    requires IsContext(context) && 0x8000 < Abs(v) <= 0x1_0000
    ensures AllAllocated(DcDifference(tbl, context, v)) && !InAreas(DcDifference(tbl, context, v))
  {
    var w, x1 := Abs(v) - 1, Dc(tbl, 20);
    LargeCategory(w);
    DcDifferenceIs(tbl, context, v);
    var head := [Decision(Dc(tbl, context), true), Decision(Dc(tbl, context + 1), v < 0)];
    var tail := DcMagnitude(Dc(tbl, context + (if v > 0 then 2 else 3)), x1, w);
    LargeMagnitude(Dc(tbl, context + (if v > 0 then 2 else 3)), x1, w, 15);
    AllocatedConcat(head, tail);
    var i :| 0 <= i < |tail| && !InArea(tail[i].bin);
    assert (head + tail)[|head| + i] == tail[i];
  }

  lemma {:induction false} LargeMagnitude(st: Bin, x1: Bin, w: nat, k: nat)
    requires st.Dc? && st.index < DC_STAT_BINS && x1.Dc? && x1.index == 20 && w > 0 && k == Category(w) == 15
    ensures AllAllocated(DcMagnitude(st, x1, w))
    ensures exists i :: 0 <= i < |DcMagnitude(st, x1, w)| && !InArea(DcMagnitude(st, x1, w)[i].bin)
  {
    var pattern := Pattern(x1.Plus(k + 14), w, k);
    AllocatedConcat(Unary(x1, k), pattern);
    AllocatedConcat([Decision(st, true)], Unary(x1, k) + pattern);
    assert DcMagnitude(st, x1, w)[1 + |Unary(x1, k)|] == pattern[0];
  }

  /** An item of 16-bit values codes inside the allocated areas, and inside those of readable values exactly
      if it can be read. */
  lemma ItemCodeAreas(s: Scan, p: Pred, x: Item, k: Kind)
    requires ScanValid(s) && HasContexts(p) && ItemCoded(s, k, x)
    requires x.DcItem? ==> Abs(x.value - Predicted(p, x.ci)) <= 0x1_0000
    ensures AllAllocated(ItemCode(s, p, x)) && (InAreas(ItemCode(s, p, x)) <==> Readable(s, p, x))
  {
    ReadStartsCode(s, p, x);
    ItemReadInAreas(s, p, x);
    if Readable(s, p, x) {
      AreasAllocated(ItemCode(s, p, x));
    } else {
      ContextAtIs(p, x.ci);
      LargeDifference(DcTable(s, x.ci), ContextAt(p, x.ci), x.value - Predicted(p, x.ci));
    }
  }

  // ----- any 16-bit coefficients -----

  predicate Is16Bit(v: int) {
    -0x8000 <= v < 0x8000
  }

  predicate Preds16(p: Pred) {
    forall c :: 0 <= c < |p.dc| ==> Is16Bit(p.dc[c])
  }

  predicate Items16(xs: seq<Item>) {
    forall i :: 0 <= i < |xs| && xs[i].DcItem? ==> Is16Bit(xs[i].value)
  }

  lemma {:induction false} After16(s: Scan, p: Pred, xs: seq<Item>)
    requires Preds16(p) && Items16(xs)
    ensures Preds16(After(s, p, xs))
  {
    if xs != [] {
      assert Items16(xs[..|xs| - 1]);
      After16(s, p, xs[..|xs| - 1]);
    }
  }

  lemma Shift16(v: int, al: nat)
    requires Is16Bit(v)
    ensures Is16Bit(ShiftRight(v, al))
  {
    if al > 0 {
      HalfIsSmall(v, al);
    } else {
      var one := Pow2(al);
      assert one == 1 && v / one == v;
    }
  }

  lemma {:induction false} Mcu16(s: Scan, mcu: seq<seq<int>>, n: nat)
    requires ScanValid(s) && IsMcu(s, mcu) && n <= |mcu|
    ensures Items16(McuItems(s, mcu[..n]))
  {
    if n > 0 {
      assert mcu[..n][..n - 1] == mcu[..n - 1];
      Mcu16(s, mcu, n - 1);
      Shift16(mcu[n - 1][0], s.al);
      assert McuItems(s, mcu[..n]) == McuItems(s, mcu[..n - 1]) + BlockItems(s, n - 1, mcu[n - 1]);
    }
  }

  lemma {:induction false} ItemsAllocated(s: Scan, p: Pred, kinds: seq<Kind>, xs: seq<Item>, n: nat)
    requires ScanValid(s) && HasContexts(p) && Preds16(p) && Items16(xs) && ItemsCoded(s, kinds, xs) && n <= |xs|
    ensures AllAllocated(ItemsCode(s, p, xs[..n]))
  {
    if n > 0 {
      var init, x := xs[..n - 1], xs[n - 1];
      assert xs[..n][..n - 1] == init;
      ItemsAllocated(s, p, kinds, xs, n - 1);
      AfterContexts(s, p, init);
      After16(s, p, init);
      assert |xs| == |kinds| && ItemCoded(s, kinds[n - 1], x) by { assert Key(0); }
      ItemCodeAreas(s, After(s, p, init), x, kinds[n - 1]);
      AllocatedConcat(ItemsCode(s, p, init), ItemCode(s, After(s, p, init), x));
    }
  }

  /** All decisions coded so far in this segment are in the allocated areas. */
  ghost predicate CodedInside(t: EncoderState) {
    AllAllocated(t.coded) && HasContexts(t.pred) && Preds16(t.pred)
  }

  lemma RestartInside(s: Scan, t: EncoderState)
    requires EncoderRuns(t) && CodedInside(t)
    ensures CodedInside(EncoderRestart(s, t))
  {
  }

  lemma {:induction false} McuInside(s: Scan, t: EncoderState, mcu: seq<seq<int>>)
    requires ScanValid(s) && EncoderRuns(t) && CodedInside(t) && IsMcu(s, mcu)
    ensures CodedInside(AfterMcu(s, t, mcu))
  {
    var r, xs := EncoderRestart(s, t), McuItems(s, mcu);
    RestartInside(s, t);
    assert mcu[..|mcu|] == mcu && xs[..|xs|] == xs;
    Mcu16(s, mcu, |mcu|);
    McuItemsCoded(s, mcu, |mcu|);
    ItemsAllocated(s, r.pred, McuKinds(s, |mcu|, Previous(s, mcu)), xs, |xs|);
    AllocatedConcat(r.coded, ItemsCode(s, r.pred, xs));
    AfterContexts(s, r.pred, xs);
    After16(s, r.pred, xs);
  }

  /** Encoding any 16-bit coefficients never leaves the allocated areas, up to every MCU of the scan. */
  lemma {:induction false} CodedAllocated(s: Scan, t: EncoderState, mcus: seq<seq<seq<int>>>)
    requires ScanValid(s) && EncoderRuns(t) && CodedInside(t) && forall m :: 0 <= m < |mcus| ==> IsMcu(s, mcus[m])
    ensures CodedInside(AfterMcus(s, t, mcus))
    decreases |mcus|
  {
    if mcus != [] {
      McuInside(s, t, mcus[0]);
      CodedAllocated(s, AfterMcu(s, t, mcus[0]), mcus[1..]);
    }
  }
}
