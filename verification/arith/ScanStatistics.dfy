/** Statistics, predictions and restart counters over a whole scan. */
module ScanStatistics {
  import opened Powers
  import opened ByteStream
  import opened RestartMarkers
  import opened CodeInterval
  import opened Estimation
  import opened Termination
  import opened CoefficientModel
  import opened CoefficientBins
  import opened ScanModel
  import opened ScanBytes

  // ----- restarts -----

  /** When the interval is used up, the encoder ends the segment with the next restart marker and starts over;
      otherwise it only counts the MCU. */
  lemma {:induction false} EncoderRestarts(s: Scan, t: EncoderState)
    requires EncoderRuns(t)
    ensures var r := EncoderRestart(s, t);
      if s.restartInterval > 0 && t.toGo == 0 then
        && r.prefix == t.prefix + Stuff(SegmentData(Run(t.origin, t.coded))) + [0xFF, 0xD0 + t.num]
        && r.coded == [] && r.origin.low == 0 && r.origin.a == 0x1_0000 && r.origin.n == 0
        && r.toGo == s.restartInterval - 1 && r.num == (if t.num == 7 then 0 else t.num + 1)
      else r == t.(toGo := if s.restartInterval == 0 then t.toGo else t.toGo - 1)
  {
  }

  /** At such a restart the statistics of the scan and its predictions start anew. */
  lemma {:induction false} EncoderClears(s: Scan, t: EncoderState)
    requires EncoderRuns(t) && s.restartInterval > 0 && t.toGo == 0
    ensures var r := EncoderRestart(s, t);
      AreasCleared(s, Run(t.origin, t.coded).stats, r.origin.stats) && PredictionsCleared(s, t.pred, r.pred)
  {
    ClearedIs(s, Run(t.origin, t.coded).stats, t.pred);
  }

  /** The decoder does the same, in the segment that restart marker t.num leads to. */
  lemma {:induction false} DecoderRestarts(s: Scan, t: DecoderState)
    requires 0x8000 <= t.origin.a <= 0x1_0000 && t.num < 8
    ensures var r := DecoderRestart(s, t);
      if s.restartInterval > 0 && t.toGo == 0 then
        && r.seg == SegmentBehind(t.seg.marker, t.seg.rest, t.num) && !r.failed
        && r.decoded == [] && r.origin.low == 0 && r.origin.a == 0x1_0000 && r.origin.n == 0
        && r.toGo == s.restartInterval - 1 && r.num == (if t.num == 7 then 0 else t.num + 1)
      else r == t.(toGo := if s.restartInterval == 0 then t.toGo else t.toGo - 1)
  {
  }

  /** At such a restart the statistics of the scan and its predictions start anew. */
  lemma {:induction false} DecoderClears(s: Scan, t: DecoderState)
    requires 0x8000 <= t.origin.a <= 0x1_0000 && s.restartInterval > 0 && t.toGo == 0
    ensures var r := DecoderRestart(s, t);
      AreasCleared(s, Run(t.origin, t.decoded).stats, r.origin.stats) && PredictionsCleared(s, t.pred, r.pred)
  {
    ClearedIs(s, Run(t.origin, t.decoded).stats, t.pred);
  }

  /** After n MCUs of a scan: q intervals of MCUs are complete, and there are r + 1 in the current one. */
  predicate AtMcu(interval: nat, toGo: nat, num: nat, n: nat, q: nat, r: nat) {
    if n == 0 then toGo == interval && num == 0
    else n - 1 == q * interval + r && r < interval && toGo == interval - 1 - r && num == q % 8
  }

  lemma {:induction false} CountersNext(s: Scan, t: EncoderState, mcu: seq<seq<int>>)
    requires EncoderRuns(t) && s.restartInterval > 0
    ensures var r := AfterMcu(s, t, mcu);
      if t.toGo == 0 then r.toGo == s.restartInterval - 1 && r.num == (t.num + 1) % 8 else r.toGo == t.toGo - 1 && r.num == t.num
  {
  }

  lemma OneMoreInterval(q: nat, interval: nat)
    ensures (q + 1) * interval == q * interval + interval
  {
  }

  lemma {:induction false} NextMcu(interval: nat, toGo: nat, num: nat, n: nat, q: nat, r: nat) returns (q2: nat, r2: nat)
    requires interval > 0 && AtMcu(interval, toGo, num, n, q, r)
    ensures if toGo == 0 then AtMcu(interval, interval - 1, (num + 1) % 8, n + 1, q2, r2)
            else AtMcu(interval, toGo - 1, num, n + 1, q2, r2)
  {
    if n == 0 {
      q2, r2 := 0, 0;
    } else if toGo == 0 {
      q2, r2 := q + 1, 0;
      OneMoreInterval(q, interval);
    } else {
      q2, r2 := q, r + 1;
    }
  }

  /** A restart comes after every restartInterval MCUs, and the markers count from 0 to 7 over and over. */
  lemma {:induction false} RestartSchedule(s: Scan, t: EncoderState, mcus: seq<seq<seq<int>>>, n: nat, q: nat, r: nat) returns (q2: nat, r2: nat)
    requires EncoderRuns(t) && s.restartInterval > 0 && AtMcu(s.restartInterval, t.toGo, t.num, n, q, r)
    ensures var t2 := AfterMcus(s, t, mcus); AtMcu(s.restartInterval, t2.toGo, t2.num, n + |mcus|, q2, r2)
    decreases |mcus|
  {
    q2, r2 := q, r;
    if mcus != [] {
      CountersNext(s, t, mcus[0]);
      q2, r2 := NextMcu(s.restartInterval, t.toGo, t.num, n, q, r);
      q2, r2 := RestartSchedule(s, AfterMcu(s, t, mcus[0]), mcus[1..], n + 1, q2, r2);
    }
  }

  // ----- predictions -----

  predicate IsDcOf(x: Item, ci: nat) {
    x.DcItem? && x.ci == ci
  }

  /** The prediction of a component is the value before it, of the same component, and its context the one
      for the difference of that value. */
  lemma {:induction false} LastPredicted(s: Scan, p: Pred, xs: seq<Item>, ci: nat) returns (j: int)
    requires ci < |p.dc| == |p.context|
    ensures -1 <= j < |xs| && (forall i :: j < i < |xs| ==> !IsDcOf(xs[i], ci)) && (j >= 0 ==> IsDcOf(xs[j], ci))
    ensures Predicted(After(s, p, xs), ci) == if j >= 0 then xs[j].value else p.dc[ci]
    ensures ContextAt(After(s, p, xs), ci) ==
      if j >= 0 then ContextFor(Cond(s, DcTable(s, ci)), xs[j].value - Predicted(After(s, p, xs[..j]), ci)) else p.context[ci]
  {
    j := |xs| - 1;
    if xs != [] {
      SameComponents(s, p, xs[..j]);
      if IsDcOf(xs[j], ci) {
        ContextBounds(Cond(s, DcTable(s, ci)), xs[j].value - Predicted(After(s, p, xs[..j]), ci));
      } else {
        ghost var k := j;
        j := LastPredicted(s, p, xs[..k], ci);
        if j >= 0 { assert xs[..k][..j] == xs[..j]; }
      }
    }
  }

  lemma {:induction false} SameComponents(s: Scan, p: Pred, xs: seq<Item>)
    requires |p.dc| == |p.context|
    ensures |After(s, p, xs).dc| == |After(s, p, xs).context| == |p.dc|
  {
    if xs != [] { SameComponents(s, p, xs[..|xs| - 1]); }
  }

  /** So a DC value is coded as its difference from the one before, in the context of that difference. */
  lemma {:induction false} DcItemCoding(s: Scan, p: Pred, xs: seq<Item>, k: nat, ci: nat) returns (j: int, context: nat)
    requires k < |xs| && IsDcOf(xs[k], ci) && ci < |p.dc| == |p.context| == |s.comps| && ScanValid(s)
    ensures -1 <= j < k && (forall i :: j < i < k ==> !IsDcOf(xs[i], ci)) && (j >= 0 ==> IsDcOf(xs[j], ci))
    ensures ItemCode(s, After(s, p, xs[..k]), xs[k]) ==
            DcDifference(s.comps[ci].dcTbl, context, xs[k].value - if j >= 0 then xs[j].value else p.dc[ci])
    ensures if j < 0 then context == p.context[ci]
            else s.comps[ci].dcTbl < |s.conditioning|
                 && context == ContextFor(s.conditioning[s.comps[ci].dcTbl], xs[j].value - Predicted(After(s, p, xs[..j]), ci))
  {
    assert s.comps[ci].dcTbl < |s.conditioning| by { assert Key(0); }
    j := LastPredicted(s, p, xs[..k], ci);
    if j >= 0 { assert xs[..k][..j] == xs[..j]; }
    context := ContextAt(After(s, p, xs[..k]), ci);
  }

  // ----- which tables a block uses -----

  /** The bins that a block of component c may use: the fixed one, DC bins in the first DC scan, AC bins in
      scans with AC coefficients, each in the table of the component. */
  predicate InTables(s: Scan, c: Component, bin: Bin) {
    match bin
    case Fixed => true
    case Dc(t, _) => s.ss == 0 && s.ah == 0 && t == c.dcTbl
    case Ac(t, _) => s.se != 0 && t == c.acTbl
  }

  predicate AllInTables(s: Scan, c: Component, ds: seq<Decision>) {
    forall i :: 0 <= i < |ds| ==> InTables(s, c, ds[i].bin)
  }

  lemma {:induction false} NoBitsThere(ds: seq<Decision>, bin: Bin)
    requires BitsIn(ds, bin) == []
    ensures forall i :: 0 <= i < |ds| ==> ds[i].bin != bin
    decreases |ds|
  {
    if ds != [] { NoBitsThere(ds[1..], bin); }
  }

  /** The items of a block: DC values and bands of its own component. */
  predicate OfComponent(s: Scan, ci: nat, x: Item)
    requires ci < |s.comps|
  {
    match x
    case DcItem(c, _) => s.ss == 0 && s.ah == 0 && c == ci
    case AcItem(tbl, vals) => s.se != 0 && tbl == s.comps[ci].acTbl && Decodable(vals, s.se)
    case BitItem(_) => s.ss == 0 && s.ah != 0
    case RefineItem(tbl, vals) => s.se != 0 && tbl == s.comps[ci].acTbl && |vals| == s.se + 1
  }

  lemma {:induction false} BlockOfComponent(s: Scan, i: nat, block: seq<int>)
    requires ScanValid(s) && i < |s.membership| && IsBlock(block)
    ensures s.membership[i] < |s.comps|
    ensures forall k :: 0 <= k < |BlockItems(s, i, block)| ==> OfComponent(s, s.membership[i], BlockItems(s, i, block)[k])
  {
    ScanFacts(s);
    if s.se != 0 { BandInRange(block, s.order, FirstIndex(s), s.se, s.al); }
  }

  /** A band is coded with the conditioning parameters of its table, a DC bit in the fixed bin. */
  lemma {:induction false} BandItemCoding(s: Scan, p: Pred, ci: nat, x: Item)
    requires ScanValid(s) && ci < |s.comps| && OfComponent(s, ci, x) && !x.DcItem?
    ensures s.comps[ci].acTbl < |s.conditioning|
    ensures var ss, tbl := if s.ss == 0 then 1 else s.ss, s.comps[ci].acTbl;
      match x
      case AcItem(_, vals) => UsesBandBins(ItemCode(s, p, x), tbl, s.conditioning[tbl], vals, ss, s.se)
      case RefineItem(_, vals) => UsesRefinementBins(ItemCode(s, p, x), tbl, vals, ss, s.se)
      case BitItem(bit) => ItemCode(s, p, x) == [Decision(Fixed, bit)]
      case DcItem(_, _) => true
  {
    ScanFacts(s);
    assert s.comps[ci].acTbl < |s.conditioning| by { assert Key(0); }
    match x
    case AcItem(tbl, vals) => BandUsesBins(ItemCode(s, p, x), tbl, s.conditioning[tbl], vals, FirstIndex(s), s.se);
    case RefineItem(tbl, vals) => RefinementUsesBins(ItemCode(s, p, x), tbl, vals, FirstIndex(s), s.se);
    case BitItem(_) =>
    case DcItem(_, _) =>
  }

  predicate SmallContexts(p: Pred) {
    forall c :: 0 <= c < |p.context| ==> p.context[c] <= 16
  }

  lemma {:induction false} DcInTable(tbl: nat, context: nat, v: int)
    requires context <= 16
    ensures forall i :: 0 <= i < |DcDifference(tbl, context, v)| ==>
      DcDifference(tbl, context, v)[i].bin.Dc? && DcDifference(tbl, context, v)[i].bin.tbl == tbl
  {
    var ds := DcDifference(tbl, context, v);
    forall i | 0 <= i < |ds| ensures ds[i].bin.Dc? && ds[i].bin.tbl == tbl {
      DcBins(tbl, context, v, ds[i].bin);
      if BitsIn(ds, ds[i].bin) == [] { NoBitsThere(ds, ds[i].bin); }
    }
  }

  predicate OnlyAc(ds: seq<Decision>, tbl: nat) {
    forall i :: 0 <= i < |ds| ==> ds[i].bin.Fixed? || (ds[i].bin.Ac? && ds[i].bin.tbl == tbl)
  }

  lemma {:induction false} BandInTable(tbl: nat, c: Conditioning, vals: seq<int>, ss: nat, se: nat)
    requires 1 <= ss <= se + 1 <= 64 && Decodable(vals, se)
    ensures OnlyAc(AcCoefficients(tbl, c, vals, ss - 1, se), tbl)
  {
    var ds := AcCoefficients(tbl, c, vals, ss - 1, se);
    BandUsesBins(ds, tbl, c, vals, ss, se);
    forall i | 0 <= i < |ds| ensures ds[i].bin.Fixed? || (ds[i].bin.Ac? && ds[i].bin.tbl == tbl) {
      if BitsIn(ds, ds[i].bin) == [] { NoBitsThere(ds, ds[i].bin); }
    }
  }

  lemma {:induction false} RefinementInTable(tbl: nat, vals: seq<int>, ss: nat, se: nat)
    requires 1 <= ss <= se + 1 == |vals|
    ensures OnlyAc(AcRefinement(tbl, vals, ss - 1, se), tbl)
  {
    var ds := AcRefinement(tbl, vals, ss - 1, se);
    RefinementUsesBins(ds, tbl, vals, ss, se);
    forall i | 0 <= i < |ds| ensures ds[i].bin.Fixed? || (ds[i].bin.Ac? && ds[i].bin.tbl == tbl) {
      if BitsIn(ds, ds[i].bin) == [] { NoBitsThere(ds, ds[i].bin); }
    }
  }

  lemma {:induction false} ItemInTables(s: Scan, p: Pred, ci: nat, x: Item)
    requires ScanValid(s) && ci < |s.comps| && OfComponent(s, ci, x) && SmallContexts(p)
    ensures AllInTables(s, s.comps[ci], ItemCode(s, p, x)) && SmallContexts(Next(s, p, x))
  {
    ScanFacts(s);
    match x
    case DcItem(_, v) => DcInTable(s.comps[ci].dcTbl, ContextAt(p, ci), v - Predicted(p, ci));
    case AcItem(tbl, vals) => BandInTable(tbl, Cond(s, tbl), vals, FirstIndex(s), s.se);
    case RefineItem(tbl, vals) => RefinementInTable(tbl, vals, FirstIndex(s), s.se);
    case BitItem(_) =>
  }

  /** Every decision of a block lies in the tables of its component. */
  lemma {:induction false} BlockInTables(s: Scan, p: Pred, ci: nat, xs: seq<Item>)
    requires ScanValid(s) && ci < |s.comps| && SmallContexts(p) && forall k :: 0 <= k < |xs| ==> OfComponent(s, ci, xs[k])
    ensures AllInTables(s, s.comps[ci], ItemsCode(s, p, xs)) && SmallContexts(After(s, p, xs))
  {
    if xs != [] {
      var init := xs[..|xs| - 1];
      BlockInTables(s, p, ci, init);
      ItemInTables(s, After(s, p, init), ci, xs[|xs| - 1]);
    }
  }

  /** The bins that any block of the scan may use. */
  predicate InAnyTable(s: Scan, bin: Bin) {
    bin.Fixed? || exists c :: 0 <= c < |s.comps| && InTables(s, s.comps[c], bin)
  }

  predicate AllInAnyTable(s: Scan, ds: seq<Decision>) {
    forall i :: 0 <= i < |ds| ==> InAnyTable(s, ds[i].bin)
  }

  lemma {:induction false} McuInTables(s: Scan, p: Pred, blocks: seq<seq<int>>, n: nat)
    requires ScanValid(s) && IsMcu(s, blocks) && n <= |blocks| && SmallContexts(p)
    ensures var xs := McuItems(s, blocks[..n]); AllInAnyTable(s, ItemsCode(s, p, xs)) && SmallContexts(After(s, p, xs))
  {
    if n > 0 {
      assert blocks[..n][..n - 1] == blocks[..n - 1];
      var xs, ys := McuItems(s, blocks[..n - 1]), BlockItems(s, n - 1, blocks[n - 1]);
      McuInTables(s, p, blocks, n - 1);
      BlockOfComponent(s, n - 1, blocks[n - 1]);
      BlockInTables(s, After(s, p, xs), s.membership[n - 1], ys);
      CodeConcat(s, p, xs, ys);
      assert AllInAnyTable(s, ItemsCode(s, After(s, p, xs), ys)) by {
        var c := s.membership[n - 1];
        forall i | 0 <= i < |ItemsCode(s, After(s, p, xs), ys)| ensures InAnyTable(s, ItemsCode(s, After(s, p, xs), ys)[i].bin) {
          assert InTables(s, s.comps[c], ItemsCode(s, After(s, p, xs), ys)[i].bin);
        }
      }
      BothInAnyTable(s, ItemsCode(s, p, xs), ItemsCode(s, After(s, p, xs), ys));
    }
  }

  lemma BothInAnyTable(s: Scan, x: seq<Decision>, y: seq<Decision>)
    requires AllInAnyTable(s, x) && AllInAnyTable(s, y)
    ensures AllInAnyTable(s, x + y)
  {
  }

  // ----- the estimates that a segment starts with -----

  /** All bins that the scan may use are at the start of the table, except the fixed one. */
  ghost predicate StartsAnew(s: Scan, stats: Stats) {
    Regular(stats) && forall bin :: bin != Fixed && InAnyTable(s, bin) ==> bin !in stats.bins
  }

  lemma {:induction false} ClearedAnew(s: Scan, stats: Stats)
    requires Regular(stats)
    ensures StartsAnew(s, Cleared(s, stats))
  {
  }

  /** In the segment that a state is in, only bins of the scan's tables were used, and it started anew. */
  ghost predicate OnTrack(s: Scan, t: EncoderState) {
    && EncoderRuns(t) && StartsAnew(s, t.origin.stats) && AllInAnyTable(s, t.coded) && SmallContexts(t.pred)
  }

  /** It is at the start of a scan, whatever was coded before. */
  lemma {:induction false} StartOnTrack(s: Scan, t: EncoderState, stats: Stats)
    requires Regular(stats) && t.origin == FreshCoder(Cleared(s, stats)) && t.coded == [] && t.num < 8
    requires forall c :: 0 <= c < |t.pred.context| ==> t.pred.context[c] == 0
    ensures OnTrack(s, t)
  {
    ClearedAnew(s, stats);
  }

  lemma {:induction false} McuOnTrack(s: Scan, t: EncoderState, mcu: seq<seq<int>>)
    requires ScanValid(s) && IsMcu(s, mcu) && OnTrack(s, t)
    ensures OnTrack(s, AfterMcu(s, t, mcu))
  {
    var r := EncoderRestart(s, t);
    RunRegular(t.origin, t.coded);
    ClearedAnew(s, Run(t.origin, t.coded).stats);
    McuInTables(s, r.pred, mcu, |mcu|);
    assert mcu[..|mcu|] == mcu;
    BothInAnyTable(s, r.coded, ItemsCode(s, r.pred, McuItems(s, mcu)));
  }

  /** So it is in every segment of a scan. */
  lemma {:induction false} ScanOnTrack(s: Scan, t: EncoderState, mcus: seq<seq<seq<int>>>)
    requires ScanValid(s) && OnTrack(s, t) && forall j :: 0 <= j < |mcus| ==> IsMcu(s, mcus[j])
    ensures OnTrack(s, AfterMcus(s, t, mcus))
    decreases |mcus|
  {
    if mcus != [] {
      McuOnTrack(s, t, mcus[0]);
      ScanOnTrack(s, AfterMcu(s, t, mcus[0]), mcus[1..]);
    }
  }

  /** In every segment of a scan the first decision in a bin is made with the first estimate of the table, and
      every sign and every refinement bit of a DC coefficient with the fixed one. */
  lemma {:induction false} FirstUse(s: Scan, t: EncoderState, k: nat)
    requires OnTrack(s, t) && k < |t.coded|
    ensures t.coded[k].bin == Fixed ==> Run(t.origin, t.coded[..k]).stats.EntryOf(Fixed).qe == 0x5a1d
                                        && !Run(t.origin, t.coded[..k]).stats.Get(Fixed).mps
    ensures t.coded[k].bin != Fixed && (forall i :: 0 <= i < k ==> t.coded[i].bin != t.coded[k].bin) ==>
              Run(t.origin, t.coded[..k]).stats.Get(t.coded[k].bin) == StateByte(false, 0)
  {
    RunRegular(t.origin, t.coded[..k]);
    FixedEstimate(Run(t.origin, t.coded[..k]).stats);
    if t.coded[k].bin != Fixed && (forall i :: 0 <= i < k ==> t.coded[i].bin != t.coded[k].bin) {
      UnusedKept(t.origin, t.coded[..k], t.coded[k].bin);
    }
  }
}
