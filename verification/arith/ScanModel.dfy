/** Scans: which values are coded for the blocks of an MCU, and how statistics, predictions and
    restart intervals run through a scan. */
module ScanModel {
  import opened Powers
  import opened ByteStream
  import opened RestartMarkers
  import opened CodeInterval
  import opened Termination
  import opened CoefficientModel

  datatype Component = Component(dcTbl: nat, acTbl: nat)

  /** The parameters of a scan. membership gives the component of every block of an MCU. */
  datatype Scan = Scan(progressive: bool, comps: seq<Component>, membership: seq<nat>,
                       ss: nat, se: nat, ah: nat, al: nat, limSe: nat,
                       restartInterval: nat, order: seq<nat>, conditioning: seq<Conditioning>)

  const BLOCK_SIZE := 64
  const NUM_TABLES := 16

  /** The scans that both sides accept: a sequential scan codes everything at once; a progressive one
      either DC coefficients alone, or a band of AC coefficients of one component. */
  ghost predicate ScanValid(s: Scan) {
    forall i {:trigger Key(i)} :: Key(i) ==>
      && IsOrder(s.order, BLOCK_SIZE) && s.limSe < |s.order| && |s.conditioning| == NUM_TABLES
      && (forall c :: 0 <= c < |s.comps| ==> s.comps[c].dcTbl < NUM_TABLES && s.comps[c].acTbl < NUM_TABLES)
      && (forall b :: 0 <= b < |s.membership| ==> s.membership[b] < |s.comps|)
      && if !s.progressive then s.ss == 0 && s.se == s.limSe && s.ah == 0 && s.al == 0
         else
           && s.al <= 13 && (s.ah == 0 || s.ah == s.al + 1)
           && if s.ss == 0 then s.se == 0
              else s.ss <= s.se <= s.limSe && |s.comps| == 1 && |s.membership| == 1
  }

  lemma ScanFacts(s: Scan)
    requires ScanValid(s)
    ensures IsOrder(s.order, BLOCK_SIZE) && s.se <= s.limSe < |s.order|
    ensures forall b :: 0 <= b < |s.membership| ==> s.membership[b] < |s.comps|
    ensures !s.progressive ==> s.ss == 0 && s.se == s.limSe && s.ah == 0 && s.al == 0
    ensures s.progressive && s.ss == 0 ==> s.se == 0
    ensures s.ss != 0 ==> s.progressive && s.ss <= s.se && |s.comps| == |s.membership| == 1
  {
    assert Key(0);
  }

  /** A block of 16-bit coefficients. */
  predicate IsBlock(block: seq<int>) {
    |block| == BLOCK_SIZE && forall k :: 0 <= k < |block| ==> -0x8000 <= block[k] < 0x8000
  }

  predicate IsMcu(s: Scan, blocks: seq<seq<int>>) {
    |blocks| == |s.membership| && forall b :: 0 <= b < |blocks| ==> IsBlock(blocks[b])
  }

  lemma BandInRange(block: seq<int>, order: seq<nat>, ss: nat, se: nat, al: nat)
    requires IsBlock(block) && IsOrder(order, |block|) && se < |order|
    ensures Decodable(BandValues(block, order, ss, se, al), se)
  {
    var vals := BandValues(block, order, ss, se, al);
    forall k | 0 <= k <= se ensures Abs(vals[k]) <= 0x8000 {
      QuotientSmaller(Abs(block[order[k]]), Pow2(al));
    }
  }

  lemma QuotientSmaller(x: nat, p: nat)
    requires p > 0
    ensures 0 <= x / p <= x
  {
    if x / p > x {
      MulStrict(x, x / p, p);
      if x > 0 { MulAtLeast(p, x); }
    }
  }

  function Cond(s: Scan, tbl: nat): Conditioning {
    if tbl < |s.conditioning| then s.conditioning[tbl] else Conditioning(0, 1, 5)
  }

  function DcTable(s: Scan, ci: nat): nat {
    if ci < |s.comps| then s.comps[ci].dcTbl else 0
  }

  function AcTable(s: Scan, ci: nat): nat {
    if ci < |s.comps| then s.comps[ci].acTbl else 0
  }

  function FirstIndex(s: Scan): nat {
    if s.ss == 0 then 1 else s.ss
  }

  // ----- values -----

  /** One value that is coded: a DC coefficient, a band of AC coefficients, or one more bit of them. */
  datatype Item = DcItem(ci: nat, value: int) | AcItem(tbl: nat, vals: seq<int>)
                | BitItem(bit: bool) | RefineItem(tbl: nat, vals: seq<int>)

  /** x >> al for numbers of either sign. */
  function ShiftRight(x: int, al: nat): int {
    x / Pow2(al)
  }

  /** What is coded of block i of an MCU. */
  function BlockItems(s: Scan, i: nat, block: seq<int>): seq<Item> {
    if i >= |s.membership| || block == [] || !IsOrder(s.order, |block|) || s.se >= |s.order| then []
    else
      var ci := s.membership[i];
      if !s.progressive then
        [DcItem(ci, block[0])]
        + (if s.limSe == 0 then [] else [AcItem(AcTable(s, ci), BandValues(block, s.order, 1, s.se, 0))])
      else if s.ss == 0 then
        if s.ah == 0 then [DcItem(ci, ShiftRight(block[0], s.al))]
        else [BitItem(ShiftRight(block[0], s.al) % 2 == 1)]
      else if s.ah == 0 then [AcItem(AcTable(s, ci), BandValues(block, s.order, s.ss, s.se, s.al))]
      else [RefineItem(AcTable(s, ci), BandValues(block, s.order, s.ss, s.se, s.al))]
  }

  /** What is coded of the first blocks of an MCU. */
  function McuItems(s: Scan, blocks: seq<seq<int>>): seq<Item> {
    if blocks == [] then []
    else McuItems(s, blocks[..|blocks| - 1]) + BlockItems(s, |blocks| - 1, blocks[|blocks| - 1])
  }

  // ----- coding -----

  /** DC predictions and conditioning contexts of the components. */
  datatype Pred = Pred(dc: seq<int>, context: seq<nat>)

  function Predicted(p: Pred, ci: nat): int {
    if ci < |p.dc| then p.dc[ci] else 0
  }

  function ContextAt(p: Pred, ci: nat): nat {
    if ci < |p.context| then p.context[ci] else 0
  }

  ghost function ItemCode(s: Scan, p: Pred, x: Item): seq<Decision> {
    match x
    case DcItem(ci, v) => DcDifference(DcTable(s, ci), ContextAt(p, ci), v - Predicted(p, ci))
    case AcItem(tbl, vals) =>
      if s.se < |vals| then AcCoefficients(tbl, Cond(s, tbl), vals, FirstIndex(s) - 1, s.se) else []
    case BitItem(bit) => [Decision(Fixed, bit)]
    case RefineItem(tbl, vals) => if s.se < |vals| then AcRefinement(tbl, vals, FirstIndex(s) - 1, s.se) else []
  }

  function Next(s: Scan, p: Pred, x: Item): Pred {
    if x.DcItem? && x.ci < |p.dc| && x.ci < |p.context| then
      Pred(p.dc[x.ci := x.value],
           p.context[x.ci := DcContext(Cond(s, DcTable(s, x.ci)), x.value - p.dc[x.ci])])
    else p
  }

  function After(s: Scan, p: Pred, xs: seq<Item>): Pred {
    if xs == [] then p else Next(s, After(s, p, xs[..|xs| - 1]), xs[|xs| - 1])
  }

  ghost function ItemsCode(s: Scan, p: Pred, xs: seq<Item>): seq<Decision> {
    if xs == [] then []
    else
      var init := xs[..|xs| - 1];
      ItemsCode(s, p, init) + ItemCode(s, After(s, p, init), xs[|xs| - 1])
  }

  /** What a decoder can read: DC differences up to 2^15, AC values up to 2^15 inside the band. */
  predicate Readable(s: Scan, p: Pred, x: Item) {
    match x
    case DcItem(ci, v) => Abs(v - Predicted(p, ci)) <= 0x8000
    case AcItem(_, vals) => Decodable(vals, s.se)
    case BitItem(_) => true
    case RefineItem(_, vals) => |vals| == s.se + 1
  }

  predicate AllReadable(s: Scan, p: Pred, xs: seq<Item>) {
    forall i :: 0 <= i < |xs| ==> Readable(s, After(s, p, xs[..i]), xs[i])
  }

  /** What a decoder reads of an item, up to where it may give up. */
  ghost function ItemRead(s: Scan, p: Pred, x: Item): seq<Decision> {
    match x
    case DcItem(ci, v) => DcRead(DcTable(s, ci), ContextAt(p, ci), v - Predicted(p, ci))
    case _ => ItemCode(s, p, x)
  }

  /** What a decoder reads of some items and of another one on which it gives up. */
  ghost function ReadCode(s: Scan, p: Pred, good: seq<Item>, bad: seq<Item>): seq<Decision> {
    ItemsCode(s, p, good) + (if bad == [] then [] else ItemRead(s, After(s, p, good), bad[0]))
  }

  // ----- statistics and predictions at a restart -----

  predicate CodesDc(s: Scan) {
    s.ss == 0 && s.ah == 0
  }

  predicate CodesAc(s: Scan) {
    s.se != 0
  }

  /** A bin of a table that one of the first n components uses in the scan. */
  predicate InScan(s: Scan, bin: Bin, n: nat) {
    match bin
    case Dc(tbl, _) => CodesDc(s) && exists c :: 0 <= c < n && c < |s.comps| && s.comps[c].dcTbl == tbl
    case Ac(tbl, _) => CodesAc(s) && exists c :: 0 <= c < n && c < |s.comps| && s.comps[c].acTbl == tbl
    case Fixed => false
  }

  function ClearedUpTo(s: Scan, stats: Stats, n: nat): Stats {
    Stats(stats.machine, map bin | bin in stats.bins && !InScan(s, bin, n) :: stats.bins[bin])
  }

  function Cleared(s: Scan, stats: Stats): Stats {
    ClearedUpTo(s, stats, |s.comps|)
  }

  function ClearedPred(s: Scan, p: Pred): Pred {
    if CodesDc(s) then Pred(seq(|p.dc|, _ => 0), seq(|p.context|, _ => 0)) else p
  }

  /** Clearing: a DC area of a component starts anew if DC coefficients are sent for the first time, and an AC
      area if there are AC coefficients in the scan; all other bins keep their estimates. */
  ghost predicate AreasCleared(s: Scan, before: Stats, after: Stats) {
    && after.machine == before.machine
    && (s.ss == 0 && s.ah == 0 ==>
          forall c, i: nat {:trigger after.Get(Dc(s.comps[c].dcTbl, i))} :: 0 <= c < |s.comps| ==>
            after.Get(Dc(s.comps[c].dcTbl, i)) == StateByte(false, 0))
    && (s.se != 0 ==>
          forall c, i: nat {:trigger after.Get(Ac(s.comps[c].acTbl, i))} :: 0 <= c < |s.comps| ==>
            after.Get(Ac(s.comps[c].acTbl, i)) == StateByte(false, 0))
    && (forall t: nat, i: nat :: s.ss != 0 || s.ah != 0 || (forall c :: 0 <= c < |s.comps| ==> s.comps[c].dcTbl != t) ==>
          after.Get(Dc(t, i)) == before.Get(Dc(t, i)))
    && (forall t: nat, i: nat :: s.se == 0 || (forall c :: 0 <= c < |s.comps| ==> s.comps[c].acTbl != t) ==>
          after.Get(Ac(t, i)) == before.Get(Ac(t, i)))
    && after.Get(Fixed) == before.Get(Fixed)
  }

  /** Predictions and contexts start anew with the first DC coefficients. */
  predicate PredictionsCleared(s: Scan, before: Pred, after: Pred) {
    if s.ss == 0 && s.ah == 0 then
      && |after.dc| == |before.dc| && |after.context| == |before.context|
      && (forall c :: 0 <= c < |after.dc| ==> after.dc[c] == 0) && forall c :: 0 <= c < |after.context| ==> after.context[c] == 0
    else after == before
  }

  lemma {:induction false} ClearedIs(s: Scan, stats: Stats, p: Pred)
    ensures AreasCleared(s, stats, Cleared(s, stats)) && PredictionsCleared(s, p, ClearedPred(s, p))
  {
  }

  function ClearTables(stats: Stats, dc: bool, dcTbl: nat, ac: bool, acTbl: nat): Stats {
    Stats(stats.machine, map bin | bin in stats.bins && !(dc && bin.Dc? && bin.tbl == dcTbl)
                                   && !(ac && bin.Ac? && bin.tbl == acTbl) :: stats.bins[bin])
  }

  lemma ClearOneMore(s: Scan, stats: Stats, n: nat)
    requires n < |s.comps|
    ensures ClearTables(ClearedUpTo(s, stats, n), CodesDc(s), s.comps[n].dcTbl, CodesAc(s), s.comps[n].acTbl)
         == ClearedUpTo(s, stats, n + 1)
  {
    forall bin ensures InScan(s, bin, n + 1) <==>
      (InScan(s, bin, n) || (CodesDc(s) && bin.Dc? && bin.tbl == s.comps[n].dcTbl)
       || (CodesAc(s) && bin.Ac? && bin.tbl == s.comps[n].acTbl))
    {
    }
  }

  /** Clears the statistics areas that the scan uses, and its DC predictions. */
  method Reinitialize(s: Scan, dc: bool, ac: bool, stats0: Stats, p0: Pred) returns (stats: Stats, p: Pred)
    requires dc == CodesDc(s) && ac == CodesAc(s) && |p0.dc| == |p0.context| == |s.comps|
    ensures stats == Cleared(s, stats0) && p == ClearedPred(s, p0)
  {
    stats, p := stats0, p0;
    assert stats == ClearedUpTo(s, stats0, 0);
    for ci := 0 to |s.comps|
      invariant stats == ClearedUpTo(s, stats0, ci)
      invariant |p.dc| == |p.context| == |s.comps|
      invariant !dc ==> p == p0
      invariant dc ==> forall c :: 0 <= c < ci ==> p.dc[c] == 0 && p.context[c] == 0
    {
      ClearOneMore(s, stats0, ci);
      if dc {
        stats := ClearTables(stats, true, s.comps[ci].dcTbl, false, 0);
        p := Pred(p.dc[ci := 0], p.context[ci := 0]);
      }
      if ac {
        stats := ClearTables(stats, false, 0, true, s.comps[ci].acTbl);
      }
    }
  }

  function FreshCoder(stats: Stats): Coder {
    Coder(0, 0x1_0000, 0, stats)
  }

  // ----- the encoder's state between MCUs -----

  datatype EncoderState = EncoderState(prefix: seq<byte>, origin: Coder, coded: seq<Decision>, pred: Pred,
                                       toGo: nat, num: nat)

  ghost predicate EncoderRuns(t: EncoderState) {
    t.origin == FreshCoder(t.origin.stats) && t.num < 8
  }

  function RestartMarker(num: nat): byte
    requires num < 8
  {
    0xD0 + num
  }

  /** The code bytes of the segment that a state is in, if it ended there. */
  function Written(t: EncoderState): seq<byte>
    requires 0x8000 <= t.origin.a <= 0x1_0000
  {
    Stuff(SegmentData(Run(t.origin, t.coded)))
  }

  /** Before an MCU: when the restart interval is used up, the segment ends with a restart marker. */
  function EncoderRestart(s: Scan, t: EncoderState): (r: EncoderState)
    requires EncoderRuns(t)
    ensures EncoderRuns(r)
  {
    if s.restartInterval == 0 then t
    else if t.toGo == 0 then
      EncoderState(t.prefix + Written(t) + [0xFF, RestartMarker(t.num)],
                   FreshCoder(Cleared(s, Run(t.origin, t.coded).stats)), [], ClearedPred(s, t.pred),
                   s.restartInterval - 1, (t.num + 1) % 8)
    else t.(toGo := t.toGo - 1)
  }

  ghost function EncoderStep(s: Scan, t: EncoderState, xs: seq<Item>): EncoderState {
    t.(coded := t.coded + ItemsCode(s, t.pred, xs), pred := After(s, t.pred, xs))
  }

  // ----- the decoder's state between MCUs -----

  datatype DecoderState = DecoderState(seg: Segment, origin: Coder, decoded: seq<Decision>, pred: Pred,
                                       toGo: nat, num: nat, failed: bool)

  /** Before an MCU: when the restart interval is used up, the next segment is read. */
  function DecoderRestart(s: Scan, t: DecoderState): DecoderState
    requires 0x8000 <= t.origin.a <= 0x1_0000
  {
    if s.restartInterval == 0 then t
    else if t.toGo == 0 then
      DecoderState(SegmentBehind(t.seg.marker, t.seg.rest, t.num), FreshCoder(Cleared(s, Run(t.origin, t.decoded).stats)), [],
                   ClearedPred(s, t.pred), s.restartInterval - 1, (t.num + 1) % 8, false)
    else t.(toGo := t.toGo - 1)
  }

  ghost function DecoderStep(s: Scan, t: DecoderState, good: seq<Item>, bad: seq<Item>): DecoderState {
    t.(decoded := t.decoded + ReadCode(s, t.pred, good, bad), pred := After(s, t.pred, good), failed := bad != [])
  }

  // ----- coding items one after the other -----

  lemma CodeOne(s: Scan, p: Pred, x: Item)
    ensures ItemsCode(s, p, [x]) == ItemCode(s, p, x) && After(s, p, [x]) == Next(s, p, x)
  {
    assert [x][..0] == [];
  }

  lemma {:induction false} CodeConcat(s: Scan, p: Pred, xs: seq<Item>, ys: seq<Item>)
    ensures After(s, p, xs + ys) == After(s, After(s, p, xs), ys)
    ensures ItemsCode(s, p, xs + ys) == ItemsCode(s, p, xs) + ItemsCode(s, After(s, p, xs), ys)
    decreases |ys|
  {
    if ys == [] {
      assert xs + ys == xs;
    } else {
      var init, y := ys[..|ys| - 1], ys[|ys| - 1];
      assert (xs + ys)[..|xs + ys| - 1] == xs + init;
      CodeConcat(s, p, xs, init);
      Associate(ItemsCode(s, p, xs), ItemsCode(s, After(s, p, xs), init), ItemCode(s, After(s, p, xs + init), y));
    }
  }

  lemma EncoderSteps(s: Scan, t: EncoderState, xs: seq<Item>, ys: seq<Item>)
    ensures EncoderStep(s, EncoderStep(s, t, xs), ys) == EncoderStep(s, t, xs + ys)
  {
    CodeConcat(s, t.pred, xs, ys);
    Associate(t.coded, ItemsCode(s, t.pred, xs), ItemsCode(s, After(s, t.pred, xs), ys));
  }
}
