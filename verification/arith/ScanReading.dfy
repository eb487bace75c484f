/** What a decoder reads of the MCUs of a scan, and what it stores. */
module ScanReading {
  import opened Powers
  import opened CodeInterval
  import opened CoefficientModel
  import opened CoefficientReading
  import opened BandReading
  import opened RefinementReading
  import opened ScanModel

  function BandOf(s: Scan, tbl: nat): Band {
    Band(tbl, Cond(s, tbl), s.order, FirstIndex(s), s.se, s.al)
  }

  /** What a decoder expects next: a DC coefficient of a component, a band of AC coefficients, one more
      bit of a DC coefficient, or one more bit of the band with the values prev. */
  datatype Kind = DcKind(ci: nat) | AcKind(tbl: nat) | BitKind | RefineKind(tbl: nat, prev: seq<int>)

  predicate HasKind(s: Scan, x: Item, k: Kind) {
    match k
    case DcKind(ci) => x.DcItem? && x.ci == ci
    case AcKind(tbl) =>
      && x.AcItem? && x.tbl == tbl && Spelled(x.vals, s.se)
      && forall j :: 0 <= j < FirstIndex(s) && j < |x.vals| ==> x.vals[j] == 0
    case BitKind => x.BitItem?
    case RefineKind(tbl, prev) =>
      && x.RefineItem? && x.tbl == tbl && Spelled(x.vals, s.se) && |prev| == s.se + 1 && Refines(x.vals, prev)
      && forall j :: 0 <= j < FirstIndex(s) && j < |x.vals| ==> x.vals[j] == 0
  }

  function BlockKinds(s: Scan, i: nat, prev: seq<int>): seq<Kind> {
    var ci := if i < |s.membership| then s.membership[i] else 0;
    if !s.progressive then
      [DcKind(ci)] + (if s.limSe == 0 then [] else [AcKind(AcTable(s, ci))])
    else if s.ss == 0 then if s.ah == 0 then [DcKind(ci)] else [BitKind]
    else if s.ah == 0 then [AcKind(AcTable(s, ci))]
    else [RefineKind(AcTable(s, ci), prev)]
  }

  /** What is expected of the first n blocks of an MCU. */
  function McuKinds(s: Scan, n: nat, prev: seq<int>): seq<Kind> {
    if n == 0 then [] else McuKinds(s, n - 1, prev) + BlockKinds(s, n - 1, prev)
  }

  /** The values prev are what the scans before have left of the band in the block. */
  ghost predicate Continues(s: Scan, prev: seq<int>, block: seq<int>) {
    s.progressive && s.ss != 0 && s.ah != 0 ==>
      && Known(BandOf(s, AcTable(s, 0)), prev, block, 0)
      && forall j :: 0 <= j < s.ss && j < |prev| ==> prev[j] == 0
  }

  predicate HaveKinds(s: Scan, xs: seq<Item>, kinds: seq<Kind>) {
    |xs| <= |kinds| && forall j :: 0 <= j < |xs| ==> HasKind(s, xs[j], kinds[j])
  }

  lemma HaveMoreKinds(s: Scan, x1: seq<Item>, k1: seq<Kind>, x2: seq<Item>, k2: seq<Kind>)
    requires HaveKinds(s, x1, k1) && HaveKinds(s, x2, k2) && |x1| == |k1|
    ensures HaveKinds(s, x1 + x2, k1 + k2)
  {
  }

  /** Items of the expected kinds: all of them good ones, or some good ones and one that cannot be read. */
  ghost predicate ItemsRead(s: Scan, p: Pred, kinds: seq<Kind>, good: seq<Item>, bad: seq<Item>) {
    forall i {:trigger Key(i)} :: Key(i) ==>
      && |good| + |bad| <= |kinds| && |bad| <= 1 && (bad == [] ==> |good| == |kinds|)
      && HaveKinds(s, good, kinds) && AllReadable(s, p, good)
      && (bad != [] ==> HasKind(s, bad[0], kinds[|good|]) && !Readable(s, After(s, p, good), bad[0]))
  }

  lemma OneRead(s: Scan, p: Pred, k: Kind, x: Item)
    requires HasKind(s, x, k)
    ensures Readable(s, p, x) ==> ItemsRead(s, p, [k], [x], [])
    ensures !Readable(s, p, x) ==> ItemsRead(s, p, [k], [], [x])
  {
    assert [x][..0] == [];
  }

  lemma MoreRead(s: Scan, p: Pred, k1: seq<Kind>, k2: seq<Kind>, x: seq<Item>, good: seq<Item>, bad: seq<Item>)
    requires ItemsRead(s, p, k1, x, []) && ItemsRead(s, After(s, p, x), k2, good, bad)
    ensures ItemsRead(s, p, k1 + k2, x + good, bad)
  {
    assert Key(0);
    HaveMoreKinds(s, x, k1, good, k2);
    CodeConcat(s, p, x, good);
    AllReadableConcat(s, p, x, good);
  }

  lemma AllReadableConcat(s: Scan, p: Pred, x: seq<Item>, y: seq<Item>)
    requires AllReadable(s, p, x) && AllReadable(s, After(s, p, x), y)
    ensures AllReadable(s, p, x + y)
  {
    forall i | 0 <= i < |x + y| ensures Readable(s, After(s, p, (x + y)[..i]), (x + y)[i]) {
      if i < |x| {
        assert (x + y)[..i] == x[..i];
      } else {
        assert (x + y)[..i] == x + y[..i - |x|];
        CodeConcat(s, p, x, y[..i - |x|]);
      }
    }
  }

  lemma DecoderSteps(s: Scan, t: DecoderState, xs: seq<Item>, good: seq<Item>, bad: seq<Item>)
    ensures DecoderStep(s, DecoderStep(s, t, xs, []), good, bad) == DecoderStep(s, t, xs + good, bad)
  {
    CodeConcat(s, t.pred, xs, good);
    var p := After(s, t.pred, xs);
    var last := if bad == [] then [] else ItemRead(s, After(s, p, good), bad[0]);
    assert ReadCode(s, t.pred, xs, []) == ItemsCode(s, t.pred, xs);
    Associate(t.decoded, ItemsCode(s, t.pred, xs), ItemsCode(s, p, good));
    Associate(t.decoded + ItemsCode(s, t.pred, xs), ItemsCode(s, p, good), last);
    Associate(t.decoded, ItemsCode(s, t.pred, xs + good), last);
  }

  /** The decoder has read one more item, or given up on it. */
  ghost function StepOne(s: Scan, t: DecoderState, x: Item): DecoderState {
    if Readable(s, t.pred, x) then t.(decoded := t.decoded + ItemRead(s, t.pred, x), pred := Next(s, t.pred, x))
    else t.(decoded := t.decoded + ItemRead(s, t.pred, x), failed := true)
  }

  /** From t to t2, a decoder has read the item x of kind k, or given up on it. */
  ghost predicate OneDone(s: Scan, t: DecoderState, t2: DecoderState, k: Kind, x: Item, ok: bool) {
    forall i {:trigger Key(i)} :: Key(i) ==>
      HasKind(s, x, k) && (ok <==> Readable(s, t.pred, x)) && t2 == StepOne(s, t, x) && !t.failed
  }

  /** A DC difference v was read. */
  lemma DcDone(s: Scan, t: DecoderState, t2: DecoderState, ci: nat, ok: bool, v: int, next: nat, code: seq<Decision>)
    requires ci < |t.pred.dc| && ci < |t.pred.context| && !t.failed
    requires var tbl := DcTable(s, ci); DcDifferenceRead(Cond(s, tbl), tbl, t.pred.context[ci], ok, v, next, code)
    requires var w := t.pred.dc[ci] + v;
      t2 == if ok then
              t.(decoded := t.decoded + code, pred := Pred(t.pred.dc[ci := w], t.pred.context[ci := next]))
            else t.(decoded := t.decoded + code, failed := true)
    ensures OneDone(s, t, t2, DcKind(ci), DcItem(ci, t.pred.dc[ci] + v), ok)
  {
    var x, tbl := DcItem(ci, t.pred.dc[ci] + v), DcTable(s, ci);
    DcReadFacts(Cond(s, tbl), tbl, t.pred.context[ci], ok, v, next, code);
    assert x.value - Predicted(t.pred, ci) == v;
    assert ItemRead(s, t.pred, x) == DcRead(tbl, t.pred.context[ci], v);
  }

  lemma DcReadFacts(c: Conditioning, tbl: nat, context: nat, ok: bool, v: int, next: nat, code: seq<Decision>)
    requires DcDifferenceRead(c, tbl, context, ok, v, next, code)
    ensures code == DcRead(tbl, context, v) && (ok <==> Abs(v) <= 0x8000) && (ok ==> next == DcContext(c, v))
  {
    assert Key(0);
  }

  lemma BandItemDone(s: Scan, tbl: nat, t: DecoderState, t2: DecoderState, ok: bool, vals: seq<int>, blk0: seq<int>, blk: seq<int>)
    requires BandDone(BandOf(s, tbl), t.decoded, t2.decoded, ok, vals, blk0, blk) && !t.failed
    requires t2 == t.(decoded := t2.decoded, failed := !ok)
    ensures OneDone(s, t, t2, AcKind(tbl), AcItem(tbl, vals), ok)
    ensures ok ==> IsOrder(s.order, |blk0|) && |vals| == s.se + 1 <= |s.order| && Stored(blk0, blk, s.order, FirstIndex(s), vals, s.al)
  {
    assert Key(0);
  }

  lemma BitDone(s: Scan, t: DecoderState, t2: DecoderState, bit: bool)
    requires t2 == t.(decoded := t.decoded + [Decision(Fixed, bit)]) && !t.failed
    ensures OneDone(s, t, t2, BitKind, BitItem(bit), true)
  {
  }

  lemma RefinedItemDone(s: Scan, tbl: nat, t: DecoderState, t2: DecoderState, prev: seq<int>, ok: bool, vals: seq<int>,
                        blk0: seq<int>, blk: seq<int>)
    requires BandRefined(BandOf(s, tbl), prev, t.decoded, t2.decoded, ok, vals, blk0, blk) && |prev| == s.se + 1 && !t.failed
    requires t2 == t.(decoded := t2.decoded, failed := !ok)
    ensures OneDone(s, t, t2, RefineKind(tbl, prev), RefineItem(tbl, vals), ok)
    ensures ok ==> IsOrder(s.order, |blk0|) && |vals| == s.se + 1 <= |s.order| && Refined(blk0, blk, s.order, FirstIndex(s), vals, s.al)
  {
    assert Key(0);
  }

  lemma StepOfOne(s: Scan, t: DecoderState, x: Item)
    requires !t.failed
    ensures Readable(s, t.pred, x) ==> DecoderStep(s, t, [x], []) == StepOne(s, t, x)
    ensures !Readable(s, t.pred, x) ==> DecoderStep(s, t, [], [x]) == StepOne(s, t, x)
  {
    CodeOne(s, t.pred, x);
    if x.DcItem? && Readable(s, t.pred, x) {
      DcReadWhole(DcTable(s, x.ci), ContextAt(t.pred, x.ci), x.value - Predicted(t.pred, x.ci));
    }
    assert ReadCode(s, t.pred, [x], []) == ItemsCode(s, t.pred, [x]);
    assert ReadCode(s, t.pred, [], [x]) == ItemRead(s, t.pred, x);
  }

  lemma NoStep(s: Scan, t: DecoderState)
    requires !t.failed
    ensures DecoderStep(s, t, [], []) == t
  {
    assert t.decoded + ReadCode(s, t.pred, [], []) == t.decoded;
  }

  lemma BandFits(s: Scan, tbl: nat)
    requires ScanValid(s) && 1 <= FirstIndex(s) <= s.se
    ensures Fits(BandOf(s, tbl), BLOCK_SIZE)
  {
    assert Key(0);
  }

  // ----- blocks -----

  /** Sets bit al of x, in two's complement. */
  function SetBit(x: int, bit: bool, al: nat): int {
    if bit && ShiftRight(x, al) % 2 == 0 then x + Pow2(al) else x
  }

  /** The block went from before to after by what was read of it. */
  predicate BlockStored(s: Scan, items: seq<Item>, before: seq<int>, after: seq<int>) {
    if items == [] || before == [] || !IsOrder(s.order, |before|) || s.se >= |s.order| then false
    else match items[0]
      case DcItem(_, v) =>
        var mid := before[0 := Wrap16(v * Pow2(s.al))];
        if |items| == 1 then after == mid
        else |items| == 2 && items[1].AcItem? && |items[1].vals| == s.se + 1 && Stored(mid, after, s.order, FirstIndex(s), items[1].vals, s.al)
      case AcItem(_, vals) => |items| == 1 && |vals| == s.se + 1 && Stored(before, after, s.order, FirstIndex(s), vals, s.al)
      case BitItem(bit) => |items| == 1 && after == before[0 := SetBit(before[0], bit, s.al)]
      case RefineItem(_, vals) => |items| == 1 && |vals| == s.se + 1 && Refined(before, after, s.order, FirstIndex(s), vals, s.al)
  }

  /** The items of all blocks of an MCU. */
  function Flat(blocks: seq<seq<Item>>): seq<Item> {
    if blocks == [] then [] else Flat(blocks[..|blocks| - 1]) + blocks[|blocks| - 1]
  }

  lemma FlatAppend(blocks: seq<seq<Item>>, items: seq<Item>)
    ensures Flat(blocks + [items]) == Flat(blocks) + items
  {
    assert (blocks + [items])[..|blocks|] == blocks;
  }

  // ----- outcomes -----

  /** From t to t2, a decoder has read items of the given kinds, or failed on one of them. */
  ghost predicate Outcome(s: Scan, t: DecoderState, t2: DecoderState, kinds: seq<Kind>, good: seq<Item>, bad: seq<Item>) {
    forall i {:trigger Key(i)} :: Key(i) ==>
      ItemsRead(s, t.pred, kinds, good, bad) && t2 == DecoderStep(s, t, good, bad) && !t.failed
  }

  lemma NoOutcome(s: Scan, t: DecoderState)
    requires !t.failed
    ensures Outcome(s, t, t, [], [], [])
  {
    NoStep(s, t);
  }

  lemma OutcomeOne(s: Scan, t: DecoderState, t2: DecoderState, k: Kind, x: Item, ok: bool)
    requires OneDone(s, t, t2, k, x, ok)
    ensures Outcome(s, t, t2, [k], if ok then [x] else [], if ok then [] else [x])
  {
    assert Key(0);
    OneRead(s, t.pred, k, x);
    StepOfOne(s, t, x);
  }

  lemma OutcomeMore(s: Scan, t: DecoderState, t1: DecoderState, t2: DecoderState, k1: seq<Kind>, k2: seq<Kind>,
                    x: seq<Item>, good: seq<Item>, bad: seq<Item>)
    requires Outcome(s, t, t1, k1, x, []) && Outcome(s, t1, t2, k2, good, bad)
    ensures Outcome(s, t, t2, k1 + k2, x + good, bad)
  {
    assert Key(0);
    MoreRead(s, t.pred, k1, k2, x, good, bad);
    DecoderSteps(s, t, x, good, bad);
  }

  /** One more block of an MCU. */
  lemma OutcomeBlock(s: Scan, t: DecoderState, t1: DecoderState, t2: DecoderState, n: nat, prev: seq<int>,
                     blocks: seq<seq<Item>>, items: seq<Item>, bad: seq<Item>)
    requires Outcome(s, t, t1, McuKinds(s, n, prev), Flat(blocks), [])
    requires Outcome(s, t1, t2, BlockKinds(s, n, prev), items, bad)
    ensures Outcome(s, t, t2, McuKinds(s, n + 1, prev), Flat(blocks + [items]), bad)
  {
    OutcomeMore(s, t, t1, t2, McuKinds(s, n, prev), BlockKinds(s, n, prev), Flat(blocks), items, bad);
    FlatAppend(blocks, items);
  }

  /** A failure is the outcome whatever else is expected. */
  lemma OutcomeAnyMore(s: Scan, t: DecoderState, t2: DecoderState, k1: seq<Kind>, k2: seq<Kind>, good: seq<Item>, bad: seq<Item>)
    requires Outcome(s, t, t2, k1, good, bad) && bad != []
    ensures Outcome(s, t, t2, k1 + k2, good, bad)
  {
    assert Key(0);
    assert (k1 + k2)[|good|] == k1[|good|];
  }

  /** The outcome of an MCU that fails has the kinds of all its blocks. */
  lemma {:induction false} OutcomeFailed(s: Scan, t: DecoderState, t2: DecoderState, n: nat, m: nat, prev: seq<int>,
                                         good: seq<Item>, bad: seq<Item>)
    requires Outcome(s, t, t2, McuKinds(s, n, prev), good, bad) && bad != [] && n <= m
    ensures Outcome(s, t, t2, McuKinds(s, m, prev), good, bad)
    decreases m - n
  {
    if n < m {
      OutcomeAnyMore(s, t, t2, McuKinds(s, n, prev), BlockKinds(s, n, prev), good, bad);
      OutcomeFailed(s, t, t2, n + 1, m, prev, good, bad);
    }
  }

  /** A block of a sequential scan that ends with its DC coefficient, as a failure or because there is
      nothing else. */
  lemma DcAlone(s: Scan, t: DecoderState, t2: DecoderState, i: nat, prev: seq<int>, x: Item, ok: bool)
    requires !s.progressive && i < |s.membership| && (ok ==> s.limSe == 0)
    requires OneDone(s, t, t2, DcKind(s.membership[i]), x, ok)
    ensures Outcome(s, t, t2, BlockKinds(s, i, prev), if ok then [x] else [], if ok then [] else [x])
  {
    var ci := s.membership[i];
    OutcomeOne(s, t, t2, DcKind(ci), x, ok);
    if s.limSe == 0 {
      assert BlockKinds(s, i, prev) == [DcKind(ci)];
    } else {
      OutcomeAnyMore(s, t, t2, [DcKind(ci)], [AcKind(AcTable(s, ci))], [], [x]);
    }
  }

  /** A block of a sequential scan with its AC coefficients. */
  lemma DcAndBand(s: Scan, t: DecoderState, t1: DecoderState, t2: DecoderState, i: nat, prev: seq<int>, x: Item, y: Item, ok: bool)
    requires !s.progressive && i < |s.membership| && s.limSe != 0
    requires OneDone(s, t, t1, DcKind(s.membership[i]), x, true)
    requires OneDone(s, t1, t2, AcKind(AcTable(s, s.membership[i])), y, ok)
    ensures Outcome(s, t, t2, BlockKinds(s, i, prev), if ok then [x, y] else [x], if ok then [] else [y])
  {
    var ci := s.membership[i];
    OutcomeOne(s, t, t1, DcKind(ci), x, true);
    OutcomeOne(s, t1, t2, AcKind(AcTable(s, ci)), y, ok);
    OutcomeMore(s, t, t1, t2, [DcKind(ci)], [AcKind(AcTable(s, ci))], [x], if ok then [y] else [], if ok then [] else [y]);
    assert [x] + (if ok then [y] else []) == if ok then [x, y] else [x];
  }

  lemma SequentialStored(s: Scan, i: nat, x: Item, items: seq<Item>, before: seq<int>, mid: seq<int>, after: seq<int>)
    requires ScanValid(s) && !s.progressive && i < |s.membership| && |before| == BLOCK_SIZE
    requires x.DcItem? && mid == before[0 := Wrap16(x.value)]
    requires if s.limSe == 0 then items == [x] && after == mid
             else |items| == 2 && items[0] == x && items[1].AcItem? && |items[1].vals| == s.se + 1 <= |s.order|
                  && IsOrder(s.order, BLOCK_SIZE) && Stored(mid, after, s.order, FirstIndex(s), items[1].vals, s.al)
    ensures |items| == |BlockKinds(s, i, [])| && BlockStored(s, items, before, after)
  {
    ScanFacts(s);
    var one := Pow2(s.al);
    assert one == 1;
    assert x.value * one == x.value;
  }

  /** What decoding an MCU makes of a state from which it starts. */
  ghost predicate McuOutcome(s: Scan, t: DecoderState, t2: DecoderState, prev: seq<int>, items: seq<seq<Item>>, bad: seq<Item>) {
    if t.failed then t2 == t && items == [] && bad == []
    else Outcome(s, t, t2, McuKinds(s, |s.membership|, prev), Flat(items), bad) && (bad == [] ==> |items| == |s.membership|)
  }

  /** The first n blocks of an MCU are stored, the others are as before. */
  ghost predicate StoredUpTo(s: Scan, items: seq<seq<Item>>, n: nat, before: seq<seq<int>>, after: seq<seq<int>>) {
    forall k {:trigger Key(k)} :: Key(k) ==>
      && n <= |items| && n <= |before| == |after|
      && (forall i :: 0 <= i < n ==> |items[i]| == |BlockKinds(s, i, [])| && BlockStored(s, items[i], before[i], after[i]))
      && (forall i :: n <= i < |before| ==> after[i] == before[i])
  }

  lemma NoBlockStored(s: Scan, blocks: seq<seq<int>>)
    ensures StoredUpTo(s, [], 0, blocks, blocks)
  {
  }

  ghost predicate McuStored(s: Scan, items: seq<seq<Item>>, bad: seq<Item>, before: seq<seq<int>>, after: seq<seq<int>>) {
    bad == [] ==> |items| <= |before| && StoredUpTo(s, items, |items|, before, after)
  }

  lemma StoredOneMore(s: Scan, items: seq<seq<Item>>, n: nat, before: seq<seq<int>>, mid: seq<seq<int>>, after: seq<seq<int>>)
    requires |items| == n + 1 && n < |before| == |mid| == |after|
    requires StoredUpTo(s, items[..n], n, before, mid)
    requires |items[n]| == |BlockKinds(s, n, [])| && BlockStored(s, items[n], mid[n], after[n])
    requires forall i :: 0 <= i < |before| && i != n ==> after[i] == mid[i]
    ensures StoredUpTo(s, items, n + 1, before, after)
  {
    assert Key(0);
    forall i | 0 <= i < n ensures |items[i]| == |BlockKinds(s, i, [])| && BlockStored(s, items[i], before[i], after[i]) {
      assert items[..n][i] == items[i];
    }
  }

  /** In a scan of a band there is one block, of the only component. */
  lemma BandKinds(s: Scan, i: nat, prev: seq<int>)
    requires ScanValid(s) && s.ss != 0 && i < |s.membership|
    ensures BlockKinds(s, i, prev) == [if s.ah == 0 then AcKind(AcTable(s, 0)) else RefineKind(AcTable(s, 0), prev)]
    ensures |BlockKinds(s, i, [])| == 1
  {
    ScanFacts(s);
    assert s.membership[i] == 0;
  }
}
