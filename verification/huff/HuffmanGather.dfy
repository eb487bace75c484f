/** The statistics pass: the symbols of every MCU are counted exactly as the output pass will send them,
    with the same restarts. */
module HuffmanGather {
  import opened Powers
  import opened CanonicalCode
  import opened BlockCode
  import opened BlockEncoder
  import opened HuffmanScan
  import opened HuffmanEncoder

  const COUNTS := TABLE_SIZE + 1

  /** A block that was counted, and the tables its symbols were counted for. */
  datatype BlockUse = BlockUse(dcTbl: nat, acTbl: nat, vals: seq<int>, pred: int)

  /** How often the blocks use a DC or AC symbol of a table. */
  function DcTally(log: seq<BlockUse>, tbl: nat, s: nat): nat {
    if log == [] then 0
    else
      var u := log[|log| - 1];
      DcTally(log[..|log| - 1], tbl, s) + (if u.dcTbl == tbl && u.vals != [] then Uses([DcSymbol(u.vals, u.pred)], s) else 0)
  }

  function AcTally(log: seq<BlockUse>, tbl: nat, s: nat): nat {
    if log == [] then 0
    else
      var u := log[|log| - 1];
      AcTally(log[..|log| - 1], tbl, s) + (if u.acTbl == tbl && u.vals != [] then Uses(AcSymbols(u.vals, 1, 0), s) else 0)
  }

  // ----- the blocks of a scan -----

  function UseAt(s: Setup, preds: seq<int>, mcu: Mcu, b: nat): BlockUse
    requires b < |mcu| && b < |s.membership|
  {
    var ci, before := s.membership[b], McuPreds(s, preds, mcu, b);
    if ci < |s.comps| && ci < |before| then BlockUse(s.comps[ci].dcTbl, s.comps[ci].acTbl, mcu[b], before[ci])
    else BlockUse(0, 0, [], 0)
  }

  function McuUses(s: Setup, preds: seq<int>, mcu: Mcu, b: nat): seq<BlockUse>
    requires b <= |mcu| && b <= |s.membership|
  {
    if b == 0 then [] else McuUses(s, preds, mcu, b - 1) + [UseAt(s, preds, mcu, b - 1)]
  }

  ghost function RunUses(s: Setup, mcus: seq<Mcu>, n: nat): seq<BlockUse>
    requires n <= |mcus| && AllMcus(s, mcus)
  {
    if n == 0 then []
    else RunUses(s, mcus, n - 1) + McuUses(s, RunPreds(s, mcus, n - 1), mcus[n - 1], |s.membership|)
  }

  ghost function DoneUses(s: Setup, done: seq<seq<Mcu>>): seq<BlockUse>
    requires forall i :: 0 <= i < |done| ==> AllMcus(s, done[i])
  {
    if done == [] then []
    else DoneUses(s, done[..|done| - 1]) + RunUses(s, done[|done| - 1], |done[|done| - 1]|)
  }

  ghost function ProgressUses(s: Setup, g: Progress): seq<BlockUse>
    requires IsProgress(s, g)
  {
    DoneUses(s, g.done) + RunUses(s, g.cur, |g.cur|)
  }

  lemma RestartUses(s: Setup, g: Progress)
    requires IsProgress(s, g) && IsProgress(s, Restarted(s, g))
    ensures ProgressUses(s, Restarted(s, g)) == ProgressUses(s, g)
  {
    if RestartDue(s, g) {
      assert (g.done + [g.cur])[..|g.done|] == g.done;
    }
  }

  lemma {:induction false} RunUsesSame(s: Setup, x: seq<Mcu>, y: seq<Mcu>, n: nat)
    requires n <= |x| <= |y| && AllMcus(s, x) && AllMcus(s, y) && x == y[..|x|]
    ensures RunUses(s, x, n) == RunUses(s, y, n)
  {
    if n > 0 {
      RunUsesSame(s, x, y, n - 1);
      RunPredsSame(s, x, y, n - 1);
      assert x[n - 1] == y[n - 1];
    }
  }

  lemma {:induction false} StepUses(s: Setup, g: Progress, mcu: Mcu)
    requires IsProgress(s, g) && IsMcu(s, mcu) && IsProgress(s, Restarted(s, g)) && IsProgress(s, Step(s, g, mcu))
    ensures var cur := Restarted(s, g).cur;
      ProgressUses(s, Step(s, g, mcu)) == ProgressUses(s, g) + McuUses(s, RunPreds(s, cur, |cur|), mcu, |s.membership|)
  {
    RestartUses(s, g);
    var r := Restarted(s, g);
    var more := r.cur + [mcu];
    assert more[..|r.cur|] == r.cur && more[|more| - 1] == mcu;
    RunUsesSame(s, r.cur, more, |r.cur|);
    RunPredsSame(s, r.cur, more, |r.cur|);
    Reassociate(DoneUses(s, r.done), RunUses(s, r.cur, |r.cur|), McuUses(s, RunPreds(s, r.cur, |r.cur|), mcu, |s.membership|));
  }

  // ----- counting -----

  lemma TallyOne(log: seq<BlockUse>, u: BlockUse, i: nat, s: nat)
    requires u.vals != []
    ensures DcTally(log + [u], i, s) == DcTally(log, i, s) + if u.dcTbl == i then Uses([DcSymbol(u.vals, u.pred)], s) else 0
    ensures AcTally(log + [u], i, s) == AcTally(log, i, s) + if u.acTbl == i then Uses(AcSymbols(u.vals, 1, 0), s) else 0
  {
    assert (log + [u])[..|log|] == log;
  }

  /** Values in range, in the first b blocks of an MCU. */
  ghost predicate McuFits(s: Setup, preds: seq<int>, mcu: Mcu, b: nat)
    requires b <= |mcu| && b <= |s.membership|
  {
    forall i :: 0 <= i < b ==> UseFits(UseAt(s, preds, mcu, i))
  }

  predicate UseFits(u: BlockUse) {
    u.vals != [] ==> Fits(u.vals, u.pred)
  }

  /** Tables of counts that do not overlap. */
  ghost predicate Separate(dc: seq<array<nat>>, ac: seq<array<nat>>) {
    && |dc| == |ac| == NUM_HUFF_TBLS
    && (forall i :: 0 <= i < NUM_HUFF_TBLS ==> dc[i].Length == ac[i].Length == COUNTS)
    && (forall i, j :: 0 <= i < NUM_HUFF_TBLS && 0 <= j < NUM_HUFF_TBLS ==> dc[i] != ac[j])
    && (forall i, j :: 0 <= i < j < NUM_HUFF_TBLS ==> dc[i] != dc[j] && ac[i] != ac[j])
  }

  /** The counts are those of the blocks in the log. */
  ghost predicate AllTallied(log: seq<BlockUse>, dc: seq<array<nat>>, ac: seq<array<nat>>)
    reads dc, ac
  {
    && Separate(dc, ac)
    && (forall i, s :: 0 <= i < NUM_HUFF_TBLS && 0 <= s < COUNTS ==> dc[i][s] == DcTally(log, i, s))
    && (forall i, s :: 0 <= i < NUM_HUFF_TBLS && 0 <= s < COUNTS ==> ac[i][s] == AcTally(log, i, s))
  }

  ghost predicate IsTallied(log: seq<BlockUse>, dc: seq<array<nat>>, ac: seq<array<nat>>, r: bool)
    reads dc, ac
  {
    forall k {:trigger Key(k)} :: Key(k) ==> r == AllTallied(log, dc, ac)
  }

  ghost function Tallied(log: seq<BlockUse>, dc: seq<array<nat>>, ac: seq<array<nat>>): (r: bool)
    reads dc, ac
    ensures IsTallied(log, dc, ac, r)
  {
    assert IsTallied(log, dc, ac, AllTallied(log, dc, ac));
    var r: bool :| IsTallied(log, dc, ac, r);
    r
  }

  lemma TalliedIs(log: seq<BlockUse>, dc: seq<array<nat>>, ac: seq<array<nat>>)
    ensures Tallied(log, dc, ac) <==> AllTallied(log, dc, ac)
  {
    assert Key(0);
  }

  /** Counts one block. */
  method GatherBlock(block: seq<int>, lastDc: int, dc: seq<array<nat>>, ac: seq<array<nat>>, dcTbl: nat, acTbl: nat,
                     order: seq<nat>, se: nat, ghost log: seq<BlockUse>, ghost u: BlockUse)
    returns (ok: bool)
    requires Tallied(log, dc, ac) && Separate(dc, ac) && OrderFits(order, se, |block|)
    requires dcTbl < NUM_HUFF_TBLS && acTbl < NUM_HUFF_TBLS
    requires u == BlockUse(dcTbl, acTbl, Zigzag(block, order, se), lastDc)
    modifies dc[dcTbl], ac[acTbl]
    ensures ok <==> UseFits(u)
    ensures ok ==> Tallied(log + [u], dc, ac)
  {
    TalliedIs(log, dc, ac);
    ok := HtestOneBlock(block, lastDc, dc[dcTbl], ac[acTbl], order, se);
    if ok {
      forall i, s | 0 <= i < NUM_HUFF_TBLS && 0 <= s < COUNTS
        ensures dc[i][s] == DcTally(log + [u], i, s) && ac[i][s] == AcTally(log + [u], i, s)
      {
        TallyOne(log, u, i, s);
        if i == dcTbl { assert dc[i][s] == dc[dcTbl][..][s]; }
        if i == acTbl { assert ac[i][s] == ac[acTbl][..][s]; }
      }
      TalliedIs(log + [u], dc, ac);
    }
  }

  lemma UseIs(s: Setup, preds: seq<int>, mcu: Mcu, b: nat)
    requires IsSetup(s) && IsMcu(s, mcu) && |preds| == |s.comps| && b < |s.membership|
    ensures var ci, lastDc := s.membership[b], McuPreds(s, preds, mcu, b);
      && ci < |s.comps| && s.comps[ci].dcTbl < NUM_HUFF_TBLS && s.comps[ci].acTbl < NUM_HUFF_TBLS && |mcu[b]| == s.se + 1
      && UseAt(s, preds, mcu, b) == BlockUse(s.comps[ci].dcTbl, s.comps[ci].acTbl, mcu[b], lastDc[ci])
      && McuPreds(s, preds, mcu, b + 1) == lastDc[ci := mcu[b][0]]
  {
    assert Key(0);
  }

  lemma FitsMore(s: Setup, preds: seq<int>, mcu: Mcu, b: nat, ok: bool)
    requires b < |mcu| && b < |s.membership| <= |mcu| && McuFits(s, preds, mcu, b) && (ok <==> UseFits(UseAt(s, preds, mcu, b)))
    ensures McuFits(s, preds, mcu, b + 1) <==> ok
    ensures !ok ==> !McuFits(s, preds, mcu, |s.membership|)
  {
  }

  /** Counts the blocks of an MCU. */
  method GatherBlocks(s: Setup, blocks: seq<seq<int>>, dc: seq<array<nat>>, ac: seq<array<nat>>, lastDc0: seq<int>,
                      ghost log: seq<BlockUse>, ghost mcu: Mcu)
    returns (ok: bool, lastDc: seq<int>)
    requires Tallied(log, dc, ac) && Separate(dc, ac) && IsSetup(s) && AreBlocks(s, blocks) && |lastDc0| == |s.comps|
    requires mcu == ZigzagMcu(s, blocks) && IsMcu(s, mcu)
    modifies dc, ac
    ensures ok <==> McuFits(s, lastDc0, mcu, |s.membership|)
    ensures ok ==> Tallied(log + McuUses(s, lastDc0, mcu, |s.membership|), dc, ac)
    ensures ok ==> lastDc == McuPreds(s, lastDc0, mcu, |s.membership|)
  {
    lastDc := lastDc0;
    var b := 0;
    assert log + McuUses(s, lastDc0, mcu, 0) == log;
    while b < |s.membership|
      invariant 0 <= b <= |s.membership| && McuFits(s, lastDc0, mcu, b) && lastDc == McuPreds(s, lastDc0, mcu, b)
      invariant Tallied(log + McuUses(s, lastDc0, mcu, b), dc, ac)
    {
      ok, lastDc := GatherBlockAt(s, blocks, b, dc, ac, lastDc, lastDc0, log, mcu);
      FitsMore(s, lastDc0, mcu, b, ok);
      if !ok { return; }
      b := b + 1;
    }
    ok := true;
  }

  /** Block b of an MCU. */
  method GatherBlockAt(s: Setup, blocks: seq<seq<int>>, b: nat, dc: seq<array<nat>>, ac: seq<array<nat>>, lastDc: seq<int>,
                       ghost lastDc0: seq<int>, ghost log: seq<BlockUse>, ghost mcu: Mcu)
    returns (ok: bool, next: seq<int>)
    requires Separate(dc, ac) && IsSetup(s) && AreBlocks(s, blocks) && |lastDc0| == |s.comps|
    requires mcu == ZigzagMcu(s, blocks) && IsMcu(s, mcu) && b < |s.membership| && lastDc == McuPreds(s, lastDc0, mcu, b)
    requires Tallied(log + McuUses(s, lastDc0, mcu, b), dc, ac)
    modifies dc, ac
    ensures ok <==> UseFits(UseAt(s, lastDc0, mcu, b))
    ensures ok ==> next == McuPreds(s, lastDc0, mcu, b + 1) && Tallied(log + McuUses(s, lastDc0, mcu, b + 1), dc, ac)
  {
    UseIs(s, lastDc0, mcu, b);
    ghost var u, sofar := UseAt(s, lastDc0, mcu, b), log + McuUses(s, lastDc0, mcu, b);
    var ci := s.membership[b];
    ok := GatherBlock(blocks[b], lastDc[ci], dc, ac, s.comps[ci].dcTbl, s.comps[ci].acTbl, s.order, s.se, sofar, u);
    Reassociate(log, McuUses(s, lastDc0, mcu, b), [u]);
    next := lastDc[ci := blocks[b][0]];
  }

  /** Predictions and counted blocks are those of the MCUs so far. */
  ghost predicate Gathered(s: Setup, g: Progress, log: seq<BlockUse>, lastDc: seq<int>) {
    IsProgress(s, g) && log == ProgressUses(s, g) && lastDc == RunPreds(s, g.cur, |g.cur|)
  }

  ghost predicate IsGathered(s: Setup, g: Progress, log: seq<BlockUse>, lastDc: seq<int>, r: bool) {
    forall k {:trigger Key(k)} :: Key(k) ==> r == Gathered(s, g, log, lastDc)
  }

  ghost function GatheredSo(s: Setup, g: Progress, log: seq<BlockUse>, lastDc: seq<int>): (r: bool)
    ensures IsGathered(s, g, log, lastDc, r)
  {
    assert IsGathered(s, g, log, lastDc, Gathered(s, g, log, lastDc));
    var r: bool :| IsGathered(s, g, log, lastDc, r);
    r
  }

  lemma GatheredIs(s: Setup, g: Progress, log: seq<BlockUse>, lastDc: seq<int>)
    ensures GatheredSo(s, g, log, lastDc) <==> Gathered(s, g, log, lastDc)
  {
    assert Key(0);
  }

  lemma GatherStart(s: Setup)
    ensures GatheredSo(s, Progress([], []), [], seq(|s.comps|, c => 0))
  {
    GatheredIs(s, Progress([], []), [], seq(|s.comps|, c => 0));
    var none: seq<Mcu> := [];
    assert RunPreds(s, none, 0) == seq(|s.comps|, c => 0) && RunUses(s, none, 0) == [];
  }

  lemma GatherRestart(s: Setup, g: Progress, log: seq<BlockUse>, lastDc: seq<int>)
    requires GatheredSo(s, g, log, lastDc)
    ensures |lastDc| == |s.comps| && IsProgress(s, g)
    ensures GatheredSo(s, Restarted(s, g), log, if RestartDue(s, g) then seq(|s.comps|, c => 0) else lastDc)
  {
    GatheredIs(s, g, log, lastDc);
    RestartUses(s, g);
    GatheredIs(s, Restarted(s, g), log, if RestartDue(s, g) then seq(|s.comps|, c => 0) else lastDc);
    var none: seq<Mcu> := [];
    assert RunPreds(s, none, 0) == seq(|s.comps|, c => 0);
  }

  lemma GatherMcu(s: Setup, g: Progress, log: seq<BlockUse>, lastDc: seq<int>, mcu: Mcu)
    requires GatheredSo(s, g, log, lastDc) && IsMcu(s, mcu) && !RestartDue(s, g)
    ensures GatheredSo(s, Step(s, g, mcu), log + McuUses(s, lastDc, mcu, |s.membership|), McuPreds(s, lastDc, mcu, |s.membership|))
  {
    GatheredIs(s, g, log, lastDc);
    StepIsProgress(s, g, mcu);
    StepUses(s, g, mcu);
    var more := g.cur + [mcu];
    RunPredsSame(s, g.cur, more, |g.cur|);
    GatheredIs(s, Step(s, g, mcu), log + McuUses(s, lastDc, mcu, |s.membership|), McuPreds(s, lastDc, mcu, |s.membership|));
  }

  /** An MCU can be counted next: its values are in range. */
  ghost predicate NextFits(s: Setup, g: Progress, mcu: Mcu)
    requires IsProgress(s, g) && IsMcu(s, mcu)
  {
    var cur := Restarted(s, g).cur;
    McuFits(s, RunPreds(s, cur, |cur|), mcu, |s.membership|)
  }

  lemma PredsAre(s: Setup, g: Progress, log: seq<BlockUse>, lastDc: seq<int>)
    requires GatheredSo(s, g, log, lastDc)
    ensures IsProgress(s, g) && lastDc == RunPreds(s, g.cur, |g.cur|)
  {
    GatheredIs(s, g, log, lastDc);
  }

  predicate AllFit(log: seq<BlockUse>) {
    forall u :: u in log ==> UseFits(u)
  }

  lemma {:induction false} McuUsesFit(s: Setup, preds: seq<int>, mcu: Mcu, b: nat)
    requires b <= |mcu| && b <= |s.membership| && McuFits(s, preds, mcu, b)
    ensures AllFit(McuUses(s, preds, mcu, b))
  {
    if b > 0 {
      McuUsesFit(s, preds, mcu, b - 1);
      assert UseFits(UseAt(s, preds, mcu, b - 1));
    }
  }

  class Gatherer {
    const s: Setup
    const dcCounts: seq<array<nat>>
    const acCounts: seq<array<nat>>
    var lastDc: seq<int>
    var restartsToGo: nat
    ghost var progress: Progress
    ghost var log: seq<BlockUse>

    ghost predicate Valid()
      reads this, dcCounts, acCounts
    {
      && IsSetup(s) && Separate(dcCounts, acCounts) && Tallied(log, dcCounts, acCounts)
      && GatheredSo(s, progress, log, lastDc) && AllFit(log) && (s.interval > 0 ==> restartsToGo + |progress.cur| == s.interval)
    }

    constructor (s: Setup, dcCounts: seq<array<nat>>, acCounts: seq<array<nat>>)
      requires IsSetup(s) && Tallied([], dcCounts, acCounts) && Separate(dcCounts, acCounts)
      ensures Valid() && this.s == s && progress == Progress([], []) && log == []
      ensures this.dcCounts == dcCounts && this.acCounts == acCounts
    {
      this.s, this.dcCounts, this.acCounts := s, dcCounts, acCounts;
      lastDc, restartsToGo := seq(|s.comps|, c => 0), s.interval;
      progress, log := Progress([], []), [];
      GatherStart(s);
    }

    /** Counts an MCU, starting predictions over where the output pass will restart. */
    method EncodeMcuGather(blocks: seq<seq<int>>) returns (ok: bool)
      requires Valid() && AreBlocks(s, blocks)
      modifies this, dcCounts, acCounts
      ensures IsMcu(s, ZigzagMcu(s, blocks)) && IsProgress(s, old(progress))
      ensures ok <==> NextFits(s, old(progress), ZigzagMcu(s, blocks))
      ensures ok ==> Valid() && progress == Step(s, old(progress), ZigzagMcu(s, blocks))
    {
      ghost var mcu, r := ZigzagMcu(s, blocks), Restarted(s, progress);
      ZigzagIsMcu(s, blocks);
      GatherRestart(s, progress, log, lastDc);
      if s.interval > 0 {
        if restartsToGo == 0 {
          lastDc := seq(|s.comps|, c => 0);
          restartsToGo := s.interval;
        }
        restartsToGo := restartsToGo - 1;
      }
      PredsAre(s, r, log, lastDc);
      ghost var preds := lastDc;
      ok, lastDc := GatherBlocks(s, blocks, dcCounts, acCounts, lastDc, log, mcu);
      if ok {
        GatherMcu(s, r, log, preds, mcu);
        McuUsesFit(s, preds, mcu, |s.membership|);
        log := log + McuUses(s, preds, mcu, |s.membership|);
        progress := Step(s, progress, mcu);
      }
    }
  }
}
