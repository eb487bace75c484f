/** Arithmetic encoding of the MCUs of a scan. */
module ScanEncoder {
  import opened Powers
  import opened ByteStream
  import opened CodeInterval
  import opened Termination
  import opened CoefficientModel
  import opened CoefficientEncoder
  import opened ScanModel
  import ArithEncoder

  class ScanEncoder {
    const scan: Scan
    const e: ArithEncoder.Encoder
    var lastDc: seq<int>        // last DC value of each component
    var dcContext: seq<nat>     // context for DC conditioning of each component
    var restartsToGo: nat       // MCUs left in this restart interval
    var nextRestartNum: nat     // next restart number to write

    ghost function State(): EncoderState
      reads this, e
    {
      EncoderState(e.prefix, e.origin, e.coded, Pred(lastDc, dcContext), restartsToGo, nextRestartNum)
    }

    ghost predicate Valid()
      reads this, e
    {
      && ScanValid(scan) && e.Valid() && EncoderRuns(State())
      && |lastDc| == |dcContext| == |scan.comps|
    }

    /** Starts a scan behind everything written so far. */
    constructor (scan: Scan, e: ArithEncoder.Encoder)
      requires ScanValid(scan)
      modifies e
      ensures Valid() && this.scan == scan && this.e == e
      ensures State() == EncoderState(old(e.out), FreshCoder(Cleared(scan, old(e.stats))), [],
                                      Pred(seq(|scan.comps|, _ => 0), seq(|scan.comps|, _ => 0)),
                                      scan.restartInterval, 0)
      ensures AreasCleared(scan, old(e.stats), e.stats)
    {
      this.scan, this.e := scan, e;
      lastDc, dcContext := seq(|scan.comps|, _ => 0), seq(|scan.comps|, _ => 0);
      restartsToGo, nextRestartNum := scan.restartInterval, 0;
      new;
      var stats, p := Reinitialize(scan, scan.ss == 0 && scan.ah == 0, scan.se != 0, e.stats, Pred(lastDc, dcContext));
      e.ResetRegisters(stats);
      e.StatsTraced();
      ClearedIs(scan, old(e.stats), p);
    }

    /** Ends the last segment of the scan. */
    method FinishPass()
      requires Valid()
      modifies e
      ensures e.out == old(e.prefix) + Written(old(State())) && e.stats == old(e.stats)
    {
      e.FinishPass();
      SegmentWritten(e.data, e.origin, e.coded);
    }

    lemma SegmentWritten(data: seq<byte>, origin: Coder, coded: seq<Decision>)
      requires origin == FreshCoder(origin.stats) && IsSegment(data, Run(origin, coded))
      ensures data == SegmentData(Run(origin, coded))
    {
      FreshIsNormal(origin.stats);
      RunNormal(origin, coded);
      SegmentIsData(data, Run(origin, coded));
    }

    /** Writes a restart marker behind the segment and starts a new one. */
    method EmitRestart(restartNum: nat)
      requires Valid() && restartNum == nextRestartNum
      modifies this, e
      ensures Valid() && restartsToGo == old(restartsToGo) && nextRestartNum == old(nextRestartNum)
      ensures e.prefix == old(e.prefix) + Written(old(State())) + [0xFF, RestartMarker(restartNum)]
      ensures e.origin == FreshCoder(Cleared(scan, Run(old(e.origin), old(e.coded)).stats)) && e.coded == []
      ensures Pred(lastDc, dcContext) == ClearedPred(scan, Pred(old(lastDc), old(dcContext)))
      ensures AreasCleared(scan, old(e.stats), e.stats)
      ensures PredictionsCleared(scan, Pred(old(lastDc), old(dcContext)), Pred(lastDc, dcContext))
    {
      e.StatsTraced();
      FinishPass();
      e.EmitByte(0xFF);
      e.EmitByte(0xD0 + restartNum);
      var stats, p := Reinitialize(scan, scan.ss == 0 && scan.ah == 0, scan.se != 0, e.stats, Pred(lastDc, dcContext));
      lastDc, dcContext := p.dc, p.context;
      e.ResetRegisters(stats);
      e.StatsTraced();
      ClearedIs(scan, old(e.stats), Pred(old(lastDc), old(dcContext)));
    }

    /** What every MCU starts with. */
    method RestartIfDue()
      requires Valid()
      modifies this, e
      ensures Valid() && State() == EncoderRestart(scan, old(State()))
    {
      if scan.restartInterval != 0 {
        if restartsToGo == 0 {
          EmitRestart(nextRestartNum);
          restartsToGo := scan.restartInterval;
          nextRestartNum := (nextRestartNum + 1) % 8;
        }
        restartsToGo := restartsToGo - 1;
      }
    }
  
    /** The DC value v of component ci. */
    method EncodeDc(ci: nat, v: int)
      requires Valid() && ci < |scan.comps|
      modifies this, e
      ensures Valid() && Stepped(scan, old(State()), State(), [DcItem(ci, v)])
    {
      var tbl, context, diff := DcTable(scan, ci), dcContext[ci], v - lastDc[ci];
      var next;
      ghost var code;
      next, code := EncodeDcDifference(e, Cond(scan, tbl), tbl, context, diff);
      lastDc, dcContext := lastDc[ci := v], dcContext[ci := next];
      SteppedDc(scan, old(State()), State(), ci, v, tbl, context, diff, next, code);
    }

    /** A band of AC coefficients. */
    method EncodeAc(tbl: nat, vals: seq<int>)
      requires Valid() && 1 <= FirstIndex(scan) <= scan.se && Decodable(vals, scan.se)
      modifies this, e
      ensures Valid() && Stepped(scan, old(State()), State(), [AcItem(tbl, vals)])
    {
      EncodeAcCoefficients(e, Cond(scan, tbl), tbl, vals, FirstIndex(scan), scan.se);
      SteppedAc(scan, old(State()), State(), tbl, vals);
    }

    method EncodeBit(bit: bool)
      requires Valid()
      modifies this, e
      ensures Valid() && Stepped(scan, old(State()), State(), [BitItem(bit)])
    {
      e.ArithEncode(Fixed, bit);
      SteppedBit(scan, old(State()), State(), bit);
    }

    /** One more bit of a band of AC coefficients. */
    method EncodeRefinement(tbl: nat, vals: seq<int>)
      requires Valid() && 1 <= scan.ss <= scan.se == |vals| - 1
      modifies this, e
      ensures Valid() && Stepped(scan, old(State()), State(), [RefineItem(tbl, vals)])
    {
      EncodeAcRefinement(e, tbl, vals, scan.ss, scan.se);
      SteppedRefinement(scan, old(State()), State(), tbl, vals);
    }

    /** Block i of an MCU of a sequential scan. */
    method EncodeBlock(i: nat, block: seq<int>)
      requires Valid() && !scan.progressive && i < |scan.membership| && IsBlock(block)
      modifies this, e
      ensures Valid() && Stepped(scan, old(State()), State(), BlockItems(scan, i, block))
    {
      ScanFacts(scan);
      var ci := scan.membership[i];
      EncodeDc(ci, block[0]);
      if scan.limSe != 0 {
        ghost var mid := State();
        var vals := BandValues(block, scan.order, 1, scan.se, 0);
        BandInRange(block, scan.order, 1, scan.se, 0);
        EncodeAc(AcTable(scan, ci), vals);
        SteppedMore(scan, old(State()), mid, State(), [DcItem(ci, block[0])], [AcItem(AcTable(scan, ci), vals)]);
        assert BlockItems(scan, i, block) == [DcItem(ci, block[0])] + [AcItem(AcTable(scan, ci), vals)];
      } else {
        assert BlockItems(scan, i, block) == [DcItem(ci, block[0])];
      }
    }

    /** Encodes one MCU of a sequential scan. */
    method EncodeMcu(blocks: seq<seq<int>>)
      requires Valid() && !scan.progressive && IsMcu(scan, blocks)
      modifies this, e
      ensures Valid() && State() == EncoderStep(scan, EncoderRestart(scan, old(State())), McuItems(scan, blocks))
    {
      RestartIfDue();
      ghost var start := State();
      SteppedNone(scan, start);
      for i := 0 to |scan.membership|
        invariant Valid() && Stepped(scan, start, State(), McuItems(scan, blocks[..i]))
      {
        ghost var before := State();
        EncodeBlock(i, blocks[i]);
        OneMoreBlock(scan, start, before, State(), blocks, i);
      }
      AllBlocks(scan, start, State(), blocks);
    }

    /** Encodes one MCU of the first DC scan of a progression. */
    method EncodeMcuDcFirst(blocks: seq<seq<int>>)
      requires Valid() && scan.progressive && scan.ss == 0 && scan.ah == 0 && IsMcu(scan, blocks)
      modifies this, e
      ensures Valid() && State() == EncoderStep(scan, EncoderRestart(scan, old(State())), McuItems(scan, blocks))
    {
      ScanFacts(scan);
      RestartIfDue();
      ghost var start := State();
      SteppedNone(scan, start);
      for i := 0 to |scan.membership|
        invariant Valid() && Stepped(scan, start, State(), McuItems(scan, blocks[..i]))
      {
        ghost var before := State();
        EncodeDc(scan.membership[i], ShiftRight(blocks[i][0], scan.al));
        OneMoreBlock(scan, start, before, State(), blocks, i);
      }
      AllBlocks(scan, start, State(), blocks);
    }

    /** Encodes the single block of an MCU of the first scan of a band. */
    method EncodeMcuAcFirst(blocks: seq<seq<int>>)
      requires Valid() && scan.progressive && scan.ss != 0 && scan.ah == 0 && IsMcu(scan, blocks)
      modifies this, e
      ensures Valid() && State() == EncoderStep(scan, EncoderRestart(scan, old(State())), McuItems(scan, blocks))
    {
      ScanFacts(scan);
      RestartIfDue();
      ghost var start := State();
      var vals := BandValues(blocks[0], scan.order, scan.ss, scan.se, scan.al);
      BandInRange(blocks[0], scan.order, scan.ss, scan.se, scan.al);
      EncodeAc(AcTable(scan, 0), vals);
      SingleBand(scan, start, State(), blocks, vals);
    }

    /** Encodes one more bit of the DC coefficients of an MCU. */
    method EncodeMcuDcRefine(blocks: seq<seq<int>>)
      requires Valid() && scan.progressive && scan.ss == 0 && scan.ah != 0 && IsMcu(scan, blocks)
      modifies this, e
      ensures Valid() && State() == EncoderStep(scan, EncoderRestart(scan, old(State())), McuItems(scan, blocks))
    {
      ScanFacts(scan);
      RestartIfDue();
      ghost var start := State();
      SteppedNone(scan, start);
      for i := 0 to |scan.membership|
        invariant Valid() && Stepped(scan, start, State(), McuItems(scan, blocks[..i]))
      {
        ghost var before := State();
        var bit := ShiftRight(blocks[i][0], scan.al) % 2 == 1;
        EncodeBit(bit);
        OneMoreBlock(scan, start, before, State(), blocks, i);
      }
      AllBlocks(scan, start, State(), blocks);
    }

    /** Encodes one more bit of a band for the single block of an MCU. */
    method EncodeMcuAcRefine(blocks: seq<seq<int>>)
      requires Valid() && scan.progressive && scan.ss != 0 && scan.ah != 0 && IsMcu(scan, blocks)
      modifies this, e
      ensures Valid() && State() == EncoderStep(scan, EncoderRestart(scan, old(State())), McuItems(scan, blocks))
    {
      ScanFacts(scan);
      RestartIfDue();
      ghost var start := State();
      var vals := BandValues(blocks[0], scan.order, scan.ss, scan.se, scan.al);
      EncodeRefinement(AcTable(scan, 0), vals);
      SingleBand(scan, start, State(), blocks, vals);
    }
  }

  /** Encodes one MCU with the routine for this kind of scan. */
  method EncodeAnyMcu(enc: ScanEncoder, blocks: seq<seq<int>>)
    requires enc.Valid() && IsMcu(enc.scan, blocks)
    modifies enc, enc.e
    ensures enc.Valid()
    ensures enc.State() == EncoderStep(enc.scan, EncoderRestart(enc.scan, old(enc.State())), McuItems(enc.scan, blocks))
  {
    if !enc.scan.progressive {
      enc.EncodeMcu(blocks);
    } else if enc.scan.ss == 0 {
      if enc.scan.ah == 0 { enc.EncodeMcuDcFirst(blocks); } else { enc.EncodeMcuDcRefine(blocks); }
    } else {
      if enc.scan.ah == 0 { enc.EncodeMcuAcFirst(blocks); } else { enc.EncodeMcuAcRefine(blocks); }
    }
  }

  /** From t to t2, the encoder has coded the items xs. */
  ghost predicate Stepped(s: Scan, t: EncoderState, t2: EncoderState, xs: seq<Item>) {
    forall k {:trigger Key(k)} :: Key(k) ==> t2 == EncoderStep(s, t, xs)
  }

  lemma SteppedNone(s: Scan, t: EncoderState)
    ensures Stepped(s, t, t, McuItems(s, []))
  {
    assert t.coded + [] == t.coded;
  }

  lemma {:induction false} SteppedMore(s: Scan, t: EncoderState, t1: EncoderState, t2: EncoderState, xs: seq<Item>, ys: seq<Item>)
    requires Stepped(s, t, t1, xs) && Stepped(s, t1, t2, ys)
    ensures Stepped(s, t, t2, xs + ys)
  {
    assert t1 == EncoderStep(s, t, xs) && t2 == EncoderStep(s, t1, ys) by { assert Key(0); }
    EncoderSteps(s, t, xs, ys);
  }

  /** The step for one item. */
  lemma {:induction false} SteppedOne(s: Scan, t: EncoderState, t2: EncoderState, x: Item)
    requires t2 == t.(coded := t.coded + ItemCode(s, t.pred, x), pred := Next(s, t.pred, x))
    ensures Stepped(s, t, t2, [x])
  {
    CodeOne(s, t.pred, x);
  }

  lemma {:induction false} SteppedDc(s: Scan, t: EncoderState, t2: EncoderState, ci: nat, v: int, tbl: nat, context: nat, diff: int,
                  next: nat, code: seq<Decision>)
    requires ci < |t.pred.dc| && ci < |t.pred.context|
    requires tbl == DcTable(s, ci) && context == t.pred.context[ci] && diff == v - t.pred.dc[ci]
    requires DcDifferenceCoded(Cond(s, tbl), tbl, context, diff, next, code)
    requires t2 == t.(coded := t.coded + code, pred := Pred(t.pred.dc[ci := v], t.pred.context[ci := next]))
    ensures Stepped(s, t, t2, [DcItem(ci, v)])
  {
    DcItemCoded(s, t.pred, ci, v, tbl, context, diff, next, code);
    SteppedOne(s, t, t2, DcItem(ci, v));
  }

  lemma {:induction false} DcItemCoded(s: Scan, p: Pred, ci: nat, v: int, tbl: nat, context: nat, diff: int, next: nat, code: seq<Decision>)
    requires ci < |p.dc| && ci < |p.context|
    requires tbl == DcTable(s, ci) && context == p.context[ci] && diff == v - p.dc[ci]
    requires DcDifferenceCoded(Cond(s, tbl), tbl, context, diff, next, code)
    ensures code == ItemCode(s, p, DcItem(ci, v))
    ensures Next(s, p, DcItem(ci, v)) == Pred(p.dc[ci := v], p.context[ci := next])
  {
    DcCode(s, p, ci, v, tbl, context, diff);
    DcNext(s, p, ci, v, tbl, diff);
    assert Key(0);
  }

  lemma {:induction false} DcCode(s: Scan, p: Pred, ci: nat, v: int, tbl: nat, context: nat, diff: int)
    requires tbl == DcTable(s, ci) && context == ContextAt(p, ci) && diff == v - Predicted(p, ci)
    ensures ItemCode(s, p, DcItem(ci, v)) == DcDifference(tbl, context, diff)
  {
  }

  lemma {:induction false} DcNext(s: Scan, p: Pred, ci: nat, v: int, tbl: nat, diff: int)
    requires ci < |p.dc| && ci < |p.context| && tbl == DcTable(s, ci) && diff == v - p.dc[ci]
    ensures Next(s, p, DcItem(ci, v)) == Pred(p.dc[ci := v], p.context[ci := DcContext(Cond(s, tbl), diff)])
  {
  }

  lemma {:induction false} SteppedAc(s: Scan, t: EncoderState, t2: EncoderState, tbl: nat, vals: seq<int>)
    requires s.se < |vals| && t2 == t.(coded := t.coded + AcCoefficients(tbl, Cond(s, tbl), vals, FirstIndex(s) - 1, s.se))
    ensures Stepped(s, t, t2, [AcItem(tbl, vals)])
  {
    SteppedOne(s, t, t2, AcItem(tbl, vals));
  }

  lemma {:induction false} SteppedBit(s: Scan, t: EncoderState, t2: EncoderState, bit: bool)
    requires t2 == t.(coded := t.coded + [Decision(Fixed, bit)])
    ensures Stepped(s, t, t2, [BitItem(bit)])
  {
    SteppedOne(s, t, t2, BitItem(bit));
  }

  lemma {:induction false} SteppedRefinement(s: Scan, t: EncoderState, t2: EncoderState, tbl: nat, vals: seq<int>)
    requires s.se < |vals| && t2 == t.(coded := t.coded + AcRefinement(tbl, vals, FirstIndex(s) - 1, s.se))
    ensures Stepped(s, t, t2, [RefineItem(tbl, vals)])
  {
    SteppedOne(s, t, t2, RefineItem(tbl, vals));
  }

  lemma OneMoreBlock(s: Scan, t: EncoderState, t1: EncoderState, t2: EncoderState, blocks: seq<seq<int>>, i: nat)
    requires i < |blocks| && Stepped(s, t, t1, McuItems(s, blocks[..i])) && Stepped(s, t1, t2, BlockItems(s, i, blocks[i]))
    ensures Stepped(s, t, t2, McuItems(s, blocks[..i + 1]))
  {
    assert blocks[..i + 1][..i] == blocks[..i];
    SteppedMore(s, t, t1, t2, McuItems(s, blocks[..i]), BlockItems(s, i, blocks[i]));
  }

  lemma AllBlocks(s: Scan, t: EncoderState, t2: EncoderState, blocks: seq<seq<int>>)
    requires Stepped(s, t, t2, McuItems(s, blocks[..|blocks|]))
    ensures t2 == EncoderStep(s, t, McuItems(s, blocks))
  {
    assert blocks[..|blocks|] == blocks;
    assert Key(0);
  }

  /** In a scan of a band an MCU is one block, of the only component. */
  lemma SingleBand(s: Scan, t: EncoderState, t2: EncoderState, blocks: seq<seq<int>>, vals: seq<int>)
    requires ScanValid(s) && s.ss != 0 && IsMcu(s, blocks) && IsOrder(s.order, BLOCK_SIZE) && s.se < |s.order|
    requires |blocks| == 1 && vals == BandValues(blocks[0], s.order, s.ss, s.se, s.al)
    requires Stepped(s, t, t2, [if s.ah == 0 then AcItem(AcTable(s, 0), vals) else RefineItem(AcTable(s, 0), vals)])
    ensures t2 == EncoderStep(s, t, McuItems(s, blocks))
  {
    ScanFacts(s);
    assert s.membership[0] == 0;
    assert blocks[..0] == [];
    assert McuItems(s, blocks) == BlockItems(s, 0, blocks[0]);
    assert Key(0);
  }

  lemma FreshIsNormal(stats: Stats)
    ensures Normal(FreshCoder(stats))
  {
    PowerValues();
  }
}
