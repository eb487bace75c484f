/** Arithmetic decoding of the MCUs of a scan. */
module ScanDecoder {
  import opened Powers
  import opened ByteStream
  import opened RestartMarkers
  import opened CodeInterval
  import opened CoefficientModel
  import opened RefinementReading
  import opened CoefficientDecoder
  import opened RefinementDecoder
  import opened ScanModel
  import opened ScanReading
  import ArithDecoder

  class ScanDecoder {
    const scan: Scan
    const d: ArithDecoder.Decoder
    var lastDc: seq<int>     // last DC value of each component
    var dcContext: seq<nat>  // context for DC conditioning of each component
    var restartsToGo: nat    // MCUs left in this restart interval
    var nextRestartNum: nat  // number of the restart marker expected next

    ghost function State(): DecoderState
      reads this, d
    {
      DecoderState(d.seg, d.origin, d.decoded, Pred(lastDc, dcContext), restartsToGo, nextRestartNum, d.ct == -1)
    }

    ghost predicate Valid()
      reads this, d
    {
      && ScanValid(scan) && d.origin == FreshCoder(d.origin.stats)
      && (if d.ct == -1 then d.Consistent() else d.Valid())
      && |lastDc| == |dcContext| == |scan.comps|
      && (d.ct == -1 ==> !(scan.progressive && scan.ss == 0 && scan.ah != 0))
    }

    ghost predicate Ready()
      reads this, d
    {
      Valid() && d.Valid() && d.ct != -1
    }

    /** Starts a scan at its first code byte; stats0 is what the scans before have left. */
    constructor (scan: Scan, input: seq<byte>, stats0: Stats)
      requires ScanValid(scan)
      ensures Ready() && this.scan == scan && fresh(d) && d.input == input
      ensures State() == DecoderState(ReadSegment(input), FreshCoder(Cleared(scan, stats0)), [],
                                      Pred(seq(|scan.comps|, _ => 0), seq(|scan.comps|, _ => 0)),
                                      scan.restartInterval, 0, false)
      ensures AreasCleared(scan, stats0, d.stats)
    {
      ScanFacts(scan);
      var p0 := Pred(seq(|scan.comps|, _ => 0), seq(|scan.comps|, _ => 0));
      var stats, p := Reinitialize(scan, UsesDc(scan), UsesAc(scan), stats0, p0);
      this.scan := scan;
      lastDc, dcContext := p.dc, p.context;
      restartsToGo, nextRestartNum := scan.restartInterval, 0;
      d := new ArithDecoder.Decoder(input, stats);
      new;
      d.ValidConsistent();
      d.StatsTraced();
      ClearedIs(scan, stats0, p0);
    }

    /** Reads the restart marker and starts the segment behind it. */
    method ProcessRestart()
      requires Valid()
      modifies this, d
      ensures Ready() && restartsToGo == scan.restartInterval && nextRestartNum == (old(nextRestartNum) + 1) % 8
      ensures d.seg == SegmentBehind(old(d.seg.marker), old(d.seg.rest), old(nextRestartNum)) && d.decoded == []
      ensures d.origin == FreshCoder(Cleared(scan, Run(old(d.origin), old(d.decoded)).stats))
      ensures Pred(lastDc, dcContext) == ClearedPred(scan, Pred(old(lastDc), old(dcContext)))
      ensures AreasCleared(scan, old(d.stats), d.stats)
      ensures PredictionsCleared(scan, Pred(old(lastDc), old(dcContext)), Pred(lastDc, dcContext))
    {
      ScanFacts(scan);
      if d.ct != -1 { d.ValidConsistent(); }
      d.StatsTraced();
      var stats, p := Reinitialize(scan, UsesDc(scan), UsesAc(scan), d.stats, Pred(lastDc, dcContext));
      lastDc, dcContext := p.dc, p.context;
      d.NextSegment(stats, nextRestartNum);
      nextRestartNum := (nextRestartNum + 1) % 8;
      restartsToGo := scan.restartInterval;
      d.ValidConsistent();
      d.StatsTraced();
      ClearedIs(scan, old(d.stats), Pred(old(lastDc), old(dcContext)));
    }

    /** What every MCU starts with. */
    method RestartIfDue()
      requires Valid()
      modifies this, d
      ensures Valid() && State() == DecoderRestart(scan, old(State()))
    {
      if scan.restartInterval != 0 {
        if restartsToGo == 0 {
          ProcessRestart();
        }
        restartsToGo := restartsToGo - 1;
      }
    }
  
    /** A DC difference of component ci. */
    method DecodeDc(ci: nat) returns (ok: bool, ghost x: Item)
      requires Ready() && ci < |scan.comps| && UsesDc(scan)
      modifies this, d
      ensures Valid() && (ok ==> Ready())
      ensures OneDone(scan, old(State()), State(), DcKind(ci), x, ok)
      ensures ok ==> x.DcItem? && lastDc[ci] == x.value
    {
      ScanFacts(scan);
      var tbl, v, next;
      tbl := DcTable(scan, ci);
      ghost var code;
      ok, v, next, code := DecodeDcDifference(d, Cond(scan, tbl), tbl, dcContext[ci]);
      x := DcItem(ci, lastDc[ci] + v);
      if ok {
        d.ValidConsistent();
        lastDc, dcContext := lastDc[ci := lastDc[ci] + v], dcContext[ci := next];
      } else {
        d.Fail();
      }
      DcDone(scan, old(State()), State(), ci, ok, v, next, code);
    }

    /** A band of AC coefficients, stored into the block. */
    method DecodeAc(tbl: nat, block: array<int>) returns (ok: bool, ghost x: Item)
      requires Ready() && block.Length == BLOCK_SIZE && 1 <= FirstIndex(scan) <= scan.se && UsesAc(scan)
      modifies this, d, block
      ensures Valid() && (ok ==> Ready())
      ensures OneDone(scan, old(State()), State(), AcKind(tbl), x, ok)
      ensures ok ==> x.AcItem? && IsOrder(scan.order, BLOCK_SIZE) && |x.vals| == scan.se + 1 <= |scan.order|
      ensures ok ==> Stored(old(block[..]), block[..], scan.order, FirstIndex(scan), x.vals, scan.al)
    {
      ghost var vals;
      BandFits(scan, tbl);
      ok, vals := DecodeAcCoefficients(d, BandOf(scan, tbl), block);
      x := AcItem(tbl, vals);
      d.ValidConsistent();
      if !ok {
        d.Fail();
      }
      BandItemDone(scan, tbl, old(State()), State(), ok, vals, old(block[..]), block[..]);
    }

    method DecodeBit() returns (bit: bool)
      requires Ready()
      modifies this, d
      ensures Ready() && OneDone(scan, old(State()), State(), BitKind, BitItem(bit), true)
    {
      bit := d.ArithDecode(Fixed);
      BitDone(scan, old(State()), State(), bit);
    }

    /** One more bit of a band of AC coefficients with the values prev. */
    method DecodeRefinement(tbl: nat, block: array<int>, ghost prev: seq<int>) returns (ok: bool, ghost x: Item)
      requires Ready() && block.Length == BLOCK_SIZE && 1 <= scan.ss <= scan.se
      requires Known(BandOf(scan, tbl), prev, block[..], 0)
      requires forall j :: 0 <= j < scan.ss && j < |prev| ==> prev[j] == 0
      modifies this, d, block
      ensures Valid() && (ok ==> Ready())
      ensures OneDone(scan, old(State()), State(), RefineKind(tbl, prev), x, ok)
      ensures ok ==> x.RefineItem? && IsOrder(scan.order, BLOCK_SIZE) && |x.vals| == scan.se + 1 <= |scan.order|
      ensures ok ==> Refined(old(block[..]), block[..], scan.order, FirstIndex(scan), x.vals, scan.al)
    {
      ghost var vals;
      BandFits(scan, tbl);
      assert |prev| == scan.se + 1 by { assert Key(0); }
      ok, vals := DecodeAcRefinement(d, BandOf(scan, tbl), block, prev);
      x := RefineItem(tbl, vals);
      d.ValidConsistent();
      if !ok {
        d.Fail();
      }
      RefinedItemDone(scan, tbl, old(State()), State(), prev, ok, vals, old(block[..]), block[..]);
    }
  
    /** Block i of an MCU of a sequential scan. */
    method DecodeSequential(i: nat, block: array<int>, ghost prev: seq<int>)
      returns (ok: bool, ghost items: seq<Item>, ghost bad: seq<Item>)
      requires Ready() && !scan.progressive && i < |scan.membership| && block.Length == BLOCK_SIZE
      modifies this, d, block
      ensures Valid() && (ok ==> Ready()) && (ok <==> bad == [])
      ensures Outcome(scan, old(State()), State(), BlockKinds(scan, i, prev), items, bad)
      ensures ok ==> |items| == |BlockKinds(scan, i, [])| && BlockStored(scan, items, old(block[..]), block[..])
    {
      ScanFacts(scan);
      var ci := scan.membership[i];
      ghost var x;
      ok, x := DecodeDc(ci);
      items, bad := if ok then [x] else [], if ok then [] else [x];
      if !ok {
        DcAlone(scan, old(State()), State(), i, prev, x, ok);
        return;
      }
      block[0] := Wrap16(lastDc[ci]);
      ghost var mid, stored := State(), block[..];
      if scan.limSe != 0 {
        ghost var y;
        ok, y := DecodeAc(AcTable(scan, ci), block);
        items, bad := if ok then [x, y] else [x], if ok then [] else [y];
        DcAndBand(scan, old(State()), mid, State(), i, prev, x, y, ok);
      } else {
        DcAlone(scan, old(State()), State(), i, prev, x, ok);
      }
      if ok {
        SequentialStored(scan, i, x, items, old(block[..]), stored, block[..]);
      }
    }

    /** Block i of an MCU of the first DC scan of a progression. */
    method DecodeDcFirst(i: nat, block: array<int>, ghost prev: seq<int>)
      returns (ok: bool, ghost items: seq<Item>, ghost bad: seq<Item>)
      requires Ready() && scan.progressive && scan.ss == 0 && scan.ah == 0
      requires i < |scan.membership| && block.Length == BLOCK_SIZE
      modifies this, d, block
      ensures Valid() && (ok ==> Ready()) && (ok <==> bad == [])
      ensures Outcome(scan, old(State()), State(), BlockKinds(scan, i, prev), items, bad)
      ensures ok ==> |items| == |BlockKinds(scan, i, [])| && BlockStored(scan, items, old(block[..]), block[..])
    {
      ScanFacts(scan);
      var ci := scan.membership[i];
      ghost var x;
      ok, x := DecodeDc(ci);
      items, bad := if ok then [x] else [], if ok then [] else [x];
      OutcomeOne(scan, old(State()), State(), DcKind(ci), x, ok);
      if ok {
        block[0] := Wrap16(lastDc[ci] * Pow2(scan.al));
      }
    }

    /** One more bit of the DC coefficient of block i. */
    method DecodeDcRefine(i: nat, block: array<int>, ghost prev: seq<int>)
      returns (ok: bool, ghost items: seq<Item>, ghost bad: seq<Item>)
      requires Ready() && scan.progressive && scan.ss == 0 && scan.ah != 0
      requires i < |scan.membership| && block.Length == BLOCK_SIZE
      modifies this, d, block
      ensures ok && Ready() && bad == []
      ensures Outcome(scan, old(State()), State(), BlockKinds(scan, i, prev), items, bad)
      ensures |items| == |BlockKinds(scan, i, [])| && BlockStored(scan, items, old(block[..]), block[..])
    {
      ScanFacts(scan);
      var bit := DecodeBit();
      items, bad, ok := [BitItem(bit)], [], true;
      OutcomeOne(scan, old(State()), State(), BitKind, BitItem(bit), true);
      if bit {
        block[0] := SetBit(block[0], true, scan.al);
      }
    }

    /** The only block of an MCU of the first scan of a band. */
    method DecodeAcFirst(i: nat, block: array<int>, ghost prev: seq<int>)
      returns (ok: bool, ghost items: seq<Item>, ghost bad: seq<Item>)
      requires Ready() && scan.progressive && scan.ss != 0 && scan.ah == 0
      requires i < |scan.membership| && block.Length == BLOCK_SIZE
      modifies this, d, block
      ensures Valid() && (ok ==> Ready()) && (ok <==> bad == [])
      ensures Outcome(scan, old(State()), State(), BlockKinds(scan, i, prev), items, bad)
      ensures ok ==> |items| == |BlockKinds(scan, i, [])| && BlockStored(scan, items, old(block[..]), block[..])
    {
      ScanFacts(scan);
      BandKinds(scan, i, prev);
      ghost var x;
      ok, x := DecodeAc(AcTable(scan, 0), block);
      OutcomeOne(scan, old(State()), State(), AcKind(AcTable(scan, 0)), x, ok);
      items, bad := if ok then [x] else [], if ok then [] else [x];
    }

    /** One more bit of a band for the only block of an MCU. */
    method DecodeAcRefine(i: nat, block: array<int>, ghost prev: seq<int>)
      returns (ok: bool, ghost items: seq<Item>, ghost bad: seq<Item>)
      requires Ready() && scan.progressive && scan.ss != 0 && scan.ah != 0
      requires i < |scan.membership| && block.Length == BLOCK_SIZE && Continues(scan, prev, block[..])
      modifies this, d, block
      ensures Valid() && (ok ==> Ready()) && (ok <==> bad == [])
      ensures Outcome(scan, old(State()), State(), BlockKinds(scan, i, prev), items, bad)
      ensures ok ==> |items| == |BlockKinds(scan, i, [])| && BlockStored(scan, items, old(block[..]), block[..])
    {
      ScanFacts(scan);
      BandKinds(scan, i, prev);
      ghost var x;
      ok, x := DecodeRefinement(AcTable(scan, 0), block, prev);
      OutcomeOne(scan, old(State()), State(), RefineKind(AcTable(scan, 0), prev), x, ok);
      items, bad := if ok then [x] else [], if ok then [] else [x];
    }

    /** Block i of an MCU, by the routine for this kind of scan. */
    method DecodeBlock(i: nat, block: array<int>, ghost prev: seq<int>)
      returns (ok: bool, ghost items: seq<Item>, ghost bad: seq<Item>)
      requires Ready() && i < |scan.membership| && block.Length == BLOCK_SIZE && Continues(scan, prev, block[..])
      modifies this, d, block
      ensures Valid() && (ok ==> Ready()) && (ok <==> bad == [])
      ensures Outcome(scan, old(State()), State(), BlockKinds(scan, i, prev), items, bad)
      ensures ok ==> |items| == |BlockKinds(scan, i, [])| && BlockStored(scan, items, old(block[..]), block[..])
    {
      if !scan.progressive {
        ok, items, bad := DecodeSequential(i, block, prev);
      } else if scan.ss == 0 {
        if scan.ah == 0 {
          ok, items, bad := DecodeDcFirst(i, block, prev);
        } else {
          ok, items, bad := DecodeDcRefine(i, block, prev);
        }
      } else {
        if scan.ah == 0 {
          ok, items, bad := DecodeAcFirst(i, block, prev);
        } else {
          ok, items, bad := DecodeAcRefine(i, block, prev);
        }
      }
    }

    /** Block i of an MCU, in terms of the contents of all its blocks. */
    method DecodeBlockOf(mcu: seq<array<int>>, i: nat, ghost prev: seq<int>)
      returns (ok: bool, ghost items: seq<Item>, ghost bad: seq<Item>)
      requires Ready() && AreBlocks(scan, mcu) && i < |mcu| && Continues(scan, prev, Contents(mcu)[i])
      modifies this, d, mcu
      ensures Valid() && (ok ==> Ready()) && (ok <==> bad == [])
      ensures Outcome(scan, old(State()), State(), BlockKinds(scan, i, prev), items, bad)
      ensures ok ==> |items| == |BlockKinds(scan, i, [])| && BlockStored(scan, items, old(Contents(mcu))[i], Contents(mcu)[i])
      ensures forall j :: 0 <= j < |mcu| && j != i ==> Contents(mcu)[j] == old(Contents(mcu))[j]
    {
      ok, items, bad := DecodeBlock(i, mcu[i], prev);
    }

    /** The blocks of an MCU. */
    method DecodeBlocks(mcu: seq<array<int>>, ghost prev: seq<int>) returns (ghost items: seq<seq<Item>>, ghost bad: seq<Item>)
      requires Ready() && AreBlocks(scan, mcu) && forall i :: 0 <= i < |mcu| ==> Continues(scan, prev, Contents(mcu)[i])
      modifies this, d, mcu
      ensures Valid()
      ensures Outcome(scan, old(State()), State(), McuKinds(scan, |mcu|, prev), Flat(items), bad)
      ensures bad == [] ==> |items| == |mcu|
      ensures McuStored(scan, items, bad, old(Contents(mcu)), Contents(mcu))
    {
      items, bad := [], [];
      NoOutcome(scan, State());
      NoBlockStored(scan, Contents(mcu));
      for i := 0 to |mcu|
        invariant Ready() && |items| == i && bad == []
        invariant Outcome(scan, old(State()), State(), McuKinds(scan, i, prev), Flat(items), [])
        invariant StoredUpTo(scan, items, i, old(Contents(mcu)), Contents(mcu))
      {
        ghost var mid, before := State(), Contents(mcu);
        var ok;
        ghost var its;
        ok, its, bad := DecodeBlockOf(mcu, i, prev);
        OutcomeBlock(scan, old(State()), mid, State(), i, prev, items, its, bad);
        ghost var done := items;
        items := items + [its];
        assert items[..i] == done;
        if !ok {
          OutcomeFailed(scan, old(State()), State(), i + 1, |mcu|, prev, Flat(items), bad);
          return;
        }
        StoredOneMore(scan, items, i, old(Contents(mcu)), before, Contents(mcu));
      }
    }

    /** Decodes one MCU into its blocks. Nothing is decoded after an error, until the next restart; in a
        refinement scan for DC coefficients there is no error. */
    method DecodeMcu(mcu: seq<array<int>>, ghost prev: seq<int>) returns (ghost items: seq<seq<Item>>, ghost bad: seq<Item>)
      requires Valid() && AreBlocks(scan, mcu) && forall i :: 0 <= i < |mcu| ==> Continues(scan, prev, Contents(mcu)[i])
      modifies this, d, mcu
      ensures Valid() && McuOutcome(scan, DecoderRestart(scan, old(State())), State(), prev, items, bad)
      ensures McuStored(scan, items, bad, old(Contents(mcu)), Contents(mcu))
    {
      items, bad := [], [];
      RestartIfDue();
      if d.ct != -1 {
        items, bad := DecodeBlocks(mcu, prev);
      }
    }
  }

  predicate AreBlocks(s: Scan, mcu: seq<array<int>>) {
    && |mcu| == |s.membership|
    && (forall i :: 0 <= i < |mcu| ==> mcu[i].Length == BLOCK_SIZE)
    && (forall i, j :: 0 <= i < j < |mcu| ==> mcu[i] != mcu[j])
  }

  ghost function Contents(mcu: seq<array<int>>): (blocks: seq<seq<int>>)
    reads mcu
    ensures |blocks| == |mcu| && forall i :: 0 <= i < |mcu| ==> blocks[i] == mcu[i][..]
  {
    seq(|mcu|, i requires 0 <= i < |mcu| reads mcu => mcu[i][..])
  }

  predicate UsesDc(s: Scan) {
    !s.progressive || (s.ss == 0 && s.ah == 0)
  }

  predicate UsesAc(s: Scan) {
    (!s.progressive && s.limSe != 0) || (s.progressive && s.ss != 0)
  }
}
