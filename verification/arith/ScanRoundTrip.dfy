/** Encoding a scan and decoding it again. */
module ScanRoundTrip {
  import opened Powers
  import opened ByteStream
  import opened CodeInterval
  import opened Termination
  import opened ScanModel
  import opened RestartMarkers
  import opened ScanReading
  import opened ScanAgreement
  import opened ScanBytes
  import opened ScanReadability
  import ArithEncoder
  import ScanEncoder
  import ScanDecoder

  // ----- one MCU -----

  /** The decoder is where the encoder was, with the rest of the scan still to be read. */
  ghost predicate Agree(s: Scan, e: EncoderState, mcus: seq<seq<seq<int>>>, t: DecoderState, marker: byte, rest: seq<byte>) {
    && EncoderRuns(e)
    && t == DecoderState(ReadSegment(ScanTail(s, e, mcus) + [0xFF, marker] + rest), e.origin, e.coded, e.pred, e.toGo, e.num, false)
  }

  lemma {:induction false} RestartAgrees(s: Scan, e: EncoderState, mcus: seq<seq<seq<int>>>, t: DecoderState, marker: byte, rest: seq<byte>)
    requires mcus != [] && Agree(s, e, mcus, t, marker, rest) && marker != 0 && marker != 0xFF
    ensures var r := EncoderRestart(s, e);
      DecoderRestart(s, t)
      == DecoderState(ReadSegment(ScanTail(s, AfterMcu(s, e, mcus[0]), mcus[1..]) + [0xFF, marker] + rest),
                      r.origin, r.coded, r.pred, r.toGo, r.num, false)
  {
    var e2, tail := AfterMcu(s, e, mcus[0]), mcus[1..];
    if RestartDue(s, e) {
      DueRestartAgrees(s, e, mcus, t, marker, rest);
    } else {
      assert ScanTail(s, e, mcus) == ScanTail(s, e2, tail);
    }
  }

  lemma {:induction false} DueRestartAgrees(s: Scan, e: EncoderState, mcus: seq<seq<seq<int>>>, t: DecoderState, marker: byte, rest: seq<byte>)
    requires mcus != [] && Agree(s, e, mcus, t, marker, rest) && marker != 0 && marker != 0xFF && RestartDue(s, e)
    ensures var r := EncoderRestart(s, e);
      DecoderRestart(s, t)
      == DecoderState(ReadSegment(ScanTail(s, AfterMcu(s, e, mcus[0]), mcus[1..]) + [0xFF, marker] + rest),
                      r.origin, r.coded, r.pred, r.toGo, r.num, false)
  {
    SegmentRead(s, e, mcus, marker, rest);
    NextIsRead(s, e, mcus, marker, rest);
  }

  /** When a restart is due, the expected marker is behind the segment, and the next segment behind it. */
  lemma {:induction false} NextIsRead(s: Scan, e: EncoderState, mcus: seq<seq<seq<int>>>, marker: byte, rest: seq<byte>)
    requires EncoderRuns(e) && mcus != [] && RestartDue(s, e)
    ensures var b := Behind(s, e, mcus, marker, rest);
      SegmentBehind(b.0, b.1, e.num) == ReadSegment(ScanTail(s, AfterMcu(s, e, mcus[0]), mcus[1..]) + [0xFF, marker] + rest)
  {
  }

  lemma StripCommon(p: seq<Decision>, x: seq<Decision>, y: seq<Decision>)
    requires p <= x && !Diverge(x, p + y)
    ensures !Diverge(x[|p|..], y)
  {
    assert p + x[|p|..] == x;
    if Diverge(x[|p|..], y) {
      DivergeAfter(p, x[|p|..], y);
    }
  }

  /** What a decoder reads of the next MCU is what the encoder coded of it; it fails exactly if the
      encoder coded a DC difference above 2^15. */
  lemma McuAgrees(s: Scan, e: EncoderState, mcus: seq<seq<seq<int>>>, t: DecoderState, t2: DecoderState,
                  items: seq<seq<Item>>, bad: seq<Item>, marker: byte, rest: seq<byte>)
    requires ScanValid(s) && mcus != [] && IsMcu(s, mcus[0]) && marker != 0 && marker != 0xFF
    requires Agree(s, e, mcus, t, marker, rest)
    requires McuOutcome(s, DecoderRestart(s, t), t2, Previous(s, mcus[0]), items, bad)
    requires 0x8000 <= t2.origin.a <= 0x1_0000 && Inside(t2.seg.data, Run(t2.origin, t2.decoded))
    ensures bad == [] <==> AllReadable(s, EncoderRestart(s, e).pred, McuItems(s, mcus[0]))
    ensures bad == [] ==> Flat(items) == McuItems(s, mcus[0])
    ensures bad == [] ==> Agree(s, AfterMcu(s, e, mcus[0]), mcus[1..], t2, marker, rest)
  {
    var r, e2, tail := EncoderRestart(s, e), AfterMcu(s, e, mcus[0]), mcus[1..];
    RestartAgrees(s, e, mcus, t, marker, rest);
    SegmentRead(s, e2, tail, marker, rest);
    var good, code := Flat(items), SegmentCode(s, e2, tail);
    OutcomeParts(s, DecoderRestart(s, t), t2, McuKinds(s, |s.membership|, Previous(s, mcus[0])), good, bad);
    SegmentGrows(s, e2, tail);
    CodesAgree(r.origin, r.coded, ItemsCode(s, r.pred, McuItems(s, mcus[0])), code, t2.seg.data, ReadCode(s, r.pred, good, bad));
    McuReadBack(s, r.pred, mcus[0], good, bad, code[|r.coded|..]);
    if bad == [] {
      assert ReadCode(s, r.pred, good, bad) == ItemsCode(s, r.pred, McuItems(s, mcus[0]));
    }
  }

  /** The segment holds the code whose prefix the decoder has read; it cannot have read anything that
      diverges from the rest. */
  lemma CodesAgree(origin: Coder, coded: seq<Decision>, x: seq<Decision>, code: seq<Decision>, data: seq<byte>, y: seq<Decision>)
    requires origin == FreshCoder(origin.stats) && coded + x <= code && data == SegmentData(Run(origin, code))
    requires Inside(data, Run(origin, coded + y))
    ensures coded <= code && x <= code[|coded|..] && !Diverge(code[|coded|..], y)
  {
    CodeIsRight(origin, code);
    NoDivergence(data, origin, code, coded + y);
    ItemsFitCode(coded, x, code);
    StripCommon(coded, code, y);
  }

  /** Items read of an MCU, from what the encoder coded of it. */
  lemma McuReadBack(s: Scan, p: Pred, mcu: seq<seq<int>>, good: seq<Item>, bad: seq<Item>, code: seq<Decision>)
    requires ScanValid(s) && IsMcu(s, mcu)
    requires ItemsRead(s, p, McuKinds(s, |s.membership|, Previous(s, mcu)), good, bad)
    requires ItemsCode(s, p, McuItems(s, mcu)) <= code && !Diverge(code, ReadCode(s, p, good, bad))
    ensures bad == [] <==> AllReadable(s, p, McuItems(s, mcu))
    ensures bad == [] ==> good == McuItems(s, mcu)
  {
    var xs := McuItems(s, mcu);
    assert mcu[..|mcu|] == mcu;
    McuItemsCoded(s, mcu, |mcu|);
    ItemsAgree(s, p, McuKinds(s, |s.membership|, Previous(s, mcu)), xs, good, bad, code, ReadCode(s, p, good, bad));
    assert good == xs[..|good|];
  }

  lemma OutcomeParts(s: Scan, t: DecoderState, t2: DecoderState, kinds: seq<Kind>, good: seq<Item>, bad: seq<Item>)
    requires Outcome(s, t, t2, kinds, good, bad)
    ensures ItemsRead(s, t.pred, kinds, good, bad) && t2 == DecoderStep(s, t, good, bad)
  {
    assert Key(0);
  }

  lemma CodeIsRight(origin: Coder, code: seq<Decision>)
    requires origin == FreshCoder(origin.stats)
    ensures Inside(SegmentData(Run(origin, code)), Run(origin, code))
  {
    PowerValues();
    RunNormal(origin, code);
    SegmentDataIs(Run(origin, code));
    SegmentInside(SegmentData(Run(origin, code)), Run(origin, code));
  }

  lemma ItemsFitCode(p: seq<Decision>, x: seq<Decision>, code: seq<Decision>)
    requires p + x <= code
    ensures p <= code && x <= code[|p|..]
  {
    assert code[|p|..] == x + code[|p + x|..];
  }

  // ----- blocks -----

  lemma SameParts(x: seq<Item>, u: seq<Item>, y: seq<Item>, v: seq<Item>)
    requires x + u == y + v && |u| == |v|
    ensures x == y && u == v
  {
    assert |x| == |y|;
    assert x == (x + u)[..|x|] == (y + v)[..|y|] == y;
    assert u == (x + u)[|x|..] == (y + v)[|y|..] == v;
  }

  lemma {:induction false} SameLists(xs: seq<seq<Item>>, ys: seq<seq<Item>>)
    requires |xs| == |ys| && Flat(xs) == Flat(ys) && forall i :: 0 <= i < |xs| ==> |xs[i]| == |ys[i]|
    ensures xs == ys
  {
    if xs != [] {
      var n := |xs| - 1;
      SameParts(Flat(xs[..n]), xs[n], Flat(ys[..n]), ys[n]);
      SameLists(xs[..n], ys[..n]);
      assert xs == xs[..n] + [xs[n]] && ys == ys[..n] + [ys[n]];
    }
  }

  function ItemsOf(s: Scan, mcu: seq<seq<int>>): (items: seq<seq<Item>>)
    ensures |items| == |mcu| && forall i :: 0 <= i < |mcu| ==> items[i] == BlockItems(s, i, mcu[i])
  {
    seq(|mcu|, i requires 0 <= i < |mcu| => BlockItems(s, i, mcu[i]))
  }

  lemma {:induction false} McuIsFlat(s: Scan, mcu: seq<seq<int>>)
    ensures McuItems(s, mcu) == Flat(ItemsOf(s, mcu))
  {
    if mcu != [] {
      McuIsFlat(s, mcu[..|mcu| - 1]);
      assert ItemsOf(s, mcu)[..|mcu| - 1] == ItemsOf(s, mcu[..|mcu| - 1]);
    }
  }

  /** Items that make up the same MCU, block by block. */
  lemma {:induction false} SameBlocks(s: Scan, items: seq<seq<Item>>, mcu: seq<seq<int>>)
    requires |items| == |mcu| && Flat(items) == McuItems(s, mcu)
    requires forall i :: 0 <= i < |items| ==> |items[i]| == |BlockItems(s, i, mcu[i])|
    ensures forall i :: 0 <= i < |items| ==> items[i] == BlockItems(s, i, mcu[i])
  {
    McuIsFlat(s, mcu);
    SameLists(items, ItemsOf(s, mcu));
  }

  /** The blocks of an MCU hold what was coded of the encoder's blocks. */
  ghost predicate McuRestored(s: Scan, mcu: seq<seq<int>>, before: seq<seq<int>>, after: seq<seq<int>>) {
    && |before| == |after| == |mcu|
    && forall i :: 0 <= i < |mcu| ==> BlockStored(s, BlockItems(s, i, mcu[i]), before[i], after[i])
  }

  lemma StoredIsRestored(s: Scan, mcu: seq<seq<int>>, items: seq<seq<Item>>, before: seq<seq<int>>, after: seq<seq<int>>)
    requires ScanValid(s) && IsMcu(s, mcu) && Flat(items) == McuItems(s, mcu)
    requires |before| == |after| == |mcu| && McuStored(s, items, [], before, after) && |items| == |mcu|
    ensures McuRestored(s, mcu, before, after)
  {
    assert Key(0);
    forall i | 0 <= i < |mcu| ensures |items[i]| == |BlockItems(s, i, mcu[i])| {
      BlockItemsCoded(s, i, mcu);
      assert |BlockKinds(s, i, [])| == |BlockKinds(s, i, Previous(s, mcu))|;
    }
    SameBlocks(s, items, mcu);
  }

  // ----- whole scans -----

  /** The statistics at the end of a scan. */
  ghost function EndStats(s: Scan, e: EncoderState, mcus: seq<seq<seq<int>>>): Stats
    requires EncoderRuns(e)
  {
    var r := AfterMcus(s, e, mcus);
    Run(r.origin, r.coded).stats
  }

  /** Encodes the MCUs of a scan and ends it. */
  method EncodeScan(enc: ScanEncoder.ScanEncoder, mcus: seq<seq<seq<int>>>)
    requires enc.Valid() && forall j :: 0 <= j < |mcus| ==> IsMcu(enc.scan, mcus[j])
    modifies enc, enc.e
    ensures enc.e.out == old(enc.State()).prefix + ScanTail(enc.scan, old(enc.State()), mcus)
    ensures enc.e.stats == EndStats(enc.scan, old(enc.State()), mcus)
  {
    ghost var e := enc.State();
    assert mcus[0..] == mcus;
    for j := 0 to |mcus|
      invariant enc.Valid() && AfterMcus(enc.scan, enc.State(), mcus[j..]) == AfterMcus(enc.scan, e, mcus)
    {
      assert mcus[j..][0] == mcus[j] && mcus[j..][1..] == mcus[j + 1..];
      ScanEncoder.EncodeAnyMcu(enc, mcus[j]);
    }
    ScanIsTail(enc.scan, e, mcus);
    enc.e.StatsTraced();
    enc.FinishPass();
  }

  /** The blocks of an MCU before it is decoded. */
  ghost predicate Prepared(s: Scan, mcu: seq<seq<int>>, before: seq<seq<int>>) {
    && |before| == |s.membership|
    && forall i :: 0 <= i < |before| ==> |before[i]| == BLOCK_SIZE && Continues(s, Previous(s, mcu), before[i])
  }

  method NewBuffer(n: nat) returns (buffer: seq<array<int>>)
    ensures |buffer| == n && (forall i :: 0 <= i < n ==> fresh(buffer[i]) && buffer[i].Length == BLOCK_SIZE)
    ensures forall i, j :: 0 <= i < j < n ==> buffer[i] != buffer[j]
  {
    buffer := [];
    for k := 0 to n
      invariant |buffer| == k && (forall i :: 0 <= i < k ==> fresh(buffer[i]) && buffer[i].Length == BLOCK_SIZE)
      invariant forall i, j :: 0 <= i < j < k ==> buffer[i] != buffer[j]
    {
      var block := new int[BLOCK_SIZE];
      buffer := buffer + [block];
    }
  }

  method Load(block: array<int>, values: seq<int>)
    requires block.Length == |values|
    modifies block
    ensures block[..] == values
  {
    for k := 0 to |values|
      invariant block[..k] == values[..k]
    {
      block[k] := values[k];
    }
    assert block[..] == block[..|values|] && values[..|values|] == values;
  }

  method LoadMcu(buffer: seq<array<int>>, blocks: seq<seq<int>>)
    requires |buffer| == |blocks| && forall i :: 0 <= i < |buffer| ==> buffer[i].Length == |blocks[i]|
    requires forall i, j :: 0 <= i < j < |buffer| ==> buffer[i] != buffer[j]
    modifies buffer
    ensures ScanDecoder.Contents(buffer) == blocks
  {
    for k := 0 to |buffer|
      invariant forall i :: 0 <= i < k ==> buffer[i][..] == blocks[i]
    {
      Load(buffer[k], blocks[k]);
    }
  }

  method UnloadMcu(buffer: seq<array<int>>) returns (blocks: seq<seq<int>>)
    ensures blocks == ScanDecoder.Contents(buffer)
  {
    blocks := seq(|buffer|, i requires 0 <= i < |buffer| reads buffer => buffer[i][..]);
  }

  /** Decodes one MCU: the blocks are loaded, decoded in place and unloaded. */
  method DecodeOneMcu(dec: ScanDecoder.ScanDecoder, buffer: seq<array<int>>, before: seq<seq<int>>,
                      ghost e: EncoderState, ghost mcus: seq<seq<seq<int>>>, ghost agree: bool,
                      ghost marker: byte, ghost rest: seq<byte>)
    returns (after: seq<seq<int>>, clean: bool)
    requires dec.Valid() && ScanDecoder.AreBlocks(dec.scan, buffer) && marker != 0 && marker != 0xFF
    requires mcus != [] && IsMcu(dec.scan, mcus[0]) && Prepared(dec.scan, mcus[0], before) && EncoderRuns(e)
    requires agree ==> Agree(dec.scan, e, mcus, dec.State(), marker, rest)
    modifies dec, dec.d, buffer
    ensures dec.Valid()
    ensures agree ==> (clean <==> AllReadable(dec.scan, EncoderRestart(dec.scan, e).pred, McuItems(dec.scan, mcus[0])))
    ensures agree && clean ==>
      && Agree(dec.scan, AfterMcu(dec.scan, e, mcus[0]), mcus[1..], dec.State(), marker, rest)
      && McuRestored(dec.scan, mcus[0], before, after)
  {
    ScanFacts(dec.scan);
    LoadMcu(buffer, before);
    ghost var t := dec.State();
    ghost var items, bad := dec.DecodeMcu(buffer, Previous(dec.scan, mcus[0]));
    after := UnloadMcu(buffer);
    clean := dec.d.ct != -1;
    if dec.d.ct != -1 { dec.d.ValidConsistent(); }
    dec.d.CodeInside();
    if agree {
      RestartAgrees(dec.scan, e, mcus, t, marker, rest);
      McuAgrees(dec.scan, e, mcus, t, dec.State(), items, bad, marker, rest);
      assert clean <==> bad == [] by { assert Key(0); }
      if clean {
        StoredIsRestored(dec.scan, mcus[0], items, before, after);
      }
    }
  }

  /** j MCUs are decoded, all of them well, or one of those before could not be. */
  ghost predicate DecodedUpTo(s: Scan, e0: EncoderState, mcus: seq<seq<seq<int>>>, before: seq<seq<seq<int>>>,
                              e: EncoderState, j: nat, after: seq<seq<seq<int>>>, clean: bool)
  {
    forall i {:trigger Key(i)} :: Key(i) ==>
      && j <= |mcus| == |before| && |after| == j && EncoderRuns(e0) && EncoderRuns(e)
      && (clean ==> (McusReadable(s, e, mcus[j..]) <==> McusReadable(s, e0, mcus)))
      && (!clean ==> !McusReadable(s, e0, mcus))
      && (clean ==> forall i :: 0 <= i < j ==> McuRestored(s, mcus[i], before[i], after[i]))
  }

  lemma NothingDecoded(s: Scan, e0: EncoderState, mcus: seq<seq<seq<int>>>, before: seq<seq<seq<int>>>)
    requires |mcus| == |before| && EncoderRuns(e0)
    ensures DecodedUpTo(s, e0, mcus, before, e0, 0, [], true)
  {
    assert mcus[0..] == mcus;
  }

  lemma {:induction false} OneMoreDecoded(s: Scan, e0: EncoderState, mcus: seq<seq<seq<int>>>, before: seq<seq<seq<int>>>, e: EncoderState,
                       j: nat, after: seq<seq<seq<int>>>, clean: bool, blocks: seq<seq<int>>, ok: bool)
    requires DecodedUpTo(s, e0, mcus, before, e, j, after, clean) && j < |mcus| == |before| && EncoderRuns(e)
    requires clean ==> (ok <==> AllReadable(s, EncoderRestart(s, e).pred, McuItems(s, mcus[j])))
    requires clean && ok ==> McuRestored(s, mcus[j], before[j], blocks)
    ensures DecodedUpTo(s, e0, mcus, before, AfterMcu(s, e, mcus[j]), j + 1, after + [blocks], clean && ok)
  {
    assert Key(0);
    if clean {
      ReadableSplit(s, e, mcus, j);
      if ok { RestoredMore(s, mcus, before, j, after, blocks); }
    }
  }

  lemma RestoredMore(s: Scan, mcus: seq<seq<seq<int>>>, before: seq<seq<seq<int>>>, j: nat, after: seq<seq<seq<int>>>, blocks: seq<seq<int>>)
    requires |after| == j < |mcus| == |before| && McuRestored(s, mcus[j], before[j], blocks)
    requires forall i :: 0 <= i < j ==> McuRestored(s, mcus[i], before[i], after[i])
    ensures forall i :: 0 <= i < j + 1 ==> McuRestored(s, mcus[i], before[i], (after + [blocks])[i])
  {
  }

  lemma {:induction false} ReadableSplit(s: Scan, e: EncoderState, mcus: seq<seq<seq<int>>>, j: nat)
    requires j < |mcus| && EncoderRuns(e)
    ensures McusReadable(s, e, mcus[j..]) <==>
            AllReadable(s, EncoderRestart(s, e).pred, McuItems(s, mcus[j])) && McusReadable(s, AfterMcu(s, e, mcus[j]), mcus[j + 1..])
  {
    assert mcus[j..][0] == mcus[j] && mcus[j..][1..] == mcus[j + 1..];
  }

  /** Decodes the MCUs of a scan. If the decoder starts where the encoder did, it finds no error exactly
      if all DC differences are small enough, and then restores every block and ends with the
      encoder's statistics. */
  method DecodeScan(dec: ScanDecoder.ScanDecoder, before: seq<seq<seq<int>>>, ghost e0: EncoderState,
                    ghost mcus: seq<seq<seq<int>>>, ghost marker: byte, ghost rest: seq<byte>)
    returns (after: seq<seq<seq<int>>>, clean: bool)
    requires dec.Valid() && |before| == |mcus| && marker != 0 && marker != 0xFF
    requires forall j :: 0 <= j < |mcus| ==> IsMcu(dec.scan, mcus[j]) && Prepared(dec.scan, mcus[j], before[j])
    requires Agree(dec.scan, e0, mcus, dec.State(), marker, rest)
    modifies dec, dec.d
    ensures clean <==> McusReadable(dec.scan, e0, mcus)
    ensures clean ==> |after| == |mcus| && forall j :: 0 <= j < |mcus| ==> McuRestored(dec.scan, mcus[j], before[j], after[j])
    ensures clean ==> dec.d.stats == EndStats(dec.scan, e0, mcus)
  {
    after, clean := [], true;
    var buffer := NewBuffer(|dec.scan.membership|);
    ghost var e := e0;
    assert mcus[0..] == mcus;
    NothingDecoded(dec.scan, e0, mcus, before);
    for j := 0 to |before|
      invariant dec.Valid() && EncoderRuns(e)
      invariant clean ==> Agree(dec.scan, e, mcus[j..], dec.State(), marker, rest)
      invariant DecodedUpTo(dec.scan, e0, mcus, before, e, j, after, clean)
      invariant AfterMcus(dec.scan, e, mcus[j..]) == AfterMcus(dec.scan, e0, mcus)
    {
      assert mcus[j..][0] == mcus[j] && mcus[j..][1..] == mcus[j + 1..];
      var blocks, ok := DecodeOneMcu(dec, buffer, before[j], e, mcus[j..], clean, marker, rest);
      OneMoreDecoded(dec.scan, e0, mcus, before, e, j, after, clean, blocks, ok);
      after, clean := after + [blocks], clean && ok;
      e := AfterMcu(dec.scan, e, mcus[j]);
    }
    AllDecoded(dec.scan, e0, mcus, before, e, after, clean);
    if clean {
      StatsAgree(dec, e, marker, rest);
    }
  }

  /** The decoder of a scan has the statistics of the encoder in the state that it agrees with. */
  lemma StatsAgree(dec: ScanDecoder.ScanDecoder, e: EncoderState, marker: byte, rest: seq<byte>)
    requires dec.Valid() && Agree(dec.scan, e, [], dec.State(), marker, rest)
    ensures dec.d.stats == Run(e.origin, e.coded).stats
  {
    dec.d.ValidConsistent();
    dec.d.StatsTraced();
  }

  lemma AllDecoded(s: Scan, e0: EncoderState, mcus: seq<seq<seq<int>>>, before: seq<seq<seq<int>>>, e: EncoderState,
                   after: seq<seq<seq<int>>>, clean: bool)
    requires DecodedUpTo(s, e0, mcus, before, e, |mcus|, after, clean) && |before| == |mcus| && EncoderRuns(e0)
    ensures clean <==> McusReadable(s, e0, mcus)
    ensures clean ==> |after| == |mcus| && forall j :: 0 <= j < |mcus| ==> McuRestored(s, mcus[j], before[j], after[j])
  {
    assert Key(0);
    assert mcus[|mcus|..] == [];
  }

  function StartState(s: Scan, prefix: seq<byte>, stats: Stats): (e: EncoderState)
    ensures EncoderRuns(e)
  {
    EncoderState(prefix, FreshCoder(Cleared(s, stats)), [], NoPred(s), s.restartInterval, 0)
  }

  /** Encodes a scan, ends it with a marker and decodes the bytes again. stats0 is what the scans before
      have left on the decoder's side; it stays what the encoder has. */
  method EncodeAndDecode(scan: Scan, e: ArithEncoder.Encoder, stats0: Stats, mcus: seq<seq<seq<int>>>, marker: byte,
                         rest: seq<byte>, before: seq<seq<seq<int>>>)
    returns (after: seq<seq<seq<int>>>, clean: bool, stats: Stats)
    requires ScanValid(scan) && marker != 0 && marker != 0xFF && |before| == |mcus| && stats0 == e.stats
    requires forall j :: 0 <= j < |mcus| ==> IsMcu(scan, mcus[j]) && Prepared(scan, mcus[j], before[j])
    modifies e
    ensures clean <==> ScanReadable(scan, mcus)
    ensures clean ==> stats == e.stats
    ensures clean ==> |after| == |mcus| && forall j :: 0 <= j < |mcus| ==> McuRestored(scan, mcus[j], before[j], after[j])
    ensures e.out == old(e.out) + ScanTail(scan, StartState(scan, old(e.out), stats0), mcus)
  {
    var start := |e.out|;
    ghost var e0 := StartState(scan, e.out, e.stats);
    var enc := new ScanEncoder.ScanEncoder(scan, e);
    EncodeScan(enc, mcus);
    var input := e.out[start..] + [0xFF, marker] + rest;
    assert e.out[start..] == ScanTail(scan, e0, mcus);
    var dec := new ScanDecoder.ScanDecoder(scan, input, stats0);
    after, clean := DecodeScan(dec, before, e0, mcus, marker, rest);
    ReadableIsDc(scan, e0, mcus);
    stats := dec.d.stats;
  }
}
