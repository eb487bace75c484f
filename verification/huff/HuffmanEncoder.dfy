/** Encoding the MCUs of a baseline scan, with restarts. */
module HuffmanEncoder {
  import opened Powers
  import opened ByteStream
  import opened BitStrings
  import opened BlockCode
  import opened BlockEncoder
  import opened BitWriter
  import opened HuffmanScan

  /** Blocks of an MCU as they come, in natural order. */
  predicate AreBlocks(s: Setup, blocks: seq<seq<int>>) {
    |blocks| == |s.membership| && forall b :: 0 <= b < |blocks| ==> |blocks[b]| == BLOCK_SIZE
  }

  function ZigzagMcu(s: Setup, blocks: seq<seq<int>>): (mcu: Mcu)
    requires OrderFits(s.order, s.se, BLOCK_SIZE) && AreBlocks(s, blocks)
    ensures |mcu| == |blocks| && forall b :: 0 <= b < |blocks| ==> mcu[b] == Zigzag(blocks[b], s.order, s.se)
  {
    seq(|blocks|, b requires 0 <= b < |blocks| => Zigzag(blocks[b], s.order, s.se))
  }

  lemma ZigzagIsMcu(s: Setup, blocks: seq<seq<int>>)
    requires OrderFits(s.order, s.se, BLOCK_SIZE) && AreBlocks(s, blocks)
    ensures IsMcu(s, ZigzagMcu(s, blocks))
  {
  }

  lemma EncodableMore(s: Setup, t: CodeTables, preds: seq<int>, mcu: Mcu, b: nat, n: nat)
    requires IsSetup(s) && IsCodeTables(t) && IsMcu(s, mcu) && |preds| == |s.comps| && b < n <= |s.membership|
    requires McuEncodable(s, t, preds, mcu, b)
    ensures CodingEncodable(CodingAt(s, t, preds, mcu, b)) ==> McuEncodable(s, t, preds, mcu, b + 1)
    ensures !CodingEncodable(CodingAt(s, t, preds, mcu, b)) ==> !McuEncodable(s, t, preds, mcu, n)
  {
    McuEncodableIs(s, t, preds, mcu, b);
    McuEncodableIs(s, t, preds, mcu, b + 1);
    McuEncodableIs(s, t, preds, mcu, n);
  }

  lemma {:induction false} BlocksNext(s: Setup, t: CodeTables, preds: seq<int>, mcu: Mcu, b: nat, c: Coding)
    requires IsSetup(s) && IsCodeTables(t) && IsMcu(s, mcu) && |preds| == |s.comps| && b < |s.membership|
    requires c == CodingAt(s, t, preds, mcu, b) && s.membership[b] < |s.comps| && |mcu[b]| == s.se + 1
    ensures McuBits(s, t, preds, mcu, b + 1) == McuBits(s, t, preds, mcu, b) + CodingBits(c)
    ensures McuPreds(s, preds, mcu, b + 1) == McuPreds(s, preds, mcu, b)[s.membership[b] := mcu[b][0]]
    ensures c.pred == McuPreds(s, preds, mcu, b)[s.membership[b]]
  {
  }

  lemma {:induction false} CodingIs(c: Coding)
    requires c.vals != [] && IsCodes(c.dc) && IsCodes(c.ac)
    ensures CodingBits(c) == BlockBits(c.dc, c.ac, c.vals, c.pred)
    ensures CodingEncodable(c) <==> BlockEncodable(c.dc, c.ac, c.vals, c.pred)
  {
    assert Key(0);
  }

  /** Encodes one block of an MCU. */
  method EncodeCoding(w: Writer, block: seq<int>, lastDc: int, dc: Codes, ac: Codes, order: seq<nat>, se: nat, ghost c: Coding)
    returns (ok: bool)
    requires w.Valid() && IsCodes(dc) && IsCodes(ac) && OrderFits(order, se, |block|)
    requires c == Coding(dc, ac, Zigzag(block, order, se), lastDc)
    modifies w`out, w`putBuffer, w`putBits, w`bytes, w`written
    ensures w.Valid() && (ok <==> CodingEncodable(c))
    ensures ok ==> w.written == old(w.written) + CodingBits(c)
  {
    CodingIs(c);
    ok := EncodeOneBlock(w, block, lastDc, dc, ac, order, se);
  }

  /** Encodes the b-th block of an MCU. */
  method EncodeBlockAt(s: Setup, t: CodeTables, w: Writer, block: seq<int>, ghost mcu: Mcu, ghost preds: seq<int>, b: nat)
    returns (ok: bool)
    requires w.Valid() && IsSetup(s) && IsCodeTables(t) && |block| == BLOCK_SIZE && |preds| == |s.comps| && b < |s.membership|
    requires IsMcu(s, mcu) && mcu[b] == Zigzag(block, s.order, s.se) && w.lastDc == McuPreds(s, preds, mcu, b)
    modifies w`out, w`putBuffer, w`putBits, w`bytes, w`written, w`lastDc
    ensures w.Valid() && (ok <==> CodingEncodable(CodingAt(s, t, preds, mcu, b)))
    ensures ok ==> w.lastDc == McuPreds(s, preds, mcu, b + 1)
    ensures ok ==> w.written == old(w.written) + CodingBits(CodingAt(s, t, preds, mcu, b))
  {
    ghost var c := CodingAt(s, t, preds, mcu, b);
    BlockFacts(s, t, mcu, b);
    BlocksNext(s, t, preds, mcu, b, c);
    var ci := s.membership[b];
    ok := EncodeCoding(w, block, w.lastDc[ci], t.dc[s.comps[ci].dcTbl], t.ac[s.comps[ci].acTbl], s.order, s.se, c);
    if ok {
      w.lastDc := w.lastDc[ci := block[0]];
    }
  }

  /** Encodes the blocks of an MCU. */
  method EncodeBlocks(s: Setup, t: CodeTables, w: Writer, blocks: seq<seq<int>>, ghost mcu: Mcu, ghost preds: seq<int>)
    returns (ok: bool)
    requires w.Valid() && IsSetup(s) && IsCodeTables(t) && AreBlocks(s, blocks) && w.lastDc == preds && |preds| == |s.comps|
    requires mcu == ZigzagMcu(s, blocks) && IsMcu(s, mcu)
    modifies w`out, w`putBuffer, w`putBits, w`bytes, w`written, w`lastDc
    ensures w.Valid() && (ok <==> McuEncodable(s, t, preds, mcu, |s.membership|))
    ensures ok ==> w.lastDc == McuPreds(s, preds, mcu, |s.membership|)
    ensures ok ==> w.written == old(w.written) + McuBits(s, t, preds, mcu, |s.membership|)
  {
    ghost var before := w.written;
    var b := 0;
    McuEncodableIs(s, t, preds, mcu, b);
    while b < |s.membership|
      invariant 0 <= b <= |s.membership| && w.Valid() && McuEncodable(s, t, preds, mcu, b)
      invariant w.lastDc == McuPreds(s, preds, mcu, b) && w.written == before + McuBits(s, t, preds, mcu, b)
    {
      EncodableMore(s, t, preds, mcu, b, |s.membership|);
      ok := EncodeBlockAt(s, t, w, blocks[b], mcu, preds, b);
      if !ok { return; }
      Reassociate(before, McuBits(s, t, preds, mcu, b), CodingBits(CodingAt(s, t, preds, mcu, b)));
      b := b + 1;
    }
    ok := true;
  }

  /** Output, buffer and predictions are those of the MCUs coded so far. */
  ghost predicate Wrote(s: Setup, t: CodeTables, g: Progress, bytes: seq<seq<byte>>, lastDc: seq<int>, written: Bits, flushed: seq<byte>)
    requires IsSetup(s) && IsCodeTables(t)
  {
    && IsProgress(s, g)
    && forall k {:trigger Key(k)} :: Key(k) ==>
      && HuffmanScan.Codes(s, t, g.done, bytes) && flushed == Joined(bytes)
      && lastDc == RunPreds(s, g.cur, |g.cur|) && written == RunBits(s, t, g.cur, |g.cur|)
  }

  predicate Counters(s: Setup, g: Progress, togo: nat, num: nat) {
    (s.interval > 0 ==> togo + |g.cur| == s.interval) && num == |g.done| % 8
  }

  lemma WroteFacts(s: Setup, t: CodeTables, g: Progress, bytes: seq<seq<byte>>, lastDc: seq<int>, written: Bits, flushed: seq<byte>)
    requires IsSetup(s) && IsCodeTables(t) && Wrote(s, t, g, bytes, lastDc, written, flushed)
    ensures lastDc == RunPreds(s, g.cur, |g.cur|) && |lastDc| == |s.comps|
    ensures HuffmanScan.Codes(s, t, g.done, bytes) && flushed == Joined(bytes) && written == RunBits(s, t, g.cur, |g.cur|)
  {
    assert Key(0);
  }

  lemma {:induction false} WroteRestart(s: Setup, t: CodeTables, g: Progress, bytes: seq<seq<byte>>, lastDc: seq<int>,
                                        written: Bits, flushed: seq<byte>, segment: seq<byte>, out: seq<byte>, num: nat)
    requires IsSetup(s) && IsCodeTables(t) && Wrote(s, t, g, bytes, lastDc, written, flushed) && RestartDue(s, g)
    requires Padded(written, segment) && num == |g.done| % 8
    requires out == flushed + Stuff(segment) + [0xFF, RST0 + num]
    ensures Wrote(s, t, Restarted(s, g), bytes + [segment], seq(|lastDc|, c => 0), [], out)
  {
    WroteFacts(s, t, g, bytes, lastDc, written, flushed);
    JoinedMore(bytes, segment, num);
    CodesMore(s, t, g.done, bytes, g.cur, segment);
    RunNone(s, t, 0);
  }

  lemma {:induction false} WroteMcu(s: Setup, t: CodeTables, g: Progress, bytes: seq<seq<byte>>, lastDc: seq<int>,
                                    written: Bits, flushed: seq<byte>, mcu: Mcu, more: Bits)
    requires IsSetup(s) && IsCodeTables(t) && Wrote(s, t, g, bytes, lastDc, written, flushed) && !RestartDue(s, g)
    requires IsMcu(s, mcu) && |lastDc| == |s.comps| && more == McuBits(s, t, lastDc, mcu, |s.membership|)
    ensures Wrote(s, t, Step(s, g, mcu), bytes, McuPreds(s, lastDc, mcu, |s.membership|), written + more, flushed)
  {
    StepIsProgress(s, g, mcu);
    WroteFacts(s, t, g, bytes, lastDc, written, flushed);
    RunMore(s, t, g.cur, mcu, g.cur + [mcu]);
  }

  /** An MCU can be coded next: its values are in range and its symbols have codes. */
  ghost predicate NextEncodable(s: Setup, t: CodeTables, g: Progress, mcu: Mcu)
    requires IsSetup(s) && IsCodeTables(t) && IsProgress(s, g) && IsMcu(s, mcu)
  {
    var cur := Restarted(s, g).cur;
    McuEncodable(s, t, RunPreds(s, cur, |cur|), mcu, |s.membership|)
  }

  class Encoder {
    const s: Setup
    const t: CodeTables
    const w: Writer
    var restartsToGo: nat
    var nextRestartNum: nat
    ghost var progress: Progress           // the MCUs coded
    ghost var bytes: seq<seq<byte>>        // code bytes of the intervals that are done

    ghost predicate Valid()
      reads this, w
    {
      && w.Valid() && IsSetup(s) && IsCodeTables(t) && Counters(s, progress, restartsToGo, nextRestartNum)
      && Wrote(s, t, progress, bytes, w.lastDc, w.written, w.flushed)
    }

    constructor (s: Setup, t: CodeTables)
      requires IsSetup(s) && IsCodeTables(t)
      ensures Valid() && fresh(w) && this.s == s && this.t == t && progress == Progress([], [])
    {
      this.s, this.t := s, t;
      w := new Writer(|s.comps|);
      restartsToGo, nextRestartNum := s.interval, 0;
      progress, bytes := Progress([], []), [];
    }

    /** Emits a restart if one is due. */
    method RestartIfDue()
      requires Valid()
      modifies this`progress, this`bytes, w
      ensures w.Valid() && Wrote(s, t, progress, bytes, w.lastDc, w.written, w.flushed)
      ensures progress == Restarted(s, old(progress))
    {
      if s.interval > 0 && restartsToGo == 0 {
        ghost var lastDc, written, flushed := w.lastDc, w.written, w.flushed;
        w.EmitRestart(nextRestartNum);
        ghost var segment :| w.out == flushed + Stuff(segment) + [0xFF, RST0 + nextRestartNum] && Padded(written, segment);
        WroteRestart(s, t, progress, bytes, lastDc, written, flushed, segment, w.out, nextRestartNum);
        progress, bytes := Restarted(s, progress), bytes + [segment];
      }
    }

    /** Encodes the blocks of an MCU, before which no restart is due any more. */
    method EncodeMcuBlocks(blocks: seq<seq<int>>, ghost mcu: Mcu) returns (ok: bool)
      requires w.Valid() && IsSetup(s) && IsCodeTables(t) && !RestartDue(s, progress)
      requires Wrote(s, t, progress, bytes, w.lastDc, w.written, w.flushed)
      requires AreBlocks(s, blocks) && mcu == ZigzagMcu(s, blocks) && IsMcu(s, mcu)
      modifies w, this`progress
      ensures ok <==> McuEncodable(s, t, RunPreds(s, old(progress).cur, |old(progress).cur|), mcu, |s.membership|)
      ensures ok ==> w.Valid() && Wrote(s, t, progress, bytes, w.lastDc, w.written, w.flushed)
      ensures ok ==> progress == Step(s, old(progress), mcu)
    {
      WroteFacts(s, t, progress, bytes, w.lastDc, w.written, w.flushed);
      ghost var lastDc, written := w.lastDc, w.written;
      ok := EncodeBlocks(s, t, w, blocks, mcu, lastDc);
      if ok {
        WroteMcu(s, t, progress, bytes, lastDc, written, w.flushed, mcu, McuBits(s, t, lastDc, mcu, |s.membership|));
        progress := Step(s, progress, mcu);
      }
    }

    /** Encodes an MCU; fails for a value out of range or a symbol without a code. */
    method EncodeMcuHuff(blocks: seq<seq<int>>) returns (ok: bool)
      requires Valid() && AreBlocks(s, blocks)
      modifies this, w
      ensures IsMcu(s, ZigzagMcu(s, blocks))
      ensures ok <==> NextEncodable(s, t, old(progress), ZigzagMcu(s, blocks))
      ensures ok ==> Valid() && progress == Step(s, old(progress), ZigzagMcu(s, blocks))
    {
      ghost var mcu := ZigzagMcu(s, blocks);
      ZigzagIsMcu(s, blocks);
      RestartIfDue();
      ok := EncodeMcuBlocks(blocks, mcu);
      if ok {
        CountMcu();
      }
    }

    method CountMcu()
      modifies this`restartsToGo, this`nextRestartNum
      ensures restartsToGo == if s.interval == 0 then old(restartsToGo)
                              else if old(restartsToGo) == 0 then s.interval - 1 else old(restartsToGo) - 1
      ensures nextRestartNum == if s.interval > 0 && old(restartsToGo) == 0 then (old(nextRestartNum) + 1) % 8
                                else old(nextRestartNum)
    {
      if s.interval > 0 {
        if restartsToGo == 0 {
          restartsToGo := s.interval;
          nextRestartNum := (nextRestartNum + 1) % 8;
        }
        restartsToGo := restartsToGo - 1;
      }
    }

    /** Ends the scan: the last byte is filled with ones. */
    method FinishPassHuff() returns (ghost last: seq<byte>)
      requires Valid()
      modifies w
      ensures AllMcus(s, progress.cur) && HuffmanScan.Codes(s, t, progress.done, bytes)
      ensures w.out == Joined(bytes) + Stuff(last) && Padded(RunBits(s, t, progress.cur, |progress.cur|), last)
    {
      WroteFacts(s, t, progress, bytes, w.lastDc, w.written, w.flushed);
      ghost var flushed, written := w.flushed, w.written;
      w.FlushBits();
      last :| w.out == flushed + Stuff(last) && Padded(written, last);
    }
  }
}
