/** Decoding a whole baseline scan: restart markers are checked where they are due, and every MCU comes
    out as it was coded. */
module HuffmanDecoder {
  import opened Powers
  import opened ByteStream
  import opened BitStrings
  import opened BitReader
  import opened BitWriter
  import opened HuffmanScan
  import opened McuDecoder

  /** Where decoding stands in a scan. */
  datatype Point = Point(g: Progress, part: Part, pos: nat, dc: seq<int>, rm: int)

  /** The segment of the j-th interval. */
  ghost predicate SegmentOf(c: Coded, tail: seq<byte>, j: nat, part: Part) {
    && IsPart(part) && j < |c.segments| == |c.markers| && part.bytes == c.segments[j] && part.ending == c.markers[j]
    && part.rest == Output(c.segments, c.markers, j + 1, tail)
  }

  ghost predicate Stands(s: Setup, t: CodeTables, c: Coded, tail: seq<byte>, p: Point)
    requires IsSetup(s) && IsCodeTables(t)
  {
    && Through(p.g, c.runs) && SegmentOf(c, tail, |p.g.done|, p.part) && p.rm == RST0 + |p.g.done| % 8
    && InRun(s, t, c.runs[|p.g.done|], |p.g.cur|, p.part.data, p.pos, p.dc)
  }

  ghost predicate ReachedInRun(s: Setup, t: CodeTables, run: seq<Mcu>, i: nat, data: Bits, pos: nat, dc: seq<int>)
    requires IsSetup(s) && IsCodeTables(t)
  {
    && AllMcus(s, run) && RunEncodable(s, t, run, |run|) && i <= |run| && PaddedBits(RunBits(s, t, run, |run|), data)
    && pos == |RunBits(s, t, run, i)| && dc == RunPreds(s, run, i)
  }

  ghost predicate IsInRun(s: Setup, t: CodeTables, run: seq<Mcu>, i: nat, data: Bits, pos: nat, dc: seq<int>, r: bool)
    requires IsSetup(s) && IsCodeTables(t)
  {
    forall k {:trigger Key(k)} :: Key(k) ==> r == ReachedInRun(s, t, run, i, data, pos, dc)
  }

  /** Decoding has reached the i-th MCU of an interval. */
  ghost function InRun(s: Setup, t: CodeTables, run: seq<Mcu>, i: nat, data: Bits, pos: nat, dc: seq<int>): (r: bool)
    requires IsSetup(s) && IsCodeTables(t)
    ensures IsInRun(s, t, run, i, data, pos, dc, r)
  {
    assert IsInRun(s, t, run, i, data, pos, dc, ReachedInRun(s, t, run, i, data, pos, dc));
    var r: bool :| IsInRun(s, t, run, i, data, pos, dc, r);
    r
  }

  lemma InRunIs(s: Setup, t: CodeTables, run: seq<Mcu>, i: nat, data: Bits, pos: nat, dc: seq<int>)
    requires IsSetup(s) && IsCodeTables(t)
    ensures InRun(s, t, run, i, data, pos, dc) <==> ReachedInRun(s, t, run, i, data, pos, dc)
  {
    assert Key(0);
  }

  ghost predicate IsAt(s: Setup, t: CodeTables, c: Coded, tail: seq<byte>, p: Point, r: bool)
    requires IsSetup(s) && IsCodeTables(t)
  {
    forall k {:trigger Key(k)} :: Key(k) ==> r == Stands(s, t, c, tail, p)
  }

  ghost function At(s: Setup, t: CodeTables, c: Coded, tail: seq<byte>, p: Point): (r: bool)
    requires IsSetup(s) && IsCodeTables(t)
    ensures IsAt(s, t, c, tail, p, r)
  {
    assert IsAt(s, t, c, tail, p, Stands(s, t, c, tail, p));
    var r: bool :| IsAt(s, t, c, tail, p, r);
    r
  }

  lemma AtIs(s: Setup, t: CodeTables, c: Coded, tail: seq<byte>, p: Point)
    requires IsSetup(s) && IsCodeTables(t)
    ensures At(s, t, c, tail, p) <==> Stands(s, t, c, tail, p)
  {
    assert Key(0);
  }

  lemma {:induction false} RunStart(s: Setup, t: CodeTables, run: seq<Mcu>, segment: seq<byte>) returns (data: Bits)
    requires IsSetup(s) && IsCodeTables(t) && RunCoded(s, t, run, segment)
    ensures Packs(data, segment) && InRun(s, t, run, 0, data, 0, seq(|s.comps|, i => 0))
  {
    data :| Packs(data, segment) && PaddedBits(RunBits(s, t, run, |run|), data);
    RunNothing(s, t, run, 0);
    InRunIs(s, t, run, 0, data, 0, seq(|s.comps|, i => 0));
  }

  lemma RunNothing(s: Setup, t: CodeTables, run: seq<Mcu>, n: nat)
    requires IsSetup(s) && IsCodeTables(t) && AllMcus(s, run) && n == 0
    ensures RunPreds(s, run, n) == seq(|s.comps|, i => 0) && RunBits(s, t, run, n) == []
  {
  }

  /** The beginning of the j-th segment. */
  lemma {:induction false} SegmentStart(s: Setup, t: CodeTables, c: Coded, tail: seq<byte>, g: Progress, j: nat) returns (part: Part)
    requires IsSetup(s) && IsCodeTables(t) && IsCoded(s, t, c) && Through(g, c.runs) && j == |g.done| && g.cur == []
    requires j < |c.segments| == |c.markers|
    ensures Follows(Output(c.segments, c.markers, j, tail), part)
    ensures At(s, t, c, tail, Point(g, part, 0, seq(|s.comps|, i => 0), RST0 + j % 8))
  {
    CodedFacts(s, t, c);
    var data := RunStart(s, t, c.runs[j], c.segments[j]);
    part := Part(c.segments[j], data, c.markers[j], Output(c.segments, c.markers, j + 1, tail));
    AtIs(s, t, c, tail, Point(g, part, 0, seq(|s.comps|, i => 0), RST0 + j % 8));
  }

  lemma {:induction false} RunOver(s: Setup, t: CodeTables, run: seq<Mcu>, i: nat, data: Bits, pos: nat, dc: seq<int>)
    requires IsSetup(s) && IsCodeTables(t) && InRun(s, t, run, i, data, pos, dc) && i == |run|
    ensures pos + 8 > |data| && |dc| == |s.comps|
  {
    InRunIs(s, t, run, i, data, pos, dc);
  }

  /** Before an MCU a restart is due: a marker comes next, and another segment behind it. */
  lemma {:induction false} AtRestart(s: Setup, t: CodeTables, c: Coded, tail: seq<byte>, p: Point, mcu: Mcu) returns (part: Part)
    requires IsSetup(s) && IsCodeTables(t) && IsCoded(s, t, c) && At(s, t, c, tail, p)
    requires Through(Step(s, p.g, mcu), c.runs) && RestartDue(s, p.g)
    ensures |p.g.done| < |c.markers| == |c.segments| && p.part.ending == c.markers[|p.g.done|]
    ensures p.rm == Ending(|c.segments|, |p.g.done|) && p.pos + 8 > |p.part.data| && Follows(p.part.rest, part)
    ensures At(s, t, c, tail, Point(Restarted(s, p.g), part, 0, seq(|s.comps|, i => 0), RST0 + (|p.g.done| + 1) % 8))
    ensures |p.dc| == |s.comps|
  {
    AtIs(s, t, c, tail, p);
    CodedFacts(s, t, c);
    ThroughBefore(s, p.g, mcu, c.runs);
    var j := |p.g.done|;
    assert c.runs[..j + 1][j] == c.runs[j] == p.g.cur;
    RunOver(s, t, c.runs[j], |p.g.cur|, p.part.data, p.pos, p.dc);
    part := SegmentStart(s, t, c, tail, Restarted(s, p.g), j + 1);
  }

  /** The bits of the next MCU of an interval, and where they end. */
  lemma {:induction false} NextInRun(s: Setup, t: CodeTables, run: seq<Mcu>, i: nat, data: Bits, pos: nat, dc: seq<int>)
    requires IsSetup(s) && IsCodeTables(t) && InRun(s, t, run, i, data, pos, dc) && i < |run|
    ensures IsMcu(s, run[i]) && |dc| == |s.comps| && McuEncodable(s, t, dc, run[i], |s.membership|)
    ensures BeginsAt(data, pos, McuBits(s, t, dc, run[i], |s.membership|))
    ensures InRun(s, t, run, i + 1, data, pos + |McuBits(s, t, dc, run[i], |s.membership|)|, McuPreds(s, dc, run[i], |s.membership|))
  {
    InRunIs(s, t, run, i, data, pos, dc);
    NextBegins(s, t, run, i, data);
    NextReached(s, t, run, i, data, pos, dc);
  }

  lemma {:induction false} NextBegins(s: Setup, t: CodeTables, run: seq<Mcu>, i: nat, data: Bits)
    requires IsSetup(s) && IsCodeTables(t) && AllMcus(s, run) && i < |run| && PaddedBits(RunBits(s, t, run, |run|), data)
    ensures BeginsAt(data, |RunBits(s, t, run, i)|, McuBits(s, t, RunPreds(s, run, i), run[i], |s.membership|))
  {
    PaddedBegins(RunBits(s, t, run, |run|), data);
    RunPart(s, t, run, i, |run|, data, 0);
  }

  lemma {:induction false} NextReached(s: Setup, t: CodeTables, run: seq<Mcu>, i: nat, data: Bits, pos: nat, dc: seq<int>)
    requires IsSetup(s) && IsCodeTables(t) && ReachedInRun(s, t, run, i, data, pos, dc) && i < |run|
    ensures |dc| == |s.comps|
    ensures InRun(s, t, run, i + 1, data, pos + |McuBits(s, t, dc, run[i], |s.membership|)|, McuPreds(s, dc, run[i], |s.membership|))
  {
    RunStep(s, t, run, i);
    InRunIs(s, t, run, i + 1, data, pos + |McuBits(s, t, dc, run[i], |s.membership|)|, McuPreds(s, dc, run[i], |s.membership|));
  }

  lemma PaddedBegins(w: Bits, data: Bits)
    requires PaddedBits(w, data)
    ensures BeginsAt(data, 0, w)
  {
  }

  lemma {:induction false} RunStep(s: Setup, t: CodeTables, run: seq<Mcu>, i: nat)
    requires IsSetup(s) && IsCodeTables(t) && AllMcus(s, run) && i < |run|
    ensures RunPreds(s, run, i + 1) == McuPreds(s, RunPreds(s, run, i), run[i], |s.membership|)
    ensures |RunBits(s, t, run, i + 1)|
         == |RunBits(s, t, run, i)| + |McuBits(s, t, RunPreds(s, run, i), run[i], |s.membership|)|
  {
  }

  /** The bits of the next MCU come next. */
  lemma {:induction false} AtMcu(s: Setup, t: CodeTables, c: Coded, tail: seq<byte>, p: Point, mcu: Mcu)
    requires IsSetup(s) && IsCodeTables(t) && At(s, t, c, tail, p)
    requires Through(Step(s, p.g, mcu), c.runs) && !RestartDue(s, p.g)
    ensures IsMcu(s, mcu) && |p.dc| == |s.comps| && McuEncodable(s, t, p.dc, mcu, |s.membership|)
    ensures BeginsAt(p.part.data, p.pos, McuBits(s, t, p.dc, mcu, |s.membership|))
    ensures At(s, t, c, tail, Point(Step(s, p.g, mcu), p.part, p.pos + |McuBits(s, t, p.dc, mcu, |s.membership|)|,
                                    McuPreds(s, p.dc, mcu, |s.membership|), p.rm))
  {
    AtRun(s, t, c, tail, p);
    ThroughBefore(s, p.g, mcu, c.runs);
    NextInRun(s, t, c.runs[|p.g.done|], |p.g.cur|, p.part.data, p.pos, p.dc);
    AtNext(s, t, c, tail, p, mcu, p.pos + |McuBits(s, t, p.dc, mcu, |s.membership|)|, McuPreds(s, p.dc, mcu, |s.membership|));
  }

  lemma AtNext(s: Setup, t: CodeTables, c: Coded, tail: seq<byte>, p: Point, mcu: Mcu, pos: nat, dc: seq<int>)
    requires IsSetup(s) && IsCodeTables(t) && At(s, t, c, tail, p) && Through(Step(s, p.g, mcu), c.runs) && !RestartDue(s, p.g)
    requires InRun(s, t, c.runs[|p.g.done|], |p.g.cur| + 1, p.part.data, pos, dc)
    ensures At(s, t, c, tail, Point(Step(s, p.g, mcu), p.part, pos, dc, p.rm))
  {
    AtIs(s, t, c, tail, p);
    AtIs(s, t, c, tail, Point(Step(s, p.g, mcu), p.part, pos, dc, p.rm));
  }

  lemma AtRun(s: Setup, t: CodeTables, c: Coded, tail: seq<byte>, p: Point)
    requires IsSetup(s) && IsCodeTables(t) && At(s, t, c, tail, p)
    ensures Through(p.g, c.runs) && InRun(s, t, c.runs[|p.g.done|], |p.g.cur|, p.part.data, p.pos, p.dc)
  {
    AtIs(s, t, c, tail, p);
  }

  /** All MCUs are decoded: the last marker comes next. */
  lemma {:induction false} AtEnd(s: Setup, t: CodeTables, c: Coded, tail: seq<byte>, p: Point)
    requires IsSetup(s) && IsCodeTables(t) && IsCoded(s, t, c) && At(s, t, c, tail, p)
    requires c.runs == p.g.done + [p.g.cur]
    ensures |p.g.done| + 1 == |c.markers| == |c.segments| && p.part.ending == c.markers[|p.g.done|]
    ensures p.pos + 8 > |p.part.data|
  {
    AtIs(s, t, c, tail, p);
    CodedFacts(s, t, c);
    RunOver(s, t, p.g.cur, |p.g.cur|, p.part.data, p.pos, p.dc);
  }

  lemma WithinInterval(s: Setup, t: CodeTables, c: Coded, g: Progress)
    requires IsSetup(s) && IsCodeTables(t) && IsCoded(s, t, c) && Through(g, c.runs) && s.interval > 0
    ensures |g.cur| <= s.interval
  {
    CodedFacts(s, t, c);
  }

  // ----- the decoder -----

  ghost function PointOf(d: Decoder, g: Progress): Point
    reads d, d.input
  {
    Point(g, d.input.part, d.input.pos, d.dc, d.rm)
  }

  /** The decoder stands behind the MCUs of g. */
  ghost predicate Behind(d: Decoder, c: Coded, tail: seq<byte>, g: Progress)
    reads d, d.input, d.hudc, d.huac
  {
    d.Ready() && IsCoded(d.s, d.t, c) && At(d.s, d.t, c, tail, PointOf(d, g))
  }

  /** Checks for the next restart marker and starts over behind it. */
  method CheckMarker(d: Decoder, ghost c: Coded, ghost tail: seq<byte>, ghost g: Progress, ghost mcu: Mcu) returns (ok: bool)
    requires Behind(d, c, tail, g) && Through(Step(d.s, g, mcu), c.runs) && RestartDue(d.s, g)
    modifies d, d.input
    ensures |g.done| < |c.markers| && (ok <==> c.markers[|g.done|] == Ending(|c.segments|, |g.done|))
    ensures ok ==> Behind(d, c, tail, Restarted(d.s, g)) && d.nm == d.s.interval
  {
    ghost var part := AtRestart(d.s, d.t, c, tail, PointOf(d, g), mcu);
    MarkerNumber(d.s, d.t, c, tail, PointOf(d, g));
    var m := d.input.ReadMarker(part);
    if m != d.rm { return false; }
    d.nm := d.s.interval;
    var next := d.rm + 1;
    d.rm := if next / 8 % 2 == 1 then next - 8 else next;
    NextMarker(|g.done|);
    d.dc := seq(|d.dc|, i => 0);
    ok := true;
  }

  lemma MarkerNumber(s: Setup, t: CodeTables, c: Coded, tail: seq<byte>, p: Point)
    requires IsSetup(s) && IsCodeTables(t) && At(s, t, c, tail, p)
    ensures p.rm == RST0 + |p.g.done| % 8
  {
    AtIs(s, t, c, tail, p);
  }

  lemma NextMarker(j: nat)
    ensures var next := RST0 + j % 8 + 1; RST0 + (j + 1) % 8 == if next / 8 % 2 == 1 then next - 8 else next
  {
  }

  /** The marker that is due, if any, is the right one. */
  predicate MarkerRight(s: Setup, c: Coded, g: Progress) {
    RestartDue(s, g) && |g.done| < |c.markers| ==> c.markers[|g.done|] == Ending(|c.segments|, |g.done|)
  }

  /** Counts down to the next marker and checks for it when it is due. */
  method MarkerIfDue(d: Decoder, ghost c: Coded, ghost tail: seq<byte>, ghost g: Progress, ghost mcu: Mcu) returns (ok: bool)
    requires Behind(d, c, tail, g) && Through(Step(d.s, g, mcu), c.runs)
    requires d.s.interval > 0 ==> d.nm + |g.cur| == d.s.interval + 1
    modifies d, d.input
    ensures ok <==> MarkerRight(d.s, c, g)
    ensures !ok ==> RestartDue(d.s, g) && |g.done| < |c.markers|
    ensures ok ==> Behind(d, c, tail, Restarted(d.s, g))
    ensures ok && d.s.interval > 0 ==> d.nm + |Restarted(d.s, g).cur| == d.s.interval
  {
    ThroughBefore(d.s, g, mcu, c.runs);
    ok := true;
    if d.s.interval > 0 {
      WithinInterval(d.s, d.t, c, g);
      d.nm := d.nm - 1;
      if d.nm == 0 {
        ok := CheckMarker(d, c, tail, g, mcu);
      }
    }
  }

  /** Decodes an MCU before which no restart is due any more. */
  method DecodeBlocks(d: Decoder, dct: array<int>, n: nat, ghost c: Coded, ghost tail: seq<byte>, ghost g: Progress, ghost mcu: Mcu)
    returns (max: seq<int>)
    requires Behind(d, c, tail, g) && Through(Step(d.s, g, mcu), c.runs) && !RestartDue(d.s, g)
    requires n == |d.s.membership| && (n == 1 || n >= 3) && 64 * n <= dct.Length
    modifies d`dc, d.input, dct
    ensures Behind(d, c, tail, Step(d.s, g, mcu)) && BlocksIn(dct[..], mcu, n, n) && |mcu| == |max| == n
    ensures forall b :: 0 <= b < n ==> |mcu[b]| == 64 && IsMaximum(mcu[b], max[b])
  {
    AtMcu(d.s, d.t, c, tail, PointOf(d, g), mcu);
    max := d.DecodeMcus(dct, n, mcu, d.dc);
  }

  /** Decodes an MCU, after a restart marker if one is due. */
  method DecodeMcu(d: Decoder, dct: array<int>, n: nat, ghost c: Coded, ghost tail: seq<byte>, ghost g: Progress, ghost mcu: Mcu)
    returns (ok: bool, max: seq<int>)
    requires Behind(d, c, tail, g) && Through(Step(d.s, g, mcu), c.runs)
    requires n == |d.s.membership| && (n == 1 || n >= 3) && 64 * n <= dct.Length
    requires d.s.interval > 0 ==> d.nm + |g.cur| == d.s.interval + 1
    modifies d, d.input, dct
    ensures ok <==> MarkerRight(d.s, c, g)
    ensures !ok ==> RestartDue(d.s, g) && |g.done| < |c.markers|
    ensures ok ==> Behind(d, c, tail, Step(d.s, g, mcu)) && |mcu| == n
    ensures ok && d.s.interval > 0 ==> d.nm + |Step(d.s, g, mcu).cur| == d.s.interval + 1
    ensures ok ==> 64 * n <= dct.Length && (forall b :: 0 <= b < n ==> dct[64 * b..64 * b + 64] == mcu[b])
    ensures ok ==> |max| == n && forall b :: 0 <= b < n ==> |mcu[b]| == 64 && IsMaximum(mcu[b], max[b])
  {
    ok := MarkerIfDue(d, c, tail, g, mcu);
    if !ok { return false, []; }
    max := DecodeBlocks(d, dct, n, c, tail, Restarted(d.s, g), mcu);
    BlocksAllIn(dct[..], mcu, n);
  }

  /** The blocks of an MCU as they lie in the decoder's buffer. */
  function BlocksOf(dct: seq<int>, n: nat): (mcu: Mcu)
    requires 64 * n <= |dct|
    ensures |mcu| == n
  {
    seq(n, b requires 0 <= b < n => dct[64 * b..64 * b + 64])
  }

  lemma BlocksAre(dct: seq<int>, n: nat, mcu: Mcu)
    requires 64 * n <= |dct| && |mcu| == n && forall b :: 0 <= b < n ==> dct[64 * b..64 * b + 64] == mcu[b]
    ensures BlocksOf(dct, n) == mcu
  {
  }

  /** The markers checked so far are right. */
  lemma MarkersMore(s: Setup, c: Coded, g: Progress, mcu: Mcu)
    requires MarkersRight(c, |g.done|) && |c.markers| == |c.segments|
    ensures MarkerRight(s, c, g) ==> MarkersRight(c, |Step(s, g, mcu).done|)
    ensures !MarkerRight(s, c, g) ==> !MarkersRight(c, |c.markers|)
  {
  }

  /** Decodes all MCUs of a scan and checks for the marker that ends the image. It succeeds exactly if all
      markers are those that an encoder writes. */
  method DecodeScan(d: Decoder, n: nat, count: nat, ghost c: Coded, ghost tail: seq<byte>, ghost mcus: seq<Mcu>)
    returns (ok: bool, out: seq<Mcu>)
    requires Behind(d, c, tail, Progress([], [])) && d.nm == d.s.interval + 1
    requires n == |d.s.membership| && (n == 1 || n >= 3) && count == |mcus|
    requires c.runs == Cut(d.s, mcus).done + [Cut(d.s, mcus).cur] && |c.markers| == |c.segments|
    modifies d, d.input
    ensures ok <==> MarkersRight(c, |c.markers|)
    ensures ok ==> out == mcus
  {
    out := [];
    var dct := new int[64 * n];
    ghost var s, g := d.s, Progress([], []);
    while |out| < count
      invariant |out| <= count && out == mcus[..|out|] && g == Cut(s, mcus[..|out|]) && MarkersRight(c, |g.done|)
      invariant Behind(d, c, tail, g) && (s.interval > 0 ==> d.nm + |g.cur| == s.interval + 1)
      invariant fresh(dct)
    {
      ghost var k := |out|;
      assert mcus[..k + 1][..k] == mcus[..k];
      CutThrough(s, mcus, k + 1, c.runs);
      var max;
      ok, max := DecodeMcu(d, dct, n, c, tail, g, mcus[k]);
      MarkersMore(s, c, g, mcus[k]);
      if !ok { return; }
      BlocksAre(dct[..], n, mcus[k]);
      out := out + [BlocksOf(dct[..], n)];
      g := Step(s, g, mcus[k]);
    }
    assert mcus[..|out|] == mcus;
    AtEnd(d.s, d.t, c, tail, PointOf(d, g));
    var m := d.input.ReadMarker(d.input.part);
    ok := m == EOI_CODE;
  }
}
