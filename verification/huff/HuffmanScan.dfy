/** Baseline scans: how predictions run from block to block, where restarts cut a scan, and the bits of
    what is between two restarts. */
module HuffmanScan {
  import opened Powers
  import opened ByteStream
  import opened BitStrings
  import opened BlockCode
  import opened BlockEncoder
  import opened BitWriter

  const BLOCK_SIZE := 64
  const NUM_HUFF_TBLS := 4

  datatype Component = Component(dcTbl: nat, acTbl: nat)

  /** Parameters of a scan. membership gives the component of every block of an MCU; interval is the
      number of MCUs between restarts, 0 for none. */
  datatype Setup = Setup(comps: seq<Component>, membership: seq<nat>, order: seq<nat>, se: nat, interval: nat)

  /** The blocks of an MCU, each with its coefficients in zigzag order. */
  type Mcu = seq<seq<int>>

  ghost predicate IsSetup(s: Setup) {
    && OrderFits(s.order, s.se, BLOCK_SIZE)
    && forall k {:trigger Key(k)} :: Key(k) ==>
      && (forall b :: 0 <= b < |s.membership| ==> s.membership[b] < |s.comps|)
      && forall c :: 0 <= c < |s.comps| ==> s.comps[c].dcTbl < NUM_HUFF_TBLS && s.comps[c].acTbl < NUM_HUFF_TBLS
  }

  ghost predicate IsMcu(s: Setup, mcu: Mcu) {
    |mcu| == |s.membership| && forall k {:trigger Key(k)} :: Key(k) ==> forall b :: 0 <= b < |mcu| ==> |mcu[b]| == s.se + 1
  }

  // ----- predictions -----

  /** DC predictions after the first b blocks of an MCU. */
  function McuPreds(s: Setup, preds: seq<int>, mcu: Mcu, b: nat): (after: seq<int>)
    requires b <= |mcu| && b <= |s.membership|
    ensures |after| == |preds|
  {
    if b == 0 then preds
    else
      var before := McuPreds(s, preds, mcu, b - 1);
      if s.membership[b - 1] < |before| && mcu[b - 1] != [] then before[s.membership[b - 1] := mcu[b - 1][0]] else before
  }

  ghost predicate AllMcus(s: Setup, mcus: seq<Mcu>) {
    forall n :: 0 <= n < |mcus| ==> IsMcu(s, mcus[n])
  }

  /** Predictions before the n-th MCU of a run that starts from zero. */
  function RunPreds(s: Setup, mcus: seq<Mcu>, n: nat): (preds: seq<int>)
    requires n <= |mcus| && forall i :: 0 <= i < |mcus| ==> |mcus[i]| == |s.membership|
    ensures |preds| == |s.comps|
  {
    if n == 0 then seq(|s.comps|, c => 0)
    else McuPreds(s, RunPreds(s, mcus, n - 1), mcus[n - 1], |s.membership|)
  }

  // ----- bits -----

  datatype CodeTables = CodeTables(dc: seq<Codes>, ac: seq<Codes>)

  ghost predicate IsCodeTables(t: CodeTables) {
    && |t.dc| == |t.ac| == NUM_HUFF_TBLS
    && forall k {:trigger Key(k)} :: Key(k) ==> forall i :: 0 <= i < NUM_HUFF_TBLS ==> IsCodes(t.dc[i]) && IsCodes(t.ac[i])
  }

  lemma BlockFacts(s: Setup, t: CodeTables, mcu: Mcu, b: nat)
    requires IsSetup(s) && IsCodeTables(t) && IsMcu(s, mcu) && b < |s.membership|
    ensures s.membership[b] < |s.comps| && |mcu[b]| == s.se + 1
    ensures s.comps[s.membership[b]].dcTbl < NUM_HUFF_TBLS && s.comps[s.membership[b]].acTbl < NUM_HUFF_TBLS
    ensures IsCodes(t.dc[s.comps[s.membership[b]].dcTbl]) && IsCodes(t.ac[s.comps[s.membership[b]].acTbl])
  {
    assert Key(0);
  }

  /** One block of an MCU as it is coded: its codes, values and prediction. */
  datatype Coding = Coding(dc: Codes, ac: Codes, vals: seq<int>, pred: int)

  ghost function CodingAt(s: Setup, t: CodeTables, preds: seq<int>, mcu: Mcu, b: nat): (c: Coding)
    requires IsSetup(s) && IsCodeTables(t) && IsMcu(s, mcu) && |preds| == |s.comps| && b < |s.membership|
    ensures IsCodes(c.dc) && IsCodes(c.ac) && c.vals == mcu[b] && |c.vals| == s.se + 1
  {
    BlockFacts(s, t, mcu, b);
    var ci := s.membership[b];
    Coding(t.dc[s.comps[ci].dcTbl], t.ac[s.comps[ci].acTbl], mcu[b], McuPreds(s, preds, mcu, b)[ci])
  }

  ghost predicate IsCodingEncodable(c: Coding, r: bool)
    requires c.vals != []
  {
    forall k {:trigger Key(k)} :: Key(k) ==> r == BlockEncodable(c.dc, c.ac, c.vals, c.pred)
  }

  /** The values of a block are in range and its symbols have codes. */
  ghost function CodingEncodable(c: Coding): (r: bool)
    requires c.vals != []
    ensures IsCodingEncodable(c, r)
  {
    assert IsCodingEncodable(c, BlockEncodable(c.dc, c.ac, c.vals, c.pred));
    var r: bool :| IsCodingEncodable(c, r);
    r
  }

  ghost predicate IsCodingBits(c: Coding, w: Bits)
    requires c.vals != [] && IsCodes(c.dc) && IsCodes(c.ac)
  {
    forall k {:trigger Key(k)} :: Key(k) ==> w == BlockBits(c.dc, c.ac, c.vals, c.pred)
  }

  /** The bits of a block; what they are is only known to proofs that ask for it. */
  ghost function CodingBits(c: Coding): (w: Bits)
    requires c.vals != [] && IsCodes(c.dc) && IsCodes(c.ac)
    ensures IsCodingBits(c, w)
  {
    assert IsCodingBits(c, BlockBits(c.dc, c.ac, c.vals, c.pred));
    var w :| IsCodingBits(c, w);
    w
  }

  ghost predicate IsMcuEncodable(s: Setup, t: CodeTables, preds: seq<int>, mcu: Mcu, b: nat, r: bool)
    requires IsSetup(s) && IsCodeTables(t) && IsMcu(s, mcu) && |preds| == |s.comps| && b <= |s.membership|
  {
    forall k {:trigger Key(k)} :: Key(k) ==>
      (r <==> forall i :: 0 <= i < b ==> CodingEncodable(CodingAt(s, t, preds, mcu, i)))
  }

  /** Values in range and codes for all symbols, in the first b blocks of an MCU. */
  ghost function McuEncodable(s: Setup, t: CodeTables, preds: seq<int>, mcu: Mcu, b: nat): (r: bool)
    requires IsSetup(s) && IsCodeTables(t) && IsMcu(s, mcu) && |preds| == |s.comps| && b <= |s.membership|
    ensures IsMcuEncodable(s, t, preds, mcu, b, r)
  {
    assert IsMcuEncodable(s, t, preds, mcu, b, forall i :: 0 <= i < b ==> CodingEncodable(CodingAt(s, t, preds, mcu, i)));
    var r: bool :| IsMcuEncodable(s, t, preds, mcu, b, r);
    r
  }

  lemma McuEncodableIs(s: Setup, t: CodeTables, preds: seq<int>, mcu: Mcu, b: nat)
    requires IsSetup(s) && IsCodeTables(t) && IsMcu(s, mcu) && |preds| == |s.comps| && b <= |s.membership|
    ensures McuEncodable(s, t, preds, mcu, b) <==>
      forall i :: 0 <= i < b ==> CodingEncodable(CodingAt(s, t, preds, mcu, i))
  {
    assert Key(0);
  }

  ghost function McuBits(s: Setup, t: CodeTables, preds: seq<int>, mcu: Mcu, b: nat): Bits
    requires IsSetup(s) && IsCodeTables(t) && IsMcu(s, mcu) && |preds| == |s.comps| && b <= |s.membership|
  {
    if b == 0 then [] else McuBits(s, t, preds, mcu, b - 1) + CodingBits(CodingAt(s, t, preds, mcu, b - 1))
  }

  /** The first n MCUs of a run. */
  ghost predicate RunEncodable(s: Setup, t: CodeTables, mcus: seq<Mcu>, n: nat)
    requires IsSetup(s) && IsCodeTables(t) && AllMcus(s, mcus) && n <= |mcus|
  {
    forall i :: 0 <= i < n ==> McuEncodable(s, t, RunPreds(s, mcus, i), mcus[i], |s.membership|)
  }

  ghost function RunBits(s: Setup, t: CodeTables, mcus: seq<Mcu>, n: nat): Bits
    requires IsSetup(s) && IsCodeTables(t) && AllMcus(s, mcus) && n <= |mcus|
  {
    if n == 0 then []
    else RunBits(s, t, mcus, n - 1) + McuBits(s, t, RunPreds(s, mcus, n - 1), mcus[n - 1], |s.membership|)
  }

  /** Within the bits of an MCU, those of each block. */
  lemma {:induction false} McuPart(s: Setup, t: CodeTables, preds: seq<int>, mcu: Mcu, b: nat, n: nat, w: Bits, pos: nat)
    requires IsSetup(s) && IsCodeTables(t) && IsMcu(s, mcu) && |preds| == |s.comps| && b < n <= |s.membership|
    requires BeginsAt(w, pos, McuBits(s, t, preds, mcu, n))
    ensures BeginsAt(w, pos + |McuBits(s, t, preds, mcu, b)|, CodingBits(CodingAt(s, t, preds, mcu, b)))
    decreases n
  {
    BeginsSplit(w, pos, McuBits(s, t, preds, mcu, n - 1), CodingBits(CodingAt(s, t, preds, mcu, n - 1)));
    if b < n - 1 {
      McuPart(s, t, preds, mcu, b, n - 1, w, pos);
    }
  }

  /** Within the bits of a run, those of each MCU. */
  lemma {:induction false} RunPart(s: Setup, t: CodeTables, mcus: seq<Mcu>, i: nat, n: nat, w: Bits, pos: nat)
    requires IsSetup(s) && IsCodeTables(t) && AllMcus(s, mcus) && i < n <= |mcus|
    requires BeginsAt(w, pos, RunBits(s, t, mcus, n))
    ensures BeginsAt(w, pos + |RunBits(s, t, mcus, i)|, McuBits(s, t, RunPreds(s, mcus, i), mcus[i], |s.membership|))
    decreases n
  {
    BeginsSplit(w, pos, RunBits(s, t, mcus, n - 1), McuBits(s, t, RunPreds(s, mcus, n - 1), mcus[n - 1], |s.membership|));
    if i < n - 1 {
      RunPart(s, t, mcus, i, n - 1, w, pos);
    }
  }

  lemma {:induction false} RunPredsSame(s: Setup, x: seq<Mcu>, y: seq<Mcu>, n: nat)
    requires n <= |x| <= |y| && AllMcus(s, x) && AllMcus(s, y) && x == y[..|x|]
    ensures RunPreds(s, x, n) == RunPreds(s, y, n)
  {
    if n > 0 {
      RunPredsSame(s, x, y, n - 1);
    }
  }

  lemma {:induction false} RunBitsSame(s: Setup, t: CodeTables, x: seq<Mcu>, y: seq<Mcu>, n: nat)
    requires IsSetup(s) && IsCodeTables(t) && n <= |x| <= |y| && AllMcus(s, x) && AllMcus(s, y) && x == y[..|x|]
    ensures RunBits(s, t, x, n) == RunBits(s, t, y, n)
  {
    if n > 0 {
      RunPredsSame(s, x, y, n - 1);
      assert x[n - 1] == y[n - 1];
      assert McuBits(s, t, RunPreds(s, x, n - 1), x[n - 1], |s.membership|)
          == McuBits(s, t, RunPreds(s, y, n - 1), y[n - 1], |s.membership|);
      RunBitsSame(s, t, x, y, n - 1);
    }
  }

  lemma {:induction false} RunMore(s: Setup, t: CodeTables, cur: seq<Mcu>, mcu: Mcu, more: seq<Mcu>)
    requires IsSetup(s) && IsCodeTables(t) && AllMcus(s, cur) && IsMcu(s, mcu) && more == cur + [mcu]
    ensures AllMcus(s, more)
    ensures RunPreds(s, more, |more|) == McuPreds(s, RunPreds(s, cur, |cur|), mcu, |s.membership|)
    ensures RunBits(s, t, more, |more|) ==
      RunBits(s, t, cur, |cur|) + McuBits(s, t, RunPreds(s, cur, |cur|), mcu, |s.membership|)
  {
    assert more[..|cur|] == cur;
    RunPredsSame(s, cur, more, |cur|);
    RunBitsSame(s, t, cur, more, |cur|);
    assert more[|more| - 1] == mcu;
  }

  lemma RunNone(s: Setup, t: CodeTables, n: nat)
    requires IsSetup(s) && IsCodeTables(t) && n == 0
    ensures RunPreds(s, [], n) == seq(|s.comps|, c => 0) && RunBits(s, t, [], n) == []
  {
  }

  // ----- restarts -----

  /** MCUs coded so far, cut at the restarts: whole intervals and the current one. */
  datatype Progress = Progress(done: seq<seq<Mcu>>, cur: seq<Mcu>)

  /** A restart comes before an MCU when the current interval is full. */
  predicate RestartDue(s: Setup, g: Progress) {
    s.interval > 0 && |g.cur| == s.interval
  }

  function Restarted(s: Setup, g: Progress): Progress {
    if RestartDue(s, g) then Progress(g.done + [g.cur], []) else g
  }

  function Step(s: Setup, g: Progress, mcu: Mcu): Progress {
    Progress(Restarted(s, g).done, Restarted(s, g).cur + [mcu])
  }

  function Cut(s: Setup, mcus: seq<Mcu>): Progress {
    if mcus == [] then Progress([], [])
    else Step(s, Cut(s, mcus[..|mcus| - 1]), mcus[|mcus| - 1])
  }

  ghost predicate IsProgress(s: Setup, g: Progress) {
    && AllMcus(s, g.cur) && (s.interval > 0 ==> |g.cur| <= s.interval)
    && forall i :: 0 <= i < |g.done| ==> AllMcus(s, g.done[i]) && |g.done[i]| == s.interval
  }

  lemma StepIsProgress(s: Setup, g: Progress, mcu: Mcu)
    requires IsProgress(s, g) && IsMcu(s, mcu)
    ensures IsProgress(s, Restarted(s, g)) && IsProgress(s, Step(s, g, mcu))
  {
  }

  lemma {:induction false} CutIsProgress(s: Setup, mcus: seq<Mcu>)
    requires AllMcus(s, mcus)
    ensures IsProgress(s, Cut(s, mcus))
  {
    if mcus != [] {
      CutIsProgress(s, mcus[..|mcus| - 1]);
      StepIsProgress(s, Cut(s, mcus[..|mcus| - 1]), mcus[|mcus| - 1]);
    }
  }

  /** Everything coded so far had values in range and codes. */
  ghost predicate ProgressEncodable(s: Setup, t: CodeTables, g: Progress)
    requires IsSetup(s) && IsCodeTables(t) && IsProgress(s, g)
  {
    && RunEncodable(s, t, g.cur, |g.cur|)
    && forall i :: 0 <= i < |g.done| ==> RunEncodable(s, t, g.done[i], |g.done[i]|)
  }

  lemma {:induction false} RunEncodableMore(s: Setup, t: CodeTables, cur: seq<Mcu>, mcu: Mcu)
    requires IsSetup(s) && IsCodeTables(t) && AllMcus(s, cur) && IsMcu(s, mcu)
    ensures AllMcus(s, cur + [mcu])
    ensures RunEncodable(s, t, cur + [mcu], |cur + [mcu]|) <==>
      RunEncodable(s, t, cur, |cur|) && McuEncodable(s, t, RunPreds(s, cur, |cur|), mcu, |s.membership|)
  {
    var more := cur + [mcu];
    forall i | 0 <= i <= |cur| ensures RunPreds(s, more, i) == RunPreds(s, cur, i) {
      RunPredsSame(s, cur, more, i);
    }
    forall i | 0 <= i < |cur|
      ensures McuEncodable(s, t, RunPreds(s, more, i), more[i], |s.membership|) <==>
        McuEncodable(s, t, RunPreds(s, cur, i), cur[i], |s.membership|)
    {
    }
    assert more[|cur|] == mcu;
  }

  /** One more MCU. */
  lemma {:induction false} StepEncodable(s: Setup, t: CodeTables, g: Progress, mcu: Mcu)
    requires IsSetup(s) && IsCodeTables(t) && IsProgress(s, g) && IsMcu(s, mcu)
    ensures IsProgress(s, Step(s, g, mcu))
    ensures var cur := Restarted(s, g).cur;
      ProgressEncodable(s, t, Step(s, g, mcu)) <==>
        ProgressEncodable(s, t, g) && McuEncodable(s, t, RunPreds(s, cur, |cur|), mcu, |s.membership|)
  {
    StepIsProgress(s, g, mcu);
    RunEncodableMore(s, t, Restarted(s, g).cur, mcu);
    RestartEncodable(s, t, g);
  }

  lemma RestartEncodable(s: Setup, t: CodeTables, g: Progress)
    requires IsSetup(s) && IsCodeTables(t) && IsProgress(s, g)
    ensures IsProgress(s, Restarted(s, g)) && (ProgressEncodable(s, t, Restarted(s, g)) <==> ProgressEncodable(s, t, g))
  {
    var r := Restarted(s, g);
    if RestartDue(s, g) {
      assert r.done[|g.done|] == g.cur;
      forall i | 0 <= i < |g.done| ensures r.done[i] == g.done[i] {
      }
    }
  }

  // ----- output -----

  /** The bytes of intervals, each followed by its restart marker. */
  function Joined(intervals: seq<seq<byte>>): seq<byte> {
    if intervals == [] then []
    else
      var n := |intervals| - 1;
      Joined(intervals[..n]) + Stuff(intervals[n]) + [0xFF, RST0 + n % 8]
  }

  lemma {:induction false} JoinedMore(intervals: seq<seq<byte>>, segment: seq<byte>, num: nat)
    requires num == |intervals| % 8
    ensures Joined(intervals + [segment]) == Joined(intervals) + Stuff(segment) + [0xFF, RST0 + num]
  {
    assert (intervals + [segment])[..|intervals|] == intervals;
  }

  /** Bytes for the intervals that are done. */
  ghost predicate Codes(s: Setup, t: CodeTables, done: seq<seq<Mcu>>, bytes: seq<seq<byte>>)
    requires IsSetup(s) && IsCodeTables(t)
  {
    && |bytes| == |done|
    && forall i :: 0 <= i < |done| ==> AllMcus(s, done[i]) && Padded(RunBits(s, t, done[i], |done[i]|), bytes[i])
  }

  lemma CodesMore(s: Setup, t: CodeTables, done: seq<seq<Mcu>>, bytes: seq<seq<byte>>, cur: seq<Mcu>, segment: seq<byte>)
    requires IsSetup(s) && IsCodeTables(t) && Codes(s, t, done, bytes) && AllMcus(s, cur)
    requires Padded(RunBits(s, t, cur, |cur|), segment)
    ensures Codes(s, t, done + [cur], bytes + [segment])
  {
    var d, b := done + [cur], bytes + [segment];
    forall i | 0 <= i < |d| ensures AllMcus(s, d[i]) && Padded(RunBits(s, t, d[i], |d[i]|), b[i]) {
      if i < |done| {
        assert d[i] == done[i] && b[i] == bytes[i];
      } else {
        assert d[i] == cur && b[i] == segment;
      }
    }
  }

  // ----- a whole scan -----

  const EOI_CODE: byte := 0xD9

  /** The marker behind the j-th of n segments. */
  function Ending(n: nat, j: nat): byte {
    if j + 1 < n then RST0 + j % 8 else EOI_CODE
  }

  /** The markers that an encoder writes behind n segments. */
  function Endings(n: nat): (markers: seq<byte>)
    ensures |markers| == n && forall j :: 0 <= j < n ==> markers[j] == Ending(n, j)
  {
    seq(n, j requires 0 <= j < n => Ending(n, j))
  }

  /** Data from the j-th segment on: segments and markers, then whatever follows the image. */
  function Output(segments: seq<seq<byte>>, markers: seq<byte>, j: nat, tail: seq<byte>): seq<byte>
    requires j <= |segments| == |markers|
    decreases |segments| - j
  {
    if j == |segments| then tail
    else Stuff(segments[j]) + [0xFF, markers[j]] + Output(segments, markers, j + 1, tail)
  }

  lemma {:induction false} OutputFrom(segments: seq<seq<byte>>, markers: seq<byte>, j: nat, tail: seq<byte>)
    requires j < |segments| && markers == Endings(|segments|)
    ensures Output(segments, markers, 0, tail) == Joined(segments[..j]) + Output(segments, markers, j, tail)
  {
    if j > 0 {
      OutputFrom(segments, markers, j - 1, tail);
      var piece := PieceAt(segments, markers, j - 1, tail);
      Reassociate(Joined(segments[..j - 1]), piece, Output(segments, markers, j, tail));
    }
  }

  /** One segment and its marker on both sides. */
  lemma {:induction false} PieceAt(segments: seq<seq<byte>>, markers: seq<byte>, j: nat, tail: seq<byte>) returns (piece: seq<byte>)
    requires j + 1 < |segments| && markers == Endings(|segments|)
    ensures Output(segments, markers, j, tail) == piece + Output(segments, markers, j + 1, tail)
    ensures Joined(segments[..j + 1]) == Joined(segments[..j]) + piece
  {
    piece := Stuff(segments[j]) + [0xFF, RST0 + j % 8];
    assert segments[..j + 1] == segments[..j] + [segments[j]];
    JoinedMore(segments[..j], segments[j], j % 8);
    Reassociate(Joined(segments[..j]), Stuff(segments[j]), [0xFF, RST0 + j % 8]);
  }

  lemma Append<T>(x: seq<T>, y: seq<T>, z: seq<T>, rest: seq<T>)
    ensures x + (y + z + rest) == x + y + z + rest
  {
  }

  /** What an encoder wrote, with an EOI marker behind it, is the output of its segments. */
  lemma OutputWhole(intervals: seq<seq<byte>>, last: seq<byte>, markers: seq<byte>, tail: seq<byte>)
    requires markers == Endings(|intervals| + 1)
    ensures Joined(intervals) + Stuff(last) + [0xFF, EOI_CODE] + tail == Output(intervals + [last], markers, 0, tail)
  {
    var segments := intervals + [last];
    OutputFrom(segments, markers, |intervals|, tail);
    assert segments[..|intervals|] == intervals;
    assert Output(segments, markers, |segments|, tail) == tail;
    Append(Joined(intervals), Stuff(last), [0xFF, EOI_CODE], tail);
  }

  /** The intervals of a scan with their segments and the markers found behind these. */
  datatype Coded = Coded(runs: seq<seq<Mcu>>, segments: seq<seq<byte>>, markers: seq<byte>)

  /** The first n markers are those that an encoder writes. */
  predicate MarkersRight(c: Coded, n: nat) {
    forall j :: 0 <= j < n && j < |c.markers| ==> c.markers[j] == Ending(|c.segments|, j)
  }

  ghost predicate AllCodedRuns(s: Setup, t: CodeTables, c: Coded)
    requires IsSetup(s) && IsCodeTables(t)
  {
    && |c.runs| == |c.segments| == |c.markers| > 0 && (forall i :: 0 <= i < |c.markers| ==> c.markers[i] != 0)
    && (forall i :: 0 <= i < |c.runs| ==> RunCoded(s, t, c.runs[i], c.segments[i]))
    && (forall i :: 0 <= i < |c.runs| - 1 ==> |c.runs[i]| == s.interval)
    && (s.interval > 0 ==> forall i :: 0 <= i < |c.runs| ==> |c.runs[i]| <= s.interval)
  }

  ghost predicate CodedRight(s: Setup, t: CodeTables, c: Coded, r: bool)
    requires IsSetup(s) && IsCodeTables(t)
  {
    forall k {:trigger Key(k)} :: Key(k) ==> r == AllCodedRuns(s, t, c)
  }

  /** Every segment holds the bits of its interval, and all intervals but the last are full. */
  ghost function IsCoded(s: Setup, t: CodeTables, c: Coded): (r: bool)
    requires IsSetup(s) && IsCodeTables(t)
    ensures CodedRight(s, t, c, r)
  {
    assert CodedRight(s, t, c, AllCodedRuns(s, t, c));
    var r: bool :| CodedRight(s, t, c, r);
    r
  }

  lemma CodedFacts(s: Setup, t: CodeTables, c: Coded)
    requires IsSetup(s) && IsCodeTables(t)
    ensures IsCoded(s, t, c) <==> AllCodedRuns(s, t, c)
  {
    assert Key(0);
  }

  ghost predicate RunCoded(s: Setup, t: CodeTables, run: seq<Mcu>, segment: seq<byte>)
    requires IsSetup(s) && IsCodeTables(t)
  {
    AllMcus(s, run) && RunEncodable(s, t, run, |run|) && Padded(RunBits(s, t, run, |run|), segment)
  }

  /** MCUs up to some point of a scan. */
  ghost predicate Through(g: Progress, runs: seq<seq<Mcu>>) {
    && |g.done| < |runs| && g.done == runs[..|g.done|]
    && |g.cur| <= |runs[|g.done|]| && g.cur == runs[|g.done|][..|g.cur|]
  }

  lemma ThroughBefore(s: Setup, g: Progress, mcu: Mcu, runs: seq<seq<Mcu>>)
    requires Through(Step(s, g, mcu), runs)
    ensures Through(g, runs) && Through(Restarted(s, g), runs)
    ensures var r := Restarted(s, g); |r.cur| < |runs[|r.done|]| && runs[|r.done|][|r.cur|] == mcu
  {
    var r := Restarted(s, g);
    assert r.cur == (r.cur + [mcu])[..|r.cur|];
    if RestartDue(s, g) {
      assert runs[..|r.done|][|g.done|] == runs[|g.done|] == g.cur;
      assert g.done == r.done[..|g.done|];
    }
  }

  /** The cut of the first MCUs of a scan is part of the cut of all of them. */
  lemma {:induction false} CutThrough(s: Setup, mcus: seq<Mcu>, n: nat, runs: seq<seq<Mcu>>)
    requires n <= |mcus| && Through(Cut(s, mcus), runs)
    ensures Through(Cut(s, mcus[..n]), runs)
    decreases |mcus| - n
  {
    if n < |mcus| {
      CutThrough(s, mcus, n + 1, runs);
      assert mcus[..n + 1][..n] == mcus[..n];
      ThroughBefore(s, Cut(s, mcus[..n]), mcus[n], runs);
    } else {
      assert mcus[..n] == mcus;
    }
  }
}
