/** A baseline image coded with Huffman tables made for it: no symbol lacks a code, and the decoder gives
    back every block. */
module HuffmanRoundTrip {
  import opened Powers
  import opened ByteStream
  import opened CanonicalCode
  import opened DerivedTable
  import opened BlockCode
  import opened BlockEncoder
  import opened CodeReading
  import opened LookupTable
  import opened BitReader
  import opened BitWriter
  import opened HuffmanScan
  import opened HuffmanEncoder
  import opened HuffmanGather
  import opened HuffmanTables
  import opened HuffmanCutoff
  import opened McuDecoder
  import opened HuffmanDecoder

  // ----- every symbol has a code -----

  lemma {:induction false} DcCovered(log: seq<BlockUse>, u: BlockUse, h: HuffTable, c: Codes)
    requires u in log && u.vals != [] && UseFits(u) && Covers(TableCounts(log, true, u.dcTbl), h, c)
    ensures HasCode(c, DcSymbol(u.vals, u.pred))
  {
    var sym := DcSymbol(u.vals, u.pred);
    UsesPositive([sym], sym);
    TallyAtLeast(log, u, sym.rs);
    CodeFor(TableCounts(log, true, u.dcTbl), h, c, sym.rs);
  }

  lemma CodeFor(counts: seq<nat>, h: HuffTable, c: Codes, s: nat)
    requires Covers(counts, h, c) && s < TABLE_SIZE && s < |counts| && counts[s] > 0
    ensures s < |c.si| && c.si[s] > 0
  {
    assert Key(0);
  }

  lemma {:induction false} AcCovered(log: seq<BlockUse>, u: BlockUse, h: HuffTable, c: Codes)
    requires u in log && u.vals != [] && UseFits(u) && Covers(TableCounts(log, false, u.acTbl), h, c)
    ensures AllCoded(c, AcSymbols(u.vals, 1, 0))
  {
    var list := AcSymbols(u.vals, 1, 0);
    AcSmall(u.vals, 1, 0);
    forall sym | sym in list ensures HasCode(c, sym) {
      UsesPositive(list, sym);
      TallyAtLeast(log, u, sym.rs);
      CodeFor(TableCounts(log, false, u.acTbl), h, c, sym.rs);
    }
  }

  /** A block that was counted can be coded. */
  lemma {:induction false} UseCovered(log: seq<BlockUse>, u: BlockUse, h: HuffTables, t: CodeTables, c: Component)
    requires |h.dc| == |h.ac| == |t.dc| == |t.ac| == NUM_HUFF_TBLS && TablesFor(c, log, h, t)
    requires u in log && u.vals != [] && UseFits(u) && u.dcTbl == c.dcTbl && u.acTbl == c.acTbl
    ensures BlockEncodable(t.dc[u.dcTbl], t.ac[u.acTbl], u.vals, u.pred)
  {
    DcCovered(log, u, h.dc[u.dcTbl], t.dc[u.dcTbl]);
    AcCovered(log, u, h.ac[u.acTbl], t.ac[u.acTbl]);
  }

  predicate Within(part: seq<BlockUse>, log: seq<BlockUse>) {
    forall u :: u in part ==> u in log
  }

  lemma {:induction false} UseInMcu(s: Setup, preds: seq<int>, mcu: Mcu, b: nat, n: nat)
    requires b < n <= |mcu| && n <= |s.membership|
    ensures UseAt(s, preds, mcu, b) in McuUses(s, preds, mcu, n)
  {
    if b < n - 1 {
      UseInMcu(s, preds, mcu, b, n - 1);
    }
  }

  lemma {:induction false} McuInRun(s: Setup, run: seq<Mcu>, i: nat, n: nat)
    requires AllMcus(s, run) && i < n <= |run|
    ensures Within(McuUses(s, RunPreds(s, run, i), run[i], |s.membership|), RunUses(s, run, n))
  {
    var last := McuUses(s, RunPreds(s, run, n - 1), run[n - 1], |s.membership|);
    assert RunUses(s, run, n) == RunUses(s, run, n - 1) + last;
    if i < n - 1 {
      McuInRun(s, run, i, n - 1);
    }
  }

  lemma {:induction false} RunInDone(s: Setup, done: seq<seq<Mcu>>, i: nat)
    requires i < |done| && forall j :: 0 <= j < |done| ==> AllMcus(s, done[j])
    ensures Within(RunUses(s, done[i], |done[i]|), DoneUses(s, done))
  {
    if i < |done| - 1 {
      RunInDone(s, done[..|done| - 1], i);
    }
  }

  lemma {:induction false} McuCovered(s: Setup, log: seq<BlockUse>, h: HuffTables, t: CodeTables, preds: seq<int>, mcu: Mcu)
    requires IsSetup(s) && IsMcu(s, mcu) && |preds| == |s.comps| && ScanTables(s, log, h, t) && AllFit(log)
    requires Within(McuUses(s, preds, mcu, |s.membership|), log)
    ensures McuEncodable(s, t, preds, mcu, |s.membership|)
  {
    McuEncodableIs(s, t, preds, mcu, |s.membership|);
    forall b | 0 <= b < |s.membership| ensures CodingEncodable(CodingAt(s, t, preds, mcu, b)) {
      UseIs(s, preds, mcu, b);
      var u := UseAt(s, preds, mcu, b);
      UseInMcu(s, preds, mcu, b, |s.membership|);
      UseCovered(log, u, h, t, s.comps[s.membership[b]]);
      CodingIs(CodingAt(s, t, preds, mcu, b));
    }
  }

  lemma {:induction false} RunCovered(s: Setup, log: seq<BlockUse>, h: HuffTables, t: CodeTables, run: seq<Mcu>)
    requires IsSetup(s) && AllMcus(s, run) && ScanTables(s, log, h, t) && AllFit(log)
    requires Within(RunUses(s, run, |run|), log)
    ensures RunEncodable(s, t, run, |run|)
  {
    forall i | 0 <= i < |run| ensures McuEncodable(s, t, RunPreds(s, run, i), run[i], |s.membership|) {
      McuInRun(s, run, i, |run|);
      McuCovered(s, log, h, t, RunPreds(s, run, i), run[i]);
    }
  }

  /** With tables made for the counts of a scan, every MCU of the scan can be coded. */
  lemma {:induction false} ProgressCovered(s: Setup, log: seq<BlockUse>, h: HuffTables, t: CodeTables, g: Progress)
    requires IsSetup(s) && IsProgress(s, g) && ScanTables(s, log, h, t) && AllFit(log) && log == ProgressUses(s, g)
    ensures ProgressEncodable(s, t, g)
  {
    RunCovered(s, log, h, t, g.cur);
    forall i | 0 <= i < |g.done| ensures RunEncodable(s, t, g.done[i], |g.done[i]|) {
      RunInDone(s, g.done, i);
      RunCovered(s, log, h, t, g.done[i]);
    }
  }

  // ----- the encoder -----

  lemma {:induction false} EncodableDown(s: Setup, t: CodeTables, mcus: seq<Mcu>, n: nat)
    requires IsSetup(s) && IsCodeTables(t) && AllMcus(s, mcus) && n <= |mcus|
    ensures IsProgress(s, Cut(s, mcus)) && IsProgress(s, Cut(s, mcus[..n]))
    ensures ProgressEncodable(s, t, Cut(s, mcus)) ==> ProgressEncodable(s, t, Cut(s, mcus[..n]))
    decreases |mcus| - n
  {
    CutIsProgress(s, mcus);
    CutIsProgress(s, mcus[..n]);
    if n < |mcus| {
      EncodableDown(s, t, mcus, n + 1);
      assert mcus[..n + 1][..n] == mcus[..n];
      StepEncodable(s, t, Cut(s, mcus[..n]), mcus[n]);
    } else {
      assert mcus[..n] == mcus;
    }
  }

  predicate AreImages(s: Setup, images: seq<seq<seq<int>>>) {
    forall n :: 0 <= n < |images| ==> AreBlocks(s, images[n])
  }

  function ZigzagAll(s: Setup, images: seq<seq<seq<int>>>): (mcus: seq<Mcu>)
    requires OrderFits(s.order, s.se, BLOCK_SIZE) && AreImages(s, images)
    ensures |mcus| == |images| && forall n :: 0 <= n < |images| ==> mcus[n] == ZigzagMcu(s, images[n])
  {
    seq(|images|, n requires 0 <= n < |images| => ZigzagMcu(s, images[n]))
  }

  lemma ZigzagAreMcus(s: Setup, images: seq<seq<seq<int>>>)
    requires OrderFits(s.order, s.se, BLOCK_SIZE) && AreImages(s, images)
    ensures AllMcus(s, ZigzagAll(s, images))
  {
    forall n | 0 <= n < |images| ensures IsMcu(s, ZigzagAll(s, images)[n]) {
      ZigzagIsMcu(s, images[n]);
    }
  }

  /** The whole of the MCUs as intervals. */
  function Intervals(g: Progress): seq<seq<Mcu>> {
    g.done + [g.cur]
  }

  lemma {:induction false} CodedBy(s: Setup, t: CodeTables, g: Progress, bytes: seq<seq<byte>>, last: seq<byte>)
    requires IsSetup(s) && IsCodeTables(t) && IsProgress(s, g) && ProgressEncodable(s, t, g)
    requires HuffmanScan.Codes(s, t, g.done, bytes) && Padded(RunBits(s, t, g.cur, |g.cur|), last)
    ensures IsCoded(s, t, Coded(Intervals(g), bytes + [last], Endings(|bytes| + 1)))
  {
    var c := Coded(Intervals(g), bytes + [last], Endings(|bytes| + 1));
    forall i | 0 <= i < |c.runs| ensures RunCoded(s, t, c.runs[i], c.segments[i]) {
      if i < |g.done| {
        assert c.runs[i] == g.done[i] && c.segments[i] == bytes[i];
      }
    }
    CodedFacts(s, t, c);
  }

  /** The encoder stands behind the first n MCUs. */
  ghost predicate EncodedTo(e: Encoder, mcus: seq<Mcu>, n: nat)
    reads e, e.w
  {
    && e.Valid() && n <= |mcus| && e.progress == Cut(e.s, mcus[..n]) && IsProgress(e.s, e.progress)
    && ProgressEncodable(e.s, e.t, e.progress)
  }

  method EncodeMcuAt(e: Encoder, images: seq<seq<seq<int>>>, n: nat, ghost mcus: seq<Mcu>) returns (ok: bool)
    requires n < |images| && EncodedTo(e, mcus, n) && AreImages(e.s, images) && mcus == ZigzagAll(e.s, images) && AllMcus(e.s, mcus)
    modifies e, e.w
    ensures IsProgress(e.s, Cut(e.s, mcus))
    ensures if ok then EncodedTo(e, mcus, n + 1) else !ProgressEncodable(e.s, e.t, Cut(e.s, mcus))
  {
    EncodableDown(e.s, e.t, mcus, n + 1);
    assert mcus[..n + 1][..n] == mcus[..n];
    StepEncodable(e.s, e.t, Cut(e.s, mcus[..n]), mcus[n]);
    ok := e.EncodeMcuHuff(images[n]);
  }

  /** Encodes all MCUs; fails for a value out of range or a symbol without a code. */
  method EncodeScan(s: Setup, t: CodeTables, images: seq<seq<seq<int>>>) returns (ok: bool, out: seq<byte>, ghost c: Coded)
    requires IsSetup(s) && IsCodeTables(t) && AreImages(s, images)
    ensures AllMcus(s, ZigzagAll(s, images)) && IsProgress(s, Cut(s, ZigzagAll(s, images)))
    ensures ok <==> ProgressEncodable(s, t, Cut(s, ZigzagAll(s, images)))
    ensures ok ==> IsCoded(s, t, c) && c.runs == Intervals(Cut(s, ZigzagAll(s, images)))
    ensures |c.markers| == |c.segments| && MarkersRight(c, |c.markers|)
    ensures ok ==> forall tail: seq<byte> :: out + [0xFF, EOI_CODE] + tail == Output(c.segments, c.markers, 0, tail)
  {
    ghost var mcus := ZigzagAll(s, images);
    ZigzagAreMcus(s, images);
    CutIsProgress(s, mcus);
    var e := new Encoder(s, t);
    out, c := [], Coded([], [], []);
    var n := 0;
    NothingEncodable(s, t);
    while n < |images|
      invariant 0 <= n <= |images| && e.s == s && e.t == t && fresh(e) && fresh(e.w) && EncodedTo(e, mcus, n)
    {
      ok := EncodeMcuAt(e, images, n, mcus);
      if !ok { return; }
      n := n + 1;
    }
    assert mcus[..n] == mcus;
    out, c := Finish(e);
    ok := true;
  }

  method Finish(e: Encoder) returns (out: seq<byte>, ghost c: Coded)
    requires e.Valid() && IsProgress(e.s, e.progress) && ProgressEncodable(e.s, e.t, e.progress)
    modifies e.w
    ensures IsCoded(e.s, e.t, c) && c.runs == Intervals(e.progress)
    ensures |c.markers| == |c.segments| && MarkersRight(c, |c.markers|)
    ensures forall tail: seq<byte> :: out + [0xFF, EOI_CODE] + tail == Output(c.segments, c.markers, 0, tail)
  {
    ghost var last := e.FinishPassHuff();
    out := e.w.out;
    CodedBy(e.s, e.t, e.progress, e.bytes, last);
    c := Coded(Intervals(e.progress), e.bytes + [last], Endings(|e.bytes| + 1));
    forall tail: seq<byte> ensures out + [0xFF, EOI_CODE] + tail == Output(c.segments, c.markers, 0, tail) {
      OutputWhole(e.bytes, last, c.markers, tail);
    }
  }

  lemma NothingEncodable(s: Setup, t: CodeTables)
    requires IsSetup(s) && IsCodeTables(t)
    ensures ProgressEncodable(s, t, Progress([], []))
  {
  }

  // ----- the decoder -----

  /** Makes the decoder's tables. */
  method MakeTables(hs: seq<HuffTable>) returns (ds: seq<DecHuff>)
    requires forall i :: 0 <= i < |hs| ==> IsTable(hs[i]) && Legal(hs[i].bits)
    ensures |ds| == |hs| && forall i :: 0 <= i < |hs| ==> fresh(ds[i]) && ds[i].Decodes(hs[i])
  {
    ds := [];
    while |ds| < |hs|
      invariant |ds| <= |hs| && forall i :: 0 <= i < |ds| ==> fresh(ds[i]) && ds[i].Decodes(hs[i])
    {
      var d := new DecHuff();
      d.MakeHuff(hs[|ds|]);
      ds := ds + [d];
    }
  }

  lemma PartAhead(input: seq<byte>, part: Part)
    requires Follows(input, part)
    ensures Ahead(input, 0, part.bytes, 0, part.ending, part.rest) && IsPart(part)
  {
    assert input[0..] == input && part.bytes[0..] == part.bytes;
  }

  ghost predicate AllLegal(h: HuffTables) {
    && |h.dc| == |h.ac| == NUM_HUFF_TBLS
    && forall i :: 0 <= i < NUM_HUFF_TBLS ==> IsTable(h.dc[i]) && Legal(h.dc[i].bits) && IsTable(h.ac[i]) && Legal(h.ac[i].bits)
  }

  /** The layouts the decoder knows. */
  predicate IsLayout(s: Setup) {
    var n := |s.membership|;
    (n == 1 || n >= 3) && s.membership == Layout(n) && s.se == 63
  }

  /** The tables of the components. */
  method MakeComponentTables(s: Setup, h: HuffTables) returns (hudc: seq<DecHuff>, huac: seq<DecHuff>)
    requires IsSetup(s) && AllLegal(h)
    ensures |hudc| == |huac| == |s.comps| && fresh(hudc) && fresh(huac)
    ensures forall c :: 0 <= c < |s.comps| ==>
      && s.comps[c].dcTbl < NUM_HUFF_TBLS && s.comps[c].acTbl < NUM_HUFF_TBLS
      && hudc[c].Decodes(h.dc[s.comps[c].dcTbl]) && huac[c].Decodes(h.ac[s.comps[c].acTbl])
  {
    var dhuffDc := MakeTables(h.dc);
    var dhuffAc := MakeTables(h.ac);
    ComponentTables(s);
    hudc := seq(|s.comps|, i requires 0 <= i < |s.comps| => dhuffDc[s.comps[i].dcTbl]);
    huac := seq(|s.comps|, i requires 0 <= i < |s.comps| => dhuffAc[s.comps[i].acTbl]);
  }

  /** A decoder at the beginning of a scan. */
  method MakeDecoder(s: Setup, h: HuffTables, input: seq<byte>, ghost t: CodeTables, ghost c: Coded, ghost tail: seq<byte>)
    returns (d: Decoder)
    requires IsSetup(s) && IsCodeTables(t) && IsLayout(s) && SameTables(s, h, t) && AllLegal(h)
    requires IsCoded(s, t, c) && |c.markers| == |c.segments| && input == Output(c.segments, c.markers, 0, tail)
    ensures d.s == s && d.t == t && fresh(d) && fresh(d.input) && d.nm == s.interval + 1
    ensures Behind(d, c, tail, Progress([], []))
  {
    CodedFacts(s, t, c);
    ghost var part := SegmentStart(s, t, c, tail, Progress([], []), 0);
    PartAhead(input, part);
    var hudc, huac := MakeComponentTables(s, h);
    var r := new Reader(input, part);
    d := new Decoder(r, s, hudc, huac, h, t);
  }

  /** Decodes the segments of an encoder, whatever the markers behind them are: it succeeds exactly if these
      are the encoder's, and then all MCUs come out. */
  method DecodeImage(s: Setup, h: HuffTables, input: seq<byte>, count: nat, ghost t: CodeTables, ghost c: Coded,
                     ghost tail: seq<byte>, ghost mcus: seq<Mcu>)
    returns (ok: bool, out: seq<Mcu>)
    requires IsSetup(s) && IsCodeTables(t) && IsLayout(s) && SameTables(s, h, t) && AllLegal(h)
    requires IsCoded(s, t, c) && c.runs == Intervals(Cut(s, mcus)) && |c.markers| == |c.segments| && count == |mcus|
    requires input == Output(c.segments, c.markers, 0, tail)
    ensures ok <==> MarkersRight(c, |c.markers|)
    ensures ok ==> out == mcus
  {
    var d := MakeDecoder(s, h, input, t, c, tail);
    ok, out := DecodeScan(d, |s.membership|, count, c, tail, mcus);
  }

  lemma ComponentTables(s: Setup)
    requires IsSetup(s)
    ensures forall ci :: 0 <= ci < |s.comps| ==> s.comps[ci].dcTbl < NUM_HUFF_TBLS && s.comps[ci].acTbl < NUM_HUFF_TBLS
  {
    assert Key(0);
  }

  /** Encoding with any tables that both sides have in common, then decoding, gives every block back; it
      fails exactly when a value is out of range or a symbol has no code. */
  method EncodeAndDecode(s: Setup, h: HuffTables, t: CodeTables, images: seq<seq<seq<int>>>, tail: seq<byte>)
    returns (ok: bool, out: seq<Mcu>)
    requires IsSetup(s) && IsCodeTables(t) && IsLayout(s) && SameTables(s, h, t) && AllLegal(h) && AreImages(s, images)
    ensures IsProgress(s, Cut(s, ZigzagAll(s, images)))
    ensures ok <==> ProgressEncodable(s, t, Cut(s, ZigzagAll(s, images)))
    ensures ok ==> out == ZigzagAll(s, images)
  {
    var bytes;
    ghost var c;
    ok, bytes, c := EncodeScan(s, t, images);
    out := [];
    if ok {
      ok, out := DecodeImage(s, h, bytes + [0xFF, EOI_CODE] + tail, |images|, t, c, tail, ZigzagAll(s, images));
    }
  }

  // ----- given tables -----

  /** The tables of all components describe codes that can be used. */
  ghost predicate AllAcceptable(s: Setup, h: HuffTables, n: nat)
    requires AllLegalShape(h) && IsSetup(s)
  {
    forall ci :: 0 <= ci < n && ci < |s.comps| ==> ComponentAcceptable(s.comps[ci], h)
  }

  ghost predicate ComponentAcceptable(c: Component, h: HuffTables)
    requires AllLegalShape(h)
  {
    && c.dcTbl < NUM_HUFF_TBLS && c.acTbl < NUM_HUFF_TBLS
    && Acceptable(h.dc[c.dcTbl], true) && Acceptable(h.ac[c.acTbl], false)
  }

  predicate AllLegalShape(h: HuffTables) {
    && |h.dc| == |h.ac| == NUM_HUFF_TBLS
    && forall i :: 0 <= i < NUM_HUFF_TBLS ==> IsTable(h.dc[i]) && IsTable(h.ac[i])
  }

  method DeriveOne(h: HuffTable, isDc: bool) returns (ok: bool, c: Codes)
    requires IsTable(h)
    ensures ok <==> Acceptable(h, isDc)
    ensures ok ==> SameTable(h, c)
  {
    var co, si := new nat[TABLE_SIZE], new nat[TABLE_SIZE];
    ok := MakeDerivedTable(h, isDc, co, si);
    c := Codes(co[..], si[..]);
    if ok { DerivedAreCodes(h, isDc, c.co, c.si); }
  }

  ghost predicate DerivedUpTo(s: Setup, h: HuffTables, t: CodeTables, n: nat) {
    && |h.dc| == |h.ac| == |t.dc| == |t.ac| == NUM_HUFF_TBLS && (forall i :: 0 <= i < NUM_HUFF_TBLS ==> IsCodes(t.dc[i]) && IsCodes(t.ac[i]))
    && forall ci :: 0 <= ci < n && ci < |s.comps| ==> SameFor(s.comps[ci], h, t)
  }

  ghost predicate SameFor(c: Component, h: HuffTables, t: CodeTables)
    requires |h.dc| == |h.ac| == |t.dc| == |t.ac| == NUM_HUFF_TBLS
  {
    && c.dcTbl < NUM_HUFF_TBLS && c.acTbl < NUM_HUFF_TBLS
    && SameTable(h.dc[c.dcTbl], t.dc[c.dcTbl]) && SameTable(h.ac[c.acTbl], t.ac[c.acTbl])
  }

  /** Derives the tables of one component. */
  method DeriveFor(s: Setup, h: HuffTables, t: CodeTables, ci: nat) returns (ok: bool, t2: CodeTables)
    requires IsSetup(s) && AllLegalShape(h) && ci < |s.comps| && AllAcceptable(s, h, ci) && DerivedUpTo(s, h, t, ci)
    ensures ok <==> AllAcceptable(s, h, ci + 1)
    ensures ok ==> DerivedUpTo(s, h, t2, ci + 1)
  {
    TablesInRange(s, ci);
    t2 := t;
    var dcTbl, acTbl := s.comps[ci].dcTbl, s.comps[ci].acTbl;
    var dc, ac;
    ok, dc := DeriveOne(h.dc[dcTbl], true);
    assert !ok ==> !ComponentAcceptable(s.comps[ci], h);
    if !ok { return; }
    ok, ac := DeriveOne(h.ac[acTbl], false);
    assert ok <==> ComponentAcceptable(s.comps[ci], h);
    if !ok { return; }
    t2 := CodeTables(t.dc[dcTbl := dc], t.ac[acTbl := ac]);
    DerivedOne(s, h, t, ci, dc, ac);
  }

  lemma DerivedOne(s: Setup, h: HuffTables, t: CodeTables, ci: nat, dc: Codes, ac: Codes)
    requires ci < |s.comps| && DerivedUpTo(s, h, t, ci) && s.comps[ci].dcTbl < NUM_HUFF_TBLS && s.comps[ci].acTbl < NUM_HUFF_TBLS
    requires SameTable(h.dc[s.comps[ci].dcTbl], dc) && SameTable(h.ac[s.comps[ci].acTbl], ac)
    ensures DerivedUpTo(s, h, CodeTables(t.dc[s.comps[ci].dcTbl := dc], t.ac[s.comps[ci].acTbl := ac]), ci + 1)
  {
    var t2 := CodeTables(t.dc[s.comps[ci].dcTbl := dc], t.ac[s.comps[ci].acTbl := ac]);
    forall i | 0 <= i < ci + 1 && i < |s.comps| ensures SameFor(s.comps[i], h, t2) {
      assert i < ci ==> SameFor(s.comps[i], h, t);
    }
  }

  /** Derives the tables of all components; fails when one of them is not acceptable. */
  method StartPassHuff(s: Setup, h: HuffTables) returns (ok: bool, t: CodeTables)
    requires IsSetup(s) && AllLegalShape(h)
    ensures ok <==> AllAcceptable(s, h, |s.comps|)
    ensures ok ==> IsCodeTables(t) && SameTables(s, h, t)
  {
    NoTableLegal();
    t := CodeTables(seq(NUM_HUFF_TBLS, i => NO_CODES), seq(NUM_HUFF_TBLS, i => NO_CODES));
    var ci := 0;
    while ci < |s.comps|
      invariant 0 <= ci <= |s.comps| && AllAcceptable(s, h, ci) && DerivedUpTo(s, h, t, ci)
    {
      ok, t := DeriveFor(s, h, t, ci);
      if !ok { return; }
      ci := ci + 1;
    }
    DerivedAll(s, h, t);
    ok := true;
  }

  lemma DerivedAll(s: Setup, h: HuffTables, t: CodeTables)
    requires DerivedUpTo(s, h, t, |s.comps|)
    ensures IsCodeTables(t) && SameTables(s, h, t)
  {
    forall ci | 0 <= ci < |s.comps| ensures SameFor(s.comps[ci], h, t) {
    }
  }

  // ----- two passes -----

  /** All values of a scan are in range. */
  ghost predicate InRange(s: Setup, mcus: seq<Mcu>)
    requires AllMcus(s, mcus)
  {
    FitTo(s, mcus, |mcus|)
  }

  ghost predicate FitTo(s: Setup, mcus: seq<Mcu>, n: nat)
    requires AllMcus(s, mcus) && n <= |mcus|
    decreases n
  {
    n == 0 || (FitTo(s, mcus, n - 1) && FitsAt(s, mcus, n - 1))
  }

  lemma {:induction false} FitToFewer(s: Setup, mcus: seq<Mcu>, n: nat, m: nat)
    requires AllMcus(s, mcus) && n <= m <= |mcus| && FitTo(s, mcus, m)
    ensures FitTo(s, mcus, n)
  {
    if n < m {
      FitToFewer(s, mcus, n, m - 1);
    }
  }

  lemma FitToMore(s: Setup, mcus: seq<Mcu>, n: nat)
    requires AllMcus(s, mcus) && n < |mcus| && FitTo(s, mcus, n)
    ensures FitsAt(s, mcus, n) ==> FitTo(s, mcus, n + 1)
    ensures !FitsAt(s, mcus, n) ==> !InRange(s, mcus)
  {
    if InRange(s, mcus) {
      FitToFewer(s, mcus, n + 1, |mcus|);
    }
  }

  ghost predicate FitsAt(s: Setup, mcus: seq<Mcu>, n: nat)
    requires AllMcus(s, mcus) && n < |mcus|
  {
    IsProgress(s, Cut(s, mcus[..n])) && NextFits(s, Cut(s, mcus[..n]), mcus[n])
  }

  method MakeCounts() returns (counts: seq<array<nat>>)
    ensures Apart(counts) && fresh(counts)
    ensures forall i, k :: 0 <= i < NUM_HUFF_TBLS && 0 <= k < COUNTS ==> counts[i][k] == 0
  {
    var a, b, c, d := new nat[COUNTS](i => 0), new nat[COUNTS](i => 0), new nat[COUNTS](i => 0), new nat[COUNTS](i => 0);
    counts := [a, b, c, d];
  }

  method StartGathering(s: Setup) returns (g: Gatherer)
    requires IsSetup(s)
    ensures fresh(g) && fresh(g.dcCounts) && fresh(g.acCounts) && g.Valid() && g.s == s && g.progress == Progress([], [])
  {
    var dc := MakeCounts();
    var ac := MakeCounts();
    TalliedIs([], dc, ac);
    g := new Gatherer(s, dc, ac);
  }

  /** The first pass: counts the symbols of all MCUs; fails for a value out of range. */
  method GatherScan(s: Setup, images: seq<seq<seq<int>>>) returns (ok: bool, g: Gatherer)
    requires IsSetup(s) && AreImages(s, images)
    ensures AllMcus(s, ZigzagAll(s, images)) && fresh(g) && fresh(g.dcCounts) && fresh(g.acCounts)
    ensures ok <==> InRange(s, ZigzagAll(s, images))
    ensures ok ==> g.Valid() && g.s == s && g.progress == Cut(s, ZigzagAll(s, images))
  {
    ghost var mcus := ZigzagAll(s, images);
    ZigzagAreMcus(s, images);
    g := StartGathering(s);
    var n := 0;
    while n < |images|
      invariant 0 <= n <= |images| && GatheredTo(g, mcus, n) && g.s == s && FitTo(s, mcus, n)
      invariant fresh(g) && fresh(g.dcCounts) && fresh(g.acCounts)
    {
      ok := GatherMcuAt(g, images[n], mcus, n);
      FitToMore(s, mcus, n);
      if !ok { return; }
      n := n + 1;
    }
    assert mcus[..n] == mcus;
    ok := true;
  }

  ghost predicate GatheredTo(g: Gatherer, mcus: seq<Mcu>, n: nat)
    reads g, g.dcCounts, g.acCounts
  {
    g.Valid() && n <= |mcus| && g.progress == Cut(g.s, mcus[..n])
  }

  method GatherMcuAt(g: Gatherer, blocks: seq<seq<int>>, ghost mcus: seq<Mcu>, ghost n: nat) returns (ok: bool)
    requires GatheredTo(g, mcus, n) && AreBlocks(g.s, blocks) && AllMcus(g.s, mcus) && n < |mcus|
    requires mcus[n] == ZigzagMcu(g.s, blocks)
    modifies g, g.dcCounts, g.acCounts
    ensures ok <==> FitsAt(g.s, mcus, n)
    ensures ok ==> GatheredTo(g, mcus, n + 1)
  {
    assert mcus[..n + 1][..n] == mcus[..n];
    CutIsProgress(g.s, mcus[..n]);
    ok := g.EncodeMcuGather(blocks);
  }

  /** Every component has a block in each MCU. */
  predicate AllPresent(s: Setup) {
    forall ci :: 0 <= ci < |s.comps| ==> ci in s.membership
  }

  lemma {:induction false} LastIsUsed(s: Setup, mcus: seq<Mcu>, log: seq<BlockUse>)
    requires IsSetup(s) && AllMcus(s, mcus) && mcus != [] && AllPresent(s) && s.se >= 1
    requires IsProgress(s, Cut(s, mcus)) && log == ProgressUses(s, Cut(s, mcus))
    ensures AllUsed(s, log)
  {
    var cur := Cut(s, mcus).cur;
    var i := |cur| - 1;
    McuInRun(s, cur, i, |cur|);
    forall ci | 0 <= ci < |s.comps| ensures IsUsed(log, s.comps[ci]) {
      var u := ComponentUsed(s, RunPreds(s, cur, i), cur[i], ci, log);
      assert u in log && UsesTables(u, s.comps[ci]);
    }
  }

  lemma ComponentUsed(s: Setup, preds: seq<int>, mcu: Mcu, ci: nat, log: seq<BlockUse>) returns (u: BlockUse)
    requires IsSetup(s) && IsMcu(s, mcu) && |preds| == |s.comps| && ci < |s.comps| && ci in s.membership && s.se >= 1
    requires Within(McuUses(s, preds, mcu, |s.membership|), log)
    ensures u in log && UsesTables(u, s.comps[ci])
  {
    var b :| 0 <= b < |s.membership| && s.membership[b] == ci;
    UseInMcu(s, preds, mcu, b, |s.membership|);
    UseIs(s, preds, mcu, b);
    u := UseAt(s, preds, mcu, b);
    assert u in McuUses(s, preds, mcu, |s.membership|);
    assert u.dcTbl == s.comps[ci].dcTbl && u.acTbl == s.comps[ci].acTbl;
    assert u.vals == mcu[b];
  }

  /** What became of an image. */
  datatype Outcome = BadCoefficient | CodeTooLong | Decoded(mcus: seq<Mcu>)

  ghost function ImageUses(s: Setup, mcus: seq<Mcu>): seq<BlockUse>
    requires AllMcus(s, mcus)
  {
    CutIsProgress(s, mcus);
    ProgressUses(s, Cut(s, mcus))
  }

  /** Both passes, then decoding: the image comes back, unless a coefficient is out of range or a code size
      exceeds 32 bits. No symbol is ever without a code. */
  method TwoPass(s: Setup, images: seq<seq<seq<int>>>, tail: seq<byte>) returns (r: Outcome)
    requires IsSetup(s) && IsLayout(s) && AllPresent(s) && AreImages(s, images) && images != []
    requires AllMcus(s, ZigzagAll(s, images)) && WithinCutoff(ImageUses(s, ZigzagAll(s, images)))
    ensures r.BadCoefficient? <==> !InRange(s, ZigzagAll(s, images))
    ensures r.CodeTooLong? <==> InRange(s, ZigzagAll(s, images)) && SomeOverflow(s, ImageUses(s, ZigzagAll(s, images)))
    ensures r.Decoded? ==> r.mcus == ZigzagAll(s, images)
  {
    ghost var mcus := ZigzagAll(s, images);
    var ok, g := GatherScan(s, images);
    if !ok { return BadCoefficient; }
    GatheredIs(s, g.progress, g.log, g.lastDc);
    LastIsUsed(s, mcus, g.log);
    var h, t;
    ghost var log := g.log;
    ok, h, t := FinishPassGather(s, g.dcCounts, g.acCounts, g.log);
    if !ok { return CodeTooLong; }
    TablesSame(s, log, h, t);
    ProgressCovered(s, log, h, t, Cut(s, mcus));
    var out;
    ok, out := EncodeAndDecode(s, h, t, images, tail);
    assert ok;
    r := Decoded(out);
  }

  lemma TablesSame(s: Setup, log: seq<BlockUse>, h: HuffTables, t: CodeTables)
    requires ScanTables(s, log, h, t)
    ensures IsCodeTables(t) && SameTables(s, h, t) && AllLegal(h)
  {
    forall ci | 0 <= ci < |s.comps| ensures SameFor(s.comps[ci], h, t) {
      assert TablesFor(s.comps[ci], log, h, t);
    }
  }

  /** An image of moderate size whose coefficients are in range always comes back. */
  method TwoPassModerate(s: Setup, images: seq<seq<seq<int>>>, tail: seq<byte>) returns (r: Outcome)
    requires IsSetup(s) && IsLayout(s) && AllPresent(s) && AreImages(s, images) && images != []
    requires |images| * |s.membership| <= FEW_BLOCKS
    ensures AllMcus(s, ZigzagAll(s, images))
    ensures r == if InRange(s, ZigzagAll(s, images)) then Decoded(ZigzagAll(s, images)) else BadCoefficient
  {
    ZigzagAreMcus(s, images);
    SmallImage(s, ZigzagAll(s, images));
    r := TwoPass(s, images, tail);
  }
}
