/** Decoding the MCUs of a baseline scan by table, with restarts. */
module McuDecoder {
  import opened Powers
  import opened BitStrings
  import opened CanonicalCode
  import opened DerivedTable
  import opened BlockCode
  import opened CodeReading
  import opened LookupTable
  import opened FastDecoder
  import opened BitReader
  import opened BlockReading
  import opened BitWriter
  import opened HuffmanScan
  import opened HuffmanEncoder

  // ----- blocks -----

  /** Reading what is left of a block: one symbol, and what is left after it. */
  lemma ReadNext(t: HuffTable, w: Bits, pos: nat, i: nat, left: BlockRead) returns (next: BlockRead)
    requires IsTable(t) && Total(t.bits) <= TABLE_SIZE && left == AcRead(t, w, pos, i) && i > 0 && left.BlockRead?
    ensures var reading := ReadSymbol(t, w, pos);
      && reading.Reading?
      && if reading.value == 0 && reading.run == 0 then left == BlockRead(Zeros(i), pos + reading.len, i)
         else reading.run < i && next.BlockRead? && left == AfterRun(reading.run, reading.value, next)
              && |next.vals| == i - reading.run - 1 && next == AcRead(t, w, pos + reading.len, i - reading.run - 1)
  {
    var reading := ReadSymbol(t, w, pos);
    next := Bad;
    if reading.Reading? && (reading.value != 0 || reading.run != 0) && reading.run < i {
      next := AcRead(t, w, pos + reading.len, i - reading.run - 1);
    }
  }

  /** The part of a block that is in its place, with zeros behind it. */
  predicate InPlace(dct: seq<int>, from: nat, n: nat, vals: seq<int>) {
    && |vals| <= n && from + n <= |dct| && dct[from..from + |vals|] == vals
    && forall k :: from + |vals| <= k < from + n ==> dct[k] == 0
  }

  lemma PlaceMore(before: seq<int>, after: seq<int>, from: nat, n: nat, vals: seq<int>, run: nat, value: int)
    requires InPlace(before, from, n, vals) && |vals| + run < n && after == before[from + |vals| + run := value]
    ensures InPlace(after, from, n, vals + Zeros(run) + [value])
  {
  }

  lemma PlaceRest(dct: seq<int>, from: nat, n: nat, vals: seq<int>, i: nat)
    requires InPlace(dct, from, n, vals) && |vals| + i == n
    ensures InPlace(dct, from, n, vals + Zeros(i))
  {
  }

  /** Decodes one symbol of what is left of a block. */
  method DecodeNext(input: Reader, hu: DecHuff, i: nat, ghost t: HuffTable, ghost left: BlockRead)
    returns (r: nat, v: int, ghost next: BlockRead)
    requires input.Valid() && hu.Decodes(t) && Bytes(t) && i > 0
    requires left == AcRead(t, input.part.data, input.pos, i) && left.BlockRead?
    modifies input
    ensures input.Valid() && input.part == old(input.part)
    ensures v == 0 && r == 0 ==> left == BlockRead(Zeros(i), input.pos, i)
    ensures v != 0 || r != 0 ==> r < i && next.BlockRead? && left == AfterRun(r, v, next) && |next.vals| == i - r - 1
    ensures v != 0 || r != 0 ==> next == AcRead(t, input.part.data, input.pos, i - r - 1)
  {
    next := ReadNext(t, input.part.data, input.pos, i, left);
    ghost var reading := ReadSymbol(t, input.part.data, input.pos);
    r, v := DecRec(input, hu, t, reading);
  }

  /** A block while it is decoded: what is in its place, and what is left of the bits. */
  ghost predicate Halfway(dct: seq<int>, from: nat, done: seq<int>, left: BlockRead, block: BlockRead, i: nat) {
    forall k {:trigger Key(k)} :: Key(k) ==>
      && left.BlockRead? && |left.vals| == i && |done| + i == 63 && InPlace(dct, from, 63, done)
      && block == BlockRead(done + left.vals, left.end, left.rest)
  }

  lemma HalfwayMore(before: seq<int>, after: seq<int>, from: nat, done: seq<int>, left: BlockRead, block: BlockRead, i: nat,
                    run: nat, value: int, next: BlockRead, at: nat)
    requires Halfway(before, from, done, left, block, i) && left == AfterRun(run, value, next) && run < i <= 63
    requires next.BlockRead? && |next.vals| == i - run - 1
    requires at == from + 63 - i + run < |before| && after == before[at := value]
    ensures Halfway(after, from, done + Zeros(run) + [value], next, block, i - run - 1)
  {
    assert Key(0);
    PlaceMore(before, after, from, 63, done, run, value);
    Reassociate(done, Zeros(run) + [value], next.vals);
    Reassociate(done, Zeros(run), [value]);
  }

  lemma HalfwayEnd(dct: seq<int>, from: nat, done: seq<int>, left: BlockRead, block: BlockRead, i: nat, pos: nat)
    requires Halfway(dct, from, done, left, block, i) && left == BlockRead(Zeros(i), pos, i)
    ensures block.BlockRead? && from + 63 <= |dct| && dct[from..from + 63] == block.vals && block.end == pos && block.rest == i
  {
    assert Key(0);
    PlaceRest(dct, from, 63, done, i);
  }

  /** Decodes the coefficients of a block after its first; returns how many zeros ended it. */
  method DecodeAc(input: Reader, hu: DecHuff, dct: array<int>, from: nat, ghost t: HuffTable, ghost block: BlockRead)
    returns (i: nat)
    requires input.Valid() && hu.Decodes(t) && Bytes(t) && from + 63 <= dct.Length && InPlace(dct[..], from, 63, [])
    requires block == AcRead(t, input.part.data, input.pos, 63) && block.BlockRead?
    modifies input, dct
    ensures input.Valid() && input.part == old(input.part) && input.pos == block.end && i == block.rest
    ensures dct[from..from + 63] == block.vals
    ensures forall k :: 0 <= k < dct.Length && !(from <= k < from + 63) ==> dct[k] == old(dct[k])
  {
    ghost var done: seq<int>, left := [], block;
    i := 63;
    var at := from;
    while i > 0
      invariant 0 <= i <= 63 && input.Valid() && input.part == old(input.part) && at == from + 63 - i
      invariant left == AcRead(t, input.part.data, input.pos, i) && left.BlockRead?
      invariant Halfway(dct[..], from, done, left, block, i)
      invariant forall k :: 0 <= k < dct.Length && !(from <= k < from + 63) ==> dct[k] == old(dct[k])
    {
      ghost var next, before := left, dct[..];
      var r, v;
      r, v, next := DecodeNext(input, hu, i, t, left);
      if v == 0 && r == 0 {
        break;
      }
      at := at + r;
      dct[at] := v;
      HalfwayMore(before, dct[..], from, done, left, block, i, r, v, next, at);
      at := at + 1;
      done, left := done + Zeros(r) + [v], next;
      i := i - (r + 1);
    }
    HalfwayEnd(dct[..], from, done, left, block, i, input.pos);
  }

  /** Decodes a block: the DC difference, then the other coefficients. */
  method DecodeBlock(input: Reader, hudc: DecHuff, huac: DecHuff, dct: array<int>, from: nat, dc: int,
                     ghost dcTable: HuffTable, ghost acTable: HuffTable, ghost c: Coding)
    returns (sum: int, last: int)
    requires input.Valid() && hudc.Decodes(dcTable) && Bytes(dcTable) && huac.Decodes(acTable) && Bytes(acTable)
    requires from + 64 <= dct.Length && InPlace(dct[..], from, 64, [])
    requires DerivedCodes(dcTable, c.dc) && DerivedCodes(acTable, c.ac) && |c.vals| == 64 && CodingEncodable(c) && c.pred == dc
    requires BeginsAt(input.part.data, input.pos, CodingBits(c))
    modifies input, dct
    ensures input.Valid() && input.part == old(input.part) && input.pos == old(input.pos) + |CodingBits(c)|
    ensures sum == c.vals[0] && last == LastUsed(c.vals)
    ensures dct[from..from + 64] == c.vals
    ensures forall k :: 0 <= k < dct.Length && !(from <= k < from + 64) ==> dct[k] == old(dct[k])
  {
    ghost var block := CodingBack(dcTable, acTable, c, input.part.data, input.pos);
    ghost var reading := ReadSymbol(dcTable, input.part.data, input.pos);
    var r, diff := DecRec(input, hudc, dcTable, reading);
    sum := dc + diff;
    dct[from] := sum;
    var i := DecodeAc(input, huac, dct, from + 1, acTable, block);
    last := 64 - i as int;
    assert dct[from..from + 64] == [dct[from]] + dct[from + 1..from + 64];
    assert c.vals == [c.vals[0]] + c.vals[1..];
  }

  lemma CodingBack(dcTable: HuffTable, acTable: HuffTable, c: Coding, w: Bits, pos: nat) returns (block: BlockRead)
    requires DerivedCodes(dcTable, c.dc) && DerivedCodes(acTable, c.ac) && |c.vals| == 64 && CodingEncodable(c)
    requires BeginsAt(w, pos, CodingBits(c))
    ensures var reading := ReadSymbol(dcTable, w, pos);
      && reading.Reading? && reading.value == c.vals[0] - c.pred && block == AcRead(acTable, w, pos + reading.len, 63)
    ensures block == BlockRead(c.vals[1..], pos + |CodingBits(c)|, TrailingZeros(c.vals, 1, 0))
  {
    CodingIs(c);
    var n := BlockBack(dcTable, acTable, c.dc, c.ac, c.vals, c.pred, w, pos);
    block := BlockRead(c.vals[1..], pos + |CodingBits(c)|, TrailingZeros(c.vals, 1, 0));
  }

  // ----- MCUs -----

  /** How many coefficients of a block are not in its trailing zeros. */
  function LastUsed(vals: seq<int>): int {
    if vals == [] then 64 else 64 - TrailingZeros(vals, 1, 0)
  }

  /** The value max is right for a block: the block is zero from there on, and not before. */
  predicate IsMaximum(vals: seq<int>, max: int) {
    && 1 <= max <= |vals| && (forall k :: max <= k < |vals| ==> vals[k] == 0)
    && (max > 1 ==> vals[max - 1] != 0)
  }

  lemma {:induction false} TrailingAre(vals: seq<int>, k: nat, r: nat)
    requires r < k <= |vals| && (forall j :: k - r <= j < k ==> vals[j] == 0)
    requires r < k - 1 ==> vals[k - 1 - r] != 0
    ensures TrailingZeros(vals, k, r) < |vals| && IsMaximum(vals, |vals| - TrailingZeros(vals, k, r))
    decreases |vals| - k
  {
    if k < |vals| {
      TrailingAre(vals, k + 1, if vals[k] == 0 then r + 1 else 0);
    }
  }

  lemma {:induction false} MaximaRight(mcu: Mcu)
    requires forall b :: 0 <= b < |mcu| ==> |mcu[b]| == 64
    ensures forall b :: 0 <= b < |mcu| ==> IsMaximum(mcu[b], Maxima(mcu, |mcu|)[b])
  {
    forall b | 0 <= b < |mcu| ensures IsMaximum(mcu[b], Maxima(mcu, |mcu|)[b]) {
      TrailingAre(mcu[b], 1, 0);
    }
  }

  function Maxima(mcu: Mcu, b: nat): (max: seq<int>)
    requires b <= |mcu|
    ensures |max| == b
  {
    seq(b, i requires 0 <= i < b => LastUsed(mcu[i]))
  }

  lemma MaximaMore(mcu: Mcu, b: nat)
    requires b < |mcu|
    ensures Maxima(mcu, b + 1) == Maxima(mcu, b) + [LastUsed(mcu[b])]
  {
  }

  /** The components of the blocks of an MCU: all luminance blocks, then one of each other component. */
  function Layout(n: nat): (membership: seq<nat>)
    ensures |membership| == n
  {
    seq(n, b requires 0 <= b < n => BlockComponent(n, b))
  }

  function BlockComponent(n: nat, b: nat): nat
    requires b < n
  {
    if n == 1 || n - 1 - b >= 2 then 0 else 2 - (n - 1 - b)
  }

  lemma LayoutComponents(n: nat)
    ensures forall b :: 0 <= b < n ==> Layout(n)[b] == if n == 1 || n - b >= 3 then 0 else 3 - (n - b)
  {
  }

  datatype HuffTables = HuffTables(dc: seq<HuffTable>, ac: seq<HuffTable>)

  /** The tables of the components on both sides are the same. */
  ghost predicate SameTables(s: Setup, h: HuffTables, t: CodeTables) {
    && IsCodeTables(t) && |h.dc| == |h.ac| == NUM_HUFF_TBLS
    && forall k {:trigger Key(k)} :: Key(k) ==> forall c :: 0 <= c < |s.comps| ==>
      && s.comps[c].dcTbl < NUM_HUFF_TBLS && s.comps[c].acTbl < NUM_HUFF_TBLS
      && SameTable(h.dc[s.comps[c].dcTbl], t.dc[s.comps[c].dcTbl]) && SameTable(h.ac[s.comps[c].acTbl], t.ac[s.comps[c].acTbl])
  }

  ghost predicate SameTable(h: HuffTable, t: Codes) {
    DerivedCodes(h, t) && Bytes(h)
  }

  ghost predicate TablesDecode(s: Setup, hudc: seq<DecHuff>, huac: seq<DecHuff>, h: HuffTables)
    reads hudc, huac
  {
    && |hudc| == |huac| == |s.comps| && |h.dc| == |h.ac| == NUM_HUFF_TBLS
    && forall c :: 0 <= c < |s.comps| ==>
      && s.comps[c].dcTbl < NUM_HUFF_TBLS && s.comps[c].acTbl < NUM_HUFF_TBLS
      && hudc[c].Decodes(h.dc[s.comps[c].dcTbl]) && huac[c].Decodes(h.ac[s.comps[c].acTbl])
  }

  ghost predicate IsTablesReady(s: Setup, hudc: seq<DecHuff>, huac: seq<DecHuff>, h: HuffTables, r: bool)
    reads hudc, huac
  {
    forall k {:trigger Key(k)} :: Key(k) ==> r == TablesDecode(s, hudc, huac, h)
  }

  /** The tables of all components decode their codes. */
  ghost function TablesReady(s: Setup, hudc: seq<DecHuff>, huac: seq<DecHuff>, h: HuffTables): (r: bool)
    reads hudc, huac
    ensures IsTablesReady(s, hudc, huac, h, r)
  {
    assert IsTablesReady(s, hudc, huac, h, TablesDecode(s, hudc, huac, h));
    var r: bool :| IsTablesReady(s, hudc, huac, h, r);
    r
  }

  /** The decoder of a scan. */
  class Decoder {
    const input: Reader
    const s: Setup
    const hudc: seq<DecHuff>     // by component
    const huac: seq<DecHuff>
    ghost const h: HuffTables
    ghost const t: CodeTables
    var dc: seq<int>
    var nm: nat                  // MCUs until the next marker
    var rm: int                  // the next restart marker

    constructor (input: Reader, s: Setup, hudc: seq<DecHuff>, huac: seq<DecHuff>, ghost h: HuffTables, ghost t: CodeTables)
      requires input.Valid() && IsSetup(s) && s.se == 63 && SameTables(s, h, t) && |hudc| == |huac| == |s.comps|
      requires s.membership == Layout(|s.membership|)
      requires forall c :: 0 <= c < |s.comps| ==>
        && s.comps[c].dcTbl < NUM_HUFF_TBLS && s.comps[c].acTbl < NUM_HUFF_TBLS
        && hudc[c].Decodes(h.dc[s.comps[c].dcTbl]) && huac[c].Decodes(h.ac[s.comps[c].acTbl])
      ensures Ready() && this.input == input && this.s == s && this.h == h && this.t == t
      ensures this.hudc == hudc && this.huac == huac
      ensures dc == seq(|s.comps|, c => 0) && nm == s.interval + 1 && rm == RST0
    {
      this.input, this.s, this.hudc, this.huac, this.h, this.t := input, s, hudc, huac, h, t;
      dc, nm, rm := seq(|s.comps|, c => 0), s.interval + 1, RST0;
      new;
      assert TablesDecode(s, hudc, huac, h) && Key(0);
    }

    ghost predicate Ready()
      reads this, input, hudc, huac
    {
      && input.Valid() && IsSetup(s) && s.se == 63 && SameTables(s, h, t) && |dc| == |hudc| == |huac| == |s.comps|
      && s.membership == Layout(|s.membership|) && TablesReady(s, hudc, huac, h)
    }

    lemma TablesOf(ci: nat)
      requires TablesReady(s, hudc, huac, h) && SameTables(s, h, t) && ci < |s.comps| == |hudc| == |huac|
      ensures s.comps[ci].dcTbl < NUM_HUFF_TBLS && s.comps[ci].acTbl < NUM_HUFF_TBLS
      ensures hudc[ci].Decodes(h.dc[s.comps[ci].dcTbl]) && huac[ci].Decodes(h.ac[s.comps[ci].acTbl])
      ensures DerivedCodes(h.dc[s.comps[ci].dcTbl], t.dc[s.comps[ci].dcTbl]) && Bytes(h.dc[s.comps[ci].dcTbl])
      ensures DerivedCodes(h.ac[s.comps[ci].acTbl], t.ac[s.comps[ci].acTbl]) && Bytes(h.ac[s.comps[ci].acTbl])
    {
      assert Key(0);
    }

    /** Decodes the next block of an MCU, of component ci. */
    method DecodeBlockOf(dct: array<int>, from: nat, ci: nat, ghost c: Coding) returns (last: int)
      requires Ready() && ci < |s.comps| && from + 64 <= dct.Length && InPlace(dct[..], from, 64, [])
      requires s.comps[ci].dcTbl < NUM_HUFF_TBLS && s.comps[ci].acTbl < NUM_HUFF_TBLS
      requires c.dc == t.dc[s.comps[ci].dcTbl] && c.ac == t.ac[s.comps[ci].acTbl] && |c.vals| == 64 && c.pred == dc[ci]
      requires IsCodes(c.dc) && IsCodes(c.ac) && CodingEncodable(c) && BeginsAt(input.part.data, input.pos, CodingBits(c))
      modifies input, dct, this`dc
      ensures Ready() && input.part == old(input.part) && input.pos == old(input.pos) + |CodingBits(c)|
      ensures dc == old(dc)[ci := c.vals[0]] && last == LastUsed(c.vals)
      ensures dct[from..from + 64] == c.vals
      ensures forall k :: 0 <= k < dct.Length && !(from <= k < from + 64) ==> dct[k] == old(dct[k])
    {
      TablesOf(ci);
      var sum;
      sum, last := DecodeBlock(input, hudc[ci], huac[ci], dct, from, dc[ci], h.dc[s.comps[ci].dcTbl], h.ac[s.comps[ci].acTbl], c);
      dc := dc[ci := sum];
    }

    /** The MCU whose bits come next. */
    ghost predicate Next(mcu: Mcu, preds: seq<int>, b: nat, pos0: nat)
      requires IsSetup(s) && IsCodeTables(t) && IsMcu(s, mcu) && |preds| == |s.comps| && b <= |s.membership|
      reads this, input
    {
      && dc == McuPreds(s, preds, mcu, b) && input.pos == pos0 + |McuBits(s, t, preds, mcu, b)|
      && McuEncodable(s, t, preds, mcu, |s.membership|)
      && BeginsAt(input.part.data, pos0, McuBits(s, t, preds, mcu, |s.membership|))
    }

    /** Decodes the b-th block of an MCU. */
    method DecodeBlockAt(dct: array<int>, b: nat, ci: nat, ghost mcu: Mcu, ghost preds: seq<int>, ghost pos0: nat)
      returns (last: int)
      requires Ready() && b < |s.membership| && ci == s.membership[b] && IsMcu(s, mcu) && |preds| == |s.comps|
      requires Next(mcu, preds, b, pos0) && 64 * b + 64 <= dct.Length && InPlace(dct[..], 64 * b, 64, [])
      modifies input, dct, this`dc
      ensures Ready() && input.part == old(input.part) && Next(mcu, preds, b + 1, pos0)
      ensures dct[64 * b..64 * b + 64] == mcu[b] && last == LastUsed(mcu[b])
      ensures forall k :: 0 <= k < dct.Length && !(64 * b <= k < 64 * b + 64) ==> dct[k] == old(dct[k])
    {
      ghost var c := CodingAt(s, t, preds, mcu, b);
      BlockFacts(s, t, mcu, b);
      McuPart(s, t, preds, mcu, b, |s.membership|, input.part.data, pos0);
      McuEncodableIs(s, t, preds, mcu, |s.membership|);
      BlocksNext(s, t, preds, mcu, b, c);
      last := DecodeBlockOf(dct, 64 * b, ci, c);
    }

    /** Decodes the b-th of n blocks, behind those that are in their places. */
    method DecodeOneMore(dct: array<int>, n: nat, b: nat, ci: nat, ghost mcu: Mcu, ghost preds: seq<int>, ghost pos0: nat)
      returns (last: int)
      requires Partway(this, mcu, preds, b, pos0) && b < n == |s.membership| && ci == s.membership[b] && n == |mcu|
      requires 64 * n <= dct.Length && BlocksIn(dct[..], mcu, b, n)
      modifies input, dct, this`dc
      ensures Partway(this, mcu, preds, b + 1, pos0) && input.part == old(input.part)
      ensures BlocksIn(dct[..], mcu, b + 1, n) && last == LastUsed(mcu[b])
    {
      ghost var before := dct[..];
      PartwayIs(this, mcu, preds, b, pos0);
      NextPlace(before, mcu, b, n);
      last := DecodeBlockAt(dct, b, ci, mcu, preds, pos0);
      OneMoreIn(before, dct[..], mcu, b, n);
      PartwayIs(this, mcu, preds, b + 1, pos0);
    }

    /** Decodes the n blocks of an MCU, passing from one component to the next as the blocks left say;
        max tells how many coefficients of each block may not be zero. */
    method DecodeMcus(dct: array<int>, n: nat, ghost mcu: Mcu, ghost preds: seq<int>) returns (max: seq<int>)
      requires Ready() && n == |s.membership| && IsMcu(s, mcu) && |preds| == |s.comps|
      requires n == 1 || n >= 3
      requires Next(mcu, preds, 0, input.pos) && 64 * n <= dct.Length
      modifies input, dct, this`dc
      ensures Ready() && input.part == old(input.part) && Next(mcu, preds, n, old(input.pos))
      ensures BlocksIn(dct[..], mcu, n, n) && |max| == n == |mcu|
      ensures forall b :: 0 <= b < n ==> |mcu[b]| == 64 && IsMaximum(mcu[b], max[b])
    {
      ghost var pos0, b := input.pos, 0;
      ClearBlocks(dct, n, mcu);
      PartwayIs(this, mcu, preds, b, pos0);
      LayoutComponents(n);
      var sc, left := 0, n;
      max := [];
      while left > 0
        invariant 0 <= left <= n && b + left == n && sc == (if n == 1 || left >= 3 then 0 else 3 - left)
        invariant Partway(this, mcu, preds, b, pos0) && input.part == old(input.part)
        invariant BlocksIn(dct[..], mcu, b, n) && max == Maxima(mcu, b)
      {
        left := left - 1;
        var last := DecodeOneMore(dct, n, n - 1 - left, sc, mcu, preds, pos0);
        MaximaMore(mcu, b);
        max := max + [last];
        b := b + 1;
        if left == 2 - sc { sc := sc + 1; }
      }
      PartwayIs(this, mcu, preds, n, pos0);
      McuSizes(s, mcu);
      MaximaRight(mcu);
    }

    method ClearBlocks(dct: array<int>, n: nat, ghost mcu: Mcu)
      requires 64 * n <= dct.Length && n == |mcu|
      modifies dct
      ensures BlocksIn(dct[..], mcu, 0, n)
    {
      for i := 0 to 64 * n
        invariant forall k :: 0 <= k < i ==> dct[k] == 0
      {
        dct[i] := 0;
      }
      assert Key(0);
    }
  }

  lemma McuSizes(s: Setup, mcu: Mcu)
    requires IsMcu(s, mcu) && s.se == 63
    ensures |mcu| == |s.membership| && forall b :: 0 <= b < |mcu| ==> |mcu[b]| == 64
  {
    assert Key(0);
  }

  ghost predicate IsPartway(d: Decoder, mcu: Mcu, preds: seq<int>, b: nat, pos0: nat)
    reads d, d.input, d.hudc, d.huac
  {
    && d.Ready() && IsMcu(d.s, mcu) && |preds| == |d.s.comps| && b <= |d.s.membership| && d.Next(mcu, preds, b, pos0)
  }

  ghost predicate PartwayRight(d: Decoder, mcu: Mcu, preds: seq<int>, b: nat, pos0: nat, r: bool)
    reads d, d.input, d.hudc, d.huac
  {
    forall k {:trigger Key(k)} :: Key(k) ==> r == IsPartway(d, mcu, preds, b, pos0)
  }

  /** The decoder has reached the b-th block of an MCU. */
  ghost function Partway(d: Decoder, mcu: Mcu, preds: seq<int>, b: nat, pos0: nat): (r: bool)
    reads d, d.input, d.hudc, d.huac
    ensures PartwayRight(d, mcu, preds, b, pos0, r)
  {
    assert PartwayRight(d, mcu, preds, b, pos0, IsPartway(d, mcu, preds, b, pos0));
    var r: bool :| PartwayRight(d, mcu, preds, b, pos0, r);
    r
  }

  lemma PartwayIs(d: Decoder, mcu: Mcu, preds: seq<int>, b: nat, pos0: nat)
    ensures Partway(d, mcu, preds, b, pos0) <==> IsPartway(d, mcu, preds, b, pos0)
  {
    assert Key(0);
  }

  ghost predicate AreIn(dct: seq<int>, mcu: Mcu, b: nat, n: nat) {
    && b <= n == |mcu| && 64 * n <= |dct|
    && (forall i :: 0 <= i < b ==> dct[64 * i..64 * i + 64] == mcu[i])
    && (forall k :: 64 * b <= k < 64 * n ==> dct[k] == 0)
  }

  ghost predicate IsBlocksIn(dct: seq<int>, mcu: Mcu, b: nat, n: nat, r: bool) {
    forall k {:trigger Key(k)} :: Key(k) ==> r == AreIn(dct, mcu, b, n)
  }

  /** The first b of n blocks are in their places, with zeros in the others. */
  ghost function BlocksIn(dct: seq<int>, mcu: Mcu, b: nat, n: nat): (r: bool)
    ensures IsBlocksIn(dct, mcu, b, n, r)
  {
    assert IsBlocksIn(dct, mcu, b, n, AreIn(dct, mcu, b, n));
    var r: bool :| IsBlocksIn(dct, mcu, b, n, r);
    r
  }

  lemma NextPlace(dct: seq<int>, mcu: Mcu, b: nat, n: nat)
    requires BlocksIn(dct, mcu, b, n) && b < n
    ensures InPlace(dct, 64 * b, 64, [])
  {
    assert Key(0);
  }

  lemma OneMoreIn(before: seq<int>, after: seq<int>, mcu: Mcu, b: nat, n: nat)
    requires BlocksIn(before, mcu, b, n) && b < n == |mcu| && 64 * n <= |after| == |before| && after[64 * b..64 * b + 64] == mcu[b]
    requires forall k :: 0 <= k < |after| && !(64 * b <= k < 64 * b + 64) ==> after[k] == before[k]
    ensures BlocksIn(after, mcu, b + 1, n)
  {
    assert Key(0);
    assert AreIn(before, mcu, b, n);
    forall i | 0 <= i < b ensures after[64 * i..64 * i + 64] == mcu[i] {
      assert after[64 * i..64 * i + 64] == before[64 * i..64 * i + 64];
    }
  }

  lemma BlocksAllIn(dct: seq<int>, mcu: Mcu, n: nat)
    requires BlocksIn(dct, mcu, n, n)
    ensures n == |mcu| && 64 * n <= |dct| && forall i :: 0 <= i < n ==> dct[64 * i..64 * i + 64] == mcu[i]
  {
    assert Key(0);
  }
}
