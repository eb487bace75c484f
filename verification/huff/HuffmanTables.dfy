/** Tables from the statistics of a scan: every symbol the scan uses has a code. */
module HuffmanTables {
  import opened Powers
  import opened KraftSum
  import opened MergeOrder
  import opened HuffmanTree
  import opened LengthLimit
  import opened CanonicalCode
  import opened DerivedTable
  import opened OptimalTable
  import opened BlockCode
  import opened BlockEncoder
  import opened CodeReading
  import opened HuffmanScan
  import opened HuffmanGather
  import opened McuDecoder

  /** A table on both sides, with a code for every symbol counted. */
  ghost predicate Covers(counts: seq<nat>, h: HuffTable, c: Codes) {
    && IsTable(h) && Legal(h.bits) && SameTable(h, c)
    && forall k {:trigger Key(k)} :: Key(k) ==> forall s :: 0 <= s < TABLE_SIZE && s < |counts| && counts[s] > 0 ==> c.si[s] > 0
  }

  lemma SymbolsCovered(w: seq<nat>, lens: seq<nat>, h: HuffTable, c: Codes)
    requires OptimalTableFor(w, lens, h) && Derived(h, c.co, c.si) && |c.si| == TABLE_SIZE
    ensures forall s :: 0 <= s < TABLE_SIZE && w[s] > 0 ==> c.si[s] > 0
  {
    forall s | 0 <= s < TABLE_SIZE && w[s] > 0 ensures c.si[s] > 0 {
      assert s in h.huffval[..Total(h.bits)];
      var p :| 0 <= p < Total(h.bits) && h.huffval[p] == s;
      assert EntryAt(h, c.co, c.si, p);
      CodeBounds(h.bits, p);
    }
  }

  lemma CoversIs(counts: seq<nat>, lens: seq<nat>, h: HuffTable, c: Codes, isDc: bool)
    requires |counts| == SYMBOLS && OptimalTableFor(WithPseudo(counts), lens, h)
    requires Acceptable(h, isDc) && Derived(h, c.co, c.si)
    ensures Covers(counts, h, c)
  {
    SymbolsCovered(WithPseudo(counts), lens, h, c);
    DerivedAreCodes(h, isDc, c.co, c.si);
    forall s | 0 <= s < TABLE_SIZE && counts[s] > 0 ensures c.si[s] > 0 {
      assert counts[s] == counts[..TABLE_SIZE][s] == WithPseudo(counts)[..TABLE_SIZE][s];
    }
  }

  /** The table for the counts, in the form it is written and in the form encoding needs. */
  method MakeCodes(counts: array<nat>, isDc: bool) returns (ok: bool, h: HuffTable, c: Codes)
    requires counts.Length == SYMBOLS && exists s :: 0 <= s < TABLE_SIZE && counts[s] > 0
    requires Nodes(WithPseudo(counts[..])) < UINT8 && Sum(WithPseudo(counts[..])) <= CUTOFF
    requires forall s :: 0 <= s < TABLE_SIZE && counts[s] > 0 ==> s <= MaxSymbol(isDc)
    modifies counts
    ensures ok <==> !SizeOverflow(WithPseudo(old(counts[..])))
    ensures ok ==> Covers(old(counts[..]), h, c)
  {
    ghost var before := counts[..];
    var huffval, co, si := new nat[TABLE_SIZE], new nat[TABLE_SIZE], new nat[TABLE_SIZE];
    ghost var lens := CodeSizes(WithPseudo(before));
    var bits;
    ok, bits := GenOptimalTable(counts, huffval);
    h, c := HuffTable(bits, huffval[..]), Codes([], []);
    if ok {
      OptimalAcceptable(WithPseudo(before), lens, h, isDc);
      InKind(before, isDc);
      ok := MakeDerivedTable(h, isDc, co, si);
      c := Codes(co[..], si[..]);
      CoversIs(before, lens, h, c, isDc);
    }
  }

  lemma InKind(counts: seq<nat>, isDc: bool)
    requires |counts| == SYMBOLS && forall s :: 0 <= s < TABLE_SIZE && counts[s] > 0 ==> s <= MaxSymbol(isDc)
    ensures forall s :: 0 <= s < TABLE_SIZE && WithPseudo(counts)[s] > 0 ==> s <= MaxSymbol(isDc)
  {
  }

  // ----- what is counted -----

  lemma {:induction false} UsesPositive(list: seq<Sym>, sym: Sym)
    requires sym in list
    ensures Uses(list, sym.rs) > 0
  {
    if list[|list| - 1] != sym {
      UsesPositive(list[..|list| - 1], sym);
    }
  }

  lemma {:induction false} UsesNone(list: seq<Sym>, s: nat)
    requires forall sym :: sym in list ==> sym.rs != s
    ensures Uses(list, s) == 0
  {
    if list != [] {
      assert list[|list| - 1] in list;
      UsesNone(list[..|list| - 1], s);
    }
  }

  lemma {:induction false} TallyAtLeast(log: seq<BlockUse>, u: BlockUse, s: nat)
    requires u in log && u.vals != []
    ensures DcTally(log, u.dcTbl, s) >= Uses([DcSymbol(u.vals, u.pred)], s)
    ensures AcTally(log, u.acTbl, s) >= Uses(AcSymbols(u.vals, 1, 0), s)
  {
    if log[|log| - 1] != u {
      TallyAtLeast(log[..|log| - 1], u, s);
    }
  }

  /** Symbols of values in range have at most ten value bits. */
  lemma {:induction false} AcSmall(vals: seq<int>, k: nat, r: nat)
    requires k <= |vals| && FitsFrom(vals, k)
    ensures forall sym :: sym in AcSymbols(vals, k, r) ==> sym.rs < TABLE_SIZE && sym.rs % 16 <= MAX_COEF_BITS
    decreases |vals| - k
  {
    if k < |vals| {
      AcSmall(vals, k + 1, if vals[k] == 0 then r + 1 else 0);
      if vals[k] != 0 {
        SmallCategory(16 * (r % 16), SizeCategory(vals[k]));
      }
    }
  }

  lemma SmallCategory(h: nat, v: nat)
    requires h % 16 == 0 && h <= 240 && v <= MAX_COEF_BITS
    ensures h + v < TABLE_SIZE && (h + v) % 16 <= MAX_COEF_BITS
  {
  }

  lemma AllFitsPrefix(log: seq<BlockUse>)
    requires log != [] && AllFit(log)
    ensures AllFit(log[..|log| - 1])
    ensures UseFits(log[|log| - 1])
  {
    assert log[|log| - 1] in log;
  }

  /** Symbols that no value in range needs are not counted. */
  lemma {:induction false} NeverCounted(log: seq<BlockUse>, tbl: nat, s: nat)
    requires AllFit(log)
    ensures s > 11 ==> DcTally(log, tbl, s) == 0
    ensures s % 16 > 10 || s >= TABLE_SIZE ==> AcTally(log, tbl, s) == 0
  {
    if log != [] {
      AllFitsPrefix(log);
      NeverCounted(log[..|log| - 1], tbl, s);
      var u := log[|log| - 1];
      if u.vals != [] {
        if s > 11 { UsesNone([DcSymbol(u.vals, u.pred)], s); }
        AcSmall(u.vals, 1, 0);
        if s % 16 > 10 || s >= TABLE_SIZE { UsesNone(AcSymbols(u.vals, 1, 0), s); }
      }
    }
  }

  lemma {:induction false} SumAtMostLength(s: seq<int>)
    requires forall i :: 0 <= i < |s| ==> s[i] <= 1
    ensures Sum(s) <= |s|
  {
    if s != [] {
      SumAtMostLength(s[..|s| - 1]);
    }
  }

  /** With two symbols unused, the counts of codes fit in bytes. */
  lemma NodesFew(w: seq<nat>)
    requires |w| == SYMBOLS && w[12] == 0 && w[13] == 0
    ensures Nodes(w) < UINT8
  {
    var p := Presence(w);
    SumUpdate(p, 12, 1);
    SumUpdate(p[12 := 1], 13, 1);
    SumAtMostLength(p[12 := 1][13 := 1]);
  }

  /** The counts of one table. */
  function TableCounts(log: seq<BlockUse>, isDc: bool, tbl: nat): (c: seq<nat>)
    ensures |c| == COUNTS
    ensures forall s :: 0 <= s < COUNTS ==> c[s] == if isDc then DcTally(log, tbl, s) else AcTally(log, tbl, s)
  {
    seq(COUNTS, s requires 0 <= s => if isDc then DcTally(log, tbl, s) else AcTally(log, tbl, s))
  }

  /** A table that some block uses can be built, unless a code size overflows. */
  lemma Buildable(log: seq<BlockUse>, isDc: bool, tbl: nat, u: BlockUse)
    requires AllFit(log) && u in log && |u.vals| >= 2 && tbl == if isDc then u.dcTbl else u.acTbl
    ensures var c := TableCounts(log, isDc, tbl);
      && (exists s :: 0 <= s < TABLE_SIZE && c[s] > 0) && Nodes(WithPseudo(c)) < UINT8
      && forall s :: 0 <= s < TABLE_SIZE && c[s] > 0 ==> s <= MaxSymbol(isDc)
  {
    var c := TableCounts(log, isDc, tbl);
    var sym := SomeSymbol(u, isDc);
    TallyAtLeast(log, u, sym.rs);
    assert c[sym.rs] > 0;
    NeverCounted(log, tbl, 12);
    NeverCounted(log, tbl, 13);
    NodesFew(WithPseudo(c));
    if isDc {
      forall s | 0 <= s < TABLE_SIZE && c[s] > 0 ensures s <= MaxSymbol(isDc) {
        NeverCounted(log, tbl, s);
      }
    }
  }

  /** A block has a DC symbol and at least one AC symbol. */
  lemma SomeSymbol(u: BlockUse, isDc: bool) returns (sym: Sym)
    requires UseFits(u) && |u.vals| >= 2
    ensures sym.rs < TABLE_SIZE
    ensures Uses(if isDc then [DcSymbol(u.vals, u.pred)] else AcSymbols(u.vals, 1, 0), sym.rs) > 0
  {
    if isDc {
      sym := DcSymbol(u.vals, u.pred);
      UsesPositive([sym], sym);
    } else {
      AcNotEmpty(u.vals, 1, 0);
      AcSmall(u.vals, 1, 0);
      sym := AcSymbols(u.vals, 1, 0)[0];
      UsesPositive(AcSymbols(u.vals, 1, 0), sym);
    }
  }

  lemma {:induction false} AcNotEmpty(vals: seq<int>, k: nat, r: nat)
    requires k <= |vals| && (k < |vals| || r > 0)
    ensures AcSymbols(vals, k, r) != []
    decreases |vals| - k
  {
    if k < |vals| && vals[k] == 0 {
      AcNotEmpty(vals, k + 1, r + 1);
    }
  }

  // ----- the tables of a scan -----

  const NO_TABLE := HuffTable(seq(LENGTHS, i => 0), seq(TABLE_SIZE, i => 0))
  const NO_CODES := Codes(seq(TABLE_SIZE, i => 0), seq(TABLE_SIZE, i => 0))

  predicate Apart(counts: seq<array<nat>>) {
    && |counts| == NUM_HUFF_TBLS && (forall i :: 0 <= i < NUM_HUFF_TBLS ==> counts[i].Length == COUNTS)
    && forall i, j :: 0 <= i < j < NUM_HUFF_TBLS ==> counts[i] != counts[j]
  }

  /** Tables of one kind: those that were built cover their counts, the counts of the others are still there. */
  ghost predicate SideIs(log: seq<BlockUse>, isDc: bool, counts: seq<array<nat>>, did: seq<bool>, hs: seq<HuffTable>, cs: seq<Codes>)
    reads counts
  {
    && Apart(counts) && |did| == |hs| == |cs| == NUM_HUFF_TBLS
    && forall i :: 0 <= i < NUM_HUFF_TBLS ==>
      && IsTable(hs[i]) && Legal(hs[i].bits) && IsCodes(cs[i])
      && if did[i] then
           Covers(TableCounts(log, isDc, i), hs[i], cs[i]) && !SizeOverflow(WithPseudo(TableCounts(log, isDc, i)))
         else counts[i][..] == TableCounts(log, isDc, i)
  }

  ghost predicate SideRight(log: seq<BlockUse>, isDc: bool, counts: seq<array<nat>>, did: seq<bool>, hs: seq<HuffTable>, cs: seq<Codes>, r: bool)
    reads counts
  {
    forall k {:trigger Key(k)} :: Key(k) ==> r == SideIs(log, isDc, counts, did, hs, cs)
  }

  ghost function Side(log: seq<BlockUse>, isDc: bool, counts: seq<array<nat>>, did: seq<bool>, hs: seq<HuffTable>, cs: seq<Codes>): (r: bool)
    reads counts
    ensures SideRight(log, isDc, counts, did, hs, cs, r)
  {
    assert SideRight(log, isDc, counts, did, hs, cs, SideIs(log, isDc, counts, did, hs, cs));
    var r: bool :| SideRight(log, isDc, counts, did, hs, cs, r);
    r
  }

  lemma SideFacts(log: seq<BlockUse>, isDc: bool, counts: seq<array<nat>>, did: seq<bool>, hs: seq<HuffTable>, cs: seq<Codes>)
    ensures Side(log, isDc, counts, did, hs, cs) <==> SideIs(log, isDc, counts, did, hs, cs)
  {
    assert Key(0);
  }

  lemma NoTableLegal()
    ensures IsTable(NO_TABLE) && Legal(NO_TABLE.bits) && IsCodes(NO_CODES)
  {
    var bits := NO_TABLE.bits;
    NoCodes(bits, |bits| - 1);
    forall l | 1 <= l < |bits| ensures End(bits, l) <= Pow2(l) {
      NoCodes(bits, l);
    }
  }

  lemma {:induction false} NoCodes(bits: seq<nat>, l: nat)
    requires l < |bits| && forall k :: 0 <= k < |bits| ==> bits[k] == 0
    ensures End(bits, l) == 0 && Before(bits, l + 1) == 0
  {
    if l > 0 {
      NoCodes(bits, l - 1);
    }
  }

  /** Some table of the scan gets a code of more than 32 bits before lengths are limited. */
  predicate SomeOverflow(s: Setup, log: seq<BlockUse>) {
    exists ci :: 0 <= ci < |s.comps| && Overflows(s.comps[ci], log)
  }

  predicate Overflows(c: Component, log: seq<BlockUse>) {
    SizeOverflow(WithPseudo(TableCounts(log, true, c.dcTbl))) || SizeOverflow(WithPseudo(TableCounts(log, false, c.acTbl)))
  }

  ghost predicate WithinCutoff(log: seq<BlockUse>) {
    forall isDc, tbl: nat :: tbl < NUM_HUFF_TBLS ==> Sum(WithPseudo(TableCounts(log, isDc, tbl))) <= CUTOFF
  }

  /** Builds a table unless that was done before: building it takes the counts apart. */
  method BuildOnce(counts: seq<array<nat>>, did: seq<bool>, hs: seq<HuffTable>, cs: seq<Codes>, isDc: bool, tbl: nat,
                   ghost log: seq<BlockUse>, ghost u: BlockUse)
    returns (ok: bool, did2: seq<bool>, hs2: seq<HuffTable>, cs2: seq<Codes>)
    requires Side(log, isDc, counts, did, hs, cs) && tbl < NUM_HUFF_TBLS == |counts| == |did| == |hs| == |cs|
    requires AllFit(log) && WithinCutoff(log)
    requires u in log && |u.vals| >= 2 && tbl == if isDc then u.dcTbl else u.acTbl
    modifies counts[tbl]
    ensures ok <==> !SizeOverflow(WithPseudo(TableCounts(log, isDc, tbl)))
    ensures ok ==> Side(log, isDc, counts, did2, hs2, cs2) && did2 == did[tbl := true] && |hs2| == |cs2| == NUM_HUFF_TBLS
  {
    SideFacts(log, isDc, counts, did, hs, cs);
    did2, hs2, cs2 := did, hs, cs;
    ok := true;
    if did[tbl] { return; }
    ghost var before := TableCounts(log, isDc, tbl);
    Buildable(log, isDc, tbl, u);
    assert counts[tbl][..] == before;
    forall s | 0 <= s < TABLE_SIZE ensures counts[tbl][s] == before[s] {
      assert counts[tbl][..][s] == counts[tbl][s];
    }
    var h, c;
    ok, h, c := MakeCodes(counts[tbl], isDc);
    if ok {
      did2, hs2, cs2 := did[tbl := true], hs[tbl := h], cs[tbl := c];
      SideFacts(log, isDc, counts, did2, hs2, cs2);
    }
  }

  /** Some block of the scan uses the tables of each component. */
  ghost predicate AllUsed(s: Setup, log: seq<BlockUse>) {
    forall ci :: 0 <= ci < |s.comps| ==> IsUsed(log, s.comps[ci])
  }

  ghost predicate IsUsed(log: seq<BlockUse>, c: Component) {
    exists u :: u in log && UsesTables(u, c)
  }

  predicate UsesTables(u: BlockUse, c: Component) {
    u.dcTbl == c.dcTbl && u.acTbl == c.acTbl && |u.vals| >= 2
  }

  ghost predicate BuiltUpTo(s: Setup, didDc: seq<bool>, didAc: seq<bool>, n: nat) {
    && |didDc| == |didAc| == NUM_HUFF_TBLS
    && forall ci :: 0 <= ci < n && ci < |s.comps| ==>
      && s.comps[ci].dcTbl < NUM_HUFF_TBLS && s.comps[ci].acTbl < NUM_HUFF_TBLS
      && didDc[s.comps[ci].dcTbl] && didAc[s.comps[ci].acTbl]
  }

  /** Tables on both sides for all components, with codes for all symbols of the scan. */
  ghost predicate ScanTables(s: Setup, log: seq<BlockUse>, h: HuffTables, t: CodeTables) {
    && |h.dc| == |h.ac| == NUM_HUFF_TBLS && IsCodeTables(t)
    && (forall i :: 0 <= i < NUM_HUFF_TBLS ==> IsTable(h.dc[i]) && Legal(h.dc[i].bits) && IsTable(h.ac[i]) && Legal(h.ac[i].bits))
    && forall ci :: 0 <= ci < |s.comps| ==> TablesFor(s.comps[ci], log, h, t)
  }

  ghost predicate TablesFor(c: Component, log: seq<BlockUse>, h: HuffTables, t: CodeTables)
    requires |h.dc| == |h.ac| == |t.dc| == |t.ac| == NUM_HUFF_TBLS
  {
    && c.dcTbl < NUM_HUFF_TBLS && c.acTbl < NUM_HUFF_TBLS
    && Covers(TableCounts(log, true, c.dcTbl), h.dc[c.dcTbl], t.dc[c.dcTbl])
    && Covers(TableCounts(log, false, c.acTbl), h.ac[c.acTbl], t.ac[c.acTbl])
  }

  lemma SidesMatch(s: Setup, log: seq<BlockUse>, dc: seq<array<nat>>, ac: seq<array<nat>>, didDc: seq<bool>, didAc: seq<bool>,
                   h: HuffTables, t: CodeTables)
    requires Side(log, true, dc, didDc, h.dc, t.dc) && Side(log, false, ac, didAc, h.ac, t.ac)
    requires BuiltUpTo(s, didDc, didAc, |s.comps|)
    ensures ScanTables(s, log, h, t)
  {
    SideFacts(log, true, dc, didDc, h.dc, t.dc);
    SideFacts(log, false, ac, didAc, h.ac, t.ac);
    assert IsCodeTables(t);
    forall ci | 0 <= ci < |s.comps| ensures TablesFor(s.comps[ci], log, h, t) {
    }
  }

  lemma SidesStart(log: seq<BlockUse>, dc: seq<array<nat>>, ac: seq<array<nat>>)
    requires Separate(dc, ac) && Tallied(log, dc, ac)
    ensures var no, hs, cs := seq(NUM_HUFF_TBLS, i => false), seq(NUM_HUFF_TBLS, i => NO_TABLE), seq(NUM_HUFF_TBLS, i => NO_CODES);
      Side(log, true, dc, no, hs, cs) && Side(log, false, ac, no, hs, cs)
  {
    TalliedIs(log, dc, ac);
    NoTableLegal();
    var no, hs, cs := seq(NUM_HUFF_TBLS, i => false), seq(NUM_HUFF_TBLS, i => NO_TABLE), seq(NUM_HUFF_TBLS, i => NO_CODES);
    forall i | 0 <= i < NUM_HUFF_TBLS
      ensures dc[i][..] == TableCounts(log, true, i) && ac[i][..] == TableCounts(log, false, i)
    {
    }
    SideFacts(log, true, dc, no, hs, cs);
    SideFacts(log, false, ac, no, hs, cs);
  }

  /** Builds every table of the scan once. */
  method FinishPassGather(s: Setup, dc: seq<array<nat>>, ac: seq<array<nat>>, ghost log: seq<BlockUse>)
    returns (ok: bool, h: HuffTables, t: CodeTables)
    requires IsSetup(s) && Separate(dc, ac) && Tallied(log, dc, ac) && AllUsed(s, log)
    requires AllFit(log) && WithinCutoff(log)
    modifies dc, ac
    ensures ok <==> !SomeOverflow(s, log)
    ensures ok ==> ScanTables(s, log, h, t)
  {
    var didDc, didAc := seq(NUM_HUFF_TBLS, i => false), seq(NUM_HUFF_TBLS, i => false);
    h := HuffTables(seq(NUM_HUFF_TBLS, i => NO_TABLE), seq(NUM_HUFF_TBLS, i => NO_TABLE));
    t := CodeTables(seq(NUM_HUFF_TBLS, i => NO_CODES), seq(NUM_HUFF_TBLS, i => NO_CODES));
    SidesStart(log, dc, ac);
    var ci := 0;
    while ci < |s.comps|
      invariant 0 <= ci <= |s.comps| && BuiltUpTo(s, didDc, didAc, ci)
      invariant forall i :: 0 <= i < ci ==> !Overflows(s.comps[i], log)
      invariant |h.dc| == |h.ac| == |t.dc| == |t.ac| == NUM_HUFF_TBLS
      invariant Side(log, true, dc, didDc, h.dc, t.dc) && Side(log, false, ac, didAc, h.ac, t.ac)
    {
      ok, didDc, didAc, h, t := BuildFor(s, ci, dc, ac, didDc, didAc, h, t, log);
      if !ok { return; }
      ci := ci + 1;
    }
    SidesMatch(s, log, dc, ac, didDc, didAc, h, t);
    ok := true;
  }

  /** Builds the tables of one component. */
  method BuildFor(s: Setup, ci: nat, dc: seq<array<nat>>, ac: seq<array<nat>>, didDc: seq<bool>, didAc: seq<bool>,
                  h: HuffTables, t: CodeTables, ghost log: seq<BlockUse>)
    returns (ok: bool, didDc2: seq<bool>, didAc2: seq<bool>, h2: HuffTables, t2: CodeTables)
    requires IsSetup(s) && Separate(dc, ac) && AllUsed(s, log) && ci < |s.comps| && BuiltUpTo(s, didDc, didAc, ci)
    requires AllFit(log) && WithinCutoff(log)
    requires |h.dc| == |h.ac| == |t.dc| == |t.ac| == NUM_HUFF_TBLS
    requires Side(log, true, dc, didDc, h.dc, t.dc) && Side(log, false, ac, didAc, h.ac, t.ac)
    modifies dc, ac
    ensures ok <==> !Overflows(s.comps[ci], log)
    ensures ok ==> BuiltUpTo(s, didDc2, didAc2, ci + 1) && |h2.dc| == |h2.ac| == |t2.dc| == |t2.ac| == NUM_HUFF_TBLS
    ensures ok ==> Side(log, true, dc, didDc2, h2.dc, t2.dc) && Side(log, false, ac, didAc2, h2.ac, t2.ac)
  {
    TablesInRange(s, ci);
    ghost var u := SomeUse(s, log, ci);
    var hdc, hac, cdc, cac;
    didDc2, didAc2, h2, t2 := didDc, didAc, h, t;
    ok, didDc2, hdc, cdc := BuildOnce(dc, didDc, h.dc, t.dc, true, s.comps[ci].dcTbl, log, u);
    if !ok { return; }
    ok, didAc2, hac, cac := BuildOnce(ac, didAc, h.ac, t.ac, false, s.comps[ci].acTbl, log, u);
    if !ok { return; }
    h2, t2 := HuffTables(hdc, hac), CodeTables(cdc, cac);
    BuiltOneMore(s, didDc, didAc, ci);
  }

  lemma SomeUse(s: Setup, log: seq<BlockUse>, ci: nat) returns (u: BlockUse)
    requires AllUsed(s, log) && ci < |s.comps|
    ensures u in log && UsesTables(u, s.comps[ci])
  {
    assert IsUsed(log, s.comps[ci]);
    u :| u in log && UsesTables(u, s.comps[ci]);
  }

  lemma BuiltOneMore(s: Setup, didDc: seq<bool>, didAc: seq<bool>, ci: nat)
    requires BuiltUpTo(s, didDc, didAc, ci) && ci < |s.comps|
    requires s.comps[ci].dcTbl < NUM_HUFF_TBLS && s.comps[ci].acTbl < NUM_HUFF_TBLS
    ensures BuiltUpTo(s, didDc[s.comps[ci].dcTbl := true], didAc[s.comps[ci].acTbl := true], ci + 1)
  {
  }

  lemma TablesInRange(s: Setup, ci: nat)
    requires IsSetup(s) && ci < |s.comps|
    ensures s.comps[ci].dcTbl < NUM_HUFF_TBLS && s.comps[ci].acTbl < NUM_HUFF_TBLS
  {
    assert Key(0);
  }
}
