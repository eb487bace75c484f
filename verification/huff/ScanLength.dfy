/** How long a scan becomes: what the counts of the gathering pass say of the output pass. */
module ScanLength {
  import opened Powers
  import opened CanonicalCode
  import opened BlockCode
  import opened BlockEncoder
  import opened HuffmanScan
  import opened HuffmanGather
  import opened HuffmanEncoder
  import opened HuffmanTables
  import opened ScanMeaning

  /** Counts times sizes, for the first n symbols. */
  function CostTo(counts: seq<nat>, si: seq<nat>, n: nat): nat
    requires n <= |counts| && n <= |si|
  {
    if n == 0 then 0 else CostTo(counts, si, n - 1) + counts[n - 1] * si[n - 1]
  }

  lemma {:induction false} CostAdds(a: seq<nat>, b: seq<nat>, c: seq<nat>, si: seq<nat>, n: nat)
    requires n <= |a| && n <= |b| && n <= |c| && n <= |si| && forall s :: 0 <= s < n ==> c[s] == a[s] + b[s]
    ensures CostTo(c, si, n) == CostTo(a, si, n) + CostTo(b, si, n)
  {
    if n > 0 {
      CostAdds(a, b, c, si, n - 1);
      Distributes(a[n - 1], b[n - 1], si[n - 1]);
    }
  }

  lemma Distributes(x: nat, y: nat, k: nat)
    ensures (x + y) * k == x * k + y * k
  {
  }

  lemma {:induction false} CostOfNone(a: seq<nat>, si: seq<nat>, n: nat)
    requires n <= |a| && n <= |si| && forall s :: 0 <= s < n ==> a[s] == 0
    ensures CostTo(a, si, n) == 0
  {
    if n > 0 { CostOfNone(a, si, n - 1); }
  }

  lemma {:induction false} CostOfOne(a: seq<nat>, si: seq<nat>, n: nat, rs: nat)
    requires n <= |a| && n <= |si| && forall s :: 0 <= s < n ==> a[s] == if s == rs then 1 else 0
    ensures CostTo(a, si, n) == if rs < n then si[rs] else 0
  {
    if n > 0 {
      CostOfOne(a, si, n - 1, rs);
    }
  }

  // ----- lists of symbols -----

  function CodeSum(si: seq<nat>, list: seq<Sym>): nat {
    if list == [] then 0
    else CodeSum(si, list[..|list| - 1]) + if list[|list| - 1].rs < |si| then si[list[|list| - 1].rs] else 0
  }

  /** The bits of the values themselves, which no table changes. */
  function ValueSum(list: seq<Sym>): nat {
    if list == [] then 0 else ValueSum(list[..|list| - 1]) + list[|list| - 1].rs % 16
  }

  predicate AllSymbols(list: seq<Sym>) {
    forall i :: 0 <= i < |list| ==> list[i].rs < TABLE_SIZE
  }

  lemma {:induction false} ListLength(t: Codes, list: seq<Sym>)
    requires IsCodes(t) && AllSymbols(list)
    ensures |ListBits(t, list)| == CodeSum(t.si, list) + ValueSum(list)
  {
    if list != [] {
      var init, x := list[..|list| - 1], list[|list| - 1];
      ListLength(t, init);
      assert list == init + [x];
      ListBitsConcat(t, init, [x]);
      SymBitsAre(t, x);
      assert [x][1..] == [];
    }
  }

  function UsesOf(list: seq<Sym>): (counts: seq<nat>)
    ensures |counts| == TABLE_SIZE && forall s :: 0 <= s < TABLE_SIZE ==> counts[s] == Uses(list, s)
  {
    seq(TABLE_SIZE, s requires 0 <= s => Uses(list, s))
  }

  lemma {:induction false} UsesCost(si: seq<nat>, list: seq<Sym>)
    requires |si| == TABLE_SIZE && AllSymbols(list)
    ensures CostTo(UsesOf(list), si, TABLE_SIZE) == CodeSum(si, list)
  {
    if list == [] {
      CostOfNone(UsesOf(list), si, TABLE_SIZE);
    } else {
      var init, x := list[..|list| - 1], list[|list| - 1];
      UsesCost(si, init);
      assert [x][..0] == [];
      forall s | 0 <= s < TABLE_SIZE ensures Uses([x], s) == if x.rs == s then 1 else 0 {}
      CostAdds(UsesOf(init), UsesOf([x]), UsesOf(list), si, TABLE_SIZE);
      CostOfOne(UsesOf([x]), si, TABLE_SIZE, x.rs);
    }
  }

  // ----- all blocks of a scan -----

  /** The bits of the codes and of the values of one block. */
  function UseCodes(t: CodeTables, u: BlockUse): nat {
    if u.vals == [] || u.dcTbl >= |t.dc| || u.acTbl >= |t.ac| then 0
    else CodeSum(t.dc[u.dcTbl].si, [DcSymbol(u.vals, u.pred)]) + CodeSum(t.ac[u.acTbl].si, AcSymbols(u.vals, 1, 0))
  }

  function UseValues(u: BlockUse): nat {
    if u.vals == [] then 0 else ValueSum([DcSymbol(u.vals, u.pred)]) + ValueSum(AcSymbols(u.vals, 1, 0))
  }

  function LogCodes(t: CodeTables, log: seq<BlockUse>): nat {
    if log == [] then 0 else LogCodes(t, log[..|log| - 1]) + UseCodes(t, log[|log| - 1])
  }

  function LogValues(log: seq<BlockUse>): nat {
    if log == [] then 0 else LogValues(log[..|log| - 1]) + UseValues(log[|log| - 1])
  }

  /** A block of a scan with values in range. */
  predicate GoodUse(u: BlockUse) {
    u.vals != [] && u.dcTbl < NUM_HUFF_TBLS && u.acTbl < NUM_HUFF_TBLS && Fits(u.vals, u.pred)
  }

  lemma {:induction false} SymbolsInTable(u: BlockUse)
    requires GoodUse(u)
    ensures AllSymbols([DcSymbol(u.vals, u.pred)]) && AllSymbols(AcSymbols(u.vals, 1, 0))
  {
    SymbolsRight(u.vals, 1, 0);
    var list := AcSymbols(u.vals, 1, 0);
    forall i | 0 <= i < |list| ensures list[i].rs < TABLE_SIZE {
      assert RightSymbol(list[i]);
    }
  }

  lemma {:induction false} UseLength(t: CodeTables, u: BlockUse)
    requires IsCodeTables(t) && GoodUse(u) && IsCodes(t.dc[u.dcTbl]) && IsCodes(t.ac[u.acTbl])
    ensures |BlockBits(t.dc[u.dcTbl], t.ac[u.acTbl], u.vals, u.pred)| == UseCodes(t, u) + UseValues(u)
  {
    var dc := DcSymbol(u.vals, u.pred);
    SymbolsInTable(u);
    ListLength(t.dc[u.dcTbl], [dc]);
    ListLength(t.ac[u.acTbl], AcSymbols(u.vals, 1, 0));
    assert ListBits(t.dc[u.dcTbl], [dc]) == SymBits(t.dc[u.dcTbl], dc) by { assert [dc][1..] == []; }
  }

  /** What a table of counts costs in some code. */
  function TableCost(log: seq<BlockUse>, isDc: bool, tbl: nat, c: Codes): nat
    requires |c.si| == TABLE_SIZE
  {
    CostTo(TableCounts(log, isDc, tbl), c.si, TABLE_SIZE)
  }

  lemma {:induction false} DcCostMore(log: seq<BlockUse>, u: BlockUse, tbl: nat, c: Codes)
    requires |c.si| == TABLE_SIZE && GoodUse(u)
    ensures TableCost(log + [u], true, tbl, c) ==
      TableCost(log, true, tbl, c) + if u.dcTbl == tbl then CodeSum(c.si, [DcSymbol(u.vals, u.pred)]) else 0
  {
    var list := if u.dcTbl == tbl then [DcSymbol(u.vals, u.pred)] else [];
    SymbolsInTable(u);
    forall s | 0 <= s < TABLE_SIZE ensures TableCounts(log + [u], true, tbl)[s] == TableCounts(log, true, tbl)[s] + UsesOf(list)[s] {
      TallyOne(log, u, tbl, s);
    }
    CostAdds(TableCounts(log, true, tbl), UsesOf(list), TableCounts(log + [u], true, tbl), c.si, TABLE_SIZE);
    UsesCost(c.si, list);
  }

  lemma {:induction false} AcCostMore(log: seq<BlockUse>, u: BlockUse, tbl: nat, c: Codes)
    requires |c.si| == TABLE_SIZE && GoodUse(u)
    ensures TableCost(log + [u], false, tbl, c) ==
      TableCost(log, false, tbl, c) + if u.acTbl == tbl then CodeSum(c.si, AcSymbols(u.vals, 1, 0)) else 0
  {
    var list := if u.acTbl == tbl then AcSymbols(u.vals, 1, 0) else [];
    SymbolsInTable(u);
    forall s | 0 <= s < TABLE_SIZE ensures TableCounts(log + [u], false, tbl)[s] == TableCounts(log, false, tbl)[s] + UsesOf(list)[s] {
      TallyOne(log, u, tbl, s);
    }
    CostAdds(TableCounts(log, false, tbl), UsesOf(list), TableCounts(log + [u], false, tbl), c.si, TABLE_SIZE);
    UsesCost(c.si, list);
  }

  predicate AllGood(log: seq<BlockUse>) {
    forall i :: 0 <= i < |log| ==> GoodUse(log[i])
  }

  predicate Sized(t: CodeTables) {
    && |t.dc| == |t.ac| == NUM_HUFF_TBLS
    && forall i :: 0 <= i < NUM_HUFF_TBLS ==> |t.dc[i].si| == TABLE_SIZE && |t.ac[i].si| == TABLE_SIZE
  }

  /** What the counts of all four tables of a kind cost. */
  function SideCost(log: seq<BlockUse>, isDc: bool, cs: seq<Codes>): nat
    requires |cs| == NUM_HUFF_TBLS && forall i :: 0 <= i < NUM_HUFF_TBLS ==> |cs[i].si| == TABLE_SIZE
  {
    TableCost(log, isDc, 0, cs[0]) + TableCost(log, isDc, 1, cs[1]) + TableCost(log, isDc, 2, cs[2]) + TableCost(log, isDc, 3, cs[3])
  }

  /** The codes of all blocks take as many bits as the counts of the tables say. */
  lemma {:induction false} CostIs(t: CodeTables, log: seq<BlockUse>)
    requires Sized(t) && AllGood(log)
    ensures LogCodes(t, log) == SideCost(log, true, t.dc) + SideCost(log, false, t.ac)
  {
    if log == [] {
      NothingCosts(t);
    } else {
      var init, u := log[..|log| - 1], log[|log| - 1];
      assert log == init + [u];
      CostIs(t, init);
      SideMore(t, init, u);
    }
  }

  lemma {:induction false} NothingCosts(t: CodeTables)
    requires Sized(t)
    ensures SideCost([], true, t.dc) == SideCost([], false, t.ac) == 0
  {
    forall i | 0 <= i < NUM_HUFF_TBLS ensures TableCost([], true, i, t.dc[i]) == TableCost([], false, i, t.ac[i]) == 0 {
      CostOfNone(TableCounts([], true, i), t.dc[i].si, TABLE_SIZE);
      CostOfNone(TableCounts([], false, i), t.ac[i].si, TABLE_SIZE);
    }
  }

  lemma {:induction false} SideMore(t: CodeTables, log: seq<BlockUse>, u: BlockUse)
    requires Sized(t) && GoodUse(u)
    ensures SideCost(log + [u], true, t.dc) + SideCost(log + [u], false, t.ac)
         == SideCost(log, true, t.dc) + SideCost(log, false, t.ac) + UseCodes(t, u)
  {
    forall i | 0 <= i < NUM_HUFF_TBLS
      ensures TableCost(log + [u], true, i, t.dc[i]) ==
        TableCost(log, true, i, t.dc[i]) + if u.dcTbl == i then CodeSum(t.dc[i].si, [DcSymbol(u.vals, u.pred)]) else 0
      ensures TableCost(log + [u], false, i, t.ac[i]) ==
        TableCost(log, false, i, t.ac[i]) + if u.acTbl == i then CodeSum(t.ac[i].si, AcSymbols(u.vals, 1, 0)) else 0
    {
      DcCostMore(log, u, i, t.dc[i]);
      AcCostMore(log, u, i, t.ac[i]);
    }
  }

  // ----- the bits of the scan -----

  lemma {:induction false} LogConcat(t: CodeTables, x: seq<BlockUse>, y: seq<BlockUse>)
    ensures LogCodes(t, x + y) == LogCodes(t, x) + LogCodes(t, y) && LogValues(x + y) == LogValues(x) + LogValues(y)
    decreases |y|
  {
    if y == [] {
      assert x + y == x;
    } else {
      assert (x + y)[..|x + y| - 1] == x + y[..|y| - 1];
      LogConcat(t, x, y[..|y| - 1]);
    }
  }

  lemma FitParts(x: seq<BlockUse>, y: seq<BlockUse>)
    requires AllFit(x + y)
    ensures AllFit(x) && AllFit(y)
  {
    forall u | u in x ensures UseFits(u) { assert u in x + y; }
    forall u | u in y ensures UseFits(u) { assert u in x + y; }
  }

  /** Bits are right for a log of blocks. */
  predicate LengthIs(t: CodeTables, log: seq<BlockUse>, n: nat) {
    AllGood(log) && n == LogCodes(t, log) + LogValues(log)
  }

  lemma {:induction false} LengthsAdd(t: CodeTables, x: seq<BlockUse>, m: nat, y: seq<BlockUse>, n: nat)
    requires LengthIs(t, x, m) && LengthIs(t, y, n)
    ensures LengthIs(t, x + y, m + n)
  {
    LogConcat(t, x, y);
  }

  lemma {:induction false} BlockLength(s: Setup, t: CodeTables, preds: seq<int>, mcu: Mcu, b: nat)
    requires IsSetup(s) && IsCodeTables(t) && IsMcu(s, mcu) && |preds| == |s.comps| && b < |s.membership|
    requires UseFits(UseAt(s, preds, mcu, b))
    ensures LengthIs(t, [UseAt(s, preds, mcu, b)], |CodingBits(CodingAt(s, t, preds, mcu, b))|)
  {
    var u := UseAt(s, preds, mcu, b);
    UseIs(s, preds, mcu, b);
    BlockFacts(s, t, mcu, b);
    CodingIs(CodingAt(s, t, preds, mcu, b));
    UseLength(t, u);
    assert [u][..0] == [];
  }

  lemma {:induction false} McuLength(s: Setup, t: CodeTables, preds: seq<int>, mcu: Mcu, b: nat)
    requires IsSetup(s) && IsCodeTables(t) && IsMcu(s, mcu) && |preds| == |s.comps| && b <= |s.membership|
    requires AllFit(McuUses(s, preds, mcu, b))
    ensures LengthIs(t, McuUses(s, preds, mcu, b), |McuBits(s, t, preds, mcu, b)|)
  {
    if b > 0 {
      var u := UseAt(s, preds, mcu, b - 1);
      FitParts(McuUses(s, preds, mcu, b - 1), [u]);
      assert u in [u];
      McuLength(s, t, preds, mcu, b - 1);
      BlockLength(s, t, preds, mcu, b - 1);
      LengthsAdd(t, McuUses(s, preds, mcu, b - 1), |McuBits(s, t, preds, mcu, b - 1)|, [u], |CodingBits(CodingAt(s, t, preds, mcu, b - 1))|);
    }
  }

  lemma {:induction false} RunLength(s: Setup, t: CodeTables, mcus: seq<Mcu>, n: nat)
    requires IsSetup(s) && IsCodeTables(t) && AllMcus(s, mcus) && n <= |mcus| && AllFit(RunUses(s, mcus, n))
    ensures LengthIs(t, RunUses(s, mcus, n), |RunBits(s, t, mcus, n)|)
  {
    if n > 0 {
      var preds := RunPreds(s, mcus, n - 1);
      FitParts(RunUses(s, mcus, n - 1), McuUses(s, preds, mcus[n - 1], |s.membership|));
      RunLength(s, t, mcus, n - 1);
      McuLength(s, t, preds, mcus[n - 1], |s.membership|);
      LengthsAdd(t, RunUses(s, mcus, n - 1), |RunBits(s, t, mcus, n - 1)|,
                 McuUses(s, preds, mcus[n - 1], |s.membership|), |McuBits(s, t, preds, mcus[n - 1], |s.membership|)|);
    }
  }

  /** The bits of all intervals that are done, without padding. */
  ghost function DoneBits(s: Setup, t: CodeTables, done: seq<seq<Mcu>>): nat
    requires IsSetup(s) && IsCodeTables(t) && forall i :: 0 <= i < |done| ==> AllMcus(s, done[i])
  {
    if done == [] then 0
    else DoneBits(s, t, done[..|done| - 1]) + |RunBits(s, t, done[|done| - 1], |done[|done| - 1]|)|
  }

  lemma {:induction false} DoneLength(s: Setup, t: CodeTables, done: seq<seq<Mcu>>)
    requires IsSetup(s) && IsCodeTables(t) && (forall i :: 0 <= i < |done| ==> AllMcus(s, done[i])) && AllFit(DoneUses(s, done))
    ensures LengthIs(t, DoneUses(s, done), DoneBits(s, t, done))
  {
    if done != [] {
      var init, run := done[..|done| - 1], done[|done| - 1];
      FitParts(DoneUses(s, init), RunUses(s, run, |run|));
      DoneLength(s, t, init);
      RunLength(s, t, run, |run|);
      LengthsAdd(t, DoneUses(s, init), DoneBits(s, t, init), RunUses(s, run, |run|), |RunBits(s, t, run, |run|)|);
    }
  }

  /** The counts of the gathering pass tell the length of the output, whatever codes are chosen for them: the
      bits of all intervals, without the padding, are the sum over all tables of counts times code sizes,
      and the bits of the values, which are the same for all tables. */
  lemma {:induction false} BitsCounted(s: Setup, t: CodeTables, g: Progress)
    requires IsSetup(s) && IsCodeTables(t) && IsProgress(s, g) && AllFit(ProgressUses(s, g))
    ensures Sized(t)
    ensures DoneBits(s, t, g.done) + |RunBits(s, t, g.cur, |g.cur|)| ==
            SideCost(ProgressUses(s, g), true, t.dc) + SideCost(ProgressUses(s, g), false, t.ac) + LogValues(ProgressUses(s, g))
  {
    TablesSized(t);
    FitParts(DoneUses(s, g.done), RunUses(s, g.cur, |g.cur|));
    DoneLength(s, t, g.done);
    RunLength(s, t, g.cur, |g.cur|);
    LengthsAdd(t, DoneUses(s, g.done), DoneBits(s, t, g.done), RunUses(s, g.cur, |g.cur|), |RunBits(s, t, g.cur, |g.cur|)|);
    CostIs(t, ProgressUses(s, g));
  }

  lemma TablesSized(t: CodeTables)
    requires IsCodeTables(t)
    ensures Sized(t)
  {
    assert Key(0);
    forall i | 0 <= i < NUM_HUFF_TBLS ensures |t.dc[i].si| == TABLE_SIZE && |t.ac[i].si| == TABLE_SIZE {
      assert IsCodes(t.dc[i]) && IsCodes(t.ac[i]);
    }
  }
}
