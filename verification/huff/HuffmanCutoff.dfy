/** How large an image may be for its symbol counts to stay below the heaviest node that is found. */
module HuffmanCutoff {
  import opened Powers
  import opened KraftSum
  import opened HuffmanTree
  import opened CanonicalCode
  import opened OptimalTable
  import opened BlockCode
  import opened BlockEncoder
  import opened HuffmanScan
  import opened HuffmanGather
  import opened HuffmanTables

  const MOST_BLOCKS := 15_000_000
  const FEW_BLOCKS := 146_000

  function UseCounts(list: seq<Sym>): (c: seq<nat>)
    ensures |c| == COUNTS && forall s :: 0 <= s < COUNTS ==> c[s] == Uses(list, s)
  {
    seq(COUNTS, s requires 0 <= s => Uses(list, s))
  }

  /** Every symbol of a list is counted at most once. */
  lemma {:induction false} UsesTotal(list: seq<Sym>)
    ensures Sum(UseCounts(list)) <= |list|
  {
    if list == [] {
      AllZero(UseCounts(list));
    } else {
      var init, rs := list[..|list| - 1], list[|list| - 1].rs;
      UsesTotal(init);
      if rs < COUNTS {
        SumChanged(UseCounts(init), UseCounts(list), rs);
      } else {
        assert UseCounts(list) == UseCounts(init);
      }
    }
  }

  /** Each symbol accounts for at least one coefficient. */
  lemma {:induction false} AcCount(vals: seq<int>, k: nat, r: nat)
    requires k <= |vals|
    ensures |AcSymbols(vals, k, r)| <= |vals| - k + r
    decreases |vals| - k
  {
    if k < |vals| {
      AcCount(vals, k + 1, if vals[k] == 0 then r + 1 else 0);
    }
  }

  lemma {:induction false} SumOfTwo(s: seq<int>, t: seq<int>, u: seq<int>)
    requires |s| == |t| == |u| && forall i :: 0 <= i < |s| ==> s[i] <= t[i] + u[i]
    ensures Sum(s) <= Sum(t) + Sum(u)
  {
    if s != [] {
      SumOfTwo(s[..|s| - 1], t[..|t| - 1], u[..|u| - 1]);
    }
  }

  predicate BlockSized(log: seq<BlockUse>) {
    forall u :: u in log ==> |u.vals| <= BLOCK_SIZE
  }

  /** A table's counts add up to no more than 63 for each block. */
  lemma {:induction false} TableTotal(log: seq<BlockUse>, isDc: bool, tbl: nat)
    requires BlockSized(log)
    ensures Sum(TableCounts(log, isDc, tbl)) <= 63 * |log|
  {
    if log == [] {
      AllZero(TableCounts(log, isDc, tbl));
    } else {
      var init, u := log[..|log| - 1], log[|log| - 1];
      TableTotal(init, isDc, tbl);
      assert u in log;
      var list := if u.vals == [] then [] else if isDc then [DcSymbol(u.vals, u.pred)] else AcSymbols(u.vals, 1, 0);
      ListShort(u, isDc, list);
      UsesTotal(list);
      SumOfTwo(TableCounts(log, isDc, tbl), TableCounts(init, isDc, tbl), UseCounts(list));
    }
  }

  lemma ListShort(u: BlockUse, isDc: bool, list: seq<Sym>)
    requires |u.vals| <= BLOCK_SIZE
    requires list == if u.vals == [] then [] else if isDc then [DcSymbol(u.vals, u.pred)] else AcSymbols(u.vals, 1, 0)
    ensures |list| <= 63
  {
    if u.vals != [] {
      AcCount(u.vals, 1, 0);
    }
  }

  lemma FewBlocks(log: seq<BlockUse>)
    requires BlockSized(log) && |log| <= MOST_BLOCKS
    ensures WithinCutoff(log)
  {
    forall isDc, tbl: nat | tbl < NUM_HUFF_TBLS ensures Sum(WithPseudo(TableCounts(log, isDc, tbl))) <= CUTOFF {
      var c := TableCounts(log, isDc, tbl);
      TableTotal(log, isDc, tbl);
      SumUpdate(c, TABLE_SIZE, 1);
    }
  }

  /** So few blocks that no code size can overflow. */
  lemma NoOverflow(s: Setup, log: seq<BlockUse>)
    requires BlockSized(log) && |log| <= FEW_BLOCKS
    ensures !SomeOverflow(s, log)
  {
    forall ci | 0 <= ci < |s.comps| ensures !Overflows(s.comps[ci], log) {
      TableShallow(log, true, s.comps[ci].dcTbl);
      TableShallow(log, false, s.comps[ci].acTbl);
    }
  }

  lemma TableShallow(log: seq<BlockUse>, isDc: bool, tbl: nat)
    requires BlockSized(log) && |log| <= FEW_BLOCKS
    ensures !SizeOverflow(WithPseudo(TableCounts(log, isDc, tbl)))
  {
    var c := TableCounts(log, isDc, tbl);
    TableTotal(log, isDc, tbl);
    SumUpdate(c, TABLE_SIZE, 1);
    CodeSizesOptimal(WithPseudo(c));
    ShallowSizes(WithPseudo(c));
  }

  // ----- the blocks of an image -----

  lemma {:induction false} McuUsesSized(s: Setup, preds: seq<int>, mcu: Mcu, b: nat)
    requires IsMcu(s, mcu) && b <= |s.membership| && s.se < BLOCK_SIZE
    ensures |McuUses(s, preds, mcu, b)| == b && BlockSized(McuUses(s, preds, mcu, b))
  {
    if b > 0 {
      McuUsesSized(s, preds, mcu, b - 1);
      VectorSized(s, mcu, b - 1);
    }
  }

  lemma VectorSized(s: Setup, mcu: Mcu, b: nat)
    requires IsMcu(s, mcu) && b < |mcu|
    ensures |mcu[b]| == s.se + 1
  {
    assert Key(0);
  }

  lemma {:induction false} CutUses(s: Setup, mcus: seq<Mcu>)
    requires AllMcus(s, mcus) && s.se < BLOCK_SIZE
    ensures IsProgress(s, Cut(s, mcus)) && BlockSized(ProgressUses(s, Cut(s, mcus)))
    ensures |ProgressUses(s, Cut(s, mcus))| == |mcus| * |s.membership|
  {
    CutIsProgress(s, mcus);
    if mcus == [] {
      var none: seq<Mcu> := [];
      assert RunUses(s, none, 0) == [];
    } else {
      var init, mcu := mcus[..|mcus| - 1], mcus[|mcus| - 1];
      CutUses(s, init);
      StepSized(s, Cut(s, init), mcu);
      OneMoreTimes(|init|, |mcus|, |s.membership|);
    }
  }

  lemma OneMoreTimes(x: nat, y: nat, n: nat)
    requires y == x + 1
    ensures y * n == x * n + n
  {
  }

  lemma StepSized(s: Setup, g: Progress, mcu: Mcu)
    requires IsProgress(s, g) && IsMcu(s, mcu) && s.se < BLOCK_SIZE && BlockSized(ProgressUses(s, g))
    ensures IsProgress(s, Step(s, g, mcu)) && BlockSized(ProgressUses(s, Step(s, g, mcu)))
    ensures |ProgressUses(s, Step(s, g, mcu))| == |ProgressUses(s, g)| + |s.membership|
  {
    StepIsProgress(s, g, mcu);
    StepUses(s, g, mcu);
    var cur := Restarted(s, g).cur;
    McuUsesSized(s, RunPreds(s, cur, |cur|), mcu, |s.membership|);
  }

  /** Images of up to fifteen million blocks stay within the cutoff, and up to 146000 blocks no code size
      overflows. */
  lemma SmallImage(s: Setup, mcus: seq<Mcu>)
    requires AllMcus(s, mcus) && s.se < BLOCK_SIZE && |mcus| * |s.membership| <= MOST_BLOCKS
    ensures IsProgress(s, Cut(s, mcus)) && WithinCutoff(ProgressUses(s, Cut(s, mcus)))
    ensures |mcus| * |s.membership| <= FEW_BLOCKS ==> !SomeOverflow(s, ProgressUses(s, Cut(s, mcus)))
  {
    CutUses(s, mcus);
    FewBlocks(ProgressUses(s, Cut(s, mcus)));
    if |mcus| * |s.membership| <= FEW_BLOCKS {
      NoOverflow(s, ProgressUses(s, Cut(s, mcus)));
    }
  }
}
