/** How one more bit of a band of AC coefficients is read back from decisions. */
module RefinementReading {
  import opened Powers
  import opened CodeInterval
  import opened CoefficientModel
  import opened BandReading

  /** What a value of one more bit was in the scans before. */
  function Half(v: int): int {
    if v >= 0 then v / 2 else -((-v) / 2)
  }

  function Sign(x: int): int {
    if x > 0 then 1 else if x < 0 then -1 else 0
  }

  /** The block holds coefficients of the signs in prev, in the band and after index k0. */
  ghost predicate Known(b: Band, prev: seq<int>, blk: seq<int>, k0: nat) {
    forall i {:trigger Key(i)} :: Key(i) ==>
      && Fits(b, |blk|) && |prev| == b.se + 1
      && forall k {:trigger b.order[k]} :: k0 < k <= b.se && b.ss <= k ==>
           IsOrder(b.order, |blk|) && b.se < |b.order| && Sign(blk[b.order[k]]) == Sign(prev[k])
  }

  /** A value with one more bit, 0 so far: its sign comes with its first bit. */
  function Extended(prev: int, bit: bool): (v: int)
    ensures prev == 0 ==> Abs(v) == 1 && (v < 0 <==> bit)
    ensures prev != 0 ==> Abs(v) > 1 && (Abs(v) % 2 == 1 <==> bit)
    ensures Half(v) == prev
  {
    if prev == 0 then if bit then -1 else 1
    else 2 * prev + (if bit then Sign(prev) else 0)
  }

  /** A coefficient x after its value has become v: a new one, one more bit of a known one, or neither. */
  function RefinedCoefficient(x: int, v: int, al: nat): int {
    if v == 0 then x
    else if Abs(v) == 1 then Wrap16(v * Pow2(al))
    else if Abs(v) % 2 == 1 then Wrap16(x + Sign(x) * Pow2(al))
    else x
  }

  predicate Refined(before: seq<int>, after: seq<int>, order: seq<nat>, ss: nat, vals: seq<int>, al: nat)
    requires IsOrder(order, |before|) && |vals| <= |order|
  {
    && |after| == |before|
    && (forall p :: 0 <= p < |before| && (forall k :: ss <= k < |vals| ==> order[k] != p) ==> after[p] == before[p])
    && forall k {:trigger order[k]} :: ss <= k < |vals| ==>
         after[order[k]] == RefinedCoefficient(before[order[k]], vals[k], al)
  }

  /** The values continue those of the scans before; anything behind the band is new. */
  predicate Refines(vals: seq<int>, prev: seq<int>) {
    && |prev| <= |vals|
    && (forall k :: 0 <= k < |prev| ==> Half(vals[k]) == prev[k])
    && (forall k :: |prev| <= k < |vals| ==> Abs(vals[k]) <= 1)
  }

  ghost predicate RefinementPasses(b: Band, before: seq<Decision>, after: seq<Decision>, vals: seq<int>, k: nat) {
    forall i {:trigger Key(i)} :: Key(i) && |vals| > b.se && b.ss > 0 ==>
      before + AcRefinement(b.tbl, vals, b.ss - 1, b.se) == after + AcRefinement(b.tbl, vals, k, b.se)
  }

  ghost predicate RefinementReaches(b: Band, prev: seq<int>, before: seq<Decision>, after: seq<Decision>, got: seq<int>) {
    forall rest: seq<int> {:trigger got + rest} :: got != [] && Refines(got + rest, prev) ==>
      RefinementPasses(b, before, after, got + rest, |got| - 1)
  }

  /** The decisions from mid to after are those of one round. */
  ghost predicate RefinementBetween(mid: seq<Decision>, after: seq<Decision>, tbl: nat, open: bool, k: nat, n: nat, v: int) {
    forall i {:trigger Key(i)} :: Key(i) && v != 0 ==> after == mid + RefinementRound(tbl, open, k, n, v)
  }

  lemma RefinementReachesMore(b: Band, prev: seq<int>, before: seq<Decision>, mid: seq<Decision>, after: seq<Decision>,
                              got: seq<int>, n: nat, v: int)
    requires RefinementReaches(b, prev, before, mid, got) && got != [] && |got| + n <= b.se == |prev| - 1
    requires v != 0 && RefinementBetween(mid, after, b.tbl, ZeroAfter(prev, |got| - 1), |got| - 1, n, v)
    ensures RefinementReaches(b, prev, before, after, got + Zeros(n) + [v])
  {
    var got2 := got + Zeros(n) + [v];
    forall rest: seq<int> | Refines(got2 + rest, prev)
      ensures RefinementPasses(b, before, after, got2 + rest, |got2| - 1)
    {
      Rejoin(got, n, v, rest);
      OpenIfNew(got2 + rest, prev, |got| - 1);
      RefinementPassesMore(b, before, mid, after, got2 + rest, |got| - 1, n);
    }
  }

  /** Whether the block may end after index k depends only on what the scans before have shown. */
  lemma OpenIfNew(vals: seq<int>, prev: seq<int>, k: nat)
    requires Refines(vals, prev)
    ensures NewAfter(vals, k) <==> ZeroAfter(prev, k)
  {
    if ZeroAfter(prev, k) {
      forall j | k < j < |vals| ensures Abs(vals[j]) <= 1 {
        if j < |prev| { assert prev[j] == 0; }
      }
    }
    if NewAfter(vals, k) {
      forall j | k < j < |prev| ensures prev[j] == 0 {
        assert Abs(vals[j]) <= 1;
      }
    }
  }

  lemma RefinementPassesMore(b: Band, before: seq<Decision>, mid: seq<Decision>, after: seq<Decision>, vals: seq<int>,
                             k: nat, n: nat)
    requires RefinementPasses(b, before, mid, vals, k)
    requires k + n + 1 < |vals| && k + n < b.se && ZerosBetween(vals, k, n) && vals[k + n + 1] != 0
    requires RefinementBetween(mid, after, b.tbl, NewAfter(vals, k), k, n, vals[k + n + 1])
    ensures RefinementPasses(b, before, after, vals, k + n + 1)
  {
    if |vals| > b.se {
      assert Key(0);
      RefinementRoundDone(mid, after, b.tbl, vals, k, n, b.se);
    }
  }

  lemma RefinementRoundDone(mid: seq<Decision>, after: seq<Decision>, tbl: nat, vals: seq<int>, k: nat, n: nat, se: nat)
    requires k + n < se < |vals| && ZerosBetween(vals, k, n) && vals[k + n + 1] != 0
    requires after == mid + RefinementRound(tbl, NewAfter(vals, k), k, n, vals[k + n + 1])
    ensures mid + AcRefinement(tbl, vals, k, se) == after + AcRefinement(tbl, vals, k + n + 1, se)
  {
    RefinementUnfold(tbl, vals, k, n, se);
    Associate(mid, RefinementRound(tbl, NewAfter(vals, k), k, n, vals[k + n + 1]), AcRefinement(tbl, vals, k + n + 1, se));
  }

  lemma RefinementReachesEnd(b: Band, prev: seq<int>, before: seq<Decision>, mid: seq<Decision>, got: seq<int>, rest: seq<int>)
    requires RefinementReaches(b, prev, before, mid, got) && got != [] && b.ss > 0
    requires Refines(got + rest, prev) && |got + rest| > b.se
    ensures before + AcRefinement(b.tbl, got + rest, b.ss - 1, b.se)
         == mid + AcRefinement(b.tbl, got + rest, |got| - 1, b.se)
  {
    assert Key(0);
  }

  /** What a refining decoder has done so far. */
  ghost predicate BandRefining(b: Band, prev: seq<int>, before: seq<Decision>, after: seq<Decision>, got: seq<int>,
                               blk0: seq<int>, blk: seq<int>)
  {
    forall i {:trigger Key(i)} :: Key(i) ==>
      && Known(b, prev, blk0, 0) && |prev| == b.se + 1 && b.ss <= |got| <= b.se + 1
      && (forall j :: 0 <= j < |got| ==> Half(got[j]) == prev[j]) && (forall j :: 0 <= j < b.ss ==> got[j] == 0)
      && RefinementReaches(b, prev, before, after, got)
      && IsOrder(b.order, |blk0|) && |got| <= |b.order| && Refined(blk0, blk, b.order, b.ss, got, b.al)
  }

  /** What it has done in the end: the decisions are those of refined values, unless a run of zeros
      left the band. */
  ghost predicate BandRefined(b: Band, prev: seq<int>, before: seq<Decision>, after: seq<Decision>, ok: bool, vals: seq<int>,
                              blk0: seq<int>, blk: seq<int>)
  {
    forall i {:trigger Key(i)} :: Key(i) ==>
      && Fits(b, |blk0|) && Spelled(vals, b.se) && Refines(vals, prev) && (forall j :: 0 <= j < b.ss ==> vals[j] == 0)
      && after == before + AcRefinement(b.tbl, vals, b.ss - 1, b.se)
      && (ok <==> |vals| == b.se + 1)
      && (ok ==> Refined(blk0, blk, b.order, b.ss, vals, b.al))
  }

  ghost predicate RefinementRead(b: Band, prev: seq<int>, mid: seq<Decision>, after: seq<Decision>, got: seq<int>, r: Round) {
    forall i {:trigger Key(i)} :: Key(i) && 0 < |got| <= b.se == |prev| - 1 ==>
      match r
      case EndOfBlock => ZeroAfter(prev, |got| - 1) && after == mid + [Decision(Ac(b.tbl, 3 * (|got| - 1)), true)]
      case Coefficient(k, v) =>
        && |got| <= k <= b.se && v != 0 && ZerosBetween(prev, |got| - 1, k - |got|) && Half(v) == prev[k]
        && RefinementBetween(mid, after, b.tbl, ZeroAfter(prev, |got| - 1), |got| - 1, k - |got|, v)
      case Overflow =>
        && ZeroAfter(prev, |got| - 1)
        && after == mid + ([Decision(Ac(b.tbl, 3 * (|got| - 1)), false)] + ZeroFlags(b.tbl, |got| - 1, b.se + 1 - |got|))
  }

  lemma RefiningStart(b: Band, prev: seq<int>, ds: seq<Decision>, blk: seq<int>)
    requires Known(b, prev, blk, 0) && |prev| > b.se && forall j :: 0 <= j < b.ss && j <= b.se ==> prev[j] == 0
    ensures BandRefining(b, prev, ds, ds, Zeros(b.ss), blk, blk)
  {
    assert Key(0);
  }

  lemma RefiningFull(b: Band, prev: seq<int>, before: seq<Decision>, after: seq<Decision>, got: seq<int>,
                     blk0: seq<int>, blk: seq<int>)
    requires BandRefining(b, prev, before, after, got, blk0, blk) && |got| == b.se + 1
    ensures BandRefined(b, prev, before, after, true, got, blk0, blk)
  {
    assert Key(0);
    assert got + [] == got;
    RefinementReachesEnd(b, prev, before, after, got, []);
  }

  lemma {:induction false} RefiningEnd(b: Band, prev: seq<int>, before: seq<Decision>, mid: seq<Decision>, after: seq<Decision>, got: seq<int>,
                    blk0: seq<int>, blk: seq<int>)
    requires BandRefining(b, prev, before, mid, got, blk0, blk)
    requires 0 < |got| <= b.se && RefinementRead(b, prev, mid, after, got, EndOfBlock)
    ensures BandRefined(b, prev, before, after, true, got + Zeros(b.se + 1 - |got|), blk0, blk)
  {
    assert Key(0);
    RefinementReachesEnd(b, prev, before, mid, got, Zeros(b.se + 1 - |got|));
  }

  lemma {:induction false} RefiningBad(b: Band, prev: seq<int>, before: seq<Decision>, mid: seq<Decision>, after: seq<Decision>, got: seq<int>,
                    blk0: seq<int>, blk: seq<int>)
    requires BandRefining(b, prev, before, mid, got, blk0, blk)
    requires 0 < |got| <= b.se && RefinementRead(b, prev, mid, after, got, Overflow)
    ensures BandRefined(b, prev, before, after, false, got + (Zeros(b.se + 1 - |got|) + [1]), blk0, blk)
  {
    var n := b.se + 1 - |got|;
    var vals := got + (Zeros(n) + [1]);
    RefiningParts(b, prev, before, mid, got, blk0, blk);
    OverflowParts(b, prev, mid, after, got);
    OverflowValues(b, prev, got);
    OverflowCode(b, prev, before, mid, after, got, vals, n);
    LowZeros(b, got, vals);
    RefinedIntro(b, prev, before, after, vals, blk0, blk);
  }

  lemma LowZeros(b: Band, got: seq<int>, vals: seq<int>)
    requires b.ss <= |got| && got <= vals && forall j :: 0 <= j < b.ss ==> got[j] == 0
    ensures forall j :: 0 <= j < b.ss ==> vals[j] == 0
  {
  }

  lemma {:induction false} OverflowCode(b: Band, prev: seq<int>, before: seq<Decision>, mid: seq<Decision>, after: seq<Decision>,
                                        got: seq<int>, vals: seq<int>, n: nat)
    requires RefinementReaches(b, prev, before, mid, got) && 0 < |got| <= b.se == |prev| - 1 && 1 <= b.ss
    requires n == b.se + 1 - |got| && vals == got + (Zeros(n) + [1]) && Refines(vals, prev) && |vals| == b.se + 2
    requires ZerosBetween(vals, |got| - 1, n) && NewAfter(vals, |got| - 1)
    requires after == mid + ([Decision(Ac(b.tbl, 3 * (|got| - 1)), false)] + ZeroFlags(b.tbl, |got| - 1, n))
    ensures after == before + AcRefinement(b.tbl, vals, b.ss - 1, b.se)
  {
    RefinementReachesEnd(b, prev, before, mid, got, Zeros(n) + [1]);
    RefinementOverflow(b.tbl, vals, |got| - 1, n, b.se);
  }

  lemma {:induction false} RefiningParts(b: Band, prev: seq<int>, before: seq<Decision>, mid: seq<Decision>, got: seq<int>,
                      blk0: seq<int>, blk: seq<int>)
    requires BandRefining(b, prev, before, mid, got, blk0, blk)
    ensures Fits(b, |blk0|) && |prev| == b.se + 1 && 1 <= b.ss
    ensures RefinementReaches(b, prev, before, mid, got)
    ensures |got| <= |prev| && forall j :: 0 <= j < |got| ==> Half(got[j]) == prev[j]
    ensures b.ss <= |got| && forall j :: 0 <= j < b.ss ==> got[j] == 0
  {
    assert Key(0);
  }

  lemma {:induction false} OverflowParts(b: Band, prev: seq<int>, mid: seq<Decision>, after: seq<Decision>, got: seq<int>)
    requires 0 < |got| <= b.se == |prev| - 1 && RefinementRead(b, prev, mid, after, got, Overflow)
    ensures ZeroAfter(prev, |got| - 1)
    ensures after == mid + ([Decision(Ac(b.tbl, 3 * (|got| - 1)), false)] + ZeroFlags(b.tbl, |got| - 1, b.se + 1 - |got|))
  {
    assert Key(0);
  }

  lemma RefinedIntro(b: Band, prev: seq<int>, before: seq<Decision>, after: seq<Decision>, vals: seq<int>,
                     blk0: seq<int>, blk: seq<int>)
    requires Fits(b, |blk0|) && Spelled(vals, b.se) && |vals| > b.se + 1 && Refines(vals, prev) && b.ss > 0
    requires after == before + AcRefinement(b.tbl, vals, b.ss - 1, b.se) && forall j :: 0 <= j < b.ss ==> b.ss <= b.se && vals[j] == 0
    ensures BandRefined(b, prev, before, after, false, vals, blk0, blk)
  {
    assert Key(0);
  }

  lemma {:induction false} OverflowValues(b: Band, prev: seq<int>, got: seq<int>)
    requires 0 < |got| <= b.se == |prev| - 1 && ZeroAfter(prev, |got| - 1)
    requires forall j :: 0 <= j < |got| ==> Half(got[j]) == prev[j]
    ensures var vals := got + (Zeros(b.se + 1 - |got|) + [1]);
      && Spelled(vals, b.se) && |vals| == b.se + 2 && Refines(vals, prev)
      && ZerosBetween(vals, |got| - 1, b.se + 1 - |got|) && NewAfter(vals, |got| - 1)
  {
    OpenIfNew(got + (Zeros(b.se + 1 - |got|) + [1]), prev, |got| - 1);
  }

  /** A run of zeros that leaves the band. */
  lemma RefinementOverflow(tbl: nat, vals: seq<int>, k: nat, n: nat, se: nat)
    requires k < se == |vals| - 2 && n == se - k
    requires ZerosBetween(vals, k, n) && vals[se + 1] != 0 && NewAfter(vals, k)
    ensures AcRefinement(tbl, vals, k, se) == [Decision(Ac(tbl, 3 * k), false)] + ZeroFlags(tbl, k, n)
  {
    assert !ZeroAfter(vals, k);
    var run := RefinementRun(tbl, vals, k, se);
    assert run == ZeroFlags(tbl, k, n) by {
      RefinementOfZeros(tbl, vals, k, n, se);
    }
    assert AcRefinement(tbl, vals, k, se) == [Decision(Ac(tbl, 3 * k), false)] + run;
  }

  lemma RefiningMore(b: Band, prev: seq<int>, before: seq<Decision>, mid: seq<Decision>, after: seq<Decision>, got: seq<int>,
                     r: Round, blk0: seq<int>, blk: seq<int>, p: nat)
    requires BandRefining(b, prev, before, mid, got, blk0, blk)
    requires r.Coefficient? && 0 < |got| <= r.k <= b.se < |b.order| && RefinementRead(b, prev, mid, after, got, r)
    requires p == b.order[r.k] < |blk|
    ensures BandRefining(b, prev, before, after, got + Zeros(r.k - |got|) + [r.v],
                         blk0, blk[p := RefinedCoefficient(blk[p], r.v, b.al)])
  {
    var got2 := got + Zeros(r.k - |got|) + [r.v];
    assert RefinementReaches(b, prev, before, after, got2) by {
      assert Key(0);
      RefinementReachesMore(b, prev, before, mid, after, got, r.k - |got|, r.v);
    }
    RefiningStored(b, prev, before, mid, after, got, r, blk0, blk, p);
  }

  lemma RefiningStored(b: Band, prev: seq<int>, before: seq<Decision>, mid: seq<Decision>, after: seq<Decision>, got: seq<int>,
                       r: Round, blk0: seq<int>, blk: seq<int>, p: nat)
    requires BandRefining(b, prev, before, mid, got, blk0, blk)
    requires r.Coefficient? && 0 < |got| <= r.k <= b.se < |b.order| && RefinementRead(b, prev, mid, after, got, r)
    requires p == b.order[r.k] < |blk|
    ensures var got2, blk2 := got + Zeros(r.k - |got|) + [r.v], blk[p := RefinedCoefficient(blk[p], r.v, b.al)];
      && Known(b, prev, blk0, 0) && |prev| == b.se + 1 && b.ss <= |got2| <= b.se + 1
      && (forall j :: 0 <= j < |got2| ==> Half(got2[j]) == prev[j]) && (forall j :: 0 <= j < b.ss ==> got2[j] == 0)
      && IsOrder(b.order, |blk0|) && |got2| <= |b.order| && Refined(blk0, blk2, b.order, b.ss, got2, b.al)
  {
    assert Key(0);
    var got2 := got + Zeros(r.k - |got|) + [r.v];
    RefinedMore(blk0, blk, b.order, b.ss, got, got2, b.al);
  }

  lemma RefinedMore(before: seq<int>, mid: seq<int>, order: seq<nat>, ss: nat, got: seq<int>, vals: seq<int>, al: nat)
    requires IsOrder(order, |before|) && ss <= |got| < |vals| <= |order|
    requires Refined(before, mid, order, ss, got, al)
    requires got <= vals && forall k :: |got| <= k < |vals| - 1 ==> vals[k] == 0
    ensures var k := |vals| - 1;
      Refined(before, mid[order[k] := RefinedCoefficient(mid[order[k]], vals[k], al)], order, ss, vals, al)
  {
    assert mid[order[|vals| - 1]] == before[order[|vals| - 1]];
  }

  /** What is still to be refined has not changed. */
  lemma StillKnown(b: Band, prev: seq<int>, before: seq<Decision>, after: seq<Decision>, got: seq<int>,
                   blk0: seq<int>, blk: seq<int>)
    requires BandRefining(b, prev, before, after, got, blk0, blk) && got != []
    ensures Known(b, prev, blk, |got| - 1) && Fits(b, |blk|)
  {
    assert Key(0);
    forall k | |got| <= k <= b.se ensures blk[b.order[k]] == blk0[b.order[k]] {
    }
  }
}
