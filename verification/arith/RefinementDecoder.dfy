/** Decoding of one more bit of AC coefficients with the arithmetic decoder. */
module RefinementDecoder {
  import opened Powers
  import opened CodeInterval
  import opened CoefficientModel
  import opened CoefficientBins
  import opened BandReading
  import opened RefinementReading
  import opened ArithDecoder
  import opened CoefficientDecoder

  /** Largest zigzag index up to se whose coefficient was already nonzero, or 0. */
  method PreviousEnd(b: Band, block: array<int>, ghost prev: seq<int>) returns (kex: nat)
    requires Fits(b, block.Length) && Known(b, prev, block[..], 0)
    requires forall j :: 0 <= j < b.ss && j < |prev| ==> prev[j] == 0
    ensures |prev| == b.se + 1 && forall k: nat :: b.ss <= k + 1 && k <= b.se ==> (k >= kex <==> ZeroAfter(prev, k))
  {
    assert Key(0);
    kex := b.se;
    while kex > 0 && block[b.order[kex]] == 0
      invariant kex <= b.se && ZeroAfter(prev, if kex >= b.ss then kex else b.ss - 1)
    {
      kex := kex - 1;
    }
    forall k: nat | b.ss <= k + 1 && k < kex ensures !ZeroAfter(prev, k) {
      assert prev[kex] != 0;
    }
  }

  /** The zeros after index k0. They end at a coefficient that was already nonzero or at a new one, or
      leave the band. */
  method DecodeRefinedZeros(d: Decoder, b: Band, block: array<int>, k0: nat, ghost prev: seq<int>)
    returns (ok: bool, k: nat, isNew: bool)
    requires d.Valid() && Fits(b, block.Length) && b.ss <= k0 + 1 <= b.se && Known(b, prev, block[..], k0)
    modifies d
    ensures d.Valid() && d.seg == old(d.seg) && d.origin == old(d.origin)
    ensures k0 < k <= b.se < |prev| && ZerosBetween(prev, k0, k - 1 - k0)
    ensures ok ==> (isNew <==> prev[k] == 0)
    ensures ok ==> d.decoded == old(d.decoded) + ZeroFlags(b.tbl, k0, k - 1 - k0)
                                + (if isNew then [Decision(Ac(b.tbl, 3 * (k - 1) + 1), true)] else [])
    ensures !ok ==> k == b.se && prev[k] == 0 && d.decoded == old(d.decoded) + ZeroFlags(b.tbl, k0, b.se - k0)
  {
    k := k0;
    var st := Ac(b.tbl, 3 * k0);
    assert |prev| == b.se + 1 by { assert Key(0); }
    while true
      invariant k0 <= k < b.se && st == Ac(b.tbl, 3 * k) && ZerosBetween(prev, k0, k - k0)
      invariant Read(d, ZeroFlags(b.tbl, k0, k - k0))
      decreases b.se - k
    {
      k := k + 1;
      var known := IsKnown(b, block, k0, k, prev);
      if known {
        return true, k, false;
      }
      var s1 := st.Plus(1);
      isNew := d.ArithDecode(s1);
      if isNew {
        return true, k, true;
      }
      st := st.Plus(3);
      if k >= b.se {
        return false, k, false;
      }
    }
  }

  method IsKnown(b: Band, block: array<int>, ghost k0: nat, k: nat, ghost prev: seq<int>) returns (known: bool)
    requires Fits(b, block.Length) && k0 < k <= b.se && b.ss <= k && Known(b, prev, block[..], k0)
    ensures |prev| == b.se + 1 && (known <==> prev[k] != 0)
  {
    assert Key(0);
    known := block[b.order[k]] != 0;
  }

  /** The sign of a new coefficient at index k, or one more bit of a known one. */
  method DecodeRefinedValue(d: Decoder, b: Band, block: array<int>, k: nat, isNew: bool, ghost prev: seq<int>)
    returns (ghost v: int)
    requires d.Valid() && Fits(b, block.Length) && 0 < k <= b.se && b.ss <= k && Known(b, prev, block[..], k - 1)
    requires |prev| == b.se + 1 && (isNew <==> prev[k] == 0)
    modifies d, block
    ensures d.Valid() && d.seg == old(d.seg) && d.origin == old(d.origin)
    ensures v != 0 && Half(v) == prev[k]
    ensures b.se < |b.order| && b.order[k] < block.Length
    ensures block[..] == old(block[..])[b.order[k] := RefinedCoefficient(old(block[b.order[k]]), v, b.al)]
    ensures d.decoded == old(d.decoded) + [SignOrBit(b.tbl, k - 1, v)]
  {
    assert b.se < |b.order| && b.order[k] < block.Length && Sign(block[b.order[k]]) == Sign(prev[k]) by { assert Key(0); }
    var bit := d.ArithDecode(if isNew then Fixed else Ac(b.tbl, 3 * (k - 1) + 2));
    v := Extended(prev[k], bit);
    StoreRefined(block, b.order[k], isNew, bit, b.al, prev[k]);
  }

  method StoreRefined(block: array<int>, p: nat, isNew: bool, bit: bool, al: nat, ghost prev: int)
    requires p < block.Length && (isNew <==> prev == 0) && Sign(block[p]) == Sign(prev)
    modifies block
    ensures block[..] == old(block[..])[p := RefinedCoefficient(old(block[p]), Extended(prev, bit), al)]
  {
    var p1 := Pow2(al);
    if isNew {
      block[p] := if bit then Wrap16(-p1) else Wrap16(p1);
    } else if bit {
      if block[p] < 0 {
        block[p] := Wrap16(block[p] - p1);
      } else {
        block[p] := Wrap16(block[p] + p1);
      }
    }
  }

  /** The end of the block after index k0, where it is open, or one more coefficient. */
  method DecodeRefinementRound(d: Decoder, b: Band, block: array<int>, k0: nat, open: bool,
                               ghost prev: seq<int>, ghost got: seq<int>)
    returns (done: bool, ok: bool, k: nat, ghost r: Round)
    requires d.Valid() && Fits(b, block.Length) && Known(b, prev, block[..], k0)
    requires b.ss <= |got| == k0 + 1 <= b.se == |prev| - 1 && (open <==> ZeroAfter(prev, k0))
    modifies d, block
    ensures d.Valid() && d.seg == old(d.seg) && d.origin == old(d.origin)
    ensures RefinementRead(b, prev, old(d.decoded), d.decoded, got, r)
    ensures (done <==> !r.Coefficient?) && (ok <==> !r.Overflow?)
    ensures r.Coefficient? ==> r.k == k && k0 < k <= b.se < |b.order| && b.order[k] < block.Length
    ensures r.Coefficient? ==>
      block[..] == old(block[..])[b.order[k] := RefinedCoefficient(old(block[b.order[k]]), r.v, b.al)]
    ensures done ==> block[..] == old(block[..])
  {
    if open {
      var end := d.ArithDecode(Ac(b.tbl, 3 * k0));
      if end { return true, true, k0, EndOfBlock; }
    }
    var isNew;
    ok, k, isNew := DecodeRefinedZeros(d, b, block, k0, prev);
    if !ok {
      OverflowRead(b, prev, old(d.decoded), d.decoded, got, k0, open);
      return true, false, k, Overflow;
    }
    KnownFurther(b, prev, block[..], k0, k - 1);
    ghost var v := DecodeRefinedValue(d, b, block, k, isNew, prev);
    RoundIsRead(b, prev, old(d.decoded), d.decoded, got, k0, open, isNew, k, v);
    done, r := false, Coefficient(k, v);
  }

  lemma OverflowRead(b: Band, prev: seq<int>, mid: seq<Decision>, after: seq<Decision>, got: seq<int>, k: nat, open: bool)
    requires |got| == k + 1 <= b.se == |prev| - 1 && (open <==> ZeroAfter(prev, k))
    requires ZerosBetween(prev, k, b.se - k)
    requires after == mid + (if open then [Decision(Ac(b.tbl, 3 * k), false)] else []) + ZeroFlags(b.tbl, k, b.se - k)
    ensures RefinementRead(b, prev, mid, after, got, Overflow)
  {
    assert ZeroAfter(prev, k);
    Associate(mid, [Decision(Ac(b.tbl, 3 * k), false)], ZeroFlags(b.tbl, k, b.se - k));
  }

  lemma RoundIsRead(b: Band, prev: seq<int>, mid: seq<Decision>, after: seq<Decision>, got: seq<int>, k0: nat, open: bool,
                    isNew: bool, k: nat, v: int)
    requires |got| == k0 + 1 <= b.se == |prev| - 1 && (open <==> ZeroAfter(prev, k0))
    requires k0 < k <= b.se && ZerosBetween(prev, k0, k - 1 - k0) && v != 0 && Half(v) == prev[k] && (isNew <==> prev[k] == 0)
    requires after == mid + (if open then [Decision(Ac(b.tbl, 3 * k0), false)] else []) + ZeroFlags(b.tbl, k0, k - 1 - k0)
      + (if isNew then [Decision(Ac(b.tbl, 3 * (k - 1) + 1), true)] else []) + [SignOrBit(b.tbl, k - 1, v)]
    ensures RefinementRead(b, prev, mid, after, got, Coefficient(k, v))
  {
    JoinRound(mid, b.tbl, open, k0, k - 1 - k0, v);
  }

  lemma JoinRound(s: seq<Decision>, tbl: nat, open: bool, k: nat, n: nat, v: int)
    requires v != 0
    ensures s + (if open then [Decision(Ac(tbl, 3 * k), false)] else []) + ZeroFlags(tbl, k, n)
              + (if Abs(v) == 1 then [Decision(Ac(tbl, 3 * (k + n) + 1), true)] else []) + [SignOrBit(tbl, k + n, v)]
         == s + RefinementRound(tbl, open, k, n, v)
  {
  }

  /** One more bit for the AC coefficients of a band, stored into the block. */
  method DecodeAcRefinement(d: Decoder, b: Band, block: array<int>, ghost prev: seq<int>)
    returns (ok: bool, ghost vals: seq<int>)
    requires d.Valid() && Fits(b, block.Length) && Known(b, prev, block[..], 0)
    requires forall j :: 0 <= j < b.ss && j < |prev| ==> prev[j] == 0
    modifies d, block
    ensures d.Valid() && d.seg == old(d.seg) && d.origin == old(d.origin)
    ensures BandRefined(b, prev, old(d.decoded), d.decoded, ok, vals, old(block[..]), block[..])
    ensures ok ==> InRefinementBins(b, old(d.decoded), d.decoded, vals)
  {
    assert 1 <= b.ss <= b.se by { assert Key(0); }
    var kex := PreviousEnd(b, block, prev);
    var done := false;
    vals, ok := Zeros(b.ss), true;
    var k := b.ss - 1;
    RefiningStart(b, prev, d.decoded, block[..]);
    while !done && k < b.se
      invariant d.Valid() && d.seg == old(d.seg) && d.origin == old(d.origin)
      invariant done ==> BandRefined(b, prev, old(d.decoded), d.decoded, ok, vals, old(block[..]), block[..])
      invariant !done ==> b.ss <= |vals| == k + 1 <= b.se + 1 && ok
      invariant !done ==> BandRefining(b, prev, old(d.decoded), d.decoded, vals, old(block[..]), block[..])
      decreases !done, b.se - k
    {
      StillKnown(b, prev, old(d.decoded), d.decoded, vals, old(block[..]), block[..]);
      ghost var mid, blk, got := d.decoded, block[..], vals;
      ghost var r;
      done, ok, k, r := DecodeRefinementRound(d, b, block, k, k >= kex, prev, got);
      vals := RoundTaken(b, prev, old(d.decoded), mid, d.decoded, got, r, old(block[..]), blk, block[..]);
    }
    if !done {
      RefiningFull(b, prev, old(d.decoded), d.decoded, vals, old(block[..]), block[..]);
    }
    if ok { RefinementInBins(b, prev, old(d.decoded), d.decoded, vals, old(block[..]), block[..]); }
  }

  /** What was read behind the decisions before uses the bins as refining a band to the values vals does. */
  ghost predicate InRefinementBins(b: Band, before: seq<Decision>, after: seq<Decision>, vals: seq<int>) {
    && |before| <= |after| && 0 < b.ss && b.se < |vals|
    && UsesRefinementBins(after[|before|..], b.tbl, vals, b.ss, b.se)
  }

  lemma {:induction false} RefinementInBins(b: Band, prev: seq<int>, before: seq<Decision>, after: seq<Decision>, vals: seq<int>,
                                            blk0: seq<int>, blk: seq<int>)
    requires BandRefined(b, prev, before, after, true, vals, blk0, blk)
    ensures InRefinementBins(b, before, after, vals)
  {
    assert Key(0);
    assert after[|before|..] == AcRefinement(b.tbl, vals, b.ss - 1, b.se);
    RefinementUsesBins(after[|before|..], b.tbl, vals, b.ss, b.se);
  }

  /** The values after a round. */
  lemma RoundTaken(b: Band, prev: seq<int>, before: seq<Decision>, mid: seq<Decision>, after: seq<Decision>, got: seq<int>,
                   r: Round, blk0: seq<int>, blk: seq<int>, blk2: seq<int>)
    returns (vals: seq<int>)
    requires BandRefining(b, prev, before, mid, got, blk0, blk) && RefinementRead(b, prev, mid, after, got, r)
    requires 0 < |got| <= b.se
    requires r.Coefficient? ==> |got| <= r.k <= b.se < |b.order| && b.order[r.k] < |blk|
    requires r.Coefficient? ==> blk2 == blk[b.order[r.k] := RefinedCoefficient(blk[b.order[r.k]], r.v, b.al)]
    requires !r.Coefficient? ==> blk2 == blk
    ensures !r.Coefficient? ==> BandRefined(b, prev, before, after, r.EndOfBlock?, vals, blk0, blk2)
    ensures r.Coefficient? ==> |vals| == r.k + 1 && BandRefining(b, prev, before, after, vals, blk0, blk2)
  {
    match r
    case EndOfBlock =>
      vals := got + Zeros(b.se + 1 - |got|);
      RefiningEnd(b, prev, before, mid, after, got, blk0, blk);
    case Overflow =>
      vals := got + (Zeros(b.se + 1 - |got|) + [1]);
      RefiningBad(b, prev, before, mid, after, got, blk0, blk);
    case Coefficient(k, v) =>
      vals := got + Zeros(k - |got|) + [v];
      RefiningMore(b, prev, before, mid, after, got, r, blk0, blk, b.order[k]);
  }

  lemma KnownFurther(b: Band, prev: seq<int>, blk: seq<int>, k0: nat, k1: nat)
    requires Known(b, prev, blk, k0) && k0 <= k1
    ensures Known(b, prev, blk, k1)
  {
    assert Key(0);
  }
}
