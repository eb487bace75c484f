/** Encoding of quantized coefficients with the arithmetic encoder. */
module CoefficientEncoder {
  import opened Powers
  import opened CodeInterval
  import opened CoefficientModel
  import opened CoefficientBins
  import opened BandReading
  import opened RefinementReading
  import opened ArithEncoder

  /** The encoder has coded exactly the decisions ds since the old state. */
  twostate predicate Coded(e: Encoder, ds: seq<Decision>)
    reads e
  {
    && e.Valid() && e.prefix == old(e.prefix) && e.origin == old(e.origin)
    && e.coded == old(e.coded) + ds
  }

  /** v2 is half of what is left of v after done halvings. */
  ghost predicate Halved(v: nat, v2: nat, done: nat) {
    forall i {:trigger Key(i)} :: Key(i) && v > 0 ==>
      if v2 == 0 then done == Category(v) else done + 1 + Category(v2) == Category(v)
  }

  lemma NotHalved(v: nat)
    ensures Halved(v, v / 2, 0)
  {
  }

  lemma HalvedMore(v: nat, v2: nat, done: nat)
    requires Halved(v, v2, done) && v2 != 0
    ensures Halved(v, v2 / 2, done + 1)
  {
    assert Key(0);
  }

  lemma HalvedOut(v: nat, done: nat)
    requires Halved(v, 0, done) && v > 0
    ensures done == Category(v)
  {
    assert Key(0);
  }

  /** Magnitude category: one decision per halving of v2, which doubles m. */
  method EncodeCategory(e: Encoder, bin: Bin, v: nat, m0: nat, ghost p0: nat) returns (m: nat, st: Bin)
    requires e.Valid() && v > 0 && m0 == Pow2(p0)
    modifies e
    ensures Coded(e, Unary(bin, Category(v)))
    ensures m == Pow2(p0 + Category(v)) && st == bin.Plus(Category(v))
  {
    m, st := m0, bin;
    var v2: nat := v / 2;
    ghost var done: nat := 0;
    NotHalved(v);
    while v2 != 0
      invariant Halved(v, v2, done)
      invariant m == Pow2(p0 + done) && st == bin.Plus(done)
      invariant Coded(e, Ones(bin, done))
    {
      e.ArithEncode(st, true);
      OneMore(bin, done);
      HalvedMore(v, v2, done);
      m := 2 * m;
      st := st.Plus(1);
      done := done + 1;
      v2 := v2 / 2;
    }
    HalvedOut(v, done);
    e.ArithEncode(st, false);
  }

  /** The magnitude bits below top, highest first. */
  method EncodePattern(e: Encoder, st: Bin, v: nat, top: nat, ghost k: nat)
    requires e.Valid() && top == Pow2(k)
    modifies e
    ensures Coded(e, Pattern(st, v, k))
  {
    var m := top / 2;
    ghost var left: nat := k;
    while m != 0
      invariant left <= k && m == Pow2(left) / 2
      invariant Coded(e, Pattern(st, v, k)[..k - left])
    {
      left := left - 1;
      PatternNext(st, v, k, k - 1 - left);
      BitIs(v, left);
      e.ArithEncode(st, v / m % 2 == 1);
      m := m / 2;
    }
  }

  /** A DC difference v, coded under the context of the previous one; returns the next context. */
  method EncodeDcDifference(e: Encoder, c: Conditioning, tbl: nat, context: nat, v: int)
    returns (next: nat, ghost code: seq<Decision>)
    requires e.Valid()
    modifies e
    ensures Coded(e, code) && DcDifferenceCoded(c, tbl, context, v, next, code)
    ensures next == ContextFor(c, v) && (context <= 16 ==> UsesDcBins(code, tbl, context, v))
  {
    var st := Dc(tbl, context);
    if v == 0 {
      e.ArithEncode(st, false);
      next, code := 0, [Decision(st, false)];
    } else {
      e.ArithEncode(st, true);
      e.ArithEncode(st.Plus(1), v < 0);
      st := st.Plus(if v > 0 then 2 else 3);
      var m := EncodeDcMagnitude(e, tbl, st, Abs(v) - 1);
      next := ContextOf(c, v, m);
      code := DcMagnitude(st, Dc(tbl, 20), Abs(v) - 1);
      TwoThen(old(e.coded), Decision(Dc(tbl, context), true), Decision(Dc(tbl, context + 1), v < 0), code);
      code := [Decision(Dc(tbl, context), true), Decision(Dc(tbl, context + 1), v < 0)] + code;
    }
    DcDifferenceIsCoded(c, tbl, context, v, next, code);
    DifferenceInBins(c, tbl, context, v, next, code);
  }

  lemma {:induction false} DifferenceInBins(c: Conditioning, tbl: nat, context: nat, v: int, next: nat, code: seq<Decision>)
    requires DcDifferenceCoded(c, tbl, context, v, next, code)
    ensures next == ContextFor(c, v) && (context <= 16 ==> UsesDcBins(code, tbl, context, v))
  {
    assert code == DcDifference(tbl, context, v) && next == DcContext(c, v) by { assert Key(0); }
    ContextBounds(c, v);
    if context <= 16 { DifferenceUsesBins(code, tbl, context, v); }
  }

  lemma DcDifferenceIsCoded(c: Conditioning, tbl: nat, context: nat, v: int, next: nat, code: seq<Decision>)
    requires code == DcDecisions(tbl, context, v) && next == DcContext(c, v)
    ensures DcDifferenceCoded(c, tbl, context, v, next, code)
  {
    DcDifferenceIs(tbl, context, v);
  }

  /** The next DC context, from the sign and the category of a nonzero difference. */
  method ContextOf(c: Conditioning, v: int, m: nat) returns (next: nat)
    requires v != 0 && m == CategoryBit(v)
    ensures next == DcContext(c, v)
  {
    next := if v > 0 then 4 else 8;
    if m < Pow2(c.dcL) / 2 {
      next := 0;
    } else if m > Pow2(c.dcU) / 2 {
      next := next + 8;
    }
  }

  /** Magnitude category and bits of w = |v| - 1; returns the category as a power of two. */
  method EncodeDcMagnitude(e: Encoder, tbl: nat, s0: Bin, w: nat) returns (m: nat)
    requires e.Valid()
    modifies e
    ensures Coded(e, DcMagnitude(s0, Dc(tbl, 20), w))
    ensures m == if w == 0 then 0 else Pow2(Category(w))
  {
    if w == 0 {
      e.ArithEncode(s0, false);
      return 0;
    }
    e.ArithEncode(s0, true);
    var st;
    m, st := EncodeCategory(e, Dc(tbl, 20), w, 1, 0);
    EncodePattern(e, st.Plus(14), w, m, Category(w));
    Regroup(old(e.coded), [Decision(s0, true)], Unary(Dc(tbl, 20), Category(w)),
            Pattern(st.Plus(14), w, Category(w)));
  }

  /** Magnitude category and bits of w = |v| - 1 for the AC coefficient at index k. */
  method EncodeAcMagnitude(e: Encoder, c: Conditioning, tbl: nat, s0: Bin, k: nat, w: nat)
    requires e.Valid()
    modifies e
    ensures Coded(e, AcMagnitude(s0, AcX2(tbl, c, k), w))
  {
    if w == 0 {
      e.ArithEncode(s0, false);
    } else if w == 1 {
      e.ArithEncode(s0, true);
      e.ArithEncode(s0, false);
    } else {
      e.ArithEncode(s0, true);
      e.ArithEncode(s0, true);
      var x2 := Ac(tbl, if k <= c.acK then 189 else 217);
      ghost var n := Category(w / 2);
      var m, st := EncodeCategory(e, x2, w / 2, 2, 1);
      EncodePattern(e, st.Plus(14), w, m, 1 + n);
      AcMagnitudeIs(s0, x2, w, n);
      TwoThenRegroup(old(e.coded), Decision(s0, true), Unary(x2, n), Pattern(st.Plus(14), w, 1 + n));
    }
  }

  lemma AcMagnitudeIs(s0: Bin, x2: Bin, w: nat, n: nat)
    requires w >= 2 && n == Category(w / 2)
    ensures AcMagnitude(s0, x2, w)
         == [Decision(s0, true), Decision(s0, true)] + (Unary(x2, n) + Pattern(x2.Plus(n).Plus(14), w, 1 + n))
  {
    assert Category(w) == n + 1;
    assert x2.Plus(n).Plus(14) == x2.Plus(n + 14);
  }

  /** Largest zigzag index up to se with a nonzero coefficient, or 0. */
  method EndOfBlock(vals: seq<int>, se: nat) returns (ke: nat)
    requires se == |vals| - 1
    ensures ke <= se && ZeroAfter(vals, ke)
    ensures ke > 0 ==> vals[ke] != 0
  {
    ke := se;
    while ke > 0 && vals[ke] == 0
      invariant ke <= se && ZeroAfter(vals, ke)
    {
      ke := ke - 1;
    }
  }

  /** The zeros after index k0; returns the index of the coefficient that ends them. */
  method EncodeZeros(e: Encoder, tbl: nat, vals: seq<int>, k0: nat) returns (k: nat)
    requires e.Valid() && !ZeroAfter(vals, k0)
    modifies e
    ensures k0 < k < |vals| && vals[k] != 0 && ZerosBetween(vals, k0, k - 1 - k0)
    ensures Coded(e, ZeroFlags(tbl, k0, k - 1 - k0))
  {
    k := k0 + 1;
    var st := Ac(tbl, 3 * k0);
    while vals[k] == 0
      invariant k0 < k < |vals| && !ZeroAfter(vals, k - 1) && ZerosBetween(vals, k0, k - 1 - k0)
      invariant st == Ac(tbl, 3 * (k - 1))
      invariant Coded(e, ZeroFlags(tbl, k0, k - 1 - k0))
      decreases |vals| - k
    {
      e.ArithEncode(st.Plus(1), false);
      st := st.Plus(3);
      k := k + 1;
    }
  }

  /** One coefficient after index k0, with the end-of-block decision and the zeros before it. */
  method EncodeNextCoefficient(e: Encoder, c: Conditioning, tbl: nat, vals: seq<int>, k0: nat) returns (k: nat, ghost n: nat)
    requires e.Valid() && !ZeroAfter(vals, k0)
    modifies e
    ensures k == k0 + n + 1 < |vals| && vals[k] != 0 && ZerosBetween(vals, k0, n)
    ensures e.Valid() && e.prefix == old(e.prefix) && e.origin == old(e.origin)
    ensures RoundBetween(old(e.coded), e.coded, tbl, c, k0, n, vals[k])
  {
    e.ArithEncode(Ac(tbl, 3 * k0), false);
    k := EncodeZeros(e, tbl, vals, k0);
    n := k - 1 - k0;
    EncodeValue(e, c, tbl, k, vals[k]);
    RoundIs(old(e.coded), e.coded, tbl, c, k0, n, k, vals[k]);
  }

  /** The nonzero coefficient v at index k. */
  method EncodeValue(e: Encoder, c: Conditioning, tbl: nat, k: nat, v: int)
    requires e.Valid() && k > 0 && v != 0
    modifies e
    ensures Coded(e, AcValue(tbl, c, k, v))
  {
    var st := Ac(tbl, 3 * (k - 1));
    var s1, s2 := st.Plus(1), st.Plus(2);
    assert s2 == Ac(tbl, 3 * k - 1);
    e.ArithEncode(s1, true);
    e.ArithEncode(Fixed, v < 0);
    EncodeAcMagnitude(e, c, tbl, s2, k, Abs(v) - 1);
    AcValueIs(old(e.coded), c, tbl, k, v);
  }

  lemma AcValueIs(before: seq<Decision>, c: Conditioning, tbl: nat, k: nat, v: int)
    requires k > 0 && v != 0
    ensures before + [Decision(Ac(tbl, 3 * (k - 1)).Plus(1), true)] + [Decision(Fixed, v < 0)]
            + AcMagnitude(Ac(tbl, 3 * k - 1), AcX2(tbl, c, k), Abs(v) - 1)
         == before + AcValue(tbl, c, k, v)
  {
    TwoThen(before, Decision(Ac(tbl, 3 * (k - 1)).Plus(1), true), Decision(Fixed, v < 0),
            AcMagnitude(Ac(tbl, 3 * k - 1), AcX2(tbl, c, k), Abs(v) - 1));
  }

  /** The AC coefficients ss to se of a block, in zigzag order and after the point transform: a whole
      block, or the first scan of a band. */
  method EncodeAcCoefficients(e: Encoder, c: Conditioning, tbl: nat, vals: seq<int>, ss: nat, se: nat)
    requires e.Valid()
    requires 1 <= ss <= se && Decodable(vals, se)
    modifies e
    ensures Coded(e, AcCoefficients(tbl, c, vals, ss - 1, se))
    ensures |old(e.coded)| <= |e.coded| && (se < 64 ==> UsesBandBins(e.coded[|old(e.coded)|..], tbl, c, vals, ss, se))
  {
    var ke := EndOfBlock(vals, se);
    var k := ss - 1;
    ghost var k0 := k;
    PassesNone(e.coded, tbl, c, vals, k0, se);
    while k < ke
      invariant k <= se
      invariant e.Valid() && e.prefix == old(e.prefix) && e.origin == old(e.origin)
      invariant Passes(old(e.coded), e.coded, tbl, c, vals, k0, k, se)
      decreases se - k
    {
      ghost var before, k1 := e.coded, k;
      ghost var n;
      k, n := EncodeNextCoefficient(e, c, tbl, vals, k);
      PassesMore(old(e.coded), before, e.coded, tbl, c, vals, k0, k1, n, k, se);
    }
    ZeroFurther(vals, ke, k);
    PassesDone(old(e.coded), e.coded, tbl, c, vals, k0, k, se);
    if k < se {
      e.ArithEncode(Ac(tbl, 3 * k), true);
    }
    BandInBins(old(e.coded), e.coded, tbl, c, vals, ss, se);
  }

  lemma {:induction false} BandInBins(before: seq<Decision>, after: seq<Decision>, tbl: nat, c: Conditioning, vals: seq<int>, ss: nat, se: nat)
    requires 1 <= ss <= se && Decodable(vals, se) && after == before + AcCoefficients(tbl, c, vals, ss - 1, se)
    ensures |before| <= |after| && (se < 64 ==> UsesBandBins(after[|before|..], tbl, c, vals, ss, se))
  {
    assert after[|before|..] == AcCoefficients(tbl, c, vals, ss - 1, se);
    if se < 64 { BandUsesBins(after[|before|..], tbl, c, vals, ss, se); }
  }

  // ----- refinement -----

  /** Largest zigzag index up to ke with a coefficient that was already nonzero, or 0. */
  method PreviousEndOfBlock(vals: seq<int>, ke: nat, ghost se: nat) returns (kex: nat)
    requires ke <= se == |vals| - 1 && ZeroAfter(vals, ke)
    ensures kex <= ke
    ensures forall k :: 0 <= k <= se ==> (k >= kex <==> NewAfter(vals, k))
  {
    kex := ke;
    while kex > 0 && Abs(vals[kex]) / 2 == 0
      invariant kex <= ke && NewAfter(vals, kex)
    {
      kex := kex - 1;
    }
    forall k | 0 <= k < kex ensures !NewAfter(vals, k) {
      assert Abs(vals[kex]) > 1;
    }
  }

  /** The coefficient v at index k: one more bit, or the sign of a new one. */
  method EncodeRefinedValue(e: Encoder, tbl: nat, k: nat, v: int)
    requires e.Valid() && k > 0 && v != 0
    modifies e
    ensures Coded(e, RefinedValue(tbl, k - 1, v))
  {
    var st := Ac(tbl, 3 * (k - 1));
    if Abs(v) / 2 != 0 {
      e.ArithEncode(st.Plus(2), Abs(v) % 2 == 1);
    } else {
      e.ArithEncode(st.Plus(1), true);
      e.ArithEncode(Fixed, v < 0);
    }
  }

  /** The zeros after index k0 and the coefficient that ends them; open says whether the block might
      have ended at k0. */
  method EncodeRefinementRound(e: Encoder, tbl: nat, open: bool, vals: seq<int>, k0: nat) returns (k: nat)
    requires e.Valid() && !ZeroAfter(vals, k0)
    modifies e
    ensures k0 < k < |vals| && vals[k] != 0 && ZerosBetween(vals, k0, k - 1 - k0)
    ensures Coded(e, RefinementRound(tbl, open, k0, k - 1 - k0, vals[k]))
  {
    if open {
      e.ArithEncode(Ac(tbl, 3 * k0), false);
    }
    k := EncodeZeros(e, tbl, vals, k0);
    EncodeRefinedValue(e, tbl, k, vals[k]);
    Regroup(old(e.coded), if open then [Decision(Ac(tbl, 3 * k0), false)] else [], ZeroFlags(tbl, k0, k - 1 - k0),
            RefinedValue(tbl, k - 1, vals[k]));
  }

  /** One more bit of the AC coefficients ss to se of a block, in zigzag order and after the point
      transform of this scan. */
  method EncodeAcRefinement(e: Encoder, tbl: nat, vals: seq<int>, ss: nat, se: nat)
    requires e.Valid()
    requires 1 <= ss <= se == |vals| - 1
    modifies e
    ensures Coded(e, AcRefinement(tbl, vals, ss - 1, se))
    ensures |old(e.coded)| <= |e.coded| && UsesRefinementBins(e.coded[|old(e.coded)|..], tbl, vals, ss, se)
  {
    var ke := EndOfBlock(vals, se);
    var kex := PreviousEndOfBlock(vals, ke, se);
    var k := ss - 1;
    while k < ke
      invariant k <= se
      invariant e.Valid() && e.prefix == old(e.prefix) && e.origin == old(e.origin)
      invariant e.coded + AcRefinement(tbl, vals, k, se) == old(e.coded) + AcRefinement(tbl, vals, ss - 1, se)
      decreases se - k
    {
      ghost var before, k0 := e.coded, k;
      k := EncodeRefinementRound(e, tbl, k >= kex, vals, k);
      RefinementRoundDone(before, e.coded, tbl, vals, k0, k - 1 - k0, se);
    }
    if k < se {
      e.ArithEncode(Ac(tbl, 3 * k), true);
    }
    RefinementInBins(old(e.coded), e.coded, tbl, vals, ss, se);
  }

  lemma {:induction false} RefinementInBins(before: seq<Decision>, after: seq<Decision>, tbl: nat, vals: seq<int>, ss: nat, se: nat)
    requires 1 <= ss <= se == |vals| - 1 && after == before + AcRefinement(tbl, vals, ss - 1, se)
    ensures |before| <= |after| && UsesRefinementBins(after[|before|..], tbl, vals, ss, se)
  {
    assert after[|before|..] == AcRefinement(tbl, vals, ss - 1, se);
    RefinementUsesBins(after[|before|..], tbl, vals, ss, se);
  }
}
