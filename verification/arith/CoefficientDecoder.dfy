/** Decoding of quantized coefficients with the arithmetic decoder. Whatever the data, the decisions
    read are those that code what is returned. */
module CoefficientDecoder {
  import opened Powers
  import opened CodeInterval
  import opened CoefficientModel
  import opened CoefficientBins
  import opened CoefficientReading
  import opened BandReading
  import opened ArithDecoder

  /** The decoder has read exactly the decisions ds since the old state. */
  twostate predicate Read(d: Decoder, ds: seq<Decision>)
    reads d
  {
    && d.Valid() && d.seg == old(d.seg) && d.origin == old(d.origin)
    && d.decoded == old(d.decoded) + ds
  }

  /** Magnitude category: m doubles at each one decision. It fails when m reaches 0x8000. */
  method DecodeCategory(d: Decoder, bin: Bin, m0: nat, ghost p0: nat)
    returns (ok: bool, m: nat, st: Bin, ghost k: nat)
    requires d.Valid() && p0 <= 14 && m0 == Pow2(p0)
    modifies d
    ensures m == Pow2(p0 + k) && st == bin.Plus(k)
    ensures ok ==> p0 + k <= 14 && Read(d, Unary(bin, k))
    ensures !ok ==> p0 + k == 15 && Read(d, Ones(bin, k))
  {
    m, st, k := m0, bin, 0;
    while true
      invariant p0 + k <= 14 && m == Pow2(p0 + k) && st == bin.Plus(k)
      invariant Read(d, Ones(bin, k))
      decreases 14 - k
    {
      var bit := d.ArithDecode(st);
      if !bit {
        return true, m, st, k;
      }
      OneMore(bin, k);
      CategoryDoubled(m, p0 + k, p0 + (k + 1));
      m, st, k := 2 * m, st.Plus(1), k + 1;
      if m == 0x8000 {
        return false, m, st, k;
      }
    }
  }

  /** The magnitude bits below m0, highest first. */
  method DecodePattern(d: Decoder, st: Bin, m0: nat, ghost k: nat) returns (v: nat)
    requires d.Valid() && m0 == Pow2(k)
    modifies d
    ensures m0 <= v < 2 * m0 && Read(d, Pattern(st, v, k))
  {
    v := m0;
    var m: nat := m0 / 2;
    ghost var got, left: nat := [], k;
    NothingRead(st, v, k);
    while m != 0
      invariant PartlyRead(got, st, v, m, k, left) && Read(d, got)
    {
      ghost var bit;
      v, bit := DecodePatternBit(d, st, v, m, got, k, left);
      Associate(old(d.decoded), got, [Decision(st, bit)]);
      got, left := got + [Decision(st, bit)], left - 1;
      m := m / 2;
    }
    AllRead(got, st, v, k, left);
  }

  /** One bit of a magnitude. */
  method DecodePatternBit(d: Decoder, st: Bin, v: nat, m: nat, ghost got: seq<Decision>, ghost k: nat, ghost left: nat)
    returns (v2: nat, ghost bit: bool)
    requires d.Valid() && PartlyRead(got, st, v, m, k, left) && m != 0
    modifies d
    ensures Read(d, [Decision(st, bit)])
    ensures left > 0 && PartlyRead(got + [Decision(st, bit)], st, v2, m / 2, k, left - 1)
  {
    var b := d.ArithDecode(st);
    bit := b;
    OneMoreRead(got, st, v, m, k, left, bit);
    v2 := if b then v + m else v;
  }

  /** What is read of a magnitude w of category k, from category p0 on; m is the category as a power of
      two. It fails in category 15. */
  ghost predicate MagnitudeRead(bin: Bin, p0: nat, ok: bool, w: nat, m: nat, k: nat, code: seq<Decision>) {
    forall i {:trigger Key(i)} :: Key(i) ==>
      && p0 <= k
      && if ok then
           && 0 < w < 0x8000 && Category(w) == k && m == Pow2(k)
           && code == Unary(bin, k - p0) + Pattern(bin.Plus(k - p0 + 14), w, k)
         else k == 15 && code == Ones(bin, k - p0)
  }

  lemma MagnitudeDone(bin: Bin, p0: nat, w: nat, m: nat, n: nat)
    requires p0 + n <= 14 && m == Pow2(p0 + n) && m <= w < 2 * m
    ensures MagnitudeRead(bin, p0, true, w, m, p0 + n, Unary(bin, n) + Pattern(bin.Plus(n).Plus(14), w, p0 + n))
  {
    MagnitudeIs(w, m, p0 + n);
  }

  lemma MagnitudeTooLarge(bin: Bin, p0: nat, w: nat, m: nat, n: nat)
    requires p0 + n == 15
    ensures MagnitudeRead(bin, p0, false, w, m, p0 + n, Ones(bin, n))
  {
  }

  /** Category and bits of a magnitude of category at least p0. */
  method DecodeMagnitude(d: Decoder, bin: Bin, m0: nat, ghost p0: nat)
    returns (ok: bool, w: nat, m: nat, ghost k: nat, ghost code: seq<Decision>)
    requires d.Valid() && p0 <= 14 && m0 == Pow2(p0)
    modifies d
    ensures Read(d, code) && MagnitudeRead(bin, p0, ok, w, m, k, code)
  {
    var st;
    w := 0;
    ghost var n;
    ok, m, st, n := DecodeCategory(d, bin, m0, p0);
    k := p0 + n;
    if ok {
      w := DecodePattern(d, st.Plus(14), m, k);
      code := Unary(bin, n) + Pattern(st.Plus(14), w, k);
      Associate(old(d.decoded), Unary(bin, n), Pattern(st.Plus(14), w, k));
      MagnitudeDone(bin, p0, w, m, n);
    } else {
      code := Ones(bin, n);
      MagnitudeTooLarge(bin, p0, w, m, n);
    }
  }

  /** What is read of the magnitude w = |v| - 1 of a DC difference. */
  ghost predicate DcMagnitudeRead(tbl: nat, s0: Bin, ok: bool, w: nat, m: nat, code: seq<Decision>) {
    forall i {:trigger Key(i)} :: Key(i) ==>
      if ok then w < 0x8000 && code == DcMagnitude(s0, Dc(tbl, 20), w) && m == (if w == 0 then 0 else Pow2(Category(w)))
      else code == [Decision(s0, true)] + Ones(Dc(tbl, 20), 15)
  }

  lemma DcMagnitudeZero(tbl: nat, s0: Bin)
    ensures DcMagnitudeRead(tbl, s0, true, 0, 0, [Decision(s0, false)])
  {
  }

  lemma DcMagnitudeDone(tbl: nat, s0: Bin, p0: nat, ok: bool, w: nat, m: nat, k: nat, code: seq<Decision>)
    requires MagnitudeRead(Dc(tbl, 20), p0, ok, w, m, k, code) && p0 == 0
    ensures DcMagnitudeRead(tbl, s0, ok, w, m, [Decision(s0, true)] + code)
  {
    assert Key(0);
  }

  /** Magnitude w = |v| - 1 of a DC difference and its category as a power of two, 0 for w = 0. */
  method DecodeDcMagnitude(d: Decoder, tbl: nat, s0: Bin) returns (ok: bool, w: nat, m: nat, ghost code: seq<Decision>)
    requires d.Valid()
    modifies d
    ensures Read(d, code) && DcMagnitudeRead(tbl, s0, ok, w, m, code)
  {
    ghost var p0, k := 0, 0;
    var more := d.ArithDecode(s0);
    if !more {
      DcMagnitudeZero(tbl, s0);
      return true, 0, 0, [Decision(s0, false)];
    }
    ok, w, m, k, code := DecodeMagnitude(d, Dc(tbl, 20), 1, p0);
    DcMagnitudeDone(tbl, s0, p0, ok, w, m, k, code);
    Associate(old(d.decoded), [Decision(s0, true)], code);
    code := [Decision(s0, true)] + code;
  }

  lemma AcMagnitudeDone(c: Conditioning, tbl: nat, k: nat, p0: nat, ok: bool, w: nat, m: nat, n: nat, code: seq<Decision>)
    requires k > 0 && MagnitudeRead(AcX2(tbl, c, k), p0, ok, w, m, n, code) && p0 == 1
    ensures var s0 := Ac(tbl, 3 * k - 1);
      if ok then w < 0x8000 && [Decision(s0, true), Decision(s0, true)] + code == AcMagnitude(s0, AcX2(tbl, c, k), w)
      else [Decision(s0, true), Decision(s0, true)] + code == AcOverflow(tbl, c, k)
  {
    assert Key(0);
    if ok {
      assert w >= Pow2(n) && n >= 1;
      assert Pow2(n) == 2 * Pow2(n - 1);
    }
  }

  /** Magnitude w = |v| - 1 of the AC coefficient at index k. */
  method DecodeAcMagnitude(d: Decoder, c: Conditioning, tbl: nat, k: nat) returns (ok: bool, w: nat)
    requires d.Valid() && k > 0
    modifies d
    ensures ok ==> w < 0x8000 && Read(d, AcMagnitude(Ac(tbl, 3 * k - 1), AcX2(tbl, c, k), w))
    ensures !ok ==> Read(d, AcOverflow(tbl, c, k))
  {
    var s0, x2 := Ac(tbl, 3 * k - 1), Ac(tbl, if k <= c.acK then 189 else 217);
    w := 0;
    var more := d.ArithDecode(s0);
    if !more {
      return true, 0;
    }
    more := d.ArithDecode(s0);
    if !more {
      return true, 1;
    }
    var m;
    ghost var n, code;
    ok, w, m, n, code := DecodeMagnitude(d, x2, 2, 1);
    AcMagnitudeDone(c, tbl, k, 1, ok, w, m, n, code);
    TwoThen(old(d.decoded), Decision(s0, true), Decision(s0, true), code);
  }

  /** A DC difference that is not zero: its magnitude was read, or was too large. */
  lemma DcDifferenceDone(tbl: nat, context: nat, s0: Bin, sign: bool, ok: bool, w: nat, m: nat, v: int, code: seq<Decision>)
    requires DcMagnitudeRead(tbl, s0, ok, w, m, code) && s0 == Dc(tbl, context + (if sign then 3 else 2))
    requires Abs(v) == (if ok then w + 1 else 0x8001) && (v < 0 <==> sign)
    ensures [Decision(Dc(tbl, context), true)] + ([Decision(Dc(tbl, context + 1), sign)] + code) == DcRead(tbl, context, v)
    ensures ok <==> Abs(v) <= 0x8000
    ensures ok ==> v != 0 && m == CategoryBit(v)
  {
    DcReadIs(tbl, context, v);
    assert Key(0);
    var head := [Decision(Dc(tbl, context), true), Decision(Dc(tbl, context + 1), sign)];
    assert head == [head[0]] + [head[1]];
    Associate([head[0]], [head[1]], code);
    if !ok {
      Associate(head, [Decision(s0, true)], Ones(Dc(tbl, 20), 15));
    }
  }

  lemma DcDifferenceZero(c: Conditioning, tbl: nat, context: nat)
    ensures DcDifferenceRead(c, tbl, context, true, 0, 0, [Decision(Dc(tbl, context), false)])
  {
    DcReadIs(tbl, context, 0);
  }

  lemma DcDifferenceIsRead(c: Conditioning, tbl: nat, context: nat, ok: bool, v: int, next: nat, code: seq<Decision>)
    requires (ok <==> Abs(v) <= 0x8000) && code == DcRead(tbl, context, v)
    requires ok ==> next == DcContext(c, v)
    ensures DcDifferenceRead(c, tbl, context, ok, v, next, code)
  {
  }

  /** The sign and the magnitude of a DC difference that is not zero. */
  method DecodeNonzeroDc(d: Decoder, tbl: nat, context: nat)
    returns (ok: bool, v: int, m: nat, ghost code: seq<Decision>)
    requires d.Valid()
    modifies d
    ensures Read(d, code) && [Decision(Dc(tbl, context), true)] + code == DcRead(tbl, context, v)
    ensures (ok <==> Abs(v) <= 0x8000) && (ok ==> v != 0 && m == CategoryBit(v))
  {
    var sign := d.ArithDecode(Dc(tbl, context + 1));
    var st := Dc(tbl, context + (if sign then 3 else 2));
    var w;
    ok, w, m, code := DecodeDcMagnitude(d, tbl, st);
    v := if ok then w + 1 else 0x8001;
    if sign {
      v := -v;
    }
    DcDifferenceDone(tbl, context, st, sign, ok, w, m, v, code);
    Associate(old(d.decoded), [Decision(Dc(tbl, context + 1), sign)], code);
    code := [Decision(Dc(tbl, context + 1), sign)] + code;
  }

  /** A DC difference v under the context of the previous one, and the next context. */
  method DecodeDcDifference(d: Decoder, c: Conditioning, tbl: nat, context: nat)
    returns (ok: bool, v: int, next: nat, ghost code: seq<Decision>)
    requires d.Valid()
    modifies d
    ensures Read(d, code) && DcDifferenceRead(c, tbl, context, ok, v, next, code)
    ensures ok ==> next == ContextFor(c, v) && (context <= 16 ==> UsesDcBins(code, tbl, context, v))
  {
    var nonzero := d.ArithDecode(Dc(tbl, context));
    if !nonzero {
      DcDifferenceZero(c, tbl, context);
      DifferenceInBins(c, tbl, context, true, 0, 0, [Decision(Dc(tbl, context), false)]);
      return true, 0, 0, [Decision(Dc(tbl, context), false)];
    }
    var m;
    ok, v, m, code := DecodeNonzeroDc(d, tbl, context);
    Associate(old(d.decoded), [Decision(Dc(tbl, context), true)], code);
    code := [Decision(Dc(tbl, context), true)] + code;
    next := 0;
    if ok {
      next := ContextOf(c, v, m);
    }
    DcDifferenceIsRead(c, tbl, context, ok, v, next, code);
    DifferenceInBins(c, tbl, context, ok, v, next, code);
  }

  lemma {:induction false} DifferenceInBins(c: Conditioning, tbl: nat, context: nat, ok: bool, v: int, next: nat, code: seq<Decision>)
    requires DcDifferenceRead(c, tbl, context, ok, v, next, code)
    ensures ok ==> next == ContextFor(c, v) && (context <= 16 ==> UsesDcBins(code, tbl, context, v))
  {
    if ok {
      assert Abs(v) <= 0x8000 && code == DcRead(tbl, context, v) && next == DcContext(c, v) by { assert Key(0); }
      DcReadIs(tbl, context, v);
      ContextBounds(c, v);
      if context <= 16 { DifferenceUsesBins(code, tbl, context, v); }
    }
  }

  /** The next DC context, from the sign and the category of a nonzero difference. */
  method ContextOf(c: Conditioning, v: int, m: nat) returns (next: nat)
    requires v != 0 && m == CategoryBit(v)
    ensures next == DcContext(c, v)
  {
    if m < Pow2(c.dcL) / 2 {
      next := 0;
    } else if m > Pow2(c.dcU) / 2 {
      next := if v > 0 then 12 else 16;
    } else {
      next := if v > 0 then 4 else 8;
    }
  }

  // ----- AC coefficients -----

  /** The zeros after index k0, up to the coefficient at index k; fails when they leave the band. */
  method DecodeZeros(d: Decoder, tbl: nat, k0: nat, se: nat) returns (ok: bool, k: nat)
    requires d.Valid() && k0 < se
    modifies d
    ensures k0 < k <= se
    ensures ok ==> Read(d, ZeroFlags(tbl, k0, k - 1 - k0) + [Decision(Ac(tbl, 3 * (k - 1) + 1), true)])
    ensures !ok ==> Read(d, ZeroFlags(tbl, k0, se - k0))
  {
    k := k0;
    var st := Ac(tbl, 3 * k0);
    while true
      invariant k0 <= k < se && st == Ac(tbl, 3 * k)
      invariant Read(d, ZeroFlags(tbl, k0, k - k0))
      decreases se - k
    {
      k := k + 1;
      var s1 := st.Plus(1);
      var nonzero := d.ArithDecode(s1);
      if nonzero {
        return true, k;
      }
      st := st.Plus(3);
      if k >= se {
        return false, k;
      }
    }
  }

  /** Sign and magnitude of the coefficient at index k. */
  method DecodeValue(d: Decoder, b: Band, k: nat) returns (ok: bool, v: int)
    requires d.Valid() && k > 0
    modifies d
    ensures v != 0 && (ok <==> Abs(v) <= 0x8000)
    ensures Read(d, [Decision(Fixed, v < 0)] + ValueTail(b, k, v))
  {
    var sign := d.ArithDecode(Fixed);
    var w;
    ok, w := DecodeAcMagnitude(d, b.c, b.tbl, k);
    v := if !ok then 0x8001 else w + 1;
    if sign {
      v := -v;
    }
    Associate(old(d.decoded), [Decision(Fixed, sign)], ValueTail(b, k, v));
  }

  /** The zeros after index k0 and the coefficient that ends them. */
  method DecodeNextCoefficient(d: Decoder, b: Band, k0: nat, ghost got: seq<int>) returns (r: Round, ghost bad: seq<int>)
    requires d.Valid() && |got| == k0 + 1 <= b.se
    modifies d
    ensures d.Valid() && d.seg == old(d.seg) && d.origin == old(d.origin)
    ensures RunRead(b, old(d.decoded), d.decoded, got, r, bad)
    ensures !r.EndOfBlock? && (r.Coefficient? ==> k0 < r.k <= b.se)
  {
    var ok, k := DecodeZeros(d, b.tbl, k0, b.se);
    if !ok {
      SpectralOverflowRead(b, old(d.decoded), d.decoded, got, b.se - k0);
      return Overflow, Zeros(b.se - k0) + [1];
    }
    var v;
    ok, v := DecodeValue(d, b, k);
    ValueRead(b, old(d.decoded), d.decoded, got, k, v, ValueTail(b, k, v));
    return if ok then Coefficient(k, v) else Overflow, Zeros(k - |got|) + [v] + Zeros(b.se - k);
  }

  /** The end of the block after index k0, or one more coefficient. */
  method DecodeRound(d: Decoder, b: Band, k0: nat, ghost got: seq<int>) returns (r: Round, ghost bad: seq<int>)
    requires d.Valid() && |got| == k0 + 1 <= b.se
    modifies d
    ensures d.Valid() && d.seg == old(d.seg) && d.origin == old(d.origin)
    ensures RoundRead(b, old(d.decoded), d.decoded, got, r, bad)
    ensures r.Coefficient? ==> k0 < r.k <= b.se
  {
    bad := [];
    var end := d.ArithDecode(Ac(b.tbl, 3 * k0));
    if end {
      return EndOfBlock, [];
    }
    ghost var mid := d.decoded;
    r, bad := DecodeNextCoefficient(d, b, k0, got);
    RunIsRound(b, old(d.decoded), mid, d.decoded, got, r, bad);
  }

  /** Where the coefficient at zigzag index k is stored. */
  method Position(b: Band, k: nat, block: array<int>) returns (p: nat)
    requires Fits(b, block.Length) && k <= b.se
    ensures k <= b.se < |b.order| && p == b.order[k] < block.Length
  {
    assert Key(0);
    p := b.order[k];
  }

  /** One round of a band: either it is done, or one more coefficient is stored. */
  method DecodeBandRound(d: Decoder, b: Band, block: array<int>, k0: nat,
                         ghost before: seq<Decision>, ghost got: seq<int>, ghost blk0: seq<int>)
    returns (done: bool, ok: bool, k: nat, ghost vals: seq<int>)
    requires d.Valid() && Fits(b, block.Length) && |got| == k0 + 1 <= b.se
    requires BandRead(b, before, d.decoded, got, blk0, block[..])
    modifies d, block
    ensures d.Valid() && d.seg == old(d.seg) && d.origin == old(d.origin)
    ensures done ==> BandDone(b, before, d.decoded, ok, vals, blk0, block[..])
    ensures !done ==> ok && k0 < k <= b.se && |vals| == k + 1 && BandRead(b, before, d.decoded, vals, blk0, block[..])
  {
    var r;
    ghost var bad;
    r, bad := DecodeRound(d, b, k0, got);
    match r
    case EndOfBlock =>
      done, ok, k, vals := true, true, k0, got + Zeros(b.se + 1 - |got|);
      BandLast(b, before, old(d.decoded), d.decoded, got, r, bad, blk0, block[..]);
    case Overflow =>
      done, ok, k, vals := true, false, k0, got + bad;
      BandLast(b, before, old(d.decoded), d.decoded, got, r, bad, blk0, block[..]);
    case Coefficient(next, v) =>
      done, ok, k, vals := false, true, next, got + Zeros(next - |got|) + [v];
      var p := Position(b, k, block);
      BandNext(b, before, old(d.decoded), d.decoded, got, r, bad, blk0, block[..], p);
      block[p] := Wrap16(v * Pow2(b.al));
  }

  /** The AC coefficients of a band, stored into the block. */
  method DecodeAcCoefficients(d: Decoder, b: Band, block: array<int>) returns (ok: bool, ghost vals: seq<int>)
    requires d.Valid() && Fits(b, block.Length)
    modifies d, block
    ensures d.Valid() && d.seg == old(d.seg) && d.origin == old(d.origin)
    ensures BandDone(b, old(d.decoded), d.decoded, ok, vals, old(block[..]), block[..])
    ensures ok ==> InBandBins(b, old(d.decoded), d.decoded, vals)
  {
    assert 1 <= b.ss <= b.se by { assert Key(0); }
    var done := false;
    vals, ok := Zeros(b.ss), true;
    var k := b.ss - 1;
    BandStart(b, d.decoded, block[..]);
    while !done && k < b.se
      invariant d.Valid() && d.seg == old(d.seg) && d.origin == old(d.origin)
      invariant done ==> BandDone(b, old(d.decoded), d.decoded, ok, vals, old(block[..]), block[..])
      invariant !done ==> |vals| == k + 1 <= b.se + 1 && ok
      invariant !done ==> BandRead(b, old(d.decoded), d.decoded, vals, old(block[..]), block[..])
      decreases !done, b.se - k
    {
      done, ok, k, vals := DecodeBandRound(d, b, block, k, old(d.decoded), vals, old(block[..]));
    }
    if !done {
      BandFull(b, old(d.decoded), d.decoded, vals, old(block[..]), block[..]);
    }
    if ok { BandInBins(b, old(d.decoded), d.decoded, vals, old(block[..]), block[..]); }
  }

  /** What was read behind the decisions before uses the bins as the coefficients vals do. */
  ghost predicate InBandBins(b: Band, before: seq<Decision>, after: seq<Decision>, vals: seq<int>) {
    && |before| <= |after| && 0 < b.ss && b.se < |vals|
    && UsesBandBins(after[|before|..], b.tbl, b.c, vals, b.ss, b.se)
  }

  lemma {:induction false} BandInBins(b: Band, before: seq<Decision>, after: seq<Decision>, vals: seq<int>, blk0: seq<int>, blk: seq<int>)
    requires BandDone(b, before, after, true, vals, blk0, blk)
    ensures InBandBins(b, before, after, vals)
  {
    assert Key(0);
    assert after[|before|..] == AcCoefficients(b.tbl, b.c, vals, b.ss - 1, b.se);
    BandUsesBins(after[|before|..], b.tbl, b.c, vals, b.ss, b.se);
  }
}
