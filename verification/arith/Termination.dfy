/** How a segment ends (section D.1.8 of ITU-T T.81): the code bytes name the point of the final
    interval with the most trailing zeros, and its trailing zero bytes are not written. */
module Termination {
  import opened Powers
  import opened ByteStream
  import opened CodeInterval

  /** The code bytes of the final code point, without trailing zero bytes. */
  predicate IsSegment(data: seq<byte>, s: Coder)
    requires 0x8000 <= s.a <= 0x1_0000
  {
    && Value(data) * Pow2(16 + s.n) == CodePoint(s) * Pow2(8 * |data|)
    && (data != [] ==> data[|data| - 1] != 0)
  }

  lemma SegmentInside(data: seq<byte>, s: Coder)
    requires 0x8000 <= s.a <= 0x1_0000 && IsSegment(data, s)
    ensures Inside(data, s)
  {
    ScaleOrder(s.low, CodePoint(s), Pow2(8 * |data|));
    ScaleOrder(CodePoint(s), s.low + s.a, Pow2(8 * |data|));
  }

  /** The last byte of a segment is not zero, so its code point is no multiple of a further byte. */
  lemma LastByteNeeded(data: seq<byte>)
    requires data != [] && data[|data| - 1] != 0
    ensures Value(data) % 256 != 0
  {
    assert Value(data) == Code(data, |data| - 1) * 256 + data[|data| - 1];
  }

  lemma PadInside(data: seq<byte>, s: Coder, p: nat)
    requires Inside(data, s) && |data| <= p
    ensures s.low * Pow2(8 * p) <= Code(data, p) * Pow2(16 + s.n) < (s.low + s.a) * Pow2(8 * p)
  {
    var q := |data|;
    var w, u := Pow2(8 * q), Pow2(8 * (p - q));
    assert 8 * p == 8 * q + 8 * (p - q);
    Pow2Add(8 * q, 8 * (p - q));
    CodeAfterEnd(data, p);
    var c, v, t := Code(data, p), Value(data), Pow2(16 + s.n);
    assert v * Pow2(8 * p) == (v * u) * w by { Reorder(v, w, u); }
    if c != v * u {
      ScaleOrder(c, v * u, w);
      ScaleOrder(v * u, c, w);
    }
    ScaleOrder(s.low * w, v * t, u);
    ScaleOrder(v * t, (s.low + s.a) * w, u);
    Reorder(s.low, w, u);
    Reorder(s.low + s.a, w, u);
    Reorder(v, t, u);
  }

  /** No shorter byte string decodes to the same decisions. */
  lemma ShortestSegment(data: seq<byte>, other: seq<byte>, s: Coder)
    requires 0x8000 <= s.a <= 0x1_0000 && IsSegment(data, s)
    requires Inside(other, s)
    ensures |data| <= |other|
  {
    if |other| < |data| {
      var p := |data| - 1;
      PadInside(other, s, p);
      LastByteNeeded(data);
      if 8 * p >= 16 + s.n {
        CoarsePoint(Value(data), CodePoint(s), s.n, p);
      } else {
        FinePoint(Value(data), Code(other, p), s, p);
      }
    }
  }

  lemma CoarsePoint(v: nat, x: nat, n: nat, p: nat)
    requires 8 * p >= 16 + n
    requires v * Pow2(16 + n) == x * Pow2(8 * (p + 1))
    ensures v % 256 == 0
  {
    var e := 8 * p - 16 - n;
    Pow2Add(e, 16 + n);
    PowByte(p);
    var t := Pow2(16 + n);
    assert x * Pow2(8 * (p + 1)) == (x * Pow2(e) * 256) * t by {
      calc {
        x * (Pow2(e) * t * 256);
        { Reorder(x, Pow2(e) * t, 256); }
        x * (Pow2(e) * t) * 256;
        { Reorder(x, Pow2(e), t); }
        x * Pow2(e) * t * 256;
        { Reorder(x * Pow2(e), t, 256); }
        x * Pow2(e) * 256 * t;
      }
    }
    CancelFactor(v, x * Pow2(e) * 256, t);
    MultipleMod(x * Pow2(e), 256);
  }

  lemma {:induction false} FinePoint(v: nat, c: nat, s: Coder, p: nat)
    requires 0x8000 <= s.a <= 0x1_0000 && 8 * p < 16 + s.n
    requires s.low * Pow2(8 * p) <= c * Pow2(16 + s.n) < (s.low + s.a) * Pow2(8 * p)
    requires v * Pow2(16 + s.n) == CodePoint(s) * Pow2(8 * (p + 1))
    ensures v % 256 == 0
  {
    var e := 16 + s.n - 8 * p;
    var w, u := Pow2(8 * p), Pow2(e);
    Pow2Add(e, 8 * p);
    CommonFactor(s.low, c, u, s.low + s.a, w);
    MultipleMod(c, u);
    MostTrailingZeros(s, c * u, e);
    PowByte(p);
    ByteFactor(v, CodePoint(s) / u, CodePoint(s), u, w);
    MultipleMod(CodePoint(s) / u, 256);
  }

  lemma CommonFactor(low: nat, c: nat, u: nat, high: nat, w: nat)
    requires w > 0 && low * w <= c * (u * w) < high * w
    ensures low <= c * u < high
  {
    Reorder(c, u, w);
    ScaleOrder(low, c * u, w);
    ScaleOrder(c * u, high, w);
  }

  lemma ByteFactor(v: nat, y: nat, x: nat, u: nat, w: nat)
    requires u > 0 && w > 0 && x == y * u && v * (u * w) == x * (w * 256)
    ensures v == y * 256
  {
    Reorder(v, u, w);
    Reorder(x, w, 256);
    CancelFactor(v * u, x * 256, w);
    Reorder(y, u, 256);
    CancelFactor(v, y * 256, u);
  }

  /** A coder state has only one segment. */
  lemma SegmentUnique(x: seq<byte>, y: seq<byte>, s: Coder)
    requires 0x8000 <= s.a <= 0x1_0000 && IsSegment(x, s) && IsSegment(y, s)
    ensures x == y
  {
    SegmentInside(x, s);
    SegmentInside(y, s);
    ShortestSegment(x, y, s);
    ShortestSegment(y, x, s);
    CancelFactor(Value(x), Value(y), Pow2(16 + s.n));
    SameValue(x, y, |x|);
    assert x == x[..|x|] == y[..|x|] == y;
  }

  lemma {:induction false} SameValue(x: seq<byte>, y: seq<byte>, m: nat)
    requires m <= |x| && m <= |y| && Code(x, m) == Code(y, m)
    ensures x[..m] == y[..m]
  {
    if m > 0 {
      SameValue(x, y, m - 1);
      assert x[..m] == x[..m - 1] + [x[m - 1]];
      assert y[..m] == y[..m - 1] + [y[m - 1]];
    }
  }

  /** The whole arithmetic coder: the segment written for any decisions reads back as those
      decisions, and no shorter code does. */
  lemma SegmentRoundTrip(data: seq<byte>, s: Coder, ds: seq<Decision>)
    requires 0x8000 <= s.a <= 0x1_0000
    requires IsSegment(data, Run(s, ds))
    ensures ReadBits(data, s, Bins(ds)) == Bits(ds)
    ensures forall other :: Inside(other, s) && ReadBits(other, s, Bins(ds)) == Bits(ds) ==> |data| <= |other|
  {
    SegmentInside(data, Run(s, ds));
    RoundTrip(data, s, ds);
    forall other | Inside(other, s) && ReadBits(other, s, Bins(ds)) == Bits(ds)
      ensures |data| <= |other|
    {
      ReadBackOnlyInside(other, s, ds);
      ShortestSegment(data, other, Run(s, ds));
    }
  }

  // ----- the segment as a function of the coder state -----

  function Bytes(v: nat, p: nat): (data: seq<byte>)
    ensures |data| == p
    decreases p
  {
    if p == 0 then [] else Bytes(v / 256, p - 1) + [v % 256]
  }

  function Strip(data: seq<byte>): (r: seq<byte>)
    ensures |r| <= |data| && (r != [] ==> r[|r| - 1] != 0)
  {
    if data != [] && data[|data| - 1] == 0 then Strip(data[..|data| - 1]) else data
  }

  lemma {:induction false} BytesValue(v: nat, p: nat)
    requires v < Pow2(8 * p)
    ensures Value(Bytes(v, p)) == v
    decreases p
  {
    if p > 0 {
      PowByte(p - 1);
      BytesValue(v / 256, p - 1);
      ValueAppend(Bytes(v / 256, p - 1), v % 256);
    }
  }

  lemma {:induction false} StripValue(data: seq<byte>)
    ensures Value(data) * Pow2(8 * |Strip(data)|) == Value(Strip(data)) * Pow2(8 * |data|)
  {
    if data != [] && data[|data| - 1] == 0 {
      var init := data[..|data| - 1];
      assert data == init + [0];
      ValueAppend(init, 0);
      StripValue(init);
      PowByte(|init|);
      var u, w := Pow2(8 * |Strip(data)|), Pow2(8 * |init|);
      assert Value(init) * 256 * u == Value(init) * u * 256 by { Reorder(Value(init), 256, u); }
      assert Value(Strip(data)) * (w * 256) == Value(Strip(data)) * w * 256 by { Reorder(Value(Strip(data)), w, 256); }
    }
  }

  /** The segment of a coder state. */
  function SegmentData(s: Coder): seq<byte>
    requires 0x8000 <= s.a <= 0x1_0000
  {
    var p := (s.n + 23) / 8;
    Strip(Bytes(CodePoint(s) * Pow2(8 * p - 16 - s.n), p))
  }

  lemma {:induction false} SegmentDataIs(s: Coder)
    requires Normal(s)
    ensures IsSegment(SegmentData(s), s)
  {
    var p := (s.n + 23) / 8;
    PointBytes(CodePoint(s), 16 + s.n, p, 8 * p - 16 - s.n);
  }

  /** The number x in units of 2^-t, written with p bytes of which e bits are left over. */
  lemma {:induction false} PointBytes(x: nat, t: nat, p: nat, e: nat)
    requires 8 * p == t + e && x < Pow2(t)
    ensures var data := Strip(Bytes(x * Pow2(e), p)); Value(data) * Pow2(t) == x * Pow2(8 * |data|)
  {
    PowerOfSum(8 * p, t, e);
    ScaleOrder(x, Pow2(t), Pow2(e));
    PaddedSegment(x * Pow2(e), p);
    var data := Strip(Bytes(x * Pow2(e), p));
    PadCancels(Value(data), x, Pow2(t), Pow2(e), Pow2(8 * |data|));
  }

  lemma {:induction false} PaddedSegment(v: nat, p: nat)
    requires v < Pow2(8 * p)
    ensures var data := Strip(Bytes(v, p)); v * Pow2(8 * |data|) == Value(data) * Pow2(8 * p)
  {
    BytesValue(v, p);
    StripValue(Bytes(v, p));
  }

  lemma PadCancels(v: nat, x: nat, t: nat, u: nat, w: nat)
    requires u > 0 && x * u * w == v * (t * u)
    ensures v * t == x * w
  {
    Reorder(v, t, u);
    assert x * u * w == x * w * u by { Reorder(x, u, w); Reorder(x, w, u); }
    CancelFactor(v * t, x * w, u);
  }

  /** Whatever ends a segment as it should has written exactly these bytes. */
  lemma SegmentIsData(data: seq<byte>, s: Coder)
    requires Normal(s) && IsSegment(data, s)
    ensures data == SegmentData(s)
  {
    SegmentDataIs(s);
    SegmentUnique(data, SegmentData(s), s);
  }
}
