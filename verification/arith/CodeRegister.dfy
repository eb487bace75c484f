/** Arithmetic of the encoder's C register: how the bytes put out so far, the register and the shift
    counter together denote the exact base of the coding interval (section D.1.3 of ITU-T T.81). */
module CodeRegister {
  import opened Powers
  import opened ByteStream
  import opened CodeInterval

  /** The k code bytes decided so far spell the number v; ct shifts are to go until the next byte is
      complete in C; the interval is [low, low + a) in units of 2^-(16 + n). */
  datatype RegisterFields = RegisterFields(v: nat, k: nat, c: nat, a: nat, ct: nat, low: nat, n: nat)

  /** x << (24 - ct): the spacer bits of C start at bit 24 - ct, ct shifts before the byte boundary. */
  function Spaced(x: nat, ct: nat): nat
    requires ct <= 11
  {
    match ct
    case 0 => 0x1000000 * x
    case 1 => 0x800000 * x
    case 2 => 0x400000 * x
    case 3 => 0x200000 * x
    case 4 => 0x100000 * x
    case 5 => 0x80000 * x
    case 6 => 0x40000 * x
    case 7 => 0x20000 * x
    case 8 => 0x10000 * x
    case 9 => 0x8000 * x
    case 10 => 0x4000 * x
    case _ => 0x2000 * x
  }

  lemma {:induction false} SpacedUnits(x: nat, ct: nat) returns (q: nat)
    requires ct <= 11
    ensures 8 * Spaced(x, ct) == q * 0x1_0000
    decreases 11 - ct
  {
    if ct == 11 {
      q := x;
    } else {
      q := SpacedUnits(x, ct + 1);
      q := 2 * q;
    }
  }

  /** The code bytes and C make up the exact base, and C has room for one carry and its spacer bits. */
  ghost predicate Denotes(r: RegisterFields) {
    && r.ct <= 11 && 0 < r.a <= 0x1_0000
    && forall k {:trigger Key(k)} :: Key(k) ==>
         && r.c + r.a <= Spaced(9, r.ct)
         && r.low == 8 * Spaced(r.v, r.ct) + r.c
         && 16 + r.n == 8 * r.k + 27 - r.ct
         && r.low + r.a <= 8 * Spaced(Pow2(8 * r.k), r.ct)
  }

  lemma StartDenotes(r: RegisterFields)
    requires r == RegisterFields(0, 0, 0, 0x1_0000, 11, 0, 0)
    ensures Denotes(r)
  {
  }

  type Register = r: RegisterFields | Denotes(r)
    ghost witness (var r := RegisterFields(0, 0, 0, 0x1_0000, 11, 0, 0); StartDenotes(r); r)

  /** C never needs more than 28 bits of its 32-bit variable, also once it is shifted to the byte
      boundary. */
  lemma RegisterBound(r: Register)
    ensures r.c < 0x1000_0000 && Shl(r.c, r.ct) < 0x1000_0000
  {
    assert Key(0);
    SpacedBound(r.c, r.ct);
    ShlAtLeast(r.c, r.ct);
  }

  lemma {:induction false} SpacedBound(c: nat, ct: nat)
    requires ct <= 11 && c < Spaced(9, ct)
    ensures Shl(c, ct) < 0x900_0000
    decreases ct
  {
    if ct > 0 {
      ShlInside(c, ct - 1);
      SpacedBound(2 * c, ct - 1);
    }
  }

  /** The register at the start of a segment. */
  lemma Start(s: RegisterFields) returns (r: Register)
    requires s == RegisterFields(0, 0, 0, 0x1_0000, 11, 0, 0)
    ensures r == s
  {
    StartDenotes(s);
    r := s;
  }

  /** One doubling of the resolution. */
  ghost function Shifted(r: Register): (s: Register)
    requires 0 < r.ct && r.a < 0x8000
    ensures s == RegisterFields(r.v, r.k, 2 * r.c, 2 * r.a, r.ct - 1, 2 * r.low, r.n + 1)
  {
    RegisterFields(r.v, r.k, 2 * r.c, 2 * r.a, r.ct - 1, 2 * r.low, r.n + 1)
  }

  /** The part of the interval of the given size that starts at an offset from its base. */
  ghost function Narrowed(r: Register, offset: nat, size: nat): (s: Register)
    requires 0 < size && offset + size <= r.a
    ensures s == RegisterFields(r.v, r.k, r.c + offset, size, r.ct, r.low + offset, r.n)
  {
    RegisterFields(r.v, r.k, r.c + offset, size, r.ct, r.low + offset, r.n)
  }

  /** Bits 19 and up of C move into the code bytes. The byte after a carry is below 0x20. */
  ghost function WithByte(r: Register): (s: Register)
    requires r.ct == 0
    ensures r.c / 0x8_0000 < 0x120
    ensures s == RegisterFields(r.v * 0x100 + r.c / 0x8_0000, r.k + 1, r.c % 0x8_0000, r.a, 8, r.low, r.n)
  {
    var s := RegisterFields(r.v * 0x100 + r.c / 0x8_0000, r.k + 1, r.c % 0x8_0000, r.a, 8, r.low, r.n);
    ByteDenotes(r, s);
    s
  }

  lemma ByteDenotes(r: Register, s: RegisterFields)
    requires r.ct == 0 && s.ct == 8 && s.a == r.a && s.low == r.low && s.n == r.n
    requires s.v == r.v * 0x100 + r.c / 0x8_0000 && s.k == r.k + 1 && s.c == r.c % 0x8_0000
    ensures Denotes(s)
    ensures r.c / 0x8_0000 < 0x120
  {
    assert Key(0);
    ByteSplit(r.v, r.c);
    PowByte(r.k);
  }

  lemma CarryIsOne(r: Register)
    requires r.ct == 0
    ensures r.c / 0x800_0000 <= 1
    ensures r.c / 0x800_0000 != 0 ==> r.c / 0x8_0000 > 0xFF
  {
    assert Key(0);
  }

  lemma ByteSplit(v: nat, c: nat)
    ensures v * 0x800_0000 + c == (v * 0x100 + c / 0x8_0000) * 0x8_0000 + c % 0x8_0000
  {
  }

  /** The interval ends at one, so code bytes that are all 0xFF never see a carry. */
  lemma NoCarryIntoOnes(p: seq<byte>, sc: nat, r: Register)
    requires p == Repeat(0xFF, sc) && r.v == Value(p) && r.k == |p| && r.ct == 0
    ensures r.c / 0x8_0000 <= 0xFF
  {
    assert Key(0);
    AllOnesValue(sc);
  }

  // ----- the code point at the end of a segment -----

  /** The code point as the register sees it. */
  ghost function AtPoint(r: Register, s: Coder, c: nat): (p: Register)
    requires 0x8000 <= r.a && s.low == r.low && s.a == r.a && s.n == r.n
    requires var t := (r.a - 1 + r.c) / 0x1_0000 * 0x1_0000; c == if t < r.c then t + 0x8000 else t
    ensures p.c == c && p.low == CodePoint(s) && p.a == 1
    ensures p.v == r.v && p.k == r.k && p.ct == r.ct && p.n == r.n
    ensures c % 0x8000 == 0
  {
    assert Key(0);
    RegisterOffset(r.v, r.ct, s, r.c, c);
    Narrowed(r, c - r.c, 1)
  }

  lemma RegisterOffset(v: nat, ct: nat, s: Coder, c0: nat, c: nat)
    requires ct <= 11 && 0x8000 <= s.a <= 0x1_0000 && s.low == 8 * Spaced(v, ct) + c0
    requires var t := (s.a - 1 + c0) / 0x1_0000 * 0x1_0000; c == if t < c0 then t + 0x8000 else t
    ensures CodePoint(s) == s.low - c0 + c
    ensures c % 0x8000 == 0 && c0 <= c < c0 + s.a
  {
    var q := SpacedUnits(v, ct);
    PointOffset(s, q, c0, c);
  }

  lemma PointOffset(s: Coder, q: nat, c0: nat, c: nat)
    requires 0x8000 <= s.a <= 0x1_0000 && s.low == q * 0x1_0000 + c0
    requires var t := (s.a - 1 + c0) / 0x1_0000 * 0x1_0000; c == if t < c0 then t + 0x8000 else t
    ensures CodePoint(s) == q * 0x1_0000 + c
    ensures c % 0x8000 == 0 && c0 <= c < c0 + s.a
  {
    var y := s.a - 1 + c0;
    var u := y / 0x1_0000;
    AddMultiple(q, y);
    assert (s.low + s.a - 1) / 0x1_0000 == q + u;
    assert u * 0x1_0000 <= y < u * 0x1_0000 + 0x1_0000;
    EvenMultiple(u, c);
  }

  lemma AddMultiple(q: nat, y: nat)
    ensures (q * 0x1_0000 + y) / 0x1_0000 == q + y / 0x1_0000
  {
  }

  lemma EvenMultiple(u: nat, c: nat)
    requires c == u * 0x1_0000 || c == u * 0x1_0000 + 0x8000
    ensures c % 0x8000 == 0
  {
    MultipleMod(2 * u, 0x8000);
    MultipleMod(2 * u + 1, 0x8000);
  }

  /** A short interval moved up to the byte boundary. */
  ghost function ToBoundary(r: Register): (s: Register)
    requires Shl(r.a, r.ct) <= 0x800
    ensures s == RegisterFields(r.v, r.k, Shl(r.c, r.ct), Shl(r.a, r.ct), 0, Shl(r.low, r.ct), r.n + r.ct)
    decreases r.ct
  {
    if r.ct == 0 then r
    else
      ShlGrows(r.a, 0, r.ct);
      ShlInside(r.c, r.ct - 1);
      ShlInside(r.a, r.ct - 1);
      ShlInside(r.low, r.ct - 1);
      ToBoundary(Shifted(r))
  }

  lemma PointShifted(c: nat, ct: nat)
    requires c % 0x8000 == 0
    ensures Shl(c, ct) % 0x800 == 0
  {
    ShlIsProduct(c, ct);
    var q := c / 0x8000;
    assert c * Pow2(ct) == (q * Pow2(ct) * 16) * 0x800;
    MultipleMod(q * Pow2(ct) * 16, 0x800);
  }

  /** If the code bytes written, with the zeros that were dropped, are the known bytes followed by
      the two bytes in C, then they spell the code point. */
  lemma Conclude(data: seq<byte>, z: nat, known: seq<byte>, r: Register, x: nat, ct: nat, n: nat)
    requires r.ct == 0 && r.low == Shl(x, ct) && r.n == n + ct && r.c % 0x800 == 0 && r.k == |known|
    requires Value(known) == r.v + r.c / 0x800_0000
    requires data + Repeat(0, z) == known + [r.c / 0x8_0000 % 0x100, r.c / 0x800 % 0x100]
    ensures Value(data) * Pow2(16 + n) == x * Pow2(8 * |data|)
  {
    SpelledBytes(known, r);
    assert 16 + r.n == 8 * r.k + 27 - r.ct by { assert Key(0); }
    var w := Value(data + Repeat(0, z));
    ShlIsProduct(w, 11);
    PowerValues();
    assert Shl(w, 11) == Shl(x, ct);
    TrailingZerosValue(data, z);
    ShlIsProduct(Value(data), 8 * z);
    assert |data + Repeat(0, z)| == |known| + 2;
    ScaleUp(Value(data), 8 * |data|, 8 * z, 11, x, ct, 16 + n);
    ShlIsProduct(Value(data), 16 + n);
    ShlIsProduct(x, 8 * |data|);
  }

  lemma SpelledBytes(known: seq<byte>, r: Register)
    requires r.ct == 0 && r.c % 0x800 == 0
    requires Value(known) == r.v + r.c / 0x800_0000
    ensures Value(known + [r.c / 0x8_0000 % 0x100, r.c / 0x800 % 0x100]) * 0x800 == r.low
  {
    assert Key(0);
    var b1, b2 := r.c / 0x8_0000 % 0x100, r.c / 0x800 % 0x100;
    assert known + [b1, b2] == (known + [b1]) + [b2];
    ValueAppend(known, b1);
    ValueAppend(known + [b1], b2);
    SplitRegister(r.c);
  }

  lemma ScaleUp(y: nat, d: nat, z: nat, e: nat, x: nat, ct: nat, f: nat)
    requires Shl(Shl(y, z), e) == Shl(x, ct)
    requires f + ct == d + z + e
    ensures Shl(y, f) == Shl(x, d)
  {
    var t, u := f + ct, z + e + f;
    ShlThrice(y, z, e, f, u);
    ShlThrice(y, f, z, e, u);
    ShlThrice(x, ct, f, 0, t);
    ShlThrice(x, d, z, e, t);
    ShlInjective(Shl(Shl(y, f), z), Shl(Shl(x, d), z), e);
    ShlInjective(Shl(y, f), Shl(x, d), z);
  }

  lemma ShlThrice(x: nat, k: nat, m: nat, n: nat, t: nat)
    requires t == k + m + n
    ensures Shl(Shl(Shl(x, k), m), n) == Shl(x, t)
  {
    ShlTwice(x, k, m);
    ShlTwice(x, k + m, n);
  }

  lemma SplitRegister(c: nat)
    requires c % 0x800 == 0
    ensures c == c / 0x800_0000 * 0x800_0000 + c / 0x8_0000 % 0x100 * 0x8_0000 + c / 0x800 % 0x100 * 0x800
  {
    var q := c / 0x800;
    assert c / 0x8_0000 == q / 0x100 && c / 0x800_0000 == q / 0x1_0000;
  }
}
