/** The symbols of a baseline block and their bits (section F.1.2 of ITU-T T.81): a size category for the
    DC difference, run and size for each other coefficient, then the bits of the value itself. */
module BlockCode {
  import opened Powers
  import opened BitStrings
  import opened CanonicalCode

  const ZRL := 0xF0              // a run of 16 zeros
  const MAX_COEF_BITS := 10

  /** Number of bits of a magnitude. */
  function Nbits(x: nat): nat {
    if x == 0 then 0 else 1 + Nbits(x / 2)
  }

  lemma {:induction false} NbitsRange(x: nat)
    ensures x < Pow2(Nbits(x)) && (x > 0 ==> Pow2(Nbits(x) - 1) <= x)
  {
    if x > 0 {
      NbitsRange(x / 2);
    }
  }

  function Magnitude(v: int): nat {
    if v < 0 then -v else v
  }

  function SizeCategory(v: int): nat {
    Nbits(Magnitude(v))
  }

  /** A Huffman symbol and the value whose bits follow it; the low four bits of the symbol give their
      number, the high ones a run of zeros. */
  datatype Sym = Sym(rs: nat, value: int)

  predicate WellSized(s: Sym) {
    s.rs < TABLE_SIZE && s.rs % 16 == SizeCategory(s.value)
  }

  // ----- the symbols of a block -----

  function DcSymbol(vals: seq<int>, pred: int): Sym
    requires vals != []
  {
    Sym(SizeCategory(vals[0] - pred), vals[0] - pred)
  }

  function Zrls(n: nat): (list: seq<Sym>)
    ensures |list| == n && forall i :: 0 <= i < n ==> list[i] == Sym(ZRL, 0)
  {
    if n == 0 then [] else Zrls(n - 1) + [Sym(ZRL, 0)]
  }

  /** The symbols from coefficient k on, after a run of r zeros. */
  function AcSymbols(vals: seq<int>, k: nat, r: nat): seq<Sym>
    requires k <= |vals|
    decreases |vals| - k
  {
    if k == |vals| then (if r > 0 then [Sym(0, 0)] else [])
    else if vals[k] == 0 then AcSymbols(vals, k + 1, r + 1)
    else Zrls(r / 16) + [Sym(16 * (r % 16) + SizeCategory(vals[k]), vals[k])] + AcSymbols(vals, k + 1, 0)
  }

  /** Values of at most 10 bits, and a difference of at most 11. */
  predicate Fits(vals: seq<int>, pred: int)
    requires vals != []
  {
    && SizeCategory(vals[0] - pred) <= MAX_COEF_BITS + 1
    && FitsFrom(vals, 1)
  }

  predicate FitsFrom(vals: seq<int>, k: nat) {
    forall i :: k <= i < |vals| ==> SizeCategory(vals[i]) <= MAX_COEF_BITS
  }

  // ----- the bits of a symbol -----

  /** Codes and their sizes, by symbol. */
  datatype Codes = Codes(co: seq<nat>, si: seq<nat>)

  ghost predicate IsCodes(t: Codes) {
    && |t.co| == |t.si| == TABLE_SIZE
    && forall k {:trigger Key(k)} :: Key(k) ==>
      forall s :: 0 <= s < TABLE_SIZE ==> t.si[s] <= 16 && (t.si[s] > 0 ==> t.co[s] < Pow2(t.si[s]))
  }

  /** The value itself if positive, the complement of its magnitude if negative. */
  function Complemented(v: int): int {
    if v < 0 then v - 1 else v
  }

  function ValueBits(v: int, size: nat): Bits {
    ToBits(Complemented(v) % Pow2(size), size)
  }

  ghost predicate IsSymBits(t: Codes, s: Sym, w: Bits)
    requires IsCodes(t)
  {
    forall k {:trigger Key(k)} :: Key(k) ==>
      w == if s.rs < TABLE_SIZE then ToBits(t.co[s.rs], t.si[s.rs]) + ValueBits(s.value, s.rs % 16) else []
  }

  /** The code of a symbol and the bits of its value; what they are is only known to proofs that ask. */
  ghost function SymBits(t: Codes, s: Sym): (w: Bits)
    requires IsCodes(t)
    ensures IsSymBits(t, s, w)
  {
    assert IsSymBits(t, s, if s.rs < TABLE_SIZE then ToBits(t.co[s.rs], t.si[s.rs]) + ValueBits(s.value, s.rs % 16) else []);
    var w :| IsSymBits(t, s, w);
    w
  }

  lemma SymBitsAre(t: Codes, s: Sym)
    requires IsCodes(t) && s.rs < TABLE_SIZE
    ensures SymBits(t, s) == ToBits(t.co[s.rs], t.si[s.rs]) + ValueBits(s.value, s.rs % 16)
  {
    assert Key(0);
  }

  ghost function ListBits(t: Codes, list: seq<Sym>): Bits
    requires IsCodes(t)
  {
    if list == [] then [] else SymBits(t, list[0]) + ListBits(t, list[1..])
  }

  lemma Reassociate<T>(x: seq<T>, y: seq<T>, z: seq<T>)
    ensures x + (y + z) == x + y + z
  {
  }

  lemma {:induction false} ListBitsConcat(t: Codes, x: seq<Sym>, y: seq<Sym>)
    requires IsCodes(t)
    ensures ListBits(t, x + y) == ListBits(t, x) + ListBits(t, y)
  {
    if x == [] {
      assert x + y == y;
    } else {
      assert (x + y)[1..] == x[1..] + y && (x + y)[0] == x[0];
      ListBitsConcat(t, x[1..], y);
      Reassociate(SymBits(t, x[0]), ListBits(t, x[1..]), ListBits(t, y));
    }
  }

  ghost function BlockBits(dc: Codes, ac: Codes, vals: seq<int>, pred: int): Bits
    requires IsCodes(dc) && IsCodes(ac) && vals != []
  {
    SymBits(dc, DcSymbol(vals, pred)) + ListBits(ac, AcSymbols(vals, 1, 0))
  }

  predicate HasCode(t: Codes, s: Sym) {
    s.rs < |t.si| && t.si[s.rs] > 0
  }

  predicate AllCoded(t: Codes, list: seq<Sym>) {
    forall s :: s in list ==> HasCode(t, s)
  }

  /** All values are in range and all symbols have codes. */
  predicate BlockEncodable(dc: Codes, ac: Codes, vals: seq<int>, pred: int)
    requires vals != []
  {
    Fits(vals, pred) && BlockCoded(dc, ac, vals, pred)
  }

  /** Every symbol of the block has a code. */
  predicate BlockCoded(dc: Codes, ac: Codes, vals: seq<int>, pred: int)
    requires vals != []
  {
    HasCode(dc, DcSymbol(vals, pred)) && AllCoded(ac, AcSymbols(vals, 1, 0))
  }

  // ----- reading a value back -----

  /** The value of size bits (EXTEND of section F.2.2.1). */
  function Extend(x: nat, size: nat): int {
    if size > 0 && x < Pow2(size - 1) then x - Pow2(size) + 1 else x
  }

  lemma {:induction false} ValueBack(v: int, size: nat)
    requires size == SizeCategory(v)
    ensures Extend(Complemented(v) % Pow2(size), size) == v
  {
    NbitsRange(Magnitude(v));
    if size > 0 {
      assert Pow2(size) == 2 * Pow2(size - 1);
    }
    SmallMod(Complemented(v), Pow2(size));
  }
}
