/** Reading symbols of a canonical code bit by bit: DECODE, RECEIVE and EXTEND (section F.2.2 of
    ITU-T T.81). The reference that decoding by table is measured against. */
module CodeReading {
  import opened Powers
  import opened BitStrings
  import opened CanonicalCode
  import opened DerivedTable
  import opened BlockCode

  /** A run of zeros, the value after it, and the number of bits they took. */
  datatype Reading = Reading(run: nat, value: int, len: nat) | NoCode

  /** The first length from l on at which the bits are a code; |bits| if there is none. */
  function CodeLength(bits: seq<nat>, w: Bits, pos: nat, l: nat): (r: nat)
    requires 1 <= l <= |bits|
    ensures l <= r <= |bits| && (r < |bits| ==> Window(w, pos, r) < End(bits, r))
    ensures forall m :: l <= m < r ==> Window(w, pos, m) >= End(bits, m)
    decreases |bits| - l
  {
    if l == |bits| || Window(w, pos, l) < End(bits, l) then l else CodeLength(bits, w, pos, l + 1)
  }

  lemma {:induction false} LengthIs(bits: seq<nat>, w: Bits, pos: nat, l: nat, r: nat)
    requires 1 <= l <= r <= |bits| && (r < |bits| ==> Window(w, pos, r) < End(bits, r))
    requires forall m :: l <= m < r ==> Window(w, pos, m) >= End(bits, m)
    ensures CodeLength(bits, w, pos, l) == r
    decreases r - l
  {
    if l < r {
      LengthIs(bits, w, pos, l + 1, r);
    }
  }

  /** Where the symbol of the code is listed. */
  function Position(bits: seq<nat>, w: Bits, pos: nat, l: nat): (p: nat)
    requires 1 <= l < |bits| && Window(w, pos, l) < End(bits, l)
    requires forall m :: 1 <= m < l ==> Window(w, pos, m) >= End(bits, m)
    ensures Placed(bits, p, l) && p < Total(bits)
  {
    assert Window(w, pos, l) == 2 * Window(w, pos, l - 1) + BitAt(w, pos + l - 1);
    var p := Before(bits, l) + Window(w, pos, l) - First(bits, l);
    PlacedSize(bits, p, l);
    p
  }

  /** The symbol at a position: run and value, and how many bits they take. */
  ghost predicate IsReading(t: HuffTable, w: Bits, pos: nat, r: Reading)
    requires IsTable(t) && Total(t.bits) <= TABLE_SIZE
  {
    forall k {:trigger Key(k)} :: Key(k) ==> r == ReadAfter(t, w, pos, CodeLength(t.bits, w, pos, 1))
  }

  function ReadAfter(t: HuffTable, w: Bits, pos: nat, l: nat): Reading
    requires IsTable(t) && Total(t.bits) <= TABLE_SIZE && l == CodeLength(t.bits, w, pos, 1)
  {
    if l == |t.bits| then NoCode
    else
      var rs := t.huffval[Position(t.bits, w, pos, l)];
      Reading(rs / 16, Extend(Window(w, pos + l, rs % 16), rs % 16), l + rs % 16)
  }

  /** Decoding bit by bit; how is only known to proofs that ask. */
  ghost function ReadSymbol(t: HuffTable, w: Bits, pos: nat): (r: Reading)
    requires IsTable(t) && Total(t.bits) <= TABLE_SIZE
    ensures IsReading(t, w, pos, r)
  {
    assert IsReading(t, w, pos, ReadAfter(t, w, pos, CodeLength(t.bits, w, pos, 1)));
    var r :| IsReading(t, w, pos, r);
    r
  }

  lemma ReadingAt(t: HuffTable, w: Bits, pos: nat, l: nat)
    requires IsTable(t) && Total(t.bits) <= TABLE_SIZE && l == CodeLength(t.bits, w, pos, 1)
    ensures l == |t.bits| ==> ReadSymbol(t, w, pos) == NoCode
    ensures l < |t.bits| ==>
      var rs := t.huffval[Position(t.bits, w, pos, l)];
      ReadSymbol(t, w, pos) == Reading(rs / 16, Extend(Window(w, pos + l, rs % 16), rs % 16), l + rs % 16)
  {
    assert Key(0);
  }

  // ----- reading back what was written -----

  /** The first bits of a code are never below the end of the shorter codes. */
  lemma {:induction false} ShorterMisses(bits: seq<nat>, w: Bits, pos: nat, p: nat, m: nat)
    requires |bits| > 1 && p < Total(bits) && Window(w, pos, SizeAt(bits, p)) == CodeAt(bits, p)
    requires 1 <= m < SizeAt(bits, p)
    ensures Window(w, pos, m) >= End(bits, m)
  {
    CodeBounds(bits, p);
    var l := SizeAt(bits, p);
    var n := l - m;
    WindowSplit(w, pos, m, n, l);
    WindowBound(w, pos + m, n);
    EndGrows(bits, m, l, n);
    if Window(w, pos, m) < End(bits, m) {
      ShlMonotone(Window(w, pos, m) + 1, End(bits, m), n);
      ShlNext(Window(w, pos, m), n);
    }
  }

  lemma {:induction false} ShlNext(x: nat, n: nat)
    ensures Shl(x + 1, n) == Shl(x, n) + Pow2(n)
  {
    if n > 0 {
      ShlNext(x, n - 1);
    }
  }

  lemma CodeFound(bits: seq<nat>, w: Bits, pos: nat, p: nat, one: nat)
    requires |bits| > 1 && p < Total(bits) && Window(w, pos, SizeAt(bits, p)) == CodeAt(bits, p) && one == 1
    ensures 1 <= SizeAt(bits, p) < |bits| && CodeLength(bits, w, pos, one) == SizeAt(bits, p)
    ensures Position(bits, w, pos, SizeAt(bits, p)) == p
  {
    CodeBounds(bits, p);
    forall m | 1 <= m < SizeAt(bits, p) ensures Window(w, pos, m) >= End(bits, m) {
      ShorterMisses(bits, w, pos, p, m);
    }
    LengthIs(bits, w, pos, one, SizeAt(bits, p));
  }

  ghost predicate DerivedCodes(t: HuffTable, c: Codes) {
    && IsTable(t) && Total(t.bits) <= TABLE_SIZE && IsCodes(c)
    && forall k {:trigger Key(k)} :: Key(k) ==> Derived(t, c.co, c.si)
  }

  /** Derived codes have the form the encoder needs. */
  lemma DerivedAreCodes(t: HuffTable, isDc: bool, co: seq<nat>, si: seq<nat>)
    requires IsTable(t) && Acceptable(t, isDc) && Derived(t, co, si)
    ensures DerivedCodes(t, Codes(co, si))
  {
    forall s | 0 <= s < TABLE_SIZE ensures si[s] <= 16 && (si[s] > 0 ==> co[s] < Pow2(si[s])) {
      if si[s] > 0 {
        CodesUsable(t, isDc, co, si, s, s);
        var p :| 0 <= p < Total(t.bits) && t.huffval[p] == s;
        assert EntryAt(t, co, si, p);
        CodeBounds(t.bits, p);
      }
    }
  }

  lemma SymbolListed(t: HuffTable, c: Codes, rs: nat) returns (p: nat)
    requires DerivedCodes(t, c) && rs < TABLE_SIZE && c.si[rs] > 0
    ensures p < Total(t.bits) && t.huffval[p] == rs && c.co[rs] == CodeAt(t.bits, p) && c.si[rs] == SizeAt(t.bits, p)
    ensures c.co[rs] < Pow2(c.si[rs])
  {
    assert Key(0);
    p :| 0 <= p < Total(t.bits) && t.huffval[p] == rs;
    assert EntryAt(t, c.co, c.si, p);
  }

  lemma ValueRead(v: int, size: nat, w: Bits, pos: nat)
    requires size == SizeCategory(v) && BeginsAt(w, pos, ValueBits(v, size))
    ensures Extend(Window(w, pos, size), size) == v
  {
    var x := Complemented(v) % Pow2(size);
    ModBound(Complemented(v), Pow2(size));
    WindowThere(w, pos, ToBits(x, size), pos, 0, size);
    ReadBack(x, size);
    ValueBack(v, size);
  }

  lemma CodeRead(t: HuffTable, c: Codes, rs: nat, w: Bits, pos: nat, one: nat)
    requires DerivedCodes(t, c) && rs < TABLE_SIZE && c.si[rs] > 0 && one == 1
    requires BeginsAt(w, pos, ToBits(c.co[rs], c.si[rs]))
    ensures c.si[rs] < |t.bits| && CodeLength(t.bits, w, pos, one) == c.si[rs]
    ensures t.huffval[Position(t.bits, w, pos, c.si[rs])] == rs
  {
    var p := SymbolListed(t, c, rs);
    var l := c.si[rs];
    WindowThere(w, pos, ToBits(c.co[rs], l), pos, 0, l);
    ReadBack(c.co[rs], l);
    CodeFound(t.bits, w, pos, p, one);
  }

  /** What the encoder writes for a symbol, bit by bit decoding reads. */
  lemma SymbolBack(t: HuffTable, c: Codes, s: Sym, w: Bits, pos: nat)
    requires DerivedCodes(t, c) && HasCode(c, s) && WellSized(s) && BeginsAt(w, pos, SymBits(c, s))
    ensures ReadSymbol(t, w, pos) == Reading(s.rs / 16, s.value, |SymBits(c, s)|)
  {
    var one := 1;
    var l, size := c.si[s.rs], s.rs % 16;
    SymBitsAre(c, s);
    BeginsSplit(w, pos, ToBits(c.co[s.rs], l), ValueBits(s.value, size));
    CodeRead(t, c, s.rs, w, pos, one);
    ReadingAt(t, w, pos, l);
    ValueRead(s.value, size, w, pos + l);
  }

  lemma ModBound(x: int, p: nat)
    requires p > 0
    ensures 0 <= x % p < p
  {
  }
}
