/** The decoder's tables: for the next ten bits a table gives the run and the value at once, or the run
    and the size of the value, or nothing when the code is longer. */
module LookupTable {
  import opened Powers
  import opened BitStrings
  import opened CanonicalCode
  import opened DerivedTable
  import opened BlockCode
  import opened CodeReading

  const DECBITS := 10
  const LOOKUPS := 1024
  const FOREVER := 0x2_0000     // no seventeen bits reach it

  /** Fields of an entry: value or size, run, whether it is the value, and the bits to give back. The
      fields do not overlap, so their sum is what the source builds with shifts and ors. */
  function Pack(x: int, run: nat, known: bool, back: nat): int {
    x * 0x1_0000 + run * 0x100 + (if known then 0x80 else 0) + back
  }

  /** An entry gives back its fields. */
  lemma Unpack(x: int, run: nat, known: bool, back: nat, low: nat)
    requires run < 16 && back < 0x80 && low == (if known then 0x80 else 0) + back
    ensures var e := Pack(x, run, known, back);
      e / 0x1_0000 == x && e / 0x100 % 16 == run && e / 0x80 % 2 == low / 0x80 && e % 0x80 == back
  {
    UnpackHigh(x, run, low);
    UnpackLow(x * 0x100 + run, low);
  }

  lemma UnpackHigh(x: int, run: nat, low: nat)
    requires run < 16 && low < 0x100
    ensures (x * 0x1_0000 + run * 0x100 + low) / 0x1_0000 == x
    ensures (x * 0x1_0000 + run * 0x100 + low) / 0x100 % 16 == run
  {
    var e, h, k, p := x * 0x1_0000 + run * 0x100 + low, 0x1_0000, 0x100, 16;
    FloorIs(e, h, x, run * 0x100 + low);
    FloorIs(e, k, x * 0x100 + run, low);
    FloorIs(x * 0x100 + run, p, x * 16, run);
  }

  lemma UnpackLow(h: int, low: nat)
    requires low < 0x100
    ensures (h * 0x100 + low) / 0x80 % 2 == low / 0x80 && (h * 0x100 + low) % 0x80 == low % 0x80
  {
    var e, k, two := h * 0x100 + low, 0x80, 2;
    FloorIs(e, k, h * 2 + low / 0x80, low % 0x80);
    FloorIs(h * 2 + low / 0x80, two, h, low / 0x80);
  }

  /** x >> n */
  function Shr(x: nat, n: nat): nat {
    if n == 0 then x else Shr(x / 2, n - 1)
  }

  /** The entry for a symbol whose code of l bits is followed by the bits d. */
  function EntryFor(rs: nat, l: nat, d: nat): int
    requires l <= DECBITS
  {
    var v := rs % 16;
    if v + l <= DECBITS then Pack(Extend(Shr(d, DECBITS - l - v), v), rs / 16, true, DECBITS - l - v)
    else Pack(v, rs / 16, false, DECBITS - l)
  }

  /** d can follow the p-th code within ten bits. */
  predicate IsEntry(bits: seq<nat>, p: nat, d: nat)
    requires |bits| > 1
  {
    p < Total(bits) && SizeAt(bits, p) <= DECBITS && d < Pow2(DECBITS - SizeAt(bits, p))
  }

  function Slot(bits: seq<nat>, p: nat, d: nat): nat
    requires |bits| > 1 && IsEntry(bits, p, d)
  {
    Shl(CodeAt(bits, p), DECBITS - SizeAt(bits, p)) + d
  }

  /** The right entries below some limit, nothing above it. */
  ghost predicate Filled(t: HuffTable, llvals: seq<int>, limit: nat)
    requires IsTable(t) && Total(t.bits) <= TABLE_SIZE
  {
    && |llvals| == LOOKUPS && limit <= LOOKUPS
    && forall k {:trigger Key(k)} :: Key(k) ==>
      && (forall r :: limit <= r < LOOKUPS ==> llvals[r] == 0)
      && (forall p: nat, d: nat :: IsEntry(t.bits, p, d) && Slot(t.bits, p, d) < limit ==>
           llvals[Slot(t.bits, p, d)] == EntryFor(t.huffval[p], SizeAt(t.bits, p), d))
  }

  // ----- the order of the slots -----

  lemma {:induction false} ShorterFirst(bits: seq<nat>, p: nat, d: nat, code: nat, l: nat, m: nat)
    requires |bits| == LENGTHS && IsEntry(bits, p, d) && m == SizeAt(bits, p) && m < l <= DECBITS && First(bits, l) <= code
    ensures Slot(bits, p, d) < Shl(code, DECBITS - l)
  {
    CodeBounds(bits, p);
    var c := CodeAt(bits, p);
    ShlNext(c, DECBITS - m);
    EndGrows(bits, m, l, l - m);
    ShlMonotone(c + 1, End(bits, m), l - m);
    ShlTwice(c + 1, l - m, DECBITS - l);
    ShlMonotone(Shl(c + 1, l - m), code, DECBITS - l);
  }

  lemma {:induction false} LongerAfter(bits: seq<nat>, p: nat, d: nat, code: nat, l: nat, m: nat)
    requires |bits| == LENGTHS && IsEntry(bits, p, d) && m == SizeAt(bits, p) && 1 <= l < m && code <= End(bits, l)
    ensures Slot(bits, p, d) >= Shl(code, DECBITS - l)
  {
    CodeBounds(bits, p);
    EndGrows(bits, l, m, m - l);
    ShlMonotone(code, End(bits, l), m - l);
    ShlTwice(code, m - l, DECBITS - m);
    ShlMonotone(Shl(code, m - l), CodeAt(bits, p), DECBITS - m);
  }

  lemma {:induction false} SameLength(bits: seq<nat>, p: nat, d: nat, code: nat, l: nat)
    requires |bits| == LENGTHS && IsEntry(bits, p, d) && l == SizeAt(bits, p)
    ensures Slot(bits, p, d) < Shl(code, DECBITS - l) <==> CodeAt(bits, p) < code
  {
    var c := CodeAt(bits, p);
    ShlNext(c, DECBITS - l);
    if c < code {
      ShlMonotone(c + 1, code, DECBITS - l);
    } else {
      ShlMonotone(code, c, DECBITS - l);
    }
  }

  /** Codes in order take slots in order. */
  lemma {:induction false} SlotsInOrder(bits: seq<nat>, p: nat, d: nat, code: nat, l: nat)
    requires |bits| == LENGTHS && 1 <= l <= DECBITS && IsEntry(bits, p, d) && First(bits, l) <= code <= End(bits, l)
    ensures Slot(bits, p, d) < Shl(code, DECBITS - l) <==>
      SizeAt(bits, p) < l || (SizeAt(bits, p) == l && CodeAt(bits, p) < code)
  {
    var m := SizeAt(bits, p);
    if m < l {
      ShorterFirst(bits, p, d, code, l, m);
    } else if m == l {
      SameLength(bits, p, d, code, l);
    } else {
      LongerAfter(bits, p, d, code, l, m);
    }
  }

  /** The slots from one code to the next are those of the first. */
  lemma {:induction false} SlotsOf(bits: seq<nat>, p: nat, l: nat, q: nat, d: nat)
    requires |bits| == LENGTHS && p < Total(bits) && l == SizeAt(bits, p) && 1 <= l <= DECBITS && IsEntry(bits, q, d)
    requires Shl(CodeAt(bits, p), DECBITS - l) <= Slot(bits, q, d) < Shl(CodeAt(bits, p) + 1, DECBITS - l)
    ensures q == p
  {
    CodeBounds(bits, p);
    CodeBounds(bits, q);
    SlotsInOrder(bits, q, d, CodeAt(bits, p), l);
    SlotsInOrder(bits, q, d, CodeAt(bits, p) + 1, l);
  }

  // ----- filling the table -----

  predicate Entered(llvals: seq<int>, from: nat, n: nat, rs: nat, l: nat)
    requires l <= DECBITS
  {
    forall d :: 0 <= d < n && from + d < |llvals| ==> llvals[from + d] == EntryFor(rs, l, d)
  }

  lemma {:induction false} FilledMore(t: HuffTable, before: seq<int>, after: seq<int>, p: nat, l: nat, from: nat, n: nat)
    requires IsTable(t) && Total(t.bits) <= TABLE_SIZE && p < Total(t.bits) && l == SizeAt(t.bits, p) && 1 <= l <= DECBITS
    requires from == Shl(CodeAt(t.bits, p), DECBITS - l) && n == Pow2(DECBITS - l) && from + n <= LOOKUPS
    requires Filled(t, before, from) && |after| == LOOKUPS
    requires forall r :: 0 <= r < LOOKUPS && !(from <= r < from + n) ==> after[r] == before[r]
    requires Entered(after, from, n, t.huffval[p], l)
    ensures Filled(t, after, from + n)
  {
    assert Key(0);
    ShlNext(CodeAt(t.bits, p), DECBITS - l);
    forall q: nat, d: nat | IsEntry(t.bits, q, d) && Slot(t.bits, q, d) < from + n
      ensures after[Slot(t.bits, q, d)] == EntryFor(t.huffval[q], SizeAt(t.bits, q), d)
    {
      if Slot(t.bits, q, d) >= from {
        SlotsOf(t.bits, p, l, q, d);
        assert after[from + d] == EntryFor(t.huffval[p], l, d);
      }
    }
  }

  lemma {:induction false} RoomForCode(bits: seq<nat>, code: nat, l: nat)
    requires Legal(bits) && 1 <= l <= DECBITS && code < End(bits, l)
    ensures Shl(code, DECBITS - l) + Pow2(DECBITS - l) <= LOOKUPS
  {
    ShlNext(code, DECBITS - l);
    ShlMonotone(code + 1, Pow2(l), DECBITS - l);
    PowerShl(l, DECBITS - l, DECBITS);
    PowerValues();
    assert Pow2(DECBITS) == 4 * Pow2(8);
  }

  /** The decoder's form of a Huffman table. */
  class DecHuff {
    var maxcode: seq<nat>
    var valptr: seq<nat>
    var vals: seq<nat>
    var llvals: seq<int>

    constructor ()
      ensures Shaped()
    {
      maxcode, valptr, vals := seq(17, i => 0), seq(16, i => 0), seq(TABLE_SIZE, i => 0);
      llvals := seq(LOOKUPS, i => 0);
    }

    predicate Shaped()
      reads this
    {
      |maxcode| == 17 && |valptr| == 16 && |vals| == TABLE_SIZE && |llvals| == LOOKUPS
    }

    /** The tables decode the codes of t. */
    ghost predicate Decodes(t: HuffTable)
      reads this
    {
      && Shaped() && IsTable(t) && Legal(t.bits) && maxcode[16] == FOREVER
      && forall k {:trigger Key(k)} :: Key(k) ==>
        && LimitsTo(t, maxcode, valptr, LENGTHS) && (forall p :: 0 <= p < Total(t.bits) ==> vals[p] == t.huffval[p])
        && Filled(t, llvals, End(t.bits, DECBITS))
    }

    /** Enters one symbol for all numbers that can follow its code. */
    method EnterSymbol(t: HuffTable, p: nat, code: nat, i: nat)
      requires |llvals| == LOOKUPS && IsTable(t) && Legal(t.bits) && i < DECBITS
      requires p < Total(t.bits) && SizeAt(t.bits, p) == i + 1 && CodeAt(t.bits, p) == code
      requires Filled(t, llvals, Shl(code, DECBITS - 1 - i))
      modifies this`llvals
      ensures Filled(t, llvals, Shl(code + 1, DECBITS - 1 - i))
    {
      CodeBounds(t.bits, p);
      RoomForCode(t.bits, code, i + 1);
      ShlNext(code, DECBITS - 1 - i);
      ghost var before := llvals;
      var c, n := Shl(code, DECBITS - 1 - i), Pow2(DECBITS - 1 - i);
      FillSlots(code, c, n, t.huffval[p], i);
      FilledMore(t, before, llvals, p, i + 1, c, n);
    }

    method FillSlots(code: nat, c: nat, n: nat, rs: nat, i: nat)
      requires |llvals| == LOOKUPS && i < DECBITS && c + n <= LOOKUPS
      requires n == Pow2(DECBITS - 1 - i) && c == Shl(code, DECBITS - 1 - i)
      modifies this`llvals
      ensures |llvals| == LOOKUPS && Entered(llvals, c, n, rs, i + 1)
      ensures forall r :: 0 <= r < LOOKUPS && !(c <= r < c + n) ==> llvals[r] == old(llvals)[r]
    {
      var v, d := rs % 16, n;
      while d > 0
        invariant 0 <= d <= n && |llvals| == LOOKUPS
        invariant forall r :: 0 <= r < LOOKUPS && !(c + d <= r < c + n) ==> llvals[r] == old(llvals)[r]
        invariant forall r :: c + d <= r < c + n ==> llvals[r] == EntryFor(rs, i + 1, r - c)
      {
        d := d - 1;
        var x: int;
        if v + i < DECBITS {
          x := Shr(d, DECBITS - 1 - v - i);
          if v > 0 && x < Pow2(v - 1) { x := x + 1 - Pow2(v); }
          x := Pack(x, rs / 16, true, DECBITS - (i + 1 + v));
        } else {
          x := Pack(v, rs / 16, false, DECBITS - (i + 1));
        }
        OrIsSum(d, code, DECBITS - 1 - i, c);
        llvals := llvals[Or(d, c) := x];
      }
    }

    /** The state after the codes up to position p, of which the next one would be code, of i + 1 bits. */
    ghost predicate MadeTo(t: HuffTable, i: nat, p: nat, code: nat)
      reads this
    {
      && Shaped() && IsTable(t) && Legal(t.bits) && i + 1 <= LENGTHS && p <= Total(t.bits)
      && forall k {:trigger Key(k)} :: Key(k) ==>
        && LimitsTo(t, maxcode, valptr, i + 1) && (forall q :: 0 <= q < p ==> vals[q] == t.huffval[q])
        && Filled(t, llvals, Limit(t.bits, i, code))
    }

    /** Enters the j-th code of i + 1 bits. */
    method EnterCode(t: HuffTable, i: nat, k: nat, code: nat)
      requires i < 16 && MadeTo(t, i, k, code) && Before(t.bits, i + 1) <= k < Before(t.bits, i + 1) + t.bits[i + 1]
      requires code == First(t.bits, i + 1) + k - Before(t.bits, i + 1)
      modifies this`vals, this`llvals
      ensures MadeTo(t, i, k + 1, code + 1)
    {
      assert Key(0);
      PlacedSize(t.bits, k, i + 1);
      vals := vals[k := t.huffval[k]];
      if i < DECBITS {
        EnterSymbol(t, k, code, i);
      }
    }

    /** The next length: codes are one bit longer. */
    method NextLength(ghost t: HuffTable, i: nat, ghost k: nat, code: nat)
      requires i < 16 && MadeTo(t, i, k, code) && code == End(t.bits, i + 1) && valptr[i] == Before(t.bits, i + 1)
      modifies this`maxcode
      ensures MadeTo(t, i + 1, k, 2 * code)
    {
      assert Key(0);
      maxcode := maxcode[i := code];
      SameLimit(t.bits, i, code);
    }

    /** Enters the codes of i + 1 bits. */
    method EnterLength(t: HuffTable, i: nat, k0: nat, code0: nat) returns (k: nat, code: nat)
      requires i < 16 && MadeTo(t, i, k0, code0) && k0 == Before(t.bits, i + 1) && code0 == First(t.bits, i + 1)
      modifies this
      ensures k == Before(t.bits, i + 2) && code == End(t.bits, i + 1) && MadeTo(t, i + 1, k, 2 * code)
    {
      code, k := code0, k0;
      SetFirst(t, i, k, code);
      var j := 0;
      while j < t.bits[i + 1]
        invariant 0 <= j <= t.bits[i + 1] && k == k0 + j && code == code0 + j
        invariant MadeTo(t, i, k, code) && valptr[i] == k0
      {
        EnterCode(t, i, k, code);
        code, k, j := code + 1, k + 1, j + 1;
      }
      NextLength(t, i, k, code);
    }

    method SetFirst(ghost t: HuffTable, i: nat, k: nat, ghost code: nat)
      requires i < 16 && MadeTo(t, i, k, code)
      modifies this`valptr
      ensures MadeTo(t, i, k, code) && valptr[i] == k
    {
      assert Key(0);
      valptr := valptr[i := k];
    }

    /** Builds the tables from the code lengths and symbols. */
    method MakeHuff(t: HuffTable)
      requires Shaped() && IsTable(t) && Legal(t.bits)
      modifies this
      ensures Decodes(t)
    {
      ClearLookups(t);
      var code, k, i := 0, 0, 0;
      while i < 16
        invariant 0 <= i <= 16 && k == Before(t.bits, i + 1) && code == 2 * End(t.bits, i) && MadeTo(t, i, k, code)
      {
        k, code := EnterLength(t, i, k, code);
        code, i := 2 * code, i + 1;
      }
      assert Key(0);
      maxcode := maxcode[16 := FOREVER];
    }

    method ClearLookups(ghost t: HuffTable)
      requires Shaped() && IsTable(t) && Legal(t.bits)
      modifies this`llvals
      ensures MadeTo(t, 0, 0, 0)
    {
      for i := 0 to LOOKUPS
        invariant Shaped() && forall r :: 0 <= r < i ==> llvals[r] == 0
      {
        llvals := llvals[i := 0];
      }
      NothingYet(t, llvals, DECBITS - 1);
    }
  }

  /** Where the slots of code begin, a code of i + 1 bits; past ten bits, the end of all slots in use. */
  function Limit(bits: seq<nat>, i: nat, code: nat): nat
    requires |bits| == LENGTHS
  {
    if i < DECBITS then Shl(code, DECBITS - 1 - i) else End(bits, DECBITS)
  }

  lemma {:induction false} SameLimit(bits: seq<nat>, i: nat, code: nat)
    requires |bits| == LENGTHS && i + 1 < LENGTHS && code == End(bits, i + 1)
    ensures Limit(bits, i + 1, 2 * code) == Limit(bits, i, code)
  {
    if i + 1 < DECBITS {
      ShlInside(code, DECBITS - 2 - i);
    } else if i + 1 == DECBITS {
      assert Shl(code, 0) == code;
    }
  }

  lemma {:induction false} NothingYet(t: HuffTable, llvals: seq<int>, n: nat)
    requires IsTable(t) && Total(t.bits) <= TABLE_SIZE && |llvals| == LOOKUPS
    requires forall r :: 0 <= r < LOOKUPS ==> llvals[r] == 0
    ensures Filled(t, llvals, Shl(0, n))
  {
    NoShift(n);
  }

  lemma {:induction false} NoShift(n: nat)
    ensures Shl(0, n) == 0
  {
    if n > 0 {
      NoShift(n - 1);
    }
  }

  predicate LimitsTo(t: HuffTable, maxcode: seq<nat>, valptr: seq<nat>, l: nat)
    requires IsTable(t)
  {
    && l <= |t.bits| && |maxcode| == 17 && |valptr| == 16
    && forall m :: 1 <= m < l ==> maxcode[m - 1] == End(t.bits, m) && valptr[m - 1] == Before(t.bits, m)
  }
}
