/** The table an encoder looks codes up in, derived from code length counts and a symbol list. */
module DerivedTable {
  import opened Powers
  import opened CanonicalCode

  /** A Huffman table as it is written to a file: bits[l] codes of length l, symbols in code order. */
  datatype HuffTable = HuffTable(bits: seq<nat>, huffval: seq<nat>)

  predicate IsTable(t: HuffTable) {
    |t.bits| == LENGTHS && |t.huffval| == TABLE_SIZE
  }

  predicate Distinct(vals: seq<nat>, n: nat) {
    forall p, q :: 0 <= p < q < n <= |vals| ==> vals[p] != vals[q]
  }

  function MaxSymbol(isDc: bool): nat {
    if isDc then 15 else 255
  }

  predicate InRange(vals: seq<nat>, n: nat, isDc: bool) {
    forall p :: 0 <= p < n <= |vals| ==> vals[p] <= MaxSymbol(isDc)
  }

  /** The tables that describe a prefix code without a code of all ones, for different symbols. */
  ghost predicate Acceptable(t: HuffTable, isDc: bool)
    requires IsTable(t)
  {
    && Reserving(t.bits)
    && Distinct(t.huffval, Total(t.bits)) && InRange(t.huffval, Total(t.bits), isDc)
  }

  /** Code and size of each symbol; size 0 for the symbols without a code. */
  ghost predicate Derived(t: HuffTable, co: seq<nat>, si: seq<nat>)
    requires IsTable(t)
  {
    && |co| == |si| == TABLE_SIZE && Total(t.bits) <= TABLE_SIZE
    && (forall p :: 0 <= p < Total(t.bits) ==> EntryAt(t, co, si, p))
    && (forall s :: 0 <= s < TABLE_SIZE && s !in t.huffval[..Total(t.bits)] ==> si[s] == 0)
  }

  ghost predicate EntryAt(t: HuffTable, co: seq<nat>, si: seq<nat>, p: nat)
    requires IsTable(t) && p < Total(t.bits) <= TABLE_SIZE && |co| == |si|
  {
    t.huffval[p] < |co| && co[t.huffval[p]] == CodeAt(t.bits, p) && si[t.huffval[p]] == SizeAt(t.bits, p)
  }

  /** Lists the code sizes in code order. */
  method ListSizes(bits: seq<nat>, huffsize: array<nat>) returns (ok: bool, lastp: nat)
    requires |bits| == LENGTHS && huffsize.Length == TABLE_SIZE + 1
    modifies huffsize
    ensures ok <==> Total(bits) <= TABLE_SIZE
    ensures ok ==> lastp == Total(bits) && huffsize[lastp] == 0
    ensures ok ==> forall q :: 0 <= q < lastp ==> huffsize[q] == SizeAt(bits, q)
  {
    var p, l := 0, 1;
    while l <= 16
      invariant 1 <= l <= LENGTHS && p == Before(bits, l) <= TABLE_SIZE
      invariant forall q :: 0 <= q < p ==> huffsize[q] == SizeAt(bits, q)
    {
      BeforeGrows(bits, l, |bits|);
      if p + bits[l] > TABLE_SIZE { return false, p; }
      var i := bits[l];
      while i > 0
        invariant 0 <= i <= bits[l] && p + i == Before(bits, l) + bits[l]
        invariant forall q :: 0 <= q < p ==> huffsize[q] == SizeAt(bits, q)
      {
        PlacedSize(bits, p, l);
        huffsize[p] := l;
        p, i := p + 1, i - 1;
      }
      l := l + 1;
    }
    huffsize[p] := 0;
    return true, p;
  }

  /** The length of the next code, if any. */
  lemma NextSize(bits: seq<nat>, p: nat, si: nat)
    requires |bits| == LENGTHS && p < Total(bits) && si < |bits| && (si == 0 || Before(bits, si) <= p)
    ensures Placed(bits, p, SizeAt(bits, p)) && SizeAt(bits, p) >= si
    ensures si > 0 ==> (SizeAt(bits, p) == si <==> p < Before(bits, si) + bits[si])
  {
    SizePlaced(bits, p);
    var l := SizeAt(bits, p);
    if l < si { BeforeGrows(bits, l, si); }
    if 0 < si < l { BeforeGrows(bits, si, l); }
  }

  lemma {:induction false} NoneShorter(bits: seq<nat>, l: nat)
    requires 1 <= l < |bits| && Before(bits, l) == 0
    ensures End(bits, l - 1) == 0
  {
    if l > 1 {
      NoneShorter(bits, l - 1);
    }
  }

  /** No codes of a length or longer leave the room there was before. */
  lemma RoomBeyond(bits: seq<nat>, si: nat, m: nat)
    requires 1 <= si <= m < |bits| && Before(bits, si) == Total(bits)
    requires forall k :: 1 <= k < si ==> End(bits, k) < Pow2(k)
    ensures End(bits, m) < Pow2(m)
  {
    forall k | si - 1 < k <= m ensures bits[k] == 0 {
      BeforeGrows(bits, si, k);
      BeforeGrows(bits, k, |bits|);
    }
    var n := m - (si - 1);
    EndGrows(bits, si - 1, m, n);
    ShlMonotone(End(bits, si - 1) + 1, Pow2(si - 1), n);
    PowerShl(si - 1, n, m);
    ShlMore(End(bits, si - 1), n);
  }

  lemma {:induction false} ShlMore(x: nat, n: nat)
    ensures Shl(x, n) < Shl(x + 1, n)
  {
    if n > 0 {
      ShlMore(x, n - 1);
    }
  }

  ghost predicate RoomUpTo(bits: seq<nat>, l: nat) {
    l <= |bits| && forall k :: 1 <= k < l ==> End(bits, k) < Pow2(k)
  }

  /** Generates the codes; fails when those of some size do not leave room for one of all ones. */
  method GenerateCodes(bits: seq<nat>, huffsize: array<nat>, huffcode: array<nat>) returns (ok: bool)
    requires |bits| == LENGTHS && Total(bits) <= TABLE_SIZE && huffsize != huffcode
    requires huffsize.Length == huffcode.Length == TABLE_SIZE + 1 && huffsize[Total(bits)] == 0
    requires forall q :: 0 <= q < Total(bits) ==> huffsize[q] == SizeAt(bits, q)
    modifies huffcode
    ensures ok <==> Reserving(bits)
    ensures ok ==> forall q :: 0 <= q < Total(bits) ==> huffcode[q] == CodeAt(bits, q)
  {
    var code, si, p := 0, huffsize[0], 0;
    if Total(bits) > 0 {
      NextSize(bits, 0, 0);
      NoneShorter(bits, si);
      RoomStart(bits, si);
    } else {
      RoomNone(bits);
    }
    while huffsize[p] != 0
      invariant 0 <= p <= Total(bits) && (Total(bits) > 0 ==> 1 <= si <= LENGTHS)
      invariant Total(bits) > 0 ==> p == Before(bits, si) && code == 2 * End(bits, si - 1) && RoomUpTo(bits, si)
      invariant Total(bits) == 0 ==> Reserving(bits)
      invariant forall q :: 0 <= q < p ==> huffcode[q] == CodeAt(bits, q)
      decreases LENGTHS - si
    {
      NextSize(bits, p, if si < LENGTHS then si else 0);
      assert si < LENGTHS;
      while huffsize[p] == si
        invariant Before(bits, si) <= p <= Before(bits, si) + bits[si]
        invariant code == First(bits, si) + p - Before(bits, si)
        invariant p <= Total(bits)
        invariant forall q :: 0 <= q < p ==> huffcode[q] == CodeAt(bits, q)
        decreases Total(bits) - p
      {
        NextSize(bits, p, si);
        huffcode[p] := code;
        p, code := p + 1, code + 1;
      }
      EndOfSize(bits, p, si);
      if code >= Pow2(si) { return false; }
      code, si := 2 * code, si + 1;
    }
    if p < Total(bits) { CodeBounds(bits, p); }
    if Total(bits) > 0 { RoomEverywhere(bits, si); }
    return true;
  }

  lemma EndOfSize(bits: seq<nat>, p: nat, si: nat)
    requires |bits| == LENGTHS && 1 <= si < |bits| && Before(bits, si) <= p <= Total(bits)
    requires p <= Before(bits, si) + bits[si]
    requires p == Total(bits) || SizeAt(bits, p) != si
    ensures p == Before(bits, si) + bits[si] == Before(bits, si + 1)
  {
    BeforeGrows(bits, si, |bits|);
    if p < Total(bits) { NextSize(bits, p, si); }
  }

  lemma RoomStart(bits: seq<nat>, si: nat)
    requires 1 <= si < |bits| && End(bits, si - 1) == 0
    ensures RoomUpTo(bits, si)
  {
    forall k | 1 <= k < si ensures End(bits, k) < Pow2(k) {
      RoomBelow(bits, k, si - 1);
    }
  }

  lemma RoomNone(bits: seq<nat>)
    requires |bits| == LENGTHS && Total(bits) == 0
    ensures Reserving(bits)
  {
    var one := 1;
    forall k | 1 <= k < |bits| ensures End(bits, k) < Pow2(k) {
      RoomBeyond(bits, one, k);
    }
  }

  lemma RoomEverywhere(bits: seq<nat>, si: nat)
    requires |bits| == LENGTHS && 1 <= si <= |bits| && Before(bits, si) == Total(bits) <= TABLE_SIZE
    requires RoomUpTo(bits, si)
    ensures Reserving(bits)
  {
    forall k | 1 <= k < |bits| ensures End(bits, k) < Pow2(k) {
      if k >= si { RoomBeyond(bits, si, k); }
    }
  }

  /** Enters the codes by symbol; fails when a symbol is out of range or listed twice. */
  method EnterCodes(t: HuffTable, isDc: bool, huffsize: array<nat>, huffcode: array<nat>, co: array<nat>, si: array<nat>)
    returns (ok: bool)
    requires IsTable(t) && Total(t.bits) <= TABLE_SIZE
    requires huffsize.Length == huffcode.Length == TABLE_SIZE + 1 && co.Length == si.Length == TABLE_SIZE
    requires co != si && huffsize != co && huffsize != si && huffcode != co && huffcode != si
    requires forall q :: 0 <= q < Total(t.bits) ==>
      huffsize[q] == SizeAt(t.bits, q) && huffcode[q] == CodeAt(t.bits, q)
    modifies co, si
    ensures ok <==> Distinct(t.huffval, Total(t.bits)) && InRange(t.huffval, Total(t.bits), isDc)
    ensures ok ==> Derived(t, co[..], si[..])
  {
    var n, vals := Total(t.bits), t.huffval;
    for s := 0 to TABLE_SIZE
      invariant forall k :: 0 <= k < s ==> si[k] == 0
    {
      si[s] := 0;
    }
    for p := 0 to n
      invariant Distinct(vals, p) && InRange(vals, p, isDc)
      invariant forall q :: 0 <= q < p ==> EntryAt(t, co[..], si[..], q)
      invariant forall s :: 0 <= s < TABLE_SIZE && s !in vals[..p] ==> si[s] == 0
    {
      var i := vals[p];
      if i > MaxSymbol(isDc) || si[i] != 0 {
        Rejected(t, isDc, co[..], si[..], p);
        return false;
      }
      EnterOne(t, co[..], si[..], p);
      ghost var co1, si1 := co[..], si[..];
      co[i] := huffcode[p];
      si[i] := huffsize[p];
      assert co[..] == co1[i := CodeAt(t.bits, p)] && si[..] == si1[i := SizeAt(t.bits, p)];
    }
    return true;
  }

  lemma EnterOne(t: HuffTable, co: seq<nat>, si: seq<nat>, p: nat)
    requires IsTable(t) && p < Total(t.bits) <= TABLE_SIZE && |co| == |si| == TABLE_SIZE
    requires t.huffval[p] < TABLE_SIZE && si[t.huffval[p]] == 0
    requires forall q :: 0 <= q < p ==> EntryAt(t, co, si, q)
    requires forall s :: 0 <= s < TABLE_SIZE && s !in t.huffval[..p] ==> si[s] == 0
    ensures var co2, si2 := co[t.huffval[p] := CodeAt(t.bits, p)], si[t.huffval[p] := SizeAt(t.bits, p)];
      && (forall q :: 0 <= q < p + 1 ==> EntryAt(t, co2, si2, q))
      && (forall s :: 0 <= s < TABLE_SIZE && s !in t.huffval[..p + 1] ==> si2[s] == 0)
    ensures forall q :: 0 <= q < p ==> t.huffval[q] != t.huffval[p]
  {
    forall q | 0 <= q < p ensures t.huffval[q] != t.huffval[p] {
      assert EntryAt(t, co, si, q);
      CodeBounds(t.bits, q);
    }
    assert t.huffval[..p + 1] == t.huffval[..p] + [t.huffval[p]];
    var co2, si2 := co[t.huffval[p] := CodeAt(t.bits, p)], si[t.huffval[p] := SizeAt(t.bits, p)];
    forall q | 0 <= q < p + 1 ensures EntryAt(t, co2, si2, q) {
      if q < p { assert EntryAt(t, co, si, q); }
    }
  }

  lemma Rejected(t: HuffTable, isDc: bool, co: seq<nat>, si: seq<nat>, p: nat)
    requires IsTable(t) && p < Total(t.bits) <= TABLE_SIZE && |co| == |si| == TABLE_SIZE
    requires t.huffval[p] > MaxSymbol(isDc) || si[t.huffval[p]] != 0
    requires forall s :: 0 <= s < TABLE_SIZE && s !in t.huffval[..p] ==> si[s] == 0
    ensures !(Distinct(t.huffval, Total(t.bits)) && InRange(t.huffval, Total(t.bits), isDc))
  {
  }

  /** Derives the table when it is acceptable, and fails otherwise. */
  method MakeDerivedTable(t: HuffTable, isDc: bool, co: array<nat>, si: array<nat>) returns (ok: bool)
    requires IsTable(t) && co.Length == si.Length == TABLE_SIZE && co != si
    modifies co, si
    ensures ok <==> Acceptable(t, isDc)
    ensures ok ==> Derived(t, co[..], si[..])
  {
    var huffsize, huffcode := new nat[TABLE_SIZE + 1], new nat[TABLE_SIZE + 1];
    var lastp;
    ok, lastp := ListSizes(t.bits, huffsize);
    if ok {
      ok := GenerateCodes(t.bits, huffsize, huffcode);
      if ok {
        ok := EnterCodes(t, isDc, huffsize, huffcode, co, si);
      }
    }
  }

  /** What is accepted: at most 256 codes, none of them all ones or too long for its size, and different symbols
      up to 15 in a DC table and up to 255 in an AC table. */
  lemma {:induction false} AcceptableIs(t: HuffTable, isDc: bool)
    requires IsTable(t)
    ensures Acceptable(t, isDc) <==>
      && Total(t.bits) <= 256
      && (forall p :: 0 <= p < Total(t.bits) ==> CodeAt(t.bits, p) + 1 < Pow2(SizeAt(t.bits, p)))
      && (forall p :: 0 <= p < Total(t.bits) ==> t.huffval[p] <= if isDc then 15 else 255)
      && (forall p, q :: 0 <= p < q < Total(t.bits) ==> t.huffval[p] != t.huffval[q])
  {
    if Acceptable(t, isDc) {
      forall p | 0 <= p < Total(t.bits) ensures CodeAt(t.bits, p) + 1 < Pow2(SizeAt(t.bits, p)) {
        CodeBounds(t.bits, p);
      }
    } else if Total(t.bits) <= 256 && forall p :: 0 <= p < Total(t.bits) ==> CodeAt(t.bits, p) + 1 < Pow2(SizeAt(t.bits, p)) {
      forall l | 1 <= l < |t.bits| ensures End(t.bits, l) < Pow2(l) {
        RoomForAll(t.bits, l);
      }
    }
  }

  lemma {:induction false} RoomForAll(bits: seq<nat>, l: nat)
    requires 1 <= l < |bits| && forall p :: 0 <= p < Total(bits) ==> CodeAt(bits, p) + 1 < Pow2(SizeAt(bits, p))
    ensures End(bits, l) < Pow2(l)
  {
    if bits[l] > 0 {
      PlacedSize(bits, Before(bits, l) + bits[l] - 1, l);
    } else if l > 1 {
      RoomForAll(bits, l - 1);
    }
  }

  /** Symbols with a code: no code is the beginning of another one, none is all ones. */
  lemma CodesUsable(t: HuffTable, isDc: bool, co: seq<nat>, si: seq<nat>, s: nat, u: nat)
    requires IsTable(t) && Acceptable(t, isDc) && Derived(t, co, si)
    requires s < TABLE_SIZE && u < TABLE_SIZE && 0 < si[s] <= si[u]
    ensures co[s] + 1 < Pow2(si[s])
    ensures s != u ==> NoPrefix(co[s], co[u], si[u] - si[s])
  {
    var p :| 0 <= p < Total(t.bits) && t.huffval[p] == s;
    var q :| 0 <= q < Total(t.bits) && t.huffval[q] == u;
    assert EntryAt(t, co, si, p) && EntryAt(t, co, si, q);
    CodeBounds(t.bits, p);
    if s != u {
      PrefixFree(t.bits, p, q);
    }
  }
}
