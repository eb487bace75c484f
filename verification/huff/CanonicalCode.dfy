/** Canonical Huffman codes: codes of a length are consecutive numbers, and the first code of the next
    length is twice the number after the last one (Annex C of ITU-T T.81). */
module CanonicalCode {
  import opened Powers

  const LENGTHS := 17      // bits[1..17] count the codes of 1 to 16 bits
  const TABLE_SIZE := 256

  /** The number after the last code of length l. */
  function End(bits: seq<nat>, l: nat): nat
    requires l < |bits|
  {
    if l == 0 then 0 else 2 * End(bits, l - 1) + bits[l]
  }

  function First(bits: seq<nat>, l: nat): nat
    requires 1 <= l < |bits|
  {
    2 * End(bits, l - 1)
  }

  /** Number of codes shorter than l. */
  function Before(bits: seq<nat>, l: nat): nat
    requires l <= |bits|
  {
    if l <= 1 then 0 else Before(bits, l - 1) + bits[l - 1]
  }

  function Total(bits: seq<nat>): nat {
    Before(bits, |bits|)
  }

  /** There is room for all codes. */
  ghost predicate Legal(bits: seq<nat>) {
    |bits| == LENGTHS && Total(bits) <= TABLE_SIZE && forall l :: 1 <= l < |bits| ==> End(bits, l) <= Pow2(l)
  }

  /** There is room for one more code, the one of all ones, at each length. */
  ghost predicate Reserving(bits: seq<nat>) {
    Legal(bits) && forall l :: 1 <= l < |bits| ==> End(bits, l) < Pow2(l)
  }

  lemma {:induction false} BeforeGrows(bits: seq<nat>, l: nat, m: nat)
    requires 1 <= l <= m <= |bits|
    ensures Before(bits, l) <= Before(bits, m)
    ensures l < m ==> Before(bits, l) + bits[l] <= Before(bits, m)
    decreases m
  {
    if l < m {
      BeforeGrows(bits, l, m - 1);
    }
  }

  /** Longer codes come after the extensions of the shorter ones. */
  lemma {:induction false} EndGrows(bits: seq<nat>, l: nat, m: nat, n: nat)
    requires l + n == m < |bits|
    ensures Shl(End(bits, l), n) <= End(bits, m)
    ensures n > 0 ==> Shl(End(bits, l), n) <= 2 * End(bits, m - 1)
    ensures (forall k :: l < k <= m ==> bits[k] == 0) ==> End(bits, m) == Shl(End(bits, l), n)
  {
    if n > 0 {
      EndGrows(bits, l, m - 1, n - 1);
    }
  }

  // ----- codes by position -----

  /** The length of the p-th code, searched from length l down. */
  function SizeFrom(bits: seq<nat>, p: nat, l: nat): (r: nat)
    requires l < |bits|
    ensures r <= l
  {
    if l == 0 || Before(bits, l) <= p then l else SizeFrom(bits, p, l - 1)
  }

  function SizeAt(bits: seq<nat>, p: nat): (l: nat)
    requires bits != []
    ensures l < |bits|
  {
    SizeFrom(bits, p, |bits| - 1)
  }

  predicate Placed(bits: seq<nat>, p: nat, l: nat) {
    1 <= l < |bits| && Before(bits, l) <= p < Before(bits, l) + bits[l]
  }

  lemma {:induction false} SizeIs(bits: seq<nat>, p: nat, l: nat, m: nat)
    requires Placed(bits, p, l) && l <= m < |bits|
    ensures SizeFrom(bits, p, m) == l
  {
    if l < m {
      BeforeGrows(bits, l, m);
      SizeIs(bits, p, l, m - 1);
    }
  }

  lemma PlacedSize(bits: seq<nat>, p: nat, l: nat)
    requires Placed(bits, p, l)
    ensures SizeAt(bits, p) == l && p < Total(bits)
  {
    SizeIs(bits, p, l, |bits| - 1);
    BeforeGrows(bits, l, |bits|);
  }

  lemma {:induction false} SizePlacedFrom(bits: seq<nat>, p: nat, m: nat)
    requires 1 <= m < |bits| && p < Before(bits, m) + bits[m]
    ensures Placed(bits, p, SizeFrom(bits, p, m))
  {
    if Before(bits, m) > p {
      SizePlacedFrom(bits, p, m - 1);
    }
  }

  /** Every position below the total has a length. */
  lemma SizePlaced(bits: seq<nat>, p: nat)
    requires |bits| > 1 && p < Total(bits)
    ensures Placed(bits, p, SizeAt(bits, p))
  {
    SizePlacedFrom(bits, p, |bits| - 1);
  }

  function CodeAt(bits: seq<nat>, p: nat): nat
    requires |bits| > 1 && p < Total(bits)
  {
    SizePlaced(bits, p);
    var l := SizeAt(bits, p);
    First(bits, l) + p - Before(bits, l)
  }

  /** The codes count up: the first one is all zeros, and each is one more than the one before it, with zeros
      behind where it is longer. */
  lemma {:induction false} NextCode(bits: seq<nat>, p: nat)
    requires |bits| > 1 && p < Total(bits)
    ensures if p == 0 then CodeAt(bits, p) == 0
            else SizeAt(bits, p - 1) <= SizeAt(bits, p)
                 && CodeAt(bits, p) == Shl(CodeAt(bits, p - 1) + 1, SizeAt(bits, p) - SizeAt(bits, p - 1))
  {
    var m := SizeAt(bits, p);
    SizePlaced(bits, p);
    if p == 0 {
      NoneBefore(bits, m);
    } else {
      BeforeGrowsTo(bits, p);
      var l := SizeAt(bits, p - 1);
      SizePlaced(bits, p - 1);
      if l < m {
        BeforeGrows(bits, l, m);
        FirstBehind(bits, l, m, m - l);
      }
    }
  }

  lemma {:induction false} NoneBefore(bits: seq<nat>, l: nat)
    requires 1 <= l < |bits| && Before(bits, l) == 0
    ensures First(bits, l) == 0
  {
    if l > 1 { NoneBefore(bits, l - 1); }
  }

  lemma {:induction false} BeforeGrowsTo(bits: seq<nat>, p: nat)
    requires |bits| > 1 && 0 < p < Total(bits)
    ensures SizeAt(bits, p - 1) <= SizeAt(bits, p)
  {
    var l, m := SizeAt(bits, p - 1), SizeAt(bits, p);
    SizePlaced(bits, p - 1);
    SizePlaced(bits, p);
    if m < l { BeforeGrows(bits, m + 1, l); }
  }

  /** Where no codes are between, the first code of a length is the end of a shorter one with zeros behind. */
  lemma {:induction false} FirstBehind(bits: seq<nat>, l: nat, m: nat, n: nat)
    requires 1 <= l < m < |bits| && n == m - l && Before(bits, l) + bits[l] == Before(bits, m)
    ensures First(bits, m) == Shl(End(bits, l), n)
  {
    if n > 1 {
      BeforeGrows(bits, l + 1, m - 1);
      FirstBehind(bits, l, m - 1, n - 1);
    }
  }

  // ----- prefixes -----

  /** c, of l bits, is not the beginning of d, of l + n bits. */
  ghost predicate NoPrefix(c: nat, d: nat, n: nat) {
    d < Shl(c, n) || Shl(c + 1, n) <= d
  }

  lemma CodeBounds(bits: seq<nat>, p: nat)
    requires |bits| > 1 && p < Total(bits)
    ensures var l := SizeAt(bits, p); 1 <= l < |bits| && First(bits, l) <= CodeAt(bits, p) < End(bits, l)
  {
    SizePlaced(bits, p);
  }

  /** No code is the beginning of another one. */
  lemma PrefixFree(bits: seq<nat>, p: nat, q: nat)
    requires |bits| > 1 && p < Total(bits) && q < Total(bits) && p != q && SizeAt(bits, p) <= SizeAt(bits, q)
    ensures NoPrefix(CodeAt(bits, p), CodeAt(bits, q), SizeAt(bits, q) - SizeAt(bits, p))
  {
    CodeBounds(bits, p);
    CodeBounds(bits, q);
    var l, m := SizeAt(bits, p), SizeAt(bits, q);
    if l < m {
      EndGrows(bits, l, m, m - l);
      ShlMonotone(CodeAt(bits, p) + 1, End(bits, l), m - l);
    }
  }

  lemma {:induction false} ShlMonotone(x: nat, y: nat, n: nat)
    requires x <= y
    ensures Shl(x, n) <= Shl(y, n)
  {
    if n > 0 {
      ShlMonotone(x, y, n - 1);
    }
  }

  lemma {:induction false} ShlOne(n: nat, one: nat)
    requires one == 1
    ensures Shl(one, n) == Pow2(n)
  {
    if n > 0 {
      ShlOne(n - 1, one);
    }
  }

  /** Room at a length means room at every shorter one. */
  lemma RoomBelow(bits: seq<nat>, l: nat, m: nat)
    requires l <= m < |bits| && End(bits, m) < Pow2(m)
    ensures End(bits, l) < Pow2(l)
  {
    var n := m - l;
    EndGrows(bits, l, m, n);
    if End(bits, l) >= Pow2(l) {
      ShlMonotone(Pow2(l), End(bits, l), n);
      PowerShl(l, n, m);
    }
  }

  lemma {:induction false} PowerShl(l: nat, n: nat, m: nat)
    requires l + n == m
    ensures Shl(Pow2(l), n) == Pow2(m)
  {
    if n > 0 {
      PowerShl(l, n - 1, m - 1);
    }
  }
}
