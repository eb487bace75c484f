/** Facts about the decisions of a coefficient that reading them back one by one rests on. */
module CoefficientReading {
  import opened Powers
  import opened CodeInterval
  import opened CoefficientModel

  /** What is read of a DC difference v, and the context that follows it. */
  ghost predicate DcDifferenceRead(c: Conditioning, tbl: nat, context: nat, ok: bool, v: int, next: nat, code: seq<Decision>) {
    forall i {:trigger Key(i)} :: Key(i) ==>
      && code == DcRead(tbl, context, v) && (ok <==> Abs(v) <= 0x8000)
      && (ok ==> next == DcContext(c, v))
  }

  /** The pattern of a number with one more bit at the low end. */
  lemma PatternAppend(st: Bin, q: nat, bit: bool, k: nat)
    ensures Pattern(st, 2 * q + (if bit then 1 else 0), k + 1) == Pattern(st, q, k) + [Decision(st, bit)]
  {
    var w := 2 * q + (if bit then 1 else 0);
    forall i | 0 <= i < k ensures Bit(w, i + 1) == Bit(q, i) {
      assert w / 2 == q;
    }
    assert Bit(w, 0) == bit;
  }

  lemma {:induction false} CategoryIs(w: nat, k: nat)
    requires Pow2(k) <= w < 2 * Pow2(k)
    ensures w > 0 && Category(w) == k
  {
    if k > 0 {
      CategoryIs(w / 2, k - 1);
    }
  }

  /** The category has reached the limit when its power of two is 2^15. */
  lemma {:induction false} CategoryLimit(k: nat)
    requires k <= 15
    ensures Pow2(k) <= 0x8000 && (Pow2(k) == 0x8000 <==> k == 15)
  {
    PowerValues();
    if k < 15 {
      PowerGrows(k, 14);
      assert Pow2(15) == 2 * Pow2(14);
    }
  }

  lemma CategoryDoubled(m: nat, p: nat, q: nat)
    requires m == Pow2(p) && p <= 14 && q == p + 1
    ensures 2 * m == Pow2(q) && (2 * m == 0x8000 <==> q == 15)
  {
    CategoryLimit(q);
  }

  lemma {:induction false} PowerGrows(m: nat, n: nat)
    requires m <= n
    ensures Pow2(m) <= Pow2(n)
  {
    if m < n {
      PowerGrows(m, n - 1);
    }
  }

  /** The magnitude bits of a number of category k read so far are got; those below position left are
      still zeros in v, and m is the next one to be read. */
  ghost predicate PartlyRead(got: seq<Decision>, st: Bin, v: nat, m: nat, k: nat, left: nat) {
    forall i {:trigger Key(i)} :: Key(i) ==>
      && left <= k && m == Pow2(left) / 2 && Pow2(k) <= v <= 2 * Pow2(k) - Pow2(left)
      && v % Pow2(left) == 0 && got == Pattern(st, v / Pow2(left), k - left)
  }

  lemma NothingRead(st: Bin, v: nat, k: nat)
    requires v == Pow2(k)
    ensures PartlyRead([], st, v, v / 2, k, k)
  {
    QuotientIs(v, v, 1, 0);
    assert v % v == 0;
  }

  lemma OneMoreRead(got: seq<Decision>, st: Bin, v: nat, m: nat, k: nat, left: nat, bit: bool)
    requires PartlyRead(got, st, v, m, k, left) && m != 0
    ensures left > 0 && PartlyRead(got + [Decision(st, bit)], st, if bit then v + m else v, m / 2, k, left - 1)
  {
    assert Key(0);
    assert left > 0 && m == Pow2(left - 1);
    NextQuotient(v, m, bit);
    PatternAppend(st, v / (2 * m), bit, k - left);
  }

  lemma NextQuotient(v: nat, m: nat, bit: bool)
    requires m > 0 && v % (2 * m) == 0
    ensures var v2 := if bit then v + m else v;
      v2 / m == 2 * (v / (2 * m)) + (if bit then 1 else 0) && v2 % m == 0
  {
    var q := v / (2 * m);
    var q2 := 2 * q + (if bit then 1 else 0);
    assert v == q * (2 * m);
    Reorder(q, 2, m);
    QuotientIs(if bit then v + m else v, m, q2, 0);
    MultipleMod(q2, m);
  }

  lemma AllRead(got: seq<Decision>, st: Bin, v: nat, k: nat, left: nat)
    requires PartlyRead(got, st, v, 0, k, left)
    ensures got == Pattern(st, v, k) && Pow2(k) <= v < 2 * Pow2(k)
  {
    assert Key(0);
    assert left == 0;
  }

  /** A number of a category below the limit. */
  lemma MagnitudeIs(w: nat, m: nat, k: nat)
    requires k <= 14 && m == Pow2(k) && m <= w < 2 * m
    ensures 0 < w < 0x8000 && Category(w) == k
  {
    CategoryIs(w, k);
    PowerGrows(k, 14);
    PowerValues();
    assert Pow2(15) == 2 * Pow2(14);
  }
}
