/** Powers of two and the few arithmetic facts about shifts that the coders share, and the key that
    guards their invariants. */
module Powers {

  /** Object invariants of the coders are stated for every key, so that a proof that only passes an
      invariant on need not look at its parts; a proof that needs them asserts Key(0). */
  ghost predicate Key(k: int) {
    true
  }

  function Pow2(n: nat): (p: nat)
    ensures p > 0
  {
    if n == 0 then 1 else 2 * Pow2(n - 1)
  }

  /** x << n, without a product of two variables. */
  function Shl(x: nat, n: nat): nat {
    if n == 0 then x else 2 * Shl(x, n - 1)
  }

  lemma {:induction false} ShlIsProduct(x: nat, n: nat)
    ensures Shl(x, n) == x * Pow2(n)
  {
    if n > 0 {
      ShlIsProduct(x, n - 1);
    }
  }

  lemma {:induction false} ShlInside(x: nat, n: nat)
    ensures Shl(2 * x, n) == Shl(x, n + 1)
  {
    if n > 0 {
      ShlInside(x, n - 1);
    }
  }

  lemma {:induction false} ShlTwice(x: nat, m: nat, n: nat)
    ensures Shl(Shl(x, m), n) == Shl(x, m + n)
  {
    if n > 0 {
      ShlTwice(x, m, n - 1);
    }
  }

  lemma {:induction false} ShlAdds(x: nat, y: nat, n: nat)
    ensures Shl(x + y, n) == Shl(x, n) + Shl(y, n)
  {
    if n > 0 {
      ShlAdds(x, y, n - 1);
    }
  }

  lemma {:induction false} ShlInjective(x: nat, y: nat, n: nat)
    requires Shl(x, n) == Shl(y, n)
    ensures x == y
  {
    if n > 0 {
      ShlInjective(x, y, n - 1);
    }
  }

  lemma {:induction false} ShlGrows(x: nat, m: nat, n: nat)
    requires m <= n
    ensures Shl(x, m) <= Shl(x, n)
    decreases n
  {
    if m < n {
      ShlGrows(x, m, n - 1);
    }
  }

  lemma {:induction false} ShlAtLeast(x: nat, n: nat)
    ensures x <= Shl(x, n)
  {
    if n > 0 {
      ShlAtLeast(x, n - 1);
    }
  }

  lemma PowerValues()
    ensures Pow2(7) == 0x80 && Pow2(8) == 0x100 && Pow2(11) == 0x800 && Pow2(15) == 0x8000 && Pow2(16) == 0x1_0000
    ensures Pow2(19) == 0x8_0000 && Pow2(24) == 0x100_0000 && Pow2(27) == 0x800_0000
  {
    assert Pow2(8) == 0x100;
    assert Pow2(16) == 0x100 * Pow2(8) by { Pow2Add(8, 8); }
    assert Pow2(24) == 0x100 * Pow2(16) by { Pow2Add(8, 16); }
  }

  lemma {:induction false} Pow2Add(m: nat, n: nat)
    ensures Pow2(m + n) == Pow2(m) * Pow2(n)
  {
    if m == 0 {
    } else {
      Pow2Add(m - 1, n);
      assert Pow2(m + n) == 2 * Pow2(m - 1 + n);
    }
  }

  /** A common positive factor on both sides keeps the order, and strict order. */
  lemma ScaleOrder(x: int, y: int, k: nat)
    requires k > 0
    ensures x <= y <==> x * k <= y * k
    ensures x < y <==> x * k < y * k
  {
    if x < y { MulStrict(x, y, k); }
    if y < x { MulStrict(y, x, k); }
  }

  lemma MulStrict(x: int, y: int, k: nat)
    requires x < y && k > 0
    ensures x * k < y * k
  {
    assert (y - x) * k >= k by { MulAtLeast(y - x, k); }
    assert y * k == x * k + (y - x) * k;
  }

  lemma MulAtLeast(x: nat, k: nat)
    requires x >= 1
    ensures x * k >= k
  {
  }

  lemma MultipleMod(q: int, j: nat)
    requires j > 0
    ensures (q * j) % j == 0
  {
    var d, r := (q * j) / j, (q * j) % j;
    assert (q - d) * j == r;
    if q - d >= 1 { MulAtLeast(q - d, j); }
    if q - d <= -1 { MulAtLeast(d - q, j); }
  }

  lemma DividesThrough(x: nat, i: nat, j: nat)
    requires i > 0 && j > 0 && i * j > 0 && x % (i * j) == 0
    ensures x % j == 0
  {
    var q := x / (i * j);
    assert x == q * (i * j) == (q * i) * j;
    MultipleMod(q * i, j);
  }

  lemma Reorder(x: int, y: int, z: int)
    ensures x * (y * z) == (x * y) * z == (x * z) * y
  {
  }

  lemma CancelFactor(x: int, y: int, k: nat)
    requires k > 0 && x * k == y * k
    ensures x == y
  {
    ScaleOrder(x, y, k);
    ScaleOrder(y, x, k);
  }

  lemma PowerOfSum(t: nat, m: nat, n: nat)
    requires t == m + n
    ensures Pow2(t) == Pow2(m) * Pow2(n)
  {
    Pow2Add(m, n);
  }

  lemma QuotientIs(w: nat, p: nat, q: nat, r: nat)
    requires p > 0 && w == q * p + r && r < p
    ensures w / p == q
  {
    var d, m := w / p, w % p;
    assert (d - q) * p == r - m;
    if d > q { MulAtLeast(d - q, p); }
    if d < q { MulAtLeast(q - d, p); }
  }

  lemma SmallMod(x: int, p: nat)
    requires x + p >= 0 && x < p
    ensures x % p == if x < 0 then x + p else x
  {
    var v := if x < 0 then x + p else x;
    assert x == (if x < 0 then -1 else 0) * p + v;
    MultipleOf(x, p, if x < 0 then -1 else 0, v);
  }

  lemma MultipleOf(x: int, p: nat, q: int, v: int)
    requires x == q * p + v && 0 <= v < p
    ensures x % p == v
  {
    var d := x / p - q;
    assert d * p == v - x % p;
    if d >= 1 { MulStrict(0, d, p); }
    if d <= -1 { MulStrict(d, 0, p); }
    assert d == 0 || d * p >= p || d * p <= -1 * p;
  }

  lemma FloorIs(w: int, p: nat, q: int, r: nat)
    requires w == q * p + r && r < p
    ensures w / p == q && w % p == r
  {
    MultipleOf(w, p, q, r);
    CancelFactor(w / p, q, p);
  }
}
