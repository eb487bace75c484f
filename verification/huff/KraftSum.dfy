/** Weighted code lengths: the Kraft sum and the cost of a code, and how one merge of the two smallest
    weights relates any code to a code with one symbol less (section K.2 of ITU-T T.81). */
module KraftSum {
  import opened Powers

  function Sum(s: seq<int>): int {
    if s == [] then 0 else Sum(s[..|s| - 1]) + s[|s| - 1]
  }

  lemma {:induction false} SumUpdate(s: seq<int>, i: nat, v: int)
    requires i < |s|
    ensures Sum(s[i := v]) == Sum(s) - s[i] + v
  {
    var n := |s| - 1;
    if i < n {
      SumUpdate(s[..n], i, v);
      assert s[i := v][..n] == s[..n][i := v];
    } else {
      assert s[i := v][..n] == s[..n];
    }
  }

  lemma SumChanged(s: seq<int>, t: seq<int>, i: nat)
    requires |s| == |t| && i < |s| && forall k :: 0 <= k < |s| && k != i ==> t[k] == s[k]
    ensures Sum(t) == Sum(s) - s[i] + t[i]
  {
    SumUpdate(s, i, t[i]);
    assert t == s[i := t[i]];
  }

  lemma {:induction false} SumScaled(s: seq<int>, t: seq<int>, k: int)
    requires |s| == |t| && forall i :: 0 <= i < |s| ==> s[i] == k * t[i]
    ensures Sum(s) == k * Sum(t)
  {
    if s != [] {
      SumScaled(s[..|s| - 1], t[..|t| - 1], k);
    }
  }

  /** Weights of the symbols; a weight of zero means that there is no such symbol. lens are code lengths. */
  function Share(w: nat, len: nat, top: nat): nat {
    if w == 0 || len > top then 0 else Pow2(top - len)
  }

  function Shares(w: seq<nat>, lens: seq<nat>, top: nat): (s: seq<int>)
    requires |w| == |lens|
    ensures |s| == |w| && forall i :: 0 <= i < |w| ==> s[i] == Share(w[i], lens[i], top)
  {
    seq(|w|, i requires 0 <= i < |w| => Share(w[i], lens[i], top))
  }

  function Products(w: seq<nat>, lens: seq<nat>): (s: seq<int>)
    requires |w| == |lens|
    ensures |s| == |w| && forall i :: 0 <= i < |w| ==> s[i] == w[i] * lens[i]
  {
    seq(|w|, i requires 0 <= i < |w| => w[i] * lens[i])
  }

  /** Sum of 2^-len over the symbols, times 2^top. */
  function Kraft(w: seq<nat>, lens: seq<nat>, top: nat): int
    requires |w| == |lens|
  {
    Sum(Shares(w, lens, top))
  }

  function Cost(w: seq<nat>, lens: seq<nat>): int
    requires |w| == |lens|
  {
    Sum(Products(w, lens))
  }

  /** Lengths up to top that satisfy Kraft's inequality. */
  predicate IsCode(w: seq<nat>, lens: seq<nat>, top: nat) {
    && |w| == |lens|
    && (forall i :: 0 <= i < |w| && w[i] > 0 ==> lens[i] <= top)
    && Kraft(w, lens, top) <= Pow2(top)
  }

  predicate TwoSymbols(w: seq<nat>, a: nat, b: nat) {
    a < |w| && b < |w| && a != b && w[a] > 0 && w[b] > 0
  }

  lemma KraftUpdate(w: seq<nat>, lens: seq<nat>, top: nat, i: nat, len: nat)
    requires |w| == |lens| && i < |w|
    ensures Kraft(w, lens[i := len], top) == Kraft(w, lens, top) - Share(w[i], lens[i], top) + Share(w[i], len, top)
  {
    SumUpdate(Shares(w, lens, top), i, Share(w[i], len, top));
    assert Shares(w, lens[i := len], top) == Shares(w, lens, top)[i := Share(w[i], len, top)];
  }

  lemma CostUpdate(w: seq<nat>, lens: seq<nat>, i: nat, len: nat)
    requires |w| == |lens| && i < |w|
    ensures Cost(w, lens[i := len]) == Cost(w, lens) + w[i] * len - w[i] * lens[i]
  {
    SumUpdate(Products(w, lens), i, w[i] * len);
    assert Products(w, lens[i := len]) == Products(w, lens)[i := w[i] * len];
  }

  /** Without a symbol of the greatest length, the sum can be taken at half the scale. */
  lemma HalfScale(w: seq<nat>, lens: seq<nat>, top: nat)
    requires |w| == |lens| && top > 0 && forall i :: 0 <= i < |w| && w[i] > 0 ==> lens[i] < top
    ensures Kraft(w, lens, top) == 2 * Kraft(w, lens, top - 1)
  {
    SumScaled(Shares(w, lens, top), Shares(w, lens, top - 1), 2);
  }

  lemma OneFactorLess(x: nat, n: nat)
    ensures x * (n - 1) == x * n - x
  {
  }

  /** The only symbol of the greatest length can be made shorter: the other terms of the sum are even. */
  lemma ShortenOnly(w: seq<nat>, lens: seq<nat>, top: nat, z: nat)
    requires IsCode(w, lens, top) && top > 0 && z < |w| && w[z] > 0 && lens[z] == top
    requires forall i :: 0 <= i < |w| && w[i] > 0 && i != z ==> lens[i] < top
    ensures IsCode(w, lens[z := top - 1], top - 1) && Cost(w, lens[z := top - 1]) <= Cost(w, lens)
  {
    var lens1 := lens[z := top - 1];
    KraftUpdate(w, lens, top, z, top - 1);
    CostUpdate(w, lens, z, top - 1);
    HalfScale(w, lens1, top);
    assert Kraft(w, lens1, top) == Kraft(w, lens, top) + 1;
    OneFactorLess(w[z], top);
  }

  /** Some code of no greater cost has two symbols of the greatest length. */
  lemma {:induction false} Tighten(w: seq<nat>, lens: seq<nat>, top: nat, a: nat, b: nat)
    returns (lens2: seq<nat>, top2: nat, x: nat, y: nat)
    requires IsCode(w, lens, top) && TwoSymbols(w, a, b)
    ensures IsCode(w, lens2, top2) && Cost(w, lens2) <= Cost(w, lens)
    ensures TwoSymbols(w, x, y) && lens2[x] == lens2[y] == top2
    decreases top
  {
    if x0: nat, y0: nat :| TwoSymbols(w, x0, y0) && lens[x0] == lens[y0] == top {
      return lens, top, x0, y0;
    }
    if z: nat :| z < |w| && w[z] > 0 && lens[z] == top {
      forall i: nat | i < |w| && w[i] > 0 && i != z ensures lens[i] < top {
        assert TwoSymbols(w, z, i);
      }
      var other := if z == a then b else a;
      assert lens[other] < top;
      ShortenOnly(w, lens, top, z);
      lens2, top2, x, y := Tighten(w, lens[z := top - 1], top - 1, a, b);
    } else {
      assert lens[a] < top;
      HalfScale(w, lens, top);
      lens2, top2, x, y := Tighten(w, lens, top - 1, a, b);
    }
  }

  /** Giving a greatest length to a symbol that is no heavier than the one that had it costs nothing. */
  lemma MoveToTop(w: seq<nat>, lens: seq<nat>, top: nat, c: nat, x: nat)
    requires IsCode(w, lens, top) && c < |w| && x < |w| && 0 < w[c] <= w[x] && lens[x] == top
    ensures var lens2 := lens[c := top][x := lens[c]];
      IsCode(w, lens2, top) && Cost(w, lens2) <= Cost(w, lens)
  {
    var d := lens[c];
    KraftUpdate(w, lens, top, c, top);
    CostUpdate(w, lens, c, top);
    KraftUpdate(w, lens[c := top], top, x, d);
    CostUpdate(w, lens[c := top], x, d);
    if c != x {
      Exchange(w[c], w[x], d, top);
    }
  }

  lemma Exchange(u: nat, v: nat, d: nat, t: nat)
    requires u <= v && d <= t
    ensures u * t + v * d <= u * d + v * t
  {
    assert (v - u) * (t - d) >= 0;
    assert (v - u) * (t - d) == v * t - v * d - u * t + u * d;
  }

  predicate Smallest(w: seq<nat>, c1: nat, c2: nat) {
    && TwoSymbols(w, c1, c2)
    && (forall i :: 0 <= i < |w| && w[i] > 0 ==> w[c1] <= w[i])
    && (forall i :: 0 <= i < |w| && w[i] > 0 && i != c1 ==> w[c2] <= w[i])
  }

  /** Some code of no greater cost gives the two smallest weights the greatest length. */
  lemma SmallestToTop(w: seq<nat>, lens: seq<nat>, top: nat, c1: nat, c2: nat)
    returns (lens2: seq<nat>, top2: nat)
    requires IsCode(w, lens, top) && Smallest(w, c1, c2)
    ensures IsCode(w, lens2, top2) && Cost(w, lens2) <= Cost(w, lens)
    ensures lens2[c1] == lens2[c2] == top2
  {
    var g, t, x, y := Tighten(w, lens, top, c1, c2);
    if y == c1 { x, y := y, x; }
    MoveToTop(w, g, t, c1, x);
    var g1 := g[c1 := t][x := g[c1]];
    MoveToTop(w, g1, t, c2, y);
    lens2, top2 := g1[c2 := t][y := g1[c2]], t;
  }

  function Merged(w: seq<nat>, c1: nat, c2: nat): (w2: seq<nat>)
    requires c1 < |w| && c2 < |w|
    ensures |w2| == |w|
  {
    w[c1 := w[c1] + w[c2]][c2 := 0]
  }

  /** Merging the two smallest weights: any code yields one for the merged weights that is cheaper by
      their sum. */
  lemma MergeStep(w: seq<nat>, lens: seq<nat>, top: nat, c1: nat, c2: nat)
    returns (lens2: seq<nat>, top2: nat)
    requires IsCode(w, lens, top) && Smallest(w, c1, c2)
    ensures IsCode(Merged(w, c1, c2), lens2, top2)
    ensures Cost(Merged(w, c1, c2), lens2) + w[c1] + w[c2] <= Cost(w, lens)
  {
    var g, t := SmallestToTop(w, lens, top, c1, c2);
    AtLeastOne(w, g, t, c1, c2);
    lens2, top2 := g[c1 := t - 1], t;
    MergedKraft(w, g, t, c1, c2);
    MergedCost(w, g, t, c1, c2);
  }

  lemma {:induction false} SumTwo(s: seq<int>, i: nat, j: nat)
    requires i < |s| && j < |s| && i != j && forall k :: 0 <= k < |s| ==> s[k] >= 0
    ensures Sum(s) >= s[i] + s[j]
  {
    var t := s[i := 0];
    SumUpdate(s, i, 0);
    SumOne(t, j);
  }

  lemma {:induction false} SumOne(s: seq<int>, i: nat)
    requires i < |s| && forall k :: 0 <= k < |s| ==> s[k] >= 0
    ensures Sum(s) >= s[i]
  {
    SumUpdate(s, i, 0);
    SumNonnegative(s[i := 0]);
  }

  lemma {:induction false} SumNonnegative(s: seq<int>)
    requires forall k :: 0 <= k < |s| ==> s[k] >= 0
    ensures Sum(s) >= 0
  {
    if s != [] {
      SumNonnegative(s[..|s| - 1]);
    }
  }

  /** Two symbols cannot both have the empty code. */
  lemma AtLeastOne(w: seq<nat>, lens: seq<nat>, top: nat, c1: nat, c2: nat)
    requires IsCode(w, lens, top) && TwoSymbols(w, c1, c2) && lens[c1] == lens[c2] == top
    ensures top > 0
  {
    SumTwo(Shares(w, lens, top), c1, c2);
    var one := Pow2(top - lens[c1]);
    assert one == 1;
  }

  lemma MergedKraft(w: seq<nat>, g: seq<nat>, t: nat, c1: nat, c2: nat)
    requires |w| == |g| && TwoSymbols(w, c1, c2) && g[c1] == g[c2] == t && t > 0
    ensures Kraft(Merged(w, c1, c2), g[c1 := t - 1], t) == Kraft(w, g, t)
  {
    var s := Shares(w, g, t);
    SumUpdate(s, c1, 2);
    SumUpdate(s[c1 := 2], c2, 0);
    assert Shares(Merged(w, c1, c2), g[c1 := t - 1], t) == s[c1 := 2][c2 := 0];
  }

  lemma MergedCost(w: seq<nat>, g: seq<nat>, t: nat, c1: nat, c2: nat)
    requires |w| == |g| && TwoSymbols(w, c1, c2) && g[c1] == g[c2] == t && t > 0
    ensures Cost(Merged(w, c1, c2), g[c1 := t - 1]) + w[c1] + w[c2] == Cost(w, g)
  {
    var s := Products(w, g);
    SumUpdate(s, c1, (w[c1] + w[c2]) * (t - 1));
    SumUpdate(s[c1 := (w[c1] + w[c2]) * (t - 1)], c2, 0);
    assert (w[c1] + w[c2]) * (t - 1) == w[c1] * t + w[c2] * t - w[c1] - w[c2];
    assert Products(Merged(w, c1, c2), g[c1 := t - 1]) == s[c1 := (w[c1] + w[c2]) * (t - 1)][c2 := 0];
  }
}
