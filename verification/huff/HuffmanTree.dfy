/** Huffman's algorithm on linked branches: the code sizes it computes are optimal for the counts. */
module HuffmanTree {
  import opened Powers
  import opened KraftSum
  import opened MergeOrder

  const CUTOFF := 1_000_000_000  // heavier nodes would not be found

  // ----- sums along a branch -----

  function ListSum(chain: seq<nat>, f: seq<int>): int {
    if chain == [] then 0
    else ListSum(chain[..|chain| - 1], f) + (var s := chain[|chain| - 1]; if s < |f| then f[s] else 0)
  }

  lemma {:induction false} ListSumConcat(x: seq<nat>, y: seq<nat>, f: seq<int>)
    ensures ListSum(x + y, f) == ListSum(x, f) + ListSum(y, f)
    decreases |y|
  {
    if y == [] {
      assert x + y == x;
    } else {
      assert (x + y)[..|x + y| - 1] == x + y[..|y| - 1];
      ListSumConcat(x, y[..|y| - 1], f);
    }
  }

  predicate NoRepeats(chain: seq<nat>) {
    forall i, j :: 0 <= i < j < |chain| ==> chain[i] != chain[j]
  }

  /** A list of all places where f is not zero has the whole sum. */
  lemma {:induction false} ListSumIsSum(chain: seq<nat>, f: seq<int>)
    requires NoRepeats(chain) && forall i :: 0 <= i < |f| && f[i] != 0 ==> i in chain
    ensures ListSum(chain, f) == Sum(f)
    decreases |chain|
  {
    if chain == [] {
      AllZero(f);
    } else {
      var init, s := chain[..|chain| - 1], chain[|chain| - 1];
      assert chain == init + [s];
      if s < |f| {
        SumUpdate(f, s, 0);
        ListSumIsSum(init, f[s := 0]);
        ListSumElsewhere(init, f, s, 0);
      } else {
        ListSumIsSum(init, f);
      }
    }
  }

  lemma {:induction false} AllZero(f: seq<int>)
    requires forall i :: 0 <= i < |f| ==> f[i] == 0
    ensures Sum(f) == 0
  {
    if f != [] {
      AllZero(f[..|f| - 1]);
    }
  }

  lemma {:induction false} ListSumElsewhere(chain: seq<nat>, f: seq<int>, s: nat, v: int)
    requires s < |f| && s !in chain
    ensures ListSum(chain, f[s := v]) == ListSum(chain, f)
    decreases |chain|
  {
    if chain != [] {
      ListSumElsewhere(chain[..|chain| - 1], f, s, v);
    }
  }

  lemma {:induction false} ListSumSame(chain: seq<nat>, f: seq<int>, g: seq<int>, k: int)
    requires |f| == |g| && forall i :: 0 <= i < |chain| && chain[i] < |f| ==> f[chain[i]] == k * g[chain[i]]
    ensures ListSum(chain, f) == k * ListSum(chain, g)
    decreases |chain|
  {
    if chain != [] {
      ListSumSame(chain[..|chain| - 1], f, g, k);
    }
  }

  // ----- branches -----

  /** The links lead through the symbols of the branch in order and end there. */
  predicate Linked(chain: seq<nat>, others: seq<int>) {
    forall j :: 0 <= j < |chain| ==> chain[j] < |others| && others[chain[j]] == NextIn(chain, j)
  }

  function NextIn(chain: seq<nat>, j: int): int {
    if 0 <= j && j + 1 < |chain| then chain[j + 1] else -1
  }

  /** Every symbol with a count is in the branch of exactly one node, whose weight is the total of the
      counts in the branch. Nodes of weight zero are not in use. */
  ghost predicate Forest(w0: seq<nat>, w: seq<nat>, others: seq<int>, chains: seq<seq<nat>>) {
    && |w0| == |w| == |others| == |chains| == SYMBOLS
    && (forall i :: 0 <= i < SYMBOLS ==> IsBranch(w0, w[i], others, i, chains[i]))
    && Disjoint(chains) && Covers(w0, chains)
  }

  ghost predicate IsBranch(w0: seq<nat>, weight: nat, others: seq<int>, i: nat, chain: seq<nat>) {
    && Linked(chain, others) && NoRepeats(chain) && weight == ListSum(chain, w0)
    && (if weight == 0 then chain == [] else chain != [] && chain[0] == i)
    && (forall s :: s in chain ==> s < |w0| && w0[s] > 0)
  }

  ghost predicate Disjoint(chains: seq<seq<nat>>) {
    forall i, j, s :: 0 <= i < |chains| && 0 <= j < |chains| && i != j && s in chains[i] ==> s !in chains[j]
  }

  ghost predicate Covers(w0: seq<nat>, chains: seq<seq<nat>>) {
    forall s :: 0 <= s < |w0| && w0[s] > 0 ==> InSome(chains, s)
  }

  ghost predicate InSome(chains: seq<seq<nat>>, s: nat) {
    exists i :: 0 <= i < |chains| && s in chains[i]
  }

  /** Every branch is a complete binary tree: its Kraft sum is exactly 1. */
  ghost predicate Complete(w0: seq<nat>, w: seq<nat>, lens: seq<nat>, chains: seq<seq<nat>>, top: nat) {
    && |w0| == |w| == |lens| == |chains| == SYMBOLS
    && (forall i :: 0 <= i < SYMBOLS ==> lens[i] <= top)
    && (forall i :: 0 <= i < SYMBOLS && w[i] > 0 ==> ListSum(chains[i], Shares(w0, lens, top)) == Pow2(top))
  }

  /** No code for the counts is cheaper than what was spent so far and some code for the nodes. */
  ghost predicate Bound(w0: seq<nat>, spent: int, w: seq<nat>, lens: seq<nat>) {
    |w0| == |lens| && exists lens2, top2 :: IsCode(w, lens2, top2) && spent + Cost(w, lens2) <= Cost(w0, lens)
  }

  ghost predicate Optimal(w0: seq<nat>, spent: int, w: seq<nat>) {
    |w0| == |w| && forall lens, top :: IsCode(w0, lens, top) ==> Bound(w0, spent, w, lens)
  }

  // ----- one merge -----

  lemma MergeLinks(x: seq<nat>, y: seq<nat>, others: seq<int>)
    requires Linked(x, others) && Linked(y, others) && x != [] && y != []
    requires NoRepeats(x) && forall s :: s in x ==> s !in y
    ensures Linked(x + y, others[x[|x| - 1] := y[0]])
  {
    var last := x[|x| - 1];
    assert last in x;
    forall j | 0 <= j < |x + y|
      ensures (x + y)[j] < |others| && others[last := y[0]][(x + y)[j]] == NextIn(x + y, j)
    {
      if j < |x| - 1 {
        assert x[j] != last && (x + y)[j] == x[j];
      } else if j >= |x| {
        var k := j - |x|;
        assert y[k] in y && last !in y && (x + y)[j] == y[k] != last;
        assert others[y[k]] == NextIn(y, k);
      }
    }
  }

  lemma KeepBranch(w0: seq<nat>, weight: nat, others: seq<int>, i: nat, chain: seq<nat>, s: nat, v: int)
    requires IsBranch(w0, weight, others, i, chain) && s < |others| && s !in chain
    ensures IsBranch(w0, weight, others[s := v], i, chain)
  {
  }

  lemma MergeBranches(w0: seq<nat>, u: nat, v: nat, others: seq<int>, c1: nat, c2: nat, x: seq<nat>, y: seq<nat>)
    requires IsBranch(w0, u, others, c1, x) && IsBranch(w0, v, others, c2, y) && u > 0 && v > 0
    requires forall s :: s in x ==> s !in y
    ensures x[|x| - 1] < |others| && IsBranch(w0, u + v, others[x[|x| - 1] := c2], c1, x + y)
  {
    ListSumConcat(x, y, w0);
    MergeLinks(x, y, others);
    assert x[|x| - 1] in x;
    forall i, j | 0 <= i < j < |x + y| ensures (x + y)[i] != (x + y)[j] {
      if i < |x| <= j {
        assert x[i] in x && y[j - |x|] in y;
      }
    }
  }

  lemma MergeForest(w0: seq<nat>, w: seq<nat>, others: seq<int>, chains: seq<seq<nat>>, c1: nat, c2: nat, last: nat)
    requires Forest(w0, w, others, chains) && TwoSymbols(w, c1, c2)
    requires chains[c1] != [] && last == chains[c1][|chains[c1]| - 1]
    ensures last < |others|
    ensures Forest(w0, Merged(w, c1, c2), others[last := c2], MergedChains(chains, c1, c2))
  {
    var x, y, w2, chains2 := chains[c1], chains[c2], Merged(w, c1, c2), MergedChains(chains, c1, c2);
    assert last in x;
    assert forall s :: s in x ==> s !in y;
    MergeBranches(w0, w[c1], w[c2], others, c1, c2, x, y);
    forall i | 0 <= i < SYMBOLS ensures IsBranch(w0, w2[i], others[last := c2], i, chains2[i]) {
      if i != c1 && i != c2 {
        KeptBranch(w0, w, others, chains, c1, c2, last, i);
      }
    }
    MergeDisjoint(chains, c1, c2);
    MergeCovers(w0, chains, c1, c2);
  }

  /** A branch that is not merged stays. */
  lemma KeptBranch(w0: seq<nat>, w: seq<nat>, others: seq<int>, chains: seq<seq<nat>>, c1: nat, c2: nat, last: nat, i: nat)
    requires Forest(w0, w, others, chains) && TwoSymbols(w, c1, c2) && i < SYMBOLS && i != c1 && i != c2
    requires last in chains[c1] && last < |others|
    ensures IsBranch(w0, Merged(w, c1, c2)[i], others[last := c2], i, MergedChains(chains, c1, c2)[i])
  {
    assert last !in chains[i];
    KeepBranch(w0, w[i], others, i, chains[i], last, c2);
  }

  lemma MergeDisjoint(chains: seq<seq<nat>>, c1: nat, c2: nat)
    requires Disjoint(chains) && c1 < |chains| && c2 < |chains| && c1 != c2
    ensures Disjoint(MergedChains(chains, c1, c2))
  {
  }

  lemma MergeCovers(w0: seq<nat>, chains: seq<seq<nat>>, c1: nat, c2: nat)
    requires Covers(w0, chains) && c1 < |chains| && c2 < |chains| && c1 != c2
    ensures Covers(w0, MergedChains(chains, c1, c2))
  {
    var chains2 := MergedChains(chains, c1, c2);
    forall s | 0 <= s < |w0| && w0[s] > 0 ensures InSome(chains2, s) {
      assert InSome(chains, s);
      var i :| 0 <= i < |chains| && s in chains[i];
      assert s in chains2[if i == c2 then c1 else i];
    }
  }

  lemma MergeComplete(w0: seq<nat>, w: seq<nat>, others: seq<int>, lens: seq<nat>, chains: seq<seq<nat>>, top: nat, c1: nat, c2: nat)
    requires Forest(w0, w, others, chains) && Complete(w0, w, lens, chains, top) && TwoSymbols(w, c1, c2)
    ensures Complete(w0, Merged(w, c1, c2), Bumped(lens, chains[c1] + chains[c2]), MergedChains(chains, c1, c2), top + 1)
  {
    var w2, chains2 := Merged(w, c1, c2), MergedChains(chains, c1, c2);
    var f2 := Shares(w0, Bumped(lens, chains[c1] + chains[c2]), top + 1);
    forall i | 0 <= i < SYMBOLS && w2[i] > 0 ensures ListSum(chains2[i], f2) == Pow2(top + 1) {
      if i == c1 {
        MergedBranch(w0, lens, chains[c1], chains[c2], top);
      } else {
        OtherBranch(w0, w, others, lens, chains, top, c1, c2, i);
      }
    }
  }

  lemma MergedBranch(w0: seq<nat>, lens: seq<nat>, x: seq<nat>, y: seq<nat>, top: nat)
    requires |w0| == |lens| && forall i :: 0 <= i < |lens| ==> lens[i] <= top
    requires ListSum(x, Shares(w0, lens, top)) == ListSum(y, Shares(w0, lens, top)) == Pow2(top)
    ensures ListSum(x + y, Shares(w0, Bumped(lens, x + y), top + 1)) == Pow2(top + 1)
  {
    var z := x + y;
    var f, f2 := Shares(w0, lens, top), Shares(w0, Bumped(lens, z), top + 1);
    forall a | 0 <= a < |z| && z[a] < |f2| ensures f2[z[a]] == 1 * f[z[a]] {
      assert z[a] in z;
    }
    ListSumSame(z, f2, f, 1);
    ListSumConcat(x, y, f);
  }

  lemma KeptShare(w0: seq<nat>, lens: seq<nat>, z: seq<nat>, top: nat, top2: nat, s: nat)
    requires |w0| == |lens| && (forall i :: 0 <= i < |lens| ==> lens[i] <= top) && s < |w0| && s !in z && top2 == top + 1
    ensures Shares(w0, Bumped(lens, z), top2)[s] == 2 * Shares(w0, lens, top)[s]
  {
    assert Bumped(lens, z)[s] == lens[s] <= top;
  }

  lemma OtherBranch(w0: seq<nat>, w: seq<nat>, others: seq<int>, lens: seq<nat>, chains: seq<seq<nat>>, top: nat,
                    c1: nat, c2: nat, i: nat)
    requires Forest(w0, w, others, chains) && Complete(w0, w, lens, chains, top) && TwoSymbols(w, c1, c2)
    requires i < SYMBOLS && i != c1 && i != c2 && w[i] > 0
    ensures ListSum(chains[i], Shares(w0, Bumped(lens, chains[c1] + chains[c2]), top + 1)) == Pow2(top + 1)
  {
    var z := chains[c1] + chains[c2];
    var f, f2 := Shares(w0, lens, top), Shares(w0, Bumped(lens, z), top + 1);
    forall a | 0 <= a < |chains[i]| && chains[i][a] < |f2| ensures f2[chains[i][a]] == 2 * f[chains[i][a]] {
      assert chains[i][a] in chains[i];
      assert chains[i][a] !in z;
      KeptShare(w0, lens, z, top, top + 1, chains[i][a]);
    }
    ListSumSame(chains[i], f2, f, 2);
  }

  /** Making the codes of a branch one longer costs the total of its counts. */
  lemma {:induction false} BumpCost(w0: seq<nat>, lens: seq<nat>, chain: seq<nat>)
    requires |w0| == |lens| && NoRepeats(chain) && forall i :: 0 <= i < |chain| ==> chain[i] < |w0|
    ensures Cost(w0, Bumped(lens, chain)) == Cost(w0, lens) + ListSum(chain, w0)
    decreases |chain|
  {
    if chain == [] {
      assert Bumped(lens, chain) == lens;
    } else {
      var init, s := chain[..|chain| - 1], chain[|chain| - 1];
      BumpCost(w0, lens, init);
      CostUpdate(w0, Bumped(lens, init), s, lens[s] + 1);
      assert s !in init;
      assert Bumped(lens, chain) == Bumped(lens, init)[s := lens[s] + 1];
      assert w0[s] * (lens[s] + 1) == w0[s] * lens[s] + w0[s];
    }
  }

  lemma MergeOptimal(w0: seq<nat>, w: seq<nat>, spent: int, c1: nat, c2: nat)
    requires Optimal(w0, spent, w) && Smallest(w, c1, c2)
    ensures Optimal(w0, spent + w[c1] + w[c2], Merged(w, c1, c2))
  {
    forall lens, top | IsCode(w0, lens, top) ensures Bound(w0, spent + w[c1] + w[c2], Merged(w, c1, c2), lens) {
      assert Bound(w0, spent, w, lens);
      var lens2, top2 :| IsCode(w, lens2, top2) && spent + Cost(w, lens2) <= Cost(w0, lens);
      var lens3, top3 := MergeStep(w, lens2, top2, c1, c2);
      assert IsCode(Merged(w, c1, c2), lens3, top3);
    }
  }

  lemma MergeTotal(w: seq<nat>, c1: nat, c2: nat)
    requires TwoSymbols(w, c1, c2)
    ensures Sum(Merged(w, c1, c2)) == Sum(w)
  {
    SumUpdate(w, c1, w[c1] + w[c2]);
    SumUpdate(w[c1 := w[c1] + w[c2]], c2, 0);
  }

  // ----- depth and weight -----

  function Fib(n: nat): nat {
    if n < 2 then n else Fib(n - 1) + Fib(n - 2)
  }

  lemma {:induction false} FibGrows(m: nat, n: nat)
    requires m <= n
    ensures Fib(m) <= Fib(n)
    decreases n
  {
    if m < n {
      FibGrows(m, n - 1);
    }
  }

  /** A node with a code of length d in its branch weighs at least Fib(d + 2), and every other node at
      least as much as a branch one shorter. */
  ghost predicate Heavy(w: seq<nat>, lens: seq<nat>, chains: seq<seq<nat>>) {
    && |w| == |lens| == |chains| == SYMBOLS
    && forall i :: 0 <= i < SYMBOLS ==> HeavyBranch(w, lens, i, chains[i])
  }

  ghost predicate HeavyBranch(w: seq<nat>, lens: seq<nat>, i: nat, chain: seq<nat>) {
    i < |w| && forall s :: s in chain ==> s < |lens| && HeavyAt(w, i, lens[s])
  }

  ghost predicate HeavyAt(w: seq<nat>, i: nat, d: nat)
    requires i < |w|
  {
    && w[i] >= Fib(d + 2)
    && (d > 0 ==> forall j :: 0 <= j < |w| && j != i && w[j] > 0 ==> w[j] >= Fib(d + 1))
  }

  lemma HeavyUntouched(w: seq<nat>, c1: nat, c2: nat, i: nat, d: nat)
    requires TwoSymbols(w, c1, c2) && i < |w| && i != c1 && i != c2 && HeavyAt(w, i, d)
    ensures HeavyAt(Merged(w, c1, c2), i, d)
  {
  }

  lemma HeavyMerged(w: seq<nat>, c1: nat, c2: nat, x: nat, y: nat, d: nat)
    requires Smallest(w, c1, c2) && ((x == c1 && y == c2) || (x == c2 && y == c1)) && HeavyAt(w, x, d)
    ensures HeavyAt(Merged(w, c1, c2), c1, d + 1)
  {
    assert Fib(d + 3) == Fib(d + 2) + Fib(d + 1);
    if d == 0 {
      assert Fib(3) == 2;
    } else {
      assert w[y] >= Fib(d + 1);
    }
  }

  lemma MergeHeavy(w: seq<nat>, lens: seq<nat>, chains: seq<seq<nat>>, c1: nat, c2: nat)
    requires Disjoint(chains) && Heavy(w, lens, chains) && Smallest(w, c1, c2)
    ensures Heavy(Merged(w, c1, c2), Bumped(lens, chains[c1] + chains[c2]), MergedChains(chains, c1, c2))
  {
    var w2, lens2, chains2 := Merged(w, c1, c2), Bumped(lens, chains[c1] + chains[c2]), MergedChains(chains, c1, c2);
    forall i | 0 <= i < SYMBOLS ensures HeavyBranch(w2, lens2, i, chains2[i]) {
      if i == c1 {
        JoinedHeavy(w, lens, chains[c1], chains[c2], c1, c2);
      } else if i != c2 {
        assert HeavyBranch(w, lens, i, chains[i]);
        forall s | s in chains[i] ensures s < |lens2| && HeavyAt(w2, i, lens2[s]) {
          assert s !in chains[c1] && s !in chains[c2];
          HeavyUntouched(w, c1, c2, i, lens[s]);
        }
      }
    }
  }

  lemma JoinedHeavy(w: seq<nat>, lens: seq<nat>, x: seq<nat>, y: seq<nat>, c1: nat, c2: nat)
    requires |w| == |lens| && Smallest(w, c1, c2) && HeavyBranch(w, lens, c1, x) && HeavyBranch(w, lens, c2, y)
    ensures HeavyBranch(Merged(w, c1, c2), Bumped(lens, x + y), c1, x + y)
  {
    forall s | s in x + y ensures s < |lens| && HeavyAt(Merged(w, c1, c2), c1, Bumped(lens, x + y)[s]) {
      if s in x {
        HeavyMerged(w, c1, c2, c1, c2, lens[s]);
      } else {
        assert s in y;
        HeavyMerged(w, c1, c2, c2, c1, lens[s]);
      }
    }
  }

  lemma StartHeavy(w0: seq<nat>, lens: seq<nat>)
    requires |w0| == |lens| == SYMBOLS && forall i :: 0 <= i < SYMBOLS ==> lens[i] == 0
    ensures Heavy(w0, lens, Singletons(w0))
  {
    assert Fib(2) == 1;
  }

  /** No code is longer than the total of the counts allows. */
  ghost predicate DepthBounded(w0: seq<nat>, lens: seq<nat>) {
    |w0| == |lens| && forall s :: 0 <= s < |w0| && w0[s] > 0 ==> Fib(lens[s] + 2) <= Sum(w0)
  }

  lemma DepthBelow(w: seq<nat>, lens: seq<nat>, n: nat)
    requires DepthBounded(w, lens) && Sum(w) < Fib(n)
    ensures forall s :: 0 <= s < |w| && w[s] > 0 ==> lens[s] + 2 < n
  {
    forall s | 0 <= s < |w| && w[s] > 0 ensures lens[s] + 2 < n {
      if n <= lens[s] + 2 {
        FibGrows(n, lens[s] + 2);
      }
    }
  }

  lemma EndHeavy(w0: seq<nat>, w: seq<nat>, others: seq<int>, lens: seq<nat>, chains: seq<seq<nat>>, c: nat)
    requires Forest(w0, w, others, chains) && Heavy(w, lens, chains) && Sum(w) == Sum(w0) && c < SYMBOLS
    requires forall i :: 0 <= i < SYMBOLS && i != c ==> w[i] == 0
    ensures DepthBounded(w0, lens)
  {
    SumUpdate(w, c, 0);
    AllZero(w[c := 0]);
    forall s | 0 <= s < |w0| && w0[s] > 0 ensures Fib(lens[s] + 2) <= Sum(w0) {
      assert InSome(chains, s);
      var i :| 0 <= i < |chains| && s in chains[i];
      assert IsBranch(w0, w[i], others, i, chains[i]);
      assert HeavyBranch(w, lens, i, chains[i]);
    }
  }

  // ----- the algorithm -----

  /** The smallest nonzero weight except that of one node; in case of ties, the larger index. */
  method FindSmallest(freq: array<nat>, except: int) returns (c: int)
    requires freq.Length == SYMBOLS && forall i :: 0 <= i < SYMBOLS ==> freq[i] <= CUTOFF
    ensures c == Pick(freq[..], except)
  {
    c := -1;
    var v := CUTOFF;
    for i := 0 to SYMBOLS
      invariant c == PickTo(freq[..], except, i) && -1 <= c < i
      invariant v == if c < 0 then CUTOFF else freq[c]
    {
      if freq[i] != 0 && freq[i] <= v && i != except {
        v := freq[i];
        c := i;
      }
    }
  }

  /** The links walk through all of the branch. */
  ghost predicate Walk(chain: seq<nat>, others: seq<int>) {
    forall k {:trigger Key(k)} :: Key(k) ==> Linked(chain, others) && NoRepeats(chain)
  }

  lemma BumpOneMore(lens: seq<nat>, chain: seq<nat>, others: seq<int>, j: nat)
    requires Walk(chain, others) && |others| == |lens| && j < |chain|
    ensures chain[j] < |lens| && Bumped(lens, chain[..j])[chain[j]] == lens[chain[j]]
    ensures Bumped(lens, chain[..j])[chain[j] := lens[chain[j]] + 1] == Bumped(lens, chain[..j + 1])
  {
    assert Key(0);
    assert chain[j] !in chain[..j];
    assert chain[..j + 1] == chain[..j] + [chain[j]];
  }

  lemma LinkAt(chain: seq<nat>, others: seq<int>, j: nat)
    requires Walk(chain, others) && j < |chain|
    ensures chain[j] < |others| && others[chain[j]] == NextIn(chain, j)
    ensures j + 1 < |chain| ==> chain[j + 1] < |others|
  {
    assert Key(0);
    if j + 1 < |chain| {
      var k := j + 1;
      assert others[chain[k]] == NextIn(chain, k);
    }
  }

  /** Makes the code sizes in the branch that starts at c0 one longer; returns its last symbol. */
  method BumpBranch(codesize: array<nat>, others: array<int>, c0: nat, ghost chain: seq<nat>) returns (c: nat)
    requires codesize.Length == others.Length == SYMBOLS
    requires Walk(chain, others[..]) && chain != [] && chain[0] == c0
    modifies codesize
    ensures codesize[..] == Bumped(old(codesize[..]), chain)
    ensures c == chain[|chain| - 1] < SYMBOLS
  {
    c := c0;
    ghost var lens := codesize[..];
    LinkAt(chain, others[..], 0);
    BumpOneMore(lens, chain, others[..], 0);
    assert codesize[..] == Bumped(lens, chain[..0]);
    codesize[c] := codesize[c] + 1;
    ghost var j := 0;
    while others[c] >= 0
      invariant 0 <= j < |chain| && c == chain[j] < SYMBOLS
      invariant codesize[..] == Bumped(lens, chain[..j + 1])
      decreases |chain| - j
    {
      LinkAt(chain, others[..], j);
      BumpOneMore(lens, chain, others[..], j + 1);
      c := others[c];
      codesize[c] := codesize[c] + 1;
      j := j + 1;
    }
    LinkAt(chain, others[..], j);
    assert chain[..j + 1] == chain;
  }

  /** What every round of merging keeps. */
  ghost predicate Growing(w0: seq<nat>, w: seq<nat>, lens: seq<nat>, others: seq<int>, chains: seq<seq<nat>>, top: nat) {
    forall k {:trigger Key(k)} :: Key(k) ==>
      && Forest(w0, w, others, chains) && Complete(w0, w, lens, chains, top)
      && Optimal(w0, Cost(w0, lens), w) && Sum(w) == Sum(w0) && Heavy(w, lens, chains)
      && forall s :: 0 <= s < SYMBOLS && w0[s] == 0 ==> lens[s] == 0
  }

  lemma StartForest(w0: seq<nat>, others: seq<int>)
    requires |w0| == |others| == SYMBOLS && forall i :: 0 <= i < SYMBOLS ==> others[i] == -1
    ensures Forest(w0, w0, others, Singletons(w0))
  {
    var chains := Singletons(w0);
    forall i | 0 <= i < SYMBOLS ensures IsBranch(w0, w0[i], others, i, chains[i]) {
      SingleSum(i, w0);
    }
    forall s | 0 <= s < |w0| && w0[s] > 0 ensures InSome(chains, s) {
      assert s in chains[s];
    }
  }

  lemma StartComplete(w0: seq<nat>, lens: seq<nat>)
    requires |w0| == |lens| == SYMBOLS && forall i :: 0 <= i < SYMBOLS ==> lens[i] == 0
    ensures Complete(w0, w0, lens, Singletons(w0), 0)
  {
    var f, chains := Shares(w0, lens, 0), Singletons(w0);
    forall i | 0 <= i < SYMBOLS && w0[i] > 0 ensures ListSum(chains[i], f) == Pow2(0) {
      SingleSum(i, f);
    }
  }

  lemma StartOptimal(w0: seq<nat>, lens: seq<nat>)
    requires |w0| == |lens| && forall i :: 0 <= i < |w0| ==> lens[i] == 0
    ensures Optimal(w0, Cost(w0, lens), w0)
  {
    AllZero(Products(w0, lens));
    forall g, top | IsCode(w0, g, top) ensures Bound(w0, Cost(w0, lens), w0, g) {
      assert IsCode(w0, g, top);
    }
  }

  lemma GrowingStart(w0: seq<nat>, lens: seq<nat>, others: seq<int>)
    requires |w0| == |lens| == |others| == SYMBOLS
    requires forall i :: 0 <= i < SYMBOLS ==> lens[i] == 0 && others[i] == -1
    ensures Growing(w0, w0, lens, others, Singletons(w0), 0)
  {
    StartForest(w0, others);
    StartComplete(w0, lens);
    StartOptimal(w0, lens);
    StartHeavy(w0, lens);
  }

  lemma SingleSum(s: nat, f: seq<int>)
    requires s < |f|
    ensures ListSum([s], f) == f[s]
  {
    assert [s][..0] == [];
  }

  lemma GrowingMore(w0: seq<nat>, w: seq<nat>, lens: seq<nat>, others: seq<int>, chains: seq<seq<nat>>, top: nat,
                    c1: nat, c2: nat, last: nat)
    requires Growing(w0, w, lens, others, chains, top) && Smallest(w, c1, c2)
    requires |w| == |lens| == |others| == |chains| == SYMBOLS
    requires chains[c1] != [] && last == chains[c1][|chains[c1]| - 1] < |others|
    ensures Growing(w0, Merged(w, c1, c2), Bumped(lens, chains[c1] + chains[c2]), others[last := c2],
                    MergedChains(chains, c1, c2), top + 1)
  {
    assert Key(0);
    var z := chains[c1] + chains[c2];
    MergeForest(w0, w, others, chains, c1, c2, last);
    MergeComplete(w0, w, others, lens, chains, top, c1, c2);
    MergeOptimal(w0, w, Cost(w0, lens), c1, c2);
    MergeTotal(w, c1, c2);
    MergeHeavy(w, lens, chains, c1, c2);
    BranchCost(w0, w, lens, others, chains, c1, c2);
  }

  lemma BranchCost(w0: seq<nat>, w: seq<nat>, lens: seq<nat>, others: seq<int>, chains: seq<seq<nat>>, c1: nat, c2: nat)
    requires Forest(w0, w, others, chains) && TwoSymbols(w, c1, c2) && |lens| == |w0|
    ensures Cost(w0, Bumped(lens, chains[c1] + chains[c2])) == Cost(w0, lens) + w[c1] + w[c2]
    ensures forall s :: 0 <= s < SYMBOLS && w0[s] == 0 ==> s !in chains[c1] + chains[c2]
  {
    var x, y := chains[c1], chains[c2];
    assert IsBranch(w0, w[c1], others, c1, x) && IsBranch(w0, w[c2], others, c2, y);
    MergeBranches(w0, w[c1], w[c2], others, c1, c2, x, y);
    assert IsBranch(w0, w[c1] + w[c2], others[x[|x| - 1] := c2], c1, x + y);
    forall i | 0 <= i < |x + y| ensures (x + y)[i] < |w0| {
      assert (x + y)[i] in x + y;
    }
    BumpCost(w0, lens, x + y);
  }

  /** The branch of a node in use. */
  lemma GrowingBranch(w0: seq<nat>, w: seq<nat>, lens: seq<nat>, others: seq<int>, chains: seq<seq<nat>>, top: nat, c: nat)
    requires Growing(w0, w, lens, others, chains, top) && c < |w| && w[c] > 0
    ensures |w| == |others| == |chains| == SYMBOLS && Walk(chains[c], others) && chains[c] != [] && chains[c][0] == c
    ensures Sum(w) == Sum(w0)
  {
    assert Key(0);
    assert IsBranch(w0, w[c], others, c, chains[c]);
  }

  /** No weight exceeds the total. */
  lemma WeightsBelow(w: seq<nat>, limit: nat)
    requires Sum(w) <= limit
    ensures forall i :: 0 <= i < |w| ==> w[i] <= limit
  {
    forall i | 0 <= i < |w| ensures w[i] <= limit {
      SumOne(w, i);
    }
  }

  /** Code sizes of a complete tree that no code for the counts undercuts. */
  ghost predicate OptimalSizes(w0: seq<nat>, lens: seq<nat>) {
    && |w0| == |lens|
    && (exists top :: IsCode(w0, lens, top) && Kraft(w0, lens, top) == Pow2(top))
    && (forall g, top :: IsCode(w0, g, top) ==> Cost(w0, lens) <= Cost(w0, g))
    && (forall s :: 0 <= s < |w0| && w0[s] == 0 ==> lens[s] == 0)
  }

  lemma EndKraft(w0: seq<nat>, w: seq<nat>, lens: seq<nat>, others: seq<int>, chains: seq<seq<nat>>, top: nat, c: nat)
    requires Forest(w0, w, others, chains) && Complete(w0, w, lens, chains, top) && c < SYMBOLS && w[c] > 0
    requires forall i :: 0 <= i < SYMBOLS && i != c ==> w[i] == 0
    ensures IsCode(w0, lens, top) && Kraft(w0, lens, top) == Pow2(top)
  {
    var f, chain := Shares(w0, lens, top), chains[c];
    forall s | 0 <= s < |f| && f[s] != 0 ensures s in chain {
      assert InSome(chains, s);
      var i :| 0 <= i < |chains| && s in chains[i];
      assert IsBranch(w0, w[i], others, i, chains[i]);
    }
    assert IsBranch(w0, w[c], others, c, chain);
    ListSumIsSum(chain, f);
  }

  lemma EndOptimal(w0: seq<nat>, w: seq<nat>, spent: int, g: seq<nat>, top: nat)
    requires Optimal(w0, spent, w) && IsCode(w0, g, top)
    ensures spent <= Cost(w0, g)
  {
    assert Bound(w0, spent, w, g);
    var lens2, top2 :| IsCode(w, lens2, top2) && spent + Cost(w, lens2) <= Cost(w0, g);
    SumNonnegative(Products(w, lens2));
  }

  lemma GrowingEnd(w0: seq<nat>, w: seq<nat>, lens: seq<nat>, others: seq<int>, chains: seq<seq<nat>>, top: nat, c: nat)
    requires Growing(w0, w, lens, others, chains, top) && c < |w| && w[c] > 0
    requires forall i :: 0 <= i < |w| && i != c ==> w[i] == 0
    ensures OptimalSizes(w0, lens) && DepthBounded(w0, lens)
  {
    assert Key(0);
    EndHeavy(w0, w, others, lens, chains, c);
    EndKraft(w0, w, lens, others, chains, top, c);
    forall g, t | IsCode(w0, g, t) ensures Cost(w0, lens) <= Cost(w0, g) {
      EndOptimal(w0, w, Cost(w0, lens), g, t);
    }
  }

  lemma SecondBranch(w0: seq<nat>, w: seq<nat>, lens: seq<nat>, others: seq<int>, chains: seq<seq<nat>>, top: nat,
                     c1: nat, c2: nat, last: nat)
    requires Growing(w0, w, lens, others, chains, top) && TwoSymbols(w, c1, c2)
    requires |w| == |lens| == |others| == |chains| == SYMBOLS
    requires chains[c1] != [] && last == chains[c1][|chains[c1]| - 1] < |others|
    ensures Walk(chains[c2], others[last := c2])
    ensures Bumped(Bumped(lens, chains[c1]), chains[c2]) == Bumped(lens, chains[c1] + chains[c2])
  {
    assert Key(0);
    var x, y := chains[c1], chains[c2];
    assert last in x;
    assert IsBranch(w0, w[c2], others, c2, y);
    assert forall s :: s in x ==> s !in y;
    KeepBranch(w0, w[c2], others, c2, y, last, c2);
    forall i | 0 <= i < |lens| ensures Bumped(Bumped(lens, x), y)[i] == Bumped(lens, x + y)[i] {
      assert i in x + y <==> i in x || i in y;
    }
  }

  /** Merges the trees of two nodes: c2's branch is chained to c1's. */
  method MergeNodes(freq: array<nat>, codesize: array<nat>, others: array<int>, c1: nat, c2: nat,
                    ghost w0: seq<nat>, ghost chains: seq<seq<nat>>, ghost top: nat)
    requires freq.Length == codesize.Length == others.Length == |chains| == SYMBOLS && freq != codesize
    requires Growing(w0, freq[..], codesize[..], others[..], chains, top) && Smallest(freq[..], c1, c2)
    modifies freq, codesize, others
    ensures Growing(w0, freq[..], codesize[..], others[..], MergedChains(chains, c1, c2), top + 1)
    ensures freq[..] == Merged(old(freq[..]), c1, c2)
    ensures codesize[..] == Bumped(old(codesize[..]), chains[c1] + chains[c2])
  {
    ghost var w, lens, links := freq[..], codesize[..], others[..];
    GrowingBranch(w0, w, lens, links, chains, top, c1);
    GrowingBranch(w0, w, lens, links, chains, top, c2);
    freq[c1] := freq[c1] + freq[c2];
    freq[c2] := 0;
    assert freq[..] == Merged(w, c1, c2);
    var last := BumpBranch(codesize, others, c1, chains[c1]);
    others[last] := c2;
    assert others[..] == links[last := c2];
    SecondBranch(w0, w, lens, links, chains, top, c1, c2, last);
    var end := BumpBranch(codesize, others, c2, chains[c2]);
    assert codesize[..] == Bumped(lens, chains[c1] + chains[c2]);
    GrowingMore(w0, w, lens, links, chains, top, c1, c2, last);
  }

  /** The code sizes assigned are optimal. */
  lemma {:induction false} SizesOptimal(w0: seq<nat>, w: seq<nat>, lens: seq<nat>, others: seq<int>, chains: seq<seq<nat>>, top: nat)
    requires Growing(w0, w, lens, others, chains, top) && |w| == |lens| == |others| == |chains| == SYMBOLS && Sum(w) > 0
    ensures OptimalSizes(w0, Sizes(w, lens, chains)) && DepthBounded(w0, Sizes(w, lens, chains))
    decreases Nodes(w)
  {
    var c1 := Pick(w, -1);
    var c2 := Pick(w, c1);
    PickIs(w, -1, |w|);
    PickIs(w, c1, |w|);
    if c1 < 0 { AllZero(w); }
    if c2 < 0 {
      GrowingEnd(w0, w, lens, others, chains, top, c1);
    } else {
      PicksSmallest(w);
      FewerNodes(w, c1, c2);
      MergeTotal(w, c1, c2);
      GrowingBranch(w0, w, lens, others, chains, top, c1);
      var last := chains[c1][|chains[c1]| - 1];
      LinkAt(chains[c1], others, |chains[c1]| - 1);
      GrowingMore(w0, w, lens, others, chains, top, c1, c2, last);
      SizesOptimal(w0, Merged(w, c1, c2), Bumped(lens, chains[c1] + chains[c2]), others[last := c2],
                   MergedChains(chains, c1, c2), top + 1);
    }
  }

  /** So are the code sizes for any counts. */
  lemma CodeSizesOptimal(w: seq<nat>)
    requires |w| == SYMBOLS && w[SYMBOLS - 1] > 0
    ensures OptimalSizes(w, CodeSizes(w)) && DepthBounded(w, CodeSizes(w))
  {
    var zeros, none := seq(|w|, i => 0), seq(|w|, i => -1);
    GrowingStart(w, zeros, none);
    SumOne(w, SYMBOLS - 1);
    SizesOptimal(w, w, zeros, none, Singletons(w), 0);
  }

  /** Every symbol is a branch of its own, with no code yet. */
  method ClearBranches(codesize: array<nat>, others: array<int>)
    requires codesize.Length == others.Length == SYMBOLS
    modifies codesize, others
    ensures forall j :: 0 <= j < SYMBOLS ==> codesize[j] == 0 && others[j] == -1
  {
    for i := 0 to SYMBOLS
      invariant forall j :: 0 <= j < i ==> codesize[j] == 0 && others[j] == -1
    {
      codesize[i] := 0;
      others[i] := -1;
    }
  }

  /** Merges the two smallest nodes until one is left. */
  method AssignCodeSizes(freq: array<nat>, codesize: array<nat>, others: array<int>)
    requires freq.Length == codesize.Length == others.Length == SYMBOLS && freq != codesize
    requires freq[SYMBOLS - 1] > 0 && Sum(freq[..]) <= CUTOFF
    modifies freq, codesize, others
    ensures codesize[..] == CodeSizes(old(freq[..]))
    ensures OptimalSizes(old(freq[..]), codesize[..]) && DepthBounded(old(freq[..]), codesize[..])
  {
    ghost var w0 := freq[..];
    ClearBranches(codesize, others);
    ghost var chains, top: nat := Singletons(w0), 0;
    GrowingStart(w0, codesize[..], others[..]);
    AssigningStart(w0, codesize[..]);
    CodeSizesOptimal(w0);
    while true
      invariant Growing(w0, freq[..], codesize[..], others[..], chains, top) && |chains| == SYMBOLS
      invariant Sum(freq[..]) == Sum(w0) <= CUTOFF
      invariant Assigning(w0, freq[..], codesize[..], chains)
      decreases Nodes(freq[..])
    {
      WeightsBelow(freq[..], CUTOFF);
      var c1 := FindSmallest(freq, -1);
      var c2 := FindSmallest(freq, c1);
      if c2 < 0 {
        AssigningEnd(w0, freq[..], codesize[..], chains);
        return;
      }
      SecondPicked(freq[..]);
      PicksSmallest(freq[..]);
      FewerNodes(freq[..], c1, c2);
      MergeTotal(freq[..], c1, c2);
      SumNonnegative(Presence(freq[..]));
      AssigningMore(w0, freq[..], codesize[..], chains, c1, c2);
      MergeNodes(freq, codesize, others, c1, c2, w0, chains, top);
      chains, top := MergedChains(chains, c1, c2), top + 1;
    }
  }
}
