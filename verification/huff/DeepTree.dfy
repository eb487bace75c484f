/** Counts for which a code size reaches 33 bits: Fibonacci numbers, whose tree is a single path. Their total
    is the least one that is not known to be safe. */
module DeepTree {
  import opened KraftSum
  import opened MergeOrder
  import opened HuffmanTree
  import opened LengthLimit
  import opened OptimalTable
  import opened CanonicalCode

  /** The count of symbol s, if it is the k-th Fibonacci number for j < k <= n, k places before the
      pseudo-symbol. */
  function Alone(n: nat, j: nat, s: nat): nat
    requires s <= TABLE_SIZE
  {
    if j < TABLE_SIZE - s <= n then Fib(TABLE_SIZE - s) else 0
  }

  /** The first n Fibonacci numbers as the counts of symbols 255 downwards, and the pseudo-symbol's 1. */
  function FibCounts(n: nat): (w: seq<nat>)
    ensures |w| == SYMBOLS && w[TABLE_SIZE] == 1
    ensures forall s :: 0 <= s < TABLE_SIZE ==> w[s] == Alone(n, 0, s)
  {
    seq(SYMBOLS, s requires 0 <= s < SYMBOLS => if s == TABLE_SIZE then 1 else Alone(n, 0, s))
  }

  lemma {:induction false} FibPositive(k: nat)
    ensures k >= 1 ==> Fib(k) >= 1
  {
    if k > 2 {
      FibPositive(k - 1);
    }
  }

  lemma FibStrict(j: nat)
    requires j >= 2
    ensures Fib(j) < Fib(j + 1)
  {
    FibPositive(j - 1);
    assert Fib(j + 1) == Fib(j) + Fib(j - 1);
  }

  /** One more Fibonacci number. */
  lemma MoreCounts(n: nat)
    requires 0 < n < TABLE_SIZE
    ensures FibCounts(n) == FibCounts(n - 1)[TABLE_SIZE - n := Fib(n)] && FibCounts(n - 1)[TABLE_SIZE - n] == 0
  {
    var w, less := FibCounts(n), FibCounts(n - 1);
    forall s | 0 <= s < SYMBOLS ensures less[TABLE_SIZE - n := Fib(n)][s] == w[s] {
      if s < TABLE_SIZE {
        assert w[s] == Alone(n, 0, s) && less[s] == Alone(n - 1, 0, s);
      }
    }
  }

  lemma NoCounts(n: nat)
    requires n == 0
    ensures FibCounts(n) == seq(SYMBOLS, s => 0)[TABLE_SIZE := 1]
  {
    forall s | 0 <= s < SYMBOLS ensures FibCounts(n)[s] == seq(SYMBOLS, s => 0)[TABLE_SIZE := 1][s] {
      if s < TABLE_SIZE {
        assert FibCounts(n)[s] == Alone(n, 0, s);
      }
    }
  }

  lemma {:induction false} FibTotal(n: nat, m: nat)
    requires n < TABLE_SIZE && m == n + 2
    ensures Sum(FibCounts(n)) == Fib(m)
  {
    if n == 0 {
      var zeros: seq<nat> := seq(SYMBOLS, s => 0);
      NoCounts(n);
      AllZero(zeros);
      SumUpdate(zeros, TABLE_SIZE, 1);
    } else {
      FibTotal(n - 1, m - 1);
      MoreCounts(n);
      SumUpdate(FibCounts(n - 1), TABLE_SIZE - n, Fib(n));
    }
  }

  /** Where the tree that holds the pseudo-symbol is after j merges. */
  function Root(j: nat): int {
    if j <= 1 then TABLE_SIZE else TABLE_SIZE - j
  }

  /** After j merges: one tree of weight Fib(j + 2), and the counts that are still alone. */
  ghost predicate OnePath(w: seq<nat>, n: nat, j: nat) {
    && |w| == SYMBOLS && 1 <= j <= n < TABLE_SIZE && w[Root(j)] == Fib(j + 2)
    && forall s :: 0 <= s < SYMBOLS && s != Root(j) ==> w[s] == Alone(n, j, s)
  }

  /** The next count is smaller than the tree, the tree no larger than the one after it. */
  lemma NextPicks(w: seq<nat>, n: nat, j: nat)
    requires OnePath(w, n, j) && j < n
    ensures Pick(w, -1) == TABLE_SIZE - (j + 1) && Pick(w, TABLE_SIZE - (j + 1)) == Root(j)
  {
    FirstPick(w, n, j, TABLE_SIZE - (j + 1));
    SecondPick(w, n, j, TABLE_SIZE - (j + 1));
  }

  lemma FirstPick(w: seq<nat>, n: nat, j: nat, c: nat)
    requires OnePath(w, n, j) && j < n && c + j + 1 == TABLE_SIZE
    ensures w[c] == Fib(j + 1) > 0 && Pick(w, -1) == c
  {
    FibPositive(j + 1);
    FibStrict(j + 1);
    assert w[c] == Alone(n, j, c);
    forall i | 0 <= i < |w| && w[i] > 0 ensures w[c] <= w[i] && (i > c ==> w[c] < w[i]) {
      if i != Root(j) {
        assert w[i] == Alone(n, j, i);
        FibGrows(j + 1, TABLE_SIZE - i);
      }
    }
    PickUnique(w, -1, |w|, c);
  }

  lemma SecondPick(w: seq<nat>, n: nat, j: nat, c: nat)
    requires OnePath(w, n, j) && j < n && c + j + 1 == TABLE_SIZE
    ensures Pick(w, c) == Root(j)
  {
    var r := Root(j);
    FibPositive(j + 2);
    forall i | 0 <= i < |w| && w[i] > 0 && i != c ensures w[r] <= w[i] && (i > r ==> w[r] < w[i]) {
      if i != r {
        assert w[i] == Alone(n, j, i);
        FibGrows(j + 2, TABLE_SIZE - i);
      }
    }
    PickUnique(w, c, |w|, r);
  }

  lemma NextPath(w: seq<nat>, n: nat, j: nat, c: nat)
    requires OnePath(w, n, j) && j < n && c + j + 1 == TABLE_SIZE
    ensures c != Root(j) && OnePath(Merged(w, c, Root(j)), n, j + 1)
  {
    var w2 := Merged(w, c, Root(j));
    assert w[c] == Alone(n, j, c);
    assert Fib(j + 3) == Fib(j + 2) + Fib(j + 1);
    forall s | 0 <= s < SYMBOLS && s != c ensures w2[s] == Alone(n, j + 1, s) {
      if s != Root(j) {
        assert w[s] == Alone(n, j, s);
      }
    }
  }

  lemma LastPick(w: seq<nat>, n: nat, j: nat)
    requires OnePath(w, n, j) && j == n
    ensures Pick(w, -1) == Root(j) && Pick(w, Root(j)) == -1
  {
    FibPositive(j + 2);
    forall i | 0 <= i < |w| && i != Root(j) ensures w[i] == 0 {
      assert w[i] == Alone(n, j, i);
    }
    PickUnique(w, -1, |w|, Root(j));
    PickUnique(w, Root(j), |w|, -1);
  }

  /** Every merge makes the pseudo-symbol's code one longer. */
  lemma {:induction false} PathSize(w: seq<nat>, lens: seq<nat>, chains: seq<seq<nat>>, n: nat, j: nat)
    requires OnePath(w, n, j) && |lens| == |chains| == SYMBOLS
    requires TABLE_SIZE in chains[Root(j)] && lens[TABLE_SIZE] == j
    ensures Sizes(w, lens, chains)[TABLE_SIZE] == n
    decreases n - j
  {
    if j < n {
      var c1, c2 := TABLE_SIZE - (j + 1), Root(j);
      NextPicks(w, n, j);
      NextPath(w, n, j, c1);
      var z := chains[c1] + chains[c2];
      assert TABLE_SIZE in z;
      PathSize(Merged(w, c1, c2), Bumped(lens, z), MergedChains(chains, c1, c2), n, j + 1);
    } else {
      LastPick(w, n, j);
    }
  }

  lemma FirstMerge(n: nat)
    requires 2 <= n < TABLE_SIZE
    ensures var w := FibCounts(n);
      && Pick(w, -1) == TABLE_SIZE && Pick(w, TABLE_SIZE) == TABLE_SIZE - 1
      && OnePath(Merged(w, TABLE_SIZE, TABLE_SIZE - 1), n, 1)
  {
    var w, j := FibCounts(n), 1;
    var w2 := Merged(w, TABLE_SIZE, TABLE_SIZE - j);
    assert w[TABLE_SIZE - j] == Alone(n, 0, TABLE_SIZE - j);
    PickUnique(w, -1, |w|, TABLE_SIZE);
    PickUnique(w, TABLE_SIZE, |w|, TABLE_SIZE - j);
    assert Fib(j) == 1 && Fib(j + 2) == 2;
    forall s | 0 <= s < SYMBOLS && s != Root(j) ensures w2[s] == Alone(n, j, s) {
      assert w[s] == Alone(n, 0, s);
    }
  }

  /** The pseudo-symbol gets a code of n bits when n Fibonacci numbers are counted. */
  lemma FibDepth(n: nat)
    requires 2 <= n < TABLE_SIZE
    ensures CodeSizes(FibCounts(n))[TABLE_SIZE] == n
  {
    var w := FibCounts(n);
    var zeros, chains := seq(|w|, i => 0), Singletons(w);
    FirstMerge(n);
    var z := chains[TABLE_SIZE] + chains[TABLE_SIZE - 1];
    assert chains[TABLE_SIZE] == [TABLE_SIZE];
    assert TABLE_SIZE in z;
    PathSize(Merged(w, TABLE_SIZE, TABLE_SIZE - 1), Bumped(zeros, z), MergedChains(chains, TABLE_SIZE, TABLE_SIZE - 1), n, 1);
  }

  lemma {:induction false} FibNodes(n: nat)
    requires n < TABLE_SIZE
    ensures Nodes(FibCounts(n)) <= n + 1
  {
    var p := Presence(FibCounts(n));
    if n == 0 {
      NoCounts(n);
      AllZero(p[TABLE_SIZE := 0]);
      SumUpdate(p, TABLE_SIZE, 0);
    } else {
      FibNodes(n - 1);
      MoreCounts(n);
      SumUpdate(p, TABLE_SIZE - n, 0);
      assert p[TABLE_SIZE - n := 0] == Presence(FibCounts(n - 1));
    }
  }

  /** The bound on the total cannot be raised: with these counts, which the algorithm can handle, a code size
      exceeds 32 bits. */
  lemma DeepReached() returns (w: seq<nat>)
    ensures |w| == SYMBOLS && WithPseudo(w) == w && Sum(w) == DEEP <= CUTOFF && Nodes(w) < UINT8
    ensures SizeOverflow(w)
  {
    var m := DeepIsFib();
    var n := m - 2;
    w := FibCounts(n);
    FibTotal(n, m);
    FibNodes(n);
    FibDepth(n);
    assert CodeSizes(w)[TABLE_SIZE] > MAX_CLEN;
  }
}
