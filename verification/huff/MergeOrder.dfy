/** The code sizes that Huffman's algorithm assigns, as a function of the counts (figures K.1 and K.2 of
    ITU-T T.81): which nodes are merged, ties included, and what that does to the sizes. */
module MergeOrder {
  import opened Powers
  import opened KraftSum

  const SYMBOLS := 257           // 256 real symbols and a pseudo-symbol

  // ----- nodes -----

  /** Number of nodes in use. */
  function Nodes(w: seq<nat>): int {
    Sum(Presence(w))
  }

  function Presence(w: seq<nat>): (p: seq<int>)
    ensures |p| == |w| && forall i :: 0 <= i < |w| ==> p[i] == if w[i] > 0 then 1 else 0
  {
    seq(|w|, i requires 0 <= i < |w| => if w[i] > 0 then 1 else 0)
  }

  lemma FewerNodes(w: seq<nat>, c1: nat, c2: nat)
    requires TwoSymbols(w, c1, c2)
    ensures 0 <= Nodes(Merged(w, c1, c2)) < Nodes(w)
  {
    SumUpdate(Presence(w), c2, 0);
    assert Presence(Merged(w, c1, c2)) == Presence(w)[c2 := 0];
    SumNonnegative(Presence(Merged(w, c1, c2)));
  }

  /** The smallest nonzero weight among the first n except that of one node; in case of ties, the larger
      index. */
  function PickTo(w: seq<nat>, except: int, n: nat): (c: int)
    requires n <= |w|
    ensures -1 <= c < n
  {
    if n == 0 then -1
    else
      var c := PickTo(w, except, n - 1);
      if w[n - 1] != 0 && n - 1 != except && (c < 0 || w[n - 1] <= w[c]) then n - 1 else c
  }

  function Pick(w: seq<nat>, except: int): (c: int)
    ensures -1 <= c < |w|
  {
    PickTo(w, except, |w|)
  }

  predicate NoneSmaller(w: seq<nat>, except: int, n: nat, c: nat)
    requires c < n <= |w|
  {
    forall i :: 0 <= i < n && w[i] > 0 && i != except ==> w[c] <= w[i] && (i > c ==> w[c] < w[i])
  }

  predicate IsPick(w: seq<nat>, except: int, n: nat, c: int) {
    && n <= |w| && -1 <= c < n
    && (c == -1 ==> forall i :: 0 <= i < n && i != except ==> w[i] == 0)
    && (c >= 0 ==> w[c] > 0 && c != except && NoneSmaller(w, except, n, c))
  }

  lemma {:induction false} PickIs(w: seq<nat>, except: int, n: nat)
    requires n <= |w|
    ensures IsPick(w, except, n, PickTo(w, except, n))
  {
    if n > 0 {
      PickIs(w, except, n - 1);
    }
  }

  lemma PickUnique(w: seq<nat>, except: int, n: nat, c: int)
    requires IsPick(w, except, n, c)
    ensures PickTo(w, except, n) == c
  {
    PickIs(w, except, n);
  }

  /** There is no second node without a first. */
  lemma SecondPicked(w: seq<nat>)
    requires Pick(w, Pick(w, -1)) >= 0
    ensures Pick(w, -1) >= 0
  {
    PickIs(w, -1, |w|);
    PickIs(w, Pick(w, -1), |w|);
  }

  /** The two nodes picked have the smallest weights. */
  lemma PicksSmallest(w: seq<nat>)
    requires Pick(w, -1) >= 0 && Pick(w, Pick(w, -1)) >= 0
    ensures Smallest(w, Pick(w, -1), Pick(w, Pick(w, -1)))
  {
    PickIs(w, -1, |w|);
    PickIs(w, Pick(w, -1), |w|);
  }

  // ----- branches -----

  /** All lengths in a list one longer. */
  function Bumped(lens: seq<nat>, chain: seq<nat>): (r: seq<nat>)
    ensures |r| == |lens| && forall i :: 0 <= i < |lens| ==> r[i] == lens[i] + (if i in chain then 1 else 0)
  {
    seq(|lens|, i requires 0 <= i < |lens| => lens[i] + (if i in chain then 1 else 0))
  }

  function MergedChains(chains: seq<seq<nat>>, c1: nat, c2: nat): seq<seq<nat>>
    requires c1 < |chains| && c2 < |chains|
  {
    chains[c1 := chains[c1] + chains[c2]][c2 := []]
  }

  /** A node for every symbol. */
  function Singletons(w0: seq<nat>): (chains: seq<seq<nat>>)
    ensures |chains| == |w0| && forall i :: 0 <= i < |w0| ==> chains[i] == if w0[i] == 0 then [] else [i]
  {
    seq(|w0|, i requires 0 <= i < |w0| => if w0[i] == 0 then [] else [i])
  }

  /** The code sizes once the merging has come to its end, from the weights, sizes and branches so far. */
  function Sizes(w: seq<nat>, lens: seq<nat>, chains: seq<seq<nat>>): (r: seq<nat>)
    requires |w| == |lens| == |chains|
    ensures |r| == |w|
    decreases Nodes(w)
  {
    var c1 := Pick(w, -1);
    var c2 := Pick(w, c1);
    if c1 < 0 || c2 < 0 then lens
    else
      PicksSmallest(w);
      FewerNodes(w, c1, c2);
      Sizes(Merged(w, c1, c2), Bumped(lens, chains[c1] + chains[c2]), MergedChains(chains, c1, c2))
  }

  /** The code size of every symbol. */
  function CodeSizes(w: seq<nat>): (lens: seq<nat>)
    ensures |lens| == |w|
  {
    Sizes(w, seq(|w|, i => 0), Singletons(w))
  }

  /** The sizes to come are those of the counts w0. */
  ghost predicate Assigning(w0: seq<nat>, w: seq<nat>, lens: seq<nat>, chains: seq<seq<nat>>) {
    forall k {:trigger Key(k)} :: Key(k) ==> |w| == |lens| == |chains| && Sizes(w, lens, chains) == CodeSizes(w0)
  }

  lemma AssigningStart(w0: seq<nat>, lens: seq<nat>)
    requires |lens| == |w0| && forall i :: 0 <= i < |lens| ==> lens[i] == 0
    ensures Assigning(w0, w0, lens, Singletons(w0))
  {
    assert lens == seq(|w0|, i => 0);
  }

  lemma AssigningMore(w0: seq<nat>, w: seq<nat>, lens: seq<nat>, chains: seq<seq<nat>>, c1: nat, c2: nat)
    requires Assigning(w0, w, lens, chains) && c1 == Pick(w, -1) && c2 == Pick(w, c1) && |w| == |lens| == |chains|
    ensures Assigning(w0, Merged(w, c1, c2), Bumped(lens, chains[c1] + chains[c2]), MergedChains(chains, c1, c2))
  {
    assert Key(0);
  }

  lemma AssigningEnd(w0: seq<nat>, w: seq<nat>, lens: seq<nat>, chains: seq<seq<nat>>)
    requires Assigning(w0, w, lens, chains) && Pick(w, Pick(w, -1)) < 0
    ensures lens == CodeSizes(w0)
  {
    assert Key(0);
  }
}
