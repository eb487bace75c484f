/** Prefix codes as sets of bit strings: their lengths satisfy Kraft's inequality, so the code sizes that
    are optimal among such lengths are optimal among all prefix codes. */
module PrefixCodes {
  import opened Powers
  import opened KraftSum
  import opened HuffmanTree

  type Word = seq<bool>

  predicate IsPrefix(x: Word, y: Word) {
    |x| <= |y| && x == y[..|x|]
  }

  /** A word for every symbol that counts; none of them begins another one. */
  predicate PrefixCode(w: seq<nat>, words: seq<Word>) {
    && |w| == |words|
    && forall i, j :: 0 <= i < |w| && 0 <= j < |w| && i != j && w[i] > 0 && w[j] > 0 ==> !IsPrefix(words[i], words[j])
  }

  function Sizes(words: seq<Word>): (lens: seq<nat>)
    ensures |lens| == |words| && forall i :: 0 <= i < |words| ==> lens[i] == |words[i]|
  {
    seq(|words|, i requires 0 <= i < |words| => |words[i]|)
  }

  /** The symbols whose words begin with a bit. */
  function Starting(w: seq<nat>, words: seq<Word>, bit: bool): (v: seq<nat>)
    requires |w| == |words|
    ensures |v| == |w|
    ensures forall i :: 0 <= i < |w| ==> v[i] == if words[i] != [] && words[i][0] == bit then w[i] else 0
  {
    seq(|w|, i requires 0 <= i < |w| => if words[i] != [] && words[i][0] == bit then w[i] else 0)
  }

  function Tails(words: seq<Word>): (t: seq<Word>)
    ensures |t| == |words| && forall i :: 0 <= i < |words| ==> t[i] == if words[i] == [] then [] else words[i][1..]
  {
    seq(|words|, i requires 0 <= i < |words| => if words[i] == [] then [] else words[i][1..])
  }

  lemma {:induction false} SumOfSums(s: seq<int>, t: seq<int>, u: seq<int>)
    requires |s| == |t| == |u| && forall i :: 0 <= i < |s| ==> s[i] == t[i] + u[i]
    ensures Sum(s) == Sum(t) + Sum(u)
  {
    if s != [] {
      SumOfSums(s[..|s| - 1], t[..|t| - 1], u[..|u| - 1]);
    }
  }

  lemma TailsPrefixCode(w: seq<nat>, words: seq<Word>, bit: bool)
    requires PrefixCode(w, words)
    ensures PrefixCode(Starting(w, words, bit), Tails(words))
  {
    var v, t := Starting(w, words, bit), Tails(words);
    forall i, j | 0 <= i < |v| && 0 <= j < |v| && i != j && v[i] > 0 && v[j] > 0 ensures !IsPrefix(t[i], t[j]) {
      assert !IsPrefix(words[i], words[j]);
      assert words[i] == [bit] + t[i] && words[j] == [bit] + t[j];
    }
  }

  /** The empty word leaves no room for a second one. */
  lemma OnlyEmpty(w: seq<nat>, words: seq<Word>, top: nat, i: nat)
    requires PrefixCode(w, words) && i < |w| && w[i] > 0 && words[i] == []
    ensures Kraft(w, Sizes(words), top) == Pow2(top)
  {
    var s := Shares(w, Sizes(words), top);
    forall j | 0 <= j < |s| && j != i ensures s[j] == 0 {
      assert IsPrefix(words[i], words[j]);
    }
    SumUpdate(s, i, 0);
    AllZero(s[i := 0]);
  }

  /** Without an empty word, the words divide by their first bits. */
  lemma {:induction false} FirstBits(w: seq<nat>, words: seq<Word>, top: nat)
    requires |w| == |words| && top > 0 && forall i :: 0 <= i < |w| && w[i] > 0 ==> words[i] != []
    ensures Kraft(w, Sizes(words), top) == Kraft(Starting(w, words, false), Sizes(Tails(words)), top - 1)
                                           + Kraft(Starting(w, words, true), Sizes(Tails(words)), top - 1)
  {
    var lens := Sizes(Tails(words));
    SumOfSums(Shares(w, Sizes(words), top), Shares(Starting(w, words, false), lens, top - 1),
              Shares(Starting(w, words, true), lens, top - 1));
  }

  /** Kraft's inequality. */
  lemma {:induction false} KraftInequality(w: seq<nat>, words: seq<Word>, top: nat)
    requires PrefixCode(w, words) && forall i :: 0 <= i < |w| && w[i] > 0 ==> |words[i]| <= top
    ensures IsCode(w, Sizes(words), top)
    decreases top
  {
    if i: nat :| i < |w| && w[i] > 0 && words[i] == [] {
      OnlyEmpty(w, words, top, i);
    } else if top == 0 {
      AllZero(Shares(w, Sizes(words), top));
    } else {
      var zeros, ones, tails := Starting(w, words, false), Starting(w, words, true), Tails(words);
      TailsPrefixCode(w, words, false);
      TailsPrefixCode(w, words, true);
      KraftInequality(zeros, tails, top - 1);
      KraftInequality(ones, tails, top - 1);
      FirstBits(w, words, top);
    }
  }

  /** No prefix code for the counts is cheaper than the code sizes of the merged tree. */
  lemma OptimalAmongPrefixCodes(w: seq<nat>, lens: seq<nat>, words: seq<Word>)
    requires OptimalSizes(w, lens) && PrefixCode(w, words)
    ensures Cost(w, lens) <= Cost(w, Sizes(words))
  {
    var top := Longest(words);
    KraftInequality(w, words, top);
    assert IsCode(w, Sizes(words), top);
  }

  function Longest(words: seq<Word>): (top: nat)
    ensures forall i :: 0 <= i < |words| ==> |words[i]| <= top
  {
    if words == [] then 0
    else
      var rest := Longest(words[..|words| - 1]);
      if |words[|words| - 1]| > rest then |words[|words| - 1]| else rest
  }
}
