/** Counts of code lengths: cutting lengths down to 16 bits keeps the number of codes and the Kraft sum. */
module LengthLimit {
  import opened Powers
  import opened KraftSum

  const MAX_CLEN := 32
  const UINT8 := 256

  /** Code space taken by the codes of each length, at the scale 2^top. */
  function Terms(bits: seq<nat>, top: nat): (t: seq<int>)
    ensures |t| == |bits| && forall l :: 0 <= l < |bits| ==> t[l] == if l <= top then Shl(bits[l], top - l) else 0
  {
    seq(|bits|, l requires 0 <= l < |bits| => if l <= top then Shl(bits[l], top - l) else 0)
  }

  function Space(bits: seq<nat>, top: nat): int {
    Sum(Terms(bits, top))
  }

  /** At least one code, none of them empty, none longer than top, and all code space is used. */
  ghost predicate Full(bits: seq<nat>, top: nat) {
    && |bits| == MAX_CLEN + 1 && 0 < top <= MAX_CLEN && Sum(bits) < UINT8
    && forall k {:trigger Key(k)} :: Key(k) ==>
      && bits[0] == 0 && (forall l :: top < l <= MAX_CLEN ==> bits[l] == 0)
      && Space(bits, top) == Pow2(top)
  }

  predicate DiffersAt(bits: seq<nat>, bits2: seq<nat>, l: nat) {
    |bits| == |bits2| && l < |bits| && forall k :: 0 <= k < |bits| && k != l ==> bits2[k] == bits[k]
  }

  /** d more codes of length l, n bits shorter than top. */
  lemma {:induction false} AddCodes(bits: seq<nat>, bits2: seq<nat>, top: nat, l: nat, n: nat, d: nat)
    requires DiffersAt(bits, bits2, l) && l + n == top && bits2[l] == bits[l] + d
    ensures Space(bits2, top) == Space(bits, top) + Shl(d, n)
    ensures Sum(bits2) == Sum(bits) + d
  {
    SpaceChanged(bits, bits2, top, l, n);
    ShlAdds(bits[l], d, n);
    SumChanged(bits, bits2, l);
  }

  lemma {:induction false} SpaceChanged(bits: seq<nat>, bits2: seq<nat>, top: nat, l: nat, n: nat)
    requires DiffersAt(bits, bits2, l) && l + n == top
    ensures Space(bits2, top) == Space(bits, top) - Shl(bits[l], n) + Shl(bits2[l], n)
  {
    var s, t := Terms(bits, top), Terms(bits2, top);
    TermAt(bits, top, l, n);
    TermAt(bits2, top, l, n);
    forall k | 0 <= k < |s| && k != l ensures t[k] == s[k] {
      SameTerm(bits, bits2, top, k);
    }
    SumChanged(s, t, l);
  }

  lemma SameTerm(bits: seq<nat>, bits2: seq<nat>, top: nat, k: nat)
    requires k < |bits| && k < |bits2| && bits[k] == bits2[k]
    ensures Terms(bits, top)[k] == Terms(bits2, top)[k]
  {
  }

  lemma TermAt(bits: seq<nat>, top: nat, l: nat, n: nat)
    requires l < |bits| && l + n == top
    ensures Terms(bits, top)[l] == Shl(bits[l], n)
  {
    assert top - l == n;
  }

  /** Codes added at two places take as much space when one is twice as long. */
  lemma TwoPlaces(fewer: seq<nat>, top: nat, x: seq<nat>, l: nat, n: nat, y: seq<nat>, k: nat, m: nat)
    requires l < |fewer| && k < |fewer| && l + n == top && k + m == top && m == n + 1
    requires DiffersAt(fewer, x, l) && DiffersAt(fewer, y, k) && x[l] == fewer[l] + 2 && y[k] == fewer[k] + 1
    ensures Space(x, top) == Space(y, top) && Sum(x) == Sum(y) + 1
  {
    AddCodes(fewer, x, top, l, n, 2);
    AddCodes(fewer, y, top, k, m, 1);
    TwoForOne(n, m);
  }

  /** Two codes of length i make room for one of length i - 1. */
  function Joined(bits: seq<nat>, i: nat): (r: seq<nat>)
    requires 0 < i < |bits| && bits[i] >= 2
    ensures |r| == |bits| && r == bits[i := bits[i] - 2][i - 1 := bits[i - 1] + 1]
  {
    bits[i := bits[i] - 2][i - 1 := bits[i - 1] + 1]
  }

  /** A code of length j becomes the prefix of two of length j + 1. */
  function Split(bits: seq<nat>, j: nat): (r: seq<nat>)
    requires j + 1 < |bits| && bits[j] >= 1
    ensures |r| == |bits| && r == bits[j + 1 := bits[j + 1] + 2][j := bits[j] - 1]
  {
    bits[j + 1 := bits[j + 1] + 2][j := bits[j] - 1]
  }

  function Moved(bits: seq<nat>, i: nat, j: nat): (r: seq<nat>)
    requires j + 1 < i < |bits| && bits[i] >= 2 && bits[j] >= 1
    ensures |r| == |bits|
  {
    Split(Joined(bits, i), j)
  }

  lemma JoinedKeeps(bits: seq<nat>, top: nat, i: nat)
    requires 0 < i < |bits| && i <= top && bits[i] >= 2
    ensures Space(Joined(bits, i), top) == Space(bits, top) && Sum(Joined(bits, i)) == Sum(bits) - 1
  {
    TwoPlaces(bits[i := bits[i] - 2], top, bits, i, top - i, Joined(bits, i), i - 1, top - i + 1);
  }

  lemma SplitKeeps(bits: seq<nat>, top: nat, j: nat)
    requires j + 1 < |bits| && j + 1 <= top && bits[j] >= 1
    ensures Space(Split(bits, j), top) == Space(bits, top) && Sum(Split(bits, j)) == Sum(bits) + 1
  {
    TwoPlaces(bits[j := bits[j] - 1], top, Split(bits, j), j + 1, top - j - 1, bits, j, top - j);
  }

  lemma TwoForOne(n: nat, m: nat)
    requires m == n + 1
    ensures Shl(2, n) == Shl(1, m)
  {
    var one := 1;
    ShlInside(one, n);
  }

  lemma MovedKeeps(bits: seq<nat>, top: nat, i: nat, j: nat)
    requires j + 1 < i < |bits| && i <= top && bits[i] >= 2 && bits[j] >= 1
    ensures Space(Moved(bits, i, j), top) == Space(bits, top) && Sum(Moved(bits, i, j)) == Sum(bits)
  {
    JoinedKeeps(bits, top, i);
    SplitKeeps(Joined(bits, i), top, j);
  }

  lemma {:induction false} MovedFull(bits: seq<nat>, top: nat, j: nat)
    requires Full(bits, top) && 1 <= j <= top - 2 && bits[top] >= 2 && bits[j] >= 1
    ensures Full(Moved(bits, top, j), top) && Sum(Moved(bits, top, j)) == Sum(bits)
    ensures Moved(bits, top, j)[top] == bits[top] - 2
  {
    assert Key(0);
    MovedKeeps(bits, top, top, j);
  }

  lemma {:induction false} SumParity(s: seq<int>, i: nat)
    requires i < |s| && forall k :: 0 <= k < |s| && k != i ==> s[k] % 2 == 0
    ensures Sum(s) % 2 == s[i] % 2
  {
    SumUpdate(s, i, 0);
    SumEven(s[i := 0]);
  }

  lemma {:induction false} SumEven(s: seq<int>)
    requires forall k :: 0 <= k < |s| ==> s[k] % 2 == 0
    ensures Sum(s) % 2 == 0
  {
    if s != [] {
      SumEven(s[..|s| - 1]);
    }
  }

  /** Codes of the greatest length come in pairs. */
  lemma LongestPaired(bits: seq<nat>, top: nat)
    requires Full(bits, top)
    ensures bits[top] % 2 == 0
  {
    assert Key(0);
    var t := Terms(bits, top);
    forall l | 0 <= l < |t| && l != top ensures t[l] % 2 == 0 {
      if l < top {
        assert Shl(bits[l], top - l) == 2 * Shl(bits[l], top - l - 1);
      }
    }
    SumParity(t, top);
  }

  /** A shorter code is always there to be split. */
  lemma ShorterExists(bits: seq<nat>, top: nat)
    requires Full(bits, top) && top > 16
    ensures exists l :: 1 <= l <= top - 2 && bits[l] > 0
  {
    assert Key(0);
    if forall l :: 1 <= l <= top - 2 ==> bits[l] == 0 {
      OnlyTwoLengths(bits, top);
      TooFewCodes(bits[top], bits[top - 1], top);
    }
  }

  lemma OnlyTwoLengths(bits: seq<nat>, top: nat)
    requires 1 < top < |bits| && forall l :: 0 <= l < |bits| && l != top && l != top - 1 ==> bits[l] == 0
    ensures Space(bits, top) == bits[top] + 2 * bits[top - 1] && Sum(bits) == bits[top] + bits[top - 1]
  {
    var b1 := bits[top := 0];
    var b2 := b1[top - 1 := 0];
    TwoTerms(bits, b1, b2, top, bits[top], bits[top - 1], 0, 1);
    ZeroSums(b2, top);
  }

  lemma TwoTerms(bits: seq<nat>, b1: seq<nat>, b2: seq<nat>, top: nat, x: nat, y: nat, n: nat, m: nat)
    requires 1 < top < |b1| == |b2| && n == 0 && m == 1
    requires DiffersAt(b1, bits, top) && bits[top] == b1[top] + x
    requires DiffersAt(b2, b1, top - 1) && b1[top - 1] == b2[top - 1] + y
    ensures Space(bits, top) == Space(b2, top) + x + 2 * y && Sum(bits) == Sum(b2) + x + y
  {
    AddCodes(b1, bits, top, top, n, x);
    AddCodes(b2, b1, top, top - 1, m, y);
    assert Shl(x, n) == x && Shl(y, m) == 2 * Shl(y, n);
  }

  lemma ZeroSums(bits: seq<nat>, top: nat)
    requires forall l :: 0 <= l < |bits| ==> bits[l] == 0
    ensures Space(bits, top) == 0 && Sum(bits) == 0
  {
    forall l | 0 <= l < |bits| ensures Terms(bits, top)[l] == 0 {
      if l <= top { ShlOfZero(top - l); }
    }
    SumScaled(Terms(bits, top), bits, 0);
    SumScaled(bits, bits, 0);
  }

  lemma {:induction false} ShlOfZero(n: nat)
    ensures Shl(0, n) == 0
  {
    if n > 0 {
      ShlOfZero(n - 1);
    }
  }

  lemma TooFewCodes(x: nat, y: nat, top: nat)
    requires x + y < UINT8 && top > 16
    ensures x + 2 * y < Pow2(top)
  {
    PowerOfSum(top, top - 16, 16);
    PowerValues();
    MulAtLeast(Pow2(top - 16), 0x1_0000);
  }

  /** Without codes of the greatest length, the next shorter ones are the greatest. */
  lemma NextShorter(bits: seq<nat>, top: nat)
    requires Full(bits, top) && top > 1 && bits[top] == 0
    ensures Full(bits, top - 1)
  {
    assert Key(0);
    forall l | 0 <= l < |bits| ensures Terms(bits, top)[l] == 2 * Terms(bits, top - 1)[l] {
      if l < top {
        assert Shl(bits[l], top - l) == 2 * Shl(bits[l], top - 1 - l);
      }
    }
    SumScaled(Terms(bits, top), Terms(bits, top - 1), 2);
  }

  lemma EachBelow(bits: seq<nat>)
    requires Sum(bits) < UINT8
    ensures forall l :: 0 <= l < |bits| ==> bits[l] < UINT8
  {
    forall l | 0 <= l < |bits| ensures bits[l] < UINT8 {
      SumOne(bits, l);
    }
  }

  /** The greatest length up to j that has a code, or 0. */
  function LastUsed(bits: seq<nat>, j: nat): (l: nat)
    requires j < |bits|
    ensures l <= j && (l > 0 ==> bits[l] > 0) && forall k :: l < k <= j ==> bits[k] == 0
  {
    if j == 0 || bits[j] > 0 then j else LastUsed(bits, j - 1)
  }

  /** The counts with every length above 16 removed, from length i down: two codes of the greatest length go,
      one takes the place of both, and the next shorter code becomes a prefix of two (section K.2). */
  function Limited(bits: seq<nat>, i: nat): (r: seq<nat>)
    requires i < |bits|
    ensures |r| == |bits|
    decreases i, bits[i]
  {
    if i <= 16 then bits
    else if bits[i] == 0 then Limited(bits, i - 1)
    else
      var j := LastUsed(bits, i - 2);
      if bits[i] >= 2 && bits[j] > 0 then Limited(Moved(bits, i, j), i) else bits
  }

  /** The length of the code that becomes a prefix. */
  method FindShorter(bits: array<nat>, i: nat) returns (j: nat)
    requires bits.Length == MAX_CLEN + 1 && 16 < i <= MAX_CLEN && Full(bits[..], i)
    ensures j == LastUsed(bits[..], i - 2) && 1 <= j && bits[j] > 0
  {
    ShorterExists(bits[..], i);
    ghost var l :| 1 <= l <= i - 2 && bits[..][l] > 0;
    j := i - 2;
    while bits[j] == 0
      invariant l <= j <= i - 2 && LastUsed(bits[..], j) == LastUsed(bits[..], i - 2)
      decreases j
    {
      j := j - 1;
    }
  }

  lemma {:induction false} MovedBytes(bits: seq<nat>, i: nat, j: nat)
    requires 1 <= j <= i - 2 && i < |bits| && bits[i] >= 2 && bits[j] > 0 && Sum(bits) < UINT8
    ensures bits[i] < UINT8 && bits[i - 1] + 1 < UINT8 && bits[j] < UINT8
    ensures if j + 1 == i - 1 then bits[j + 1] + 3 < UINT8 else bits[j + 1] + 2 < UINT8
  {
    MovedKeeps(bits, i, i, j);
    EachBelow(bits);
    var moved := Moved(bits, i, j);
    EachBelow(moved);
    assert moved[i - 1] < UINT8 && moved[j + 1] < UINT8;
  }

  /** Replaces two codes of length i. Counts are bytes. */
  method ReplacePair(bits: array<nat>, i: nat, j: nat)
    requires bits.Length == MAX_CLEN + 1 && 1 <= j <= i - 2 && i <= MAX_CLEN && bits[i] >= 2 && bits[j] > 0
    requires Sum(bits[..]) < UINT8
    modifies bits
    ensures bits[..] == Moved(old(bits[..]), i, j)
  {
    MovedBytes(bits[..], i, j);
    bits[i] := (bits[i] - 2) % UINT8;
    bits[i - 1] := (bits[i - 1] + 1) % UINT8;
    bits[j + 1] := (bits[j + 1] + 2) % UINT8;
    bits[j] := (bits[j] - 1) % UINT8;
  }

  /** Removes the codes of length i, two at a time. */
  method RemoveLength(bits: array<nat>, i: nat)
    requires bits.Length == MAX_CLEN + 1 && 16 < i <= MAX_CLEN && Full(bits[..], i)
    modifies bits
    ensures Full(bits[..], i - 1) && Sum(bits[..]) == Sum(old(bits[..]))
    ensures Limited(bits[..], i - 1) == Limited(old(bits[..]), i)
    ensures old(bits[i]) == 0 ==> bits[..] == old(bits[..])
  {
    while bits[i] > 0
      invariant Full(bits[..], i) && Sum(bits[..]) == Sum(old(bits[..]))
      invariant Limited(bits[..], i) == Limited(old(bits[..]), i)
      invariant old(bits[i]) == 0 ==> bits[..] == old(bits[..])
      decreases bits[i]
    {
      LongestPaired(bits[..], i);
      var j := FindShorter(bits, i);
      MovedFull(bits[..], i, j);
      ReplacePair(bits, i, j);
    }
    NextShorter(bits[..], i);
  }

  predicate NoneAbove(bits: seq<nat>, len: nat) {
    forall l :: len < l < |bits| ==> bits[l] == 0
  }

  /** Cuts all lengths down to 16; leaves counts alone that have none longer. */
  method LimitLengths(bits: array<nat>, ghost top: nat)
    requires bits.Length == MAX_CLEN + 1 && top == MAX_CLEN && Full(bits[..], top)
    modifies bits
    ensures bits[..] == Limited(old(bits[..]), top)
    ensures Full(bits[..], 16) && Sum(bits[..]) == Sum(old(bits[..]))
    ensures NoneAbove(old(bits[..]), 16) ==> bits[..] == old(bits[..])
  {
    ghost var before := bits[..];
    var i := MAX_CLEN;
    while i > 16
      invariant 16 <= i <= MAX_CLEN && Full(bits[..], i) && Sum(bits[..]) == Sum(before)
      invariant Limited(bits[..], i) == Limited(before, top)
      invariant NoneAbove(before, 16) ==> bits[..] == before
    {
      RemoveLength(bits, i);
      i := i - 1;
    }
  }
}
