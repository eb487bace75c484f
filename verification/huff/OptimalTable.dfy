/** From symbol counts to a Huffman table: optimal code sizes, cut down to 16 bits, with the place of a
    pseudo-symbol left free, and the symbols listed by code size. */
module OptimalTable {
  import opened Powers
  import opened KraftSum
  import opened MergeOrder
  import opened HuffmanTree
  import opened LengthLimit
  import opened CanonicalCode
  import opened DerivedTable

  // ----- code sizes of a complete tree -----

  /** A complete tree can be measured at any scale that its depth allows. */
  lemma {:induction false} KraftAt(w: seq<nat>, lens: seq<nat>, top: nat, scale: nat)
    requires |w| == |lens| && (forall i :: 0 <= i < |w| && w[i] > 0 ==> lens[i] <= top && lens[i] <= scale)
    requires Kraft(w, lens, top) == Pow2(top)
    ensures Kraft(w, lens, scale) == Pow2(scale)
    decreases if top < scale then scale - top else top - scale
  {
    if top < scale {
      HalfScale(w, lens, top + 1);
      KraftAt(w, lens, top + 1, scale);
    } else if scale < top {
      HalfScale(w, lens, top);
      KraftAt(w, lens, top - 1, scale);
    }
  }

  /** With two symbols or more, no code is empty. */
  lemma UsedPositive(w: seq<nat>, lens: seq<nat>, top: nat, a: nat, b: nat)
    requires IsCode(w, lens, top) && TwoSymbols(w, a, b)
    ensures lens[a] > 0
  {
    SumTwo(Shares(w, lens, top), a, b);
  }

  // ----- counting sizes -----

  function Occurrences(s: seq<nat>, v: nat): nat {
    if s == [] then 0 else Occurrences(s[..|s| - 1], v) + if s[|s| - 1] == v then 1 else 0
  }

  /** What the counts say after the sizes of the first i symbols. */
  ghost predicate LengthsCounted(w: seq<nat>, lens: seq<nat>, bits: seq<nat>, i: nat, top: nat) {
    && |bits| == MAX_CLEN + 1 && |w| == |lens| && i <= |w|
    && forall k {:trigger Key(k)} :: Key(k) ==>
      && bits[0] == 0 && (forall l :: 1 <= l <= MAX_CLEN ==> bits[l] == Occurrences(lens[..i], l))
      && Space(bits, top) == Sum(Shares(w, lens, top)[..i]) && Sum(bits) == Sum(Presence(w)[..i])
  }

  lemma {:induction false} CountStart(w: seq<nat>, lens: seq<nat>, bits: seq<nat>, top: nat)
    requires |bits| == MAX_CLEN + 1 && |w| == |lens| && NoneAbove(bits, 0) && bits[0] == 0
    ensures LengthsCounted(w, lens, bits, 0, top)
  {
    ZeroSums(bits, top);
  }

  lemma {:induction false} CountOne(w: seq<nat>, lens: seq<nat>, bits: seq<nat>, i: nat, top: nat)
    requires LengthsCounted(w, lens, bits, i, top) && i < |w| && w[i] > 0 && 1 <= lens[i] <= MAX_CLEN && lens[i] <= top
    ensures LengthsCounted(w, lens, bits[lens[i] := bits[lens[i]] + 1], i + 1, top)
    ensures bits[lens[i]] <= Sum(Presence(w)[..i])
  {
    assert Key(0);
    var l := lens[i];
    var bits2 := bits[l := bits[l] + 1];
    SumOne(bits, l);
    AddCodes(bits, bits2, top, l, top - l, 1);
    ShlOne(top - l, 1);
    PrefixSum(Shares(w, lens, top), i);
    PrefixSum(Presence(w), i);
    assert lens[..i + 1][..i] == lens[..i];
  }

  lemma {:induction false} CountNone(w: seq<nat>, lens: seq<nat>, bits: seq<nat>, i: nat, top: nat)
    requires LengthsCounted(w, lens, bits, i, top) && i < |w| && w[i] == 0 && lens[i] == 0
    ensures LengthsCounted(w, lens, bits, i + 1, top)
  {
    assert Key(0);
    PrefixSum(Shares(w, lens, top), i);
    PrefixSum(Presence(w), i);
    assert lens[..i + 1][..i] == lens[..i];
  }

  lemma PrefixSum(s: seq<int>, i: nat)
    requires i < |s|
    ensures Sum(s[..i + 1]) == Sum(s[..i]) + s[i]
  {
    assert s[..i + 1][..i] == s[..i];
  }

  lemma {:induction false} PrefixSumAtMost(s: seq<int>, i: nat)
    requires i <= |s| && forall k :: 0 <= k < |s| ==> s[k] >= 0
    ensures Sum(s[..i]) <= Sum(s)
    decreases |s| - i
  {
    if i < |s| {
      PrefixSum(s, i);
      PrefixSumAtMost(s, i + 1);
    } else {
      assert s[..i] == s;
    }
  }

  predicate SizesFor(w: seq<nat>, lens: seq<nat>) {
    |w| == |lens| && forall s :: 0 <= s < |w| ==> (lens[s] > 0 <==> w[s] > 0)
  }

  /** Counts the codes of each size; fails when a size does not fit. Counts are bytes. */
  method CountSizes(codesize: array<nat>, bits: array<nat>, ghost w: seq<nat>, ghost top: nat) returns (ok: bool)
    requires codesize.Length == SYMBOLS && bits.Length == MAX_CLEN + 1 && codesize != bits && top == MAX_CLEN
    requires SizesFor(w, codesize[..]) && Nodes(w) < UINT8
    modifies bits
    ensures ok <==> forall s :: 0 <= s < SYMBOLS ==> codesize[s] <= MAX_CLEN
    ensures ok ==> LengthsCounted(w, codesize[..], bits[..], SYMBOLS, top)
  {
    ClearCounts(bits);
    CountStart(w, codesize[..], bits[..], top);
    for i := 0 to SYMBOLS
      invariant forall s :: 0 <= s < i ==> codesize[s] <= MAX_CLEN
      invariant LengthsCounted(w, codesize[..], bits[..], i, top)
    {
      if codesize[i] != 0 {
        if codesize[i] > MAX_CLEN { return false; }
        CountCode(codesize, bits, i, w, top);
      } else {
        CountNone(w, codesize[..], bits[..], i, top);
      }
    }
    return true;
  }

  method ClearCounts(bits: array<nat>)
    requires bits.Length == MAX_CLEN + 1
    modifies bits
    ensures forall k :: 0 <= k < bits.Length ==> bits[k] == 0
  {
    for l := 0 to MAX_CLEN + 1
      invariant forall k :: 0 <= k < l ==> bits[k] == 0
    {
      bits[l] := 0;
    }
  }

  method CountCode(codesize: array<nat>, bits: array<nat>, i: nat, ghost w: seq<nat>, ghost top: nat)
    requires codesize.Length == SYMBOLS && bits.Length == MAX_CLEN + 1 && codesize != bits && top == MAX_CLEN
    requires SizesFor(w, codesize[..]) && Nodes(w) < UINT8
    requires i < SYMBOLS && 0 < codesize[i] <= MAX_CLEN && LengthsCounted(w, codesize[..], bits[..], i, top)
    modifies bits
    ensures LengthsCounted(w, codesize[..], bits[..], i + 1, top)
  {
    ghost var lens, before := codesize[..], bits[..];
    CountOne(w, lens, before, i, top);
    PrefixSumAtMost(Presence(w), i + 1);
    PrefixSum(Presence(w), i);
    bits[codesize[i]] := (bits[codesize[i]] + 1) % UINT8;
    assert bits[..] == before[lens[i] := before[lens[i]] + 1];
  }

  lemma {:induction false} SharesFull(w: seq<nat>, lens: seq<nat>, depth: nat, top: nat)
    requires IsCode(w, lens, depth) && Kraft(w, lens, depth) == Pow2(depth)
    requires forall s :: 0 <= s < |w| ==> lens[s] <= top
    ensures Sum(Shares(w, lens, top)[..|w|]) == Pow2(top)
  {
    KraftAt(w, lens, depth, top);
    assert Shares(w, lens, top)[..|w|] == Shares(w, lens, top);
  }

  /** The counts of the sizes of a complete tree use all code space. */
  lemma {:induction false} CountsFull(w: seq<nat>, lens: seq<nat>, bits: seq<nat>, depth: nat, top: nat)
    requires LengthsCounted(w, lens, bits, |w|, top) && 0 < top <= MAX_CLEN && Nodes(w) < UINT8
    requires IsCode(w, lens, depth) && Kraft(w, lens, depth) == Pow2(depth)
    requires (forall s :: 0 <= s < |w| ==> lens[s] <= top) && NoneAbove(bits, top)
    ensures Full(bits, top) && Sum(bits) == Nodes(w)
  {
    SharesFull(w, lens, depth, top);
    assert Presence(w)[..|w|] == Presence(w);
    assert Key(0);
  }

  // ----- the free code -----

  /** Code space in use is the number after the last code. */
  lemma {:induction false} SpaceIsEnd(bits: seq<nat>, top: nat)
    requires top < |bits| && bits[0] == 0 && NoneAbove(bits, top)
    ensures Space(bits, top) == End(bits, top)
    decreases top
  {
    var rest := bits[top := 0];
    if top == 0 {
      ZeroSums(bits, top);
    } else {
      AddCodes(rest, bits, top, top, 0, bits[top]);
      ScaleDown(rest, top);
      SpaceIsEnd(rest, top - 1);
      SameEnd(bits, rest, top - 1);
    }
  }

  lemma {:induction false} ScaleDown(bits: seq<nat>, top: nat)
    requires 0 < top < |bits| && NoneAbove(bits, top - 1)
    ensures Space(bits, top) == 2 * Space(bits, top - 1)
  {
    forall l | 0 <= l < |bits| ensures Terms(bits, top)[l] == 2 * Terms(bits, top - 1)[l] {
      if l < top {
        assert Shl(bits[l], top - l) == 2 * Shl(bits[l], top - 1 - l);
      }
    }
    SumScaled(Terms(bits, top), Terms(bits, top - 1), 2);
  }

  lemma {:induction false} SameEnd(bits: seq<nat>, bits2: seq<nat>, l: nat)
    requires l < |bits| && l < |bits2| && forall k :: 1 <= k <= l ==> bits[k] == bits2[k]
    ensures End(bits, l) == End(bits2, l)
  {
    if l > 0 {
      SameEnd(bits, bits2, l - 1);
    }
  }

  lemma {:induction false} SameBefore(bits: seq<nat>, bits2: seq<nat>, l: nat)
    requires l <= |bits| && l <= |bits2| && forall k :: 1 <= k < l ==> bits[k] == bits2[k]
    ensures Before(bits, l) == Before(bits2, l)
  {
    if l > 1 {
      SameBefore(bits, bits2, l - 1);
    }
  }

  lemma {:induction false} SumIsBefore(bits: seq<nat>, l: nat)
    requires 1 <= l <= |bits| && bits[0] == 0
    ensures Sum(bits[..l]) == Before(bits, l)
  {
    assert bits[..l][..l - 1] == bits[..l - 1];
    if l > 1 {
      SumIsBefore(bits, l - 1);
    }
  }

  lemma {:induction false} OneLessSpace(bits: seq<nat>, full: seq<nat>, top: nat, l: nat)
    requires Full(bits, top) && 1 <= l <= top && DiffersAt(full, bits, l) && bits[l] == full[l] + 1
    ensures End(full, top) == Pow2(top) - Pow2(top - l)
  {
    assert Key(0);
    AddCodes(full, bits, top, l, top - l, 1);
    ShlOne(top - l, 1);
    SpaceIsEnd(full, top);
  }

  lemma {:induction false} OneLessTotal(bits: seq<nat>, full: seq<nat>, less: seq<nat>, n: nat, l: nat)
    requires 1 <= l < n == |less| <= |full| && full[0] == 0 && NoneAbove(full, n - 1) && less == full[..n]
    requires DiffersAt(full, bits, l) && bits[l] == full[l] + 1
    ensures Before(less, n) == Sum(bits) - 1
  {
    SumChanged(full, bits, l);
    SumIsBefore(full, |full|);
    assert full[..|full|] == full;
    NoMore(full, n, |full|);
    SameBefore(less, full, n);
  }

  /** Without one of the codes of the greatest length there is room for a code of all ones. */
  lemma {:induction false} OneLess(bits: seq<nat>, full: seq<nat>, less: seq<nat>, top: nat, l: nat)
    requires Full(bits, top) && 1 <= l <= top && bits[l] > 0 && full == bits[l := bits[l] - 1]
    requires top + 1 == |less| == LENGTHS && less == full[..|less|]
    ensures Reserving(less) && Total(less) == Sum(bits) - 1
  {
    OneLessSpace(bits, full, top, l);
    SameEnd(less, full, top);
    forall k | 1 <= k < |less| ensures End(less, k) < Pow2(k) {
      RoomBelow(less, k, top);
    }
    assert Key(0);
    OneLessTotal(bits, full, less, |less|, l);
  }

  lemma {:induction false} NoMore(bits: seq<nat>, l: nat, m: nat)
    requires 1 <= l <= m <= |bits| && forall k :: l <= k < m ==> bits[k] == 0
    ensures Before(bits, l) == Before(bits, m)
    decreases m
  {
    if l < m {
      NoMore(bits, l, m - 1);
    }
  }

  /** A full code has a code. */
  lemma SomeCode(bits: seq<nat>, top: nat)
    requires Full(bits, top)
    ensures exists l :: 1 <= l <= top && bits[l] > 0
  {
    assert Key(0);
    if forall l :: 1 <= l <= top ==> bits[l] == 0 {
      ZeroSums(bits, top);
    }
  }

  /** Gives back the place of the pseudo-symbol, one of the longest codes. */
  method DropLongest(bits: array<nat>, ghost top: nat) returns (l: nat)
    requires bits.Length == MAX_CLEN + 1 && Full(bits[..], top) && top == 16
    modifies bits
    ensures 1 <= l <= 16 && l == LastUsed(old(bits[..]), top) && old(bits[l]) > 0 && NoneAbove(old(bits[..]), l)
    ensures bits[..] == old(bits[..])[l := old(bits[l]) - 1]
  {
    l := FindLongest(bits, top);
    bits[l] := bits[l] - 1;
  }

  method FindLongest(bits: array<nat>, ghost top: nat) returns (l: nat)
    requires bits.Length == MAX_CLEN + 1 && Full(bits[..], top) && top == 16
    ensures 1 <= l <= 16 && l == LastUsed(bits[..], top) && bits[l] > 0 && NoneAbove(bits[..], l)
  {
    SomeCode(bits[..], top);
    assert Key(0);
    ghost var m :| 1 <= m <= top && bits[..][m] > 0;
    l := 16;
    while bits[l] == 0
      invariant m <= l <= 16 && NoneAbove(bits[..], l) && LastUsed(bits[..], l) == LastUsed(bits[..], top)
      decreases l
    {
      l := l - 1;
    }
  }

  /** How many symbols have a code of each size. */
  function SizeCounts(lens: seq<nat>): (bits: seq<nat>)
    ensures |bits| == MAX_CLEN + 1 && bits[0] == 0
    ensures forall l :: 1 <= l <= MAX_CLEN ==> bits[l] == Occurrences(lens, l)
  {
    seq(MAX_CLEN + 1, l requires 0 <= l => if l == 0 then 0 else Occurrences(lens, l))
  }

  /** The counts of the table for some code sizes: those of the sizes, limited to 16 bits, without one of the
      longest codes. */
  function TableSizes(lens: seq<nat>): (bits: seq<nat>)
    ensures |bits| == LENGTHS
  {
    var full := Limited(SizeCounts(lens), MAX_CLEN);
    var l := LastUsed(full, 16);
    if full[l] > 0 then full[..LENGTHS][l := full[l] - 1] else full[..LENGTHS]
  }

  lemma CountedSizes(w: seq<nat>, lens: seq<nat>, bits: seq<nat>, top: nat)
    requires LengthsCounted(w, lens, bits, |lens|, top)
    ensures bits == SizeCounts(lens)
  {
    assert Key(0);
    assert lens[..|lens|] == lens;
  }

  // ----- the symbol list -----

  /** How many real symbols have a code size. */
  function RealCounts(lens: seq<nat>): (listed: seq<nat>)
    requires |lens| == SYMBOLS
    ensures |listed| == MAX_CLEN + 1 && listed[0] == 0
    ensures forall l :: 1 <= l <= MAX_CLEN ==> listed[l] == Occurrences(lens[..TABLE_SIZE], l)
  {
    seq(MAX_CLEN + 1, l requires 0 <= l => if l == 0 then 0 else Occurrences(lens[..TABLE_SIZE], l))
  }

  lemma {:induction false} OccurrencesGrow(lens: seq<nat>, v: nat, j: nat, m: nat)
    requires j <= m <= |lens|
    ensures Occurrences(lens[..j], v) <= Occurrences(lens[..m], v)
    ensures j < m && lens[j] == v ==> Occurrences(lens[..j], v) < Occurrences(lens[..m], v)
    decreases m
  {
    if j < m {
      OccurrencesGrow(lens, v, j, m - 1);
      assert lens[..m][..m - 1] == lens[..m - 1];
    }
  }

  /** Order of the list: by code size, then by symbol. */
  predicate Earlier(lens: seq<nat>, s: nat, u: nat) {
    s < |lens| && u < |lens| && (lens[s] < lens[u] || (lens[s] == lens[u] && s < u))
  }

  /** The list holds the symbols up to size i and symbol j, each in a place for its size. */
  ghost predicate Listed(lens: seq<nat>, list: seq<nat>, i: nat, j: nat) {
    && |lens| == SYMBOLS && 1 <= i <= |RealCounts(lens)| && j <= TABLE_SIZE
    && forall k {:trigger Key(k)} :: Key(k) ==>
      && |list| == Before(RealCounts(lens), i) + Occurrences(lens[..j], i)
      && (forall p :: 0 <= p < |list| ==> list[p] < TABLE_SIZE && Placed(RealCounts(lens), p, lens[list[p]]))
      && (forall p, q :: 0 <= p < q < |list| ==> Earlier(lens, list[p], list[q]))
      && (forall s :: 0 <= s < TABLE_SIZE && Reached(lens, s, i, j) <==> s in list)
  }

  predicate Reached(lens: seq<nat>, s: nat, i: nat, j: nat) {
    s < |lens| && 1 <= lens[s] && (lens[s] < i || (lens[s] == i && s < j))
  }

  lemma ListStart(lens: seq<nat>, i: nat)
    requires |lens| == SYMBOLS && i == 1
    ensures Listed(lens, [], i, 0)
  {
  }

  lemma ListSkip(lens: seq<nat>, list: seq<nat>, i: nat, j: nat)
    requires Listed(lens, list, i, j) && j < TABLE_SIZE && lens[j] != i
    ensures Listed(lens, list, i, j + 1)
  {
    assert Key(0);
    assert lens[..j + 1][..j] == lens[..j];
  }

  lemma ListOne(lens: seq<nat>, list: seq<nat>, i: nat, j: nat)
    requires Listed(lens, list, i, j) && j < TABLE_SIZE && lens[j] == i <= MAX_CLEN
    ensures Listed(lens, list + [j], i, j + 1) && |list| < Total(RealCounts(lens))
  {
    assert Key(0);
    var listed := RealCounts(lens);
    assert lens[..j + 1][..j] == lens[..j];
    OccurrencesGrow(lens, i, j, TABLE_SIZE);
    BeforeGrows(listed, i, |listed|);
    forall p, q | 0 <= p < q < |list + [j]| ensures Earlier(lens, (list + [j])[p], (list + [j])[q]) {
      if q == |list| {
        assert list[p] in list;
        assert Reached(lens, list[p], i, j);
      }
    }
  }

  lemma ListNextSize(lens: seq<nat>, list: seq<nat>, i: nat)
    requires Listed(lens, list, i, TABLE_SIZE) && i <= MAX_CLEN
    ensures Listed(lens, list, i + 1, 0)
  {
    assert Key(0);
  }

  method ListSymbols(codesize: array<nat>, huffval: array<nat>) returns (p: nat)
    requires codesize.Length == SYMBOLS && huffval.Length == TABLE_SIZE && codesize != huffval
    requires Total(RealCounts(codesize[..])) <= TABLE_SIZE
    modifies huffval
    ensures p <= TABLE_SIZE && Listed(codesize[..], huffval[..p], MAX_CLEN + 1, 0)
  {
    ghost var lens := codesize[..];
    p := 0;
    var i := 1;
    ListStart(lens, i);
    assert huffval[..p] == [];
    while i <= MAX_CLEN
      invariant 1 <= i <= MAX_CLEN + 1 && p <= TABLE_SIZE && Listed(lens, huffval[..p], i, 0)
    {
      for j := 0 to TABLE_SIZE
        invariant p <= TABLE_SIZE && Listed(lens, huffval[..p], i, j)
      {
        if codesize[j] == i {
          ListOne(lens, huffval[..p], i, j);
          ghost var list := huffval[..p];
          huffval[p] := j;
          p := p + 1;
          assert huffval[..p] == list + [j];
        } else {
          ListSkip(lens, huffval[..p], i, j);
        }
      }
      ListNextSize(lens, huffval[..p], i);
      i := i + 1;
    }
  }

  // ----- the whole table -----

  /** Apart from the pseudo-symbol, the counts are those of the listed symbols. */
  lemma PseudoSymbol(w: seq<nat>, lens: seq<nat>, bits: seq<nat>, top: nat)
    requires |lens| == SYMBOLS && LengthsCounted(w, lens, bits, SYMBOLS, top) && 1 <= lens[TABLE_SIZE] <= MAX_CLEN
    ensures DiffersAt(RealCounts(lens), bits, lens[TABLE_SIZE])
    ensures bits[lens[TABLE_SIZE]] == RealCounts(lens)[lens[TABLE_SIZE]] + 1
    ensures Sum(bits) == Total(RealCounts(lens)) + 1
  {
    assert Key(0);
    var listed := RealCounts(lens);
    assert lens[..SYMBOLS][..TABLE_SIZE] == lens[..TABLE_SIZE];
    SumChanged(listed, bits, lens[TABLE_SIZE]);
    SumIsBefore(listed, |listed|);
    assert listed[..|listed|] == listed;
  }

  /** The code whose place is given back is no shorter than the one of the pseudo-symbol. */
  lemma {:induction false} NotFewer(listed: seq<nat>, bits: seq<nat>, less: seq<nat>, d: nat, l: nat, m: nat)
    requires DiffersAt(listed, bits, d) && bits[d] == listed[d] + 1 && 1 <= d <= l < |less| <= |bits|
    requires bits[l] > 0 && less == bits[..|less|][l := bits[l] - 1] && 1 <= m <= |less|
    ensures Before(less, m) == Before(listed, m) + (if d < m <= l then 1 else 0)
    decreases m
  {
    if m > 1 {
      NotFewer(listed, bits, less, d, l, m - 1);
    }
  }

  /** The table for the counts w, whose optimal code sizes are lens. */
  ghost predicate OptimalTableFor(w: seq<nat>, lens: seq<nat>, t: HuffTable) {
    && |w| == |lens| == SYMBOLS && IsTable(t) && Reserving(t.bits) && t.bits == TableSizes(lens)
    && (forall s :: 0 <= s < TABLE_SIZE && w[s] > 0 <==> s in t.huffval[..Total(t.bits)])
    && (forall p, q :: 0 <= p < q < Total(t.bits) ==> Earlier(lens, t.huffval[p], t.huffval[q]))
    && ((forall s :: 0 <= s < SYMBOLS ==> lens[s] <= 16) ==> NotLonger(lens, t))
  }

  /** No symbol gets a longer code than its optimal size. */
  ghost predicate NotLonger(lens: seq<nat>, t: HuffTable)
    requires IsTable(t) && Total(t.bits) <= TABLE_SIZE
  {
    forall p :: 0 <= p < Total(t.bits) ==>
      t.huffval[p] < |lens| && 1 <= SizeAt(t.bits, p) <= lens[t.huffval[p]]
  }

  lemma ShortEnough(lens: seq<nat>, t: HuffTable, bits: seq<nat>, l: nat)
    requires |lens| == SYMBOLS && 1 <= lens[TABLE_SIZE] <= l <= 16 && |bits| == MAX_CLEN + 1 && bits[l] > 0
    requires DiffersAt(RealCounts(lens), bits, lens[TABLE_SIZE])
    requires bits[lens[TABLE_SIZE]] == RealCounts(lens)[lens[TABLE_SIZE]] + 1
    requires IsTable(t) && Total(t.bits) <= TABLE_SIZE && t.bits == bits[..LENGTHS][l := bits[l] - 1]
    requires Listed(lens, t.huffval[..Total(t.bits)], MAX_CLEN + 1, 0) && forall s :: 0 <= s < SYMBOLS ==> lens[s] <= 16
    ensures NotLonger(lens, t)
  {
    var listed, list := RealCounts(lens), t.huffval[..Total(t.bits)];
    forall p | 0 <= p < Total(t.bits)
      ensures t.huffval[p] < |lens| && 1 <= SizeAt(t.bits, p) <= lens[t.huffval[p]]
    {
      assert Key(0);
      assert list[p] == t.huffval[p] && Placed(listed, p, lens[list[p]]);
      NotFewer(listed, bits, t.bits, lens[TABLE_SIZE], l, lens[list[p]] + 1);
      SizePlaced(t.bits, p);
      if SizeAt(t.bits, p) > lens[list[p]] {
        BeforeGrows(t.bits, lens[list[p]] + 1, SizeAt(t.bits, p));
      }
    }
  }

  lemma ListedSymbols(w: seq<nat>, lens: seq<nat>, t: HuffTable)
    requires SizesFor(w, lens) && |w| == SYMBOLS && IsTable(t) && Total(t.bits) <= TABLE_SIZE
    requires Listed(lens, t.huffval[..Total(t.bits)], MAX_CLEN + 1, 0) && forall s :: 0 <= s < SYMBOLS ==> lens[s] <= MAX_CLEN
    ensures forall s :: 0 <= s < TABLE_SIZE && w[s] > 0 <==> s in t.huffval[..Total(t.bits)]
    ensures forall p, q :: 0 <= p < q < Total(t.bits) ==> Earlier(lens, t.huffval[p], t.huffval[q])
  {
    assert Key(0);
    var list := t.huffval[..Total(t.bits)];
    forall s | 0 <= s < TABLE_SIZE ensures w[s] > 0 <==> s in list {
      assert Reached(lens, s, MAX_CLEN + 1, 0) <==> w[s] > 0;
    }
    forall p, q | 0 <= p < q < Total(t.bits) ensures Earlier(lens, t.huffval[p], t.huffval[q]) {
      assert list[p] == t.huffval[p] && list[q] == t.huffval[q];
    }
  }

  /** Two symbols or more: every one that counts has a code size. */
  lemma SizesPositive(w: seq<nat>, lens: seq<nat>, s: nat)
    requires |w| == SYMBOLS && OptimalSizes(w, lens) && s < TABLE_SIZE && w[s] > 0 && w[TABLE_SIZE] > 0
    ensures SizesFor(w, lens)
  {
    var top :| IsCode(w, lens, top) && Kraft(w, lens, top) == Pow2(top);
    forall u | 0 <= u < |w| && w[u] > 0 ensures lens[u] > 0 {
      UsedPositive(w, lens, top, u, if u == s then TABLE_SIZE else s);
    }
  }

  /** The counts after limiting: those of the code sizes, one less at some length l. */
  ghost predicate CountsFor(w: seq<nat>, lens: seq<nat>, first: seq<nat>, bits: seq<nat>, l: nat) {
    && |w| == |lens| == SYMBOLS && |first| == MAX_CLEN + 1 && |bits| == LENGTHS && 1 <= lens[TABLE_SIZE] <= MAX_CLEN
    && DiffersAt(RealCounts(lens), first, lens[TABLE_SIZE])
    && first[lens[TABLE_SIZE]] == RealCounts(lens)[lens[TABLE_SIZE]] + 1
    && (forall s :: 0 <= s < SYMBOLS ==> lens[s] <= MAX_CLEN)
    && Reserving(bits) && Total(bits) == Total(RealCounts(lens)) && bits == TableSizes(lens)
    && ((forall s :: 0 <= s < SYMBOLS ==> lens[s] <= 16) ==>
         1 <= l <= 16 && first[l] > 0 && NoneAbove(first, l) && bits == first[..LENGTHS][l := first[l] - 1])
  }

  lemma CountsOfSizes(w: seq<nat>, lens: seq<nat>, bits: seq<nat>, top: nat)
    requires |w| == SYMBOLS && OptimalSizes(w, lens) && LengthsCounted(w, lens, bits, SYMBOLS, top) && top == MAX_CLEN
    requires Nodes(w) < UINT8 && forall s :: 0 <= s < SYMBOLS ==> lens[s] <= MAX_CLEN
    ensures Full(bits, top) && Sum(bits) == Nodes(w)
  {
    var depth :| IsCode(w, lens, depth) && Kraft(w, lens, depth) == Pow2(depth);
    CountsFull(w, lens, bits, depth, top);
  }

  lemma CountsLimited(w: seq<nat>, lens: seq<nat>, first: seq<nat>, full: seq<nat>, after: seq<nat>, bits: seq<nat>,
                      l: nat, top: nat, limit: nat)
    requires |w| == SYMBOLS && SizesFor(w, lens) && w[TABLE_SIZE] > 0 && LengthsCounted(w, lens, first, SYMBOLS, top)
    requires forall s :: 0 <= s < SYMBOLS ==> lens[s] <= MAX_CLEN
    requires Full(full, limit) && limit + 1 == LENGTHS && Sum(full) == Sum(first) && (NoneAbove(first, 16) ==> full == first)
    requires 1 <= l <= limit && full[l] > 0 && NoneAbove(full, l) && after == full[l := full[l] - 1] && bits == after[..LENGTHS]
    requires top == MAX_CLEN && full == Limited(first, top) && l == LastUsed(full, limit)
    ensures CountsFor(w, lens, first, bits, l)
  {
    CountedSizes(w, lens, first, top);
    assert bits == TableSizes(lens);
    PseudoSymbol(w, lens, first, top);
    OneLess(full, after, bits, limit, l);
    if forall s :: 0 <= s < SYMBOLS ==> lens[s] <= 16 {
      NoneLonger(w, lens, first, top);
    }
  }

  /** Counts of at most 16 bits from the code sizes; fails when a size exceeds 32. */
  method MakeCounts(codesize: array<nat>, ghost w: seq<nat>)
    returns (ok: bool, bits: seq<nat>, ghost first: seq<nat>, ghost l: nat)
    requires codesize.Length == SYMBOLS && |w| == SYMBOLS && OptimalSizes(w, codesize[..]) && SizesFor(w, codesize[..])
    requires w[TABLE_SIZE] > 0 && Nodes(w) < UINT8
    ensures ok <==> forall s :: 0 <= s < SYMBOLS ==> codesize[s] <= MAX_CLEN
    ensures ok ==> CountsFor(w, codesize[..], first, bits, l)
  {
    ghost var lens, top: nat, limit: nat := codesize[..], MAX_CLEN, 16;
    var counts := new nat[MAX_CLEN + 1];
    ok := CountSizes(codesize, counts, w, top);
    bits, first, l := [], counts[..], 0;
    if ok {
      CountsOfSizes(w, lens, first, top);
      LimitLengths(counts, top);
      ghost var full := counts[..];
      var longest := DropLongest(counts, limit);
      bits, l := counts[..LENGTHS], longest;
      CountsLimited(w, lens, first, full, counts[..], bits, l, top, limit);
    }
  }

  lemma TableDone(w: seq<nat>, lens: seq<nat>, first: seq<nat>, l: nat, t: HuffTable)
    requires IsTable(t) && SizesFor(w, lens) && CountsFor(w, lens, first, t.bits, l)
    requires Listed(lens, t.huffval[..Total(t.bits)], MAX_CLEN + 1, 0)
    ensures OptimalTableFor(w, lens, t)
  {
    ListedSymbols(w, lens, t);
    if forall s :: 0 <= s < SYMBOLS ==> lens[s] <= 16 {
      DiffersThere(RealCounts(lens), first, lens[TABLE_SIZE], l);
      ShortEnough(lens, t, first, l);
    }
  }

  lemma DiffersThere(listed: seq<nat>, first: seq<nat>, d: nat, l: nat)
    requires DiffersAt(listed, first, d) && first[d] == listed[d] + 1 && NoneAbove(first, l)
    ensures d <= l
  {
  }

  /** Some code size exceeds 32 bits. */
  predicate Overlong(lens: seq<nat>) {
    exists s :: 0 <= s < |lens| && lens[s] > MAX_CLEN
  }

  /** From code sizes to the counts of at most 16 bits and the symbol list. */
  method MakeTable(codesize: array<nat>, huffval: array<nat>, ghost w: seq<nat>, ghost lens: seq<nat>)
    returns (ok: bool, bits: seq<nat>)
    requires codesize.Length == SYMBOLS && huffval.Length == TABLE_SIZE && codesize != huffval
    requires |w| == SYMBOLS && codesize[..] == lens && OptimalSizes(w, lens) && SizesFor(w, lens)
    requires w[TABLE_SIZE] > 0 && Nodes(w) < UINT8
    modifies huffval
    ensures ok <==> !Overlong(lens)
    ensures ok ==> OptimalTableFor(w, lens, HuffTable(bits, huffval[..]))
  {
    ghost var first, l;
    ok, bits, first, l := MakeCounts(codesize, w);
    if ok {
      var p := ListSymbols(codesize, huffval);
      ListEnd(codesize[..], huffval[..p]);
      assert huffval[..][..p] == huffval[..p];
      TableDone(w, codesize[..], first, l, HuffTable(bits, huffval[..]));
    }
  }

  lemma ListEnd(lens: seq<nat>, list: seq<nat>)
    requires Listed(lens, list, MAX_CLEN + 1, 0)
    ensures |list| == Total(RealCounts(lens))
  {
    assert Key(0);
  }

  lemma {:induction false} NoneLonger(w: seq<nat>, lens: seq<nat>, bits: seq<nat>, top: nat)
    requires LengthsCounted(w, lens, bits, |w|, top) && forall s :: 0 <= s < |w| ==> lens[s] <= 16
    ensures NoneAbove(bits, 16)
  {
    assert Key(0);
    forall l | 16 < l < |bits| ensures bits[l] == 0 {
      assert l !in lens;
      NoOccurrence(lens[..|w|], l);
    }
  }

  lemma {:induction false} NoOccurrence(s: seq<nat>, v: nat)
    requires v !in s
    ensures Occurrences(s, v) == 0
  {
    if s != [] {
      NoOccurrence(s[..|s| - 1], v);
    }
  }

  /** The counts with the pseudo-symbol's. */
  function WithPseudo(counts: seq<nat>): (w: seq<nat>)
    requires |counts| == SYMBOLS
    ensures |w| == SYMBOLS && w[TABLE_SIZE] == 1 && w[..TABLE_SIZE] == counts[..TABLE_SIZE]
  {
    counts[TABLE_SIZE := 1]
  }

  /** The algorithm assigns a code size of more than 32 bits to some symbol. */
  predicate SizeOverflow(w: seq<nat>) {
    Overlong(CodeSizes(w))
  }

  const DEEP := 9_227_465     // the least total of counts for which some code size reaches 33

  lemma DeepIsFib() returns (n: nat)
    ensures n == MAX_CLEN + 3 && Fib(n) == DEEP
  {
    n := 35;
    assert Fib(10) == 55 && Fib(11) == 89;
    assert Fib(15) == 610 && Fib(16) == 987;
    assert Fib(20) == 6765 && Fib(21) == 10946;
    assert Fib(25) == 75025 && Fib(26) == 121393;
    assert Fib(30) == 832040 && Fib(31) == 1346269;
  }

  /** Code sizes whose total of counts is small. */
  lemma Shallow(w: seq<nat>, lens: seq<nat>)
    requires |w| == SYMBOLS && |lens| == |w| && (forall s :: 0 <= s < |w| && w[s] == 0 ==> lens[s] == 0)
    requires DepthBounded(w, lens) && Sum(w) < DEEP
    ensures forall s :: 0 <= s < SYMBOLS ==> lens[s] <= MAX_CLEN
  {
    var n := DeepIsFib();
    DepthBelow(w, lens, n);
  }

  /** Small totals never lead to a code size over 32. */
  lemma ShallowSizes(w: seq<nat>)
    requires |w| == SYMBOLS && w[TABLE_SIZE] > 0 && Sum(w) < DEEP
    ensures !SizeOverflow(w)
  {
    CodeSizesOptimal(w);
    Shallow(w, CodeSizes(w));
  }

  /** The code sizes for the counts and the pseudo-symbol. */
  method CodeSizesFor(freq: array<nat>, ghost w: seq<nat>) returns (codesize: array<nat>)
    requires freq.Length == SYMBOLS && w == WithPseudo(freq[..])
    requires (exists s :: 0 <= s < TABLE_SIZE && freq[s] > 0) && Sum(w) <= CUTOFF
    modifies freq
    ensures fresh(codesize) && codesize.Length == SYMBOLS && codesize[..] == CodeSizes(w)
    ensures OptimalSizes(w, CodeSizes(w)) && SizesFor(w, CodeSizes(w))
  {
    ghost var s :| 0 <= s < TABLE_SIZE && freq[s] > 0;
    freq[TABLE_SIZE] := 1;
    assert freq[..] == w;
    codesize := new nat[SYMBOLS];
    var others := new int[SYMBOLS];
    AssignCodeSizes(freq, codesize, others);
    SizesPositive(w, CodeSizes(w), s);
  }

  /** The best table for the counts; fails when a code size exceeds 32. */
  method GenOptimalTable(freq: array<nat>, huffval: array<nat>) returns (ok: bool, bits: seq<nat>)
    requires freq.Length == SYMBOLS && huffval.Length == TABLE_SIZE && freq != huffval
    requires exists s :: 0 <= s < TABLE_SIZE && freq[s] > 0
    requires Nodes(WithPseudo(freq[..])) < UINT8 && Sum(WithPseudo(freq[..])) <= CUTOFF
    modifies freq, huffval
    ensures OptimalSizes(WithPseudo(old(freq[..])), CodeSizes(WithPseudo(old(freq[..]))))
    ensures ok <==> !SizeOverflow(WithPseudo(old(freq[..])))
    ensures Sum(WithPseudo(old(freq[..]))) < DEEP ==> ok
    ensures ok ==> OptimalTableFor(WithPseudo(old(freq[..])), CodeSizes(WithPseudo(old(freq[..]))), HuffTable(bits, huffval[..]))
  {
    ghost var w := WithPseudo(freq[..]);
    if Sum(w) < DEEP { ShallowSizes(w); }
    var codesize := CodeSizesFor(freq, w);
    ok, bits := MakeTable(codesize, huffval, w, CodeSizes(w));
  }

  /** Such a table is accepted when the symbols fit the kind of table. */
  lemma OptimalAcceptable(w: seq<nat>, lens: seq<nat>, t: HuffTable, isDc: bool)
    requires OptimalTableFor(w, lens, t)
    ensures Acceptable(t, isDc) <==> forall s :: 0 <= s < TABLE_SIZE && w[s] > 0 ==> s <= MaxSymbol(isDc)
  {
    var n := Total(t.bits);
    assert Distinct(t.huffval, n) by {
      forall p, q | 0 <= p < q < n <= |t.huffval| ensures t.huffval[p] != t.huffval[q] {
        assert Earlier(lens, t.huffval[p], t.huffval[q]);
      }
    }
    if InRange(t.huffval, n, isDc) {
      forall s | 0 <= s < TABLE_SIZE && w[s] > 0 ensures s <= MaxSymbol(isDc) {
        assert s in t.huffval[..n];
      }
    }
    forall p | 0 <= p < n <= |t.huffval| && t.huffval[p] > MaxSymbol(isDc)
      ensures exists s :: 0 <= s < TABLE_SIZE && w[s] > 0 && s > MaxSymbol(isDc)
    {
      assert t.huffval[p] in t.huffval[..n];
    }
  }
}
