/** Which binary decisions code a quantized coefficient, in which statistics bins (sections F.1.4 and
    G.1.3 of ITU-T T.81). */
module CoefficientModel {
  import opened Powers
  import opened CodeInterval

  /** Conditioning parameters of one table: DC bounds L and U, AC threshold Kx. */
  datatype Conditioning = Conditioning(dcL: nat, dcU: nat, acK: nat)

  function Abs(x: int): nat {
    if x < 0 then -x else x
  }

  /** The point transform of an AC coefficient: division by 2^al, rounded towards zero. */
  function Point(c: int, al: nat): int {
    if c >= 0 then c / Pow2(al) else -((-c) / Pow2(al))
  }

  /** A zigzag order for blocks of the given size; the DC coefficient comes first. */
  predicate IsOrder(order: seq<nat>, size: nat) {
    && 0 < |order| <= 64 && order[0] == 0 < size
    && (forall k :: 0 <= k < |order| ==> order[k] < size)
    && (forall j, k :: 0 <= j < k < |order| ==> order[j] != order[k])
  }

  /** Coefficients ss to se of a block in zigzag order after the point transform, with zeros before. */
  function BandValues(block: seq<int>, order: seq<nat>, ss: nat, se: nat, al: nat): (vals: seq<int>)
    requires IsOrder(order, |block|) && se < |order|
    ensures |vals| == se + 1
    ensures forall k :: ss <= k <= se ==> vals[k] == Point(block[order[k]], al)
  {
    seq(se + 1, k requires 0 <= k <= se => if k < ss then 0 else Point(block[order[k]], al))
  }

  /** Conversion to a 16-bit coefficient. */
  function Wrap16(x: int): (c: int)
    ensures -0x8000 <= c < 0x8000
    ensures -0x8000 <= x < 0x8000 ==> c == x
  {
    (x + 0x8000) % 0x1_0000 - 0x8000
  }

  /** The block is as before, but with the nonzero values from ss on, scaled up again by 2^al. */
  predicate Stored(before: seq<int>, after: seq<int>, order: seq<nat>, ss: nat, vals: seq<int>, al: nat)
    requires IsOrder(order, |before|) && |vals| <= |order|
  {
    && |after| == |before|
    && (forall p :: 0 <= p < |before| && (forall k :: ss <= k < |vals| ==> order[k] != p) ==> after[p] == before[p])
    && forall k {:trigger order[k]} :: ss <= k < |vals| ==>
         after[order[k]] == if vals[k] == 0 then before[order[k]] else Wrap16(vals[k] * Pow2(al))
  }

  lemma NothingStored(before: seq<int>, order: seq<nat>, ss: nat, vals: seq<int>, al: nat)
    requires IsOrder(order, |before|) && |vals| <= |order|
    requires forall k :: ss <= k < |vals| ==> vals[k] == 0
    ensures Stored(before, before, order, ss, vals, al)
  {
  }

  lemma StoredMore(before: seq<int>, mid: seq<int>, order: seq<nat>, ss: nat, got: seq<int>, vals: seq<int>, al: nat)
    requires IsOrder(order, |before|) && ss <= |got| < |vals| <= |order|
    requires Stored(before, mid, order, ss, got, al)
    requires got <= vals && forall k :: |got| <= k < |vals| - 1 ==> vals[k] == 0
    requires vals[|vals| - 1] != 0
    ensures Stored(before, mid[order[|vals| - 1] := Wrap16(vals[|vals| - 1] * Pow2(al))], order, ss, vals, al)
  {
  }

  lemma StoredZeros(before: seq<int>, after: seq<int>, order: seq<nat>, ss: nat, got: seq<int>, vals: seq<int>, al: nat)
    requires IsOrder(order, |before|) && ss <= |got| <= |vals| <= |order|
    requires Stored(before, after, order, ss, got, al)
    requires got <= vals && forall k :: |got| <= k < |vals| ==> vals[k] == 0
    ensures Stored(before, after, order, ss, vals, al)
  {
  }

  lemma Associate(x: seq<Decision>, y: seq<Decision>, z: seq<Decision>)
    ensures x + y + z == x + (y + z)
  {
  }

  lemma Regroup(s: seq<Decision>, x: seq<Decision>, y: seq<Decision>, z: seq<Decision>)
    ensures s + x + y + z == s + (x + (y + z))
  {
  }

  lemma TwoThen(s: seq<Decision>, d1: Decision, d2: Decision, x: seq<Decision>)
    ensures s + [d1] + [d2] + x == s + ([d1, d2] + x)
  {
  }

  lemma TwoThenRegroup(s: seq<Decision>, d: Decision, y: seq<Decision>, z: seq<Decision>)
    ensures s + [d] + [d] + y + z == s + ([d, d] + (y + z))
  {
    TwoThen(s, d, d, y + z);
    Associate(s + [d] + [d], y, z);
  }

  // ----- magnitudes -----

  /** Position of the highest one bit. */
  function Category(w: nat): (k: nat)
    requires w > 0
    ensures Pow2(k) <= w < 2 * Pow2(k)
  {
    if w == 1 then 0 else Category(w / 2) + 1
  }

  /** k ones, in consecutive bins. */
  function Ones(st: Bin, k: nat): (ds: seq<Decision>)
    ensures |ds| == k
  {
    seq(k, i requires 0 <= i < k => Decision(st.Plus(i), true))
  }

  /** k ones and a zero, in consecutive bins. */
  function Unary(st: Bin, k: nat): seq<Decision> {
    Ones(st, k) + [Decision(st.Plus(k), false)]
  }

  lemma OneMore(st: Bin, k: nat)
    ensures Ones(st, k) + [Decision(st.Plus(k), true)] == Ones(st, k + 1)
  {
  }

  predicate Bit(w: nat, i: nat) {
    if i == 0 then w % 2 == 1 else Bit(w / 2, i - 1)
  }

  lemma {:induction false} BitIs(w: nat, i: nat)
    ensures Bit(w, i) <==> w / Pow2(i) % 2 == 1
    decreases i
  {
    if i > 0 {
      DropLowBit(w, Pow2(i - 1));
      BitIs(w / 2, i - 1);
    }
  }

  lemma DropLowBit(w: nat, p: nat)
    requires p > 0
    ensures w / (2 * p) == w / 2 / p
  {
    var d, r := w / 2 / p, w / 2 % p;
    assert w / 2 == d * p + r;
    assert d * (2 * p) == 2 * (d * p);
    QuotientIs(w, 2 * p, d, 2 * r + w % 2);
  }

  /** The bits of w below position k, highest first, all in one bin. */
  function Pattern(st: Bin, w: nat, k: nat): (ds: seq<Decision>)
    ensures |ds| == k
  {
    seq(k, i requires 0 <= i < k => Decision(st, Bit(w, k - 1 - i)))
  }

  lemma PatternNext(st: Bin, w: nat, k: nat, i: nat)
    requires i < k
    ensures Pattern(st, w, k)[..i] + [Decision(st, Bit(w, k - 1 - i))] == Pattern(st, w, k)[..i + 1]
  {
  }

  /** Magnitude category and bits of w = |v| - 1 for a DC difference: st is the bin after the sign,
      and the categories from 1 on start at bin X1 of the table. */
  function DcMagnitude(st: Bin, x1: Bin, w: nat): seq<Decision> {
    if w == 0 then [Decision(st, false)]
    else
      var k := Category(w);
      [Decision(st, true)] + (Unary(x1, k) + Pattern(x1.Plus(k + 14), w, k))
  }

  /** The same for an AC coefficient; the categories from 2 on start at bin X2. */
  function AcMagnitude(st: Bin, x2: Bin, w: nat): seq<Decision> {
    if w == 0 then [Decision(st, false)]
    else if w == 1 then [Decision(st, true), Decision(st, false)]
    else
      var k := Category(w);
      [Decision(st, true), Decision(st, true)]
      + (Unary(x2, k - 1) + Pattern(x2.Plus(k - 1 + 14), w, k))
  }

  // ----- DC differences -----

  /** A DC difference under the context of the previous one (figures F.4 and F.6 to F.9). */
  function DcDecisions(tbl: nat, context: nat, v: int): seq<Decision> {
    if v == 0 then [Decision(Dc(tbl, context), false)]
    else
      [Decision(Dc(tbl, context), true), Decision(Dc(tbl, context + 1), v < 0)]
      + DcMagnitude(Dc(tbl, context + (if v > 0 then 2 else 3)), Dc(tbl, 20), Abs(v) - 1)
  }

  ghost predicate IsDcDifference(tbl: nat, context: nat, v: int, ds: seq<Decision>) {
    forall k {:trigger Key(k)} :: Key(k) ==> ds == DcDecisions(tbl, context, v)
  }

  /** These decisions; what they are is only known to proofs that ask for it. */
  ghost function DcDifference(tbl: nat, context: nat, v: int): (ds: seq<Decision>)
    ensures IsDcDifference(tbl, context, v, ds)
  {
    assert IsDcDifference(tbl, context, v, DcDecisions(tbl, context, v));
    var ds :| IsDcDifference(tbl, context, v, ds);
    ds
  }

  lemma DcDifferenceIs(tbl: nat, context: nat, v: int)
    ensures DcDifference(tbl, context, v) == DcDecisions(tbl, context, v)
  {
    assert Key(0);
  }

  /** What a decoder reads when a difference v comes out: it gives up on a category of 2^15. */
  function DcReadDecisions(tbl: nat, context: nat, v: int): seq<Decision> {
    if Abs(v) <= 0x8000 then DcDecisions(tbl, context, v)
    else
      [Decision(Dc(tbl, context), true), Decision(Dc(tbl, context + 1), v < 0),
       Decision(Dc(tbl, context + (if v > 0 then 2 else 3)), true)]
      + Ones(Dc(tbl, 20), 15)
  }

  ghost predicate IsDcRead(tbl: nat, context: nat, v: int, ds: seq<Decision>) {
    forall k {:trigger Key(k)} :: Key(k) ==> ds == DcReadDecisions(tbl, context, v)
  }

  ghost function DcRead(tbl: nat, context: nat, v: int): (ds: seq<Decision>)
    ensures IsDcRead(tbl, context, v, ds)
  {
    assert IsDcRead(tbl, context, v, DcReadDecisions(tbl, context, v));
    var ds :| IsDcRead(tbl, context, v, ds);
    ds
  }

  lemma DcReadWhole(tbl: nat, context: nat, v: int)
    requires Abs(v) <= 0x8000
    ensures DcRead(tbl, context, v) == DcDifference(tbl, context, v)
  {
    DcReadIs(tbl, context, v);
  }

  lemma DcReadIs(tbl: nat, context: nat, v: int)
    ensures DcRead(tbl, context, v) == DcReadDecisions(tbl, context, v)
    ensures Abs(v) <= 0x8000 ==> DcRead(tbl, context, v) == DcDifference(tbl, context, v)
  {
    DcDifferenceIs(tbl, context, v);
    assert Key(0);
  }

  /** The category of a difference as a power of two, 0 for magnitudes up to 1. */
  function CategoryBit(v: int): nat {
    if Abs(v) <= 1 then 0 else Pow2(Category(Abs(v) - 1))
  }

  /** Context for the next difference: zero, small or large, with the sign (section F.1.4.4.1.2). */
  function DcContext(c: Conditioning, v: int): (context: nat)
    ensures context in {0, 4, 8, 12, 16}
  {
    if v == 0 || CategoryBit(v) < Pow2(c.dcL) / 2 then 0
    else if CategoryBit(v) > Pow2(c.dcU) / 2 then if v > 0 then 12 else 16
    else if v > 0 then 4 else 8
  }

  /** What is coded of a DC difference v, and the context that follows it. */
  ghost predicate DcDifferenceCoded(c: Conditioning, tbl: nat, context: nat, v: int, next: nat, code: seq<Decision>) {
    forall k {:trigger Key(k)} :: Key(k) ==> code == DcDifference(tbl, context, v) && next == DcContext(c, v)
  }

  // ----- AC coefficients -----

  /** X2 for a coefficient at zigzag index k. */
  function AcX2(tbl: nat, c: Conditioning, k: nat): Bin {
    Ac(tbl, if k <= c.acK then 189 else 217)
  }

  /** A magnitude above 2^15 at index k, as far as a decoder reads it. */
  function AcOverflow(tbl: nat, c: Conditioning, k: nat): seq<Decision>
    requires k > 0
  {
    [Decision(Ac(tbl, 3 * k - 1), true), Decision(Ac(tbl, 3 * k - 1), true)] + Ones(AcX2(tbl, c, k), 14)
  }

  predicate ZeroAfter(vals: seq<int>, k: nat) {
    forall j :: k < j < |vals| ==> vals[j] == 0
  }

  /** The coefficients after zigzag index k up to se, starting with an end-of-block decision
      (figure F.5). Values beyond index se stand for a run that leaves the band. */
  function AcCoefficients(tbl: nat, c: Conditioning, vals: seq<int>, k: nat, se: nat): seq<Decision>
    requires se < |vals|
    decreases se - k, 1
  {
    if k >= se then []
    else if ZeroAfter(vals, k) then [Decision(Ac(tbl, 3 * k), true)]
    else [Decision(Ac(tbl, 3 * k), false)] + AcRun(tbl, c, vals, k, se)
  }

  /** The zeros after index k and the coefficient that ends them. */
  function AcRun(tbl: nat, c: Conditioning, vals: seq<int>, k: nat, se: nat): seq<Decision>
    requires k <= se < |vals| && !ZeroAfter(vals, k)
    decreases se - k, 0
  {
    if k == se then []
    else if vals[k + 1] == 0 then
      [Decision(Ac(tbl, 3 * k + 1), false)] + AcRun(tbl, c, vals, k + 1, se)
    else
      [Decision(Ac(tbl, 3 * k + 1), true), Decision(Fixed, vals[k + 1] < 0)] + AfterSign(tbl, c, vals, k + 1, se)
  }

  /** The magnitude of the coefficient at index k and the coefficients after it. */
  function AfterSign(tbl: nat, c: Conditioning, vals: seq<int>, k: nat, se: nat): seq<Decision>
    requires 1 <= k <= se < |vals| && vals[k] != 0
    decreases se - k, 2
  {
    if Abs(vals[k]) > 0x8000 then AcOverflow(tbl, c, k)
    else
      AcMagnitude(Ac(tbl, 3 * k - 1), AcX2(tbl, c, k), Abs(vals[k]) - 1) + AcCoefficients(tbl, c, vals, k, se)
  }

  /** A band of coefficients as a decoder can return it. */
  predicate Decodable(vals: seq<int>, se: nat) {
    |vals| == se + 1 && forall j :: 0 <= j <= se ==> Abs(vals[j]) <= 0x8000
  }

  /** Values for all of a band, and possibly one behind it after a run of zeros that leaves the band. */
  predicate Spelled(vals: seq<int>, se: nat) {
    |vals| == se + 1 || (|vals| == se + 2 && vals[se] == 0 && vals[se + 1] != 0)
  }

  /** The decisions for n zeros after index k. */
  function ZeroFlags(tbl: nat, k: nat, n: nat): seq<Decision> {
    if n == 0 then [] else ZeroFlags(tbl, k, n - 1) + [Decision(Ac(tbl, 3 * (k + n - 1) + 1), false)]
  }

  predicate ZerosBetween(vals: seq<int>, k: nat, n: nat)
    requires k + n < |vals|
  {
    forall j :: k < j <= k + n ==> vals[j] == 0
  }

  /** One round of coding: not the end of the block, n zeros, then the coefficient v. */
  function AcRound(tbl: nat, c: Conditioning, k: nat, n: nat, v: int): seq<Decision>
    requires v != 0
  {
    [Decision(Ac(tbl, 3 * k), false)]
    + (ZeroFlags(tbl, k, n) + AcValue(tbl, c, k + n + 1, v))
  }

  function AcValue(tbl: nat, c: Conditioning, k: nat, v: int): seq<Decision>
    requires k > 0 && v != 0
  {
    [Decision(Ac(tbl, 3 * (k - 1) + 1), true), Decision(Fixed, v < 0)]
    + AcMagnitude(Ac(tbl, 3 * k - 1), AcX2(tbl, c, k), Abs(v) - 1)
  }

  lemma {:induction false} RunOfZeros(tbl: nat, c: Conditioning, vals: seq<int>, k: nat, n: nat, se: nat)
    requires k + n <= se < |vals| && !ZeroAfter(vals, k) && ZerosBetween(vals, k, n)
    ensures !ZeroAfter(vals, k + n)
    ensures AcRun(tbl, c, vals, k, se) == ZeroFlags(tbl, k, n) + AcRun(tbl, c, vals, k + n, se)
  {
    if n > 0 {
      RunOfZeros(tbl, c, vals, k, n - 1, se);
      Associate(ZeroFlags(tbl, k, n - 1), [Decision(Ac(tbl, 3 * (k + n - 1) + 1), false)],
                AcRun(tbl, c, vals, k + n, se));
    }
  }

  lemma AcUnfold(tbl: nat, c: Conditioning, vals: seq<int>, k: nat, n: nat, se: nat)
    requires k + n < se < |vals| && ZerosBetween(vals, k, n) && 0 < Abs(vals[k + n + 1]) <= 0x8000
    ensures AcCoefficients(tbl, c, vals, k, se)
         == AcRound(tbl, c, k, n, vals[k + n + 1]) + AcCoefficients(tbl, c, vals, k + n + 1, se)
  {
    RunOfZeros(tbl, c, vals, k, n, se);
    var v := vals[k + n + 1];
    Regroup5([Decision(Ac(tbl, 3 * k), false)], ZeroFlags(tbl, k, n),
             [Decision(Ac(tbl, 3 * (k + n) + 1), true), Decision(Fixed, v < 0)],
             AcMagnitude(Ac(tbl, 3 * (k + n + 1) - 1), AcX2(tbl, c, k + n + 1), Abs(v) - 1),
             AcCoefficients(tbl, c, vals, k + n + 1, se));
  }

  lemma Regroup5(a: seq<Decision>, b: seq<Decision>, c: seq<Decision>, d: seq<Decision>, e: seq<Decision>)
    ensures a + (b + (c + (d + e))) == (a + (b + (c + d))) + e
  {
  }

  // ----- refinement -----

  /** No coefficient after index k was already nonzero in the scans before. */
  predicate NewAfter(vals: seq<int>, k: nat) {
    forall j :: k < j < |vals| ==> Abs(vals[j]) <= 1
  }

  /** One more bit of the coefficients after index k up to se. An end-of-block decision is coded only
      where the scans before leave it open (figure G.10). */
  function AcRefinement(tbl: nat, vals: seq<int>, k: nat, se: nat): seq<Decision>
    requires se < |vals|
    decreases se - k, 1
  {
    if k >= se then []
    else if ZeroAfter(vals, k) then [Decision(Ac(tbl, 3 * k), true)]
    else if NewAfter(vals, k) then [Decision(Ac(tbl, 3 * k), false)] + RefinementRun(tbl, vals, k, se)
    else RefinementRun(tbl, vals, k, se)
  }

  function RefinementRun(tbl: nat, vals: seq<int>, k: nat, se: nat): seq<Decision>
    requires k <= se < |vals| && !ZeroAfter(vals, k)
    decreases se - k, 0
  {
    if k == se then []
    else if vals[k + 1] == 0 then
      [Decision(Ac(tbl, 3 * k + 1), false)] + RefinementRun(tbl, vals, k + 1, se)
    else if Abs(vals[k + 1]) == 1 then
      [Decision(Ac(tbl, 3 * k + 1), true), Decision(Fixed, vals[k + 1] < 0)] + AcRefinement(tbl, vals, k + 1, se)
    else
      [Decision(Ac(tbl, 3 * k + 2), Abs(vals[k + 1]) % 2 == 1)] + AcRefinement(tbl, vals, k + 1, se)
  }

  /** One round of refinement: if open, not the end of the block; n zeros; then the coefficient v. */
  function RefinementRound(tbl: nat, open: bool, k: nat, n: nat, v: int): seq<Decision>
    requires v != 0
  {
    (if open then [Decision(Ac(tbl, 3 * k), false)] else []) + (ZeroFlags(tbl, k, n) + RefinedValue(tbl, k + n, v))
  }

  /** A new coefficient with its sign after index k, or the next bit of one that was already nonzero. */
  function RefinedValue(tbl: nat, k: nat, v: int): seq<Decision>
    requires v != 0
  {
    if Abs(v) == 1 then [Decision(Ac(tbl, 3 * k + 1), true), SignOrBit(tbl, k, v)] else [SignOrBit(tbl, k, v)]
  }

  function SignOrBit(tbl: nat, k: nat, v: int): Decision {
    if Abs(v) == 1 then Decision(Fixed, v < 0) else Decision(Ac(tbl, 3 * k + 2), Abs(v) % 2 == 1)
  }

  lemma {:induction false} RefinementOfZeros(tbl: nat, vals: seq<int>, k: nat, n: nat, se: nat)
    requires k + n <= se < |vals| && !ZeroAfter(vals, k) && ZerosBetween(vals, k, n)
    ensures !ZeroAfter(vals, k + n)
    ensures RefinementRun(tbl, vals, k, se) == ZeroFlags(tbl, k, n) + RefinementRun(tbl, vals, k + n, se)
  {
    if n > 0 {
      RefinementOfZeros(tbl, vals, k, n - 1, se);
      Associate(ZeroFlags(tbl, k, n - 1), [Decision(Ac(tbl, 3 * (k + n - 1) + 1), false)],
                RefinementRun(tbl, vals, k + n, se));
    }
  }

  /** A run without zeros: its coefficient and the rest. */
  lemma {:induction false} RunOfOne(tbl: nat, vals: seq<int>, k: nat, se: nat)
    requires k < se < |vals| && vals[k + 1] != 0
    ensures RefinementRun(tbl, vals, k, se) == RefinedValue(tbl, k, vals[k + 1]) + AcRefinement(tbl, vals, k + 1, se)
  {
  }

  lemma {:induction false} RefinementOpened(tbl: nat, vals: seq<int>, k: nat, se: nat)
    requires k < se < |vals| && !ZeroAfter(vals, k)
    ensures AcRefinement(tbl, vals, k, se)
         == (if NewAfter(vals, k) then [Decision(Ac(tbl, 3 * k), false)] else []) + RefinementRun(tbl, vals, k, se)
  {
    var run := RefinementRun(tbl, vals, k, se);
    assert [] + run == run;
  }

  lemma {:induction false} RefinementUnfold(tbl: nat, vals: seq<int>, k: nat, n: nat, se: nat)
    requires k + n < se < |vals| && ZerosBetween(vals, k, n) && vals[k + n + 1] != 0
    ensures AcRefinement(tbl, vals, k, se)
         == RefinementRound(tbl, NewAfter(vals, k), k, n, vals[k + n + 1]) + AcRefinement(tbl, vals, k + n + 1, se)
  {
    RefinementOpened(tbl, vals, k, se);
    ZerosThenOne(tbl, vals, k, n, se);
    Regroup4(if NewAfter(vals, k) then [Decision(Ac(tbl, 3 * k), false)] else [], ZeroFlags(tbl, k, n),
             RefinedValue(tbl, k + n, vals[k + n + 1]), AcRefinement(tbl, vals, k + n + 1, se));
  }

  lemma {:induction false} ZerosThenOne(tbl: nat, vals: seq<int>, k: nat, n: nat, se: nat)
    requires k + n < se < |vals| && ZerosBetween(vals, k, n) && vals[k + n + 1] != 0 && !ZeroAfter(vals, k)
    ensures RefinementRun(tbl, vals, k, se)
         == ZeroFlags(tbl, k, n) + (RefinedValue(tbl, k + n, vals[k + n + 1]) + AcRefinement(tbl, vals, k + n + 1, se))
  {
    RefinementOfZeros(tbl, vals, k, n, se);
    RunOfOne(tbl, vals, k + n, se);
  }

  lemma Regroup4(a: seq<Decision>, b: seq<Decision>, c: seq<Decision>, d: seq<Decision>)
    ensures a + (b + (c + d)) == a + (b + c) + d
  {
  }

  // ----- bins stay inside the statistics areas -----

  /** The 49 DC bins and 245 AC bins that sections F.1.4.4.1.3 and F.1.4.4.2 provide. */
  predicate InArea(bin: Bin) {
    match bin
    case Dc(_, i) => i < 49
    case Ac(_, i) => i < 245
    case Fixed => true
  }

  predicate InAreas(ds: seq<Decision>) {
    forall i :: 0 <= i < |ds| ==> InArea(ds[i].bin)
  }

  lemma InAreasConcat(x: seq<Decision>, y: seq<Decision>)
    requires InAreas(x) && InAreas(y)
    ensures InAreas(x + y)
  {
  }

  lemma {:induction false} CategoryAtMost(w: nat, k: nat)
    requires 0 < w < Pow2(k)
    ensures Category(w) < k
  {
    if w > 1 {
      CategoryAtMost(w / 2, k - 1);
    }
  }

  lemma OnesInAreas(st: Bin, k: nat)
    requires k > 0 ==> InArea(st.Plus(k - 1))
    ensures InAreas(Ones(st, k))
  {
  }

  lemma PatternInAreas(st: Bin, w: nat, k: nat)
    requires InArea(st)
    ensures InAreas(Pattern(st, w, k))
  {
  }

  lemma LowCategory(w: nat)
    requires 0 < w < 0x8000
    ensures Category(w) <= 14
  {
    PowerValues();
    CategoryAtMost(w, 15);
  }

  predicate IsContext(context: nat) {
    context in {0, 4, 8, 12, 16}
  }

  lemma {:induction false} DcMagnitudeInAreas(st: Bin, x1: Bin, w: nat)
    requires InArea(st) && x1.Dc? && x1.index == 20 && w < 0x8000
    ensures InAreas(DcMagnitude(st, x1, w))
  {
    if w > 0 {
      LowCategory(w);
      var k := Category(w);
      OnesInAreas(x1, k);
      PatternInAreas(x1.Plus(k + 14), w, k);
      InAreasConcat(Unary(x1, k), Pattern(x1.Plus(k + 14), w, k));
    }
  }

  lemma {:induction false} SmallDcInAreas(tbl: nat, context: nat, v: int)
    requires IsContext(context) && Abs(v) <= 0x8000
    ensures InAreas(DcDecisions(tbl, context, v))
  {
    if v != 0 {
      var st := Dc(tbl, context + (if v > 0 then 2 else 3));
      DcMagnitudeInAreas(st, Dc(tbl, 20), Abs(v) - 1);
      InAreasConcat([Decision(Dc(tbl, context), true), Decision(Dc(tbl, context + 1), v < 0)],
                    DcMagnitude(st, Dc(tbl, 20), Abs(v) - 1));
    }
  }

  lemma {:induction false} LargeDcInAreas(tbl: nat, context: nat, v: int, k: nat)
    requires IsContext(context) && k == 15
    ensures InAreas([Decision(Dc(tbl, context), true), Decision(Dc(tbl, context + 1), v < 0),
                     Decision(Dc(tbl, context + (if v > 0 then 2 else 3)), true)] + Ones(Dc(tbl, 20), k))
  {
    OnesInAreas(Dc(tbl, 20), k);
    InAreasConcat([Decision(Dc(tbl, context), true), Decision(Dc(tbl, context + 1), v < 0),
                   Decision(Dc(tbl, context + (if v > 0 then 2 else 3)), true)], Ones(Dc(tbl, 20), k));
  }

  /** Every bin that a DC difference uses is in its area, whatever a decoder reads. */
  lemma {:induction false} DcInAreas(tbl: nat, context: nat, v: int)
    requires IsContext(context)
    ensures InAreas(DcRead(tbl, context, v))
  {
    DcReadIs(tbl, context, v);
    if Abs(v) <= 0x8000 {
      SmallDcInAreas(tbl, context, v);
    } else {
      LargeDcInAreas(tbl, context, v, 15);
    }
  }

  lemma AcMagnitudeInAreas(st: Bin, x2: Bin, w: nat)
    requires InArea(st) && x2.Ac? && x2.index <= 217 && w < 0x8000
    ensures InAreas(AcMagnitude(st, x2, w))
  {
    if w > 1 {
      LowCategory(w);
      var n := Category(w);
      OnesInAreas(x2, n - 1);
      PatternInAreas(x2.Plus(n - 1 + 14), w, n);
      InAreasConcat(Unary(x2, n - 1), Pattern(x2.Plus(n - 1 + 14), w, n));
    }
  }

  /** Every bin that a block of AC coefficients uses is in its area. */
  lemma {:induction false} AcInAreas(tbl: nat, c: Conditioning, vals: seq<int>, k: nat, se: nat)
    requires se < |vals| && se <= 63
    ensures InAreas(AcCoefficients(tbl, c, vals, k, se))
    decreases se - k, 1
  {
    if k < se && !ZeroAfter(vals, k) {
      AcRunInAreas(tbl, c, vals, k, se);
    }
  }

  lemma {:induction false} AcRunInAreas(tbl: nat, c: Conditioning, vals: seq<int>, k: nat, se: nat)
    requires k <= se < |vals| && se <= 63 && !ZeroAfter(vals, k)
    ensures InAreas(AcRun(tbl, c, vals, k, se))
    decreases se - k, 0
  {
    if k == se {
    } else if vals[k + 1] == 0 {
      AcRunInAreas(tbl, c, vals, k + 1, se);
    } else {
      var head := [Decision(Ac(tbl, 3 * k + 1), true), Decision(Fixed, vals[k + 1] < 0)];
      AfterSignInAreas(tbl, c, vals, k + 1, se);
      InAreasConcat(head, AfterSign(tbl, c, vals, k + 1, se));
    }
  }

  lemma {:induction false} AfterSignInAreas(tbl: nat, c: Conditioning, vals: seq<int>, k: nat, se: nat)
    requires 1 <= k <= se < |vals| && se <= 63 && vals[k] != 0
    ensures InAreas(AfterSign(tbl, c, vals, k, se))
    decreases se - k, 2
  {
    var st, x2 := Ac(tbl, 3 * k - 1), AcX2(tbl, c, k);
    if Abs(vals[k]) > 0x8000 {
      OnesInAreas(x2, 14);
      InAreasConcat([Decision(st, true), Decision(st, true)], Ones(x2, 14));
    } else {
      AcInAreas(tbl, c, vals, k, se);
      AcMagnitudeInAreas(st, x2, Abs(vals[k]) - 1);
      InAreasConcat(AcMagnitude(st, x2, Abs(vals[k]) - 1), AcCoefficients(tbl, c, vals, k, se));
    }
  }

  lemma {:induction false} RefinementInAreas(tbl: nat, vals: seq<int>, k: nat, se: nat)
    requires se < |vals| && se <= 63
    ensures InAreas(AcRefinement(tbl, vals, k, se))
    decreases se - k, 1
  {
    if k < se && !ZeroAfter(vals, k) {
      RefinementRunInAreas(tbl, vals, k, se);
    }
  }

  lemma {:induction false} RefinementRunInAreas(tbl: nat, vals: seq<int>, k: nat, se: nat)
    requires k <= se < |vals| && se <= 63 && !ZeroAfter(vals, k)
    ensures InAreas(RefinementRun(tbl, vals, k, se))
    decreases se - k, 0
  {
    if k == se {
    } else if vals[k + 1] == 0 {
      RefinementRunInAreas(tbl, vals, k + 1, se);
    } else {
      RefinementInAreas(tbl, vals, k + 1, se);
    }
  }
}
