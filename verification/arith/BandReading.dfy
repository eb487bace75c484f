/** How a band of AC coefficients is read back from decisions, one coefficient after the other. */
module BandReading {
  import opened Powers
  import opened CodeInterval
  import opened CoefficientModel

  function Zeros(n: nat): (z: seq<int>)
    ensures |z| == n && forall i :: 0 <= i < n ==> z[i] == 0
  {
    seq(n, _ => 0)
  }

  /** Coding goes from before to after while the coefficients after index k0 up to k are passed. */
  ghost predicate Passes(before: seq<Decision>, after: seq<Decision>, tbl: nat, c: Conditioning,
                         vals: seq<int>, k0: nat, k: nat, se: nat)
  {
    forall i {:trigger Key(i)} :: Key(i) && |vals| > se ==>
      before + AcCoefficients(tbl, c, vals, k0, se) == after + AcCoefficients(tbl, c, vals, k, se)
  }

  /** Those coefficients are the ones in got, whatever comes behind them. */
  ghost predicate Reaches(before: seq<Decision>, after: seq<Decision>, tbl: nat, c: Conditioning,
                          got: seq<int>, k0: nat, se: nat)
  {
    forall rest: seq<int> {:trigger got + rest} :: got != [] ==>
      Passes(before, after, tbl, c, got + rest, k0, |got| - 1, se)
  }

  lemma ReachesMore(before: seq<Decision>, mid: seq<Decision>, after: seq<Decision>, tbl: nat, c: Conditioning,
                    got: seq<int>, k0: nat, n: nat, v: int, se: nat)
    requires Reaches(before, mid, tbl, c, got, k0, se) && got != [] && |got| + n <= se
    requires 0 < Abs(v) <= 0x8000
    requires RoundBetween(mid, after, tbl, c, |got| - 1, n, v)
    ensures Reaches(before, after, tbl, c, got + Zeros(n) + [v], k0, se)
  {
    var got2 := got + Zeros(n) + [v];
    forall rest: seq<int> ensures Passes(before, after, tbl, c, got2 + rest, k0, |got2| - 1, se) {
      Rejoin(got, n, v, rest);
      PassesMore(before, mid, after, tbl, c, got2 + rest, k0, |got| - 1, n, |got2| - 1, se);
    }
  }

  lemma Rejoin(got: seq<int>, n: nat, v: int, rest: seq<int>)
    ensures got + Zeros(n) + [v] + rest == got + (Zeros(n) + [v] + rest)
    ensures |got + Zeros(n) + [v]| == |got| + n + 1
    ensures got != [] ==> ZerosBetween(got + Zeros(n) + [v] + rest, |got| - 1, n)
    ensures (got + Zeros(n) + [v] + rest)[|got| + n] == v
  {
  }

  /** The decisions from mid to after are those of one round. */
  ghost predicate RoundBetween(mid: seq<Decision>, after: seq<Decision>, tbl: nat, c: Conditioning, k: nat, n: nat, v: int) {
    forall i {:trigger Key(i)} :: Key(i) && v != 0 ==> after == mid + AcRound(tbl, c, k, n, v)
  }

  lemma {:induction false} RoundIs(mid: seq<Decision>, after: seq<Decision>, tbl: nat, c: Conditioning, k: nat, n: nat, k2: nat, v: int)
    requires k2 == k + n + 1 && v != 0
    requires after == mid + [Decision(Ac(tbl, 3 * k), false)] + ZeroFlags(tbl, k, n) + AcValue(tbl, c, k2, v)
    ensures RoundBetween(mid, after, tbl, c, k, n, v)
  {
    Regroup(mid, [Decision(Ac(tbl, 3 * k), false)], ZeroFlags(tbl, k, n), AcValue(tbl, c, k2, v));
    assert after == mid + AcRound(tbl, c, k, n, v);
  }

  lemma PassesNone(now: seq<Decision>, tbl: nat, c: Conditioning, vals: seq<int>, k0: nat, se: nat)
    requires se < |vals|
    ensures Passes(now, now, tbl, c, vals, k0, k0, se)
  {
  }

  lemma ZeroFurther(vals: seq<int>, k: nat, n: nat)
    requires ZeroAfter(vals, k) && k <= n
    ensures ZeroAfter(vals, n)
  {
  }

  lemma PassesDone(before: seq<Decision>, now: seq<Decision>, tbl: nat, c: Conditioning, vals: seq<int>, k0: nat, k: nat, se: nat)
    requires Passes(before, now, tbl, c, vals, k0, k, se) && k <= se < |vals| && ZeroAfter(vals, k)
    ensures now + (if k < se then [Decision(Ac(tbl, 3 * k), true)] else []) == before + AcCoefficients(tbl, c, vals, k0, se)
  {
    assert Key(0);
  }

  lemma PassesMore(before: seq<Decision>, mid: seq<Decision>, after: seq<Decision>, tbl: nat, c: Conditioning,
                   vals: seq<int>, k0: nat, k: nat, n: nat, k2: nat, se: nat)
    requires Passes(before, mid, tbl, c, vals, k0, k, se)
    requires k2 == k + n + 1 < |vals| && k2 <= se && ZerosBetween(vals, k, n)
    requires 0 < Abs(vals[k2]) <= 0x8000 && RoundBetween(mid, after, tbl, c, k, n, vals[k2])
    ensures Passes(before, after, tbl, c, vals, k0, k2, se)
  {
    if |vals| > se {
      assert Key(0);
      RoundDone(mid, after, tbl, c, vals, k, n, se);
    }
  }

  /** Coding of a whole band, once the coefficients in got are passed. */
  lemma ReachesEnd(before: seq<Decision>, mid: seq<Decision>, tbl: nat, c: Conditioning,
                   got: seq<int>, rest: seq<int>, k0: nat, se: nat)
    requires Reaches(before, mid, tbl, c, got, k0, se) && got != [] && |got + rest| > se
    ensures before + AcCoefficients(tbl, c, got + rest, k0, se)
         == mid + AcCoefficients(tbl, c, got + rest, |got| - 1, se)
  {
    assert Key(0);
  }

  lemma RoundDone(mid: seq<Decision>, after: seq<Decision>, tbl: nat, c: Conditioning, vals: seq<int>,
                  k: nat, n: nat, se: nat)
    requires k + n < se < |vals| && ZerosBetween(vals, k, n) && 0 < Abs(vals[k + n + 1]) <= 0x8000
    requires after == mid + AcRound(tbl, c, k, n, vals[k + n + 1])
    ensures mid + AcCoefficients(tbl, c, vals, k, se) == after + AcCoefficients(tbl, c, vals, k + n + 1, se)
  {
    AcUnfold(tbl, c, vals, k, n, se);
    Associate(mid, AcRound(tbl, c, k, n, vals[k + n + 1]), AcCoefficients(tbl, c, vals, k + n + 1, se));
  }

  /** A run of zeros that leaves the band. */
  lemma SpectralOverflow(tbl: nat, c: Conditioning, got: seq<int>, n: nat, se: nat)
    requires 0 < |got| <= se && n == se + 1 - |got|
    ensures var k0, vals := |got| - 1, got + (Zeros(n) + [1]);
      && Spelled(vals, se) && |vals| > se + 1 && !ZeroAfter(vals, k0)
      && AcRun(tbl, c, vals, k0, se) == ZeroFlags(tbl, k0, n)
  {
    var k0, vals := |got| - 1, got + (Zeros(n) + [1]);
    assert vals[se + 1] == 1;
    RunOfZeros(tbl, c, vals, k0, n, se);
  }

  /** A magnitude that is too large. */
  lemma MagnitudeOverflow(tbl: nat, c: Conditioning, got: seq<int>, k: nat, v: int, se: nat)
    requires 0 < |got| <= k <= se && Abs(v) > 0x8000
    ensures var k0, vals := |got| - 1, got + (Zeros(k - |got|) + [v] + Zeros(se - k));
      && |vals| == se + 1 && !ZeroAfter(vals, k0) && !Decodable(vals, se)
      && AcRun(tbl, c, vals, k0, se) == ZeroFlags(tbl, k0, k - |got|)
           + ([Decision(Ac(tbl, 3 * (k - 1) + 1), true), Decision(Fixed, v < 0)] + AcOverflow(tbl, c, k))
  {
    var k0, vals := |got| - 1, got + (Zeros(k - |got|) + [v] + Zeros(se - k));
    assert vals[k] == v;
    RunOfZeros(tbl, c, vals, k0, k - |got|, se);
    assert AcRun(tbl, c, vals, k - 1, se)
        == [Decision(Ac(tbl, 3 * (k - 1) + 1), true), Decision(Fixed, v < 0)] + AcOverflow(tbl, c, k);
  }

  /** The AC coefficients ss to se of a block, in zigzag order, at the scale 2^al. */
  datatype Band = Band(tbl: nat, c: Conditioning, order: seq<nat>, ss: nat, se: nat, al: nat)

  ghost predicate Fits(b: Band, size: nat) {
    forall i {:trigger Key(i)} :: Key(i) ==> IsOrder(b.order, size) && 1 <= b.ss <= b.se < |b.order|
  }

  /** What a band decoder has done so far: decisions from before to after, the values of got, and a
      block that went from blk0 to blk. */
  ghost predicate BandRead(b: Band, before: seq<Decision>, after: seq<Decision>, got: seq<int>, blk0: seq<int>, blk: seq<int>) {
    forall i {:trigger Key(i)} :: Key(i) ==>
      && Fits(b, |blk0|) && b.ss <= |got| <= b.se + 1
      && Decodable(got, |got| - 1) && (forall j :: 0 <= j < b.ss ==> got[j] == 0)
      && Reaches(before, after, b.tbl, b.c, got, b.ss - 1, b.se)
      && Stored(blk0, blk, b.order, b.ss, got, b.al)
  }

  /** What it has done in the end, and whether it succeeded. */
  ghost predicate BandDone(b: Band, before: seq<Decision>, after: seq<Decision>, ok: bool, vals: seq<int>,
                           blk0: seq<int>, blk: seq<int>)
  {
    forall i {:trigger Key(i)} :: Key(i) ==>
      && Fits(b, |blk0|) && Spelled(vals, b.se) && (forall j :: 0 <= j < b.ss ==> vals[j] == 0)
      && after == before + AcCoefficients(b.tbl, b.c, vals, b.ss - 1, b.se)
      && (ok <==> Decodable(vals, b.se))
      && (ok ==> Stored(blk0, blk, b.order, b.ss, vals, b.al))
  }

  datatype Round = EndOfBlock | Coefficient(k: nat, v: int) | Overflow

  /** The round after the coefficients in got ended the block, read one more coefficient, or read as
      much of the impossible values bad as can be coded. */
  ghost predicate RoundRead(b: Band, mid: seq<Decision>, after: seq<Decision>, got: seq<int>, r: Round, bad: seq<int>) {
    forall i {:trigger Key(i)} :: Key(i) && 0 < |got| <= b.se ==>
      match r
      case EndOfBlock => after == mid + [Decision(Ac(b.tbl, 3 * (|got| - 1)), true)]
      case Coefficient(k, v) =>
        |got| <= k <= b.se && 0 < Abs(v) <= 0x8000 && RoundBetween(mid, after, b.tbl, b.c, |got| - 1, k - |got|, v)
      case Overflow =>
        && Spelled(got + bad, b.se) && !Decodable(got + bad, b.se)
        && after == mid + AcCoefficients(b.tbl, b.c, got + bad, |got| - 1, b.se)
  }

  /** The same for what comes after the decision that the block does not end. */
  ghost predicate RunRead(b: Band, mid: seq<Decision>, after: seq<Decision>, got: seq<int>, r: Round, bad: seq<int>) {
    forall i {:trigger Key(i)} :: Key(i) && 0 < |got| <= b.se ==>
      match r
      case EndOfBlock => false
      case Coefficient(k, v) =>
        && |got| <= k <= b.se && 0 < Abs(v) <= 0x8000
        && after == mid + (ZeroFlags(b.tbl, |got| - 1, k - |got|) + AcValue(b.tbl, b.c, k, v))
      case Overflow =>
        && Spelled(got + bad, b.se) && !Decodable(got + bad, b.se) && !ZeroAfter(got + bad, |got| - 1)
        && after == mid + AcRun(b.tbl, b.c, got + bad, |got| - 1, b.se)
  }

  lemma RunIsRound(b: Band, mid: seq<Decision>, afterFlag: seq<Decision>, after: seq<Decision>, got: seq<int>,
                   r: Round, bad: seq<int>)
    requires 0 < |got| <= b.se && afterFlag == mid + [Decision(Ac(b.tbl, 3 * (|got| - 1)), false)]
    requires RunRead(b, afterFlag, after, got, r, bad)
    ensures RoundRead(b, mid, after, got, r, bad)
  {
    assert Key(0);
    Associate(mid, [Decision(Ac(b.tbl, 3 * (|got| - 1)), false)],
              match r
              case EndOfBlock => []
              case Coefficient(k, v) => ZeroFlags(b.tbl, |got| - 1, k - |got|) + AcValue(b.tbl, b.c, k, v)
              case Overflow => AcRun(b.tbl, b.c, got + bad, |got| - 1, b.se));
  }

  lemma SpectralOverflowRead(b: Band, mid: seq<Decision>, after: seq<Decision>, got: seq<int>, n: nat)
    requires 0 < |got| <= b.se && n == b.se + 1 - |got| && after == mid + ZeroFlags(b.tbl, |got| - 1, n)
    ensures RunRead(b, mid, after, got, Overflow, Zeros(n) + [1])
  {
    SpectralOverflow(b.tbl, b.c, got, n, b.se);
  }

  /** The sign and magnitude of the coefficient at index k, as far as a decoder reads them. */
  function ValueTail(b: Band, k: nat, v: int): seq<Decision>
    requires k > 0 && v != 0
  {
    if Abs(v) > 0x8000 then AcOverflow(b.tbl, b.c, k)
    else AcMagnitude(Ac(b.tbl, 3 * k - 1), AcX2(b.tbl, b.c, k), Abs(v) - 1)
  }

  lemma ValueRead(b: Band, mid: seq<Decision>, after: seq<Decision>, got: seq<int>, k: nat, v: int, tail: seq<Decision>)
    requires 0 < |got| <= k <= b.se && v != 0 && tail == ValueTail(b, k, v)
    requires after == mid + (ZeroFlags(b.tbl, |got| - 1, k - |got|) + [Decision(Ac(b.tbl, 3 * (k - 1) + 1), true)])
      + ([Decision(Fixed, v < 0)] + tail)
    ensures RunRead(b, mid, after, got, if Abs(v) > 0x8000 then Overflow else Coefficient(k, v),
                    Zeros(k - |got|) + [v] + Zeros(b.se - k))
  {
    Weave(mid, ZeroFlags(b.tbl, |got| - 1, k - |got|), Decision(Ac(b.tbl, 3 * (k - 1) + 1), true), Decision(Fixed, v < 0), tail);
    if Abs(v) > 0x8000 {
      MagnitudeOverflowRead(b, mid, after, got, k, v);
    } else {
      CoefficientRead(b, mid, after, got, k, v, Zeros(k - |got|) + [v] + Zeros(b.se - k));
    }
  }

  lemma CoefficientRead(b: Band, mid: seq<Decision>, after: seq<Decision>, got: seq<int>, k: nat, v: int, bad: seq<int>)
    requires 0 < |got| <= k <= b.se && 0 < Abs(v) <= 0x8000
    requires after == mid + (ZeroFlags(b.tbl, |got| - 1, k - |got|)
      + ([Decision(Ac(b.tbl, 3 * (k - 1) + 1), true), Decision(Fixed, v < 0)] + ValueTail(b, k, v)))
    ensures RunRead(b, mid, after, got, Coefficient(k, v), bad)
  {
    var head := [Decision(Ac(b.tbl, 3 * (k - 1) + 1), true), Decision(Fixed, v < 0)];
    assert AcValue(b.tbl, b.c, k, v) == head + ValueTail(b, k, v);
  }

  lemma MagnitudeOverflowRead(b: Band, mid: seq<Decision>, after: seq<Decision>, got: seq<int>, k: nat, v: int)
    requires 0 < |got| <= k <= b.se && Abs(v) > 0x8000
    requires after == mid + (ZeroFlags(b.tbl, |got| - 1, k - |got|)
      + ([Decision(Ac(b.tbl, 3 * (k - 1) + 1), true), Decision(Fixed, v < 0)] + AcOverflow(b.tbl, b.c, k)))
    ensures RunRead(b, mid, after, got, Overflow, Zeros(k - |got|) + [v] + Zeros(b.se - k))
  {
    MagnitudeOverflow(b.tbl, b.c, got, k, v, b.se);
  }

  lemma Weave(s: seq<Decision>, x: seq<Decision>, d1: Decision, d2: Decision, y: seq<Decision>)
    ensures s + (x + [d1]) + ([d2] + y) == s + (x + ([d1, d2] + y))
  {
  }

  lemma BandStart(b: Band, ds: seq<Decision>, blk: seq<int>)
    requires Fits(b, |blk|)
    ensures BandRead(b, ds, ds, Zeros(b.ss), blk, blk)
  {
    assert Key(0);
    NothingStored(blk, b.order, b.ss, Zeros(b.ss), b.al);
  }

  lemma BandMore(b: Band, before: seq<Decision>, mid: seq<Decision>, after: seq<Decision>, got: seq<int>,
                 k: nat, v: int, blk0: seq<int>, blk: seq<int>, p: nat)
    requires BandRead(b, before, mid, got, blk0, blk) && Fits(b, |blk|)
    requires 0 < |got| <= k <= b.se < |b.order| && p == b.order[k] < |blk| && 0 < Abs(v) <= 0x8000
    requires RoundBetween(mid, after, b.tbl, b.c, |got| - 1, k - |got|, v)
    ensures BandRead(b, before, after, got + Zeros(k - |got|) + [v], blk0, blk[p := Wrap16(v * Pow2(b.al))])
  {
    BandReaches(b, before, mid, after, got, k, v, blk0, blk);
    BandStored(b, before, mid, got, k, v, blk0, blk, p);
  }

  lemma BandReaches(b: Band, before: seq<Decision>, mid: seq<Decision>, after: seq<Decision>, got: seq<int>,
                    k: nat, v: int, blk0: seq<int>, blk: seq<int>)
    requires BandRead(b, before, mid, got, blk0, blk)
    requires 0 < |got| <= k <= b.se < |b.order| && 0 < Abs(v) <= 0x8000
    requires RoundBetween(mid, after, b.tbl, b.c, |got| - 1, k - |got|, v)
    ensures b.ss > 0 && Reaches(before, after, b.tbl, b.c, got + Zeros(k - |got|) + [v], b.ss - 1, b.se)
  {
    assert Key(0);
    ReachesMore(before, mid, after, b.tbl, b.c, got, b.ss - 1, k - |got|, v, b.se);
  }

  lemma BandStored(b: Band, before: seq<Decision>, mid: seq<Decision>, got: seq<int>,
                   k: nat, v: int, blk0: seq<int>, blk: seq<int>, p: nat)
    requires BandRead(b, before, mid, got, blk0, blk)
    requires 0 < |got| <= k <= b.se < |b.order| && p == b.order[k] < |blk| && 0 < Abs(v) <= 0x8000
    ensures var got2 := got + Zeros(k - |got|) + [v];
      && Fits(b, |blk0|) && b.ss <= |got2| <= b.se + 1 && Decodable(got2, |got2| - 1)
      && (forall j :: 0 <= j < b.ss ==> got2[j] == 0)
      && IsOrder(b.order, |blk0|) && Stored(blk0, blk[p := Wrap16(v * Pow2(b.al))], b.order, b.ss, got2, b.al)
  {
    assert Key(0);
    StoredMore(blk0, blk, b.order, b.ss, got, got + Zeros(k - |got|) + [v], b.al);
  }

  lemma BandFull(b: Band, before: seq<Decision>, after: seq<Decision>, got: seq<int>, blk0: seq<int>, blk: seq<int>)
    requires BandRead(b, before, after, got, blk0, blk) && |got| == b.se + 1
    ensures BandDone(b, before, after, true, got, blk0, blk)
  {
    assert Key(0);
    ReachesEnd(before, after, b.tbl, b.c, got, [], b.ss - 1, b.se);
    assert got + [] == got;
  }

  lemma BandEnd(b: Band, before: seq<Decision>, mid: seq<Decision>, after: seq<Decision>, got: seq<int>,
                blk0: seq<int>, blk: seq<int>)
    requires BandRead(b, before, mid, got, blk0, blk) && 0 < |got| <= b.se
    requires after == mid + [Decision(Ac(b.tbl, 3 * (|got| - 1)), true)]
    ensures BandDone(b, before, after, true, got + Zeros(b.se + 1 - |got|), blk0, blk)
  {
    assert Key(0);
    var vals := got + Zeros(b.se + 1 - |got|);
    ReachesEnd(before, mid, b.tbl, b.c, got, Zeros(b.se + 1 - |got|), b.ss - 1, b.se);
    StoredZeros(blk0, blk, b.order, b.ss, got, vals, b.al);
  }

  lemma BandBad(b: Band, before: seq<Decision>, mid: seq<Decision>, after: seq<Decision>, got: seq<int>, bad: seq<int>,
                blk0: seq<int>, blk: seq<int>)
    requires BandRead(b, before, mid, got, blk0, blk)
    requires 0 < |got| && Spelled(got + bad, b.se) && !Decodable(got + bad, b.se)
    requires after == mid + AcCoefficients(b.tbl, b.c, got + bad, |got| - 1, b.se)
    ensures BandDone(b, before, after, false, got + bad, blk0, blk)
  {
    BandParts(b, before, mid, got, blk0, blk);
    BadReaches(b, before, mid, after, got, bad);
    DoneBad(b, before, after, got + bad, blk0, blk);
  }

  lemma {:induction false} BandParts(b: Band, before: seq<Decision>, mid: seq<Decision>, got: seq<int>, blk0: seq<int>, blk: seq<int>)
    requires BandRead(b, before, mid, got, blk0, blk)
    ensures Fits(b, |blk0|) && b.ss <= |got| && (forall j :: 0 <= j < b.ss ==> got[j] == 0)
    ensures 1 <= b.ss && Reaches(before, mid, b.tbl, b.c, got, b.ss - 1, b.se)
  {
    assert Key(0);
  }

  lemma {:induction false} BadReaches(b: Band, before: seq<Decision>, mid: seq<Decision>, after: seq<Decision>, got: seq<int>, bad: seq<int>)
    requires 1 <= b.ss && Reaches(before, mid, b.tbl, b.c, got, b.ss - 1, b.se) && 0 < |got| && b.se < |got + bad|
    requires after == mid + AcCoefficients(b.tbl, b.c, got + bad, |got| - 1, b.se)
    ensures after == before + AcCoefficients(b.tbl, b.c, got + bad, b.ss - 1, b.se)
  {
    ReachesEnd(before, mid, b.tbl, b.c, got, bad, b.ss - 1, b.se);
  }

  lemma {:induction false} DoneBad(b: Band, before: seq<Decision>, after: seq<Decision>, vals: seq<int>, blk0: seq<int>, blk: seq<int>)
    requires Fits(b, |blk0|) && Spelled(vals, b.se) && !Decodable(vals, b.se) && 1 <= b.ss <= |vals|
    requires (forall j :: 0 <= j < b.ss ==> vals[j] == 0) && after == before + AcCoefficients(b.tbl, b.c, vals, b.ss - 1, b.se)
    ensures BandDone(b, before, after, false, vals, blk0, blk)
  {
  }

  lemma BandLast(b: Band, before: seq<Decision>, mid: seq<Decision>, after: seq<Decision>, got: seq<int>,
                 r: Round, bad: seq<int>, blk0: seq<int>, blk: seq<int>)
    requires BandRead(b, before, mid, got, blk0, blk) && RoundRead(b, mid, after, got, r, bad)
    requires 0 < |got| <= b.se && !r.Coefficient?
    ensures r.EndOfBlock? ==> BandDone(b, before, after, true, got + Zeros(b.se + 1 - |got|), blk0, blk)
    ensures r.Overflow? ==> BandDone(b, before, after, false, got + bad, blk0, blk)
  {
    assert Key(0);
    if r.EndOfBlock? {
      BandEnd(b, before, mid, after, got, blk0, blk);
    } else {
      BandBad(b, before, mid, after, got, bad, blk0, blk);
    }
  }

  lemma BandNext(b: Band, before: seq<Decision>, mid: seq<Decision>, after: seq<Decision>, got: seq<int>,
                 r: Round, bad: seq<int>, blk0: seq<int>, blk: seq<int>, p: nat)
    requires BandRead(b, before, mid, got, blk0, blk) && RoundRead(b, mid, after, got, r, bad) && Fits(b, |blk|)
    requires 0 < |got| <= b.se && r.Coefficient? && |got| <= r.k <= b.se < |b.order| && p == b.order[r.k] < |blk|
    ensures BandRead(b, before, after, got + Zeros(r.k - |got|) + [r.v], blk0, blk[p := Wrap16(r.v * Pow2(b.al))])
  {
    assert Key(0);
    BandMore(b, before, mid, after, got, r.k, r.v, blk0, blk, p);
  }
}
