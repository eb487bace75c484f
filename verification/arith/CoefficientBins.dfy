/** What every statistics bin is used for: the decisions of a coefficient in each of the bins of tables F.4
    and F.5 of ITU-T T.81. */
module CoefficientBins {
  import opened Powers
  import opened CodeInterval
  import opened CoefficientModel

  /** The decisions in one bin, in their order. */
  function BitsIn(ds: seq<Decision>, bin: Bin): seq<bool> {
    if ds == [] then [] else (if ds[0].bin == bin then [ds[0].bit] else []) + BitsIn(ds[1..], bin)
  }

  lemma {:induction false} BitsOfBoth(x: seq<Decision>, y: seq<Decision>, bin: Bin)
    ensures BitsIn(x + y, bin) == BitsIn(x, bin) + BitsIn(y, bin)
    decreases |x|
  {
    if x == [] {
      assert x + y == y;
    } else {
      assert (x + y)[0] == x[0] && (x + y)[1..] == x[1..] + y;
      BitsOfBoth(x[1..], y, bin);
      BitsAssociate(if x[0].bin == bin then [x[0].bit] else [], BitsIn(x[1..], bin), BitsIn(y, bin));
    }
  }

  lemma BitsAssociate(x: seq<bool>, y: seq<bool>, z: seq<bool>)
    ensures x + (y + z) == x + y + z
  {
  }

  lemma BitsOfOne(d: Decision, bin: Bin)
    ensures BitsIn([d], bin) == if d.bin == bin then [d.bit] else []
  {
  }

  lemma {:induction false} BitsElsewhere(ds: seq<Decision>, bin: Bin)
    requires forall i :: 0 <= i < |ds| ==> ds[i].bin != bin
    ensures BitsIn(ds, bin) == []
    decreases |ds|
  {
    if ds != [] { BitsElsewhere(ds[1..], bin); }
  }

  lemma {:induction false} BitsAllThere(ds: seq<Decision>, bin: Bin)
    requires forall i :: 0 <= i < |ds| ==> ds[i].bin == bin
    ensures BitsIn(ds, bin) == Bits(ds)
    decreases |ds|
  {
    if ds != [] {
      BitsAllThere(ds[1..], bin);
      assert Bits(ds) == [ds[0].bit] + Bits(ds[1..]);
    }
  }

  // ----- categories and bits of a magnitude -----

  /** The place of bin among those behind st, or a negative number. */
  function Place(st: Bin, bin: Bin): int {
    if st.Dc? && bin.Dc? && st.tbl == bin.tbl then bin.index - st.index
    else if st.Ac? && bin.Ac? && st.tbl == bin.tbl then bin.index - st.index
    else -1
  }

  /** The k bits of w below its highest one. */
  function LowBits(w: nat, k: nat): (bits: seq<bool>)
    ensures |bits| == k && forall i :: 0 <= i < k ==> (bits[i] <==> w / Pow2(k - 1 - i) % 2 == 1)
  {
    seq(k, i requires 0 <= i < k => w / Pow2(k - 1 - i) % 2 == 1)
  }

  lemma {:induction false} OnesThere(st: Bin, n: nat, bin: Bin)
    requires !st.Fixed?
    ensures BitsIn(Ones(st, n), bin) == if 0 <= Place(st, bin) < n then [true] else []
  {
    if n > 0 {
      OnesThere(st, n - 1, bin);
      OneMore(st, n - 1);
      BitsOfBoth(Ones(st, n - 1), [Decision(st.Plus(n - 1), true)], bin);
    }
  }

  lemma {:induction false} UnaryThere(st: Bin, n: nat, bin: Bin)
    requires !st.Fixed?
    ensures var i := Place(st, bin);
      BitsIn(Unary(st, n), bin) == if 0 <= i <= n then [i < n] else []
  {
    OnesThere(st, n, bin);
    BitsOfBoth(Ones(st, n), [Decision(st.Plus(n), false)], bin);
  }

  lemma {:induction false} PatternThere(st: Bin, w: nat, k: nat, bin: Bin)
    ensures BitsIn(Pattern(st, w, k), bin) == if bin == st then LowBits(w, k) else []
  {
    if bin == st {
      BitsAllThere(Pattern(st, w, k), bin);
      forall i | 0 <= i < k ensures Bits(Pattern(st, w, k))[i] == LowBits(w, k)[i] {
        BitIs(w, k - 1 - i);
      }
    } else {
      BitsElsewhere(Pattern(st, w, k), bin);
    }
  }

  /** Whether w is at least 2^i, in the i-th bin of the categories, for every i up to the category. */
  lemma CategoryIs(w: nat, i: nat)
    requires w > 0
    ensures Category(w) >= i <==> w >= Pow2(i)
  {
    if Category(w) >= i { PowerGrows(i, Category(w)); } else { PowerGrows(Category(w) + 1, i); }
  }

  lemma {:induction false} PowerGrows(a: nat, b: nat)
    requires a <= b
    ensures Pow2(a) <= Pow2(b)
  {
    if a < b { PowerGrows(a, b - 1); }
  }

  /**
    * The bins of a magnitude w that is at least 2^least, from the first one of its categories on: the i-th
    * tells whether w reaches 2^(least + i + 1), once it reaches the power below; the one 14 bins behind the
    * last of these has all bits below the highest.
    */
  function CategoryContents(w: nat, least: nat, i: nat): seq<bool> {
    FlagIn(w, least, i) + LowIn(w, least, i)
  }

  function FlagIn(w: nat, least: nat, i: nat): seq<bool> {
    if w >= Pow2(least + i) then [w >= Pow2(least + i + 1)] else []
  }

  function LowIn(w: nat, least: nat, i: nat): seq<bool> {
    if i >= 14 && Pow2(least + i - 14) <= w < Pow2(least + i - 13) then LowBits(w, least + i - 14) else []
  }

  /** The decisions of a category and of the bits below the highest. */
  function CategoryCode(x: Bin, w: nat, k: nat, n: nat): seq<Decision> {
    Unary(x, n) + Pattern(x.Plus(n + 14), w, k)
  }

  lemma {:induction false} CategoryBins(x: Bin, w: nat, least: nat, bin: Bin, k: nat, n: nat)
    requires !x.Fixed? && w >= Pow2(least) && k == Category(w) && k == n + least
    ensures BitsIn(CategoryCode(x, w, k, n), bin)
         == if Place(x, bin) >= 0 then CategoryContents(w, least, Place(x, bin)) else []
  {
    var i := Place(x, bin);
    BitsOfBoth(Unary(x, n), Pattern(x.Plus(n + 14), w, k), bin);
    UnaryThere(x, n, bin);
    PatternThere(x.Plus(n + 14), w, k, bin);
    PlaceIs(x, bin, n + 14);
    if i >= 0 {
      FlagContents(w, least, i);
      PatternContents(w, least, i);
    }
  }

  lemma PlaceIs(x: Bin, bin: Bin, n: nat)
    requires !x.Fixed?
    ensures bin == x.Plus(n) <==> Place(x, bin) == n
  {
  }

  lemma {:induction false} FlagContents(w: nat, least: nat, i: nat)
    requires w >= Pow2(least) && Category(w) >= least
    ensures FlagIn(w, least, i) == if i <= Category(w) - least then [i < Category(w) - least] else []
  {
    CategoryIs(w, least + i);
    CategoryIs(w, least + i + 1);
  }

  lemma {:induction false} PatternContents(w: nat, least: nat, i: nat)
    requires w >= Pow2(least) && Category(w) >= least
    ensures LowIn(w, least, i) == if i == Category(w) - least + 14 then LowBits(w, Category(w)) else []
  {
    if i >= 14 {
      CategoryIs(w, least + i - 14);
      CategoryIs(w, least + i - 13);
    }
  }

  // ----- DC differences -----

  /**
    * The bins of a DC difference v in context s. Whether it is not zero, its sign, and whether it is greater
    * than one stand in the bins from s on; the categories of |v| - 1 start at bin 20.
    */
  function DcContents(s: nat, v: int, index: nat): seq<bool> {
    var w := Abs(v) - 1;
    if index < 20 then
      if index == s then [v != 0]
      else if v == 0 then []
      else if index == s + 1 then [v < 0]
      else if index == s + (if v > 0 then 2 else 3) then [w > 0]
      else []
    else if v == 0 || w == 0 then []
    else CategoryContents(w, 0, index - 20)
  }

  lemma {:induction false} DcBins(tbl: nat, s: nat, v: int, bin: Bin)
    requires s <= 16
    ensures BitsIn(DcDifference(tbl, s, v), bin) == if bin.Dc? && bin.tbl == tbl then DcContents(s, v, bin.index) else []
  {
    DcDifferenceIs(tbl, s, v);
    if v != 0 {
      var w := Abs(v) - 1;
      var head := [Decision(Dc(tbl, s), true), Decision(Dc(tbl, s + 1), v < 0)];
      var st := Dc(tbl, s + (if v > 0 then 2 else 3));
      BitsOfBoth(head, DcMagnitude(st, Dc(tbl, 20), w), bin);
      DcMagnitudeBins(tbl, st, w, bin);
    }
  }

  lemma {:induction false} DcMagnitudeBins(tbl: nat, st: Bin, w: nat, bin: Bin)
    requires st.Dc? && st.tbl == tbl && st.index < 20
    ensures BitsIn(DcMagnitude(st, Dc(tbl, 20), w), bin) ==
      if !bin.Dc? || bin.tbl != tbl then []
      else if bin.index < 20 then if bin == st then [w > 0] else []
      else if w == 0 then []
      else CategoryContents(w, 0, bin.index - 20)
  {
    if w > 0 {
      var k := Category(w);
      BitsOfBoth([Decision(st, true)], CategoryCode(Dc(tbl, 20), w, k, k), bin);
      CategoryBins(Dc(tbl, 20), w, 0, bin, k, k);
    }
  }

  /** The context for the next difference after v: 0 up to the lower bound, 4 and 8 for small differences,
      12 and 16 for those above the upper bound. */
  function ContextFor(c: Conditioning, v: int): nat {
    if Abs(v) <= (if c.dcL == 0 then 0 else Pow2(c.dcL - 1)) then 0
    else if Abs(v) <= Pow2(c.dcU) then if v > 0 then 4 else 8
    else if v > 0 then 12 else 16
  }

  lemma {:induction false} ContextBounds(c: Conditioning, v: int)
    ensures DcContext(c, v) == ContextFor(c, v)
  {
    if v != 0 {
      BelowBound(v, c.dcL);
      AboveBound(v, c.dcU);
    }
  }

  lemma {:induction false} BelowBound(v: int, l: nat)
    requires v != 0
    ensures CategoryBit(v) < Pow2(l) / 2 <==> l > 0 && Abs(v) <= Pow2(l - 1)
  {
    if Abs(v) > 1 && l > 0 {
      CategoryIs(Abs(v) - 1, l - 1);
      PowersOrdered(Category(Abs(v) - 1), l - 1);
    }
  }

  lemma {:induction false} AboveBound(v: int, u: nat)
    requires v != 0
    ensures CategoryBit(v) > Pow2(u) / 2 <==> Abs(v) > Pow2(u)
  {
    if Abs(v) > 1 {
      CategoryIs(Abs(v) - 1, u);
      if u > 0 { PowersOrdered(u - 1, Category(Abs(v) - 1)); }
    }
  }

  lemma PowersOrdered(a: nat, b: nat)
    ensures Pow2(a) < Pow2(b) <==> a < b
  {
    if a < b { PowerGrows(a + 1, b); } else { PowerGrows(b, a); }
  }

  // ----- bands of AC coefficients -----

  /** Signs of the nonzero coefficients after index k. */
  function Signs(vals: seq<int>, k: nat, se: nat): seq<bool>
    requires se < |vals|
    decreases se - k
  {
    if k >= se then [] else (if vals[k + 1] != 0 then [vals[k + 1] < 0] else []) + Signs(vals, k + 1, se)
  }

  /** The categories of the coefficients after index k whose magnitude is at least 3, in bin index. */
  function Categories(c: Conditioning, vals: seq<int>, k: nat, se: nat, index: nat): seq<bool>
    requires se < |vals|
    decreases se - k
  {
    if k >= se then []
    else ValueCategory(c, k + 1, vals[k + 1], index) + Categories(c, vals, k + 1, se, index)
  }

  /** Those of the coefficient v at index k start at bin 189 up to Kx, and at bin 217 from there on. */
  function ValueCategory(c: Conditioning, k: nat, v: int, index: nat): seq<bool> {
    var x := if k <= c.acK then 189 else 217;
    if Abs(v) >= 3 && index >= x then CategoryContents(Abs(v) - 1, 1, index - x) else []
  }

  /**
    * The three bins of coefficient k + 1: whether the block ends before it, which is only asked behind a
    * coefficient that is not zero or at the start of the band; whether it is not zero, unless the block has
    * ended; whether its magnitude is greater than 1, and than 2.
    */
  function Contents(vals: seq<int>, k: nat, asked: bool, part: nat): seq<bool>
    requires k + 1 < |vals|
  {
    if part == 0 then if asked then [ZeroAfter(vals, k)] else []
    else if part == 1 then if ZeroAfter(vals, k) then [] else [vals[k + 1] != 0]
    else if vals[k + 1] == 0 then []
    else if Abs(vals[k + 1]) == 1 then [false]
    else [true, Abs(vals[k + 1]) > 2]
  }

  /** What is in a bin, if coding goes on behind coefficient k; start tells whether the next decision is
      whether the block ends. */
  function BandContents(tbl: nat, c: Conditioning, vals: seq<int>, k: nat, se: nat, start: bool, bin: Bin): seq<bool>
    requires se < |vals|
  {
    match bin
    case Fixed => Signs(vals, k, se)
    case Dc(_, _) => []
    case Ac(t, index) =>
      if t != tbl then []
      else if index >= 189 then Categories(c, vals, k, se, index)
      else if k <= index / 3 < se then Contents(vals, index / 3, if index / 3 == k then start else vals[index / 3] != 0, index % 3)
      else []
  }

  ghost predicate IsAcContents(tbl: nat, c: Conditioning, vals: seq<int>, k: nat, se: nat, start: bool, bin: Bin, r: seq<bool>)
    requires se < |vals|
  {
    forall i {:trigger Key(i)} :: Key(i) ==> r == BandContents(tbl, c, vals, k, se, start, bin)
  }

  /** These decisions; what they are is only known to proofs that ask for it. */
  ghost function AcContents(tbl: nat, c: Conditioning, vals: seq<int>, k: nat, se: nat, start: bool, bin: Bin): (r: seq<bool>)
    requires se < |vals|
    ensures IsAcContents(tbl, c, vals, k, se, start, bin, r)
  {
    assert IsAcContents(tbl, c, vals, k, se, start, bin, BandContents(tbl, c, vals, k, se, start, bin));
    var r :| IsAcContents(tbl, c, vals, k, se, start, bin, r);
    r
  }

  lemma {:induction false} ZeroSigns(vals: seq<int>, k: nat, se: nat)
    requires se < |vals| && ZeroAfter(vals, k)
    ensures Signs(vals, k, se) == []
    decreases se - k
  {
    if k < se { ZeroSigns(vals, k + 1, se); }
  }

  lemma {:induction false} ZeroCategories(c: Conditioning, vals: seq<int>, k: nat, se: nat, index: nat)
    requires se < |vals| && ZeroAfter(vals, k)
    ensures Categories(c, vals, k, se, index) == []
    decreases se - k
  {
    if k < se { ZeroCategories(c, vals, k + 1, se, index); }
  }

  lemma {:induction false} AtStart(tbl: nat, c: Conditioning, vals: seq<int>, k: nat, se: nat, bin: Bin)
    requires k < se < 64 && se < |vals|
    ensures AcContents(tbl, c, vals, k, se, true, bin) ==
      (if bin == Ac(tbl, 3 * k) then [ZeroAfter(vals, k)] else []) + AcContents(tbl, c, vals, k, se, false, bin)
  {
    assert Key(0);
  }

  lemma {:induction false} AtEnd(tbl: nat, c: Conditioning, vals: seq<int>, k: nat, se: nat, bin: Bin)
    requires k < se < 64 && se < |vals| && ZeroAfter(vals, k)
    ensures AcContents(tbl, c, vals, k, se, false, bin) == []
  {
    assert Key(0);
    ZeroSigns(vals, k, se);
    if bin.Ac? { ZeroCategories(c, vals, k, se, bin.index); }
  }

  lemma {:induction false} NothingLeft(tbl: nat, c: Conditioning, vals: seq<int>, se: nat, bin: Bin)
    requires se < |vals|
    ensures AcContents(tbl, c, vals, se, se, true, bin) == []
  {
    assert Key(0);
  }

  lemma {:induction false} BehindZero(tbl: nat, c: Conditioning, vals: seq<int>, k: nat, se: nat, bin: Bin)
    requires k < se < 64 && se < |vals| && !ZeroAfter(vals, k) && vals[k + 1] == 0
    ensures AcContents(tbl, c, vals, k, se, false, bin) ==
      (if bin == Ac(tbl, 3 * k + 1) then [false] else []) + AcContents(tbl, c, vals, k + 1, se, false, bin)
  {
    assert Key(0);
  }

  /** What is in the bins for the coefficient v at index k, once it is known not to be zero. */
  function ValueContents(tbl: nat, c: Conditioning, k: nat, v: int, bin: Bin): seq<bool> {
    if !bin.Ac? || bin.tbl != tbl then []
    else if bin.index == 3 * k - 1 then if Abs(v) == 1 then [false] else [true, Abs(v) > 2]
    else if bin.index >= 189 then ValueCategory(c, k, v, bin.index)
    else []
  }

  function NonzeroFlags(tbl: nat, k: nat, v: int, bin: Bin): seq<bool>
    requires k > 0
  {
    if bin == Ac(tbl, 3 * k - 2) then [true] else if bin == Fixed then [v < 0] else []
  }

  lemma {:induction false} BehindValue(tbl: nat, c: Conditioning, vals: seq<int>, k: nat, se: nat, bin: Bin)
    requires k < se < 64 && se < |vals| && vals[k + 1] != 0
    ensures AcContents(tbl, c, vals, k, se, false, bin) ==
      NonzeroFlags(tbl, k + 1, vals[k + 1], bin)
      + (ValueContents(tbl, c, k + 1, vals[k + 1], bin) + AcContents(tbl, c, vals, k + 1, se, true, bin))
  {
    if bin.Ac? && bin.tbl == tbl && bin.index < 189 {
      BehindValueHere(tbl, c, vals, k, se, bin.index, bin.index / 3, bin.index % 3);
    } else if bin.Ac? && bin.tbl == tbl {
      BehindValueBeyond(tbl, c, vals, k, se, bin.index);
    } else {
      BehindValueElsewhere(tbl, c, vals, k, se, bin);
    }
  }

  lemma {:induction false} BehindValueBeyond(tbl: nat, c: Conditioning, vals: seq<int>, k: nat, se: nat, index: nat)
    requires k < se < 64 && se < |vals| && vals[k + 1] != 0 && index >= 189
    ensures AcContents(tbl, c, vals, k, se, false, Ac(tbl, index)) ==
      NonzeroFlags(tbl, k + 1, vals[k + 1], Ac(tbl, index))
      + (ValueContents(tbl, c, k + 1, vals[k + 1], Ac(tbl, index)) + AcContents(tbl, c, vals, k + 1, se, true, Ac(tbl, index)))
  {
    assert Key(0);
    assert Categories(c, vals, k, se, index) == ValueCategory(c, k + 1, vals[k + 1], index) + Categories(c, vals, k + 1, se, index);
  }

  lemma {:induction false} BehindValueElsewhere(tbl: nat, c: Conditioning, vals: seq<int>, k: nat, se: nat, bin: Bin)
    requires k < se < 64 && se < |vals| && vals[k + 1] != 0 && !(bin.Ac? && bin.tbl == tbl)
    ensures AcContents(tbl, c, vals, k, se, false, bin) ==
      NonzeroFlags(tbl, k + 1, vals[k + 1], bin)
      + (ValueContents(tbl, c, k + 1, vals[k + 1], bin) + AcContents(tbl, c, vals, k + 1, se, true, bin))
  {
    assert Key(0);
  }

  lemma {:induction false} BehindValueHere(tbl: nat, c: Conditioning, vals: seq<int>, k: nat, se: nat, index: nat, j: nat, part: nat)
    requires k < se < 64 && se < |vals| && vals[k + 1] != 0 && index < 189 && index == 3 * j + part && part < 3
    ensures AcContents(tbl, c, vals, k, se, false, Ac(tbl, index)) ==
      NonzeroFlags(tbl, k + 1, vals[k + 1], Ac(tbl, index))
      + (ValueContents(tbl, c, k + 1, vals[k + 1], Ac(tbl, index)) + AcContents(tbl, c, vals, k + 1, se, true, Ac(tbl, index)))
  {
    assert Key(0);
    assert index / 3 == j && index % 3 == part;
  }

  /** What every bin is used for in coding a band. */
  lemma {:induction false} BandBins(tbl: nat, c: Conditioning, vals: seq<int>, k: nat, se: nat, bin: Bin)
    requires k <= se < 64 && Decodable(vals, se)
    ensures BitsIn(AcCoefficients(tbl, c, vals, k, se), bin) == AcContents(tbl, c, vals, k, se, true, bin)
    decreases se - k, 1
  {
    if k == se {
      NothingLeft(tbl, c, vals, se, bin);
    } else {
      AtStart(tbl, c, vals, k, se, bin);
      if ZeroAfter(vals, k) {
        AtEnd(tbl, c, vals, k, se, bin);
        BitsOfOne(Decision(Ac(tbl, 3 * k), true), bin);
      } else {
        RunBins(tbl, c, vals, k, se, bin);
        BitsOfOne(Decision(Ac(tbl, 3 * k), false), bin);
        BitsOfBoth([Decision(Ac(tbl, 3 * k), false)], AcRun(tbl, c, vals, k, se), bin);
      }
    }
  }

  lemma {:induction false} RunBins(tbl: nat, c: Conditioning, vals: seq<int>, k: nat, se: nat, bin: Bin)
    requires k < se < 64 && Decodable(vals, se) && !ZeroAfter(vals, k)
    ensures BitsIn(AcRun(tbl, c, vals, k, se), bin) == AcContents(tbl, c, vals, k, se, false, bin)
    decreases se - k, 0
  {
    if vals[k + 1] == 0 {
      ZeroLater(vals, k, se);
      RunBins(tbl, c, vals, k + 1, se, bin);
      OverZero(tbl, c, vals, k, se, bin);
    } else {
      BandBins(tbl, c, vals, k + 1, se, bin);
      OverValue(tbl, c, vals, k, se, bin);
    }
  }

  lemma ZeroLater(vals: seq<int>, k: nat, se: nat)
    requires k < se < 64 && Decodable(vals, se) && !ZeroAfter(vals, k) && vals[k + 1] == 0
    ensures k + 1 < se && !ZeroAfter(vals, k + 1)
  {
  }

  lemma {:induction false} OverZero(tbl: nat, c: Conditioning, vals: seq<int>, k: nat, se: nat, bin: Bin)
    requires k + 1 < se < 64 && Decodable(vals, se) && !ZeroAfter(vals, k) && vals[k + 1] == 0 && !ZeroAfter(vals, k + 1)
    requires BitsIn(AcRun(tbl, c, vals, k + 1, se), bin) == AcContents(tbl, c, vals, k + 1, se, false, bin)
    ensures BitsIn(AcRun(tbl, c, vals, k, se), bin) == AcContents(tbl, c, vals, k, se, false, bin)
  {
    BehindZero(tbl, c, vals, k, se, bin);
    RunOnZero(tbl, c, vals, k, se, bin);
  }

  lemma {:induction false} OverValue(tbl: nat, c: Conditioning, vals: seq<int>, k: nat, se: nat, bin: Bin)
    requires k < se < 64 && Decodable(vals, se) && !ZeroAfter(vals, k) && vals[k + 1] != 0
    requires BitsIn(AcCoefficients(tbl, c, vals, k + 1, se), bin) == AcContents(tbl, c, vals, k + 1, se, true, bin)
    ensures BitsIn(AcRun(tbl, c, vals, k, se), bin) == AcContents(tbl, c, vals, k, se, false, bin)
  {
    BehindValue(tbl, c, vals, k, se, bin);
    ValueBins(tbl, c, vals, k, se, bin);
  }

  lemma {:induction false} RunOnZero(tbl: nat, c: Conditioning, vals: seq<int>, k: nat, se: nat, bin: Bin)
    requires k < se < 64 && Decodable(vals, se) && !ZeroAfter(vals, k) && vals[k + 1] == 0
    ensures k + 1 < se && !ZeroAfter(vals, k + 1)
    ensures BitsIn(AcRun(tbl, c, vals, k, se), bin) ==
      (if bin == Ac(tbl, 3 * k + 1) then [false] else []) + BitsIn(AcRun(tbl, c, vals, k + 1, se), bin)
  {
    BitsOfOne(Decision(Ac(tbl, 3 * k + 1), false), bin);
    BitsOfBoth([Decision(Ac(tbl, 3 * k + 1), false)], AcRun(tbl, c, vals, k + 1, se), bin);
  }

  lemma {:induction false} ValueBins(tbl: nat, c: Conditioning, vals: seq<int>, k: nat, se: nat, bin: Bin)
    requires k < se < 64 && Decodable(vals, se) && vals[k + 1] != 0
    ensures BitsIn(AcRun(tbl, c, vals, k, se), bin) ==
      NonzeroFlags(tbl, k + 1, vals[k + 1], bin)
      + (ValueContents(tbl, c, k + 1, vals[k + 1], bin) + BitsIn(AcCoefficients(tbl, c, vals, k + 1, se), bin))
  {
    var v, st := vals[k + 1], Ac(tbl, 3 * k + 2);
    RunStarts(tbl, c, vals, k, se, st);
    BitsOfThree([Decision(Ac(tbl, 3 * k + 1), true), Decision(Fixed, v < 0)],
                AcMagnitude(st, AcX2(tbl, c, k + 1), Abs(v) - 1), AcCoefficients(tbl, c, vals, k + 1, se), bin);
    HeadBins(tbl, k + 1, v, bin, Ac(tbl, 3 * k + 1));
    MagnitudeBins(tbl, c, k + 1, v, bin, st);
  }

  lemma {:induction false} BitsOfThree(x: seq<Decision>, y: seq<Decision>, z: seq<Decision>, bin: Bin)
    ensures BitsIn(x + (y + z), bin) == BitsIn(x, bin) + (BitsIn(y, bin) + BitsIn(z, bin))
  {
    BitsOfBoth(x, y + z, bin);
    BitsOfBoth(y, z, bin);
  }

  lemma {:induction false} HeadBins(tbl: nat, k: nat, v: int, bin: Bin, st: Bin)
    requires k > 0 && st == Ac(tbl, 3 * k - 2)
    ensures BitsIn([Decision(st, true), Decision(Fixed, v < 0)], bin) == NonzeroFlags(tbl, k, v, bin)
  {
    BitsOfTwo(Decision(st, true), Decision(Fixed, v < 0), bin);
  }

  lemma {:induction false} RunStarts(tbl: nat, c: Conditioning, vals: seq<int>, k: nat, se: nat, st: Bin)
    requires k < se < |vals| && 0 < Abs(vals[k + 1]) <= 0x8000 && st == Ac(tbl, 3 * k + 2)
    ensures !ZeroAfter(vals, k)
    ensures AcRun(tbl, c, vals, k, se) ==
      [Decision(Ac(tbl, 3 * k + 1), true), Decision(Fixed, vals[k + 1] < 0)]
      + (AcMagnitude(st, AcX2(tbl, c, k + 1), Abs(vals[k + 1]) - 1) + AcCoefficients(tbl, c, vals, k + 1, se))
  {
  }

  lemma BitsOfTwo(d: Decision, e: Decision, bin: Bin)
    ensures BitsIn([d, e], bin) == (if d.bin == bin then [d.bit] else []) + (if e.bin == bin then [e.bit] else [])
  {
    BitsOfOne(e, bin);
    assert [d, e][1..] == [e];
  }

  /** The bins of one magnitude. */
  lemma {:induction false} MagnitudeBins(tbl: nat, c: Conditioning, k: nat, v: int, bin: Bin, st: Bin)
    requires 1 <= k < 64 && 0 < Abs(v) <= 0x8000 && st == Ac(tbl, 3 * k - 1)
    ensures BitsIn(AcMagnitude(st, AcX2(tbl, c, k), Abs(v) - 1), bin) == ValueContents(tbl, c, k, v, bin)
  {
    var w, x2 := Abs(v) - 1, AcX2(tbl, c, k);
    if w == 0 {
      BitsOfOne(Decision(st, false), bin);
    } else if w == 1 {
      BitsOfTwo(Decision(st, true), Decision(st, false), bin);
      assert AcMagnitude(st, x2, w) == [Decision(st, true), Decision(st, false)];
    } else {
      LargeMagnitudeBins(tbl, c, k, v, bin, st);
    }
  }

  lemma {:induction false} LargeMagnitudeBins(tbl: nat, c: Conditioning, k: nat, v: int, bin: Bin, st: Bin)
    requires 1 <= k < 64 && 2 < Abs(v) <= 0x8000 && st == Ac(tbl, 3 * k - 1)
    ensures BitsIn(AcMagnitude(st, AcX2(tbl, c, k), Abs(v) - 1), bin) == ValueContents(tbl, c, k, v, bin)
  {
    var w, x2, n := Abs(v) - 1, AcX2(tbl, c, k), Category(Abs(v) - 1);
    CategoryIs(w, 1);
    BitsOfTwo(Decision(st, true), Decision(st, true), bin);
    LargeStarts(st, x2, w, n);
    BitsOfBoth([Decision(st, true), Decision(st, true)], CategoryCode(x2, w, n, n - 1), bin);
    CategoryBins(x2, w, 1, bin, n, n - 1);
    LargeBins(c, k, v, tbl, x2, bin);
  }

  lemma {:induction false} LargeStarts(st: Bin, x2: Bin, w: nat, n: nat)
    requires w >= 2 && n == Category(w) >= 1
    ensures AcMagnitude(st, x2, w) == [Decision(st, true), Decision(st, true)] + CategoryCode(x2, w, n, n - 1)
  {
  }

  lemma LargeBins(c: Conditioning, k: nat, v: int, tbl: nat, x2: Bin, bin: Bin)
    requires Abs(v) >= 3 && x2 == AcX2(tbl, c, k)
    ensures (if Place(x2, bin) >= 0 then CategoryContents(Abs(v) - 1, 1, Place(x2, bin)) else [])
         == if bin.Ac? && bin.tbl == tbl && bin.index >= 189 then ValueCategory(c, k, v, bin.index) else []
  {
  }

  /** Some decisions use every bin as the coefficients ss to se of a band do. */
  ghost predicate UsesBandBins(ds: seq<Decision>, tbl: nat, c: Conditioning, vals: seq<int>, ss: nat, se: nat)
    requires 0 < ss && se < |vals|
  {
    forall bin :: BitsIn(ds, bin) == BandContents(tbl, c, vals, ss - 1, se, true, bin)
  }

  lemma {:induction false} BandUsesBins(ds: seq<Decision>, tbl: nat, c: Conditioning, vals: seq<int>, ss: nat, se: nat)
    requires 1 <= ss <= se + 1 <= 64 && Decodable(vals, se) && ds == AcCoefficients(tbl, c, vals, ss - 1, se)
    ensures UsesBandBins(ds, tbl, c, vals, ss, se)
  {
    forall bin ensures BitsIn(ds, bin) == BandContents(tbl, c, vals, ss - 1, se, true, bin) {
      BandBins(tbl, c, vals, ss - 1, se, bin);
      assert Key(0);
    }
  }

  /** Small coefficients leave the bins for large ones alone: without a coefficient of magnitude 3 or more
      behind Kx nothing is in bin 217 or above, and without one up to Kx nothing in bins 189 to 216. */
  lemma {:induction false} LargeOnly(c: Conditioning, vals: seq<int>, k: nat, se: nat, index: nat)
    requires Decodable(vals, se) && index >= 189
    requires forall j :: k < j <= se && (index >= 217 <==> j > c.acK) ==> Abs(vals[j]) <= 2
    ensures Categories(c, vals, k, se, index) == []
    decreases se - k
  {
    if k < se {
      LargeOnly(c, vals, k + 1, se, index);
      if Abs(vals[k + 1]) > 2 && index >= 217 { LowCategoriesEnd(vals[k + 1], index); }
    }
  }

  lemma LowCategoriesEnd(v: int, index: nat)
    requires 2 < Abs(v) <= 0x8000 && index >= 217
    ensures CategoryContents(Abs(v) - 1, 1, index - 189) == []
  {
    PowerValues();
    PowerGrows(15, 1 + (index - 189) - 14);
    PowerGrows(15, 1 + (index - 189));
  }

  // ----- refinement of a band -----

  /** Signs of the coefficients after index k that become nonzero. */
  function NewSigns(vals: seq<int>, k: nat, se: nat): seq<bool>
    requires se < |vals|
    decreases se - k
  {
    if k >= se then [] else (if Abs(vals[k + 1]) == 1 then [vals[k + 1] < 0] else []) + NewSigns(vals, k + 1, se)
  }

  /**
    * The three bins of coefficient k + 1: whether the block ends before it, which is only asked where none of
    * the coefficients from there on was nonzero in the scans before; whether it becomes nonzero; and the
    * next bit of one that was nonzero before.
    */
  function NewContents(vals: seq<int>, k: nat, asked: bool, part: nat): seq<bool>
    requires k + 1 < |vals|
  {
    if part == 0 then if asked && NewAfter(vals, k) then [ZeroAfter(vals, k)] else []
    else if part == 1 then if ZeroAfter(vals, k) || Abs(vals[k + 1]) > 1 then [] else [vals[k + 1] != 0]
    else if Abs(vals[k + 1]) > 1 then [Abs(vals[k + 1]) % 2 == 1]
    else []
  }

  function RefinementContents(tbl: nat, vals: seq<int>, k: nat, se: nat, start: bool, bin: Bin): seq<bool>
    requires se < |vals|
  {
    match bin
    case Fixed => NewSigns(vals, k, se)
    case Dc(_, _) => []
    case Ac(t, index) =>
      if t == tbl && k <= index / 3 < se then
        NewContents(vals, index / 3, if index / 3 == k then start else vals[index / 3] != 0, index % 3)
      else []
  }

  lemma {:induction false} NoNewSigns(vals: seq<int>, k: nat, se: nat)
    requires se < |vals| && ZeroAfter(vals, k)
    ensures NewSigns(vals, k, se) == []
    decreases se - k
  {
    if k < se { NoNewSigns(vals, k + 1, se); }
  }

  lemma {:induction false} AtRefinementStart(tbl: nat, vals: seq<int>, k: nat, se: nat, bin: Bin)
    requires k < se < |vals|
    ensures RefinementContents(tbl, vals, k, se, true, bin) ==
      (if bin == Ac(tbl, 3 * k) && NewAfter(vals, k) then [ZeroAfter(vals, k)] else []) + RefinementContents(tbl, vals, k, se, false, bin)
    ensures ZeroAfter(vals, k) ==> RefinementContents(tbl, vals, k, se, false, bin) == []
  {
    if ZeroAfter(vals, k) { NoNewSigns(vals, k, se); }
  }

  /** The decisions of one coefficient of a refinement. */
  function NewValue(tbl: nat, k: nat, v: int): seq<Decision> {
    if v == 0 then [Decision(Ac(tbl, 3 * k + 1), false)]
    else if Abs(v) == 1 then [Decision(Ac(tbl, 3 * k + 1), true), Decision(Fixed, v < 0)]
    else [Decision(Ac(tbl, 3 * k + 2), Abs(v) % 2 == 1)]
  }

  lemma {:induction false} NewValueBins(tbl: nat, k: nat, v: int, bin: Bin)
    ensures BitsIn(NewValue(tbl, k, v), bin) ==
      if bin == Ac(tbl, 3 * k + 1) && Abs(v) <= 1 then [v != 0]
      else if bin == Ac(tbl, 3 * k + 2) && Abs(v) > 1 then [Abs(v) % 2 == 1]
      else if bin == Fixed && Abs(v) == 1 then [v < 0]
      else []
  {
    var ds := NewValue(tbl, k, v);
    if |ds| == 2 { BitsOfTwo(ds[0], ds[1], bin); } else { BitsOfOne(ds[0], bin); }
  }

  lemma {:induction false} BehindNewValue(tbl: nat, vals: seq<int>, k: nat, se: nat, bin: Bin)
    requires k < se < |vals| && !ZeroAfter(vals, k)
    ensures RefinementContents(tbl, vals, k, se, false, bin) ==
      BitsIn(NewValue(tbl, k, vals[k + 1]), bin) + RefinementContents(tbl, vals, k + 1, se, vals[k + 1] != 0, bin)
  {
    NewValueBins(tbl, k, vals[k + 1], bin);
  }

  /** What every bin is used for in refining a band. */
  lemma {:induction false} RefinedBins(tbl: nat, vals: seq<int>, k: nat, se: nat, bin: Bin)
    requires k <= se && |vals| == se + 1
    ensures BitsIn(AcRefinement(tbl, vals, k, se), bin) == RefinementContents(tbl, vals, k, se, true, bin)
    decreases se - k, 1
  {
    if k < se {
      AtRefinementStart(tbl, vals, k, se, bin);
      BitsOfOne(Decision(Ac(tbl, 3 * k), ZeroAfter(vals, k)), bin);
      if !ZeroAfter(vals, k) {
        RefinedRunBins(tbl, vals, k, se, bin);
        BitsOfBoth([Decision(Ac(tbl, 3 * k), false)], RefinementRun(tbl, vals, k, se), bin);
      }
    }
  }

  lemma {:induction false} RefinedRunBins(tbl: nat, vals: seq<int>, k: nat, se: nat, bin: Bin)
    requires k < se && |vals| == se + 1 && !ZeroAfter(vals, k)
    ensures BitsIn(RefinementRun(tbl, vals, k, se), bin) == RefinementContents(tbl, vals, k, se, false, bin)
    decreases se - k, 0
  {
    if vals[k + 1] == 0 {
      assert !ZeroAfter(vals, k + 1);
      RefinedRunBins(tbl, vals, k + 1, se, bin);
      OverNewValue(tbl, vals, k, se, bin, RefinementRun(tbl, vals, k + 1, se));
    } else {
      RefinedBins(tbl, vals, k + 1, se, bin);
      OverNewValue(tbl, vals, k, se, bin, AcRefinement(tbl, vals, k + 1, se));
    }
  }

  lemma {:induction false} OverNewValue(tbl: nat, vals: seq<int>, k: nat, se: nat, bin: Bin, rest: seq<Decision>)
    requires k < se && |vals| == se + 1 && !ZeroAfter(vals, k)
    requires vals[k + 1] == 0 ==> !ZeroAfter(vals, k + 1) && rest == RefinementRun(tbl, vals, k + 1, se)
    requires vals[k + 1] != 0 ==> rest == AcRefinement(tbl, vals, k + 1, se)
    requires BitsIn(rest, bin) == RefinementContents(tbl, vals, k + 1, se, vals[k + 1] != 0, bin)
    ensures BitsIn(RefinementRun(tbl, vals, k, se), bin) == RefinementContents(tbl, vals, k, se, false, bin)
  {
    RefinedRunStarts(tbl, vals, k, se, rest);
    BitsOfBoth(NewValue(tbl, k, vals[k + 1]), rest, bin);
    BehindNewValue(tbl, vals, k, se, bin);
  }

  lemma {:induction false} RefinedRunStarts(tbl: nat, vals: seq<int>, k: nat, se: nat, rest: seq<Decision>)
    requires k < se && |vals| == se + 1 && !ZeroAfter(vals, k)
    requires vals[k + 1] == 0 ==> !ZeroAfter(vals, k + 1) && rest == RefinementRun(tbl, vals, k + 1, se)
    requires vals[k + 1] != 0 ==> rest == AcRefinement(tbl, vals, k + 1, se)
    ensures RefinementRun(tbl, vals, k, se) == NewValue(tbl, k, vals[k + 1]) + rest
  {
  }

  /** Some decisions use every bin as refining the coefficients ss to se of a band does. */
  ghost predicate UsesRefinementBins(ds: seq<Decision>, tbl: nat, vals: seq<int>, ss: nat, se: nat)
    requires 0 < ss && se < |vals|
  {
    forall bin :: BitsIn(ds, bin) == RefinementContents(tbl, vals, ss - 1, se, true, bin)
  }

  lemma {:induction false} RefinementUsesBins(ds: seq<Decision>, tbl: nat, vals: seq<int>, ss: nat, se: nat)
    requires 1 <= ss <= se + 1 == |vals| && ds == AcRefinement(tbl, vals, ss - 1, se)
    ensures UsesRefinementBins(ds, tbl, vals, ss, se)
  {
    forall bin ensures BitsIn(ds, bin) == RefinementContents(tbl, vals, ss - 1, se, true, bin) {
      RefinedBins(tbl, vals, ss - 1, se, bin);
    }
  }

  /** Some decisions use every bin as a DC difference does. */
  ghost predicate UsesDcBins(ds: seq<Decision>, tbl: nat, s: nat, v: int) {
    forall bin :: BitsIn(ds, bin) == if bin.Dc? && bin.tbl == tbl then DcContents(s, v, bin.index) else []
  }

  lemma {:induction false} DifferenceUsesBins(ds: seq<Decision>, tbl: nat, s: nat, v: int)
    requires s <= 16 && ds == DcDifference(tbl, s, v)
    ensures UsesDcBins(ds, tbl, s, v)
  {
    forall bin ensures BitsIn(ds, bin) == if bin.Dc? && bin.tbl == tbl then DcContents(s, v, bin.index) else [] {
      DcBins(tbl, s, v, bin);
    }
  }

  // ----- the order of the decisions -----

  /** The decisions of a magnitude of category k: n times yes and then no in the bins from x on, then the
      lower bits from the highest on, in the bin 14 places behind. */
  lemma {:induction false} CategoryInOrder(x: Bin, w: nat, k: nat, n: nat)
    ensures var ds, bits := CategoryCode(x, w, k, n), LowBits(w, k);
      && |ds| == n + 1 + k && (forall i :: 0 <= i <= n ==> ds[i] == Decision(x.Plus(i), i < n))
      && ds[n + 1..] == seq(k, i requires 0 <= i < k => Decision(x.Plus(n + 14), bits[i]))
  {
    forall i | 0 <= i < k ensures Bit(w, k - 1 - i) == LowBits(w, k)[i] { BitIs(w, k - 1 - i); }
  }

  /** A DC difference: not zero, sign, magnitude above one, then the category of |v| - 1. */
  lemma {:induction false} DcInOrder(tbl: nat, s: nat, v: int, n: nat)
    requires Abs(v) > 1 && Pow2(n) <= Abs(v) - 1 < Pow2(n + 1)
    ensures DcDifference(tbl, s, v) ==
      [Decision(Dc(tbl, s), true), Decision(Dc(tbl, s + 1), v < 0), Decision(Dc(tbl, if v > 0 then s + 2 else s + 3), true)]
      + CategoryCode(Dc(tbl, 20), Abs(v) - 1, n, n)
  {
    var st := Dc(tbl, if v > 0 then s + 2 else s + 3);
    DcStarts(tbl, s, v, st);
    CategoryIs(Abs(v) - 1, n);
    CategoryIs(Abs(v) - 1, n + 1);
    DcMagnitudeStarts(st, Dc(tbl, 20), Abs(v) - 1, n);
    ThreeThen(Decision(Dc(tbl, s), true), Decision(Dc(tbl, s + 1), v < 0), Decision(st, true), CategoryCode(Dc(tbl, 20), Abs(v) - 1, n, n));
  }

  lemma {:induction false} DcStarts(tbl: nat, s: nat, v: int, st: Bin)
    requires v != 0 && st == Dc(tbl, if v > 0 then s + 2 else s + 3)
    ensures DcDifference(tbl, s, v) ==
      [Decision(Dc(tbl, s), true), Decision(Dc(tbl, s + 1), v < 0)] + DcMagnitude(st, Dc(tbl, 20), Abs(v) - 1)
  {
    DcDifferenceIs(tbl, s, v);
  }

  lemma ThreeThen(a: Decision, b: Decision, c: Decision, x: seq<Decision>)
    ensures [a, b] + ([c] + x) == [a, b, c] + x
  {
  }

  lemma {:induction false} DcMagnitudeStarts(st: Bin, x1: Bin, w: nat, n: nat)
    requires w > 0 && n == Category(w)
    ensures DcMagnitude(st, x1, w) == [Decision(st, true)] + CategoryCode(x1, w, n, n)
  {
  }

  /** An AC coefficient of magnitude 3 or more at index k: not zero, sign, above one, above two, then the
      category of |v| - 1, from bin 189 up to Kx and from bin 217 beyond. */
  lemma {:induction false} AcInOrder(tbl: nat, c: Conditioning, k: nat, v: int, n: nat)
    requires k > 0 && Abs(v) > 2 && Pow2(n) <= Abs(v) - 1 < Pow2(n + 1)
    ensures n > 0 && AcValue(tbl, c, k, v) ==
      [Decision(Ac(tbl, 3 * k - 2), true), Decision(Fixed, v < 0), Decision(Ac(tbl, 3 * k - 1), true), Decision(Ac(tbl, 3 * k - 1), true)]
      + CategoryCode(Ac(tbl, if k <= c.acK then 189 else 217), Abs(v) - 1, n, n - 1)
  {
    CategoryIs(Abs(v) - 1, n);
    CategoryIs(Abs(v) - 1, n + 1);
    CategoryIs(Abs(v) - 1, 1);
    LargeStarts(Ac(tbl, 3 * k - 1), AcX2(tbl, c, k), Abs(v) - 1, n);
  }
}
