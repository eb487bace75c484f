/** What the values of a scan are coded as: restart intervals, predictions, symbols and their bits. */
module ScanMeaning {
  import opened Powers
  import opened BitStrings
  import opened BlockCode
  import opened BlockReading
  import opened HuffmanScan

  // ----- restart intervals -----

  function Concat(runs: seq<seq<Mcu>>): seq<Mcu> {
    if runs == [] then [] else Concat(runs[..|runs| - 1]) + runs[|runs| - 1]
  }

  /** The intervals of a scan are its MCUs in their order, cut after every interval MCUs. */
  lemma {:induction false} CutJoins(s: Setup, mcus: seq<Mcu>)
    ensures var g := Cut(s, mcus);
      && Concat(g.done) + g.cur == mcus
      && (forall i :: 0 <= i < |g.done| ==> |g.done[i]| == s.interval)
      && (if s.interval == 0 then g.done == [] else |g.cur| <= s.interval)
      && (mcus != [] ==> g.cur != [])
  {
    if mcus != [] {
      var init, mcu := mcus[..|mcus| - 1], mcus[|mcus| - 1];
      var g := Cut(s, init);
      CutJoins(s, init);
      assert mcus == init + [mcu];
      if RestartDue(s, g) {
        assert (g.done + [g.cur])[..|g.done|] == g.done;
        assert Cut(s, mcus) == Progress(g.done + [g.cur], [mcu]);
        assert Cut(s, mcus).cur == [mcu];
      } else {
        assert Cut(s, mcus) == Progress(g.done, g.cur + [mcu]);
      }
    }
  }

  /** Between the intervals are the restart markers 0xD0 to 0xD7 over and over, and 0xD9 is at the end. */
  lemma {:induction false} MarkersInTurn(n: nat, j: nat)
    requires j < n
    ensures Endings(n)[j] == if j == n - 1 then 0xD9 else 0xD0 + j % 8
  {
  }

  // ----- predictions -----

  /** In an MCU the prediction is the DC value of the last block of the component before it. */
  lemma {:induction false} LastInMcu(s: Setup, preds: seq<int>, mcu: Mcu, b: nat, ci: nat) returns (a: int)
    requires b <= |mcu| == |s.membership| && ci < |preds| && forall i :: 0 <= i < |mcu| ==> mcu[i] != []
    ensures -1 <= a < b && (forall i :: a < i < b ==> s.membership[i] != ci) && (a >= 0 ==> s.membership[a] == ci)
    ensures McuPreds(s, preds, mcu, b)[ci] == if a >= 0 then mcu[a][0] else preds[ci]
  {
    a := b - 1;
    if b > 0 && s.membership[a] != ci {
      a := LastInMcu(s, preds, mcu, b - 1, ci);
    }
  }

  /** At the start of an interval all predictions are zero; at the start of any other MCU they are those that the
      MCU before it left. */
  lemma {:induction false} LastInRun(s: Setup, mcus: seq<Mcu>, n: nat, ci: nat) returns (a: int)
    requires n <= |mcus| && ci < |s.comps|
    requires forall m :: 0 <= m < |mcus| ==> |mcus[m]| == |s.membership| && forall i :: 0 <= i < |mcus[m]| ==> mcus[m][i] != []
    ensures -1 <= a < |s.membership| && (forall i :: a < i < |s.membership| ==> s.membership[i] != ci)
    ensures a >= 0 ==> s.membership[a] == ci
    ensures RunPreds(s, mcus, n)[ci] == if n > 0 && a >= 0 then mcus[n - 1][a][0] else 0
  {
    if n == 0 {
      a := LastOf(s, |s.membership|, ci);
    } else {
      a := LastInMcu(s, RunPreds(s, mcus, n - 1), mcus[n - 1], |s.membership|, ci);
      if a < 0 {
        a := LastInRun(s, mcus, n - 1, ci);
      }
    }
  }

  lemma {:induction false} LastOf(s: Setup, b: nat, ci: nat) returns (a: int)
    requires b <= |s.membership|
    ensures -1 <= a < b && (forall i :: a < i < b ==> s.membership[i] != ci) && (a >= 0 ==> s.membership[a] == ci)
  {
    a := b - 1;
    if b > 0 && s.membership[a] != ci {
      a := LastOf(s, b - 1, ci);
    }
  }

  // ----- symbols -----

  /** The size of a value is the number of bits of its magnitude, and its bits are the value, or the value less
      one in two's complement if it is negative. */
  lemma {:induction false} SizeAndBits(v: int)
    ensures var n := SizeCategory(v);
      && (v == 0 <==> n == 0) && (v != 0 ==> Pow2(n - 1) <= Magnitude(v) < Pow2(n))
      && ValueBits(v, n) == ToBits(if v >= 0 then v else v + Pow2(n) - 1, n)
  {
    var n := SizeCategory(v);
    NbitsRange(Magnitude(v));
    if v >= 0 {
      SmallMod(v, Pow2(n));
    } else {
      MultipleOf(v - 1, Pow2(n), -1, v - 1 + Pow2(n));
    }
  }

  /** A block can be coded if its DC difference has at most 11 bits and its other coefficients at most 10. */
  lemma {:induction false} RangeIs(vals: seq<int>, pred: int)
    requires vals != []
    ensures Fits(vals, pred) <==> Magnitude(vals[0] - pred) <= 2047 && forall k :: 1 <= k < |vals| ==> Magnitude(vals[k]) <= 1023
  {
    SizeBound(vals[0] - pred, 11);
    forall k | 1 <= k < |vals| ensures SizeCategory(vals[k]) <= 10 <==> Magnitude(vals[k]) <= 1023 {
      SizeBound(vals[k], 10);
    }
  }

  lemma {:induction false} SizeBound(v: int, n: nat)
    requires n == 10 || n == 11
    ensures SizeCategory(v) <= n <==> Magnitude(v) < if n == 10 then 1024 else 2048
  {
    NbitsBound(Magnitude(v), n);
    PowerValues();
  }

  lemma {:induction false} NbitsBound(x: nat, n: nat)
    ensures Nbits(x) <= n <==> x < Pow2(n)
    decreases n
  {
    if x > 0 && n > 0 { NbitsBound(x / 2, n - 1); }
  }

  /** What symbols stand for: as many zeros as the upper four bits say, then the value; 0 ends the block. */
  function Expanded(list: seq<Sym>): seq<int> {
    if list == [] || list[0].rs == 0 then [] else Zeros(list[0].rs / 16) + [list[0].value] + Expanded(list[1..])
  }

  lemma {:induction false} SixteenZeros(n: nat, list: seq<Sym>)
    ensures Expanded(Zrls(n) + list) == Zeros(16 * n) + Expanded(list)
  {
    if n == 0 {
      assert Zrls(n) + list == list;
    } else {
      assert Zrls(n) + list == Zrls(n - 1) + ([Sym(ZRL, 0)] + list);
      SixteenZeros(n - 1, [Sym(ZRL, 0)] + list);
      assert ([Sym(ZRL, 0)] + list)[1..] == list;
      assert Zeros(16 * (n - 1)) + (Zeros(15) + [0] + Expanded(list)) == Zeros(16 * n) + Expanded(list);
    }
  }

  /** A symbol of a coefficient: the number of zeros before it, less than 16, and its size. */
  predicate RightSymbol(x: Sym) {
    if x.value == 0 then x.rs == 0xF0 || x.rs == 0
    else x.rs % 16 == SizeCategory(x.value) && 1 <= x.rs % 16 <= 10 && x.rs < 256
  }

  predicate RightSymbols(list: seq<Sym>) {
    && (forall i :: 0 <= i < |list| ==> RightSymbol(list[i]))
    && (forall i :: 0 <= i < |list| - 1 ==> list[i].rs != 0)
    && (list != [] ==> list[|list| - 1].rs != 0xF0)
  }

  predicate Ended(list: seq<Sym>) {
    list != [] && list[|list| - 1].rs == 0
  }

  /** Symbols stand for coefficients: whatever is missing at the end is zero, and then the end of the block is
      marked. */
  predicate StandFor(list: seq<Sym>, vals: seq<int>) {
    Expanded(list) <= vals && AllZero(vals[|Expanded(list)|..]) && (Ended(list) <==> |Expanded(list)| < |vals|)
  }

  /** The symbols from coefficient k on, after r zeros, stand for these coefficients. */
  lemma {:induction false} SymbolsMean(vals: seq<int>, k: nat, r: nat)
    requires k <= |vals| && FitsFrom(vals, k)
    ensures StandFor(AcSymbols(vals, k, r), Zeros(r) + vals[k..])
    decreases |vals| - k
  {
    if k == |vals| {
      NoneLeft(vals, r);
    } else if vals[k] == 0 {
      SymbolsMean(vals, k + 1, r + 1);
      assert Zeros(r) + vals[k..] == Zeros(r + 1) + vals[k + 1..];
    } else {
      SymbolsMean(vals, k + 1, 0);
      assert Zeros(0) + vals[k + 1..] == vals[k + 1..];
      ValueMeant(vals, k, r, AcSymbols(vals, k + 1, 0));
    }
  }

  lemma {:induction false} NoneLeft(vals: seq<int>, r: nat)
    ensures StandFor(AcSymbols(vals, |vals|, r), Zeros(r) + vals[|vals|..])
  {
    assert Zeros(r) + vals[|vals|..] == Zeros(r);
  }

  lemma {:induction false} ValueMeant(vals: seq<int>, k: nat, r: nat, rest: seq<Sym>)
    requires k < |vals| && vals[k] != 0 && SizeCategory(vals[k]) <= 10 && StandFor(rest, vals[k + 1..])
    ensures StandFor(Zrls(r / 16) + [Sym(16 * (r % 16) + SizeCategory(vals[k]), vals[k])] + rest, Zeros(r) + vals[k..])
  {
    var x := RunAndSize(r, vals[k]);
    ValueMeans(r, x, rest);
    Wholes(vals, k, r, Expanded(rest));
  }

  lemma {:induction false} RunAndSize(r: nat, v: int) returns (x: Sym)
    requires v != 0 && SizeCategory(v) <= 10
    ensures x == Sym(16 * (r % 16) + SizeCategory(v), v)
    ensures RightSymbol(x) && x.rs / 16 == r % 16 && x.rs != 0 && x.rs != 0xF0
  {
    var n := SizeCategory(v);
    SizeAndBits(v);
    x := Sym(16 * (r % 16) + n, v);
    assert x.rs / 16 == r % 16 && x.rs % 16 == n;
  }

  predicate AllZero(vals: seq<int>) {
    forall i :: 0 <= i < |vals| ==> vals[i] == 0
  }

  lemma Wholes(vals: seq<int>, k: nat, r: nat, e: seq<int>)
    requires k < |vals| && e <= vals[k + 1..]
    ensures var whole := Zeros(r) + vals[k..];
      && Zeros(r) + [vals[k]] + e <= whole && (|Zeros(r) + [vals[k]] + e| < |whole| <==> |e| < |vals[k + 1..]|)
      && whole[|Zeros(r) + [vals[k]] + e|..] == vals[k + 1..][|e|..]
  {
  }

  lemma {:induction false} ValueMeans(r: nat, x: Sym, rest: seq<Sym>)
    requires x.rs / 16 == r % 16 && x.rs != 0
    ensures var list := Zrls(r / 16) + [x] + rest;
      Expanded(list) == Zeros(r) + [x.value] + Expanded(rest) && (Ended(list) <==> Ended(rest))
  {
    assert Zrls(r / 16) + [x] + rest == Zrls(r / 16) + ([x] + rest);
    SixteenZeros(r / 16, [x] + rest);
    assert ([x] + rest)[1..] == rest;
    ZerosTogether(16 * (r / 16), r % 16, [x.value] + Expanded(rest), r);
    assert Zeros(r % 16) + [x.value] + Expanded(rest) == Zeros(r % 16) + ([x.value] + Expanded(rest));
  }

  lemma ZerosTogether(m: nat, n: nat, tail: seq<int>, r: nat)
    requires r == m + n
    ensures Zeros(m) + (Zeros(n) + tail) == Zeros(r) + tail
  {
  }

  /** Each symbol has the size of its value and at most 15 zeros before it; the end of the block comes last, and
      no long run right in front of it. */
  lemma {:induction false} SymbolsRight(vals: seq<int>, k: nat, r: nat)
    requires k <= |vals| && FitsFrom(vals, k)
    ensures RightSymbols(AcSymbols(vals, k, r))
    decreases |vals| - k
  {
    if k < |vals| {
      if vals[k] == 0 {
        SymbolsRight(vals, k + 1, r + 1);
      } else {
        SymbolsRight(vals, k + 1, 0);
        var x := RunAndSize(r, vals[k]);
        RightTogether(r / 16, x, AcSymbols(vals, k + 1, 0));
      }
    }
  }

  lemma {:induction false} RightTogether(n: nat, x: Sym, rest: seq<Sym>)
    requires RightSymbol(x) && x.rs != 0 && x.rs != 0xF0 && RightSymbols(rest)
    ensures RightSymbols(Zrls(n) + [x] + rest)
  {
    var list := Zrls(n) + [x] + rest;
    forall i | 0 <= i < |list| ensures RightSymbol(list[i]) && (i < |list| - 1 ==> list[i].rs != 0) {
      if i > n { assert list[i] == rest[i - n - 1]; }
    }
  }
}
