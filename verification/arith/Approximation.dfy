/** What each kind of scan makes of a coefficient: successive approximations, from high bits to low. */
module Approximation {
  import opened Powers
  import opened CoefficientModel
  import opened RefinementReading
  import opened ScanModel
  import opened ScanReading
  import opened ScanReadability

  /** The bits of a DC coefficient from position al on, in two's complement. */
  function DcAt(v: int, al: nat): int {
    ShiftRight(v, al) * Pow2(al)
  }

  /** The bits of the magnitude of an AC coefficient from position al on. */
  function AcAt(v: int, al: nat): int {
    Point(v, al) * Pow2(al)
  }

  lemma NothingDropped(v: int)
    ensures DcAt(v, 0) == v && AcAt(v, 0) == v
  {
    var one := Pow2(0);
    assert one == 1;
  }

  lemma FloorBelow(x: int, p: nat)
    requires p > 0
    ensures x - p < x / p * p <= x
    ensures x >= 0 ==> x / p * p >= 0
  {
    var q, r := x / p, x % p;
    assert x == q * p + r;
    if x >= 0 && q >= 1 { MulAtLeast(q, p); }
  }

  /** What a DC coefficient is known as once its bits from al on have been sent: the next multiple of 2^al
      below. */
  lemma {:induction false} DcRounded(v: int, al: nat)
    ensures 0 <= v - DcAt(v, al) < Pow2(al) && DcAt(v, al) % Pow2(al) == 0
  {
    FloorBelow(v, Pow2(al));
    MultipleMod(ShiftRight(v, al), Pow2(al));
  }

  /** An AC coefficient is known as the next multiple of 2^al towards zero. */
  lemma {:induction false} AcRounded(v: int, al: nat)
    ensures if v >= 0 then 0 <= v - AcAt(v, al) < Pow2(al) else 0 <= AcAt(v, al) - v < Pow2(al)
    ensures AcAt(v, al) % Pow2(al) == 0
  {
    var p := Pow2(al);
    MultipleMod(Point(v, al), p);
    if v >= 0 {
      FloorBelow(v, p);
    } else {
      FloorBelow(-v, p);
      NegatedProduct((-v) / p, p);
    }
  }

  lemma NegatedProduct(q: int, p: int)
    ensures (-q) * p == -(q * p)
  {
  }

  lemma AcAtInRange(v: int, al: nat)
    requires -0x8000 <= v < 0x8000
    ensures -0x8000 <= AcAt(v, al) < 0x8000
    ensures Sign(AcAt(v, al)) == Sign(Point(v, al))
    ensures AcAt(v, al) == 0 <==> Point(v, al) == 0
  {
    var p, q := Pow2(al), Abs(v) / Pow2(al);
    FloorBelow(Abs(v), p);
    if v < 0 { assert -q * p == -(q * p); }
    if q >= 1 { MulAtLeast(q, p); }
  }

  lemma DcAtInRange(v: int, al: nat)
    requires -0x8000 <= v < 0x8000 && al <= 15
    ensures -0x8000 <= DcAt(v, al) < 0x8000
  {
    var p := Pow2(al);
    FloorBelow(v, p);
    PowerOfSum(15, 15 - al, al);
    PowerValues();
    FloorAtLeast(v, p, Pow2(15 - al));
  }

  lemma FloorAtLeast(v: int, p: nat, q: int)
    requires p > 0 && -(q * p) <= v
    ensures v / p * p >= -(q * p)
  {
    var d := v / p;
    FloorBelow(v, p);
    ScaleOrder(d, -q, p);
    assert (-q) * p == -(q * p);
    assert (d + 1) * p == d * p + p;
    if d < -q {
      ScaleOrder(d + 1, -q, p);
    }
  }

  // ----- one more bit -----

  lemma HalfOfPoint(v: int, al: nat)
    ensures Half(Point(v, al)) == Point(v, al + 1)
  {
    QuotientTwice(Abs(v), Pow2(al));
    QuotientSmaller(Abs(v), Pow2(al));
    HalfOfSigned(Abs(v) / Pow2(al));
  }

  lemma HalfOfSigned(q: int)
    requires q >= 0
    ensures Half(q) == q / 2 && Half(-q) == -(q / 2)
  {
  }

  lemma QuotientTwice(x: nat, p: nat)
    requires p > 0
    ensures x / p / 2 == x / (2 * p)
  {
    var q, r := x / p, x % p;
    assert x == q * p + r;
    assert q * p == q / 2 * (2 * p) + (q % 2) * p by { Reorder(q / 2, 2, p); assert q == 2 * (q / 2) + q % 2; }
    QuotientIs(x, 2 * p, q / 2, (q % 2) * p + r);
  }

  lemma ShiftOnce(v: int, al: nat)
    ensures ShiftRight(v, al + 1) == ShiftRight(v, al) / 2
  {
    var p := Pow2(al);
    var q, r := v / p, v % p;
    assert v == q * p + r;
    var d, m := q / 2, q % 2;
    assert q * p == d * (2 * p) + m * p by { Reorder(d, 2, p); assert q == 2 * d + m; }
    FloorIs(v, 2 * p, d, m * p + r);
  }

  /** One more bit of a DC coefficient. */
  lemma DcNextBit(v: int, al: nat)
    ensures SetBit(DcAt(v, al + 1), ShiftRight(v, al) % 2 == 1, al) == DcAt(v, al)
  {
    var q := ShiftRight(v, al);
    ShiftOnce(v, al);
    Reorder(q / 2, 2, Pow2(al));
    SetLowestBit(q / 2, q % 2 == 1, al);
    assert 2 * (q / 2) + (if q % 2 == 1 then 1 else 0) == q;
  }

  lemma SetLowestBit(d: int, bit: bool, al: nat)
    ensures SetBit((2 * d) * Pow2(al), bit, al) == (2 * d + (if bit then 1 else 0)) * Pow2(al)
  {
    var p := Pow2(al);
    FloorIs((2 * d) * p, p, 2 * d, 0);
    assert (2 * d + 1) * p == (2 * d) * p + p;
  }

  /** One more bit of an AC coefficient, or its sign with the first one. */
  lemma AcNextBit(v: int, al: nat)
    requires -0x8000 <= v < 0x8000
    ensures RefinedCoefficient(AcAt(v, al + 1), Point(v, al), al) == AcAt(v, al)
  {
    var p, u := Pow2(al), Point(v, al);
    HalfOfPoint(v, al);
    AcAtInRange(v, al + 1);
    AcAtInRange(v, al);
    Reorder(Half(u), 2, p);
    RefinedMultiple(u, p, al);
  }

  lemma RefinedMultiple(u: int, p: nat, al: nat)
    requires p == Pow2(al) && -0x8000 <= u * p < 0x8000
    requires Sign(2 * Half(u) * p) == Sign(Half(u))
    ensures RefinedCoefficient(2 * Half(u) * p, u, al) == u * p
  {
    if Abs(u) > 1 {
      SignOfHalf(u);
      assert u * p == 2 * Half(u) * p + (u - 2 * Half(u)) * p;
    }
  }

  lemma SignOfHalf(u: int)
    requires Abs(u) > 1
    ensures Sign(Half(u)) == Sign(u) && u - 2 * Half(u) == (if Abs(u) % 2 == 1 then Sign(u) else 0)
  {
  }

  // ----- blocks -----

  /** The coefficient at zigzag index k after its bits from position level on were sent; nothing was if
      level is negative. */
  function At(k: nat, v: int, level: int): int {
    if level < 0 then 0 else if k == 0 then DcAt(v, level) else AcAt(v, level)
  }

  /** w holds what was sent of the block v. */
  ghost predicate Approximates(order: seq<nat>, v: seq<int>, levels: seq<int>, w: seq<int>) {
    && IsBlock(v) && |w| == BLOCK_SIZE && IsOrder(order, BLOCK_SIZE) && |levels| == |order|
    && (forall k {:trigger order[k]} :: 0 <= k < |order| ==> w[order[k]] == At(k, v[order[k]], levels[k]))
    && (forall p :: 0 <= p < |w| && (forall k :: 0 <= k < |order| ==> order[k] != p) ==> w[p] == 0)
  }

  /** The scan sends coefficients for the first time, or the bit that comes next. */
  predicate Continued(s: Scan, levels: seq<int>) {
    && s.se < |levels| && s.al <= 13
    && forall k: nat :: s.ss <= k <= s.se ==> if s.ah == 0 then levels[k] < 0 else levels[k] == s.ah == s.al + 1
  }

  /** The levels after the coefficients ss to se were sent down to position al. */
  function RaiseBand(levels: seq<int>, ss: nat, se: nat, al: nat): (r: seq<int>)
    ensures |r| == |levels|
    ensures forall k :: 0 <= k < |levels| ==> r[k] == if ss <= k <= se then al else levels[k]
  {
    seq(|levels|, k requires 0 <= k < |levels| => if ss <= k <= se then al else levels[k])
  }

  lemma BandSent(order: seq<nat>, v: seq<int>, levels: seq<int>, before: seq<int>, after: seq<int>, ss: nat, se: nat, al: nat)
    requires Approximates(order, v, levels, before) && 1 <= ss <= se < |order|
    requires forall k :: ss <= k <= se ==> levels[k] < 0
    requires Stored(before, after, order, ss, BandValues(v, order, ss, se, al), al)
    ensures Approximates(order, v, RaiseBand(levels, ss, se, al), after)
  {
    var vals := BandValues(v, order, ss, se, al);
    forall k {:trigger order[k]} | 0 <= k < |order|
      ensures after[order[k]] == At(k, v[order[k]], RaiseBand(levels, ss, se, al)[k])
    {
      if ss <= k <= se {
        AcAtInRange(v[order[k]], al);
        assert vals[k] == Point(v[order[k]], al);
      } else {
        assert forall j :: ss <= j < |vals| ==> order[j] != order[k];
      }
    }
  }

  lemma BandRaised(order: seq<nat>, v: seq<int>, levels: seq<int>, before: seq<int>, after: seq<int>, ss: nat, se: nat, al: nat)
    requires Approximates(order, v, levels, before) && 1 <= ss <= se < |order|
    requires forall k :: ss <= k <= se ==> levels[k] == al + 1
    requires Refined(before, after, order, ss, BandValues(v, order, ss, se, al), al)
    ensures Approximates(order, v, RaiseBand(levels, ss, se, al), after)
  {
    var vals := BandValues(v, order, ss, se, al);
    forall k {:trigger order[k]} | 0 <= k < |order|
      ensures after[order[k]] == At(k, v[order[k]], RaiseBand(levels, ss, se, al)[k])
    {
      if ss <= k <= se {
        AcNextBit(v[order[k]], al);
        assert vals[k] == Point(v[order[k]], al);
      } else {
        assert forall j :: ss <= j < |vals| ==> order[j] != order[k];
      }
    }
  }

  lemma DcSent(order: seq<nat>, v: seq<int>, levels: seq<int>, before: seq<int>, al: nat)
    requires Approximates(order, v, levels, before) && al <= 15
    ensures Approximates(order, v, RaiseBand(levels, 0, 0, al), before[0 := Wrap16(ShiftRight(v[0], al) * Pow2(al))])
  {
    DcAtInRange(v[0], al);
    var after := before[0 := Wrap16(ShiftRight(v[0], al) * Pow2(al))];
    forall k {:trigger order[k]} | 0 <= k < |order|
      ensures after[order[k]] == At(k, v[order[k]], RaiseBand(levels, 0, 0, al)[k])
    {
      assert k > 0 ==> order[0] != order[k];
    }
  }

  lemma DcRaised(order: seq<nat>, v: seq<int>, levels: seq<int>, before: seq<int>, al: nat)
    requires Approximates(order, v, levels, before) && levels[0] == al + 1
    ensures Approximates(order, v, RaiseBand(levels, 0, 0, al),
                         before[0 := SetBit(before[0], ShiftRight(v[0], al) % 2 == 1, al)])
  {
    var after := before[0 := SetBit(before[0], ShiftRight(v[0], al) % 2 == 1, al)];
    assert before[0] == before[order[0]] == DcAt(v[0], al + 1);
    DcNextBit(v[0], al);
    forall k {:trigger order[k]} | 0 <= k < |order|
      ensures after[order[k]] == At(k, v[order[k]], RaiseBand(levels, 0, 0, al)[k])
    {
      assert k > 0 ==> order[0] != order[k];
    }
  }

  /** Decoding what was coded of a block in one scan: its approximation is the next better one. */
  lemma BlockImproves(s: Scan, i: nat, v: seq<int>, levels: seq<int>, before: seq<int>, after: seq<int>)
    requires ScanValid(s) && i < |s.membership|
    requires Approximates(s.order, v, levels, before) && Continued(s, levels)
    requires BlockStored(s, BlockItems(s, i, v), before, after)
    ensures Approximates(s.order, v, RaiseBand(levels, s.ss, s.se, s.al), after)
  {
    ScanFacts(s);
    if !s.progressive {
      SequentialImproves(s, i, v, levels, before, after);
    } else if s.ss == 0 {
      if s.ah == 0 { DcSent(s.order, v, levels, before, s.al); } else { DcRaised(s.order, v, levels, before, s.al); }
    } else {
      var vals := BandValues(v, s.order, s.ss, s.se, s.al);
      if s.ah == 0 {
        assert BlockItems(s, i, v) == [AcItem(AcTable(s, s.membership[i]), vals)];
        BandSent(s.order, v, levels, before, after, s.ss, s.se, s.al);
      } else {
        assert BlockItems(s, i, v) == [RefineItem(AcTable(s, s.membership[i]), vals)];
        BandRaised(s.order, v, levels, before, after, s.ss, s.se, s.al);
      }
    }
  }

  lemma SequentialImproves(s: Scan, i: nat, v: seq<int>, levels: seq<int>, before: seq<int>, after: seq<int>)
    requires ScanValid(s) && i < |s.membership| && !s.progressive
    requires Approximates(s.order, v, levels, before) && Continued(s, levels)
    requires BlockStored(s, BlockItems(s, i, v), before, after)
    ensures Approximates(s.order, v, RaiseBand(levels, s.ss, s.se, s.al), after)
  {
    ScanFacts(s);
    NothingDropped(v[0]);
    var items, ci := BlockItems(s, i, v), s.membership[i];
    var mid := before[0 := Wrap16(v[0] * Pow2(0))];
    var none := Pow2(0);
    assert none == 1 && ShiftRight(v[0], 0) == v[0];
    DcSent(s.order, v, levels, before, 0);
    assert items[0] == DcItem(ci, v[0]);
    if s.limSe != 0 {
      var vals := BandValues(v, s.order, 1, s.se, 0);
      assert items[1] == AcItem(AcTable(s, ci), vals);
      BandSent(s.order, v, RaiseBand(levels, 0, 0, 0), mid, after, 1, s.se, 0);
      assert RaiseBand(RaiseBand(levels, 0, 0, 0), 1, s.se, 0) == RaiseBand(levels, 0, s.se, 0);
    }
  }

  /** A block approximated so far is what a refinement scan expects. */
  lemma ApproximationContinues(s: Scan, mcu: seq<seq<int>>, levels: seq<int>, before: seq<int>)
    requires ScanValid(s) && IsMcu(s, mcu) && |mcu| > 0
    requires s.ss != 0 ==> Approximates(s.order, mcu[0], levels, before)
    requires Continued(s, levels)
    ensures Continues(s, Previous(s, mcu), before)
  {
    ScanFacts(s);
    if s.progressive && s.ss != 0 && s.ah != 0 {
      BandFits(s, AcTable(s, 0));
      var v, prev := mcu[0], Previous(s, mcu);
      var vals := BandValues(v, s.order, s.ss, s.se, s.al);
      forall k {:trigger s.order[k]} | s.ss <= k <= s.se
        ensures Sign(before[s.order[k]]) == Sign(prev[k])
      {
        HalfOfPoint(v[s.order[k]], s.al);
        AcAtInRange(v[s.order[k]], s.al + 1);
        assert vals[k] == Point(v[s.order[k]], s.al);
      }
    }
  }
}
