/** Which scans a decoder can read: those whose DC differences do not exceed 2^15. */
module ScanReadability {
  import opened Powers
  import opened CoefficientModel
  import opened RefinementReading
  import opened ScanModel
  import opened ScanReading
  import opened ScanAgreement
  import opened ScanBytes

  /** The values that the scans before have left of the band which a refinement scan codes. */
  function Previous(s: Scan, mcu: seq<seq<int>>): (prev: seq<int>) {
    if mcu == [] || !IsOrder(s.order, |mcu[0]|) || s.se >= |s.order| then []
    else
      var vals := BandValues(mcu[0], s.order, s.ss, s.se, s.al);
      seq(s.se + 1, k requires 0 <= k <= s.se => Half(vals[k]))
  }

  /** An encoder codes items of the kinds that a decoder expects. */
  lemma BlockItemsCoded(s: Scan, i: nat, mcu: seq<seq<int>>)
    requires ScanValid(s) && IsMcu(s, mcu) && i < |mcu|
    ensures var xs, ks := BlockItems(s, i, mcu[i]), BlockKinds(s, i, Previous(s, mcu));
      |xs| == |ks| && forall j :: 0 <= j < |xs| ==> ItemCoded(s, ks[j], xs[j])
  {
    ScanFacts(s);
    if !s.progressive {
      BandInRange(mcu[i], s.order, 1, s.se, 0);
    } else {
      BandInRange(mcu[i], s.order, s.ss, s.se, s.al);
    }
  }

  lemma {:induction false} McuItemsCoded(s: Scan, mcu: seq<seq<int>>, n: nat)
    requires ScanValid(s) && IsMcu(s, mcu) && n <= |mcu|
    ensures ItemsCoded(s, McuKinds(s, n, Previous(s, mcu)), McuItems(s, mcu[..n]))
  {
    if n > 0 {
      McuItemsCoded(s, mcu, n - 1);
      BlockItemsCoded(s, n - 1, mcu);
      assert mcu[..n][..n - 1] == mcu[..n - 1];
      ItemsCodedMore(s, McuKinds(s, n - 1, Previous(s, mcu)), McuItems(s, mcu[..n - 1]),
                     BlockKinds(s, n - 1, Previous(s, mcu)), BlockItems(s, n - 1, mcu[n - 1]));
    }
  }

  lemma ItemsCodedMore(s: Scan, k1: seq<Kind>, x1: seq<Item>, k2: seq<Kind>, x2: seq<Item>)
    requires ItemsCoded(s, k1, x1)
    requires |x2| == |k2| && forall j :: 0 <= j < |x2| ==> ItemCoded(s, k2[j], x2[j])
    ensures ItemsCoded(s, k1 + k2, x1 + x2)
  {
    assert Key(0);
  }

  // ----- only DC differences matter -----

  /** Every DC difference of the scan is small enough to be read. */
  ghost predicate McusReadable(s: Scan, e: EncoderState, mcus: seq<seq<seq<int>>>)
    requires EncoderRuns(e)
    decreases |mcus|
  {
    mcus == [] ||
    (AllReadable(s, EncoderRestart(s, e).pred, McuItems(s, mcus[0])) && McusReadable(s, AfterMcu(s, e, mcus[0]), mcus[1..]))
  }

  /** Every DC difference among some items is at most 2^15. */
  predicate DcReadable(s: Scan, p: Pred, xs: seq<Item>) {
    forall i :: 0 <= i < |xs| && xs[i].DcItem? ==> Abs(xs[i].value - Predicted(After(s, p, xs[..i]), xs[i].ci)) <= 0x8000
  }

  lemma AllReadableIsDc(s: Scan, p: Pred, mcu: seq<seq<int>>)
    requires ScanValid(s) && IsMcu(s, mcu)
    ensures AllReadable(s, p, McuItems(s, mcu)) <==> DcReadable(s, p, McuItems(s, mcu))
  {
    var xs, kinds := McuItems(s, mcu), McuKinds(s, |mcu|, Previous(s, mcu));
    assert mcu[..|mcu|] == mcu;
    McuItemsCoded(s, mcu, |mcu|);
    assert |xs| == |kinds| by { assert Key(0); }
    forall i | 0 <= i < |xs| && !xs[i].DcItem? ensures Readable(s, After(s, p, xs[..i]), xs[i]) {
      CodedAt(s, kinds, xs, i);
      assert ItemCoded(s, kinds[i], xs[i]) by { assert Key(0); }
    }
  }

  /** The predictions and the restart counter with which an MCU starts. */
  function RestartPred(s: Scan, p: Pred, toGo: nat): Pred {
    if s.restartInterval != 0 && toGo == 0 then ClearedPred(s, p) else p
  }

  function RestartToGo(s: Scan, toGo: nat): nat {
    if s.restartInterval == 0 then toGo else if toGo == 0 then s.restartInterval - 1 else toGo - 1
  }

  /** The same for the MCUs of a scan. The statistics and the bytes written have no part in it. */
  predicate DcsReadable(s: Scan, p: Pred, toGo: nat, mcus: seq<seq<seq<int>>>)
    decreases |mcus|
  {
    mcus == [] ||
    var p1, xs := RestartPred(s, p, toGo), McuItems(s, mcus[0]);
    DcReadable(s, p1, xs) && DcsReadable(s, After(s, p1, xs), RestartToGo(s, toGo), mcus[1..])
  }

  lemma McuPred(s: Scan, e: EncoderState, mcu: seq<seq<int>>)
    requires EncoderRuns(e)
    ensures EncoderRestart(s, e).pred == RestartPred(s, e.pred, e.toGo)
    ensures AfterMcu(s, e, mcu).pred == After(s, RestartPred(s, e.pred, e.toGo), McuItems(s, mcu))
    ensures AfterMcu(s, e, mcu).toGo == RestartToGo(s, e.toGo)
  {
  }

  lemma {:induction false} ReadableIsDc(s: Scan, e: EncoderState, mcus: seq<seq<seq<int>>>)
    requires ScanValid(s) && EncoderRuns(e) && forall m :: 0 <= m < |mcus| ==> IsMcu(s, mcus[m])
    ensures McusReadable(s, e, mcus) <==> DcsReadable(s, e.pred, e.toGo, mcus)
    decreases |mcus|
  {
    if mcus != [] {
      McuPred(s, e, mcus[0]);
      AllReadableIsDc(s, RestartPred(s, e.pred, e.toGo), mcus[0]);
      ReadableIsDc(s, AfterMcu(s, e, mcus[0]), mcus[1..]);
    }
  }

  /** The predictions at the start of a scan. */
  function NoPred(s: Scan): Pred {
    Pred(seq(|s.comps|, _ => 0), seq(|s.comps|, _ => 0))
  }

  /** Every DC difference of the scan, from its start on, is at most 2^15. */
  predicate ScanReadable(s: Scan, mcus: seq<seq<seq<int>>>) {
    DcsReadable(s, NoPred(s), s.restartInterval, mcus)
  }

  // ----- DC values of 15 bits -----

  /** DC values of up to 14 bits and a sign. */
  predicate SmallDc(v: int) {
    -0x4000 <= v < 0x4000
  }

  predicate SmallPred(p: Pred) {
    forall c :: 0 <= c < |p.dc| ==> SmallDc(p.dc[c])
  }

  predicate SmallItems(xs: seq<Item>) {
    forall i :: 0 <= i < |xs| && xs[i].DcItem? ==> SmallDc(xs[i].value)
  }

  lemma {:induction false} SmallAfter(s: Scan, p: Pred, xs: seq<Item>)
    requires SmallPred(p) && SmallItems(xs)
    ensures SmallPred(After(s, p, xs))
  {
    if xs != [] {
      var init := xs[..|xs| - 1];
      assert SmallItems(init);
      SmallAfter(s, p, init);
    }
  }

  lemma SmallReadable(s: Scan, p: Pred, xs: seq<Item>)
    requires SmallPred(p) && SmallItems(xs)
    ensures DcReadable(s, p, xs)
  {
    forall i | 0 <= i < |xs| && xs[i].DcItem?
      ensures Abs(xs[i].value - Predicted(After(s, p, xs[..i]), xs[i].ci)) <= 0x8000
    {
      SmallAfter(s, p, xs[..i]);
    }
  }

  lemma {:induction false} SmallMcu(s: Scan, mcu: seq<seq<int>>, n: nat)
    requires ScanValid(s) && IsMcu(s, mcu) && n <= |mcu| && forall i :: 0 <= i < |mcu| ==> SmallDc(ShiftRight(mcu[i][0], s.al))
    ensures SmallItems(McuItems(s, mcu[..n]))
  {
    if n > 0 {
      assert mcu[..n][..n - 1] == mcu[..n - 1];
      SmallMcu(s, mcu, n - 1);
      SmallBlock(s, n - 1, mcu[n - 1]);
      assert McuItems(s, mcu[..n]) == McuItems(s, mcu[..n - 1]) + BlockItems(s, n - 1, mcu[n - 1]);
    }
  }

  lemma SmallBlock(s: Scan, i: nat, block: seq<int>)
    requires ScanValid(s) && IsBlock(block) && SmallDc(ShiftRight(block[0], s.al))
    ensures SmallItems(BlockItems(s, i, block))
  {
    ScanFacts(s);
    if !s.progressive {
      var one := Pow2(s.al);
      assert one == 1 && ShiftRight(block[0], s.al) == block[0];
    }
  }

  lemma {:induction false} SmallMcus(s: Scan, p: Pred, toGo: nat, mcus: seq<seq<seq<int>>>)
    requires ScanValid(s) && SmallPred(p)
    requires forall m :: 0 <= m < |mcus| ==> IsMcu(s, mcus[m]) && forall i :: 0 <= i < |mcus[m]| ==> SmallDc(ShiftRight(mcus[m][i][0], s.al))
    ensures DcsReadable(s, p, toGo, mcus)
    decreases |mcus|
  {
    if mcus != [] {
      var p1, xs := RestartPred(s, p, toGo), McuItems(s, mcus[0]);
      assert SmallPred(p1);
      assert mcus[0][..|mcus[0]|] == mcus[0];
      SmallMcu(s, mcus[0], |mcus[0]|);
      SmallReadable(s, p1, xs);
      SmallAfter(s, p1, xs);
      SmallMcus(s, After(s, p1, xs), RestartToGo(s, toGo), mcus[1..]);
    }
  }

  /** A scan whose DC values have up to 14 bits and a sign, after the point transform, can be read. */
  lemma SmallScanReadable(s: Scan, mcus: seq<seq<seq<int>>>)
    requires ScanValid(s)
    requires forall m :: 0 <= m < |mcus| ==> IsMcu(s, mcus[m]) && forall i :: 0 <= i < |mcus[m]| ==> SmallDc(ShiftRight(mcus[m][i][0], s.al))
    ensures ScanReadable(s, mcus)
  {
    SmallMcus(s, NoPred(s), s.restartInterval, mcus);
  }

  /** Any 16-bit value is small once its last bit is dropped. */
  lemma HalfIsSmall(v: int, al: nat)
    requires -0x8000 <= v < 0x8000 && al >= 1
    ensures SmallDc(ShiftRight(v, al))
  {
    var p, q := Pow2(al), ShiftRight(v, al);
    assert p == 2 * Pow2(al - 1);
    assert v == q * p + v % p && (q + 1) * p == q * p + p;
    ScaleOrder(q, 0x4000, p);
    ScaleOrder(-0x4000, q + 1, p);
  }

  /** Scans of coefficients that are not DC values for the first time can always be read. */
  lemma {:induction false} NoDcReadable(s: Scan, p: Pred, toGo: nat, mcus: seq<seq<seq<int>>>)
    requires ScanValid(s) && s.progressive && !CodesDc(s)
    ensures DcsReadable(s, p, toGo, mcus)
    decreases |mcus|
  {
    if mcus != [] {
      var p1, xs := RestartPred(s, p, toGo), McuItems(s, mcus[0]);
      NoDcItems(s, mcus[0], |mcus[0]|);
      assert mcus[0][..|mcus[0]|] == mcus[0];
      NoDcReadable(s, After(s, p1, xs), RestartToGo(s, toGo), mcus[1..]);
    }
  }

  lemma {:induction false} NoDcItems(s: Scan, mcu: seq<seq<int>>, n: nat)
    requires s.progressive && !CodesDc(s) && n <= |mcu|
    ensures forall i :: 0 <= i < |McuItems(s, mcu[..n])| ==> !McuItems(s, mcu[..n])[i].DcItem?
  {
    if n > 0 {
      assert mcu[..n][..n - 1] == mcu[..n - 1];
      NoDcItems(s, mcu, n - 1);
    }
  }

  // ----- a scan that cannot be read -----

  /** The extreme DC values next to each other differ by 2^16 - 1: such a scan is encoded, but a decoder
      gives up on it. */
  lemma ExtremesNotReadable(s: Scan, x: seq<int>, y: seq<int>)
    requires ScanValid(s) && s.progressive && CodesDc(s) && s.al == 0 && s.restartInterval == 0
    requires |s.comps| == 1 && s.membership == [0]
    requires IsBlock(x) && x[0] == -0x8000 && IsBlock(y) && y[0] == 0x7FFF
    ensures !ScanReadable(s, [[x], [y]])
  {
    var mcus, p := [[x], [y]], NoPred(s);
    OneDcItem(s, x);
    OneDcItem(s, y);
    CodeOne(s, p, DcItem(0, x[0]));
    var p1, ys := After(s, p, [DcItem(0, x[0])]), [DcItem(0, y[0])];
    assert Predicted(p1, 0) == -0x8000;
    assert ys[..0] == [];
    assert !DcReadable(s, p1, ys) by { assert ys[0].DcItem?; }
    if ScanReadable(s, mcus) {
      SecondReadable(s, p, s.restartInterval, mcus);
    }
  }

  lemma SecondReadable(s: Scan, p: Pred, toGo: nat, mcus: seq<seq<seq<int>>>)
    requires s.restartInterval == 0 && |mcus| == 2 && DcsReadable(s, p, toGo, mcus)
    ensures DcReadable(s, After(s, p, McuItems(s, mcus[0])), McuItems(s, mcus[1]))
  {
    var p1 := After(s, p, McuItems(s, mcus[0]));
    assert DcsReadable(s, p1, toGo, mcus[1..]) && mcus[1..][0] == mcus[1];
  }

  lemma OneDcItem(s: Scan, x: seq<int>)
    requires ScanValid(s) && s.progressive && CodesDc(s) && s.al == 0 && s.membership == [0] && IsBlock(x)
    ensures McuItems(s, [x]) == [DcItem(0, x[0])]
  {
    ScanFacts(s);
    var one := Pow2(s.al);
    assert one == 1 && ShiftRight(x[0], s.al) == x[0];
    assert [x][..0] == [];
  }
}
