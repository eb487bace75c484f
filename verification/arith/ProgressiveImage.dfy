/** Sending the coefficients of an image in the scans of a script. */
module ProgressiveImage {
  import opened Powers
  import opened ByteStream
  import opened ProbabilityTable
  import opened CodeInterval
  import opened CoefficientModel
  import opened ScanModel
  import opened ScanReading
  import opened ScanReadability
  import opened ScanRoundTrip
  import opened Approximation
  import opened ScanScript
  import opened SimpleProgression
  import ArithEncoder

  /** A scan of the script with its parameters, and the blocks of its MCUs. A scan of several components
      also has dummy blocks at the edges of the image, which a scan of one component leaves out. */
  datatype Pass = Pass(info: ScanInfo, scan: Scan, layout: seq<seq<nat>>)

  /** The blocks of an MCU belong to the components they should. */
  predicate McuFits(p: Pass, owner: seq<nat>, m: nat)
    requires m < |p.layout|
  {
    && |p.layout[m]| == |p.scan.membership| && |p.scan.membership| > 0
    && forall i :: 0 <= i < |p.layout[m]| ==>
         && p.layout[m][i] < |owner| && p.scan.membership[i] < |p.info.comps|
         && owner[p.layout[m][i]] == p.info.comps[p.scan.membership[i]]
  }

  ghost predicate LayoutFits(p: Pass, owner: seq<nat>) {
    (forall m :: 0 <= m < |p.layout| ==> McuFits(p, owner, m)) && Distinct(p.layout)
  }

  ghost predicate Distinct(layout: seq<seq<nat>>) {
    forall m, i, m2, i2 ::
      (0 <= m < |layout| && 0 <= i < |layout[m]| && 0 <= m2 < |layout| && 0 <= i2 < |layout[m2]| && (m != m2 || i != i2))
      ==> layout[m][i] != layout[m2][i2]
  }

  ghost predicate InLayout(layout: seq<seq<nat>>, b: nat) {
    exists m, i :: 0 <= m < |layout| && 0 <= i < |layout[m]| && layout[m][i] == b
  }

  ghost predicate PassFits(p: Pass, order: seq<nat>, owner: seq<nat>) {
    && ScanValid(p.scan) && p.scan.order == order && |order| == 64
    && p.scan.ss == p.info.ss && p.scan.se == p.info.se && p.scan.ah == p.info.ah && p.scan.al == p.info.al
    && p.scan.progressive == (p.info.ss != 0 || p.info.se != 63)
    && LayoutFits(p, owner)
  }

  function Infos(passes: seq<Pass>): (r: seq<ScanInfo>)
    ensures |r| == |passes| && forall i :: 0 <= i < |passes| ==> r[i] == passes[i].info
  {
    seq(|passes|, i requires 0 <= i < |passes| => passes[i].info)
  }

  /** Every scan of the script sends coefficients of its components for the first time, or the bit that
      comes next. */
  predicate StepsOk(before: seq<ScanInfo>, x: ScanInfo) {
    forall i :: 0 <= i < |x.comps| ==> forall k :: x.ss <= k <= x.se ==> StepOk(LastAl(before, x.comps[i], k), x)
  }

  predicate Stepwise(script: seq<ScanInfo>) {
    forall j :: 0 <= j < |script| ==> StepsOk(script[..j], script[j])
  }

  /** The blocks of the MCUs. */
  function Gather(blocks: seq<seq<int>>, layout: seq<seq<nat>>): (mcus: seq<seq<seq<int>>>)
    ensures |mcus| == |layout| && forall m :: 0 <= m < |layout| ==> |mcus[m]| == |layout[m]|
    ensures forall m, i :: 0 <= m < |layout| && 0 <= i < |layout[m]| && layout[m][i] < |blocks| ==>
      mcus[m][i] == blocks[layout[m][i]]
  {
    seq(|layout|, m requires 0 <= m < |layout| =>
      seq(|layout[m]|, i requires 0 <= i < |layout[m]| => if layout[m][i] < |blocks| then blocks[layout[m][i]] else []))
  }

  // ----- what was sent of a block -----

  /** Down to which bit coefficient k of block b was sent in the first n passes, or -1. */
  ghost function OwnLast(passes: seq<Pass>, n: nat, b: nat, k: int): int
    requires n <= |passes|
  {
    if n == 0 then -1
    else
      var x := passes[n - 1].info;
      if InLayout(passes[n - 1].layout, b) && x.ss <= k <= x.se then x.al else OwnLast(passes, n - 1, b, k)
  }

  ghost function OwnLevels(passes: seq<Pass>, n: nat, b: nat): (levels: seq<int>)
    requires n <= |passes|
    ensures |levels| == 64 && forall k :: 0 <= k < 64 ==> levels[k] == OwnLast(passes, n, b, k)
  {
    seq(64, k requires 0 <= k < 64 => OwnLast(passes, n, b, k))
  }

  /** Pass n continues what the passes before have sent of block b. */
  ghost predicate OwnStep(passes: seq<Pass>, n: nat, b: nat)
    requires n < |passes|
  {
    InLayout(passes[n].layout, b) ==>
      forall k :: passes[n].info.ss <= k <= passes[n].info.se ==> StepOk(OwnLast(passes, n, b, k), passes[n].info)
  }

  ghost predicate OwnSteps(passes: seq<Pass>, n: nat, b: nat)
    requires n <= |passes|
  {
    forall j :: 0 <= j < n ==> OwnStep(passes, j, b)
  }

  /** Block b is in every one of the first n passes that codes its component. */
  ghost predicate Covered(passes: seq<Pass>, owner: seq<nat>, n: nat, b: nat)
    requires n <= |passes| && b < |owner|
  {
    forall j :: 0 <= j < n && owner[b] in passes[j].info.comps ==> InLayout(passes[j].layout, b)
  }

  /** The blocks of a scan of AC coefficients were in every scan of their component before. */
  ghost predicate BandsCovered(passes: seq<Pass>, owner: seq<nat>) {
    forall j, b: nat :: 0 <= j < |passes| && passes[j].info.ss != 0 && b < |owner| && InLayout(passes[j].layout, b)
      ==> Covered(passes, owner, j, b)
  }

  /** The passes of an image. */
  ghost predicate PassesFit(passes: seq<Pass>, order: seq<nat>, owner: seq<nat>) {
    && IsOrder(order, BLOCK_SIZE) && |order| == 64
    && (forall j :: 0 <= j < |passes| ==> PassFits(passes[j], order, owner))
    && Stepwise(Infos(passes)) && BandsCovered(passes, owner)
  }

  lemma InLayoutOwned(p: Pass, owner: seq<nat>, b: nat)
    requires LayoutFits(p, owner) && InLayout(p.layout, b)
    ensures b < |owner| && owner[b] in p.info.comps
  {
    var m, i :| 0 <= m < |p.layout| && 0 <= i < |p.layout[m]| && p.layout[m][i] == b;
    assert McuFits(p, owner, m);
  }

  lemma InPassOwned(passes: seq<Pass>, order: seq<nat>, owner: seq<nat>, n: nat, b: nat)
    requires PassesFit(passes, order, owner) && 0 < n <= |passes| && b < |owner| && Covered(passes, owner, n, b)
    ensures InLayout(passes[n - 1].layout, b) <==> owner[b] in passes[n - 1].info.comps
  {
    assert PassFits(passes[n - 1], order, owner);
    if InLayout(passes[n - 1].layout, b) { InLayoutOwned(passes[n - 1], owner, b); }
  }

  /** What was sent of such a block is what was sent of its component. */
  lemma {:induction false} OwnIsComponent(passes: seq<Pass>, order: seq<nat>, owner: seq<nat>, n: nat, b: nat, k: int)
    requires PassesFit(passes, order, owner) && n <= |passes| && b < |owner| && Covered(passes, owner, n, b)
    ensures OwnLast(passes, n, b, k) == LastAl(Infos(passes)[..n], owner[b], k)
  {
    if n > 0 {
      OwnIsComponent(passes, order, owner, n - 1, b, k);
      var p := passes[n - 1];
      InPassOwned(passes, order, owner, n, b);
      assert Infos(passes)[..n] == Infos(passes)[..n - 1] + [p.info];
      LastAlAppend(Infos(passes)[..n - 1], p.info, owner[b], k);
    }
  }

  /** Every pass continues what was sent of such a block. */
  lemma CoveredSteps(passes: seq<Pass>, order: seq<nat>, owner: seq<nat>, n: nat, b: nat)
    requires PassesFit(passes, order, owner) && n <= |passes| && b < |owner| && Covered(passes, owner, n, b)
    ensures OwnSteps(passes, n, b)
  {
    forall j | 0 <= j < n ensures OwnStep(passes, j, b) {
      CoveredStep(passes, order, owner, j, b);
    }
  }

  lemma CoveredStep(passes: seq<Pass>, order: seq<nat>, owner: seq<nat>, n: nat, b: nat)
    requires PassesFit(passes, order, owner) && n < |passes| && b < |owner| && Covered(passes, owner, n, b)
    ensures OwnStep(passes, n, b)
  {
    var x := passes[n].info;
    if InLayout(passes[n].layout, b) {
      assert PassFits(passes[n], order, owner);
      InLayoutOwned(passes[n], owner, b);
      var i :| 0 <= i < |x.comps| && x.comps[i] == owner[b];
      assert StepsOk(Infos(passes)[..n], Infos(passes)[n]);
      forall k | x.ss <= k <= x.se ensures StepOk(OwnLast(passes, n, b, k), x) {
        OwnIsComponent(passes, order, owner, n, b, k);
        assert StepOk(LastAl(Infos(passes)[..n], x.comps[i], k), x);
      }
    }
  }

  /** A pass that continues a block raises its levels. */
  lemma StepContinues(passes: seq<Pass>, order: seq<nat>, owner: seq<nat>, n: nat, b: nat)
    requires PassesFit(passes, order, owner) && n < |passes| && OwnStep(passes, n, b) && InLayout(passes[n].layout, b)
    ensures Continued(passes[n].scan, OwnLevels(passes, n, b))
    ensures var s := passes[n].scan; OwnLevels(passes, n + 1, b) == RaiseBand(OwnLevels(passes, n, b), s.ss, s.se, s.al)
  {
    var p, levels := passes[n], OwnLevels(passes, n, b);
    assert PassFits(p, order, owner);
    ScanFacts(p.scan);
    assert forall k: nat :: p.scan.ss <= k <= p.scan.se ==> StepOk(OwnLast(passes, n, b, k), p.info);
    LevelsContinued(p.scan, p.info, levels);
  }

  lemma LevelsContinued(s: Scan, x: ScanInfo, levels: seq<int>)
    requires ScanValid(s) && |s.order| == 64 && s.ss == x.ss && s.se == x.se && s.ah == x.ah && s.al == x.al
    requires |levels| == 64 && s.se < 64 && forall k: nat :: s.ss <= k <= s.se ==> StepOk(levels[k], x)
    ensures Continued(s, levels)
  {
    assert s.al <= 13 by { assert Key(0); }
  }

  // ----- one scan -----

  /** What was received of every block is what the first n passes have sent of it, if each of them
      continued what was sent before. */
  ghost predicate Received(order: seq<nat>, image: seq<seq<int>>, passes: seq<Pass>, n: nat, received: seq<seq<int>>)
    requires n <= |passes|
  {
    |received| == |image| && forall b :: 0 <= b < |image| ==> BlockReceived(order, image[b], passes, n, b, received[b])
  }

  ghost predicate BlockReceived(order: seq<nat>, v: seq<int>, passes: seq<Pass>, n: nat, b: nat, w: seq<int>)
    requires n <= |passes|
  {
    |w| == BLOCK_SIZE && (OwnSteps(passes, n, b) ==> Approximates(order, v, OwnLevels(passes, n, b), w))
  }

  ghost predicate AreBlocks(image: seq<seq<int>>) {
    forall b :: 0 <= b < |image| ==> IsBlock(image[b])
  }

  /** The blocks that a scan starts from are as it expects them. */
  lemma McuPrepared(passes: seq<Pass>, n: nat, order: seq<nat>, owner: seq<nat>, image: seq<seq<int>>, received: seq<seq<int>>,
                    m: nat, mcu: seq<seq<int>>, before: seq<seq<int>>)
    requires PassesFit(passes, order, owner) && n < |passes| && m < |passes[n].layout|
    requires |owner| == |image| && AreBlocks(image) && Received(order, image, passes, n, received)
    requires |mcu| == |before| == |passes[n].layout[m]|
    requires forall i :: 0 <= i < |mcu| ==>
      var b := passes[n].layout[m][i]; b < |image| && mcu[i] == image[b] && before[i] == received[b]
    ensures IsMcu(passes[n].scan, mcu) && Prepared(passes[n].scan, mcu, before)
  {
    var p := passes[n];
    assert PassFits(p, order, owner) && McuFits(p, owner, m);
    ScanFacts(p.scan);
    forall i | 0 <= i < |before| ensures |before[i]| == BLOCK_SIZE && Continues(p.scan, Previous(p.scan, mcu), before[i]) {
      var b := p.layout[m][i];
      assert BlockReceived(order, image[b], passes, n, b, received[b]);
      if p.scan.ss != 0 {
        assert |mcu| == 1 && InLayout(p.layout, b);
        assert Covered(passes, owner, n, b);
        CoveredSteps(passes, order, owner, n, b);
        CoveredStep(passes, order, owner, n, b);
        StepContinues(passes, order, owner, n, b);
        ApproximationContinues(p.scan, mcu, OwnLevels(passes, n, b), before[i]);
      }
    }
  }

  lemma StoredLength(s: Scan, items: seq<Item>, before: seq<int>, after: seq<int>)
    requires BlockStored(s, items, before, after)
    ensures |after| == |before|
  {
  }

  /** Decoding what was coded of a block improves its approximation. */
  lemma BlockSent(passes: seq<Pass>, n: nat, order: seq<nat>, owner: seq<nat>, v: seq<int>, m: nat, i: nat,
                  before: seq<int>, after: seq<int>)
    requires PassesFit(passes, order, owner) && n < |passes| && m < |passes[n].layout| && i < |passes[n].layout[m]|
    requires var p := passes[n];
      && BlockReceived(order, v, passes, n, p.layout[m][i], before)
      && BlockStored(p.scan, BlockItems(p.scan, i, v), before, after)
    ensures BlockReceived(order, v, passes, n + 1, passes[n].layout[m][i], after)
  {
    var p, b := passes[n], passes[n].layout[m][i];
    assert PassFits(p, order, owner) && McuFits(p, owner, m);
    StoredLength(p.scan, BlockItems(p.scan, i, v), before, after);
    if OwnSteps(passes, n + 1, b) {
      assert OwnStep(passes, n, b) && InLayout(p.layout, b);
      StepContinues(passes, order, owner, n, b);
      BlockImproves(p.scan, i, v, OwnLevels(passes, n, b), before, after);
    }
  }

  /** A block that the pass leaves out is as it was. */
  lemma BlockLeftOut(passes: seq<Pass>, n: nat, order: seq<nat>, v: seq<int>, b: nat, w: seq<int>)
    requires n < |passes| && !InLayout(passes[n].layout, b) && BlockReceived(order, v, passes, n, b, w)
    ensures BlockReceived(order, v, passes, n + 1, b, w)
  {
    assert OwnLevels(passes, n + 1, b) == OwnLevels(passes, n, b);
  }

  /** The blocks of the MCUs are put back where they came from. */
  ghost predicate Scattered(layout: seq<seq<nat>>, mcus: seq<seq<seq<int>>>, before: seq<seq<int>>, after: seq<seq<int>>) {
    && |after| == |before| && |mcus| == |layout|
    && (forall m, i :: 0 <= m < |layout| && 0 <= i < |layout[m]| ==>
          |mcus[m]| == |layout[m]| && layout[m][i] < |after| && after[layout[m][i]] == mcus[m][i])
    && (forall b :: 0 <= b < |before| && !InLayout(layout, b) ==> after[b] == before[b])
  }

  /** Puts back the blocks of one MCU. */
  method ScatterMcu(layout: seq<seq<nat>>, m: nat, mcu: seq<seq<int>>, blocks0: seq<seq<int>>) returns (blocks: seq<seq<int>>)
    requires m < |layout| && |mcu| == |layout[m]| && Distinct(layout)
    requires forall i :: 0 <= i < |layout[m]| ==> layout[m][i] < |blocks0|
    ensures |blocks| == |blocks0|
    ensures forall i :: 0 <= i < |layout[m]| ==> blocks[layout[m][i]] == mcu[i]
    ensures forall b :: 0 <= b < |blocks| && b !in layout[m] ==> blocks[b] == blocks0[b]
  {
    blocks := blocks0;
    for i := 0 to |layout[m]|
      invariant |blocks| == |blocks0|
      invariant forall j :: 0 <= j < i ==> blocks[layout[m][j]] == mcu[j]
      invariant forall b :: 0 <= b < |blocks| && b !in layout[m] ==> blocks[b] == blocks0[b]
    {
      assert forall j :: 0 <= j < i ==> layout[m][j] != layout[m][i];
      blocks := blocks[layout[m][i] := mcu[i]];
    }
  }

  method Scatter(layout: seq<seq<nat>>, mcus: seq<seq<seq<int>>>, before: seq<seq<int>>) returns (after: seq<seq<int>>)
    requires |mcus| == |layout| && Distinct(layout) && forall m :: 0 <= m < |layout| ==> |mcus[m]| == |layout[m]|
    requires forall m, i :: 0 <= m < |layout| && 0 <= i < |layout[m]| ==> layout[m][i] < |before|
    ensures Scattered(layout, mcus, before, after)
  {
    after := before;
    for m := 0 to |layout|
      invariant |after| == |before|
      invariant forall j, i :: 0 <= j < m && 0 <= i < |layout[j]| ==> after[layout[j][i]] == mcus[j][i]
      invariant forall b :: 0 <= b < |before| && !InLayout(layout, b) ==> after[b] == before[b]
    {
      assert forall j, i :: 0 <= j < m && 0 <= i < |layout[j]| ==> layout[j][i] !in layout[m];
      assert forall b :: b in layout[m] ==> InLayout(layout, b);
      after := ScatterMcu(layout, m, mcus[m], after);
    }
  }

  lemma AllReceived(passes: seq<Pass>, n: nat, order: seq<nat>, owner: seq<nat>, image: seq<seq<int>>, received: seq<seq<int>>,
                    mcus: seq<seq<seq<int>>>, received2: seq<seq<int>>)
    requires PassesFit(passes, order, owner) && n < |passes| && Received(order, image, passes, n, received)
    requires Scattered(passes[n].layout, mcus, received, received2)
    requires var p := passes[n]; forall m, i :: 0 <= m < |p.layout| && 0 <= i < |p.layout[m]| ==>
      && p.layout[m][i] < |image| && |mcus[m]| == |p.layout[m]|
      && BlockStored(p.scan, BlockItems(p.scan, i, image[p.layout[m][i]]), received[p.layout[m][i]], mcus[m][i])
    ensures Received(order, image, passes, n + 1, received2)
  {
    var p := passes[n];
    forall b | 0 <= b < |image| ensures BlockReceived(order, image[b], passes, n + 1, b, received2[b]) {
      assert BlockReceived(order, image[b], passes, n, b, received[b]);
      if InLayout(p.layout, b) {
        var m, i :| 0 <= m < |p.layout| && 0 <= i < |p.layout[m]| && p.layout[m][i] == b;
        BlockSent(passes, n, order, owner, image[b], m, i, received[b], mcus[m][i]);
      } else {
        BlockLeftOut(passes, n, order, image[b], b, received[b]);
      }
    }
  }

  lemma AllPrepared(passes: seq<Pass>, n: nat, order: seq<nat>, owner: seq<nat>, image: seq<seq<int>>, received: seq<seq<int>>)
    requires PassesFit(passes, order, owner) && n < |passes|
    requires |owner| == |image| && AreBlocks(image) && Received(order, image, passes, n, received)
    ensures var l := passes[n].layout; forall m, i :: 0 <= m < |l| && 0 <= i < |l[m]| ==> l[m][i] < |image|
    ensures var p := passes[n]; var mcus, before := Gather(image, p.layout), Gather(received, p.layout);
      forall m :: 0 <= m < |mcus| ==> IsMcu(p.scan, mcus[m]) && Prepared(p.scan, mcus[m], before[m])
  {
    var p := passes[n];
    var mcus, before := Gather(image, p.layout), Gather(received, p.layout);
    assert PassFits(p, order, owner);
    forall m | 0 <= m < |p.layout| ensures IsMcu(p.scan, mcus[m]) && Prepared(p.scan, mcus[m], before[m]) {
      assert McuFits(p, owner, m);
      McuPrepared(passes, n, order, owner, image, received, m, mcus[m], before[m]);
    }
    forall m, i | 0 <= m < |p.layout| && 0 <= i < |p.layout[m]| ensures p.layout[m][i] < |image| {
      assert McuFits(p, owner, m);
    }
  }

  lemma AllStored(p: Pass, image: seq<seq<int>>, received: seq<seq<int>>, after: seq<seq<seq<int>>>)
    requires forall m, i :: 0 <= m < |p.layout| && 0 <= i < |p.layout[m]| ==> p.layout[m][i] < |image| == |received|
    requires |after| == |p.layout| && forall m :: 0 <= m < |p.layout| ==>
      McuRestored(p.scan, Gather(image, p.layout)[m], Gather(received, p.layout)[m], after[m])
    ensures forall m, i :: 0 <= m < |p.layout| && 0 <= i < |p.layout[m]| ==>
      && |after[m]| == |p.layout[m]|
      && BlockStored(p.scan, BlockItems(p.scan, i, image[p.layout[m][i]]), received[p.layout[m][i]], after[m][i])
  {
  }

  /** Sends one scan: encodes it, ends it with a marker and decodes it into what was received before. Both
      sides start with the statistics that they ended the scan before with. */
  method SendScan(e: ArithEncoder.Encoder, stats0: Stats, p: Pass, image: seq<seq<int>>, received0: seq<seq<int>>, marker: byte,
                  ghost passes: seq<Pass>, ghost n: nat, ghost order: seq<nat>, ghost owner: seq<nat>)
    returns (received: seq<seq<int>>, clean: bool, stats: Stats)
    requires PassesFit(passes, order, owner) && n < |passes| && p == passes[n] && stats0 == e.stats
    requires |owner| == |image| && AreBlocks(image) && Received(order, image, passes, n, received0)
    requires marker != 0 && marker != 0xFF
    modifies e
    ensures clean ==> Received(order, image, passes, n + 1, received) && stats == e.stats
    ensures clean <==> ScanReadable(p.scan, Gather(image, p.layout))
  {
    assert PassFits(p, order, owner);
    AllPrepared(passes, n, order, owner, image, received0);
    var after;
    after, clean, stats := EncodeAndDecode(p.scan, e, stats0, Gather(image, p.layout), marker, [], Gather(received0, p.layout));
    received := received0;
    if clean {
      AllStored(p, image, received0, after);
      received := Scatter(p.layout, after, received0);
      AllReceived(passes, n, order, owner, image, received0, after, received);
    }
  }

  // ----- the whole script -----

  /** Before the first scan everything is zero. */
  method NothingReceived(image: seq<seq<int>>, ghost order: seq<nat>, ghost passes: seq<Pass>) returns (received: seq<seq<int>>)
    requires IsOrder(order, BLOCK_SIZE) && |order| == 64 && AreBlocks(image)
    ensures Received(order, image, passes, 0, received)
  {
    received := seq(|image|, _ => seq(BLOCK_SIZE, _ => 0));
  }

  /** Every DC difference in every pass is at most 2^15. */
  predicate ImageReadable(passes: seq<Pass>, image: seq<seq<int>>) {
    ReadableUpTo(passes, image, |passes|)
  }

  predicate ReadableUpTo(passes: seq<Pass>, image: seq<seq<int>>, n: nat)
    requires n <= |passes|
  {
    forall j :: 0 <= j < n ==> ScanReadable(passes[j].scan, Gather(image, passes[j].layout))
  }

  /** Sends all scans of a script, one after the other. The decoder finds no error exactly if all DC
      differences are small enough, and then has received what the passes have sent of each block. */
  method SendImage(machine: Machine, passes: seq<Pass>, image: seq<seq<int>>, marker: byte,
                   ghost order: seq<nat>, ghost owner: seq<nat>)
    returns (received: seq<seq<int>>, clean: bool)
    requires PassesFit(passes, order, owner) && |owner| == |image| && AreBlocks(image) && marker != 0 && marker != 0xFF
    ensures clean <==> ImageReadable(passes, image)
    ensures clean ==> Received(order, image, passes, |passes|, received)
  {
    received := NothingReceived(image, order, passes);
    clean := true;
    var e := new ArithEncoder.Encoder(machine);
    e.StatsTraced();
    var stats := Stats(machine, map[]);
    for j := 0 to |passes|
      invariant fresh(e) && clean && stats == e.stats && Received(order, image, passes, j, received)
      invariant ReadableUpTo(passes, image, j)
    {
      received, clean, stats := SendScan(e, stats, passes[j], image, received, marker, passes, j, order, owner);
      if !clean {
        return;
      }
    }
  }

  function Below(n: nat): (r: set<nat>)
    ensures |r| == n && forall p: nat :: p in r <==> p < n
  {
    if n == 0 then {} else Below(n - 1) + {n - 1}
  }

  function Entries(order: seq<nat>, n: nat): (r: set<nat>)
    requires n <= |order| && forall j, k :: 0 <= j < k < |order| ==> order[j] != order[k]
    ensures |r| == n && forall p: nat :: p in r <==> p in order[..n]
  {
    if n == 0 then {}
    else
      assert order[..n] == order[..n - 1] + [order[n - 1]];
      Entries(order, n - 1) + {order[n - 1]}
  }

  /** An order of all coefficients leaves none out. */
  lemma OrderIsOnto(order: seq<nat>, n: nat)
    requires IsOrder(order, n) && |order| == n
    ensures forall p: nat :: p < n ==> p in order
  {
    var all, entries := Below(n), Entries(order, n);
    assert order[..n] == order;
    SameSize(entries, all);
    forall p: nat | p < n ensures p in order {
      assert p in entries;
    }
  }

  lemma SameSize(x: set<nat>, y: set<nat>)
    requires x <= y && |x| == |y|
    ensures x == y
  {
    assert |y - x| == |y| - |x|;
  }

  /** Once every bit of its component has been sent, a block that was in all passes is what was received. */
  lemma BlockRestored(passes: seq<Pass>, order: seq<nat>, owner: seq<nat>, image: seq<seq<int>>, received: seq<seq<int>>, b: nat)
    requires PassesFit(passes, order, owner) && |owner| == |image| && Received(order, image, passes, |passes|, received)
    requires b < |image| && Covered(passes, owner, |passes|, b)
    requires forall k: nat :: k < 64 ==> LastAl(Infos(passes), owner[b], k) == 0
    ensures received[b] == image[b]
  {
    var levels := OwnLevels(passes, |passes|, b);
    CoveredSteps(passes, order, owner, |passes|, b);
    assert BlockReceived(order, image[b], passes, |passes|, b, received[b]);
    forall k | 0 <= k < 64 ensures levels[k] == 0 {
      OwnIsComponent(passes, order, owner, |passes|, b, k);
      assert Infos(passes)[..|passes|] == Infos(passes);
    }
    AllBitsSent(order, image[b], levels, received[b]);
  }

  lemma AllBitsSent(order: seq<nat>, v: seq<int>, levels: seq<int>, w: seq<int>)
    requires Approximates(order, v, levels, w) && |order| == 64 && forall k :: 0 <= k < 64 ==> levels[k] == 0
    ensures w == v
  {
    OrderIsOnto(order, |order|);
    forall p: nat | p < 64 ensures w[p] == v[p] {
      assert p in order;
      var k :| 0 <= k < |order| && order[k] == p;
      NothingDropped(v[p]);
      assert w[order[k]] == At(k, v[order[k]], levels[k]);
    }
  }

  /** The scripts that the encoder accepts as progressive go step by step. */
  lemma AcceptedIsStepwise(script: seq<ScanInfo>, n: nat)
    requires ScansOk(script, n)
    ensures Stepwise(script)
  {
    forall j | 0 <= j < |script| ensures StepsOk(script[..j], script[j]) {
      assert ScanOk(script[..j], script[j], n);
      forall i | 0 <= i < |script[j].comps|
        ensures forall k :: script[j].ss <= k <= script[j].se ==> StepOk(LastAl(script[..j], script[j].comps[i], k), script[j])
      {
        assert ProgressionOk(script[..j], script[j], script[j].comps[i]);
      }
    }
  }

  /** The DC coefficients that the scan sends for the first time are sent without their last bit. */
  predicate DcHalved(x: ScanInfo) {
    (x.ss == 0 && x.ah == 0 ==> x.al >= 1) && (x.ss != 0 || x.se != 63)
  }

  lemma SimpleHalved(n: nat, ycc: bool)
    requires n > 0
    ensures forall j :: 0 <= j < |SimpleScript(n, ycc)| ==> DcHalved(SimpleScript(n, ycc)[j])
  {
    var script := SimpleScript(n, ycc);
    forall x | x in script ensures DcHalved(x) {
      if n == 3 && ycc {
        assert x in YccScript(n);
      } else {
        assert x in FirstGeneralScans(n) || x in DcScans(n, 1, 0) || x in ScanPerComponent(n, 1, 63, 1, 0);
      }
    }
  }

  /** The recommended script never codes a DC difference that is too large. */
  lemma HalvedReadable(p: Pass, order: seq<nat>, owner: seq<nat>, image: seq<seq<int>>)
    requires PassFits(p, order, owner) && DcHalved(p.info) && |owner| == |image| && AreBlocks(image)
    ensures ScanReadable(p.scan, Gather(image, p.layout))
  {
    var mcus := Gather(image, p.layout);
    if CodesDc(p.scan) {
      forall m | 0 <= m < |mcus|
        ensures IsMcu(p.scan, mcus[m]) && forall i :: 0 <= i < |mcus[m]| ==> SmallDc(ShiftRight(mcus[m][i][0], p.scan.al))
      {
        assert McuFits(p, owner, m);
        forall i | 0 <= i < |mcus[m]| ensures SmallDc(ShiftRight(mcus[m][i][0], p.scan.al)) {
          HalfIsSmall(mcus[m][i][0], p.scan.al);
        }
      }
      SmallScanReadable(p.scan, mcus);
    } else {
      NoDcReadable(p.scan, NoPred(p.scan), p.scan.restartInterval, mcus);
    }
  }

  /** The recommended script sends every image completely, whatever its coefficients: each block that is
      in all scans of its component is received as it was. */
  method SendSimpleProgression(machine: Machine, passes: seq<Pass>, image: seq<seq<int>>, marker: byte,
                               ghost order: seq<nat>, ghost owner: seq<nat>, ghost n: nat, ghost ycc: bool)
    returns (received: seq<seq<int>>, clean: bool)
    requires IsOrder(order, BLOCK_SIZE) && |order| == 64 && |owner| == |image| && AreBlocks(image)
    requires marker != 0 && marker != 0xFF && n > 0 && forall b :: 0 <= b < |owner| ==> owner[b] < n
    requires Infos(passes) == SimpleScript(n, ycc) && forall j :: 0 <= j < |passes| ==> PassFits(passes[j], order, owner)
    requires BandsCovered(passes, owner)
    ensures clean && |received| == |image|
    ensures forall b :: 0 <= b < |image| && Covered(passes, owner, |passes|, b) ==> received[b] == image[b]
    ensures Received(order, image, passes, |passes|, received)
  {
    if n == 3 && ycc { YccScriptComplete(n); } else { GeneralScriptComplete(n); }
    AcceptedIsStepwise(Infos(passes), n);
    SimpleHalved(n, ycc);
    forall j | 0 <= j < |passes| ensures ScanReadable(passes[j].scan, Gather(image, passes[j].layout)) {
      assert DcHalved(Infos(passes)[j]);
      HalvedReadable(passes[j], order, owner, image);
    }
    received, clean := SendImage(machine, passes, image, marker, order, owner);
    forall b | 0 <= b < |image| && Covered(passes, owner, |passes|, b) ensures received[b] == image[b] {
      BlockRestored(passes, order, owner, image, received, b);
    }
  }

  // ----- sequential scripts -----

  /** In a script of scans that send everything at once, all coefficients are at the same bit. */
  lemma {:induction false} WholeScans(script: seq<ScanInfo>, ci: int, k: int)
    requires forall j :: 0 <= j < |script| ==> script[j].ss == 0 && script[j].se == 63 && script[j].al == 0
    requires 0 <= k <= 63
    ensures LastAl(script, ci, k) == LastAl(script, ci, 0) <= 0
  {
    if script != [] {
      WholeScans(script[..|script| - 1], ci, k);
    }
  }

  lemma SequentialStepwise(script: seq<ScanInfo>, n: nat)
    requires SequentialScript(script, n)
    ensures Stepwise(script)
  {
    forall j | 0 <= j < |script| ensures StepsOk(script[..j], script[j]) {
      var before, x := script[..j], script[j];
      assert SequentialScan(before, x, n);
      forall i | 0 <= i < |x.comps| ensures forall k :: x.ss <= k <= x.se ==> StepOk(LastAl(before, x.comps[i], k), x) {
        forall k | x.ss <= k <= x.se ensures StepOk(LastAl(before, x.comps[i], k), x) {
          WholeBefore(script, n, j);
          WholeScans(before, x.comps[i], k);
        }
      }
    }
  }

  lemma WholeBefore(script: seq<ScanInfo>, n: nat, j: nat)
    requires SequentialScript(script, n) && j <= |script|
    ensures forall i :: 0 <= i < j ==> script[..j][i].ss == 0 && script[..j][i].se == 63 && script[..j][i].al == 0
  {
    forall i | 0 <= i < j ensures script[i].ss == 0 && script[i].se == 63 && script[i].al == 0 {
      assert SequentialScan(script[..i], script[i], n);
    }
  }

  /** A sequential script sends every image whose DC differences can be read completely. */
  method SendSequential(machine: Machine, passes: seq<Pass>, image: seq<seq<int>>, marker: byte,
                        ghost order: seq<nat>, ghost owner: seq<nat>, ghost n: nat)
    returns (received: seq<seq<int>>, clean: bool)
    requires IsOrder(order, BLOCK_SIZE) && |order| == 64 && |owner| == |image| && AreBlocks(image)
    requires marker != 0 && marker != 0xFF && forall b :: 0 <= b < |owner| ==> owner[b] < n
    requires SequentialScript(Infos(passes), n) && forall j :: 0 <= j < |passes| ==> PassFits(passes[j], order, owner)
    ensures clean <==> ImageReadable(passes, image)
    ensures clean ==> |received| == |image|
    ensures clean ==> forall b :: 0 <= b < |image| && Covered(passes, owner, |passes|, b) ==> received[b] == image[b]
  {
    SequentialStepwise(Infos(passes), n);
    WholeBefore(Infos(passes), n, |passes|);
    assert Infos(passes)[..|passes|] == Infos(passes);
    received, clean := SendImage(machine, passes, image, marker, order, owner);
    if clean {
      forall b | 0 <= b < |image| && Covered(passes, owner, |passes|, b) ensures received[b] == image[b] {
        forall k: nat | k < 64 ensures LastAl(Infos(passes), owner[b], k) == 0 {
          WholeScans(Infos(passes), owner[b], k);
          assert LastAl(Infos(passes), owner[b], 0) >= 0;
        }
        BlockRestored(passes, order, owner, image, received, b);
      }
    }
  }

  // ----- one sequential scan -----

  /** A block that was sent in a sequential scan is restored completely. */
  lemma SequentialRestored(s: Scan, i: nat, v: seq<int>, before: seq<int>, after: seq<int>)
    requires ScanValid(s) && !s.progressive && i < |s.membership| && |s.order| == 64 && s.limSe == 63
    requires IsBlock(v) && |before| == 64 && forall p :: 0 <= p < 64 ==> before[p] == 0
    requires BlockStored(s, BlockItems(s, i, v), before, after)
    ensures after == v
  {
    ScanFacts(s);
    var levels := seq(64, _ => -1);
    SequentialImproves(s, i, v, levels, before, after);
    AllBitsSent(s.order, v, RaiseBand(levels, s.ss, s.se, s.al), after);
  }

  function ZeroMcus(s: Scan, n: nat): (mcus: seq<seq<seq<int>>>)
    ensures |mcus| == n && forall j :: 0 <= j < n ==> |mcus[j]| == |s.membership|
    ensures forall j, i :: 0 <= j < n && 0 <= i < |s.membership| ==> mcus[j][i] == seq(BLOCK_SIZE, _ => 0)
  {
    seq(n, j => seq(|s.membership|, _ => seq(BLOCK_SIZE, _ => 0)))
  }

  lemma ZerosPrepared(s: Scan, mcus: seq<seq<seq<int>>>)
    requires ScanValid(s) && !s.progressive
    ensures forall j :: 0 <= j < |mcus| ==> Prepared(s, mcus[j], ZeroMcus(s, |mcus|)[j])
  {
  }

  lemma SequentialMcuRestored(s: Scan, mcu: seq<seq<int>>, before: seq<seq<int>>, after: seq<seq<int>>)
    requires ScanValid(s) && !s.progressive && |s.order| == 64 && s.limSe == 63 && IsMcu(s, mcu)
    requires McuRestored(s, mcu, before, after) && forall i :: 0 <= i < |mcu| ==> before[i] == seq(BLOCK_SIZE, _ => 0)
    ensures after == mcu
  {
    forall i | 0 <= i < |mcu| ensures after[i] == mcu[i] {
      SequentialRestored(s, i, mcu[i], before[i], after[i]);
    }
  }

  /** Encoding the MCUs of a sequential scan and decoding them into blocks of zeros gives them back, exactly
      if all DC differences can be read. */
  method SendSequentialScan(scan: Scan, e: ArithEncoder.Encoder, stats0: Stats, mcus: seq<seq<seq<int>>>, marker: byte, rest: seq<byte>)
    returns (after: seq<seq<seq<int>>>, clean: bool, stats: Stats)
    requires ScanValid(scan) && !scan.progressive && |scan.order| == 64 && scan.limSe == 63
    requires marker != 0 && marker != 0xFF && stats0 == e.stats && forall j :: 0 <= j < |mcus| ==> IsMcu(scan, mcus[j])
    modifies e
    ensures clean <==> ScanReadable(scan, mcus)
    ensures clean ==> after == mcus && stats == e.stats
  {
    var zeros := ZeroMcus(scan, |mcus|);
    ZerosPrepared(scan, mcus);
    after, clean, stats := EncodeAndDecode(scan, e, stats0, mcus, marker, rest, zeros);
    if clean {
      forall j | 0 <= j < |mcus| ensures after[j] == mcus[j] {
        SequentialMcuRestored(scan, mcus[j], zeros[j], after[j]);
      }
    }
  }
}
