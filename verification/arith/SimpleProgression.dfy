/** The recommended progressive script. */
module SimpleProgression {
  import opened ScanScript

  // ----- the script as a list -----

  /** One scan for each of the first n components. */
  function ScanPerComponent(n: nat, ss: int, se: int, ah: int, al: int): (r: seq<ScanInfo>)
    ensures |r| == n && forall i :: 0 <= i < n ==> r[i] == ScanInfo([i], ss, se, ah, al)
  {
    seq(n, i requires 0 <= i < n => ScanInfo([i], ss, se, ah, al))
  }

  function FirstComponents(n: nat): (r: seq<int>)
    ensures |r| == n && forall i :: 0 <= i < n ==> r[i] == i
  {
    seq(n, i requires 0 <= i < n => i)
  }

  /** One interleaved DC scan if there are not too many components, else one for each. */
  function DcScans(n: nat, ah: int, al: int): seq<ScanInfo> {
    if n <= MAX_COMPS_IN_SCAN then [ScanInfo(FirstComponents(n), 0, 0, ah, al)]
    else ScanPerComponent(n, 0, 0, ah, al)
  }

  function SimpleScript(n: nat, ycc: bool): seq<ScanInfo> {
    if n == 3 && ycc then YccScript(n)
    else
      FirstGeneralScans(n) + DcScans(n, 1, 0) + ScanPerComponent(n, 1, 63, 1, 0)
  }

  /** Everything down to bit 1. */
  function FirstGeneralScans(n: nat): seq<ScanInfo> {
    DcScans(n, 0, 1) + ScanPerComponent(n, 1, 5, 0, 2) + ScanPerComponent(n, 6, 63, 0, 2) + ScanPerComponent(n, 1, 63, 2, 1)
  }

  // ----- filling it in -----

  class Script {
    const space: array<ScanInfo>
    var next: nat  // where the next scan goes

    constructor (nscans: nat)
      ensures space.Length == nscans && next == 0 && fresh(space)
    {
      space := new ScanInfo[nscans](_ => ScanInfo([], 0, 0, 0, 0));
      next := 0;
    }

    method FillAScan(ci: int, ss: int, se: int, ah: int, al: int)
      requires next < space.Length
      modifies this, space
      ensures next == old(next) + 1 && space[..next] == old(space[..next]) + [ScanInfo([ci], ss, se, ah, al)]
    {
      space[next] := ScanInfo([ci], ss, se, ah, al);
      next := next + 1;
    }

    method FillScans(ncomps: nat, ss: int, se: int, ah: int, al: int)
      requires next + ncomps <= space.Length
      modifies this, space
      ensures next == old(next) + ncomps
      ensures space[..next] == old(space[..next]) + ScanPerComponent(ncomps, ss, se, ah, al)
    {
      for ci := 0 to ncomps
        invariant next == old(next) + ci
        invariant space[..next] == old(space[..next]) + ScanPerComponent(ncomps, ss, se, ah, al)[..ci]
      {
        FillAScan(ci, ss, se, ah, al);
      }
    }

    method FillDcScans(ncomps: nat, ah: int, al: int)
      requires next + |DcScans(ncomps, ah, al)| <= space.Length
      modifies this, space
      ensures next == old(next) + |DcScans(ncomps, ah, al)|
      ensures space[..next] == old(space[..next]) + DcScans(ncomps, ah, al)
    {
      if ncomps <= MAX_COMPS_IN_SCAN {
        space[next] := ScanInfo(FirstComponents(ncomps), 0, 0, ah, al);
        next := next + 1;
      } else {
        FillScans(ncomps, 0, 0, ah, al);
      }
    }

    method FillFirstYcc(n: nat)
      requires next == 0 && n == 3 && space.Length == 10
      modifies this, space
      ensures next == 6 && space[..next] == FirstYccScans(n)
    {
      FillDcScans(n, 0, 1);
      FillAScan(0, 1, 5, 0, 2);
      FillAScan(2, 1, 63, 0, 1);
      FillAScan(1, 1, 63, 0, 1);
      FillAScan(0, 6, 63, 0, 2);
      FillAScan(0, 1, 63, 2, 1);
    }

    method FillLastYcc(n: nat)
      requires next == 6 && n == 3 && space.Length == 10 && space[..next] == FirstYccScans(n)
      modifies this, space
      ensures next == 10 && space[..next] == YccScript(n)
    {
      FillDcScans(n, 1, 0);
      FillAScan(2, 1, 63, 1, 0);
      FillAScan(1, 1, 63, 1, 0);
      FillAScan(0, 1, 63, 1, 0);
    }

    method FillFirstGeneral(n: nat)
      requires next == 0 && |DcScans(n, 0, 1)| + 3 * n <= space.Length
      modifies this, space
      ensures next == |DcScans(n, 0, 1)| + 3 * n && space[..next] == FirstGeneralScans(n)
    {
      FillDcScans(n, 0, 1);
      FillScans(n, 1, 5, 0, 2);
      FillScans(n, 6, 63, 0, 2);
      FillScans(n, 1, 63, 2, 1);
    }

    method FillGeneral(n: nat)
      requires next == 0 && space.Length == if n > MAX_COMPS_IN_SCAN then 6 * n else 2 + 4 * n
      modifies this, space
      ensures next == space.Length && space[..next] == SimpleScript(n, false)
    {
      FillFirstGeneral(n);
      FillDcScans(n, 1, 0);
      FillScans(n, 1, 63, 1, 0);
    }
  }

  function YccScript(n: nat): seq<ScanInfo> {
    FirstYccScans(n) + DcScans(n, 1, 0)
    + [ScanInfo([2], 1, 63, 1, 0)] + [ScanInfo([1], 1, 63, 1, 0)] + [ScanInfo([0], 1, 63, 1, 0)]
  }

  /** Everything down to bit 1: some luma data first, little of it in many scans. */
  function FirstYccScans(n: nat): seq<ScanInfo> {
    DcScans(n, 0, 1) + [ScanInfo([0], 1, 5, 0, 2)] + [ScanInfo([2], 1, 63, 0, 1)] + [ScanInfo([1], 1, 63, 0, 1)]
    + [ScanInfo([0], 6, 63, 0, 2)] + [ScanInfo([0], 1, 63, 2, 1)]
  }

  /** The number of scans, as it is computed before the script is filled in. */
  method CountScans(ncomps: nat, ycc: bool) returns (nscans: nat)
    ensures nscans == |SimpleScript(ncomps, ycc)|
    ensures nscans == if ncomps == 3 && ycc then 10 else if ncomps > 4 then 6 * ncomps else 2 + 4 * ncomps
  {
    if ncomps == 3 && ycc {
      nscans := 10;
    } else if ncomps > MAX_COMPS_IN_SCAN {
      nscans := 6 * ncomps;
    } else {
      nscans := 2 + 4 * ncomps;
    }
  }

  /** Fills exactly the space that was computed beforehand. */
  method FillSimpleProgression(ncomps: nat, ycc: bool) returns (script: seq<ScanInfo>, nscans: nat)
    ensures script == SimpleScript(ncomps, ycc) && |script| == nscans
    ensures nscans == if ncomps == 3 && ycc then 10 else if ncomps > 4 then 6 * ncomps else 2 + 4 * ncomps
    ensures ncomps == 3 && ycc ==> IsYcc(script)
    ensures !(ncomps == 3 && ycc) ==> IsGeneral(script, ncomps)
    ensures forall j, ci, k, low :: 0 <= j <= |script| && 6 <= k <= 63 && 1 <= low <= 5 && Sent(script[..j], ci, k) ==>
              Sent(script[..j], ci, low)
  {
    SimpleOrdered(ncomps, ycc);
    nscans := CountScans(ncomps, ycc);
    var s := new Script(nscans);
    if ncomps == 3 && ycc {
      s.FillFirstYcc(ncomps);
      s.FillLastYcc(ncomps);
    } else {
      s.FillGeneral(ncomps);
    }
    assert s.next == nscans;
    script := s.space[..];
    assert script == s.space[..s.next];
  }

  // ----- scan by scan -----

  /** The ten scans for YCbCr. */
  predicate IsYcc(script: seq<ScanInfo>) {
    script == [ScanInfo([0, 1, 2], 0, 0, 0, 1),
               ScanInfo([0], 1, 5, 0, 2), ScanInfo([2], 1, 63, 0, 1), ScanInfo([1], 1, 63, 0, 1),
               ScanInfo([0], 6, 63, 0, 2), ScanInfo([0], 1, 63, 2, 1),
               ScanInfo([0, 1, 2], 0, 0, 1, 0),
               ScanInfo([2], 1, 63, 1, 0), ScanInfo([1], 1, 63, 1, 0), ScanInfo([0], 1, 63, 1, 0)]
  }

  /** The DC coefficients of all n components, in scans of one component if there are more than four. */
  predicate IsDcPart(part: seq<ScanInfo>, n: nat, ah: int, al: int) {
    if n <= 4 then |part| == 1 && |part[0].comps| == n && (forall c :: 0 <= c < n ==> part[0].comps[c] == c)
                   && part[0] == ScanInfo(part[0].comps, 0, 0, ah, al)
    else |part| == n && forall c :: 0 <= c < n ==> part[c] == ScanInfo([c], 0, 0, ah, al)
  }

  /** Scans of one component each for the coefficients ss to se of all components. */
  predicate IsBandPart(part: seq<ScanInfo>, n: nat, ss: int, se: int, ah: int, al: int) {
    |part| == n && forall c :: 0 <= c < n ==> part[c] == ScanInfo([c], ss, se, ah, al)
  }

  /** The scans for any other image: the bits above the lowest, low AC coefficients first, then the lowest. */
  predicate IsGeneral(script: seq<ScanInfo>, n: nat) {
    var d := if n <= 4 then 1 else n;
    && |script| == 2 * d + 4 * n
    && IsDcPart(script[..d], n, 0, 1)
    && IsBandPart(script[d..d + n], n, 1, 5, 0, 2)
    && IsBandPart(script[d + n..d + 2 * n], n, 6, 63, 0, 2)
    && IsBandPart(script[d + 2 * n..d + 3 * n], n, 1, 63, 2, 1)
    && IsDcPart(script[d + 3 * n..2 * d + 3 * n], n, 1, 0)
    && IsBandPart(script[2 * d + 3 * n..], n, 1, 63, 1, 0)
  }

  lemma YccScans()
    ensures IsYcc(SimpleScript(3, true))
  {
    assert FirstComponents(3) == [0, 1, 2];
  }

  lemma DcPart(n: nat, d: nat, ah: int, al: int)
    requires d == if n <= 4 then 1 else n
    ensures IsDcPart(DcScans(n, ah, al), n, ah, al) && |DcScans(n, ah, al)| == d
  {
  }

  lemma {:induction false} GeneralScans(n: nat)
    ensures IsGeneral(SimpleScript(n, false), n)
  {
    var d := if n <= 4 then 1 else n;
    DcPart(n, d, 0, 1);
    DcPart(n, d, 1, 0);
    SixParts(SimpleScript(n, false), d, n, DcScans(n, 0, 1), ScanPerComponent(n, 1, 5, 0, 2),
             ScanPerComponent(n, 6, 63, 0, 2), ScanPerComponent(n, 1, 63, 2, 1), DcScans(n, 1, 0), ScanPerComponent(n, 1, 63, 1, 0));
  }

  lemma {:induction false} SixParts(script: seq<ScanInfo>, d: nat, n: nat, a: seq<ScanInfo>, b: seq<ScanInfo>, c: seq<ScanInfo>,
                                    e: seq<ScanInfo>, f: seq<ScanInfo>, g: seq<ScanInfo>)
    requires |a| == |f| == d && |b| == |c| == |e| == |g| == n && script == a + b + c + e + f + g
    ensures script[..d] == a && script[d..d + n] == b && script[d + n..d + 2 * n] == c
    ensures script[d + 2 * n..d + 3 * n] == e && script[d + 3 * n..2 * d + 3 * n] == f && script[2 * d + 3 * n..] == g
  {
  }

  /** Some bits of a coefficient have been sent. */
  predicate Sent(script: seq<ScanInfo>, ci: int, k: int) {
    LastAl(script, ci, k) >= 0
  }

  /** Coefficients 6 to 63 alone are only sent behind a scan with coefficients 1 to 5 of their component. */
  predicate LowFirst(script: seq<ScanInfo>) {
    forall j :: 0 <= j < |script| ==> LowFirstAt(script, j)
  }

  predicate LowFirstAt(script: seq<ScanInfo>, j: nat)
    requires j < |script|
  {
    && script[j].al >= 0 && 0 <= script[j].ss <= script[j].se
    && (script[j].se >= 6 ==> script[j].ss <= 1 || forall ci :: ci in script[j].comps ==> LowBefore(script, j, ci))
  }

  predicate LowBefore(script: seq<ScanInfo>, j: nat, ci: int) {
    exists i :: 0 <= i < j && i < |script| && ci in script[i].comps && script[i].ss <= 1 && script[i].se >= 5
  }

  lemma {:induction false} SentByScan(script: seq<ScanInfo>, i: nat, j: nat, ci: int, k: int)
    requires i < j <= |script| && CodesAt(script[i], ci, k) && forall m :: 0 <= m < |script| ==> script[m].al >= 0
    ensures Sent(script[..j], ci, k)
  {
    var last := LastScan(script[..j], ci, k);
    assert script[..j][i] == script[i];
  }

  /** In every prefix of such a script the low AC coefficients of a component are sent if others are. */
  lemma {:induction false} LowSent(script: seq<ScanInfo>, j: nat, ci: int, k: int, low: int)
    requires LowFirst(script) && j <= |script| && 6 <= k <= 63 && 1 <= low <= 5 && Sent(script[..j], ci, k)
    ensures Sent(script[..j], ci, low)
  {
    var i := LastScan(script[..j], ci, k);
    assert LowFirstAt(script, i);
    forall m | 0 <= m < |script| ensures script[m].al >= 0 { assert LowFirstAt(script, m); }
    if script[i].ss <= 1 {
      SentByScan(script, i, j, ci, low);
    } else {
      assert LowBefore(script, i, ci);
      var m :| 0 <= m < i && m < |script| && ci in script[m].comps && script[m].ss <= 1 && script[m].se >= 5;
      SentByScan(script, m, j, ci, low);
    }
  }

  lemma {:induction false} GeneralLowFirst(script: seq<ScanInfo>, n: nat)
    requires IsGeneral(script, n)
    ensures LowFirst(script)
  {
    var d := if n <= 4 then 1 else n;
    forall j | 0 <= j < |script| ensures LowFirstAt(script, j) {
      if d + n <= j < d + 2 * n {
        HighBand(script, n, d, j);
      } else if j < d + n {
        assert script[j] == if j < d then script[..d][j] else script[d..d + n][j - d];
      } else {
        LaterScans(script, n, d, j);
      }
    }
  }

  lemma {:induction false} LaterScans(script: seq<ScanInfo>, n: nat, d: nat, j: nat)
    requires IsGeneral(script, n) && d == (if n <= 4 then 1 else n) && d + 2 * n <= j < |script|
    ensures LowFirstAt(script, j)
  {
    if j < d + 3 * n {
      assert script[j] == script[d + 2 * n..d + 3 * n][j - d - 2 * n];
    } else if j < 2 * d + 3 * n {
      assert script[j] == script[d + 3 * n..2 * d + 3 * n][j - d - 3 * n];
    } else {
      assert script[j] == script[2 * d + 3 * n..][j - 2 * d - 3 * n];
    }
  }

  lemma {:induction false} HighBand(script: seq<ScanInfo>, n: nat, d: nat, j: nat)
    requires IsGeneral(script, n) && d == (if n <= 4 then 1 else n) && d + n <= j < d + 2 * n
    ensures LowFirstAt(script, j)
  {
    assert script[j] == script[d + n..d + 2 * n][j - d - n];
    assert script[j - n] == script[d..d + n][j - d - n];
  }

  lemma {:induction false} YccLowFirst(script: seq<ScanInfo>)
    requires IsYcc(script)
    ensures LowFirst(script)
  {
    assert script[1].comps == [0] && LowBefore(script, 4, 0);
  }

  lemma {:induction false} SimpleOrdered(n: nat, ycc: bool)
    ensures n == 3 && ycc ==> IsYcc(SimpleScript(n, ycc))
    ensures !(n == 3 && ycc) ==> IsGeneral(SimpleScript(n, ycc), n)
    ensures var script := SimpleScript(n, ycc);
      forall j, ci, k, low :: 0 <= j <= |script| && 6 <= k <= 63 && 1 <= low <= 5 && Sent(script[..j], ci, k) ==>
        Sent(script[..j], ci, low)
  {
    var script := SimpleScript(n, ycc);
    if n == 3 && ycc {
      YccScans();
      YccLowFirst(script);
    } else {
      GeneralScans(n);
      GeneralLowFirst(script, n);
    }
    forall j, ci, k, low | 0 <= j <= |script| && 6 <= k <= 63 && 1 <= low <= 5 && Sent(script[..j], ci, k)
      ensures Sent(script[..j], ci, low)
    {
      LowSent(script, j, ci, k, low);
    }
  }

  /** With the script for YCbCr, luminance coefficients 1 to 5 come first, down to bit 2, before any
      other AC coefficient. */
  lemma YccStart(script: seq<ScanInfo>, ci: int, k: int)
    requires IsYcc(script) && 1 <= k <= 63
    ensures LastAl(script[..2], ci, k) == if ci == 0 && k <= 5 then 2 else -1
  {
    var j := LastScan(script[..2], ci, k);
  }

  /** Then the chrominance comes down to bit 1, before the luminance coefficients 6 to 63. */
  lemma YccChroma(script: seq<ScanInfo>, j: nat, k: int, ci: int, m: int)
    requires IsYcc(script) && j <= |script| && 6 <= k <= 63 && Sent(script[..j], 0, k)
    requires 1 <= ci <= 2 && 1 <= m <= 63
    ensures 0 <= LastAl(script[..j], ci, m) <= 1
  {
    var i := LastScan(script[..j], 0, k);
    assert i >= 4;
    SentByScan(script, 4 - ci, j, ci, m);
    var last := LastScan(script[..j], ci, m);
  }

  /** The last bit of the luminance AC coefficients comes last of all. */
  lemma YccEnd(script: seq<ScanInfo>, j: nat, k: int)
    requires IsYcc(script) && j <= |script| && 1 <= k <= 63
    ensures LastAl(script[..j], 0, k) == 0 <==> j == |script|
  {
    var i := LastScan(script[..j], 0, k);
    assert j == |script| ==> script[..j] == script;
  }

  // ----- it is accepted and sends everything -----

  /** Adding one scan to an accepted start of a script. */
  lemma OneMoreOk(script: seq<ScanInfo>, x: ScanInfo, n: nat)
    requires ScansOk(script, n) && ScanOk(script, x, n)
    ensures ScansOk(script + [x], n)
  {
    forall j | 0 <= j < |script| + 1 ensures ScanOk((script + [x])[..j], (script + [x])[j], n) {
      if j < |script| {
        assert (script + [x])[..j] == script[..j];
      } else {
        assert (script + [x])[..j] == script;
      }
    }
  }

  /** The coefficients ss to se of components below m have been sent down to bit al. */
  ghost predicate Raised(script: seq<ScanInfo>, script2: seq<ScanInfo>, m: nat, ss: int, se: int, al: int) {
    forall ci: nat, k: nat :: LastAl(script2, ci, k) == if ci < m && ss <= k <= se then al else LastAl(script, ci, k)
  }

  lemma {:induction false} PerComponentOk(script: seq<ScanInfo>, n: nat, m: nat, ss: int, se: int, ah: int, al: int)
    requires ScansOk(script, n) && m <= n && ParametersOk(ScanInfo([0], ss, se, ah, al))
    requires forall ci: nat :: ci < m ==> ProgressionOk(script, ScanInfo([ci], ss, se, ah, al), ci)
    ensures ScansOk(script + ScanPerComponent(m, ss, se, ah, al), n)
    ensures Raised(script, script + ScanPerComponent(m, ss, se, ah, al), m, ss, se, al)
  {
    if m == 0 {
      assert script + ScanPerComponent(m, ss, se, ah, al) == script;
    } else {
      PerComponentOk(script, n, m - 1, ss, se, ah, al);
      var before, x := script + ScanPerComponent(m - 1, ss, se, ah, al), ScanInfo([m - 1], ss, se, ah, al);
      assert script + ScanPerComponent(m, ss, se, ah, al) == before + [x];
      assert ProgressionOk(before, x, m - 1);
      OneMoreOk(before, x, n);
      forall ci: nat, k: nat
        ensures LastAl(before + [x], ci, k) == if ci < m && ss <= k <= se then al else LastAl(script, ci, k)
      {
        LastAlAppend(before, x, ci, k);
      }
    }
  }

  lemma DcScansOk(script: seq<ScanInfo>, n: nat, ah: int, al: int)
    requires ScansOk(script, n) && n > 0 && 0 <= ah <= MAX_AH_AL && 0 <= al <= MAX_AH_AL
    requires forall ci: nat :: ci < n ==> StepOk(LastAl(script, ci, 0), ScanInfo([ci], 0, 0, ah, al))
    ensures ScansOk(script + DcScans(n, ah, al), n)
    ensures Raised(script, script + DcScans(n, ah, al), n, 0, 0, al)
  {
    if n <= MAX_COMPS_IN_SCAN {
      InterleavedOk(script, n, ah, al);
    } else {
      PerComponentOk(script, n, n, 0, 0, ah, al);
    }
  }

  lemma InterleavedOk(script: seq<ScanInfo>, n: nat, ah: int, al: int)
    requires ScansOk(script, n) && 0 < n <= MAX_COMPS_IN_SCAN && 0 <= ah <= MAX_AH_AL && 0 <= al <= MAX_AH_AL
    requires forall ci: nat :: ci < n ==> StepOk(LastAl(script, ci, 0), ScanInfo([ci], 0, 0, ah, al))
    ensures var x := ScanInfo(FirstComponents(n), 0, 0, ah, al);
      ScansOk(script + [x], n) && Raised(script, script + [x], n, 0, 0, al)
  {
    var x := ScanInfo(FirstComponents(n), 0, 0, ah, al);
    forall i: nat | i < n ensures ProgressionOk(script, x, x.comps[i]) {
      assert StepOk(LastAl(script, i, 0), ScanInfo([i], 0, 0, ah, al));
    }
    OneMoreOk(script, x, n);
    forall ci: nat, k: nat
      ensures LastAl(script + [x], ci, k) == if ci < n && 0 <= k <= 0 then al else LastAl(script, ci, k)
    {
      LastAlAppend(script, x, ci, k);
      assert ci < n ==> x.comps[ci] == ci;
    }
  }

  lemma OneScanOk(script: seq<ScanInfo>, n: nat, ci: nat, ss: int, se: int, ah: int, al: int)
    requires ScansOk(script, n) && ci < n && ParametersOk(ScanInfo([0], ss, se, ah, al))
    requires ProgressionOk(script, ScanInfo([ci], ss, se, ah, al), ci)
    ensures ScansOk(script + [ScanInfo([ci], ss, se, ah, al)], n)
    ensures forall c: nat, k: nat :: LastAl(script + [ScanInfo([ci], ss, se, ah, al)], c, k)
              == if c == ci && ss <= k <= se then al else LastAl(script, c, k)
  {
    var x := ScanInfo([ci], ss, se, ah, al);
    OneMoreOk(script, x, n);
    forall c: nat, k: nat ensures LastAl(script + [x], c, k) == if c == ci && ss <= k <= se then al else LastAl(script, c, k) {
      LastAlAppend(script, x, c, k);
    }
  }

  lemma FirstGeneralComplete(n: nat)
    requires n > 0
    ensures ScansOk(FirstGeneralScans(n), n)
    ensures forall ci: nat, k: nat :: ci < n && k < 64 ==> LastAl(FirstGeneralScans(n), ci, k) == 1
  {
    var s1 := DcScans(n, 0, 1);
    assert [] + s1 == s1;
    DcScansOk([], n, 0, 1);
    var s2 := s1 + ScanPerComponent(n, 1, 5, 0, 2);
    PerComponentOk(s1, n, n, 1, 5, 0, 2);
    var s3 := s2 + ScanPerComponent(n, 6, 63, 0, 2);
    PerComponentOk(s2, n, n, 6, 63, 0, 2);
    PerComponentOk(s3, n, n, 1, 63, 2, 1);
  }

  /** The general script is accepted, and in the end every bit of every coefficient has been sent. */
  lemma GeneralScriptComplete(n: nat)
    requires n > 0
    ensures ProgressiveScript(SimpleScript(n, false), n)
    ensures forall ci: nat, k: nat :: ci < n && k < 64 ==> LastAl(SimpleScript(n, false), ci, k) == 0
  {
    var s4 := FirstGeneralScans(n);
    FirstGeneralComplete(n);
    LastGeneralComplete(s4, n);
    assert SimpleScript(n, false)[0] == s4[0] == DcScans(n, 0, 1)[0];
  }

  lemma LastGeneralComplete(s4: seq<ScanInfo>, n: nat)
    requires n > 0 && ScansOk(s4, n) && forall ci: nat, k: nat :: ci < n && k < 64 ==> LastAl(s4, ci, k) == 1
    ensures var script := s4 + DcScans(n, 1, 0) + ScanPerComponent(n, 1, 63, 1, 0);
      ScansOk(script, n) && forall ci: nat, k: nat :: ci < n && k < 64 ==> LastAl(script, ci, k) == 0
  {
    DcScansOk(s4, n, 1, 0);
    PerComponentOk(s4 + DcScans(n, 1, 0), n, n, 1, 63, 1, 0);
  }

  lemma FirstYccComplete(n: nat)
    requires n == 3
    ensures ScansOk(FirstYccScans(n), n)
    ensures forall ci: nat, k: nat :: ci < n && k < 64 ==> LastAl(FirstYccScans(n), ci, k) == 1
  {
    var s1 := DcScans(n, 0, 1);
    assert [] + s1 == s1;
    DcScansOk([], n, 0, 1);
    OneScanOk(s1, n, 0, 1, 5, 0, 2);
    var s2 := s1 + [ScanInfo([0], 1, 5, 0, 2)];
    OneScanOk(s2, n, 2, 1, 63, 0, 1);
    var s3 := s2 + [ScanInfo([2], 1, 63, 0, 1)];
    OneScanOk(s3, n, 1, 1, 63, 0, 1);
    var s4 := s3 + [ScanInfo([1], 1, 63, 0, 1)];
    OneScanOk(s4, n, 0, 6, 63, 0, 2);
    var s5 := s4 + [ScanInfo([0], 6, 63, 0, 2)];
    OneScanOk(s5, n, 0, 1, 63, 2, 1);
  }

  /** So is the script for YCbCr images. */
  lemma YccScriptComplete(n: nat)
    requires n == 3
    ensures ProgressiveScript(SimpleScript(n, true), n)
    ensures forall ci: nat, k: nat :: ci < n && k < 64 ==> LastAl(SimpleScript(n, true), ci, k) == 0
  {
    FirstYccComplete(n);
    LastYccComplete(FirstYccScans(n), n);
    assert YccScript(n)[0] == FirstYccScans(n)[0] == DcScans(n, 0, 1)[0];
  }

  lemma LastYccComplete(s6: seq<ScanInfo>, n: nat)
    requires n == 3 && ScansOk(s6, n) && forall ci: nat, k: nat :: ci < n && k < 64 ==> LastAl(s6, ci, k) == 1
    ensures var script := s6 + DcScans(n, 1, 0)
                          + [ScanInfo([2], 1, 63, 1, 0)] + [ScanInfo([1], 1, 63, 1, 0)] + [ScanInfo([0], 1, 63, 1, 0)];
      ScansOk(script, n) && forall ci: nat, k: nat :: ci < n && k < 64 ==> LastAl(script, ci, k) == 0
  {
    DcScansOk(s6, n, 1, 0);
    var s7 := s6 + DcScans(n, 1, 0);
    OneScanOk(s7, n, 2, 1, 63, 1, 0);
    var s8 := s7 + [ScanInfo([2], 1, 63, 1, 0)];
    OneScanOk(s8, n, 1, 1, 63, 1, 0);
    var s9 := s8 + [ScanInfo([1], 1, 63, 1, 0)];
    OneScanOk(s9, n, 0, 1, 63, 1, 0);
  }
}
