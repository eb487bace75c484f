/** Scan scripts: which sequences of scans the encoder accepts, and the decoder's own check of them. */
module ScanScript {

  /** A scan of a script, for the components with the given indexes. */
  datatype ScanInfo = ScanInfo(comps: seq<int>, ss: int, se: int, ah: int, al: int)

  const MAX_COMPS_IN_SCAN := 4
  const MAX_AH_AL := 10

  predicate CodesAt(x: ScanInfo, ci: int, k: int) {
    ci in x.comps && x.ss <= k <= x.se
  }

  /** Down to which bit coefficient k of component ci has been sent, or -1. */
  function LastAl(script: seq<ScanInfo>, ci: int, k: int): int {
    if script == [] then -1
    else
      var last := script[|script| - 1];
      if CodesAt(last, ci, k) then last.al else LastAl(script[..|script| - 1], ci, k)
  }

  predicate ComponentsOk(x: ScanInfo, n: nat) {
    && 0 < |x.comps| <= MAX_COMPS_IN_SCAN
    && forall i :: 0 <= i < |x.comps| ==> 0 <= x.comps[i] < n && (i > 0 ==> x.comps[i - 1] < x.comps[i])
  }

  predicate ParametersOk(x: ScanInfo) {
    && 0 <= x.ss <= x.se < 64 && 0 <= x.ah <= MAX_AH_AL && 0 <= x.al <= MAX_AH_AL
    && if x.ss == 0 then x.se == 0 else |x.comps| == 1
  }

  /** A coefficient is sent for the first time, or its next bit is. */
  predicate StepOk(last: int, x: ScanInfo) {
    if last < 0 then x.ah == 0 else x.ah == last && x.al == x.ah - 1
  }

  /** No coefficients of a component before its DC coefficient, and each one bit by bit. */
  predicate ProgressionOk(before: seq<ScanInfo>, x: ScanInfo, ci: int) {
    && (x.ss != 0 ==> LastAl(before, ci, 0) >= 0)
    && forall k :: x.ss <= k <= x.se ==> StepOk(LastAl(before, ci, k), x)
  }

  predicate ScanOk(before: seq<ScanInfo>, x: ScanInfo, n: nat) {
    ComponentsOk(x, n) && ParametersOk(x) && forall i :: 0 <= i < |x.comps| ==> ProgressionOk(before, x, x.comps[i])
  }

  predicate ScansOk(script: seq<ScanInfo>, n: nat) {
    forall j :: 0 <= j < |script| ==> ScanOk(script[..j], script[j], n)
  }

  predicate IsProgressive(script: seq<ScanInfo>) {
    script != [] && (script[0].ss != 0 || script[0].se != 63)
  }

  /** An accepted progressive script for n components. */
  predicate ProgressiveScript(script: seq<ScanInfo>, n: nat) {
    IsProgressive(script) && ScansOk(script, n) && forall ci :: 0 <= ci < n ==> LastAl(script, ci, 0) >= 0
  }

  predicate SequentialScan(before: seq<ScanInfo>, x: ScanInfo, n: nat) {
    && ComponentsOk(x, n) && x.ss == 0 && x.se == 63 && x.ah == 0 && x.al == 0
    && forall i :: 0 <= i < |x.comps| ==> LastAl(before, x.comps[i], 0) < 0
  }

  /** An accepted sequential script: every component once, with all its coefficients. */
  predicate SequentialScript(script: seq<ScanInfo>, n: nat) {
    && script != [] && !IsProgressive(script)
    && (forall j :: 0 <= j < |script| ==> SequentialScan(script[..j], script[j], n))
    && forall ci :: 0 <= ci < n ==> LastAl(script, ci, 0) >= 0
  }

  datatype Verdict = Sequential | Progressive | Rejected

  method CheckComponents(x: ScanInfo, n: nat) returns (ok: bool)
    ensures ok <==> ComponentsOk(x, n)
  {
    var ncomps := |x.comps|;
    if ncomps <= 0 || ncomps > MAX_COMPS_IN_SCAN {
      return false;
    }
    for ci := 0 to ncomps
      invariant forall i :: 0 <= i < ci ==> 0 <= x.comps[i] < n && (i > 0 ==> x.comps[i - 1] < x.comps[i])
    {
      var thisi := x.comps[ci];
      if thisi < 0 || thisi >= n {
        return false;
      }
      if ci > 0 && thisi <= x.comps[ci - 1] {
        return false;
      }
    }
    return true;
  }

  /** The table of last bit positions is up to date with a script. */
  ghost predicate UpToDate(table: array2<int>, script: seq<ScanInfo>)
    reads table
  {
    table.Length1 == 64 &&
    forall ci, k :: 0 <= ci < table.Length0 && 0 <= k < 64 ==> table[ci, k] == LastAl(script, ci, k)
  }

  /** Checks the coefficients of one component and notes their new bit position. */
  method CheckCoefficients(x: ScanInfo, table: array2<int>, thisi: nat) returns (ok: bool)
    requires table.Length1 == 64 && thisi < table.Length0 && 0 <= x.ss <= x.se < 64
    modifies table
    ensures ok <==> (x.ss != 0 ==> old(table[thisi, 0]) >= 0) && forall k :: x.ss <= k <= x.se ==> StepOk(old(table[thisi, k]), x)
    ensures ok ==> forall ci, k :: 0 <= ci < table.Length0 && 0 <= k < 64 ==>
      table[ci, k] == if ci == thisi && x.ss <= k <= x.se then x.al else old(table[ci, k])
  {
    if x.ss != 0 && table[thisi, 0] < 0 {
      return false;
    }
    var coefi := x.ss;
    while coefi <= x.se
      invariant x.ss <= coefi <= x.se + 1
      invariant forall k :: x.ss <= k < coefi ==> StepOk(old(table[thisi, k]), x)
      invariant forall ci, k :: 0 <= ci < table.Length0 && 0 <= k < 64 ==>
        table[ci, k] == if ci == thisi && x.ss <= k < coefi then x.al else old(table[ci, k])
    {
      if table[thisi, coefi] < 0 {
        if x.ah != 0 {
          return false;
        }
      } else {
        if x.ah != table[thisi, coefi] || x.al != x.ah - 1 {
          return false;
        }
      }
      table[thisi, coefi] := x.al;
      coefi := coefi + 1;
    }
    return true;
  }

  lemma LastAlAppend(script: seq<ScanInfo>, x: ScanInfo, ci: int, k: int)
    ensures LastAl(script + [x], ci, k) == if CodesAt(x, ci, k) then x.al else LastAl(script, ci, k)
  {
    assert (script + [x])[..|script|] == script;
  }

  /** Checks one scan of a progressive script. */
  method CheckProgressiveScan(ghost before: seq<ScanInfo>, x: ScanInfo, table: array2<int>) returns (ok: bool)
    requires ComponentsOk(x, table.Length0) && UpToDate(table, before)
    modifies table
    ensures ok <==> ScanOk(before, x, table.Length0)
    ensures ok ==> UpToDate(table, before + [x])
  {
    if x.ss < 0 || x.ss >= 64 || x.se < x.ss || x.se >= 64
       || x.ah < 0 || x.ah > MAX_AH_AL || x.al < 0 || x.al > MAX_AH_AL {
      return false;
    }
    if x.ss == 0 {
      if x.se != 0 {
        return false;
      }
    } else if |x.comps| != 1 {
      return false;
    }
    for c := 0 to |x.comps|
      invariant table.Length1 == 64
      invariant forall i :: 0 <= i < c ==> ProgressionOk(before, x, x.comps[i])
      invariant forall ci, k :: 0 <= ci < table.Length0 && 0 <= k < 64 ==>
        table[ci, k] == if ci in x.comps[..c] && x.ss <= k <= x.se then x.al else LastAl(before, ci, k)
    {
      assert x.comps[c] !in x.comps[..c] by { Increasing(x, c); }
      var good := CheckCoefficients(x, table, x.comps[c]);
      if !good {
        assert !ProgressionOk(before, x, x.comps[c]);
        return false;
      }
      assert x.comps[..c + 1] == x.comps[..c] + [x.comps[c]];
    }
    assert x.comps[..|x.comps|] == x.comps;
    forall ci, k | 0 <= ci < table.Length0 && 0 <= k < 64 ensures table[ci, k] == LastAl(before + [x], ci, k) {
      LastAlAppend(before, x, ci, k);
    }
    return true;
  }

  lemma {:induction false} Increasing(x: ScanInfo, c: nat)
    requires c < |x.comps| && forall i :: 0 < i < |x.comps| ==> x.comps[i - 1] < x.comps[i]
    ensures forall i :: 0 <= i < c ==> x.comps[i] < x.comps[c]
  {
    if c > 0 {
      Increasing(x, c - 1);
    }
  }

  ghost predicate SentUpToDate(sent: array<bool>, script: seq<ScanInfo>)
    reads sent
  {
    forall ci :: 0 <= ci < sent.Length ==> (sent[ci] <==> LastAl(script, ci, 0) >= 0)
  }

  /** Checks one scan of a sequential script. */
  method CheckSequentialScan(ghost before: seq<ScanInfo>, x: ScanInfo, sent: array<bool>) returns (ok: bool)
    requires ComponentsOk(x, sent.Length) && SentUpToDate(sent, before)
    modifies sent
    ensures ok <==> SequentialScan(before, x, sent.Length)
    ensures ok ==> SentUpToDate(sent, before + [x])
  {
    if x.ss != 0 || x.se != 63 || x.ah != 0 || x.al != 0 {
      return false;
    }
    for c := 0 to |x.comps|
      invariant forall i :: 0 <= i < c ==> LastAl(before, x.comps[i], 0) < 0
      invariant forall ci :: 0 <= ci < sent.Length ==> (sent[ci] <==> ci in x.comps[..c] || LastAl(before, ci, 0) >= 0)
    {
      var thisi := x.comps[c];
      assert thisi !in x.comps[..c] by { Increasing(x, c); }
      if sent[thisi] {
        return false;
      }
      sent[thisi] := true;
      assert x.comps[..c + 1] == x.comps[..c] + [x.comps[c]];
    }
    assert x.comps[..|x.comps|] == x.comps;
    forall ci | 0 <= ci < sent.Length ensures sent[ci] <==> LastAl(before + [x], ci, 0) >= 0 {
      LastAlAppend(before, x, ci, 0);
    }
    return true;
  }

  /** Checks all scans of a progressive script for n components. */
  method CheckProgressive(script: seq<ScanInfo>, n: nat) returns (ok: bool)
    requires IsProgressive(script)
    ensures ok <==> ProgressiveScript(script, n)
  {
    var lastBitpos := new int[n, 64]((_, _) => -1);
    for j := 0 to |script|
      invariant fresh(lastBitpos) && UpToDate(lastBitpos, script[..j])
      invariant forall i :: 0 <= i < j ==> ScanOk(script[..i], script[i], n)
    {
      var good := CheckComponents(script[j], n);
      if good {
        good := CheckProgressiveScan(script[..j], script[j], lastBitpos);
      }
      if !good {
        return false;
      }
      assert script[..j + 1] == script[..j] + [script[j]];
    }
    assert script[..|script|] == script;
    for ci := 0 to n
      invariant forall c :: 0 <= c < ci ==> LastAl(script, c, 0) >= 0
    {
      if lastBitpos[ci, 0] < 0 {
        return false;
      }
    }
    return true;
  }

  /** Checks all scans of a sequential script for n components. */
  method CheckSequential(script: seq<ScanInfo>, n: nat) returns (ok: bool)
    requires script != [] && !IsProgressive(script)
    ensures ok <==> SequentialScript(script, n)
  {
    var sent := new bool[n](_ => false);
    for j := 0 to |script|
      invariant fresh(sent) && SentUpToDate(sent, script[..j])
      invariant forall i :: 0 <= i < j ==> SequentialScan(script[..i], script[i], n)
    {
      var good := CheckComponents(script[j], n);
      if good {
        good := CheckSequentialScan(script[..j], script[j], sent);
      }
      if !good {
        return false;
      }
      assert script[..j + 1] == script[..j] + [script[j]];
    }
    assert script[..|script|] == script;
    for ci := 0 to n
      invariant forall c :: 0 <= c < ci ==> LastAl(script, c, 0) >= 0
    {
      if !sent[ci] {
        return false;
      }
    }
    return true;
  }

  method ValidateScript(script: seq<ScanInfo>, n: nat) returns (v: Verdict)
    ensures v == Progressive <==> ProgressiveScript(script, n)
    ensures v == Progressive <==> ProgressiveRules(script, n)
    ensures v == Sequential <==> SequentialScript(script, n)
    ensures v == Sequential <==> SequentialRules(script, n)
  {
    ProgressiveIs(script, n);
    SequentialIs(script, n);
    if |script| <= 0 {
      return Rejected;
    }
    var ok;
    if script[0].ss != 0 || script[0].se != 63 {
      ok := CheckProgressive(script, n);
      return if ok then Progressive else Rejected;
    } else {
      ok := CheckSequential(script, n);
      return if ok then Sequential else Rejected;
    }
  }

  // ----- the rules, scan by scan -----

  /** The last scan that codes a coefficient. */
  lemma {:induction false} LastScan(script: seq<ScanInfo>, ci: int, k: int) returns (j: int)
    ensures -1 <= j < |script| && (forall i :: j < i < |script| ==> !CodesAt(script[i], ci, k))
    ensures if j < 0 then LastAl(script, ci, k) == -1 else CodesAt(script[j], ci, k) && LastAl(script, ci, k) == script[j].al
  {
    j := |script| - 1;
    if script != [] && !CodesAt(script[j], ci, k) {
      j := LastScan(script[..j], ci, k);
    }
  }

  /** Scan i is the last one before scan j that codes a coefficient. */
  predicate Precedes(script: seq<ScanInfo>, i: nat, j: nat, ci: int, k: int) {
    && i < j <= |script| && CodesAt(script[i], ci, k)
    && forall m :: i < m < j ==> !CodesAt(script[m], ci, k)
  }

  predicate NeverBefore(script: seq<ScanInfo>, j: nat, ci: int, k: int) {
    forall i :: 0 <= i < j && i < |script| ==> !CodesAt(script[i], ci, k)
  }

  /** A coefficient is sent first with its highest bits, and then each time with the bit below. */
  ghost predicate StepRule(script: seq<ScanInfo>, j: nat, ci: int, k: int)
    requires j < |script|
  {
    && (NeverBefore(script, j, ci, k) ==> script[j].ah == 0)
    && forall i: nat :: Precedes(script, i, j, ci, k) ==> script[i].al == script[j].ah == script[j].al + 1
  }

  /** Some scan before scan j sends the DC coefficients of a component. */
  predicate DcBefore(script: seq<ScanInfo>, j: nat, ci: int) {
    exists i :: 0 <= i < j && i < |script| && ci in script[i].comps && script[i].ss == 0
  }

  /** One to four components in the order of the frame. */
  predicate InFrameOrder(comps: seq<int>, n: nat) {
    && 1 <= |comps| <= 4 && (forall a :: 0 <= a < |comps| ==> 0 <= comps[a] < n)
    && forall a, b :: 0 <= a < b < |comps| ==> comps[a] < comps[b]
  }

  /** What scan j of a progressive script may be: DC coefficients of some components, or a band of AC
      coefficients of one component whose DC coefficients were sent before. */
  ghost predicate ProgressiveRule(script: seq<ScanInfo>, j: nat, n: nat)
    requires j < |script|
  {
    var x := script[j];
    && InFrameOrder(x.comps, n) && 0 <= x.ah <= 10 && 0 <= x.al <= 10
    && (x.ss == x.se == 0 || (1 <= x.ss <= x.se <= 63 && |x.comps| == 1))
    && forall ci :: ci in x.comps ==>
      (x.ss != 0 ==> DcBefore(script, j, ci)) && forall k :: x.ss <= k <= x.se ==> StepRule(script, j, ci, k)
  }

  /** The rules for a progressive script: those for each scan, and every component has its DC coefficients sent. */
  ghost predicate ProgressiveRules(script: seq<ScanInfo>, n: nat) {
    && script != [] && !(script[0].ss == 0 && script[0].se == 63)
    && (forall j :: 0 <= j < |script| ==> ProgressiveRule(script, j, n))
    && forall ci :: 0 <= ci < n ==> DcBefore(script, |script|, ci)
  }

  /** The rules for a sequential script: every component is in exactly one scan, with all its coefficients. */
  predicate SequentialRules(script: seq<ScanInfo>, n: nat) {
    && script != []
    && (forall j :: 0 <= j < |script| ==> InFrameOrder(script[j].comps, n) && script[j] == ScanInfo(script[j].comps, 0, 63, 0, 0))
    && (forall j, ci :: 0 <= j < |script| && ci in script[j].comps ==> !SentBefore(script, j, ci))
    && forall ci :: 0 <= ci < n ==> SentBefore(script, |script|, ci)
  }

  predicate SentBefore(script: seq<ScanInfo>, j: nat, ci: int) {
    exists i :: 0 <= i < j && i < |script| && ci in script[i].comps
  }

  lemma {:induction false} FrameOrderIs(x: ScanInfo, n: nat)
    ensures ComponentsOk(x, n) <==> InFrameOrder(x.comps, n)
  {
    if ComponentsOk(x, n) {
      forall a, b | 0 <= a < b < |x.comps| ensures x.comps[a] < x.comps[b] {
        Increasing(x, b);
      }
    }
  }

  predicate Plain(script: seq<ScanInfo>, j: nat) {
    forall i :: 0 <= i < j && i < |script| ==> script[i].al >= 0 && script[i].se >= 0 && script[i].ss >= 0
  }

  lemma {:induction false} StepIs(script: seq<ScanInfo>, j: nat, ci: int, k: int)
    requires j < |script| && Plain(script, j)
    ensures StepOk(LastAl(script[..j], ci, k), script[j]) <==> StepRule(script, j, ci, k)
  {
    var i := LastScan(script[..j], ci, k);
    if i >= 0 {
      assert CodesAt(script[i], ci, k);
      assert Precedes(script, i, j, ci, k);
    }
  }

  lemma {:induction false} DcSentIs(script: seq<ScanInfo>, j: nat, ci: int)
    requires j <= |script| && Plain(script, j)
    ensures LastAl(script[..j], ci, 0) >= 0 <==> DcBefore(script, j, ci)
  {
    var i := LastScan(script[..j], ci, 0);
    forall m | 0 <= m < j && ci in script[m].comps && script[m].ss == 0 ensures CodesAt(script[..j][m], ci, 0) {}
  }

  lemma {:induction false} ScanIs(script: seq<ScanInfo>, j: nat, n: nat)
    requires j < |script| && Plain(script, j)
    ensures ScanOk(script[..j], script[j], n) <==> ProgressiveRule(script, j, n)
  {
    var x := script[j];
    FrameOrderIs(x, n);
    forall ci, k ensures StepOk(LastAl(script[..j], ci, k), x) <==> StepRule(script, j, ci, k) {
      StepIs(script, j, ci, k);
    }
    forall ci ensures LastAl(script[..j], ci, 0) >= 0 <==> DcBefore(script, j, ci) {
      DcSentIs(script, j, ci);
    }
  }

  /** The rules are those for every scan, after the scans before it. */
  lemma {:induction false} ProgressiveIs(script: seq<ScanInfo>, n: nat)
    ensures ProgressiveScript(script, n) <==> ProgressiveRules(script, n)
  {
    if ScansOk(script, n) || forall j :: 0 <= j < |script| ==> ProgressiveRule(script, j, n) {
      assert Plain(script, |script|) by {
        forall i | 0 <= i < |script| ensures script[i].al >= 0 && script[i].se >= 0 && script[i].ss >= 0 {
          assert ScanOk(script[..i], script[i], n) || ProgressiveRule(script, i, n);
        }
      }
      forall j | 0 <= j < |script| ensures ScanOk(script[..j], script[j], n) <==> ProgressiveRule(script, j, n) {
        ScanIs(script, j, n);
      }
      assert script[..|script|] == script;
      forall ci ensures LastAl(script, ci, 0) >= 0 <==> DcBefore(script, |script|, ci) {
        DcSentIs(script, |script|, ci);
      }
    }
  }

  predicate AllComplete(script: seq<ScanInfo>, j: nat) {
    forall i :: 0 <= i < j && i < |script| ==> script[i] == ScanInfo(script[i].comps, 0, 63, 0, 0)
  }

  lemma {:induction false} SentIs(script: seq<ScanInfo>, j: nat, ci: int)
    requires j <= |script| && AllComplete(script, j)
    ensures LastAl(script[..j], ci, 0) >= 0 <==> SentBefore(script, j, ci)
  {
    var i := LastScan(script[..j], ci, 0);
    forall m | 0 <= m < j && ci in script[m].comps ensures CodesAt(script[..j][m], ci, 0) {}
  }

  lemma {:induction false} SequentialScanIs(script: seq<ScanInfo>, j: nat, n: nat)
    requires j < |script| && AllComplete(script, j)
    ensures SequentialScan(script[..j], script[j], n) <==>
      && InFrameOrder(script[j].comps, n) && script[j] == ScanInfo(script[j].comps, 0, 63, 0, 0)
      && forall ci :: ci in script[j].comps ==> !SentBefore(script, j, ci)
  {
    var x := script[j];
    FrameOrderIs(x, n);
    forall ci ensures LastAl(script[..j], ci, 0) >= 0 <==> SentBefore(script, j, ci) {
      SentIs(script, j, ci);
    }
    if forall i :: 0 <= i < |x.comps| ==> LastAl(script[..j], x.comps[i], 0) < 0 {
      forall ci | ci in x.comps ensures !SentBefore(script, j, ci) {
        var i :| 0 <= i < |x.comps| && x.comps[i] == ci;
      }
    }
  }

  /** So are the rules for a sequential script. */
  lemma {:induction false} SequentialIs(script: seq<ScanInfo>, n: nat)
    ensures SequentialScript(script, n) <==> SequentialRules(script, n)
  {
    if SequentialScript(script, n) || SequentialRules(script, n) {
      assert AllComplete(script, |script|) by {
        forall j | 0 <= j < |script| ensures script[j] == ScanInfo(script[j].comps, 0, 63, 0, 0) {
          assert SequentialRules(script, n) || SequentialScan(script[..j], script[j], n);
        }
      }
      forall j | 0 <= j < |script|
        ensures SequentialScan(script[..j], script[j], n) <==>
          InFrameOrder(script[j].comps, n) && forall ci :: ci in script[j].comps ==> !SentBefore(script, j, ci)
      {
        SequentialScanIs(script, j, n);
      }
      assert script[..|script|] == script;
      forall ci ensures LastAl(script, ci, 0) >= 0 <==> SentBefore(script, |script|, ci) {
        SentIs(script, |script|, ci);
      }
    }
  }

  // ----- the decoder's check -----

  /** What the decoder finds wrong with a scan: parameters it refuses, or an order it warns about. */
  datatype Finding = Finding(bad: bool, warnings: nat)

  /** Progression parameters that the decoder refuses. */
  predicate Refused(x: ScanInfo, limSe: int) {
    || (if x.ss == 0 then x.se != 0 else x.se < x.ss || x.se > limSe || |x.comps| != 1)
    || (x.ah != 0 && x.ah - 1 != x.al)
    || x.al > 13
  }

  /** The decoder has nothing to warn about in component ci. */
  predicate Expected(before: seq<ScanInfo>, x: ScanInfo, ci: int) {
    && (x.ss != 0 ==> LastAl(before, ci, 0) >= 0)
    && forall k :: x.ss <= k <= x.se ==> x.ah == if LastAl(before, ci, k) < 0 then 0 else LastAl(before, ci, k)
  }

  /** Notes the new bit positions of one component and counts the coefficients that were not expected. */
  method NoteCoefficients(x: ScanInfo, table: array2<int>, cindex: nat) returns (warnings: nat)
    requires table.Length1 == 64 && cindex < table.Length0 && 0 <= x.ss <= x.se + 1 <= 64
    modifies table
    ensures warnings == 0 <==>
      && (x.ss != 0 ==> old(table[cindex, 0]) >= 0)
      && forall k :: x.ss <= k <= x.se ==> x.ah == if old(table[cindex, k]) < 0 then 0 else old(table[cindex, k])
    ensures forall ci, k :: 0 <= ci < table.Length0 && 0 <= k < 64 ==>
      table[ci, k] == if ci == cindex && x.ss <= k <= x.se then x.al else old(table[ci, k])
  {
    warnings := 0;
    if x.ss != 0 && table[cindex, 0] < 0 {
      warnings := warnings + 1;
    }
    var coefi := x.ss;
    while coefi <= x.se
      invariant x.ss <= coefi <= x.se + 1
      invariant warnings == 0 <==>
        && (x.ss != 0 ==> old(table[cindex, 0]) >= 0)
        && forall k :: x.ss <= k < coefi ==> x.ah == if old(table[cindex, k]) < 0 then 0 else old(table[cindex, k])
      invariant forall ci, k :: 0 <= ci < table.Length0 && 0 <= k < 64 ==>
        table[ci, k] == if ci == cindex && x.ss <= k < coefi then x.al else old(table[ci, k])
    {
      var expected := if table[cindex, coefi] < 0 then 0 else table[cindex, coefi];
      if x.ah != expected {
        warnings := warnings + 1;
      }
      table[cindex, coefi] := x.al;
      coefi := coefi + 1;
    }
  }

  /** Bookkeeping of the decoder at the start of a scan, for distinct components in any order. */
  method StartPass(ghost before: seq<ScanInfo>, x: ScanInfo, coefBits: array2<int>, limSe: int) returns (f: Finding)
    requires UpToDate(coefBits, before) && limSe <= 63 && 0 <= x.ss
    requires forall i :: 0 <= i < |x.comps| ==> 0 <= x.comps[i] < coefBits.Length0
    requires forall i, j :: 0 <= i < j < |x.comps| ==> x.comps[i] != x.comps[j]
    modifies coefBits
    ensures f.bad <==> Refused(x, limSe)
    ensures !f.bad ==> UpToDate(coefBits, before + [x])
    ensures !f.bad ==> (f.warnings == 0 <==> forall i :: 0 <= i < |x.comps| ==> Expected(before, x, x.comps[i]))
  {
    if x.ss == 0 {
      if x.se != 0 { return Finding(true, 0); }
    } else {
      if x.se < x.ss || x.se > limSe { return Finding(true, 0); }
      if |x.comps| != 1 { return Finding(true, 0); }
    }
    if x.ah != 0 {
      if x.ah - 1 != x.al { return Finding(true, 0); }
    }
    if x.al > 13 { return Finding(true, 0); }
    f := Finding(false, 0);
    for c := 0 to |x.comps|
      invariant !f.bad && coefBits.Length1 == 64
      invariant f.warnings == 0 <==> forall i :: 0 <= i < c ==> Expected(before, x, x.comps[i])
      invariant forall ci, k :: 0 <= ci < coefBits.Length0 && 0 <= k < 64 ==>
        coefBits[ci, k] == if ci in x.comps[..c] && x.ss <= k <= x.se then x.al else LastAl(before, ci, k)
    {
      assert x.comps[c] !in x.comps[..c];
      var w := NoteCoefficients(x, coefBits, x.comps[c]);
      f := Finding(false, f.warnings + w);
      assert x.comps[..c + 1] == x.comps[..c] + [x.comps[c]];
      assert w == 0 <==> Expected(before, x, x.comps[c]);
    }
    assert x.comps[..|x.comps|] == x.comps;
    forall ci, k | 0 <= ci < coefBits.Length0 && 0 <= k < 64 ensures coefBits[ci, k] == LastAl(before + [x], ci, k) {
      LastAlAppend(before, x, ci, k);
    }
  }

  /** The decoder neither refuses nor warns about a scan that the encoder accepts. */
  lemma AcceptedScanExpected(before: seq<ScanInfo>, x: ScanInfo, n: nat)
    requires ScanOk(before, x, n)
    ensures !Refused(x, 63) && forall i :: 0 <= i < |x.comps| ==> Expected(before, x, x.comps[i])
  {
    if x.ah != 0 {
      assert ProgressionOk(before, x, x.comps[0]);
      assert StepOk(LastAl(before, x.comps[0], x.ss), x);
    }
  }

  lemma AcceptedDistinct(x: ScanInfo, n: nat)
    requires ComponentsOk(x, n)
    ensures forall i, j :: 0 <= i < j < |x.comps| ==> x.comps[i] != x.comps[j]
  {
    forall i, j | 0 <= i < j < |x.comps| ensures x.comps[i] != x.comps[j] {
      Increasing(x, j);
    }
  }

  /** A decoder that goes through an accepted script never warns. */
  method FollowScript(script: seq<ScanInfo>, n: nat) returns (warnings: nat, refused: bool)
    requires ScansOk(script, n)
    ensures warnings == 0 && !refused
  {
    var coefBits := new int[n, 64]((_, _) => -1);
    warnings, refused := 0, false;
    for j := 0 to |script|
      invariant fresh(coefBits) && UpToDate(coefBits, script[..j]) && warnings == 0 && !refused && coefBits.Length0 == n
    {
      AcceptedScanExpected(script[..j], script[j], n);
      AcceptedDistinct(script[j], n);
      var f := StartPass(script[..j], script[j], coefBits, 63);
      warnings, refused := warnings + f.warnings, refused || f.bad;
      assert script[..j + 1] == script[..j] + [script[j]];
    }
  }
}
