/** How the probability estimates behave: the bin with the fixed estimate, bins that were not used yet, and
    what one decision does to an estimate. */
module Estimation {
  import opened Powers
  import opened ProbabilityTable
  import opened CodeInterval

  /** Statistics driven by the source's table, in whose areas the fixed bin does not occur. */
  predicate Regular(stats: Stats) {
    stats.machine == JpegAritab() && Fixed !in stats.bins
  }

  lemma FixedEntry()
    ensures JpegAritab()[113] == Entry(0x5a1d, 113, 113, false)
  {
    TableClosed(113);
  }

  lemma StepRegular(s: Coder, d: Decision)
    requires 0x8000 <= s.a <= 0x1_0000 && Regular(s.stats)
    ensures Regular(Step(s, d).stats)
  {
    FixedEntry();
  }

  lemma {:induction false} RunRegular(s: Coder, ds: seq<Decision>)
    requires 0x8000 <= s.a <= 0x1_0000 && Regular(s.stats)
    ensures Regular(Run(s, ds).stats)
    decreases |ds|
  {
    if ds != [] {
      StepRegular(s, ds[0]);
      RunRegular(Step(s, ds[0]), ds[1..]);
    }
  }

  /** The fixed estimate: Qe is 0x5a1d, and zero is the more probable symbol. */
  lemma FixedEstimate(stats: Stats)
    requires Regular(stats)
    ensures stats.EntryOf(Fixed).qe == 0x5a1d && !stats.Get(Fixed).mps
  {
    FixedEntry();
  }

  /** A decision in another bin does not change an estimate. */
  lemma {:induction false} UnusedKept(s: Coder, ds: seq<Decision>, bin: Bin)
    requires 0x8000 <= s.a <= 0x1_0000 && forall i :: 0 <= i < |ds| ==> ds[i].bin != bin
    ensures Run(s, ds).stats.Get(bin) == s.stats.Get(bin) && (bin in Run(s, ds).stats.bins <==> bin in s.stats.bins)
    decreases |ds|
  {
    if ds != [] {
      UnusedKept(Step(s, ds[0]), ds[1..], bin);
    }
  }

  /** One decision in full. The estimate of its bin is the table entry that its state points to. The interval
      shrinks to the part for the symbol coded and is doubled until it is large enough; the bin goes on to
      the state that was chosen, and no other bin changes. */
  lemma {:induction false} StepInFull(s: Coder, d: Decision) returns (k: nat)
    requires 0x8000 <= s.a <= 0x1_0000
    ensures var st := s.stats.Get(d.bin); var e := s.stats.machine[st.index];
      var likely := d.bit == st.mps; var rest := s.a - e.qe; var lower := likely == (rest >= e.qe);
      var size := if lower then rest else e.qe; var r := Step(s, d);
      && r.low == Shl(if lower then s.low else s.low + rest, k) && r.a == Shl(size, k) && r.n == s.n + k
      && 0x8000 <= r.a && (k > 0 ==> r.a < 0x1_0000)
      && r.stats.machine == s.stats.machine && (forall bin :: bin != d.bin ==> r.stats.Get(bin) == s.stats.Get(bin))
      && r.stats.Get(d.bin) == if !likely then StateByte(if e.switchMps then d.bit else st.mps, e.nextLps)
                               else if size >= 0x8000 then st else StateByte(st.mps, e.nextMps)
  {
    k := Doublings(Narrow(s, d));
  }

  lemma {:induction false} Doublings(s: Coder) returns (k: nat)
    requires 0 < s.a <= 0x1_0000
    ensures Renormalize(s) == Coder(Shl(s.low, k), Shl(s.a, k), s.n + k, s.stats)
    ensures 0x8000 <= Shl(s.a, k) && (k > 0 ==> Shl(s.a, k) < 0x1_0000)
    decreases 0x1_0000 - s.a
  {
    k := 0;
    if s.a < 0x8000 {
      k := Doublings(Coder(2 * s.low, 2 * s.a, s.n + 1, s.stats));
      ShlTwice(s.low, 1, k);
      ShlTwice(s.a, 1, k);
      k := k + 1;
    }
  }

  /** Estimates adapt: after a more probable symbol Qe does not grow, and after a less probable one it does not
      shrink, unless the symbols change places, which only happens at estimates near one half. */
  lemma {:induction false} EstimatesAdapt(i: nat)
    requires i <= LAST_INDEX
    ensures var m := JpegAritab();
      && m[m[i].nextMps].qe <= m[i].qe && (m[m[i].nextLps].qe >= m[i].qe || m[i].switchMps)
      && (m[i].switchMps ==> m[i].qe >= 0x5570)
  {
    var r := Table(i);
    EntryIs(i);
    EntryIs(r.nextMps);
    EntryIs(r.nextLps);
    if i < 14 { Rows0Adapt(i, r); } else if i < 25 { Rows14Adapt(i, r); } else if i < 30 { Rows25Adapt(i, r); }
    else if i < 36 { Rows30Adapt(i, r); } else if i < 50 { Rows36Adapt(i, r); } else if i < 57 { Rows50Adapt(i, r); }
    else if i < 64 { Rows57Adapt(i, r); } else if i < 88 { Rows64Adapt(i, r); } else { Rows88Adapt(i, r); }
  }

  lemma {:induction false} EntryIs(i: nat)
    requires i <= LAST_INDEX
    ensures var e, r := JpegAritab()[i], Table(i);
      && r.nextMps <= LAST_INDEX && r.nextLps <= LAST_INDEX
      && e.qe == r.qe && e.nextMps == r.nextMps && e.nextLps == r.nextLps && (e.switchMps <==> r.switchMps == 1)
  {
    TableClosed(i);
    if i < LAST_INDEX { UnpackRow(Table(i)); } else { UnpackRow(Row(0x5a1d, 113, 113, 0)); }
  }

  predicate Adapts(r: Row, more: Row, less: Row) {
    more.qe <= r.qe && (less.qe >= r.qe || r.switchMps == 1) && (r.switchMps == 1 ==> r.qe >= 0x5570)
  }

  lemma Rows0Adapt(i: nat, r: Row)
    requires i < 14 && r == Table(i) && r.nextMps <= LAST_INDEX && r.nextLps <= LAST_INDEX
    ensures Adapts(r, Table(r.nextMps), Table(r.nextLps))
  {
    match i
    case 0 => assert Adapts(Table(0), Table(1), Table(1));
    case 1 => assert Adapts(Table(1), Table(2), Table(14));
    case 2 => assert Adapts(Table(2), Table(3), Table(16));
    case 3 => assert Adapts(Table(3), Table(4), Table(18));
    case 4 => assert Adapts(Table(4), Table(5), Table(20));
    case 5 => assert Adapts(Table(5), Table(6), Table(23));
    case 6 => assert Adapts(Table(6), Table(7), Table(25));
    case 7 => assert Adapts(Table(7), Table(8), Table(28));
    case 8 => assert Adapts(Table(8), Table(9), Table(30));
    case 9 => assert Adapts(Table(9), Table(10), Table(33));
    case 10 => assert Adapts(Table(10), Table(11), Table(35));
    case 11 => assert Adapts(Table(11), Table(12), Table(9));
    case 12 => assert Adapts(Table(12), Table(13), Table(10));
    case _ => assert Adapts(Table(13), Table(13), Table(12));
  }

  lemma Rows14Adapt(i: nat, r: Row)
    requires 14 <= i < 25 && r == Table(i) && r.nextMps <= LAST_INDEX && r.nextLps <= LAST_INDEX
    ensures Adapts(r, Table(r.nextMps), Table(r.nextLps))
  {
    match i
    case 14 => assert Adapts(Table(14), Table(15), Table(15));
    case 15 => assert Adapts(Table(15), Table(16), Table(36));
    case 16 => assert Adapts(Table(16), Table(17), Table(38));
    case 17 => assert Adapts(Table(17), Table(18), Table(39));
    case 18 => assert Adapts(Table(18), Table(19), Table(40));
    case 19 => assert Adapts(Table(19), Table(20), Table(42));
    case 20 => assert Adapts(Table(20), Table(21), Table(43));
    case 21 => assert Adapts(Table(21), Table(22), Table(45));
    case 22 => assert Adapts(Table(22), Table(23), Table(46));
    case 23 => assert Adapts(Table(23), Table(24), Table(48));
    case _ => assert Adapts(Table(24), Table(25), Table(49));
  }

  lemma Rows25Adapt(i: nat, r: Row)
    requires 25 <= i < 30 && r == Table(i) && r.nextMps <= LAST_INDEX && r.nextLps <= LAST_INDEX
    ensures Adapts(r, Table(r.nextMps), Table(r.nextLps))
  {
    match i
    case 25 => assert Adapts(Table(25), Table(26), Table(51));
    case 26 => assert Adapts(Table(26), Table(27), Table(52));
    case 27 => assert Adapts(Table(27), Table(28), Table(54));
    case 28 => assert Adapts(Table(28), Table(29), Table(56));
    case _ => assert Adapts(Table(29), Table(30), Table(57));
  }

  lemma Rows30Adapt(i: nat, r: Row)
    requires 30 <= i < 36 && r == Table(i) && r.nextMps <= LAST_INDEX && r.nextLps <= LAST_INDEX
    ensures Adapts(r, Table(r.nextMps), Table(r.nextLps))
  {
    match i
    case 30 => assert Adapts(Table(30), Table(31), Table(59));
    case 31 => assert Adapts(Table(31), Table(32), Table(60));
    case 32 => assert Adapts(Table(32), Table(33), Table(62));
    case 33 => assert Adapts(Table(33), Table(34), Table(63));
    case 34 => assert Adapts(Table(34), Table(35), Table(32));
    case _ => assert Adapts(Table(35), Table(9), Table(33));
  }

  lemma Rows36Adapt(i: nat, r: Row)
    requires 36 <= i < 50 && r == Table(i) && r.nextMps <= LAST_INDEX && r.nextLps <= LAST_INDEX
    ensures Adapts(r, Table(r.nextMps), Table(r.nextLps))
  {
    match i
    case 36 => assert Adapts(Table(36), Table(37), Table(37));
    case 37 => assert Adapts(Table(37), Table(38), Table(64));
    case 38 => assert Adapts(Table(38), Table(39), Table(65));
    case 39 => assert Adapts(Table(39), Table(40), Table(67));
    case 40 => assert Adapts(Table(40), Table(41), Table(68));
    case 41 => assert Adapts(Table(41), Table(42), Table(69));
    case 42 => assert Adapts(Table(42), Table(43), Table(70));
    case 43 => assert Adapts(Table(43), Table(44), Table(72));
    case 44 => assert Adapts(Table(44), Table(45), Table(73));
    case 45 => assert Adapts(Table(45), Table(46), Table(74));
    case 46 => assert Adapts(Table(46), Table(47), Table(75));
    case 47 => assert Adapts(Table(47), Table(48), Table(77));
    case 48 => assert Adapts(Table(48), Table(49), Table(78));
    case _ => assert Adapts(Table(49), Table(50), Table(79));
  }

  lemma Rows50Adapt(i: nat, r: Row)
    requires 50 <= i < 57 && r == Table(i) && r.nextMps <= LAST_INDEX && r.nextLps <= LAST_INDEX
    ensures Adapts(r, Table(r.nextMps), Table(r.nextLps))
  {
    match i
    case 50 => assert Adapts(Table(50), Table(51), Table(48));
    case 51 => assert Adapts(Table(51), Table(52), Table(50));
    case 52 => assert Adapts(Table(52), Table(53), Table(50));
    case 53 => assert Adapts(Table(53), Table(54), Table(51));
    case 54 => assert Adapts(Table(54), Table(55), Table(52));
    case 55 => assert Adapts(Table(55), Table(56), Table(53));
    case _ => assert Adapts(Table(56), Table(57), Table(54));
  }

  lemma Rows57Adapt(i: nat, r: Row)
    requires 57 <= i < 64 && r == Table(i) && r.nextMps <= LAST_INDEX && r.nextLps <= LAST_INDEX
    ensures Adapts(r, Table(r.nextMps), Table(r.nextLps))
  {
    match i
    case 57 => assert Adapts(Table(57), Table(58), Table(55));
    case 58 => assert Adapts(Table(58), Table(59), Table(56));
    case 59 => assert Adapts(Table(59), Table(60), Table(57));
    case 60 => assert Adapts(Table(60), Table(61), Table(58));
    case 61 => assert Adapts(Table(61), Table(62), Table(59));
    case 62 => assert Adapts(Table(62), Table(63), Table(61));
    case _ => assert Adapts(Table(63), Table(32), Table(61));
  }

  lemma Rows64Adapt(i: nat, r: Row)
    requires 64 <= i < 88 && r == Table(i) && r.nextMps <= LAST_INDEX && r.nextLps <= LAST_INDEX
    ensures Adapts(r, Table(r.nextMps), Table(r.nextLps))
  {
    match i
    case 64 => assert Adapts(Table(64), Table(65), Table(65));
    case 65 => assert Adapts(Table(65), Table(66), Table(80));
    case 66 => assert Adapts(Table(66), Table(67), Table(81));
    case 67 => assert Adapts(Table(67), Table(68), Table(82));
    case 68 => assert Adapts(Table(68), Table(69), Table(83));
    case 69 => assert Adapts(Table(69), Table(70), Table(84));
    case 70 => assert Adapts(Table(70), Table(71), Table(86));
    case 71 => assert Adapts(Table(71), Table(72), Table(87));
    case 72 => assert Adapts(Table(72), Table(73), Table(87));
    case 73 => assert Adapts(Table(73), Table(74), Table(72));
    case 74 => assert Adapts(Table(74), Table(75), Table(72));
    case 75 => assert Adapts(Table(75), Table(76), Table(74));
    case 76 => assert Adapts(Table(76), Table(77), Table(74));
    case 77 => assert Adapts(Table(77), Table(78), Table(75));
    case 78 => assert Adapts(Table(78), Table(79), Table(77));
    case 79 => assert Adapts(Table(79), Table(48), Table(77));
    case 80 => assert Adapts(Table(80), Table(81), Table(80));
    case 81 => assert Adapts(Table(81), Table(82), Table(88));
    case 82 => assert Adapts(Table(82), Table(83), Table(89));
    case 83 => assert Adapts(Table(83), Table(84), Table(90));
    case 84 => assert Adapts(Table(84), Table(85), Table(91));
    case 85 => assert Adapts(Table(85), Table(86), Table(92));
    case 86 => assert Adapts(Table(86), Table(87), Table(93));
    case _ => assert Adapts(Table(87), Table(71), Table(86));
  }

  lemma Rows88Adapt(i: nat, r: Row)
    requires 88 <= i < 114 && r == Table(i) && r.nextMps <= LAST_INDEX && r.nextLps <= LAST_INDEX
    ensures Adapts(r, Table(r.nextMps), Table(r.nextLps))
  {
    match i
    case 88 => assert Adapts(Table(88), Table(89), Table(88));
    case 89 => assert Adapts(Table(89), Table(90), Table(95));
    case 90 => assert Adapts(Table(90), Table(91), Table(96));
    case 91 => assert Adapts(Table(91), Table(92), Table(97));
    case 92 => assert Adapts(Table(92), Table(93), Table(99));
    case 93 => assert Adapts(Table(93), Table(94), Table(99));
    case 94 => assert Adapts(Table(94), Table(86), Table(93));
    case 95 => assert Adapts(Table(95), Table(96), Table(95));
    case 96 => assert Adapts(Table(96), Table(97), Table(101));
    case 97 => assert Adapts(Table(97), Table(98), Table(102));
    case 98 => assert Adapts(Table(98), Table(99), Table(103));
    case 99 => assert Adapts(Table(99), Table(100), Table(104));
    case 100 => assert Adapts(Table(100), Table(93), Table(99));
    case 101 => assert Adapts(Table(101), Table(102), Table(105));
    case 102 => assert Adapts(Table(102), Table(103), Table(106));
    case 103 => assert Adapts(Table(103), Table(104), Table(107));
    case 104 => assert Adapts(Table(104), Table(99), Table(103));
    case 105 => assert Adapts(Table(105), Table(106), Table(105));
    case 106 => assert Adapts(Table(106), Table(107), Table(108));
    case 107 => assert Adapts(Table(107), Table(103), Table(109));
    case 108 => assert Adapts(Table(108), Table(109), Table(110));
    case 109 => assert Adapts(Table(109), Table(107), Table(111));
    case 110 => assert Adapts(Table(110), Table(111), Table(110));
    case 111 => assert Adapts(Table(111), Table(109), Table(112));
    case 112 => assert Adapts(Table(112), Table(111), Table(112));
    case _ => assert Adapts(Table(113), Table(113), Table(113));
  }
}
