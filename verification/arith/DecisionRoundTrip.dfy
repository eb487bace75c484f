/** Coding a list of decisions and decoding it again, with the registers of both sides. */
module DecisionRoundTrip {
  import opened Powers
  import opened ByteStream
  import opened CodeInterval
  import opened Estimation
  import opened Termination
  import ArithEncoder
  import ArithDecoder

  function Fresh(stats: Stats): (s: Coder)
    ensures 0x8000 <= s.a <= 0x1_0000
  {
    Coder(0, 0x1_0000, 0, stats)
  }

  /** The statistics before each of the decisions, and after the last one. */
  ghost predicate Traces(trace: seq<Stats>, s: Coder, ds: seq<Decision>)
    requires 0x8000 <= s.a <= 0x1_0000
  {
    |trace| == |ds| + 1 && forall i :: 0 <= i <= |ds| ==> trace[i] == Run(s, ds[..i]).stats
  }

  lemma TraceMore(trace: seq<Stats>, s: Coder, ds: seq<Decision>, d: Decision, stats: Stats)
    requires 0x8000 <= s.a <= 0x1_0000 && Traces(trace, s, ds)
    requires stats == Run(s, ds + [d]).stats
    ensures Traces(trace + [stats], s, ds + [d])
  {
    forall i | 0 <= i <= |ds| + 1 ensures (trace + [stats])[i] == Run(s, (ds + [d])[..i]).stats {
      if i <= |ds| {
        assert (ds + [d])[..i] == ds[..i];
      } else {
        assert (ds + [d])[..i] == ds + [d];
      }
    }
  }

  /** In all of the statistics the fixed bin has its estimate, and a bin is at the start until it is used. */
  ghost predicate AllRegular(trace: seq<Stats>, stats: Stats, ds: seq<Decision>) {
    forall i :: 0 <= i < |trace| && i <= |ds| ==>
      && trace[i].EntryOf(Fixed).qe == 0x5a1d && !trace[i].Get(Fixed).mps
      && forall bin :: bin != Fixed && bin !in stats.bins && bin !in Bins(ds[..i]) ==> trace[i].Get(bin) == StateByte(false, 0)
  }

  lemma {:induction false} TraceRegular(trace: seq<Stats>, stats: Stats, ds: seq<Decision>)
    requires Traces(trace, Fresh(stats), ds) && Regular(stats)
    ensures AllRegular(trace, stats, ds)
  {
    forall i | 0 <= i <= |ds|
      ensures trace[i].EntryOf(Fixed).qe == 0x5a1d && !trace[i].Get(Fixed).mps
      ensures forall bin :: bin != Fixed && bin !in stats.bins && bin !in Bins(ds[..i]) ==> trace[i].Get(bin) == StateByte(false, 0)
    {
      RunRegular(Fresh(stats), ds[..i]);
      FixedEstimate(trace[i]);
      forall bin | bin != Fixed && bin !in stats.bins && bin !in Bins(ds[..i]) ensures trace[i].Get(bin) == StateByte(false, 0) {
        forall k | 0 <= k < i ensures ds[..i][k].bin != bin { assert Bins(ds[..i])[k] == ds[k].bin; }
        UnusedKept(Fresh(stats), ds[..i], bin);
      }
    }
  }

  lemma TraceNone(s: Coder)
    requires 0x8000 <= s.a <= 0x1_0000
    ensures Traces([s.stats], s, [])
  {
  }

  lemma FreshNormal(stats: Stats)
    ensures Normal(Fresh(stats))
  {
    PowerValues();
  }

  /** Codes the decisions of a new segment and ends it: what is written is the one byte string that
      stands for them. */
  method EncodeDecisions(e: ArithEncoder.Encoder, stats: Stats, ds: seq<Decision>) returns (trace: seq<Stats>)
    modifies e
    ensures e.out == old(e.out) + Stuff(SegmentData(Run(Fresh(stats), ds)))
    ensures Traces(trace, Fresh(stats), ds)
    ensures Regular(stats) ==> AllRegular(trace, stats, ds)
  {
    e.ResetRegisters(stats);
    TraceNone(Fresh(stats));
    e.StatsTraced();
    trace := [e.stats];
    for i := 0 to |ds|
      invariant e.Valid() && e.origin == Fresh(stats) && e.coded == ds[..i] && e.prefix == old(e.out)
      invariant Traces(trace, Fresh(stats), ds[..i])
    {
      e.ArithEncode(ds[i].bin, ds[i].bit);
      assert ds[..i + 1] == ds[..i] + [ds[i]];
      e.StatsTraced();
      TraceMore(trace, Fresh(stats), ds[..i], ds[i], e.stats);
      trace := trace + [e.stats];
    }
    assert ds[..|ds|] == ds;
    e.FinishPass();
    FreshNormal(stats);
    RunNormal(Fresh(stats), ds);
    SegmentIsData(e.data, Run(Fresh(stats), ds));
    if Regular(stats) { TraceRegular(trace, stats, ds); }
  }

  /** Decodes decisions in the given bins. Whatever the input is, what the registers read is what the code
      bytes up to the next marker stand for. */
  method DecodeDecisions(d: ArithDecoder.Decoder, bins: seq<Bin>) returns (bits: seq<bool>, trace: seq<Stats>)
    requires d.Valid() && d.decoded == []
    modifies d
    ensures d.Valid() && d.seg == old(d.seg) && d.origin == old(d.origin) && 0x8000 <= d.origin.a <= 0x1_0000
    ensures bits == ReadBits(d.seg.data, d.origin, bins)
    ensures Traces(trace, d.origin, Decisions(bins, bits))
  {
    d.ValidConsistent();
    d.StatsTraced();
    TraceNone(d.origin);
    bits, trace := [], [d.stats];
    ghost var ds: seq<Decision> := [];
    for i := 0 to |bins|
      invariant d.Valid() && d.seg == old(d.seg) && d.origin == old(d.origin) && 0x8000 <= d.origin.a <= 0x1_0000
      invariant d.decoded == ds && |bits| == i && ds == Decisions(bins[..i], bits)
      invariant Traces(trace, d.origin, ds)
    {
      var bit := d.ArithDecode(bins[i]);
      d.ValidConsistent();
      d.StatsTraced();
      TraceMore(trace, d.origin, ds, Decision(bins[i], bit), d.stats);
      bits, trace, ds := bits + [bit], trace + [d.stats], ds + [Decision(bins[i], bit)];
    }
    assert bins[..|bins|] == bins;
    BitsAreRead(d, bins, bits);
  }

  lemma BitsAreRead(d: ArithDecoder.Decoder, bins: seq<Bin>, bits: seq<bool>)
    requires d.Valid() && 0x8000 <= d.origin.a <= 0x1_0000 && |bins| == |bits| && d.decoded == Decisions(bins, bits)
    ensures bits == ReadBits(d.seg.data, d.origin, bins)
  {
    d.ValidConsistent();
    d.CodeInside();
    RoundTrip(d.seg.data, d.origin, d.decoded);
    assert Bins(d.decoded) == bins && Bits(d.decoded) == bits;
  }

  /** Any decisions, coded in a new segment, ended, and followed by a marker and whatever else, are decoded
      as they were; before each of them both sides have the same statistics, and the decoder stops
      at the marker. No other code bytes that decode to these decisions are fewer. */
  method EncodeAndDecode(e: ArithEncoder.Encoder, stats: Stats, ds: seq<Decision>, marker: byte, rest: seq<byte>)
    returns (bits: seq<bool>, coding: seq<Stats>, decoding: seq<Stats>, d: ArithDecoder.Decoder)
    requires marker != 0 && marker != 0xFF
    modifies e
    ensures bits == Bits(ds)
    ensures coding == decoding && Traces(decoding, Fresh(stats), ds) && (Regular(stats) ==> AllRegular(decoding, stats, ds))
    ensures fresh(d) && d.Valid() && d.seg == Segment(SegmentData(Run(Fresh(stats), ds)), marker, rest)
    ensures e.out == old(e.out) + Stuff(d.seg.data)
    ensures forall other :: ReadBits(other, Fresh(stats), Bins(ds)) == bits ==> |d.seg.data| <= |other|
  {
    var start := |e.out|;
    coding := EncodeDecisions(e, stats, ds);
    ghost var data := SegmentData(Run(Fresh(stats), ds));
    assert e.out[start..] == Stuff(data);
    ReadBackSegment(data, marker, rest);
    d := new ArithDecoder.Decoder(e.out[start..] + [0xFF, marker] + rest, stats);
    bits, decoding := DecodeDecisions(d, Bins(ds));
    FreshNormal(stats);
    RunNormal(Fresh(stats), ds);
    SegmentDataIs(Run(Fresh(stats), ds));
    SegmentRoundTrip(data, Fresh(stats), ds);
    forall other | ReadBits(other, Fresh(stats), Bins(ds)) == bits ensures |data| <= |other| {
      CodeInUnit(other, stats);
    }
    DecisionsOfParts(ds);
    SameTraces(coding, decoding, Fresh(stats), ds);
  }

  /** Every byte string is a code in the interval that a segment starts with. */
  lemma CodeInUnit(data: seq<byte>, stats: Stats)
    ensures Inside(data, Fresh(stats))
  {
    CodeIsFloor(data, 0);
    ArithDecoder.InsideUnit(data, stats);
  }

  lemma SameTraces(x: seq<Stats>, y: seq<Stats>, s: Coder, ds: seq<Decision>)
    requires 0x8000 <= s.a <= 0x1_0000 && Traces(x, s, ds) && Traces(y, s, ds)
    ensures x == y
  {
    forall i | 0 <= i < |x| ensures x[i] == y[i] {
      assert x[i] == Run(s, ds[..i]).stats;
    }
  }
}
