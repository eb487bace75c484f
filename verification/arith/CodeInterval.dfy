/** Adaptive binary arithmetic coding in exact arithmetic (Annex D of ITU-T T.81): a coder state
    is an interval of binary fractions, and every decision replaces it by one of two halves. */
module CodeInterval {
  import opened Powers
  import opened ByteStream
  import opened ProbabilityTable

  /** A statistics bin: an offset into the DC or AC statistics area of a conditioning table, or the
      bin with the fixed estimate. */
  datatype Bin = Dc(tbl: nat, index: nat) | Ac(tbl: nat, index: nat) | Fixed {

    /** The bin d places further in its area. */
    function Plus(d: nat): Bin {
      match this
      case Dc(t, i) => Dc(t, i + d)
      case Ac(t, i) => Ac(t, i + d)
      case Fixed => Fixed
    }
  }

  datatype Decision = Decision(bin: Bin, bit: bool)

  /** A bin's byte: bit 7 is the sense of the more probable symbol, the rest a table index. */
  datatype StateByte = StateByte(mps: bool, index: nat)

  type State = s: StateByte | s.index <= LAST_INDEX witness StateByte(false, 0)

  /** The statistics areas with the table that drives them. Bins that were never used since the
      areas were cleared are absent. */
  datatype Stats = Stats(machine: Machine, bins: map<Bin, State>) {

    function Get(bin: Bin): State {
      if bin in bins then bins[bin] else StateByte(false, if bin.Fixed? then LAST_INDEX else 0)
    }

    /** The table entry for a bin's current state. */
    function EntryOf(bin: Bin): (e: Entry)
      ensures Usable(e)
    {
      machine[Get(bin).index]
    }

    function Put(bin: Bin, s: State): Stats {
      if s == Get(bin) then this else Stats(machine, bins[bin := s])
    }
  }

  /** The part of an interval of size a that one decision selects, and the bin's next state. */
  datatype Part = Part(offset: nat, size: nat, state: State)

  /** The more probable symbol takes the lower part, unless that is smaller than Qe. */
  function Select(a: nat, s: State, e: Entry, bit: bool): (p: Part)
    requires 0x8000 <= a <= 0x1_0000 && Usable(e)
    ensures 0 < p.size && p.offset + p.size <= a
  {
    var m := a - e.qe;
    if bit != s.mps then
      var next := StateByte(s.mps != e.switchMps, e.nextLps);
      if m >= e.qe then Part(m, e.qe, next) else Part(0, m, next)
    else if m >= 0x8000 then Part(0, m, s)
    else
      var next := StateByte(s.mps, e.nextMps);
      if m < e.qe then Part(m, e.qe, next) else Part(0, m, next)
  }

  /** The interval [low, low + a) in units of 2^-(16 + n), and the statistics. */
  datatype Coder = Coder(low: nat, a: nat, n: nat, stats: Stats)

  predicate Normal(s: Coder) {
    0x8000 <= s.a <= 0x1_0000 && s.low + s.a <= Pow2(16 + s.n)
  }

  function Initial(m: Machine): Coder {
    Coder(0, 0x1_0000, 0, Stats(m, map[]))
  }

  /** Doubles the resolution until the interval size is at least 0x8000 again. */
  function Renormalize(s: Coder): (r: Coder)
    requires 0 < s.a <= 0x1_0000
    ensures 0x8000 <= r.a <= 0x1_0000 && r.stats == s.stats
    decreases 0x1_0000 - s.a
  {
    if s.a >= 0x8000 then s
    else Renormalize(Coder(2 * s.low, 2 * s.a, s.n + 1, s.stats))
  }

  function Narrow(s: Coder, d: Decision): (r: Coder)
    requires 0x8000 <= s.a <= 0x1_0000
    ensures 0 < r.a <= 0x1_0000
  {
    var p := Select(s.a, s.stats.Get(d.bin), s.stats.EntryOf(d.bin), d.bit);
    Coder(s.low + p.offset, p.size, s.n, s.stats.Put(d.bin, p.state))
  }

  function Step(s: Coder, d: Decision): (r: Coder)
    requires 0x8000 <= s.a <= 0x1_0000
    ensures 0x8000 <= r.a <= 0x1_0000
  {
    Renormalize(Narrow(s, d))
  }

  function Run(s: Coder, ds: seq<Decision>): (r: Coder)
    requires 0x8000 <= s.a <= 0x1_0000
    ensures 0x8000 <= r.a <= 0x1_0000
    decreases |ds|
  {
    if ds == [] then s else Run(Step(s, ds[0]), ds[1..])
  }

  // ----- code points -----

  /** The code bytes, read as a binary fraction with zeros behind them, lie in the interval. */
  predicate Inside(data: seq<byte>, s: Coder) {
    s.low * Pow2(8 * |data|) <= Value(data) * Pow2(16 + s.n) < (s.low + s.a) * Pow2(8 * |data|)
  }

  /** The two outcomes of a decision split the interval: the lower part ends where the upper starts. */
  lemma SelectSplits(a: nat, s: State, e: Entry)
    requires 0x8000 <= a <= 0x1_0000 && Usable(e)
    ensures var p0, p1 := Select(a, s, e, false), Select(a, s, e, true);
      || (p0.offset == 0 && p0.size == p1.offset && p1.offset + p1.size == a)
      || (p1.offset == 0 && p1.size == p0.offset && p0.offset + p0.size == a)
  {
  }

  lemma {:induction false} RenormalizeInside(data: seq<byte>, s: Coder)
    requires 0 < s.a <= 0x1_0000
    ensures Inside(data, Renormalize(s)) <==> Inside(data, s)
    decreases 0x1_0000 - s.a
  {
    if s.a < 0x8000 {
      DoubleInside(data, s);
      RenormalizeInside(data, Coder(2 * s.low, 2 * s.a, s.n + 1, s.stats));
    }
  }

  lemma DoubleInside(data: seq<byte>, s: Coder)
    ensures Inside(data, Coder(2 * s.low, 2 * s.a, s.n + 1, s.stats)) <==> Inside(data, s)
  {
    var w, v, p := Pow2(8 * |data|), Value(data), Pow2(16 + s.n);
    assert (2 * s.low) * w == 2 * (s.low * w);
    assert (2 * s.low + 2 * s.a) * w == 2 * ((s.low + s.a) * w);
    assert v * (2 * p) == 2 * (v * p);
  }

  /** A code point in the interval lies in exactly one of the two parts. */
  lemma ExactlyOneBit(data: seq<byte>, s: Coder, bin: Bin)
    requires 0x8000 <= s.a <= 0x1_0000
    ensures !(Inside(data, Step(s, Decision(bin, false))) && Inside(data, Step(s, Decision(bin, true))))
    ensures Inside(data, s) <==>
      Inside(data, Step(s, Decision(bin, false))) || Inside(data, Step(s, Decision(bin, true)))
  {
    SelectSplits(s.a, s.stats.Get(bin), s.stats.EntryOf(bin));
    var p0 := Select(s.a, s.stats.Get(bin), s.stats.EntryOf(bin), false);
    var p1 := Select(s.a, s.stats.Get(bin), s.stats.EntryOf(bin), true);
    var w, v := Pow2(8 * |data|), Value(data) * Pow2(16 + s.n);
    RenormalizeInside(data, Narrow(s, Decision(bin, false)));
    RenormalizeInside(data, Narrow(s, Decision(bin, true)));
    var cut := if p0.offset == 0 then p1.offset else p0.offset;
    ScaleOrder(s.low, s.low + cut, w);
    ScaleOrder(s.low + cut, s.low + s.a, w);
  }

  lemma {:induction false} RunInside(data: seq<byte>, s: Coder, ds: seq<Decision>)
    requires 0x8000 <= s.a <= 0x1_0000
    requires Inside(data, Run(s, ds))
    ensures Inside(data, s)
    decreases |ds|
  {
    if ds != [] {
      RunInside(data, Step(s, ds[0]), ds[1..]);
      ExactlyOneBit(data, s, ds[0].bin);
      assert ds[0] == Decision(ds[0].bin, ds[0].bit);
    }
  }

  lemma {:induction false} RunConcat(s: Coder, x: seq<Decision>, y: seq<Decision>)
    requires 0x8000 <= s.a <= 0x1_0000
    ensures Run(s, x + y) == Run(Run(s, x), y)
    decreases |x|
  {
    if x == [] {
      assert x + y == y;
    } else {
      assert (x + y)[1..] == x[1..] + y;
      RunConcat(Step(s, x[0]), x[1..], y);
    }
  }

  lemma RunAppend(s: Coder, ds: seq<Decision>, d: Decision)
    requires 0x8000 <= s.a <= 0x1_0000
    ensures Run(s, ds + [d]) == Step(Run(s, ds), d)
  {
    RunConcat(s, ds, [d]);
    assert Run(Run(s, ds), [d]) == Run(Step(Run(s, ds), d), []);
  }

  /** If the code point lies where the decisions ds lead, then it forces the first of them. */
  lemma FirstIsForced(data: seq<byte>, s: Coder, ds: seq<Decision>, bit: bool)
    requires 0x8000 <= s.a <= 0x1_0000 && ds != []
    requires Inside(data, Run(s, ds))
    requires Inside(data, Step(s, Decision(ds[0].bin, bit)))
    ensures bit == ds[0].bit
  {
    RunInside(data, Step(s, ds[0]), ds[1..]);
    ExactlyOneBit(data, s, ds[0].bin);
    assert ds[0] == Decision(ds[0].bin, ds[0].bit);
  }

  // ----- divergence -----

  /** The first difference between the two lists is the outcome of a decision in the same bin. */
  predicate Diverge(x: seq<Decision>, y: seq<Decision>)
    decreases |x|
  {
    x != [] && y != [] && x[0].bin == y[0].bin && (x[0].bit != y[0].bit || Diverge(x[1..], y[1..]))
  }

  lemma {:induction false} DivergeMore(x: seq<Decision>, y: seq<Decision>, s: seq<Decision>, t: seq<Decision>)
    requires Diverge(x, y)
    ensures Diverge(x + s, y + t)
    decreases |x|
  {
    if x[0].bit == y[0].bit {
      DivergeMore(x[1..], y[1..], s, t);
      assert (x + s)[1..] == x[1..] + s;
      assert (y + t)[1..] == y[1..] + t;
    }
  }

  lemma {:induction false} DivergeAfter(p: seq<Decision>, x: seq<Decision>, y: seq<Decision>)
    requires Diverge(x, y)
    ensures Diverge(p + x, p + y)
    decreases |p|
  {
    if p == [] {
      assert p + x == x && p + y == y;
    } else {
      DivergeAfter(p[1..], x, y);
      assert (p + x)[1..] == p[1..] + x;
      assert (p + y)[1..] == p[1..] + y;
    }
  }

  lemma DivergeAt(x: seq<Decision>, y: seq<Decision>, i: nat)
    requires i < |x| && i < |y| && x[..i] == y[..i]
    requires x[i].bin == y[i].bin && x[i].bit != y[i].bit
    ensures Diverge(x, y)
  {
    assert x == x[..i] + x[i..] && y == x[..i] + y[i..];
    DivergeAfter(x[..i], x[i..], y[i..]);
  }

  /** One code point cannot lie where two lists lead that diverge. */
  lemma {:induction false} NoDivergence(data: seq<byte>, s: Coder, x: seq<Decision>, y: seq<Decision>)
    requires 0x8000 <= s.a <= 0x1_0000
    requires Inside(data, Run(s, x)) && Inside(data, Run(s, y))
    ensures !Diverge(x, y)
    decreases |x|
  {
    if Diverge(x, y) {
      RunInside(data, Step(s, x[0]), x[1..]);
      FirstIsForced(data, s, y, x[0].bit);
      assert x[0] == Decision(y[0].bin, x[0].bit) == y[0];
      NoDivergence(data, Step(s, x[0]), x[1..], y[1..]);
    }
  }

  // ----- reading decisions back -----

  /** What a decoder returns for a list of bins: at each one, the outcome whose part holds the
      code point. */
  function ReadBits(data: seq<byte>, s: Coder, bins: seq<Bin>): (bits: seq<bool>)
    requires 0x8000 <= s.a <= 0x1_0000
    ensures |bits| == |bins|
    decreases |bins|
  {
    if bins == [] then []
    else
      var bit := Inside(data, Step(s, Decision(bins[0], true)));
      [bit] + ReadBits(data, Step(s, Decision(bins[0], bit)), bins[1..])
  }

  function Bins(ds: seq<Decision>): (bins: seq<Bin>)
    ensures |bins| == |ds|
  {
    seq(|ds|, i requires 0 <= i < |ds| => ds[i].bin)
  }

  function Bits(ds: seq<Decision>): (bits: seq<bool>)
    ensures |bits| == |ds|
  {
    seq(|ds|, i requires 0 <= i < |ds| => ds[i].bit)
  }

  function Decisions(bins: seq<Bin>, bits: seq<bool>): (ds: seq<Decision>)
    requires |bins| == |bits|
  {
    seq(|bins|, i requires 0 <= i < |bins| => Decision(bins[i], bits[i]))
  }

  lemma DecisionsOfParts(ds: seq<Decision>)
    ensures Decisions(Bins(ds), Bits(ds)) == ds
  {
  }

  lemma PartsOfTail(ds: seq<Decision>)
    requires ds != []
    ensures Bins(ds) == [ds[0].bin] + Bins(ds[1..])
    ensures Bits(ds) == [ds[0].bit] + Bits(ds[1..])
  {
  }

  /** Round trip: any code point of the final interval reads back every decision, and the decoder
      ends with the encoder's interval and statistics. */
  lemma {:induction false} RoundTrip(data: seq<byte>, s: Coder, ds: seq<Decision>)
    requires 0x8000 <= s.a <= 0x1_0000
    requires Inside(data, Run(s, ds))
    ensures ReadBits(data, s, Bins(ds)) == Bits(ds)
    ensures Run(s, Decisions(Bins(ds), ReadBits(data, s, Bins(ds)))) == Run(s, ds)
    decreases |ds|
  {
    DecisionsOfParts(ds);
    if ds != [] {
      var bit := Inside(data, Step(s, Decision(ds[0].bin, true)));
      assert bit == ds[0].bit by {
        RunInside(data, s, ds);
        ExactlyOneBit(data, s, ds[0].bin);
        FirstIsForced(data, s, ds, bit);
      }
      RoundTrip(data, Step(s, ds[0]), ds[1..]);
      PartsOfTail(ds);
    }
  }

  /** And conversely: code bytes read back the decisions only if they lie in the final interval. */
  lemma {:induction false} ReadBackOnlyInside(data: seq<byte>, s: Coder, ds: seq<Decision>)
    requires 0x8000 <= s.a <= 0x1_0000
    requires Inside(data, s)
    requires ReadBits(data, s, Bins(ds)) == Bits(ds)
    ensures Inside(data, Run(s, ds))
    decreases |ds|
  {
    if ds != [] {
      PartsOfTail(ds);
      ReadFirst(data, s, Bins(ds));
      assert Inside(data, Step(s, ds[0])) by {
        ExactlyOneBit(data, s, ds[0].bin);
        assert ds[0] == Decision(ds[0].bin, ds[0].bit);
      }
      ReadBackOnlyInside(data, Step(s, ds[0]), ds[1..]);
    }
  }

  lemma ReadFirst(data: seq<byte>, s: Coder, bins: seq<Bin>)
    requires 0x8000 <= s.a <= 0x1_0000 && bins != []
    ensures var bits := ReadBits(data, s, bins);
      && bits[0] == Inside(data, Step(s, Decision(bins[0], true)))
      && bits[1..] == ReadBits(data, Step(s, Decision(bins[0], bits[0])), bins[1..])
  {
  }

  // ----- where the interval may lie -----

  lemma {:induction false} RenormalizeNormal(s: Coder)
    requires 0 < s.a <= 0x1_0000 && s.low + s.a <= Pow2(16 + s.n)
    ensures Normal(Renormalize(s))
    decreases 0x1_0000 - s.a
  {
    if s.a < 0x8000 {
      RenormalizeNormal(Coder(2 * s.low, 2 * s.a, s.n + 1, s.stats));
    }
  }

  lemma {:induction false} RunNormal(s: Coder, ds: seq<Decision>)
    requires Normal(s)
    ensures Normal(Run(s, ds))
    decreases |ds|
  {
    if ds != [] {
      RenormalizeNormal(Narrow(s, ds[0]));
      RunNormal(Step(s, ds[0]), ds[1..]);
    }
  }

  // ----- termination -----

  /** The number in [low, low + a) with the most trailing zero bits: the multiple of 0x10000 if
      there is one, else the multiple of 0x8000. */
  function CodePoint(s: Coder): (x: nat)
    requires 0x8000 <= s.a <= 0x1_0000
    ensures s.low <= x < s.low + s.a
  {
    var t := (s.low + s.a - 1) / 0x1_0000 * 0x1_0000;
    if t < s.low then t + 0x8000 else t
  }

  lemma CodePointEven(s: Coder)
    requires 0x8000 <= s.a <= 0x1_0000
    ensures CodePoint(s) % 0x8000 == 0
  {
    var q := (s.low + s.a - 1) / 0x1_0000;
    MultipleMod(2 * q, 0x8000);
    MultipleMod(2 * q + 1, 0x8000);
  }

  /** No other number in the interval is divisible by a higher power of two. */
  lemma MostTrailingZeros(s: Coder, x: nat, k: nat)
    requires 0x8000 <= s.a <= 0x1_0000
    requires s.low <= x < s.low + s.a && x % Pow2(k) == 0
    ensures CodePoint(s) % Pow2(k) == 0
  {
    assert Pow2(15) == 0x8000 && Pow2(16) == 0x1_0000;
    if k >= 16 {
      Pow2Add(k - 16, 16);
      DividesThrough(x, Pow2(k - 16), 0x1_0000);
      SameMultiple(s, x);
    } else {
      Pow2Add(15 - k, k);
      CodePointEven(s);
      DividesThrough(CodePoint(s), Pow2(15 - k), Pow2(k));
    }
  }

  lemma SameMultiple(s: Coder, x: nat)
    requires 0x8000 <= s.a <= 0x1_0000
    requires s.low <= x < s.low + s.a && x % 0x1_0000 == 0
    ensures x == CodePoint(s)
  {
    var q := x / 0x1_0000;
    assert (s.low + s.a - 1) / 0x1_0000 == q;
  }
}
