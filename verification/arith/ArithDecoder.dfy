/** The arithmetic decoder's registers and byte input, refining exact intervals. */
module ArithDecoder {
  import opened Powers
  import opened ByteStream
  import opened ProbabilityTable
  import opened CodeInterval
  import opened Estimation
  import opened RestartMarkers

  /** m code bytes that spell code have been read in; the interval is [low, low + a) in units of
      2^-(16 + n), and C has ct bits below the cut point. */
  datatype TrackFields = TrackFields(code: nat, m: nat, c: nat, a: nat, ct: nat, low: nat, n: nat)

  /** x << ct */
  function Shift(x: nat, ct: nat): nat
    requires ct <= 7
  {
    match ct
    case 0 => x
    case 1 => 2 * x
    case 2 => 4 * x
    case 3 => 8 * x
    case 4 => 16 * x
    case 5 => 32 * x
    case 6 => 64 * x
    case _ => 128 * x
  }

  lemma {:induction false} ShiftIsProduct(x: nat, ct: nat)
    requires ct <= 7
    ensures Shift(x, ct) == x * Pow2(ct)
  {
    if ct > 0 {
      ShiftIsProduct(x, ct - 1);
    }
  }

  /** C is the code relative to the interval base, and the code lies in the interval. */
  ghost predicate Tracks(r: TrackFields) {
    && r.ct <= 7 && 0 < r.a <= 0x1_0000
    && 8 * r.m == 16 + r.n + r.ct
    && r.code == Shift(r.low, r.ct) + r.c
    && r.c < Shift(r.a, r.ct)
  }

  type Track = r: TrackFields | Tracks(r) ghost witness TrackFields(0, 2, 0, 0x1_0000, 0, 0, 0)

  /** After the first two bytes. */
  ghost function Opened(code: nat, m: nat): (s: Track)
    requires code < 0x1_0000 && m == 2
    ensures s == TrackFields(code, m, code, 0x1_0000, 0, 0, 0)
  {
    TrackFields(code, m, code, 0x1_0000, 0, 0, 0)
  }

  lemma TwoBytes(data: seq<byte>, m: nat)
    requires m == 2
    ensures Code(data, m) == Digit(data, 0) * 0x100 + Digit(data, 1)
  {
    assert Code(data, m - 1) == Digit(data, 0);
  }

  /** One doubling of the resolution, with bits left below the cut point. */
  ghost function Doubled(r: Track): (s: Track)
    requires 0 < r.ct && r.a < 0x8000
    ensures s == TrackFields(r.code, r.m, r.c, 2 * r.a, r.ct - 1, 2 * r.low, r.n + 1)
  {
    TrackFields(r.code, r.m, r.c, 2 * r.a, r.ct - 1, 2 * r.low, r.n + 1)
  }

  /** One doubling of the resolution that needs another byte. */
  ghost function DoubledWithByte(r: Track, data: byte): (s: Track)
    requires r.ct == 0 && r.a < 0x8000
    ensures s == TrackFields(r.code * 0x100 + data, r.m + 1, r.c * 0x100 + data, 2 * r.a, 7, 2 * r.low, r.n + 1)
  {
    TrackFields(r.code * 0x100 + data, r.m + 1, r.c * 0x100 + data, 2 * r.a, 7, 2 * r.low, r.n + 1)
  }

  ghost function Lower(r: Track, cut: nat): (s: Track)
    requires 0 < cut <= r.a && r.c < Shift(cut, r.ct)
    ensures s == TrackFields(r.code, r.m, r.c, cut, r.ct, r.low, r.n)
  {
    TrackFields(r.code, r.m, r.c, cut, r.ct, r.low, r.n)
  }

  ghost function Upper(r: Track, cut: nat): (s: Track)
    requires cut < r.a && Shift(cut, r.ct) <= r.c
    ensures s == TrackFields(r.code, r.m, r.c - Shift(cut, r.ct), r.a - cut, r.ct, r.low + cut, r.n)
  {
    TrackFields(r.code, r.m, r.c - Shift(cut, r.ct), r.a - cut, r.ct, r.low + cut, r.n)
  }

  /** What is tracked is the code point of the whole segment, read or not. */
  lemma TracksInside(data: seq<byte>, r: Track, stats: Stats)
    requires r.code == Code(data, r.m)
    ensures Inside(data, Coder(r.low, r.a, r.n, stats))
  {
    CodeIsFloor(data, r.m);
    ShiftIsProduct(r.low, r.ct);
    ShiftIsProduct(r.a, r.ct);
    PowerOfSum(8 * r.m, 16 + r.n, r.ct);
    FloorInside(r.code, r.low, r.a, Pow2(r.ct), Value(data), Pow2(16 + r.n), Pow2(8 * |data|));
  }

  lemma FloorInside(code: nat, low: nat, a: nat, u: nat, v: nat, p: nat, w: nat)
    requires u > 0 && w > 0
    requires low * u <= code < low * u + a * u
    requires code * w <= v * (p * u) < (code + 1) * w
    ensures low * w <= v * p < (low + a) * w
  {
    assert (low + a) * u == low * u + a * u;
    ScaleOrder(low * u, code, w);
    ScaleOrder(code + 1, (low + a) * u, w);
    Reorder(v, p, u);
    Reorder(low, w, u);
    Reorder(low + a, w, u);
    ScaleOrder(low * w, v * p, u);
    ScaleOrder(v * p, (low + a) * w, u);
  }

  class Decoder {
    const input: seq<byte>
    var pos: nat           // next input byte
    var unreadMarker: int  // marker found while reading code bytes, or 0
    var c: int             // code relative to the interval base, with ct extra bits
    var a: int             // size of the coding interval, 0 before the first decision
    var ct: int            // bits below the cut point; -16 before the first decision, -1 after an error
    var stats: Stats

    ghost var seg: Segment  // the segment being read
    ghost var m: nat        // code bytes read from it
    ghost var track: Track  // the exact interval behind the registers
    ghost var origin: Coder           // interval and statistics at the start of this segment
    ghost var decoded: seq<Decision>  // decisions read from this segment

    ghost function Rest(): seq<byte>
      reads this`pos
    {
      if pos <= |input| then input[pos..] else []
    }

    /** Behind the end of the input, bytes are supplied in pairs. */
    ghost predicate AtPair()
      reads this`pos
    {
      pos > |input| ==> (pos - |input|) % 2 == 0
    }

    ghost predicate InputValid()
      reads this`pos, this`unreadMarker, this`seg, this`m
    {
      && AtPair()
      && seg.marker != 0
      && if unreadMarker == 0 then
           m <= |seg.data| && ReadSegment(Rest()) == Segment(seg.data[m..], seg.marker, seg.rest)
         else
           |seg.data| <= m && unreadMarker == seg.marker && Rest() == seg.rest
    }

    /** No code byte has been read yet. */
    ghost predicate Fresh()
      reads this`c, this`a, this`ct, this`m
    {
      a == 0 && ct == -16 && c == 0 && m == 0
    }

    ghost predicate Running()
      reads this`seg, this`c, this`a, this`ct, this`m, this`track
    {
      && c == track.c && a == track.a && ct == track.ct && m == track.m
      && track.code == Code(seg.data, m)
    }

    /** Interval and statistics are those that the decisions read so far lead to. */
    ghost predicate Traced()
      reads this`a, this`track, this`stats, this`origin, this`decoded
    {
      0x8000 <= origin.a <= 0x1_0000 && State() == Run(origin, decoded)
    }

    ghost predicate Valid()
      reads this
    {
      forall k {:trigger Key(k)} :: Key(k) ==> InputValid() && (Fresh() || Running()) && Traced()
    }

    /** The decoder renormalizes one decision late; this is its interval once it has. */
    ghost function State(): (s: Coder)
      reads this`a, this`track, this`stats
      ensures 0x8000 <= s.a <= 0x1_0000
    {
      if a == 0 then Coder(0, 0x1_0000, 0, stats) else Renormalize(Coder(track.low, track.a, track.n, stats))
    }

    /** The code bytes lie in the interval that the decoder is in. */
    lemma StaysInside()
      requires InputValid() && (Fresh() || Running())
      ensures Inside(seg.data, State())
    {
      if a == 0 {
        CodeIsFloor(seg.data, 0);
        InsideUnit(seg.data, stats);
      } else {
        TracksInside(seg.data, track, stats);
        RenormalizeInside(seg.data, Coder(track.low, track.a, track.n, stats));
      }
    }

    /** Starts at the first code byte of a segment, with the given statistics. */
    constructor (input: seq<byte>, stats: Stats)
      ensures Valid() && origin == Coder(0, 0x1_0000, 0, stats) && decoded == []
      ensures this.input == input && seg == ReadSegment(input) && ct != -1
    {
      this.input, this.stats := input, stats;
      pos, unreadMarker, c, a, ct := 0, 0, 0, 0, -16;
      seg, m := ReadSegment(input), 0;
      origin, decoded := Coder(0, 0x1_0000, 0, stats), [];
      new;
      MarkerNotZero(input);
      assert Rest() == input;
    }

    /** Skips one byte, or one run of 0xFF bytes and what ends it. */
    method SkipUnit()
      requires unreadMarker == 0 && AtPair()
      modifies this`pos, this`unreadMarker
      ensures AtPair()
      ensures var s := ReadSegment(old(Rest()));
        if unreadMarker == 0 then
          var t := ReadSegment(Rest()); t.marker == s.marker && t.rest == s.rest && old(pos) < |input| && old(pos) < pos
        else unreadMarker == s.marker && Rest() == s.rest
    {
      ghost var before := Rest();
      var b := GetByte();
      if b == 0xFF {
        SegmentAfterOnes(Rest());
        assert before != [] ==> before == [0xFF] + Rest();
        b := SkipOnes();
        unreadMarker := b;
      }
    }

    /** Skips to the next marker. */
    method NextMarker()
      requires AtPair()
      modifies this`pos, this`unreadMarker
      ensures AtPair() && unreadMarker == ReadSegment(old(Rest())).marker != 0 && Rest() == ReadSegment(old(Rest())).rest
    {
      ghost var s := ReadSegment(Rest());
      MarkerNotZero(Rest());
      unreadMarker := 0;
      while unreadMarker == 0
        invariant AtPair()
        invariant if unreadMarker == 0 then ReadSegment(Rest()).marker == s.marker && ReadSegment(Rest()).rest == s.rest
                  else unreadMarker == s.marker && Rest() == s.rest
        decreases unreadMarker == 0, |input| - pos
      {
        SkipUnit();
      }
    }

    /** The segment at the input position, before which an unread marker may stand. */
    ghost function Upcoming(): Segment
      requires 0 <= unreadMarker < 256
      reads this`pos, this`unreadMarker
    {
      if unreadMarker == 0 then ReadSegment(Rest()) else Segment([], unreadMarker, Rest())
    }

    /** Recovers from a marker that is not the desired one. */
    method ResyncToRestart(desired: nat)
      requires AtPair() && 0 < unreadMarker < 256
      modifies this`pos, this`unreadMarker
      ensures AtPair() && 0 <= unreadMarker < 256
      ensures Upcoming() == Resync(old(unreadMarker), old(Rest()), desired)
    {
      while Recovery(unreadMarker, desired).Advance?
        invariant AtPair() && 0 < unreadMarker < 256
        invariant Resync(unreadMarker, Rest(), desired) == Resync(old(unreadMarker), old(Rest()), desired)
        decreases |Rest()|, if Recovery(unreadMarker, desired).Advance? then 1 else 0
      {
        if Rest() == [] {
          ResyncAtEnd(EOI, desired);
        } else {
          RestShorter(Rest());
        }
        NextMarker();
      }
      if Recovery(unreadMarker, desired).Discard? {
        unreadMarker := 0;
      }
    }

    /** Takes the restart marker that is expected, or recovers from another one. */
    method ReadRestartMarker(desired: nat)
      requires InputValid()
      modifies this`pos, this`unreadMarker
      ensures AtPair() && 0 <= unreadMarker < 256 && Upcoming() == SegmentBehind(seg.marker, seg.rest, desired)
    {
      if unreadMarker == 0 {
        NextMarker();
      }
      if unreadMarker == RST0 + desired {
        unreadMarker := 0;
      } else {
        ResyncToRestart(desired);
      }
    }

    /** The next segment starts behind restart marker number desired, with the given statistics. */
    method NextSegment(newStats: Stats, desired: nat)
      requires Consistent()
      modifies this
      ensures Valid() && origin == Coder(0, 0x1_0000, 0, newStats) && decoded == []
      ensures seg == SegmentBehind(old(seg.marker), old(seg.rest), desired) && ct != -1
    {
      assert InputValid() by { assert Key(0); }
      ReadRestartMarker(desired);
      StartSegment(newStats);
    }

    method StartSegment(newStats: Stats)
      requires AtPair() && 0 <= unreadMarker < 256
      modifies this
      ensures Valid() && origin == Coder(0, 0x1_0000, 0, newStats) && decoded == []
      ensures seg == old(Upcoming()) && ct != -1
    {
      c, a, ct := 0, 0, -16;
      stats := newStats;
      seg, m := Upcoming(), 0;
      origin, decoded := State(), [];
      MarkerNotZero(Rest());
    }

    /** Next input byte; behind the end of the input the source supplies EOI markers. */
    method GetByte() returns (b: byte)
      modifies this`pos
      ensures pos == old(pos) + 1
      ensures old(pos) < |input| ==> [b] + Rest() == old(Rest())
      ensures old(pos) >= |input| ==> Rest() == [] && b == if (old(pos) - |input|) % 2 == 0 then 0xFF else EOI
    {
      b := if pos < |input| then input[pos] else if (pos - |input|) % 2 == 0 then 0xFF else EOI;
      pos := pos + 1;
    }

    /** Skips the rest of a run of 0xFF bytes and returns the byte that ends it. */
    method SkipOnes() returns (data: byte)
      requires pos > |input| ==> (pos - |input|) % 2 == 1
      modifies this`pos
      ensures data != 0xFF && AtPair()
      ensures (data, Rest()) == AfterFill(old(Rest()))
    {
      ghost var before := Rest();
      data := GetByte();
      FillStep(before, data, Rest());
      while data == 0xFF
        invariant data == 0xFF ==> AfterFill(Rest()) == AfterFill(old(Rest()))
        invariant data == 0xFF ==> (pos > |input| ==> (pos - |input|) % 2 == 1)
        invariant data != 0xFF ==> AtPair() && (data, Rest()) == AfterFill(old(Rest()))
        decreases if data == 0xFF then 1 else 0, if pos <= |input| then |input| + 1 - pos else 0
      {
        before := Rest();
        data := GetByte();
        FillStep(before, data, Rest());
      }
    }

    /** Next code byte: zeros once a marker was found. */
    method GetData() returns (data: byte)
      requires InputValid()
      modifies this`pos, this`unreadMarker, this`m
      ensures InputValid() && m == old(m) + 1
      ensures data == Digit(seg.data, old(m))
    {
      if unreadMarker != 0 {
        data := 0;
      } else {
        data := ReadData();
      }
      m := m + 1;
    }

    method ReadData() returns (data: byte)
      requires InputValid() && unreadMarker == 0
      modifies this`pos, this`unreadMarker
      ensures AtPair()
      ensures data == Digit(seg.data, m)
      ensures if unreadMarker == 0 then
          m < |seg.data| && ReadSegment(Rest()) == Segment(seg.data[m + 1..], seg.marker, seg.rest)
        else |seg.data| <= m && unreadMarker == seg.marker && Rest() == seg.rest
    {
      data := GetByte();
      if data == 0xFF {
        data := AfterOnes();
      } else {
        PlainByte(data, Rest());
        DropHead(seg.data, m, data, ReadSegment(Rest()).data);
      }
    }

    /** After 0xFF: a stuffed zero or a marker. */
    method AfterOnes() returns (data: byte)
      requires unreadMarker == 0 && m <= |seg.data| && seg.marker != 0
      requires pos > |input| ==> (pos - |input|) % 2 == 1
      requires ReadSegment([0xFF] + Rest()) == Segment(seg.data[m..], seg.marker, seg.rest)
      modifies this`pos, this`unreadMarker
      ensures AtPair()
      ensures data == Digit(seg.data, m)
      ensures if unreadMarker == 0 then
          m < |seg.data| && ReadSegment(Rest()) == Segment(seg.data[m + 1..], seg.marker, seg.rest)
        else |seg.data| <= m && unreadMarker == seg.marker && Rest() == seg.rest
    {
      SegmentAfterOnes(Rest());
      data := SkipOnes();
      if data == 0 {
        data := 0xFF;
        DropHead(seg.data, m, 0xFF, ReadSegment(Rest()).data);
      } else {
        unreadMarker := data;
        data := 0;
      }
    }

    /** Inserts the next code byte into C. */
    method InsertByte()
      requires InputValid()
      modifies this`pos, this`unreadMarker, this`m, this`c, this`ct
      ensures InputValid() && m == old(m) + 1
      ensures c == old(c) * 0x100 + Digit(seg.data, old(m)) && ct == old(ct) + 8
    {
      var data := GetData();
      c := c * 0x100 + data;
      ct := ct + 8;
    }

    /** Reads the two bytes which open a segment. */
    method ReadInitialBytes()
      requires InputValid() && Fresh()
      modifies this`pos, this`unreadMarker, this`m, this`c, this`ct
      ensures InputValid() && m == 2 && ct == 0
      ensures c == Code(seg.data, m) && 0 <= c < 0x1_0000
    {
      InsertByte();  // more initial bytes are needed
      InsertByte();  // got 2 initial bytes
      TwoBytes(seg.data, m);
    }

    /** The rounds of renormalization that read the initial bytes and set up A. */
    method OpenInterval()
      requires InputValid() && Fresh()
      modifies this`pos, this`unreadMarker, this`m, this`c, this`a, this`ct, this`track
      ensures InputValid() && Running() && a == 0x1_0000 && track.low == track.n == 0
    {
      ReadInitialBytes();
      a := 0x1_0000;
      track := Opened(c, m);
    }

    /** One round of renormalization: a doubling of A, with a new byte when the bits below the cut
        point are used up. */
    method RefillOnce()
      requires InputValid() && Running() && a < 0x8000
      modifies this`pos, this`unreadMarker, this`m, this`c, this`a, this`ct, this`track
      ensures InputValid() && Running() && a == 2 * old(a)
      ensures track.low == 2 * old(track.low) && track.n == old(track.n) + 1
    {
      ct := ct - 1;
      if ct < 0 {
        track := DoubledWithByte(track, Digit(seg.data, m));
        InsertByte();
      } else {
        track := Doubled(track);
      }
      a := 2 * a;
    }

    /** Renormalization and data input. */
    method Refill()
      requires InputValid() && (Fresh() || Running())
      modifies this`pos, this`unreadMarker, this`m, this`c, this`a, this`ct, this`track
      ensures InputValid() && Running() && 0x8000 <= a
      ensures State() == old(State())
    {
      if a == 0 {
        OpenInterval();
      }
      while a < 0x8000
        invariant InputValid() && Running()
        invariant State() == old(State())
        decreases 0x1_0000 - a
      {
        RefillOnce();
      }
    }

    /** The decision: whether the code lies in the upper part of the interval, of size qe. */
    method Compare(qe: nat) returns (upper: bool)
      requires InputValid() && Running() && 0x8000 <= a && 0 < qe < 0x8000
      modifies this`c, this`a, this`track
      ensures InputValid() && Running()
      ensures a == if upper then qe else old(a) - qe
      ensures track.low == if upper then old(track.low) + old(a) - qe else old(track.low)
      ensures track.n == old(track.n)
    {
      a := a - qe;
      var temp := Shift(a, ct);
      if c >= temp {
        track := Upper(track, a);
        c := c - temp;
        a := qe;
        upper := true;
      } else {
        track := Lower(track, a);
        upper := false;
      }
    }

    /** Decodes one binary decision. */
    method ArithDecode(bin: Bin) returns (bit: bool)
      requires Valid()
      modifies this`pos, this`unreadMarker, this`m, this`c, this`a, this`ct, this`track, this`stats, this`decoded
      ensures Valid() && ct != -1
      ensures decoded == old(decoded) + [Decision(bin, bit)]
    {
      assert Key(0);
      bit := DecodeDecision(bin);
      RunAppend(origin, decoded, Decision(bin, bit));
      decoded := decoded + [Decision(bin, bit)];
    }

    /** What holds even after an error: the code bytes lie where the decisions read from them lead. */
    ghost predicate Consistent()
      reads this
    {
      forall k {:trigger Key(k)} :: Key(k) ==> InputValid() && Traced() && Inside(seg.data, Run(origin, decoded))
    }

    lemma ValidConsistent()
      requires Valid()
      ensures Consistent() && ct != -1
    {
      assert Key(0);
      StaysInside();
    }

    lemma CodeInside()
      requires Consistent()
      ensures 0x8000 <= origin.a <= 0x1_0000 && Inside(seg.data, Run(origin, decoded))
    {
      assert Key(0);
    }

    /** C and A fit their 32-bit variables; when the next byte is due, C has room for it in 24 bits. */
    lemma RegistersFit()
      requires Valid()
      ensures 0 <= c < 0x80_0000 && 0 <= a <= 0x1_0000 && -16 <= ct <= 7
      ensures ct == 0 ==> c * 0x100 + 0xFF < 0x100_0000
    {
      assert Key(0);
    }

    /** The fixed bin has its estimate, and a bin of a cleared area that was not used yet is at the start. */
    lemma Estimates(bin: Bin)
      requires Consistent() && Regular(origin.stats)
      ensures Regular(stats) && stats.EntryOf(Fixed).qe == 0x5a1d && !stats.Get(Fixed).mps
      ensures bin != Fixed && bin !in origin.stats.bins && (forall i :: 0 <= i < |decoded| ==> decoded[i].bin != bin) ==>
                stats.Get(bin) == StateByte(false, 0)
    {
      StatsTraced();
      RunRegular(origin, decoded);
      FixedEstimate(stats);
      if forall i :: 0 <= i < |decoded| ==> decoded[i].bin != bin { UnusedKept(origin, decoded, bin); }
    }

    /** The statistics are those that the decisions read lead to. */
    lemma StatsTraced()
      requires Consistent()
      ensures 0x8000 <= origin.a <= 0x1_0000 && stats == Run(origin, decoded).stats
    {
      assert Key(0);
    }

    /** Gives up on this segment. */
    method Fail()
      requires Valid()
      modifies this`ct
      ensures ct == -1 && Consistent()
    {
      ValidConsistent();
      ct := -1;
    }

    /** The code point selects the outcome: it lies in the interval that the decision leads to. */
    method DecodeDecision(bin: Bin) returns (bit: bool)
      requires InputValid() && (Fresh() || Running())
      modifies this`pos, this`unreadMarker, this`m, this`c, this`a, this`ct, this`track, this`stats
      ensures InputValid() && Running()
      ensures State() == Step(old(State()), Decision(bin, bit))
    {
      Refill();
      ghost var before := State();
      var sv, entry, size := stats.Get(bin), stats.EntryOf(bin), a;
      var upper := Compare(entry.qe);
      var (b, next) := Outcome(size, sv, entry, upper);
      stats := stats.Put(bin, next);
      bit := b;
      assert Coder(track.low, track.a, track.n, stats) == Narrow(before, Decision(bin, bit));
    }
  }

  /** Which outcome the upper or lower part of an interval of size a stands for, and the next state:
      the parts are exchanged when the lower one is smaller than Qe. */
  function Outcome(a: nat, s: State, e: Entry, upper: bool): (r: (bool, State))
    requires 0x8000 <= a <= 0x1_0000 && Usable(e)
    ensures Select(a, s, e, r.0) == if upper then Part(a - e.qe, e.qe, r.1) else Part(0, a - e.qe, r.1)
  {
    var size := a - e.qe;
    var afterMps := (s.mps, StateByte(s.mps, e.nextMps));
    var afterLps := (!s.mps, StateByte(s.mps != e.switchMps, e.nextLps));
    if upper then
      if size < e.qe then afterMps else afterLps
    else if size < 0x8000 then
      if size < e.qe then afterLps else afterMps
    else
      (s.mps, s)
  }

  lemma DropHead(data: seq<byte>, m: nat, b: byte, tail: seq<byte>)
    requires m <= |data| && data[m..] == [b] + tail
    ensures m < |data| && data[m] == b && data[m + 1..] == tail
  {
    assert data[m..][0] == b;
    assert data[m + 1..] == data[m..][1..];
  }

  /** The byte that ends a run of 0xFF bytes, and what follows it. */
  function AfterFill(rest: seq<byte>): (byte, seq<byte>) {
    var r := SkipFill(rest);
    if r == [] then (EOI, []) else (r[0], r[1..])
  }

  lemma FillStep(before: seq<byte>, b: byte, rest: seq<byte>)
    ensures before == [b] + rest ==> AfterFill(before) == if b == 0xFF then AfterFill(rest) else (b, rest)
    ensures before == [] ==> AfterFill(before) == (EOI, [])
  {
  }

  lemma PlainByte(b: byte, rest: seq<byte>)
    requires b != 0xFF
    ensures ReadSegment([b] + rest) == ReadSegment(rest).(data := [b] + ReadSegment(rest).data)
  {
    assert ([b] + rest)[1..] == rest;
  }

  lemma SegmentAfterOnes(rest: seq<byte>)
    ensures var r := SkipFill(rest);
      ReadSegment([0xFF] + rest) ==
        if r == [] then Segment([], EOI, [])
        else if r[0] == 0 then ReadSegment(r[1..]).(data := [0xFF] + ReadSegment(r[1..]).data)
        else Segment([], r[0], r[1..])
  {
    assert ([0xFF] + rest)[1..] == rest;
  }

  lemma {:induction false} MarkerNotZero(input: seq<byte>)
    ensures ReadSegment(input).marker != 0
    decreases |input|
  {
    if input != [] {
      if input[0] != 0xFF {
        MarkerNotZero(input[1..]);
      } else {
        var r := SkipFill(input[1..]);
        if r != [] { MarkerNotZero(r[1..]); }
      }
    }
  }

  lemma InsideUnit(data: seq<byte>, stats: Stats)
    requires Value(data) * Pow2(0) < Pow2(8 * |data|)
    ensures Inside(data, Coder(0, 0x1_0000, 0, stats))
  {
    PowerValues();
    var v, w := Value(data), Pow2(8 * |data|);
    ScaleOrder(v, w, 0x1_0000);
  }
}
