/** The arithmetic encoder's registers and byte output, refining exact intervals. */
module ArithEncoder {
  import opened Powers
  import opened ByteStream
  import opened ProbabilityTable
  import opened CodeInterval
  import opened Estimation
  import opened Termination
  import opened CodeRegister

  class Encoder {
    var c: int       // base of the coding interval, below the bytes already put out
    var a: int       // size of the coding interval
    var sc: int      // stacked 0xFF bytes that a carry may still turn into zeros
    var zc: int      // pending zero bytes that are dropped if nothing follows
    var ct: int      // shifts until the next byte is complete
    var buffer: int  // latest byte other than 0xFF, or -1
    var stats: Stats
    var out: seq<byte>

    ghost var prefix: seq<byte>  // what was written before this segment
    ghost var data: seq<byte>    // code bytes of this segment already written
    ghost var reg: Register      // the exact interval behind the registers
    ghost var origin: Coder      // interval and statistics at the start of this segment
    ghost var coded: seq<Decision>  // decisions coded in this segment

    /** Every code byte decided so far, written or not. */
    ghost function Pending(): (p: seq<byte>)
      requires 0 <= sc && 0 <= zc && -1 <= buffer < 0xFF
      reads this`data, this`zc, this`buffer, this`sc
      ensures |p| == |data| + zc + (if buffer >= 0 then 1 else 0) + sc
    {
      Tail(data + Repeat(0, zc), buffer, sc)
    }

    ghost predicate Output()
      reads this`out, this`prefix, this`data
    {
      && out == prefix + Stuff(data)
      && (data != [] ==> data[|data| - 1] != 0)
    }

    /** The code bytes decided so far are k bytes that spell v. */
    ghost predicate BytesValid(v: nat, k: nat)
      reads this`data, this`zc, this`buffer, this`sc, this`out, this`prefix
    {
      && 0 <= sc && 0 <= zc && -1 <= buffer < 0xFF && Output()
      && (buffer == -1 ==> data == [] && zc == 0)
      && v == Value(Pending()) && k == |Pending()|
    }

    /** The registers denote exactly the interval of reg. */
    ghost predicate Registers()
      reads this`data, this`zc, this`buffer, this`sc, this`out, this`prefix, this`c, this`a, this`ct, this`reg
    {
      && BytesValid(reg.v, reg.k)
      && c == reg.c && a == reg.a && ct == reg.ct
    }

    /** Interval and statistics are those that the coded decisions lead to. */
    ghost predicate Traced()
      reads this`reg, this`stats, this`origin, this`coded
    {
      0x8000 <= origin.a <= 0x1_0000 && State() == Run(origin, coded)
    }

    ghost predicate Valid()
      reads this
    {
      forall k {:trigger Key(k)} :: Key(k) ==> Registers() && 0x8000 <= a && 0 < ct && Traced()
    }

    ghost function State(): Coder
      reads this`reg, this`stats
    {
      Coder(reg.low, reg.a, reg.n, stats)
    }

    constructor (machine: Machine)
      ensures Valid() && origin == Initial(machine) && coded == []
      ensures out == prefix == []
    {
      c, a, ct, sc, zc, buffer := 0, 0x1_0000, 11, 0, 0, -1;
      stats := Stats(machine, map[]);
      out := [];
      prefix, data := [], [];
      origin, coded := Initial(machine), [];
      new;
      reg := Start(RegisterFields(0, 0, 0, 0x1_0000, 11, 0, 0));
    }

    method ResetOutput()
      modifies this`sc, this`zc, this`buffer, this`prefix, this`data
      ensures BytesValid(0, 0) && out == prefix
    {
      sc, zc, buffer := 0, 0, -1;
      prefix, data := out, [];
    }

    /** Starts a new segment behind everything written so far, with the given statistics. */
    method ResetRegisters(newStats: Stats)
      modifies this
      ensures Valid() && origin == Coder(0, 0x1_0000, 0, newStats) && coded == []
      ensures out == prefix == old(out)
    {
      StartRegisters(newStats);
      MakeValid();
    }

    lemma MakeValid()
      requires Registers() && 0x8000 <= a && 0 < ct && Traced()
      ensures Valid()
    {
    }

    method StartRegisters(newStats: Stats)
      modifies this
      ensures Registers() && 0x8000 <= a && 0 < ct && Traced()
      ensures origin == Coder(0, 0x1_0000, 0, newStats) && coded == []
      ensures out == prefix == old(out)
    {
      ResetOutput();
      c, a, ct := 0, 0x1_0000, 11;
      reg := Start(RegisterFields(0, 0, 0, 0x1_0000, 11, 0, 0));
      stats := newStats;
      origin, coded := State(), [];
    }

    method EmitByte(val: byte)
      modifies this`out
      ensures out == old(out) + [val]
    {
      out := out + [val];
    }

    /** Writes one code byte, stuffing a zero after 0xFF. */
    method EmitCode(b: byte)
      requires out == prefix + Stuff(data)
      modifies this`out, this`data
      ensures data == old(data) + [b]
      ensures out == prefix + Stuff(data)
    {
      EmitByte(b);
      if b == 0xFF {
        EmitByte(0x00);
      }
      StuffAppend(data, b);
      data := data + [b];
    }

    /** Writes the pending zeros. */
    method FlushZeros()
      requires zc >= 0 && out == prefix + Stuff(data)
      modifies this`out, this`data, this`zc
      ensures zc == 0 && data == old(data) + Repeat(0, old(zc))
      ensures out == prefix + Stuff(data)
    {
      assert data == data + Repeat(0, 0);
      while zc > 0
        invariant 0 <= zc <= old(zc)
        invariant data == old(data) + Repeat(0, old(zc) - zc)
        invariant out == prefix + Stuff(data)
      {
        EmitCode(0x00);
        zc := zc - 1;
      }
    }

    /** The buffered byte takes a carry and is written; the stacked 0xFF bytes become pending zeros. */
    method OutputWithCarry()
      requires 0 <= sc && 0 <= zc && 0 <= buffer < 0xFF && Output()
      modifies this`out, this`data, this`zc, this`sc
      ensures Output() && sc == 0 && 0 <= zc
      ensures data + Repeat(0, zc)
           == old(data) + Repeat(0, old(zc)) + [buffer + 1] + Repeat(0, old(sc))
    {
      FlushZeros();
      EmitCode(buffer + 1);
      zc := zc + sc;  // carry-over converts stacked 0xFF bytes to 0x00
      sc := 0;
    }

    /** No carry can reach the buffered byte any more. */
    method OutputBuffered()
      requires 0 <= zc && -1 <= buffer < 0xFF && Output()
      modifies this`out, this`data, this`zc
      ensures Output() && 0 <= zc
      ensures data + Repeat(0, zc) == Tail(old(data + Repeat(0, zc)), buffer, 0)
    {
      if buffer == 0 {
        zc := zc + 1;
      } else if buffer >= 0 {
        FlushZeros();
        EmitCode(buffer);
      }
    }

    /** Writes the stacked 0xFF bytes, which will not overflow any more. */
    method OutputStacked()
      requires 0 <= sc && 0 <= zc && Output()
      modifies this`out, this`data, this`zc, this`sc
      ensures Output() && sc == 0 && 0 <= zc
      ensures data + Repeat(0, zc) == old(data + Repeat(0, zc) + Repeat(0xFF, sc))
    {
      if sc > 0 {
        FlushZeros();
        ghost var head := data;
        while sc > 0
          invariant 0 <= sc <= old(sc) && zc == 0
          invariant data == head + Repeat(0xFF, old(sc) - sc)
          invariant out == prefix + Stuff(data)
        {
          EmitCode(0xFF);
          sc := sc - 1;
        }
      }
    }

    /** No carry can reach the buffered byte or the stacked 0xFF bytes any more. */
    method OutputWithoutCarry()
      requires 0 <= sc && 0 <= zc && -1 <= buffer < 0xFF && Output()
      modifies this`out, this`data, this`zc, this`sc
      ensures Output() && sc == 0 && 0 <= zc
      ensures data + Repeat(0, zc) == old(Pending())
    {
      OutputBuffered();
      OutputStacked();
    }

    /** Puts out the bytes before a new one, with or without a carry into them. */
    method Settle(carry: bool, ghost v: nat, ghost k: nat)
      requires BytesValid(v, k)
      requires carry ==> buffer >= 0
      modifies this`out, this`data, this`zc, this`sc
      ensures Output() && sc == 0 && 0 <= zc
      ensures Value(data + Repeat(0, zc)) == v + (if carry then 1 else 0)
      ensures |data + Repeat(0, zc)| == k
    {
      if carry {
        CarryValue(data + Repeat(0, zc), buffer, sc);
        OutputWithCarry();
      } else {
        OutputWithoutCarry();
      }
    }

    /** Appends the value temp of the next code byte; a value above 0xFF carries into the bytes before. */
    method PutByte(temp: nat, ghost v: nat, ghost k: nat)
      requires BytesValid(v, k)
      requires temp < 0x120 && (temp > 0xFF ==> buffer >= 0)
      modifies this`out, this`data, this`zc, this`sc, this`buffer
      ensures BytesValid(v * 0x100 + temp, k + 1)
    {
      if temp > 0xFF {
        Settle(true, v, k);
        buffer := temp % 0x100;
        ByteBuffered(v * 0x100 + temp, k + 1);
      } else if temp == 0xFF {
        sc := sc + 1;
        ByteStacked(v, k);
      } else {
        Settle(false, v, k);
        buffer := temp % 0x100;
        ByteBuffered(v * 0x100 + temp, k + 1);
      }
    }

    lemma ByteBuffered(v: nat, k: nat)
      requires Output() && sc == 0 && 0 <= zc && 0 <= buffer < 0xFF
      requires Value(data + Repeat(0, zc)) * 0x100 + buffer == v && |data + Repeat(0, zc)| + 1 == k
      ensures BytesValid(v, k)
    {
      ReplaceBuffer(data + Repeat(0, zc), buffer);
    }

    lemma ByteStacked(v: nat, k: nat)
      requires Output() && 0 < sc && 0 <= zc && -1 <= buffer < 0xFF
      requires buffer == -1 ==> data == [] && zc == 0
      requires var before := Tail(data + Repeat(0, zc), buffer, sc - 1); Value(before) == v && |before| == k
      ensures BytesValid(v * 0x100 + 0xFF, k + 1)
    {
      StackByte(data + Repeat(0, zc), buffer, sc - 1);
    }

    /** A carry never arrives while the buffer is empty. */
    lemma NoEarlyCarry(r: Register)
      requires BytesValid(r.v, r.k) && r.ct == 0 && r.c / 0x8_0000 > 0xFF
      ensures buffer >= 0
    {
      if buffer == -1 {
        assert Pending() == Repeat(0xFF, sc);
        NoCarryIntoOnes(Pending(), sc, r);
      }
    }

    /** A byte is complete above bit 19 of C. */
    method ByteOut()
      requires Registers() && ct == 0
      modifies this`out, this`data, this`zc, this`sc, this`buffer, this`reg, this`c, this`ct
      ensures Registers() && ct == 8
      ensures State() == old(State())
    {
      var temp := c / 0x8_0000;
      if temp > 0xFF { NoEarlyCarry(reg); }
      ghost var next := WithByte(reg);
      PutByte(temp, reg.v, reg.k);
      reg := next;
      c := c % 0x8_0000;
      ct := ct + 8;
    }

    /** One doubling of A and C, and the byte that it may complete. */
    method Shift()
      requires Registers() && 0 < ct && a < 0x8000
      modifies this`out, this`data, this`zc, this`sc, this`buffer, this`reg, this`c, this`ct, this`a
      ensures Registers() && 0 < ct && a == 2 * old(a)
      ensures State() == Coder(2 * old(reg.low), 2 * old(reg.a), old(reg.n) + 1, stats)
    {
      reg := Shifted(reg);
      a := 2 * a;
      c := 2 * c;
      ct := ct - 1;
      if ct == 0 {
        ByteOut();
      }
    }

    /** Renormalization and data output; the size is below 0x8000 on entry. */
    method RenormalizeAndOutput()
      requires Registers() && 0 < ct && a < 0x8000
      modifies this`out, this`data, this`zc, this`sc, this`buffer, this`reg, this`c, this`ct, this`a
      ensures Registers() && 0 < ct && 0x8000 <= a
      ensures State() == Renormalize(old(State()))
    {
      while a < 0x8000
        invariant Registers() && 0 < ct
        invariant Renormalize(State()) == Renormalize(old(State()))
        decreases 0x1_0000 - a
      {
        Shift();
      }
    }

    /** Encodes the less probable symbol; the smaller part always goes to it. */
    method EncodeLps(bin: Bin)
      requires Registers() && 0x8000 <= a && 0 < ct
      modifies this`c, this`a, this`reg, this`stats
      ensures Registers() && a < 0x8000
      ensures State() == Narrow(old(State()), Decision(bin, !old(stats.Get(bin)).mps))
    {
      var sv, entry := stats.Get(bin), stats.EntryOf(bin);
      ghost var p := LpsPart(a, sv, entry);
      reg := Narrowed(reg, p.offset, p.size);
      a := a - entry.qe;
      if a >= entry.qe {
        c := c + a;
        a := entry.qe;
      }
      stats := stats.Put(bin, StateByte(sv.mps != entry.switchMps, entry.nextLps));
    }

    /** Encodes the more probable symbol. The result says whether the size is still large enough. */
    method EncodeMps(bin: Bin) returns (ready: bool)
      requires Registers() && 0x8000 <= a && 0 < ct
      modifies this`c, this`a, this`reg, this`stats
      ensures Registers()
      ensures State() == Narrow(old(State()), Decision(bin, old(stats.Get(bin)).mps))
      ensures ready <==> a >= 0x8000
    {
      var sv, entry := stats.Get(bin), stats.EntryOf(bin);
      ghost var p := MpsPart(a, sv, entry);
      reg := Narrowed(reg, p.offset, p.size);
      a := a - entry.qe;
      if a >= 0x8000 {
        return true;
      }
      if a < entry.qe {
        c := c + a;
        a := entry.qe;
      }
      stats := stats.Put(bin, StateByte(sv.mps, entry.nextMps));
      return false;
    }

    /** Encodes one binary decision. */
    method ArithEncode(bin: Bin, val: bool)
      requires Valid()
      modifies this`out, this`data, this`zc, this`sc, this`buffer, this`reg, this`c, this`ct, this`a, this`stats,
               this`coded
      ensures Valid()
      ensures coded == old(coded) + [Decision(bin, val)]
    {
      assert Key(0);
      EncodeDecision(bin, val);
      RunAppend(origin, coded, Decision(bin, val));
      coded := coded + [Decision(bin, val)];
    }

    /** The fixed bin has its estimate, and a bin of a cleared area that was not used yet is at the start. */
    lemma Estimates(bin: Bin)
      requires Valid() && Regular(origin.stats)
      ensures Regular(stats) && stats.EntryOf(Fixed).qe == 0x5a1d && !stats.Get(Fixed).mps
      ensures bin != Fixed && bin !in origin.stats.bins && (forall i :: 0 <= i < |coded| ==> coded[i].bin != bin) ==>
                stats.Get(bin) == StateByte(false, 0)
    {
      StatsTraced();
      RunRegular(origin, coded);
      FixedEstimate(stats);
      if forall i :: 0 <= i < |coded| ==> coded[i].bin != bin { UnusedKept(origin, coded, bin); }
    }

    /** The statistics are those that the coded decisions lead to. */
    lemma StatsTraced()
      requires Valid()
      ensures 0x8000 <= origin.a <= 0x1_0000 && stats == Run(origin, coded).stats
    {
      assert Key(0);
    }

    method EncodeDecision(bin: Bin, val: bool)
      requires Registers() && 0x8000 <= a && 0 < ct
      modifies this`out, this`data, this`zc, this`sc, this`buffer, this`reg, this`c, this`ct, this`a, this`stats
      ensures Registers() && 0x8000 <= a && 0 < ct
      ensures State() == Step(old(State()), Decision(bin, val))
    {
      var ready := false;
      if val != stats.Get(bin).mps {
        EncodeLps(bin);
      } else {
        ready := EncodeMps(bin);
      }
      if !ready {
        RenormalizeAndOutput();
      }
    }

    /** Writes the last two code bytes unless they are zero, as any zeros pending before them. */
    method EmitFinalBytes(b1: byte, b2: byte) returns (ghost z: nat)
      requires 0 <= zc && Output()
      modifies this`out, this`data, this`zc
      ensures Output()
      ensures data + Repeat(0, z) == old(data + Repeat(0, zc)) + [b1, b2]
    {
      z := zc + 2;
      if b1 != 0 || b2 != 0 {
        FlushZeros();
        EmitCode(b1);
        z := 1;
        if b2 != 0 {
          EmitCode(b2);
          z := 0;
        }
      }
    }

    /** Moves C to the number in the coding interval with the most trailing zero bits. */
    method ChoosePoint() returns (ghost point: Register)
      requires Registers() && 0x8000 <= a && 0 < ct
      modifies this`c
      ensures c == point.c && point.low == CodePoint(State()) && point.a == 1
      ensures point.v == reg.v && point.k == reg.k && point.ct == ct && point.n == reg.n
      ensures c % 0x8000 == 0
    {
      var temp := (a - 1 + c) / 0x1_0000 * 0x1_0000;
      if temp < c {
        c := temp + 0x8000;
      } else {
        c := temp;
      }
      point := AtPoint(reg, State(), c);
    }

    /** Moves the code point up to the byte boundary. */
    method ToByteBoundary() returns (ghost r: Register)
      requires Registers() && 0x8000 <= a && 0 < ct
      modifies this`c
      ensures r.ct == 0 && r.c == c && r.v == reg.v && r.k == reg.k
      ensures r.low == Shl(CodePoint(State()), ct) && r.n == reg.n + ct && c % 0x800 == 0
    {
      ghost var point := ChoosePoint();
      ShlGrows(1, ct, 11);
      assert Shl(1, 11) == 0x800;
      r := ToBoundary(point);
      PointShifted(c, ct);
      c := Shl(c, ct);
    }

    /** Writes the code point, which may hold one final carry into the bytes before. */
    method WriteCodePoint(ghost r: Register, ghost x: nat, ghost n: nat)
      requires BytesValid(r.v, r.k) && r.ct == 0 && r.c == c && c % 0x800 == 0 && 0 <= ct
      requires r.low == Shl(x, ct) && r.n == n + ct
      modifies this`out, this`data, this`zc, this`sc
      ensures Output()
      ensures Value(data) * Pow2(16 + n) == x * Pow2(8 * |data|)
    {
      CarryIsOne(r);
      if c / 0x800_0000 != 0 { NoEarlyCarry(r); }
      Settle(c / 0x800_0000 != 0, r.v, r.k);
      ghost var known := data + Repeat(0, zc);
      ghost var z := EmitFinalBytes(c / 0x8_0000 % 0x100, c / 0x800 % 0x100);
      Conclude(data, z, known, r, x, ct, n);
    }

    /** Ends the segment: the code bytes written are those of the final interval's code point. */
    method FinishPass()
      requires Valid() && 0x8000 <= origin.a <= 0x1_0000
      modifies this`out, this`data, this`zc, this`sc, this`c
      ensures Output()
      ensures IsSegment(data, Run(origin, coded))
    {
      assert Key(0);
      ghost var r := ToByteBoundary();
      WriteCodePoint(r, CodePoint(State()), reg.n);
    }
  }

  /** What coding the less probable symbol selects. */
  ghost function LpsPart(a: nat, s: State, e: Entry): (p: Part)
    requires 0x8000 <= a <= 0x1_0000 && Usable(e)
    ensures p == Select(a, s, e, !s.mps)
    ensures p.offset == (if a - e.qe >= e.qe then a - e.qe else 0)
    ensures p.size == if a - e.qe >= e.qe then e.qe else a - e.qe
    ensures 0 < p.size < 0x8000 && p.offset + p.size <= a
    ensures p.state == StateByte(s.mps != e.switchMps, e.nextLps)
  {
    Select(a, s, e, !s.mps)
  }

  /** What coding the more probable symbol selects. */
  ghost function MpsPart(a: nat, s: State, e: Entry): (p: Part)
    requires 0x8000 <= a <= 0x1_0000 && Usable(e)
    ensures p == Select(a, s, e, s.mps)
    ensures p.offset == (if a - e.qe < e.qe then a - e.qe else 0)
    ensures p.size == if a - e.qe < e.qe then e.qe else a - e.qe
    ensures 0 < p.size && p.offset + p.size <= a
    ensures p.state == if a - e.qe >= 0x8000 then s else StateByte(s.mps, e.nextMps)
  {
    Select(a, s, e, s.mps)
  }

  lemma ReplaceBuffer(head: seq<byte>, b: byte)
    requires b < 0xFF
    ensures Value(Tail(head, b, 0)) == Value(head) * 0x100 + b
  {
    assert Tail(head, b, 0) == head + [b];
    ValueAppend(head, b);
  }

  lemma StackByte(head: seq<byte>, buffer: int, sc: nat)
    requires -1 <= buffer < 0xFF
    ensures Value(Tail(head, buffer, sc + 1)) == Value(Tail(head, buffer, sc)) * 0x100 + 0xFF
  {
    assert Tail(head, buffer, sc + 1) == Tail(head, buffer, sc) + [0xFF];
    ValueAppend(Tail(head, buffer, sc), 0xFF);
  }

  /** Known code bytes followed by the buffered byte, if any, and the stacked 0xFF bytes. */
  function Tail(head: seq<byte>, buffer: int, sc: nat): (p: seq<byte>)
    requires -1 <= buffer < 0xFF
    ensures |p| == |head| + (if buffer >= 0 then 1 else 0) + sc
  {
    head + (if buffer >= 0 then [buffer] else []) + Repeat(0xFF, sc)
  }
}
