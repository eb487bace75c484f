/** The bytes of a whole scan, and the segments a reader finds in them. */
module ScanBytes {
  import opened ByteStream
  import opened CodeInterval
  import opened Termination
  import opened ScanModel

  /** The state after an MCU. */
  ghost function AfterMcu(s: Scan, t: EncoderState, mcu: seq<seq<int>>): (r: EncoderState)
    requires EncoderRuns(t)
    ensures EncoderRuns(r)
  {
    EncoderStep(s, EncoderRestart(s, t), McuItems(s, mcu))
  }

  ghost function AfterMcus(s: Scan, t: EncoderState, mcus: seq<seq<seq<int>>>): (r: EncoderState)
    requires EncoderRuns(t)
    ensures EncoderRuns(r)
    decreases |mcus|
  {
    if mcus == [] then t else AfterMcus(s, AfterMcu(s, t, mcus[0]), mcus[1..])
  }

  predicate RestartDue(s: Scan, t: EncoderState) {
    s.restartInterval != 0 && t.toGo == 0
  }

  /** The decisions of the segment that t is in, once it ends. */
  ghost function SegmentCode(s: Scan, t: EncoderState, mcus: seq<seq<seq<int>>>): seq<Decision>
    requires EncoderRuns(t)
    decreases |mcus|
  {
    if mcus == [] || RestartDue(s, t) then t.coded else SegmentCode(s, AfterMcu(s, t, mcus[0]), mcus[1..])
  }

  /** The bytes from the start of the segment that t is in to the end of the scan. */
  ghost function ScanTail(s: Scan, t: EncoderState, mcus: seq<seq<seq<int>>>): seq<byte>
    requires EncoderRuns(t)
    decreases |mcus|, 1
  {
    Stuff(SegmentData(Run(t.origin, SegmentCode(s, t, mcus)))) + LaterSegments(s, t, mcus)
  }

  /** The bytes behind that segment. */
  ghost function LaterSegments(s: Scan, t: EncoderState, mcus: seq<seq<seq<int>>>): seq<byte>
    requires EncoderRuns(t)
    decreases |mcus|, 0
  {
    if mcus == [] then []
    else if RestartDue(s, t) then [0xFF, RestartMarker(t.num)] + ScanTail(s, AfterMcu(s, t, mcus[0]), mcus[1..])
    else LaterSegments(s, AfterMcu(s, t, mcus[0]), mcus[1..])
  }

  lemma {:induction false} ScanIsTail(s: Scan, t: EncoderState, mcus: seq<seq<seq<int>>>)
    requires EncoderRuns(t)
    ensures var r := AfterMcus(s, t, mcus); r.prefix + Written(r) == t.prefix + ScanTail(s, t, mcus)
    decreases |mcus|
  {
    if mcus != [] {
      var t2, rest := AfterMcu(s, t, mcus[0]), mcus[1..];
      ScanIsTail(s, t2, rest);
      if RestartDue(s, t) {
        JoinBytes(t.prefix, Written(t), [0xFF, RestartMarker(t.num)], ScanTail(s, t2, rest));
      } else {
        assert ScanTail(s, t, mcus) == ScanTail(s, t2, rest);
      }
    } else {
      assert Written(t) + [] == Written(t);
    }
  }

  lemma JoinBytes(a: seq<byte>, b: seq<byte>, c: seq<byte>, d: seq<byte>)
    ensures a + b + c + d == a + (b + (c + d))
  {
  }

  lemma JoinThree(a: seq<byte>, b: seq<byte>, c: seq<byte>)
    ensures a + b + c == a + (b + c)
  {
  }

  lemma {:induction false} SegmentGrows(s: Scan, t: EncoderState, mcus: seq<seq<seq<int>>>)
    requires EncoderRuns(t)
    ensures t.coded <= SegmentCode(s, t, mcus)
    decreases |mcus|
  {
    if mcus != [] && !RestartDue(s, t) {
      SegmentGrows(s, AfterMcu(s, t, mcus[0]), mcus[1..]);
    }
  }

  // ----- reading -----

  /** The marker that follows the segment, and the bytes behind it. */
  ghost function Behind(s: Scan, t: EncoderState, mcus: seq<seq<seq<int>>>, marker: byte, rest: seq<byte>): (byte, seq<byte>)
    requires EncoderRuns(t)
    decreases |mcus|
  {
    if mcus == [] then (marker, rest)
    else if RestartDue(s, t) then
      (RestartMarker(t.num), ScanTail(s, AfterMcu(s, t, mcus[0]), mcus[1..]) + [0xFF, marker] + rest)
    else Behind(s, AfterMcu(s, t, mcus[0]), mcus[1..], marker, rest)
  }

  lemma {:induction false} LaterIsBehind(s: Scan, t: EncoderState, mcus: seq<seq<seq<int>>>, marker: byte, rest: seq<byte>)
    requires EncoderRuns(t) && marker != 0 && marker != 0xFF
    ensures var b := Behind(s, t, mcus, marker, rest);
      && LaterSegments(s, t, mcus) + [0xFF, marker] + rest == [0xFF, b.0] + b.1
      && b.0 != 0 && b.0 != 0xFF
    decreases |mcus|
  {
    if mcus != [] && !RestartDue(s, t) {
      LaterIsBehind(s, AfterMcu(s, t, mcus[0]), mcus[1..], marker, rest);
    } else if mcus != [] {
      var tail := ScanTail(s, AfterMcu(s, t, mcus[0]), mcus[1..]);
      JoinBytes([0xFF, RestartMarker(t.num)], tail, [0xFF, marker], rest);
      JoinThree(tail, [0xFF, marker], rest);
    } else {
      assert [] + [0xFF, marker] == [0xFF, marker];
    }
  }

  /** A reader finds the code bytes of the segment, and what is behind it. */
  lemma SegmentRead(s: Scan, t: EncoderState, mcus: seq<seq<seq<int>>>, marker: byte, rest: seq<byte>)
    requires EncoderRuns(t) && marker != 0 && marker != 0xFF
    ensures ReadSegment(ScanTail(s, t, mcus) + [0xFF, marker] + rest)
         == var b := Behind(s, t, mcus, marker, rest);
            Segment(SegmentData(Run(t.origin, SegmentCode(s, t, mcus))), b.0, b.1)
  {
    var data, later := SegmentData(Run(t.origin, SegmentCode(s, t, mcus))), LaterSegments(s, t, mcus);
    var b := Behind(s, t, mcus, marker, rest);
    LaterIsBehind(s, t, mcus, marker, rest);
    JoinBytes(Stuff(data), later, [0xFF, marker], rest);
    JoinThree(later, [0xFF, marker], rest);
    ReadBackSegment(data, b.0, b.1);
    JoinThree(Stuff(data), [0xFF, b.0], b.1);
  }
}
