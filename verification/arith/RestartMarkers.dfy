/** What follows a restart interval: the expected marker, or resynchronization behind another one. */
module RestartMarkers {
  import opened ByteStream

  const SOF0 := 0xC0
  const RST0 := 0xD0
  const RST7 := 0xD7

  /** What to do about a marker that is not the expected restart marker. */
  datatype Action = Discard   // take the marker for the expected one
                  | Advance   // go on to the next marker
                  | Leave     // read an empty segment before it

  /** A marker in the place of restart marker number desired. */
  function Recovery(marker: byte, desired: nat): Action {
    if marker < SOF0 then Advance
    else if marker < RST0 || marker > RST7 then Leave
    else if marker == RST0 + (desired + 1) % 8 || marker == RST0 + (desired + 2) % 8 then Leave
    else if marker == RST0 + (desired + 7) % 8 || marker == RST0 + (desired + 6) % 8 then Advance
    else Discard
  }

  /** The segment that is read next if such a marker was found before rest. */
  function Resync(marker: byte, rest: seq<byte>, desired: nat): Segment
    decreases |rest|
  {
    match Recovery(marker, desired)
    case Discard => ReadSegment(rest)
    case Leave => Segment([], marker, rest)
    case Advance =>
      if rest == [] then Segment([], EOI, [])
      else
        var s := ReadSegment(rest);
        RestShorter(rest);
        Resync(s.marker, s.rest, desired)
  }

  /** The segment that is read next behind a marker where restart marker number desired should be. */
  function SegmentBehind(marker: byte, rest: seq<byte>, desired: nat): Segment {
    if marker == RST0 + desired then ReadSegment(rest) else Resync(marker, rest, desired)
  }

  lemma {:induction false} RestShorter(input: seq<byte>)
    requires input != []
    ensures |ReadSegment(input).rest| < |input|
    decreases |input|
  {
    if input[0] != 0xFF {
      if input[1..] != [] { RestShorter(input[1..]); }
    } else {
      var r := SkipFill(input[1..]);
      if r != [] && r[0] == 0 && r[1..] != [] { RestShorter(r[1..]); }
    }
  }

  /** Behind the end of the input there is only the end of the image. */
  lemma ResyncAtEnd(marker: byte, desired: nat)
    requires marker == EOI
    ensures Resync(marker, [], desired) == Segment([], EOI, [])
  {
  }

  /**
    * Up to two segments and their markers are lost: an empty segment is read in
    * place of each of them, in front of the marker that was found, and once that
    * marker is expected what is behind it is read.
    */
  lemma {:induction false} LostSegments(rest: seq<byte>, desired: nat, lost: nat, k: nat)
    requires desired < 8 && lost <= 2 && k <= lost
    ensures var found := RST0 + (desired + lost) % 8;
            SegmentBehind(found, rest, (desired + k) % 8) ==
            if k < lost then Segment([], found, rest) else ReadSegment(rest)
  {
    if k < lost { MarkerAhead(desired, lost, k); }
  }

  /** A restart marker that comes one or two too early is left for later. */
  lemma MarkerAhead(desired: nat, lost: nat, k: nat)
    requires desired < 8 && lost <= 2 && k < lost
    ensures Recovery(RST0 + (desired + lost) % 8, (desired + k) % 8) == Leave
    ensures (desired + lost) % 8 != (desired + k) % 8
  {
    if k == 1 { assert (desired + 2) % 8 == ((desired + 1) % 8 + 1) % 8; }
  }

  /**
    * Up to two segments that were read before come again: they are passed over,
    * and the segment behind the marker that should come is read.
    */
  lemma {:induction false} RepeatedSegments(rest: seq<byte>, desired: nat, again: nat)
    requires desired < 8 && 1 <= again <= 2
    requires ReadSegment(rest).marker == RST0 + (desired + 9 - again) % 8
    requires again == 2 ==> ReadSegment(ReadSegment(rest).rest).marker == RST0 + desired
    ensures SegmentBehind(RST0 + (desired + 8 - again) % 8, rest, desired) ==
            ReadSegment(if again == 1 then ReadSegment(rest).rest else ReadSegment(ReadSegment(rest).rest).rest)
  {
    PassedOver(desired);
    var s := ReadSegment(rest);
    PassOver(RST0 + (desired + 8 - again) % 8, rest, desired);
    if again == 2 { PassOver(s.marker, s.rest, desired); }
  }

  /**
    * What is read behind any marker. A restart marker that is expected, or three to five away, is taken
    * and the segment behind it is read; one or two ahead it stays, and so does every other marker from
    * 0xC0 on; anything else is passed over.
    */
  lemma {:induction false} AnyMarker(marker: byte, rest: seq<byte>, desired: nat, away: nat)
    requires desired < 8 && away == (marker + 8 - desired) % 8
    ensures 0xD0 <= marker <= 0xD7 && away in {0, 3, 4, 5} ==> SegmentBehind(marker, rest, desired) == ReadSegment(rest)
    ensures 0xD0 <= marker <= 0xD7 && away in {1, 2} ==> SegmentBehind(marker, rest, desired) == Segment([], marker, rest)
    ensures 0xC0 <= marker < 0xD0 || 0xD7 < marker ==> SegmentBehind(marker, rest, desired) == Segment([], marker, rest)
    ensures marker < 0xC0 || (0xD0 <= marker <= 0xD7 && away in {6, 7}) ==>
              SegmentBehind(marker, rest, desired) ==
                if rest == [] then Segment([], EOI, []) else SegmentBehind(ReadSegment(rest).marker, ReadSegment(rest).rest, desired)
  {
    var n := marker - 0xD0;
    if 0 <= n < 8 {
      Distance(n, desired, away);
    }
    if rest != [] && Recovery(marker, desired).Advance? && marker != RST0 + desired {
      PassOver(marker, rest, desired);
      ResyncIs(ReadSegment(rest).marker, ReadSegment(rest).rest, desired);
    }
  }

  lemma {:induction false} ResyncIs(marker: byte, rest: seq<byte>, desired: nat)
    requires desired < 8
    ensures Resync(marker, rest, desired) == SegmentBehind(marker, rest, desired)
  {
    PassedOver(desired);
  }

  lemma Distance(n: nat, desired: nat, away: nat)
    requires n < 8 && desired < 8 && away == (n + 0xD0 + 8 - desired) % 8
    ensures n == (desired + away) % 8
    ensures (n == (desired + 1) % 8 <==> away == 1) && (n == (desired + 2) % 8 <==> away == 2)
    ensures (n == (desired + 7) % 8 <==> away == 7) && (n == (desired + 6) % 8 <==> away == 6)
  {
  }

  /** The two restart markers before the expected one are passed over, the expected one is taken. */
  lemma PassedOver(desired: nat)
    requires desired < 8
    ensures Recovery(RST0 + (desired + 7) % 8, desired) == Advance
    ensures Recovery(RST0 + (desired + 6) % 8, desired) == Advance
    ensures Recovery(RST0 + desired, desired) == Discard
  {
  }

  lemma {:induction false} PassOver(marker: byte, rest: seq<byte>, desired: nat)
    requires Recovery(marker, desired) == Advance && rest != [] && marker != RST0 + desired
    ensures var s := ReadSegment(rest);
            SegmentBehind(marker, rest, desired) == Resync(marker, rest, desired) == Resync(s.marker, s.rest, desired)
  {
  }
}
