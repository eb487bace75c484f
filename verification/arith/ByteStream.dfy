/** Bytes of an entropy-coded segment: their value as a binary fraction, 0xFF stuffing, and how a
    segment is cut off by the marker that follows it (sections B.1.1.5 and D.1.6 of ITU-T T.81). */
module ByteStream {
  import opened Powers

  type byte = x: int | 0 <= x < 256

  const EOI: byte := 0xD9

  // ----- numeric value -----

  /** The k-th code byte; a decoder sees zeros after the last one. */
  function Digit(data: seq<byte>, k: nat): byte {
    if k < |data| then data[k] else 0
  }

  /** The first m code bytes read as one big-endian number. */
  function Code(data: seq<byte>, m: nat): nat {
    if m == 0 then 0 else Code(data, m - 1) * 256 + Digit(data, m - 1)
  }

  function Value(data: seq<byte>): nat {
    Code(data, |data|)
  }

  lemma {:induction false} CodeOfPrefix(x: seq<byte>, y: seq<byte>, m: nat)
    requires m <= |x|
    ensures Code(x + y, m) == Code(x, m)
  {
    if m > 0 {
      CodeOfPrefix(x, y, m - 1);
    }
  }

  lemma ValueAppend(x: seq<byte>, b: byte)
    ensures Value(x + [b]) == Value(x) * 256 + b
  {
    CodeOfPrefix(x, [b], |x|);
    assert (x + [b])[|x|] == b;
  }

  /** Code(data, m) is the fraction Value(data) / 256^|data| cut off after m bytes. */
  lemma {:induction false} CodeIsFloor(data: seq<byte>, m: nat)
    ensures Code(data, m) * Pow2(8 * |data|) <= Value(data) * Pow2(8 * m)
    ensures Value(data) * Pow2(8 * m) < (Code(data, m) + 1) * Pow2(8 * |data|)
    decreases if m < |data| then |data| - m else 0
  {
    if m < |data| {
      CodeIsFloor(data, m + 1);
      PowByte(m);
      DropByte(Code(data, m), Digit(data, m), Value(data), Pow2(8 * m), Pow2(8 * |data|));
    } else {
      CodeAfterEnd(data, m);
      ScaleOrder(Code(data, m), Code(data, m) + 1, Pow2(8 * |data|));
    }
  }

  lemma DropByte(c: nat, b: byte, v: nat, p: nat, w: nat)
    requires (c * 256 + b) * w <= v * (p * 256) < (c * 256 + b + 1) * w
    ensures c * w <= v * p < (c + 1) * w
  {
    var x, y := v * p, c * w;
    assert v * (p * 256) == x * 256;
    assert (c * 256 + b) * w == y * 256 + b * w;
    assert (c * 256 + b + 1) * w == y * 256 + b * w + w;
    assert (c + 1) * w == y + w;
    assert 0 <= b * w <= 255 * w;
  }

  lemma {:induction false} CodeAfterEnd(data: seq<byte>, m: nat)
    requires m >= |data|
    ensures Code(data, m) * Pow2(8 * |data|) == Value(data) * Pow2(8 * m)
  {
    if m > |data| {
      CodeAfterEnd(data, m - 1);
      PowByte(m - 1);
      PadByte(Code(data, m - 1), Value(data), Pow2(8 * (m - 1)), Pow2(8 * |data|));
    }
  }

  lemma PadByte(c: nat, v: nat, p: nat, w: nat)
    requires c * w == v * p
    ensures c * 256 * w == v * (p * 256)
  {
    assert c * 256 * w == (c * w) * 256;
    assert v * (p * 256) == (v * p) * 256;
  }

  lemma PowByte(m: nat)
    ensures Pow2(8 * (m + 1)) == Pow2(8 * m) * 256
  {
    Pow2Add(8 * m, 8);
    assert Pow2(8) == 256;
  }

  // ----- runs of equal bytes -----

  function Repeat(b: byte, k: nat): (r: seq<byte>)
    ensures |r| == k
  {
    if k == 0 then [] else Repeat(b, k - 1) + [b]
  }

  /** A carry into byte b turns the 0xFF bytes behind it into zeros. */
  lemma {:induction false} CarryValue(p: seq<byte>, b: byte, k: nat)
    requires b < 255
    ensures Value(p + [b + 1] + Repeat(0, k)) == Value(p + [b] + Repeat(0xFF, k)) + 1
  {
    if k == 0 {
      ValueAppend(p, b);
      ValueAppend(p, b + 1);
      assert p + [b] + [] == p + [b];
      assert p + [b + 1] + [] == p + [b + 1];
    } else {
      CarryValue(p, b, k - 1);
      var x, y := p + [b + 1] + Repeat(0, k - 1), p + [b] + Repeat(0xFF, k - 1);
      assert p + [b + 1] + Repeat(0, k) == x + [0];
      assert p + [b] + Repeat(0xFF, k) == y + [0xFF];
      ValueAppend(x, 0);
      ValueAppend(y, 0xFF);
    }
  }

  lemma {:induction false} AllOnesValue(k: nat)
    ensures Value(Repeat(0xFF, k)) == Pow2(8 * k) - 1
  {
    if k > 0 {
      AllOnesValue(k - 1);
      ValueAppend(Repeat(0xFF, k - 1), 0xFF);
      PowByte(k - 1);
    }
  }

  lemma {:induction false} TrailingZerosValue(x: seq<byte>, k: nat)
    ensures Value(x + Repeat(0, k)) == Value(x) * Pow2(8 * k)
  {
    if k == 0 {
      assert x + Repeat(0, 0) == x;
    } else {
      TrailingZerosValue(x, k - 1);
      assert x + Repeat(0, k) == (x + Repeat(0, k - 1)) + [0];
      ValueAppend(x + Repeat(0, k - 1), 0);
      PowByte(k - 1);
      assert Value(x) * Pow2(8 * (k - 1)) * 256 == Value(x) * (Pow2(8 * (k - 1)) * 256);
    }
  }

  // ----- stuffing and markers -----

  /** Every 0xFF code byte is followed by a stuffed zero. */
  function Stuff(data: seq<byte>): seq<byte> {
    if data == [] then []
    else (if data[0] == 0xFF then [0xFF, 0] else [data[0]]) + Stuff(data[1..])
  }

  lemma {:induction false} StuffConcat(x: seq<byte>, y: seq<byte>)
    ensures Stuff(x + y) == Stuff(x) + Stuff(y)
  {
    if x == [] {
      assert x + y == y;
    } else {
      assert (x + y)[1..] == x[1..] + y;
      StuffConcat(x[1..], y);
    }
  }

  lemma StuffAppend(x: seq<byte>, b: byte)
    ensures Stuff(x + [b]) == Stuff(x) + (if b == 0xFF then [0xFF, 0] else [b])
  {
    StuffConcat(x, [b]);
    assert Stuff([b]) == (if b == 0xFF then [0xFF, 0] else [b]) + Stuff([]);
  }

  /** How many of the bytes are 0xFF. */
  function FullBytes(data: seq<byte>): nat {
    if data == [] then 0 else (if data[0] == 0xFF then 1 else 0) + FullBytes(data[1..])
  }

  /** Stuffed bytes cannot be taken for a marker: a zero, which is the only byte added, is behind every 0xFF. */
  lemma {:induction false} NoMarkerInside(data: seq<byte>)
    ensures |Stuff(data)| == |data| + FullBytes(data)
    ensures forall i :: 0 <= i < |Stuff(data)| && Stuff(data)[i] == 0xFF ==> i + 1 < |Stuff(data)| && Stuff(data)[i + 1] == 0
  {
    if data != [] {
      NoMarkerInside(data[1..]);
      var head := if data[0] == 0xFF then [0xFF, 0] else [data[0]];
      assert Stuff(data) == head + Stuff(data[1..]);
    }
  }

  /** A segment as a reader finds it: code bytes, the marker that ends them, and what follows. */
  datatype Segment = Segment(data: seq<byte>, marker: byte, rest: seq<byte>)

  /** Reads code bytes up to the first marker. 0xFF may be repeated as fill before a marker or a
      stuffed zero; at the end of the input the data source supplies an EOI marker. */
  function ReadSegment(input: seq<byte>): Segment
    decreases |input|
  {
    if input == [] then Segment([], EOI, [])
    else if input[0] != 0xFF then
      var s := ReadSegment(input[1..]);
      s.(data := [input[0]] + s.data)
    else
      var r := SkipFill(input[1..]);
      if r == [] then Segment([], EOI, [])
      else if r[0] == 0 then
        var s := ReadSegment(r[1..]);
        s.(data := [0xFF] + s.data)
      else Segment([], r[0], r[1..])
  }

  function SkipFill(input: seq<byte>): (r: seq<byte>)
    ensures |r| <= |input|
    ensures r != [] ==> r[0] != 0xFF
  {
    if input != [] && input[0] == 0xFF then SkipFill(input[1..]) else input
  }

  /** Writing code bytes and a marker, then reading them, gives both back. */
  lemma {:induction false} ReadBackSegment(data: seq<byte>, marker: byte, rest: seq<byte>)
    requires marker != 0 && marker != 0xFF
    ensures ReadSegment(Stuff(data) + [0xFF, marker] + rest) == Segment(data, marker, rest)
  {
    var input := Stuff(data) + [0xFF, marker] + rest;
    if data == [] {
      assert input[1..] == [marker] + rest;
      assert SkipFill(input[1..]) == input[1..];
    } else {
      var tail := Stuff(data[1..]) + [0xFF, marker] + rest;
      ReadBackSegment(data[1..], marker, rest);
      if data[0] == 0xFF {
        assert input == [0xFF, 0] + tail;
        assert input[1..] == [0] + tail;
        assert SkipFill(input[1..]) == input[1..];
        assert input[1..][1..] == tail;
      } else {
        assert input == [data[0]] + tail;
        assert input[1..] == tail;
      }
      assert [data[0]] + data[1..] == data;
    }
  }
}
