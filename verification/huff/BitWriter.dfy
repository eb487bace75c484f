/** Writing bits through a 24-bit buffer, with a zero stuffed behind every 0xFF byte. */
module BitWriter {
  import opened Powers
  import opened ByteStream
  import opened BitStrings

  const WORD := 0x1_0000_0000       // the buffer is a 32-bit word of which the low 24 bits are used
  const LOW24 := 0x100_0000
  const RST0: byte := 0xD0

  /** The bytes are the full bytes of the written bits; the buffer holds the rest, left-justified. */
  ghost predicate Buffered(w: Bits, bytes: seq<byte>, buffer: nat, n: nat) {
    && n <= 23 && |w| == 8 * |bytes| + n && buffer < WORD
    && (forall j :: 0 <= j < |bytes| ==> Window(w, 8 * j, 8) == bytes[j])
    && buffer % LOW24 == Window(w, 8 * |bytes|, 24)
  }

  /** The bits in use are above those of the new code. */
  lemma {:induction false} BufferAligned(w: Bits, bytes: seq<byte>, buffer: nat, n: nat, rest: nat)
    returns (z: nat)
    requires Buffered(w, bytes, buffer, n) && n + rest == 24
    ensures buffer == Shl(z, rest)
  {
    var q, pos := buffer / LOW24, 8 * |bytes|;
    WindowSplit(w, pos, n, rest, 24);
    WindowBeyond(w, pos + n, rest);
    z := Shl(q, n) + Window(w, pos, n);
    ShlTwice(q, n, rest);
    ShlAdds(Shl(q, n), Window(w, pos, n), rest);
    ShlIsProduct(q, 24);
    PowerValues();
  }

  lemma {:induction false} KeepWindows(w: Bits, x: Bits, bytes: seq<byte>)
    requires |w| >= 8 * |bytes| && forall j :: 0 <= j < |bytes| ==> Window(w, 8 * j, 8) == bytes[j]
    ensures forall j :: 0 <= j < |bytes| ==> Window(w + x, 8 * j, 8) == bytes[j]
  {
    forall j | 0 <= j < |bytes| ensures Window(w + x, 8 * j, 8) == bytes[j] {
      WindowInFirst(w, x, 8 * j, 8);
    }
  }

  /** A code of size bits, shifted to its place and merged with the buffer. */
  lemma {:induction false} MergeCode(w: Bits, bytes: seq<byte>, buffer: nat, n: nat, code: nat, size: nat, rest: nat)
    requires Buffered(w, bytes, buffer, n) && code < Pow2(size) && n + size + rest == 24 && n + size <= 23
    ensures Buffered(w + ToBits(code, size), bytes, Or(Shl(code, rest), buffer), n + size)
  {
    var k := size + rest;
    var z := BufferAligned(w, bytes, buffer, n, k);
    ShlBelow(code, size, rest, k);
    OrIsSum(Shl(code, rest), z, k, buffer);
    KeepWindows(w, ToBits(code, size), bytes);
    AppendInWindow(w, 8 * |bytes|, code, size, rest, 24);
    WindowBound(w + ToBits(code, size), 8 * |bytes|, 24);
    PowerValues();
    SumBelow(buffer, Shl(code, rest), Window(w + ToBits(code, size), 8 * |bytes|, 24));
  }

  lemma {:induction false} ShlBelow(code: nat, size: nat, rest: nat, k: nat)
    requires code < Pow2(size) && k == size + rest
    ensures Shl(code, rest) < Pow2(k)
  {
    if rest > 0 {
      ShlBelow(code, size, rest - 1, k - 1);
    }
  }

  lemma SumBelow(buffer: nat, x: nat, v: nat)
    requires buffer < WORD && v == buffer % LOW24 + x < LOW24
    ensures buffer + x < WORD && (buffer + x) % LOW24 == v
  {
  }

  /** The eight leftmost bits become a byte. */
  lemma {:induction false} TakeByte(w: Bits, bytes: seq<byte>, buffer: nat, n: nat) returns (c: byte)
    requires Buffered(w, bytes, buffer, n) && n >= 8
    ensures c == buffer / 0x1_0000 % 0x100
    ensures Buffered(w, bytes + [c], buffer * 0x100 % WORD, n - 8)
  {
    var pos := 8 * |bytes|;
    var first, last := Window(w, pos, 8), Window(w, pos + 8, 16);
    WindowSplit(w, pos, 8, 16, 24);
    ShlIsProduct(first, 16);
    WindowBound(w, pos, 8);
    WindowBound(w, pos + 8, 16);
    PowerValues();
    WindowSplit(w, pos + 8, 16, 8, 24);
    ShlIsProduct(last, 8);
    WindowBeyond(w, pos + 24, 8);
    ShiftOut(buffer, first, last);
    c := first;
  }

  lemma ShiftOut(buffer: nat, first: nat, last: nat)
    requires buffer % LOW24 == first * 0x1_0000 + last && first < 0x100 && last < 0x1_0000
    ensures buffer / 0x1_0000 % 0x100 == first
    ensures buffer * 0x100 % WORD % LOW24 == last * 0x100
  {
    var q := buffer / LOW24;
    assert buffer == (q * 0x100 + first) * 0x1_0000 + last;
    assert buffer / 0x1_0000 == q * 0x100 + first;
    var v := buffer * 0x100;
    assert v == (q * 0x100 + first) * LOW24 + last * 0x100;
    assert v % WORD == v - v / WORD * 0x100 * LOW24;
  }

  /** The output end of an encoder: bytes, bit buffer, and the DC predictions. */
  class Writer {
    var out: seq<byte>
    var putBuffer: nat
    var putBits: nat
    var lastDc: seq<int>
    ghost var flushed: seq<byte>   // output before the current segment
    ghost var bytes: seq<byte>     // code bytes of the current segment
    ghost var written: Bits        // bits of the current segment

    ghost predicate Valid()
      reads this
    {
      forall k {:trigger Key(k)} :: Key(k) ==>
        out == flushed + Stuff(bytes) && putBits <= 7 && Buffered(written, bytes, putBuffer, putBits)
    }

    constructor (comps: nat)
      ensures Valid() && out == flushed == [] && written == [] && lastDc == seq(comps, c => 0)
    {
      out, flushed, bytes, written := [], [], [], [];
      putBuffer, putBits := 0, 0;
      lastDc := seq(comps, c => 0);
      new;
      WindowBeyond(written, 0, 24);
    }

    /** Emits the last size bits of a code; refuses a size of zero, the mark of a missing code. */
    method EmitBits(code: int, size: nat) returns (ok: bool)
      requires Valid() && size <= 16
      modifies this`out, this`putBuffer, this`putBits, this`bytes, this`written
      ensures Valid() && (ok <==> size != 0)
      ensures written == old(written) + if ok then ToBits(code % Pow2(size), size) else []
    {
      if size == 0 { return false; }
      assert Key(0);
      var buffer: nat, n := code % Pow2(size), putBits;
      MergeCode(written, bytes, putBuffer, n, buffer, size, 24 - n - size);
      written := written + ToBits(buffer, size);
      n := n + size;
      putBuffer, putBits := Or(Shl(buffer, 24 - n), putBuffer), n;
      EmitFullBytes();
      return true;
    }

    /** Sends the full bytes of the buffer. */
    method EmitFullBytes()
      requires out == flushed + Stuff(bytes) && Buffered(written, bytes, putBuffer, putBits)
      modifies this`out, this`putBuffer, this`putBits, this`bytes
      ensures Valid()
    {
      while putBits >= 8
        invariant out == flushed + Stuff(bytes) && Buffered(written, bytes, putBuffer, putBits)
      {
        ghost var first := TakeByte(written, bytes, putBuffer, putBits);
        StuffAppend(bytes, first);
        var c := putBuffer / 0x1_0000 % 0x100;
        out := out + [c];
        if c == 0xFF {
          out := out + [0];
        }
        bytes := bytes + [c];
        putBuffer, putBits := putBuffer * 0x100 % WORD, putBits - 8;
      }
    }

    /** Fills the last byte with ones and empties the buffer. */
    method FlushBits()
      requires Valid()
      modifies this`out, this`putBuffer, this`putBits, this`bytes, this`written, this`flushed
      ensures Valid() && written == [] && flushed == out
      ensures exists segment :: out == old(flushed) + Stuff(segment) && Padded(old(written), segment)
    {
      ghost var segment := PadWithOnes();
      putBuffer, putBits := 0, 0;
      flushed, bytes, written := out, [], [];
      assert out == old(flushed) + Stuff(segment) && Padded(old(written), segment);
      WindowBeyond(written, 0, 24);
    }

    method PadWithOnes() returns (ghost segment: seq<byte>)
      requires Valid()
      modifies this`out, this`putBuffer, this`putBits, this`bytes, this`written
      ensures out == flushed + Stuff(segment) && Padded(old(written), segment)
    {
      var size := 7;
      var _ := EmitBits(0x7F, size);
      segment := bytes;
      PadBits(old(written), written, size);
      assert Key(0);
      DropRest(old(written), written, bytes, putBuffer, putBits);
    }

    /** A restart: a marker between two segments, and predictions from zero. */
    method EmitRestart(num: nat)
      requires Valid() && num < 8
      modifies this
      ensures Valid() && written == [] && flushed == out && lastDc == seq(|old(lastDc)|, c => 0)
      ensures exists segment :: out == old(flushed) + Stuff(segment) + [0xFF, RST0 + num] && Padded(old(written), segment)
    {
      FlushBits();
      ghost var segment :| out == old(flushed) + Stuff(segment) && Padded(old(written), segment);
      assert Key(0);
      out := out + [0xFF];
      out := out + [RST0 + num];
      flushed, bytes := out, [];
      assert out == old(flushed) + Stuff(segment) + [0xFF, RST0 + num];
      lastDc := seq(|lastDc|, c => 0);
    }
  }

  /** The bytes hold the bits and fewer than eight ones. */
  ghost predicate Padded(w: Bits, segment: seq<byte>) {
    exists all :: Packs(all, segment) && PaddedBits(w, all)
  }

  predicate PaddedBits(w: Bits, all: Bits) {
    |w| <= |all| < |w| + 8 && all[..|w|] == w && forall k :: |w| <= k < |all| ==> all[k]
  }

  lemma {:induction false} AllOnes(code: nat, size: nat)
    requires code == Pow2(size) - 1
    ensures forall k :: 0 <= k < size ==> ToBits(code, size)[k]
  {
    if size > 0 {
      AllOnes(code / 2, size - 1);
    }
  }

  lemma {:induction false} PadBits(w: Bits, all: Bits, size: nat)
    requires size == 7 && all == w + ToBits(0x7F % Pow2(size), size)
    ensures |all| == |w| + 7 && PaddedBits(w, all)
  {
    PowerValues();
    OnesAppended(w, all, 0x7F % Pow2(size), size);
  }

  lemma {:induction false} OnesAppended(w: Bits, all: Bits, code: nat, size: nat)
    requires code == Pow2(size) - 1 && size < 8 && all == w + ToBits(code, size)
    ensures PaddedBits(w, all)
  {
    AllOnes(code, size);
  }

  lemma {:induction false} DropRest(w: Bits, all: Bits, bytes: seq<byte>, buffer: nat, n: nat)
    requires Buffered(all, bytes, buffer, n) && n <= 7 && |all| == |w| + 7 && PaddedBits(w, all)
    ensures Padded(w, bytes)
  {
    var full := all[..8 * |bytes|];
    assert all == full + all[8 * |bytes|..];
    forall j | 0 <= j < |bytes| ensures Window(full, 8 * j, 8) == bytes[j] {
      WindowInFirst(full, all[8 * |bytes|..], 8 * j, 8);
    }
    assert Packs(full, bytes) && PaddedBits(w, full);
  }
}
