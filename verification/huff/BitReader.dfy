/** Reading bits through a 32-bit buffer: code bytes without their stuffing up to a marker, and zeros
    behind it. */
module BitReader {
  import opened Powers
  import opened ByteStream
  import opened BitStrings

  const WORD := 0x1_0000_0000

  // ----- the buffer -----

  /** The last held bits of the buffer are the held bits that end at position end. */
  ghost predicate Holds(data: Bits, end: nat, buffer: nat, held: nat) {
    held <= 32 && held <= end && buffer < WORD && buffer % Pow2(held) == Window(data, end - held, held)
  }

  lemma {:induction false} ModOfMod(x: nat, a: nat, b: nat, t: nat)
    requires t == a + b
    ensures x % Pow2(t) % Pow2(a) == x % Pow2(a)
  {
    PowerOfSum(t, b, a);
    ModOfProduct(x, Pow2(a), Pow2(b), Pow2(t));
  }

  lemma ModOfProduct(x: nat, m: nat, k: nat, mk: nat)
    requires m > 0 && mk > 0 && mk == k * m
    ensures x % mk % m == x % m
  {
    var q, r := x / mk, x % mk;
    assert x == q * mk + r;
    Reorder(q, k, m);
    var d, v := r / m, r % m;
    assert r == d * m + v;
    Distribute(q * k, 1, d, m);
    MultipleOf(x, m, q * k + d, v);
  }

  /** Fewer bits are held as well. */
  lemma {:induction false} HoldsFewer(data: Bits, end: nat, buffer: nat, held: nat, n: nat)
    requires Holds(data, end, buffer, held) && n <= held
    ensures Holds(data, end, buffer, n)
  {
    var rest := held - n;
    ModOfMod(buffer, n, rest, held);
    WindowSplit(data, end - held, rest, n, held);
    ShlIsProduct(Window(data, end - held, rest), n);
    WindowBound(data, end - n, n);
    MultipleOf(buffer % Pow2(held), Pow2(n), Window(data, end - held, rest), Window(data, end - n, n));
  }

  lemma WordIsPower()
    ensures Pow2(32) == WORD
  {
    PowerValues();
    Pow2Add(16, 16);
  }

  lemma {:induction false} WindowTogether(data: Bits, pos: nat, held: nat, n: nat, all: nat, scale: nat)
    requires all == held + n && scale == Pow2(n)
    ensures Window(data, pos, all) == Window(data, pos, held) * scale + Window(data, pos + held, n) < Pow2(all)
    ensures Pow2(all) == Pow2(held) * scale
  {
    WindowSplit(data, pos, held, n, all);
    ShlIsProduct(Window(data, pos, held), n);
    WindowBound(data, pos, all);
    PowerOfSum(all, held, n);
  }

  lemma {:induction false} CutToWord(x: nat, all: nat)
    requires all <= 32
    ensures x % WORD % Pow2(all) == x % Pow2(all)
  {
    WordIsPower();
    ModOfMod(x, all, 32 - all, 32);
  }

  /** Shifting the next n bits in. */
  lemma {:induction false} ShiftIn(data: Bits, end: nat, buffer: nat, held: nat, n: nat, v: nat, all: nat, scale: nat)
    requires Holds(data, end, buffer, held) && all == held + n <= 32 && v == Window(data, end, n) && scale == Pow2(n)
    ensures Holds(data, end + n, (buffer * scale + v) % WORD, all)
  {
    var pos := end - held;
    var w := Window(data, pos, held);
    WindowTogether(data, pos, held, n, all, scale);
    var x := ShiftArithmetic(buffer, Pow2(held), w, scale, v, Pow2(all));
    CutHolds(data, end + n, x, all);
  }

  lemma CutHolds(data: Bits, end: nat, x: nat, held: nat)
    requires held <= end && held <= 32 && x % Pow2(held) == Window(data, end - held, held)
    ensures Holds(data, end, x % WORD, held)
  {
    CutToWord(x, held);
  }

  lemma ShiftArithmetic(buffer: nat, p: nat, w: nat, scale: nat, v: nat, m: nat) returns (x: nat)
    requires p > 0 && buffer % p == w && m == p * scale && w * scale + v < m
    ensures x == buffer * scale + v && x % m == w * scale + v
  {
    x := buffer * scale + v;
    var q := buffer / p;
    Distribute(q, p, w, scale);
    MultipleOf(x, m, q, w * scale + v);
  }

  lemma Distribute(q: int, p: int, r: int, scale: int)
    ensures (q * p + r) * scale == q * (p * scale) + r * scale
  {
  }

  /** Taking n bits out from above the last rest bits. */
  lemma {:induction false} TakeOut(data: Bits, end: nat, buffer: nat, n: nat, rest: nat, held: nat)
    requires Holds(data, end, buffer, held) && held == n + rest
    ensures buffer / Pow2(rest) % Pow2(n) == Window(data, end - held, n)
  {
    WindowSplit(data, end - held, n, rest, held);
    var first, last := Window(data, end - held, n), Window(data, end - rest, rest);
    ShlIsProduct(first, rest);
    WindowBound(data, end - held, n);
    WindowBound(data, end - rest, rest);
    PowerOfSum(held, n, rest);
    TakeArithmetic(buffer, Pow2(n), Pow2(rest), first, last, Pow2(held));
  }

  lemma TakeArithmetic(buffer: nat, p: nat, r: nat, first: nat, last: nat, m: nat)
    requires m > 0 && m == p * r && buffer % m == first * r + last && last < r && first < p
    ensures buffer / r % p == first
  {
    var q := buffer / m;
    Distribute(q, p, first, r);
    QuotientIs(buffer, r, q * p + first, last);
    MultipleOf(q * p + first, p, q, first);
  }

  lemma {:induction false} TakeNext(data: Bits, pos: nat, left: nat, buffer: nat, held: nat, n: nat)
    requires Holds(data, pos + left, buffer, held) && n <= left <= held
    ensures buffer / Pow2(left - n) % Pow2(n) == Window(data, pos, n)
  {
    HoldsFewer(data, pos + left, buffer, held, left);
    TakeOut(data, pos + left, buffer, n, left - n, left);
  }

  // ----- the input -----

  /** From position p on the input holds the code bytes from the next one on, a marker, and the rest. */
  predicate Ahead(input: seq<byte>, p: nat, bytes: seq<byte>, next: nat, ending: byte, rest: seq<byte>) {
    p <= |input| && next <= |bytes| && input[p..] == Stuff(bytes[next..]) + [0xFF, ending] + rest
  }

  lemma ByteAhead(input: seq<byte>, p: nat, bytes: seq<byte>, next: nat, ending: byte, rest: seq<byte>)
    requires Ahead(input, p, bytes, next, ending, rest) && next < |bytes|
    ensures p < |input| && input[p] == bytes[next]
    ensures input[p] != 0xFF ==> Ahead(input, p + 1, bytes, next + 1, ending, rest)
    ensures input[p] == 0xFF ==> p + 1 < |input| && input[p + 1] == 0 && Ahead(input, p + 2, bytes, next + 1, ending, rest)
  {
    var b, tail := bytes[next], Stuff(bytes[next + 1..]) + [0xFF, ending] + rest;
    assert bytes[next..][1..] == bytes[next + 1..];
    if b == 0xFF {
      assert input[p..] == [0xFF, 0] + tail;
      assert input[p] == input[p..][0] && input[p + 1] == input[p..][1];
      assert input[p + 2..] == input[p..][2..] == tail;
    } else {
      assert input[p..] == [b] + tail;
      assert input[p] == input[p..][0];
      assert input[p + 1..] == input[p..][1..] == tail;
    }
  }

  lemma MarkerAhead(input: seq<byte>, p: nat, bytes: seq<byte>, next: nat, ending: byte, rest: seq<byte>)
    requires Ahead(input, p, bytes, next, ending, rest) && next == |bytes|
    ensures p + 2 <= |input| && input[p] == 0xFF && input[p + 1] == ending && input[p + 2..] == rest
  {
    assert bytes[next..] == [];
    assert input[p..] == [0xFF, ending] + rest;
    assert input[p] == input[p..][0] && input[p + 1] == input[p..][1];
    assert input[p + 2..] == input[p..][2..];
  }

  /** The code bytes of a segment, their bits, the marker that ends it, and what follows. */
  datatype Part = Part(bytes: seq<byte>, data: Bits, ending: byte, rest: seq<byte>)

  ghost predicate IsPart(s: Part) {
    Packs(s.data, s.bytes) && s.ending != 0
  }

  /** The buffer, the input and the position in the segment fit together. */
  ghost predicate Loaded(input: seq<byte>, p: nat, s: Part, next: nat, pos: nat, left: nat, buffer: nat, held: nat, marker: int)
  {
    forall k {:trigger Key(k)} :: Key(k) ==>
      && p <= |input| && left <= held && IsPart(s) && Holds(s.data, pos + left, buffer, held)
      && if marker == 0 then Ahead(input, p, s.bytes, next, s.ending, s.rest) && pos + left == 8 * next
         else marker == s.ending && pos + left >= |s.data| && input[p..] == s.rest
  }

  lemma LoadedFacts(input: seq<byte>, p: nat, s: Part, next: nat, pos: nat, left: nat, buffer: nat, held: nat, marker: int)
    requires Loaded(input, p, s, next, pos, left, buffer, held, marker)
    ensures left <= held && IsPart(s) && Holds(s.data, pos + left, buffer, held) && p <= |input|
    ensures marker == 0 ==> Ahead(input, p, s.bytes, next, s.ending, s.rest)
    ensures marker != 0 ==> marker == s.ending && input[p..] == s.rest
  {
    assert Key(0);
  }

  lemma LoadedByte(input: seq<byte>, p: nat, s: Part, next: nat, pos: nat, left: nat, buffer: nat, held: nat, p2: nat)
    requires Loaded(input, p, s, next, pos, left, buffer, held, 0) && left <= 24 && next < |s.bytes|
    requires Ahead(input, p2, s.bytes, next + 1, s.ending, s.rest)
    ensures Loaded(input, p2, s, next + 1, pos, left + 8, (buffer * 0x100 + s.bytes[next]) % WORD, left + 8, 0)
  {
    assert Key(0);
    ByteIn(s, pos, left, buffer, held, next);
  }

  lemma LoadedEnd(input: seq<byte>, p: nat, s: Part, next: nat, pos: nat, left: nat, buffer: nat, held: nat, p2: nat)
    requires Loaded(input, p, s, next, pos, left, buffer, held, 0) && next == |s.bytes|
    requires p2 <= |input| && input[p2..] == s.rest
    ensures Loaded(input, p2, s, next, pos, left, buffer, held, s.ending)
  {
    assert Key(0);
  }

  lemma LoadedZeros(input: seq<byte>, p: nat, s: Part, next: nat, pos: nat, left: nat, buffer: nat, held: nat, marker: int)
    requires Loaded(input, p, s, next, pos, left, buffer, held, marker) && marker != 0 && left <= 16
    ensures Loaded(input, p, s, next, pos, left + 16, buffer * 0x1_0000 % WORD, left + 16, marker)
  {
    assert Key(0);
    HoldsFewer(s.data, pos + left, buffer, held, left);
    WindowBeyond(s.data, pos + left, 16);
    PowerValues();
    ShiftIn(s.data, pos + left, buffer, left, 16, 0, left + 16, 0x1_0000);
  }

  lemma Taken(input: seq<byte>, p: nat, s: Part, next: nat, pos: nat, left: nat, buffer: nat, held: nat, marker: int,
              pos2: nat, left2: nat)
    requires Loaded(input, p, s, next, pos, left, buffer, held, marker) && pos2 + left2 == pos + left && left2 <= held
    ensures Loaded(input, p, s, next, pos2, left2, buffer, held, marker)
  {
    assert Key(0);
  }

  lemma {:induction false} ByteIn(s: Part, pos: nat, left: nat, buffer: nat, held: nat, next: nat)
    requires IsPart(s) && Holds(s.data, pos + left, buffer, held) && left <= held && left <= 24 && pos + left == 8 * next
    requires next < |s.bytes|
    ensures Holds(s.data, pos + left + 8, (buffer * 0x100 + s.bytes[next]) % WORD, left + 8)
  {
    HoldsFewer(s.data, pos + left, buffer, held, left);
    PowerValues();
    ShiftIn(s.data, pos + left, buffer, left, 8, s.bytes[next], left + 8, 0x100);
  }

  class Reader {
    const input: seq<byte>
    var p: nat
    var bits: nat
    var left: nat
    var marker: int
    ghost var part: Part        // the current segment
    ghost var next: nat         // number of code bytes in the buffer or gone through it
    ghost var pos: nat          // bits taken from the segment
    ghost var held: nat         // bits still in the buffer, taken or not

    ghost predicate Valid()
      reads this
    {
      p <= |input| && left <= held <= 32 && Loaded(input, p, part, next, pos, left, bits, held, marker)
    }

    constructor (input: seq<byte>, ghost part: Part)
      requires Ahead(input, 0, part.bytes, 0, part.ending, part.rest) && IsPart(part)
      ensures Valid() && this.input == input && this.part == part && pos == 0
    {
      this.input := input;
      p, bits, left, marker := 0, 0, 0, 0;
      this.part, next, pos, held := part, 0, 0, 0;
    }

    /** Reads a byte, and the one behind it after 0xFF: m is the marker's second byte, or zero. */
    method ReadByte() returns (b: byte, m: byte)
      requires Ahead(input, p, part.bytes, next, part.ending, part.rest) && part.ending != 0
      modifies this`p
      ensures p <= |input| && next <= |part.bytes|
      ensures next < |part.bytes| ==>
        b == part.bytes[next] && m == 0 && Ahead(input, p, part.bytes, next + 1, part.ending, part.rest)
      ensures next == |part.bytes| ==> b == 0xFF && m == part.ending && input[p..] == part.rest
    {
      if next < |part.bytes| {
        ByteAhead(input, p, part.bytes, next, part.ending, part.rest);
      } else {
        MarkerAhead(input, p, part.bytes, next, part.ending, part.rest);
      }
      b, m := input[p], 0;
      p := p + 1;
      if b == 0xFF {
        m := input[p];
        p := p + 1;
      }
    }

    /** Loads one code byte, or finds the marker. */
    method LoadByte() returns (found: bool)
      requires Valid() && marker == 0 && left <= 24
      modifies this`p, this`bits, this`left, this`marker, this`next, this`held
      ensures Valid() && (found <==> marker != 0)
      ensures left == if found then old(left) else old(left) + 8
    {
      LoadedFacts(input, p, part, next, pos, left, bits, held, marker);
      ghost var before := p;
      var b, m := ReadByte();
      if m != 0 {
        LoadedEnd(input, before, part, next, pos, left, bits, held, p);
        marker := m;
        return true;
      }
      LoadedByte(input, before, part, next, pos, left, bits, held, p);
      bits := (bits * 0x100 + b) % WORD;
      left := left + 8;
      next, held := next + 1, left;
      return false;
    }

    /** Zeros behind the marker. */
    method LoadZeros()
      requires Valid() && marker != 0
      modifies this`bits, this`left, this`held
      ensures Valid() && left == if old(left) <= 16 then old(left) + 16 else old(left)
    {
      if left <= 16 {
        LoadedZeros(input, p, part, next, pos, left, bits, held, marker);
        bits := bits * 0x1_0000 % WORD;
        left := left + 16;
        held := left;
      }
    }

    /** Fills the buffer: with code bytes as far as they go, with zeros at the marker. */
    method FillBits()
      requires Valid()
      modifies this`p, this`bits, this`left, this`marker, this`next, this`held
      ensures Valid() && left >= 16 && (old(marker) != 0 ==> marker == old(marker))
      ensures left >= old(left) && (marker == 0 ==> left > 24)
    {
      if marker != 0 {
        LoadZeros();
        return;
      }
      while left <= 24
        invariant Valid() && marker == 0 && left >= old(left)
        decreases 32 - left
      {
        var found := LoadByte();
        if found {
          LoadZeros();
          break;
        }
      }
    }

    /** The next n bits. */
    method GetBits(n: nat) returns (x: nat)
      requires Valid() && 1 <= n <= 16
      modifies this`p, this`bits, this`left, this`marker, this`next, this`held, this`pos
      ensures Valid() && x == Window(part.data, old(pos), n) && pos == old(pos) + n && held >= left + n
      ensures old(marker) != 0 ==> marker == old(marker)
    {
      if left < n {
        FillBits();
      }
      LoadedFacts(input, p, part, next, pos, left, bits, held, marker);
      TakeNext(part.data, pos, left, bits, held, n);
      Taken(input, p, part, next, pos, left, bits, held, marker, pos + n, left - n);
      left := left - n;
      pos := pos + n;
      x := bits / Pow2(left) % Pow2(n);
    }

    /** Gives back the last n bits taken. */
    method UngetBits(n: nat)
      requires Valid() && left + n <= held && n <= pos
      modifies this`left, this`pos
      ensures Valid() && pos == old(pos) - n && held == old(held)
    {
      Taken(input, p, part, next, pos, left, bits, held, marker, pos - n, left + n);
      left := left + n;
      pos := pos - n;
    }

    /** Reads the marker that ends the segment, when fewer than eight bits are left before it. */
    method ReadMarker(ghost following: Part) returns (m: int)
      requires Valid() && pos + 8 > |part.data|
      modifies this
      ensures m == old(part.ending)
      ensures Follows(old(part.rest), following) ==> Valid() && part == following && pos == 0
    {
      FillBits();
      MarkerFound(input, p, part, next, pos, left, bits, held, marker);
      m := marker;
      if m == 0 { return; }
      NextSegment(input, p, part, next, pos, left, bits, held, marker, following);
      left, marker := 0, 0;
      part, next, pos, held := following, 0, 0, 0;
    }
  }

  /** What comes after a marker is another segment. */
  ghost predicate Follows(rest: seq<byte>, following: Part) {
    IsPart(following) && rest == Stuff(following.bytes) + [0xFF, following.ending] + following.rest
  }

  lemma MarkerFound(input: seq<byte>, p: nat, s: Part, next: nat, pos: nat, left: nat, buffer: nat, held: nat, marker: int)
    requires Loaded(input, p, s, next, pos, left, buffer, held, marker) && pos + 8 > |s.data| && (marker == 0 ==> left > 24)
    ensures marker != 0 && marker == s.ending
  {
    assert Key(0);
  }

  lemma NextSegment(input: seq<byte>, p: nat, s: Part, next: nat, pos: nat, left: nat, buffer: nat, held: nat, marker: int,
                    following: Part)
    requires Loaded(input, p, s, next, pos, left, buffer, held, marker) && marker != 0
    ensures Follows(s.rest, following) ==> p <= |input| && Loaded(input, p, following, 0, 0, 0, buffer, 0, 0)
  {
    assert Key(0);
    if Follows(s.rest, following) {
      assert following.bytes[0..] == following.bytes;
      assert buffer % Pow2(0) == 0;
    }
  }
}
