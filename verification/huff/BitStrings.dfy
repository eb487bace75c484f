/** Bit strings and the numbers read from them. A reader sees zeros after the last bit. */
module BitStrings {
  import opened Powers
  import opened ByteStream

  type Bits = seq<bool>

  /** x | y */
  function Or(x: nat, y: nat): nat
    decreases x + y
  {
    if x == 0 then y else if y == 0 then x
    else 2 * Or(x / 2, y / 2) + (if x % 2 == 1 || y % 2 == 1 then 1 else 0)
  }

  lemma {:induction false} OrIsSum(x: nat, z: nat, k: nat, y: nat)
    requires x < Pow2(k) && y == Shl(z, k)
    ensures Or(x, y) == x + y
    decreases k
  {
    if k > 0 {
      OrIsSum(x / 2, z, k - 1, y / 2);
    }
  }

  function BitAt(w: Bits, k: nat): (b: nat)
    ensures b < 2
  {
    if k < |w| && w[k] then 1 else 0
  }

  /** The n bits from position pos as a number. */
  function Window(w: Bits, pos: nat, n: nat): nat {
    if n == 0 then 0 else 2 * Window(w, pos, n - 1) + BitAt(w, pos + n - 1)
  }

  lemma {:induction false} WindowBound(w: Bits, pos: nat, n: nat)
    ensures Window(w, pos, n) < Pow2(n)
  {
    if n > 0 {
      WindowBound(w, pos, n - 1);
    }
  }

  /** A window of t bits is its first m bits followed by the other n. */
  lemma {:induction false} WindowSplit(w: Bits, pos: nat, m: nat, n: nat, t: nat)
    requires t == m + n
    ensures Window(w, pos, t) == Shl(Window(w, pos, m), n) + Window(w, pos + m, n)
  {
    if n > 0 {
      WindowSplit(w, pos, m, n - 1, t - 1);
    }
  }

  lemma {:induction false} WindowInFirst(x: Bits, y: Bits, pos: nat, n: nat)
    requires pos + n <= |x|
    ensures Window(x + y, pos, n) == Window(x, pos, n)
  {
    if n > 0 {
      WindowInFirst(x, y, pos, n - 1);
    }
  }

  lemma {:induction false} WindowInSecond(x: Bits, y: Bits, pos: nat, q: nat, n: nat)
    requires pos == |x| + q
    ensures Window(x + y, pos, n) == Window(y, q, n)
  {
    if n > 0 {
      WindowInSecond(x, y, pos, q, n - 1);
    }
  }

  lemma {:induction false} WindowBeyond(w: Bits, pos: nat, n: nat)
    requires pos >= |w|
    ensures Window(w, pos, n) == 0
  {
    if n > 0 {
      WindowBeyond(w, pos, n - 1);
    }
  }

  /** The last size bits of a number, most significant first. */
  function ToBits(code: nat, size: nat): (w: Bits)
    ensures |w| == size
  {
    if size == 0 then [] else ToBits(code / 2, size - 1) + [code % 2 == 1]
  }

  lemma {:induction false} ReadBack(code: nat, size: nat)
    requires code < Pow2(size)
    ensures Window(ToBits(code, size), 0, size) == code
  {
    if size > 0 {
      ReadBack(code / 2, size - 1);
      WindowInFirst(ToBits(code / 2, size - 1), [code % 2 == 1], 0, size - 1);
    }
  }

  /** Appended bits fill the place of zeros. */
  lemma {:induction false} AppendInWindow(w: Bits, pos: nat, code: nat, size: nat, rest: nat, t: nat)
    requires pos <= |w| && code < Pow2(size) && t == |w| - pos + size + rest
    ensures Window(w + ToBits(code, size), pos, t) == Window(w, pos, t) + Shl(code, rest)
  {
    var n, x := |w| - pos, ToBits(code, size);
    WindowSplit(w + x, pos, n, size + rest, t);
    WindowSplit(w, pos, n, size + rest, t);
    WindowInFirst(w, x, pos, n);
    assert w + [] == w;
    WindowInSecond(w, x, |w|, 0, size + rest);
    WindowBeyond(w, |w|, size + rest);
    WindowSplit(x, 0, size, rest, size + rest);
    WindowBeyond(x, size, rest);
    ReadBack(code, size);
  }

  /** The bits fill the bytes. */
  ghost predicate Packs(w: Bits, bytes: seq<byte>) {
    |w| == 8 * |bytes| && forall j :: 0 <= j < |bytes| ==> Window(w, 8 * j, 8) == bytes[j]
  }

  /** The bits of x are found at a position. */
  predicate BeginsAt(w: Bits, pos: nat, x: Bits) {
    pos + |x| <= |w| && w[pos..pos + |x|] == x
  }

  lemma {:induction false} WindowThere(w: Bits, pos: nat, x: Bits, p: nat, q: nat, n: nat)
    requires BeginsAt(w, pos, x) && p == pos + q && q + n <= |x|
    ensures Window(w, p, n) == Window(x, q, n)
  {
    if n > 0 {
      WindowThere(w, pos, x, p, q, n - 1);
      assert w[pos..pos + |x|][q + n - 1] == w[p + n - 1];
    }
  }

  lemma BeginsSplit(w: Bits, pos: nat, x: Bits, y: Bits)
    requires BeginsAt(w, pos, x + y)
    ensures BeginsAt(w, pos, x) && BeginsAt(w, pos + |x|, y)
  {
    assert w[pos..pos + |x|] == (x + y)[..|x|];
    assert w[pos + |x|..pos + |x| + |y|] == (x + y)[|x|..];
  }
}
