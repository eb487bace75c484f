/** Decoding by table: one lookup for the next ten bits, a bit-by-bit loop for longer codes. It reads the
    same symbols from the same bits as decoding bit by bit from the start. */
module FastDecoder {
  import opened Powers
  import opened BitStrings
  import opened CanonicalCode
  import opened DerivedTable
  import opened BlockCode
  import opened CodeReading
  import opened LookupTable
  import opened BitReader

  const BAD_HUFF := -1

  lemma {:induction false} ShrOfWindow(w: Bits, q: nat, n: nat, k: nat)
    requires k <= n
    ensures Shr(Window(w, q, n), k) == Window(w, q, n - k)
  {
    if k > 0 {
      ShrOfWindow(w, q, n - 1, k - 1);
    }
  }

  lemma {:induction false} TenBits(w: Bits, pos: nat)
    ensures Window(w, pos, DECBITS) < LOOKUPS
  {
    WindowBound(w, pos, DECBITS);
    PowerValues();
    Pow2Add(2, 8);
  }

  lemma EntrySlot(bits: seq<nat>, w: Bits, pos: nat, p: nat, l: nat)
    requires |bits| == LENGTHS && Placed(bits, p, l) && p < Total(bits) && l <= DECBITS && Window(w, pos, l) == CodeAt(bits, p)
    ensures IsEntry(bits, p, Window(w, pos + l, DECBITS - l))
    ensures Slot(bits, p, Window(w, pos + l, DECBITS - l)) == Window(w, pos, DECBITS) < Shl(End(bits, DECBITS), 0)
  {
    PlacedSize(bits, p, l);
    CodeBounds(bits, p);
    var d := Window(w, pos + l, DECBITS - l);
    WindowBound(w, pos + l, DECBITS - l);
    WindowSplit(w, pos, l, DECBITS - l, DECBITS);
    SlotsInOrder(bits, p, d, End(bits, DECBITS), DECBITS);
  }

  /** What the table holds for the next ten bits. */
  lemma EntryFound(t: HuffTable, llvals: seq<int>, w: Bits, pos: nat, one: nat)
    requires IsTable(t) && Legal(t.bits) && Filled(t, llvals, End(t.bits, DECBITS)) && one == 1
    ensures Window(w, pos, DECBITS) < |llvals|
    ensures var l := CodeLength(t.bits, w, pos, one);
      if l <= DECBITS
      then llvals[Window(w, pos, DECBITS)] ==
           EntryFor(t.huffval[Position(t.bits, w, pos, l)], l, Window(w, pos + l, DECBITS - l))
      else llvals[Window(w, pos, DECBITS)] == 0
  {
    TenBits(w, pos);
    var l := CodeLength(t.bits, w, pos, one);
    if l <= DECBITS {
      var p := Position(t.bits, w, pos, l);
      PlacedSize(t.bits, p, l);
      EntrySlot(t.bits, w, pos, p, l);
      assert Shl(End(t.bits, DECBITS), 0) == End(t.bits, DECBITS);
      SlotHolds(t, llvals, p, Window(w, pos + l, DECBITS - l));
    } else {
      SlotEmpty(t, llvals, Window(w, pos, DECBITS));
    }
  }

  lemma SlotHolds(t: HuffTable, llvals: seq<int>, p: nat, d: nat)
    requires IsTable(t) && Legal(t.bits) && Filled(t, llvals, End(t.bits, DECBITS))
    requires IsEntry(t.bits, p, d) && Slot(t.bits, p, d) < End(t.bits, DECBITS)
    ensures Slot(t.bits, p, d) < |llvals|
    ensures llvals[Slot(t.bits, p, d)] == EntryFor(t.huffval[p], SizeAt(t.bits, p), d)
  {
    assert Key(0);
  }

  lemma SlotEmpty(t: HuffTable, llvals: seq<int>, r: nat)
    requires IsTable(t) && Legal(t.bits) && Filled(t, llvals, End(t.bits, DECBITS)) && End(t.bits, DECBITS) <= r < LOOKUPS
    ensures llvals[r] == 0
  {
    assert Key(0);
  }

  /** The fields of an entry are those of the symbol that is read bit by bit. */
  lemma EntryFields(rs: nat, l: nat, w: Bits, pos: nat, e: int)
    requires rs < 256 && 1 <= l <= DECBITS && e == EntryFor(rs, l, Window(w, pos + l, DECBITS - l))
    ensures e / 0x100 % 16 == rs / 16
    ensures if rs % 16 + l <= DECBITS
            then e / 0x80 % 2 == 1 && e % 0x80 == DECBITS - l - rs % 16
                 && e / 0x1_0000 == Extend(Window(w, pos + l, rs % 16), rs % 16)
            else e / 0x80 % 2 == 0 && e % 0x80 == DECBITS - l && e / 0x1_0000 == rs % 16
  {
    var v, d := rs % 16, Window(w, pos + l, DECBITS - l);
    if v + l <= DECBITS {
      ShrOfWindow(w, pos + l, DECBITS - l, DECBITS - l - v);
      Unpack(Extend(Shr(d, DECBITS - l - v), v), rs / 16, true, DECBITS - l - v, 0x80 + DECBITS - l - v);
    } else {
      Unpack(v, rs / 16, false, DECBITS - l, DECBITS - l);
    }
  }

  /** The symbols in use are bytes. */
  predicate Bytes(t: HuffTable) {
    forall p :: 0 <= p < Total(t.bits) && p < |t.huffval| ==> t.huffval[p] < 256
  }

  /** What reading a symbol did: the result of bit-by-bit decoding, or the mark of a code that is none. */
  twostate predicate Decoded(input: Reader, reading: Reading, start: nat, run: nat, value: int)
    reads input
  {
    && input.part == old(input.part)
    && match reading
       case Reading(r, v, len) => input.Valid() && run == r && value == v && input.pos == start + len
       case NoCode => value == 0 && input.marker == BAD_HUFF
  }

  /** The code is longer than n bits. */
  ghost predicate LongerThan(t: HuffTable, w: Bits, pos: nat, n: nat) {
    IsTable(t) && forall k {:trigger Key(k)} :: Key(k) ==> CodeLength(t.bits, w, pos, 1) > n
  }

  /** What an entry says about the symbol that is read. */
  predicate Tells(entry: int, reading: Reading, w: Bits, pos: nat) {
    && reading.Reading? && entry % 0x80 <= DECBITS && reading.run == entry / 0x100 % 16
    && var taken := DECBITS - entry % 0x80;
      if entry / 0x80 % 2 == 1 then reading.value == entry / 0x1_0000 && reading.len == taken
      else
        var size := entry / 0x1_0000;
        && 1 <= size <= 16 && reading.len == taken + size
        && reading.value == Extend(Window(w, pos + taken, size), size)
  }

  /** Receives a value of size bits after its symbol. */
  method Receive(input: Reader, size: nat) returns (c: int)
    requires input.Valid() && 1 <= size <= 16
    modifies input
    ensures input.Valid() && input.part == old(input.part) && input.pos == old(input.pos) + size
    ensures c == Extend(Window(input.part.data, old(input.pos), size), size)
  {
    c := input.GetBits(size);
    if c < Pow2(size - 1) {
      c := c + 1 - Pow2(size);
    }
  }

  /** Finds the length of a code of more than ten bits. */
  method LongCode(input: Reader, hu: DecHuff, c0: nat, ghost t: HuffTable, ghost start: nat) returns (i: nat, c: nat)
    requires input.Valid() && hu.Decodes(t) && LongerThan(t, input.part.data, start, DECBITS)
    requires input.pos == start + DECBITS && c0 == Window(input.part.data, start, DECBITS)
    modifies input
    ensures input.Valid() && input.part == old(input.part) && DECBITS <= i <= 16
    ensures LongerThan(t, input.part.data, start, i) && input.pos == start + i + 1
    ensures c == Window(input.part.data, start, i + 1) && (i < 16 ==> c < End(t.bits, i + 1))
  {
    ghost var w := input.part.data;
    i := DECBITS;
    var b := input.GetBits(1);
    c := 2 * c0 + b;
    NextBit(w, start, i, b);
    while c >= hu.maxcode[i]
      invariant DECBITS <= i <= 16 && LongerThan(t, w, start, i) && input.Valid() && input.part == old(input.part)
      invariant input.pos == start + i + 1 && c == Window(w, start, i + 1)
      decreases 16 - i
    {
      CodeLonger(hu, t, w, start, i);
      i := i + 1;
      b := input.GetBits(1);
      NextBit(w, start, i, b);
      c := 2 * c + b;
    }
    Limits(hu, t, i);
  }

  lemma NextBit(w: Bits, start: nat, i: nat, b: nat)
    requires b == Window(w, start + i, 1)
    ensures Window(w, start, i + 1) == 2 * Window(w, start, i) + b
  {
    assert Window(w, start + i, 1) == 2 * Window(w, start + i, 0) + BitAt(w, start + i);
  }

  lemma SeventeenBits(n: nat)
    requires n == 17
    ensures Pow2(n) == FOREVER
  {
    PowerValues();
    assert Pow2(n) == 2 * Pow2(n - 1);
  }

  /** The limit for seventeen bits is never reached, so the search ends. */
  lemma CodeLonger(hu: DecHuff, t: HuffTable, w: Bits, start: nat, i: nat)
    requires hu.Decodes(t) && LongerThan(t, w, start, i) && i <= 16 && Window(w, start, i + 1) >= hu.maxcode[i]
    ensures i < 16 && LongerThan(t, w, start, i + 1)
  {
    if i == 16 {
      SeventeenBits(i + 1);
      WindowBound(w, start, i + 1);
    } else {
      Limits(hu, t, i);
      assert Key(0);
      assert CodeLength(t.bits, w, start, 1) != i + 1;
    }
  }

  lemma Limits(hu: DecHuff, t: HuffTable, i: nat)
    requires hu.Decodes(t) && i <= 16
    ensures i < 16 ==> hu.maxcode[i] == End(t.bits, i + 1) && hu.valptr[i] == Before(t.bits, i + 1)
  {
    assert Key(0);
    if i < 16 {
      var m := i + 1;
      assert hu.maxcode[m - 1] == End(t.bits, m) && hu.valptr[m - 1] == Before(t.bits, m);
    }
  }

  lemma LongLength(t: HuffTable, w: Bits, start: nat, i: nat, one: nat)
    requires IsTable(t) && LongerThan(t, w, start, i) && 1 <= i <= 16 && one == 1
    requires i < 16 ==> Window(w, start, i + 1) < End(t.bits, i + 1)
    ensures CodeLength(t.bits, w, start, one) == i + 1
  {
    assert Key(0);
  }

  /** The symbol of a code of i + 1 bits; no symbol for sixteen bits that are no code. */
  lemma LongFound(hu: DecHuff, t: HuffTable, w: Bits, start: nat, i: nat, c: nat, reading: Reading)
    requires hu.Decodes(t) && Bytes(t) && reading == ReadSymbol(t, w, start) && LongerThan(t, w, start, i) && 1 <= i <= 16
    requires c == Window(w, start, i + 1) && (i < 16 ==> c < End(t.bits, i + 1))
    ensures i == 16 ==> reading == NoCode
    ensures i < 16 ==>
      var q := hu.valptr[i] + c - hu.maxcode[i - 1] * 2;
      && 0 <= q < TABLE_SIZE && hu.vals[q] < 256
      && var size := hu.vals[q] % 16;
        reading == Reading(hu.vals[q] / 16, Extend(Window(w, start + i + 1, size), size), i + 1 + size)
  {
    var one := 1;
    LongLength(t, w, start, i, one);
    ReadingAt(t, w, start, i + 1);
    if i < 16 {
      LongPlace(hu, t, w, start, i, c, one);
    }
  }

  /** Where the symbol of a long code is listed. */
  lemma LongPlace(hu: DecHuff, t: HuffTable, w: Bits, start: nat, i: nat, c: nat, one: nat)
    requires hu.Decodes(t) && Bytes(t) && 1 <= i < 16 && one == 1 && CodeLength(t.bits, w, start, one) == i + 1
    requires c == Window(w, start, i + 1) < End(t.bits, i + 1)
    ensures var q, p := hu.valptr[i] + c - hu.maxcode[i - 1] * 2, Position(t.bits, w, start, i + 1);
      q == p < TABLE_SIZE && hu.vals[p] == t.huffval[p] < 256
  {
    Limits(hu, t, i);
    Limits(hu, t, i - 1);
    ListedValue(hu, t, Position(t.bits, w, start, i + 1));
  }

  lemma ListedValue(hu: DecHuff, t: HuffTable, p: nat)
    requires hu.Decodes(t) && p < Total(t.bits)
    ensures hu.vals[p] == t.huffval[p]
  {
    assert Key(0);
  }

  /** The slow part of decoding: the value is not in the table. */
  method DecRec2(input: Reader, hu: DecHuff, c0: nat, entry: int, ghost t: HuffTable, ghost start: nat, ghost reading: Reading)
    returns (run: nat, value: int)
    requires input.Valid() && hu.Decodes(t) && Bytes(t) && input.pos == start + DECBITS && input.held >= input.left + DECBITS
    requires reading == ReadSymbol(t, input.part.data, start) && c0 == Window(input.part.data, start, DECBITS)
    requires entry / 0x80 % 2 == 0
    requires if entry == 0 then LongerThan(t, input.part.data, start, DECBITS) else Tells(entry, reading, input.part.data, start)
    modifies input
    ensures Decoded(input, reading, start, run, value)
  {
    var size: nat;
    if entry != 0 {
      input.UngetBits(entry % 0x80);
      run := entry / 0x100 % 16;
      size := entry / 0x1_0000;
    } else {
      var i, c := LongCode(input, hu, c0, t, start);
      LongFound(hu, t, input.part.data, start, i, c, reading);
      if i >= 16 {
        input.marker := BAD_HUFF;
        return 0, 0;
      }
      var rs := hu.vals[hu.valptr[i] + c - hu.maxcode[i - 1] * 2];
      run, size := rs / 16, rs % 16;
    }
    if size == 0 { return run, 0; }
    value := Receive(input, size);
  }

  lemma EntryTells(rs: nat, l: nat, w: Bits, pos: nat, entry: int, reading: Reading)
    requires rs < 256 && 1 <= l <= DECBITS && entry == EntryFor(rs, l, Window(w, pos + l, DECBITS - l))
    requires reading == Reading(rs / 16, Extend(Window(w, pos + l, rs % 16), rs % 16), l + rs % 16)
    ensures entry != 0 && Tells(entry, reading, w, pos)
  {
    EntryFields(rs, l, w, pos, entry);
  }

  /** The table tells the symbol, part of it, or that its code is longer than ten bits. */
  lemma Lookup(hu: DecHuff, t: HuffTable, w: Bits, pos: nat, reading: Reading)
    requires hu.Decodes(t) && Bytes(t) && reading == ReadSymbol(t, w, pos)
    ensures Window(w, pos, DECBITS) < |hu.llvals|
    ensures var entry := hu.llvals[Window(w, pos, DECBITS)];
      if entry == 0 then LongerThan(t, w, pos, DECBITS) else Tells(entry, reading, w, pos)
  {
    var one := 1;
    LookupFilled(hu, t);
    EntryFound(t, hu.llvals, w, pos, one);
    var l := CodeLength(t.bits, w, pos, one);
    ReadingAt(t, w, pos, l);
    if l <= DECBITS {
      var rs := t.huffval[Position(t.bits, w, pos, l)];
      EntryTells(rs, l, w, pos, hu.llvals[Window(w, pos, DECBITS)], reading);
    }
  }

  lemma LookupFilled(hu: DecHuff, t: HuffTable)
    requires hu.Decodes(t)
    ensures Filled(t, hu.llvals, End(t.bits, DECBITS))
  {
    assert Key(0);
  }

  /** Decodes a symbol and the value behind it. */
  method DecRec(input: Reader, hu: DecHuff, ghost t: HuffTable, ghost reading: Reading) returns (run: nat, value: int)
    requires input.Valid() && hu.Decodes(t) && Bytes(t) && reading == ReadSymbol(t, input.part.data, input.pos)
    modifies input
    ensures Decoded(input, reading, old(input.pos), run, value)
  {
    ghost var start := input.pos;
    Lookup(hu, t, input.part.data, start, reading);
    var r := input.GetBits(DECBITS);
    var entry := hu.llvals[r];
    if entry / 0x80 % 2 == 1 {
      input.UngetBits(entry % 0x80);
      run, value := entry / 0x100 % 16, entry / 0x1_0000;
    } else {
      run, value := DecRec2(input, hu, r, entry, t, start, reading);
    }
  }
}
