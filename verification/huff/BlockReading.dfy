/** Reading the coefficients of a block back, symbol by symbol. */
module BlockReading {
  import opened BitStrings
  import opened CanonicalCode
  import opened DerivedTable
  import opened BlockCode
  import opened BlockEncoder
  import opened CodeReading

  function Zeros(n: nat): (z: seq<int>)
    ensures |z| == n && forall i :: 0 <= i < n ==> z[i] == 0
  {
    seq(n, i => 0)
  }

  /** Coefficients that were read, where the next block begins, and how many zeros ended this one; Bad for
      a code that is none and for a run past the end of the block. */
  datatype BlockRead = BlockRead(vals: seq<int>, end: nat, rest: nat) | Bad

  /** The last i coefficients of a block (section F.2.2.2 of ITU-T T.81). */
  ghost function AcRead(t: HuffTable, w: Bits, pos: nat, i: nat): (r: BlockRead)
    requires IsTable(t) && Total(t.bits) <= TABLE_SIZE
    ensures r.BlockRead? ==> |r.vals| == i
    decreases i
  {
    if i == 0 then BlockRead([], pos, 0)
    else
      match ReadSymbol(t, w, pos)
      case NoCode => Bad
      case Reading(run, value, len) =>
        if value == 0 && run == 0 then BlockRead(Zeros(i), pos + len, i)
        else if run + 1 > i then Bad
        else AfterRun(run, value, AcRead(t, w, pos + len, i - run - 1))
  }

  function AfterRun(run: nat, value: int, r: BlockRead): BlockRead {
    if r.Bad? then Bad else BlockRead(Zeros(run) + [value] + r.vals, r.end, r.rest)
  }

  /** How many zeros end the block. */
  function TrailingZeros(vals: seq<int>, k: nat, r: nat): nat
    requires k <= |vals|
    decreases |vals| - k
  {
    if k == |vals| then r else TrailingZeros(vals, k + 1, if vals[k] == 0 then r + 1 else 0)
  }

  /** The first symbol of a list is read, and the others come next. */
  lemma {:induction false} FirstRead(t: HuffTable, c: Codes, list: seq<Sym>, w: Bits, pos: nat) returns (n: nat)
    requires DerivedCodes(t, c) && list != [] && HasCode(c, list[0]) && WellSized(list[0])
    requires BeginsAt(w, pos, ListBits(c, list))
    ensures ReadSymbol(t, w, pos) == Reading(list[0].rs / 16, list[0].value, n)
    ensures BeginsAt(w, pos + n, ListBits(c, list[1..])) && |ListBits(c, list)| == n + |ListBits(c, list[1..])|
  {
    n := |SymBits(c, list[0])|;
    BeginsSplit(w, pos, SymBits(c, list[0]), ListBits(c, list[1..]));
    SymbolBack(t, c, list[0], w, pos);
  }

  /** The coefficients that were coded are read back, and nothing more is. */
  lemma {:induction false} AcBack(t: HuffTable, c: Codes, vals: seq<int>, k: nat, r: nat, list: seq<Sym>, w: Bits, pos: nat, i: nat)
    requires DerivedCodes(t, c) && k <= |vals| && i == |vals| - k + r && FitsFrom(vals, k)
    requires LeftAt(vals, k, r, list) && AllCoded(c, list) && BeginsAt(w, pos, ListBits(c, list))
    ensures AcRead(t, w, pos, i) == BlockRead(Zeros(r) + vals[k..], pos + |ListBits(c, list)|, TrailingZeros(vals, k, r))
    decreases |vals| - k, r, 1
  {
    if k == |vals| {
      LeftNone(vals, r, list);
      EndBack(t, c, vals, r, list, w, pos);
    } else if vals[k] == 0 {
      LeftMore(vals, k, r, list);
      AcBack(t, c, vals, k + 1, r + 1, list, w, pos, i);
      assert Zeros(r + 1) + vals[k + 1..] == Zeros(r) + vals[k..];
    } else {
      LeftMore(vals, k, r, list);
      RunBack(t, c, vals, k, r, list, w, pos, i);
    }
  }

  lemma {:induction false} EndBack(t: HuffTable, c: Codes, vals: seq<int>, r: nat, list: seq<Sym>, w: Bits, pos: nat)
    requires DerivedCodes(t, c) && list == (if r > 0 then [Sym(0, 0)] else []) && AllCoded(c, list)
    requires BeginsAt(w, pos, ListBits(c, list))
    ensures AcRead(t, w, pos, r) == BlockRead(Zeros(r) + vals[|vals|..], pos + |ListBits(c, list)|, TrailingZeros(vals, |vals|, r))
  {
    assert Zeros(r) + vals[|vals|..] == Zeros(r);
    if r > 0 {
      var n := FirstRead(t, c, list, w, pos);
      assert list[1..] == [];
    }
  }

  /** A nonzero coefficient after a run of zeros. */
  lemma {:induction false} RunBack(t: HuffTable, c: Codes, vals: seq<int>, k: nat, r: nat, list: seq<Sym>, w: Bits, pos: nat, i: nat)
    requires DerivedCodes(t, c) && k < |vals| && vals[k] != 0 && i == |vals| - k + r && FitsFrom(vals, k)
    requires RunAt(vals, k, r, list) && AllCoded(c, list) && BeginsAt(w, pos, ListBits(c, list))
    ensures AcRead(t, w, pos, i) == BlockRead(Zeros(r) + vals[k..], pos + |ListBits(c, list)|, TrailingZeros(vals, k, r))
    decreases |vals| - k, r, 0
  {
    var end := pos + |ListBits(c, list)|;
    if r > 15 {
      RunShortened(vals, k, r, list);
      var n := FirstRead(t, c, list, w, pos);
      RunBack(t, c, vals, k, r - 16, list[1..], w, pos + n, i - 16);
      ReadMore(t, w, pos, i, 15, 0, n, BlockRead(Zeros(r - 16) + vals[k..], end, TrailingZeros(vals, k, r - 16)));
      AfterLongRun(vals, k, r, end);
    } else {
      RunDone(vals, k, r, list);
      CoefficientSized(vals[k], r);
      var n := FirstRead(t, c, list, w, pos);
      AcBack(t, c, vals, k + 1, 0, list[1..], w, pos + n, i - r - 1);
      ReadMore(t, w, pos, i, r, vals[k], n, BlockRead(Zeros(0) + vals[k + 1..], end, TrailingZeros(vals, k + 1, 0)));
      AfterShortRun(vals, k, r, end);
    }
  }

  lemma ReadMore(t: HuffTable, w: Bits, pos: nat, i: nat, run: nat, value: int, len: nat, r: BlockRead)
    requires IsTable(t) && Total(t.bits) <= TABLE_SIZE
    requires ReadSymbol(t, w, pos) == Reading(run, value, len) && (value != 0 || run != 0) && run < i
    requires AcRead(t, w, pos + len, i - run - 1) == r
    ensures AcRead(t, w, pos, i) == AfterRun(run, value, r)
  {
  }

  lemma AfterLongRun(vals: seq<int>, k: nat, r: nat, end: nat)
    requires k < |vals| && vals[k] != 0 && r > 15
    ensures AfterRun(15, 0, BlockRead(Zeros(r - 16) + vals[k..], end, TrailingZeros(vals, k, r - 16)))
         == BlockRead(Zeros(r) + vals[k..], end, TrailingZeros(vals, k, r))
  {
    assert Zeros(15) + [0] + (Zeros(r - 16) + vals[k..]) == Zeros(r) + vals[k..];
  }

  lemma AfterShortRun(vals: seq<int>, k: nat, r: nat, end: nat)
    requires k < |vals| && vals[k] != 0
    ensures AfterRun(r, vals[k], BlockRead(Zeros(0) + vals[k + 1..], end, TrailingZeros(vals, k + 1, 0)))
         == BlockRead(Zeros(r) + vals[k..], end, TrailingZeros(vals, k, r))
  {
    assert Zeros(r) + [vals[k]] + (Zeros(0) + vals[k + 1..]) == Zeros(r) + vals[k..];
  }

  lemma CoefficientSized(v: int, r: nat)
    requires v != 0 && r <= 15 && SizeCategory(v) <= MAX_COEF_BITS
    ensures WellSized(Sym(16 * r + SizeCategory(v), v)) && (16 * r + SizeCategory(v)) / 16 == r && SizeCategory(v) > 0
  {
  }

  /** A block that was coded is read back: the DC difference, then the other coefficients. */
  lemma {:induction false} BlockBack(dcTable: HuffTable, acTable: HuffTable, dc: Codes, ac: Codes, vals: seq<int>, pred: int,
                                     w: Bits, pos: nat) returns (n: nat)
    requires DerivedCodes(dcTable, dc) && DerivedCodes(acTable, ac) && vals != [] && BlockEncodable(dc, ac, vals, pred)
    requires BeginsAt(w, pos, BlockBits(dc, ac, vals, pred))
    ensures ReadSymbol(dcTable, w, pos) == Reading(0, vals[0] - pred, n)
    ensures AcRead(acTable, w, pos + n, |vals| - 1)
         == BlockRead(vals[1..], pos + |BlockBits(dc, ac, vals, pred)|, TrailingZeros(vals, 1, 0))
  {
    var first, list := DcSymbol(vals, pred), AcSymbols(vals, 1, 0);
    n := |SymBits(dc, first)|;
    BeginsSplit(w, pos, SymBits(dc, first), ListBits(ac, list));
    SymbolBack(dcTable, dc, first, w, pos);
    LeftAll(vals, 1, 0);
    AcBack(acTable, ac, vals, 1, 0, list, w, pos + n, |vals| - 1);
    assert Zeros(0) + vals[1..] == vals[1..];
  }
}
