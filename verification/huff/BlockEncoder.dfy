/** Encoding one block, and counting the symbols that encoding it would take. */
module BlockEncoder {
  import opened Powers
  import opened BitStrings
  import opened CanonicalCode
  import opened BlockCode
  import opened BitWriter

  /** Coefficients 0 to se in zigzag order. */
  predicate OrderFits(order: seq<nat>, se: nat, size: nat) {
    se < |order| && order[0] == 0 && forall k :: 0 <= k <= se ==> order[k] < size
  }

  function Zigzag(block: seq<int>, order: seq<nat>, se: nat): (vals: seq<int>)
    requires OrderFits(order, se, |block|)
    ensures |vals| == se + 1 && forall k :: 0 <= k <= se ==> vals[k] == block[order[k]]
  {
    seq(se + 1, k requires 0 <= k <= se => block[order[k]])
  }

  method CountBits(x: nat) returns (nbits: nat)
    ensures nbits == Nbits(x)
  {
    var temp := x;
    nbits := 0;
    while temp > 0
      invariant nbits + Nbits(temp) == Nbits(x)
    {
      nbits := nbits + 1;
      temp := temp / 2;
    }
  }

  /** The same for a magnitude that is known not to be zero. */
  method CountBitsNonzero(x: nat) returns (nbits: nat)
    requires x > 0
    ensures nbits == Nbits(x)
  {
    var temp: nat := x / 2;
    nbits := 1;
    assert Nbits(x) == 1 + Nbits(temp);
    while temp > 0
      invariant nbits + Nbits(temp) == Nbits(x)
    {
      nbits := nbits + 1;
      temp := temp / 2;
    }
  }

  lemma {:induction false} ZrlsNext(n: nat)
    requires n > 0
    ensures Zrls(n) == [Sym(ZRL, 0)] + Zrls(n - 1)
  {
  }

  /** Where encoding stands: the symbols before a point are out, those from there on are not. */
  ghost predicate SentTo(t: Codes, all: seq<Sym>, done: seq<Sym>, rest: seq<Sym>, before: Bits, written: Bits) {
    && IsCodes(t)
    && forall k {:trigger Key(k)} :: Key(k) ==>
      all == done + rest && AllCoded(t, done) && written == before + ListBits(t, done)
  }

  lemma SentFacts(t: Codes, all: seq<Sym>, done: seq<Sym>, rest: seq<Sym>, before: Bits, written: Bits)
    requires SentTo(t, all, done, rest, before, written)
    ensures all == done + rest && AllCoded(t, done) && written == before + ListBits(t, done)
  {
    assert Key(0);
  }

  lemma Sent(t: Codes, all: seq<Sym>, done: seq<Sym>, rest: seq<Sym>, before: Bits, written: Bits)
    requires IsCodes(t) && all == done + rest && AllCoded(t, done) && written == before + ListBits(t, done)
    ensures SentTo(t, all, done, rest, before, written)
  {
  }

  lemma {:induction false} SentOne(t: Codes, all: seq<Sym>, done: seq<Sym>, rest: seq<Sym>, before: Bits, written: Bits)
    requires SentTo(t, all, done, rest, before, written) && rest != [] && HasCode(t, rest[0])
    ensures SentTo(t, all, done + [rest[0]], rest[1..], before, written + SymBits(t, rest[0]))
  {
    SentFacts(t, all, done, rest, before, written);
    ListBitsMore(t, done, rest[0]);
    Reassociate(before, ListBits(t, done), SymBits(t, rest[0]));
    assert rest == [rest[0]] + rest[1..];
    Reassociate(done, [rest[0]], rest[1..]);
    Sent(t, all, done + [rest[0]], rest[1..], before, written + SymBits(t, rest[0]));
  }

  lemma {:induction false} ListBitsMore(t: Codes, list: seq<Sym>, s: Sym)
    requires IsCodes(t)
    ensures ListBits(t, list + [s]) == ListBits(t, list) + SymBits(t, s)
  {
    ListBitsConcat(t, list, [s]);
    assert [s][1..] == [];
  }

  lemma SentAll(t: Codes, all: seq<Sym>, done: seq<Sym>, before: Bits, written: Bits)
    requires SentTo(t, all, done, [], before, written)
    ensures AllCoded(t, all) && written == before + ListBits(t, all)
  {
    SentFacts(t, all, done, [], before, written);
    assert done == all;
  }

  lemma CodeFacts(t: Codes, s: nat)
    requires IsCodes(t) && s < TABLE_SIZE
    ensures t.si[s] <= 16 && (t.si[s] > 0 ==> t.co[s] < Pow2(t.si[s]))
  {
    assert Key(0);
  }

  lemma NotCoded(t: Codes, all: seq<Sym>, done: seq<Sym>, rest: seq<Sym>, before: Bits, written: Bits)
    requires SentTo(t, all, done, rest, before, written) && rest != [] && !HasCode(t, rest[0])
    ensures !AllCoded(t, all)
  {
    SentFacts(t, all, done, rest, before, written);
    assert rest[0] in all;
  }

  /** Emits the code of a symbol and, unless the symbol stands alone, the bits of a value. */
  method EmitSymbol(w: Writer, t: Codes, symbol: nat, value: int, nbits: nat) returns (ok: bool)
    requires w.Valid() && IsCodes(t) && symbol < TABLE_SIZE && nbits == symbol % 16
    modifies w`out, w`putBuffer, w`putBits, w`bytes, w`written
    ensures w.Valid() && (ok <==> HasCode(t, Sym(symbol, value)))
    ensures ok ==> w.written == old(w.written) + SymBits(t, Sym(symbol, value))
  {
    CodeFacts(t, symbol);
    ok := w.EmitBits(t.co[symbol], t.si[symbol]);
    if ok {
      SmallMod(t.co[symbol], Pow2(t.si[symbol]));
      ghost var first, second := ToBits(t.co[symbol], t.si[symbol]), ValueBits(value, nbits);
      assert w.written == old(w.written) + first;
      if nbits > 0 {
        var _ := w.EmitBits(if value < 0 then value - 1 else value, nbits);
      }
      assert w.written == old(w.written) + first + second;
      SymBitsAre(t, Sym(symbol, value));
      Reassociate(old(w.written), first, second);
    }
  }

  /** A nonzero coefficient after a run of r zeros. */
  function RunThenValue(vals: seq<int>, k: nat, r: nat): seq<Sym>
    requires k < |vals|
  {
    Zrls(r / 16) + [Sym(16 * (r % 16) + SizeCategory(vals[k]), vals[k])] + AcSymbols(vals, k + 1, 0)
  }

  ghost predicate IsRun(vals: seq<int>, k: nat, r: nat, rest: seq<Sym>)
    requires k < |vals|
  {
    forall key {:trigger Key(key)} :: Key(key) ==> rest == RunThenValue(vals, k, r)
  }

  ghost function RunOf(vals: seq<int>, k: nat, r: nat): (rest: seq<Sym>)
    requires k < |vals|
    ensures IsRun(vals, k, r, rest)
  {
    assert IsRun(vals, k, r, RunThenValue(vals, k, r));
    var rest :| IsRun(vals, k, r, rest);
    rest
  }

  ghost predicate RunAt(vals: seq<int>, k: nat, r: nat, rest: seq<Sym>) {
    k < |vals| && rest == RunOf(vals, k, r)
  }

  /** What is left to code from coefficient k on, after a run of r zeros. */
  ghost predicate LeftAt(vals: seq<int>, k: nat, r: nat, rest: seq<Sym>) {
    k <= |vals| && rest == LeftOf(vals, k, r)
  }

  ghost predicate IsLeft(vals: seq<int>, k: nat, r: nat, rest: seq<Sym>)
    requires k <= |vals|
  {
    forall key {:trigger Key(key)} :: Key(key) ==> rest == AcSymbols(vals, k, r)
  }

  ghost function LeftOf(vals: seq<int>, k: nat, r: nat): (rest: seq<Sym>)
    requires k <= |vals|
    ensures IsLeft(vals, k, r, rest)
  {
    assert IsLeft(vals, k, r, AcSymbols(vals, k, r));
    var rest :| IsLeft(vals, k, r, rest);
    rest
  }

  lemma LeftAll(vals: seq<int>, k: nat, r: nat)
    requires k <= |vals|
    ensures LeftAt(vals, k, r, AcSymbols(vals, k, r))
  {
    assert Key(0);
  }

  lemma LeftMore(vals: seq<int>, k: nat, r: nat, rest: seq<Sym>)
    requires LeftAt(vals, k, r, rest) && k < |vals|
    ensures vals[k] == 0 ==> LeftAt(vals, k + 1, r + 1, rest)
    ensures vals[k] != 0 ==> RunAt(vals, k, r, rest)
  {
    assert Key(0);
  }

  lemma LeftNone(vals: seq<int>, r: nat, rest: seq<Sym>)
    requires LeftAt(vals, |vals|, r, rest)
    ensures rest == if r > 0 then [Sym(0, 0)] else []
  {
    assert Key(0);
  }

  lemma RunShortened(vals: seq<int>, k: nat, r: nat, rest: seq<Sym>)
    requires RunAt(vals, k, r, rest) && r > 15
    ensures rest != [] && rest[0] == Sym(ZRL, 0) && RunAt(vals, k, r - 16, rest[1..])
  {
    assert Key(0);
    ZrlsNext(r / 16);
    assert rest == [Sym(ZRL, 0)] + RunThenValue(vals, k, r - 16);
  }

  lemma RunDone(vals: seq<int>, k: nat, r: nat, rest: seq<Sym>)
    requires RunAt(vals, k, r, rest) && r <= 15
    ensures rest != [] && rest[0] == Sym(16 * r + SizeCategory(vals[k]), vals[k])
    ensures LeftAt(vals, k + 1, 0, rest[1..])
  {
    assert Key(0);
    assert Zrls(r / 16) == [];
  }

  lemma SymbolParts(r: nat, nbits: nat)
    requires r <= 15 && nbits <= MAX_COEF_BITS
    ensures 16 * r + nbits < TABLE_SIZE && (16 * r + nbits) % 16 == nbits
  {
  }

  /** One step of encoding: the next symbol goes out, or has no code. */
  method EmitNext(w: Writer, t: Codes, symbol: nat, value: int, nbits: nat,
                  ghost all: seq<Sym>, ghost done: seq<Sym>, ghost rest: seq<Sym>, ghost before: Bits)
    returns (ok: bool)
    requires w.Valid() && symbol < TABLE_SIZE && nbits == symbol % 16
    requires rest != [] && rest[0] == Sym(symbol, value) && SentTo(t, all, done, rest, before, w.written)
    modifies w`out, w`putBuffer, w`putBits, w`bytes, w`written
    ensures w.Valid() && (!ok ==> !AllCoded(t, all))
    ensures ok ==> SentTo(t, all, done + [rest[0]], rest[1..], before, w.written)
  {
    ghost var sent := w.written;
    ok := EmitSymbol(w, t, symbol, value, nbits);
    if ok {
      SentOne(t, all, done, rest, before, sent);
    } else {
      NotCoded(t, all, done, rest, before, sent);
    }
  }

  /** Sends the runs of 16 zeros that are due. */
  method EmitLongRuns(w: Writer, ac: Codes, r0: nat, ghost vals: seq<int>, ghost k: nat, ghost all: seq<Sym>,
                      ghost done0: seq<Sym>, ghost rest0: seq<Sym>, ghost before: Bits)
    returns (ok: bool, r: nat, ghost done: seq<Sym>, ghost rest: seq<Sym>)
    requires w.Valid() && RunAt(vals, k, r0, rest0) && SentTo(ac, all, done0, rest0, before, w.written)
    modifies w`out, w`putBuffer, w`putBits, w`bytes, w`written
    ensures w.Valid() && (!ok ==> !AllCoded(ac, all))
    ensures ok ==> r <= 15 && RunAt(vals, k, r, rest) && SentTo(ac, all, done, rest, before, w.written)
  {
    r, done, rest := r0, done0, rest0;
    while r > 15
      invariant w.Valid() && RunAt(vals, k, r, rest) && SentTo(ac, all, done, rest, before, w.written)
    {
      RunShortened(vals, k, r, rest);
      ok := EmitNext(w, ac, ZRL, 0, 0, all, done, rest, before);
      if !ok { return; }
      done, rest := done + [rest[0]], rest[1..];
      r := r - 16;
    }
    ok := true;
  }

  /** Sends a nonzero coefficient after a run of r zeros; fails for one out of range or without a code. */
  method EncodeCoefficient(w: Writer, ac: Codes, value: int, r0: nat, ghost vals: seq<int>, ghost k: nat,
                           ghost all: seq<Sym>, ghost done0: seq<Sym>, ghost rest0: seq<Sym>, ghost before: Bits)
    returns (ok: bool, ghost done: seq<Sym>, ghost left: seq<Sym>)
    requires w.Valid() && k < |vals| && value == vals[k] != 0
    requires RunAt(vals, k, r0, rest0) && SentTo(ac, all, done0, rest0, before, w.written)
    modifies w`out, w`putBuffer, w`putBits, w`bytes, w`written
    ensures w.Valid() && (!ok ==> !AllCoded(ac, all) || SizeCategory(value) > MAX_COEF_BITS)
    ensures ok ==> SizeCategory(value) <= MAX_COEF_BITS
    ensures ok ==> LeftAt(vals, k + 1, 0, left) && SentTo(ac, all, done, left, before, w.written)
  {
    ghost var rest;
    var r;
    left := [];
    ok, r, done, rest := EmitLongRuns(w, ac, r0, vals, k, all, done0, rest0, before);
    if ok {
      var nbits := CountBitsNonzero(Magnitude(value));
      if nbits > MAX_COEF_BITS { return false, done, []; }
      RunDone(vals, k, r, rest);
      SymbolParts(r, nbits);
      ok := EmitNext(w, ac, 16 * r + nbits, value, nbits, all, done, rest, before);
      done, left := done + [rest[0]], rest[1..];
    }
  }

  /** Sends an end-of-block code if the last coefficients were zeros. */
  method EncodeEob(w: Writer, ac: Codes, r: nat, ghost vals: seq<int>, ghost all: seq<Sym>,
                   ghost done: seq<Sym>, ghost left: seq<Sym>, ghost before: Bits)
    returns (ok: bool)
    requires w.Valid() && LeftAt(vals, |vals|, r, left) && SentTo(ac, all, done, left, before, w.written)
    modifies w`out, w`putBuffer, w`putBits, w`bytes, w`written
    ensures w.Valid() && (ok <==> AllCoded(ac, all))
    ensures ok ==> w.written == before + ListBits(ac, all)
  {
    LeftNone(vals, r, left);
    ok := true;
    ghost var sent := done;
    if r > 0 {
      ok := EmitNext(w, ac, 0, 0, 0, all, done, left, before);
      sent := done + left;
    }
    if ok { SentAll(ac, all, sent, before, w.written); }
  }

  /** Encodes the other coefficients; fails for a value out of range and for a missing code. */
  method EncodeAc(w: Writer, block: seq<int>, ac: Codes, order: seq<nat>, se: nat, ghost vals: seq<int>, ghost all: seq<Sym>)
    returns (ok: bool)
    requires w.Valid() && IsCodes(ac) && OrderFits(order, se, |block|) && vals == Zigzag(block, order, se)
    requires LeftAt(vals, 1, 0, all)
    modifies w`out, w`putBuffer, w`putBits, w`bytes, w`written
    ensures w.Valid() && (ok <==> FitsFrom(vals, 1) && AllCoded(ac, all))
    ensures ok ==> w.written == old(w.written) + ListBits(ac, all)
  {
    ghost var done: seq<Sym>, left, before := [], all, w.written;
    var k, r: nat := 1, 0;
    while k <= se
      invariant 1 <= k <= se + 1 && w.Valid() && LeftAt(vals, k, r, left)
      invariant forall i :: 1 <= i < k ==> SizeCategory(vals[i]) <= MAX_COEF_BITS
      invariant SentTo(ac, all, done, left, before, w.written)
    {
      LeftMore(vals, k, r, left);
      if block[order[k]] == 0 {
        r := r + 1;
      } else {
        ok, done, left := EncodeCoefficient(w, ac, block[order[k]], r, vals, k, all, done, left, before);
        if !ok { return; }
        r := 0;
      }
      k := k + 1;
    }
    ok := EncodeEob(w, ac, r, vals, all, done, left, before);
  }

  /** Encodes a block: its DC difference, then the other coefficients. */
  method EncodeOneBlock(w: Writer, block: seq<int>, lastDc: int, dc: Codes, ac: Codes, order: seq<nat>, se: nat)
    returns (ok: bool)
    requires w.Valid() && IsCodes(dc) && IsCodes(ac) && OrderFits(order, se, |block|)
    modifies w`out, w`putBuffer, w`putBits, w`bytes, w`written
    ensures w.Valid() && (ok <==> BlockEncodable(dc, ac, Zigzag(block, order, se), lastDc))
    ensures ok ==> w.written == old(w.written) + BlockBits(dc, ac, Zigzag(block, order, se), lastDc)
  {
    ghost var vals := Zigzag(block, order, se);
    ghost var all := AcSymbols(vals, 1, 0);
    LeftAll(vals, 1, 0);
    var diff := block[0] - lastDc;
    var nbits := CountBits(Magnitude(diff));
    if nbits > MAX_COEF_BITS + 1 { return false; }
    ok := EmitSymbol(w, dc, nbits, diff, nbits);
    if ok {
      ok := EncodeAc(w, block, ac, order, se, vals, all);
      if ok {
        Reassociate(old(w.written), SymBits(dc, DcSymbol(vals, lastDc)), ListBits(ac, all));
      }
    }
  }

  // ----- gathering statistics -----

  /** How often a symbol occurs. */
  function Uses(list: seq<Sym>, s: nat): nat {
    if list == [] then 0 else Uses(list[..|list| - 1], s) + (if list[|list| - 1].rs == s then 1 else 0)
  }

  /** Counts with the symbols of a list added. */
  ghost predicate Counted(before: seq<nat>, after: seq<nat>, list: seq<Sym>) {
    |after| == |before| && forall s :: 0 <= s < |before| ==> after[s] == before[s] + Uses(list, s)
  }

  /** Counting has reached a point of the list. */
  ghost predicate CountedTo(all: seq<Sym>, done: seq<Sym>, rest: seq<Sym>, before: seq<nat>, after: seq<nat>) {
    forall k {:trigger Key(k)} :: Key(k) ==> all == done + rest && Counted(before, after, done)
  }

  lemma {:induction false} CountOne(all: seq<Sym>, done: seq<Sym>, rest: seq<Sym>, before: seq<nat>, after: seq<nat>, rs: nat)
    requires CountedTo(all, done, rest, before, after) && rest != [] && rest[0].rs == rs < |after|
    ensures CountedTo(all, done + [rest[0]], rest[1..], before, after[rs := after[rs] + 1])
  {
    assert Key(0);
    assert rest == [rest[0]] + rest[1..];
    Reassociate(done, [rest[0]], rest[1..]);
    assert (done + [rest[0]])[..|done|] == done;
  }

  lemma CountAll(all: seq<Sym>, done: seq<Sym>, before: seq<nat>, after: seq<nat>)
    requires CountedTo(all, done, [], before, after)
    ensures Counted(before, after, all)
  {
    assert Key(0);
    assert done == all;
  }

  method CountNext(counts: array<nat>, symbol: nat, ghost all: seq<Sym>, ghost done: seq<Sym>, ghost rest: seq<Sym>,
                   ghost before: seq<nat>)
    requires symbol < counts.Length && rest != [] && rest[0].rs == symbol
    requires CountedTo(all, done, rest, before, counts[..])
    modifies counts
    ensures CountedTo(all, done + [rest[0]], rest[1..], before, counts[..])
  {
    CountOne(all, done, rest, before, counts[..], symbol);
    ghost var now := counts[..];
    counts[symbol] := counts[symbol] + 1;
    assert counts[..] == now[symbol := now[symbol] + 1];
  }

  method CountCoefficient(counts: array<nat>, value: int, r0: nat, ghost vals: seq<int>, ghost k: nat,
                          ghost all: seq<Sym>, ghost done0: seq<Sym>, ghost rest0: seq<Sym>, ghost before: seq<nat>)
    returns (ok: bool, ghost done: seq<Sym>, ghost left: seq<Sym>)
    requires counts.Length == TABLE_SIZE + 1 && k < |vals| && value == vals[k] != 0
    requires RunAt(vals, k, r0, rest0) && CountedTo(all, done0, rest0, before, counts[..])
    modifies counts
    ensures ok <==> SizeCategory(value) <= MAX_COEF_BITS
    ensures ok ==> LeftAt(vals, k + 1, 0, left) && CountedTo(all, done, left, before, counts[..])
  {
    ghost var rest := rest0;
    done := done0;
    var r: nat := r0;
    while r > 15
      invariant RunAt(vals, k, r, rest) && CountedTo(all, done, rest, before, counts[..])
    {
      RunShortened(vals, k, r, rest);
      CountNext(counts, ZRL, all, done, rest, before);
      done, rest := done + [rest[0]], rest[1..];
      r := r - 16;
    }
    var nbits := CountBitsNonzero(Magnitude(value));
    if nbits > MAX_COEF_BITS { return false, done, []; }
    RunDone(vals, k, r, rest);
    CountNext(counts, 16 * r + nbits, all, done, rest, before);
    done, left := done + [rest[0]], rest[1..];
    ok := true;
  }

  /** Counts the symbols that the other coefficients take. */
  method CountAc(block: seq<int>, counts: array<nat>, order: seq<nat>, se: nat, ghost vals: seq<int>, ghost all: seq<Sym>)
    returns (ok: bool)
    requires counts.Length == TABLE_SIZE + 1 && OrderFits(order, se, |block|) && vals == Zigzag(block, order, se)
    requires LeftAt(vals, 1, 0, all)
    modifies counts
    ensures ok <==> FitsFrom(vals, 1)
    ensures ok ==> Counted(old(counts[..]), counts[..], all)
  {
    ghost var done: seq<Sym>, left, before := [], all, counts[..];
    var k, r: nat := 1, 0;
    while k <= se
      invariant 1 <= k <= se + 1 && LeftAt(vals, k, r, left)
      invariant forall i :: 1 <= i < k ==> SizeCategory(vals[i]) <= MAX_COEF_BITS
      invariant CountedTo(all, done, left, before, counts[..])
    {
      LeftMore(vals, k, r, left);
      if block[order[k]] == 0 {
        r := r + 1;
      } else {
        ok, done, left := CountCoefficient(counts, block[order[k]], r, vals, k, all, done, left, before);
        if !ok { return; }
        r := 0;
      }
      k := k + 1;
    }
    LeftNone(vals, r, left);
    if r > 0 {
      CountNext(counts, 0, all, done, left, before);
      done := done + left;
    }
    CountAll(all, done, before, counts[..]);
    ok := true;
  }

  /** Counts the symbols that encoding a block takes; fails for a value out of range. */
  method HtestOneBlock(block: seq<int>, lastDc: int, dcCounts: array<nat>, acCounts: array<nat>, order: seq<nat>, se: nat)
    returns (ok: bool)
    requires dcCounts.Length == acCounts.Length == TABLE_SIZE + 1 && dcCounts != acCounts
    requires OrderFits(order, se, |block|)
    modifies dcCounts, acCounts
    ensures ok <==> Fits(Zigzag(block, order, se), lastDc)
    ensures ok ==> Counted(old(dcCounts[..]), dcCounts[..], [DcSymbol(Zigzag(block, order, se), lastDc)])
    ensures ok ==> Counted(old(acCounts[..]), acCounts[..], AcSymbols(Zigzag(block, order, se), 1, 0))
  {
    ghost var vals := Zigzag(block, order, se);
    ghost var symbol, all := DcSymbol(vals, lastDc), AcSymbols(vals, 1, 0);
    LeftAll(vals, 1, 0);
    var nbits := CountBits(Magnitude(block[0] - lastDc));
    if nbits > MAX_COEF_BITS + 1 { return false; }
    ghost var before := dcCounts[..];
    CountNext(dcCounts, nbits, [symbol], [], [symbol], before);
    CountAll([symbol], [] + [symbol], before, dcCounts[..]);
    ok := CountAc(block, acCounts, order, se, vals, all);
  }
}
