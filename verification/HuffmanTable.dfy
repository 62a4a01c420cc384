/** The decoding tables of stbi__zhuffman and their construction: a 512-entry table
    indexed by the next nine bits, and per-length arrays for longer codes. */
module HuffmanTable {
  import opened Bits
  import opened CanonicalCode

  const FAST_BITS := 9
  const FAST_SIZE := 512
  const NSYMS := 288

  /** stbi__bit_reverse: reverse sixteen bits, then shift. */
  function BitReverse(v: nat, bits: nat): nat
    requires bits <= 16
  {
    Shr(Top(v, 16), 16 - bits)
  }

  /** A code of length n moved to the top of a 16-bit word. */
  function Preshift(code: nat, n: nat): nat
    requires n <= 16
    decreases 16 - n
  {
    if n == 16 then code else 2 * Preshift(code, n + 1)
  }

  /** Index in the symbol arrays of the first symbol of length n. */
  function FirstSymbol(lens: seq<nat>, n: nat): nat
    requires n >= 1
  {
    if n == 1 then 0 else FirstSymbol(lens, n - 1) + Count(lens, n - 1)
  }

  /** Index in the symbol arrays of symbol i. */
  function Slot(lens: seq<nat>, i: nat): nat
    requires i < |lens| && lens[i] >= 1
  {
    FirstSymbol(lens, lens[i]) + Count(lens[..i], lens[i])
  }

  /** Symbol i is decoded by the fast table when the next nine bits are j. */
  predicate Hits(lens: seq<nat>, i: nat, j: nat) {
    Matches(lens, i, j) && lens[i] <= FAST_BITS
  }

  function FastEntry(lens: seq<nat>, i: nat): nat
    requires i < |lens|
  {
    lens[i] * FAST_SIZE + i
  }

  /** The fast table after the first n symbols were entered. */
  ghost predicate FastTable(lens: seq<nat>, n: nat, fast: seq<nat>)
    requires n <= |lens|
  {
    && |fast| == FAST_SIZE
    && (forall j, i :: 0 <= j < FAST_SIZE && 0 <= i < n && Hits(lens, i, j) ==> fast[j] == FastEntry(lens, i))
    && (forall j :: 0 <= j < FAST_SIZE && fast[j] != 0 ==>
          exists i :: 0 <= i < n && Hits(lens, i, j) && fast[j] == FastEntry(lens, i))
  }

  /** The symbol arrays after the first n symbols were entered. */
  ghost predicate SymbolTable(lens: seq<nat>, n: nat, size: seq<nat>, value: seq<nat>)
    requires n <= |lens|
  {
    && |size| == |value| == NSYMS
    && forall i :: 0 <= i < n && lens[i] >= 1 ==>
         Slot(lens, i) < NSYMS && size[Slot(lens, i)] == lens[i] && value[Slot(lens, i)] == i
  }

  /** The per-length arrays for lengths below n. */
  ghost predicate LengthTables(lens: seq<nat>, n: nat, firstcode: seq<nat>, maxcode: seq<nat>, firstsymbol: seq<nat>)
    requires n <= 16
  {
    && |firstcode| == |firstsymbol| == 16 && |maxcode| == 17
    && forall m :: 1 <= m < n ==>
         && firstcode[m] == First(lens, m)
         && firstsymbol[m] == FirstSymbol(lens, m)
         && maxcode[m] == Preshift(Limit(lens, m), m)
  }

  // ----- symbol slots --------------------------------------------------------

  lemma {:induction false} FirstSymbolGrows(lens: seq<nat>, m: nat, n: nat)
    requires 1 <= m < n
    ensures FirstSymbol(lens, m) + Count(lens, m) <= FirstSymbol(lens, n)
    decreases n
  {
    if m < n - 1 {
      FirstSymbolGrows(lens, m, n - 1);
    }
  }

  lemma {:induction false} FirstSymbolOfLast(lens: seq<nat>, n: nat)
    requires |lens| > 0 && n >= 1
    ensures FirstSymbol(lens, n) <= FirstSymbol(lens[..|lens| - 1], n) + if lens[|lens| - 1] < n then 1 else 0
    decreases n
  {
    if n > 1 {
      FirstSymbolOfLast(lens, n - 1);
    }
  }

  lemma {:induction false} FirstSymbolEmpty(n: nat)
    requires n >= 1
    ensures FirstSymbol([], n) == 0
  {
    if n > 1 {
      FirstSymbolEmpty(n - 1);
    }
  }

  lemma {:induction false} FirstSymbolBound(lens: seq<nat>, n: nat)
    requires n >= 1
    ensures FirstSymbol(lens, n) <= |lens|
    decreases |lens|
  {
    if lens == [] {
      FirstSymbolEmpty(n);
    } else {
      FirstSymbolBound(lens[..|lens| - 1], n);
      FirstSymbolOfLast(lens, n);
    }
  }

  lemma SlotInRange(lens: seq<nat>, i: nat)
    requires i < |lens| && lens[i] >= 1
    ensures Slot(lens, i) < FirstSymbol(lens, lens[i] + 1) <= |lens|
  {
    CountPrefix(lens, i, lens[i]);
    FirstSymbolBound(lens, lens[i] + 1);
  }

  /** Different symbols have different slots. */
  lemma SlotInjective(lens: seq<nat>, i: nat, j: nat)
    requires i < j < |lens| && lens[i] >= 1 && lens[j] >= 1
    ensures Slot(lens, i) != Slot(lens, j)
  {
    SlotInRange(lens, i);
    SlotInRange(lens, j);
    if lens[i] < lens[j] {
      FirstSymbolGrows(lens, lens[i], lens[j]);
    } else if lens[j] < lens[i] {
      FirstSymbolGrows(lens, lens[j], lens[i]);
    } else {
      RankIncreases(lens, i, j);
    }
  }

  lemma BitReverseIsTop(v: nat, bits: nat)
    requires bits <= 16
    ensures BitReverse(v, bits) == Top(v, bits)
  {
    TopPrefix(v, bits, 16);
    ShrIsDiv(Top(v, 16), 16 - bits);
  }

  /** Nine bits j select symbol i exactly when j ends in the reversed code. */
  lemma HitsIffResidue(lens: seq<nat>, i: nat, j: nat)
    requires i < |lens| && 1 <= lens[i] <= FAST_BITS && Code(lens, i) < Pow2(lens[i])
    ensures Hits(lens, i, j) <==> j % Pow2(lens[i]) == Top(Code(lens, i), lens[i])
  {
    StartsWithCode(j, Code(lens, i), lens[i]);
  }

  lemma CodeInRange(lens: seq<nat>, i: nat)
    requires Accepted(lens) && i < |lens| && 1 <= lens[i] <= MAX_LENGTH
    ensures Code(lens, i) < Limit(lens, lens[i]) <= Pow2(lens[i])
  {
    CountPrefix(lens, i, lens[i]);
    AcceptedLimits(lens, lens[i]);
  }

  /** Entering symbol n at all its residues extends the table by that symbol. */
  lemma ExtendFast(lens: seq<nat>, n: nat, before: seq<nat>, after: seq<nat>)
    requires Accepted(lens) && n < |lens| && 1 <= lens[n] <= FAST_BITS
    requires FastTable(lens, n, before) && |after| == FAST_SIZE
    requires forall j :: 0 <= j < FAST_SIZE ==>
               after[j] == if j % Pow2(lens[n]) == Top(Code(lens, n), lens[n]) then FastEntry(lens, n) else before[j]
    ensures FastTable(lens, n + 1, after)
  {
    CodeInRange(lens, n);
    forall j | 0 <= j < FAST_SIZE
      ensures Hits(lens, n, j) ==> after[j] == FastEntry(lens, n)
      ensures !Hits(lens, n, j) ==> after[j] == before[j]
    {
      HitsIffResidue(lens, n, j);
    }
    forall j, i | 0 <= j < FAST_SIZE && 0 <= i < n + 1 && Hits(lens, i, j)
      ensures after[j] == FastEntry(lens, i)
    {
      if Hits(lens, n, j) {
        PrefixFree(lens, i, n, j);
      }
    }
    forall j | 0 <= j < FAST_SIZE && after[j] != 0
      ensures exists i :: 0 <= i < n + 1 && Hits(lens, i, j) && after[j] == FastEntry(lens, i)
    {
      if Hits(lens, n, j) {
      } else {
        var i :| 0 <= i < n && Hits(lens, i, j) && before[j] == FastEntry(lens, i);
      }
    }
  }

  lemma SkipFast(lens: seq<nat>, n: nat, fast: seq<nat>)
    requires n < |lens| && (lens[n] == 0 || lens[n] > FAST_BITS)
    requires FastTable(lens, n, fast)
    ensures FastTable(lens, n + 1, fast)
  {
    forall j | 0 <= j < FAST_SIZE && fast[j] != 0
      ensures exists i :: 0 <= i < n + 1 && Hits(lens, i, j) && fast[j] == FastEntry(lens, i)
    {
      var i :| 0 <= i < n && Hits(lens, i, j) && fast[j] == FastEntry(lens, i);
    }
  }

  lemma ExtendSymbols(lens: seq<nat>, n: nat, size: seq<nat>, value: seq<nat>)
    requires n < |lens| <= NSYMS && lens[n] >= 1
    requires SymbolTable(lens, n, size, value)
    ensures Slot(lens, n) < NSYMS
    ensures SymbolTable(lens, n + 1, size[Slot(lens, n) := lens[n]], value[Slot(lens, n) := n])
  {
    SlotInRange(lens, n);
    forall i | 0 <= i < n && lens[i] >= 1
      ensures Slot(lens, i) != Slot(lens, n)
    {
      SlotInjective(lens, i, n);
    }
  }

  // ----- the tables ----------------------------------------------------------

  class ZHuffman {
    const fast: array<nat>
    const firstcode: array<nat>
    const maxcode: array<nat>
    const firstsymbol: array<nat>
    const size: array<nat>
    const value: array<nat>

    ghost predicate Shape() {
      && fast.Length == FAST_SIZE && firstcode.Length == 16 && maxcode.Length == 17
      && firstsymbol.Length == 16 && size.Length == NSYMS && value.Length == NSYMS
      && fast != firstcode && fast != maxcode && fast != firstsymbol && fast != size && fast != value
      && firstcode != maxcode && firstcode != firstsymbol && firstcode != size && firstcode != value
      && maxcode != firstsymbol && maxcode != size && maxcode != value
      && firstsymbol != size && firstsymbol != value && size != value
    }

    ghost function Arrays(): set<object> {
      {fast, firstcode, maxcode, firstsymbol, size, value}
    }

    /** The tables are those of the canonical code with these lengths. */
    ghost predicate Represents(lens: seq<nat>)
      reads Arrays()
    {
      && Shape() && ValidLengths(lens) && Accepted(lens)
      && LengthTables(lens, 16, firstcode[..], maxcode[..], firstsymbol[..])
      && maxcode[16] == 0x10000
      && SymbolTable(lens, |lens|, size[..], value[..])
      && FastTable(lens, |lens|, fast[..])
    }

    constructor ()
      ensures Shape() && fresh(Arrays())
    {
      fast := new nat[FAST_SIZE];
      firstcode := new nat[16];
      maxcode := new nat[17];
      firstsymbol := new nat[16];
      size := new nat[NSYMS];
      value := new nat[NSYMS];
    }

    /** stbi__zbuild_huffman: builds the tables, or reports lengths that no prefix
        code has. */
    method Build(sizelist: seq<nat>) returns (ok: bool)
      requires Shape() && ValidLengths(sizelist)
      modifies Arrays()
      ensures ok <==> Accepted(sizelist)
      ensures ok ==> Represents(sizelist)
    {
      var sizes := CountSizes(sizelist);
      ClearTable(fast);
      var nextCode;
      ok, nextCode := AssignLengths(sizelist, sizes, firstcode, maxcode, firstsymbol);
      if ok {
        maxcode[16] := 0x10000;
        EnterSymbols(sizelist, nextCode, firstcode, firstsymbol, size, value, fast);
      }
    }
  }

  method CountSizes(sizelist: seq<nat>) returns (sizes: seq<nat>)
    requires ValidLengths(sizelist)
    ensures |sizes| == 17 && sizes[0] == 0
    ensures forall s :: 1 <= s < 17 ==> sizes[s] == Count(sizelist, s)
  {
    sizes := seq(17, i => 0);
    for i := 0 to |sizelist|
      invariant |sizes| == 17
      invariant forall s :: 0 <= s < 17 ==> sizes[s] == Count(sizelist[..i], s)
    {
      assert sizelist[..i + 1][..i] == sizelist[..i];
      sizes := sizes[sizelist[i] := sizes[sizelist[i]] + 1];
    }
    assert sizelist[..|sizelist|] == sizelist;
    sizes := sizes[0 := 0];
  }

  method ClearTable(fast: array<nat>)
    modifies fast
    ensures forall j :: 0 <= j < fast.Length ==> fast[j] == 0
  {
    for j := 0 to fast.Length
      invariant forall k :: 0 <= k < j ==> fast[k] == 0
    {
      fast[j] := 0;
    }
  }

  ghost predicate NextCodes(lens: seq<nat>, n: nat, nextCode: seq<nat>) {
    n <= |nextCode| && forall s :: 1 <= s < n ==> nextCode[s] == First(lens, s)
  }

  ghost predicate AcceptedBelow(lens: seq<nat>, n: nat) {
    forall m :: 1 <= m < n ==> Limit(lens, m) <= Pow2(m)
  }

  /** More symbols have length n than there are words of n bits. */
  ghost predicate Crowded(lens: seq<nat>, n: nat) {
    Count(lens, n) > Pow2(n)
  }

  method TooManyCodes(lens: seq<nat>, sizes: seq<nat>) returns (tooMany: bool)
    requires |sizes| == 17 && forall s :: 1 <= s < 17 ==> sizes[s] == Count(lens, s)
    ensures tooMany <==> exists n :: 1 <= n <= MAX_LENGTH && Crowded(lens, n)
    ensures tooMany ==> !Accepted(lens)
  {
    for i := 1 to 16
      invariant forall n :: 1 <= n < i ==> !Crowded(lens, n)
    {
      if sizes[i] > Pow2(i) {
        assert Crowded(lens, i) && Limit(lens, i) > Pow2(i);
        return true;
      }
    }
    tooMany := false;
  }

  /** The two loops over code lengths. */
  method AssignLengths(lens: seq<nat>, sizes: seq<nat>, firstcode: array<nat>, maxcode: array<nat>,
                       firstsymbol: array<nat>) returns (ok: bool, nextCode: seq<nat>)
    requires ValidLengths(lens)
    requires |sizes| == 17 && forall s :: 1 <= s < 17 ==> sizes[s] == Count(lens, s)
    requires firstcode.Length == 16 && maxcode.Length == 17 && firstsymbol.Length == 16
    requires firstcode != maxcode && firstcode != firstsymbol && maxcode != firstsymbol
    modifies firstcode, maxcode, firstsymbol
    ensures ok <==> Accepted(lens)
    ensures ok ==> LengthTables(lens, 16, firstcode[..], maxcode[..], firstsymbol[..])
    ensures ok ==> |nextCode| == 16 && NextCodes(lens, 16, nextCode)
  {
    nextCode := seq(16, i => 0);
    var tooMany := TooManyCodes(lens, sizes);
    if tooMany {
      return false, nextCode;
    }
    var code, k := 0, 0;
    for i := 1 to 16
      invariant code == First(lens, i) <= Pow2(i)
      invariant k == FirstSymbol(lens, i)
      invariant AcceptedBelow(lens, i)
      invariant |nextCode| == 16 && NextCodes(lens, i, nextCode)
      invariant LengthTables(lens, i, firstcode[..], maxcode[..], firstsymbol[..])
    {
      var first := code;
      code := code + sizes[i];
      if sizes[i] != 0 {
        if code - 1 >= Pow2(i) {
          assert !Accepted(lens);
          return false, nextCode;
        }
      }
      assert code == Limit(lens, i) <= Pow2(i);
      ExtendLengths(lens, i, firstcode[..], maxcode[..], firstsymbol[..], nextCode);
      nextCode := nextCode[i := first];
      StoreLength(firstcode, maxcode, firstsymbol, i, first, Preshift(code, i), k);
      code := code * 2;
      k := k + sizes[i];
    }
    ok := true;
  }

  method StoreLength(firstcode: array<nat>, maxcode: array<nat>, firstsymbol: array<nat>,
                     i: nat, first: nat, max: nat, k: nat)
    requires firstcode.Length == 16 && maxcode.Length == 17 && firstsymbol.Length == 16 && i < 16
    requires firstcode != maxcode && firstcode != firstsymbol && maxcode != firstsymbol
    modifies firstcode, maxcode, firstsymbol
    ensures firstcode[..] == old(firstcode[..])[i := first % 0x10000]
    ensures maxcode[..] == old(maxcode[..])[i := max]
    ensures firstsymbol[..] == old(firstsymbol[..])[i := k % 0x10000]
  {
    firstcode[i] := first % 0x10000;
    firstsymbol[i] := k % 0x10000;
    maxcode[i] := max;
  }

  lemma ExtendLengths(lens: seq<nat>, i: nat, firstcode: seq<nat>, maxcode: seq<nat>, firstsymbol: seq<nat>,
                      nextCode: seq<nat>)
    requires ValidLengths(lens) && 1 <= i < 16 && Limit(lens, i) <= Pow2(i)
    requires LengthTables(lens, i, firstcode, maxcode, firstsymbol)
    requires |nextCode| == 16 && NextCodes(lens, i, nextCode)
    ensures LengthTables(lens, i + 1, firstcode[i := First(lens, i) % 0x10000],
                         maxcode[i := Preshift(Limit(lens, i), i)],
                         firstsymbol[i := FirstSymbol(lens, i) % 0x10000])
    ensures NextCodes(lens, i + 1, nextCode[i := First(lens, i)])
  {
    FitsWord(lens, i);
  }

  /** The values the 16-bit table fields receive fit them. */
  lemma FitsWord(lens: seq<nat>, i: nat)
    requires ValidLengths(lens) && 1 <= i <= 15
    ensures FirstSymbol(lens, i) % 0x10000 == FirstSymbol(lens, i)
    ensures First(lens, i) <= Pow2(i) ==> First(lens, i) % 0x10000 == First(lens, i)
  {
    FirstSymbolBound(lens, i);
    SmallWord(FirstSymbol(lens, i));
    Pow2Below16(i);
    if First(lens, i) <= Pow2(i) {
      SmallWord(First(lens, i));
    }
  }

  lemma SmallWord(x: nat)
    requires x < 0x10000
    ensures x % 0x10000 == x
  {
  }

  /** The loop that gives every symbol its slot and its fast entries. */
  method EnterSymbols(lens: seq<nat>, nextCode0: seq<nat>, firstcode: array<nat>, firstsymbol: array<nat>,
                      size: array<nat>, value: array<nat>, fast: array<nat>)
    requires ValidLengths(lens) && Accepted(lens)
    requires |nextCode0| == 16 && firstcode.Length == 16 && firstsymbol.Length == 16
    requires size.Length == NSYMS && value.Length == NSYMS && fast.Length == FAST_SIZE
    requires firstcode !in {size, value, fast} && firstsymbol !in {size, value, fast}
    requires size != value && size != fast && value != fast
    requires forall s :: 1 <= s < 16 ==> nextCode0[s] == First(lens, s) == firstcode[s]
    requires forall s :: 1 <= s < 16 ==> firstsymbol[s] == FirstSymbol(lens, s)
    requires forall j :: 0 <= j < FAST_SIZE ==> fast[j] == 0
    modifies fast, size, value
    ensures SymbolTable(lens, |lens|, size[..], value[..])
    ensures FastTable(lens, |lens|, fast[..])
  {
    var nextCode := nextCode0;
    for i := 0 to |lens|
      invariant |nextCode| == 16
      invariant forall s :: 1 <= s < 16 ==> nextCode[s] == First(lens, s) + Count(lens[..i], s)
      invariant SymbolTable(lens, i, size[..], value[..])
      invariant FastTable(lens, i, fast[..])
    {
      var s := lens[i];
      assert lens[..i + 1][..i] == lens[..i];
      if s != 0 {
        var c := nextCode[s] - firstcode[s] + firstsymbol[s];
        var fastv := (s * 512 + i) % 0x10000;
        EnterSlot(lens, i, c, size, value);
        if s <= FAST_BITS {
          EnterFast(lens, i, nextCode[s], fastv, fast);
        } else {
          SkipFast(lens, i, fast[..]);
        }
        nextCode := nextCode[s := nextCode[s] + 1];
      } else {
        SkipFast(lens, i, fast[..]);
      }
    }
  }

  method EnterSlot(lens: seq<nat>, i: nat, c: nat, size: array<nat>, value: array<nat>)
    requires ValidLengths(lens) && i < |lens| && lens[i] >= 1 && c == Slot(lens, i)
    requires size.Length == NSYMS && value.Length == NSYMS && size != value
    requires SymbolTable(lens, i, size[..], value[..])
    modifies size, value
    ensures SymbolTable(lens, i + 1, size[..], value[..])
  {
    ExtendSymbols(lens, i, size[..], value[..]);
    ghost var size', value' := size[..][c := lens[i]], value[..][c := i];
    size[c] := lens[i] % 256;
    value[c] := i % 0x10000;
    assert size[..] == size' && value[..] == value';
  }

  /** The innermost loop: every nine-bit value that ends in the reversed code. */
  method EnterFast(lens: seq<nat>, i: nat, code: nat, fastv: nat, fast: array<nat>)
    requires fast.Length == FAST_SIZE && Accepted(lens) && i < |lens| && 1 <= lens[i] <= FAST_BITS
    requires code == Code(lens, i) && fastv == FastEntry(lens, i)
    requires FastTable(lens, i, fast[..])
    modifies fast
    ensures FastTable(lens, i + 1, fast[..])
  {
    BitReverseIsTop(code, lens[i]);
    ghost var before := fast[..];
    FillResidue(fast, BitReverse(code, lens[i]), Pow2(lens[i]), fastv);
    ExtendFast(lens, i, before, fast[..]);
  }

  method FillResidue(fast: array<nat>, r: nat, step: nat, fastv: nat)
    requires r < step
    modifies fast
    ensures forall n :: 0 <= n < fast.Length ==> fast[n] == if n % step == r then fastv else old(fast[n])
  {
    var j := r;
    DivModUnique(r, step, 0, r);
    SmallerResidue(r, step);
    while j < fast.Length
      invariant j >= r && j % step == r
      invariant forall n :: 0 <= n < fast.Length ==>
                  fast[n] == if n < j && n % step == r then fastv else old(fast[n])
    {
      NextResidue(j, step, r);
      fast[j] := fastv;
      j := j + step;
    }
  }

  lemma SmallerResidue(r: nat, step: nat)
    requires r < step
    ensures forall n :: 0 <= n < r ==> n % step != r
  {
    forall n | 0 <= n < r
      ensures n % step != r
    {
      DivModUnique(n, step, 0, n);
    }
  }

  /** Between j and j + step no other number has j's residue. */
  lemma NextResidue(j: nat, step: nat, r: nat)
    requires step >= 1 && j % step == r
    ensures (j + step) % step == r
    ensures forall n :: j < n < j + step ==> n % step != r
  {
    var q := j / step;
    assert (q + 1) * step == q * step + step;
    DivModUnique(j + step, step, q + 1, r);
    forall n | j < n < j + step
      ensures n % step != r
    {
      if n - q * step < step {
        DivModUnique(n, step, q, n - q * step);
      } else {
        DivModUnique(n, step, q + 1, n - q * step - step);
      }
    }
  }
}
