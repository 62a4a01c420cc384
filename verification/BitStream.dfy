/** The input of the inflater as one infinite bit stream: the bytes in order, each
    least significant bit first (section 3.1.1 of RFC 1951), then zeros for ever.
    Such a stream is one natural number, read from its lowest bit. */
module BitStream {
  import opened Prelude
  import opened Bits
  import opened CanonicalCode
  import opened HuffmanTable

  function LittleEndian(s: seq<byte>): nat {
    if s == [] then 0 else s[0] + 256 * LittleEndian(s[1..])
  }

  /** What is left to read: numBits buffered bits, then the unread bytes. */
  function Remaining(buffer: nat, numBits: nat, unread: seq<byte>): nat
    decreases numBits
  {
    if numBits == 0 then LittleEndian(unread)
    else buffer % 2 + 2 * Remaining(buffer / 2, numBits - 1, unread)
  }

  lemma {:induction false} RemainingIsSum(buffer: nat, numBits: nat, unread: seq<byte>)
    requires buffer < Pow2(numBits)
    ensures Remaining(buffer, numBits, unread) == buffer + Pow2(numBits) * LittleEndian(unread)
    decreases numBits
  {
    if numBits > 0 {
      RemainingIsSum(buffer / 2, numBits - 1, unread);
      DoubleProduct(Pow2(numBits - 1), LittleEndian(unread));
    }
  }

  lemma DoubleProduct(p: nat, rest: nat)
    ensures (2 * p) * rest == 2 * (p * rest)
  {
  }

  /** The buffer with one more byte above its bits. */
  function Refilled(buffer: nat, numBits: nat, b: byte): nat {
    Or(buffer, b * Pow2(numBits))
  }

  /** Moving one byte (or a padding zero) into the buffer keeps the buffer below
      2^num_bits and changes nothing that will be read. */
  lemma RefillKeepsStream(buffer: nat, numBits: nat, unread: seq<byte>)
    requires buffer < Pow2(numBits)
    ensures var b := if unread == [] then 0 else unread[0];
      && Refilled(buffer, numBits, b) < Pow2(numBits + 8)
      && Remaining(Refilled(buffer, numBits, b), numBits + 8, if unread == [] then [] else unread[1..])
         == Remaining(buffer, numBits, unread)
  {
    var b: byte := if unread == [] then 0 else unread[0];
    var unread' := if unread == [] then [] else unread[1..];
    var p, rest := Pow2(numBits), LittleEndian(unread');
    OrDisjoint(buffer, b, numBits);
    RefillFits(buffer, numBits, b);
    RemainingIsSum(buffer, numBits, unread);
    RemainingIsSum(buffer + b * p, numBits + 8, unread');
    Pow2Add(numBits, 8);
    Pow2Values();
    RefillArithmetic(b, rest, p);
  }

  lemma RefillArithmetic(b: nat, rest: nat, p: nat)
    ensures b * p + (p * 256) * rest == p * (b + 256 * rest)
  {
  }

  lemma RefillFits(buffer: nat, numBits: nat, b: byte)
    requires buffer < Pow2(numBits)
    ensures buffer + b * Pow2(numBits) < Pow2(numBits + 8)
  {
    Pow2Add(numBits, 8);
    Pow2Values();
    ByteFits(buffer, b, Pow2(numBits));
  }

  lemma ByteFits(buffer: nat, b: byte, p: nat)
    requires buffer < p
    ensures buffer + b * p < p * 256
  {
    Distribute(255, b, p);
    assert (255 - b) * p >= 0;
  }

  /** Bits taken from the buffer are the stream's next bits. */
  lemma {:induction false} TakeBits(buffer: nat, numBits: nat, unread: seq<byte>, n: nat)
    requires buffer < Pow2(numBits) && n <= numBits
    ensures Low(buffer, n) == Low(Remaining(buffer, numBits, unread), n)
    ensures Remaining(Shr(buffer, n), numBits - n, unread) == Shr(Remaining(buffer, numBits, unread), n)
    ensures Shr(buffer, n) < Pow2(numBits - n)
    decreases n
  {
    if n > 0 {
      var w := Remaining(buffer, numBits, unread);
      assert w % 2 == buffer % 2 && w / 2 == Remaining(buffer / 2, numBits - 1, unread);
      TakeBits(buffer / 2, numBits - 1, unread, n - 1);
    }
  }

  /** Zeros buffered after the end of the input are the zeros the stream ends with. */
  lemma {:induction false} PadKeepsStream(buffer: nat, numBits: nat, n: nat)
    requires buffer < Pow2(numBits)
    ensures buffer < Pow2(numBits + n)
    ensures Remaining(buffer, numBits + n, []) == Remaining(buffer, numBits, [])
  {
    Pow2Mono(numBits, numBits + n);
    RemainingIsSum(buffer, numBits, []);
    RemainingIsSum(buffer, numBits + n, []);
  }

  /** The first sixteen bits of the stream are in a buffer of at least that many. */
  lemma {:induction false} TopFromBuffer(buffer: nat, numBits: nat, unread: seq<byte>, n: nat)
    requires buffer < Pow2(numBits) && n <= numBits
    ensures Top(buffer, n) == Top(Remaining(buffer, numBits, unread), n)
  {
    var w := Remaining(buffer, numBits, unread);
    TakeBits(buffer, numBits, unread, n);
    LowIsMod(buffer, n);
    LowIsMod(w, n);
    TopOfLow(buffer, n);
    TopOfLow(w, n);
  }

  lemma MatchesFromBuffer(lens: seq<nat>, buffer: nat, numBits: nat, unread: seq<byte>)
    requires ValidLengths(lens) && buffer < Pow2(numBits) && numBits >= 16
    ensures forall i :: 0 <= i < |lens| ==>
              (Matches(lens, i, buffer) <==> Matches(lens, i, Remaining(buffer, numBits, unread)))
  {
    forall i | 0 <= i < |lens|
      ensures Matches(lens, i, buffer) <==> Matches(lens, i, Remaining(buffer, numBits, unread))
    {
      TopFromBuffer(buffer, numBits, unread, lens[i]);
    }
  }

  // ----- table lookup --------------------------------------------------------

  /** No symbol's code starts the stream. */
  ghost predicate NoCode(lens: seq<nat>, w: nat) {
    forall i :: 0 <= i < |lens| ==> !Matches(lens, i, w)
  }

  lemma {:induction false} PreshiftDouble(code: nat, n: nat)
    requires n < 16
    ensures Preshift(code, n) == Preshift(2 * code, n + 1)
    decreases 16 - n
  {
    if n < 15 {
      PreshiftDouble(code, n + 1);
    }
  }

  /** Comparing preshifted words is comparing the leading bits. */
  lemma {:induction false} BelowPreshift(w: nat, limit: nat, n: nat)
    requires n <= 16
    ensures Top(w, 16) < Preshift(limit, n) <==> Top(w, n) < limit
    decreases 16 - n
  {
    if n < 16 {
      PreshiftDouble(limit, n);
      BelowPreshift(w, 2 * limit, n + 1);
    }
  }

  /** If no code of at most nine bits matches, the first nine bits are above all of them. */
  lemma MissAbove(lens: seq<nat>, w: nat)
    requires forall i :: 0 <= i < |lens| && lens[i] <= FAST_BITS ==> !Matches(lens, i, w)
    ensures Top(w, FAST_BITS) >= Limit(lens, FAST_BITS)
  {
    if Top(w, FAST_BITS) < Limit(lens, FAST_BITS) {
      var i := BelowLimit(lens, w, FAST_BITS);
    }
  }

  /** What the fast table says about a word with nine low bits j. */
  lemma FastLookup(lens: seq<nat>, fast: seq<nat>, w: nat)
    requires ValidLengths(lens) && FastTable(lens, |lens|, fast)
    ensures w % FAST_SIZE < FAST_SIZE
    ensures var b := fast[w % FAST_SIZE];
      if b != 0 then
        var i := b % 512;
        Matches(lens, i, w) && lens[i] <= FAST_BITS && b / 512 == lens[i]
      else
        forall i :: 0 <= i < |lens| && lens[i] <= FAST_BITS ==> !Matches(lens, i, w)
  {
    Pow2Values();
    var j := w % FAST_SIZE;
    var b := fast[j];
    forall i | 0 <= i < |lens| && lens[i] <= FAST_BITS
      ensures Matches(lens, i, j) <==> Matches(lens, i, w)
    {
      MatchesLow(lens, i, w, FAST_BITS);
    }
    if b != 0 {
      var i :| 0 <= i < |lens| && Hits(lens, i, j) && b == FastEntry(lens, i);
      DivModUnique(b, 512, lens[i], i);
    } else {
      forall i | 0 <= i < |lens| && lens[i] <= FAST_BITS && Matches(lens, i, w)
        ensures false
      {
        assert Hits(lens, i, j);
      }
    }
  }

  /** The word lies above all codes of nine to s - 1 bits. */
  ghost predicate AboveUpTo(lens: seq<nat>, w: nat, s: nat) {
    forall m :: FAST_BITS <= m < s ==> Top(w, m) >= Limit(lens, m)
  }

  lemma {:induction false} AboveNext(lens: seq<nat>, w: nat, s: nat)
    requires AboveUpTo(lens, w, s) && Top(w, s) >= Limit(lens, s)
    ensures AboveUpTo(lens, w, s + 1)
  {
  }

  lemma TopSmall(w: nat)
    ensures Top(w, 16) < 0x10000
  {
    Pow2Values();
  }

  /** The length of the code a word begins with, given that it is longer than nine bits; 16 if
      there is none. */
  method FindLength(z: ZHuffman, w: nat, k: nat, ghost lens: seq<nat>) returns (s: nat)
    requires z.Represents(lens) && k == Top(w, 16) && Top(w, FAST_BITS) >= Limit(lens, FAST_BITS)
    ensures FAST_BITS + 1 <= s <= 16 && AboveUpTo(lens, w, s)
    ensures s < 16 ==> Top(w, s) < Limit(lens, s)
  {
    TopSmall(w);
    AboveNext(lens, w, FAST_BITS);
    s := FAST_BITS + 1;
    while !(k < z.maxcode[s])
      invariant FAST_BITS + 1 <= s <= 16 && AboveUpTo(lens, w, s)
      decreases 16 - s
    {
      BelowPreshift(w, Limit(lens, s), s);
      AboveNext(lens, w, s);
      s := s + 1;
    }
    if s < 16 {
      BelowPreshift(w, Limit(lens, s), s);
    }
  }

  lemma LengthEntry(lens: seq<nat>, firstcode: seq<nat>, maxcode: seq<nat>, firstsymbol: seq<nat>, s: nat)
    requires LengthTables(lens, 16, firstcode, maxcode, firstsymbol) && 1 <= s < 16
    ensures firstcode[s] == First(lens, s) && firstsymbol[s] == FirstSymbol(lens, s)
  {
  }

  lemma SymbolEntry(lens: seq<nat>, size: seq<nat>, value: seq<nat>, i: nat)
    requires SymbolTable(lens, |lens|, size, value) && i < |lens| && lens[i] >= 1
    ensures Slot(lens, i) < NSYMS && size[Slot(lens, i)] == lens[i] && value[Slot(lens, i)] == i
  {
  }

  /** stbi__zhuffman_decode_slowpath: codes of ten bits and more, by comparing the
      reversed word with one preshifted limit per length.  sym is -1 exactly when no
      code matches; the checks on b and size[b] never reject a word. */
  method DecodeSlow(z: ZHuffman, w: nat, ghost lens: seq<nat>) returns (sym: int, s: nat)
    requires z.Represents(lens)
    requires forall i :: 0 <= i < |lens| && lens[i] <= FAST_BITS ==> !Matches(lens, i, w)
    ensures sym >= 0 ==> Matches(lens, sym, w) && s == lens[sym]
    ensures sym < 0 ==> sym == -1 && NoCode(lens, w)
  {
    var k := BitReverse(w, 16);
    BitReverseIsTop(w, 16);
    MissAbove(lens, w);
    s := FindLength(z, w, k, lens);
    if s >= 16 {
      AboveAllMeansNoCode(lens, w);
      return -1, s;
    }
    sym := LongSymbol(z, w, k, s, lens);
  }

  /** Looks up a code of s bits: the checks on b and size[b] never reject it. */
  method LongSymbol(z: ZHuffman, w: nat, k: nat, s: nat, ghost lens: seq<nat>) returns (sym: int)
    requires z.Represents(lens) && k == Top(w, 16) && 2 <= s < 16
    requires Top(w, s - 1) >= Limit(lens, s - 1) && Top(w, s) < Limit(lens, s)
    ensures sym >= 0 && Matches(lens, sym, w) && lens[sym] == s
  {
    LengthEntry(lens, z.firstcode[..], z.maxcode[..], z.firstsymbol[..], s);
    var b := Shr(k, 16 - s) - z.firstcode[s] + z.firstsymbol[s];
    ghost var i := LongCode(lens, w, s);
    SymbolEntry(lens, z.size[..], z.value[..], i);
    if b >= NSYMS {
      return -1;
    }
    if z.size[b] != s {
      return -1;
    }
    sym := z.value[b];
  }

  /** The symbol of a long code and where its entry is. */
  lemma LongCode(lens: seq<nat>, w: nat, s: nat) returns (i: nat)
    requires 2 <= s < 16 && Top(w, s - 1) >= Limit(lens, s - 1) && Top(w, s) < Limit(lens, s)
    ensures i < |lens| && lens[i] == s && Matches(lens, i, w)
    ensures Shr(Top(w, 16), 16 - s) - First(lens, s) + FirstSymbol(lens, s) == Slot(lens, i)
  {
    TopPrefix(w, s, 16);
    ShrIsDiv(Top(w, 16), 16 - s);
    i := SymbolOfRank(lens, s, Top(w, s) - First(lens, s));
  }

  lemma AboveAllMeansNoCode(lens: seq<nat>, w: nat)
    requires ValidLengths(lens)
    requires forall i :: 0 <= i < |lens| && lens[i] <= FAST_BITS ==> !Matches(lens, i, w)
    requires AboveUpTo(lens, w, 16)
    ensures NoCode(lens, w)
  {
    forall i | 0 <= i < |lens|
      ensures !Matches(lens, i, w)
    {
      if lens[i] > FAST_BITS {
        CountPrefix(lens, i, lens[i]);
      }
    }
  }
}
