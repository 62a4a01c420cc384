/** stbi__bitreverse16 as it is written: four rounds that swap neighbouring groups of bits. */
module BitReversal {
  import opened Bits
  import opened HuffmanTable

  function Reverse16(n: bv16): bv16 {
    var a := ((n & 0xAAAA) >> 1) | ((n & 0x5555) << 1);
    var b := ((a & 0xCCCC) >> 2) | ((a & 0x3333) << 2);
    var c := ((b & 0xF0F0) >> 4) | ((b & 0x0F0F) << 4);
    ((c & 0xFF00) >> 8) | ((c & 0x00FF) << 8)
  }

  /** The word with bit i alone. */
  function Mask(i: nat): bv16
    requires i < 16
  {
    if i == 0 then 0x0001 else if i == 1 then 0x0002 else if i == 2 then 0x0004 else if i == 3 then 0x0008
    else if i == 4 then 0x0010 else if i == 5 then 0x0020 else if i == 6 then 0x0040 else if i == 7 then 0x0080
    else if i == 8 then 0x0100 else if i == 9 then 0x0200 else if i == 10 then 0x0400 else if i == 11 then 0x0800
    else if i == 12 then 0x1000 else if i == 13 then 0x2000 else if i == 14 then 0x4000 else 0x8000
  }

  predicate HasBit(n: bv16, i: nat)
    requires i < 16
  {
    n & Mask(i) != 0
  }

  function BitOf(n: bv16, i: nat): nat
    requires i < 16
  {
    if HasBit(n, i) then 1 else 0
  }

  /** The number that the k highest bits of a word stand for. */
  function Word(n: bv16, k: nat): nat
    requires k <= 16
  {
    if k == 0 then 0 else 2 * Word(n, k - 1) + BitOf(n, 16 - k)
  }

  lemma SwapsLower(n: bv16, r: bv16)
    requires r == Reverse16(n)
    ensures (r & 0x0001 != 0) == (n & 0x8000 != 0) && (r & 0x0002 != 0) == (n & 0x4000 != 0)
    ensures (r & 0x0004 != 0) == (n & 0x2000 != 0) && (r & 0x0008 != 0) == (n & 0x1000 != 0)
    ensures (r & 0x0010 != 0) == (n & 0x0800 != 0) && (r & 0x0020 != 0) == (n & 0x0400 != 0)
    ensures (r & 0x0040 != 0) == (n & 0x0200 != 0) && (r & 0x0080 != 0) == (n & 0x0100 != 0)
  {
  }

  lemma SwapsUpper(n: bv16, r: bv16)
    requires r == Reverse16(n)
    ensures (r & 0x0100 != 0) == (n & 0x0080 != 0) && (r & 0x0200 != 0) == (n & 0x0040 != 0)
    ensures (r & 0x0400 != 0) == (n & 0x0020 != 0) && (r & 0x0800 != 0) == (n & 0x0010 != 0)
    ensures (r & 0x1000 != 0) == (n & 0x0008 != 0) && (r & 0x2000 != 0) == (n & 0x0004 != 0)
    ensures (r & 0x4000 != 0) == (n & 0x0002 != 0) && (r & 0x8000 != 0) == (n & 0x0001 != 0)
  {
  }

  /** Bit i of the result is bit 15 - i of the argument. */
  lemma ReversesBit(n: bv16, i: nat)
    requires i < 16
    ensures HasBit(Reverse16(n), i) == HasBit(n, 15 - i)
  {
    if i < 8 {
      SwapsLower(n, Reverse16(n));
    } else {
      SwapsUpper(n, Reverse16(n));
    }
  }

  lemma {:induction false} ShrOfWord(n: bv16, k: nat, j: nat)
    requires j <= k <= 16
    ensures Shr(Word(n, k), j) == Word(n, k - j)
    decreases j
  {
    if j > 0 {
      assert Word(n, k) / 2 == Word(n, k - 1);
      ShrOfWord(n, k - 1, j - 1);
    }
  }

  lemma {:induction false} LowestBit(n: bv16, k: nat)
    requires 1 <= k <= 16
    ensures Word(n, k) % 2 == BitOf(n, 16 - k)
  {
    LastBit(Word(n, k - 1), BitOf(n, 16 - k));
  }

  lemma LastBit(x: nat, b: nat)
    requires b <= 1
    ensures (2 * x + b) % 2 == b
  {
  }

  lemma {:induction false} BitOfWord(n: bv16, k: nat, i: nat)
    requires i < k <= 16
    ensures Bit(Word(n, k), i) == BitOf(n, 16 - k + i)
  {
    ShrOfWord(n, k, i);
    ShrIsDiv(Word(n, k), i);
    LowestBit(n, k - i);
  }

  lemma {:induction false} TopOfWord(n: bv16, k: nat)
    requires k <= 16
    ensures Top(Word(n, 16), k) == Word(Reverse16(n), k)
  {
    if k > 0 {
      TopOfWord(n, k - 1);
      BitOfWord(n, 16, k - 1);
      ReversesBit(n, 16 - k);
    }
  }

  /** Swapping and shifting gives the first bits of the word as a number, most significant first. */
  lemma SwapsReverse(n: bv16, bits: nat)
    requires bits <= 16
    ensures Shr(Word(Reverse16(n), 16), 16 - bits) == BitReverse(Word(n, 16), bits)
  {
    TopOfWord(n, 16);
  }
}
