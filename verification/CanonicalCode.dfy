/** Canonical prefix codes as section 3.2.2 of RFC 1951 defines them: a list of code
    lengths, one per symbol, determines every code.  Length 0 means "no code". */
module CanonicalCode {
  import opened Bits

  const MAX_LENGTH := 15

  /** What stbi__zbuild_huffman may be given: at most 288 lengths, none above 15. */
  predicate ValidLengths(lens: seq<nat>) {
    |lens| <= 288 && forall i :: 0 <= i < |lens| ==> lens[i] <= MAX_LENGTH
  }

  /** How many symbols have length s. */
  function Count(lens: seq<nat>, s: nat): (c: nat)
    ensures c <= |lens|
  {
    if lens == [] then 0
    else Count(lens[..|lens| - 1], s) + if lens[|lens| - 1] == s then 1 else 0
  }

  /** One past the largest code of length n. */
  function Limit(lens: seq<nat>, n: nat): nat {
    if n == 0 then 0 else 2 * Limit(lens, n - 1) + Count(lens, n)
  }

  /** The smallest code of length n. */
  function First(lens: seq<nat>, n: nat): nat
    requires n >= 1
  {
    2 * Limit(lens, n - 1)
  }

  /** The code of symbol i: symbols of equal length get consecutive codes. */
  function Code(lens: seq<nat>, i: nat): nat
    requires i < |lens| && lens[i] >= 1
  {
    First(lens, lens[i]) + Count(lens[..i], lens[i])
  }

  /** The bit stream w starts with the code of symbol i. */
  predicate Matches(lens: seq<nat>, i: nat, w: nat) {
    i < |lens| && lens[i] >= 1 && Top(w, lens[i]) == Code(lens, i)
  }

  /** Every code fits in its length. */
  predicate Accepted(lens: seq<nat>) {
    forall n :: 1 <= n <= MAX_LENGTH && Count(lens, n) > 0 ==> Limit(lens, n) <= Pow2(n)
  }

  // ----- counting ------------------------------------------------------------

  lemma {:induction false} CountPrefix(lens: seq<nat>, i: nat, s: nat)
    requires i <= |lens|
    ensures Count(lens[..i], s) <= Count(lens, s)
    ensures i < |lens| && lens[i] == s ==> Count(lens[..i], s) < Count(lens, s)
    decreases |lens|
  {
    if i == |lens| {
      assert lens[..i] == lens;
    } else {
      var init := lens[..|lens| - 1];
      assert init[..i] == lens[..i];
      CountPrefix(init, i, s);
    }
  }

  /** Among symbols of one length the rank is strictly increasing. */
  lemma RankIncreases(lens: seq<nat>, i: nat, j: nat)
    requires i < j < |lens| && lens[i] == lens[j]
    ensures Count(lens[..i], lens[i]) < Count(lens[..j], lens[j])
  {
    assert lens[..j][..i] == lens[..i];
    CountPrefix(lens[..j], i, lens[i]);
  }

  /** Every rank below the count belongs to a symbol. */
  lemma {:induction false} SymbolOfRank(lens: seq<nat>, s: nat, k: nat) returns (i: nat)
    requires k < Count(lens, s)
    ensures i < |lens| && lens[i] == s && Count(lens[..i], s) == k
    decreases |lens|
  {
    var init := lens[..|lens| - 1];
    if k < Count(init, s) {
      i := SymbolOfRank(init, s, k);
      assert init[..i] == lens[..i];
    } else {
      i := |lens| - 1;
    }
  }

  // ----- prefix property -----------------------------------------------------

  /** A stream whose first n bits reach the codes of length n lies above every
      shorter code. */
  lemma {:induction false} AboveShorter(lens: seq<nat>, w: nat, m: nat, n: nat)
    requires m < n && Top(w, n) >= First(lens, n)
    ensures Top(w, m) >= Limit(lens, m)
    decreases n
  {
    assert Top(w, n - 1) >= Limit(lens, n - 1);
    if m < n - 1 {
      AboveShorter(lens, w, m, n - 1);
    }
  }

  /** A stream starts with the code of at most one symbol: the code is prefix-free. */
  lemma PrefixFree(lens: seq<nat>, i: nat, j: nat, w: nat)
    requires Matches(lens, i, w) && Matches(lens, j, w)
    ensures i == j
  {
    if lens[i] < lens[j] {
      AboveShorter(lens, w, lens[i], lens[j]);
      CountPrefix(lens, i, lens[i]);
    } else if lens[j] < lens[i] {
      AboveShorter(lens, w, lens[j], lens[i]);
      CountPrefix(lens, j, lens[j]);
    } else if i < j {
      RankIncreases(lens, i, j);
    } else if j < i {
      RankIncreases(lens, j, i);
    }
  }

  /** A stream whose first n bits lie below Limit(n) starts with some code of length
      at most n. */
  lemma {:induction false} BelowLimit(lens: seq<nat>, w: nat, n: nat) returns (i: nat)
    requires Top(w, n) < Limit(lens, n)
    ensures Matches(lens, i, w) && lens[i] <= n
    decreases n
  {
    if Top(w, n) >= First(lens, n) {
      i := SymbolOfRank(lens, n, Top(w, n) - First(lens, n));
    } else {
      i := BelowLimit(lens, w, n - 1);
    }
  }

  /** Matching looks only at as many bits as the code is long. */
  lemma MatchesLow(lens: seq<nat>, i: nat, w: nat, n: nat)
    requires i < |lens| && lens[i] <= n
    ensures Matches(lens, i, w % Pow2(n)) <==> Matches(lens, i, w)
  {
    if lens[i] >= 1 {
      MaskMask(w, n, lens[i]);
      TopOfLow(w, lens[i]);
      TopOfLow(w % Pow2(n), lens[i]);
    }
  }

  // ----- decoding bit by bit -------------------------------------------------

  /** The symbol of length s with k symbols of that length before it. */
  function SymbolAt(lens: seq<nat>, s: nat, k: nat): (i: nat)
    requires k < Count(lens, s)
    ensures i < |lens| && lens[i] == s
    decreases |lens|
  {
    var n := |lens| - 1;
    if k < Count(lens[..n], s) then SymbolAt(lens[..n], s, k) else n
  }

  lemma {:induction false} SymbolAtRank(lens: seq<nat>, s: nat, k: nat)
    requires k < Count(lens, s)
    ensures Count(lens[..SymbolAt(lens, s, k)], s) == k
    decreases |lens|
  {
    var init := lens[..|lens| - 1];
    if k < Count(init, s) {
      SymbolAtRank(init, s, k);
      assert init[..SymbolAt(init, s, k)] == lens[..SymbolAt(init, s, k)];
    }
  }

  /** Section 3.2.2 of RFC 1951 taken literally: append one bit at a time to the code until it
      is one of the codes of its length; -1 if fifteen bits are not enough. */
  function DecodeBits(lens: seq<nat>, rest: nat, code: nat, n: nat): int
    requires n <= MAX_LENGTH
    decreases MAX_LENGTH - n
  {
    if n == MAX_LENGTH then -1
    else
      var c := 2 * code + rest % 2;
      if First(lens, n + 1) <= c < Limit(lens, n + 1) then SymbolAt(lens, n + 1, c - First(lens, n + 1))
      else DecodeBits(lens, rest / 2, c, n + 1)
  }

  /** No symbol of length at most n begins the stream. */
  ghost predicate NoneUpTo(lens: seq<nat>, w: nat, n: nat) {
    forall i :: 0 <= i < |lens| && lens[i] <= n ==> !Matches(lens, i, w)
  }

  lemma NextBit(w: nat, n: nat)
    ensures Top(w, n + 1) == 2 * Top(w, n) + Shr(w, n) % 2 && Shr(w, n) / 2 == Shr(w, n + 1)
  {
    ShrIsDiv(w, n);
    ShrShr(w, n, 1);
  }

  lemma {:induction false} NotOfLength(lens: seq<nat>, w: nat, n: nat)
    requires n >= 1 && NoneUpTo(lens, w, n - 1) && !(First(lens, n) <= Top(w, n) < Limit(lens, n))
    ensures NoneUpTo(lens, w, n)
  {
    forall i | 0 <= i < |lens| && lens[i] <= n ensures !Matches(lens, i, w) {
      if lens[i] == n {
        CountPrefix(lens, i, n);
      }
    }
  }

  /** The decoder's state after n bits of the stream. */
  function DecodeAfter(lens: seq<nat>, w: nat, n: nat): int
    requires n <= MAX_LENGTH
  {
    DecodeBits(lens, Shr(w, n), Top(w, n), n)
  }

  lemma {:induction false} DecodeUnfolds(lens: seq<nat>, rest: nat, code: nat, n: nat, rest': nat, code': nat)
    requires n < MAX_LENGTH && code' == 2 * code + rest % 2 && rest' == rest / 2
    ensures DecodeBits(lens, rest, code, n)
         == if First(lens, n + 1) <= code' < Limit(lens, n + 1) then SymbolAt(lens, n + 1, code' - First(lens, n + 1))
            else DecodeBits(lens, rest', code', n + 1)
  {
  }

  lemma {:induction false} DecodeStep(lens: seq<nat>, w: nat, n: nat)
    requires n < MAX_LENGTH
    ensures var c := Top(w, n + 1);
      DecodeAfter(lens, w, n)
        == if First(lens, n + 1) <= c < Limit(lens, n + 1) then SymbolAt(lens, n + 1, c - First(lens, n + 1))
           else DecodeAfter(lens, w, n + 1)
  {
    NextBit(w, n);
    DecodeUnfolds(lens, Shr(w, n), Top(w, n), n, Shr(w, n + 1), Top(w, n + 1));
  }

  lemma {:induction false} FoundAt(lens: seq<nat>, w: nat, n: nat)
    requires n >= 1 && First(lens, n) <= Top(w, n) < Limit(lens, n)
    ensures Matches(lens, SymbolAt(lens, n, Top(w, n) - First(lens, n)), w)
  {
    SymbolAtRank(lens, n, Top(w, n) - First(lens, n));
  }

  /** r is the symbol the stream begins with, or -1 if there is none. */
  ghost predicate Decoded(lens: seq<nat>, w: nat, r: int) {
    if r >= 0 then Matches(lens, r, w) else r == -1 && NoneUpTo(lens, w, MAX_LENGTH)
  }

  lemma {:induction false} DecodedHere(lens: seq<nat>, w: nat, n: nat)
    requires n < MAX_LENGTH && First(lens, n + 1) <= Top(w, n + 1) < Limit(lens, n + 1)
    ensures Decoded(lens, w, DecodeAfter(lens, w, n))
  {
    DecodeStep(lens, w, n);
    FoundAt(lens, w, n + 1);
  }

  lemma {:induction false} DecodedLater(lens: seq<nat>, w: nat, n: nat)
    requires n < MAX_LENGTH && !(First(lens, n + 1) <= Top(w, n + 1) < Limit(lens, n + 1))
    requires Decoded(lens, w, DecodeAfter(lens, w, n + 1))
    ensures Decoded(lens, w, DecodeAfter(lens, w, n))
  {
    DecodeStep(lens, w, n);
  }

  lemma {:induction false} DecodesFrom(lens: seq<nat>, w: nat, n: nat)
    requires n <= MAX_LENGTH && NoneUpTo(lens, w, n)
    ensures Decoded(lens, w, DecodeAfter(lens, w, n))
    decreases MAX_LENGTH - n
  {
    if n < MAX_LENGTH {
      if First(lens, n + 1) <= Top(w, n + 1) < Limit(lens, n + 1) {
        DecodedHere(lens, w, n);
      } else {
        NotOfLength(lens, w, n + 1);
        DecodesFrom(lens, w, n + 1);
        DecodedLater(lens, w, n);
      }
    }
  }

  /** Decoding bit by bit finds exactly the symbol whose code begins the stream. */
  lemma {:induction false} BitByBit(lens: seq<nat>, w: nat, i: nat)
    requires ValidLengths(lens)
    ensures DecodeBits(lens, w, 0, 0) == i <==> Matches(lens, i, w)
  {
    DecodesFrom(lens, w, 0);
    var r := DecodeBits(lens, w, 0, 0);
    assert DecodeAfter(lens, w, 0) == r;
    if r >= 0 && Matches(lens, i, w) {
      PrefixFree(lens, r, i, w);
    }
  }

  // ----- the two rules of section 3.2.2 --------------------------------------

  lemma DoubleAtLeast(a: nat, p: nat, b: nat, c: nat)
    requires a * p <= b <= c
    ensures a * (2 * p) <= 2 * c
  {
    assert a * (2 * p) == 2 * (a * p);
  }

  lemma {:induction false} FirstAbove(lens: seq<nat>, m: nat, n: nat)
    requires m < n
    ensures Limit(lens, m) * Pow2(n - m) <= First(lens, n)
    decreases n
  {
    if m == n - 1 {
      assert Pow2(1) == 2;
    } else {
      FirstAbove(lens, m, n - 1);
      DoubleAtLeast(Limit(lens, m), Pow2(n - 1 - m), First(lens, n - 1), Limit(lens, n - 1));
    }
  }

  lemma ScaleAtLeast(a: nat, b: nat, p: nat, c: nat)
    requires a <= b && b * p <= c
    ensures a * p <= c
  {
    assert (b - a) * p >= 0;
  }

  /** Symbols of one length have consecutive codes in their own order, and a shorter code, filled up
      with any bits, comes before a longer one. */
  lemma {:induction false} CanonicalRules(lens: seq<nat>, i: nat, j: nat)
    requires i < |lens| && j < |lens| && lens[i] >= 1
    ensures i < j && lens[i] == lens[j] && (forall k :: i < k < j ==> lens[k] != lens[i]) ==>
      Code(lens, j) == Code(lens, i) + 1
    ensures lens[i] < lens[j] ==> (Code(lens, i) + 1) * Pow2(lens[j] - lens[i]) <= Code(lens, j)
  {
    CountPrefix(lens, i, lens[i]);
    if lens[i] < lens[j] {
      FirstAbove(lens, lens[i], lens[j]);
      ScaleAtLeast(Code(lens, i) + 1, Limit(lens, lens[i]), Pow2(lens[j] - lens[i]), Code(lens, j));
    } else if i < j && lens[i] == lens[j] && forall k :: i < k < j ==> lens[k] != lens[i] {
      CountBetween(lens, i, j);
    }
  }

  lemma {:induction false} CountBetween(lens: seq<nat>, i: nat, j: nat)
    requires i < j <= |lens| && forall k :: i < k < j ==> lens[k] != lens[i]
    ensures Count(lens[..j], lens[i]) == Count(lens[..i], lens[i]) + 1
    decreases j
  {
    assert lens[..j][..j - 1] == lens[..j - 1];
    if j > i + 1 {
      CountBetween(lens, i, j - 1);
    }
  }

  // ----- Kraft's inequality --------------------------------------------------

  lemma {:induction false} AcceptedLimits(lens: seq<nat>, n: nat)
    requires Accepted(lens) && n <= MAX_LENGTH
    ensures Limit(lens, n) <= Pow2(n)
  {
    if n > 0 {
      AcceptedLimits(lens, n - 1);
    }
  }

  /** The share of the code space the lengths ask for, in units of 2^-15. */
  function KraftSum(lens: seq<nat>): nat
    requires forall i :: 0 <= i < |lens| ==> lens[i] <= MAX_LENGTH
  {
    if lens == [] then 0
    else
      var s := lens[|lens| - 1];
      KraftSum(lens[..|lens| - 1]) + if s == 0 then 0 else Pow2(MAX_LENGTH - s)
  }

  /** The same share, counted length by length up to n. */
  function WeightUpTo(lens: seq<nat>, n: nat): nat
    requires n <= MAX_LENGTH
  {
    if n == 0 then 0 else WeightUpTo(lens, n - 1) + Count(lens, n) * Pow2(MAX_LENGTH - n)
  }

  lemma DistributeDouble(a: nat, c: nat, p: nat)
    ensures (2 * a + c) * p == a * (2 * p) + c * p
  {
    assert (2 * a) * p == a * (2 * p);
  }

  lemma {:induction false} LimitIsWeight(lens: seq<nat>, n: nat)
    requires n <= MAX_LENGTH
    ensures Limit(lens, n) * Pow2(MAX_LENGTH - n) == WeightUpTo(lens, n)
  {
    if n > 0 {
      LimitIsWeight(lens, n - 1);
      var p := Pow2(MAX_LENGTH - n);
      assert Pow2(MAX_LENGTH - (n - 1)) == 2 * p;
      DistributeDouble(Limit(lens, n - 1), Count(lens, n), p);
    }
  }

  lemma {:induction false} WeightStep(lens: seq<nat>, n: nat)
    requires 1 <= n <= MAX_LENGTH
    ensures WeightUpTo(lens, n - 1) <= WeightUpTo(lens, n)
  {
    MulNonNegative(Count(lens, n), Pow2(MAX_LENGTH - n));
  }

  lemma MulNonNegative(c: nat, p: nat)
    ensures c * p >= 0
  {
  }

  lemma {:induction false} WeightGrows(lens: seq<nat>, m: nat, n: nat)
    requires m <= n <= MAX_LENGTH
    ensures WeightUpTo(lens, m) <= WeightUpTo(lens, n)
    decreases n
  {
    if m < n {
      WeightGrows(lens, m, n - 1);
      WeightStep(lens, n);
    }
  }

  lemma {:induction false} WeightOfLast(lens: seq<nat>, n: nat)
    requires |lens| > 0 && n <= MAX_LENGTH
    ensures var s := lens[|lens| - 1];
      WeightUpTo(lens, n) == WeightUpTo(lens[..|lens| - 1], n) + if 1 <= s <= n then Pow2(MAX_LENGTH - s) else 0
    decreases n
  {
    if n > 0 {
      WeightOfLast(lens, n - 1);
      if lens[|lens| - 1] == n {
        OneMore(Count(lens[..|lens| - 1], n), Count(lens, n), Pow2(MAX_LENGTH - n));
      }
    }
  }

  lemma OneMore(c: nat, c': nat, p: nat)
    requires c' == c + 1
    ensures c' * p == c * p + p
  {
  }

  lemma {:induction false} WeightEmpty(n: nat)
    requires n <= MAX_LENGTH
    ensures WeightUpTo([], n) == 0
  {
    if n > 0 {
      WeightEmpty(n - 1);
    }
  }

  lemma {:induction false} WeightIsKraftSum(lens: seq<nat>)
    requires forall i :: 0 <= i < |lens| ==> lens[i] <= MAX_LENGTH
    ensures WeightUpTo(lens, MAX_LENGTH) == KraftSum(lens)
    decreases |lens|
  {
    if lens == [] {
      WeightEmpty(MAX_LENGTH);
    } else {
      WeightIsKraftSum(lens[..|lens| - 1]);
      WeightOfLast(lens, MAX_LENGTH);
    }
  }

  lemma {:induction false} AcceptedWithinSpace(lens: seq<nat>)
    requires Accepted(lens)
    ensures WeightUpTo(lens, MAX_LENGTH) <= Pow2(MAX_LENGTH)
  {
    LimitIsWeight(lens, MAX_LENGTH);
    AcceptedLimits(lens, MAX_LENGTH);
    assert Pow2(0) == 1;
  }

  lemma {:induction false} LimitWithinSpace(lens: seq<nat>, n: nat)
    requires n <= MAX_LENGTH && WeightUpTo(lens, MAX_LENGTH) <= Pow2(MAX_LENGTH)
    ensures Limit(lens, n) <= Pow2(n)
  {
    LimitIsWeight(lens, n);
    WeightGrows(lens, n, MAX_LENGTH);
    Pow2Add(n, MAX_LENGTH - n);
    CancelRight(Limit(lens, n), Pow2(n), Pow2(MAX_LENGTH - n));
  }

  /** A list of lengths is accepted exactly when it satisfies Kraft's inequality,
      that is when a prefix code with those lengths exists at all. */
  lemma {:induction false} AcceptedIffKraft(lens: seq<nat>)
    requires forall i :: 0 <= i < |lens| ==> lens[i] <= MAX_LENGTH
    ensures Accepted(lens) <==> KraftSum(lens) <= Pow2(MAX_LENGTH)
  {
    WeightIsKraftSum(lens);
    if Accepted(lens) {
      AcceptedWithinSpace(lens);
    } else if KraftSum(lens) <= Pow2(MAX_LENGTH) {
      forall n | 1 <= n <= MAX_LENGTH
        ensures Limit(lens, n) <= Pow2(n)
      {
        LimitWithinSpace(lens, n);
      }
    }
  }

  lemma CancelRight(a: nat, b: nat, p: nat)
    requires p >= 1 && a * p <= b * p
    ensures a <= b
  {
    if a > b {
      assert (a - b) * p == a * p - b * p;
      MulAtLeast(a - b, p);
    }
  }
}
