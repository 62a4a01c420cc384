/** Powers of two, shifts and bit order on natural numbers.

    A machine word and a whole bit stream are both modelled as one natural number
    whose binary digits are the bits, least significant first. */
module Bits {

  function Pow2(n: nat): (p: nat)
    ensures p >= 1
  {
    if n == 0 then 1 else 2 * Pow2(n - 1)
  }

  /** v >> n. */
  function Shr(v: nat, n: nat): nat
    decreases n
  {
    if n == 0 then v else Shr(v / 2, n - 1)
  }

  /** The low n bits of v. */
  function Low(v: nat, n: nat): (r: nat)
    ensures r < Pow2(n)
    decreases n
  {
    if n == 0 then 0 else v % 2 + 2 * Low(v / 2, n - 1)
  }

  lemma {:induction false} ShrIsDiv(v: nat, n: nat)
    ensures Shr(v, n) == v / Pow2(n)
    decreases n
  {
    if n > 0 {
      ShrIsDiv(v / 2, n - 1);
      HalveFirst(v, n - 1);
    }
  }

  lemma {:induction false} LowIsMod(v: nat, n: nat)
    ensures Low(v, n) == v % Pow2(n)
    decreases n
  {
    if n > 0 {
      LowIsMod(v / 2, n - 1);
      HalveFirst(v, n - 1);
    }
  }

  lemma {:induction false} ShrShr(v: nat, m: nat, n: nat)
    ensures Shr(Shr(v, m), n) == Shr(v, m + n)
    decreases m
  {
    if m > 0 {
      ShrShr(v / 2, m - 1, n);
    }
  }

  lemma Pow2Values()
    ensures Pow2(8) == 256 && Pow2(9) == 512 && Pow2(15) == 0x8000 && Pow2(16) == 0x10000
  {
    assert Pow2(8) == 256;
    assert Pow2(12) == 4096;
  }

  lemma Pow2Below16(n: nat)
    requires n <= 15
    ensures Pow2(n) <= 0x8000
  {
    Pow2Mono(n, 15);
    Pow2Values();
  }

  lemma MulAtLeast(a: int, d: int)
    requires a >= 1 && d >= 1
    ensures a * d >= d
  {
    assert (a - 1) * d >= 0;
  }

  lemma DivModUnique(v: int, d: int, q: int, r: int)
    requires 0 <= r < d && v == q * d + r
    ensures v / d == q && v % d == r
  {
    var q', r' := v / d, v % d;
    Distribute(q', q, d);
    if q' > q {
      MulAtLeast(q' - q, d);
    } else if q' < q {
      Distribute(q, q', d);
      MulAtLeast(q - q', d);
    }
  }

  lemma Distribute(a: int, b: int, d: int)
    ensures (a - b) * d == a * d - b * d
  {
  }

  lemma {:induction false} Pow2Add(m: nat, n: nat)
    ensures Pow2(m + n) == Pow2(m) * Pow2(n)
  {
    if m == 0 {
    } else {
      Pow2Add(m - 1, n);
      assert Pow2(m + n) == 2 * Pow2(m - 1 + n);
      assert Pow2(m) * Pow2(n) == 2 * (Pow2(m - 1) * Pow2(n));
    }
  }

  lemma {:induction false} Pow2Mono(m: nat, n: nat)
    requires m <= n
    ensures Pow2(m) <= Pow2(n)
    decreases n
  {
    if m < n {
      Pow2Mono(m, n - 1);
    }
  }

  /** Shifting by one and then by n is shifting by n + 1; the low n + 1 bits are the
      lowest bit and the low n bits of the rest. */
  lemma HalveFirst(v: nat, n: nat)
    ensures v / Pow2(n + 1) == (v / 2) / Pow2(n)
    ensures v % Pow2(n + 1) == v % 2 + 2 * ((v / 2) % Pow2(n))
  {
    var p := Pow2(n);
    var q, r := (v / 2) / p, (v / 2) % p;
    assert v / 2 == q * p + r;
    assert v == 2 * (v / 2) + v % 2;
    assert q * (2 * p) == 2 * (q * p);
    DivModUnique(v, 2 * p, q, 2 * r + v % 2);
  }

  /** The low n + 1 bits are bit n and the low n bits; shifting by n + 1 is shifting
      by n and then by one. */
  lemma HalveLast(v: nat, n: nat)
    ensures v / Pow2(n + 1) == (v / Pow2(n)) / 2
    ensures v % Pow2(n + 1) == (v / Pow2(n)) % 2 * Pow2(n) + v % Pow2(n)
  {
    var p := Pow2(n);
    var q, r := v / p, v % p;
    assert v == q * p + r;
    assert q == 2 * (q / 2) + q % 2;
    assert q * p == (q / 2) * (2 * p) + q % 2 * p by {
      assert q * p == (2 * (q / 2) + q % 2) * p;
    }
    assert 0 <= q % 2 * p + r < 2 * p;
    DivModUnique(v, 2 * p, q / 2, q % 2 * p + r);
  }

  /** Masking n bits of a word that was already masked to m >= n bits changes nothing. */
  lemma {:induction false} MaskMask(v: nat, m: nat, n: nat)
    requires n <= m
    ensures v % Pow2(m) % Pow2(n) == v % Pow2(n)
    decreases n
  {
    if n > 0 {
      HalveFirst(v, m - 1);
      HalveFirst(v, n - 1);
      HalveFirst(v % Pow2(m), n - 1);
      var w := v % Pow2(m);
      assert w == v % 2 + 2 * ((v / 2) % Pow2(m - 1));
      assert w / 2 == (v / 2) % Pow2(m - 1) && w % 2 == v % 2;
      MaskMask(v / 2, m - 1, n - 1);
    }
  }

  /** Bit i of v. */
  function Bit(v: nat, i: nat): (b: nat)
    ensures b <= 1
  {
    (v / Pow2(i)) % 2
  }

  /** The number read off by taking the first n bits of v one by one, each new bit
      becoming the least significant digit: how a prefix code is read
      (section 3.1.1 of RFC 1951), and also the reversal of the low n bits of v. */
  function Top(v: nat, n: nat): (t: nat)
    ensures t < Pow2(n)
  {
    if n == 0 then 0 else 2 * Top(v, n - 1) + Bit(v, n - 1)
  }

  lemma {:induction false} TopFirst(v: nat, n: nat)
    ensures Top(v, n + 1) == v % 2 * Pow2(n) + Top(v / 2, n)
    decreases n
  {
    if n == 0 {
      assert Top(v, 1) == Bit(v, 0) == v % 2;
    } else {
      TopFirst(v, n - 1);
      HalveFirst(v, n - 1);
      assert Bit(v, n) == Bit(v / 2, n - 1);
      assert 2 * (v % 2 * Pow2(n - 1)) == v % 2 * Pow2(n);
    }
  }

  /** Reading depends only on the bits read. */
  lemma {:induction false} TopOfLow(v: nat, n: nat)
    ensures Top(v % Pow2(n), n) == Top(v, n)
    decreases n
  {
    if n > 0 {
      HalveFirst(v, n - 1);
      var w := v % Pow2(n);
      assert w / 2 == (v / 2) % Pow2(n - 1) && w % 2 == v % 2;
      TopFirst(v, n - 1);
      TopFirst(w, n - 1);
      TopOfLow(v / 2, n - 1);
    }
  }

  /** Reversing n bits twice gives the low n bits back. */
  lemma {:induction false} TopTop(v: nat, n: nat)
    ensures Top(Top(v, n), n) == v % Pow2(n)
    decreases n
  {
    if n > 0 {
      var t := Top(v, n);
      assert t / 2 == Top(v, n - 1) && t % 2 == Bit(v, n - 1);
      TopFirst(t, n - 1);
      TopTop(v, n - 1);
      HalveLast(v, n - 1);
    }
  }

  /** The first m of n bits read are the leading m bits of the number read. */
  lemma {:induction false} TopPrefix(v: nat, m: nat, n: nat)
    requires m <= n
    ensures Top(v, n) / Pow2(n - m) == Top(v, m)
    decreases n
  {
    if m < n {
      TopPrefix(v, m, n - 1);
      HalveFirst(Top(v, n), n - 1 - m);
      assert Top(v, n) / 2 == Top(v, n - 1);
    }
  }

  /** A stream starts with the n-bit code c exactly when its low n bits are the
      reversal of c. */
  lemma StartsWithCode(v: nat, c: nat, n: nat)
    requires c < Pow2(n)
    ensures Top(v, n) == c <==> v % Pow2(n) == Top(c, n)
  {
    if Top(v, n) == c {
      TopTop(v, n);
    }
    if v % Pow2(n) == Top(c, n) {
      TopOfLow(v, n);
      TopTop(c, n);
      DivModUnique(c, Pow2(n), 0, c);
    }
  }

  /** Bitwise inclusive or. */
  function Or(a: nat, b: nat): nat {
    if a == 0 then b
    else if b == 0 then a
    else (if a % 2 == 1 || b % 2 == 1 then 1 else 0) + 2 * Or(a / 2, b / 2)
  }

  lemma Doubled(b: nat, p: nat)
    ensures b * (2 * p) == 2 * (b * p)
  {
  }

  lemma OrHalves(a: nat, m: nat)
    ensures Or(a, 2 * m) == a % 2 + 2 * Or(a / 2, m)
  {
    if a != 0 && m != 0 {
      assert 2 * m / 2 == m;
    }
  }

  /** Or-ing in a word shifted past the occupied bits is addition. */
  lemma {:induction false} OrDisjoint(a: nat, b: nat, n: nat)
    requires a < Pow2(n)
    ensures Or(a, b * Pow2(n)) == a + b * Pow2(n)
    decreases n
  {
    if n > 0 {
      OrDisjoint(a / 2, b, n - 1);
      Doubled(b, Pow2(n - 1));
      OrHalves(a, b * Pow2(n - 1));
    }
  }
}
