/** What the length and distance tables mean: section 3.2.5 of RFC 1951.  Symbols follow one another
    without gap or overlap, each covering as many values as its extra bits can tell apart. */
module DeflateTables {
  import opened Bits
  import opened Lz77

  // ----- the rows of the tables ------------------------------------------------

  lemma DistExtra(k: nat)
    requires k < 30
    ensures DIST_EXTRA[k] == if k < 2 then 0 else k / 2 - 1
  {
  }

  lemma LengthExtra(k: nat)
    requires k < 29
    ensures LENGTH_EXTRA[k] == if k < 8 || k == 28 then 0 else k / 4 - 1
  {
  }

  lemma SmallPowers()
    ensures Pow2(0) == 1 && Pow2(1) == 2 && Pow2(2) == 4 && Pow2(3) == 8 && Pow2(4) == 16 && Pow2(5) == 32
    ensures Pow2(6) == 64 && Pow2(7) == 128 && Pow2(8) == 256 && Pow2(9) == 512 && Pow2(10) == 1024
    ensures Pow2(11) == 2048 && Pow2(12) == 4096 && Pow2(13) == 8192
  {
    assert Pow2(7) == 128;
  }

  /** Every distance symbol begins where the one before it ends. */
  lemma {:induction false} DistChain(k: nat)
    requires k < 29
    ensures DIST_BASE[0] == 1 && DIST_BASE[k + 1] == DIST_BASE[k] + Pow2(DIST_EXTRA[k])
  {
    SmallPowers();
    if k < 8 {
    } else if k < 16 {
    } else if k < 24 {
    }
  }

  lemma {:induction false} LengthChain(k: nat)
    requires k < 27
    ensures LENGTH_BASE[0] == 3 && LENGTH_BASE[k + 1] == LENGTH_BASE[k] + Pow2(LENGTH_EXTRA[k])
  {
    SmallPowers();
    if k < 8 {
    } else if k < 16 {
    }
  }

  /** The last symbols: distances end at 32768, lengths at 258, which has a symbol of its own. */
  lemma TableEnds()
    ensures DIST_BASE[0] == 1 && DIST_BASE[29] + Pow2(DIST_EXTRA[29]) == 32769
    ensures LENGTH_BASE[0] == 3 && LENGTH_BASE[27] + Pow2(LENGTH_EXTRA[27]) == 259
    ensures LENGTH_BASE[28] == 258 && LENGTH_EXTRA[28] == 0 && Pow2(0) == 1
  {
    SmallPowers();
  }

  // ----- distances ---------------------------------------------------------------

  lemma {:induction false} DistMonotone(j: nat, k: nat)
    requires j < k < 30
    ensures DIST_BASE[j] + Pow2(DIST_EXTRA[j]) <= DIST_BASE[k]
    decreases k
  {
    DistChain(k - 1);
    if j < k - 1 {
      DistMonotone(j, k - 1);
    }
  }

  lemma {:induction false} FindDistance(d: nat, k: nat) returns (s: nat)
    requires k < 30 && DIST_BASE[0] <= d < DIST_BASE[k] + Pow2(DIST_EXTRA[k])
    ensures s <= k && DIST_BASE[s] <= d < DIST_BASE[s] + Pow2(DIST_EXTRA[s])
  {
    if d >= DIST_BASE[k] {
      s := k;
    } else {
      DistChain(k - 1);
      s := FindDistance(d, k - 1);
    }
  }

  // ----- lengths -----------------------------------------------------------------

  lemma {:induction false} LengthMonotone(j: nat, k: nat)
    requires j < k < 28
    ensures LENGTH_BASE[j] + Pow2(LENGTH_EXTRA[j]) <= LENGTH_BASE[k]
    decreases k
  {
    LengthChain(k - 1);
    if j < k - 1 {
      LengthMonotone(j, k - 1);
    }
  }

  lemma {:induction false} FindLength(n: nat, k: nat) returns (s: nat)
    requires k < 28 && LENGTH_BASE[0] <= n < LENGTH_BASE[k] + Pow2(LENGTH_EXTRA[k])
    ensures s <= k && LENGTH_BASE[s] <= n < LENGTH_BASE[s] + Pow2(LENGTH_EXTRA[s])
  {
    if n >= LENGTH_BASE[k] {
      s := k;
    } else {
      LengthChain(k - 1);
      s := FindLength(n, k - 1);
    }
  }

  // ----- tokens --------------------------------------------------------------------

  ghost predicate IsCopy(t: Token) {
    t.Copy? && t.Valid()
  }

  /** Every length from 3 to 258 at every distance from 1 to 32768 can be written. */
  lemma EveryCopyHasAToken(n: nat, d: nat) returns (t: Token)
    requires 3 <= n <= 258 && 1 <= d <= 32768
    ensures IsCopy(t) && t.Length() == n && t.Distance() == d
  {
    TableEnds();
    var k := FindLength(n, 27);
    var s := FindDistance(d, 29);
    t := Copy(257 + k, n - LENGTH_BASE[k], s, d - DIST_BASE[s]);
  }

  lemma DistanceInRange(t: Token)
    requires IsCopy(t)
    ensures 1 <= t.Distance() <= 32768
  {
    TableEnds();
    if t.distSymbol < 29 {
      DistMonotone(t.distSymbol, 29);
    }
  }

  lemma LengthInRange(t: Token)
    requires IsCopy(t)
    ensures 3 <= t.Length() <= 258
  {
    TableEnds();
    var k := t.lengthSymbol - 257;
    if k < 27 {
      LengthMonotone(k, 27);
    }
    if 0 < k < 28 {
      LengthMonotone(0, k);
    }
  }

  /** Distances grow with the symbol, and with the extra bits of one symbol. */
  lemma DistanceOrder(t: Token, u: Token)
    requires IsCopy(t) && IsCopy(u)
    ensures t.Distance() < u.Distance() <==>
      t.distSymbol < u.distSymbol || (t.distSymbol == u.distSymbol && t.distExtra < u.distExtra)
  {
    if t.distSymbol < u.distSymbol {
      DistMonotone(t.distSymbol, u.distSymbol);
    } else if u.distSymbol < t.distSymbol {
      DistMonotone(u.distSymbol, t.distSymbol);
    }
  }

  /** Lengths grow in the same way, except that 258 is also the last length of symbol 284. */
  lemma LengthOrder(t: Token, u: Token)
    requires IsCopy(t) && IsCopy(u)
    requires t.lengthSymbol < u.lengthSymbol || (t.lengthSymbol == u.lengthSymbol && t.lengthExtra < u.lengthExtra)
    ensures t.Length() < u.Length() || (t.Length() == u.Length() == 258 && u.lengthSymbol == 285)
  {
    if u.lengthSymbol == 285 {
      LengthInRange(t);
      LastLength(u);
    } else if t.lengthSymbol < u.lengthSymbol {
      var j, k := t.lengthSymbol - 257, u.lengthSymbol - 257;
      SpanOf(t, j);
      SpanOf(u, k);
      LowerSpan(t.Length(), u.Length(), j, k);
    } else {
      SameSymbol(t, u);
    }
  }

  ghost predicate InSpan(n: nat, k: nat) {
    k < 28 && LENGTH_BASE[k] <= n < LENGTH_BASE[k] + Pow2(LENGTH_EXTRA[k])
  }

  lemma SpanOf(t: Token, k: nat)
    requires IsCopy(t) && t.lengthSymbol == 257 + k && k < 28
    ensures InSpan(t.Length(), k)
  {
  }

  lemma LowerSpan(n: nat, m: nat, j: nat, k: nat)
    requires InSpan(n, j) && InSpan(m, k) && j < k
    ensures n < m
  {
    LengthMonotone(j, k);
  }

  lemma SameSymbol(t: Token, u: Token)
    requires IsCopy(t) && IsCopy(u) && t.lengthSymbol == u.lengthSymbol && t.lengthExtra < u.lengthExtra
    ensures t.Length() < u.Length()
  {
  }

  lemma LastLength(u: Token)
    requires IsCopy(u) && u.lengthSymbol == 285
    ensures u.Length() == 258 && u.lengthExtra == 0
  {
    TableEnds();
  }
}
