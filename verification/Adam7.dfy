/** Adam7 de-interlacing (section 8.2 of the PNG specification): seven reduced images
    are scattered into one.  A pixel is an element of type T. */
module Adam7 {
  import opened Bits

  const XORIG: seq<nat> := [0, 4, 0, 2, 0, 1, 0]
  const YORIG: seq<nat> := [0, 0, 4, 0, 2, 0, 1]
  const XSPC: seq<nat> := [8, 8, 4, 4, 2, 2, 1]
  const YSPC: seq<nat> := [8, 8, 8, 4, 4, 2, 2]

  /** Size of a reduced image along one axis. */
  function Reduced(size: nat, orig: nat, spc: nat): (n: nat)
    requires orig < spc
  {
    (size - orig + spc - 1) / spc
  }

  lemma Spacing(p: nat)
    requires p < 7
    ensures XORIG[p] < XSPC[p] && YORIG[p] < YSPC[p]
  {
  }

  function PassWidth(p: nat, w: nat): nat
    requires p < 7
  {
    Spacing(p);
    Reduced(w, XORIG[p], XSPC[p])
  }

  function PassHeight(p: nat, h: nat): nat
    requires p < 7
  {
    Spacing(p);
    Reduced(h, YORIG[p], YSPC[p])
  }

  /** The pattern printed in the specification, passes numbered from 0. */
  const PATTERN: seq<seq<nat>> := [
    [0, 5, 3, 5, 1, 5, 3, 5],
    [6, 6, 6, 6, 6, 6, 6, 6],
    [4, 5, 4, 5, 4, 5, 4, 5],
    [6, 6, 6, 6, 6, 6, 6, 6],
    [2, 5, 3, 5, 2, 5, 3, 5],
    [6, 6, 6, 6, 6, 6, 6, 6],
    [4, 5, 4, 5, 4, 5, 4, 5],
    [6, 6, 6, 6, 6, 6, 6, 6]]

  function Pattern(r: nat, c: nat): (p: nat)
    ensures p < 7
  {
    PATTERN[r % 8][c % 8]
  }

  /** Pixel (j, i) of pass p belongs at row r and column c. */
  predicate Lands(p: nat, j: nat, i: nat, r: nat, c: nat)
    requires p < 7
  {
    r == j * YSPC[p] + YORIG[p] && c == i * XSPC[p] + XORIG[p]
  }

  /** A pixel lands where the pattern names its pass, and nowhere else. */
  lemma LandsInPattern(p: nat, j: nat, i: nat, r: nat, c: nat)
    requires p < 7 && Lands(p, j, i, r, c)
    ensures Pattern(r, c) == p
    ensures j == r / YSPC[p] && i == c / XSPC[p]
  {
    if p == 0 {
    } else if p == 1 {
    } else if p == 2 {
    } else if p == 3 {
    } else if p == 4 {
    } else if p == 5 {
    }
  }

  lemma PatternResidue(a: nat, b: nat)
    requires a < 8 && b < 8
    ensures var p := PATTERN[a][b]; a % YSPC[p] == YORIG[p] && b % XSPC[p] == XORIG[p]
  {
    if a == 0 {
    } else if a == 2 {
    } else if a == 4 {
    } else if a == 6 {
    } else {
    }
  }

  lemma Euclid(r: nat, k: nat)
    requires k >= 1
    ensures r == r / k * k + r % k
  {
  }

  lemma Residue8(r: nat, k: nat)
    requires k == 1 || k == 2 || k == 4 || k == 8
    ensures r % 8 % k == r % k
  {
    if k == 2 {
      assert r % 8 % 2 == r % 2;
    } else if k == 4 {
      assert r % 8 % 4 == r % 4;
    }
  }

  /** The pattern leaves no pixel out. */
  lemma PatternLands(r: nat, c: nat)
    ensures var p := Pattern(r, c); Lands(p, r / YSPC[p], c / XSPC[p], r, c)
  {
    var p := Pattern(r, c);
    PatternResidue(r % 8, c % 8);
    Residue8(r, YSPC[p]);
    Residue8(c, XSPC[p]);
    Euclid(r, YSPC[p]);
    Euclid(c, XSPC[p]);
  }

  /** A reduced image has exactly the rows and columns that land inside the image. */
  lemma LandsInside(p: nat, j: nat, i: nat, r: nat, c: nat, w: nat, h: nat)
    requires p < 7 && Lands(p, j, i, r, c)
    ensures j < PassHeight(p, h) <==> r < h
    ensures i < PassWidth(p, w) <==> c < w
  {
    if p == 0 {
    } else if p == 1 {
    } else if p == 2 {
    } else if p == 3 {
    } else if p == 4 {
    } else if p == 5 {
    }
  }

  /** The seven passes partition the image: each pixel is the landing place of exactly
      one pixel of one reduced image, the one the pattern names. */
  lemma Partition(r: nat, c: nat, w: nat, h: nat)
    requires r < h && c < w
    ensures exists p: nat, j: nat, i: nat ::
      p < 7 && j < PassHeight(p, h) && i < PassWidth(p, w) && Lands(p, j, i, r, c)
    ensures forall p: nat, j: nat, i: nat, q: nat, k: nat, l: nat ::
              p < 7 && q < 7 && Lands(p, j, i, r, c) && Lands(q, k, l, r, c) ==> p == q && j == k && i == l
  {
    var p := Pattern(r, c);
    PatternLands(r, c);
    LandsInside(p, r / YSPC[p], c / XSPC[p], r, c, w, h);
    forall q: nat, k: nat, l: nat | q < 7 && Lands(q, k, l, r, c)
      ensures q == p && k == r / YSPC[p] && l == c / XSPC[p]
    {
      LandsInPattern(q, k, l, r, c);
    }
  }

  // ----- row-major images ----------------------------------------------------

  function At(r: nat, c: nat, w: nat): nat {
    r * w + c
  }

  lemma AtInRange(r: nat, c: nat, w: nat, h: nat)
    requires r < h && c < w
    ensures At(r, c, w) < h * w
  {
    assert (h - 1 - r) * w >= 0;
  }

  lemma AtInjective(r: nat, c: nat, r': nat, c': nat, w: nat)
    requires c < w && c' < w && At(r, c, w) == At(r', c', w)
    ensures r == r' && c == c'
  {
    DivModUnique(At(r, c, w), w, r, c);
    DivModUnique(At(r, c, w), w, r', c');
  }

  /** The reduced images, row by row. */
  predicate Passes<T>(src: seq<seq<T>>, w: nat, h: nat) {
    |src| == 7 && forall p :: 0 <= p < 7 ==> |src[p]| == PassHeight(p, h) * PassWidth(p, w)
  }

  /** The pixel that belongs at row r and column c. */
  function Source<T>(src: seq<seq<T>>, w: nat, h: nat, r: nat, c: nat): T
    requires Passes(src, w, h) && r < h && c < w
  {
    var p := Pattern(r, c);
    PatternLands(r, c);
    LandsInside(p, r / YSPC[p], c / XSPC[p], r, c, w, h);
    AtInRange(r / YSPC[p], c / XSPC[p], PassWidth(p, w), PassHeight(p, h));
    src[p][At(r / YSPC[p], c / XSPC[p], PassWidth(p, w))]
  }

  /** Pixel (r, c) comes before pixel (j, i) of pass p in the order of the loops. */
  predicate Earlier(r: nat, c: nat, p: nat, j: nat, i: nat) {
    var q := Pattern(r, c);
    q < p || (q == p && (r / YSPC[q] < j || (r / YSPC[q] == j && c / XSPC[q] < i)))
  }

  /** State of the loops before pixel (j, i) of pass p: what was earlier is in place and
      was written once, nothing else was written. */
  ghost predicate Scattered<T>(final: seq<T>, writes: seq<nat>, src: seq<seq<T>>, w: nat, h: nat, p: nat, j: nat,
                               i: nat)
    requires Passes(src, w, h)
  {
    && |final| == |writes| == h * w
    && forall r, c :: 0 <= r < h && 0 <= c < w ==> PixelOk(final, writes, src, w, h, p, j, i, r, c)
  }

  ghost predicate PixelOk<T>(final: seq<T>, writes: seq<nat>, src: seq<seq<T>>, w: nat, h: nat, p: nat, j: nat, i: nat,
                             r: nat, c: nat)
    requires Passes(src, w, h) && |final| == |writes| == h * w && r < h && c < w
  {
    AtInRange(r, c, w, h);
    if Earlier(r, c, p, j, i) then
      writes[At(r, c, w)] == 1 && final[At(r, c, w)] == Source(src, w, h, r, c)
    else
      writes[At(r, c, w)] == 0
  }

  lemma ScatterOne<T>(final: seq<T>, writes: seq<nat>, src: seq<seq<T>>, w: nat, h: nat, p: nat, j: nat, i: nat)
    requires Passes(src, w, h) && p < 7 && j < PassHeight(p, h) && i < PassWidth(p, w)
    requires Scattered(final, writes, src, w, h, p, j, i)
    ensures var r, c := j * YSPC[p] + YORIG[p], i * XSPC[p] + XORIG[p];
      && r < h && c < w && At(r, c, w) < h * w && At(j, i, PassWidth(p, w)) < |src[p]|
      && Scattered(final[At(r, c, w) := src[p][At(j, i, PassWidth(p, w))]],
                   writes[At(r, c, w) := writes[At(r, c, w)] + 1], src, w, h, p, j, i + 1)
  {
    var r, c := j * YSPC[p] + YORIG[p], i * XSPC[p] + XORIG[p];
    LandsInPattern(p, j, i, r, c);
    LandsInside(p, j, i, r, c, w, h);
    AtInRange(r, c, w, h);
    AtInRange(j, i, PassWidth(p, w), PassHeight(p, h));
    assert PixelOk(final, writes, src, w, h, p, j, i, r, c);
    var final' := final[At(r, c, w) := src[p][At(j, i, PassWidth(p, w))]];
    var writes' := writes[At(r, c, w) := writes[At(r, c, w)] + 1];
    var next := i + 1;
    forall r', c' | 0 <= r' < h && 0 <= c' < w
      ensures PixelOk(final', writes', src, w, h, p, j, next, r', c')
    {
      ScatterOther(final, writes, src, w, h, p, j, i, r, c, r', c');
    }
  }

  lemma ScatterOther<T>(final: seq<T>, writes: seq<nat>, src: seq<seq<T>>, w: nat, h: nat, p: nat, j: nat, i: nat,
                        r: nat, c: nat, r': nat, c': nat)
    requires Passes(src, w, h) && p < 7 && j < PassHeight(p, h) && i < PassWidth(p, w)
    requires Scattered(final, writes, src, w, h, p, j, i)
    requires Lands(p, j, i, r, c) && r < h && c < w && r' < h && c' < w
    requires At(r, c, w) < h * w && At(j, i, PassWidth(p, w)) < |src[p]|
    ensures PixelOk(final[At(r, c, w) := src[p][At(j, i, PassWidth(p, w))]],
                    writes[At(r, c, w) := writes[At(r, c, w)] + 1], src, w, h, p, j, i + 1, r', c')
  {
    AtInRange(r', c', w, h);
    LandsInPattern(p, j, i, r, c);
    assert PixelOk(final, writes, src, w, h, p, j, i, r', c');
    if r == r' && c == c' {
    } else {
      if At(r, c, w) == At(r', c', w) {
        AtInjective(r, c, r', c', w);
      }
      if Pattern(r', c') == p && r' / YSPC[p] == j && c' / XSPC[p] == i {
        PatternLands(r', c');
      }
    }
  }

  /** A finished row of a pass is the start of the next row; a finished pass, or one
      without pixels, is the start of the next pass. */
  lemma RowDone<T>(final: seq<T>, writes: seq<nat>, src: seq<seq<T>>, w: nat, h: nat, p: nat, j: nat)
    requires Passes(src, w, h) && p < 7 && Scattered(final, writes, src, w, h, p, j, PassWidth(p, w))
    ensures Scattered(final, writes, src, w, h, p, j + 1, 0)
  {
    var next := j + 1;
    forall r, c | 0 <= r < h && 0 <= c < w
      ensures PixelOk(final, writes, src, w, h, p, next, 0, r, c)
    {
      assert PixelOk(final, writes, src, w, h, p, j, PassWidth(p, w), r, c);
      PatternLands(r, c);
      LandsInside(Pattern(r, c), r / YSPC[Pattern(r, c)], c / XSPC[Pattern(r, c)], r, c, w, h);
    }
  }

  lemma PassDone<T>(final: seq<T>, writes: seq<nat>, src: seq<seq<T>>, w: nat, h: nat, p: nat, j: nat)
    requires Passes(src, w, h) && p < 7 && Scattered(final, writes, src, w, h, p, j, 0)
    requires j == PassHeight(p, h) || (j == 0 && (PassWidth(p, w) == 0 || PassHeight(p, h) == 0))
    ensures Scattered(final, writes, src, w, h, p + 1, 0, 0)
  {
    var next := p + 1;
    forall r, c | 0 <= r < h && 0 <= c < w
      ensures PixelOk(final, writes, src, w, h, next, 0, 0, r, c)
    {
      assert PixelOk(final, writes, src, w, h, p, j, 0, r, c);
      PatternLands(r, c);
      LandsInside(Pattern(r, c), r / YSPC[Pattern(r, c)], c / XSPC[Pattern(r, c)], r, c, w, h);
    }
  }

  // ----- the loops -----------------------------------------------------------

  /** The two loops over the pixels of one pass. */
  method ScatterPass<T>(final: array<T>, ghost writes0: seq<nat>, src: seq<seq<T>>, w: nat, h: nat, p: nat, x: nat,
                        y: nat)
    returns (ghost writes: seq<nat>)
    requires Passes(src, w, h) && p < 7 && x == PassWidth(p, w) && y == PassHeight(p, h)
    requires Scattered(final[..], writes0, src, w, h, p, 0, 0)
    modifies final
    ensures Scattered(final[..], writes, src, w, h, p, y, 0)
  {
    writes := writes0;
    for j := 0 to y
      invariant Scattered(final[..], writes, src, w, h, p, j, 0)
    {
      for i := 0 to x
        invariant Scattered(final[..], writes, src, w, h, p, j, i)
      {
        ScatterOne(final[..], writes, src, w, h, p, j, i);
        var outY := j * YSPC[p] + YORIG[p];
        var outX := i * XSPC[p] + XORIG[p];
        ghost var next := final[..][At(outY, outX, w) := src[p][At(j, i, x)]];
        final[At(outY, outX, w)] := src[p][At(j, i, x)];
        writes := writes[At(outY, outX, w) := writes[At(outY, outX, w)] + 1];
        assert final[..] == next;
      }
      RowDone(final[..], writes, src, w, h, p, j);
    }
  }

  /** The de-interlacing loop of stbi__create_png_image: every pixel of the image is
      written exactly once, with the pixel of the pass the pattern names. */
  method Deinterlace<T>(final: array<T>, src: seq<seq<T>>, w: nat, h: nat) returns (ghost writes: seq<nat>)
    requires Passes(src, w, h) && final.Length == h * w
    modifies final
    ensures |writes| == h * w
    ensures forall r, c :: 0 <= r < h && 0 <= c < w ==>
      && At(r, c, w) < h * w && writes[At(r, c, w)] == 1
      && final[At(r, c, w)] == Source(src, w, h, r, c)
  {
    writes := seq(h * w, k => 0);
    Untouched(final[..], writes, src, w, h);
    for p := 0 to 7
      invariant Scattered(final[..], writes, src, w, h, p, 0, 0)
    {
      var x := PassWidth(p, w);
      var y := PassHeight(p, h);
      ghost var j := 0;
      if x != 0 && y != 0 {
        writes := ScatterPass(final, writes, src, w, h, p, x, y);
        j := y;
      }
      PassDone(final[..], writes, src, w, h, p, j);
    }
    forall r, c | 0 <= r < h && 0 <= c < w
      ensures At(r, c, w) < h * w && writes[At(r, c, w)] == 1 && final[At(r, c, w)] == Source(src, w, h, r, c)
    {
      assert PixelOk(final[..], writes, src, w, h, 7, 0, 0, r, c);
      AtInRange(r, c, w, h);
    }
  }

  lemma Untouched<T>(final: seq<T>, writes: seq<nat>, src: seq<seq<T>>, w: nat, h: nat)
    requires Passes(src, w, h) && |final| == |writes| == h * w
    requires forall k :: 0 <= k < |writes| ==> writes[k] == 0
    ensures Scattered(final, writes, src, w, h, 0, 0, 0)
  {
    forall r, c | 0 <= r < h && 0 <= c < w
      ensures PixelOk(final, writes, src, w, h, 0, 0, 0, r, c)
    {
      AtInRange(r, c, w, h);
    }
  }
}
