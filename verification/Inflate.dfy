/** The inflater's state (stbi__zbuf) and the decoding of one Huffman-coded block. */
module Inflate {
  import opened Prelude
  import opened Bits
  import opened CanonicalCode
  import opened HuffmanTable
  import opened BitStream
  import opened Lz77
  import opened BitMeter

  const UINT_MAX := 0xFFFF_FFFF

  // ----- output buffer growth ------------------------------------------------

  /** The capacity reached by doubling until need bytes fit; 0 if that would exceed
      an unsigned int. */
  function Grown(capacity: nat, need: nat): (c: nat)
    requires 1 <= capacity <= UINT_MAX
    ensures c == 0 || (c >= need && c >= capacity && c <= UINT_MAX)
    decreases need - capacity
  {
    if need <= capacity then capacity
    else if capacity > UINT_MAX / 2 then 0
    else Grown(capacity * 2, need)
  }

  /** The allocator grants at most maxAlloc bytes. */
  predicate Fits(capacity: nat, expandable: bool, maxAlloc: nat, need: nat)
    requires 1 <= capacity <= UINT_MAX
  {
    need <= capacity || (expandable && need <= UINT_MAX && 0 < Grown(capacity, need) <= maxAlloc)
  }

  lemma {:induction false} GrownTwice(capacity: nat, n: nat, m: nat)
    requires 1 <= capacity <= UINT_MAX && n <= m && Grown(capacity, n) != 0
    ensures Grown(Grown(capacity, n), m) == Grown(capacity, m)
    decreases n - capacity
  {
    if n > capacity {
      GrownTwice(capacity * 2, n, m);
    }
  }

  lemma {:induction false} GrownMono(capacity: nat, n: nat, m: nat)
    requires 1 <= capacity <= UINT_MAX && n <= m && Grown(capacity, m) != 0
    ensures 0 != Grown(capacity, n) <= Grown(capacity, m)
    decreases m - capacity
  {
    if n > capacity {
      GrownMono(capacity * 2, n, m);
    }
  }

  /** What fits does not depend on how far the buffer has grown already.  It does depend on the
      size it started with, see SizeMatters and AnySizeFits. */
  lemma GrowthKeepsFits(capacity: nat, expandable: bool, maxAlloc: nat, n: nat, m: nat)
    requires 1 <= capacity <= UINT_MAX && Fits(capacity, expandable, maxAlloc, n) && n > capacity
    ensures Fits(Grown(capacity, n), expandable, maxAlloc, m) <==> Fits(capacity, expandable, maxAlloc, m)
  {
    if n <= m {
      GrownTwice(capacity, n, m);
    } else {
      GrownMono(capacity, m, n);
    }
  }

  lemma FitsMono(capacity: nat, expandable: bool, maxAlloc: nat, n: nat, m: nat)
    requires 1 <= capacity <= UINT_MAX && n <= m && Fits(capacity, expandable, maxAlloc, m)
    ensures Fits(capacity, expandable, maxAlloc, n)
  {
    if n > capacity {
      GrownMono(capacity, n, m);
    }
  }

  lemma {:induction false} GrownBound(capacity: nat, need: nat)
    requires 1 <= capacity < need <= 0x8000_0000
    ensures 0 < Grown(capacity, need) <= 2 * need - 2
    decreases need - capacity
  {
    if capacity * 2 < need {
      GrownBound(capacity * 2, need);
    }
  }

  /** Where the allocator has a limit, a larger buffer can reach a size that a smaller one misses. */
  lemma SizeMatters()
    ensures !Fits(1, true, 6, 5) && Fits(3, true, 6, 5)
  {
    assert Grown(1, 5) == Grown(2, 5) == Grown(4, 5) == 8;
    assert Grown(3, 5) == 6;
  }

  /** A growing buffer can hold need bytes whatever size it starts with, exactly if need is at most
      2^31 and the allocator grants what doubling from need - 1 asks for. */
  lemma AnySizeFits(maxAlloc: nat, need: nat)
    ensures (forall c: nat :: 1 <= c <= UINT_MAX ==> Fits(c, true, maxAlloc, need)) <==>
              need <= 0x8000_0000 && (need <= 1 || 2 * need - 2 <= maxAlloc)
  {
    if need > 0x8000_0000 {
      assert !Fits(0x8000_0000, true, maxAlloc, need);
    } else if need >= 2 && 2 * need - 2 > maxAlloc {
      assert Grown(need - 1, need) == 2 * need - 2;
      assert !Fits(need - 1, true, maxAlloc, need);
    } else {
      forall c: nat | 1 <= c <= UINT_MAX
        ensures Fits(c, true, maxAlloc, need)
      {
        if c < need {
          GrownBound(c, need);
        }
      }
    }
  }

  // ----- state ---------------------------------------------------------------

  datatype Status = Running | Finished | Failed

  datatype Next = NextToken(token: Token) | NextEnd | NextBad

  class ZBuf {
    const input: seq<byte>
    const expandable: bool
    const maxAlloc: nat

    var pos: nat
    var numBits: nat
    var codeBuffer: nat
    var hitZeofOnce: bool
    /** Padding bits put into the buffer after the end of the input. */
    ghost var pad: nat

    var zout: array<byte>
    var cur: nat

    /** The counters, without the bits. */
    ghost function Gauge(): Meter
      reads this
      requires pos <= |input|
    {
      Meter(|input| - pos, numBits, pad, hitZeofOnce)
    }

    ghost predicate ValidBits()
      reads this
    {
      pos <= |input| && codeBuffer < Pow2(numBits) && Gauge().Valid()
    }

    ghost predicate ValidOut()
      reads this
    {
      cur <= zout.Length && 1 <= zout.Length <= UINT_MAX
    }

    /** The bits still to be read. */
    ghost function Stream(): nat
      reads this
      requires pos <= |input|
    {
      Remaining(codeBuffer, numBits, input[pos..])
    }

    /** How many of them come from the input; negative once padding was consumed. */
    ghost function Left(): int
      reads this
      requires pos <= |input|
    {
      Gauge().Left()
    }

    ghost function Output(): (s: seq<byte>)
      reads this, zout
      requires cur <= zout.Length
      ensures |s| == cur
    {
      zout[..cur]
    }

    ghost predicate CanHold(n: nat)
      reads this
      requires ValidOut()
    {
      Fits(zout.Length, expandable, maxAlloc, n)
    }

    constructor (input: seq<byte>, buffer: array<byte>, expandable: bool, maxAlloc: nat)
      requires 1 <= buffer.Length <= UINT_MAX
      ensures ValidBits() && ValidOut()
      ensures Stream() == LittleEndian(input) && Gauge() == Meter(|input|, 0, 0, false)
      ensures this.input == input && zout == buffer && Output() == []
      ensures this.expandable == expandable && this.maxAlloc == maxAlloc
    {
      this.input, this.expandable, this.maxAlloc := input, expandable, maxAlloc;
      pos, numBits, codeBuffer, hitZeofOnce, pad := 0, 0, 0, false, 0;
      zout, cur := buffer, 0;
      new;
      assert input[0..] == input;
      assert Pow2(0) == 1;
    }

    // ----- bits --------------------------------------------------------------

    /** One round of stbi__fill_bits, with stbi__zget8. */
    method RefillByte()
      requires ValidBits() && numBits <= 24
      modifies `pos, `numBits, `codeBuffer, `pad
      ensures ValidBits() && Stream() == old(Stream()) && Gauge() == old(Gauge()).OneByte()
    {
      RefillKeepsStream(codeBuffer, numBits, input[pos..]);
      var b: byte := 0;
      if pos < |input| {
        assert input[pos..][1..] == input[pos + 1..];
        b := input[pos];
        pos := pos + 1;
      } else {
        pad := pad + 8;
      }
      codeBuffer := Refilled(codeBuffer, numBits, b);
      numBits := numBits + 8;
    }

    /** stbi__fill_bits: the buffer never holds a bit above num_bits, so the guard that
        would give up never fires, and refilling does not change what is read. */
    method FillBits()
      requires ValidBits() && numBits <= 24
      modifies `pos, `numBits, `codeBuffer, `pad
      ensures ValidBits() && numBits > 24
      ensures Stream() == old(Stream()) && Gauge() == old(Gauge()).Filled()
    {
      while true
        invariant ValidBits() && numBits <= 24
        invariant Stream() == old(Stream()) && Gauge().Filled() == old(Gauge()).Filled()
        decreases 32 - numBits
      {
        if codeBuffer >= Pow2(numBits) {
          assert false;
        }
        RefillByte();
        if numBits > 24 {
          return;
        }
      }
    }

    /** stbi__zreceive: the next n bits as a number, least significant first. */
    method Receive(n: nat) returns (k: nat)
      requires ValidBits() && n <= 16
      modifies `pos, `numBits, `codeBuffer, `pad
      ensures ValidBits()
      ensures k == Low(old(Stream()), n)
      ensures Stream() == Shr(old(Stream()), n) && Gauge() == old(Gauge()).Received(n)
    {
      if numBits < n {
        FillBits();
      }
      TakeBits(codeBuffer, numBits, input[pos..], n);
      k := Low(codeBuffer, n);
      codeBuffer := Shr(codeBuffer, n);
      numBits := numBits - n;
    }

    /** Drop s bits the caller has looked at. */
    method Skip(s: nat)
      requires ValidBits() && s <= numBits
      modifies `numBits, `codeBuffer
      ensures ValidBits()
      ensures Stream() == Shr(old(Stream()), s) && Gauge() == old(Gauge()).Minus(s)
    {
      TakeBits(codeBuffer, numBits, input[pos..], s);
      codeBuffer := Shr(codeBuffer, s);
      numBits := numBits - s;
    }

    /** Sixteen zero bits after the end of the input. */
    method PadBits()
      requires ValidBits() && numBits < 16 && pos == |input|
      modifies `numBits, `pad, `hitZeofOnce
      ensures ValidBits() && Stream() == old(Stream())
      ensures Gauge() == Meter(0, old(numBits) + 16, old(pad) + 16, true)
    {
      assert input[pos..] == [];
      PadKeepsStream(codeBuffer, numBits, 16);
      hitZeofOnce := true;
      pad := pad + 16;
      numBits := numBits + 16;
    }

    /** The first lines of stbi__zhuffman_decode: at least sixteen bits, zeros after the
        end of the input, and failure once sixteen extra bits were used up. */
    method EnsureBits() returns (ok: bool)
      requires ValidBits()
      modifies `pos, `numBits, `codeBuffer, `pad, `hitZeofOnce
      ensures ValidBits() && Stream() == old(Stream()) && Left() == old(Left())
      ensures !ok <==> old(numBits < 16 && pos >= |input| && hitZeofOnce)
      ensures ok ==> numBits >= 16 && old(Gauge()).Peeked() == Some(Gauge())
    {
      ok := true;
      if numBits < 16 {
        if pos >= |input| {
          if !hitZeofOnce {
            PadBits();
          } else {
            ok := false;
          }
        } else {
          FillBits();
        }
      }
    }

    /** stbi__zhuffman_decode: the symbol whose code starts the stream, or -1 exactly
        when no code does or the padding is used up. */
    method HuffmanDecode(z: ZHuffman, ghost lens: seq<nat>) returns (sym: int)
      requires ValidBits() && z.Represents(lens)
      modifies `pos, `numBits, `codeBuffer, `pad, `hitZeofOnce
      ensures ValidBits()
      ensures sym >= 0 ==> Matches(lens, sym, old(Stream()))
      ensures sym >= 0 ==>
        Stream() == Shr(old(Stream()), lens[sym]) && old(Gauge()).Coded(lens[sym]) == Some(Gauge())
      ensures sym < 0 ==>
        sym == -1 && (NoCode(lens, old(Stream())) || old(numBits < 16 && pos >= |input| && hitZeofOnce))
    {
      var ok := EnsureBits();
      if !ok {
        return -1;
      }
      MatchesFromBuffer(lens, codeBuffer, numBits, input[pos..]);
      FastLookup(lens, z.fast[..], codeBuffer);
      var b := z.fast[codeBuffer % FAST_SIZE];
      var s;
      if b != 0 {
        s, sym := b / 512, b % 512;
      } else {
        sym, s := DecodeSlow(z, codeBuffer, lens);
      }
      if sym >= 0 {
        Skip(s);
      }
    }

    // ----- output ------------------------------------------------------------

    /** stbi__zexpand: room for n more bytes, by doubling. */
    method ZExpand(n: nat) returns (ok: bool)
      requires ValidOut() && cur + n > zout.Length
      modifies `zout
      ensures ValidOut() && Output() == old(Output())
      ensures ok <==> old(CanHold(cur + n))
      ensures ok ==> fresh(zout) && zout.Length >= cur + n
      ensures !ok ==> zout == old(zout)
      ensures forall m: nat :: CanHold(m) <==> old(CanHold(m))
    {
      if !expandable {
        return false;
      }
      if UINT_MAX - cur < n {
        return false;
      }
      var limit := zout.Length;
      while cur + n > limit
        invariant 1 <= limit <= UINT_MAX
        invariant Grown(limit, cur + n) == Grown(zout.Length, cur + n)
        decreases cur + n - limit
      {
        if limit > UINT_MAX / 2 {
          return false;
        }
        limit := limit * 2;
      }
      if limit > maxAlloc {
        return false;
      }
      forall m: nat
        ensures Fits(limit, expandable, maxAlloc, m) <==> Fits(zout.Length, expandable, maxAlloc, m)
      {
        GrowthKeepsFits(zout.Length, expandable, maxAlloc, cur + n, m);
      }
      var q := new byte[limit];
      for k := 0 to cur
        invariant zout == old(zout) && fresh(q)
        invariant forall j :: 0 <= j < k ==> q[j] == old(zout)[j]
      {
        q[k] := zout[k];
      }
      zout := q;
      ok := true;
    }

    method PutLiteral(b: byte) returns (ok: bool)
      requires ValidOut()
      modifies `zout, `cur, zout
      ensures ValidOut() && (zout == old(zout) || fresh(zout))
      ensures ok <==> old(CanHold(cur + 1))
      ensures ok ==> Output() == old(Output()) + [b]
      ensures forall m: nat :: CanHold(m) <==> old(CanHold(m))
    {
      if cur >= zout.Length {
        ok := ZExpand(1);
        if !ok {
          return;
        }
      }
      ghost var before := Output();
      zout[cur] := b;
      cur := cur + 1;
      assert Output() == before + [b];
      ok := true;
    }

    /** The copy at the end of the loop of stbi__parse_huffman_block.  Every byte read
        was produced before, and the run-length form for distance one is not special. */
    method PutCopy(len: nat, dist: nat) returns (ok: bool)
      requires ValidOut() && 1 <= dist <= cur
      modifies `zout, `cur, zout
      ensures ValidOut() && (zout == old(zout) || fresh(zout))
      ensures ok <==> old(CanHold(cur + len))
      ensures ok ==> Output() == CopyBytes(old(Output()), len, dist)
      ensures forall m: nat :: CanHold(m) <==> old(CanHold(m))
    {
      if len > zout.Length - cur {
        ok := ZExpand(len);
        if !ok {
          return;
        }
      }
      if dist == 1 {
        FillRun(len);
      } else {
        CopyRun(len, dist);
      }
      ok := true;
    }

    method FillRun(len: nat)
      requires ValidOut() && 1 <= cur && cur + len <= zout.Length
      modifies `cur, zout
      ensures ValidOut() && Output() == CopyBytes(old(Output()), len, 1)
    {
      var v := zout[cur - 1];
      ghost var out0 := Output();
      for k := 0 to len
        invariant cur == old(cur) + k && ValidOut()
        invariant Output() == CopyBytes(out0, k, 1) && zout[cur - 1] == v
      {
        ghost var before := Output();
        zout[cur] := v;
        cur := cur + 1;
        assert Output() == before + [v];
      }
    }

    method CopyRun(len: nat, dist: nat)
      requires ValidOut() && 1 <= dist <= cur && cur + len <= zout.Length
      modifies `cur, zout
      ensures ValidOut() && Output() == CopyBytes(old(Output()), len, dist)
    {
      var p := cur - dist;
      ghost var out0 := Output();
      for k := 0 to len
        invariant cur == old(cur) + k && p == cur - dist && ValidOut()
        invariant Output() == CopyBytes(out0, k, dist)
      {
        ghost var before := Output();
        zout[cur] := zout[p];
        cur := cur + 1;
        p := p + 1;
        assert Output() == before + [before[|before| - dist]];
      }
    }

    // ----- one block ---------------------------------------------------------

    /** Decodes one token: the part of the loop of stbi__parse_huffman_block that reads
        bits.  It gives up only where the stream holds no further token, or the counters
        do not let it be read. */
    method ReadToken(zl: ZHuffman, zd: ZHuffman, ghost ll: seq<nat>, ghost dl: seq<nat>) returns (next: Next)
      requires ValidBits() && zl.Represents(ll) && zd.Represents(dl)
      modifies `pos, `numBits, `codeBuffer, `pad, `hitZeofOnce
      ensures ValidBits()
      ensures ReadDone(ll, dl, old(Stream()), old(Gauge()), next, Stream(), Gauge())
    {
      ghost var w, m := Stream(), Gauge();
      var z := HuffmanDecode(zl, ll);
      if z < 0 {
        NoLead(ll, dl, w, m);
        return NextBad;
      }
      if z < 256 {
        return NextToken(Literal(z));
      }
      if z == 256 {
        return NextEnd;
      }
      if z >= 286 {
        WrongLead(ll, dl, w, m, z);
        return NextBad;
      }
      next := ReadCopy(zd, ll, dl, z, w, m);
    }

    /** The rest of a copy, after its length symbol z was read when w and m were left. */
    method ReadCopy(zd: ZHuffman, ghost ll: seq<nat>, ghost dl: seq<nat>, z: nat, ghost w: nat, ghost m: Meter)
      returns (next: Next)
      requires ValidBits() && zd.Represents(dl) && 257 <= z < 286 && Matches(ll, z, w)
      requires Stream() == Shr(w, ll[z]) && m.Coded(ll[z]) == Some(Gauge())
      modifies `pos, `numBits, `codeBuffer, `pad, `hitZeofOnce
      ensures ValidBits()
      ensures ReadDone(ll, dl, w, m, next, Stream(), Gauge())
    {
      ExtraSmall(z);
      var le := ReceiveExtra(LENGTH_EXTRA[z - 257]);
      ghost var w', m' := Stream(), Gauge();
      var d := HuffmanDecode(zd, dl);
      if d < 0 || d >= 30 {
        NoDistance(ll, dl, w, m, z, m', d);
        return NextBad;
      }
      ExtraSmall(d);
      var de := ReceiveExtra(DIST_EXTRA[d]);
      CopyRead(ll, dl, w, m, z, le, w', m', d, de, Stream(), Gauge());
      next := NextToken(Copy(z, le, d, de));
    }

    /** Extra bits are asked for only if there are any. */
    method ReceiveExtra(n: nat) returns (k: nat)
      requires ValidBits() && n <= 16
      modifies `pos, `numBits, `codeBuffer, `pad
      ensures ValidBits()
      ensures k == Low(old(Stream()), n)
      ensures Stream() == Shr(old(Stream()), n) && Gauge() == old(Gauge()).Received(n)
    {
      k := 0;
      if n != 0 {
        k := Receive(n);
      }
    }

    /** stbi__parse_huffman_block.  On success the tokens read are the one block the
        stream encodes, the output is the reference expansion of that block, whatever
        the size of the buffer, and the stream continues right after it.

        It succeeds exactly if the stream, continued with zeros, encodes a block that never
        copies from before the first byte, fits and passes the counters.  A block within the
        input always passes; a block that needs bits from behind the input passes only on
        zeros that stbi__fill_bits shifted in. */
    method ParseHuffmanBlock(zl: ZHuffman, zd: ZHuffman, ghost ll: seq<nat>, ghost dl: seq<nat>)
      returns (ok: bool, ghost tokens: seq<Token>)
      requires ValidBits() && ValidOut() && zl.Represents(ll) && zd.Represents(dl)
      requires zout !in zl.Arrays() && zout !in zd.Arrays()
      modifies this, zout
      ensures ValidBits() && ValidOut() && (zout == old(zout) || fresh(zout)) && Room(old(zout.Length))
      ensures ok ==> BlockDone(ll, dl, old(Stream()), old(Gauge()), old(Output()), tokens, Stream(), Gauge(), Output())
      ensures ok ==> Left() == old(Left()) - BlockBits(ll, dl, tokens)
      ensures ok <==>
        Acceptable(ll, dl, old(Stream()), old(Gauge()), old(Output()), old(zout.Length), expandable, maxAlloc)
      ensures ok && Left() >= 0 <==>
        AcceptableWithin(ll, dl, old(Stream()), old(Left()), old(Output()), old(zout.Length), expandable, maxAlloc)
      ensures ok && Left() < 0 ==> pos == |input| && pad > if hitZeofOnce then 16 else 0
    {
      ghost var w, m, out0, cap := Stream(), Gauge(), Output(), zout.Length;
      tokens := [];
      var status := Running;
      while status.Running?
        invariant ValidBits() && ValidOut() && (zout == old(zout) || fresh(zout))
        invariant zout !in zl.Arrays() && zout !in zd.Arrays()
        invariant StepDone(status, ll, dl, w, m, out0, tokens, cap)
        invariant Room(cap)
        decreases if status.Running? then UINT_MAX - cur + 1 else 0
      {
        status, tokens := BlockStep(zl, zd, ll, dl, w, m, out0, cap, tokens);
      }
      ok := status.Finished?;
      BlockOutcome(ll, dl, w, m, out0, cap, expandable, maxAlloc, ok, tokens, Stream(), Gauge(), Output());
    }

    /** What fits is what fitted a buffer of capacity cap, and the output does. */
    ghost predicate Room(cap: nat)
      reads this
      requires ValidOut() && 1 <= cap <= UINT_MAX
    {
      CanHold(cur) && forall m: nat :: CanHold(m) <==> Fits(cap, expandable, maxAlloc, m)
    }

    /** One round of the loop of stbi__parse_huffman_block. */
    method BlockStep(zl: ZHuffman, zd: ZHuffman, ghost ll: seq<nat>, ghost dl: seq<nat>, ghost w: nat,
                     ghost m: Meter, ghost out0: seq<byte>, ghost cap: nat, ghost tokens: seq<Token>)
      returns (status: Status, ghost tokens': seq<Token>)
      requires ValidBits() && ValidOut() && zl.Represents(ll) && zd.Represents(dl)
      requires zout !in zl.Arrays() && zout !in zd.Arrays()
      requires Progress(ll, dl, w, m, out0, tokens, Stream(), Gauge(), Output())
      requires 1 <= cap <= UINT_MAX && Room(cap)
      modifies this, zout
      ensures ValidBits() && ValidOut() && (zout == old(zout) || fresh(zout)) && Room(cap)
      ensures zout !in zl.Arrays() && zout !in zd.Arrays()
      ensures status.Running? ==> cur > old(cur)
      ensures StepDone(status, ll, dl, w, m, out0, tokens', cap)
    {
      ghost var w', m', out' := Stream(), Gauge(), Output();
      var next := ReadToken(zl, zd, ll, dl);
      status, tokens' :=
        HandleNext(next, ll, dl, w, m, out0, cap, tokens, w', m', out', zl.Arrays(), zd.Arrays());
    }

    /** The rest of the round: next was read when w' was left of the stream. */
    method HandleNext(next: Next, ghost ll: seq<nat>, ghost dl: seq<nat>, ghost w: nat, ghost m: Meter,
                      ghost out0: seq<byte>, ghost cap: nat, ghost tokens: seq<Token>, ghost w': nat,
                      ghost m': Meter, ghost out': seq<byte>, ghost tl: set<object>, ghost td: set<object>)
      returns (status: Status, ghost tokens': seq<Token>)
      requires ValidBits() && ValidOut() && Progress(ll, dl, w, m, out0, tokens, w', m', out')
      requires out' == Output() && 1 <= cap <= UINT_MAX && Room(cap)
      requires ReadDone(ll, dl, w', m', next, Stream(), Gauge())
      requires zout !in tl && zout !in td
      modifies `zout, `cur, zout
      ensures zout !in tl && zout !in td
      ensures ValidBits() && ValidOut() && (zout == old(zout) || fresh(zout)) && Room(cap)
      ensures status.Running? ==> cur > old(cur)
      ensures StepDone(status, ll, dl, w, m, out0, tokens', cap)
    {
      if next.NextToken? {
        ghost var w'', m'' := Stream(), Gauge();
        status := TokenStep(ll, dl, w, m, out0, cap, tokens, next.token, w', m', w'', m'');
        tokens' := tokens + [next.token];
        assert Stream() == w'' && Gauge() == m'';
      } else {
        status := StopStep(next.NextEnd?, ll, dl, w, m, out0, cap, tokens, w', m');
        tokens' := tokens;
      }
    }

    /** The round that ends the loop, at the end-of-block symbol or where no token is. */
    method StopStep(end: bool, ghost ll: seq<nat>, ghost dl: seq<nat>, ghost w: nat, ghost m: Meter,
                    ghost out0: seq<byte>, ghost cap: nat, ghost tokens: seq<Token>, ghost w': nat, ghost m': Meter)
      returns (status: Status)
      requires ValidBits() && ValidOut() && Progress(ll, dl, w, m, out0, tokens, w', m', Output())
      requires 1 <= cap <= UINT_MAX
      requires ReadDone(ll, dl, w', m', if end then NextEnd else NextBad, Stream(), Gauge())
      ensures !status.Running? && StepDone(status, ll, dl, w, m, out0, tokens, cap)
    {
      if !end {
        BadTokenNoBlock(ll, dl, w, m, out0, cap, expandable, maxAlloc, tokens, w', m', Output());
        return Failed;
      }
      if hitZeofOnce && numBits < 16 {
        EndsShort(ll, dl, w, m, out0, cap, expandable, maxAlloc, tokens, w', m', Output(), Stream(), Gauge());
        return Failed;
      }
      EndsBlock(ll, dl, w, m, out0, tokens, w', m', Output(), Stream(), Gauge());
      status := Finished;
    }

    ghost predicate StepDone(status: Status, ll: seq<nat>, dl: seq<nat>, w: nat, m: Meter, out0: seq<byte>,
                             tokens: seq<Token>, cap: nat)
      reads this, zout
      requires ValidBits() && ValidOut() && 1 <= cap <= UINT_MAX
    {
      match status
      case Running => Progress(ll, dl, w, m, out0, tokens, Stream(), Gauge(), Output())
      case Finished => BlockDone(ll, dl, w, m, out0, tokens, Stream(), Gauge(), Output())
      case Failed => !Acceptable(ll, dl, w, m, out0, cap, expandable, maxAlloc)
    }

    /** The part of the round that writes: t was read after tokens. */
    method TokenStep(ghost ll: seq<nat>, ghost dl: seq<nat>, ghost w: nat, ghost m: Meter, ghost out0: seq<byte>,
                     ghost cap: nat, ghost tokens: seq<Token>, t: Token, ghost w': nat, ghost m': Meter,
                     ghost w'': nat, ghost m'': Meter)
      returns (status: Status)
      requires ValidOut() && Progress(ll, dl, w, m, out0, tokens, w', m', Output())
      requires ReadDone(ll, dl, w', m', NextToken(t), w'', m'')
      requires 1 <= cap <= UINT_MAX && Room(cap)
      modifies `zout, `cur, zout
      ensures ValidOut() && (zout == old(zout) || fresh(zout)) && Room(cap)
      ensures !status.Finished?
      ensures status.Running? ==> cur > old(cur)
      ensures status.Running? ==> Progress(ll, dl, w, m, out0, tokens + [t], w'', m'', Output())
      ensures status.Failed? ==> !Acceptable(ll, dl, w, m, out0, cap, expandable, maxAlloc)
    {
      ghost var o := Output();
      ghost var need := |o| + t.Length();
      ghost var fits := Fits(cap, expandable, maxAlloc, need);
      assert CanHold(need) == fits;
      var put := PutToken(t, o, need, fits);
      if !put {
        NoRoomNoBlock(ll, dl, w, m, out0, cap, expandable, maxAlloc, tokens, t, w', m', o, need);
        return Failed;
      }
      ProgressStep(ll, dl, w, m, out0, tokens, t, w', m', o, w'', m'');
      status := Running;
    }

    /** Appends what a token stands for, unless it copies from before the first byte or
        does not fit. */
    method PutToken(t: Token, ghost o: seq<byte>, ghost need: nat, ghost fits: bool) returns (ok: bool)
      requires ValidOut() && t.Valid()
      requires o == Output() && need == |o| + t.Length() && fits == CanHold(need)
      modifies `zout, `cur, zout
      ensures ValidOut() && (zout == old(zout) || fresh(zout))
      ensures ok <==> Applicable(o, t) && fits
      ensures ok ==> Output() == Apply(o, t)
      ensures forall m: nat :: CanHold(m) <==> old(CanHold(m))
    {
      if t.Literal? {
        ok := PutLiteral(t.value);
      } else {
        if cur < t.Distance() {
          return false;
        }
        ok := PutCopy(t.Length(), t.Distance());
      }
    }
  }

  /** What was next in the stream w, and what follows it. */
  ghost predicate ReadDone(ll: seq<nat>, dl: seq<nat>, w: nat, m: Meter, next: Next, w': nat, m': Meter) {
    match next
    case NextToken(t) =>
      && Encodes(ll, dl, w, t)
      && w' == Shr(w, TokenBits(ll, dl, t)) && AfterToken(ll, dl, m, t) == Some(m')
    case NextEnd =>
      && Matches(ll, END_OF_BLOCK, w)
      && w' == Shr(w, ll[END_OF_BLOCK]) && m.Coded(ll[END_OF_BLOCK]) == Some(m')
    case NextBad => NoTokenAt(ll, dl, w, m)
  }

  /** The tokens read so far, what is left of the stream and what they stand for. */
  ghost predicate Progress(ll: seq<nat>, dl: seq<nat>, w: nat, m: Meter, out: seq<byte>, tokens: seq<Token>,
                           w': nat, m': Meter, out': seq<byte>) {
    && EncodesAll(ll, dl, w, tokens) && Expandable(out, tokens) && out' == Expand(out, tokens)
    && w' == Shr(w, BitsOfAll(ll, dl, tokens)) && AfterTokens(ll, dl, m, tokens) == Some(m')
  }

  lemma ProgressStep(ll: seq<nat>, dl: seq<nat>, w: nat, m: Meter, out: seq<byte>, tokens: seq<Token>, t: Token,
                     w': nat, m': Meter, out': seq<byte>, w'': nat, m'': Meter)
    requires Progress(ll, dl, w, m, out, tokens, w', m', out') && Applicable(out', t)
    requires ReadDone(ll, dl, w', m', NextToken(t), w'', m'')
    ensures Progress(ll, dl, w, m, out, tokens + [t], w'', m'', Apply(out', t))
  {
    Appended(tokens, t);
    ProgressLast(ll, dl, w, m, out, tokens + [t], w', m', out', w'', m'');
  }

  lemma ProgressLast(ll: seq<nat>, dl: seq<nat>, w: nat, m: Meter, out: seq<byte>, ts: seq<Token>, w': nat,
                     m': Meter, out': seq<byte>, w'': nat, m'': Meter)
    requires ts != [] && Progress(ll, dl, w, m, out, Init(ts), w', m', out') && Applicable(out', Last(ts))
    requires ReadDone(ll, dl, w', m', NextToken(Last(ts)), w'', m'')
    ensures Progress(ll, dl, w, m, out, ts, w'', m'', Apply(out', Last(ts)))
  {
    EncodingLast(ll, dl, w, ts, w');
    ShiftLast(ll, dl, w, ts, w', w'');
    MeterLast(ll, dl, m, ts, m');
  }

  lemma {:induction false} EncodingLast(ll: seq<nat>, dl: seq<nat>, w: nat, ts: seq<Token>, w': nat)
    requires ts != [] && EncodesAll(ll, dl, w, Init(ts)) && w' == Shr(w, BitsOfAll(ll, dl, Init(ts)))
    requires Encodes(ll, dl, w', Last(ts))
    ensures EncodesAll(ll, dl, w, ts)
  {
  }

  lemma {:induction false} ShiftLast(ll: seq<nat>, dl: seq<nat>, w: nat, ts: seq<Token>, w': nat, w'': nat)
    requires ts != [] && w' == Shr(w, BitsOfAll(ll, dl, Init(ts))) && w'' == Shr(w', TokenBits(ll, dl, Last(ts)))
    ensures w'' == Shr(w, BitsOfAll(ll, dl, ts))
  {
    ShiftExtends(w, BitsOfAll(ll, dl, Init(ts)), w', TokenBits(ll, dl, Last(ts)), w'');
  }

  lemma {:induction false} MeterLast(ll: seq<nat>, dl: seq<nat>, m: Meter, ts: seq<Token>, m': Meter)
    requires ts != [] && AfterTokens(ll, dl, m, Init(ts)) == Some(m')
    ensures AfterTokens(ll, dl, m, ts) == AfterToken(ll, dl, m', Last(ts))
  {
  }

  /** The stream w encoded the block tokens; w' is what follows, out' what it made of out. */
  ghost predicate BlockDone(ll: seq<nat>, dl: seq<nat>, w: nat, m: Meter, out: seq<byte>, tokens: seq<Token>, w': nat,
                            m': Meter, out': seq<byte>) {
    && EncodesBlock(ll, dl, w, tokens) && Expandable(out, tokens)
    && out' == Expand(out, tokens)
    && w' == Shr(w, BlockBits(ll, dl, tokens))
    && AfterBlock(ll, dl, m, tokens) == Some(m') && Passes(ll, dl, m, tokens)
  }

  /** Some block is encoded at w that can be expanded, fits the buffer and passes the counters. */
  ghost predicate Acceptable(ll: seq<nat>, dl: seq<nat>, w: nat, m: Meter, out: seq<byte>, capacity: nat,
                             expandable: bool, maxAlloc: nat)
    requires 1 <= capacity <= UINT_MAX
  {
    exists ts :: EncodesBlock(ll, dl, w, ts) && Expandable(out, ts) && Passes(ll, dl, m, ts)
      && Fits(capacity, expandable, maxAlloc, |Expand(out, ts)|)
  }

  /** Some block is encoded in the next left bits at w that can be expanded and fits the buffer. */
  ghost predicate AcceptableWithin(ll: seq<nat>, dl: seq<nat>, w: nat, left: int, out: seq<byte>, capacity: nat,
                                   expandable: bool, maxAlloc: nat)
    requires 1 <= capacity <= UINT_MAX
  {
    exists ts :: EncodesBlock(ll, dl, w, ts) && Expandable(out, ts) && BlockBits(ll, dl, ts) <= left
      && Fits(capacity, expandable, maxAlloc, |Expand(out, ts)|)
  }

  /** What the outcome of the loop says about the input alone. */
  lemma BlockOutcome(ll: seq<nat>, dl: seq<nat>, w: nat, m: Meter, out: seq<byte>, capacity: nat, expandable: bool,
                     maxAlloc: nat, ok: bool, tokens: seq<Token>, w': nat, m': Meter, out': seq<byte>)
    requires 1 <= capacity <= UINT_MAX && m.Valid() && ValidLengths(ll) && ValidLengths(dl)
    requires if ok then BlockDone(ll, dl, w, m, out, tokens, w', m', out')
             else !Acceptable(ll, dl, w, m, out, capacity, expandable, maxAlloc)
    requires ok ==> Fits(capacity, expandable, maxAlloc, |out'|)
    ensures ok <==> Acceptable(ll, dl, w, m, out, capacity, expandable, maxAlloc)
    ensures ok ==> m'.Left() == m.Left() - BlockBits(ll, dl, tokens)
    ensures ok && m'.Left() >= 0 <==> AcceptableWithin(ll, dl, w, m.Left(), out, capacity, expandable, maxAlloc)
    ensures ok && m'.Left() < 0 ==> m'.bytes == 0 && m'.pad > if m'.hit then 16 else 0
  {
    if ok {
      BlockSpends(ll, dl, m, w, tokens);
      if m'.Left() < 0 {
        OverrunUsesFill(ll, dl, m, w, tokens);
      }
    }
    if AcceptableWithin(ll, dl, w, m.Left(), out, capacity, expandable, maxAlloc) {
      var ts :| EncodesBlock(ll, dl, w, ts) && Expandable(out, ts) && BlockBits(ll, dl, ts) <= m.Left()
        && Fits(capacity, expandable, maxAlloc, |Expand(out, ts)|);
      WithinPasses(ll, dl, m, w, ts);
      BlockUnique(ll, dl, w, ts, tokens);
    }
  }

  /** After n bits and b more, n + b bits are gone. */
  lemma {:induction false} ShiftExtends(w: nat, n: nat, w': nat, b: nat, w'': nat)
    requires w' == Shr(w, n) && w'' == Shr(w', b)
    ensures w'' == Shr(w, n + b)
  {
    ShrShr(w, n, b);
  }

  lemma BadTokenNoBlock(ll: seq<nat>, dl: seq<nat>, w: nat, m: Meter, out: seq<byte>, capacity: nat,
                        expandable: bool, maxAlloc: nat, tokens: seq<Token>, w': nat, m': Meter, out': seq<byte>)
    requires 1 <= capacity <= UINT_MAX && Progress(ll, dl, w, m, out, tokens, w', m', out')
    requires NoTokenAt(ll, dl, w', m')
    ensures !Acceptable(ll, dl, w, m, out, capacity, expandable, maxAlloc)
  {
    forall ts | EncodesBlock(ll, dl, w, ts)
      ensures !Passes(ll, dl, m, ts)
    {
      BlockExtends(ll, dl, w, tokens, ts);
      if |ts| > |tokens| {
        NextGivesUp(ll, dl, m, tokens, ts, m');
      }
    }
  }

  /** Once the counters give up on a token, they do so for every longer list. */
  lemma {:induction false} NextGivesUp(ll: seq<nat>, dl: seq<nat>, m: Meter, tokens: seq<Token>, ts: seq<Token>,
                                       m': Meter)
    requires |tokens| < |ts| && ts[..|tokens|] == tokens
    requires AfterTokens(ll, dl, m, tokens) == Some(m') && AfterToken(ll, dl, m', ts[|tokens|]).None?
    ensures AfterTokens(ll, dl, m, ts).None?
    decreases |ts|
  {
    InitOfPrefix(tokens, ts);
    if |ts| > |tokens| + 1 {
      NextGivesUp(ll, dl, m, tokens, Init(ts), m');
    }
  }

  lemma ShortNoBlock(ll: seq<nat>, dl: seq<nat>, w: nat, m: Meter, out: seq<byte>, capacity: nat,
                     expandable: bool, maxAlloc: nat, tokens: seq<Token>)
    requires 1 <= capacity <= UINT_MAX && EncodesBlock(ll, dl, w, tokens) && !Passes(ll, dl, m, tokens)
    ensures !Acceptable(ll, dl, w, m, out, capacity, expandable, maxAlloc)
  {
    forall ts | EncodesBlock(ll, dl, w, ts)
      ensures ts == tokens
    {
      BlockUnique(ll, dl, w, ts, tokens);
    }
  }

  lemma NoRoomNoBlock(ll: seq<nat>, dl: seq<nat>, w: nat, m: Meter, out: seq<byte>, capacity: nat,
                      expandable: bool, maxAlloc: nat, tokens: seq<Token>, t: Token, w': nat, m': Meter,
                      o: seq<byte>, need: nat)
    requires 1 <= capacity <= UINT_MAX && Progress(ll, dl, w, m, out, tokens, w', m', o)
    requires Encodes(ll, dl, w', t) && need == |o| + t.Length()
    requires !Applicable(o, t) || !Fits(capacity, expandable, maxAlloc, need)
    ensures !Acceptable(ll, dl, w, m, out, capacity, expandable, maxAlloc)
  {
    forall ts | EncodesBlock(ll, dl, w, ts) && Expandable(out, ts)
      ensures !Fits(capacity, expandable, maxAlloc, |Expand(out, ts)|)
    {
      BlockHasNext(ll, dl, w, out, tokens, t, ts);
      NeedsMore(capacity, expandable, maxAlloc, need, |Expand(out, ts)|);
    }
  }

  lemma NeedsMore(capacity: nat, expandable: bool, maxAlloc: nat, n: nat, m: nat)
    requires 1 <= capacity <= UINT_MAX && n <= m && !Fits(capacity, expandable, maxAlloc, n)
    ensures !Fits(capacity, expandable, maxAlloc, m)
  {
    if Fits(capacity, expandable, maxAlloc, m) {
      FitsMono(capacity, expandable, maxAlloc, n, m);
    }
  }

  lemma MeterEnds(ll: seq<nat>, dl: seq<nat>, m: Meter, tokens: seq<Token>, m': Meter, m'': Meter)
    requires END_OF_BLOCK < |ll| && AfterTokens(ll, dl, m, tokens) == Some(m')
    requires m'.Coded(ll[END_OF_BLOCK]) == Some(m'')
    ensures AfterBlock(ll, dl, m, tokens) == Some(m'')
    ensures Passes(ll, dl, m, tokens) <==> !(m''.hit && m''.bits < 16)
  {
  }

  /** After the end-of-block symbol the tokens are the block. */
  lemma EndsBlock(ll: seq<nat>, dl: seq<nat>, w: nat, m: Meter, out: seq<byte>, tokens: seq<Token>, w': nat,
                  m': Meter, out': seq<byte>, w'': nat, m'': Meter)
    requires Progress(ll, dl, w, m, out, tokens, w', m', out') && ReadDone(ll, dl, w', m', NextEnd, w'', m'')
    requires !(m''.hit && m''.bits < 16)
    ensures BlockDone(ll, dl, w, m, out, tokens, w'', m'', out')
  {
    MeterEnds(ll, dl, m, tokens, m', m'');
    EndShifted(ll, dl, w, tokens, w', w'');
  }

  lemma EndShifted(ll: seq<nat>, dl: seq<nat>, w: nat, tokens: seq<Token>, w': nat, w'': nat)
    requires END_OF_BLOCK < |ll| && w' == Shr(w, BitsOfAll(ll, dl, tokens)) && w'' == Shr(w', ll[END_OF_BLOCK])
    ensures w'' == Shr(w, BlockBits(ll, dl, tokens))
  {
    ShiftExtends(w, BitsOfAll(ll, dl, tokens), w', ll[END_OF_BLOCK], w'');
  }

  /** Unless too many zeros were used: then there is no other block either. */
  lemma EndsShort(ll: seq<nat>, dl: seq<nat>, w: nat, m: Meter, out: seq<byte>, capacity: nat, expandable: bool,
                  maxAlloc: nat, tokens: seq<Token>, w': nat, m': Meter, out': seq<byte>, w'': nat, m'': Meter)
    requires Progress(ll, dl, w, m, out, tokens, w', m', out') && ReadDone(ll, dl, w', m', NextEnd, w'', m'')
    requires 1 <= capacity <= UINT_MAX && m''.hit && m''.bits < 16
    ensures !Acceptable(ll, dl, w, m, out, capacity, expandable, maxAlloc)
  {
    MeterEnds(ll, dl, m, tokens, m', m'');
    ShortNoBlock(ll, dl, w, m, out, capacity, expandable, maxAlloc, tokens);
  }

  /** If another token follows, every block encoded here goes on with it. */
  lemma BlockHasNext(ll: seq<nat>, dl: seq<nat>, w: nat, out: seq<byte>, tokens: seq<Token>, t: Token, ts: seq<Token>)
    requires EncodesAll(ll, dl, w, tokens) && Encodes(ll, dl, Shr(w, BitsOfAll(ll, dl, tokens)), t)
    requires EncodesBlock(ll, dl, w, ts) && Expandable(out, ts)
    ensures Expandable(out, tokens) && Applicable(Expand(out, tokens), t)
    ensures |Expand(out, tokens)| + t.Length() <= |Expand(out, ts)|
  {
    var w' := Shr(w, BitsOfAll(ll, dl, tokens));
    BlockExtends(ll, dl, w, tokens, ts);
    if |ts| == |tokens| {
      EndIsNotAToken(ll, dl, w', t);
    } else {
      TokenUnique(ll, dl, w', t, ts[|tokens|]);
      NextCosts(out, tokens, ts);
    }
  }

  /** No token, and no end of block, that the counters let pass is encoded at w. */
  ghost predicate NoTokenAt(ll: seq<nat>, dl: seq<nat>, w: nat, m: Meter) {
    && (forall t: Token :: Encodes(ll, dl, w, t) ==> AfterToken(ll, dl, m, t).None?)
    && (Matches(ll, END_OF_BLOCK, w) ==> m.Coded(ll[END_OF_BLOCK]).None?)
  }

  lemma NotTheEnd(ll: seq<nat>, w: nat, z: nat)
    requires z != END_OF_BLOCK && Matches(ll, z, w)
    ensures !Matches(ll, END_OF_BLOCK, w)
  {
    if Matches(ll, END_OF_BLOCK, w) {
      PrefixFree(ll, END_OF_BLOCK, z, w);
    }
  }

  lemma NoLead(ll: seq<nat>, dl: seq<nat>, w: nat, m: Meter)
    requires NoCode(ll, w) || m.Peeked().None?
    ensures NoTokenAt(ll, dl, w, m)
  {
    forall t: Token | Encodes(ll, dl, w, t)
      ensures AfterToken(ll, dl, m, t).None?
    {
      assert Matches(ll, LeadSymbol(t), w);
    }
  }

  lemma WrongLead(ll: seq<nat>, dl: seq<nat>, w: nat, m: Meter, z: nat)
    requires z >= 286 && Matches(ll, z, w)
    ensures NoTokenAt(ll, dl, w, m)
  {
    forall t: Token | Encodes(ll, dl, w, t)
      ensures false
    {
      PrefixFree(ll, LeadSymbol(t), z, w);
    }
    NotTheEnd(ll, w, z);
  }

  lemma NoDistance(ll: seq<nat>, dl: seq<nat>, w: nat, m: Meter, z: nat, m': Meter, d: int)
    requires 257 <= z < 286 && Matches(ll, z, w)
    requires CodedWithExtra(m, ll[z], LENGTH_EXTRA[z - 257]) == Some(m')
    requires var w2 := DistanceStart(ll, w, z);
      if d < 0 then NoCode(dl, w2) || m'.Peeked().None? else d >= 30 && Matches(dl, d, w2)
    ensures NoTokenAt(ll, dl, w, m)
  {
    forall t: Token | Encodes(ll, dl, w, t)
      ensures AfterToken(ll, dl, m, t).None?
    {
      LeadIsLength(ll, dl, w, z, t);
      NotThisDistance(ll, dl, w, m, z, m', d, t);
    }
    NotTheEnd(ll, w, z);
  }

  lemma LeadIsLength(ll: seq<nat>, dl: seq<nat>, w: nat, z: nat, t: Token)
    requires z >= 257 && Matches(ll, z, w) && Encodes(ll, dl, w, t)
    ensures t.Copy? && t.lengthSymbol == z
  {
    PrefixFree(ll, LeadSymbol(t), z, w);
  }

  lemma NotThisDistance(ll: seq<nat>, dl: seq<nat>, w: nat, m: Meter, z: nat, m': Meter, d: int, t: Token)
    requires 257 <= z < 286 && Matches(ll, z, w)
    requires CodedWithExtra(m, ll[z], LENGTH_EXTRA[z - 257]) == Some(m')
    requires var w2 := DistanceStart(ll, w, z);
      if d < 0 then NoCode(dl, w2) || m'.Peeked().None? else d >= 30 && Matches(dl, d, w2)
    requires Encodes(ll, dl, w, t) && t.Copy? && t.lengthSymbol == z
    ensures AfterToken(ll, dl, m, t).None?
  {
    if d >= 30 {
      PrefixFree(dl, t.distSymbol, d, DistanceStart(ll, w, z));
    }
  }

  /** Symbol z and its extra bits le were read off w, which left w' and m'. */
  ghost predicate LengthRead(ll: seq<nat>, w: nat, m: Meter, z: nat, le: nat, w': nat, m': Meter) {
    && 257 <= z < 286 && Matches(ll, z, w) && le == Low(Shr(w, ll[z]), LENGTH_EXTRA[z - 257])
    && w' == DistanceStart(ll, w, z) && CodedWithExtra(m, ll[z], LENGTH_EXTRA[z - 257]) == Some(m')
  }

  ghost predicate DistanceRead(dl: seq<nat>, w: nat, m: Meter, d: nat, de: nat, w': nat, m': Meter) {
    && d < 30 && Matches(dl, d, w) && de == Low(Shr(w, dl[d]), DIST_EXTRA[d])
    && w' == Shr(Shr(w, dl[d]), DIST_EXTRA[d]) && CodedWithExtra(m, dl[d], DIST_EXTRA[d]) == Some(m')
  }

  lemma CopyRead(ll: seq<nat>, dl: seq<nat>, w: nat, m: Meter, z: nat, le: nat, w': nat, m': Meter, d: nat, de: nat,
                 w'': nat, m'': Meter)
    requires LengthRead(ll, w, m, z, le, w', m') && DistanceRead(dl, w', m', d, de, w'', m'')
    ensures ReadDone(ll, dl, w, m, NextToken(Copy(z, le, d, de)), w'', m'')
  {
    CopyEncoded(ll, dl, w, m, z, le, w', m', d, de, w'', m'');
    CopyMetered(ll, dl, w, m, z, le, w', m', d, de, w'', m'');
    CopyShifted(ll, dl, w, m, z, le, w', m', d, de, w'', m'');
  }

  lemma CopyEncoded(ll: seq<nat>, dl: seq<nat>, w: nat, m: Meter, z: nat, le: nat, w': nat, m': Meter, d: nat,
                    de: nat, w'': nat, m'': Meter)
    requires LengthRead(ll, w, m, z, le, w', m') && DistanceRead(dl, w', m', d, de, w'', m'')
    ensures Encodes(ll, dl, w, Copy(z, le, d, de))
  {
  }

  lemma CopyMetered(ll: seq<nat>, dl: seq<nat>, w: nat, m: Meter, z: nat, le: nat, w': nat, m': Meter, d: nat,
                    de: nat, w'': nat, m'': Meter)
    requires LengthRead(ll, w, m, z, le, w', m') && DistanceRead(dl, w', m', d, de, w'', m'')
    ensures AfterToken(ll, dl, m, Copy(z, le, d, de)) == Some(m'')
  {
  }

  lemma CopyShifted(ll: seq<nat>, dl: seq<nat>, w: nat, m: Meter, z: nat, le: nat, w': nat, m': Meter, d: nat,
                    de: nat, w'': nat, m'': Meter)
    requires LengthRead(ll, w, m, z, le, w', m') && DistanceRead(dl, w', m', d, de, w'', m'')
    ensures w'' == Shr(w, TokenBits(ll, dl, Copy(z, le, d, de)))
  {
    ShiftFour(w, ll[z], LENGTH_EXTRA[z - 257], dl[d], DIST_EXTRA[d], w', w'');
  }

  lemma {:induction false} ShiftFour(w: nat, a: nat, b: nat, c: nat, d: nat, w': nat, w'': nat)
    requires w' == Shr(Shr(w, a), b) && w'' == Shr(Shr(w', c), d)
    ensures w'' == Shr(w, a + b + c + d)
  {
    ShrShr(w, a, b);
    ShrShr(w, a + b, c);
    ShrShr(w, a + b + c, d);
  }

  // ----- a block that ends behind the input ----------------------------------

  /** A code with the end-of-block symbol alone, nine bits long. */
  function EndOnly(): (lens: seq<nat>)
    ensures |lens| == 257 && lens[END_OF_BLOCK] == 9
  {
    seq(256, i => 0) + [9]
  }

  lemma {:induction false} CountOfZeros(lens: seq<nat>, s: nat)
    requires s >= 1 && forall i :: 0 <= i < |lens| ==> lens[i] == 0
    ensures Count(lens, s) == 0
    decreases |lens|
  {
    if lens != [] {
      CountOfZeros(lens[..|lens| - 1], s);
    }
  }

  lemma CountEndOnly(s: nat)
    requires s >= 1
    ensures Count(EndOnly()[..256], s) == 0
    ensures Count(EndOnly(), s) == if s == 9 then 1 else 0
  {
    CountOfZeros(EndOnly()[..256], s);
  }

  lemma {:induction false} LimitEndOnly(n: nat)
    requires n <= 8
    ensures Limit(EndOnly(), n) == 0
  {
    if n > 0 {
      CountEndOnly(n);
      LimitEndOnly(n - 1);
    }
  }

  lemma EndOnlyCode()
    ensures ValidLengths(EndOnly()) && Accepted(EndOnly())
    ensures Matches(EndOnly(), END_OF_BLOCK, 0)
  {
    var lens := EndOnly();
    LimitEndOnly(8);
    CountEndOnly(9);
    forall n | 1 <= n <= MAX_LENGTH && Count(lens, n) > 0
      ensures Limit(lens, n) <= Pow2(n)
    {
      CountEndOnly(n);
      Pow2Values();
    }
    TopOfZero(9);
  }

  lemma {:induction false} TopOfZero(n: nat)
    ensures Top(0, n) == 0
  {
    if n > 0 {
      TopOfZero(n - 1);
    }
  }

  /** One byte unread and nothing buffered. */
  predicate AtLastByte(m: Meter) {
    m.bytes == 1 && m.bits == 0 && m.pad == 0 && !m.hit
  }

  /** One byte holds eight bits of a nine-bit code; three padding bytes are shifted in behind it. */
  lemma {:induction false} NineOfEight(m: Meter)
    requires AtLastByte(m)
    ensures m.Coded(9).Some? && !m.Coded(9).value.hit
  {
    var m1 := m.OneByte();
    var m2 := m1.OneByte();
    var m3 := m2.OneByte();
    assert m.Filled() == m1.Filled() == m2.Filled() == m3.Filled() == m3.OneByte();
  }

  lemma {:induction false} OverrunAcceptable(ll: seq<nat>, dl: seq<nat>, m: Meter, ts: seq<Token>, out: seq<byte>)
    requires END_OF_BLOCK < |ll| && ll[END_OF_BLOCK] == 9 && Matches(ll, END_OF_BLOCK, 0)
    requires AtLastByte(m) && ts == [] && out == []
    ensures EncodesBlock(ll, dl, 0, ts) && BlockBits(ll, dl, ts) == 9
    ensures Acceptable(ll, dl, 0, m, out, 1, false, 0)
  {
    NineOfEight(m);
    MeterEnds(ll, dl, m, ts, m, m.Coded(9).value);
    assert EncodesBlock(ll, dl, 0, ts) && Expandable(out, ts) && Expand(out, ts) == out;
  }

  /** The input [0] has eight bits.  A block whose code has nine is accepted all the same, and one
      bit that is not in the input has then been consumed. */
  method OverrunIsAccepted() returns (ok: bool, ghost left: int)
    ensures ok && left == -1
  {
    var buffer := new byte[1];
    var z := new ZBuf([0], buffer, false, 0);
    var lens := EndOnly();
    EndOnlyCode();
    var zl := new ZHuffman();
    var zd := new ZHuffman();
    var builtLengths := zl.Build(lens);
    var builtDistances := zd.Build([]);
    ok := ParseOneByte(z, zl, zd, lens, []);
    left := z.Left();
  }

  method ParseOneByte(z: ZBuf, zl: ZHuffman, zd: ZHuffman, ghost ll: seq<nat>, ghost dl: seq<nat>) returns (ok: bool)
    requires z.ValidBits() && z.ValidOut() && zl.Represents(ll) && zd.Represents(dl)
    requires z.zout !in zl.Arrays() && z.zout !in zd.Arrays()
    requires AtLastByte(z.Gauge()) && z.Stream() == 0 && z.cur == 0
    requires z.zout.Length == 1 && !z.expandable && z.maxAlloc == 0
    requires END_OF_BLOCK < |ll| && ll[END_OF_BLOCK] == 9 && Matches(ll, END_OF_BLOCK, 0)
    modifies z, z.zout
    ensures z.ValidBits() && ok && z.Left() == -1
  {
    ghost var m, out := z.Gauge(), z.Output();
    OverrunAcceptable(ll, dl, m, [], out);
    ghost var tokens;
    ok, tokens := z.ParseHuffmanBlock(zl, zd, ll, dl);
    BlockUnique(ll, dl, 0, tokens, []);
  }
}
