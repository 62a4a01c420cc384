/** The counters of the bit buffer (num_bits, the bytes not yet read, hit_zeof_once) apart from
    the bits themselves.  They decide alone whether the decoder still reads on behind the end of
    the input, so the runs it accepts can be told from the counters and the code lengths. */
module BitMeter {
  import opened Prelude
  import opened Bits
  import opened CanonicalCode
  import opened Lz77

  /** pad counts the zero bits that were put into the buffer after the end of the input. */
  datatype Meter = Meter(bytes: nat, bits: nat, pad: nat, hit: bool) {
    predicate Valid() {
      bits <= 32 && (pad > 0 ==> bytes == 0) && (hit ==> pad >= 16)
    }

    /** The bits of the input still to be read; negative once padding was consumed. */
    function Left(): int {
      8 * bytes + bits - pad
    }

    function OneByte(): Meter {
      if bytes > 0 then Meter(bytes - 1, bits + 8, pad, hit) else Meter(0, bits + 8, pad + 8, hit)
    }

    /** stbi__fill_bits. */
    function Filled(): (m: Meter)
      ensures Valid() ==> m.Valid()
      ensures m.Left() == Left() && m.bits > 24 && m.hit == hit
      decreases 25 - bits
    {
      if bits > 24 then this else OneByte().Filled()
    }

    /** The first lines of stbi__zhuffman_decode; None if it gives up. */
    function Peeked(): Option<Meter> {
      if bits >= 16 then Some(this)
      else if bytes > 0 then Some(Filled())
      else if !hit then Some(Meter(0, bits + 16, pad + 16, true))
      else None
    }

    function Minus(n: nat): Meter {
      Meter(bytes, if n <= bits then bits - n else 0, pad, hit)
    }

    /** Reading a code of n bits. */
    function Coded(n: nat): Option<Meter> {
      match Peeked()
      case None => None
      case Some(m) => Some(m.Minus(n))
    }

    /** Reading n plain bits. */
    function Received(n: nat): Meter {
      if bits < n then Filled().Minus(n) else Minus(n)
    }
  }

  /** Reading a code of n bits and e plain bits after it. */
  function CodedWithExtra(m: Meter, n: nat, e: nat): Option<Meter> {
    match m.Coded(n)
    case None => None
    case Some(a) => Some(a.Received(e))
  }

  /** The symbols of a token are in range. */
  predicate Known(ll: seq<nat>, dl: seq<nat>, t: Token) {
    match t
    case Literal(b) => b < |ll|
    case Copy(ls, _, ds, _) => 257 <= ls < |ll| && ls < 286 && ds < |dl| && ds < 30
  }

  function AfterToken(ll: seq<nat>, dl: seq<nat>, m: Meter, t: Token): Option<Meter> {
    if !Known(ll, dl, t) then None
    else
      match t
      case Literal(b) => m.Coded(ll[b])
      case Copy(ls, _, ds, _) => AfterDistance(dl, CodedWithExtra(m, ll[ls], LENGTH_EXTRA[ls - 257]), ds)
  }

  /** The second half of a copy, if the first half was read. */
  function AfterDistance(dl: seq<nat>, m: Option<Meter>, ds: nat): Option<Meter>
    requires ds < |dl| && ds < 30
  {
    match m
    case None => None
    case Some(a) => CodedWithExtra(a, dl[ds], DIST_EXTRA[ds])
  }

  function AfterTokens(ll: seq<nat>, dl: seq<nat>, m: Meter, tokens: seq<Token>): Option<Meter> {
    if tokens == [] then Some(m)
    else
      match AfterTokens(ll, dl, m, Init(tokens))
      case None => None
      case Some(a) => AfterToken(ll, dl, a, Last(tokens))
  }

  function AfterBlock(ll: seq<nat>, dl: seq<nat>, m: Meter, tokens: seq<Token>): Option<Meter>
    requires END_OF_BLOCK < |ll|
  {
    match AfterTokens(ll, dl, m, tokens)
    case None => None
    case Some(a) => a.Coded(ll[END_OF_BLOCK])
  }

  /** The counters let the decoder read the whole block: it never gives up for want of bits, and
      the test at the end of the block does not object. */
  predicate Passes(ll: seq<nat>, dl: seq<nat>, m: Meter, tokens: seq<Token>)
    requires END_OF_BLOCK < |ll|
  {
    match AfterBlock(ll, dl, m, tokens)
    case None => false
    case Some(a) => !(a.hit && a.bits < 16)
  }

  // ----- the counters and the bits left --------------------------------------

  /** Where n of the bits that were left could be read, or they were not there. */
  predicate Spends(m: Meter, n: nat, r: Option<Meter>) {
    match r
    case None => m.Left() < n
    case Some(a) => a.Valid() && a.Left() == m.Left() - n
  }

  lemma CodedSpends(m: Meter, n: nat)
    requires m.Valid() && n <= MAX_LENGTH
    ensures Spends(m, n, m.Coded(n))
  {
  }

  lemma ReceivedSpends(m: Meter, n: nat)
    requires m.Valid() && n <= 16
    ensures Spends(m, n, Some(m.Received(n)))
  {
  }

  lemma ExtraSpends(m: Meter, n: nat, e: nat)
    requires m.Valid() && n <= MAX_LENGTH && e <= 16
    ensures Spends(m, n + e, CodedWithExtra(m, n, e))
  {
    CodedSpends(m, n);
    match m.Coded(n)
    case None =>
    case Some(a) => ReceivedSpends(a, e);
  }

  lemma ExtraSmall(i: nat)
    ensures 257 <= i < 286 ==> LENGTH_EXTRA[i - 257] <= 5
    ensures i < 30 ==> DIST_EXTRA[i] <= 13
  {
  }

  lemma TokenSpends(ll: seq<nat>, dl: seq<nat>, m: Meter, t: Token)
    requires m.Valid() && ValidLengths(ll) && ValidLengths(dl) && Known(ll, dl, t)
    ensures Spends(m, TokenBits(ll, dl, t), AfterToken(ll, dl, m, t))
  {
    match t
    case Literal(b) => CodedSpends(m, ll[b]);
    case Copy(ls, _, ds, _) =>
      ExtraSmall(ls);
      ExtraSmall(ds);
      ExtraSpends(m, ll[ls], LENGTH_EXTRA[ls - 257]);
      match CodedWithExtra(m, ll[ls], LENGTH_EXTRA[ls - 257])
      case None =>
      case Some(a) => ExtraSpends(a, dl[ds], DIST_EXTRA[ds]);
  }

  lemma EncodedIsKnown(ll: seq<nat>, dl: seq<nat>, w: nat, t: Token)
    requires Encodes(ll, dl, w, t)
    ensures Known(ll, dl, t)
  {
  }

  lemma {:induction false} TokensSpend(ll: seq<nat>, dl: seq<nat>, m: Meter, w: nat, tokens: seq<Token>)
    requires m.Valid() && ValidLengths(ll) && ValidLengths(dl) && EncodesAll(ll, dl, w, tokens)
    ensures Spends(m, BitsOfAll(ll, dl, tokens), AfterTokens(ll, dl, m, tokens))
    decreases |tokens|
  {
    if tokens != [] {
      TokensSpend(ll, dl, m, w, Init(tokens));
      EncodedIsKnown(ll, dl, Shr(w, BitsOfAll(ll, dl, Init(tokens))), Last(tokens));
      match AfterTokens(ll, dl, m, Init(tokens))
      case None =>
      case Some(a) => TokenSpends(ll, dl, a, Last(tokens));
    }
  }

  lemma BlockSpends(ll: seq<nat>, dl: seq<nat>, m: Meter, w: nat, tokens: seq<Token>)
    requires m.Valid() && ValidLengths(ll) && ValidLengths(dl) && EncodesBlock(ll, dl, w, tokens)
    ensures Spends(m, BlockBits(ll, dl, tokens), AfterBlock(ll, dl, m, tokens))
  {
    TokensSpend(ll, dl, m, w, tokens);
    match AfterTokens(ll, dl, m, tokens)
    case None =>
    case Some(a) => CodedSpends(a, ll[END_OF_BLOCK]);
  }

  /** A block that lies within the input always passes. */
  lemma WithinPasses(ll: seq<nat>, dl: seq<nat>, m: Meter, w: nat, tokens: seq<Token>)
    requires m.Valid() && ValidLengths(ll) && ValidLengths(dl) && EncodesBlock(ll, dl, w, tokens)
    requires BlockBits(ll, dl, tokens) <= m.Left()
    ensures Passes(ll, dl, m, tokens)
  {
    BlockSpends(ll, dl, m, w, tokens);
  }

  /** A block that runs past the end of the input passes only on zero bits that stbi__fill_bits
      put into the buffer: the sixteen of stbi__zhuffman_decode are not enough. */
  lemma OverrunUsesFill(ll: seq<nat>, dl: seq<nat>, m: Meter, w: nat, tokens: seq<Token>)
    requires m.Valid() && ValidLengths(ll) && ValidLengths(dl) && EncodesBlock(ll, dl, w, tokens)
    requires BlockBits(ll, dl, tokens) > m.Left() && Passes(ll, dl, m, tokens)
    ensures var a := AfterBlock(ll, dl, m, tokens).value;
      a.bytes == 0 && a.pad > if a.hit then 16 else 0
  {
    BlockSpends(ll, dl, m, w, tokens);
  }
}
