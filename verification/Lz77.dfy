/** A compressed block as sections 3.2.3 and 3.2.5 of RFC 1951 define it: a list of
    literals and copies, ended by symbol 256, and the bytes it stands for. */
module Lz77 {
  import opened Prelude
  import opened Bits
  import opened CanonicalCode
  import opened BitStream

  const END_OF_BLOCK := 256

  const LENGTH_BASE: seq<nat> := [
    3, 4, 5, 6, 7, 8, 9, 10, 11, 13, 15, 17, 19, 23, 27, 31, 35, 43, 51, 59,
    67, 83, 99, 115, 131, 163, 195, 227, 258, 0, 0]

  const LENGTH_EXTRA: seq<nat> := [
    0, 0, 0, 0, 0, 0, 0, 0, 1, 1, 1, 1, 2, 2, 2, 2, 3, 3, 3, 3, 4, 4, 4, 4, 5, 5, 5, 5, 0, 0, 0]

  const DIST_BASE: seq<nat> := [
    1, 2, 3, 4, 5, 7, 9, 13, 17, 25, 33, 49, 65, 97, 129, 193, 257, 385, 513, 769,
    1025, 1537, 2049, 3073, 4097, 6145, 8193, 12289, 16385, 24577, 0, 0]

  const DIST_EXTRA: seq<nat> := [
    0, 0, 0, 0, 1, 1, 2, 2, 3, 3, 4, 4, 5, 5, 6, 6, 7, 7, 8, 8, 9, 9, 10, 10, 11, 11, 12, 12, 13, 13, 0, 0]

  /** A copy is named by its two symbols and the extra bits that follow each. */
  datatype Token =
    | Literal(value: byte)
    | Copy(lengthSymbol: nat, lengthExtra: nat, distSymbol: nat, distExtra: nat)
  {
    predicate Valid() {
      Copy? ==>
        && 257 <= lengthSymbol < 286 && lengthExtra < Pow2(LENGTH_EXTRA[lengthSymbol - 257])
        && distSymbol < 30 && distExtra < Pow2(DIST_EXTRA[distSymbol])
    }

    function Length(): (n: nat)
      requires Valid()
      ensures n >= 1
    {
      if Literal? then 1
      else
        assert LENGTH_BASE[lengthSymbol - 257] >= 3;
        LENGTH_BASE[lengthSymbol - 257] + lengthExtra
    }

    function Distance(): (d: nat)
      requires Copy? && Valid()
      ensures d >= 1
    {
      assert DIST_BASE[distSymbol] >= 1;
      DIST_BASE[distSymbol] + distExtra
    }
  }

  // ----- what the tokens stand for ------------------------------------------

  /** One byte at a time, so that a copy may read bytes it has itself produced. */
  function CopyBytes(out: seq<byte>, n: nat, dist: nat): (r: seq<byte>)
    requires 1 <= dist <= |out|
    ensures |r| == |out| + n && r[..|out|] == out
    decreases n
  {
    if n == 0 then out
    else
      var prefix := CopyBytes(out, n - 1, dist);
      prefix + [prefix[|prefix| - dist]]
  }

  /** The byte a copy appends last is the one dist before it; earlier bytes stay. */
  lemma CopyLast(out: seq<byte>, n: nat, dist: nat, j: nat)
    requires 1 <= dist <= |out| && 1 <= n && j < |out| + n
    ensures var prefix := CopyBytes(out, n - 1, dist);
      CopyBytes(out, n, dist)[j] == if j < |out| + n - 1 then prefix[j] else prefix[j - dist]
  {
  }

  lemma CopyKeeps(out: seq<byte>, n: nat, dist: nat, j: nat)
    requires 1 <= dist <= |out| && j < |out|
    ensures CopyBytes(out, n, dist)[j] == out[j]
  {
    assert CopyBytes(out, n, dist)[..|out|][j] == out[j];
  }

  /** Position k of a text with period dist, by going back a period at a time. */
  function Residue(k: nat, dist: nat): (r: nat)
    requires dist >= 1
    ensures r < dist
  {
    if k < dist then k else Residue(k - dist, dist)
  }

  lemma {:induction false} CopyRepeats(out: seq<byte>, n: nat, dist: nat, k: nat)
    requires 1 <= dist <= |out| && k < n
    ensures CopyBytes(out, n, dist)[|out| + k] == out[|out| - dist + Residue(k, dist)]
    decreases n
  {
    CopyLast(out, n, dist, |out| + k);
    if k < n - 1 {
      CopyRepeats(out, n - 1, dist, k);
    } else if k < dist {
      CopyKeeps(out, n - 1, dist, |out| + k - dist);
    } else {
      CopyRepeats(out, n - 1, dist, k - dist);
    }
  }

  lemma {:induction false} ResidueIsMod(k: nat, dist: nat)
    requires dist >= 1
    ensures Residue(k, dist) == k % dist
  {
    if k < dist {
      ModSmall(k, dist);
    } else {
      ResidueIsMod(k - dist, dist);
      ModStep(k, dist);
    }
  }

  /** Closed form: a copy repeats the last dist bytes with period dist. */
  lemma CopyIsPeriodic(out: seq<byte>, n: nat, dist: nat, k: nat)
    requires 1 <= dist <= |out| && k < n
    ensures CopyBytes(out, n, dist)[|out| + k] == out[|out| - dist + k % dist]
  {
    CopyRepeats(out, n, dist, k);
    ResidueIsMod(k, dist);
  }

  lemma ModStep(k: nat, d: nat)
    requires 1 <= d <= k
    ensures k % d == (k - d) % d
  {
    var q := (k - d) / d;
    assert (q + 1) * d == q * d + d;
    DivModUnique(k, d, q + 1, (k - d) % d);
  }

  lemma ModSmall(k: nat, d: nat)
    requires k < d
    ensures k % d == k
  {
  }

  /** What a token needs of the bytes before it. */
  predicate Applicable(out: seq<byte>, t: Token) {
    t.Valid() && (t.Copy? ==> t.Distance() <= |out|)
  }

  function Apply(out: seq<byte>, t: Token): (r: seq<byte>)
    requires Applicable(out, t)
    ensures |r| == |out| + t.Length() && r[..|out|] == out
  {
    if t.Literal? then out + [t.value] else CopyBytes(out, t.Length(), t.Distance())
  }

  predicate Expandable(out: seq<byte>, tokens: seq<Token>)
    decreases |tokens|, 0
  {
    tokens == [] || (Expandable(out, Init(tokens)) && Applicable(Expand(out, Init(tokens)), Last(tokens)))
  }

  /** The reference expansion of a block. */
  function Expand(out: seq<byte>, tokens: seq<Token>): (r: seq<byte>)
    requires Expandable(out, tokens)
    ensures |out| + |tokens| <= |r| && r[..|out|] == out
    decreases |tokens|, 1
  {
    if tokens == [] then out
    else
      var prev := Expand(out, Init(tokens));
      var r := Apply(prev, Last(tokens));
      assert r[..|out|] == r[..|prev|][..|out|];
      r
  }

  function Init(tokens: seq<Token>): (r: seq<Token>)
    requires tokens != []
    ensures |r| == |tokens| - 1
  {
    tokens[..|tokens| - 1]
  }

  function Last(tokens: seq<Token>): Token
    requires tokens != []
  {
    tokens[|tokens| - 1]
  }

  // ----- how the tokens are written -----------------------------------------

  /** Where the distance code of a copy starts. */
  function DistanceStart(ll: seq<nat>, w: nat, ls: nat): nat
    requires ls < |ll| && 257 <= ls < 286
  {
    Shr(Shr(w, ll[ls]), LENGTH_EXTRA[ls - 257])
  }

  /** The stream w starts with the encoding of t under the literal/length code ll and
      the distance code dl. */
  predicate Encodes(ll: seq<nat>, dl: seq<nat>, w: nat, t: Token) {
    t.Valid() &&
    match t
    case Literal(b) => Matches(ll, b, w)
    case Copy(ls, le, ds, de) =>
      && Matches(ll, ls, w)
      && Low(Shr(w, ll[ls]), LENGTH_EXTRA[ls - 257]) == le
      && Matches(dl, ds, DistanceStart(ll, w, ls))
      && Low(Shr(DistanceStart(ll, w, ls), dl[ds]), DIST_EXTRA[ds]) == de
  }

  /** Number of bits of that encoding. */
  function TokenBits(ll: seq<nat>, dl: seq<nat>, t: Token): (n: nat) {
    match t
    case Literal(b) => if b < |ll| then ll[b] else 0
    case Copy(ls, _, ds, _) =>
      if 257 <= ls < |ll| && ls < 286 && ds < |dl| && ds < 30 then
        ll[ls] + LENGTH_EXTRA[ls - 257] + dl[ds] + DIST_EXTRA[ds]
      else 0
  }

  function BitsOfAll(ll: seq<nat>, dl: seq<nat>, tokens: seq<Token>): nat {
    if tokens == [] then 0 else BitsOfAll(ll, dl, Init(tokens)) + TokenBits(ll, dl, Last(tokens))
  }

  predicate EncodesAll(ll: seq<nat>, dl: seq<nat>, w: nat, tokens: seq<Token>) {
    tokens == [] ||
    (EncodesAll(ll, dl, w, Init(tokens)) && Encodes(ll, dl, Shr(w, BitsOfAll(ll, dl, Init(tokens))), Last(tokens)))
  }

  /** A whole block: the tokens, then the end-of-block symbol. */
  predicate EncodesBlock(ll: seq<nat>, dl: seq<nat>, w: nat, tokens: seq<Token>) {
    && EncodesAll(ll, dl, w, tokens)
    && Matches(ll, END_OF_BLOCK, Shr(w, BitsOfAll(ll, dl, tokens)))
  }

  function BlockBits(ll: seq<nat>, dl: seq<nat>, tokens: seq<Token>): nat
    requires END_OF_BLOCK < |ll|
  {
    BitsOfAll(ll, dl, tokens) + ll[END_OF_BLOCK]
  }

  /** Each token is encoded where the ones before it end. */
  lemma {:induction false} EncodesAt(ll: seq<nat>, dl: seq<nat>, w: nat, tokens: seq<Token>, k: nat)
    requires EncodesAll(ll, dl, w, tokens) && k < |tokens|
    ensures EncodesAll(ll, dl, w, tokens[..k])
    ensures Encodes(ll, dl, Shr(w, BitsOfAll(ll, dl, tokens[..k])), tokens[k])
    decreases |tokens|
  {
    if k == |tokens| - 1 {
      assert tokens[..k] == Init(tokens);
    } else {
      EncodesAt(ll, dl, w, Init(tokens), k);
      assert Init(tokens)[..k] == tokens[..k];
    }
  }

  /** The first symbol of a token's encoding. */
  function LeadSymbol(t: Token): nat {
    if t.Literal? then t.value else t.lengthSymbol
  }

  /** A stream encodes at most one next token. */
  lemma TokenUnique(ll: seq<nat>, dl: seq<nat>, w: nat, t: Token, u: Token)
    requires Encodes(ll, dl, w, t) && Encodes(ll, dl, w, u)
    ensures t == u
  {
    var s := LeadSymbol(t);
    PrefixFree(ll, s, LeadSymbol(u), w);
    if t.Copy? {
      PrefixFree(dl, t.distSymbol, u.distSymbol, DistanceStart(ll, w, s));
    }
  }

  lemma EndIsNotAToken(ll: seq<nat>, dl: seq<nat>, w: nat, t: Token)
    requires Matches(ll, END_OF_BLOCK, w)
    ensures !Encodes(ll, dl, w, t)
  {
    if Encodes(ll, dl, w, t) {
      PrefixFree(ll, END_OF_BLOCK, LeadSymbol(t), w);
    }
  }

  lemma ExtendEqual<T>(ts: seq<T>, us: seq<T>, k: nat)
    requires 0 < k <= |ts| && k <= |us| && ts[..k - 1] == us[..k - 1] && ts[k - 1] == us[k - 1]
    ensures ts[..k] == us[..k]
  {
    assert ts[..k] == ts[..k - 1] + [ts[k - 1]] && us[..k] == us[..k - 1] + [us[k - 1]];
  }

  lemma SameNext(ll: seq<nat>, dl: seq<nat>, w: nat, ts: seq<Token>, us: seq<Token>, k: nat)
    requires EncodesAll(ll, dl, w, ts) && EncodesAll(ll, dl, w, us) && k < |ts| && k < |us|
    requires ts[..k] == us[..k]
    ensures ts[k] == us[k]
  {
    EncodesAt(ll, dl, w, ts, k);
    EncodesAt(ll, dl, w, us, k);
    TokenUnique(ll, dl, Shr(w, BitsOfAll(ll, dl, ts[..k])), ts[k], us[k]);
  }

  lemma {:induction false} SamePrefix(ll: seq<nat>, dl: seq<nat>, w: nat, ts: seq<Token>, us: seq<Token>, k: nat)
    requires EncodesAll(ll, dl, w, ts) && EncodesAll(ll, dl, w, us) && k <= |ts| && k <= |us|
    ensures ts[..k] == us[..k]
    decreases k
  {
    if k > 0 {
      SamePrefix(ll, dl, w, ts, us, k - 1);
      SameNext(ll, dl, w, ts, us, k - 1);
      ExtendEqual(ts, us, k);
    }
  }

  /** A stream encodes at most one block, so decoding is a function of the stream. */
  lemma BlockUnique(ll: seq<nat>, dl: seq<nat>, w: nat, ts: seq<Token>, us: seq<Token>)
    requires EncodesBlock(ll, dl, w, ts) && EncodesBlock(ll, dl, w, us)
    ensures ts == us
  {
    if |ts| < |us| {
      BlockEndsThere(ll, dl, w, ts, us);
    } else if |us| < |ts| {
      BlockEndsThere(ll, dl, w, us, ts);
    } else {
      SamePrefix(ll, dl, w, ts, us, |ts|);
      assert ts[..|ts|] == ts && us[..|us|] == us;
    }
  }

  lemma BlockEndsThere(ll: seq<nat>, dl: seq<nat>, w: nat, ts: seq<Token>, us: seq<Token>)
    requires EncodesBlock(ll, dl, w, ts) && EncodesAll(ll, dl, w, us)
    ensures |us| <= |ts|
  {
    if |us| > |ts| {
      SamePrefix(ll, dl, w, ts, us, |ts|);
      assert ts[..|ts|] == ts;
      EncodesAt(ll, dl, w, us, |ts|);
      EndIsNotAToken(ll, dl, Shr(w, BitsOfAll(ll, dl, ts)), us[|ts|]);
    }
  }

  /** A list of tokens the stream starts with is a prefix of any block it encodes, and
      the block goes on with the end symbol or another token. */
  lemma BlockExtends(ll: seq<nat>, dl: seq<nat>, w: nat, tokens: seq<Token>, ts: seq<Token>)
    requires EncodesAll(ll, dl, w, tokens) && EncodesBlock(ll, dl, w, ts)
    ensures |tokens| <= |ts| && ts[..|tokens|] == tokens
    ensures var w' := Shr(w, BitsOfAll(ll, dl, tokens));
      if |ts| == |tokens| then ts == tokens && Matches(ll, END_OF_BLOCK, w')
      else Encodes(ll, dl, w', ts[|tokens|])
  {
    BlockEndsThere(ll, dl, w, ts, tokens);
    SamePrefix(ll, dl, w, tokens, ts, |tokens|);
    assert tokens[..|tokens|] == tokens;
    if |ts| == |tokens| {
      assert ts[..|tokens|] == ts;
    } else {
      EncodesAt(ll, dl, w, ts, |tokens|);
    }
  }

  lemma InitOfPrefix(tokens: seq<Token>, ts: seq<Token>)
    requires |tokens| < |ts| && ts[..|tokens|] == tokens
    ensures Init(ts)[..|tokens|] == tokens && (|ts| == |tokens| + 1 ==> Init(ts) == tokens)
  {
  }

  lemma Appended(tokens: seq<Token>, t: Token)
    ensures Init(tokens + [t]) == tokens && Last(tokens + [t]) == t
  {
  }

  /** A longer block pays for its next token. */
  lemma {:induction false} NextCosts(out: seq<byte>, tokens: seq<Token>, ts: seq<Token>)
    requires Expandable(out, ts) && |tokens| < |ts| && ts[..|tokens|] == tokens
    ensures Expandable(out, tokens) && Applicable(Expand(out, tokens), ts[|tokens|])
    ensures |Expand(out, tokens)| + ts[|tokens|].Length() <= |Expand(out, ts)|
    decreases |ts|
  {
    InitOfPrefix(tokens, ts);
    if |ts| > |tokens| + 1 {
      NextCosts(out, tokens, Init(ts));
    }
  }
}
