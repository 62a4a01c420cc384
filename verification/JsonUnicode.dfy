/** What a \u escape means: UTF-16 code units in hexadecimal (section 7 of RFC 8259) come out as the
    UTF-8 bytes of their code point (section 3 of RFC 3629). */
module JsonUnicode {
  import opened Prelude
  import opened Json

  // ----- UTF-8, read ---------------------------------------------------------------

  predicate Tail(s: string, i: nat) {
    i < |s| && 0x80 <= s[i] as int <= 0xbf
  }

  function TailBits(s: string, i: nat): nat
    requires Tail(s, i)
  {
    s[i] as int - 0x80
  }

  /** The first code point of a text of bytes and the bytes after it; shortest forms only. */
  function DecodeUtf8(s: string): Option<(nat, string)> {
    if s == [] then None
    else
      var lead := s[0] as int;
      if lead < 0x80 then Some((lead, s[1..]))
      else if 0xc0 <= lead < 0xe0 && Tail(s, 1) then
        Checked((lead - 0xc0) * 64 + TailBits(s, 1), 0x80, s[2..])
      else if 0xe0 <= lead < 0xf0 && Tail(s, 1) && Tail(s, 2) then
        Checked((lead - 0xe0) * 4096 + TailBits(s, 1) * 64 + TailBits(s, 2), 0x800, s[3..])
      else if 0xf0 <= lead < 0xf8 && Tail(s, 1) && Tail(s, 2) && Tail(s, 3) then
        Checked((lead - 0xf0) * 262144 + TailBits(s, 1) * 4096 + TailBits(s, 2) * 64 + TailBits(s, 3), 0x10000, s[4..])
      else None
  }

  function Checked(u: nat, least: nat, rest: string): Option<(nat, string)> {
    if least <= u < 0x110000 then Some((u, rest)) else None
  }

  lemma SplitTwo(u: nat)
    ensures u == u / 64 * 64 + u % 64
  {
  }

  lemma SplitThree(u: nat)
    ensures u == u / 4096 * 4096 + u / 64 % 64 * 64 + u % 64
  {
    SplitTwo(u);
    SplitTwo(u / 64);
    assert u / 64 / 64 == u / 4096;
  }

  lemma SplitFour(u: nat)
    ensures u == u / 262144 * 262144 + u / 4096 % 64 * 4096 + u / 64 % 64 * 64 + u % 64
  {
    SplitThree(u);
    SplitTwo(u / 4096);
    assert u / 4096 / 64 == u / 262144;
  }

  /** The bytes of every code point are read back as it, and reading stops right behind them. */
  lemma Utf8Decodes(u: nat, rest: string)
    requires u < 0x110000
    ensures DecodeUtf8(Utf8(u) + rest) == Some((u, rest))
  {
    var s := Utf8(u) + rest;
    assert s[|Utf8(u)|..] == rest;
    if 0x80 <= u < 0x800 {
      SplitTwo(u);
    } else if 0x800 <= u < 0x10000 {
      SplitThree(u);
    } else if 0x10000 <= u {
      SplitFour(u);
    }
  }

  lemma JoinTwo(a: nat, b: nat)
    requires b < 64
    ensures (a * 64 + b) / 64 == a && (a * 64 + b) % 64 == b
  {
  }

  lemma JoinThree(a: nat, b: nat, c: nat, u: nat)
    requires b < 64 && c < 64 && u == a * 4096 + b * 64 + c
    ensures u / 4096 == a && u / 64 % 64 == b && u % 64 == c
  {
    JoinTwo(a * 64 + b, c);
    JoinTwo(a, b);
    assert u / 64 / 64 == u / 4096;
  }

  lemma JoinFour(a: nat, b: nat, c: nat, d: nat, u: nat)
    requires b < 64 && c < 64 && d < 64 && u == a * 262144 + b * 4096 + c * 64 + d
    ensures u / 262144 == a && u / 4096 % 64 == b && u / 64 % 64 == c && u % 64 == d
  {
    JoinThree(a * 64 + b, c, d, u);
    JoinTwo(a, b);
    assert u / 4096 / 64 == u / 262144;
  }

  lemma OneByte(s: string)
    requires s != [] && s[0] as int < 0x80
    ensures s == Utf8(s[0] as int) + s[1..]
  {
  }

  lemma TwoBytes(s: string, u: nat)
    requires s != [] && 0xc0 <= s[0] as int < 0xe0 && Tail(s, 1)
    requires u == (s[0] as int - 0xc0) * 64 + TailBits(s, 1) && u >= 0x80
    ensures u < 0x110000 && s == Utf8(u) + s[2..]
  {
    JoinTwo(s[0] as int - 0xc0, TailBits(s, 1));
  }

  lemma ThreeBytes(s: string, u: nat)
    requires s != [] && 0xe0 <= s[0] as int < 0xf0 && Tail(s, 1) && Tail(s, 2)
    requires u == (s[0] as int - 0xe0) * 4096 + TailBits(s, 1) * 64 + TailBits(s, 2) && u >= 0x800
    ensures u < 0x110000 && s == Utf8(u) + s[3..]
  {
    JoinThree(s[0] as int - 0xe0, TailBits(s, 1), TailBits(s, 2), u);
  }

  lemma FourBytes(s: string, u: nat)
    requires s != [] && 0xf0 <= s[0] as int < 0xf8 && Tail(s, 1) && Tail(s, 2) && Tail(s, 3)
    requires u == (s[0] as int - 0xf0) * 262144 + TailBits(s, 1) * 4096 + TailBits(s, 2) * 64 + TailBits(s, 3)
    requires 0x10000 <= u < 0x110000
    ensures s == Utf8(u) + s[4..]
  {
    JoinFour(s[0] as int - 0xf0, TailBits(s, 1), TailBits(s, 2), TailBits(s, 3), u);
  }

  /** Whatever is read as a code point was its bytes: the encoding is the only one. */
  lemma DecodesOnlyUtf8(s: string)
    requires DecodeUtf8(s).Some?
    ensures var (u, rest) := DecodeUtf8(s).value; u < 0x110000 && s == Utf8(u) + rest
  {
    var lead, u := s[0] as int, DecodeUtf8(s).value.0;
    if lead < 0x80 {
      OneByte(s);
    } else if lead < 0xe0 {
      TwoBytes(s, u);
    } else if lead < 0xf0 {
      ThreeBytes(s, u);
    } else {
      FourBytes(s, u);
    }
  }

  // ----- hexadecimal -----------------------------------------------------------------

  /** The character is the digit d in small or capital letters, by their numbers in ASCII. */
  predicate IsHexDigit(c: char, d: nat) {
    d < 16 && if d < 10 then c as int == 48 + d else c as int == 65 + (d - 10) || c as int == 97 + (d - 10)
  }

  /** h is u in four hexadecimal digits. */
  predicate IsQuad(h: string, u: nat) {
    && |h| == 4 && u < 0x10000
    && IsHexDigit(h[0], u / 4096) && IsHexDigit(h[1], u / 256 % 16)
    && IsHexDigit(h[2], u / 16 % 16) && IsHexDigit(h[3], u % 16)
  }

  lemma DigitValue(c: char, d: nat)
    requires IsHexDigit(c, d)
    ensures HexValue(c) == d
  {
  }

  lemma SplitQuad(u: nat)
    ensures u == ((u / 4096 * 16 + u / 256 % 16) * 16 + u / 16 % 16) * 16 + u % 16
  {
    assert u / 16 == u / 16 / 16 * 16 + u / 16 % 16 && u / 16 / 16 == u / 256;
    assert u / 256 == u / 256 / 16 * 16 + u / 256 % 16 && u / 256 / 16 == u / 4096;
  }

  lemma TakeDigit(c: char, rest: string, k: nat, acc: nat, d: nat)
    requires k < 4 && HexValue(c) == d
    ensures QuadHex([c] + rest, k, acc) == QuadHex(rest, k + 1, acc * 16 + d)
  {
    assert ([c] + rest)[1..] == rest;
  }

  lemma FourDigits(h: string, a: nat, b: nat, c: nat, d: nat, post: string)
    requires |h| == 4 && HexValue(h[0]) == a && HexValue(h[1]) == b && HexValue(h[2]) == c && HexValue(h[3]) == d
    ensures QuadHex(h + post, 0, 0) == Ok(((a * 16 + b) * 16 + c) * 16 + d, post)
  {
    var t3 := [h[3]] + post;
    var t2 := [h[2]] + t3;
    var t1 := [h[1]] + t2;
    assert h + post == [h[0]] + t1;
    TakeDigit(h[0], t1, 0, 0, a);
    TakeDigit(h[1], t2, 1, a, b);
    TakeDigit(h[2], t3, 2, a * 16 + b, c);
    TakeDigit(h[3], post, 3, (a * 16 + b) * 16 + c, d);
  }

  /** Four hexadecimal digits, in either case, are read as the number they write. */
  lemma QuadRead(h: string, u: nat, post: string)
    requires IsQuad(h, u)
    ensures QuadHex(h + post, 0, 0) == Ok(u, post)
  {
    DigitValue(h[0], u / 4096);
    DigitValue(h[1], u / 256 % 16);
    DigitValue(h[2], u / 16 % 16);
    DigitValue(h[3], u % 16);
    FourDigits(h, u / 4096, u / 256 % 16, u / 16 % 16, u % 16, post);
    SplitQuad(u);
  }

  // ----- escapes -----------------------------------------------------------------------

  predicate Surrogate(u: nat) {
    0xd800 <= u <= 0xdfff
  }

  /** A code unit that is no surrogate stands for itself. */
  lemma UnitRead(h: string, u: nat, post: string)
    requires IsQuad(h, u) && !Surrogate(u)
    ensures Codepoint(h + post) == Ok(Utf8(u), post)
  {
    QuadRead(h, u, post);
  }

  lemma PairValue(u: nat, high: nat, low: nat)
    requires 0x10000 <= u < 0x110000
    requires high == 0xd800 + (u - 0x10000) / 1024 && low == 0xdc00 + (u - 0x10000) % 1024
    ensures 0xd800 <= high < 0xdc00 <= low <= 0xdfff && (high - 0xd800) * 1024 + (low - 0xdc00) + 0x10000 == u
  {
  }

  lemma SecondRead(high: nat, low: nat, h: string, post: string)
    requires 0xd800 <= high < 0xdc00 <= low <= 0xdfff && IsQuad(h, low)
    ensures LowSurrogate(high, h + post) == Ok(Utf8((high - 0xd800) * 1024 + (low - 0xdc00) + 0x10000), post)
  {
    QuadRead(h, low, post);
  }

  /** A surrogate pair stands for the code point that UTF-16 writes with it. */
  lemma PairRead(first: string, second: string, u: nat, post: string)
    requires 0x10000 <= u < 0x110000
    requires IsQuad(first, 0xd800 + (u - 0x10000) / 1024) && IsQuad(second, 0xdc00 + (u - 0x10000) % 1024)
    ensures Codepoint(first + (['\\', 'u'] + (second + post))) == Ok(Utf8(u), post)
  {
    var high, low := 0xd800 + (u - 0x10000) / 1024, 0xdc00 + (u - 0x10000) % 1024;
    PairValue(u, high, low);
    HighRead(first, high, second + post);
    SecondRead(high, low, second, post);
  }

  lemma HighRead(h: string, high: nat, t: string)
    requires IsQuad(h, high) && 0xd800 <= high < 0xdc00
    ensures Codepoint(h + (['\\', 'u'] + t)) == LowSurrogate(high, t)
  {
    QuadRead(h, high, ['\\', 'u'] + t);
    AfterEscape(t);
  }

  lemma AfterEscape(t: string)
    ensures var s := ['\\', 'u'] + t; s != [] && s[0] == '\\' && s[1..] != [] && s[1] == 'u' && s[2..] == t
  {
  }

  /** A low surrogate alone, or a high one that no low one follows, is refused. */
  lemma LoneSurrogate(h: string, u: nat, post: string)
    requires IsQuad(h, u) && Surrogate(u)
    requires u < 0xdc00 ==> |post| < 2 || post[..2] != ['\\', 'u']
    ensures Codepoint(h + post).Err?
  {
    QuadRead(h, u, post);
    if |post| >= 2 {
      assert post[..2] == [post[0], post[1]];
    }
  }
}
