/** What the words, escapes and blanks of a JSON text are, by their characters (sections 2, 3, 6 and 7
    of RFC 8259), and how a serialized text is laid out. */
module JsonText {
  import opened Prelude
  import opened Json
  import opened JsonRoundTrip

  // ----- characters ----------------------------------------------------------------

  /** The letter after the backslash and the character meant, by their numbers. */
  predicate Names(e: char, c: char) {
    (e as int, c as int) in {(34, 34), (92, 92), (47, 47), (98, 8), (102, 12), (110, 10), (114, 13), (116, 9)}
  }

  lemma ShortEscapes(e: char, c: char)
    ensures Unescape(e) == Some(c) <==> Names(e, c)
  {
  }

  /** A short escape is read as the character it names. */
  lemma EscapeMeans(e: char, c: char, post: string, out: string)
    requires Names(e, c)
    ensures ParseString(['\\', e] + post, out) == ParseString(post, out + [c])
  {
    ShortEscapes(e, c);
    ShortEscape(c, e, post, out);
  }

  /** Any other letter but u is refused. */
  lemma OtherEscapes(e: char, post: string, out: string)
    requires e != 'u' && forall c :: !Names(e, c)
    ensures ParseString(['\\', e] + post, out) == Err(post)
  {
    if Unescape(e).Some? {
      ShortEscapes(e, Unescape(e).value);
    }
    assert (['\\', e] + post)[2..] == post;
  }

  lemma Blanks(c: char)
    ensures IsWs(c) <==> c as int in {9, 10, 13, 32}
  {
  }

  lemma NumberCharacters(c: char)
    ensures IsNumChar(c) <==> c in "+-.0123456789Ee"
    ensures StartsNumber(c) <==> c in "-0123456789"
  {
  }

  /** The strings differ first at position i, or one ends there. */
  predicate FirstDifference(a: string, b: string, i: nat) {
    i <= |a| && i <= |b| && a[..i] == b[..i] && (i == |a| || i == |b| || a[i] != b[i])
  }

  /** Keys are ordered as in a dictionary: by the first character in which they differ, a prefix before
      the longer string. */
  lemma {:induction false} LessMeans(a: string, b: string, i: nat)
    requires FirstDifference(a, b, i)
    ensures Less(a, b) <==> i < |b| && (i == |a| || a[i] < b[i])
    decreases i
  {
    if i > 0 {
      assert a[..i][0] == b[..i][0];
      assert a[1..][..i - 1] == a[..i][1..] && b[1..][..i - 1] == b[..i][1..];
      LessMeans(a[1..], b[1..], i - 1);
    }
  }

  // ----- words -----------------------------------------------------------------------

  lemma {:induction false} MatchWhole(text: string, post: string)
    ensures Match(text + post, text) == Ok((), post)
  {
    if text == [] {
      assert text + post == post;
    } else {
      MatchWhole(text[1..], post);
      assert (text + post)[1..] == text[1..] + post;
    }
  }

  lemma WordRead<N>(codec: Codec<N>, c: char, text: string, post: string, v: Value<N>)
    requires (c == 'n' && text == "ull" && v == Null) || (c == 'f' && text == "alse" && v == Bool(false))
          || (c == 't' && text == "rue" && v == Bool(true))
    ensures Parse(codec, [c] + (text + post)) == Ok(v, post)
  {
    var s := [c] + (text + post);
    assert s[1..] == text + post;
    assert SkipWs(s) == s;
    MatchWhole(text, post);
  }

  /** The three words mean what they say, whatever follows them. */
  lemma WordsMean<N>(codec: Codec<N>, post: string)
    ensures Parse(codec, "null" + post) == Ok(Null, post)
    ensures Parse(codec, "true" + post) == Ok(Bool(true), post)
    ensures Parse(codec, "false" + post) == Ok(Bool(false), post)
  {
    assert "null" + post == ['n'] + ("ull" + post);
    assert "true" + post == ['t'] + ("rue" + post);
    assert "false" + post == ['f'] + ("alse" + post);
    WordRead(codec, 'n', "ull", post, Null);
    WordRead(codec, 't', "rue", post, Bool(true));
    WordRead(codec, 'f', "alse", post, Bool(false));
  }

  // ----- layout ----------------------------------------------------------------------

  lemma TwoItems<N>(codec: Codec<N>, indent: int, k: string)
    requires indent >= -1
    ensures EmitItems(codec, [Null, Bool(true)], indent, k)
         == Lead(indent) + ("null" + ([','] + (Lead(indent) + ("true" + k))))
  {
    var items: seq<Value<N>> := [Null, Bool(true)];
    assert items[1..] == [Bool(true)];
    assert EmitItems(codec, [Bool(true)], indent, k) == Lead(indent) + ("true" + k);
  }

  lemma OneMember<N>(codec: Codec<N>, indent: int, items: seq<Value<N>>, k: string)
    requires indent >= -1
    ensures EmitMembers(codec, [Member("a", Arr(items))], indent, k)
         == Lead(indent) + ("\"a\"" + (Colon(indent) + Emit(codec, Arr(items), indent, k)))
  {
    var rest := Colon(indent) + Emit(codec, Arr(items), indent, k);
    assert "a"[1..] == "";
    assert Escape("a", rest) == EscapeChar('a') + Escape("", rest);
    assert Quote("a", rest) == "\"a\"" + rest;
  }

  lemma Indents()
    ensures Lead(-1) == "" && Lead(0) == "\n" && Lead(1) == "\n  " && Lead(2) == "\n    "
  {
    assert Spaces(2) == "  ";
    assert Spaces(4) == "    ";
  }

  function Sample<N>(): Value<N> {
    Obj([Member("a", Arr([Null, Bool(true)]))])
  }

  /** Prettified, every element stands on a line of its own, two blanks deeper than its bracket. */
  lemma PrettyLayout<N>(codec: Codec<N>)
    ensures Serialize(codec, Sample(), true) == "{\n  \"a\": [\n    null,\n    true\n  ]\n}\n"
  {
    Indents();
    var k := Lead(0) + (['}'] + "\n");
    OneMember(codec, 1, [Null, Bool(true)], k);
    TwoItems(codec, 2, Lead(1) + ([']'] + k));
    PrettyText();
  }

  lemma PrettyText()
    ensures ['{'] + ("\n  " + ("\"a\"" + (": " + (['['] + ("\n    " + ("null" + ([','] + ("\n    " + ("true"
              + ("\n  " + ([']'] + ("\n" + (['}'] + "\n")))))))))))))
         == "{\n  \"a\": [\n    null,\n    true\n  ]\n}\n"
  {
  }

  /** Compact, there is no blank at all. */
  lemma CompactLayout<N>(codec: Codec<N>)
    ensures Serialize(codec, Sample(), false) == "{\"a\":[null,true]}"
  {
    Indents();
    var k := Lead(-1) + (['}'] + "");
    OneMember(codec, -1, [Null, Bool(true)], k);
    TwoItems(codec, -1, Lead(-1) + ([']'] + k));
  }
}
