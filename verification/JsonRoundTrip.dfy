/** Parsing undoes serialization, compact or prettified, for every value. */
module JsonRoundTrip {
  import opened Prelude
  import opened Decimal
  import opened Json

  /** What may follow a value: something that does not continue a number. */
  predicate Delimited(post: string) {
    post == [] || !IsNumChar(post[0])
  }

  // ----- strings -------------------------------------------------------------

  lemma PlainChar(c: char, post: string, out: string)
    requires c >= ' ' && c != '"' && c != '\\'
    ensures ParseString([c] + post, out) == ParseString(post, out + [c])
  {
    assert ([c] + post)[1..] == post;
  }

  lemma ShortEscape(c: char, e: char, post: string, out: string)
    requires e != 'u' && Unescape(e) == Some(c)
    ensures ParseString(['\\', e] + post, out) == ParseString(post, out + [c])
  {
    assert (['\\', e] + post)[2..] == post;
  }

  lemma UnicodeEscape(t: string, u: string, post: string, out: string)
    requires Codepoint(t + post) == Ok(u, post)
    ensures ParseString(['\\', 'u'] + (t + post), out) == ParseString(post, out + u)
  {
    assert (['\\', 'u'] + (t + post))[2..] == t + post;
  }

  lemma ControlEscape(hi: nat, lo: nat, post: string, out: string)
    requires hi < 8 && lo < 16
    ensures ParseString("\\u00" + [HexDigit(hi), HexDigit(lo)] + post, out)
         == ParseString(post, out + [(hi * 16 + lo) as char])
  {
    var h := ['0', '0', HexDigit(hi), HexDigit(lo)];
    HexRoundTrip(hi, lo, post);
    UnicodeEscape(h, [(hi * 16 + lo) as char], post, out);
    EscapePrefix(HexDigit(hi), HexDigit(lo), post);
  }

  lemma EscapePrefix(a: char, b: char, post: string)
    ensures "\\u00" + [a, b] + post == ['\\', 'u'] + (['0', '0', a, b] + post)
  {
  }

  /** An escaped character is read back as itself, wherever it stands. */
  lemma CharRoundTrip(c: char, post: string, out: string)
    ensures ParseString(EscapeChar(c) + post, out) == ParseString(post, out + [c])
  {
    var e := EscapeChar(c);
    if |e| == 1 {
      PlainChar(c, post, out);
    } else if |e| == 2 {
      assert e == ['\\', e[1]];
      ShortEscape(c, e[1], post, out);
    } else {
      ControlRoundTrip(c, post, out);
    }
  }

  lemma ControlRoundTrip(c: char, post: string, out: string)
    requires c < ' ' || c == 0x7f as char
    ensures ParseString("\\u00" + [HexDigit(c as int / 16), HexDigit(c as int % 16)] + post, out)
         == ParseString(post, out + [c])
  {
    ControlEscape(c as int / 16, c as int % 16, post, out);
  }

  lemma HexRoundTrip(hi: nat, lo: nat, post: string)
    requires hi < 8 && lo < 16
    ensures Codepoint(['0', '0', HexDigit(hi), HexDigit(lo)] + post) == Ok(Utf8(hi * 16 + lo), post)
  {
    var s := ['0', '0', HexDigit(hi), HexDigit(lo)] + post;
    assert HexValue(HexDigit(hi)) == hi && HexValue(HexDigit(lo)) == lo;
    assert s[1..][1..][1..][1..] == post;
    assert s[1..][0] == '0' && s[1..][1..][0] == HexDigit(hi) && s[1..][1..][1..][0] == HexDigit(lo);
    assert QuadHex(s[1..][1..][1..], 3, hi) == QuadHex(post, 4, hi * 16 + lo);
    assert QuadHex(s[1..][1..], 2, 0) == QuadHex(s[1..][1..][1..], 3, hi);
    assert QuadHex(s, 0, 0) == QuadHex(s[1..][1..], 2, 0);
  }

  lemma ClosingQuote(post: string, out: string)
    ensures ParseString(['"'] + post, out) == Ok(out, post)
  {
    assert (['"'] + post)[1..] == post;
  }

  lemma MoveChar(out: string, s: string)
    requires s != []
    ensures out + [s[0]] + s[1..] == out + s
  {
  }

  lemma {:induction false} StringRoundTrip(s: string, post: string, out: string)
    ensures ParseString(Escape(s, post), out) == Ok(out + s, post)
    decreases |s|
  {
    if s == [] {
      ClosingQuote(post, out);
      assert out + s == out;
    } else {
      CharRoundTrip(s[0], Escape(s[1..], post), out);
      StringRoundTrip(s[1..], post, out + [s[0]]);
      MoveChar(out, s);
    }
  }

  // ----- white space ---------------------------------------------------------

  lemma SkipOne(c: char, x: string)
    requires IsWs(c)
    ensures SkipWs([c] + x) == SkipWs(x)
  {
    assert ([c] + x)[1..] == x;
  }

  lemma {:induction false} SkipSpaces(n: nat, x: string)
    ensures SkipWs(Spaces(n) + x) == SkipWs(x)
  {
    if n == 0 {
      assert Spaces(n) + x == x;
    } else {
      SkipSpaces(n - 1, x);
      assert Spaces(n) + x == [' '] + (Spaces(n - 1) + x);
      SkipOne(' ', Spaces(n - 1) + x);
    }
  }

  /** Indentation is white space. */
  lemma SkipLead(indent: int, x: string)
    requires indent >= -1
    ensures SkipWs(Lead(indent) + x) == SkipWs(x)
  {
    if indent == -1 {
      assert Lead(indent) + x == x;
    } else {
      var spaces := Spaces(2 * indent);
      SkipSpaces(2 * indent, x);
      assert Lead(indent) + x == ['\n'] + (spaces + x);
      SkipOne('\n', spaces + x);
    }
  }

  lemma SkipNone(c: char, x: string)
    requires !IsWs(c)
    ensures SkipWs([c] + x) == [c] + x
  {
  }

  lemma ExpectHere(c: char, x: string, expected: char)
    requires !IsWs(c)
    ensures Expect([c] + x, expected) == if c == expected then Ok((), x) else Err([c] + x)
  {
    assert ([c] + x)[1..] == x;
  }

  /** An expected character is found behind indentation, another one is left there. */
  lemma ExpectAfterLead(indent: int, c: char, x: string, expected: char)
    requires indent >= -1 && !IsWs(c)
    ensures Expect(Lead(indent) + ([c] + x), expected) == if c == expected then Ok((), x) else Err([c] + x)
  {
    SkipLead(indent, [c] + x);
    SkipNone(c, x);
    ExpectHere(c, x, expected);
  }

  lemma ParseAfterLead<N>(codec: Codec<N>, indent: int, x: string)
    requires indent >= -1
    ensures Parse(codec, Lead(indent) + x) == Parse(codec, x)
  {
    SkipLead(indent, x);
    ParseSkips(codec, Lead(indent) + x, x);
  }

  /** Parsing depends only on what follows the white space. */
  lemma ParseSkips<N>(codec: Codec<N>, s: string, t: string)
    requires SkipWs(s) == SkipWs(t)
    ensures Parse(codec, s) == Parse(codec, t)
    ensures forall done :: ParseItems(codec, s, done) == ParseItems(codec, t, done)
  {
  }

  // ----- leaves --------------------------------------------------------------

  lemma {:induction false} NumToken(t: string, post: string)
    requires (forall i :: 0 <= i < |t| ==> IsNumChar(t[i])) && Delimited(post)
    ensures NumLength(t + post) == |t|
    decreases |t|
  {
    if t == [] {
      assert t + post == post;
    } else {
      NumToken(t[1..], post);
      assert (t + post)[1..] == t[1..] + post;
    }
  }

  lemma {:induction false} WordRoundTrip<N>(w: string, post: string, v: Value<N>)
    ensures Word(w + post, w, v) == Ok(v, post)
    decreases |w|
  {
    if w == [] {
      assert w + post == post;
    } else {
      WordRoundTrip(w[1..], post, v);
      assert (w + post)[1..] == w[1..] + post;
    }
  }

  lemma NumRoundTrip<N(!new)>(codec: Codec<N>, n: N, post: string)
    requires Lawful(codec) && Delimited(post)
    ensures Parse(codec, codec.show(n) + post) == Ok(Num(n), post)
  {
    var t := codec.show(n);
    var s := t + post;
    NumToken(t, post);
    assert s[..|t|] == t && s[|t|..] == post;
    assert s == [s[0]] + s[1..];
    SkipNone(s[0], s[1..]);
    assert ParseNumber(codec, s) == Ok(Num(n), post);
    DispatchNumber(codec, s);
  }

  lemma DispatchNumber<N>(codec: Codec<N>, s: string)
    requires s != [] && StartsNumber(s[0]) && SkipWs(s) == s
    ensures Parse(codec, s) == ParseNumber(codec, s)
  {
  }

  /** What Parse does after a first character that is not white space. */
  lemma Dispatch<N>(codec: Codec<N>, c: char, x: string)
    ensures c == 'n' ==> Parse(codec, [c] + x) == Word(x, "ull", Null)
    ensures c == 'f' ==> Parse(codec, [c] + x) == Word(x, "alse", Bool(false))
    ensures c == 't' ==> Parse(codec, [c] + x) == Word(x, "rue", Bool(true))
    ensures c == '"' && ParseString(x, "").Ok? ==>
      Parse(codec, [c] + x) == Ok(Str(ParseString(x, "").v), ParseString(x, "").rest)
    ensures c == '[' ==>
      var r := Expect(x, ']');
      Parse(codec, [c] + x) == if r.Ok? then Ok(Arr([]), r.rest) else ParseItems(codec, r.rest, [])
    ensures c == '{' ==>
      var r := Expect(x, '}');
      Parse(codec, [c] + x) == if r.Ok? then Ok(Obj([]), r.rest) else ParseMembers(codec, r.rest, [])
  {
    if !IsWs(c) {
      SkipNone(c, x);
      assert ([c] + x)[1..] == x;
    }
  }

  lemma LeafRoundTrip<N(!new)>(codec: Codec<N>, v: Value<N>, indent: int, post: string)
    requires Lawful(codec) && indent >= -1 && Delimited(post) && (v.Null? || v.Bool? || v.Num? || v.Str?)
    ensures Parse(codec, Emit(codec, v, indent, post)) == Ok(v, post)
  {
    match v
    case Null =>
      WordRoundTrip("ull", post, v);
      Dispatch(codec, 'n', "ull" + post);
      assert "null" + post == ['n'] + ("ull" + post);
    case Bool(b) =>
      if b {
        WordRoundTrip("rue", post, v);
        Dispatch(codec, 't', "rue" + post);
        assert "true" + post == ['t'] + ("rue" + post);
      } else {
        WordRoundTrip("alse", post, v);
        Dispatch(codec, 'f', "alse" + post);
        assert "false" + post == ['f'] + ("alse" + post);
      }
    case Num(n) =>
      NumRoundTrip(codec, n, post);
    case Str(s) =>
      StringRoundTrip(s, post, "");
      Dispatch(codec, '"', Escape(s, post));
      assert "" + s == s;
  }

  // ----- arrays and objects --------------------------------------------------

  /** Serialized values do not start with white space or a closing bracket. */
  lemma EmitStart<N(!new)>(codec: Codec<N>, v: Value<N>, indent: int, post: string)
    requires Lawful(codec) && indent >= -1
    ensures var t := Emit(codec, v, indent, post); t != [] && !IsWs(t[0]) && t[0] != ']'
  {
    match v
    case Null =>
    case Bool(b) =>
    case Num(n) => assert StartsNumber(codec.show(n)[0]);
    case Str(s) =>
    case Arr(items) =>
    case Obj(ms) =>
  }

  /** The rest of an array or object after its last element. */
  function Close(indent: int, c: char, post: string): string
    requires indent >= -1
  {
    Lead(indent) + ([c] + post)
  }

  lemma CloseDelimited(indent: int, c: char, post: string)
    requires indent >= -1 && !IsNumChar(c)
    ensures Delimited(Close(indent, c, post))
  {
  }

  /** The item loop, one round: another item follows, or the bracket. */
  lemma NextItem<N>(codec: Codec<N>, s: string, v: Value<N>, rest: string, done: seq<Value<N>>)
    requires Parse(codec, s) == Ok(v, [','] + rest)
    ensures ParseItems(codec, s, done) == ParseItems(codec, rest, done + [v])
  {
    ExpectHere(',', rest, ',');
  }

  lemma LastItem<N>(codec: Codec<N>, s: string, v: Value<N>, outer: int, post: string, done: seq<Value<N>>)
    requires outer >= -1 && Parse(codec, s) == Ok(v, Close(outer, ']', post))
    ensures ParseItems(codec, s, done) == Ok(Arr(done + [v]), post)
  {
    ExpectAfterLead(outer, ']', post, ',');
    ExpectHere(']', post, ']');
  }

  /** A non-empty array starts the item loop. */
  lemma OpenArray<N>(codec: Codec<N>, indent: int, t: string)
    requires indent >= -1 && t != [] && !IsWs(t[0]) && t[0] != ']'
    ensures Parse(codec, ['['] + (Lead(indent) + t)) == ParseItems(codec, Lead(indent) + t, [])
  {
    Dispatch(codec, '[', Lead(indent) + t);
    assert t == [t[0]] + t[1..];
    ExpectAfterLead(indent, t[0], t[1..], ']');
    SkipLead(indent, t);
    SkipNone(t[0], t[1..]);
    ParseSkips(codec, t, Lead(indent) + t);
  }

  lemma MoveFirst<T>(done: seq<T>, xs: seq<T>)
    requires xs != []
    ensures done + [xs[0]] + xs[1..] == done + xs
    ensures |xs| == 1 ==> done + [xs[0]] == done + xs
  {
  }

  lemma {:induction false} ItemsRoundTrip<N(!new)>(codec: Codec<N>, items: seq<Value<N>>, indent: int, outer: int,
                                                   done: seq<Value<N>>, post: string)
    requires Lawful(codec) && indent >= -1 && outer >= -1 && items != []
    requires forall x :: x in items ==> WellFormed(x)
    ensures ParseItems(codec, EmitItems(codec, items, indent, Close(outer, ']', post)), done)
         == Ok(Arr(done + items), post)
    decreases items, 0
  {
    var close := Close(outer, ']', post);
    if |items| == 1 {
      CloseDelimited(outer, ']', post);
      var t := Emit(codec, items[0], indent, close);
      ValueRoundTrip(codec, items[0], indent, close);
      ParseAfterLead(codec, indent, t);
      LastItem(codec, Lead(indent) + t, items[0], outer, post, done);
      MoveFirst(done, items);
    } else {
      var rest := EmitItems(codec, items[1..], indent, close);
      var t := Emit(codec, items[0], indent, [','] + rest);
      ValueRoundTrip(codec, items[0], indent, [','] + rest);
      ParseAfterLead(codec, indent, t);
      NextItem(codec, Lead(indent) + t, items[0], rest, done);
      ItemsRoundTrip(codec, items[1..], indent, outer, done + [items[0]], post);
      MoveFirst(done, items);
    }
  }

  /** The member loop: key, colon and white space, value. */
  lemma KeyRoundTrip(indent: int, key: string, x: string)
    requires indent >= -1
    ensures ParseKey(Lead(indent) + Quote(key, [':'] + x)) == Ok(key, x)
  {
    ExpectAfterLead(indent, '"', Escape(key, [':'] + x), '"');
    StringRoundTrip(key, [':'] + x, "");
    ExpectHere(':', x, ':');
    assert "" + key == key;
  }

  lemma NextMember<N>(codec: Codec<N>, s: string, key: string, t: string, v: Value<N>, rest: string,
                      done: seq<Member<N>>)
    requires ParseKey(s) == Ok(key, t) && Parse(codec, t) == Ok(v, [','] + rest)
    ensures ParseMembers(codec, s, done) == ParseMembers(codec, rest, Insert(done, key, v))
  {
    ExpectHere(',', rest, ',');
  }

  lemma LastMember<N>(codec: Codec<N>, s: string, key: string, t: string, v: Value<N>, outer: int, post: string,
                      done: seq<Member<N>>)
    requires outer >= -1 && ParseKey(s) == Ok(key, t) && Parse(codec, t) == Ok(v, Close(outer, '}', post))
    ensures ParseMembers(codec, s, done) == Ok(Obj(Insert(done, key, v)), post)
  {
    ExpectAfterLead(outer, '}', post, ',');
    ExpectHere('}', post, '}');
  }

  lemma OpenObject<N>(codec: Codec<N>, indent: int, t: string)
    requires indent >= -1
    ensures Parse(codec, ['{'] + (Lead(indent) + (['"'] + t))) == ParseMembers(codec, Lead(indent) + (['"'] + t), [])
  {
    var s := Lead(indent) + (['"'] + t);
    Dispatch(codec, '{', s);
    ExpectAfterLead(indent, '"', t, '}');
    ExpectAfterLead(indent, '"', t, '"');
    ExpectHere('"', t, '"');
    MembersSkip(codec, s, ['"'] + t);
  }

  lemma MembersSkip<N>(codec: Codec<N>, s: string, t: string)
    requires Expect(s, '"') == Expect(t, '"')
    ensures ParseMembers(codec, s, []) == ParseMembers(codec, t, [])
  {
    assert ParseKey(s) == ParseKey(t);
  }

  /** A colon, and a space in prettified form, before a value. */
  lemma ParseAfterColon<N>(codec: Codec<N>, indent: int, t: string)
    ensures exists x :: Colon(indent) + t == [':'] + x && Parse(codec, x) == Parse(codec, t)
  {
    if indent == -1 {
      assert Colon(indent) + t == [':'] + t;
    } else {
      assert Colon(indent) + t == [':'] + ([' '] + t);
      SkipOne(' ', t);
      ParseSkips(codec, [' '] + t, t);
    }
  }

  lemma {:induction false} MembersRoundTrip<N(!new)>(codec: Codec<N>, ms: seq<Member<N>>, indent: int, outer: int,
                                                     done: seq<Member<N>>, post: string)
    requires Lawful(codec) && indent >= -1 && outer >= -1 && ms != []
    requires Sorted(done + ms) && forall m :: m in ms ==> WellFormed(m.value)
    ensures ParseMembers(codec, EmitMembers(codec, ms, indent, Close(outer, '}', post)), done)
         == Ok(Obj(done + ms), post)
    decreases ms, 0
  {
    var close, key, v := Close(outer, '}', post), ms[0].key, ms[0].value;
    var tail := if |ms| == 1 then close else [','] + EmitMembers(codec, ms[1..], indent, close);
    CloseDelimited(outer, '}', post);
    var t := Emit(codec, v, indent, tail);
    ValueRoundTrip(codec, v, indent, tail);
    ParseAfterColon(codec, indent, t);
    var x :| Colon(indent) + t == [':'] + x && Parse(codec, x) == Parse(codec, t);
    KeyRoundTrip(indent, key, x);
    var s := Lead(indent) + Quote(key, [':'] + x);
    InsertNext(done, ms);
    MoveFirst(done, ms);
    if |ms| == 1 {
      LastMember(codec, s, key, x, v, outer, post, done);
    } else {
      NextMember(codec, s, key, x, v, EmitMembers(codec, ms[1..], indent, close), done);
      MembersRoundTrip(codec, ms[1..], indent, outer, done + [ms[0]], post);
    }
  }

  lemma InsertNext<N>(done: seq<Member<N>>, ms: seq<Member<N>>)
    requires ms != [] && Sorted(done + ms)
    ensures Insert(done, ms[0].key, ms[0].value) == done + [ms[0]]
  {
    forall i | 0 <= i < |done|
      ensures Less(done[i].key, ms[0].key)
    {
      assert (done + ms)[i] == done[i] && (done + ms)[|done|] == ms[0];
    }
    InsertLast(done, ms[0].key, ms[0].value);
  }

  lemma EmptyRoundTrip<N>(codec: Codec<N>, v: Value<N>, indent: int, post: string)
    requires indent >= -1 && (v == Arr([]) || v == Obj([]))
    ensures Parse(codec, Emit(codec, v, indent, post)) == Ok(v, post)
  {
    var open, close := if v.Arr? then '[' else '{', if v.Arr? then ']' else '}';
    Dispatch(codec, open, [close] + post);
    ExpectHere(close, post, close);
  }

  /** A serialized value is parsed back, and parsing stops right after it. */
  lemma {:induction false} ValueRoundTrip<N(!new)>(codec: Codec<N>, v: Value<N>, indent: int, post: string)
    requires Lawful(codec) && WellFormed(v) && indent >= -1 && Delimited(post)
    ensures Parse(codec, Emit(codec, v, indent, post)) == Ok(v, post)
    decreases v, 1
  {
    match v
    case Arr(items) =>
      if items != [] {
        ArrayRoundTrip(codec, items, indent, post);
      } else {
        EmptyRoundTrip(codec, v, indent, post);
      }
    case Obj(ms) =>
      if ms != [] {
        ObjectRoundTrip(codec, ms, indent, post);
      } else {
        EmptyRoundTrip(codec, v, indent, post);
      }
    case _ =>
      LeafRoundTrip(codec, v, indent, post);
  }

  lemma {:induction false} ArrayRoundTrip<N(!new)>(codec: Codec<N>, items: seq<Value<N>>, indent: int, post: string)
    requires Lawful(codec) && indent >= -1 && items != [] && forall x :: x in items ==> WellFormed(x)
    ensures Parse(codec, Emit(codec, Arr(items), indent, post)) == Ok(Arr(items), post)
    decreases items, 1
  {
    var ind := Deeper(indent);
    var t := ArrayShape(codec, items, indent, post);
    OpenArray(codec, ind, t);
    ItemsRoundTrip(codec, items, ind, indent, [], post);
    assert [] + items == items;
  }

  /** How a nonempty array begins. */
  lemma ArrayShape<N(!new)>(codec: Codec<N>, items: seq<Value<N>>, indent: int, post: string) returns (t: string)
    requires Lawful(codec) && indent >= -1 && items != []
    ensures EmitItems(codec, items, Deeper(indent), Close(indent, ']', post)) == Lead(Deeper(indent)) + t
    ensures Emit(codec, Arr(items), indent, post) == ['['] + (Lead(Deeper(indent)) + t)
    ensures t != [] && !IsWs(t[0]) && t[0] != ']'
  {
    var ind, close := Deeper(indent), Close(indent, ']', post);
    var rest := if |items| == 1 then close else [','] + EmitItems(codec, items[1..], ind, close);
    EmitStart(codec, items[0], ind, rest);
    t := Emit(codec, items[0], ind, rest);
  }

  lemma {:induction false} ObjectRoundTrip<N(!new)>(codec: Codec<N>, ms: seq<Member<N>>, indent: int, post: string)
    requires Lawful(codec) && indent >= -1 && ms != [] && Sorted(ms) && forall m :: m in ms ==> WellFormed(m.value)
    ensures Parse(codec, Emit(codec, Obj(ms), indent, post)) == Ok(Obj(ms), post)
    decreases ms, 1
  {
    var ind := Deeper(indent);
    var t := ObjectShape(codec, ms, indent, post);
    OpenObject(codec, ind, t);
    assert [] + ms == ms;
    MembersRoundTrip(codec, ms, ind, indent, [], post);
  }

  /** How a nonempty object begins. */
  lemma ObjectShape<N>(codec: Codec<N>, ms: seq<Member<N>>, indent: int, post: string) returns (t: string)
    requires indent >= -1 && ms != []
    ensures EmitMembers(codec, ms, Deeper(indent), Close(indent, '}', post)) == Lead(Deeper(indent)) + (['"'] + t)
    ensures Emit(codec, Obj(ms), indent, post) == ['{'] + (Lead(Deeper(indent)) + (['"'] + t))
  {
    var ind, close := Deeper(indent), Close(indent, '}', post);
    var rest := if |ms| == 1 then close else [','] + EmitMembers(codec, ms[1..], ind, close);
    t := Escape(ms[0].key, Colon(ind) + Emit(codec, ms[0].value, ind, rest));
  }

  /** The promise of the library: parsing what was serialized, compact or prettified,
      gives the value back.  Only the final line break is left unread. */
  lemma RoundTrip<N(!new)>(codec: Codec<N>, v: Value<N>, prettify: bool)
    requires Lawful(codec) && WellFormed(v)
    ensures Parse(codec, Serialize(codec, v, prettify)) == Ok(v, if prettify then "\n" else "")
  {
    if prettify {
      ValueRoundTrip(codec, v, 0, "\n");
    } else {
      ValueRoundTrip(codec, v, -1, "");
    }
  }

  // ----- what the parser returns ---------------------------------------------

  /** Whatever the input, a parsed value's objects are maps: keys in order, each once. */
  lemma {:induction false} ParseWellFormed<N>(codec: Codec<N>, s: string)
    requires Parse(codec, s).Ok?
    ensures WellFormed(Parse(codec, s).v)
    decreases |s|, 0
  {
    var q := SkipWs(s);
    if q[0] == '[' && Expect(q[1..], ']').Err? {
      ItemsWellFormed(codec, Expect(q[1..], ']').rest, []);
    } else if q[0] == '{' && Expect(q[1..], '}').Err? {
      MembersWellFormed(codec, Expect(q[1..], '}').rest, []);
    }
  }

  lemma {:induction false} ItemsWellFormed<N>(codec: Codec<N>, s: string, items: seq<Value<N>>)
    requires ParseItems(codec, s, items).Ok? && forall x :: x in items ==> WellFormed(x)
    ensures WellFormed(ParseItems(codec, s, items).v)
    decreases |s|, 1
  {
    ParseWellFormed(codec, s);
    var r := Parse(codec, s);
    if Expect(r.rest, ',').Ok? {
      ItemsWellFormed(codec, Expect(r.rest, ',').rest, items + [r.v]);
    }
  }

  lemma {:induction false} MembersWellFormed<N>(codec: Codec<N>, s: string, ms: seq<Member<N>>)
    requires ParseMembers(codec, s, ms).Ok? && Sorted(ms) && forall m :: m in ms ==> WellFormed(m.value)
    ensures WellFormed(ParseMembers(codec, s, ms).v)
    decreases |s|, 1
  {
    var k := ParseKey(s);
    ParseWellFormed(codec, k.rest);
    var r := Parse(codec, k.rest);
    InsertIsUpdate(ms, k.v, r.v);
    if Expect(r.rest, ',').Ok? {
      MembersWellFormed(codec, Expect(r.rest, ',').rest, Insert(ms, k.v, r.v));
    }
  }

  /** Normalizing: a text that parses, serialized again, parses to the same value. */
  lemma ParseIsStable<N(!new)>(codec: Codec<N>, s: string, prettify: bool)
    requires Lawful(codec) && Parse(codec, s).Ok?
    ensures var v := Parse(codec, s).v;
      Parse(codec, Serialize(codec, v, prettify)) == Ok(v, if prettify then "\n" else "")
  {
    ParseWellFormed(codec, s);
    RoundTrip(codec, Parse(codec, s).v, prettify);
  }

  // ----- integers ------------------------------------------------------------

  /** Integers a double holds exactly; to_str prints them without a fraction. */
  type Exact = n: int | -0x20000000000000 < n < 0x20000000000000

  function ShowInt(n: Exact): string {
    if n < 0 then ['-'] + Digits(-n) else Digits(n)
  }

  /** strtod on integers of this range. */
  function ScanInt(t: string): Option<Exact> {
    if t == [] then None
    else if t[0] == '-' then
      var v := DigitsValue(t[1..]);
      if |t| > 1 && 0 <= v < 0x20000000000000 then Some(-v) else None
    else
      var v := DigitsValue(t);
      if 0 <= v < 0x20000000000000 then Some(v) else None
  }

  const INTEGERS: Codec<Exact> := Codec(n => ShowInt(n), t => ScanInt(t))

  lemma IntegersLawful()
    ensures Lawful(INTEGERS)
  {
    forall n: Exact
      ensures var t := INTEGERS.show(n);
        && t != [] && StartsNumber(t[0]) && (forall i :: 0 <= i < |t| ==> IsNumChar(t[i]))
        && INTEGERS.scan(t) == Some(n)
    {
      DigitsRoundTrip(if n < 0 then -n else n);
      if n < 0 {
        assert ShowInt(n)[1..] == Digits(-n);
      }
    }
  }
}
