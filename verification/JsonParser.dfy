/** The picojson parser and serializer as they run: a cursor with one character of
    push-back, recursive descent, and output appended piece by piece. */
module JsonParser {
  import J = Json

  function Newlines(s: string): nat {
    if s == [] then 0 else Newlines(s[..|s| - 1]) + if s[|s| - 1] == '\n' then 1 else 0
  }

  /** One more character of a number. */
  lemma NumberGrows(s: string, i: nat)
    requires i < |s|
    ensures s[..i + 1] == s[..i] + [s[i]] && s[i..][1..] == s[i + 1..] && s[i..][0] == s[i]
    ensures J.NumLength(s[i..]) == if J.IsNumChar(s[i]) then 1 + J.NumLength(s[i + 1..]) else 0
  {
  }

  class Input {
    const text: string
    var cur: nat
    var consumed: bool
    var line: nat

    constructor (text: string)
      ensures Valid() && Rest() == text && this.text == text
    {
      this.text, cur, consumed, line := text, 0, false, 1;
    }

    /** line counts the line breaks before the cursor. */
    ghost predicate Valid()
      reads this
    {
      cur <= |text| && (consumed ==> cur < |text|) && line == 1 + Newlines(text[..cur])
    }

    function Pos(): nat
      reads this
    {
      if consumed then cur + 1 else cur
    }

    ghost function Rest(): string
      reads this
      requires Valid()
    {
      text[Pos()..]
    }

    /** Next character, or -1 at the end; the cursor stays on it so it can be given back. */
    method GetC() returns (c: int)
      requires Valid()
      modifies this
      ensures Valid() && cur == old(Pos())
      ensures old(Rest()) == [] ==> c == -1 && Rest() == []
      ensures old(Rest()) != [] ==> c == old(Rest())[0] as int && Rest() == old(Rest())[1..]
    {
      if consumed {
        assert text[..cur + 1][..cur] == text[..cur];
        if text[cur] == '\n' {
          line := line + 1;
        }
        cur := cur + 1;
      }
      if cur == |text| {
        consumed := false;
        return -1;
      }
      consumed := true;
      assert text[cur..][1..] == text[cur + 1..];
      c := text[cur] as int;
    }

    method UngetC()
      requires Valid()
      modifies this
      ensures Valid() && cur == old(cur) && Pos() == cur
    {
      consumed := false;
    }

    method SkipWs()
      requires Valid()
      modifies this
      ensures Valid() && Rest() == J.SkipWs(old(Rest()))
    {
      while true
        invariant Valid() && J.SkipWs(Rest()) == J.SkipWs(old(Rest()))
        decreases |Rest()|
      {
        ghost var before := Rest();
        var ch := GetC();
        if !(ch == ' ' as int || ch == '\t' as int || ch == '\n' as int || ch == '\r' as int) {
          UngetC();
          return;
        }
      }
    }

    method Expect(expected: char) returns (ok: bool)
      requires Valid()
      modifies this
      ensures Valid()
      ensures var r := J.Expect(old(Rest()), expected); ok == r.Ok? && Rest() == r.rest
    {
      SkipWs();
      var ch := GetC();
      if ch != expected as int {
        UngetC();
        return false;
      }
      ok := true;
    }

    method Match(pattern: string) returns (ok: bool)
      requires Valid()
      modifies this
      ensures Valid()
      ensures var r := J.Match(old(Rest()), pattern); ok == r.Ok? && Rest() == r.rest
    {
      for i := 0 to |pattern|
        invariant Valid() && J.Match(Rest(), pattern[i..]) == J.Match(old(Rest()), pattern)
      {
        var ch := GetC();
        assert pattern[i..][1..] == pattern[i + 1..];
        if ch != pattern[i] as int {
          UngetC();
          return false;
        }
      }
      ok := true;
    }

    /** The value of one hexadecimal digit, or -1; a character that is none is given back. */
    method HexDigit() returns (h: int)
      requires Valid()
      modifies this
      ensures Valid()
      ensures var s := old(Rest());
        if s == [] then h == -1 && Rest() == []
        else if J.HexValue(s[0]) < 0 then h == -1 && Rest() == s
        else h == J.HexValue(s[0]) && Rest() == s[1..]
    {
      h := GetC();
      if h == -1 {
        return -1;
      }
      if '0' as int <= h <= '9' as int {
        h := h - '0' as int;
      } else if 'A' as int <= h <= 'F' as int {
        h := h - ('A' as int - 10);
      } else if 'a' as int <= h <= 'f' as int {
        h := h - ('a' as int - 10);
      } else {
        UngetC();
        h := -1;
      }
    }

    /** After k digits with value u, what is left to read decides the outcome. */
    ghost predicate HexLeft(k: nat, u: nat, all: J.Res<nat>)
      reads this
      requires Valid()
    {
      k <= 4 && J.QuadHex(Rest(), k, u) == all
    }

    /** One more digit behind the value u of the first k, or -1. */
    method NextHex(ghost k: nat, u: int, ghost all: J.Res<nat>) returns (v: int)
      requires Valid() && k < 4 && u >= 0 && HexLeft(k, u, all)
      modifies this
      ensures Valid()
      ensures v >= 0 ==> HexLeft(k + 1, v, all)
      ensures v < 0 ==> v == -1 && all == J.Err(Rest())
    {
      J.QuadHexStep(Rest(), k, u);
      v := HexDigit();
      if v >= 0 {
        v := u * 16 + v;
      }
    }

    /** Four hexadecimal digits, or -1. */
    method QuadHex() returns (u: int)
      requires Valid()
      modifies this
      ensures Valid()
      ensures var r := J.QuadHex(old(Rest()), 0, 0); Rest() == r.rest && u == if r.Ok? then r.v else -1
    {
      u := 0;
      ghost var all := J.QuadHex(Rest(), 0, 0);
      for i := 0 to 4
        invariant Valid() && u >= 0 && HexLeft(i, u, all)
      {
        u := NextHex(i, u, all);
        if u < 0 {
          return -1;
        }
      }
      J.QuadHexEnd(Rest(), u);
    }

    method Codepoint() returns (ok: bool, out: string)
      requires Valid()
      modifies this
      ensures Valid()
      ensures var r := J.Codepoint(old(Rest())); ok == r.Ok? && Rest() == r.rest && (ok ==> out == r.v)
    {
      var u := QuadHex();
      if u == -1 {
        return false, "";
      }
      if 0xd800 <= u <= 0xdfff {
        if 0xdc00 <= u {
          return false, "";
        }
        var escape := SurrogateEscape();
        if !escape {
          return false, "";
        }
        ok, out := LowSurrogate(u);
        return;
      }
      ok, out := true, J.Utf8(u);
    }

    /** The second half of a surrogate pair. */
    method LowSurrogate(u: int) returns (ok: bool, out: string)
      requires Valid() && 0xd800 <= u < 0xdc00
      modifies this
      ensures Valid()
      ensures var r := J.LowSurrogate(u, old(Rest())); ok == r.Ok? && Rest() == r.rest && (ok ==> out == r.v)
    {
      var second := QuadHex();
      if !(0xdc00 <= second <= 0xdfff) {
        return false, "";
      }
      ok, out := true, J.Utf8((u - 0xd800) * 1024 + (second - 0xdc00) + 0x10000);
    }

    /** The backslash and u between two surrogates. */
    method SurrogateEscape() returns (ok: bool)
      requires Valid()
      modifies this
      ensures Valid()
      ensures var s := old(Rest());
        if s == [] || s[0] != '\\' then !ok && Rest() == s
        else if s[1..] == [] || s[1] != 'u' then !ok && Rest() == s[1..]
        else ok && Rest() == s[2..]
    {
      ghost var s := Rest();
      var c := GetC();
      if c != '\\' as int {
        UngetC();
        return false;
      }
      assert |s| > 1 ==> s[1..][1..] == s[2..];
      c := GetC();
      if c != 'u' as int {
        UngetC();
        return false;
      }
      ok := true;
    }

    method ParseString() returns (ok: bool, out: string)
      requires Valid()
      modifies this
      ensures Valid()
      ensures var r := J.ParseString(old(Rest()), ""); ok == r.Ok? && Rest() == r.rest && (ok ==> out == r.v)
    {
      out := "";
      while true
        invariant Valid() && J.ParseString(Rest(), out) == J.ParseString(old(Rest()), "")
        decreases |Rest()|
      {
        ghost var s := Rest();
        var ch := GetC();
        if ch < ' ' as int {
          UngetC();
          return false, out;
        } else if ch == '"' as int {
          return true, out;
        } else if ch == '\\' as int {
          assert |s| > 1 ==> s[1..][1..] == s[2..];
          var good;
          good, out := ParseEscape(s, out);
          if !good {
            return false, out;
          }
        } else {
          out := out + [ch as char];
        }
      }
    }

    /** What follows a backslash; s is the input from the backslash on. */
    method ParseEscape(ghost s: string, out0: string) returns (ok: bool, out: string)
      requires Valid() && s != [] && s[0] == '\\' && Rest() == s[1..]
      modifies this
      ensures Valid() && |Rest()| <= |old(Rest())|
      ensures if ok then J.ParseString(Rest(), out) == J.ParseString(s, out0)
              else J.ParseString(s, out0) == J.Err(Rest())
    {
      assert |s| > 1 ==> s[1..][1..] == s[2..];
      var ch := GetC();
      if ch == -1 {
        return false, out0;
      }
      if ch == 'u' as int {
        var good, t := Codepoint();
        return good, if good then out0 + t else out0;
      }
      var c := J.Unescape(ch as char);
      match c {
        case None => return false, out0;
        case Some(x) => return true, out0 + [x];
      }
    }

    /** t is what was read of a number at the start of s. */
    ghost predicate NumberSoFar(s: string, t: string)
      reads this
      requires Valid()
    {
      && |t| <= |s| && t == s[..|t|] && Rest() == s[|t|..]
      && |t| + J.NumLength(s[|t|..]) == J.NumLength(s)
    }

    /** The characters of a number. */
    method NumberText() returns (t: string)
      requires Valid()
      modifies this
      ensures Valid()
      ensures var n := J.NumLength(old(Rest())); t == old(Rest())[..n] && Rest() == old(Rest())[n..]
    {
      ghost var s := Rest();
      t := "";
      while true
        invariant Valid() && NumberSoFar(s, t)
        decreases |Rest()|
      {
        if |t| < |s| {
          NumberGrows(s, |t|);
        }
        var ch := GetC();
        if ('0' as int <= ch <= '9' as int) || ch == '+' as int || ch == '-' as int || ch == 'e' as int
           || ch == 'E' as int || ch == '.' as int {
          t := t + [ch as char];
        } else {
          UngetC();
          return;
        }
      }
    }

    /** The branches of _parse for values without parts; ch was read from q. */
    method ParseLeaf<N>(codec: J.Codec<N>, ch: int, ghost q: string) returns (ok: bool, v: J.Value<N>)
      requires Valid() && cur + |q| == |text| && q == text[cur..]
      requires if q == [] then ch == -1 && Rest() == [] else ch == q[0] as int && Rest() == q[1..]
      modifies this
      ensures Valid()
      ensures var r := J.ParseLeaf(codec, q); ok == r.Ok? && Rest() == r.rest && (ok ==> v == r.v)
    {
      v := J.Null;
      if ch == 'n' as int {
        ok := Match("ull");
      } else if ch == 'f' as int {
        ok := Match("alse");
        v := J.Bool(false);
      } else if ch == 't' as int {
        ok := Match("rue");
        v := J.Bool(true);
      } else if ch == '"' as int {
        var s;
        ok, s := ParseString();
        v := J.Str(s);
      } else {
        UngetC();
        ok := false;
        if ('0' as int <= ch <= '9' as int) || ch == '-' as int {
          var t := NumberText();
          var x := codec.scan(t);
          if x.Some? {
            ok, v := true, J.Num(x.value);
          }
        }
      }
    }

    /** _parse: every text is accepted or rejected as the grammar function says, and the
        cursor ends where it says, also on errors. */
    method ParseValue<N>(codec: J.Codec<N>) returns (ok: bool, v: J.Value<N>)
      requires Valid()
      modifies this
      ensures Valid()
      ensures var r := J.Parse(codec, old(Rest())); ok == r.Ok? && Rest() == r.rest && (ok ==> v == r.v)
      decreases |text| - Pos(), 0
    {
      SkipWs();
      ghost var q := Rest();
      var ch := GetC();
      if ch == '[' as int {
        ok, v := ParseArray(codec);
      } else if ch == '{' as int {
        ok, v := ParseObject(codec);
      } else {
        ok, v := ParseLeaf(codec, ch, q);
      }
    }

    method ParseArray<N>(codec: J.Codec<N>) returns (ok: bool, v: J.Value<N>)
      requires Valid() && consumed
      modifies this
      ensures Valid()
      ensures var e := J.Expect(old(Rest()), ']');
        var r := if e.Ok? then J.Ok(J.Arr([]), e.rest) else J.ParseItems(codec, e.rest, []);
        ok == r.Ok? && Rest() == r.rest && (ok ==> v == r.v)
      decreases |text| - Pos(), 2
    {
      v := J.Null;
      var close := Expect(']');
      if close {
        return true, J.Arr([]);
      }
      ghost var s := Rest();
      var items := [];
      while true
        invariant Valid() && |Rest()| <= |s| && J.ParseItems(codec, Rest(), items) == J.ParseItems(codec, s, [])
        decreases |Rest()|
      {
        var item;
        ok, item := ParseValue(codec);
        if !ok {
          return false, v;
        }
        items := items + [item];
        var comma := Expect(',');
        if !comma {
          ok := Expect(']');
          return ok, J.Arr(items);
        }
      }
    }

    method ParseObject<N>(codec: J.Codec<N>) returns (ok: bool, v: J.Value<N>)
      requires Valid() && consumed
      modifies this
      ensures Valid()
      ensures var e := J.Expect(old(Rest()), '}');
        var r := if e.Ok? then J.Ok(J.Obj([]), e.rest) else J.ParseMembers(codec, e.rest, []);
        ok == r.Ok? && Rest() == r.rest && (ok ==> v == r.v)
      decreases |text| - Pos(), 2
    {
      v := J.Null;
      var close := Expect('}');
      if close {
        return true, J.Obj([]);
      }
      ghost var s := Rest();
      var members := [];
      while true
        invariant Valid() && |Rest()| <= |s| && J.ParseMembers(codec, Rest(), members) == J.ParseMembers(codec, s, [])
        decreases |Rest()|
      {
        var key, item;
        ok, key := ParseKey();
        if !ok {
          return false, v;
        }
        ok, item := ParseValue(codec);
        if !ok {
          return false, v;
        }
        members := J.Insert(members, key, item);
        var comma := Expect(',');
        if !comma {
          ok := Expect('}');
          return ok, J.Obj(members);
        }
      }
    }

    method ParseKey() returns (ok: bool, key: string)
      requires Valid()
      modifies this
      ensures Valid()
      ensures var r := J.ParseKey(old(Rest())); ok == r.Ok? && Rest() == r.rest && (ok ==> key == r.v)
    {
      key := "";
      ok := Expect('"');
      if ok {
        ok, key := ParseString();
        if ok {
          ok := Expect(':');
        }
      }
    }
  }

  // ----- serializer ----------------------------------------------------------

  /** serialize_str: appends to out.  In each of these methods k stands for whatever is
      appended later. */
  method SerializeStr(s: string, out0: string, ghost k: string) returns (out: string)
    ensures out + k == out0 + J.Quote(s, k)
  {
    out := out0 + "\"";
    for i := 0 to |s|
      invariant out + J.Escape(s[i..], k) == out0 + J.Quote(s, k)
    {
      assert s[i..][1..] == s[i + 1..];
      Regroup(out, J.EscapeChar(s[i]), J.Escape(s[i + 1..], k));
      out := out + J.EscapeChar(s[i]);
    }
    out := out + "\"";
  }

  lemma Regroup(a: string, b: string, c: string)
    ensures (a + b) + c == a + (b + c)
  {
  }

  lemma Neutral(t: string)
    ensures t + "" == t && "" + t == t
  {
  }

  /** _indent. */
  method Indent(out0: string, indent: int, ghost k: string) returns (out: string)
    requires indent >= 0
    ensures out + k == out0 + (J.Lead(indent) + k)
  {
    out := out0 + "\n";
    var spaces := "";
    for i := 0 to 2 * indent
      invariant spaces == J.Spaces(i)
    {
      SpacesEnd(i);
      spaces := spaces + " ";
    }
    Regroup(out0, "\n", spaces);
    Regroup(out0, "\n" + spaces, k);
    out := out + spaces;
  }

  lemma {:induction false} SpacesEnd(n: nat)
    ensures J.Spaces(n) + " " == J.Spaces(n + 1)
  {
    if n > 0 {
      SpacesEnd(n - 1);
      Regroup(" ", J.Spaces(n - 1), " ");
    }
  }

  /** What _serialize adds after a top-level value. */
  function Final(indent: int, k: string): string {
    if indent == 0 then "\n" + k else k
  }

  /** _serialize. */
  method SerializeTo<N>(codec: J.Codec<N>, v: J.Value<N>, indent: int, out0: string, ghost k: string)
    returns (out: string)
    requires indent >= -1
    ensures out + k == out0 + J.Emit(codec, v, indent, Final(indent, k))
    decreases v, 1
  {
    ghost var k' := Final(indent, k);
    match v {
      case Str(s) => out := SerializeStr(s, out0, k');
      case Arr(items) => out := SerializeItems(codec, items, indent, out0, k');
      case Obj(ms) => out := SerializeMembers(codec, ms, indent, out0, k');
      case Null => Regroup(out0, "null", k'); out := out0 + "null";
      case Bool(b) =>
        var t := if b then "true" else "false";
        Regroup(out0, t, k');
        out := out0 + t;
      case Num(n) =>
        Regroup(out0, codec.show(n), k');
        out := out0 + codec.show(n);
    }
    if indent == 0 {
      Regroup(out, "\n", k);
      out := out + "\n";
    }
  }

  /** Comma and indentation before element i. */
  function Separated(i: nat, indent: int, x: string): string
    requires indent >= -1
  {
    if i == 0 then J.Lead(indent) + x else [','] + (J.Lead(indent) + x)
  }

  method Separate(i: nat, indent: int, out0: string, ghost x: string) returns (out: string)
    requires indent >= -1
    ensures out + x == out0 + Separated(i, indent, x)
  {
    out := out0;
    if i != 0 {
      Regroup(out, [','], J.Lead(indent) + x);
      out := out + ",";
    }
    if indent != -1 {
      out := Indent(out, indent, x);
    } else {
      assert J.Lead(indent) + x == x;
    }
  }

  /** Indentation before a closing bracket, unless nothing precedes it. */
  function Closing(empty: bool, indent: int, c: char, k: string): string
    requires indent >= -1
  {
    if empty then [c] + k else J.Lead(indent) + ([c] + k)
  }

  method CloseWith(empty: bool, indent: int, c: char, out0: string, ghost k: string) returns (out: string)
    requires indent >= -1
    ensures out + k == out0 + Closing(empty, indent, c, k)
  {
    out := out0;
    if indent != -1 {
      if !empty {
        out := Indent(out, indent, [c] + k);
      }
    } else {
      assert J.Lead(indent) + ([c] + k) == [c] + k;
    }
    Regroup(out, [c], k);
    out := out + [c];
  }

  /** The part of the output from item i on. */
  ghost function ItemsFrom<N>(codec: J.Codec<N>, items: seq<J.Value<N>>, i: nat, indent: int, k: string): string
    requires i <= |items| && indent >= -1
    decreases |items| - i
  {
    if i == |items| then k
    else Separated(i, indent, J.Emit(codec, items[i], indent, ItemsFrom(codec, items, i + 1, indent, k)))
  }

  lemma {:induction false} ItemsFromIs<N>(codec: J.Codec<N>, items: seq<J.Value<N>>, i: nat, indent: int, k: string)
    requires i < |items| && indent >= -1
    ensures var t := J.EmitItems(codec, items[i..], indent, k);
      ItemsFrom(codec, items, i, indent, k) == if i == 0 then t else [','] + t
    decreases |items| - i
  {
    if i + 1 < |items| {
      ItemsFromIs(codec, items, i + 1, indent, k);
      assert items[i..][1..] == items[i + 1..];
    }
  }

  method SerializeItem<N>(codec: J.Codec<N>, items: seq<J.Value<N>>, i: nat, indent: int, out0: string, ghost k: string)
    returns (out: string)
    requires i < |items| && indent >= -1 && indent != 0
    ensures out + ItemsFrom(codec, items, i + 1, indent, k) == out0 + ItemsFrom(codec, items, i, indent, k)
    decreases items, 0
  {
    ghost var rest := ItemsFrom(codec, items, i + 1, indent, k);
    out := Separate(i, indent, out0, J.Emit(codec, items[i], indent, rest));
    out := SerializeTo(codec, items[i], indent, out, rest);
  }

  method SerializeItemList<N>(codec: J.Codec<N>, items: seq<J.Value<N>>, indent: int, out0: string, ghost k: string)
    returns (out: string)
    requires indent >= -1 && indent != 0
    ensures out + k == out0 + ItemsFrom(codec, items, 0, indent, k)
    decreases items, 1
  {
    out := out0;
    for i := 0 to |items|
      invariant out + ItemsFrom(codec, items, i, indent, k) == out0 + ItemsFrom(codec, items, 0, indent, k)
    {
      out := SerializeItem(codec, items, i, indent, out, k);
    }
  }

  method SerializeItems<N>(codec: J.Codec<N>, items: seq<J.Value<N>>, indent: int, out0: string, ghost k: string)
    returns (out: string)
    requires indent >= -1
    ensures out + k == out0 + J.Emit(codec, J.Arr(items), indent, k)
    decreases items, 2
  {
    var inner := J.Deeper(indent);
    ghost var close := Closing(items == [], indent, ']', k);
    ItemsAll(codec, items, indent, k);
    Regroup(out0, ['['], ItemsFrom(codec, items, 0, inner, close));
    out := SerializeItemList(codec, items, inner, out0 + ['['], close);
    out := CloseWith(|items| == 0, indent, ']', out, k);
  }

  lemma ItemsAll<N>(codec: J.Codec<N>, items: seq<J.Value<N>>, indent: int, k: string)
    requires indent >= -1
    ensures J.Emit(codec, J.Arr(items), indent, k)
         == ['['] + ItemsFrom(codec, items, 0, J.Deeper(indent), Closing(items == [], indent, ']', k))
  {
    if items != [] {
      ItemsFromIs(codec, items, 0, J.Deeper(indent), Closing(false, indent, ']', k));
      assert items[0..] == items;
    }
  }

  /** The part of the output from member i on. */
  ghost function MembersFrom<N>(codec: J.Codec<N>, ms: seq<J.Member<N>>, i: nat, indent: int, k: string): string
    requires i <= |ms| && indent >= -1
    decreases |ms| - i
  {
    if i == |ms| then k
    else
      var rest := MembersFrom(codec, ms, i + 1, indent, k);
      Separated(i, indent, J.Quote(ms[i].key, J.Colon(indent) + J.Emit(codec, ms[i].value, indent, rest)))
  }

  lemma {:induction false} MembersFromIs<N>(codec: J.Codec<N>, ms: seq<J.Member<N>>, i: nat, indent: int, k: string)
    requires i < |ms| && indent >= -1
    ensures var t := J.EmitMembers(codec, ms[i..], indent, k);
      MembersFrom(codec, ms, i, indent, k) == if i == 0 then t else [','] + t
    decreases |ms| - i
  {
    if i + 1 < |ms| {
      MembersFromIs(codec, ms, i + 1, indent, k);
      assert ms[i..][1..] == ms[i + 1..];
    }
  }

  lemma MembersAll<N>(codec: J.Codec<N>, ms: seq<J.Member<N>>, indent: int, k: string)
    requires indent >= -1
    ensures J.Emit(codec, J.Obj(ms), indent, k)
         == ['{'] + MembersFrom(codec, ms, 0, J.Deeper(indent), Closing(ms == [], indent, '}', k))
  {
    if ms != [] {
      MembersFromIs(codec, ms, 0, J.Deeper(indent), Closing(false, indent, '}', k));
      assert ms[0..] == ms;
    }
  }

  method SerializeKey(key: string, indent: int, out0: string, ghost k: string) returns (out: string)
    ensures out + k == out0 + J.Quote(key, J.Colon(indent) + k)
  {
    out := SerializeStr(key, out0, J.Colon(indent) + k);
    Regroup(out, J.Colon(indent), k);
    out := out + ":";
    if indent != -1 {
      out := out + " ";
    }
  }

  method SerializeMember<N>(codec: J.Codec<N>, ms: seq<J.Member<N>>, i: nat, indent: int, out0: string, ghost k: string)
    returns (out: string)
    requires i < |ms| && indent >= -1 && indent != 0
    ensures out + MembersFrom(codec, ms, i + 1, indent, k) == out0 + MembersFrom(codec, ms, i, indent, k)
    decreases ms, 0
  {
    ghost var rest := MembersFrom(codec, ms, i + 1, indent, k);
    ghost var t := J.Emit(codec, ms[i].value, indent, rest);
    out := Separate(i, indent, out0, J.Quote(ms[i].key, J.Colon(indent) + t));
    out := SerializeKey(ms[i].key, indent, out, t);
    out := SerializeTo(codec, ms[i].value, indent, out, rest);
  }

  method SerializeMemberList<N>(codec: J.Codec<N>, ms: seq<J.Member<N>>, indent: int, out0: string, ghost k: string)
    returns (out: string)
    requires indent >= -1 && indent != 0
    ensures out + k == out0 + MembersFrom(codec, ms, 0, indent, k)
    decreases ms, 1
  {
    out := out0;
    for i := 0 to |ms|
      invariant out + MembersFrom(codec, ms, i, indent, k) == out0 + MembersFrom(codec, ms, 0, indent, k)
    {
      out := SerializeMember(codec, ms, i, indent, out, k);
    }
  }

  method SerializeMembers<N>(codec: J.Codec<N>, ms: seq<J.Member<N>>, indent: int, out0: string, ghost k: string)
    returns (out: string)
    requires indent >= -1
    ensures out + k == out0 + J.Emit(codec, J.Obj(ms), indent, k)
    decreases ms, 2
  {
    var inner := J.Deeper(indent);
    ghost var close := Closing(ms == [], indent, '}', k);
    MembersAll(codec, ms, indent, k);
    Regroup(out0, ['{'], MembersFrom(codec, ms, 0, inner, close));
    out := SerializeMemberList(codec, ms, inner, out0 + ['{'], close);
    out := CloseWith(|ms| == 0, indent, '}', out, k);
  }

  /** value::serialize. */
  method SerializeValue<N>(codec: J.Codec<N>, v: J.Value<N>, prettify: bool) returns (out: string)
    ensures out == J.Serialize(codec, v, prettify)
  {
    var indent := if prettify then 0 else -1;
    out := SerializeTo(codec, v, indent, "", "");
    Neutral(out);
    Neutral("\n");
    Neutral(J.Emit(codec, v, indent, Final(indent, "")));
  }
}
