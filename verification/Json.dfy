/** JSON values, their serialization and the grammar picojson accepts, as functions.

    A string's characters stand for bytes.  Numbers are an arbitrary type N with a
    printer and a reader (to_str and strtod); nothing else about them matters. */
module Json {
  import opened Prelude

  datatype Codec<!N> = Codec(show: N -> string, scan: string -> Option<N>)

  datatype Value<N> =
    | Null
    | Bool(b: bool)
    | Num(n: N)
    | Str(s: string)
    | Arr(items: seq<Value<N>>)
    | Obj(members: seq<Member<N>>)

  datatype Member<N> = Member(key: string, value: Value<N>)

  predicate IsNumChar(c: char) {
    '0' <= c <= '9' || c == '+' || c == '-' || c == 'e' || c == 'E' || c == '.'
  }

  predicate StartsNumber(c: char) {
    '0' <= c <= '9' || c == '-'
  }

  /** What is printed is read back, and looks like a number to the parser. */
  ghost predicate Lawful<N(!new)>(codec: Codec<N>) {
    forall n: N ::
      var t := codec.show(n);
      && t != [] && StartsNumber(t[0]) && (forall i :: 0 <= i < |t| ==> IsNumChar(t[i]))
      && codec.scan(t) == Some(n)
  }

  // ----- objects -------------------------------------------------------------

  /** std::string's order. */
  predicate Less(a: string, b: string) {
    if b == [] then false
    else if a == [] then true
    else a[0] < b[0] || (a[0] == b[0] && Less(a[1..], b[1..]))
  }

  lemma {:induction false} LessAsymmetric(a: string, b: string)
    requires Less(a, b)
    ensures !Less(b, a) && a != b
    decreases a
  {
    if a != [] && a[0] == b[0] {
      LessAsymmetric(a[1..], b[1..]);
    }
  }

  lemma {:induction false} LessTotal(a: string, b: string)
    requires !Less(a, b) && a != b
    ensures Less(b, a)
    decreases a
  {
    if a != [] && b != [] && a[0] == b[0] {
      assert a == [a[0]] + a[1..] && b == [b[0]] + b[1..];
      LessTotal(a[1..], b[1..]);
    }
  }

  lemma {:induction false} LessTransitive(a: string, b: string, c: string)
    requires Less(a, b) && Less(b, c)
    ensures Less(a, c)
    decreases a
  {
    if a != [] && a[0] == b[0] == c[0] {
      LessTransitive(a[1..], b[1..], c[1..]);
    }
  }

  /** std::map keeps its keys in order, each once. */
  predicate Sorted<N>(ms: seq<Member<N>>) {
    forall i, j :: 0 <= i < j < |ms| ==> Less(ms[i].key, ms[j].key)
  }

  /** object[key] = v. */
  function Insert<N>(ms: seq<Member<N>>, key: string, v: Value<N>): (r: seq<Member<N>>) {
    if ms == [] then [Member(key, v)]
    else if ms[0].key == key then [Member(key, v)] + ms[1..]
    else if Less(key, ms[0].key) then [Member(key, v)] + ms
    else [ms[0]] + Insert(ms[1..], key, v)
  }

  /** Objects in the tree are maps. */
  ghost predicate WellFormed<N>(v: Value<N>) {
    match v
    case Arr(items) => forall x :: x in items ==> WellFormed(x)
    case Obj(ms) => Sorted(ms) && forall m :: m in ms ==> WellFormed(m.value)
    case _ => true
  }

  lemma {:induction false} InsertLast<N>(ms: seq<Member<N>>, key: string, v: Value<N>)
    requires forall i :: 0 <= i < |ms| ==> Less(ms[i].key, key)
    ensures Insert(ms, key, v) == ms + [Member(key, v)]
    decreases |ms|
  {
    if ms != [] {
      LessAsymmetric(ms[0].key, key);
      InsertLast(ms[1..], key, v);
      assert ms == [ms[0]] + ms[1..];
    }
  }

  /** r is ms with key mapped to v and nothing else changed. */
  ghost predicate Updated<N>(ms: seq<Member<N>>, key: string, v: Value<N>, r: seq<Member<N>>) {
    && Member(key, v) in r
    && (forall m :: m in r ==> m == Member(key, v) || (m in ms && m.key != key))
    && (forall m :: m in ms && m.key != key ==> m in r)
  }

  lemma UpdatedAt<N>(ms: seq<Member<N>>, v: Value<N>)
    requires Sorted(ms) && ms != []
    ensures var r := [Member(ms[0].key, v)] + ms[1..]; Sorted(r) && Updated(ms, ms[0].key, v, r)
  {
    KeyNotInTail(ms);
  }

  lemma UpdatedFront<N>(ms: seq<Member<N>>, key: string, v: Value<N>)
    requires forall m :: m in ms ==> m.key != key
    ensures Updated(ms, key, v, [Member(key, v)] + ms)
  {
  }

  lemma UpdatedBehind<N>(head: Member<N>, tail: seq<Member<N>>, key: string, v: Value<N>, r: seq<Member<N>>)
    requires Updated(tail, key, v, r) && head.key != key
    ensures Updated([head] + tail, key, v, [head] + r)
  {
  }

  /** Insertion keeps an object a map, and changes what key maps to and nothing else. */
  lemma {:induction false} InsertIsUpdate<N>(ms: seq<Member<N>>, key: string, v: Value<N>)
    requires Sorted(ms)
    ensures Sorted(Insert(ms, key, v)) && Updated(ms, key, v, Insert(ms, key, v))
    decreases |ms|
  {
    if ms == [] {
    } else if ms[0].key == key {
      UpdatedAt(ms, v);
    } else if Less(key, ms[0].key) {
      InsertFront(ms, key, v);
      UpdatedFront(ms, key, v);
    } else {
      LessTotal(key, ms[0].key);
      InsertIsUpdate(ms[1..], key, v);
      InsertDeeper(ms, key, v);
    }
  }

  lemma InsertDeeper<N>(ms: seq<Member<N>>, key: string, v: Value<N>)
    requires Sorted(ms) && ms != [] && Less(ms[0].key, key) && ms[0].key != key
    requires Sorted(Insert(ms[1..], key, v)) && Updated(ms[1..], key, v, Insert(ms[1..], key, v))
    ensures var r := [ms[0]] + Insert(ms[1..], key, v); Sorted(r) && Updated(ms, key, v, r)
  {
    assert ms == [ms[0]] + ms[1..];
    InsertBehind(ms[0], ms[1..], key, v);
    UpdatedBehind(ms[0], ms[1..], key, v, Insert(ms[1..], key, v));
  }

  lemma KeyNotInTail<N>(ms: seq<Member<N>>)
    requires Sorted(ms) && ms != []
    ensures forall m :: m in ms[1..] ==> Less(ms[0].key, m.key) && m.key != ms[0].key
  {
    forall m | m in ms[1..]
      ensures Less(ms[0].key, m.key) && m.key != ms[0].key
    {
      var i :| 0 <= i < |ms[1..]| && ms[1..][i] == m;
      assert m == ms[i + 1];
      LessAsymmetric(ms[0].key, m.key);
    }
  }

  lemma InsertFront<N>(ms: seq<Member<N>>, key: string, v: Value<N>)
    requires Sorted(ms) && ms != [] && Less(key, ms[0].key)
    ensures Sorted([Member(key, v)] + ms)
    ensures forall m :: m in ms ==> m.key != key
  {
    forall i | 0 <= i < |ms|
      ensures Less(key, ms[i].key) && key != ms[i].key
    {
      if i > 0 {
        LessTransitive(key, ms[0].key, ms[i].key);
      }
      LessAsymmetric(key, ms[i].key);
    }
  }

  lemma InsertBehind<N>(head: Member<N>, tail: seq<Member<N>>, key: string, v: Value<N>)
    requires Sorted([head] + tail) && Sorted(Insert(tail, key, v)) && Less(head.key, key)
    requires forall m :: m in Insert(tail, key, v) ==> m == Member(key, v) || m in tail
    ensures Sorted([head] + Insert(tail, key, v))
  {
    var r := Insert(tail, key, v);
    forall i | 0 <= i < |r|
      ensures Less(head.key, r[i].key)
    {
      assert r[i] in r;
      if r[i] in tail {
        var k :| 0 <= k < |tail| && tail[k] == r[i];
        var all := [head] + tail;
        assert all[k + 1] == r[i] && Less(all[0].key, all[k + 1].key);
      }
    }
  }

  // ----- serialization -------------------------------------------------------

  function HexDigit(n: nat): char
    requires n < 16
  {
    "0123456789abcdef"[n]
  }

  /** serialize_str_char. */
  function EscapeChar(c: char): (t: string)
    ensures t != []
  {
    if c == '"' then "\\\""
    else if c == '\\' then "\\\\"
    else if c == '/' then "\\/"
    else if c == 8 as char then "\\b"
    else if c == 12 as char then "\\f"
    else if c == '\n' then "\\n"
    else if c == '\r' then "\\r"
    else if c == '\t' then "\\t"
    else if c < ' ' || c == 0x7f as char then
      "\\u00" + [HexDigit(c as int / 16), HexDigit(c as int % 16)]
    else [c]
  }

  /** A serialized string up to and with its closing quote, then k. */
  function Escape(s: string, k: string): string {
    if s == [] then ['"'] + k else EscapeChar(s[0]) + Escape(s[1..], k)
  }

  function Quote(s: string, k: string): string {
    ['"'] + Escape(s, k)
  }

  function Spaces(n: nat): string {
    if n == 0 then [] else " " + Spaces(n - 1)
  }

  /** _indent, or nothing in compact form (indent -1). */
  function Lead(indent: int): string
    requires indent >= -1
  {
    if indent == -1 then [] else "\n" + Spaces(2 * indent)
  }

  function Deeper(indent: int): (r: int)
    requires indent >= -1
    ensures r >= -1 && r != 0
  {
    if indent == -1 then -1 else indent + 1
  }

  function Colon(indent: int): string {
    if indent == -1 then ":" else ": "
  }

  /** The serialized value followed by k: _serialize without the line break it adds at
      the top level. */
  function Emit<N>(codec: Codec<N>, v: Value<N>, indent: int, k: string): string
    requires indent >= -1
    decreases v, 1
  {
    match v
    case Null => "null" + k
    case Bool(b) => (if b then "true" else "false") + k
    case Num(n) => codec.show(n) + k
    case Str(s) => Quote(s, k)
    case Arr(items) =>
      ['['] + if items == [] then [']'] + k else EmitItems(codec, items, Deeper(indent), Lead(indent) + ([']'] + k))
    case Obj(ms) =>
      ['{'] + if ms == [] then ['}'] + k else EmitMembers(codec, ms, Deeper(indent), Lead(indent) + (['}'] + k))
  }

  function EmitItems<N>(codec: Codec<N>, items: seq<Value<N>>, indent: int, k: string): string
    requires indent >= -1 && items != []
    decreases items, 0
  {
    var rest := if |items| == 1 then k else [','] + EmitItems(codec, items[1..], indent, k);
    Lead(indent) + Emit(codec, items[0], indent, rest)
  }

  function EmitMembers<N>(codec: Codec<N>, ms: seq<Member<N>>, indent: int, k: string): string
    requires indent >= -1 && ms != []
    decreases ms, 0
  {
    var rest := if |ms| == 1 then k else [','] + EmitMembers(codec, ms[1..], indent, k);
    Lead(indent) + Quote(ms[0].key, Colon(indent) + Emit(codec, ms[0].value, indent, rest))
  }

  /** value::serialize. */
  function Serialize<N>(codec: Codec<N>, v: Value<N>, prettify: bool): string {
    if prettify then Emit(codec, v, 0, "\n") else Emit(codec, v, -1, "")
  }

  // ----- parsing -------------------------------------------------------------

  /** rest is the unread input, also after an error. */
  datatype Res<+T> = Ok(v: T, rest: string) | Err(rest: string)

  predicate IsWs(c: char) {
    c == ' ' || c == '\t' || c == '\n' || c == '\r'
  }

  function SkipWs(s: string): (r: string)
    ensures |r| <= |s|
    ensures r != [] ==> !IsWs(r[0])
  {
    if s != [] && IsWs(s[0]) then SkipWs(s[1..]) else s
  }

  function Expect(s: string, c: char): (r: Res<()>)
    ensures r.Ok? ==> |r.rest| < |s|
    ensures r.Err? ==> |r.rest| <= |s|
  {
    var q := SkipWs(s);
    if q != [] && q[0] == c then Ok((), q[1..]) else Err(q)
  }

  function Match(s: string, pattern: string): (r: Res<()>)
    ensures |r.rest| <= |s|
  {
    if pattern == [] then Ok((), s)
    else if s != [] && s[0] == pattern[0] then Match(s[1..], pattern[1..])
    else Err(s)
  }

  /** Value of a hexadecimal digit, or -1. */
  function HexValue(c: char): (h: int)
    ensures -1 <= h < 16
  {
    if '0' <= c <= '9' then c as int - '0' as int
    else if 'A' <= c <= 'F' then c as int - 'A' as int + 10
    else if 'a' <= c <= 'f' then c as int - 'a' as int + 10
    else -1
  }

  /** What k hexadecimal digits stay below. */
  function HexLimit(k: nat): nat {
    if k == 0 then 1 else if k == 1 then 16 else if k == 2 then 256 else if k == 3 then 4096 else 65536
  }

  function QuadHex(s: string, k: nat, acc: nat): (r: Res<nat>)
    requires k <= 4
    ensures |r.rest| <= |s|
    ensures acc < HexLimit(k) && r.Ok? ==> r.v < 65536
    decreases 4 - k
  {
    if k == 4 then Ok(acc, s)
    else if s == [] then Err([])
    else
      var h := HexValue(s[0]);
      if h < 0 then Err(s) else QuadHex(s[1..], k + 1, acc * 16 + h)
  }

  lemma QuadHexStep(s: string, k: nat, acc: nat)
    requires k < 4
    ensures QuadHex(s, k, acc)
         == if s == [] then Err([])
            else if HexValue(s[0]) < 0 then Err(s)
            else QuadHex(s[1..], k + 1, acc * 16 + HexValue(s[0]))
  {
  }

  lemma QuadHexEnd(s: string, acc: nat)
    ensures QuadHex(s, 4, acc) == Ok(acc, s)
  {
  }

  /** UTF-8 encoding of a code point; the result's characters are bytes. */
  function Utf8(u: nat): string
    requires u < 0x110000
  {
    if u < 0x80 then [u as char]
    else if u < 0x800 then [(0xc0 + u / 64) as char, (0x80 + u % 64) as char]
    else if u < 0x10000 then [(0xe0 + u / 4096) as char, (0x80 + u / 64 % 64) as char, (0x80 + u % 64) as char]
    else [(0xf0 + u / 262144) as char, (0x80 + u / 4096 % 64) as char, (0x80 + u / 64 % 64) as char,
          (0x80 + u % 64) as char]
  }

  /** _parse_codepoint. */
  function Codepoint(s: string): (r: Res<string>)
    ensures |r.rest| <= |s|
  {
    match QuadHex(s, 0, 0)
    case Err(r) => Err(r)
    case Ok(u, r) =>
      if !(0xd800 <= u <= 0xdfff) then Ok(Utf8(u), r)
      else if 0xdc00 <= u then Err(r)
      else if r == [] || r[0] != '\\' then Err(r)
      else if r[1..] == [] || r[1] != 'u' then Err(r[1..])
      else LowSurrogate(u, r[2..])
  }

  function LowSurrogate(u: nat, s: string): (r: Res<string>)
    requires 0xd800 <= u < 0xdc00
    ensures |r.rest| <= |s|
  {
    match QuadHex(s, 0, 0)
    case Err(r) => Err(r)
    case Ok(second, r) =>
      if !(0xdc00 <= second <= 0xdfff) then Err(r)
      else Ok(Utf8((u - 0xd800) * 1024 + (second - 0xdc00) + 0x10000), r)
  }

  /** The character a one-letter escape stands for. */
  function Unescape(c: char): Option<char> {
    if c == '"' || c == '\\' || c == '/' then Some(c)
    else if c == 'b' then Some(8 as char)
    else if c == 'f' then Some(12 as char)
    else if c == 'n' then Some('\n')
    else if c == 'r' then Some('\r')
    else if c == 't' then Some('\t')
    else None
  }

  /** _parse_string, after the opening quote; out is what was read before. */
  function ParseString(s: string, out: string): (r: Res<string>)
    ensures r.Ok? ==> |r.rest| < |s|
    ensures |r.rest| <= |s|
    decreases |s|
  {
    if s == [] || s[0] < ' ' then Err(s)
    else if s[0] == '"' then Ok(out, s[1..])
    else if s[0] != '\\' then ParseString(s[1..], out + [s[0]])
    else if |s| == 1 then Err([])
    else if s[1] == 'u' then
      match Codepoint(s[2..])
      case Err(r) => Err(r)
      case Ok(t, r) => ParseString(r, out + t)
    else
      match Unescape(s[1])
      case None => Err(s[2..])
      case Some(c) => ParseString(s[2..], out + [c])
  }

  /** Length of the longest prefix of number characters. */
  function NumLength(s: string): (n: nat)
    ensures n <= |s|
  {
    if s != [] && IsNumChar(s[0]) then 1 + NumLength(s[1..]) else 0
  }

  function ParseNumber<N>(codec: Codec<N>, s: string): (r: Res<Value<N>>)
    requires s != [] && StartsNumber(s[0])
    ensures |r.rest| < |s|
  {
    var n := NumLength(s);
    match codec.scan(s[..n])
    case None => Err(s[n..])
    case Some(x) => Ok(Num(x), s[n..])
  }

  function Word<N>(s: string, text: string, v: Value<N>): (r: Res<Value<N>>)
    ensures |r.rest| <= |s|
  {
    match Match(s, text)
    case Err(r) => Err(r)
    case Ok(_, r) => Ok(v, r)
  }

  /** The values without parts. */
  function ParseLeaf<N>(codec: Codec<N>, q: string): (r: Res<Value<N>>)
    ensures r.Ok? ==> |r.rest| < |q|
    ensures |r.rest| <= |q|
  {
    if q == [] then Err(q)
    else if q[0] == 'n' then Word(q[1..], "ull", Null)
    else if q[0] == 'f' then Word(q[1..], "alse", Bool(false))
    else if q[0] == 't' then Word(q[1..], "rue", Bool(true))
    else if q[0] == '"' then
      match ParseString(q[1..], "")
      case Err(r) => Err(r)
      case Ok(t, r) => Ok(Str(t), r)
    else if StartsNumber(q[0]) then ParseNumber(codec, q)
    else Err(q)
  }

  /** _parse with default_parse_context. */
  function Parse<N>(codec: Codec<N>, s: string): (r: Res<Value<N>>)
    ensures r.Ok? ==> |r.rest| < |s|
    ensures |r.rest| <= |s|
    decreases |s|, 0
  {
    var q := SkipWs(s);
    if q != [] && q[0] == '[' then
      match Expect(q[1..], ']')
      case Ok(_, r) => Ok(Arr([]), r)
      case Err(r) => ParseItems(codec, r, [])
    else if q != [] && q[0] == '{' then
      match Expect(q[1..], '}')
      case Ok(_, r) => Ok(Obj([]), r)
      case Err(r) => ParseMembers(codec, r, [])
    else ParseLeaf(codec, q)
  }

  /** The loop of _parse_array. */
  function ParseItems<N>(codec: Codec<N>, s: string, items: seq<Value<N>>): (r: Res<Value<N>>)
    ensures r.Ok? ==> |r.rest| < |s|
    ensures |r.rest| <= |s|
    decreases |s|, 1
  {
    match Parse(codec, s)
    case Err(r) => Err(r)
    case Ok(v, r) =>
      match Expect(r, ',')
      case Ok(_, r1) => ParseItems(codec, r1, items + [v])
      case Err(r1) =>
        match Expect(r1, ']')
        case Ok(_, r2) => Ok(Arr(items + [v]), r2)
        case Err(r2) => Err(r2)
  }

  /** A key and its colon. */
  function ParseKey(s: string): (r: Res<string>)
    ensures r.Ok? ==> |r.rest| < |s|
    ensures |r.rest| <= |s|
  {
    match Expect(s, '"')
    case Err(r) => Err(r)
    case Ok(_, r) =>
      match ParseString(r, "")
      case Err(r1) => Err(r1)
      case Ok(key, r1) =>
        match Expect(r1, ':')
        case Err(r2) => Err(r2)
        case Ok(_, r2) => Ok(key, r2)
  }

  /** The loop of _parse_object. */
  function ParseMembers<N>(codec: Codec<N>, s: string, ms: seq<Member<N>>): (r: Res<Value<N>>)
    ensures r.Ok? ==> |r.rest| < |s|
    ensures |r.rest| <= |s|
    decreases |s|, 1
  {
    match ParseKey(s)
    case Err(r) => Err(r)
    case Ok(key, r) =>
      match Parse(codec, r)
      case Err(r1) => Err(r1)
      case Ok(v, r1) =>
        match Expect(r1, ',')
        case Ok(_, r2) => ParseMembers(codec, r2, Insert(ms, key, v))
        case Err(r2) =>
          match Expect(r2, '}')
          case Ok(_, r3) => Ok(Obj(Insert(ms, key, v)), r3)
          case Err(r3) => Err(r3)
  }
}
