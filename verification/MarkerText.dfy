/** The text of marker and counter files (ModuleSafety.cpp): lines of the form key=value, read
    back by searching for the first occurrence of the key anywhere in the text. */
module MarkerText {

  import opened Decimal

  const WORD: nat := 0x1_0000_0000

  datatype Field = Field(key: string, value: string)

  function Line(f: Field): string {
    f.key + "=" + f.value + "\n"
  }

  function Body(fields: seq<Field>): string {
    if fields == [] then "" else Line(fields[0]) + Body(fields[1..])
  }

  /** The text up to the end of the line. */
  function UpToNewline(s: string): string {
    if s == "" || s[0] == '\n' then "" else [s[0]] + UpToNewline(s[1..])
  }

  /** What follows the first occurrence of the key, up to the end of the line. */
  function ReadField(body: string, key: string): string {
    if key <= body then UpToNewline(body[|key|..])
    else if body == "" then ""
    else ReadField(body[1..], key)
  }

  /** Neither the separator nor a line end. */
  ghost predicate Plain(s: string) {
    forall i :: 0 <= i < |s| ==> s[i] != '=' && s[i] != '\n'
  }

  ghost predicate PlainField(f: Field) {
    Plain(f.key) && Plain(f.value)
  }

  ghost predicate EndsWith(s: string, t: string) {
    |t| <= |s| && s[|s| - |t|..] == t
  }

  /** The text k stands somewhere in s. */
  ghost predicate Occurs(k: string, s: string) {
    exists i :: 0 <= i <= |s| && k <= s[i..]
  }

  // ----- no match inside another line ---------------------------------------------

  lemma PrefixAt(k: string, s: string, i: nat, j: nat)
    requires i <= |s| && k <= s[i..] && j < |k|
    ensures i + j < |s| && s[i + j] == k[j]
  {
    assert s[i..][j] == k[j];
  }

  lemma InLine(line: string, rest: string, k: string, i: nat)
    requires i + |k| <= |line| && k <= (line + rest)[i..]
    ensures k <= line[i..]
  {
    assert line[i..][..|k|] == (line + rest)[i..][..|k|];
  }

  /** A match that begins in a line either lies in the line or runs over its end. */
  lemma NoMatchInside(line: string, rest: string, k: string, i: nat)
    requires line != "" && line[|line| - 1] == '\n' && '\n' !in k && !Occurs(k, line) && i < |line|
    ensures !(k <= (line + rest)[i..])
  {
    var text := line + rest;
    if k <= text[i..] {
      if i + |k| <= |line| {
        InLine(line, rest, k, i);
      } else {
        PrefixAt(k, text, i, |line| - 1 - i);
      }
    }
  }

  /** In a line without further separators the key sought occurs only at the end of its key. */
  lemma PlainLine(f: Field, key: string)
    requires PlainField(f) && Plain(key) && !EndsWith(f.key, key)
    ensures !Occurs(key + "=", Line(f))
  {
    forall i | 0 <= i <= |Line(f)| ensures !(key + "=" <= Line(f)[i..]) {
      if key + "=" <= Line(f)[i..] {
        PrefixAt(key + "=", Line(f), i, |key|);
        assert Line(f)[|f.key|] == '=';
        KeyMatch(f, key, i);
      }
    }
  }

  lemma KeyMatch(f: Field, key: string, i: nat)
    requires Plain(f.key) && i + |key| == |f.key| && key + "=" <= Line(f)[i..]
    ensures EndsWith(f.key, key)
  {
    forall j | 0 <= j < |key| ensures f.key[i + j] == key[j] {
      PrefixAt(key + "=", Line(f), i, j);
    }
    assert f.key[i..] == key;
  }

  lemma {:induction false} SkipPrefix(text: string, key: string, n: nat)
    requires n <= |text| && forall i :: 0 <= i < n ==> !(key <= text[i..])
    ensures ReadField(text, key) == ReadField(text[n..], key)
  {
    if n > 0 {
      assert text[0..] == text;
      forall i | 0 <= i < n - 1 ensures !(key <= text[1..][i..]) {
        assert text[1..][i..] == text[i + 1..];
      }
      SkipPrefix(text[1..], key, n - 1);
      assert text[1..][n - 1..] == text[n..];
    }
  }

  lemma {:induction false} ReadsLine(value: string, rest: string)
    ensures UpToNewline(value + "\n" + rest) == UpToNewline(value)
  {
    if value != "" {
      ReadsLine(value[1..], rest);
      assert (value + "\n" + rest)[1..] == value[1..] + "\n" + rest;
    }
  }

  lemma {:induction false} WholeLine(value: string)
    ensures UpToNewline(value) == value <==> '\n' !in value
  {
    if value != "" {
      WholeLine(value[1..]);
    }
  }

  /** The key at the start of the text. */
  lemma ReadsFirst(f: Field, rest: string)
    ensures ReadField(Line(f) + rest, f.key + "=") == UpToNewline(f.value)
  {
    var text := Line(f) + rest;
    assert text[..|f.key| + 1] == f.key + "=";
    assert text[|f.key| + 1..] == f.value + "\n" + rest;
    ReadsLine(f.value, rest);
  }

  /** A line in which the key does not occur is passed over. */
  lemma ReadsOn(f: Field, rest: string, k: string)
    requires '\n' !in k && !Occurs(k, Line(f))
    ensures ReadField(Line(f) + rest, k) == ReadField(rest, k)
  {
    var text := Line(f) + rest;
    forall i | 0 <= i < |Line(f)| ensures !(k <= text[i..]) {
      NoMatchInside(Line(f), rest, k, i);
    }
    SkipPrefix(text, k, |Line(f)|);
    assert text[|Line(f)|..] == rest;
  }

  /** Searching for a key finds the value of its line up to the first line end, whatever the
      value is, unless the key followed by the separator stands in an earlier line. */
  lemma {:induction false} FieldRoundTrip(fields: seq<Field>, k: nat)
    requires k < |fields| && '\n' !in fields[k].key
    requires forall i :: 0 <= i < k ==> !Occurs(fields[k].key + "=", Line(fields[i]))
    ensures ReadField(Body(fields), fields[k].key + "=") == UpToNewline(fields[k].value)
  {
    if k == 0 {
      ReadsFirst(fields[0], Body(fields[1..]));
    } else {
      ReadsOn(fields[0], Body(fields[1..]), fields[k].key + "=");
      FieldRoundTrip(fields[1..], k - 1);
    }
  }

  // ----- counters ---------------------------------------------------------------------

  datatype Counters = Counters(activeUnclean: nat, suspectUnclean: nat)

  function CounterFields(slug: string, c: Counters): seq<Field> {
    [Field("module", slug), Field("active_unclean", Digits(c.activeUnclean)),
     Field("suspect_unclean", Digits(c.suspectUnclean))]
  }

  /** The text of a counter file. */
  function CounterBody(slug: string, c: Counters): string {
    Body(CounterFields(slug, c))
  }

  /** How many leading characters are digits. */
  function DigitCount(s: string): (n: nat)
    ensures n <= |s| && forall i :: 0 <= i < n ==> '0' <= s[i] <= '9'
    ensures n < |s| ==> !('0' <= s[n] <= '9')
  {
    if s == "" || !('0' <= s[0] <= '9') then 0 else 1 + DigitCount(s[1..])
  }

  /** The number at the start of a value, in 32-bit arithmetic. */
  function Unsigned(value: string): (n: nat)
    ensures n < WORD
  {
    var v := DigitsValue(value[..DigitCount(value)]);
    v % WORD
  }

  function ReadCounters(body: string): Counters {
    Counters(Unsigned(ReadField(body, "active_unclean=")), Unsigned(ReadField(body, "suspect_unclean=")))
  }

  lemma NextDigit(t: string, i: nat, out: nat)
    requires i < |t| && '0' <= t[i] <= '9' && DigitsValue(t[..i]) >= 0 && out == DigitsValue(t[..i]) % WORD
    ensures DigitsValue(t[..i + 1]) == DigitsValue(t[..i]) * 10 + (t[i] as int - '0' as int) >= 0
    ensures (out * 10 + (t[i] as int - '0' as int)) % WORD == DigitsValue(t[..i + 1]) % WORD
  {
    assert t[..i + 1][..i] == t[..i];
    Wraps(DigitsValue(t[..i]), t[i] as int - '0' as int);
  }

  lemma Wraps(v: nat, d: int)
    ensures ((v % WORD) * 10 + d) % WORD == (v * 10 + d) % WORD
  {
    var q := v / WORD;
    assert v * 10 + d == 10 * q * WORD + ((v % WORD) * 10 + d);
  }

  /** The loop of ReadUnsignedField. */
  method ReadUnsigned(value: string) returns (out: nat)
    ensures out == Unsigned(value)
  {
    out := 0;
    var i := 0;
    while i < |value|
      invariant i <= DigitCount(value)
      invariant 0 <= DigitsValue(value[..i]) && out == DigitsValue(value[..i]) % WORD
    {
      var ch := value[i];
      if ch < '0' || ch > '9' {
        break;
      }
      NextDigit(value, i, out);
      out := (out * 10 + (ch as int - '0' as int)) % WORD;
      i := i + 1;
    }
    assert i == DigitCount(value);
  }

  lemma UnsignedRoundTrip(n: nat)
    requires n < WORD
    ensures Unsigned(Digits(n)) == n
  {
    var t := Digits(n);
    DigitsRoundTrip(n);
    assert DigitCount(t) == |t|;
    assert t[..|t|] == t;
  }

  lemma ActiveRoundTrip(slug: string, c: Counters)
    requires Plain(slug) && c.activeUnclean < WORD
    ensures Unsigned(ReadField(CounterBody(slug, c), "active_unclean=")) == c.activeUnclean
  {
    var fields := CounterFields(slug, c);
    PlainLine(fields[0], fields[1].key);
    FieldRoundTrip(fields, 1);
    WholeLine(Digits(c.activeUnclean));
    UnsignedRoundTrip(c.activeUnclean);
    assert "active_unclean" + "=" == "active_unclean=";
  }

  lemma SuspectRoundTrip(slug: string, c: Counters)
    requires Plain(slug) && c.suspectUnclean < WORD
    ensures Unsigned(ReadField(CounterBody(slug, c), "suspect_unclean=")) == c.suspectUnclean
  {
    var fields := CounterFields(slug, c);
    PlainLine(fields[0], fields[2].key);
    PlainLine(fields[1], fields[2].key);
    FieldRoundTrip(fields, 2);
    WholeLine(Digits(c.suspectUnclean));
    UnsignedRoundTrip(c.suspectUnclean);
    assert "suspect_unclean" + "=" == "suspect_unclean=";
  }

  /** Counters survive being written and read back. */
  lemma CountersRoundTrip(slug: string, c: Counters)
    requires Plain(slug) && c.activeUnclean < WORD && c.suspectUnclean < WORD
    ensures ReadCounters(CounterBody(slug, c)) == c
  {
    ActiveRoundTrip(slug, c);
    SuspectRoundTrip(slug, c);
  }

  // ----- markers ------------------------------------------------------------------------

  /** The text of a marker file. */
  function MarkerBody(slug: string, flag: string, reason: string): string {
    Body([Field("module", slug), Field("flag", flag), Field("reason", reason)])
  }

  /** The three lines of a marker, one after the other. */
  lemma MarkerLayout(slug: string, flag: string, reason: string)
    ensures MarkerBody(slug, flag, reason)
         == "module=" + slug + "\nflag=" + flag + "\nreason=" + reason + "\n"
  {
    var fields := [Field("module", slug), Field("flag", flag), Field("reason", reason)];
    var two, one := [fields[1], fields[2]], [fields[2]];
    assert fields[1..] == two && two[1..] == one && one[1..] == [];
    assert Body(one) == Line(fields[2]) + "";
    assert Body(two) == Line(fields[1]) + Body(one);
    LayoutText(slug, flag, reason);
  }

  lemma LayoutText(slug: string, flag: string, reason: string)
    ensures ("module" + "=" + slug + "\n") + (("flag" + "=" + flag + "\n") + (("reason" + "=" + reason + "\n") + ""))
         == "module=" + slug + "\nflag=" + flag + "\nreason=" + reason + "\n"
  {
    var n, m := |slug|, |flag|;
    var text := "module=" + slug + "\nflag=" + flag + "\nreason=" + reason + "\n";
    assert text[..8 + n] == "module" + "=" + slug + "\n";
    assert text[8 + n..14 + n + m] == "flag" + "=" + flag + "\n";
    assert text[14 + n + m..] == "reason" + "=" + reason + "\n";
  }

  /** The reason in a marker, whatever it contains, is read back up to its first line end; so it
      is read back as written exactly if it is one line. */
  lemma ReasonRoundTrip(slug: string, flag: string, reason: string)
    requires Plain(slug) && Plain(flag)
    ensures ReadField(MarkerBody(slug, flag, reason), "reason=") == UpToNewline(reason)
    ensures ReadField(MarkerBody(slug, flag, reason), "reason=") == reason <==> '\n' !in reason
  {
    var fields := [Field("module", slug), Field("flag", flag), Field("reason", reason)];
    assert fields[0].key[0] != fields[2].key[0];
    assert fields[0].key[0..] == fields[0].key;
    PlainLine(fields[0], fields[2].key);
    PlainLine(fields[1], fields[2].key);
    FieldRoundTrip(fields, 2);
    WholeLine(reason);
    assert "reason" + "=" == "reason=";
  }
}
