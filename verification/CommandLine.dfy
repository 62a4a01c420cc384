/** Quoting a command-line argument, against the rules by which the Microsoft C run-time
    splits a command line into arguments. */
module CommandLine {

  function Backslashes(n: nat): (s: string)
    ensures |s| == n && forall i :: 0 <= i < n ==> s[i] == '\\'
  {
    if n == 0 then "" else ['\\'] + Backslashes(n - 1)
  }

  // ----- quoting -------------------------------------------------------------

  /** The quoted form of the rest of an argument after b backslashes, closed, then k. */
  function Quoted(value: string, b: nat, k: string): string {
    if value == [] then Backslashes(2 * b) + (['"'] + k)
    else if value[0] == '\\' then Quoted(value[1..], b + 1, k)
    else if value[0] == '"' then Backslashes(2 * b + 1) + (['"'] + Quoted(value[1..], 0, k))
    else Backslashes(b) + ([value[0]] + Quoted(value[1..], 0, k))
  }

  /** QuoteCommandLineArg; k is whatever follows the argument. */
  method QuoteArg(value: string, ghost k: string) returns (out: string)
    ensures out + k == ['"'] + Quoted(value, 0, k)
  {
    out := ['"'];
    var backslashes := 0;
    for i := 0 to |value|
      invariant out + Quoted(value[i..], backslashes, k) == ['"'] + Quoted(value, 0, k)
    {
      var ch := value[i];
      assert value[i..][1..] == value[i + 1..];
      if ch == '\\' {
        backslashes := backslashes + 1;
      } else {
        var run := if ch == '"' then 2 * backslashes + 1 else backslashes;
        Regroup(out, Backslashes(run), [ch], Quoted(value[i + 1..], 0, k));
        out := out + Backslashes(run) + [ch];
        backslashes := 0;
      }
    }
    Regroup(out, Backslashes(2 * backslashes), ['"'], k);
    out := out + Backslashes(2 * backslashes) + ['"'];
  }

  lemma Regroup(a: string, b: string, c: string, d: string)
    ensures (a + b + c) + d == a + (b + (c + d))
  {
  }

  /** Arguments quoted and joined with spaces. */
  function Joined(args: seq<string>): string {
    if args == [] then ""
    else if |args| == 1 then ['"'] + Quoted(args[0], 0, "")
    else ['"'] + Quoted(args[0], 0, [' '] + Joined(args[1..]))
  }

  // ----- splitting -----------------------------------------------------------

  predicate IsBlank(c: char) {
    c == ' ' || c == '\t'
  }

  /** Number of backslashes s starts with. */
  function Run(s: string): (n: nat)
    ensures n <= |s| && (n < |s| ==> s[n] != '\\')
  {
    if s != [] && s[0] == '\\' then 1 + Run(s[1..]) else 0
  }

  /** One argument: backslashes are literal unless a double quote follows them; 2n of
      them and a quote are n backslashes and a delimiter, 2n + 1 are n backslashes and a
      literal quote; two quotes inside a quoted part are one literal quote; a blank
      outside quotes ends the argument.  Result: the argument and the unread text. */
  function SplitOne(s: string, quoted: bool, arg: string): (r: (string, string))
    ensures |r.1| <= |s|
    decreases |s|
  {
    var n := Run(s);
    var t := s[n..];
    if t != [] && t[0] == '"' then
      if n % 2 == 1 then SplitOne(t[1..], quoted, arg + Backslashes(n / 2) + ['"'])
      else if quoted && |t| > 1 && t[1] == '"' then SplitOne(t[2..], quoted, arg + Backslashes(n / 2) + ['"'])
      else SplitOne(t[1..], !quoted, arg + Backslashes(n / 2))
    else if t == [] || (!quoted && IsBlank(t[0])) then (arg + Backslashes(n), t)
    else SplitOne(t[1..], quoted, arg + Backslashes(n) + [t[0]])
  }

  function SkipBlanks(s: string): (r: string)
    ensures |r| <= |s| && (r != [] ==> !IsBlank(r[0]))
  {
    if s != [] && IsBlank(s[0]) then SkipBlanks(s[1..]) else s
  }

  lemma {:induction false} SplitProgress(s: string)
    requires s != [] && !IsBlank(s[0])
    ensures |SplitOne(s, false, "").1| < |s|
  {
  }

  function Split(s: string): seq<string>
    decreases |s|
  {
    var t := SkipBlanks(s);
    if t == [] then []
    else
      var r := SplitOne(t, false, "");
      SplitProgress(t);
      [r.0] + Split(r.1)
  }

  // ----- round trip ----------------------------------------------------------

  lemma {:induction false} RunOf(n: nat, x: string)
    requires x != [] && x[0] != '\\'
    ensures Run(Backslashes(n) + x) == n && (Backslashes(n) + x)[n..] == x
  {
    if n == 0 {
      assert Backslashes(n) + x == x;
    } else {
      RunOf(n - 1, x);
      assert (Backslashes(n) + x)[1..] == Backslashes(n - 1) + x;
    }
  }

  lemma {:induction false} BackslashFirst(n: nat)
    ensures Backslashes(n) + ['\\'] == Backslashes(n + 1)
  {
  }

  /** Doubled backslashes and a quote close the quoted part. */
  lemma ClosingQuote(b: nat, k: string, arg: string)
    requires k == [] || IsBlank(k[0])
    ensures SplitOne(Backslashes(2 * b) + (['"'] + k), true, arg) == SplitOne(k, false, arg + Backslashes(b))
  {
    RunOf(2 * b, ['"'] + k);
    assert (['"'] + k)[1..] == k;
    assert 2 * b / 2 == b && 2 * b % 2 == 0;
  }

  /** A character after a run of backslashes, inside quotes. */
  lemma InnerChar(b: nat, ch: char, rest: string, arg: string)
    requires ch != '\\'
    ensures SplitOne(Backslashes(if ch == '"' then 2 * b + 1 else b) + ([ch] + rest), true, arg)
         == SplitOne(rest, true, arg + Backslashes(b) + [ch])
  {
    RunOf(if ch == '"' then 2 * b + 1 else b, [ch] + rest);
    assert ([ch] + rest)[1..] == rest;
    assert (2 * b + 1) / 2 == b && (2 * b + 1) % 2 == 1;
  }

  /** Inside quotes, the quoted form of value is read back as value, and the argument
      ends where it ended. */
  lemma {:induction false} QuotedRoundTrip(value: string, b: nat, k: string, arg: string)
    requires k == [] || IsBlank(k[0])
    ensures SplitOne(Quoted(value, b, k), true, arg) == (arg + Backslashes(b) + value, k)
    decreases |value|
  {
    if value == [] {
      ClosingQuote(b, k, arg);
      EndsHere(k, arg + Backslashes(b));
      assert arg + Backslashes(b) + value == arg + Backslashes(b);
    } else if value[0] == '\\' {
      QuotedRoundTrip(value[1..], b + 1, k, arg);
      MoveBackslash(arg, b, value);
    } else {
      var ch, rest := value[0], Quoted(value[1..], 0, k);
      InnerChar(b, ch, rest, arg);
      QuotedRoundTrip(value[1..], 0, k, arg + Backslashes(b) + [ch]);
      MoveChar(arg + Backslashes(b), value);
    }
  }

  lemma EndsHere(k: string, arg: string)
    requires k == [] || IsBlank(k[0])
    ensures SplitOne(k, false, arg) == (arg, k)
  {
    assert arg + Backslashes(0) == arg;
  }

  lemma MoveBackslash(arg: string, b: nat, value: string)
    requires value != [] && value[0] == '\\'
    ensures arg + Backslashes(b + 1) + value[1..] == arg + Backslashes(b) + value
  {
    BackslashFirst(b);
    assert value == ['\\'] + value[1..];
  }

  lemma MoveChar(prefix: string, value: string)
    requires value != []
    ensures prefix + [value[0]] + Backslashes(0) + value[1..] == prefix + value
  {
    assert value == [value[0]] + value[1..];
  }

  /** A quoted argument, from its opening quote. */
  lemma ArgRoundTrip(value: string, k: string)
    requires k == [] || IsBlank(k[0])
    ensures SplitOne(['"'] + Quoted(value, 0, k), false, "") == (value, k)
  {
    var t := Quoted(value, 0, k);
    RunOf(0, ['"'] + t);
    assert Backslashes(0) + (['"'] + t) == ['"'] + t;
    assert (['"'] + t)[1..] == t;
    QuotedRoundTrip(value, 0, k, "");
    assert "" + Backslashes(0) == "" && "" + value == value;
  }

  /** Splitting what was quoted and joined gives back exactly the arguments. */
  lemma {:induction false} ArgsRoundTrip(args: seq<string>)
    ensures Split(Joined(args)) == args
    decreases |args|
  {
    if args != [] {
      var k := if |args| == 1 then "" else [' '] + Joined(args[1..]);
      ArgRoundTrip(args[0], k);
      if |args| > 1 {
        assert k[1..] == Joined(args[1..]);
        ArgsRoundTrip(args[1..]);
      }
      assert args == [args[0]] + args[1..];
    }
  }
}
