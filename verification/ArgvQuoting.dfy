/**
  Windows command lines: two quoting printers (src/sapi/real_win.cc and
  src/s2/os_win.cc) against the parser the child process runs, as Microsoft's
  "Parsing C command-line arguments" describes it.  Characters stand for the
  UTF-16 units of the line.
 */
module ArgvQuoting {
  import opened Fields

  const UNIT := '\U{001f}' // separates the fields of an exec payload
  const NUL := '\U{0000}'

  // ---------- the child's parser ----------

  predicate IsBlank(c: char) {
    c == ' ' || c == '\t'
  }

  function Slashes(n: nat): string {
    seq(n, _ => '\\')
  }

  function SlashRun(s: string): (n: nat)
    ensures n <= |s| && s[..n] == Slashes(n)
    ensures n < |s| ==> s[n] != '\\'
  {
    if s == "" || s[0] != '\\' then 0
    else
      var n := 1 + SlashRun(s[1..]);
      assert s[..n] == ['\\'] + s[1..][..n - 1];
      n
  }

  /**
    One argument from the start of `s`: its text and what is left of the line.
    2n backslashes and a quote give n backslashes and a delimiter, 2n + 1 give
    n backslashes and a literal quote; other backslashes are literal; inside
    quotes a doubled quote is a literal quote.
   */
  function ParseArg(s: string, quoted: bool): (r: (string, string))
    ensures |r.1| <= |s|
    decreases |s|
  {
    if s == "" then ("", "")
    else
      var n := SlashRun(s);
      if n > 0 then
        if n < |s| && s[n] == '"' then
          if n % 2 == 1 then
            var (text, rest) := ParseArg(s[n + 1..], quoted);
            (Slashes(n / 2) + "\"" + text, rest)
          else
            var (text, rest) := ParseArg(s[n..], quoted);
            (Slashes(n / 2) + text, rest)
        else
          var (text, rest) := ParseArg(s[n..], quoted);
          (Slashes(n) + text, rest)
      else if s[0] == '"' then
        if quoted && |s| > 1 && s[1] == '"' then
          var (text, rest) := ParseArg(s[2..], quoted);
          ("\"" + text, rest)
        else
          ParseArg(s[1..], !quoted)
      else if !quoted && IsBlank(s[0]) then ("", s)
      else
        var (text, rest) := ParseArg(s[1..], quoted);
        ([s[0]] + text, rest)
  }

  function SkipBlanks(s: string): (t: string)
    ensures |t| <= |s| && (t != "" ==> !IsBlank(t[0]))
  {
    if s != "" && IsBlank(s[0]) then SkipBlanks(s[1..]) else s
  }

  lemma {:induction false} ParseArgAdvances(s: string)
    requires s != "" && !IsBlank(s[0])
    ensures |ParseArg(s, false).1| < |s|
  {
  }

  function ParseArgs(s: string): seq<string>
    decreases |s|
  {
    var t := SkipBlanks(s);
    if t == "" then []
    else
      ParseArgAdvances(t);
      var (text, rest) := ParseArg(t, false);
      [text] + ParseArgs(rest)
  }

  /** The program name: quotes only switch off blanks, backslashes are ordinary. */
  function ParseProgram(s: string, quoted: bool): (r: (string, string))
    ensures |r.1| <= |s|
    decreases |s|
  {
    if s == "" then ("", "")
    else if s[0] == '"' then ParseProgram(s[1..], !quoted)
    else if !quoted && IsBlank(s[0]) then ("", s)
    else
      var (text, rest) := ParseProgram(s[1..], quoted);
      ([s[0]] + text, rest)
  }

  /** The part of a line a C string keeps. */
  function CString(s: string): string {
    if s == "" || s[0] == NUL then "" else [s[0]] + CString(s[1..])
  }

  /** The argv of the child. */
  function ChildArgv(line: string): seq<string> {
    var (program, rest) := ParseProgram(CString(line), false);
    [program] + ParseArgs(rest)
  }

  // ---------- the escaping that both printers compute ----------

  /** The escaped form of `s` when `n` backslashes have just been written. */
  function Escape(s: string, n: nat): string {
    if s == "" then Slashes(n)
    else if s[0] == '\\' then "\\" + Escape(s[1..], n + 1)
    else if s[0] == '"' then Slashes(n + 1) + "\"" + Escape(s[1..], 0)
    else [s[0]] + Escape(s[1..], 0)
  }

  function QuotedForm(s: string): string {
    "\"" + Escape(s, 0) + "\""
  }

  predicate Bare(s: string) {
    s != "" && forall i :: 0 <= i < |s| ==> !IsBlank(s[i]) && s[i] != '"'
  }

  predicate HasLineBreak(s: string) {
    exists i :: 0 <= i < |s| && (s[i] == '\n' || s[i] == '\U{000b}')
  }

  /** `QuoteArg` also quotes line feeds and vertical tabs. */
  function QuotedArg(s: string): string {
    if Bare(s) && !HasLineBreak(s) then s else QuotedForm(s)
  }

  function Quoted(s: string): string {
    if Bare(s) then s else QuotedForm(s)
  }

  // ---------- the printers ----------

  lemma {:induction false} EscapeRun(n: nat, t: string, m: nat)
    requires t != "" ==> t[0] != '\\'
    ensures Escape(Slashes(n) + t, m) == Slashes(n) + Escape(t, m + n)
  {
    if n == 0 {
      assert Slashes(0) + t == t;
    } else {
      assert (Slashes(n) + t)[1..] == Slashes(n - 1) + t;
      EscapeRun(n - 1, t, m + 1);
    }
  }

  /** The quoted form without its closing quote. */
  ghost function QuotedOpen(s: string): string {
    "\"" + Escape(s, 0)
  }

  /** `out` is the quoted form of what comes before `i`, and the escaped rest completes it. */
  ghost predicate QuotedSoFar(arg: string, i: nat, out: string) {
    i <= |arg| && out + Escape(arg[i..], 0) == QuotedOpen(arg)
  }

  /** The run of backslashes from `start` to `i` reaches the end and is doubled. */
  lemma {:induction false} QuoteEnd(arg: string, start: nat, out: string)
    requires QuotedSoFar(arg, start, out) && arg[start..] == Slashes(|arg| - start)
    ensures QuotedSoFar(arg, |arg|, out + Slashes((|arg| - start) * 2))
  {
    var b := |arg| - start;
    EscapeRun(b, "", 0);
    assert Slashes(b) + "" == Slashes(b);
    assert Slashes(b * 2) == Slashes(b) + Slashes(b);
    var all := out + Slashes(b * 2);
    assert arg[|arg|..] == "" && Escape("", 0) == "" && all + "" == all;
  }

  lemma {:induction false} QuoteDone(arg: string, out: string)
    requires QuotedSoFar(arg, |arg|, out)
    ensures out == QuotedOpen(arg)
  {
    assert arg[|arg|..] == "" && Escape("", 0) == "" && out + "" == out;
  }

  lemma {:induction false} EscapeHead(c: char, rest: string, n: nat)
    requires c != '\\'
    ensures Escape([c] + rest, n) == (if c == '"' then Slashes(n + 1) else "") + ([c] + Escape(rest, 0))
  {
    assert ([c] + rest)[1..] == rest;
    if c == '"' {
      Regroup(Slashes(n + 1), "\"", Escape(rest, 0));
    } else {
      assert "" + ([c] + Escape(rest, 0)) == [c] + Escape(rest, 0);
    }
  }

  /** The run is followed by another character, before which a quote has it doubled and one more. */
  lemma {:induction false} QuoteStep(arg: string, start: nat, i: nat, out: string)
    requires QuotedSoFar(arg, start, out) && start <= i < |arg|
    requires arg[start..i] == Slashes(i - start) && arg[i] != '\\'
    ensures QuotedSoFar(arg, i + 1, out + Slashes(if arg[i] == '"' then (i - start) * 2 + 1 else i - start) + [arg[i]])
  {
    var b, c, e := i - start, arg[i], Escape(arg[i + 1..], 0);
    assert arg[start..] == Slashes(b) + ([c] + arg[i + 1..]);
    EscapeRun(b, [c] + arg[i + 1..], 0);
    EscapeHead(c, arg[i + 1..], b);
    var run := Slashes(if c == '"' then b * 2 + 1 else b);
    assert Slashes(b) + ((if c == '"' then Slashes(b + 1) else "") + ([c] + e)) == run + ([c] + e) by {
      Regroup(Slashes(b), if c == '"' then Slashes(b + 1) else "", [c] + e);
      assert Slashes(b) + (if c == '"' then Slashes(b + 1) else "") == run;
    }
    Regroup(out, run, [c] + e);
    Regroup(out + run, [c], e);
  }

  /** Look-ahead: count a run of backslashes, then see what follows it. */
  method QuoteArg(arg: string) returns (out: string)
    ensures out == QuotedArg(arg)
  {
    var plain := PlainToken(arg);
    if plain {
      return arg;
    }
    out := "\"";
    var i := 0;
    assert arg[0..] == arg;
    while i < |arg|
      invariant QuotedSoFar(arg, i, out)
    {
      var backslashes := 0;
      ghost var start := i;
      while i < |arg| && arg[i] == '\\'
        invariant start <= i <= |arg| && backslashes == i - start
        invariant arg[start..i] == Slashes(backslashes)
      {
        assert arg[start..i + 1] == arg[start..i] + "\\";
        backslashes := backslashes + 1;
        i := i + 1;
      }
      if i == |arg| {
        assert arg[start..i] == arg[start..];
        QuoteEnd(arg, start, out);
        out := out + Slashes(backslashes * 2);
        break;
      }
      QuoteStep(arg, start, i, out);
      if arg[i] == '"' {
        out := out + Slashes(backslashes * 2 + 1);
        assert [arg[i]] == "\"";
        out := out + "\"";
      } else {
        out := out + Slashes(backslashes);
        out := out + [arg[i]];
      }
      i := i + 1;
    }
    QuoteDone(arg, out);
    out := out + "\"";
  }

  /** The search for a character that forces quotes. */
  method PlainToken(arg: string) returns (plain: bool)
    ensures plain <==> Bare(arg) && !HasLineBreak(arg)
    ensures plain <==> arg != "" && forall i :: 0 <= i < |arg| ==> arg[i] as int !in {9, 10, 11, 32, 34}
  {
    for i := 0 to |arg|
      invariant forall k :: 0 <= k < i ==> !IsBlank(arg[k]) && arg[k] != '"' && arg[k] != '\n' && arg[k] != '\U{000b}'
    {
      if arg[i] in {' ', '\t', '\n', '\U{000b}', '"'} {
        return false;
      }
    }
    return arg != "";
  }

  /** Streaming: write backslashes at once and double them when a quote turns up. */
  method Quote(w: string) returns (o: string)
    ensures o == Quoted(w)
  {
    var need := w == "";
    var i := 0;
    while i < |w|
      invariant i <= |w|
      invariant need <==> w == "" || exists k :: 0 <= k < i && (IsBlank(w[k]) || w[k] == '"')
    {
      if w[i] == ' ' || w[i] == '\t' || w[i] == '"' {
        need := true;
        break;
      }
      i := i + 1;
    }
    if !need {
      return w;
    }
    o := "\"";
    var slashes := 0;
    assert w[0..] == w;
    for k := 0 to |w|
      invariant o + Escape(w[k..], slashes) == "\"" + Escape(w, 0)
    {
      assert w[k..][1..] == w[k + 1..];
      if w[k] == '\\' {
        slashes := slashes + 1;
        o := o + "\\";
      } else if w[k] == '"' {
        o := o + Slashes(slashes + 1);
        o := o + "\"";
        slashes := 0;
      } else {
        slashes := 0;
        o := o + [w[k]];
      }
    }
    assert w[|w|..] == "";
    o := o + Slashes(slashes);
    o := o + "\"";
  }

  /** The two printers disagree exactly on arguments that only a line feed or vertical tab makes special. */
  lemma {:induction false} QuotersAgreeIff(arg: string)
    ensures QuotedArg(arg) == Quoted(arg) <==> !(Bare(arg) && HasLineBreak(arg))
    ensures Bare(arg) <==> arg != "" && forall i :: 0 <= i < |arg| ==> arg[i] as int !in {9, 32, 34}
    ensures HasLineBreak(arg) <==> exists i :: 0 <= i < |arg| && arg[i] as int in {10, 11}
  {
    if Bare(arg) && HasLineBreak(arg) {
      assert QuotedForm(arg)[0] == '"' && arg[0] != '"';
    }
  }

  // ---------- an argument survives ----------

  predicate EndsArg(tail: string) {
    tail == "" || IsBlank(tail[0])
  }

  lemma {:induction false} RunThenRest(n: nat, t: string)
    requires t != "" ==> t[0] != '\\'
    ensures SlashRun(Slashes(n) + t) == n
  {
    var s := Slashes(n) + t;
    if n > 0 {
      assert s[1..] == Slashes(n - 1) + t;
      RunThenRest(n - 1, t);
    } else {
      assert s == t;
    }
  }

  /** The text the parser sees inside quotes: pending backslashes, the escaped rest, the closing quote. */
  ghost function Inside(s: string, n: nat, tail: string): string {
    Slashes(n) + (Escape(s, n) + "\"" + tail)
  }

  lemma {:induction false} SlashesAdd(m: nat, n: nat, rest: string)
    ensures Slashes(m) + (Slashes(n) + rest) == Slashes(m + n) + rest
  {
  }

  lemma {:induction false} InsideEnd(n: nat, tail: string)
    ensures Inside("", n, tail) == Slashes(2 * n) + ("\"" + tail)
  {
    assert Escape("", n) + "\"" + tail == Slashes(n) + ("\"" + tail);
    SlashesAdd(n, n, "\"" + tail);
  }

  lemma {:induction false} InsideSlash(s: string, n: nat, tail: string)
    requires s != "" && s[0] == '\\'
    ensures Inside(s, n, tail) == Inside(s[1..], n + 1, tail)
  {
    var rest := Escape(s[1..], n + 1) + "\"" + tail;
    assert Slashes(1) == "\\";
    assert Escape(s, n) + "\"" + tail == Slashes(1) + rest;
    SlashesAdd(n, 1, rest);
  }

  lemma {:induction false} InsideHead(s: string, n: nat, tail: string)
    requires s != "" && s[0] != '\\'
    ensures Escape(s, n) + "\"" + tail ==
            (if s[0] == '"' then Slashes(n + 1) else "") + ([s[0]] + Inside(s[1..], 0, tail))
  {
    var e := Escape(s[1..], 0);
    var run := if s[0] == '"' then Slashes(n + 1) else "";
    assert s == [s[0]] + s[1..];
    EscapeHead(s[0], s[1..], n);
    assert Slashes(0) + (e + "\"" + tail) == e + "\"" + tail;
    Regroup(run, [s[0]] + e, "\"" + tail);
    Regroup([s[0]], e, "\"" + tail);
    Regroup(e, "\"", tail);
    Regroup(run + ([s[0]] + e), "\"", tail);
  }

  lemma {:induction false} InsideQuote(s: string, n: nat, tail: string)
    requires s != "" && s[0] == '"'
    ensures Inside(s, n, tail) == Slashes(2 * n + 1) + ("\"" + Inside(s[1..], 0, tail))
  {
    InsideHead(s, n, tail);
    SlashesAdd(n, n + 1, "\"" + Inside(s[1..], 0, tail));
  }

  lemma {:induction false} InsideOther(s: string, n: nat, tail: string)
    requires s != "" && s[0] != '\\' && s[0] != '"'
    ensures Inside(s, n, tail) == Slashes(n) + ([s[0]] + Inside(s[1..], 0, tail))
  {
    InsideHead(s, n, tail);
    var rest := [s[0]] + Inside(s[1..], 0, tail);
    assert "" + rest == rest;
  }

  /** Inside quotes the escaped text is read back, up to and without the closing quote. */
  ghost predicate ReadsBack(s: string, n: nat, tail: string) {
    ParseArg(Inside(s, n, tail), true) == (Slashes(n) + s, tail)
  }

  lemma {:induction false} EscapeParses(s: string, n: nat, tail: string)
    requires EndsArg(tail)
    ensures ReadsBack(s, n, tail)
    decreases |s|
  {
    if s == "" {
      ReadsBackEnd(n, tail);
    } else if s[0] == '\\' {
      EscapeParses(s[1..], n + 1, tail);
      ReadsBackSlash(s, n, tail);
    } else {
      EscapeParses(s[1..], 0, tail);
      if s[0] == '"' {
        ReadsBackQuote(s, n, tail);
      } else {
        ReadsBackOther(s, n, tail);
      }
    }
  }

  lemma {:induction false} ReadsBackEnd(n: nat, tail: string)
    requires EndsArg(tail)
    ensures ReadsBack("", n, tail)
  {
    InsideEnd(n, tail);
    ClosingQuote(2 * n, tail);
    assert Slashes(n) + "" == Slashes(n);
  }

  lemma {:induction false} HeadSlash(n: nat, s: string)
    requires s != "" && s[0] == '\\'
    ensures Slashes(n) + s == Slashes(n + 1) + s[1..]
  {
  }

  lemma {:induction false} HeadQuote(n: nat, s: string)
    requires s != "" && s[0] == '"'
    ensures Slashes(n) + "\"" + (Slashes(0) + s[1..]) == Slashes(n) + s
  {
  }

  lemma {:induction false} ReadsBackSlash(s: string, n: nat, tail: string)
    requires s != "" && s[0] == '\\' && ReadsBack(s[1..], n + 1, tail)
    ensures ReadsBack(s, n, tail)
  {
    InsideSlash(s, n, tail);
    HeadSlash(n, s);
  }

  lemma {:induction false} ReadsBackQuote(s: string, n: nat, tail: string)
    requires s != "" && s[0] == '"' && ReadsBack(s[1..], 0, tail)
    ensures ReadsBack(s, n, tail)
  {
    InsideQuote(s, n, tail);
    EscapedQuote(n, Inside(s[1..], 0, tail), true);
    HeadQuote(n, s);
  }

  lemma {:induction false} ReadsBackOther(s: string, n: nat, tail: string)
    requires s != "" && s[0] != '\\' && s[0] != '"' && ReadsBack(s[1..], 0, tail)
    ensures ReadsBack(s, n, tail)
  {
    InsideOther(s, n, tail);
    LiteralChar(n, s[0], Inside(s[1..], 0, tail), true);
    assert [s[0]] + (Slashes(0) + s[1..]) == s;
  }

  lemma {:induction false} LiteralChar(n: nat, c: char, rest: string, quoted: bool)
    requires c != '\\' && c != '"' && (quoted || !IsBlank(c))
    ensures ParseArg(Slashes(n) + ([c] + rest), quoted) ==
            (Slashes(n) + ([c] + ParseArg(rest, quoted).0), ParseArg(rest, quoted).1)
  {
    var t := [c] + rest;
    LiteralHead(c, rest, quoted);
    if n == 0 {
      assert Slashes(0) + t == t;
      assert Slashes(0) + ([c] + ParseArg(rest, quoted).0) == [c] + ParseArg(rest, quoted).0;
    } else {
      LiteralRun(n, t, quoted);
    }
  }

  lemma {:induction false} LiteralHead(c: char, rest: string, quoted: bool)
    requires c != '\\' && c != '"' && (quoted || !IsBlank(c))
    ensures ParseArg([c] + rest, quoted) == ([c] + ParseArg(rest, quoted).0, ParseArg(rest, quoted).1)
  {
    var t := [c] + rest;
    assert t[1..] == rest && t[0] == c;
    assert SlashRun(t) == 0;
  }

  lemma {:induction false} EscapedQuote(n: nat, rest: string, quoted: bool)
    ensures ParseArg(Slashes(2 * n + 1) + ("\"" + rest), quoted) ==
            (Slashes(n) + "\"" + ParseArg(rest, quoted).0, ParseArg(rest, quoted).1)
  {
    var m := 2 * n + 1;
    var s := Slashes(m) + ("\"" + rest);
    RunThenRest(m, "\"" + rest);
    assert s[m + 1..] == rest && s[m] == '"' && m % 2 == 1 && m / 2 == n;
  }

  lemma {:induction false} EvenSlashes(n: nat, rest: string, quoted: bool)
    requires n > 0
    ensures ParseArg(Slashes(2 * n) + ("\"" + rest), quoted) ==
            (Slashes(n) + ParseArg("\"" + rest, quoted).0, ParseArg("\"" + rest, quoted).1)
  {
    var s := Slashes(2 * n) + ("\"" + rest);
    RunThenRest(2 * n, "\"" + rest);
    assert s[2 * n..] == "\"" + rest && s[2 * n] == '"';
  }

  lemma {:induction false} QuoteRules(rest: string)
    ensures ParseArg("\"" + ("\"" + rest), true) == ("\"" + ParseArg(rest, true).0, ParseArg(rest, true).1)
    ensures ParseArg("\"" + rest, false) == ParseArg(rest, true)
    ensures rest == "" || rest[0] != '"' ==> ParseArg("\"" + rest, true) == ParseArg(rest, false)
  {
    var t, u := "\"" + rest, "\"" + ("\"" + rest);
    assert SlashRun(t) == 0 && t[1..] == rest;
    assert SlashRun(u) == 0 && u[1] == '"' && u[2..] == rest;
  }

  /**
    The parser follows the documented rules: n backslashes and a quote for
    2n + 1 of them before a quote, n for 2n, all of them before anything else;
    a quote opens or closes, doubled inside quotes it stands for itself; blanks
    end an argument outside quotes only; any other character is itself.
   */
  lemma {:induction false} ParserRules(n: nat, c: char, rest: string, quoted: bool)
    requires c != '"' && c != '\\'
    ensures ParseArg("", quoted) == ("", "")
    ensures ParseArg(Slashes(2 * n + 1) + ("\"" + rest), quoted) ==
            (Slashes(n) + "\"" + ParseArg(rest, quoted).0, ParseArg(rest, quoted).1)
    ensures n > 0 ==> ParseArg(Slashes(2 * n) + ("\"" + rest), quoted) ==
                      (Slashes(n) + ParseArg("\"" + rest, quoted).0, ParseArg("\"" + rest, quoted).1)
    ensures n > 0 ==> ParseArg(Slashes(n) + ([c] + rest), quoted) ==
                      (Slashes(n) + ParseArg([c] + rest, quoted).0, ParseArg([c] + rest, quoted).1)
    ensures ParseArg("\"" + ("\"" + rest), true) == ("\"" + ParseArg(rest, true).0, ParseArg(rest, true).1)
    ensures ParseArg("\"" + rest, false) == ParseArg(rest, true)
    ensures rest == "" || rest[0] != '"' ==> ParseArg("\"" + rest, true) == ParseArg(rest, false)
    ensures ParseArg([c] + rest, quoted) ==
            if !quoted && c in {' ', '\t'} then ("", [c] + rest)
            else ([c] + ParseArg(rest, quoted).0, ParseArg(rest, quoted).1)
  {
    EscapedQuote(n, rest, quoted);
    QuoteRules(rest);
    if n > 0 {
      EvenSlashes(n, rest, quoted);
      LiteralRun(n, [c] + rest, quoted);
    }
    if !quoted && IsBlank(c) {
      assert SlashRun([c] + rest) == 0;
    } else {
      LiteralHead(c, rest, quoted);
    }
  }

  /** The program name knows quotes and blanks only. */
  lemma {:induction false} ProgramRules(c: char, rest: string, quoted: bool)
    ensures ParseProgram("", quoted) == ("", "")
    ensures ParseProgram([c] + rest, quoted) ==
            if c == '"' then ParseProgram(rest, !quoted)
            else if !quoted && c in {' ', '\t'} then ("", [c] + rest)
            else ([c] + ParseProgram(rest, quoted).0, ParseProgram(rest, quoted).1)
  {
    assert ([c] + rest)[1..] == rest;
  }

  lemma {:induction false} ClosingQuote(n: nat, tail: string)
    requires EndsArg(tail) && n % 2 == 0
    ensures ParseArg(Slashes(n) + ("\"" + tail), true) == (Slashes(n / 2), tail)
  {
    var t := "\"" + tail;
    RunThenRest(n, t);
    assert (Slashes(n) + t)[n..] == t;
    RunThenRest(0, t);
    assert Slashes(0) + t == t;
    assert t[1..] == tail;
    assert ParseArg(tail, false) == ("", tail) by {
      if tail != "" {
        RunThenRest(0, tail);
        assert Slashes(0) + tail == tail;
      }
    }
    assert Slashes(n / 2) + "" == Slashes(n / 2);
    if n == 0 {
      assert Slashes(0) == "";
    }
  }

  /** Backslashes that no quote follows are literal. */
  lemma {:induction false} LiteralRun(n: nat, t: string, quoted: bool)
    requires n > 0 && (t != "" ==> t[0] != '\\' && t[0] != '"')
    ensures ParseArg(Slashes(n) + t, quoted) == (Slashes(n) + ParseArg(t, quoted).0, ParseArg(t, quoted).1)
  {
    var s := Slashes(n) + t;
    RunThenRest(n, t);
    assert s[n..] == t;
    assert n < |s| ==> s[n] == t[0];
  }

  lemma {:induction false} BareEnd(n: nat, tail: string)
    requires EndsArg(tail)
    ensures ParseArg(Slashes(n) + tail, false) == (Slashes(n), tail)
  {
    assert ParseArg(tail, false) == ("", tail) by {
      if tail != "" {
        assert SlashRun(tail) == 0;
      }
    }
    if n == 0 {
      assert Slashes(0) + tail == tail && Slashes(0) == "";
    } else {
      LiteralRun(n, tail, false);
      assert Slashes(n) + "" == Slashes(n);
    }
  }

  lemma {:induction false} BareParses(s: string, tail: string)
    requires forall i :: 0 <= i < |s| ==> !IsBlank(s[i]) && s[i] != '"'
    requires EndsArg(tail)
    ensures ParseArg(s + tail, false) == (s, tail)
    decreases |s|
  {
    var n := SlashRun(s);
    if n == |s| {
      assert s == Slashes(n);
      BareEnd(n, tail);
    } else {
      var c, rest := s[n], s[n + 1..];
      assert s == Slashes(n) + ([c] + rest);
      assert s + tail == Slashes(n) + ([c] + (rest + tail));
      BareParses(rest, tail);
      LiteralChar(n, c, rest + tail, false);
    }
  }

  lemma {:induction false} OpeningQuote(inner: string)
    ensures ParseArg("\"" + inner, false) == ParseArg(inner, true)
  {
    var t := "\"" + inner;
    assert SlashRun(t) == 0 && t[1..] == inner;
  }

  lemma {:induction false} QuotedInside(s: string, tail: string)
    ensures QuotedForm(s) + tail == "\"" + Inside(s, 0, tail)
  {
    var e := Escape(s, 0);
    assert Slashes(0) + (e + "\"" + tail) == e + "\"" + tail;
    Regroup("\"", e + "\"", tail);
    Regroup("\"", e, "\"");
  }

  /** Either printer's output is read back as the argument itself, wherever it stands on the line. */
  lemma {:induction false} QuotedParses(s: string, out: string, tail: string)
    requires EndsArg(tail) && (out == QuotedForm(s) || (out == s && Bare(s)))
    ensures ParseArg(out + tail, false) == (s, tail)
  {
    if out == s && Bare(s) {
      BareParses(s, tail);
    } else {
      var inner := Inside(s, 0, tail);
      QuotedInside(s, tail);
      OpeningQuote(inner);
      EscapeParses(s, 0, tail);
      assert Slashes(0) + s == s;
    }
  }

  // ---------- whole command lines ----------

  function QuoteAll(fields: seq<string>): seq<string> {
    if fields == [] then [] else [QuotedArg(fields[0])] + QuoteAll(fields[1..])
  }

  datatype Launch = EmptyArgv | Line(text: string)

  /** What the exec backend makes of a payload: the command line, or its "empty argv" error. */
  function LaunchOf(payload: string): Launch {
    var fields := Split(UNIT, payload);
    if fields[0] == "" then EmptyArgv else Line(Join(' ', QuoteAll(fields)))
  }

  /** `WasiNet::Exec`: the payload loop. */
  method ExecPayload(argv: seq<string>) returns (payload: string)
    ensures payload == Join(UNIT, argv)
  {
    payload := "";
    for i := 0 to |argv|
      invariant payload == Join(UNIT, argv[..i])
    {
      assert argv[..i + 1] == argv[..i] + [argv[i]];
      JoinSnoc(UNIT, argv[..i], argv[i]);
      if i > 0 {
        payload := payload + [UNIT];
      }
      payload := payload + argv[i];
    }
    assert argv[..|argv|] == argv;
  }

  /** `find`: the next separator, or the length of the text. */
  method FindUnit(s: string, start: nat) returns (i: nat)
    requires start <= |s|
    ensures start <= i <= |s| && NoSep(UNIT, s[start..i]) && (i < |s| ==> s[i] == UNIT)
  {
    i := start;
    while i < |s| && s[i] != UNIT
      invariant start <= i <= |s|
      invariant forall k :: start <= k < i ==> s[k] != UNIT
    {
      i := i + 1;
    }
  }

  /** The fields found so far and those of the rest are all the fields. */
  ghost predicate SplitFrom(s: string, start: nat, fields: seq<string>) {
    start <= |s| && fields + Split(UNIT, s[start..]) == Split(UNIT, s)
  }

  lemma {:induction false} NextField(s: string, start: nat, i: nat, fields: seq<string>)
    requires SplitFrom(s, start, fields)
    requires start <= i < |s| && NoSep(UNIT, s[start..i]) && s[i] == UNIT
    ensures SplitFrom(s, i + 1, fields + [s[start..i]])
  {
    SplitWhole(UNIT, s[start..i]);
    assert s[start..] == s[start..i] + [UNIT] + s[i + 1..];
    SplitConcat(UNIT, s[start..i], s[i + 1..]);
  }

  lemma {:induction false} LastField(s: string, start: nat, fields: seq<string>)
    requires SplitFrom(s, start, fields) && NoSep(UNIT, s[start..])
    ensures fields + [s[start..]] == Split(UNIT, s)
  {
    SplitWhole(UNIT, s[start..]);
  }

  method SplitArgv(joined: string) returns (fields: seq<string>)
    ensures fields == Split(UNIT, joined)
  {
    fields := [];
    var start := 0;
    assert joined[0..] == joined;
    while true
      invariant start <= |joined|
      invariant SplitFrom(joined, start, fields)
      decreases |joined| - start
    {
      var i := FindUnit(joined, start);
      if i == |joined| {
        assert joined[start..i] == joined[start..];
        LastField(joined, start, fields);
        fields := fields + [joined[start..i]];
        return;
      }
      NextField(joined, start, i, fields);
      fields := fields + [joined[start..i]];
      start := i + 1;
    }
  }

  /** The head of `LaunchProcess` and `LaunchProcessSplit`. */
  method BuildCommandLine(payload: string) returns (r: Launch)
    ensures r == LaunchOf(payload)
  {
    var fields := SplitArgv(payload);
    if fields == [] || fields[0] == "" {
      return EmptyArgv;
    }
    var cmd := "";
    for i := 0 to |fields|
      invariant cmd == Join(' ', QuoteAll(fields[..i]))
    {
      assert fields[..i + 1] == fields[..i] + [fields[i]];
      QuoteAllSnoc(fields[..i], fields[i]);
      JoinSnoc(' ', QuoteAll(fields[..i]), QuotedArg(fields[i]));
      if i > 0 {
        cmd := cmd + " ";
      }
      var q := QuoteArg(fields[i]);
      cmd := cmd + q;
    }
    assert fields[..|fields|] == fields;
    return Line(cmd);
  }

  lemma {:induction false} QuoteAllSnoc(fields: seq<string>, f: string)
    ensures QuoteAll(fields + [f]) == QuoteAll(fields) + [QuotedArg(f)]
    ensures fields != [] ==> QuoteAll(fields) != []
  {
    if fields == [] {
      assert fields + [f] == [f];
      assert [f][1..] == [];
    } else {
      assert (fields + [f])[1..] == fields[1..] + [f];
      QuoteAllSnoc(fields[1..], f);
    }
  }

  /** Each output is one of the two quotings of its argument. */
  predicate Quotings(args: seq<string>, outs: seq<string>) {
    && |args| == |outs|
    && forall i :: 0 <= i < |args| ==> outs[i] == QuotedForm(args[i]) || (outs[i] == args[i] && Bare(args[i]))
  }

  lemma {:induction false} QuoteAllQuotes(fields: seq<string>)
    ensures Quotings(fields, QuoteAll(fields))
  {
    if fields != [] {
      QuoteAllQuotes(fields[1..]);
    }
  }

  /** The outputs behind the first one, a space before each. */
  ghost function LineTail(outs: seq<string>): string {
    if outs == [] then "" else " " + (outs[0] + LineTail(outs[1..]))
  }

  lemma {:induction false} JoinIsTail(outs: seq<string>)
    requires outs != []
    ensures Join(' ', outs) == outs[0] + LineTail(outs[1..])
  {
    if |outs| > 1 {
      JoinIsTail(outs[1..]);
      assert outs[0] + [' '] + Join(' ', outs[1..]) == outs[0] + LineTail(outs[1..]);
    } else {
      assert outs[0] + "" == outs[0];
    }
  }

  /** The general rules read the whole list of arguments back. */
  lemma {:induction false} TailParses(args: seq<string>, outs: seq<string>)
    requires Quotings(args, outs)
    ensures ParseArgs(LineTail(outs)) == args
    decreases |args|
  {
    if args != [] {
      var rest := LineTail(outs[1..]);
      var t := outs[0] + rest;
      TailParses(args[1..], outs[1..]);
      QuotedParses(args[0], outs[0], rest);
      assert LineTail(outs) == " " + t;
      assert (" " + t)[1..] == t;
      assert t[0] == outs[0][0];
      assert SkipBlanks(t) == t;
      assert SkipBlanks(" " + t) == t;
      assert args == [args[0]] + args[1..];
    }
  }

  // ---------- the program name ----------

  /** Under the program-name rule an argument is kept if it has no quote and, when quoted, no final backslash. */
  predicate SafeProgram(arg: string, out: string) {
    NoSep('"', arg) && (out == arg || arg == "" || arg[|arg| - 1] != '\\')
  }

  lemma {:induction false} ProgramBare(s: string, tail: string)
    requires forall i :: 0 <= i < |s| ==> !IsBlank(s[i]) && s[i] != '"'
    requires EndsArg(tail)
    ensures ParseProgram(s + tail, false) == (s, tail)
  {
    if s == "" {
      assert s + tail == tail;
    } else {
      assert (s + tail)[1..] == s[1..] + tail;
      ProgramBare(s[1..], tail);
      assert [s[0]] + s[1..] == s;
    }
  }

  lemma {:induction false} ProgramQuoted(s: string, tail: string)
    requires NoSep('"', s) && EndsArg(tail)
    ensures ParseProgram(s + ("\"" + tail), true) == (s, tail)
  {
    if s == "" {
      assert s + ("\"" + tail) == "\"" + tail;
      assert ("\"" + tail)[1..] == tail;
    } else {
      assert (s + ("\"" + tail))[1..] == s[1..] + ("\"" + tail);
      ProgramQuoted(s[1..], tail);
      assert [s[0]] + s[1..] == s;
    }
  }

  /** Without quotes to escape only the final run of backslashes grows. */
  lemma {:induction false} EscapeQuoteFree(s: string, n: nat) returns (k: nat)
    requires NoSep('"', s)
    ensures Escape(s, n) == s + Slashes(k)
    ensures k == 0 <==> if s == "" then n == 0 else s[|s| - 1] != '\\'
  {
    if s == "" {
      k := n;
      assert s + Slashes(n) == Slashes(n);
    } else {
      k := EscapeQuoteFree(s[1..], if s[0] == '\\' then n + 1 else 0);
      assert s == [s[0]] + s[1..];
      assert [s[0]] + (s[1..] + Slashes(k)) == s + Slashes(k);
    }
  }

  lemma {:induction false} ProgramHasNoQuote(s: string, quoted: bool)
    ensures NoSep('"', ParseProgram(s, quoted).0)
  {
    if s != "" {
      ProgramHasNoQuote(s[1..], quoted);
      ProgramHasNoQuote(s[1..], !quoted);
    }
  }

  /** Read back as program name: unharmed when safe, and otherwise never the argument nor an extension by `UNIT`. */
  lemma {:induction false} ProgramParses(arg: string, out: string, tail: string)
    requires EndsArg(tail) && (out == QuotedForm(arg) || (out == arg && Bare(arg)))
    ensures var r := ParseProgram(out + tail, false);
            && (SafeProgram(arg, out) ==> r == (arg, tail))
            && (!SafeProgram(arg, out) ==> r.0 != arg && forall more: string :: r.0 != arg + [UNIT] + more)
  {
    if out == arg && Bare(arg) {
      ProgramBare(arg, tail);
    } else if NoSep('"', arg) {
      var k := EscapeQuoteFree(arg, 0);
      var e := arg + Slashes(k);
      assert out + tail == "\"" + (e + ("\"" + tail));
      assert ("\"" + (e + ("\"" + tail)))[1..] == e + ("\"" + tail);
      ProgramQuoted(e, tail);
      assert k == 0 ==> e == arg;
      assert k > 0 ==> e[|arg|] == '\\' && |e| > |arg|;
      forall more: string ensures k > 0 ==> e != arg + [UNIT] + more {
        assert (arg + [UNIT] + more)[|arg|] == UNIT;
      }
    } else {
      ProgramHasNoQuote(out + tail, false);
      var i :| 0 <= i < |arg| && arg[i] == '"';
      forall more: string ensures ParseProgram(out + tail, false).0 != arg + [UNIT] + more {
        assert (arg + [UNIT] + more)[i] == '"';
      }
    }
  }

  // ---------- NUL ends the line ----------

  lemma {:induction false} CStringWhole(s: string)
    ensures NoSep(NUL, CString(s)) && CString(s) <= s
    ensures CString(s) != s ==> s[|CString(s)|] == NUL
    ensures NoSep(NUL, s) ==> CString(s) == s
  {
    if s != "" {
      CStringWhole(s[1..]);
      assert NoSep(NUL, s) ==> NoSep(NUL, s[1..]);
      assert s == [s[0]] + s[1..];
    }
  }

  lemma {:induction false} EscapeNoNul(s: string, n: nat)
    requires NoSep(NUL, s)
    ensures NoSep(NUL, Escape(s, n))
  {
    if s != "" {
      EscapeNoNul(s[1..], if s[0] == '\\' then n + 1 else 0);
    }
  }

  lemma {:induction false} TailNoNul(args: seq<string>, outs: seq<string>)
    requires Quotings(args, outs) && forall i :: 0 <= i < |args| ==> NoSep(NUL, args[i])
    ensures NoSep(NUL, LineTail(outs))
  {
    if args != [] {
      TailNoNul(args[1..], outs[1..]);
      QuotingNoNul(args[0], outs[0]);
    }
  }

  lemma {:induction false} QuotingNoNul(arg: string, out: string)
    requires NoSep(NUL, arg) && (out == QuotedForm(arg) || out == arg)
    ensures NoSep(NUL, out)
  {
    EscapeNoNul(arg, 0);
  }

  predicate PiecesNoNul(s: string, quoted: bool) {
    NoSep(NUL, ParseArg(s, quoted).0) && NoSep(NUL, ParseArg(s, quoted).1)
  }

  lemma {:induction false} PiecesAfterRun(s: string, quoted: bool)
    requires SlashRun(s) > 0
    requires var n := SlashRun(s);
             PiecesNoNul(if n < |s| && s[n] == '"' && n % 2 == 1 then s[n + 1..] else s[n..], quoted)
    ensures PiecesNoNul(s, quoted)
  {
  }

  lemma {:induction false} ParsePiecesNoNul(s: string, quoted: bool)
    requires NoSep(NUL, s)
    ensures PiecesNoNul(s, quoted)
    decreases |s|
  {
    if s != "" {
      var n := SlashRun(s);
      if n > 0 {
        ParsePiecesNoNul(if n < |s| && s[n] == '"' && n % 2 == 1 then s[n + 1..] else s[n..], quoted);
        PiecesAfterRun(s, quoted);
      } else if s[0] == '"' && quoted && |s| > 1 && s[1] == '"' {
        ParsePiecesNoNul(s[2..], quoted);
      } else {
        ParsePiecesNoNul(s[1..], if s[0] == '"' then !quoted else quoted);
      }
    }
  }

  lemma {:induction false} ProgramNoNul(s: string, quoted: bool)
    requires NoSep(NUL, s)
    ensures NoSep(NUL, ParseProgram(s, quoted).0) && NoSep(NUL, ParseProgram(s, quoted).1)
  {
    if s != "" {
      ProgramNoNul(s[1..], quoted);
      ProgramNoNul(s[1..], !quoted);
    }
  }

  lemma {:induction false} SkipBlanksNoNul(s: string)
    requires NoSep(NUL, s)
    ensures NoSep(NUL, SkipBlanks(s))
  {
    if s != "" && IsBlank(s[0]) {
      SkipBlanksNoNul(s[1..]);
    }
  }

  lemma {:induction false} ParseArgsNoNul(s: string)
    requires NoSep(NUL, s)
    ensures forall i :: 0 <= i < |ParseArgs(s)| ==> NoSep(NUL, ParseArgs(s)[i])
    decreases |s|
  {
    var t := SkipBlanks(s);
    SkipBlanksNoNul(s);
    if t != "" {
      ParseArgAdvances(t);
      ParsePiecesNoNul(t, false);
      ParseArgsNoNul(ParseArg(t, false).1);
    }
  }

  /** No argument a child sees holds a NUL. */
  lemma {:induction false} ChildArgvNoNul(line: string)
    ensures forall i :: 0 <= i < |ChildArgv(line)| ==> NoSep(NUL, ChildArgv(line)[i])
  {
    CStringWhole(line);
    ProgramNoNul(CString(line), false);
    ParseArgsNoNul(ParseProgram(CString(line), false).1);
  }

  // ---------- delivery ----------

  predicate AllWithout(c: char, argv: seq<string>) {
    forall i :: 0 <= i < |argv| ==> NoSep(c, argv[i])
  }

  /** A line of quoted, NUL-free arguments: everything but the program name arrives, and the name when it is safe. */
  lemma {:induction false} LineParses(args: seq<string>, outs: seq<string>)
    requires Quotings(args, outs) && args != [] && AllWithout(NUL, args)
    ensures var c := ChildArgv(Join(' ', outs));
            && (SafeProgram(args[0], outs[0]) ==> c == args)
            && (!SafeProgram(args[0], outs[0]) ==>
                  c[0] != args[0] && forall more: string :: c[0] != args[0] + [UNIT] + more)
  {
    var tail := LineTail(outs[1..]);
    JoinIsTail(outs);
    TailNoNul(args[1..], outs[1..]);
    QuotingNoNul(args[0], outs[0]);
    CStringWhole(outs[0] + tail);
    ProgramParses(args[0], outs[0], tail);
    TailParses(args[1..], outs[1..]);
    assert args == [args[0]] + args[1..];
  }

  lemma {:induction false} SplitWithout(sep: char, c: char, s: string)
    requires NoSep(c, s)
    ensures AllWithout(c, Split(sep, s))
    decreases |s|
  {
    var k := FirstSep(sep, s);
    if k < |s| {
      SplitWithout(sep, c, s[k + 1..]);
    }
  }

  lemma {:induction false} JoinWithout(sep: char, c: char, argv: seq<string>)
    requires AllWithout(c, argv) && c != sep
    ensures NoSep(c, Join(sep, argv))
  {
    if |argv| > 1 {
      JoinWithout(sep, c, argv[1..]);
    }
  }

  /** Splitting a joined argv gives it back exactly when it is non-empty and free of the separator. */
  lemma {:induction false} SplitJoinIff(argv: seq<string>)
    ensures Split(UNIT, Join(UNIT, argv)) == argv <==> argv != [] && AllWithout(UNIT, argv)
  {
    if argv != [] && AllWithout(UNIT, argv) {
      SplitJoin(UNIT, argv);
    }
    SplitFields(UNIT, Join(UNIT, argv));
  }

  /** The first field of a payload starts the first argument. */
  lemma {:induction false} FirstField(argv: seq<string>)
    requires argv != []
    ensures var f := Split(UNIT, Join(UNIT, argv))[0];
            f == argv[0] || exists more: string :: argv[0] == f + [UNIT] + more
  {
    var a := argv[0];
    if |argv| > 1 {
      SplitConcat(UNIT, a, Join(UNIT, argv[1..]));
    }
    var k := FirstSep(UNIT, a);
    assert Split(UNIT, a)[0] == a[..k];
    if k < |a| {
      assert a == a[..k] + [UNIT] + a[k + 1..];
    } else {
      assert a[..k] == a;
    }
  }

  /** The child of an exec request receives exactly the argv that was asked for. */
  predicate Delivered(argv: seq<string>) {
    var l := LaunchOf(Join(UNIT, argv));
    l.Line? && ChildArgv(l.text) == argv
  }

  predicate Deliverable(argv: seq<string>) {
    && argv != [] && argv[0] != ""
    && AllWithout(UNIT, argv) && AllWithout(NUL, argv)
    && SafeProgram(argv[0], QuotedArg(argv[0]))
  }

  /** From `WasiNet::Exec` through the payload, the launcher and the child's own parser. */
  lemma {:induction false} ArgvRoundTripIff(argv: seq<string>)
    ensures Delivered(argv) <==> Deliverable(argv)
  {
    SplitJoinIff(argv);
    if Deliverable(argv) {
      QuoteAllQuotes(argv);
      LineParses(argv, QuoteAll(argv));
    }
    if Delivered(argv) {
      DeliveredImpliesDeliverable(argv);
    }
  }

  lemma {:induction false} DeliveredImpliesDeliverable(argv: seq<string>)
    requires Delivered(argv)
    ensures Deliverable(argv)
  {
    var payload := Join(UNIT, argv);
    var fields := Split(UNIT, payload);
    ChildArgvNoNul(LaunchOf(payload).text);
    JoinWithout(UNIT, NUL, argv);
    SplitWithout(UNIT, NUL, payload);
    QuoteAllQuotes(fields);
    LineParses(fields, QuoteAll(fields));
    FirstField(argv);
    assert fields == argv;
    SplitFields(UNIT, payload);
  }

  // ---------- the sandbox launcher ----------

  function QuoteEach(argv: seq<string>): seq<string> {
    if argv == [] then [] else [Quoted(CString(argv[0]))] + QuoteEach(argv[1..])
  }

  /** The line of `Spawn`: the quoted argv, or the quoted path when there is none. */
  function SpawnLine(path: string, argv: seq<string>): string {
    if argv == [] then Quoted(CString(path)) else Join(' ', QuoteEach(argv))
  }

  lemma {:induction false} QuoteEachQuotes(argv: seq<string>)
    requires AllWithout(NUL, argv)
    ensures Quotings(argv, QuoteEach(argv))
  {
    if argv != [] {
      CStringWhole(argv[0]);
      QuoteEachQuotes(argv[1..]);
    }
  }

  lemma {:induction false} QuoteEachSnoc(argv: seq<string>, a: string)
    ensures QuoteEach(argv + [a]) == QuoteEach(argv) + [Quoted(CString(a))]
    ensures argv != [] ==> QuoteEach(argv) != []
  {
    if argv == [] {
      assert argv + [a] == [a];
      assert [a][1..] == [];
    } else {
      assert (argv + [a])[1..] == argv[1..] + [a];
      QuoteEachSnoc(argv[1..], a);
    }
  }

  /** `Widen` stops at the first NUL. */
  method BuildSpawnLine(path: string, argv: seq<string>) returns (cmd: string)
    ensures cmd == SpawnLine(path, argv)
  {
    if argv == [] {
      cmd := Quote(CString(path));
      return;
    }
    cmd := "";
    for i := 0 to |argv|
      invariant cmd == Join(' ', QuoteEach(argv[..i]))
    {
      assert argv[..i + 1] == argv[..i] + [argv[i]];
      QuoteEachSnoc(argv[..i], argv[i]);
      JoinSnoc(' ', QuoteEach(argv[..i]), Quoted(CString(argv[i])));
      if i > 0 {
        cmd := cmd + " ";
      }
      var q := Quote(CString(argv[i]));
      cmd := cmd + q;
    }
    assert argv[..|argv|] == argv;
  }

  /** A sandboxee receives its argv (or its path, without one) exactly when NUL-free with a safe program name. */
  lemma {:induction false} SpawnRoundTripIff(path: string, argv: seq<string>)
    ensures var want := if argv == [] then [path] else argv;
            ChildArgv(SpawnLine(path, argv)) == want
            <==> AllWithout(NUL, want) && SafeProgram(want[0], Quoted(want[0]))
  {
    var want := if argv == [] then [path] else argv;
    ChildArgvNoNul(SpawnLine(path, argv));
    if AllWithout(NUL, want) {
      QuoteEachQuotes(want);
      CStringWhole(want[0]);
      LineParses(want, QuoteEach(want));
      assert SpawnLine(path, argv) == Join(' ', QuoteEach(want));
    }
  }

  /** A child that reads its whole line by the general rules gets every argument, whatever its program name. */
  lemma {:induction false} GeneralRulesReadAll(argv: seq<string>)
    requires argv != [] && argv[0] != "" && AllWithout(UNIT, argv)
    ensures LaunchOf(Join(UNIT, argv)).Line?
    ensures ParseArgs(LaunchOf(Join(UNIT, argv)).text) == argv
  {
    SplitJoinIff(argv);
    var outs := QuoteAll(argv);
    QuoteAllQuotes(argv);
    TailParses(argv, outs);
    JoinIsTail(outs);
    var t := Join(' ', outs);
    assert LineTail(outs) == " " + t;
    assert (" " + t)[1..] == t;
    assert t[0] == outs[0][0];
    assert SkipBlanks(t) == t && SkipBlanks(" " + t) == t;
  }
}
