/**
 The command line handed to a `.cmd`/`.bat` shim on Windows, and the three stages that read it
 back: the caret pass of cmd.exe over the command, a second caret pass over the arguments when the
 shim forwards them, and the argument split of the Microsoft C runtime.

 The encoder follows src/gigaloom/native_cli_process.py; the readers follow the documented rules
 of cmd.exe and of the C runtime and are written independently of the encoder.
 */
module CmdShim {
  import opened Wrappers

  datatype ShimError = NotRepresentable

  // ---------- The encoder ----------

  /** The characters that the source escapes with a caret. */
  predicate IsMeta(c: char) {
    || c == '(' || c == ')' || c == '[' || c == ']' || c == '{' || c == '}'
    || c == '%' || c == '!' || c == '^' || c == '"' || c == '`' || c == '<' || c == '>'
    || c == '&' || c == '|' || c == ';' || c == ',' || c == '*' || c == '?' || c == ' '
  }

  predicate Representable(value: string) {
    '\0' !in value && '\r' !in value && '\n' !in value
  }

  /** The length of the run of backslashes that `s` starts with. */
  function SlashRun(s: string): (n: nat)
    ensures n <= |s|
    ensures n < |s| ==> s[n] != '\\'
    ensures s[..n] == Slashes(n)
  {
    if s != "" && s[0] == '\\' then 1 + SlashRun(s[1..]) else 0
  }

  function Slashes(n: nat): string {
    seq(n, _ => '\\')
  }

  /** Substitution of every backslash run followed by a quote: the run doubled, then `\"`. */
  function DoubleBeforeQuotes(s: string): string {
    if s == "" then ""
    else
      var n := SlashRun(s);
      if n < |s| && s[n] == '"' then
        Slashes(2 * n) + "\\\"" + DoubleBeforeQuotes(s[n + 1..])
      else
        [s[0]] + DoubleBeforeQuotes(s[1..])
  }

  /** Substitution of the backslash run that ends the text: the run doubled. */
  function DoubleTrailing(s: string): string {
    if s == "" then ""
    else if SlashRun(s) == |s| then Slashes(2 * |s|)
    else [s[0]] + DoubleTrailing(s[1..])
  }

  function Body(value: string): string {
    DoubleTrailing(DoubleBeforeQuotes(value))
  }

  function Quote(value: string): string {
    "\"" + Body(value) + "\""
  }

  /** One round of caret escapes. */
  function Caret(s: string): string {
    if s == "" then ""
    else (if IsMeta(s[0]) then ['^', s[0]] else [s[0]]) + Caret(s[1..])
  }

  function EncodeToken(value: string, doubleEscape: bool): Result<string, ShimError> {
    if !Representable(value) then Failure(NotRepresentable)
    else
      var once := Caret(Quote(value));
      Success(if doubleEscape then Caret(once) else once)
  }

  /** The encoded arguments, each after one blank; fails at the first unrepresentable argument. */
  function EncodeArguments(arguments: seq<string>): Result<string, ShimError> {
    if arguments == [] then Success("")
    else
      match EncodeToken(arguments[0], true)
      case Failure(error) => Failure(error)
      case Success(token) =>
        match EncodeArguments(arguments[1..])
        case Failure(error) => Failure(error)
        case Success(rest) => Success(" " + token + rest)
  }

  /** The command text that `cmd.exe /d /s /v:off /c` receives between its outer quotes. */
  function BuildCommand(path: string, arguments: seq<string>): Result<string, ShimError> {
    match EncodeToken(path, false)
    case Failure(error) => Failure(error)
    case Success(program) =>
      match EncodeArguments(arguments)
      case Failure(error) => Failure(error)
      case Success(rest) => Success(program + rest)
  }

  // ---------- The readers ----------

  /** One pass of cmd.exe: outside quotes a caret is dropped and makes the next character literal;
      an unescaped quote switches quoting, inside which carets are ordinary text. */
  function CmdPass(s: string, quoted: bool): string {
    if s == "" then ""
    else if s[0] == '"' then "\"" + CmdPass(s[1..], !quoted)
    else if s[0] == '^' && !quoted then
      if |s| == 1 then "" else [s[1]] + CmdPass(s[2..], false)
    else [s[0]] + CmdPass(s[1..], quoted)
  }

  // What cmd.exe acts on outside quotes, in its own terms.

  predicate Operator(c: char) {
    c == '&' || c == '|' || c == '<' || c == '>' || c == '(' || c == ')'
  }

  predicate Expansion(c: char) {
    c == '%' || c == '!' || c == '^' || c == '"'
  }

  predicate Delimiter(c: char) {
    c == ' ' || c == '\t' || c == ',' || c == ';' || c == '='
  }

  /** Wildcards, and the further characters that `cmd /?` asks to quote. */
  predicate Pattern(c: char) {
    c == '*' || c == '?' || c == '[' || c == ']' || c == '{' || c == '}' || c == '`'
  }

  predicate Special(c: char) {
    Operator(c) || Expansion(c) || Delimiter(c) || Pattern(c)
  }

  /** The special characters that the same pass meets in force: outside quotes and not made literal
      by a caret. A quote is always in force when it is reached without a caret. */
  function Exposed(s: string, quoted: bool): string {
    if s == "" then ""
    else if s[0] == '"' then "\"" + Exposed(s[1..], !quoted)
    else if s[0] == '^' && !quoted then
      if |s| == 1 then "^" else Exposed(s[2..], false)
    else (if Special(s[0]) && !quoted then [s[0]] else "") + Exposed(s[1..], quoted)
  }

  /** The tabs and equals signs of a text: the delimiters that no caret is put before. */
  function Loose(s: string): string {
    if s == "" then "" else (if s[0] == '\t' || s[0] == '=' then [s[0]] else "") + Loose(s[1..])
  }

  predicate IsBlank(c: char) {
    c == ' ' || c == '\t'
  }

  /** The C runtime reading one argument: 2n backslashes before a quote give n backslashes and a
      delimiter, 2n+1 give n and a literal quote, a doubled quote inside quotes is one quote, and
      backslashes before anything else stand for themselves. Returns the argument and what follows. */
  function ReadArgument(s: string, quoted: bool): (r: (string, string))
    ensures |r.1| <= |s|
    ensures s != "" && (quoted || !IsBlank(s[0])) ==> |r.1| < |s|
    decreases |s|
  {
    var n := SlashRun(s);
    if n < |s| && s[n] == '"' then
      if n % 2 == 1 then
        var (more, rest) := ReadArgument(s[n + 1..], quoted);
        (Slashes(n / 2) + "\"" + more, rest)
      else if quoted && n + 1 < |s| && s[n + 1] == '"' then
        var (more, rest) := ReadArgument(s[n + 2..], quoted);
        (Slashes(n / 2) + "\"" + more, rest)
      else
        var (more, rest) := ReadArgument(s[n + 1..], !quoted);
        (Slashes(n / 2) + more, rest)
    else if n > 0 then
      var (more, rest) := ReadArgument(s[n..], quoted);
      (Slashes(n) + more, rest)
    else if s == "" || (!quoted && IsBlank(s[0])) then
      ("", s)
    else
      var (more, rest) := ReadArgument(s[1..], quoted);
      ([s[0]] + more, rest)
  }

  /** The C runtime argument split of everything after the program name. */
  function SplitArguments(s: string): seq<string>
    decreases |s|
  {
    if s == "" then []
    else if IsBlank(s[0]) then SplitArguments(s[1..])
    else
      var (argument, rest) := ReadArgument(s, false);
      [argument] + SplitArguments(rest)
  }

  // ---------- Carets ----------

  lemma PassOneCharacter(c: char, rest: string)
    ensures CmdPass(Caret([c]) + rest, false) == [c] + CmdPass(rest, false)
    ensures Exposed(Caret([c]) + rest, false) == Loose([c]) + Exposed(rest, false)
  {
    var text := Caret([c]) + rest;
    SpecialIsEscaped(c);
    assert [c][1..] == "";
    if IsMeta(c) {
      assert Caret([c]) == ['^', c];
      assert text[2..] == rest;
    } else {
      assert Caret([c]) == [c];
      assert text[1..] == rest;
    }
  }

  /** A caret is put before every special character but tab and equals sign, and before no other. */
  lemma SpecialIsEscaped(c: char)
    ensures Caret([c]) == if Special(c) && c != '\t' && c != '=' then ['^', c] else [c]
  {
    assert [c][1..] == "";
  }

  lemma CaretStep(s: string)
    ensures if s == "" then Caret(s) == "" else Caret(s) == Caret([s[0]]) + Caret(s[1..])
    ensures if s == "" then Loose(s) == "" else Loose(s) == Loose([s[0]]) + Loose(s[1..])
  {
    hide IsMeta, Caret, Loose;
    if s == "" {
      NothingToEscape();
    } else {
      LooseStep(s[0], s[1..]);
      CaretOne(s[0], s[1..]);
      assert s == [s[0]] + s[1..];
    }
  }

  lemma NothingToEscape()
    ensures Caret("") == "" && Loose("") == ""
  {
  }

  lemma CaretOne(c: char, rest: string)
    ensures Caret([c] + rest) == Caret([c]) + Caret(rest)
  {
    hide IsMeta;
    assert ([c] + rest)[1..] == rest && [c][1..] == "";
  }

  /** One pass undoes one round of carets and meets no special character in force but the tabs and
      equals signs of the text. */
  lemma {:induction false} CaretUndone(s: string, rest: string)
    ensures CmdPass(Caret(s) + rest, false) == s + CmdPass(rest, false)
    ensures Exposed(Caret(s) + rest, false) == Loose(s) + Exposed(rest, false)
  {
    hide CmdPass, Exposed, Caret, Loose;
    CaretStep(s);
    if s == "" {
      assert Caret(s) + rest == rest;
      assert s + CmdPass(rest, false) == CmdPass(rest, false);
      assert Loose(s) + Exposed(rest, false) == Exposed(rest, false);
    } else {
      var more := Caret(s[1..]) + rest;
      assert Caret(s) + rest == Caret([s[0]]) + more;
      PassOneCharacter(s[0], more);
      CaretUndone(s[1..], rest);
      assert s + CmdPass(rest, false) == [s[0]] + (s[1..] + CmdPass(rest, false));
      assert Loose(s) + Exposed(rest, false) == Loose([s[0]]) + (Loose(s[1..]) + Exposed(rest, false));
    }
  }

  // ---------- Quoting against the argument split ----------

  lemma {:induction false} SlashRunIs(n: nat, rest: string)
    requires rest == "" || rest[0] != '\\'
    ensures SlashRun(Slashes(n) + rest) == n
  {
    if n == 0 {
      assert Slashes(n) + rest == rest;
    } else {
      SlashRunIs(n - 1, rest);
      assert (Slashes(n) + rest)[1..] == Slashes(n - 1) + rest;
    }
  }

  lemma {:induction false} BeforeQuotesStep(s: string)
    requires s != ""
    ensures var n := SlashRun(s);
            DoubleBeforeQuotes(s) ==
            if n < |s| && s[n] == '"' then Slashes(2 * n) + "\\\"" + DoubleBeforeQuotes(s[n + 1..])
            else [s[0]] + DoubleBeforeQuotes(s[1..])
  {
    hide SlashRun, Slashes;
  }

  /** A run of backslashes that does not stand before a quote is kept by the first substitution. */
  lemma {:induction false} BeforeQuotesKeepsRun(s: string, n: nat)
    requires n == SlashRun(s) < |s| && s[n] != '"'
    ensures DoubleBeforeQuotes(s) == s[..n + 1] + DoubleBeforeQuotes(s[n + 1..])
  {
    hide DoubleBeforeQuotes;
    BeforeQuotesStep(s);
    if n == 0 {
      assert s[..1] == [s[0]];
    } else {
      BeforeQuotesKeepsRun(s[1..], n - 1);
      assert s[1..][n..] == s[n + 1..];
      assert s[..n + 1] == [s[0]] + s[1..][..n];
    }
  }

  lemma {:induction false} BeforeQuotesAllSlashes(s: string)
    requires SlashRun(s) == |s|
    ensures DoubleBeforeQuotes(s) == s
  {
    if s != "" {
      BeforeQuotesAllSlashes(s[1..]);
      assert s == [s[0]] + s[1..];
    }
  }

  /** The second substitution leaves alone everything up to a character that is no backslash. */
  lemma {:induction false} TrailingSkips(prefix: string, rest: string)
    requires prefix != "" && prefix[|prefix| - 1] != '\\'
    ensures DoubleTrailing(prefix + rest) == prefix + DoubleTrailing(rest)
  {
    hide DoubleTrailing;
    var text := prefix + rest;
    var tail := prefix[1..];
    TrailingStep(text, |prefix| - 1);
    assert text[1..] == tail + rest;
    assert prefix == [prefix[0]] + tail;
    if tail == "" {
      assert tail + rest == rest;
    } else {
      TrailingSkips(tail, rest);
    }
  }

  lemma {:induction false} RunStops(s: string, k: nat)
    requires k < |s| && s[k] != '\\'
    ensures SlashRun(s) <= k
  {
    if k > 0 {
      RunStops(s[1..], k - 1);
    }
  }

  lemma TrailingStep(s: string, k: nat)
    requires k < |s| && s[k] != '\\'
    ensures DoubleTrailing(s) == [s[0]] + DoubleTrailing(s[1..])
  {
    RunStops(s, k);
  }

  lemma BodyAllSlashes(value: string)
    requires SlashRun(value) == |value|
    ensures Body(value) == Slashes(2 * |value|)
  {
    hide DoubleBeforeQuotes;
    BeforeQuotesAllSlashes(value);
  }

  lemma BodyAtQuote(value: string, n: nat)
    requires n == SlashRun(value) < |value| && value[n] == '"'
    ensures Body(value) == (Slashes(2 * n + 1) + "\"") + Body(value[n + 1..])
  {
    hide DoubleBeforeQuotes, DoubleTrailing, SlashRun;
    BeforeQuotesStep(value);
    SlashThenQuote(n);
    TrailingSkips(Slashes(2 * n + 1) + "\"", DoubleBeforeQuotes(value[n + 1..]));
  }

  lemma SlashThenQuote(n: nat)
    ensures Slashes(2 * n) + "\\\"" == Slashes(2 * n + 1) + "\""
  {
  }

  lemma BodyAtOther(value: string, n: nat)
    requires n == SlashRun(value) < |value| && value[n] != '"'
    ensures Body(value) == value[..n + 1] + Body(value[n + 1..])
  {
    hide DoubleBeforeQuotes, DoubleTrailing, SlashRun;
    BeforeQuotesKeepsRun(value, n);
    TrailingSkips(value[..n + 1], DoubleBeforeQuotes(value[n + 1..]));
  }

  /** One step of the split at a backslash run that ends in `c`, inside quotes. */
  lemma ReadsRun(n: nat, c: char, more: string)
    requires c != '\\'
    requires c == '"' && n % 2 == 0 ==> more == "" || more[0] != '"'
    ensures var text := Slashes(n) + ([c] + more);
            var (inside, after) := ReadArgument(more, true);
            var (outside, following) := ReadArgument(more, false);
            ReadArgument(text, true) ==
            if c != '"' then (Slashes(n) + ([c] + inside), after)
            else if n % 2 == 1 then (Slashes(n / 2) + "\"" + inside, after)
            else (Slashes(n / 2) + outside, following)
  {
    var text := Slashes(n) + ([c] + more);
    SlashRunIs(n, [c] + more);
    assert text[n] == c && text[n + 1..] == more && text[n..] == [c] + more;
    if c != '"' {
      ReadsPlain(c, more);
      if n == 0 {
        assert text == [c] + more;
        assert Slashes(0) + ([c] + ReadArgument(more, true).0) == [c] + ReadArgument(more, true).0;
      } else {
        ReadsSlashes(text);
      }
    } else {
      ReadsDelimiter(text);
    }
  }

  lemma ReadsPlain(c: char, more: string)
    requires c != '\\' && c != '"'
    ensures ReadArgument([c] + more, true) == ([c] + ReadArgument(more, true).0, ReadArgument(more, true).1)
  {
    assert ([c] + more)[1..] == more;
  }

  lemma ReadsSlashes(s: string)
    requires 0 < SlashRun(s) < |s| && s[SlashRun(s)] != '"'
    ensures var n := SlashRun(s);
            ReadArgument(s, true) == (Slashes(n) + ReadArgument(s[n..], true).0, ReadArgument(s[n..], true).1)
  {
  }

  lemma ReadsDelimiter(s: string)
    requires var n := SlashRun(s);
             n < |s| && s[n] == '"' && (n % 2 == 0 ==> n + 1 == |s| || s[n + 1] != '"')
    ensures var n := SlashRun(s);
            var (inside, after) := ReadArgument(s[n + 1..], true);
            var (outside, following) := ReadArgument(s[n + 1..], false);
            ReadArgument(s, true) ==
            if n % 2 == 1 then (Slashes(n / 2) + "\"" + inside, after)
            else (Slashes(n / 2) + outside, following)
  {
  }

  /** Inside quotes, the argument split reads a quoted body back to the value. */
  lemma {:induction false} ReadsBodyBack(value: string, rest: string)
    requires rest == "" || IsBlank(rest[0])
    ensures ReadArgument(Body(value) + ("\"" + rest), true) == (value, rest)
    decreases |value|
  {
    hide Body, ReadArgument;
    var n := SlashRun(value);
    var text := Body(value) + ("\"" + rest);
    if n == |value| {
      BodyAllSlashes(value);
      ReadsRun(2 * n, '"', rest);
      ReadsNothing(rest);
      assert value == Slashes(n) + "";
    } else {
      var tail := value[n + 1..];
      var more := Body(tail) + ("\"" + rest);
      ReadsBodyBack(tail, rest);
      if value[n] == '"' {
        BodyAtQuote(value, n);
        assert text == Slashes(2 * n + 1) + ("\"" + more);
        ReadsRun(2 * n + 1, '"', more);
        assert value == Slashes(n) + "\"" + tail;
      } else {
        BodyAtOther(value, n);
        assert text == Slashes(n) + ([value[n]] + more);
        ReadsRun(n, value[n], more);
        assert value == Slashes(n) + ([value[n]] + tail);
      }
    }
  }

  lemma ReadsNothing(rest: string)
    requires rest == "" || IsBlank(rest[0])
    ensures ReadArgument(rest, false) == ("", rest)
  {
  }

  /** Arguments as the shim's own process receives them: quoted, each after one blank. */
  function QuotedArguments(arguments: seq<string>): string {
    if arguments == [] then "" else " " + Quote(arguments[0]) + QuotedArguments(arguments[1..])
  }

  lemma SplitStep(argument: string, rest: string)
    requires rest == "" || IsBlank(rest[0])
    ensures SplitArguments(" " + Quote(argument) + rest) == [argument] + SplitArguments(rest)
  {
    hide Body, ReadArgument, IsBlank, SplitArguments;
    var inner := Body(argument) + ("\"" + rest);
    assert " " + Quote(argument) + rest == " " + ("\"" + inner);
    SplitBlank("\"" + inner);
    SplitQuoted(inner);
    ReadsBodyBack(argument, rest);
  }

  lemma SplitBlank(s: string)
    ensures SplitArguments(" " + s) == SplitArguments(s)
  {
    assert (" " + s)[1..] == s;
  }

  lemma SplitQuoted(inner: string)
    ensures SplitArguments("\"" + inner) ==
            [ReadArgument(inner, true).0] + SplitArguments(ReadArgument(inner, true).1)
  {
    hide ReadArgument;
    ReadsOpening(inner);
  }

  lemma ReadsOpening(inner: string)
    ensures ReadArgument("\"" + inner, false) == ReadArgument(inner, true)
  {
    assert ("\"" + inner)[1..] == inner;
    var (argument, rest) := ReadArgument(inner, true);
    assert Slashes(0) + argument == argument;
  }

  lemma {:induction false} SplitReadsQuoted(arguments: seq<string>)
    ensures SplitArguments(QuotedArguments(arguments)) == arguments
  {
    hide SplitArguments, Quote;
    if arguments == [] {
      SplitNothing();
    } else {
      SplitReadsQuoted(arguments[1..]);
      SplitStep(arguments[0], QuotedArguments(arguments[1..]));
    }
  }

  lemma SplitNothing()
    ensures SplitArguments("") == []
  {
  }

  // ---------- Main results ----------

  function OnceEscaped(arguments: seq<string>): string {
    if arguments == [] then "" else " " + Caret(Quote(arguments[0])) + OnceEscaped(arguments[1..])
  }

  /** What is in force in the argument text: a blank before each argument, and its tabs and equals signs. */
  function InForce(arguments: seq<string>): string {
    if arguments == [] then "" else " " + Loose(arguments[0]) + InForce(arguments[1..])
  }

  predicate HasLoose(s: string) {
    exists k | 0 <= k < |s| :: s[k] == '\t' || s[k] == '='
  }

  lemma LooseStep(c: char, rest: string)
    ensures Loose([c] + rest) == Loose([c]) + Loose(rest)
  {
    assert ([c] + rest)[1..] == rest && [c][1..] == "";
  }

  lemma {:induction false} LooseConcat(s: string, t: string)
    ensures Loose(s + t) == Loose(s) + Loose(t)
  {
    hide Loose;
    CaretStep(s);
    if s == "" {
      assert s + t == t && Loose(s) + Loose(t) == Loose(t);
    } else {
      LooseConcat(s[1..], t);
      LooseStep(s[0], s[1..] + t);
      assert s + t == [s[0]] + (s[1..] + t);
      assert Loose(s) + Loose(t) == Loose([s[0]]) + (Loose(s[1..]) + Loose(t));
    }
  }

  lemma {:induction false} LooseIsNothing(s: string)
    ensures Loose(s) == "" <==> !HasLoose(s)
    ensures forall k | 0 <= k < |Loose(s)| :: Loose(s)[k] == '\t' || Loose(s)[k] == '='
  {
    if s != "" {
      LooseIsNothing(s[1..]);
      assert HasLoose(s) <==> s[0] == '\t' || s[0] == '=' || HasLoose(s[1..]) by {
        if HasLoose(s[1..]) {
          var k :| 0 <= k < |s[1..]| && (s[1..][k] == '\t' || s[1..][k] == '=');
          assert s[k + 1] == s[1..][k];
        }
        if k :| 0 < k < |s| && (s[k] == '\t' || s[k] == '=') {
          assert s[1..][k - 1] == s[k];
        }
      }
    }
  }

  lemma SlashesAreNotLoose(n: nat)
    ensures Loose(Slashes(n)) == ""
  {
    LooseIsNothing(Slashes(n));
  }

  lemma {:induction false} BeforeQuotesLoose(s: string)
    ensures Loose(DoubleBeforeQuotes(s)) == Loose(s)
    decreases |s|
  {
    hide Loose, DoubleBeforeQuotes;
    if s == "" {
      NothingToDouble();
      return;
    }
    BeforeQuotesStep(s);
    var n := SlashRun(s);
    if n < |s| && s[n] == '"' {
      var tail := s[n + 1..];
      BeforeQuotesLoose(tail);
      DoubledLoose(n, DoubleBeforeQuotes(tail), tail);
      assert s == Slashes(n) + ("\"" + tail);
    } else {
      BeforeQuotesLoose(s[1..]);
      LooseStep(s[0], DoubleBeforeQuotes(s[1..]));
      LooseStep(s[0], s[1..]);
      assert s == [s[0]] + s[1..];
    }
  }

  lemma NothingToDouble()
    ensures DoubleBeforeQuotes("") == ""
  {
  }

  lemma DoubledLoose(n: nat, doubled: string, tail: string)
    ensures Loose(Slashes(2 * n) + "\\\"" + doubled) == Loose(doubled)
    ensures Loose(Slashes(n) + ("\"" + tail)) == Loose(tail)
  {
    hide Loose, Slashes;
    SlashesAreNotLoose(2 * n);
    SlashesAreNotLoose(n);
    QuoteIsNotLoose();
    LooseConcat(Slashes(2 * n) + "\\\"", doubled);
    LooseConcat(Slashes(2 * n), "\\\"");
    LooseConcat(Slashes(n), "\"" + tail);
    LooseConcat("\"", tail);
    assert "" + Loose(doubled) == Loose(doubled) && "" + ("" + Loose(tail)) == Loose(tail);
  }

  lemma QuoteIsNotLoose()
    ensures Loose("\\\"") == "" && Loose("\"") == "" && Loose("^") == "" && Loose(" ") == ""
  {
  }

  lemma {:induction false} TrailingLoose(s: string)
    ensures Loose(DoubleTrailing(s)) == Loose(s)
  {
    hide SlashRun;
    CaretStep(s);
    if s != "" {
      if SlashRun(s) == |s| {
        assert s == Slashes(|s|);
        SlashesAreNotLoose(|s|);
        SlashesAreNotLoose(2 * |s|);
      } else {
        TrailingLoose(s[1..]);
        LooseConcat([s[0]], DoubleTrailing(s[1..]));
      }
    }
  }

  /** Quoting and carets add neither tab nor equals sign and take none away. */
  lemma QuotedLoose(value: string)
    ensures Loose(Quote(value)) == Loose(value) == Loose(Caret(Quote(value)))
  {
    hide Loose, DoubleTrailing, DoubleBeforeQuotes;
    BeforeQuotesLoose(value);
    TrailingLoose(DoubleBeforeQuotes(value));
    QuoteIsNotLoose();
    LooseConcat("\"" + Body(value), "\"");
    LooseConcat("\"", Body(value));
    CaretLoose(Quote(value));
  }

  lemma {:induction false} CaretLoose(s: string)
    ensures Loose(Caret(s)) == Loose(s)
  {
    hide Loose;
    CaretStep(s);
    if s != "" {
      CaretLoose(s[1..]);
      LooseConcat(Caret([s[0]]), Caret(s[1..]));
      assert Loose(Caret([s[0]])) == Loose([s[0]]) by {
        SpecialIsEscaped(s[0]);
        QuoteIsNotLoose();
        LooseConcat("^", [s[0]]);
        assert ['^', s[0]] == "^" + [s[0]];
      }
    }
  }

  lemma BlankPasses(rest: string)
    ensures CmdPass(" " + rest, false) == " " + CmdPass(rest, false)
    ensures Exposed(" " + rest, false) == " " + Exposed(rest, false)
  {
    assert (" " + rest)[1..] == rest;
  }

  lemma TokenPasses(inner: string, rest: string)
    ensures CmdPass(" " + Caret(inner) + rest, false) == " " + inner + CmdPass(rest, false)
    ensures Exposed(" " + Caret(inner) + rest, false) == " " + Loose(inner) + Exposed(rest, false)
  {
    hide Caret, Loose, CmdPass, Exposed;
    CaretUndone(inner, rest);
    BlankPasses(Caret(inner) + rest);
    assert " " + Caret(inner) + rest == " " + (Caret(inner) + rest);
  }

  /** Each caret pass strips exactly one layer from the argument text; in either pass exactly the joining
      blanks, one an argument, and the arguments' own tabs and equals signs are in force. */
  lemma {:induction false} ArgumentPasses(arguments: seq<string>)
    requires forall a :: a in arguments ==> !Breaks(a)
    ensures EncodeArguments(arguments).Success?
    ensures CmdPass(EncodeArguments(arguments).value, false) == OnceEscaped(arguments)
    ensures CmdPass(OnceEscaped(arguments), false) == QuotedArguments(arguments)
    ensures Exposed(EncodeArguments(arguments).value, false) == InForce(arguments)
    ensures Exposed(OnceEscaped(arguments), false) == InForce(arguments)
  {
    if arguments != [] {
      hide CmdPass, Exposed, Caret, Quote, Loose;
      ArgumentPasses(arguments[1..]);
      BreaksExactly(arguments[0]);
      var quoted := Quote(arguments[0]);
      QuotedLoose(arguments[0]);
      TokenPasses(Caret(quoted), EncodeArguments(arguments[1..]).value);
      TokenPasses(quoted, OnceEscaped(arguments[1..]));
    }
  }

  /** No operator and nothing to expand is ever in force, and nothing but the joining blanks exactly if no
      argument holds a tab or an equals sign. */
  lemma {:induction false} OnlyDelimitersInForce(arguments: seq<string>)
    ensures forall k | 0 <= k < |InForce(arguments)| ::
              !Operator(InForce(arguments)[k]) && !Expansion(InForce(arguments)[k]) && !Pattern(InForce(arguments)[k])
    ensures |InForce(arguments)| >= |arguments|
    ensures |InForce(arguments)| == |arguments| <==> forall a :: a in arguments ==> !HasLoose(a)
  {
    hide Loose, HasLoose;
    if arguments != [] {
      LooseIsNothing(arguments[0]);
      OnlyDelimitersInForce(arguments[1..]);
      assert arguments == [arguments[0]] + arguments[1..];
    }
  }

  /** The whole path of a command: it exists for all text without NUL, CR and LF; the first pass gives
      the quoted program followed by the once-escaped arguments; the second pass over those arguments
      and the argument split give the caller's list exactly; and in both passes nothing is in force but
      the joining blanks and the tabs and equals signs of program and arguments. */
  lemma CommandRoundTrip(path: string, arguments: seq<string>)
    requires !Breaks(path) && forall a :: a in arguments ==> !Breaks(a)
    ensures BuildCommand(path, arguments).Success?
    ensures var command := BuildCommand(path, arguments).value;
            var forwarded := OnceEscaped(arguments);
            && CmdPass(command, false) == Quote(path) + forwarded
            && SplitArguments(CmdPass(forwarded, false)) == arguments
            && Exposed(command, false) == Loose(path) + InForce(arguments)
            && Exposed(forwarded, false) == InForce(arguments)
  {
    BreaksExactly(path);
    ArgumentPasses(arguments);
    QuotedLoose(path);
    CaretUndone(Quote(path), EncodeArguments(arguments).value);
    SplitReadsQuoted(arguments);
  }

  /** NUL, LF or CR stands in the text. */
  predicate Breaks(value: string) {
    exists k | 0 <= k < |value| :: value[k] as int in {0, 10, 13}
  }

  lemma BreaksExactly(value: string)
    ensures Representable(value) <==> !Breaks(value)
  {
    if Breaks(value) {
      var k :| 0 <= k < |value| && value[k] as int in {0, 10, 13};
      assert value[k] == '\0' || value[k] == '\n' || value[k] == '\r';
    }
  }

  lemma {:induction false} ArgumentsRefusedExactly(arguments: seq<string>)
    ensures EncodeArguments(arguments).Failure? <==> exists a :: a in arguments && Breaks(a)
  {
    hide Breaks;
    if arguments != [] {
      BreaksExactly(arguments[0]);
      ArgumentsRefusedExactly(arguments[1..]);
      assert forall a :: a in arguments <==> a == arguments[0] || a in arguments[1..];
    }
  }

  /** A command is refused exactly when the path or an argument holds NUL, CR or LF. */
  lemma RefusedExactly(path: string, arguments: seq<string>)
    ensures BuildCommand(path, arguments).Failure? <==> Breaks(path) || exists a :: a in arguments && Breaks(a)
  {
    hide Breaks;
    BreaksExactly(path);
    ArgumentsRefusedExactly(arguments);
  }

  /** Different argument lists never share a command text. */
  lemma CommandsDistinguishArguments(path: string, xs: seq<string>, ys: seq<string>)
    requires BuildCommand(path, xs).Success? && BuildCommand(path, xs) == BuildCommand(path, ys)
    ensures xs == ys
  {
    RefusedExactly(path, xs);
    RefusedExactly(path, ys);
    CommandRoundTrip(path, xs);
    CommandRoundTrip(path, ys);
    var quoted := Quote(path);
    assert OnceEscaped(xs) == (quoted + OnceEscaped(xs))[|quoted|..];
    assert OnceEscaped(ys) == (quoted + OnceEscaped(ys))[|quoted|..];
  }
}
