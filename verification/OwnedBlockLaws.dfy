/** What the owned-block editor keeps, and exactly when what it wrote reads back. */
module OwnedBlockLaws {
  import opened Wrappers
  import opened Text
  import opened OwnedBlock
  import opened QuotedText
  import opened OwnedBlockReader

  // ---------- The lines of a rendered block ----------

  ghost predicate OneLine(s: string) {
    forall k :: 0 <= k < |s| ==> s[k] != '\n'
  }

  /** A line that neither breaks nor could be taken for an END marker. */
  ghost predicate BodyLine(line: string) {
    OneLine(line) && line != "" && (line[0] == '#' ==> |line| > 2 && line[2] != 'E')
  }

  lemma KeyLineIsBody(key: string, rest: string)
    requires OneLine(key) && key != "" && key[0] != '#' && OneLine(rest)
    ensures BodyLine(key + rest)
  {
  }

  lemma {:induction false} EscapedIsOneLine(s: string)
    ensures OneLine(Escaped(s))
  {
    if s != "" {
      EscapedIsOneLine(s[1..]);
      var c := s[0];
      if 14 <= c as int < 32 || c as int < 8 || c as int == 11 {
        assert HexDigit(c as int / 16) != '\n' && HexDigit(c as int % 16) != '\n';
      }
    }
  }

  lemma {:induction false} CommaJoinedIsOneLine(items: seq<string>)
    requires forall item :: item in items ==> OneLine(item)
    ensures OneLine(CommaJoined(items))
  {
    if items != [] {
      assert items[0] in items;
      if |items| > 1 {
        CommaJoinedIsOneLine(items[1..]);
        assert OneLine(", ");
      }
    }
  }

  lemma QuotedIsOneLine(s: string)
    ensures OneLine(Quoted(s))
  {
    EscapedIsOneLine(s);
  }

  lemma {:induction false} DecimalIsOneLine(n: nat)
    ensures OneLine(Decimal(n))
  {
    if n >= 10 {
      DecimalIsOneLine(n / 10);
    }
  }

  lemma ArrayLineIsBody(key: string, items: seq<string>)
    requires OneLine(key) && key != "" && key[0] != '#'
    ensures forall line :: line in ArrayLine(key, items) ==> BodyLine(line)
  {
    var quoted := seq(|items|, i requires 0 <= i < |items| => Quoted(items[i]));
    forall item | item in quoted ensures OneLine(item) {
      var i :| 0 <= i < |items| && item == Quoted(items[i]);
      QuotedIsOneLine(items[i]);
    }
    CommaJoinedIsOneLine(quoted);
    var rest := " = " + TomlArray(items);
    assert OneLine(rest);
    KeyLineIsBody(key, rest);
    assert key + " = " + TomlArray(items) == key + rest;
  }

  lemma TextLineIsBody(key: string, value: Option<string>)
    requires OneLine(key) && key != "" && key[0] != '#'
    ensures forall line :: line in TextLine(key, value) ==> BodyLine(line)
  {
    if value.Some? {
      QuotedIsOneLine(value.value);
      var rest := " = " + Quoted(value.value);
      assert OneLine(rest);
      KeyLineIsBody(key, rest);
      assert key + " = " + Quoted(value.value) == key + rest;
    }
  }

  lemma JoinIsOneLine(a: string, b: string)
    requires OneLine(a) && OneLine(b)
    ensures OneLine(a + b)
  {
  }

  lemma HeaderItemIsOneLine(header: (string, string))
    ensures OneLine(HeaderItem(header))
  {
    hide Quoted, OneLine;
    QuotedIsOneLine(header.0);
    QuotedIsOneLine(header.1);
    assert OneLine(" = ") by { ShortTextsAreOneLine(); }
    JoinIsOneLine(Quoted(header.0), " = ");
    JoinIsOneLine(Quoted(header.0) + " = ", Quoted(header.1));
  }

  lemma ShortTextsAreOneLine()
    ensures OneLine(" = ") && OneLine(" }")
  {
  }

  lemma HeaderTableIsOneLine(headers: seq<(string, string)>)
    ensures OneLine(HeaderTable(headers))
  {
    hide HeaderItem, CommaJoined, OneLine;
    var items := seq(|headers|, i requires 0 <= i < |headers| => HeaderItem(headers[i]));
    forall item | item in items ensures OneLine(item) {
      var i :| 0 <= i < |headers| && item == HeaderItem(headers[i]);
      HeaderItemIsOneLine(headers[i]);
    }
    CommaJoinedIsOneLine(items);
  }

  lemma {:induction false} HeaderLineIsBody(headers: seq<(string, string)>)
    ensures BodyLine("env_http_headers = { " + HeaderTable(headers) + " }")
  {
    hide HeaderTable;
    HeaderTableIsOneLine(headers);
    var rest := HeaderTable(headers) + " }";
    assert OneLine(rest) by {
      ShortTextsAreOneLine();
      JoinIsOneLine(HeaderTable(headers), " }");
    }
    KeyLineIsBody("env_http_headers = { ", rest);
    assert "env_http_headers = { " + HeaderTable(headers) + " }" == "env_http_headers = { " + rest;
  }

  lemma TransportLinesAreBody(transport: Transport)
    ensures forall line :: line in TransportLines(transport) ==> BodyLine(line)
  {
    hide Quoted, ArrayLine, TextLine, HeaderTable;
    match transport
    case Stdio(command, args, cwd, envVars) =>
      QuotedIsOneLine(command);
      KeyLineIsBody("command = ", Quoted(command));
      ArrayLineIsBody("args", args);
      TextLineIsBody("cwd", cwd);
      ArrayLineIsBody("env_vars", envVars);
    case StreamableHttp(url, bearer, headers) =>
      QuotedIsOneLine(url);
      KeyLineIsBody("url = ", Quoted(url));
      TextLineIsBody("bearer_token_env_var", bearer);
      HeaderLineIsBody(headers);
  }

  ghost predicate AllBody(lines: seq<string>) {
    forall line :: line in lines ==> BodyLine(line)
  }

  lemma SwitchLinesAreBody(server: ServerSpec)
    ensures AllBody(SwitchLines(server))
  {
    hide Quoted, Decimal;
    KeyLineIsBody("enabled = ", BoolText(server.enabled));
    KeyLineIsBody("required = ", BoolText(server.required));
    DecimalIsOneLine(server.startupTimeoutSec);
    KeyLineIsBody("startup_timeout_sec = ", Decimal(server.startupTimeoutSec));
    DecimalIsOneLine(server.toolTimeoutSec);
    KeyLineIsBody("tool_timeout_sec = ", Decimal(server.toolTimeoutSec));
    QuotedIsOneLine(server.approvalMode);
    KeyLineIsBody("default_tools_approval_mode = ", Quoted(server.approvalMode));
  }

  lemma TableLineIsBody(server: ServerSpec)
    ensures BodyLine("[mcp_servers." + Quoted(server.name) + "]")
  {
    hide Quoted;
    QuotedIsOneLine(server.name);
    var rest := Quoted(server.name) + "]";
    assert OneLine(rest);
    KeyLineIsBody("[mcp_servers.", rest);
    assert "[mcp_servers." + Quoted(server.name) + "]" == "[mcp_servers." + rest;
  }

  lemma TomlLinesAreBody(server: ServerSpec)
    ensures AllBody(TomlLines(server))
  {
    hide BodyLine, Quoted, ArrayLine, TransportLines, SwitchLines;
    TableLineIsBody(server);
    TransportLinesAreBody(server.transport);
    SwitchLinesAreBody(server);
    ArrayLineIsBody("enabled_tools", server.enabledTools);
    ArrayLineIsBody("disabled_tools", server.disabledTools);
  }

  lemma EntryLineIsBody(key: string, value: string)
    requires OneLine(key) && key != "" && key[0] != 'E' && PlainText(value)
    ensures BodyLine(EntryLine(key, value))
  {
    PlainTextIsOneLine(value);
  }

  lemma PlainTextIsOneLine(s: string)
    requires PlainText(s)
    ensures OneLine(s)
  {
    assert '\n' !in s;
  }

  lemma BodyLinesAreBody(host: Host, r: Request)
    requires ValidRequest(host, r)
    ensures AllBody(BodyLines(host, r)) && BodyLines(host, r) != []
  {
    hide BodyLine, TomlLines, PlainText, EntryLine;
    TomlLinesAreBody(r.server);
    EntryLineIsBody("package_version", r.package.version);
    EntryLineIsBody("manifest_sha256", r.package.manifestHash);
    EntryLineIsBody("server_name", r.server.name);
    EntryLineIsBody("server_spec_sha256", host.specHash(r.server));
  }

  // ---------- Marks ----------

  lemma PrefixCharacter(w: string, t: string, k: nat)
    requires k < |w|
    ensures w <= t ==> k < |t| && t[k] == w[k]
  {
  }

  lemma PrefixWithin(w: string, head: string, rest: string)
    ensures w <= head + rest && |w| <= |head| ==> w <= head
  {
    if |w| <= |head| {
      assert (head + rest)[..|w|] == head[..|w|];
    }
  }

  /** A one-line mark does not start at a line unless it starts that line. */
  lemma PrefixOfFirstLine(w: string, line: string, more: string)
    requires OneLine(w)
    ensures w <= line + ("\n" + more) ==> w <= line
  {
    var t := line + ("\n" + more);
    if |line| < |w| {
      PrefixCharacter(w, t, |line|);
    }
    PrefixWithin(w, line, "\n" + more);
  }

  /** A mark without a line break does not stand at any line start inside body lines. */
  lemma {:induction false} NoMarkInUnlines(lines: seq<string>, rest: string, j: nat, w: string)
    requires forall line :: line in lines ==> OneLine(line) && !(w <= line)
    requires OneLine(w) && j < |Unlines(lines)|
    ensures !MarkAt(Unlines(lines) + rest, j, w)
  {
    var line := lines[0];
    var more := Unlines(lines[1..]) + rest;
    var t := Unlines(lines) + rest;
    assert line in lines;
    assert t == line + ("\n" + more);
    assert t[|line|] == '\n' && t[|line| + 1..] == more;
    if j == 0 {
      PrefixOfFirstLine(w, line, more);
      assert t[0..] == t;
    } else if j <= |line| {
      assert t[j - 1] == line[j - 1];
    } else {
      NoMarkInUnlines(lines[1..], rest, j - |line| - 1, w);
      assert t[j..] == more[j - |line| - 1..];
    }
  }

  /** Text behind a newline changes no mark before it, if the mark breaks at most at its end. */
  lemma MarkStaysInside(u: string, rest: string, i: nat, w: string)
    requires u != "" && u[|u| - 1] == '\n' && i < |u|
    requires w != "" && OneLine(w[..|w| - 1])
    ensures MarkAt(u + rest, i, w) <==> MarkAt(u, i, w)
  {
    var t := u + rest;
    assert t[i..] == u[i..] + rest;
    if |u| - i < |w| {
      PrefixCharacter(w, t[i..], |u| - 1 - i);
      assert w[..|w| - 1][|u| - 1 - i] == w[|u| - 1 - i];
    }
    PrefixWithin(w, u[i..], rest);
  }

  lemma PrefixesAreOneLine()
    ensures OneLine(BEGIN_PREFIX) && OneLine(END_PREFIX)
    ensures |BEGIN_PREFIX| > 2 && BEGIN_PREFIX[0] == '#' && BEGIN_PREFIX[2] == 'B'
    ensures |END_PREFIX| > 2 && END_PREFIX[0] == '#' && END_PREFIX[2] == 'E'
  {
  }

  lemma MarksAreOneLine(package: string)
    requires PlainText(package)
    ensures OneLine(EndMark(package)) && OneLine(BEGIN_PREFIX + package)
    ensures BeginLine(package) != "" && OneLine(BeginLine(package)[..|BeginLine(package)| - 1])
    ensures |BeginLine(package)| > 2 && BeginLine(package)[0] == '#' && BeginLine(package)[2] == 'B'
    ensures BeginLine(package)[|BeginLine(package)| - 1] == '\n'
    ensures |EndMark(package)| > 2 && EndMark(package)[0] == '#' && EndMark(package)[2] == 'E'
  {
    PrefixesAreOneLine();
    PlainTextIsOneLine(package);
    assert BeginLine(package)[..|BeginLine(package)| - 1] == BEGIN_PREFIX + package;
  }

  lemma {:induction false} FirstBlockSkips(t: string, from: nat, until: nat, package: string)
    requires from <= until <= |t|
    requires forall i :: from <= i < until ==> !MarkAt(t, i, BeginLine(package))
    ensures FirstBlock(t, from, package) == FirstBlock(t, until, package)
    decreases until - from
  {
    hide MarkAt, BeginLine, BlockEnd;
    if from < until {
      FirstBlockSkips(t, from + 1, until, package);
    }
  }

  /** Marks behind a line start are those of the text from there on. */
  lemma MarkShift(head: string, t: string, k: nat, w: string)
    requires head == "" || head[|head| - 1] == '\n'
    requires k <= |t|
    ensures MarkAt(head + t, |head| + k, w) <==> MarkAt(t, k, w)
  {
    var u := head + t;
    assert u[|head| + k..] == t[k..];
    assert k > 0 ==> u[|head| + k - 1] == t[k - 1];
  }

  // ---------- The appended block ----------

  /** What stands in front of the block in the assembled text. */
  function Lead(base: string): string {
    if base == "" then "" else base + "\n\n"
  }

  lemma AssembleIs(base: string, block: string)
    ensures Assemble(base, block) == Lead(base) + (block + "\n")
  {
  }

  lemma NoEarlierEndMark(head: string, lines: seq<string>, package: string, k: nat)
    requires AllBody(lines) && lines != [] && PlainText(package)
    requires |head| <= k < |head| + |Unlines(lines)| && head != "" && head[|head| - 1] == '\n'
    ensures !MarkAt(head + (Unlines(lines) + (EndMark(package) + "\n")), k, EndMark(package))
  {
    hide Unlines, EndMark, MarkAt, AllBody, PlainText;
    var end := EndMark(package);
    MarksAreOneLine(package);
    EndMarkIsNoBodyPrefix(lines, package);
    NoMarkInUnlines(lines, end + "\n", k - |head|, end);
    MarkShift(head, Unlines(lines) + (end + "\n"), k - |head|, end);
  }

  /** Behind a BEGIN line, the first END marker is the one that follows the body lines. */
  lemma EndMarkFollowsBody(head: string, lines: seq<string>, package: string)
    requires head != "" && head[|head| - 1] == '\n'
    requires AllBody(lines) && lines != [] && PlainText(package)
    ensures FirstMark(head + (Unlines(lines) + (EndMark(package) + "\n")), |head|, EndMark(package))
         == Some(|head| + |Unlines(lines)|)
  {
    hide Unlines, EndMark, MarkAt, AllBody, PlainText;
    var body, end := Unlines(lines), EndMark(package);
    var tail := body + (end + "\n");
    BodyEndsLine(lines);
    MarksAreOneLine(package);
    var found := |head| + |body|;
    MarkAtStart(end, "\n");
    MarkShift(body, end + "\n", 0, end);
    MarkShift(head, tail, |body|, end);
    assert MarkAt(head + tail, found, end);
    forall k | |head| <= k < found ensures !MarkAt(head + tail, k, end) {
      NoEarlierEndMark(head, lines, package, k);
    }
    FirstMarkIs(head + tail, |head|, found, end);
  }

  /** The block that was appended last is found where it was put and extends to the end. */
  lemma AppendedBlock(host: Host, lead: string, r: Request)
    requires ValidRequest(host, r)
    requires lead == "" || lead[|lead| - 1] == '\n'
    ensures var t := lead + (RenderBlock(host, r) + "\n");
            && MarkAt(t, |lead|, BeginLine(r.package.id))
            && BlockEnd(t, |lead|, r.package.id) == Some(|t|)
            && t[|lead|..] == RenderBlock(host, r) + "\n"
  {
    hide BodyLines, Unlines, EndMark, BeginLine, MarkAt, FirstMark, BlockEnd, AllBody;
    var package, lines := r.package.id, BodyLines(host, r);
    var begin := BeginLine(package);
    var tail := Unlines(lines) + (EndMark(package) + "\n");
    MarksAreOneLine(package);
    RenderedIs(host, r);
    var t := lead + (begin + tail);
    assert t == (lead + begin) + tail;
    BodyLinesAreBody(host, r);
    EndMarkFollowsBody(lead + begin, lines, package);
    MarkShift(lead, begin + tail, 0, begin);
    MarkAtStart(begin, tail);
    assert t[|lead|..] == begin + tail;
    assert t[|t| - 1] == '\n';
    BlockEndsWithNewline(t, |lead|, package, |lead| + |begin| + |Unlines(lines)|);
  }

  lemma MarkAtStart(w: string, tail: string)
    ensures MarkAt(w + tail, 0, w)
  {
    assert (w + tail)[0..][..|w|] == w;
  }

  lemma RenderedIs(host: Host, r: Request)
    ensures RenderBlock(host, r) + "\n" ==
            BeginLine(r.package.id) + (Unlines(BodyLines(host, r)) + (EndMark(r.package.id) + "\n"))
  {
    hide BeginLine, BodyLines, Unlines, EndMark;
  }

  lemma BlockEndsWithNewline(t: string, i: nat, package: string, j: nat)
    requires FirstMark(t, i + |BeginLine(package)|, EndMark(package)) == Some(j)
    requires |t| == j + |EndMark(package)| + 1 && t[|t| - 1] == '\n'
    ensures BlockEnd(t, i, package) == Some(|t|)
  {
  }

  lemma FirstMarkIs(t: string, from: nat, j: nat, w: string)
    requires from <= j && MarkAt(t, j, w) && forall k :: from <= k < j ==> !MarkAt(t, k, w)
    ensures FirstMark(t, from, w) == Some(j)
  {
  }

  lemma EndMarkIsNoBodyPrefix(lines: seq<string>, package: string)
    requires AllBody(lines) && PlainText(package)
    ensures forall line :: line in lines ==> OneLine(line) && !(EndMark(package) <= line)
  {
    MarksAreOneLine(package);
    forall line | line in lines ensures OneLine(line) && !(EndMark(package) <= line) {
      PrefixCharacter(EndMark(package), line, 0);
      PrefixCharacter(EndMark(package), line, 2);
    }
  }

  lemma BodyEndsLine(lines: seq<string>)
    requires lines != []
    ensures Unlines(lines) != "" && Unlines(lines)[|Unlines(lines)| - 1] == '\n'
  {
    if |lines| > 1 {
      BodyEndsLine(lines[1..]);
    }
  }

  // ---------- Read back, frame, last write wins ----------

  /** No BEGIN line of the package in the foreign text, counting the newline it will be given. */
  ghost predicate NoStray(base: string, package: string) {
    forall i :: 0 <= i <= |base| ==> !MarkAt(base + "\n", i, BeginLine(package))
  }

  /** Marks in front of the appended block are the marks of the foreign text. */
  lemma LeadMarks(base: string, rest: string, i: nat, w: string)
    requires base != "" && i <= |base|
    requires w != "" && OneLine(w[..|w| - 1])
    ensures MarkAt(Lead(base) + rest, i, w) <==> MarkAt(base + "\n", i, w)
  {
    var u := base + "\n";
    assert Lead(base) + rest == u + ("\n" + rest);
    MarkStaysInside(u, "\n" + rest, i, w);
  }

  lemma LeadHasNoBegin(base: string, rest: string, package: string)
    requires PlainText(package) && NoStray(base, package)
    ensures forall i :: 0 <= i < |Lead(base)| ==> !MarkAt(Lead(base) + rest, i, BeginLine(package))
  {
    hide BeginLine, PlainText;
    MarksAreOneLine(package);
    forall i | 0 <= i < |Lead(base)|
      ensures !MarkAt(Lead(base) + rest, i, BeginLine(package))
    {
      if i <= |base| {
        LeadMarks(base, rest, i, BeginLine(package));
      } else {
        PrefixCharacter(BeginLine(package), (Lead(base) + rest)[i..], 0);
      }
    }
  }

  lemma NoBlockAtEnd(t: string, package: string)
    ensures FirstBlock(t, |t|, package) == None
  {
    assert t[|t|..] == "";
  }

  /** With no stray marker before it, the rendered block reads back exactly, and cutting it out
      gives the foreign text back. */
  lemma ReadsBack(host: Host, base: string, r: Request)
    requires ValidRequest(host, r) && Stripped(base) && NoStray(base, r.package.id)
    ensures var t := Assemble(base, RenderBlock(host, r));
            && FindOwnedBlock(t, r.package.id) == Success(Some(RenderBlock(host, r) + "\n"))
            && RemoveOwnedBlock(t, r.package.id) == base
  {
    hide RenderBlock, MarkAt, BeginLine, BlockEnd, NoStray;
    var package, lead := r.package.id, Lead(base);
    var tail := RenderBlock(host, r) + "\n";
    var t := lead + tail;
    AssembleIs(base, RenderBlock(host, r));
    AppendedBlock(host, lead, r);
    LeadHasNoBegin(base, tail, package);
    FirstBlockSkips(t, 0, |lead|, package);
    NoBlockAtEnd(t, package);
    assert t[|lead|..|t|] == tail;
    assert FirstBlock(t, 0, package) == Some((|lead|, |t|));
    assert Blocks(t, |t|, package) == [];
    assert Blocks(t, 0, package) == [tail] + [];
    assert t[0..|lead|] + t[|t|..] == lead;
    assert Foreign(t, |t|, package) == t[|t|..];
    StripPadding(base, lead[|base|..]);
    assert base + lead[|base|..] == lead;
  }

  lemma FirstBlockExists(t: string, from: nat, i: nat, package: string)
    requires from <= i <= |t| && MarkAt(t, i, BeginLine(package)) && BlockEnd(t, i, package).Some?
    ensures FirstBlock(t, from, package).Some? && FirstBlock(t, from, package).value.0 <= i
    ensures var (b, e) := FirstBlock(t, from, package).value;
            MarkAt(t, b, BeginLine(package)) && BlockEnd(t, b, package) == Some(e)
    decreases i - from
  {
    if !(MarkAt(t, from, BeginLine(package)) && BlockEnd(t, from, package).Some?) {
      FirstBlockExists(t, from + 1, i, package);
    }
  }

  /** The text in front of the rendered block's last line, and where that line starts. */
  function Opening(host: Host, base: string, r: Request): string {
    Lead(base) + BeginLine(r.package.id)
  }

  function ClosingMark(host: Host, base: string, r: Request): nat {
    |Opening(host, base, r)| + |Unlines(BodyLines(host, r))|
  }

  /** The only END marks are the block's own and those inside the foreign text. */
  lemma EndMarkPlaces(host: Host, base: string, r: Request, k: nat)
    requires ValidRequest(host, r) && base != "" && k < ClosingMark(host, base, r)
    requires MarkAt(Lead(base) + (RenderBlock(host, r) + "\n"), k, EndMark(r.package.id))
    ensures k + |EndMark(r.package.id)| <= |base|
  {
    hide BodyLines, Unlines, EndMark, BeginLine, RenderBlock, PlainText, AllBody, MarkAt;
    var package, lead, end := r.package.id, Lead(base), EndMark(r.package.id);
    var tail := RenderBlock(host, r) + "\n";
    var opening := Opening(host, base, r);
    var inner := Unlines(BodyLines(host, r)) + (end + "\n");
    MarksAreOneLine(package);
    RenderedIs(host, r);
    assert lead + tail == opening + inner;
    if |opening| <= k {
      BodyLinesAreBody(host, r);
      EndMarkFollowsBody(opening, BodyLines(host, r), package);
      assert false;
    } else if |lead| <= k {
      NoEndInBegin(lead, BeginLine(package), inner, k, end);
      assert false;
    } else {
      NoMarkInGap(base, tail, end);
      WholeMark(end);
      LeadMarks(base, tail, k, end);
      MarkFits(base + "\n", k, end);
      OneLineMarkFits(base, k, end);
    }
  }

  lemma MarkFits(t: string, k: nat, w: string)
    requires MarkAt(t, k, w)
    ensures k + |w| <= |t|
  {
  }

  lemma OneLineMarkFits(base: string, k: nat, w: string)
    requires MarkAt(base + "\n", k, w) && OneLine(w) && w != ""
    ensures k + |w| <= |base|
  {
    if k <= |base| {
      PrefixCharacter(w, (base + "\n")[k..], |w| - 1);
    }
  }

  /** A block that begins before the appended one either ends before it or takes it in whole. */
  lemma EarlierBlockEnd(host: Host, base: string, r: Request, i: nat)
    requires ValidRequest(host, r) && base != "" && i <= |base|
    requires MarkAt(Lead(base) + (RenderBlock(host, r) + "\n"), i, BeginLine(r.package.id))
    ensures var t := Lead(base) + (RenderBlock(host, r) + "\n");
            var e := BlockEnd(t, i, r.package.id);
            e.Some? && (e.value <= |Lead(base)| || e.value == |t|)
  {
    hide BodyLines, Unlines, EndMark, BeginLine, RenderBlock, PlainText, AllBody, MarkAt;
    var package, begin, end := r.package.id, BeginLine(r.package.id), EndMark(r.package.id);
    var tail := RenderBlock(host, r) + "\n";
    var t := Lead(base) + tail;
    var opening := Opening(host, base, r);
    MarksAreOneLine(package);
    BodyLinesAreBody(host, r);
    RenderedIs(host, r);
    assert t == opening + (Unlines(BodyLines(host, r)) + (end + "\n"));
    EndMarkFollowsBody(opening, BodyLines(host, r), package);
    var last := ClosingMark(host, base, r);
    assert MarkAt(t, last, end);
    LeadMarks(base, tail, i, begin);
    MarkFits(base + "\n", i, begin);
    var j := FirstMark(t, i + |begin|, end);
    assert j.Some? && j.value <= last;
    if j.value < last {
      EndMarkPlaces(host, base, r, j.value);
    } else {
      assert t[|t| - 1] == '\n' && |t| == last + |end| + 1;
    }
  }

  lemma WholeMark(w: string)
    requires w != "" && OneLine(w)
    ensures OneLine(w[..|w| - 1])
  {
  }

  lemma PrefixFits(w: string, t: string)
    ensures w <= t ==> |w| <= |t|
  {
  }

  /** No END mark stands inside a BEGIN line. */
  lemma NoEndInBegin(lead: string, begin: string, inner: string, j: nat, end: string)
    requires |begin| > 2 && begin[2] != 'E' && |end| > 2 && end[2] == 'E'
    requires OneLine(begin[..|begin| - 1])
    requires |lead| <= j < |lead + begin|
    ensures !MarkAt((lead + begin) + inner, j, end)
  {
    var t := (lead + begin) + inner;
    if j == |lead| {
      PrefixCharacter(end, t[j..], 2);
      assert t[j..][2] == begin[2];
    } else {
      assert t[j - 1] == begin[..|begin| - 1][j - 1 - |lead|];
    }
  }

  /** The blank line between the foreign text and the block bears no mark. */
  lemma NoMarkInGap(base: string, rest: string, w: string)
    requires base != "" && w != "" && w[0] != '\n'
    ensures !MarkAt(Lead(base) + rest, |base| + 1, w)
  {
    PrefixCharacter(w, (Lead(base) + rest)[|base| + 1..], 0);
  }

  /** With a stray marker before it, the rendered block never reads back: what is found instead is
      either ambiguous or takes in foreign text. */
  lemma StrayBlocksReadBack(host: Host, base: string, r: Request)
    requires ValidRequest(host, r) && !NoStray(base, r.package.id)
    ensures FindOwnedBlock(Assemble(base, RenderBlock(host, r)), r.package.id)
         != Success(Some(RenderBlock(host, r) + "\n"))
  {
    hide RenderBlock, MarkAt, BeginLine, BlockEnd, PlainText, IsLineBreak;
    var package, lead := r.package.id, Lead(base);
    var tail := RenderBlock(host, r) + "\n";
    var t := lead + tail;
    AssembleIs(base, RenderBlock(host, r));
    MarksAreOneLine(package);
    var i: nat :| i <= |base| && MarkAt(base + "\n", i, BeginLine(package));
    NewlineIsNoBegin(i, package);
    assert "" + "\n" == "\n";
    LeadMarks(base, tail, i, BeginLine(package));
    EarlierBlockEnd(host, base, r, i);
    FirstBlockExists(t, 0, i, package);
    var (b, e) := FirstBlock(t, 0, package).value;
    EarlierBlockEnd(host, base, r, b);
    AppendedBlock(host, lead, r);
    if e == |t| {
      assert |t[b..e]| > |tail|;
    } else {
      FirstBlockExists(t, e, |lead|, package);
      assert |Blocks(t, e, package)| > 0;
    }
  }

  lemma NewlineIsNoBegin(i: nat, package: string)
    requires PlainText(package)
    ensures !MarkAt("\n", i, BeginLine(package))
  {
    MarksAreOneLine(package);
    if i <= 1 {
      PrefixFits(BeginLine(package), "\n"[i..]);
    }
  }

  // ---------- The editor ----------

  lemma BlockIsSolid(host: Host, r: Request)
    requires ValidRequest(host, r)
    ensures RenderBlock(host, r) != "" && RenderBlock(host, r)[0] == '#'
    ensures !IsSpace(RenderBlock(host, r)[|RenderBlock(host, r)| - 1])
  {
    hide BodyLines, Unlines;
    var block := RenderBlock(host, r);
    MarksAreOneLine(r.package.id);
    var id := r.package.id;
    assert id[|id| - 1] in id;
    assert block[|block| - 1] == id[|id| - 1];
  }

  /** The source's nested strips amount to: foreign text, one blank line, block, newline. */
  lemma AssemblyIs(base: string, block: string)
    requires Stripped(base) && block != "" && !IsSpace(block[0]) && !IsSpace(block[|block| - 1])
    ensures SourceAssembly(base, block) == Assemble(base, block)
  {
    hide IsSpace;
    var text := base + "\n\n" + block;
    assert RStrip(base) == base;
    if base == "" {
      assert text == "\n\n" + block;
      assert text[1..] == "\n" + block && text[1..][1..] == block;
      NewlineIsSpace();
      assert LStripNewlines(block) == block;
      assert LStripNewlines("\n" + block) == block;
      assert LStripNewlines(text) == block;
      assert RStrip(block) == block;
    } else {
      NewlineIsSpace();
      assert text[0] == base[0];
      assert LStripNewlines(text) == text;
      assert text[|text| - 1] == block[|block| - 1];
      assert RStrip(text) == text;
    }
  }

  lemma HashIsNoSpace()
    ensures !IsSpace('#')
  {
  }

  lemma NewlineIsSpace()
    ensures IsSpace('\n')
  {
  }

  /** One successful edit: the new text is the foreign text, a blank line and the block, and the
      block reads back from it if and only if the foreign text bears no BEGIN line of the package. */
  lemma RenderedReadsBack(host: Host, current: string, r: Request)
    requires ValidRequest(host, r) && RenderConfig(host, current, r).Success?
    ensures var base := RemoveOwnedBlock(current, r.package.id);
            var t := RenderConfig(host, current, r).value;
            && t == Assemble(base, RenderBlock(host, r))
            && (FindOwnedBlock(t, r.package.id) == Success(Some(RenderBlock(host, r) + "\n"))
                <==> NoStray(base, r.package.id))
            && (NoStray(base, r.package.id) ==> RemoveOwnedBlock(t, r.package.id) == base)
  {
    hide RenderBlock, FindOwnedBlock, Foreign, AnyOwner, Stripped, Strip, SourceAssembly, Assemble, IsSpace, PlainText;
    var base := RemoveOwnedBlock(current, r.package.id);
    StripStrips(Foreign(current, 0, r.package.id));
    BlockIsSolid(host, r);
    HashIsNoSpace();
    AssemblyIs(base, RenderBlock(host, r));
    if NoStray(base, r.package.id) {
      ReadsBack(host, base, r);
    } else {
      StrayBlocksReadBack(host, base, r);
    }
  }

  /** A second request of the same package leaves exactly what it would have left alone. */
  lemma LastWriteWins(host: Host, current: string, r1: Request, r2: Request)
    requires ValidRequest(host, r1) && ValidRequest(host, r2) && r1.package.id == r2.package.id
    requires RenderConfig(host, current, r1).Success?
    requires NoStray(RemoveOwnedBlock(current, r1.package.id), r1.package.id)
    ensures var t := RenderConfig(host, current, r1).value;
            RenderConfig(host, t, r2) ==
            if host.toml(t).Invalid? then Failure(InvalidToml) else RenderConfig(host, current, r2)
  {
    hide RenderBlock, SourceAssembly, FindOwnedBlock, RemoveOwnedBlock, NoStray, AnyOwner;
    RenderedReadsBack(host, current, r1);
  }

  /** Disabling an installed server writes a block that reads as the same server switched off, and enabling it
      again restores the configuration text. */
  lemma DisableThenEnable(host: Host, current: string, r: Request)
    requires ValidRequest(host, r) && RenderConfig(host, current, r).Success?
    requires NoStray(RemoveOwnedBlock(current, r.package.id), r.package.id)
    requires var off := r.(server := r.server.(enabled := false));
             ValidRequest(host, off) && RenderConfig(host, RenderConfig(host, current, r).value, off).Success?
    ensures var off := r.(server := r.server.(enabled := false));
            var installed := RenderConfig(host, current, r).value;
            var disabled := RenderConfig(host, installed, off).value;
            && (!host.toml(disabled).Invalid? ==> RenderConfig(host, disabled, r) == Success(installed))
            && FindOwnedBlock(disabled, r.package.id) == Success(Some(RenderBlock(host, off) + "\n"))
            && (Readable(r.server) ==>
                  && ReadServer(RenderBlock(host, r) + "\n") == Some(Normal(r.server))
                  && ReadServer(RenderBlock(host, off) + "\n") == Some(Normal(r.server).(enabled := false)))
  {
    hide RenderBlock, SourceAssembly, FindOwnedBlock, RemoveOwnedBlock, NoStray, AnyOwner, ValidRequest;
    hide ReadServer, TransportReadable, AllNoDel, NoDel;
    ServerReadsBack(host, r);
    ServerReadsBack(host, r.(server := r.server.(enabled := false)));
    var off := r.(server := r.server.(enabled := false));
    var installed := RenderConfig(host, current, r).value;
    RenderedReadsBack(host, current, r);
    LastWriteWins(host, current, r, r);
    RenderedReadsBack(host, installed, off);
    LastWriteWins(host, installed, off, r);
  }

  // ---------- What is refused ----------

  /** An edit goes through exactly if both texts parse, at most one block is the package's own, nobody else has
      the server's name, and a first block meets no other package's; what is said is the first that fails. */
  lemma EditRefusedExactly(host: Host, current: string, r: Request)
    ensures var blocks := |Blocks(current, 0, r.package.id)|;
            var rest := host.toml(RemoveOwnedBlock(current, r.package.id));
            var edit := RenderConfig(host, current, r);
            && (edit == Failure(InvalidToml) <==> host.toml(current).Invalid? || (blocks <= 1 && rest.Invalid?))
            && (edit == Failure(DuplicateBlocks) <==> !host.toml(current).Invalid? && blocks >= 2)
            && (edit == Failure(ServerTableInvalid)
                <==> !host.toml(current).Invalid? && blocks < 2 && rest.ServersNotATable?)
            && (edit == Failure(ServerOwnedElsewhere)
                <==> && !host.toml(current).Invalid? && blocks < 2 && rest.Servers?
                     && r.server.name in rest.enabled.Keys)
            && (edit == Failure(AnotherPackageOwned)
                <==> && !host.toml(current).Invalid? && blocks == 0 && rest.Servers?
                     && r.server.name !in rest.enabled.Keys && AnyOwner(current))
            && (edit.Success?
                <==> && !host.toml(current).Invalid? && blocks < 2 && rest.Servers?
                     && r.server.name !in rest.enabled.Keys && (blocks == 1 || !AnyOwner(current)))
  {
    hide Blocks, RemoveOwnedBlock, AnyOwner, RenderBlock, SourceAssembly;
  }

  /** The metadata of a block is what it says about itself only if it says exactly four things, and the parser
      sees in it exactly the one server that they name; then the switch is the parser's. */
  lemma MetadataRefusedExactly(host: Host, block: string, package: string)
    ensures var lines := SplitLines(block);
            var meta := BlockMetadata(host, block, package);
            var said := ParseMetadata(if |lines| <= 1 then [] else if |lines| <= 5 then lines[1..] else lines[1..5]);
            && (meta.Success?
                <==> && said.Some? && |said.value.Keys| == 4
                     && "package_version" in said.value && "manifest_sha256" in said.value
                     && "server_name" in said.value && "server_spec_sha256" in said.value
                     && host.toml(block).Servers? && host.toml(block).enabled.Keys == {said.value["server_name"]}
                     && OwnerNamed(block, package))
            && (meta.Success? ==>
                  && meta.value.values == said.value
                  && meta.value.enabled == host.toml(block).enabled[said.value["server_name"]])
  {
    hide SplitLines, ParseMetadata, OwnerNamed;
    var lines := SplitLines(block);
    var head := if |lines| <= 1 then [] else if |lines| <= 5 then lines[1..] else lines[1..5];
    assert head == lines[if |lines| < 1 then 0 else 1..if |lines| < 5 then |lines| else 5];
    if ParseMetadata(head).Some? {
      FourKeys(ParseMetadata(head).value);
      if host.toml(block).Servers? {
        OneKey(host.toml(block).enabled);
      }
    }
  }

  lemma FourKeys(m: map<string, string>)
    ensures m.Keys == {"package_version", "manifest_sha256", "server_name", "server_spec_sha256"}
            <==> && |m.Keys| == 4 && "package_version" in m && "manifest_sha256" in m
                 && "server_name" in m && "server_spec_sha256" in m
  {
    assert |"package_version"| == |"manifest_sha256"| == 15 && "package_version"[0] != "manifest_sha256"[0];
    assert |"server_name"| == 11 && |"server_spec_sha256"| == 18;
    var four := {"package_version", "manifest_sha256", "server_name", "server_spec_sha256"};
    assert |four| == 4;
    if four <= m.Keys && |m.Keys| == 4 {
      SameSize(four, m.Keys);
    }
  }

  lemma SameSize<T>(a: set<T>, b: set<T>)
    requires a <= b && |a| == |b|
    ensures a == b
  {
    if x :| x in b && x !in a {
      assert a <= b - {x};
      SmallerSet(a, b - {x});
    }
  }

  lemma SmallerSet<T>(a: set<T>, b: set<T>)
    requires a <= b
    ensures |a| <= |b|
  {
    if a != {} {
      var x :| x in a;
      SmallerSet(a - {x}, b - {x});
    }
  }

  lemma OneKey(m: map<string, bool>)
    ensures |m| == 1 <==> |m.Keys| == 1
    ensures forall name | name in m :: |m.Keys| == 1 <==> m.Keys == {name}
  {
    forall name | name in m ensures |m.Keys| == 1 <==> m.Keys == {name} {
      if |m.Keys| == 1 {
        SameSize({name}, m.Keys);
      }
    }
  }

  // ---------- What the block says ----------

  lemma RenderedLines(host: Host, r: Request)
    ensures var before := [BEGIN_PREFIX + r.package.id] + MetadataLines(host, r);
            RenderBlock(host, r) + "\n" == Unlines(before + TomlLines(r.server) + [EndMark(r.package.id)]) + ""
  {
    hide MetadataLines, TomlLines, EndMark, Unlines, BeginLine;
    var begin, end := BEGIN_PREFIX + r.package.id, EndMark(r.package.id);
    var body := BodyLines(host, r);
    assert [begin] + MetadataLines(host, r) + TomlLines(r.server) + [end] == [begin] + (body + [end]);
    UnlinesConcat([begin], body + [end]);
    UnlinesConcat(body, [end]);
    UnlinesOne(begin);
    UnlinesOne(end);
    BeginLineIs(r.package.id);
  }

  /** How a block begins and ends. */
  lemma BlockIsMarked(host: Host, r: Request)
    ensures var block := RenderBlock(host, r);
            && "# BEGIN gigaloom-codex-mcp-v1 package=" + r.package.id + "\n" <= block
            && |block| >= |"# END gigaloom-codex-mcp-v1 package=" + r.package.id|
            && block[|block| - |"# END gigaloom-codex-mcp-v1 package=" + r.package.id|..]
               == "# END gigaloom-codex-mcp-v1 package=" + r.package.id
  {
    hide BodyLines, Unlines;
    var begin, end := BEGIN_PREFIX + r.package.id + "\n", END_PREFIX + r.package.id;
    assert RenderBlock(host, r) == begin + (Unlines(BodyLines(host, r)) + end);
  }

  lemma BeginLineIs(package: string)
    ensures BeginLine(package) == BEGIN_PREFIX + package + "\n"
  {
  }

  lemma UnlinesOne(line: string)
    ensures Unlines([line]) == line + "\n"
  {
    assert [line][1..] == [];
  }

  lemma {:induction false} UnlinesConcat(xs: seq<string>, ys: seq<string>)
    ensures Unlines(xs + ys) == Unlines(xs) + Unlines(ys)
  {
    if xs == [] {
      assert xs + ys == ys;
    } else {
      assert (xs + ys)[1..] == xs[1..] + ys;
      UnlinesConcat(xs[1..], ys);
      assert xs[0] + "\n" + (Unlines(xs[1..]) + Unlines(ys)) == Unlines(xs) + Unlines(ys);
    }
  }

  lemma CommentLines(host: Host, r: Request)
    requires ValidRequest(host, r)
    ensures var lines := [BEGIN_PREFIX + r.package.id] + MetadataLines(host, r) + [EndMark(r.package.id)] + [""];
            forall line :: line in lines ==> Comment(line) && OneLine(line)
  {
    hide PlainText;
    MarksAreOneLine(r.package.id);
    EntryLineIsBody("package_version", r.package.version);
    EntryLineIsBody("manifest_sha256", r.package.manifestHash);
    EntryLineIsBody("server_name", r.server.name);
    EntryLineIsBody("server_spec_sha256", host.specHash(r.server));
    assert BEGIN_PREFIX[0] == '#' && EndMark(r.package.id)[0] == '#';
  }

  /** A rendered block reads back to the whole server specification - name, transport, both switches, timeouts,
      approval mode, tools - exactly if no string of it holds a DEL, which TOML forbids and nobody escapes. */
  lemma ServerReadsBack(host: Host, r: Request)
    requires ValidRequest(host, r)
    ensures ReadServer(RenderBlock(host, r) + "\n") == OwnedBlockReader.When(Readable(r.server), Normal(r.server))
  {
    hide RenderBlock, ReadServer, Readable, MetadataLines, TomlLines, EndMark, Unlines, Comment, BodyLine;
    RenderedLines(host, r);
    CommentLines(host, r);
    BodyLinesAreBody(host, r);
    TomlLinesAreBody(r.server);
    BodyIsOneLine(TomlLines(r.server));
    LinesReadServer([BEGIN_PREFIX + r.package.id] + MetadataLines(host, r), r.server, [EndMark(r.package.id)], "");
  }

  lemma BodyIsOneLine(lines: seq<string>)
    requires AllBody(lines)
    ensures forall line :: line in lines ==> '\n' !in line
  {
    forall line | line in lines ensures '\n' !in line {
      assert BodyLine(line);
    }
  }

  // ---------- When no marker is stray ----------

  /** The text begins and ends without blanks, but for at most one newline at its end. */
  ghost predicate Tidy(current: string) {
    Stripped(current)
    || (current[|current| - 1] == '\n' && Stripped(current[..|current| - 1]))
  }

  /** A first installation into a tidy file never meets a stray marker: the check for other owners
      has already refused every file that bears one. */
  lemma FirstInstallIsClean(host: Host, current: string, r: Request)
    requires ValidRequest(host, r) && RenderConfig(host, current, r).Success? && Tidy(current)
    requires FindOwnedBlock(current, r.package.id) == Success(None)
    ensures NoStray(RemoveOwnedBlock(current, r.package.id), r.package.id)
  {
    hide PlainText, IsSpace, BeginLine;
    var package := r.package.id;
    var base := RemoveOwnedBlock(current, package);
    assert Foreign(current, 0, package) == current[0..] == current;
    TidyStrip(current);
    forall i | 0 <= i <= |base| ensures !MarkAt(base + "\n", i, BeginLine(package)) {
      StrayWouldBeOwner(current, base, i, package);
      assert !AnyOwner(current);
      assert i <= |current|;
    }
  }

  lemma TidyStrip(current: string)
    requires Tidy(current)
    ensures current == Strip(current) || current == Strip(current) + "\n"
  {
    hide IsSpace;
    if !Stripped(current) {
      var shorter := current[..|current| - 1];
      NewlineIsSpace();
      StripPadding(shorter, "\n");
      assert current == shorter + "\n";
    }
  }

  lemma StrayWouldBeOwner(current: string, base: string, i: nat, package: string)
    requires PlainText(package) && i <= |base| && (current == base || current == base + "\n")
    ensures MarkAt(base + "\n", i, BeginLine(package)) ==> OwnerMarkAt(current, i)
  {
    hide MarkAt, OwnerMarkAt, PlainText, IsSpace, NoSpace, LineRest;
    var mark := BEGIN_PREFIX + package;
    MarkStands(base + "\n", i, mark + "\n");
    BeginLineIs(package);
    if MarkAt(base + "\n", i, BeginLine(package)) {
      StandsTogether(base + "\n", i, mark, "\n");
      StandsShorter(base, current, i, mark);
      PlainName(package);
      NamedThere(current, i, package);
    }
  }

  lemma StandsShorter(base: string, current: string, i: nat, w: string)
    requires i <= |base| && (current == base || current == base + "\n")
    requires Stands(base + "\n", i, w) && Stands(base + "\n", i + |w|, "\n")
    ensures Stands(current, i, w)
    ensures i + |w| < |current| ==> current[i + |w|] == '\n'
    ensures i > 0 ==> current[i - 1] == (base + "\n")[i - 1]
  {
    var t := base + "\n";
    assert t[i..i + |w|] == current[i..i + |w|];
    assert t[i + |w|..i + |w| + 1][0] == t[i + |w|];
  }

  lemma PlainName(s: string)
    requires PlainText(s)
    ensures s != "" && NoSpace(s)
  {
    hide NoSpace, IsSpace;
    PlainHasNoSpace(s);
    NoSpaceMeans(s);
  }

  // ---------- Foreign lines ----------

  /** What the removal cut out, when there is one owned block. */
  lemma ForeignParts(t: string, package: string)
    requires FindOwnedBlock(t, package).Success?
    ensures var b := FirstBlock(t, 0, package);
            if b.None? then Foreign(t, 0, package) == t
            else LineStart(t, b.value.0) && Foreign(t, 0, package) == t[..b.value.0] + t[b.value.1..]
  {
    var b := FirstBlock(t, 0, package);
    if b.Some? {
      var (i, e) := b.value;
      assert Blocks(t, 0, package) == [t[i..e]] + Blocks(t, e, package);
      assert Blocks(t, e, package) == [];
      assert t[0..i] == t[..i];
      FirstBlockMarked(t, 0, package);
    }
  }

  /** The trimmed lines outside the owned block, in their order. */
  function ForeignLines(t: string, package: string): seq<string> {
    var b := FirstBlock(t, 0, package);
    if b.None? then TrimmedLines(t)
    else TrimmedLines(t[..b.value.0]) + TrimmedLines(t[b.value.1..])
  }

  lemma {:induction false} FirstBlockMarked(t: string, from: nat, package: string)
    requires FirstBlock(t, from, package).Some?
    ensures MarkAt(t, FirstBlock(t, from, package).value.0, BeginLine(package))
    decreases |t| - from
  {
    if FirstBlock(t, from, package).value.0 != from {
      FirstBlockMarked(t, from + 1, package);
    }
  }

  /** Every foreign line survives an edit, once and in order, and the block's lines come last. */
  lemma ForeignLinesKept(host: Host, current: string, r: Request)
    requires ValidRequest(host, r) && RenderConfig(host, current, r).Success?
    ensures var t := RenderConfig(host, current, r).value;
            TrimmedLines(t) == ForeignLines(current, r.package.id) + TrimmedLines(RenderBlock(host, r))
  {
    hide RenderBlock, TrimmedLines, ValidRequest, FirstBlock, SourceAssembly, AnyOwner;
    var package := r.package.id;
    var base := RemoveOwnedBlock(current, package);
    var block := RenderBlock(host, r);
    RenderedReadsBack(host, current, r);
    ForeignParts(current, package);
    var b := FirstBlock(current, 0, package);
    if b.Some? {
      var (i, e) := b.value;
      assert i > 0 ==> (current[..i] + current[e..])[i - 1] == current[i - 1];
      TrimmedLinesJoin(current[..i], current[e..]);
    }
    TrimmedLinesStrip(Foreign(current, 0, package));
    AssembledLines(base, block);
  }

  lemma AssembledLines(base: string, block: string)
    ensures TrimmedLines(Assemble(base, block)) == TrimmedLines(base) + TrimmedLines(block)
  {
    hide TrimmedLines, IsSpace;
    NewlineIsSpace();
    NoLines();
    TrimmedLinesTrailing(block, '\n');
    if base == "" {
      assert Assemble(base, block) == block + "\n";
    } else {
      var lead := base + "\n\n";
      assert Assemble(base, block) == lead + (block + "\n");
      TrimmedLinesJoin(lead, block + "\n");
      TrimmedLinesTrailing(base, '\n');
      TrimmedLinesTrailing(base + "\n", '\n');
      assert lead == base + "\n" + "\n";
    }
  }

  // ---------- Metadata ----------

  /** Text that `str.splitlines` keeps on one line. */
  lemma PlainHasNoBreak(s: string)
    requires PlainText(s)
    ensures forall k :: 0 <= k < |s| ==> !IsLineBreak(s[k])
  {
    forall k | 0 <= k < |s| ensures !IsLineBreak(s[k]) {
      assert s[k] in s;
    }
  }

  lemma {:induction false} BreakAtIs(t: string, e: nat)
    requires e < |t| && IsLineBreak(t[e])
    requires forall k :: 0 <= k < e ==> !IsLineBreak(t[k])
    ensures BreakAt(t) == e
  {
    hide IsLineBreak;
    if e > 0 {
      BreakAtIs(t[1..], e - 1);
    }
  }

  lemma SplitFirstLine(line: string, rest: string)
    requires forall k :: 0 <= k < |line| ==> !IsLineBreak(line[k])
    ensures SplitLines(line + ("\n" + rest)) == [line] + SplitLines(rest)
  {
    var t := line + ("\n" + rest);
    assert t[|line|] == '\n';
    BreakAtIs(t, |line|);
    SplitStep(t, |line|);
    assert t[..|line|] == line && t[|line| + 1..] == rest;
  }

  lemma SplitStep(t: string, e: nat)
    requires BreakAt(t) == e < |t| && t[e] == '\n'
    ensures SplitLines(t) == [t[..e]] + SplitLines(t[e + 1..])
  {
  }

  /** One metadata line adds its entry. */
  lemma ParsesLine(lines: seq<string>, key: string, value: string)
    requires forall k :: 0 <= k < |key| ==> key[k] != '='
    ensures var more := lines + ["# " + (key + ("=" + value))];
            ParseMetadata(more) ==
            match ParseMetadata(lines)
            case None => None
            case Some(values) => Some(values[key := value])
  {
    var last := "# " + (key + ("=" + value));
    var more := lines + [last];
    assert more[..|more| - 1] == lines;
    var entry := key + ("=" + value);
    assert last[..2] == "# " && last[2..] == entry;
    IndexIs(key, '=', "=" + value);
    assert entry[..|key|] == key && entry[|key| + 1..] == value;
  }

  // ---------- The patterns, character by character ----------

  ghost predicate Stands(t: string, i: nat, w: string) {
    i + |w| <= |t| && t[i..i + |w|] == w
  }

  /** `w` stands at the start of a line. */
  ghost predicate Marked(t: string, i: nat, w: string) {
    Stands(t, i, w) && (i == 0 || t[i - 1] == '\n')
  }

  lemma MarkStands(t: string, i: nat, w: string)
    ensures MarkAt(t, i, w) <==> Marked(t, i, w)
  {
    if i + |w| <= |t| {
      assert t[i..][..|w|] == t[i..i + |w|];
    }
  }

  /** The first mark at or behind `from`, and one newline with it if one follows, reach to `e`. */
  ghost predicate Reaches(t: string, from: nat, mark: string, e: nat) {
    exists j: nat ::
      && from <= j && Marked(t, j, mark) && (forall k | from <= k < j :: !Marked(t, k, mark))
      && e == if j + |mark| < |t| && t[j + |mark|] == '\n' then j + |mark| + 1 else j + |mark|
  }

  lemma BlockReaches(t: string, i: nat, package: string, e: nat)
    ensures BlockEnd(t, i, package) == Some(e)
            <==> Reaches(t, i + |BeginLine(package)|, EndMark(package), e)
  {
    hide MarkAt, Marked, BeginLine, EndMark, FirstMark;
    var from, mark := i + |BeginLine(package)|, EndMark(package);
    forall k: nat ensures MarkAt(t, k, mark) <==> Marked(t, k, mark) {
      MarkStands(t, k, mark);
    }
    forall j: nat | from <= j && Marked(t, j, mark) && forall k | from <= k < j :: !Marked(t, k, mark)
      ensures FirstMark(t, from, mark) == Some(j)
    {
      FirstMarkIs(t, from, j, mark);
    }
    assert FirstMark(t, from, mark).Some? ==> Marked(t, FirstMark(t, from, mark).value, mark);
  }

  /** A block reaches from its BEGIN line through the first END mark behind it that starts a line, and takes one
      newline with it if one follows. */
  lemma BlockEndExactly(t: string, i: nat, package: string, e: nat)
    ensures BlockEnd(t, i, package) == Some(e)
            <==> Reaches(t, i + |"# BEGIN gigaloom-codex-mcp-v1 package=" + package + "\n"|,
                         "# END gigaloom-codex-mcp-v1 package=" + package, e)
  {
    hide BlockEnd, Reaches;
    assert BeginLine(package) == "# BEGIN gigaloom-codex-mcp-v1 package=" + package + "\n";
    assert EndMark(package) == "# END gigaloom-codex-mcp-v1 package=" + package;
    BlockReaches(t, i, package, e);
  }

  /** A name without white space fills the line from `p` on, up to `e`. */
  ghost predicate NameFills(t: string, p: nat, e: nat) {
    p < e <= |t| && (forall k | p <= k < e :: !IsSpace(t[k])) && (e < |t| ==> t[e] == '\n')
  }

  ghost predicate NamesToEnd(t: string, p: nat) {
    exists e: nat :: NameFills(t, p, e)
  }

  lemma NameFillsLine(t: string, p: nat, e: nat)
    requires NameFills(t, p, e)
    ensures LineEnd(t, p) == e
  {
    hide IsSpace;
    NewlineIsSpace();
    LineEndIs(t, p, e);
  }

  lemma OwnerRest(t: string, p: nat)
    requires p <= |t|
    ensures LineRest(t, p) != "" && (forall c :: c in LineRest(t, p) ==> !IsSpace(c)) <==> NamesToEnd(t, p)
  {
    hide IsSpace, LineEnd;
    var rest := LineRest(t, p);
    var e := LineEnd(t, p);
    assert forall k | p <= k < e :: t[k] == rest[k - p];
    if rest != "" && forall c :: c in rest ==> !IsSpace(c) {
      assert NameFills(t, p, e);
    }
    if NamesToEnd(t, p) {
      var end: nat :| NameFills(t, p, end);
      NameFillsLine(t, p, end);
    }
  }

  /** A package owns what starts with a BEGIN mark at a line start, if a name without white space fills the rest
      of the line. */
  lemma OwnerExactly(t: string, i: nat)
    ensures i <= |t| && OwnerMarkAt(t, i)
            <==> Marked(t, i, "# BEGIN gigaloom-codex-mcp-v1 package=")
                 && NamesToEnd(t, i + |"# BEGIN gigaloom-codex-mcp-v1 package="|)
  {
    hide MarkAt, LineRest, IsSpace, NamesToEnd;
    var mark := "# BEGIN gigaloom-codex-mcp-v1 package=";
    MarkStands(t, i, mark);
    if Marked(t, i, mark) {
      OwnerRest(t, i + |mark|);
    }
  }

  /** The mark and the name fill a line. */
  ghost predicate NamedAt(t: string, i: nat, package: string) {
    && Marked(t, i, "# BEGIN gigaloom-codex-mcp-v1 package=" + package)
    && var e := i + |"# BEGIN gigaloom-codex-mcp-v1 package=" + package|;
       e < |t| ==> t[e] == '\n'
  }

  ghost predicate NoSpace(s: string) {
    forall k | 0 <= k < |s| :: !IsSpace(s[k])
  }

  lemma RestIs(t: string, p: nat, package: string)
    requires p <= |t| && NoSpace(package)
    ensures LineRest(t, p) == package
            <==> Stands(t, p, package) && (p + |package| < |t| ==> t[p + |package|] == '\n')
  {
    hide IsSpace;
    if LineRest(t, p) == package {
      assert t[p..LineEnd(t, p)] == package;
    }
    if Stands(t, p, package) && (p + |package| < |t| ==> t[p + |package|] == '\n') {
      NewlineIsSpace();
      assert forall k | p <= k < p + |package| :: t[k] == package[k - p];
      LineEndIs(t, p, p + |package|);
    }
  }

  lemma StandsTogether(t: string, i: nat, a: string, b: string)
    ensures Stands(t, i, a + b) <==> Stands(t, i, a) && Stands(t, i + |a|, b)
  {
    if i + |a| + |b| <= |t| {
      assert t[i..i + |a + b|] == t[i..i + |a|] + t[i + |a|..i + |a| + |b|];
      if Stands(t, i, a + b) {
        assert t[i..i + |a + b|][..|a|] == a && t[i..i + |a + b|][|a|..] == b;
      }
    }
  }

  lemma NamedThere(t: string, i: nat, package: string)
    requires i <= |t|
    ensures OwnerMarkAt(t, i) && LineRest(t, i + |BEGIN_PREFIX|) == package
            <==> package != "" && NoSpace(package) && NamedAt(t, i, package)
  {
    hide MarkAt, LineRest, IsSpace, NoSpace;
    var mark := "# BEGIN gigaloom-codex-mcp-v1 package=";
    assert mark == BEGIN_PREFIX;
    MarkStands(t, i, mark);
    StandsTogether(t, i, mark, package);
    if Stands(t, i, mark) {
      NoSpaceMeans(package);
      if NoSpace(package) {
        RestIs(t, i + |mark|, package);
      }
    }
  }

  lemma NoSpaceMeans(s: string)
    ensures NoSpace(s) <==> forall c :: c in s ==> !IsSpace(c)
  {
    hide IsSpace;
    forall k | 0 <= k < |s| ensures s[k] in s {
    }
  }

  /** The package is named if a BEGIN mark with its name, free of white space, fills a line. */
  lemma OwnerNamedExactly(t: string, package: string)
    ensures OwnerNamed(t, package)
            <==> package != "" && NoSpace(package) && exists i: nat :: NamedAt(t, i, package)
  {
    hide LineRest, NoSpace, Marked;
    forall i: nat | i <= |t|
      ensures OwnerMarkAt(t, i) && LineRest(t, i + |BEGIN_PREFIX|) == package
              <==> package != "" && NoSpace(package) && NamedAt(t, i, package)
    {
      NamedThere(t, i, package);
    }
    forall i: nat | NamedAt(t, i, package) ensures i <= |t| {
      MarkedFits(t, i, "# BEGIN gigaloom-codex-mcp-v1 package=" + package);
    }
  }

  lemma MarkedFits(t: string, i: nat, w: string)
    requires Marked(t, i, w)
    ensures i + |w| <= |t|
  {
  }

  lemma SplitNext(t: string, e: nat, next: nat)
    requires e < next <= |t| && BreakAt(t) == e
    requires next == if t[e] == '\r' && e + 1 < |t| && t[e + 1] == '\n' then e + 2 else e + 1
    ensures SplitLines(t) == [t[..e]] + SplitLines(t[next..])
  {
    hide BreakAt, IsLineBreak;
    assert t != "" && BreakAt(t) < |t|;
  }

  lemma SplitAtBreak(line: string, end: string, rest: string)
    requires forall k | 0 <= k < |line| :: !IsLineBreak(line[k])
    requires end != "" && IsLineBreak(end[0])
    requires |end| == 1 || (|end| == 2 && end[0] == '\r' && end[1] == '\n')
    requires |end| == 1 && end[0] == '\r' && rest != "" ==> rest[0] != '\n'
    ensures SplitLines(line + (end + rest)) == [line] + SplitLines(rest)
  {
    hide IsLineBreak, SplitLines, BreakAt;
    var t := line + (end + rest);
    var e := |line|;
    assert t[e] == end[0];
    assert t[..e] == line && t[e + |end|..] == rest;
    assert |end| == 1 && e + 1 < |t| ==> t[e + 1] == rest[0];
    assert |end| == 2 ==> t[e + 1] == end[1];
    BreakAtIs(t, e);
    SplitNext(t, e, e + |end|);
  }

  /** Lines end at each break; a carriage return and the newline behind it are one break. */
  lemma SplitLinesExactly(line: string, c: char, rest: string)
    requires forall k | 0 <= k < |line| :: !IsLineBreak(line[k])
    ensures SplitLines(line) == if line == "" then [] else [line]
    ensures IsLineBreak(c) && !(c == '\r' && rest != "" && rest[0] == '\n') ==>
              SplitLines(line + ([c] + rest)) == [line] + SplitLines(rest)
    ensures SplitLines(line + (['\r', '\n'] + rest)) == [line] + SplitLines(rest)
  {
    UnbrokenLine(line);
    hide IsLineBreak, SplitLines;
    BreaksHere();
    if IsLineBreak(c) && !(c == '\r' && rest != "" && rest[0] == '\n') {
      SplitAtBreak(line, [c], rest);
    }
    SplitAtBreak(line, ['\r', '\n'], rest);
  }

  lemma UnbrokenLine(line: string)
    requires forall k | 0 <= k < |line| :: !IsLineBreak(line[k])
    ensures SplitLines(line) == if line == "" then [] else [line]
  {
    assert BreakAt(line) == |line|;
  }

  lemma BreaksHere()
    ensures IsLineBreak('\r') && IsLineBreak('\n')
  {
  }

  /** The line is a comment that gives the key the value. */
  ghost predicate Says(line: string, key: string, value: string) {
    '=' !in key && line == "# " + (key + ("=" + value))
  }

  ghost predicate SaysLast(lines: seq<string>, key: string, value: string) {
    exists i | 0 <= i < |lines| ::
      Says(lines[i], key, value) && forall j, other | i < j < |lines| :: !Says(lines[j], key, other)
  }

  lemma EntryOf(line: string) returns (key: string, value: string)
    requires |line| >= 2 && line[..2] == "# " && '=' in line[2..]
    ensures Says(line, key, value)
  {
    hide IndexOf;
    var entry := line[2..];
    var e := IndexOf(entry, '=');
    IndexIsFirst(entry, '=');
    key, value := entry[..e], entry[e + 1..];
    assert line == line[..2] + entry;
    assert entry == key + ("=" + value);
  }

  lemma {:induction false} IndexIsFirst(s: string, c: char)
    ensures c !in s[..IndexOf(s, c)] && (c in s ==> IndexOf(s, c) < |s|)
  {
    if s != "" && s[0] != c {
      IndexIsFirst(s[1..], c);
      assert s[..IndexOf(s, c)] == [s[0]] + s[1..][..IndexOf(s[1..], c)];
      assert s == [s[0]] + s[1..];
    }
  }

  lemma SaysOnce(line: string, key: string, value: string, key2: string, value2: string)
    requires Says(line, key, value) && Says(line, key2, value2)
    ensures key == key2 && value == value2
  {
    hide IndexOf;
    var entry := line[2..];
    assert entry == key + ("=" + value) && entry == key2 + ("=" + value2);
    IndexIs(key, '=', "=" + value);
    IndexIs(key2, '=', "=" + value2);
    assert entry[..|key|] == key && entry[|key| + 1..] == value;
    assert entry[..|key2|] == key2 && entry[|key2| + 1..] == value2;
  }

  lemma SaysShape(line: string, key: string, value: string)
    requires Says(line, key, value)
    ensures |line| >= 3 && line[..2] == "# " && '=' in line[2..]
  {
    assert line[2..] == key + ("=" + value);
    assert line[2..][|key|] == '=';
  }

  lemma NoEntryFails(lines: seq<string>, last: string)
    requires !(|last| >= 2 && last[..2] == "# " && '=' in last[2..])
    ensures ParseMetadata(lines + [last]) == None
  {
    assert (lines + [last])[..|lines|] == lines;
  }

  lemma LastOfMore(lines: seq<string>, last: string, k: string, v: string, key: string, value: string)
    requires Says(last, k, v)
    ensures SaysLast(lines + [last], key, value) <==> if key == k then value == v else SaysLast(lines, key, value)
  {
    hide Says;
    var more := lines + [last];
    forall key2, value2 | Says(last, key2, value2) ensures key2 == k && value2 == v {
      SaysOnce(last, k, v, key2, value2);
    }
    if SaysLast(more, key, value) {
      var i :| 0 <= i < |more| && Says(more[i], key, value)
               && forall j, other | i < j < |more| :: !Says(more[j], key, other);
      if i < |lines| {
        assert !Says(more[|lines|], key, v);
        assert Says(lines[i], key, value);
        assert forall j | i < j < |lines| :: lines[j] == more[j];
      }
    }
    if key == k && value == v {
      assert Says(more[|lines|], key, value);
    }
    if key != k && SaysLast(lines, key, value) {
      var i :| 0 <= i < |lines| && Says(lines[i], key, value)
               && forall j, other | i < j < |lines| :: !Says(lines[j], key, other);
      assert Says(more[i], key, value);
      assert forall j | i < j < |lines| :: lines[j] == more[j];
    }
  }

  /** The metadata lines are read if and only if each is a comment with an equals sign, and then the last one
      about a key counts. */
  lemma {:induction false} ParsedExactly(lines: seq<string>)
    ensures ParseMetadata(lines).Some?
            <==> forall i | 0 <= i < |lines| :: |lines[i]| >= 2 && lines[i][..2] == "# " && '=' in lines[i][2..]
    ensures ParseMetadata(lines).Some? ==>
              forall key, value :: key in ParseMetadata(lines).value && ParseMetadata(lines).value[key] == value
                                   <==> SaysLast(lines, key, value)
  {
    hide ParseMetadata, Says, SaysLast;
    if lines == [] {
      ParsesNothing();
      forall key, value ensures !SaysLast(lines, key, value) {
        NothingSaid(key, value);
      }
    } else {
      var before, last := lines[..|lines| - 1], lines[|lines| - 1];
      assert lines == before + [last];
      ParsedExactly(before);
      if |last| >= 2 && last[..2] == "# " && '=' in last[2..] {
        var k, v := EntryOf(last);
        SaysMeans(last, k, v);
        ParsesLine(before, k, v);
        forall key, value
          ensures SaysLast(lines, key, value) <==> if key == k then value == v else SaysLast(before, key, value)
        {
          LastOfMore(before, last, k, v, key, value);
        }
      } else {
        NoEntryFails(before, last);
      }
    }
  }

  lemma NothingSaid(key: string, value: string)
    ensures !SaysLast([], key, value)
  {
  }

  lemma SaysMeans(line: string, key: string, value: string)
    requires Says(line, key, value)
    ensures line == "# " + (key + ("=" + value)) && forall k :: 0 <= k < |key| ==> key[k] != '='
  {
  }

  function Entries(host: Host, r: Request): map<string, string> {
    map["package_version" := r.package.version,
        "manifest_sha256" := r.package.manifestHash,
        "server_name" := r.server.name,
        "server_spec_sha256" := host.specHash(r.server)]
  }

  lemma MetadataLinesParse(host: Host, r: Request)
    ensures ParseMetadata(MetadataLines(host, r)) == Some(Entries(host, r))
  {
    hide ParseMetadata;
    var v, m, n, s := r.package.version, r.package.manifestHash, r.server.name, host.specHash(r.server);
    ParsesNothing();
    var lines := MetadataLines(host, r);
    ParsesLine([], "package_version", v);
    ParsesLine(lines[..1], "manifest_sha256", m);
    ParsesLine(lines[..2], "server_name", n);
    ParsesLine(lines[..3], "server_spec_sha256", s);
    hide EntryLine, MetadataLines;
    assert [] + [lines[0]] == lines[..1];
    assert lines[..1] + [lines[1]] == lines[..2];
    assert lines[..2] + [lines[2]] == lines[..3];
    assert lines[..3] + [lines[3]] == lines;
  }

  lemma ParsesNothing()
    ensures ParseMetadata([]) == Some(map[])
  {
  }

  lemma EntryHasNoBreak(key: string, value: string)
    requires PlainText(key) && PlainText(value)
    ensures forall k :: 0 <= k < |EntryLine(key, value)| ==> !IsLineBreak(EntryLine(key, value)[k])
  {
    PlainHasNoBreak(key);
    PlainHasNoBreak(value);
  }

  /** The five first lines of a rendered block are its BEGIN marker and its metadata. */
  lemma BlockHeadLines(host: Host, r: Request)
    requires ValidRequest(host, r)
    ensures var lines := SplitLines(RenderBlock(host, r) + "\n");
            |lines| >= 5 && lines[1..5] == MetadataLines(host, r)
  {
    hide TomlLines, SplitLines, IsLineBreak, EntryLine, PlainText, EndMark, Unlines;
    var package := r.package.id;
    var meta := MetadataLines(host, r);
    var tail := Unlines(TomlLines(r.server)) + (EndMark(package) + "\n");
    RenderedIs(host, r);
    KeysArePlain();
    EntryHasNoBreak("package_version", r.package.version);
    EntryHasNoBreak("manifest_sha256", r.package.manifestHash);
    EntryHasNoBreak("server_name", r.server.name);
    EntryHasNoBreak("server_spec_sha256", host.specHash(r.server));
    var text4 := meta[3] + ("\n" + tail);
    var text3 := meta[2] + ("\n" + text4);
    var text2 := meta[1] + ("\n" + text3);
    var text1 := meta[0] + ("\n" + text2);
    UnlinesFour(meta, TomlLines(r.server), EndMark(package) + "\n");
    var begin := BEGIN_PREFIX + package;
    assert RenderBlock(host, r) + "\n" == begin + ("\n" + text1);
    PlainMarker(package);
    SplitFirstLine(begin, text1);
    SplitFirstLine(meta[0], text2);
    SplitFirstLine(meta[1], text3);
    SplitFirstLine(meta[2], text4);
    SplitFirstLine(meta[3], tail);
    var lines := SplitLines(RenderBlock(host, r) + "\n");
    assert lines == [begin] + ([meta[0]] + ([meta[1]] + ([meta[2]] + ([meta[3]] + SplitLines(tail)))));
  }

  lemma KeysArePlain()
    ensures PlainText("package_version") && PlainText("manifest_sha256")
    ensures PlainText("server_name") && PlainText("server_spec_sha256")
  {
  }

  lemma PlainMarker(package: string)
    requires PlainText(package)
    ensures forall k :: 0 <= k < |BEGIN_PREFIX + package| ==> !IsLineBreak((BEGIN_PREFIX + package)[k])
  {
    PlainHasNoBreak(package);
    PrefixHasNoBreak();
  }

  lemma PrefixHasNoBreak()
    ensures forall k :: 0 <= k < |BEGIN_PREFIX| ==> !IsLineBreak(BEGIN_PREFIX[k])
  {
  }

  lemma UnlinesFour(four: seq<string>, more: seq<string>, rest: string)
    requires |four| == 4
    ensures Unlines(four + more) + rest ==
            four[0] + ("\n" + (four[1] + ("\n" + (four[2] + ("\n" + (four[3] + ("\n" + (Unlines(more) + rest))))))))
  {
    hide Unlines;
    var all := four + more;
    UnlinesStep(all, rest);
    UnlinesStep(all[1..], rest);
    UnlinesStep(all[2..], rest);
    UnlinesStep(all[3..], rest);
    assert all[1..][1..] == all[2..] && all[2..][1..] == all[3..] && all[3..][1..] == more;
  }

  lemma UnlinesStep(lines: seq<string>, rest: string)
    requires lines != []
    ensures Unlines(lines) + rest == lines[0] + ("\n" + (Unlines(lines[1..]) + rest))
  {
  }

  /** Reading the metadata of a freshly rendered block gives back the request's package version,
      manifest hash, server name, specification hash and enablement, provided the TOML parser sees in
      it the one server that the line reader sees, switched as the line reader says. */
  lemma MetadataReadsBack(host: Host, r: Request)
    requires ValidRequest(host, r) && Readable(r.server)
    requires ReadServer(RenderBlock(host, r) + "\n").Some? ==>
               var read := ReadServer(RenderBlock(host, r) + "\n").value;
               host.toml(RenderBlock(host, r) + "\n") == Servers(map[read.name := read.enabled])
    ensures BlockMetadata(host, RenderBlock(host, r) + "\n", r.package.id)
         == Success(Metadata(Entries(host, r), r.server.enabled))
  {
    hide RenderBlock, SplitLines, ParseMetadata, MetadataLines, OwnerNamed, ReadServer, Readable;
    ServerReadsBack(host, r);
    BlockHeadLines(host, r);
    MetadataLinesParse(host, r);
    BlockNamesOwner(host, r);
    var names := map[r.server.name := r.server.enabled];
    assert |names| == 1;
  }

  lemma BlockNamesOwner(host: Host, r: Request)
    requires ValidRequest(host, r)
    ensures OwnerNamed(RenderBlock(host, r) + "\n", r.package.id)
  {
    hide BodyLines, Unlines, EndMark;
    var package := r.package.id;
    var block := RenderBlock(host, r) + "\n";
    RenderedIs(host, r);
    var rest := Unlines(BodyLines(host, r)) + (EndMark(package) + "\n");
    assert block == BEGIN_PREFIX + (package + ("\n" + rest));
    MarkAtStart(BEGIN_PREFIX, package + ("\n" + rest));
    var k := |BEGIN_PREFIX|;
    assert block[k..k + |package|] == package;
    assert '\n' !in package && block[k + |package|] == '\n';
    LineEndIs(block, k, k + |package|);
    PlainHasNoSpace(package);
    assert OwnerMarkAt(block, 0);
  }

  lemma PlainHasNoSpace(s: string)
    requires PlainText(s)
    ensures forall c :: c in s ==> !IsSpace(c)
  {
  }

  // ---------- The condition is needed ----------

  /** A file that holds nothing but an indented copy of the BEGIN marker passes every check, for the
      marker stands at no line start; stripping the file moves it to one, and what is then written
      does not read back. */
  lemma IndentedMarkerBreaksReadBack(host: Host, r: Request)
    requires ValidRequest(host, r)
    requires var marker := BEGIN_PREFIX + r.package.id;
             host.toml(" " + marker) == host.toml(marker) == Servers(map[])
    ensures var current := " " + BEGIN_PREFIX + r.package.id;
            var edited := RenderConfig(host, current, r);
            && edited.Success?
            && FindOwnedBlock(edited.value, r.package.id) != Success(Some(RenderBlock(host, r) + "\n"))
  {
    hide RenderBlock, PlainText, BlockEnd;
    var package := r.package.id;
    var marker := BEGIN_PREFIX + package;
    var current := " " + marker;
    assert " " + BEGIN_PREFIX + package == current;
    MarksAreOneLine(package);
    PrefixesAreOneLine();
    IndentedHasNoMark(marker, BEGIN_PREFIX);
    IndentedHasNoMark(marker, BeginLine(package));
    NoBlockAtEnd(current, package);
    FirstBlockSkips(current, 0, |current|, package);
    assert Foreign(current, 0, package) == current[0..] == current;
    MarkerIsStripped(package);
    StripLeading(' ', marker);
    StripOfStripped(marker);
    assert marker + "\n" == BeginLine(package) + "";
    MarkAtStart(BeginLine(package), "");
    assert !NoStray(marker, package);
    RenderedReadsBack(host, current, r);
  }

  lemma IndentedHasNoMark(line: string, w: string)
    requires OneLine(line) && w != "" && w[0] == '#'
    ensures forall i :: 0 <= i <= |line| + 1 ==> !MarkAt(" " + line, i, w)
  {
    forall i | 0 <= i <= |line| + 1 ensures !MarkAt(" " + line, i, w) {
      PrefixCharacter(w, (" " + line)[i..], 0);
      if i > 1 {
        assert (" " + line)[i - 1] == line[i - 2];
      }
    }
  }

  lemma MarkerIsStripped(package: string)
    requires PlainText(package)
    ensures Stripped(BEGIN_PREFIX + package)
  {
    PlainHasNoSpace(package);
    PrefixesAreOneLine();
    HashIsNoSpace();
    assert package[|package| - 1] in package;
  }
}
