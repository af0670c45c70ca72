/**
 A line reader for the owned block, written from the TOML specification and not from the renderer: comments are
 skipped, the header names the server, and each line is a key, ` = `, and a value. What the renderer of
 src/gigaloom/codex_mcp_target.py writes, it reads back to the server specification.
 */
module OwnedBlockReader {
  import opened Wrappers
  import opened Text
  import opened QuotedText
  import opened OwnedBlock

  // ---------- The reader ----------

  datatype Value =
    | Str(text: string)
    | Flag(on: bool)
    | Count(n: nat)
    | List(items: seq<string>)
    | Pairs(pairs: seq<(string, string)>)

  datatype Key =
    | Command | Args | Cwd | EnvVars
    | Url | BearerTokenEnvVar | EnvHttpHeaders
    | Enabled | Required | StartupTimeoutSec | ToolTimeoutSec | DefaultToolsApprovalMode
    | EnabledTools | DisabledTools

  datatype Field = Field(key: Key, value: Value)

  function KeyOf(s: string): Option<Key> {
    if s == "command" then Some(Command)
    else if s == "args" then Some(Args)
    else if s == "cwd" then Some(Cwd)
    else if s == "env_vars" then Some(EnvVars)
    else if s == "url" then Some(Url)
    else if s == "bearer_token_env_var" then Some(BearerTokenEnvVar)
    else if s == "env_http_headers" then Some(EnvHttpHeaders)
    else if s == "enabled" then Some(Enabled)
    else if s == "required" then Some(Required)
    else if s == "startup_timeout_sec" then Some(StartupTimeoutSec)
    else if s == "tool_timeout_sec" then Some(ToolTimeoutSec)
    else if s == "default_tools_approval_mode" then Some(DefaultToolsApprovalMode)
    else if s == "enabled_tools" then Some(EnabledTools)
    else if s == "disabled_tools" then Some(DisabledTools)
    else None
  }

  /** Quoted items separated by a comma and a blank, up to the closing bracket. */
  function ReadItems(t: string): Option<seq<string>>
    decreases |t|
  {
    if t == "" || t[0] != '"' then None
    else
      match Read(Toml, t[1..])
      case None => None
      case Some((item, rest)) =>
        if rest == "]" then Some([item])
        else if |rest| < 2 || rest[..2] != ", " then None
        else
          match ReadItems(rest[2..])
          case None => None
          case Some(more) => Some([item] + more)
  }

  /** Quoted keys with quoted values, up to the closing brace. */
  function ReadPairs(t: string): Option<seq<(string, string)>>
    decreases |t|
  {
    if t == "" || t[0] != '"' then None
    else
      match Read(Toml, t[1..])
      case None => None
      case Some((key, rest)) =>
        if |rest| < 4 || rest[..4] != " = \"" then None
        else
          match Read(Toml, rest[4..])
          case None => None
          case Some((value, after)) =>
            if after == " }" then Some([(key, value)])
            else if |after| < 2 || after[..2] != ", " then None
            else
              match ReadPairs(after[2..])
              case None => None
              case Some(more) => Some([(key, value)] + more)
  }

  function AsciiDigit(c: char): Option<nat> {
    if '0' <= c <= '9' then Some(c as nat - '0' as nat) else None
  }

  function ReadValue(t: string): Option<Value> {
    if t == "" then None
    else if t == "true" then Some(Flag(true))
    else if t == "false" then Some(Flag(false))
    else if t[0] == '"' then
      match ReadWhole(Toml, t)
      case None => None
      case Some(text) => Some(Str(text))
    else if t[0] == '[' then
      match ReadItems(t[1..])
      case None => None
      case Some(items) => Some(List(items))
    else if t[0] == '{' then
      if |t| < 2 || t[1] != ' ' then None
      else
        match ReadPairs(t[2..])
        case None => None
        case Some(pairs) => Some(Pairs(pairs))
    else if AllDigits(AsciiDigit, t) then Some(Count(DigitsValue(AsciiDigit, t)))
    else None
  }

  function ReadLine(line: string): Option<Field> {
    var i := IndexOf(line, ' ');
    if |line| < i + 3 || line[i + 1] != '=' || line[i + 2] != ' ' then None
    else
      match (KeyOf(line[..i]), ReadValue(line[i + 3..]))
      case (Some(key), Some(value)) => Some(Field(key, value))
      case _ => None
  }

  function ReadFields(lines: seq<string>): Option<seq<Field>> {
    if lines == [] then Some([])
    else
      match (ReadLine(lines[0]), ReadFields(lines[1..]))
      case (Some(field), Some(more)) => Some([field] + more)
      case _ => None
  }

  const TABLE := "[mcp_servers."

  function ReadHeader(line: string): Option<string> {
    if |line| < |TABLE| + 1 || line[..|TABLE|] != TABLE || line[|line| - 1] != ']' then None
    else ReadWhole(Toml, line[|TABLE|..|line| - 1])
  }

  /** The value of a key; nothing if it is not there. */
  function Get(fields: seq<Field>, key: Key): Option<Value> {
    if fields == [] then None
    else if fields[0].key == key then Some(fields[0].value)
    else Get(fields[1..], key)
  }

  function TextOf(fields: seq<Field>, key: Key): Option<string> {
    match Get(fields, key)
    case Some(Str(text)) => Some(text)
    case _ => None
  }

  function ListOf(fields: seq<Field>, key: Key): seq<string> {
    match Get(fields, key)
    case Some(List(items)) => items
    case _ => []
  }

  function PairsOf(fields: seq<Field>, key: Key): seq<(string, string)> {
    match Get(fields, key)
    case Some(Pairs(pairs)) => pairs
    case _ => []
  }

  /** A server has a command or an address; what else is missing is empty, but for the switches. */
  function TransportFrom(fields: seq<Field>): Option<Transport> {
    match (TextOf(fields, Command), TextOf(fields, Url))
    case (Some(command), None) =>
      Some(Stdio(command, ListOf(fields, Args), TextOf(fields, Cwd), ListOf(fields, EnvVars)))
    case (None, Some(url)) =>
      Some(StreamableHttp(url, TextOf(fields, BearerTokenEnvVar), PairsOf(fields, EnvHttpHeaders)))
    case _ => None
  }

  function ServerFrom(name: string, fields: seq<Field>): Option<ServerSpec> {
    match (TransportFrom(fields), Get(fields, Enabled), Get(fields, Required), Get(fields, StartupTimeoutSec),
           Get(fields, ToolTimeoutSec), TextOf(fields, DefaultToolsApprovalMode))
    case (Some(transport), Some(Flag(enabled)), Some(Flag(required)), Some(Count(startup)), Some(Count(tool)),
          Some(mode)) =>
      Some(ServerSpec(name, transport, enabled, required, startup, tool, ListOf(fields, EnabledTools),
                      ListOf(fields, DisabledTools), mode))
    case _ => None
  }

  /** A comment or an empty line. */
  predicate Comment(line: string) {
    line == "" || line[0] == '#'
  }

  function Uncommented(lines: seq<string>): seq<string> {
    if lines == [] then []
    else (if Comment(lines[0]) then [] else [lines[0]]) + Uncommented(lines[1..])
  }

  function ReadServer(block: string): Option<ServerSpec> {
    var lines := Uncommented(SplitOn(block, '\n'));
    if lines == [] then None
    else
      match (ReadHeader(lines[0]), ReadFields(lines[1..]))
      case (Some(name), Some(fields)) => ServerFrom(name, fields)
      case _ => None
  }

  // ---------- What can be read ----------

  /** TOML forbids DEL in a string, and the renderer does not escape it. */
  predicate NoDel(s: string) {
    forall k | 0 <= k < |s| :: s[k] as int != 127
  }

  predicate AllNoDel(items: seq<string>) {
    forall i | 0 <= i < |items| :: NoDel(items[i])
  }

  predicate PairsNoDel(pairs: seq<(string, string)>) {
    forall i | 0 <= i < |pairs| :: NoDel(pairs[i].0) && NoDel(pairs[i].1)
  }

  predicate OptionNoDel(s: Option<string>) {
    s.Some? ==> NoDel(s.value)
  }

  predicate TransportReadable(t: Transport) {
    match t
    case Stdio(command, args, cwd, envVars) => NoDel(command) && AllNoDel(args) && OptionNoDel(cwd) && AllNoDel(envVars)
    case StreamableHttp(url, bearer, headers) => NoDel(url) && OptionNoDel(bearer) && PairsNoDel(headers)
  }

  /** No string of the specification holds a DEL. */
  predicate Readable(server: ServerSpec) {
    && NoDel(server.name) && TransportReadable(server.transport) && NoDel(server.approvalMode)
    && AllNoDel(server.enabledTools) && AllNoDel(server.disabledTools)
  }

  function NonEmpty(s: Option<string>): Option<string> {
    if s == Some("") then None else s
  }

  /** The specification with an empty working directory or token variable as none, as the source writes it. */
  function Normal(server: ServerSpec): ServerSpec {
    server.(transport := match server.transport
                         case Stdio(command, args, cwd, envVars) => Stdio(command, args, NonEmpty(cwd), envVars)
                         case StreamableHttp(url, bearer, headers) => StreamableHttp(url, NonEmpty(bearer), headers))
  }

  function When<T>(condition: bool, x: T): Option<T> {
    if condition then Some(x) else None
  }

  // ---------- Strings ----------

  lemma HexReads(n: nat)
    requires n < 16
    ensures HexValue(HexDigit(n)) == Some(n)
  {
    assert HexDigit(n) == if n < 10 then ('0' as int + n) as char else ('a' as int + n - 10) as char;
  }

  lemma ControlReads(c: char, rest: string)
    requires c as int < 32
    ensures Read(Toml, "\\u00" + [HexDigit(c as int / 16), HexDigit(c as int % 16)] + rest)
            == Prefixed(c, Read(Toml, rest))
  {
    hide Read;
    var digits := "00" + [HexDigit(c as int / 16), HexDigit(c as int % 16)];
    HexReads(c as int / 16);
    HexReads(c as int % 16);
    assert UnitValue(digits) == Some(c as nat);
    ReadsUnit(Toml, digits, rest);
    assert (c as nat) as char == c;
    assert "\\u00" + [HexDigit(c as int / 16), HexDigit(c as int % 16)] + rest == "\\u" + digits + rest;
  }

  lemma CharReads(c: char, rest: string)
    ensures Read(Toml, EscapedChar(c) + rest) == if c as int == 127 then None else Prefixed(c, Read(Toml, rest))
  {
    hide Read, HexDigit;
    if c == '"' || c == '\\' {
      ReadsShort(Toml, c, rest);
    } else if c == '\n' {
      ReadsShort(Toml, 'n', rest);
    } else if c == '\r' {
      ReadsShort(Toml, 'r', rest);
    } else if c == '\t' {
      ReadsShort(Toml, 't', rest);
    } else if c as int == 8 {
      ReadsShort(Toml, 'b', rest);
    } else if c as int == 12 {
      ReadsShort(Toml, 'f', rest);
    } else if c as int < 32 {
      ControlReads(c, rest);
    } else if c as int == 127 {
      ReadsForbidden(Toml, c, rest);
    } else {
      ReadsRaw(Toml, c, rest);
    }
  }

  lemma {:induction false} TextReads(s: string, rest: string)
    ensures Read(Toml, Escaped(s) + ("\"" + rest)) == When(NoDel(s), (s, rest))
  {
    hide Read, EscapedChar;
    if s == "" {
      assert Escaped(s) + ("\"" + rest) == "\"" + rest;
      ReadsEnd(Toml, rest);
    } else {
      var more := Escaped(s[1..]) + ("\"" + rest);
      assert Escaped(s) + ("\"" + rest) == EscapedChar(s[0]) + more;
      CharReads(s[0], more);
      TextReads(s[1..], rest);
      assert NoDel(s) <==> s[0] as int != 127 && NoDel(s[1..]) by {
        assert forall k | 0 <= k < |s[1..]| :: s[1..][k] == s[k + 1];
      }
      assert [s[0]] + s[1..] == s;
    }
  }

  /** A quoted text followed by something: what a reader finds behind the opening quote. */
  lemma QuotedThen(s: string, rest: string)
    ensures Quoted(s) + rest != "" && (Quoted(s) + rest)[0] == '"'
    ensures (Quoted(s) + rest)[1..] == Escaped(s) + ("\"" + rest)
    ensures Read(Toml, (Quoted(s) + rest)[1..]) == When(NoDel(s), (s, rest))
  {
    hide Read, Escaped;
    TextReads(s, rest);
    assert (Quoted(s) + rest)[1..] == Escaped(s) + ("\"" + rest);
  }

  lemma WholeReads(s: string)
    ensures ReadWhole(Toml, Quoted(s)) == When(NoDel(s), s)
  {
    hide Read, Quoted;
    QuotedThen(s, "");
    assert Quoted(s) + "" == Quoted(s);
  }

  // ---------- Values ----------

  lemma StrReads(s: string)
    ensures ReadValue(Quoted(s)) == When(NoDel(s), Str(s))
  {
    hide ReadWhole, Escaped;
    WholeReads(s);
    assert Quoted(s)[0] == '"' && "true"[0] == 't' && "false"[0] == 'f';
  }

  lemma FlagReads(b: bool)
    ensures ReadValue(BoolText(b)) == Some(Flag(b))
  {
  }

  lemma {:induction false} DecimalReads(n: nat)
    ensures Decimal(n) != "" && AllDigits(AsciiDigit, Decimal(n)) && DigitsValue(AsciiDigit, Decimal(n)) == n
  {
    if n >= 10 {
      DecimalReads(n / 10);
      assert Decimal(n)[..|Decimal(n)| - 1] == Decimal(n / 10);
    } else {
      assert Decimal(n)[..0] == "";
    }
  }

  lemma DigitsAreNoWord(t: string)
    requires t != "" && '0' <= t[0] <= '9'
    ensures t != "true" && t != "false"
  {
    assert "true"[0] == 't' && "false"[0] == 'f';
  }

  lemma CountReads(n: nat)
    ensures ReadValue(Decimal(n)) == Some(Count(n))
  {
    hide Decimal, DigitsValue, ReadWhole, ReadItems, ReadPairs;
    DecimalReads(n);
    var t := Decimal(n);
    assert AsciiDigit(t[0]).Some?;
    DigitsAreNoWord(t);
    assert ReadValue(t) == Some(Count(DigitsValue(AsciiDigit, t)));
  }

  function QuotedAll(items: seq<string>): seq<string> {
    seq(|items|, i requires 0 <= i < |items| => Quoted(items[i]))
  }

  lemma ItemsStep(items: seq<string>)
    requires items != []
    ensures CommaJoined(QuotedAll(items)) + "]"
            == Quoted(items[0]) + if |items| == 1 then "]" else ", " + (CommaJoined(QuotedAll(items[1..])) + "]")
  {
    hide Quoted;
    assert QuotedAll(items)[1..] == QuotedAll(items[1..]);
  }

  lemma ReadItemsLast(t: string, item: string)
    requires t != "" && t[0] == '"' && Read(Toml, t[1..]) == Some((item, "]"))
    ensures ReadItems(t) == Some([item])
  {
  }

  lemma ReadItemsStep(t: string, item: string, more: string)
    requires t != "" && t[0] == '"' && Read(Toml, t[1..]) == Some((item, ", " + more))
    ensures ReadItems(t) == match ReadItems(more) case None => None case Some(items) => Some([item] + items)
  {
    hide Read;
    var rest := ", " + more;
    assert rest[..2] == ", " && rest[2..] == more && rest[0] == ',';
  }

  lemma ReadItemsFails(t: string)
    requires t != "" && t[0] == '"' && Read(Toml, t[1..]) == None
    ensures ReadItems(t) == None
  {
  }

  lemma {:induction false} ItemsRead(items: seq<string>)
    requires items != []
    ensures ReadItems(CommaJoined(QuotedAll(items)) + "]") == When(AllNoDel(items), items)
  {
    hide Read, ReadItems, Quoted, CommaJoined, QuotedAll, NoDel;
    ItemsStep(items);
    var tail := if |items| == 1 then "]" else ", " + (CommaJoined(QuotedAll(items[1..])) + "]");
    var t := Quoted(items[0]) + tail;
    QuotedThen(items[0], tail);
    assert AllNoDel(items) <==> NoDel(items[0]) && AllNoDel(items[1..]) by {
      assert forall i | 0 <= i < |items[1..]| :: items[1..][i] == items[i + 1];
    }
    if !NoDel(items[0]) {
      ReadItemsFails(t);
    } else {
      if |items| == 1 {
        ReadItemsLast(t, items[0]);
        assert AllNoDel(items[1..]) && items == [items[0]];
      } else {
        ReadItemsStep(t, items[0], CommaJoined(QuotedAll(items[1..])) + "]");
        ItemsRead(items[1..]);
        assert [items[0]] + items[1..] == items;
      }
    }
  }

  lemma ListReads(items: seq<string>)
    requires items != []
    ensures ReadValue(TomlArray(items)) == When(AllNoDel(items), List(items))
  {
    hide ReadItems, CommaJoined, Quoted;
    ItemsRead(items);
    var t := TomlArray(items);
    assert t[1..] == CommaJoined(QuotedAll(items)) + "]" && t[0] == '[';
  }

  function HeaderItems(pairs: seq<(string, string)>): seq<string> {
    seq(|pairs|, i requires 0 <= i < |pairs| => HeaderItem(pairs[i]))
  }

  lemma PairsStep(pairs: seq<(string, string)>)
    requires pairs != []
    ensures var tail := if |pairs| == 1 then " }" else ", " + (CommaJoined(HeaderItems(pairs[1..])) + " }");
            CommaJoined(HeaderItems(pairs)) + " }"
            == Quoted(pairs[0].0) + (" = \"" + (Escaped(pairs[0].1) + ("\"" + tail)))
  {
    hide Escaped, Quoted;
    assert HeaderItems(pairs)[1..] == HeaderItems(pairs[1..]);
    HeaderItemIs(pairs[0]);
  }

  lemma HeaderItemIs(pair: (string, string))
    ensures HeaderItem(pair) == Quoted(pair.0) + (" = \"" + (Escaped(pair.1) + "\""))
  {
    hide Escaped;
  }

  lemma ReadPairsLast(t: string, key: string, rest: string, value: string)
    requires t != "" && t[0] == '"' && Read(Toml, t[1..]) == Some((key, " = \"" + rest))
    requires Read(Toml, rest) == Some((value, " }"))
    ensures ReadPairs(t) == Some([(key, value)])
  {
    hide Read;
    assert (" = \"" + rest)[..4] == " = \"" && (" = \"" + rest)[4..] == rest;
  }

  lemma ReadPairsStep(t: string, key: string, rest: string, value: string, more: string)
    requires t != "" && t[0] == '"' && Read(Toml, t[1..]) == Some((key, " = \"" + rest))
    requires Read(Toml, rest) == Some((value, ", " + more))
    ensures ReadPairs(t) == match ReadPairs(more) case None => None case Some(pairs) => Some([(key, value)] + pairs)
  {
    hide Read;
    assert (" = \"" + rest)[..4] == " = \"" && (" = \"" + rest)[4..] == rest;
    var after := ", " + more;
    assert after[..2] == ", " && after[2..] == more && after[0] == ',';
  }

  lemma ReadPairsFails(t: string, key: string, rest: string)
    requires t != "" && t[0] == '"'
    ensures Read(Toml, t[1..]) == None ==> ReadPairs(t) == None
    ensures Read(Toml, t[1..]) == Some((key, " = \"" + rest)) && Read(Toml, rest) == None ==> ReadPairs(t) == None
  {
    hide Read;
    assert (" = \"" + rest)[..4] == " = \"" && (" = \"" + rest)[4..] == rest;
  }

  lemma {:induction false} PairsRead(pairs: seq<(string, string)>)
    requires pairs != []
    ensures ReadPairs(CommaJoined(HeaderItems(pairs)) + " }") == When(PairsNoDel(pairs), pairs)
  {
    hide Read, ReadPairs, Quoted, Escaped, CommaJoined, HeaderItems, NoDel;
    PairsStep(pairs);
    var (key, value) := pairs[0];
    var tail := if |pairs| == 1 then " }" else ", " + (CommaJoined(HeaderItems(pairs[1..])) + " }");
    var rest := Escaped(value) + ("\"" + tail);
    var t := Quoted(key) + (" = \"" + rest);
    QuotedThen(key, " = \"" + rest);
    TextReads(value, tail);
    assert PairsNoDel(pairs) <==> NoDel(key) && NoDel(value) && PairsNoDel(pairs[1..]) by {
      assert forall i | 0 <= i < |pairs[1..]| :: pairs[1..][i] == pairs[i + 1];
    }
    ReadPairsFails(t, key, rest);
    if NoDel(key) && NoDel(value) {
      if |pairs| == 1 {
        ReadPairsLast(t, key, rest, value);
        assert PairsNoDel(pairs[1..]) && pairs == [(key, value)];
      } else {
        ReadPairsStep(t, key, rest, value, CommaJoined(HeaderItems(pairs[1..])) + " }");
        PairsRead(pairs[1..]);
        assert [(key, value)] + pairs[1..] == pairs;
      }
    }
  }

  lemma TableReads(pairs: seq<(string, string)>)
    requires pairs != []
    ensures ReadValue("{ " + HeaderTable(pairs) + " }") == When(PairsNoDel(pairs), Pairs(pairs))
  {
    hide ReadPairs, CommaJoined, HeaderItem;
    PairsRead(pairs);
    var t := "{ " + HeaderTable(pairs) + " }";
    assert t[2..] == CommaJoined(HeaderItems(pairs)) + " }" && t[0] == '{' && t[1] == ' ';
  }

  // ---------- Lines ----------

  function NameOf(key: Key): string {
    match key
    case Command => "command"
    case Args => "args"
    case Cwd => "cwd"
    case EnvVars => "env_vars"
    case Url => "url"
    case BearerTokenEnvVar => "bearer_token_env_var"
    case EnvHttpHeaders => "env_http_headers"
    case Enabled => "enabled"
    case Required => "required"
    case StartupTimeoutSec => "startup_timeout_sec"
    case ToolTimeoutSec => "tool_timeout_sec"
    case DefaultToolsApprovalMode => "default_tools_approval_mode"
    case EnabledTools => "enabled_tools"
    case DisabledTools => "disabled_tools"
  }

  predicate Word(s: string) {
    ' ' !in s && s != "" && s[0] != '#'
  }

  lemma TransportNameIsWord(key: Key)
    requires key.Command? || key.Args? || key.Cwd? || key.EnvVars? || key.Url? || key.BearerTokenEnvVar?
    ensures Word(NameOf(key))
  {
  }

  lemma SwitchNameIsWord(key: Key)
    requires key.EnvHttpHeaders? || key.Enabled? || key.Required? || key.StartupTimeoutSec? || key.ToolTimeoutSec?
    ensures Word(NameOf(key))
  {
  }

  lemma ToolNameIsWord(key: Key)
    requires key.DefaultToolsApprovalMode? || key.EnabledTools? || key.DisabledTools?
    ensures Word(NameOf(key))
  {
  }

  lemma NameIsWord(key: Key)
    ensures Word(NameOf(key))
  {
    hide NameOf, Word;
    if key.DefaultToolsApprovalMode? || key.EnabledTools? || key.DisabledTools? {
      ToolNameIsWord(key);
    } else if key.EnvHttpHeaders? || key.Enabled? || key.Required? || key.StartupTimeoutSec? || key.ToolTimeoutSec? {
      SwitchNameIsWord(key);
    } else {
      TransportNameIsWord(key);
    }
  }

  lemma TransportNameReads(key: Key)
    requires || key.Command? || key.Args? || key.Cwd? || key.EnvVars?
             || key.Url? || key.BearerTokenEnvVar? || key.EnvHttpHeaders?
    ensures KeyOf(NameOf(key)) == Some(key)
  {
    assert "cwd"[0] != "url"[0];
  }

  lemma SwitchNameReads(key: Key)
    requires key.Enabled? || key.Required? || key.StartupTimeoutSec? || key.ToolTimeoutSec?
    ensures KeyOf(NameOf(key)) == Some(key)
  {
    assert "enabled"[0] != "command"[0] && "env_vars"[0] != "required"[0];
    assert "env_http_headers"[0] != "tool_timeout_sec"[0];
  }

  lemma ToolNameReads(key: Key)
    requires key.DefaultToolsApprovalMode? || key.EnabledTools? || key.DisabledTools?
    ensures KeyOf(NameOf(key)) == Some(key)
  {
  }

  lemma NameReads(key: Key)
    ensures KeyOf(NameOf(key)) == Some(key) && ' ' !in NameOf(key)
  {
    hide KeyOf, NameOf;
    NameIsWord(key);
    if key.Enabled? || key.Required? || key.StartupTimeoutSec? || key.ToolTimeoutSec? {
      SwitchNameReads(key);
    } else if key.DefaultToolsApprovalMode? || key.EnabledTools? || key.DisabledTools? {
      ToolNameReads(key);
    } else {
      TransportNameReads(key);
    }
  }

  lemma LineReads(key: Key, text: string)
    ensures ReadLine(NameOf(key) + (" = " + text))
            == if ReadValue(text).None? then None else Some(Field(key, ReadValue(text).value))
  {
    hide ReadValue, KeyOf, NameOf;
    NameReads(key);
    var name := NameOf(key);
    var line := name + (" = " + text);
    IndexIs(name, ' ', " = " + text);
    assert line[|name| + 1] == '=' && line[|name| + 2] == ' ';
    assert line[..|name|] == name && line[|name| + 3..] == text;
  }

  lemma OneField(line: string)
    ensures ReadFields([line]) == if ReadLine(line).None? then None else Some([ReadLine(line).value])
  {
    hide ReadLine;
    assert [line][1..] == [];
    if ReadLine(line).Some? {
      assert [ReadLine(line).value] + [] == [ReadLine(line).value];
    }
  }

  lemma {:induction false} FieldsConcat(xs: seq<string>, ys: seq<string>)
    ensures ReadFields(xs + ys)
            == if ReadFields(xs).None? || ReadFields(ys).None? then None
               else Some(ReadFields(xs).value + ReadFields(ys).value)
  {
    hide ReadLine;
    if xs == [] {
      assert xs + ys == ys;
      if ReadFields(ys).Some? {
        assert [] + ReadFields(ys).value == ReadFields(ys).value;
      }
    } else {
      assert (xs + ys)[1..] == xs[1..] + ys;
      FieldsConcat(xs[1..], ys);
      if ReadFields(xs).Some? && ReadFields(ys).Some? {
        var first, more := ReadFields(xs).value[0], ReadFields(xs[1..]).value;
        assert [first] + (more + ReadFields(ys).value) == ([first] + more) + ReadFields(ys).value;
      }
    }
  }

  function ArrayFields(key: Key, items: seq<string>): seq<Field> {
    if items == [] then [] else [Field(key, List(items))]
  }

  function TextFields(key: Key, value: Option<string>): seq<Field> {
    if NonEmpty(value).None? then [] else [Field(key, Str(value.value))]
  }

  function HeaderFields(headers: seq<(string, string)>): seq<Field> {
    if headers == [] then [] else [Field(EnvHttpHeaders, Pairs(headers))]
  }

  lemma ArrayLineReads(key: Key, items: seq<string>)
    ensures ReadFields(ArrayLine(NameOf(key), items)) == When(AllNoDel(items), ArrayFields(key, items))
  {
    hide ReadLine, ReadValue, NameOf, TomlArray;
    if items != [] {
      var text := TomlArray(items);
      ListReads(items);
      LineReads(key, text);
      assert NameOf(key) + " = " + text == NameOf(key) + (" = " + text);
      OneField(NameOf(key) + (" = " + text));
    }
  }

  lemma StrLineReads(key: Key, s: string)
    ensures ReadFields([NameOf(key) + " = " + Quoted(s)]) == When(NoDel(s), [Field(key, Str(s))])
  {
    hide ReadLine, ReadValue, NameOf, Quoted;
    StrReads(s);
    LineReads(key, Quoted(s));
    assert NameOf(key) + " = " + Quoted(s) == NameOf(key) + (" = " + Quoted(s));
    OneField(NameOf(key) + (" = " + Quoted(s)));
  }

  lemma TextLineReads(key: Key, value: Option<string>)
    ensures ReadFields(TextLine(NameOf(key), value)) == When(OptionNoDel(value), TextFields(key, value))
  {
    hide ReadLine, NameOf, Quoted;
    if NonEmpty(value).Some? {
      StrLineReads(key, value.value);
    }
  }

  lemma HeaderLineReads(headers: seq<(string, string)>)
    ensures ReadFields(if headers == [] then [] else ["env_http_headers = { " + HeaderTable(headers) + " }"])
            == When(PairsNoDel(headers), HeaderFields(headers))
  {
    hide ReadLine, ReadValue, HeaderTable;
    if headers != [] {
      var text := "{ " + HeaderTable(headers) + " }";
      TableReads(headers);
      LineReads(EnvHttpHeaders, text);
      assert "env_http_headers = { " + HeaderTable(headers) + " }" == NameOf(EnvHttpHeaders) + (" = " + text);
      OneField(NameOf(EnvHttpHeaders) + (" = " + text));
    }
  }

  function TransportFields(t: Transport): seq<Field> {
    match t
    case Stdio(command, args, cwd, envVars) =>
      [Field(Command, Str(command))] + ArrayFields(Args, args) + TextFields(Cwd, cwd) + ArrayFields(EnvVars, envVars)
    case StreamableHttp(url, bearer, headers) =>
      [Field(Url, Str(url))] + TextFields(BearerTokenEnvVar, bearer) + HeaderFields(headers)
  }

  lemma CommandLine(s: string)
    ensures "command = " + Quoted(s) == NameOf(Command) + " = " + Quoted(s)
    ensures "url = " + Quoted(s) == NameOf(Url) + " = " + Quoted(s)
  {
    hide Quoted;
    assert "command = " == "command" + " = " && "url = " == "url" + " = ";
  }

  lemma TransportReads(t: Transport)
    ensures ReadFields(TransportLines(t)) == When(TransportReadable(t), TransportFields(t))
  {
    hide ReadFields, ArrayLine, TextLine, ArrayFields, TextFields, HeaderFields, NoDel, AllNoDel, OptionNoDel,
         PairsNoDel;
    hide Quoted, HeaderTable;
    match t {
      case Stdio(command, args, cwd, envVars) =>
        CommandLine(command);
        var first := ["command = " + Quoted(command)];
        StrLineReads(Command, command);
        ArrayLineReads(Args, args);
        TextLineReads(Cwd, cwd);
        ArrayLineReads(EnvVars, envVars);
        FieldsConcat(first, ArrayLine("args", args));
        FieldsConcat(first + ArrayLine("args", args), TextLine("cwd", cwd));
        FieldsConcat(first + ArrayLine("args", args) + TextLine("cwd", cwd), ArrayLine("env_vars", envVars));
      case StreamableHttp(url, bearer, headers) =>
        CommandLine(url);
        var first := ["url = " + Quoted(url)];
        StrLineReads(Url, url);
        TextLineReads(BearerTokenEnvVar, bearer);
        HeaderLineReads(headers);
        var last := if headers == [] then [] else ["env_http_headers = { " + HeaderTable(headers) + " }"];
        FieldsConcat(first, TextLine("bearer_token_env_var", bearer));
        FieldsConcat(first + TextLine("bearer_token_env_var", bearer), last);
    }
  }

  function SwitchFields(server: ServerSpec): seq<Field> {
    [Field(Enabled, Flag(server.enabled)), Field(Required, Flag(server.required)),
     Field(StartupTimeoutSec, Count(server.startupTimeoutSec)), Field(ToolTimeoutSec, Count(server.toolTimeoutSec)),
     Field(DefaultToolsApprovalMode, Str(server.approvalMode))]
  }

  lemma ValueLineReads(key: Key, text: string, value: Value)
    requires ReadValue(text) == Some(value)
    ensures ReadFields([NameOf(key) + " = " + text]) == Some([Field(key, value)])
  {
    hide ReadLine, ReadValue, NameOf;
    LineReads(key, text);
    assert NameOf(key) + " = " + text == NameOf(key) + (" = " + text);
    OneField(NameOf(key) + (" = " + text));
  }

  lemma SwitchTexts(server: ServerSpec)
    ensures SwitchLines(server)
            == [NameOf(Enabled) + " = " + BoolText(server.enabled)]
               + [NameOf(Required) + " = " + BoolText(server.required)]
               + [NameOf(StartupTimeoutSec) + " = " + Decimal(server.startupTimeoutSec)]
               + [NameOf(ToolTimeoutSec) + " = " + Decimal(server.toolTimeoutSec)]
               + [NameOf(DefaultToolsApprovalMode) + " = " + Quoted(server.approvalMode)]
  {
    hide BoolText, Decimal, Quoted;
    assert "enabled = " == "enabled" + " = " && "required = " == "required" + " = ";
    assert "startup_timeout_sec = " == "startup_timeout_sec" + " = ";
    assert "tool_timeout_sec = " == "tool_timeout_sec" + " = ";
    assert "default_tools_approval_mode = " == "default_tools_approval_mode" + " = ";
  }

  lemma SwitchesRead(server: ServerSpec)
    ensures ReadFields(SwitchLines(server)) == When(NoDel(server.approvalMode), SwitchFields(server))
  {
    hide ReadFields, SwitchLines, BoolText, Decimal, Quoted, NameOf, NoDel;
    SwitchTexts(server);
    var a := [NameOf(Enabled) + " = " + BoolText(server.enabled)];
    var b := [NameOf(Required) + " = " + BoolText(server.required)];
    var c := [NameOf(StartupTimeoutSec) + " = " + Decimal(server.startupTimeoutSec)];
    var d := [NameOf(ToolTimeoutSec) + " = " + Decimal(server.toolTimeoutSec)];
    var e := [NameOf(DefaultToolsApprovalMode) + " = " + Quoted(server.approvalMode)];
    FlagReads(server.enabled);
    ValueLineReads(Enabled, BoolText(server.enabled), Flag(server.enabled));
    FlagReads(server.required);
    ValueLineReads(Required, BoolText(server.required), Flag(server.required));
    CountReads(server.startupTimeoutSec);
    ValueLineReads(StartupTimeoutSec, Decimal(server.startupTimeoutSec), Count(server.startupTimeoutSec));
    CountReads(server.toolTimeoutSec);
    ValueLineReads(ToolTimeoutSec, Decimal(server.toolTimeoutSec), Count(server.toolTimeoutSec));
    StrLineReads(DefaultToolsApprovalMode, server.approvalMode);
    FieldsConcat(a, b);
    FieldsConcat(a + b, c);
    FieldsConcat(a + b + c, d);
    FieldsConcat(a + b + c + d, e);
    assert SwitchFields(server)
        == [SwitchFields(server)[0]] + [SwitchFields(server)[1]] + [SwitchFields(server)[2]]
           + [SwitchFields(server)[3]] + [SwitchFields(server)[4]];
  }

  // ---------- The block ----------

  function Fields(server: ServerSpec): seq<Field> {
    TransportFields(server.transport) + SwitchFields(server)
    + ArrayFields(EnabledTools, server.enabledTools) + ArrayFields(DisabledTools, server.disabledTools)
  }

  lemma FieldsRead(server: ServerSpec)
    requires NoDel(server.name)
    ensures ReadFields(TomlLines(server)[1..]) == When(Readable(server), Fields(server))
  {
    hide ReadFields, TransportLines, SwitchLines, ArrayLine, TransportFields, SwitchFields, ArrayFields, Quoted;
    hide NoDel, AllNoDel, TransportReadable;
    TransportReads(server.transport);
    SwitchesRead(server);
    ArrayLineReads(EnabledTools, server.enabledTools);
    ArrayLineReads(DisabledTools, server.disabledTools);
    var t, w := TransportLines(server.transport), SwitchLines(server);
    var on, off := ArrayLine("enabled_tools", server.enabledTools), ArrayLine("disabled_tools", server.disabledTools);
    FieldsConcat(t, w);
    FieldsConcat(t + w, on);
    FieldsConcat(t + w + on, off);
    assert TomlLines(server)[1..] == t + w + on + off;
  }

  /** What each key of the table says about the server. */
  function Said(server: ServerSpec, key: Key): Option<Value> {
    match (key, server.transport)
    case (Command, Stdio(command, _, _, _)) => Some(Str(command))
    case (Args, Stdio(_, args, _, _)) => When(args != [], List(args))
    case (Cwd, Stdio(_, _, cwd, _)) => if NonEmpty(cwd).None? then None else Some(Str(cwd.value))
    case (EnvVars, Stdio(_, _, _, envVars)) => When(envVars != [], List(envVars))
    case (Url, StreamableHttp(url, _, _)) => Some(Str(url))
    case (BearerTokenEnvVar, StreamableHttp(_, bearer, _)) =>
      if NonEmpty(bearer).None? then None else Some(Str(bearer.value))
    case (EnvHttpHeaders, StreamableHttp(_, _, headers)) => When(headers != [], Pairs(headers))
    case (Enabled, _) => Some(Flag(server.enabled))
    case (Required, _) => Some(Flag(server.required))
    case (StartupTimeoutSec, _) => Some(Count(server.startupTimeoutSec))
    case (ToolTimeoutSec, _) => Some(Count(server.toolTimeoutSec))
    case (DefaultToolsApprovalMode, _) => Some(Str(server.approvalMode))
    case (EnabledTools, _) => When(server.enabledTools != [], List(server.enabledTools))
    case (DisabledTools, _) => When(server.disabledTools != [], List(server.disabledTools))
    case _ => None
  }

  lemma {:induction false} GetConcat(xs: seq<Field>, ys: seq<Field>, key: Key)
    ensures Get(xs + ys, key) == if Get(xs, key).Some? then Get(xs, key) else Get(ys, key)
  {
    if xs == [] {
      assert xs + ys == ys;
    } else {
      assert (xs + ys)[1..] == xs[1..] + ys;
      GetConcat(xs[1..], ys, key);
    }
  }

  lemma GetOne(field: Field, key: Key)
    ensures Get([field], key) == When(field.key == key, field.value) && Get([], key) == None
  {
    assert [field][1..] == [];
  }

  lemma GetPart(key: Key, k: Key, items: seq<string>, text: Option<string>, headers: seq<(string, string)>)
    ensures Get(ArrayFields(k, items), key) == When(key == k && items != [], List(items))
    ensures Get(TextFields(k, text), key)
            == if key == k && NonEmpty(text).Some? then Some(Str(text.value)) else None
    ensures Get(HeaderFields(headers), key) == When(key == EnvHttpHeaders && headers != [], Pairs(headers))
  {
    hide Get;
    GetOne(Field(k, List(items)), key);
    GetOne(Field(EnvHttpHeaders, Pairs(headers)), key);
    if NonEmpty(text).Some? {
      GetOne(Field(k, Str(text.value)), key);
    }
  }

  lemma GetTransport(t: Transport, key: Key)
    ensures Get(TransportFields(t), key)
            == match (key, t)
               case (Command, Stdio(command, _, _, _)) => Some(Str(command))
               case (Args, Stdio(_, args, _, _)) => When(args != [], List(args))
               case (Cwd, Stdio(_, _, cwd, _)) => if NonEmpty(cwd).None? then None else Some(Str(cwd.value))
               case (EnvVars, Stdio(_, _, _, envVars)) => When(envVars != [], List(envVars))
               case (Url, StreamableHttp(url, _, _)) => Some(Str(url))
               case (BearerTokenEnvVar, StreamableHttp(_, bearer, _)) =>
                 if NonEmpty(bearer).None? then None else Some(Str(bearer.value))
               case (EnvHttpHeaders, StreamableHttp(_, _, headers)) => When(headers != [], Pairs(headers))
               case _ => None
  {
    hide Get, ArrayFields, TextFields, HeaderFields;
    match t {
      case Stdio(command, args, cwd, envVars) =>
        var first := [Field(Command, Str(command))];
        GetOne(first[0], key);
        GetPart(key, Args, args, cwd, []);
        GetPart(key, Cwd, args, cwd, []);
        GetPart(key, EnvVars, envVars, cwd, []);
        GetConcat(first, ArrayFields(Args, args), key);
        GetConcat(first + ArrayFields(Args, args), TextFields(Cwd, cwd), key);
        GetConcat(first + ArrayFields(Args, args) + TextFields(Cwd, cwd), ArrayFields(EnvVars, envVars), key);
      case StreamableHttp(url, bearer, headers) =>
        var first := [Field(Url, Str(url))];
        GetOne(first[0], key);
        GetPart(key, BearerTokenEnvVar, [], bearer, headers);
        GetConcat(first, TextFields(BearerTokenEnvVar, bearer), key);
        GetConcat(first + TextFields(BearerTokenEnvVar, bearer), HeaderFields(headers), key);
    }
  }

  lemma GetSwitch(server: ServerSpec, key: Key)
    ensures Get(SwitchFields(server), key)
            == match key
               case Enabled => Some(Flag(server.enabled))
               case Required => Some(Flag(server.required))
               case StartupTimeoutSec => Some(Count(server.startupTimeoutSec))
               case ToolTimeoutSec => Some(Count(server.toolTimeoutSec))
               case DefaultToolsApprovalMode => Some(Str(server.approvalMode))
               case _ => None
  {
    hide Get;
    var fs := SwitchFields(server);
    forall i | 0 <= i < 5 ensures Get([fs[i]], key) == When(fs[i].key == key, fs[i].value) {
      GetOne(fs[i], key);
    }
    var a, b, c, d, e := [fs[0]], [fs[1]], [fs[2]], [fs[3]], [fs[4]];
    GetConcat(a, b, key);
    GetConcat(a + b, c, key);
    GetConcat(a + b + c, d, key);
    GetConcat(a + b + c + d, e, key);
    assert fs == a + b + c + d + e;
  }

  lemma GetIs(server: ServerSpec, key: Key)
    ensures Get(Fields(server), key) == Said(server, key)
  {
    hide Get, TransportFields, SwitchFields, ArrayFields;
    var t, w := TransportFields(server.transport), SwitchFields(server);
    var on, off := ArrayFields(EnabledTools, server.enabledTools), ArrayFields(DisabledTools, server.disabledTools);
    GetTransport(server.transport, key);
    GetSwitch(server, key);
    GetPart(key, EnabledTools, server.enabledTools, None, []);
    GetPart(key, DisabledTools, server.disabledTools, None, []);
    GetConcat(t, w, key);
    GetConcat(t + w, on, key);
    GetConcat(t + w + on, off, key);
  }

  lemma TransportIs(server: ServerSpec)
    ensures TransportFrom(Fields(server)) == Some(Normal(server).transport)
  {
    hide Get, Fields;
    GetIs(server, Command);
    GetIs(server, Args);
    GetIs(server, Cwd);
    GetIs(server, EnvVars);
    GetIs(server, Url);
    GetIs(server, BearerTokenEnvVar);
    GetIs(server, EnvHttpHeaders);
  }

  /** Every field of the specification is in the table. */
  lemma ServerIs(server: ServerSpec)
    ensures ServerFrom(server.name, Fields(server)) == Some(Normal(server))
  {
    hide Get, Fields, TransportFrom;
    TransportIs(server);
    GetIs(server, Enabled);
    GetIs(server, Required);
    GetIs(server, StartupTimeoutSec);
    GetIs(server, ToolTimeoutSec);
    GetIs(server, DefaultToolsApprovalMode);
    GetIs(server, EnabledTools);
    GetIs(server, DisabledTools);
  }

  lemma HeaderReads(server: ServerSpec)
    ensures TomlLines(server) != [] && ReadHeader(TomlLines(server)[0]) == When(NoDel(server.name), server.name)
  {
    hide ReadWhole, Quoted, NoDel;
    WholeReads(server.name);
    var q := Quoted(server.name);
    var line := "[mcp_servers." + q + "]";
    assert TomlLines(server)[0] == line;
    assert line[..|TABLE|] == TABLE && line[|TABLE|..|line| - 1] == q && line[|line| - 1] == ']';
  }

  /** The table of a rendered block, its comments taken away, reads as the server. */
  lemma TableReadsServer(server: ServerSpec)
    ensures var lines := TomlLines(server);
            lines != [] && (ReadHeader(lines[0]).Some? && ReadFields(lines[1..]).Some? <==> Readable(server))
            && (Readable(server) ==>
                  ServerFrom(ReadHeader(lines[0]).value, ReadFields(lines[1..]).value) == Some(Normal(server)))
  {
    hide ReadHeader, ReadFields, ServerFrom, TomlLines, Fields, TransportReadable, AllNoDel, NoDel;
    HeaderReads(server);
    if NoDel(server.name) {
      FieldsRead(server);
      ServerIs(server);
    }
  }

  // ---------- Comments ----------

  lemma {:induction false} UncommentedConcat(xs: seq<string>, ys: seq<string>)
    ensures Uncommented(xs + ys) == Uncommented(xs) + Uncommented(ys)
  {
    if xs == [] {
      assert xs + ys == ys;
    } else {
      assert (xs + ys)[1..] == xs[1..] + ys;
      UncommentedConcat(xs[1..], ys);
    }
  }

  lemma {:induction false} AllComments(lines: seq<string>)
    requires forall line :: line in lines ==> Comment(line)
    ensures Uncommented(lines) == []
  {
    if lines != [] {
      AllComments(lines[1..]);
    }
  }

  lemma {:induction false} NoComments(lines: seq<string>)
    requires forall line :: line in lines ==> !Comment(line)
    ensures Uncommented(lines) == lines
  {
    if lines != [] {
      NoComments(lines[1..]);
      assert [lines[0]] + lines[1..] == lines;
    }
  }

  lemma SplitLine(line: string, more: string)
    requires '\n' !in line
    ensures SplitOn(line + ("\n" + more), '\n') == [line] + SplitOn(more, '\n')
  {
    hide IndexOf;
    var t := line + ("\n" + more);
    IndexIs(line, '\n', "\n" + more);
    assert t[..|line|] == line && t[|line| + 1..] == more;
  }

  lemma {:induction false} SplitUnlines(lines: seq<string>, last: string)
    requires forall line :: line in lines ==> '\n' !in line
    requires '\n' !in last
    ensures SplitOn(Unlines(lines) + last, '\n') == lines + [last]
  {
    hide SplitOn;
    if lines == [] {
      assert Unlines(lines) + last == last;
      SplitOne(last, '\n');
    } else {
      var line, more := lines[0], Unlines(lines[1..]) + last;
      assert Unlines(lines) + last == line + ("\n" + more);
      assert line in lines;
      SplitLine(line, more);
      SplitUnlines(lines[1..], last);
      assert lines + [last] == [line] + (lines[1..] + [last]);
    }
  }

  // ---------- No line of the table is a comment ----------

  lemma NamedIsNoComment(key: Key, text: string)
    ensures !Comment(NameOf(key) + " = " + text)
  {
    hide NameOf;
    NameIsWord(key);
    assert (NameOf(key) + " = " + text)[0] == NameOf(key)[0];
  }

  ghost predicate Uncommentable(lines: seq<string>) {
    forall line :: line in lines ==> !Comment(line)
  }

  lemma TransportUncommentable(t: Transport)
    ensures Uncommentable(TransportLines(t))
  {
    hide NameOf, Quoted, TomlArray, Comment;
    match t {
      case Stdio(command, args, cwd, envVars) =>
        CommandLine(command);
        NamedIsNoComment(Command, Quoted(command));
        NamedIsNoComment(Args, TomlArray(args));
        NamedIsNoComment(EnvVars, TomlArray(envVars));
        PartUncommentable(Cwd, cwd);
        PartNames();
      case StreamableHttp(url, bearer, headers) =>
        CommandLine(url);
        NamedIsNoComment(Url, Quoted(url));
        PartUncommentable(BearerTokenEnvVar, bearer);
        PartNames();
        HeaderUncommentable(headers);
    }
  }

  lemma PartNames()
    ensures NameOf(Args) == "args" && NameOf(Cwd) == "cwd" && NameOf(EnvVars) == "env_vars"
    ensures NameOf(BearerTokenEnvVar) == "bearer_token_env_var"
    ensures NameOf(EnabledTools) == "enabled_tools" && NameOf(DisabledTools) == "disabled_tools"
  {
  }

  lemma PartUncommentable(key: Key, value: Option<string>)
    ensures Uncommentable(TextLine(NameOf(key), value))
  {
    hide NameOf, Quoted, Comment;
    if NonEmpty(value).Some? {
      NamedIsNoComment(key, Quoted(value.value));
    }
  }

  lemma HeaderUncommentable(headers: seq<(string, string)>)
    ensures !Comment("env_http_headers = { " + HeaderTable(headers) + " }")
  {
    hide HeaderTable;
    assert ("env_http_headers = { " + HeaderTable(headers) + " }")[0] == 'e';
  }

  lemma SwitchesUncommentable(server: ServerSpec)
    ensures Uncommentable(SwitchLines(server))
  {
    hide NameOf, SwitchLines, Comment, BoolText, Decimal, Quoted;
    SwitchTexts(server);
    NamedIsNoComment(Enabled, BoolText(server.enabled));
    NamedIsNoComment(Required, BoolText(server.required));
    NamedIsNoComment(StartupTimeoutSec, Decimal(server.startupTimeoutSec));
    NamedIsNoComment(ToolTimeoutSec, Decimal(server.toolTimeoutSec));
    NamedIsNoComment(DefaultToolsApprovalMode, Quoted(server.approvalMode));
  }

  lemma HeaderLineUncommentable(name: string)
    ensures !Comment("[mcp_servers." + Quoted(name) + "]")
  {
    hide Quoted;
    assert ("[mcp_servers." + Quoted(name) + "]")[0] == '[';
  }

  lemma TomlUncommentable(server: ServerSpec)
    ensures Uncommentable(TomlLines(server))
  {
    hide TransportLines, SwitchLines, Comment, NameOf, TomlArray, Quoted;
    HeaderLineUncommentable(server.name);
    TransportUncommentable(server.transport);
    SwitchesUncommentable(server);
    PartNames();
    NamedIsNoComment(EnabledTools, TomlArray(server.enabledTools));
    NamedIsNoComment(DisabledTools, TomlArray(server.disabledTools));
  }

  /** Between comment lines, the rendered table reads as the server, if no string of it holds a DEL; else not
      at all. */
  lemma LinesReadServer(before: seq<string>, server: ServerSpec, after: seq<string>, last: string)
    requires forall line :: line in before + after + [last] ==> Comment(line) && '\n' !in line
    requires forall line :: line in TomlLines(server) ==> '\n' !in line
    ensures ReadServer(Unlines(before + TomlLines(server) + after) + last) == When(Readable(server), Normal(server))
  {
    hide SplitOn, Unlines, TomlLines, Comment, ReadHeader, ReadFields, ServerFrom, Readable, Uncommented;
    var lines := TomlLines(server);
    assert forall line :: line in before || line in after || line == last ==> line in before + after + [last];
    SplitUnlines(before + lines + after, last);
    assert before + lines + after + [last] == before + lines + (after + [last]);
    UncommentedConcat(before + lines, after + [last]);
    UncommentedConcat(before, lines);
    AllComments(before);
    AllComments(after + [last]);
    TomlUncommentable(server);
    NoComments(lines);
    TableReadsServer(server);
    assert [] + lines + [] == lines;
  }
}
