/**
 The JSON configurations that Claude and Gemini packages share with their users. Follows
 `_render_config`, `_parse_config`, `_server_payload` and `_server_spec_hash` in
 src/gigaloom/claude_mcp_target.py and src/gigaloom/gemini_mcp_target.py.

 The JSON reader and printer and the secret check are parameters; canonical hashes are injective, so
 a specification's hash is what it hashes. Normalised name lists are sets.
 */
module JsonTarget {
  import opened Wrappers
  import opened Text

  datatype Json =
    | Null
    | Bool(flag: bool)
    | Number(number: int)
    | Text(text: string)
    | Array(items: seq<Json>)
    | Object(fields: map<string, Json>)

  type Fields = map<string, Json>

  datatype Host = Host(parse: string -> Option<Json>, dumps: Fields -> string, secretFree: Fields -> bool)

  datatype Error = Malformed | HoldsSecrets | OwnedElsewhere

  /** What a request does to its entry: the payload, or nothing if the server is disabled. */
  datatype Change = Change(key: string, entry: Option<Json>)

  const SERVERS := "mcpServers"

  // ---------- Rendering ----------

  function ServersOf(config: Fields): Option<Fields> {
    if SERVERS !in config then Some(map[])
    else if config[SERVERS].Object? then Some(config[SERVERS].fields)
    else None
  }

  function ParseConfig(host: Host, current: string): Option<Fields> {
    if Strip(current) == "" then Some(map[])
    else
      match host.parse(current)
      case Some(Object(fields)) => if ServersOf(fields).None? then None else Some(fields)
      case _ => None
  }

  function Changed(config: Fields, change: Change): Fields
    requires ServersOf(config).Some?
  {
    var servers := ServersOf(config).value;
    config[SERVERS := Object(if change.entry.Some? then servers[change.key := change.entry.value]
                             else servers - {change.key})]
  }

  function Render(host: Host, current: string, change: Change, owned: bool): Result<string, Error> {
    match ParseConfig(host, current)
    case None => Failure(Malformed)
    case Some(config) =>
      if !host.secretFree(config) then Failure(HoldsSecrets)
      else if ServersOf(config).None? then Failure(Malformed)
      else if !owned && change.key in ServersOf(config).value then Failure(OwnedElsewhere)
      else Success(host.dumps(Changed(config, change)) + "\n")
  }

  /** The configuration that a text stands for: an empty one if it is blank, else the parsed object, unless its
      server table is no object. */
  ghost predicate StandsFor(host: Host, current: string, config: Fields) {
    || (Strip(current) == "" && config == map[])
    || (Strip(current) != "" && host.parse(current) == Some(Object(config))
        && ("mcpServers" in config ==> config["mcpServers"].Object?))
  }

  /** A rendering is refused exactly for a text that stands for no configuration, for one with secrets, or for a
      name that is taken by somebody else; the first of these is what is said. */
  lemma RefusedExactly(host: Host, current: string, change: Change, owned: bool)
    ensures Render(host, current, change, owned) == Failure(Malformed)
            <==> forall config: Fields :: !StandsFor(host, current, config)
    ensures forall config: Fields | StandsFor(host, current, config) ::
              && (Render(host, current, change, owned) == Failure(HoldsSecrets) <==> !host.secretFree(config))
              && (Render(host, current, change, owned) == Failure(OwnedElsewhere)
                  <==> && host.secretFree(config) && !owned && "mcpServers" in config
                       && change.key in config["mcpServers"].fields)
  {
    hide Strip;
    if ParseConfig(host, current).Some? {
      assert StandsFor(host, current, ParseConfig(host, current).value);
    }
  }

  /** What is printed: the configuration with exactly the entry set or taken away in its server table. */
  lemma RenderedExactly(host: Host, current: string, change: Change, owned: bool, config: Fields)
    requires StandsFor(host, current, config) && Render(host, current, change, owned).Success?
    ensures var servers: Fields := if "mcpServers" in config then config["mcpServers"].fields else map[];
            Render(host, current, change, owned).value
            == host.dumps(config["mcpServers" := Object(match change.entry
                                                         case Some(entry) => servers[change.key := entry]
                                                         case None => servers - {change.key})]) + "\n"
  {
    hide Strip;
  }

  /** Reading gives back what was printed. */
  ghost predicate Faithful(host: Host) {
    forall fields ::
      host.parse(host.dumps(fields) + "\n") == Some(Object(fields)) && Strip(host.dumps(fields) + "\n") != ""
  }

  function EntryOf(host: Host, text: string, key: string): Option<Json> {
    match ParseConfig(host, text)
    case None => None
    case Some(config) =>
      match ServersOf(config)
      case Some(servers) => if key in servers then Some(servers[key]) else None
      case None => None
  }

  lemma RenderedParses(host: Host, current: string, change: Change, owned: bool)
    requires Faithful(host) && Render(host, current, change, owned).Success?
    ensures ParseConfig(host, current).Some? && ServersOf(ParseConfig(host, current).value).Some?
    ensures ParseConfig(host, Render(host, current, change, owned).value)
            == Some(Changed(ParseConfig(host, current).value, change))
  {
    hide Strip;
    var config := ParseConfig(host, current).value;
    var after := Changed(config, change);
    assert host.parse(host.dumps(after) + "\n") == Some(Object(after));
  }

  /** A rendering changes the entry of its key and nothing else, and the entry reads back. */
  lemma OnlyTheEntryChanges(host: Host, current: string, change: Change, owned: bool, other: string)
    requires Faithful(host) && Render(host, current, change, owned).Success?
    ensures var text := Render(host, current, change, owned).value;
            var before := ParseConfig(host, current).value;
            && ParseConfig(host, text).Some?
            && ParseConfig(host, text).value - {SERVERS} == before - {SERVERS}
            && EntryOf(host, text, change.key) == change.entry
            && (other != change.key ==> EntryOf(host, text, other) == EntryOf(host, current, other))
  {
    hide Strip, SERVERS;
    RenderedParses(host, current, change, owned);
  }

  lemma ChangedTwice(config: Fields, first: Change, second: Change)
    requires ServersOf(config).Some? && first.key == second.key
    ensures ServersOf(Changed(config, first)).Some?
    ensures Changed(Changed(config, first), second) == Changed(config, second)
  {
    hide SERVERS;
    var servers := ServersOf(config).value;
    assert first.entry.Some? ==> servers[first.key := first.entry.value] - {first.key} == servers - {first.key};
    assert second.entry.Some? ==>
        (servers - {first.key})[second.key := second.entry.value] == servers[second.key := second.entry.value];
    assert first.entry.Some? && second.entry.Some? ==>
        servers[first.key := first.entry.value][second.key := second.entry.value]
        == servers[second.key := second.entry.value];
    assert servers - {first.key} - {first.key} == servers - {first.key};
  }

  /**
   The last rendering for a key wins, as if the earlier had never been: exactly if the earlier did not
   itself write something that the secret check refuses.
   */
  lemma LastRenderingWins(host: Host, current: string, first: Change, second: Change, owned: bool)
    requires Faithful(host) && first.key == second.key && Render(host, current, first, owned).Success?
    ensures var between := Render(host, current, first, owned).value;
            var config := Changed(ParseConfig(host, current).value, first);
            && Render(host, current, second, true).Success?
            && (Render(host, between, second, true) == Render(host, current, second, true) <==> host.secretFree(config))
  {
    hide Strip, SERVERS, Changed;
    RenderedParses(host, current, first, owned);
    ChangedTwice(ParseConfig(host, current).value, first, second);
  }

  /** Installing a new server and disabling it gives the old configuration back, up to an empty server table. */
  lemma InstallThenDisable(host: Host, current: string, key: string, payload: Json)
    requires Faithful(host)
    requires Render(host, current, Change(key, Some(payload)), false).Success?
    requires var installed := Render(host, current, Change(key, Some(payload)), false).value;
             Render(host, installed, Change(key, None), true).Success?
    ensures var installed := Render(host, current, Change(key, Some(payload)), false).value;
            var before := ParseConfig(host, current).value;
            ParseConfig(host, Render(host, installed, Change(key, None), true).value)
            == Some(if SERVERS in before then before else before[SERVERS := Object(map[])])
  {
    hide Strip, SERVERS;
    var change := Change(key, Some(payload));
    var before := ParseConfig(host, current).value;
    var installed := Render(host, current, change, false).value;
    RenderedParses(host, current, change, false);
    RenderedParses(host, installed, Change(key, None), true);
    ChangedTwice(before, change, Change(key, None));
    var servers := ServersOf(before).value;
    assert servers - {key} == servers;
    assert SERVERS in before ==> before[SERVERS := before[SERVERS]] == before;
  }

  // ---------- Payloads ----------

  datatype ClaudeTransport =
    | Stdio(command: string, args: seq<string>, env: set<string>)
    | Http(url: string, headers: map<string, string>)

  datatype ClaudeSpec = ClaudeSpec(name: string, enabled: bool, transport: ClaudeTransport)

  function Reference(name: string): Json {
    Text("${" + name + "}")
  }

  function Texts(items: seq<string>): Json {
    Array(seq(|items|, i requires 0 <= i < |items| => Text(items[i])))
  }

  function References(env: set<string>): Json {
    Object(map name | name in env :: Reference(name))
  }

  function HeaderReferences(headers: map<string, string>): Json {
    Object(map header | header in headers :: Reference(headers[header]))
  }

  function With(fields: Fields, condition: bool, key: string, value: Json): Fields {
    if condition then fields[key := value] else fields
  }

  function ClaudePayload(t: ClaudeTransport): Fields {
    match t
    case Stdio(command, args, env) =>
      With(map["type" := Text("stdio"), "command" := Text(command), "args" := Texts(args)],
           env != {}, "env", References(env))
    case Http(url, headers) =>
      With(map["type" := Text("http"), "url" := Text(url)], headers != map[], "headers", HeaderReferences(headers))
  }

  /** An enabled server is written, a disabled one taken away. */
  function ClaudeChange(package: string, spec: ClaudeSpec): Change {
    Change(package, if spec.enabled then Some(Object(ClaudePayload(spec.transport))) else None)
  }

  /** After a rendering the configuration has the package's server exactly if it is enabled, as its payload. */
  lemma EnabledIsWritten(host: Host, current: string, package: string, spec: ClaudeSpec, owned: bool)
    requires Faithful(host) && Render(host, current, ClaudeChange(package, spec), owned).Success?
    ensures var text := Render(host, current, ClaudeChange(package, spec), owned).value;
            && (EntryOf(host, text, package).Some? <==> spec.enabled)
            && (spec.enabled ==> EntryOf(host, text, package) == Some(Object(ClaudePayload(spec.transport))))
  {
    OnlyTheEntryChanges(host, current, ClaudeChange(package, spec), owned, package);
  }

  /** What the specification hash covers. */
  function ClaudeHashed(spec: ClaudeSpec): (string, bool, Fields) {
    (spec.name, spec.enabled, ClaudePayload(spec.transport))
  }

  lemma ReferenceNames(a: string, b: string)
    ensures Reference(a) == Reference(b) <==> a == b
  {
    assert ("${" + a + "}")[2..|a| + 2] == a && ("${" + b + "}")[2..|b| + 2] == b;
  }

  /** Names of environment variables are written as `${NAME}`, never their values. */
  lemma ReferencesAre(env: set<string>, headers: map<string, string>)
    ensures References(env).fields.Keys == env
    ensures forall name | name in env :: References(env).fields[name] == Text("${" + name + "}")
    ensures HeaderReferences(headers).fields.Keys == headers.Keys
    ensures forall header | header in headers ::
              HeaderReferences(headers).fields[header] == Text("${" + headers[header] + "}")
  {
  }

  lemma TextsNames(a: seq<string>, b: seq<string>)
    ensures Texts(a) == Texts(b) <==> a == b
  {
    if Texts(a) == Texts(b) {
      var xs, ys := Texts(a).items, Texts(b).items;
      assert |a| == |xs| == |ys| == |b|;
      forall i | 0 <= i < |a| ensures a[i] == b[i] {
        assert xs[i] == ys[i];
      }
    }
  }

  lemma ReferencesNames(a: set<string>, b: set<string>)
    ensures References(a) == References(b) <==> a == b
  {
    if References(a) == References(b) {
      assert References(a).fields.Keys == a && References(b).fields.Keys == b;
    }
  }

  lemma HeadersNames(a: map<string, string>, b: map<string, string>)
    ensures HeaderReferences(a) == HeaderReferences(b) <==> a == b
  {
    if HeaderReferences(a) == HeaderReferences(b) {
      var x, y := HeaderReferences(a).fields, HeaderReferences(b).fields;
      assert x.Keys == a.Keys && y.Keys == b.Keys;
      forall h | h in a ensures a[h] == b[h] {
        assert x[h] == y[h];
        ReferenceNames(a[h], b[h]);
      }
    }
  }

  /** The payload's fields, one by one. */
  lemma ClaudeFields(t: ClaudeTransport)
    ensures var p := ClaudePayload(t);
            && "type" in p && (t.Stdio? <==> p["type"] == Text("stdio")) && (t.Http? <==> p["type"] == Text("http"))
            && p.Keys <= {"type", "command", "args", "env", "url", "headers"}
            && (t.Stdio? ==> && "command" in p && p["command"] == Text(t.command)
                             && "args" in p && p["args"] == Texts(t.args)
                             && ("env" in p <==> t.env != {}) && (t.env != {} ==> p["env"] == References(t.env)))
            && (t.Http? ==> && "url" in p && p["url"] == Text(t.url)
                            && ("headers" in p <==> t.headers != map[])
                            && (t.headers != map[] ==> p["headers"] == HeaderReferences(t.headers)))
  {
    hide Texts, References, HeaderReferences;
    assert Text("http") != Text("stdio") by {
      assert |"http"| != |"stdio"|;
    }
  }

  /** One hash, one Claude specification: an accepted plan is bound to the whole of it. */
  lemma ClaudeHashIdentifies(a: ClaudeSpec, b: ClaudeSpec)
    ensures ClaudeHashed(a) == ClaudeHashed(b) <==> a == b
  {
    hide ClaudePayload, Texts, References, HeaderReferences;
    if ClaudeHashed(a) == ClaudeHashed(b) {
      ClaudeFields(a.transport);
      ClaudeFields(b.transport);
      if a.transport.Stdio? {
        TextsNames(a.transport.args, b.transport.args);
        ReferencesNames(a.transport.env, b.transport.env);
      } else {
        HeadersNames(a.transport.headers, b.transport.headers);
      }
    }
  }

  datatype GeminiTransport =
    | GeminiStdio(command: string, args: seq<string>, cwd: Option<string>, env: set<string>)
    | Remote(sse: bool, url: string, headers: map<string, string>)

  datatype GeminiSpec = GeminiSpec(
    name: string,
    enabled: bool,
    transport: GeminiTransport,
    timeout: int,
    description: Option<string>,
    includeTools: seq<string>,
    excludeTools: seq<string>)

  function GeminiTransportFields(t: GeminiTransport): Fields {
    match t
    case GeminiStdio(command, args, cwd, env) =>
      With(With(map["command" := Text(command), "args" := Texts(args)], env != {}, "env", References(env)),
           cwd.Some? && cwd.value != "", "cwd", Text(if cwd.Some? then cwd.value else ""))
    case Remote(sse, url, headers) =>
      With(map["type" := Text(if sse then "sse" else "http"), "url" := Text(url)], headers != map[], "headers",
           HeaderReferences(headers))
  }

  function GeminiPayload(s: GeminiSpec): Fields {
    var base := GeminiTransportFields(s.transport)["timeout" := Number(s.timeout)]["trust" := Bool(false)];
    With(With(With(base, s.description.Some?, "description",
                   Text(if s.description.Some? then s.description.value else "")),
              s.includeTools != [], "includeTools", Texts(s.includeTools)),
         s.excludeTools != [], "excludeTools", Texts(s.excludeTools))
  }

  function GeminiHashed(spec: GeminiSpec): (string, bool, Fields) {
    (spec.name, spec.enabled, GeminiPayload(spec))
  }

  /** An empty working directory is written like none. */
  function Plain(s: GeminiSpec): GeminiSpec {
    if s.transport.GeminiStdio? && s.transport.cwd == Some("") then s.(transport := s.transport.(cwd := None)) else s
  }

  predicate Holds(p: Fields, key: string, condition: bool, value: Json) {
    (key in p <==> condition) && (condition ==> p[key] == value)
  }

  lemma GeminiTransportFieldsAre(t: GeminiTransport, p: Fields)
    requires p == GeminiTransportFields(t)
    ensures "command" in p <==> t.GeminiStdio?
    ensures t.GeminiStdio? ==>
              && Holds(p, "command", true, Text(t.command)) && Holds(p, "args", true, Texts(t.args))
              && Holds(p, "env", t.env != {}, References(t.env))
              && Holds(p, "cwd", t.cwd.Some? && t.cwd.value != "", Text(if t.cwd.Some? then t.cwd.value else ""))
    ensures t.Remote? ==>
              && Holds(p, "type", true, Text(if t.sse then "sse" else "http")) && Holds(p, "url", true, Text(t.url))
              && Holds(p, "headers", t.headers != map[], HeaderReferences(t.headers))
  {
    hide Texts, References, HeaderReferences;
  }

  /** The fields beside the transport, and the transport's own fields kept. */
  lemma GeminiFields(s: GeminiSpec)
    ensures var p := GeminiPayload(s);
            && Holds(p, "timeout", true, Number(s.timeout)) && Holds(p, "trust", true, Bool(false))
            && Holds(p, "description", s.description.Some?,
                     Text(if s.description.Some? then s.description.value else ""))
            && Holds(p, "includeTools", s.includeTools != [], Texts(s.includeTools))
            && Holds(p, "excludeTools", s.excludeTools != [], Texts(s.excludeTools))
    ensures var p := GeminiPayload(s);
            p - {"timeout", "trust", "description", "includeTools", "excludeTools"}
            == GeminiTransportFields(s.transport)
  {
    hide Texts;
    TransportKeys(s.transport);
    hide GeminiTransportFields;
  }

  lemma TransportKeys(t: GeminiTransport)
    ensures GeminiTransportFields(t).Keys !! {"timeout", "trust", "description", "includeTools", "excludeTools"}
  {
    hide Texts, References, HeaderReferences;
  }

  lemma GeminiTransportIdentifies(a: GeminiTransport, b: GeminiTransport)
    requires GeminiTransportFields(a) == GeminiTransportFields(b)
    ensures a.GeminiStdio? == b.GeminiStdio?
    ensures a.GeminiStdio? ==> a.command == b.command && a.args == b.args && a.env == b.env
                               && (a.cwd == b.cwd || {a.cwd, b.cwd} == {None, Some("")})
    ensures a.Remote? ==> a == b
  {
    hide GeminiTransportFields, Texts, References, HeaderReferences;
    GeminiTransportFieldsAre(a, GeminiTransportFields(a));
    GeminiTransportFieldsAre(b, GeminiTransportFields(b));
    if a.GeminiStdio? {
      TextsNames(a.args, b.args);
      ReferencesNames(a.env, b.env);
    } else {
      HeadersNames(a.headers, b.headers);
      assert |"sse"| != |"http"|;
    }
  }

  /**
   One hash, one Gemini specification, but for an empty working directory, which is hashed like none.
   */
  lemma GeminiHashIdentifies(a: GeminiSpec, b: GeminiSpec)
    ensures GeminiHashed(a) == GeminiHashed(b) <==> Plain(a) == Plain(b)
  {
    hide GeminiTransportFields, Texts;
    PlainHashes(a);
    PlainHashes(b);
    if GeminiHashed(a) == GeminiHashed(b) {
      GeminiFields(a);
      GeminiFields(b);
      TextsNames(a.includeTools, b.includeTools);
      TextsNames(a.excludeTools, b.excludeTools);
      GeminiTransportIdentifies(a.transport, b.transport);
    }
  }

  lemma PlainHashes(s: GeminiSpec)
    ensures GeminiHashed(Plain(s)) == GeminiHashed(s)
  {
    hide Texts, References, HeaderReferences;
  }
}
