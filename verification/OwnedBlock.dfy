/**
 The one region of a shared `config.toml` that a package owns: how it is found, removed, rendered
 and read back. Follows the module functions of src/gigaloom/codex_mcp_target.py.

 The TOML parser and the specification hash are parameters; the regular expressions are given by
 the positions at which they match.
 */
module OwnedBlock {
  import opened Wrappers
  import opened Text

  datatype Transport =
    | Stdio(command: string, args: seq<string>, cwd: Option<string>, envVars: seq<string>)
    | StreamableHttp(url: string, bearerTokenEnvVar: Option<string>, envHeaders: seq<(string, string)>)

  datatype ServerSpec = ServerSpec(
    name: string,
    transport: Transport,
    enabled: bool,
    required: bool,
    startupTimeoutSec: nat,
    toolTimeoutSec: nat,
    enabledTools: seq<string>,
    disabledTools: seq<string>,
    approvalMode: string)

  datatype Package = Package(id: string, version: string, manifestHash: string)

  datatype Request = Request(package: Package, server: ServerSpec)

  /** What the TOML parser says about a text: its `mcp_servers` table as name -> enabled. */
  datatype TomlView = Invalid | ServersNotATable | Servers(enabled: map<string, bool>)

  datatype Host = Host(toml: string -> TomlView, specHash: ServerSpec -> string)

  datatype BlockError =
    | InvalidToml
    | ServerTableInvalid
    | DuplicateBlocks
    | ServerOwnedElsewhere
    | AnotherPackageOwned
    | MetadataInvalid
    | ServerBindingInvalid
    | PackageBindingInvalid

  /** Identities, versions and hashes are validated to printable ASCII without blanks. */
  predicate PlainText(s: string) {
    s != "" && forall c :: c in s ==> 33 <= c as int <= 126
  }

  predicate ValidRequest(host: Host, r: Request) {
    && PlainText(r.package.id) && PlainText(r.package.version) && PlainText(r.package.manifestHash)
    && PlainText(r.server.name) && PlainText(host.specHash(r.server))
  }

  // ---------- Rendering ----------

  const BEGIN_PREFIX: string := "# BEGIN gigaloom-codex-mcp-v1 package="

  const END_PREFIX: string := "# END gigaloom-codex-mcp-v1 package="

  /** The BEGIN marker with the newline that its pattern demands. */
  function BeginLine(package: string): string {
    BEGIN_PREFIX + package + "\n"
  }

  function EndMark(package: string): string {
    END_PREFIX + package
  }

  function HexDigit(n: nat): char
    requires n < 16
  {
    "0123456789abcdef"[n]
  }

  function EscapedChar(c: char): string {
    if c == '"' then "\\\""
    else if c == '\\' then "\\\\"
    else if c == '\n' then "\\n"
    else if c == '\r' then "\\r"
    else if c == '\t' then "\\t"
    else if c as int == 8 then "\\b"
    else if c as int == 12 then "\\f"
    else if c as int < 32 then "\\u00" + [HexDigit(c as int / 16), HexDigit(c as int % 16)]
    else [c]
  }

  function Escaped(s: string): string {
    if s == "" then "" else EscapedChar(s[0]) + Escaped(s[1..])
  }

  /** `json.dumps(value, ensure_ascii=False)`, the source's TOML string and key. */
  function Quoted(s: string): string {
    "\"" + Escaped(s) + "\""
  }

  function CommaJoined(items: seq<string>): string {
    if items == [] then ""
    else if |items| == 1 then items[0]
    else items[0] + ", " + CommaJoined(items[1..])
  }

  function TomlArray(items: seq<string>): string {
    "[" + CommaJoined(seq(|items|, i requires 0 <= i < |items| => Quoted(items[i]))) + "]"
  }

  function HeaderItem(header: (string, string)): string {
    Quoted(header.0) + " = " + Quoted(header.1)
  }

  function HeaderTable(headers: seq<(string, string)>): string {
    CommaJoined(seq(|headers|, i requires 0 <= i < |headers| => HeaderItem(headers[i])))
  }

  function BoolText(b: bool): string {
    if b then "true" else "false"
  }

  /** A line that is there only when its list is not empty. */
  function ArrayLine(key: string, items: seq<string>): seq<string> {
    if items == [] then [] else [key + " = " + TomlArray(items)]
  }

  function TextLine(key: string, value: Option<string>): seq<string> {
    if value.Some? && value.value != "" then [key + " = " + Quoted(value.value)] else []
  }

  function TransportLines(transport: Transport): seq<string> {
    match transport
    case Stdio(command, args, cwd, envVars) =>
      ["command = " + Quoted(command)] + ArrayLine("args", args) + TextLine("cwd", cwd)
      + ArrayLine("env_vars", envVars)
    case StreamableHttp(url, bearer, headers) =>
      ["url = " + Quoted(url)] + TextLine("bearer_token_env_var", bearer)
      + (if headers == [] then [] else ["env_http_headers = { " + HeaderTable(headers) + " }"])
  }

  function SwitchLines(server: ServerSpec): seq<string> {
    ["enabled = " + BoolText(server.enabled),
       "required = " + BoolText(server.required),
       "startup_timeout_sec = " + Decimal(server.startupTimeoutSec),
       "tool_timeout_sec = " + Decimal(server.toolTimeoutSec),
       "default_tools_approval_mode = " + Quoted(server.approvalMode)]
  }

  function TomlLines(server: ServerSpec): seq<string> {
    ["[mcp_servers." + Quoted(server.name) + "]"]
    + TransportLines(server.transport)
    + SwitchLines(server)
    + ArrayLine("enabled_tools", server.enabledTools)
    + ArrayLine("disabled_tools", server.disabledTools)
  }

  /** `# key=value`. */
  function EntryLine(key: string, value: string): string {
    "# " + (key + ("=" + value))
  }

  function MetadataLines(host: Host, r: Request): seq<string> {
    [EntryLine("package_version", r.package.version),
     EntryLine("manifest_sha256", r.package.manifestHash),
     EntryLine("server_name", r.server.name),
     EntryLine("server_spec_sha256", host.specHash(r.server))]
  }

  /** Each line with the newline after it. */
  function Unlines(lines: seq<string>): string {
    if lines == [] then "" else lines[0] + "\n" + Unlines(lines[1..])
  }

  function BodyLines(host: Host, r: Request): seq<string> {
    MetadataLines(host, r) + TomlLines(r.server)
  }

  function RenderBlock(host: Host, r: Request): string {
    BeginLine(r.package.id) + Unlines(BodyLines(host, r)) + EndMark(r.package.id)
  }

  // ---------- Finding and removing ----------

  function FirstMark(t: string, from: nat, w: string): (j: Option<nat>)
    ensures j.Some? ==> from <= j.value && MarkAt(t, j.value, w)
    ensures j.Some? ==> forall k :: from <= k < j.value ==> !MarkAt(t, k, w)
    ensures j.None? ==> forall k :: from <= k ==> !MarkAt(t, k, w)
    decreases |t| - from
  {
    if from > |t| then None
    else if MarkAt(t, from, w) then Some(from)
    else FirstMark(t, from + 1, w)
  }

  /** Where the block that begins at `i` ends: after the first END marker at a line start behind
      the BEGIN line, and after one newline if one follows the marker. */
  function BlockEnd(t: string, i: nat, package: string): (e: Option<nat>)
    ensures e.Some? ==> i + |BeginLine(package)| < e.value <= |t|
  {
    match FirstMark(t, i + |BeginLine(package)|, EndMark(package))
    case None => None
    case Some(j) =>
      var e := j + |EndMark(package)|;
      Some(if e < |t| && t[e] == '\n' then e + 1 else e)
  }

  /** The leftmost match of the block pattern at or after `from`. */
  function FirstBlock(t: string, from: nat, package: string): (b: Option<(nat, nat)>)
    ensures b.Some? ==> from <= b.value.0 < b.value.1 <= |t|
    decreases |t| - from
  {
    if from > |t| then None
    else if MarkAt(t, from, BeginLine(package)) && BlockEnd(t, from, package).Some? then
      Some((from, BlockEnd(t, from, package).value))
    else FirstBlock(t, from + 1, package)
  }

  function Blocks(t: string, from: nat, package: string): seq<string>
    decreases |t| - from
  {
    match FirstBlock(t, from, package)
    case None => []
    case Some((i, e)) => [t[i..e]] + Blocks(t, e, package)
  }

  function FindOwnedBlock(t: string, package: string): Result<Option<string>, BlockError> {
    var blocks := Blocks(t, 0, package);
    if |blocks| > 1 then Failure(DuplicateBlocks)
    else if |blocks| == 1 then Success(Some(blocks[0]))
    else Success(None)
  }

  /** The text from `from` on without its owned blocks. */
  function Foreign(t: string, from: nat, package: string): string
    requires from <= |t|
    decreases |t| - from
  {
    match FirstBlock(t, from, package)
    case None => t[from..]
    case Some((i, e)) => t[from..i] + Foreign(t, e, package)
  }

  function RemoveOwnedBlock(t: string, package: string): string {
    Strip(Foreign(t, 0, package))
  }

  /** The text between position `k` and the end of its line. */
  function LineRest(t: string, k: nat): string
    requires k <= |t|
  {
    t[k..LineEnd(t, k)]
  }

  predicate OwnerMarkAt(t: string, i: nat) {
    && MarkAt(t, i, BEGIN_PREFIX)
    && var rest := LineRest(t, i + |BEGIN_PREFIX|);
       rest != "" && forall c :: c in rest ==> !IsSpace(c)
  }

  /** Whether any package owns a block here, by its BEGIN marker alone. */
  predicate AnyOwner(t: string) {
    exists i :: 0 <= i <= |t| && OwnerMarkAt(t, i)
  }

  // ---------- The editor ----------

  function Assemble(base: string, block: string): string {
    (if base == "" then "" else base + "\n\n") + block + "\n"
  }

  function RenderConfig(host: Host, current: string, r: Request): Result<string, BlockError> {
    if host.toml(current).Invalid? then Failure(InvalidToml)
    else
      match FindOwnedBlock(current, r.package.id)
      case Failure(error) => Failure(error)
      case Success(existing) =>
        var base := RemoveOwnedBlock(current, r.package.id);
        match host.toml(base)
        case Invalid => Failure(InvalidToml)
        case ServersNotATable => Failure(ServerTableInvalid)
        case Servers(names) =>
          if r.server.name in names then Failure(ServerOwnedElsewhere)
          else if existing.None? && AnyOwner(current) then Failure(AnotherPackageOwned)
          else Success(SourceAssembly(base, RenderBlock(host, r)))
  }

  function LStripNewlines(t: string): string {
    if t != "" && t[0] == '\n' then LStripNewlines(t[1..]) else t
  }

  /** The source's own expression for the new text. */
  function SourceAssembly(base: string, block: string): string {
    RStrip(LStripNewlines(RStrip(base) + "\n\n" + block)) + "\n"
  }

  // ---------- Reading the metadata back ----------

  datatype Metadata = Metadata(values: map<string, string>, enabled: bool)

  function SplitLines(t: string): seq<string>
    decreases |t|
  {
    if t == "" then []
    else
      var e := BreakAt(t);
      if e == |t| then [t]
      else
        var next := if t[e] == '\r' && e + 1 < |t| && t[e + 1] == '\n' then e + 2 else e + 1;
        [t[..e]] + SplitLines(t[next..])
  }

  /** `# key=value` lines into a map, later lines winning; nothing if a line has another shape. */
  function ParseMetadata(lines: seq<string>): Option<map<string, string>> {
    if lines == [] then Some(map[])
    else
      var last := lines[|lines| - 1];
      match ParseMetadata(lines[..|lines| - 1])
      case None => None
      case Some(values) =>
        if |last| < 2 || last[..2] != "# " || IndexOf(last[2..], '=') == |last[2..]| then None
        else
          var entry := last[2..];
          var e := IndexOf(entry, '=');
          Some(values[entry[..e] := entry[e + 1..]])
  }

  predicate OwnerNamed(t: string, package: string) {
    exists i :: 0 <= i <= |t| && OwnerMarkAt(t, i) && LineRest(t, i + |BEGIN_PREFIX|) == package
  }

  function BlockMetadata(host: Host, block: string, package: string): Result<Metadata, BlockError> {
    var lines := SplitLines(block);
    var head := lines[if |lines| < 1 then 0 else 1..if |lines| < 5 then |lines| else 5];
    match ParseMetadata(head)
    case None => Failure(MetadataInvalid)
    case Some(values) =>
      if values.Keys != {"package_version", "manifest_sha256", "server_name", "server_spec_sha256"} then
        Failure(MetadataInvalid)
      else
        match host.toml(block)
        case Invalid => Failure(InvalidToml)
        case ServersNotATable => Failure(ServerTableInvalid)
        case Servers(enabled) =>
          if |enabled| != 1 then Failure(ServerTableInvalid)
          else if values["server_name"] !in enabled then Failure(ServerBindingInvalid)
          else if !OwnerNamed(block, package) then Failure(PackageBindingInvalid)
          else Success(Metadata(values, enabled[values["server_name"]]))
  }
}
