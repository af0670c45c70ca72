/**
 The line editor for the `[executables]` table of the user's configuration. Follows
 `_update_executable_text`, `_remove_executable_text`, `_table_bounds` and `_assignment_pattern` in
 src/gigaloom/executables.py.
 */
module ExecutableConfig {
  import opened Wrappers
  import opened Text
  import opened Lines

  // ---------- The assignment line ----------

  predicate IdChar(c: char) {
    'A' <= c <= 'Z' || 'a' <= c <= 'z' || '0' <= c <= '9' || c == '_' || c == '-'
  }

  /** A harness id that the editor accepts. */
  predicate HarnessId(id: string) {
    id != "" && forall i | 0 <= i < |id| :: IdChar(id[i])
  }

  function Hex(n: nat): char
    requires n < 16
  {
    "0123456789abcdef"[n]
  }

  function Unit(n: nat): string
    requires n < 0x10000
  {
    ['\\', 'u', Hex(n / 4096), Hex(n / 256 % 16), Hex(n / 16 % 16), Hex(n % 16)]
  }

  function Escaped(c: char): string {
    if c == '"' then "\\\""
    else if c == '\\' then "\\\\"
    else if c == '\n' then "\\n"
    else if c == '\r' then "\\r"
    else if c == '\t' then "\\t"
    else if c as int == 8 then "\\b"
    else if c as int == 12 then "\\f"
    else if ' ' <= c <= '~' then [c]
    else if (c as int) < 0x10000 then Unit(c as nat)
    else Unit(0xD800 + (c as nat - 0x10000) / 0x400 % 0x400) + Unit(0xDC00 + c as nat % 0x400)
  }

  function EscapedText(s: string): string {
    if s == "" then "" else Escaped(s[0]) + EscapedText(s[1..])
  }

  /** `json.dumps` of a string. */
  function JsonString(s: string): string {
    "\"" + EscapedText(s) + "\""
  }

  /** The line for a harness id, whose JSON string is the id in quotes. */
  function Assignment(id: string, executable: string): string {
    "\"" + id + "\" = " + JsonString(executable) + "\n"
  }

  // ---------- The patterns ----------

  function WithoutEnd(line: string): string {
    if line != "" && line[|line| - 1] in "\r\n" then WithoutEnd(line[..|line| - 1]) else line
  }

  /** Where the first closing bracket stands; the length if there is none. */
  function CloseAt(s: string): (n: nat)
    ensures n <= |s|
  {
    if s == "" || s[0] == ']' then 0 else 1 + CloseAt(s[1..])
  }

  function HeaderIn(s: string): Option<string> {
    if s == "" || s[0] != '[' then None
    else
      var n := CloseAt(s[1..]);
      if n == 0 || n + 1 == |s| then None
      else
        var rest := LStrip(s[n + 2..]);
        if rest == "" || rest[0] == '#' then Some(s[1..n + 1]) else None
  }

  /** The name in a table header line, as the header pattern reads it. */
  function HeaderName(line: string): Option<string> {
    HeaderIn(LStrip(WithoutEnd(line)))
  }

  /** The length of the key at the start, in any of its three spellings. */
  function KeyLength(s: string, id: string): Option<nat> {
    if StartsWith(s, "\"" + id + "\"") || StartsWith(s, "'" + id + "'") then Some(|id| + 2)
    else if StartsWith(s, id) then Some(|id|)
    else None
  }

  function AfterEquals(s: string): Option<string> {
    if s != "" && s[0] == '=' then Some(s[1..]) else None
  }

  /** What follows the equals sign in a line that assigns to the id. */
  function AssignedIn(s: string, id: string): Option<string> {
    var n := KeyLength(s, id);
    if n.None? then None else AfterEquals(LStrip(s[n.value..]))
  }

  function Assigned(line: string, id: string): Option<string> {
    AssignedIn(LStrip(line), id)
  }

  datatype Pattern = AnyHeader | Table | Key(id: string)

  predicate Fits(p: Pattern, line: string) {
    match p
    case AnyHeader => HeaderName(line).Some?
    case Table =>
      HeaderName(line).Some?
      && Strip(HeaderName(line).value) in {"executables", "\"executables\"", "'executables'"}
    case Key(id) => Assigned(line, id).Some?
  }

  // ---------- The editor ----------

  /** The first line in a range that fits; the end of the range if none does. */
  function Find(lines: seq<string>, p: Pattern, i: nat, end: nat): (k: nat)
    requires i <= end <= |lines|
    ensures i <= k <= end
    ensures k < end ==> Fits(p, lines[k])
    decreases end - i
  {
    if i == end || Fits(p, lines[i]) then i else Find(lines, p, i + 1, end)
  }

  function TableAt(lines: seq<string>): (k: nat)
    ensures k <= |lines|
  {
    Find(lines, Table, 0, |lines|)
  }

  /** Where the table ends: the next header, or the end of the text. */
  function TableEnd(lines: seq<string>): (k: nat)
    requires TableAt(lines) < |lines|
    ensures TableAt(lines) < k <= |lines|
  {
    Find(lines, AnyHeader, TableAt(lines) + 1, |lines|)
  }

  /** The assignment to the id; the end of the table if there is none. */
  function KeyAt(lines: seq<string>, id: string): (k: nat)
    requires TableAt(lines) < |lines|
    ensures TableAt(lines) < k <= TableEnd(lines)
  {
    Find(lines, Key(id), TableAt(lines) + 1, TableEnd(lines))
  }

  predicate HasTable(lines: seq<string>) {
    TableAt(lines) < |lines|
  }

  predicate HasKey(lines: seq<string>, id: string) {
    HasTable(lines) && KeyAt(lines, id) < TableEnd(lines)
  }

  predicate EndsWith(s: string, suffix: string) {
    |suffix| <= |s| && s[|s| - |suffix|..] == suffix
  }

  function Closed(text: string, ending: string): string {
    if text != "" && !EndsWith(text, ending) then text + "\n" else text
  }

  function Padded(text: string): string {
    Closed(Closed(text, "\n"), "\n\n")
  }

  function SetLines(lines: seq<string>, id: string, line: string): seq<string>
    requires HasTable(lines)
  {
    var k := KeyAt(lines, id);
    if k < TableEnd(lines) then lines[..k] + [line] + lines[k + 1..] else lines[..k] + [line] + lines[k..]
  }

  const HEADER := "[executables]\n"

  function SetText(text: string, id: string, executable: string): string {
    var lines := SplitKeep(text);
    if HasTable(lines) then Join(SetLines(lines, id, Assignment(id, executable)))
    else Padded(text) + HEADER + Assignment(id, executable)
  }

  function UnsetText(text: string, id: string): (string, bool) {
    var lines := SplitKeep(text);
    if HasKey(lines, id) then (Join(lines[..KeyAt(lines, id)] + lines[KeyAt(lines, id) + 1..]), true)
    else (text, false)
  }

  /** What the text assigns to the id in its table: all that follows the equals sign. */
  function Lookup(text: string, id: string): Option<string> {
    var lines := SplitKeep(text);
    if HasKey(lines, id) then Assigned(lines[KeyAt(lines, id)], id) else None
  }

  lemma {:induction false} FindIs(lines: seq<string>, p: Pattern, i: nat, end: nat, k: nat)
    requires i <= k <= end <= |lines|
    requires forall j | i <= j < k :: !Fits(p, lines[j])
    requires k < end ==> Fits(p, lines[k])
    ensures Find(lines, p, i, end) == k
    decreases k - i
  {
    hide Fits;
    if i < k {
      FindIs(lines, p, i + 1, end, k);
    }
  }

  lemma {:induction false} NoneBefore(lines: seq<string>, p: Pattern, i: nat, end: nat, j: nat)
    requires i <= end <= |lines| && i <= j < Find(lines, p, i, end)
    ensures !Fits(p, lines[j])
    decreases end - i
  {
    hide Fits;
    if i < j {
      NoneBefore(lines, p, i + 1, end, j);
    }
  }

  method TableBounds(lines: seq<string>) returns (start: Option<nat>, end: nat)
    ensures start == if HasTable(lines) then Some(TableAt(lines)) else None
    ensures end == if HasTable(lines) then TableEnd(lines) else |lines|
  {
    hide Fits;
    start := None;
    for index := 0 to |lines|
      invariant start.None? ==> forall j | 0 <= j < index :: !Fits(Table, lines[j])
      invariant start.Some? ==> start.value < index && TableAt(lines) == start.value
      invariant start.Some? ==> forall j | start.value < j < index :: !Fits(AnyHeader, lines[j])
    {
      TableIsHeader(lines[index]);
      if Fits(AnyHeader, lines[index]) {
        if start.Some? {
          FindIs(lines, AnyHeader, start.value + 1, |lines|, index);
          return start, index;
        }
        if Fits(Table, lines[index]) {
          FindIs(lines, Table, 0, |lines|, index);
          start := Some(index);
        }
      }
    }
    if start.Some? {
      FindIs(lines, AnyHeader, start.value + 1, |lines|, |lines|);
    } else {
      FindIs(lines, Table, 0, |lines|, |lines|);
    }
    return start, |lines|;
  }

  lemma TableIsHeader(line: string)
    ensures Fits(Table, line) ==> Fits(AnyHeader, line)
  {
  }

  method UpdateExecutableText(text: string, id: string, executable: string) returns (updated: string)
    ensures updated == SetText(text, id, executable)
  {
    hide Fits, Assignment, SplitKeep, Join, EndsWith, TableAt, TableEnd, HEADER;
    var lines := SplitKeep(text);
    var start, end := TableBounds(lines);
    var assignment := Assignment(id, executable);
    if start.None? {
      var prefix := text;
      if prefix != "" && !EndsWith(prefix, "\n") {
        prefix := prefix + "\n";
      }
      if prefix != "" && !EndsWith(prefix, "\n\n") {
        prefix := prefix + "\n";
      }
      return prefix + HEADER + assignment;
    }
    for index := start.value + 1 to end
      invariant forall j | start.value < j < index :: !Fits(Key(id), lines[j])
    {
      if Fits(Key(id), lines[index]) {
        FindIs(lines, Key(id), start.value + 1, end, index);
        lines := lines[index := assignment];
        assert lines == SetLines(SplitKeep(text), id, assignment);
        return Join(lines);
      }
    }
    FindIs(lines, Key(id), start.value + 1, end, end);
    lines := lines[..end] + [assignment] + lines[end..];
    return Join(lines);
  }

  method RemoveExecutableText(text: string, id: string) returns (updated: string, removed: bool)
    ensures (updated, removed) == UnsetText(text, id)
  {
    hide Fits;
    var lines := SplitKeep(text);
    var start, end := TableBounds(lines);
    if start.None? {
      return text, false;
    }
    for index := start.value + 1 to end
      invariant forall j | start.value < j < index :: !Fits(Key(id), lines[j])
    {
      if Fits(Key(id), lines[index]) {
        FindIs(lines, Key(id), start.value + 1, end, index);
        lines := lines[..index] + lines[index + 1..];
        return Join(lines), true;
      }
    }
    FindIs(lines, Key(id), start.value + 1, end, end);
    return text, false;
  }
}
