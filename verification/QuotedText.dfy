/**
 Readers for quoted text: a JSON string, and a basic string of TOML 1.0. They follow section 7 of RFC 8259
 and the TOML specification, and are written independently of the renderers whose output they read.
 TOML's eight-digit escape, which no renderer here writes, is not read.
 */
module QuotedText {
  import opened Wrappers

  datatype Dialect = Json | Toml

  function HexValue(c: char): (n: Option<nat>)
    ensures n.Some? ==> n.value < 16
  {
    if '0' <= c <= '9' then Some(c as nat - '0' as nat)
    else if 'a' <= c <= 'f' then Some(c as nat - 'a' as nat + 10)
    else if 'A' <= c <= 'F' then Some(c as nat - 'A' as nat + 10)
    else None
  }

  /** Four hexadecimal digits. */
  function UnitValue(s: string): (n: Option<nat>)
    requires |s| == 4
    ensures n.Some? ==> n.value < 0x10000
  {
    var a, b, c, d := HexValue(s[0]), HexValue(s[1]), HexValue(s[2]), HexValue(s[3]);
    if a.None? || b.None? || c.None? || d.None? then None
    else Some(a.value * 4096 + b.value * 256 + c.value * 16 + d.value)
  }

  /** A character that stands for itself; TOML allows a tab and forbids DEL. */
  predicate Raw(d: Dialect, c: char) {
    && c != '"' && c != '\\'
    && (c >= ' ' || (d == Toml && c == '\t'))
    && !(d == Toml && c as int == 127)
  }

  function ShortEscape(d: Dialect, c: char): Option<char> {
    match c
    case '"' => Some('"')
    case '\\' => Some('\\')
    case 'b' => Some(8 as char)
    case 't' => Some('\t')
    case 'n' => Some('\n')
    case 'f' => Some(12 as char)
    case 'r' => Some('\r')
    case '/' => if d == Json then Some('/') else None
    case _ => None
  }

  function Prefixed(c: char, r: Option<(string, string)>): Option<(string, string)> {
    if r.None? then None else Some(([c] + r.value.0, r.value.1))
  }

  /** Reads behind the opening quote: the value, and what follows the closing quote. A JSON escape pair is one
      character; no other surrogate is a character. */
  function Read(d: Dialect, s: string): (r: Option<(string, string)>)
    ensures r.Some? ==> |r.value.1| < |s|
    decreases |s|
  {
    if s == "" then None
    else if s[0] == '"' then Some(("", s[1..]))
    else if Raw(d, s[0]) then Prefixed(s[0], Read(d, s[1..]))
    else if s[0] != '\\' || |s| == 1 then None
    else if ShortEscape(d, s[1]).Some? then Prefixed(ShortEscape(d, s[1]).value, Read(d, s[2..]))
    else if s[1] != 'u' || |s| < 6 || UnitValue(s[2..6]).None? then None
    else
      var high := UnitValue(s[2..6]).value;
      if high < 0xD800 || 0xE000 <= high then Prefixed(high as char, Read(d, s[6..]))
      else if d == Toml || 0xDC00 <= high || |s| < 12 || s[6..8] != "\\u" then None
      else
        match UnitValue(s[8..12])
        case None => None
        case Some(low) =>
          if 0xDC00 <= low < 0xE000 then
            Prefixed((0x10000 + (high - 0xD800) * 1024 + (low - 0xDC00)) as char, Read(d, s[12..]))
          else None
  }

  /** A text that is one quoted string and nothing else. */
  function ReadWhole(d: Dialect, t: string): Option<string> {
    if t == "" || t[0] != '"' then None
    else
      match Read(d, t[1..])
      case None => None
      case Some((value, rest)) => if rest == "" then Some(value) else None
  }

  // ---------- Single steps ----------

  lemma ReadsEnd(d: Dialect, rest: string)
    ensures Read(d, "\"" + rest) == Some(("", rest))
  {
    assert ("\"" + rest)[1..] == rest;
  }

  lemma ReadsRaw(d: Dialect, c: char, rest: string)
    requires Raw(d, c)
    ensures Read(d, [c] + rest) == Prefixed(c, Read(d, rest))
  {
    assert ([c] + rest)[1..] == rest;
  }

  lemma ReadsShort(d: Dialect, e: char, rest: string)
    requires ShortEscape(d, e).Some?
    ensures Read(d, ['\\', e] + rest) == Prefixed(ShortEscape(d, e).value, Read(d, rest))
  {
    var s := ['\\', e] + rest;
    assert s[1] == e && s[2..] == rest;
  }

  lemma ReadsForbidden(d: Dialect, c: char, rest: string)
    requires c != '"' && c != '\\' && !Raw(d, c)
    ensures Read(d, [c] + rest) == None
  {
  }

  lemma ReadsUnit(d: Dialect, digits: string, rest: string)
    requires |digits| == 4 && UnitValue(digits).Some?
    ensures var u := UnitValue(digits).value;
            && (u < 0xD800 || 0xE000 <= u ==> Read(d, "\\u" + digits + rest) == Prefixed(u as char, Read(d, rest)))
            && (0xD800 <= u < 0xE000 && d == Toml ==> Read(d, "\\u" + digits + rest) == None)
  {
    var s := "\\u" + digits + rest;
    assert s[2..6] == digits && s[6..] == rest && s[1] == 'u';
  }

  lemma ReadsPair(high: string, low: string, rest: string)
    requires |high| == |low| == 4
    requires UnitValue(high).Some? && 0xD800 <= UnitValue(high).value < 0xDC00
    requires UnitValue(low).Some? && 0xDC00 <= UnitValue(low).value < 0xE000
    ensures Read(Json, "\\u" + high + ("\\u" + low + rest))
            == Prefixed((0x10000 + (UnitValue(high).value - 0xD800) * 1024 + (UnitValue(low).value - 0xDC00)) as char,
                        Read(Json, rest))
  {
    hide UnitValue;
    var s := "\\u" + high + ("\\u" + low + rest);
    assert s[2..6] == high && s[6..8] == "\\u" && s[8..12] == low && s[12..] == rest && s[1] == 'u';
  }

  lemma WholeIs(d: Dialect, body: string, value: string)
    requires Read(d, body + "\"") == Some((value, ""))
    ensures ReadWhole(d, "\"" + body + "\"") == Some(value)
  {
    assert ("\"" + body + "\"")[1..] == body + "\"";
  }
}
