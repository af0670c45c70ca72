/** What the line editor keeps and restores, and exactly when. */
module ExecutableConfigLaws {
  import opened Wrappers
  import opened Text
  import opened Lines
  import opened ExecutableConfig
  import opened QuotedText

  // ---------- The assignment line ----------

  predicate Printable(s: string) {
    forall i | 0 <= i < |s| :: ' ' <= s[i] <= '~'
  }

  lemma UnitPrintable(n: nat)
    requires n < 0x10000
    ensures Printable(Unit(n))
  {
  }

  lemma EscapedPrintable(c: char)
    ensures Printable(Escaped(c))
  {
    if (c as int) < 0x10000 {
      UnitPrintable(c as nat);
    } else {
      UnitPrintable(0xD800 + (c as nat - 0x10000) / 0x400 % 0x400);
      UnitPrintable(0xDC00 + c as nat % 0x400);
    }
  }

  lemma {:induction false} EscapedTextPrintable(s: string)
    ensures Printable(EscapedText(s))
  {
    hide Escaped;
    if s != "" {
      EscapedPrintable(s[0]);
      EscapedTextPrintable(s[1..]);
    }
  }

  lemma PrintableHasNoBreak(s: string)
    requires Printable(s)
    ensures forall i | 0 <= i < |s| :: !IsLineBreak(s[i])
  {
  }

  lemma IdPrintable(id: string)
    requires HarnessId(id)
    ensures Printable(id)
  {
    forall i | 0 <= i < |id| ensures ' ' <= id[i] <= '~' {
      assert IdChar(id[i]);
    }
  }

  lemma AssignmentIsLine(id: string, executable: string)
    requires HarnessId(id)
    ensures var a := Assignment(id, executable); OneLine(a) && a[|a| - 1] == '\n' && a[0] == '"' && a[1] == id[0]
  {
    hide IsLineBreak, EscapedText;
    var body := "\"" + id + "\" = " + JsonString(executable);
    var a := body + "\n";
    EscapedTextPrintable(executable);
    IdPrintable(id);
    assert Printable(body);
    PrintableHasNoBreak(body);
    NewlineBreaks();
    assert forall k | 0 <= k < |body| :: a[k] == body[k];
    BreakFound(a, |body|);
  }

  lemma QuotedKeyAssigns(id: string, rest: string)
    requires HarnessId(id)
    ensures Assigned("\"" + id + "\"" + " = " + rest, id) == Some(" " + rest)
  {
    hide LStrip;
    var key := "\"" + id + "\"";
    var s := key + " = " + rest;
    QuoteIsNoSpace(s);
    assert s == key + (" = " + rest);
    assert s[..|key|] == key && s[|key|..] == " = " + rest;
    EqualsFollows(rest);
  }

  /** A new assignment is one line of its own, and assigns the value to its id. */
  lemma AssignmentIs(id: string, executable: string)
    requires HarnessId(id)
    ensures var a := Assignment(id, executable);
            && OneLine(a) && a[|a| - 1] == '\n' && a[0] == '"' && a[1] == id[0]
            && Assigned(a, id) == Some(" " + JsonString(executable) + "\n")
            && !Fits(AnyHeader, a)
  {
    hide OneLine, Assigned, JsonString, LStrip;
    var a := Assignment(id, executable);
    AssignmentIsLine(id, executable);
    QuotedKeyAssigns(id, JsonString(executable) + "\n");
    assert a == "\"" + id + "\"" + " = " + (JsonString(executable) + "\n");
    assert " " + (JsonString(executable) + "\n") == " " + JsonString(executable) + "\n";
    QuoteIsNoSpace(a);
    QuotedIsNoHeader(a);
  }

  lemma QuoteIsNoSpace(s: string)
    requires s != "" && s[0] == '"'
    ensures LStrip(s) == s
  {
  }

  lemma EqualsFollows(rest: string)
    ensures AfterEquals(LStrip(" = " + rest)) == Some(" " + rest)
  {
    var s := " = " + rest;
    assert s[1..] == "= " + rest && LStrip(s[1..]) == s[1..];
    assert s[1..][1..] == " " + rest;
  }

  // ---------- The lines that the patterns fit ----------

  /** Harness ids are made of these characters. */
  lemma HarnessIdExactly(id: string)
    ensures HarnessId(id)
            <==> id != "" && forall k | 0 <= k < |id| ::
                   || id[k] in "ABCDEFGHIJKLMNOPQRSTUVWXYZ" || id[k] in "abcdefghijklmnopqrstuvwxyz"
                   || id[k] in "0123456789_-"
  {
    hide IdChar;
    forall k | 0 <= k < |id|
      ensures IdChar(id[k])
              <==> (id[k] in "ABCDEFGHIJKLMNOPQRSTUVWXYZ" || id[k] in "abcdefghijklmnopqrstuvwxyz"
                    || id[k] in "0123456789_-")
    {
      IdCharIs(id[k]);
    }
  }

  lemma IdCharIs(c: char)
    ensures IdChar(c)
            <==> c in "ABCDEFGHIJKLMNOPQRSTUVWXYZ" || c in "abcdefghijklmnopqrstuvwxyz" || c in "0123456789_-"
  {
    UpperIs(c);
    LowerIs(c);
  }

  lemma UpperIs(c: char)
    ensures 'A' <= c <= 'Z' <==> c in "ABCDEFGHIJKLMNOPQRSTUVWXYZ"
  {
    var all := "ABCDEFGHIJKLMNOPQRSTUVWXYZ";
    if 'A' <= c <= 'Z' {
      assert all[c as int - 'A' as int] == c;
    }
  }

  lemma LowerIs(c: char)
    ensures 'a' <= c <= 'z' <==> c in "abcdefghijklmnopqrstuvwxyz"
  {
    var all := "abcdefghijklmnopqrstuvwxyz";
    if 'a' <= c <= 'z' {
      assert all[c as int - 'a' as int] == c;
    }
  }

  ghost predicate Blanks(s: string, i: nat, j: nat) {
    i <= j <= |s| && forall k | i <= k < j :: IsSpace(s[k])
  }

  lemma {:induction false} LStripIs(s: string, n: nat)
    requires Blanks(s, 0, n) && (n < |s| ==> !IsSpace(s[n]))
    ensures LStrip(s) == s[n..]
  {
    hide IsSpace;
    if n > 0 {
      LStripIs(s[1..], n - 1);
      assert s[1..][n - 1..] == s[n..];
    }
  }

  lemma {:induction false} LStripAt(s: string) returns (n: nat)
    ensures n <= |s| && Blanks(s, 0, n) && (n < |s| ==> !IsSpace(s[n]))
    ensures LStrip(s) == s[n..]
  {
    hide IsSpace;
    n := 0;
    if s != "" && IsSpace(s[0]) {
      n := LStripAt(s[1..]);
      assert s[1..][n..] == s[n + 1..];
      assert forall k | 0 <= k < n :: s[1..][k] == s[k + 1];
      assert forall k | 0 < k < n + 1 :: s[k] == s[1..][k - 1];
      n := n + 1;
    }
  }

  lemma {:induction false} RStripIs(s: string, m: nat)
    requires Blanks(s, m, |s|) && (m > 0 ==> !IsSpace(s[m - 1]))
    ensures RStrip(s) == s[..m]
    decreases |s|
  {
    hide IsSpace;
    if m < |s| {
      RStripIs(s[..|s| - 1], m);
      assert s[..|s| - 1][..m] == s[..m];
    }
  }

  lemma {:induction false} RStripAt(s: string) returns (m: nat)
    ensures m <= |s| && Blanks(s, m, |s|) && (m > 0 ==> !IsSpace(s[m - 1]))
    ensures RStrip(s) == s[..m]
  {
    hide IsSpace;
    m := |s|;
    if s != "" && IsSpace(s[|s| - 1]) {
      m := RStripAt(s[..|s| - 1]);
      assert s[..|s| - 1][..m] == s[..m];
      assert forall k | m <= k < |s| - 1 :: s[k] == s[..|s| - 1][k];
    }
  }

  /** White space, the key, white space, and an equals sign. */
  ghost predicate Assigns(line: string, key: string, n: nat, e: nat) {
    && n + |key| <= e < |line|
    && Blanks(line, 0, n)
    && line[n..n + |key|] == key
    && Blanks(line, n + |key|, e)
    && line[e] == '='
  }

  lemma BlanksWithin(s: string, p: nat, i: nat, j: nat)
    requires p <= i <= j <= |s|
    ensures Blanks(s[p..], i - p, j - p) <==> Blanks(s, i, j)
  {
    hide IsSpace;
    if Blanks(s[p..], i - p, j - p) {
      forall k | i <= k < j ensures IsSpace(s[k]) {
        assert s[k] == s[p..][k - p];
      }
    }
  }

  lemma AssignsFits(line: string, id: string, key: string, n: nat, e: nat)
    requires HarnessId(id) && key in {id, "'" + id + "'", "\"" + id + "\""} && Assigns(line, key, n, e)
    ensures e < |line| && Assigned(line, id) == Some(line[e + 1..])
  {
    hide LStrip, IsSpace, IdChar, Blanks;
    KeyIsDark(id, key);
    assert line[n..n + |key|][0] == line[n];
    LStripIs(line, n);
    var s := line[n..];
    assert s[..|key|] == line[n..n + |key|];
    KeyLengthIs(s, id, key);
    BlanksWithin(line, n + |key|, n + |key|, e);
    var t := line[n + |key|..];
    assert s[|key|..] == t;
    EqualsIsDark();
    LStripIs(t, e - n - |key|);
    assert t[e - n - |key|..] == line[e..];
    assert line[e..][1..] == line[e + 1..];
  }

  lemma EqualsIsDark()
    ensures !IsSpace('=')
  {
  }

  lemma KeyIsDark(id: string, key: string)
    requires HarnessId(id) && key in {id, "'" + id + "'", "\"" + id + "\""}
    ensures key != "" && !IsSpace(key[0])
  {
    assert IdChar(id[0]);
  }

  lemma KeyLengthIs(s: string, id: string, key: string)
    requires HarnessId(id) && key in {id, "'" + id + "'", "\"" + id + "\""} && StartsWith(s, key)
    ensures KeyLength(s, id) == Some(|key|)
  {
    assert IdChar(id[0]);
    assert s[0] == s[..|key|][0];
    QuoteFirst(s, '"', id);
    QuoteFirst(s, '\'', id);
    assert "\"" + id + "\"" == ['"'] + id + ['"'] && "'" + id + "'" == ['\''] + id + ['\''];
  }

  lemma QuoteFirst(s: string, q: char, id: string)
    ensures StartsWith(s, [q] + id + [q]) ==> s != "" && s[0] == q
  {
    if StartsWith(s, [q] + id + [q]) {
      assert s[0] == s[..|id| + 2][0];
    }
  }

  lemma FitsAssigns(line: string, id: string) returns (key: string, n: nat, e: nat)
    requires Assigned(line, id).Some?
    ensures key in {id, "'" + id + "'", "\"" + id + "\""} && Assigns(line, key, n, e)
  {
    hide LStrip, IsSpace, Blanks;
    n := LStripAt(line);
    var s := line[n..];
    key := if StartsWith(s, "\"" + id + "\"") then "\"" + id + "\""
           else if StartsWith(s, "'" + id + "'") then "'" + id + "'" else id;
    var k := LStripAt(s[|key|..]);
    var p := n + |key|;
    assert s[|key|..] == line[p..] && s[..|key|] == line[n..p];
    e := p + k;
    assert line[p..][k..] == line[e..];
    BlanksWithin(line, p, p, e);
  }

  /** A line assigns to an id exactly if, after white space, the id bare, in single or in double quotes stands
      before an equals sign; what it assigns is all that follows. */
  lemma AssignedExactly(line: string, id: string, value: string)
    requires HarnessId(id)
    ensures Assigned(line, id) == Some(value)
            <==> exists key, n: nat, e: nat :: key in {id, "'" + id + "'", "\"" + id + "\""} && Assigns(line, key, n, e)
                                                && value == line[e + 1..]
  {
    hide Assigns, Assigned, HarnessId;
    if Assigned(line, id).Some? {
      var key, n, e := FitsAssigns(line, id);
      AssignsFits(line, id, key, n, e);
    }
    forall key, n: nat, e: nat | key in {id, "'" + id + "'", "\"" + id + "\""} && Assigns(line, key, n, e)
      ensures e < |line| && Assigned(line, id) == Some(line[e + 1..])
    {
      AssignsFits(line, id, key, n, e);
    }
  }

  /** White space, the bracketed name, white space, and the end or a comment. */
  ghost predicate Heads(body: string, n: nat, m: nat, e: nat) {
    && n + 1 < m < e <= |body|
    && Blanks(body, 0, n) && body[n] == '[' && body[m] == ']'
    && (forall k | n < k < m :: body[k] != ']')
    && Blanks(body, m + 1, e)
    && (e < |body| ==> body[e] == '#')
  }

  lemma {:induction false} CloseIs(s: string, n: nat)
    requires n <= |s| && (forall k | 0 <= k < n :: s[k] != ']') && (n < |s| ==> s[n] == ']')
    ensures CloseAt(s) == n
  {
    if n > 0 {
      CloseIs(s[1..], n - 1);
    }
  }

  lemma {:induction false} CloseMeans(s: string)
    ensures forall k | 0 <= k < CloseAt(s) :: s[k] != ']'
    ensures CloseAt(s) < |s| ==> s[CloseAt(s)] == ']'
  {
    if s != "" && s[0] != ']' {
      CloseMeans(s[1..]);
      assert forall k | 0 < k < CloseAt(s) :: s[k] == s[1..][k - 1];
    }
  }

  lemma HeadsNames(line: string, n: nat, m: nat, e: nat)
    requires Heads(WithoutEnd(line), n, m, e)
    ensures HeaderName(line) == Some(WithoutEnd(line)[n + 1..m])
  {
    hide LStrip, IsSpace, Blanks, CloseAt, WithoutEnd;
    var body := WithoutEnd(line);
    SignsAreDark();
    LStripIs(body, n);
    var s := body[n..];
    assert s[1..] == body[n + 1..];
    CloseIs(s[1..], m - n - 1);
    var rest := s[m - n + 1..];
    assert rest == body[m + 1..];
    BlanksWithin(body, m + 1, m + 1, e);
    LStripIs(rest, e - m - 1);
    assert rest[e - m - 1..] == body[e..];
    assert s[1..m - n] == body[n + 1..m];
  }

  lemma SignsAreDark()
    ensures !IsSpace('[') && !IsSpace('#')
  {
  }

  lemma NamesHeads(line: string) returns (n: nat, m: nat, e: nat)
    requires HeaderName(line).Some?
    ensures Heads(WithoutEnd(line), n, m, e)
  {
    hide LStrip, IsSpace, Blanks, CloseAt, WithoutEnd;
    var body := WithoutEnd(line);
    n := LStripAt(body);
    var s := body[n..];
    assert s[1..] == body[n + 1..];
    CloseMeans(s[1..]);
    var c := CloseAt(s[1..]);
    m := n + 1 + c;
    var rest := s[c + 2..];
    assert rest == body[m + 1..];
    var b := LStripAt(rest);
    e := m + 1 + b;
    assert rest[b..] == body[e..];
    BlanksWithin(body, m + 1, m + 1, e);
    assert forall k | n < k < m :: body[k] == s[1..][k - n - 1];
  }

  /** The header of the table: the name bare, in single or in double quotes, with white space around it. */
  ghost predicate HeadsTable(body: string, n: nat, a: nat, key: string, m: nat, e: nat) {
    && Heads(body, n, m, e)
    && n < a && a + |key| <= m
    && Blanks(body, n + 1, a) && body[a..a + |key|] == key && Blanks(body, a + |key|, m)
  }

  lemma StripIs(name: string, i: nat, key: string)
    requires key != "" && Stripped(key) && i + |key| <= |name| && name[i..i + |key|] == key
    requires Blanks(name, 0, i) && Blanks(name, i + |key|, |name|)
    ensures Strip(name) == key
  {
    hide IsSpace, LStrip, RStrip, Blanks;
    assert name[i] == name[i..i + |key|][0];
    LStripIs(name, i);
    var t := name[i..];
    BlanksWithin(name, i, i + |key|, |name|);
    assert t[..|key|] == key;
    assert t[|key| - 1] == t[..|key|][|key| - 1];
    RStripIs(t, |key|);
  }

  lemma StripAt(name: string) returns (i: nat)
    ensures i + |Strip(name)| <= |name| && name[i..i + |Strip(name)|] == Strip(name)
    ensures Blanks(name, 0, i) && Blanks(name, i + |Strip(name)|, |name|)
  {
    hide IsSpace, LStrip, RStrip, Blanks;
    i := LStripAt(name);
    var t := name[i..];
    var m := RStripAt(t);
    assert t[..m] == name[i..i + m];
    BlanksWithin(name, i, i + m, |name|);
  }

  lemma TableKeysStripped(key: string)
    requires key in {"executables", "'executables'", "\"executables\""}
    ensures key != "" && Stripped(key)
  {
  }

  lemma HeadsTableFits(line: string, n: nat, a: nat, key: string, m: nat, e: nat)
    requires key in {"executables", "'executables'", "\"executables\""}
    requires HeadsTable(WithoutEnd(line), n, a, key, m, e)
    ensures Fits(Table, line)
  {
    hide WithoutEnd, HeaderName, Strip, Blanks, IsSpace;
    var body := WithoutEnd(line);
    HeadsNames(line, n, m, e);
    var name := body[n + 1..m];
    TableKeysStripped(key);
    BlanksInside(body, n + 1, m, n + 1, a);
    BlanksInside(body, n + 1, m, a + |key|, m);
    assert name[a - n - 1..a - n - 1 + |key|] == body[a..a + |key|];
    StripIs(name, a - n - 1, key);
  }

  lemma BlanksInside(s: string, p: nat, q: nat, i: nat, j: nat)
    requires p <= i <= j <= q <= |s|
    ensures Blanks(s[p..q], i - p, j - p) <==> Blanks(s, i, j)
  {
    hide IsSpace;
    if Blanks(s[p..q], i - p, j - p) {
      forall k | i <= k < j ensures IsSpace(s[k]) {
        assert s[k] == s[p..q][k - p];
      }
    }
  }

  lemma FitsHeadsTable(line: string) returns (n: nat, a: nat, key: string, m: nat, e: nat)
    requires Fits(Table, line)
    ensures key in {"executables", "'executables'", "\"executables\""}
    ensures HeadsTable(WithoutEnd(line), n, a, key, m, e)
  {
    hide WithoutEnd, HeaderName, Strip, Blanks, IsSpace;
    var body := WithoutEnd(line);
    n, m, e := NamesHeads(line);
    HeadsNames(line, n, m, e);
    var name := body[n + 1..m];
    key := Strip(name);
    var i := StripAt(name);
    a := n + 1 + i;
    BlanksInside(body, n + 1, m, n + 1, a);
    BlanksInside(body, n + 1, m, a + |key|, m);
    SliceOfSlice(body, n + 1, m, i, i + |key|);
  }

  lemma SliceOfSlice(s: string, p: nat, q: nat, i: nat, j: nat)
    requires p <= q <= |s| && i <= j <= q - p
    ensures s[p..q][i..j] == s[p + i..p + j]
  {
    assert forall k | 0 <= k < j - i :: s[p..q][i..j][k] == s[p + i..p + j][k];
  }

  /** The header pattern and the table pattern, character by character, on a line without its end. */
  lemma HeadersExactly(line: string)
    ensures Fits(AnyHeader, line) <==> exists n: nat, m: nat, e: nat :: Heads(WithoutEnd(line), n, m, e)
    ensures Fits(Table, line)
            <==> exists n: nat, a: nat, key, m: nat, e: nat ::
                   && key in {"executables", "'executables'", "\"executables\""}
                   && HeadsTable(WithoutEnd(line), n, a, key, m, e)
  {
    hide Heads, HeadsTable, WithoutEnd, HeaderName, Strip;
    if Fits(AnyHeader, line) {
      var n, m, e := NamesHeads(line);
    }
    forall n: nat, m: nat, e: nat | Heads(WithoutEnd(line), n, m, e) ensures Fits(AnyHeader, line) {
      HeadsNames(line, n, m, e);
    }
    if Fits(Table, line) {
      var n, a, key, m, e := FitsHeadsTable(line);
    }
    forall n: nat, a: nat, key, m: nat, e: nat | key in {"executables", "'executables'", "\"executables\""}
        && HeadsTable(WithoutEnd(line), n, a, key, m, e) ensures Fits(Table, line)
    {
      HeadsTableFits(line, n, a, key, m, e);
    }
  }

  // ---------- Leading space and line ends ----------

  lemma {:induction false} LStripKeepsMore(a: string, b: string)
    ensures LStrip(a) != "" ==> LStrip(a + b) == LStrip(a) + b
    ensures LStrip(a) == "" ==> LStrip(a + b) == LStrip(b)
  {
    hide IsSpace;
    if a == "" {
      assert a + b == b;
    } else {
      assert (a + b)[1..] == a[1..] + b;
      LStripKeepsMore(a[1..], b);
    }
  }

  lemma {:induction false} EndsStripped(line: string) returns (ends: string)
    ensures line == WithoutEnd(line) + ends
    ensures forall c | c in ends :: c in "\r\n"
  {
    if line != "" && line[|line| - 1] in "\r\n" {
      var last := line[|line| - 1];
      ends := EndsStripped(line[..|line| - 1]);
      assert line == line[..|line| - 1] + [last];
      ends := ends + [last];
    } else {
      ends := "";
    }
  }

  /** A header line starts, after white space, with a bracket. */
  lemma HeaderStarts(line: string)
    requires Fits(AnyHeader, line)
    ensures LStrip(line) != "" && LStrip(line)[0] == '['
  {
    hide LStrip, IsSpace, CloseAt;
    var ends := EndsStripped(line);
    LStripKeepsMore(WithoutEnd(line), ends);
  }

  lemma QuotedIsNoHeader(line: string)
    requires LStrip(line) == line && line != "" && line[0] == '"'
    ensures !Fits(AnyHeader, line)
  {
    if Fits(AnyHeader, line) {
      HeaderStarts(line);
    }
  }

  /** A line that assigns to an id starts with a quote or a character of the id. */
  lemma KeyStarts(line: string, id: string)
    requires HarnessId(id) && Fits(Key(id), line)
    ensures LStrip(line) != "" && (LStrip(line)[0] in "\"'" || IdChar(LStrip(line)[0]))
  {
    hide LStrip, IdChar;
    var s := LStrip(line);
    assert IdChar(id[0]);
    assert StartsWith(s, id) ==> s[0] == s[..|id|][0];
    assert StartsWith(s, "\"" + id + "\"") ==> s[0] == s[..|id| + 2][0];
    assert StartsWith(s, "'" + id + "'") ==> s[0] == s[..|id| + 2][0];
  }

  lemma KeyIsNoHeader(line: string, id: string)
    requires HarnessId(id) && Fits(Key(id), line)
    ensures !Fits(AnyHeader, line)
  {
    KeyStarts(line, id);
    if Fits(AnyHeader, line) {
      HeaderStarts(line);
    }
  }

  // ---------- One line, one id ----------

  lemma RunChar(s: string, id: string, i: nat)
    requires HarnessId(id) && StartsWith(s, id) && i < |id|
    ensures i < |s| && s[i] == id[i] && IdChar(s[i])
  {
    assert s[i] == s[..|id|][i];
  }

  /** An id that is not followed by an id character is determined by the text. */
  lemma SameRun(s: string, x: string, y: string)
    requires HarnessId(x) && StartsWith(s, x) && (|x| < |s| ==> !IdChar(s[|x|]))
    requires HarnessId(y) && StartsWith(s, y) && (|y| < |s| ==> !IdChar(s[|y|]))
    ensures x == y
  {
    hide HarnessId, IdChar, StartsWith;
    if |x| < |y| {
      RunChar(s, y, |x|);
    } else if |y| < |x| {
      RunChar(s, x, |y|);
    } else {
      forall i | 0 <= i < |x| ensures x[i] == y[i] {
        RunChar(s, x, i);
        RunChar(s, y, i);
      }
    }
  }

  lemma QuotedRun(s: string, q: char, id: string)
    requires StartsWith(s, [q] + id + [q])
    ensures s != "" && StartsWith(s[1..], id) && |id| < |s[1..]| && s[1..][|id|] == q
  {
    var quoted := [q] + id + [q];
    assert s[1..][..|id|] == s[..|quoted|][1..|id| + 1] == id;
    assert s[1..][|id|] == s[..|quoted|][|id| + 1];
  }

  lemma BareRun(s: string, id: string)
    requires StartsWith(s, id) && AfterEquals(LStrip(s[|id|..])).Some?
    ensures |id| < |s| && !IdChar(s[|id|])
  {
    assert s[|id|..] != "";
    assert s[|id|..][0] == s[|id|];
  }

  /** The spelling in which a line names an id. */
  lemma KeySpelling(s: string, id: string)
    requires HarnessId(id) && AssignedIn(s, id).Some?
    ensures s != ""
    ensures s[0] == '"' ==> StartsWith(s, ['"'] + id + ['"'])
    ensures s[0] == '\'' ==> StartsWith(s, ['\''] + id + ['\''])
    ensures s[0] !in "\"'" ==> StartsWith(s, id) && AfterEquals(LStrip(s[|id|..])).Some?
  {
    hide LStrip;
    assert IdChar(id[0]);
    assert StartsWith(s, id) ==> s[0] == s[..|id|][0];
    assert StartsWith(s, "\"" + id + "\"") ==> s[0] == s[..|id| + 2][0];
    assert StartsWith(s, "'" + id + "'") ==> s[0] == s[..|id| + 2][0];
    assert "\"" + id + "\"" == ['"'] + id + ['"'];
    assert "'" + id + "'" == ['\''] + id + ['\''];
  }

  /** No line assigns to two ids. */
  lemma OneIdPerLine(line: string, x: string, y: string)
    requires HarnessId(x) && HarnessId(y) && Fits(Key(x), line) && Fits(Key(y), line)
    ensures x == y
  {
    hide LStrip;
    var s := LStrip(line);
    KeySpelling(s, x);
    KeySpelling(s, y);
    if s[0] in "\"'" {
      QuotedRun(s, s[0], x);
      QuotedRun(s, s[0], y);
      SameRun(s[1..], x, y);
    } else {
      BareRun(s, x);
      BareRun(s, y);
      SameRun(s, x, y);
    }
  }

  // ---------- Setting, line by line ----------

  /** The lines after setting: what was before, the new line, and what was after. */
  lemma SetAt(lines: seq<string>, id: string, line: string, j: nat)
    requires HasTable(lines) && j < |SetLines(lines, id, line)|
    ensures var k := KeyAt(lines, id);
            var shift := |SetLines(lines, id, line)| - |lines|;
            && shift == (if k < TableEnd(lines) then 0 else 1)
            && SetLines(lines, id, line)[j] == if j < k then lines[j] else if j == k then line else lines[j - shift]
  {
    hide KeyAt, TableEnd;
  }

  lemma SetKeepsTable(lines: seq<string>, id: string, line: string)
    requires HasTable(lines)
    ensures var after := SetLines(lines, id, line); HasTable(after) && TableAt(after) == TableAt(lines)
  {
    hide Fits, SetLines;
    var after := SetLines(lines, id, line);
    var t := TableAt(lines);
    SetLonger(lines, id, line);
    forall j | 0 <= j <= t
      ensures after[j] == lines[j] && (j < t ==> !Fits(Table, after[j]))
    {
      SetAt(lines, id, line, j);
      if j < t {
        NoneBefore(lines, Table, 0, |lines|, j);
      }
    }
    FindIs(after, Table, 0, |after|, t);
  }

  lemma SetLonger(lines: seq<string>, id: string, line: string)
    requires HasTable(lines)
    ensures |SetLines(lines, id, line)| == |lines| + if KeyAt(lines, id) < TableEnd(lines) then 0 else 1
  {
  }

  lemma SetKeepsEnd(lines: seq<string>, id: string, line: string)
    requires HasTable(lines) && !Fits(AnyHeader, line)
    ensures var after := SetLines(lines, id, line);
            HasTable(after) && TableEnd(after) == TableEnd(lines) + (|after| - |lines|)
  {
    hide Fits, SetLines, TableAt, KeyAt;
    var after := SetLines(lines, id, line);
    var t, e := TableAt(lines), TableEnd(lines);
    SetKeepsTable(lines, id, line);
    SetLonger(lines, id, line);
    var shift := |after| - |lines|;
    forall j | t < j < e + shift ensures !Fits(AnyHeader, after[j]) {
      SetAt(lines, id, line, j);
      if j < KeyAt(lines, id) {
        NoneBefore(lines, AnyHeader, t + 1, |lines|, j);
      } else if j > KeyAt(lines, id) {
        NoneBefore(lines, AnyHeader, t + 1, |lines|, j - shift);
      }
    }
    if e < |lines| {
      SetAt(lines, id, line, e + shift);
    }
    FindIs(after, AnyHeader, t + 1, |after|, e + shift);
  }

  /** After setting, the new line is the one that assigns to the id. */
  lemma SetFinds(lines: seq<string>, id: string, line: string)
    requires HasTable(lines) && !Fits(AnyHeader, line) && Fits(Key(id), line)
    ensures var after := SetLines(lines, id, line);
            HasKey(after, id) && KeyAt(after, id) == KeyAt(lines, id) && after[KeyAt(lines, id)] == line
  {
    hide Fits, SetLines, TableAt, TableEnd;
    var after := SetLines(lines, id, line);
    var k := KeyAt(lines, id);
    SetKeepsTable(lines, id, line);
    SetKeepsEnd(lines, id, line);
    SetLonger(lines, id, line);
    forall j | TableAt(lines) < j < k ensures !Fits(Key(id), after[j]) {
      SetAt(lines, id, line, j);
      NoneBefore(lines, Key(id), TableAt(lines) + 1, TableEnd(lines), j);
    }
    SetAt(lines, id, line, k);
    FindIs(after, Key(id), TableAt(lines) + 1, TableEnd(after), k);
  }

  /** Setting one id leaves the line of every other id alone. */
  lemma {:induction false} SetKeepsOthers(lines: seq<string>, id: string, line: string, other: string)
    requires HasTable(lines) && !Fits(AnyHeader, line) && Fits(Key(id), line)
    requires HarnessId(id) && HarnessId(other) && id != other
    ensures var after := SetLines(lines, id, line);
            && (HasKey(after, other) <==> HasKey(lines, other))
            && (HasKey(lines, other) ==> after[KeyAt(after, other)] == lines[KeyAt(lines, other)])
  {
    hide Fits, SetLines, TableAt, TableEnd, HarnessId;
    var after := SetLines(lines, id, line);
    var t, k, e, o := TableAt(lines), KeyAt(lines, id), TableEnd(lines), KeyAt(lines, other);
    SetKeepsTable(lines, id, line);
    SetKeepsEnd(lines, id, line);
    SetLonger(lines, id, line);
    var shift := |after| - |lines|;
    var moved := if o < k then o else o + shift;
    if k == o && k < e {
      OneIdPerLine(lines[k], id, other);
    }
    forall j | t < j < moved ensures !Fits(Key(other), after[j]) {
      SetAt(lines, id, line, j);
      if j < k {
        NoneBefore(lines, Key(other), t + 1, e, j);
      } else if j > k {
        NoneBefore(lines, Key(other), t + 1, e, j - shift);
      } else if Fits(Key(other), line) {
        OneIdPerLine(line, id, other);
      }
    }
    if o < e {
      SetAt(lines, id, line, moved);
    }
    FindIs(after, Key(other), t + 1, e + shift, moved);
  }

  // ---------- Texts ----------

  /** The new assignment would join an unended last line: the only way that setting goes wrong. */
  predicate Joins(text: string, id: string) {
    var lines := SplitKeep(text);
    HasTable(lines) && !HasKey(lines, id) && TableEnd(lines) == |lines| && !Ended(lines[|lines| - 1])
  }

  lemma LineIsNotEmpty(line: string)
    requires OneLine(line)
    ensures line != ""
  {
  }

  lemma ProperAround(before: seq<string>, line: string, rest: seq<string>)
    requires Proper(before) && Proper(rest) && OneLine(line)
    requires line != "" && line[0] != '\n' && line[|line| - 1] == '\n'
    requires before == [] || Ended(before[|before| - 1])
    ensures Proper(before + [line] + rest)
  {
    hide OneLine;
    NewlineBreaks();
    ProperConcat(before, [line]);
    if rest != [] {
      LineIsNotEmpty(rest[0]);
    }
    ProperConcat(before + [line], rest);
  }

  lemma SetIsProper(lines: seq<string>, id: string, line: string)
    requires Proper(lines) && HasTable(lines)
    requires OneLine(line) && line != "" && line[0] != '\n' && line[|line| - 1] == '\n'
    requires HasKey(lines, id) || TableEnd(lines) < |lines| || Ended(lines[|lines| - 1])
    ensures Proper(SetLines(lines, id, line))
  {
    hide OneLine, KeyAt, TableEnd, TableAt, Ended;
    var k := KeyAt(lines, id);
    var from := if k < TableEnd(lines) then k + 1 else k;
    ProperParts(lines, 0, k);
    assert lines[0..k] == lines[..k];
    ProperParts(lines, from, |lines|);
    assert lines[from..|lines|] == lines[from..];
    assert k < |lines| ==> Meets(lines[k - 1], lines[k]);
    ProperAround(lines[..k], line, lines[from..]);
  }

  /** In an existing table setting changes or inserts exactly one line. */
  lemma SetSplits(text: string, id: string, executable: string)
    requires HarnessId(id) && HasTable(SplitKeep(text)) && !Joins(text, id)
    ensures SplitKeep(SetText(text, id, executable)) == SetLines(SplitKeep(text), id, Assignment(id, executable))
  {
    hide SplitKeep, Join, Proper, SetLines, HasTable, HasKey, TableEnd, Assignment, OneLine;
    var lines := SplitKeep(text);
    SplitIsProper(text);
    AssignmentIs(id, executable);
    SetIsProper(lines, id, Assignment(id, executable));
    SplitOfJoin(SetLines(lines, id, Assignment(id, executable)));
  }

  // ---------- A new table ----------

  predicate NoTable(text: string) {
    forall line | line in SplitKeep(text) :: !Fits(Table, line)
  }

  lemma NoTableMeans(text: string)
    ensures NoTable(text) <==> !HasTable(SplitKeep(text))
  {
    hide Fits;
    var lines := SplitKeep(text);
    if HasTable(lines) {
      assert lines[TableAt(lines)] in lines;
    } else {
      forall line | line in lines ensures !Fits(Table, line) {
        var j :| 0 <= j < |lines| && lines[j] == line;
        NoneBefore(lines, Table, 0, |lines|, j);
      }
    }
  }

  lemma NewlineIsPlain(line: string)
    ensures Fits(Table, line + "\n") == Fits(Table, line) && !Fits(Table, "\n")
  {
    hide LStrip, HeaderIn;
    assert (line + "\n")[..|line|] == line;
    assert "\n"[..0] == "";
    assert WithoutEnd("\n") == "" && LStrip("") == "" && HeaderIn("").None? by {
      NothingIsNoHeader();
    }
  }

  lemma NothingIsNoHeader()
    ensures LStrip("") == "" && HeaderIn("").None? && WithoutEnd("\n") == ""
  {
    assert "\n"[..0] == "";
  }

  predicate NewlineStandsAlone(lines: seq<string>) {
    lines == [] || (Ended(lines[|lines| - 1]) && lines[|lines| - 1][|lines[|lines| - 1]| - 1] != '\r')
  }

  lemma NewlineAppended(text: string)
    requires NewlineStandsAlone(SplitKeep(text))
    ensures SplitKeep(text + "\n") == SplitKeep(text) + ["\n"]
  {
    hide SplitKeep, IsLineBreak, Join;
    var lines := SplitKeep(text);
    SplitIsProper(text);
    NewlineBreaks();
    BreakFound("\n", 0);
    ProperConcat(lines, ["\n"]);
    SplitOfJoin(lines + ["\n"]);
    JoinConcat(lines, ["\n"]);
    JoinOne("\n");
  }

  lemma NewlineJoined(text: string)
    requires !NewlineStandsAlone(SplitKeep(text))
    ensures var lines := SplitKeep(text);
            SplitKeep(text + "\n") == lines[..|lines| - 1] + [lines[|lines| - 1] + "\n"]
  {
    hide SplitKeep, IsLineBreak, Join, OneLine, Proper;
    var lines := SplitKeep(text);
    SplitIsProper(text);
    var init, last := lines[..|lines| - 1], lines[|lines| - 1];
    assert lines == init + [last];
    ProperLine(lines, |init|);
    LineIsNotEmpty(last);
    LastLonger(last);
    LastReplaced(lines, last + "\n");
    SplitOfJoin(init + [last + "\n"]);
    JoinConcat(init, [last]);
    JoinConcat(init, [last + "\n"]);
    JoinOne(last);
    JoinOne(last + "\n");
    assert Join(init) + (last + "\n") == text + "\n";
  }

  lemma LastLonger(line: string)
    requires OneLine(line) && (!Ended(line) || line[|line| - 1] == '\r')
    ensures OneLine(line + "\n")
  {
    hide IsLineBreak;
    var longer := line + "\n";
    NewlineBreaks();
    var e := BreakAt(line);
    assert forall k | 0 <= k < e :: longer[k] == line[k];
    if e < |line| {
      assert longer[e] == line[e] == '\r';
    }
    BreakFound(longer, e);
  }

  lemma LastReplaced(lines: seq<string>, last: string)
    requires Proper(lines) && lines != [] && OneLine(last) && lines[|lines| - 1] <= last
    ensures Proper(lines[..|lines| - 1] + [last])
  {
    hide OneLine;
    var init := lines[..|lines| - 1];
    ProperParts(lines, 0, |init|);
    assert lines[0..|init|] == init;
    LineIsNotEmpty(lines[|init|]);
    if init != [] {
      assert Meets(lines[|init| - 1], lines[|init|]);
    }
    ProperConcat(init, [last]);
  }

  lemma StandsAloneWhenEmpty()
    ensures NewlineStandsAlone([])
  {
  }

  lemma NewlineAddsNoTable(text: string)
    requires NoTable(text)
    ensures NoTable(text + "\n")
  {
    hide SplitKeep, Fits, NewlineStandsAlone;
    var lines := SplitKeep(text);
    NewlineIsPlain("");
    if NewlineStandsAlone(lines) {
      NewlineAppended(text);
    } else {
      StandsAloneWhenEmpty();
      NewlineJoined(text);
      NewlineIsPlain(lines[|lines| - 1]);
      assert lines[|lines| - 1] in lines;
    }
  }

  lemma ClosedHasNoTable(text: string, ending: string)
    requires NoTable(text)
    ensures NoTable(Closed(text, ending)) && text <= Closed(text, ending)
  {
    hide NoTable;
    NewlineAddsNoTable(text);
  }

  lemma PaddedHasNoTable(text: string)
    requires NoTable(text)
    ensures NoTable(Padded(text)) && text <= Padded(text)
  {
    hide NoTable, Closed;
    ClosedHasNoTable(text, "\n");
    ClosedHasNoTable(Closed(text, "\n"), "\n\n");
  }

  lemma ClosedEnds(text: string, ending: string)
    requires EndsWith(text + "\n", ending)
    ensures Closed(text, ending) == "" || EndsWith(Closed(text, ending), ending)
  {
  }

  /** A padded text ends in an empty line, or has nothing at all. */
  lemma PaddedEnds(text: string)
    ensures Padded(text) == "" || EndsWith(Padded(text), "\n\n")
  {
    hide Closed;
    ClosedEnds(text, "\n");
    var closed := Closed(text, "\n");
    if closed == "" {
      NothingToClose("\n\n");
    } else {
      assert closed[|closed| - 1] == '\n';
      assert (closed + "\n")[|closed| - 1..] == "\n\n";
      ClosedEnds(closed, "\n\n");
    }
  }

  lemma NothingToClose(ending: string)
    ensures Closed("", ending) == ""
  {
  }

  lemma {:induction false} LastCharacter(lines: seq<string>)
    requires Proper(lines) && lines != []
    ensures var text := Join(lines);
            var last := lines[|lines| - 1];
            text != "" && last != "" && text[|text| - 1] == last[|last| - 1]
  {
    hide Proper;
    var init, last := lines[..|lines| - 1], lines[|lines| - 1];
    assert lines == init + [last];
    JoinConcat(init, [last]);
    JoinOne(last);
    assert OneLine(last) by {
      ProperLine(lines, |lines| - 1);
    }
  }

  lemma ProperLine(lines: seq<string>, i: nat)
    requires Proper(lines) && i < |lines|
    ensures OneLine(lines[i])
  {
  }

  lemma HeaderIsOneLine()
    ensures OneLine(HEADER) && HEADER[|HEADER| - 1] == '\n'
  {
    hide IsLineBreak;
    var body := "[executables]";
    PrintableHasNoBreak(body);
    NewlineBreaks();
    assert forall k | 0 <= k < |body| :: HEADER[k] == body[k];
    BreakFound(HEADER, |body|);
  }

  lemma HeaderRead(name: string)
    requires ']' !in name && name != ""
    ensures HeaderIn("[" + name + "]") == Some(name)
  {
    var s := "[" + name + "]";
    assert s[1..] == name + "]";
    CloseFound(name);
    assert s[|name| + 2..] == "" && s[1..|name| + 1] == name;
  }

  lemma HeaderLine()
    ensures OneLine(HEADER) && Fits(Table, HEADER) && HEADER[|HEADER| - 1] == '\n'
  {
    hide HeaderIn, OneLine, IsSpace;
    var body := "[executables]";
    HeaderIsOneLine();
    HeaderRead("executables");
    assert "[" + "executables" + "]" == body;
    assert HEADER[..|body|] == body && WithoutEnd(HEADER) == body;
    BracketIsNoSpace(body);
    NameIsStripped();
  }

  lemma BracketIsNoSpace(s: string)
    requires s != "" && s[0] == '['
    ensures LStrip(s) == s
  {
  }

  lemma NameIsStripped()
    ensures Strip("executables") == "executables"
  {
    StripOfStripped("executables");
  }

  lemma {:induction false} CloseFound(name: string)
    requires ']' !in name
    ensures CloseAt(name + "]") == |name|
  {
    if name == "" {
      assert name + "]" == "]";
    } else {
      assert (name + "]")[1..] == name[1..] + "]";
      CloseFound(name[1..]);
    }
  }

  /** Without a table, everything stays and a table with the one assignment follows. */
  lemma NewTableSplits(text: string, id: string, executable: string)
    requires HarnessId(id) && !HasTable(SplitKeep(text))
    ensures NoTable(Padded(text)) && text <= Padded(text)
    ensures SplitKeep(SetText(text, id, executable)) == SplitKeep(Padded(text)) + [HEADER, Assignment(id, executable)]
  {
    hide SplitKeep, Join, Padded, NoTable, HasTable, Assignment, OneLine, Fits, HEADER;
    var padded := Padded(text);
    var a := Assignment(id, executable);
    var lines := SplitKeep(padded);
    NoTableMeans(text);
    PaddedHasNoTable(text);
    PaddedEnds(text);
    SplitIsProper(padded);
    HeaderLine();
    AssignmentIs(id, executable);
    HeaderStartsWithBracket();
    NewlineBreaks();
    LineIsNotEmpty(a);
    if lines != [] {
      LastCharacter(lines);
      assert padded != "";
    } else {
      NothingJoined(padded);
    }
    ProperAround(lines, HEADER, []);
    assert lines + [HEADER] + [] == lines + [HEADER];
    ProperAround(lines + [HEADER], a, []);
    var all := lines + [HEADER, a];
    assert lines + [HEADER] + [a] + [] == all;
    SplitOfJoin(all);
    JoinConcat(lines, [HEADER, a]);
    JoinTwo(HEADER, a);
    assert padded + (HEADER + a) == padded + HEADER + a;
  }

  lemma HeaderStartsWithBracket()
    ensures HEADER != "" && HEADER[0] == '['
  {
  }

  lemma NothingJoined(text: string)
    requires SplitKeep(text) == []
    ensures text == ""
  {
    SplitIsProper(text);
  }

  lemma JoinTwo(a: string, b: string)
    ensures Join([a, b]) == a + b
  {
    assert [a, b][1..] == [b];
    JoinOne(b);
  }

  lemma NewTableFound(lines: seq<string>, id: string, line: string)
    requires forall l | l in lines :: !Fits(Table, l)
    requires !Fits(AnyHeader, line)
    ensures var all := lines + [HEADER, line];
            && HasTable(all) && TableAt(all) == |lines| && TableEnd(all) == |lines| + 2
            && KeyAt(all, id) == |lines| + if Fits(Key(id), line) then 1 else 2
  {
    hide Fits, HEADER;
    var all := lines + [HEADER, line];
    HeaderLine();
    forall j | 0 <= j < |lines| ensures !Fits(Table, all[j]) {
      assert all[j] in lines;
    }
    FindIs(all, Table, 0, |all|, |lines|);
    FindIs(all, AnyHeader, |lines| + 1, |all|, |lines| + 2);
    FindIs(all, Key(id), |lines| + 1, |all|, |lines| + if Fits(Key(id), line) then 1 else 2);
  }

  // ---------- An unended last line ----------

  predicate Blank(line: string) {
    LStrip(line) == ""
  }

  lemma UnendedHasNoBreak(line: string)
    requires OneLine(line) && !Ended(line)
    ensures BreakAt(line) == |line|
  {
  }

  lemma JoinedIsOneLine(last: string, line: string)
    requires OneLine(last) && !Ended(last) && OneLine(line) && Ended(line)
    ensures OneLine(last + line) && Ended(last + line)
  {
    hide IsLineBreak;
    UnendedHasNoBreak(last);
    var e := BreakAt(line);
    var all := last + line;
    assert forall k | 0 <= k < |last| :: all[k] == last[k];
    assert forall k | |last| <= k < |all| :: all[k] == line[k - |last|];
    BreakFound(all, |last| + e);
  }

  /** Setting appends to the last line, and leaves the other lines as they are. */
  lemma JoinedSplits(text: string, id: string, executable: string)
    requires HarnessId(id) && Joins(text, id)
    ensures var lines := SplitKeep(text);
            var a := Assignment(id, executable);
            && SetText(text, id, executable) == text + a
            && SplitKeep(text + a) == lines[..|lines| - 1] + [lines[|lines| - 1] + a]
  {
    hide SplitKeep, Join, Assignment, OneLine, Ended, Proper, TableAt;
    var lines := SplitKeep(text);
    var a := Assignment(id, executable);
    SplitIsProper(text);
    AssignmentIs(id, executable);
    NewlineEnds(a);
    assert SetLines(lines, id, a) == lines + [a];
    JoinConcat(lines, [a]);
    JoinOne(a);
    var init, last := lines[..|lines| - 1], lines[|lines| - 1];
    assert lines == init + [last];
    ProperLine(lines, |init|);
    JoinedIsOneLine(last, a);
    LastReplaced(lines, last + a);
    SplitOfJoin(init + [last + a]);
    JoinConcat(init, [last]);
    JoinConcat(init, [last + a]);
    JoinOne(last);
    JoinOne(last + a);
    assert Join(init) + (last + a) == text + a;
  }

  lemma NewlineEnds(line: string)
    requires line != "" && line[|line| - 1] == '\n'
    ensures Ended(line)
  {
  }

  /** Where a key can stand in `s` followed by an assignment: within `s`. */
  lemma KeyWithin(s: string, line: string, id: string)
    requires HarnessId(id) && s != "" && |line| > 1 && line[0] == '"' && IdChar(line[1])
    requires AssignedIn(s + line, id).Some?
    ensures AssignedIn(s, id).Some?
  {
    hide LStrip;
    var t := s + line;
    KeySpelling(t, id);
    var n := KeyLength(t, id).value;
    KeyCharacters(t, id);
    assert t[0] == s[0];
    if n <= |s| {
      assert t[..n] == s[..n] && t[n..] == s[n..] + line;
      LStripKeepsMore(s[n..], line);
      QuoteIsNoSpace(line);
      KeyLengthKept(s, line, id);
    } else {
      assert t[|s|] == line[0];
      assert |s| == |id| + 1 && n == |id| + 2;
      assert t[n..] == line[1..];
      IdIsNoSpace(line[1..]);
      assert false;
    }
  }

  /** The characters of a key: only its last, and its first, can be a quote. */
  lemma KeyCharacters(t: string, id: string)
    requires HarnessId(id) && KeyLength(t, id).Some?
    ensures var n := KeyLength(t, id).value;
            && |id| <= n <= |t| && n <= |id| + 2
            && forall i | 0 < i < n :: t[i] == '"' ==> i == |id| + 1 && n == |id| + 2
  {
    var n := KeyLength(t, id).value;
    forall i | 0 < i < n ensures t[i] == '"' ==> i == |id| + 1 && n == |id| + 2 {
      assert t[..n][i] == t[i];
      if n == |id| {
        assert IdChar(id[i]);
      } else if i <= |id| {
        assert IdChar(id[i - 1]);
      }
    }
  }

  lemma KeyLengthKept(s: string, rest: string, id: string)
    requires HarnessId(id) && s != "" && KeyLength(s + rest, id).Some? && KeyLength(s + rest, id).value <= |s|
    ensures KeyLength(s, id) == KeyLength(s + rest, id)
  {
    var t := s + rest;
    var n := KeyLength(t, id).value;
    assert t[..n] == s[..n];
    assert IdChar(id[0]);
    assert StartsWith(t, id) ==> t[0] == t[..|id|][0];
    assert StartsWith(s, id) ==> s[0] == s[..|id|][0];
    assert StartsWith(t, "\"" + id + "\"") ==> t[0] == t[..|id| + 2][0];
    assert StartsWith(s, "\"" + id + "\"") ==> s[0] == s[..|id| + 2][0];
    assert StartsWith(t, "'" + id + "'") ==> t[0] == t[..|id| + 2][0];
    assert StartsWith(s, "'" + id + "'") ==> s[0] == s[..|id| + 2][0];
  }

  lemma IdIsNoSpace(s: string)
    requires s != "" && IdChar(s[0])
    ensures LStrip(s) == s && AfterEquals(s).None?
  {
  }

  /** The joined line assigns to the id exactly if the last line was blank. */
  lemma JoinedLine(last: string, line: string, id: string)
    requires HarnessId(id) && |line| > 1 && line[0] == '"' && line[1] == id[0] && Fits(Key(id), line)
    requires !Fits(Key(id), last)
    ensures Fits(Key(id), last + line) <==> Blank(last)
    ensures Blank(last) ==> Assigned(last + line, id) == Assigned(line, id) && !Fits(AnyHeader, last + line)
  {
    hide LStrip;
    LStripKeepsMore(last, line);
    QuoteIsNoSpace(line);
    if Blank(last) {
      KeyIsNoHeader(last + line, id);
    } else if Fits(Key(id), last + line) {
      KeyWithin(LStrip(last), line, id);
    }
  }

  lemma HeaderIsNotBlank(line: string)
    ensures Fits(Table, line) ==> !Blank(line)
  {
    if Fits(Table, line) {
      TableIsHeader(line);
      HeaderStarts(line);
    }
  }

  /** With the last line changed, the table starts where it did, unless that line was its header. */
  lemma LastChangedTable(lines: seq<string>, after: seq<string>)
    requires HasTable(lines) && |after| == |lines| && after[..|lines| - 1] == lines[..|lines| - 1]
    ensures TableAt(after) >= TableAt(lines)
    ensures TableAt(lines) < |lines| - 1 ==> TableAt(after) == TableAt(lines)
  {
    hide Fits;
    var t := TableAt(lines);
    forall j | 0 <= j < t ensures !Fits(Table, after[j]) {
      NoneBefore(lines, Table, 0, |lines|, j);
      assert after[j] == after[..|lines| - 1][j] == lines[j];
    }
    if t < |lines| - 1 {
      assert after[t] == after[..|lines| - 1][t] == lines[t];
      FindIs(after, Table, 0, |after|, t);
    }
  }

  lemma LastChangedKey(lines: seq<string>, after: seq<string>, id: string)
    requires HasTable(lines) && !HasKey(lines, id) && TableEnd(lines) == |lines|
    requires |after| == |lines| && after[..|lines| - 1] == lines[..|lines| - 1]
    requires HasKey(after, id)
    ensures KeyAt(after, id) == |lines| - 1
  {
    hide Fits, TableAt;
    var k := KeyAt(after, id);
    LastChangedTable(lines, after);
    if k < |lines| - 1 {
      assert after[k] == after[..|lines| - 1][k] == lines[k];
      NoneBefore(lines, Key(id), TableAt(lines) + 1, TableEnd(lines), k);
    }
  }

  lemma LastChangedFound(lines: seq<string>, after: seq<string>, id: string)
    requires HasTable(lines) && !HasKey(lines, id) && TableEnd(lines) == |lines|
    requires |after| == |lines| && after[..|lines| - 1] == lines[..|lines| - 1]
    requires Blank(lines[|lines| - 1])
    requires Fits(Key(id), after[|lines| - 1]) && !Fits(AnyHeader, after[|lines| - 1])
    ensures HasKey(after, id)
  {
    hide Fits, TableAt, Blank;
    var t, n := TableAt(lines), |lines|;
    LastChangedTable(lines, after);
    HeaderIsNotBlank(lines[t]);
    TableThere(lines);
    forall j | t < j < n - 1
      ensures after[j] == lines[j] && !Fits(Key(id), after[j]) && !Fits(AnyHeader, after[j])
    {
      assert after[j] == after[..n - 1][j] == lines[j];
      NoneBefore(lines, Key(id), t + 1, TableEnd(lines), j);
      NoneBefore(lines, AnyHeader, t + 1, n, j);
    }
    FindIs(after, AnyHeader, t + 1, n, n);
    FindIs(after, Key(id), t + 1, n, n - 1);
  }

  lemma TableThere(lines: seq<string>)
    requires HasTable(lines)
    ensures Fits(Table, lines[TableAt(lines)])
  {
  }

  /** After setting onto an unended last line, the id is assigned exactly if that line was blank. */
  lemma JoinedFound(text: string, id: string, executable: string)
    requires HarnessId(id) && Joins(text, id)
    ensures var lines := SplitKeep(text);
            var a := Assignment(id, executable);
            var after := SplitKeep(text + a);
            && (HasKey(after, id) <==> Blank(lines[|lines| - 1]))
            && (HasKey(after, id) ==> KeyAt(after, id) == |lines| - 1
                                      && Assigned(after[|lines| - 1], id) == Assigned(a, id))
  {
    hide SplitKeep, HasTable, KeyAt, TableEnd, Assignment, Assigned, Blank, OneLine;
    var lines := SplitKeep(text);
    var last := lines[|lines| - 1];
    var a := Assignment(id, executable);
    var after := SplitKeep(text + a);
    JoinedSplits(text, id, executable);
    AssignmentIs(id, executable);
    LineIsNotEmpty(a);
    LongerThanOne(a);
    LastDoesNotAssign(lines, id);
    JoinedLine(last, a, id);
    if Blank(last) {
      LastChangedFound(lines, after, id);
    }
    if HasTable(after) && HasKey(after, id) {
      LastChangedKey(lines, after, id);
      KeyThere(after, id);
    }
  }

  lemma LongerThanOne(line: string)
    requires line != "" && line[|line| - 1] == '\n' && line[0] == '"'
    ensures |line| > 1
  {
  }

  lemma KeyThere(lines: seq<string>, id: string)
    requires HasKey(lines, id)
    ensures Fits(Key(id), lines[KeyAt(lines, id)])
  {
  }

  lemma LastDoesNotAssign(lines: seq<string>, id: string)
    requires HarnessId(id) && HasTable(lines) && !HasKey(lines, id) && TableEnd(lines) == |lines|
    ensures !Fits(Key(id), lines[|lines| - 1])
  {
    hide Fits, TableAt;
    var last := lines[|lines| - 1];
    TableThere(lines);
    if Fits(Key(id), last) {
      KeyIsNoHeader(last, id);
      TableIsHeader(last);
      NoneBefore(lines, Key(id), TableAt(lines) + 1, TableEnd(lines), |lines| - 1);
    }
  }

  // ---------- The laws ----------

  function Value(executable: string): string {
    " " + JsonString(executable) + "\n"
  }

  /** In an existing table, or a new one, the editor reads back what it set unless the line joins another. */
  lemma SetThenFound(text: string, id: string, executable: string)
    requires HarnessId(id) && !Joins(text, id)
    ensures var after := SplitKeep(SetText(text, id, executable));
            HasKey(after, id) && after[KeyAt(after, id)] == Assignment(id, executable)
  {
    hide SplitKeep, Assignment, Fits, SetLines, TableAt, KeyAt, TableEnd, OneLine, HEADER, Padded, SetText;
    var lines := SplitKeep(text);
    var a := Assignment(id, executable);
    AssignmentFits(id, executable);
    if HasTable(lines) {
      SetSplits(text, id, executable);
      SetFinds(lines, id, a);
    } else {
      NewTableSplits(text, id, executable);
      NewTableFound(SplitKeep(Padded(text)), id, a);
    }
  }

  lemma AssignmentFits(id: string, executable: string)
    requires HarnessId(id)
    ensures var a := Assignment(id, executable);
            Fits(Key(id), a) && !Fits(AnyHeader, a) && Assigned(a, id) == Some(Value(executable)) && a != ""
  {
    AssignmentIs(id, executable);
  }

  /**
   Setting reads back, for every text, exactly if the new line does not join a last line that has
   neither an end nor blank content.
   */
  lemma SetReadsBack(text: string, id: string, executable: string)
    requires HarnessId(id)
    ensures var lines := SplitKeep(text);
            Lookup(SetText(text, id, executable), id) == Some(Value(executable))
            <==> !Joins(text, id) || Blank(lines[|lines| - 1])
  {
    hide SplitKeep, Assignment, Fits, SetLines, KeyAt, TableEnd, Assigned, Blank, Value, HasTable;
    AssignmentFits(id, executable);
    if Joins(text, id) {
      JoinedSplits(text, id, executable);
      JoinedFound(text, id, executable);
    } else {
      SetThenFound(text, id, executable);
    }
  }

  lemma SetTwice(lines: seq<string>, id: string, first: string, second: string)
    requires HasTable(lines) && !Fits(AnyHeader, first) && Fits(Key(id), first)
    ensures var once := SetLines(lines, id, first);
            HasTable(once) && SetLines(once, id, second) == SetLines(lines, id, second)
  {
    hide Fits, TableAt, KeyAt, TableEnd;
    SetKeepsTable(lines, id, first);
    SetFinds(lines, id, first);
  }

  lemma SetTwiceNew(lines: seq<string>, id: string, first: string, second: string)
    requires forall l | l in lines :: !Fits(Table, l)
    requires !Fits(AnyHeader, first) && Fits(Key(id), first)
    ensures var once := lines + [HEADER, first];
            HasTable(once) && SetLines(once, id, second) == lines + [HEADER, second]
  {
    hide Fits, TableAt, KeyAt, TableEnd, HEADER;
    NewTableFound(lines, id, first);
  }

  lemma SetAgainKeeps(text: string, id: string, first: string, second: string)
    requires HarnessId(id) && !Joins(text, id)
    ensures SetText(SetText(text, id, first), id, second) == SetText(text, id, second)
  {
    hide SplitKeep, Assignment, Fits, SetLines, HasKey, TableEnd, OneLine, HEADER, Padded, Join, HasTable;
    var lines := SplitKeep(text);
    var a, b := Assignment(id, first), Assignment(id, second);
    AssignmentFits(id, first);
    if HasTable(lines) {
      SetSplits(text, id, first);
      SetTwice(lines, id, a, b);
    } else {
      var padded := SplitKeep(Padded(text));
      NewTableSplits(text, id, first);
      SetTwiceNew(padded, id, a, b);
      SplitIsProper(Padded(text));
      JoinConcat(padded, [HEADER, b]);
      JoinTwo(HEADER, b);
    }
  }

  lemma {:induction false} JoinLength(lines: seq<string>)
    ensures |Join(lines)| == Total(lines)
  {
    if lines != [] {
      JoinLength(lines[1..]);
    }
  }

  function Total(lines: seq<string>): nat {
    if lines == [] then 0 else |lines[0]| + Total(lines[1..])
  }

  lemma {:induction false} TotalConcat(xs: seq<string>, ys: seq<string>)
    ensures Total(xs + ys) == Total(xs) + Total(ys)
  {
    if xs == [] {
      assert xs + ys == ys;
    } else {
      assert (xs + ys)[1..] == xs[1..] + ys;
      TotalConcat(xs[1..], ys);
    }
  }

  /** A set that finds no assignment of its own adds at least the line. */
  lemma SetAdds(text: string, id: string, executable: string)
    requires !HasKey(SplitKeep(text), id)
    ensures |SetText(text, id, executable)| >= |text| + |Assignment(id, executable)|
  {
    hide SplitKeep, Assignment, Join, TableAt, KeyAt, TableEnd;
    var lines := SplitKeep(text);
    var a := Assignment(id, executable);
    if HasTable(lines) {
      var k := KeyAt(lines, id);
      SplitIsProper(text);
      assert lines == lines[..k] + lines[k..];
      JoinConcat(lines[..k], lines[k..]);
      JoinConcat(lines[..k] + [a], lines[k..]);
      JoinConcat(lines[..k], [a]);
      JoinOne(a);
    }
  }

  lemma SetReplacesLast(lines: seq<string>, id: string, line: string)
    requires HasKey(lines, id) && KeyAt(lines, id) == |lines| - 1
    ensures SetLines(lines, id, line) == lines[..|lines| - 1] + [line]
  {
    hide KeyAt, TableEnd, TableAt;
    assert lines[|lines|..] == [];
  }

  /** The text an unended last line is part of. */
  lemma LastSplit(text: string)
    requires SplitKeep(text) != []
    ensures var lines := SplitKeep(text);
            text == Join(lines[..|lines| - 1]) + lines[|lines| - 1] && lines[|lines| - 1] != ""
  {
    hide SplitKeep, Join, OneLine;
    var lines := SplitKeep(text);
    SplitIsProper(text);
    assert lines == lines[..|lines| - 1] + [lines[|lines| - 1]];
    JoinConcat(lines[..|lines| - 1], [lines[|lines| - 1]]);
    JoinOne(lines[|lines| - 1]);
    ProperLine(lines, |lines| - 1);
    LineIsNotEmpty(lines[|lines| - 1]);
  }

  lemma SetAgainDiffers(text: string, id: string, first: string, second: string)
    requires HarnessId(id) && Joins(text, id)
    ensures SetText(SetText(text, id, first), id, second) != SetText(text, id, second)
  {
    hide SplitKeep, Assignment, SetLines, TableEnd, KeyAt, Join, HasTable, Joins, Assigned, Blank, SetText;
    var lines := SplitKeep(text);
    var a, b := Assignment(id, first), Assignment(id, second);
    JoinsMeans(text, id);
    JoinedSplits(text, id, first);
    JoinedSplits(text, id, second);
    JoinedFound(text, id, first);
    AssignmentFits(id, first);
    var once := SplitKeep(text + a);
    if HasKey(once, id) {
      SetReplacesLast(once, id, b);
      assert once[..|lines| - 1] == lines[..|lines| - 1];
      JoinConcat(lines[..|lines| - 1], [b]);
      JoinOne(b);
      LastSplit(text);
      SetTextIs(text + a, id, second);
    } else {
      SetAdds(text + a, id, second);
    }
  }

  lemma JoinsMeans(text: string, id: string)
    requires Joins(text, id)
    ensures SplitKeep(text) != []
  {
  }

  lemma SetTextIs(text: string, id: string, executable: string)
    requires HasTable(SplitKeep(text))
    ensures SetText(text, id, executable) == Join(SetLines(SplitKeep(text), id, Assignment(id, executable)))
  {
  }

  /**
   A later set of the same id wins, as if the earlier had never been, and so setting twice is setting
   once: for every text, exactly if the first did not join an unended last line.
   */
  lemma LaterSetWins(text: string, id: string, first: string, second: string)
    requires HarnessId(id)
    ensures SetText(SetText(text, id, first), id, second) == SetText(text, id, second) <==> !Joins(text, id)
  {
    hide SetText, Joins;
    if Joins(text, id) {
      SetAgainDiffers(text, id, first, second);
    } else {
      SetAgainKeeps(text, id, first, second);
    }
  }

  /** Unsetting restores a table that did not have the id, exactly if setting did not join a line. */
  lemma UnsetRestores(text: string, id: string, executable: string)
    requires HarnessId(id) && HasTable(SplitKeep(text)) && !HasKey(SplitKeep(text), id)
    ensures UnsetText(SetText(text, id, executable), id) == (text, true) <==> !Joins(text, id)
  {
    hide SplitKeep, Assignment, SetLines, TableEnd, KeyAt, Join, HasTable, Joins, Assigned, Blank, SetText, Fits;
    var lines := SplitKeep(text);
    var a := Assignment(id, executable);
    AssignmentFits(id, executable);
    if Joins(text, id) {
      JoinedSplits(text, id, executable);
      JoinedFound(text, id, executable);
      var once := SplitKeep(text + a);
      if HasKey(once, id) {
        JoinsMeans(text, id);
        LastSplit(text);
        assert once[..|lines| - 1] + once[|lines|..] == lines[..|lines| - 1];
      }
    } else {
      SetSplits(text, id, executable);
      SetFinds(lines, id, a);
      InsertedGone(lines, id, a);
      SplitIsProper(text);
    }
  }

  lemma InsertedGone(lines: seq<string>, id: string, line: string)
    requires HasTable(lines) && !HasKey(lines, id)
    ensures var after := SetLines(lines, id, line);
            var k := KeyAt(lines, id);
            k < |after| && after[..k] + after[k + 1..] == lines
  {
    hide TableAt, TableEnd, KeyAt;
    var k := KeyAt(lines, id);
    KeyInTable(lines, id);
    assert (lines[..k] + [line] + lines[k..])[k + 1..] == lines[k..];
  }

  lemma KeyInTable(lines: seq<string>, id: string)
    requires HasTable(lines)
    ensures KeyAt(lines, id) <= TableEnd(lines) <= |lines|
  {
  }

  /** Unsetting an id that a set replaced is unsetting it without the set. */
  lemma UnsetForgets(text: string, id: string, executable: string)
    requires HarnessId(id) && HasKey(SplitKeep(text), id)
    ensures UnsetText(SetText(text, id, executable), id) == UnsetText(text, id)
  {
    hide SplitKeep, Assignment, TableEnd, KeyAt, TableAt, Join, Joins, Assigned, SetText, Fits;
    var lines := SplitKeep(text);
    var a := Assignment(id, executable);
    AssignmentFits(id, executable);
    JoinsOnlyNew(text, id);
    SetSplits(text, id, executable);
    SetFinds(lines, id, a);
    var k := KeyAt(lines, id);
    KeyInTable(lines, id);
    assert (lines[..k] + [a] + lines[k + 1..])[k + 1..] == lines[k + 1..];
    assert (lines[..k] + [a] + lines[k + 1..])[..k] == lines[..k];
  }

  lemma JoinsOnlyNew(text: string, id: string)
    requires HasKey(SplitKeep(text), id)
    ensures !Joins(text, id)
  {
  }

  // ---------- The other ids ----------

  /** A key stays the key when text follows, and its value grows by that text. */
  lemma AssignedGrows(line: string, more: string, id: string)
    requires HarnessId(id) && Fits(Key(id), line)
    ensures Assigned(line + more, id) == Some(Assigned(line, id).value + more)
  {
    hide LStrip;
    var s := LStrip(line);
    LStripKeepsMore(line, more);
    KeyLengthStays(s, more, id);
    var n := KeyLength(s, id).value;
    assert (s + more)[n..] == s[n..] + more;
    LStripKeepsMore(s[n..], more);
    var rest := LStrip(s[n..]);
    assert (rest + more)[1..] == rest[1..] + more;
  }

  lemma KeyLengthStays(s: string, more: string, id: string)
    requires HarnessId(id) && KeyLength(s, id).Some?
    ensures s != "" && KeyLength(s + more, id) == KeyLength(s, id) && KeyLength(s, id).value <= |s|
  {
    var t := s + more;
    assert StartsWith(s, "\"" + id + "\"") ==> t[..|id| + 2] == s[..|id| + 2];
    assert StartsWith(s, "'" + id + "'") ==> t[..|id| + 2] == s[..|id| + 2];
    assert StartsWith(s, id) ==> t[..|id|] == s[..|id|];
    assert s != "" by {
      assert KeyLength("", id).None?;
    }
    assert t[0] == s[0] && IdChar(id[0]);
    assert StartsWith(t, id) ==> t[0] == t[..|id|][0];
    assert StartsWith(t, "\"" + id + "\"") ==> t[0] == t[..|id| + 2][0];
    assert StartsWith(t, "'" + id + "'") ==> t[0] == t[..|id| + 2][0];
  }

  lemma AssignmentStarts(id: string, executable: string)
    requires HarnessId(id)
    ensures var a := Assignment(id, executable); |a| > 1 && a[0] == '"' && IdChar(a[1])
  {
  }

  /** Behind a line that does not assign to it, another id is not assigned by the new line either. */
  lemma JoinedAssignsNoOther(last: string, id: string, executable: string, other: string)
    requires HarnessId(id) && HarnessId(other) && id != other && !Fits(Key(other), last)
    ensures !Fits(Key(other), last + Assignment(id, executable))
  {
    hide LStrip, Assignment;
    var a := Assignment(id, executable);
    AssignmentStarts(id, executable);
    AssignmentFits(id, executable);
    LStripKeepsMore(last, a);
    QuoteIsNoSpace(a);
    if Blank(last) {
      if Fits(Key(other), a) {
        OneIdPerLine(a, id, other);
      }
    } else if Fits(Key(other), last + a) {
      KeyWithin(LStrip(last), a, other);
    }
  }

  /** With the last line changed, an earlier assignment stays where it is. */
  lemma LastChangedEarlier(lines: seq<string>, after: seq<string>, id: string)
    requires HasKey(lines, id) && KeyAt(lines, id) < |lines| - 1 && TableEnd(lines) == |lines|
    requires |after| == |lines| && after[..|lines| - 1] == lines[..|lines| - 1]
    ensures HasKey(after, id) && KeyAt(after, id) == KeyAt(lines, id)
    ensures after[KeyAt(lines, id)] == lines[KeyAt(lines, id)]
  {
    hide Fits, TableAt;
    var t, n, k := TableAt(lines), |lines|, KeyAt(lines, id);
    LastChangedTable(lines, after);
    KeyThere(lines, id);
    forall j | t < j < n - 1
      ensures after[j] == lines[j] && !Fits(AnyHeader, after[j]) && (j < k ==> !Fits(Key(id), after[j]))
    {
      assert after[j] == after[..n - 1][j] == lines[j];
      NoneBefore(lines, AnyHeader, t + 1, n, j);
      if j < k {
        NoneBefore(lines, Key(id), t + 1, TableEnd(lines), j);
      }
    }
    var end := if Fits(AnyHeader, after[n - 1]) then n - 1 else n;
    FindIs(after, AnyHeader, t + 1, n, end);
    FindIs(after, Key(id), t + 1, end, k);
  }

  /** With the last line changed, an assignment in it is found in it or not at all. */
  lemma LastChangedLast(lines: seq<string>, after: seq<string>, id: string)
    requires HasKey(lines, id) && KeyAt(lines, id) == |lines| - 1 && TableEnd(lines) == |lines|
    requires |after| == |lines| && after[..|lines| - 1] == lines[..|lines| - 1]
    ensures HasKey(after, id) ==> KeyAt(after, id) == |lines| - 1
  {
    hide Fits, TableAt;
    if HasTable(after) && HasKey(after, id) {
      var k := KeyAt(after, id);
      KeyThere(after, id);
      LastChangedTable(lines, after);
      if k < |lines| - 1 {
        assert after[k] == after[..|lines| - 1][k] == lines[k];
        NoneBefore(lines, Key(id), TableAt(lines) + 1, TableEnd(lines), k);
      }
    }
  }

  /** A set that joins the last line changes what another id is set to exactly if that line sets it. */
  lemma OthersJoined(text: string, id: string, executable: string, other: string)
    requires HarnessId(id) && HarnessId(other) && id != other && Joins(text, id)
    ensures var lines := SplitKeep(text);
            Lookup(SetText(text, id, executable), other) == Lookup(text, other)
            <==> !(HasKey(lines, other) && KeyAt(lines, other) == |lines| - 1)
  {
    hide SplitKeep, Assignment, SetLines, TableEnd, KeyAt, TableAt, Assigned, SetText, HarnessId;
    var lines := SplitKeep(text);
    var a := Assignment(id, executable);
    var after := SplitKeep(text + a);
    AssignmentFits(id, executable);
    JoinedSplits(text, id, executable);
    assert after[..|lines| - 1] == lines[..|lines| - 1];
    if !HasKey(lines, other) {
      LastDoesNotAssign(lines, other);
      JoinedAssignsNoOther(lines[|lines| - 1], id, executable, other);
      if HasTable(after) && HasKey(after, other) {
        LastChangedKey(lines, after, other);
        KeyThere(after, other);
      }
    } else if KeyAt(lines, other) < |lines| - 1 {
      LastChangedEarlier(lines, after, other);
    } else {
      KeyThere(lines, other);
      LastChangedLast(lines, after, other);
      AssignedGrows(lines[|lines| - 1], a, other);
      var value := Assigned(lines[|lines| - 1], other).value;
      assert |value + a| > |value|;
      assert Lookup(text, other) == Some(value);
    }
  }

  lemma OthersUnjoined(text: string, id: string, executable: string, other: string)
    requires HarnessId(id) && HarnessId(other) && id != other && !Joins(text, id)
    ensures Lookup(SetText(text, id, executable), other) == Lookup(text, other)
  {
    hide SplitKeep, Assignment, SetLines, TableEnd, KeyAt, TableAt, Assigned, SetText, Fits, HarnessId, HEADER,
         Padded, Joins;
    var lines := SplitKeep(text);
    var a := Assignment(id, executable);
    AssignmentFits(id, executable);
    if HasTable(lines) {
      SetSplits(text, id, executable);
      SetKeepsOthers(lines, id, a, other);
    } else {
      NewTableSplits(text, id, executable);
      if Fits(Key(other), a) {
        OneIdPerLine(a, id, other);
      }
      NewTableFound(SplitKeep(Padded(text)), other, a);
    }
  }

  /**
   A set leaves what every other id is set to, exactly if the new line does not join an unended last
   line that sets the other id.
   */
  lemma OthersKept(text: string, id: string, executable: string, other: string)
    requires HarnessId(id) && HarnessId(other) && id != other
    ensures var lines := SplitKeep(text);
            Lookup(SetText(text, id, executable), other) == Lookup(text, other)
            <==> !(Joins(text, id) && HasKey(lines, other) && KeyAt(lines, other) == |lines| - 1)
  {
    hide SplitKeep, SetText, Lookup, HarnessId, Joins, KeyAt, HasKey;
    if Joins(text, id) {
      OthersJoined(text, id, executable, other);
    } else {
      OthersUnjoined(text, id, executable, other);
    }
  }

  // ---------- What the written string means ----------

  lemma HexReads(n: nat)
    requires n < 16
    ensures HexValue(Hex(n)) == Some(n)
  {
    assert Hex(n) == if n < 10 then ('0' as int + n) as char else ('a' as int + n - 10) as char;
  }

  function UnitDigits(n: nat): (s: string)
    requires n < 0x10000
    ensures |s| == 4
  {
    [Hex(n / 4096), Hex(n / 256 % 16), Hex(n / 16 % 16), Hex(n % 16)]
  }

  lemma HexParts(n: nat)
    requires n < 0x10000
    ensures n / 4096 < 16
    ensures n == n / 4096 * 4096 + n / 256 % 16 * 256 + n / 16 % 16 * 16 + n % 16
  {
    assert n == n / 16 * 16 + n % 16;
    assert n / 16 == n / 16 / 16 * 16 + n / 16 % 16 && n / 16 / 16 == n / 256;
    assert n / 256 == n / 256 / 16 * 16 + n / 256 % 16 && n / 256 / 16 == n / 4096;
  }

  lemma DigitsRead(a: nat, b: nat, c: nat, d: nat)
    requires a < 16 && b < 16 && c < 16 && d < 16
    ensures UnitValue([Hex(a), Hex(b), Hex(c), Hex(d)]) == Some(a * 4096 + b * 256 + c * 16 + d)
  {
    hide Hex, HexValue;
    HexReads(a);
    HexReads(b);
    HexReads(c);
    HexReads(d);
  }

  lemma UnitReads(n: nat)
    requires n < 0x10000
    ensures UnitValue(UnitDigits(n)) == Some(n) && Unit(n) == "\\u" + UnitDigits(n)
  {
    hide Hex, HexValue, UnitValue;
    HexParts(n);
    DigitsRead(n / 4096, n / 256 % 16, n / 16 % 16, n % 16);
  }

  /** Outside the basic plane, where JSON takes two escapes and TOML has none for them. */
  predicate Supplementary(c: char) {
    c as int >= 0x10000
  }

  lemma UnitEscapeReads(d: Dialect, c: char, rest: string)
    requires !Supplementary(c)
    ensures Read(d, Unit(c as nat) + rest) == Prefixed(c, Read(d, rest))
  {
    hide Read, UnitValue, Unit;
    UnitReads(c as nat);
    ReadsUnit(d, UnitDigits(c as nat), rest);
    assert (c as nat) as char == c;
  }

  function High(c: char): nat
    requires Supplementary(c)
  {
    0xD800 + (c as nat - 0x10000) / 0x400 % 0x400
  }

  function Low(c: char): nat {
    0xDC00 + c as nat % 0x400
  }

  lemma PairParts(c: char)
    requires Supplementary(c)
    ensures 0xD800 <= High(c) < 0xDC00 && 0xDC00 <= Low(c) < 0xE000
    ensures 0x10000 + (High(c) - 0xD800) * 1024 + (Low(c) - 0xDC00) == c as nat
    ensures Escaped(c) == Unit(High(c)) + Unit(Low(c))
  {
    hide Unit;
    var k := c as nat - 0x10000;
    assert k / 0x400 < 0x400 && k % 0x400 == c as nat % 0x400;
    assert k == k / 0x400 * 0x400 + k % 0x400;
  }

  lemma SurrogateFails(high: nat, rest: string)
    requires 0xD800 <= high < 0xDC00
    ensures Read(Toml, Unit(high) + rest) == None
  {
    hide Read, UnitValue, Unit, UnitDigits;
    UnitReads(high);
    ReadsUnit(Toml, UnitDigits(high), rest);
  }

  lemma SurrogatesRead(high: nat, low: nat, rest: string)
    requires 0xD800 <= high < 0xDC00 && 0xDC00 <= low < 0xE000
    ensures Read(Json, Unit(high) + (Unit(low) + rest))
            == Prefixed((0x10000 + (high - 0xD800) * 1024 + (low - 0xDC00)) as char, Read(Json, rest))
  {
    hide Read, UnitValue, Unit, UnitDigits;
    UnitReads(high);
    UnitReads(low);
    ReadsPair(UnitDigits(high), UnitDigits(low), rest);
  }

  lemma PairRead(d: Dialect, c: char, pair: string, high: nat, low: nat, rest: string)
    requires 0xD800 <= high < 0xDC00 && 0xDC00 <= low < 0xE000
    requires 0x10000 + (high - 0xD800) * 1024 + (low - 0xDC00) == c as nat
    requires pair == Unit(high) + Unit(low)
    ensures Read(d, pair + rest) == if d == Toml then None else Prefixed(c, Read(d, rest))
  {
    hide Read, UnitValue, Unit, Prefixed;
    assert pair + rest == Unit(high) + (Unit(low) + rest);
    if d == Toml {
      SurrogateFails(high, Unit(low) + rest);
    } else {
      SurrogatesRead(high, low, rest);
      assert (c as nat) as char == c;
    }
  }

  lemma PairEscapeReads(d: Dialect, c: char, rest: string)
    requires Supplementary(c)
    ensures Read(d, Escaped(c) + rest) == if d == Toml then None else Prefixed(c, Read(d, rest))
  {
    hide Read, UnitValue, Unit, Escaped, High, Low, Prefixed;
    PairParts(c);
    PairRead(d, c, Escaped(c), High(c), Low(c), rest);
  }

  /** One character is read back, by JSON always, by TOML unless it is supplementary. */
  lemma EscapedReads(d: Dialect, c: char, rest: string)
    ensures Read(d, Escaped(c) + rest) == if d == Toml && Supplementary(c) then None else Prefixed(c, Read(d, rest))
  {
    hide Read, Unit;
    if Supplementary(c) {
      PairEscapeReads(d, c, rest);
    } else if ' ' <= c <= '~' && c != '"' && c != '\\' {
      ReadsRaw(d, c, rest);
    } else if c == '"' || c == '\\' {
      ReadsShort(d, c, rest);
    } else if c == '\n' {
      ReadsShort(d, 'n', rest);
    } else if c == '\r' {
      ReadsShort(d, 'r', rest);
    } else if c == '\t' {
      ReadsShort(d, 't', rest);
    } else if c as int == 8 {
      ReadsShort(d, 'b', rest);
    } else if c as int == 12 {
      ReadsShort(d, 'f', rest);
    } else {
      UnitEscapeReads(d, c, rest);
    }
  }

  predicate AnySupplementary(s: string) {
    exists k | 0 <= k < |s| :: Supplementary(s[k])
  }

  lemma {:induction false} TextReads(d: Dialect, s: string, rest: string)
    ensures Read(d, EscapedText(s) + ("\"" + rest))
            == if d == Toml && AnySupplementary(s) then None else Some((s, rest))
  {
    hide Read, Escaped, Supplementary;
    if s == "" {
      assert EscapedText(s) + ("\"" + rest) == "\"" + rest;
      ReadsEnd(d, rest);
    } else {
      var more := EscapedText(s[1..]) + ("\"" + rest);
      assert EscapedText(s) + ("\"" + rest) == Escaped(s[0]) + more;
      EscapedReads(d, s[0], more);
      TextReads(d, s[1..], rest);
      assert AnySupplementary(s) <==> Supplementary(s[0]) || AnySupplementary(s[1..]) by {
        assert forall k | 0 <= k < |s[1..]| :: s[1..][k] == s[k + 1];
      }
      assert [s[0]] + s[1..] == s;
    }
  }

  /** A JSON reader undoes the written string, for every path; a TOML reader does exactly if no character of
      the path is supplementary. */
  lemma StringReadsBack(executable: string)
    ensures ReadWhole(Json, JsonString(executable)) == Some(executable)
    ensures ReadWhole(Toml, JsonString(executable)) == if AnySupplementary(executable) then None else Some(executable)
  {
    hide Read, AnySupplementary;
    TextReads(Json, executable, "");
    TextReads(Toml, executable, "");
    assert "\"" + "" == "\"";
    var body := EscapedText(executable);
    assert JsonString(executable)[1..] == body + "\"";
  }

  /** The path that a TOML reader finds configured: the value of the assignment, without its line end. */
  function Configured(text: string, id: string): Option<string> {
    match Lookup(text, id)
    case None => None
    case Some(value) =>
      if |value| < 2 || value[0] != ' ' || value[|value| - 1] != '\n' then None
      else ReadWhole(Toml, value[1..|value| - 1])
  }

  /** Whatever the text was, a set that joins no line, or a blank one, configures exactly the given path, if and
      only if the path has no supplementary character: those are written as two escapes, which TOML does not
      know. */
  lemma SetConfigures(text: string, id: string, executable: string)
    requires HarnessId(id) && (!Joins(text, id) || Blank(SplitKeep(text)[|SplitKeep(text)| - 1]))
    ensures Configured(SetText(text, id, executable), id)
            == if AnySupplementary(executable) then None else Some(executable)
  {
    hide SetText, Lookup, HarnessId, ReadWhole, JsonString, AnySupplementary, SplitKeep, Blank;
    SetReadsBack(text, id, executable);
    StringReadsBack(executable);
    var value := Value(executable);
    assert value[1..|value| - 1] == JsonString(executable);
  }

  /** A file that is just a table header, without a newline: whatever is set there is lost. */
  lemma UnendedHeaderLosesTheSet(text: string, id: string, executable: string)
    requires HarnessId(id) && OneLine(text) && !Ended(text) && Fits(Table, text)
    ensures Joins(text, id) && Lookup(SetText(text, id, executable), id) != Some(Value(executable))
  {
    hide Fits, OneLine, Ended, Lookup, SetText, Join, SplitKeep, Blank, Value;
    SplitOfJoin([text]);
    JoinOne(text);
    FindIs([text], Table, 0, 1, 0);
    HeaderIsNotBlank(text);
    SetReadsBack(text, id, executable);
  }

  lemma NamedHeader(name: string)
    requires ']' !in name && name != ""
    ensures HeaderName("[" + name + "]") == Some(name)
  {
    hide HeaderIn, IsSpace;
    HeaderRead(name);
    BracketIsNoSpace("[" + name + "]");
  }

  lemma BareHeaderIsTable()
    ensures Fits(Table, "[executables]")
  {
    hide HeaderName, Strip;
    NamedHeader("executables");
    assert "[" + "executables" + "]" == "[executables]";
    NameIsStripped();
  }

  lemma UnbrokenIsUnended(text: string)
    requires text != "" && forall i | 0 <= i < |text| :: !IsLineBreak(text[i])
    ensures OneLine(text) && !Ended(text)
  {
    hide IsLineBreak;
    BreakFound(text, |text|);
  }

  /** Such a file exists. */
  lemma BareHeader()
    ensures var text := "[executables]"; OneLine(text) && !Ended(text) && Fits(Table, text)
  {
    hide Fits, OneLine, Ended, IsLineBreak;
    var text := "[executables]";
    BareHeaderIsTable();
    PrintableHasNoBreak(text);
    UnbrokenIsUnended(text);
  }
}
