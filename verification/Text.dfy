/** Python text primitives that several models share: `str.strip`, line starts, line ends. */
module Text {
  import opened Wrappers

  /** Which characters are decimal digits, and their values: the Unicode table of `\d` and `int`. */
  type Digits = char -> Option<nat>

  ghost predicate DigitTable(d: Digits) {
    && (forall c :: d(c).Some? ==> d(c).value < 10)
    && (forall c | c as int < 128 :: d(c) == if '0' <= c <= '9' then Some(c as nat - '0' as nat) else None)
  }

  lemma DotIsNoDigit(d: Digits)
    requires DigitTable(d)
    ensures d('.').None?
  {
  }

  predicate AllDigits(d: Digits, s: string) {
    forall k | 0 <= k < |s| :: d(s[k]).Some?
  }

  /** Where the run of digits from a position ends. */
  function RunEnd(d: Digits, t: string, i: nat): (e: nat)
    requires i <= |t|
    ensures i <= e <= |t| && AllDigits(d, t[i..e])
    ensures e < |t| ==> d(t[e]).None?
    decreases |t| - i
  {
    if i == |t| || d(t[i]).None? then i
    else
      var e := RunEnd(d, t, i + 1);
      assert t[i..e] == [t[i]] + t[i + 1..e];
      e
  }

  lemma {:induction false} RunEndIs(d: Digits, t: string, i: nat, e: nat)
    requires i <= e <= |t| && AllDigits(d, t[i..e]) && (e < |t| ==> d(t[e]).None?)
    ensures RunEnd(d, t, i) == e
    decreases e - i
  {
    if i < e {
      assert t[i..e][0] == t[i];
      assert t[i + 1..e] == t[i..e][1..];
      RunEndIs(d, t, i + 1, e);
    }
  }

  function DigitsValue(d: Digits, s: string): nat
    requires AllDigits(d, s)
  {
    if s == "" then 0 else 10 * DigitsValue(d, s[..|s| - 1]) + d(s[|s| - 1]).value
  }

  /** The characters that `str.strip` and the regular-expression class `\s` treat as white space. */
  predicate IsSpace(c: char) {
    var k := c as int;
    || 9 <= k <= 13 || 28 <= k <= 32 || k == 0x85 || k == 0xA0 || k == 0x1680
    || 0x2000 <= k <= 0x200A || k == 0x2028 || k == 0x2029 || k == 0x202F || k == 0x205F || k == 0x3000
  }

  function LStrip(t: string): string {
    if t != "" && IsSpace(t[0]) then LStrip(t[1..]) else t
  }

  function RStrip(t: string): string {
    if t != "" && IsSpace(t[|t| - 1]) then RStrip(t[..|t| - 1]) else t
  }

  function Strip(t: string): string {
    RStrip(LStrip(t))
  }

  predicate Stripped(t: string) {
    t != "" ==> !IsSpace(t[0]) && !IsSpace(t[|t| - 1])
  }

  /** A position where `^` matches in multi-line mode. */
  predicate LineStart(t: string, i: nat) {
    i <= |t| && (i == 0 || t[i - 1] == '\n')
  }

  /** `w` stands at the line start `i`. */
  predicate MarkAt(t: string, i: nat, w: string) {
    LineStart(t, i) && w <= t[i..]
  }

  /** Where the line that contains position `i` ends: its newline, or the end of the text. */
  function LineEnd(t: string, i: nat): (e: nat)
    requires i <= |t|
    ensures i <= e <= |t|
    ensures '\n' !in t[i..e]
    ensures e < |t| ==> t[e] == '\n'
    decreases |t| - i
  {
    if i == |t| || t[i] == '\n' then i
    else
      var e := LineEnd(t, i + 1);
      assert t[i..e] == [t[i]] + t[i + 1..e];
      e
  }

  /** The non-blank lines of a text, each without its surrounding white space. */
  function TrimmedLines(t: string): seq<string>
    decreases |t|
  {
    if t == "" then []
    else
      var e := LineEnd(t, 0);
      Trimmed(t[..e]) + (if e == |t| then [] else TrimmedLines(t[e + 1..]))
  }

  function Trimmed(line: string): seq<string> {
    if Strip(line) == "" then [] else [Strip(line)]
  }

  /** The characters at which `str.splitlines` breaks. */
  predicate IsLineBreak(c: char) {
    var k := c as int;
    10 <= k <= 13 || 28 <= k <= 30 || k == 0x85 || k == 0x2028 || k == 0x2029
  }

  function BreakAt(t: string): (e: nat)
    ensures e <= |t|
    ensures forall k :: 0 <= k < e ==> !IsLineBreak(t[k])
    ensures e < |t| ==> IsLineBreak(t[e])
  {
    if t == "" || IsLineBreak(t[0]) then 0 else 1 + BreakAt(t[1..])
  }

  predicate StartsWith(s: string, prefix: string) {
    |prefix| <= |s| && s[..|prefix|] == prefix
  }

  /** A number in decimal notation. */
  function Decimal(n: nat): string {
    if n < 10 then ["0123456789"[n]] else Decimal(n / 10) + ["0123456789"[n % 10]]
  }

  /** Where an element stands first; the length if it does not occur. */
  function IndexOf<T(==)>(s: seq<T>, c: T): (e: nat)
    ensures e <= |s| && (e < |s| ==> s[e] == c)
  {
    if s == [] || s[0] == c then 0 else 1 + IndexOf(s[1..], c)
  }

  /** `str.split` on one element. */
  function SplitOn<T(==)>(s: seq<T>, c: T): (parts: seq<seq<T>>)
    ensures parts != []
    decreases |s|
  {
    var e := IndexOf(s, c);
    if e == |s| then [s] else [s[..e]] + SplitOn(s[e + 1..], c)
  }

  lemma {:induction false} IndexIs<T>(head: seq<T>, c: T, tail: seq<T>)
    requires c !in head && (tail == [] || tail[0] == c)
    ensures IndexOf(head + tail, c) == |head|
  {
    if head == [] {
      assert head + tail == tail;
    } else {
      assert head[0] in head && (head + tail)[1..] == head[1..] + tail;
      IndexIs(head[1..], c, tail);
    }
  }

  lemma SplitOne<T>(a: seq<T>, c: T)
    requires c !in a
    ensures SplitOn(a, c) == [a]
  {
    assert a + [] == a;
    IndexIs(a, c, []);
  }

  lemma SplitTwo<T>(a: seq<T>, c: T, b: seq<T>)
    requires c !in a && c !in b
    ensures SplitOn(a + [c] + b, c) == [a, b]
  {
    hide IndexOf;
    var text := a + [c] + b;
    assert text == a + ([c] + b);
    IndexIs(a, c, [c] + b);
    assert text[..|a|] == a && text[|a| + 1..] == b;
    SplitOne(b, c);
  }

  // ---------- Strip ----------

  lemma {:induction false} RStripEnds(t: string)
    ensures RStrip(t) <= t
    ensures RStrip(t) != "" ==> !IsSpace(RStrip(t)[|RStrip(t)| - 1])
  {
    if t != "" && IsSpace(t[|t| - 1]) {
      RStripEnds(t[..|t| - 1]);
    }
  }

  lemma {:induction false} LStripEnds(t: string)
    ensures LStrip(t) != "" ==> !IsSpace(LStrip(t)[0])
  {
    if t != "" && IsSpace(t[0]) {
      LStripEnds(t[1..]);
    }
  }

  lemma StripStrips(t: string)
    ensures Stripped(Strip(t))
  {
    LStripEnds(t);
    RStripEnds(LStrip(t));
  }

  lemma StripOfStripped(t: string)
    requires Stripped(t)
    ensures Strip(t) == t
  {
  }

  /** Blank padding after a stripped text goes away. */
  lemma {:induction false} StripPadding(t: string, pad: string)
    requires Stripped(t)
    requires forall c :: c in pad ==> IsSpace(c)
    ensures Strip(t + pad) == t
    decreases |pad|
  {
    hide IsSpace;
    if pad == "" {
      assert t + pad == t;
    } else {
      var shorter := pad[..|pad| - 1];
      StripPadding(t, shorter);
      if t == "" {
        assert t + pad == pad;
        AllSpace(pad);
      } else {
        assert LStrip(t + pad) == t + pad;
        assert LStrip(t + shorter) == t + shorter;
        assert (t + pad)[..|t + pad| - 1] == t + shorter;
        assert (t + pad)[|t + pad| - 1] == pad[|pad| - 1];
        assert pad[|pad| - 1] in pad;
      }
    }
  }

  lemma {:induction false} AllSpace(t: string)
    requires forall c :: c in t ==> IsSpace(c)
    ensures LStrip(t) == "" && Strip(t) == ""
  {
    hide IsSpace;
    if t != "" {
      assert t[0] in t;
      AllSpace(t[1..]);
    }
  }

  // ---------- Trimmed lines ----------

  lemma {:induction false} LineEndIs(t: string, i: nat, e: nat)
    requires i <= e <= |t| && '\n' !in t[i..e] && (e < |t| ==> t[e] == '\n')
    ensures LineEnd(t, i) == e
    decreases e - i
  {
    if i < e {
      assert t[i..e][0] == t[i];
      assert t[i + 1..e] == t[i..e][1..];
      LineEndIs(t, i + 1, e);
    }
  }

  /** The first line of a text that has a newline at `e`. */
  lemma TrimmedLinesFirst(t: string, e: nat)
    requires e < |t| && t[e] == '\n' && '\n' !in t[..e]
    ensures TrimmedLines(t) == Trimmed(t[..e]) + TrimmedLines(t[e + 1..])
  {
    assert t[0..e] == t[..e];
    LineEndIs(t, 0, e);
  }

  lemma LineEndInside(t: string)
    requires t != "" && t[|t| - 1] == '\n'
    ensures LineEnd(t, 0) < |t|
  {
    assert t[0..|t|] == t;
  }

  /** Texts joined at a line start keep their lines. */
  lemma {:induction false} TrimmedLinesJoin(a: string, b: string)
    requires LineStart(a + b, |a|)
    ensures TrimmedLines(a + b) == TrimmedLines(a) + TrimmedLines(b)
    decreases |a|
  {
    hide TrimmedLines, Trimmed;
    if a == "" {
      assert a + b == b;
      NoLines();
    } else {
      assert a[|a| - 1] == (a + b)[|a| - 1] == '\n';
      LineEndInside(a);
      var e := LineEnd(a, 0);
      var rest := a[e + 1..];
      assert a[0..e] == a[..e];
      assert (a + b)[..e] == a[..e];
      assert (a + b)[e + 1..] == rest + b;
      TrimmedLinesFirst(a, e);
      TrimmedLinesFirst(a + b, e);
      assert rest != "" ==> (rest + b)[|rest| - 1] == a[|a| - 1];
      TrimmedLinesJoin(rest, b);
    }
  }

  lemma NoLines()
    ensures TrimmedLines("") == []
  {
  }

  lemma StripLeading(c: char, t: string)
    requires IsSpace(c)
    ensures Strip([c] + t) == Strip(t)
  {
    assert ([c] + t)[1..] == t;
  }

  lemma {:induction false} StripTrailing(t: string, c: char)
    requires IsSpace(c)
    ensures Strip(t + [c]) == Strip(t)
    decreases |t|
  {
    hide IsSpace;
    if t == "" {
      assert t + [c] == [c];
      AllSpace([c]);
    } else if IsSpace(t[0]) {
      StripTrailing(t[1..], c);
      assert (t + [c])[1..] == t[1..] + [c];
    } else {
      assert (t + [c])[..|t|] == t;
    }
  }

  /** A leading white-space character changes no trimmed line. */
  lemma TrimmedNothing()
    ensures Trimmed("") == []
  {
  }

  lemma {:induction false} TrimmedLinesLeading(c: char, t: string)
    requires IsSpace(c)
    ensures TrimmedLines([c] + t) == TrimmedLines(t)
  {
    hide IsSpace, Strip;
    var u := [c] + t;
    if c == '\n' {
      LineEndIs(u, 0, 0);
      assert u[0 + 1..] == t && u[..0] == "";
      TrimmedNothing();
    } else {
      var e := LineEnd(t, 0);
      assert u[0..e + 1] == [c] + t[0..e];
      LineEndIs(u, 0, e + 1);
      assert u[..e + 1] == [c] + t[..e];
      StripLeading(c, t[..e]);
      if t == "" {
        AllSpace([c]);
        assert u == [c];
      } else if e < |t| {
        assert u[e + 2..] == t[e + 1..];
      }
    }
  }

  /** A trailing white-space character changes no trimmed line. */
  lemma {:induction false} TrimmedLinesTrailing(t: string, c: char)
    requires IsSpace(c)
    ensures TrimmedLines(t + [c]) == TrimmedLines(t)
    decreases |t|
  {
    hide IsSpace;
    var u := t + [c];
    var e := LineEnd(t, 0);
    if e < |t| {
      assert u[0..e] == t[0..e];
      LineEndIs(u, 0, e);
      assert u[..e] == t[..e];
      assert u[e + 1..] == t[e + 1..] + [c];
      TrimmedLinesTrailing(t[e + 1..], c);
    } else {
      assert t[0..e] == t && t[..e] == t;
      if c == '\n' {
        assert u[0..e] == t;
        LineEndIs(u, 0, e);
        assert u[..e] == t && u[e + 1..] == "";
        assert Trimmed("") == [];
      } else {
        assert u[0..e + 1] == u && u[..e + 1] == u;
        LineEndIs(u, 0, e + 1);
        StripTrailing(t, c);
        assert Trimmed("") == [];
      }
    }
  }

  lemma {:induction false} TrimmedLinesLStrip(t: string)
    ensures TrimmedLines(LStrip(t)) == TrimmedLines(t)
  {
    hide IsSpace, TrimmedLines;
    if t != "" && IsSpace(t[0]) {
      TrimmedLinesLStrip(t[1..]);
      TrimmedLinesLeading(t[0], t[1..]);
      assert t == [t[0]] + t[1..];
    }
  }

  lemma {:induction false} TrimmedLinesRStrip(t: string)
    ensures TrimmedLines(RStrip(t)) == TrimmedLines(t)
    decreases |t|
  {
    hide IsSpace, TrimmedLines;
    if t != "" && IsSpace(t[|t| - 1]) {
      var shorter := t[..|t| - 1];
      TrimmedLinesRStrip(shorter);
      TrimmedLinesTrailing(shorter, t[|t| - 1]);
      assert t == shorter + [t[|t| - 1]];
    }
  }

  lemma TrimmedLinesStrip(t: string)
    ensures TrimmedLines(Strip(t)) == TrimmedLines(t)
  {
    TrimmedLinesLStrip(t);
    TrimmedLinesRStrip(LStrip(t));
  }
}
