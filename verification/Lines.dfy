/** `str.splitlines(keepends=True)` and `"".join`: a text as the list of its lines, ends included. */
module Lines {
  import opened Text

  /** The length of the first line, its end included. */
  function FirstLine(t: string): (n: nat)
    ensures n <= |t| && (t != "" ==> n > 0)
  {
    var e := BreakAt(t);
    if e == |t| then e
    else if t[e] == '\r' && e + 1 < |t| && t[e + 1] == '\n' then e + 2 else e + 1
  }

  function SplitKeep(t: string): seq<string>
    decreases |t|
  {
    if t == "" then [] else [t[..FirstLine(t)]] + SplitKeep(t[FirstLine(t)..])
  }

  function Join(lines: seq<string>): string {
    if lines == [] then "" else lines[0] + Join(lines[1..])
  }

  predicate Ended(line: string) {
    line != "" && IsLineBreak(line[|line| - 1])
  }

  predicate OneLine(line: string) {
    line != "" && FirstLine(line) == |line|
  }

  /** `a` can stand before `b`: it is ended, and the two do not meet in a carriage return and newline. */
  predicate Meets(a: string, b: string) {
    Ended(a) && b != "" && !(a[|a| - 1] == '\r' && b[0] == '\n')
  }

  /** The lists of lines that splitting can give. */
  predicate Proper(lines: seq<string>) {
    && (forall i | 0 <= i < |lines| :: OneLine(lines[i]))
    && forall i | 0 <= i < |lines| - 1 :: Meets(lines[i], lines[i + 1])
  }

  lemma {:induction false} BreakFound(t: string, e: nat)
    requires e <= |t| && (forall k | 0 <= k < e :: !IsLineBreak(t[k])) && (e < |t| ==> IsLineBreak(t[e]))
    ensures BreakAt(t) == e
  {
    hide IsLineBreak;
    if e > 0 {
      BreakFound(t[1..], e - 1);
    }
  }

  /** What follows a line does not change where it ends. */
  lemma FirstLineKept(line: string, rest: string)
    requires OneLine(line) && (rest == "" || Meets(line, rest))
    ensures FirstLine(line + rest) == |line|
  {
    hide IsLineBreak;
    var t := line + rest;
    var e := BreakAt(line);
    if rest == "" {
      assert t == line;
    } else {
      assert e < |line|;
      assert forall k | 0 <= k < e :: t[k] == line[k];
      BreakFound(t, e);
    }
  }

  lemma NewlineBreaks()
    ensures IsLineBreak('\n')
  {
  }

  lemma FirstLineIsOne(t: string)
    requires t != ""
    ensures OneLine(t[..FirstLine(t)])
    ensures FirstLine(t) < |t| ==> Meets(t[..FirstLine(t)], t[FirstLine(t)..])
  {
    hide IsLineBreak;
    var n := FirstLine(t);
    var line := t[..n];
    var e := BreakAt(t);
    assert forall k | 0 <= k < |line| :: line[k] == t[k];
    NewlineBreaks();
    BreakFound(line, e);
  }

  /** Splitting gives a proper list, and joining it gives the text back. */
  lemma {:induction false} SplitIsProper(t: string)
    ensures Proper(SplitKeep(t)) && Join(SplitKeep(t)) == t
    decreases |t|
  {
    hide FirstLine, OneLine, Meets;
    if t != "" {
      var n := FirstLine(t);
      FirstLineIsOne(t);
      SplitIsProper(t[n..]);
      assert t == t[..n] + t[n..];
      if n < |t| {
        var next := FirstLine(t[n..]);
        MeetsPrefix(t[..n], t[n..], next);
      }
    }
  }

  lemma MeetsPrefix(a: string, b: string, n: nat)
    requires Meets(a, b) && 0 < n <= |b|
    ensures Meets(a, b[..n])
  {
  }

  lemma MeetsLonger(a: string, b: string, rest: string)
    requires Meets(a, b)
    ensures Meets(a, b + rest)
  {
  }

  /** Any proper list is what splitting its text gives. */
  lemma {:induction false} SplitOfJoin(lines: seq<string>)
    requires Proper(lines)
    ensures SplitKeep(Join(lines)) == lines
  {
    hide FirstLine, Meets;
    if lines != [] {
      var rest := lines[1..];
      SplitOfJoin(rest);
      if rest != [] {
        assert rest[0] == lines[1];
        MeetsLonger(lines[0], rest[0], Join(rest[1..]));
      }
      FirstLineKept(lines[0], Join(rest));
      assert Join(lines)[..|lines[0]|] == lines[0] && Join(lines)[|lines[0]|..] == Join(rest);
      assert lines == [lines[0]] + rest;
    }
  }

  lemma {:induction false} JoinConcat(xs: seq<string>, ys: seq<string>)
    ensures Join(xs + ys) == Join(xs) + Join(ys)
  {
    if xs == [] {
      assert xs + ys == ys;
    } else {
      assert (xs + ys)[1..] == xs[1..] + ys;
      JoinConcat(xs[1..], ys);
    }
  }

  lemma JoinOne(line: string)
    ensures Join([line]) == line
  {
    assert [line][1..] == [];
  }

  /** Two proper lists that meet form one. */
  lemma ProperConcat(xs: seq<string>, ys: seq<string>)
    requires Proper(xs) && Proper(ys)
    requires xs != [] && ys != [] ==> Meets(xs[|xs| - 1], ys[0])
    ensures Proper(xs + ys)
  {
    hide OneLine, Meets;
  }

  lemma ProperParts(lines: seq<string>, i: nat, j: nat)
    requires Proper(lines) && i <= j <= |lines|
    ensures Proper(lines[i..j])
  {
    hide OneLine, Meets;
  }
}
