/**
 The release version and its Python spelling. Follows `release_identity` in scripts/release.py (with
 copies in scripts/release_guard.py, scripts/verify_release_artifacts.py and
 scripts/audit_repository_literals.py) and `_python_release_version` in scripts/check_docs.py.

 The two orderings are section 11 of Semantic Versioning 2.0.0 and the ordering of PEP 440 for final
 and pre-releases, each over the same digits.
 */
module ReleaseVersion {
  import opened Wrappers
  import opened Text

  datatype Stage = Alpha | Beta | Rc {
    function Name(): string {
      match this
      case Alpha => "alpha"
      case Beta => "beta"
      case Rc => "rc"
    }

    function Python(): string {
      match this
      case Alpha => "a"
      case Beta => "b"
      case Rc => "rc"
    }
  }

  datatype Pre = Pre(stage: Stage, number: string)

  /** The groups of the version pattern. */
  datatype Parts = Parts(major: string, minor: string, patch: string, pre: Option<Pre>)

  datatype Identity = Identity(version: string, python: string, tag: string)

  predicate Digit(d: Digits, c: char) {
    d(c).Some?
  }

  predicate Number(d: Digits, s: string) {
    s != "" && AllDigits(d, s)
  }

  predicate Positive(d: Digits, s: string) {
    Number(d, s) && '1' <= s[0] <= '9'
  }

  ghost predicate WellFormed(d: Digits, p: Parts) {
    && Number(d, p.major) && Number(d, p.minor) && Number(d, p.patch)
    && (p.pre.Some? ==>
          && |p.pre.value.number| > 0 && AllDigits(d, p.pre.value.number)
          && p.pre.value.number[0] in {'1', '2', '3', '4', '5', '6', '7', '8', '9'})
  }

  function Base(p: Parts): string {
    p.major + "." + p.minor + "." + p.patch
  }

  function Version(p: Parts): string {
    Base(p) + match p.pre
              case None => ""
              case Some(pre) => "-" + pre.stage.Name() + "." + pre.number
  }

  function Spelling(p: Parts): string {
    Base(p) + match p.pre
              case None => ""
              case Some(pre) => pre.stage.Python() + pre.number
  }

  // ---------- The version pattern ----------

  /** The leading run of digits, and what follows it. */
  function TakeDigits(d: Digits, s: string): (r: (string, string))
    ensures r.0 + r.1 == s
    ensures AllDigits(d, r.0)
    ensures r.1 == "" || !Digit(d, r.1[0])
  {
    var n := RunEnd(d, s, 0);
    assert s[0..n] == s[..n];
    (s[..n], s[n..])
  }

  function MatchNumber(d: Digits, s: string, stage: Stage): Option<Option<Pre>> {
    var (number, rest) := TakeDigits(d, s);
    if Positive(d, number) && rest == "" then Some(Some(Pre(stage, number))) else None
  }

  /** The optional suffix up to the end: `None` if it does not match. */
  function MatchPre(d: Digits, s: string): Option<Option<Pre>> {
    if s == "" then Some(None)
    else if StartsWith(s, "-alpha.") then MatchNumber(d, s[7..], Alpha)
    else if StartsWith(s, "-beta.") then MatchNumber(d, s[6..], Beta)
    else if StartsWith(s, "-rc.") then MatchNumber(d, s[4..], Rc)
    else None
  }

  function Match(d: Digits, version: string): Option<Parts> {
    var (major, rest1) := TakeDigits(d, version);
    if major == "" || rest1 == "" || rest1[0] != '.' then None
    else
      var (minor, rest2) := TakeDigits(d, rest1[1..]);
      if minor == "" || rest2 == "" || rest2[0] != '.' then None
      else
        var (patch, rest3) := TakeDigits(d, rest2[1..]);
        if patch == "" then None
        else
          var pre := MatchPre(d, rest3);
          if pre.None? then None else Some(Parts(major, minor, patch, pre.value))
  }

  function ReleaseIdentity(d: Digits, version: string): Result<Identity, ()> {
    match Match(d, version)
    case None => Failure(())
    case Some(p) => Success(Identity(version, Spelling(p), "v" + version))
  }

  lemma DigitsTaken(d: Digits, run: string, rest: string)
    requires AllDigits(d, run)
    requires rest == "" || !Digit(d, rest[0])
    ensures TakeDigits(d, run + rest) == (run, rest)
  {
    var s := run + rest;
    assert s[0..|run|] == run && s[|run|..] == rest;
    RunEndIs(d, s, 0, |run|);
  }

  lemma NumberTaken(d: Digits, number: string, stage: Stage)
    requires DigitTable(d)
    requires Positive(d, number)
    ensures MatchNumber(d, number, stage) == Some(Some(Pre(stage, number)))
  {
    assert number + "" == number;
    DigitsTaken(d, number, "");
  }

  lemma {:induction false} PreMatched(d: Digits, pre: Pre)
    requires DigitTable(d)
    requires Positive(d, pre.number)
    ensures MatchPre(d, "-" + pre.stage.Name() + "." + pre.number) == Some(Some(pre))
  {
    hide MatchNumber, Positive, DigitTable;
    var s := "-" + pre.stage.Name() + "." + pre.number;
    NumberTaken(d, pre.number, pre.stage);
    match pre.stage
    case Alpha =>
      assert s == "-alpha." + pre.number;
    case Beta =>
      assert s == "-beta." + pre.number;
      assert s[1] == 'b';
    case Rc =>
      assert s == "-rc." + pre.number;
      assert s[1] == 'r';
  }

  lemma {:induction false} BaseMatched(d: Digits, p: Parts, rest: string)
    requires DigitTable(d)
    requires Number(d, p.major) && Number(d, p.minor) && Number(d, p.patch)
    requires rest == "" || !Digit(d, rest[0])
    requires MatchPre(d, rest) == Some(p.pre)
    ensures Match(d, Base(p) + rest) == Some(p)
  {
    hide MatchPre, TakeDigits, DigitTable;
    DotIsNoDigit(d);
    var tail2 := "." + p.patch + rest;
    var tail1 := "." + p.minor + tail2;
    assert Base(p) + rest == p.major + tail1;
    DigitsTaken(d, p.major, tail1);
    assert tail1[1..] == p.minor + tail2;
    DigitsTaken(d, p.minor, tail2);
    assert tail2[1..] == p.patch + rest;
    DigitsTaken(d, p.patch, rest);
  }

  /** The pattern accepts every well-formed version and reads its parts back. */
  lemma MatchReadsBack(d: Digits, p: Parts)
    requires DigitTable(d)
    requires WellFormed(d, p)
    ensures Match(d, Version(p)) == Some(p)
  {
    match p.pre
    case None =>
      BaseMatched(d, p, "");
    case Some(pre) =>
      PreMatched(d, pre);
      BaseMatched(d, p, "-" + pre.stage.Name() + "." + pre.number);
  }

  lemma MatchedNumber(d: Digits, s: string, stage: Stage)
    ensures MatchNumber(d, s, stage).Some? ==> MatchNumber(d, s, stage).value == Some(Pre(stage, s)) && Positive(d, s)
  {
    hide Positive;
    var (number, rest) := TakeDigits(d, s);
    assert rest == "" ==> number == number + rest == s;
  }

  lemma {:induction false} MatchedPre(d: Digits, s: string)
    requires MatchPre(d, s).Some?
    ensures match MatchPre(d, s).value
            case None => s == ""
            case Some(pre) => Positive(d, pre.number) && s == "-" + pre.stage.Name() + "." + pre.number
  {
    hide MatchNumber, Positive;
    if |s| >= 4 {
      MatchedNumber(d, s[4..], Rc);
    }
    if |s| >= 6 {
      MatchedNumber(d, s[6..], Beta);
    }
    if |s| >= 7 {
      MatchedNumber(d, s[7..], Alpha);
    }
    if s != "" {
      var pre := MatchPre(d, s).value.value;
      assert s == ("-" + pre.stage.Name() + ".") + pre.number by {
        match pre.stage
        case Alpha => assert s == s[..7] + s[7..];
        case Beta => assert s == s[..6] + s[6..];
        case Rc => assert s == s[..4] + s[4..];
      }
    }
  }

  lemma Rejoined(version: string, a: string, rest1: string, b: string, rest2: string, c: string, rest3: string)
    requires version == a + rest1
    requires rest1 != "" && rest1[0] == '.' && rest1[1..] == b + rest2
    requires rest2 != "" && rest2[0] == '.' && rest2[1..] == c + rest3
    ensures version == a + "." + b + "." + c + rest3
  {
    assert rest1 == "." + rest1[1..];
    assert rest2 == "." + rest2[1..];
  }

  lemma WellFormedParts(d: Digits, p: Parts)
    requires Number(d, p.major) && Number(d, p.minor) && Number(d, p.patch)
    requires p.pre.Some? ==> Positive(d, p.pre.value.number)
    ensures WellFormed(d, p)
  {
  }

  /** And accepts nothing else. */
  lemma MatchIsVersion(d: Digits, version: string)
    requires Match(d, version).Some?
    ensures WellFormed(d, Match(d, version).value) && Version(Match(d, version).value) == version
  {
    hide MatchPre, WellFormed, Positive;
    var p := Match(d, version).value;
    var (major, rest1) := TakeDigits(d, version);
    var (minor, rest2) := TakeDigits(d, rest1[1..]);
    var (patch, rest3) := TakeDigits(d, rest2[1..]);
    MatchedPre(d, rest3);
    Rejoined(version, major, rest1, minor, rest2, patch, rest3);
    assert version == Base(p) + rest3;
    WellFormedParts(d, p);
  }

  // ---------- The replace chain ----------

  /** Python's `str.replace`: every occurrence from the left, without overlap. */
  function Replace(s: string, was: string, becomes: string): string
    requires was != ""
  {
    if |s| < |was| then s
    else if StartsWith(s, was) then becomes + Replace(s[|was|..], was, becomes)
    else [s[0]] + Replace(s[1..], was, becomes)
  }

  function PythonReleaseVersion(version: string): string {
    Replace(Replace(Replace(version, "-alpha.", "a"), "-beta.", "b"), "-rc.", "rc")
  }

  /** No dash, no occurrence: the replacement starts at the first dash. */
  lemma {:induction false} ReplaceSkips(plain: string, rest: string, was: string, becomes: string)
    requires was != "" && was[0] == '-' && '-' !in plain
    ensures Replace(plain + rest, was, becomes) == plain + Replace(rest, was, becomes)
  {
    if plain == "" {
      assert plain + rest == rest;
    } else {
      var s := plain + rest;
      assert s[0] == plain[0] && plain[0] in plain;
      assert s[1..] == plain[1..] + rest;
      ReplaceSkips(plain[1..], rest, was, becomes);
      assert plain == [plain[0]] + plain[1..];
      if |s| >= |was| {
        assert s[..|was|][0] != was[0];
      } else {
        ShortUnchanged(rest, was, becomes);
      }
    }
  }

  lemma ShortUnchanged(s: string, was: string, becomes: string)
    requires was != "" && |s| < |was|
    ensures Replace(s, was, becomes) == s
  {
  }

  lemma PlainUnchanged(plain: string, was: string, becomes: string)
    requires was != "" && was[0] == '-' && '-' !in plain
    ensures Replace(plain, was, becomes) == plain
  {
    ReplaceSkips(plain, "", was, becomes);
    assert plain + "" == plain;
  }

  lemma ReplaceHits(was: string, plain: string, becomes: string)
    requires was != "" && was[0] == '-' && '-' !in plain
    ensures Replace(was + plain, was, becomes) == becomes + plain
  {
    assert (was + plain)[..|was|] == was && (was + plain)[|was|..] == plain;
    PlainUnchanged(plain, was, becomes);
  }

  lemma ReplaceMisses(dash: string, plain: string, was: string, becomes: string)
    requires was != "" && was[0] == '-' && dash != "" && '-' !in dash[1..] && '-' !in plain
    requires !StartsWith(dash + plain, was)
    ensures Replace(dash + plain, was, becomes) == dash + plain
  {
    var s := dash + plain;
    if |s| >= |was| {
      assert s[1..] == dash[1..] + plain;
      PlainUnchanged(s[1..], was, becomes);
      assert s == [s[0]] + s[1..];
    }
  }

  lemma PartsHaveNoDash(d: Digits, p: Parts)
    requires DigitTable(d)
    requires WellFormed(d, p)
    ensures '-' !in Base(p) && (p.pre.Some? ==> '-' !in p.pre.value.number)
  {
    assert '-' !in p.major && '-' !in p.minor && '-' !in p.patch;
  }

  lemma SuffixReplaced(pre: Pre)
    requires '-' !in pre.number
    ensures PythonReleaseVersion("-" + pre.stage.Name() + "." + pre.number) == pre.stage.Python() + pre.number
  {
    hide Replace;
    var suffix := "-" + pre.stage.Name() + "." + pre.number;
    match pre.stage
    case Alpha =>
      assert suffix == "-alpha." + pre.number;
      ReplaceHits("-alpha.", pre.number, "a");
      PlainUnchanged("a" + pre.number, "-beta.", "b");
      PlainUnchanged("a" + pre.number, "-rc.", "rc");
    case Beta =>
      assert suffix == "-beta." + pre.number;
      assert suffix[1] == 'b';
      ReplaceMisses("-beta.", pre.number, "-alpha.", "a");
      ReplaceHits("-beta.", pre.number, "b");
      PlainUnchanged("b" + pre.number, "-rc.", "rc");
    case Rc =>
      assert suffix == "-rc." + pre.number;
      assert suffix[1] == 'r';
      ReplaceMisses("-rc.", pre.number, "-alpha.", "a");
      ReplaceMisses("-rc.", pre.number, "-beta.", "b");
      ReplaceHits("-rc.", pre.number, "rc");
  }

  lemma ChainSkips(plain: string, rest: string)
    requires '-' !in plain
    ensures PythonReleaseVersion(plain + rest) == plain + PythonReleaseVersion(rest)
  {
    hide Replace;
    var once := Replace(rest, "-alpha.", "a");
    var twice := Replace(once, "-beta.", "b");
    ReplaceSkips(plain, rest, "-alpha.", "a");
    ReplaceSkips(plain, once, "-beta.", "b");
    ReplaceSkips(plain, twice, "-rc.", "rc");
  }

  /** The replace chain and the pattern give the same Python version for every supported version. */
  lemma MappingsAgree(d: Digits, version: string)
    requires DigitTable(d)
    requires ReleaseIdentity(d, version).Success?
    ensures ReleaseIdentity(d, version).value.python == PythonReleaseVersion(version)
  {
    hide Match, PythonReleaseVersion;
    var p := Match(d, version).value;
    MatchIsVersion(d, version);
    PartsHaveNoDash(d, p);
    match p.pre
    case None =>
      NoDashUnchanged(version);
    case Some(pre) =>
      ChainSkips(Base(p), "-" + pre.stage.Name() + "." + pre.number);
      SuffixReplaced(pre);
  }

  lemma NoDashUnchanged(plain: string)
    requires '-' !in plain
    ensures PythonReleaseVersion(plain) == plain
  {
    ChainSkips(plain, "");
    assert plain + "" == plain;
  }

  // ---------- Precedence ----------

  datatype Order = Less | Same | Greater {
    function Then(next: Order): Order {
      if this == Same then next else this
    }
  }

  function CompareNat(a: nat, b: nat): Order {
    if a < b then Less else if a == b then Same else Greater
  }

  /** ASCII order, character by character; a proper prefix comes first. */
  function CompareText(a: string, b: string): Order {
    if a == "" && b == "" then Same
    else if a == "" then Less
    else if b == "" then Greater
    else CompareNat(a[0] as nat, b[0] as nat).Then(CompareText(a[1..], b[1..]))
  }

  /** The dot-separated identifiers. */
  function Identifiers(s: string): seq<string> {
    SplitOn(s, '.')
  }

  /** Numeric identifiers by value, before the others; the others in ASCII order. */
  function CompareIdentifier(d: Digits, a: string, b: string): Order {
    if Number(d, a) && Number(d, b) then CompareNat(DigitsValue(d, a), DigitsValue(d, b))
    else if Number(d, a) then Less
    else if Number(d, b) then Greater
    else CompareText(a, b)
  }

  /** Identifier by identifier; the longer list wins when all the earlier ones are equal. */
  function CompareIdentifiers(d: Digits, xs: seq<string>, ys: seq<string>): Order {
    if xs == [] && ys == [] then Same
    else if xs == [] then Less
    else if ys == [] then Greater
    else CompareIdentifier(d, xs[0], ys[0]).Then(CompareIdentifiers(d, xs[1..], ys[1..]))
  }

  /** The core version and the pre-release text after the first dash. */
  function CutDash(s: string): (string, Option<string>) {
    var e := IndexOf(s, '-');
    (s[..e], if e == |s| then None else Some(s[e + 1..]))
  }

  /** Section 11 of Semantic Versioning 2.0.0. */
  function Precedence(d: Digits, v: string, w: string): Order {
    var (core1, pre1) := CutDash(v);
    var (core2, pre2) := CutDash(w);
    CompareIdentifiers(d, Identifiers(core1), Identifiers(core2)).Then(
      if pre1.None? && pre2.None? then Same
      else if pre1.None? then Greater
      else if pre2.None? then Less
      else CompareIdentifiers(d, Identifiers(pre1.value), Identifiers(pre2.value)))
  }

  /** The release segment, made of digits and dots, and the pre-release segment after it. */
  function CutRelease(d: Digits, s: string): (string, string) {
    if s == "" || !(Digit(d, s[0]) || s[0] == '.') then ("", s)
    else
      var (head, tail) := CutRelease(d, s[1..]);
      ([s[0]] + head, tail)
  }

  /** The letters of the pre-release segment, and its number. */
  function CutLetters(d: Digits, s: string): (string, string) {
    if s == "" || Digit(d, s[0]) then ("", s)
    else
      var (head, tail) := CutLetters(d, s[1..]);
      ([s[0]] + head, tail)
  }

  /** PEP 440: the release numbers, then any pre-release before the release, by phase and number. */
  function PythonOrder(d: Digits, v: string, w: string): Order {
    var (release1, pre1) := CutRelease(d, v);
    var (release2, pre2) := CutRelease(d, w);
    CompareIdentifiers(d, Identifiers(release1), Identifiers(release2)).Then(
      if pre1 == "" && pre2 == "" then Same
      else if pre1 == "" then Greater
      else if pre2 == "" then Less
      else
        var (phase1, number1) := CutLetters(d, pre1);
        var (phase2, number2) := CutLetters(d, pre2);
        CompareText(phase1, phase2).Then(CompareIdentifier(d, number1, number2)))
  }

  lemma DashCut(plain: string, rest: string)
    requires '-' !in plain && (rest == "" || rest[0] == '-')
    ensures CutDash(plain + rest) == (plain, if rest == "" then None else Some(rest[1..]))
  {
    IndexIs(plain, '-', rest);
    assert (plain + rest)[..|plain|] == plain;
    assert rest != "" ==> (plain + rest)[|plain| + 1..] == rest[1..];
  }

  lemma {:induction false} ReleaseCut(d: Digits, base: string, rest: string)
    requires forall i :: 0 <= i < |base| ==> Digit(d, base[i]) || base[i] == '.'
    requires rest == "" || !(Digit(d, rest[0]) || rest[0] == '.')
    ensures CutRelease(d, base + rest) == (base, rest)
  {
    if base == "" {
      assert base + rest == rest;
    } else {
      assert (base + rest)[1..] == base[1..] + rest;
      ReleaseCut(d, base[1..], rest);
      assert base == [base[0]] + base[1..];
    }
  }

  lemma PreIdentifiers(d: Digits, pre: Pre)
    requires DigitTable(d)
    requires Positive(d, pre.number)
    ensures Identifiers(pre.stage.Name() + "." + pre.number) == [pre.stage.Name(), pre.number]
  {
    assert '.' !in pre.number;
    SplitTwo(pre.stage.Name(), '.', pre.number);
  }

  lemma LetterCut(d: Digits, c: char, rest: string)
    requires !Digit(d, c)
    ensures CutLetters(d, [c] + rest) == ([c] + CutLetters(d, rest).0, CutLetters(d, rest).1)
  {
    assert ([c] + rest)[1..] == rest;
  }

  lemma LettersCut(d: Digits, pre: Pre)
    requires DigitTable(d)
    requires Positive(d, pre.number)
    ensures CutLetters(d, pre.stage.Python() + pre.number) == (pre.stage.Python(), pre.number)
  {
    var number := pre.number;
    assert CutLetters(d, number) == ("", number);
    match pre.stage
    case Alpha =>
      LetterCut(d, 'a', number);
      assert ['a'] + "" == "a";
    case Beta =>
      LetterCut(d, 'b', number);
      assert ['b'] + "" == "b";
    case Rc =>
      LetterCut(d, 'c', number);
      LetterCut(d, 'r', "c" + number);
      assert "rc" + number == ['r'] + ("c" + number);
      assert ['r'] + (['c'] + "") == "rc";
  }

  /** The stages stand in the same order in both spellings. */
  lemma StagesInOrder(d: Digits, a: Stage, b: Stage)
    requires DigitTable(d)
    ensures CompareIdentifier(d, a.Name(), b.Name()) == CompareText(a.Python(), b.Python())
  {
    assert a.Name()[0] > '9' && b.Name()[0] > '9';
    assert !Number(d, a.Name()) && !Number(d, b.Name());
    if a == b {
      TextSame(a.Name());
      TextSame(a.Python());
    }
  }

  lemma {:induction false} TextSame(s: string)
    ensures CompareText(s, s) == Same
  {
    if s != "" {
      TextSame(s[1..]);
    }
  }

  lemma VersionCut(d: Digits, p: Parts)
    requires DigitTable(d)
    requires WellFormed(d, p)
    ensures CutDash(Version(p))
            == (Base(p), if p.pre.None? then None else Some(p.pre.value.stage.Name() + "." + p.pre.value.number))
  {
    PartsHaveNoDash(d, p);
    match p.pre
    case None =>
      DashCut(Base(p), "");
      assert Base(p) + "" == Base(p);
    case Some(pre) =>
      var rest := "-" + pre.stage.Name() + "." + pre.number;
      assert rest[1..] == pre.stage.Name() + "." + pre.number;
      DashCut(Base(p), rest);
  }

  lemma SpellingCut(d: Digits, p: Parts)
    requires DigitTable(d)
    requires WellFormed(d, p)
    ensures CutRelease(d, Spelling(p))
            == (Base(p), if p.pre.None? then "" else p.pre.value.stage.Python() + p.pre.value.number)
  {
    match p.pre
    case None =>
      ReleaseCut(d, Base(p), "");
      assert Base(p) + "" == Base(p);
    case Some(pre) =>
      ReleaseCut(d, Base(p), pre.stage.Python() + pre.number);
  }

  lemma PartsInOrder(d: Digits, p: Parts, q: Parts)
    requires DigitTable(d)
    requires WellFormed(d, p) && WellFormed(d, q)
    ensures Precedence(d, Version(p), Version(q)) == PythonOrder(d, Spelling(p), Spelling(q))
  {
    hide CutDash, CutRelease, Version, Spelling, CutLetters, Identifiers, CompareText, CompareIdentifier;
    VersionCut(d, p);
    VersionCut(d, q);
    SpellingCut(d, p);
    SpellingCut(d, q);
    if p.pre.Some? && q.pre.Some? {
      var a, b := p.pre.value, q.pre.value;
      PreIdentifiers(d, a);
      PreIdentifiers(d, b);
      LettersCut(d, a);
      LettersCut(d, b);
      StagesInOrder(d, a.stage, b.stage);
      TwoIdentifiers(d, a.stage.Name(), a.number, b.stage.Name(), b.number);
    }
  }

  lemma TwoIdentifiers(d: Digits, a: string, m: string, b: string, n: string)
    ensures CompareIdentifiers(d, [a, m], [b, n]) == CompareIdentifier(d, a, b).Then(CompareIdentifier(d, m, n))
  {
    hide CompareIdentifier;
    assert [a, m][1..] == [m] && [b, n][1..] == [n];
    assert CompareIdentifiers(d, [m], [n]) == CompareIdentifier(d, m, n).Then(CompareIdentifiers(d, [], []));
  }

  /**
   On supported versions the mapping keeps precedence, both ways: one version precedes another
   exactly if its Python spelling does.
   */
  lemma PrecedenceKept(d: Digits, v: string, w: string)
    requires DigitTable(d)
    requires ReleaseIdentity(d, v).Success? && ReleaseIdentity(d, w).Success?
    ensures Precedence(d, v, w)
            == PythonOrder(d, ReleaseIdentity(d, v).value.python, ReleaseIdentity(d, w).value.python)
  {
    hide Match, Precedence, PythonOrder, Version, Spelling;
    MatchIsVersion(d, v);
    MatchIsVersion(d, w);
    PartsInOrder(d, Match(d, v).value, Match(d, w).value);
  }

  // ---------- The order, by the numbers ----------

  function Rank(stage: Stage): nat {
    match stage
    case Alpha => 1
    case Beta => 2
    case Rc => 3
  }

  /** Numbers first, from major to patch; then a pre-release before its release, by stage and number. */
  ghost predicate Earlier(d: Digits, p: Parts, q: Parts)
    requires WellFormed(d, p) && WellFormed(d, q)
  {
    var a, b := DigitsValue(d, p.major), DigitsValue(d, q.major);
    var m, n := DigitsValue(d, p.minor), DigitsValue(d, q.minor);
    var x, y := DigitsValue(d, p.patch), DigitsValue(d, q.patch);
    || a < b || (a == b && m < n) || (a == b && m == n && x < y)
    || (a == b && m == n && x == y && p.pre.Some?
        && (q.pre.Some? ==>
              || Rank(p.pre.value.stage) < Rank(q.pre.value.stage)
              || (p.pre.value.stage == q.pre.value.stage
                  && DigitsValue(d, p.pre.value.number) < DigitsValue(d, q.pre.value.number))))
  }

  lemma NumbersCompare(d: Digits, a: string, b: string)
    requires Number(d, a) && Number(d, b)
    ensures CompareIdentifier(d, a, b) == if DigitsValue(d, a) < DigitsValue(d, b) then Less
                                          else if DigitsValue(d, a) == DigitsValue(d, b) then Same else Greater
  {
  }

  lemma NamesCompare(d: Digits, a: Stage, b: Stage)
    requires DigitTable(d)
    ensures CompareIdentifier(d, a.Name(), b.Name())
            == if Rank(a) < Rank(b) then Less else if a == b then Same else Greater
  {
    StagesInOrder(d, a, b);
    match (a, b) {
      case (Alpha, Alpha) => TextSame("a");
      case (Beta, Beta) => TextSame("b");
      case (Rc, Rc) => TextSame("rc");
      case _ =>
    }
  }

  lemma BaseIdentifiers(d: Digits, p: Parts)
    requires DigitTable(d) && WellFormed(d, p)
    ensures Identifiers(Base(p)) == [p.major, p.minor, p.patch]
  {
    DotIsNoDigit(d);
    assert '.' !in p.major && '.' !in p.minor && '.' !in p.patch;
    var rest := p.minor + ['.'] + p.patch;
    assert Base(p) == p.major + (['.'] + rest);
    IndexIs(p.major, '.', ['.'] + rest);
    assert Base(p)[..|p.major|] == p.major && Base(p)[|p.major| + 1..] == rest;
    SplitTwo(p.minor, '.', p.patch);
  }

  lemma ThreeIdentifiers(d: Digits, p: Parts, q: Parts)
    ensures CompareIdentifiers(d, [p.major, p.minor, p.patch], [q.major, q.minor, q.patch])
            == CompareIdentifier(d, p.major, q.major).Then(
                 CompareIdentifier(d, p.minor, q.minor).Then(CompareIdentifier(d, p.patch, q.patch)))
  {
    hide CompareIdentifier;
    var xs, ys := [p.major, p.minor, p.patch], [q.major, q.minor, q.patch];
    assert xs[1..] == [p.minor, p.patch] && ys[1..] == [q.minor, q.patch];
    TwoIdentifiers(d, p.minor, p.patch, q.minor, q.patch);
  }

  /** The precedence of two versions, and so the order of their Python spellings, is that of their numbers. */
  lemma PrecedenceIsNumeric(d: Digits, p: Parts, q: Parts)
    requires DigitTable(d) && WellFormed(d, p) && WellFormed(d, q)
    ensures Precedence(d, Version(p), Version(q)) == Less <==> Earlier(d, p, q)
    ensures Precedence(d, Version(p), Version(q)) == Greater <==> Earlier(d, q, p)
  {
    hide CutDash, Version, Identifiers, CompareIdentifiers, CompareIdentifier, Base, DigitTable;
    VersionCut(d, p);
    VersionCut(d, q);
    BaseIdentifiers(d, p);
    BaseIdentifiers(d, q);
    ThreeIdentifiers(d, p, q);
    NumbersCompare(d, p.major, q.major);
    NumbersCompare(d, p.minor, q.minor);
    NumbersCompare(d, p.patch, q.patch);
    if p.pre.Some? && q.pre.Some? {
      var a, b := p.pre.value, q.pre.value;
      PreIdentifiers(d, a);
      PreIdentifiers(d, b);
      TwoIdentifiers(d, a.stage.Name(), a.number, b.stage.Name(), b.number);
      NamesCompare(d, a.stage, b.stage);
      NumbersCompare(d, a.number, b.number);
    }
  }

  // ---------- Injectivity ----------

  function StageOf(letters: string): Stage {
    if letters == "a" then Alpha else if letters == "b" then Beta else Rc
  }

  /** The version that a Python spelling came from. */
  function Original(d: Digits, python: string): string {
    var (base, pre) := CutRelease(d, python);
    if pre == "" then base
    else
      var (letters, number) := CutLetters(d, pre);
      base + "-" + StageOf(letters).Name() + "." + number
  }

  lemma StageRead(stage: Stage)
    ensures StageOf(stage.Python()) == stage && stage.Python() != ""
  {
  }

  lemma SuffixAppended(base: string, pre: Pre)
    ensures base + "-" + pre.stage.Name() + "." + pre.number == base + ("-" + pre.stage.Name() + "." + pre.number)
  {
  }

  lemma OriginalReadsBack(d: Digits, p: Parts)
    requires DigitTable(d)
    requires WellFormed(d, p)
    ensures Original(d, Spelling(p)) == Version(p)
  {
    hide CutRelease, CutLetters, Spelling, Base, StageOf, DigitTable;
    SpellingCut(d, p);
    if p.pre.Some? {
      var pre := p.pre.value;
      LettersCut(d, pre);
      StageRead(pre.stage);
      SuffixAppended(Base(p), pre);
    }
  }

  /** Distinct supported versions have distinct Python spellings: the version can be read back. */
  lemma PythonVersionIdentifies(d: Digits, v: string)
    requires DigitTable(d)
    requires ReleaseIdentity(d, v).Success?
    ensures Original(d, ReleaseIdentity(d, v).value.python) == v
  {
    hide Match, Version, Spelling, Original;
    MatchIsVersion(d, v);
    OriginalReadsBack(d, Match(d, v).value);
  }
}
