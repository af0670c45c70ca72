/**
 Which invocations of a provider's own CLI leave the native path. Follows `classify_native_route`,
 `_native_owned_class`, `_match_human_intent`, `_matches`, `_release_tuple` and the version windows in
 src/gigaloom/native_cli_contracts.py.

 Which characters are decimal digits, and their values, is the Unicode table that the version pattern
 and `int` share: a parameter.
 */
module NativeRoute {
  import opened Wrappers
  import opened Text

  datatype Namespace = Codex | Claude | Gemini

  datatype CommandClass =
    | HumanRoot | HumanPrompt | HumanResume | HumanFork | HumanControl
    | Headless | Protocol | Administration | ExternalUi | Metadata | UnknownNative

  datatype Matcher =
    | Empty | PositionalPrompt | CodexResume | CodexFork
    | ClaudeContinue | ClaudeResume | ClaudeControl | GeminiInteractive | GeminiResume

  datatype Level = NativePassthrough | ManagedHandoff | StructuredWorkbench

  datatype Evidence = Absent | Unparsed | BelowWindow | InWindow | AboveWindow

  datatype Decision = Decision(level: Level, commandClass: CommandClass, pattern: Option<Matcher>, evidence: Evidence)

  type Argv = seq<string>

  function ClassOf(m: Matcher): CommandClass {
    match m
    case Empty => HumanRoot
    case PositionalPrompt | GeminiInteractive => HumanPrompt
    case CodexFork => HumanFork
    case ClaudeControl => HumanControl
    case _ => HumanResume
  }

  /** The integration's intent patterns, by precedence. */
  function Patterns(n: Namespace): seq<Matcher> {
    match n
    case Codex => [Empty, CodexResume, CodexFork]
    case Claude => [Empty, PositionalPrompt, ClaudeContinue, ClaudeResume, ClaudeControl]
    case Gemini => [Empty, PositionalPrompt, GeminiInteractive, GeminiResume]
  }

  predicate HasStructuredTransport(n: Namespace) {
    n != Claude
  }

  predicate Dashed(token: string) {
    token != "" && token[0] == '-'
  }

  function OptionName(token: string): string {
    token[..IndexOf(token, '=')]
  }

  predicate HasOption(argv: Argv, options: set<string>) {
    exists token | token in argv :: OptionName(token) in options
  }

  predicate Matches(m: Matcher, argv: Argv) {
    match m
    case Empty => argv == []
    case PositionalPrompt => |argv| == 1 && argv[0] != "" && !Dashed(argv[0])
    case CodexResume => |argv| == 2 && argv[0] == "resume" && (argv[1] == "--last" || !Dashed(argv[1]))
    case CodexFork => |argv| == 2 && argv[0] == "fork" && !Dashed(argv[1])
    case ClaudeContinue => argv == ["-c"] || argv == ["--continue"]
    case ClaudeResume =>
      || (|argv| == 2 && argv[0] in {"-r", "--resume"} && !Dashed(argv[1]))
      || (|argv| == 3 && argv[0] == "--fork-session" && argv[1] in {"-r", "--resume"} && !Dashed(argv[2]))
    case ClaudeControl => |argv| == 2 && argv[0] in {"--permission-mode", "--sandbox"} && !Dashed(argv[1])
    case GeminiInteractive => |argv| == 2 && argv[0] in {"-i", "--prompt-interactive"} && argv[1] != ""
    case GeminiResume => |argv| == 2 && argv[0] in {"-r", "--resume"} && !Dashed(argv[1])
  }

  function FirstMatch(patterns: seq<Matcher>, argv: Argv): Option<Matcher> {
    if patterns == [] then None
    else if Matches(patterns[0], argv) then Some(patterns[0])
    else FirstMatch(patterns[1..], argv)
  }

  const METADATA_FLAGS := {"--help", "-h", "--version"}
  const METADATA_WORDS := {"help", "version", "completion"}

  function AdminWords(n: Namespace): set<string> {
    match n
    case Codex => {"apply", "archive", "completion", "debug", "delete", "doctor", "execpolicy", "features", "login",
                   "logout", "mcp", "plugin", "unarchive", "update"}
    case Claude => {"agents", "attach", "auth", "background", "doctor", "gateway", "install", "logs", "mcp", "plugin",
                    "project", "setup-token", "ultrareview", "update"}
    case Gemini => {"extensions", "mcp", "skills", "update"}
  }

  function ExternalWords(n: Namespace): set<string> {
    match n
    case Codex => {"app", "cloud", "remote-control"}
    case Claude => {"cloud", "remote-control", "teleport"}
    case Gemini => {}
  }

  function HeadlessWords(n: Namespace): set<string> {
    match n
    case Codex => {"exec", "e", "review", "sandbox"}
    case Claude => {"exec"}
    case Gemini => {}
  }

  function ProtocolWords(n: Namespace): set<string> {
    match n
    case Codex => {"app-server", "mcp-server"}
    case Claude => {"daemon"}
    case Gemini => {"acp"}
  }

  function OptionClass(n: Namespace, argv: Argv, terminal: bool): Option<CommandClass> {
    match n
    case Codex => None
    case Claude => if HasOption(argv, {"--print", "-p"}) then Some(Headless) else None
    case Gemini =>
      if HasOption(argv, {"--prompt", "-p"}) || !terminal then Some(Headless)
      else if HasOption(argv, {"--experimental-acp", "--acp"}) then Some(Protocol)
      else None
  }

  function NativeOwnedClass(n: Namespace, argv: Argv, terminal: bool): Option<CommandClass> {
    var first := if argv == [] then None else Some(argv[0]);
    if HasOption(argv, METADATA_FLAGS) then Some(Metadata)
    else if first.Some? && first.value in METADATA_WORDS then Some(Metadata)
    else if OptionClass(n, argv, terminal).Some? then OptionClass(n, argv, terminal)
    else if first.Some? && first.value in HeadlessWords(n) then Some(Headless)
    else if first.Some? && first.value in ProtocolWords(n) then Some(Protocol)
    else if n == Gemini && HasOption(argv, {"--list-sessions", "--delete-session"}) then Some(Administration)
    else if first.Some? && first.value in AdminWords(n) then Some(Administration)
    else if first.Some? && first.value in ExternalWords(n) then Some(ExternalUi)
    else None
  }

  // ---------- The version window ----------

  datatype Release = Release(major: nat, minor: nat, patch: nat) {
    predicate Before(other: Release) {
      || major < other.major
      || (major == other.major && (minor < other.minor || (minor == other.minor && patch < other.patch)))
    }
  }

  predicate NoDigits(d: Digits, s: string) {
    forall k | 0 <= k < |s| :: d(s[k]).None?
  }

  /** A release number of two or three parts that starts at a position. */
  function ReleaseAt(d: Digits, t: string, i: nat): Option<Release>
    requires i <= |t|
  {
    var a := RunEnd(d, t, i);
    if a == i || a == |t| || t[a] != '.' then None
    else
      var b := RunEnd(d, t, a + 1);
      if b == a + 1 then None
      else
        var two := Release(DigitsValue(d, t[i..a]), DigitsValue(d, t[a + 1..b]), 0);
        if b == |t| || t[b] != '.' then Some(two)
        else
          var c := RunEnd(d, t, b + 1);
          if c == b + 1 then Some(two) else Some(two.(patch := DigitsValue(d, t[b + 1..c])))
  }

  /** The first release number that does not start within a number. */
  function ReleaseFrom(d: Digits, t: string, i: nat): Option<Release>
    requires i <= |t|
    decreases |t| - i
  {
    if i == |t| then None
    else if (i == 0 || d(t[i - 1]).None?) && ReleaseAt(d, t, i).Some? then ReleaseAt(d, t, i)
    else ReleaseFrom(d, t, i + 1)
  }

  function Minimum(n: Namespace): Release {
    match n
    case Codex => Release(0, 146, 0)
    case Claude => Release(2, 1, 0)
    case Gemini => Release(0, 46, 0)
  }

  function MaximumExclusive(n: Namespace): Release {
    match n
    case Codex => Release(0, 147, 0)
    case Claude => Release(2, 2, 0)
    case Gemini => Release(0, 47, 0)
  }

  function VersionEvidence(d: Digits, n: Namespace, version: Option<string>): Evidence {
    if version.None? then Absent
    else
      match ReleaseFrom(d, version.value, 0)
      case None => Unparsed
      case Some(release) =>
        if release.Before(Minimum(n)) then BelowWindow
        else if !release.Before(MaximumExclusive(n)) then AboveWindow
        else InWindow
  }

  // ---------- The decision ----------

  /** The decision, with the pattern table given so that its order can be varied. */
  function ClassifyBy(patterns: seq<Matcher>, n: Namespace, argv: Argv, evidence: Evidence,
                      stdin: bool, stdout: bool, ready: bool): Decision
  {
    var owned := NativeOwnedClass(n, argv, stdin && stdout);
    if owned.Some? then Decision(NativePassthrough, owned.value, None, evidence)
    else
      var pattern := FirstMatch(patterns, argv);
      if pattern.None? || !(stdin && stdout) then Decision(NativePassthrough, UnknownNative, None, evidence)
      else
        Decision(if evidence == InWindow && HasStructuredTransport(n) && ready then StructuredWorkbench
                 else ManagedHandoff,
                 ClassOf(pattern.value), pattern, evidence)
  }

  function Classify(d: Digits, n: Namespace, argv: Argv, version: Option<string>,
                    stdin: bool, stdout: bool, ready: bool): Decision
  {
    ClassifyBy(Patterns(n), n, argv, VersionEvidence(d, n, version), stdin, stdout, ready)
  }

  // ---------- Version laws ----------

  lemma {:induction false} DecimalReads(d: Digits, n: nat)
    requires DigitTable(d)
    ensures Decimal(n) != "" && AllDigits(d, Decimal(n)) && DigitsValue(d, Decimal(n)) == n
  {
    if n >= 10 {
      DecimalReads(d, n / 10);
      assert Decimal(n)[..|Decimal(n)| - 1] == Decimal(n / 10);
    } else {
      assert Decimal(n)[..0] == "";
    }
  }

  predicate Stands(t: string, i: nat, w: string) {
    i + |w| <= |t| && t[i..i + |w|] == w
  }

  /** No digit at the position: another character, or the end. */
  predicate NoDigitAt(d: Digits, t: string, i: nat) {
    i < |t| ==> d(t[i]).None?
  }

  lemma StandsBetween(head: string, w: string, rest: string)
    ensures Stands(head + (w + rest), |head|, w)
  {
  }

  /** The run of a number's digits, wherever it stands. */
  lemma RunOfDecimal(d: Digits, t: string, i: nat, n: nat)
    requires DigitTable(d) && Stands(t, i, Decimal(n)) && NoDigitAt(d, t, i + |Decimal(n)|)
    ensures var e := i + |Decimal(n)|;
            i < e <= |t| && RunEnd(d, t, i) == e && DigitsValue(d, t[i..e]) == n
  {
    hide DigitTable, Decimal;
    DecimalReads(d, n);
    RunEndIs(d, t, i, i + |Decimal(n)|);
  }

  lemma {:induction false} SearchSkips(d: Digits, t: string, i: nat, until: nat)
    requires i <= until <= |t| && NoDigits(d, t[i..until])
    ensures ReleaseFrom(d, t, i) == ReleaseFrom(d, t, until)
    decreases until - i
  {
    if i < until {
      assert t[i..until][0] == t[i] && t[i + 1..until] == t[i..until][1..];
      assert RunEnd(d, t, i) == i;
      SearchSkips(d, t, i + 1, until);
    }
  }

  lemma ReleaseAtIs(d: Digits, t: string, i: nat, a: nat, b: nat)
    requires i < a && a + 1 < b <= |t| && RunEnd(d, t, i) == a && t[a] == '.' && RunEnd(d, t, a + 1) == b
    ensures b == |t| || t[b] != '.' || RunEnd(d, t, b + 1) == b + 1 ==>
              ReleaseAt(d, t, i) == Some(Release(DigitsValue(d, t[i..a]), DigitsValue(d, t[a + 1..b]), 0))
    ensures b < |t| && t[b] == '.' && RunEnd(d, t, b + 1) > b + 1 ==>
              ReleaseAt(d, t, i) ==
              Some(Release(DigitsValue(d, t[i..a]), DigitsValue(d, t[a + 1..b]),
                           DigitsValue(d, t[b + 1..RunEnd(d, t, b + 1)])))
  {
    hide RunEnd, AllDigits, DigitsValue;
  }

  /** A release of three parts reads back, whatever stands before it without digits and whatever follows. */
  lemma ReleaseReadsBack(d: Digits, head: string, r: Release, rest: string)
    requires DigitTable(d) && NoDigits(d, head) && (rest == "" || d(rest[0]).None?)
    ensures var t := head + (Decimal(r.major) + ("." + (Decimal(r.minor) + ("." + (Decimal(r.patch) + rest)))));
            ReleaseFrom(d, t, 0) == Some(r)
  {
    hide Decimal, NoDigits, DigitTable, ReleaseFrom, ReleaseAt, Stands;
    var t := head + (Decimal(r.major) + ("." + (Decimal(r.minor) + ("." + (Decimal(r.patch) + rest)))));
    TwoStand(head, Decimal(r.major), Decimal(r.minor), "." + (Decimal(r.patch) + rest));
    ThirdStands(head, Decimal(r.major), Decimal(r.minor), Decimal(r.patch), rest);
    EndIs(d, t, |head| + |Decimal(r.major)| + 1 + |Decimal(r.minor)| + 1 + |Decimal(r.patch)|, rest);
    ReadsThreeParts(d, t, |head|, r);
    DecimalReads(d, r.major);
    StartsBehind(d, head, t, Decimal(r.major) + ("." + (Decimal(r.minor) + ("." + (Decimal(r.patch) + rest)))));
  }

  /** Where two numbers and the dot between them stand. */
  lemma TwoStand(head: string, x: string, y: string, rest: string)
    ensures var t := head + (x + ("." + (y + rest)));
            && Stands(t, |head|, x) && Stands(t, |head| + |x|, ".") && Stands(t, |head| + |x| + 1, y)
            && |head| + |x| + 1 + |y| <= |t| && t[|head| + |x| + 1 + |y|..] == rest
  {
    var t := head + (x + ("." + (y + rest)));
    StandsBetween(head, x, "." + (y + rest));
    StandsBetween(head + x, ".", y + rest);
    StandsBetween(head + x + ".", y, rest);
    assert t == (head + x) + ("." + (y + rest)) == (head + x + ".") + (y + rest);
  }

  lemma ThirdStands(head: string, x: string, y: string, z: string, rest: string)
    ensures var t := head + (x + ("." + (y + ("." + (z + rest)))));
            var b := |head| + |x| + 1 + |y|;
            && Stands(t, b, ".") && Stands(t, b + 1, z)
            && b + 1 + |z| <= |t| && t[b + 1 + |z|..] == rest
  {
    hide Stands;
    var t := head + (x + ("." + (y + ("." + (z + rest)))));
    TwoStand(head + x + ".", y, z, rest);
    assert t == (head + x + ".") + (y + ("." + (z + rest)));
  }

  lemma EndIs(d: Digits, t: string, e: nat, rest: string)
    requires e <= |t| && t[e..] == rest
    ensures rest == "" || d(rest[0]).None? ==> NoDigitAt(d, t, e)
    ensures NoThirdPart(d, rest) ==> NoDigitAt(d, t, e) && (e < |t| && t[e] == '.' ==> NoDigitAt(d, t, e + 1))
  {
    assert e < |t| ==> t[e] == rest[0];
    assert e + 1 < |t| ==> t[e + 1] == rest[1];
  }

  lemma DotStands(d: Digits, t: string, a: nat)
    requires DigitTable(d) && Stands(t, a, ".")
    ensures a < |t| && t[a] == '.' && NoDigitAt(d, t, a)
  {
    DotIsNoDigit(d);
    assert t[a] == t[a..a + 1][0];
  }

  lemma ReadsThreeParts(d: Digits, t: string, i: nat, r: Release)
    requires DigitTable(d)
    requires var a := i + |Decimal(r.major)|;
             var b := a + 1 + |Decimal(r.minor)|;
             && Stands(t, i, Decimal(r.major)) && Stands(t, a, ".") && Stands(t, a + 1, Decimal(r.minor))
             && Stands(t, b, ".") && Stands(t, b + 1, Decimal(r.patch)) && NoDigitAt(d, t, b + 1 + |Decimal(r.patch)|)
    ensures i <= |t| && ReleaseAt(d, t, i) == Some(r)
  {
    hide Decimal, RunEnd, AllDigits, DigitsValue, DigitTable, ReleaseAt, Stands;
    var a := i + |Decimal(r.major)|;
    var b := a + 1 + |Decimal(r.minor)|;
    DotStands(d, t, a);
    DotStands(d, t, b);
    RunOfDecimal(d, t, i, r.major);
    RunOfDecimal(d, t, a + 1, r.minor);
    RunOfDecimal(d, t, b + 1, r.patch);
    ReleaseAtIs(d, t, i, a, b);
  }

  /** The text does not go on with a digit, nor with a dot and a digit. */
  predicate NoThirdPart(d: Digits, rest: string) {
    rest != "" ==> d(rest[0]).None? && (rest[0] == '.' && |rest| > 1 ==> d(rest[1]).None?)
  }

  /** A release of two parts reads as one whose third part is 0. */
  lemma ShortReleaseReads(d: Digits, head: string, major: nat, minor: nat, rest: string)
    requires DigitTable(d) && NoDigits(d, head) && NoThirdPart(d, rest)
    ensures ReleaseFrom(d, head + (Decimal(major) + ("." + (Decimal(minor) + rest))), 0)
            == Some(Release(major, minor, 0))
  {
    hide Decimal, NoDigits, DigitTable, ReleaseFrom, ReleaseAt, Stands, NoThirdPart;
    var t := head + (Decimal(major) + ("." + (Decimal(minor) + rest)));
    TwoStand(head, Decimal(major), Decimal(minor), rest);
    EndIs(d, t, |head| + |Decimal(major)| + 1 + |Decimal(minor)|, rest);
    ReadsTwoParts(d, t, |head|, major, minor);
    DecimalReads(d, major);
    StartsBehind(d, head, t, Decimal(major) + ("." + (Decimal(minor) + rest)));
  }

  lemma ReadsTwoParts(d: Digits, t: string, i: nat, major: nat, minor: nat)
    requires DigitTable(d)
    requires var a := i + |Decimal(major)|;
             var b := a + 1 + |Decimal(minor)|;
             && Stands(t, i, Decimal(major)) && Stands(t, a, ".") && Stands(t, a + 1, Decimal(minor))
             && NoDigitAt(d, t, b) && (b < |t| && t[b] == '.' ==> NoDigitAt(d, t, b + 1))
    ensures i <= |t| && ReleaseAt(d, t, i) == Some(Release(major, minor, 0))
  {
    hide Decimal, RunEnd, AllDigits, DigitsValue, DigitTable, ReleaseAt, Stands;
    var a := i + |Decimal(major)|;
    var b := a + 1 + |Decimal(minor)|;
    DotStands(d, t, a);
    RunOfDecimal(d, t, i, major);
    RunOfDecimal(d, t, a + 1, minor);
    if b < |t| && t[b] == '.' {
      NoRunAt(d, t, b + 1);
    }
    ReleaseAtIs(d, t, i, a, b);
  }

  lemma NoRunAt(d: Digits, t: string, i: nat)
    requires i <= |t| && NoDigitAt(d, t, i)
    ensures RunEnd(d, t, i) == i
  {
  }

  /** Behind a text without digits, the search starts at the end of it. */
  lemma StartsBehind(d: Digits, head: string, t: string, tail: string)
    requires NoDigits(d, head) && t == head + tail && tail != "" && ReleaseAt(d, t, |head|).Some?
    ensures ReleaseFrom(d, t, 0) == ReleaseAt(d, t, |head|)
  {
    hide ReleaseAt;
    assert t[0..|head|] == head;
    assert |head| > 0 ==> t[|head| - 1] == head[|head| - 1];
    SearchSkips(d, t, 0, |head|);
  }

  /** Each window holds exactly the releases of one minor line; what is below it, above it, or no evidence is
      told by major and minor alone, as two numbers in order. */
  lemma WindowIsMinorLine(d: Digits, n: Namespace, version: Option<string>)
    ensures VersionEvidence(d, n, version) == Absent <==> version.None?
    ensures version.Some? ==>
              (VersionEvidence(d, n, version) == Unparsed <==> ReleaseFrom(d, version.value, 0).None?)
    ensures version.Some? && ReleaseFrom(d, version.value, 0).Some? ==>
              var r := ReleaseFrom(d, version.value, 0).value;
              var major := if n == Claude then 2 else 0;
              var minor := if n == Codex then 146 else if n == Claude then 1 else 46;
              && (VersionEvidence(d, n, version) == InWindow <==> r.major == major && r.minor == minor)
              && (VersionEvidence(d, n, version) == BelowWindow
                  <==> r.major < major || (r.major == major && r.minor < minor))
              && (VersionEvidence(d, n, version) == AboveWindow
                  <==> r.major > major || (r.major == major && r.minor > minor))
  {
    hide ReleaseFrom;
  }

  ghost predicate DottedDigits(d: Digits, t: string, k: nat) {
    0 < k < |t| - 1 && t[k] == '.' && d(t[k - 1]).Some? && d(t[k + 1]).Some?
  }

  lemma {:induction false} RunStart(d: Digits, t: string, k: nat) returns (i: nat)
    requires k < |t| && d(t[k]).Some?
    ensures i <= k && AllDigits(d, t[i..k + 1]) && (i == 0 || d(t[i - 1]).None?)
  {
    if k == 0 || d(t[k - 1]).None? {
      i := k;
    } else {
      i := RunStart(d, t, k - 1);
      assert t[i..k + 1] == t[i..k] + [t[k]];
    }
  }

  lemma ReleaseAtMeans(d: Digits, t: string, i: nat)
    requires i <= |t|
    ensures ReleaseAt(d, t, i).Some? ==>
              i < RunEnd(d, t, i) && DottedDigits(d, t, RunEnd(d, t, i))
    ensures i < RunEnd(d, t, i) && DottedDigits(d, t, RunEnd(d, t, i)) ==> ReleaseAt(d, t, i).Some?
  {
    var a := RunEnd(d, t, i);
    if i < a {
      assert t[i..a][a - 1 - i] == t[a - 1];
    }
    if i < a < |t| && t[a] == '.' {
      var b := RunEnd(d, t, a + 1);
      assert a + 1 < b ==> t[a + 1..b][0] == t[a + 1];
      assert a + 1 == b && b < |t| ==> d(t[b]).None?;
    }
  }

  lemma {:induction false} FoundMeans(d: Digits, t: string, i: nat)
    requires i <= |t| && ReleaseFrom(d, t, i).Some?
    ensures exists k: nat :: DottedDigits(d, t, k)
    decreases |t| - i
  {
    hide ReleaseAt, RunEnd;
    ReleaseAtMeans(d, t, i);
    if (i == 0 || d(t[i - 1]).None?) && ReleaseAt(d, t, i).Some? {
    } else {
      FoundMeans(d, t, i + 1);
    }
  }

  lemma {:induction false} FoundFrom(d: Digits, t: string, from: nat, i: nat)
    requires from <= i < |t| && (i == 0 || d(t[i - 1]).None?) && ReleaseAt(d, t, i).Some?
    ensures ReleaseFrom(d, t, from).Some?
    decreases i - from
  {
    hide ReleaseAt;
    if from < i {
      FoundFrom(d, t, from + 1, i);
    }
  }

  /** A version text has a release exactly if somewhere in it a dot stands between two digits. */
  lemma ReleaseFoundExactly(d: Digits, t: string)
    requires DigitTable(d)
    ensures ReleaseFrom(d, t, 0).Some? <==> exists k: nat :: DottedDigits(d, t, k)
  {
    hide ReleaseAt, ReleaseFrom, DigitTable, RunEnd;
    if ReleaseFrom(d, t, 0).Some? {
      FoundMeans(d, t, 0);
    }
    if exists k: nat :: DottedDigits(d, t, k) {
      var k: nat :| DottedDigits(d, t, k);
      var i := RunStart(d, t, k - 1);
      DotIsNoDigit(d);
      RunEndIs(d, t, i, k);
      ReleaseAtMeans(d, t, i);
      FoundFrom(d, t, 0, i);
    }
  }

  // ---------- Route laws ----------

  /** Version and transport only choose between the two managed levels; everything else stays. */
  lemma VersionOnlyChoosesTheLevel(d: Digits, n: Namespace, argv: Argv, stdin: bool, stdout: bool,
                                   version1: Option<string>, ready1: bool, version2: Option<string>, ready2: bool)
    ensures var a := Classify(d, n, argv, version1, stdin, stdout, ready1);
            var b := Classify(d, n, argv, version2, stdin, stdout, ready2);
            && (a.level == NativePassthrough <==> b.level == NativePassthrough)
            && a.commandClass == b.commandClass && a.pattern == b.pattern
    ensures Classify(d, n, argv, version1, false, stdout, ready1).level == NativePassthrough
    ensures Classify(d, n, argv, version1, stdin, false, ready1).level == NativePassthrough
  {
    hide NativeOwnedClass, FirstMatch, Patterns, ClassOf, VersionEvidence;
  }

  /** The structured level is for managed invocations of an integration with a ready transport, in a
      version of the one reviewed minor line. */
  lemma StructuredExactly(d: Digits, n: Namespace, argv: Argv, version: Option<string>,
                          stdin: bool, stdout: bool, ready: bool)
    ensures Classify(d, n, argv, version, stdin, stdout, ready).level == StructuredWorkbench
            <==> && Classify(d, n, argv, version, stdin, stdout, ready).level != NativePassthrough
                 && ready && n != Claude && version.Some? && ReleaseFrom(d, version.value, 0).Some?
                 && ReleaseFrom(d, version.value, 0).value.major == 0
                 && ReleaseFrom(d, version.value, 0).value.minor == if n == Codex then 146 else 46
  {
    hide NativeOwnedClass, FirstMatch, Patterns, ClassOf, VersionEvidence, ReleaseFrom;
    WindowIsMinorLine(d, n, version);
  }

  lemma PatternsOfOneKind(n: Namespace, p: Matcher, q: Matcher, argv: Argv)
    requires p in Patterns(n) && q in Patterns(n) && Matches(p, argv) && Matches(q, argv)
    ensures p == q
  {
    if |argv| == 2 {
      assert "resume" != "fork" && |"resume"| == 6 && |"fork"| == 4;
      assert |"-r"| == 2 && |"--resume"| == 8 && |"--permission-mode"| == 17 && |"--sandbox"| == 9;
      assert |"-i"| == 2 && |"--prompt-interactive"| == 20;
      assert "-i"[1] != "-r"[1];
    } else if |argv| == 1 {
      assert "-c"[0] == '-' && "--continue"[0] == '-';
    }
  }

  lemma {:induction false} FirstMatchIs(patterns: seq<Matcher>, argv: Argv)
    ensures FirstMatch(patterns, argv).None? <==> forall p | p in patterns :: !Matches(p, argv)
    ensures var r := FirstMatch(patterns, argv); r.Some? ==> r.value in patterns && Matches(r.value, argv)
  {
    hide Matches;
    if patterns != [] {
      FirstMatchIs(patterns[1..], argv);
      assert patterns == [patterns[0]] + patterns[1..];
    }
  }

  /** At most one pattern of an integration matches, so the order of its table decides nothing. */
  lemma TableOrderIsImmaterial(n: Namespace, patterns: seq<Matcher>, argv: Argv, evidence: Evidence,
                               stdin: bool, stdout: bool, ready: bool)
    requires multiset(patterns) == multiset(Patterns(n))
    ensures ClassifyBy(patterns, n, argv, evidence, stdin, stdout, ready)
            == ClassifyBy(Patterns(n), n, argv, evidence, stdin, stdout, ready)
  {
    hide Matches, FirstMatch, Patterns, NativeOwnedClass, ClassOf;
    FirstMatchIs(patterns, argv);
    FirstMatchIs(Patterns(n), argv);
    forall p ensures p in patterns <==> p in Patterns(n) {
      assert p in patterns <==> p in multiset(patterns);
      assert p in Patterns(n) <==> p in multiset(Patterns(n));
    }
    var a, b := FirstMatch(patterns, argv), FirstMatch(Patterns(n), argv);
    if a.Some? && b.Some? {
      PatternsOfOneKind(n, a.value, b.value, argv);
    }
  }

  lemma PlainName(token: string)
    requires !Dashed(token)
    ensures OptionName(token) == "" || OptionName(token)[0] != '-'
  {
  }

  /** A token that names no option is none of the dashed flags. */
  lemma PlainIsNoFlag(token: string, options: set<string>)
    requires !Dashed(token) && forall o | o in options :: Dashed(o)
    ensures OptionName(token) !in options
  {
    hide OptionName;
    PlainName(token);
  }

  lemma WholeName(token: string)
    requires '=' !in token
    ensures OptionName(token) == token
  {
    assert token + "" == token;
    IndexIs(token, '=', "");
  }

  // ---------- The managed invocations ----------

  /** The options anywhere in the arguments that keep an invocation native. */
  function NativeOptions(n: Namespace): set<string> {
    METADATA_FLAGS
    + match n
      case Codex => {}
      case Claude => {"--print", "-p"}
      case Gemini => {"--prompt", "-p", "--experimental-acp", "--acp", "--list-sessions", "--delete-session"}
  }

  /** The first words that keep an invocation native. */
  function NativeWords(n: Namespace): set<string> {
    METADATA_WORDS + HeadlessWords(n) + ProtocolWords(n) + AdminWords(n) + ExternalWords(n)
  }

  // The provider's own words and options once more, as one table each.

  /** What the first word alone makes of an invocation; no word is in two of these lists. */
  ghost function CommandOf(n: Namespace, w: string): Option<CommandClass> {
    if w in {"help", "version", "completion"} then Some(Metadata)
    else
      match n
      case Codex =>
        if w in {"app", "cloud", "remote-control"} then Some(ExternalUi)
        else if w in {"apply", "archive", "debug", "delete", "doctor", "execpolicy", "features", "login", "logout",
                      "mcp", "plugin", "unarchive", "update"} then Some(Administration)
        else if w in {"app-server", "mcp-server"} then Some(Protocol)
        else if w in {"e", "exec", "review", "sandbox"} then Some(Headless)
        else None
      case Claude =>
        if w in {"cloud", "remote-control", "teleport"} then Some(ExternalUi)
        else if w in {"agents", "attach", "auth", "background", "doctor", "gateway", "install", "logs", "mcp",
                      "plugin", "project", "setup-token", "ultrareview", "update"} then Some(Administration)
        else if w == "daemon" then Some(Protocol)
        else if w == "exec" then Some(Headless)
        else None
      case Gemini =>
        if w in {"extensions", "mcp", "skills", "update"} then Some(Administration)
        else if w == "acp" then Some(Protocol)
        else None
  }

  /** What one option makes of an invocation. */
  ghost function OptionOf(n: Namespace, o: string): Option<CommandClass> {
    if o in {"--help", "-h", "--version"} then Some(Metadata)
    else
      match n
      case Codex => None
      case Claude => if o == "--print" || o == "-p" then Some(Headless) else None
      case Gemini =>
        if o == "--list-sessions" || o == "--delete-session" then Some(Administration)
        else if o == "--acp" || o == "--experimental-acp" then Some(Protocol)
        else if o == "--prompt" || o == "-p" then Some(Headless)
        else None
  }

  function ClassOfOption(n: Namespace, o: string): Option<CommandClass> {
    if o in METADATA_FLAGS then Some(Metadata)
    else
      match n
      case Codex => None
      case Claude => if o in {"--print", "-p"} then Some(Headless) else None
      case Gemini =>
        if o in {"--prompt", "-p"} then Some(Headless)
        else if o in {"--experimental-acp", "--acp"} then Some(Protocol)
        else if o in {"--list-sessions", "--delete-session"} then Some(Administration)
        else None
  }

  function ClassOfWord(n: Namespace, w: string): Option<CommandClass> {
    if w in METADATA_WORDS then Some(Metadata)
    else if w in HeadlessWords(n) then Some(Headless)
    else if w in ProtocolWords(n) then Some(Protocol)
    else if w in AdminWords(n) then Some(Administration)
    else if w in ExternalWords(n) then Some(ExternalUi)
    else None
  }

  lemma GeminiCommands(w: string)
    ensures ClassOfWord(Gemini, w) == CommandOf(Gemini, w)
  {
  }

  lemma ClaudeCommands(w: string)
    ensures ClassOfWord(Claude, w) == CommandOf(Claude, w)
  {
  }

  lemma CodexCommands(w: string)
    ensures ClassOfWord(Codex, w) == CommandOf(Codex, w)
  {
  }

  lemma WordClass(n: Namespace, w: string)
    ensures ClassOfWord(n, w) == CommandOf(n, w)
    ensures w in NativeWords(n) <==> CommandOf(n, w).Some?
  {
    hide CommandOf, METADATA_WORDS, HeadlessWords, ProtocolWords, AdminWords, ExternalWords;
    match n {
      case Codex => CodexCommands(w);
      case Claude => ClaudeCommands(w);
      case Gemini => GeminiCommands(w);
    }
  }

  lemma OptionsAre(n: Namespace, o: string)
    ensures ClassOfOption(n, o) == OptionOf(n, o)
    ensures o in NativeOptions(n) <==> OptionOf(n, o).Some?
    ensures '=' in o ==> OptionOf(n, o).None?
  {
    OptionsDiffer();
  }

  /** A token gives an option as it is, or with an equals sign and a value. */
  predicate Gives(token: string, option: string) {
    token == option || (|option| < |token| && token[..|option|] == option && token[|option|] == '=')
  }

  lemma {:induction false} GivesExactly(token: string, option: string)
    requires '=' !in option
    ensures OptionName(token) == option <==> Gives(token, option)
  {
    hide IndexOf;
    if token == option {
      WholeName(token);
    } else if Gives(token, option) {
      assert token == option + token[|option|..];
      IndexIs(option, '=', token[|option|..]);
    }
  }

  ghost predicate GivesOne(n: Namespace, argv: Argv) {
    exists token, option :: token in argv && OptionOf(n, option).Some? && Gives(token, option)
  }

  lemma GivesOneExactly(n: Namespace, argv: Argv)
    ensures HasOption(argv, NativeOptions(n)) <==> GivesOne(n, argv)
  {
    hide OptionName, OptionOf, Gives, NativeOptions;
    forall token | token in argv
      ensures OptionName(token) in NativeOptions(n)
              <==> exists option :: OptionOf(n, option).Some? && Gives(token, option)
    {
      SpelledIs(n, token);
    }
  }

  ghost predicate Spelled(n: Namespace, token: string) {
    exists option :: OptionOf(n, option).Some? && Gives(token, option)
  }

  lemma SpelledIs(n: Namespace, token: string)
    ensures Spelled(n, token) <==> OptionName(token) in NativeOptions(n)
  {
    hide OptionName, OptionOf, Gives, NativeOptions;
    forall option | OptionOf(n, option).Some?
      ensures OptionName(token) == option <==> Gives(token, option)
    {
      OptionsAre(n, option);
      GivesExactly(token, option);
    }
    OptionsAre(n, OptionName(token));
  }

  /** Without a native option, the first word alone decides what an invocation on a terminal is. */
  lemma FirstWordDecides(n: Namespace, argv: Argv)
    requires !GivesOne(n, argv)
    ensures NativeOwnedClass(n, argv, true)
            == if argv == [] then None else CommandOf(n, argv[0])
  {
    hide CommandOf, GivesOne, METADATA_FLAGS, METADATA_WORDS, HeadlessWords, ProtocolWords, AdminWords, ExternalWords;
    hide OptionName;
    GivesOneExactly(n, argv);
    if argv != [] {
      WordClass(n, argv[0]);
    }
  }

  lemma OneOption(n: Namespace, token: string)
    requires token !in NativeWords(n)
    ensures NativeOwnedClass(n, [token], true) == ClassOfOption(n, OptionName(token))
  {
    hide OptionName, METADATA_WORDS, METADATA_FLAGS, HeadlessWords, ProtocolWords, AdminWords, ExternalWords;
    forall options ensures HasOption([token], options) <==> OptionName(token) in options {
      assert token in [token];
    }
  }

  /** An option alone, with a value or without, is what its list says. */
  lemma OptionDecides(n: Namespace, token: string, option: string)
    requires OptionOf(n, option).Some? && Gives(token, option)
    ensures NativeOwnedClass(n, [token], true) == OptionOf(n, option)
  {
    hide OptionName, Gives, OptionOf, ClassOfOption, NativeOwnedClass, NativeOptions, NativeWords;
    OptionsAre(n, option);
    GivesExactly(token, option);
    OptionIsNoWord(n, token, option);
    OneOption(n, token);
  }

  lemma OptionsDiffer()
    ensures |"--help"| == 6 && |"-h"| == 2 && |"--version"| == 9 && |"--print"| == 7 && |"-p"| == 2 && |"--prompt"| == 8
    ensures |"--acp"| == 5 && |"--experimental-acp"| == 18 && |"--list-sessions"| == 15 && |"--delete-session"| == 16
    ensures "-h" != "-p"
  {
    assert "-h"[1] != "-p"[1];
  }

  lemma OptionIsNoWord(n: Namespace, token: string, option: string)
    requires option in NativeOptions(n) && Gives(token, option)
    ensures token !in NativeWords(n)
  {
    hide NativeOptions, NativeWords;
    OptionsAreDashed(n);
    WordsArePlain(n);
  }

  /** A help or version flag anywhere wins; and without a terminal on both ends, what Gemini is asked for
      otherwise runs headless. */
  lemma MetadataWins(n: Namespace, argv: Argv, token: string, option: string, terminal: bool)
    requires token in argv && (option == "--help" || option == "-h" || option == "--version") && Gives(token, option)
    ensures NativeOwnedClass(n, argv, terminal) == Some(Metadata)
  {
    hide OptionName, Gives;
    assert '=' !in option;
    GivesExactly(token, option);
  }

  lemma NoTerminalIsHeadless(argv: Argv)
    requires !GivesOne(Gemini, argv) && (argv == [] || CommandOf(Gemini, argv[0]).None?)
    ensures NativeOwnedClass(Gemini, argv, false) == Some(Headless)
  {
    hide OptionName, GivesOne, CommandOf, METADATA_WORDS, METADATA_FLAGS;
    GivesOneExactly(Gemini, argv);
    if argv != [] {
      WordClass(Gemini, argv[0]);
    }
  }

  /** An argument that is no option. */
  predicate Positional(x: string) {
    x == "" || x[0] != '-'
  }

  lemma NotOwnedExactly(n: Namespace, argv: Argv)
    ensures NativeOwnedClass(n, argv, true).None?
            <==> !HasOption(argv, NativeOptions(n)) && (argv == [] || argv[0] !in NativeWords(n))
  {
    hide AdminWords, ExternalWords, HeadlessWords, ProtocolWords, METADATA_FLAGS, METADATA_WORDS, OptionName;
  }

  lemma WordsArePlain(n: Namespace)
    ensures forall w | w in NativeWords(n) :: !Dashed(w)
  {
    PlainWords(n);
    PlainMoreWords(n);
    hide AdminWords, ExternalWords, HeadlessWords, ProtocolWords, METADATA_WORDS;
  }

  lemma PlainWords(n: Namespace)
    ensures forall w | w in AdminWords(n) :: !Dashed(w)
    ensures forall w | w in METADATA_WORDS :: !Dashed(w)
  {
  }

  lemma PlainMoreWords(n: Namespace)
    ensures forall w | w in ExternalWords(n) :: !Dashed(w)
    ensures forall w | w in HeadlessWords(n) :: !Dashed(w)
    ensures forall w | w in ProtocolWords(n) :: !Dashed(w)
  {
  }

  lemma OptionsAreDashed(n: Namespace)
    ensures forall o | o in NativeOptions(n) :: Dashed(o)
  {
  }

  /** An invocation is managed exactly if it has the shape of one of the integration's patterns, on a
      terminal, and no native option or word. */
  lemma ManagedIs(d: Digits, n: Namespace, argv: Argv, version: Option<string>, stdin: bool, stdout: bool, ready: bool)
    ensures Classify(d, n, argv, version, stdin, stdout, ready).level != NativePassthrough
            <==> && stdin && stdout && (exists p :: p in Patterns(n) && Matches(p, argv))
                 && !HasOption(argv, NativeOptions(n)) && (argv == [] || argv[0] !in NativeWords(n))
  {
    hide Patterns, FirstMatch, NativeOwnedClass, Matches, NativeOptions, NativeWords, ClassOf, VersionEvidence,
         HasOption;
    FirstMatchIs(Patterns(n), argv);
    NotOwnedExactly(n, argv);
  }

  /** Behind a dashed first token that is no native option, plain tokens keep an invocation managed. */
  lemma DashedIsFree(n: Namespace, argv: Argv)
    requires argv != [] && Dashed(argv[0]) && forall i | 0 <= i < |argv| :: Harmless(n, argv[i])
    ensures !HasOption(argv, NativeOptions(n)) && argv[0] !in NativeWords(n)
  {
    hide NativeOptions, NativeWords, OptionName;
    WordsArePlain(n);
    OptionsAreDashed(n);
    forall token | token in argv ensures OptionName(token) !in NativeOptions(n) {
      if !Dashed(token) {
        PlainIsNoFlag(token, NativeOptions(n));
      }
    }
  }

  predicate Harmless(n: Namespace, token: string) {
    !Dashed(token) || OptionName(token) !in NativeOptions(n)
  }

  /** For Codex the managed invocations are exactly these: none, a resume, a fork, on a terminal. */
  lemma CodexManagedExactly(d: Digits, argv: Argv, version: Option<string>, stdin: bool, stdout: bool, ready: bool)
    ensures var decision := Classify(d, Codex, argv, version, stdin, stdout, ready);
            && (decision.level != NativePassthrough
                <==> && stdin && stdout
                     && (|| argv == []
                         || (exists x :: argv == ["resume", x] && (x == "--last" || Positional(x)))
                         || (exists x :: argv == ["fork", x] && Positional(x))))
            && (decision.level != NativePassthrough ==>
                  decision.commandClass == if argv == [] then HumanRoot
                                           else if argv[0] == "fork" then HumanFork else HumanResume)
  {
    hide NativeOptions, NativeWords, OptionName, VersionEvidence, NativeOwnedClass, HasOption;
    ManagedIs(d, Codex, argv, version, stdin, stdout, ready);
    FirstMatchIs(Patterns(Codex), argv);
    assert Patterns(Codex)[0] == Empty && Patterns(Codex)[1] == CodexResume && Patterns(Codex)[2] == CodexFork;
    hide Patterns, FirstMatch;
    EmptyIsFree(Codex, argv);
    if Matches(CodexResume, argv) || Matches(CodexFork, argv) {
      CodexShapes(argv);
      assert argv == [argv[0], argv[1]] && (argv[1] == "--last" || Positional(argv[1]));
    }
    assert |"resume"| != |"fork"|;
  }

  lemma CodexShapes(argv: Argv)
    requires Matches(CodexResume, argv) || Matches(CodexFork, argv)
    ensures !HasOption(argv, NativeOptions(Codex)) && argv != [] && argv[0] !in NativeWords(Codex)
  {
    hide NativeOptions, NativeWords, OptionName;
    CodexWords(argv[0]);
    OptionsAreDashed(Codex);
    PlainIsNoFlag(argv[0], NativeOptions(Codex));
    if Dashed(argv[1]) {
      WholeName("--last");
      LastIsNoFlag();
    } else {
      PlainIsNoFlag(argv[1], NativeOptions(Codex));
    }
  }

  lemma LastIsNoFlag()
    ensures "--last" !in NativeOptions(Codex)
  {
    assert |"--last"| == 6 && |"--help"| == 6 && |"-h"| == 2 && |"--version"| == 9;
    assert "--last"[2] != "--help"[2];
  }

  lemma CodexWords(word: string)
    requires word == "resume" || word == "fork"
    ensures word !in NativeWords(Codex) && !Dashed(word)
  {
    CodexFewWords(word);
    CodexAdminWords(word);
    hide AdminWords, ExternalWords, HeadlessWords, ProtocolWords, METADATA_WORDS;
  }

  lemma CodexFewWords(word: string)
    requires word == "resume" || word == "fork"
    ensures word !in METADATA_WORDS && word !in HeadlessWords(Codex) && word !in ProtocolWords(Codex)
    ensures word !in ExternalWords(Codex)
  {
    assert |word| == 6 || |word| == 4;
    assert "review"[2] == 'v' && "resume"[2] == 's' && |"remote-control"| == 14 && "help"[0] == 'h';
  }

  lemma CodexAdminWords(word: string)
    requires word == "resume" || word == "fork"
    ensures word !in AdminWords(Codex)
  {
    assert word[0] == 'r' || word[0] == 'f';
    assert |word| == 6 || |word| == 4;
    assert |"features"| == 8;
  }

  /** For Claude they are these: none, a prompt that is no command word, continue, resume, and a control. */
  lemma ClaudeManagedExactly(d: Digits, argv: Argv, version: Option<string>, stdin: bool, stdout: bool, ready: bool)
    ensures Classify(d, Claude, argv, version, stdin, stdout, ready).level != NativePassthrough
            <==> stdin && stdout && ClaudeShape(argv)
  {
    hide Classify, NativeOptions, NativeWords, Matches, CommandOf, ClaudeShape;
    ManagedIs(d, Claude, argv, version, stdin, stdout, ready);
    ClaudePatterns();
    hide Patterns;
    PromptIsFree(Claude, argv);
    EmptyIsFree(Claude, argv);
    ClaudeShapeIs(argv);
    if argv != [] {
      WordClass(Claude, argv[0]);
    }
    if Matches(ClaudeContinue, argv) || Matches(ClaudeResume, argv) || Matches(ClaudeControl, argv) {
      ClaudeShapes(argv);
      DashedIsFree(Claude, argv);
    }
  }

  ghost predicate ClaudeShape(argv: Argv) {
    || argv == [] || argv == ["-c"] || argv == ["--continue"]
    || (exists x :: argv == [x] && Positional(x) && x != "" && CommandOf(Claude, x).None?)
    || (exists x :: (argv == ["-r", x] || argv == ["--resume", x]) && Positional(x))
    || (exists x :: (argv == ["--fork-session", "-r", x] || argv == ["--fork-session", "--resume", x]) && Positional(x))
    || (exists x :: (argv == ["--permission-mode", x] || argv == ["--sandbox", x]) && Positional(x))
  }

  lemma ClaudeShapeIs(argv: Argv)
    ensures ClaudeShape(argv)
            <==> || argv == [] || (Matches(PositionalPrompt, argv) && CommandOf(Claude, argv[0]).None?)
                 || Matches(ClaudeContinue, argv) || Matches(ClaudeResume, argv) || Matches(ClaudeControl, argv)
  {
    hide CommandOf;
    if |argv| == 1 {
      assert argv == [argv[0]] && (Positional(argv[0]) <==> !Dashed(argv[0]));
    } else if |argv| == 2 {
      assert argv == [argv[0], argv[1]] && (Positional(argv[1]) <==> !Dashed(argv[1]));
    } else if |argv| == 3 {
      assert argv == [argv[0], argv[1], argv[2]] && (Positional(argv[2]) <==> !Dashed(argv[2]));
    }
  }

  /** The class of a managed Claude invocation. */
  lemma ClaudeManagedClass(d: Digits, argv: Argv, version: Option<string>, stdin: bool, stdout: bool, ready: bool)
    requires Classify(d, Claude, argv, version, stdin, stdout, ready).level != NativePassthrough
    ensures Classify(d, Claude, argv, version, stdin, stdout, ready).commandClass
            == if argv == [] then HumanRoot
               else if Positional(argv[0]) then HumanPrompt
               else if argv[0] == "--permission-mode" || argv[0] == "--sandbox" then HumanControl
               else HumanResume
  {
    hide NativeOwnedClass, VersionEvidence;
    FirstMatchIs(Patterns(Claude), argv);
    ClaudePatterns();
    hide Patterns, FirstMatch;
    assert |"-c"| == 2 && |"--continue"| == 10 && |"-r"| == 2 && |"--resume"| == 8 && |"--fork-session"| == 14;
    assert |"--permission-mode"| == 17 && |"--sandbox"| == 9;
  }

  lemma ClaudePatterns()
    ensures forall p :: p in Patterns(Claude)
                        <==> p in {Empty, PositionalPrompt, ClaudeContinue, ClaudeResume, ClaudeControl}
  {
    var ps := Patterns(Claude);
    assert ps[0] == Empty && ps[1] == PositionalPrompt && ps[2] == ClaudeContinue;
    assert ps[3] == ClaudeResume && ps[4] == ClaudeControl;
  }

  lemma PromptIsFree(n: Namespace, argv: Argv)
    ensures Matches(PositionalPrompt, argv) ==> !HasOption(argv, NativeOptions(n))
  {
    hide NativeOptions, OptionName;
    OptionsAreDashed(n);
    if Matches(PositionalPrompt, argv) {
      PlainIsNoFlag(argv[0], NativeOptions(n));
    }
  }

  lemma EmptyIsFree(n: Namespace, argv: Argv)
    ensures Matches(Empty, argv) <==> argv == []
    ensures argv == [] ==> !HasOption(argv, NativeOptions(n))
  {
  }

  lemma ClaudeShapes(argv: Argv)
    requires Matches(ClaudeContinue, argv) || Matches(ClaudeResume, argv) || Matches(ClaudeControl, argv)
    ensures argv != [] && Dashed(argv[0]) && forall i | 0 <= i < |argv| :: Harmless(Claude, argv[i])
  {
    hide OptionName, NativeOptions;
    forall token | token in {"-c", "--continue", "-r", "--resume", "--fork-session", "--permission-mode", "--sandbox"}
      ensures Dashed(token) && Harmless(Claude, token)
    {
      ClaudeOption(token);
    }
  }

  lemma ClaudeOption(token: string)
    requires token in {"-c", "--continue", "-r", "--resume", "--fork-session", "--permission-mode", "--sandbox"}
    ensures Dashed(token) && OptionName(token) !in NativeOptions(Claude)
  {
    hide OptionName;
    WholeName(token);
    assert |"--help"| == 6 && |"-h"| == 2 && |"--version"| == 9 && |"--print"| == 7 && |"-p"| == 2;
    assert |"-c"| == 2 && |"-r"| == 2 && |"--resume"| == 8 && |"--continue"| == 10;
    assert |"--fork-session"| == 14 && |"--permission-mode"| == 17 && |"--sandbox"| == 9;
    assert "--sandbox"[2] != "--version"[2];
    assert "-c"[1] == 'c' && "-r"[1] == 'r' && "-h"[1] == 'h' && "-p"[1] == 'p';
  }

  /** For Gemini they are these: none, a prompt that is no command word, a resume, and an interactive
      prompt, which may start with a dash but must not be spelled as a native option. */
  lemma GeminiManagedExactly(d: Digits, argv: Argv, version: Option<string>, stdin: bool, stdout: bool, ready: bool)
    ensures Classify(d, Gemini, argv, version, stdin, stdout, ready).level != NativePassthrough
            <==> stdin && stdout && GeminiShape(argv)
  {
    hide Classify, NativeOptions, NativeWords, Matches, OptionName, CommandOf, GeminiShape, OptionOf, Gives;
    ManagedIs(d, Gemini, argv, version, stdin, stdout, ready);
    GeminiPatterns();
    hide Patterns;
    PromptIsFree(Gemini, argv);
    EmptyIsFree(Gemini, argv);
    GeminiShapeIs(argv);
    if argv != [] {
      WordClass(Gemini, argv[0]);
    }
    if Matches(GeminiResume, argv) || Matches(GeminiInteractive, argv) {
      GeminiShapes(argv);
      SpelledIs(Gemini, argv[1]);
      if Harmless(Gemini, argv[1]) {
        DashedIsFree(Gemini, argv);
      }
      if OptionName(argv[1]) in NativeOptions(Gemini) {
        assert argv[1] in argv && HasOption(argv, NativeOptions(Gemini));
      }
    }
  }

  ghost predicate GeminiShape(argv: Argv) {
    || argv == []
    || (exists x :: argv == [x] && Positional(x) && x != "" && CommandOf(Gemini, x).None?)
    || (exists x :: (argv == ["-r", x] || argv == ["--resume", x]) && Positional(x))
    || (exists x :: (argv == ["-i", x] || argv == ["--prompt-interactive", x]) && x != "" && !Spelled(Gemini, x))
  }

  lemma GeminiShapeIs(argv: Argv)
    ensures GeminiShape(argv)
            <==> || argv == [] || (Matches(PositionalPrompt, argv) && CommandOf(Gemini, argv[0]).None?)
                 || (Matches(GeminiInteractive, argv) && !Spelled(Gemini, argv[1])) || Matches(GeminiResume, argv)
  {
    hide CommandOf, Spelled;
    if |argv| == 1 {
      assert argv == [argv[0]] && (Positional(argv[0]) <==> !Dashed(argv[0]));
    } else if |argv| == 2 {
      assert argv == [argv[0], argv[1]] && (Positional(argv[1]) <==> !Dashed(argv[1]));
    }
  }

  /** The class of a managed Gemini invocation. */
  lemma GeminiManagedClass(d: Digits, argv: Argv, version: Option<string>, stdin: bool, stdout: bool, ready: bool)
    requires Classify(d, Gemini, argv, version, stdin, stdout, ready).level != NativePassthrough
    ensures Classify(d, Gemini, argv, version, stdin, stdout, ready).commandClass
            == if argv == [] then HumanRoot
               else if argv[0] == "-r" || argv[0] == "--resume" then HumanResume
               else HumanPrompt
  {
    hide NativeOwnedClass, VersionEvidence;
    FirstMatchIs(Patterns(Gemini), argv);
    GeminiPatterns();
    hide Patterns, FirstMatch;
    assert |"-i"| == 2 && |"--prompt-interactive"| == 20 && |"-r"| == 2 && |"--resume"| == 8 && "-i"[1] != "-r"[1];
    assert "-r"[0] == '-' && "--resume"[0] == '-';
  }

  lemma GeminiPatterns()
    ensures forall p :: p in Patterns(Gemini) <==> p in {Empty, PositionalPrompt, GeminiInteractive, GeminiResume}
  {
    var ps := Patterns(Gemini);
    assert ps[0] == Empty && ps[1] == PositionalPrompt && ps[2] == GeminiInteractive && ps[3] == GeminiResume;
  }

  lemma GeminiShapes(argv: Argv)
    requires Matches(GeminiResume, argv) || Matches(GeminiInteractive, argv)
    ensures |argv| == 2 && Dashed(argv[0]) && Harmless(Gemini, argv[0])
    ensures Matches(GeminiResume, argv) ==> Harmless(Gemini, argv[1]) && !Matches(GeminiInteractive, argv)
  {
    hide OptionName, NativeOptions;
    forall token | token in {"-i", "--prompt-interactive", "-r", "--resume"}
      ensures Dashed(token) && Harmless(Gemini, token)
    {
      GeminiOption(token);
    }
    assert "-i"[1] != "-r"[1] && |"-i"| == |"-r"| == 2 && |"--resume"| == 8 && |"--prompt-interactive"| == 20;
  }

  lemma GeminiOption(token: string)
    requires token in {"-i", "--prompt-interactive", "-r", "--resume"}
    ensures Dashed(token) && OptionName(token) !in NativeOptions(Gemini)
  {
    hide OptionName;
    WholeName(token);
    assert |"--help"| == 6 && |"-h"| == 2 && |"--version"| == 9 && |"--prompt"| == 8 && |"-p"| == 2;
    assert |"--experimental-acp"| == 18 && |"--acp"| == 5 && |"--list-sessions"| == 15 && |"--delete-session"| == 16;
    assert |"-i"| == 2 && |"-r"| == 2 && |"--resume"| == 8 && |"--prompt-interactive"| == 20;
    assert "--resume"[2] != "--prompt"[2];
    assert "-i"[1] == 'i' && "-r"[1] == 'r' && "-h"[1] == 'h' && "-p"[1] == 'p';
  }
}
