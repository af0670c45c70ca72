/**
 The import-boundary check with its allowlist of temporary violations. Follows
 `check_import_boundaries`, `_allowlist_match`, `_context_name` and `_target_context` in
 scripts/check_architecture.py; the imports themselves come from the Python parser.
 */
module ImportRatchet {
  import opened Wrappers
  import opened Text

  const PACKAGE := "gigaloom"

  /** One first-party import: the importing file, the dotted target, the line. */
  datatype Record = Record(source: string, target: string, line: nat)

  datatype Rule = Rule(
    id: string,
    sources: set<string>,
    targetContexts: Option<set<string>>,
    crossContextOnly: bool,
    allowedTargets: Option<set<string>>,
    forbiddenTargets: set<string>,
    allowedModules: Option<set<string>>)

  datatype Entry = Entry(source: string, target: string, owner: string, removalGate: string)

  datatype Finding = Forbids(record: Record, rule: string) | Stale(entry: Entry)

  // ---------- What is forbidden ----------

  function ContextName(path: string): string {
    var context := SplitOn(path, '/')[0];
    if |context| >= 3 && context[|context| - 3..] == ".py" then context[..|context| - 3] else context
  }

  function TargetContext(target: string): Option<string> {
    var parts := SplitOn(target, '.');
    if |parts| < 2 || parts[0] != PACKAGE then None else Some(parts[1])
  }

  predicate Forbidden(record: Record, rule: Rule) {
    var source := ContextName(record.source);
    var context := TargetContext(record.target);
    var parts := SplitOn(record.target, '.');
    && context.Some?
    && source in rule.sources
    && (rule.targetContexts.None? || context.value in rule.targetContexts.value)
    && !(rule.crossContextOnly && source == context.value)
    && (|| (rule.allowedTargets.Some? && context.value !in rule.allowedTargets.value)
        || context.value in rule.forbiddenTargets
        || (rule.allowedModules.Some? && |parts| > 2 && parts[2] !in rule.allowedModules.value))
  }

  predicate Covers(entry: Entry, record: Record) {
    && record.source == entry.source
    && (record.target == entry.target || StartsWith(record.target, entry.target + "."))
  }

  /** The first entry that covers the import; the length if none does. */
  function FirstCover(allowlist: seq<Entry>, record: Record): (k: nat)
    ensures k <= |allowlist|
    ensures k < |allowlist| ==> Covers(allowlist[k], record)
  {
    if allowlist == [] then 0
    else if Covers(allowlist[0], record) then 0
    else 1 + FirstCover(allowlist[1..], record)
  }

  // ---------- The report ----------

  function RulesReport(record: Record, rules: seq<Rule>, allowlist: seq<Entry>): seq<Finding> {
    if rules == [] then []
    else
      RulesReport(record, rules[..|rules| - 1], allowlist)
      + if Forbidden(record, rules[|rules| - 1]) && FirstCover(allowlist, record) == |allowlist|
        then [Forbids(record, rules[|rules| - 1].id)] else []
  }

  function ImportsReport(records: seq<Record>, rules: seq<Rule>, allowlist: seq<Entry>): seq<Finding> {
    if records == [] then []
    else ImportsReport(records[..|records| - 1], rules, allowlist)
         + RulesReport(records[|records| - 1], rules, allowlist)
  }

  ghost predicate ForbiddenImport(record: Record, rules: seq<Rule>) {
    exists rule :: rule in rules && Forbidden(record, rule)
  }

  /** The entry is what the check uses for some forbidden import. */
  ghost predicate Used(index: nat, records: seq<Record>, rules: seq<Rule>, allowlist: seq<Entry>) {
    exists record :: record in records && ForbiddenImport(record, rules) && FirstCover(allowlist, record) == index
  }

  function StaleReport(used: set<nat>, allowlist: seq<Entry>, n: nat): seq<Finding>
    requires n <= |allowlist|
  {
    if n == 0 then []
    else StaleReport(used, allowlist, n - 1) + if n - 1 in used then [] else [Stale(allowlist[n - 1])]
  }

  predicate ValidEntry(entry: Entry) {
    && entry.owner != "" && entry.removalGate != "" && entry.source != "" && entry.target != ""
    && forall c | c in entry.source :: c !in "*?["
  }

  /** An entry without owner, gate, source or target, or whose source is a pattern. */
  ghost predicate Unreviewable(entry: Entry) {
    || |entry.owner| == 0 || |entry.removalGate| == 0 || |entry.source| == 0 || |entry.target| == 0
    || (exists k | 0 <= k < |entry.source| ::
          entry.source[k] == '*' || entry.source[k] == '?' || entry.source[k] == '[')
  }

  lemma UnreviewableExactly(entry: Entry)
    ensures ValidEntry(entry) <==> !Unreviewable(entry)
  {
    assert forall c :: c in "*?[" <==> c == '*' || c == '?' || c == '[' by {
      forall c ensures c in "*?[" <==> c == '*' || c == '?' || c == '[' {
        assert "*?["[0] == '*' && "*?["[1] == '?' && "*?["[2] == '[';
      }
    }
    assert forall k | 0 <= k < |entry.source| :: entry.source[k] in entry.source;
  }

  method AllowlistMatch(record: Record, allowlist: seq<Entry>) returns (index: Option<nat>)
    ensures index == if FirstCover(allowlist, record) == |allowlist| then None else Some(FirstCover(allowlist, record))
  {
    hide Covers;
    for i := 0 to |allowlist|
      invariant forall j | 0 <= j < i :: !Covers(allowlist[j], record)
    {
      if Covers(allowlist[i], record) {
        FirstCoverIs(allowlist, record, i);
        return Some(i);
      }
    }
    FirstCoverIs(allowlist, record, |allowlist|);
    return None;
  }

  lemma {:induction false} FirstCoverIs(allowlist: seq<Entry>, record: Record, k: nat)
    requires k <= |allowlist|
    requires forall j | 0 <= j < k :: !Covers(allowlist[j], record)
    requires k < |allowlist| ==> Covers(allowlist[k], record)
    ensures FirstCover(allowlist, record) == k
  {
    hide Covers;
    if k > 0 {
      FirstCoverIs(allowlist[1..], record, k - 1);
    }
  }

  lemma {:induction false} NoneEarlier(allowlist: seq<Entry>, record: Record, j: nat)
    requires j < FirstCover(allowlist, record)
    ensures !Covers(allowlist[j], record)
  {
    hide Covers;
    if j > 0 {
      NoneEarlier(allowlist[1..], record, j - 1);
    }
  }

  ghost predicate UsedExactly(used: set<nat>, records: seq<Record>, rules: seq<Rule>, allowlist: seq<Entry>) {
    forall i | 0 <= i < |allowlist| :: i in used <==> Used(i, records, rules, allowlist)
  }

  method CheckRecord(record: Record, rules: seq<Rule>, allowlist: seq<Entry>, violations: seq<Finding>, used: set<nat>)
    returns (violations': seq<Finding>, used': set<nat>)
    ensures violations' == violations + RulesReport(record, rules, allowlist)
    ensures used' == if ForbiddenImport(record, rules) && FirstCover(allowlist, record) < |allowlist|
                     then used + {FirstCover(allowlist, record)} else used
  {
    hide Forbidden, FirstCover;
    violations', used' := violations, used;
    for r := 0 to |rules|
      invariant violations' == violations + RulesReport(record, rules[..r], allowlist)
      invariant used' == if ForbiddenImport(record, rules[..r]) && FirstCover(allowlist, record) < |allowlist|
                         then used + {FirstCover(allowlist, record)} else used
    {
      OneRuleMore(record, rules, r);
      assert rules[..r + 1][..r] == rules[..r];
      if Forbidden(record, rules[r]) {
        var found := AllowlistMatch(record, allowlist);
        if found.None? {
          violations' := violations' + [Forbids(record, rules[r].id)];
        } else {
          used' := used' + {found.value};
        }
      }
    }
    assert rules[..|rules|] == rules;
  }

  lemma OneRuleMore(record: Record, rules: seq<Rule>, r: nat)
    requires r < |rules|
    ensures ForbiddenImport(record, rules[..r + 1])
            <==> ForbiddenImport(record, rules[..r]) || Forbidden(record, rules[r])
  {
    hide Forbidden;
    assert rules[..r + 1] == rules[..r] + [rules[r]];
  }

  lemma OneRecordMore(i: nat, records: seq<Record>, n: nat, rules: seq<Rule>, allowlist: seq<Entry>)
    requires n < |records|
    ensures Used(i, records[..n + 1], rules, allowlist)
            <==> || Used(i, records[..n], rules, allowlist)
                 || (ForbiddenImport(records[n], rules) && FirstCover(allowlist, records[n]) == i)
  {
    hide ForbiddenImport, FirstCover;
    assert records[..n + 1] == records[..n] + [records[n]];
  }

  /** The check: forbidden imports without an entry, then the entries that were not used. */
  method CheckImportBoundaries(records: seq<Record>, rules: seq<Rule>, allowlist: seq<Entry>)
    returns (report: Result<seq<Finding>, ()>)
    ensures report.Failure? <==> exists entry :: entry in allowlist && Unreviewable(entry)
    ensures report.Success? ==>
              exists used ::
                && UsedExactly(used, records, rules, allowlist)
                && report.value == ImportsReport(records, rules, allowlist) + StaleReport(used, allowlist, |allowlist|)
  {
    hide Forbidden, FirstCover, ForbiddenImport, Used, ValidEntry, Unreviewable;
    for i := 0 to |allowlist|
      invariant forall j | 0 <= j < i :: !Unreviewable(allowlist[j])
    {
      UnreviewableExactly(allowlist[i]);
      if !ValidEntry(allowlist[i]) {
        return Failure(());
      }
    }
    var violations: seq<Finding> := [];
    var used: set<nat> := {};
    NothingUsed(rules, allowlist);
    assert records[..0] == [];
    for n := 0 to |records|
      invariant violations == ImportsReport(records[..n], rules, allowlist)
      invariant UsedExactly(used, records[..n], rules, allowlist)
    {
      var before := used;
      violations, used := CheckRecord(records[n], rules, allowlist, violations, used);
      assert records[..n + 1][..n] == records[..n];
      forall i | 0 <= i < |allowlist| ensures i in used <==> Used(i, records[..n + 1], rules, allowlist) {
        OneRecordMore(i, records, n, rules, allowlist);
        assert i in before <==> Used(i, records[..n], rules, allowlist);
      }
    }
    assert records[..|records|] == records;
    var stale: seq<Finding> := [];
    for i := 0 to |allowlist|
      invariant stale == StaleReport(used, allowlist, i)
    {
      if i !in used {
        stale := stale + [Stale(allowlist[i])];
      }
    }
    return Success(violations + stale);
  }

  lemma NothingUsed(rules: seq<Rule>, allowlist: seq<Entry>)
    ensures UsedExactly({}, [], rules, allowlist)
  {
  }

  // ---------- What a clean report means ----------

  /** Every forbidden import is covered, and every entry is needed as a first cover. */
  ghost predicate Clean(records: seq<Record>, rules: seq<Rule>, allowlist: seq<Entry>) {
    && (forall record | record in records && ForbiddenImport(record, rules) ::
          FirstCover(allowlist, record) < |allowlist|)
    && (forall i | 0 <= i < |allowlist| :: Used(i, records, rules, allowlist))
  }

  lemma {:induction false} RulesReportEmpty(record: Record, rules: seq<Rule>, allowlist: seq<Entry>)
    ensures RulesReport(record, rules, allowlist) == []
            <==> !ForbiddenImport(record, rules) || FirstCover(allowlist, record) < |allowlist|
  {
    hide Forbidden, FirstCover;
    if rules != [] {
      var r := |rules| - 1;
      RulesReportEmpty(record, rules[..r], allowlist);
      OneRuleMore(record, rules, r);
      assert rules[..r + 1] == rules;
    }
  }

  lemma {:induction false} ImportsReportEmpty(records: seq<Record>, rules: seq<Rule>, allowlist: seq<Entry>)
    ensures ImportsReport(records, rules, allowlist) == []
            <==> forall record | record in records && ForbiddenImport(record, rules) ::
                   FirstCover(allowlist, record) < |allowlist|
  {
    hide ForbiddenImport, FirstCover, RulesReport;
    if records != [] {
      var init, last := records[..|records| - 1], records[|records| - 1];
      assert records == init + [last];
      ImportsReportEmpty(init, rules, allowlist);
      RulesReportEmpty(last, rules, allowlist);
    }
  }

  lemma {:induction false} StaleReportEmpty(used: set<nat>, allowlist: seq<Entry>, n: nat)
    requires n <= |allowlist|
    ensures StaleReport(used, allowlist, n) == [] <==> forall i | 0 <= i < n :: i in used
  {
    if n > 0 {
      StaleReportEmpty(used, allowlist, n - 1);
    }
  }

  /** The report is empty exactly for a clean pair of imports and allowlist. */
  lemma EmptyExactly(records: seq<Record>, rules: seq<Rule>, allowlist: seq<Entry>, used: set<nat>)
    requires UsedExactly(used, records, rules, allowlist)
    ensures ImportsReport(records, rules, allowlist) + StaleReport(used, allowlist, |allowlist|) == []
            <==> Clean(records, rules, allowlist)
  {
    hide ForbiddenImport, FirstCover, ImportsReport, StaleReport, Used;
    ImportsReportEmpty(records, rules, allowlist);
    StaleReportEmpty(used, allowlist, |allowlist|);
  }

  /** An entry behind one that covers all it covers is never used: a shadowed entry is always reported. */
  lemma ShadowedIsStale(records: seq<Record>, rules: seq<Rule>, allowlist: seq<Entry>, i: nat, j: nat)
    requires i < j < |allowlist|
    requires forall record | record in records && Covers(allowlist[j], record) :: Covers(allowlist[i], record)
    ensures !Used(j, records, rules, allowlist)
  {
    hide Covers;
    if Used(j, records, rules, allowlist) {
      var record :| record in records && ForbiddenImport(record, rules) && FirstCover(allowlist, record) == j;
      NoneEarlier(allowlist, record, i);
    }
  }

  function Without(allowlist: seq<Entry>, k: nat): seq<Entry>
    requires k < |allowlist|
  {
    allowlist[..k] + allowlist[k + 1..]
  }

  /** Where the first cover goes when another entry is taken away. */
  lemma FirstCoverWithout(allowlist: seq<Entry>, record: Record, k: nat)
    requires k < |allowlist| && FirstCover(allowlist, record) != k
    ensures var f := FirstCover(allowlist, record);
            FirstCover(Without(allowlist, k), record) == if f < k then f else f - 1
  {
    hide Covers, FirstCover;
    var f := FirstCover(allowlist, record);
    var less := Without(allowlist, k);
    var g := if f < k then f else f - 1;
    forall j | 0 <= j < g ensures !Covers(less[j], record) {
      NoneEarlier(allowlist, record, if j < k then j else j + 1);
    }
    FirstCoverAt(allowlist, record);
    FirstCoverIs(less, record, g);
  }

  lemma FirstCoverAt(allowlist: seq<Entry>, record: Record)
    ensures var k := FirstCover(allowlist, record);
            k <= |allowlist| && (k < |allowlist| ==> Covers(allowlist[k], record))
  {
  }

  /**
   An entry can be taken from a clean allowlist, and leave it clean, exactly if every forbidden import
   that it covers is covered by another entry: the ratchet does not report such a redundant entry.
   */
  lemma RemovalExactly(records: seq<Record>, rules: seq<Rule>, allowlist: seq<Entry>, k: nat)
    requires k < |allowlist| && Clean(records, rules, allowlist)
    ensures Clean(records, rules, Without(allowlist, k))
            <==> forall record | record in records && ForbiddenImport(record, rules) && Covers(allowlist[k], record) ::
                   exists j :: 0 <= j < |allowlist| && j != k && Covers(allowlist[j], record)
  {
    hide Covers, FirstCover, ForbiddenImport;
    var less := Without(allowlist, k);
    forall i | 0 <= i < |less| ensures Used(i, records, rules, less) {
      var was: nat := if i < k then i else i + 1;
      assert Used(was, records, rules, allowlist);
      var record :| record in records && ForbiddenImport(record, rules) && FirstCover(allowlist, record) == was;
      FirstCoverWithout(allowlist, record, k);
    }
    forall record | record in records && ForbiddenImport(record, rules)
      ensures FirstCover(less, record) < |less|
              <==> exists j :: 0 <= j < |allowlist| && j != k && Covers(allowlist[j], record)
    {
      CoveredWithout(allowlist, record, k);
    }
    forall record | record in records && ForbiddenImport(record, rules) && !Covers(allowlist[k], record)
      ensures exists j :: 0 <= j < |allowlist| && j != k && Covers(allowlist[j], record)
    {
      FirstCoverAt(allowlist, record);
      assert FirstCover(allowlist, record) < |allowlist|;
    }
  }

  lemma CoveredWithout(allowlist: seq<Entry>, record: Record, k: nat)
    requires k < |allowlist|
    ensures FirstCover(Without(allowlist, k), record) < |Without(allowlist, k)|
            <==> exists j :: 0 <= j < |allowlist| && j != k && Covers(allowlist[j], record)
  {
    hide Covers, FirstCover;
    var less := Without(allowlist, k);
    var g := FirstCover(less, record);
    FirstCoverAt(less, record);
    if g < |less| {
      var j := if g < k then g else g + 1;
      assert less[g] == allowlist[j];
      assert Covers(allowlist[j], record);
    } else if exists j :: 0 <= j < |allowlist| && j != k && Covers(allowlist[j], record) {
      var j :| 0 <= j < |allowlist| && j != k && Covers(allowlist[j], record);
      NoneEarlier(less, record, if j < k then j else j - 1);
    }
  }

  // ---------- What a rule forbids, in terms of names ----------

  function Dotted(a: string, b: string): string {
    a + (['.'] + b)
  }

  lemma DottedSplits(a: string, b: string)
    requires '.' !in a
    ensures SplitOn(Dotted(a, b), '.') == [a] + SplitOn(b, '.')
  {
    hide IndexOf;
    IndexIs(a, '.', ['.'] + b);
    assert Dotted(a, b)[..|a|] == a && Dotted(a, b)[|a| + 1..] == b;
  }

  lemma ModuleParts(package: string, context: string, name: string)
    requires '.' !in package && '.' !in context && '.' !in name
    ensures SplitOn(Dotted(package, Dotted(context, name)), '.') == [package, context, name]
  {
    hide SplitOn;
    DottedSplits(package, Dotted(context, name));
    DottedSplits(context, name);
    SplitOne(name, '.');
  }

  /** A dotted target of the package: the context, and the module in it if one is named, with what is below. */
  function TargetIn(context: string, part: Option<string>, below: Option<string>): string {
    Dotted("gigaloom", match part
                       case None => context
                       case Some(name) =>
                         Dotted(context, if below.None? then name else Dotted(name, below.value)))
  }

  /** What a rule lets a context import: nothing is said about other contexts, or other targets, or the context
      itself where only crossing is ruled; a target must be allowed if there is a list, and not forbidden, and so
      must its part. */
  ghost predicate Permits(rule: Rule, from: string, context: string, part: Option<string>) {
    || from !in rule.sources
    || (rule.targetContexts.Some? && context !in rule.targetContexts.value)
    || (rule.crossContextOnly && context == from)
    || (&& context !in rule.forbiddenTargets
        && (rule.allowedTargets.Some? ==> context in rule.allowedTargets.value)
        && (part.Some? && rule.allowedModules.Some? ==> part.value in rule.allowedModules.value))
  }

  predicate Name(s: string) {
    '.' !in s && '/' !in s
  }

  lemma PartsOf(context: string, part: Option<string>, below: Option<string>)
    requires Name(context) && (part.Some? ==> Name(part.value))
    ensures var parts := SplitOn(TargetIn(context, part, below), '.');
            && |parts| >= 2 && parts[0] == PACKAGE && parts[1] == context
            && (|parts| > 2 <==> part.Some?) && (part.Some? ==> parts[2] == part.value)
  {
    hide SplitOn, Dotted;
    PackageHasNoDot();
    var rest := if part.None? then context
                else Dotted(context, if below.None? then part.value else Dotted(part.value, below.value));
    DottedSplits(PACKAGE, rest);
    if part.None? {
      SplitOne(context, '.');
    } else {
      var tail := if below.None? then part.value else Dotted(part.value, below.value);
      DottedSplits(context, tail);
      if below.None? {
        SplitOne(part.value, '.');
      } else {
        DottedSplits(part.value, below.value);
      }
    }
  }

  lemma {:induction false} FirstOfPath(directory: string, rest: string)
    requires '/' !in directory
    ensures SplitOn(directory + (['/'] + rest), '/')[0] == directory && SplitOn(directory, '/')[0] == directory
  {
    hide IndexOf;
    IndexIs(directory, '/', ['/'] + rest);
    assert (directory + (['/'] + rest))[..|directory|] == directory;
    SplitOne(directory, '/');
  }

  /** A file belongs to the directory it is in, or to itself if it is a module at the top. */
  lemma ContextOf(directory: string, rest: string)
    requires Name(directory)
    ensures ContextName(directory + (['/'] + rest)) == directory
    ensures ContextName(directory + ".py") == directory
  {
    hide SplitOn;
    FirstOfPath(directory, rest);
    assert '/' !in directory + ".py";
    FirstOfPath(directory + ".py", rest);
    var path := directory + ".py";
    assert path[|path| - 3..] == ".py" && path[..|path| - 3] == directory;
    if |directory| >= 3 {
      assert directory[|directory| - 3..][0] == directory[|directory| - 3] != '.' && ".py"[0] == '.';
    }
  }

  /** An import of the package is forbidden exactly if the rule does not permit it. */
  lemma ForbiddenExactly(record: Record, rule: Rule, from: string, rest: string, context: string,
                         part: Option<string>, below: Option<string>)
    requires Name(from) && Name(context) && (part.Some? ==> Name(part.value))
    requires record.source == from + (['/'] + rest) || record.source == from + ".py"
    requires record.target == TargetIn(context, part, below)
    ensures Forbidden(record, rule) <==> !Permits(rule, from, context, part)
  {
    hide SplitOn, ContextName, TargetIn, Name, PACKAGE;
    ContextOf(from, rest);
    PartsOf(context, part, below);
    assert TargetContext(record.target) == Some(context);
  }

  /** Whatever is not of the package is never forbidden, nor is the package itself. */
  lemma ForeignIsPermitted(record: Record, rule: Rule, first: string, rest: string)
    requires '.' !in first && first != "gigaloom"
    requires record.target == Dotted(first, rest) || record.target == first || record.target == "gigaloom"
    ensures !Forbidden(record, rule)
  {
    hide SplitOn, Dotted, ContextName;
    PackageHasNoDot();
    DottedSplits(first, rest);
    SplitOne(first, '.');
    SplitOne(PACKAGE, '.');
  }

  /** An entry covers the imports of its file that are its target or below it: the target, and at most a dot
      and more behind it. */
  lemma CoversExactly(entry: Entry, record: Record)
    ensures Covers(entry, record)
            <==> && entry.source == record.source && |entry.target| <= |record.target|
                 && (forall k | 0 <= k < |entry.target| :: record.target[k] == entry.target[k])
                 && (|record.target| == |entry.target| || record.target[|entry.target|] == '.')
  {
    var dotted := entry.target + ".";
    if entry.source == record.source && |entry.target| < |record.target|
       && (forall k | 0 <= k < |entry.target| :: record.target[k] == entry.target[k])
       && record.target[|entry.target|] == '.'
    {
      assert record.target[..|dotted|] == dotted;
    }
    if StartsWith(record.target, dotted) {
      forall k | 0 <= k < |dotted| ensures record.target[k] == dotted[k] {
        assert record.target[..|dotted|][k] == dotted[k];
      }
    }
  }

  // ---------- A redundant entry that stays ----------

  lemma DottedTwice(a: string, b: string, c: string)
    ensures Dotted(Dotted(a, b), c) == Dotted(a, Dotted(b, c))
  {
  }

  /** A text behind a dotted name and a dot has a dot behind the name. */
  lemma BelowHasDot(context: string, a: string, b: string)
    ensures StartsWith(Dotted(context, b), Dotted(context, a) + ".") ==> '.' in b
    ensures Dotted(context, a) == Dotted(context, b) ==> a == b
    ensures StartsWith(Dotted(context, b), context + ".")
  {
    var target := Dotted(context, b);
    var prefix := Dotted(context, a) + ".";
    var k := |context| + 1 + |a|;
    assert |prefix| <= |target| ==> target[..k + 1][k] == target[k] == b[|a|];
    assert prefix[k] == '.';
    assert target[|context| + 1..] == b && Dotted(context, a)[|context| + 1..] == a;
    assert target[..|context| + 1] == context + ".";
  }

  lemma NarrowFirst(narrow: Entry, broad: Entry, first: Record, second: Record, rules: seq<Rule>)
    requires ForbiddenImport(first, rules) && ForbiddenImport(second, rules)
    requires Covers(narrow, first) && !Covers(narrow, second) && Covers(broad, first) && Covers(broad, second)
    ensures Clean([first, second], rules, [narrow, broad]) && Clean([first, second], rules, [broad])
  {
    hide Covers, ForbiddenImport, FirstCover;
    FirstCoverIs([narrow, broad], first, 0);
    FirstCoverIs([narrow, broad], second, 1);
    FirstCoverIs([broad], first, 0);
    FirstCoverIs([broad], second, 0);
    assert first in [first, second] && second in [first, second];
  }

  lemma ImportForbidden(record: Record, context: string, name: string, rule: Rule)
    requires '.' !in context && '.' !in name && record.target == Dotted(Dotted(PACKAGE, context), name)
    requires ContextName(record.source) in rule.sources && rule.targetContexts.None? && !rule.crossContextOnly
    requires context in rule.forbiddenTargets
    ensures ForbiddenImport(record, [rule])
  {
    hide ContextName, SplitOn, Dotted;
    PackageHasNoDot();
    DottedTwice(PACKAGE, context, name);
    ModuleParts(PACKAGE, context, name);
    assert TargetContext(record.target) == Some(context);
    assert Forbidden(record, rule);
    assert rule in [rule];
  }

  lemma PackageHasNoDot()
    ensures '.' !in PACKAGE
  {
  }

  /** A clean allowlist with an entry nobody needs: the narrow entry comes first and takes the import that
      the broad one covers as well, and the broad one is used for a second import. */
  lemma RedundantEntryStays(source: string, context: string, a: string, b: string, rule: Rule)
    requires '.' !in context && '.' !in a && '.' !in b && a != b
    requires ContextName(source) in rule.sources && rule.targetContexts.None? && !rule.crossContextOnly
    requires context in rule.forbiddenTargets
    ensures var whole := Dotted(PACKAGE, context);
            var narrow := Entry(source, Dotted(whole, a), "owner", "gate");
            var broad := Entry(source, whole, "owner", "gate");
            var records := [Record(source, Dotted(whole, a), 1), Record(source, Dotted(whole, b), 2)];
            && Clean(records, [rule], [narrow, broad]) && Clean(records, [rule], [broad])
            && Without([narrow, broad], 0) == [broad]
  {
    hide ContextName, Dotted, Clean, ForbiddenImport, PACKAGE;
    var whole := Dotted(PACKAGE, context);
    var narrow := Entry(source, Dotted(whole, a), "owner", "gate");
    var broad := Entry(source, whole, "owner", "gate");
    var first, second := Record(source, Dotted(whole, a), 1), Record(source, Dotted(whole, b), 2);
    ImportForbidden(first, context, a, rule);
    ImportForbidden(second, context, b, rule);
    BelowHasDot(whole, a, b);
    BelowHasDot(whole, a, a);
    NarrowFirst(narrow, broad, first, second, [rule]);
    assert Without([narrow, broad], 0) == [broad];
  }
}
