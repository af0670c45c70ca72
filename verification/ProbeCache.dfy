/**
 The two caches in front of the external CLI probes: one per process, keyed by the version line that
 the CLI prints, and one per scope. Follows `probe_cli_capabilities`, `cli_capability_probe_scope`
 and `invalidate_cli_probe_cache` in src/gigaloom/cli_capabilities.py.

 What a CLI prints besides its version is a function of the harness, the command and that version:
 the `world`. Each probe event carries what the version run would give at that moment.
 */
module ProbeCache {
  import opened Wrappers

  datatype Target = Target(harness: string, command: seq<string>)

  datatype Snapshot = Snapshot(harness: string, status: string, version: Option<string>, detail: string)

  datatype VersionRun = Printed(line: string) | Failed(message: string)

  /** The capability snapshot that the help probes give for a target at a version. */
  type World = (Target, string) -> Snapshot

  datatype Event =
    | Probe(target: Target, misconfigured: Option<string>, versionRun: VersionRun)
    | EnterScope
    | LeaveScope
    | InvalidateAll

  /** `scoped` is there while at least one scope is open; inner scopes share it. */
  datatype Caches = Caches(
    byVersion: map<(Target, string), Snapshot>,
    scoped: Option<map<Target, Snapshot>>,
    depth: nat)

  /** A probe's answer, and whether it had to ask for the version and for the help texts. */
  datatype Answer = Answer(snapshot: Snapshot, ranVersion: bool, ranHelp: bool)

  const START: Caches := Caches(map[], None, 0)

  function VersionFailure(target: Target, message: string): Snapshot {
    Snapshot(target.harness, "error", None, message)
  }

  /** The answer without any process, if the executable could not be configured or was not found. */
  function EarlyAnswer(target: Target, misconfigured: Option<string>): Option<Snapshot> {
    if misconfigured.Some? then Some(Snapshot(target.harness, "error", None, misconfigured.value))
    else if target.command == [] then Some(Snapshot(target.harness, "missing", None, "executable was not found"))
    else None
  }

  /** The probe gets as far as the caches. */
  predicate Asks(e: Event) {
    e.Probe? && EarlyAnswer(e.target, e.misconfigured).None?
  }

  /** What a probe would say if there were no caches. */
  function Uncached(world: World, e: Event): Snapshot
    requires e.Probe?
  {
    if EarlyAnswer(e.target, e.misconfigured).Some? then EarlyAnswer(e.target, e.misconfigured).value
    else
      match e.versionRun
      case Failed(message) => VersionFailure(e.target, message)
      case Printed(line) => world(e.target, line)
  }

  /** An executable that could not be configured, or was not found, or did not print its version is told as such,
      whatever the world is. */
  lemma UncachedExactly(world: World, e: Event)
    requires e.Probe?
    ensures Asks(e) <==> e.misconfigured.None? && |e.target.command| > 0
    ensures e.misconfigured.Some? ==>
              Uncached(world, e) == Snapshot(e.target.harness, "error", None, e.misconfigured.value)
    ensures e.misconfigured.None? && |e.target.command| == 0 ==>
              Uncached(world, e) == Snapshot(e.target.harness, "missing", None, "executable was not found")
    ensures Asks(e) && e.versionRun.Failed? ==>
              Uncached(world, e) == Snapshot(e.target.harness, "error", None, e.versionRun.message)
    ensures Asks(e) && e.versionRun.Printed? ==> Uncached(world, e) == world(e.target, e.versionRun.line)
  {
  }

  function Remember(caches: Caches, target: Target, snapshot: Snapshot): Caches {
    if caches.scoped.None? then caches
    else caches.(scoped := Some(caches.scoped.value[target := snapshot]))
  }

  function ProbeStep(world: World, caches: Caches, target: Target, misconfigured: Option<string>,
                     versionRun: VersionRun): (Caches, Answer)
  {
    if EarlyAnswer(target, misconfigured).Some? then
      (caches, Answer(EarlyAnswer(target, misconfigured).value, false, false))
    else if caches.scoped.Some? && target in caches.scoped.value then
      (caches, Answer(caches.scoped.value[target], false, false))
    else
      match versionRun
      case Failed(message) =>
        var snapshot := VersionFailure(target, message);
        (Remember(caches, target, snapshot), Answer(snapshot, true, false))
      case Printed(line) =>
        if (target, line) in caches.byVersion then
          var snapshot := caches.byVersion[(target, line)];
          (Remember(caches, target, snapshot), Answer(snapshot, true, false))
        else
          var snapshot := world(target, line);
          var stored := caches.(byVersion := caches.byVersion[(target, line) := snapshot]);
          (Remember(stored, target, snapshot), Answer(snapshot, true, true))
  }

  function Step(world: World, caches: Caches, e: Event): Caches {
    match e
    case Probe(target, misconfigured, versionRun) => ProbeStep(world, caches, target, misconfigured, versionRun).0
    case EnterScope =>
      caches.(scoped := if caches.depth == 0 then Some(map[]) else caches.scoped, depth := caches.depth + 1)
    case LeaveScope =>
      if caches.depth == 0 then caches
      else caches.(scoped := if caches.depth == 1 then None else caches.scoped, depth := caches.depth - 1)
    case InvalidateAll =>
      caches.(byVersion := map[], scoped := if caches.scoped.None? then None else Some(map[]))
  }

  // ---------- The module state ----------

  class ProbeCaches {
    var byVersion: map<(Target, string), Snapshot>
    var scoped: Option<map<Target, Snapshot>>
    var depth: nat

    constructor ()
      ensures State() == START
    {
      byVersion, scoped, depth := map[], None, 0;
    }

    function State(): Caches
      reads this
    {
      Caches(byVersion, scoped, depth)
    }

    method Probe(world: World, target: Target, misconfigured: Option<string>, versionRun: VersionRun)
      returns (answer: Answer)
      modifies this
      ensures (State(), answer) == ProbeStep(world, old(State()), target, misconfigured, versionRun)
    {
      var early := EarlyAnswer(target, misconfigured);
      if early.Some? {
        return Answer(early.value, false, false);
      }
      if scoped.Some? && target in scoped.value {
        return Answer(scoped.value[target], false, false);
      }
      var snapshot;
      var ranHelp := false;
      match versionRun {
        case Failed(message) =>
          snapshot := VersionFailure(target, message);
        case Printed(line) =>
          if (target, line) in byVersion {
            snapshot := byVersion[(target, line)];
          } else {
            ranHelp := true;
            snapshot := world(target, line);
            byVersion := byVersion[(target, line) := snapshot];
          }
      }
      if scoped.Some? {
        scoped := Some(scoped.value[target := snapshot]);
      }
      return Answer(snapshot, true, ranHelp);
    }

    method EnterScope(ghost world: World)
      modifies this
      ensures State() == Step(world, old(State()), Event.EnterScope)
    {
      if depth == 0 {
        scoped := Some(map[]);
      }
      depth := depth + 1;
    }

    method LeaveScope(ghost world: World)
      modifies this
      ensures State() == Step(world, old(State()), Event.LeaveScope)
    {
      if depth > 0 {
        if depth == 1 {
          scoped := None;
        }
        depth := depth - 1;
      }
    }

    method InvalidateAll(ghost world: World)
      modifies this
      ensures State() == Step(world, old(State()), Event.InvalidateAll)
    {
      byVersion := map[];
      if scoped.Some? {
        scoped := Some(map[]);
      }
    }
  }

  // ---------- Runs ----------

  function After(world: World, run: seq<Event>, n: nat): Caches
    requires n <= |run|
  {
    if n == 0 then START else Step(world, After(world, run, n - 1), run[n - 1])
  }

  function AnswerAt(world: World, run: seq<Event>, i: nat): Answer
    requires i < |run| && run[i].Probe?
  {
    ProbeStep(world, After(world, run, i), run[i].target, run[i].misconfigured, run[i].versionRun).1
  }

  /** A scope is open from the first event on up to the second, and nothing is invalidated between. */
  ghost predicate SameStretch(world: World, run: seq<Event>, i: nat, j: nat) {
    && i < j <= |run|
    && (forall k :: i <= k <= j ==> After(world, run, k).depth > 0)
    && (forall k :: i < k < j ==> run[k] != InvalidateAll)
  }

  lemma {:induction false} ScopeFollowsDepth(world: World, run: seq<Event>, n: nat)
    requires n <= |run|
    ensures After(world, run, n).scoped.Some? <==> After(world, run, n).depth > 0
  {
    if n > 0 {
      ScopeFollowsDepth(world, run, n - 1);
    }
  }

  /** The process-wide cache never disagrees with the world. */
  lemma {:induction false} ByVersionIsTrue(world: World, run: seq<Event>, n: nat)
    requires n <= |run|
    ensures forall k :: k in After(world, run, n).byVersion ==>
              After(world, run, n).byVersion[k] == world(k.0, k.1)
  {
    if n > 0 {
      ByVersionIsTrue(world, run, n - 1);
    }
  }

  /** An entry of the scope was put there by a probe in the same stretch, which asked the CLI. */
  lemma {:induction false} ScopedEntryHasOrigin(world: World, run: seq<Event>, n: nat, target: Target) returns (i: nat)
    requires n <= |run| && After(world, run, n).scoped.Some? && target in After(world, run, n).scoped.value
    ensures i < n && Asks(run[i]) && run[i].target == target && SameStretch(world, run, i, n)
    ensures AnswerAt(world, run, i).ranVersion
    ensures After(world, run, n).scoped.value[target] == AnswerAt(world, run, i).snapshot == Uncached(world, run[i])
  {
    ScopeFollowsDepth(world, run, n);
    ScopeFollowsDepth(world, run, n - 1);
    ByVersionIsTrue(world, run, n - 1);
    var before, e := After(world, run, n - 1), run[n - 1];
    if Asks(e) && e.target == target && target !in before.scoped.value {
      i := n - 1;
    } else {
      i := ScopedEntryHasOrigin(world, run, n - 1, target);
    }
  }

  /** Every probe of every run says what an uncached probe would have said at one moment: the same
      moment if no scope is open, or if the scope has not seen the target since it was opened or last
      invalidated; else the moment of the earlier probe in the same stretch, and then no process runs. */
  lemma ProbesAreTruthful(world: World, run: seq<Event>, j: nat) returns (i: nat)
    requires j < |run| && run[j].Probe?
    ensures i <= j && run[i].Probe? && run[i].target == run[j].target
    ensures AnswerAt(world, run, j).snapshot == Uncached(world, run[i])
    ensures After(world, run, j).depth == 0 ==> i == j
    ensures !Asks(run[j]) ==> i == j && After(world, run, j + 1) == After(world, run, j)
    ensures i < j ==> SameStretch(world, run, i, j) && AnswerAt(world, run, i).ranVersion
    ensures i < j ==> !AnswerAt(world, run, j).ranVersion && !AnswerAt(world, run, j).ranHelp
  {
    ScopeFollowsDepth(world, run, j);
    ByVersionIsTrue(world, run, j);
    var caches := After(world, run, j);
    if Asks(run[j]) && caches.scoped.Some? && run[j].target in caches.scoped.value {
      i := ScopedEntryHasOrigin(world, run, j, run[j].target);
    } else {
      i := j;
    }
  }

  /** What a probe in a scope has found stays there for the stretch. */
  lemma {:induction false} ScopedEntryStays(world: World, run: seq<Event>, i: nat, n: nat)
    requires i < |run| && Asks(run[i]) && SameStretch(world, run, i, n)
    ensures var scoped := After(world, run, n).scoped;
            scoped.Some? && run[i].target in scoped.value
            && scoped.value[run[i].target] == AnswerAt(world, run, i).snapshot
    decreases n
  {
    ScopeFollowsDepth(world, run, n);
    ScopeFollowsDepth(world, run, n - 1);
    if n > i + 1 {
      ScopedEntryStays(world, run, i, n - 1);
    }
  }

  /** Within a scope and between invalidations, a target is asked at most once: every later probe
      repeats the first answer without running a process, whatever the CLI has become. */
  lemma OneRoundPerStretch(world: World, run: seq<Event>, i: nat, j: nat)
    requires i < j < |run| && Asks(run[i]) && Asks(run[j]) && run[i].target == run[j].target
    requires SameStretch(world, run, i, j)
    ensures AnswerAt(world, run, j) == Answer(AnswerAt(world, run, i).snapshot, false, false)
  {
    ScopedEntryStays(world, run, i, j);
  }

  /** A repeated version line never runs the help probes again until an invalidation. */
  lemma {:induction false} HelpRunsOncePerVersion(world: World, run: seq<Event>, i: nat, j: nat)
    requires i < j < |run| && run[i].Probe? && run[j].Probe?
    requires run[i].target == run[j].target && run[i].versionRun == run[j].versionRun && run[i].versionRun.Printed?
    requires AnswerAt(world, run, i).ranVersion
    requires forall k :: i < k < j ==> run[k] != InvalidateAll
    ensures !AnswerAt(world, run, j).ranHelp
  {
    VersionStays(world, run, i, j);
  }

  lemma {:induction false} VersionStays(world: World, run: seq<Event>, i: nat, n: nat)
    requires i < n <= |run| && run[i].Probe? && run[i].versionRun.Printed? && AnswerAt(world, run, i).ranVersion
    requires forall k :: i < k < n ==> run[k] != InvalidateAll
    ensures (run[i].target, run[i].versionRun.line) in After(world, run, n).byVersion
    decreases n
  {
    if n > i + 1 {
      VersionStays(world, run, i, n - 1);
    }
  }
}
