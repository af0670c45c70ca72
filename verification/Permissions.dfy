/**
 The permission simulation of one execution route: the requirements are folded from single additions
 and each is resolved by the built-in policy profiles. Follows `build_permission_simulation`,
 `_requirements` with its inner `add`, `_resolve_requirement` and `_domain_for_action` in
 src/gigaloom/permission_simulator.py, and the profiles in src/gigaloom/runtime/policy.py.
 */
module Permissions {
  import opened Wrappers

  datatype Action =
    | ExternalWrite | GitApply | GitBranchCreate | GitCommit | GitPush | PullRequestCreate
    | McpServerStart | McpToolCall | NetworkConnect | ProcessSpawn
    | ScheduleCreate | ScheduleEnable | ScheduleRunNow | ScheduleUnattendedEdit
    | WorkspaceRead | WorkspaceWrite

  /** Every action, in the order of the names they are sorted by. */
  const ALL_ACTIONS := [ExternalWrite, GitApply, GitBranchCreate, GitCommit, GitPush, PullRequestCreate,
                        McpServerStart, McpToolCall, NetworkConnect, ProcessSpawn,
                        ScheduleCreate, ScheduleEnable, ScheduleRunNow, ScheduleUnattendedEdit,
                        WorkspaceRead, WorkspaceWrite]

  const GIT_ACTIONS := [GitApply, GitBranchCreate, GitCommit, GitPush, PullRequestCreate]

  datatype Domain = Filesystem | Command | Network | Integration | Provider | GitHub

  datatype Occurrence = RequiredBeforeStart | RuntimeDependent

  datatype Decision = Allow | Ask | Deny

  datatype Transport = OneShot | NativeStructured | NativeTerminal

  datatype Enforcement = ByHarness | ByCliSandbox

  datatype Profile = Interactive | ReviewEveryAction | Unattended

  /** What the harness contract says: whether it runs a process, and whether it is local. */
  datatype Spec = Spec(runsProcess: bool, local: bool)

  datatype Extension = Extension(identity: string, transport: string, secrets: nat)

  datatype Route = Route(workspace: bool, mode: string, transport: Transport, required: seq<Action>)

  datatype Add = Add(action: Action, domain: Domain, occurrence: Occurrence, reason: string, source: string)

  datatype Requirement = Requirement(domain: Domain, occurrence: Occurrence, reason: string, sources: set<string>)

  datatype Outcome = Outcome(requirement: Requirement, decision: Decision, enforcement: Enforcement)

  function DomainFor(action: Action): Domain {
    match action
    case WorkspaceRead | WorkspaceWrite => Filesystem
    case ProcessSpawn => Command
    case NetworkConnect => Network
    case McpServerStart | McpToolCall => Integration
    case GitCommit | GitPush | PullRequestCreate | GitApply | GitBranchCreate => GitHub
    case _ => Provider
  }

  // ---------- The fold ----------

  type Table = map<Action, Requirement>

  /** The inner `add`. */
  function Enter(table: Table, x: Add): Table {
    if x.action !in table
       || (table[x.action].occurrence == RuntimeDependent && x.occurrence == RequiredBeforeStart)
    then table[x.action := Requirement(x.domain, x.occurrence, x.reason, {x.source})]
    else table[x.action := table[x.action].(sources := table[x.action].sources + {x.source})]
  }

  function Fold(adds: seq<Add>): Table {
    if adds == [] then map[] else Enter(Fold(adds[..|adds| - 1]), adds[|adds| - 1])
  }

  // ---------- The merge it computes ----------

  /** The additions for one action, in order. */
  function For(adds: seq<Add>, action: Action): (r: seq<Add>)
    ensures forall i | 0 <= i < |r| :: r[i].action == action && r[i] in adds
    ensures forall x | x in adds && x.action == action :: x in r
  {
    if adds == [] then []
    else
      var init, last := adds[..|adds| - 1], adds[|adds| - 1];
      assert adds == init + [last];
      For(init, action) + if last.action == action then [last] else []
  }

  /** Where the first addition stands that requires the action before the start; the length if none. */
  function FirstRequired(xs: seq<Add>): (k: nat)
    ensures k <= |xs|
    ensures k < |xs| ==> xs[k].occurrence == RequiredBeforeStart
  {
    if xs == [] || xs[0].occurrence == RequiredBeforeStart then 0 else 1 + FirstRequired(xs[1..])
  }

  /** The first addition among the strongest. */
  function Strongest(xs: seq<Add>): (k: nat)
    requires xs != []
    ensures k < |xs|
  {
    if FirstRequired(xs) < |xs| then FirstRequired(xs) else 0
  }

  /** Required if any addition says so; domain and reason of the first strongest; sources from there on. */
  function Merge(xs: seq<Add>): Requirement
    requires xs != []
  {
    var k := Strongest(xs);
    Requirement(xs[k].domain, xs[k].occurrence, xs[k].reason, Sources(xs[k..]))
  }

  lemma ForMore(adds: seq<Add>, x: Add, action: Action)
    ensures For(adds + [x], action) == For(adds, action) + if x.action == action then [x] else []
  {
    assert (adds + [x])[..|adds|] == adds;
  }

  lemma FoldMore(adds: seq<Add>, x: Add)
    ensures Fold(adds + [x]) == Enter(Fold(adds), x)
  {
    assert (adds + [x])[..|adds|] == adds;
  }

  lemma {:induction false} NoneEarlier(xs: seq<Add>, i: nat)
    requires i < FirstRequired(xs)
    ensures xs[i].occurrence == RuntimeDependent
  {
    if i > 0 {
      NoneEarlier(xs[1..], i - 1);
    }
  }

  lemma NothingAdded(action: Action)
    ensures Fold([]) == map[] && For([], action) == []
  {
  }

  lemma {:induction false} FirstRequiredMore(xs: seq<Add>, x: Add)
    ensures FirstRequired(xs + [x])
            == if FirstRequired(xs) < |xs| then FirstRequired(xs)
               else if x.occurrence == RequiredBeforeStart then |xs| else |xs| + 1
  {
    if xs != [] {
      assert (xs + [x])[1..] == xs[1..] + [x];
      FirstRequiredMore(xs[1..], x);
    }
  }

  function Sources(xs: seq<Add>): set<string> {
    set x | x in xs :: x.source
  }

  lemma SourcesMore(xs: seq<Add>, x: Add)
    ensures Sources(xs + [x]) == Sources(xs) + {x.source}
  {
    assert x in xs + [x];
    forall s | s in Sources(xs) ensures s in Sources(xs + [x]) {
      var y :| y in xs && y.source == s;
      assert y in xs + [x];
    }
  }

  lemma MergeMore(xs: seq<Add>, x: Add)
    requires xs != []
    ensures Merge(xs + [x])
            == if Merge(xs).occurrence == RuntimeDependent && x.occurrence == RequiredBeforeStart
               then Requirement(x.domain, x.occurrence, x.reason, {x.source})
               else Merge(xs).(sources := Merge(xs).sources + {x.source})
  {
    var k := Strongest(xs);
    var all := xs + [x];
    FirstRequiredMore(xs, x);
    if Merge(xs).occurrence == RuntimeDependent && x.occurrence == RequiredBeforeStart {
      assert all[|xs|..] == [x];
    } else {
      assert Strongest(all) == k;
      assert all[k..] == xs[k..] + [x];
      SourcesMore(xs[k..], x);
    }
  }

  lemma MergeOne(x: Add)
    ensures Merge([x]) == Requirement(x.domain, x.occurrence, x.reason, {x.source})
  {
    assert [x][0..] == [x];
  }

  lemma EnterAt(table: Table, x: Add, action: Action)
    ensures action in Enter(table, x) <==> action in table || x.action == action
    ensures action in Enter(table, x) ==>
              Enter(table, x)[action]
              == if x.action != action then table[action]
                 else if action !in table
                         || (table[action].occurrence == RuntimeDependent && x.occurrence == RequiredBeforeStart)
                 then Requirement(x.domain, x.occurrence, x.reason, {x.source})
                 else table[action].(sources := table[action].sources + {x.source})
  {
  }

  /** The fold is the merge, action by action: the order of additions for other actions is immaterial. */
  lemma {:induction false} FoldIsMerge(adds: seq<Add>, action: Action)
    ensures action in Fold(adds) <==> For(adds, action) != []
    ensures action in Fold(adds) ==> Fold(adds)[action] == Merge(For(adds, action))
  {
    hide Merge, Enter, For, Fold;
    if adds == [] {
      NothingAdded(action);
    } else {
      var init, last := adds[..|adds| - 1], adds[|adds| - 1];
      assert adds == init + [last];
      FoldIsMerge(init, action);
      FoldMore(init, last);
      ForMore(init, last, action);
      EnterAt(Fold(init), last, action);
      MergeOne(last);
      if For(init, action) != [] {
        MergeMore(For(init, action), last);
      } else {
        assert [] + [last] == [last];
      }
      assert For(init, action) + [] == For(init, action);
    }
  }

  lemma MergeOccurrence(xs: seq<Add>)
    requires xs != []
    ensures Merge(xs).occurrence == RequiredBeforeStart <==> exists x :: x in xs && x.occurrence == RequiredBeforeStart
  {
    var k := FirstRequired(xs);
    if k < |xs| {
      assert xs[k] in xs;
    } else if exists x :: x in xs && x.occurrence == RequiredBeforeStart {
      var i :| 0 <= i < |xs| && xs[i].occurrence == RequiredBeforeStart;
      NoneEarlier(xs, i);
    }
    if k == |xs| {
      NoneEarlier(xs, 0);
    }
  }

  /** An action is there exactly if something added it, and required exactly if something required it. */
  lemma RequiredExactly(adds: seq<Add>, action: Action)
    ensures action in Fold(adds) <==> exists x :: x in adds && x.action == action
    ensures action in Fold(adds) ==>
              (Fold(adds)[action].occurrence == RequiredBeforeStart
               <==> exists x :: x in adds && x.action == action && x.occurrence == RequiredBeforeStart)
  {
    hide Merge, For, Fold;
    FoldIsMerge(adds, action);
    var xs := For(adds, action);
    if xs != [] {
      MergeOccurrence(xs);
      assert xs[0] in adds && xs[0].action == action;
      if exists x :: x in xs && x.occurrence == RequiredBeforeStart {
        var x :| x in xs && x.occurrence == RequiredBeforeStart;
        assert x in adds && x.action == action;
      }
    }
  }

  /** Some addition up to and including the `i`th requires the action. */
  ghost predicate RequiredBy(adds: seq<Add>, action: Action, i: nat) {
    exists j | 0 <= j <= i && j < |adds| :: adds[j].action == action && adds[j].occurrence == RequiredBeforeStart
  }

  /** The `i`th addition is one for the action, and nothing has dropped it. */
  ghost predicate Survives(adds: seq<Add>, action: Action, i: nat) {
    i < |adds| && adds[i].action == action && (RequiredBy(adds, action, i) || !RequiredBy(adds, action, |adds|))
  }

  lemma RequiredByMore(adds: seq<Add>, x: Add, action: Action, i: nat)
    ensures i < |adds| ==> (RequiredBy(adds + [x], action, i) <==> RequiredBy(adds, action, i))
    ensures i >= |adds| ==> (RequiredBy(adds + [x], action, i) <==>
                               || RequiredBy(adds, action, |adds|)
                               || (x.action == action && x.occurrence == RequiredBeforeStart))
    ensures RequiredBy(adds, action, i) ==> RequiredBy(adds, action, |adds|)
  {
    if RequiredBy(adds + [x], action, i) {
      var j :| 0 <= j <= i && j < |adds + [x]| && (adds + [x])[j].action == action
               && (adds + [x])[j].occurrence == RequiredBeforeStart;
      assert j < |adds| ==> adds[j] == (adds + [x])[j];
    }
    if RequiredBy(adds, action, i) {
      var j :| 0 <= j <= i && j < |adds| && adds[j].action == action && adds[j].occurrence == RequiredBeforeStart;
      assert (adds + [x])[j] == adds[j];
    }
    if RequiredBy(adds, action, |adds|) {
      var j :| 0 <= j < |adds| && adds[j].action == action && adds[j].occurrence == RequiredBeforeStart;
      assert (adds + [x])[j] == adds[j];
    }
    assert (adds + [x])[|adds|] == x;
  }

  /**
   The sources of an action, whatever the list of additions: all of them, unless some addition requires
   the action; then those from the first requiring one on. An upgrade drops every earlier source.
   */
  lemma {:induction false} UpgradeDropsEarlierSources(adds: seq<Add>, action: Action)
    requires action in Fold(adds)
    ensures forall source ::
              source in Fold(adds)[action].sources
              <==> exists i: nat :: Survives(adds, action, i) && adds[i].source == source
    ensures Fold(adds)[action].occurrence == RequiredBeforeStart <==> RequiredBy(adds, action, |adds|)
  {
    hide RequiredBy, Fold, Enter;
    if adds == [] {
      NothingAdded(action);
      return;
    }
    var init, last := adds[..|adds| - 1], adds[|adds| - 1];
    assert adds == init + [last];
    FoldMore(init, last);
    EnterAt(Fold(init), last, action);
    RequiredExactly(init, action);
    RequiredByAny(init, action);
    forall i: nat ensures Survives(adds, action, i) <==>
      (i < |init| && adds[i].action == action && (RequiredBy(init, action, i) || !RequiredBy(adds, action, |adds|)))
      || (i == |init| && last.action == action)
    {
      RequiredByMore(init, last, action, i);
      RequiredByMore(init, last, action, |adds|);
    }
    RequiredByMore(init, last, action, |adds|);
    if action in Fold(init) {
      UpgradeDropsEarlierSources(init, action);
    }
    forall source | source in Fold(adds)[action].sources
      ensures exists i: nat :: Survives(adds, action, i) && adds[i].source == source
    {
      if last.action == action && source == last.source {
        assert Survives(adds, action, |init|);
      } else {
        var i: nat :| Survives(init, action, i) && init[i].source == source;
        assert Survives(adds, action, i);
      }
    }
    forall i: nat | Survives(adds, action, i)
      ensures adds[i].source in Fold(adds)[action].sources
    {
      if i < |init| {
        assert init[i] in init;
        RequiredByMore(init, last, action, i);
        assert Survives(init, action, i);
      }
    }
  }

  lemma RequiredByAny(adds: seq<Add>, action: Action)
    ensures RequiredBy(adds, action, |adds|)
            <==> exists x :: x in adds && x.action == action && x.occurrence == RequiredBeforeStart
  {
  }

  // ---------- The additions of a route ----------

  function When(condition: bool, adds: seq<Add>): seq<Add> {
    if condition then adds else []
  }

  function GitAdd(action: Action): Add {
    Add(action, GitHub, RuntimeDependent, "runtime_git_intent_unknown", "workspace.git")
  }

  function GitAdds(actions: seq<Action>): seq<Add> {
    seq(|actions|, i requires 0 <= i < |actions| => GitAdd(actions[i]))
  }

  function RequiredAdd(action: Action): Add {
    Add(action, DomainFor(action), RequiredBeforeStart, "explicit_route_requirement", "route.required_actions")
  }

  function RequiredAdds(actions: seq<Action>): seq<Add> {
    seq(|actions|, i requires 0 <= i < |actions| => RequiredAdd(actions[i]))
  }

  const READ_ADD := Add(WorkspaceRead, Filesystem, RequiredBeforeStart, "workspace_route_selected", "harness.workspace")
  const WRITE_ADD := Add(WorkspaceWrite, Filesystem, RequiredBeforeStart, "edit_route_selected", "route.mode.edit")
  const SPAWN_ADD := Add(ProcessSpawn, Command, RequiredBeforeStart, "harness_process_required", "harness.process")
  const NETWORK_ADD := Add(NetworkConnect, Network, RequiredBeforeStart, "provider_route_required", "provider.route")
  const SERVER_ADD := Add(McpServerStart, Integration, RuntimeDependent, "selected_extension_server", "extension.mcp")
  const TOOL_ADD := Add(McpToolCall, Integration, RuntimeDependent, "selected_extension_tool", "extension.mcp")
  const STDIO_ADD := Add(ProcessSpawn, Command, RequiredBeforeStart, "stdio_extension_process", "extension.stdio")

  predicate AnyStdio(extensions: set<Extension>) {
    exists e | e in extensions :: e.transport == "stdio"
  }

  function HarnessAdds(spec: Spec, route: Route): seq<Add> {
    When(route.workspace, [READ_ADD])
    + When(route.mode == "edit", [WRITE_ADD])
    + When(spec.runsProcess || route.transport != OneShot, [SPAWN_ADD])
    + When(!spec.local, [NETWORK_ADD])
  }

  function ExtensionAdds(extensions: set<Extension>): seq<Add> {
    When(extensions != {}, [SERVER_ADD, TOOL_ADD] + When(AnyStdio(extensions), [STDIO_ADD]))
  }

  function AddsFor(spec: Spec, route: Route, extensions: set<Extension>): seq<Add> {
    HarnessAdds(spec, route)
    + When(route.workspace, GitAdds(GIT_ACTIONS))
    + ExtensionAdds(extensions)
    + RequiredAdds(route.required)
  }

  /** Adding a list one by one continues the fold. */
  method EnterAll(table: Table, ghost before: seq<Add>, adds: seq<Add>) returns (r: Table)
    requires table == Fold(before)
    ensures r == Fold(before + adds)
  {
    hide Fold, Enter;
    r := table;
    assert before + adds[..0] == before;
    for i := 0 to |adds|
      invariant r == Fold(before + adds[..i])
    {
      FoldMore(before + adds[..i], adds[i]);
      assert before + adds[..i] + [adds[i]] == before + adds[..i + 1];
      r := Enter(r, adds[i]);
    }
    assert adds[..|adds|] == adds;
  }

  method EnterHarness(spec: Spec, route: Route) returns (table: Table)
    ensures table == Fold(HarnessAdds(spec, route))
  {
    hide Fold, Enter, READ_ADD, WRITE_ADD, SPAWN_ADD, NETWORK_ADD;
    ghost var adds: seq<Add> := [];
    table := map[];
    NothingAdded(WorkspaceRead);
    if route.workspace {
      FoldMore(adds, READ_ADD);
      table, adds := Enter(table, READ_ADD), adds + [READ_ADD];
    }
    if route.mode == "edit" {
      FoldMore(adds, WRITE_ADD);
      table, adds := Enter(table, WRITE_ADD), adds + [WRITE_ADD];
    }
    if spec.runsProcess || route.transport != OneShot {
      FoldMore(adds, SPAWN_ADD);
      table, adds := Enter(table, SPAWN_ADD), adds + [SPAWN_ADD];
    }
    if !spec.local {
      FoldMore(adds, NETWORK_ADD);
      table, adds := Enter(table, NETWORK_ADD), adds + [NETWORK_ADD];
    }
    assert adds == HarnessAdds(spec, route);
  }

  method EnterExtensions(table: Table, ghost before: seq<Add>, extensions: set<Extension>) returns (r: Table)
    requires table == Fold(before)
    ensures r == Fold(before + ExtensionAdds(extensions))
  {
    hide Fold, Enter, SERVER_ADD, TOOL_ADD, STDIO_ADD;
    ghost var adds := before;
    r := table;
    if extensions != {} {
      FoldMore(adds, SERVER_ADD);
      r, adds := Enter(r, SERVER_ADD), adds + [SERVER_ADD];
      FoldMore(adds, TOOL_ADD);
      r, adds := Enter(r, TOOL_ADD), adds + [TOOL_ADD];
      if AnyStdio(extensions) {
        FoldMore(adds, STDIO_ADD);
        r, adds := Enter(r, STDIO_ADD), adds + [STDIO_ADD];
      }
    }
    assert adds == before + ExtensionAdds(extensions);
  }

  /** The requirements table, built up in a local dictionary. */
  method Requirements(spec: Spec, route: Route, extensions: set<Extension>) returns (table: Table)
    ensures table == Fold(AddsFor(spec, route, extensions))
  {
    hide Fold, Enter, HarnessAdds, GitAdds, ExtensionAdds, RequiredAdds;
    table := EnterHarness(spec, route);
    ghost var adds := HarnessAdds(spec, route);
    if route.workspace {
      table := EnterAll(table, adds, GitAdds(GIT_ACTIONS));
    }
    adds := adds + When(route.workspace, GitAdds(GIT_ACTIONS));
    assert route.workspace || adds == HarnessAdds(spec, route);
    table := EnterExtensions(table, adds, extensions);
    table := EnterAll(table, adds + ExtensionAdds(extensions), RequiredAdds(route.required));
  }

  // ---------- The simulation ----------

  function Decide(profile: Profile, action: Action): Decision {
    match profile
    case Interactive =>
      if action in {WorkspaceRead, WorkspaceWrite, ProcessSpawn} then Allow
      else if action == ScheduleUnattendedEdit then Deny else Ask
    case ReviewEveryAction => if action == WorkspaceRead then Allow else Ask
    case Unattended =>
      if action in {WorkspaceRead, ProcessSpawn} then Allow
      else if action in {WorkspaceWrite, NetworkConnect, ScheduleUnattendedEdit} then Ask else Deny
  }

  function Boundary(route: Route, action: Action, domain: Domain): Enforcement {
    if action in {McpServerStart, McpToolCall} then ByCliSandbox
    else if domain in {Filesystem, Command, GitHub} && route.transport != OneShot then ByCliSandbox
    else ByHarness
  }

  function Resolve(profile: Profile, route: Route, action: Action, requirement: Requirement): Outcome {
    Outcome(requirement, Decide(profile, action), Boundary(route, action, requirement.domain))
  }

  /** The reason codes of the outcomes that belong to no action. */
  function Unpredictable(spec: Spec, extensions: set<Extension>): set<string> {
    (if spec.local then {} else {"secret_values_not_read_during_simulation", "provider_behavior_not_proven"})
    + (if extensions == {} then {} else {"extension_runtime_behavior_not_proven"})
    + (if exists e | e in extensions :: e.secrets > 0 then {"extension_secret_resolution_runtime_dependent"} else {})
  }

  datatype Simulation = Simulation(
    route: Route,
    extensions: set<Extension>,
    outcomes: map<Action, Outcome>,
    unpredictable: set<string>,
    blocked: set<Action>,
    approvals: set<Action>,
    blockRun: bool)

  datatype Question = Question(
    spec: Spec,
    workspace: bool,
    mode: string,
    transport: Transport,
    profile: Profile,
    extensions: seq<Extension>,
    required: seq<Action>)

  function Elements<T>(xs: seq<T>): set<T> {
    set x | x in xs
  }

  /** The chosen actions without repetition, in the order of their names. */
  function Listed(chosen: set<Action>, actions: seq<Action>): (r: seq<Action>)
    ensures forall a :: a in r <==> a in actions && a in chosen
  {
    if actions == [] then []
    else (if actions[0] in chosen then [actions[0]] else []) + Listed(chosen, actions[1..])
  }

  function RouteOf(q: Question): Route {
    Route(q.workspace, q.mode, q.transport, Listed(Elements(q.required), ALL_ACTIONS))
  }

  function TableOf(q: Question): Table {
    Fold(AddsFor(q.spec, RouteOf(q), Elements(q.extensions)))
  }

  function Simulate(q: Question): Result<Simulation, ()> {
    if |set e | e in q.extensions :: e.identity| != |q.extensions| then Failure(())
    else
      var route := RouteOf(q);
      var table := TableOf(q);
      var outcomes := map a | a in table :: Resolve(q.profile, route, a, table[a]);
      var blocked := set a | a in outcomes
                             && outcomes[a].requirement.occurrence == RequiredBeforeStart
                             && outcomes[a].decision == Deny;
      var approvals := set a | a in outcomes && outcomes[a].decision == Ask;
      Success(Simulation(route, Elements(q.extensions), outcomes, Unpredictable(q.spec, Elements(q.extensions)),
                         blocked, approvals, blocked != {}))
  }

  // ---------- Laws ----------

  ghost predicate IsGitAction(a: Action) {
    match a
    case GitApply | GitBranchCreate | GitCommit | GitPush | PullRequestCreate => true
    case _ => false
  }

  /** Everything that is added for a route, with the reason and the source that the user is told, and when. */
  lemma AddedExactly(spec: Spec, route: Route, extensions: set<Extension>, x: Add)
    ensures x in AddsFor(spec, route, extensions)
            <==> || (route.workspace
                     && x == Add(WorkspaceRead, Filesystem, RequiredBeforeStart, "workspace_route_selected",
                                 "harness.workspace"))
                 || (route.mode == "edit"
                     && x == Add(WorkspaceWrite, Filesystem, RequiredBeforeStart, "edit_route_selected",
                                 "route.mode.edit"))
                 || ((spec.runsProcess || route.transport != OneShot)
                     && x == Add(ProcessSpawn, Command, RequiredBeforeStart, "harness_process_required",
                                 "harness.process"))
                 || (!spec.local
                     && x == Add(NetworkConnect, Network, RequiredBeforeStart, "provider_route_required",
                                 "provider.route"))
                 || (route.workspace && IsGitAction(x.action)
                     && x == Add(x.action, GitHub, RuntimeDependent, "runtime_git_intent_unknown", "workspace.git"))
                 || (extensions != {}
                     && (|| x == Add(McpServerStart, Integration, RuntimeDependent, "selected_extension_server",
                                     "extension.mcp")
                         || x == Add(McpToolCall, Integration, RuntimeDependent, "selected_extension_tool",
                                     "extension.mcp")))
                 || ((exists e :: e in extensions && e.transport == "stdio")
                     && x == Add(ProcessSpawn, Command, RequiredBeforeStart, "stdio_extension_process",
                                 "extension.stdio"))
                 || (x.action in route.required
                     && x == Add(x.action, DomainFor(x.action), RequiredBeforeStart, "explicit_route_requirement",
                                 "route.required_actions"))
  {
    GitAddsExactly(x);
    RequiredAddsExactly(route.required, x);
    HarnessAddsExactly(spec, route, x);
    ExtensionAddsExactly(extensions, x);
    hide GitAdds, RequiredAdds, HarnessAdds, ExtensionAdds, DomainFor, IsGitAction;
  }

  lemma HarnessAddsExactly(spec: Spec, route: Route, x: Add)
    ensures x in HarnessAdds(spec, route)
            <==> || (route.workspace
                     && x == Add(WorkspaceRead, Filesystem, RequiredBeforeStart, "workspace_route_selected",
                                 "harness.workspace"))
                 || (route.mode == "edit"
                     && x == Add(WorkspaceWrite, Filesystem, RequiredBeforeStart, "edit_route_selected",
                                 "route.mode.edit"))
                 || ((spec.runsProcess || route.transport != OneShot)
                     && x == Add(ProcessSpawn, Command, RequiredBeforeStart, "harness_process_required",
                                 "harness.process"))
                 || (!spec.local
                     && x == Add(NetworkConnect, Network, RequiredBeforeStart, "provider_route_required",
                                 "provider.route"))
  {
  }

  lemma ExtensionAddsExactly(extensions: set<Extension>, x: Add)
    ensures x in ExtensionAdds(extensions)
            <==> || (extensions != {}
                     && (|| x == Add(McpServerStart, Integration, RuntimeDependent, "selected_extension_server",
                                     "extension.mcp")
                         || x == Add(McpToolCall, Integration, RuntimeDependent, "selected_extension_tool",
                                     "extension.mcp")))
                 || ((exists e :: e in extensions && e.transport == "stdio")
                     && x == Add(ProcessSpawn, Command, RequiredBeforeStart, "stdio_extension_process",
                                 "extension.stdio"))
  {
    if e :| e in extensions && e.transport == "stdio" {
      assert AnyStdio(extensions);
    }
  }

  lemma GitAddsExactly(x: Add)
    ensures x in GitAdds(GIT_ACTIONS)
            <==> IsGitAction(x.action)
                 && x == Add(x.action, GitHub, RuntimeDependent, "runtime_git_intent_unknown", "workspace.git")
  {
    var adds := GitAdds(GIT_ACTIONS);
    assert |adds| == 5 && adds[0] == GitAdd(GitApply) && adds[1] == GitAdd(GitBranchCreate);
    assert adds[2] == GitAdd(GitCommit) && adds[3] == GitAdd(GitPush) && adds[4] == GitAdd(PullRequestCreate);
    assert x in adds <==> x in [adds[0], adds[1], adds[2], adds[3], adds[4]] by {
      assert adds == [adds[0], adds[1], adds[2], adds[3], adds[4]];
    }
  }

  lemma RequiredAddsExactly(required: seq<Action>, x: Add)
    ensures x in RequiredAdds(required)
            <==> x.action in required
                 && x == Add(x.action, DomainFor(x.action), RequiredBeforeStart, "explicit_route_requirement",
                             "route.required_actions")
  {
    hide DomainFor;
    if i :| 0 <= i < |required| && required[i] == x.action {
      assert RequiredAdds(required)[i] == RequiredAdd(x.action);
    }
  }

  /** The built-in profiles, by what they allow and what they deny; the rest is asked. */
  lemma DecisionsExactly(action: Action)
    ensures Decide(Interactive, action) == Allow
            <==> action.WorkspaceRead? || action.WorkspaceWrite? || action.ProcessSpawn?
    ensures Decide(Interactive, action) == Deny <==> action.ScheduleUnattendedEdit?
    ensures Decide(ReviewEveryAction, action) == Allow <==> action.WorkspaceRead?
    ensures Decide(ReviewEveryAction, action) != Deny
    ensures Decide(Unattended, action) == Allow <==> action.WorkspaceRead? || action.ProcessSpawn?
    ensures Decide(Unattended, action) == Ask
            <==> action.WorkspaceWrite? || action.NetworkConnect? || action.ScheduleUnattendedEdit?
  {
  }

  /** The reason codes that no action carries: two for a provider, one for extensions, one for their secrets. */
  lemma UnpredictableExactly(spec: Spec, extensions: set<Extension>, code: string)
    ensures code in Unpredictable(spec, extensions)
            <==> || (!spec.local && code == "provider_behavior_not_proven")
                 || (!spec.local && code == "secret_values_not_read_during_simulation")
                 || (|extensions| > 0 && code == "extension_runtime_behavior_not_proven")
                 || ((exists e :: e in extensions && e.secrets != 0)
                     && code == "extension_secret_resolution_runtime_dependent")
  {
    assert |extensions| > 0 <==> extensions != {};
    assert (exists e | e in extensions :: e.secrets > 0) <==> exists e :: e in extensions && e.secrets != 0 by {
      if e :| e in extensions && e.secrets != 0 {
        assert e.secrets > 0;
      }
    }
  }

  ghost predicate AllDiffer(xs: seq<Extension>) {
    forall i, j | 0 <= i < j < |xs| :: xs[i].identity != xs[j].identity
  }

  function Identities(xs: seq<Extension>): set<string> {
    set e | e in xs :: e.identity
  }

  lemma DifferMore(init: seq<Extension>, last: Extension)
    ensures AllDiffer(init + [last]) <==> AllDiffer(init) && last.identity !in Identities(init)
    ensures Identities(init + [last]) == Identities(init) + {last.identity}
  {
    var xs := init + [last];
    assert forall i | 0 <= i < |init| :: xs[i] == init[i] && init[i] in init;
    assert xs[|init|] == last;
    if last.identity in Identities(init) {
      var e :| e in init && e.identity == last.identity;
      var i :| 0 <= i < |init| && init[i] == e;
      assert xs[i].identity == xs[|init|].identity;
    }
    if AllDiffer(xs) {
      forall i, j | 0 <= i < j < |init| ensures init[i].identity != init[j].identity {
        assert xs[i].identity != xs[j].identity;
      }
    }
  }

  lemma {:induction false} IdentitiesCount(xs: seq<Extension>)
    ensures |Identities(xs)| <= |xs|
    ensures |Identities(xs)| == |xs| <==> AllDiffer(xs)
  {
    hide AllDiffer, Identities;
    if xs == [] {
      NobodyDiffers();
    } else {
      var init, last := xs[..|xs| - 1], xs[|xs| - 1];
      assert xs == init + [last];
      IdentitiesCount(init);
      DifferMore(init, last);
    }
  }

  lemma NobodyDiffers()
    ensures AllDiffer([]) && Identities([]) == {}
  {
  }

  /** A question is refused exactly if two selected extensions share an identity. */
  lemma RefusedExactly(q: Question)
    ensures Simulate(q).Failure?
            <==> exists i, j :: 0 <= i < j < |q.extensions| && q.extensions[i].identity == q.extensions[j].identity
  {
    IdentitiesCount(q.extensions);
    assert Simulate(q).Failure? <==> |Identities(q.extensions)| != |q.extensions|;
  }

  /** What a route needs before it can start, said directly. */
  predicate NeededBeforeStart(q: Question, action: Action) {
    || action in q.required
    || (action == WorkspaceRead && q.workspace)
    || (action == WorkspaceWrite && q.mode == "edit")
    || (action == ProcessSpawn
        && (q.spec.runsProcess || q.transport != OneShot || exists e | e in q.extensions :: e.transport == "stdio"))
    || (action == NetworkConnect && !q.spec.local)
  }

  predicate MayBeNeeded(q: Question, action: Action) {
    || (action in GIT_ACTIONS && q.workspace)
    || (action in {McpServerStart, McpToolCall} && q.extensions != [])
  }

  predicate InOrder(x: Add) {
    x.domain == DomainFor(x.action)
  }

  lemma GitAddsHas(actions: seq<Action>, x: Add)
    ensures x in GitAdds(actions) <==> x.action in actions && x == GitAdd(x.action)
  {
    if x.action in actions && x == GitAdd(x.action) {
      var i :| 0 <= i < |actions| && actions[i] == x.action;
      assert GitAdds(actions)[i] == x;
    }
  }

  lemma RequiredAddsHas(actions: seq<Action>, x: Add)
    ensures x in RequiredAdds(actions) <==> x.action in actions && x == RequiredAdd(x.action)
  {
    if x.action in actions && x == RequiredAdd(x.action) {
      var i :| 0 <= i < |actions| && actions[i] == x.action;
      assert RequiredAdds(actions)[i] == x;
    }
  }

  lemma AddsForHas(spec: Spec, route: Route, extensions: set<Extension>, x: Add)
    ensures x in AddsFor(spec, route, extensions)
            <==> || (route.workspace && x == READ_ADD)
                 || (route.mode == "edit" && x == WRITE_ADD)
                 || ((spec.runsProcess || route.transport != OneShot) && x == SPAWN_ADD)
                 || (!spec.local && x == NETWORK_ADD)
                 || (route.workspace && x.action in GIT_ACTIONS && x == GitAdd(x.action))
                 || (extensions != {} && (x == SERVER_ADD || x == TOOL_ADD))
                 || (AnyStdio(extensions) && x == STDIO_ADD)
                 || (x.action in route.required && x == RequiredAdd(x.action))
  {
    hide GIT_ACTIONS, READ_ADD, WRITE_ADD, SPAWN_ADD, NETWORK_ADD, SERVER_ADD, TOOL_ADD, STDIO_ADD;
    hide GitAdds, RequiredAdds, GitAdd, RequiredAdd;
    GitAddsHas(GIT_ACTIONS, x);
    RequiredAddsHas(route.required, x);
  }

  lemma AllInOrder(spec: Spec, route: Route, extensions: set<Extension>)
    ensures forall x | x in AddsFor(spec, route, extensions) :: InOrder(x)
  {
    hide AddsFor;
    forall x | x in AddsFor(spec, route, extensions) ensures InOrder(x) {
      AddsForHas(spec, route, extensions, x);
    }
  }

  /** Every requirement has the domain of its action, whichever addition it came from. */
  lemma DomainsAgree(q: Question, action: Action)
    requires action in TableOf(q)
    ensures TableOf(q)[action].domain == DomainFor(action)
  {
    hide Fold, For, Strongest, AddsFor;
    var adds := AddsFor(q.spec, RouteOf(q), Elements(q.extensions));
    AllInOrder(q.spec, RouteOf(q), Elements(q.extensions));
    FoldIsMerge(adds, action);
    var xs := For(adds, action);
    assert InOrder(xs[Strongest(xs)]);
  }

  lemma EveryActionListed(action: Action)
    ensures action in ALL_ACTIONS
  {
    match action
    case ExternalWrite => assert ALL_ACTIONS[0] == action;
    case GitApply => assert ALL_ACTIONS[1] == action;
    case GitBranchCreate => assert ALL_ACTIONS[2] == action;
    case GitCommit => assert ALL_ACTIONS[3] == action;
    case GitPush => assert ALL_ACTIONS[4] == action;
    case PullRequestCreate => assert ALL_ACTIONS[5] == action;
    case McpServerStart => assert ALL_ACTIONS[6] == action;
    case McpToolCall => assert ALL_ACTIONS[7] == action;
    case NetworkConnect => assert ALL_ACTIONS[8] == action;
    case ProcessSpawn => assert ALL_ACTIONS[9] == action;
    case ScheduleCreate => assert ALL_ACTIONS[10] == action;
    case ScheduleEnable => assert ALL_ACTIONS[11] == action;
    case ScheduleRunNow => assert ALL_ACTIONS[12] == action;
    case ScheduleUnattendedEdit => assert ALL_ACTIONS[13] == action;
    case WorkspaceRead => assert ALL_ACTIONS[14] == action;
    case WorkspaceWrite => assert ALL_ACTIONS[15] == action;
  }

  lemma ListedAll(q: Question, action: Action)
    ensures action in RouteOf(q).required <==> action in q.required
  {
    EveryActionListed(action);
  }

  function AddsOf(q: Question): seq<Add> {
    AddsFor(q.spec, RouteOf(q), Elements(q.extensions))
  }

  lemma AddIsNeeded(q: Question, x: Add)
    requires x in AddsOf(q)
    ensures NeededBeforeStart(q, x.action) || (MayBeNeeded(q, x.action) && x.occurrence == RuntimeDependent)
  {
    hide AddsFor;
    AddsForHas(q.spec, RouteOf(q), Elements(q.extensions), x);
    ListedAll(q, x.action);
  }

  lemma {:induction false} NeededIsAdded(q: Question, action: Action) returns (x: Add)
    requires NeededBeforeStart(q, action) || MayBeNeeded(q, action)
    ensures x in AddsOf(q) && x.action == action
    ensures NeededBeforeStart(q, action) ==> x.occurrence == RequiredBeforeStart
  {
    hide AddsFor;
    ListedAll(q, action);
    x := if action in q.required then RequiredAdd(action)
         else match action
              case WorkspaceRead => READ_ADD
              case WorkspaceWrite => WRITE_ADD
              case ProcessSpawn => if q.spec.runsProcess || q.transport != OneShot then SPAWN_ADD else STDIO_ADD
              case NetworkConnect => NETWORK_ADD
              case McpServerStart => SERVER_ADD
              case McpToolCall => TOOL_ADD
              case _ => GitAdd(action);
    if q.extensions != [] {
      assert q.extensions[0] in Elements(q.extensions);
    }
    AddsForHas(q.spec, RouteOf(q), Elements(q.extensions), x);
  }

  /** The table has exactly the actions that the route needs, and requires exactly those it says. */
  lemma TableExactly(q: Question, action: Action)
    ensures action in TableOf(q) <==> NeededBeforeStart(q, action) || MayBeNeeded(q, action)
    ensures action in TableOf(q) ==>
              (TableOf(q)[action].occurrence == RequiredBeforeStart <==> NeededBeforeStart(q, action))
  {
    hide AddsFor, Fold, RouteOf, NeededBeforeStart, MayBeNeeded;
    var adds := AddsOf(q);
    RequiredExactly(adds, action);
    forall x | x in adds && x.action == action
      ensures NeededBeforeStart(q, action) || (MayBeNeeded(q, action) && x.occurrence == RuntimeDependent)
    {
      AddIsNeeded(q, x);
    }
    if NeededBeforeStart(q, action) || MayBeNeeded(q, action) {
      var x := NeededIsAdded(q, action);
    }
  }

  /** A run is blocked on exactly the actions that it needs before the start and the profile denies. */
  lemma BlockedExactly(q: Question)
    requires Simulate(q).Success?
    ensures forall a :: a in Simulate(q).value.blocked <==> NeededBeforeStart(q, a) && Decide(q.profile, a) == Deny
    ensures forall a :: a in Simulate(q).value.approvals
                        <==> (NeededBeforeStart(q, a) || MayBeNeeded(q, a)) && Decide(q.profile, a) == Ask
  {
    hide TableOf, RouteOf, NeededBeforeStart, MayBeNeeded, Decide;
    forall a
      ensures a in Simulate(q).value.blocked <==> NeededBeforeStart(q, a) && Decide(q.profile, a) == Deny
      ensures a in Simulate(q).value.approvals
              <==> (NeededBeforeStart(q, a) || MayBeNeeded(q, a)) && Decide(q.profile, a) == Ask
    {
      TableExactly(q, a);
    }
  }

  /**
   Which predictions the harness enforces itself: all but those about extensions, and on a native
   transport all but those about files, processes and Git.
   */
  lemma {:induction false} EnforcedExactly(q: Question, action: Action)
    requires Simulate(q).Success?
    ensures action in Simulate(q).value.outcomes <==> NeededBeforeStart(q, action) || MayBeNeeded(q, action)
    ensures action in Simulate(q).value.outcomes ==>
              (Simulate(q).value.outcomes[action].enforcement == ByHarness
               <==> && action !in {McpServerStart, McpToolCall}
                    && (q.transport == OneShot
                        || action !in {WorkspaceRead, WorkspaceWrite, ProcessSpawn, GitApply, GitBranchCreate,
                                       GitCommit, GitPush, PullRequestCreate}))
  {
    hide TableOf, NeededBeforeStart, MayBeNeeded, Decide, Unpredictable;
    TableExactly(q, action);
    if action in TableOf(q) {
      DomainsAgree(q, action);
    }
  }

  /** The order of extensions and of required actions, and repeated required actions, change nothing. */
  lemma OrderIsImmaterial(q: Question, extensions: seq<Extension>, required: seq<Action>)
    requires multiset(q.extensions) == multiset(extensions) && Elements(q.required) == Elements(required)
    ensures Simulate(q.(extensions := extensions, required := required)) == Simulate(q)
  {
    hide Fold, AddsFor, Resolve, Unpredictable;
    var p := q.(extensions := extensions, required := required);
    assert |q.extensions| == |multiset(q.extensions)| && |extensions| == |multiset(extensions)|;
    forall e ensures e in q.extensions <==> e in extensions {
      assert e in q.extensions <==> e in multiset(q.extensions);
      assert e in extensions <==> e in multiset(extensions);
    }
    assert Elements(q.extensions) == Elements(extensions);
    assert (set e | e in q.extensions :: e.identity) == (set e | e in extensions :: e.identity);
    assert RouteOf(p) == RouteOf(q) && TableOf(p) == TableOf(q);
  }

  /** More extensions or required actions never unblock anything, and never lose an approval point. */
  lemma MoreNeverUnblocks(q: Question, extensions: seq<Extension>, required: seq<Action>)
    requires Elements(q.extensions) <= Elements(extensions) && Elements(q.required) <= Elements(required)
    requires Simulate(q).Success? && Simulate(q.(extensions := extensions, required := required)).Success?
    ensures var more := Simulate(q.(extensions := extensions, required := required)).value;
            Simulate(q).value.blocked <= more.blocked && Simulate(q).value.approvals <= more.approvals
  {
    hide Simulate, Decide;
    var p := q.(extensions := extensions, required := required);
    BlockedExactly(q);
    BlockedExactly(p);
    forall a ensures NeededBeforeStart(q, a) ==> NeededBeforeStart(p, a)
      ensures MayBeNeeded(q, a) ==> MayBeNeeded(p, a)
    {
      assert a in Elements(q.required) ==> a in Elements(required);
      if exists e | e in q.extensions :: e.transport == "stdio" {
        var e :| e in q.extensions && e.transport == "stdio";
        assert e in Elements(extensions);
      }
      if q.extensions != [] {
        assert q.extensions[0] in Elements(extensions);
      }
    }
  }

  /**
   With the built-in profiles neither the route nor an extension ever blocks a run by itself: only an
   explicitly required action that the profile denies does.
   */
  lemma {:induction false} OnlyExplicitRequirementsBlock(q: Question)
    requires Simulate(q).Success?
    ensures Simulate(q).value.blockRun <==> exists a :: a in q.required && Decide(q.profile, a) == Deny
    ensures q.profile == ReviewEveryAction ==> !Simulate(q).value.blockRun
    ensures q.profile == Interactive ==> (Simulate(q).value.blockRun <==> ScheduleUnattendedEdit in q.required)
  {
    BlockedExactly(q);
    var blocked := Simulate(q).value.blocked;
    BlockRunMeansBlocked(q);
    hide Simulate, NeededBeforeStart, Decide;
    forall a ensures a in blocked <==> a in q.required && Decide(q.profile, a) == Deny {
      OnlyRequiredIsDenied(q, a);
    }
    if blocked != {} {
      var a :| a in blocked;
      DecisionsExactly(a);
    }
    DecisionsExactly(ScheduleUnattendedEdit);
    if q.profile == Interactive && ScheduleUnattendedEdit in q.required {
      assert ScheduleUnattendedEdit in blocked;
    }
  }

  /** What a route needs by itself is never denied. */
  lemma OnlyRequiredIsDenied(q: Question, a: Action)
    ensures NeededBeforeStart(q, a) && Decide(q.profile, a) == Deny <==> a in q.required && Decide(q.profile, a) == Deny
  {
  }

  lemma BlockRunMeansBlocked(q: Question)
    requires Simulate(q).Success?
    ensures Simulate(q).value.blockRun <==> Simulate(q).value.blocked != {}
  {
  }

  /** An unattended run with an extension: its server and tool calls are denied, and it starts anyway. */
  lemma {:induction false} DeniedExtensionDoesNotBlock(q: Question)
    requires Simulate(q).Success? && q.profile == Unattended && q.extensions != [] && q.required == []
    ensures var s := Simulate(q).value;
            && McpServerStart in s.outcomes && s.outcomes[McpServerStart].decision == Deny
            && McpToolCall in s.outcomes && s.outcomes[McpToolCall].decision == Deny
            && !s.blockRun
  {
    OnlyExplicitRequirementsBlock(q);
    TableExactly(q, McpServerStart);
    TableExactly(q, McpToolCall);
    hide TableOf, RouteOf;
  }
}
