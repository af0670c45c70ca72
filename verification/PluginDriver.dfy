/**
 The Codex plugin driver: preview, authorise, mutate through the native CLI, verify, clean up.
 Follows `CodexPluginTargetDriver` in src/gigaloom/codex_plugin_target.py.

 Hashes are injective, so a plan's identity is the content it hashes. The native CLI keeps one home
 per root. Its listings are truthful or fail; a mutating command may fail, take effect or not, write
 something else than was asked for, and report anything, but touches only its subject.
 */
module PluginDriver {
  import opened Wrappers

  // ---------- Requests, plans and approvals ----------

  datatype Kind = Local | Git

  datatype Source = Source(marketplace: string, kind: Kind, location: string, ref: Option<string>, sparse: seq<string>)

  datatype Package = Package(id: string, version: string, checksum: string, manifest: string)

  datatype Scope = Project | ManagedHome | UserHome

  datatype Request = Request(package: Package, scope: Scope, root: string, source: Source, plugin: string) {
    function Selector(): string {
      plugin + "@" + source.marketplace
    }
  }

  datatype Action = Install | Update | Uninstall

  datatype PolicyStatus = Allowed | Blocked | Denied | ProviderHandoff

  datatype SourceDigest = OfGit(source: Source, checksum: string) | OfTree(digest: string)

  /** What inspecting the local source finds. */
  datatype Inspection = Inspection(version: string, checksum: string, digest: string)

  datatype Semantic = Semantic(
    action: Action,
    package: Package,
    selector: string,
    source: SourceDigest,
    scope: Scope,
    root: string,
    expected: Option<string>,
    network: bool,
    policy: PolicyStatus)

  datatype Plan = Plan(id: Semantic, content: Semantic)

  datatype Approval = Approval(planId: Semantic, consent: bool, network: bool, userHome: bool)

  datatype Error = ScopeRefused | SourceInvalid | Conflict | PolicyDenied | CommandFailed

  datatype Settings = Settings(
    managedRoots: set<string>,
    userHome: Option<string>,
    allowUserHome: bool,
    sourceRoots: set<string>,
    blocked: Package -> bool,
    policy: (Action, Package, Scope) -> bool)

  // ---------- The native CLI ----------

  datatype Origin = Origin(kind: Kind, location: string, ref: Option<string>)

  datatype Plugin = Plugin(version: string, enabled: bool, origin: Origin, marketplace: string)

  datatype Home = Home(installed: map<string, Plugin>, markets: map<string, Origin>)

  datatype Command =
    | PluginList
    | MarketList
    | PluginAdd(selector: string)
    | PluginRemove(selector: string)
    | MarketAdd(source: Source)
    | MarketRemove(name: string)
  {
    predicate Mutates() {
      !PluginList? && !MarketList?
    }
  }

  /** Exit status, what the command writes or whether it removes, and the identity it reports. */
  datatype Reply = Reply(
    ok: bool,
    written: Option<Plugin>,
    registered: Option<(string, Origin)>,
    removes: bool,
    reportedName: string,
    reportedVersion: string)

  function Effect(home: Home, command: Command, reply: Reply): Home {
    match command
    case PluginAdd(selector) =>
      if reply.written.None? then home
      else home.(installed := home.installed[selector := reply.written.value])
    case PluginRemove(selector) =>
      if reply.removes then home.(installed := home.installed - {selector}) else home
    case MarketAdd(_) =>
      if reply.registered.None? || reply.registered.value.0 in home.markets then home
      else home.(markets := home.markets[reply.registered.value.0 := reply.registered.value.1])
    case MarketRemove(name) =>
      if reply.removes then home.(markets := home.markets - {name}) else home
    case _ => home
  }

  function OriginOf(source: Source): Origin {
    Origin(source.kind, source.location, source.ref)
  }

  /** The reply of a command that works; `catalog` has what each selector installs. */
  function Honest(catalog: map<string, Plugin>, command: Command): Reply {
    match command
    case PluginAdd(selector) =>
      if selector !in catalog then Reply(false, None, None, false, "", "")
      else Reply(true, Some(catalog[selector]), None, false, selector, catalog[selector].version)
    case MarketAdd(source) =>
      Reply(true, None, Some((source.marketplace, OriginOf(source))), false, source.marketplace, "")
    case PluginRemove(selector) => Reply(true, None, None, true, selector, "")
    case MarketRemove(name) => Reply(true, None, None, true, name, "")
    case _ => Reply(true, None, None, false, "", "")
  }

  // ---------- Matching ----------

  predicate PluginSourceMatches(origin: Origin, source: Source) {
    origin.kind == source.kind && origin.location == source.location
  }

  predicate MarketSourceMatches(origin: Origin, source: Source) {
    && origin.kind == source.kind && origin.location == source.location
    && (source.kind == Local || origin.ref == None || origin.ref == source.ref)
  }

  /** The requested version from the requested source: what the cleanup may remove. */
  predicate Requested(p: Plugin, request: Request) {
    p.version == request.package.version && PluginSourceMatches(p.origin, request.source)
  }

  predicate Healthy(p: Plugin, request: Request) {
    Requested(p, request) && p.enabled
  }

  predicate Refers(installed: map<string, Plugin>, name: string) {
    exists s | s in installed :: installed[s].marketplace == name
  }

  // The same in terms of whole records, for the contracts of the driver.

  /** Exact discovery: the requested version, enabled, from the requested kind and location. */
  ghost predicate Discovered(p: Plugin, request: Request) {
    p == Plugin(request.package.version, true,
                Origin(request.source.kind, request.source.location, p.origin.ref), p.marketplace)
  }

  /** A registration of the source; a Git registration may leave the ref unsaid, a local one has none that counts. */
  ghost predicate RegistersSource(origin: Origin, source: Source) {
    match source.kind
    case Local => origin == Origin(Local, source.location, origin.ref)
    case Git => origin in {Origin(Git, source.location, None), Origin(Git, source.location, source.ref)}
  }

  ghost predicate NoneFrom(installed: map<string, Plugin>, name: string) {
    forall s | s in installed :: installed[s].marketplace != name
  }

  lemma MatchingExactly(p: Plugin, origin: Origin, request: Request, installed: map<string, Plugin>, name: string)
    ensures Healthy(p, request) <==> Discovered(p, request)
    ensures Requested(p, request) <==> Discovered(p.(enabled := true), request)
    ensures MarketSourceMatches(origin, request.source) <==> RegistersSource(origin, request.source)
    ensures Refers(installed, name) <==> !NoneFrom(installed, name)
  {
  }

  lemma MatchingAlways(request: Request)
    ensures forall p :: Healthy(p, request) <==> Discovered(p, request)
    ensures forall p :: Requested(p, request) <==> Discovered(p.(enabled := true), request)
    ensures forall origin :: MarketSourceMatches(origin, request.source) <==> RegistersSource(origin, request.source)
    ensures forall installed, name :: Refers(installed, name) <==> !NoneFrom(installed, name)
  {
  }

  // ---------- Preview and authority ----------

  predicate RootAdmitted(settings: Settings, homes: map<string, Home>, request: Request) {
    && request.root in homes
    && match request.scope
       case Project => false
       case ManagedHome => request.root in settings.managedRoots
       case UserHome => settings.allowUserHome && settings.userHome == Some(request.root)
  }

  function ReviewedSource(settings: Settings, request: Request, local: Option<Inspection>)
    : Result<SourceDigest, Error>
  {
    if request.source.kind == Git then Success(OfGit(request.source, request.package.checksum))
    else if request.source.location !in settings.sourceRoots then Failure(ScopeRefused)
    else if local.None? then Failure(SourceInvalid)
    else if local.value.version != request.package.version then Failure(Conflict)
    else if local.value.checksum != request.package.checksum then Failure(Conflict)
    else Success(OfTree(local.value.digest))
  }

  function PolicyOf(settings: Settings, action: Action, request: Request): PolicyStatus {
    if settings.blocked(request.package) then Blocked
    else if !settings.policy(action, request.package, request.scope) then Denied
    else if action == Update && request.source.kind == Git then ProviderHandoff
    else Allowed
  }

  function PlanFor(settings: Settings, action: Action, request: Request, digest: SourceDigest,
                   installed: map<string, Plugin>)
    : Result<Plan, Error>
  {
    var selector := request.Selector();
    if (selector in installed) == (action == Install) then Failure(Conflict)
    else
      var expected := if selector in installed then Some(installed[selector].version) else None;
      var content := Semantic(action, request.package, selector, digest, request.scope, request.root, expected,
                              request.source.kind == Git && action != Uninstall, PolicyOf(settings, action, request));
      Success(Plan(content, content))
  }

  function Consent(request: Request, plan: Plan, approval: Approval): Option<Error> {
    if plan.content.policy != Allowed then Some(PolicyDenied)
    else if !approval.consent then Some(PolicyDenied)
    else if plan.content.network && !approval.network then Some(PolicyDenied)
    else if request.scope == UserHome && !approval.userHome then Some(ScopeRefused)
    else None
  }

  /** Everything that must hold of the homes and the source before a native command may change anything. */
  predicate MayMutate(settings: Settings, homes: map<string, Home>, action: Action, request: Request, plan: Plan,
                      approval: Approval, active: bool, local: Option<Inspection>)
  {
    && RootAdmitted(settings, homes, request)
    && ReviewedSource(settings, request, local).Success?
    && PlanFor(settings, action, request, ReviewedSource(settings, request, local).value,
               homes[request.root].installed) == Success(plan)
    && approval.planId == plan.id
    && Consent(request, plan, approval) == None
    && !active
  }

  /** Why a source, a plan or an approval is refused, each by its first failing part. */
  lemma RefusalsExactly(settings: Settings, action: Action, request: Request, local: Option<Inspection>,
                        digest: SourceDigest, installed: map<string, Plugin>, plan: Plan, approval: Approval)
    ensures request.source.kind == Local ==>
              ReviewedSource(settings, request, local)
              == if request.source.location !in settings.sourceRoots then Failure(ScopeRefused)
                 else if local.None? then Failure(SourceInvalid)
                 else if local.value.version != request.package.version
                         || local.value.checksum != request.package.checksum then Failure(Conflict)
                 else Success(OfTree(local.value.digest))
    ensures request.source.kind == Git ==> ReviewedSource(settings, request, local).Success?
    ensures PlanFor(settings, action, request, digest, installed).Failure? ==>
              PlanFor(settings, action, request, digest, installed) == Failure(Conflict)
    ensures PolicyOf(settings, action, request) == Blocked <==> settings.blocked(request.package)
    ensures PolicyOf(settings, action, request) == Denied
            <==> !settings.blocked(request.package) && !settings.policy(action, request.package, request.scope)
    ensures Consent(request, plan, approval) == Some(PolicyDenied)
            <==> || plan.content.policy == Blocked || plan.content.policy == Denied
                 || plan.content.policy == ProviderHandoff
                 || !approval.consent || (plan.content.network && !approval.network)
    ensures Consent(request, plan, approval) in {None, Some(PolicyDenied), Some(ScopeRefused)}
  {
  }

  /** What a plan must say, word for word, for an admitted mutation. */
  ghost predicate SaysExactly(s: Semantic, homes: map<string, Home>, action: Action, request: Request,
                              local: Option<Inspection>)
    requires request.root in homes
  {
    && s.action == action && s.package == request.package
    && s.selector == request.plugin + "@" + request.source.marketplace
    && s.scope == request.scope && s.root == request.root && s.policy == Allowed
    && s.network == (request.source.kind == Git && (action == Install || action == Update))
    && s.expected == (if s.selector in homes[request.root].installed
                      then Some(homes[request.root].installed[s.selector].version) else None)
    && (request.source.kind == Git ==> s.source == OfGit(request.source, request.package.checksum))
    && (request.source.kind == Local ==>
          && local.Some?
          && local.value == Inspection(request.package.version, request.package.checksum, local.value.digest)
          && s.source == OfTree(local.value.digest))
  }

  /** The home may be written: a managed one that is listed, or the user's own if that is allowed and approved. */
  ghost predicate HomeOpen(settings: Settings, request: Request, approval: Approval) {
    || (request.scope == ManagedHome && request.root in settings.managedRoots)
    || (&& request.scope == UserHome && settings.allowUserHome && Some(request.root) == settings.userHome
        && approval.userHome)
  }

  /**
   A mutation is admitted if and only if: the home may be written; the plan and its approval say word for word
   what is to happen, to the version installed now; installing means that it is not there, updating and
   uninstalling that it is; the package is not blocked and the policy allows the action; a Git update is left
   to the provider; a local source is an admitted one; the user consents, and to the network where it is
   needed; and the target is idle.
   */
  lemma MutationAdmittedExactly(settings: Settings, homes: map<string, Home>, action: Action, request: Request,
                                plan: Plan, approval: Approval, active: bool, local: Option<Inspection>)
    ensures MayMutate(settings, homes, action, request, plan, approval, active, local)
            <==> && request.root in homes && HomeOpen(settings, request, approval)
                 && SaysExactly(plan.content, homes, action, request, local)
                 && plan.id == plan.content && approval.planId == plan.content
                 && (action == Install <==> request.Selector() !in homes[request.root].installed)
                 && !settings.blocked(request.package) && settings.policy(action, request.package, request.scope)
                 && !(action == Update && request.source.kind == Git)
                 && (request.source.kind == Local ==> request.source.location in settings.sourceRoots)
                 && approval.consent && !active
                 && (request.source.kind == Git && action == Install ==> approval.network)
  {
  }

  /**
   An approval that lets a mutation through names this action on this package, source and home, and
   the installed version found now; the reviewed source and the policy are in it too; and it consents.
   */
  lemma ApprovalNamesWhatHappens(settings: Settings, homes: map<string, Home>, action: Action, request: Request,
                                 plan: Plan, approval: Approval, active: bool, local: Option<Inspection>)
    requires MayMutate(settings, homes, action, request, plan, approval, active, local)
    ensures var s := approval.planId;
            && s.action == action && s.package == request.package && s.root == request.root && s.scope == request.scope
            && s.selector == request.plugin + "@" + request.source.marketplace
            && s.expected == (if action == Install then None
                              else Some(homes[request.root].installed[s.selector].version))
            && s.policy == Allowed && settings.policy(action, request.package, request.scope)
            && (request.source.kind == Git ==> s.source == OfGit(request.source, request.package.checksum))
            && (request.source.kind == Local ==>
                  && local.Some?
                  && local.value == Inspection(request.package.version, request.package.checksum, s.source.digest))
    ensures approval.consent && !settings.blocked(request.package)
    ensures request.source.kind == Git && action != Uninstall ==> approval.network
    ensures request.scope == UserHome ==> approval.userHome
    ensures !(action == Update && request.source.kind == Git)
  {
    MutationAdmittedExactly(settings, homes, action, request, plan, approval, active, local);
  }

  lemma AdmittedNeedsConsent(settings: Settings, homes: map<string, Home>, action: Action, request: Request,
                             plan: Plan, approval: Approval, active: bool, local: Option<Inspection>)
    ensures MayMutate(settings, homes, action, request, plan, approval, active, local) ==>
              && request.root in homes && approval.consent && !settings.blocked(request.package) && !active
              && (request.scope == UserHome ==> approval.userHome)
  {
    MutationAdmittedExactly(settings, homes, action, request, plan, approval, active, local);
  }

  // ---------- What may have changed ----------

  /** Only `selector` may differ among the plugins; old marketplaces stay and at most `name` is new. */
  ghost predicate Framed(before: Home, after: Home, selector: string) {
    && before.installed - {selector} == after.installed - {selector}
    && before.markets.Keys <= after.markets.Keys
    && (forall m | m in before.markets :: after.markets[m] == before.markets[m])
    && (forall m, n | m in after.markets && n in after.markets ::
          m !in before.markets && n !in before.markets ==> m == n)
  }

  ghost predicate OtherHomesKept(before: map<string, Home>, after: map<string, Home>, root: string) {
    before.Keys == after.Keys && forall r | r in before && r != root :: after[r] == before[r]
  }

  datatype Issued = Issued(root: string, command: Command)

  predicate NothingMutated(log: seq<Issued>, start: nat) {
    forall i | start <= i < |log| :: !log[i].command.Mutates()
  }

  /** Every mutating command issued since `start` works on the requested home and its own subject. */
  predicate OnSubject(log: seq<Issued>, start: nat, request: Request) {
    forall i | start <= i < |log| && log[i].command.Mutates() ::
      && log[i].root == request.root
      && log[i].command in {PluginAdd(request.Selector()), PluginRemove(request.Selector()),
                            MarketAdd(request.source), MarketRemove(request.source.marketplace)}
  }

  // ---------- A run on a CLI that works ----------

  function WithoutRequested(installed: map<string, Plugin>, request: Request): map<string, Plugin> {
    var selector := request.Selector();
    if selector in installed && Requested(installed[selector], request) then installed - {selector} else installed
  }

  /** What the cleanup leaves when its own commands work. */
  function Cleaned(home: Home, request: Request): Home {
    var kept := WithoutRequested(home.installed, request);
    Home(kept, if Refers(kept, request.source.marketplace) then home.markets
               else home.markets - {request.source.marketplace})
  }

  predicate NameTaken(home: Home, source: Source) {
    source.marketplace in home.markets && !MarketSourceMatches(home.markets[source.marketplace], source)
  }

  ghost predicate TakenByAnother(home: Home, source: Source) {
    source.marketplace in home.markets && !RegistersSource(home.markets[source.marketplace], source)
  }

  function Registered(home: Home, source: Source): Home {
    if source.marketplace in home.markets then home
    else home.(markets := home.markets[source.marketplace := OriginOf(source)])
  }

  /** An authorised installation when every native command works: the home it leaves, and success. */
  function WorkingInstall(home: Home, catalog: map<string, Plugin>, request: Request): (Home, bool) {
    var name := request.source.marketplace;
    var selector := request.Selector();
    if NameTaken(home, request.source) then (home, false)
    else
      var registered := Registered(home, request.source);
      var added :=
        if selector in catalog then registered.(installed := registered.installed[selector := catalog[selector]])
                   else registered;
      if selector in catalog && Healthy(catalog[selector], request) then (added, true)
      else (if name in home.markets then added else Cleaned(added, request), false)
  }

  /**
   When every native command works, an installation succeeds exactly if the marketplace name is free
   or already means this source and the catalog offers the requested plugin enabled. A failed one
   leaves no trace exactly if it stopped before anything, or nothing was installed and the new
   marketplace could go, or what was installed was the requested plugin, only not enabled, from a
   marketplace that this call registered and nothing else refers to.
   */
  lemma WorkingInstallOutcome(home: Home, catalog: map<string, Plugin>, request: Request)
    requires request.Selector() !in home.installed
    ensures var selector := request.Selector();
            WorkingInstall(home, catalog, request).1
            <==> !TakenByAnother(home, request.source) && selector in catalog && Discovered(catalog[selector], request)
    ensures var name := request.source.marketplace;
            var selector := request.Selector();
            !WorkingInstall(home, catalog, request).1 ==>
              (WorkingInstall(home, catalog, request).0 == home
               <==> || TakenByAnother(home, request.source)
                      || (selector !in catalog && (name in home.markets || NoneFrom(home.installed, name)))
                      || (selector in catalog && Discovered(catalog[selector].(enabled := true), request)
                          && name !in home.markets && NoneFrom(home.installed, name)))
  {
    var name := request.source.marketplace;
    var selector := request.Selector();
    var (after, ok) := WorkingInstall(home, catalog, request);
    if !ok && !NameTaken(home, request.source) {
      if name !in home.markets {
        assert home.markets[name := OriginOf(request.source)] - {name} == home.markets;
      }
      if selector in catalog {
        var installed := home.installed[selector := catalog[selector]];
        assert installed - {selector} == home.installed;
        assert selector in installed && installed != home.installed;
      }
    }
  }

  /** A marketplace that installs another version: the failed installation leaves the plugin behind. */
  lemma WrongVersionStays(request: Request, origin: Origin, version: string)
    requires version != request.package.version
    ensures var plugin := Plugin(version, true, origin, request.source.marketplace);
            var catalog := map[request.Selector() := plugin];
            WorkingInstall(Home(map[], map[]), catalog, request)
              == (Home(catalog, map[request.source.marketplace := OriginOf(request.source)]), false)
  {
    var name := request.source.marketplace;
    var selector := request.Selector();
    var plugin := Plugin(version, true, origin, name);
    var catalog := map[selector := plugin];
    var home := Home(map[], map[]);
    var added := Home(catalog, map[name := OriginOf(request.source)]);
    assert home.installed[selector := plugin] == catalog;
    assert Registered(home, request.source).markets == added.markets;
    assert catalog[selector].marketplace == name && Refers(catalog, name);
    assert Cleaned(added, request) == added;
  }

  function Later(replies: seq<Reply>): seq<Reply> {
    if replies == [] then [] else replies[1..]
  }

  /** The command that gets the `i`th reply has worked and named its subject. */
  predicate Named(replies: seq<Reply>, i: nat, name: string) {
    i < |replies| ==> replies[i].ok && replies[i].reportedName == name
  }

  // ---------- The driver ----------

  /** Where an operation failed. */
  datatype Stage = Refused | Registering | Installing(added: bool) | Removing

  datatype Outcome = Done(version: Option<string>) | HandedOff | Failed(at: Stage, error: Error)

  class CodexPluginTargetDriver {
    const settings: Settings
    const catalog: map<string, Plugin>
    var homes: map<string, Home>
    /** Every native command issued, oldest first. */
    var log: seq<Issued>
    /** How the next commands behave; they work once it is empty. */
    var replies: seq<Reply>

    constructor (settings: Settings, catalog: map<string, Plugin>, homes: map<string, Home>, replies: seq<Reply>)
      ensures this.settings == settings && this.catalog == catalog
      ensures this.homes == homes && log == [] && this.replies == replies
    {
      this.settings, this.catalog, this.homes, log, this.replies := settings, catalog, homes, [], replies;
    }

    method Run(root: string, command: Command) returns (reply: Reply)
      requires root in homes
      modifies this
      ensures log == old(log) + [Issued(root, command)]
      ensures reply == if old(replies) == [] then Honest(catalog, command) else old(replies)[0]
      ensures replies == Later(old(replies))
      ensures homes == old(homes)[root := Effect(old(homes)[root], command, reply)]
    {
      log := log + [Issued(root, command)];
      if replies == [] {
        reply := Honest(catalog, command);
      } else {
        reply := replies[0];
        replies := replies[1..];
      }
      homes := homes[root := Effect(homes[root], command, reply)];
    }

    method PluginListing(root: string) returns (r: Result<map<string, Plugin>, Error>)
      requires root in homes
      modifies this
      ensures homes == old(homes) && log == old(log) + [Issued(root, PluginList)]
      ensures r == Success(homes[root].installed) || r == Failure(CommandFailed)
      ensures r.Failure? <==> old(replies) != [] && !old(replies)[0].ok
      ensures replies == Later(old(replies))
    {
      var reply := Run(root, PluginList);
      assert homes == old(homes);
      r := if reply.ok then Success(homes[root].installed) else Failure(CommandFailed);
    }

    method MarketListing(root: string) returns (r: Result<map<string, Origin>, Error>)
      requires root in homes
      modifies this
      ensures homes == old(homes) && log == old(log) + [Issued(root, MarketList)]
      ensures r == Success(homes[root].markets) || r == Failure(CommandFailed)
      ensures r.Failure? <==> old(replies) != [] && !old(replies)[0].ok
      ensures replies == Later(old(replies))
    {
      var reply := Run(root, MarketList);
      assert homes == old(homes);
      r := if reply.ok then Success(homes[root].markets) else Failure(CommandFailed);
    }

    /** A plan is made from one fresh listing, and only a listing is issued for it. */
    method Preview(action: Action, request: Request, local: Option<Inspection>) returns (r: Result<Plan, Error>)
      modifies this
      ensures homes == old(homes)
      ensures old(log) <= log && NothingMutated(log, |old(log)|)
      ensures r.Success? ==>
                && RootAdmitted(settings, homes, request)
                && ReviewedSource(settings, request, local).Success?
                && r == PlanFor(settings, action, request, ReviewedSource(settings, request, local).value,
                                homes[request.root].installed)
      ensures old(replies) == [] && RootAdmitted(settings, homes, request)
              && ReviewedSource(settings, request, local).Success? ==>
                r == PlanFor(settings, action, request, ReviewedSource(settings, request, local).value,
                             homes[request.root].installed)
      ensures old(replies) == [] ==> replies == []
      ensures r.Success? ==> replies == Later(old(replies))
    {
      if !RootAdmitted(settings, homes, request) {
        return Failure(ScopeRefused);
      }
      var digest := ReviewedSource(settings, request, local);
      if digest.Failure? {
        return Failure(digest.error);
      }
      var listing := PluginListing(request.root);
      if listing.Failure? {
        return Failure(listing.error);
      }
      r := PlanFor(settings, action, request, digest.value, listing.value);
    }

    method Authorize(action: Action, request: Request, plan: Plan, approval: Approval, active: bool,
                     local: Option<Inspection>) returns (refusal: Option<Error>)
      modifies this
      ensures homes == old(homes)
      ensures old(log) <= log && NothingMutated(log, |old(log)|)
      ensures refusal.None? ==>
                request.root in homes && MayMutate(settings, homes, action, request, plan, approval, active, local)
      ensures old(replies) == [] ==>
                (refusal.None? <==> MayMutate(settings, homes, action, request, plan, approval, active, local))
      ensures old(replies) == [] ==> replies == []
      ensures refusal.None? ==> replies == Later(old(replies))
    {
      var current := Preview(action, request, local);
      if current.Failure? {
        return Some(current.error);
      }
      if current.value != plan || approval.planId != plan.id {
        return Some(Conflict);
      }
      refusal := Consent(request, plan, approval);
      if refusal.None? && active {
        refusal := Some(Conflict);
      }
    }

    /** True if this call registered the marketplace; the one registered means the requested source. */
    method EnsureMarketplace(root: string, source: Source) returns (r: Result<bool, Error>)
      requires root in homes
      modifies this
      ensures OtherHomesKept(old(homes), homes, root)
      ensures Framed(old(homes)[root], homes[root], "") && homes[root].installed == old(homes)[root].installed
      ensures old(log) <= log
      ensures forall i | |old(log)| <= i < |log| && log[i].command.Mutates() ::
                log[i] == Issued(root, MarketAdd(source)) && source.marketplace !in old(homes)[root].markets
      ensures r.Success? ==>
                && (r.value <==> source.marketplace !in old(homes)[root].markets)
                && source.marketplace in homes[root].markets
                && RegistersSource(homes[root].markets[source.marketplace], source)
                && (!r.value ==> homes == old(homes))
      ensures old(replies) == [] ==>
                && replies == [] && (r.Success? <==> !TakenByAnother(old(homes)[root], source))
                && homes[root] == if r.Success? then Registered(old(homes)[root], source) else old(homes)[root]
      ensures r == Success(true) ==> Named(old(replies), 1, source.marketplace)
    {
      var listing := MarketListing(root);
      if listing.Failure? {
        return Failure(listing.error);
      }
      if source.marketplace in listing.value {
        return
          if MarketSourceMatches(listing.value[source.marketplace], source) then Success(false) else Failure(Conflict);
      }
      var reply := Run(root, MarketAdd(source));
      if !reply.ok || reply.reportedName != source.marketplace {
        return Failure(CommandFailed);
      }
      listing := MarketListing(root);
      if listing.Failure? {
        return Failure(listing.error);
      }
      if source.marketplace !in listing.value || !MarketSourceMatches(listing.value[source.marketplace], source) {
        return Failure(CommandFailed);
      }
      return Success(true);
    }

    /** Adds the plugin and verifies it by exact native discovery. */
    method AddAndVerify(request: Request) returns (r: Result<Plugin, Error>)
      requires request.root in homes
      modifies this
      ensures OtherHomesKept(old(homes), homes, request.root)
      ensures homes[request.root].markets == old(homes)[request.root].markets
      ensures homes[request.root].installed - {request.Selector()}
              == old(homes)[request.root].installed - {request.Selector()}
      ensures old(log) <= log
      ensures forall i | |old(log)| <= i < |log| && log[i].command.Mutates() ::
                log[i] == Issued(request.root, PluginAdd(request.Selector()))
      ensures r.Success? ==>
                && request.Selector() in homes[request.root].installed
                && r.value == homes[request.root].installed[request.Selector()]
                && Named(old(replies), 0, request.Selector())
                && (old(replies) != [] ==> old(replies)[0].reportedVersion == request.package.version)
                && Discovered(r.value, request)
      ensures old(replies) == [] ==>
                var selector := request.Selector();
                var before := old(homes)[request.root];
                && replies == []
                && (r.Success? <==> selector in catalog && Discovered(catalog[selector], request))
                && homes[request.root] == if selector in catalog
                                          then before.(installed := before.installed[selector := catalog[selector]])
                                          else before
    {
      var selector := request.Selector();
      var reply := Run(request.root, PluginAdd(selector));
      if !reply.ok || reply.reportedName != selector || reply.reportedVersion != request.package.version {
        return Failure(CommandFailed);
      }
      var listing := PluginListing(request.root);
      if listing.Failure? {
        return Failure(listing.error);
      }
      if selector !in listing.value || !Healthy(listing.value[selector], request) {
        return Failure(CommandFailed);
      }
      return Success(listing.value[selector]);
    }

    /** The cleanup's first half: false if the listing failed, so that the second half is skipped. */
    method RemoveRequested(request: Request) returns (listed: bool)
      requires request.root in homes
      modifies this
      ensures OtherHomesKept(old(homes), homes, request.root)
      ensures homes[request.root].markets == old(homes)[request.root].markets
      ensures var before := old(homes)[request.root].installed;
              var after := homes[request.root].installed;
              || after == before
              || (&& request.Selector() in before && Discovered(before[request.Selector()].(enabled := true), request)
                  && after == before - {request.Selector()})
      ensures old(log) <= log && OnSubject(log, |old(log)|, request)
      ensures old(replies) == [] ==>
                var before := old(homes)[request.root];
                && listed && replies == []
                && homes[request.root].installed == WithoutRequested(before.installed, request)
    {
      MatchingAlways(request);
      hide Refers, Cleaned, NoneFrom;
      var selector := request.Selector();
      var listing := PluginListing(request.root);
      if listing.Failure? {
        return false;
      }
      if selector in listing.value && Requested(listing.value[selector], request) {
        var _ := Run(request.root, PluginRemove(selector));
      }
      return true;
    }

    method RemoveIdleMarketplace(request: Request)
      requires request.root in homes
      modifies this
      ensures OtherHomesKept(old(homes), homes, request.root)
      ensures homes[request.root].installed == old(homes)[request.root].installed
      ensures var name := request.source.marketplace;
              var before := old(homes)[request.root].markets;
              var after := homes[request.root].markets;
              || after == before
              || (after == before - {name} && NoneFrom(homes[request.root].installed, name))
      ensures old(log) <= log && OnSubject(log, |old(log)|, request)
      ensures old(replies) == [] ==>
                var name := request.source.marketplace;
                var before := old(homes)[request.root];
                && replies == []
                && homes[request.root].markets
                   == if NoneFrom(before.installed, name) then before.markets - {name} else before.markets
    {
      MatchingAlways(request);
      hide Refers, Cleaned, NoneFrom;
      var listing := PluginListing(request.root);
      if listing.Failure? {
        return;
      }
      if !Refers(listing.value, request.source.marketplace) {
        var _ := Run(request.root, MarketRemove(request.source.marketplace));
      }
    }

    /**
     The best-effort cleanup: it removes at most the requested plugin, and that only in the requested
     version from the requested source; and at most the requested marketplace, and that only when no
     installed plugin refers to it.
     */
    method Cleanup(request: Request)
      requires request.root in homes
      modifies this
      ensures OtherHomesKept(old(homes), homes, request.root)
      ensures var before := old(homes)[request.root];
              var after := homes[request.root];
              && (after.installed == before.installed
                  || (&& request.Selector() in before.installed
                      && Discovered(before.installed[request.Selector()].(enabled := true), request)
                      && after.installed == before.installed - {request.Selector()}))
              && (after.markets == before.markets
                  || (&& after.markets == before.markets - {request.source.marketplace}
                      && NoneFrom(after.installed, request.source.marketplace)))
      ensures old(log) <= log && OnSubject(log, |old(log)|, request)
      ensures old(replies) == [] ==>
                replies == [] && homes[request.root] == Cleaned(old(homes)[request.root], request)
    {
      MatchingAlways(request);
      hide Refers, Requested, WithoutRequested, NoneFrom;
      var listed := RemoveRequested(request);
      if listed {
        RemoveIdleMarketplace(request);
      }
    }

    /**
     No native command mutates unless the approved plan is the plan of this very moment; success
     means exact discovery; whatever happens, other plugins, other homes and the marketplaces that
     were there are untouched.
     */
    method InstallPlugin(request: Request, plan: Plan, approval: Approval, active: bool, local: Option<Inspection>)
      returns (o: Outcome)
      modifies this
      ensures old(log) <= log && OnSubject(log, |old(log)|, request)
      ensures MayMutate(settings, old(homes), Install, request, plan, approval, active, local)
              || (homes == old(homes) && NothingMutated(log, |old(log)|) && o.Failed? && o.at.Refused?)
      ensures o.Failed? && o.at.Refused? ==> homes == old(homes) && NothingMutated(log, |old(log)|)
      ensures !o.HandedOff?
      ensures !approval.consent || settings.blocked(request.package) || active ==>
                homes == old(homes) && NothingMutated(log, |old(log)|) && o.Failed? && o.at == Refused
      ensures request.scope == UserHome && !approval.userHome ==>
                homes == old(homes) && NothingMutated(log, |old(log)|) && o.Failed? && o.at == Refused
      ensures OtherHomesKept(old(homes), homes, request.root)
      ensures request.root in homes ==> Framed(old(homes)[request.root], homes[request.root], request.Selector())
      ensures o.Done? ==>
                var after := homes[request.root];
                && request.Selector() in after.installed
                && Discovered(after.installed[request.Selector()], request)
                && o.version == Some(after.installed[request.Selector()].version)
                && request.source.marketplace in after.markets
                && RegistersSource(after.markets[request.source.marketplace], request.source)
      ensures o.Failed? && o.at.Registering? ==> homes[request.root].installed == old(homes)[request.root].installed
      ensures o.Failed? && o.at == Installing(false) ==>
                homes[request.root].markets == old(homes)[request.root].markets
      ensures old(replies) == [] && MayMutate(settings, old(homes), Install, request, plan, approval, active, local) ==>
                (homes[request.root], o.Done?) == WorkingInstall(old(homes)[request.root], catalog, request)
    {
      hide MayMutate, Discovered, RegistersSource, NoneFrom, WorkingInstall;
      AdmittedNeedsConsent(settings, homes, Action.Install, request, plan, approval, active, local);
      var refusal := Authorize(Install, request, plan, approval, active, local);
      if refusal.Some? {
        return Failed(Refused, refusal.value);
      }
      o := RegisterAndAdd(request);
    }

    /** The authorised part of an installation. */
    method RegisterAndAdd(request: Request) returns (o: Outcome)
      requires request.root in homes
      modifies this
      ensures old(log) <= log && OnSubject(log, |old(log)|, request)
      ensures !o.HandedOff? && !(o.Failed? && o.at.Refused?)
      ensures OtherHomesKept(old(homes), homes, request.root)
      ensures Framed(old(homes)[request.root], homes[request.root], request.Selector())
      ensures o.Done? ==>
                var after := homes[request.root];
                && request.Selector() in after.installed
                && Discovered(after.installed[request.Selector()], request)
                && o.version == Some(after.installed[request.Selector()].version)
                && request.source.marketplace in after.markets
                && RegistersSource(after.markets[request.source.marketplace], request.source)
      ensures o.Failed? && o.at.Registering? ==> homes[request.root].installed == old(homes)[request.root].installed
      ensures o.Failed? && o.at == Installing(false) ==>
                homes[request.root].markets == old(homes)[request.root].markets
      ensures old(replies) == [] ==>
                (homes[request.root], o.Done?) == WorkingInstall(old(homes)[request.root], catalog, request)
    {
      MatchingAlways(request);
      hide Healthy, Requested, MarketSourceMatches, Refers, Discovered, RegistersSource, NoneFrom;
      ghost var start := homes[request.root];
      var added := EnsureMarketplace(request.root, request.source);
      if added.Failure? {
        return Failed(Registering, added.error);
      }
      var health := AddAndVerify(request);
      if health.Success? {
        return Done(Some(health.value.version));
      }
      ghost var failed := homes[request.root];
      if added.value {
        Cleanup(request);
        FramedAfterCleanup(start, failed, homes[request.root], request);
      }
      return Failed(Installing(added.value), health.error);
    }

    /**
     An update works like an installation but cleans nothing up; for a Git source it only hands over
     to the provider, for a plan that is current and approved.
     */
    method UpdatePlugin(request: Request, plan: Plan, approval: Approval, active: bool, local: Option<Inspection>)
      returns (o: Outcome)
      modifies this
      ensures old(log) <= log && OnSubject(log, |old(log)|, request)
      ensures MayMutate(settings, old(homes), Update, request, plan, approval, active, local)
              || (homes == old(homes) && NothingMutated(log, |old(log)|) && !o.Done?)
      ensures o.Failed? && o.at.Refused? ==> homes == old(homes) && NothingMutated(log, |old(log)|)
      ensures o.HandedOff? ==>
                && homes == old(homes) && NothingMutated(log, |old(log)|)
                && request.source.kind == Git
                && request.root in homes && request.Selector() in homes[request.root].installed
                && approval.planId == plan.content && plan.content.policy == ProviderHandoff
                && plan.content.expected == Some(homes[request.root].installed[request.Selector()].version)
      ensures !approval.consent || settings.blocked(request.package) || active ==>
                homes == old(homes) && NothingMutated(log, |old(log)|) && !o.Done?
      ensures request.scope == UserHome && !approval.userHome ==>
                homes == old(homes) && NothingMutated(log, |old(log)|) && !o.Done?
      ensures OtherHomesKept(old(homes), homes, request.root)
      ensures request.root in homes ==> Framed(old(homes)[request.root], homes[request.root], request.Selector())
      ensures o.Done? ==>
                var after := homes[request.root];
                && request.Selector() in after.installed
                && Discovered(after.installed[request.Selector()], request)
                && o.version == Some(after.installed[request.Selector()].version)
                && request.source.kind == Local
      ensures old(replies) == [] && MayMutate(settings, old(homes), Update, request, plan, approval, active, local) ==>
                var selector := request.Selector();
                && (o.Done? <==> !TakenByAnother(old(homes)[request.root], request.source)
                                 && selector in catalog && Discovered(catalog[selector], request))
      ensures !MayMutate(settings, old(homes), Update, request, plan, approval, active, local) && !o.HandedOff? ==>
                o.Failed? && o.at == Refused
      ensures old(replies) == [] && plan.content.policy == ProviderHandoff ==>
                (o.HandedOff?
                 <==> && RootAdmitted(settings, old(homes), request) && approval.planId == plan.id
                      && ReviewedSource(settings, request, local).Success?
                      && PlanFor(settings, Update, request, ReviewedSource(settings, request, local).value,
                                 old(homes)[request.root].installed) == Success(plan))
    {
      MatchingAlways(request);
      AdmittedNeedsConsent(settings, homes, Action.Update, request, plan, approval, active, local);
      if plan.content.policy == ProviderHandoff {
        var current := Preview(Update, request, local);
        if current.Failure? {
          return Failed(Refused, current.error);
        }
        if current.value != plan || approval.planId != plan.id {
          return Failed(Refused, Conflict);
        }
        return HandedOff;
      }
      hide RootAdmitted, ReviewedSource, PlanFor, Consent, Healthy, Requested, MarketSourceMatches, Refers;
      hide Discovered, RegistersSource, NoneFrom;
      var refusal := Authorize(Update, request, plan, approval, active, local);
      if refusal.Some? {
        return Failed(Refused, refusal.value);
      }
      var added := EnsureMarketplace(request.root, request.source);
      if added.Failure? {
        return Failed(Registering, added.error);
      }
      var health := AddAndVerify(request);
      if health.Failure? {
        return Failed(Installing(added.value), health.error);
      }
      return Done(Some(health.value.version));
    }

    /** Success means the plugin is gone; no marketplace and no other plugin is ever touched. */
    method UninstallPlugin(request: Request, plan: Plan, approval: Approval, active: bool, local: Option<Inspection>)
      returns (o: Outcome)
      modifies this
      ensures old(log) <= log
      ensures forall i | |old(log)| <= i < |log| && log[i].command.Mutates() ::
                log[i] == Issued(request.root, PluginRemove(request.Selector()))
      ensures MayMutate(settings, old(homes), Uninstall, request, plan, approval, active, local)
              || (homes == old(homes) && NothingMutated(log, |old(log)|) && o.Failed? && o.at.Refused?)
      ensures !approval.consent || settings.blocked(request.package) || active ==>
                homes == old(homes) && NothingMutated(log, |old(log)|) && o.Failed? && o.at == Refused
      ensures request.scope == UserHome && !approval.userHome ==>
                homes == old(homes) && NothingMutated(log, |old(log)|) && o.Failed? && o.at == Refused
      ensures OtherHomesKept(old(homes), homes, request.root)
      ensures request.root in homes ==>
                var before := old(homes)[request.root];
                var after := homes[request.root];
                && after.markets == before.markets
                && (after.installed == before.installed
                    || after.installed == before.installed - {request.Selector()})
      ensures o.Done? ==>
                request.root in homes && request.Selector() !in homes[request.root].installed && o.version == None
      ensures old(replies) == [] ==>
                (o.Done? <==> MayMutate(settings, old(homes), Uninstall, request, plan, approval, active, local))
      ensures o.Done? ==> Named(old(replies), 1, request.Selector())
    {
      AdmittedNeedsConsent(settings, homes, Action.Uninstall, request, plan, approval, active, local);
      var refusal := Authorize(Uninstall, request, plan, approval, active, local);
      if refusal.Some? {
        return Failed(Refused, refusal.value);
      }
      var selector := request.Selector();
      var reply := Run(request.root, PluginRemove(selector));
      if !reply.ok || reply.reportedName != selector {
        return Failed(Removing, CommandFailed);
      }
      var listing := PluginListing(request.root);
      if listing.Failure? || selector in listing.value {
        return Failed(Removing, CommandFailed);
      }
      return Done(None);
    }
  }

  /** A cleanup that takes away what was added keeps the frame. */
  lemma FramedAfterCleanup(before: Home, failed: Home, after: Home, request: Request)
    requires Framed(before, failed, request.Selector())
    requires request.source.marketplace !in before.markets
    requires after.installed == failed.installed || after.installed == failed.installed - {request.Selector()}
    requires after.markets == failed.markets || after.markets == failed.markets - {request.source.marketplace}
    ensures Framed(before, after, request.Selector())
  {
    var selector := request.Selector();
    assert after.installed - {selector} == failed.installed - {selector};
  }
}
