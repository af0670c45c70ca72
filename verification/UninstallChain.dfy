/**
 The lifecycle of one owned target: installs, updates, and the uninstall that unwinds them.

 Every update keeps the ownership record it replaced, so the current record heads a chain. The
 drivers in codex_mcp_target.py, claude_mcp_target.py and gemini_mcp_target.py unwind it in the same
 bounded loop.
 */
module UninstallChain {
  import opened Wrappers
  import opened Installer

  const MAX_UNINSTALL_DEPTH: nat := 100

  datatype UninstallPlan = UninstallPlan(packageId: string, owner: Owner, userHome: bool)

  /** A plan identity hashes the plan, so an approval carries the plan it was given for. */
  datatype Approval = Approval(plan: UninstallPlan, allowUserHome: bool)

  datatype UninstallError =
    | NotTheApprovedPlan
    | UserHomeNotApproved
    | ChangedAfterPreview
    | ForeignOwner
    | ChainTooDeep
    | InstallerFailed(error: InstallError)

  // ---------- The chain ----------

  function Chain(o: Owner): (c: seq<Owner>)
    ensures c != [] && c[0] == o
    decreases o
  {
    match o.txn.expected
    case None => [o]
    case Some(previous) => [o] + Chain(previous)
  }

  function Bottom(o: Owner): Owner
    decreases o
  {
    match o.txn.expected
    case None => o
    case Some(previous) => Bottom(previous)
  }

  /** An update starts from the exact files that the record it replaces has left. */
  ghost predicate Follows(ms: seq<Mutation>, previous: seq<Mutation>) {
    && |ms| == |previous|
    && forall i :: 0 <= i < |ms| ==> ms[i].path == previous[i].path && ms[i].before == Some(previous[i].after)
  }

  ghost predicate Linked(o: Owner)
    decreases o
  {
    && DistinctPaths(o.txn.mutations)
    && match o.txn.expected
       case None => true
       case Some(previous) => Follows(o.txn.mutations, previous.txn.mutations) && Linked(previous)
  }

  lemma {:induction false} ChainRanks(o: Owner, c: Owner)
    requires c in Chain(o)
    ensures |Chain(c)| <= |Chain(o)|
    decreases o
  {
    if c != o && o.txn.expected.Some? {
      ChainRanks(o.txn.expected.value, c);
    }
  }

  /** No record further down the chain belongs to the transaction at its head. */
  lemma ChainTxnsDiffer(o: Owner, c: Owner)
    requires o.txn.expected.Some? && c in Chain(o.txn.expected.value)
    ensures c.txn != o.txn
  {
    ChainRanks(o.txn.expected.value, c);
  }

  lemma {:induction false} ChainLinked(o: Owner, c: Owner)
    requires Linked(o) && c in Chain(o)
    ensures Linked(c)
    decreases o
  {
    if c != o {
      ChainLinked(o.txn.expected.value, c);
    }
  }

  /** How many records from the head on belong to the package. */
  function OwnedPrefix(chain: seq<Owner>, packageId: string): (n: nat)
    ensures n <= |chain|
  {
    if chain == [] || chain[0].txn.packageId != packageId then 0
    else 1 + OwnedPrefix(chain[1..], packageId)
  }

  // ---------- Files along the chain ----------

  lemma SameFiles(a: Files, b: Files)
    requires forall path :: Get(a, path) == Get(b, path)
    ensures a == b
  {
    assert forall path :: path in a <==> path in b by {
      forall path ensures path in a <==> path in b {
        assert Get(a, path) == Get(b, path);
      }
    }
    forall path | path in a ensures a[path] == b[path] {
      assert Get(a, path) == Get(b, path);
    }
  }

  /** Putting the same files back gives the same result from files that differ only there. */
  lemma BaseOfAgrees(a: Files, b: Files, ms: seq<Mutation>)
    requires DistinctPaths(ms) && SameOutside(a, b, ms)
    ensures BaseOf(a, ms) == BaseOf(b, ms)
  {
    BaseOfIsBefore(a, ms);
    BaseOfIsBefore(b, ms);
    forall path ensures Get(BaseOf(a, ms), path) == Get(BaseOf(b, ms), path) {
      if Touches(ms, path) {
        var i :| 0 <= i < |ms| && ms[i].path == path;
        assert Get(BaseOf(a, ms), ms[i].path) == ms[i].before == Get(BaseOf(b, ms), ms[i].path);
      } else {
        assert Get(a, path) == Get(BaseOf(a, ms), path);
        assert Get(b, path) == Get(BaseOf(b, ms), path);
        assert Get(a, path) == Get(b, path);
      }
    }
    SameFiles(BaseOf(a, ms), BaseOf(b, ms));
  }

  lemma TouchesSame(ms: seq<Mutation>, previous: seq<Mutation>)
    requires |ms| == |previous| && forall i :: 0 <= i < |ms| ==> ms[i].path == previous[i].path
    ensures forall path :: Touches(ms, path) <==> Touches(previous, path)
  {
    forall path ensures Touches(ms, path) <==> Touches(previous, path) {
      if Touches(ms, path) {
        var i :| 0 <= i < |ms| && ms[i].path == path;
        assert previous[i].path == path;
      }
      if Touches(previous, path) {
        var i :| 0 <= i < |ms| && previous[i].path == path;
        assert ms[i].path == path;
      }
    }
  }

  /** The whole chain touches the files of its first transaction. */
  lemma {:induction false} ChainTouches(o: Owner)
    requires Linked(o)
    ensures Linked(Bottom(o))
    ensures forall path :: Touches(o.txn.mutations, path) <==> Touches(Bottom(o).txn.mutations, path)
    decreases o
  {
    if o.txn.expected.Some? {
      TouchesSame(o.txn.mutations, o.txn.expected.value.txn.mutations);
      ChainTouches(o.txn.expected.value);
    }
  }

  /** Undoing the head leaves the previous record's files, undrifted, and what the bottom of the
      chain would restore is the same before and after. */
  lemma UndoHead(files: Files, o: Owner)
    requires Linked(o)
    ensures var undone := BaseOf(files, o.txn.mutations);
            && (o.txn.expected.None? ==> undone == BaseOf(files, Bottom(o).txn.mutations))
            && (o.txn.expected.Some? ==>
                  && HasAfter(undone, o.txn.expected.value.txn.mutations)
                  && BaseOf(undone, Bottom(o).txn.mutations) == BaseOf(files, Bottom(o).txn.mutations))
  {
    var ms := o.txn.mutations;
    var undone := BaseOf(files, ms);
    BaseOfIsBefore(files, ms);
    if o.txn.expected.Some? {
      var previous := o.txn.expected.value.txn.mutations;
      forall i | 0 <= i < |previous| ensures Get(undone, previous[i].path) == Some(previous[i].after) {
        assert Get(undone, ms[i].path) == ms[i].before;
      }
      ChainTouches(o);
      assert SameOutside(undone, files, Bottom(o).txn.mutations);
      BaseOfAgrees(undone, files, Bottom(o).txn.mutations);
    }
  }

  // ---------- The lifecycle invariant ----------

  /** The target as a finished operation leaves it: an undrifted owner whose chain is committed, and
      whose bottom would restore `origin`; or no owner, and the files are `origin`. */
  ghost predicate InLifecycle(s: State, origin: Files) {
    && s.journals.Keys <= s.directories
    && (s.owner.None? ==> s.files == origin)
    && (s.owner.Some? ==> OwnedLifecycle(s, s.owner.value, origin))
  }

  ghost predicate OwnedLifecycle(s: State, o: Owner, origin: Files) {
    && Linked(o) && HasAfter(s.files, o.txn.mutations)
    && BaseOf(s.files, Bottom(o).txn.mutations) == origin
    && forall c :: c in Chain(o) ==> c.txn in s.journals && s.journals[c.txn] == Committed
  }

  /** In its lifecycle, an owned target verifies and an unowned one is at its origin. */
  lemma LifecycleFacts(s: State, origin: Files)
    requires InLifecycle(s, origin)
    ensures s.journals.Keys <= s.directories
    ensures s.owner.None? ==> s.files == origin
    ensures s.owner.Some? ==> s.owner.value.txn in s.journals && s.journals[s.owner.value.txn] == Committed
  {
    if s.owner.Some? {
      assert s.owner.value in Chain(s.owner.value);
    }
  }

  lemma OtherFaults(s: State, faults: seq<Fault>, origin: Files)
    ensures InLifecycle(s.(faults := faults), origin) <==> InLifecycle(s, origin)
  {
  }

  lemma OwnedPrefixStep(o: Owner, packageId: string)
    requires o.txn.packageId == packageId
    ensures OwnedPrefix(Chain(o), packageId) ==
            1 + if o.txn.expected.None? then 0 else OwnedPrefix(Chain(o.txn.expected.value), packageId)
    ensures |Chain(o)| == 1 + if o.txn.expected.None? then 0 else |Chain(o.txn.expected.value)|
  {
    if o.txn.expected.Some? {
      assert Chain(o)[1..] == Chain(o.txn.expected.value);
    }
  }

  lemma NoPrefix(o: Owner, packageId: string)
    requires o.txn.packageId != packageId
    ensures OwnedPrefix(Chain(o), packageId) == 0
  {
  }

  /** Every journal whose status has changed belongs to the package. */
  ghost predicate OnlyPackageMoved(before: map<Txn, Status>, after: map<Txn, Status>, packageId: string) {
    forall t :: t in before ==> t in after && (after[t] != before[t] ==> t.packageId == packageId)
  }

  /** No transaction is left between its begin and its end. */
  predicate Settled(journals: map<Txn, Status>) {
    forall t :: t in journals ==> Final(journals[t])
  }

  /** The plan fits the state: its paths, its prior files, its owner, and the owner's file set. */
  ghost predicate Fits(s: State, txn: Txn) {
    && DistinctPaths(txn.mutations) && HasBefore(s.files, txn.mutations)
    && txn !in s.journals && s.owner == txn.expected
    && (s.owner.Some? ==> SamePaths(txn.mutations, s.owner.value.txn.mutations))
  }

  /** A commit that has come to its end, by itself or through recovery, keeps the lifecycle, with the
      same origin: it had no effect, was undone, or is done. */
  lemma EndKeepsLifecycle(before: State, installer: TransactionalInstaller, txn: Txn, origin: Files)
    requires InLifecycle(before, origin) && Fits(before, txn)
    requires before.directories <= installer.directories <= before.directories + {txn}
    requires txn in installer.journals ==>
               && installer.journals == before.journals[txn := installer.journals[txn]]
               && installer.Tracked(txn, before.files) && Final(installer.journals[txn])
    requires txn !in installer.journals ==>
               installer.files == before.files && installer.owner == before.owner
               && installer.journals == before.journals
    ensures InLifecycle(installer.Snapshot(), origin)
  {
    if txn in installer.journals && installer.journals[txn] == Committed {
      var ms := txn.mutations;
      var o := installer.owner.value;
      if txn.expected.None? {
        BaseOfAgrees(installer.files, before.files, ms);
        BaseOfIsBefore(before.files, ms);
        RestoredIsBase(BaseOf(before.files, ms), before.files, ms);
      } else {
        assert Follows(ms, txn.expected.value.txn.mutations);
        ChainTouches(o);
        assert SameOutside(installer.files, before.files, Bottom(o).txn.mutations);
        BaseOfAgrees(installer.files, before.files, Bottom(o).txn.mutations);
      }
    }
  }

  ghost predicate AllUndone(chain: seq<Owner>, journals: map<Txn, Status>) {
    forall c :: c in chain ==> c.txn in journals && journals[c.txn] == RolledBack
  }

  /** What unwinding a chain comes to when no write fails: the package's records are rolled back from
      the head until another package, the limit, or the end; only the end is success. */
  predicate Unwound(chain: seq<Owner>, packageId: string, r: Result<(), UninstallError>, rollbacks: nat) {
    var owned := OwnedPrefix(chain, packageId);
    && rollbacks == (if owned <= MAX_UNINSTALL_DEPTH then owned else MAX_UNINSTALL_DEPTH)
    && (r.Success? <==> owned == |chain| && |chain| <= MAX_UNINSTALL_DEPTH)
    && (r.Failure? ==>
          r.error == if owned < |chain| && owned <= MAX_UNINSTALL_DEPTH then ForeignOwner else ChainTooDeep)
  }

  /**
   One lifecycle request: the plan, the plan that was approved, what verification will say, and what
   becomes of the writes of the commit and of the recovery rounds that follow it.
   */
  datatype Step = Step(
    isUpdate: bool,
    txn: Txn,
    approved: Txn,
    verified: bool,
    now: int,
    faults: seq<Fault>,
    rounds: seq<(Option<bool>, seq<Fault>)>)

  class TargetDriver {
    const installer: TransactionalInstaller

    constructor (installer: TransactionalInstaller)
      ensures this.installer == installer
    {
      this.installer := installer;
    }

    /**
     An install or an update whose writes may fail or be cut off anywhere, and the recovery of what it
     left unfinished, itself interrupted any number of times. Only a directory without a journal can keep
     the target from settling, and a settled target is in its lifecycle.
     */
    method Take(s: Step, ghost origin: Files) returns (settled: bool)
      requires InLifecycle(installer.Snapshot(), origin) && Settled(installer.journals)
      requires DistinctPaths(s.txn.mutations) && installer.faults == s.faults
      modifies installer
      ensures settled ==> InLifecycle(installer.Snapshot(), origin) && Settled(installer.journals)
      ensures !settled ==> !(installer.directories <= installer.journals.Keys)
      ensures Quiet(s.faults) ==> settled
    {
      hide Quiet, Mild, Between, Orphans, OwnedLifecycle;
      ghost var before := installer.Snapshot();
      ghost var admitted :=
        if s.isUpdate then installer.AdmitsUpdate(s.txn, s.approved, false)
        else installer.AdmitsInstall(s.txn, s.approved, false);
      var result;
      if s.isUpdate {
        result := installer.Update(s.txn, s.approved, false, s.verified, s.now);
      } else {
        result := installer.Apply(s.txn, s.approved, false, s.verified, s.now);
      }
      if s.txn in installer.journals && !Final(installer.journals[s.txn]) {
        assert admitted;
        Finish(s, before.files);
        settled := Final(installer.journals[s.txn]);
      } else {
        settled := true;
      }
      if settled && admitted {
        EndKeepsLifecycle(before, installer, s.txn, origin);
      }
    }

    /** The recovery rounds after an interrupted commit, the last of them undisturbed. */
    method Finish(s: Step, ghost base: Files)
      requires installer.Tracked(s.txn, base)
      requires forall t :: t in installer.journals && t != s.txn ==> Final(installer.journals[t])
      modifies installer`files, installer`owner, installer`journals, installer`faults
      ensures installer.Tracked(s.txn, base)
      ensures installer.journals == old(installer.journals)[s.txn := installer.journals[s.txn]]
      ensures installer.directories <= installer.journals.Keys ==> Final(installer.journals[s.txn])
    {
      installer.RecoverInRounds(s.rounds, s.now, s.txn, base);
      installer.faults := [];
      var recovered := installer.RecoverSingle(None, s.now, s.txn, base);
    }

    method Verify(txn: Txn) returns (r: Result<Owner, InstallError>)
      ensures r.Success? <==>
                txn in installer.journals && installer.journals[txn] == Committed
                && installer.owner.Some? && installer.owner.value.txn == txn
      ensures r.Success? ==> installer.owner == Some(r.value)
      ensures r == Failure(StateUnreadable) <==> txn !in installer.journals
      ensures r == Failure(NotCommitted) <==> txn in installer.journals && installer.journals[txn] != Committed
      ensures r.Failure? ==> r.error in {StateUnreadable, NotCommitted, OwnershipMissing}
    {
      if txn !in installer.journals {
        return Failure(StateUnreadable);
      }
      if installer.journals[txn] != Committed {
        return Failure(NotCommitted);
      }
      if installer.owner.None? || installer.owner.value.txn != txn {
        return Failure(OwnershipMissing);
      }
      return Success(installer.owner.value);
    }

    /** The uninstall. Whatever happens, only transactions of the planned package are rolled back, at
        most a hundred, and nothing at all unless the approval is for this plan and the plan names the
        current owner. Success leaves no owner and every file at its origin. Left alone, the outcome is
        the one that the chain determines. */
    method Uninstall(plan: UninstallPlan, approval: Approval, active: bool, ghost origin: Files)
      returns (r: Result<(), UninstallError>, rollbacks: nat)
      requires InLifecycle(installer.Snapshot(), origin)
      modifies installer
      ensures rollbacks <= 100
      ensures OnlyPackageMoved(old(installer.journals), installer.journals, plan.packageId)
      ensures approval.plan != plan ==> r == Failure(NotTheApprovedPlan) && rollbacks == 0 && unchanged(installer)
      ensures approval.plan == plan && plan.userHome && !approval.allowUserHome ==>
                r == Failure(UserHomeNotApproved) && rollbacks == 0 && unchanged(installer)
      ensures old(installer.owner) != Some(plan.owner) || plan.owner.txn.packageId != plan.packageId ==>
                r.Failure? && rollbacks == 0 && unchanged(installer)
      ensures r.Success? ==>
                && installer.owner == None && installer.files == origin
                && AllUndone(Chain(plan.owner), installer.journals)
      ensures installer.journals.Keys <= installer.directories
      ensures && approval == Approval(plan, approval.allowUserHome) && (approval.allowUserHome || !plan.userHome)
              && old(installer.owner) == Some(plan.owner) && plan.owner.txn.packageId == plan.packageId
              && !active && Quiet(old(installer.faults)) ==>
                InLifecycle(installer.Snapshot(), origin) && Unwound(Chain(plan.owner), plan.packageId, r, rollbacks)
    {
      rollbacks := 0;
      if approval.plan != plan {
        return Failure(NotTheApprovedPlan), 0;
      }
      if plan.userHome && !approval.allowUserHome {
        return Failure(UserHomeNotApproved), 0;
      }
      LifecycleFacts(installer.Snapshot(), origin);
      var verified := Verify(plan.owner.txn);
      if verified.Failure? {
        return Failure(InstallerFailed(verified.error)), 0;
      }
      if verified.value.txn.packageId != plan.packageId || verified.value != plan.owner {
        return Failure(ChangedAfterPreview), 0;
      }
      r, rollbacks := Unwind(plan.owner, active, origin);
    }

    /** The loop of the uninstall, from the verified head on. */
    method Unwind(head: Owner, active: bool, ghost origin: Files)
      returns (r: Result<(), UninstallError>, rollbacks: nat)
      requires InLifecycle(installer.Snapshot(), origin) && installer.owner == Some(head)
      modifies installer
      ensures rollbacks <= 100
      ensures OnlyPackageMoved(old(installer.journals), installer.journals, head.txn.packageId)
      ensures r.Success? ==>
                && installer.owner == None && installer.files == origin
                && AllUndone(Chain(head), installer.journals)
      ensures installer.journals.Keys <= installer.directories
      ensures !active && Quiet(old(installer.faults)) ==>
                InLifecycle(installer.Snapshot(), origin) && Unwound(Chain(head), head.txn.packageId, r, rollbacks)
    {
      hide InLifecycle, OwnedPrefix;
      LifecycleFacts(installer.Snapshot(), origin);
      var packageId := head.txn.packageId;
      var current := head;
      rollbacks := 0;
      while rollbacks < MAX_UNINSTALL_DEPTH
        invariant rollbacks <= MAX_UNINSTALL_DEPTH
        invariant InLifecycle(installer.Snapshot(), origin)
        invariant installer.owner == Some(current) && current.txn.packageId == packageId
        invariant |Chain(current)| + rollbacks == |Chain(head)|
        invariant OwnedPrefix(Chain(current), packageId) + rollbacks == OwnedPrefix(Chain(head), packageId)
        invariant OnlyPackageMoved(old(installer.journals), installer.journals, packageId)
        invariant installer.journals.Keys <= installer.directories
        invariant forall c :: c in Chain(head) && c !in Chain(current) ==>
                    c.txn in installer.journals && installer.journals[c.txn] == RolledBack
        invariant !active && Quiet(old(installer.faults)) ==> Quiet(installer.faults)
      {
        OwnedPrefixStep(current, packageId);
        var undone := RollBackHead(current, active, origin);
        if undone.Failure? {
          return Failure(InstallerFailed(undone.error)), rollbacks;
        }
        rollbacks := rollbacks + 1;
        LifecycleFacts(installer.Snapshot(), origin);
        if installer.owner.None? {
          return Success(()), rollbacks;
        }
        var remaining := installer.owner.value;
        if remaining.txn.packageId != packageId {
          NoPrefix(remaining, packageId);
          return Failure(ForeignOwner), rollbacks;
        }
        var verified := Verify(remaining.txn);
        if verified.Failure? {
          return Failure(InstallerFailed(verified.error)), rollbacks;
        }
        current := verified.value;
      }
      OwnedPrefixStep(current, packageId);
      return Failure(ChainTooDeep), rollbacks;
    }

    /** One rollback at the head of the chain. */
    method RollBackHead(head: Owner, active: bool, ghost origin: Files) returns (r: Result<(), InstallError>)
      requires InLifecycle(installer.Snapshot(), origin) && installer.owner == Some(head)
      modifies installer
      ensures forall t :: t in old(installer.journals) && t != head.txn ==>
                t in installer.journals && installer.journals[t] == old(installer.journals)[t]
      ensures head.txn in installer.journals && installer.journals.Keys <= installer.directories
      ensures r.Success? ==> installer.journals[head.txn] == RolledBack
      ensures r.Success? ==> installer.owner == head.txn.expected && InLifecycle(installer.Snapshot(), origin)
      ensures !active && Quiet(old(installer.faults)) ==> r.Success? && Quiet(installer.faults)
    {
      UndoHead(installer.files, head);
      assert head in Chain(head);
      r := installer.Rollback(head.txn, active);
      if r.Success? && head.txn.expected.Some? {
        var next := head.txn.expected.value;
        forall c | c in Chain(next)
          ensures c.txn in installer.journals && installer.journals[c.txn] == Committed
        {
          ChainTxnsDiffer(head, c);
          assert c in Chain(head);
        }
      }
    }

    /** Any sequence of installs and updates, each interrupted anywhere and recovered. */
    method Live(steps: seq<Step>, ghost origin: Files) returns (settled: bool)
      requires InLifecycle(installer.Snapshot(), origin) && Settled(installer.journals)
      requires forall s :: s in steps ==> DistinctPaths(s.txn.mutations)
      modifies installer
      ensures settled ==> InLifecycle(installer.Snapshot(), origin) && Settled(installer.journals)
      ensures !settled ==> !(installer.directories <= installer.journals.Keys)
      ensures (forall s :: s in steps ==> Quiet(s.faults)) ==> settled
    {
      hide InLifecycle, Quiet;
      settled := true;
      var i := 0;
      while i < |steps|
        invariant settled && InLifecycle(installer.Snapshot(), origin) && Settled(installer.journals)
      {
        assert steps[i] in steps;
        OtherFaults(installer.Snapshot(), steps[i].faults, origin);
        installer.faults := steps[i].faults;
        settled := Take(steps[i], origin);
        if !settled {
          return;
        }
        i := i + 1;
      }
    }

    /**
     The whole life of a target: any sequence of installs and updates, finished, refused, or interrupted
     and recovered, then an uninstall over writes that may fail as well. If the uninstall succeeds, every
     file is exactly as it was before the first step, and every transaction it unwound is marked undone.
     Only a directory without a journal can keep the uninstall from being tried.
     */
    method WholeLife(steps: seq<Step>, plan: UninstallPlan, approval: Approval, faults: seq<Fault>)
      returns (tried: bool, r: Result<(), UninstallError>)
      requires installer.owner == None
      requires installer.journals.Keys <= installer.directories && Settled(installer.journals)
      requires forall s :: s in steps ==> DistinctPaths(s.txn.mutations)
      modifies installer
      ensures r.Success? ==>
                && installer.files == old(installer.files) && installer.owner == None
                && AllUndone(Chain(plan.owner), installer.journals)
      ensures !tried ==> r.Failure? && !(installer.directories <= installer.journals.Keys)
      ensures (forall s :: s in steps ==> Quiet(s.faults)) ==> tried
    {
      hide Quiet;
      ghost var origin := installer.files;
      tried := Live(steps, origin);
      if !tried {
        return false, Failure(InstallerFailed(StateUnreadable));
      }
      OtherFaults(installer.Snapshot(), faults, origin);
      installer.faults := faults;
      var rollbacks;
      r, rollbacks := Uninstall(plan, approval, false, origin);
    }

    /** After an uninstall, the plans it unwound cannot be applied again. */
    method UninstallThenRepeat(plan: UninstallPlan, approval: Approval, again: Owner, active: bool,
                               verified: bool, now: int, ghost origin: Files)
      returns (r: Result<(), UninstallError>, repeated: Result<Owner, InstallError>)
      requires InLifecycle(installer.Snapshot(), origin) && installer.owner == Some(plan.owner)
      requires again in Chain(plan.owner)
      modifies installer
      ensures r.Success? ==>
                repeated == Failure(NoLongerApplicable) && installer.owner == None && installer.files == origin
    {
      ChainLinked(plan.owner, again);
      var rollbacks;
      r, rollbacks := Uninstall(plan, approval, false, origin);
      repeated := installer.Apply(again.txn, again.txn, active, verified, now);
    }
  }
}
