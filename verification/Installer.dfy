/**
 The journaled installer behind the integration targets, for the files of one owner: install,
 update, rollback, and recovery after a crash. Follows installer_actions.py, installer_planning.py
 and installer_storage.py under src/gigaloom/integrations/packages/.

 Hashes are injective, so a transaction identity is the content it hashes: package, file plans and
 the owner revision expected at preview. Every durable write is a point at which an exception may
 be raised or the process may die, before or after the write takes effect.
 */
module Installer {
  import opened Wrappers

  // ---------- Data ----------

  datatype File = File(content: string, mode: nat)

  type Files = map<string, File>

  datatype Mutation = Mutation(path: string, before: Option<File>, after: File)

  datatype Txn = Txn(
    packageId: string,
    packageVersion: string,
    manifest: string,
    mutations: seq<Mutation>,
    expected: Option<Owner>)

  /** The ownership record that a transaction publishes; its revision hashes all of it. */
  datatype Owner = Owner(txn: Txn, installedAt: int)

  datatype Status = Prepared | Applying | Verifying | Committed | RollingBack | RolledBack

  datatype Fault = Proceed | Raise(effect: bool) | Crash(effect: bool) {
    predicate TakesEffect() {
      Proceed? || effect
    }

    function Outcome(): Outcome {
      match this
      case Proceed => Done
      case Raise(_) => Raised
      case Crash(_) => Crashed
    }
  }

  datatype Outcome = Done | Raised | Crashed

  /** What happens at the `i`th durable write from here; all goes well once the list is used up. */
  function At(faults: seq<Fault>, i: nat): Fault {
    if i < |faults| then faults[i] else Proceed
  }

  function Rest(faults: seq<Fault>, n: nat): seq<Fault> {
    if n <= |faults| then faults[n..] else []
  }

  ghost predicate Quiet(faults: seq<Fault>) {
    forall f :: f in faults ==> f == Proceed
  }

  /** The first `n` writes go well. */
  ghost predicate Clear(faults: seq<Fault>, n: nat) {
    forall i | 0 <= i < n :: At(faults, i) == Proceed
  }

  /** At most one write raises, and the process does not die. */
  ghost predicate Mild(faults: seq<Fault>) {
    && (forall f :: f in faults ==> !f.Crash?)
    && forall i, j | 0 <= i < j < |faults| :: faults[i] == Proceed || faults[j] == Proceed
  }

  lemma RestFacts(faults: seq<Fault>)
    ensures Quiet(faults) ==> At(faults, 0) == Proceed && Quiet(Rest(faults, 1)) && Mild(faults)
    ensures Mild(faults) ==>
              && !At(faults, 0).Crash? && Mild(Rest(faults, 1))
              && (At(faults, 0) != Proceed ==> Quiet(Rest(faults, 1)))
  {
    forall f | f in Rest(faults, 1) ensures f in faults {
    }
    assert forall i | 0 <= i < |faults| :: faults[i] in faults;
    assert forall i | 0 <= i < |faults| - 1 :: Rest(faults, 1)[i] == faults[i + 1];
    if Mild(faults) && At(faults, 0) != Proceed {
      forall f | f in Rest(faults, 1) ensures f == Proceed {
        var j :| 1 <= j < |faults| && faults[j] == f;
      }
    }
  }

  lemma RestMore(faults: seq<Fault>, n: nat)
    ensures Rest(Rest(faults, n), 1) == Rest(faults, n + 1) && Rest(faults, 0) == faults
    ensures At(Rest(faults, n), 0) == At(faults, n)
  {
  }

  lemma RestTwoMore(faults: seq<Fault>, n: nat)
    ensures Rest(Rest(faults, n), 1) == Rest(faults, n + 1) && Rest(Rest(faults, n + 1), 1) == Rest(faults, n + 2)
    ensures At(Rest(faults, n), 0) == At(faults, n)
  {
  }

  lemma ClearMore(faults: seq<Fault>, n: nat)
    ensures Clear(faults, 0)
    ensures Clear(faults, n + 1) <==> Clear(faults, n) && At(faults, n) == Proceed
  {
  }

  lemma ClearFewer(faults: seq<Fault>, n: nat, m: nat)
    ensures n <= m && Clear(faults, m) ==> Clear(faults, n)
  {
  }

  lemma ClearParts(faults: seq<Fault>, n: nat, m: nat)
    ensures Clear(faults, n + m) <==> Clear(faults, n) && Clear(Rest(faults, n), m)
    ensures Rest(Rest(faults, n), m) == Rest(faults, n + m) && At(Rest(faults, n), m) == At(faults, n + m)
  {
    if Clear(faults, n) && Clear(Rest(faults, n), m) {
      forall i | n <= i < n + m ensures At(faults, i) == Proceed {
        assert At(Rest(faults, n), i - n) == Proceed;
      }
    }
    if Clear(faults, n + m) {
      forall i | 0 <= i < m ensures At(Rest(faults, n), i) == Proceed {
        assert At(faults, n + i) == Proceed;
      }
    }
  }

  /** A preparation of `m` payloads that makes the directory and not the journal. */
  ghost predicate Orphans(faults: seq<Fault>, m: nat) {
    && At(faults, 0).TakesEffect()
    && (|| At(faults, 0) != Proceed
        || exists k | 1 <= k <= m + 1 :: StopsAt(faults, k) && (k <= m || !At(faults, k).TakesEffect()))
  }

  ghost predicate StopsAt(faults: seq<Fault>, k: nat) {
    Clear(faults, k) && At(faults, k) != Proceed
  }

  /** Stopped at write `k` of a preparation: whether the directory is left without a journal. */
  lemma PreparationStops(faults: seq<Fault>, k: nat, m: nat)
    requires k <= m + 1
    ensures StopsAt(faults, k) ==>
              && !Clear(faults, m + 2)
              && (Orphans(faults, m) <==>
                    if k == 0 then At(faults, 0).TakesEffect() else k <= m || !At(faults, k).TakesEffect())
  {
    if StopsAt(faults, k) {
      forall j: nat ensures StopsAt(faults, j) ==> j == k {
        OneStop(faults, j, k);
      }
      assert k > 0 ==> At(faults, 0) == Proceed;
    }
  }

  lemma PreparationDone(faults: seq<Fault>, m: nat)
    ensures Clear(faults, m + 2) ==> !Orphans(faults, m)
  {
  }

  lemma OneStop(faults: seq<Fault>, j: nat, k: nat)
    ensures StopsAt(faults, j) && StopsAt(faults, k) ==> j == k
    ensures StopsAt(faults, j) && j < k ==> !Clear(faults, k)
  {
  }

  datatype InstallError =
    | ApprovalMismatch
    | NoLongerApplicable
    | OwnershipMissing
    | OwnershipChanged
    | NeedsUpdate
    | NoOwner
    | TargetDrifted
    | OwnedSetDiffers
    | TargetActive
    | StalePreview
    | TransactionPathExists
    | VerificationFailed
    | NotCommitted
    | StateUnreadable
    | RecoveryConflict
    | WriteFailed
    | ProcessDied

  function Get(files: Files, path: string): Option<File> {
    if path in files then Some(files[path]) else None
  }

  function Put(files: Files, path: string, file: Option<File>): Files {
    match file
    case Some(f) => files[path := f]
    case None => files - {path}
  }

  predicate Final(s: Status) {
    s == Committed || s == RolledBack
  }

  // ---------- What a transaction does to the files ----------

  ghost predicate DistinctPaths(ms: seq<Mutation>) {
    forall i, j :: 0 <= i < j < |ms| ==> ms[i].path != ms[j].path
  }

  ghost predicate Touches(ms: seq<Mutation>, path: string) {
    exists i :: 0 <= i < |ms| && ms[i].path == path
  }

  ghost predicate SameOutside(files: Files, base: Files, ms: seq<Mutation>) {
    forall path :: !Touches(ms, path) ==> Get(files, path) == Get(base, path)
  }

  /** The planned prior state: what the preview saw. */
  predicate HasBefore(files: Files, ms: seq<Mutation>) {
    forall i :: 0 <= i < |ms| ==> Get(files, ms[i].path) == ms[i].before
  }

  predicate HasAfter(files: Files, ms: seq<Mutation>) {
    forall i :: 0 <= i < |ms| ==> Get(files, ms[i].path) == Some(ms[i].after)
  }

  /** Every planned file is in its prior or its desired state; nothing else has moved. */
  ghost predicate Between(files: Files, base: Files, ms: seq<Mutation>) {
    && SameOutside(files, base, ms)
    && forall i :: 0 <= i < |ms| ==>
         Get(files, ms[i].path) == ms[i].before || Get(files, ms[i].path) == Some(ms[i].after)
  }

  lemma PutKeepsOutside(files: Files, base: Files, ms: seq<Mutation>, i: nat, file: Option<File>)
    requires i < |ms| && SameOutside(files, base, ms)
    ensures SameOutside(Put(files, ms[i].path, file), base, ms)
  {
    forall path | !Touches(ms, path)
      ensures Get(Put(files, ms[i].path, file), path) == Get(base, path)
    {
      assert path != ms[i].path;
      assert Get(files, path) == Get(base, path);
    }
  }

  /** Files that agree with the base everywhere are the base. */
  lemma RestoredIsBase(files: Files, base: Files, ms: seq<Mutation>)
    requires SameOutside(files, base, ms) && HasBefore(files, ms) && HasBefore(base, ms)
    ensures files == base
  {
    forall path ensures Get(files, path) == Get(base, path) {
      if Touches(ms, path) {
        var i :| 0 <= i < |ms| && ms[i].path == path;
        assert Get(files, ms[i].path) == ms[i].before;
      }
    }
    assert forall path :: path in files <==> path in base by {
      forall path ensures path in files <==> path in base {
        assert Get(files, path) == Get(base, path);
      }
    }
    forall path | path in files ensures files[path] == base[path] {
      assert Get(files, path) == Get(base, path);
    }
  }

  /** The files with every planned file put back to its prior state. */
  function BaseOf(files: Files, ms: seq<Mutation>): Files {
    if ms == [] then files
    else Put(BaseOf(files, ms[..|ms| - 1]), ms[|ms| - 1].path, ms[|ms| - 1].before)
  }

  lemma TouchesMore(ms: seq<Mutation>, path: string)
    requires ms != []
    ensures Touches(ms[..|ms| - 1], path) ==> Touches(ms, path)
  {
    if Touches(ms[..|ms| - 1], path) {
      var i :| 0 <= i < |ms| - 1 && ms[..|ms| - 1][i].path == path;
      assert ms[i].path == path;
    }
  }

  lemma {:induction false} BaseOfIsBefore(files: Files, ms: seq<Mutation>)
    requires DistinctPaths(ms)
    ensures HasBefore(BaseOf(files, ms), ms) && SameOutside(files, BaseOf(files, ms), ms)
  {
    if ms != [] {
      var init := ms[..|ms| - 1];
      var last := ms[|ms| - 1];
      BaseOfIsBefore(files, init);
      var inner := BaseOf(files, init);
      forall i | 0 <= i < |ms| ensures Get(BaseOf(files, ms), ms[i].path) == ms[i].before {
        if i < |init| {
          assert init[i] == ms[i];
        }
      }
      forall path | !Touches(ms, path) ensures Get(files, path) == Get(BaseOf(files, ms), path) {
        assert path != last.path;
        TouchesMore(ms, path);
        assert Get(files, path) == Get(inner, path);
      }
    }
  }

  /** What the older transaction puts back is what the newer one wrote, wherever they meet. */
  ghost predicate Agree(older: seq<Mutation>, newer: seq<Mutation>) {
    forall i, j | 0 <= i < |older| && 0 <= j < |newer| ::
      older[i].path == newer[j].path ==> older[i].before == Some(newer[j].after)
  }

  /** Between two states only planned files have moved, and those only to their prior state. */
  ghost predicate Restoring(before: Files, after: Files, ms: seq<Mutation>) {
    && SameOutside(after, before, ms)
    && forall i :: 0 <= i < |ms| ==>
         Get(after, ms[i].path) == Get(before, ms[i].path) || Get(after, ms[i].path) == ms[i].before
  }

  /** Between two states only planned files have moved, and those only to their desired state. */
  ghost predicate Advancing(before: Files, after: Files, ms: seq<Mutation>) {
    && SameOutside(after, before, ms)
    && forall i :: 0 <= i < |ms| ==>
         Get(after, ms[i].path) == Get(before, ms[i].path) || Get(after, ms[i].path) == Some(ms[i].after)
  }

  lemma MovingNothing(files: Files, ms: seq<Mutation>)
    ensures Restoring(files, files, ms) && Advancing(files, files, ms) && SameOutside(files, files, ms)
  {
  }

  lemma MovingOutside(before: Files, between: Files, after: Files, ms: seq<Mutation>)
    ensures Restoring(before, after, ms) || Advancing(before, after, ms) ==> SameOutside(after, before, ms)
    ensures SameOutside(between, before, ms) && SameOutside(after, between, ms) ==> SameOutside(after, before, ms)
  {
    if SameOutside(between, before, ms) && SameOutside(after, between, ms) {
      forall path | !Touches(ms, path) ensures Get(after, path) == Get(before, path) {
        assert Get(after, path) == Get(between, path);
      }
    }
  }

  lemma AdvancingKeepsBetween(before: Files, after: Files, base: Files, ms: seq<Mutation>)
    requires Advancing(before, after, ms)
    ensures Between(before, base, ms) ==> Between(after, base, ms)
  {
    if Between(before, base, ms) {
      forall path | !Touches(ms, path) ensures Get(after, path) == Get(base, path) {
        assert Get(after, path) == Get(before, path);
      }
    }
  }

  lemma RestoringKeepsBetween(before: Files, after: Files, base: Files, ms: seq<Mutation>)
    requires Restoring(before, after, ms)
    ensures Between(before, base, ms) ==> Between(after, base, ms)
  {
    if Between(before, base, ms) {
      forall path | !Touches(ms, path) ensures Get(after, path) == Get(base, path) {
        assert Get(after, path) == Get(before, path);
      }
    }
  }

  lemma CompletedIsBetween(files: Files, base: Files, ms: seq<Mutation>)
    ensures SameOutside(files, base, ms) && HasAfter(files, ms) ==> Between(files, base, ms)
    ensures files == base && HasBefore(base, ms) ==> Between(files, base, ms)
  {
  }

  lemma BetweenOutside(files: Files, base: Files, ms: seq<Mutation>)
    ensures Between(files, base, ms) ==> SameOutside(files, base, ms)
  {
  }

  lemma ClearTwoMore(faults: seq<Fault>, n: nat, later: nat)
    ensures Rest(Rest(faults, n), 1) == Rest(faults, n + 1) && Rest(Rest(faults, n + 1), 1) == Rest(faults, n + 2)
    ensures At(Rest(faults, n), 0) == At(faults, n) && At(Rest(faults, n + 1), 0) == At(faults, n + 1)
    ensures Clear(faults, n + 2) <==> Clear(faults, n) && At(faults, n) == Proceed && At(faults, n + 1) == Proceed
    ensures Clear(faults, n + 2 + later) ==> Clear(faults, n + 2)
  {
  }

  /** What somebody else has made of a planned file: gone although it was there, with a content that is
      neither the prior nor the desired one, or with such a mode. */
  ghost predicate Edited(m: Mutation, now: Option<File>) {
    match (m.before, now)
    case (None, None) => false
    case (Some(_), None) => true
    case (None, Some(file)) => file.content != m.after.content || file.mode != m.after.mode
    case (Some(prior), Some(file)) =>
      || (file.content != prior.content && file.content != m.after.content)
      || (file.mode != prior.mode && file.mode != m.after.mode)
  }

  ghost predicate AnyEdited(files: Files, ms: seq<Mutation>) {
    exists m | m in ms :: Edited(m, Get(files, m.path))
  }

  /** Every file of the first list is in the second with the same contents. */
  ghost predicate SameContents(xs: seq<Mutation>, ys: seq<Mutation>) {
    forall i | 0 <= i < |xs| ::
      exists j | 0 <= j < |ys| :: ys[j].path == xs[i].path && ys[j].after.content == xs[i].after.content
  }

  lemma ContentsSubset(xs: seq<Mutation>, ys: seq<Mutation>)
    ensures (set m <- xs :: (m.path, m.after.content)) <= (set m <- ys :: (m.path, m.after.content))
            <==> SameContents(xs, ys)
  {
    var a, b := set m <- xs :: (m.path, m.after.content), set m <- ys :: (m.path, m.after.content);
    if a <= b {
      forall i | 0 <= i < |xs|
        ensures exists j | 0 <= j < |ys| :: ys[j].path == xs[i].path && ys[j].after.content == xs[i].after.content
      {
        assert xs[i] in xs;
        assert (xs[i].path, xs[i].after.content) in a;
      }
    }
    if SameContents(xs, ys) {
      forall p | p in a ensures p in b {
        var m :| m in xs && p == (m.path, m.after.content);
        var i :| 0 <= i < |xs| && xs[i] == m;
        var j :| 0 <= j < |ys| && ys[j].path == xs[i].path && ys[j].after.content == xs[i].after.content;
        assert ys[j] in ys;
      }
    }
  }

  predicate SamePaths(xs: seq<Mutation>, ys: seq<Mutation>) {
    |xs| == |ys| && forall i :: 0 <= i < |xs| ==> xs[i].path == ys[i].path
  }

  /** The installer's state as a value, to compare a state with an earlier one. */
  datatype State = State(files: Files, owner: Option<Owner>, journals: map<Txn, Status>,
                         directories: set<Txn>, faults: seq<Fault>)

  // ---------- Several unfinished transactions ----------

  predicate Unfinished(journals: map<Txn, Status>, t: Txn) {
    t in journals && !Final(journals[t])
  }

  ghost predicate Alone(journals: map<Txn, Status>, txn: Txn) {
    forall t :: t in journals && t != txn ==> Final(journals[t])
  }

  /** No two unfinished transactions plan the same file. */
  ghost predicate Apart(journals: map<Txn, Status>) {
    forall t, u, path :: Unfinished(journals, t) && Unfinished(journals, u) && t != u ==>
      !(Touches(t.mutations, path) && Touches(u.mutations, path))
  }

  /** Only files that an unfinished transaction plans have moved. */
  ghost predicate OnlyPlannedMoved(before: Files, after: Files, journals: map<Txn, Status>) {
    forall path ::
      Get(after, path) == Get(before, path) || exists t :: Unfinished(journals, t) && Touches(t.mutations, path)
  }

  function Reached(order: seq<Txn>): set<Txn> {
    set t | t in order
  }

  /** The journal is final and the planned files bear it out. */
  ghost predicate Ended(s: State, t: Txn) {
    && t in s.journals
    && (|| (s.journals[t] == RolledBack && HasBefore(s.files, t.mutations))
        || (s.journals[t] == Committed && HasAfter(s.files, t.mutations)))
  }

  /** What recovery keeps however far it comes: which journals there are, those that were final or are
      not reached, and the files that no unfinished transaction plans. */
  ghost predicate Kept(before: State, s: State, reached: set<Txn>) {
    && s.journals.Keys == before.journals.Keys && s.directories == before.directories
    && (forall t :: t in s.journals && (Final(before.journals[t]) || t !in reached) ==>
          s.journals[t] == before.journals[t])
    && OnlyPlannedMoved(before.files, s.files, before.journals)
  }

  ghost predicate AllEnded(before: State, s: State, done: set<Txn>) {
    && (forall t :: t in done ==> t in s.journals && Final(s.journals[t]))
    && (Apart(before.journals) ==> forall t :: t in done && Unfinished(before.journals, t) ==> Ended(s, t))
  }

  lemma KeptAtFirst(s: State)
    ensures Kept(s, s, {}) && AllEnded(s, s, {})
  {
  }

  lemma KeptMore(before: State, mid: State, s: State, reached: set<Txn>, t: Txn)
    requires Kept(before, mid, reached) && Unfinished(before.journals, t)
    requires t in s.journals && s.journals == mid.journals[t := s.journals[t]] && s.directories == mid.directories
    requires SameOutside(s.files, mid.files, t.mutations)
    ensures Kept(before, s, reached + {t})
  {
    forall path
      ensures Get(s.files, path) == Get(before.files, path)
              || exists u :: Unfinished(before.journals, u) && Touches(u.mutations, path)
    {
      assert !Touches(t.mutations, path) ==> Get(s.files, path) == Get(mid.files, path);
    }
  }

  lemma KeptReached(before: State, s: State, reached: set<Txn>, more: set<Txn>)
    requires Kept(before, s, reached) && reached <= more
    ensures Kept(before, s, more)
  {
  }

  lemma KeptFacts(before: State, s: State, reached: set<Txn>, t: Txn, txn: Txn)
    requires Kept(before, s, reached)
    ensures t in s.journals <==> t in before.journals
    ensures t in s.journals && (t !in reached || Final(before.journals[t])) ==> s.journals[t] == before.journals[t]
    ensures Alone(before.journals, txn) && t in s.journals && t != txn ==> Final(s.journals[t])
  {
  }

  lemma KeptAlone(before: State, s: State, reached: set<Txn>, txn: Txn)
    requires Kept(before, s, reached) && Alone(before.journals, txn)
    ensures txn in before.journals ==>
              txn in s.journals && s.journals == before.journals[txn := s.journals[txn]]
    ensures s.directories == before.directories && Alone(s.journals, txn)
    ensures SameOutside(s.files, before.files, txn.mutations)
  {
  }

  /** An ended transaction stays ended while only files of another one move. */
  lemma EndedStays(mid: State, s: State, t: Txn, u: Txn)
    requires Ended(mid, u) && u != t && t in s.journals && s.journals == mid.journals[t := s.journals[t]]
    requires SameOutside(s.files, mid.files, t.mutations)
    requires forall path :: !(Touches(t.mutations, path) && Touches(u.mutations, path))
    ensures Ended(s, u)
  {
    forall i | 0 <= i < |u.mutations| ensures Get(s.files, u.mutations[i].path) == Get(mid.files, u.mutations[i].path) {
      assert Touches(u.mutations, u.mutations[i].path);
    }
  }

  lemma AllEndedMore(before: State, mid: State, s: State, done: set<Txn>, t: Txn)
    requires AllEnded(before, mid, done) && Unfinished(before.journals, t) && t !in done
    requires t in s.journals && s.journals == mid.journals[t := s.journals[t]]
    requires SameOutside(s.files, mid.files, t.mutations) && Ended(s, t)
    ensures AllEnded(before, s, done + {t})
  {
    hide Ended, SameOutside, Touches;
    assert Final(s.journals[t]) by { EndedIsFinal(s, t); }
    if Apart(before.journals) {
      forall u | u in done && Unfinished(before.journals, u) ensures Ended(s, u) {
        EndedStays(mid, s, t, u);
      }
    }
  }

  lemma EndedIsFinal(s: State, t: Txn)
    ensures Ended(s, t) ==> t in s.journals && Final(s.journals[t])
  {
  }

  /** A final journal is passed over. */
  lemma AllEndedPast(before: State, s: State, done: set<Txn>, t: Txn)
    requires AllEnded(before, s, done) && t in s.journals && Final(s.journals[t])
    requires t in before.journals && Final(before.journals[t])
    ensures AllEnded(before, s, done + {t})
  {
  }

  // ---------- The installer ----------

  class TransactionalInstaller {
    var files: Files
    var owner: Option<Owner>
    var journals: map<Txn, Status>
    /** Transaction directories; one without a journal was left by an interrupted preparation. */
    var directories: set<Txn>
    /** What happens at the next durable writes; nothing more once it is empty. */
    var faults: seq<Fault>

    constructor (files: Files)
      ensures this.files == files && owner == None && journals == map[] && directories == {} && faults == []
    {
      this.files, owner, journals, directories, faults := files, None, map[], {}, [];
    }

    /** The states in which a transaction can be found: unfinished, undone, or done. */
    ghost predicate Pending(txn: Txn, base: Files)
      reads this
    {
      && txn in journals && !Final(journals[txn])
      && Between(files, base, txn.mutations)
      && (owner == txn.expected || (owner.Some? && owner.value.txn == txn))
    }

    ghost predicate Undone(txn: Txn, base: Files)
      reads this
    {
      txn in journals && journals[txn] == RolledBack && files == base && owner == txn.expected
    }

    ghost predicate Completed(txn: Txn, base: Files)
      reads this
    {
      && txn in journals && journals[txn] == Committed
      && SameOutside(files, base, txn.mutations) && HasAfter(files, txn.mutations)
      && owner.Some? && owner.value.txn == txn
    }

    ghost predicate Tracked(txn: Txn, base: Files)
      reads this
    {
      && DistinctPaths(txn.mutations) && HasBefore(base, txn.mutations)
      && txn in directories
      && (Pending(txn, base) || Undone(txn, base) || Completed(txn, base))
    }

    predicate Current(o: Owner)
      reads this
    {
      HasAfter(files, o.txn.mutations)
    }

    // ---------- Durable writes ----------

    method Next() returns (f: Fault)
      modifies `faults
      ensures f == At(old(faults), 0) && faults == Rest(old(faults), 1)
    {
      if faults == [] {
        f := Proceed;
      } else {
        f := faults[0];
        faults := faults[1..];
      }
    }

    method SetStatus(txn: Txn, status: Status) returns (o: Outcome)
      modifies `journals, `faults
      ensures o == At(old(faults), 0).Outcome() && faults == Rest(old(faults), 1)
      ensures journals == if At(old(faults), 0).TakesEffect() then old(journals)[txn := status] else old(journals)
    {
      var f := Next();
      if f.TakesEffect() {
        journals := journals[txn := status];
      }
      o := f.Outcome();
    }

    method PutFile(path: string, file: Option<File>) returns (o: Outcome)
      modifies `files, `faults
      ensures o == At(old(faults), 0).Outcome() && faults == Rest(old(faults), 1)
      ensures files == if At(old(faults), 0).TakesEffect() then Put(old(files), path, file) else old(files)
    {
      var f := Next();
      if f.TakesEffect() {
        files := Put(files, path, file);
      }
      o := f.Outcome();
    }

    method PutOwner(next: Option<Owner>) returns (o: Outcome)
      modifies `owner, `faults
      ensures o == At(old(faults), 0).Outcome() && faults == Rest(old(faults), 1)
      ensures owner == if At(old(faults), 0).TakesEffect() then next else old(owner)
    {
      var f := Next();
      if f.TakesEffect() {
        owner := next;
      }
      o := f.Outcome();
    }

    /** What a sequence of writes comes to: `before` are the faults it started with. */
    ghost predicate Behaves(before: seq<Fault>, o: Outcome)
      reads this
    {
      && (Quiet(before) ==> o.Done? && Quiet(faults))
      && (Mild(before) ==> !o.Crashed? && Mild(faults) && (o.Raised? ==> Quiet(faults)))
    }

    // ---------- Applying and restoring ----------

    /** Writes every staged file; interrupted, it leaves each file as it was or in its desired state. */
    method ApplyStaged(txn: Txn) returns (o: Outcome)
      requires txn in journals && !Final(journals[txn]) && DistinctPaths(txn.mutations)
      modifies `files, `journals, `faults
      ensures Advancing(old(files), files, txn.mutations)
      ensures txn in journals && journals == old(journals)[txn := journals[txn]]
      ensures journals[txn] == Applying || journals[txn] == old(journals)[txn]
      ensures o.Done? ==> HasAfter(files, txn.mutations) && journals[txn] == Applying
      ensures o.Done? <==> Clear(old(faults), 2 * |txn.mutations| + 1)
      ensures o.Done? ==> faults == Rest(old(faults), 2 * |txn.mutations| + 1)
      ensures At(old(faults), 0) == Crash(false) ==> o.Crashed? && files == old(files) && journals == old(journals)
      ensures Behaves(old(faults), o)
    {
      hide Quiet, Mild, At, Rest, Clear;
      RestFacts(faults);
      RestMore(faults, 0);
      ClearMore(faults, 0);
      ClearParts(faults, 1, 2 * |txn.mutations|);
      MovingNothing(files, txn.mutations);
      o := SetStatus(txn, Applying);
      if !o.Done? {
        return;
      }
      var ms := txn.mutations;
      var i := 0;
      while i < |ms|
        invariant 0 <= i <= |ms| && o.Done?
        invariant Advancing(old(files), files, ms)
        invariant forall k :: 0 <= k < i ==> Get(files, ms[k].path) == Some(ms[k].after)
        invariant journals == old(journals)[txn := Applying]
        invariant faults == Rest(old(faults), 1 + 2 * i) && Clear(old(faults), 1 + 2 * i)
        invariant (Quiet(old(faults)) ==> Quiet(faults)) && (Mild(old(faults)) ==> Mild(faults))
      {
        ClearTwoMore(old(faults), 1 + 2 * i, 2 * (|ms| - i - 1));
        RestFacts(faults);
        PutKeepsOutside(files, old(files), ms, i, Some(ms[i].after));
        o := PutFile(ms[i].path, Some(ms[i].after));
        if !o.Done? {
          return;
        }
        RestFacts(faults);
        o := SetStatus(txn, Applying);
        if !o.Done? {
          return;
        }
        i := i + 1;
      }
    }

    /**
     Puts every planned file back, last first, whatever is there now; interrupted, it leaves each as it
     was or in its prior state.
     */
    method RestoreFiles(txn: Txn) returns (o: Outcome)
      requires txn in journals && journals[txn] == RollingBack && DistinctPaths(txn.mutations)
      modifies `files, `journals, `faults
      ensures journals == old(journals)
      ensures Restoring(old(files), files, txn.mutations)
      ensures o.Done? ==> HasBefore(files, txn.mutations) && faults == Rest(old(faults), 2 * |txn.mutations|)
      ensures txn.mutations != [] && At(old(faults), 0).Crash? ==> o.Crashed?
      ensures Behaves(old(faults), o)
    {
      hide Quiet, Mild, At, Rest;
      RestMore(faults, 0);
      o := Done;
      var ms := txn.mutations;
      var i := |ms|;
      while i > 0
        invariant 0 <= i <= |ms| && o.Done?
        invariant Restoring(old(files), files, ms)
        invariant forall k :: i <= k < |ms| ==> Get(files, ms[k].path) == ms[k].before
        invariant journals == old(journals)
        invariant faults == Rest(old(faults), 2 * (|ms| - i))
        invariant i < |ms| ==> !At(old(faults), 0).Crash?
        invariant (Quiet(old(faults)) ==> Quiet(faults)) && (Mild(old(faults)) ==> Mild(faults))
        decreases i
      {
        i := i - 1;
        RestTwoMore(old(faults), 2 * (|ms| - i - 1));
        RestFacts(faults);
        PutKeepsOutside(files, old(files), ms, i, ms[i].before);
        o := PutFile(ms[i].path, ms[i].before);
        if !o.Done? {
          return;
        }
        RestFacts(faults);
        o := SetStatus(txn, RollingBack);
        if !o.Done? {
          return;
        }
      }
    }

    /** Undone as far as the transaction itself can tell. */
    ghost predicate PutBack(txn: Txn)
      reads this
    {
      txn in journals && journals[txn] == RolledBack && HasBefore(files, txn.mutations) && owner == txn.expected
    }

    /** Done as far as the transaction itself can tell. */
    ghost predicate CarriedOut(txn: Txn)
      reads this
    {
      && txn in journals && journals[txn] == Committed && HasAfter(files, txn.mutations)
      && owner.Some? && owner.value.txn == txn
    }

    /** The current owner is another transaction than this one and the one it replaced. */
    predicate Superseded(txn: Txn)
      reads this
    {
      && owner.Some? && owner.value.txn != txn
      && (txn.expected.None? || owner.value.txn != txn.expected.value.txn)
    }

    /**
     Restores the files, then the previous owner. Completed, it leaves no trace of the transaction but
     its journal; interrupted, it can be run again. Run for a superseded transaction it overwrites the
     files of the current owner all the same, and only then fails on the ownership record.
     */
    method RollbackFromJournal(txn: Txn, ghost base: Files) returns (o: Outcome)
      requires txn in journals && DistinctPaths(txn.mutations)
      modifies `files, `owner, `journals, `faults
      ensures txn in journals && journals == old(journals)[txn := journals[txn]]
      ensures owner == old(owner) || owner == txn.expected
      ensures Restoring(old(files), files, txn.mutations)
      ensures o.Done? ==> PutBack(txn)
      ensures old(Tracked(txn, base) && (Pending(txn, base) || Completed(txn, base))) ==>
                && Tracked(txn, base) && (o.Done? ==> Undone(txn, base))
                && Behaves(old(faults), o)
      ensures old(Superseded(txn)) ==>
                && o != Done && owner == old(owner)
                && (journals[txn] == old(journals)[txn] || journals[txn] == RollingBack)
                && (Quiet(old(faults)) ==>
                      o == Raised && journals[txn] == RollingBack && HasBefore(files, txn.mutations) && Quiet(faults))
      ensures txn.mutations != [] && At(old(faults), 0) == Proceed && At(old(faults), 1).Crash? ==>
                o.Crashed? && journals[txn] == RollingBack
    {
      hide Quiet, Mild, At, Rest, Between;
      RestFacts(faults);
      RestMore(faults, 1);
      RestMore(faults, 0);
      MovingNothing(files, txn.mutations);
      CompletedIsBetween(files, base, txn.mutations);
      o := SetStatus(txn, RollingBack);
      if !o.Done? {
        return;
      }
      o := RestoreFiles(txn);
      RestoringKeepsBetween(old(files), files, base, txn.mutations);
      if !o.Done? {
        return;
      }
      BetweenOutside(files, base, txn.mutations);
      if SameOutside(files, base, txn.mutations) && HasBefore(base, txn.mutations) {
        RestoredIsBase(files, base, txn.mutations);
      }
      o := RestoreOwner(txn);
      if !o.Done? {
        return;
      }
      RestFacts(faults);
      o := SetStatus(txn, RolledBack);
    }

    /** Puts the previous ownership record back, or deletes this transaction's own; refuses to touch
        the record of any other transaction. */
    method RestoreOwner(txn: Txn) returns (o: Outcome)
      modifies `owner, `faults
      ensures owner == old(owner) || owner == txn.expected
      ensures old(Superseded(txn)) ==> o == Raised && owner == old(owner) && faults == old(faults)
      ensures !old(Superseded(txn)) ==> Behaves(old(faults), o)
      ensures o.Done? ==> owner == txn.expected
      ensures txn.expected.None? && old(owner).None? ==> o == Done && faults == old(faults)
    {
      RestFacts(faults);
      if owner.Some? && owner.value.txn != txn
         && (txn.expected.None? || owner.value.txn != txn.expected.value.txn)
      {
        return Raised;
      }
      if txn.expected.None? && owner.None? {
        return Done;
      }
      o := PutOwner(txn.expected);
    }

    // ---------- Committing ----------

    /** The guarded part of a commit: files, check, ownership record, journal. Returns the status
        that the journal in memory bears, which a failure writes back. */
    method ApplyAndPublish(txn: Txn, verified: bool, now: int)
      returns (o: Outcome, rejected: bool, inMemory: Status)
      requires txn in journals && !Final(journals[txn]) && DistinctPaths(txn.mutations)
      modifies `files, `owner, `journals, `faults
      ensures txn in journals && journals == old(journals)[txn := journals[txn]] && journals[txn] != RolledBack
      ensures Advancing(old(files), files, txn.mutations)
      ensures owner == old(owner) || owner == Some(Owner(txn, now))
      ensures inMemory == Applying || inMemory == Verifying || inMemory == Committed
      ensures journals[txn] == Committed ==> inMemory == Committed
      ensures inMemory == Committed ==> HasAfter(files, txn.mutations) && owner == Some(Owner(txn, now))
      ensures o.Done? && !rejected ==> CarriedOut(txn)
      ensures o.Done? ==> rejected == !verified
      ensures rejected ==> o.Done?
      ensures !verified ==> owner == old(owner)
      ensures Behaves(old(faults), o)
      ensures !verified && Clear(old(faults), 2 * |txn.mutations| + 2) ==>
                o.Done? && inMemory == Verifying && faults == Rest(old(faults), 2 * |txn.mutations| + 2)
      ensures At(old(faults), 0) == Crash(false) ==>
                o.Crashed? && files == old(files) && journals == old(journals) && owner == old(owner)
    {
      hide Quiet, Mild, At, Rest, Clear;
      ClearMore(faults, 2 * |txn.mutations| + 1);
      RestMore(faults, 2 * |txn.mutations| + 1);
      rejected := false;
      inMemory := Applying;
      o := ApplyStaged(txn);
      if !o.Done? {
        return;
      }
      inMemory := Verifying;
      RestFacts(faults);
      o := SetStatus(txn, Verifying);
      if !o.Done? {
        return;
      }
      if !verified {
        rejected := true;
        return;
      }
      RestFacts(faults);
      o := PutOwner(Some(Owner(txn, now)));
      if !o.Done? {
        return;
      }
      inMemory := Committed;
      RestFacts(faults);
      o := SetStatus(txn, Committed);
    }

    /** From a pending state, whatever was written leads to a pending or a completed one. */
    lemma AdvancedIsTracked(txn: Txn, base: Files, before: Files, beforeOwner: Option<Owner>, now: int)
      requires Between(before, base, txn.mutations) && Advancing(before, files, txn.mutations)
      requires beforeOwner == txn.expected || (beforeOwner.Some? && beforeOwner.value.txn == txn)
      requires owner == beforeOwner || owner == Some(Owner(txn, now))
      requires txn in journals && journals[txn] != RolledBack
      requires journals[txn] == Committed ==>
                 HasAfter(files, txn.mutations) && owner == Some(Owner(txn, now))
      ensures Pending(txn, base) || Completed(txn, base)
      ensures SameOutside(files, base, txn.mutations)
    {
      AdvancingKeepsBetween(before, files, base, txn.mutations);
      BetweenOutside(files, base, txn.mutations);
    }

    /** What follows a failure: the failure is journaled, then everything is undone. */
    method RecordAndRollback(txn: Txn, inMemory: Status, ghost base: Files) returns (o: Outcome)
      requires txn in journals && DistinctPaths(txn.mutations)
      modifies `files, `owner, `journals, `faults
      ensures txn in journals && journals == old(journals)[txn := journals[txn]]
      ensures owner == old(owner) || owner == txn.expected
      ensures Restoring(old(files), files, txn.mutations)
      ensures o.Done? ==> PutBack(txn)
      ensures old(Superseded(txn)) ==> o != Done && owner == old(owner)
      ensures old(Failed(txn, inMemory, base)) ==>
                Tracked(txn, base) && (o.Done? ==> Undone(txn, base)) && Behaves(old(faults), o)
      ensures txn.mutations != [] && Clear(old(faults), 2) && At(old(faults), 2).Crash? ==>
                o.Crashed? && journals[txn] == RollingBack
      ensures At(old(faults), 0) != Proceed ==> !o.Done? && files == old(files) && owner == old(owner)
    {
      hide Quiet, Mild, At, Rest, Clear;
      RestFacts(faults);
      ClearMore(faults, 0);
      ClearMore(faults, 1);
      RestMore(faults, 0);
      RestMore(faults, 1);
      ClearParts(faults, 1, 1);
      MovingNothing(files, txn.mutations);
      CompletedIsBetween(files, base, txn.mutations);
      o := SetStatus(txn, inMemory);
      if !o.Done? {
        return;
      }
      o := RollbackFromJournal(txn, base);
    }

    /** A tracked transaction whose guarded part has failed, with what its journal in memory may bear. */
    ghost predicate Failed(txn: Txn, inMemory: Status, base: Files)
      reads this
    {
      && Tracked(txn, base) && (Pending(txn, base) || Completed(txn, base))
      && (journals[txn] == Committed ==> inMemory == Committed)
      && (|| !Final(inMemory)
          || (inMemory == Committed && HasAfter(files, txn.mutations)
              && owner.Some? && owner.value.txn == txn && SameOutside(files, base, txn.mutations)))
    }

    function Fails(o: Outcome): InstallError {
      if o == Crashed then ProcessDied else WriteFailed
    }

    /**
     Makes the transaction directory, its payloads and its journal. It leaves a directory without a
     journal, and nothing else, exactly if the faults stop it in between.
     */
    method PrepareTransaction(txn: Txn) returns (o: Outcome)
      requires txn !in directories && txn !in journals
      modifies `directories, `journals, `faults
      ensures directories == old(directories) || directories == old(directories) + {txn}
      ensures journals == old(journals)
              || (journals == old(journals)[txn := Prepared] && txn in directories)
      ensures o.Done? ==> journals == old(journals)[txn := Prepared]
      ensures txn in directories && txn !in journals <==> Orphans(old(faults), |txn.mutations|)
      ensures o.Done? <==> Clear(old(faults), |txn.mutations| + 2)
      ensures o.Done? ==> faults == Rest(old(faults), |txn.mutations| + 2)
      ensures Behaves(old(faults), o)
    {
      hide Quiet, Mild, At, Rest, Clear, Orphans;
      var m := |txn.mutations|;
      RestFacts(faults);
      RestMore(faults, 0);
      ClearMore(faults, 0);
      PreparationStops(faults, 0, m);
      var f := Next();
      if f.TakesEffect() {
        directories := directories + {txn};
      }
      o := f.Outcome();
      if !o.Done? {
        return;
      }
      var i := 0;
      while i < m
        invariant 0 <= i <= m
        invariant o.Done? && directories == old(directories) + {txn} && journals == old(journals)
        invariant faults == Rest(old(faults), i + 1) && Clear(old(faults), i + 1)
        invariant (Quiet(old(faults)) ==> Quiet(faults)) && (Mild(old(faults)) ==> Mild(faults))
      {
        RestFacts(faults);
        RestMore(old(faults), i + 1);
        ClearMore(old(faults), i + 1);
        PreparationStops(old(faults), i + 1, m);
        f := Next();
        o := f.Outcome();
        if !o.Done? {
          return;
        }
        i := i + 1;
      }
      RestFacts(faults);
      RestMore(old(faults), m + 1);
      ClearMore(old(faults), m + 1);
      PreparationStops(old(faults), m + 1, m);
      PreparationDone(old(faults), m);
      o := SetStatus(txn, Prepared);
    }

    ghost predicate Ready(txn: Txn)
      reads this
    {
      && DistinctPaths(txn.mutations) && HasBefore(files, txn.mutations)
      && txn !in journals && journals.Keys <= directories && owner == txn.expected
    }

    function Snapshot(): State
      reads this
    {
      State(files, owner, journals, directories, faults)
    }

    /** The outcome of one committed run against the state before it. */
    ghost predicate CommitOutcome(before: State, txn: Txn, verified: bool, now: int,
                                  r: Result<Owner, InstallError>)
      reads this
    {
      && (txn !in journals ==>
            files == before.files && owner == before.owner && journals == before.journals)
      && (txn in journals ==>
            Tracked(txn, before.files) && journals == before.journals[txn := journals[txn]])
      && (!verified ==> owner == before.owner)
      && before.directories <= directories <= before.directories + {txn}
      && (r.Success? ==> txn in journals && Completed(txn, before.files) && owner == Some(r.value))
      && (txn in before.directories ==> r == Failure(TransactionPathExists) && txn !in journals)
      && (txn !in before.directories ==>
            && (txn in directories && txn !in journals <==> Orphans(before.faults, |txn.mutations|))
            && (Quiet(before.faults) && verified ==> r == Success(Owner(txn, now)))
            && (Quiet(before.faults) && !verified ==> r == Failure(VerificationFailed) && Undone(txn, before.files)))
      && (Quiet(before.faults) ==> Quiet(faults))
      && (Mild(before.faults) && verified && txn in journals ==> EndedMildly(txn, before.files))
      && (txn !in before.directories && CutShort(before.faults, txn, verified) ==>
            txn in journals && journals[txn] == RollingBack && r == Failure(ProcessDied))
      && (txn !in before.directories && DiesPrepared(before.faults, |txn.mutations|) ==>
            && txn in journals && journals[txn] == Prepared && files == before.files && owner == before.owner
            && r == Failure(ProcessDied))
      && (verified ==> r != Failure(VerificationFailed))
    }

    /** The process dies between the preparation and the first write of the transaction. */
    ghost predicate DiesPrepared(faults: seq<Fault>, m: nat) {
      Clear(faults, m + 2) && At(faults, m + 2) == Crash(false)
    }

    /** After one raised write: done, undone, or prepared only, when the write was the journal's own. */
    ghost predicate EndedMildly(txn: Txn, base: Files)
      reads this
    {
      Completed(txn, base) || Undone(txn, base) || (txn in journals && journals[txn] == Prepared && files == base)
    }

    /** The process dies at the first file that the rollback of a rejected transaction restores. */
    ghost predicate CutShort(faults: seq<Fault>, txn: Txn, verified: bool) {
      var n := 3 * |txn.mutations| + 6;
      !verified && txn.mutations != [] && Clear(faults, n) && At(faults, n).Crash?
    }

    /** Runs a transaction whose checks have passed. However it is interrupted, either no journal was
        written and nothing changed, or the transaction is tracked against the files it started from. */
    method Commit(txn: Txn, verified: bool, now: int) returns (r: Result<Owner, InstallError>)
      requires Ready(txn)
      modifies this
      ensures CommitOutcome(old(Snapshot()), txn, verified, now, r)
    {
      hide Quiet, Mild, At, Rest, Clear, Orphans, Between, SameOutside, DistinctPaths, HasBefore, HasAfter;
      if txn in directories {
        return Failure(TransactionPathExists);
      }
      ghost var m := |txn.mutations|;
      ClearParts(faults, m + 2, 2 * m + 4);
      RestMore(faults, m + 2);
      RestFacts(faults);
      CompletedIsBetween(files, files, txn.mutations);
      BetweenOutside(files, files, txn.mutations);
      var o := PrepareTransaction(txn);
      if !o.Done? {
        assert txn in journals ==> Pending(txn, files);
        ClearFewer(old(faults), m + 2, 3 * m + 6);
        return Failure(Fails(o));
      }
      r := RunPrepared(txn, verified, now);
    }

    /** The guarded sequence after the preparation, and its undoing should it fail. */
    method RunPrepared(txn: Txn, verified: bool, now: int) returns (r: Result<Owner, InstallError>)
      requires Tracked(txn, files) && Pending(txn, files) && owner == txn.expected
      modifies `files, `owner, `journals, `faults
      ensures Tracked(txn, old(files)) && journals == old(journals)[txn := journals[txn]]
      ensures !verified ==> owner == old(owner)
      ensures r.Success? ==> Completed(txn, old(files)) && owner == Some(r.value)
      ensures Quiet(old(faults)) ==>
                && Quiet(faults)
                && (verified ==> r == Success(Owner(txn, now)))
                && (!verified ==> r == Failure(VerificationFailed) && Undone(txn, old(files)))
      ensures Mild(old(faults)) && verified ==> Completed(txn, old(files)) || Undone(txn, old(files))
      ensures var n := 2 * |txn.mutations| + 4;
              !verified && txn.mutations != [] && Clear(old(faults), n) && At(old(faults), n).Crash? ==>
                journals[txn] == RollingBack && r == Failure(ProcessDied)
      ensures At(old(faults), 0) == Crash(false) ==>
                files == old(files) && journals == old(journals) && owner == old(owner) && r == Failure(ProcessDied)
      ensures verified ==> r != Failure(VerificationFailed)
    {
      hide Quiet, Mild, At, Rest, Clear, Between, SameOutside, DistinctPaths, HasBefore, HasAfter;
      ghost var base := files;
      ClearParts(faults, 2 * |txn.mutations| + 2, 2);
      RestFacts(faults);
      CompletedIsBetween(files, base, txn.mutations);
      var o, rejected, inMemory := ApplyAndPublish(txn, verified, now);
      AdvancedIsTracked(txn, base, base, txn.expected, now);
      if o.Done? && !rejected {
        return Success(Owner(txn, now));
      }
      if o.Crashed? {
        return Failure(ProcessDied);
      }
      RestFacts(faults);
      var undo := RecordAndRollback(txn, inMemory, base);
      if !undo.Done? {
        return Failure(Fails(undo));
      }
      return Failure(if rejected then VerificationFailed else WriteFailed);
    }

    // ---------- The checked operations ----------

    /** The answer to a plan that already has a journal. */
    method RepeatedResult(txn: Txn) returns (r: Option<Result<Owner, InstallError>>)
      ensures r.None? <==> txn !in journals
      ensures r.Some? && r.value.Success? <==>
              txn in journals && journals[txn] == Committed && owner.Some? && owner.value.txn == txn
              && HasAfter(files, txn.mutations)
      ensures r.Some? && r.value.Success? ==> owner == Some(r.value.value)
      ensures r.Some? ==> (r.value == Failure(NoLongerApplicable) <==> journals[txn] != Committed)
      ensures r.Some? && journals[txn] == Committed ==>
                (r.value == Failure(OwnershipMissing) <==> owner.None? || owner.value.txn != txn)
      ensures r.Some? && journals[txn] == Committed && owner.Some? && owner.value.txn == txn ==>
                (r.value == Failure(TargetDrifted) <==> !HasAfter(files, txn.mutations))
    {
      if txn !in journals {
        return None;
      }
      if journals[txn] != Committed {
        return Some(Failure(NoLongerApplicable));
      }
      if owner.None? || owner.value.txn != txn {
        return Some(Failure(OwnershipMissing));
      }
      if !Current(owner.value) {
        return Some(Failure(TargetDrifted));
      }
      return Some(Success(owner.value));
    }

    predicate MatchesPlan(o: Owner, txn: Txn) {
      && o.txn.packageId == txn.packageId && o.txn.packageVersion == txn.packageVersion
      && o.txn.manifest == txn.manifest
      && (set m <- o.txn.mutations :: (m.path, m.after.content))
         == (set m <- txn.mutations :: (m.path, m.after.content))
    }

    /** The same package, release and manifest, and the same contents at the same paths. */
    lemma MatchesExactly(o: Owner, txn: Txn)
      ensures MatchesPlan(o, txn)
              <==> && o.txn.packageId == txn.packageId && o.txn.packageVersion == txn.packageVersion
                   && o.txn.manifest == txn.manifest
                   && SameContents(o.txn.mutations, txn.mutations) && SameContents(txn.mutations, o.txn.mutations)
    {
      var xs, ys := o.txn.mutations, txn.mutations;
      ContentsSubset(xs, ys);
      ContentsSubset(ys, xs);
    }

    /** The plan was committed before, and its files are still there under its own record. */
    ghost predicate RepeatsCommitted(txn: Txn)
      reads this
    {
      && txn in journals && journals[txn] == Committed
      && owner.Some? && owner.value.txn == txn && HasAfter(files, txn.mutations)
    }

    predicate AdmitsInstall(txn: Txn, approved: Txn, active: bool)
      reads this
    {
      && approved == txn && txn !in journals && owner.None? && txn.expected.None?
      && !active && HasBefore(files, txn.mutations)
    }

    predicate AdmitsUpdate(txn: Txn, approved: Txn, active: bool)
      reads this
    {
      && approved == txn && txn !in journals && owner.Some? && txn.expected == owner
      && Current(owner.value) && SamePaths(txn.mutations, owner.value.txn.mutations)
      && !active && HasBefore(files, txn.mutations)
    }

    /** Install: a transaction is run only against an unowned target in the exact previewed state;
        otherwise nothing changes, and only a repeated current plan is answered with success. */
    method Apply(txn: Txn, approved: Txn, active: bool, verified: bool, now: int)
      returns (r: Result<Owner, InstallError>)
      requires DistinctPaths(txn.mutations) && journals.Keys <= directories
      modifies this
      ensures !old(AdmitsInstall(txn, approved, active)) ==> unchanged(this)
      ensures !old(AdmitsInstall(txn, approved, active)) && r.Success? ==>
                approved == txn && owner == Some(r.value) && Current(r.value)
                && (r.value.txn == txn || MatchesPlan(r.value, txn))
      ensures approved != txn ==> r == Failure(ApprovalMismatch)
      ensures approved == txn && txn in old(journals) ==>
                (r.Success? <==> old(RepeatsCommitted(txn)))
                && (old(journals)[txn] != Committed ==> r == Failure(NoLongerApplicable))
      ensures approved == txn && txn !in old(journals) && !old(AdmitsInstall(txn, approved, active)) ==>
                && (r.Success? <==> old(owner.Some? && owner == txn.expected && MatchesPlan(owner.value, txn)
                                        && HasAfter(files, owner.value.txn.mutations)))
                && (r.Failure? ==> r.error == if old(owner) != txn.expected then OwnershipChanged
                                              else if old(owner).Some? then NeedsUpdate
                                              else if active then TargetActive else StalePreview)
      ensures old(AdmitsInstall(txn, approved, active)) ==> CommitOutcome(old(Snapshot()), txn, verified, now, r)
    {
      if approved != txn {
        return Failure(ApprovalMismatch);
      }
      var repeated := RepeatedResult(txn);
      if repeated.Some? {
        return repeated.value;
      }
      if owner != txn.expected {
        return Failure(OwnershipChanged);
      }
      if owner.Some? {
        if Current(owner.value) && MatchesPlan(owner.value, txn) {
          return Success(owner.value);
        }
        return Failure(NeedsUpdate);
      }
      if active {
        return Failure(TargetActive);
      }
      if !HasBefore(files, txn.mutations) {
        return Failure(StalePreview);
      }
      r := Commit(txn, verified, now);
    }

    /** Update: a transaction is run only over the exact current owner and its exact file set. */
    method Update(txn: Txn, approved: Txn, active: bool, verified: bool, now: int)
      returns (r: Result<Owner, InstallError>)
      requires DistinctPaths(txn.mutations) && journals.Keys <= directories
      modifies this
      ensures !old(AdmitsUpdate(txn, approved, active)) ==> unchanged(this)
      ensures !old(AdmitsUpdate(txn, approved, active)) && r.Success? ==>
                approved == txn && owner == Some(r.value) && Current(r.value) && r.value.txn == txn
      ensures approved != txn ==> r == Failure(ApprovalMismatch)
      ensures approved == txn && txn in old(journals) ==>
                (r.Success? <==> old(RepeatsCommitted(txn)))
                && (old(journals)[txn] != Committed ==> r == Failure(NoLongerApplicable))
      ensures approved == txn && txn !in old(journals) && !old(AdmitsUpdate(txn, approved, active)) ==>
                r == Failure(if old(owner).None? then NoOwner
                             else if old(owner) != txn.expected then OwnershipChanged
                             else if !old(HasAfter(files, owner.value.txn.mutations)) then TargetDrifted
                             else if !SamePaths(txn.mutations, old(owner).value.txn.mutations) then OwnedSetDiffers
                             else if active then TargetActive else StalePreview)
      ensures old(AdmitsUpdate(txn, approved, active)) ==> CommitOutcome(old(Snapshot()), txn, verified, now, r)
    {
      if approved != txn {
        return Failure(ApprovalMismatch);
      }
      var repeated := RepeatedResult(txn);
      if repeated.Some? {
        return repeated.value;
      }
      if owner.None? {
        return Failure(NoOwner);
      }
      if txn.expected != owner {
        return Failure(OwnershipChanged);
      }
      if !Current(owner.value) {
        return Failure(TargetDrifted);
      }
      if !SamePaths(txn.mutations, owner.value.txn.mutations) {
        return Failure(OwnedSetDiffers);
      }
      if active {
        return Failure(TargetActive);
      }
      if !HasBefore(files, txn.mutations) {
        return Failure(StalePreview);
      }
      r := Commit(txn, verified, now);
    }

    predicate AdmitsRollback(txn: Txn, active: bool)
      reads this
    {
      && txn in journals && journals[txn] == Committed && !active
      && owner.Some? && owner.value.txn == txn && Current(owner.value)
    }

    /** Rollback of one committed transaction: only by its current owner over undrifted files, and
        then every file is back in its prior state and the previous owner is back. */
    method Rollback(txn: Txn, active: bool) returns (r: Result<(), InstallError>)
      requires DistinctPaths(txn.mutations) && journals.Keys <= directories
      modifies this
      ensures !old(AdmitsRollback(txn, active)) ==> unchanged(this)
      ensures !old(AdmitsRollback(txn, active)) ==>
                (r.Success? <==> txn in old(journals) && old(journals)[txn] == RolledBack)
                && (r.Failure? ==> r.error == if txn !in old(journals) then StateUnreadable
                                              else if old(journals)[txn] != Committed then NotCommitted
                                              else if active then TargetActive
                                              else if old(owner).None? || old(owner).value.txn != txn
                                                then OwnershipChanged
                                              else TargetDrifted)
      ensures txn in old(journals) && old(journals)[txn] == Committed && !active
              && (old(owner).None? || old(owner).value.txn != txn) ==>
                r == Failure(OwnershipChanged)
      ensures old(AdmitsRollback(txn, active)) ==>
                && directories == old(directories)
                && Tracked(txn, BaseOf(old(files), txn.mutations))
                && journals == old(journals)[txn := journals[txn]]
                && (r.Success? ==> Undone(txn, BaseOf(old(files), txn.mutations)))
                && (Quiet(old(faults)) ==> r.Success? && Quiet(faults))
    {
      if txn !in journals {
        return Failure(StateUnreadable);
      }
      if journals[txn] == RolledBack {
        return Success(());
      }
      if journals[txn] != Committed {
        return Failure(NotCommitted);
      }
      if active {
        return Failure(TargetActive);
      }
      if owner.None? || owner.value.txn != txn {
        return Failure(OwnershipChanged);
      }
      if !Current(owner.value) {
        return Failure(TargetDrifted);
      }
      ghost var base := BaseOf(files, txn.mutations);
      BaseOfIsBefore(files, txn.mutations);
      var o := RollbackFromJournal(txn, base);
      return if o.Done? then Success(()) else Failure(Fails(o));
    }

    // ---------- Recovery ----------

    /** Contents and modes are looked at separately, as the source does. */
    predicate Recoverable(txn: Txn)
      reads this
    {
      forall m :: m in txn.mutations ==>
        match Get(files, m.path)
        case None => m.before.None?
        case Some(file) =>
          && (file.content == m.after.content || (m.before.Some? && file.content == m.before.value.content))
          && (file.mode == m.after.mode || (m.before.Some? && file.mode == m.before.value.mode))
    }

    /**
     One unfinished transaction: rolled back if that had begun or if nobody can verify it, else driven
     forward and, should that fail, rolled back. Success means that it is done or undone as far as it can
     tell, and only its own files have moved. A superseded one is refused only while its rollback has not
     begun and the files are not its own; else it overwrites the newer owner's files, and driven forward it
     takes the ownership from it.
     */
    method RecoverOne(txn: Txn, verifier: Option<bool>, now: int, ghost base: Files)
      returns (r: Result<(), InstallError>)
      requires txn in journals && !Final(journals[txn]) && DistinctPaths(txn.mutations)
      modifies `files, `owner, `journals, `faults
      ensures txn in journals && journals == old(journals)[txn := journals[txn]]
      ensures SameOutside(files, old(files), txn.mutations)
      ensures owner == old(owner) || owner == txn.expected || owner == Some(Owner(txn, now))
      ensures r.Success? ==> PutBack(txn) || CarriedOut(txn)
      ensures r.Success? && (verifier != Some(true) || old(journals)[txn] == RollingBack) ==> PutBack(txn)
      ensures old(Tracked(txn, base) && Pending(txn, base)) ==>
                && Tracked(txn, base)
                && (r.Success? ==> Undone(txn, base) || Completed(txn, base))
                && (Quiet(old(faults)) ==>
                      r.Success? && Quiet(faults)
                      && (verifier == Some(true) && old(journals)[txn] != RollingBack ==> Completed(txn, base)))
      ensures r == Failure(RecoveryConflict) <==> old(Disturbed(txn))
      ensures r == Failure(RecoveryConflict) ==> unchanged(this)
      ensures old(Stuck(txn, verifier)) ==> StuckOutcome(old(Snapshot()), txn, r)
      ensures old(TakesOver(txn, verifier)) && Quiet(old(faults)) ==>
                r.Success? && CarriedOut(txn) && owner == Some(Owner(txn, now)) && Quiet(faults)
    {
      hide Quiet, Mild, At, Rest, Between, AnyEdited;
      var o;
      MovingNothing(files, txn.mutations);
      RecoverableExactly(txn);
      RestFacts(faults);
      if journals[txn] == RollingBack {
        o := RollbackFromJournal(txn, base);
        MovingOutside(old(files), old(files), files, txn.mutations);
        return if o.Done? then Success(()) else Failure(Fails(o));
      }
      if Between(files, base, txn.mutations) {
        PendingIsRecoverable(txn, base);
      }
      if !Recoverable(txn) {
        return Failure(RecoveryConflict);
      }
      if verifier.None? {
        o := RollbackFromJournal(txn, base);
        MovingOutside(old(files), old(files), files, txn.mutations);
        return if o.Done? then Success(()) else Failure(Fails(o));
      }
      r := DriveForward(txn, verifier.value, now, base);
    }

    /** The guarded sequence again, and its undoing should it fail. */
    method DriveForward(txn: Txn, verified: bool, now: int, ghost base: Files) returns (r: Result<(), InstallError>)
      requires txn in journals && !Final(journals[txn]) && DistinctPaths(txn.mutations)
      modifies `files, `owner, `journals, `faults
      ensures txn in journals && journals == old(journals)[txn := journals[txn]]
      ensures SameOutside(files, old(files), txn.mutations)
      ensures owner == old(owner) || owner == txn.expected || owner == Some(Owner(txn, now))
      ensures r.Success? ==> PutBack(txn) || (verified && CarriedOut(txn))
      ensures r != Failure(RecoveryConflict)
      ensures At(old(faults), 0) == Crash(false) ==>
                files == old(files) && journals == old(journals) && owner == old(owner) && r == Failure(ProcessDied)
      ensures old(Tracked(txn, base) && Pending(txn, base)) ==>
                && Tracked(txn, base)
                && (r.Success? ==> Undone(txn, base) || Completed(txn, base))
                && (Quiet(old(faults)) ==> r.Success? && Quiet(faults) && (verified ==> Completed(txn, base)))
      ensures verified && Quiet(old(faults)) ==>
                r.Success? && CarriedOut(txn) && owner == Some(Owner(txn, now)) && Quiet(faults)
    {
      hide Quiet, Mild, At, Rest, Between, SameOutside, HasBefore, HasAfter, Advancing, Restoring;
      RestFacts(faults);
      var o, rejected, inMemory := ApplyAndPublish(txn, verified, now);
      MovingOutside(old(files), old(files), files, txn.mutations);
      if old(Tracked(txn, base) && Pending(txn, base)) {
        AdvancedIsTracked(txn, base, old(files), old(owner), now);
      }
      if o.Done? && !rejected {
        return Success(());
      }
      if o.Crashed? {
        return Failure(ProcessDied);
      }
      ghost var advanced := files;
      o := RecordAndRollback(txn, inMemory, base);
      MovingOutside(advanced, advanced, files, txn.mutations);
      MovingOutside(old(files), advanced, files, txn.mutations);
      return if o.Done? then Success(()) else Failure(Fails(o));
    }

    /** An unfinished transaction that a later one has superseded, and that is driven forward over it. */
    ghost predicate TakesOver(txn: Txn, verifier: Option<bool>)
      reads this
    {
      && txn in journals && !Final(journals[txn]) && Superseded(txn)
      && journals[txn] != RollingBack && verifier == Some(true) && Recoverable(txn)
    }

    /** An unfinished transaction that a later one has superseded, and that is not driven forward. */
    ghost predicate Stuck(txn: Txn, verifier: Option<bool>)
      reads this
    {
      && txn in journals && !Final(journals[txn]) && Superseded(txn)
      && (journals[txn] == RollingBack || verifier.None? || !Recoverable(txn))
    }

    /** Recovery of a superseded transaction never succeeds; unless it refuses, it puts back its own files. */
    ghost predicate StuckOutcome(before: State, txn: Txn, r: Result<(), InstallError>)
      reads this
      requires txn in before.journals
    {
      && r.Failure? && owner == before.owner && txn in journals
      && Restoring(before.files, files, txn.mutations)
      && (journals[txn] == before.journals[txn] || journals[txn] == RollingBack)
      && (r.error == RecoveryConflict ==> files == before.files && journals == before.journals)
      && (before.journals[txn] == RollingBack && Quiet(before.faults) ==>
            r.error == WriteFailed && journals[txn] == RollingBack && HasBefore(files, txn.mutations) && Quiet(faults))
    }

    /** Unfinished, its rollback not begun, and a planned file edited by somebody else since. */
    ghost predicate Disturbed(txn: Txn)
      reads this
    {
      Unfinished(journals, txn) && journals[txn] != RollingBack && AnyEdited(files, txn.mutations)
    }

    lemma RecoverableExactly(txn: Txn)
      ensures Recoverable(txn) <==> !AnyEdited(files, txn.mutations)
    {
    }

    lemma PendingIsRecoverable(txn: Txn, base: Files)
      requires Between(files, base, txn.mutations)
      ensures Recoverable(txn)
    {
      forall m | m in txn.mutations
        ensures Get(files, m.path) == m.before || Get(files, m.path) == Some(m.after)
      {
        var i :| 0 <= i < |txn.mutations| && txn.mutations[i] == m;
      }
    }

    /**
     Recovery goes through the transaction directories in name order, here `order`. It refuses as a whole
     if one of them has no journal. However far it comes, final journals and unplanned files stay; success
     leaves no unfinished journal, and unfinished transactions that share no file each entirely done or
     undone. The other clauses are for a single unfinished transaction `txn`.
     */
    method Recover(order: seq<Txn>, verifier: Option<bool>, now: int, ghost txn: Txn, ghost base: Files)
      returns (r: Result<(), InstallError>)
      requires Reached(order) == directories
      requires forall i, j :: 0 <= i < j < |order| ==> order[i] != order[j]
      requires forall t :: Unfinished(journals, t) ==> DistinctPaths(t.mutations)
      modifies `files, `owner, `journals, `faults
      ensures !(directories <= old(journals).Keys) ==> r == Failure(StateUnreadable) && unchanged(this)
      ensures Kept(old(Snapshot()), Snapshot(), directories)
      ensures r.Success? ==> AllEnded(old(Snapshot()), Snapshot(), directories)
      ensures directories <= old(journals).Keys && Alone(old(journals), txn) && old(Tracked(txn, base)) ==>
                && Tracked(txn, base) && (r.Success? ==> Final(journals[txn]))
                && (Quiet(old(faults)) ==> r.Success? && Quiet(faults))
      ensures directories <= old(journals).Keys && Alone(old(journals), txn) && txn in directories
              && old(Disturbed(txn)) ==>
                r == Failure(RecoveryConflict) && unchanged(this)
      ensures directories <= old(journals).Keys && Alone(old(journals), txn) && txn in directories
              && old(Stuck(txn, verifier)) ==>
                StuckOutcome(old(Snapshot()), txn, r)
      ensures directories <= old(journals).Keys && Alone(old(journals), txn) && txn in directories
              && old(TakesOver(txn, verifier)) && Quiet(old(faults)) ==>
                r.Success? && CarriedOut(txn) && owner == Some(Owner(txn, now))
    {
      hide Quiet, StuckOutcome, Tracked, Stuck, TakesOver, Kept, AllEnded, Alone, CarriedOut, PutBack, SameOutside;
      hide Disturbed;
      ghost var start := Snapshot();
      KeptAtFirst(start);
      KeptReached(start, start, {}, directories);
      if exists t :: t in order && t !in journals {
        return Failure(StateUnreadable);
      }
      TrackedFacts(txn, base);
      StuckFacts(txn, base, verifier);
      var i := 0;
      assert Reached(order[..0]) == {};
      while i < |order|
        invariant 0 <= i <= |order|
        invariant Kept(start, Snapshot(), Reached(order[..i]))
        invariant AllEnded(start, Snapshot(), Reached(order[..i]))
        invariant Alone(start.journals, txn) && txn !in order[..i] ==> unchanged(this)
        invariant Alone(start.journals, txn) && txn in order[..i] && old(Tracked(txn, base)) ==>
                    && Tracked(txn, base) && txn in journals && Final(journals[txn])
                    && (Quiet(old(faults)) ==> Quiet(faults))
        invariant Alone(start.journals, txn) && old(Stuck(txn, verifier) || Disturbed(txn)) ==> txn !in order[..i]
        invariant Alone(start.journals, txn) && txn in order[..i]
                  && old(TakesOver(txn, verifier)) && Quiet(old(faults)) ==>
                    CarriedOut(txn) && owner == Some(Owner(txn, now))
      {
        ghost var done := Reached(order[..i]);
        ghost var mid := Snapshot();
        assert order[..i + 1] == order[..i] + [order[i]];
        assert Reached(order[..i + 1]) == done + {order[i]};
        KeptFacts(start, mid, done, order[i], txn);
        TrackedFacts(txn, base);
        StuckFacts(txn, base, verifier);
        if !Final(journals[order[i]]) {
          r := RecoverOne(order[i], verifier, now, base);
          KeptMore(start, mid, Snapshot(), done, order[i]);
          if r.Failure? {
            KeptReached(start, Snapshot(), done + {order[i]}, directories);
            return;
          }
          StuckFails(mid, order[i], r);
          EndedFacts(order[i]);
          AllEndedMore(start, mid, Snapshot(), done, order[i]);
        } else {
          KeptReached(start, mid, done, done + {order[i]});
          AllEndedPast(start, mid, done, order[i]);
        }
        i := i + 1;
      }
      assert order[..i] == order;
      return Success(());
    }

    lemma EndedFacts(txn: Txn)
      ensures PutBack(txn) || CarriedOut(txn) ==> Ended(Snapshot(), txn)
    {
    }

    lemma TrackedFacts(txn: Txn, base: Files)
      ensures Tracked(txn, base) ==>
                && txn in journals && DistinctPaths(txn.mutations) && txn in directories
                && (!Final(journals[txn]) ==> Pending(txn, base))
    {
    }

    lemma StuckFacts(txn: Txn, base: Files, verifier: Option<bool>)
      ensures Stuck(txn, verifier) ==> txn in journals && !Final(journals[txn]) && !Tracked(txn, base)
      ensures TakesOver(txn, verifier) || Disturbed(txn) ==> txn in journals && !Final(journals[txn])
    {
    }

    lemma StuckFails(before: State, txn: Txn, r: Result<(), InstallError>)
      requires txn in before.journals
      ensures StuckOutcome(before, txn, r) ==> r.Failure?
    {
    }

    /** The transaction directories, each once. */
    method Listing() returns (order: seq<Txn>)
      ensures Reached(order) == directories
      ensures forall i, j :: 0 <= i < j < |order| ==> order[i] != order[j]
    {
      order := [];
      var rest := directories;
      while rest != {}
        invariant rest <= directories
        invariant forall t :: t in order <==> t in directories && t !in rest
        invariant forall i, j :: 0 <= i < j < |order| ==> order[i] != order[j]
        decreases rest
      {
        var t :| t in rest;
        order := order + [t];
        rest := rest - {t};
      }
    }

    /** Recovery in any order, with at most the one unfinished transaction `txn`. */
    method RecoverSingle(verifier: Option<bool>, now: int, ghost txn: Txn, ghost base: Files)
      returns (r: Result<(), InstallError>)
      requires Alone(journals, txn) && DistinctPaths(txn.mutations)
      modifies `files, `owner, `journals, `faults
      ensures !(directories <= old(journals).Keys) ==> r == Failure(StateUnreadable) && unchanged(this)
      ensures txn in old(journals) ==> txn in journals && journals == old(journals)[txn := journals[txn]]
      ensures SameOutside(files, old(files), txn.mutations)
      ensures directories <= old(journals).Keys && old(Tracked(txn, base)) ==>
                && Tracked(txn, base) && (r.Success? ==> txn in journals && Final(journals[txn]))
                && (Quiet(old(faults)) ==> r.Success? && Quiet(faults))
      ensures directories <= old(journals).Keys && txn in directories && old(Disturbed(txn)) ==>
                r == Failure(RecoveryConflict) && unchanged(this)
      ensures directories <= old(journals).Keys && txn in directories && old(Stuck(txn, verifier)) ==>
                txn in old(journals) && StuckOutcome(old(Snapshot()), txn, r)
      ensures directories <= old(journals).Keys && txn in directories
              && old(TakesOver(txn, verifier)) && Quiet(old(faults)) ==>
                r.Success? && CarriedOut(txn) && owner == Some(Owner(txn, now))
    {
      hide Quiet, Stuck, TakesOver, Disturbed, StuckOutcome, Tracked, Kept, AllEnded, CarriedOut, SameOutside;
      ghost var start := Snapshot();
      StuckFacts(txn, base, verifier);
      TrackedFacts(txn, base);
      var order := Listing();
      r := Recover(order, verifier, now, txn, base);
      KeptAlone(start, Snapshot(), directories, txn);
    }

    /** Crash safety over whole runs: a transaction interrupted anywhere, then any number of recovery
        rounds each interrupted anywhere, then one recovery that is left alone. If the journal was
        never written, nothing has changed; else the transaction is entirely undone or entirely done,
        unless an older directory without a journal has stopped recovery. */
    method InterruptedRun(txn: Txn, verified: bool, now: int, first: seq<Fault>,
                          rounds: seq<(Option<bool>, seq<Fault>)>, lastVerifier: Option<bool>)
      requires Ready(txn)
      requires forall t :: t in journals ==> Final(journals[t])
      modifies this
      ensures txn !in journals ==> files == old(files) && owner == old(owner) && journals == old(journals)
      ensures txn in journals ==>
                && journals == old(journals)[txn := journals[txn]] && Tracked(txn, old(files))
                && (old(directories) == old(journals).Keys ==> Undone(txn, old(files)) || Completed(txn, old(files)))
      ensures old(directories) <= directories <= old(directories) + {txn}
    {
      hide Quiet, Mild, At, Orphans, CutShort, DiesPrepared, EndedMildly, Between;
      ghost var base := files;
      faults := first;
      var r := Commit(txn, verified, now);
      if txn !in journals {
        return;
      }
      RecoverInRounds(rounds, now, txn, base);
      faults := [];
      FinishedFacts(txn, base);
      var recovered := RecoverSingle(lastVerifier, now, txn, base);
      FinishedFacts(txn, base);
    }

    lemma FinishedFacts(txn: Txn, base: Files)
      ensures Quiet([])
      ensures Tracked(txn, base) && Final(journals[txn]) ==> Undone(txn, base) || Completed(txn, base)
    {
    }

    /** A preparation interrupted before its journal: nothing has changed, but from then on every
        recovery and every further attempt at the same plan is refused. */
    method OrphanedRun(txn: Txn, verified: bool, now: int, first: seq<Fault>, verifier: Option<bool>)
      returns (recovered: Result<(), InstallError>, retried: Result<Owner, InstallError>)
      requires Ready(txn) && txn !in directories && Orphans(first, |txn.mutations|)
      requires forall t :: Unfinished(journals, t) ==> DistinctPaths(t.mutations)
      modifies this
      ensures recovered == Failure(StateUnreadable) && retried == Failure(TransactionPathExists)
      ensures files == old(files) && owner == old(owner) && journals == old(journals)
      ensures directories == old(directories) + {txn}
    {
      faults := first;
      var interrupted := Commit(txn, verified, now);
      faults := [];
      ghost var base := files;
      var order := Listing();
      recovered := Recover(order, verifier, now, txn, base);
      retried := Commit(txn, verified, now);
    }

    /**
     A rejected installation dies while it is being undone; another package is then installed over what it
     left; then recovery. It puts the older transaction's files back under the newer owner, fails, and
     stays unfinished. The newer owner keeps its files exactly if the two never disagree on a shared one.
     */
    method SupersededRun(older: Txn, first: seq<Fault>, packageId: string, manifest: string,
                         desired: seq<(string, File)>, verifier: Option<bool>, now: int)
      returns (newer: Txn, installed: Result<Owner, InstallError>, recovered: Result<(), InstallError>)
      requires Ready(older) && older !in directories && owner == None && CutShort(first, older, false)
      requires forall t :: t in journals ==> Final(journals[t])
      requires directories == journals.Keys
      requires forall t :: t in directories + {older} ==> t.manifest != manifest
      requires forall i, j :: 0 <= i < j < |desired| ==> desired[i].0 != desired[j].0
      modifies this
      ensures installed == Success(Owner(newer, now)) && recovered == Failure(WriteFailed)
      ensures owner == Some(Owner(newer, now)) && newer in journals && journals[newer] == Committed
      ensures older in journals && journals[older] == RollingBack && HasBefore(files, older.mutations)
      ensures |newer.mutations| == |desired|
      ensures forall i :: 0 <= i < |desired| ==>
                newer.mutations[i].path == desired[i].0 && newer.mutations[i].after == desired[i].1
      ensures Current(Owner(newer, now)) <==> Agree(older.mutations, newer.mutations)
    {
      hide CutShort, Clear, At, Restoring, Agree, HasBefore, Quiet;
      CutShortRun(older, first, now);
      newer, installed := InstallOver(packageId, manifest, desired, now);
      ghost var left := files;
      assert Stuck(older, verifier);
      assert forall t :: t in journals && t != older ==> Final(journals[t]);
      recovered := RecoverSingle(verifier, now, older, files);
      RestoredKeepsOwner(left, older.mutations, newer.mutations);
    }

    method CutShortRun(older: Txn, first: seq<Fault>, now: int)
      requires Ready(older) && older !in directories && CutShort(first, older, false)
      modifies this
      ensures journals == old(journals)[older := RollingBack] && owner == old(owner)
      ensures directories == old(directories) + {older} && faults == []
    {
      hide CutShort, Clear, At, Between, Quiet, Mild, Orphans;
      faults := first;
      var interrupted := Commit(older, false, now);
      faults := [];
    }

    /** An undisturbed installation of the given files over whatever is there. */
    method InstallOver(packageId: string, manifest: string, desired: seq<(string, File)>, now: int)
      returns (txn: Txn, r: Result<Owner, InstallError>)
      requires owner == None && faults == [] && journals.Keys <= directories
      requires forall t :: t in directories ==> t.manifest != manifest
      requires forall i, j :: 0 <= i < j < |desired| ==> desired[i].0 != desired[j].0
      modifies this
      ensures txn.manifest == manifest && |txn.mutations| == |desired| && DistinctPaths(txn.mutations)
      ensures forall i :: 0 <= i < |desired| ==>
                txn.mutations[i].path == desired[i].0 && txn.mutations[i].after == desired[i].1
      ensures r == Success(Owner(txn, now)) && owner == Some(r.value) && Current(r.value) && Quiet(faults)
      ensures journals == old(journals)[txn := Committed] && directories == old(directories) + {txn}
      ensures SameOutside(files, old(files), txn.mutations)
    {
      hide CutShort, Between, Orphans, Mild;
      txn := Txn(packageId, "", manifest, Preview(desired), owner);
      assert AdmitsInstall(txn, txn, false);
      r := Apply(txn, txn, false, true, now);
    }

    /** The plan of a preview: what is there now, and what is wanted. */
    function Preview(desired: seq<(string, File)>): (ms: seq<Mutation>)
      reads this
      ensures |ms| == |desired| && HasBefore(files, ms)
      ensures forall i :: 0 <= i < |desired| ==> ms[i].path == desired[i].0 && ms[i].after == desired[i].1
    {
      seq(|desired|, i requires 0 <= i < |desired| reads this =>
        Mutation(desired[i].0, Get(files, desired[i].0), desired[i].1))
    }

    /**
     An installation dies prepared; another package is then installed over other files; then recovery
     with a verifier. It drives the older one forward, which takes the ownership record from the newer:
     both packages' files are in place, both journals are committed, and the newer cannot be rolled back.
     */
    method OvertakenRun(older: Txn, verified: bool, first: seq<Fault>, packageId: string, manifest: string,
                        desired: seq<(string, File)>, now: int)
      returns (newer: Txn, installed: Result<Owner, InstallError>, recovered: Result<(), InstallError>,
               undone: Result<(), InstallError>)
      requires Ready(older) && older !in directories && owner == None
      requires DiesPrepared(first, |older.mutations|)
      requires forall t :: t in journals ==> Final(journals[t])
      requires directories == journals.Keys
      requires forall t :: t in directories + {older} ==> t.manifest != manifest
      requires forall i, j :: 0 <= i < j < |desired| ==> desired[i].0 != desired[j].0
      requires forall i, j | 0 <= i < |older.mutations| && 0 <= j < |desired| :: older.mutations[i].path != desired[j].0
      modifies this
      ensures installed == Success(Owner(newer, now)) && recovered.Success?
      ensures owner == Some(Owner(older, now)) && undone == Failure(OwnershipChanged)
      ensures newer in journals && journals[newer] == Committed && older in journals && journals[older] == Committed
      ensures HasAfter(files, older.mutations) && HasAfter(files, newer.mutations) && |newer.mutations| == |desired|
    {
      hide DiesPrepared, HasAfter, HasBefore, SameOutside, Touches, Stuck, StuckOutcome, Tracked, Quiet;
      DiesPreparedRun(older, verified, first, now);
      ghost var base := files;
      newer, installed := InstallOver(packageId, manifest, desired, now);
      assert Recoverable(older) by { UntouchedIsRecoverable(older, base, newer.mutations); }
      assert TakesOver(older, Some(true));
      ghost var left := files;
      recovered := RecoverSingle(Some(true), now, older, files);
      OthersHaveAfter(left, older.mutations, newer.mutations);
      undone := Rollback(newer, false);
    }

    /**
     An edit between crash and recovery survives: an installation dies prepared, somebody gives one of its
     files another content or mode, or takes it away, and recovery refuses without touching anything, with a
     verifier and without.
     */
    method EditedRun(txn: Txn, verified: bool, first: seq<Fault>, m: Mutation, edit: Option<File>,
                     verifier: Option<bool>, now: int)
      returns (recovered: Result<(), InstallError>)
      requires Ready(txn) && txn !in directories && DiesPrepared(first, |txn.mutations|)
      requires forall t :: t in journals ==> Final(journals[t])
      requires directories == journals.Keys
      requires m in txn.mutations && Edited(m, edit)
      modifies this
      ensures recovered == Failure(RecoveryConflict)
      ensures files == Put(old(files), m.path, edit) && Get(files, m.path) == edit && owner == old(owner)
    {
      hide DiesPrepared, Stuck, StuckOutcome, Tracked, Quiet, TakesOver, HasBefore, Edited;
      DiesPreparedRun(txn, verified, first, now);
      files := Put(files, m.path, edit);
      assert Disturbed(txn);
      recovered := RecoverSingle(verifier, now, txn, files);
    }

    method DiesPreparedRun(older: Txn, verified: bool, first: seq<Fault>, now: int)
      requires Ready(older) && older !in directories && DiesPrepared(first, |older.mutations|)
      modifies this
      ensures journals == old(journals)[older := Prepared] && owner == old(owner) && files == old(files)
      ensures directories == old(directories) + {older} && faults == []
    {
      hide DiesPrepared, CutShort, Clear, At, Between, Quiet, Mild, Orphans;
      faults := first;
      var interrupted := Commit(older, verified, now);
      faults := [];
    }

    /** Files that nobody has touched are in their prior state, and so recoverable. */
    lemma UntouchedIsRecoverable(txn: Txn, base: Files, others: seq<Mutation>)
      requires HasBefore(base, txn.mutations) && SameOutside(files, base, others)
      requires forall i, j | 0 <= i < |txn.mutations| && 0 <= j < |others| :: txn.mutations[i].path != others[j].path
      ensures Recoverable(txn)
    {
      forall m | m in txn.mutations ensures Get(files, m.path) == m.before {
        var i :| 0 <= i < |txn.mutations| && txn.mutations[i] == m;
        assert !Touches(others, m.path);
        assert Get(files, m.path) == Get(base, m.path);
      }
    }

    lemma OthersHaveAfter(left: Files, moved: seq<Mutation>, others: seq<Mutation>)
      requires HasAfter(left, others) && SameOutside(files, left, moved)
      requires forall i, j | 0 <= i < |moved| && 0 <= j < |others| :: moved[i].path != others[j].path
      ensures HasAfter(files, others)
    {
      forall j | 0 <= j < |others| ensures Get(files, others[j].path) == Some(others[j].after) {
        assert !Touches(moved, others[j].path);
      }
    }

    lemma RestoredKeepsOwner(left: Files, older: seq<Mutation>, newer: seq<Mutation>)
      requires HasAfter(left, newer) && Restoring(left, files, older) && HasBefore(files, older)
      ensures HasAfter(files, newer) <==> Agree(older, newer)
    {
      forall i | 0 <= i < |newer|
        ensures !Touches(older, newer[i].path) ==> Get(files, newer[i].path) == Some(newer[i].after)
      {
        assert !Touches(older, newer[i].path) ==> Get(files, newer[i].path) == Get(left, newer[i].path);
      }
      if Agree(older, newer) {
        forall i | 0 <= i < |newer| ensures Get(files, newer[i].path) == Some(newer[i].after) {
          if Touches(older, newer[i].path) {
            var j :| 0 <= j < |older| && older[j].path == newer[i].path;
          }
        }
      }
    }

    /** Recovery rounds, each with its own verifier and faults. */
    method RecoverInRounds(rounds: seq<(Option<bool>, seq<Fault>)>, now: int, ghost txn: Txn, ghost base: Files)
      requires Tracked(txn, base) && forall t :: t in journals && t != txn ==> Final(journals[t])
      modifies `files, `owner, `journals, `faults
      ensures Tracked(txn, base) && journals == old(journals)[txn := journals[txn]]
    {
      var i := 0;
      while i < |rounds|
        invariant Tracked(txn, base) && journals == old(journals)[txn := journals[txn]]
      {
        faults := rounds[i].1;
        TrackedFacts(txn, base);
        var recovered := RecoverSingle(rounds[i].0, now, txn, base);
        i := i + 1;
      }
    }
  }
}
