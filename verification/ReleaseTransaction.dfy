/**
 The multi-file replacement of the release projections: staging, replacement with the version file
 last, drift check, and rollback in reverse order. Follows scripts/release.py.

 Every read, staging, replacement and restoration is a point at which the run can go wrong: the
 operation fails, or it happens but an interrupt follows before the source has noted it, or a
 replacement reports success over other bytes.
 */
module ReleaseTransaction {
  import opened Wrappers

  const VERSION_PATH: string := "release/version.toml"

  datatype File = File(content: string, mode: nat)

  type Files = map<string, File>

  datatype Projection = Projection(path: string, content: string)

  datatype Fault = Works | Fails | Interrupted | Lies(content: string)

  datatype ReleaseError = CannotRead(path: string) | RolledBack | RollbackFailed

  /** One replacement that took effect. */
  datatype Write = Write(path: string, file: File)

  /** What happens at the `i`th point from here; everything works once the list is used up. */
  function At(faults: seq<Fault>, i: nat): Fault {
    if i < |faults| then faults[i] else Works
  }

  function Rest(faults: seq<Fault>, n: nat): seq<Fault> {
    if n <= |faults| then faults[n..] else []
  }

  predicate AllWork(faults: seq<Fault>) {
    forall f :: f in faults ==> f == Works
  }

  /** The run goes on; a replacement that lies does not show before the drift check. */
  predicate Passes(f: Fault) {
    f.Works? || f.Lies?
  }

  predicate ReadsWork(faults: seq<Fault>, readings: nat) {
    forall i | 0 <= i < readings :: At(faults, i) == Works
  }

  /** Each changed file is read once more, and its temporary is made. */
  predicate StagesWork(faults: seq<Fault>, changes: nat) {
    forall j | 0 <= j < changes :: At(faults, 2 * j) == Works && Passes(At(faults, 2 * j + 1))
  }

  /** An interrupt falls between the `k`th replacement and its note. */
  predicate HidesAt(faults: seq<Fault>, k: nat) {
    At(faults, k) == Interrupted && forall j | 0 <= j < k :: Passes(At(faults, j))
  }

  /** An interrupt falls between the making of the `j`th temporary and its note. */
  predicate LeaksAt(faults: seq<Fault>, j: nat) {
    StagesWork(faults, j) && At(faults, 2 * j) == Works && At(faults, 2 * j + 1) == Interrupted
  }

  predicate Hides(faults: seq<Fault>, changes: nat) {
    exists k | 0 <= k < changes :: HidesAt(faults, k)
  }

  predicate Leaks(faults: seq<Fault>, changes: nat) {
    exists j | 0 <= j < changes :: LeaksAt(faults, j)
  }

  /** The faults as the replacements meet them, after the reads and the staging. */
  function AtReplacing(faults: seq<Fault>, readings: nat, changes: nat): seq<Fault> {
    Rest(Rest(faults, readings), 2 * changes)
  }

  /** An interrupt hides a replacement: a condition on the faults and the numbers of files alone. */
  predicate HidesReplacement(faults: seq<Fault>, readings: nat, changes: nat) {
    && ReadsWork(faults, readings) && StagesWork(Rest(faults, readings), changes)
    && Hides(AtReplacing(faults, readings, changes), changes)
  }

  predicate HidesTemporary(faults: seq<Fault>, readings: nat, changes: nat) {
    ReadsWork(faults, readings) && Leaks(Rest(faults, readings), changes)
  }

  /** The replacement that an interrupt hides is the version file's own. */
  predicate HidesVersion(faults: seq<Fault>, readings: nat, changed: seq<Projection>) {
    && HidesReplacement(faults, readings, |changed|)
    && exists k | 0 <= k < |VersionLast(changed)| ::
         HidesAt(AtReplacing(faults, readings, |changed|), k) && VersionLast(changed)[k].path == VERSION_PATH
  }

  lemma NoInterruptHidesNothing(faults: seq<Fault>, readings: nat, changes: nat)
    requires Interrupted !in faults
    ensures !HidesReplacement(faults, readings, changes) && !HidesTemporary(faults, readings, changes)
  {
    forall n: nat, i: nat ensures At(Rest(faults, n), i) != Interrupted {
    }
    forall n: nat, i: nat ensures At(Rest(Rest(faults, readings), n), i) != Interrupted {
    }
  }

  lemma StagesMore(faults: seq<Fault>, i: nat)
    ensures StagesWork(faults, 0)
    ensures StagesWork(faults, i + 1)
            <==> StagesWork(faults, i) && At(faults, 2 * i) == Works && Passes(At(faults, 2 * i + 1))
  {
  }

  lemma StagesFewer(faults: seq<Fault>, i: nat, j: nat)
    ensures i <= j && StagesWork(faults, j) ==> StagesWork(faults, i)
  {
  }

  /** The first stage that does not work decides whether a temporary leaks. */
  lemma StageDecided(faults: seq<Fault>, i: nat, changes: nat)
    requires i < changes && StagesWork(faults, i) && !StagesWork(faults, i + 1)
    ensures !StagesWork(faults, changes)
    ensures Leaks(faults, changes) <==> At(faults, 2 * i) == Works && At(faults, 2 * i + 1) == Interrupted
  {
    assert LeaksAt(faults, i) <==> At(faults, 2 * i) == Works && At(faults, 2 * i + 1) == Interrupted;
    forall j | 0 <= j < changes && LeaksAt(faults, j) ensures j == i {
      StagesFewer(faults, i + 1, j);
    }
  }

  lemma NoLeak(faults: seq<Fault>, changes: nat)
    ensures StagesWork(faults, changes) ==> !Leaks(faults, changes)
  {
  }

  /** The first replacement that does not pass decides whether one is hidden. */
  lemma ReplacementDecided(faults: seq<Fault>, i: nat, changes: nat)
    requires i < changes && (forall j | 0 <= j < i :: Passes(At(faults, j))) && !Passes(At(faults, i))
    ensures Hides(faults, changes) <==> HidesAt(faults, i)
  {
  }

  lemma NothingHidden(faults: seq<Fault>, changes: nat)
    requires forall j | 0 <= j < changes :: Passes(At(faults, j))
    ensures !Hides(faults, changes)
  {
  }

  lemma AllWorkAt(faults: seq<Fault>, i: nat)
    ensures AllWork(faults) ==> At(faults, i) == Works
  {
    if i < |faults| {
      assert faults[i] in faults;
    }
  }

  lemma AllWorkRest(faults: seq<Fault>, n: nat)
    ensures AllWork(faults) ==> AllWork(Rest(faults, n))
  {
    forall f | f in Rest(faults, n) ensures f in faults {
    }
  }

  lemma AllWorkIsHonest(faults: seq<Fault>)
    ensures AllWork(faults) ==> Honest(faults)
  {
  }

  lemma AllWorkPasses(faults: seq<Fault>, n: nat)
    ensures AllWork(faults) ==>
              ReadsWork(faults, n) && StagesWork(faults, n) && forall i | 0 <= i < n :: Passes(At(faults, i))
  {
    forall i: nat ensures AllWork(faults) ==> At(faults, i) == Works {
      AllWorkAt(faults, i);
    }
  }

  lemma OneHidden(faults: seq<Fault>, j: nat, k: nat)
    requires HidesAt(faults, j) && HidesAt(faults, k)
    ensures j == k
  {
  }

  lemma RestMore(faults: seq<Fault>, n: nat)
    ensures Rest(Rest(faults, n), 1) == Rest(faults, n + 1)
    ensures At(Rest(faults, n), 0) == At(faults, n)
    ensures forall f :: f in Rest(faults, n + 1) ==> f in faults
  {
  }

  lemma RestAtReplacing(faults: seq<Fault>, readings: nat, changes: nat, n: nat)
    ensures Rest(AtReplacing(faults, readings, changes), n) == Rest(faults, readings + 2 * changes + n)
  {
  }

  lemma RestTwoMore(faults: seq<Fault>, n: nat)
    ensures Rest(Rest(faults, n), 2) == Rest(faults, n + 2)
    ensures At(Rest(faults, n), 0) == At(faults, n) && At(Rest(faults, n), 1) == At(faults, n + 1)
  {
  }

  /** At most one thing goes wrong. */
  predicate OneFault(faults: seq<Fault>) {
    forall i, j | 0 <= i < j < |faults| :: faults[i] == Works || faults[j] == Works
  }

  lemma OneFaultRest(faults: seq<Fault>, n: nat)
    ensures OneFault(faults) ==> OneFault(Rest(faults, n))
    ensures OneFault(faults) && n > 0 && At(faults, n - 1) != Works ==> AllWork(Rest(faults, n))
  {
    if n > 0 && OneFault(faults) && At(faults, n - 1) != Works {
      forall f | f in Rest(faults, n) ensures f == Works {
        var j :| n <= j < |faults| && faults[j] == f;
      }
    }
  }

  lemma HonestRest(faults: seq<Fault>, n: nat)
    ensures Honest(faults) ==> Honest(Rest(faults, n))
  {
    forall f | f in Rest(faults, n) ensures f in faults {
    }
  }

  lemma RestNone(faults: seq<Fault>)
    ensures Rest(faults, 0) == faults
  {
  }

  ghost predicate Distinct(ps: seq<Projection>) {
    forall i, j :: 0 <= i < j < |ps| ==> ps[i].path != ps[j].path
  }

  /** Every projection is on disk with its expected bytes. */
  predicate Matches(files: Files, expected: seq<Projection>) {
    forall p :: p in expected ==> p.path in files && files[p.path].content == p.content
  }

  predicate AllPresent(files: Files, expected: seq<Projection>) {
    forall p :: p in expected ==> p.path in files
  }

  /** The projections that differ, in the order given. */
  function Changed(files: Files, expected: seq<Projection>): (c: seq<Projection>)
    requires AllPresent(files, expected)
    ensures forall p :: p in c <==> p in expected && files[p.path].content != p.content
  {
    if expected == [] then []
    else
      var last := expected[|expected| - 1];
      Changed(files, expected[..|expected| - 1])
      + (if files[last.path].content != last.content then [last] else [])
  }

  function Only(changed: seq<Projection>, version: bool): (c: seq<Projection>)
    ensures forall p :: p in c <==> p in changed && (p.path == VERSION_PATH) == version
  {
    if changed == [] then []
    else (if (changed[0].path == VERSION_PATH) == version then [changed[0]] else []) + Only(changed[1..], version)
  }

  lemma {:induction false} OnlyLengths(changed: seq<Projection>)
    ensures |Only(changed, false)| + |Only(changed, true)| == |changed|
  {
    if changed != [] {
      OnlyLengths(changed[1..]);
    }
  }

  /** `sorted(changed, key=item == VERSION_PATH)`: stable, the version file last. */
  function VersionLast(changed: seq<Projection>): (order: seq<Projection>)
    ensures forall p :: p in order <==> p in changed
  {
    Only(changed, false) + Only(changed, true)
  }

  function Overwrite(files: Files, ws: seq<Write>): Files {
    if ws == [] then files
    else Overwrite(files, ws[..|ws| - 1])[ws[|ws| - 1].path := ws[|ws| - 1].file]
  }

  // ---------- Laws of the order and of the writes ----------

  lemma {:induction false} ChangedIsDistinct(files: Files, expected: seq<Projection>)
    requires Distinct(expected) && AllPresent(files, expected)
    ensures Distinct(Changed(files, expected))
  {
    if expected != [] {
      var init := expected[..|expected| - 1];
      ChangedIsDistinct(files, init);
      forall p | p in Changed(files, init) ensures p.path != expected[|expected| - 1].path {
        assert p in init;
      }
    }
  }

  lemma {:induction false} OnlyIsDistinct(changed: seq<Projection>, version: bool)
    requires Distinct(changed)
    ensures Distinct(Only(changed, version))
  {
    if changed != [] {
      OnlyIsDistinct(changed[1..], version);
      forall p | p in Only(changed[1..], version) ensures p.path != changed[0].path {
        assert p in changed[1..];
      }
    }
  }

  /** The order is distinct and the version file, if it changes, is its last element. */
  lemma VersionComesLast(changed: seq<Projection>)
    requires Distinct(changed)
    ensures Distinct(VersionLast(changed))
    ensures var order := VersionLast(changed);
            |order| == |changed|
            && forall i :: 0 <= i < |order| && order[i].path == VERSION_PATH ==> i == |order| - 1
  {
    OnlyLengths(changed);
    OnlyIsDistinct(changed, false);
    OnlyIsDistinct(changed, true);
    var others, versions := Only(changed, false), Only(changed, true);
    assert forall i :: 0 <= i < |versions| ==> versions[i] in versions;
    assert forall i :: 0 <= i < |others| ==> others[i] in others;
    OneVersion(versions);
  }

  lemma OneVersion(versions: seq<Projection>)
    requires Distinct(versions) && forall p :: p in versions ==> p.path == VERSION_PATH
    ensures |versions| <= 1
  {
    assert |versions| < 2 || versions[0].path == versions[1].path;
  }

  lemma AddedValue(m: map<string, nat>, path: string, n: nat)
    requires path !in m
    ensures m[path := n].Values == m.Values + {n}
  {
    var more := m[path := n];
    assert more[path] == n;
    forall v ensures v in more.Values <==> v in m.Values || v == n {
      if v in m.Values {
        var k :| k in m && m[k] == v;
        assert more[k] == v;
      }
    }
  }

  ghost predicate DistinctWrites(ws: seq<Write>) {
    forall i, j :: 0 <= i < j < |ws| ==> ws[i].path != ws[j].path
  }

  lemma {:induction false} OverwriteAt(files: Files, ws: seq<Write>, path: string)
    requires DistinctWrites(ws)
    ensures (forall i :: 0 <= i < |ws| ==> ws[i].path != path) ==>
              (path in Overwrite(files, ws) <==> path in files)
              && (path in files ==> Overwrite(files, ws)[path] == files[path])
    ensures forall i :: 0 <= i < |ws| && ws[i].path == path ==>
              path in Overwrite(files, ws) && Overwrite(files, ws)[path] == ws[i].file
  {
    if ws != [] {
      OverwriteAt(files, ws[..|ws| - 1], path);
    }
  }

  lemma OverwriteMore(files: Files, ws: seq<Write>, w: Write)
    ensures Overwrite(files, ws + [w]) == Overwrite(files, ws)[w.path := w.file]
  {
    assert (ws + [w])[..|ws|] == ws;
  }

  /** Restoring the last recorded write undoes exactly it. */
  lemma RestoreLast(files: Files, ws: seq<Write>, stray: seq<Write>)
    requires ws != [] && |stray| <= 1 && DistinctWrites(ws + stray)
    requires ws[|ws| - 1].path in files
    ensures var last := ws[|ws| - 1].path;
            Overwrite(files, ws + stray)[last := files[last]] == Overwrite(files, ws[..|ws| - 1] + stray)
  {
    hide Overwrite;
    var init, w := ws[..|ws| - 1], ws[|ws| - 1];
    assert ws == init + [w];
    assert DistinctWrites(init) && forall i :: 0 <= i < |init| ==> init[i].path != w.path by {
      assert forall i :: 0 <= i < |ws| ==> (ws + stray)[i] == ws[i];
    }
    var inner := Overwrite(files, init);
    OverwriteAt(files, init, w.path);
    OverwriteMore(files, init, w);
    if stray == [] {
      assert ws + stray == ws && init + stray == init;
      assert inner[w.path := w.file][w.path := files[w.path]] == inner;
    } else {
      var s := stray[0];
      assert stray == [s] && (ws + stray)[|ws|] == s && (ws + stray)[|init|] == w;
      OverwriteMore(files, ws, s);
      OverwriteMore(files, init, s);
      assert inner[w.path := w.file][s.path := s.file][w.path := files[w.path]] == inner[s.path := s.file];
    }
  }

  /** The states a run passes through: some of the recorded writes, with or without a stray one. */
  ghost predicate Visited(st: Files, files: Files, ws: seq<Write>, stray: seq<Write>) {
    exists n :: 0 <= n <= |ws| && (st == Overwrite(files, ws[..n]) || st == Overwrite(files, ws[..n] + stray))
  }

  lemma VisitedMore(files: Files, ws: seq<Write>, stray: seq<Write>, more: seq<Write>)
    ensures forall st :: Visited(st, files, ws, []) ==> Visited(st, files, ws + more, stray)
  {
    forall st | Visited(st, files, ws, []) ensures Visited(st, files, ws + more, stray) {
      var n :| 0 <= n <= |ws| && (st == Overwrite(files, ws[..n]) || st == Overwrite(files, ws[..n] + []));
      assert ws[..n] + [] == ws[..n] == (ws + more)[..n];
    }
  }

  /** Each write replaces the file of the planned path, keeping its mode; unless some replacement
      lied, with the planned content. */
  ghost predicate Faithful(ws: seq<Write>, order: seq<Projection>, files: Files, honest: bool) {
    && |ws| <= |order|
    && forall i :: 0 <= i < |ws| ==>
         && ws[i].path == order[i].path && ws[i].path in files
         && ws[i].file.mode == files[ws[i].path].mode
         && (honest ==> ws[i].file.content == order[i].content)
  }

  ghost predicate Honest(faults: seq<Fault>) {
    forall f :: f in faults ==> !f.Lies?
  }

  lemma FaithfulIsDistinct(ws: seq<Write>, order: seq<Projection>, files: Files, honest: bool)
    requires Faithful(ws, order, files, honest) && Distinct(order)
    ensures DistinctWrites(ws)
  {
    assert forall i :: 0 <= i < |ws| ==> ws[i].path == order[i].path;
  }

  lemma FaithfulNone(order: seq<Projection>, files: Files, honest: bool)
    ensures Faithful([], order, files, honest)
  {
  }

  lemma OverwriteNone(files: Files)
    ensures Overwrite(files, []) == files
  {
  }

  lemma FaithfulOne(w: Write, p: Projection, files: Files, honest: bool)
    requires w.path == p.path && w.path in files && w.file.mode == files[w.path].mode
    requires honest ==> w.file.content == p.content
    ensures Faithful([w], [p], files, honest)
  {
  }

  /** The history has grown by visited states only. */
  ghost predicate Passed(before: seq<Files>, now: seq<Files>, files: Files, ws: seq<Write>, stray: seq<Write>) {
    before <= now && forall st :: st in now[|before|..] ==> Visited(st, files, ws, stray)
  }

  lemma PassedNone(history: seq<Files>, files: Files)
    ensures Passed(history, history, files, [], [])
  {
  }

  lemma OrderFacts(files: Files, expected: seq<Projection>)
    requires AllPresent(files, expected)
    ensures forall p :: p in VersionLast(Changed(files, expected)) ==>
              p in Changed(files, expected) && p.path in files
  {
  }

  lemma WritesKeepPresence(files: Files, ws: seq<Write>, expected: seq<Projection>)
    requires AllPresent(files, expected)
    ensures AllPresent(Overwrite(files, ws), expected)
  {
    OverwriteKeepsPresence(files, ws);
  }

  lemma WritesAreOriginal(ws: seq<Write>, stray: seq<Write>, order: seq<Projection>, files: Files, honest: bool)
    requires Faithful(ws + stray, order, files, honest)
    ensures forall i :: 0 <= i < |ws| ==> i < |order| && ws[i].path == order[i].path && ws[i].path in files
  {
    assert forall i :: 0 <= i < |ws| ==> (ws + stray)[i] == ws[i];
  }

  lemma FaithfulWeaker(ws: seq<Write>, order: seq<Projection>, files: Files, honest: bool, more: bool)
    requires Faithful(ws, order, files, honest) && (more ==> honest)
    ensures Faithful(ws, order, files, more)
  {
  }

  lemma PresentNone(files: Files)
    ensures AllPresent(files, []) && Changed(files, []) == []
  {
  }

  lemma PresentMore(files: Files, init: seq<Projection>, p: Projection)
    requires AllPresent(files, init) && p.path in files
    ensures AllPresent(files, init + [p])
    ensures Changed(files, init + [p]) ==
            Changed(files, init) + (if files[p.path].content != p.content then [p] else [])
  {
    assert (init + [p])[..|init|] == init;
  }

  lemma AbsentSomewhere(files: Files, expected: seq<Projection>, i: nat)
    requires i < |expected|
    ensures expected[i].path !in files ==> !AllPresent(files, expected)
  {
  }

  lemma ChangedIsPresent(files: Files, expected: seq<Projection>)
    requires AllPresent(files, expected)
    ensures forall p :: p in Changed(files, expected) ==> p.path in files
  {
  }

  lemma NoOrder(files: Files, honest: bool)
    ensures VersionLast([]) == [] && Faithful([], VersionLast([]), files, honest)
  {
  }

  lemma PassedMore(start: seq<Files>, before: seq<Files>, files: Files, ws: seq<Write>, more: seq<Write>,
                   stray: seq<Write>, now: Files)
    requires Passed(start, before, files, ws, []) && Visited(now, files, ws + more, stray)
    ensures Passed(start, before + [now], files, ws + more, stray)
  {
    hide Visited;
    VisitedMore(files, ws, stray, more);
    assert (before + [now])[|start|..] == before[|start|..] + [now];
  }

  lemma PassedAlso(start: seq<Files>, before: seq<Files>, files: Files, ws: seq<Write>, stray: seq<Write>, now: Files)
    requires Passed(start, before, files, ws, stray) && Visited(now, files, ws, stray)
    ensures Passed(start, before + [now], files, ws, stray)
  {
    assert (before + [now])[|start|..] == before[|start|..] + [now];
  }

  lemma VisitedAt(files: Files, ws: seq<Write>, stray: seq<Write>, n: nat)
    requires n <= |ws|
    ensures Visited(Overwrite(files, ws[..n] + stray), files, ws, stray)
  {
  }

  lemma HeadIsDistinct(ws: seq<Write>, stray: seq<Write>, n: nat)
    requires n <= |ws| && DistinctWrites(ws + stray)
    ensures DistinctWrites(ws[..n] + stray)
  {
    var whole, less := ws + stray, ws[..n] + stray;
    assert forall i :: 0 <= i < |less| ==> less[i] == whole[if i < n then i else i - n + |ws|];
  }

  lemma FaithfulMore(ws: seq<Write>, w: Write, order: seq<Projection>, files: Files, honest: bool)
    requires Faithful(ws, order, files, honest) && |ws| < |order|
    requires Faithful([w], [order[|ws|]], files, honest)
    ensures Faithful(ws + [w], order, files, honest)
  {
    assert [w][0] == w;
  }

  lemma VisitedNow(files: Files, ws: seq<Write>, stray: seq<Write>)
    ensures Visited(Overwrite(files, ws + stray), files, ws, stray)
  {
    assert ws[..|ws|] == ws;
  }

  /** The version file bears its new content only while every other changed file does. */
  predicate VersionSafe(st: Files, changed: seq<Projection>) {
    (exists v :: v in changed && v.path == VERSION_PATH && Bears(st, v)) ==>
      forall p :: p in changed ==> Bears(st, p)
  }

  predicate Bears(st: Files, p: Projection) {
    p.path in st && st[p.path].content == p.content
  }

  /** Nothing differs exactly when every projection matches; so a second apply has nothing to do. */
  lemma NothingChangedIffMatches(files: Files, expected: seq<Projection>)
    requires AllPresent(files, expected)
    ensures Changed(files, expected) == [] <==> Matches(files, expected)
  {
    if Changed(files, expected) != [] {
      assert Changed(files, expected)[0] in Changed(files, expected);
    }
  }

  /** All planned writes, with the planned contents, make every projection match. */
  lemma AllWrittenMatches(files: Files, expected: seq<Projection>, ws: seq<Write>)
    requires Distinct(expected) && AllPresent(files, expected)
    requires var order := VersionLast(Changed(files, expected));
             |ws| == |order| && Faithful(ws, order, files, true)
    ensures AllPresent(Overwrite(files, ws), expected) && Matches(Overwrite(files, ws), expected)
  {
    var order := VersionLast(Changed(files, expected));
    ChangedIsDistinct(files, expected);
    VersionComesLast(Changed(files, expected));
    FaithfulIsDistinct(ws, order, files, true);
    forall p | p in expected
      ensures Bears(Overwrite(files, ws), p)
    {
      OverwriteAt(files, ws, p.path);
      if p in order {
        var i :| 0 <= i < |order| && order[i] == p;
        assert ws[i].path == p.path;
      } else {
        forall i | 0 <= i < |ws| ensures ws[i].path != p.path {
          assert order[i] in order;
          SamePathSameProjection(expected, order[i], p);
        }
      }
    }
  }

  lemma SamePathSameProjection(expected: seq<Projection>, a: Projection, b: Projection)
    requires Distinct(expected) && a in expected && b in expected
    ensures a.path == b.path ==> a == b
  {
  }

  lemma OverwriteKeepsPresence(files: Files, ws: seq<Write>)
    ensures forall path :: path in files ==> path in Overwrite(files, ws)
  {
    if ws != [] {
      OverwriteKeepsPresence(files, ws[..|ws| - 1]);
    }
  }

  /** In every state of a run, finished or not, rolled back or not, the version file bears the new
      version only while every other changed file bears its new content, as long as no replacement
      lied and no interrupt hid the replacement of the version file itself. */
  lemma VersionIsLastInEveryState(files: Files, changed: seq<Projection>, ws: seq<Write>, stray: seq<Write>, st: Files)
    requires Distinct(changed) && |stray| <= 1
    requires forall p :: p in changed ==> p.path in files && files[p.path].content != p.content
    requires Faithful(ws + stray, VersionLast(changed), files, true)
    requires stray != [] ==> stray[0].path != VERSION_PATH
    requires Visited(st, files, ws, stray)
    ensures VersionSafe(st, changed)
  {
    hide Overwrite, VersionLast;
    var order := VersionLast(changed);
    VersionComesLast(changed);
    FaithfulIsDistinct(ws + stray, order, files, true);
    if v :| v in changed && v.path == VERSION_PATH && Bears(st, v) {
      var n :| 0 <= n <= |ws| && (st == Overwrite(files, ws[..n]) || st == Overwrite(files, ws[..n] + stray));
      var done := if st == Overwrite(files, ws[..n]) then ws[..n] else ws[..n] + stray;
      DoneIsDistinct(ws, stray, n);
      VersionWritten(files, done, v);
      var i :| 0 <= i < |done| && done[i].path == VERSION_PATH;
      assert i < n;
      assert (ws + stray)[i] == done[i];
      assert order[i].path == VERSION_PATH && i == |order| - 1;
      assert n == |ws| == |order| && stray == [];
      assert done == ws && ws + stray == ws;
      AllBear(files, changed, ws);
    }
  }

  /** The same for everything a run has passed through. */
  lemma PassedIsSafe(start: seq<Files>, now: seq<Files>, files: Files, changed: seq<Projection>,
                     ws: seq<Write>, stray: seq<Write>)
    requires Distinct(changed) && |stray| <= 1
    requires forall p :: p in changed ==> p.path in files && files[p.path].content != p.content
    requires Faithful(ws + stray, VersionLast(changed), files, true)
    requires stray != [] ==> stray[0].path != VERSION_PATH
    requires Passed(start, now, files, ws, stray)
    ensures forall st :: st in now[|start|..] ==> VersionSafe(st, changed)
  {
    forall st | st in now[|start|..] ensures VersionSafe(st, changed) {
      VersionIsLastInEveryState(files, changed, ws, stray, st);
    }
  }

  lemma VersionWritten(files: Files, done: seq<Write>, v: Projection)
    requires DistinctWrites(done) && v.path in files && files[v.path].content != v.content
    requires Bears(Overwrite(files, done), v)
    ensures exists i :: 0 <= i < |done| && done[i].path == v.path
  {
    OverwriteAt(files, done, v.path);
  }

  lemma AllBear(files: Files, changed: seq<Projection>, ws: seq<Write>)
    requires DistinctWrites(ws)
    requires |ws| == |VersionLast(changed)| && Faithful(ws, VersionLast(changed), files, true)
    ensures forall p :: p in changed ==> Bears(Overwrite(files, ws), p)
  {
    hide Overwrite;
    var order := VersionLast(changed);
    forall p | p in changed ensures Bears(Overwrite(files, ws), p) {
      OverwriteAt(files, ws, p.path);
      var j :| 0 <= j < |order| && order[j] == p;
      assert ws[j].path == p.path;
    }
  }

  lemma DoneIsDistinct(ws: seq<Write>, stray: seq<Write>, n: nat)
    requires n <= |ws| && DistinctWrites(ws + stray)
    ensures DistinctWrites(ws[..n]) && DistinctWrites(ws[..n] + stray)
  {
    HeadIsDistinct(ws, stray, n);
    assert forall i :: 0 <= i < n ==> (ws[..n] + stray)[i] == ws[..n][i];
  }

  /** The condition is needed: when an interrupt hides the replacement of the version file, a finished
      rollback leaves the new version beside old files. */
  lemma HiddenVersionReplacementIsUnsafe(files: Files, changed: seq<Projection>, stray: Write)
    requires Distinct(changed)
    requires forall p :: p in changed ==> p.path in files && files[p.path].content != p.content
    requires exists v ::
               v in changed && v.path == VERSION_PATH && stray == Write(v.path, File(v.content, files[v.path].mode))
    requires exists p :: p in changed && p.path != VERSION_PATH
    ensures !VersionSafe(Overwrite(files, [stray]), changed)
  {
    var st := Overwrite(files, [stray]);
    OverwriteNone(files);
    OverwriteMore(files, [], stray);
    assert [] + [stray] == [stray];
    assert st == files[stray.path := stray.file];
    var v :| v in changed && v.path == VERSION_PATH && stray == Write(v.path, File(v.content, files[v.path].mode));
    var p :| p in changed && p.path != VERSION_PATH;
    assert Bears(st, v) && !Bears(st, p);
  }

  // ---------- The transaction ----------

  /** What a run has done to the files: the writes noted, and one that an interrupt hid. */
  datatype Run = Run(ws: seq<Write>, stray: seq<Write>, leaked: set<nat>)

  /** The hidden write is the next in the order, with its new content and the old mode. */
  ghost predicate IsHidden(faults: seq<Fault>, order: seq<Projection>, files: Files, run: Run) {
    && |run.ws| < |order| && HidesAt(faults, |run.ws|)
    && order[|run.ws|].path in files
    && run.stray == [Write(order[|run.ws|].path, File(order[|run.ws|].content, files[order[|run.ws|].path].mode))]
  }

  lemma VersionIsHidden(faults: seq<Fault>, readings: nat, changed: seq<Projection>)
    ensures HidesVersion(faults, readings, changed) ==> HidesReplacement(faults, readings, |changed|)
  {
  }

  /**
   What an interrupt leaves when it hides a replacement and the others are taken back: never the old
   files, and the version file ahead of the others exactly if it was the one and there are others.
   */
  lemma HiddenFacts(files: Files, changed: seq<Projection>, faults: seq<Fault>, readings: nat, run: Run)
    requires Distinct(changed)
    requires forall p :: p in changed ==> p.path in files && files[p.path].content != p.content
    requires HidesReplacement(faults, readings, |changed|)
    requires IsHidden(AtReplacing(faults, readings, |changed|), VersionLast(changed), files, run)
    ensures Overwrite(files, run.stray) != files
    ensures run.stray[0].path == VERSION_PATH <==> HidesVersion(faults, readings, changed)
    ensures HidesVersion(faults, readings, changed) ==>
              && |run.ws| + 1 == |changed|
              && (VersionSafe(Overwrite(files, run.stray), changed) <==> |changed| == 1)
  {
    var order := VersionLast(changed);
    var k := |run.ws|;
    var st := Overwrite(files, run.stray);
    VersionComesLast(changed);
    OverwriteNone(files);
    OverwriteMore(files, [], run.stray[0]);
    assert [] + run.stray == run.stray;
    assert order[k] in changed;
    if HidesVersion(faults, readings, changed) {
      var v :| 0 <= v < |order| && HidesAt(AtReplacing(faults, readings, |changed|), v)
               && order[v].path == VERSION_PATH;
      OneHidden(AtReplacing(faults, readings, |changed|), v, k);
    }
    if order[k].path == VERSION_PATH {
      if |changed| == 1 {
        assert changed[0] == order[k];
        assert Bears(st, changed[0]);
      } else {
        var p := if changed[0].path == VERSION_PATH then changed[1] else changed[0];
        assert p in changed && p.path != VERSION_PATH;
        HiddenVersionReplacementIsUnsafe(files, changed, run.stray[0]);
      }
    }
  }

  class ReleaseTree {
    var files: Files
    var temporaries: set<nat>
    var nextName: nat
    var faults: seq<Fault>
    ghost var history: seq<Files>

    constructor (files: Files, faults: seq<Fault>)
      ensures this.files == files && this.faults == faults && temporaries == {} && history == []
    {
      this.files, this.faults, temporaries, nextName, history := files, faults, {}, 0, [];
    }

    ghost predicate NamesAreFresh()
      reads this
    {
      forall n :: n in temporaries ==> n < nextName
    }

    method Next() returns (f: Fault)
      modifies `faults
      ensures f == At(old(faults), 0) && faults == Rest(old(faults), 1)
    {
      if faults == [] {
        f := Works;
      } else {
        f := faults[0];
        faults := faults[1..];
      }
    }

    /** The projections whose file differs, or the first that cannot be read. */
    method ReadChanged(expected: seq<Projection>) returns (r: Result<seq<Projection>, ReleaseError>)
      modifies `faults
      ensures r.Success? ==> AllPresent(files, expected) && r.value == Changed(files, expected)
      ensures r.Failure? ==>
                exists i :: 0 <= i < |expected| && r.error == CannotRead(expected[i].path)
                            && AllPresent(files, expected[..i])
      ensures r.Success? <==> AllPresent(files, expected) && ReadsWork(old(faults), |expected|)
      ensures r.Success? ==> faults == Rest(old(faults), |expected|)
      ensures r.Failure? && AllPresent(files, expected) && OneFault(old(faults)) ==> AllWork(faults)
      ensures AllWork(old(faults)) ==> AllWork(faults) && (r.Success? <==> AllPresent(files, expected))
      ensures forall f :: f in faults ==> f in old(faults)
    {
      hide Changed, AllPresent;
      RestNone(faults);
      AllWorkPasses(faults, |expected|);
      AllWorkRest(faults, |expected|);
      var changed := [];
      var i := 0;
      PresentNone(files);
      while i < |expected|
        invariant 0 <= i <= |expected|
        invariant AllPresent(files, expected[..i]) && changed == Changed(files, expected[..i])
        invariant faults == Rest(old(faults), i) && ReadsWork(old(faults), i)
        invariant forall f :: f in faults ==> f in old(faults)
      {
        var p := expected[i];
        RestMore(old(faults), i);
        AllWorkRest(old(faults), i + 1);
        AllWorkAt(old(faults), i);
        OneFaultRest(old(faults), i + 1);
        var f := Next();
        if f != Works || p.path !in files {
          AbsentSomewhere(files, expected, i);
          return Failure(CannotRead(p.path));
        }
        assert expected[..i + 1] == expected[..i] + [p];
        PresentMore(files, expected[..i], p);
        if files[p.path].content != p.content {
          changed := changed + [p];
        }
        i := i + 1;
      }
      assert expected[..i] == expected;
      return Success(changed);
    }

    /** One temporary file: made, not made, or made without the caller learning its name. */
    method CreateTemporary() returns (name: Option<nat>, ghost leaked: set<nat>)
      requires NamesAreFresh()
      modifies `temporaries, `nextName, `faults
      ensures NamesAreFresh()
      ensures name.Some? ==> name.value !in old(temporaries) && leaked == {}
                             && temporaries == old(temporaries) + {name.value}
      ensures name.None? ==> temporaries == old(temporaries) + leaked && leaked !! old(temporaries)
      ensures name.Some? <==> Passes(At(old(faults), 0))
      ensures leaked != {} <==> At(old(faults), 0) == Interrupted
      ensures faults == Rest(old(faults), 1)
      ensures forall f :: f in faults ==> f in old(faults)
    {
      leaked := {};
      var f := Next();
      if f.Fails? {
        return None, {};
      }
      var n := nextName;
      nextName := nextName + 1;
      temporaries := temporaries + {n};
      if f.Interrupted? {
        return None, {n};
      }
      return Some(n), {};
    }

    /** One file: its original is read, then its temporary is made. */
    method StageOne(path: string) returns (name: Option<nat>, ghost leaked: set<nat>)
      requires NamesAreFresh() && path in files
      modifies `temporaries, `nextName, `faults
      ensures NamesAreFresh()
      ensures name.Some? ==> name.value !in old(temporaries) && leaked == {}
                             && temporaries == old(temporaries) + {name.value}
      ensures name.None? ==> temporaries == old(temporaries) + leaked && leaked !! old(temporaries)
      ensures name.Some? <==> At(old(faults), 0) == Works && Passes(At(old(faults), 1))
      ensures leaked != {} <==> At(old(faults), 0) == Works && At(old(faults), 1) == Interrupted
      ensures name.Some? ==> faults == Rest(old(faults), 2)
      ensures forall f :: f in faults ==> f in old(faults)
    {
      hide At, Rest, Passes;
      RestMore(faults, 0);
      RestMore(faults, 1);
      RestNone(faults);
      var f := Next();
      if f != Works {
        return None, {};
      }
      name, leaked := CreateTemporary();
    }

    /** Stages every changed projection with the mode of the file it will replace. */
    method Stage(changed: seq<Projection>)
      returns (ok: bool, originals: Files, staged: map<string, nat>, ghost leaked: set<nat>)
      requires NamesAreFresh() && Distinct(changed) && forall p :: p in changed ==> p.path in files
      modifies `temporaries, `nextName, `faults
      ensures NamesAreFresh()
      ensures temporaries == old(temporaries) + staged.Values + leaked
      ensures staged.Values !! old(temporaries) && leaked !! old(temporaries) && staged.Values !! leaked
      ensures ok ==> leaked == {} && forall p :: p in changed ==>
                p.path in staged && p.path in originals && originals[p.path] == files[p.path]
      ensures ok <==> StagesWork(old(faults), |changed|)
      ensures ok ==> faults == Rest(old(faults), 2 * |changed|)
      ensures leaked != {} <==> Leaks(old(faults), |changed|)
      ensures forall f :: f in faults ==> f in old(faults)
    {
      hide StagesWork, Leaks, Rest, At, Passes;
      RestNone(faults);
      StagesMore(faults, 0);
      originals, staged, leaked := map[], map[], {};
      var i := 0;
      while i < |changed|
        invariant 0 <= i <= |changed| && leaked == {}
        invariant NamesAreFresh()
        invariant temporaries == old(temporaries) + staged.Values && staged.Values !! old(temporaries)
        invariant staged.Keys == set p | p in changed[..i] :: p.path
        invariant forall p :: p in changed[..i] ==>
                    p.path in staged && p.path in originals && originals[p.path] == files[p.path]
        invariant faults == Rest(old(faults), 2 * i) && StagesWork(old(faults), i)
        invariant forall f :: f in faults ==> f in old(faults)
      {
        var path := changed[i].path;
        RestTwoMore(old(faults), 2 * i);
        StagesMore(old(faults), i);
        if !StagesWork(old(faults), i + 1) {
          StageDecided(old(faults), i, |changed|);
        }
        originals := originals[path := files[path]];
        var name;
        name, leaked := StageOne(path);
        if name.None? {
          return false, originals, staged, leaked;
        }
        assert path !in staged;
        AddedValue(staged, path, name.value);
        staged := staged[path := name.value];
        assert changed[..i + 1] == changed[..i] + [changed[i]];
        i := i + 1;
      }
      NoLeak(old(faults), |changed|);
      return true, originals, staged, {};
    }

    /** One `Path.replace`: nothing on failure; else the file is new, the temporary is gone. */
    method ReplaceOne(p: Projection, mode: nat, name: nat) returns (f: Fault, ghost w: Write)
      modifies `files, `temporaries, `faults, `history
      ensures f == At(old(faults), 0) && faults == Rest(old(faults), 1)
      ensures f.Fails? ==> files == old(files) && temporaries == old(temporaries) && history == old(history)
      ensures !f.Fails? ==>
                && w == Write(p.path, File(if f.Lies? then f.content else p.content, mode))
                && files == old(files)[w.path := w.file] && temporaries == old(temporaries) - {name}
                && history == old(history) + [files]
    {
      f := Next();
      w := Write(p.path, File(if f.Lies? then f.content else p.content, mode));
      if !f.Fails? {
        files := files[p.path := File(if f.Lies? then f.content else p.content, mode)];
        temporaries := temporaries - {name};
        history := history + [files];
      }
    }

    /** Replaces the files in order until one replacement goes wrong. */
    method ReplaceAll(order: seq<Projection>, originals: Files, staged: map<string, nat>)
      returns (ok: bool, replaced: seq<string>, ghost ws: seq<Write>, ghost stray: seq<Write>)
      requires Distinct(order)
      requires forall p :: p in order ==>
                 p.path in staged && p.path in originals && p.path in files && originals[p.path] == files[p.path]
      modifies `files, `temporaries, `faults, `history
      ensures |stray| <= 1 && Faithful(ws + stray, order, old(files), Honest(old(faults)))
      ensures files == Overwrite(old(files), ws + stray)
      ensures |replaced| == |ws| && forall i :: 0 <= i < |ws| ==> replaced[i] == ws[i].path
      ensures ok ==> stray == [] && |ws| == |order| && faults == Rest(old(faults), |order|)
      ensures ok <==> forall j | 0 <= j < |order| :: Passes(At(old(faults), j))
      ensures stray != [] <==> Hides(old(faults), |order|)
      ensures stray != [] ==> |ws| < |order| && HidesAt(old(faults), |ws|)
                              && stray == [Write(order[|ws|].path,
                                                 File(order[|ws|].content, originals[order[|ws|].path].mode))]
      ensures !ok ==> faults == Rest(old(faults), |ws| + 1) && !Passes(At(old(faults), |ws|))
      ensures Passed(old(history), history, old(files), ws, stray)
      ensures old(temporaries) - staged.Values <= temporaries <= old(temporaries)
      ensures forall f :: f in faults ==> f in old(faults)
    {
      hide Overwrite, Visited, Faithful;
      RestNone(faults);
      replaced, ws, stray := [], [], [];
      FaithfulNone(order, files, Honest(faults));
      OverwriteNone(files);
      var i := 0;
      while i < |order|
        invariant 0 <= i <= |order| && |ws| == |replaced| == i
        invariant forall k :: 0 <= k < i ==> replaced[k] == ws[k].path
        invariant Faithful(ws, order, old(files), Honest(old(faults)))
        invariant files == Overwrite(old(files), ws)
        invariant Passed(old(history), history, old(files), ws, [])
        invariant old(temporaries) - staged.Values <= temporaries <= old(temporaries)
        invariant faults == Rest(old(faults), i) && forall j | 0 <= j < i :: Passes(At(old(faults), j))
        invariant forall f :: f in faults ==> f in old(faults)
      {
        var p := order[i];
        RestMore(old(faults), i);
        if !Passes(At(old(faults), i)) {
          ReplacementDecided(old(faults), i, |order|);
        }
        assert staged[p.path] in staged.Values;
        ghost var before := history;
        ghost var pending := faults;
        var f;
        ghost var w;
        f, w := ReplaceOne(p, originals[p.path].mode, staged[p.path]);
        assert ws + [] == ws;
        if f.Fails? {
          return false, replaced, ws, [];
        }
        assert f.Lies? ==> f in pending;
        FaithfulOne(w, p, old(files), Honest(old(faults)));
        FaithfulMore(ws, w, order, old(files), Honest(old(faults)));
        OverwriteMore(old(files), ws, w);
        if f.Interrupted? {
          VisitedNow(old(files), ws, [w]);
          PassedMore(old(history), before, old(files), ws, [], [w], files);
          return false, replaced, ws, [w];
        }
        assert (ws + [w]) + [] == ws + [w];
        VisitedNow(old(files), ws + [w], []);
        PassedMore(old(history), before, old(files), ws, [w], [], files);
        replaced := replaced + [p.path];
        ws := ws + [w];
        i := i + 1;
      }
      assert ws + [] == ws;
      NothingHidden(old(faults), |order|);
      return true, replaced, ws, [];
    }

    /** One restoration: a temporary file with the original bytes and mode, moved over the path. */
    method RestoreOne(path: string, original: File) returns (ok: bool)
      requires NamesAreFresh()
      modifies `files, `temporaries, `nextName, `faults, `history
      ensures NamesAreFresh()
      ensures ok ==> files == old(files)[path := original] && temporaries == old(temporaries)
      ensures (files == old(files) && history == old(history))
              || (files == old(files)[path := original] && history == old(history) + [files])
      ensures AllWork(old(faults)) ==> ok && AllWork(faults)
      ensures ok <==> Passes(At(old(faults), 0)) && Passes(At(old(faults), 1))
      ensures At(old(faults), 1).Fails? ==> files == old(files)
    {
      AllWorkAt(faults, 0);
      AllWorkRest(faults, 1);
      RestTwoMore(faults, 0);
      RestNone(faults);
      var name;
      ghost var leaked;
      name, leaked := CreateTemporary();
      if name.None? {
        return false;
      }
      AllWorkAt(faults, 0);
      AllWorkRest(faults, 1);
      var f := Next();
      if f.Fails? {
        return false;
      }
      files := files[path := original];
      temporaries := temporaries - {name.value};
      history := history + [files];
      return !f.Interrupted?;
    }

    /** Restores the noted replacements, last first, until one restoration goes wrong. */
    method Rollback(replaced: seq<string>, originals: Files, ghost base: Files, ghost ws: seq<Write>,
                    ghost stray: seq<Write>, ghost start: seq<Files>)
      returns (ok: bool)
      requires NamesAreFresh() && files == Overwrite(base, ws + stray)
      requires |stray| <= 1 && DistinctWrites(ws + stray)
      requires |replaced| == |ws| && forall i :: 0 <= i < |ws| ==> replaced[i] == ws[i].path
      requires forall i :: 0 <= i < |ws| ==>
                 ws[i].path in originals && ws[i].path in base && originals[ws[i].path] == base[ws[i].path]
      requires Passed(start, history, base, ws, stray)
      modifies `files, `temporaries, `nextName, `faults, `history
      ensures NamesAreFresh()
      ensures ok ==> files == Overwrite(base, stray) && temporaries == old(temporaries)
      ensures Visited(files, base, ws, stray) && Passed(start, history, base, ws, stray)
      ensures AllWork(old(faults)) ==> ok && AllWork(faults)
    {
      hide Overwrite, Visited, Passed;
      var i := |replaced|;
      assert ws[..i] == ws;
      VisitedNow(base, ws, stray);
      while i > 0
        invariant 0 <= i <= |ws| && NamesAreFresh()
        invariant files == Overwrite(base, ws[..i] + stray) && Visited(files, base, ws, stray)
        invariant Passed(start, history, base, ws, stray)
        invariant temporaries == old(temporaries)
        invariant AllWork(old(faults)) ==> AllWork(faults)
        decreases i
      {
        ghost var before := files;
        ghost var seen := history;
        i := i - 1;
        var path := replaced[i];
        ghost var head := ws[..i + 1];
        assert head[..i] == ws[..i];
        HeadIsDistinct(ws, stray, i + 1);
        RestoreLast(base, head, stray);
        VisitedAt(base, ws, stray, i);
        PassedAlso(start, seen, base, ws, stray, Overwrite(base, ws[..i] + stray));
        ok := RestoreOne(path, originals[path]);
        if !ok {
          return;
        }
        assert files == Overwrite(base, ws[..i] + stray);
      }
      assert ws[..0] + stray == stray;
      return true;
    }

    /** Replacement, drift check, and rollback when either goes wrong. */
    method ReplaceAndCheck(expected: seq<Projection>, changed: seq<Projection>, originals: Files,
                           staged: map<string, nat>)
      returns (r: Result<set<string>, ReleaseError>, ghost run: Run)
      requires NamesAreFresh() && Distinct(expected) && AllPresent(files, expected)
      requires changed == Changed(files, expected) && Distinct(VersionLast(changed))
      requires forall p :: p in changed ==>
                 p.path in staged && p.path in originals && originals[p.path] == files[p.path]
      modifies `files, `temporaries, `nextName, `faults, `history
      ensures NamesAreFresh() && run.leaked == {}
      ensures |run.stray| <= 1 && Passed(old(history), history, old(files), run.ws, run.stray)
      ensures Faithful(run.ws + run.stray, VersionLast(changed), old(files), Honest(old(faults)))
      ensures r.Success? ==>
                && Matches(files, expected) && files == Overwrite(old(files), run.ws) && run.stray == []
                && r.value == (set p | p in changed :: p.path)
      ensures r.Failure? ==> r.error == RolledBack || r.error == RollbackFailed
      ensures r == Failure(RollbackFailed) ==> Visited(files, old(files), run.ws, run.stray)
      ensures r == Failure(RolledBack) ==> files == Overwrite(old(files), run.stray)
      ensures r != Failure(RollbackFailed) ==> old(temporaries) - staged.Values <= temporaries <= old(temporaries)
      ensures run.stray != [] <==> Hides(old(faults), |changed|)
      ensures run.stray != [] ==> IsHidden(old(faults), VersionLast(changed), old(files), run)
      ensures run.stray != [] && AllWork(Rest(old(faults), |run.ws| + 1)) ==> r == Failure(RolledBack)
      ensures OneFault(old(faults)) && Honest(old(faults)) ==> r != Failure(RollbackFailed)
      ensures AllWork(old(faults)) ==> r.Success?
    {
      hide Overwrite, Visited, Faithful, Passed, VersionLast, Changed;
      ghost var base, start := files, history;
      var order := VersionLast(changed);
      OrderFacts(files, expected);
      ChangedIsDistinct(files, expected);
      VersionComesLast(changed);
      AllWorkPasses(faults, |order|);
      AllWorkRest(faults, |order|);
      var ok, replaced, ws, stray := ReplaceAll(order, originals, staged);
      OneFaultRest(old(faults), |ws| + 1);
      OneFaultRest(old(faults), |order|);
      AllWorkIsHonest(old(faults));
      run := Run(ws, stray, {});
      if ok {
        assert ws + stray == ws;
        WritesKeepPresence(base, ws, expected);
        var drift := ReadChanged(expected);
        if Honest(old(faults)) {
          AllWrittenMatches(base, expected, ws);
          NothingChangedIffMatches(files, expected);
        }
        if drift.Success? && drift.value == [] {
          NothingChangedIffMatches(files, expected);
          return Success(set p | p in changed :: p.path), run;
        }
      }
      FaithfulIsDistinct(ws + stray, order, base, Honest(old(faults)));
      WritesAreOriginal(ws, stray, order, base, Honest(old(faults)));
      var restored := Rollback(replaced, originals, base, ws, stray, start);
      return Failure(if restored then RolledBack else RollbackFailed), run;
    }

    /** Staging, then the rest; the staged temporaries are removed in any case. */
    method StageAndReplace(expected: seq<Projection>, changed: seq<Projection>)
      returns (r: Result<set<string>, ReleaseError>, ghost run: Run)
      requires NamesAreFresh() && Distinct(expected) && AllPresent(files, expected)
      requires changed == Changed(files, expected)
      modifies this
      ensures NamesAreFresh()
      ensures |run.stray| <= 1 && Passed(old(history), history, old(files), run.ws, run.stray)
      ensures Faithful(run.ws + run.stray, VersionLast(changed), old(files), Honest(old(faults)))
      ensures r.Success? ==>
                && Matches(files, expected) && files == Overwrite(old(files), run.ws) && run.stray == []
                && r.value == (set p | p in changed :: p.path) && temporaries == old(temporaries)
      ensures r.Failure? ==> r.error == RolledBack || r.error == RollbackFailed
      ensures r == Failure(RollbackFailed) ==> Visited(files, old(files), run.ws, run.stray)
      ensures r == Failure(RolledBack) ==>
                files == Overwrite(old(files), run.stray) && temporaries == old(temporaries) + run.leaked
      ensures run.leaked !! old(temporaries)
      ensures run.leaked != {} <==> Leaks(old(faults), |changed|)
      ensures run.stray != []
              <==> StagesWork(old(faults), |changed|) && Hides(Rest(old(faults), 2 * |changed|), |changed|)
      ensures run.stray != [] ==> IsHidden(Rest(old(faults), 2 * |changed|), VersionLast(changed), old(files), run)
      ensures run.stray != [] && AllWork(Rest(Rest(old(faults), 2 * |changed|), |run.ws| + 1)) ==>
                r == Failure(RolledBack)
      ensures OneFault(old(faults)) && Honest(old(faults)) ==> r != Failure(RollbackFailed)
      ensures AllWork(old(faults)) ==> r.Success?
    {
      hide Overwrite, Visited, Faithful, Passed, VersionLast, Changed, IsHidden, Hides, Leaks, StagesWork, Rest;
      hide Matches, AllPresent, OneFault, Honest;
      run := Run([], [], {});
      PassedNone(history, files);
      FaithfulNone(VersionLast(changed), files, Honest(faults));
      assert run.ws + run.stray == [];
      OverwriteNone(files);
      ghost var pending := faults;
      ChangedIsDistinct(files, expected);
      ChangedIsPresent(files, expected);
      VersionComesLast(changed);
      AllWorkPasses(faults, |changed|);
      AllWorkRest(faults, 2 * |changed|);
      NoLeak(faults, |changed|);
      OneFaultRest(faults, 2 * |changed|);
      HonestRest(faults, 2 * |changed|);
      var ok, originals, staged, leaked := Stage(changed);
      if !ok {
        temporaries := temporaries - staged.Values;
        run := Run([], [], leaked);
        return Failure(RolledBack), run;
      }
      ghost var honest := Honest(faults);
      r, run := ReplaceAndCheck(expected, changed, originals, staged);
      FaithfulWeaker(run.ws + run.stray, VersionLast(changed), old(files), honest, Honest(pending));
      temporaries := temporaries - staged.Values;
    }

    /** The whole transaction. Success means that every projection bears its expected bytes, even if a
        replacement lied; a finished rollback leaves every file as it was, but for one whose
        replacement an interrupt hid; no staged temporary survives, but for one whose creation an
        interrupt hid. In between, only the listed states are passed. */
    method ApplyProjections(expected: seq<Projection>) returns (r: Result<set<string>, ReleaseError>, ghost run: Run)
      requires NamesAreFresh() && Distinct(expected)
      modifies this
      ensures NamesAreFresh()
      ensures |run.stray| <= 1 && Passed(old(history), history, old(files), run.ws, run.stray)
      ensures r.Failure? && r.error.CannotRead? ==>
                run.ws + run.stray == [] && files == old(files) && temporaries == old(temporaries)
      ensures !(r.Failure? && r.error.CannotRead?) ==>
                && AllPresent(old(files), expected)
                && Faithful(run.ws + run.stray, VersionLast(Changed(old(files), expected)), old(files),
                            Honest(old(faults)))
      ensures r.Success? ==>
                && Matches(files, expected) && files == Overwrite(old(files), run.ws) && run.stray == []
                && r.value == (set p | p in Changed(old(files), expected) :: p.path)
                && temporaries == old(temporaries)
      ensures r == Failure(RolledBack) ==>
                && files == Overwrite(old(files), run.stray) && temporaries == old(temporaries) + run.leaked
                && (run.stray == [] ==> files == old(files))
      ensures r == Failure(RollbackFailed) ==> Visited(files, old(files), run.ws, run.stray)
      ensures r == Failure(RolledBack) ==>
                var changes := |Changed(old(files), expected)|;
                && (files == old(files) <==> !HidesReplacement(old(faults), |expected|, changes))
                && (temporaries == old(temporaries) <==> !HidesTemporary(old(faults), |expected|, changes))
      ensures r == Failure(RolledBack) && Interrupted !in old(faults) ==>
                files == old(files) && temporaries == old(temporaries)
      ensures AllPresent(old(files), expected) && Honest(old(faults))
              && !HidesVersion(old(faults), |expected|, Changed(old(files), expected)) ==>
                forall st :: st in history[|old(history)|..] ==> VersionSafe(st, Changed(old(files), expected))
      ensures AllPresent(old(files), expected)
              && HidesVersion(old(faults), |expected|, Changed(old(files), expected)) ==>
                && run.stray != [] && !r.Success?
                && IsHidden(AtReplacing(old(faults), |expected|, |Changed(old(files), expected)|),
                            VersionLast(Changed(old(files), expected)), old(files), run)
                && (r == Failure(RolledBack) ==>
                      (VersionSafe(files, Changed(old(files), expected)) <==> |Changed(old(files), expected)| == 1))
                && (AllWork(Rest(old(faults), |expected| + 3 * |Changed(old(files), expected)|)) ==>
                      r == Failure(RolledBack))
      ensures OneFault(old(faults)) && Honest(old(faults)) ==> r != Failure(RollbackFailed)
      ensures AllWork(old(faults)) ==> (r.Success? <==> AllPresent(old(files), expected))
    {
      hide Overwrite, Visited, Faithful, Passed, VersionLast, Changed, VersionSafe, Rest, AtReplacing;
      hide HidesReplacement, HidesTemporary, HidesVersion, IsHidden;
      r, run := ReadAndApply(expected);
      if AllPresent(old(files), expected) {
        var changed := Changed(old(files), expected);
        VersionIsHidden(old(faults), |expected|, changed);
        RestAtReplacing(old(faults), |expected|, |changed|, |run.ws| + 1);
        ChangedIsDistinct(old(files), expected);
        ChangedIsPresent(old(files), expected);
        OverwriteNone(old(files));
        if Interrupted !in old(faults) {
          NoInterruptHidesNothing(old(faults), |expected|, |changed|);
        }
        if run.stray != [] {
          HiddenFacts(old(files), changed, old(faults), |expected|, run);
        }
        if Honest(old(faults)) && (run.stray != [] ==> run.stray[0].path != VERSION_PATH) {
          if r.Failure? && r.error.CannotRead? {
            FaithfulNone(VersionLast(changed), old(files), true);
          }
          PassedIsSafe(old(history), history, old(files), changed, run.ws, run.stray);
        }
      }
    }

    method ReadAndApply(expected: seq<Projection>) returns (r: Result<set<string>, ReleaseError>, ghost run: Run)
      requires NamesAreFresh() && Distinct(expected)
      modifies this
      ensures NamesAreFresh()
      ensures |run.stray| <= 1 && Passed(old(history), history, old(files), run.ws, run.stray)
      ensures r.Failure? && r.error.CannotRead? ==>
                run.ws + run.stray == [] && files == old(files) && temporaries == old(temporaries)
      ensures !(r.Failure? && r.error.CannotRead?) ==>
                && AllPresent(old(files), expected)
                && Faithful(run.ws + run.stray, VersionLast(Changed(old(files), expected)), old(files),
                            Honest(old(faults)))
      ensures r.Success? ==>
                && Matches(files, expected) && files == Overwrite(old(files), run.ws) && run.stray == []
                && r.value == (set p | p in Changed(old(files), expected) :: p.path)
                && temporaries == old(temporaries)
      ensures r == Failure(RolledBack) ==>
                && files == Overwrite(old(files), run.stray) && temporaries == old(temporaries) + run.leaked
                && (run.stray == [] ==> files == old(files))
      ensures r == Failure(RollbackFailed) ==> Visited(files, old(files), run.ws, run.stray)
      ensures AllPresent(old(files), expected) ==>
                var changed := Changed(old(files), expected);
                && run.leaked !! old(temporaries)
                && (run.leaked != {} <==> HidesTemporary(old(faults), |expected|, |changed|))
                && (run.stray != [] <==> HidesReplacement(old(faults), |expected|, |changed|))
                && (run.stray != [] ==>
                      && IsHidden(AtReplacing(old(faults), |expected|, |changed|),
                                  VersionLast(changed), old(files), run)
                      && (AllWork(Rest(AtReplacing(old(faults), |expected|, |changed|), |run.ws| + 1)) ==>
                            r == Failure(RolledBack)))
      ensures OneFault(old(faults)) && Honest(old(faults)) ==> r != Failure(RollbackFailed)
      ensures AllWork(old(faults)) ==> (r.Success? <==> AllPresent(old(files), expected))
    {
      hide Overwrite, Visited, Faithful, Passed, VersionLast, Changed, AllPresent;
      run := Run([], [], {});
      PassedNone(history, files);
      OverwriteNone(files);
      assert run.ws + run.stray == [];
      ghost var pending := faults;
      OneFaultRest(faults, |expected|);
      HonestRest(faults, |expected|);
      var read := ReadChanged(expected);
      if read.Failure? {
        return Failure(read.error), run;
      }
      var changed := read.value;
      if changed == [] {
        NothingChangedIffMatches(files, expected);
        NoOrder(files, Honest(pending));
        return Success({}), run;
      }
      ghost var honest := Honest(faults);
      r, run := StageAndReplace(expected, changed);
      FaithfulWeaker(run.ws + run.stray, VersionLast(changed), old(files), honest, Honest(pending));
    }
  }

  function WorksThen(n: nat, last: Fault): seq<Fault> {
    seq(n, _ => Works) + [last]
  }

  /** An interrupt can hide any replacement of any run. */
  lemma LateInterruptHides(readings: nat, changes: nat, k: nat)
    requires k < changes
    ensures var faults := WorksThen(readings + 2 * changes + k, Interrupted);
            && HidesAt(AtReplacing(faults, readings, changes), k) && HidesReplacement(faults, readings, changes)
            && AllWork(Rest(faults, readings + 2 * changes + k + 1))
  {
    var faults := WorksThen(readings + 2 * changes + k, Interrupted);
    assert Rest(faults, readings) == WorksThen(2 * changes + k, Interrupted);
    assert AtReplacing(faults, readings, changes) == WorksThen(k, Interrupted);
  }

  /** Two files, and an interrupt right after the version file is replaced: everything else works. */
  const TWO_FILES: Files := map["a" := File("old", 0), VERSION_PATH := File("old", 0)]
  const TWO_PROJECTIONS: seq<Projection> := [Projection("a", "new"), Projection(VERSION_PATH, "new")]

  lemma TwoFilesChange()
    ensures Distinct(TWO_PROJECTIONS) && AllPresent(TWO_FILES, TWO_PROJECTIONS)
    ensures Changed(TWO_FILES, TWO_PROJECTIONS) == TWO_PROJECTIONS
    ensures VersionLast(TWO_PROJECTIONS) == TWO_PROJECTIONS
  {
    var a, v := TWO_PROJECTIONS[0], TWO_PROJECTIONS[1];
    assert |"a"| != |VERSION_PATH|;
    BothChange(TWO_FILES, a, v);
    VersionIsSecond(a, v);
  }

  lemma BothChange(files: Files, a: Projection, v: Projection)
    requires a.path in files && v.path in files
    requires files[a.path].content != a.content && files[v.path].content != v.content
    ensures AllPresent(files, [a, v]) && Changed(files, [a, v]) == [a, v]
  {
    hide Changed, AllPresent;
    PresentNone(files);
    assert [] + [a] == [a] && [a] + [v] == [a, v];
    PresentMore(files, [], a);
    PresentMore(files, [a], v);
  }

  lemma VersionIsSecond(a: Projection, v: Projection)
    requires a.path != VERSION_PATH && v.path == VERSION_PATH
    ensures VersionLast([a, v]) == [a, v]
  {
    hide VERSION_PATH;
    assert [a, v][1..] == [v] && [v][1..] == [];
    assert Only([v], false) == [] && Only([v], true) == [v];
  }

  const LATE_INTERRUPT: seq<Fault> := WorksThen(7, Interrupted)

  lemma LateInterruptHidesVersion()
    ensures HidesVersion(LATE_INTERRUPT, 2, TWO_PROJECTIONS)
    ensures HidesAt(AtReplacing(LATE_INTERRUPT, 2, 2), 1)
    ensures AllWork(Rest(LATE_INTERRUPT, 8))
  {
    hide HidesReplacement, HidesAt, AtReplacing, Rest, WorksThen;
    TwoFilesChange();
    LateInterruptHides(2, 2, 1);
  }

  lemma LateInterruptLeaves(run: Run)
    requires IsHidden(AtReplacing(LATE_INTERRUPT, 2, 2), TWO_PROJECTIONS, TWO_FILES, run)
    ensures Overwrite(TWO_FILES, run.stray) == TWO_FILES[VERSION_PATH := File("new", 0)]
  {
    hide LATE_INTERRUPT, AtReplacing;
    LateInterruptHidesVersion();
    OneHidden(AtReplacing(LATE_INTERRUPT, 2, 2), |run.ws|, 1);
    OverwriteNone(TWO_FILES);
    OverwriteMore(TWO_FILES, [], run.stray[0]);
    assert [] + run.stray == run.stray;
  }

  /** A run that ends rolled back, with the new version beside the old other file. */
  method InterruptedVersion() returns (tree: ReleaseTree, r: Result<set<string>, ReleaseError>)
    ensures fresh(tree) && r == Failure(RolledBack)
    ensures tree.files == TWO_FILES[VERSION_PATH := File("new", 0)]
    ensures !VersionSafe(tree.files, TWO_PROJECTIONS)
  {
    hide HidesVersion, VersionSafe, Changed, Overwrite, LATE_INTERRUPT, VersionLast, Rest, AllPresent, Faithful;
    hide IsHidden, AtReplacing;
    tree := new ReleaseTree(TWO_FILES, LATE_INTERRUPT);
    TwoFilesChange();
    LateInterruptHidesVersion();
    ghost var run;
    r, run := tree.ApplyProjections(TWO_PROJECTIONS);
    LateInterruptLeaves(run);
  }
}
