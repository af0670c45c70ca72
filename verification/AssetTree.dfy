/**
 Reading an injected asset tree: the worklist of `_regular_files` and the hash input of
 `_named_digest` in scripts/asset_contract.py, with the bounds it shares with
 scripts/verify_web_artifact_parity.py.
 */
module AssetTree {
  import opened Wrappers
  import opened FileLists

  const MAX_FILES: nat := 512
  const MAX_BYTES: nat := 32 * 1024 * 1024

  /** The entries of a directory in the order they are visited; `Odd` is a symlink or a special file. */
  datatype Listing =
    | Nothing
    | RegularFile(name: Bytes, content: Bytes, next: Listing)
    | Directory(name: Bytes, inside: Listing, next: Listing)
    | Odd(name: Bytes, next: Listing)

  function Below(prefix: Bytes, name: Bytes): Bytes {
    if prefix == [] then name else prefix + [47] + name
  }

  /** Every regular file of a tree, each with its path below the root. */
  function AllFiles(prefix: Bytes, l: Listing): seq<Entry>
    decreases l
  {
    match l
    case Nothing => []
    case RegularFile(name, content, next) => [Entry(Below(prefix, name), content)] + AllFiles(prefix, next)
    case Directory(name, inside, next) => AllFiles(Below(prefix, name), inside) + AllFiles(prefix, next)
    case Odd(_, next) => AllFiles(prefix, next)
  }

  predicate HasOdd(l: Listing) {
    match l
    case Nothing => false
    case RegularFile(_, _, next) => HasOdd(next)
    case Directory(_, inside, next) => HasOdd(inside) || HasOdd(next)
    case Odd(_, _) => true
  }

  function ByteCount(files: seq<Entry>): nat {
    if files == [] then 0 else |files[0].content| + ByteCount(files[1..])
  }

  lemma {:induction false} BytesConcat(a: seq<Entry>, b: seq<Entry>)
    ensures ByteCount(a + b) == ByteCount(a) + ByteCount(b)
  {
    if a == [] {
      assert a + b == b;
    } else {
      assert (a + b)[1..] == a[1..] + b;
      BytesConcat(a[1..], b);
    }
  }

  datatype Pending = Pending(prefix: Bytes, listing: Listing)

  /** The files that the pending directories still hold, the last one first. */
  function Ahead(pending: seq<Pending>): seq<Entry> {
    if pending == [] then []
    else
      var last := pending[|pending| - 1];
      AllFiles(last.prefix, last.listing) + Ahead(pending[..|pending| - 1])
  }

  predicate OddAhead(pending: seq<Pending>) {
    pending != [] && (HasOdd(pending[|pending| - 1].listing) || OddAhead(pending[..|pending| - 1]))
  }

  function Weight(l: Listing): nat {
    match l
    case Nothing => 1
    case RegularFile(_, _, next) => 1 + Weight(next)
    case Directory(_, inside, next) => 1 + Weight(inside) + Weight(next)
    case Odd(_, next) => 1 + Weight(next)
  }

  function WeightAhead(pending: seq<Pending>): nat {
    if pending == [] then 0 else Weight(pending[|pending| - 1].listing) + WeightAhead(pending[..|pending| - 1])
  }

  ghost predicate Bounded(files: seq<Entry>) {
    |files| <= MAX_FILES && ByteCount(files) <= MAX_BYTES
  }

  lemma PendingMore(pending: seq<Pending>, p: Pending)
    ensures Ahead(pending + [p]) == AllFiles(p.prefix, p.listing) + Ahead(pending)
    ensures OddAhead(pending + [p]) <==> HasOdd(p.listing) || OddAhead(pending)
    ensures WeightAhead(pending + [p]) == Weight(p.listing) + WeightAhead(pending)
  {
    assert (pending + [p])[..|pending|] == pending;
  }

  /** What is found and what is still ahead together are the whole tree, in some order. */
  ghost predicate Accounted(root: Listing, found: seq<Entry>, here: seq<Entry>, ahead: seq<Entry>) {
    && multiset(AllFiles([], root)) == multiset(found) + multiset(here) + multiset(ahead)
    && |AllFiles([], root)| == |found| + |here| + |ahead|
    && ByteCount(AllFiles([], root)) == ByteCount(found) + ByteCount(here) + ByteCount(ahead)
  }

  lemma FileFound(root: Listing, found: seq<Entry>, e: Entry, here: seq<Entry>, ahead: seq<Entry>)
    requires Accounted(root, found, [e] + here, ahead)
    ensures Accounted(root, found + [e], here, ahead)
  {
    BytesConcat(found, [e]);
    BytesConcat([e], here);
  }

  lemma DirectoryFound(root: Listing, found: seq<Entry>, inside: seq<Entry>, here: seq<Entry>, ahead: seq<Entry>)
    requires Accounted(root, found, inside + here, ahead)
    ensures Accounted(root, found, here, inside + ahead)
  {
    BytesConcat(inside, here);
    BytesConcat(inside, ahead);
  }

  lemma DirectoryTaken(root: Listing, found: seq<Entry>, here: seq<Entry>, ahead: seq<Entry>)
    requires Accounted(root, found, [], here + ahead)
    ensures Accounted(root, found, here, ahead)
  {
    BytesConcat(here, ahead);
  }

  /**
   Every regular file of the tree once, in path order: exactly if the tree has nothing odd and is
   within the bounds, however the worklist goes through it.
   */
  method RegularFiles(root: Listing) returns (r: Option<seq<Entry>>)
    ensures r.Some? <==> !HasOdd(root) && |AllFiles([], root)| <= 512 && ByteCount(AllFiles([], root)) <= 33_554_432
    ensures r.Some? ==> multiset(r.value) == multiset(AllFiles([], root))
    ensures r.Some? && DistinctPaths(AllFiles([], root)) ==> Ascending(r.value)
  {
    hide AllFiles, HasOdd, Weight, ByteCount, Ahead, OddAhead, WeightAhead, Ascending, DistinctPaths;
    var files: seq<Entry> := [];
    var total := 0;
    var pending := [Pending([], root)];
    StartsWithRoot(root);
    while pending != []
      invariant Accounted(root, files, [], Ahead(pending))
      invariant total == ByteCount(files) && Bounded(files)
      invariant HasOdd(root) <==> OddAhead(pending)
      decreases WeightAhead(pending)
    {
      var current := pending[|pending| - 1];
      var rest := pending[..|pending| - 1];
      assert pending == rest + [current];
      PendingMore(rest, current);
      pending := rest;
      var l := current.listing;
      DirectoryTaken(root, files, AllFiles(current.prefix, l), Ahead(pending));
      ghost var budget := WeightAhead(rest) + Weight(l);
      while l != Nothing
        invariant Accounted(root, files, AllFiles(current.prefix, l), Ahead(pending))
        invariant total == ByteCount(files) && Bounded(files)
        invariant HasOdd(root) <==> HasOdd(l) || OddAhead(pending)
        invariant WeightAhead(pending) + Weight(l) <= budget
        decreases l
      {
        ListingStep(current.prefix, l);
        match l {
          case Odd(_, _) =>
            return None;
          case Directory(name, inside, next) =>
            var p := Pending(Below(current.prefix, name), inside);
            DirectoryFound(root, files, AllFiles(p.prefix, inside), AllFiles(current.prefix, next), Ahead(pending));
            PendingMore(pending, p);
            pending := pending + [p];
          case RegularFile(name, content, next) =>
            var e := Entry(Below(current.prefix, name), content);
            FileFound(root, files, e, AllFiles(current.prefix, next), Ahead(pending));
            BytesMore(files, e);
            files := files + [e];
            total := total + |content|;
        }
        if |files| > MAX_FILES || total > MAX_BYTES {
          return None;
        }
        l := l.next;
      }
      NothingLeft(current.prefix);
    }
    NothingAhead();
    SortedKeepsDistinct(files, AllFiles([], root));
    return Some(SortedByPath(files));
  }

  lemma StartsWithRoot(root: Listing)
    ensures Accounted(root, [], [], Ahead([Pending([], root)]))
    ensures HasOdd(root) <==> OddAhead([Pending([], root)])
    ensures Bounded([]) && ByteCount([]) == 0
  {
    var p := Pending([], root);
    PendingMore([], p);
    assert [] + [p] == [p];
    assert AllFiles([], root) + [] == AllFiles([], root);
  }

  /** The files of the first entry of a listing. */
  function FirstFiles(prefix: Bytes, l: Listing): seq<Entry>
    requires l != Nothing
  {
    match l
    case RegularFile(name, content, _) => [Entry(Below(prefix, name), content)]
    case Directory(name, inside, _) => AllFiles(Below(prefix, name), inside)
    case Odd(_, _) => []
  }

  lemma ListingStep(prefix: Bytes, l: Listing)
    requires l != Nothing
    ensures AllFiles(prefix, l) == FirstFiles(prefix, l) + AllFiles(prefix, l.next)
    ensures HasOdd(l) <==> l.Odd? || (l.Directory? && HasOdd(l.inside)) || HasOdd(l.next)
    ensures Weight(l) == 1 + (if l.Directory? then Weight(l.inside) else 0) + Weight(l.next)
  {
  }

  lemma BytesMore(files: seq<Entry>, e: Entry)
    ensures ByteCount(files + [e]) == ByteCount(files) + |e.content|
  {
    BytesConcat(files, [e]);
  }

  lemma NothingLeft(prefix: Bytes)
    ensures AllFiles(prefix, Nothing) == [] && !HasOdd(Nothing) && Weight(Nothing) == 1
  {
  }

  lemma NothingAhead()
    ensures Ahead([]) == [] && !OddAhead([])
  {
  }

  lemma SortedKeepsDistinct(files: seq<Entry>, all: seq<Entry>)
    requires multiset(files) == multiset(all)
    ensures DistinctPaths(all) ==> Ascending(SortedByPath(files))
  {
    if DistinctPaths(all) {
      DistinctPermuted(all, files);
      SortedAscends(files);
    }
  }
}
