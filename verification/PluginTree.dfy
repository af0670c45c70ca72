/**
 The checksum of a plugin source tree: the files in path order, each written as a length-prefixed
 path and a length-prefixed content. Follows `_tree_checksum` in src/gigaloom/codex_plugin_target.py.

 SHA-256 is injective, so the checksum is the byte stream that is hashed.
 */
module PluginTree {
  import opened Wrappers
  import opened FileLists

  const MAX_FILES: nat := 512
  const MAX_FILE_BYTES: nat := 16 * 1024 * 1024
  const MAX_TOTAL_BYTES: nat := 64 * 1024 * 1024

  datatype TreeError = FileCountInvalid | FileTooLarge | TreeTooLarge | PathTooLong

  // ---------- Big-endian lengths ----------

  function Pow256(w: nat): (p: nat)
    ensures p > 0
  {
    if w == 0 then 1 else 256 * Pow256(w - 1)
  }

  /** `n.to_bytes(w, "big")`. */
  function BigEndian(n: nat, w: nat): (b: Bytes)
    requires n < Pow256(w)
    ensures |b| == w
  {
    if w == 0 then [] else BigEndian(n / 256, w - 1) + [n % 256]
  }

  function FromBigEndian(b: Bytes): nat {
    if b == [] then 0 else 256 * FromBigEndian(b[..|b| - 1]) + b[|b| - 1]
  }

  lemma {:induction false} BigEndianReadsBack(n: nat, w: nat)
    requires n < Pow256(w)
    ensures FromBigEndian(BigEndian(n, w)) == n
  {
    if w > 0 {
      BigEndianReadsBack(n / 256, w - 1);
      var b := BigEndian(n, w);
      assert b[..|b| - 1] == BigEndian(n / 256, w - 1);
    }
  }

  // ---------- The stream ----------

  predicate Encodable(e: Entry) {
    |e.path| < Pow256(4) && |e.content| < Pow256(8)
  }

  function Field(field: Bytes, w: nat): Bytes
    requires |field| < Pow256(w)
  {
    BigEndian(|field|, w) + field
  }

  function EncodeEntry(e: Entry): Bytes
    requires Encodable(e)
  {
    Field(e.path, 4) + Field(e.content, 8)
  }

  function Serialise(entries: seq<Entry>): Bytes
    requires forall e :: e in entries ==> Encodable(e)
  {
    if entries == [] then [] else EncodeEntry(entries[0]) + Serialise(entries[1..])
  }

  /** A length of `w` bytes and that many bytes after it. */
  function TakeField(b: Bytes, w: nat): (r: Option<(Bytes, Bytes)>)
    ensures r.Some? && w > 0 ==> |r.value.1| < |b|
  {
    if |b| < w then None
    else
      var n := FromBigEndian(b[..w]);
      if |b| < w + n then None else Some((b[w..w + n], b[w + n..]))
  }

  function Deserialise(b: Bytes): Option<seq<Entry>>
    decreases |b|
  {
    if b == [] then Some([])
    else
      match TakeField(b, 4)
      case None => None
      case Some((path, more)) =>
        match TakeField(more, 8)
        case None => None
        case Some((content, rest)) =>
          match Deserialise(rest)
          case None => None
          case Some(entries) => Some([Entry(path, content)] + entries)
  }

  lemma FieldReadsBack(field: Bytes, w: nat, rest: Bytes)
    requires |field| < Pow256(w)
    ensures TakeField(Field(field, w) + rest, w) == Some((field, rest))
  {
    var length := BigEndian(|field|, w);
    var b := Field(field, w) + rest;
    BigEndianReadsBack(|field|, w);
    assert b[..w] == length;
    assert b[w..w + |field|] == field && b[w + |field|..] == rest;
  }

  lemma EntryReadsBack(e: Entry, rest: Bytes)
    requires Encodable(e)
    ensures Deserialise(EncodeEntry(e) + rest) ==
            match Deserialise(rest)
            case None => None
            case Some(entries) => Some([e] + entries)
  {
    hide Field, TakeField, Pow256;
    var b := EncodeEntry(e) + rest;
    var tail := Field(e.content, 8) + rest;
    assert b == Field(e.path, 4) + tail;
    FieldReadsBack(e.path, 4, tail);
    FieldReadsBack(e.content, 8, rest);
    NoFieldInNothing();
    assert b != [];
  }

  lemma NoFieldInNothing()
    ensures TakeField([], 4).None?
  {
  }

  /** The stream can be read back to the list of files. */
  lemma {:induction false} SerialisedReadsBack(entries: seq<Entry>)
    requires forall e :: e in entries ==> Encodable(e)
    ensures Deserialise(Serialise(entries)) == Some(entries)
  {
    hide EncodeEntry, Encodable;
    if entries != [] {
      assert entries[0] in entries && forall x :: x in entries[1..] ==> x in entries;
      EntryReadsBack(entries[0], Serialise(entries[1..]));
      SerialisedReadsBack(entries[1..]);
      assert [entries[0]] + entries[1..] == entries;
    }
  }

  // ---------- The checksum ----------

  /** The first violation in path order, if any. */
  function Violation(sorted: seq<Entry>): Option<TreeError> {
    if sorted == [] then None
    else
      var last := sorted[|sorted| - 1];
      var earlier := Violation(sorted[..|sorted| - 1]);
      if earlier.Some? then earlier
      else if |last.content| > MAX_FILE_BYTES then Some(FileTooLarge)
      else if TotalBytes(sorted) > MAX_TOTAL_BYTES then Some(TreeTooLarge)
      else if |last.path| >= Pow256(4) then Some(PathTooLong)
      else None
  }

  lemma {:induction false} NoViolationIsEncodable(sorted: seq<Entry>)
    requires Violation(sorted).None?
    ensures forall e :: e in sorted ==> Encodable(e)
  {
    if sorted != [] {
      NoViolationIsEncodable(sorted[..|sorted| - 1]);
      assert MAX_FILE_BYTES < Pow256(8) by {
        assert Pow256(4) == 256 * 256 * 256 * 256;
        assert Pow256(8) == 256 * 256 * 256 * 256 * Pow256(4);
      }
      assert sorted == sorted[..|sorted| - 1] + [sorted[|sorted| - 1]];
    }
  }

  lemma {:induction false} SerialiseMore(init: seq<Entry>, e: Entry)
    requires forall x :: x in init + [e] ==> Encodable(x)
    ensures (forall x :: x in init ==> Encodable(x)) && Encodable(e)
    ensures Serialise(init + [e]) == Serialise(init) + EncodeEntry(e)
  {
    hide EncodeEntry, Encodable;
    assert (init + [e])[|init|] == e;
    assert forall x :: x in init ==> x in init + [e];
    if init == [] {
      assert [] + [e] == [e] && [e][1..] == [];
    } else {
      assert (init + [e])[1..] == init[1..] + [e];
      assert forall x :: x in init[1..] + [e] ==> x in init + [e];
      SerialiseMore(init[1..], e);
    }
  }

  /** The loop of the source over the sorted files. */
  lemma NothingHashed()
    ensures Violation([]).None? && TotalBytes([]) == 0 && Serialise([]) == []
  {
  }

  lemma OneMore(sorted: seq<Entry>, i: nat)
    requires i < |sorted| && Violation(sorted[..i]).None?
    ensures sorted[..i + 1] == sorted[..i] + [sorted[i]]
    ensures TotalBytes(sorted[..i + 1]) == TotalBytes(sorted[..i]) + |sorted[i].content|
    ensures Violation(sorted[..i + 1])
            == if |sorted[i].content| > MAX_FILE_BYTES then Some(FileTooLarge)
               else if TotalBytes(sorted[..i + 1]) > MAX_TOTAL_BYTES then Some(TreeTooLarge)
               else if |sorted[i].path| >= Pow256(4) then Some(PathTooLong)
               else None
  {
    hide Pow256;
    assert sorted[..i + 1][..i] == sorted[..i];
  }

  /** Which lists of files have a checksum, in plain numbers. */
  lemma {:induction false} NoViolationExactly(sorted: seq<Entry>)
    ensures Violation(sorted).None?
            <==> && (forall e :: e in sorted ==> |e.content| <= 16_777_216 && |e.path| < 4_294_967_296)
                 && TotalBytes(sorted) <= 67_108_864
    ensures sorted != [] ==>
              TotalBytes(sorted) == TotalBytes(sorted[..|sorted| - 1]) + |sorted[|sorted| - 1].content|
  {
    hide Pow256;
    PathWidth();
    if sorted != [] {
      var init, last := sorted[..|sorted| - 1], sorted[|sorted| - 1];
      assert sorted == init + [last];
      NoViolationExactly(init);
    }
  }

  lemma PathWidth()
    ensures Pow256(4) == 4_294_967_296
  {
    assert Pow256(1) == 256 && Pow256(2) == 65_536 && Pow256(3) == 16_777_216;
  }

  method TreeChecksum(listing: seq<Entry>) returns (r: Result<Bytes, TreeError>)
    ensures listing == [] || |listing| > 512 ==> r == Failure(FileCountInvalid)
    ensures 0 < |listing| <= 512 ==>
              var sorted := SortedByPath(listing);
              && (Violation(sorted).Some? ==> r == Failure(Violation(sorted).value))
              && (Violation(sorted).None? ==>
                    (forall e :: e in sorted ==> Encodable(e)) && r == Success(Serialise(sorted)))
  {
    hide Pow256, EncodeEntry, Encodable, Violation, TotalBytes, Serialise, SortedByPath;
    if listing == [] || |listing| > MAX_FILES {
      return Failure(FileCountInvalid);
    }
    var sorted := SortedByPath(listing);
    var total := 0;
    var digest: Bytes := [];
    var i := 0;
    NothingHashed();
    assert sorted[..0] == [];
    while i < |sorted|
      invariant 0 <= i <= |sorted| && Violation(sorted[..i]).None? && total == TotalBytes(sorted[..i])
      invariant (forall e :: e in sorted[..i] ==> Encodable(e)) && digest == Serialise(sorted[..i])
    {
      var e := sorted[i];
      OneMore(sorted, i);
      if |e.content| > MAX_FILE_BYTES {
        ViolationStays(sorted, i + 1);
        return Failure(FileTooLarge);
      }
      total := total + |e.content|;
      if total > MAX_TOTAL_BYTES {
        ViolationStays(sorted, i + 1);
        return Failure(TreeTooLarge);
      }
      if |e.path| >= Pow256(4) {
        ViolationStays(sorted, i + 1);
        return Failure(PathTooLong);
      }
      NoViolationIsEncodable(sorted[..i + 1]);
      SerialiseMore(sorted[..i], e);
      digest := digest + EncodeEntry(e);
      i := i + 1;
    }
    assert sorted[..i] == sorted;
    return Success(digest);
  }

  lemma {:induction false} ViolationStays(sorted: seq<Entry>, n: nat)
    requires n <= |sorted| && Violation(sorted[..n]).Some?
    ensures Violation(sorted) == Violation(sorted[..n])
  {
    if n == |sorted| {
      assert sorted[..n] == sorted;
    } else {
      var init := sorted[..|sorted| - 1];
      assert init[..n] == sorted[..n];
      ViolationStays(init, n);
    }
  }

  /** Two accepted trees have the same checksum exactly when they hold the same files with the same
      bytes, in whatever order they were listed. */
  lemma ChecksumIdentifiesTree(a: seq<Entry>, b: seq<Entry>)
    requires DistinctPaths(a) && DistinctPaths(b)
    requires Violation(SortedByPath(a)).None? && Violation(SortedByPath(b)).None?
    ensures (forall e :: e in SortedByPath(a) ==> Encodable(e)) && (forall e :: e in SortedByPath(b) ==> Encodable(e))
    ensures Serialise(SortedByPath(a)) == Serialise(SortedByPath(b)) <==> multiset(a) == multiset(b)
  {
    NoViolationIsEncodable(SortedByPath(a));
    NoViolationIsEncodable(SortedByPath(b));
    SerialisedReadsBack(SortedByPath(a));
    SerialisedReadsBack(SortedByPath(b));
    if multiset(a) == multiset(b) {
      SortedIsUnique(a, b);
    }
  }
}
