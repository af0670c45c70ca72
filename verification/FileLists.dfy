/** Lists of files, and their one order by path: `sorted(files, key=path)`. */
module FileLists {
  type byte = x: int | 0 <= x < 256

  type Bytes = seq<byte>

  /** A regular file: its path below the root, in UTF-8, and its bytes. */
  datatype Entry = Entry(path: Bytes, content: Bytes)

  predicate Less(a: Bytes, b: Bytes) {
    if b == [] then false
    else if a == [] then true
    else a[0] < b[0] || (a[0] == b[0] && Less(a[1..], b[1..]))
  }

  lemma {:induction false} LessIsTotal(a: Bytes, b: Bytes)
    ensures Less(a, b) || Less(b, a) || a == b
    ensures !(Less(a, b) && Less(b, a))
  {
    if a != [] && b != [] {
      LessIsTotal(a[1..], b[1..]);
      assert a == [a[0]] + a[1..] && b == [b[0]] + b[1..];
    }
  }

  lemma {:induction false} LessIsTransitive(a: Bytes, b: Bytes, c: Bytes)
    requires Less(a, b) && Less(b, c)
    ensures Less(a, c)
  {
    if a == [] {
      assert c != [];
    } else if a[0] == b[0] == c[0] {
      LessIsTransitive(a[1..], b[1..], c[1..]);
    } else {
      assert a[0] <= b[0] <= c[0] && a[0] < c[0];
    }
  }

  function Insert(e: Entry, sorted: seq<Entry>): (r: seq<Entry>)
    ensures multiset(r) == multiset{e} + multiset(sorted)
  {
    if sorted == [] || Less(e.path, sorted[0].path) then [e] + sorted
    else
      assert sorted == [sorted[0]] + sorted[1..];
      [sorted[0]] + Insert(e, sorted[1..])
  }

  /** `sorted(files, key=path)`. */
  function SortedByPath(listing: seq<Entry>): (r: seq<Entry>)
    ensures multiset(r) == multiset(listing)
  {
    if listing == [] then []
    else
      assert listing == [listing[0]] + listing[1..];
      Insert(listing[0], SortedByPath(listing[1..]))
  }

  ghost predicate Ascending(s: seq<Entry>) {
    forall i, j :: 0 <= i < j < |s| ==> Less(s[i].path, s[j].path)
  }

  ghost predicate DistinctPaths(s: seq<Entry>) {
    forall i, j :: 0 <= i < j < |s| ==> s[i].path != s[j].path
  }

  /** In path order, files with one path side by side. */
  ghost predicate Ordered(s: seq<Entry>) {
    forall i, j :: 0 <= i < j < |s| ==> !Less(s[j].path, s[i].path)
  }

  /** Two files with one path are one file. */
  ghost predicate Consistent(s: seq<Entry>) {
    forall x, y | x in s && y in s && x.path == y.path :: x == y
  }

  lemma NotLessIsTransitive(a: Bytes, b: Bytes, c: Bytes)
    requires !Less(b, a) && !Less(c, b)
    ensures !Less(c, a)
  {
    LessIsTotal(a, b);
    LessIsTotal(b, c);
    if Less(c, a) {
      if a == b || b == c {
      } else {
        LessIsTransitive(a, b, c);
        LessIsTotal(a, c);
      }
    }
  }

  lemma {:induction false} InsertKeepsOrder(e: Entry, sorted: seq<Entry>)
    requires Ordered(sorted)
    ensures Ordered(Insert(e, sorted))
  {
    hide Less;
    if sorted != [] {
      var first := sorted[0];
      LessIsTotal(e.path, first.path);
      if Less(e.path, first.path) {
        forall i | 0 <= i < |sorted| ensures !Less(sorted[i].path, e.path) {
          if i > 0 {
            NotLessIsTransitive(e.path, first.path, sorted[i].path);
          }
        }
      } else {
        assert sorted == [first] + sorted[1..];
        InsertKeepsOrder(e, sorted[1..]);
        forall x | x in Insert(e, sorted[1..]) ensures !Less(x.path, first.path) {
          assert x in multiset{e} + multiset(sorted[1..]);
          if x != e {
            assert x in sorted[1..];
          }
        }
      }
    }
  }

  lemma {:induction false} SortedIsOrdered(listing: seq<Entry>)
    ensures Ordered(SortedByPath(listing))
  {
    hide Less, Ordered;
    if listing == [] {
      NothingIsOrdered();
    } else {
      SortedIsOrdered(listing[1..]);
      InsertKeepsOrder(listing[0], SortedByPath(listing[1..]));
    }
  }

  lemma NothingIsOrdered()
    ensures Ordered([])
  {
  }

  /** With distinct paths the order is strict. */
  lemma SortedAscends(listing: seq<Entry>)
    requires DistinctPaths(listing)
    ensures Ascending(SortedByPath(listing))
  {
    hide Less;
    var sorted := SortedByPath(listing);
    SortedIsOrdered(listing);
    DistinctPermuted(listing, sorted);
    forall i, j | 0 <= i < j < |sorted| ensures Less(sorted[i].path, sorted[j].path) {
      LessIsTotal(sorted[i].path, sorted[j].path);
    }
  }

  lemma SameHead(a: seq<Entry>, b: seq<Entry>)
    requires Ordered(a) && Ordered(b) && Consistent(a) && multiset(a) == multiset(b) && a != [] && b != []
    ensures a[0] == b[0]
  {
    hide Less;
    assert a[0] in multiset(b) && b[0] in multiset(a);
    var i :| 0 <= i < |b| && b[i] == a[0];
    var j :| 0 <= j < |a| && a[j] == b[0];
    LessIsTotal(a[0].path, b[0].path);
  }

  lemma Tail(s: seq<Entry>)
    requires s != [] && Ordered(s) && Consistent(s)
    ensures Ordered(s[1..]) && Consistent(s[1..]) && multiset(s[1..]) == multiset(s) - multiset{s[0]}
  {
    hide Less;
    assert s == [s[0]] + s[1..];
  }

  lemma ConsistentPermuted(a: seq<Entry>, b: seq<Entry>)
    requires Consistent(a) && multiset(a) == multiset(b)
    ensures Consistent(b)
  {
    forall x, y | x in b && y in b && x.path == y.path ensures x == y {
      assert x in multiset(a) && y in multiset(a);
    }
  }

  /** There is one order by path of a consistent collection of files. */
  lemma {:induction false} OrderIsUnique(a: seq<Entry>, b: seq<Entry>)
    requires Ordered(a) && Ordered(b) && Consistent(a) && multiset(a) == multiset(b)
    ensures a == b
  {
    assert |a| == |multiset(a)| == |multiset(b)| == |b|;
    if a != [] {
      SameHead(a, b);
      ConsistentPermuted(a, b);
      Tail(a);
      Tail(b);
      hide Ordered, Consistent;
      OrderIsUnique(a[1..], b[1..]);
      assert a == [a[0]] + a[1..] && b == [b[0]] + b[1..];
    }
  }

  /** Sorting does not depend on the order in which the files are listed. */
  lemma SortedIsUnique(a: seq<Entry>, b: seq<Entry>)
    requires Consistent(a) && multiset(a) == multiset(b)
    ensures SortedByPath(a) == SortedByPath(b)
  {
    SortedIsOrdered(a);
    SortedIsOrdered(b);
    ConsistentPermuted(a, SortedByPath(a));
    OrderIsUnique(SortedByPath(a), SortedByPath(b));
  }

  lemma {:induction false} OnceInDistinct(s: seq<Entry>, e: Entry)
    requires DistinctPaths(s)
    ensures multiset(s)[e] == if e in s then 1 else 0
  {
    if s != [] {
      assert s == [s[0]] + s[1..];
      OnceInDistinct(s[1..], e);
    }
  }

  lemma {:induction false} DistinctPermuted(a: seq<Entry>, b: seq<Entry>)
    requires DistinctPaths(a) && multiset(a) == multiset(b)
    ensures DistinctPaths(b)
  {
    forall i, j | 0 <= i < j < |b| ensures b[i].path != b[j].path {
      assert b[i] in multiset(a) && b[j] in multiset(a);
      if b[i] == b[j] {
        TwiceCounted(b, i, j);
        OnceInDistinct(a, b[i]);
      }
    }
  }

  lemma TwiceCounted(s: seq<Entry>, i: nat, j: nat)
    requires i < j < |s| && s[i] == s[j]
    ensures multiset(s)[s[i]] >= 2
  {
    assert s == s[..i] + [s[i]] + s[i + 1..j] + [s[j]] + s[j + 1..];
  }

  function TotalBytes(entries: seq<Entry>): nat {
    if entries == [] then 0 else TotalBytes(entries[..|entries| - 1]) + |entries[|entries| - 1].content|
  }
}
