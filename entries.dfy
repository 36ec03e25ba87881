/**
 * `fsEntry`, one node of the project tree, and `sortEntries`, which orders a
 * directory's children by name.
 */
module Entries {
  import opened Text
  import opened Paths

  /** An `fsEntry`: the final path component, the path on disk, the path
      relative to the project root, whether it is a directory, and the
      children in their stored order. */
  datatype Entry = Entry(name: string, path: string, relative: string, isDir: bool, entries: seq<Entry>)

  /** Ascending by name in Go's string order (equal names may come in any
      order). */
  predicate SortedByName(s: seq<Entry>)
  {
    forall i, j :: 0 <= i < j < |s| ==> Leq(s[i].name, s[j].name)
  }

  /** No two entries share a name, as in one directory of a file system. */
  predicate DistinctNames(s: seq<Entry>)
  {
    forall i, j :: 0 <= i < j < |s| ==> s[i].name != s[j].name
  }

  /** Inserts `x` into a sorted sequence after the entries whose names are
      smaller. */
  function Insert(x: Entry, s: seq<Entry>): (r: seq<Entry>)
    requires SortedByName(s)
    ensures SortedByName(r)
    ensures multiset(r) == multiset(s) + multiset{x}
  {
    if s == [] then [x]
    else if Less(s[0].name, x.name) then
      var t := Insert(x, s[1..]);
      assert s == [s[0]] + s[1..];
      forall j | 0 <= j < |t|
        ensures Leq(s[0].name, t[j].name)
      {
        assert t[j] in multiset(s[1..]) + multiset{x};
        if t[j] == x {
          LessAsymmetric(s[0].name, x.name);
        } else {
          assert t[j] in s[1..];
        }
      }
      [s[0]] + t
    else
      forall j | 0 <= j < |s|
        ensures Leq(x.name, s[j].name)
      {
        if j > 0 {
          LeqTransitive(x.name, s[0].name, s[j].name);
        }
      }
      [x] + s
  }

  /** `sortEntries`: the children ordered ascending by name, a permutation
      of the children it was given. */
  function SortByName(s: seq<Entry>): (r: seq<Entry>)
    ensures SortedByName(r)
    ensures multiset(r) == multiset(s)
  {
    if s == [] then []
    else
      assert s == [s[0]] + s[1..];
      Insert(s[0], SortByName(s[1..]))
  }

  /** With distinct names no entry occurs twice. */
  lemma {:induction false} DistinctOnce(a: seq<Entry>, x: Entry)
    requires DistinctNames(a)
    ensures multiset(a)[x] <= 1
  {
    if a != [] {
      assert a == [a[0]] + a[1..];
      DistinctOnce(a[1..], x);
      if a[0] == x {
        assert x !in a[1..];
      }
    }
  }

  lemma OccursTwice(b: seq<Entry>, i: nat, j: nat)
    requires i < j < |b| && b[i] == b[j]
    ensures multiset(b)[b[i]] >= 2
  {
    assert b == b[..j] + b[j..];
    assert b[i] in b[..j];
    assert b[j..][0] == b[j];
  }

  /** A permutation of entries with distinct names has distinct names. */
  lemma DistinctNamesPermutation(a: seq<Entry>, b: seq<Entry>)
    requires multiset(a) == multiset(b)
    requires DistinctNames(a)
    ensures DistinctNames(b)
  {
    forall i, j | 0 <= i < j < |b|
      ensures b[i].name != b[j].name
    {
      if b[i] == b[j] {
        DistinctOnce(a, b[i]);
        OccursTwice(b, i, j);
      } else {
        assert b[i] in multiset(a) && b[j] in multiset(a);
        var k :| 0 <= k < |a| && a[k] == b[i];
        var l :| 0 <= l < |a| && a[l] == b[j];
        assert k != l;
        assert a[k].name != a[l].name;
      }
    }
  }

  /** Sorting is determined by the names alone when they are distinct: any
      ordering by name that is a permutation of the children is the one
      `SortByName` gives.  So the model's choice of sorting algorithm for
      `sort.Slice` (which the program does not fix) changes nothing. */
  lemma {:induction false} SortedPermutationUnique(s: seq<Entry>, r: seq<Entry>)
    requires DistinctNames(s)
    requires SortedByName(r) && multiset(r) == multiset(s)
    ensures r == SortByName(s)
    decreases |s|
  {
    var t := SortByName(s);
    DistinctNamesPermutation(s, r);
    DistinctNamesPermutation(s, t);
    SortedSameElements(r, t);
  }

  lemma {:induction false} SortedSameElements(r: seq<Entry>, t: seq<Entry>)
    requires SortedByName(r) && SortedByName(t)
    requires DistinctNames(r) && multiset(r) == multiset(t)
    ensures r == t
    decreases |r|
  {
    if r != [] {
      SameHead(r, t);
      DropHead(r, t);
      SortedSameElements(r[1..], t[1..]);
    }
  }

  /** Two sorted permutations with distinct names start alike. */
  lemma SameHead(r: seq<Entry>, t: seq<Entry>)
    requires SortedByName(r) && SortedByName(t)
    requires DistinctNames(r) && multiset(r) == multiset(t)
    requires r != []
    ensures t != [] && r[0] == t[0]
  {
    assert r[0] in multiset(t);
    assert t != [];
    assert t[0] in multiset(r);
    var k :| 0 <= k < |t| && t[k] == r[0];
    var l :| 0 <= l < |r| && r[l] == t[0];
    assert Leq(t[0].name, r[0].name) by {
      if k == 0 { LessIrreflexive(r[0].name); }
    }
    assert Leq(r[0].name, t[0].name) by {
      if l == 0 { LessIrreflexive(r[0].name); }
    }
    LeqAntisymmetric(r[0].name, t[0].name);
  }

  /** Dropping equal heads keeps the permutation, the order and the
      distinct names. */
  lemma DropHead(r: seq<Entry>, t: seq<Entry>)
    requires SortedByName(r) && SortedByName(t)
    requires DistinctNames(r) && multiset(r) == multiset(t)
    requires r != [] && t != [] && r[0] == t[0]
    ensures SortedByName(r[1..]) && SortedByName(t[1..])
    ensures DistinctNames(r[1..]) && multiset(r[1..]) == multiset(t[1..])
  {
    DropHeadCount(r);
    DropHeadCount(t);
  }

  lemma DropHeadCount(r: seq<Entry>)
    requires r != []
    ensures multiset(r[1..]) == multiset(r) - multiset{r[0]}
  {
    assert r == [r[0]] + r[1..];
  }

  /** Every directory's children are sorted by name, all the way down. */
  predicate AllSorted(t: Entry)
  {
    SortedByName(t.entries) && forall i :: 0 <= i < |t.entries| ==> AllSorted(t.entries[i])
  }

  /** Every child's `relative` and `path` are its parent's with its own name
      joined on, all the way down. */
  predicate Composed(t: Entry)
  {
    forall i :: 0 <= i < |t.entries| ==>
      && t.entries[i].relative == Join(t.relative, t.entries[i].name)
      && t.entries[i].path == Join(t.path, t.entries[i].name)
      && Composed(t.entries[i])
  }

  /** Only directories have children. */
  predicate FilesAreLeaves(t: Entry)
  {
    (!t.isDir ==> t.entries == []) &&
    forall i :: 0 <= i < |t.entries| ==> FilesAreLeaves(t.entries[i])
  }
}
