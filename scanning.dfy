/**
 * `fsEntry.scan`: lists an entry's directory, drops the ignored items,
 * recurses into directories and sorts the children by name.
 *
 * `ScanOf`, `Added` and `Built` say what one call leaves behind; the method
 * `Scan` is the loop the program runs, proved to leave exactly that.
 */
module Scanning {
  import opened Outcomes
  import opened Paths
  import opened Entries
  import opened FileSystem

  /** The error `os.ReadDir` returns for the entry's own path. */
  datatype ScanError = ReadDirFailed(path: string)

  /** The `fsEntry` the loop creates for listed item `c` of `e`'s directory. */
  function NewChild(e: Entry, c: Disk): Entry
  {
    Entry(c.name, Join(e.path, c.name), Join(e.relative, c.name), false, [])
  }

  /** The ignore test: the path relative to the root, or the bare name. */
  predicate Skipped(e: Entry, c: Disk, ignore: string -> bool)
  {
    ignore(Join(e.relative, c.name)) || ignore(c.name)
  }

  /** What `e.scan(ignore)` does when `e.path` holds `d`: an error and `e`
      untouched when the listing fails, otherwise `e` with the kept items
      appended and all children sorted by name. */
  function ScanOf(e: Entry, d: Disk, ignore: string -> bool): (r: Result<Entry, ScanError>)
    ensures r.Err? <==> !Listable(d)
    ensures r.Ok? ==> r.value.(entries := e.entries) == e
    ensures r.Ok? ==> SortedByName(r.value.entries)
    ensures r.Ok? ==> multiset(r.value.entries) == multiset(e.entries + Added(e, d, 0, ignore))
    decreases d, 2
  {
    if !Listable(d) then Err(ReadDirFailed(e.path))
    else Ok(e.(entries := SortByName(e.entries + Added(e, d, 0, ignore))))
  }

  /** The children the loop appends for listed items `i..` of `d`, in
      listing order. */
  function Added(e: Entry, d: Disk, i: nat, ignore: string -> bool): seq<Entry>
    requires i <= |d.children|
    decreases d, 1, |d.children| - i
  {
    if i == |d.children| then []
    else
      var c := d.children[i];
      (if Skipped(e, c, ignore) then [] else [Built(e, c, ignore)]) + Added(e, d, i + 1, ignore)
  }

  /** The entry `e.scan(ignore)` leaves, whether or not it fails. */
  function Scanned(e: Entry, d: Disk, ignore: string -> bool): (r: Entry)
    ensures r.(entries := e.entries) == e
    ensures !Listable(d) ==> r == e
    decreases d, 3
  {
    match ScanOf(e, d, ignore)
    case Ok(r) => r
    case Err(_) => e
  }

  /** The child for a kept item `c`: a file as created; a directory marked
      as such and scanned, with its scan's error dropped. */
  function Built(e: Entry, c: Disk, ignore: string -> bool): (r: Entry)
    ensures r.name == c.name && r.isDir == c.isDir
    ensures r.relative == Join(e.relative, c.name) && r.path == Join(e.path, c.name)
    ensures !Listable(c) ==> r.entries == []
    decreases c, 4
  {
    var n := NewChild(e, c);
    if c.isDir then Scanned(n.(isDir := true), c, ignore) else n
  }

  /** `e.scan(ignore)` on the entry `e` whose path holds `d`; `r` is the
      entry afterwards. */
  method Scan(e: Entry, d: Disk, ignore: string -> bool) returns (r: Entry, err: Option<ScanError>)
    ensures err.Some? <==> !Listable(d)
    ensures err.Some? ==> r == e && err.value == ReadDirFailed(e.path)
    ensures err.None? ==> ScanOf(e, d, ignore) == Ok(r)
    decreases d
  {
    if !Listable(d) {
      return e, Some(ReadDirFailed(e.path));
    }
    var entries := e.entries;
    var i := 0;
    while i < |d.children|
      invariant i <= |d.children|
      invariant entries + Added(e, d, i, ignore) == e.entries + Added(e, d, 0, ignore)
    {
      var c := d.children[i];
      var name := c.name;
      var fullPath := Join(e.path, name);
      var relPath := Join(e.relative, name);
      if ignore(relPath) || ignore(name) {
        assert Added(e, d, i, ignore) == Added(e, d, i + 1, ignore);
        i := i + 1;
        continue;
      }
      var newEntry := Entry(name, fullPath, relPath, false, []);
      if c.isDir {
        newEntry := newEntry.(isDir := true);
        // the sub-scan's error is dropped; on error the entry keeps no children
        var subErr;
        newEntry, subErr := Scan(newEntry, c, ignore);
      }
      assert newEntry == Built(e, c, ignore);
      assert Added(e, d, i, ignore) == [newEntry] + Added(e, d, i + 1, ignore);
      entries := entries + [newEntry];
      i := i + 1;
    }
    assert Added(e, d, i, ignore) == [];
    assert entries == e.entries + Added(e, d, 0, ignore) by {
      assert entries + [] == entries;
    }
    r := e.(entries := SortByName(entries));
    err := None;
  }

  /** No child anywhere below `t` has an ignored relative path or name. */
  predicate Unignored(t: Entry, ignore: string -> bool)
  {
    forall k :: 0 <= k < |t.entries| ==>
      && !ignore(t.entries[k].relative) && !ignore(t.entries[k].name)
      && Unignored(t.entries[k], ignore)
  }

  /** What holds of every child the loop appends: it sits at its parent's
      paths joined with its name, it passed the ignore test, and below it
      every directory is sorted, composed, pruned and only directories have
      children. */
  predicate WellBuilt(e: Entry, x: Entry, ignore: string -> bool)
  {
    && x.relative == Join(e.relative, x.name) && x.path == Join(e.path, x.name)
    && !ignore(x.relative) && !ignore(x.name)
    && AllSorted(x) && Composed(x) && FilesAreLeaves(x) && Unignored(x, ignore)
  }

  /** A scan keeps a tree composed, with children only under directories,
      and, where it already was, sorted and pruned: every child's
      `relative` and `path` are its parent's joined with its name; files
      have no children; every directory it leaves has its children sorted
      by name; and no child has an ignored relative path or name, so no
      ignored directory's contents are ever reached. */
  lemma {:induction false} ScanInvariants(e: Entry, d: Disk, ignore: string -> bool)
    requires e.isDir && Composed(e) && FilesAreLeaves(e)
    ensures ScanOf(e, d, ignore).Ok? ==>
              Composed(ScanOf(e, d, ignore).value) && FilesAreLeaves(ScanOf(e, d, ignore).value)
    ensures ScanOf(e, d, ignore).Ok? && Unignored(e, ignore) ==>
              Unignored(ScanOf(e, d, ignore).value, ignore)
    ensures ScanOf(e, d, ignore).Ok? && (forall k :: 0 <= k < |e.entries| ==> AllSorted(e.entries[k])) ==>
              AllSorted(ScanOf(e, d, ignore).value)
    decreases d, 2
  {
    if Listable(d) {
      ScanChildren(e, d, ignore);
    }
  }

  /** Each child a scan leaves was there before or was appended, well
      built. */
  lemma {:induction false} ScanChildren(e: Entry, d: Disk, ignore: string -> bool)
    requires Listable(d)
    ensures var r := ScanOf(e, d, ignore).value;
            forall k :: 0 <= k < |r.entries| ==>
              WellBuilt(e, r.entries[k], ignore) || r.entries[k] in e.entries
    decreases d, 1
  {
    var r := ScanOf(e, d, ignore).value;
    var all := e.entries + Added(e, d, 0, ignore);
    AddedInvariants(e, d, 0, ignore);
    forall k | 0 <= k < |r.entries|
      ensures WellBuilt(e, r.entries[k], ignore) || r.entries[k] in e.entries
    {
      assert r.entries[k] in multiset(all);
    }
  }

  lemma {:induction false} AddedInvariants(e: Entry, d: Disk, i: nat, ignore: string -> bool)
    requires i <= |d.children|
    ensures forall x :: x in Added(e, d, i, ignore) ==> WellBuilt(e, x, ignore)
    decreases d, 1, |d.children| - i
  {
    if i < |d.children| {
      var c := d.children[i];
      AddedInvariants(e, d, i + 1, ignore);
      if !Skipped(e, c, ignore) {
        BuiltInvariants(e, c, ignore);
      }
    }
  }

  lemma {:induction false} BuiltInvariants(e: Entry, c: Disk, ignore: string -> bool)
    ensures AllSorted(Built(e, c, ignore)) && Composed(Built(e, c, ignore))
    ensures FilesAreLeaves(Built(e, c, ignore)) && Unignored(Built(e, c, ignore), ignore)
    decreases c, 4
  {
    if c.isDir {
      var m := NewChild(e, c).(isDir := true);
      ScanInvariants(m, c, ignore);
      assert Built(e, c, ignore) == Scanned(m, c, ignore);
    }
  }

  /** Each child the loop appends is built from a kept item. */
  lemma {:induction false} AddedFromKept(e: Entry, d: Disk, i: nat, ignore: string -> bool)
    requires i <= |d.children|
    ensures forall x :: x in Added(e, d, i, ignore) ==>
              exists j :: i <= j < |d.children| && !Skipped(e, d.children[j], ignore) &&
                          x == Built(e, d.children[j], ignore)
    decreases |d.children| - i
  {
    if i < |d.children| {
      AddedFromKept(e, d, i + 1, ignore);
      AddedStep(e, d, i, ignore);
    }
  }

  /** One step of the loop: item `i` is kept or skipped. */
  lemma AddedStep(e: Entry, d: Disk, i: nat, ignore: string -> bool)
    requires i < |d.children|
    ensures Added(e, d, i, ignore) ==
            if Skipped(e, d.children[i], ignore) then Added(e, d, i + 1, ignore)
            else [Built(e, d.children[i], ignore)] + Added(e, d, i + 1, ignore)
  {
  }

  /** Each kept item is built into a child. */
  lemma {:induction false} KeptInAdded(e: Entry, d: Disk, i: nat, ignore: string -> bool)
    requires i <= |d.children|
    ensures forall j :: i <= j < |d.children| && !Skipped(e, d.children[j], ignore) ==>
              Built(e, d.children[j], ignore) in Added(e, d, i, ignore)
    decreases |d.children| - i
  {
    if i < |d.children| {
      KeptInAdded(e, d, i + 1, ignore);
      AddedStep(e, d, i, ignore);
      var rest := Added(e, d, i + 1, ignore);
      var all := Added(e, d, i, ignore);
      forall j | i <= j < |d.children| && !Skipped(e, d.children[j], ignore)
        ensures Built(e, d.children[j], ignore) in all
      {
        var b := Built(e, d.children[j], ignore);
        if Skipped(e, d.children[i], ignore) {
          assert all == rest;
        } else if j == i {
          assert all[0] == b;
        } else {
          assert b in rest && all == [Built(e, d.children[i], ignore)] + rest;
        }
      }
    }
  }

  /** With nothing skipped, every item is kept. */
  lemma {:induction false} AddedAll(e: Entry, d: Disk, i: nat, ignore: string -> bool)
    requires i <= |d.children|
    requires forall j :: i <= j < |d.children| ==> !Skipped(e, d.children[j], ignore)
    ensures |Added(e, d, i, ignore)| == |d.children| - i
    decreases |d.children| - i
  {
    if i < |d.children| {
      AddedAll(e, d, i + 1, ignore);
      AddedStep(e, d, i, ignore);
    }
  }

  /** Distinct names in the listing give distinct names to the children. */
  lemma {:induction false} AddedDistinct(e: Entry, d: Disk, i: nat, ignore: string -> bool)
    requires i <= |d.children|
    requires ListedOnce(d)
    ensures DistinctNames(Added(e, d, i, ignore))
    decreases |d.children| - i
  {
    if i < |d.children| {
      AddedDistinct(e, d, i + 1, ignore);
      StepDistinct(e, d, i, ignore);
    }
  }

  /** Item `i` in front of distinct later children keeps them distinct:
      skipped it adds nothing, kept it adds a name no later item has. */
  lemma StepDistinct(e: Entry, d: Disk, i: nat, ignore: string -> bool)
    requires i < |d.children|
    requires ListedOnce(d)
    requires DistinctNames(Added(e, d, i + 1, ignore))
    ensures DistinctNames(Added(e, d, i, ignore))
  {
    var c := d.children[i];
    var rest := Added(e, d, i + 1, ignore);
    if Skipped(e, c, ignore) {
      assert Added(e, d, i, ignore) == [] + rest;
    } else {
      LaterNamesDiffer(d, i);
      NameNotAdded(e, d, i + 1, ignore, c.name);
      DistinctCons(Built(e, c, ignore), rest);
      assert Added(e, d, i, ignore) == [Built(e, c, ignore)] + rest;
    }
  }

  /** The items listed after item `i` have other names. */
  lemma LaterNamesDiffer(d: Disk, i: nat)
    requires ListedOnce(d) && i < |d.children|
    ensures forall j :: i + 1 <= j < |d.children| ==> d.children[j].name != d.children[i].name
  {
  }

  /** A name no listed item from `i` on has is no appended child's name. */
  lemma {:induction false} NameNotAdded(e: Entry, d: Disk, i: nat, ignore: string -> bool, name: string)
    requires i <= |d.children|
    requires forall j :: i <= j < |d.children| ==> d.children[j].name != name
    ensures forall k :: 0 <= k < |Added(e, d, i, ignore)| ==> Added(e, d, i, ignore)[k].name != name
    decreases |d.children| - i
  {
    if i < |d.children| {
      NameNotAdded(e, d, i + 1, ignore, name);
      AddedStep(e, d, i, ignore);
    }
  }

  /** An entry whose name no other entry has keeps the names distinct. */
  lemma DistinctCons(x: Entry, s: seq<Entry>)
    requires DistinctNames(s)
    requires forall k :: 0 <= k < |s| ==> s[k].name != x.name
    ensures DistinctNames([x] + s)
  {
    var a := [x] + s;
    forall p, q | 0 <= p < q < |a|
      ensures a[p].name != a[q].name
    {
      assert a[q] == s[q - 1];
      if p > 0 {
        assert a[p] == s[p - 1];
      }
    }
  }

  /** Scanning a fresh entry (as `scanAll` and the scan's own recursion do)
      keeps exactly the listed items that pass the ignore test: each kept
      item becomes one child as `Built` describes (its name, kind, paths,
      and no children when it is a file or its listing fails), each
      skipped item leaves no child of its name, nothing else is added, and
      no two children share a name. */
  lemma ScanMatchesListing(e: Entry, d: Disk, ignore: string -> bool)
    requires WellFormed(d) && Listable(d) && e.entries == []
    ensures DistinctNames(ScanOf(e, d, ignore).value.entries)
    ensures forall j :: 0 <= j < |d.children| && !Skipped(e, d.children[j], ignore) ==>
              Built(e, d.children[j], ignore) in ScanOf(e, d, ignore).value.entries
    ensures forall x :: x in ScanOf(e, d, ignore).value.entries ==>
              exists j :: 0 <= j < |d.children| && !Skipped(e, d.children[j], ignore) &&
                          x == Built(e, d.children[j], ignore)
    ensures forall j, x :: 0 <= j < |d.children| && Skipped(e, d.children[j], ignore) &&
                           x in ScanOf(e, d, ignore).value.entries ==>
              x.name != d.children[j].name
  {
    ScanDistinct(e, d, ignore);
    ScanKeeps(e, d, ignore);
    ScanOnlyKept(e, d, ignore);
    ScanDropsSkipped(e, d, ignore);
  }

  lemma ScanDistinct(e: Entry, d: Disk, ignore: string -> bool)
    requires WellFormed(d) && Listable(d) && e.entries == []
    ensures DistinctNames(ScanOf(e, d, ignore).value.entries)
  {
    FreshScanPermutes(e, d, ignore);
    AddedDistinct(e, d, 0, ignore);
    DistinctNamesPermutation(Added(e, d, 0, ignore), ScanOf(e, d, ignore).value.entries);
  }

  lemma ScanKeeps(e: Entry, d: Disk, ignore: string -> bool)
    requires Listable(d) && e.entries == []
    ensures forall j :: 0 <= j < |d.children| && !Skipped(e, d.children[j], ignore) ==>
              Built(e, d.children[j], ignore) in ScanOf(e, d, ignore).value.entries
  {
    var r := ScanOf(e, d, ignore).value.entries;
    var a := Added(e, d, 0, ignore);
    FreshScanPermutes(e, d, ignore);
    SameMembers(a, r);
    KeptInAdded(e, d, 0, ignore);
  }

  lemma ScanOnlyKept(e: Entry, d: Disk, ignore: string -> bool)
    requires Listable(d) && e.entries == []
    ensures forall x :: x in ScanOf(e, d, ignore).value.entries ==>
              exists j :: 0 <= j < |d.children| && !Skipped(e, d.children[j], ignore) &&
                          x == Built(e, d.children[j], ignore)
  {
    var r := ScanOf(e, d, ignore).value.entries;
    var a := Added(e, d, 0, ignore);
    FreshScanPermutes(e, d, ignore);
    SameMembers(a, r);
    AddedFromKept(e, d, 0, ignore);
  }

  lemma ScanDropsSkipped(e: Entry, d: Disk, ignore: string -> bool)
    requires WellFormed(d) && Listable(d) && e.entries == []
    ensures forall j, x :: 0 <= j < |d.children| && Skipped(e, d.children[j], ignore) &&
                           x in ScanOf(e, d, ignore).value.entries ==>
              x.name != d.children[j].name
  {
    var r := ScanOf(e, d, ignore).value.entries;
    ScanOnlyKept(e, d, ignore);
    forall j, x | 0 <= j < |d.children| && Skipped(e, d.children[j], ignore) && x in r
      ensures x.name != d.children[j].name
    {
      var j' :| 0 <= j' < |d.children| && !Skipped(e, d.children[j'], ignore) &&
                x == Built(e, d.children[j'], ignore);
      assert j' != j;
    }
  }

  /** Permutations have the same members. */
  lemma SameMembers(a: seq<Entry>, b: seq<Entry>)
    requires multiset(a) == multiset(b)
    ensures forall x :: x in a <==> x in b
  {
    forall x
      ensures x in a <==> x in b
    {
      assert x in a <==> x in multiset(a);
      assert x in b <==> x in multiset(b);
    }
  }

  /** A fresh entry's scanned children are a permutation of the appended
      ones. */
  lemma FreshScanPermutes(e: Entry, d: Disk, ignore: string -> bool)
    requires Listable(d) && e.entries == []
    ensures multiset(ScanOf(e, d, ignore).value.entries) == multiset(Added(e, d, 0, ignore))
  {
    assert e.entries + Added(e, d, 0, ignore) == Added(e, d, 0, ignore);
  }

  /** `t` holds the same tree as the file system below `d`: one child per
      listed item, of the same name and kind, all the way down, and no
      children where listing fails. */
  predicate Mirrors(t: Entry, d: Disk)
    decreases d
  {
    if !Listable(d) then t.entries == []
    else
      && |t.entries| == |d.children|
      && forall j :: 0 <= j < |d.children| ==>
           exists k :: 0 <= k < |t.entries| && t.entries[k].name == d.children[j].name &&
                       t.entries[k].isDir == d.children[j].isDir && Mirrors(t.entries[k], d.children[j])
  }

  /** With an ignore test that matches nothing, scanning a fresh entry
      mirrors the listed file system one to one (a failing listing leaves
      the entry without children). */
  lemma {:induction false} ScanMirrors(e: Entry, d: Disk, ignore: string -> bool)
    requires WellFormed(d) && e.entries == []
    requires forall s :: !ignore(s)
    ensures Mirrors(Scanned(e, d, ignore), d)
    decreases d, 3
  {
    if Listable(d) {
      var r := ScanOf(e, d, ignore).value;
      assert Scanned(e, d, ignore) == r;
      ScanSize(e, d, ignore);
      ScanKeeps(e, d, ignore);
      forall j | 0 <= j < |d.children|
        ensures exists k :: 0 <= k < |r.entries| && r.entries[k].name == d.children[j].name &&
                            r.entries[k].isDir == d.children[j].isDir &&
                            Mirrors(r.entries[k], d.children[j])
      {
        var c := d.children[j];
        assert !Skipped(e, c, ignore);
        var k :| 0 <= k < |r.entries| && r.entries[k] == Built(e, c, ignore);
        BuiltMirrors(e, c, ignore);
      }
    }
  }

  /** With nothing skipped the scan has one child per listed item. */
  lemma ScanSize(e: Entry, d: Disk, ignore: string -> bool)
    requires Listable(d) && e.entries == []
    requires forall s :: !ignore(s)
    ensures |ScanOf(e, d, ignore).value.entries| == |d.children|
  {
    var a := Added(e, d, 0, ignore);
    var r := ScanOf(e, d, ignore).value.entries;
    FreshScanPermutes(e, d, ignore);
    AddedAll(e, d, 0, ignore);
    assert |r| == |multiset(r)| == |multiset(a)| == |a|;
  }

  lemma {:induction false} BuiltMirrors(e: Entry, c: Disk, ignore: string -> bool)
    requires WellFormed(c)
    requires forall s :: !ignore(s)
    ensures Mirrors(Built(e, c, ignore), c)
    decreases c, 4
  {
    if c.isDir {
      ScanMirrors(NewChild(e, c).(isDir := true), c, ignore);
    }
  }
}
