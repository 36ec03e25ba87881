/**
 * The `project`: the ignore patterns and the root of the tree, and the four
 * operations on it: `newProject`, `shouldIgnore`, `scanAll` and `addFiles`.
 */
module Projects {
  import opened Outcomes
  import opened Text
  import opened Paths
  import opened Glob
  import opened Entries
  import opened FileSystem
  import opened Scanning
  import opened Trees

  /** The name `newProject` gives the root entry. */
  const RootName := "<root>"

  /** The errors `newProject` and `addFiles` return. */
  datatype ProjectError =
    | InvalidPath(cause: string)
    | NotADirectory
    | NoFullPath(filename: string, cause: string)
    | NotRelative(filename: string, root: string)

  /** Some ignore pattern matches `s`; a malformed pattern matches
      nothing. */
  predicate Ignored(ignores: seq<string>, s: string)
  {
    exists p :: p in ignores && Matched(p, s)
  }

  /** The ignore test `scanAll` hands to the scan. */
  function IgnoreTest(ignores: seq<string>): (r: string -> bool)
    ensures forall s :: r(s) <==> exists k :: 0 <= k < |ignores| && Match(ignores[k], s) == Ok(true)
  {
    assert forall s :: Ignored(ignores, s) <==> exists k :: 0 <= k < |ignores| && Match(ignores[k], s) == Ok(true) by {
      forall s
        ensures Ignored(ignores, s) <==> exists k :: 0 <= k < |ignores| && Match(ignores[k], s) == Ok(true)
      {
        if Ignored(ignores, s) {
          var p :| p in ignores && Matched(p, s);
          var k :| 0 <= k < |ignores| && ignores[k] == p;
        }
        if exists k :: 0 <= k < |ignores| && Match(ignores[k], s) == Ok(true) {
          var k :| 0 <= k < |ignores| && Match(ignores[k], s) == Ok(true);
          assert ignores[k] in ignores && Matched(ignores[k], s);
        }
      }
    }
    s => Ignored(ignores, s)
  }

  /** One more pattern ignores what it matches on top of what the others
      ignore. */
  lemma IgnoredAppend(ignores: seq<string>, p: string, s: string)
    ensures Ignored(ignores + [p], s) <==> Ignored(ignores, s) || Matched(p, s)
  {
    if Ignored(ignores + [p], s) {
      var q :| q in ignores + [p] && Matched(q, s);
      if q != p {
        assert q in ignores;
      }
    }
    if Matched(p, s) {
      assert p in ignores + [p];
    }
    if Ignored(ignores, s) {
      var q :| q in ignores && Matched(q, s);
      assert q in ignores + [p];
    }
  }

  /** A malformed pattern changes nothing: its error is dropped and it
      counts as no match. */
  lemma MalformedIgnoresNothing(ignores: seq<string>, p: string, s: string)
    requires !WellFormedPattern(p)
    ensures Ignored(ignores + [p], s) == Ignored(ignores, s)
  {
    IgnoredAppend(ignores, p, s);
  }

  /** The paths from `filepath.Abs` of each given name and `filepath.Rel`
      of that against the root, as far as the first name for which either
      fails, and the error for that name. */
  function Resolve(paths: seq<string>, abs: string -> Result<string, string>,
                   rel: (string, string) -> Option<CleanPath>, base: string): (r: (seq<CleanPath>, Option<ProjectError>))
    ensures |r.0| <= |paths|
    ensures r.1.None? <==> |r.0| == |paths|
    ensures forall i :: 0 <= i < |r.0| ==>
              abs(paths[i]).Ok? && rel(base, abs(paths[i]).value) == Some(r.0[i])
    ensures r.1.None? <==> forall i :: 0 <= i < |paths| ==>
              abs(paths[i]).Ok? && rel(base, abs(paths[i]).value).Some?
    ensures r.1.Some? ==>
              |r.0| < |paths| &&
              match abs(paths[|r.0|])
              case Err(cause) => r.1 == Some(NoFullPath(paths[|r.0|], cause))
              case Ok(full) => rel(base, full).None? && r.1 == Some(NotRelative(paths[|r.0|], base))
  {
    if paths == [] then ([], None)
    else
      match abs(paths[0])
      case Err(cause) => ([], Some(NoFullPath(paths[0], cause)))
      case Ok(full) =>
        match rel(base, full)
        case None => ([], Some(NotRelative(paths[0], base)))
        case Some(relpath) =>
          var (rest, err) := Resolve(paths[1..], abs, rel, base);
          ([relpath] + rest, err)
  }

  /** The relative paths of the directories reached, one by one, walking
      `parts` down from `base`. */
  function Subpaths(base: string, parts: seq<string>): set<string>
    decreases |parts|
  {
    if parts == [] then {} else {Join(base, parts[0])} + Subpaths(Join(base, parts[0]), parts[1..])
  }

  /** The directory entries `addFiles` needs for `relpath`: one per
      subpath walked over `strings.Split(dir, "/")`, where `dir` is the
      directory part of `relpath`. */
  function DirsOf(relpath: string): set<string>
  {
    Subpaths("", Split(SplitPath(relpath).0, '/'))
  }

  /** The directory entries `addFiles` needs for all of `relpaths`. */
  function DirPaths(relpaths: seq<string>): set<string>
    decreases |relpaths|
  {
    if relpaths == [] then {} else DirsOf(relpaths[0]) + DirPaths(relpaths[1..])
  }

  /** A file at the base gets a directory entry named `""` with the root's
      own relative path: the directory part is empty, `strings.Split`
      makes it one empty part, and joining that to the root changes
      nothing. */
  lemma BaseFileGetsEmptyDirectory(relpath: string)
    requires IsElement(relpath)
    ensures DirsOf(relpath) == {""}
  {
    SplitNoSeparator(relpath);
    assert Split("", '/') == [""];
    assert Subpaths("", [""]) == {""} + Subpaths("", []) by {
      assert [""][1..] == [];
    }
  }

  lemma SplitNoSeparator(p: string)
    requires IsElement(p)
    ensures SplitPath(p).0 == ""
  {
    var (d, f) := SplitPath(p);
  }

  /** A file one directory down needs that directory only: the empty last
      part of `"a/"` leads back to it. */
  lemma NestedFileGetsItsDirectory(dir: string, file: string)
    requires dir != "" && IsElement(dir) && IsElement(file)
    ensures DirsOf(dir + "/" + file) == {dir}
  {
    SplitPathElement(dir, file);
    var parts := Split(dir + "/", '/');
    assert parts == [dir, ""] by {
      var i := IndexOf(dir + "/", '/');
      assert (dir + "/")[|dir|] == '/';
      assert i == |dir|;
      assert (dir + "/")[..i] == dir && (dir + "/")[i + 1..] == "";
    }
    assert Subpaths(dir, [""]) == {dir} by {
      assert [""][1..] == [];
    }
    assert parts[1..] == [""];
  }

  /** The directories a path lies in: each prefix of `p` that ends just
      before a separator. */
  function DirPrefixes(p: string): set<string>
  {
    set i | 0 <= i < |p| && p[i] == '/' :: p[..i]
  }

  /** The directory entries `addFiles` needs for a path are the path's
      directory prefixes; a file at the base needs the one named `""`. */
  lemma DirsOfPrefixes(p: CleanPath)
    ensures DirsOf(p) == if '/' in p then DirPrefixes(p) else {""}
  {
    if '/' !in p {
      BaseFileGetsEmptyDirectory(p);
    } else {
      SplitCleanRelative(p);
      var (dir, file) := SplitPath(p);
      assert dir + file == p;
      SubpathsPrefixes("", dir);
      PrefixesOfDirPart(p, dir, file);
    }
  }

  /** The separators of a path are those of its directory part. */
  lemma PrefixesOfDirPart(p: string, dir: string, file: string)
    requires p == dir + file && IsElement(file)
    ensures JoinedPrefixes("", dir) == DirPrefixes(p)
  {
    forall s | s in DirPrefixes(p)
      ensures s in JoinedPrefixes("", dir)
    {
      var i :| 0 <= i < |p| && p[i] == '/' && s == p[..i];
      assert i < |dir|;
      assert dir[i] == '/' && dir[..i] == s;
    }
    forall s | s in JoinedPrefixes("", dir)
      ensures s in DirPrefixes(p)
    {
      var i :| 0 <= i < |dir| && dir[i] == '/' && s == Join("", dir[..i]);
      assert p[i] == '/' && p[..i] == s;
    }
  }

  /** The paths reached by joining `base` with each prefix of `dir` that
      ends before a separator. */
  function JoinedPrefixes(base: string, dir: string): set<string>
  {
    set i | 0 <= i < |dir| && dir[i] == '/' :: Join(base, dir[..i])
  }

  /** Walking the parts of a directory part from `base` reaches `base`
      joined with each of the directory part's prefixes. */
  lemma {:induction false} SubpathsPrefixes(base: string, dir: string)
    requires IsCleanDir(dir) && dir != "" && NoTrailingSlash(base)
    ensures Subpaths(base, Split(dir, '/')) == JoinedPrefixes(base, dir)
    decreases |dir|
  {
    CleanDirCut(dir);
    var i := IndexOf(dir, '/');
    var x, rest := dir[..i], dir[i + 1..];
    var bx := Join(base, x);
    SubpathsCut(base, dir);
    JoinNoTrailingSlash(base, x);
    PrefixesShift(base, x, rest);
    if rest == "" {
      assert Split(rest, '/') == [""];
      assert Subpaths(bx, [""]) == {bx} + Subpaths(bx, []);
    } else {
      SubpathsPrefixes(bx, rest);
    }
  }

  /** The walk over a directory part takes its first element, then walks
      the rest. */
  lemma SubpathsCut(base: string, dir: string)
    requires '/' in dir
    ensures var i := IndexOf(dir, '/');
            && dir == dir[..i] + "/" + dir[i + 1..]
            && Subpaths(base, Split(dir, '/')) ==
               {Join(base, dir[..i])} + Subpaths(Join(base, dir[..i]), Split(dir[i + 1..], '/'))
  {
    var i := IndexOf(dir, '/');
    var parts := Split(dir, '/');
    assert dir == dir[..i] + "/" + dir[i + 1..];
    assert parts[0] == dir[..i] && parts[1..] == Split(dir[i + 1..], '/');
  }

  /** The prefixes of `x/rest`: `x` itself, then `x/` and each prefix of
      `rest`. */
  lemma PrefixesShift(base: string, x: string, rest: string)
    requires x != "" && IsElement(x) && (rest == "" || rest[0] != '/')
    ensures JoinedPrefixes(base, x + "/" + rest) ==
            {Join(base, x)} + JoinedPrefixes(Join(base, x), rest)
  {
    var d := x + "/" + rest;
    var bx := Join(base, x);
    forall s | s in JoinedPrefixes(base, d)
      ensures s in {bx} + JoinedPrefixes(bx, rest)
    {
      var i :| 0 <= i < |d| && d[i] == '/' && s == Join(base, d[..i]);
      ShiftedPrefix(base, x, rest, i);
    }
    forall s | s in {bx} + JoinedPrefixes(bx, rest)
      ensures s in JoinedPrefixes(base, d)
    {
      if s == bx {
        assert d[|x|] == '/' && d[..|x|] == x;
      } else {
        var m :| 0 <= m < |rest| && rest[m] == '/' && s == Join(bx, rest[..m]);
        ShiftedPrefix(base, x, rest, m + |x| + 1);
      }
    }
  }

  /** A separator of `x/rest` is the one after `x` or one of `rest`'s, and
      the joined prefix up to it is the same either way. */
  lemma ShiftedPrefix(base: string, x: string, rest: string, i: nat)
    requires x != "" && IsElement(x) && (rest == "" || rest[0] != '/')
    requires i < |x + "/" + rest| && (x + "/" + rest)[i] == '/'
    ensures var d := x + "/" + rest;
            i == |x| ==> Join(base, d[..i]) == Join(base, x)
    ensures var d := x + "/" + rest;
            i != |x| ==> && 0 < i - |x| - 1 < |rest| && rest[i - |x| - 1] == '/'
                         && Join(base, d[..i]) == Join(Join(base, x), rest[..i - |x| - 1])
  {
    var d := x + "/" + rest;
    if i > |x| {
      var m := i - |x| - 1;
      assert rest[m] == d[i];
      assert d[..i] == x + "/" + rest[..m];
      JoinAssociative(base, x, rest[..m]);
    } else {
      assert d[..i] == x;
    }
  }

  /** `filepath.Split` cuts after the separator before the last element. */
  lemma {:induction false} SplitPathElement(dir: string, file: string)
    requires IsElement(file)
    ensures SplitPath(dir + "/" + file) == (dir + "/", file)
    decreases |file|
  {
    var p := dir + "/" + file;
    if file == "" {
      assert p == dir + "/" && p[|p| - 1] == '/';
    } else {
      var init := file[..|file| - 1];
      assert p[..|p| - 1] == dir + "/" + init;
      assert p[|p| - 1] == file[|file| - 1];
      assert file == init + [file[|file| - 1]];
      assert file[|file| - 1] in file;
      SplitPathElement(dir, init);
    }
  }

  /** What every project's root satisfies: it is a directory at relative
      path `""`, every child sits at its parent's paths joined with its
      name, and files have no children. */
  predicate WellShaped(t: Entry)
  {
    t.isDir && t.relative == "" && Composed(t) && FilesAreLeaves(t)
  }

  /** `a` leads to a directory of `t` whose path is the root's path joined
      with its relative path. */
  predicate IsDirAt(t: Entry, a: Address)
  {
    && ValidAddr(t, a) && NodeAt(t, a).isDir
    && NodeAt(t, a).path == Join(t.path, NodeAt(t, a).relative)
    && NoTrailingSlash(NodeAt(t, a).relative)
  }

  /** Every directory `addFiles` has recorded in `dirmap` sits where its
      entry says, at the relative path it is recorded under. */
  predicate Recorded(t: Entry, dirmap: map<string, Address>)
  {
    forall s :: s in dirmap ==> IsDirAt(t, dirmap[s]) && NodeAt(t, dirmap[s]).relative == s
  }

  /** The walk state of `addFiles`: the root is at relative path `""`,
      the directories recorded in `dirmap` are where it says, and `parent`
      leads to a directory. */
  predicate Walkable(t: Entry, dirmap: map<string, Address>, parent: Address)
  {
    t.relative == "" && Recorded(t, dirmap) && IsDirAt(t, parent)
  }

  /** Growing the tree keeps every recorded directory where it was. */
  lemma ExtendsKeepsRecorded(t: Entry, t': Entry, dirmap: map<string, Address>)
    requires Extends(t, t') && Recorded(t, dirmap)
    ensures Recorded(t', dirmap)
  {
    forall s | s in dirmap
      ensures IsDirAt(t', dirmap[s]) && NodeAt(t', dirmap[s]).relative == s
    {
      ExtendsKeepsAddress(t, t', dirmap[s]);
    }
  }

  /** Recording a directory where it is keeps the map recorded. */
  lemma RecordedAdd(t: Entry, dirmap: map<string, Address>, subpath: string, a: Address)
    requires Recorded(t, dirmap) && IsDirAt(t, a) && NodeAt(t, a).relative == subpath
    ensures Recorded(t, dirmap[subpath := a])
  {
  }

  /** Appending an entry with no children to a directory, at its paths
      joined with the entry's name, keeps the root well shaped. */
  lemma AppendKeepsShape(t: Entry, a: Address, x: Entry)
    requires WellShaped(t) && IsDirAt(t, a) && x.entries == []
    requires x.relative == Join(NodeAt(t, a).relative, x.name)
    requires x.path == Join(NodeAt(t, a).path, x.name)
    ensures WellShaped(AppendAt(t, a, x))
  {
    AppendAtComposed(t, a, x);
    AppendAtLeaves(t, a, x);
  }

  /** One pass of `addFiles`' inner loop, for `part`: the subpath is the
      parent's relative path joined with `part`; unless `dirmap` has it, a
      new directory entry for it is appended to the parent and recorded;
      the walk goes on from the entry recorded for it. */
  function Descend(t: Entry, dirmap: map<string, Address>, parent: Address, part: string)
    : (Entry, map<string, Address>, Address)
    requires ValidAddr(t, parent)
  {
    var node := NodeAt(t, parent);
    var subpath := Join(node.relative, part);
    if subpath in dirmap then (t, dirmap, dirmap[subpath])
    else
      var child := parent + [|node.entries|];
      (AppendAt(t, parent, Entry(part, Join(node.path, part), subpath, true, [])),
       dirmap[subpath := child], child)
  }

  /** A step of the walk keeps its state and only grows the tree. */
  lemma DescendKeeps(t: Entry, dirmap: map<string, Address>, parent: Address, part: string)
    requires Walkable(t, dirmap, parent) && IsElement(part)
    ensures var (t', dirmap', child) := Descend(t, dirmap, parent, part);
            Walkable(t', dirmap', child) && Extends(t, t') && t'.path == t.path
  {
    var node := NodeAt(t, parent);
    var subpath := Join(node.relative, part);
    if subpath in dirmap {
      ExtendsReflexive(t);
    } else {
      var x := Entry(part, Join(node.path, part), subpath, true, []);
      var child := parent + [|node.entries|];
      var t' := AppendAt(t, parent, x);
      JoinNoTrailingSlash(node.relative, part);
      JoinAssociative(t.path, node.relative, part);
      AppendAtNew(t, parent, x);
      AppendAtExtends(t, parent, x);
      ExtendsKeepsRecorded(t, t', dirmap);
      RecordedAdd(t', dirmap, subpath, child);
    }
  }

  /** A step of the walk adds exactly the step's subpath to the recorded
      ones and ends at that subpath. */
  lemma DescendRecords(t: Entry, dirmap: map<string, Address>, parent: Address, part: string)
    requires Walkable(t, dirmap, parent) && IsElement(part)
    ensures var (t', dirmap', child) := Descend(t, dirmap, parent, part);
            var subpath := Join(NodeAt(t, parent).relative, part);
            && ValidAddr(t', child)
            && dirmap'.Keys == dirmap.Keys + {subpath}
            && NodeAt(t', child).relative == subpath
  {
    var node := NodeAt(t, parent);
    var subpath := Join(node.relative, part);
    if subpath !in dirmap {
      var x := Entry(part, Join(node.path, part), subpath, true, []);
      AppendAtNew(t, parent, x);
      assert Descend(t, dirmap, parent, part) ==
             (AppendAt(t, parent, x), dirmap[subpath := parent + [|node.entries|]], parent + [|node.entries|]);
    } else {
      assert Descend(t, dirmap, parent, part) == (t, dirmap, dirmap[subpath]);
    }
  }

  /** A step of the walk keeps the root well shaped. */
  lemma DescendShape(t: Entry, dirmap: map<string, Address>, parent: Address, part: string)
    requires WellShaped(t) && Walkable(t, dirmap, parent) && IsElement(part)
    ensures WellShaped(Descend(t, dirmap, parent, part).0)
  {
    var node := NodeAt(t, parent);
    if Join(node.relative, part) !in dirmap {
      AppendKeepsShape(t, parent, Entry(part, Join(node.path, part), Join(node.relative, part), true, []));
    }
  }

  /** A step of the walk adds no file, and a directory entry exactly for a
      subpath it records. */
  lemma DescendRelatives(t: Entry, dirmap: map<string, Address>, parent: Address, part: string)
    requires ValidAddr(t, parent)
    ensures var (t', dirmap', child) := Descend(t, dirmap, parent, part);
            && Relatives(t', false) == Relatives(t, false)
            && Relatives(t', true) == Relatives(t, true) + multiset(dirmap'.Keys - dirmap.Keys)
  {
    if Join(NodeAt(t, parent).relative, part) !in dirmap {
      DescendNewRelatives(t, dirmap, parent, part);
    } else {
      assert dirmap.Keys - dirmap.Keys == {};
    }
  }

  /** A step that creates a directory adds exactly its subpath. */
  lemma DescendNewRelatives(t: Entry, dirmap: map<string, Address>, parent: Address, part: string)
    requires ValidAddr(t, parent) && Join(NodeAt(t, parent).relative, part) !in dirmap
    ensures var (t', dirmap', child) := Descend(t, dirmap, parent, part);
            && Relatives(t', false) == Relatives(t, false)
            && Relatives(t', true) == Relatives(t, true) + multiset(dirmap'.Keys - dirmap.Keys)
  {
    var node := NodeAt(t, parent);
    var subpath := Join(node.relative, part);
    var x := Entry(part, Join(node.path, part), subpath, true, []);
    var dirmap' := dirmap[subpath := parent + [|node.entries|]];
    NewDirRelatives(t, parent, x);
    assert dirmap'.Keys - dirmap.Keys == {subpath};
  }

  /** Appending a directory entry with no children adds its `relative`
      path to the directories and nothing to the files. */
  lemma NewDirRelatives(t: Entry, a: Address, x: Entry)
    requires ValidAddr(t, a) && x.entries == [] && x.isDir
    ensures Relatives(AppendAt(t, a, x), false) == Relatives(t, false)
    ensures Relatives(AppendAt(t, a, x), true) == Relatives(t, true) + multiset{x.relative}
  {
    AppendAtRelatives(t, a, x, false);
    AppendAtRelatives(t, a, x, true);
    assert Relatives(x, false) == multiset{};
  }

  /** `addFiles`' inner loop over `parts`, from the directory at
      `parent`: the tree, the map and the directory it ends at. */
  function WalkFrom(t: Entry, dirmap: map<string, Address>, parent: Address, parts: seq<string>)
    : (Entry, map<string, Address>, Address)
    requires Walkable(t, dirmap, parent)
    requires forall i :: 0 <= i < |parts| ==> IsElement(parts[i])
    decreases |parts|
  {
    if parts == [] then (t, dirmap, parent)
    else
      DescendKeeps(t, dirmap, parent, parts[0]);
      var (t', dirmap', child) := Descend(t, dirmap, parent, parts[0]);
      WalkFrom(t', dirmap', child, parts[1..])
  }

  /** The walk keeps its state and only grows the tree. */
  lemma {:induction false} WalkFromKeeps(t: Entry, dirmap: map<string, Address>, parent: Address,
                                         parts: seq<string>)
    requires Walkable(t, dirmap, parent)
    requires forall i :: 0 <= i < |parts| ==> IsElement(parts[i])
    ensures var (t', dirmap', child) := WalkFrom(t, dirmap, parent, parts);
            Walkable(t', dirmap', child) && Extends(t, t') && t'.path == t.path
    decreases |parts|
  {
    if parts == [] {
      ExtendsReflexive(t);
    } else {
      DescendKeeps(t, dirmap, parent, parts[0]);
      var (t1, dirmap1, child1) := Descend(t, dirmap, parent, parts[0]);
      WalkFromKeeps(t1, dirmap1, child1, parts[1..]);
      ExtendsTransitive(t, t1, WalkFrom(t1, dirmap1, child1, parts[1..]).0);
    }
  }

  /** The walk records exactly the subpaths it walks over and ends at the
      last of them. */
  lemma {:induction false} WalkFromRecords(t: Entry, dirmap: map<string, Address>, parent: Address,
                                           parts: seq<string>)
    requires Walkable(t, dirmap, parent)
    requires forall i :: 0 <= i < |parts| ==> IsElement(parts[i])
    ensures var (t', dirmap', child) := WalkFrom(t, dirmap, parent, parts);
            var base := NodeAt(t, parent).relative;
            && ValidAddr(t', child)
            && dirmap'.Keys == dirmap.Keys + Subpaths(base, parts)
            && NodeAt(t', child).relative == JoinAll(base, parts)
    decreases |parts|
  {
    if parts != [] {
      DescendKeeps(t, dirmap, parent, parts[0]);
      DescendRecords(t, dirmap, parent, parts[0]);
      var (t1, dirmap1, child1) := Descend(t, dirmap, parent, parts[0]);
      var base := NodeAt(t, parent).relative;
      var sub := Join(base, parts[0]);
      WalkFromRecords(t1, dirmap1, child1, parts[1..]);
      var (t2, dirmap2, child2) := WalkFrom(t1, dirmap1, child1, parts[1..]);
      assert Subpaths(base, parts) == {sub} + Subpaths(sub, parts[1..]);
      assert JoinAll(base, parts) == JoinAll(sub, parts[1..]);
    }
  }

  /** The walk keeps the root well shaped. */
  lemma {:induction false} WalkFromShape(t: Entry, dirmap: map<string, Address>, parent: Address,
                                         parts: seq<string>)
    requires WellShaped(t) && Walkable(t, dirmap, parent)
    requires forall i :: 0 <= i < |parts| ==> IsElement(parts[i])
    ensures WellShaped(WalkFrom(t, dirmap, parent, parts).0)
    decreases |parts|
  {
    if parts != [] {
      DescendKeeps(t, dirmap, parent, parts[0]);
      DescendShape(t, dirmap, parent, parts[0]);
      var (t1, dirmap1, child1) := Descend(t, dirmap, parent, parts[0]);
      WalkFromShape(t1, dirmap1, child1, parts[1..]);
    }
  }

  /** The walk adds no file, and one directory entry per subpath it
      records. */
  lemma {:induction false} WalkFromRelatives(t: Entry, dirmap: map<string, Address>, parent: Address,
                                             parts: seq<string>)
    requires Walkable(t, dirmap, parent)
    requires forall i :: 0 <= i < |parts| ==> IsElement(parts[i])
    ensures var (t', dirmap', _) := WalkFrom(t, dirmap, parent, parts);
            && dirmap.Keys <= dirmap'.Keys
            && Relatives(t', false) == Relatives(t, false)
            && Relatives(t', true) == Relatives(t, true) + multiset(dirmap'.Keys - dirmap.Keys)
    decreases |parts|
  {
    if parts != [] {
      DescendKeeps(t, dirmap, parent, parts[0]);
      DescendRelatives(t, dirmap, parent, parts[0]);
      var (t1, dirmap1, child1) := Descend(t, dirmap, parent, parts[0]);
      WalkFromRelatives(t1, dirmap1, child1, parts[1..]);
      var (t2, dirmap2, _) := WalkFrom(t1, dirmap1, child1, parts[1..]);
      AddedInTwoRounds(Relatives(t, true), Relatives(t1, true), Relatives(t2, true),
                       dirmap.Keys, dirmap1.Keys, dirmap2.Keys);
    }
  }

  /** One pass of `addFiles`' outer loop for the resolved `relpath`: the
      walk over the parts of its directory part, then the file entry
      appended where the walk ends. */
  function AddFileTo(t: Entry, dirmap: map<string, Address>, relpath: CleanPath): (Entry, map<string, Address>)
    requires Walkable(t, dirmap, [])
  {
    var (dir, file) := SplitPath(relpath);
    var parts := Split(dir, '/');
    WalkFromKeeps(t, dirmap, [], parts);
    var (t', dirmap', parent) := WalkFrom(t, dirmap, [], parts);
    (AppendAt(t', parent, Entry(file, Join(t.path, relpath), relpath, false, [])), dirmap')
  }

  /** One file keeps the walk state, only grows the tree, and records a
      directory for each subpath of its directory part. */
  lemma AddFileToKeeps(t: Entry, dirmap: map<string, Address>, relpath: CleanPath)
    requires Walkable(t, dirmap, [])
    ensures var (t', dirmap') := AddFileTo(t, dirmap, relpath);
            && Walkable(t', dirmap', []) && Extends(t, t') && t'.path == t.path
            && dirmap'.Keys == dirmap.Keys + DirsOf(relpath)
  {
    var (dir, file) := SplitPath(relpath);
    var parts := Split(dir, '/');
    WalkFromKeeps(t, dirmap, [], parts);
    WalkFromRecords(t, dirmap, [], parts);
    var (t1, dirmap1, parent) := WalkFrom(t, dirmap, [], parts);
    var t' := AppendAt(t1, parent, Entry(file, Join(t.path, relpath), relpath, false, []));
    AppendAtExtends(t1, parent, Entry(file, Join(t.path, relpath), relpath, false, []));
    ExtendsKeepsRecorded(t1, t', dirmap1);
    ExtendsTransitive(t, t1, t');
  }

  /** One file keeps the root well shaped: the file entry sits at the
      directory the walk ends at, joined with its name. */
  lemma AddFileToShape(t: Entry, dirmap: map<string, Address>, relpath: CleanPath)
    requires WellShaped(t) && Walkable(t, dirmap, [])
    ensures WellShaped(AddFileTo(t, dirmap, relpath).0)
  {
    var (dir, file) := SplitPath(relpath);
    var parts := Split(dir, '/');
    WalkFromKeeps(t, dirmap, [], parts);
    WalkFromRecords(t, dirmap, [], parts);
    WalkFromShape(t, dirmap, [], parts);
    var (t1, dirmap1, parent) := WalkFrom(t, dirmap, [], parts);
    SplitCleanRelative(relpath);
    JoinAllSplit("", dir);
    JoinSplitPath(relpath);
    assert NoTrailingSlash(TrimSlash(dir));
    JoinAssociative(t.path, TrimSlash(dir), file);
    AppendKeepsShape(t1, parent, Entry(file, Join(t.path, relpath), relpath, false, []));
  }

  /** One file adds its own file entry, and a directory entry for each
      subpath it records. */
  lemma AddFileToRelatives(t: Entry, dirmap: map<string, Address>, relpath: CleanPath)
    requires Walkable(t, dirmap, [])
    ensures var (t', dirmap') := AddFileTo(t, dirmap, relpath);
            && dirmap.Keys <= dirmap'.Keys
            && Relatives(t', false) == Relatives(t, false) + multiset{relpath}
            && Relatives(t', true) == Relatives(t, true) + multiset(dirmap'.Keys - dirmap.Keys)
  {
    var (dir, file) := SplitPath(relpath);
    var parts := Split(dir, '/');
    WalkFromKeeps(t, dirmap, [], parts);
    WalkFromRelatives(t, dirmap, [], parts);
    var (t1, dirmap1, parent) := WalkFrom(t, dirmap, [], parts);
    var e := Entry(file, Join(t.path, relpath), relpath, false, []);
    AppendAtRelatives(t1, parent, e, false);
    AppendAtRelatives(t1, parent, e, true);
    assert Relatives(e, false) == multiset{relpath} && Relatives(e, true) == multiset{};
  }

  /** `addFiles`' outer loop over resolved relative paths. */
  function AddAll(t: Entry, dirmap: map<string, Address>, relpaths: seq<CleanPath>): (Entry, map<string, Address>)
    requires Walkable(t, dirmap, [])
    decreases |relpaths|
  {
    if relpaths == [] then (t, dirmap)
    else
      AddFileToKeeps(t, dirmap, relpaths[0]);
      var (t', dirmap') := AddFileTo(t, dirmap, relpaths[0]);
      AddAll(t', dirmap', relpaths[1..])
  }

  /** Adding a first path and then the rest. */
  lemma AddAllCons(t: Entry, dirmap: map<string, Address>, relpath: CleanPath, rest: seq<CleanPath>)
    requires Walkable(t, dirmap, [])
    ensures var (t', dirmap') := AddFileTo(t, dirmap, relpath);
            && Walkable(t', dirmap', []) && t'.path == t.path
            && AddAll(t, dirmap, [relpath] + rest) == AddAll(t', dirmap', rest)
  {
    AddFileToKeeps(t, dirmap, relpath);
    assert ([relpath] + rest)[1..] == rest;
  }

  /** The paths keep the walk state, only grow the tree, and record a
      directory for each subpath they need. */
  lemma {:induction false} AddAllKeeps(t: Entry, dirmap: map<string, Address>, relpaths: seq<CleanPath>)
    requires Walkable(t, dirmap, [])
    ensures var (t', dirmap') := AddAll(t, dirmap, relpaths);
            && Walkable(t', dirmap', []) && Extends(t, t') && t'.path == t.path
            && dirmap'.Keys == dirmap.Keys + DirPaths(relpaths)
    decreases |relpaths|
  {
    if relpaths == [] {
      ExtendsReflexive(t);
    } else {
      AddFileToKeeps(t, dirmap, relpaths[0]);
      var (t1, dirmap1) := AddFileTo(t, dirmap, relpaths[0]);
      AddAllKeeps(t1, dirmap1, relpaths[1..]);
      ExtendsTransitive(t, t1, AddAll(t1, dirmap1, relpaths[1..]).0);
    }
  }

  /** The paths keep the root well shaped. */
  lemma {:induction false} AddAllShape(t: Entry, dirmap: map<string, Address>, relpaths: seq<CleanPath>)
    requires WellShaped(t) && Walkable(t, dirmap, [])
    ensures WellShaped(AddAll(t, dirmap, relpaths).0)
    decreases |relpaths|
  {
    if relpaths != [] {
      AddFileToKeeps(t, dirmap, relpaths[0]);
      AddFileToShape(t, dirmap, relpaths[0]);
      var (t1, dirmap1) := AddFileTo(t, dirmap, relpaths[0]);
      AddAllShape(t1, dirmap1, relpaths[1..]);
    }
  }

  /** Each path adds exactly one file entry, at its relative path. */
  lemma {:induction false} AddAllFiles(t: Entry, dirmap: map<string, Address>, relpaths: seq<CleanPath>)
    requires Walkable(t, dirmap, [])
    ensures Relatives(AddAll(t, dirmap, relpaths).0, false) == Relatives(t, false) + multiset(relpaths)
    decreases |relpaths|
  {
    if relpaths != [] {
      AddFileToKeeps(t, dirmap, relpaths[0]);
      AddFileToRelatives(t, dirmap, relpaths[0]);
      var (t1, dirmap1) := AddFileTo(t, dirmap, relpaths[0]);
      AddAllFiles(t1, dirmap1, relpaths[1..]);
      MultisetCons(relpaths);
    }
  }

  /** Each subpath recorded on the way adds exactly one directory entry. */
  lemma {:induction false} AddAllDirs(t: Entry, dirmap: map<string, Address>, relpaths: seq<CleanPath>)
    requires Walkable(t, dirmap, [])
    ensures var (t', dirmap') := AddAll(t, dirmap, relpaths);
            && dirmap.Keys <= dirmap'.Keys
            && Relatives(t', true) == Relatives(t, true) + multiset(dirmap'.Keys - dirmap.Keys)
    decreases |relpaths|
  {
    if relpaths == [] {
      assert dirmap.Keys - dirmap.Keys == {};
    } else {
      AddFileToKeeps(t, dirmap, relpaths[0]);
      AddFileToRelatives(t, dirmap, relpaths[0]);
      var (t1, dirmap1) := AddFileTo(t, dirmap, relpaths[0]);
      AddAllDirs(t1, dirmap1, relpaths[1..]);
      var (t2, dirmap2) := AddAll(t1, dirmap1, relpaths[1..]);
      AddedInTwoRounds(Relatives(t, true), Relatives(t1, true), Relatives(t2, true),
                       dirmap.Keys, dirmap1.Keys, dirmap2.Keys);
    }
  }

  /** What `addFiles` does to a project's tree for the resolved
      `relpaths`: exactly one new file entry per path, at that relative
      path, and exactly one new directory entry per directory subpath the
      paths need (the `""` of a file at the base included); the entries
      already there stay where they were. */
  lemma AddFilesEntries(t: Entry, relpaths: seq<CleanPath>)
    requires WellShaped(t)
    ensures var t' := AddAll(t, map[], relpaths).0;
            && WellShaped(t') && Extends(t, t')
            && Relatives(t', false) == Relatives(t, false) + multiset(relpaths)
            && Relatives(t', true) == Relatives(t, true) + multiset(DirPaths(relpaths))
  {
    var empty: map<string, Address> := map[];
    AddAllKeeps(t, empty, relpaths);
    AddAllShape(t, empty, relpaths);
    AddAllFiles(t, empty, relpaths);
    AddAllDirs(t, empty, relpaths);
    assert AddAll(t, empty, relpaths).1.Keys - empty.Keys == DirPaths(relpaths);
  }

  class Project {
    var ignores: seq<string>
    var root: Entry

    /** The class invariant `newProject` establishes. */
    predicate Valid()
      reads this
    {
      WellShaped(root)
    }

    /** The project `newProject` returns for the absolute path `base`. */
    constructor (base: string)
      ensures ignores == [] && root == Entry(RootName, base, "", true, [])
      ensures Valid()
    {
      ignores := [];
      root := Entry(RootName, base, "", true, []);
    }

    /** `shouldIgnore(pth)`: whether some pattern matches `pth`. */
    method ShouldIgnore(pth: string) returns (b: bool)
      ensures b == Ignored(ignores, pth)
    {
      for i := 0 to |ignores|
        invariant forall k :: 0 <= k < i ==> !Matched(ignores[k], pth)
      {
        var matched := match Match(ignores[i], pth) case Ok(m) => m case Err(_) => false;
        if matched {
          assert ignores[i] in ignores;
          return true;
        }
      }
      return false;
    }

    /** `scanAll`: scans the root's directory `fs` with `shouldIgnore` as
        the ignore test.  A fresh project's scan leaves every directory
        sorted and no ignored entry anywhere. */
    method ScanAll(fs: Disk) returns (err: Option<ScanError>)
      requires Valid()
      modifies this
      ensures Valid() && ignores == old(ignores)
      ensures err.Some? <==> !Listable(fs)
      ensures err.Some? ==> root == old(root) && err.value == ReadDirFailed(root.path)
      ensures err.None? ==> ScanOf(old(root), fs, IgnoreTest(ignores)) == Ok(root)
      ensures err.None? && old(root.entries) == [] ==>
                AllSorted(root) && Unignored(root, IgnoreTest(ignores))
    {
      var ignore := IgnoreTest(ignores);
      ScanInvariants(root, fs, ignore);
      var r, e := Scan(root, fs, ignore);
      root := r;
      err := e;
    }

    /** `addFiles(paths)`, with `filepath.Abs` and `filepath.Rel` given as
        `abs` and `rel`: the paths resolved before the first failure are
        added as `AddAll` says (`AddFilesEntries` states what that adds),
        and the error is that failure's.  The ignore patterns are not
        consulted. */
    method AddFiles(paths: seq<string>, abs: string -> Result<string, string>,
                    rel: (string, string) -> Option<CleanPath>) returns (err: Option<ProjectError>)
      requires Valid()
      modifies this
      ensures Valid() && ignores == old(ignores) && Extends(old(root), root)
      ensures var (relpaths, e) := Resolve(paths, abs, rel, old(root).path);
              err == e && root == AddAll(old(root), map[], relpaths).0
    {
      ghost var root0 := root;
      ghost var all := Resolve(paths, abs, rel, root.path);
      AddFilesEntries(root, all.0);
      var dirmap: map<string, Address> := map[];
      var n := 0;
      assert paths[n..] == paths;
      while n < |paths|
        invariant n <= |paths| && ignores == old(ignores) && root.path == root0.path
        invariant Walkable(root, dirmap, [])
        invariant Resolve(paths[n..], abs, rel, root0.path).1 == all.1
        invariant AddAll(root, dirmap, Resolve(paths[n..], abs, rel, root0.path).0) == AddAll(root0, map[], all.0)
      {
        var filename := paths[n];
        assert paths[n..][0] == filename && paths[n..][1..] == paths[n + 1..];
        var fullpath := abs(filename);
        if fullpath.Err? {
          return Some(NoFullPath(filename, fullpath.error));
        }
        var relpath := rel(root.path, fullpath.value);
        if relpath.None? {
          return Some(NotRelative(filename, root.path));
        }
        ghost var rest := Resolve(paths[n + 1..], abs, rel, root0.path);
        assert Resolve(paths[n..], abs, rel, root0.path) == ([relpath.value] + rest.0, rest.1);
        AddAllCons(root, dirmap, relpath.value, rest.0);
        dirmap := AddFile(relpath.value, dirmap);
        n := n + 1;
      }
      assert Resolve(paths[n..], abs, rel, root0.path).0 == [];
      return None;
    }

    /** One pass of `addFiles`' loop for the resolved `relpath`: the
        directory entries for all parts of its directory part, then the
        file entry where they end. */
    method AddFile(relpath: CleanPath, dirmap: map<string, Address>) returns (dirmap': map<string, Address>)
      requires Walkable(root, dirmap, [])
      modifies this
      ensures ignores == old(ignores)
      ensures (root, dirmap') == AddFileTo(old(root), dirmap, relpath)
    {
      var (dir, file) := SplitPath(relpath);
      var parts := Split(dir, '/');
      WalkFromKeeps(root, dirmap, [], parts);
      var parent;
      dirmap', parent := Walk(parts, dirmap);
      var e := Entry(file, Join(root.path, relpath), relpath, false, []);
      root := AppendAt(root, parent, e);
    }

    /** The inner loop of `addFiles`: walks `parts` down from the root,
        creating and recording the directory entries whose subpaths
        `dirmap` does not have yet; `parent` is where the walk ends. */
    method Walk(parts: seq<string>, dirmap: map<string, Address>)
      returns (dirmap': map<string, Address>, parent: Address)
      requires Walkable(root, dirmap, [])
      requires forall i :: 0 <= i < |parts| ==> IsElement(parts[i])
      modifies this
      ensures ignores == old(ignores)
      ensures (root, dirmap', parent) == WalkFrom(old(root), dirmap, [], parts)
    {
      ghost var root0 := root;
      dirmap' := dirmap;
      parent := [];
      var k := 0;
      while k < |parts|
        invariant k <= |parts| && ignores == old(ignores)
        invariant Walkable(root, dirmap', parent)
        invariant WalkFrom(root, dirmap', parent, parts[k..]) == WalkFrom(root0, dirmap, [], parts)
      {
        var part := parts[k];
        assert parts[k..][0] == part && parts[k..][1..] == parts[k + 1..];
        DescendKeeps(root, dirmap', parent, part);
        var node := NodeAt(root, parent);
        var subpath := Join(node.relative, part);
        if subpath !in dirmap' {
          var dirEntry := Entry(part, Join(node.path, part), subpath, true, []);
          dirmap' := dirmap'[subpath := parent + [|node.entries|]];
          root := AppendAt(root, parent, dirEntry);
        }
        parent := dirmap'[subpath];
        k := k + 1;
      }
      assert parts[k..] == [];
    }
  }

  /** Entries added in two rounds for the keys added in each are the
      entries added for the keys added overall. */
  lemma AddedInTwoRounds(r0: multiset<string>, r1: multiset<string>, r2: multiset<string>,
                         a: set<string>, b: set<string>, c: set<string>)
    requires a <= b <= c
    requires r1 == r0 + multiset(b - a) && r2 == r1 + multiset(c - b)
    ensures r2 == r0 + multiset(c - a)
  {
    GrowingKeys(a, b, c);
  }

  /** A sequence's elements are its head and the elements of its tail. */
  lemma MultisetCons(s: seq<CleanPath>)
    requires s != []
    ensures multiset(s) == multiset{s[0]} + multiset(s[1..])
  {
    assert s == [s[0]] + s[1..];
  }

  /** Keys added in two rounds are the keys added overall. */
  lemma GrowingKeys(a: set<string>, b: set<string>, c: set<string>)
    requires a <= b <= c
    ensures multiset(b - a) + multiset(c - b) == multiset(c - a)
  {
    assert c - a == (b - a) + (c - b);
    assert (b - a) * (c - b) == {};
  }

  /** `newProject(base)`, with `filepath.Abs` and `os.Stat` given as `abs`
      and `stat` (`stat` reports whether the path is a directory).  It
      fails when the path cannot be made absolute, cannot be examined, or
      is not a directory; otherwise the project has no ignore patterns and
      a root directory entry named `<root>` at the absolute path, with
      relative path `""` and no children. */
  method NewProject(base: string, abs: string -> Result<string, string>,
                    stat: string -> Result<bool, string>) returns (p: Project?, err: Option<ProjectError>)
    ensures err.None? <==> abs(base).Ok? && stat(abs(base).value) == Ok(true)
    ensures abs(base).Err? ==> err == Some(InvalidPath(abs(base).error))
    ensures abs(base).Ok? && stat(abs(base).value).Err? ==>
              err == Some(InvalidPath(stat(abs(base).value).error))
    ensures abs(base).Ok? && stat(abs(base).value) == Ok(false) ==> err == Some(NotADirectory)
    ensures err.Some? ==> p == null
    ensures err.None? ==> p != null && fresh(p) && p.Valid() && p.ignores == [] &&
                          p.root == Entry(RootName, abs(base).value, "", true, [])
  {
    var full := abs(base);
    if full.Err? {
      return null, Some(InvalidPath(full.error));
    }
    var info := stat(full.value);
    if info.Err? {
      return null, Some(InvalidPath(info.error));
    }
    if !info.value {
      return null, Some(NotADirectory);
    }
    p := new Project(full.value);
    err := None;
  }
}
