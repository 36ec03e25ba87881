/**
 * The two `path/filepath` functions the program composes paths with, for the
 * arguments it gives them: `Join` of a clean path and one path element, and
 * `Split` of a clean relative path.
 */
module Paths {
  import opened Text

  /** A path element as a directory listing reports it, or a part of a
      relative path: it holds no separator. */
  predicate IsElement(s: string)
  {
    '/' !in s
  }

  /** `filepath.Join(dir, elem)` for a clean `dir` and a separator-free
      `elem`: an empty element is dropped, an empty directory yields the
      element, and otherwise exactly one `/` goes between them. */
  function Join(dir: string, elem: string): (r: string)
    ensures elem == "" ==> r == dir
    ensures dir == "" ==> r == elem
    ensures dir != "" && elem != "" ==> |r| > |dir| && r[..|dir|] == dir
  {
    if elem == "" then dir
    else if dir == "" then elem
    else if dir[|dir| - 1] == '/' then dir + elem
    else dir + "/" + elem
  }

  /** A relative path whose last character is not a separator. */
  predicate NoTrailingSlash(s: string)
  {
    s == "" || s[|s| - 1] != '/'
  }

  /** Joining in two steps or in one gives the same path. */
  lemma JoinAssociative(p: string, x: string, y: string)
    requires NoTrailingSlash(x)
    ensures Join(Join(p, x), y) == Join(p, Join(x, y))
  {
    if x != "" && y != "" {
      var px := Join(p, x);
      assert px[|px| - 1] == x[|x| - 1];
      if p == "" {
      } else if p[|p| - 1] == '/' {
        assert Join(p, x + "/" + y) == p + (x + "/" + y);
      } else {
        assert Join(p, x + "/" + y) == p + "/" + (x + "/" + y);
      }
    }
  }

  /** Joining an element onto a path without a trailing separator leaves
      none. */
  lemma JoinNoTrailingSlash(dir: string, elem: string)
    requires NoTrailingSlash(dir) && IsElement(elem)
    ensures NoTrailingSlash(Join(dir, elem))
  {
    if dir != "" && elem != "" {
      assert Join(dir, elem)[|Join(dir, elem)| - 1] == elem[|elem| - 1];
    }
  }

  /** `filepath.Split(p)`: everything up to and including the last
      separator, and the rest. */
  function SplitPath(p: string): (r: (string, string))
    ensures r.0 + r.1 == p
    ensures IsElement(r.1)
    ensures r.0 == "" || r.0[|r.0| - 1] == '/'
  {
    if p == [] then ("", "")
    else if p[|p| - 1] == '/' then (p, "")
    else
      var (d, f) := SplitPath(p[..|p| - 1]);
      assert p == p[..|p| - 1] + [p[|p| - 1]];
      (d, f + [p[|p| - 1]])
  }

  /** The directories visited while walking `parts` down from `base`:
      `JoinAll(base, parts)` is where the walk ends. */
  function JoinAll(base: string, parts: seq<string>): string
    decreases |parts|
  {
    if parts == [] then base else JoinAll(Join(base, parts[0]), parts[1..])
  }

  /** A clean relative path as `filepath.Rel` returns it for a name inside
      the base directory: no leading, trailing or doubled separator, and no
      `.` or `..` element. */
  ghost predicate IsCleanRelative(p: string)
  {
    p != "" && p[0] != '/' && p[|p| - 1] != '/' &&
    (forall i :: !SlashPairAt(p, i)) &&
    (forall i :: !DotElementAt(p, i))
  }

  /** `p` holds two separators in a row at index `i`. */
  predicate SlashPairAt(p: string, i: int)
  {
    0 <= i && i + 1 < |p| && p[i] == '/' && p[i + 1] == '/'
  }

  /** An element `.` or `..` starts at index `i` of `p`. */
  predicate DotElementAt(p: string, i: int)
  {
    && 0 <= i < |p| && (i == 0 || p[i - 1] == '/') && p[i] == '.'
    && (i + 1 == |p| || p[i + 1] == '/' || (p[i + 1] == '.' && (i + 2 == |p| || p[i + 2] == '/')))
  }

  /** A path as `filepath.Rel` returns it: clean and relative. */
  type CleanPath = p: string | IsCleanRelative(p) witness "a"

  /** The directory part `filepath.Split` leaves of a clean relative path:
      empty, or a clean relative path followed by one separator. */
  ghost predicate IsCleanDir(d: string)
  {
    d == "" || (|d| >= 2 && IsCleanRelative(d[..|d| - 1]) && d[|d| - 1] == '/')
  }

  lemma SplitCleanRelative(p: string)
    requires IsCleanRelative(p)
    ensures IsCleanDir(SplitPath(p).0) && SplitPath(p).1 != ""
  {
    var (d, f) := SplitPath(p);
    assert d + f == p;
    if d != "" {
      assert d[..|d| - 1] == p[..|d| - 1];
      assert d[0] == p[0];
      var q := d[..|d| - 1];
      forall i
        ensures !SlashPairAt(q, i)
      {
        assert !SlashPairAt(p, i);
      }
      forall i
        ensures !DotElementAt(q, i)
      {
        assert !DotElementAt(p, i);
      }
      assert q[|q| - 1] != '/' by {
        assert p[|q| - 1] == q[|q| - 1] && p[|q|] == '/';
        assert !SlashPairAt(p, |q| - 1);
      }
    }
  }

  /** Removes the separator `filepath.Split` leaves at the end of a
      directory part. */
  function TrimSlash(d: string): string
  {
    if d == "" then "" else d[..|d| - 1]
  }

  /** Cutting a clean directory part at its first separator leaves a
      non-empty first element and a clean directory part after it. */
  lemma CleanDirCut(dir: string)
    requires IsCleanDir(dir) && dir != ""
    ensures var i := IndexOf(dir, '/');
            var x := dir[..i];
            var rest := dir[i + 1..];
            && x != "" && IsElement(x) && IsCleanDir(rest)
            && TrimSlash(dir) == if rest == "" then x else x + "/" + TrimSlash(rest)
  {
    var i := IndexOf(dir, '/');
    var x := dir[..i];
    var rest := dir[i + 1..];
    var q := dir[..|dir| - 1];
    assert dir == q + "/";
    assert q[0] == dir[0];
    if rest != "" {
      assert i < |q| && q[i] == '/';
      var r := q[i + 1..];
      CleanAfterSlash(q, i);
      assert rest == r + "/";
      assert q == x + "/" + r;
    } else {
      assert q == x;
    }
  }

  /** What follows a separator in a clean relative path is one too. */
  lemma CleanAfterSlash(q: string, i: nat)
    requires IsCleanRelative(q) && i < |q| && q[i] == '/'
    ensures IsCleanRelative(q[i + 1..])
  {
    var r := q[i + 1..];
    assert r[|r| - 1] == q[|q| - 1];
    assert r[0] != '/' by {
      assert r[0] == q[i + 1];
      assert !SlashPairAt(q, i);
    }
    forall j
      ensures !SlashPairAt(r, j)
    {
      assert !SlashPairAt(q, i + 1 + j);
    }
    forall j
      ensures !DotElementAt(r, j)
    {
      assert !DotElementAt(q, i + 1 + j);
    }
  }

  /** Walking the parts `strings.Split(dir, "/")` from `base` ends at `dir`
      joined onto `base`; the empty last part (and the single empty part
      of an empty `dir`) adds nothing. */
  lemma {:induction false} JoinAllSplit(base: string, dir: string)
    requires IsCleanDir(dir)
    requires NoTrailingSlash(base)
    ensures JoinAll(base, Split(dir, '/')) == Join(base, TrimSlash(dir))
    decreases |dir|
  {
    var parts := Split(dir, '/');
    if dir == "" {
      assert parts == [""];
      assert JoinAll(base, [""]) == JoinAll(Join(base, ""), []);
    } else {
      CleanDirCut(dir);
      var i := IndexOf(dir, '/');
      var x := dir[..i];
      var rest := dir[i + 1..];
      var tail := Split(rest, '/');
      assert parts == [x] + tail;
      assert parts[1..] == tail;
      JoinNoTrailingSlash(base, x);
      JoinAllSplit(Join(base, x), rest);
      if rest != "" {
        JoinAssociative(base, x, TrimSlash(rest));
      }
    }
  }

  /** Joining the directory part (without its separator) and the file part
      of a clean relative path gives the path back. */
  lemma JoinSplitPath(p: string)
    requires IsCleanRelative(p)
    ensures Join(TrimSlash(SplitPath(p).0), SplitPath(p).1) == p
  {
    SplitCleanRelative(p);
    var (d, f) := SplitPath(p);
    JoinTrimmed(d, f);
  }

  lemma JoinTrimmed(d: string, f: string)
    requires IsCleanDir(d) && f != ""
    ensures Join(TrimSlash(d), f) == d + f
  {
    if d != "" {
      var q := d[..|d| - 1];
      assert q[|q| - 1] != '/';
      assert d == q + "/";
    }
  }
}
