/**
 * What the program prints once the tree is built: `printTree`'s outline,
 * `printFiles`' blocks of file contents, and the binary test in
 * `fileContents`.  Output is modelled as the text produced: the lines of
 * the outline, and for the file blocks the text written together with
 * whether the program exited while writing it.
 */
module Rendering {
  import opened Text
  import opened Entries
  import opened Trees

  /** The line `printTree` prints for an entry named `name` at `depth`:
      three spaces per level, then `-- ` and the name. */
  function TreeLine(name: string, depth: nat): string
  {
    Repeat("   ", depth) + "-- " + name
  }

  /** A line of the outline is `3 * depth` spaces, then `-- `, then the
      name. */
  lemma TreeLineShape(name: string, depth: nat)
    ensures var r := TreeLine(name, depth);
            && |r| == 3 * depth + 3 + |name|
            && (forall i :: 0 <= i < 3 * depth ==> r[i] == ' ')
            && r[3 * depth..] == "-- " + name
  {
  }

  /** `printTree(entry, indent)`: the lines printed, in order.  With
      `indent == -1` the entry itself gets no line; only directories are
      descended into, their children in stored order one level deeper. */
  function PrintTree(t: Entry, indent: int): (lines: seq<string>)
    requires indent >= -1
    ensures indent >= 0 ==> |lines| >= 1 && lines[0] == TreeLine(t.name, indent)
    ensures !t.isDir ==> |lines| == if indent == -1 then 0 else 1
  {
    (if indent != -1 then [TreeLine(t.name, indent)] else []) +
    (if t.isDir then PrintChildren(t.entries, indent + 1) else [])
  }

  /** The lines `printTree` prints for the children `s`, each at `indent`:
      at least one per child, the first child's own line first. */
  function PrintChildren(s: seq<Entry>, indent: nat): (lines: seq<string>)
    ensures |lines| >= |s|
    ensures s != [] ==> lines[0] == TreeLine(s[0].name, indent)
  {
    if s == [] then [] else PrintTree(s[0], indent) + PrintChildren(s[1..], indent)
  }

  /** The number of entries in the tree, the top one included: its
      directories and its files. */
  function EntryCount(t: Entry): nat
  {
    |Relatives(t, true)| + |Relatives(t, false)|
  }

  /** With children only under directories, `printTree` prints one line per
      entry of the tree, less the top entry's line when `indent` is -1. */
  lemma {:induction false} TreeLineCount(t: Entry, indent: int)
    requires indent >= -1 && FilesAreLeaves(t)
    ensures |PrintTree(t, indent)| == EntryCount(t) - if indent == -1 then 1 else 0
    decreases t, 1
  {
    if t.isDir {
      ChildrenLineCount(t.entries, indent + 1);
    }
    OwnRelatives(t);
  }

  lemma {:induction false} ChildrenLineCount(s: seq<Entry>, indent: nat)
    requires forall i :: 0 <= i < |s| ==> FilesAreLeaves(s[i])
    ensures |PrintChildren(s, indent)| == |RelativesIn(s, true)| + |RelativesIn(s, false)|
    decreases s, 0
  {
    if s != [] {
      TreeLineCount(s[0], indent);
      ChildrenLineCount(s[1..], indent);
    }
  }

  /** An entry counts itself once, as a directory or as a file, on top of
      what is below it. */
  lemma OwnRelatives(t: Entry)
    ensures EntryCount(t) == 1 + |RelativesIn(t.entries, true)| + |RelativesIn(t.entries, false)|
  {
  }

  /** The lines, each indented three more spaces. */
  function Indented(lines: seq<string>): (r: seq<string>)
    ensures |r| == |lines|
    ensures forall i :: 0 <= i < |lines| ==> r[i] == "   " + lines[i]
  {
    if lines == [] then [] else ["   " + lines[0]] + Indented(lines[1..])
  }

  lemma {:induction false} IndentedConcat(a: seq<string>, b: seq<string>)
    ensures Indented(a + b) == Indented(a) + Indented(b)
  {
    var l, r := Indented(a + b), Indented(a) + Indented(b);
    assert |l| == |r|;
    forall i | 0 <= i < |l|
      ensures l[i] == r[i]
    {
      if i < |a| {
        assert (a + b)[i] == a[i];
      } else {
        assert (a + b)[i] == b[i - |a|];
      }
    }
  }

  /** One level deeper, the same outline is printed three spaces further
      in: the tree's shape alone decides the lines, and the indent only
      shifts them. */
  lemma {:induction false} TreeShift(t: Entry, indent: nat)
    ensures PrintTree(t, indent + 1) == Indented(PrintTree(t, indent))
    decreases t, 1
  {
    assert TreeLine(t.name, indent + 1) == "   " + TreeLine(t.name, indent);
    if t.isDir {
      ChildrenShift(t.entries, indent + 1);
      IndentedConcat([TreeLine(t.name, indent)], PrintChildren(t.entries, indent + 1));
    } else {
      assert PrintTree(t, indent) == [TreeLine(t.name, indent)];
    }
  }

  lemma {:induction false} ChildrenShift(s: seq<Entry>, indent: nat)
    ensures PrintChildren(s, indent + 1) == Indented(PrintChildren(s, indent))
    decreases s, 0
  {
    if s != [] {
      TreeShift(s[0], indent);
      ChildrenShift(s[1..], indent);
      IndentedConcat(PrintTree(s[0], indent), PrintChildren(s[1..], indent));
    }
  }

  /** `a` leads from `t` to an entry below it through directories only:
      the entries `printTree` descends to. */
  predicate Reached(t: Entry, a: Address)
    decreases |a|
  {
    && a != [] && t.isDir && a[0] < |t.entries|
    && (|a| == 1 || Reached(t.entries[a[0]], a[1..]))
  }

  lemma {:induction false} ReachedValid(t: Entry, a: Address)
    requires Reached(t, a)
    ensures ValidAddr(t, a)
    decreases |a|
  {
    if |a| > 1 {
      ReachedValid(t.entries[a[0]], a[1..]);
    }
  }

  /** The addresses of the entries below `t`, in the order `printTree`
      prints their lines: each child of a directory, followed by what lies
      below that child. */
  function Outline(t: Entry): seq<Address>
    decreases t, |t.entries| + 1
  {
    if t.isDir then OutlineFrom(t, 0) else []
  }

  /** The addresses `Outline` lists for the children `j..` of `t`. */
  function OutlineFrom(t: Entry, j: nat): seq<Address>
    decreases t, |t.entries| - j
  {
    if j >= |t.entries| then []
    else [[j]] + Under(j, Outline(t.entries[j])) + OutlineFrom(t, j + 1)
  }

  /** The addresses `addrs`, taken below child `j`. */
  function Under(j: nat, addrs: seq<Address>): (r: seq<Address>)
    ensures |r| == |addrs|
    ensures forall k :: 0 <= k < |addrs| ==> r[k] == [j] + addrs[k]
  {
    seq(|addrs|, k requires 0 <= k < |addrs| => [j] + addrs[k])
  }

  /** `line` is the line `printTree` prints for the entry `a` leads to,
      reached from `t` through directories, when `t` is at depth `d`. */
  predicate LineFor(t: Entry, a: Address, line: string, d: int)
  {
    && Reached(t, a) && ValidAddr(t, a) && d + |a| >= 0
    && line == TreeLine(NodeAt(t, a).name, d + |a|)
  }

  /** Line `k` of `lines` is the line for the `k`-th of `addrs`. */
  predicate LinesFor(t: Entry, addrs: seq<Address>, lines: seq<string>, d: int)
  {
    && |lines| == |addrs|
    && forall k {:trigger LineFor(t, addrs[k], lines[k], d)} :: 0 <= k < |addrs| ==> LineFor(t, addrs[k], lines[k], d)
  }

  /** The lines `printTree` prints below `t`, its children at `indent`. */
  function Below(t: Entry, indent: nat): seq<string>
  {
    if t.isDir then PrintChildren(t.entries, indent) else []
  }

  /** `printTree(root, -1)`, as `main` calls it, prints one line for each
      entry reached through directories, in the order `Outline` lists
      them: line `k` is the line of the entry at the `k`-th address, at
      depth one less than the address's length. */
  lemma OutlineLines(t: Entry)
    ensures LinesFor(t, Outline(t), PrintTree(t, -1), -1)
  {
    TreeLines(t, 0);
    assert PrintTree(t, -1) == Below(t, 0);
  }

  /** The lines below `t`, its children at `d`, are those of the entries
      its outline lists, `t` sitting at depth `d - 1`. */
  lemma {:induction false} TreeLines(t: Entry, d: nat)
    ensures LinesFor(t, Outline(t), Below(t, d), d - 1)
    decreases t, |t.entries| + 1
  {
    if t.isDir {
      ChildLines(t, 0, d);
      assert t.entries[0..] == t.entries;
    }
  }

  lemma {:induction false} ChildLines(t: Entry, j: nat, d: nat)
    requires t.isDir && j <= |t.entries|
    ensures LinesFor(t, OutlineFrom(t, j), PrintChildren(t.entries[j..], d), d - 1)
    decreases t, |t.entries| - j
  {
    if j < |t.entries| {
      TreeLines(t.entries[j], d + 1);
      ChildLines(t, j + 1, d);
      ChildStep(t, j, d);
    }
  }

  /** The lines for the children `j..`: child `j`'s own line, the lines
      below it, and the lines for the children after it. */
  lemma ChildStep(t: Entry, j: nat, d: nat)
    requires t.isDir && j < |t.entries|
    requires LinesFor(t.entries[j], Outline(t.entries[j]), Below(t.entries[j], d + 1), d)
    requires LinesFor(t, OutlineFrom(t, j + 1), PrintChildren(t.entries[j + 1..], d), d - 1)
    ensures LinesFor(t, OutlineFrom(t, j), PrintChildren(t.entries[j..], d), d - 1)
  {
    var c := t.entries[j];
    var u := Under(j, Outline(c));
    var own := [TreeLine(c.name, d)];
    LinesUnder(t, j, Outline(c), Below(c, d + 1), d);
    OwnLine(t, j, d);
    LinesConcat(t, [[j]], own, u, Below(c, d + 1), d - 1);
    LinesConcat(t, [[j]] + u, own + Below(c, d + 1), OutlineFrom(t, j + 1),
                PrintChildren(t.entries[j + 1..], d), d - 1);
    ChildrenUnfold(t, j, d);
  }

  /** The lines for the children `j..` are child `j`'s own, those below
      it, then those of the children after it. */
  lemma ChildrenUnfold(t: Entry, j: nat, d: nat)
    requires j < |t.entries|
    ensures PrintChildren(t.entries[j..], d) ==
            [TreeLine(t.entries[j].name, d)] + Below(t.entries[j], d + 1) +
            PrintChildren(t.entries[j + 1..], d)
  {
    var s := t.entries[j..];
    assert s[0] == t.entries[j] && s[1..] == t.entries[j + 1..];
  }

  /** Child `j` gets its own line, one level below `t`. */
  lemma OwnLine(t: Entry, j: nat, d: nat)
    requires t.isDir && j < |t.entries|
    ensures LinesFor(t, [[j]], [TreeLine(t.entries[j].name, d)], d - 1)
  {
    var a: Address := [j];
    assert a[0] == j && |a| == 1 && a[1..] == [];
    assert Reached(t, a);
    assert ValidAddr(t.entries[j], []);
    assert ValidAddr(t, a);
    assert NodeAt(t, a) == NodeAt(t.entries[j], []) == t.entries[j];
    assert LineFor(t, a, TreeLine(t.entries[j].name, d), d - 1);
    assert [a] == [[j]];
  }

  /** The lines for what lies below child `j`, taken from `t`. */
  lemma LinesUnder(t: Entry, j: nat, addrs: seq<Address>, lines: seq<string>, d: int)
    requires t.isDir && j < |t.entries|
    requires LinesFor(t.entries[j], addrs, lines, d)
    ensures LinesFor(t, Under(j, addrs), lines, d - 1)
  {
    var u := Under(j, addrs);
    forall k | 0 <= k < |u|
      ensures LineFor(t, u[k], lines[k], d - 1)
    {
      var a := u[k];
      assert LineFor(t.entries[j], addrs[k], lines[k], d);
      assert a[0] == j && a[1..] == addrs[k];
      ReachedValid(t, a);
    }
  }

  lemma LinesConcat(t: Entry, a1: seq<Address>, l1: seq<string>, a2: seq<Address>, l2: seq<string>, d: int)
    requires LinesFor(t, a1, l1, d) && LinesFor(t, a2, l2, d)
    ensures LinesFor(t, a1 + a2, l1 + l2, d)
  {
    forall k | 0 <= k < |a1 + a2|
      ensures LineFor(t, (a1 + a2)[k], (l1 + l2)[k], d)
    {
      if k < |a1| {
        assert LineFor(t, a1[k], l1[k], d);
      } else {
        assert LineFor(t, a2[k - |a1|], l2[k - |a1|], d);
      }
    }
  }

  /** Every entry reached through directories gets a line: its address is
      in the outline. */
  lemma {:induction false} ReachedInOutline(t: Entry, a: Address)
    requires Reached(t, a)
    ensures a in Outline(t)
    decreases t, |t.entries| + 1
  {
    ReachedFrom(t, a, 0);
  }

  lemma {:induction false} ReachedFrom(t: Entry, a: Address, j: nat)
    requires Reached(t, a) && j <= a[0]
    ensures a in OutlineFrom(t, j)
    decreases t, |t.entries| - j
  {
    var c := t.entries[j];
    if j == a[0] {
      if |a| == 1 {
        assert a == [j];
      } else {
        ReachedInOutline(c, a[1..]);
        var k :| 0 <= k < |Outline(c)| && Outline(c)[k] == a[1..];
        assert a == [j] + a[1..];
        assert Under(j, Outline(c))[k] == a;
      }
    } else {
      ReachedFrom(t, a, j + 1);
    }
  }

  /** A byte of a file's contents. */
  newtype byte = b: int | 0 <= b < 256

  /** How many leading bytes `fileContents` searches for a NUL. */
  const ProbeLength: nat := 10240

  /** What `fileContents` returns instead of a binary file's contents. */
  const BinaryNotice := "<binary data skipped>"

  /** `string(data)`: the bytes as text, one character per byte. */
  function AsText(data: seq<byte>): (r: string)
    ensures |r| == |data|
    ensures forall i :: 0 <= i < |data| ==> r[i] as int == data[i] as int
  {
    seq(|data|, i requires 0 <= i < |data| => (data[i] as int) as char)
  }

  /** `bytes.IndexByte(s, c)`: the first position of `c` in `s`, or -1. */
  function IndexByte(s: seq<byte>, c: byte): (r: int)
    ensures r == -1 <==> c !in s
    ensures r != -1 ==> 0 <= r < |s| && s[r] == c && c !in s[..r]
  {
    if s == [] then -1
    else if s[0] == c then 0
    else
      var k := IndexByte(s[1..], c);
      assert s == [s[0]] + s[1..];
      if k == -1 then -1
      else
        assert s[..k + 1] == [s[0]] + s[1..][..k];
        k + 1
  }

  /** A NUL occurs among the first `ProbeLength` bytes. */
  predicate LooksBinary(data: seq<byte>)
  {
    exists i :: 0 <= i < |data| && i < ProbeLength && data[i] == 0
  }

  /** `fileContents` on the bytes `data` the read returned: the notice for
      binary data, else the data as text. */
  function FileContents(data: seq<byte>): (r: string)
    ensures LooksBinary(data) ==> r == BinaryNotice
    ensures !LooksBinary(data) ==> r == AsText(data)
  {
    var test := if |data| > ProbeLength then data[..ProbeLength] else data;
    if IndexByte(test, 0) != -1 then
      BinaryNotice
    else
      assert forall i :: 0 <= i < |data| && i < ProbeLength ==> data[i] == test[i];
      AsText(data)
  }

  /** `fileContents` returns the empty string exactly for an empty file,
      so empty files are the ones `printFiles` prints nothing for. */
  lemma EmptyContents(data: seq<byte>)
    ensures FileContents(data) == "" <==> data == []
  {
    if data != [] && !LooksBinary(data) {
      assert |AsText(data)| == |data|;
    }
  }

  /** The test only looks at the first `ProbeLength` bytes: a file of
      `ProbeLength` bytes of `'A'` followed by a NUL comes back as text,
      NUL included. */
  lemma LateNulUndetected()
    ensures var data := seq(ProbeLength, _ => 65 as byte) + [0 as byte];
            0 in data && FileContents(data) == AsText(data) &&
            FileContents(data)[ProbeLength] == 0 as char
  {
    var data := seq(ProbeLength, _ => 65 as byte) + [0 as byte];
    assert data[ProbeLength] == 0;
    assert !LooksBinary(data) by {
      forall i | 0 <= i < |data| && i < ProbeLength
        ensures data[i] != 0
      {
        assert data[i] == 65;
      }
    }
  }

  /** Go's `%q` for the path in a block header, as far as modelled: the
      path between double quotes, with `"` and `\` escaped. */
  function Quote(s: string): (r: string)
    ensures |r| >= |s| + 2 && r[0] == '"' && r[|r| - 1] == '"'
  {
    "\"" + Escaped(s) + "\""
  }

  function Escaped(s: string): (r: string)
    ensures |r| >= |s|
  {
    if s == [] then ""
    else (if s[0] == '"' || s[0] == '\\' then ['\\', s[0]] else [s[0]]) + Escaped(s[1..])
  }

  /** The start of the line `printFiles` writes before a file's contents. */
  const BeginMarker := "----------- BEGIN Contents of "

  /** The start of the line `printFiles` writes after a file's contents. */
  const EndMarker := "----------- END Contents of "

  /** The block `printFiles` prints for a non-empty file: a BEGIN line,
      the contents and a newline, an END line and an empty line.  The
      contents come verbatim right after the BEGIN line. */
  function FileBlock(relative: string, out: string): (r: string)
    ensures |r| == |BeginMarker| + |EndMarker| + 2 * |Quote(relative)| + |out| + 5
    ensures r[..|BeginMarker|] == BeginMarker
    ensures var h := |BeginMarker| + |Quote(relative)| + 2;
            r[h - 2..h] == ":\n" && r[h..h + |out|] == out && r[h + |out|] == '\n'
    ensures r[|BeginMarker|..|BeginMarker| + |Quote(relative)|] == Quote(relative)
    ensures var h := |BeginMarker| + |Quote(relative)| + 2;
            r[h + |out| + 1..] == EndMarker + Quote(relative) + "\n\n"
    ensures r[|r| - 2..] == "\n\n"
  {
    var q := Quote(relative);
    ThreeParts(BeginMarker, q, ":\n");
    ThreeParts(EndMarker, q, "\n\n");
    var head := BeginMarker + q + ":\n";
    var tail := EndMarker + q + "\n\n";
    ThreeParts(head, out, "\n" + tail);
    head + out + "\n" + tail
  }

  /** Where each of three concatenated strings sits in the result. */
  lemma ThreeParts(a: string, b: string, c: string)
    ensures |a + b + c| == |a| + |b| + |c|
    ensures (a + b + c)[..|a|] == a && (a + b + c)[|a|..|a| + |b|] == b
    ensures (a + b + c)[|a| + |b|..] == c
  {
  }

  /** What a run of `printFiles` writes, and whether it ended the process
      (`fileContents` exits when a read fails). */
  datatype Run = Run(out: string, exited: bool)

  /** `a`, then `b` unless `a` exited. */
  function Then(a: Run, b: Run): (r: Run)
    ensures a.exited ==> r == a
    ensures !a.exited ==> r.out == a.out + b.out && r.exited == b.exited
  {
    if a.exited then a else Run(a.out + b.out, b.exited)
  }

  lemma ThenAssociative(a: Run, b: Run, c: Run)
    ensures Then(Then(a, b), c) == Then(a, Then(b, c))
  {
    if !a.exited && !b.exited {
      assert a.out + b.out + c.out == a.out + (b.out + c.out);
    }
  }

  /** `printFiles` on a file entry, the files on disk given as `disk`
      (path to contents; a missing path is a failed read, which exits). */
  function FileOutput(t: Entry, disk: map<string, seq<byte>>): (r: Run)
    ensures r.exited <==> t.path !in disk
    ensures t.path in disk && disk[t.path] == [] ==> r.out == ""
    ensures t.path in disk && disk[t.path] != [] ==> r.out == FileBlock(t.relative, FileContents(disk[t.path]))
  {
    if t.path !in disk then Run("", true)
    else
      var out := FileContents(disk[t.path]);
      EmptyContents(disk[t.path]);
      if out != "" then Run(FileBlock(t.relative, out), false) else Run("", false)
  }

  /** `printFiles(entry)`: directories print nothing themselves and go
      through their children in stored order; files print their block. */
  function PrintFiles(t: Entry, disk: map<string, seq<byte>>): (r: Run)
    ensures !t.isDir ==> (r.exited <==> t.path !in disk)
    ensures t.isDir && t.entries == [] ==> r == Run("", false)
  {
    if t.isDir then PrintFilesIn(t.entries, disk) else FileOutput(t, disk)
  }

  function PrintFilesIn(s: seq<Entry>, disk: map<string, seq<byte>>): (r: Run)
    ensures s == [] ==> r == Run("", false)
    ensures |s| == 1 ==> r == PrintFiles(s[0], disk)
  {
    if s == [] then Run("", false) else Then(PrintFiles(s[0], disk), PrintFilesIn(s[1..], disk))
  }

  /** The file entries of a tree in pre-order over the stored children,
      reached through directories. */
  function Files(t: Entry): (r: seq<Entry>)
    ensures forall i :: 0 <= i < |r| ==> !r[i].isDir
  {
    if t.isDir then FilesIn(t.entries) else [t]
  }

  function FilesIn(s: seq<Entry>): (r: seq<Entry>)
    ensures forall i :: 0 <= i < |r| ==> !r[i].isDir
  {
    if s == [] then [] else Files(s[0]) + FilesIn(s[1..])
  }

  /** The files `fs` printed one after the other, stopping at the first
      failed read. */
  function Emit(fs: seq<Entry>, disk: map<string, seq<byte>>): Run
  {
    if fs == [] then Run("", false) else Then(FileOutput(fs[0], disk), Emit(fs[1..], disk))
  }

  lemma {:induction false} EmitConcat(a: seq<Entry>, b: seq<Entry>, disk: map<string, seq<byte>>)
    ensures Emit(a + b, disk) == Then(Emit(a, disk), Emit(b, disk))
  {
    if a == [] {
      assert a + b == b;
    } else {
      assert (a + b)[0] == a[0] && (a + b)[1..] == a[1..] + b;
      EmitConcat(a[1..], b, disk);
      ThenAssociative(FileOutput(a[0], disk), Emit(a[1..], disk), Emit(b, disk));
    }
  }

  /** `printFiles` prints the tree's files in pre-order, each on its own,
      and directories add nothing. */
  lemma {:induction false} PrintFilesPreorder(t: Entry, disk: map<string, seq<byte>>)
    ensures PrintFiles(t, disk) == Emit(Files(t), disk)
    decreases t, 1
  {
    if t.isDir {
      PrintFilesInPreorder(t.entries, disk);
    } else {
      assert [t][1..] == [];
    }
  }

  lemma {:induction false} PrintFilesInPreorder(s: seq<Entry>, disk: map<string, seq<byte>>)
    ensures PrintFilesIn(s, disk) == Emit(FilesIn(s), disk)
    decreases s, 0
  {
    if s != [] {
      PrintFilesPreorder(s[0], disk);
      PrintFilesInPreorder(s[1..], disk);
      EmitConcat(Files(s[0]), FilesIn(s[1..]), disk);
    }
  }

  /** The run exits exactly when some file cannot be read. */
  lemma {:induction false} EmitExits(fs: seq<Entry>, disk: map<string, seq<byte>>)
    ensures Emit(fs, disk).exited <==> exists f :: f in fs && f.path !in disk
  {
    if fs != [] {
      EmitExits(fs[1..], disk);
      assert forall f :: f in fs <==> f == fs[0] || f in fs[1..] by {
        assert fs == [fs[0]] + fs[1..];
      }
    }
  }

  /** When the file at `i` is the first that cannot be read, the output is
      that of the files before it. */
  lemma {:induction false} EmitStopsAtFailure(fs: seq<Entry>, disk: map<string, seq<byte>>, i: nat)
    requires i < |fs| && fs[i].path !in disk
    requires forall j :: 0 <= j < i ==> fs[j].path in disk
    ensures Emit(fs, disk).out == Emit(fs[..i], disk).out
  {
    if i > 0 {
      EmitStopsAtFailure(fs[1..], disk, i - 1);
      assert fs[..i][0] == fs[0] && fs[..i][1..] == fs[1..][..i - 1];
    }
  }

  /** Every file of the tree, and nothing else, gets its turn: when
      children only sit under directories, the relative paths of the
      files printed in order are the tree's file paths. */
  lemma {:induction false} FilesCoverTree(t: Entry)
    requires FilesAreLeaves(t)
    ensures RelativesOf(Files(t)) == Relatives(t, false)
    decreases t, 1
  {
    if t.isDir {
      FilesInCoverTree(t.entries);
    } else {
      assert [t][1..] == [];
    }
  }

  lemma {:induction false} FilesInCoverTree(s: seq<Entry>)
    requires forall i :: 0 <= i < |s| ==> FilesAreLeaves(s[i])
    ensures RelativesOf(FilesIn(s)) == RelativesIn(s, false)
    decreases s, 0
  {
    if s != [] {
      FilesCoverTree(s[0]);
      FilesInCoverTree(s[1..]);
      RelativesOfConcat(Files(s[0]), FilesIn(s[1..]));
    }
  }

  /** The relative paths of a sequence of entries. */
  function RelativesOf(fs: seq<Entry>): multiset<string>
  {
    if fs == [] then multiset{} else multiset{fs[0].relative} + RelativesOf(fs[1..])
  }

  lemma {:induction false} RelativesOfConcat(a: seq<Entry>, b: seq<Entry>)
    ensures RelativesOf(a + b) == RelativesOf(a) + RelativesOf(b)
  {
    if a == [] {
      assert a + b == b;
    } else {
      assert (a + b)[0] == a[0] && (a + b)[1..] == a[1..] + b;
      RelativesOfConcat(a[1..], b);
    }
  }
}
