# llm-feeder core in Dafny

llm-feeder prints a directory tree and then the contents of its files, to be
handed to a language model. This project models the two steps that decide
what gets printed:

- **Building the project tree** (`project.go`):
  - `newProject` makes the synthetic `<root>` entry;
  - `shouldIgnore` tests a path against the shell patterns;
  - `fsEntry.scan` lists a directory. It drops ignored items, recurses into
    subdirectories and sorts each directory's children by name with
    `sortEntries`;
  - `scanAll` scans the root;
  - `addFiles` builds the same kind of tree from a list of paths instead. It
    shares directory entries through a map.
- **Rendering** (`main.go`):
  - `printTree` prints the indented outline;
  - `printFiles` prints one block per non-empty file, in pre-order;
  - `fileContents` applies the binary test: a NUL among the first 10240
    bytes;
  - `stringSlice` collects the repeated `-I` flag.

The file system is an input value. `FileSystem.Disk` is what `os.ReadDir`
reports for each directory. A map from path to bytes stands for what
`ioutil.ReadFile` returns. `filepath.Abs`, `os.Stat` and `filepath.Rel` are
function parameters.

`fsEntry` is the datatype `Entries.Entry`. The scan's loop is the method
`Scanning.Scan`. It is proved to leave exactly the entry the functions
`ScanOf`/`Added`/`Built` describe, and the properties are lemmas about those
functions.

`project` is the class `Projects.Project`. Its `AddFiles` and its inner
loops are methods over the root tree. The tree only grows by appending, so
the `dirmap` of `*fsEntry` references is kept as a map from subpath to
*address*: the child indices that lead from the root to the directory
entry. The methods are proved equal to the functions
`WalkFrom`/`AddFileTo`/`AddAll`, and the lemmas state what those add to the
tree.

The model reproduces two behaviours of the code as written:

- A file given at the base directory gets a directory entry named `""`
  (`BaseFileGetsEmptyDirectory`). `filepath.Split` leaves an empty directory
  part, `strings.Split` makes that one empty part, and joining it to the
  root's `""` gives `""` again.
- `addFiles`' comment says ignored paths are skipped, but the code never
  consults the ignore patterns. The model follows the code.

Modules:

| file | module |
|---|---|
| `outcomes.dfy` | `Outcomes` |
| `text.dfy` | `Text` |
| `paths.dfy` | `Paths` |
| `glob.dfy` | `Glob` |
| `filesystem.dfy` | `FileSystem` |
| `entries.dfy` | `Entries` |
| `trees.dfy` | `Trees` |
| `scanning.dfy` | `Scanning` |
| `projects.dfy` | `Projects` |
| `rendering.dfy` | `Rendering` |
| `flags.dfy` | `Flags` |

## Model

| member | source | states |
|---|---|---|
| Text.Less | project.go:21-23 | Go's `<` on the names `sortEntries` compares: a name is never below itself, and nothing is below the empty string |
| Text.LessLexicographic | project.go:21-23 | that order is the lexicographic one: `a < b` exactly when `a` is a proper prefix of `b` or the first character where they differ is smaller in `a` |
| Text.LessIrreflexive | project.go:21-23 | irreflexivity of Go's `<` on the names `sortEntries` compares, a corollary of `Text.Less`'s own contract |
| Text.LessTransitive | project.go:21-23 | that order is transitive |
| Text.LessTotal | project.go:21-23 | any two different names are ordered one way or the other |
| Text.LeqAntisymmetric | project.go:21-23 | two names each `<=` the other are equal |
| Text.Repeat | main.go:69 | `strings.Repeat(s, n)` has length `n * len(s)` and holds only characters of `s` |
| Text.JoinWith | main.go:18 | `strings.Join`, defined on the number of parts; `JoinWithAppend` and `Split` state what it builds |
| Text.JoinWithAppend | main.go:18 | joining one more value adds the separator and the value at the end, or gives the value alone when there were none |
| Text.Split | project.go:119 | `strings.Split` gives at least one piece, no piece holds the separator, and joining the pieces with the separator gives the input back |
| Paths.Join | project.go:70-71 | `filepath.Join(dir, elem)` drops an empty element, gives the element for an empty directory, and otherwise extends the directory |
| Paths.JoinAssociative | project.go:122-124 | joining a path and two elements in two steps gives the same path as joining once with the joined elements |
| Paths.SplitPath | project.go:118 | `filepath.Split` cuts a path into a directory part ending in a separator (or empty) and a separator-free last element, which concatenate back to the path |
| Paths.SplitCleanRelative | project.go:112-118 | for a clean relative path from `filepath.Rel`, the file part is non-empty and the directory part is empty or a clean path plus one separator |
| Paths.JoinAllSplit | project.go:119-129 | walking the parts `strings.Split(dir, "/")` from a base ends at the directory part (without its separator) joined onto the base |
| Paths.JoinSplitPath | project.go:118-131 | joining the directory part back onto the file part of a clean relative path gives the path |
| Glob.Glob | project.go:52 | the pattern language `filepath.Match` decides over a whole name: `*` and `?` stop at separators, a backslash escapes the next character, and anything else matches itself; its properties are the `Glob` lemmas below |
| Glob.Match | project.go:52 | `filepath.Match` fails exactly for a malformed pattern (a trailing lone backslash) and otherwise reports whether the whole name matches |
| Glob.GlobStaysInElement | project.go:52 | a pattern without separators only matches names without separators |
| Glob.LiteralMatchesItself | project.go:52 | a pattern without special characters matches exactly itself |
| Glob.Matched | project.go:52 | the `matched` result the program keeps after dropping the error: false for a malformed pattern (`MalformedIgnoresNothing`) |
| Glob.StarSuffix | project.go:52 | `*` then a literal suffix matches exactly the names ending in the suffix with no separator before it |
| Glob.StarDotLogExample | project.go:49-58 | `*.log` matches `app.log` and not `app.txt` |
| Entries.Insert | project.go:20-24 | inserting into a by-name sorted sequence keeps it sorted and adds exactly the one entry |
| Entries.SortByName | project.go:20-24 | `sortEntries` leaves the children sorted ascending by name and a permutation of what they were |
| Entries.DistinctNamesPermutation | project.go:20-24 | a permutation of children with distinct names has distinct names |
| Entries.SortedPermutationUnique | project.go:20-24 | with distinct names, every sorted permutation is the one `SortByName` gives, so which sort algorithm is used does not matter |
| Trees.AppendAt | project.go:126 | appending a child to the entry at an address changes no other field of the root and adds a child to the root only when the address is the root's |
| Trees.ExtendsTransitive | project.go:126 | growing a tree by appending, twice, is growing it |
| Trees.ExtendsKeepsAddress | project.go:123-128 | after the tree grows, every recorded address still leads to the same entry with its children extended: the `dirmap` references stay valid |
| Trees.AppendAtExtends | project.go:126 | appending a child only grows the tree |
| Trees.AppendAtNew | project.go:126-128 | the appended child sits at the parent's address plus its old child count, and the parent's children gain exactly it at the end |
| Trees.AppendAtRelatives | project.go:126 | appending a childless entry adds its relative path to the tree's directories or its files, and nothing else |
| Trees.AppendAtComposed | project.go:124 | appending an entry whose paths are its parent's paths joined with its name keeps every entry's paths composed |
| Trees.AppendAtLeaves | project.go:126 | appending a childless entry under a directory keeps files without children |
| Scanning.NewChild | project.go:77 | the `fsEntry` created for a listed item: its name, the parent's path and relative path joined with the name, not a directory, no children; `Built` and `ScanMatchesListing` state what becomes of it |
| Scanning.Skipped | project.go:72 | an item is skipped when the ignore test holds of its relative path or of its bare name; `ScanDropsSkipped` and `KeptInAdded` state its effect |
| Scanning.Added | project.go:68-86 | the children the loop appends, in listing order, for the items not skipped; `KeptInAdded`, `AddedFromKept` and `AddedDistinct` state which they are |
| Scanning.ScanOf | project.go:62-90 | `scan` fails exactly when the directory cannot be listed; otherwise it keeps the entry's own fields and leaves its children sorted by name and a permutation of the old children plus the appended ones |
| Scanning.Scanned | project.go:84 | the entry a scan leaves keeps its own fields, and it is untouched when the listing fails |
| Scanning.Built | project.go:77-85 | each kept item becomes a child of the item's name and kind, at the parent's relative path and path joined with the name; it has no children when it is a file or its listing fails |
| Scanning.Scan | project.go:62-90 | the method with the program's loop returns the listing error with the entry unchanged, or no error and exactly the entry `ScanOf` describes |
| Scanning.ScanInvariants | project.go:68-88 | a scan keeps every child's paths composed and files without children; when the old children were, every directory below ends up sorted and no child anywhere has an ignored relative path or name |
| Scanning.ScanChildren | project.go:68-88 | every child after a scan was there before or was appended, well built and not ignored |
| Scanning.BuiltInvariants | project.go:77-85 | a built child is sorted, composed and pruned all the way down |
| Scanning.KeptInAdded | project.go:68-80 | every listed item that passes the ignore test is appended |
| Scanning.AddedFromKept | project.go:68-80 | every appended child was built from a listed item that passed the ignore test |
| Scanning.AddedDistinct | project.go:68-80 | a listing that reports each name once gives children with distinct names |
| Scanning.ScanMatchesListing | project.go:68-86 | scanning a fresh entry gives exactly one child per kept item, none of the name of a skipped item, nothing else, and no two children of the same name |
| Scanning.ScanDropsSkipped | project.go:72-75 | an item whose relative path or name is ignored leaves no child of its name, so its subtree is never reached |
| Scanning.ScanMirrors | project.go:68-88 | with an ignore test that matches nothing, the scanned tree mirrors the file system one to one, by name and kind, all the way down |
| Scanning.ScanSize | project.go:68-80 | with nothing ignored, a fresh scan has one child per listed item |
| Projects.Ignored | project.go:50-58 | some pattern of the list matches the path; `Project.ShouldIgnore` is proved to compute it |
| Projects.IgnoreTest | project.go:95 | the method value `p.shouldIgnore` that `scanAll` passes to `scan`: it answers true for a path exactly when `filepath.Match` returns true, without error, for one of the patterns |
| Projects.IgnoredAppend | project.go:50-58 | one more pattern ignores what it matches on top of what the others ignore |
| Projects.MalformedIgnoresNothing | project.go:52 | a malformed pattern's error is dropped and it ignores nothing |
| Projects.Project.ShouldIgnore | project.go:50-58 | `shouldIgnore` is true exactly when some pattern matches, so an empty list ignores nothing |
| Projects.Project.ScanAll | project.go:94-96 | `scanAll` scans the root with `shouldIgnore`; on success a fresh root ends up sorted everywhere with no ignored entry; on failure the root is unchanged |
| Projects.Project.constructor | project.go:46 | the project `newProject` returns: no ignores and a `<root>` directory entry at the base with relative path `""` and no children |
| Projects.NewProject | project.go:31-47 | `newProject` fails when the path cannot be made absolute, cannot be examined, or is not a directory, and otherwise returns a fresh project as above |
| Projects.Resolve | project.go:103-115 | the relative paths are resolved one by one: each path returned is `filepath.Rel` of the root and `filepath.Abs` of the name at its position; the error is reported exactly when `filepath.Abs` or `filepath.Rel` fails on some name, and then it is for the first such name, `NoFullPath` with Abs's error when Abs failed and `NotRelative` when Rel did |
| Projects.BaseFileGetsEmptyDirectory | project.go:118-127 | a file at the base makes `addFiles` create a directory entry named `""` |
| Projects.NestedFileGetsItsDirectory | project.go:118-128 | a file one directory down needs exactly that directory |
| Projects.DirsOfPrefixes | project.go:118-128 | the directories `addFiles` needs for a path are exactly its prefixes that end just before a separator, or only `""` for a file at the base |
| Projects.SubpathsPrefixes | project.go:119-128 | walking the parts of a directory part from a base reaches the base joined with each prefix of the directory part that ends before a separator |
| Projects.ExtendsKeepsRecorded | project.go:123-128 | growing the tree keeps every directory recorded in `dirmap` where it was |
| Projects.Descend | project.go:121-128 | one pass of the inner loop; `Project.Walk` is proved to follow it and the `Descend` lemmas state what it does |
| Projects.DescendKeeps | project.go:121-128 | one pass of the inner loop keeps `dirmap` recording directories where they are, only grows the tree and ends at a directory |
| Projects.DescendRecords | project.go:122-128 | one pass records exactly the subpath (parent's relative path joined with the part) and moves to its directory |
| Projects.DescendShape | project.go:124-126 | one pass keeps the root well shaped |
| Projects.DescendRelatives | project.go:123-126 | one pass adds no file and a directory entry exactly for a subpath it newly records |
| Projects.WalkFrom | project.go:119-129 | the inner loop over all parts; `Project.Walk` is proved equal to it and the `WalkFrom` lemmas state what it does |
| Projects.WalkFromKeeps | project.go:119-129 | the inner loop keeps the map valid and only grows the tree |
| Projects.WalkFromRecords | project.go:119-129 | the inner loop records exactly the subpaths of the parts and ends at the directory for all parts joined |
| Projects.WalkFromShape | project.go:119-129 | the inner loop keeps the root well shaped |
| Projects.WalkFromRelatives | project.go:119-129 | the inner loop adds one directory entry per newly recorded subpath and no file |
| Projects.AddFileTo | project.go:118-132 | one pass of the outer loop; `Project.AddFile` is proved equal to it and the `AddFileTo` lemmas state what it does |
| Projects.AddFileToKeeps | project.go:118-132 | one path keeps the map valid, only grows the tree, and records the directories of its directory part |
| Projects.AddFileToShape | project.go:118-132 | one path keeps the root well shaped: the root stays a directory with relative path `""`, every entry's paths are its parent's joined with its name, and files have no children |
| Projects.AddFileToRelatives | project.go:118-132 | one path adds exactly one file entry at its relative path, and one directory entry per newly recorded subpath |
| Projects.AddAll | project.go:103-133 | the outer loop over the resolved paths; `Project.AddFiles` is proved equal to it and `AddFilesEntries` states what it adds |
| Projects.AddAllKeeps | project.go:103-133 | the outer loop keeps the map valid, only grows the tree and records the directories of every path |
| Projects.AddAllShape | project.go:103-133 | the outer loop keeps the root well shaped |
| Projects.AddAllFiles | project.go:103-133 | each path adds exactly one file entry, at its relative path |
| Projects.AddAllDirs | project.go:103-133 | each subpath recorded adds exactly one directory entry |
| Projects.AddFilesEntries | project.go:100-135 | `addFiles` leaves a well-shaped tree that extends the old one (old entries in place, new children after the old ones); it adds exactly one file per path and exactly one directory per needed subpath |
| Projects.Project.AddFiles | project.go:100-135 | the method with the program's loops leaves the ignores alone, grows the tree to exactly `AddAll` of the paths resolved before the first failure, and returns that failure's error |
| Projects.Project.AddFile | project.go:118-132 | one pass of the outer loop leaves exactly the tree and map `AddFileTo` describes |
| Projects.Project.Walk | project.go:119-129 | the inner loop leaves exactly the tree, map and parent `WalkFrom` describes |
| Rendering.TreeLine | main.go:69 | the line for one entry |
| Rendering.TreeLineShape | main.go:69 | an entry's line at depth `d` is `3 * d` spaces, `-- ` and the name |
| Rendering.PrintTree | main.go:67-76 | at a non-negative indent the first line is the entry's own line at that depth; a file prints one line, or none at indent -1 |
| Rendering.PrintChildren | main.go:71-74 | the children print at least one line each, the first child's own line first |
| Rendering.OutlineLines | main.go:67-76 | `printTree(root, -1)`, as `main` calls it at main.go:58, prints exactly one line per address `Outline` lists, in that order. Line `k` belongs to an entry reached from the root through directories only, at depth one less than the length of its address |
| Rendering.TreeLines | main.go:67-76 | below any entry, the lines are those of the entries its outline lists, at their depths |
| Rendering.ReachedInOutline | main.go:71-74 | every entry reached from the root through directories only is in the outline, so it gets its line |
| Rendering.TreeLineCount | main.go:67-76 | with children only under directories, `printTree` prints one line per entry of the tree, less the root's at indent -1 |
| Rendering.TreeShift | main.go:69-73 | one level deeper, every line of the outline is the same line three spaces further in |
| Rendering.IndexByte | main.go:104 | `bytes.IndexByte` is -1 exactly when the byte is absent, and otherwise the first position of the byte |
| Rendering.AsText | main.go:109 | `string(data)` keeps each byte, in order |
| Rendering.FileContents | main.go:94-110 | `fileContents` returns the binary notice exactly when a NUL occurs among the first 10240 bytes, and the data verbatim otherwise |
| Rendering.EmptyContents | main.go:86-87 | `fileContents` returns `""` exactly for an empty file, so only empty files print nothing |
| Rendering.LateNulUndetected | main.go:100-109 | a NUL only after byte 10240 goes undetected and is printed as text |
| Rendering.Quote | main.go:88 | the quoted path starts and ends with a double quote around the escaped path |
| Rendering.FileBlock | main.go:88-90 | the block is the BEGIN marker, the `%q`-quoted relative path, `:` and a newline; then the contents verbatim and a newline; then the END marker, the same quoted path and a newline, and an empty line |
| Rendering.FileOutput | main.go:86-91 | a file whose read fails ends the run; an empty file prints nothing; any other prints the BEGIN line, the contents and a newline, the END line and an empty line |
| Rendering.PrintFiles | main.go:78-91 | a file exits exactly when it cannot be read; an empty directory prints nothing |
| Rendering.PrintFilesIn | main.go:79-83 | no children print nothing, and one child prints what that child prints |
| Rendering.PrintFilesPreorder | main.go:78-85 | `printFiles` prints the tree's files in pre-order over the stored children, one after the other, stopping at a failed read; directories print nothing themselves |
| Rendering.EmitExits | main.go:95-99 | printing the files ends the program exactly when some file cannot be read |
| Rendering.EmitStopsAtFailure | main.go:95-99 | when a read fails, the output is that of the files before it |
| Rendering.FilesCoverTree | main.go:78-85 | with children only under directories, the files printed are exactly the tree's file entries, each once |
| Flags.StringSlice.constructor | main.go:28 | the flag starts with no values |
| Flags.StringSlice.String | main.go:17-19 | no values show as `""` and one value as itself |
| Flags.StringSlice.Set | main.go:21-24 | `Set` appends the value after the earlier ones, which stay unchanged, never fails, and `String` then shows the old text, `", "` and the value |

## Left out

- The real file system is not modelled. `filepath.Abs`, `os.Stat`, `os.ReadDir`, `filepath.Rel` and `ioutil.ReadFile` become input values or function parameters. Symlinks and cycles are not modelled; `DirEntry.IsDir` decides what counts as a directory.
- Glob.Match: implements `*`, `?`, backslash escapes and literal characters. `[...]` character classes are read as literal characters, so a pattern with an unclosed `[` is not reported as malformed as Go would.
- Glob.Glob: `[...]` character classes are not modelled; `[` and `]` match themselves, as stated for `Glob.Match` above.
- Paths.Join: does not clean `.`, `..` or doubled separators. It agrees with `filepath.Join` when the directory is clean and the joined path is clean, relative and free of `.` and `..` elements. That holds for names from a directory listing and, given the restriction on `filepath.Rel` below, for every join at project.go:122-131.
- Paths.SplitPath: only the `/` separator is modelled.
- `filepath.Rel` is a parameter whose result is typed as a clean relative path (`Paths.CleanPath`): no leading, trailing or doubled separator, and no `.` or `..` element. These are its results for names strictly inside the base directory.
- Projects.Project.AddFiles: a name outside the base directory (`filepath.Rel` gives a path starting with `..`) or the base directory itself (`filepath.Rel` gives `.`) is not modelled. For such a name, `filepath.Join` at project.go:124 and 131 cleans the `..` or `.` away. The entry's `path` then names the parent directory or the base, not a concatenation. `Paths.Join` does not model that cleaning, so the model does not capture the `path`, or the file `printFiles` then reads, for these entries.
- Entries.SortByName: `sort.Slice` is modelled by one sorting function. Go does not fix the order of equal names. `SortedPermutationUnique` shows the choice does not matter when names are distinct, which holds in every directory listing.
- Rendering.Quote: escapes only `"` and `\`. Go's `%q` also escapes control and non-printable characters.
- Rendering.AsText: file contents become one character per byte, with no UTF-8 decoding. Names and relative paths stay strings of Unicode code points. `FileBlock` puts both into one string, so the output mixes code points (names) and bytes (contents). The model does not capture the bytes Go writes when a name or the contents hold non-ASCII characters.
- Rendering.FileOutput: the exit status of `os.Exit(1)` after a failed read is not modelled, only that output stops there.
- Logging with `slog`, flag parsing, `flag.Usage`, the `main` function's header line and exit codes are left out. They do not affect the tree or the blocks.
- `createProject` is not part of this model. So the wiring of the `-I` values into the project's ignore patterns is not modelled either.
- Output is modelled as the lines or text produced, not as writes to standard output.
