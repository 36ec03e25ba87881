/**
 * The file system as the scan sees it, given as a value: what `os.ReadDir`
 * reports for a path.
 */
module FileSystem {
  import opened Paths

  /** A file-system object: its name, whether its directory entry reports a
      directory (`DirEntry.IsDir`), whether listing it fails (permissions,
      removal), and the items a listing reports, in listing order. */
  datatype Disk = Disk(name: string, isDir: bool, listFails: bool, children: seq<Disk>)

  /** `os.ReadDir` on this object succeeds; on a file it fails. */
  predicate Listable(d: Disk)
  {
    d.isDir && !d.listFails
  }

  /** A listing reports each name once. */
  predicate ListedOnce(d: Disk)
  {
    forall i, j :: 0 <= i < j < |d.children| ==> d.children[i].name != d.children[j].name
  }

  /** A listing reports each name once; names are non-empty single path
      elements; and so on all the way down. */
  predicate WellFormed(d: Disk)
  {
    && ListedOnce(d)
    && (forall i :: 0 <= i < |d.children| ==>
          d.children[i].name != "" && IsElement(d.children[i].name) && WellFormed(d.children[i]))
  }
}
