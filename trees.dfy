/**
 * Entries of a project tree named by where they sit: an address is the list
 * of child indices leading to an entry from the root.  `addFiles` keeps
 * `*fsEntry` references to directories it created; the model keeps their
 * addresses, which stay valid because the tree only ever grows by appending.
 */
module Trees {
  import opened Entries

  type Address = seq<nat>

  /** `a` leads to an entry of `t`. */
  predicate ValidAddr(t: Entry, a: Address)
    decreases |a|
  {
    a == [] || (a[0] < |t.entries| && ValidAddr(t.entries[a[0]], a[1..]))
  }

  /** The entry `a` leads to. */
  function NodeAt(t: Entry, a: Address): Entry
    requires ValidAddr(t, a)
    decreases |a|
  {
    if a == [] then t else NodeAt(t.entries[a[0]], a[1..])
  }

  /** `t` after `append(node.entries, x)` on the entry `node` that `a`
      leads to; nothing but the children of that entry changes. */
  function AppendAt(t: Entry, a: Address, x: Entry): (r: Entry)
    requires ValidAddr(t, a)
    ensures r.(entries := t.entries) == t
    ensures |r.entries| == |t.entries| + (if a == [] then 1 else 0)
    decreases |a|
  {
    if a == [] then t.(entries := t.entries + [x])
    else t.(entries := t.entries[a[0] := AppendAt(t.entries[a[0]], a[1..], x)])
  }

  /** `t` is `s` with children appended to some of its entries: every entry
      of `s` keeps its fields and its children's order, and new children
      only come after the old ones. */
  predicate Extends(s: Entry, t: Entry)
  {
    && t.(entries := s.entries) == s
    && |s.entries| <= |t.entries|
    && forall i :: 0 <= i < |s.entries| ==> Extends(s.entries[i], t.entries[i])
  }

  lemma {:induction false} ExtendsReflexive(t: Entry)
    ensures Extends(t, t)
  {
    forall i | 0 <= i < |t.entries|
      ensures Extends(t.entries[i], t.entries[i])
    {
      ExtendsReflexive(t.entries[i]);
    }
  }

  lemma {:induction false} ExtendsTransitive(s: Entry, t: Entry, u: Entry)
    requires Extends(s, t) && Extends(t, u)
    ensures Extends(s, u)
  {
    forall i | 0 <= i < |s.entries|
      ensures Extends(s.entries[i], u.entries[i])
    {
      ExtendsTransitive(s.entries[i], t.entries[i], u.entries[i]);
    }
  }

  /** Every address of the old tree still leads to the same entry, grown. */
  lemma {:induction false} ExtendsKeepsAddress(s: Entry, t: Entry, b: Address)
    requires Extends(s, t) && ValidAddr(s, b)
    ensures ValidAddr(t, b) && Extends(NodeAt(s, b), NodeAt(t, b))
    decreases |b|
  {
    if b != [] {
      ExtendsKeepsAddress(s.entries[b[0]], t.entries[b[0]], b[1..]);
    }
  }

  /** Appending only grows the tree. */
  lemma {:induction false} AppendAtExtends(t: Entry, a: Address, x: Entry)
    requires ValidAddr(t, a)
    ensures Extends(t, AppendAt(t, a, x))
    decreases |a|
  {
    var r := AppendAt(t, a, x);
    forall i | 0 <= i < |t.entries|
      ensures Extends(t.entries[i], r.entries[i])
    {
      if a != [] && i == a[0] {
        AppendAtExtends(t.entries[i], a[1..], x);
      } else {
        ExtendsReflexive(t.entries[i]);
      }
    }
  }

  /** The appended entry is the last child of the entry `a` leads to. */
  lemma {:induction false} AppendAtNew(t: Entry, a: Address, x: Entry)
    requires ValidAddr(t, a)
    ensures var r := AppendAt(t, a, x);
            var b := a + [|NodeAt(t, a).entries|];
            ValidAddr(r, a) && ValidAddr(r, b) && NodeAt(r, b) == x &&
            NodeAt(r, a).entries == NodeAt(t, a).entries + [x]
    decreases |a|
  {
    var r := AppendAt(t, a, x);
    var b := a + [|NodeAt(t, a).entries|];
    if a == [] {
      assert b[1..] == [];
    } else {
      AppendAtNew(t.entries[a[0]], a[1..], x);
      assert b[1..] == a[1..] + [|NodeAt(t, a).entries|];
    }
  }

  /** The `relative` paths of the directories (`dirs`) or of the files
      (`!dirs`) in a tree, the top entry included. */
  function Relatives(t: Entry, dirs: bool): multiset<string>
  {
    (if t.isDir == dirs then multiset{t.relative} else multiset{}) + RelativesIn(t.entries, dirs)
  }

  function RelativesIn(s: seq<Entry>, dirs: bool): multiset<string>
  {
    if s == [] then multiset{} else Relatives(s[0], dirs) + RelativesIn(s[1..], dirs)
  }

  lemma {:induction false} RelativesConcat(a: seq<Entry>, b: seq<Entry>, dirs: bool)
    ensures RelativesIn(a + b, dirs) == RelativesIn(a, dirs) + RelativesIn(b, dirs)
  {
    if a != [] {
      assert (a + b)[0] == a[0] && (a + b)[1..] == a[1..] + b;
      RelativesConcat(a[1..], b, dirs);
    } else {
      assert a + b == b;
    }
  }

  /** The tree's paths split at child `j`. */
  lemma RelativesSplit(s: seq<Entry>, j: nat, dirs: bool)
    requires j < |s|
    ensures RelativesIn(s, dirs) ==
            RelativesIn(s[..j], dirs) + (Relatives(s[j], dirs) + RelativesIn(s[j + 1..], dirs))
  {
    assert s == s[..j] + ([s[j]] + s[j + 1..]);
    RelativesConcat(s[..j], [s[j]] + s[j + 1..], dirs);
    assert ([s[j]] + s[j + 1..])[1..] == s[j + 1..];
  }

  /** A child appended to a sequence adds its paths. */
  lemma RelativesSnoc(s: seq<Entry>, x: Entry, dirs: bool)
    ensures RelativesIn(s + [x], dirs) == RelativesIn(s, dirs) + Relatives(x, dirs)
  {
    RelativesConcat(s, [x], dirs);
    assert RelativesIn([x], dirs) == Relatives(x, dirs) + RelativesIn([], dirs) by {
      assert [x][1..] == [];
    }
  }

  /** A child replaced by one with more paths adds those paths. */
  lemma RelativesReplace(s: seq<Entry>, j: nat, c: Entry, m: multiset<string>, dirs: bool)
    requires j < |s| && Relatives(c, dirs) == Relatives(s[j], dirs) + m
    ensures RelativesIn(s[j := c], dirs) == RelativesIn(s, dirs) + m
  {
    var u := s[j := c];
    RelativesSplit(s, j, dirs);
    RelativesSplit(u, j, dirs);
    assert u[..j] == s[..j] && u[j + 1..] == s[j + 1..];
  }

  /** Appending an entry without children adds its own `relative` path to
      the tree's directories or files and nothing else. */
  lemma {:induction false} AppendAtRelatives(t: Entry, a: Address, x: Entry, dirs: bool)
    requires ValidAddr(t, a) && x.entries == []
    ensures Relatives(AppendAt(t, a, x), dirs) == Relatives(t, dirs) + Relatives(x, dirs)
    decreases |a|
  {
    var r := AppendAt(t, a, x);
    if a == [] {
      RelativesSnoc(t.entries, x, dirs);
    } else {
      AppendAtRelatives(t.entries[a[0]], a[1..], x, dirs);
      RelativesReplace(t.entries, a[0], AppendAt(t.entries[a[0]], a[1..], x), Relatives(x, dirs), dirs);
    }
    RelativesOwnFields(t, r, Relatives(x, dirs), dirs);
  }

  /** An entry whose children gained paths, its own fields unchanged,
      gained the same paths. */
  lemma RelativesOwnFields(t: Entry, r: Entry, m: multiset<string>, dirs: bool)
    requires r.(entries := t.entries) == t
    requires RelativesIn(r.entries, dirs) == RelativesIn(t.entries, dirs) + m
    ensures Relatives(r, dirs) == Relatives(t, dirs) + m
  {
  }

  /** Appending an entry with no children that sits at its new parent's
      paths joined with its name keeps the tree composed. */
  lemma {:induction false} AppendAtComposed(t: Entry, a: Address, x: Entry)
    requires ValidAddr(t, a) && Composed(t) && x.entries == []
    requires x.relative == Paths.Join(NodeAt(t, a).relative, x.name)
    requires x.path == Paths.Join(NodeAt(t, a).path, x.name)
    ensures Composed(AppendAt(t, a, x))
    decreases |a|
  {
    if a != [] {
      AppendAtComposed(t.entries[a[0]], a[1..], x);
    }
  }

  /** Appending an entry with no children to a directory keeps files
      without children. */
  lemma {:induction false} AppendAtLeaves(t: Entry, a: Address, x: Entry)
    requires ValidAddr(t, a) && FilesAreLeaves(t) && x.entries == []
    requires NodeAt(t, a).isDir
    ensures FilesAreLeaves(AppendAt(t, a, x))
    decreases |a|
  {
    if a != [] {
      AppendAtLeaves(t.entries[a[0]], a[1..], x);
    }
  }
}
