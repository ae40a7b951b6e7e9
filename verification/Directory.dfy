/** Directories and link counts as a value: inodes, the entries of those that are directories, and who names whom. */
module Directory {
  import Ring

  const DOT := "."
  const DOTDOT := ".."

  datatype Kind = Dir | File | Device

  /** An entry with inode number 0 is empty. */
  datatype Entry = Entry(inum: nat, name: string)

  const EMPTY := Entry(0, "")

  /** An inode in use; `ref` is the number of references to it in memory. */
  datatype Node = Node(kind: Kind, nlink: int, entries: seq<Entry>, ref: nat)

  type Tree = map<nat, Node>

  predicate IsDot(name: string) {
    name == DOT || name == DOTDOT
  }

  /** A live entry other than the dots. */
  predicate Real(t: Tree, d: nat, k: nat) {
    d in t && k < |t[d].entries| && t[d].entries[k].inum != 0 && !IsDot(t[d].entries[k].name)
  }

  predicate Named(t: Tree, d: nat, k: nat, i: nat) {
    Real(t, d, k) && t[d].entries[k].inum == i
  }

  /** The entries that name an inode. */
  ghost function Names(t: Tree, i: nat): set<(nat, nat)> {
    set d: nat, k: nat | d in t && k < |t[d].entries| && Named(t, d, k, i) :: (d, k)
  }

  predicate NamesDir(t: Tree, d: nat, k: nat) {
    Real(t, d, k) && t[d].entries[k].inum in t && t[t[d].entries[k].inum].kind == Dir
  }

  /** The entries of a directory that name directories. */
  ghost function Subs(t: Tree, d: nat): set<nat> {
    if d in t then set k: nat | k < |t[d].entries| && NamesDir(t, d, k) else {}
  }

  ghost predicate Barren(t: Tree, d: nat) {
    forall k: nat :: !Real(t, d, k)
  }

  /** A directory begins with its dots, and anything else has no entries. */
  ghost predicate ShapeOk(t: Tree) {
    && 0 !in t
    && (forall i :: i in t && t[i].kind != Dir ==> t[i].entries == [])
    && (forall i :: i in t && t[i].kind == Dir ==>
          |t[i].entries| >= 2 && t[i].entries[0] == Entry(i, DOT) && t[i].entries[1].name == DOTDOT &&
          t[i].entries[1].inum != 0)
  }

  /** No name twice in a directory. */
  ghost predicate Distinct(t: Tree) {
    forall d, j: nat, k: nat :: d in t && j < k < |t[d].entries| && t[d].entries[j].inum != 0 &&
                                t[d].entries[k].inum != 0 ==>
      t[d].entries[j].name != t[d].entries[k].name
  }

  /** Every real entry leads to an inode, and not back to its own directory. */
  ghost predicate Leads(t: Tree) {
    forall d: nat, k: nat {:trigger Real(t, d, k)} :: Real(t, d, k) ==>
      t[d].entries[k].inum in t && t[d].entries[k].inum != d
  }

  /** The link count of a file or device is the number of entries that name it. */
  ghost predicate FilesOk(t: Tree) {
    forall j :: j in t && t[j].kind != Dir ==> t[j].nlink == |Names(t, j)|
  }

  /** The law of links. It leaves the counts of directories open: mkfs counts no subdirectories. */
  ghost predicate Law(t: Tree) {
    ShapeOk(t) && Distinct(t) && Leads(t) && FilesOk(t)
  }

  /** The count of a directory as the kernel keeps it: its names, the directories in it, and one more for the root. */
  ghost function DirCount(t: Tree, root: nat, j: nat): int {
    |Names(t, j)| + |Subs(t, j)| + if j == root then 1 else 0
  }

  ghost predicate DirsOk(t: Tree, root: nat) {
    && root in t && t[root].kind == Dir && Names(t, root) == {}
    && forall j :: j in t && t[j].kind == Dir ==> t[j].nlink == DirCount(t, root, j)
  }

  /** The law with the counts of directories right as well. */
  ghost predicate TreeOk(t: Tree, root: nat) {
    Law(t) && DirsOk(t, root)
  }

  predicate IsDirectory(t: Tree, d: nat) {
    d in t && t[d].kind == Dir
  }

  ghost predicate Present(t: Tree, d: nat, name: string)
    requires d in t
  {
    exists k: nat :: k < |t[d].entries| && t[d].entries[k].inum != 0 && t[d].entries[k].name == name
  }

  /** An empty entry, or the end. */
  predicate IsSpare(t: Tree, d: nat, k: nat)
    requires d in t
  {
    k <= |t[d].entries| && (k < |t[d].entries| ==> t[d].entries[k].inum == 0)
  }

  /** The tree with entry `k` of directory `d`, or one more entry after the last, set. */
  function WithEntry(t: Tree, d: nat, k: nat, e: Entry): Tree
    requires d in t && k <= |t[d].entries|
  {
    t[d := t[d].(entries := if k < |t[d].entries| then t[d].entries[k := e] else t[d].entries + [e])]
  }

  /** One more or one less link for an inode on its way into or out of a directory, and for the directory if the inode
      is one itself. */
  function Bump(t: Tree, i: nat, d: nat, step: int): Tree
    requires i in t && d in t
  {
    var one := t[i := t[i].(nlink := t[i].nlink + step)];
    if t[i].kind == Dir then one[d := one[d].(nlink := one[d].nlink + step)] else one
  }

  /** A new entry adds one name to one inode. */
  lemma NamesAdded(t: Tree, d: nat, k: nat, e: Entry, j: nat)
    requires d in t && k <= |t[d].entries| && (k < |t[d].entries| ==> t[d].entries[k].inum == 0)
    requires e.inum != 0 && !IsDot(e.name)
    ensures (d, k) !in Names(t, j)
    ensures Names(WithEntry(t, d, k, e), j) == if j == e.inum then Names(t, j) + {(d, k)} else Names(t, j)
  {
    var t' := WithEntry(t, d, k, e);
    forall a: nat, b: nat ensures Named(t', a, b, j) <==> Named(t, a, b, j) || ((a, b) == (d, k) && j == e.inum) {
    }
  }

  lemma NamesRemoved(t: Tree, d: nat, k: nat, j: nat)
    requires Real(t, d, k)
    ensures Names(WithEntry(t, d, k, EMPTY), j) == Names(t, j) - {(d, k)}
    ensures (d, k) in Names(t, j) <==> j == t[d].entries[k].inum
  {
    var t' := WithEntry(t, d, k, EMPTY);
    forall a: nat, b: nat ensures Named(t', a, b, j) <==> Named(t, a, b, j) && (a, b) != (d, k) {
    }
  }

  /** Trees with the same entries have the same names. */
  lemma NamesSame(t: Tree, t': Tree, j: nat)
    requires forall a: nat, b: nat :: Named(t', a, b, j) == Named(t, a, b, j)
    ensures Names(t', j) == Names(t, j)
  {
    assert forall x :: x in Names(t', j) <==> Named(t', x.0, x.1, j);
    assert forall x :: x in Names(t, j) <==> Named(t, x.0, x.1, j);
  }

  lemma SubsAdded(t: Tree, d: nat, k: nat, e: Entry, j: nat)
    requires d in t && k <= |t[d].entries| && (k < |t[d].entries| ==> t[d].entries[k].inum == 0)
    requires e.inum != 0 && !IsDot(e.name) && e.inum in t
    ensures k !in Subs(t, d)
    ensures Subs(WithEntry(t, d, k, e), j) == if j == d && t[e.inum].kind == Dir then Subs(t, j) + {k} else Subs(t, j)
  {
    var t' := WithEntry(t, d, k, e);
    assert forall a :: a in t ==> a in t' && t'[a].kind == t[a].kind;
    forall b: nat ensures NamesDir(t', j, b) <==> NamesDir(t, j, b) || ((j, b) == (d, k) && t[e.inum].kind == Dir) {
    }
  }

  lemma SubsRemoved(t: Tree, d: nat, k: nat, j: nat)
    requires Real(t, d, k)
    ensures Subs(WithEntry(t, d, k, EMPTY), j) == if j == d then Subs(t, j) - {k} else Subs(t, j)
    ensures k in Subs(t, d) <==> NamesDir(t, d, k)
  {
    var t' := WithEntry(t, d, k, EMPTY);
    assert forall a :: a in t ==> a in t' && t'[a].kind == t[a].kind;
    forall b: nat ensures NamesDir(t', j, b) <==> NamesDir(t, j, b) && (j, b) != (d, k) {
    }
  }

  lemma AttachShape(t: Tree, d: nat, k: nat, e: Entry)
    requires ShapeOk(t) && Distinct(t) && d in t && t[d].kind == Dir && e.inum in t
    requires k <= |t[d].entries| && (k < |t[d].entries| ==> t[d].entries[k].inum == 0)
    requires forall b: nat :: b < |t[d].entries| && t[d].entries[b].inum != 0 ==> t[d].entries[b].name != e.name
    ensures ShapeOk(WithEntry(t, d, k, e)) && Distinct(WithEntry(t, d, k, e))
  {
  }

  lemma AttachLeads(t: Tree, d: nat, k: nat, e: Entry)
    requires Leads(t) && d in t && k <= |t[d].entries| && e.inum in t && e.inum != d
    ensures Leads(WithEntry(t, d, k, e))
  {
    var t' := WithEntry(t, d, k, e);
    forall a: nat, b: nat | Real(t', a, b) ensures t'[a].entries[b].inum in t' && t'[a].entries[b].inum != a {
      assert (a, b) != (d, k) ==> Real(t, a, b);
    }
  }

  lemma DetachShape(t: Tree, d: nat, k: nat)
    requires ShapeOk(t) && Distinct(t) && Real(t, d, k)
    ensures var t' := WithEntry(t, d, k, EMPTY); ShapeOk(t') && Distinct(t')
    ensures t[d].kind == Dir
  {
    hide IsDot;
    assert IsDot(DOT) && IsDot(DOTDOT) by { Dots(); }
    assert t[d].kind == Dir && 2 <= k;
  }

  lemma DetachLeads(t: Tree, d: nat, k: nat)
    requires Leads(t) && Real(t, d, k)
    ensures Leads(WithEntry(t, d, k, EMPTY))
  {
    hide IsDot;
    var t' := WithEntry(t, d, k, EMPTY);
    forall a: nat, b: nat | Real(t', a, b) ensures t'[a].entries[b].inum in t' && t'[a].entries[b].inum != a {
      assert Real(t, a, b);
    }
  }

  lemma Dots()
    ensures IsDot(DOT) && IsDot(DOTDOT)
  {
  }

  lemma DetachCounts(t: Tree, d: nat, k: nat, j: nat)
    requires Real(t, d, k) && t[d].entries[k].inum in t && j in t
    ensures var i, t' := t[d].entries[k].inum, WithEntry(t, d, k, EMPTY);
            && |Names(t, j)| == |Names(t', j)| + (if j == i then 1 else 0)
            && |Subs(t, j)| == |Subs(t', j)| + (if j == d && t[i].kind == Dir then 1 else 0)
  {
    hide Names, Subs, IsDot;
    var i, t' := t[d].entries[k].inum, WithEntry(t, d, k, EMPTY);
    NamesRemoved(t, d, k, j);
    SubsRemoved(t, d, k, j);
    if j == i {
      assert Names(t, j) == Names(t', j) + {(d, k)};
    } else {
      assert Names(t, j) == Names(t', j);
    }
    if j == d && t[i].kind == Dir {
      assert NamesDir(t, d, k);
      assert Subs(t, j) == Subs(t', j) + {k};
    } else {
      assert Subs(t, j) == Subs(t', j);
    }
  }

  /** The same entries and kinds: only link and reference counts may differ. */
  ghost predicate SameEntries(t: Tree, t': Tree) {
    t'.Keys == t.Keys && forall j :: j in t ==> t'[j].kind == t[j].kind && t'[j].entries == t[j].entries
  }

  lemma SameEntriesCounts(t: Tree, t': Tree, j: nat)
    requires SameEntries(t, t')
    ensures Names(t', j) == Names(t, j) && Subs(t', j) == Subs(t, j) && (Barren(t', j) <==> Barren(t, j))
  {
    forall a: nat, b: nat ensures Real(t', a, b) == Real(t, a, b) && Named(t', a, b, j) == Named(t, a, b, j)
                                  && NamesDir(t', a, b) == NamesDir(t, a, b) {
    }
  }

  lemma SameEntriesShape(t: Tree, t': Tree)
    requires ShapeOk(t) && Distinct(t) && Leads(t) && SameEntries(t, t')
    ensures ShapeOk(t') && Distinct(t') && Leads(t')
  {
    forall a: nat, b: nat | Real(t', a, b) ensures t'[a].entries[b].inum in t' && t'[a].entries[b].inum != a {
      assert Real(t, a, b);
    }
  }

  /** Changes of counts only leave names and shape as they were. */
  lemma Bumped(t: Tree, i: nat, d: nat, step: int)
    requires i in t && d in t
    ensures SameEntries(t, Bump(t, i, d, step))
    ensures ShapeOk(t) && Distinct(t) && Leads(t) ==>
              var t' := Bump(t, i, d, step); ShapeOk(t') && Distinct(t') && Leads(t')
  {
    hide ShapeOk, Distinct, Leads, Real;
    if ShapeOk(t) && Distinct(t) && Leads(t) {
      SameEntriesShape(t, Bump(t, i, d, step));
    }
  }

  // ---- A name and its link ----

  /** The tree with a new name for an inode, and the link counted. */
  function Entered(t: Tree, i: nat, d: nat, k: nat, name: string): Tree
    requires i in t && d in t && k <= |t[d].entries|
  {
    WithEntry(Bump(t, i, d, 1), d, k, Entry(i, name))
  }

  /** A name can be entered: its inode and directory exist and differ, and the name is new and no dot. */
  ghost predicate CanEnter(t: Tree, i: nat, d: nat, k: nat, name: string) {
    i in t && IsDirectory(t, d) && i != d && i != 0 && !IsDot(name) && IsSpare(t, d, k) && !Present(t, d, name)
  }

  lemma EnteredCounts(t: Tree, i: nat, d: nat, k: nat, name: string, j: nat)
    requires CanEnter(t, i, d, k, name) && j in t
    ensures var t' := Entered(t, i, d, k, name);
            && j in t' && t'[j].kind == t[j].kind
            && |Names(t', j)| == |Names(t, j)| + (if j == i then 1 else 0)
            && |Subs(t', j)| == |Subs(t, j)| + (if j == d && t[i].kind == Dir then 1 else 0)
            && t'[j].nlink == t[j].nlink + (if j == i then 1 else 0) + (if j == d && t[i].kind == Dir then 1 else 0)
  {
    hide Names, Subs, IsDot, Present;
    var b, e := Bump(t, i, d, 1), Entry(i, name);
    SameEntriesCounts(t, b, j);
    NamesAdded(b, d, k, e, j);
    SubsAdded(b, d, k, e, j);
  }

  /** Entering a name keeps the law, in any directory, with or without a name of its own. */
  lemma EnterLaw(t: Tree, i: nat, d: nat, k: nat, name: string)
    requires Law(t) && CanEnter(t, i, d, k, name)
    ensures Law(Entered(t, i, d, k, name))
  {
    hide Names, Subs, IsDot, ShapeOk, Distinct, Leads;
    var b, e := Bump(t, i, d, 1), Entry(i, name);
    Bumped(t, i, d, 1);
    assert forall n: nat :: n < |b[d].entries| && b[d].entries[n].inum != 0 ==> b[d].entries[n].name != name;
    AttachShape(b, d, k, e);
    AttachLeads(b, d, k, e);
    forall j | j in t && t[j].kind != Dir
      ensures var t' := Entered(t, i, d, k, name); j in t' && t'[j].nlink == |Names(t', j)|
    {
      EnteredCounts(t, i, d, k, name, j);
    }
  }

  /** And the counts of directories, where they are right. */
  lemma EnterDirs(t: Tree, root: nat, i: nat, d: nat, k: nat, name: string)
    requires DirsOk(t, root) && CanEnter(t, i, d, k, name) && i != root
    ensures DirsOk(Entered(t, i, d, k, name), root)
  {
    hide Names, Subs, IsDot, Present;
    var t' := Entered(t, i, d, k, name);
    forall j | j in t && t[j].kind == Dir ensures j in t' && t'[j].nlink == DirCount(t', root, j) {
      EnteredCounts(t, i, d, k, name, j);
    }
    EnteredCounts(t, i, d, k, name, root);
  }

  /** The tree with a name taken away, and its link. */
  function Removed(t: Tree, d: nat, k: nat): Tree
    requires Real(t, d, k) && t[d].entries[k].inum in t
  {
    Bump(WithEntry(t, d, k, EMPTY), t[d].entries[k].inum, d, -1)
  }

  lemma RemovedCounts(t: Tree, d: nat, k: nat, j: nat)
    requires Real(t, d, k) && t[d].entries[k].inum in t && t[d].entries[k].inum != d && j in t
    ensures var i, t' := t[d].entries[k].inum, Removed(t, d, k);
            && j in t' && t'[j].kind == t[j].kind
            && |Names(t', j)| == |Names(t, j)| - (if j == i then 1 else 0)
            && |Subs(t', j)| == |Subs(t, j)| - (if j == d && t[i].kind == Dir then 1 else 0)
            && t'[j].nlink == t[j].nlink - (if j == i then 1 else 0) - (if j == d && t[i].kind == Dir then 1 else 0)
  {
    hide Names, Subs, IsDot;
    var i, w := t[d].entries[k].inum, WithEntry(t, d, k, EMPTY);
    DetachCounts(t, d, k, j);
    SameEntriesCounts(w, Bump(w, i, d, -1), j);
  }

  /** Taking a name and its link away keeps the law. */
  lemma RemoveLaw(t: Tree, d: nat, k: nat)
    requires Law(t) && Real(t, d, k)
    ensures t[d].entries[k].inum in t && t[d].entries[k].inum != d && Law(Removed(t, d, k))
  {
    hide Names, Subs, IsDot, ShapeOk, Distinct;
    var i, w := t[d].entries[k].inum, WithEntry(t, d, k, EMPTY);
    DetachShape(t, d, k);
    DetachLeads(t, d, k);
    Bumped(w, i, d, -1);
    forall j | j in t && t[j].kind != Dir
      ensures var t' := Removed(t, d, k); j in t' && t'[j].nlink == |Names(t', j)|
    {
      RemovedCounts(t, d, k, j);
    }
  }

  lemma RemoveDirs(t: Tree, root: nat, d: nat, k: nat)
    requires DirsOk(t, root) && Real(t, d, k) && t[d].entries[k].inum in t && t[d].entries[k].inum != d
    ensures DirsOk(Removed(t, d, k), root)
  {
    hide Names, Subs, IsDot;
    var t' := Removed(t, d, k);
    forall j | j in t && t[j].kind == Dir ensures j in t' && t'[j].nlink == DirCount(t', root, j) {
      RemovedCounts(t, d, k, j);
    }
    RemovedCounts(t, d, k, root);
  }

  // ---- A new inode ----

  /** A new inode with no entries but its dots. */
  ghost predicate IsNew(node: Node, i: nat, d: nat) {
    node.entries == (if node.kind == Dir then [Entry(i, DOT), Entry(d, DOTDOT)] else [])
  }

  lemma NewShape(t: Tree, i: nat, d: nat, node: Node)
    requires ShapeOk(t) && Distinct(t) && Leads(t) && i !in t && i != 0 && d != 0 && IsNew(node, i, d)
    ensures var t' := t[i := node]; ShapeOk(t') && Distinct(t') && Leads(t')
    ensures forall a: nat, b: nat :: Real(t[i := node], a, b) == Real(t, a, b)
    ensures Barren(t[i := node], i)
  {
    var t' := t[i := node];
    Dots();
    forall a: nat, b: nat ensures Real(t', a, b) == Real(t, a, b) {
    }
    assert Distinct(t');
  }

  lemma NewCounts(t: Tree, i: nat, node: Node, j: nat)
    requires Leads(t) && i !in t && forall a: nat, b: nat :: Real(t[i := node], a, b) == Real(t, a, b)
    ensures Names(t[i := node], j) == Names(t, j) && (j != i ==> Subs(t[i := node], j) == Subs(t, j))
    ensures Names(t, i) == {} && Subs(t[i := node], i) == {}
  {
    var t' := t[i := node];
    forall a: nat, b: nat ensures Named(t', a, b, j) == Named(t, a, b, j) && !Named(t, a, b, i) {
      assert Real(t', a, b) == Real(t, a, b);
    }
    NamesSame(t, t', j);
    assert Names(t, i) == {} by {
      assert forall x :: x in Names(t, i) ==> Named(t, x.0, x.1, i);
    }
    forall b: nat ensures j != i ==> NamesDir(t', j, b) == NamesDir(t, j, b) {
      assert Real(t', j, b) == Real(t, j, b);
    }
    forall b: nat ensures !NamesDir(t', i, b) {
      assert Real(t', i, b) == Real(t, i, b);
    }
  }

  /** Making an inode that nothing names and nothing counts. */
  lemma MakeLaw(t: Tree, i: nat, d: nat, node: Node)
    requires Law(t) && i !in t && i != 0 && d in t && IsNew(node, i, d) && node.nlink == 0
    ensures Law(t[i := node])
  {
    hide Names, Subs, Barren, IsDot, Real, Distinct, Leads, IsNew;
    NewShape(t, i, d, node);
    var t' := t[i := node];
    forall j | j in t' && t'[j].kind != Dir ensures t'[j].nlink == |Names(t', j)| {
      NewCounts(t, i, node, j);
    }
  }

  lemma MakeDirs(t: Tree, root: nat, i: nat, d: nat, node: Node)
    requires TreeOk(t, root) && i !in t && i != 0 && d in t && IsNew(node, i, d) && node.nlink == 0
    ensures DirsOk(t[i := node], root)
  {
    hide Names, Subs, Barren, IsDot, Real, Distinct, Leads, IsNew;
    NewShape(t, i, d, node);
    var t' := t[i := node];
    forall j | j in t' && t'[j].kind == Dir ensures t'[j].nlink == DirCount(t', root, j) {
      NewCounts(t, i, node, j);
    }
    NewCounts(t, i, node, root);
  }

  // ---- References ----

  /** One more reference in memory. */
  function Hold(t: Tree, i: nat): Tree {
    if i in t then t[i := t[i].(ref := t[i].ref + 1)] else t
  }

  /** The last reference to an inode without links: dropping it gives the inode back. */
  predicate Last(t: Tree, i: nat) {
    i in t && t[i].ref == 1 && t[i].nlink == 0
  }

  /** One reference less. */
  function Drop(t: Tree, i: nat): Tree {
    if i !in t || t[i].ref == 0 then t else if Last(t, i) then t - {i} else t[i := t[i].(ref := t[i].ref - 1)]
  }

  /** Whether a drop can be done without harm: what it gives back is named by nothing, and names no file. */
  ghost predicate Harmless(t: Tree, i: nat) {
    Last(t, i) ==> Names(t, i) == {} && forall k: nat :: Real(t, i, k) ==> NamesDir(t, i, k)
  }

  lemma RefsOnly(t: Tree, t': Tree, root: nat)
    requires SameEntries(t, t') && forall j :: j in t ==> t'[j].nlink == t[j].nlink
    ensures Law(t') <==> Law(t)
    ensures DirsOk(t', root) <==> DirsOk(t, root)
  {
    hide Names, Subs, ShapeOk, Distinct, Leads, Real;
    if ShapeOk(t) && Distinct(t) && Leads(t) {
      SameEntriesShape(t, t');
    }
    if ShapeOk(t') && Distinct(t') && Leads(t') {
      SameEntriesShape(t', t);
    }
    forall j ensures j in t ==> Names(t', j) == Names(t, j) && Subs(t', j) == Subs(t, j) {
      if j in t {
        SameEntriesCounts(t, t', j);
      }
    }
  }

  lemma HoldKeeps(t: Tree, root: nat, i: nat)
    ensures Law(Hold(t, i)) <==> Law(t)
    ensures DirsOk(Hold(t, i), root) <==> DirsOk(t, root)
  {
    hide Law, DirsOk;
    RefsOnly(t, Hold(t, i), root);
  }

  /** Giving back an inode with nothing in it takes no entry away. */
  lemma FreeEntries(t: Tree, i: nat, j: nat)
    requires Leads(t) && i in t && Barren(t, i) && Names(t, i) == {}
    ensures Names(t - {i}, j) == Names(t, j) && (j != i ==> Subs(t - {i}, j) == Subs(t, j))
    ensures Leads(t - {i})
  {
    var t' := t - {i};
    forall a: nat, b: nat ensures Real(t', a, b) == Real(t, a, b) {
      assert !Real(t, i, b);
    }
    forall a: nat, b: nat ensures Named(t', a, b, j) == Named(t, a, b, j) {
      assert Real(t', a, b) == Real(t, a, b);
    }
    NamesSame(t, t', j);
    forall a: nat, b: nat | Real(t, a, b) ensures t[a].entries[b].inum in t' {
      assert Named(t, a, b, i) ==> (a, b) in Names(t, i);
    }
    forall b: nat ensures NamesDir(t', j, b) == NamesDir(t, j, b) {
      assert Real(t', j, b) == Real(t, j, b);
    }
    forall a: nat, b: nat | Real(t', a, b) ensures t'[a].entries[b].inum in t' && t'[a].entries[b].inum != a {
      assert Real(t, a, b);
    }
  }

  /** Giving back one with something in it takes away a name of what is in it. */
  lemma FreeLoses(t: Tree, i: nat, k: nat)
    requires Leads(t) && Real(t, i, k)
    ensures var j := t[i].entries[k].inum;
            j in t && j != i && |Names(t - {i}, j)| < |Names(t, j)| && |Subs(t - {i}, j)| <= |Subs(t, j)|
  {
    var j, t' := t[i].entries[k].inum, t - {i};
    forall a: nat, b: nat ensures Named(t', a, b, j) ==> Named(t, a, b, j) && a != i {
    }
    assert Named(t, i, k, j);
    assert Names(t', j) <= Names(t, j) - {(i, k)};
    Ring.SubsetSize(Names(t', j), Names(t, j) - {(i, k)});
    forall b: nat ensures NamesDir(t', j, b) ==> NamesDir(t, j, b) {
    }
    Ring.SubsetSize(Subs(t', j), Subs(t, j));
  }

  /** The names of what is not in inode i do not change when i is given back. */
  lemma FreeKeeps(t: Tree, i: nat, j: nat)
    requires forall k: nat :: !Named(t, i, k, j)
    ensures Names(t - {i}, j) == Names(t, j)
  {
    var t' := t - {i};
    forall a: nat, b: nat ensures Named(t', a, b, j) == Named(t, a, b, j) {
      assert a == i ==> !Named(t, i, b, j);
    }
    NamesSame(t, t', j);
  }

  lemma FreeShape(t: Tree, i: nat)
    requires ShapeOk(t) && Distinct(t)
    ensures ShapeOk(t - {i}) && Distinct(t - {i})
  {
  }

  lemma FreeLeads(t: Tree, i: nat)
    requires Leads(t)
    ensures Leads(t - {i}) <==> Names(t, i) == {}
  {
    var t' := t - {i};
    forall a: nat, b: nat ensures Real(t', a, b) <==> Real(t, a, b) && a != i {
    }
    if Names(t, i) == {} {
      forall a: nat, b: nat | Real(t', a, b) ensures t'[a].entries[b].inum in t' && t'[a].entries[b].inum != a {
        assert Real(t, a, b);
        assert Named(t, a, b, i) ==> (a, b) in Names(t, i);
      }
    } else {
      var x :| x in Names(t, i);
      assert Real(t, x.0, x.1) && Real(t', x.0, x.1);
    }
  }

  /** A drop keeps the law if and only if it is harmless. */
  lemma DropLaw(t: Tree, i: nat)
    requires Law(t)
    ensures Law(Drop(t, i)) <==> Harmless(t, i)
  {
    hide ShapeOk, Distinct, Names, Leads, Real;
    if Last(t, i) {
      FreeShape(t, i);
      FreeLeads(t, i);
      FreeFiles(t, i);
    } else if Drop(t, i) != t {
      RefsOnly(t, Drop(t, i), 0);
    }
  }

  lemma FreeFiles(t: Tree, i: nat)
    requires Leads(t) && FilesOk(t)
    ensures FilesOk(t - {i}) <==> forall k: nat :: Real(t, i, k) ==> NamesDir(t, i, k)
  {
    hide Names, Real;
    if k: nat :| Real(t, i, k) && !NamesDir(t, i, k) {
      FreeLoses(t, i, k);
    } else {
      forall j | j in t - {i} && t[j].kind != Dir ensures Names(t - {i}, j) == Names(t, j) {
        FreeKeeps(t, i, j);
      }
    }
  }

  /** Where the counts of directories are right, what is given back has no name and no directories in it, and the drop
      is harmless, for files and directories, if and only if there is nothing in it at all. */
  lemma DropTree(t: Tree, root: nat, i: nat)
    requires TreeOk(t, root)
    ensures Last(t, i) ==> i != root && Names(t, i) == {} && Subs(t, i) == {}
    ensures TreeOk(Drop(t, i), root) <==> (Last(t, i) ==> Barren(t, i))
    ensures Harmless(t, i) <==> (Last(t, i) ==> Barren(t, i))
  {
    hide ShapeOk, Distinct, Names, Leads, Real, Barren;
    DropLaw(t, i);
    if Last(t, i) {
      UncountedIs(t, root, i);
      if Barren(t, i) {
        NothingReal(t, i);
        FreeDirs(t, root, i);
      } else {
        SomeFile(t, i);
      }
    } else if Drop(t, i) != t {
      RefsOnly(t, Drop(t, i), root);
    }
  }

  lemma UncountedIs(t: Tree, root: nat, i: nat)
    requires TreeOk(t, root) && i in t && t[i].nlink == 0
    ensures i != root && Names(t, i) == {} && Subs(t, i) == {}
  {
    hide Names, Distinct, Leads;
    if t[i].kind != Dir {
      assert t[i].entries == [];
    }
  }

  lemma NothingReal(t: Tree, i: nat)
    requires Barren(t, i)
    ensures forall k: nat :: Real(t, i, k) ==> NamesDir(t, i, k)
  {
  }

  lemma SomeFile(t: Tree, i: nat)
    requires i in t && !Barren(t, i) && Subs(t, i) == {}
    ensures exists k: nat :: Real(t, i, k) && !NamesDir(t, i, k)
  {
    var k: nat :| Real(t, i, k);
    assert k !in Subs(t, i);
  }

  lemma FreeDirs(t: Tree, root: nat, i: nat)
    requires Leads(t) && DirsOk(t, root) && i in t && i != root && Barren(t, i) && Names(t, i) == {}
    ensures DirsOk(t - {i}, root)
  {
    hide Names, Subs, Real, Leads;
    var t' := t - {i};
    forall j | j in t' && t'[j].kind == Dir ensures t'[j].nlink == DirCount(t', root, j) {
      FreeEntries(t, i, j);
    }
    FreeEntries(t, i, root);
  }
}
