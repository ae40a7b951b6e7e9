/** What callers of create, link and unlink have to see to so that no name is lost: what is entered is entered in a
    directory that still has links, and on a disk from mkfs a directory is removed only from one with links to spare. */
module LinkCare {
  import opened Directory
  import opened LinkRuns
  import opened Links

  /** The call adds an entry to directory d. */
  predicate Enters(t: Tree, c: Call)
    requires CanCall(t, c)
  {
    match c
    case Creates(d, name, _, _) => FindName(t[d].entries, name) == |t[d].entries|
    case Makes(i, d, name) => t[i].kind != Dir && FindName(t[d].entries, name) == |t[d].entries|
    case _ => false
  }

  /** It adds none to a directory that has been unlinked. */
  predicate EntersLinked(t: Tree, c: Call) {
    CanCall(t, c) && Enters(t, c) ==> t[c.d].nlink >= 1
  }

  // ---- Where the counts of directories are right ----

  /** A directory that has lost its name has nothing in it. */
  ghost predicate Tidy(t: Tree, root: nat) {
    forall j :: IsDirectory(t, j) && j != root && Names(t, j) == {} ==> Barren(t, j)
  }

  /** A directory with links is the root or has a name. */
  lemma LinkedIsNamed(t: Tree, root: nat, d: nat)
    requires DirsOk(t, root) && Tidy(t, root) && IsDirectory(t, d) && t[d].nlink >= 1
    ensures d == root || Names(t, d) != {}
  {
    hide Names;
    assert d != root && Names(t, d) == {} ==> Subs(t, d) == {};
  }

  lemma SameTidy(t: Tree, t': Tree, root: nat)
    requires SameEntries(t, t') && Tidy(t, root)
    ensures Tidy(t', root)
  {
    hide Names, Subs, Barren;
    forall j | IsDirectory(t', j) && j != root && Names(t', j) == {} ensures Barren(t', j) {
      SameEntriesCounts(t, t', j);
    }
  }

  /** What is in a directory is told by its entries alone. */
  lemma SameBarren(t: Tree, t': Tree, j: nat)
    requires Barren(t, j) && j in t && j in t' && t'[j].entries == t[j].entries
    ensures Barren(t', j)
  {
    forall k: nat ensures !Real(t', j, k) {
      assert !Real(t, j, k);
    }
  }

  lemma EnterTidy(t: Tree, root: nat, i: nat, d: nat, k: nat, name: string)
    requires CanEnter(t, i, d, k, name) && Tidy(t, root) && (d == root || Names(t, d) != {})
    ensures Tidy(Entered(t, i, d, k, name), root)
  {
    hide Names, Subs, Barren, Present, IsDot;
    var t' := Entered(t, i, d, k, name);
    forall j | IsDirectory(t', j) && j != root && Names(t', j) == {} ensures Barren(t', j) {
      EnteredCounts(t, i, d, k, name, j);
      SameBarren(t, t', j);
    }
  }

  lemma RemovedBarren(t: Tree, d: nat, k: nat, j: nat)
    requires Real(t, d, k) && t[d].entries[k].inum in t && Barren(t, j) && j in t
    ensures j in Removed(t, d, k) && Barren(Removed(t, d, k), j)
  {
    hide IsDot;
    assert !Real(t, j, k);
    SameBarren(t, Removed(t, d, k), j);
  }

  lemma RemoveTidy(t: Tree, root: nat, d: nat, k: nat)
    requires Real(t, d, k) && t[d].entries[k].inum in t && t[d].entries[k].inum != d && Tidy(t, root)
    requires t[t[d].entries[k].inum].kind == Dir ==> Barren(t, t[d].entries[k].inum)
    ensures Tidy(Removed(t, d, k), root)
  {
    hide Names, Subs, Barren, IsDot;
    var t' := Removed(t, d, k);
    forall j | IsDirectory(t', j) && j != root && Names(t', j) == {} ensures Barren(t', j) {
      RemovedCounts(t, d, k, j);
      RemovedBarren(t, d, k, j);
    }
  }

  lemma MakeTidy(t: Tree, root: nat, i: nat, d: nat, node: Node)
    requires Law(t) && i !in t && i != 0 && d in t && IsNew(node, i, d) && Tidy(t, root)
    ensures Tidy(t[i := node], root)
  {
    hide Names, Subs, Barren, Real, IsDot, Distinct, Leads, FilesOk, IsNew;
    var t' := t[i := node];
    NewShape(t, i, d, node);
    forall j | IsDirectory(t', j) && j != root && Names(t', j) == {} ensures Barren(t', j) {
      NewCounts(t, i, node, j);
      if j != i {
        SameBarren(t, t', j);
      }
    }
  }

  lemma UnlinkTidy(t: Tree, root: nat, d: nat, name: string)
    requires Law(t) && Tidy(t, root) && IsDirectory(t, d)
    ensures Tidy(UnlinkEffect(t, d, name).tree, root)
  {
    hide Tidy, Law, Barren, Real;
    var e, k := UnlinkEffect(t, d, name), FindName(t[d].entries, name);
    SameTidy(t, Hold(t, d), root);
    if !IsDot(name) && k < |t[d].entries| {
      var i, h := t[d].entries[k].inum, Hold(Hold(t, d), t[d].entries[k].inum);
      SameTidy(t, h, root);
      if e.outcome.Done? {
        HoldBoth(t, root, d, i);
        assert Real(h, d, k) by { IsReal(h, d, k); }
        RemoveLaw(h, d, k);
        if h[i].kind == Dir {
          assert ShapeOk(h) && Distinct(h) by { LawShape(h); }
          EmptyIsBarren(h, i);
        }
        RemoveTidy(h, root, d, k);
      }
    }
  }

  lemma IsReal(t: Tree, d: nat, k: nat)
    requires d in t && k < |t[d].entries| && t[d].entries[k].inum != 0 && !IsDot(t[d].entries[k].name)
    ensures Real(t, d, k)
  {
  }

  lemma LawShape(t: Tree)
    requires Law(t)
    ensures ShapeOk(t) && Distinct(t)
  {
  }

  lemma LinkTidy(t: Tree, root: nat, i: nat, d: nat, name: string)
    requires TreeOk(t, root) && Tidy(t, root) && i in t && IsDirectory(t, d) && EntersLinked(t, Makes(i, d, name))
    ensures Tidy(LinkEffect(t, i, d, name).tree, root)
  {
    hide Tidy, Law, DirsOk, Names, Present;
    var h, es := Hold(Hold(t, i), d), t[d].entries;
    SameTidy(t, Hold(t, i), root);
    SameTidy(t, h, root);
    if Enters(t, Makes(i, d, name)) {
      HoldBoth(t, root, i, d);
      LinkedIsNamed(h, root, d);
      EnterFound(t, h, i, d, name);
      EnterTidy(h, root, i, d, FindSpare(es), name);
    }
  }

  lemma CreateTidy(t: Tree, root: nat, d: nat, name: string, kind: Kind, inum: nat)
    requires TreeOk(t, root) && Tidy(t, root) && CanCall(t, Creates(d, name, kind, inum))
    requires EntersLinked(t, Creates(d, name, kind, inum))
    ensures Tidy(CreateEffect(t, d, name, kind, inum).tree, root)
  {
    hide Tidy, Law, DirsOk, Names, Present;
    var h, es, node := Hold(t, d), t[d].entries, NewNode(kind, inum, d);
    var k := FindName(es, name);
    SameTidy(t, h, root);
    HoldKeeps(t, root, d);
    if k < |es| {
      SameTidy(t, Hold(h, es[k].inum), root);
    } else {
      var made := h[inum := node];
      LinkedIsNamed(h, root, d);
      MakeTidy(h, root, inum, d, node);
      assert d == root || Names(made, d) != {} by { MadeNames(h, inum, d, node); }
      EnterFound(t, made, inum, d, name);
      EnterTidy(made, root, inum, d, FindSpare(es), name);
    }
  }

  /** Making an inode changes nobody's names. */
  lemma MadeNames(t: Tree, i: nat, d: nat, node: Node)
    requires Law(t) && i !in t && i != 0 && d in t && IsNew(node, i, d)
    ensures Names(t[i := node], d) == Names(t, d)
  {
    hide Names, FilesOk, Distinct;
    NewShape(t, i, d, node);
    NewCounts(t, i, node, d);
  }

  lemma EffectTidy(t: Tree, root: nat, c: Call)
    requires TreeOk(t, root) && Tidy(t, root) && CanCall(t, c) && EntersLinked(t, c)
    ensures Tidy(EffectOf(t, c).tree, root)
  {
    hide Tidy, Law, DirsOk;
    match c {
      case Creates(d, name, kind, inum) => CreateTidy(t, root, d, name, kind, inum);
      case Makes(i, d, name) => LinkTidy(t, root, i, d, name);
      case Removes(d, name) => UnlinkTidy(t, root, d, name);
      case Holds(i) => SameTidy(t, Hold(t, i), root);
      case Drops(_) =>
    }
  }

  /** In a tidy tree every drop is harmless, and leaves it tidy. */
  lemma DropTidy(t: Tree, root: nat, i: nat)
    requires TreeOk(t, root) && Tidy(t, root)
    ensures Harmless(t, i) && TreeOk(Drop(t, i), root) && Tidy(Drop(t, i), root)
  {
    hide Law, DirsOk, Names, Barren, Harmless;
    DropTree(t, root, i);
    if Last(t, i) {
      assert Barren(t, i) by {
        if t[i].kind != Dir {
          FileIsBarren(t, i);
        }
      }
      FreeTidy(t, root, i);
    } else {
      SameTidy(t, Drop(t, i), root);
    }
  }

  lemma FileIsBarren(t: Tree, i: nat)
    requires Law(t) && i in t && t[i].kind != Dir
    ensures Barren(t, i)
  {
  }

  lemma FreeTidy(t: Tree, root: nat, i: nat)
    requires Law(t) && Tidy(t, root) && i in t && Barren(t, i) && Names(t, i) == {}
    ensures Tidy(t - {i}, root)
  {
    hide Names, Barren, ShapeOk, Distinct, Leads, FilesOk;
    forall j | IsDirectory(t - {i}, j) && j != root && Names(t - {i}, j) == {} ensures Barren(t - {i}, j) {
      FreeEntries(t, i, j);
      SameBarren(t, t - {i}, j);
    }
  }

  lemma {:induction false} DropsTidy(t: Tree, root: nat, ids: seq<nat>)
    requires TreeOk(t, root) && Tidy(t, root)
    ensures AllHarmless(t, ids) && TreeOk(DropAll(t, ids), root) && Tidy(DropAll(t, ids), root)
    decreases ids
  {
    hide TreeOk, Tidy, Harmless, Drop;
    if ids != [] {
      DropTidy(t, root, ids[0]);
      DropsTidy(Drop(t, ids[0]), root, ids[1..]);
    }
  }

  lemma CallTidy(t: Tree, root: nat, c: Call)
    requires TreeOk(t, root) && Tidy(t, root) && EntersLinked(t, c)
    ensures TreeOk(After(t, c), root) && Tidy(After(t, c), root) && !Loses(t, c)
  {
    hide TreeOk, Tidy, AllHarmless, DropAll, EffectOf;
    if CanCall(t, c) {
      EffectTree(t, root, c);
      EffectTidy(t, root, c);
      DropsTidy(EffectOf(t, c).tree, root, EffectOf(t, c).lets);
    }
  }

  /** Any calls of create, link and unlink, with references coming and going, that add no entry to an unlinked
      directory: link counts are right in every state, of files and of directories, nothing is ever lost, and a
      directory without a name has nothing in it. */
  lemma {:induction false} RunTidy(states: seq<Tree>, calls: seq<Call>, root: nat, n: nat)
    requires IsRun(states, calls) && n <= |calls| && TreeOk(states[0], root) && Tidy(states[0], root)
    requires forall k :: 0 <= k < n ==> EntersLinked(states[k], calls[k])
    ensures TreeOk(states[n], root) && Tidy(states[n], root)
    ensures forall k :: 0 <= k < n ==> !Loses(states[k], calls[k]) && Keeps(states[k], calls[k])
    decreases n
  {
    hide TreeOk, Tidy, EntersLinked, Loses, After, Keeps;
    if n > 0 {
      var m := n - 1;
      RunTidy(states, calls, root, m);
      CallTidy(states[m], root, calls[m]);
      assert Law(states[m]) by { TreeLaw(states[m], root); }
      CallLaw(states[m], calls[m]);
    }
  }

  lemma TreeLaw(t: Tree, root: nat)
    requires TreeOk(t, root)
    ensures Law(t)
  {
  }

  /** So where a name is lost, something was entered before in a directory that had been unlinked. */
  lemma LostIsEntered(states: seq<Tree>, calls: seq<Call>, root: nat, n: nat)
    requires IsRun(states, calls) && n < |calls| && TreeOk(states[0], root) && Tidy(states[0], root)
    requires Loses(states[n], calls[n])
    ensures exists k :: 0 <= k <= n && !EntersLinked(states[k], calls[k])
  {
    hide TreeOk, Tidy, EntersLinked, Loses, After, Keeps;
    if forall k :: 0 <= k <= n ==> EntersLinked(states[k], calls[k]) {
      RunTidy(states, calls, root, n + 1);
    }
  }

  // ---- On a disk from mkfs ----

  /** unlink() is asked to take a directory away. */
  predicate TakesDir(t: Tree, c: Call)
    requires CanCall(t, c)
  {
    && c.Removes? && !IsDot(c.name)
    && var k := FindName(t[c.d].entries, c.name);
       k < |t[c.d].entries| && IsDirectory(t, t[c.d].entries[k].inum)
  }

  /** Nothing is entered in a directory without links, and a directory is taken only from one with two or more. */
  predicate Careful(t: Tree, c: Call) {
    CanCall(t, c) ==> (Enters(t, c) ==> t[c.d].nlink >= 1) && (TakesDir(t, c) ==> t[c.d].nlink >= 2)
  }

  /** A directory has one name at most, and one that counts no links has no name and nothing in it. */
  ghost predicate DirSound(t: Tree, j: nat)
    requires j in t
  {
    |Names(t, j)| <= 1 && (t[j].nlink <= 0 ==> Names(t, j) == {} && Barren(t, j))
  }

  ghost predicate DirsSound(t: Tree) {
    forall j :: IsDirectory(t, j) ==> DirSound(t, j)
  }

  lemma SameSound(t: Tree, t': Tree)
    requires SameEntries(t, t') && DirsSound(t) && forall j :: j in t ==> t'[j].nlink == t[j].nlink
    ensures DirsSound(t')
  {
    hide Names, Subs, Barren;
    forall j | IsDirectory(t', j) ensures DirSound(t', j) {
      assert DirSound(t, j);
      SameEntriesCounts(t, t', j);
    }
  }

  lemma EnterSound(t: Tree, i: nat, d: nat, k: nat, name: string)
    requires CanEnter(t, i, d, k, name) && t[d].nlink >= 1
    requires forall j :: IsDirectory(t, j) && j != i ==> DirSound(t, j)
    requires t[i].kind == Dir ==> Names(t, i) == {} && t[i].nlink == 0
    ensures DirsSound(Entered(t, i, d, k, name))
  {
    hide Names, Subs, Barren, Present, IsDot;
    var t' := Entered(t, i, d, k, name);
    forall j | IsDirectory(t', j) ensures DirSound(t', j) {
      assert j == i || DirSound(t, j);
      EnteredCounts(t, i, d, k, name, j);
      if t'[j].nlink <= 0 {
        SameBarren(t, t', j);
      }
    }
  }

  lemma RemoveSound(t: Tree, d: nat, k: nat)
    requires Real(t, d, k) && t[d].entries[k].inum in t && t[d].entries[k].inum != d && DirsSound(t)
    requires t[t[d].entries[k].inum].kind == Dir ==> Barren(t, t[d].entries[k].inum) && t[d].nlink >= 2
    ensures DirsSound(Removed(t, d, k))
  {
    hide Names, Subs, Barren, IsDot;
    var i, t' := t[d].entries[k].inum, Removed(t, d, k);
    forall j | IsDirectory(t', j) ensures DirSound(t', j) {
      assert DirSound(t, j);
      RemovedCounts(t, d, k, j);
      if t'[j].nlink <= 0 {
        assert Barren(t, j);
        RemovedBarren(t, d, k, j);
      }
    }
  }

  lemma UnlinkSound(t: Tree, d: nat, name: string)
    requires Law(t) && DirsSound(t) && IsDirectory(t, d) && Careful(t, Removes(d, name))
    ensures DirsSound(UnlinkEffect(t, d, name).tree) && !UnlinkEffect(t, d, name).outcome.Panicked?
  {
    hide DirsSound, Law, Barren, Real;
    var e, k := UnlinkEffect(t, d, name), FindName(t[d].entries, name);
    SameSound(t, Hold(t, d));
    NeverMiscounted(t, d, name);
    if !IsDot(name) && k < |t[d].entries| {
      var i, h := t[d].entries[k].inum, Hold(Hold(t, d), t[d].entries[k].inum);
      SameSound(t, h);
      if e.outcome.Done? {
        HoldBoth(t, 0, d, i);
        assert Real(h, d, k) by { IsReal(h, d, k); }
        RemoveLaw(h, d, k);
        if h[i].kind == Dir {
          assert ShapeOk(h) && Distinct(h) by { LawShape(h); }
          EmptyIsBarren(h, i);
        }
        RemoveSound(h, d, k);
      }
    }
  }

  lemma NeverMiscounted(t: Tree, d: nat, name: string)
    requires Law(t) && DirsSound(t) && IsDirectory(t, d)
    ensures !UnlinkEffect(t, d, name).outcome.Panicked?
  {
    hide Law, Barren;
    UnlinkReturns(t, d, name);
    forall k: nat ensures !Miscounted(t, d, k, name) {
      if NamesDir(t, d, k) {
        var i := t[d].entries[k].inum;
        assert Named(t, d, k, i) && (d, k) in Names(t, i) && DirSound(t, i);
      }
    }
  }

  lemma LinkSound(t: Tree, i: nat, d: nat, name: string)
    requires Law(t) && DirsSound(t) && i in t && IsDirectory(t, d) && Careful(t, Makes(i, d, name))
    ensures DirsSound(LinkEffect(t, i, d, name).tree)
  {
    hide Law, DirSound, Present;
    var h, es := Hold(Hold(t, i), d), t[d].entries;
    SameSound(t, Hold(t, i));
    SameSound(t, h);
    if Enters(t, Makes(i, d, name)) {
      EnterFound(t, h, i, d, name);
      EnterSound(h, i, d, FindSpare(es), name);
    }
  }

  lemma MakeSound(t: Tree, i: nat, d: nat, node: Node)
    requires Law(t) && i !in t && i != 0 && d in t && IsNew(node, i, d) && DirsSound(t)
    ensures var t' := t[i := node];
            Names(t', i) == {} && forall j :: IsDirectory(t', j) && j != i ==> DirSound(t', j)
  {
    hide Names, Subs, Barren, Real, IsDot, Distinct, Leads, FilesOk, IsNew;
    var t' := t[i := node];
    NewShape(t, i, d, node);
    NewCounts(t, i, node, i);
    forall j | IsDirectory(t', j) && j != i ensures DirSound(t', j) {
      assert DirSound(t, j);
      NewCounts(t, i, node, j);
      if t[j].nlink <= 0 {
        SameBarren(t, t', j);
      }
    }
  }

  lemma CreateSound(t: Tree, d: nat, name: string, kind: Kind, inum: nat)
    requires Law(t) && DirsSound(t) && CanCall(t, Creates(d, name, kind, inum))
    requires Careful(t, Creates(d, name, kind, inum))
    ensures DirsSound(CreateEffect(t, d, name, kind, inum).tree)
  {
    hide Law, DirSound, Names, Present;
    var h, es, node := Hold(t, d), t[d].entries, NewNode(kind, inum, d);
    var k := FindName(es, name);
    SameSound(t, h);
    HoldKeeps(t, 0, d);
    if k < |es| {
      SameSound(t, Hold(h, es[k].inum));
    } else {
      var made := h[inum := node];
      MakeSound(h, inum, d, node);
      EnterFound(t, made, inum, d, name);
      EnterSound(made, inum, d, FindSpare(es), name);
    }
  }

  lemma EffectSound(t: Tree, c: Call)
    requires Law(t) && DirsSound(t) && CanCall(t, c) && Careful(t, c)
    ensures DirsSound(EffectOf(t, c).tree) && (c.Removes? ==> !EffectOf(t, c).outcome.Panicked?)
  {
    hide DirsSound, Law;
    match c {
      case Creates(d, name, kind, inum) => CreateSound(t, d, name, kind, inum);
      case Makes(i, d, name) => LinkSound(t, i, d, name);
      case Removes(d, name) => UnlinkSound(t, d, name);
      case Holds(i) => SameSound(t, Hold(t, i));
      case Drops(_) =>
    }
  }

  lemma DropSound(t: Tree, i: nat)
    requires Law(t) && DirsSound(t)
    ensures Harmless(t, i) && Law(Drop(t, i)) && DirsSound(Drop(t, i))
  {
    hide Law, Names, Barren, Harmless;
    DropLaw(t, i);
    if Last(t, i) {
      assert Names(t, i) == {} && Barren(t, i) by {
        if t[i].kind == Dir {
          assert DirSound(t, i);
        } else {
          FileIsBarren(t, i);
          Uncounted(t, i);
        }
      }
      FreeSound(t, i);
    } else {
      SameSound(t, Drop(t, i));
    }
    BarrenIsHarmless(t, i);
  }

  lemma BarrenIsHarmless(t: Tree, i: nat)
    requires Last(t, i) ==> Barren(t, i) && Names(t, i) == {}
    ensures Harmless(t, i)
  {
  }

  lemma Uncounted(t: Tree, i: nat)
    requires Law(t) && i in t && t[i].kind != Dir && t[i].nlink == 0
    ensures Names(t, i) == {}
  {
    hide Names;
  }

  lemma FreeSound(t: Tree, i: nat)
    requires Law(t) && DirsSound(t) && i in t && Barren(t, i) && Names(t, i) == {}
    ensures DirsSound(t - {i})
  {
    hide Names, Barren, ShapeOk, Distinct, Leads, FilesOk;
    forall j | IsDirectory(t - {i}, j) ensures DirSound(t - {i}, j) {
      FreeEntries(t, i, j);
      assert DirSound(t, j);
      if t[j].nlink <= 0 {
        SameBarren(t, t - {i}, j);
      }
    }
  }

  lemma {:induction false} DropsSound(t: Tree, ids: seq<nat>)
    requires Law(t) && DirsSound(t)
    ensures AllHarmless(t, ids) && Law(DropAll(t, ids)) && DirsSound(DropAll(t, ids))
    decreases ids
  {
    hide Law, DirsSound, Harmless, Drop;
    if ids != [] {
      DropSound(t, ids[0]);
      DropsSound(Drop(t, ids[0]), ids[1..]);
    }
  }

  lemma CallSound(t: Tree, c: Call)
    requires Law(t) && DirsSound(t) && Careful(t, c)
    ensures Law(After(t, c)) && DirsSound(After(t, c)) && !Loses(t, c)
    ensures CanCall(t, c) && c.Removes? ==> !EffectOf(t, c).outcome.Panicked?
  {
    hide Law, DirsSound, AllHarmless, DropAll, EffectOf, Careful;
    if CanCall(t, c) {
      EffectLaw(t, c);
      EffectSound(t, c);
      DropsSound(EffectOf(t, c).tree, EffectOf(t, c).lets);
    }
  }

  /** Careful calls on a disk from mkfs, whose directories do not count what is in them: every state obeys the law,
      nothing is lost, and unlink() never panics. */
  lemma {:induction false} RunSound(states: seq<Tree>, calls: seq<Call>, n: nat)
    requires IsRun(states, calls) && n <= |calls| && Law(states[0]) && DirsSound(states[0])
    requires forall k :: 0 <= k < n ==> Careful(states[k], calls[k])
    ensures Law(states[n]) && DirsSound(states[n])
    ensures forall k :: 0 <= k < n ==> !Loses(states[k], calls[k]) && Keeps(states[k], calls[k])
    ensures forall k :: 0 <= k < n && CanCall(states[k], calls[k]) && calls[k].Removes? ==>
              !EffectOf(states[k], calls[k]).outcome.Panicked?
    decreases n
  {
    hide Law, DirsSound, Careful, Loses, After, Keeps, EffectOf, CanCall;
    if n > 0 {
      var m := n - 1;
      RunSound(states, calls, m);
      CallSound(states[m], calls[m]);
      CallLaw(states[m], calls[m]);
    }
  }

  /** What mkfs makes: every inode has one link, and no directory two names. */
  lemma ImageRuns(states: seq<Tree>, calls: seq<Call>, n: nat)
    requires IsRun(states, calls) && n <= |calls| && Law(states[0])
    requires forall j :: j in states[0] ==> states[0][j].nlink == 1
    requires forall j :: IsDirectory(states[0], j) ==> |Names(states[0], j)| <= 1
    requires forall k :: 0 <= k < n ==> Careful(states[k], calls[k])
    ensures Law(states[n]) && forall k :: 0 <= k < n ==> !Loses(states[k], calls[k]) && Keeps(states[k], calls[k])
  {
    hide Law, Careful, Loses, After, Keeps, Names, Barren;
    RunSound(states, calls, n);
  }
}
