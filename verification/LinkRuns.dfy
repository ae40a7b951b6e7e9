/** Runs of the calls on links: where the counts of directories are right, on a disk from mkfs, where they are not, and
    two runs that leave a file with a link nothing names. */
module LinkRuns {
  import opened Directory
  import opened Links

  /** Any calls on the tree in memory, each if it can be made. */
  method Run(l: Links, calls: seq<Call>) returns (ghost states: seq<Tree>)
    modifies l
    ensures IsRun(states, calls) && states[0] == old(l.nodes) && states[|calls|] == l.nodes
  {
    states := [l.nodes];
    for n := 0 to |calls|
      invariant |states| == n + 1 && states[0] == old(l.nodes) && states[n] == l.nodes
      invariant forall k {:trigger calls[k]} :: 0 <= k < n ==> states[k + 1] == After(states[k], calls[k])
    {
      hide After, CanCall;
      Do(l, calls[n]);
      states := states + [l.nodes];
    }
  }

  method Do(l: Links, c: Call)
    modifies l
    ensures l.nodes == After(old(l.nodes), c)
  {
    hide UnlinkEffect, LinkEffect, CreateEffect, DropAll;
    if CanCall(l.nodes, c) {
      match c {
        case Creates(d, name, kind, inum) => var r := l.Create(d, name, kind, inum);
        case Makes(i, d, name) => var r := l.Link(i, d, name);
        case Removes(d, name) => var r := l.Unlink(d, name);
        case Holds(i) =>
          l.Iget(i);
          DropNone(l.nodes);
        case Drops(i) => l.LetGo(i);
      }
    }
  }

  // ---- Where the counts of directories are right ----

  lemma EffectTree(t: Tree, root: nat, c: Call)
    requires TreeOk(t, root) && CanCall(t, c)
    ensures TreeOk(EffectOf(t, c).tree, root)
  {
    hide Law, DirsOk;
    EffectLaw(t, c);
    match c {
      case Creates(d, name, kind, inum) => CreateLaw(t, root, d, name, kind, inum);
      case Makes(i, d, name) => LinkLaw(t, root, i, d, name);
      case Removes(d, name) => UnlinkLaw(t, root, d, name);
      case Holds(i) => HoldKeeps(t, root, i);
      case Drops(_) =>
    }
  }

  /** A tree that is passed through while these references are dropped. */
  ghost predicate Passes(t: Tree, ids: seq<nat>, u: Tree) {
    u == t || (ids != [] && Passes(Drop(t, ids[0]), ids[1..], u))
  }

  /** A directory without a name is given back with something in it. */
  ghost predicate Buried(u: Tree, i: nat) {
    Last(u, i) && Names(u, i) == {} && Subs(u, i) == {} && !Barren(u, i)
  }

  lemma {:induction false} DropsTree(t: Tree, root: nat, ids: seq<nat>)
    requires TreeOk(t, root)
    ensures AllHarmless(t, ids) ==> TreeOk(DropAll(t, ids), root)
    ensures !AllHarmless(t, ids) ==>
              exists u: Tree, i: nat :: Passes(t, ids, u) && i in ids && TreeOk(u, root) && Buried(u, i)
    decreases ids
  {
    hide TreeOk, Harmless, Drop, Barren, Buried;
    if ids != [] {
      var i, rest := ids[0], ids[1..];
      DropTree(t, root, i);
      if Harmless(t, i) {
        DropsTree(Drop(t, i), root, rest);
        if !AllHarmless(Drop(t, i), rest) {
          var u: Tree, j: nat :| Passes(Drop(t, i), rest, u) && j in rest && TreeOk(u, root) && Buried(u, j);
          assert Passes(t, ids, u) && j in ids;
        }
      } else {
        assert Buried(t, i) by { IsBuried(t, root, i); }
        assert Passes(t, ids, t);
      }
    }
  }

  lemma IsBuried(t: Tree, root: nat, i: nat)
    requires TreeOk(t, root) && !Harmless(t, i)
    ensures Buried(t, i)
  {
    hide TreeOk, Barren;
    DropTree(t, root, i);
  }

  /** A run that starts with the counts of directories right keeps them right while no name is lost; and the only way
      to lose one is to give back a directory without a name that something was entered in. */
  lemma {:induction false} RunTree(states: seq<Tree>, calls: seq<Call>, root: nat, n: nat)
    requires IsRun(states, calls) && n <= |calls| && TreeOk(states[0], root)
    requires forall k :: 0 <= k < n ==> !Loses(states[k], calls[k])
    ensures TreeOk(states[n], root)
    ensures n < |calls| && Loses(states[n], calls[n]) ==>
              && CanCall(states[n], calls[n])
              && exists u: Tree, i: nat ::
                   && Passes(EffectOf(states[n], calls[n]).tree, EffectOf(states[n], calls[n]).lets, u)
                   && i in EffectOf(states[n], calls[n]).lets && TreeOk(u, root) && Buried(u, i)
    decreases n
  {
    hide TreeOk, AllHarmless, Passes, Buried, EffectOf, DropAll;
    if n > 0 {
      var m := n - 1;
      RunTree(states, calls, root, m);
      if CanCall(states[m], calls[m]) {
        EffectTree(states[m], root, calls[m]);
        DropsTree(EffectOf(states[m], calls[m]).tree, root, EffectOf(states[m], calls[m]).lets);
      }
    }
    if n < |calls| && Loses(states[n], calls[n]) {
      EffectTree(states[n], root, calls[n]);
      DropsTree(EffectOf(states[n], calls[n]).tree, root, EffectOf(states[n], calls[n]).lets);
    }
  }

  /** mkfs gives every inode one link and every directory but the root one name. Its counts are right exactly if no
      directory has a directory in it. */
  lemma ImageCounts(t: Tree, root: nat)
    requires IsDirectory(t, root) && Names(t, root) == {} && forall j :: j in t ==> t[j].nlink == 1
    requires forall j :: IsDirectory(t, j) && j != root ==> |Names(t, j)| == 1
    ensures DirsOk(t, root) <==> forall j :: IsDirectory(t, j) ==> Subs(t, j) == {}
  {
    hide Names, Subs;
    if DirsOk(t, root) {
      forall j | IsDirectory(t, j) ensures Subs(t, j) == {} {
        assert t[j].nlink == DirCount(t, root, j);
      }
    }
  }

  // ---- A run on a disk from mkfs ----

  /** A directory of the root with one directory in it, as /tcc with /tcc/include, every inode with one link. */
  const IMAGE: Tree := map[
    1 := Node(Dir, 1, [Entry(1, DOT), Entry(1, DOTDOT), Entry(2, "tcc")], 1),
    2 := Node(Dir, 1, [Entry(2, DOT), Entry(1, DOTDOT), Entry(3, "include")], 0),
    3 := Node(Dir, 1, [Entry(3, DOT), Entry(2, DOTDOT)], 0)]

  lemma ImageLaw()
    ensures Law(IMAGE) && !DirsOk(IMAGE, 1)
  {
    hide ShapeOk, Distinct, Leads;
    ImageShape();
    ImageLeads();
    assert NamesDir(IMAGE, 2, 2) && 2 in Subs(IMAGE, 2);
    assert Named(IMAGE, 1, 2, 2) && (1, 2) in Names(IMAGE, 2);
  }

  lemma ImageShape()
    ensures ShapeOk(IMAGE) && Distinct(IMAGE)
  {
  }

  lemma ImageLeads()
    ensures Leads(IMAGE) && Real(IMAGE, 1, 2) && Real(IMAGE, 2, 2)
  {
    Dots();
    forall a: nat, b: nat | Real(IMAGE, a, b) ensures (a, b) == (1, 2) || (a, b) == (2, 2) {
    }
  }

  /** With a file x made in it and closed again. */
  function ImageWith(x: Node): Tree {
    IMAGE[2 := IMAGE[2].(entries := IMAGE[2].entries + [Entry(4, "x")])][4 := x]
  }

  lemma MakeX()
    ensures After(IMAGE, Creates(2, "x", File, 4)) == ImageWith(Node(File, 1, [], 1))
  {
    var es := IMAGE[2].entries;
    assert FindName(es, "x") == 3 && FindSpare(es) == 3;
    var e := CreateEffect(IMAGE, 2, "x", File, 4);
    DropOne(e.tree, 2);
    assert e.tree[2] == Node(Dir, 1, es + [Entry(4, "x")], 1);
    assert Drop(e.tree, 2) == ImageWith(Node(File, 1, [], 1));
  }

  lemma CloseX()
    ensures After(ImageWith(Node(File, 1, [], 1)), Drops(4)) == ImageWith(Node(File, 1, [], 0))
  {
    var t := ImageWith(Node(File, 1, [], 1));
    DropOne(t, 4);
    assert Drop(t, 4) == ImageWith(Node(File, 1, [], 0));
  }

  lemma RemoveInclude()
    ensures var t := ImageWith(Node(File, 1, [], 0)); After(t, Removes(2, "include")) == t - {2, 3}
  {
    var t := ImageWith(Node(File, 1, [], 0));
    var es := t[2].entries;
    assert es[2] == Entry(3, "include");
    assert FindName(es, "include") == 2;
    var e := UnlinkEffect(t, 2, "include");
    assert e.lets == [2, 3] && Last(e.tree, 2) && Last(e.tree, 3);
    DropTwo(e.tree, 2, 3);
    assert Drop(Drop(e.tree, 2), 3) == t - {2, 3};
  }

  /** Nobody enters anything in a directory that is gone, and still: with its one directory removed, /tcc counts no
      link, and it is given back although the root names it. The file in it keeps a link that nothing names. */
  lemma NamedAndGone() returns (states: seq<Tree>, calls: seq<Call>)
    ensures IsRun(states, calls) && states[0] == IMAGE && Law(IMAGE)
    ensures var t := states[|calls|];
            && !Law(t) && 1 in t && |t[1].entries| == 3 && t[1].entries[2] == Entry(2, "tcc") && 2 !in t
            && 4 in t && t[4].nlink == 1 && Names(t, 4) == {}
  {
    hide After, Law, Names, Drop;
    var full := ImageWith(Node(File, 1, [], 0));
    calls := [Creates(2, "x", File, 4), Drops(4), Removes(2, "include")];
    states := [IMAGE, ImageWith(Node(File, 1, [], 1)), full, full - {2, 3}];
    ImageLaw();
    MakeX();
    CloseX();
    RemoveInclude();
    Unnamed(full - {2, 3});
  }

  lemma Unnamed(t: Tree)
    requires t.Keys == {1, 4} && t[1].entries == [Entry(1, DOT), Entry(1, DOTDOT), Entry(2, "tcc")]
    requires t[4] == Node(File, 1, [], 0)
    ensures !Law(t) && Names(t, 4) == {}
  {
    Dots();
    assert forall a: nat, b: nat :: !Named(t, a, b, 4);
    assert |Names(t, 4)| == 0;
  }

  // ---- A run with the counts right ----

  /** A root directory with one entry after its dots, and inode 2. */
  function WithSub(nlink: int, e: Entry, node: Node): Tree {
    map[1 := Node(Dir, nlink, [Entry(1, DOT), Entry(1, DOTDOT), e], 1), 2 := node]
  }

  const BARE: Tree := map[1 := Node(Dir, 1, [Entry(1, DOT), Entry(1, DOTDOT)], 1)]
  const SUB: seq<Entry> := [Entry(2, DOT), Entry(1, DOTDOT)]

  lemma OnlyRoot()
    ensures TreeOk(BARE, 1)
  {
    Dots();
    assert forall a: nat, b: nat :: !Real(BARE, a, b);
    assert Names(BARE, 1) == {};
    assert Subs(BARE, 1) == {};
  }

  lemma MakeSub()
    ensures After(BARE, Creates(1, "d", Dir, 2)) == WithSub(2, Entry(2, "d"), Node(Dir, 1, SUB, 1))
  {
    var es := BARE[1].entries;
    assert FindName(es, "d") == 2 && FindSpare(es) == 2;
    var e := CreateEffect(BARE, 1, "d", Dir, 2);
    DropOne(e.tree, 1);
    assert es + [Entry(2, "d")] == [Entry(1, DOT), Entry(1, DOTDOT), Entry(2, "d")];
    assert e.tree[1] == Node(Dir, 2, es + [Entry(2, "d")], 2) && e.tree[2] == Node(Dir, 1, SUB, 1);
    assert Drop(e.tree, 1) == WithSub(2, Entry(2, "d"), Node(Dir, 1, SUB, 1));
  }

  lemma RemoveSub()
    ensures var t := WithSub(2, Entry(2, "d"), Node(Dir, 1, SUB, 1));
            After(t, Removes(1, "d")) == WithSub(1, EMPTY, Node(Dir, 0, SUB, 1))
  {
    var t := WithSub(2, Entry(2, "d"), Node(Dir, 1, SUB, 1));
    assert t[1].entries[2] == Entry(2, "d");
    assert FindName(t[1].entries, "d") == 2;
    var e := UnlinkEffect(t, 1, "d");
    assert t[1].entries[2 := EMPTY] == [Entry(1, DOT), Entry(1, DOTDOT), EMPTY];
    assert e.lets == [1, 2] && e.tree[1] == Node(Dir, 1, t[1].entries[2 := EMPTY], 2) &&
           e.tree[2] == Node(Dir, 0, SUB, 2);
    DropTwo(e.tree, 1, 2);
    assert Drop(Drop(e.tree, 1), 2) == WithSub(1, EMPTY, Node(Dir, 0, SUB, 1));
  }

  /** The removed directory, which somebody is still in, with a file in it. */
  function SubWith(x: Node): Tree {
    WithSub(1, EMPTY, Node(Dir, 0, SUB + [Entry(3, "f")], 1))[3 := x]
  }

  lemma MakeF()
    ensures After(WithSub(1, EMPTY, Node(Dir, 0, SUB, 1)), Creates(2, "f", File, 3)) == SubWith(Node(File, 1, [], 1))
  {
    var t := WithSub(1, EMPTY, Node(Dir, 0, SUB, 1));
    assert FindName(SUB, "f") == 2 && FindSpare(SUB) == 2;
    var e := CreateEffect(t, 2, "f", File, 3);
    DropOne(e.tree, 2);
    assert e.tree[2] == Node(Dir, 0, SUB + [Entry(3, "f")], 2);
    assert Drop(e.tree, 2) == SubWith(Node(File, 1, [], 1));
  }

  lemma LetGoF()
    ensures After(SubWith(Node(File, 1, [], 1)), Drops(3)) == SubWith(Node(File, 1, [], 0))
    ensures After(SubWith(Node(File, 1, [], 0)), Drops(2)) == SubWith(Node(File, 1, [], 0)) - {2}
  {
    var t := SubWith(Node(File, 1, [], 1));
    DropOne(t, 3);
    assert Drop(t, 3) == SubWith(Node(File, 1, [], 0));
    DropOne(Drop(t, 3), 2);
  }

  /** A directory is made and removed while somebody is in it, a file is made in it, and both are let go. The file keeps
      a link that nothing names. */
  lemma NameLost() returns (states: seq<Tree>, calls: seq<Call>)
    ensures IsRun(states, calls) && TreeOk(states[0], 1)
    ensures var t := states[|calls|]; !Law(t) && 3 in t && t[3].nlink == 1 && Names(t, 3) == {}
  {
    hide After, Law, TreeOk, Names;
    var x := Node(File, 1, [], 0);
    calls := [Creates(1, "d", Dir, 2), Removes(1, "d"), Creates(2, "f", File, 3), Drops(3), Drops(2)];
    states := [BARE, WithSub(2, Entry(2, "d"), Node(Dir, 1, SUB, 1)), WithSub(1, EMPTY, Node(Dir, 0, SUB, 1)),
               SubWith(Node(File, 1, [], 1)), SubWith(x), SubWith(x) - {2}];
    OnlyRoot();
    MakeSub();
    RemoveSub();
    MakeF();
    LetGoF();
    NoName(SubWith(x) - {2});
  }

  lemma NoName(t: Tree)
    requires t.Keys == {1, 3} && t[1].entries == [Entry(1, DOT), Entry(1, DOTDOT), EMPTY]
    requires t[3] == Node(File, 1, [], 0)
    ensures !Law(t) && Names(t, 3) == {}
  {
    Dots();
    assert forall a: nat, b: nat :: !Named(t, a, b, 3);
    assert |Names(t, 3)| == 0;
  }
}
