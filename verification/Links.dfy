/** The system calls that name and unname files: create, link and unlink, and references in memory coming and going.
    What each call does to the tree is a function; the methods do it step by step. */
module Links {
  import opened Directory

  datatype Outcome = Done(inum: nat) | Refused | Panicked

  /** What a call does: the tree it makes, the references it then drops, in order, and what it returns. */
  datatype Effect = Effect(tree: Tree, lets: seq<nat>, outcome: Outcome)

  /** The first live entry with a name, or the end. */
  function FindName(es: seq<Entry>, name: string): (k: nat)
    ensures k <= |es| && (k < |es| ==> es[k].inum != 0 && es[k].name == name)
    ensures forall b :: 0 <= b < k ==> es[b].inum == 0 || es[b].name != name
  {
    if es == [] || (es[0].inum != 0 && es[0].name == name) then 0
    else
      var k := FindName(es[1..], name);
      assert forall b :: 0 < b <= k ==> es[b] == es[1..][b - 1];
      k + 1
  }

  /** The first empty entry, or the end. */
  function FindSpare(es: seq<Entry>): (k: nat)
    ensures k <= |es| && (k < |es| ==> es[k].inum == 0)
    ensures forall b :: 0 <= b < k ==> es[b].inum != 0
  {
    if es == [] || es[0].inum == 0 then 0
    else
      var k := FindSpare(es[1..]);
      assert forall b :: 0 < b <= k ==> es[b] == es[1..][b - 1];
      k + 1
  }

  /** Nothing after the first two entries. */
  predicate NoMore(es: seq<Entry>) {
    forall b :: 2 <= b < |es| ==> es[b].inum == 0
  }

  /** ialloc() and, for a directory, the two entries every directory has; no link yet, and one reference. */
  function NewNode(kind: Kind, i: nat, d: nat): Node {
    Node(kind, 0, if kind == Dir then [Entry(i, DOT), Entry(d, DOTDOT)] else [], 1)
  }

  /** unlink(): it panics on an inode that is counted nowhere, which on a disk from mkfs a directory can be. */
  function UnlinkEffect(t: Tree, d: nat, name: string): Effect
    requires d in t
  {
    var h, es := Hold(t, d), t[d].entries;
    var k := FindName(es, name);
    if IsDot(name) || k == |es| then Effect(h, [d], Refused)
    else
      var i := es[k].inum;
      if i !in t || t[i].nlink < 1 then Effect(Hold(h, i), [], Panicked)
      else if t[i].kind == Dir && !NoMore(t[i].entries) then Effect(Hold(h, i), [i, d], Refused)
      else Effect(Removed(Hold(h, i), d, k), [d, i], Done(i))
  }

  /** link() */
  function LinkEffect(t: Tree, i: nat, d: nat, name: string): Effect
    requires i in t && d in t
  {
    var h := Hold(Hold(t, i), d);
    if t[i].kind == Dir then Effect(Hold(t, i), [i], Refused)
    else if FindName(t[d].entries, name) < |t[d].entries| then Effect(h, [d, i], Refused)
    else Effect(Entered(h, i, d, FindSpare(t[d].entries), name), [d, i], Done(i))
  }

  /** create(): it panics on a name that leads nowhere, as ".." can in a directory that has been removed. */
  function CreateEffect(t: Tree, d: nat, name: string, kind: Kind, inum: nat): Effect
    requires d in t
  {
    var h, es := Hold(t, d), t[d].entries;
    var k := FindName(es, name);
    if k < |es| then
      var i := es[k].inum;
      if i !in t then Effect(h, [d], Panicked)
      else if kind == File && t[i].kind == File then Effect(Hold(h, i), [d], Done(i))
      else Effect(Hold(h, i), [d, i], Refused)
    else if inum in t then Effect(t, [], Panicked)
    else Effect(Entered(h[inum := NewNode(kind, inum, d)], inum, d, FindSpare(es), name), [d], Done(inum))
  }

  /** The references dropped one after the other. */
  function DropAll(t: Tree, ids: seq<nat>): Tree {
    if ids == [] then t else DropAll(Drop(t, ids[0]), ids[1..])
  }

  lemma DropNone(t: Tree)
    ensures DropAll(t, []) == t
  {
  }

  lemma DropOne(t: Tree, a: nat)
    ensures DropAll(t, [a]) == Drop(t, a)
  {
    assert [a][1..] == [];
  }

  lemma DropTwo(t: Tree, a: nat, b: nat)
    ensures DropAll(t, [a, b]) == Drop(Drop(t, a), b)
  {
    assert [a, b][1..] == [b];
    DropOne(Drop(t, a), b);
  }

  // ---- What a call leaves behind, entry by entry and count by count ----

  /** Directory `d` has the entries `es`, inode `i` and directory `d` have these links more, and every inode as many
      references more as it has in `held`; every other entry, count and reference is as it was. Gone are, of the inodes
      in `touched`, exactly those left without a link and a reference. */
  ghost predicate Leaves(t: Tree, t': Tree, touched: set<nat>, held: multiset<nat>, d: nat, es: seq<Entry>, i: nat,
                         inode: int, parent: int) {
    forall j: nat ::
      if j in t then
        var n := t[j].nlink + (if j == i then inode else 0) + (if j == d then parent else 0);
        && (j in t' <==> !(j in touched && held[j] == 0 && n == 0 && t[j].ref == 0))
        && (j in t' ==>
              && t'[j].kind == t[j].kind && t'[j].entries == (if j == d then es else t[j].entries)
              && t'[j].nlink == n && t'[j].ref == t[j].ref + held[j])
      else j !in t'
  }

  /** The entries and counts are as they were. */
  ghost predicate LeavesAll(t: Tree, t': Tree, touched: set<nat>, held: multiset<nat>, d: nat)
    requires d in t
  {
    Leaves(t, t', touched, held, d, t[d].entries, d, 0, 0)
  }

  /** `k` is the first entry with the name, and leads to `i`. */
  ghost predicate IsAt(es: seq<Entry>, name: string, k: nat, i: nat) {
    && k < |es| && es[k] == Entry(i, name) && i != 0
    && forall b :: 0 <= b < k ==> es[b].inum == 0 || es[b].name != name
  }

  /** unlink(): the entry is empty, and a link less is counted for the inode, and for the directory it was in if it
      is one itself. */
  ghost predicate Unlinks(t: Tree, t': Tree, d: nat, name: string, i: nat)
    requires d in t
  {
    i in t && exists k: nat :: IsAt(t[d].entries, name, k, i) && EmptiesAt(t, t', d, k, i)
  }

  ghost predicate EmptiesAt(t: Tree, t': Tree, d: nat, k: nat, i: nat)
    requires d in t && i in t && k < |t[d].entries|
  {
    Leaves(t, t', {d, i}, multiset{}, d, t[d].entries[k := Entry(0, "")], i, -1, if t[i].kind == Dir then -1 else 0)
  }

  /** The entries with this one in the first empty place, or at the end. */
  ghost predicate Adds(es: seq<Entry>, es': seq<Entry>, e: Entry) {
    exists k: nat :: FirstEmpty(es, k) && es' == if k < |es| then es[k := e] else es + [e]
  }

  ghost predicate FirstEmpty(es: seq<Entry>, k: nat) {
    k <= |es| && (forall b :: 0 <= b < k ==> es[b].inum != 0) && (k < |es| ==> es[k].inum == 0)
  }

  /** link(): one more entry that leads to the inode, and one more link of it. */
  ghost predicate LinksTo(t: Tree, t': Tree, d: nat, name: string, i: nat)
    requires d in t
  {
    exists es :: Adds(t[d].entries, es, Entry(i, name)) && Leaves(t, t', {d, i}, multiset{}, d, es, i, 1, 0)
  }

  /** create(): a new inode with one link and one reference, empty but for the dots of a directory, one more entry that
      leads to it, and one more link of the directory it is in if it is one. */
  ghost predicate MakesNew(t: Tree, t': Tree, d: nat, name: string, kind: Kind, i: nat)
    requires d in t
  {
    && i !in t && i in t'
    && t'[i] == Node(kind, 1, if kind == Dir then [Entry(i, "."), Entry(d, "..")] else [], 1)
    && exists es :: Adds(t[d].entries, es, Entry(i, name)) && EntersNew(t, t', d, kind, i, es)
  }

  ghost predicate EntersNew(t: Tree, t': Tree, d: nat, kind: Kind, i: nat, es: seq<Entry>) {
    Leaves(t, t' - {i}, {d}, multiset{}, d, es, d, 0, if kind == Dir then 1 else 0)
  }

  /** What unlink() leaves: with Done the entry is empty and its link gone, so that in a directory without a name twice
      the name is not there any more; otherwise every entry and count is as before. */
  ghost predicate UnlinkEnds(t: Tree, t': Tree, d: nat, name: string, r: Outcome)
    requires d in t
  {
    match r
    case Done(i) => Unlinks(t, t', d, name, i) && (Distinct(t) && d in t' ==> !Present(t', d, name))
    case Refused => exists touched :: LeavesAll(t, t', touched, multiset{}, d)
    case Panicked => exists held :: LeavesAll(t, t', {}, held, d)
  }

  /** What link() leaves: with Done the name leads to the inode. */
  ghost predicate LinkEnds(t: Tree, t': Tree, i: nat, d: nat, name: string, r: Outcome)
    requires d in t
  {
    match r
    case Done(j) => j == i && LinksTo(t, t', d, name, i) && (d in t' && i != 0 ==> LeadsTo(t', d, name, i))
    case Refused => exists touched :: LeavesAll(t, t', touched, multiset{}, d)
    case Panicked => false
  }

  /** What create() leaves: the new inode under its name, or the one that was there held once more. */
  ghost predicate CreateEnds(t: Tree, t': Tree, d: nat, name: string, kind: Kind, inum: nat, r: Outcome)
    requires d in t
  {
    match r
    case Done(i) =>
      if i == inum then MakesNew(t, t', d, name, kind, inum) && (d in t' && i != 0 ==> LeadsTo(t', d, name, i))
      else LeadsTo(t, d, name, i) && LeavesAll(t, t', {d}, multiset{i}, d)
    case Refused => exists touched :: LeavesAll(t, t', touched, multiset{}, d)
    case Panicked => LeavesAll(t, t', {d}, multiset{}, d)
  }

  ghost predicate LeadsTo(t: Tree, d: nat, name: string, i: nat)
    requires d in t
  {
    exists k: nat :: IsAt(t[d].entries, name, k, i)
  }

  lemma HoldLeaves(t: Tree, u: Tree, touched: set<nat>, held: multiset<nat>, d: nat, es: seq<Entry>, i: nat,
                   inode: int, parent: int, a: nat)
    requires Leaves(t, u, touched, held, d, es, i, inode, parent) && (a in t ==> a in u)
    ensures Leaves(t, Hold(u, a), touched, if a in t then held + multiset{a} else held, d, es, i, inode, parent)
  {
  }

  lemma DropLeaves(t: Tree, u: Tree, touched: set<nat>, held: multiset<nat>, d: nat, es: seq<Entry>, i: nat,
                   inode: int, parent: int, a: nat)
    requires Leaves(t, u, touched, held, d, es, i, inode, parent) && a in t && a in held
    ensures Leaves(t, Drop(u, a), touched + {a}, held - multiset{a}, d, es, i, inode, parent)
  {
  }

  lemma StartLeaves(t: Tree, d: nat, i: nat)
    requires d in t
    ensures Leaves(t, t, {}, multiset{}, d, t[d].entries, i, 0, 0)
  {
  }

  lemma RemovedLeaves(t: Tree, u: Tree, held: multiset<nat>, d: nat, k: nat, i: nat)
    requires d in t && i in t && Leaves(t, u, {}, held, d, t[d].entries, i, 0, 0)
    requires Real(u, d, k) && u[d].entries[k].inum == i && i in u
    ensures k < |t[d].entries|
    ensures Leaves(t, Removed(u, d, k), {}, held, d, t[d].entries[k := Entry(0, "")], i, -1,
                   if t[i].kind == Dir then -1 else 0)
  {
    hide IsDot;
  }

  lemma EnteredLeaves(t: Tree, u: Tree, held: multiset<nat>, d: nat, name: string, i: nat)
    requires d in t && i in t && Leaves(t, u, {}, held, d, t[d].entries, i, 0, 0) && d in u && i in u
    requires t[i].kind != Dir
    ensures FindSpare(t[d].entries) <= |u[d].entries|
    ensures exists es :: Adds(t[d].entries, es, Entry(i, name))
              && Leaves(t, Entered(u, i, d, FindSpare(t[d].entries), name), {}, held, d, es, i, 1, 0)
  {
    var es, k, e := t[d].entries, FindSpare(t[d].entries), Entry(i, name);
    var after := if k < |es| then es[k := e] else es + [e];
    assert Adds(es, after, e) by { AddsAt(es, e); }
    assert Leaves(t, Entered(u, i, d, k, name), {}, held, d, after, i, 1, 0);
  }

  lemma AddsAt(es: seq<Entry>, e: Entry)
    ensures var k := FindSpare(es); Adds(es, if k < |es| then es[k := e] else es + [e], e)
  {
    hide FindSpare;
    assert FirstEmpty(es, FindSpare(es));
  }

  lemma NameGone(t: Tree, t': Tree, d: nat, name: string, i: nat)
    requires d in t && Distinct(t) && Unlinks(t, t', d, name, i) && d in t'
    ensures !Present(t', d, name)
  {
    var es := t[d].entries;
    var k: nat :| IsAt(es, name, k, i) && EmptiesAt(t, t', d, k, i);
    assert t'[d].entries == es[k := Entry(0, "")];
    forall b: nat | b < |es| && b != k && es[b].inum != 0 ensures es[b].name != name {
      assert b < k || k < b;
    }
  }

  lemma NameThere(es: seq<Entry>, es': seq<Entry>, name: string, i: nat)
    requires Adds(es, es', Entry(i, name)) && i != 0
    requires forall b :: 0 <= b < |es| && es[b].inum != 0 ==> es[b].name != name
    ensures exists k: nat :: IsAt(es', name, k, i)
  {
    var k: nat :| FirstEmpty(es, k) && es' == if k < |es| then es[k := Entry(i, name)] else es + [Entry(i, name)];
    assert IsAt(es', name, k, i);
  }

  lemma LinkedThere(t: Tree, t': Tree, d: nat, name: string, i: nat)
    requires d in t && LinksTo(t, t', d, name, i) && d in t' && i != 0 && FindName(t[d].entries, name) == |t[d].entries|
    ensures LeadsTo(t', d, name, i)
  {
    hide Adds, IsAt;
    var es :| Adds(t[d].entries, es, Entry(i, name)) && Leaves(t, t', {d, i}, multiset{}, d, es, i, 1, 0);
    NameThere(t[d].entries, es, name, i);
  }

  lemma MadeThere(t: Tree, t': Tree, d: nat, name: string, kind: Kind, i: nat)
    requires d in t && MakesNew(t, t', d, name, kind, i) && d in t' && i != 0
    requires FindName(t[d].entries, name) == |t[d].entries|
    ensures LeadsTo(t', d, name, i)
  {
    hide Adds, IsAt;
    var es :| Adds(t[d].entries, es, Entry(i, name)) && EntersNew(t, t', d, kind, i, es);
    assert (t' - {i})[d].entries == es;
    NameThere(t[d].entries, es, name, i);
  }

  lemma UnlinkLeaves(t: Tree, d: nat, name: string)
    requires d in t
    ensures var e := UnlinkEffect(t, d, name);
            UnlinkEnds(t, DropAll(e.tree, e.lets), d, name, e.outcome)
  {
    hide Leaves, DropAll, IsDot;
    var es, e, k := t[d].entries, UnlinkEffect(t, d, name), FindName(t[d].entries, name);
    var t' := DropAll(e.tree, e.lets);
    StartLeaves(t, d, d);
    HoldLeaves(t, t, {}, multiset{}, d, es, d, 0, 0, d);
    var h, one := Hold(t, d), multiset{} + multiset{d};
    if IsDot(name) || k == |es| {
      DropLeaves(t, h, {}, one, d, es, d, 0, 0, d);
      assert one - multiset{d} == multiset{};
      DropOne(h, d);
      assert LeavesAll(t, t', {} + {d}, multiset{}, d);
    } else {
      UnlinkFound(t, d, name, k, es[k].inum);
    }
  }

  lemma UnlinkFound(t: Tree, d: nat, name: string, k: nat, i: nat)
    requires d in t && !IsDot(name) && k == FindName(t[d].entries, name) < |t[d].entries|
    requires i == t[d].entries[k].inum
    ensures var e := UnlinkEffect(t, d, name);
            UnlinkEnds(t, DropAll(e.tree, e.lets), d, name, e.outcome)
  {
    hide Leaves, DropAll, IsDot;
    var es, e := t[d].entries, UnlinkEffect(t, d, name);
    var t' := DropAll(e.tree, e.lets);
    var h, held := Hold(Hold(t, d), i), if i in t then multiset{d, i} else multiset{d};
    HeldBoth(t, d, i, d);
    HeldBoth(t, d, i, i);
    if e.outcome.Panicked? {
      DropNone(h);
      assert LeavesAll(t, t', {}, held, d);
    } else if e.outcome.Refused? {
      DropTwo(h, i, d);
      assert held == multiset{i, d};
      DropBoth(t, h, d, es, d, 0, 0, i, d);
      assert LeavesAll(t, t', {i, d}, multiset{}, d);
    } else {
      assert Real(h, d, k) && h[d].entries == es;
      RemovedLeaves(t, h, held, d, k, i);
      DropTwo(Removed(h, d, k), d, i);
      DropBoth(t, Removed(h, d, k), d, es[k := Entry(0, "")], i, -1, if t[i].kind == Dir then -1 else 0, d, i);
      assert es[k] == Entry(i, name);
      assert IsAt(es, name, k, i) && EmptiesAt(t, t', d, k, i);
      assert Unlinks(t, t', d, name, i);
      if Distinct(t) && d in t' {
        NameGone(t, t', d, name, i);
      }
    }
  }

  lemma HeldBoth(t: Tree, d: nat, a: nat, i: nat)
    requires d in t
    ensures Leaves(t, Hold(Hold(t, d), a), {}, if a in t then multiset{d, a} else multiset{d}, d, t[d].entries, i, 0, 0)
  {
    hide Leaves;
    StartLeaves(t, d, i);
    HoldLeaves(t, t, {}, multiset{}, d, t[d].entries, i, 0, 0, d);
    assert multiset{} + multiset{d} == multiset{d};
    HoldLeaves(t, Hold(t, d), {}, multiset{d}, d, t[d].entries, i, 0, 0, a);
    assert multiset{d} + multiset{a} == multiset{d, a};
  }

  /** Both references dropped, in either order. */
  lemma DropBoth(t: Tree, u: Tree, d: nat, es: seq<Entry>, i: nat, inode: int, parent: int, a: nat, b: nat)
    requires a in t && b in t && Leaves(t, u, {}, multiset{a, b}, d, es, i, inode, parent)
    ensures Leaves(t, Drop(Drop(u, a), b), {a, b}, multiset{}, d, es, i, inode, parent)
  {
    hide Leaves;
    DropLeaves(t, u, {}, multiset{a, b}, d, es, i, inode, parent, a);
    assert multiset{a, b} - multiset{a} == multiset{b};
    DropLeaves(t, Drop(u, a), {} + {a}, multiset{b}, d, es, i, inode, parent, b);
    assert multiset{b} - multiset{b} == multiset{} && {} + {a} + {b} == {a, b};
  }

  lemma LinkLeaves(t: Tree, i: nat, d: nat, name: string)
    requires i in t && IsDirectory(t, d)
    ensures var e := LinkEffect(t, i, d, name);
            LinkEnds(t, DropAll(e.tree, e.lets), i, d, name, e.outcome)
  {
    hide Leaves, DropAll, Adds;
    var es, e := t[d].entries, LinkEffect(t, i, d, name);
    var t' := DropAll(e.tree, e.lets);
    if t[i].kind == Dir {
      StartLeaves(t, d, d);
      HoldLeaves(t, t, {}, multiset{}, d, es, d, 0, 0, i);
      assert multiset{} + multiset{i} == multiset{i} && multiset{i} - multiset{i} == multiset{};
      DropLeaves(t, Hold(t, i), {}, multiset{i}, d, es, d, 0, 0, i);
      DropOne(Hold(t, i), i);
      assert LeavesAll(t, t', {} + {i}, multiset{}, d);
    } else {
      var h := Hold(Hold(t, i), d);
      assert h == Hold(Hold(t, d), i);
      assert multiset{d, i} == multiset{i, d};
      HeldBoth(t, d, i, d);
      HeldBoth(t, d, i, i);
      DropTwo(e.tree, d, i);
      if e.outcome.Refused? {
        DropBoth(t, h, d, es, d, 0, 0, d, i);
        assert LeavesAll(t, t', {d, i}, multiset{}, d);
      } else {
        EnteredLeaves(t, h, multiset{d, i}, d, name, i);
        var after :| Adds(es, after, Entry(i, name)) && Leaves(t, e.tree, {}, multiset{d, i}, d, after, i, 1, 0);
        DropBoth(t, e.tree, d, after, i, 1, 0, d, i);
        assert LinksTo(t, t', d, name, i);
        if d in t' && i != 0 {
          LinkedThere(t, t', d, name, i);
        }
      }
    }
  }

  lemma CreateLeaves(t: Tree, d: nat, name: string, kind: Kind, inum: nat)
    requires IsDirectory(t, d) && inum !in t
    ensures var e := CreateEffect(t, d, name, kind, inum);
            CreateEnds(t, DropAll(e.tree, e.lets), d, name, kind, inum, e.outcome)
  {
    hide Leaves, DropAll, Adds, IsAt, MakesNew;
    var es, e := t[d].entries, CreateEffect(t, d, name, kind, inum);
    var t' := DropAll(e.tree, e.lets);
    var k := FindName(es, name);
    if k < |es| {
      var i := es[k].inum;
      HeldBoth(t, d, i, d);
      if i !in t {
        DropOne(Hold(t, d), d);
        DropLeaves(t, Hold(t, d), {}, multiset{d}, d, es, d, 0, 0, d);
        assert multiset{d} - multiset{d} == multiset{} && {} + {d} == {d};
      } else if e.outcome.Refused? {
        DropTwo(e.tree, d, i);
        DropBoth(t, e.tree, d, es, d, 0, 0, d, i);
        assert LeavesAll(t, t', {d, i}, multiset{}, d);
      } else {
        DropOne(e.tree, d);
        DropLeaves(t, e.tree, {}, multiset{d, i}, d, es, d, 0, 0, d);
        assert multiset{d, i} - multiset{d} == multiset{i} && {} + {d} == {d};
        assert IsAt(es, name, k, i) by { FoundAt(es, name); }
        assert LeadsTo(t, d, name, i);
      }
    } else {
      CreateNew(t, d, name, kind, inum);
      if d in t' && inum != 0 {
        MadeThere(t, t', d, name, kind, inum);
      }
    }
  }

  lemma FoundAt(es: seq<Entry>, name: string)
    requires FindName(es, name) < |es|
    ensures IsAt(es, name, FindName(es, name), es[FindName(es, name)].inum)
  {
  }

  lemma CreateNew(t: Tree, d: nat, name: string, kind: Kind, inum: nat)
    requires IsDirectory(t, d) && inum !in t && FindName(t[d].entries, name) == |t[d].entries|
    ensures var e := CreateEffect(t, d, name, kind, inum); MakesNew(t, DropAll(e.tree, e.lets), d, name, kind, inum)
  {
    hide Leaves, DropAll, Adds, CreateEffect, Bump, WithEntry, FindSpare, FindName;
    CreateIs(t, d, name, kind, inum);
    var es, k, u := t[d].entries, FindSpare(t[d].entries), CreateEffect(t, d, name, kind, inum).tree;
    var entry := Entry(inum, name);
    var after := if k < |es| then es[k := entry] else es + [entry];
    AddsAt(es, entry);
    NewLeaves(t, d, name, kind, inum);
    NewIs(t, d, name, kind, inum);
    DropOne(u, d);
    DropLeaves(t, u - {inum}, {}, multiset{d}, d, after, d, 0, if kind == Dir then 1 else 0, d);
    assert multiset{d} - multiset{d} == multiset{} && {} + {d} == {d};
    assert Drop(u, d) - {inum} == Drop(u - {inum}, d);
    assert EntersNew(t, Drop(u, d), d, kind, inum, after);
  }

  lemma NewLeaves(t: Tree, d: nat, name: string, kind: Kind, inum: nat)
    requires IsDirectory(t, d) && inum !in t && FindName(t[d].entries, name) == |t[d].entries|
    ensures var es, k, u := t[d].entries, FindSpare(t[d].entries), CreateEffect(t, d, name, kind, inum).tree;
            var after := if k < |es| then es[k := Entry(inum, name)] else es + [Entry(inum, name)];
            Leaves(t, u - {inum}, {}, multiset{d}, d, after, d, 0, if kind == Dir then 1 else 0)
  {
    hide FindSpare, FindName, CreateEffect, Bump;
    CreateIs(t, d, name, kind, inum);
    BumpIs(Hold(t, d)[inum := NewNode(kind, inum, d)], inum, d);
  }

  lemma NewIs(t: Tree, d: nat, name: string, kind: Kind, inum: nat)
    requires IsDirectory(t, d) && inum !in t && FindName(t[d].entries, name) == |t[d].entries|
    ensures var u := CreateEffect(t, d, name, kind, inum).tree;
            && inum in u && u[inum].kind == kind && u[inum].nlink == 1 && u[inum].ref == 1
            && u[inum].entries == if kind == Dir then [Entry(inum, "."), Entry(d, "..")] else []
  {
    hide FindSpare, FindName, CreateEffect, Bump;
    CreateIs(t, d, name, kind, inum);
    BumpIs(Hold(t, d)[inum := NewNode(kind, inum, d)], inum, d);
  }

  lemma CreateIs(t: Tree, d: nat, name: string, kind: Kind, inum: nat)
    requires IsDirectory(t, d) && inum !in t && FindName(t[d].entries, name) == |t[d].entries|
    ensures var b := Bump(Hold(t, d)[inum := NewNode(kind, inum, d)], inum, d, 1);
            && d in b && b[d].entries == t[d].entries
            && CreateEffect(t, d, name, kind, inum) ==
               Effect(WithEntry(b, d, FindSpare(t[d].entries), Entry(inum, name)), [d], Done(inum))
  {
  }

  lemma BumpIs(t: Tree, i: nat, d: nat)
    requires i in t && d in t && i != d
    ensures var b := Bump(t, i, d, 1);
            && b.Keys == t.Keys
            && forall j :: j in t ==>
                 b[j] == t[j].(nlink := t[j].nlink + if j == i || (j == d && t[i].kind == Dir) then 1 else 0)
  {
  }

  class Links {
    var nodes: Tree

    constructor (t: Tree)
      ensures nodes == t
    {
      nodes := t;
    }

    /** dirlookup(): the index of the entry with a name, or -1. */
    method DirLookup(d: nat, name: string) returns (k: int)
      requires d in nodes
      ensures -1 <= k < |nodes[d].entries| && (k == -1 <==> !Present(nodes, d, name))
      ensures k >= 0 ==> nodes[d].entries[k].inum != 0 && nodes[d].entries[k].name == name
      ensures FindName(nodes[d].entries, name) == if k == -1 then |nodes[d].entries| else k
    {
      k := 0;
      while k < |nodes[d].entries|
        invariant 0 <= k <= |nodes[d].entries|
        invariant forall b :: 0 <= b < k ==> nodes[d].entries[b].inum == 0 || nodes[d].entries[b].name != name
      {
        var e := nodes[d].entries[k];
        if e.inum != 0 && e.name == name {
          return;
        }
        k := k + 1;
      }
      k := -1;
    }

    /** The search of dirlink(): the first empty entry, or the end. */
    method FindEmpty(d: nat) returns (k: nat)
      requires d in nodes
      ensures k == FindSpare(nodes[d].entries)
    {
      k := 0;
      while k < |nodes[d].entries| && nodes[d].entries[k].inum != 0
        invariant k <= |nodes[d].entries| && forall b :: 0 <= b < k ==> nodes[d].entries[b].inum != 0
      {
        k := k + 1;
      }
    }

    /** isdirempty(): everything after the dots. */
    method IsDirEmpty(i: nat) returns (empty: bool)
      requires IsDirectory(nodes, i)
      ensures empty <==> NoMore(nodes[i].entries)
      ensures ShapeOk(nodes) && Distinct(nodes) ==> (empty <==> Barren(nodes, i))
    {
      hide ShapeOk, Distinct, Barren;
      var k := 2;
      empty := true;
      while k < |nodes[i].entries|
        invariant k >= 2 && empty && forall b :: 2 <= b < k && b < |nodes[i].entries| ==> nodes[i].entries[b].inum == 0
      {
        hide ShapeOk, Distinct, Barren;
        if nodes[i].entries[k].inum != 0 {
          empty := false;
          break;
        }
        k := k + 1;
      }
      if ShapeOk(nodes) && Distinct(nodes) {
        EmptyIsBarren(nodes, i);
      }
    }

    /** iget(): one more reference. */
    method Iget(i: nat)
      modifies this
      ensures nodes == Hold(old(nodes), i)
    {
      if i in nodes {
        nodes := nodes[i := nodes[i].(ref := nodes[i].ref + 1)];
      }
    }

    /** iput(): the inode is given back when its last link and its last reference are gone, and not before. The law
        survives that exactly if it is named by nothing and names no file; and where the counts of directories are
        right, exactly if it has nothing in it. */
    method Iput(i: nat)
      requires i in nodes && nodes[i].ref >= 1
      modifies this
      ensures nodes == Drop(old(nodes), i)
      ensures i !in nodes <==> old(nodes)[i].nlink == 0 && old(nodes)[i].ref == 1
      ensures old(Law(nodes)) ==> (Law(nodes) <==> old(Harmless(nodes, i)))
      ensures forall root: nat :: old(TreeOk(nodes, root)) ==>
                (TreeOk(nodes, root) <==> i in nodes || old(Barren(nodes, i)))
    {
      hide Law, TreeOk, Harmless, Barren;
      if Law(nodes) {
        DropLaw(nodes, i);
      }
      forall root: nat | TreeOk(nodes, root)
        ensures TreeOk(Drop(nodes, i), root) <==> (Last(nodes, i) ==> Barren(nodes, i))
      {
        DropTree(nodes, root, i);
      }
      if nodes[i].ref == 1 && nodes[i].nlink == 0 {
        nodes := nodes - {i};
      } else {
        nodes := nodes[i := nodes[i].(ref := nodes[i].ref - 1)];
      }
    }

    /** What a call does at its end. */
    method LetGo(a: nat)
      requires a in nodes && nodes[a].ref >= 1
      modifies this
      ensures nodes == DropAll(old(nodes), [a])
    {
      hide Law, TreeOk, Harmless, Barren;
      DropOne(nodes, a);
      Iput(a);
    }

    method LetGoBoth(a: nat, b: nat)
      requires a in nodes && nodes[a].ref >= (if a == b then 2 else 1) && b in nodes && nodes[b].ref >= 1
      modifies this
      ensures nodes == DropAll(old(nodes), [a, b])
    {
      hide Law, TreeOk, Harmless, Barren;
      DropTwo(nodes, a, b);
      Iput(a);
      Iput(b);
    }

    /** The same, with a link of the second counted off when the first has been let go. */
    method LetGoCounted(d: nat, i: nat)
      requires d in nodes && nodes[d].ref >= (if d == i then 2 else 1) && i in nodes && nodes[i].ref >= 1
      modifies this
      ensures nodes == DropAll(old(nodes)[i := old(nodes)[i].(nlink := old(nodes)[i].nlink - 1)], [d, i])
    {
      hide Law, TreeOk, Harmless, Barren;
      LaterCount(nodes, d, i);
      DropTwo(nodes[i := nodes[i].(nlink := nodes[i].nlink - 1)], d, i);
      Iput(d);
      nodes := nodes[i := nodes[i].(nlink := nodes[i].nlink - 1)];
      Iput(i);
    }

    /** link(): a directory is refused, and so is a name that is there; otherwise one more name and one more link. */
    method Link(i: nat, d: nat, name: string) returns (r: Outcome)
      requires i in nodes && IsDirectory(nodes, d)
      modifies this
      ensures var e := LinkEffect(old(nodes), i, d, name); r == e.outcome && nodes == DropAll(e.tree, e.lets)
      ensures r == if old(nodes)[i].kind != Dir && !old(Present(nodes, d, name)) then Done(i) else Refused
      ensures LinkEnds(old(nodes), nodes, i, d, name, r)
      ensures old(Law(nodes) && !Loses(nodes, Makes(i, d, name))) ==> Law(nodes)
    {
      hide Present, DropAll, Law, Loses, LinkEnds;
      LinkReturns(nodes, i, d, name);
      LinkLeaves(nodes, i, d, name);
      if Law(nodes) {
        CallLaw(nodes, Makes(i, d, name));
      }
      Iget(i);
      if nodes[i].kind == Dir {
        LetGo(i);
        return Refused;
      }
      nodes := nodes[i := nodes[i].(nlink := nodes[i].nlink + 1)];
      Iget(d);
      ghost var h := Hold(Hold(old(nodes), i), d);
      assert nodes == Bump(h, i, d, 1);
      var at := DirLookup(d, name);
      if at >= 0 {
        UndoLink(h, i, d);
        LetGoCounted(d, i);
        return Refused;
      }
      at := FindEmpty(d);
      nodes := WithEntry(nodes, d, at, Entry(i, name));
      LetGoBoth(d, i);
      r := Done(i);
    }

    /** unlink(): the dots, a name that is not there and a directory that is not empty are refused; otherwise the name
        goes and its link with it. The directory it was in and the inode are let go, in that order. */
    method Unlink(d: nat, name: string) returns (r: Outcome)
      requires IsDirectory(nodes, d)
      modifies this
      ensures var e := UnlinkEffect(old(nodes), d, name); r == e.outcome && nodes == DropAll(e.tree, e.lets)
      ensures old(Law(nodes)) ==>
                && (r.Panicked? <==> old(exists k: nat :: Miscounted(nodes, d, k, name)))
                && (r.Done? <==> old(exists k: nat :: Removable(nodes, d, k, name) && !Miscounted(nodes, d, k, name)))
      ensures UnlinkEnds(old(nodes), nodes, d, name, r)
      ensures old(Law(nodes) && !Loses(nodes, Removes(d, name))) ==> Law(nodes)
    {
      hide Present, DropAll, ShapeOk, Distinct, Barren, Law, Loses, Removable, Miscounted, UnlinkEnds;
      UnlinkLeaves(nodes, d, name);
      if Law(nodes) {
        UnlinkReturns(nodes, d, name);
        CallLaw(nodes, Removes(d, name));
      }
      Iget(d);
      if name == DOT || name == DOTDOT {
        LetGo(d);
        return Refused;
      }
      var at := DirLookup(d, name);
      if at < 0 {
        LetGo(d);
        return Refused;
      }
      var i := nodes[d].entries[at].inum;
      Iget(i);
      if i !in nodes || nodes[i].nlink < 1 {
        DropNone(nodes);
        return Panicked;
      }
      if nodes[i].kind == Dir {
        var empty := IsDirEmpty(i);
        if !empty {
          LetGoBoth(i, d);
          return Refused;
        }
      }
      Remove(d, at);
      r := Done(i);
    }

    /** The end of unlink(): the entry, the links, the two references. The link of the inode is counted off only when
        its directory has been let go. */
    method Remove(d: nat, k: nat)
      requires Real(nodes, d, k) && nodes[d].entries[k].inum in nodes
      requires var i := nodes[d].entries[k].inum;
               nodes[d].ref >= (if i == d then 2 else 1) && nodes[i].ref >= 1
      modifies this
      ensures nodes == DropAll(Removed(old(nodes), d, k), [d, old(nodes)[d].entries[k].inum])
    {
      hide DropAll;
      var i := nodes[d].entries[k].inum;
      nodes := WithEntry(nodes, d, k, EMPTY);
      if nodes[i].kind == Dir {
        nodes := nodes[d := nodes[d].(nlink := nodes[d].nlink - 1)];
      }
      assert nodes[i := nodes[i].(nlink := nodes[i].nlink - 1)] == Removed(old(nodes), d, k);
      LetGoCounted(d, i);
    }

    /** create(): an existing file is returned exactly if a file is wanted and found, and anything else in the way is
        refused; otherwise a new inode with this one name. The directory may have lost its own name. */
    method Create(d: nat, name: string, kind: Kind, inum: nat) returns (r: Outcome)
      requires IsDirectory(nodes, d) && inum != 0 && inum !in nodes
      modifies this
      ensures var e := CreateEffect(old(nodes), d, name, kind, inum); r == e.outcome && nodes == DropAll(e.tree, e.lets)
      ensures old(Law(nodes)) ==> (r == Done(inum) <==> !old(Present(nodes, d, name)))
      ensures CreateEnds(old(nodes), nodes, d, name, kind, inum, r)
      ensures old(Law(nodes) && !Loses(nodes, Creates(d, name, kind, inum))) ==> Law(nodes)
    {
      hide Present, DropAll, Law, Loses, CreateEnds;
      CreateLeaves(nodes, d, name, kind, inum);
      if Law(nodes) {
        CreateReturns(nodes, d, name, kind, inum);
        CallLaw(nodes, Creates(d, name, kind, inum));
      }
      Iget(d);
      var at := DirLookup(d, name);
      if at >= 0 {
        var i := nodes[d].entries[at].inum;
        Iget(i);
        if i !in nodes {
          LetGo(d);
          return Panicked;
        }
        if kind == File && nodes[i].kind == File {
          LetGo(d);
          return Done(i);
        }
        LetGoBoth(d, i);
        return Refused;
      }
      nodes := nodes[inum := NewNode(kind, inum, d).(nlink := 1)];
      if kind == Dir {
        nodes := nodes[d := nodes[d].(nlink := nodes[d].nlink + 1)];
      }
      assert nodes == Bump(Hold(old(nodes), d)[inum := NewNode(kind, inum, d)], inum, d, 1);
      at := FindEmpty(d);
      nodes := WithEntry(nodes, d, at, Entry(inum, name));
      LetGo(d);
      r := Done(inum);
    }
  }

  lemma UndoLink(t: Tree, i: nat, d: nat)
    requires i in t && d in t && t[i].kind != Dir
    ensures var b := Bump(t, i, d, 1); i in b && b[i := b[i].(nlink := b[i].nlink - 1)] == t
  {
    var b := Bump(t, i, d, 1);
    assert b[i := b[i].(nlink := b[i].nlink - 1)][i] == t[i];
  }

  /** The link of an inode can be counted off before or after the directory it was in is let go. */
  lemma LaterCount(t: Tree, d: nat, i: nat)
    requires d in t && i in t && (i == d ==> t[d].ref >= 2)
    ensures i in Drop(t, d)
    ensures var u := Drop(t, d);
            Drop(t[i := t[i].(nlink := t[i].nlink - 1)], d) == u[i := u[i].(nlink := u[i].nlink - 1)]
  {
  }

  lemma EmptyIsBarren(t: Tree, i: nat)
    requires ShapeOk(t) && Distinct(t) && IsDirectory(t, i)
    ensures NoMore(t[i].entries) <==> Barren(t, i)
  {
    hide IsDot;
    Dots();
    assert t[i].entries[0].name == DOT && t[i].entries[1].name == DOTDOT;
    if b :| 2 <= b < |t[i].entries| && t[i].entries[b].inum != 0 {
      assert !IsDot(t[i].entries[b].name) by { OnlyDots(t[i].entries[b].name); }
      assert Real(t, i, b);
    } else {
      forall b: nat ensures !Real(t, i, b) {
        assert b == 0 || b == 1 ==> IsDot(t[i].entries[b].name);
      }
    }
  }

  lemma OnlyDots(name: string)
    ensures IsDot(name) <==> name == DOT || name == DOTDOT
  {
  }

  // ---- What the calls return ----

  /** An entry unlink() takes away: with this name, none of the dots, and no directory with something in it. */
  ghost predicate Removable(t: Tree, d: nat, k: nat, name: string) {
    && Real(t, d, k) && t[d].entries[k].name == name
    && (t[d].entries[k].inum in t && t[t[d].entries[k].inum].kind == Dir ==> Barren(t, t[d].entries[k].inum))
  }

  /** The name leads to a directory that is counted nowhere. */
  ghost predicate Miscounted(t: Tree, d: nat, k: nat, name: string) {
    NamesDir(t, d, k) && t[d].entries[k].name == name && t[t[d].entries[k].inum].nlink < 1
  }

  /** Under the law a name is in one place. */
  lemma OnePlace(t: Tree, d: nat, k: nat, name: string)
    requires Distinct(t) && Real(t, d, k) && t[d].entries[k].name == name
    ensures FindName(t[d].entries, name) == k
  {
    var n := FindName(t[d].entries, name);
    assert n < |t[d].entries|;
  }

  /** unlink() panics exactly for a directory that is counted nowhere, takes an entry away exactly if there is a
      removable one with the name, and refuses everything else. */
  lemma UnlinkReturns(t: Tree, d: nat, name: string)
    requires Law(t) && IsDirectory(t, d)
    ensures var r := UnlinkEffect(t, d, name).outcome;
            && (r.Panicked? <==> exists k: nat :: Miscounted(t, d, k, name))
            && (r.Done? <==> exists k: nat :: Removable(t, d, k, name) && !Miscounted(t, d, k, name))
  {
    hide ShapeOk, FilesOk, Barren, Names;
    var es := t[d].entries;
    var k := FindName(es, name);
    forall b: nat | Real(t, d, b) && es[b].name == name ensures b == k {
      OnePlace(t, d, b, name);
    }
    if !IsDot(name) && k < |es| {
      assert Real(t, d, k);
      var i := es[k].inum;
      assert i in t && i != d;
      if t[i].kind == Dir {
        EmptyIsBarren(t, i);
      } else {
        NamedIsCounted(t, d, k);
      }
      assert Miscounted(t, d, k, name) <==> t[i].nlink < 1;
      assert Removable(t, d, k, name) <==> (t[i].kind == Dir ==> NoMore(t[i].entries));
    }
  }

  lemma NamedIsCounted(t: Tree, d: nat, k: nat)
    requires FilesOk(t) && Real(t, d, k) && t[d].entries[k].inum in t && t[t[d].entries[k].inum].kind != Dir
    ensures t[t[d].entries[k].inum].nlink >= 1
  {
    var i := t[d].entries[k].inum;
    assert Named(t, d, k, i) && (d, k) in Names(t, i);
  }

  /** Where the counts of directories are right it never panics. */
  lemma UnlinkIsSafe(t: Tree, root: nat, d: nat, name: string)
    requires TreeOk(t, root) && IsDirectory(t, d)
    ensures !UnlinkEffect(t, d, name).outcome.Panicked?
  {
    hide ShapeOk, Distinct, Leads, FilesOk, Subs;
    UnlinkReturns(t, d, name);
    forall k: nat ensures !Miscounted(t, d, k, name) {
      if NamesDir(t, d, k) {
        var i := t[d].entries[k].inum;
        assert Named(t, d, k, i) && (d, k) in Names(t, i);
      }
    }
  }

  lemma LinkReturns(t: Tree, i: nat, d: nat, name: string)
    requires i in t && IsDirectory(t, d)
    ensures LinkEffect(t, i, d, name).outcome == if t[i].kind != Dir && !Present(t, d, name) then Done(i) else Refused
  {
  }

  /** create() makes the new inode exactly if the name is not there, and panics only on a ".." that leads nowhere. */
  lemma CreateReturns(t: Tree, d: nat, name: string, kind: Kind, inum: nat)
    requires Law(t) && IsDirectory(t, d) && inum !in t
    ensures var r := CreateEffect(t, d, name, kind, inum).outcome;
            && (r == Done(inum) <==> !Present(t, d, name))
            && (r.Panicked? ==> name == DOTDOT && t[d].entries[1].inum !in t)
            && (r.Done? && r.inum != inum ==>
                  && kind == File && r.inum in t && t[r.inum].kind == File
                  && (name == DOTDOT || exists k: nat :: Named(t, d, k, r.inum)))
  {
    hide FilesOk, Barren, Names;
    var es := t[d].entries;
    var k := FindName(es, name);
    if k < |es| {
      var i := es[k].inum;
      assert es[0] == Entry(d, DOT) && es[1].name == DOTDOT;
      if !IsDot(name) {
        assert Named(t, d, k, i);
      } else {
        assert k == if name == DOT then 0 else 1;
      }
    }
  }

  // ---- The law over calls ----

  /** What processes do: the calls, and references in memory coming and going. */
  datatype Call =
    | Creates(d: nat, name: string, kind: Kind, inum: nat)
    | Makes(i: nat, d: nat, name: string)
    | Removes(d: nat, name: string)
    | Holds(i: nat)
    | Drops(i: nat)

  /** A call that can be made: its directories and inodes exist, a new inode is new, and what is dropped was held. */
  predicate CanCall(t: Tree, c: Call) {
    match c
    case Creates(d, _, _, inum) => IsDirectory(t, d) && inum != 0 && inum !in t
    case Makes(i, d, _) => i in t && IsDirectory(t, d)
    case Removes(d, _) => IsDirectory(t, d)
    case Holds(i) => i in t
    case Drops(i) => i in t && t[i].ref >= 1
  }

  function EffectOf(t: Tree, c: Call): Effect
    requires CanCall(t, c)
  {
    match c
    case Creates(d, name, kind, inum) => CreateEffect(t, d, name, kind, inum)
    case Makes(i, d, name) => LinkEffect(t, i, d, name)
    case Removes(d, name) => UnlinkEffect(t, d, name)
    case Holds(i) => Effect(Hold(t, i), [], Done(i))
    case Drops(i) => Effect(t, [i], Done(i))
  }

  /** The tree after a call; a call that cannot be made is passed over. */
  function After(t: Tree, c: Call): Tree {
    if CanCall(t, c) then var e := EffectOf(t, c); DropAll(e.tree, e.lets) else t
  }

  /** All the drops are harmless, each where it comes. */
  ghost predicate AllHarmless(t: Tree, ids: seq<nat>) {
    ids == [] || (Harmless(t, ids[0]) && AllHarmless(Drop(t, ids[0]), ids[1..]))
  }

  /** The law holds before, between and after the drops. */
  ghost predicate Throughout(t: Tree, ids: seq<nat>) {
    Law(t) && (ids == [] || Throughout(Drop(t, ids[0]), ids[1..]))
  }

  lemma {:induction false} DropsLaw(t: Tree, ids: seq<nat>)
    requires Law(t)
    ensures Throughout(t, ids) <==> AllHarmless(t, ids)
    ensures AllHarmless(t, ids) ==> Law(DropAll(t, ids))
    decreases ids
  {
    hide Law, Harmless, Drop;
    if ids != [] {
      DropLaw(t, ids[0]);
      if Harmless(t, ids[0]) {
        DropsLaw(Drop(t, ids[0]), ids[1..]);
      } else {
        NotThroughout(Drop(t, ids[0]), ids[1..]);
      }
    }
  }

  lemma NotThroughout(t: Tree, ids: seq<nat>)
    requires !Law(t)
    ensures !Throughout(t, ids)
  {
  }

  /** Before it drops anything, a call has kept the law. */
  lemma EffectLaw(t: Tree, c: Call)
    requires Law(t) && CanCall(t, c)
    ensures Law(EffectOf(t, c).tree)
  {
    hide Law;
    match c {
      case Creates(d, name, kind, inum) => CreateLaw(t, 0, d, name, kind, inum);
      case Makes(i, d, name) => LinkLaw(t, 0, i, d, name);
      case Removes(d, name) => UnlinkLaw(t, 0, d, name);
      case Holds(i) => HoldKeeps(t, 0, i);
      case Drops(_) =>
    }
  }

  lemma HoldBoth(t: Tree, root: nat, a: nat, b: nat)
    ensures Law(Hold(Hold(t, a), b)) <==> Law(t)
    ensures DirsOk(Hold(Hold(t, a), b), root) <==> DirsOk(t, root)
  {
    hide Law, DirsOk;
    HoldKeeps(t, root, a);
    HoldKeeps(Hold(t, a), root, b);
  }

  lemma UnlinkLaw(t: Tree, root: nat, d: nat, name: string)
    requires Law(t) && IsDirectory(t, d)
    ensures Law(UnlinkEffect(t, d, name).tree)
    ensures DirsOk(t, root) ==> DirsOk(UnlinkEffect(t, d, name).tree, root)
  {
    hide Law, DirsOk;
    var k := FindName(t[d].entries, name);
    HoldKeeps(t, root, d);
    if !IsDot(name) && k < |t[d].entries| {
      var i := t[d].entries[k].inum;
      HoldBoth(t, root, d, i);
      var h := Hold(Hold(t, d), i);
      assert Real(h, d, k);
      RemoveLaw(h, d, k);
      if DirsOk(h, root) {
        RemoveDirs(h, root, d, k);
      }
    }
  }

  lemma LinkLaw(t: Tree, root: nat, i: nat, d: nat, name: string)
    requires Law(t) && i in t && IsDirectory(t, d)
    ensures Law(LinkEffect(t, i, d, name).tree)
    ensures DirsOk(t, root) ==> DirsOk(LinkEffect(t, i, d, name).tree, root)
  {
    hide Law, DirsOk, Present;
    HoldKeeps(t, root, i);
    HoldBoth(t, root, i, d);
    var h, es := Hold(Hold(t, i), d), t[d].entries;
    if t[i].kind != Dir && FindName(es, name) == |es| {
      EnterFound(t, h, i, d, name);
      EnterLaw(h, i, d, FindSpare(es), name);
      if DirsOk(h, root) {
        assert i != root by { RootIsDir(h, root); }
        EnterDirs(h, root, i, d, FindSpare(es), name);
      }
    }
  }

  lemma RootIsDir(t: Tree, root: nat)
    requires DirsOk(t, root)
    ensures root in t && t[root].kind == Dir
  {
  }

  /** A name that was not found can be entered: it is no dot, because those always are. */
  lemma EnterFound(t: Tree, h: Tree, i: nat, d: nat, name: string)
    requires Law(t) && IsDirectory(t, d) && IsDirectory(h, d) && h[d].entries == t[d].entries && i in h && i != d
    requires i in t || i != 0
    requires FindName(t[d].entries, name) == |t[d].entries|
    ensures CanEnter(h, i, d, FindSpare(t[d].entries), name)
  {
    var es := t[d].entries;
    assert es[0].inum != 0 && es[0].name == DOT;
    assert es[1].inum != 0 && es[1].name == DOTDOT;
  }

  lemma CreateLaw(t: Tree, root: nat, d: nat, name: string, kind: Kind, inum: nat)
    requires Law(t) && IsDirectory(t, d) && inum != 0 && inum !in t
    ensures Law(CreateEffect(t, d, name, kind, inum).tree)
    ensures DirsOk(t, root) ==> DirsOk(CreateEffect(t, d, name, kind, inum).tree, root)
  {
    hide Law, DirsOk, Present;
    HoldKeeps(t, root, d);
    var h, es, node := Hold(t, d), t[d].entries, NewNode(kind, inum, d);
    var k := FindName(es, name);
    if k < |es| {
      HoldBoth(t, root, d, es[k].inum);
    } else {
      var made := h[inum := node];
      MakeLaw(h, inum, d, node);
      EnterFound(t, made, inum, d, name);
      EnterLaw(made, inum, d, FindSpare(es), name);
      if DirsOk(h, root) {
        assert TreeOk(h, root) && inum != root by { RootIsDir(h, root); }
        MakeDirs(h, root, inum, d, node);
        EnterDirs(made, root, inum, d, FindSpare(es), name);
      }
    }
  }

  /** One of its drops gives back an inode that is still named, or that names a file. */
  ghost predicate Loses(t: Tree, c: Call) {
    CanCall(t, c) && !AllHarmless(EffectOf(t, c).tree, EffectOf(t, c).lets)
  }

  /** The law holds at every point of a call. */
  ghost predicate Keeps(t: Tree, c: Call) {
    CanCall(t, c) ==> Throughout(EffectOf(t, c).tree, EffectOf(t, c).lets)
  }

  /** A call keeps the law if and only if none of its drops does harm. */
  lemma CallLaw(t: Tree, c: Call)
    requires Law(t)
    ensures Keeps(t, c) <==> !Loses(t, c)
    ensures !Loses(t, c) ==> Law(After(t, c))
  {
    hide Law, AllHarmless, Throughout;
    if CanCall(t, c) {
      EffectLaw(t, c);
      DropsLaw(EffectOf(t, c).tree, EffectOf(t, c).lets);
    }
  }

  // ---- Runs ----

  /** Any calls of any processes, one after the other. */
  ghost predicate IsRun(states: seq<Tree>, calls: seq<Call>) {
    |states| == |calls| + 1 && forall k {:trigger calls[k]} :: 0 <= k < |calls| ==>
      states[k + 1] == After(states[k], calls[k])
  }

  /** From any tree that obeys the law, whatever its directories count, the first n calls keep it throughout if and
      only if none of them loses a name. */
  lemma {:induction false} RunLaw(states: seq<Tree>, calls: seq<Call>, n: nat)
    requires IsRun(states, calls) && n <= |calls| && Law(states[0])
    ensures (forall k :: 0 <= k < n ==> Keeps(states[k], calls[k])) <==>
              (forall k :: 0 <= k < n ==> !Loses(states[k], calls[k]))
    ensures (forall k :: 0 <= k < n ==> !Loses(states[k], calls[k])) ==> Law(states[n])
  {
    hide Law, Keeps, Loses;
    if n > 0 {
      var m := n - 1;
      RunLaw(states, calls, m);
      if Law(states[m]) {
        CallLaw(states[m], calls[m]);
      }
    }
  }
}
