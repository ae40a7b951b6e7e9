/** How much of the log a write takes, sector by sector: exactly the bitmap sectors of the blocks it takes, the blocks
    it writes, those it takes, and the indirect blocks it puts their numbers in. */
module LogFit {
  import opened Blocks
  import opened FileBlocks
  import opened FileChanges
  import opened FileSystem
  import opened FsLayout
  import opened Ownership
  import opened RedoLog
  import opened Ring

  /** The most bytes filewrite gives to one transaction: ((LOGSIZE-1-1-2) / 2) * 512. */
  const CHUNK: nat := 1536

  // Four consecutive blocks of a file are reached through at most three indirect blocks.

  function Indirects(lo: nat): (r: set<Slot>)
    ensures |r| <= 3
  {
    if lo + 4 <= NDIRECT + NINDIRECT then {Ind}
    else if lo < NDIRECT + NINDIRECT then {Ind, Dind, DindEntry(0)}
    else
      var i := (lo - NDIRECT - NINDIRECT) / NINDIRECT;
      {Dind, DindEntry(i), DindEntry(i + 1)}
  }

  function Leaves(lo: nat, hi: nat): (r: set<Slot>)
    requires lo <= hi <= MAXFILE
    ensures |r| <= hi - lo && forall bn: nat :: lo <= bn < hi ==> BlockSlot(bn) in r
    decreases hi - lo
  {
    if lo == hi then {} else Leaves(lo + 1, hi) + {BlockSlot(lo)}
  }

  lemma PathsAreFew(lo: nat, hi: nat, bn: nat)
    requires lo <= bn < hi <= lo + 4 && hi <= MAXFILE
    ensures Path(bn) <= Leaves(lo, hi) + Indirects(lo)
  {
  }

  lemma ChunkBlocks(off: nat, n: nat)
    requires n <= CHUNK
    ensures off / BSIZE <= EndBlock(off, n) <= off / BSIZE + 4
  {
  }

  /** The block numbers in a set of slots. */
  ghost function AddrsOf(view: View, addrs: Addrs, slots: set<Slot>): set<nat> {
    set s | s in slots && s.Ok() :: Addr(view, addrs, s) as nat
  }

  /** Filled slots of one inode hold different blocks. */
  lemma {:induction false} Different(view: View, sb: Super, files: map<nat, Addrs>, owner: map<nat, Owner>, inum: nat,
                                     slots: set<Slot>)
    requires DiskOk(view, sb, files, owner) && inum in files
    requires forall t :: t in slots ==> t.Ok() && Addr(view, files[inum], t) != 0
    ensures |AddrsOf(view, files[inum], slots)| == |slots|
    decreases slots
  {
    hide Addr, BitsOk;
    if slots != {} {
      var s :| s in slots;
      var addrs, less := files[inum], slots - {s};
      Different(view, sb, files, owner, inum, less);
      var x: nat := Addr(view, addrs, s);
      assert x !in AddrsOf(view, addrs, less) by {
        assert owner[x] == Owner(inum, s);
        assert forall t :: t in less ==> owner[Addr(view, addrs, t)] == Owner(inum, t);
      }
      assert AddrsOf(view, addrs, slots) == AddrsOf(view, addrs, less) + {x};
    }
  }

  lemma DiskParts(view: View, sb: Super, files: map<nat, Addrs>, owner: map<nat, Owner>)
    requires DiskOk(view, sb, files, owner)
    ensures Owns(view, files, owner) && BitsOk(view, sb, owner)
  {
  }

  // Which blocks are logged

  /** A slot on the way to the blocks written whose block is logged, as far as it was before the write: the slot of a
      block that is written, a slot that was empty, or one above such a slot. */
  ghost predicate Touched(view: View, addrs: Addrs, lo: nat, hi: nat, t: Slot)
    requires hi <= MAXFILE
  {
    && t in Paths(lo, hi) && t.Ok()
    && (t.Leaf() || Addr(view, addrs, t) == 0
        || exists c :: c in Paths(lo, hi) && c.Ok() && !InInode(c) && Up(c) == t && Addr(view, addrs, c) == 0)
  }

  ghost function TouchedSlots(view: View, addrs: Addrs, lo: nat, hi: nat): set<Slot>
    requires hi <= MAXFILE
  {
    set t | t in Paths(lo, hi) && Touched(view, addrs, lo, hi, t)
  }

  /** A write from s0 to s1 of the blocks from lo to hi, all of which are there at the end. */
  ghost predicate WroteAll(sb: Super, s0: State, s1: State, inum: nat, off: nat, src: seq<Byte>, lo: nat, hi: nat) {
    && hi <= MAXFILE && inum in s0.files && inum in s1.files
    && Wrote(sb, s0, s1, inum, off, src, lo, hi) && s0.logged == []
    && DiskOk(s0.view, sb, s0.files, s0.owner) && DiskOk(s1.view, sb, s1.files, s1.owner)
    && forall bn: nat :: lo <= bn < hi ==> Addr(s1.view, s1.files[inum], BlockSlot(bn)) != 0
  }

  lemma PathThere(view: View, addrs: Addrs, lo: nat, hi: nat, t: Slot)
    requires hi <= MAXFILE && t in Paths(lo, hi)
    requires forall bn: nat :: lo <= bn < hi ==> Addr(view, addrs, BlockSlot(bn)) != 0
    ensures t.Ok() && Addr(view, addrs, t) != 0
  {
    hide Addr, Path, BlockSlot;
    var bn: nat :| lo <= bn < hi && t in Path(bn);
    PathPresent(view, addrs, bn, t);
  }

  lemma LeafOnPath(lo: nat, hi: nat, t: Slot)
    requires hi <= MAXFILE && t in Paths(lo, hi) && t.Leaf()
    ensures exists bn: nat :: lo <= bn < hi && BlockSlot(bn) == t
  {
    var bn: nat :| lo <= bn < hi && t in Path(bn);
    assert BlockSlot(bn) == t;
  }

  /** A slot of the inode that was empty and is not has a new block in it, and what a new block is in was empty. */
  lemma FilledIsNew(sb: Super, s0: State, s1: State, inum: nat, lo: nat, hi: nat, t: Slot)
    requires DiskOk(s0.view, sb, s0.files, s0.owner) && DiskOk(s1.view, sb, s1.files, s1.owner) && t.Ok()
    requires hi <= MAXFILE
    requires inum in s0.files && inum in s1.files && Grown(s0.owner, s1.owner, inum, Paths(lo, hi))
    requires Addr(s0.view, s0.files[inum], t) == 0 && Addr(s1.view, s1.files[inum], t) != 0
    ensures var a := Addr(s1.view, s1.files[inum], t); a in s1.owner && a !in s0.owner && s1.owner[a].slot == t
  {
    hide Addr, BitsOk, Paths;
  }

  lemma NewWasEmpty(sb: Super, s0: State, s1: State, inum: nat, lo: nat, hi: nat, a: nat)
    requires DiskOk(s0.view, sb, s0.files, s0.owner) && DiskOk(s1.view, sb, s1.files, s1.owner) && hi <= MAXFILE
    requires inum in s0.files && inum in s1.files && Grown(s0.owner, s1.owner, inum, Paths(lo, hi))
    requires Slotted(s0.view, s0.files, s1.view, s1.files, inum, Paths(lo, hi)) && a in s1.owner && a !in s0.owner
    ensures var t := s1.owner[a].slot;
            t in Paths(lo, hi) && t.Ok() && Addr(s1.view, s1.files[inum], t) == a &&
            Addr(s0.view, s0.files[inum], t) == 0
  {
    hide Addr, BitsOk, Paths;
    var t := s1.owner[a].slot;
    assert Addr(s1.view, s1.files[inum], t) == a;
  }

  lemma TouchedIsLogged(sb: Super, s0: State, s1: State, inum: nat, off: nat, src: seq<Byte>, lo: nat, hi: nat, t: Slot)
    requires WroteAll(sb, s0, s1, inum, off, src, lo, hi) && Touched(s0.view, s0.files[inum], lo, hi, t)
    ensures Addr(s1.view, s1.files[inum], t) in s1.logged
  {
    hide Addr, BlockSlot, Written, Slotted, DiskOk, Path, Paths, Grown;
    var addrs := s1.files[inum];
    var x := Addr(s1.view, addrs, t);
    if t.Leaf() {
      LeafOnPath(lo, hi, t);
      assert OnLeaf(s1.view, addrs, lo, hi, x);
    } else {
      var c :| c in Paths(lo, hi) && c.Ok() && Addr(s0.view, s0.files[inum], c) == 0 &&
               (c == t || (!InInode(c) && Up(c) == t));
      PathThere(s1.view, addrs, lo, hi, c);
      FilledIsNew(sb, s0, s1, inum, lo, hi, c);
      assert Marks(sb, s1.view, addrs, s1.owner, Addr(s1.view, addrs, c), x);
    }
  }

  lemma LoggedIsTouched(sb: Super, s0: State, s1: State, inum: nat, off: nat, src: seq<Byte>, lo: nat, hi: nat, x: nat)
    requires WroteAll(sb, s0, s1, inum, off, src, lo, hi) && x in s1.logged
    ensures x in NewMaps(sb, s0.owner, s1.owner) ||
            exists t: Slot :: t.Ok() && Touched(s0.view, s0.files[inum], lo, hi, t) &&
                              Addr(s1.view, s1.files[inum], t) == x
  {
    hide Addr, BlockSlot, Written, Slotted, DiskOk, Path, Grown;
    var addrs := s1.files[inum];
    if OnLeaf(s1.view, addrs, lo, hi, x) {
      var bn: nat :| lo <= bn < hi && Addr(s1.view, addrs, BlockSlot(bn)) == x;
      assert BlockSlot(bn) in Path(bn);
      assert Touched(s0.view, s0.files[inum], lo, hi, BlockSlot(bn));
    } else {
      var a :| a in s1.owner && a !in s0.owner && Marks(sb, s1.view, addrs, s1.owner, a, x);
      var c := s1.owner[a].slot;
      NewWasEmpty(sb, s0, s1, inum, lo, hi, a);
      assert Touched(s0.view, s0.files[inum], lo, hi, c);
      if x != a && x != sb.BitmapBlock(a) {
        UpOnPath(lo, hi, c);
        assert Touched(s0.view, s0.files[inum], lo, hi, Up(c));
      }
    }
  }

  lemma UpOnPath(lo: nat, hi: nat, c: Slot)
    requires hi <= MAXFILE && c in Paths(lo, hi) && c.Ok() && !InInode(c)
    ensures Up(c) in Paths(lo, hi) && Up(c).Ok()
  {
    hide Path;
    var bn: nat :| lo <= bn < hi && c in Path(bn);
    PathUp(bn, c);
  }

  lemma MapIsLogged(sb: Super, s0: State, s1: State, inum: nat, off: nat, src: seq<Byte>, lo: nat, hi: nat, x: nat)
    requires hi <= MAXFILE && Wrote(sb, s0, s1, inum, off, src, lo, hi) && x in NewMaps(sb, s0.owner, s1.owner)
    ensures x in s1.logged
  {
    hide Written, Slotted, Grown, Paths;
    var a :| a in s1.owner && a !in s0.owner && x == sb.BitmapBlock(a);
    assert Marks(sb, s1.view, s1.files[inum], s1.owner, a, x);
  }

  /** The sectors logged, exactly. */
  lemma LoggedAre(sb: Super, s0: State, s1: State, inum: nat, off: nat, src: seq<Byte>, lo: nat, hi: nat)
    requires WroteAll(sb, s0, s1, inum, off, src, lo, hi)
    ensures Elements(s1.logged) ==
              NewMaps(sb, s0.owner, s1.owner) +
              AddrsOf(s1.view, s1.files[inum], TouchedSlots(s0.view, s0.files[inum], lo, hi))
  {
    hide Addr, Wrote, DiskOk, NewMaps, Touched, Elements;
    var maps, slots := NewMaps(sb, s0.owner, s1.owner), TouchedSlots(s0.view, s0.files[inum], lo, hi);
    var blocks := AddrsOf(s1.view, s1.files[inum], slots);
    forall x: nat ensures x in s1.logged <==> x in maps || x in blocks {
      if x in s1.logged {
        LoggedIsTouched(sb, s0, s1, inum, off, src, lo, hi, x);
        if x !in maps {
          var t: Slot :| t.Ok() && Touched(s0.view, s0.files[inum], lo, hi, t) && Addr(s1.view, s1.files[inum], t) == x;
          InTouched(s0.view, s0.files[inum], lo, hi, t);
        }
      }
      if x in maps {
        MapIsLogged(sb, s0, s1, inum, off, src, lo, hi, x);
      }
      if x in blocks {
        var t :| t in slots && t.Ok() && Addr(s1.view, s1.files[inum], t) == x;
        TouchedIsLogged(sb, s0, s1, inum, off, src, lo, hi, t);
      }
    }
  }

  lemma InTouched(view: View, addrs: Addrs, lo: nat, hi: nat, t: Slot)
    requires hi <= MAXFILE && Touched(view, addrs, lo, hi, t)
    ensures t in TouchedSlots(view, addrs, lo, hi) && t.Ok()
  {
  }

  /** They are as many as the bitmap sectors and the touched slots together. */
  lemma LoggedCount(sb: Super, s0: State, s1: State, inum: nat, off: nat, src: seq<Byte>, lo: nat, hi: nat)
    requires WroteAll(sb, s0, s1, inum, off, src, lo, hi) && Distinct(s1.logged)
    ensures |s1.logged| == |NewMaps(sb, s0.owner, s1.owner)| + |TouchedSlots(s0.view, s0.files[inum], lo, hi)|
  {
    hide Addr, Wrote, DiskOk, NewMaps, Elements, Paths;
    var maps, slots := NewMaps(sb, s0.owner, s1.owner), TouchedSlots(s0.view, s0.files[inum], lo, hi);
    var addrs := s1.files[inum];
    forall t | t in slots ensures t.Ok() && Addr(s1.view, addrs, t) != 0 {
      PathThere(s1.view, addrs, lo, hi, t);
    }
    LoggedAre(sb, s0, s1, inum, off, src, lo, hi);
    SizeOfDistinct(s1.logged);
    Different(s1.view, sb, s1.files, s1.owner, inum, slots);
    MapsApart(sb, s0, s1, inum, slots);
  }

  /** No block of a file is a bitmap sector. */
  lemma MapsApart(sb: Super, s0: State, s1: State, inum: nat, slots: set<Slot>)
    requires DiskOk(s1.view, sb, s1.files, s1.owner) && inum in s1.files
    requires forall t :: t in slots ==> t.Ok() && Addr(s1.view, s1.files[inum], t) != 0
    ensures NewMaps(sb, s0.owner, s1.owner) !! AddrsOf(s1.view, s1.files[inum], slots)
  {
    hide Addr, DiskOk;
    forall x | x in AddrsOf(s1.view, s1.files[inum], slots) ensures x !in NewMaps(sb, s0.owner, s1.owner) {
      var t :| t in slots && t.Ok() && Addr(s1.view, s1.files[inum], t) == x;
      SlotHolds(s1.view, sb, s1.files, s1.owner, inum, t);
      DiskParts(s1.view, sb, s1.files, s1.owner);
      forall a | a in s1.owner ensures sb.BitmapBlock(a) < sb.DataStart() {
        sb.BitmapBlockFacts(a);
      }
    }
  }

  /** A write of at most CHUNK bytes logs at most seven sectors besides those of the bitmap. */
  lemma ChunkLogs(sb: Super, s0: State, s1: State, inum: nat, off: nat, src: seq<Byte>)
    requires |src| <= CHUNK && WroteAll(sb, s0, s1, inum, off, src, off / BSIZE, EndBlock(off, |src|))
    requires Distinct(s1.logged)
    ensures |s1.logged| <= |NewMaps(sb, s0.owner, s1.owner)| + 7
  {
    hide Addr, BlockSlot, Path, Indirects, Leaves, Wrote, DiskOk, NewMaps;
    var lo, hi := off / BSIZE, EndBlock(off, |src|);
    ChunkBlocks(off, |src|);
    LoggedCount(sb, s0, s1, inum, off, src, lo, hi);
    var slots, most := TouchedSlots(s0.view, s0.files[inum], lo, hi), Leaves(lo, hi) + Indirects(lo);
    forall t | t in slots ensures t in most {
      var bn: nat :| lo <= bn < hi && t in Path(bn);
      PathsAreFew(lo, hi, bn);
    }
    SubsetSize(slots, most);
    assert |most| <= |Leaves(lo, hi)| + |Indirects(lo)|;
  }

  // The bound is met

  /** The slots on the way to the last two blocks under the indirect block and the first two under the
      double-indirect one. */
  function Boundary(): set<Slot> {
    {Ind, IndEntry(NINDIRECT - 2), IndEntry(NINDIRECT - 1), Dind, DindEntry(0), DindLeaf(0, 0), DindLeaf(0, 1)}
  }

  const BOUNDARY: nat := NDIRECT + NINDIRECT - 2

  lemma BoundaryPath(bn: nat)
    requires BOUNDARY <= bn < BOUNDARY + 4
    ensures Path(bn) == if bn == BOUNDARY then {Ind, IndEntry(NINDIRECT - 2)}
                        else if bn == BOUNDARY + 1 then {Ind, IndEntry(NINDIRECT - 1)}
                        else if bn == BOUNDARY + 2 then {Dind, DindEntry(0), DindLeaf(0, 0)}
                        else {Dind, DindEntry(0), DindLeaf(0, 1)}
    ensures BlockSlot(bn) == if bn == BOUNDARY then IndEntry(NINDIRECT - 2)
                             else if bn == BOUNDARY + 1 then IndEntry(NINDIRECT - 1)
                             else if bn == BOUNDARY + 2 then DindLeaf(0, 0) else DindLeaf(0, 1)
  {
  }

  lemma BoundarySize()
    ensures |Boundary()| == 7
  {
    var six := {IndEntry(NINDIRECT - 2), IndEntry(NINDIRECT - 1), Dind, DindEntry(0), DindLeaf(0, 0), DindLeaf(0, 1)};
    assert |six| == 6;
    assert Boundary() == {Ind} + six;
  }

  lemma BoundaryPaths()
    ensures Paths(BOUNDARY, BOUNDARY + 4) == Boundary()
  {
    hide Path, BlockSlot;
    forall t ensures t in Paths(BOUNDARY, BOUNDARY + 4) <==> t in Boundary() {
      BoundaryPath(BOUNDARY);
      BoundaryPath(BOUNDARY + 1);
      BoundaryPath(BOUNDARY + 2);
      BoundaryPath(BOUNDARY + 3);
      assert t in Boundary() ==>
        t in Path(BOUNDARY) || t in Path(BOUNDARY + 1) || t in Path(BOUNDARY + 2) || t in Path(BOUNDARY + 3);
    }
  }

  /** The way to the blocks before the last under the indirect block. */
  lemma LowPath(bn: nat, t: Slot)
    requires bn <= BOUNDARY && t in Path(bn)
    ensures t.Direct? || t == Ind || (t.IndEntry? && t.i < NINDIRECT - 1)
  {
  }

  lemma NotYet(view: View, addrs: Addrs, size: nat, t: Slot)
    requires BOUNDARY * BSIZE < size < (BOUNDARY + 1) * BSIZE && Tight(view, addrs, size) && t.Ok()
    requires t == IndEntry(NINDIRECT - 1) || t.Dind? || t.DindEntry? || t.DindLeaf?
    ensures Addr(view, addrs, t) == 0
  {
    hide Addr, Path;
    if Needed(t, size) {
      var bn: nat :| bn * BSIZE < size && t in Path(bn);
      LowPath(bn, t);
    }
  }

  lemma BoundarySlot(view: View, addrs: Addrs, size: nat, t: Slot)
    requires BOUNDARY * BSIZE < size < (BOUNDARY + 1) * BSIZE && Tight(view, addrs, size) && t in Boundary()
    ensures Touched(view, addrs, BOUNDARY, BOUNDARY + 4, t)
  {
    hide Addr, Tight, Paths, Path;
    BoundaryPaths();
    if t == Ind {
      var last := IndEntry(NINDIRECT - 1);
      NotYet(view, addrs, size, last);
      assert last in Paths(BOUNDARY, BOUNDARY + 4) && Up(last) == Ind;
    } else if !t.Leaf() {
      NotYet(view, addrs, size, t);
    }
  }

  /** In a file that ends inside the last block but one under the indirect block, and has no block past its end, a chunk
      at the end touches all the seven slots on the way. */
  lemma BoundaryTouched(view: View, addrs: Addrs, size: nat)
    requires BOUNDARY * BSIZE < size < (BOUNDARY + 1) * BSIZE && Tight(view, addrs, size)
    ensures TouchedSlots(view, addrs, BOUNDARY, BOUNDARY + 4) == Boundary()
  {
    hide Addr, Tight, Paths, Touched, Boundary;
    BoundaryPaths();
    forall t | t in Boundary() ensures Touched(view, addrs, BOUNDARY, BOUNDARY + 4, t) {
      BoundarySlot(view, addrs, size, t);
    }
  }

  /** So it logs seven sectors and those of the bitmap, of which there is one at least. */
  lemma BoundIsMet(sb: Super, s0: State, s1: State, inum: nat, size: nat, src: seq<Byte>)
    requires BOUNDARY * BSIZE < size < (BOUNDARY + 1) * BSIZE && |src| == CHUNK && Distinct(s1.logged)
    requires WroteAll(sb, s0, s1, inum, size, src, BOUNDARY, BOUNDARY + 4) && Tight(s0.view, s0.files[inum], size)
    ensures |s1.logged| == 7 + |NewMaps(sb, s0.owner, s1.owner)| && NewMaps(sb, s0.owner, s1.owner) != {}
  {
    hide Addr, Wrote, DiskOk, Tight, NewMaps, Boundary, TouchedSlots;
    LoggedCount(sb, s0, s1, inum, size, src, BOUNDARY, BOUNDARY + 4);
    BoundaryTouched(s0.view, s0.files[inum], size);
    BoundarySize();
    SomeMap(sb, s0, s1, inum, size, src);
  }

  lemma SomeMap(sb: Super, s0: State, s1: State, inum: nat, size: nat, src: seq<Byte>)
    requires BOUNDARY * BSIZE < size < (BOUNDARY + 1) * BSIZE
    requires WroteAll(sb, s0, s1, inum, size, src, BOUNDARY, BOUNDARY + 4) && Tight(s0.view, s0.files[inum], size)
    ensures NewMaps(sb, s0.owner, s1.owner) != {}
  {
    hide Addr, DiskOk, Written, Slotted, LoggedFor, Tight, Paths, Path;
    BoundaryPaths();
    NotYet(s0.view, s0.files[inum], size, Dind);
    PathThere(s1.view, s1.files[inum], BOUNDARY, BOUNDARY + 4, Dind);
    FilledIsNew(sb, s0, s1, inum, BOUNDARY, BOUNDARY + 4, Dind);
    var a := Addr(s1.view, s1.files[inum], Dind);
    assert sb.BitmapBlock(a) in NewMaps(sb, s0.owner, s1.owner);
  }
}
