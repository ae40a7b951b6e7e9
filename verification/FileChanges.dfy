/** How the disk changes when a file grows or is written, as relations between the states before and after: what
    files read, which slots are filled, who owns which block, and which sectors went through log_write. */
module FileChanges {
  import opened Blocks
  import opened FsLayout
  import opened Ownership
  import opened FileBlocks
  import opened RedoLog
  import opened Ring

  // The transaction

  /** The header list after log_write of sector s. */
  function Log(logged: seq<nat>, s: nat): (r: seq<nat>)
    ensures forall x :: x in r <==> x in logged || x == s
  {
    if s in logged then logged else logged + [s]
  }

  /** The transaction since `base`: its header list, and what bread shows after it. */
  ghost predicate Journal(base: View, writes: seq<Write>, view: View, logged: seq<nat>) {
    logged == Logged(writes) && view == ApplyWrites(base, writes)
  }

  lemma JournalStep(base: View, writes: seq<Write>, view: View, logged: seq<nat>, s: nat, b: Block)
    requires Journal(base, writes, view, logged) && s < |view|
    ensures Journal(base, writes + [(s, b)], view[s := b], Log(logged, s))
  {
    assert (writes + [(s, b)])[..|writes|] == writes;
  }

  // What files read

  /** Every file reads as before. */
  ghost predicate SameBytes(view: View, files: map<nat, Addrs>, view': View, files': map<nat, Addrs>) {
    && files.Keys == files'.Keys
    && forall inum: nat, p: nat {:trigger FileByte(view', files'[inum], p)} :: inum in files && p < MAXFILE * BSIZE ==>
         FileByte(view', files'[inum], p) == FileByte(view, files[inum], p)
  }

  /** File inum reads as before except that from off on it has the bytes s; every other file as before. */
  ghost predicate Written(view: View, files: map<nat, Addrs>, view': View, files': map<nat, Addrs>,
                          inum: nat, off: nat, s: seq<Byte>) {
    && files.Keys == files'.Keys
    && forall i: nat, p: nat {:trigger FileByte(view', files'[i], p)} :: i in files && p < MAXFILE * BSIZE ==>
         FileByte(view', files'[i], p) ==
           if i == inum && off <= p < off + |s| then s[p - off] else FileByte(view, files[i], p)
  }

  lemma SameTrans(view: View, files: map<nat, Addrs>, view1: View, files1: map<nat, Addrs>, view2: View,
                  files2: map<nat, Addrs>)
    requires SameBytes(view, files, view1, files1) && SameBytes(view1, files1, view2, files2)
    ensures SameBytes(view, files, view2, files2)
  {
    hide FileByte;
    forall inum: nat, p: nat | inum in files && p < MAXFILE * BSIZE
      ensures FileByte(view2, files2[inum], p) == FileByte(view, files[inum], p)
    {
      assert FileByte(view1, files1[inum], p) == FileByte(view, files[inum], p);
    }
  }

  lemma WrittenTrans(view: View, files: map<nat, Addrs>, view1: View, files1: map<nat, Addrs>,
                     view2: View, files2: map<nat, Addrs>, inum: nat, off: nat, s: seq<Byte>, t: seq<Byte>)
    requires Written(view, files, view1, files1, inum, off, s)
    requires Written(view1, files1, view2, files2, inum, off + |s|, t)
    ensures Written(view, files, view2, files2, inum, off, s + t)
  {
    hide FileByte;
    forall i: nat, p: nat | i in files && p < MAXFILE * BSIZE
      ensures FileByte(view2, files2[i], p) ==
                if i == inum && off <= p < off + |s + t| then (s + t)[p - off] else FileByte(view, files[i], p)
    {
      assert i in files1;
      var was := FileByte(view1, files1[i], p);
    }
  }

  lemma SameWritten(view: View, files: map<nat, Addrs>, view1: View, files1: map<nat, Addrs>,
                    view2: View, files2: map<nat, Addrs>, inum: nat, off: nat, s: seq<Byte>)
    requires SameBytes(view, files, view1, files1) && Written(view1, files1, view2, files2, inum, off, s)
    ensures Written(view, files, view2, files2, inum, off, s)
  {
    hide FileByte;
    forall i: nat, p: nat | i in files && p < MAXFILE * BSIZE
      ensures FileByte(view2, files2[i], p) ==
                if i == inum && off <= p < off + |s| then s[p - off] else FileByte(view, files[i], p)
    {
      assert FileByte(view1, files1[i], p) == FileByte(view, files[i], p);
    }
  }

  lemma WrittenSame(view: View, files: map<nat, Addrs>, view1: View, files1: map<nat, Addrs>,
                    view2: View, files2: map<nat, Addrs>, inum: nat, off: nat, s: seq<Byte>)
    requires Written(view, files, view1, files1, inum, off, s) && SameBytes(view1, files1, view2, files2)
    ensures Written(view, files, view2, files2, inum, off, s)
  {
    hide FileByte;
    forall i: nat, p: nat | i in files && p < MAXFILE * BSIZE
      ensures FileByte(view2, files2[i], p) ==
                if i == inum && off <= p < off + |s| then s[p - off] else FileByte(view, files[i], p)
    {
      assert FileByte(view2, files2[i], p) == FileByte(view1, files1[i], p);
    }
  }

  /** What a file reads once the block at off has been overwritten in part. */
  lemma ChunkByte(view: View, addrs: Addrs, view': View, off: nat, s: seq<Byte>, a: nat, b: Block, q: nat)
    requires 0 < |s| <= BSIZE - off % BSIZE && off + |s| <= MAXFILE * BSIZE && 0 < a < |view|
    requires b == view[a][..off % BSIZE] + s + view[a][off % BSIZE + |s|..]
    requires Addr(view, addrs, BlockSlot(off / BSIZE)) == a && q < MAXFILE * BSIZE
    requires FileByte(view', addrs, q) ==
               if BlockSlot(off / BSIZE) == BlockSlot(q / BSIZE) then b[q % BSIZE] else FileByte(view, addrs, q)
    ensures FileByte(view', addrs, q) == if off <= q < off + |s| then s[q - off] else FileByte(view, addrs, q)
  {
    hide BlockSlot, Addr;
    if BlockSlot(q / BSIZE) == BlockSlot(off / BSIZE) {
      BlockSlotInjective(q / BSIZE, off / BSIZE);
    }
  }

  lemma ChunkWritten(view: View, files: map<nat, Addrs>, view': View, inum: nat, off: nat, s: seq<Byte>, a: nat,
                     b: Block)
    requires inum in files
    requires 0 < |s| <= BSIZE - off % BSIZE && off + |s| <= MAXFILE * BSIZE && 0 < a < |view|
    requires b == view[a][..off % BSIZE] + s + view[a][off % BSIZE + |s|..]
    requires Addr(view, files[inum], BlockSlot(off / BSIZE)) == a
    requires forall i: nat, q: nat :: i in files && q < MAXFILE * BSIZE ==>
               FileByte(view', files[i], q) ==
                 if Owner(inum, BlockSlot(off / BSIZE)) == Owner(i, BlockSlot(q / BSIZE)) then b[q % BSIZE]
                 else FileByte(view, files[i], q)
    ensures Written(view, files, view', files, inum, off, s)
  {
    hide BlockSlot, Addr, FileByte;
    forall i: nat, q: nat | i in files && q < MAXFILE * BSIZE
      ensures FileByte(view', files[i], q) ==
                if i == inum && off <= q < off + |s| then s[q - off] else FileByte(view, files[i], q)
    {
      if i == inum {
        ChunkByte(view, files[i], view', off, s, a, b, q);
      }
    }
  }

  // Slots and owners

  /** Some of these slots of inode inum, empty before, are filled; no other slot of any file changes. */
  ghost predicate Slotted(view: View, files: map<nat, Addrs>, view': View, files': map<nat, Addrs>, inum: nat,
                          slots: set<Slot>) {
    && files.Keys == files'.Keys
    && forall i: nat, s: Slot {:trigger Addr(view', files'[i], s)} :: i in files && s.Ok() ==>
         || Addr(view', files'[i], s) == Addr(view, files[i], s)
         || (i == inum && s in slots && Addr(view, files[i], s) == 0)
  }

  lemma SlottedTrans(view: View, files: map<nat, Addrs>, view1: View, files1: map<nat, Addrs>,
                     view2: View, files2: map<nat, Addrs>, inum: nat,
                     slots1: set<Slot>, slots2: set<Slot>, slots: set<Slot>)
    requires Slotted(view, files, view1, files1, inum, slots1) && Slotted(view1, files1, view2, files2, inum, slots2)
    requires slots1 <= slots && slots2 <= slots
    ensures Slotted(view, files, view2, files2, inum, slots)
  {
    hide Addr;
    forall i: nat, s: Slot | i in files && s.Ok()
      ensures || Addr(view2, files2[i], s) == Addr(view, files[i], s)
              || (i == inum && s in slots && Addr(view, files[i], s) == 0)
    {
      assert || Addr(view1, files1[i], s) == Addr(view, files[i], s)
             || (i == inum && s in slots && Addr(view, files[i], s) == 0);
    }
  }

  /** Blocks are taken for these slots of inode inum, and none is given up. */
  ghost predicate Grown(owner: map<nat, Owner>, owner': map<nat, Owner>, inum: nat, slots: set<Slot>) {
    && (forall a {:trigger owner[a]} {:trigger owner'[a]} :: a in owner ==> a in owner' && owner'[a] == owner[a])
    && (forall a {:trigger owner'[a]} :: a in owner' && a !in owner ==>
          owner'[a].inum == inum && owner'[a].slot in slots && owner'[a].slot.Ok())
  }

  lemma GrownTrans(owner: map<nat, Owner>, owner1: map<nat, Owner>, owner2: map<nat, Owner>, inum: nat,
                   slots1: set<Slot>, slots2: set<Slot>, slots: set<Slot>)
    requires Grown(owner, owner1, inum, slots1) && Grown(owner1, owner2, inum, slots2) && slots1 <= slots
    requires slots2 <= slots
    ensures Grown(owner, owner2, inum, slots)
  {
  }

  /** The bitmap sectors of the blocks taken. */
  ghost function NewMaps(sb: Super, owner: map<nat, Owner>, owner': map<nat, Owner>): set<nat> {
    set a | a in owner' && a !in owner :: sb.BitmapBlock(a)
  }

  // What went through log_write

  /** Taking block a logs x: the block, its bitmap sector, or the indirect block its number is put in. */
  ghost predicate Marks(sb: Super, view: View, addrs: Addrs, owner: map<nat, Owner>, a: nat, x: nat)
    requires a in owner
  {
    || x == a || x == sb.BitmapBlock(a)
    || (owner[a].slot.Ok() && !InInode(owner[a].slot) && x == Addr(view, addrs, Up(owner[a].slot)))
  }

  ghost predicate MarksNew(sb: Super, view: View, addrs: Addrs, owner: map<nat, Owner>, owner': map<nat, Owner>,
                           x: nat) {
    exists a :: a in owner' && a !in owner && Marks(sb, view, addrs, owner', a, x)
  }

  /** x holds a block of the file between lo and hi. */
  ghost predicate OnLeaf(view: View, addrs: Addrs, lo: nat, hi: nat, x: nat)
    requires hi <= MAXFILE
  {
    exists bn: nat :: lo <= bn < hi && Addr(view, addrs, BlockSlot(bn)) == x
  }

  /** Exactly what is logged by writing the blocks from lo to hi and taking the blocks that are new. */
  ghost predicate LoggedFor(sb: Super, logged: seq<nat>, logged': seq<nat>, view: View, addrs: Addrs,
                            owner: map<nat, Owner>, owner': map<nat, Owner>, lo: nat, hi: nat)
    requires hi <= MAXFILE
  {
    forall x {:trigger x in logged'} ::
      x in logged' <==> x in logged || MarksNew(sb, view, addrs, owner, owner', x) || OnLeaf(view, addrs, lo, hi, x)
  }

  /** What marks a new block still does after more blocks are taken. */
  lemma MarksKept(sb: Super, view: View, files: map<nat, Addrs>, owner: map<nat, Owner>,
                  view': View, files': map<nat, Addrs>, owner': map<nat, Owner>,
                  inum: nat, slots: set<Slot>, a: nat, x: nat)
    requires Owns(view, files, owner) && Slotted(view, files, view', files', inum, slots)
    requires Grown(owner, owner', inum, slots)
    requires inum in files && a in owner && owner[a].inum == inum
    ensures a in owner' && (Marks(sb, view, files[inum], owner, a, x) <==> Marks(sb, view', files'[inum], owner', a, x))
  {
    hide Addr;
    var s := owner[a].slot;
    assert owner'[a] == owner[a] && Addr(view, files[inum], s) == a;
    if !InInode(s) {
      AbovePresent(view, files[inum], s);
      assert Addr(view', files'[inum], Up(s)) == Addr(view, files[inum], Up(s));
    }
  }

  lemma MarksTrans(sb: Super, view: View, files: map<nat, Addrs>, owner0: map<nat, Owner>, owner: map<nat, Owner>,
                   view': View, files': map<nat, Addrs>, owner': map<nat, Owner>,
                   inum: nat, slots0: set<Slot>, slots: set<Slot>, x: nat)
    requires Owns(view, files, owner) && Slotted(view, files, view', files', inum, slots) && inum in files
    requires Grown(owner0, owner, inum, slots0) && Grown(owner, owner', inum, slots)
    ensures MarksNew(sb, view', files'[inum], owner0, owner', x) <==>
              MarksNew(sb, view, files[inum], owner0, owner, x) || MarksNew(sb, view', files'[inum], owner, owner', x)
  {
    hide Marks, Addr, Owns;
    forall a | a in owner && a !in owner0
      ensures a in owner'
      ensures (Marks(sb, view, files[inum], owner, a, x) <==> Marks(sb, view', files'[inum], owner', a, x))
    {
      assert owner[a].inum == inum;
      MarksKept(sb, view, files, owner, view', files', owner', inum, slots, a, x);
    }
  }

  lemma LeafTrans(view: View, files: map<nat, Addrs>, view': View, files': map<nat, Addrs>, inum: nat, slots: set<Slot>,
                  lo: nat, hi: nat, hi': nat, x: nat)
    requires Slotted(view, files, view', files', inum, slots) && inum in files && lo <= hi <= hi' <= MAXFILE
    requires forall bn: nat :: lo <= bn < hi ==> Addr(view, files[inum], BlockSlot(bn)) != 0
    ensures OnLeaf(view', files'[inum], lo, hi', x) <==>
              OnLeaf(view, files[inum], lo, hi, x) || OnLeaf(view', files'[inum], hi, hi', x)
  {
    hide Addr, BlockSlot;
    if OnLeaf(view', files'[inum], lo, hi', x) {
      var bn: nat :| lo <= bn < hi' && Addr(view', files'[inum], BlockSlot(bn)) == x;
      if bn < hi {
        assert Addr(view, files[inum], BlockSlot(bn)) == x;
      }
    }
    if OnLeaf(view, files[inum], lo, hi, x) {
      var bn: nat :| lo <= bn < hi && Addr(view, files[inum], BlockSlot(bn)) == x;
      assert Addr(view', files'[inum], BlockSlot(bn)) == x;
    }
  }

  /** Writing on from hi to hi', what is logged adds up. */
  lemma LoggedTrans(sb: Super, logged0: seq<nat>, logged: seq<nat>, logged': seq<nat>,
                    view: View, files: map<nat, Addrs>, owner0: map<nat, Owner>, owner: map<nat, Owner>,
                    view': View, files': map<nat, Addrs>, owner': map<nat, Owner>,
                    inum: nat, slots0: set<Slot>, slots: set<Slot>,
                    lo: nat, hi: nat, hi': nat)
    requires Owns(view, files, owner) && Slotted(view, files, view', files', inum, slots) && inum in files
    requires Grown(owner0, owner, inum, slots0) && Grown(owner, owner', inum, slots)
    requires lo <= hi <= hi' <= MAXFILE && forall bn: nat :: lo <= bn < hi ==>
               Addr(view, files[inum], BlockSlot(bn)) != 0
    requires LoggedFor(sb, logged0, logged, view, files[inum], owner0, owner, lo, hi)
    requires LoggedFor(sb, logged, logged', view', files'[inum], owner, owner', hi, hi')
    ensures LoggedFor(sb, logged0, logged', view', files'[inum], owner0, owner', lo, hi')
  {
    hide MarksNew, OnLeaf, Owns, Grown, Addr, BlockSlot;
    forall x: nat
      ensures x in logged' <==>
                x in logged0 || MarksNew(sb, view', files'[inum], owner0, owner', x) ||
                OnLeaf(view', files'[inum], lo, hi', x)
    {
      MarksTrans(sb, view, files, owner0, owner, view', files', owner', inum, slots0, slots, x);
      LeafTrans(view, files, view', files', inum, slots, lo, hi, hi', x);
    }
  }

  /** Nothing done is nothing logged. */
  lemma NothingLogged(sb: Super, logged: seq<nat>, view: View, addrs: Addrs, owner: map<nat, Owner>, lo: nat)
    requires lo <= MAXFILE
    ensures LoggedFor(sb, logged, logged, view, addrs, owner, owner, lo, lo)
  {
  }

  /** What is logged is told the same way after a change that alters no block number of the file. */
  lemma LoggedKept(sb: Super, logged: seq<nat>, logged': seq<nat>, view: View, view': View, addrs: Addrs,
                   owner: map<nat, Owner>, owner': map<nat, Owner>, lo: nat, hi: nat)
    requires hi <= MAXFILE && LoggedFor(sb, logged, logged', view, addrs, owner, owner', lo, hi)
    requires forall s: Slot :: s.Ok() ==> Addr(view', addrs, s) == Addr(view, addrs, s)
    ensures LoggedFor(sb, logged, logged', view', addrs, owner, owner', lo, hi)
  {
    hide Addr, BlockSlot;
    forall x: nat
      ensures MarksNew(sb, view', addrs, owner, owner', x) <==> MarksNew(sb, view, addrs, owner, owner', x)
      ensures OnLeaf(view', addrs, lo, hi, x) <==> OnLeaf(view, addrs, lo, hi, x)
    {
      assert forall a :: a in owner' ==>
        (Marks(sb, view', addrs, owner', a, x) <==> Marks(sb, view, addrs, owner', a, x));
      assert forall bn: nat :: bn < hi ==> Addr(view', addrs, BlockSlot(bn)) == Addr(view, addrs, BlockSlot(bn));
    }
  }

  // The file system before and after

  /** What bread shows, the addresses of the inodes, who owns which block, and the transaction so far. */
  datatype State = State(view: View, files: map<nat, Addrs>, owner: map<nat, Owner>, logged: seq<nat>,
                         writes: seq<Write>)

  /** The sectors below the bitmap and the other inodes are left alone, and the transaction goes on. */
  ghost predicate Apart(sb: Super, s0: State, s1: State, inum: nat) {
    && inum in s0.files && s0.files.Keys == s1.files.Keys && |s1.view| == |s0.view|
    && sb.InodeBlocks() + 3 <= |s1.view| && s1.view[..sb.InodeBlocks() + 3] == s0.view[..sb.InodeBlocks() + 3]
    && (forall i :: i in s1.files && i != inum ==> s1.files[i] == s0.files[i])
    && s0.writes <= s1.writes
  }

  /** Blocks were taken for some of these slots of inode inum, and that is all. */
  ghost predicate Took(sb: Super, s0: State, s1: State, inum: nat, slots: set<Slot>) {
    && Apart(sb, s0, s1, inum)
    && SameBytes(s0.view, s0.files, s1.view, s1.files) && Slotted(s0.view, s0.files, s1.view, s1.files, inum, slots)
    && Grown(s0.owner, s1.owner, inum, slots)
    && LoggedFor(sb, s0.logged, s1.logged, s1.view, s1.files[inum], s0.owner, s1.owner, 0, 0)
  }

  /** The blocks of the file from lo to hi were written with these bytes from off on, blocks were taken for slots on
      the way to them, and that is all. */
  ghost predicate Wrote(sb: Super, s0: State, s1: State, inum: nat, off: nat, bytes: seq<Byte>, lo: nat, hi: nat)
    requires hi <= MAXFILE
  {
    && Apart(sb, s0, s1, inum)
    && Written(s0.view, s0.files, s1.view, s1.files, inum, off, bytes)
    && Slotted(s0.view, s0.files, s1.view, s1.files, inum, Paths(lo, hi))
    && Grown(s0.owner, s1.owner, inum, Paths(lo, hi))
    && LoggedFor(sb, s0.logged, s1.logged, s1.view, s1.files[inum], s0.owner, s1.owner, lo, hi)
  }

  lemma TookTrans(sb: Super, s0: State, s1: State, s2: State, inum: nat, slots1: set<Slot>, slots2: set<Slot>)
    requires Took(sb, s0, s1, inum, slots1) && Took(sb, s1, s2, inum, slots2) && Owns(s1.view, s1.files, s1.owner)
    ensures Took(sb, s0, s2, inum, slots1 + slots2)
  {
    hide SameBytes, Slotted, Grown, LoggedFor, Owns;
    SameTrans(s0.view, s0.files, s1.view, s1.files, s2.view, s2.files);
    SlottedTrans(s0.view, s0.files, s1.view, s1.files, s2.view, s2.files, inum, slots1, slots2, slots1 + slots2);
    GrownTrans(s0.owner, s1.owner, s2.owner, inum, slots1, slots2, slots1 + slots2);
    LoggedTrans(sb, s0.logged, s1.logged, s2.logged, s1.view, s1.files, s0.owner, s1.owner, s2.view, s2.files, s2.owner,
                inum, slots1, slots2, 0, 0, 0);
  }

  lemma PathsGrow(lo: nat, hi: nat, hi': nat)
    requires lo <= hi <= hi' <= MAXFILE
    ensures Paths(lo, hi) <= Paths(lo, hi') && Paths(hi, hi') <= Paths(lo, hi')
  {
    hide Path;
    forall t | t in Paths(lo, hi) ensures t in Paths(lo, hi') {
      var bn: nat :| lo <= bn < hi && t in Path(bn);
    }
    forall t | t in Paths(hi, hi') ensures t in Paths(lo, hi') {
      var bn: nat :| hi <= bn < hi' && t in Path(bn);
    }
  }

  lemma WroteTrans(sb: Super, s0: State, s1: State, s2: State, inum: nat, off: nat, bytes: seq<Byte>, more: seq<Byte>,
                   lo: nat, hi: nat, hi': nat)
    requires lo <= hi <= hi' <= MAXFILE
    requires Wrote(sb, s0, s1, inum, off, bytes, lo, hi) && Wrote(sb, s1, s2, inum, off + |bytes|, more, hi, hi')
    requires Owns(s1.view, s1.files, s1.owner)
    requires forall bn: nat :: lo <= bn < hi ==> Addr(s1.view, s1.files[inum], BlockSlot(bn)) != 0
    ensures Wrote(sb, s0, s2, inum, off, bytes + more, lo, hi')
  {
    hide Written, Slotted, Grown, LoggedFor, Owns, Addr, BlockSlot, Paths;
    PathsGrow(lo, hi, hi');
    WrittenTrans(s0.view, s0.files, s1.view, s1.files, s2.view, s2.files, inum, off, bytes, more);
    SlottedTrans(s0.view, s0.files, s1.view, s1.files, s2.view, s2.files, inum, Paths(lo, hi), Paths(hi, hi'),
                 Paths(lo, hi'));
    GrownTrans(s0.owner, s1.owner, s2.owner, inum, Paths(lo, hi), Paths(hi, hi'), Paths(lo, hi'));
    LoggedTrans(sb, s0.logged, s1.logged, s2.logged, s1.view, s1.files, s0.owner, s1.owner, s2.view, s2.files, s2.owner,
                inum, Paths(lo, hi), Paths(hi, hi'), lo, hi, hi');
  }

  lemma PathsOne(bn: nat)
    requires bn < MAXFILE
    ensures Paths(bn, bn + 1) == Path(bn)
  {
    hide Path;
  }

  lemma SlottedSame(view: View, files: map<nat, Addrs>, view1: View, view2: View, files1: map<nat, Addrs>, inum: nat,
                    slots: set<Slot>)
    requires Slotted(view, files, view1, files1, inum, slots)
    requires forall i: nat, s: Slot :: i in files1 && s.Ok() ==> Addr(view2, files1[i], s) == Addr(view1, files1[i], s)
    ensures Slotted(view, files, view2, files1, inum, slots)
  {
    hide Addr;
  }

  /** The data write after bmap. */
  lemma TookThenWrote(sb: Super, s0: State, s1: State, s2: State, inum: nat, off: nat, bytes: seq<Byte>, bn: nat,
                      a: nat)
    requires bn < MAXFILE && Took(sb, s0, s1, inum, Path(bn))
    requires s2.files == s1.files && s2.owner == s1.owner && s2.logged == Log(s1.logged, a) && s1.writes <= s2.writes
    requires Addr(s1.view, s1.files[inum], BlockSlot(bn)) == a && sb.InodeBlocks() + 3 <= a < |s1.view|
    requires |s2.view| == |s1.view| && s2.view == s1.view[a := s2.view[a]]
    requires Written(s1.view, s1.files, s2.view, s2.files, inum, off, bytes)
    requires forall i: nat, s: Slot :: i in s1.files && s.Ok() ==>
               Addr(s2.view, s1.files[i], s) == Addr(s1.view, s1.files[i], s)
    ensures Wrote(sb, s0, s2, inum, off, bytes, bn, bn + 1)
  {
    hide SameBytes, Written, Slotted, Grown, Addr, BlockSlot, LoggedFor, Path, Paths;
    PathsOne(bn);
    SlottedSame(s0.view, s0.files, s1.view, s2.view, s1.files, inum, Path(bn));
    SameWritten(s0.view, s0.files, s1.view, s1.files, s2.view, s2.files, inum, off, bytes);
    LoggedKept(sb, s0.logged, s1.logged, s1.view, s2.view, s1.files[inum], s0.owner, s1.owner, 0, 0);
    LeafLogged(sb, s0.logged, s1.logged, s2.view, s1.files[inum], s0.owner, s1.owner, bn, a);
  }

  lemma LeafLogged(sb: Super, logged0: seq<nat>, logged1: seq<nat>, view: View, addrs: Addrs,
                   owner0: map<nat, Owner>, owner1: map<nat, Owner>, bn: nat, a: nat)
    requires bn < MAXFILE && LoggedFor(sb, logged0, logged1, view, addrs, owner0, owner1, 0, 0)
    requires Addr(view, addrs, BlockSlot(bn)) == a
    ensures LoggedFor(sb, logged0, Log(logged1, a), view, addrs, owner0, owner1, bn, bn + 1)
  {
    hide Addr, BlockSlot, MarksNew;
    var hi := bn + 1;
    forall x: nat ensures OnLeaf(view, addrs, bn, hi, x) <==> x == a {
    }
  }
}
