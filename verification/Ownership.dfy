/** Which block belongs to which place of which inode. `view` is what bread shows of every sector. */
module Ownership {
  import opened Blocks
  import opened FsLayout

  type View = seq<Block>
  type Addrs = a: seq<Word> | |a| == NADDRS witness seq(NADDRS, _ => 0)

  /** The addresses of an inode without blocks. */
  const NO_ADDRS: Addrs := [0, 0, 0, 0, 0, 0, 0, 0, 0, 0, 0, 0, 0]

  /** A place that can hold a block number: in the inode, in its indirect block, in its double-indirect
      block, or in one of the blocks that one lists. */
  datatype Slot =
    | Direct(i: nat)
    | Ind
    | IndEntry(i: nat)
    | Dind
    | DindEntry(i: nat)
    | DindLeaf(i: nat, j: nat)
  {
    predicate Ok() {
      match this
      case Direct(i) => i < NDIRECT
      case Ind => true
      case IndEntry(i) => i < NINDIRECT
      case Dind => true
      case DindEntry(i) => i < NINDIRECT
      case DindLeaf(i, j) => i < NINDIRECT && j < NINDIRECT
    }

    /** The block in slot t is read to find the number in this slot. */
    predicate Below(t: Slot) {
      match this
      case IndEntry(_) => t == Ind
      case DindEntry(_) => t == Dind
      case DindLeaf(i, _) => t == Dind || t == DindEntry(i)
      case _ => false
    }

    /** Slots whose block holds file data. */
    predicate Leaf() {
      Direct? || IndEntry? || DindLeaf?
    }
  }

  datatype Owner = Owner(inum: nat, slot: Slot)

  function EntryAt(view: View, a: Word, j: nat): Word
    requires j < NINDIRECT
  {
    if 0 < a < |view| then GetWord(view[a], j) else 0
  }

  /** The block number in a slot, 0 if there is none. */
  function Addr(view: View, addrs: Addrs, s: Slot): Word
    requires s.Ok()
  {
    match s
    case Direct(i) => addrs[i]
    case Ind => addrs[NDIRECT]
    case IndEntry(i) => EntryAt(view, addrs[NDIRECT], i)
    case Dind => addrs[NDIRECT + 1]
    case DindEntry(i) => EntryAt(view, addrs[NDIRECT + 1], i)
    case DindLeaf(i, j) => EntryAt(view, EntryAt(view, addrs[NDIRECT + 1], i), j)
  }

  /** The slot for the bn-th block of a file. */
  function BlockSlot(bn: nat): (s: Slot)
    requires bn < MAXFILE
    ensures s.Ok() && s.Leaf()
  {
    if bn < NDIRECT then Direct(bn)
    else if bn < NDIRECT + NINDIRECT then IndEntry(bn - NDIRECT)
    else
      var n := bn - NDIRECT - NINDIRECT;
      DindLeaf(n / NINDIRECT, n % NINDIRECT)
  }

  lemma BlockSlotInjective(m: nat, n: nat)
    requires m < MAXFILE && n < MAXFILE && BlockSlot(m) == BlockSlot(n)
    ensures m == n
  {
  }

  /** What a read of the file finds at position p: a hole reads as zero. */
  function FileByte(view: View, addrs: Addrs, p: nat): Byte
    requires p < MAXFILE * BSIZE
  {
    var a := Addr(view, addrs, BlockSlot(p / BSIZE));
    if 0 < a < |view| then view[a][p % BSIZE] else 0
  }

  /** Every block number found in a slot of a file is owned by that slot and no other. */
  ghost predicate Owns(view: View, files: map<nat, Addrs>, owner: map<nat, Owner>) {
    && (forall inum: nat, s: Slot {:trigger Addr(view, files[inum], s)} ::
          inum in files && s.Ok() && Addr(view, files[inum], s) != 0 ==>
            Addr(view, files[inum], s) in owner && owner[Addr(view, files[inum], s)] == Owner(inum, s))
    && (forall a {:trigger owner[a]} :: a in owner ==>
          && 0 < a < |view| && owner[a].inum in files && owner[a].slot.Ok()
          && Addr(view, files[owner[a].inum], owner[a].slot) == a)
  }

  /** Writing a block changes only the slots found by reading it. */
  lemma WriteKeepsAddr(view: View, files: map<nat, Addrs>, owner: map<nat, Owner>, p: nat, b: Block, inum: nat, s: Slot)
    requires Owns(view, files, owner) && p < |view| && inum in files && s.Ok()
    requires p in owner ==> owner[p].inum != inum || !s.Below(owner[p].slot)
    ensures Addr(view[p := b], files[inum], s) == Addr(view, files[inum], s)
  {
    hide GetWord;
    match s {
      case IndEntry(i) => assert Addr(view, files[inum], Ind) == files[inum][NDIRECT];
      case DindEntry(i) => assert Addr(view, files[inum], Dind) == files[inum][NDIRECT + 1];
      case DindLeaf(i, j) =>
        assert Addr(view, files[inum], Dind) == files[inum][NDIRECT + 1];
        assert Addr(view, files[inum], DindEntry(i)) == EntryAt(view, files[inum][NDIRECT + 1], i);
      case _ =>
    }
  }

  /** Writing a block that is no indirect block changes no slot at all. */
  lemma WriteKeepsOwns(view: View, files: map<nat, Addrs>, owner: map<nat, Owner>, p: nat, b: Block)
    requires Owns(view, files, owner) && p < |view|
    requires p in owner ==> owner[p].slot.Leaf()
    ensures Owns(view[p := b], files, owner)
    ensures forall inum: nat, s: Slot :: inum in files && s.Ok() ==>
              Addr(view[p := b], files[inum], s) == Addr(view, files[inum], s)
  {
    hide GetWord;
    forall inum: nat, s: Slot | inum in files && s.Ok()
      ensures Addr(view[p := b], files[inum], s) == Addr(view, files[inum], s)
    {
      WriteKeepsAddr(view, files, owner, p, b, inum, s);
    }
  }

  /** What no file owns, no file reads. */
  lemma OwnedMatters(view: View, view': View, files: map<nat, Addrs>, owner: map<nat, Owner>, i: nat, s: Slot)
    requires Owns(view, files, owner) && (forall a :: a in owner ==> a < |view'| && view'[a] == view[a])
    requires i in files && s.Ok()
    ensures Addr(view', files[i], s) == Addr(view, files[i], s)
  {
    hide GetWord;
    match s {
      case IndEntry(_) => assert Addr(view, files[i], Ind) == files[i][NDIRECT];
      case DindEntry(_) => assert Addr(view, files[i], Dind) == files[i][NDIRECT + 1];
      case DindLeaf(e, _) =>
        assert Addr(view, files[i], Dind) == files[i][NDIRECT + 1];
        assert Addr(view, files[i], DindEntry(e)) == EntryAt(view, files[i][NDIRECT + 1], e);
      case _ =>
    }
  }

  lemma OwnedBytes(view: View, view': View, files: map<nat, Addrs>, owner: map<nat, Owner>, i: nat, p: nat)
    requires Owns(view, files, owner) && (forall a :: a in owner ==> a < |view'| && view'[a] == view[a])
    requires i in files && p < MAXFILE * BSIZE
    ensures FileByte(view', files[i], p) == FileByte(view, files[i], p)
  {
    hide Addr, BlockSlot;
    var s := BlockSlot(p / BSIZE);
    OwnedMatters(view, view', files, owner, i, s);
    assert Addr(view, files[i], s) != 0 ==> Addr(view, files[i], s) in owner;
  }

  // Putting a fresh block into an empty slot

  function SlotAddrs(addrs: Addrs, s: Slot, r: Word): Addrs
    requires s.Ok()
  {
    match s
    case Direct(i) => addrs[i := r]
    case Ind => addrs[NDIRECT := r]
    case Dind => addrs[NDIRECT + 1 := r]
    case _ => addrs
  }

  predicate InInode(s: Slot) {
    s.Direct? || s.Ind? || s.Dind?
  }

  /** The slot of the block a slot is in, if it is not in the inode. */
  function Up(s: Slot): (t: Slot)
    requires s.Ok()
    ensures t.Ok() && !t.Leaf() && (!InInode(s) ==> s.Below(t))
  {
    match s
    case DindEntry(_) => Dind
    case DindLeaf(i, _) => DindEntry(i)
    case _ => Ind
  }

  /** The block that holds the slot, 0 if the inode does or if there is no such block. */
  function Parent(view: View, addrs: Addrs, s: Slot): Word
    requires s.Ok()
  {
    if InInode(s) then 0 else Addr(view, addrs, Up(s))
  }

  lemma ParentOwned(view: View, files: map<nat, Addrs>, owner: map<nat, Owner>, n: nat, s: Slot)
    requires Owns(view, files, owner) && n in files && s.Ok() && Parent(view, files[n], s) != 0
    ensures Parent(view, files[n], s) in owner && owner[Parent(view, files[n], s)] == Owner(n, Up(s))
  {
  }

  function EntryIndex(s: Slot): nat {
    match s
    case IndEntry(i) => i
    case DindEntry(i) => i
    case DindLeaf(_, j) => j
    case _ => 0
  }

  function SlotView(view: View, addrs: Addrs, s: Slot, r: Word): (v: View)
    requires s.Ok() && (InInode(s) || 0 < Parent(view, addrs, s) < |view|)
    ensures |v| == |view|
  {
    if InInode(s) then view else
      var p := Parent(view, addrs, s);
      view[p := PutWord(view[p], EntryIndex(s), r)]
  }

  /** Filling an empty slot with a fresh zeroed block sets that slot and changes no other. */
  lemma FillAddr(view: View, files: map<nat, Addrs>, owner: map<nat, Owner>, n: nat, t: Slot, r: Word, inum: nat,
                 s: Slot)
    requires Owns(view, files, owner) && n in files && t.Ok() && Addr(view, files[n], t) == 0
    requires 0 < r < |view| && r !in owner && view[r] == ZeroBlock()
    requires InInode(t) || 0 < Parent(view, files[n], t) < |view|
    requires inum in files && s.Ok()
    ensures Addr(SlotView(view, files[n], t, r), files[n := SlotAddrs(files[n], t, r)][inum], s)
         == if inum == n && s == t then r else Addr(view, files[inum], s)
  {
    hide GetWord, PutWord, ZeroBlock;
    var addrs := files[n];
    assert Addr(view, addrs, Ind) == addrs[NDIRECT];
    assert Addr(view, addrs, Dind) == addrs[NDIRECT + 1];
    if !InInode(t) {
      var p := Parent(view, addrs, t);
      var up := Up(t);
      assert Addr(view, addrs, up) == p && owner[p] == Owner(n, up);
      if inum != n || !s.Below(up) {
        WriteKeepsAddr(view, files, owner, p, PutWord(view[p], EntryIndex(t), r), inum, s);
      } else if s.DindLeaf? {
        var e := Addr(view, addrs, DindEntry(s.i));
        assert e == EntryAt(view, addrs[NDIRECT + 1], s.i);
        assert e != 0 ==> owner[e] == Owner(n, DindEntry(s.i));
      }
    }
  }

  lemma FillOwns(view: View, files: map<nat, Addrs>, owner: map<nat, Owner>, n: nat, t: Slot, r: Word)
    requires Owns(view, files, owner) && n in files && t.Ok() && Addr(view, files[n], t) == 0
    requires 0 < r < |view| && r !in owner && view[r] == ZeroBlock()
    requires InInode(t) || 0 < Parent(view, files[n], t) < |view|
    ensures Owns(SlotView(view, files[n], t, r), files[n := SlotAddrs(files[n], t, r)], owner[r := Owner(n, t)])
  {
    hide GetWord, PutWord, ZeroBlock, Addr, SlotView, SlotAddrs, Parent;
    var view', files' := SlotView(view, files[n], t, r), files[n := SlotAddrs(files[n], t, r)];
    var owner' := owner[r := Owner(n, t)];
    forall inum: nat, s: Slot | inum in files' && s.Ok()
      ensures Addr(view', files'[inum], s) == if inum == n && s == t then r else Addr(view, files[inum], s)
    {
      FillAddr(view, files, owner, n, t, r, inum, s);
    }
    forall a | a in owner'
      ensures 0 < a < |view'| && owner'[a].inum in files' && owner'[a].slot.Ok()
      ensures Addr(view', files'[owner'[a].inum], owner'[a].slot) == a
    {
      assert a != r ==> owner'[a] == owner[a];
    }
  }

  /** No file reads differently for a fresh zeroed block in an empty slot: a hole reads as zero anyway. */
  lemma FillBytes(view: View, files: map<nat, Addrs>, owner: map<nat, Owner>, n: nat, t: Slot, r: Word, inum: nat,
                  p: nat)
    requires Owns(view, files, owner) && n in files && t.Ok() && Addr(view, files[n], t) == 0
    requires 0 < r < |view| && r !in owner && view[r] == ZeroBlock()
    requires InInode(t) || 0 < Parent(view, files[n], t) < |view|
    requires inum in files && p < MAXFILE * BSIZE
    ensures FileByte(SlotView(view, files[n], t, r), files[n := SlotAddrs(files[n], t, r)][inum], p)
         == FileByte(view, files[inum], p)
  {
    hide GetWord, PutWord, ZeroBlock, SlotAddrs, BlockSlot;
    var s := BlockSlot(p / BSIZE);
    FillAddr(view, files, owner, n, t, r, inum, s);
    if !InInode(t) {
      assert owner[Parent(view, files[n], t)] == Owner(n, Up(t));
    }
  }

  /** Writing a data block changes what its own file reads there and nothing else. */
  lemma WriteBytes(view: View, files: map<nat, Addrs>, owner: map<nat, Owner>, a: nat, b: Block, inum: nat, p: nat)
    requires Owns(view, files, owner) && a < |view| && (a in owner ==> owner[a].slot.Leaf())
    requires inum in files && p < MAXFILE * BSIZE
    ensures FileByte(view[a := b], files[inum], p)
         == if a in owner && owner[a] == Owner(inum, BlockSlot(p / BSIZE)) then b[p % BSIZE]
            else FileByte(view, files[inum], p)
  {
    hide GetWord, BlockSlot;
    WriteKeepsAddr(view, files, owner, a, b, inum, BlockSlot(p / BSIZE));
  }

  // The bitmap

  predicate BitSet(view: View, sb: Super, b: nat)
    requires sb.Ok() && b < sb.size <= |view|
  {
    BitAt(view[sb.BitmapBlock(b)], b % BPB)
  }

  function MarkUsed(view: View, sb: Super, b: nat): (v: View)
    requires sb.Ok() && b < sb.size <= |view|
    ensures |v| == |view|
  {
    view[sb.BitmapBlock(b) := SetBit(view[sb.BitmapBlock(b)], b % BPB)]
  }

  function MarkFree(view: View, sb: Super, b: nat): (v: View)
    requires sb.Ok() && b < sb.size <= |view|
    ensures |v| == |view|
  {
    view[sb.BitmapBlock(b) := ClearBit(view[sb.BitmapBlock(b)], b % BPB)]
  }

  lemma MarkUsedAt(view: View, sb: Super, b: nat, a: nat)
    requires sb.Ok() && b < sb.size <= |view| && a < sb.size
    ensures BitSet(MarkUsed(view, sb, b), sb, a) == (a == b || BitSet(view, sb, a))
  {
    hide SetBit, BitAt;
    if sb.BitmapBlock(a) == sb.BitmapBlock(b) && a % BPB == b % BPB {
      assert a == b;
    }
  }

  lemma MarkFreeAt(view: View, sb: Super, b: nat, a: nat)
    requires sb.Ok() && b < sb.size <= |view| && a < sb.size
    ensures BitSet(MarkFree(view, sb, b), sb, a) == (a != b && BitSet(view, sb, a))
  {
    hide ClearBit, BitAt;
    if sb.BitmapBlock(a) == sb.BitmapBlock(b) && a % BPB == b % BPB {
      assert a == b;
    }
  }

  /** Below the log, the bits that are set are those of the metadata and of the owned data blocks. */
  ghost predicate BitsOk(view: View, sb: Super, owner: map<nat, Owner>) {
    && sb.Ok() && sb.size <= |view|
    && (forall a :: a in owner ==> sb.IsData(a))
    && (forall a: nat :: a < sb.LogStart() ==> (BitSet(view, sb, a) <==> a < sb.DataStart() || a in owner))
  }

  /** The data sectors nobody owns. */
  ghost function FreeData(sb: Super, owner: map<nat, Owner>): set<nat> {
    set a: nat | a < sb.size && sb.IsData(a) && a !in owner
  }

  /** The block balloc finds: the lowest one whose bit is clear. */
  ghost predicate IsFirstFree(view: View, sb: Super, r: nat)
    requires sb.Ok() && sb.size <= |view|
  {
    r < sb.size && !BitSet(view, sb, r) && forall a: nat :: a < r ==> BitSet(view, sb, a)
  }

  /** balloc, whose scan does not stop at the log, finds a data sector exactly when one is free. */
  lemma FirstFreeIsData(view: View, sb: Super, owner: map<nat, Owner>, r: nat)
    requires BitsOk(view, sb, owner) && IsFirstFree(view, sb, r)
    ensures r !in owner && sb.DataStart() <= r
    ensures sb.IsData(r) <==> FreeData(sb, owner) != {}
  {
    hide BitSet;
    if FreeData(sb, owner) != {} {
      var a :| a in FreeData(sb, owner);
      assert !BitSet(view, sb, a);
    }
    if sb.IsData(r) {
      assert r in FreeData(sb, owner);
    }
  }

  lemma NotFull(view: View, sb: Super, owner: map<nat, Owner>)
    requires BitsOk(view, sb, owner) && FreeData(sb, owner) != {}
    ensures exists a: nat :: a < sb.size && !BitSet(view, sb, a)
  {
    var a :| a in FreeData(sb, owner);
    assert !BitSet(view, sb, a);
  }

  // balloc and the store of the block number it returns

  /** The view after balloc has taken r. */
  function Taken(view: View, sb: Super, r: nat): (v: View)
    requires sb.Ok() && r < sb.size <= |view|
    ensures |v| == |view|
  {
    MarkUsed(view, sb, r)[r := ZeroBlock()]
  }

  /** Everything the invariant says about the disk. */
  ghost predicate DiskOk(view: View, sb: Super, files: map<nat, Addrs>, owner: map<nat, Owner>) {
    Owns(view, files, owner) && BitsOk(view, sb, owner)
  }

  lemma TakenKeeps(view: View, sb: Super, files: map<nat, Addrs>, owner: map<nat, Owner>, r: nat)
    requires DiskOk(view, sb, files, owner) && r < sb.size && sb.IsData(r) && r !in owner
    ensures Owns(Taken(view, sb, r), files, owner) && Taken(view, sb, r)[r] == ZeroBlock()
    ensures forall inum: nat, s: Slot :: inum in files && s.Ok() ==>
              Addr(Taken(view, sb, r), files[inum], s) == Addr(view, files[inum], s)
    ensures forall inum: nat, p: nat :: inum in files && p < MAXFILE * BSIZE ==>
              FileByte(Taken(view, sb, r), files[inum], p) == FileByte(view, files[inum], p)
  {
    hide Addr, FileByte, SetBit, ZeroBlock, BitSet;
    sb.BitmapBlockFacts(r);
    var b := sb.BitmapBlock(r);
    var marked := MarkUsed(view, sb, r);
    WriteKeepsOwns(view, files, owner, b, marked[b]);
    WriteKeepsOwns(marked, files, owner, r, ZeroBlock());
    forall inum: nat, p: nat | inum in files && p < MAXFILE * BSIZE
      ensures FileByte(Taken(view, sb, r), files[inum], p) == FileByte(view, files[inum], p)
    {
      WriteBytes(view, files, owner, b, marked[b], inum, p);
      WriteBytes(marked, files, owner, r, ZeroBlock(), inum, p);
    }
  }

  /** balloc and the store keep the invariant, give slot t block r, and change no other slot and no byte
      any file reads. */
  lemma AllocateOk(view: View, sb: Super, files: map<nat, Addrs>, owner: map<nat, Owner>, n: nat, t: Slot, r: nat)
    requires DiskOk(view, sb, files, owner) && n in files && t.Ok() && Addr(view, files[n], t) == 0
    requires r < sb.size && sb.IsData(r) && r !in owner
    requires InInode(t) || 0 < Parent(view, files[n], t) < |view|
    ensures Parent(Taken(view, sb, r), files[n], t) == Parent(view, files[n], t)
    ensures var view' := SlotView(Taken(view, sb, r), files[n], t, r);
            var files' := files[n := SlotAddrs(files[n], t, r)];
            && DiskOk(view', sb, files', owner[r := Owner(n, t)])
            && (forall inum: nat, s: Slot :: inum in files && s.Ok() ==>
                  Addr(view', files'[inum], s) == if inum == n && s == t then r else Addr(view, files[inum], s))
            && (forall inum: nat, p: nat :: inum in files && p < MAXFILE * BSIZE ==>
                  FileByte(view', files'[inum], p) == FileByte(view, files[inum], p))
  {
    hide FileByte, SetBit, BitSet, PutWord, GetWord, Addr, SlotView, SlotAddrs, Up, Taken;
    TakenKeeps(view, sb, files, owner, r);
    var taken := Taken(view, sb, r);
    assert InInode(t) || owner[Addr(view, files[n], Up(t))] == Owner(n, Up(t));
    FillOwns(taken, files, owner, n, t, r);
    forall inum: nat, s: Slot | inum in files && s.Ok()
      ensures Addr(SlotView(taken, files[n], t, r), files[n := SlotAddrs(files[n], t, r)][inum], s)
           == if inum == n && s == t then r else Addr(view, files[inum], s)
    {
      FillAddr(taken, files, owner, n, t, r, inum, s);
    }
    forall inum: nat, p: nat | inum in files && p < MAXFILE * BSIZE
      ensures FileByte(SlotView(taken, files[n], t, r), files[n := SlotAddrs(files[n], t, r)][inum], p)
           == FileByte(view, files[inum], p)
    {
      FillBytes(taken, files, owner, n, t, r, inum, p);
    }
    AllocateBits(view, sb, files, owner, n, t, r);
  }

  lemma AllocateBits(view: View, sb: Super, files: map<nat, Addrs>, owner: map<nat, Owner>, n: nat, t: Slot, r: nat)
    requires DiskOk(view, sb, files, owner) && n in files && t.Ok()
    requires r < sb.size && sb.IsData(r) && r !in owner
    requires InInode(t) || 0 < Parent(Taken(view, sb, r), files[n], t) < |view|
    requires !InInode(t) ==> Parent(Taken(view, sb, r), files[n], t) in owner
    ensures BitsOk(SlotView(Taken(view, sb, r), files[n], t, r), sb, owner[r := Owner(n, t)])
  {
    hide BitAt, Owns, SetBit, PutWord, Parent;
    var view' := SlotView(Taken(view, sb, r), files[n], t, r);
    forall a: nat | a < sb.LogStart()
      ensures BitSet(view', sb, a) <==> a < sb.DataStart() || a in owner[r := Owner(n, t)]
    {
      sb.BitmapBlockFacts(a);
      sb.BitmapBlockFacts(r);
      MarkUsedAt(view, sb, r, a);
    }
  }

  // Writes that are not allocations

  lemma BitsKept(view: View, view': View, sb: Super, owner: map<nat, Owner>)
    requires BitsOk(view, sb, owner) && |view'| == |view|
    requires forall k :: sb.InodeBlocks() + 3 <= k < sb.DataStart() ==> view'[k] == view[k]
    ensures BitsOk(view', sb, owner)
  {
    hide BitAt;
    forall a: nat | a < sb.LogStart() ensures BitSet(view', sb, a) == BitSet(view, sb, a) {
      sb.BitmapBlockFacts(a);
    }
  }

  /** Writing an inode block, or another sector of metadata that is no bitmap block, keeps everything. */
  lemma MetaWriteOk(view: View, sb: Super, files: map<nat, Addrs>, owner: map<nat, Owner>, p: nat, b: Block)
    requires DiskOk(view, sb, files, owner) && p < sb.InodeBlocks() + 3
    ensures DiskOk(view[p := b], sb, files, owner)
    ensures forall inum: nat, s: Slot :: inum in files && s.Ok() ==>
              Addr(view[p := b], files[inum], s) == Addr(view, files[inum], s)
    ensures forall inum: nat, q: nat :: inum in files && q < MAXFILE * BSIZE ==>
              FileByte(view[p := b], files[inum], q) == FileByte(view, files[inum], q)
  {
    hide FileByte, Addr, BitSet;
    WriteKeepsOwns(view, files, owner, p, b);
    forall inum: nat, q: nat | inum in files && q < MAXFILE * BSIZE
      ensures FileByte(view[p := b], files[inum], q) == FileByte(view, files[inum], q)
    {
      WriteBytes(view, files, owner, p, b, inum, q);
    }
    BitsKept(view, view[p := b], sb, owner);
  }

  /** Writing a data block keeps the invariant and changes what is read at its place in its file only. */
  lemma DataWriteOk(view: View, sb: Super, files: map<nat, Addrs>, owner: map<nat, Owner>, a: nat, b: Block)
    requires DiskOk(view, sb, files, owner) && a in owner && owner[a].slot.Leaf()
    ensures DiskOk(view[a := b], sb, files, owner)
    ensures forall inum: nat, s: Slot :: inum in files && s.Ok() ==>
              Addr(view[a := b], files[inum], s) == Addr(view, files[inum], s)
    ensures forall inum: nat, q: nat :: inum in files && q < MAXFILE * BSIZE ==>
              FileByte(view[a := b], files[inum], q) ==
                if owner[a] == Owner(inum, BlockSlot(q / BSIZE)) then b[q % BSIZE] else FileByte(view, files[inum], q)
  {
    hide FileByte, Addr, BitSet, BlockSlot;
    WriteKeepsOwns(view, files, owner, a, b);
    forall inum: nat, q: nat | inum in files && q < MAXFILE * BSIZE
      ensures FileByte(view[a := b], files[inum], q) ==
                if owner[a] == Owner(inum, BlockSlot(q / BSIZE)) then b[q % BSIZE] else FileByte(view, files[inum], q)
    {
      WriteBytes(view, files, owner, a, b, inum, q);
    }
    BitsKept(view, view[a := b], sb, owner);
  }
}
