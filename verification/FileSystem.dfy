/** Block allocation, inodes and file contents, over what bread shows of the disk. Every change of a block goes
    through log_write; `logged` is the list of sectors in the log header. */
module FileSystem {
  import opened Blocks
  import opened FileBlocks
  import opened FileChanges
  import opened FsLayout
  import opened Options
  import opened Ownership
  import opened RedoLog
  import opened Ring

  /** An inode in memory, locked by the process that works on it. */
  class Inode {
    const inum: nat
    var head0: Word  // type and major
    var head1: Word  // minor and nlink
    var size: Word
    var addrs: Addrs

    constructor (inum: nat, head0: Word, head1: Word, size: Word, addrs: Addrs)
      ensures this.inum == inum && this.head0 == head0 && this.head1 == head1
      ensures this.size == size && this.addrs == addrs
    {
      this.inum, this.head0, this.head1, this.size, this.addrs := inum, head0, head1, size, addrs;
    }
  }

  /** The inode record of a block: type and major, minor and nlink, size, addresses. */
  datatype Dinode = Dinode(head0: Word, head1: Word, size: Word, addrs: Addrs)

  /** The record of an inode number in its block, 64 bytes long. */
  predicate IsDinode(b: Block, inum: nat, din: Dinode) {
    var at := 16 * (inum % IPB);
    && GetWord(b, at) == din.head0 && GetWord(b, at + 1) == din.head1 && GetWord(b, at + 2) == din.size
    && forall j: nat :: j < NADDRS ==> GetWord(b, at + 3 + j) == din.addrs[j]
  }

  predicate SameOtherDinodes(was: Block, b: Block, inum: nat) {
    forall j: nat :: j < WORDS && j / 16 != inum % IPB ==> GetWord(b, j) == GetWord(was, j)
  }

  /** One record of an inode block replaced. */
  method PutDinode(was: Block, n: nat, din: Dinode) returns (b: Block)
    ensures IsDinode(b, n, din) && SameOtherDinodes(was, b, n)
  {
    hide GetWord, PutWord;
    var at := 16 * (n % IPB);
    b := PutWord(was, at, din.head0);
    b := PutWord(b, at + 1, din.head1);
    b := PutWord(b, at + 2, din.size);
    for k := 0 to NADDRS
      invariant GetWord(b, at) == din.head0 && GetWord(b, at + 1) == din.head1 && GetWord(b, at + 2) == din.size
      invariant forall j: nat :: j < k ==> GetWord(b, at + 3 + j) == din.addrs[j]
      invariant SameOtherDinodes(was, b, n)
    {
      hide GetWord, PutWord;
      b := PutWord(b, at + 3 + k, din.addrs[k]);
    }
  }

  /** The block in a slot is owned by that slot. */
  lemma SlotHolds(view: View, sb: Super, files: map<nat, Addrs>, owner: map<nat, Owner>, inum: nat, s: Slot)
    requires DiskOk(view, sb, files, owner) && inum in files && s.Ok() && Addr(view, files[inum], s) != 0
    ensures var a := Addr(view, files[inum], s);
            a in owner && owner[a] == Owner(inum, s) && a < |view| && sb.DataStart() <= a < sb.LogStart()
  {
    hide Addr;
  }

  /** What taking a block for slot t of the inode logs: the block, its bitmap sector and the block the slot is in. */
  lemma MarksOne(sb: Super, logged: seq<nat>, view: View, addrs: Addrs, owner: map<nat, Owner>, r: nat, inum: nat,
                 t: Slot)
    requires t.Ok() && r !in owner
    ensures var owner' := owner[r := Owner(inum, t)];
            var some := Log(Log(logged, sb.BitmapBlock(r)), r);
            LoggedFor(sb, logged, if InInode(t) then some else Log(some, Addr(view, addrs, Up(t))),
                      view, addrs, owner, owner', 0, 0)
  {
    hide Addr;
    var owner' := owner[r := Owner(inum, t)];
    forall x: nat
      ensures MarksNew(sb, view, addrs, owner, owner', x) <==>
                x == r || x == sb.BitmapBlock(r) || (!InInode(t) && x == Addr(view, addrs, Up(t)))
    {
      assert owner'[r].slot == t;
      assert Marks(sb, view, addrs, owner', r, x) <==>
               x == r || x == sb.BitmapBlock(r) || (!InInode(t) && x == Addr(view, addrs, Up(t)));
    }
  }

  /** One past the last block that the first tot bytes from off are in. */
  function EndBlock(off: nat, tot: nat): nat {
    if tot == 0 then off / BSIZE else (off + tot - 1) / BSIZE + 1
  }

  /** A chunk starts a block or the write, takes one more block, and ends its block or the write. */
  lemma ChunkArithmetic(off: nat, n: nat, tot: nat, m: nat)
    requires tot < n && 0 < m <= n - tot && m <= BSIZE - (off + tot) % BSIZE
    requires m == n - tot || m == BSIZE - (off + tot) % BSIZE
    requires tot == 0 || (off + tot) % BSIZE == 0
    ensures EndBlock(off, tot) == (off + tot) / BSIZE
    ensures EndBlock(off, tot + m) == (off + tot) / BSIZE + 1 <= EndBlock(off, n)
    ensures tot + m == n || (off + tot + m) % BSIZE == 0
  {
  }

  lemma HoleFreeMore(view1: View, files1: map<nat, Addrs>, view2: View, files2: map<nat, Addrs>, inum: nat,
                     slots: set<Slot>,
                     size: nat, off: nat, m: nat)
    requires inum in files1 && Slotted(view1, files1, view2, files2, inum, slots)
    requires HoleFree(view1, files1[inum], size) && off <= size && 0 < m <= BSIZE - off % BSIZE
    requires off + m <= MAXFILE * BSIZE
    requires Addr(view2, files2[inum], BlockSlot(off / BSIZE)) != 0
    ensures HoleFree(view2, files2[inum], if size < off + m then off + m else size)
  {
    hide Addr, BlockSlot;
    forall bn: nat | bn * BSIZE < (if size < off + m then off + m else size)
      ensures Addr(view2, files2[inum], BlockSlot(bn)) != 0
    {
      if bn != off / BSIZE {
        assert bn * BSIZE < size;
      }
    }
  }

  /** A file with just the blocks of its size still has just those when blocks up to hi are taken. */
  lemma TightMore(view1: View, files1: map<nat, Addrs>, view2: View, files2: map<nat, Addrs>, inum: nat,
                  size: nat, more: nat, lo: nat, hi: nat)
    requires inum in files1 && size <= more && hi <= MAXFILE && (hi <= lo || (hi - 1) * BSIZE < more)
    requires Slotted(view1, files1, view2, files2, inum, Paths(lo, hi))
    requires Tight(view1, files1[inum], size) && HoleFree(view2, files2[inum], more)
    ensures Tight(view2, files2[inum], more)
  {
    hide Addr, Path;
    forall t: Slot | t.Ok() && Addr(view2, files2[inum], t) != 0 ensures Needed(t, more) {
      if Addr(view1, files1[inum], t) != 0 {
        var bn: nat :| bn * BSIZE < size && t in Path(bn);
      } else {
        var bn: nat :| lo <= bn < hi && t in Path(bn);
        assert bn * BSIZE < more;
      }
    }
  }

  /** The size of a file after n bytes at off. */
  function SizeWith(size: nat, off: nat, n: nat): nat {
    if size < off + n then off + n else size
  }

  /** What writei accepts. */
  predicate CanWrite(size: nat, off: nat, n: nat) {
    off <= size && off + n <= MAXFILE * BSIZE
  }

  /** The blocks written so far are there. */
  lemma LeavesThere(view: View, addrs: Addrs, size: nat, off: nat, tot: nat)
    requires HoleFree(view, addrs, size) && off + tot <= size && EndBlock(off, tot) <= MAXFILE
    ensures forall bn: nat :: off / BSIZE <= bn < EndBlock(off, tot) ==> Addr(view, addrs, BlockSlot(bn)) != 0
  {
    hide Addr, BlockSlot;
  }

  lemma ChunkHoleFree(sb: Super, s1: State, s2: State, inum: nat, size: nat, off: nat, s: seq<Byte>)
    requires 0 < |s| <= BSIZE - off % BSIZE && off + |s| <= MAXFILE * BSIZE && off <= size
    requires Wrote(sb, s1, s2, inum, off, s, off / BSIZE, off / BSIZE + 1)
    requires HoleFree(s1.view, s1.files[inum], size) && Addr(s2.view, s2.files[inum], BlockSlot(off / BSIZE)) != 0
    ensures HoleFree(s2.view, s2.files[inum], SizeWith(size, off, |s|))
  {
    hide Addr, BlockSlot, Written, Grown, LoggedFor, HoleFree;
    HoleFreeMore(s1.view, s1.files, s2.view, s2.files, inum, Paths(off / BSIZE, off / BSIZE + 1), size, off, |s|);
  }

  lemma WroteFacts(sb: Super, s0: State, s1: State, inum: nat, off: nat, src: seq<Byte>)
    requires EndBlock(off, |src|) <= MAXFILE && Wrote(sb, s0, s1, inum, off, src, off / BSIZE, EndBlock(off, |src|))
    ensures Written(s0.view, s0.files, s1.view, s1.files, inum, off, src)
    ensures |s1.view| == |s0.view| && sb.InodeBlocks() + 3 <= |s1.view|
    ensures s1.view[..sb.InodeBlocks() + 3] == s0.view[..sb.InodeBlocks() + 3]
  {
  }

  lemma WroteTight(sb: Super, s0: State, s1: State, inum: nat, size: nat, off: nat, src: seq<Byte>)
    requires off <= size && off + |src| <= MAXFILE * BSIZE && EndBlock(off, |src|) <= MAXFILE
    requires Wrote(sb, s0, s1, inum, off, src, off / BSIZE, EndBlock(off, |src|))
    requires Tight(s0.view, s0.files[inum], size) && HoleFree(s1.view, s1.files[inum], SizeWith(size, off, |src|))
    ensures Tight(s1.view, s1.files[inum], SizeWith(size, off, |src|))
  {
    hide Addr, Written, Grown, LoggedFor, Slotted, Tight, HoleFree;
    TightMore(s0.view, s0.files, s1.view, s1.files, inum, size, SizeWith(size, off, |src|), off / BSIZE,
              EndBlock(off, |src|));
  }

  lemma SameSlots(view: View, view': View, addrs: Addrs, size: nat)
    requires forall s: Slot :: s.Ok() ==> Addr(view', addrs, s) == Addr(view, addrs, s)
    ensures HoleFree(view, addrs, size) ==> HoleFree(view', addrs, size)
    ensures Tight(view, addrs, size) ==> Tight(view', addrs, size)
  {
    hide Addr, BlockSlot;
  }

  /** A block taken for an empty slot, put together from what balloc and the store do. */
  lemma TookOne(sb: Super, s0: State, s1: State, inum: nat, t: Slot, r: nat)
    requires t.Ok() && r !in s0.owner && s1.owner == s0.owner[r := Owner(inum, t)] && Apart(sb, s0, s1, inum)
    requires Addr(s0.view, s0.files[inum], t) == 0
    requires forall i: nat, s: Slot :: i in s0.files && s.Ok() ==>
               Addr(s1.view, s1.files[i], s) == if i == inum && s == t then r else Addr(s0.view, s0.files[i], s)
    requires forall i: nat, p: nat :: i in s0.files && p < MAXFILE * BSIZE ==>
               FileByte(s1.view, s1.files[i], p) == FileByte(s0.view, s0.files[i], p)
    requires var some := Log(Log(s0.logged, sb.BitmapBlock(r)), r);
             s1.logged == if InInode(t) then some else Log(some, Addr(s1.view, s1.files[inum], Up(t)))
    ensures Took(sb, s0, s1, inum, {t})
  {
    hide Addr, FileByte, LoggedFor;
    MarksOne(sb, s0.logged, s1.view, s1.files[inum], s0.owner, r, inum, t);
  }

  lemma ApartOne(sb: Super, s0: State, s1: State, inum: nat, addrs: Addrs)
    requires inum in s0.files && s1.files == s0.files[inum := addrs] && |s1.view| == |s0.view|
    requires sb.InodeBlocks() + 3 <= |s1.view| && s1.view[..sb.InodeBlocks() + 3] == s0.view[..sb.InodeBlocks() + 3]
    requires s0.writes <= s1.writes
    ensures Apart(sb, s0, s1, inum)
  {
  }

  lemma FreeFewer(sb: Super, owner: map<nat, Owner>, r: nat, o: Owner)
    requires r < sb.size && sb.IsData(r) && r !in owner
    ensures |FreeData(sb, owner[r := o])| == |FreeData(sb, owner)| - 1
  {
    assert FreeData(sb, owner[r := o]) == FreeData(sb, owner) - {r};
  }

  class FileSystem {
    const sb: Super
    var view: View
    var logged: seq<nat>
    ghost var base: View                // what bread showed when the transaction began
    ghost var writes: seq<Write>        // its calls of log_write
    ghost var files: map<nat, Addrs>    // the addresses of every inode in use
    ghost var owner: map<nat, Owner>

    ghost predicate Valid()
      reads this
    {
      && DiskOk(view, sb, files, owner) && Journal(base, writes, view, logged)
      && forall x :: x in logged ==> x < sb.LogStart()
    }

    /** The sectors below the bitmap: boot block, superblock, inodes. */
    function InodeArea(): nat {
      sb.InodeBlocks() + 3
    }

    lemma Facts()
      requires Valid()
      ensures sb.Ok() && sb.size <= |view| && InodeArea() <= sb.DataStart() <= sb.LogStart() <= sb.size
      ensures forall a :: a in owner ==> InodeArea() <= a < sb.LogStart()
    {
    }

    ghost function Now(): State
      reads this
    {
      State(view, files, owner, logged, writes)
    }

    ghost predicate Locked(ip: Inode)
      reads this, ip
    {
      ip.inum in files && files[ip.inum] == ip.addrs
    }

    constructor (sb: Super, view: View, ghost files: map<nat, Addrs>, ghost owner: map<nat, Owner>)
      requires DiskOk(view, sb, files, owner)
      ensures Valid() && this.sb == sb && this.view == view && this.files == files && this.owner == owner
      ensures writes == []
    {
      this.sb, this.view, this.files, this.owner := sb, view, files, owner;
      logged, writes, base := [], [], view;
    }

    /** begin_trans: the header is empty. */
    method Begin()
      requires Valid()
      modifies this`logged, this`writes, this`base
      ensures Valid() && logged == [] && writes == [] && base == view
    {
      logged, writes, base := [], [], view;
    }

    method LogWrite(s: nat, b: Block)
      requires s < |view| && Journal(base, writes, view, logged)
      modifies this`view, this`logged, this`writes
      ensures view == old(view)[s := b] && logged == Log(old(logged), s) && writes == old(writes) + [(s, b)]
      ensures Journal(base, writes, view, logged)
    {
      hide Journal;
      JournalStep(base, writes, view, logged, s, b);
      view := view[s := b];
      logged := if s in logged then logged else logged + [s];
      writes := writes + [(s, b)];
    }

    /** The scan of balloc: bitmap block by bitmap block, bit by bit. */
    method FindFree() returns (r: Option<nat>)
      requires sb.Ok() && sb.size <= |view|
      ensures match r
              case Some(b) => IsFirstFree(view, sb, b)
              case None => forall a: nat :: a < sb.size ==> BitSet(view, sb, a)
    {
      hide BitAt;
      var b := 0;
      while b < sb.size
        invariant b % BPB == 0
        invariant forall a: nat :: a < b && a < sb.size ==> BitSet(view, sb, a)
      {
        var bp := view[sb.BitmapBlock(b)];
        var bi := 0;
        while bi < BPB && b + bi < sb.size
          invariant bi <= BPB
          invariant forall a: nat :: a < b + bi && a < sb.size ==> BitSet(view, sb, a)
        {
          assert (b + bi) % BPB == bi && sb.BitmapBlock(b + bi) == sb.BitmapBlock(b);
          assert BitSet(view, sb, b + bi) == BitAt(bp, bi);
          if !BitAt(bp, bi) {
            return Some(b + bi);
          }
          bi := bi + 1;
        }
        b := b + BPB;
      }
      return None;
    }

    /** balloc: takes the lowest block whose bit is clear and zeroes it. */
    method Balloc() returns (r: Option<nat>)
      requires sb.Ok() && sb.size <= |view| && Journal(base, writes, view, logged)
      modifies this`view, this`logged, this`writes
      ensures Journal(base, writes, view, logged)
      ensures match r
              case Some(b) =>
                && IsFirstFree(old(view), sb, b) && view == Taken(old(view), sb, b)
                && logged == Log(Log(old(logged), sb.BitmapBlock(b)), b)
              case None =>
                && view == old(view) && logged == old(logged) && writes == old(writes)
                && forall a: nat :: a < sb.size ==> BitSet(view, sb, a)
      ensures r.Some? && r.value >= InodeArea() ==> view[..InodeArea()] == old(view)[..InodeArea()]
      ensures old(writes) <= writes
    {
      hide BitAt, SetBit, BitSet, Journal;
      r := FindFree();
      if r.Some? {
        var b := r.value;
        sb.BitmapBlockFacts(b);
        LogWrite(sb.BitmapBlock(b), SetBit(view[sb.BitmapBlock(b)], b % BPB));
        LogWrite(b, ZeroBlock());
      }
    }

    /** Stores a block number in a slot, in memory for one in the inode and with log_write for another. */
    method Store(ip: Inode, t: Slot, r: Word)
      requires t.Ok() && (InInode(t) || 0 < Parent(view, ip.addrs, t) < |view|) && Journal(base, writes, view, logged)
      modifies this`view, this`logged, this`writes, ip`addrs
      ensures Journal(base, writes, view, logged) && old(writes) <= writes
      ensures ip.addrs == SlotAddrs(old(ip.addrs), t, r) && view == SlotView(old(view), old(ip.addrs), t, r)
      ensures logged == if InInode(t) then old(logged) else Log(old(logged), old(Parent(view, ip.addrs, t)))
      ensures InodeArea() <= |view| && (InInode(t) || old(Parent(view, ip.addrs, t)) >= InodeArea()) ==>
                view[..InodeArea()] == old(view)[..InodeArea()]
    {
      hide PutWord, GetWord, Journal;
      match t {
        case Direct(i) => ip.addrs := ip.addrs[i := r];
        case Ind => ip.addrs := ip.addrs[NDIRECT := r];
        case Dind => ip.addrs := ip.addrs[NDIRECT + 1 := r];
        case _ =>
          var p := Parent(view, ip.addrs, t);
          LogWrite(p, PutWord(view[p], EntryIndex(t), r));
      }
    }

    lemma TookNothing(inum: nat, slots: set<Slot>)
      requires Valid() && inum in files
      ensures Took(sb, Now(), Now(), inum, slots)
    {
      hide Addr, FileByte, Marks;
      Facts();
    }

    /** balloc while a data sector is free: that is what it finds. */
    method TakeData() returns (r: nat)
      requires Valid() && FreeData(sb, owner) != {}
      modifies this`view, this`logged, this`writes
      ensures r < sb.size && sb.IsData(r) && r !in owner && sb.Ok() && sb.size <= |old(view)|
      ensures view == Taken(old(view), sb, r)
      ensures logged == Log(Log(old(logged), sb.BitmapBlock(r)), r) && old(writes) <= writes
      ensures Journal(base, writes, view, logged)
      ensures InodeArea() <= |view| && view[..InodeArea()] == old(view)[..InodeArea()]
      ensures sb.BitmapBlock(r) < sb.LogStart()
    {
      hide Owns, BitSet, Journal, Taken;
      var b := Balloc();
      NotFull(old(view), sb, owner);
      r := b.value;
      FirstFreeIsData(old(view), sb, owner, r);
      sb.BitmapBlockFacts(r);
    }

    /** A block from balloc, stored in an empty slot of the inode. */
    method Allocate(ip: Inode, t: Slot) returns (r: Word)
      requires Valid() && Locked(ip) && t.Ok() && Addr(view, ip.addrs, t) == 0
      requires InInode(t) || 0 < Parent(view, ip.addrs, t) < |view|
      requires FreeData(sb, owner) != {}
      modifies this`view, this`logged, this`writes, this`files, this`owner, ip`addrs
      ensures Valid() && Locked(ip) && r != 0 && Addr(view, ip.addrs, t) == r
      ensures Took(sb, old(Now()), Now(), ip.inum, {t})
      ensures |FreeData(sb, owner)| == |old(FreeData(sb, owner))| - 1
    {
      hide FileByte, Addr, DiskOk, Taken, SlotView, SlotAddrs, Took, Journal, FreeData, Apart, Super.BitmapBlock;
      hide Super.InodeBlocks;
      assert InInode(t) || InodeArea() <= Parent(view, ip.addrs, t) < sb.LogStart() by {
        if !InInode(t) {
          SlotHolds(view, sb, files, owner, ip.inum, Up(t));
          Facts();
        }
      }
      ghost var p := Parent(view, ip.addrs, t);
      r := TakeData();
      AllocateOk(old(view), sb, files, owner, ip.inum, t, r);
      Store(ip, t, r);
      files := files[ip.inum := ip.addrs];
      FreeFewer(sb, owner, r, Owner(ip.inum, t));
      owner := owner[r := Owner(ip.inum, t)];
      assert InInode(t) || Addr(view, ip.addrs, Up(t)) == p;
      ApartOne(sb, old(Now()), Now(), ip.inum, ip.addrs);
      TookOne(sb, old(Now()), Now(), ip.inum, t, r);
    }

    /** The part of bmap for one slot: the block number in it, from balloc if there was none. */
    method Ensure(ip: Inode, t: Slot) returns (r: Word)
      requires Valid() && Locked(ip) && t.Ok()
      requires InInode(t) || Addr(view, ip.addrs, Up(t)) != 0
      requires |FreeData(sb, owner)| >= Empty(view, ip.addrs, t)
      modifies this`view, this`logged, this`writes, this`files, this`owner, ip`addrs
      ensures Valid() && Locked(ip) && 0 < r < |view| && Addr(view, ip.addrs, t) == r
      ensures Took(sb, old(Now()), Now(), ip.inum, {t})
      ensures |FreeData(sb, owner)| == |old(FreeData(sb, owner))| - old(Empty(view, ip.addrs, t))
      ensures old(Addr(view, ip.addrs, t)) != 0 ==> Now() == old(Now()) && ip.addrs == old(ip.addrs)
    {
      hide FileByte, BitSet, Took, Addr, Journal;
      r := Addr(view, ip.addrs, t);
      if r == 0 {
        if !InInode(t) {
          SlotHolds(view, sb, files, owner, ip.inum, Up(t));
        }
        r := Allocate(ip, t);
      } else {
        TookNothing(ip.inum, {t});
      }
      SlotHolds(view, sb, files, owner, ip.inum, t);
    }

    /** A step of bmap past the first, from a state reached by taking blocks for slots0. */
    method EnsureBelow(ip: Inode, t: Slot, ghost s0: State, ghost slots0: set<Slot>) returns (r: Word)
      requires Valid() && Locked(ip) && t.Ok() && !InInode(t) && Addr(view, ip.addrs, Up(t)) != 0
      requires Took(sb, s0, Now(), ip.inum, slots0) && t !in slots0
      requires |FreeData(sb, owner)| >= Empty(s0.view, s0.files[ip.inum], t)
      modifies this`view, this`logged, this`writes, this`files, this`owner, ip`addrs
      ensures Valid() && Locked(ip) && 0 < r < |view| && Addr(view, ip.addrs, t) == r
      ensures Took(sb, s0, Now(), ip.inum, slots0 + {t})
      ensures |FreeData(sb, owner)| == |old(FreeData(sb, owner))| - Empty(s0.view, s0.files[ip.inum], t)
      ensures Addr(s0.view, s0.files[ip.inum], t) != 0 ==> Now() == old(Now()) && ip.addrs == old(ip.addrs)
    {
      hide FileByte, BitsOk, Addr, Owns, LoggedFor, Journal, SameBytes, Grown, FreeData;
      assert Addr(view, files[ip.inum], t) == Addr(s0.view, s0.files[ip.inum], t);
      r := Ensure(ip, t);
      TookTrans(sb, s0, old(Now()), Now(), ip.inum, slots0, {t});
    }

    /** bmap: the block for position bn of the file, with whatever it takes to get there allocated. It takes one
        block for each empty slot on the way and needs no more. Nothing any file reads changes, no block number
        moves, and exactly the new blocks, their bitmap sectors and the blocks that list them are logged. */
    method Bmap(ip: Inode, bn: nat) returns (r: Word)
      requires Valid() && Locked(ip) && bn < MAXFILE && |FreeData(sb, owner)| >= Need(view, ip.addrs, bn)
      modifies this`view, this`logged, this`writes, this`files, this`owner, ip`addrs
      ensures Valid() && Locked(ip) && 0 < r < |view| && Addr(view, ip.addrs, BlockSlot(bn)) == r
      ensures Took(sb, old(Now()), Now(), ip.inum, Path(bn))
      ensures |FreeData(sb, owner)| == |old(FreeData(sb, owner))| - old(Need(view, ip.addrs, bn))
      ensures old(Need(view, ip.addrs, bn)) == 0 ==> Now() == old(Now()) && ip.addrs == old(ip.addrs)
    {
      hide FileByte, DiskOk, Addr, Took, FreeData, Journal;
      if bn < NDIRECT {
        r := Ensure(ip, Direct(bn));
        return;
      }
      var n := bn - NDIRECT;
      if n < NINDIRECT {
        var a := Ensure(ip, Ind);
        r := EnsureBelow(ip, IndEntry(n), old(Now()), {Ind});
        assert {Ind} + {IndEntry(n)} == Path(bn);
        return;
      }
      r := BmapDouble(ip, bn);
    }

    /** bmap through the double-indirect block. */
    method BmapDouble(ip: Inode, bn: nat) returns (r: Word)
      requires Valid() && Locked(ip) && NDIRECT + NINDIRECT <= bn < MAXFILE
      requires |FreeData(sb, owner)| >= Need(view, ip.addrs, bn)
      modifies this`view, this`logged, this`writes, this`files, this`owner, ip`addrs
      ensures Valid() && Locked(ip) && 0 < r < |view| && Addr(view, ip.addrs, BlockSlot(bn)) == r
      ensures Took(sb, old(Now()), Now(), ip.inum, Path(bn))
      ensures |FreeData(sb, owner)| == |old(FreeData(sb, owner))| - old(Need(view, ip.addrs, bn))
      ensures old(Need(view, ip.addrs, bn)) == 0 ==> Now() == old(Now()) && ip.addrs == old(ip.addrs)
    {
      hide FileByte, DiskOk, Addr, Took, FreeData, Journal;
      var n := bn - NDIRECT - NINDIRECT;
      var i, j := n / NINDIRECT, n % NINDIRECT;
      var a := Ensure(ip, Dind);
      r := EnsureBelow(ip, DindEntry(i), old(Now()), {Dind});
      r := EnsureBelow(ip, DindLeaf(i, j), old(Now()), {Dind} + {DindEntry(i)});
      assert {Dind} + {DindEntry(i)} + {DindLeaf(i, j)} == Path(bn);
    }

    /** bmap_read */
    method BmapRead(ip: Inode, bn: nat) returns (r: Word)
      requires Valid() && Locked(ip)
      ensures r == if bn < MAXFILE then Addr(view, ip.addrs, BlockSlot(bn)) else 0
      ensures r == 0 || r < |view|
    {
      hide GetWord, BitsOk;
      if bn < NDIRECT {
        assert Addr(view, files[ip.inum], Direct(bn)) == ip.addrs[bn];
        return ip.addrs[bn];
      }
      var n := bn - NDIRECT;
      if n < NINDIRECT {
        var a := ip.addrs[NDIRECT];
        assert Addr(view, files[ip.inum], Ind) == a;
        if a == 0 {
          return 0;
        }
        assert Addr(view, files[ip.inum], IndEntry(n)) == GetWord(view[a], n);
        return GetWord(view[a], n);
      }
      n := n - NINDIRECT;
      if n < NINDIRECT * NINDIRECT {
        var a := ip.addrs[NDIRECT + 1];
        assert Addr(view, files[ip.inum], Dind) == a;
        if a == 0 {
          return 0;
        }
        var e := GetWord(view[a], n / NINDIRECT);
        assert Addr(view, files[ip.inum], DindEntry(n / NINDIRECT)) == e;
        if e == 0 {
          return 0;
        }
        assert Addr(view, files[ip.inum], DindLeaf(n / NINDIRECT, n % NINDIRECT)) == GetWord(view[e], n % NINDIRECT);
        return GetWord(view[e], n % NINDIRECT);
      }
      return 0;
    }

    /** readi for a file that is no device: the bytes from off on, at most n and not past the size. */
    method Readi(ip: Inode, off: Word, n: Word) returns (r: Option<seq<Byte>>)
      requires Valid() && Locked(ip)
      ensures r.None? <==> off > ip.size || off + n >= 0x1_0000_0000
      ensures r.Some? ==> |r.value| == if off + n > ip.size then ip.size - off else n
      ensures r.Some? ==> forall i :: 0 <= i < |r.value| ==>
                r.value[i] == if off + i < MAXFILE * BSIZE then FileByte(view, ip.addrs, off + i) else 0
    {
      hide Addr, Owns, BitsOk;
      if off > ip.size || off + n >= 0x1_0000_0000 {
        return None;
      }
      var count := if off + n > ip.size then ip.size - off else n;
      var dst: seq<Byte> := [];
      var tot := 0;
      while tot < count
        invariant tot == |dst| <= count
        invariant forall i :: 0 <= i < tot ==>
                    dst[i] == if off + i < MAXFILE * BSIZE then FileByte(view, ip.addrs, off + i) else 0
      {
        var at := (off + tot) % BSIZE;
        var m := if count - tot < BSIZE - at then count - tot else BSIZE - at;
        var a := BmapRead(ip, (off + tot) / BSIZE);
        var chunk := if a == 0 then ZeroBlock()[..m] else view[a][at..at + m];
        forall i | 0 <= i < m
          ensures chunk[i] == if off + tot + i < MAXFILE * BSIZE then FileByte(view, ip.addrs, off + tot + i) else 0
        {
          assert (off + tot + i) / BSIZE == (off + tot) / BSIZE && (off + tot + i) % BSIZE == at + i;
        }
        dst := dst + chunk;
        tot := tot + m;
      }
      return Some(dst);
    }

    /** One iteration of writei: the block at off, with part of it overwritten. */
    method WriteChunk(ip: Inode, off: nat, s: seq<Byte>)
      requires Valid() && Locked(ip) && 0 < |s| <= BSIZE - off % BSIZE && off + |s| <= MAXFILE * BSIZE
      requires |FreeData(sb, owner)| >= Need(view, ip.addrs, off / BSIZE)
      modifies this`view, this`logged, this`writes, this`files, this`owner, ip`addrs
      ensures Valid() && Locked(ip) && Addr(view, ip.addrs, BlockSlot(off / BSIZE)) != 0
      ensures Wrote(sb, old(Now()), Now(), ip.inum, off, s, off / BSIZE, off / BSIZE + 1)
      ensures |FreeData(sb, owner)| == |old(FreeData(sb, owner))| - old(Need(view, ip.addrs, off / BSIZE))
      ensures old(Need(view, ip.addrs, off / BSIZE)) == 0 ==> ip.addrs == old(ip.addrs)
    {
      hide FileByte, BitsOk, Path, Addr, BlockSlot, Need, Written, Took, Wrote, Owns, DiskOk, Journal, FreeData;
      var a := Bmap(ip, off / BSIZE);
      Facts();
      ghost var s1 := Now();
      var at := off % BSIZE;
      var b := view[a][..at] + s + view[a][at + |s|..];
      ghost var bn := off / BSIZE;
      SlotHolds(view, sb, files, owner, ip.inum, BlockSlot(bn));
      DataWriteOk(view, sb, files, owner, a, b);
      LogWrite(a, b);
      ChunkWritten(s1.view, files, view, ip.inum, off, s, a, b);
      TookThenWrote(sb, old(Now()), s1, Now(), ip.inum, off, s, bn, a);
    }

    /** The inode in memory and its record on the disk are the same. */
    ghost predicate Agrees(ip: Inode)
      reads this, ip
    {
      && sb.Ok() && sb.size <= |view| && ip.inum < sb.ninodes
      && IsDinode(view[sb.InodeBlock(ip.inum)], ip.inum, Dinode(ip.head0, ip.head1, ip.size, ip.addrs))
    }

    /** iupdate: the record of the inode on the disk becomes the inode in memory, and no other record changes. */
    method Iupdate(ip: Inode)
      requires Valid() && Locked(ip) && ip.inum < sb.ninodes
      modifies this`view, this`logged, this`writes
      ensures Valid() && Agrees(ip)
      ensures var ib := sb.InodeBlock(ip.inum);
              && ib < InodeArea() && ib < |view| == |old(view)| && view == old(view)[ib := view[ib]]
              && logged == Log(old(logged), ib)
              && SameOtherDinodes(old(view)[ib], view[ib], ip.inum) && writes == old(writes) + [(ib, view[ib])]
      ensures SameBytes(old(view), files, view, files)
      ensures forall s: Slot :: s.Ok() ==> Addr(view, ip.addrs, s) == old(Addr(view, ip.addrs, s))
    {
      hide FileByte, Addr, BitsOk, Owns, GetWord, PutWord, WordBytes, Journal, IsDinode;
      Facts();
      var ib := sb.InodeBlock(ip.inum);
      var b := PutDinode(view[ib], ip.inum, Dinode(ip.head0, ip.head1, ip.size, ip.addrs));
      MetaWriteOk(view, sb, files, owner, ib, b);
      LogWrite(ib, b);
    }

    /** Where writei stands after tot bytes: it has taken no more blocks than the file as it is now takes. */
    ghost predicate Writing(s0: State, ip: Inode, off: nat, src: seq<Byte>, tot: nat)
      requires tot <= |src| && off + |src| <= MAXFILE * BSIZE
      reads this, ip
    {
      && Valid() && Locked(ip) && off <= ip.size
      && Wrote(sb, s0, Now(), ip.inum, off, src[..tot], off / BSIZE, EndBlock(off, tot))
      && HoleFree(view, ip.addrs, SizeWith(ip.size, off, tot))
      && |FreeData(sb, owner)| + BlocksFor(SizeWith(ip.size, off, tot)) >= |FreeData(sb, s0.owner)| + BlocksFor(ip.size)
    }

    method WriteStep(ip: Inode, off: nat, src: seq<Byte>, tot: nat, m: nat, ghost s0: State)
      requires tot < |src| && off + |src| <= MAXFILE * BSIZE && Writing(s0, ip, off, src, tot)
      requires 0 < m <= |src| - tot && m <= BSIZE - (off + tot) % BSIZE
      requires (m == |src| - tot || m == BSIZE - (off + tot) % BSIZE)
      requires tot == 0 || (off + tot) % BSIZE == 0
      requires |FreeData(sb, s0.owner)| + BlocksFor(ip.size) >= BlocksFor(SizeWith(ip.size, off, |src|))
      modifies this`view, this`logged, this`writes, this`files, this`owner, ip`addrs
      ensures Writing(s0, ip, off, src, tot + m)
      ensures off + |src| <= ip.size ==> ip.addrs == old(ip.addrs)
    {
      hide FileByte, Addr, BlockSlot, Need, Owns, BitsOk, FreeData, BlocksFor, Wrote, HoleFree, Journal;
      ghost var size, bn, s1 := SizeWith(ip.size, off, tot), (off + tot) / BSIZE, Now();
      ChunkArithmetic(off, |src|, tot, m);
      NextNeed(view, ip.addrs, size, off + tot, m);
      BlocksGrow(SizeWith(ip.size, off, tot + m), SizeWith(ip.size, off, |src|));
      if off + |src| <= ip.size {
        NeedNothing(view, ip.addrs, ip.size, bn);
      }
      LeavesThere(view, ip.addrs, size, off, tot);
      WriteChunk(ip, off + tot, src[tot..tot + m]);
      assert src[..tot] + src[tot..tot + m] == src[..tot + m];
      WroteTrans(sb, s0, s1, Now(), ip.inum, off, src[..tot], src[tot..tot + m], off / BSIZE, bn, bn + 1);
      ChunkHoleFree(sb, s1, Now(), ip.inum, size, off + tot, src[tot..tot + m]);
    }

    /** The loop of writei. */
    method WriteAll(ip: Inode, off: nat, src: seq<Byte>)
      requires Valid() && Locked(ip) && HoleFree(view, ip.addrs, ip.size) && off <= ip.size
      requires off + |src| <= MAXFILE * BSIZE
      requires |FreeData(sb, owner)| + BlocksFor(ip.size) >= BlocksFor(SizeWith(ip.size, off, |src|))
      modifies this`view, this`logged, this`writes, this`files, this`owner, ip`addrs
      ensures Writing(old(Now()), ip, off, src, |src|)
      ensures off + |src| <= ip.size ==> ip.addrs == old(ip.addrs)
    {
      hide FileByte, Addr, BlockSlot, Owns, BitsOk, FreeData, BlocksFor, Wrote, Journal;
      ghost var s0 := Now();
      WritingStarts(ip, off, src);
      var tot := 0;
      while tot < |src|
        invariant tot <= |src| && Writing(s0, ip, off, src, tot)
        invariant tot == 0 || tot == |src| || (off + tot) % BSIZE == 0
        invariant off + |src| <= ip.size ==> ip.addrs == old(ip.addrs)
      {
        hide FileByte, Addr, BlockSlot, Owns, BitsOk, FreeData, BlocksFor, Wrote, Journal, Writing;
        var m := if |src| - tot < BSIZE - (off + tot) % BSIZE then |src| - tot else BSIZE - (off + tot) % BSIZE;
        ChunkArithmetic(off, |src|, tot, m);
        WriteStep(ip, off, src, tot, m, s0);
        tot := tot + m;
      }
    }

    lemma WritingStarts(ip: Inode, off: nat, src: seq<Byte>)
      requires Valid() && Locked(ip) && HoleFree(view, ip.addrs, ip.size) && off <= ip.size
      requires off + |src| <= MAXFILE * BSIZE
      ensures Writing(Now(), ip, off, src, 0)
    {
      hide FileByte, Addr, BlockSlot, Owns, LoggedFor, Journal;
      Facts();
      NothingLogged(sb, logged, view, ip.addrs, owner, off / BSIZE);
      assert src[..0] == [];
    }

    /** writei for a file that is no device. It refuses a start past the end and an end past the largest file;
        otherwise the file reads as before with src laid over it, no other file changes, the file still has no hole,
        nor a block past its end if it had none, and an inode that agreed with its record on the disk still does. It
        needs only the blocks by which the file grows. `before` is the state before the inode is logged, which
        happens last and only when the file grows. */
    method Writei(ip: Inode, off: Word, src: seq<Byte>) returns (ok: bool, ghost before: State)
      requires Valid() && Locked(ip) && ip.inum < sb.ninodes && HoleFree(view, ip.addrs, ip.size)
      requires CanWrite(ip.size, off, |src|) ==>
                 |FreeData(sb, owner)| + BlocksFor(ip.size) >= BlocksFor(SizeWith(ip.size, off, |src|))
      modifies this`view, this`logged, this`writes, this`files, this`owner, ip`addrs, ip`size
      ensures Valid() && Locked(ip) && HoleFree(view, ip.addrs, ip.size)
      ensures ok <==> CanWrite(old(ip.size), off, |src|)
      ensures !ok ==> Now() == before == old(Now()) && ip.size == old(ip.size) && ip.addrs == old(ip.addrs)
      ensures ok ==>
                && Written(old(view), old(files), view, files, ip.inum, off, src)
                && ip.size == SizeWith(old(ip.size), off, |src|)
                && EndBlock(off, |src|) <= MAXFILE
                && Wrote(sb, old(Now()), before, ip.inum, off, src, off / BSIZE, EndBlock(off, |src|))
                && HoleFree(before.view, before.files[ip.inum], ip.size)
                && (if ip.size == old(ip.size) then Now() == before else Recorded(before, ip))
      ensures DiskOk(before.view, sb, before.files, before.owner)
      ensures Journal(base, before.writes, before.view, before.logged)
      ensures old(Agrees(ip)) ==> Agrees(ip)
      ensures old(Tight(view, ip.addrs, ip.size)) ==> Tight(view, ip.addrs, ip.size)
      ensures |FreeData(sb, owner)| + BlocksFor(ip.size) >= |old(FreeData(sb, owner))| + BlocksFor(old(ip.size))
    {
      hide FileByte, Addr, BlockSlot, Owns, BitsOk, IsDinode, Wrote, FreeData, BlocksFor, Tight, Journal;
      Facts();
      before := Now();
      if off > ip.size || off + |src| >= 0x1_0000_0000 || off + |src| > MAXFILE * BSIZE {
        return false, before;
      }
      WriteAll(ip, off, src);
      before := Now();
      assert src[..|src|] == src;
      WroteFacts(sb, old(Now()), before, ip.inum, off, src);
      if old(Tight(view, ip.addrs, ip.size)) {
        WroteTight(sb, old(Now()), before, ip.inum, ip.size, off, src);
      }
      if |src| > 0 && off + |src| > ip.size {
        Grow(ip, off, src, old(Now()));
      }
      return true, before;
    }

    /** Only the inode was logged since. */
    ghost predicate Recorded(s1: State, ip: Inode)
      reads this, ip
    {
      var ib := sb.InodeBlock(ip.inum);
      && ib < InodeArea() && ib < |view| == |s1.view| && view == s1.view[ib := view[ib]]
      && SameOtherDinodes(s1.view[ib], view[ib], ip.inum)
      && files == s1.files && owner == s1.owner && logged == Log(s1.logged, ib)
      && writes == s1.writes + [(ib, view[ib])]
    }

    /** The end of writei: the new size, and the inode with it, go to the disk. */
    method Grow(ip: Inode, off: nat, src: seq<Byte>, ghost s0: State)
      requires off + |src| <= MAXFILE * BSIZE && Valid() && Locked(ip) && ip.size < off + |src| && ip.inum < sb.ninodes
      requires HoleFree(view, ip.addrs, off + |src|) && Written(s0.view, s0.files, view, files, ip.inum, off, src)
      modifies this`view, this`logged, this`writes, ip`size
      ensures Valid() && Locked(ip) && ip.size == off + |src| && HoleFree(view, ip.addrs, ip.size) && Agrees(ip)
      ensures Written(s0.view, s0.files, view, files, ip.inum, off, src) && Recorded(old(Now()), ip)
      ensures old(Tight(view, ip.addrs, off + |src|)) ==> Tight(view, ip.addrs, ip.size)
    {
      hide FileByte, Addr, BlockSlot, Owns, BitsOk, Written, IsDinode, SameBytes, Journal, SameOtherDinodes;
      ip.size := off + |src|;
      Iupdate(ip);
      Facts();
      WrittenSame(s0.view, s0.files, old(view), files, view, files, ip.inum, off, src);
      SameSlots(old(view), view, ip.addrs, ip.size);
    }
  }
}
