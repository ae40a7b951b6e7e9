/** Freeing blocks: bfree, itrunc and the free-block count. */
module Truncate {
  import opened Blocks
  import opened FileBlocks
  import opened FileChanges
  import opened FileSystem
  import opened FileWrite
  import opened FsLayout
  import opened Ownership
  import opened RedoLog
  import opened Ring

  /** Below the log, the bits that are set are those of the metadata and of the owned blocks, but for the
      blocks of inode inum in the slots freed so far. */
  ghost predicate Freeing(view: View, sb: Super, owner: map<nat, Owner>, inum: nat, freed: set<Slot>) {
    && sb.Ok() && sb.size <= |view|
    && (forall a :: a in owner ==> sb.IsData(a))
    && (forall a: nat :: a < sb.LogStart() ==>
          (BitSet(view, sb, a) <==>
             a < sb.DataStart() || (a in owner && !(owner[a].inum == inum && owner[a].slot in freed))))
  }

  lemma FreeOne(view: View, sb: Super, owner: map<nat, Owner>, inum: nat, freed: set<Slot>, s: Slot, a: nat)
    requires Freeing(view, sb, owner, inum, freed) && s !in freed && a in owner && owner[a] == Owner(inum, s)
    requires forall c :: c in owner && owner[c] == Owner(inum, s) ==> c == a
    ensures a < sb.size && BitSet(view, sb, a) && Freeing(MarkFree(view, sb, a), sb, owner, inum, freed + {s})
  {
    hide BitSet;
    forall c: nat | c < sb.LogStart()
      ensures BitSet(MarkFree(view, sb, a), sb, c) <==>
                c < sb.DataStart() || (c in owner && !(owner[c].inum == inum && owner[c].slot in freed + {s}))
    {
      MarkFreeAt(view, sb, a, c);
    }
  }

  /** bfree of a block whose bit is set; on one whose bit is clear it panics. */
  method Bfree(fs: FileSystem, b: nat)
    requires fs.sb.Ok() && b < fs.sb.size <= |fs.view| && BitSet(fs.view, fs.sb, b)
    requires Journal(fs.base, fs.writes, fs.view, fs.logged)
    modifies fs`view, fs`logged, fs`writes
    ensures fs.view == MarkFree(old(fs.view), fs.sb, b)
    ensures fs.logged == Log(old(fs.logged), fs.sb.BitmapBlock(b)) && Journal(fs.base, fs.writes, fs.view, fs.logged)
  {
    hide Journal;
    fs.sb.BitmapBlockFacts(b);
    fs.LogWrite(fs.sb.BitmapBlock(b), ClearBit(fs.view[fs.sb.BitmapBlock(b)], b % BPB));
  }

  /** Beyond logged0, exactly the bitmap sectors of the blocks in the slots freed so far are logged. */
  ghost predicate LoggedFreed(sb: Super, logged0: seq<nat>, logged: seq<nat>, owner: map<nat, Owner>, inum: nat,
                              freed: set<Slot>) {
    forall x {:trigger x in logged} :: x in logged <==> x in logged0 || MapFreed(sb, owner, inum, freed, x)
  }

  ghost predicate MapFreed(sb: Super, owner: map<nat, Owner>, inum: nat, freed: set<Slot>, x: nat) {
    exists a {:trigger owner[a]} :: a in owner && owner[a].inum == inum && owner[a].slot in freed &&
                                    x == sb.BitmapBlock(a)
  }

  /** What holds throughout itrunc: block numbers are where they were, only the bits of freed slots are clear, and
      only their bitmap sectors are logged. The inode in memory is being emptied; fs.files still has its addresses. */
  ghost predicate Truncating(fs: FileSystem, logged0: seq<nat>, inum: nat, freed: set<Slot>)
    reads fs
  {
    && inum in fs.files && Owns(fs.view, fs.files, fs.owner) && Journal(fs.base, fs.writes, fs.view, fs.logged)
    && Freeing(fs.view, fs.sb, fs.owner, inum, freed) && LoggedFreed(fs.sb, logged0, fs.logged, fs.owner, inum, freed)
  }

  lemma LoggedOne(sb: Super, logged0: seq<nat>, logged: seq<nat>, owner: map<nat, Owner>, inum: nat, freed: set<Slot>,
                  s: Slot, a: nat)
    requires LoggedFreed(sb, logged0, logged, owner, inum, freed) && a in owner && owner[a] == Owner(inum, s)
    requires forall c :: c in owner && owner[c] == Owner(inum, s) ==> c == a
    ensures LoggedFreed(sb, logged0, Log(logged, sb.BitmapBlock(a)), owner, inum, freed + {s})
  {
    hide Super.BitmapBlock;
    forall x: nat
      ensures MapFreed(sb, owner, inum, freed + {s}, x) <==>
                MapFreed(sb, owner, inum, freed, x) || x == sb.BitmapBlock(a)
    {
      if MapFreed(sb, owner, inum, freed, x) {
        var c :| c in owner && owner[c].inum == inum && owner[c].slot in freed && x == sb.BitmapBlock(c);
        assert owner[c].slot in freed + {s};
      }
      assert owner[a].slot in freed + {s};
    }
  }

  /** The block number in slot s, if there is one, given to bfree. It never meets a clear bit. */
  method FreeSlot(fs: FileSystem, inum: nat, s: Slot, a: Word, ghost logged0: seq<nat>, ghost freed: set<Slot>)
    requires Truncating(fs, logged0, inum, freed) && s.Ok() && s !in freed && a == Addr(fs.view, fs.files[inum], s)
    modifies fs`view, fs`logged, fs`writes
    ensures Truncating(fs, logged0, inum, freed + {s})
    ensures forall i: nat, t: Slot :: i in fs.files && t.Ok() ==>
              Addr(fs.view, fs.files[i], t) == old(Addr(fs.view, fs.files[i], t))
    ensures |fs.view| == |old(fs.view)|
    ensures forall x :: 0 <= x < |fs.view| && !(fs.InodeArea() <= x < fs.sb.DataStart()) ==>
              fs.view[x] == old(fs.view)[x]
  {
    hide Addr, BitSet, ClearBit, Owns, Freeing, LoggedFreed, Journal;
    FreeFacts(fs, inum, freed);
    if a != 0 {
      OwnedOnce(fs.view, fs.files, fs.owner, inum, s);
      FreeOne(fs.view, fs.sb, fs.owner, inum, freed, s, a);
      fs.sb.BitmapBlockFacts(a);
      WriteKeepsOwns(fs.view, fs.files, fs.owner, fs.sb.BitmapBlock(a),
                     ClearBit(fs.view[fs.sb.BitmapBlock(a)], a % BPB));
      LoggedOne(fs.sb, logged0, fs.logged, fs.owner, inum, freed, s, a);
      Bfree(fs, a);
    } else {
      FreeNone(fs, inum, logged0, freed, {s});
    }
  }

  lemma FreeFacts(fs: FileSystem, inum: nat, freed: set<Slot>)
    requires Freeing(fs.view, fs.sb, fs.owner, inum, freed)
    ensures fs.sb.Ok() && fs.sb.size <= |fs.view| && forall a :: a in fs.owner ==> fs.sb.DataStart() <= a
  {
    hide BitSet;
  }

  /** A block number in a slot is owned by that slot and no other. */
  lemma OwnedOnce(view: View, files: map<nat, Addrs>, owner: map<nat, Owner>, inum: nat, s: Slot)
    requires Owns(view, files, owner) && inum in files && s.Ok() && Addr(view, files[inum], s) != 0
    ensures var a := Addr(view, files[inum], s);
            a in owner && owner[a] == Owner(inum, s) && forall c :: c in owner && owner[c] == Owner(inum, s) ==> c == a
  {
    hide Addr;
  }

  /** Slots with no block in them count as freed. */
  lemma FreeNone(fs: FileSystem, inum: nat, logged0: seq<nat>, freed: set<Slot>, none: set<Slot>)
    requires Truncating(fs, logged0, inum, freed)
    requires forall s :: s in none ==> s.Ok() && Addr(fs.view, fs.files[inum], s) == 0
    ensures Truncating(fs, logged0, inum, freed + none)
  {
    hide Addr, BitSet;
  }

  ghost function IndEntries(n: nat): (r: set<Slot>)
    ensures forall s :: s in r <==> s.IndEntry? && s.i < n
  {
    set i: nat | i < n :: IndEntry(i)
  }

  ghost function LeavesOf(i: nat, n: nat): (r: set<Slot>)
    ensures forall s :: s in r <==> s.DindLeaf? && s.i == i && s.j < n
  {
    set j: nat | j < n :: DindLeaf(i, j)
  }

  /** The slots of the first n entries of the double-indirect block. */
  ghost function DindEntries(n: nat): (r: set<Slot>)
    ensures forall s :: s in r <==> (s.DindEntry? && s.i < n) || (s.DindLeaf? && s.i < n && s.j < NINDIRECT)
  {
    (set i: nat | i < n :: DindEntry(i)) + (set i: nat, j: nat | i < n && j < NINDIRECT :: DindLeaf(i, j))
  }

  /** The same for a slot in block p. */
  method FreeEntry(fs: FileSystem, inum: nat, s: Slot, p: Word, ghost logged0: seq<nat>, ghost freed: set<Slot>,
                   ghost view0: View)
    requires Truncating(fs, logged0, inum, freed) && s.Ok() && !InInode(s) && s !in freed
    requires p == Addr(fs.view, fs.files[inum], Up(s)) != 0 && Quiet(fs, view0)
    modifies fs`view, fs`logged, fs`writes
    ensures Truncating(fs, logged0, inum, freed + {s}) && Quiet(fs, view0)
    ensures p == Addr(fs.view, fs.files[inum], Up(s))
  {
    hide GetWord, Freeing;
    assert p in fs.owner;
    assert Addr(fs.view, fs.files[inum], s) == GetWord(fs.view[p], EntryIndex(s));
    FreeSlot(fs, inum, s, GetWord(fs.view[p], EntryIndex(s)), logged0, freed);
  }

  lemma TruncStarts(fs: FileSystem, inum: nat)
    requires fs.Valid() && inum in fs.files
    ensures Truncating(fs, fs.logged, inum, {})
  {
    hide Addr, BitSet, Journal;
  }

  /** itrunc on the direct blocks. */
  method TruncDirect(fs: FileSystem, ip: Inode) returns (ghost freed: set<Slot>)
    requires fs.Valid() && fs.Locked(ip)
    modifies fs`view, fs`logged, fs`writes, ip`addrs
    ensures Truncating(fs, old(fs.logged), ip.inum, freed) && forall s :: s in freed <==> s.Direct? && s.i < NDIRECT
    ensures ip.addrs[..NDIRECT] == NO_ADDRS[..NDIRECT] && ip.addrs[NDIRECT..] == old(ip.addrs)[NDIRECT..]
    ensures Quiet(fs, old(fs.view))
  {
    hide GetWord, Freeing, Owns, LoggedFreed;
    TruncStarts(fs, ip.inum);
    freed := {};
    var i := 0;
    while i < NDIRECT
      invariant i <= NDIRECT && Truncating(fs, old(fs.logged), ip.inum, freed) && Quiet(fs, old(fs.view))
      invariant forall s :: s in freed <==> s.Direct? && s.i < i
      invariant forall k :: 0 <= k < NADDRS ==> ip.addrs[k] == if k < i then 0 else fs.files[ip.inum][k]
    {
      hide GetWord, Freeing, Owns, LoggedFreed;
      FreeSlot(fs, ip.inum, Direct(i), ip.addrs[i], old(fs.logged), freed);
      ip.addrs := ip.addrs[i := 0];
      freed := freed + {Direct(i)};
      i := i + 1;
    }
  }

  /** Outside the bitmap nothing has changed. */
  ghost predicate Quiet(fs: FileSystem, view0: View)
    reads fs
  {
    && |fs.view| == |view0|
    && forall x :: 0 <= x < |view0| && !(fs.InodeArea() <= x < fs.sb.DataStart()) ==> fs.view[x] == view0[x]
  }

  /** itrunc on the indirect block and its entries. */
  method TruncSingle(fs: FileSystem, ip: Inode, ghost logged0: seq<nat>, ghost freed0: set<Slot>)
    returns (ghost freed: set<Slot>)
    requires Truncating(fs, logged0, ip.inum, freed0) && forall s :: s in freed0 ==> s.Direct?
    requires ip.addrs[NDIRECT] == fs.files[ip.inum][NDIRECT]
    modifies fs`view, fs`logged, fs`writes, ip`addrs
    ensures freed == freed0 + IndEntries(NINDIRECT) + {Ind} && Truncating(fs, logged0, ip.inum, freed)
    ensures ip.addrs == old(ip.addrs)[NDIRECT := 0] && Quiet(fs, old(fs.view))
  {
    hide GetWord, Freeing, Owns, IndEntries;
    var a := ip.addrs[NDIRECT];
    if a == 0 {
      FreeNone(fs, ip.inum, logged0, freed0, IndEntries(NINDIRECT) + {Ind});
      freed := freed0 + (IndEntries(NINDIRECT) + {Ind});
    } else {
      freed := TruncEntries(fs, ip.inum, a, logged0, freed0);
      FreeSlot(fs, ip.inum, Ind, a, logged0, freed);
      ip.addrs := ip.addrs[NDIRECT := 0];
      freed := freed + {Ind};
    }
  }

  /** The loop of itrunc over the entries of the indirect block. */
  method TruncEntries(fs: FileSystem, inum: nat, a: Word, ghost logged0: seq<nat>, ghost freed0: set<Slot>)
    returns (ghost freed: set<Slot>)
    requires Truncating(fs, logged0, inum, freed0) && a == Addr(fs.view, fs.files[inum], Ind) != 0
    requires forall s :: s in freed0 ==> !s.IndEntry?
    modifies fs`view, fs`logged, fs`writes
    ensures freed == freed0 + IndEntries(NINDIRECT) && Truncating(fs, logged0, inum, freed)
    ensures a == Addr(fs.view, fs.files[inum], Ind) && Quiet(fs, old(fs.view))
  {
    hide Addr, Owns, Freeing, GetWord;
    freed := freed0;
    var j := 0;
    while j < NINDIRECT
      invariant j <= NINDIRECT && Truncating(fs, logged0, inum, freed) && freed == freed0 + IndEntries(j)
      invariant a == Addr(fs.view, fs.files[inum], Ind) && Quiet(fs, old(fs.view))
    {
      hide Addr, Owns, Freeing, GetWord;
      FreeEntry(fs, inum, IndEntry(j), a, logged0, freed, old(fs.view));
      freed := freed + {IndEntry(j)};
      j := j + 1;
    }
  }

  /** The inner loop of itrunc: the blocks listed in entry i of the double-indirect block. */
  method TruncLeaves(fs: FileSystem, inum: nat, i: nat, a: Word, ghost logged0: seq<nat>, ghost freed0: set<Slot>)
    returns (ghost freed: set<Slot>)
    requires Truncating(fs, logged0, inum, freed0) && i < NINDIRECT
    requires a == Addr(fs.view, fs.files[inum], DindEntry(i)) != 0
    requires forall s :: s in freed0 ==> !(s.DindLeaf? && s.i == i)
    modifies fs`view, fs`logged, fs`writes
    ensures freed == freed0 + LeavesOf(i, NINDIRECT) && Truncating(fs, logged0, inum, freed)
    ensures a == Addr(fs.view, fs.files[inum], DindEntry(i)) && Quiet(fs, old(fs.view))
  {
    hide Addr, Owns, Freeing, GetWord;
    freed := freed0;
    var k := 0;
    while k < NINDIRECT
      invariant k <= NINDIRECT && Truncating(fs, logged0, inum, freed) && freed == freed0 + LeavesOf(i, k)
      invariant a == Addr(fs.view, fs.files[inum], DindEntry(i)) && Quiet(fs, old(fs.view))
    {
      hide Addr, Owns, Freeing, GetWord;
      FreeEntry(fs, inum, DindLeaf(i, k), a, logged0, freed, old(fs.view));
      freed := freed + {DindLeaf(i, k)};
      k := k + 1;
    }
  }

  /** One iteration of the outer loop of itrunc over the double-indirect block p. */
  method TruncEntry(fs: FileSystem, inum: nat, i: nat, p: Word, ghost logged0: seq<nat>, ghost freed0: set<Slot>,
                    ghost view0: View)
    requires Truncating(fs, logged0, inum, freed0 + DindEntries(i)) && Quiet(fs, view0)
    requires i < NINDIRECT && p == Addr(fs.view, fs.files[inum], Dind) != 0
    requires forall s :: s in freed0 ==> !s.Dind? && !s.DindEntry? && !s.DindLeaf?
    modifies fs`view, fs`logged, fs`writes
    ensures Truncating(fs, logged0, inum, freed0 + DindEntries(i + 1))
    ensures p == Addr(fs.view, fs.files[inum], Dind) && Quiet(fs, view0)
  {
    hide GetWord, Freeing, LeavesOf;
    assert p in fs.owner;
    var a := GetWord(fs.view[p], i);
    assert a == Addr(fs.view, fs.files[inum], DindEntry(i));
    ghost var freed := freed0 + DindEntries(i);
    if a == 0 {
      FreeNone(fs, inum, logged0, freed, LeavesOf(i, NINDIRECT) + {DindEntry(i)});
      freed := freed + (LeavesOf(i, NINDIRECT) + {DindEntry(i)});
    } else {
      freed := TruncLeaves(fs, inum, i, a, logged0, freed);
      FreeSlot(fs, inum, DindEntry(i), a, logged0, freed);
      freed := freed + {DindEntry(i)};
    }
    assert freed == freed0 + DindEntries(i + 1);
  }

  /** itrunc on the double-indirect block and everything under it. */
  method TruncDouble(fs: FileSystem, ip: Inode, ghost logged0: seq<nat>, ghost freed0: set<Slot>)
    returns (ghost freed: set<Slot>)
    requires Truncating(fs, logged0, ip.inum, freed0) && forall s :: s in freed0 ==>
               !s.Dind? && !s.DindEntry? && !s.DindLeaf?
    requires ip.addrs[NDIRECT + 1] == fs.files[ip.inum][NDIRECT + 1]
    modifies fs`view, fs`logged, fs`writes, ip`addrs
    ensures freed == freed0 + DindEntries(NINDIRECT) + {Dind} && Truncating(fs, logged0, ip.inum, freed)
    ensures ip.addrs == old(ip.addrs)[NDIRECT + 1 := 0] && Quiet(fs, old(fs.view))
  {
    hide GetWord, Freeing, Owns, DindEntries, LeavesOf;
    var p := ip.addrs[NDIRECT + 1];
    if p == 0 {
      FreeNone(fs, ip.inum, logged0, freed0, DindEntries(NINDIRECT) + {Dind});
      freed := freed0 + (DindEntries(NINDIRECT) + {Dind});
    } else {
      TruncDindEntries(fs, ip.inum, p, logged0, freed0);
      freed := freed0 + DindEntries(NINDIRECT);
      FreeSlot(fs, ip.inum, Dind, p, logged0, freed);
      ip.addrs := ip.addrs[NDIRECT + 1 := 0];
      freed := freed + {Dind};
    }
  }

  method TruncDindEntries(fs: FileSystem, inum: nat, p: Word, ghost logged0: seq<nat>, ghost freed0: set<Slot>)
    requires Truncating(fs, logged0, inum, freed0) && forall s :: s in freed0 ==>
               !s.Dind? && !s.DindEntry? && !s.DindLeaf?
    requires p == Addr(fs.view, fs.files[inum], Dind) != 0
    modifies fs`view, fs`logged, fs`writes
    ensures Truncating(fs, logged0, inum, freed0 + DindEntries(NINDIRECT))
    ensures p == Addr(fs.view, fs.files[inum], Dind) && Quiet(fs, old(fs.view))
  {
    hide Addr, Owns, Freeing, GetWord;
    var j := 0;
    assert freed0 + DindEntries(0) == freed0;
    while j < NINDIRECT
      invariant j <= NINDIRECT && Truncating(fs, logged0, inum, freed0 + DindEntries(j))
      invariant p == Addr(fs.view, fs.files[inum], Dind) && Quiet(fs, old(fs.view))
    {
      hide Addr, Owns, Freeing, GetWord;
      TruncEntry(fs, inum, j, p, logged0, freed0, old(fs.view));
      j := j + 1;
    }
  }

  /** What is left when every slot of the inode has been freed. */
  ghost function Others(owner: map<nat, Owner>, inum: nat): map<nat, Owner> {
    map a | a in owner && owner[a].inum != inum :: owner[a]
  }

  lemma TruncatedOk(view: View, sb: Super, files: map<nat, Addrs>, owner: map<nat, Owner>, inum: nat, freed: set<Slot>)
    requires inum in files && Owns(view, files, owner) && Freeing(view, sb, owner, inum, freed)
    requires forall s: Slot :: s.Ok() ==> s in freed
    ensures DiskOk(view, sb, files[inum := NO_ADDRS], Others(owner, inum))
  {
    hide BitSet, GetWord;
    forall s: Slot | s.Ok() ensures Addr(view, NO_ADDRS, s) == 0 {
    }
  }

  /** Files other than inum read as before: their blocks are not in the bitmap. */
  lemma OthersKept(view0: View, view: View, sb: Super, files: map<nat, Addrs>, owner: map<nat, Owner>, i: nat, p: nat)
    requires Owns(view0, files, owner) && Owns(view, files, owner) && BitsOk(view0, sb, owner) && i in files
    requires p < MAXFILE * BSIZE
    requires |view| == |view0|
    requires forall x :: 0 <= x < |view0| && !(sb.InodeBlocks() + 3 <= x < sb.DataStart()) ==> view[x] == view0[x]
    ensures FileByte(view, files[i], p) == FileByte(view0, files[i], p)
  {
    hide BitSet, GetWord, BlockSlot;
    var s := BlockSlot(p / BSIZE);
    assert Addr(view0, files[i], Ind) == files[i][NDIRECT] && Addr(view0, files[i], Dind) == files[i][NDIRECT + 1];
    assert s.DindLeaf? ==> Addr(view0, files[i], DindEntry(s.i)) == EntryAt(view0, files[i][NDIRECT + 1], s.i);
    assert Addr(view, files[i], s) == Addr(view0, files[i], s);
  }

  /** The bitmap sectors of an inode's blocks. */
  ghost function MapsOf(sb: Super, owner: map<nat, Owner>, inum: nat): set<nat> {
    set a | a in owner && owner[a].inum == inum :: sb.BitmapBlock(a)
  }

  /** itrunc: every block the inode reaches is freed, once, without meeting a free one; no other block is, and no
      other file changes. Exactly the bitmap sectors of those blocks are logged, and the inode last. */
  method Itrunc(fs: FileSystem, ip: Inode) returns (ghost before: seq<Write>)
    requires fs.Valid() && fs.Locked(ip) && ip.inum < fs.sb.ninodes
    modifies fs`view, fs`logged, fs`writes, fs`files, fs`owner, ip`addrs, ip`size
    ensures fs.Valid() && fs.Locked(ip) && ip.size == 0 && ip.addrs == NO_ADDRS && fs.Agrees(ip)
    ensures fs.files == old(fs.files)[ip.inum := NO_ADDRS] && fs.owner == Others(old(fs.owner), ip.inum)
    ensures forall i: nat, p: nat :: i in fs.files && i != ip.inum && p < MAXFILE * BSIZE ==>
              FileByte(fs.view, fs.files[i], p) == old(FileByte(fs.view, fs.files[i], p))
    ensures forall x :: x in Logged(before) <==> x in old(fs.logged) || x in MapsOf(fs.sb, old(fs.owner), ip.inum)
    ensures fs.sb.InodeBlock(ip.inum) < |fs.view|
    ensures fs.writes == before + [(fs.sb.InodeBlock(ip.inum), fs.view[fs.sb.InodeBlock(ip.inum)])]
  {
    hide Freeing, Addr, FileByte, BitsOk, Owns, IsDinode, EntryAt, Journal;
    FreeAll(fs, ip);
    before := fs.writes;
    assert fs.logged == Logged(before) by { LoggedIs(fs.base, fs.writes, fs.view, fs.logged); }
    fs.files := fs.files[ip.inum := NO_ADDRS];
    fs.owner := Others(fs.owner, ip.inum);
    ip.size := 0;
    fs.Iupdate(ip);
    fs.Facts();
  }

  lemma LoggedIs(base: View, writes: seq<Write>, view: View, logged: seq<nat>)
    requires Journal(base, writes, view, logged)
    ensures logged == Logged(writes)
  {
  }

  /** All of itrunc but the update of the inode. */
  method FreeAll(fs: FileSystem, ip: Inode)
    requires fs.Valid() && fs.Locked(ip)
    modifies fs`view, fs`logged, fs`writes, ip`addrs
    ensures ip.addrs == NO_ADDRS && Journal(fs.base, fs.writes, fs.view, fs.logged)
    ensures DiskOk(fs.view, fs.sb, fs.files[ip.inum := NO_ADDRS], Others(fs.owner, ip.inum))
    ensures forall i: nat, p: nat :: i in fs.files && p < MAXFILE * BSIZE ==>
              FileByte(fs.view, fs.files[i], p) == old(FileByte(fs.view, fs.files[i], p))
    ensures forall x :: x in fs.logged <==> x in old(fs.logged) || x in MapsOf(fs.sb, fs.owner, ip.inum)
    ensures forall x :: x in fs.logged ==> x < fs.sb.LogStart()
  {
    hide Freeing, Addr, FileByte, BitsOk, Owns, GetWord, IndEntries, DindEntries, LeavesOf, LoggedFreed, Journal;
    ghost var freed := TruncDirect(fs, ip);
    assert ip.addrs[NDIRECT] == ip.addrs[NDIRECT..][0] && ip.addrs[NDIRECT + 1] == ip.addrs[NDIRECT..][1];
    ghost var direct := ip.addrs;
    freed := TruncSingle(fs, ip, old(fs.logged), freed);
    freed := TruncDouble(fs, ip, old(fs.logged), freed);
    TruncatedOk(fs.view, fs.sb, fs.files, fs.owner, ip.inum, freed);
    LoggedAll(old(fs.view), fs.sb, fs.files, fs.owner, old(fs.logged), fs.logged, ip.inum, freed);
    forall i: nat, p: nat | i in fs.files && p < MAXFILE * BSIZE
      ensures FileByte(fs.view, fs.files[i], p) == old(FileByte(fs.view, fs.files[i], p))
    {
      OthersKept(old(fs.view), fs.view, fs.sb, fs.files, fs.owner, i, p);
    }
    assert forall k :: 0 <= k < NDIRECT ==> direct[k] == direct[..NDIRECT][k] == 0;
    assert ip.addrs == NO_ADDRS;
  }

  lemma LoggedAll(view: View, sb: Super, files: map<nat, Addrs>, owner: map<nat, Owner>, logged0: seq<nat>,
                  logged: seq<nat>,
                  inum: nat, freed: set<Slot>)
    requires DiskOk(view, sb, files, owner) && LoggedFreed(sb, logged0, logged, owner, inum, freed)
    requires (forall s: Slot :: s.Ok() ==> s in freed) && forall x :: x in logged0 ==> x < sb.LogStart()
    ensures forall x :: x in logged <==> x in logged0 || x in MapsOf(sb, owner, inum)
    ensures forall x :: x in logged ==> x < sb.LogStart()
  {
    hide BitSet, Addr, Super.BitmapBlock, Super.InodeBlocks;
    forall x: nat ensures MapFreed(sb, owner, inum, freed, x) <==> x in MapsOf(sb, owner, inum) {
    }
    forall a | a in owner ensures sb.BitmapBlock(a) < sb.DataStart() {
      sb.BitmapBlockFacts(a);
    }
  }

  // How much of the log it takes

  /** A transaction of itrunc alone is accepted exactly if the header has room for the bitmap sectors and one more. */
  lemma TruncFits(layout: Layout, before: seq<Write>, w: Write, maps: set<nat>)
    requires forall x :: x in Logged(before) <==> x in maps
    requires w.0 < layout.start && forall x :: x in maps ==> x < layout.start
    ensures layout.Accepted(before + [w]) <==> |maps| < layout.Capacity()
  {
    hide Elements;
    AcceptedIff(layout, before + [w]);
    assert (before + [w])[..|before|] == before;
    LoggedDistinct(before);
    SizeOfDistinct(Logged(before));
    assert Elements(Logged(before)) == maps;
  }

  /** The same with one more log_write of a sector that is not a bitmap sector and then of itself again: log_write
      refuses a full header even for a sector that is in it. */
  lemma TruncTwiceFits(layout: Layout, before: seq<Write>, w: Write, v: Write, maps: set<nat>)
    requires forall x :: x in Logged(before) <==> x in maps
    requires w.0 == v.0 < layout.start && w.0 !in maps && forall x :: x in maps ==> x < layout.start
    ensures layout.Accepted(before + [w] + [v]) <==> |maps| + 1 < layout.Capacity()
  {
    var more := before + [w];
    AcceptedIff(layout, more + [v]);
    assert (more + [v])[..|more|] == more && more[..|before|] == before;
    LoggedDistinct(before);
    SizeOfDistinct(Logged(before));
    assert Elements(Logged(before)) == maps;
    assert Logged(more) == Logged(before) + [w.0];
    assert Logged(more + [v]) == Logged(more);
  }

  /** A transaction that empties a file, as open does for O_TRUNC and iput for a file without links: itrunc, and the
      inode once more. The log takes it exactly if the bitmap sectors of the file's blocks and the inode leave a
      place free in the header. */
  method EmptyFile(fs: FileSystem, ip: Inode, head0: Word)
    requires fs.Valid() && fs.Locked(ip) && ip.inum < fs.sb.ninodes
    modifies fs, ip
    ensures fs.Valid() && fs.Locked(ip) && ip.size == 0 && ip.addrs == NO_ADDRS && fs.Agrees(ip) && ip.head0 == head0
    ensures fs.owner == Others(old(fs.owner), ip.inum) && fs.sb.Ok() && 0 <= fs.sb.LogStart()
    ensures LogOf(fs.sb).Accepted(fs.writes) <==> |MapsOf(fs.sb, old(fs.owner), ip.inum)| + 1 < LogOf(fs.sb).Capacity()
  {
    hide FileByte, Addr, DiskOk, Journal, IsDinode, Others, NO_ADDRS;
    fs.Facts();
    fs.Begin();
    MapsApart(fs.view, fs.sb, fs.files, fs.owner, ip.inum);
    ghost var before := Itrunc(fs, ip);
    ghost var first := fs.writes;
    ip.head0 := head0;
    fs.Iupdate(ip);
    TruncTwiceFits(LogOf(fs.sb), before, first[|before|], fs.writes[|first|], MapsOf(fs.sb, old(fs.owner), ip.inum));
  }

  lemma MapsApart(view: View, sb: Super, files: map<nat, Addrs>, owner: map<nat, Owner>, inum: nat)
    requires DiskOk(view, sb, files, owner) && inum < sb.ninodes
    ensures sb.InodeBlock(inum) !in MapsOf(sb, owner, inum) && 0 <= sb.InodeBlock(inum) < sb.LogStart()
    ensures forall x :: x in MapsOf(sb, owner, inum) ==> 0 <= x < sb.LogStart()
  {
    hide BitSet, Addr;
    forall a | a in owner ensures sb.InodeBlocks() + 3 <= sb.BitmapBlock(a) < sb.DataStart() {
      sb.BitmapBlockFacts(a);
    }
  }

  ghost function DataSectors(sb: Super, n: nat): (r: set<nat>)
    requires sb.Ok() && n <= sb.nblocks
    ensures |r| == n && forall a :: a in r <==> sb.DataStart() <= a < sb.DataStart() + n
  {
    if n == 0 then {} else DataSectors(sb, n - 1) + {sb.DataStart() + n - 1}
  }

  /** Every data sector is free or owned, and none is both. */
  lemma Conservation(view: View, sb: Super, owner: map<nat, Owner>)
    requires BitsOk(view, sb, owner)
    ensures |FreeData(sb, owner)| + |owner| == sb.nblocks
  {
    hide BitSet, DataSectors, Super.InodeBlocks;
    var all := DataSectors(sb, sb.nblocks);
    assert forall a :: a in all <==> a in FreeData(sb, owner) || a in owner;
    Disjoint(FreeData(sb, owner), owner.Keys, all);
    assert |owner| == |owner.Keys|;
  }

  lemma Disjoint(a: set<nat>, b: set<nat>, c: set<nat>)
    requires a !! b && forall x :: x in c <==> x in a || x in b
    ensures |a| + |b| == |c|
  {
    assert c == a + b;
  }

  /** The bit test of fillstatfs. */
  method IsFree(fs: FileSystem, b: nat) returns (free: bool)
    requires fs.Valid() && fs.sb.IsData(b)
    ensures free <==> b !in fs.owner
  {
    hide BitAt;
    fs.sb.BitmapBlockFacts(b);
    free := !BitAt(fs.view[fs.sb.BitmapBlock(b)], b % BPB);
    assert free == !BitSet(fs.view, fs.sb, b);
  }

  /** fillstatfs's f_bfree: the data sectors nobody owns, which with the owned ones make up all of them. */
  method CountFree(fs: FileSystem) returns (freeb: nat)
    requires fs.Valid()
    ensures freeb == |FreeData(fs.sb, fs.owner)| && freeb + |fs.owner| == fs.sb.nblocks
  {
    hide Owns, BitSet, FreeData, Super.InodeBlocks, Super.BitmapBlock;
    fs.Facts();
    Conservation(fs.view, fs.sb, fs.owner);
    ghost var seen: set<nat> := {};
    freeb := 0;
    var b := fs.sb.DataStart();
    while b < fs.sb.DataStart() + fs.sb.nblocks
      invariant fs.sb.DataStart() <= b <= fs.sb.LogStart() && freeb == |seen|
      invariant IsSeen(fs.sb, fs.owner, b, seen)
    {
      hide Owns, BitSet, BitsOk, FreeData, IsSeen, Super.InodeBlocks, Super.BitmapBlock;
      var free := IsFree(fs, b);
      SeeOne(fs.sb, fs.owner, b, seen);
      if free {
        seen := seen + {b};
        freeb := freeb + 1;
      }
      b := b + 1;
    }
    SeenAll(fs.sb, fs.owner, seen);
  }

  /** The free data sectors below b. */
  ghost predicate IsSeen(sb: Super, owner: map<nat, Owner>, b: nat, seen: set<nat>) {
    forall a: nat :: a in seen <==> sb.DataStart() <= a < b && a !in owner
  }

  lemma SeeOne(sb: Super, owner: map<nat, Owner>, b: nat, seen: set<nat>)
    requires IsSeen(sb, owner, b, seen) && sb.DataStart() <= b
    ensures b !in seen && IsSeen(sb, owner, b + 1, if b in owner then seen else seen + {b})
  {
  }

  lemma SeenAll(sb: Super, owner: map<nat, Owner>, seen: set<nat>)
    requires sb.Ok() && IsSeen(sb, owner, sb.LogStart(), seen)
    ensures seen == FreeData(sb, owner)
  {
  }
}
