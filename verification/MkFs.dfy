/** mkfs: files appended to an empty image, block by block, and the free map written last. The image it leaves is one
    the kernel's file system starts from. */
module MkFs {
  import opened Blocks
  import opened FileBlocks
  import opened FileChanges
  import opened FileSystem
  import opened FsLayout
  import opened Ownership

  ghost predicate Recorded(view: View, sb: Super, inodes: map<nat, Dinode>) {
    forall i {:trigger inodes[i]} :: i in inodes ==>
      && i < sb.ninodes && sb.InodeBlock(i) < |view|
      && IsDinode(view[sb.InodeBlock(i)], i, inodes[i])
  }

  /** The sectors from `from` to the log are empty and belong to no file; those of the data area below do. */
  ghost predicate Fresh(view: View, sb: Super, owner: map<nat, Owner>, from: nat) {
    && sb.DataStart() <= from <= sb.LogStart() <= |view|
    && (forall a: nat :: a in owner <==> sb.DataStart() <= a < from)
    && (forall a: nat :: from <= a < sb.LogStart() ==> view[a] == ZeroBlock())
  }

  /** Every bit of the free map is clear. */
  ghost predicate NoBits(view: View, sb: Super)
    requires sb.Ok() && sb.size <= |view|
  {
    forall k :: sb.InodeBlocks() + 3 <= k < sb.DataStart() ==> view[k] == ZeroBlock()
  }

  /** The slot is filled, no other is and no byte of a file has changed. */
  lemma FillSame(view: View, files: map<nat, Addrs>, owner: map<nat, Owner>, n: nat, t: Slot, r: Word)
    requires Owns(view, files, owner) && n in files && t.Ok() && Addr(view, files[n], t) == 0
    requires 0 < r < |view| && r !in owner && view[r] == ZeroBlock()
    requires InInode(t) || 0 < Parent(view, files[n], t) < |view|
    ensures var view', files' := SlotView(view, files[n], t, r), files[n := SlotAddrs(files[n], t, r)];
            && SameBytes(view, files, view', files') && Slotted(view, files, view', files', n, {t})
            && Addr(view', files'[n], t) == r
  {
    hide FileByte, Addr, GetWord, PutWord, ZeroBlock, SlotAddrs, SlotView, Up, Owns;
    var view', files' := SlotView(view, files[n], t, r), files[n := SlotAddrs(files[n], t, r)];
    forall i: nat, p: nat | i in files && p < MAXFILE * BSIZE
      ensures FileByte(view', files'[i], p) == FileByte(view, files[i], p)
    {
      FillBytes(view, files, owner, n, t, r, i, p);
    }
    forall i: nat, s: Slot | i in files && s.Ok()
      ensures Addr(view', files'[i], s) == if i == n && s == t then r else Addr(view, files[i], s)
    {
      FillAddr(view, files, owner, n, t, r, i, s);
    }
  }

  /** One empty slot of file n filled with the next free sector. */
  lemma FillNext(view: View, sb: Super, files: map<nat, Addrs>, owner: map<nat, Owner>, from: nat, n: nat, t: Slot)
    requires sb.Ok() && sb.size <= |view| && Owns(view, files, owner) && Fresh(view, sb, owner, from)
    requires NoBits(view, sb)
    requires n in files && t.Ok() && Addr(view, files[n], t) == 0 && from < sb.LogStart()
    requires InInode(t) || Parent(view, files[n], t) != 0
    ensures 0 < from < 0x1_0000_0000 && (InInode(t) || 0 < Parent(view, files[n], t) < |view|)
    ensures var view', files' := SlotView(view, files[n], t, from), files[n := SlotAddrs(files[n], t, from)];
            && Owns(view', files', owner[from := Owner(n, t)]) && SameBytes(view, files, view', files')
            && Fresh(view', sb, owner[from := Owner(n, t)], from + 1) && NoBits(view', sb)
            && Addr(view', files'[n], t) == from && Slotted(view, files, view', files', n, {t})
            && view'[..sb.DataStart()] == view[..sb.DataStart()]
  {
    hide SameBytes, Slotted, Addr, GetWord, PutWord, ZeroBlock, SlotAddrs, Up, Owns;
    if !InInode(t) {
      ParentOwned(view, files, owner, n, t);
    }
    FillOwns(view, files, owner, n, t, from);
    FillSame(view, files, owner, n, t, from);
  }

  /** Where a slot of the inode itself is among its addresses. */
  function AddrIndex(t: Slot): nat
    requires t.Ok() && InInode(t)
  {
    match t
    case Direct(i) => i
    case Ind => NDIRECT
    case _ => NDIRECT + 1
  }

  lemma RecordsKept(view: View, view': View, sb: Super, inodes: map<nat, Dinode>)
    requires sb.Ok() && sb.size <= |view| == |view'| && Recorded(view, sb, inodes)
    requires view'[..sb.DataStart()] == view[..sb.DataStart()]
    ensures Recorded(view', sb, inodes)
  {
    hide IsDinode;
    forall i | i in inodes ensures sb.InodeBlock(i) < |view'| && view'[sb.InodeBlock(i)] == view[sb.InodeBlock(i)] {
      var ib := sb.InodeBlock(i);
      assert inodes[i] == inodes[i];
      assert ib < sb.DataStart();
      assert view'[..sb.DataStart()][ib] == view[..sb.DataStart()][ib];
    }
  }

  /** These files have a block for every position. */
  ghost predicate Whole(view: View, files: map<nat, Addrs>, inodes: map<nat, Dinode>, which: set<nat>) {
    forall i {:trigger files[i]} {:trigger inodes[i]} ::
      i in which && i in files && i in inodes ==> HoleFree(view, files[i], inodes[i].size)
  }

  /** Filling slots makes no hole. */
  lemma StillWhole(view: View, files: map<nat, Addrs>, view': View, files': map<nat, Addrs>, n: nat, slots: set<Slot>,
                   inodes: map<nat, Dinode>, which: set<nat>)
    requires Slotted(view, files, view', files', n, slots) && Whole(view, files, inodes, which)
    ensures Whole(view', files', inodes, which)
  {
    hide Addr, BlockSlot;
    forall i | i in which && i in files' && i in inodes ensures HoleFree(view', files'[i], inodes[i].size) {
      assert HoleFree(view, files[i], inodes[i].size);
    }
  }

  class Image {
    const sb: Super
    var view: View
    var freeblock: nat
    var usedblocks: nat
    var freeinode: nat
    ghost var files: map<nat, Addrs>
    ghost var owner: map<nat, Owner>
    ghost var inodes: map<nat, Dinode>

    /** What holds between any two steps of mkfs. */
    ghost predicate Core()
      reads this
    {
      && sb.Ok() && sb.size == |view| && Owns(view, files, owner) && Fresh(view, sb, owner, freeblock)
      && NoBits(view, sb)
      && usedblocks == freeblock && Recorded(view, sb, inodes)
      && forall i :: i in files ==> i < freeinode
    }

    ghost predicate Valid()
      reads this
    {
      && files.Keys == inodes.Keys && Core() && (forall i :: i in files ==> files[i] == inodes[i].addrs)
      && Whole(view, files, inodes, files.Keys)
    }

    /** The image, but for the inode being appended to, whose addresses are in `addrs`. */
    ghost predicate Building(n: nat, addrs: Addrs)
      reads this
    {
      && files.Keys == inodes.Keys && Core()
      && n in files && files[n] == addrs && (forall i :: i in files && i != n ==> files[i] == inodes[i].addrs)
      && Whole(view, files, inodes, files.Keys - {n})
    }

    /** The start of main(): the geometry, a zeroed image and the superblock. */
    constructor (size: nat, ninodes: nat, nlog: nat)
      requires size < 0x1_0000_0000 && ninodes < 0x1_0000_0000
      requires (ninodes + IPB - 1) / IPB + 3 + size / BPB + 1 + nlog < size
      ensures Valid() && files == map[] && sb.size == size && sb.ninodes == ninodes && sb.nlog == nlog
      ensures sb.DataStart() == sb.InodeBlocks() + 3 + size / BPB + 1 == freeblock && freeinode == 1
      ensures GetWord(view[1], 0) == size && GetWord(view[1], 1) == sb.nblocks
      ensures GetWord(view[1], 2) == ninodes && GetWord(view[1], 3) == nlog
    {
      var used := (ninodes + IPB - 1) / IPB + 3 + size / BPB + 1;
      var nblocks := size - used - nlog;
      sb := Super(size, nblocks, ninodes, nlog);
      var b := PutWord(PutWord(PutWord(PutWord(ZeroBlock(), 0, size), 1, nblocks), 2, ninodes), 3, nlog);
      view := seq(size, _ => ZeroBlock())[1 := b];
      freeblock, usedblocks, freeinode := used, used, 1;
      files, owner, inodes := map[], map[], map[];
    }

    /** A slot of the inode, or of the block `p` it has already: given the next free sector if it has none. */
    method Ensure(n: nat, addrs: Addrs, t: Slot, p: nat) returns (x: Word, addrs': Addrs)
      requires Building(n, addrs) && t.Ok() && freeblock + Empty(view, addrs, t) <= sb.LogStart()
      requires InInode(t) || p == Parent(view, addrs, t) != 0
      modifies this
      ensures Building(n, addrs') && x == Addr(view, addrs', t) != 0
      ensures freeblock == old(freeblock) + old(Empty(view, addrs, t))
      ensures SameBytes(old(view), old(files), view, files) && Slotted(old(view), old(files), view, files, n, {t})
      ensures inodes == old(inodes) && freeinode == old(freeinode)
    {
      hide Owns, Addr, FileByte, GetWord, PutWord, ZeroBlock, Fresh, NoBits, Recorded, IsDinode, Whole, SameBytes;
      hide Slotted;
      addrs' := addrs;
      if InInode(t) {
        x := addrs[AddrIndex(t)];
        assert x == Addr(view, addrs, t) by { InodeSlot(view, addrs, t); }
      } else {
        assert p < |view| by { ParentInside(view, files, owner, n, t); }
        x := GetWord(view[p], EntryIndex(t));
        assert x == Addr(view, addrs, t) by { EntrySlot(view, addrs, t); }
      }
      if x == 0 {
        addrs' := TakeNext(n, addrs, t, p);
        x := freeblock - 1;
      } else {
        NothingChanged(view, files, n, {t});
      }
    }

    /** The next free sector put in an empty slot. */
    method TakeNext(n: nat, addrs: Addrs, t: Slot, p: nat) returns (addrs': Addrs)
      requires Building(n, addrs) && t.Ok() && Addr(view, addrs, t) == 0 && freeblock < sb.LogStart()
      requires InInode(t) || p == Parent(view, addrs, t) != 0
      modifies this
      ensures Building(n, addrs') && Addr(view, addrs', t) == freeblock - 1 != 0 && freeblock == old(freeblock) + 1
      ensures SameBytes(old(view), old(files), view, files) && Slotted(old(view), old(files), view, files, n, {t})
      ensures inodes == old(inodes) && freeinode == old(freeinode)
    {
      hide Owns, Addr, FileByte, GetWord, PutWord, ZeroBlock, Fresh, NoBits, Recorded, IsDinode, Whole, SameBytes;
      hide Slotted;
      FillNext(view, sb, files, owner, freeblock, n, t);
      addrs' := addrs;
      ghost var view0, files0, filled := view, files, SlotAddrs(addrs, t, freeblock);
      if InInode(t) {
        addrs' := addrs[AddrIndex(t) := freeblock];
      } else {
        view := view[p := PutWord(view[p], EntryIndex(t), freeblock)];
      }
      assert addrs' == filled;
      owner := owner[freeblock := Owner(n, t)];
      files := files[n := addrs'];
      freeblock := freeblock + 1;
      usedblocks := usedblocks + 1;
      RecordsKept(view0, view, sb, inodes);
      assert files.Keys == files0.Keys;
      StillWhole(view0, files0, view, files, n, {t}, inodes, files.Keys - {n});
    }

    /** The part of iappend() that finds the sector for a block of the file, taking one for each empty slot on the
        way. */
    method Place(n: nat, addrs: Addrs, fbn: nat) returns (x: Word, addrs': Addrs)
      requires Building(n, addrs) && fbn < MAXFILE && freeblock + Need(view, addrs, fbn) <= sb.LogStart()
      modifies this
      ensures Building(n, addrs') && x == Addr(view, addrs', BlockSlot(fbn)) != 0
      ensures freeblock == old(freeblock) + old(Need(view, addrs, fbn))
      ensures SameBytes(old(view), old(files), view, files) && Slotted(old(view), old(files), view, files, n, Path(fbn))
      ensures inodes == old(inodes) && freeinode == old(freeinode)
    {
      hide Owns, Addr, FileByte, Core, Whole, SameBytes, Slotted;
      if fbn < NDIRECT {
        x, addrs' := Ensure(n, addrs, Direct(fbn), 0);
      } else if fbn < NDIRECT + NINDIRECT {
        x, addrs' := Ensure(n, addrs, Ind, 0);
        x, addrs' := EnsureBelow(n, addrs', IndEntry(fbn - NDIRECT), x, old(view), old(files), {Ind});
        assert {Ind} + {IndEntry(fbn - NDIRECT)} == Path(fbn);
      } else {
        var bn := fbn - NDIRECT - NINDIRECT;
        var i, j := bn / NINDIRECT, bn % NINDIRECT;
        x, addrs' := Ensure(n, addrs, Dind, 0);
        x, addrs' := EnsureBelow(n, addrs', DindEntry(i), x, old(view), old(files), {Dind});
        x, addrs' := EnsureBelow(n, addrs', DindLeaf(i, j), x, old(view), old(files), {Dind} + {DindEntry(i)});
        assert {Dind} + {DindEntry(i)} + {DindLeaf(i, j)} == Path(fbn);
      }
    }

    /** A step of it past the first, from a state in which slots0 may have been filled. */
    method EnsureBelow(n: nat, addrs: Addrs, t: Slot, p: Word, ghost view0: View, ghost files0: map<nat, Addrs>,
                       ghost slots0: set<Slot>)
      returns (x: Word, addrs': Addrs)
      requires Building(n, addrs) && t.Ok() && !InInode(t) && p == Addr(view, addrs, Up(t)) != 0 && t !in slots0
      requires n in files0
      requires SameBytes(view0, files0, view, files) && Slotted(view0, files0, view, files, n, slots0)
      requires freeblock + Empty(view0, files0[n], t) <= sb.LogStart()
      modifies this
      ensures Building(n, addrs') && x == Addr(view, addrs', t) != 0
      ensures freeblock == old(freeblock) + Empty(view0, files0[n], t)
      ensures SameBytes(view0, files0, view, files) && Slotted(view0, files0, view, files, n, slots0 + {t})
      ensures inodes == old(inodes) && freeinode == old(freeinode)
    {
      hide Owns, Addr, FileByte, Core, Whole, SameBytes;
      assert Addr(view, files[n], t) == Addr(view0, files0[n], t);
      x, addrs' := Ensure(n, addrs, t, p);
      SameTrans(view0, files0, old(view), old(files), view, files);
      SlottedTrans(view0, files0, old(view), old(files), view, files, n, slots0, {t}, slots0 + {t});
    }

    /** The rest of one round of iappend(): the bytes go into their block. */
    method Fill(n: nat, addrs: Addrs, x: Word, off: nat, bytes: seq<Byte>)
      requires Building(n, addrs) && 0 < |bytes| <= BSIZE - off % BSIZE && off + |bytes| <= MAXFILE * BSIZE
      requires x == Addr(view, addrs, BlockSlot(off / BSIZE)) != 0
      modifies this`view
      ensures Building(n, addrs) && Written(old(view), files, view, files, n, off, bytes)
      ensures Slotted(old(view), files, view, files, n, {})
    {
      hide Owns, Addr, FileByte, GetWord, PutWord, ZeroBlock, Fresh, NoBits, Recorded, IsDinode, BlockSlot, Whole;
      hide Slotted, Written;
      var at := off % BSIZE;
      assert x in owner && owner[x] == Owner(n, BlockSlot(off / BSIZE)) && x < |view| &&
             sb.DataStart() <= x < freeblock by {
        SlotOwned(view, sb, files, owner, freeblock, n, BlockSlot(off / BSIZE));
      }
      var b: Block := view[x][..at] + bytes + view[x][at + |bytes|..];
      StoreChunk(view, sb, files, owner, freeblock, n, x, off, bytes, b);
      ghost var view0 := view;
      view := view[x := b];
      RecordsKept(view0, view, sb, inodes);
      StillWhole(view0, files, view, files, n, {}, inodes, files.Keys - {n});
    }

    /** rinode() */
    method Rinode(n: nat) returns (din: Dinode)
      requires Valid() && n in files
      ensures din == inodes[n]
    {
      hide Owns, GetWord, ZeroBlock, Fresh, NoBits;
      assert inodes[n] == inodes[n];
      var b := view[sb.InodeBlock(n)];
      var at := 16 * (n % IPB);
      var addrs: Addrs := seq(NADDRS, _ => 0);
      for j := 0 to NADDRS
        invariant forall k :: 0 <= k < j ==> addrs[k] == inodes[n].addrs[k]
      {
        hide Owns, GetWord, ZeroBlock, Fresh, NoBits;
        addrs := addrs[j := GetWord(b, at + 3 + j)];
      }
      assert addrs == inodes[n].addrs;
      din := Dinode(GetWord(b, at), GetWord(b, at + 1), GetWord(b, at + 2), addrs);
    }

    /** winode() */
    method Winode(n: nat, din: Dinode)
      requires Core() && n < sb.ninodes && n < freeinode && n in files && files[n] == din.addrs
      requires files.Keys == inodes.Keys
      requires (forall i :: i in files && i != n ==> files[i] == inodes[i].addrs)
      requires Whole(view, files, inodes, files.Keys - {n})
      requires HoleFree(view, din.addrs, din.size)
      modifies this`view, this`inodes
      ensures Valid() && inodes == old(inodes)[n := din] && SameBytes(old(view), files, view, files)
    {
      hide Owns, GetWord, ZeroBlock, Fresh, NoBits, IsDinode, Recorded, Addr, FileByte, Slotted;
      var ib := sb.InodeBlock(n);
      var b := PutDinode(view[ib], n, din);
      RecordWritten(view, sb, files, owner, freeblock, inodes, n, din, b);
      ghost var view0 := view;
      view := view[ib := b];
      inodes := inodes[n := din];
      AllWhole(view0, view, files, old(inodes), n, din);
    }

    /** ialloc() */
    method Ialloc(head0: Word, head1: Word) returns (n: nat)
      requires Valid() && freeinode < sb.ninodes
      modifies this
      ensures Valid() && n == old(freeinode) && n !in old(files)
      ensures files.Keys == old(files.Keys) + {n} && inodes == old(inodes)[n := Dinode(head0, head1, 0, NO_ADDRS)]
      ensures SameBytes(old(view), old(files), view, files - {n}) && files[n] == NO_ADDRS
      ensures freeblock == old(freeblock) && freeinode == n + 1
    {
      hide Owns, GetWord, ZeroBlock, Fresh, NoBits, IsDinode, Recorded, Addr, FileByte, Slotted, Whole;
      n := freeinode;
      freeinode := freeinode + 1;
      EmptyOwns(view, files, owner, n);
      var din := Dinode(head0, head1, 0, NO_ADDRS);
      var ib := sb.InodeBlock(n);
      var b := PutDinode(view[ib], n, din);
      files := files[n := NO_ADDRS];
      RecordWritten(view, sb, files, owner, freeblock, inodes, n, din, b);
      ghost var view0 := view;
      view := view[ib := b];
      inodes := inodes[n := din];
      OthersWhole(view0, old(files), files, old(inodes), n);
      AllWhole(view0, view, files, old(inodes), n, din);
      assert forall i :: i in old(files) ==> (files - {n})[i] == files[i] == old(files)[i];
    }

    /** One round of iappend(). */
    method Round(n: nat, addrs: Addrs, off: nat, bytes: seq<Byte>) returns (addrs': Addrs)
      requires Building(n, addrs) && 0 < |bytes| <= BSIZE - off % BSIZE && off + |bytes| <= MAXFILE * BSIZE
      requires HoleFree(view, addrs, off) && freeblock + BlocksFor(off + |bytes|) <= sb.LogStart() + BlocksFor(off)
      modifies this
      ensures Building(n, addrs') && inodes == old(inodes) && freeinode == old(freeinode)
      ensures freeblock + BlocksFor(off) <= old(freeblock) + BlocksFor(off + |bytes|)
      ensures Written(old(view), old(files), view, files, n, off, bytes) && HoleFree(view, addrs', off + |bytes|)
    {
      hide Core, Whole, Addr, FileByte, Written, SameBytes, BlockSlot, Need, BlocksFor, HoleFree, Slotted;
      NextNeed(view, addrs, off, off, |bytes|);
      var x;
      x, addrs' := Place(n, addrs, off / BSIZE);
      ghost var v1, f1 := view, files;
      Fill(n, addrs', x, off, bytes);
      SameWritten(old(view), old(files), v1, f1, view, files, n, off, bytes);
      SlottedTrans(old(view), old(files), v1, f1, view, files, n, Path(off / BSIZE), {}, Path(off / BSIZE));
      SlotKept(v1, view, files, n, BlockSlot(off / BSIZE));
      HoleFreeMore(old(view), old(files), view, files, n, Path(off / BSIZE), off, off, |bytes|);
    }

    /** iappend(): the bytes at the end of the file, through every level of indirection, and the record last. It takes
        only the blocks by which the file grows. */
    method Iappend(n: nat, src: seq<Byte>)
      requires Valid() && n in files && inodes[n].size + |src| <= MAXFILE * BSIZE
      requires freeblock + BlocksFor(inodes[n].size + |src|) <= sb.LogStart() + BlocksFor(inodes[n].size)
      modifies this
      ensures Valid() && files.Keys == inodes.Keys == old(inodes.Keys)
      ensures forall i :: i in inodes && i != n ==> inodes[i] == old(inodes)[i]
      ensures inodes[n].size == old(inodes)[n].size + |src| && freeinode == old(freeinode)
      ensures freeblock + BlocksFor(old(inodes)[n].size) <= old(freeblock) + BlocksFor(inodes[n].size)
      ensures Written(old(view), old(files), view, files, n, old(inodes)[n].size, src)
    {
      hide Core, FileByte, Written, SameBytes, BlocksFor, Addr, HoleFree;
      var din := Rinode(n);
      var addrs, off, k := din.addrs, din.size, 0;
      NothingAppended(view, files, n, off);
      assert src[..0] == [];
      while k < |src|
        invariant k <= |src| && off == din.size + k && inodes == old(inodes) && freeinode == old(freeinode)
        invariant Building(n, addrs)
        invariant freeblock + BlocksFor(din.size) <= old(freeblock) + BlocksFor(off)
        invariant HoleFree(view, addrs, off) && Written(old(view), old(files), view, files, n, din.size, src[..k])
      {
        hide Building, FileByte, Written, BlocksFor, Addr, HoleFree;
        ghost var v0, f0 := view, files;
        var m := if |src| - k < BSIZE - off % BSIZE then |src| - k else BSIZE - off % BSIZE;
        BlocksGrow(off + m, din.size + |src|);
        addrs := Round(n, addrs, off, src[k..k + m]);
        WrittenTrans(old(view), old(files), v0, f0, view, files, n, din.size, src[..k], src[k..k + m]);
        assert src[..k] + src[k..k + m] == src[..k + m];
        k, off := k + m, off + m;
      }
      assert src[..k] == src;
      ghost var v2, f2 := view, files;
      CoreFacts(n);
      Winode(n, Dinode(din.head0, din.head1, off, addrs));
      WrittenSame(old(view), old(files), v2, f2, view, files, n, din.size, src);
      CoreFacts(n);
    }

    lemma CoreFacts(n: nat)
      requires Core() && n in files && n in inodes
      ensures n < sb.ninodes && n < freeinode
    {
      hide Owns, Fresh, NoBits, IsDinode;
      assert inodes[n] == inodes[n];
    }

    /** balloc(), the last step: the free map has exactly the bits below `usedblocks`, so what the kernel's file
        system keeps about its disk holds of the image. */
    method Balloc()
      requires Valid() && freeblock <= sb.LogStart()
      modifies this`view
      ensures |view| == sb.size && DiskOk(view, sb, files, owner)
      ensures forall a: nat :: a < sb.size ==> (BitSet(view, sb, a) <==> a < usedblocks)
      ensures Recorded(view, sb, inodes) && SameBytes(old(view), files, view, files)
      ensures Whole(view, files, inodes, files.Keys)
    {
      hide Owns, Fresh, Recorded, IsDinode, BitAt, FileByte, Addr, ZeroBlock, Whole, Slotted;
      ghost var view0 := view;
      var bi := 0;
      while bi < sb.size / BPB + 1 && bi * BPB < usedblocks
        invariant 0 <= bi <= sb.size / BPB + 1 && Mapped(view0, view, sb, bi, usedblocks)
      {
        hide Owns, Fresh, Recorded, IsDinode, BitAt, FileByte, Addr, ZeroBlock, Whole, Slotted;
        var buf := BitBlock(if usedblocks - bi * BPB < BPB then usedblocks - bi * BPB else BPB);
        view := view[sb.InodeBlocks() + 3 + bi := buf];
        bi := bi + 1;
      }
      MapWritten(view0, view, sb, files, owner, inodes, freeblock, bi);
      StillWhole(view0, files, view, files, 0, {}, inodes, files.Keys);
    }
  }

  lemma SlotKept(view: View, view': View, files: map<nat, Addrs>, n: nat, s: Slot)
    requires Slotted(view, files, view', files, n, {}) && n in files && s.Ok()
    ensures Addr(view', files[n], s) == Addr(view, files[n], s)
  {
    hide Addr;
  }

  lemma OthersWhole(view: View, files: map<nat, Addrs>, files': map<nat, Addrs>, inodes: map<nat, Dinode>, n: nat)
    requires Whole(view, files, inodes, files.Keys) && n !in files && files' == files[n := NO_ADDRS]
    ensures Whole(view, files', inodes, files'.Keys - {n}) && HoleFree(view, NO_ADDRS, 0)
  {
    hide HoleFree;
    assert HoleFree(view, NO_ADDRS, 0) by { NoHoles(view); }
    forall i | i in files'.Keys - {n} && i in inodes ensures HoleFree(view, files'[i], inodes[i].size) {
      assert files'[i] == files[i];
    }
  }

  lemma NoHoles(view: View)
    ensures HoleFree(view, NO_ADDRS, 0)
  {
  }

  lemma AllWhole(view: View, view': View, files: map<nat, Addrs>, inodes: map<nat, Dinode>, n: nat, din: Dinode)
    requires Slotted(view, files, view', files, n, {}) && Whole(view, files, inodes, files.Keys - {n})
    requires n in files && files[n] == din.addrs && HoleFree(view, din.addrs, din.size)
    ensures Whole(view', files, inodes[n := din], files.Keys)
  {
    hide HoleFree, Slotted;
    var more := inodes[n := din];
    forall i | i in files && i in more ensures HoleFree(view, files[i], more[i].size) {
      assert i != n ==> more[i] == inodes[i];
    }
    assert Whole(view, files, more, files.Keys);
    StillWhole(view, files, view', files, n, {}, more, files.Keys);
  }

  /** The first `bi` blocks of the free map are written, and nothing else. */
  ghost predicate Mapped(view0: View, view: View, sb: Super, bi: nat, used: nat)
    requires sb.Ok() && sb.size <= |view0|
  {
    && |view| == |view0| && bi <= sb.size / BPB + 1
    && (forall k :: 0 <= k < |view| && !(sb.InodeBlocks() + 3 <= k < sb.InodeBlocks() + 3 + bi) ==> view[k] == view0[k])
    && (forall k, j: nat {:trigger BitAt(view[k], j)} ::
          sb.InodeBlocks() + 3 <= k < sb.InodeBlocks() + 3 + bi && j < BPB ==>
          (BitAt(view[k], j) <==> (k - sb.InodeBlocks() - 3) * BPB + j < used))
  }

  /** A block of the free map with its first n bits set. */
  method BitBlock(n: nat) returns (b: Block)
    requires n <= BPB
    ensures forall j: nat :: j < BPB ==> (BitAt(b, j) <==> j < n)
  {
    hide BitAt, SetBit, ZeroBlock;
    b := ZeroBlock();
    forall j: nat | j < BPB ensures !BitAt(b, j) {
      ZeroBit(j);
    }
    for i := 0 to n
      invariant forall j: nat :: j < BPB ==> (BitAt(b, j) <==> j < i)
    {
      hide BitAt, SetBit, ZeroBlock;
      b := SetBit(b, i);
    }
  }

  lemma ZeroBit(j: nat)
    requires j < BPB
    ensures !BitAt(ZeroBlock(), j)
  {
  }

  lemma UnownedChanged(view: View, view': View, files: map<nat, Addrs>, owner: map<nat, Owner>)
    requires Owns(view, files, owner) && |view'| == |view| && (forall a :: a in owner ==> view'[a] == view[a])
    ensures Owns(view', files, owner) && SameBytes(view, files, view', files)
    ensures Slotted(view, files, view', files, 0, {})
  {
    hide Addr, FileByte;
    forall i: nat, s: Slot | i in files && s.Ok() ensures Addr(view', files[i], s) == Addr(view, files[i], s) {
      OwnedMatters(view, view', files, owner, i, s);
    }
    forall i: nat, p: nat | i in files && p < MAXFILE * BSIZE
      ensures FileByte(view', files[i], p) == FileByte(view, files[i], p)
    {
      OwnedBytes(view, view', files, owner, i, p);
    }
  }

  lemma MapBit(view0: View, view: View, sb: Super, bi: nat, used: nat, a: nat)
    requires sb.Ok() && sb.size <= |view0| && Mapped(view0, view, sb, bi, used) && NoBits(view0, sb) && a < sb.size
    requires bi == sb.size / BPB + 1 || used <= bi * BPB
    ensures BitSet(view, sb, a) <==> a < used
  {
    hide BitAt, ZeroBlock;
    var k := sb.BitmapBlock(a);
    sb.BitmapBlockFacts(a);
    assert a == a / BPB * BPB + a % BPB;
    if a / BPB < bi {
      assert BitAt(view[k], a % BPB) <==> a / BPB * BPB + a % BPB < used;
    } else {
      ZeroBit(a % BPB);
      assert bi * BPB <= a / BPB * BPB;
    }
  }

  lemma MapWritten(view0: View, view: View, sb: Super, files: map<nat, Addrs>, owner: map<nat, Owner>,
                   inodes: map<nat, Dinode>, from: nat, bi: nat)
    requires sb.Ok() && sb.size == |view0| && Owns(view0, files, owner) && Fresh(view0, sb, owner, from)
    requires NoBits(view0, sb)
    requires Recorded(view0, sb, inodes) && Mapped(view0, view, sb, bi, from)
    requires bi == sb.size / BPB + 1 || from <= bi * BPB
    ensures DiskOk(view, sb, files, owner) && SameBytes(view0, files, view, files) && Recorded(view, sb, inodes)
    ensures Slotted(view0, files, view, files, 0, {})
    ensures forall a: nat :: a < sb.size ==> (BitSet(view, sb, a) <==> a < from)
  {
    hide Owns, BitSet, SameBytes, Slotted, IsDinode, ZeroBlock, BitAt;
    UnownedChanged(view0, view, files, owner);
    forall a: nat | a < sb.size ensures BitSet(view, sb, a) <==> a < from {
      MapBit(view0, view, sb, bi, from, a);
    }
    forall i | i in inodes ensures sb.InodeBlock(i) < |view| && view[sb.InodeBlock(i)] == view0[sb.InodeBlock(i)] {
      assert inodes[i] == inodes[i];
    }
  }

  /** A file with no blocks owns none. */
  lemma EmptyOwns(view: View, files: map<nat, Addrs>, owner: map<nat, Owner>, n: nat)
    requires Owns(view, files, owner) && n !in files
    ensures Owns(view, files[n := NO_ADDRS], owner)
  {
    var files' := files[n := NO_ADDRS];
    forall s: Slot | s.Ok() ensures Addr(view, files'[n], s) == 0 {
      hide GetWord;
    }
    forall i: nat, s: Slot | i in files' && s.Ok() && Addr(view, files'[i], s) != 0
      ensures Addr(view, files'[i], s) in owner && owner[Addr(view, files'[i], s)] == Owner(i, s)
    {
      assert files'[i] == files[i];
    }
    forall a | a in owner
      ensures owner[a].inum in files' && Addr(view, files'[owner[a].inum], owner[a].slot) == a
    {
      assert files'[owner[a].inum] == files[owner[a].inum];
    }
  }

  lemma NothingAppended(view: View, files: map<nat, Addrs>, n: nat, off: nat)
    ensures Written(view, files, view, files, n, off, [])
  {
  }

  lemma OtherRecord(was: Block, b: Block, n: nat, i: nat, din: Dinode)
    requires SameOtherDinodes(was, b, n) && i % IPB != n % IPB && IsDinode(was, i, din)
    ensures IsDinode(b, i, din)
  {
    hide GetWord;
    var at := 16 * (i % IPB);
    assert at / 16 == (at + 1) / 16 == (at + 2) / 16 == i % IPB;
    forall j: nat | j < NADDRS ensures GetWord(b, at + 3 + j) == din.addrs[j] {
      assert (at + (3 + j)) / 16 == i % IPB;
    }
  }

  lemma RecordWritten(view: View, sb: Super, files: map<nat, Addrs>, owner: map<nat, Owner>, from: nat,
                      inodes: map<nat, Dinode>, n: nat, din: Dinode, b: Block)
    requires sb.Ok() && sb.size <= |view| && Owns(view, files, owner) && Fresh(view, sb, owner, from)
    requires NoBits(view, sb)
    requires Recorded(view, sb, inodes) && n < sb.ninodes
    requires IsDinode(b, n, din) && SameOtherDinodes(view[sb.InodeBlock(n)], b, n)
    ensures var v := view[sb.InodeBlock(n) := b];
            && Owns(v, files, owner) && Fresh(v, sb, owner, from) && NoBits(v, sb) && SameBytes(view, files, v, files)
            && Slotted(view, files, v, files, n, {})
            && Recorded(v, sb, inodes[n := din])
  {
    hide Owns, GetWord, ZeroBlock, IsDinode, Addr, FileByte, SameOtherDinodes;
    var ib := sb.InodeBlock(n);
    assert ib < sb.InodeBlocks() + 2;
    assert ib !in owner;
    WriteKeepsOwns(view, files, owner, ib, b);
    forall i: nat, p: nat | i in files && p < MAXFILE * BSIZE
      ensures FileByte(view[ib := b], files[i], p) == FileByte(view, files[i], p)
    {
      WriteBytes(view, files, owner, ib, b, i, p);
    }
    forall i | i in inodes && i != n
      ensures IsDinode(view[ib := b][sb.InodeBlock(i)], i, inodes[i])
    {
      if sb.InodeBlock(i) == ib {
        assert i % IPB != n % IPB;
        OtherRecord(view[ib], b, n, i, inodes[i]);
      }
    }
  }

  lemma SlotOwned(view: View, sb: Super, files: map<nat, Addrs>, owner: map<nat, Owner>, from: nat, n: nat, t: Slot)
    requires Owns(view, files, owner) && Fresh(view, sb, owner, from) && n in files && t.Ok()
    requires Addr(view, files[n], t) != 0
    ensures var x := Addr(view, files[n], t);
            x in owner && owner[x] == Owner(n, t) && x < |view| && sb.DataStart() <= x < from
  {
    hide Addr;
  }

  lemma StoreChunk(view: View, sb: Super, files: map<nat, Addrs>, owner: map<nat, Owner>, from: nat,
                   n: nat, x: nat, off: nat, bytes: seq<Byte>, b: Block)
    requires sb.Ok() && sb.size <= |view| && Owns(view, files, owner) && Fresh(view, sb, owner, from)
    requires NoBits(view, sb)
    requires n in files && 0 < |bytes| <= BSIZE - off % BSIZE && off + |bytes| <= MAXFILE * BSIZE && x < |view|
    requires x in owner && owner[x] == Owner(n, BlockSlot(off / BSIZE)) && sb.DataStart() <= x < from
    requires Addr(view, files[n], BlockSlot(off / BSIZE)) == x
    requires b == view[x][..off % BSIZE] + bytes + view[x][off % BSIZE + |bytes|..]
    ensures Owns(view[x := b], files, owner) && Fresh(view[x := b], sb, owner, from) && NoBits(view[x := b], sb)
    ensures Written(view, files, view[x := b], files, n, off, bytes) && Slotted(view, files, view[x := b], files, n, {})
    ensures view[x := b][..sb.DataStart()] == view[..sb.DataStart()]
  {
    hide Owns, Addr, GetWord, ZeroBlock, BlockSlot, FileByte, Written;
    WriteKeepsOwns(view, files, owner, x, b);
    forall i: nat, q: nat | i in files && q < MAXFILE * BSIZE
      ensures FileByte(view[x := b], files[i], q) ==
                if Owner(n, BlockSlot(off / BSIZE)) == Owner(i, BlockSlot(q / BSIZE)) then b[q % BSIZE]
                else FileByte(view, files[i], q)
    {
      WriteBytes(view, files, owner, x, b, i, q);
    }
    ChunkWritten(view, files, view[x := b], n, off, bytes, x, b);
  }

  lemma NothingChanged(view: View, files: map<nat, Addrs>, n: nat, slots: set<Slot>)
    ensures SameBytes(view, files, view, files) && Slotted(view, files, view, files, n, slots)
  {
  }

  lemma InodeSlot(view: View, addrs: Addrs, t: Slot)
    requires t.Ok() && InInode(t)
    ensures Addr(view, addrs, t) == addrs[AddrIndex(t)]
  {
  }

  lemma EntrySlot(view: View, addrs: Addrs, t: Slot)
    requires t.Ok() && !InInode(t) && 0 < Parent(view, addrs, t) < |view|
    ensures Addr(view, addrs, t) == GetWord(view[Parent(view, addrs, t)], EntryIndex(t))
  {
  }

  lemma ParentInside(view: View, files: map<nat, Addrs>, owner: map<nat, Owner>, n: nat, t: Slot)
    requires Owns(view, files, owner) && n in files && t.Ok() && Parent(view, files[n], t) != 0
    ensures Parent(view, files[n], t) < |view|
  {
    ParentOwned(view, files, owner, n, t);
  }
}
