/** A run in which filewrite takes all of a log of ten sectors: an image made by mkfs, a file written up to the last
    block but one under its indirect block, and one more chunk. */
module BoundaryRun {
  import opened Blocks
  import opened FileBlocks
  import opened FileChanges
  import opened FileSystem
  import opened FileWrite
  import opened FsLayout
  import opened ImageAgreement
  import opened LogFit
  import opened Ownership
  import opened RedoLog
  import opened Truncate

  const SECTORS: nat := 1000
  const FIRST: nat := BOUNDARY * BSIZE + 1

  /** Where no block is owned, no file has any. */
  lemma NoBlocks(view: View, sb: Super, files: map<nat, Addrs>, owner: map<nat, Owner>, inum: nat)
    requires DiskOk(view, sb, files, owner) && inum in files && owner == map[]
    ensures Tight(view, files[inum], 0) && |FreeData(sb, owner)| == sb.nblocks
  {
    hide Addr, BitSet;
    Conservation(view, sb, owner);
  }

  /** On so small a disk there is one bitmap sector. */
  lemma OneMap(sb: Super, owner: map<nat, Owner>, owner': map<nat, Owner>)
    requires sb.size == SECTORS && (forall a :: a in owner' ==> a < sb.size) && NewMaps(sb, owner, owner') != {}
    ensures |NewMaps(sb, owner, owner')| == 1
  {
    var m := sb.InodeBlocks() + 3;
    forall x | x in NewMaps(sb, owner, owner') ensures x == m {
    }
    assert NewMaps(sb, owner, owner') == {m};
  }

  /** A freshly made file system with one empty file. */
  method Start() returns (fs: FileSystem, ip: Inode)
    ensures fresh(fs) && fresh(ip) && fs.Valid() && fs.Locked(ip) && fs.Agrees(ip) && ip.size == 0
    ensures Tight(fs.view, ip.addrs, 0)
    ensures fs.sb.Ok() && fs.sb.size == SECTORS && fs.sb.nlog == 10
    ensures |FreeData(fs.sb, fs.owner)| == fs.sb.nblocks == 985
  {
    hide DiskOk, MkFs.Recorded, BitSet, IsDinode, FreeData, Journal, FileByte, Tight;
    var actions := [NewFile(2, 0x1_0000)];
    OneFile(actions);
    var img := Build(SECTORS, 8, 10, actions);
    fs := new FileSystem(img.sb, img.view, img.files, img.owner);
    Found(img.view, img.sb, img.files, img.inodes, Contents(actions), 1);
    ip := Ilock(fs, 1);
    RecordIs(fs.view[fs.sb.InodeBlock(1)], 1, img.inodes[1], Dinode(ip.head0, ip.head1, ip.size, ip.addrs));
    fs.Facts();
    assert img.owner == map[];
    NoBlocks(fs.view, fs.sb, fs.files, fs.owner, 1);
  }

  lemma OneFile(actions: seq<Action>)
    requires actions == [NewFile(2, 0x1_0000)]
    ensures Contents(actions) == [[]] && AllAllowed(actions, 8) && TotalBlocks(Contents(actions)) == 0
  {
    assert actions[..0] == [];
  }

  /** The last transaction of the run logs nine sectors, all that a log of ten takes. */
  method NineSectors() returns (n: nat, capacity: int)
    ensures n == 9 == capacity
  {
    hide DiskOk, FileByte, Journal, Tight, Transaction.Ok, Wrote, Written, IsDinode, FreeData, BlocksFor, HoleFree;
    hide NewMaps;
    var fs, ip := Start();
    Sizes();
    var first: seq<Byte> := seq(FIRST, _ => 1);
    assert HoleFree(fs.view, ip.addrs, 0) by { TightIsWhole(fs.view, ip.addrs, 0); }
    var ok, done;
    ghost var log;
    ok, done, log := WriteFile(fs, ip, 0, first);
    assert done == FIRST && ip.size == FIRST;
    var more: seq<Byte> := seq(CHUNK, _ => 2);
    ghost var t;
    ghost var s0 := fs.Now();
    ProgressStarts(fs, ip, FIRST, more);
    ok, t := OneTransaction(fs, ip, FIRST, more, 0, CHUNK, s0, FIRST);
    assert more[0..0 + CHUNK] == more;
    Last(fs.sb, t, more);
    n := |fs.logged|;
    capacity := LogOf(fs.sb).Capacity();
  }

  lemma Sizes()
    ensures BlocksFor(0) == 0 && BlocksFor(FIRST) == 139 && BlocksFor(FIRST + CHUNK) == 144
    ensures Accepts(0, 0, FIRST) == FIRST
  {
  }

  lemma TightIsWhole(view: View, addrs: Addrs, size: nat)
    requires Tight(view, addrs, size)
    ensures HoleFree(view, addrs, size)
  {
  }

  /** Such a transaction logs seven blocks, the bitmap sectors and the inode, and the log takes it exactly if the
      inode finds a place in the header. */
  lemma BoundaryAccepted(sb: Super, t: Transaction, size: nat, more: seq<Byte>)
    requires sb.Ok() && 0 <= sb.LogStart() && |more| == CHUNK && t.Ok(sb) && OneWrite(sb, t, size, more)
    requires BOUNDARY * BSIZE < size < (BOUNDARY + 1) * BSIZE && t.size0 == size && t.size1 == size + CHUNK
    requires Tight(t.s0.view, t.s0.files[t.inum], size)
    ensures t.Maps(sb) != {} && |t.s1.logged| == 8 + |t.Maps(sb)|
    ensures LogOf(sb).Accepted(t.s1.writes) <==> 7 + |t.Maps(sb)| < LogOf(sb).Capacity()
  {
    hide DiskOk, Tight, Wrote, IsDinode, HoleFree, NewMaps, Journal, TouchedSlots, Layout.Accepted;
    assert size / BSIZE == BOUNDARY && EndBlock(size, CHUNK) == BOUNDARY + 4;
    ChunkFits(sb, t, size, more);
    LoggedDistinct(t.mid.writes);
    WroteItAll(sb, t, size, more);
    BoundIsMet(sb, t.s0, t.mid, t.inum, size, more);
  }

  lemma Last(sb: Super, t: Transaction, more: seq<Byte>)
    requires sb.Ok() && 0 <= sb.LogStart() && sb.size == SECTORS && |more| == CHUNK && t.Ok(sb)
    requires OneWrite(sb, t, FIRST, more)
    requires t.size0 == FIRST && t.size1 == FIRST + CHUNK && Tight(t.s0.view, t.s0.files[t.inum], FIRST)
    ensures |t.s1.logged| == 9
  {
    hide DiskOk, Journal, Tight, Wrote, IsDinode, HoleFree, NewMaps;
    BoundaryAccepted(sb, t, FIRST, more);
    Below(t.s1.view, sb, t.s1.files, t.s1.owner);
    OneMap(sb, t.s0.owner, t.s1.owner);
  }

  lemma Below(view: View, sb: Super, files: map<nat, Addrs>, owner: map<nat, Owner>)
    requires DiskOk(view, sb, files, owner)
    ensures forall a :: a in owner ==> a < sb.size
  {
    hide Owns, BitSet;
  }
}
