/** Disks on which the file system meets its limits. */
module DiskExamples {
  import opened Blocks
  import opened FileChanges
  import opened FileSystem
  import opened FileWrite
  import opened FsLayout
  import opened Options
  import opened Ownership
  import opened RedoLog
  import opened Ring
  import opened Truncate

  /** A bitmap for an owner map, on a disk of empty sectors. */
  function Allocated(sb: Super, owner: map<nat, Owner>, n: nat): (view: View)
    requires sb.Ok() && n <= sb.size
    ensures |view| == sb.size
  {
    if n == 0 then seq(sb.size, _ => ZeroBlock())
    else
      var view := Allocated(sb, owner, n - 1);
      if n - 1 < sb.DataStart() || n - 1 in owner then MarkUsed(view, sb, n - 1) else view
  }

  lemma {:induction false} AllocatedBits(sb: Super, owner: map<nat, Owner>, n: nat, a: nat)
    requires sb.Ok() && n <= sb.size && a < sb.size
    ensures BitSet(Allocated(sb, owner, n), sb, a) <==> a < n && (a < sb.DataStart() || a in owner)
  {
    hide BitSet, MarkUsed;
    if n == 0 {
      NoBit(sb, a);
    } else {
      AllocatedBits(sb, owner, n - 1, a);
      if n - 1 < sb.DataStart() || n - 1 in owner {
        MarkUsedAt(Allocated(sb, owner, n - 1), sb, n - 1, a);
      }
    }
  }

  lemma NoBit(sb: Super, a: nat)
    requires sb.Ok() && a < sb.size
    ensures !BitSet(seq(sb.size, _ => ZeroBlock()), sb, a)
  {
    sb.BitmapBlockFacts(a);
  }

  /** A disk of the geometry mkfs uses, with one file of eleven blocks, each under a bitmap sector of its own. */
  const SPREAD: Super := Super(65536, 65378, 1024, 10)

  function SpreadAddrs(): Addrs {
    seq(NADDRS, i => if i < NDIRECT then 4096 * (i + 1) else 0)
  }

  function SpreadOwner(): map<nat, Owner> {
    map a: nat | 0 < a < 65536 && a % 4096 == 0 && a / 4096 <= NDIRECT :: Owner(1, Direct(a / 4096 - 1))
  }

  lemma SpreadOk()
    ensures SPREAD.Ok()
    ensures DiskOk(Allocated(SPREAD, SpreadOwner(), 65536), SPREAD, map[1 := SpreadAddrs()], SpreadOwner())
  {
    hide Allocated, BitSet, GetWord;
    var view, owner := Allocated(SPREAD, SpreadOwner(), 65536), SpreadOwner();
    forall a: nat | a < SPREAD.LogStart() ensures BitSet(view, SPREAD, a) <==> a < SPREAD.DataStart() || a in owner {
      AllocatedBits(SPREAD, owner, 65536, a);
    }
    forall s: Slot | s.Ok() && Addr(view, SpreadAddrs(), s) != 0
      ensures s.Direct? && Addr(view, SpreadAddrs(), s) in owner && owner[Addr(view, SpreadAddrs(), s)] == Owner(1, s)
    {
    }
  }

  lemma SpreadMap(i: nat)
    requires 1 <= i <= NDIRECT
    ensures i + 131 in MapsOf(SPREAD, SpreadOwner(), 1)
  {
    var a := 4096 * i;
    assert a in SpreadOwner() && SPREAD.BitmapBlock(a) == i + 131;
  }

  lemma SpreadMaps()
    ensures |MapsOf(SPREAD, SpreadOwner(), 1)| >= 9
  {
    hide MapsOf, SpreadOwner;
    var nine: set<nat> := {132, 133, 134, 135, 136, 137, 138, 139, 140};
    forall x | x in nine ensures x in MapsOf(SPREAD, SpreadOwner(), 1) {
      SpreadMap(x - 131);
    }
    SubsetSize(nine, MapsOf(SPREAD, SpreadOwner(), 1));
  }

  /** Emptying it is too big a transaction for a log of ten sectors. */
  method TooSpread() returns (fs: FileSystem, ip: Inode)
    ensures fs.sb == SPREAD && fs.sb.Ok() && 0 <= fs.sb.LogStart() && !LogOf(fs.sb).Accepted(fs.writes)
  {
    hide Allocated, SpreadOwner, SpreadAddrs, DiskOk, Journal, MapsOf, Others;
    SpreadOk();
    SpreadMaps();
    fs := new FileSystem(SPREAD, Allocated(SPREAD, SpreadOwner(), 65536), map[1 := SpreadAddrs()], SpreadOwner());
    ip := new Inode(1, 2, 0x1_0000, NDIRECT * BSIZE, SpreadAddrs());
    EmptyFile(fs, ip, ip.head0);
  }

  /** A disk with one data sector, which is taken: sectors 5 and, from 6 on, the log. */
  const FULL: Super := Super(16, 1, 8, 10)

  function FullOwner(): map<nat, Owner> {
    map[5 := Owner(1, Direct(0))]
  }

  lemma FullOk()
    ensures FULL.Ok() && DiskOk(Allocated(FULL, FullOwner(), 16), FULL, map[1 := NO_ADDRS[0 := 5]], FullOwner())
    ensures forall a: nat :: a < 16 ==> (BitSet(Allocated(FULL, FullOwner(), 16), FULL, a) <==> a < 6)
  {
    hide Allocated, BitSet, GetWord;
    var view, owner := Allocated(FULL, FullOwner(), 16), FullOwner();
    forall a: nat | a < 16 ensures BitSet(view, FULL, a) <==> a < FULL.DataStart() || a in owner {
      AllocatedBits(FULL, owner, 16, a);
    }
    forall s: Slot | s.Ok() && Addr(view, NO_ADDRS[0 := 5], s) != 0 ensures s == Direct(0) {
    }
  }

  /** balloc hands out the first sector of the log, the one with the header in it. */
  method LogSectorTaken() returns (r: Option<nat>)
    ensures r == Some(6) && FULL.LogStart() == 6
  {
    hide Allocated, FullOwner, DiskOk, BitSet, Journal, Taken;
    FullOk();
    var fs := new FileSystem(FULL, Allocated(FULL, FullOwner(), 16), map[1 := NO_ADDRS[0 := 5]], FullOwner());
    ghost var view := fs.view;
    r := fs.Balloc();
    assert !BitSet(view, FULL, 6) && forall a: nat :: a < 6 ==> BitSet(view, FULL, a);
  }
}
