/** A disk whose free sectors lie under two bitmap sectors, and a filewrite on it that is too big for a log of ten. */
module WideDisk {
  import opened Blocks
  import opened BoundaryRun
  import opened DiskExamples
  import opened FileBlocks
  import opened FileChanges
  import opened FileSystem
  import opened FileWrite
  import opened FsLayout
  import opened LogFit
  import opened Ownership
  import opened RedoLog
  import opened Ring

  /** Laid out as mkfs does it: the data sectors are those from 3954 on, and those from 4096 on are in the second
      bitmap sector. */
  const WIDE: Super := Super(4109, 145, 31592, 10)
  const BASE: nat := 3954
  const OWNED: nat := 139

  /** The slot sector a is in. */
  function WideSlot(a: nat): Slot {
    if BASE <= a < BASE + NDIRECT then Direct(a - BASE)
    else if BASE + NDIRECT < a then IndEntry(a - BASE - NDIRECT - 1)
    else Ind
  }

  function WideAddrs(): Addrs {
    seq(NADDRS, i => if i <= NDIRECT then BASE + i else 0)
  }

  function WideOwner(): map<nat, Owner> {
    map a: nat | BASE <= a < BASE + OWNED && WideSlot(a).Ok() :: Owner(1, WideSlot(a))
  }

  /** The indirect block with n entries. */
  function Entries(n: nat): (b: Block)
    requires n <= NINDIRECT
    ensures forall j: nat :: j < NINDIRECT ==> GetWord(b, j) == if j < n then BASE + NDIRECT + 1 + j else 0
  {
    if n == 0 then ZeroBlock() else PutWord(Entries(n - 1), n - 1, BASE + NDIRECT + n)
  }

  function WideView(): (view: View)
    ensures |view| == WIDE.size
  {
    Allocated(WIDE, WideOwner(), WIDE.size)[BASE + NDIRECT := Entries(NINDIRECT - 1)]
  }

  lemma WideBits(a: nat)
    requires a < WIDE.size
    ensures BitSet(WideView(), WIDE, a) <==> a < WIDE.DataStart() || a in WideOwner()
  {
    hide Allocated, Entries;
    WIDE.BitmapBlockFacts(a);
    AllocatedBits(WIDE, WideOwner(), WIDE.size, a);
  }

  lemma WideAddr(s: Slot)
    requires s.Ok()
    ensures var a := Addr(WideView(), WideAddrs(), s);
            if a == 0 then s.IndEntry? || s.Dind? || s.DindEntry? || s.DindLeaf?
            else BASE <= a < BASE + OWNED && WideSlot(a) == s
    ensures s.IndEntry? ==> (Addr(WideView(), WideAddrs(), s) == 0 <==> s.i == NINDIRECT - 1)
  {
    hide Allocated, GetWord;
  }

  lemma WideOk()
    ensures WIDE.Ok() && DiskOk(WideView(), WIDE, map[1 := WideAddrs()], WideOwner())
  {
    hide WideView, Addr, BitSet;
    forall a: nat | a < WIDE.LogStart()
      ensures BitSet(WideView(), WIDE, a) <==> a < WIDE.DataStart() || a in WideOwner()
    {
      WideBits(a);
    }
    forall s: Slot | s.Ok() && Addr(WideView(), WideAddrs(), s) != 0
      ensures Addr(WideView(), WideAddrs(), s) in WideOwner()
      ensures WideOwner()[Addr(WideView(), WideAddrs(), s)] == Owner(1, s)
    {
      WideAddr(s);
    }
    forall a | a in WideOwner() ensures Addr(WideView(), WideAddrs(), WideOwner()[a].slot) == a {
      WideAddr(WideSlot(a));
      assert Addr(WideView(), WideAddrs(), WideSlot(a)) != 0;
    }
  }

  lemma WideTight()
    ensures Tight(WideView(), WideAddrs(), FIRST)
  {
    hide WideView, Addr;
    forall bn: nat | bn * BSIZE < FIRST ensures Addr(WideView(), WideAddrs(), BlockSlot(bn)) != 0 {
      WideAddr(BlockSlot(bn));
    }
    forall t: Slot | t.Ok() && Addr(WideView(), WideAddrs(), t) != 0 ensures Needed(t, FIRST) {
      WideAddr(t);
      var bn: nat := if t.Direct? then t.i else if t.IndEntry? then NDIRECT + t.i else NDIRECT;
      assert bn * BSIZE < FIRST && t in Path(bn);
    }
  }

  /** Three of the six free sectors are under each bitmap sector. */
  lemma WideFree()
    ensures FreeData(WIDE, WideOwner()) == {4093, 4094, 4095, 4096, 4097, 4098} && |FreeData(WIDE, WideOwner())| == 6
  {
    var low: set<nat> := {4093, 4094, 4095};
    var high: set<nat> := {4096, 4097, 4098};
    assert FreeData(WIDE, WideOwner()) == low + high;
    assert low !! high;
  }

  /** A slot on the way to the blocks past the last but one is filled with one of them. */
  lemma WideNew(s0: State, s1: State, t: Slot) returns (a: nat)
    requires DiskOk(s0.view, WIDE, s0.files, s0.owner) && DiskOk(s1.view, WIDE, s1.files, s1.owner)
    requires 1 in s0.files && 1 in s1.files && Grown(s0.owner, s1.owner, 1, Paths(BOUNDARY, BOUNDARY + 4))
    requires Tight(s0.view, s0.files[1], FIRST) && HoleFree(s1.view, s1.files[1], FIRST + CHUNK)
    requires t == IndEntry(NINDIRECT - 1) || t == Dind || t == DindEntry(0) || t == DindLeaf(0, 0)
    requires s0.owner == WideOwner()
    ensures a in s1.owner && a !in s0.owner && s1.owner[a].slot == t && 4093 <= a <= 4098
  {
    hide Addr, DiskOk, Grown, Paths, Tight, HoleFree, WideOwner, FreeData;
    NotYet(s0.view, s0.files[1], FIRST, t);
    BoundaryFilled(s1.view, s1.files[1], FIRST, t);
    FilledIsNew(WIDE, s0, s1, 1, BOUNDARY, BOUNDARY + 4, t);
    a := Addr(s1.view, s1.files[1], t);
    SlotHolds(s1.view, WIDE, s1.files, s1.owner, 1, t);
    WideFree();
    assert a in FreeData(WIDE, s0.owner) by { IsFreeData(WIDE, s0.owner, a); }
  }

  lemma BoundaryFilled(view: View, addrs: Addrs, size: nat, t: Slot)
    requires t in Boundary() && BOUNDARY * BSIZE < size && HoleFree(view, addrs, size + CHUNK)
    ensures t.Ok() && Addr(view, addrs, t) != 0
  {
    hide Addr, Paths, BlockSlot;
    BoundaryPaths();
    PathThere(view, addrs, BOUNDARY, BOUNDARY + 4, t);
  }

  lemma IsFreeData(sb: Super, owner: map<nat, Owner>, a: nat)
    requires a < sb.size && sb.IsData(a) && a !in owner
    ensures a in FreeData(sb, owner)
  {
  }

  /** Four sectors of the six are not all under one bitmap sector. */
  lemma TwoMaps(s0: State, s1: State)
    requires DiskOk(s0.view, WIDE, s0.files, s0.owner) && DiskOk(s1.view, WIDE, s1.files, s1.owner)
    requires 1 in s0.files && 1 in s1.files && Grown(s0.owner, s1.owner, 1, Paths(BOUNDARY, BOUNDARY + 4))
    requires Tight(s0.view, s0.files[1], FIRST) && HoleFree(s1.view, s1.files[1], FIRST + CHUNK)
    requires s0.owner == WideOwner()
    ensures |NewMaps(WIDE, s0.owner, s1.owner)| >= 2
  {
    hide DiskOk, Grown, Paths, Tight, HoleFree, WideOwner;
    var a := WideNew(s0, s1, IndEntry(NINDIRECT - 1));
    var b := WideNew(s0, s1, Dind);
    var c := WideNew(s0, s1, DindEntry(0));
    var d := WideNew(s0, s1, DindLeaf(0, 0));
    var low := if a < 4096 then a else if b < 4096 then b else if c < 4096 then c else d;
    var high := if a >= 4096 then a else if b >= 4096 then b else if c >= 4096 then c else d;
    assert low < 4096 <= high;
    assert WIDE.BitmapBlock(low) == 3952 && WIDE.BitmapBlock(high) == 3953;
    SubsetSize({3952, 3953}, NewMaps(WIDE, s0.owner, s1.owner));
  }

  lemma WideRefused(t: Transaction, more: seq<Byte>)
    requires |more| == CHUNK && t.Ok(WIDE) && OneWrite(WIDE, t, FIRST, more) && t.inum == 1
    requires t.size0 == FIRST && t.size1 == FIRST + CHUNK && Tight(t.s0.view, t.s0.files[1], FIRST)
    requires t.s0.owner == WideOwner()
    ensures WIDE.Ok() && 0 <= WIDE.LogStart() && !LogOf(WIDE).Accepted(t.s1.writes)
  {
    hide DiskOk, Journal, Tight, IsDinode, HoleFree, NewMaps, WideOwner, Grown, Slotted, Written, LoggedFor, Paths;
    assert FIRST / BSIZE == BOUNDARY && EndBlock(FIRST, CHUNK) == BOUNDARY + 4;
    BoundaryAccepted(WIDE, t, FIRST, more);
    TwoMaps(t.s0, t.mid);
  }

  /** A chunk at the end of the file: log_write refuses the inode, and filewrite panics. */
  method TooWide() returns (fs: FileSystem, ip: Inode)
    ensures fs.sb == WIDE && fs.sb.Ok() && 0 <= fs.sb.LogStart() && !LogOf(fs.sb).Accepted(fs.writes)
  {
    hide DiskOk, FileByte, Journal, Tight, Transaction.Ok, Wrote, Written, IsDinode, FreeData, BlocksFor, HoleFree;
    hide NewMaps;
    hide WideView, WideOwner, WideAddrs, Addr;
    WideOk();
    WideTight();
    WideFree();
    Sizes();
    fs := new FileSystem(WIDE, WideView(), map[1 := WideAddrs()], WideOwner());
    ip := new Inode(1, 2, 0x1_0000, FIRST, WideAddrs());
    fs.Iupdate(ip);
    SameTight(WideView(), fs.view, ip.addrs, FIRST);
    var more: seq<Byte> := seq(CHUNK, _ => 2);
    ghost var s0 := fs.Now();
    ProgressStarts(fs, ip, FIRST, more);
    var ok;
    ghost var t;
    ok, t := OneTransaction(fs, ip, FIRST, more, 0, CHUNK, s0, FIRST);
    assert more[0..0 + CHUNK] == more;
    WideRefused(t, more);
  }

  lemma SameTight(view: View, view': View, addrs: Addrs, size: nat)
    requires Tight(view, addrs, size) && forall s: Slot :: s.Ok() ==> Addr(view', addrs, s) == Addr(view, addrs, s)
    ensures Tight(view', addrs, size) && HoleFree(view', addrs, size)
  {
    hide Addr, Path;
  }
}
