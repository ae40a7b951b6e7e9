/** Which slots the blocks of a file of a given size take, and how many blocks that makes. */
module FileBlocks {
  import opened Blocks
  import opened FsLayout
  import opened Ownership

  /** The slots bmap goes through for block bn. */
  function Path(bn: nat): (r: set<Slot>)
    requires bn < MAXFILE
    ensures BlockSlot(bn) in r && forall t :: t in r ==> t.Ok()
  {
    var s := BlockSlot(bn);
    match s
    case IndEntry(_) => {Ind, s}
    case DindLeaf(i, _) => {Dind, DindEntry(i), s}
    case _ => {s}
  }

  /** The slots on the way to the blocks from lo to hi. */
  ghost function Paths(lo: nat, hi: nat): (r: set<Slot>)
    requires hi <= MAXFILE
    ensures forall t :: t in r <==> exists bn: nat :: lo <= bn < hi && t in Path(bn)
  {
    set bn: nat, t | lo <= bn < hi && t in Path(bn) :: t
  }

  /** With a slot, a path has the slot above it. */
  lemma PathUp(bn: nat, t: Slot)
    requires bn < MAXFILE && t in Path(bn) && !InInode(t)
    ensures Up(t) in Path(bn)
  {
  }

  /** A file of this size has a block for every position. */
  ghost predicate HoleFree(view: View, addrs: Addrs, size: nat) {
    size <= MAXFILE * BSIZE && forall bn: nat :: bn * BSIZE < size ==> Addr(view, addrs, BlockSlot(bn)) != 0
  }

  /** And it has no others: a slot is filled exactly if it is on the way to a block of the file. */
  ghost predicate Tight(view: View, addrs: Addrs, size: nat) {
    && HoleFree(view, addrs, size)
    && forall t: Slot :: t.Ok() && Addr(view, addrs, t) != 0 ==> Needed(t, size)
  }

  ghost predicate Needed(t: Slot, size: nat)
    requires size <= MAXFILE * BSIZE
  {
    exists bn: nat :: bn * BSIZE < size && t in Path(bn)
  }

  /** A block number that is found has been found through others. */
  lemma AbovePresent(view: View, addrs: Addrs, s: Slot)
    requires s.Ok() && !InInode(s) && Addr(view, addrs, s) != 0
    ensures Addr(view, addrs, Up(s)) != 0
  {
    hide GetWord;
  }

  lemma PathPresent(view: View, addrs: Addrs, bn: nat, t: Slot)
    requires bn < MAXFILE && t in Path(bn) && Addr(view, addrs, BlockSlot(bn)) != 0
    ensures Addr(view, addrs, t) != 0
  {
    hide Addr;
    var s := BlockSlot(bn);
    if !InInode(s) {
      AbovePresent(view, addrs, s);
      if !InInode(Up(s)) {
        AbovePresent(view, addrs, Up(s));
      }
    }
  }

  // How many blocks a file has

  function Empty(view: View, addrs: Addrs, t: Slot): nat
    requires t.Ok()
  {
    if Addr(view, addrs, t) == 0 then 1 else 0
  }

  /** The number of empty slots on the way to block bn: what bmap has to allocate. */
  function Need(view: View, addrs: Addrs, bn: nat): nat
    requires bn < MAXFILE
  {
    var s := BlockSlot(bn);
    Empty(view, addrs, s) +
    match s
    case IndEntry(_) => Empty(view, addrs, Ind)
    case DindLeaf(i, _) => Empty(view, addrs, Dind) + Empty(view, addrs, DindEntry(i))
    case _ => 0
  }

  /** Data and indirect blocks of a file of n data blocks. */
  function BlocksOf(n: nat): nat {
    n + (if n > NDIRECT then 1 else 0) +
    if n > NDIRECT + NINDIRECT then 1 + (n - NDIRECT - NINDIRECT + NINDIRECT - 1) / NINDIRECT else 0
  }

  function DataBlocks(size: nat): nat {
    (size + BSIZE - 1) / BSIZE
  }

  /** Data and indirect blocks of a file of this size. */
  function BlocksFor(size: nat): nat {
    BlocksOf(DataBlocks(size))
  }

  lemma BlocksGrow(size: nat, more: nat)
    requires size <= more
    ensures BlocksFor(size) <= BlocksFor(more)
  {
    assert DataBlocks(size) <= DataBlocks(more);
  }

  /** One more block of a file without holes takes no more than the file of the new size has. */
  lemma NextNeed(view: View, addrs: Addrs, size: nat, off: nat, m: nat)
    requires HoleFree(view, addrs, size) && off <= size && 0 < m <= BSIZE - off % BSIZE && off + m <= MAXFILE * BSIZE
    ensures var more := if size < off + m then off + m else size;
            off / BSIZE < MAXFILE && BlocksFor(size) + Need(view, addrs, off / BSIZE) <= BlocksFor(more)
  {
    hide Addr, HoleFree;
    var bn := off / BSIZE;
    if bn * BSIZE < size {
      NeedNothing(view, addrs, size, bn);
      BlocksGrow(size, if size < off + m then off + m else size);
    } else {
      assert off == size == bn * BSIZE && DataBlocks(size) == bn && DataBlocks(off + m) == bn + 1;
      NeedNext(view, addrs, size, bn);
    }
  }

  lemma NeedNothing(view: View, addrs: Addrs, size: nat, bn: nat)
    requires HoleFree(view, addrs, size) && bn * BSIZE < size
    ensures bn < MAXFILE && Need(view, addrs, bn) == 0
  {
    hide Addr;
    var s := BlockSlot(bn);
    match s {
      case IndEntry(_) => PathPresent(view, addrs, bn, Ind);
      case DindLeaf(i, _) =>
        PathPresent(view, addrs, bn, Dind);
        PathPresent(view, addrs, bn, DindEntry(i));
      case _ =>
    }
  }

  lemma NeedNext(view: View, addrs: Addrs, size: nat, bn: nat)
    requires HoleFree(view, addrs, size) && size == bn * BSIZE && bn < MAXFILE
    ensures BlocksOf(bn) + Need(view, addrs, bn) <= BlocksOf(bn + 1)
  {
    hide Addr;
    var s := BlockSlot(bn);
    match s {
      case IndEntry(i) =>
        if i > 0 {
          PathPresent(view, addrs, bn - 1, Ind);
        }
      case DindLeaf(i, j) =>
        var n := bn - NDIRECT - NINDIRECT;
        if n > 0 {
          PathPresent(view, addrs, bn - 1, Dind);
          if j > 0 {
            assert (n - 1) / NINDIRECT == i;
            PathPresent(view, addrs, bn - 1, DindEntry(i));
          }
        }
      case _ =>
    }
  }
}
