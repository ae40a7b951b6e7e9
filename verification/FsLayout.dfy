/** Where things are on a file system disk, and the bits of the free map. */
module FsLayout {
  import opened Blocks

  const BPB: nat := 4096        // bitmap bits per block
  const IPB: nat := 8           // inodes per block
  const NDIRECT: nat := 11
  const NINDIRECT: nat := 128
  const MAXFILE: nat := NDIRECT + NINDIRECT + NINDIRECT * NINDIRECT
  const NADDRS: nat := NDIRECT + 2

  datatype Super = Super(size: nat, nblocks: nat, ninodes: nat, nlog: nat) {
    function InodeBlocks(): nat {
      (ninodes + IPB - 1) / IPB
    }

    /** IBLOCK */
    function InodeBlock(inum: nat): nat {
      inum / IPB + 2
    }

    /** BBLOCK */
    function BitmapBlock(b: nat): nat {
      b / BPB + InodeBlocks() + 3
    }

    function LogStart(): int {
      size - nlog
    }

    function DataStart(): int {
      size - nlog - nblocks
    }

    predicate IsData(b: int) {
      DataStart() <= b < LogStart()
    }

    /** The regions do not overlap: superblock, inodes, bitmap, data, log. */
    predicate Ok() {
      && 0 < nblocks && size < 0x1_0000_0000
      && InodeBlocks() + 3 + size / BPB + 1 <= DataStart()
    }

    lemma BitmapBlockFacts(b: nat)
      requires Ok() && b < size
      ensures InodeBlocks() + 3 <= BitmapBlock(b) < DataStart()
    {
    }
  }

  // The bits of a bitmap block: bit bi is bit bi % 8 of byte bi / 8

  predicate Masked(x: bv8, k: nat)
    requires k < 8
  {
    x & (1 << k) != 0
  }

  function Or(x: bv8, k: nat): bv8
    requires k < 8
  {
    x | (1 << k)
  }

  function AndNot(x: bv8, k: nat): bv8
    requires k < 8
  {
    x & !(1 << k)
  }

  predicate TestBit(x: Byte, k: nat)
    requires k < 8
  {
    Masked(x as bv8, k)
  }

  function WithBit(x: Byte, k: nat): (r: Byte)
    requires k < 8
  {
    Or(x as bv8, k) as int
  }

  function WithoutBit(x: Byte, k: nat): (r: Byte)
    requires k < 8
  {
    AndNot(x as bv8, k) as int
  }

  lemma WithBitAt(x: Byte, k: nat, j: nat)
    requires k < 8 && j < 8
    ensures TestBit(WithBit(x, k), j) == (j == k || TestBit(x, j))
  {
    hide Masked, Or;
    AsByte(Or(x as bv8, k));
    MaskOr(x as bv8, k, j);
  }

  lemma WithoutBitAt(x: Byte, k: nat, j: nat)
    requires k < 8 && j < 8
    ensures TestBit(WithoutBit(x, k), j) == (j != k && TestBit(x, j))
  {
    hide Masked, AndNot;
    AsByte(AndNot(x as bv8, k));
    MaskAnd(x as bv8, k, j);
  }

  lemma AsByte(x: bv8)
    ensures 0 <= x as int < 256 && (x as int) as bv8 == x
  {
  }

  lemma MaskOr(x: bv8, k: nat, j: nat)
    requires k < 8 && j < 8
    ensures Masked(Or(x, k), j) == (j == k || Masked(x, j))
  {
    if k == 0 { } else if k == 1 { } else if k == 2 { } else if k == 3 { } else if k == 4 { } else if k == 5 { }
    else if k == 6 { } else { assert k == 7; }
  }

  lemma MaskAnd(x: bv8, k: nat, j: nat)
    requires k < 8 && j < 8
    ensures Masked(AndNot(x, k), j) == (j != k && Masked(x, j))
  {
    if k == 0 { } else if k == 1 { } else if k == 2 { } else if k == 3 { } else if k == 4 { } else if k == 5 { }
    else if k == 6 { } else { assert k == 7; }
  }

  predicate BitAt(b: Block, bi: nat)
    requires bi < BPB
  {
    TestBit(b[bi / 8], bi % 8)
  }

  function SetBit(b: Block, bi: nat): (r: Block)
    requires bi < BPB
    ensures forall bj: nat :: bj < BPB ==> BitAt(r, bj) == (bj == bi || BitAt(b, bj))
  {
    var r := b[bi / 8 := WithBit(b[bi / 8], bi % 8)];
    assert forall bj: nat :: bj < BPB ==> BitAt(r, bj) == (bj == bi || BitAt(b, bj)) by {
      hide TestBit, WithBit;
      forall bj: nat | bj < BPB ensures BitAt(r, bj) == (bj == bi || BitAt(b, bj)) {
        WithBitAt(b[bi / 8], bi % 8, bj % 8);
      }
    }
    r
  }

  function ClearBit(b: Block, bi: nat): (r: Block)
    requires bi < BPB
    ensures forall bj: nat :: bj < BPB ==> BitAt(r, bj) == (bj != bi && BitAt(b, bj))
  {
    var r := b[bi / 8 := WithoutBit(b[bi / 8], bi % 8)];
    assert forall bj: nat :: bj < BPB ==> BitAt(r, bj) == (bj != bi && BitAt(b, bj)) by {
      hide TestBit, WithoutBit;
      forall bj: nat | bj < BPB ensures BitAt(r, bj) == (bj != bi && BitAt(b, bj)) {
        WithoutBitAt(b[bi / 8], bi % 8, bj % 8);
      }
    }
    r
  }
}
