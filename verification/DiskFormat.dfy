/** The disk in bytes: where the records, the bits, the files and the log are that the other modules name by functions
    of their own. Kernel and mkfs share the header these come from. */
module DiskFormat {
  import opened Blocks
  import opened FileSystem
  import opened FsLayout
  import opened Ownership
  import opened RedoLog

  /** Four bytes, lowest first. */
  function Le(b: Block, o: nat): nat
    requires o + 4 <= 512
  {
    (b[o] as int) + 256 * (b[o + 1] as int) + 65536 * (b[o + 2] as int) + 16777216 * (b[o + 3] as int)
  }

  /** Inode records are 64 bytes, eight to a sector from sector 2 on: type and major, minor and links, size, and
      thirteen block numbers. */
  lemma InodeRecord(view: View, sb: Super, inum: nat, din: Dinode)
    requires sb.InodeBlock(inum) < |view| && IsDinode(view[sb.InodeBlock(inum)], inum, din)
    ensures 2 + inum / 8 < |view|
    ensures var b, o := view[2 + inum / 8], 64 * (inum % 8);
            && Le(b, o) == din.head0 && Le(b, o + 4) == din.head1 && Le(b, o + 8) == din.size && |din.addrs| == 13
            && forall j :: 0 <= j < 13 ==> Le(b, o + 12 + 4 * j) == din.addrs[j]
  {
    var b, at := view[2 + inum / 8], 16 * (inum % 8);
    forall j: nat | j < 13 ensures Le(b, 64 * (inum % 8) + 12 + 4 * j) == din.addrs[j] {
      assert GetWord(b, at + 3 + j) == din.addrs[j];
    }
  }

  /** The bit of a sector in the free map, 4096 to a sector, after the inodes and one sector more. */
  lemma FreeMapBit(view: View, sb: Super, b: nat)
    requires sb.Ok() && b < sb.size <= |view|
    ensures b / 4096 + (sb.ninodes + 7) / 8 + 3 < |view|
    ensures BitSet(view, sb, b) <==>
              ((view[b / 4096 + (sb.ninodes + 7) / 8 + 3][b % 4096 / 8] as bv8) & (1 << (b % 8))) != 0
  {
    sb.BitmapBlockFacts(b);
    assert b % 4096 % 8 == b % 8;
  }

  function Entry(view: View, a: nat, j: nat): nat
    requires j < 128
  {
    if 0 < a < |view| then Le(view[a], 4 * j) else 0
  }

  /** Byte p of a file: eleven blocks by the inode, 128 by one indirect block, 128 times 128 by two; and 0 where there
      is no block. */
  lemma FileBytes(view: View, addrs: Addrs, p: nat)
    requires p < 16523 * 512
    ensures |addrs| == 13 && p < MAXFILE * BSIZE
    ensures var bn := p / 512;
            var a := if bn < 11 then addrs[bn]
                     else if bn < 139 then Entry(view, addrs[11], bn - 11)
                     else Entry(view, Entry(view, addrs[12], (bn - 139) / 128), (bn - 139) % 128);
            FileByte(view, addrs, p) == if 0 < a < |view| then view[a][p % 512] else 0
  {
  }

  /** writei takes what begins inside the file or at its end and ends at 8459776 or before. */
  lemma LargestFile(size: nat, off: nat, n: nat)
    ensures CanWrite(size, off, n) <==> off <= size && off + n <= 8459776
  {
  }

  /** The log header: the count and then the sectors. */
  lemma LogHeader(l: Layout, d: Disk, i: nat)
    requires l.Fits(d) && l.Count(d) <= 10 && i < l.Count(d)
    ensures l.Count(d) == Le(d[l.start], 0) && |l.Sectors(d)| == l.Count(d)
    ensures l.Sectors(d)[i] == Le(d[l.start], 4 + 4 * i)
  {
    assert l.Sectors(d)[i] == GetWord(d[l.start], 1 + i);
  }
}
