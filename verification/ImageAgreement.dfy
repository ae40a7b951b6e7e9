/** mkfs and the kernel agree: whatever mkfs appends to the files of an image, in whatever order and pieces, the
    kernel finds and reads. */
module ImageAgreement {
  import opened Blocks
  import opened FileBlocks
  import opened FileChanges
  import opened FileSystem
  import opened FsLayout
  import opened MkFs
  import opened Options
  import opened Ownership

  /** What mkfs does to the files of an image. */
  datatype Action =
    | NewFile(head0: Word, head1: Word)
    | Append(n: nat, bytes: seq<Byte>)

  /** The contents of inodes 1, 2 and so on. */
  type Files = seq<seq<Byte>>

  function Perform(files: Files, a: Action): Files {
    match a
    case NewFile(_, _) => files + [[]]
    case Append(n, bytes) => if 1 <= n <= |files| then files[n - 1 := files[n - 1] + bytes] else files
  }

  function Contents(actions: seq<Action>): Files {
    if actions == [] then [] else Perform(Contents(actions[..|actions| - 1]), actions[|actions| - 1])
  }

  /** There is an inode for a new file; an append is to a file that was made, and leaves it within the largest size. */
  predicate Allowed(files: Files, a: Action, ninodes: nat) {
    match a
    case NewFile(_, _) => |files| + 1 < ninodes
    case Append(n, bytes) => 1 <= n <= |files| && |files[n - 1]| + |bytes| <= MAXFILE * BSIZE
  }

  predicate AllAllowed(actions: seq<Action>, ninodes: nat) {
    forall k :: 0 <= k < |actions| ==> Allowed(Contents(actions[..k]), actions[k], ninodes)
  }

  /** Data and indirect blocks of all files. */
  function TotalBlocks(files: Files): nat {
    if files == [] then 0 else TotalBlocks(files[..|files| - 1]) + BlocksFor(|files[|files| - 1]|)
  }

  lemma {:induction false} TotalChange(files: Files, i: nat, f: seq<Byte>)
    requires i < |files|
    ensures TotalBlocks(files[i := f]) == TotalBlocks(files) - BlocksFor(|files[i]|) + BlocksFor(|f|)
  {
    hide BlocksFor;
    var n := |files| - 1;
    if i == n {
      assert files[i := f][..n] == files[..n];
    } else {
      TotalChange(files[..n], i, f);
      assert files[i := f][..n] == files[..n][i := f];
    }
  }

  lemma TotalNew(files: Files)
    ensures TotalBlocks(files + [[]]) == TotalBlocks(files)
  {
    assert (files + [[]])[..|files|] == files;
    assert TotalBlocks(files + [[]]) == TotalBlocks(files) + BlocksFor(0);
  }

  lemma TotalStep(files: Files, a: Action)
    ensures TotalBlocks(files) <= TotalBlocks(Perform(files, a))
    ensures a.NewFile? ==> TotalBlocks(Perform(files, a)) == TotalBlocks(files)
    ensures a.Append? && 1 <= a.n <= |files| ==>
              TotalBlocks(Perform(files, a)) ==
              TotalBlocks(files) - BlocksFor(|files[a.n - 1]|) + BlocksFor(|files[a.n - 1]| + |a.bytes|)
  {
    hide BlocksFor, TotalBlocks;
    match a {
      case NewFile(_, _) => TotalNew(files);
      case Append(n, bytes) =>
        if 1 <= n <= |files| {
          TotalChange(files, n - 1, files[n - 1] + bytes);
          BlocksGrow(|files[n - 1]|, |files[n - 1]| + |bytes|);
        }
    }
  }

  lemma {:induction false} TotalGrows(actions: seq<Action>, k: nat)
    requires k <= |actions|
    ensures TotalBlocks(Contents(actions[..k])) <= TotalBlocks(Contents(actions))
    decreases |actions| - k
  {
    hide Perform, TotalBlocks;
    if k < |actions| {
      TotalGrows(actions, k + 1);
      assert actions[..k + 1][..k] == actions[..k];
      TotalStep(Contents(actions[..k]), actions[k]);
    } else {
      assert actions[..k] == actions;
    }
  }

  /** A file's blocks and record hold these bytes. */
  ghost predicate IsFile(view: View, addrs: Addrs, din: Dinode, bytes: seq<Byte>) {
    && din.addrs == addrs && din.size == |bytes| <= MAXFILE * BSIZE
    && forall p :: 0 <= p < |bytes| ==> FileByte(view, addrs, p) == bytes[p]
  }

  ghost predicate Holds(view: View, addrs: map<nat, Addrs>, inodes: map<nat, Dinode>, files: Files) {
    && (forall n :: n in addrs <==> 1 <= n <= |files|) && addrs.Keys == inodes.Keys
    && forall n {:trigger inodes[n]} :: 1 <= n <= |files| ==> IsFile(view, addrs[n], inodes[n], files[n - 1])
  }

  lemma HoldsAdded(view: View, addrs: map<nat, Addrs>, inodes: map<nat, Dinode>, files: Files,
                   view': View, addrs': map<nat, Addrs>, n: nat, din: Dinode)
    requires Holds(view, addrs, inodes, files) && n == |files| + 1 && din.size == 0
    requires addrs'.Keys == addrs.Keys + {n} && (forall i :: i in addrs' ==> addrs'[i] == inodes[n := din][i].addrs)
    requires SameBytes(view, addrs, view', addrs' - {n})
    ensures Holds(view', addrs', inodes[n := din], files + [[]])
  {
    hide FileByte;
    forall i | 1 <= i <= n ensures IsFile(view', addrs'[i], inodes[n := din][i], (files + [[]])[i - 1]) {
      if i < n {
        assert IsFile(view, addrs[i], inodes[i], files[i - 1]) && (addrs' - {n})[i] == addrs'[i];
      }
    }
  }

  lemma HoldsMore(view: View, addrs: map<nat, Addrs>, inodes: map<nat, Dinode>, files: Files,
                  view': View, addrs': map<nat, Addrs>, inodes': map<nat, Dinode>, n: nat, bytes: seq<Byte>)
    requires Holds(view, addrs, inodes, files) && 1 <= n <= |files| && |files[n - 1]| + |bytes| <= MAXFILE * BSIZE
    requires Written(view, addrs, view', addrs', n, |files[n - 1]|, bytes)
    requires inodes'.Keys == inodes.Keys && (forall i :: i in inodes && i != n ==> inodes'[i] == inodes[i])
    requires inodes'[n].size == |files[n - 1]| + |bytes| && (forall i :: i in addrs' ==> addrs'[i] == inodes'[i].addrs)
    ensures Holds(view', addrs', inodes', files[n - 1 := files[n - 1] + bytes])
  {
    hide FileByte;
    var after := files[n - 1 := files[n - 1] + bytes];
    forall i | 1 <= i <= |files| ensures IsFile(view', addrs'[i], inodes'[i], after[i - 1]) {
      assert IsFile(view, addrs[i], inodes[i], files[i - 1]);
      forall p | 0 <= p < |after[i - 1]| ensures FileByte(view', addrs'[i], p) == after[i - 1][p] {
      }
    }
  }

  lemma HoldsSame(view: View, addrs: map<nat, Addrs>, inodes: map<nat, Dinode>, files: Files, view': View)
    requires Holds(view, addrs, inodes, files) && SameBytes(view, addrs, view', addrs)
    ensures Holds(view', addrs, inodes, files)
  {
    hide FileByte;
    forall i | 1 <= i <= |files| ensures IsFile(view', addrs[i], inodes[i], files[i - 1]) {
      assert IsFile(view, addrs[i], inodes[i], files[i - 1]);
    }
  }

  method Step(img: Image, a: Action, ghost files: Files)
    requires img.Valid() && Holds(img.view, img.files, img.inodes, files) && img.freeinode == |files| + 1
    requires Allowed(files, a, img.sb.ninodes)
    requires img.freeblock + TotalBlocks(Perform(files, a)) <= img.sb.LogStart() + TotalBlocks(files)
    modifies img
    ensures img.Valid() && Holds(img.view, img.files, img.inodes, Perform(files, a))
    ensures img.freeinode == |Perform(files, a)| + 1
    ensures img.freeblock + TotalBlocks(files) <= old(img.freeblock) + TotalBlocks(Perform(files, a))
  {
    hide Image.Core, FileByte, BlocksFor, TotalBlocks, Written, SameBytes, IsFile, Whole;
    TotalStep(files, a);
    ghost var view, addrs, inodes := img.view, img.files, img.inodes;
    match a {
      case NewFile(head0, head1) =>
        var n := img.Ialloc(head0, head1);
        HoldsAdded(view, addrs, inodes, files, img.view, img.files, n, Dinode(head0, head1, 0, NO_ADDRS));
      case Append(n, bytes) =>
        assert inodes[n].size == |files[n - 1]| by { Sizes(view, addrs, inodes, files, n); }
        img.Iappend(n, bytes);
        HoldsMore(view, addrs, inodes, files, img.view, img.files, img.inodes, n, bytes);
    }
  }

  lemma Sizes(view: View, addrs: map<nat, Addrs>, inodes: map<nat, Dinode>, files: Files, n: nat)
    requires Holds(view, addrs, inodes, files) && 1 <= n <= |files|
    ensures n in inodes && n in addrs && inodes[n].size == |files[n - 1]| && inodes[n].addrs == addrs[n]
  {
    assert IsFile(view, addrs[n], inodes[n], files[n - 1]);
  }

  /** mkfs from start to end: the image is one the kernel's file system starts from, its free map has just the bits
      of the sectors below the last one used, and every file holds what was appended to it. */
  method Build(size: nat, ninodes: nat, nlog: nat, actions: seq<Action>) returns (img: Image)
    requires size < 0x1_0000_0000 && ninodes < 0x1_0000_0000
    requires AllAllowed(actions, ninodes)
    requires (ninodes + IPB - 1) / IPB + 3 + size / BPB + 1 + nlog < size
    requires (ninodes + IPB - 1) / IPB + 3 + size / BPB + 1 + TotalBlocks(Contents(actions)) + nlog <= size
    ensures fresh(img) && img.sb.ninodes == ninodes && DiskOk(img.view, img.sb, img.files, img.owner)
    ensures Holds(img.view, img.files, img.inodes, Contents(actions)) && Recorded(img.view, img.sb, img.inodes)
    ensures |img.view| == img.sb.size == size
    ensures forall a: nat :: a < size ==> (BitSet(img.view, img.sb, a) <==> a < img.usedblocks)
    ensures img.sb.nlog == nlog && forall a: nat :: a in img.owner <==> img.sb.DataStart() <= a < img.usedblocks
    ensures img.sb.DataStart() == img.sb.InodeBlocks() + 3 + size / BPB + 1
    ensures img.usedblocks <= img.sb.DataStart() + TotalBlocks(Contents(actions))
  {
    hide Image.Core, FileByte, Holds, DiskOk, BitSet, Recorded, Contents, TotalBlocks, Allowed, Perform, Whole;
    hide SameBytes;
    img := new Image(size, ninodes, nlog);
    Nothing(img.view, actions);
    for k := 0 to |actions|
      invariant fresh(img) && img.sb.ninodes == ninodes && img.sb.size == size && img.sb.nlog == nlog
      invariant img.sb.DataStart() == img.sb.InodeBlocks() + 3 + size / BPB + 1
      invariant img.Valid() && Holds(img.view, img.files, img.inodes, Contents(actions[..k]))
      invariant img.freeinode == |Contents(actions[..k])| + 1
      invariant img.freeblock <= (ninodes + IPB - 1) / IPB + 3 + size / BPB + 1 + TotalBlocks(Contents(actions[..k]))
    {
      hide Image.Core, FileByte, Holds, DiskOk, BitSet, Recorded, Contents, TotalBlocks, Allowed, Perform, Whole;
      hide SameBytes;
      Next(actions, k);
      Step(img, actions[k], Contents(actions[..k]));
    }
    assert actions[..|actions|] == actions;
    ghost var view := img.view;
    OwnedAre(img);
    img.Balloc();
    HoldsSame(view, img.files, img.inodes, Contents(actions), img.view);
  }

  lemma Nothing(view: View, actions: seq<Action>)
    ensures Contents(actions[..0]) == [] && TotalBlocks([]) == 0 && Holds(view, map[], map[], [])
  {
  }

  lemma Next(actions: seq<Action>, k: nat)
    requires k < |actions|
    ensures Contents(actions[..k + 1]) == Perform(Contents(actions[..k]), actions[k])
    ensures TotalBlocks(Contents(actions[..k + 1])) <= TotalBlocks(Contents(actions))
  {
    hide Perform, TotalBlocks;
    assert actions[..k + 1][..k] == actions[..k];
    TotalGrows(actions, k + 1);
  }

  lemma OwnedAre(img: Image)
    requires img.Valid()
    ensures (forall a: nat :: a in img.owner <==> img.sb.DataStart() <= a < img.usedblocks)
    ensures img.usedblocks == img.freeblock
  {
    hide Owns, NoBits, Recorded, Whole;
  }

  /** The record that ilock reads. */
  method Ilock(fs: FileSystem, inum: nat) returns (ip: Inode)
    requires fs.sb.InodeBlock(inum) < |fs.view|
    ensures fresh(ip) && ip.inum == inum
    ensures IsDinode(fs.view[fs.sb.InodeBlock(inum)], inum, Dinode(ip.head0, ip.head1, ip.size, ip.addrs))
  {
    hide GetWord;
    var b, at := fs.view[fs.sb.InodeBlock(inum)], 16 * (inum % IPB);
    var addrs: seq<Word> := [];
    for k := 0 to NADDRS
      invariant |addrs| == k && forall j: nat :: j < k ==> GetWord(b, at + 3 + j) == addrs[j]
    {
      hide GetWord;
      addrs := addrs + [GetWord(b, at + 3 + k)];
    }
    ip := new Inode(inum, GetWord(b, at), GetWord(b, at + 1), GetWord(b, at + 2), addrs);
  }

  /** A record is read back one way only. */
  lemma RecordIs(b: Block, inum: nat, din: Dinode, din': Dinode)
    requires IsDinode(b, inum, din) && IsDinode(b, inum, din')
    ensures din == din'
  {
    hide GetWord;
    assert din'.addrs == din.addrs;
  }

  /** An image built by mkfs, as the kernel reads it: any file, from anywhere. */
  method BuildAndRead(size: nat, ninodes: nat, nlog: nat, actions: seq<Action>, n: nat, off: Word, len: Word)
    returns (r: Option<seq<Byte>>)
    requires size < 0x1_0000_0000 && ninodes < 0x1_0000_0000
    requires AllAllowed(actions, ninodes) && 1 <= n <= |Contents(actions)|
    requires (ninodes + IPB - 1) / IPB + 3 + size / BPB + 1 + nlog < size
    requires (ninodes + IPB - 1) / IPB + 3 + size / BPB + 1 + TotalBlocks(Contents(actions)) + nlog <= size
    ensures var bytes := Contents(actions)[n - 1];
            r == if off > |bytes| || off + len >= 0x1_0000_0000 then None
                 else Some(bytes[off..if off + len > |bytes| then |bytes| else off + len])
  {
    hide FileByte, Holds, DiskOk, BitSet, Recorded, Contents, TotalBlocks, Allowed, IsDinode, Journal;
    var img := Build(size, ninodes, nlog, actions);
    var fs := new FileSystem(img.sb, img.view, img.files, img.owner);
    Found(img.view, img.sb, img.files, img.inodes, Contents(actions), n);
    var ip := Ilock(fs, n);
    RecordIs(fs.view[fs.sb.InodeBlock(n)], n, img.inodes[n], Dinode(ip.head0, ip.head1, ip.size, ip.addrs));
    r := fs.Readi(ip, off, len);
    ghost var bytes := Contents(actions)[n - 1];
    assert r.Some? ==> r.value == bytes[off..if off + len > |bytes| then |bytes| else off + len];
  }

  lemma Found(view: View, sb: Super, addrs: map<nat, Addrs>, inodes: map<nat, Dinode>, files: Files, n: nat)
    requires Holds(view, addrs, inodes, files) && Recorded(view, sb, inodes) && 1 <= n <= |files|
    ensures n in addrs && n in inodes && IsFile(view, addrs[n], inodes[n], files[n - 1])
    ensures sb.InodeBlock(n) < |view|
    ensures IsDinode(view[sb.InodeBlock(n)], n, inodes[n])
  {
    hide IsDinode, FileByte;
    assert inodes[n] == inodes[n];
  }
}
