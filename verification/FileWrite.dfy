/** filewrite: how much of the log one of its transactions takes, and what a crash inside it leaves. */
module FileWrite {
  import opened Blocks
  import opened FileBlocks
  import opened FileChanges
  import opened FileSystem
  import opened FsLayout
  import opened LogFit
  import opened Options
  import opened Ownership
  import opened RedoLog
  import opened Ring

  // One transaction, from begin_trans to commit_trans

  /** The file system before it, before its inode is logged, and at its end; the inode's size before and after. */
  datatype Transaction = Transaction(inum: nat, head0: Word, head1: Word, s0: State, size0: Word, mid: State, s1: State,
                                     size1: Word)
  {
    /** The disk is in order before and after, the difference is what the transaction logged, and but for the inode,
        which goes last, it logs at most seven sectors besides those of the bitmap. */
    ghost predicate Ok(sb: Super) {
      && DiskOk(s0.view, sb, s0.files, s0.owner) && DiskOk(s1.view, sb, s1.files, s1.owner)
      && inum in s0.files && inum in s1.files && inum < sb.ninodes && sb.InodeBlock(inum) < sb.DataStart()
      && IsDinode(s0.view[sb.InodeBlock(inum)], inum, Dinode(head0, head1, size0, s0.files[inum]))
      && IsDinode(s1.view[sb.InodeBlock(inum)], inum, Dinode(head0, head1, size1, s1.files[inum]))
      && Journal(s0.view, s1.writes, s1.view, s1.logged) && (forall x :: x in s1.logged ==> x < sb.LogStart())
      && mid.logged == Logged(mid.writes) && |mid.logged| <= |Maps(sb)| + 7
      && mid.writes <= s1.writes && |s1.writes| <= |mid.writes| + 1
    }

    ghost function Maps(sb: Super): set<nat> {
      NewMaps(sb, s0.owner, s1.owner)
    }
  }

  // No log_write meets a full log

  lemma {:induction false} LoggedGrows(writes: seq<Write>, k: nat)
    requires k <= |writes|
    ensures |Logged(writes[..k])| <= |Logged(writes)|
    ensures forall x :: x in Logged(writes[..k]) ==> x in Logged(writes)
    decreases |writes| - k
  {
    if k < |writes| {
      LoggedGrows(writes, k + 1);
      assert writes[..k + 1][..k] == writes[..k];
    } else {
      assert writes[..k] == writes;
    }
  }

  /** log_write takes a list of writes exactly if they are to home sectors and the header before the last has room. */
  lemma {:induction false} AcceptedIff(layout: Layout, writes: seq<Write>)
    requires writes != []
    ensures layout.Accepted(writes) <==>
              |Logged(writes[..|writes| - 1])| < layout.Capacity() && forall x :: x in Logged(writes) ==>
                x < layout.start
  {
    var prev := writes[..|writes| - 1];
    if prev != [] {
      AcceptedIff(layout, prev);
      LoggedGrows(prev, |prev| - 1);
    }
    assert forall x :: x in Logged(writes) <==> x in Logged(prev) || x == writes[|writes| - 1].0;
  }

  /** The log of the file system's disk. */
  function LogOf(sb: Super): Layout
    requires sb.Ok() && 0 <= sb.LogStart()
  {
    Layout(sb.LogStart(), sb.nlog)
  }

  /** With one bitmap sector to a transaction, no log_write of filewrite meets a full log of ten sectors or more. */
  lemma NeverFull(sb: Super, t: Transaction)
    requires sb.Ok() && 0 <= sb.LogStart() && t.Ok(sb) && |t.Maps(sb)| <= 1 && sb.nlog >= 10
    ensures LogOf(sb).Accepted(t.s1.writes)
  {
    hide DiskOk, IsDinode, NewMaps;
    var writes := t.s1.writes;
    if writes != [] {
      AcceptedIff(LogOf(sb), writes);
      var k := |writes| - 1;
      if k < |t.mid.writes| {
        LoggedGrows(t.mid.writes, k);
        assert t.mid.writes[..k] == writes[..k];
      } else {
        assert t.mid.writes == writes[..k];
      }
    }
  }

  // A crash inside the transaction

  /** The file system does not depend on what is in the log's sectors. */
  lemma HomeOnly(view: View, view': View, sb: Super, files: map<nat, Addrs>, owner: map<nat, Owner>)
    requires DiskOk(view, sb, files, owner) && sb.size <= |view'| && 0 <= sb.LogStart() <= |view|
    requires view'[..sb.LogStart()] == view[..sb.LogStart()]
    ensures DiskOk(view', sb, files, owner) && SameBytes(view, files, view', files)
  {
    hide BitAt, GetWord, BlockSlot, Addr, FileByte;
    forall a: nat | a < sb.LogStart() ensures view'[a] == view[a] {
      assert view'[..sb.LogStart()][a] == view[..sb.LogStart()][a];
    }
    forall i: nat, s: Slot | i in files && s.Ok() ensures Addr(view', files[i], s) == Addr(view, files[i], s) {
      OwnedMatters(view, view', files, owner, i, s);
    }
    forall a: nat | a < sb.LogStart() ensures BitSet(view', sb, a) == BitSet(view, sb, a) {
      sb.BitmapBlockFacts(a);
    }
    forall i: nat, p: nat | i in files && p < MAXFILE * BSIZE
      ensures FileByte(view', files[i], p) == FileByte(view, files[i], p)
    {
      OwnedBytes(view, view', files, owner, i, p);
    }
  }

  /** The file system that boots from a disk with these home sectors: in order, and the file as it was then. */
  ghost predicate Boots(sb: Super, disk: Disk, t: Transaction, s: State, size: Word) {
    && DiskOk(disk, sb, s.files, s.owner) && SameBytes(s.view, s.files, disk, s.files) && t.inum in s.files
    && sb.InodeBlock(t.inum) < |disk|
    && IsDinode(disk[sb.InodeBlock(t.inum)], t.inum, Dinode(t.head0, t.head1, size, s.files[t.inum]))
  }

  lemma BootsFrom(sb: Super, disk: Disk, t: Transaction, after: bool)
    requires t.Ok(sb) && sb.size <= |disk| && 0 <= sb.LogStart() <= |t.s0.view|
    requires |t.s1.view| == |t.s0.view| && disk[..sb.LogStart()] == (if after then t.s1 else t.s0).view[..sb.LogStart()]
    ensures Boots(sb, disk, t, if after then t.s1 else t.s0, if after then t.size1 else t.size0)
  {
    hide DiskOk, SameBytes, IsDinode, Journal, NewMaps;
    var s, ib := if after then t.s1 else t.s0, sb.InodeBlock(t.inum);
    HomeOnly(s.view, disk, sb, s.files, s.owner);
    assert disk[..sb.LogStart()][ib] == s.view[..sb.LogStart()][ib];
  }

  /** A disk with an empty log and the home sectors of the view. */
  ghost predicate OnDisk(sb: Super, d: Disk, view: View)
    requires sb.Ok() && 0 <= sb.LogStart()
  {
    && LogOf(sb).LogOk(d) && LogOf(sb).Count(d) == 0
    && sb.LogStart() <= |view| && LogOf(sb).Home(d) == view[..sb.LogStart()]
  }

  /** Stop a transaction of filewrite after any number of its sector writes, then cut off any number of recoveries:
      the system that finally boots has a file system in order, with every file as before the transaction or every
      file as after it, and with the inode that goes with that; the header write decides which. */
  lemma CrashInWrite(sb: Super, t: Transaction, d: Disk, k: nat, crashes: seq<Disk>)
    requires sb.Ok() && 0 <= sb.LogStart() && t.Ok(sb)
    requires OnDisk(sb, d, t.s0.view) && LogOf(sb).AttemptOk(d, Crashes(t.s1.writes, k, crashes))
    ensures var final := LogOf(sb).Rebooted(crashes); var after := k > |t.s1.writes|;
            LogOf(sb).LogOk(final) && LogOf(sb).Count(final) == 0
            && Boots(sb, final, t, if after then t.s1 else t.s0, if after then t.size1 else t.size0)
  {
    hide Transaction.Ok, Boots, Layout.Count, Layout.Accepted, Layout.TransactionTrace, Layout.CrashChain;
    var log, writes := LogOf(sb), t.s1.writes;
    log.CrashAtomicity(d, writes, k, crashes);
    var final := log.Rebooted(crashes);
    assert Journal(t.s0.view, writes, t.s1.view, t.s1.logged) by { TransactionFacts(sb, t); }
    ApplyHome(t.s0.view, writes, sb.LogStart());
    assert final[..sb.LogStart()] == log.Home(final);
    BootsFrom(sb, final, t, k > |writes|);
  }

  lemma TransactionFacts(sb: Super, t: Transaction)
    requires t.Ok(sb)
    ensures Journal(t.s0.view, t.s1.writes, t.s1.view, t.s1.logged)
  {
    hide DiskOk, IsDinode, Journal, NewMaps;
  }

  lemma {:induction false} ApplyHome(view: View, writes: seq<Write>, n: nat)
    requires n <= |view|
    ensures ApplyWrites(view[..n], writes) == ApplyWrites(view, writes)[..n]
  {
    if writes != [] {
      ApplyHome(view, writes[..|writes| - 1], n);
    }
  }

  // filewrite

  /** How many bytes filewrite gets done: all, or the whole chunks that fit in the largest file. */
  function Accepts(size: nat, off: nat, n: nat): nat {
    if off > size then 0
    else if off + n <= MAXFILE * BSIZE then n
    else if off > MAXFILE * BSIZE then 0
    else (MAXFILE * BSIZE - off) / CHUNK * CHUNK
  }

  lemma AcceptsChunk(size: nat, off: nat, n: nat, done: nat, m: nat)
    requires off <= size <= MAXFILE * BSIZE && done < n && (done % CHUNK == 0)
    requires m == if n - done > CHUNK then CHUNK else n - done
    requires done <= Accepts(size, off, n)
    ensures if off + done + m <= MAXFILE * BSIZE then done + m <= Accepts(size, off, n)
            else done == Accepts(size, off, n)
    ensures Accepts(size, off, n) <= n
  {
    var most := MAXFILE * BSIZE - off;
    if off + n > MAXFILE * BSIZE {
      assert done / CHUNK * CHUNK == done;
      if off + done + m <= MAXFILE * BSIZE {
        assert m == CHUNK && (done + CHUNK) / CHUNK * CHUNK == done + CHUNK;
        assert (done + CHUNK) / CHUNK <= most / CHUNK;
      } else {
        assert most / CHUNK <= done / CHUNK;
      }
    }
  }

  lemma AcceptsNone(size: nat, off: nat, n: nat)
    requires off > size
    ensures Accepts(size, off, n) == 0
  {
  }

  /** The view at the end of some transactions. */
  ghost function EndView(view: View, log: seq<Transaction>): View {
    if log == [] then view else log[|log| - 1].s1.view
  }

  /** Each transaction starts from what the one before it left. */
  ghost predicate Chained(view: View, log: seq<Transaction>) {
    forall i: nat {:trigger log[i]} :: i < |log| ==> log[i].s0.view == EndView(view, log[..i])
  }

  lemma ChainedMore(view: View, log: seq<Transaction>, t: Transaction)
    requires Chained(view, log) && t.s0.view == EndView(view, log)
    ensures Chained(view, log + [t]) && EndView(view, log + [t]) == t.s1.view
  {
    forall i: nat | i < |log + [t]| ensures (log + [t])[i].s0.view == EndView(view, (log + [t])[..i]) {
      assert (log + [t])[..i] == log[..i];
      assert i == |log| ==> log[..i] == log;
    }
  }

  /** The i-th transaction of a filewrite, which brings it from the first i chunks to one more. */
  ghost predicate IsChunk(sb: Super, view: View, files: map<nat, Addrs>, size: nat, t: Transaction,
                          inum: nat, off: nat, src: seq<Byte>, i: nat) {
    var lo, hi := CHUNK * i, if CHUNK * i + CHUNK < |src| then CHUNK * i + CHUNK else |src|;
    && lo <= hi && t.Ok(sb) && t.inum == inum
    && Written(view, files, t.s0.view, t.s0.files, inum, off, src[..lo]) && t.size0 == SizeWith(size, off, lo)
    && Written(view, files, t.s1.view, t.s1.files, inum, off, src[..hi]) && t.size1 == SizeWith(size, off, hi)
  }

  /** Where filewrite stands after `done` bytes. */
  ghost predicate Progress(fs: FileSystem, ip: Inode, off: nat, src: seq<Byte>, done: nat, s0: State, size0: nat)
    reads fs, ip
  {
    && fs.Valid() && fs.Locked(ip) && fs.Agrees(ip) && HoleFree(fs.view, ip.addrs, ip.size)
    && done <= |src| && (done > 0 ==> off <= size0) && (off <= size0 ==> ip.size == SizeWith(size0, off, done))
    && (off > size0 ==> ip.size == size0)
    && Written(s0.view, s0.files, fs.view, fs.files, ip.inum, off, src[..done])
    && |FreeData(fs.sb, fs.owner)| + BlocksFor(ip.size) >= |FreeData(fs.sb, s0.owner)| + BlocksFor(size0)
    && (Tight(s0.view, s0.files[ip.inum], size0) ==> Tight(fs.view, ip.addrs, ip.size))
  }

  /** begin_trans, writei and commit_trans for the next n bytes. */
  method OneTransaction(fs: FileSystem, ip: Inode, off: Word, src: seq<Byte>, done: nat, n: nat, ghost s0: State,
                        ghost size0: nat)
    returns (good: bool, ghost t: Transaction)
    requires ip.inum in s0.files && Progress(fs, ip, off, src, done, s0, size0) && done < |src|
    requires 0 < n <= CHUNK && done + n <= |src| && size0 <= MAXFILE * BSIZE
    requires CanWrite(ip.size, off + done, n) ==>
               |FreeData(fs.sb, fs.owner)| + BlocksFor(ip.size) >= BlocksFor(SizeWith(ip.size, off + done, n))
    modifies fs, ip
    ensures Progress(fs, ip, off, src, if good then done + n else done, s0, size0)
    ensures good <==> off <= size0 && off + done + n <= MAXFILE * BSIZE
    ensures fs.Now() == t.s1 && t.inum == ip.inum && t.size0 == old(ip.size) && t.size1 == ip.size && t.Ok(fs.sb)
    ensures t.s0.view == old(fs.view) && t.s0.files == old(fs.files) && t.s0.owner == old(fs.owner)
    ensures good ==> OneWrite(fs.sb, t, off + done, src[done..done + n])
    ensures !good ==> fs.view == old(fs.view)
  {
    hide Written, Addr, BlockSlot, FileByte, DiskOk, Wrote, FreeData, BlocksFor, HoleFree, Tight, Journal, IsDinode;
    fs.Begin();
    ghost var begun := fs.Now();
    ghost var mid;
    good, mid := fs.Writei(ip, off + done, src[done..done + n]);
    t := Transaction(ip.inum, ip.head0, ip.head1, begun, old(ip.size), mid, fs.Now(), ip.size);
    assert src[..done] + src[done..done + n] == src[..done + n];
    if good {
      WrittenTrans(s0.view, s0.files, old(fs.view), old(fs.files), fs.view, fs.files, ip.inum, off, src[..done],
                   src[done..done + n]);
    }
    TransactionOk(fs.sb, t, off + done, src[done..done + n]);
  }

  /** What the transaction wrote. */
  ghost predicate OneWrite(sb: Super, t: Transaction, off: nat, src: seq<Byte>) {
    && off + |src| <= MAXFILE * BSIZE && EndBlock(off, |src|) <= MAXFILE && t.s0.logged == []
    && t.size1 == SizeWith(t.size0, off, |src|)
    && Wrote(sb, t.s0, t.mid, t.inum, off, src, off / BSIZE, EndBlock(off, |src|))
    && t.mid.owner == t.s1.owner && t.mid.files == t.s1.files && t.inum in t.mid.files
    && DiskOk(t.mid.view, sb, t.mid.files, t.mid.owner) && HoleFree(t.mid.view, t.mid.files[t.inum], t.size1)
    && (if t.size1 == t.size0 then t.s1 == t.mid else t.s1.logged == Log(t.mid.logged, sb.InodeBlock(t.inum)))
  }

  lemma {:induction false} LoggedDistinct(writes: seq<Write>)
    ensures Distinct(Logged(writes))
  {
    if writes != [] {
      LoggedDistinct(writes[..|writes| - 1]);
    }
  }

  lemma TransactionOk(sb: Super, t: Transaction, off: nat, src: seq<Byte>)
    requires DiskOk(t.s0.view, sb, t.s0.files, t.s0.owner) && DiskOk(t.s1.view, sb, t.s1.files, t.s1.owner)
    requires DiskOk(t.mid.view, sb, t.mid.files, t.mid.owner) && t.s0.logged == []
    requires t.inum in t.s0.files && t.inum in t.s1.files && t.inum < sb.ninodes && sb.Ok()
    requires var ib := sb.InodeBlock(t.inum);
             && ib < |t.s0.view|
             && IsDinode(t.s0.view[ib], t.inum, Dinode(t.head0, t.head1, t.size0, t.s0.files[t.inum]))
             && ib < |t.s1.view|
             && IsDinode(t.s1.view[ib], t.inum, Dinode(t.head0, t.head1, t.size1, t.s1.files[t.inum]))
    requires Journal(t.s0.view, t.s1.writes, t.s1.view, t.s1.logged)
    requires (forall x :: x in t.s1.logged ==> x < sb.LogStart())
    requires Journal(t.s0.view, t.mid.writes, t.mid.view, t.mid.logged)
    requires t.mid.writes <= t.s1.writes && |t.s1.writes| <= |t.mid.writes| + 1
    requires t.mid == t.s0 || (|src| <= CHUNK && OneWrite(sb, t, off, src))
    ensures t.Ok(sb)
  {
    hide IsDinode, BitsOk, Owns, Wrote, NewMaps;
    if t.mid != t.s0 {
      LoggedDistinct(t.mid.writes);
      WroteItAll(sb, t, off, src);
      ChunkLogs(sb, t.s0, t.mid, t.inum, off, src);
    }
  }

  lemma WroteItAll(sb: Super, t: Transaction, off: nat, src: seq<Byte>)
    requires DiskOk(t.s0.view, sb, t.s0.files, t.s0.owner) && t.inum in t.s0.files && OneWrite(sb, t, off, src)
    ensures WroteAll(sb, t.s0, t.mid, t.inum, off, src, off / BSIZE, EndBlock(off, |src|))
  {
    hide DiskOk, Wrote, HoleFree, Addr, BlockSlot;
    LeavesThere(t.mid.view, t.mid.files[t.inum], t.size1, off, |src|);
  }

  /** The slots a transaction touches, by the state before it. */
  ghost function TouchedBy(t: Transaction, off: nat, src: seq<Byte>): set<Slot>
    requires EndBlock(off, |src|) <= MAXFILE && t.inum in t.s0.files
  {
    TouchedSlots(t.s0.view, t.s0.files[t.inum], off / BSIZE, EndBlock(off, |src|))
  }

  /** The inode's sector is neither a bitmap sector nor a block. */
  lemma InodeApart(sb: Super, t: Transaction, off: nat, src: seq<Byte>)
    requires sb.Ok() && t.Ok(sb) && OneWrite(sb, t, off, src)
    ensures sb.InodeBlock(t.inum) !in t.mid.logged
  {
    hide DiskOk, Wrote, HoleFree, Addr, BlockSlot, IsDinode, Journal, Paths, Touched;
    var lo, hi, addrs := off / BSIZE, EndBlock(off, |src|), t.mid.files[t.inum];
    WroteItAll(sb, t, off, src);
    LoggedAre(sb, t.s0, t.mid, t.inum, off, src, lo, hi);
    forall s | s in TouchedBy(t, off, src) ensures s.Ok() && Addr(t.mid.view, addrs, s) >= sb.DataStart() {
      PathThere(t.mid.view, addrs, lo, hi, s);
      SlotHolds(t.mid.view, sb, t.mid.files, t.mid.owner, t.inum, s);
    }
  }

  /** How much of the log any transaction takes, and, if the file grows and its inode goes last, exactly when the log
      takes the transaction. */
  lemma ChunkFits(sb: Super, t: Transaction, off: nat, src: seq<Byte>)
    requires sb.Ok() && 0 <= sb.LogStart() && t.Ok(sb) && OneWrite(sb, t, off, src)
    ensures |t.mid.logged| == |t.Maps(sb)| + |TouchedBy(t, off, src)|
    ensures t.size1 == t.size0 ==> t.s1.logged == t.mid.logged
    ensures t.size1 != t.size0 ==>
              && |t.s1.logged| == |t.mid.logged| + 1
              && (LogOf(sb).Accepted(t.s1.writes) <==> |t.Maps(sb)| + |TouchedBy(t, off, src)| < LogOf(sb).Capacity())
  {
    hide DiskOk, Wrote, IsDinode, HoleFree, NewMaps, TouchedSlots, ApplyWrites, Layout.Accepted;
    LoggedDistinct(t.mid.writes);
    WroteItAll(sb, t, off, src);
    LoggedCount(sb, t.s0, t.mid, t.inum, off, src, off / BSIZE, EndBlock(off, |src|));
    InodeApart(sb, t, off, src);
    if t.size1 != t.size0 {
      assert |Logged(t.s1.writes)| == |Logged(t.mid.writes)| + 1;
      assert |t.s1.writes| == |t.mid.writes| ==> t.s1.writes == t.mid.writes;
      assert t.s1.writes[..|t.s1.writes| - 1] == t.mid.writes;
      AcceptedIff(LogOf(sb), t.s1.writes);
    }
  }

  /** filewrite on an inode: one transaction for every CHUNK bytes, until one is refused. It gets done exactly the
      bytes that whole chunks fit into the largest file, and needs only the blocks by which the file grows; what it
      has written is laid over the file. Each of its transactions is one that a crash leaves whole or not begun. */
  method WriteFile(fs: FileSystem, ip: Inode, off: Word, src: seq<Byte>)
    returns (ok: bool, done: nat, ghost log: seq<Transaction>)
    requires fs.Valid() && fs.Locked(ip) && fs.Agrees(ip) && HoleFree(fs.view, ip.addrs, ip.size)
    requires |FreeData(fs.sb, fs.owner)| + BlocksFor(ip.size) >=
               BlocksFor(SizeWith(ip.size, if off > ip.size then 0 else off, Accepts(ip.size, off, |src|)))
    modifies fs, ip
    ensures Progress(fs, ip, off, src, done, old(fs.Now()), old(ip.size))
    ensures done == Accepts(old(ip.size), off, |src|) && (ok <==> done == |src|)
    ensures ok <==> src == [] || CanWrite(old(ip.size), off, |src|)
    ensures forall i: nat :: i < |log| ==>
              IsChunk(fs.sb, old(fs.view), old(fs.files), old(ip.size), log[i], ip.inum, off, src, i)
    ensures |log| == (done + 1535) / 1536 && Chained(old(fs.view), log) && fs.view == EndView(old(fs.view), log)
  {
    hide Progress, Going;
    done := 0;
    log := [];
    ghost var s0, size0 := fs.Now(), ip.size;
    GoingStarts(fs, ip, off, src);
    ok := true;
    while done < |src|
      invariant 0 <= done <= |src| && ip.inum in s0.files && Going(fs, ip, off, src, done, s0, size0, log)
    {
      var n;
      ok, n, log := Advance(fs, ip, off, src, done, s0, size0, log);
      if !ok {
        break;
      }
      done := done + n;
    }
    GoingEnds(fs, ip, off, src, done, s0, size0, log, ok);
  }

  /** filewrite after some of its transactions. */
  ghost predicate Going(fs: FileSystem, ip: Inode, off: nat, src: seq<Byte>, done: nat, s0: State, size0: nat,
                        log: seq<Transaction>)
    requires ip.inum in s0.files
    reads fs, ip
  {
    && Progress(fs, ip, off, src, done, s0, size0) && size0 <= MAXFILE * BSIZE
    && done <= Accepts(size0, off, |src|) && (done % CHUNK == 0 || done == |src|) && |log| == (done + CHUNK - 1) / CHUNK
    && |FreeData(fs.sb, s0.owner)| + BlocksFor(size0) >=
         BlocksFor(SizeWith(size0, if off > size0 then 0 else off, Accepts(size0, off, |src|)))
    && (forall i: nat :: i < |log| ==> IsChunk(fs.sb, s0.view, s0.files, size0, log[i], ip.inum, off, src, i))
    && Chained(s0.view, log) && fs.view == EndView(s0.view, log)
  }

  lemma GoingStarts(fs: FileSystem, ip: Inode, off: nat, src: seq<Byte>)
    requires fs.Valid() && fs.Locked(ip) && fs.Agrees(ip) && HoleFree(fs.view, ip.addrs, ip.size)
    requires |FreeData(fs.sb, fs.owner)| + BlocksFor(ip.size) >=
               BlocksFor(SizeWith(ip.size, if off > ip.size then 0 else off, Accepts(ip.size, off, |src|)))
    ensures Going(fs, ip, off, src, 0, fs.Now(), ip.size, [])
  {
    hide Progress, FreeData, BlocksFor, Accepts, Addr, IsDinode, DiskOk, IsChunk, Journal;
    ProgressStarts(fs, ip, off, src);
  }

  /** filewrite stops when all is written, or when a transaction is refused. */
  lemma GoingEnds(fs: FileSystem, ip: Inode, off: nat, src: seq<Byte>, done: nat, s0: State, size0: nat,
                  log: seq<Transaction>, ok: bool)
    requires ip.inum in s0.files && Going(fs, ip, off, src, done, s0, size0, log)
    requires if ok then done == |src| else done == Accepts(size0, off, |src|) < |src|
    ensures done == Accepts(size0, off, |src|) && (ok <==> src == [] || CanWrite(size0, off, |src|))
    ensures Progress(fs, ip, off, src, done, s0, size0) && |log| == (done + CHUNK - 1) / CHUNK
    ensures forall i: nat :: i < |log| ==> IsChunk(fs.sb, s0.view, s0.files, size0, log[i], ip.inum, off, src, i)
    ensures Chained(s0.view, log) && fs.view == EndView(s0.view, log)
  {
    hide Progress, FreeData, BlocksFor, IsChunk;
    assert Accepts(size0, off, |src|) <= |src|;
  }

  /** Before the next transaction: there is room for it, and it is refused exactly where filewrite has to stop. */
  lemma ChunkRoom(fs: FileSystem, ip: Inode, off: nat, src: seq<Byte>, done: nat, n: nat, s0: State, size0: nat,
                  log: seq<Transaction>)
    requires ip.inum in s0.files && Going(fs, ip, off, src, done, s0, size0, log) && done < |src|
    requires n == if |src| - done > CHUNK then CHUNK else |src| - done
    ensures CanWrite(ip.size, off + done, n) ==>
              |FreeData(fs.sb, fs.owner)| + BlocksFor(ip.size) >= BlocksFor(SizeWith(ip.size, off + done, n))
    ensures if off <= size0 && off + done + n <= MAXFILE * BSIZE then done + n <= Accepts(size0, off, |src|)
            else done == Accepts(size0, off, |src|)
  {
    hide FreeData, BlocksFor, Written, Tight, IsChunk, FileSystem.Agrees, FileSystem.Valid, HoleFree, Accepts, Chained;
    if off <= size0 {
      AcceptsChunk(size0, off, |src|, done, n);
      if off + done + n <= MAXFILE * BSIZE {
        BlocksGrow(SizeWith(size0, off, done + n), SizeWith(size0, off, Accepts(size0, off, |src|)));
      }
    } else {
      AcceptsNone(size0, off, |src|);
    }
  }

  /** One more transaction. */
  method Advance(fs: FileSystem, ip: Inode, off: Word, src: seq<Byte>, done: nat, ghost s0: State, ghost size0: nat,
                 ghost log: seq<Transaction>)
    returns (good: bool, n: nat, ghost log': seq<Transaction>)
    requires ip.inum in s0.files && Going(fs, ip, off, src, done, s0, size0, log) && done < |src|
    modifies fs, ip
    ensures n == if |src| - done > CHUNK then CHUNK else |src| - done
    ensures Going(fs, ip, off, src, if good then done + n else done, s0, size0, log')
    ensures !good ==> done == Accepts(size0, off, |src|)
  {
    hide FreeData, BlocksFor, Written, Tight, Transaction.Ok, OneWrite, FileSystem.Agrees, FileSystem.Valid, HoleFree;
    hide Accepts, Chained;
    n := if |src| - done > CHUNK then CHUNK else |src| - done;
    ChunkRoom(fs, ip, off, src, done, n, s0, size0, log);
    ghost var t;
    good, t := OneTransaction(fs, ip, off, src, done, n, s0, size0);
    log' := log;
    if good {
      ChunksCounted(done, n, |log|);
      ChainedMore(s0.view, log, t);
      log' := log + [t];
    }
  }

  /** A transaction more, after whole chunks only. */
  lemma ChunksCounted(done: nat, n: nat, k: nat)
    requires done % CHUNK == 0 && k == (done + CHUNK - 1) / CHUNK && 0 < n <= CHUNK
    ensures CHUNK * k == done && k + 1 == (done + n + CHUNK - 1) / CHUNK
    ensures n == CHUNK ==> (done + n) % CHUNK == 0
  {
  }

  lemma ProgressStarts(fs: FileSystem, ip: Inode, off: nat, src: seq<Byte>)
    requires fs.Valid() && fs.Locked(ip) && fs.Agrees(ip) && HoleFree(fs.view, ip.addrs, ip.size)
    ensures Progress(fs, ip, off, src, 0, fs.Now(), ip.size)
  {
    hide FileByte, DiskOk, Addr, Journal, IsDinode;
    assert src[..0] == [];
  }

  /** The file with its first `done` bytes written, on a disk the system boots from, and no other file changed. */
  ghost predicate BootsWith(sb: Super, view: View, files: map<nat, Addrs>, size: nat, t: Transaction, off: nat,
                            src: seq<Byte>,
                            done: nat, disk: Disk) {
    && done <= |src| && SizeWith(size, off, done) < 0x1_0000_0000
    && exists s: State ::
         && t.inum in s.files && DiskOk(disk, sb, s.files, s.owner)
         && Written(view, files, disk, s.files, t.inum, off, src[..done]) && sb.InodeBlock(t.inum) < |disk|
         && IsDinode(disk[sb.InodeBlock(t.inum)], t.inum,
                     Dinode(t.head0, t.head1, SizeWith(size, off, done), s.files[t.inum]))
  }

  lemma CrashInChunk(sb: Super, view: View, files: map<nat, Addrs>, size: nat, inum: nat, off: nat, src: seq<Byte>,
                         i: nat, t: Transaction, d: Disk, k: nat, crashes: seq<Disk>)
    requires sb.Ok() && 0 <= sb.LogStart() && IsChunk(sb, view, files, size, t, inum, off, src, i)
    requires OnDisk(sb, d, t.s0.view) && LogOf(sb).AttemptOk(d, Crashes(t.s1.writes, k, crashes))
    ensures BootsWith(sb, view, files, size, t, off, src, ChunkEnd(|src|, if k > |t.s1.writes| then i + 1 else i),
                      LogOf(sb).Rebooted(crashes))
  {
    hide Layout.LogOk, Layout.Count, Layout.Accepted, Layout.TransactionTrace, Layout.CrashChain, Layout.Rebooted;
    hide Layout.DiskAfter;
    hide Written, SameBytes, DiskOk, IsDinode, Transaction.Ok;
    CrashInWrite(sb, t, d, k, crashes);
    var final, after := LogOf(sb).Rebooted(crashes), k > |t.s1.writes|;
    var s := if after then t.s1 else t.s0;
    var lo, hi := CHUNK * i, if CHUNK * i + CHUNK < |src| then CHUNK * i + CHUNK else |src|;
    var done := if after then hi else lo;
    WrittenSame(view, files, s.view, s.files, final, s.files, inum, off, src[..done]);
  }

  /** How many bytes i chunks are. */
  function ChunkEnd(n: nat, i: nat): nat {
    if CHUNK * i < n then CHUNK * i else n
  }

  /** Transactions performed one after the other, the last of them stopped after k sector writes. */
  function Cut(log: seq<Transaction>, k: nat, crashes: seq<Disk>): seq<Attempt>
    requires log != []
  {
    if |log| == 1 then [Crashes(log[0].s1.writes, k, crashes)]
    else [Finishes(log[0].s1.writes)] + Cut(log[1..], k, crashes)
  }

  /** What a finished transaction leaves on the disk. */
  lemma Performed(layout: Layout, d: Disk, writes: seq<Write>)
    requires layout.LogOk(d) && layout.Count(d) == 0 && layout.Accepted(writes)
    ensures var e := layout.DiskAfter(d, writes, |layout.TransactionTrace(d, writes)|);
            layout.LogOk(e) && layout.Count(e) == 0 && layout.Home(e) == ApplyWrites(layout.Home(d), writes)
  {
    hide Layout.LogOk, Layout.Count, Layout.Accepted;
    if writes != [] {
      layout.TransactionCompletes(d, writes);
    }
  }

  lemma ChainedRest(view: View, log: seq<Transaction>)
    requires log != [] && Chained(view, log)
    ensures log[0].s0.view == view && Chained(log[0].s1.view, log[1..])
  {
    assert log[0].s0.view == EndView(view, log[..0]);
    forall i: nat | i < |log[1..]| ensures log[1..][i].s0.view == EndView(log[0].s1.view, log[1..][..i]) {
      assert log[1..][i] == log[i + 1];
      assert i > 0 ==> log[1..][..i][i - 1] == log[..i + 1][i];
    }
  }

  /** The disk the last of them starts from has the home sectors of its view. */
  lemma {:induction false} Reached(sb: Super, view: View, log: seq<Transaction>, d: Disk, k: nat, crashes: seq<Disk>)
    returns (e: Disk)
    requires sb.Ok() && 0 <= sb.LogStart() && OnDisk(sb, d, view) && log != [] && Chained(view, log)
    requires forall i: nat :: i < |log| ==> log[i].Ok(sb)
    requires LogOf(sb).RunOk(d, Cut(log, k, crashes))
    ensures OnDisk(sb, e, log[|log| - 1].s0.view)
    ensures LogOf(sb).AttemptOk(e, Crashes(log[|log| - 1].s1.writes, k, crashes))
    ensures LogOf(sb).RunDisk(d, Cut(log, k, crashes)) == LogOf(sb).Rebooted(crashes)
    decreases |log|
  {
    hide Transaction.Ok, Layout.Count, Layout.Accepted, Layout.TransactionTrace, Layout.CrashChain, Layout.LogOk;
    hide Chained;
    var layout, run := LogOf(sb), Cut(log, k, crashes);
    ChainedRest(view, log);
    assert layout.LogOk(d);
    if |log| == 1 {
      e := d;
      assert run[1..] == [];
    } else {
      var writes := log[0].s1.writes;
      Performed(layout, d, writes);
      assert Journal(view, writes, log[0].s1.view, log[0].s1.logged) by { TransactionFacts(sb, log[0]); }
      ApplyHome(view, writes, sb.LogStart());
      assert run[1..] == Cut(log[1..], k, crashes);
      assert layout.RunOk(layout.AttemptDisk(d, run[0]), run[1..]);
      e := Reached(sb, log[0].s1.view, log[1..], layout.AttemptDisk(d, run[0]), k, crashes);
    }
  }

  /** A crash anywhere in a filewrite, after any number of its transactions and of the sector writes of the next, and
      in any number of recoveries: the system that boots has the file with a whole number of its chunks written and
      the size to match, and no other file changed. `d` is the disk the filewrite began with. */
  lemma CrashInFileWrite(sb: Super, view: View, files: map<nat, Addrs>, size: nat, inum: nat, off: nat, src: seq<Byte>,
                         log: seq<Transaction>, i: nat, d: Disk, k: nat, crashes: seq<Disk>)
    requires sb.Ok() && 0 <= sb.LogStart() && OnDisk(sb, d, view) && i < |log| && Chained(view, log)
    requires forall j: nat :: j < |log| ==> IsChunk(sb, view, files, size, log[j], inum, off, src, j)
    requires LogOf(sb).RunOk(d, Cut(log[..i + 1], k, crashes))
    ensures BootsWith(sb, view, files, size, log[i], off, src,
                      ChunkEnd(|src|, if k > |log[i].s1.writes| then i + 1 else i),
                      LogOf(sb).RunDisk(d, Cut(log[..i + 1], k, crashes)))
  {
    hide BootsWith, Transaction.Ok, Written, Layout.Count, Layout.RunOk, Layout.RunDisk, Layout.CrashChain, Cut;
    var part := log[..i + 1];
    ChainedPart(view, log, i + 1);
    forall j: nat | j < |part| ensures part[j].Ok(sb) {
      assert IsChunk(sb, view, files, size, log[j], inum, off, src, j);
    }
    var e := Reached(sb, view, part, d, k, crashes);
    CrashInChunk(sb, view, files, size, inum, off, src, i, log[i], e, k, crashes);
  }

  /** Transactions performed one after the other to the end. */
  function Whole(log: seq<Transaction>): seq<Attempt> {
    if log == [] then [] else [Finishes(log[0].s1.writes)] + Whole(log[1..])
  }

  /** A filewrite that nothing interrupts leaves its view on the home sectors, and the log empty. */
  lemma {:induction false} FileWriteCompletes(sb: Super, view: View, log: seq<Transaction>, d: Disk)
    requires sb.Ok() && 0 <= sb.LogStart() && OnDisk(sb, d, view) && Chained(view, log)
    requires (forall i: nat :: i < |log| ==> log[i].Ok(sb)) && LogOf(sb).RunOk(d, Whole(log))
    ensures OnDisk(sb, LogOf(sb).RunDisk(d, Whole(log)), EndView(view, log))
    decreases |log|
  {
    hide Transaction.Ok, Layout.Count, Layout.Accepted, Layout.TransactionTrace, Layout.CrashChain, Layout.LogOk;
    hide Chained;
    var layout, run := LogOf(sb), Whole(log);
    if log != [] {
      ChainedRest(view, log);
      var writes := log[0].s1.writes;
      assert layout.LogOk(d);
      Performed(layout, d, writes);
      assert Journal(view, writes, log[0].s1.view, log[0].s1.logged) by { TransactionFacts(sb, log[0]); }
      ApplyHome(view, writes, sb.LogStart());
      assert run[1..] == Whole(log[1..]);
      assert layout.RunOk(layout.AttemptDisk(d, run[0]), run[1..]);
      FileWriteCompletes(sb, log[0].s1.view, log[1..], layout.AttemptDisk(d, run[0]));
      assert EndView(view, log) == EndView(log[0].s1.view, log[1..]);
    }
  }

  lemma ChainedPart(view: View, log: seq<Transaction>, n: nat)
    requires n <= |log| && Chained(view, log)
    ensures Chained(view, log[..n])
  {
    forall i: nat | i < n ensures log[..n][i].s0.view == EndView(view, log[..n][..i]) {
      assert log[..n][..i] == log[..i] && log[..n][i] == log[i];
    }
  }

  // A file as a sequence of bytes

  ghost predicate FileIs(view: View, addrs: Addrs, bytes: seq<Byte>) {
    |bytes| <= MAXFILE * BSIZE && forall p :: 0 <= p < |bytes| ==> FileByte(view, addrs, p) == bytes[p]
  }

  function Overlay(bytes: seq<Byte>, off: nat, s: seq<Byte>): (r: seq<Byte>)
    requires off <= |bytes|
    ensures |r| == SizeWith(|bytes|, off, |s|)
  {
    if |bytes| < off + |s| then bytes[..off] + s else bytes[..off] + s + bytes[off + |s|..]
  }

  /** A write as its caller asks for it. */
  datatype Request = Request(off: Word, src: seq<Byte>)

  /** What one request makes of a file's bytes; writei refuses it or lays it over them. */
  function AfterWrite(bytes: seq<Byte>, op: Request): seq<Byte> {
    if CanWrite(|bytes|, op.off, |op.src|) then Overlay(bytes, op.off, op.src) else bytes
  }

  function AfterWrites(bytes: seq<Byte>, ops: seq<Request>): seq<Byte> {
    if ops == [] then bytes else AfterWrite(AfterWrites(bytes, ops[..|ops| - 1]), ops[|ops| - 1])
  }

  lemma {:induction false} WritesGrow(bytes: seq<Byte>, ops: seq<Request>, k: nat)
    requires k <= |ops|
    ensures |AfterWrites(bytes, ops[..k])| <= |AfterWrites(bytes, ops)|
    decreases |ops| - k
  {
    if k < |ops| {
      WritesGrow(bytes, ops, k + 1);
      assert ops[..k + 1][..k] == ops[..k];
    } else {
      assert ops[..k] == ops;
    }
  }

  lemma WrittenIsOverlay(view: View, files: map<nat, Addrs>, view': View, files': map<nat, Addrs>,
                         inum: nat, off: nat, s: seq<Byte>, bytes: seq<Byte>)
    requires inum in files && FileIs(view, files[inum], bytes) && off <= |bytes| && off + |s| <= MAXFILE * BSIZE
    requires Written(view, files, view', files', inum, off, s)
    ensures FileIs(view', files'[inum], Overlay(bytes, off, s))
  {
    hide FileByte;
  }

  /** Any requests on an inode that holds these bytes, one after the other, as long as there are blocks for the file
      they leave: a read of the whole file then gives just what the requests leave of a sequence of bytes, and the
      inode is as its record on the disk. */
  method WriteAndRead(fs: FileSystem, ip: Inode, ops: seq<Request>, ghost bytes: seq<Byte>) returns (got: seq<Byte>)
    requires fs.Valid() && fs.Agrees(ip) && fs.Locked(ip) && HoleFree(fs.view, ip.addrs, ip.size)
    requires ip.size == |bytes| && FileIs(fs.view, ip.addrs, bytes)
    requires |FreeData(fs.sb, fs.owner)| + BlocksFor(|bytes|) >= BlocksFor(|AfterWrites(bytes, ops)|)
    modifies fs, ip
    ensures fs.Valid() && fs.Agrees(ip) && fs.Locked(ip) && HoleFree(fs.view, ip.addrs, ip.size)
    ensures got == AfterWrites(bytes, ops)
  {
    hide FileByte, Addr, DiskOk, FreeData, IsDinode, BlocksFor, Journal;
    ghost var room := |FreeData(fs.sb, fs.owner)| + BlocksFor(|bytes|);
    for k := 0 to |ops|
      invariant fs.Valid() && fs.Agrees(ip) && fs.Locked(ip) && HoleFree(fs.view, ip.addrs, ip.size)
      invariant ip.size == |AfterWrites(bytes, ops[..k])| && FileIs(fs.view, ip.addrs, AfterWrites(bytes, ops[..k]))
      invariant |FreeData(fs.sb, fs.owner)| + BlocksFor(ip.size) >= room
    {
      hide FileByte, Addr, DiskOk, FreeData, IsDinode, BlocksFor, Journal, FileIs;
      assert ops[..k + 1][..k] == ops[..k];
      WritesGrow(bytes, ops, k + 1);
      BlocksGrow(|AfterWrites(bytes, ops[..k + 1])|, |AfterWrites(bytes, ops)|);
      OneRequest(fs, ip, ops[k], AfterWrites(bytes, ops[..k]));
    }
    assert ops[..|ops|] == ops;
    var r := fs.Readi(ip, 0, ip.size);
    got := r.value;
  }

  method OneRequest(fs: FileSystem, ip: Inode, op: Request, ghost bytes: seq<Byte>)
    requires fs.Valid() && fs.Agrees(ip) && fs.Locked(ip) && HoleFree(fs.view, ip.addrs, ip.size)
    requires ip.size == |bytes| && FileIs(fs.view, ip.addrs, bytes)
    requires |FreeData(fs.sb, fs.owner)| + BlocksFor(|bytes|) >= BlocksFor(|AfterWrite(bytes, op)|)
    modifies fs, ip
    ensures fs.Valid() && fs.Agrees(ip) && fs.Locked(ip) && HoleFree(fs.view, ip.addrs, ip.size)
    ensures ip.size == |AfterWrite(bytes, op)| && FileIs(fs.view, ip.addrs, AfterWrite(bytes, op))
    ensures |FreeData(fs.sb, fs.owner)| + BlocksFor(ip.size) >= |old(FreeData(fs.sb, fs.owner))| + BlocksFor(|bytes|)
  {
    hide FileByte, Addr, DiskOk, FreeData, IsDinode, Written, FileIs, Wrote, BlocksFor, Journal, Tight;
    ghost var before;
    var ok;
    ok, before := fs.Writei(ip, op.off, op.src);
    if ok {
      WrittenIsOverlay(old(fs.view), old(fs.files), fs.view, fs.files, ip.inum, op.off, op.src, bytes);
    }
  }
}
