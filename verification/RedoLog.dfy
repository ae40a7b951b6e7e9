/** The on-disk redo log as a sequence of disk states: what each sector write of a transaction, of its
    commit and of recovery leaves on the disk, and what recovery makes of a disk found after a crash. */
module RedoLog {
  import opened Blocks
  import opened Ring

  const LOGSIZE: nat := 10

  type Disk = seq<Block>
  /** One accepted log_write: the home sector and the block logged for it. */
  type Write = (nat, Block)

  /** log.start and log.size. */
  datatype Layout = Layout(start: nat, size: nat) {
    predicate Fits(d: Disk) {
      2 <= size && start + size <= |d| <= 0x1_0000_0000
    }

    /** The number of sectors log_write takes before it panics. */
    function Capacity(): int {
      if LOGSIZE < size - 1 then LOGSIZE else size - 1
    }

    /** Sector lists the log can hold: distinct home sectors, within capacity. */
    predicate CanCommit(secs: seq<nat>) {
      && |secs| <= Capacity()
      && (forall i :: 0 <= i < |secs| ==> secs[i] < start)
      && (forall i, j :: 0 <= i < j < |secs| ==> secs[i] != secs[j])
    }

    // The header block read from the disk.

    function Count(d: Disk): nat
      requires Fits(d)
    {
      GetWord(d[start], 0)
    }

    function Sectors(d: Disk): (secs: seq<nat>)
      requires Fits(d) && Count(d) <= LOGSIZE
    {
      seq(Count(d), i requires 0 <= i < LOGSIZE => GetWord(d[start], 1 + i))
    }

    /** A disk recovery can act on. */
    predicate LogOk(d: Disk) {
      Fits(d) && Count(d) <= LOGSIZE && CanCommit(Sectors(d))
    }

    function Home(d: Disk): Disk
      requires Fits(d)
    {
      d[..start]
    }

    /** The disk after the first k iterations of install_trans. */
    function Installed(d: Disk, secs: seq<nat>, k: nat): (r: Disk)
      requires Fits(d) && CanCommit(secs) && k <= |secs|
      ensures |r| == |d|
    {
      if k == 0 then d else Installed(d, secs, k - 1)[secs[k - 1] := d[start + k]]
    }

    /** The disk after write_head with an empty header. */
    function Erased(d: Disk): (r: Disk)
      requires Fits(d)
    {
      d[start := PutWord(d[start], 0, 0)]
    }

    /** Erasing is write_head of an empty header. */
    lemma ErasedBy(d: Disk)
      requires Fits(d)
      ensures Erased(d) == d[start := HeaderBlock(d[start], [], 0)]
    {
    }

    /** The disk states of the first k iterations of install_trans. */
    function InstallStates(d: Disk, secs: seq<nat>, k: nat): (r: seq<Disk>)
      requires Fits(d) && CanCommit(secs) && k <= |secs|
      ensures |r| == k && forall i: nat {:trigger r[i]} :: i < k ==> r[i] == Installed(d, secs, i + 1)
    {
      if k == 0 then [] else InstallStates(d, secs, k - 1) + [Installed(d, secs, k)]
    }

    /** The disk states of install_trans followed by erasing the header. */
    function InstallTrace(d: Disk, secs: seq<nat>): (r: seq<Disk>)
      requires Fits(d) && CanCommit(secs)
    {
      InstallStates(d, secs, |secs|) + [Erased(Installed(d, secs, |secs|))]
    }

    /** Every disk state recover_from_log passes through, in order. */
    function RecoveryTrace(d: Disk): (r: seq<Disk>)
      requires LogOk(d)
    {
      InstallTrace(d, Sectors(d))
    }

    /** The home sectors a recovery that completes leaves behind. */
    function Recovered(d: Disk): Disk
      requires LogOk(d)
    {
      Home(Installed(d, Sectors(d), Count(d)))
    }

    /** The header block write_head builds over the old one from the sector list. */
    function HeaderBlock(b: Block, secs: seq<nat>, k: nat): (r: Block)
      requires k <= |secs| <= LOGSIZE && forall i :: 0 <= i < |secs| ==> secs[i] < 0x1_0000_0000
      ensures GetWord(r, 0) == |secs|
      ensures forall i :: 0 <= i < k ==> GetWord(r, 1 + i) == secs[i]
    {
      if k == 0 then PutWord(b, 0, |secs|) else PutWord(HeaderBlock(b, secs, k - 1), k, secs[k - 1])
    }

    /** The disk after write_head has committed the sector list. */
    function Committed(d: Disk, secs: seq<nat>): (r: Disk)
      requires Fits(d) && CanCommit(secs)
    {
      d[start := HeaderBlock(d[start], secs, |secs|)]
    }

    /** The disk after log_write has appended or absorbed every write. */
    function LogDisk(d: Disk, writes: seq<Write>): (r: Disk)
      requires Fits(d) && Accepted(writes)
      ensures |r| == |d|
    {
      if writes == [] then d else
        var (s, b) := writes[|writes| - 1];
        LogDisk(d, writes[..|writes| - 1])[start + 1 + IndexOf(Logged(writes[..|writes| - 1]), s) := b]
    }

    /** log_write takes every one of these without panicking: it refuses to enter with a full log even
        when the sector is already in it. */
    predicate Accepted(writes: seq<Write>) {
      writes == [] ||
      var prev := writes[..|writes| - 1];
      Accepted(prev) && |Logged(prev)| < Capacity() && writes[|writes| - 1].0 < start
    }

    /** The disk states of the log_write calls of one transaction. */
    function AppendTrace(d: Disk, writes: seq<Write>): (r: seq<Disk>)
      requires Fits(d) && Accepted(writes)
      ensures |r| == |writes|
    {
      if writes == [] then [] else AppendTrace(d, writes[..|writes| - 1]) + [LogDisk(d, writes)]
    }

    /** The disk states of commit_trans. */
    function CommitTrace(d: Disk, secs: seq<nat>): (r: seq<Disk>)
      requires Fits(d) && CanCommit(secs)
    {
      [Committed(d, secs)] + InstallTrace(Committed(d, secs), secs)
    }

    /** Every disk state of one transaction, log writes first, then commit_trans. */
    function TransactionTrace(d: Disk, writes: seq<Write>): (r: seq<Disk>)
      requires Fits(d) && Accepted(writes)
    {
      if writes == [] then [] else
        LoggedFacts(writes);
        AppendTrace(d, writes) + CommitTrace(LogDisk(d, writes), Logged(writes))
    }

    // Facts about a list of writes

    lemma {:induction false} LoggedFacts(writes: seq<Write>)
      requires Accepted(writes)
      requires 1 <= size
      ensures CanCommit(Logged(writes))
    {
      if writes != [] {
        LoggedFacts(writes[..|writes| - 1]);
      }
    }

    /** Logging leaves the header and the home sectors alone. */
    lemma {:induction false} LogDiskKeeps(d: Disk, writes: seq<Write>)
      requires Fits(d) && Accepted(writes)
      ensures Home(LogDisk(d, writes)) == Home(d) && LogDisk(d, writes)[start] == d[start]
    {
      if writes != [] {
        LogDiskKeeps(d, writes[..|writes| - 1]);
      }
    }

    /** Log block i holds the last block logged for the i-th sector. */
    lemma {:induction false} LogDiskAt(d: Disk, writes: seq<Write>, i: nat)
      requires Fits(d) && Accepted(writes) && i < |Logged(writes)|
      ensures start + 1 + i < |d| && LogDisk(d, writes)[start + 1 + i] == LastLogged(writes, Logged(writes)[i])
    {
      var prev := writes[..|writes| - 1];
      LoggedFacts(prev);
      LoggedFacts(writes);
      var (s, b) := writes[|writes| - 1];
      var at := IndexOf(Logged(prev), s);
      if Logged(writes)[i] == s {
        assert Logged(writes)[at] == s;
        assert i == at;
      } else {
        assert i < |Logged(prev)| && Logged(prev)[i] == Logged(writes)[i];
        LogDiskAt(d, prev, i);
      }
    }

    lemma CommittedOk(d: Disk, secs: seq<nat>)
      requires Fits(d) && CanCommit(secs)
      ensures LogOk(Committed(d, secs)) && Sectors(Committed(d, secs)) == secs
      ensures Home(Committed(d, secs)) == Home(d)
    {
      var c := Committed(d, secs);
      assert c[start] == HeaderBlock(d[start], secs, |secs|);
      assert Count(c) == |secs|;
      assert forall i :: 0 <= i < |secs| ==> Sectors(c)[i] == secs[i];
      assert Sectors(c) == secs;
    }

    // What recovery does

    /** Install writes each named sector with its log block and nothing else. */
    lemma {:induction false} InstalledAt(d: Disk, secs: seq<nat>, k: nat, s: nat)
      requires Fits(d) && CanCommit(secs) && k <= |secs| && s < |d|
      ensures s !in secs[..k] ==> Installed(d, secs, k)[s] == d[s]
      ensures forall i :: 0 <= i < k && secs[i] == s ==> Installed(d, secs, k)[s] == d[start + 1 + i]
    {
      if k != 0 {
        InstalledAt(d, secs, k - 1, s);
        assert secs[..k] == secs[..k - 1] + [secs[k - 1]];
      }
    }

    lemma InstalledKeepsLog(d: Disk, secs: seq<nat>, k: nat)
      requires Fits(d) && CanCommit(secs) && k <= |secs|
      ensures Installed(d, secs, k)[start..] == d[start..]
    {
      forall s: nat | start <= s < |d| ensures Installed(d, secs, k)[s] == d[s] {
        InstalledAt(d, secs, k, s);
      }
    }

    /** Iteration j of install_trans on disk e, with the log of disk d. */
    function InstallNext(d: Disk, secs: seq<nat>, j: nat, e: Disk): (r: Disk)
      requires Fits(d) && CanCommit(secs) && j < |secs|
      ensures |r| == |e|
    {
      if |e| == |d| then e[secs[j] := d[start + 1 + j]] else e
    }

    /** The disk states from d on through the first iterations of install_trans. */
    ghost predicate IsInstall(d: Disk, secs: seq<nat>, states: seq<Disk>)
      requires Fits(d) && CanCommit(secs)
    {
      && 1 <= |states| <= |secs| + 1 && states[0] == d
      && forall j: nat {:trigger InstallNext(d, secs, j, states[j])} :: j + 1 < |states| ==>
           states[j + 1] == InstallNext(d, secs, j, states[j])
    }

    lemma CommitsOnce(secs: seq<nat>, k: nat)
      requires CanCommit(secs) && k < |secs|
      ensures k < Capacity() && secs[k] < start && secs[k] !in secs[..k]
    {
    }

    lemma InstallStarts(d: Disk, secs: seq<nat>)
      requires Fits(d) && CanCommit(secs)
      ensures IsInstall(d, secs, [d])
    {
    }

    lemma InstallExtends(d: Disk, secs: seq<nat>, states: seq<Disk>)
      requires Fits(d) && CanCommit(secs) && IsInstall(d, secs, states) && |states| <= |secs|
      ensures IsInstall(d, secs, states + [InstallNext(d, secs, |states| - 1, states[|states| - 1])])
    {
      var more := states + [InstallNext(d, secs, |states| - 1, states[|states| - 1])];
      forall j: nat | j + 1 < |more| ensures more[j + 1] == InstallNext(d, secs, j, more[j]) {
        if j + 1 < |states| {
          assert states[j + 1] == InstallNext(d, secs, j, states[j]);
        }
      }
    }

    lemma {:induction false} InstallStateIs(d: Disk, secs: seq<nat>, states: seq<Disk>, i: nat)
      requires Fits(d) && CanCommit(secs) && IsInstall(d, secs, states) && i < |states|
      ensures states[i] == Installed(d, secs, i)
    {
      if i > 0 {
        InstallStateIs(d, secs, states, i - 1);
        assert states[i] == InstallNext(d, secs, i - 1, states[i - 1]);
      }
    }

    /** The states of a whole install_trans and the erasing of the header make up InstallTrace. */
    lemma InstallTraceIs(d: Disk, secs: seq<nat>, states: seq<Disk>)
      requires Fits(d) && CanCommit(secs) && IsInstall(d, secs, states) && |states| == |secs| + 1
      ensures Fits(states[|secs|]) && states[|secs|] == Installed(d, secs, |secs|)
      ensures InstallTrace(d, secs) == states[1..] + [Erased(states[|secs|])]
    {
      forall i: nat | i < |secs| ensures states[1..][i] == InstallStates(d, secs, |secs|)[i] {
        InstallStateIs(d, secs, states, i + 1);
      }
      InstallStateIs(d, secs, states, |secs|);
    }

    /** A part of install_trans is a prefix of InstallTrace. */
    lemma InstallPrefixIs(d: Disk, secs: seq<nat>, states: seq<Disk>)
      requires Fits(d) && CanCommit(secs) && IsInstall(d, secs, states)
      ensures states[1..] <= InstallTrace(d, secs)
    {
      forall i: nat | i + 1 < |states| ensures states[1..][i] == InstallTrace(d, secs)[i] {
        InstallStateIs(d, secs, states, i + 1);
      }
    }

    lemma SameLog(d: Disk, e: Disk)
      requires LogOk(d) && |e| == |d| && e[start..] == d[start..]
      ensures LogOk(e) && Sectors(e) == Sectors(d)
    {
      assert e[start] == e[start..][0] == d[start];
    }

    /** Restarting install_trans from any point of itself ends where the uninterrupted one does. */
    lemma InstallRestarts(d: Disk, secs: seq<nat>, k: nat)
      requires Fits(d) && CanCommit(secs) && k <= |secs|
      ensures Installed(Installed(d, secs, k), secs, |secs|) == Installed(d, secs, |secs|)
    {
      var e := Installed(d, secs, k);
      InstalledKeepsLog(d, secs, k);
      forall s: nat | s < |d| ensures Installed(e, secs, |secs|)[s] == Installed(d, secs, |secs|)[s] {
        InstalledAt(d, secs, k, s);
        InstalledAt(d, secs, |secs|, s);
        InstalledAt(e, secs, |secs|, s);
        assert secs[..|secs|] == secs;
        if s in secs {
          var i :| 0 <= i < |secs| && secs[i] == s;
          assert e[start..][1 + i] == d[start..][1 + i];
        }
      }
    }

    /** Every disk state of a recovery recovers to the same home sectors. */
    lemma RecoveryKeepsOutcome(d: Disk, k: nat)
      requires LogOk(d) && k < |RecoveryTrace(d)|
      ensures LogOk(RecoveryTrace(d)[k])
      ensures Recovered(RecoveryTrace(d)[k]) == Recovered(d)
    {
      if k < Count(d) {
        InstallRestarts(d, Sectors(d), k + 1);
        InstalledKeepsLog(d, Sectors(d), k + 1);
        SameLog(d, Installed(d, Sectors(d), k + 1));
      } else {
        assert Recovered(RecoveryTrace(d)[k]) == Home(RecoveryTrace(d)[k]);
      }
    }

    /** A recovery that completes leaves an empty log and the recovered home sectors. */
    lemma RecoveryCompletes(d: Disk)
      requires LogOk(d)
      ensures var e := RecoveryTrace(d)[|RecoveryTrace(d)| - 1];
              |e| == |d| && LogOk(e) && Count(e) == 0 && Home(e) == Recovered(d)
    {
    }

    /** install_trans to the end and write_head with an empty header are a recovery. */
    lemma RecoveryIs(d: Disk, states: seq<Disk>, e: Disk)
      requires LogOk(d) && IsInstall(d, Sectors(d), states) && |states| == Count(d) + 1
      requires Fits(states[Count(d)]) && e == states[Count(d)][start := HeaderBlock(states[Count(d)][start], [], 0)]
      ensures RecoveryTrace(d) == states[1..] + [e] && LogOk(e) && Count(e) == 0
    {
      InstallTraceIs(d, Sectors(d), states);
      RecoveryCompletes(d);
    }

    /** crashes[0] is the disk found at boot; each later one is where the recovery of the one before
        it was cut off. */
    predicate CrashChain(crashes: seq<Disk>) {
      && (forall i :: 0 <= i < |crashes| ==> LogOk(crashes[i]))
      && (forall i :: 0 < i < |crashes| ==> crashes[i] in RecoveryTrace(crashes[i - 1]))
    }

    /** However many recoveries are cut off, the one that completes gives the first disk's outcome. */
    lemma {:induction false} CrashChainOutcome(crashes: seq<Disk>)
      requires crashes != [] && CrashChain(crashes)
      ensures Recovered(crashes[|crashes| - 1]) == Recovered(crashes[0])
    {
      if |crashes| > 1 {
        var shorter := crashes[..|crashes| - 1];
        assert forall i {:trigger shorter[i]} :: 0 <= i < |shorter| ==> shorter[i] == crashes[i];
        CrashChainOutcome(shorter);
        var d := crashes[|crashes| - 2];
        assert d == shorter[|shorter| - 1];
        assert crashes[|crashes| - 1] in RecoveryTrace(d);
        var k :| 0 <= k < |RecoveryTrace(d)| && RecoveryTrace(d)[k] == crashes[|crashes| - 1];
        RecoveryKeepsOutcome(d, k);
      }
    }

    // Crash atomicity

    /** Until the header is written, recovery yields the old home sectors. */
    lemma NotCommitted(d: Disk, writes: seq<Write>)
      requires LogOk(d) && Count(d) == 0 && Accepted(writes)
      ensures LogOk(LogDisk(d, writes)) && Recovered(LogDisk(d, writes)) == Home(d)
    {
      LogDiskKeeps(d, writes);
    }

    lemma CommittedAt(d: Disk, writes: seq<Write>, s: nat)
      requires Fits(d) && Accepted(writes) && s < start
      ensures CanCommit(Logged(writes)) && LogOk(Committed(LogDisk(d, writes), Logged(writes)))
      ensures Recovered(Committed(LogDisk(d, writes), Logged(writes)))[s] == ApplyWrites(Home(d), writes)[s]
    {
      hide Installed, LogDisk, Logged, ApplyWrites, LastLogged, HeaderBlock, GetWord, PutWord, Accepted;
      LoggedFacts(writes);
      LogDiskKeeps(d, writes);
      var l := LogDisk(d, writes);
      CommittedOk(l, Logged(writes));
      var c := Committed(l, Logged(writes));
      InstalledAt(c, Logged(writes), |Logged(writes)|, s);
      ApplyWritesAt(Home(d), writes, s);
      assert Logged(writes)[..|Logged(writes)|] == Logged(writes);
      if s in Logged(writes) {
        var i: nat :| i < |Logged(writes)| && Logged(writes)[i] == s;
        LogDiskAt(d, writes, i);
      } else {
        assert c[s] == Home(c)[s] == Home(l)[s] == d[s];
      }
    }

    /** Once the header is written, recovery yields the last block logged for each sector. */
    lemma IsCommitted(d: Disk, writes: seq<Write>)
      requires Fits(d) && Accepted(writes)
      ensures CanCommit(Logged(writes)) && LogOk(Committed(LogDisk(d, writes), Logged(writes)))
      ensures Recovered(Committed(LogDisk(d, writes), Logged(writes))) == ApplyWrites(Home(d), writes)
    {
      LoggedFacts(writes);
      CommittedOk(LogDisk(d, writes), Logged(writes));
      forall s: nat | s < start
        ensures Recovered(Committed(LogDisk(d, writes), Logged(writes)))[s] == ApplyWrites(Home(d), writes)[s]
      {
        CommittedAt(d, writes, s);
      }
    }

    lemma CommitTraceAt(d: Disk, secs: seq<nat>, k: nat)
      requires Fits(d) && CanCommit(secs) && LogOk(Committed(d, secs)) && k < |CommitTrace(d, secs)|
      ensures LogOk(CommitTrace(d, secs)[k])
      ensures Recovered(CommitTrace(d, secs)[k]) == Recovered(Committed(d, secs))
    {
      CommittedOk(d, secs);
      if k > 0 {
        RecoveryKeepsOutcome(Committed(d, secs), k - 1);
      }
    }

    lemma {:induction false} AppendTraceAt(d: Disk, writes: seq<Write>, k: nat)
      requires Fits(d) && Accepted(writes) && k < |writes|
      ensures Accepted(writes[..k + 1]) && AppendTrace(d, writes)[k] == LogDisk(d, writes[..k + 1])
      decreases |writes|
    {
      if k == |writes| - 1 {
        assert writes[..k + 1] == writes;
      } else {
        AppendTraceAt(d, writes[..|writes| - 1], k);
        assert writes[..|writes| - 1][..k + 1] == writes[..k + 1];
      }
    }

    /** The disk a transaction leaves when it stops after its first k sector writes. */
    function DiskAfter(d: Disk, writes: seq<Write>, k: nat): Disk
      requires Fits(d) && Accepted(writes) && k <= |TransactionTrace(d, writes)|
    {
      if k == 0 then d else TransactionTrace(d, writes)[k - 1]
    }

    lemma NothingLogged(d: Disk)
      requires LogOk(d) && Count(d) == 0
      ensures Recovered(d) == Home(d)
    {
      NotCommitted(d, []);
      assert LogDisk(d, []) == d;
    }

    /** Stopped after any number of its sector writes, a transaction recovers to none of it or all of it;
        the header write, and no other, is where the one becomes the other. */
    lemma TransactionAtomic(d: Disk, writes: seq<Write>, k: nat)
      requires LogOk(d) && Count(d) == 0 && Accepted(writes)
      requires k <= |TransactionTrace(d, writes)|
      ensures LogOk(DiskAfter(d, writes, k))
      ensures Recovered(DiskAfter(d, writes, k))
           == if k <= |writes| then Home(d) else ApplyWrites(Home(d), writes)
    {
      hide Recovered, Logged, ApplyWrites, GetWord, CanCommit, AppendTrace, CommitTrace, LogDisk;
      LoggedFacts(writes);
      if k == 0 {
        NothingLogged(d);
      } else if k <= |writes| {
        AppendTraceAt(d, writes, k - 1);
        NotCommitted(d, writes[..k]);
      } else {
        IsCommitted(d, writes);
        CommitTraceAt(LogDisk(d, writes), Logged(writes), k - 1 - |writes|);
      }
    }

    /** Every state of a part of a transaction recovers to the home sectors of before or of after it. */
    lemma PrefixAtomic(d: Disk, writes: seq<Write>, part: seq<Disk>)
      requires LogOk(d) && Count(d) == 0 && Accepted(writes) && part <= TransactionTrace(d, writes)
      ensures forall j :: 0 <= j < |part| ==> LogOk(part[j])
      ensures forall j :: 0 <= j < |part| ==>
                Recovered(part[j]) == Home(d) || Recovered(part[j]) == ApplyWrites(Home(d), writes)
    {
      hide Recovered, Logged, ApplyWrites, GetWord, TransactionTrace;
      forall j | 0 <= j < |part|
        ensures LogOk(part[j]) && (Recovered(part[j]) == Home(d) || Recovered(part[j]) == ApplyWrites(Home(d), writes))
      {
        TransactionAtomic(d, writes, j + 1);
        assert part[j] == DiskAfter(d, writes, j + 1);
      }
    }

    /** The log block log_write chooses is inside the log. */
    lemma LogBlockFits(d: Disk, writes: seq<Write>, s: nat)
      requires Fits(d) && Accepted(writes) && |Logged(writes)| < Capacity()
      ensures start + 1 + IndexOf(Logged(writes), s) < |d|
      ensures forall x :: x in Elements(Logged(writes)) ==> x < start
    {
      LoggedFacts(writes);
    }

    /** One more log_write. */
    lemma AppendWrite(d: Disk, writes: seq<Write>, s: nat, b: Block)
      requires Fits(d) && Accepted(writes) && |Logged(writes)| < Capacity() && s < start
      ensures var more := writes + [(s, b)];
              var i := IndexOf(Logged(writes), s);
              && Accepted(more) && start + 1 + i < |d|
              && LogDisk(d, more) == LogDisk(d, writes)[start + 1 + i := b]
              && Logged(more) == (if i < |Logged(writes)| then Logged(writes) else Logged(writes) + [s])
              && ApplyWrites(Home(d), more) == ApplyWrites(Home(d), writes)[s := b]
              && Elements(Logged(more)) == Elements(Logged(writes)) + {s}
              && AppendTrace(d, more) == AppendTrace(d, writes) + [LogDisk(d, more)]
    {
      hide GetWord, Logged, ApplyWrites;
      var more := writes + [(s, b)];
      assert more[..|more| - 1] == writes;
      LogBlockFits(d, writes, s);
      LoggedMore(writes, s, b);
      ApplyMore(Home(d), writes, s, b);
    }

    /** Crash atomicity: stop a transaction after any number of sector writes, then cut off any number of
        recoveries; the recovery that completes leaves the home sectors all as before or all as last logged. */
    lemma CrashAtomicity(d: Disk, writes: seq<Write>, k: nat, crashes: seq<Disk>)
      requires LogOk(d) && Count(d) == 0 && Accepted(writes) && k <= |TransactionTrace(d, writes)|
      requires crashes != [] && CrashChain(crashes) && crashes[0] == DiskAfter(d, writes, k)
      ensures var final := Rebooted(crashes);
              && LogOk(final) && Count(final) == 0
              && Home(final) == if k <= |writes| then Home(d) else ApplyWrites(Home(d), writes)
    {
      TransactionAtomic(d, writes, k);
      CrashChainOutcome(crashes);
      RecoveryCompletes(crashes[|crashes| - 1]);
    }

    /** The disk left by the recovery that finally completes. */
    function Rebooted(crashes: seq<Disk>): Disk
      requires crashes != [] && CrashChain(crashes)
    {
      var last := RecoveryTrace(crashes[|crashes| - 1]);
      last[|last| - 1]
    }

    /** A transaction nothing interrupts leaves its writes on the home sectors and the log empty. */
    lemma TransactionCompletes(d: Disk, writes: seq<Write>)
      requires LogOk(d) && Count(d) == 0 && Accepted(writes) && writes != []
      ensures TransactionTrace(d, writes) != []
      ensures var e := TransactionTrace(d, writes)[|TransactionTrace(d, writes)| - 1];
              LogOk(e) && Count(e) == 0 && Home(e) == ApplyWrites(Home(d), writes)
    {
      IsCommitted(d, writes);
      CommittedOk(LogDisk(d, writes), Logged(writes));
      RecoveryCompletes(Committed(LogDisk(d, writes), Logged(writes)));
    }

    /** The header write, part of install_trans and, at the end, the erasing of the header, as a part of
        CommitTrace. */
    lemma CommitParts(d: Disk, secs: seq<nat>, states: seq<Disk>)
      requires Fits(d) && CanCommit(secs) && Fits(Committed(d, secs)) && IsInstall(Committed(d, secs), secs, states)
      ensures [Committed(d, secs)] + states[1..] <= CommitTrace(d, secs)
      ensures |states| == |secs| + 1 ==>
                Fits(states[|secs|]) &&
                CommitTrace(d, secs) == [Committed(d, secs)] + states[1..] + [Erased(states[|secs|])]
    {
      var c := Committed(d, secs);
      InstallPrefixIs(c, secs, states);
      if |states| == |secs| + 1 {
        InstallTraceIs(c, secs, states);
        assert [c] + (states[1..] + [Erased(states[|secs|])]) == [c] + states[1..] + [Erased(states[|secs|])];
      }
    }

    lemma TransactionParts(d: Disk, writes: seq<Write>, tail: seq<Disk>)
      requires Fits(d) && Accepted(writes) && writes != []
      ensures CanCommit(Logged(writes))
      ensures tail <= CommitTrace(LogDisk(d, writes), Logged(writes)) ==>
                AppendTrace(d, writes) + tail <= TransactionTrace(d, writes)
      ensures tail == CommitTrace(LogDisk(d, writes), Logged(writes)) ==>
                AppendTrace(d, writes) + tail == TransactionTrace(d, writes)
    {
      LoggedFacts(writes);
    }

    lemma EmptyTransaction(d: Disk)
      requires Fits(d)
      ensures Accepted([]) && TransactionTrace(d, []) == AppendTrace(d, []) == [] && LogDisk(d, []) == d
      ensures Logged([]) == [] && Elements(Logged([])) == {} && ApplyWrites(Home(d), []) == Home(d)
    {
    }

    lemma LoggedSome(writes: seq<Write>)
      ensures Logged(writes) == [] <==> writes == []
    {
    }

    // Whole runs

    /** A run performs its attempts one after the other, each from the disk the one before it left. */
    predicate RunOk(d: Disk, run: seq<Attempt>)
      decreases |run|
    {
      && LogOk(d)
      && (run == [] || (AttemptOk(d, run[0]) && RunOk(AttemptDisk(d, run[0]), run[1..])))
    }

    predicate AttemptOk(d: Disk, a: Attempt)
      requires LogOk(d)
    {
      Accepted(a.writes) &&
      match a
      case Finishes(_) => true
      case Crashes(writes, k, crashes) =>
        && k <= |TransactionTrace(d, writes)|
        && crashes != [] && CrashChain(crashes) && crashes[0] == DiskAfter(d, writes, k)
    }

    function AttemptDisk(d: Disk, a: Attempt): Disk
      requires LogOk(d) && AttemptOk(d, a)
    {
      match a
      case Finishes(writes) => DiskAfter(d, writes, |TransactionTrace(d, writes)|)
      case Crashes(_, _, crashes) => Rebooted(crashes)
    }

    function RunDisk(d: Disk, run: seq<Attempt>): Disk
      requires RunOk(d, run)
      decreases |run|
    {
      if run == [] then d else RunDisk(AttemptDisk(d, run[0]), run[1..])
    }

    /** Over any run of transactions, crashes and interrupted recoveries the home sectors are those of
        performing, in order and with no log, exactly the transactions whose header reached the disk. */
    lemma {:induction false} RunDurable(d: Disk, run: seq<Attempt>)
      requires RunOk(d, run) && Count(d) == 0
      ensures LogOk(RunDisk(d, run)) && Count(RunDisk(d, run)) == 0
      ensures Home(RunDisk(d, run)) == Durable(Home(d), run)
      decreases |run|
    {
      if run != [] {
        var e := AttemptDisk(d, run[0]);
        match run[0] {
          case Finishes(writes) =>
            if writes != [] {
              TransactionCompletes(d, writes);
            }
          case Crashes(writes, k, crashes) =>
            CrashAtomicity(d, writes, k, crashes);
        }
        RunDurable(e, run[1..]);
      }
    }
  }

  /** One transaction: performed to the end, or stopped after k sector writes and followed by recoveries,
      all but the last cut off. */
  datatype Attempt =
    | Finishes(writes: seq<Write>)
    | Crashes(writes: seq<Write>, k: nat, crashes: seq<Disk>)

  /** The home sectors after performing just the transactions that got past their header write. */
  function Durable(home: Disk, run: seq<Attempt>): Disk
    decreases run
  {
    if run == [] then home else
      var kept := run[0].Finishes? || run[0].k > |run[0].writes|;
      Durable(if kept then ApplyWrites(home, run[0].writes) else home, run[1..])
  }

  /** The index the search loop of log_write stops at. */
  function IndexOf(secs: seq<nat>, s: nat): (i: nat)
    ensures i <= |secs|
    ensures i < |secs| ==> secs[i] == s
    ensures s !in secs[..i]
  {
    if secs == [] || secs[0] == s then 0 else 1 + IndexOf(secs[1..], s)
  }

  /** log.lh.sector[..log.lh.n] after these writes: the distinct sectors in order of first logging. */
  function Logged(writes: seq<Write>): (r: seq<nat>)
  {
    if writes == [] then [] else
      var prev := Logged(writes[..|writes| - 1]);
      var s := writes[|writes| - 1].0;
      if s in prev then prev else prev + [s]
  }

  lemma LoggedMore(writes: seq<Write>, s: nat, b: Block)
    ensures var i := IndexOf(Logged(writes), s);
            Logged(writes + [(s, b)]) == if i < |Logged(writes)| then Logged(writes) else Logged(writes) + [s]
  {
    assert (writes + [(s, b)])[..|writes|] == writes;
  }

  /** The block of the last write to s. */
  function LastLogged(writes: seq<Write>, s: nat): Block
    requires s in Logged(writes)
  {
    if writes[|writes| - 1].0 == s then writes[|writes| - 1].1 else LastLogged(writes[..|writes| - 1], s)
  }

  /** The home sectors after performing the writes in order, with no log at all. */
  function ApplyWrites(home: Disk, writes: seq<Write>): (r: Disk)
    ensures |r| == |home|
  {
    if writes == [] then home else
      var (s, b) := writes[|writes| - 1];
      var prev := ApplyWrites(home, writes[..|writes| - 1]);
      if s < |home| then prev[s := b] else prev
  }

  lemma ApplyMore(home: Disk, writes: seq<Write>, s: nat, b: Block)
    requires s < |home|
    ensures ApplyWrites(home, writes + [(s, b)]) == ApplyWrites(home, writes)[s := b]
  {
    assert (writes + [(s, b)])[..|writes|] == writes;
  }

  lemma {:induction false} ApplyWritesAt(home: Disk, writes: seq<Write>, s: nat)
    requires s < |home|
    ensures s in Logged(writes) ==> ApplyWrites(home, writes)[s] == LastLogged(writes, s)
    ensures s !in Logged(writes) ==> ApplyWrites(home, writes)[s] == home[s]
  {
    if writes != [] {
      ApplyWritesAt(home, writes[..|writes| - 1], s);
    }
  }
}
