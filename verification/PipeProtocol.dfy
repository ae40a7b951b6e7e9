/** Readers, writers and closers of one pipe, with the pipe's lock and the process table's lock taken and released
    step by step, so that the gap between giving up one and sleeping under the other is there. */
module PipeProtocol {
  import opened Pipe

  const FREE := -1

  /** What a process is in the pipe for: bytes still to write, bytes still to read and whether it has stopped
      waiting for some, or closing one end. */
  datatype Job = Write(todo: nat) | Read(left: nat, copying: bool) | Close(writer: bool)

  /** Where it is. `owes` says that it has put bytes in, or taken some out, since it last woke the other side. */
  datatype Pc =
    | Out
    | Enter(job: Job)                  // about to take the pipe's lock
    | Loop(job: Job, owes: bool)       // at the loop test, with the pipe's lock
    | Waking(job: Job, again: bool)    // about to wake the other side, and then to sleep or to leave
    | Sleep0(job: Job)                 // in sleep(), with the pipe's lock
    | Sleep1(job: Job)                 // with both locks
    | Sleep2(job: Job)                 // with the table lock only
    | Asleep(job: Job)
    | Leaving                          // about to release the pipe's lock

  datatype System = System(pcs: seq<Pc>, killed: set<nat>, pipeLock: int, tableLock: int, count: nat,
                           readOpen: bool, writeOpen: bool, readGone: bool, writeGone: bool)

  datatype Step =
    | Start(i: nat, job: Job)
    | Acquire(i: nat)
    | Put(i: nat)
    | GiveUp(i: nat)
    | Full(i: nat)
    | Finish(i: nat)
    | Refuse(i: nat)
    | Await(i: nat)
    | Ready(i: nat)
    | Get(i: nat)
    | Shut(i: nat)
    | Wake(i: nat)
    | TakeTable(i: nat)
    | DropPipe(i: nat)
    | FallAsleep(i: nat)
    | Release(i: nat)
    | Kill(i: nat)

  predicate HoldsPipe(pc: Pc) {
    pc.Loop? || pc.Waking? || pc.Sleep0? || pc.Sleep1? || pc.Leaving?
  }

  predicate HoldsTable(pc: Pc) {
    pc.Sleep1? || pc.Sleep2?
  }

  predicate HasJob(pc: Pc) {
    !pc.Out? && !pc.Leaving?
  }

  /** Writers and the closing of the write end wake readers; the others wake writers. */
  predicate WakesReaders(job: Job) {
    job.Write? || (job.Close? && job.writer)
  }

  /** Past the point of no return: it will sleep, or does, without the pipe's lock. */
  predicate Dormant(pc: Pc) {
    pc.Sleep2? || pc.Asleep?
  }

  function WokenOne(pc: Pc, readers: bool): Pc {
    if pc.Asleep? && pc.job.Read? == readers then Enter(pc.job) else pc
  }

  function Woken(pcs: seq<Pc>, readers: bool): (r: seq<Pc>)
    ensures |r| == |pcs| && forall i :: 0 <= i < |pcs| ==> r[i] == WokenOne(pcs[i], readers)
  {
    if pcs == [] then [] else Woken(pcs[..|pcs| - 1], readers) + [WokenOne(pcs[|pcs| - 1], readers)]
  }

  /** An end is closed when the last file on it goes, so nobody is using it. */
  ghost predicate CanStart(s: System, job: Job) {
    match job
    case Write(_) => !s.writeGone
    case Read(_, copying) => !s.readGone && !copying
    case Close(writer) =>
      if writer then !s.writeGone && forall j :: 0 <= j < |s.pcs| && HasJob(s.pcs[j]) ==> !s.pcs[j].job.Write?
      else !s.readGone && forall j :: 0 <= j < |s.pcs| && HasJob(s.pcs[j]) ==> !s.pcs[j].job.Read?
  }

  ghost predicate Enabled(s: System, step: Step) {
    && step.i < |s.pcs|
    && var pc := s.pcs[step.i];
       match step
       case Start(_, job) => pc.Out? && CanStart(s, job)
       case Acquire(_) => pc.Enter? && s.pipeLock == FREE
       case Put(_) => pc.Loop? && pc.job.Write? && pc.job.todo > 0 && s.count != PIPESIZE
       case GiveUp(_) => pc.Loop? && pc.job.Write? && pc.job.todo > 0 && s.count == PIPESIZE
                         && (!s.readOpen || step.i in s.killed)
       case Full(_) => pc.Loop? && pc.job.Write? && pc.job.todo > 0 && s.count == PIPESIZE
                       && s.readOpen && step.i !in s.killed
       case Finish(_) => pc.Loop? && ((pc.job.Write? && pc.job.todo == 0)
                                      || (pc.job.Read? && pc.job.copying && (pc.job.left == 0 || s.count == 0)))
       case Refuse(_) => pc.Loop? && pc.job.Read? && !pc.job.copying && s.count == 0 && s.writeOpen &&
                         step.i in s.killed
       case Await(_) => pc.Loop? && pc.job.Read? && !pc.job.copying && s.count == 0 && s.writeOpen &&
                        step.i !in s.killed
       case Ready(_) => pc.Loop? && pc.job.Read? && !pc.job.copying && !(s.count == 0 && s.writeOpen)
       case Get(_) => pc.Loop? && pc.job.Read? && pc.job.copying && pc.job.left > 0 && s.count != 0
       case Shut(_) => pc.Loop? && pc.job.Close?
       case Wake(_) => pc.Waking? && s.tableLock == FREE
       case TakeTable(_) => pc.Sleep0? && s.tableLock == FREE
       case DropPipe(_) => pc.Sleep1?
       case FallAsleep(_) => pc.Sleep2?
       case Release(_) => pc.Leaving?
       case Kill(_) => true
  }

  /** Where the process goes. */
  ghost function NextPc(s: System, step: Step): Pc
    requires Enabled(s, step)
  {
    var pc := s.pcs[step.i];
    match step
    case Start(_, job) => Enter(job)
    case Acquire(_) => Loop(pc.job, false)
    case Put(_) => Loop(Write(pc.job.todo - 1), true)
    case GiveUp(_) => Leaving
    case Full(_) => Waking(pc.job, true)
    case Finish(_) => Waking(pc.job, false)
    case Refuse(_) => Leaving
    case Await(_) => Sleep0(pc.job)
    case Ready(_) => Loop(Read(pc.job.left, true), pc.owes)
    case Get(_) => Loop(Read(pc.job.left - 1, true), true)
    case Shut(_) => Waking(pc.job, false)
    case Wake(_) => if pc.again then Sleep0(pc.job) else Leaving
    case TakeTable(_) => Sleep1(pc.job)
    case DropPipe(_) => Sleep2(pc.job)
    case FallAsleep(_) => Asleep(pc.job)
    case Release(_) => Out
    case Kill(_) => if pc.Asleep? then Enter(pc.job) else pc
  }

  /** The others move only when they are woken. */
  ghost function Others(s: System, step: Step): (r: seq<Pc>)
    requires Enabled(s, step)
    ensures |r| == |s.pcs|
  {
    if step.Wake? then Woken(s.pcs, WakesReaders(s.pcs[step.i].job)) else s.pcs
  }

  ghost function NextPipeLock(s: System, step: Step): int {
    match step
    case Acquire(i) => i
    case DropPipe(_) => FREE
    case Release(_) => FREE
    case _ => s.pipeLock
  }

  ghost function NextTableLock(s: System, step: Step): int {
    match step
    case TakeTable(i) => i
    case FallAsleep(_) => FREE
    case _ => s.tableLock
  }

  ghost function NextCount(s: System, step: Step): nat
    requires Enabled(s, step)
  {
    match step
    case Put(_) => s.count + 1
    case Get(_) => s.count - 1
    case _ => s.count
  }

  ghost function Apply(s: System, step: Step): System
    requires Enabled(s, step)
  {
    System(Others(s, step)[step.i := NextPc(s, step)], if step.Kill? then s.killed + {step.i} else s.killed,
           NextPipeLock(s, step), NextTableLock(s, step), NextCount(s, step),
           s.readOpen && !(step.Shut? && !s.pcs[step.i].job.writer),
           s.writeOpen && !(step.Shut? && s.pcs[step.i].job.writer),
           s.readGone || (step.Start? && step.job == Close(false)),
           s.writeGone || (step.Start? && step.job == Close(true)))
  }

  // ---- The invariant ----

  ghost predicate LocksOk(s: System) {
    && (s.pipeLock == FREE || 0 <= s.pipeLock < |s.pcs|)
    && (s.tableLock == FREE || 0 <= s.tableLock < |s.pcs|)
    && (forall i :: 0 <= i < |s.pcs| ==> LocksOkAt(s, i, s.pcs[i]))
  }

  predicate LocksOkAt(s: System, i: int, pc: Pc) {
    (HoldsPipe(pc) <==> s.pipeLock == i) && (HoldsTable(pc) <==> s.tableLock == i)
  }

  /** The condition a process sleeps on. */
  predicate Blocked(s: System, job: Job) {
    match job
    case Write(todo) => todo > 0 && s.count == PIPESIZE && s.readOpen
    case Read(_, copying) => !copying && s.count == 0 && s.writeOpen
    case Close(_) => false
  }

  /** The holder of the pipe's lock is bound to wake this side before it lets go. */
  predicate Promised(s: System, readers: bool) {
    && 0 <= s.pipeLock < |s.pcs|
    && var pc := s.pcs[s.pipeLock];
       ((pc.Loop? && pc.owes) || pc.Waking?) && WakesReaders(pc.job) == readers
  }

  /** It sleeps, or is on the way to, only if it is blocked or a wakeup is on its way. */
  predicate SleepOkAt(s: System, pc: Pc) {
    match pc
    case Loop(job, owes) => owes ==> job.Write? || (job.Read? && job.copying)
    case Waking(job, again) => again ==> Blocked(s, job)
    case Sleep0(job) => Blocked(s, job)
    case Sleep1(job) => Blocked(s, job)
    case Sleep2(job) => !job.Close? && (Blocked(s, job) || Promised(s, job.Read?))
    case Asleep(job) => !job.Close? && (Blocked(s, job) || Promised(s, job.Read?))
    case _ => true
  }

  ghost predicate SleepOk(s: System) {
    forall i :: 0 <= i < |s.pcs| ==> SleepOkAt(s, s.pcs[i])
  }

  ghost predicate EndsOk(s: System) {
    && s.count <= PIPESIZE
    && (!s.readOpen ==> s.readGone) && (!s.writeOpen ==> s.writeGone)
    && (forall i :: 0 <= i < |s.pcs| && HasJob(s.pcs[i]) && s.pcs[i].job.Close? ==>
          if s.pcs[i].job.writer then s.writeGone else s.readGone)
    && (s.readGone ==> forall i :: 0 <= i < |s.pcs| && HasJob(s.pcs[i]) ==> !s.pcs[i].job.Read?)
    && (s.writeGone ==> forall i :: 0 <= i < |s.pcs| && HasJob(s.pcs[i]) ==> !s.pcs[i].job.Write?)
  }

  ghost predicate Inv(s: System) {
    LocksOk(s) && SleepOk(s) && EndsOk(s)
  }

  /** A killed writer leaving a full pipe without having told anyone about the bytes it put in. */
  predicate Abandons(s: System, step: Step) {
    step.GiveUp? && step.i < |s.pcs| && s.pcs[step.i].Loop? && s.pcs[step.i].owes && s.readOpen
  }

  lemma LocksKept(s: System, step: Step)
    requires LocksOk(s) && Enabled(s, step)
    ensures LocksOk(Apply(s, step))
  {
    hide CanStart, Woken, NextCount;
    var i, s' := step.i, Apply(s, step);
    assert LocksOkAt(s, i, s.pcs[i]);
    assert LocksOkAt(s', i, NextPc(s, step));
    forall j | 0 <= j < |s.pcs| && j != i ensures LocksOkAt(s', j, s'.pcs[j]) {
      assert LocksOkAt(s, j, s.pcs[j]);
    }
  }

  predicate SameEnd(a: Job, b: Job) {
    a.Write? == b.Write? && a.Read? == b.Read? && (a.Close? ==> b.Close? && a.writer == b.writer)
  }

  /** A process keeps its job through a call: only the start of one gives it another. */
  lemma JobKept(s: System, step: Step, j: nat)
    requires Enabled(s, step) && j < |s.pcs|
    ensures var pc := Apply(s, step).pcs[j];
            HasJob(pc) ==> if step.Start? && j == step.i then pc.job == step.job
                           else HasJob(s.pcs[j]) && SameEnd(pc.job, s.pcs[j].job)
  {
    hide CanStart, Woken;
  }

  lemma EndsKept(s: System, step: Step)
    requires Inv(s) && Enabled(s, step)
    ensures EndsOk(Apply(s, step))
  {
    hide SleepOk, LocksOk, Woken, Others, NextPc;
    var s' := Apply(s, step);
    forall j | 0 <= j < |s.pcs| && HasJob(s'.pcs[j])
      ensures if step.Start? && j == step.i then s'.pcs[j].job == step.job
              else HasJob(s.pcs[j]) && SameEnd(s'.pcs[j].job, s.pcs[j].job)
    {
      JobKept(s, step, j);
    }
  }

  /** Only the holder of the pipe's lock changes what is in the pipe or closes an end. */
  lemma Undisturbed(s: System, step: Step, job: Job)
    requires Enabled(s, step) && !HoldsPipe(s.pcs[step.i])
    ensures Blocked(Apply(s, step), job) == Blocked(s, job)
  {
    hide CanStart, Woken, NextPc;
  }

  lemma SleepKeptSelf(s: System, step: Step)
    requires LocksOk(s) && SleepOk(s) && Enabled(s, step)
    ensures SleepOkAt(Apply(s, step), NextPc(s, step))
  {
    hide CanStart, Woken, LocksOk;
    assert SleepOkAt(s, s.pcs[step.i]);
  }

  /** A sleeper that is not woken is still blocked, or is still promised a wakeup. */
  lemma SleeperKept(s: System, step: Step, j: nat)
    requires Inv(s) && Enabled(s, step) && !Abandons(s, step) && j < |s.pcs| && j != step.i && Dormant(s.pcs[j])
    requires step.Wake? ==> WakesReaders(s.pcs[step.i].job) != s.pcs[j].job.Read?
    ensures var s' := Apply(s, step); Blocked(s', s.pcs[j].job) || Promised(s', s.pcs[j].job.Read?)
  {
    hide CanStart, Woken;
    assert SleepOkAt(s, s.pcs[j]) && SleepOkAt(s, s.pcs[step.i]);
    assert LocksOkAt(s, step.i, s.pcs[step.i]);
  }

  lemma SleepKeptAt(s: System, step: Step, j: nat)
    requires Inv(s) && Enabled(s, step) && !Abandons(s, step) && j < |s.pcs| && j != step.i
    ensures SleepOkAt(Apply(s, step), Others(s, step)[j])
  {
    hide CanStart, Woken, Promised, NextPc, Apply, Blocked;
    var pc := s.pcs[j];
    assert SleepOkAt(s, pc) && LocksOkAt(s, j, pc) && LocksOkAt(s, step.i, s.pcs[step.i]);
    if Dormant(pc) {
      if !(step.Wake? && WakesReaders(s.pcs[step.i].job) == pc.job.Read?) {
        SleeperKept(s, step, j);
      }
    } else if HoldsPipe(pc) && !pc.Leaving? {
      Undisturbed(s, step, pc.job);
    }
  }

  lemma SleepKept(s: System, step: Step)
    requires Inv(s) && Enabled(s, step) && !Abandons(s, step)
    ensures SleepOk(Apply(s, step))
  {
    hide Woken, CanStart, SleepOkAt, Inv;
    assert LocksOk(s) && SleepOk(s) by { Parts(s); }
    SleepKeptSelf(s, step);
    forall j: nat | j < |s.pcs| && j != step.i ensures SleepOkAt(Apply(s, step), Others(s, step)[j]) {
      SleepKeptAt(s, step, j);
    }
  }

  lemma Parts(s: System)
    requires Inv(s)
    ensures LocksOk(s) && SleepOk(s) && EndsOk(s)
  {
  }

  /** Every step keeps the invariant but that of a killed writer that leaves without a wakeup it owes. */
  lemma OthersKeep(s: System, step: Step)
    requires Inv(s) && Enabled(s, step) && !Abandons(s, step)
    ensures Inv(Apply(s, step))
  {
    hide LocksOk, SleepOk, EndsOk, Apply, Enabled;
    LocksKept(s, step);
    SleepKept(s, step);
    EndsKept(s, step);
  }

  ghost predicate HasDormantReader(s: System) {
    exists j :: 0 <= j < |s.pcs| && Dormant(s.pcs[j]) && s.pcs[j].job.Read?
  }

  /** That step breaks it exactly when a reader is asleep, or about to be: there are bytes for it and no wakeup. */
  lemma AbandonBreaks(s: System, step: Step)
    requires Inv(s) && Enabled(s, step) && Abandons(s, step)
    ensures Inv(Apply(s, step)) <==> !HasDormantReader(s)
  {
    hide CanStart, Woken;
    var s' := Apply(s, step);
    if j :| 0 <= j < |s.pcs| && Dormant(s.pcs[j]) && s.pcs[j].job.Read? {
      assert !SleepOkAt(s', s'.pcs[j]);
    } else {
      LocksKept(s, step);
      EndsKept(s, step);
      SleepKeptSelf(s, step);
      forall j | 0 <= j < |s.pcs| && j != step.i ensures SleepOkAt(s', s'.pcs[j]) {
        assert SleepOkAt(s, s.pcs[j]) && LocksOkAt(s, j, s.pcs[j]) && LocksOkAt(s, step.i, s.pcs[step.i]);
      }
    }
  }

  /** A killed writer leaves a full pipe it has put bytes in, and a reader is asleep or about to be. */
  ghost predicate Strands(s: System, step: Step) {
    Abandons(s, step) && HasDormantReader(s)
  }

  /** That step, and no other, breaks the invariant. */
  lemma StepKeeps(s: System, step: Step)
    requires Inv(s) && Enabled(s, step)
    ensures Inv(Apply(s, step)) <==> !Strands(s, step)
  {
    hide Inv, Apply, Enabled, HasDormantReader, Abandons;
    if Abandons(s, step) {
      AbandonBreaks(s, step);
    } else {
      OthersKeep(s, step);
    }
  }

  // ---- Runs ----

  ghost predicate Fresh(s: System) {
    && (forall i :: 0 <= i < |s.pcs| ==> s.pcs[i] == Out)
    && s.pipeLock == FREE && s.tableLock == FREE && s.count == 0
    && s.readOpen && s.writeOpen && !s.readGone && !s.writeGone
  }

  ghost predicate Follows(s: System, step: Step, s': System) {
    Enabled(s, step) && s' == Apply(s, step)
  }

  ghost predicate IsRun(states: seq<System>, steps: seq<Step>) {
    && |states| == |steps| + 1 && Fresh(states[0])
    && forall i {:trigger steps[i]} :: 0 <= i < |steps| ==> Follows(states[i], steps[i], states[i + 1])
  }

  lemma FreshOk(s: System)
    requires Fresh(s)
    ensures Inv(s)
  {
  }

  /** The invariant holds all the way through a run if and only if there is no such step in it. */
  lemma {:induction false} RunInv(states: seq<System>, steps: seq<Step>, n: nat)
    requires IsRun(states, steps) && n < |states|
    ensures (forall k :: 0 <= k <= n ==> Inv(states[k])) <==> forall k :: 0 <= k < n ==> !Strands(states[k], steps[k])
    decreases n
  {
    hide Apply, Enabled, Inv, Strands;
    if n == 0 {
      FreshOk(states[0]);
    } else {
      var m := n - 1;
      RunInv(states, steps, m);
      assert Follows(states[m], steps[m], states[m + 1]);
      if Inv(states[m]) {
        StepKeeps(states[m], steps[m]);
      }
    }
  }

  /** No lost wakeups: whenever the pipe's lock is free, a sleeping reader has nothing to read and a writer that may
      still write, and a sleeping writer has no room and a reader that may still read. */
  lemma NoLostWakeup(states: seq<System>, steps: seq<Step>, n: nat, i: nat)
    requires IsRun(states, steps) && n < |states|
    requires forall k :: 0 <= k < n ==> !Strands(states[k], steps[k])
    requires var s := states[n]; i < |s.pcs| && s.pcs[i].Asleep? && s.pipeLock == FREE
    ensures var s := states[n];
            if s.pcs[i].job.Read? then s.count == 0 && s.writeOpen else s.count == PIPESIZE && s.readOpen
  {
    hide IsRun;
    RunInv(states, steps, n);
    assert Inv(states[n]);
    assert SleepOkAt(states[n], states[n].pcs[i]);
  }

  // ---- A run in which a reader is left asleep ----

  function Pair(reader: Pc, writer: Pc, killed: set<nat>, pipeLock: int, tableLock: int, count: nat): System {
    System([reader, writer], killed, pipeLock, tableLock, count, true, true, false, false)
  }

  /** A reader goes to sleep on an empty pipe; a writer with one byte more than fits fills it, is killed and leaves. */
  ghost function Stage(k: nat): System {
    var r := Read(1, false);
    if k == 0 then Pair(Out, Out, {}, FREE, FREE, 0)
    else if k == 1 then Pair(Enter(r), Out, {}, FREE, FREE, 0)
    else if k == 2 then Pair(Loop(r, false), Out, {}, 0, FREE, 0)
    else if k == 3 then Pair(Sleep0(r), Out, {}, 0, FREE, 0)
    else if k == 4 then Pair(Sleep1(r), Out, {}, 0, 0, 0)
    else if k == 5 then Pair(Sleep2(r), Out, {}, FREE, 0, 0)
    else if k == 6 then Pair(Asleep(r), Out, {}, FREE, FREE, 0)
    else if k == 7 then Pair(Asleep(r), Enter(Write(PIPESIZE + 1)), {}, FREE, FREE, 0)
    else if k <= 8 + PIPESIZE then Pair(Asleep(r), Loop(Write(PIPESIZE + 9 - k), k > 8), {}, 1, FREE, k - 8)
    else if k == 9 + PIPESIZE then Pair(Asleep(r), Loop(Write(1), true), {1}, 1, FREE, PIPESIZE)
    else if k == 10 + PIPESIZE then Pair(Asleep(r), Leaving, {1}, 1, FREE, PIPESIZE)
    else Pair(Asleep(r), Out, {1}, FREE, FREE, PIPESIZE)
  }

  ghost function StageStep(k: nat): Step {
    if k == 0 then Start(0, Read(1, false))
    else if k == 1 then Acquire(0)
    else if k == 2 then Await(0)
    else if k == 3 then TakeTable(0)
    else if k == 4 then DropPipe(0)
    else if k == 5 then FallAsleep(0)
    else if k == 6 then Start(1, Write(PIPESIZE + 1))
    else if k == 7 then Acquire(1)
    else if k < 8 + PIPESIZE then Put(1)
    else if k == 8 + PIPESIZE then Kill(1)
    else if k == 9 + PIPESIZE then GiveUp(1)
    else Release(1)
  }

  lemma StageFollows(k: nat)
    requires k < 11 + PIPESIZE
    ensures Follows(Stage(k), StageStep(k), Stage(k + 1))
  {
    hide Woken;
    if k < 7 {
      assert Apply(Stage(k), StageStep(k)).pcs == Stage(k + 1).pcs;
    } else {
      assert Apply(Stage(k), StageStep(k)).pcs == Stage(k + 1).pcs;
    }
  }

  ghost function Stages(n: nat): (r: seq<System>)
    ensures |r| == n + 1 && forall k :: 0 <= k <= n ==> r[k] == Stage(k)
  {
    if n == 0 then [Stage(0)] else Stages(n - 1) + [Stage(n)]
  }

  ghost function StageSteps(n: nat): (r: seq<Step>)
    ensures |r| == n && forall k :: 0 <= k < n ==> r[k] == StageStep(k)
  {
    if n == 0 then [] else StageSteps(n - 1) + [StageStep(n - 1)]
  }

  /** The exception is real: a reachable state with the lock free, a full pipe, and a reader asleep. */
  lemma Stranded() returns (states: seq<System>, steps: seq<Step>)
    ensures IsRun(states, steps)
    ensures var s := states[|steps|];
            |s.pcs| == 2 && s.pcs[0].Asleep? && s.pcs[0].job.Read? && s.pipeLock == FREE && s.tableLock == FREE &&
            s.count == PIPESIZE
  {
    hide Follows, Stages, StageSteps;
    var n := 11 + PIPESIZE;
    states, steps := Stages(n), StageSteps(n);
    forall k | 0 <= k < n ensures Follows(states[k], steps[k], states[k + 1]) {
      StageFollows(k);
    }
    assert states[n] == Stage(n);
  }
}
