/** Processes, CPUs and the table lock as a state machine: the lock is taken by one context and released by the next
    one the CPU switches to, so it covers every moment at which a process is between running and saved. */
module Scheduling {
  import opened ProcTable

  /** What a process that has just taken the table lock is about to do. */
  datatype Op =
    ToResume | ToYield | ToSleep(chan: int) | ToExit | ToWait | ToWake(chan: int) | ToKill(pid: nat) | ToAlloc

  /** Where a CPU is: in its scheduler, without the table lock, in its round with it, or in an interrupt that has taken
      it; in a process, without the lock or with it; or between a process that has given up its state and the
      scheduler. */
  datatype Pc =
    | Idle
    | Scan(i: nat)
    | Serving(op: Op)
    | Kernel(p: nat)
    | Holding(p: nat, op: Op)
    | Switching(p: nat)

  /** How far a process is in fork(). It may be preempted there, and go on on another CPU. */
  datatype Fork = NotForking | Filling(child: nat, linked: bool)

  /** The rest is history: the slot each pid was given, the pids that have exited, the pids wait() has returned, in
      order, the pids of forks that failed, and the pids that kill() or a fault has marked. */
  datatype System = System(procs: Table, forks: seq<Fork>, pcs: seq<Pc>, lock: int, nextpid: nat,
                           slots: map<nat, nat>, exited: set<nat>, reaped: seq<nat>, abandoned: set<nat>,
                           blamed: set<nat>)

  datatype Step =
    | Acquire(c: nat)
    | Skip(c: nat)
    | Pick(c: nat)
    | Release(c: nat)
    | Serve(c: nat, op: Op)
    | Enter(c: nat, op: Op)
    | Resume(c: nat)
    | Yield(c: nat)
    | SleepOn(c: nat)
    | Exit(c: nat)
    | Wait(c: nat, v: Verdict)
    | Wakeup(c: nat)
    | Kill(c: nat, q: int)
    | Alloc(c: nat, q: int)
    | Switch(c: nat)
    | Link(c: nat)
    | Ready(c: nat)
    | Abandon(c: nat)
    | Fault(c: nat)

  /** The process whose kernel stack a CPU is on. */
  function On(pc: Pc): int {
    match pc
    case Idle => NONE
    case Scan(_) => NONE
    case Serving(_) => NONE
    case Kernel(p) => p
    case Holding(p, _) => p
    case Switching(p) => p
  }

  predicate HoldsLock(pc: Pc) {
    pc.Scan? || pc.Serving? || pc.Holding? || pc.Switching?
  }

  /** What an interrupt handler may do: wake a channel, as the clock and the console do, or kill, as ctrl-C does. */
  predicate Serves(op: Op) {
    op.ToWake? || op.ToKill?
  }

  /** A process inside fork() does nothing else, but the clock can preempt it and it can be interrupted. */
  predicate Interrupts(op: Op) {
    op.ToYield? || Serves(op)
  }

  predicate Fills(s: System, p: nat) {
    p < |s.forks| && s.forks[p].Filling?
  }

  predicate Alive(p: Proc) {
    p.state == SLEEPING || p.state == RUNNABLE || p.state == RUNNING
  }

  predicate Used(p: Proc) {
    p.state != UNUSED
  }

  predicate Sleeper(t: Table, p: int) {
    0 <= p < |t| && t[p].state == SLEEPING && t[p].resume == InWait
  }

  // ---- The steps ----

  ghost predicate Enabled(s: System, init: nat, step: Step) {
    && step.c < |s.pcs|
    && var pc := s.pcs[step.c];
       match step
       case Acquire(_) => pc.Idle? && s.lock == NONE
       case Skip(_) => pc.Scan? && pc.i < |s.procs| && s.procs[pc.i].state != RUNNABLE
       case Pick(_) => pc.Scan? && pc.i < |s.procs| && s.procs[pc.i].state == RUNNABLE
       case Release(_) => pc.Scan? && pc.i == |s.procs|
       case Serve(_, op) => pc.Idle? && s.lock == NONE && Serves(op)
       case Enter(_, op) =>
         && pc.Kernel? && s.lock == NONE && !op.ToResume? && (op.ToExit? ==> pc.p != init)
         && (Fills(s, pc.p) ==> Interrupts(op))
       case Resume(_) => pc.Holding? && pc.op.ToResume?
       case Yield(_) => pc.Holding? && pc.op.ToYield?
       case SleepOn(_) => pc.Holding? && pc.op.ToSleep?
       case Exit(_) => pc.Holding? && pc.op.ToExit?
       case Wait(_, v) => pc.Holding? && pc.op.ToWait? && pc.p < |s.procs| && Decides(s.procs, pc.p, v)
       case Wakeup(_) => (pc.Holding? || pc.Serving?) && pc.op.ToWake?
       case Kill(_, q) => (pc.Holding? || pc.Serving?) && pc.op.ToKill? && IsFirst(s.procs, pc.op.pid, q)
       case Alloc(_, q) =>
         pc.Holding? && pc.op.ToAlloc? && (q == NONE || (0 <= q < |s.procs| && s.procs[q].state == UNUSED))
       case Switch(_) => pc.Switching?
       case Link(_) => pc.Kernel? && Fills(s, pc.p) && !s.forks[pc.p].linked
       case Ready(_) => pc.Kernel? && Fills(s, pc.p) && s.forks[pc.p].linked
       case Abandon(_) => pc.Kernel? && Fills(s, pc.p) && !s.forks[pc.p].linked
       case Fault(_) => pc.Kernel? && !Fills(s, pc.p)
  }

  /** What wait()'s pass over the table can find. */
  ghost predicate Decides(t: Table, p: nat, v: Verdict)
    requires p < |t|
  {
    match v
    case Reap(q, pid) => IsZombieChild(t, p, q) && pid == t[q].pid
    case Fail => !HasZombie(t, p)
    case Sleep => !HasZombie(t, p) && HasChild(t, p) && !t[p].killed
  }

  ghost function Exited(t: Table, p: nat, init: nat, n: nat): (r: Table)
    requires p < |t| && n <= |t|
    ensures |r| == n && forall i :: 0 <= i < n ==> r[i] == ExitOne(t, p, init, i)
  {
    if n == 0 then [] else Exited(t, p, init, n - 1) + [ExitOne(t, p, init, n - 1)]
  }

  ghost predicate InRange(s: System) {
    && (forall c :: 0 <= c < |s.pcs| ==> On(s.pcs[c]) < |s.procs|)
    && |s.forks| == |s.procs| && (forall p :: 0 <= p < |s.forks| && Fills(s, p) ==> s.forks[p].child < |s.procs|)
  }

  /** The slot that the process on a CPU is filling. */
  function Child(s: System, c: nat): nat
    requires c < |s.pcs| && s.pcs[c].Kernel? && Fills(s, s.pcs[c].p)
  {
    s.forks[s.pcs[c].p].child
  }

  /** The table after a step. sleep() clears the channel when it resumes; the writes of fork() are to its own slot. */
  ghost function NextTable(s: System, init: nat, step: Step): (t: Table)
    requires Enabled(s, init, step) && InRange(s)
    ensures |t| == |s.procs|
  {
    var t, pc := s.procs, s.pcs[step.c];
    match step
    case Pick(c) => t[pc.i := t[pc.i].(state := RUNNING, cpuid := c)]
    case Resume(_) => t[pc.p := t[pc.p].(chan := if t[pc.p].resume in {AfterSleep, InWait} then NONE else t[pc.p].chan)]
    case Yield(_) => t[pc.p := t[pc.p].(state := RUNNABLE, resume := AfterYield)]
    case SleepOn(_) => t[pc.p := t[pc.p].(state := SLEEPING, chan := pc.op.chan, resume := AfterSleep)]
    case Exit(_) => Exited(t, pc.p, init, |t|)
    case Wait(_, v) =>
      (match v
       case Reap(q, _) => t[q := Reaped(t[q])]
       case Fail => t
       case Sleep => t[pc.p := Waiting(t[pc.p], pc.p)])
    case Wakeup(_) => Woken(t, pc.op.chan)
    case Kill(_, q) => if q == NONE then t else t[q := Killed(t[q])]
    case Alloc(_, q) => if q == NONE then t else t[q := t[q].(state := EMBRYO, pid := s.nextpid)]
    case Link(c) => t[Child(s, c) := t[Child(s, c)].(parent := pc.p)]
    case Ready(c) => t[Child(s, c) := t[Child(s, c)].(state := RUNNABLE, resume := Forkret)]
    case Abandon(c) => t[Child(s, c) := t[Child(s, c)].(state := UNUSED)]
    case Fault(_) => t[pc.p := t[pc.p].(killed := true)]
    case _ => t
  }

  /** Where the CPU goes. A process that resumes inside wait() keeps the lock and looks again. */
  ghost function NextPc(s: System, init: nat, step: Step): Pc
    requires Enabled(s, init, step) && InRange(s)
  {
    var pc := s.pcs[step.c];
    match step
    case Acquire(_) => Scan(0)
    case Skip(_) => Scan(pc.i + 1)
    case Pick(_) => Holding(pc.i, ToResume)
    case Release(_) => Idle
    case Serve(_, op) => Serving(op)
    case Enter(_, op) => Holding(pc.p, op)
    case Resume(_) => if s.procs[pc.p].resume == InWait then Holding(pc.p, ToWait) else Kernel(pc.p)
    case Yield(_) => Switching(pc.p)
    case SleepOn(_) => Switching(pc.p)
    case Exit(_) => Switching(pc.p)
    case Wait(_, v) => if v.Sleep? then Switching(pc.p) else Kernel(pc.p)
    case Wakeup(_) => if pc.Serving? then Idle else Kernel(pc.p)
    case Kill(_, _) => if pc.Serving? then Idle else Kernel(pc.p)
    case Alloc(_, _) => Kernel(pc.p)
    case Switch(_) => Scan(pc.p + 1)
    case Link(_) => pc
    case Ready(_) => pc
    case Abandon(_) => pc
    case Fault(_) => pc
  }

  ghost function NextForks(s: System, init: nat, step: Step): seq<Fork>
    requires Enabled(s, init, step) && InRange(s)
  {
    var pc := s.pcs[step.c];
    match step
    case Alloc(_, q) => if q == NONE then s.forks else s.forks[pc.p := Filling(q, false)]
    case Link(c) => s.forks[pc.p := Filling(Child(s, c), true)]
    case Ready(_) => s.forks[pc.p := NotForking]
    case Abandon(_) => s.forks[pc.p := NotForking]
    case _ => s.forks
  }

  /** Who takes the lock and who lets it go: the scheduler's round, and every entry into a locked section; a switch
      leaves it alone. */
  ghost function NextLock(s: System, init: nat, step: Step): int
    requires Enabled(s, init, step) && InRange(s)
  {
    match step
    case Acquire(c) => c
    case Serve(c, _) => c
    case Enter(c, _) => c
    case Release(_) => NONE
    case Wakeup(_) => NONE
    case Kill(_, _) => NONE
    case Alloc(_, _) => NONE
    case Resume(c) => if s.procs[s.pcs[c].p].resume == InWait then s.lock else NONE
    case Wait(_, v) => if v.Sleep? then s.lock else NONE
    case _ => s.lock
  }

  ghost function Apply(s: System, init: nat, step: Step): System
    requires Enabled(s, init, step) && InRange(s)
  {
    var allocates := step.Alloc? && step.q != NONE;
    System(NextTable(s, init, step), NextForks(s, init, step), s.pcs[step.c := NextPc(s, init, step)],
           NextLock(s, init, step),
           if allocates then s.nextpid + 1 else s.nextpid,
           if allocates then s.slots[s.nextpid := step.q] else s.slots,
           if step.Exit? then s.exited + {s.procs[s.pcs[step.c].p].pid} else s.exited,
           if step.Wait? && step.v.Reap? then s.reaped + [step.v.pid] else s.reaped,
           if step.Abandon? then s.abandoned + {s.procs[Child(s, step.c)].pid} else s.abandoned,
           if step.Kill? && step.q != NONE then s.blamed + {s.pcs[step.c].op.pid}
           else if step.Fault? then s.blamed + {s.procs[s.pcs[step.c].p].pid} else s.blamed)
  }

  // ---- The invariant ----

  /** The lock is held by the one CPU whose position says so. */
  ghost predicate LockOk(pcs: seq<Pc>, lock: int) {
    && (lock == NONE || 0 <= lock < |pcs|)
    && forall c :: 0 <= c < |pcs| ==> (HoldsLock(pcs[c]) <==> lock == c)
  }

  /** A CPU on a process's stack is the one the process was last given to. */
  ghost predicate OnOk(t: Table, pcs: seq<Pc>) {
    forall c :: 0 <= c < |pcs| && On(pcs[c]) != NONE ==>
      && 0 <= On(pcs[c]) < |t| && t[On(pcs[c])].cpuid == c
      && (if pcs[c].Switching? then t[On(pcs[c])].state in {RUNNABLE, SLEEPING, ZOMBIE}
          else t[On(pcs[c])].state == RUNNING)
  }

  ghost predicate RunOk(t: Table, pcs: seq<Pc>) {
    forall p :: 0 <= p < |t| && t[p].state == RUNNING ==> t[p].cpuid < |pcs| && On(pcs[t[p].cpuid]) == p
  }

  /** A scheduler's scan is inside the table, its interrupts wake or kill, and init is not exiting: exit() panics on it
      before any of this. */
  ghost predicate PlaceOk(t: Table, pcs: seq<Pc>, init: nat) {
    && (forall c :: 0 <= c < |pcs| && pcs[c].Scan? ==> pcs[c].i <= |t|)
    && (forall c :: 0 <= c < |pcs| && pcs[c].Serving? ==> Serves(pcs[c].op))
    && (forall c :: 0 <= c < |pcs| && pcs[c].Holding? && pcs[c].op.ToExit? ==> pcs[c].p != init)
  }

  /** A slot being filled is in nobody's hands but its parent's, who is not asleep. */
  ghost predicate FillOk(t: Table, forks: seq<Fork>, p: nat)
    requires p < |t| && p < |forks| && forks[p].Filling?
  {
    var f := forks[p];
    && f.child < |t| && t[f.child].state == EMBRYO && t[f.child].parent == (if f.linked then p else NONE)
    && t[p].state in {RUNNING, RUNNABLE} && (t[p].state == RUNNABLE ==> t[p].resume == AfterYield)
  }

  /** A slot being filled by fork() belongs to that fork alone. */
  ghost predicate ForkOk(t: Table, forks: seq<Fork>) {
    && |forks| == |t| && (forall p :: 0 <= p < |t| && forks[p].Filling? ==> FillOk(t, forks, p))
    && (forall p, r :: 0 <= p < r < |forks| && forks[p].Filling? && forks[r].Filling? ==>
          forks[p].child != forks[r].child)
  }

  /** With the lock, a process inside fork() only gives way to an interrupt, or comes back from one. */
  ghost predicate BusyOk(s: System) {
    forall c :: 0 <= c < |s.pcs| && s.pcs[c].Holding? && Fills(s, s.pcs[c].p) ==>
      Interrupts(s.pcs[c].op) || (s.pcs[c].op.ToResume? && s.pcs[c].p < |s.procs| &&
                                  s.procs[s.pcs[c].p].resume == AfterYield)
  }

  predicate ParentOk(t: Table, q: nat)
    requires q < |t|
  {
    t[q].parent == NONE || (0 <= t[q].parent < |t| && t[q].parent != q && Alive(t[t[q].parent]))
  }

  /** Every process but init has a parent, and no parent has exited. */
  ghost predicate TreeOk(t: Table, init: nat) {
    && init < |t| && Alive(t[init]) && t[init].parent == NONE
    && (forall q {:trigger ParentOk(t, q)} :: 0 <= q < |t| ==> ParentOk(t, q))
    && (forall q :: 0 <= q < |t| && t[q].state == UNUSED ==> t[q].parent == NONE)
    && (forall q :: 0 <= q < |t| && q != init && t[q].state != UNUSED && t[q].state != EMBRYO ==> t[q].parent != NONE)
  }

  /** A zombie whose parent sleeps on in wait(). */
  predicate Missed(t: Table, q: nat)
    requires q < |t|
  {
    t[q].state == ZOMBIE && Sleeper(t, t[q].parent)
  }

  /** No process sleeps in wait() past the exit of a child, without a child, or past a kill. */
  ghost predicate WaitOk(t: Table) {
    && (forall q {:trigger Missed(t, q)} :: 0 <= q < |t| ==> !Missed(t, q))
    && (forall p :: Sleeper(t, p) ==> t[p].chan == p && !t[p].killed && HasChild(t, p))
  }

  /** A pid in use names one slot, and pids are not used again. */
  ghost predicate PidOk(t: Table, nextpid: nat, slots: map<nat, nat>) {
    && (forall p :: 0 <= p < |t| && Used(t[p]) ==> t[p].pid in slots && slots[t[p].pid] == p)
    && (forall x :: x in slots ==> x < nextpid)
  }

  /** Exited processes are the zombies and the reaped ones, and none is reaped twice. */
  ghost predicate ReapOk(t: Table, slots: map<nat, nat>, exited: set<nat>, reaped: seq<nat>) {
    && (forall p :: 0 <= p < |t| && Used(t[p]) ==> (t[p].state == ZOMBIE <==> t[p].pid in exited))
    && (forall p :: 0 <= p < |t| && Used(t[p]) ==> t[p].pid !in reaped)
    && (forall x :: x in exited ==> x in slots)
    && (forall i :: 0 <= i < |reaped| ==> reaped[i] in exited)
    && (forall i, j :: 0 <= i < j < |reaped| ==> reaped[i] != reaped[j])
    && (forall x :: x in exited && x !in reaped ==>
          slots[x] < |t| && t[slots[x]].state == ZOMBIE && t[slots[x]].pid == x)
  }

  ghost predicate CpusOk(s: System, init: nat) {
    LockOk(s.pcs, s.lock) && OnOk(s.procs, s.pcs) && RunOk(s.procs, s.pcs)
    && PlaceOk(s.procs, s.pcs, init) && ForkOk(s.procs, s.forks) && BusyOk(s)
  }

  /** A slot that is not in use has no pid, unless it was last given to a fork that failed. */
  ghost predicate StaleOk(t: Table, nextpid: nat, slots: map<nat, nat>, abandoned: set<nat>) {
    && 0 < nextpid && 0 !in slots
    && (forall p :: 0 <= p < |t| && !Used(t[p]) ==> t[p].pid == 0 || t[p].pid in abandoned)
    && (forall p :: 0 <= p < |t| && Used(t[p]) ==> t[p].pid !in abandoned)
    && (forall x :: x in abandoned ==> x in slots)
  }

  ghost predicate HistoryOk(s: System) {
    PidOk(s.procs, s.nextpid, s.slots) && ReapOk(s.procs, s.slots, s.exited, s.reaped)
  }

  ghost predicate StaleOkNow(s: System) {
    StaleOk(s.procs, s.nextpid, s.slots, s.abandoned)
  }

  ghost predicate Inv(s: System, init: nat) {
    CpusOk(s, init) && TreeOk(s.procs, init) && WaitOk(s.procs) && HistoryOk(s) && StaleOkNow(s)
  }

  // ---- What one step keeps ----

  /** One CPU moves on, and only the process it leaves or takes up changes hands. */
  lemma CpuMoves(t: Table, t': Table, pcs: seq<Pc>, c: nat, pc: Pc)
    requires OnOk(t, pcs) && RunOk(t, pcs) && c < |pcs| && |t'| == |t|
    requires forall i :: 0 <= i < |t| && i != On(pcs[c]) && i != On(pc) ==>
                           t'[i].cpuid == t[i].cpuid && (t'[i].state == RUNNING <==> t[i].state == RUNNING)
    requires On(pcs[c]) == On(pc) || On(pcs[c]) == NONE || (On(pc) == NONE && t'[On(pcs[c])].state != RUNNING)
    requires On(pc) != NONE ==> 0 <= On(pc) < |t| && t'[On(pc)].cpuid == c
    requires On(pc) != NONE ==> if pc.Switching? then t'[On(pc)].state in {RUNNABLE, SLEEPING, ZOMBIE}
                                else t'[On(pc)].state == RUNNING
    requires On(pc) != NONE && On(pc) != On(pcs[c]) ==> t[On(pc)].state != RUNNING && !pc.Switching?
    requires forall d :: 0 <= d < |pcs| && d != c && pcs[d].Switching? ==>
                           t'[On(pcs[d])].state in {RUNNABLE, SLEEPING, ZOMBIE}
    ensures OnOk(t', pcs[c := pc]) && RunOk(t', pcs[c := pc])
  {
  }

  lemma Placed(s: System, init: nat)
    requires CpusOk(s, init)
    ensures InRange(s)
  {
  }

  lemma LockKept(s: System, init: nat, step: Step)
    requires Enabled(s, init, step) && InRange(s) && LockOk(s.pcs, s.lock)
    ensures LockOk(s.pcs[step.c := NextPc(s, init, step)], NextLock(s, init, step))
  {
    hide Decides, NextTable;
  }

  /** A CPU that is switching holds the lock, so no step of another one changes what it has put in the table. */
  lemma Settled(s: System, init: nat, step: Step, d: nat)
    requires Enabled(s, init, step) && CpusOk(s, init) && InRange(s)
    requires d < |s.pcs| && d != step.c && s.pcs[d].Switching?
    ensures NextTable(s, init, step)[s.pcs[d].p].state in {RUNNABLE, SLEEPING, ZOMBIE}
  {
    hide RunOk, HasZombie, HasChild, PlaceOk, Exited, Woken;
    assert s.lock == d && !HoldsLock(s.pcs[step.c]);
  }

  /** A process that was not on this CPU and is not on it now runs if and only if it did. */
  lemma OffCpu(s: System, init: nat, step: Step, i: nat)
    requires Enabled(s, init, step) && CpusOk(s, init) && InRange(s) && i < |s.procs|
    requires i != On(s.pcs[step.c]) && i != On(NextPc(s, init, step))
    ensures var x, y := s.procs[i], NextTable(s, init, step)[i];
            y.cpuid == x.cpuid && (y.state == RUNNING <==> x.state == RUNNING)
  {
    hide RunOk, HasZombie, HasChild, PlaceOk, LockOk;
  }

  /** What is on this CPU now was on it, or was picked while it ran nowhere. */
  lemma OnCpu(s: System, init: nat, step: Step)
    requires Enabled(s, init, step) && CpusOk(s, init) && InRange(s)
    ensures var was, now, t := On(s.pcs[step.c]), On(NextPc(s, init, step)), NextTable(s, init, step);
            && (was == now || was == NONE || (now == NONE && t[was].state != RUNNING))
            && (now != NONE ==>
                  && 0 <= now < |t| && t[now].cpuid == step.c
                  && (if NextPc(s, init, step).Switching? then t[now].state in {RUNNABLE, SLEEPING, ZOMBIE}
                      else t[now].state == RUNNING)
                  && (now != was ==> s.procs[now].state != RUNNING && !NextPc(s, init, step).Switching?))
  {
    hide RunOk, HasZombie, HasChild, PlaceOk, LockOk;
  }

  lemma RunsKept(s: System, init: nat, step: Step)
    requires Enabled(s, init, step) && CpusOk(s, init) && InRange(s)
    ensures var s' := Apply(s, init, step); OnOk(s'.procs, s'.pcs) && RunOk(s'.procs, s'.pcs)
  {
    hide RunOk, OnOk, PlaceOk, LockOk, ForkOk, NextTable, NextPc;
    OnCpu(s, init, step);
    forall i: nat | i < |s.procs| && i != On(s.pcs[step.c]) && i != On(NextPc(s, init, step))
      ensures var x, y := s.procs[i], NextTable(s, init, step)[i];
              y.cpuid == x.cpuid && (y.state == RUNNING <==> x.state == RUNNING)
    {
      OffCpu(s, init, step, i);
    }
    forall d: nat | d < |s.pcs| && d != step.c && s.pcs[d].Switching?
      ensures NextTable(s, init, step)[On(s.pcs[d])].state in {RUNNABLE, SLEEPING, ZOMBIE}
    {
      Settled(s, init, step, d);
    }
    CpuMoves(s.procs, NextTable(s, init, step), s.pcs, step.c, NextPc(s, init, step));
  }

  /** The one slot a step changes, if it changes one. */
  function Changed(s: System, step: Step): int
    requires step.c < |s.pcs|
  {
    var pc := s.pcs[step.c];
    match step
    case Pick(_) => if pc.Scan? then pc.i else NONE
    case Resume(_) => On(pc)
    case Yield(_) => On(pc)
    case SleepOn(_) => On(pc)
    case Fault(_) => On(pc)
    case Wait(_, v) => if v.Reap? then v.slot else if v.Sleep? then On(pc) else NONE
    case Kill(_, q) => q
    case Alloc(_, q) => q
    case Link(_) => if pc.Kernel? && Fills(s, pc.p) then Child(s, step.c) else NONE
    case Ready(_) => if pc.Kernel? && Fills(s, pc.p) then Child(s, step.c) else NONE
    case Abandon(_) => if pc.Kernel? && Fills(s, pc.p) then Child(s, step.c) else NONE
    case _ => NONE
  }

  lemma OneSlot(s: System, init: nat, step: Step)
    requires Enabled(s, init, step) && InRange(s) && !step.Exit? && !step.Wakeup?
    ensures var p, t := Changed(s, step), NextTable(s, init, step);
            if p == NONE then t == s.procs else 0 <= p < |t| && t == s.procs[p := t[p]]
  {
    hide HasZombie, HasChild;
  }

  /** No step touches a slot that is being filled, but the steps of the process that fills it. */
  lemma ForkUntouched(s: System, init: nat, step: Step, p: nat)
    requires Enabled(s, init, step) && CpusOk(s, init) && InRange(s)
    requires p < |s.procs| && Fills(s, p) && NextForks(s, init, step)[p] == s.forks[p]
    ensures var t, q := NextTable(s, init, step), s.forks[p].child;
            t[q].state == EMBRYO && t[q].parent == s.procs[q].parent
  {
    hide RunOk, HasZombie, HasChild, LockOk, Exited, Woken;
    if !step.Exit? && !step.Wakeup? && !step.Kill? {
      hide NextTable;
      OneSlot(s, init, step);
      OtherSlot(s, init, step, p);
    }
  }

  lemma OtherSlot(s: System, init: nat, step: Step, p: nat)
    requires Enabled(s, init, step) && CpusOk(s, init) && InRange(s) && !step.Kill?
    requires p < |s.procs| && Fills(s, p) && NextForks(s, init, step)[p] == s.forks[p]
    ensures Changed(s, step) != s.forks[p].child
  {
    hide RunOk, HasZombie, HasChild, LockOk, NextTable;
  }

  /** A process stays awake while it is filling one. */
  lemma FillerAwake(s: System, init: nat, step: Step, p: nat)
    requires Enabled(s, init, step) && CpusOk(s, init) && InRange(s)
    requires p < |s.procs| && NextForks(s, init, step)[p].Filling?
    ensures var x := NextTable(s, init, step)[p];
            x.state in {RUNNING, RUNNABLE} && (x.state == RUNNABLE ==> x.resume == AfterYield)
  {
    hide RunOk, HasZombie, HasChild, LockOk, Exited, Woken;
    if !step.Exit? && !step.Wakeup? {
      hide NextTable;
      FillerWas(s, init, step, p);
      if Changed(s, step) == p {
        FillerMoves(s, init, step, p);
      } else {
        OneSlot(s, init, step);
      }
    }
  }

  lemma FillerWas(s: System, init: nat, step: Step, p: nat)
    requires Enabled(s, init, step) && CpusOk(s, init) && InRange(s)
    requires p < |s.procs| && NextForks(s, init, step)[p].Filling?
    ensures var x := s.procs[p];
            x.state in {RUNNING, RUNNABLE} && (x.state == RUNNABLE ==> x.resume == AfterYield)
  {
    hide RunOk, HasZombie, HasChild, LockOk, NextTable;
  }

  lemma FillerMoves(s: System, init: nat, step: Step, p: nat)
    requires Enabled(s, init, step) && CpusOk(s, init) && InRange(s) && !step.Exit? && !step.Wakeup?
    requires p < |s.procs| && NextForks(s, init, step)[p].Filling? && Changed(s, step) == p
    ensures var x := NextTable(s, init, step)[p];
            x.state in {RUNNING, RUNNABLE} && (x.state == RUNNABLE ==> x.resume == AfterYield)
  {
    hide RunOk, HasZombie, HasChild, LockOk, Exited, Woken, PlaceOk;
  }

  lemma PlacesKept(s: System, init: nat, step: Step)
    requires Enabled(s, init, step) && CpusOk(s, init) && InRange(s)
    ensures var s' := Apply(s, init, step); PlaceOk(s'.procs, s'.pcs, init)
  {
    hide RunOk, HasZombie, HasChild, LockOk, ForkOk, NextTable;
  }

  lemma ForksKept(s: System, init: nat, step: Step)
    requires Enabled(s, init, step) && CpusOk(s, init) && InRange(s) && TreeOk(s.procs, init)
    ensures ForkOk(NextTable(s, init, step), NextForks(s, init, step))
  {
    hide RunOk, HasZombie, HasChild, LockOk, PlaceOk, ExitOne, WakenOne;
    var t, forks := NextTable(s, init, step), NextForks(s, init, step);
    forall p: nat | p < |t| && forks[p].Filling? ensures FillOk(t, forks, p) {
      FillerAwake(s, init, step, p);
      if forks[p] == s.forks[p] {
        ForkUntouched(s, init, step, p);
      }
    }
    ChildrenApart(s, init, step);
  }

  lemma ChildrenApart(s: System, init: nat, step: Step)
    requires Enabled(s, init, step) && CpusOk(s, init) && InRange(s)
    ensures var forks := NextForks(s, init, step);
            forall p, r :: 0 <= p < r < |forks| && forks[p].Filling? && forks[r].Filling? ==>
              forks[p].child != forks[r].child
  {
    hide RunOk, HasZombie, HasChild, LockOk, PlaceOk, OnOk;
  }

  lemma BusyKept(s: System, init: nat, step: Step)
    requires Enabled(s, init, step) && CpusOk(s, init) && InRange(s)
    ensures BusyOk(Apply(s, init, step))
  {
    hide RunOk, HasZombie, HasChild, PlaceOk;
  }

  /** A change to one slot that leaves its children their parent. */
  lemma TreeUpdated(t: Table, init: nat, p: nat, x: Proc)
    requires TreeOk(t, init) && p < |t| && (Alive(t[p]) ==> Alive(x))
    requires x.parent == NONE || (0 <= x.parent < |t| && x.parent != p && Alive(t[x.parent]))
    requires x.state == UNUSED ==> x.parent == NONE
    requires if p == init then x.parent == NONE else x.state == UNUSED || x.state == EMBRYO || x.parent != NONE
    ensures TreeOk(t[p := x], init)
  {
    var t' := t[p := x];
    forall q | 0 <= q < |t| ensures ParentOk(t', q) {
      assert ParentOk(t, q);
    }
  }

  lemma TreeWoken(t: Table, init: nat, chan: int)
    requires TreeOk(t, init)
    ensures TreeOk(Woken(t, chan), init)
  {
    forall q | 0 <= q < |t| ensures ParentOk(Woken(t, chan), q) {
      assert ParentOk(t, q);
    }
  }

  /** An exiting process leaves no child behind: every one is init's now. */
  lemma TreeExited(t: Table, init: nat, p: nat)
    requires TreeOk(t, init) && p < |t| && p != init && t[p].state == RUNNING
    ensures TreeOk(Exited(t, p, init, |t|), init)
  {
    hide HasZombie, Exited;
    var t' := Exited(t, p, init, |t|);
    forall q | 0 <= q < |t| ensures ParentOk(t', q) {
      assert ParentOk(t, q);
    }
  }

  lemma TreeKept(s: System, init: nat, step: Step)
    requires Enabled(s, init, step) && CpusOk(s, init) && InRange(s) && TreeOk(s.procs, init)
    ensures TreeOk(NextTable(s, init, step), init)
  {
    hide RunOk, HasZombie, HasChild, LockOk, Exited, Woken;
    var p := Changed(s, step);
    if step.Exit? {
      TreeExited(s.procs, init, s.pcs[step.c].p);
    } else if step.Wakeup? {
      TreeWoken(s.procs, init, s.pcs[step.c].op.chan);
    } else {
      OneSlot(s, init, step);
      if p != NONE {
        assert ParentOk(s.procs, p);
        TreeUpdated(s.procs, init, p, NextTable(s, init, step)[p]);
      }
    }
  }

  /** A change to one slot that neither makes a zombie nor puts its process to sleep in wait(), and takes no child
      from a process that does. */
  lemma WaitUpdated(t: Table, p: nat, x: Proc)
    requires WaitOk(t) && p < |t|
    requires x.state == ZOMBIE ==> t[p].state == ZOMBIE && x.parent == t[p].parent
    requires x.state == SLEEPING ==> x.resume != InWait
    requires x.parent == t[p].parent || !Sleeper(t, t[p].parent)
    ensures WaitOk(t[p := x])
  {
    var t' := t[p := x];
    forall q | 0 <= q < |t| ensures !Missed(t', q) {
      assert !Missed(t, q);
    }
    forall r | Sleeper(t', r) ensures HasChild(t', r) {
      assert Sleeper(t, r);
      var q :| IsChild(t, r, q);
      assert IsChild(t', r, q);
    }
  }

  /** wait() goes to sleep with the lock held since it looked, so nothing has happened in between. */
  lemma WaitSleeps(t: Table, p: nat)
    requires WaitOk(t) && p < |t| && !HasZombie(t, p) && HasChild(t, p) && !t[p].killed
    ensures WaitOk(t[p := Waiting(t[p], p)])
  {
    var t' := t[p := Waiting(t[p], p)];
    forall q | 0 <= q < |t| ensures !Missed(t', q) {
      assert !Missed(t, q);
      assert !IsZombieChild(t, p, q);
    }
    forall r | Sleeper(t', r) ensures HasChild(t', r) {
      assert r != p ==> Sleeper(t, r);
      var q :| IsChild(t, r, q);
      assert IsChild(t', r, q);
    }
  }

  lemma WaitWoken(t: Table, chan: int)
    requires WaitOk(t)
    ensures WaitOk(Woken(t, chan))
  {
    hide Woken;
    var t' := Woken(t, chan);
    forall q | 0 <= q < |t| ensures !Missed(t', q) {
      assert !Missed(t, q);
    }
    forall r | Sleeper(t', r) ensures t'[r].chan == r && !t'[r].killed && HasChild(t', r) {
      assert Sleeper(t, r);
      var q :| IsChild(t, r, q);
      assert IsChild(t', r, q);
    }
  }

  /** exit() wakes everyone its death, or the children it passes on, could be news to. */
  lemma WaitExited(t: Table, init: nat, p: nat)
    requires WaitOk(t) && TreeOk(t, init) && p < |t| && p != init && t[p].state == RUNNING
    ensures WaitOk(Exited(t, p, init, |t|))
  {
    hide Exited, HasZombie, HasChild;
    var t' := Exited(t, p, init, |t|);
    forall r | Sleeper(t', r) ensures Sleeper(t, r) && t'[r].chan == r && !t'[r].killed && HasChild(t', r) {
      assert t'[r] == ExitOne(t, p, init, r);
      StillHasChild(t, t', init, p, r);
    }
    forall q | 0 <= q < |t| ensures !Missed(t', q) {
      assert t'[q] == ExitOne(t, p, init, q);
      NotMissed(t, t', init, p, q);
    }
  }

  lemma StillHasChild(t: Table, t': Table, init: nat, p: nat, r: int)
    requires WaitOk(t) && p < |t| && t[p].state == RUNNING && Sleeper(t, r) && |t'| == |t|
    requires forall i :: 0 <= i < |t| ==> t'[i] == ExitOne(t, p, init, i)
    ensures HasChild(t', r)
  {
    hide HasZombie;
    var q :| IsChild(t, r, q);
    assert IsChild(t', r, q);
  }

  lemma NotMissed(t: Table, t': Table, init: nat, p: nat, q: nat)
    requires WaitOk(t) && TreeOk(t, init) && p < |t| && p != init && t[p].state == RUNNING && q < |t| && |t'| == |t|
    requires forall i :: 0 <= i < |t| ==> t'[i] == ExitOne(t, p, init, i)
    ensures !Missed(t', q)
  {
    hide HasChild;
    assert !Missed(t, q);
    assert ParentOk(t, q) && ParentOk(t, p);
    if t'[q].state == ZOMBIE {
      var r := t'[q].parent;
      if q != p && t[q].parent == p {
        assert IsZombieChild(t, p, q);
        assert HasZombie(t, p);
      }
      assert Sleeper(t, r) ==> t[r].chan == r;
    }
  }

  lemma WaitKept(s: System, init: nat, step: Step)
    requires Enabled(s, init, step) && CpusOk(s, init) && InRange(s) && TreeOk(s.procs, init) && WaitOk(s.procs)
    ensures WaitOk(NextTable(s, init, step))
  {
    hide RunOk, HasZombie, HasChild, LockOk, Exited, Woken, WaitOk;
    var p := Changed(s, step);
    if step.Exit? {
      WaitExited(s.procs, init, s.pcs[step.c].p);
    } else if step.Wakeup? {
      WaitWoken(s.procs, s.pcs[step.c].op.chan);
    } else if step.Wait? && step.v.Sleep? {
      WaitSleeps(s.procs, p);
    } else {
      OneSlot(s, init, step);
      if p != NONE {
        WaitUpdated(s.procs, p, NextTable(s, init, step)[p]);
      }
    }
  }

  /** Away from allocation, exit and reaping, no slot changes hands. */
  ghost predicate SameTenants(t: Table, t': Table) {
    && |t'| == |t|
    && (forall p :: 0 <= p < |t| && Used(t'[p]) ==>
          Used(t[p]) && t'[p].pid == t[p].pid && (t'[p].state == ZOMBIE <==> t[p].state == ZOMBIE))
    && (forall p :: 0 <= p < |t| && t[p].state == ZOMBIE ==> t'[p].state == ZOMBIE && t'[p].pid == t[p].pid)
  }

  lemma HistorySame(s: System, t: Table)
    requires HistoryOk(s) && SameTenants(s.procs, t)
    ensures HistoryOk(s.(procs := t))
  {
  }

  lemma TenantKept(s: System, init: nat, step: Step, p: nat)
    requires Enabled(s, init, step) && CpusOk(s, init) && InRange(s) && p < |s.procs|
    requires !step.Exit? && !(step.Wait? && step.v.Reap?) && !(step.Alloc? && step.q != NONE)
    ensures var x, y := s.procs[p], NextTable(s, init, step)[p];
            Used(y) || x.state == ZOMBIE ==> Used(x) && y.pid == x.pid && (y.state == ZOMBIE <==> x.state == ZOMBIE)
  {
    hide RunOk, HasZombie, HasChild, LockOk, PlaceOk;
  }

  lemma TenantsKept(s: System, init: nat, step: Step)
    requires Enabled(s, init, step) && CpusOk(s, init) && InRange(s)
    requires !step.Exit? && !(step.Wait? && step.v.Reap?) && !(step.Alloc? && step.q != NONE)
    ensures SameTenants(s.procs, NextTable(s, init, step))
  {
    hide NextTable, Enabled, CpusOk;
    forall p: nat | p < |s.procs|
      ensures var x, y := s.procs[p], NextTable(s, init, step)[p];
              Used(y) || x.state == ZOMBIE ==> Used(x) && y.pid == x.pid && (y.state == ZOMBIE <==> x.state == ZOMBIE)
    {
      TenantKept(s, init, step, p);
    }
  }

  lemma HistoryAlloc(s: System, q: nat)
    requires HistoryOk(s) && q < |s.procs| && s.procs[q].state == UNUSED
    ensures HistoryOk(s.(procs := s.procs[q := s.procs[q].(state := EMBRYO, pid := s.nextpid)],
                         nextpid := s.nextpid + 1, slots := s.slots[s.nextpid := q]))
  {
  }

  lemma ExitTenants(t: Table, init: nat, p: nat)
    requires p < |t| && t[p].state == RUNNING
    ensures forall i {:trigger Exited(t, p, init, |t|)[i]} :: 0 <= i < |t| ==>
              var x := Exited(t, p, init, |t|)[i];
              x.pid == t[i].pid && Used(x) == Used(t[i]) && (x.state == ZOMBIE <==> t[i].state == ZOMBIE || i == p)
  {
    hide HasZombie;
  }

  lemma HistoryExit(s: System, init: nat, p: nat)
    requires HistoryOk(s) && p < |s.procs| && s.procs[p].state == RUNNING
    ensures HistoryOk(s.(procs := Exited(s.procs, p, init, |s.procs|), exited := s.exited + {s.procs[p].pid}))
  {
    hide Exited, ExitOne;
    ExitTenants(s.procs, init, p);
    var t := Exited(s.procs, p, init, |s.procs|);
    assert Used(s.procs[p]);
    assert forall i :: 0 <= i < |t| && i != p && Used(s.procs[i]) ==> s.procs[i].pid != s.procs[p].pid;
    assert t[p].pid == s.procs[p].pid;
  }

  lemma HistoryReap(s: System, q: nat)
    requires HistoryOk(s) && q < |s.procs| && s.procs[q].state == ZOMBIE
    ensures HistoryOk(s.(procs := s.procs[q := Reaped(s.procs[q])], reaped := s.reaped + [s.procs[q].pid]))
  {
    var x := s.procs[q].pid;
    assert x in s.exited && x !in s.reaped;
    assert forall p :: 0 <= p < |s.procs| && p != q && Used(s.procs[p]) ==> s.procs[p].pid != x;
  }

  lemma HistoryKept(s: System, init: nat, step: Step)
    requires Enabled(s, init, step) && CpusOk(s, init) && InRange(s) && HistoryOk(s)
    ensures HistoryOk(Apply(s, init, step))
  {
    hide RunOk, HasZombie, HasChild, LockOk, PidOk, ReapOk;
    var s' := Apply(s, init, step);
    var pc := s.pcs[step.c];
    if step.Exit? {
      HistoryExit(s, init, pc.p);
    } else if step.Wait? && step.v.Reap? {
      HistoryReap(s, step.v.slot);
    } else if step.Alloc? && step.q != NONE {
      HistoryAlloc(s, step.q);
    } else {
      TenantsKept(s, init, step);
      HistorySame(s, s'.procs);
    }
  }

  /** No slot in use or not changes its pid but in allocation, reaping and the end of a failed fork. */
  lemma PidsKept(s: System, init: nat, step: Step, q: nat)
    requires Enabled(s, init, step) && CpusOk(s, init) && InRange(s) && q < |s.procs|
    requires !(step.Wait? && step.v.Reap?) && !(step.Alloc? && step.q != NONE) && !step.Abandon?
    ensures var x := NextTable(s, init, step)[q]; x.pid == s.procs[q].pid && Used(x) == Used(s.procs[q])
  {
    hide RunOk, HasZombie, HasChild, LockOk;
  }

  lemma StaleKept(s: System, init: nat, step: Step)
    requires Enabled(s, init, step) && CpusOk(s, init) && InRange(s) && HistoryOk(s) && StaleOkNow(s)
    ensures StaleOkNow(Apply(s, init, step))
  {
    hide RunOk, LockOk, HasZombie, HasChild, Exited, Woken, OnOk, PlaceOk, ReapOk, NextPc, NextLock;
    if !(step.Wait? && step.v.Reap?) && !(step.Alloc? && step.q != NONE) && !step.Abandon? {
      forall q: nat | q < |s.procs|
        ensures var x := NextTable(s, init, step)[q]; x.pid == s.procs[q].pid && Used(x) == Used(s.procs[q])
      {
        PidsKept(s, init, step, q);
      }
    }
  }

  /** Every step of every CPU keeps the invariant. */
  lemma StepKeeps(s: System, init: nat, step: Step)
    requires Inv(s, init) && Enabled(s, init, step)
    ensures InRange(s) && Inv(Apply(s, init, step), init)
  {
    hide RunOk, OnOk, LockOk, ForkOk, PlaceOk, BusyOk, TreeOk, WaitOk, PidOk, ReapOk, StaleOk, Enabled, NextTable;
    hide NextPc, NextLock, NextForks;
    Placed(s, init);
    LockKept(s, init, step);
    RunsKept(s, init, step);
    PlacesKept(s, init, step);
    ForksKept(s, init, step);
    BusyKept(s, init, step);
    TreeKept(s, init, step);
    WaitKept(s, init, step);
    HistoryKept(s, init, step);
    StaleKept(s, init, step);
  }

  // ---- Runs ----

  /** userinit() has made init, and every CPU is about to enter its scheduler. */
  ghost predicate Boot(s: System, init: nat) {
    && init < |s.procs| && s.procs[init] == Proc(RUNNABLE, NONE, NONE, 1, false, 0, Forkret)
    && (forall p :: 0 <= p < |s.procs| && p != init ==> s.procs[p] == Proc(UNUSED, NONE, NONE, 0, false, 0, Forkret))
    && (forall c :: 0 <= c < |s.pcs| ==> s.pcs[c] == Idle)
    && |s.forks| == |s.procs| && (forall p :: 0 <= p < |s.forks| ==> s.forks[p] == NotForking)
    && s.lock == NONE && s.nextpid == 2 && s.slots == map[1 := init] && s.exited == {} && s.reaped == []
    && s.abandoned == {} && s.blamed == {}
  }

  lemma BootOk(s: System, init: nat)
    requires Boot(s, init)
    ensures Inv(s, init)
  {
    forall q | 0 <= q < |s.procs| ensures ParentOk(s.procs, q) && !Missed(s.procs, q) {
    }
  }

  /** States in which each follows from the one before by an enabled step of some CPU. */
  ghost predicate IsRun(states: seq<System>, steps: seq<Step>, init: nat) {
    && |states| == |steps| + 1 && Boot(states[0], init)
    && forall i {:trigger steps[i]} :: 0 <= i < |steps| ==> Follows(states[i], init, steps[i], states[i + 1])
  }

  ghost predicate Follows(s: System, init: nat, step: Step, s': System) {
    Enabled(s, init, step) && InRange(s) && s' == Apply(s, init, step)
  }

  lemma {:induction false} RunInv(states: seq<System>, steps: seq<Step>, init: nat, n: nat)
    requires IsRun(states, steps, init) && n < |states|
    ensures Inv(states[n], init)
    decreases n
  {
    hide Inv, Apply, Enabled, Boot, InRange;
    if n == 0 {
      BootOk(states[0], init);
    } else {
      RunInv(states, steps, init, n - 1);
      assert Follows(states[n - 1], init, steps[n - 1], states[n - 1 + 1]);
      StepKeeps(states[n - 1], init, steps[n - 1]);
    }
  }

  /** Scheduling is safe in every state of every run: a process is on one CPU at most, it is marked running exactly
      when a CPU is on it and has not given up its state, and a CPU that is switching away holds the lock and has
      left its process in a state sched() accepts. */
  lemma Safety(states: seq<System>, steps: seq<Step>, init: nat, n: nat)
    requires IsRun(states, steps, init) && n < |states|
    ensures var s := states[n];
            && (forall c, d :: 0 <= c < d < |s.pcs| && On(s.pcs[c]) != NONE ==> On(s.pcs[c]) != On(s.pcs[d]))
            && (forall c :: 0 <= c < |s.pcs| && s.pcs[c].Switching? ==>
                  s.lock == c && s.pcs[c].p < |s.procs| && s.procs[s.pcs[c].p].state != RUNNING)
            && (forall p :: 0 <= p < |s.procs| ==>
                  (s.procs[p].state == RUNNING <==>
                   exists c :: 0 <= c < |s.pcs| && On(s.pcs[c]) == p && !s.pcs[c].Switching?))
  {
    RunInv(states, steps, init, n);
  }

  /** No exit is slept through: in every state of every run a process asleep in wait() has a child, no zombie child,
      and has not been killed. */
  lemma NoLostExit(states: seq<System>, steps: seq<Step>, init: nat, n: nat, p: int)
    requires IsRun(states, steps, init) && n < |states| && Sleeper(states[n].procs, p)
    ensures HasChild(states[n].procs, p) && !HasZombie(states[n].procs, p) && !states[n].procs[p].killed
  {
    hide CpusOk, TreeOk, HistoryOk, StaleOk, IsRun;
    RunInv(states, steps, init, n);
    var t := states[n].procs;
    forall q ensures !IsZombieChild(t, p, q) {
      assert 0 <= q < |t| ==> !Missed(t, q);
    }
  }

  /** Every process that has exited in a run is either reaped, once, or a zombie whose parent has not exited. */
  lemma ReapedOnce(states: seq<System>, steps: seq<Step>, init: nat, n: nat, pid: nat)
    requires IsRun(states, steps, init) && n < |states| && pid in states[n].exited
    ensures var s := states[n];
            && (forall i, j :: 0 <= i < j < |s.reaped| ==> s.reaped[i] != s.reaped[j])
            && (pid in s.reaped <==>
                !exists q :: 0 <= q < |s.procs| && s.procs[q].state == ZOMBIE && s.procs[q].pid == pid)
            && (pid !in s.reaped ==>
                  exists q :: 0 <= q < |s.procs| && s.procs[q].state == ZOMBIE && s.procs[q].pid == pid
                              && 0 <= s.procs[q].parent < |s.procs| && Alive(s.procs[s.procs[q].parent]))
  {
    hide CpusOk, WaitOk, StaleOk, IsRun;
    RunInv(states, steps, init, n);
    var s := states[n];
    if pid !in s.reaped {
      var q := s.slots[pid];
      assert s.procs[q].state == ZOMBIE && s.procs[q].pid == pid;
      assert ParentOk(s.procs, q);
    }
    assert forall q :: 0 <= q < |s.procs| && Used(s.procs[q]) ==> s.procs[q].pid !in s.reaped;
  }

  // ---- Sleeping and waking ----

  /** The steps that end the sleep of process p: a wakeup of the channel it sleeps on, a kill that finds it, and an
      exit that is news to it. */
  ghost predicate Wakes(s: System, init: nat, step: Step, p: nat)
    requires p < |s.procs|
  {
    && step.c < |s.pcs|
    && var pc := s.pcs[step.c];
       || (step.Wakeup? && (pc.Holding? || pc.Serving?) && pc.op.ToWake? && pc.op.chan == s.procs[p].chan)
       || (step.Kill? && step.q == p)
       || (step.Exit? && pc.Holding? && pc.p < |s.procs| && ExitWakes(s.procs, pc.p, init, p))
  }

  /** A wakeup wakes everyone who sleeps on its channel, and changes nothing else. */
  lemma WakeupWakes(s: System, init: nat, step: Step)
    requires Enabled(s, init, step) && InRange(s) && step.Wakeup?
    ensures var t, t', chan := s.procs, NextTable(s, init, step), s.pcs[step.c].op.chan;
            forall i :: 0 <= i < |t| ==>
              && !(t'[i].state == SLEEPING && t'[i].chan == chan)
              && t'[i] == if t[i].state == SLEEPING && t[i].chan == chan then t[i].(state := RUNNABLE) else t[i]
  {
  }

  lemma KillMarks(s: System, init: nat, step: Step)
    requires Enabled(s, init, step) && InRange(s) && step.Kill?
    ensures KillWrites(s.procs, NextTable(s, init, step), step.q)
  {
  }

  lemma ExitEnds(s: System, init: nat, step: Step)
    requires Enabled(s, init, step) && InRange(s) && step.Exit? && s.procs[s.pcs[step.c].p].state == RUNNING
    ensures ExitWrites(s.procs, NextTable(s, init, step), s.pcs[step.c].p, init)
  {
    hide HasZombie;
  }

  /** sleep() leaves its caller asleep on the channel it asked for, and nobody else changed. */
  lemma SleepSleeps(s: System, init: nat, step: Step)
    requires Enabled(s, init, step) && InRange(s) && step.SleepOn?
    ensures var t, t', pc := s.procs, NextTable(s, init, step), s.pcs[step.c];
            t' == t[pc.p := t[pc.p].(state := SLEEPING, chan := pc.op.chan, resume := AfterSleep)]
  {
  }

  /** wait() gives the zombie's slot back empty, and going to sleep it sleeps on its own address. */
  lemma WaitWrites(s: System, init: nat, step: Step)
    requires Enabled(s, init, step) && InRange(s) && step.Wait?
    ensures var t, t', p, v := s.procs, NextTable(s, init, step), s.pcs[step.c].p, step.v;
            t' == match v
                  case Reap(q, _) => t[q := t[q].(state := UNUSED, pid := 0, parent := NONE, killed := false)]
                  case Fail => t
                  case Sleep => t[p := t[p].(state := SLEEPING, chan := p, resume := InWait)]
  {
  }

  /** A step ends the sleep of a process exactly if it is one of those, and no step changes anything else of it. */
  lemma SleeperStep(s: System, init: nat, step: Step, p: nat)
    requires Enabled(s, init, step) && CpusOk(s, init) && InRange(s)
    requires p < |s.procs| && s.procs[p].state == SLEEPING
    ensures var x, y := s.procs[p], NextTable(s, init, step)[p];
            && y.state == (if Wakes(s, init, step, p) then RUNNABLE else SLEEPING)
            && (y.chan, y.pid, y.resume) == (x.chan, x.pid, x.resume)
  {
    hide HasZombie, HasChild, RunOk, LockOk, PlaceOk, Exited, Woken;
    if step.Exit? {
      SleeperExit(s, init, step, p);
    } else if !step.Wakeup? && !step.Kill? {
      hide NextTable;
      OneSlot(s, init, step);
      NotSleeper(s, init, step, p);
    }
  }

  lemma SleeperExit(s: System, init: nat, step: Step, p: nat)
    requires Enabled(s, init, step) && CpusOk(s, init) && InRange(s) && step.Exit?
    requires p < |s.procs| && s.procs[p].state == SLEEPING
    ensures var x, y := s.procs[p], NextTable(s, init, step)[p];
            && y.state == (if Wakes(s, init, step, p) then RUNNABLE else SLEEPING)
            && (y.chan, y.pid, y.resume) == (x.chan, x.pid, x.resume)
  {
    hide HasZombie, HasChild, RunOk, LockOk, PlaceOk, Exited, Woken, NextTable;
    ExitEnds(s, init, step);
  }

  lemma NotSleeper(s: System, init: nat, step: Step, p: nat)
    requires Enabled(s, init, step) && CpusOk(s, init) && InRange(s) && !step.Kill?
    requires p < |s.procs| && s.procs[p].state == SLEEPING
    ensures Changed(s, step) != p
  {
    hide RunOk, HasZombie, HasChild, LockOk, NextTable;
  }

  /** In every run a process that sleeps in state n sleeps on, on the same channel, up to state m if and only if none
      of the steps between wakes its channel, kills it or is an exit it waits for. */
  lemma {:induction false} SleepsUntil(states: seq<System>, steps: seq<Step>, init: nat, n: nat, m: nat, p: nat)
    requires IsRun(states, steps, init) && n <= m < |states|
    requires p < |states[n].procs| && states[n].procs[p].state == SLEEPING
    ensures forall k :: n <= k <= m ==> |states[k].procs| == |states[n].procs|
    ensures (forall k :: n <= k <= m ==> AsleepOn(states[k], p, states[n].procs[p].chan)) <==>
              forall k :: n <= k < m ==> !Wakes(states[k], init, steps[k], p)
    decreases m
  {
    hide Wakes, IsRun;
    if n < m {
      SleepsUntil(states, steps, init, n, m - 1, p);
      RunStep(states, steps, init, m - 1, p);
    }
  }

  /** One step of a run, for a process that sleeps before it. */
  lemma RunStep(states: seq<System>, steps: seq<Step>, init: nat, l: nat, p: nat)
    requires IsRun(states, steps, init) && l + 1 < |states| && p < |states[l].procs|
    ensures |states[l + 1].procs| == |states[l].procs| && l < |steps|
    ensures forall chan :: AsleepOn(states[l], p, chan) ==>
              (AsleepOn(states[l + 1], p, chan) <==> !Wakes(states[l], init, steps[l], p))
  {
    hide Inv, Enabled, NextTable, NextPc, NextLock, NextForks, InRange, Wakes, Boot;
    RunInv(states, steps, init, l);
    assert Follows(states[l], init, steps[l], states[l + 1]);
    assert CpusOk(states[l], init) by { InvCpus(states[l], init); }
    if states[l].procs[p].state == SLEEPING {
      SleeperStep(states[l], init, steps[l], p);
    }
  }

  ghost predicate AsleepOn(s: System, p: nat, chan: int) {
    p < |s.procs| && s.procs[p].state == SLEEPING && s.procs[p].chan == chan
  }

  lemma InvCpus(s: System, init: nat)
    requires Inv(s, init)
    ensures CpusOk(s, init)
  {
  }

  // ---- Whom kill() marks ----

  /** In every state of every run kill() marks a process exactly if its argument is the pid of one: not 0, and not a pid
      that went to a fork that failed. Those two are found in slots that are not in use. */
  lemma KillFinds(states: seq<System>, steps: seq<Step>, init: nat, n: nat, pid: nat, q: int)
    requires IsRun(states, steps, init) && n < |states| && IsFirst(states[n].procs, pid, q) && q != NONE
    ensures Used(states[n].procs[q]) <==> pid != 0 && pid !in states[n].abandoned
  {
    hide CpusOk, TreeOk, WaitOk, ReapOk, IsRun;
    RunInv(states, steps, init, n);
  }

  /** No process is marked but whom kill() named or a fault struck. */
  ghost predicate BlameOk(s: System) {
    forall q :: 0 <= q < |s.procs| && Used(s.procs[q]) && s.procs[q].killed ==> s.procs[q].pid in s.blamed
  }

  /** Whoever was named or struck had been given a pid by then, or it was 0. */
  ghost predicate BlamedOld(s: System) {
    forall x :: x in s.blamed ==> x < s.nextpid
  }

  /** allocproc() gives out a slot that still has a mark on it: neither it nor fork() clears the mark. */
  ghost predicate GivesMarked(s: System, step: Step) {
    step.Alloc? && 0 <= step.q < |s.procs| && s.procs[step.q].killed
  }

  /** A step marks only the slot kill() finds or a fault strikes. */
  lemma NewMarks(s: System, init: nat, step: Step, q: nat)
    requires Enabled(s, init, step) && CpusOk(s, init) && InRange(s) && q < |s.procs|
    ensures NextTable(s, init, step)[q].killed ==>
              s.procs[q].killed || (step.Kill? && step.q == q) || (step.Fault? && s.pcs[step.c].p == q)
  {
    hide RunOk, HasZombie, HasChild, LockOk, ForkOk, PlaceOk;
  }

  lemma OldPids(s: System, q: nat)
    requires PidOk(s.procs, s.nextpid, s.slots) && StaleOkNow(s) && q < |s.procs|
    ensures s.procs[q].pid < s.nextpid
  {
  }

  lemma BlamedKept(s: System, init: nat, step: Step)
    requires Inv(s, init) && BlamedOld(s) && Enabled(s, init, step) && InRange(s)
    ensures BlamedOld(Apply(s, init, step))
  {
    hide CpusOk, TreeOk, WaitOk, ReapOk, PidOk, StaleOkNow, NextTable, NextPc, NextLock, HasZombie, HasChild;
    if step.Kill? && step.q != NONE {
      OldPids(s, step.q);
    } else if step.Fault? {
      OldPids(s, s.pcs[step.c].p);
    }
  }

  /** A process that is marked after any other step is marked for cause. */
  lemma BlameSlot(s: System, init: nat, step: Step, q: nat)
    requires Inv(s, init) && BlameOk(s) && Enabled(s, init, step) && InRange(s) && !GivesMarked(s, step)
    requires q < |s.procs|
    requires Used(NextTable(s, init, step)[q]) && NextTable(s, init, step)[q].killed
    ensures NextTable(s, init, step)[q].pid in Apply(s, init, step).blamed
  {
    hide RunOk, LockOk, TreeOk, WaitOk, HasZombie, HasChild, Exited, Woken, ReapOk, StaleOk, NextPc, NextLock, PlaceOk;
    hide PidOk;
    NewMarks(s, init, step, q);
    if !(step.Wait? && step.v.Reap?) && !(step.Alloc? && step.q != NONE) && !step.Abandon? {
      hide NextTable;
      PidsKept(s, init, step, q);
    }
  }

  /** The process in the slot is marked, and its pid is new. */
  lemma MarkedFromBirth(s: System, init: nat, step: Step)
    requires Enabled(s, init, step) && InRange(s) && BlamedOld(s) && GivesMarked(s, step)
    ensures var s' := Apply(s, init, step);
            Used(s'.procs[step.q]) && s'.procs[step.q].killed && s'.procs[step.q].pid !in s'.blamed
  {
    hide NextPc, NextLock;
  }

  /** That step, and no other, breaks it. */
  lemma BlameKept(s: System, init: nat, step: Step)
    requires Inv(s, init) && BlamedOld(s) && BlameOk(s) && Enabled(s, init, step)
    ensures InRange(s) && BlamedOld(Apply(s, init, step)) && (BlameOk(Apply(s, init, step)) <==> !GivesMarked(s, step))
  {
    hide CpusOk, TreeOk, WaitOk, HistoryOk, StaleOkNow, Enabled, NextTable, NextPc, NextLock, BlamedOld;
    Placed(s, init);
    BlamedKept(s, init, step);
    if GivesMarked(s, step) {
      MarkedFromBirth(s, init, step);
    } else {
      forall q: nat | q < |s.procs| && Used(NextTable(s, init, step)[q]) && NextTable(s, init, step)[q].killed
        ensures NextTable(s, init, step)[q].pid in Apply(s, init, step).blamed
      {
        BlameSlot(s, init, step, q);
      }
    }
  }

  /** In every run, every process that is ever marked has been named by kill() or struck by a fault if and only if no
      marked slot is given out. */
  lemma {:induction false} MarkedForCause(states: seq<System>, steps: seq<Step>, init: nat, n: nat)
    requires IsRun(states, steps, init) && n < |states|
    ensures BlamedOld(states[n])
    ensures (forall k :: 0 <= k <= n ==> BlameOk(states[k])) <==> forall k :: 0 <= k < n ==>
              !GivesMarked(states[k], steps[k])
    decreases n
  {
    hide Inv, Apply, Enabled, InRange, GivesMarked, BlameOk, BlamedOld;
    if n == 0 {
      BootBlame(states[0], init);
    } else {
      var m := n - 1;
      MarkedForCause(states, steps, init, m);
      RunInv(states, steps, init, m);
      assert Follows(states[m], init, steps[m], states[m + 1]);
      BlamedKept(states[m], init, steps[m]);
      if BlameOk(states[m]) {
        BlameKept(states[m], init, steps[m]);
      }
    }
  }

  lemma BootBlame(s: System, init: nat)
    requires Boot(s, init)
    ensures BlameOk(s) && BlamedOld(s)
  {
  }

  // A run in which a process is born killed: init forks and fails, kills the pid that fork had, and forks again.

  ghost function Early(k: nat): Step {
    if k == 0 then Acquire(0)
    else if k == 1 then Pick(0)
    else if k == 2 then Resume(0)
    else if k == 3 || k == 8 then Enter(0, ToAlloc)
    else if k == 4 || k == 9 then Alloc(0, 1)
    else if k == 5 then Abandon(0)
    else if k == 6 then Enter(0, ToKill(2))
    else if k == 7 then Kill(0, 1)
    else if k == 10 then Link(0)
    else Ready(0)
  }

  ghost function InitAt(k: nat): Proc {
    Proc(if k < 2 then RUNNABLE else RUNNING, NONE, NONE, 1, false, 0, Forkret)
  }

  ghost function ChildAt(k: nat): Proc {
    if k < 5 then Proc(UNUSED, NONE, NONE, 0, false, 0, Forkret)
    else if k == 5 then Proc(EMBRYO, NONE, NONE, 2, false, 0, Forkret)
    else if k < 8 then Proc(UNUSED, NONE, NONE, 2, false, 0, Forkret)
    else if k < 10 then Proc(UNUSED, NONE, NONE, 2, true, 0, Forkret)
    else if k == 10 then Proc(EMBRYO, NONE, NONE, 3, true, 0, Forkret)
    else Proc(if k == 11 then EMBRYO else RUNNABLE, NONE, 0, 3, true, 0, Forkret)
  }

  ghost function PcAt(k: nat): Pc {
    if k == 0 then Idle
    else if k == 1 then Scan(0)
    else if k == 2 then Holding(0, ToResume)
    else if k == 4 || k == 9 then Holding(0, ToAlloc)
    else if k == 7 then Holding(0, ToKill(2))
    else Kernel(0)
  }

  ghost function ForkAt(k: nat): Fork {
    if k == 5 || k == 10 then Filling(1, false) else if k == 11 then Filling(1, true) else NotForking
  }

  ghost function StateAt(k: nat): System {
    System([InitAt(k), ChildAt(k)], [ForkAt(k), NotForking], [PcAt(k)],
           if k == 1 || k == 2 || k == 4 || k == 7 || k == 9 then 0 else NONE,
           if k < 5 then 2 else if k < 10 then 3 else 4,
           if k < 5 then map[1 := 0] else if k < 10 then map[1 := 0, 2 := 1] else map[1 := 0, 2 := 1, 3 := 1],
           {}, [], if k < 6 then {} else {2}, if k < 8 then {} else {2})
  }

  lemma FirstFour(k: nat)
    requires k < 4
    ensures Follows(StateAt(k), 0, Early(k), StateAt(k + 1))
  {
    hide Exited, Woken, HasZombie, HasChild;
    var s := Apply(StateAt(k), 0, Early(k));
    assert s.procs == StateAt(k + 1).procs;
    assert s.forks == StateAt(k + 1).forks;
    assert s.pcs == StateAt(k + 1).pcs;
    assert s.slots == StateAt(k + 1).slots;
    assert s.abandoned == StateAt(k + 1).abandoned;
    assert s.blamed == StateAt(k + 1).blamed;
  }

  lemma NextFour(k: nat)
    requires 4 <= k < 8
    ensures Follows(StateAt(k), 0, Early(k), StateAt(k + 1))
  {
    hide Exited, Woken, HasZombie, HasChild;
    var s := Apply(StateAt(k), 0, Early(k));
    assert s.procs == StateAt(k + 1).procs;
    assert s.forks == StateAt(k + 1).forks;
    assert s.pcs == StateAt(k + 1).pcs;
    assert s.slots == StateAt(k + 1).slots;
    assert s.abandoned == StateAt(k + 1).abandoned;
    assert s.blamed == StateAt(k + 1).blamed;
  }

  lemma LastFour(k: nat)
    requires 8 <= k < 12
    ensures Follows(StateAt(k), 0, Early(k), StateAt(k + 1))
  {
    hide Exited, Woken, HasZombie, HasChild;
    var s := Apply(StateAt(k), 0, Early(k));
    assert s.procs == StateAt(k + 1).procs;
    assert s.forks == StateAt(k + 1).forks;
    assert s.pcs == StateAt(k + 1).pcs;
    assert s.slots == StateAt(k + 1).slots;
    assert s.abandoned == StateAt(k + 1).abandoned;
    assert s.blamed == StateAt(k + 1).blamed;
  }

  lemma EarlyFollows(k: nat)
    requires k < 12
    ensures Follows(StateAt(k), 0, Early(k), StateAt(k + 1))
  {
    hide Follows;
    if k < 4 {
      FirstFour(k);
    } else if k < 8 {
      NextFour(k);
    } else {
      LastFour(k);
    }
  }

  ghost function StatesTo(n: nat): (r: seq<System>)
    ensures |r| == n + 1 && forall k :: 0 <= k <= n ==> r[k] == StateAt(k)
  {
    if n == 0 then [StateAt(0)] else StatesTo(n - 1) + [StateAt(n)]
  }

  ghost function StepsTo(n: nat): (r: seq<Step>)
    ensures |r| == n && forall k :: 0 <= k < n ==> r[k] == Early(k)
  {
    if n == 0 then [] else StepsTo(n - 1) + [Early(n - 1)]
  }

  /** The new process is runnable and marked, and its pid was never given to kill(). */
  lemma BornKilled() returns (states: seq<System>, steps: seq<Step>)
    ensures IsRun(states, steps, 0)
    ensures var s := states[|steps|];
            |s.procs| == 2 && s.procs[1].state == RUNNABLE && s.procs[1].killed && s.procs[1].pid == 3 && 3 !in s.blamed
  {
    hide Follows, StatesTo, StepsTo;
    states, steps := StatesTo(12), StepsTo(12);
    forall k | 0 <= k < 12 ensures Follows(states[k], 0, steps[k], states[k + 1]) {
      EarlyFollows(k);
    }
    assert states[12] == StateAt(12);
  }
}
