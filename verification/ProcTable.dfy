/** The process table and the passes over it that run with its lock held. */
module ProcTable {
  datatype State = UNUSED | EMBRYO | SLEEPING | RUNNABLE | RUNNING | ZOMBIE

  /** Where a process goes on when the scheduler switches to it. */
  datatype Resume = Forkret | AfterYield | AfterSleep | InWait

  /** `parent` is a slot and `chan` an address; a slot's own address is its number, and NONE is the null pointer. */
  datatype Proc = Proc(state: State, chan: int, parent: int, pid: nat, killed: bool, cpuid: nat, resume: Resume)

  type Table = seq<Proc>

  const NONE := -1

  function WakenOne(p: Proc, chan: int): Proc {
    if p.state == SLEEPING && p.chan == chan then p.(state := RUNNABLE) else p
  }

  /** wakeup1(): every process asleep on `chan`, and no other, becomes runnable. */
  function Woken(t: Table, chan: int): (r: Table)
    ensures |r| == |t| && forall i :: 0 <= i < |t| ==> r[i] == WakenOne(t[i], chan)
  {
    if t == [] then [] else Woken(t[..|t| - 1], chan) + [WakenOne(t[|t| - 1], chan)]
  }

  ghost predicate IsChild(t: Table, p: int, q: int) {
    0 <= q < |t| && t[q].parent == p
  }

  ghost predicate IsZombieChild(t: Table, p: int, q: int) {
    IsChild(t, p, q) && t[q].state == ZOMBIE
  }

  ghost predicate HasZombie(t: Table, p: int) {
    exists q :: IsZombieChild(t, p, q)
  }

  ghost predicate HasChild(t: Table, p: int) {
    exists q :: IsChild(t, p, q)
  }

  /** One slot after the process in slot `p` has exited: its parent is awake, its children are init's, and init is
      awake if one of them is already a zombie. */
  ghost function ExitOne(t: Table, p: nat, init: nat, i: nat): Proc
    requires p < |t| && i < |t|
  {
    var woken := WakenOne(t[i], t[p].parent);
    var adopted := if t[i].parent == p then woken.(parent := init) else woken;
    var last := if HasZombie(t, p) then WakenOne(adopted, init) else adopted;
    if i == p then last.(state := ZOMBIE) else last
  }

  /** A slot given back by wait(). */
  function Reaped(p: Proc): Proc {
    p.(state := UNUSED, pid := 0, parent := NONE, killed := false)
  }

  function Killed(p: Proc): Proc {
    p.(killed := true, state := if p.state == SLEEPING then RUNNABLE else p.state)
  }

  /** The slot kill() finds: the first with the pid, used or not, or none. */
  predicate IsFirst(t: Table, pid: nat, q: int) {
    if q == NONE then forall i :: 0 <= i < |t| ==> t[i].pid != pid
    else 0 <= q < |t| && t[q].pid == pid && forall i :: 0 <= i < q ==> t[i].pid != pid
  }

  /** What kill() writes: the slot found is marked, and runs again if it slept, on whatever; nothing else changes. */
  ghost predicate KillWrites(t: Table, t': Table, q: int) {
    && |t'| == |t| && (forall i :: 0 <= i < |t| && i != q ==> t'[i] == t[i])
    && (0 <= q < |t| ==>
          && t'[q].killed && t'[q].state != SLEEPING
          && t'[q].state == (if t[q].state == SLEEPING then RUNNABLE else t[q].state)
          && (t'[q].chan, t'[q].parent, t'[q].pid, t'[q].cpuid, t'[q].resume)
             == (t[q].chan, t[q].parent, t[q].pid, t[q].cpuid, t[q].resume))
  }

  /** The exit of p is news to a process asleep on the address of p's parent, and to one asleep on init's if p leaves
      a zombie to it. */
  ghost predicate ExitWakes(t: Table, p: nat, init: nat, i: nat)
    requires p < |t| && i < |t|
  {
    t[i].state == SLEEPING && (t[i].chan == t[p].parent || (t[i].chan == init && HasZombie(t, p)))
  }

  /** What exit() writes: p is a zombie, its children are init's, whom it is news to runs again, and nothing else
      changes. */
  ghost predicate ExitWrites(t: Table, t': Table, p: nat, init: nat)
    requires p < |t|
  {
    && |t'| == |t|
    && forall i {:trigger t'[i]} :: 0 <= i < |t| ==>
         && t'[i].state == (if i == p then ZOMBIE else if ExitWakes(t, p, init, i) then RUNNABLE else t[i].state)
         && t'[i].parent == (if t[i].parent == p then init else t[i].parent)
         && (t'[i].chan, t'[i].pid, t'[i].killed, t'[i].cpuid, t'[i].resume)
            == (t[i].chan, t[i].pid, t[i].killed, t[i].cpuid, t[i].resume)
  }

  /** Asleep inside wait(), on the address of the process itself. */
  function Waiting(p: Proc, slot: nat): Proc {
    p.(chan := slot, state := SLEEPING, resume := InWait)
  }

  /** What one pass of wait() over the table decides. */
  datatype Verdict = Reap(slot: nat, pid: nat) | Fail | Sleep

  class ProcTable {
    var procs: Table

    constructor (n: nat)
      ensures |procs| == n
      ensures forall i :: 0 <= i < n ==> procs[i] == Proc(UNUSED, NONE, NONE, 0, false, 0, Forkret)
    {
      procs := seq(n, _ => Proc(UNUSED, NONE, NONE, 0, false, 0, Forkret));
    }

    method Wakeup1(chan: int)
      modifies this
      ensures procs == Woken(old(procs), chan)
      ensures forall i :: 0 <= i < |procs| ==>
                procs[i] == if old(procs)[i].state == SLEEPING && old(procs)[i].chan == chan
                            then old(procs)[i].(state := RUNNABLE) else old(procs)[i]
    {
      var i := 0;
      while i < |procs|
        invariant 0 <= i <= |procs| == |old(procs)|
        invariant forall j :: 0 <= j < i ==> procs[j] == WakenOne(old(procs)[j], chan)
        invariant forall j :: i <= j < |procs| ==> procs[j] == old(procs)[j]
      {
        if procs[i].state == SLEEPING && procs[i].chan == chan {
          procs := procs[i := procs[i].(state := RUNNABLE)];
        }
        i := i + 1;
      }
    }

    /** The locked part of exit(), up to the call of sched(). */
    method Exit(p: nat, init: nat)
      requires p < |procs| && init < |procs| && p != init && procs[p].state == RUNNING
      modifies this
      ensures |procs| == |old(procs)|
      ensures forall i :: 0 <= i < |procs| ==> procs[i] == ExitOne(old(procs), p, init, i)
      ensures ExitWrites(old(procs), procs, p, init)
    {
      Wakeup1(procs[p].parent);
      ghost var woken := procs;
      var i := 0;
      while i < |procs|
        invariant 0 <= i <= |procs| == |woken|
        invariant forall j :: 0 <= j < |procs| ==> procs[j] == Adopted(woken, p, init, i, j)
      {
        AdoptOne(woken, i, p, init);
        i := i + 1;
      }
      ZombieBelow(old(procs), woken, p);
      procs := procs[p := procs[p].(state := ZOMBIE)];
      ExitOneWrites(old(procs), procs, p, init);
    }

    /** One round of the loop that passes a process's children to init. */
    method AdoptOne(ghost woken: Table, i: nat, p: nat, init: nat)
      requires i < |procs| == |woken|
      requires forall j :: 0 <= j < |procs| ==> procs[j] == Adopted(woken, p, init, i, j)
      modifies this
      ensures |procs| == |woken|
      ensures forall j :: 0 <= j < |procs| ==> procs[j] == Adopted(woken, p, init, i + 1, j)
    {
      ZombieNext(woken, p, i);
      if procs[i].parent == p {
        procs := procs[i := procs[i].(parent := init)];
        if procs[i].state == ZOMBIE {
          Wakeup1(init);
        }
      }
    }

    /** One pass of wait(): a zombie child is given back if there is one, and the parent goes to sleep only when it
        has children, none of them is a zombie and it has not been killed. */
    method Wait(p: nat) returns (v: Verdict)
      requires p < |procs| && procs[p].state != ZOMBIE
      modifies this
      ensures v.Reap? <==> HasZombie(old(procs), p)
      ensures v.Reap? ==> IsZombieChild(old(procs), p, v.slot) && v.pid == old(procs)[v.slot].pid
      ensures v.Reap? ==> forall q :: q < v.slot ==> !IsZombieChild(old(procs), p, q)
      ensures v.Reap? ==>
                procs == old(procs)[v.slot := old(procs)[v.slot].(state := UNUSED, pid := 0, parent := NONE,
                                                                  killed := false)]
      ensures v.Fail? <==> !HasZombie(old(procs), p) && (old(procs)[p].killed || !HasChild(old(procs), p))
      ensures v.Fail? ==> procs == old(procs)
      ensures v.Sleep? ==> procs == old(procs)[p := old(procs)[p].(state := SLEEPING, chan := p, resume := InWait)]
    {
      var haveKids, q := false, 0;
      while q < |procs|
        invariant 0 <= q <= |procs| && procs == old(procs)
        invariant !ZombieUpTo(procs, p, q)
        invariant haveKids <==> exists i :: i < q && IsChild(procs, p, i)
      {
        if procs[q].parent == p {
          haveKids := true;
          assert IsChild(procs, p, q);
          if procs[q].state == ZOMBIE {
            assert IsZombieChild(procs, p, q);
            v := Reap(q, procs[q].pid);
            procs := procs[q := Reaped(procs[q])];
            return;
          }
        }
        q := q + 1;
      }
      assert haveKids <==> HasChild(procs, p);
      if !haveKids || procs[p].killed {
        return Fail;
      }
      procs := procs[p := Waiting(procs[p], p)];
      return Sleep;
    }

    /** kill(): the first slot with the pid, whatever its state, is marked, and woken if it sleeps. */
    method Kill(pid: nat) returns (q: int)
      modifies this
      ensures IsFirst(old(procs), pid, q)
      ensures KillWrites(old(procs), procs, q)
    {
      q := 0;
      while q < |procs|
        invariant 0 <= q <= |procs| && procs == old(procs)
        invariant forall i :: 0 <= i < q ==> procs[i].pid != pid
      {
        if procs[q].pid == pid {
          procs := procs[q := Killed(procs[q])];
          return;
        }
        q := q + 1;
      }
      q := NONE;
    }

    /** The locked part of allocproc(): a free slot, if there is one, under a new pid. */
    method Alloc(pid: nat) returns (slot: int)
      modifies this
      ensures slot == NONE <==> forall i :: 0 <= i < |old(procs)| ==> old(procs)[i].state != UNUSED
      ensures slot == NONE ==> procs == old(procs)
      ensures slot != NONE ==> 0 <= slot < |old(procs)| && old(procs)[slot].state == UNUSED
                               && procs == old(procs)[slot := old(procs)[slot].(state := EMBRYO, pid := pid)]
                               && forall i :: 0 <= i < slot ==> old(procs)[i].state != UNUSED
    {
      slot := 0;
      while slot < |procs|
        invariant 0 <= slot <= |procs| && procs == old(procs)
        invariant forall i :: 0 <= i < slot ==> procs[i].state != UNUSED
      {
        if procs[slot].state == UNUSED {
          procs := procs[slot := procs[slot].(state := EMBRYO, pid := pid)];
          return;
        }
        slot := slot + 1;
      }
      slot := NONE;
    }
  }

  lemma ExitOneWrites(t: Table, t': Table, p: nat, init: nat)
    requires p < |t| == |t'| && t[p].state == RUNNING && forall i :: 0 <= i < |t| ==> t'[i] == ExitOne(t, p, init, i)
    ensures ExitWrites(t, t', p, init)
  {
    hide HasZombie;
  }

  ghost predicate ZombieUpTo(t: Table, p: int, n: int) {
    exists q :: q < n && IsZombieChild(t, p, q)
  }

  lemma ZombieNext(t: Table, p: int, n: nat)
    ensures ZombieUpTo(t, p, n + 1) <==> ZombieUpTo(t, p, n) || IsZombieChild(t, p, n)
  {
  }

  /** Waking the sleepers neither makes nor hides a zombie. */
  lemma ZombieBelow(t: Table, woken: Table, p: nat)
    requires p < |t| && woken == Woken(t, t[p].parent)
    ensures HasZombie(t, p) <==> ZombieUpTo(woken, p, |woken|)
  {
    hide Woken;
    forall q ensures IsZombieChild(t, p, q) <==> IsZombieChild(woken, p, q) {
      if 0 <= q < |t| {
        assert woken[q] == WakenOne(t[q], t[p].parent);
      }
    }
  }

  /** A slot when the first `n` slots have been passed to init. */
  ghost function Adopted(woken: Table, p: nat, init: nat, n: int, j: nat): Proc
    requires j < |woken|
  {
    var a := if j < n && woken[j].parent == p then woken[j].(parent := init) else woken[j];
    if ZombieUpTo(woken, p, n) then WakenOne(a, init) else a
  }
}
