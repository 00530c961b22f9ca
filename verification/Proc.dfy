/**
  proc.c: the scans over the process table, against the steps of ProcSpec.
 */
module Proc {
  import opened ProcSpec

  function MaybeWoken(ps: seq<Proc>, chan: Chan, yes: bool): seq<Proc>
  {
    if yes then Woken(ps, chan) else ps
  }

  lemma AdoptedNone(ps: seq<Proc>, i: int, init: int)
    ensures Adopted(ps, i, init, 0) == ps
  {
  }

  // One round of exit's scan, on slot k.
  lemma AdoptOne(ps: seq<Proc>, i: int, init: int, k: nat, seen: bool)
    requires k < |ps|
    ensures var now := MaybeWoken(Adopted(ps, i, init, k), OnProc(init), seen);
            && |now| == |ps| && now[k].parent == ps[k].parent && (now[k].state == ZOMBIE <==> ps[k].state == ZOMBIE)
            && (ps[k].parent != i ==> now == MaybeWoken(Adopted(ps, i, init, k + 1), OnProc(init), seen))
            && (ps[k].parent == i ==>
                  var moved := now[k := now[k].(parent := init)];
                  && moved == MaybeWoken(Adopted(ps, i, init, k + 1), OnProc(init), seen)
                  && Woken(moved, OnProc(init)) == MaybeWoken(Adopted(ps, i, init, k + 1), OnProc(init), true))
  {
    if ps[k].parent != i {
      assert Adopted(ps, i, init, k) == Adopted(ps, i, init, k + 1);
    }
  }

  class Ptable {
    var proc: seq<Proc>
    var cpus: seq<int>
    var nextpid: int
    const initproc: int
    ghost var exited: set<int>
    ghost var reaped: seq<int>

    ghost function Abs(): Table
      reads this
    {
      Table(proc, cpus, nextpid, initproc, exited, reaped)
    }

    // userinit's table: init in the first slot.
    constructor (nproc: nat, ncpu: nat)
      requires nproc > 0
      ensures Abs() == Boot(nproc, ncpu) && Inv(Abs())
    {
      proc := [Proc(RUNNABLE, 1, NONE, NoChan, false)] + seq(nproc - 1, _ => Proc(UNUSED, 0, NONE, NoChan, false));
      cpus := seq(ncpu, _ => NONE);
      nextpid, initproc, exited, reaped := 2, 0, {}, [];
      new;
      BootInv(nproc, ncpu);
    }

    // The first UNUSED slot becomes an EMBRYO with a new pid; NONE if there is no such slot.
    method Allocproc() returns (slot: int)
      requires Inv(Abs())
      modifies this`proc, this`nextpid
      ensures Abs() == Step(old(Abs()), Alloc) && Inv(Abs())
      ensures slot == FirstUnused(old(proc), 0)
      ensures if slot == NONE
              then Abs() == old(Abs()) && forall k :: 0 <= k < |proc| ==> proc[k].state != UNUSED
              else && 0 <= slot < |old(proc)| && old(proc)[slot].state == UNUSED
                   && (forall k :: 0 <= k < slot ==> old(proc)[k].state != UNUSED)
                   && proc == old(proc)[slot := old(proc)[slot].(state := EMBRYO, pid := old(nextpid))]
                   && nextpid == old(nextpid) + 1
    {
      StepKeeps(Abs(), Alloc);
      var p := 0;
      while p < |proc|
        invariant 0 <= p <= |proc| && FirstUnused(proc, 0) == FirstUnused(proc, p)
        invariant proc == old(proc) && nextpid == old(nextpid)
        invariant forall k :: 0 <= k < p ==> proc[k].state != UNUSED
        decreases |proc| - p
      {
        if proc[p].state == UNUSED {
          proc := proc[p := proc[p].(state := EMBRYO, pid := nextpid)];
          nextpid := nextpid + 1;
          return p;
        }
        p := p + 1;
      }
      return NONE;
    }

    // Wake every process asleep on chan, and no other.
    method Wakeup1(chan: Chan)
      modifies this`proc
      ensures |proc| == |old(proc)|
      ensures forall k :: 0 <= k < |proc| ==>
                var p := old(proc)[k];
                proc[k] == if p.state == SLEEPING && p.chan == chan then p.(state := RUNNABLE) else p
      ensures proc == Woken(old(proc), chan)
    {
      var p := 0;
      while p < |proc|
        invariant 0 <= p <= |proc| == |old(proc)|
        invariant proc[..p] == Woken(old(proc), chan)[..p] && proc[p..] == old(proc)[p..]
      {
        if proc[p].state == SLEEPING && proc[p].chan == chan {
          proc := proc[p := proc[p].(state := RUNNABLE)];
        }
        p := p + 1;
      }
    }

    // exit's scan: hand the children of slot i to init, and wake init if one of them is a zombie.
    method PassChildren(i: int)
      requires 0 <= i < |proc|
      modifies this`proc
      ensures |proc| == |old(proc)|
      ensures forall k :: 0 <= k < |proc| ==>
                var p := old(proc)[k];
                var woken := p.state == SLEEPING && p.chan == OnProc(initproc) && HasZombie(old(proc), i);
                proc[k] == p.(parent := if p.parent == i then initproc else p.parent,
                              state := if woken then RUNNABLE else p.state)
      ensures proc == MaybeWoken(Adopted(old(proc), i, initproc, |old(proc)|), OnProc(initproc),
                                 ZombieChild(old(proc), i, 0) != NONE)
    {
      ghost var seen, was := false, proc;
      AdoptedNone(was, i, initproc);
      ZombieChildFound(was, i, 0);
      var p := 0;
      while p < |proc|
        invariant 0 <= p <= |was| == |proc|
        invariant proc == MaybeWoken(Adopted(was, i, initproc, p), OnProc(initproc), seen)
        invariant seen <==> exists k :: 0 <= k < p && was[k].parent == i && was[k].state == ZOMBIE
      {
        AdoptOne(was, i, initproc, p, seen);
        if proc[p].parent == i {
          proc := proc[p := proc[p].(parent := initproc)];
          if proc[p].state == ZOMBIE {
            Wakeup1(OnProc(initproc));
            seen := true;
          }
        }
        p := p + 1;
      }
    }

    // The process on processor c exits; false stands for the panic when it is init.
    method Exit(c: int) returns (ok: bool)
      requires Inv(Abs()) && Current(Abs(), c) != NONE
      modifies this`proc, this`cpus, this`exited
      ensures ok <==> old(cpus[c]) != initproc
      ensures Abs() == (if ok then Step(old(Abs()), Op.Exit(c)) else old(Abs())) && Inv(Abs())
      ensures ok ==> cpus == old(cpus)[c := NONE] && exited == old(exited) + {old(proc)[old(cpus[c])].pid}
      ensures ok ==> |proc| == |old(proc)| && forall k :: 0 <= k < |proc| ==>
                ExitAt(old(proc), proc, initproc, old(cpus[c]), k)
    {
      var i := cpus[c];
      if i == initproc {
        return false;
      }
      StepKeeps(Abs(), Op.Exit(c));
      ghost var was := proc;
      forall k | 0 <= k < |was| ensures ExitAt(was, ExitPs(was, i, initproc), initproc, i, k) {
        ExitIs(was, initproc, i, k);
      }
      Wakeup1(OnProc(proc[i].parent));
      WakingZombies(was, OnProc(was[i].parent), i);
      PassChildren(i);
      proc := proc[i := proc[i].(state := ZOMBIE)];
      cpus := cpus[c := NONE];
      exited := exited + {was[i].pid};
      return true;
    }

    // One look of wait at the table: a child's pid, or -1, or sleep until a child exits.
    method Wait(c: int) returns (pid: int, asleep: bool)
      requires Inv(Abs()) && Current(Abs(), c) != NONE
      modifies this`proc, this`cpus, this`reaped
      ensures Abs() == Step(old(Abs()), Op.Wait(c)) && Inv(Abs())
      ensures var ps := old(proc); var i := old(cpus[c]); var z := ZombieChild(ps, i, 0);
              if z != NONE then pid == ps[z].pid && !asleep
              else pid == -1 && (asleep <==> HasChild(ps, i) && !ps[i].killed)
      // it frees the first zombie child
      ensures var ps := old(proc); var i := old(cpus[c]);
              HasZombie(ps, i) ==>
                && !asleep && cpus == old(cpus)
                && exists z ::
                     && 0 <= z < |ps| && ps[z].parent == i && ps[z].state == ZOMBIE && pid == ps[z].pid
                     && (forall k :: 0 <= k < z ==> ps[k].parent != i || ps[k].state != ZOMBIE)
                     && proc == ps[z := ps[z].(state := UNUSED, pid := 0, parent := NONE, killed := false)]
                     && reaped == old(reaped) + [pid]
      // or sleeps on its own slot
      ensures var ps := old(proc); var i := old(cpus[c]);
              !HasZombie(ps, i) ==>
                && pid == -1 && reaped == old(reaped) && (asleep <==> HasChild(ps, i) && !ps[i].killed)
                && (if asleep then proc == ps[i := ps[i].(state := SLEEPING, chan := OnProc(i))]
                                   && cpus == old(cpus)[c := NONE]
                    else proc == ps && cpus == old(cpus))
    {
      hide Inv;
      StepKeeps(Abs(), Op.Wait(c));
      ZombieChildFound(proc, cpus[c], 0);
      var i := cpus[c];
      var havekids := false;
      var p := 0;
      while p < |proc|
        invariant 0 <= p <= |proc| && proc == old(proc) && cpus == old(cpus) && reaped == old(reaped)
        invariant havekids <==> exists k :: 0 <= k < p && proc[k].parent == i
        invariant ZombieChild(proc, i, 0) == ZombieChild(proc, i, p)
        invariant forall k :: 0 <= k < p ==> proc[k].parent != i || proc[k].state != ZOMBIE
        decreases |proc| - p
      {
        if proc[p].parent == i {
          havekids := true;
          if proc[p].state == ZOMBIE {
            pid := proc[p].pid;
            reaped := reaped + [pid];
            proc := proc[p := proc[p].(state := UNUSED, pid := 0, parent := NONE, killed := false)];
            return pid, false;
          }
        }
        p := p + 1;
      }
      if !havekids || proc[i].killed {
        return -1, false;
      }
      proc := proc[i := proc[i].(state := SLEEPING, chan := OnProc(i))];
      cpus := cpus[c := NONE];
      return -1, true;
    }

    // The process on c sleeps on an address that is not a process.
    method Sleep(c: int, addr: int)
      requires Inv(Abs()) && Current(Abs(), c) != NONE
      modifies this`proc, this`cpus
      ensures Abs() == Step(old(Abs()), Op.Sleep(c, addr)) && Inv(Abs())
      ensures var i := old(cpus[c]);
              && proc == old(proc)[i := old(proc)[i].(state := SLEEPING, chan := Other(addr))]
              && cpus == old(cpus)[c := NONE]
    {
      StepKeeps(Abs(), Op.Sleep(c, addr));
      var i := cpus[c];
      proc := proc[i := proc[i].(state := SLEEPING, chan := Other(addr))];
      cpus := cpus[c := NONE];
    }

    method Wakeup(addr: int)
      requires Inv(Abs())
      modifies this`proc
      ensures Abs() == Step(old(Abs()), Op.Wakeup(addr)) && Inv(Abs())
      ensures |proc| == |old(proc)|
      ensures forall k :: 0 <= k < |proc| ==>
                var p := old(proc)[k];
                proc[k] == if p.state == SLEEPING && p.chan == Other(addr) then p.(state := RUNNABLE) else p
    {
      StepKeeps(Abs(), Op.Wakeup(addr));
      Wakeup1(Other(addr));
    }

    method Kill(pid: int) returns (found: bool)
      requires Inv(Abs())
      modifies this`proc
      ensures Abs() == Step(old(Abs()), Op.Kill(pid)) && Inv(Abs())
      ensures found <==> exists k :: 0 <= k < |proc| && old(proc)[k].pid == pid
      ensures !found ==> proc == old(proc)
      // the first slot with the pid is marked and not asleep, and the others are as they were
      ensures |proc| == |old(proc)|
      ensures forall k :: 0 <= k < |proc| ==>
                var p := old(proc)[k];
                if p.pid == pid && forall j :: 0 <= j < k ==> old(proc)[j].pid != pid
                then proc[k] == p.(killed := true, state := if p.state == SLEEPING then RUNNABLE else p.state)
                else proc[k] == p
    {
      hide Inv;
      StepKeeps(Abs(), Op.Kill(pid));
      var p := 0;
      while p < |proc|
        invariant 0 <= p <= |proc| && proc == old(proc) && WithPid(proc, pid, 0) == WithPid(proc, pid, p)
        invariant forall k :: 0 <= k < p ==> proc[k].pid != pid
        decreases |proc| - p
      {
        if proc[p].pid == pid {
          proc := proc[p := proc[p].(killed := true)];
          if proc[p].state == SLEEPING {
            proc := proc[p := proc[p].(state := RUNNABLE)];
          }
          return true;
        }
        p := p + 1;
      }
      return false;
    }

    // The scheduler of processor c looks from slot p on for a process to run; NONE when its scan ends.
    method Schedule(c: int, start: nat) returns (slot: int)
      requires Inv(Abs()) && 0 <= c < |cpus| && cpus[c] == NONE && start <= |proc|
      modifies this`proc, this`cpus
      ensures Inv(Abs())
      ensures slot == NONE ==> Abs() == old(Abs()) && forall k :: start <= k < |proc| ==> proc[k].state != RUNNABLE
      ensures slot != NONE ==>
                && start <= slot < |old(proc)| && old(proc)[slot].state == RUNNABLE
                && (forall k :: start <= k < slot ==> old(proc)[k].state != RUNNABLE)
                && Abs() == Step(old(Abs()), Op.Schedule(c, slot))
                && proc == old(proc)[slot := old(proc)[slot].(state := RUNNING, chan := NoChan)]
                && cpus == old(cpus)[c := slot]
    {
      var p := start;
      while p < |proc|
        invariant start <= p <= |proc| && proc == old(proc) && cpus == old(cpus)
        invariant forall k :: start <= k < p ==> proc[k].state != RUNNABLE
        decreases |proc| - p
      {
        if proc[p].state == RUNNABLE {
          StepKeeps(Abs(), Op.Schedule(c, p));
          cpus := cpus[c := p];
          proc := proc[p := proc[p].(state := RUNNING, chan := NoChan)];
          return p;
        }
        p := p + 1;
      }
      return NONE;
    }

    method Yield(c: int)
      requires Inv(Abs()) && Current(Abs(), c) != NONE
      modifies this`proc, this`cpus
      ensures Abs() == Step(old(Abs()), Op.Yield(c)) && Inv(Abs())
      ensures var i := old(cpus[c]);
              proc == old(proc)[i := old(proc)[i].(state := RUNNABLE)] && cpus == old(cpus)[c := NONE]
    {
      StepKeeps(Abs(), Op.Yield(c));
      var i := cpus[c];
      proc := proc[i := proc[i].(state := RUNNABLE)];
      cpus := cpus[c := NONE];
    }

    // fork once it has an EMBRYO: give up, or set the parent and then let it run.
    method ForkFails(slot: int)
      requires Inv(Abs()) && Enabled(Abs(), Abandon(slot))
      modifies this`proc
      ensures Abs() == Step(old(Abs()), Abandon(slot)) && Inv(Abs())
      ensures proc == old(proc)[slot := old(proc)[slot].(state := UNUSED)]
    {
      StepKeeps(Abs(), Abandon(slot));
      proc := proc[slot := proc[slot].(state := UNUSED)];
    }

    method ForkParent(c: int, slot: int)
      requires Inv(Abs()) && Enabled(Abs(), Adopt(c, slot))
      modifies this`proc
      ensures Abs() == Step(old(Abs()), Adopt(c, slot)) && Inv(Abs()) && Enabled(Abs(), Launch(slot))
      ensures proc == old(proc)[slot := old(proc)[slot].(parent := cpus[c])]
    {
      StepKeeps(Abs(), Adopt(c, slot));
      proc := proc[slot := proc[slot].(parent := cpus[c])];
    }

    method ForkDone(slot: int) returns (pid: int)
      requires Inv(Abs()) && Enabled(Abs(), Launch(slot))
      modifies this`proc
      ensures Abs() == Step(old(Abs()), Launch(slot)) && Inv(Abs()) && pid == proc[slot].pid
      ensures proc == old(proc)[slot := old(proc)[slot].(state := RUNNABLE)]
    {
      StepKeeps(Abs(), Launch(slot));
      pid := proc[slot].pid;
      proc := proc[slot := proc[slot].(state := RUNNABLE)];
    }
  }

  // Waking sleepers makes and unmakes no zombie.
  lemma WakingZombies(ps: seq<Proc>, chan: Chan, i: int)
    ensures ZombieChild(Woken(ps, chan), i, 0) == ZombieChild(ps, i, 0)
  {
    WakingZombiesFrom(ps, chan, i, 0);
  }

  lemma {:induction false} WakingZombiesFrom(ps: seq<Proc>, chan: Chan, i: int, k: nat)
    ensures ZombieChild(Woken(ps, chan), i, k) == ZombieChild(ps, i, k)
    decreases |ps| - k
  {
    if k < |ps| {
      WakingZombiesFrom(ps, chan, i, k + 1);
    }
  }
}
