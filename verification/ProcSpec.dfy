/**
  The process table (proc.c) as a step system. One step is what happens between taking ptable.lock
  and releasing it; the scheduler's switch to a process and back is part of the step that causes it.
 */
module ProcSpec {
  datatype PState = UNUSED | EMBRYO | SLEEPING | RUNNABLE | RUNNING | ZOMBIE

  // What a process sleeps on: a slot of the table (wait sleeps on the caller's own) or anything else.
  datatype Chan = NoChan | OnProc(slot: int) | Other(addr: int)

  const NONE: int := -1

  datatype Proc = Proc(state: PState, pid: int, parent: int, chan: Chan, killed: bool)

  // cpus[c] is the slot running on processor c. exited and reaped are the pids that have gone
  // through exit and that wait has returned.
  datatype Table = Table(ps: seq<Proc>, cpus: seq<int>, nextpid: int, init: int, exited: set<int>, reaped: seq<int>)

  // ---------- steps ----------

  function Woken(ps: seq<Proc>, chan: Chan): (r: seq<Proc>)
    ensures |r| == |ps|
  {
    seq(|ps|, k requires 0 <= k < |ps| =>
      if ps[k].state == SLEEPING && ps[k].chan == chan then ps[k].(state := RUNNABLE) else ps[k])
  }

  // Among the first n slots, children of i become children of init.
  function Adopted(ps: seq<Proc>, i: int, init: int, n: int): (r: seq<Proc>)
    ensures |r| == |ps|
  {
    seq(|ps|, k requires 0 <= k < |ps| => if k < n && ps[k].parent == i then ps[k].(parent := init) else ps[k])
  }

  // The first ZOMBIE child of i from slot k on, or NONE.
  function ZombieChild(ps: seq<Proc>, i: int, k: nat): (r: int)
    ensures r == NONE || k <= r < |ps|
    decreases |ps| - k
  {
    if k >= |ps| then NONE
    else if ps[k].parent == i && ps[k].state == ZOMBIE then k
    else ZombieChild(ps, i, k + 1)
  }

  predicate HasChild(ps: seq<Proc>, i: int)
  {
    exists k :: 0 <= k < |ps| && ps[k].parent == i
  }

  function FirstUnused(ps: seq<Proc>, k: nat): (r: int)
    ensures r == NONE || k <= r < |ps|
    decreases |ps| - k
  {
    if k >= |ps| then NONE else if ps[k].state == UNUSED then k else FirstUnused(ps, k + 1)
  }

  function WithPid(ps: seq<Proc>, pid: int, k: nat): (r: int)
    ensures r == NONE || k <= r < |ps|
    decreases |ps| - k
  {
    if k >= |ps| then NONE else if ps[k].pid == pid then k else WithPid(ps, pid, k + 1)
  }

  // The slot running on processor c, or NONE.
  function Current(t: Table, c: int): int
  {
    if 0 <= c < |t.cpus| && 0 <= t.cpus[c] < |t.ps| then t.cpus[c] else NONE
  }

  datatype Op =
    | Alloc
    | Adopt(c: int, slot: int)
    | Launch(slot: int)
    | Abandon(slot: int)
    | Exit(c: int)
    | Wait(c: int)
    | Sleep(c: int, addr: int)
    | Wakeup(addr: int)
    | Kill(pid: int)
    | Schedule(c: int, slot: int)
    | Yield(c: int)

  // Who can take a step: the process running on c, or the creator of an embryo.
  predicate Enabled(t: Table, op: Op)
  {
    match op
    case Alloc => true
    case Adopt(c, slot) => Current(t, c) != NONE && 0 <= slot < |t.ps| && t.ps[slot].state == EMBRYO
    && t.ps[slot].parent == NONE
    case Launch(slot) => 0 <= slot < |t.ps| && t.ps[slot].state == EMBRYO && t.ps[slot].parent != NONE
    case Abandon(slot) => 0 <= slot < |t.ps| && t.ps[slot].state == EMBRYO && t.ps[slot].parent == NONE
    case Exit(c) => Current(t, c) != NONE && Current(t, c) != t.init
    case Wait(c) => Current(t, c) != NONE
    case Sleep(c, _) => Current(t, c) != NONE
    case Wakeup(_) => true
    case Kill(_) => true
    case Schedule(c, slot) => 0 <= c < |t.cpus| && t.cpus[c] == NONE && 0 <= slot < |t.ps|
    && t.ps[slot].state == RUNNABLE
    case Yield(c) => Current(t, c) != NONE
  }

  function AllocStep(t: Table): Table
  {
    var k := FirstUnused(t.ps, 0);
    if k == NONE then t
    else t.(ps := t.ps[k := t.ps[k].(state := EMBRYO, pid := t.nextpid)], nextpid := t.nextpid + 1)
  }

  function ExitPs(ps: seq<Proc>, i: int, init: int): (r: seq<Proc>)
    requires 0 <= i < |ps|
    ensures |r| == |ps|
  {
    var woken := Woken(ps, OnProc(ps[i].parent));
    var adopted := Adopted(woken, i, init, |ps|);
    var all := if ZombieChild(ps, i, 0) != NONE then Woken(adopted, OnProc(init)) else adopted;
    all[i := all[i].(state := ZOMBIE)]
  }

  function Reaped(p: Proc): Proc
  {
    p.(state := UNUSED, pid := 0, parent := NONE, killed := false)
  }

  function WaitStep(t: Table, c: int): Table
    requires Current(t, c) != NONE
  {
    var i := t.cpus[c];
    var z := ZombieChild(t.ps, i, 0);
    if z != NONE then t.(ps := t.ps[z := Reaped(t.ps[z])], reaped := t.reaped + [t.ps[z].pid])
    else if !HasChild(t.ps, i) || t.ps[i].killed then t
    else t.(ps := t.ps[i := t.ps[i].(state := SLEEPING, chan := OnProc(i))], cpus := t.cpus[c := NONE])
  }

  function KillStep(t: Table, pid: int): Table
  {
    var k := WithPid(t.ps, pid, 0);
    if k == NONE then t
    else
      var p := t.ps[k].(killed := true);
      t.(ps := t.ps[k := if p.state == SLEEPING then p.(state := RUNNABLE) else p])
  }

  function Step(t: Table, op: Op): Table
    requires Enabled(t, op)
  {
    match op
    case Alloc => AllocStep(t)
    case Adopt(c, slot) => t.(ps := t.ps[slot := t.ps[slot].(parent := t.cpus[c])])
    case Launch(slot) => t.(ps := t.ps[slot := t.ps[slot].(state := RUNNABLE)])
    case Abandon(slot) => t.(ps := t.ps[slot := t.ps[slot].(state := UNUSED)])
    case Exit(c) =>
      var i := t.cpus[c];
      t.(ps := ExitPs(t.ps, i, t.init), cpus := t.cpus[c := NONE], exited := t.exited + {t.ps[i].pid})
    case Wait(c) => WaitStep(t, c)
    case Sleep(c, addr) =>
      t.(ps := t.ps[t.cpus[c] := t.ps[t.cpus[c]].(state := SLEEPING, chan := Other(addr))], cpus := t.cpus[c := NONE])
    case Wakeup(addr) => t.(ps := Woken(t.ps, Other(addr)))
    case Kill(pid) => KillStep(t, pid)
    case Schedule(c, slot) => t.(ps := t.ps[slot := t.ps[slot].(state := RUNNING, chan := NoChan)],
                                 cpus := t.cpus[c := slot])
    case Yield(c) => t.(ps := t.ps[t.cpus[c] := t.ps[t.cpus[c]].(state := RUNNABLE)], cpus := t.cpus[c := NONE])
  }

  // ---------- what every step keeps ----------

  predicate Live(s: PState)
  {
    s == SLEEPING || s == RUNNABLE || s == RUNNING
  }

  // Slot i sleeps in wait.
  predicate Waiting(ps: seq<Proc>, i: int)
  {
    0 <= i < |ps| && ps[i].state == SLEEPING && ps[i].chan == OnProc(i)
  }

  // A parent is alive; only init and slots not in use have none; who waits has someone to wait for.
  ghost predicate SlotOk(ps: seq<Proc>, init: int, i: int)
  {
    0 <= i < |ps| ==>
      var p := ps[i];
      && (p.state == UNUSED || i == init ==> p.parent == NONE)
      && (i == init ==> Live(p.state))
      && (Live(p.state) || p.state == ZOMBIE ==> i == init || p.parent != NONE)
      && (p.parent != NONE ==> 0 <= p.parent < |ps| && p.parent != i && Live(ps[p.parent].state))
      && (p.state == SLEEPING && p.chan.OnProc? ==> p.chan.slot == i)
      && (Waiting(ps, i) ==> HasChild(ps, i) && !p.killed)
  }

  // Nobody sleeps in wait past the exit of a child.
  ghost predicate ZombieOk(ps: seq<Proc>, j: int)
  {
    0 <= j < |ps| && ps[j].state == ZOMBIE ==> !Waiting(ps, ps[j].parent)
  }

  ghost predicate TreeInv(ps: seq<Proc>, init: int)
  {
    0 <= init < |ps| && (forall i :: SlotOk(ps, init, i)) && (forall j :: ZombieOk(ps, j))
  }

  // A processor runs a RUNNING process, and no other processor runs it.
  ghost predicate CpuOk(ps: seq<Proc>, cpus: seq<int>, c: int)
  {
    0 <= c < |cpus| && cpus[c] != NONE ==>
      && 0 <= cpus[c] < |ps| && ps[cpus[c]].state == RUNNING
      && forall d :: 0 <= d < |cpus| && cpus[d] == cpus[c] ==> d == c
  }

  // A RUNNING process runs on some processor.
  ghost predicate RunsOk(ps: seq<Proc>, cpus: seq<int>, i: int)
  {
    0 <= i < |ps| && ps[i].state == RUNNING ==> i in cpus
  }

  ghost predicate CpuInv(ps: seq<Proc>, cpus: seq<int>)
  {
    (forall c :: CpuOk(ps, cpus, c)) && (forall i :: RunsOk(ps, cpus, i))
  }

  // Pids in use are different and already handed out, and have not been returned by wait;
  // exactly the zombies' have gone through exit.
  ghost predicate PidOk(t: Table, i: int)
  {
    0 <= i < |t.ps| && t.ps[i].state != UNUSED ==>
      var pid := t.ps[i].pid;
      && pid < t.nextpid && pid !in t.reaped
      && (pid in t.exited <==> t.ps[i].state == ZOMBIE)
      && forall j :: 0 <= j < |t.ps| && t.ps[j].state != UNUSED && t.ps[j].pid == pid ==> j == i
  }

  // A pid that has exited was returned by wait, or a zombie still has it.
  ghost predicate ExitOk(t: Table, pid: int)
  {
    && (pid in t.exited ==>
           pid < t.nextpid
           && (pid in t.reaped || exists i :: 0 <= i < |t.ps| && t.ps[i].state == ZOMBIE && t.ps[i].pid == pid))
    && (pid in t.reaped ==> pid in t.exited)
  }

  ghost predicate PidInv(t: Table)
  {
    && (forall i :: PidOk(t, i)) && (forall pid :: ExitOk(t, pid))
    && (forall i, j :: 0 <= i < j < |t.reaped| ==> t.reaped[i] != t.reaped[j])
  }

  // No two slots have the same pid, in use or not, except for 0.
  ghost predicate PidAt(t: Table, i: int)
  {
    0 <= i < |t.ps| ==>
      var p := t.ps[i];
      && 0 <= p.pid < t.nextpid && (p.state != UNUSED ==> p.pid > 0)
      && forall j :: 0 <= j < |t.ps| && t.ps[j].pid == p.pid > 0 ==> j == i
  }

  ghost predicate PidsApart(t: Table)
  {
    0 < t.nextpid && forall i :: PidAt(t, i)
  }

  ghost predicate Inv(t: Table)
  {
    TreeInv(t.ps, t.init) && CpuInv(t.ps, t.cpus) && PidInv(t) && PidsApart(t)
  }

  // ---------- the process tree ----------

  // A change of slot i that keeps its parent, does not end its life and does not put it to sleep in wait.
  ghost predicate Tame(ps: seq<Proc>, ps': seq<Proc>, i: int)
  {
    0 <= i < |ps| && |ps'| == |ps| ==>
      var p, q := ps[i], ps'[i];
      && q.parent == p.parent
      && (Live(p.state) ==> Live(q.state))
      && (q.state == UNUSED ==> p.state == UNUSED || p.parent == NONE)
      && (Live(q.state) ==> Live(p.state) || p.parent != NONE)
      && (q.state == ZOMBIE ==> p.state == ZOMBIE)
      && (q.state == SLEEPING && q.chan.OnProc? ==> p.state == SLEEPING && q.chan == p.chan && q.killed == p.killed)
  }

  lemma TameKeeps(ps: seq<Proc>, ps': seq<Proc>, init: int)
    requires TreeInv(ps, init) && |ps'| == |ps| && forall i :: Tame(ps, ps', i)
    ensures TreeInv(ps', init)
  {
    forall i ensures SlotOk(ps', init, i) {
      assert SlotOk(ps, init, i) && Tame(ps, ps', i);
      if 0 <= i < |ps| && ps[i].parent != NONE {
        assert Tame(ps, ps', ps[i].parent);
      }
      if Waiting(ps', i) {
        var k :| 0 <= k < |ps| && ps[k].parent == i;
        assert Tame(ps, ps', k) && ps'[k].parent == i;
      }
    }
    forall j ensures ZombieOk(ps', j) {
      assert ZombieOk(ps, j) && Tame(ps, ps', j);
      if 0 <= j < |ps| {
        assert Tame(ps, ps', ps[j].parent);
      }
    }
  }

  lemma OneTame(ps: seq<Proc>, init: int, k: int, q: Proc)
    requires TreeInv(ps, init) && 0 <= k < |ps| && Tame(ps, ps[k := q], k)
    ensures TreeInv(ps[k := q], init)
  {
    var ps' := ps[k := q];
    forall i ensures Tame(ps, ps', i) {
    }
    TameKeeps(ps, ps', init);
  }

  lemma WokenTree(ps: seq<Proc>, init: int, chan: Chan)
    requires TreeInv(ps, init)
    ensures TreeInv(Woken(ps, chan), init)
  {
    var ps' := Woken(ps, chan);
    forall i ensures Tame(ps, ps', i) {
    }
    TameKeeps(ps, ps', init);
  }

  lemma AdoptTree(ps: seq<Proc>, init: int, i: int, k: int)
    requires TreeInv(ps, init) && 0 <= i < |ps| && 0 <= k < |ps|
    requires ps[i].state == RUNNING && ps[k].state == EMBRYO && ps[k].parent == NONE
    ensures TreeInv(ps[k := ps[k].(parent := i)], init)
  {
    var ps' := ps[k := ps[k].(parent := i)];
    forall x ensures SlotOk(ps', init, x) {
      assert SlotOk(ps, init, x);
      if Waiting(ps', x) {
        var y :| 0 <= y < |ps| && ps[y].parent == x;
        assert ps'[y].parent == x;
      }
    }
    forall j ensures ZombieOk(ps', j) {
      assert ZombieOk(ps, j);
    }
  }

  lemma {:induction false} ZombieChildFound(ps: seq<Proc>, i: int, k: nat)
    ensures ZombieChild(ps, i, k) == NONE <==> forall j :: k <= j < |ps| ==>
              !(ps[j].parent == i && ps[j].state == ZOMBIE)
    ensures var z := ZombieChild(ps, i, k); z != NONE ==> ps[z].parent == i && ps[z].state == ZOMBIE
    decreases |ps| - k
  {
    if k < |ps| {
      ZombieChildFound(ps, i, k + 1);
    }
  }

  predicate HasZombie(ps: seq<Proc>, i: int)
  {
    exists k :: 0 <= k < |ps| && ps[k].parent == i && ps[k].state == ZOMBIE
  }

  // What exit makes of slot k.
  ghost predicate ExitAt(ps: seq<Proc>, ps': seq<Proc>, init: int, i: int, k: int)
  {
    0 <= i < |ps| && 0 <= k < |ps| == |ps'| ==>
      var p := ps[k];
      var woken := p.state == SLEEPING
          && (p.chan == OnProc(ps[i].parent) || (p.chan == OnProc(init) && HasZombie(ps, i)));
      ps'[k] == p.(parent := if p.parent == i then init else p.parent,
                   state := if k == i then ZOMBIE else if woken then RUNNABLE else p.state)
  }

  lemma ExitIs(ps: seq<Proc>, init: int, i: int, k: int)
    requires 0 <= i < |ps| && 0 <= k < |ps|
    ensures ExitAt(ps, ExitPs(ps, i, init), init, i, k)
  {
    ZombieChildFound(ps, i, 0);
  }

  // Nobody is left with the exiting process as parent, and whoever waits for a zombie is awake.
  lemma ExitTree(ps: seq<Proc>, init: int, i: int)
    requires TreeInv(ps, init) && 0 <= i < |ps| && ps[i].state == RUNNING && i != init
    ensures TreeInv(ExitPs(ps, i, init), init)
  {
    hide ExitPs;
    var ps' := ExitPs(ps, i, init);
    ZombieChildFound(ps, i, 0);
    assert SlotOk(ps, init, i) && SlotOk(ps, init, init);
    forall k | 0 <= k < |ps| ensures ExitAt(ps, ps', init, i, k) {
      ExitIs(ps, init, i, k);
    }
    forall x ensures SlotOk(ps', init, x) {
      if 0 <= x < |ps| {
        assert SlotOk(ps, init, x) && ExitAt(ps, ps', init, i, x);
        if ps[x].parent != NONE {
          assert ExitAt(ps, ps', init, i, ps[x].parent);
        }
        assert ExitAt(ps, ps', init, i, init);
        if Waiting(ps', x) {
          var y :| 0 <= y < |ps| && ps[y].parent == x;
          assert ExitAt(ps, ps', init, i, y) && ps'[y].parent == x;
        }
      }
    }
    forall j ensures ZombieOk(ps', j) {
      if 0 <= j < |ps| {
        assert ZombieOk(ps, j) && ExitAt(ps, ps', init, i, j) && SlotOk(ps, init, j) && ExitAt(ps, ps', init, i, init);
        if ps[j].parent != NONE {
          assert ExitAt(ps, ps', init, i, ps[j].parent);
        }
      }
    }
  }

  lemma ReapTree(ps: seq<Proc>, init: int, i: int, z: int)
    requires TreeInv(ps, init) && 0 <= i < |ps| && 0 <= z < |ps|
    requires ps[i].state == RUNNING && ps[z].state == ZOMBIE && ps[z].parent == i
    ensures TreeInv(ps[z := Reaped(ps[z])], init)
  {
    var ps' := ps[z := Reaped(ps[z])];
    assert SlotOk(ps, init, init);
    forall x ensures SlotOk(ps', init, x) {
      assert SlotOk(ps, init, x);
      if Waiting(ps', x) {
        var y :| 0 <= y < |ps| && ps[y].parent == x;
        assert ps'[y].parent == x;
      }
    }
    forall j ensures ZombieOk(ps', j) {
      assert ZombieOk(ps, j);
    }
  }

  lemma WaitTree(ps: seq<Proc>, init: int, i: int)
    requires TreeInv(ps, init) && 0 <= i < |ps| && ps[i].state == RUNNING
    requires ZombieChild(ps, i, 0) == NONE && HasChild(ps, i) && !ps[i].killed
    ensures TreeInv(ps[i := ps[i].(state := SLEEPING, chan := OnProc(i))], init)
  {
    var ps' := ps[i := ps[i].(state := SLEEPING, chan := OnProc(i))];
    ZombieChildFound(ps, i, 0);
    forall x ensures SlotOk(ps', init, x) {
      assert SlotOk(ps, init, x);
      if Waiting(ps', x) {
        var y :| 0 <= y < |ps| && ps[y].parent == x;
        assert ps'[y].parent == x;
      }
    }
    forall j ensures ZombieOk(ps', j) {
      assert ZombieOk(ps, j);
    }
  }

  lemma {:induction false} FirstUnusedFound(ps: seq<Proc>, k: nat)
    ensures var r := FirstUnused(ps, k); r != NONE ==> ps[r].state == UNUSED
    decreases |ps| - k
  {
    if k < |ps| {
      FirstUnusedFound(ps, k + 1);
    }
  }

  lemma StepTree(t: Table, op: Op)
    requires TreeInv(t.ps, t.init) && CpuInv(t.ps, t.cpus) && Enabled(t, op)
    ensures Step(t, op).init == t.init && TreeInv(Step(t, op).ps, t.init)
  {
    match op
    case Alloc =>
      FirstUnusedFound(t.ps, 0);
      var k := FirstUnused(t.ps, 0);
      if k != NONE {
        OneTame(t.ps, t.init, k, t.ps[k].(state := EMBRYO, pid := t.nextpid));
      }
    case Adopt(c, slot) =>
      assert CpuOk(t.ps, t.cpus, c);
      AdoptTree(t.ps, t.init, t.cpus[c], slot);
    case Launch(slot) => OneTame(t.ps, t.init, slot, t.ps[slot].(state := RUNNABLE));
    case Abandon(slot) => OneTame(t.ps, t.init, slot, t.ps[slot].(state := UNUSED));
    case Exit(c) =>
      assert CpuOk(t.ps, t.cpus, c);
      ExitTree(t.ps, t.init, t.cpus[c]);
    case Wait(c) =>
      assert CpuOk(t.ps, t.cpus, c);
      var i := t.cpus[c];
      ZombieChildFound(t.ps, i, 0);
      var z := ZombieChild(t.ps, i, 0);
      if z != NONE {
        ReapTree(t.ps, t.init, i, z);
      } else if HasChild(t.ps, i) && !t.ps[i].killed {
        WaitTree(t.ps, t.init, i);
      }
    case Sleep(c, addr) =>
      assert CpuOk(t.ps, t.cpus, c);
      OneTame(t.ps, t.init, t.cpus[c], t.ps[t.cpus[c]].(state := SLEEPING, chan := Other(addr)));
    case Wakeup(addr) => WokenTree(t.ps, t.init, Other(addr));
    case Kill(pid) =>
      var k := WithPid(t.ps, pid, 0);
      if k != NONE {
        assert SlotOk(t.ps, t.init, k);
        var p := t.ps[k].(killed := true);
        OneTame(t.ps, t.init, k, if p.state == SLEEPING then p.(state := RUNNABLE) else p);
      }
    case Schedule(c, slot) => OneTame(t.ps, t.init, slot, t.ps[slot].(state := RUNNING, chan := NoChan));
    case Yield(c) =>
      assert CpuOk(t.ps, t.cpus, c);
      OneTame(t.ps, t.init, t.cpus[c], t.ps[t.cpus[c]].(state := RUNNABLE));
  }

  // ---------- processors ----------

  lemma SameCpus(ps: seq<Proc>, ps': seq<Proc>, cpus: seq<int>)
    requires CpuInv(ps, cpus) && |ps'| == |ps|
    requires forall i :: 0 <= i < |ps| ==> (ps'[i].state == RUNNING <==> ps[i].state == RUNNING)
    ensures CpuInv(ps', cpus)
  {
    forall c ensures CpuOk(ps', cpus, c) {
      assert CpuOk(ps, cpus, c);
    }
    forall i ensures RunsOk(ps', cpus, i) {
      assert RunsOk(ps, cpus, i);
    }
  }

  // The process on c stops running, there and in the table.
  lemma LeaveCpu(ps: seq<Proc>, ps': seq<Proc>, cpus: seq<int>, c: int)
    requires CpuInv(ps, cpus) && |ps'| == |ps| && 0 <= c < |cpus| && 0 <= cpus[c] < |ps|
    requires forall i :: 0 <= i < |ps| ==> (ps'[i].state == RUNNING <==> ps[i].state == RUNNING && i != cpus[c])
    ensures CpuInv(ps', cpus[c := NONE])
  {
    var cpus' := cpus[c := NONE];
    assert CpuOk(ps, cpus, c);
    forall d ensures CpuOk(ps', cpus', d) {
      assert CpuOk(ps, cpus, d);
    }
    forall i ensures RunsOk(ps', cpus', i) {
      assert RunsOk(ps, cpus, i);
      if 0 <= i < |ps| && ps'[i].state == RUNNING {
        var d :| 0 <= d < |cpus| && cpus[d] == i;
        assert cpus'[d] == i;
      }
    }
  }

  lemma EnterCpu(ps: seq<Proc>, cpus: seq<int>, c: int, slot: int)
    requires CpuInv(ps, cpus) && 0 <= c < |cpus| && cpus[c] == NONE && 0 <= slot < |ps| && ps[slot].state == RUNNABLE
    ensures CpuInv(ps[slot := ps[slot].(state := RUNNING, chan := NoChan)], cpus[c := slot])
  {
    var ps', cpus' := ps[slot := ps[slot].(state := RUNNING, chan := NoChan)], cpus[c := slot];
    assert cpus'[c] == slot;
    forall e | 0 <= e < |cpus| ensures cpus[e] != slot {
      assert CpuOk(ps, cpus, e);
    }
    forall d ensures CpuOk(ps', cpus', d) {
      assert CpuOk(ps, cpus, d);
    }
    forall i ensures RunsOk(ps', cpus', i) {
      assert RunsOk(ps, cpus, i);
      if 0 <= i < |ps| && ps[i].state == RUNNING {
        var d :| 0 <= d < |cpus| && cpus[d] == i;
        assert cpus'[d] == i;
      }
    }
  }

  lemma WaitCpus(t: Table, c: int)
    requires CpuInv(t.ps, t.cpus) && Current(t, c) != NONE
    ensures CpuInv(WaitStep(t, c).ps, WaitStep(t, c).cpus)
  {
    var t' := WaitStep(t, c);
    ZombieChildFound(t.ps, t.cpus[c], 0);
    if t'.cpus == t.cpus {
      assert CpuOk(t.ps, t.cpus, c);
      SameCpus(t.ps, t'.ps, t.cpus);
    } else {
      LeaveCpu(t.ps, t'.ps, t.cpus, c);
    }
  }

  lemma ExitCpus(t: Table, c: int)
    requires CpuInv(t.ps, t.cpus) && Current(t, c) != NONE
    ensures CpuInv(ExitPs(t.ps, t.cpus[c], t.init), t.cpus[c := NONE])
  {
    LeaveCpu(t.ps, ExitPs(t.ps, t.cpus[c], t.init), t.cpus, c);
  }

  lemma StepCpus(t: Table, op: Op)
    requires CpuInv(t.ps, t.cpus) && Enabled(t, op)
    ensures CpuInv(Step(t, op).ps, Step(t, op).cpus)
  {
    var t' := Step(t, op);
    match op
    case Alloc => FirstUnusedFound(t.ps, 0); SameCpus(t.ps, t'.ps, t.cpus);
    case Adopt(_, _) => SameCpus(t.ps, t'.ps, t.cpus);
    case Launch(_) => SameCpus(t.ps, t'.ps, t.cpus);
    case Abandon(_) => SameCpus(t.ps, t'.ps, t.cpus);
    case Exit(c) => ExitCpus(t, c);
    case Wait(c) => WaitCpus(t, c);
    case Sleep(c, _) => LeaveCpu(t.ps, t'.ps, t.cpus, c);
    case Wakeup(_) => SameCpus(t.ps, t'.ps, t.cpus);
    case Kill(_) => SameCpus(t.ps, t'.ps, t.cpus);
    case Schedule(c, slot) => EnterCpu(t.ps, t.cpus, c, slot);
    case Yield(c) => LeaveCpu(t.ps, t'.ps, t.cpus, c);
  }

  // ---------- pids ----------

  ghost predicate PidSame(ps: seq<Proc>, ps': seq<Proc>, i: int)
  {
    0 <= i < |ps| && |ps'| == |ps| ==>
      && ps'[i].pid == ps[i].pid
      && (ps'[i].state == UNUSED <==> ps[i].state == UNUSED)
      && (ps'[i].state == ZOMBIE <==> ps[i].state == ZOMBIE)
  }

  lemma SamePids(t: Table, t': Table)
    requires PidInv(t) && |t'.ps| == |t.ps| && forall i :: PidSame(t.ps, t'.ps, i)
    requires t'.nextpid == t.nextpid && t'.exited == t.exited && t'.reaped == t.reaped
    ensures PidInv(t')
  {
    forall i ensures PidOk(t', i) {
      assert PidOk(t, i) && PidSame(t.ps, t'.ps, i);
      forall j | 0 <= j < |t'.ps| && t'.ps[j].state != UNUSED && 0 <= i < |t.ps| && t'.ps[i].state != UNUSED
          && t'.ps[j].pid == t'.ps[i].pid
        ensures j == i {
        assert PidSame(t.ps, t'.ps, j);
      }
    }
    forall pid ensures ExitOk(t', pid) {
      assert ExitOk(t, pid);
      if pid in t.exited && pid !in t.reaped {
        var i :| 0 <= i < |t.ps| && t.ps[i].state == ZOMBIE && t.ps[i].pid == pid;
        assert PidSame(t.ps, t'.ps, i) && t'.ps[i].state == ZOMBIE;
      }
    }
  }

  lemma AllocPids(t: Table)
    requires PidInv(t)
    ensures PidInv(AllocStep(t))
  {
    FirstUnusedFound(t.ps, 0);
    var t', k := AllocStep(t), FirstUnused(t.ps, 0);
    if k != NONE {
      assert ExitOk(t, t.nextpid);
      forall i ensures PidOk(t', i) {
        assert PidOk(t, i);
        forall j | 0 <= j < |t.ps| && t.ps[j].state != UNUSED ensures t.ps[j].pid != t.nextpid {
          assert PidOk(t, j);
        }
      }
      forall pid ensures ExitOk(t', pid) {
        assert ExitOk(t, pid);
        if pid in t.exited && pid !in t.reaped {
          var i :| 0 <= i < |t.ps| && t.ps[i].state == ZOMBIE && t.ps[i].pid == pid;
          assert t'.ps[i].state == ZOMBIE;
        }
      }
    }
  }

  lemma AbandonPids(t: Table, k: int)
    requires PidInv(t) && 0 <= k < |t.ps| && t.ps[k].state == EMBRYO
    ensures PidInv(t.(ps := t.ps[k := t.ps[k].(state := UNUSED)]))
  {
    var t' := t.(ps := t.ps[k := t.ps[k].(state := UNUSED)]);
    forall i ensures PidOk(t', i) {
      assert PidOk(t, i);
    }
    forall pid ensures ExitOk(t', pid) {
      assert ExitOk(t, pid);
      if pid in t.exited && pid !in t.reaped {
        var i :| 0 <= i < |t.ps| && t.ps[i].state == ZOMBIE && t.ps[i].pid == pid;
        assert t'.ps[i].state == ZOMBIE;
      }
    }
  }

  ghost predicate DiesAt(ps: seq<Proc>, ps': seq<Proc>, i: int, k: int)
  {
    0 <= k < |ps| && |ps'| == |ps| ==>
      && ps'[k].pid == ps[k].pid
      && (ps'[k].state == UNUSED <==> ps[k].state == UNUSED)
      && (ps'[k].state == ZOMBIE <==> ps[k].state == ZOMBIE || k == i)
  }

  lemma ExitPids(t: Table, t': Table, i: int)
    requires PidInv(t) && 0 <= i < |t.ps| && t.ps[i].state == RUNNING
    requires |t'.ps| == |t.ps| && forall k :: DiesAt(t.ps, t'.ps, i, k)
    requires t'.nextpid == t.nextpid && t'.exited == t.exited + {t.ps[i].pid} && t'.reaped == t.reaped
    ensures PidInv(t')
  {
    assert PidOk(t, i) && DiesAt(t.ps, t'.ps, i, i);
    forall k ensures PidOk(t', k) {
      assert PidOk(t, k) && DiesAt(t.ps, t'.ps, i, k);
      forall j | 0 <= j < |t'.ps| && t'.ps[j].state != UNUSED && 0 <= k < |t.ps| && t'.ps[k].state != UNUSED
          && t'.ps[j].pid == t'.ps[k].pid
        ensures j == k {
        assert DiesAt(t.ps, t'.ps, i, j);
      }
    }
    forall pid ensures ExitOk(t', pid) {
      assert ExitOk(t, pid);
      if pid in t.exited && pid !in t.reaped {
        var j :| 0 <= j < |t.ps| && t.ps[j].state == ZOMBIE && t.ps[j].pid == pid;
        assert DiesAt(t.ps, t'.ps, i, j) && t'.ps[j].state == ZOMBIE;
      }
    }
  }

  lemma ReapPids(t: Table, z: int)
    requires PidInv(t) && 0 <= z < |t.ps| && t.ps[z].state == ZOMBIE
    ensures PidInv(t.(ps := t.ps[z := Reaped(t.ps[z])], reaped := t.reaped + [t.ps[z].pid]))
  {
    var t' := t.(ps := t.ps[z := Reaped(t.ps[z])], reaped := t.reaped + [t.ps[z].pid]);
    assert PidOk(t, z);
    forall i ensures PidOk(t', i) {
      assert PidOk(t, i);
    }
    forall pid ensures ExitOk(t', pid) {
      assert ExitOk(t, pid);
      if pid in t.exited && pid !in t'.reaped {
        var i :| 0 <= i < |t.ps| && t.ps[i].state == ZOMBIE && t.ps[i].pid == pid;
        assert t'.ps[i].state == ZOMBIE;
      }
    }
  }

  lemma StepPids(t: Table, op: Op)
    requires PidInv(t) && CpuInv(t.ps, t.cpus) && Enabled(t, op)
    ensures PidInv(Step(t, op))
  {
    var t' := Step(t, op);
    match op
    case Alloc => AllocPids(t);
    case Abandon(slot) => AbandonPids(t, slot);
    case Exit(c) =>
      var i := t.cpus[c];
      assert CpuOk(t.ps, t.cpus, c);
      forall k ensures DiesAt(t.ps, t'.ps, i, k) {
        if 0 <= k < |t.ps| {
          ExitIs(t.ps, t.init, i, k);
        }
      }
      ExitPids(t, t', i);
    case Wait(c) =>
      assert CpuOk(t.ps, t.cpus, c);
      ZombieChildFound(t.ps, t.cpus[c], 0);
      var z := ZombieChild(t.ps, t.cpus[c], 0);
      if z != NONE {
        ReapPids(t, z);
      } else {
        PidsKept(t, op);
      }
    case _ => PidsKept(t, op);
  }

  lemma PidsKept(t: Table, op: Op)
    requires PidInv(t) && CpuInv(t.ps, t.cpus) && Enabled(t, op) && !op.Alloc? && !op.Abandon? && !op.Exit?
    requires op.Wait? ==> ZombieChild(t.ps, t.cpus[op.c], 0) == NONE
    ensures PidInv(Step(t, op))
  {
    var t' := Step(t, op);
    assert (op.Wait? || op.Sleep? || op.Yield?) ==> CpuOk(t.ps, t.cpus, op.c);
    forall i ensures PidSame(t.ps, t'.ps, i) {
    }
    SamePids(t, t');
  }

  lemma AllocApart(t: Table)
    requires PidsApart(t)
    ensures PidsApart(AllocStep(t))
  {
    FirstUnusedFound(t.ps, 0);
    var t' := AllocStep(t);
    forall i ensures PidAt(t', i) {
      assert PidAt(t, i) && PidAt(t, FirstUnused(t.ps, 0));
      forall j | 0 <= j < |t.ps| ensures t.ps[j].pid < t.nextpid {
        assert PidAt(t, j);
      }
    }
  }

  ghost predicate PidOrNone(ps: seq<Proc>, ps': seq<Proc>, i: int)
  {
    0 <= i < |ps| && |ps'| == |ps| ==>
      && (ps'[i].pid == ps[i].pid || (ps'[i].pid == 0 && ps'[i].state == UNUSED))
      && (ps'[i].state != UNUSED ==> ps[i].state != UNUSED)
  }

  lemma SameApart(t: Table, t': Table)
    requires PidsApart(t) && |t'.ps| == |t.ps| && t'.nextpid == t.nextpid
    requires forall i :: PidOrNone(t.ps, t'.ps, i)
    ensures PidsApart(t')
  {
    forall i ensures PidAt(t', i) {
      assert PidAt(t, i) && PidOrNone(t.ps, t'.ps, i);
      forall j | 0 <= j < |t.ps| && 0 <= i < |t.ps| && t'.ps[j].pid == t'.ps[i].pid > 0 ensures j == i {
        assert PidOrNone(t.ps, t'.ps, j);
      }
    }
  }

  lemma StepApart(t: Table, op: Op)
    requires PidsApart(t) && CpuInv(t.ps, t.cpus) && Enabled(t, op)
    ensures PidsApart(Step(t, op))
  {
    var t' := Step(t, op);
    if op.Alloc? {
      AllocApart(t);
    } else {
      if op.Exit? || op.Wait? || op.Sleep? || op.Yield? {
        assert CpuOk(t.ps, t.cpus, op.c);
        ZombieChildFound(t.ps, t.cpus[op.c], 0);
      }
      forall i ensures PidOrNone(t.ps, t'.ps, i) {
        if op.Exit? && 0 <= i < |t.ps| {
          ExitIs(t.ps, t.init, t.cpus[op.c], i);
        }
      }
      SameApart(t, t');
    }
  }

  // ---------- runs ----------

  lemma StepKeeps(t: Table, op: Op)
    requires Inv(t) && Enabled(t, op)
    ensures Inv(Step(t, op))
  {
    hide Step, TreeInv, CpuInv, PidInv, PidsApart;
    StepTree(t, op);
    StepCpus(t, op);
    StepPids(t, op);
    StepApart(t, op);
  }

  // The table when init is about to run for the first time, on ncpu processors.
  function Boot(nproc: nat, ncpu: nat): (t: Table)
    requires nproc > 0
    ensures |t.ps| == nproc && |t.cpus| == ncpu
  {
    Table([Proc(RUNNABLE, 1, NONE, NoChan, false)] + seq(nproc - 1, _ => Proc(UNUSED, 0, NONE, NoChan, false)),
          seq(ncpu, _ => NONE), 2, 0, {}, [])
  }

  lemma BootInv(nproc: nat, ncpu: nat)
    requires nproc > 0
    ensures Inv(Boot(nproc, ncpu))
  {
    var t := Boot(nproc, ncpu);
    forall i ensures SlotOk(t.ps, 0, i) && ZombieOk(t.ps, i) && RunsOk(t.ps, t.cpus, i) && PidOk(t, i) {
    }
    forall c ensures CpuOk(t.ps, t.cpus, c) {
    }
    forall pid ensures ExitOk(t, pid) {
    }
    forall i ensures PidAt(t, i) {
    }
  }

  // A run: steps that cannot be taken are left out.
  function Run(t: Table, ops: seq<Op>): Table
  {
    if ops == [] then t
    else
      var t' := Run(t, ops[..|ops| - 1]);
      if Enabled(t', ops[|ops| - 1]) then Step(t', ops[|ops| - 1]) else t'
  }

  lemma {:induction false} RunInv(t: Table, ops: seq<Op>)
    requires Inv(t)
    ensures Inv(Run(t, ops))
  {
    if ops != [] {
      RunInv(t, ops[..|ops| - 1]);
      var t' := Run(t, ops[..|ops| - 1]);
      if Enabled(t', ops[|ops| - 1]) {
        StepKeeps(t', ops[|ops| - 1]);
      }
    }
  }

  // In every run, whoever sleeps in wait has a child and no zombie child, and no parent is gone.
  lemma NoLostExit(nproc: nat, ncpu: nat, ops: seq<Op>, i: int)
    requires nproc > 0
    ensures var ps := Run(Boot(nproc, ncpu), ops).ps;
            && (Waiting(ps, i) ==> HasChild(ps, i) && forall j :: 0 <= j < |ps| && ps[j].parent == i ==>
                   ps[j].state != ZOMBIE)
            && (0 <= i < |ps| && ps[i].parent != NONE ==> 0 <= ps[i].parent < |ps| && Live(ps[ps[i].parent].state))
  {
    BootInv(nproc, ncpu);
    RunInv(Boot(nproc, ncpu), ops);
    var ps, init := Run(Boot(nproc, ncpu), ops).ps, Run(Boot(nproc, ncpu), ops).init;
    assert SlotOk(ps, init, i);
    forall j | 0 <= j < |ps| && ps[j].parent == i && Waiting(ps, i) ensures ps[j].state != ZOMBIE {
      assert ZombieOk(ps, j);
    }
  }

  // In every run, no process runs on two processors.
  lemma OneCpuEach(nproc: nat, ncpu: nat, ops: seq<Op>, c: int, d: int)
    requires nproc > 0 && 0 <= c < ncpu && 0 <= d < ncpu
    ensures var t := Run(Boot(nproc, ncpu), ops);
            |t.cpus| == ncpu && (c != d && t.cpus[c] == t.cpus[d] ==> t.cpus[c] == NONE)
  {
    BootInv(nproc, ncpu);
    RunInv(Boot(nproc, ncpu), ops);
    SameShape(Boot(nproc, ncpu), ops);
    var t := Run(Boot(nproc, ncpu), ops);
    assert CpuOk(t.ps, t.cpus, c);
  }

  lemma {:induction false} SameShape(t: Table, ops: seq<Op>)
    ensures |Run(t, ops).ps| == |t.ps| && |Run(t, ops).cpus| == |t.cpus|
  {
    if ops != [] {
      SameShape(t, ops[..|ops| - 1]);
    }
  }

  // In every run, a pid returned by wait has exited and is returned once, and one that has exited
  // and was not returned is that of a zombie whose parent is alive and not asleep in wait.
  lemma ReapedOnce(nproc: nat, ncpu: nat, ops: seq<Op>, pid: int)
    requires nproc > 0
    ensures var t := Run(Boot(nproc, ncpu), ops);
            && (pid in t.reaped ==> pid in t.exited)
            && (forall i, j :: 0 <= i < |t.reaped| && 0 <= j < |t.reaped| && t.reaped[i] == t.reaped[j] ==> i == j)
            && (pid in t.exited && pid !in t.reaped ==>
                  exists z ::
                    && 0 <= z < |t.ps| && t.ps[z].pid == pid && t.ps[z].state == ZOMBIE
                    && !Waiting(t.ps, t.ps[z].parent))
  {
    BootInv(nproc, ncpu);
    RunInv(Boot(nproc, ncpu), ops);
    var t := Run(Boot(nproc, ncpu), ops);
    assert ExitOk(t, pid);
    if pid in t.exited && pid !in t.reaped {
      var z :| 0 <= z < |t.ps| && t.ps[z].state == ZOMBIE && t.ps[z].pid == pid;
      assert ZombieOk(t.ps, z);
    }
  }

  // An exit wakes a parent asleep in wait, and its next look at the table returns a child's pid.
  lemma ExitIsSeen(t: Table, c: int)
    requires Inv(t) && Enabled(t, Exit(c)) && Waiting(t.ps, t.ps[t.cpus[c]].parent)
    ensures var i := t.cpus[c]; var p := t.ps[i].parent; var ps' := Step(t, Exit(c)).ps;
            0 <= p < |ps'| && ps'[p].state == RUNNABLE && ZombieChild(ps', p, 0) != NONE
  {
    var i := t.cpus[c];
    var p := t.ps[i].parent;
    var ps' := Step(t, Exit(c)).ps;
    assert SlotOk(t.ps, t.init, i) && CpuOk(t.ps, t.cpus, c);
    ExitIs(t.ps, t.init, i, p);
    ExitIs(t.ps, t.init, i, i);
    ZombieChildFound(ps', p, 0);
    assert ps'[i].parent == p && ps'[i].state == ZOMBIE;
  }

  // ---------- sleep and wakeup over runs ----------

  // No step but wakeup of its channel, or kill of its pid, touches a process asleep on an address.
  lemma SleeperKept(t: Table, op: Op, i: int, a: int)
    requires Inv(t) && Enabled(t, op) && 0 <= i < |t.ps| && t.ps[i].state == SLEEPING && t.ps[i].chan == Other(a)
    requires op != Wakeup(a) && op != Kill(t.ps[i].pid)
    ensures var ps' := Step(t, op).ps; |ps'| == |t.ps| && ps'[i] == t.ps[i].(parent := ps'[i].parent)
  {
    if op.Exit? || op.Wait? || op.Sleep? || op.Yield? {
      assert CpuOk(t.ps, t.cpus, op.c);
    }
    match op
    case Alloc => FirstUnusedFound(t.ps, 0);
    case Exit(c) => ExitIs(t.ps, t.init, t.cpus[c], i);
    case Wait(c) => ZombieChildFound(t.ps, t.cpus[c], 0);
    case Kill(pid) => WithPidFound(t.ps, pid, 0);
    case _ =>
  }

  lemma {:induction false} WithPidFound(ps: seq<Proc>, pid: int, k: nat)
    ensures var r := WithPid(ps, pid, k);
            if r == NONE then forall j :: k <= j < |ps| ==> ps[j].pid != pid
            else ps[r].pid == pid && forall j :: k <= j < r ==> ps[j].pid != pid
    decreases |ps| - k
  {
    if k < |ps| {
      WithPidFound(ps, pid, k + 1);
    }
  }

  // kill finds the process with the pid, marks it and leaves it awake, and changes no other.
  lemma KillHits(t: Table, i: int)
    requires Inv(t) && 0 <= i < |t.ps| && t.ps[i].state != UNUSED
    ensures var ps' := Step(t, Kill(t.ps[i].pid)).ps;
            && |ps'| == |t.ps| && ps'[i].killed && ps'[i].state != SLEEPING
            && ps'[i] == t.ps[i].(killed := true, state := ps'[i].state)
            && (t.ps[i].state == SLEEPING ==> ps'[i].state == RUNNABLE)
            && (t.ps[i].state != SLEEPING ==> ps'[i].state == t.ps[i].state)
            && forall k :: 0 <= k < |t.ps| && k != i ==> ps'[k] == t.ps[k]
  {
    WithPidFound(t.ps, t.ps[i].pid, 0);
    assert PidAt(t, i);
  }

  // A process that goes to sleep on an address stays asleep on it, whatever runs, until the first
  // wakeup of the address or kill of the process, and is RUNNABLE right after it.
  lemma {:induction false} SleepLasts(t: Table, c: int, a: int, ops: seq<Op>)
    requires Inv(t) && Current(t, c) != NONE
    requires Wakeup(a) !in ops && Kill(t.ps[t.cpus[c]].pid) !in ops
    ensures var i := t.cpus[c]; var t' := Run(Step(t, Sleep(c, a)), ops);
            && Inv(t') && i < |t'.ps|
            && t'.ps[i] == t.ps[i].(state := SLEEPING, chan := Other(a), parent := t'.ps[i].parent)
            && |Step(t', Wakeup(a)).ps| == |Step(t', Kill(t.ps[i].pid)).ps| == |t'.ps|
            && Step(t', Wakeup(a)).ps[i] == t'.ps[i].(state := RUNNABLE)
            && Step(t', Kill(t.ps[i].pid)).ps[i] == t'.ps[i].(state := RUNNABLE, killed := true)
  {
    var i := t.cpus[c];
    var t1 := Step(t, Sleep(c, a));
    var t' := Run(t1, ops);
    StepKeeps(t, Sleep(c, a));
    RunInv(t1, ops);
    if ops != [] {
      var op := ops[|ops| - 1];
      SleepLasts(t, c, a, ops[..|ops| - 1]);
      var mid := Run(t1, ops[..|ops| - 1]);
      if Enabled(mid, op) {
        SleeperKept(mid, op, i, a);
      }
    }
    KillHits(t', i);
  }

  // A RUNNABLE process stays so until a processor takes it, and keeps its pid and its mark.
  lemma {:induction false} RunnableLasts(t: Table, i: int, ops: seq<Op>)
    requires Inv(t) && 0 <= i < |t.ps| && t.ps[i].state == RUNNABLE
    requires forall c :: Schedule(c, i) !in ops
    ensures var t' := Run(t, ops);
            && |t'.ps| == |t.ps| && t'.ps[i].state == RUNNABLE && t'.ps[i].pid == t.ps[i].pid
            && (t.ps[i].killed ==> t'.ps[i].killed)
            && (t'.ps[i].killed ==> t.ps[i].killed || Kill(t.ps[i].pid) in ops)
  {
    if ops != [] {
      var op := ops[|ops| - 1];
      forall c ensures Schedule(c, i) !in ops[..|ops| - 1] {
        assert Schedule(c, i) !in ops;
      }
      RunnableLasts(t, i, ops[..|ops| - 1]);
      RunInv(t, ops[..|ops| - 1]);
      var mid := Run(t, ops[..|ops| - 1]);
      if Enabled(mid, op) {
        assert op.Schedule? ==> op != Schedule(op.c, i);
        RunnableKept(mid, op, i);
      }
    }
  }

  lemma RunnableKept(t: Table, op: Op, i: int)
    requires Inv(t) && Enabled(t, op) && 0 <= i < |t.ps| && t.ps[i].state == RUNNABLE
    requires !(op.Schedule? && op.slot == i)
    ensures var ps' := Step(t, op).ps;
            && |ps'| == |t.ps| && ps'[i].state == RUNNABLE && ps'[i].pid == t.ps[i].pid
            && ps'[i].killed == (t.ps[i].killed || op == Kill(t.ps[i].pid))
  {
    if op.Exit? || op.Wait? || op.Sleep? || op.Yield? {
      assert CpuOk(t.ps, t.cpus, op.c);
    }
    match op
    case Alloc => FirstUnusedFound(t.ps, 0);
    case Exit(c) => ExitIs(t.ps, t.init, t.cpus[c], i);
    case Wait(c) => ZombieChildFound(t.ps, t.cpus[c], 0);
    case Kill(pid) =>
      WithPidFound(t.ps, pid, 0);
      assert PidAt(t, i);
    case _ =>
  }

  // ---------- who is marked as killed ----------

  ghost predicate Unmarked(ps: seq<Proc>, i: int)
  {
    0 <= i < |ps| && ps[i].state == UNUSED ==> !ps[i].killed
  }

  ghost predicate NoMarks(t: Table)
  {
    forall i :: Unmarked(t.ps, i)
  }

  // kill of a pid that a slot not in use has, 0 for one; or a fork that gives up an EMBRYO already killed.
  ghost predicate Strays(t: Table, op: Op)
  {
    || (op.Kill? && exists k :: 0 <= k < |t.ps| && t.ps[k].state == UNUSED && t.ps[k].pid == op.pid)
    || (op.Abandon? && 0 <= op.slot < |t.ps| && t.ps[op.slot].killed)
  }

  // Exactly these steps leave a mark on a slot that is not in use.
  lemma MarksKept(t: Table, op: Op)
    requires Inv(t) && Enabled(t, op) && NoMarks(t)
    ensures NoMarks(Step(t, op)) <==> !Strays(t, op)
  {
    var t' := Step(t, op);
    match op
    case Kill(pid) => KillMarks(t, pid);
    case Abandon(slot) =>
      assert Strays(t, op) ==> !Unmarked(t'.ps, slot);
      forall i | !Strays(t, op) ensures Unmarked(t'.ps, i) {
        assert Unmarked(t.ps, i);
      }
    case _ =>
      forall i ensures Unmarked(t'.ps, i) {
        assert Unmarked(t.ps, i);
        StillUnmarked(t, op, i);
      }
  }

  lemma KillMarks(t: Table, pid: int)
    requires Inv(t) && NoMarks(t)
    ensures NoMarks(Step(t, Kill(pid))) <==> !Strays(t, Kill(pid))
  {
    var t', r := Step(t, Kill(pid)), WithPid(t.ps, pid, 0);
    WithPidFound(t.ps, pid, 0);
    if Strays(t, Kill(pid)) {
      var k :| 0 <= k < |t.ps| && t.ps[k].state == UNUSED && t.ps[k].pid == pid;
      assert PidAt(t, r) && PidAt(t, k) && !Unmarked(t'.ps, r);
    } else {
      forall i ensures Unmarked(t'.ps, i) {
        assert Unmarked(t.ps, i);
      }
    }
  }

  lemma StillUnmarked(t: Table, op: Op, i: int)
    requires Inv(t) && Enabled(t, op) && Unmarked(t.ps, i) && !op.Kill? && !op.Abandon?
    ensures Unmarked(Step(t, op).ps, i)
  {
    if op.Exit? || op.Wait? || op.Sleep? || op.Yield? {
      assert CpuOk(t.ps, t.cpus, op.c);
    }
    match op
    case Alloc => FirstUnusedFound(t.ps, 0);
    case Exit(c) =>
      if 0 <= i < |t.ps| {
        ExitIs(t.ps, t.init, t.cpus[c], i);
      }
    case Wait(c) => ZombieChildFound(t.ps, t.cpus[c], 0);
    case _ =>
  }

  ghost predicate NeverStrays(t: Table, ops: seq<Op>)
  {
    forall i :: 0 <= i < |ops| && Enabled(Run(t, ops[..i]), ops[i]) ==> !Strays(Run(t, ops[..i]), ops[i])
  }

  // A marked process has been killed by its pid.
  ghost predicate MarkOk(t: Table, ops: seq<Op>, i: int)
  {
    0 <= i < |t.ps| && t.ps[i].killed ==> t.ps[i].state != UNUSED && Kill(t.ps[i].pid) in ops
  }

  // So in every run without them a process is marked only by a kill of its own pid.
  lemma {:induction false} MarkedByKill(nproc: nat, ncpu: nat, ops: seq<Op>)
    requires nproc > 0 && NeverStrays(Boot(nproc, ncpu), ops)
    ensures var t := Run(Boot(nproc, ncpu), ops); NoMarks(t) && forall i :: MarkOk(t, ops, i)
  {
    hide Step, Enabled, Inv, Strays, NoMarks, Boot;
    var boot := Boot(nproc, ncpu);
    BootInv(nproc, ncpu);
    if ops == [] {
      BootMarks(nproc, ncpu);
    } else {
      var front, op := ops[..|ops| - 1], ops[|ops| - 1];
      assert forall i :: 0 <= i < |front| ==> front[..i] == ops[..i] && front[i] == ops[i];
      MarkedByKill(nproc, ncpu, front);
      RunInv(boot, front);
      var t := Run(boot, front);
      if Enabled(t, op) {
        MarksKept(t, op);
      }
      forall i ensures MarkOk(Run(boot, ops), ops, i) {
        assert MarkOk(t, front, i);
        if Enabled(t, op) {
          MarkStep(t, op, front, i);
        }
        assert ops == front + [op];
      }
    }
  }

  lemma BootMarks(nproc: nat, ncpu: nat)
    requires nproc > 0
    ensures var t := Boot(nproc, ncpu); NoMarks(t) && forall i :: MarkOk(t, [], i)
  {
    var t := Boot(nproc, ncpu);
    forall i ensures Unmarked(t.ps, i) && MarkOk(t, [], i) {
    }
  }

  lemma MarkStep(t: Table, op: Op, front: seq<Op>, i: int)
    requires Inv(t) && Enabled(t, op) && NoMarks(t) && !Strays(t, op) && MarkOk(t, front, i)
    ensures MarkOk(Step(t, op), front + [op], i)
  {
    var t' := Step(t, op);
    MarksKept(t, op);
    assert Unmarked(t'.ps, i);
    if op.Exit? || op.Wait? || op.Sleep? || op.Yield? {
      assert CpuOk(t.ps, t.cpus, op.c);
    }
    match op
    case Alloc =>
      FirstUnusedFound(t.ps, 0);
      assert Unmarked(t.ps, i);
    case Exit(c) =>
      if 0 <= i < |t.ps| {
        ExitIs(t.ps, t.init, t.cpus[c], i);
      }
    case Wait(c) => ZombieChildFound(t.ps, t.cpus[c], 0);
    case Kill(pid) => WithPidFound(t.ps, pid, 0);
    case _ =>
  }

  // With such a step a process can start out killed: init kills pid 0 and then forks.
  lemma BornKilled()
    ensures var t := Run(Boot(2, 1), [Schedule(0, 0), Kill(0), Alloc, Adopt(0, 1), Launch(1)]);
            |t.ps| == 2 && t.ps[1] == Proc(RUNNABLE, 2, 0, NoChan, true)
  {
    hide Run;
    var t0 := Boot(2, 1);
    var ops := [Schedule(0, 0), Kill(0), Alloc, Adopt(0, 1), Launch(1)];
    assert t0.ps == [Proc(RUNNABLE, 1, NONE, NoChan, false), Proc(UNUSED, 0, NONE, NoChan, false)];
    var t1 := Step(t0, Schedule(0, 0));
    assert WithPid(t1.ps, 0, 0) == WithPid(t1.ps, 0, 1) == 1;
    var t2 := Step(t1, Kill(0));
    assert FirstUnused(t2.ps, 0) == FirstUnused(t2.ps, 1) == 1;
    var t3 := Step(t2, Alloc);
    var t4 := Step(t3, Adopt(0, 1));
    RunNone(t0);
    assert ops[..0] == [];
    RunOne(t0, ops, 1, t0, t1);
    RunOne(t0, ops, 2, t1, t2);
    RunOne(t0, ops, 3, t2, t3);
    RunOne(t0, ops, 4, t3, t4);
    RunOne(t0, ops, 5, t4, Step(t4, Launch(1)));
    assert ops[..5] == ops;
  }

  lemma RunNone(t: Table)
    ensures Run(t, []) == t
  {
  }

  lemma RunOne(t: Table, ops: seq<Op>, n: nat, a: Table, b: Table)
    requires 0 < n <= |ops| && Run(t, ops[..n - 1]) == a && Enabled(a, ops[n - 1]) && Step(a, ops[n - 1]) == b
    ensures Run(t, ops[..n]) == b
  {
    assert ops[..n][..n - 1] == ops[..n - 1];
  }
}
