/**
  The thread table of uthread.c and its round-robin choice of the next thread. Stacks and the
  switch between them are not part of the model.
 */
module Uthread {
  const MAX_UTHREADS: int := 64

  // A null pointer, a thread, or a pointer to a thread that has been freed.
  datatype Slot = Free | Thread(tid: int, priority: int) | Dangling

  // How many slots beyond a, going round, b is.
  function Dist(a: int, b: int): (d: int)
  {
    if a <= b then b - a else b - a + MAX_UTHREADS
  }

  function Count(ts: seq<Slot>): nat
  {
    if ts == [] then 0 else Count(ts[..|ts| - 1]) + if ts[|ts| - 1].Free? then 0 else 1
  }

  lemma {:induction false} CountUpdate(ts: seq<Slot>, i: int, s: Slot)
    requires 0 <= i < |ts|
    ensures Count(ts[i := s]) == Count(ts) - (if ts[i].Free? then 0 else 1) + (if s.Free? then 0 else 1)
  {
    var n := |ts| - 1;
    if i < n {
      assert ts[i := s][..n] == ts[..n][i := s];
      CountUpdate(ts[..n], i, s);
    } else {
      assert ts[i := s][..n] == ts[..n];
    }
  }

  lemma {:induction false} CountAll(ts: seq<Slot>)
    ensures Count(ts) <= |ts|
    ensures Count(ts) == |ts| <==> forall i :: 0 <= i < |ts| ==> !ts[i].Free?
    ensures Count(ts) == 0 <==> forall i :: 0 <= i < |ts| ==> ts[i].Free?
  {
    if ts != [] {
      CountAll(ts[..|ts| - 1]);
      assert forall i :: 0 <= i < |ts| - 1 ==> ts[..|ts| - 1][i] == ts[i];
    }
  }

  // The first slot in use from start on, going round.
  ghost predicate FirstFrom(ts: seq<Slot>, start: int, r: int)
  {
    && 0 <= r < |ts| && !ts[r].Free?
    && forall j :: 0 <= j < |ts| && !ts[j].Free? ==> Dist(start, r) <= Dist(start, j)
  }

  // Every slot is empty or holds the thread with its number.
  ghost predicate Sound(ts: seq<Slot>)
  {
    |ts| == MAX_UTHREADS && forall i :: 0 <= i < |ts| ==> ts[i].Free? || (ts[i].Thread? && ts[i].tid == i)
  }

  // p is the least priority value of a thread, or 9 if none is below that.
  ghost predicate Highest(ts: seq<Slot>, p: int)
  {
    && p <= 9 && (forall i :: 0 <= i < |ts| && ts[i].Thread? ==> p <= ts[i].priority)
    && (p == 9 || exists i :: 0 <= i < |ts| && ts[i].Thread? && p == ts[i].priority)
  }

  // Whoever is not chosen is closer to being chosen than before.
  lemma Closer(ts: seq<Slot>, was: int, now: int, j: int)
    requires |ts| == MAX_UTHREADS && 0 <= was < MAX_UTHREADS && FirstFrom(ts, (was + 1) % MAX_UTHREADS, now)
    requires 0 <= j < MAX_UTHREADS && !ts[j].Free? && j != was
    ensures j != now ==> 0 < Dist(now, j) < Dist(was, j)
    ensures j == now ==> Dist(now, j) == 0
  {
    assert Dist((was + 1) % MAX_UTHREADS, now) <= Dist((was + 1) % MAX_UTHREADS, j);
  }

  // ---------- runs ----------

  datatype Op = Yield | Exit | Create(slot: int)

  // How a step may change the table and the running thread.
  ghost predicate Step(ts: seq<Slot>, run: int, op: Op, ts': seq<Slot>, run': int)
  {
    |ts| == MAX_UTHREADS == |ts'| && 0 <= run < MAX_UTHREADS &&
    match op
    case Yield => ts' == ts && FirstFrom(ts, (run + 1) % MAX_UTHREADS, run')
    case Exit => ts' == ts[run := Free] && FirstFrom(ts', (run + 1) % MAX_UTHREADS, run')
    case Create(slot) =>
      && run' == run && 0 <= slot < MAX_UTHREADS && ts[slot].Free? && !ts'[slot].Free?
      && ts' == ts[slot := ts'[slot]]
  }

  // A run through the given tables and running threads.
  ghost predicate Run(tables: seq<seq<Slot>>, runs: seq<int>, ops: seq<Op>)
  {
    && |tables| == |runs| == |ops| + 1
    && forall i :: 0 <= i < |ops| ==> Step(tables[i], runs[i], ops[i], tables[i + 1], runs[i + 1])
  }

  function Switches(ops: seq<Op>): nat
  {
    if ops == [] then 0 else (if ops[0].Create? then 0 else 1) + Switches(ops[1..])
  }

  lemma StepCloser(ts: seq<Slot>, run: int, op: Op, ts': seq<Slot>, run': int, j: int)
    requires Step(ts, run, op, ts', run') && 0 <= j < MAX_UTHREADS && !ts[j].Free? && j != run
    ensures !ts'[j].Free? && 0 <= run' < MAX_UTHREADS
    ensures op.Create? ==> run' == run
    ensures !op.Create? && run' != j ==> Dist(run', j) < Dist(run, j)
  {
    if !op.Create? {
      Closer(ts', run, run', j);
    }
  }

  // A waiting thread runs before as many switches have happened as it is slots away.
  lemma {:induction false} RunsWithin(tables: seq<seq<Slot>>, runs: seq<int>, ops: seq<Op>, j: int)
    requires Run(tables, runs, ops) && |tables[0]| == MAX_UTHREADS && 0 <= runs[0] < MAX_UTHREADS
    requires 0 <= j < MAX_UTHREADS && !tables[0][j].Free?
    requires Switches(ops) >= Dist(runs[0], j)
    ensures j in runs
    decreases |ops|
  {
    if runs[0] != j {
      assert Dist(runs[0], j) > 0;
      assert Step(tables[0], runs[0], ops[0], tables[1], runs[1]);
      StepCloser(tables[0], runs[0], ops[0], tables[1], runs[1], j);
      if runs[1] != j {
        RunsWithin(tables[1..], runs[1..], ops[1..], j);
      }
    }
  }

  // So within 63 switches, whatever is created in between.
  lemma Fair(tables: seq<seq<Slot>>, runs: seq<int>, ops: seq<Op>, j: int)
    requires Run(tables, runs, ops) && |tables[0]| == MAX_UTHREADS && 0 <= runs[0] < MAX_UTHREADS
    requires 0 <= j < MAX_UTHREADS && !tables[0][j].Free?
    requires Switches(ops) >= MAX_UTHREADS - 1
    ensures j in runs
  {
    RunsWithin(tables, runs, ops, j);
  }

  // ---------- the table ----------

  class Table {
    var threads: seq<Slot>
    var curThreads: int
    var highestP: int
    var runningTid: int
    var first: bool

    ghost predicate Valid()
      reads this
    {
      !first ==>
        && Sound(threads) && curThreads == Count(threads)
        && (runningTid == -1 || (0 <= runningTid < MAX_UTHREADS && threads[runningTid].Thread?))
    }

    constructor ()
      ensures first && Valid()
    {
      threads, curThreads, highestP, runningTid, first := [], 0, 0, 0, true;
    }

    method Initialize()
      modifies this
      ensures !first && threads == seq(MAX_UTHREADS, _ => Free) && curThreads == 0 && highestP == 9 && runningTid == -1
      ensures Valid()
    {
      curThreads, highestP, runningTid := 0, 9, -1;
      threads := seq(MAX_UTHREADS, _ => Free);
      first := false;
      CountAll(threads);
    }

    // The lowest free slot.
    method FreeSlot() returns (id: int)
      requires Valid() && !first && curThreads != MAX_UTHREADS
      ensures 0 <= id < MAX_UTHREADS && threads[id].Free? && forall k :: 0 <= k < id ==> !threads[k].Free?
    {
      CountAll(threads);
      id := 0;
      while id < MAX_UTHREADS
        invariant 0 <= id <= MAX_UTHREADS && forall k :: 0 <= k < id ==> !threads[k].Free?
      {
        if threads[id].Free? {
          return;
        }
        id := id + 1;
      }
    }

    // Make a thread; got and gotStack say whether the two mallocs succeed.
    method Create(priority: int, got: bool, gotStack: bool) returns (id: int)
      requires Valid()
      modifies this
      ensures !first
      ensures var was := if old(first) then seq(MAX_UTHREADS, _ => Free) else old(threads);
              var full := !old(first) && old(curThreads) == MAX_UTHREADS;
              && |was| == MAX_UTHREADS
              && (Valid() <==> full || !got || gotStack)
              && (id == -1 <==> full || !got || !gotStack)
              && (full || !got ==> threads == was)
              && (id != -1 ==>
                    && 0 <= id < MAX_UTHREADS && was[id].Free? && threads == was[id := Thread(id, priority)]
                    && (forall k :: 0 <= k < id ==> !was[k].Free?)
                    && curThreads == Count(was) + 1
                    && highestP == (if priority < (if old(first) then 9 else old(highestP)) then priority
                                    else if old(first) then 9 else old(highestP)))
              && (id == -1 ==> curThreads == Count(was) && highestP == if old(first) then 9 else old(highestP))
              && (!full && got && !gotStack ==>
                     exists k :: 0 <= k < MAX_UTHREADS && was[k].Free? && threads == was[k := Dangling])
      ensures runningTid == if old(first) then -1 else old(runningTid)
    {
      if first {
        Initialize();
      }
      if curThreads == MAX_UTHREADS {
        CountAll(threads);
        return -1;
      }
      id := FreeSlot();
      if !got {
        return -1;
      }
      if !gotStack {
        threads := threads[id := Dangling];
        assert threads[id].Dangling?;
        return -1;
      }
      CountUpdate(threads, id, Thread(id, priority));
      threads := threads[id := Thread(id, priority)];
      curThreads := curThreads + 1;
      if highestP > priority {
        highestP := priority;
      }
    }

    // The first thread from start on, going round. The loop ends because there is one.
    method NextThread(start: int) returns (next: int)
      requires !first && Sound(threads) && 0 <= start < MAX_UTHREADS && Count(threads) > 0
      ensures FirstFrom(threads, start, next) && threads[next].tid == next
    {
      CountAll(threads);
      ghost var j :| 0 <= j < MAX_UTHREADS && !threads[j].Free?;
      next := start;
      ghost var passed := 0;
      while threads[next].Free?
        invariant 0 <= next < MAX_UTHREADS && 0 <= passed <= Dist(start, j)
        invariant next == (start + passed) % MAX_UTHREADS && passed == Dist(start, next)
        invariant forall k :: 0 <= k < MAX_UTHREADS && !threads[k].Free? ==> passed <= Dist(start, k)
        decreases Dist(start, j) - passed
      {
        Passing(threads, start, next, passed, j);
        next := (next + 1) % MAX_UTHREADS;
        passed := passed + 1;
      }
    }

    method Yield()
      requires Valid() && !first && runningTid != -1
      modifies this`runningTid
      ensures Valid() && Step(threads, old(runningTid), Op.Yield, threads, runningTid)
    {
      CountAll(threads);
      runningTid := NextThread((threads[runningTid].tid + 1) % MAX_UTHREADS);
    }

    method GetHighestP() returns (p: int)
      requires !first && Sound(threads)
      ensures Highest(threads, p)
    {
      p := 9;
      var i := 0;
      while i < MAX_UTHREADS
        invariant 0 <= i <= MAX_UTHREADS && p <= 9
        invariant forall k :: 0 <= k < i && threads[k].Thread? ==> p <= threads[k].priority
        invariant p == 9 || exists k :: 0 <= k < i && threads[k].Thread? && p == threads[k].priority
      {
        if !threads[i].Free? && threads[i].priority < p {
          p := threads[i].priority;
        }
        i := i + 1;
      }
    }

    // The running thread ends; done when it was the last one.
    method Exit() returns (done: bool)
      requires Valid() && !first && runningTid != -1
      modifies this
      ensures !first && threads == old(threads)[old(runningTid) := Free]
      ensures done <==> forall i :: 0 <= i < MAX_UTHREADS ==> threads[i].Free?
      ensures !done ==> Valid() && Step(old(threads), old(runningTid), Op.Exit, threads, runningTid)
      ensures Highest(threads, highestP) && curThreads == Count(threads)
    {
      var self := threads[runningTid].tid;
      CountUpdate(threads, self, Free);
      threads := threads[self := Free];
      curThreads := curThreads - 1;
      highestP := GetHighestP();
      CountAll(threads);
      if curThreads == 0 {
        return true;
      }
      runningTid := NextThread((self + 1) % MAX_UTHREADS);
      return false;
    }

    // Start the first thread, unless there is none or one runs already.
    method StartAll() returns (ok: bool)
      requires Valid()
      modifies this`runningTid
      ensures ok <==> !first && Count(threads) > 0 && old(runningTid) == -1
      ensures ok ==> Valid() && FirstFrom(threads, 0, runningTid)
      ensures !ok ==> runningTid == old(runningTid)
    {
      if first || curThreads == 0 || runningTid != -1 {
        return false;
      }
      runningTid := NextThread(0);
      return true;
    }
  }

  lemma Passing(ts: seq<Slot>, start: int, next: int, passed: int, j: int)
    requires |ts| == MAX_UTHREADS && 0 <= start < MAX_UTHREADS && 0 <= next < MAX_UTHREADS
    requires 0 <= j < MAX_UTHREADS && !ts[j].Free? && ts[next].Free?
    requires next == (start + passed) % MAX_UTHREADS && passed == Dist(start, next)
    requires forall k :: 0 <= k < MAX_UTHREADS && !ts[k].Free? ==> passed <= Dist(start, k)
    ensures forall k :: 0 <= k < MAX_UTHREADS && !ts[k].Free? ==> passed + 1 <= Dist(start, k)
    ensures (next + 1) % MAX_UTHREADS == (start + passed + 1) % MAX_UTHREADS
    ensures passed + 1 == Dist(start, (next + 1) % MAX_UTHREADS)
  {
    forall k | 0 <= k < MAX_UTHREADS && !ts[k].Free? ensures passed + 1 <= Dist(start, k) {
      assert k != next;
    }
  }
}
