/**
  Two runs of IcacheSpec that end in a panic: the lookup of ".." in a removed directory whose parent
  is gone, and the iput of a removed working directory outside a transaction.
 */
module IcacheRuns {
  import opened IcacheSpec
  import L = LinkSpec

  // The root and, in it, the directory p, 2, with the directory d, 3.
  function TwoDown(): L.Fs
  {
    map[1 := Folder(2, 1, 1, L.Entry("p", 2)), 2 := Folder(2, 2, 1, L.Entry("d", 3)),
        3 := L.Inode(L.Dir, 1, [L.Entry(".", 3), L.Entry("..", 2)])]
  }

  function Folder(nlink: int, self: int, up: int, e: L.Entry): L.Inode
  {
    L.Inode(L.Dir, nlink, [L.Entry(".", self), L.Entry("..", up), e])
  }

  // d unlinked; p unlinked too.
  function OneGone(): L.Fs
  {
    map[1 := Folder(2, 1, 1, L.Entry("p", 2)), 2 := Folder(1, 2, 1, L.EMPTY),
        3 := L.Inode(L.Dir, 0, [L.Entry(".", 3), L.Entry("..", 2)])]
  }

  function BothGone(): L.Fs
  {
    map[1 := Folder(1, 1, 1, L.EMPTY), 2 := Folder(0, 2, 1, L.EMPTY),
        3 := L.Inode(L.Dir, 0, [L.Entry(".", 3), L.Entry("..", 2)])]
  }

  function Shape(): L.Shape
  {
    L.Shape(map[2 := (1, 2), 3 := (2, 2)], map[1 := 0, 2 := 1, 3 := 2])
  }

  lemma TwoDownBootable()
    ensures Bootable(TwoDown(), Shape())
  {
    var fs0 := map[L.ROOT := L.Inode(L.Dir, 1, [L.Entry(".", L.ROOT), L.Entry("..", L.ROOT)])];
    var t0 := L.Shape(map[], map[L.ROOT := 0]);
    L.RootAlone();
    L.CreateKeeps(fs0, t0, 1, 2, "p", 2, L.Dir);
    var fs1, t1 := L.CreateStep(fs0, 1, 2, "p", 2, L.Dir), L.CreateShape(t0, 1, 2, 2, L.Dir);
    assert fs1[1].entries == Folder(2, 1, 1, L.Entry("p", 2)).entries;
    assert L.Absent(fs1, 2, "d");
    L.CreateKeeps(fs1, t1, 2, 2, "d", 3, L.Dir);
    assert L.CreateStep(fs1, 2, 2, "d", 3, L.Dir)[2].entries == TwoDown()[2].entries;
    assert L.CreateStep(fs1, 2, 2, "d", 3, L.Dir) == TwoDown();
    assert L.CreateShape(t1, 2, 2, 3, L.Dir) == Shape();
  }

  lemma Unlinked()
    ensures L.UnlinkStep(TwoDown(), 2, 2) == OneGone() && L.UnlinkStep(OneGone(), 1, 2) == BothGone()
  {
    assert L.UnlinkStep(TwoDown(), 2, 2)[2].entries == OneGone()[2].entries;
    assert L.UnlinkStep(OneGone(), 1, 2)[1].entries == BothGone()[1].entries;
  }

  // A run of process 7 from boot, and where it leads.
  datatype Trace = Trace(ops: seq<Op>, t: State)

  ghost predicate Reached(p: Trace)
  {
    Run(Boot(3, TwoDown(), Shape()), p.ops) == p.t && |p.t.slots| == |p.t.users| == 3
  }

  lemma Then(p: Trace, op: Op, t: State) returns (q: Trace)
    requires Reached(p) && Enabled(p.t, op) && Step(p.t, op) == t && |t.slots| == |t.users| == 3
    ensures Reached(q) && q.t == t && q.ops == p.ops + [op]
  {
    q := Trace(p.ops + [op], t);
    assert q.ops[..|p.ops|] == p.ops;
  }

  function At3(slots: seq<Slot>, users: seq<Users>, fs: L.Fs, busy: bool): State
  {
    State(slots, users, fs, Shape(), {}, map[], busy, Running)
  }

  const UNUSED: Slot := Slot(0, 0, false, false, Free)
  const NOBODY: Users := Users(multiset{}, NONE, Normal)
  const HELD: Users := Users(multiset{7}, NONE, Normal)
  const LOCKED: Users := Users(multiset{7}, 7, Normal)
  const TWICE: Users := Users(multiset{7, 7}, NONE, Normal)

  // The slot of a directory: not read yet; read; locked.
  function Fetched(inum: int, din: Copy): Slot
  {
    Slot(1, inum, false, false, din)
  }

  function Kept(ref: int, inum: int, nlink: int): Slot
  {
    Slot(ref, inum, false, true, Alloc(L.Dir, nlink))
  }

  function Taken(ref: int, inum: int, nlink: int): Slot
  {
    Kept(ref, inum, nlink).(busy := true)
  }

  // ---------- steps ----------

  lemma Start() returns (p: Trace)
    ensures Reached(p) && p.t == At3([UNUSED, UNUSED, UNUSED], [NOBODY, NOBODY, NOBODY], TwoDown(), false)
  {
    p := Trace([], Boot(3, TwoDown(), Shape()));
  }

  // iget of an inode that is in no slot: slot k is the first free one.
  lemma Fetch(p: Trace, op: Op, k: int, i: int) returns (q: Trace)
    requires Reached(p) && Enabled(p.t, op) && (op.GetRoot? || op.Lookup?) && op.pid == 7 && i == Target(p.t, op)
    requires In(p.t, k) && p.t.slots[k].ref == 0 && forall j :: 0 <= j < k ==> p.t.slots[j].ref > 0
    requires forall j :: 0 <= j < 3 ==> p.t.slots[j].inum != i || p.t.slots[j].ref == 0
    ensures Reached(q) && q.t == With(p.t, k, Fetched(i, p.t.slots[k].din), HELD)
  {
    CachedFound(p.t.slots, i, 0);
    FirstIs(p.t.slots, 0, k);
    q := Then(p, op, With(p.t, k, Fetched(i, p.t.slots[k].din), HELD));
  }

  lemma {:induction false} FirstIs(x: seq<Slot>, from: nat, k: nat)
    requires from <= k < |x| && x[k].ref == 0 && forall j :: from <= j < k ==> x[j].ref > 0
    ensures FirstFree(x, from) == k
    decreases k - from
  {
    if from < k {
      FirstIs(x, from + 1, k);
    }
  }

  // iget of the inode in slot 0.
  lemma Again(p: Trace, op: Op, i: int, n: int) returns (q: Trace)
    requires Reached(p) && Enabled(p.t, op) && op.Lookup? && op.pid == 7 && i == Target(p.t, op)
    requires p.t.slots[0] == Kept(1, i, n) && p.t.users[0] == HELD
    ensures Reached(q) && q.t == With(p.t, 0, Kept(2, i, n), TWICE)
  {
    assert multiset{7} + multiset{7} == multiset{7, 7};
    q := Then(p, op, With(p.t, 0, Kept(2, i, n), TWICE));
  }

  // idup of the inode in slot 0.
  lemma Twice(p: Trace, i: int, n: int) returns (q: Trace)
    requires Reached(p) && p.t.stop == Running && p.t.slots[0] == Kept(1, i, n) && p.t.users[0] == HELD
    ensures Reached(q) && q.t == With(p.t, 0, Kept(2, i, n), TWICE)
  {
    assert multiset{7} + multiset{7} == multiset{7, 7};
    q := Then(p, Dup(7, 0, 7), With(p.t, 0, Kept(2, i, n), TWICE));
  }

  // ilock for the first time.
  lemma Read(p: Trace, k: int) returns (q: Trace)
    requires Reached(p) && p.t.stop == Running && In(p.t, k) && p.t.users[k] == HELD
    requires p.t.slots[k] == Fetched(p.t.slots[k].inum, p.t.slots[k].din)
    requires p.t.slots[k].inum in p.t.fs && p.t.fs[p.t.slots[k].inum].kind == L.Dir
    ensures var i := p.t.slots[k].inum; Reached(q) && q.t == With(p.t, k, Taken(1, i, p.t.fs[i].nlink), LOCKED)
  {
    var i := p.t.slots[k].inum;
    q := Then(p, Lock(7, k), With(p.t, k, Taken(1, i, p.t.fs[i].nlink), LOCKED));
  }

  lemma Relock(p: Trace, k: int) returns (q: Trace)
    requires Reached(p) && p.t.stop == Running && In(p.t, k) && (p.t.users[k] == HELD || p.t.users[k] == TWICE)
    requires p.t.slots[k].valid && !p.t.slots[k].busy
    ensures Reached(q) && q.t == With(p.t, k, p.t.slots[k].(busy := true), p.t.users[k].(owner := 7))
  {
    q := Then(p, Lock(7, k), With(p.t, k, p.t.slots[k].(busy := true), p.t.users[k].(owner := 7)));
  }

  lemma Release(p: Trace, k: int) returns (q: Trace)
    requires Reached(p) && p.t.stop == Running && Locked(p.t, 7, k)
    ensures Reached(q) && q.t == With(p.t, k, p.t.slots[k].(busy := false), p.t.users[k].(owner := NONE))
  {
    q := Then(p, Unlock(7, k), With(p.t, k, p.t.slots[k].(busy := false), p.t.users[k].(owner := NONE)));
  }

  // iput that does not free.
  lemma Drop(p: Trace, k: int) returns (q: Trace)
    requires Reached(p) && p.t.stop == Running && In(p.t, k) && !Frees(p.t.slots[k])
    requires p.t.users[k] == HELD || p.t.users[k] == TWICE
    ensures Reached(q)
    ensures q.t == With(p.t, k, p.t.slots[k].(ref := p.t.slots[k].ref - 1), if p.t.users[k] == HELD then NOBODY
            else HELD)
  {
    assert multiset{7} - multiset{7} == multiset{} && multiset{7, 7} - multiset{7} == multiset{7};
    var v := if p.t.users[k] == HELD then NOBODY else HELD;
    q := Then(p, Put(7, k), With(p.t, k, p.t.slots[k].(ref := p.t.slots[k].ref - 1), v));
  }

  // iput of the last reference to an inode without links sets out to free it.
  lemma Last(p: Trace, k: int) returns (q: Trace)
    requires Reached(p) && p.t.stop == Running && In(p.t, k) && Frees(p.t.slots[k]) && !p.t.slots[k].busy
    requires p.t.users[k] == HELD
    ensures Reached(q) && q.t == With(p.t, k, p.t.slots[k].(busy := true), Users(multiset{7}, 7, Freeing))
  {
    q := Then(p, Put(7, k), With(p.t, k, p.t.slots[k].(busy := true), Users(multiset{7}, 7, Freeing)));
  }

  // And frees it, in a transaction.
  lemma FreeLast(p: Trace, k: int) returns (q: Trace)
    requires Reached(p) && p.t.stop == Running && In(p.t, k) && p.t.busy
    requires p.t.users[k] == Users(multiset{7}, 7, Freeing) && p.t.slots[k].ref == 1
    ensures Reached(q)
    ensures var i := p.t.slots[k].inum; q.t == With(p.t, k, Slot(0, i, false, false, Free), NOBODY).(fs := p.t.fs - {i})
  {
    var i := p.t.slots[k].inum;
    q := Then(p, FreeDisk(7, k),
              With(p.t, k, p.t.slots[k].(din := Free), Users(multiset{7}, 7, Freed)).(fs := p.t.fs - {i}));
    assert multiset{7} - multiset{7} == multiset{};
    q := Then(q, FreeEnd(7, k), With(q.t, k, Slot(0, i, false, false, Free), NOBODY));
    assert q.t.slots == p.t.slots[k := q.t.slots[k]] && q.t.users == p.t.users[k := NOBODY];
  }

  // begin_trans or commit_trans.
  lemma Flag(p: Trace) returns (q: Trace)
    requires Reached(p) && p.t.stop == Running
    ensures Reached(q) && q.t == p.t.(busy := !p.t.busy)
  {
    q := Then(p, if p.t.busy then End else Begin, p.t.(busy := !p.t.busy));
  }

  lemma FirstUnlink(p: Trace) returns (q: Trace)
    requires Reached(p)
    requires p.t == At3([Taken(2, 3, 1), Kept(0, 1, 2), Taken(1, 2, 2)], [TWICE.(owner := 7), NOBODY, LOCKED],
                        TwoDown(), true)
    ensures Reached(q)
    ensures q.t == At3([Taken(2, 3, 0), Kept(0, 1, 2), Taken(1, 2, 1)], [TWICE.(owner := 7), NOBODY, LOCKED],
                       OneGone(), true)
  {
    Unlinked();
    q := Then(p, Unlink(7, 2, 2, 0),
              At3([Taken(2, 3, 0), Kept(0, 1, 2), Taken(1, 2, 1)], [TWICE.(owner := 7), NOBODY, LOCKED], OneGone(),
                  true));
  }

  lemma SecondUnlink(p: Trace) returns (q: Trace)
    requires Reached(p)
    requires p.t == At3([Kept(1, 3, 0), Taken(1, 1, 2), Taken(1, 2, 1)], [HELD, LOCKED, LOCKED], OneGone(), true)
    ensures Reached(q)
    ensures q.t == At3([Kept(1, 3, 0), Taken(1, 1, 1), Taken(1, 2, 0)], [HELD, LOCKED, LOCKED], BothGone(), true)
  {
    Unlinked();
    q := Then(p, Unlink(7, 1, 2, 2),
              At3([Kept(1, 3, 0), Taken(1, 1, 1), Taken(1, 2, 0)], [HELD, LOCKED, LOCKED], BothGone(), true));
  }

  // ---------- system calls ----------

  // chdir /p/d: the process walks down, letting each directory go on the way,
  lemma WalkToP() returns (p: Trace)
    ensures Reached(p)
    ensures p.t == At3([Kept(0, 1, 2), Fetched(2, Free), UNUSED], [NOBODY, HELD, NOBODY], TwoDown(), false)
  {
    hide Reached;
    p := Start();
    p := Fetch(p, GetRoot(7), 0, 1);
    p := Read(p, 0);
    p := Fetch(p, Lookup(7, 0, 2), 1, 2);
    p := Release(p, 0);
    p := Drop(p, 0);
    assert p.t == At3([Kept(0, 1, 2), Fetched(2, Free), UNUSED], [NOBODY, HELD, NOBODY], TwoDown(), false);
  }

  // and keeps d.
  lemma Chdir() returns (p: Trace)
    ensures Reached(p)
    ensures p.t == At3([Kept(1, 3, 1), Kept(0, 2, 2), UNUSED], [HELD, NOBODY, NOBODY], TwoDown(), false)
  {
    hide Reached;
    p := WalkToP();
    p := Read(p, 1);
    p := Fetch(p, Lookup(7, 1, 2), 0, 3);
    p := Release(p, 1);
    p := Drop(p, 1);
    assert p.t == At3([Fetched(3, Alloc(L.Dir, 2)), Kept(0, 2, 2), UNUSED], [HELD, NOBODY, NOBODY], TwoDown(), false);
    p := Read(p, 0);
    p := Release(p, 0);
    assert p.t == At3([Kept(1, 3, 1), Kept(0, 2, 2), UNUSED], [HELD, NOBODY, NOBODY], TwoDown(), false);
  }

  // unlink /p/d: the walk to p;
  lemma FindParent() returns (p: Trace)
    ensures Reached(p)
    ensures p.t == At3([Kept(1, 3, 1), Kept(0, 1, 2), Fetched(2, Free)], [HELD, NOBODY, HELD], TwoDown(), false)
  {
    hide Reached;
    p := Chdir();
    p := Fetch(p, GetRoot(7), 1, 1);
    p := Read(p, 1);
    p := Fetch(p, Lookup(7, 1, 2), 2, 2);
    p := Release(p, 1);
    p := Drop(p, 1);
    assert p.t == At3([Kept(1, 3, 1), Kept(0, 1, 2), Fetched(2, Free)], [HELD, NOBODY, HELD], TwoDown(), false);
  }

  // then, in a transaction, p and d locked.
  lemma FindD() returns (p: Trace)
    ensures Reached(p)
    ensures p.t == At3([Taken(2, 3, 1), Kept(0, 1, 2), Taken(1, 2, 2)], [TWICE.(owner := 7), NOBODY, LOCKED],
                       TwoDown(), true)
  {
    hide Reached;
    p := FindParent();
    p := Read(p, 2);
    p := Release(p, 2);
    p := Flag(p);
    p := Relock(p, 2);
    assert p.t == At3([Kept(1, 3, 1), Kept(0, 1, 2), Taken(1, 2, 2)], [HELD, NOBODY, LOCKED], TwoDown(), true);
    p := Again(p, Lookup(7, 2, 2), 3, 1);
    p := Relock(p, 0);
    assert p.t == At3([Taken(2, 3, 1), Kept(0, 1, 2), Taken(1, 2, 2)], [TWICE.(owner := 7), NOBODY, LOCKED], TwoDown(),
                      true);
  }

  // d unlinked and both let go; d is still the process's working directory.
  lemma UnlinkD() returns (p: Trace)
    ensures Reached(p)
    ensures p.t == At3([Kept(1, 3, 0), Kept(0, 1, 2), Kept(0, 2, 1)], [HELD, NOBODY, NOBODY], OneGone(), false)
  {
    hide Reached;
    p := FindD();
    p := FirstUnlink(p);
    p := Release(p, 2);
    p := Drop(p, 2);
    assert p.t == At3([Taken(2, 3, 0), Kept(0, 1, 2), Kept(0, 2, 1)], [TWICE.(owner := 7), NOBODY, NOBODY], OneGone(),
                      true);
    p := Release(p, 0);
    p := Drop(p, 0);
    p := Flag(p);
    assert p.t == At3([Kept(1, 3, 0), Kept(0, 1, 2), Kept(0, 2, 1)], [HELD, NOBODY, NOBODY], OneGone(), false);
  }

  // unlink /p: the root found; then, in a transaction, the root and p locked.
  lemma FindP() returns (p: Trace)
    ensures Reached(p)
    ensures p.t == At3([Kept(1, 3, 0), Taken(1, 1, 2), Taken(1, 2, 1)], [HELD, LOCKED, LOCKED], OneGone(), true)
  {
    hide Reached;
    p := UnlinkD();
    p := Fetch(p, GetRoot(7), 1, 1);
    p := Read(p, 1);
    p := Release(p, 1);
    p := Flag(p);
    p := Relock(p, 1);
    assert p.t == At3([Kept(1, 3, 0), Taken(1, 1, 2), Kept(0, 2, 1)], [HELD, LOCKED, NOBODY], OneGone(), true);
    p := Fetch(p, Lookup(7, 1, 2), 2, 2);
    p := Read(p, 2);
    assert p.t == At3([Kept(1, 3, 0), Taken(1, 1, 2), Taken(1, 2, 1)], [HELD, LOCKED, LOCKED], OneGone(), true);
  }

  // p unlinked and let go, the last reference to it, which frees it.
  lemma UnlinkP() returns (p: Trace)
    ensures Reached(p)
    ensures p.t == At3([Kept(1, 3, 0), Kept(0, 1, 1), Slot(0, 2, false, false, Free)], [HELD, NOBODY, NOBODY],
                       BothGone() - {2}, false)
  {
    hide Reached;
    p := FindP();
    p := SecondUnlink(p);
    p := Release(p, 1);
    p := Drop(p, 1);
    assert p.t == At3([Kept(1, 3, 0), Kept(0, 1, 1), Taken(1, 2, 0)], [HELD, NOBODY, LOCKED], BothGone(), true);
    p := Release(p, 2);
    p := Last(p, 2);
    p := FreeLast(p, 2);
    p := Flag(p);
    assert p.t == At3([Kept(1, 3, 0), Kept(0, 1, 1), Slot(0, 2, false, false, Free)], [HELD, NOBODY, NOBODY],
                      BothGone() - {2}, false);
  }

  // ---------- the panics ----------

  // exit, or a chdir elsewhere, lets go of the removed directory outside a transaction: iput sets out to
  // free it, and the log panics.
  lemma ExitPanics() returns (ops: seq<Op>)
    ensures Bootable(TwoDown(), Shape()) && |ops| > 0 && ops[|ops| - 1] == FreeDisk(7, 0)
    ensures Run(Boot(3, TwoDown(), Shape()), ops[..|ops| - 1]).stop == Running
    ensures Run(Boot(3, TwoDown(), Shape()), ops).stop == OutsideTrans
  {
    TwoDownBootable();
    var p := UnlinkD();
    p := Last(p, 0);
    var q := Then(p, FreeDisk(7, 0), p.t.(stop := OutsideTrans));
    ops := q.ops;
    assert ops[..|ops| - 1] == p.ops;
  }

  // chdir .. once the parent is gone too: the walk up finds the free inode, and ilock panics.
  lemma UpPanics() returns (ops: seq<Op>)
    ensures Bootable(TwoDown(), Shape()) && |ops| > 0 && ops[|ops| - 1] == Lock(7, 1)
    ensures Run(Boot(3, TwoDown(), Shape()), ops[..|ops| - 1]).stop == Running
    ensures Run(Boot(3, TwoDown(), Shape()), ops).stop == NoType
  {
    TwoDownBootable();
    var p := UpAndOut();
    var q := Then(p, Lock(7, 1), p.t.(stop := NoType));
    ops := q.ops;
    assert ops[..|ops| - 1] == p.ops;
  }

  lemma UpAndOut() returns (p: Trace)
    ensures Reached(p)
    ensures p.t == At3([Kept(1, 3, 0), Fetched(2, Alloc(L.Dir, 1)), Slot(0, 2, false, false, Free)],
                       [HELD, HELD, NOBODY],
                       BothGone() - {2}, false)
  {
    hide Reached;
    p := UnlinkP();
    p := Twice(p, 3, 0);
    p := Relock(p, 0);
    assert p.t == At3([Taken(2, 3, 0), Kept(0, 1, 1), Slot(0, 2, false, false, Free)],
                      [TWICE.(owner := 7), NOBODY, NOBODY],
                      BothGone() - {2}, false);
    p := Fetch(p, Lookup(7, 0, 1), 1, 2);
    p := Release(p, 0);
    p := Drop(p, 0);
    assert p.t == At3([Kept(1, 3, 0), Fetched(2, Alloc(L.Dir, 1)), Slot(0, 2, false, false, Free)],
                      [HELD, HELD, NOBODY],
                      BothGone() - {2}, false);
  }
}
