/**
  The inode cache (fs.c) as a step system over the directories of LinkSpec: who refers to a cached
  inode, who has it locked, and when the inode is freed on disk. One step is what happens under
  icache.lock, or what the holder of I_BUSY does to the inode it has locked; create, link and
  unlink are one step each. A panic stops the run.
 */
module IcacheSpec {
  import L = LinkSpec

  const NONE: int := -1

  // What an inode in memory says of the one on disk.
  datatype Copy = Free | Alloc(kind: L.Kind, nlink: int)

  datatype Slot = Slot(ref: int, inum: int, busy: bool, valid: bool, din: Copy)

  // iput in the middle of freeing: before and after the free inode reaches the disk.
  datatype Phase = Normal | Freeing | Freed

  // The processes behind the reference count and behind I_BUSY.
  datatype Users = Users(holders: multiset<int>, owner: int, phase: Phase)

  // The panics: ilock on a free inode, iput on a locked one, iget without a slot, log_write outside
  // a transaction, unlink of a name whose inode has no links.
  datatype Stop = Running | NoType | PutBusy | NoInodes | OutsideTrans | NoLinks

  // newborn are the inodes that have not had a link since they were allocated, promised those of them
  // that ialloc has yet to return, with the process it is for; busy is the log's flag.
  datatype State = State(slots: seq<Slot>, users: seq<Users>, fs: L.Fs, shape: L.Shape,
                         newborn: set<int>, promised: map<int, int>, busy: bool, stop: Stop)

  function OnDisk(fs: L.Fs, i: int): Copy
  {
    if i in fs then Alloc(fs[i].kind, fs[i].nlink) else Free
  }

  predicate IsDir(c: Copy)
  {
    c.Alloc? && c.kind == L.Dir
  }

  // ---------- steps ----------

  // The slot of an inode from slot k on, or NONE.
  function Cached(slots: seq<Slot>, inum: int, k: nat): (r: int)
    ensures r == NONE || k <= r < |slots|
    decreases |slots| - k
  {
    if k >= |slots| then NONE
    else if slots[k].ref > 0 && slots[k].inum == inum then k
    else Cached(slots, inum, k + 1)
  }

  function FirstFree(slots: seq<Slot>, k: nat): (r: int)
    ensures r == NONE || k <= r < |slots|
    decreases |slots| - k
  {
    if k >= |slots| then NONE else if slots[k].ref == 0 then k else FirstFree(slots, k + 1)
  }

  // The slot iget returns, or NONE where it panics.
  function GetSlot(slots: seq<Slot>, inum: int): (r: int)
    ensures r == NONE || 0 <= r < |slots|
  {
    if Cached(slots, inum, 0) != NONE then Cached(slots, inum, 0) else FirstFree(slots, 0)
  }

  predicate In(s: State, k: int)
  {
    0 <= k < |s.slots| == |s.users|
  }

  function With(s: State, k: int, slot: Slot, user: Users): State
    requires In(s, k)
  {
    s.(slots := s.slots[k := slot], users := s.users[k := user])
  }

  function GetStep(s: State, pid: int, inum: int): State
    requires |s.slots| == |s.users|
  {
    var k := GetSlot(s.slots, inum);
    if k == NONE then s.(stop := NoInodes)
    else if Cached(s.slots, inum, 0) != NONE then
      With(s, k, s.slots[k].(ref := s.slots[k].ref + 1), s.users[k].(holders := s.users[k].holders + multiset{pid}))
    else
      With(s, k, Slot(1, inum, false, false, s.slots[k].din), Users(multiset{pid}, NONE, Normal))
  }

  datatype Op =
    | GetRoot(pid: int)
    | Lookup(pid: int, k: int, j: int)
    | AllocDisk(pid: int, inum: int, kind: L.Kind)
    | GetNew(pid: int, inum: int)
    | Dup(pid: int, k: int, to: int)
    | Lock(pid: int, k: int)
    | Unlock(pid: int, k: int)
    | Put(pid: int, k: int)
    | FreeDisk(pid: int, k: int)
    | FreeEnd(pid: int, k: int)
    | Create(pid: int, k: int, j: int, name: string, ki: int)
    | Link(pid: int, k: int, j: int, name: string, ki: int)
    | Unlink(pid: int, k: int, j: int, ki: int)
    | Begin
    | End

  // pid has slot k locked and is not freeing it.
  predicate Locked(s: State, pid: int, k: int)
  {
    In(s, k) && pid != NONE && s.users[k].owner == pid && s.users[k].phase == Normal
  }

  // pid has directory slot k locked, which is somebody's already, and slot j of it is free for a
  // new name.
  ghost predicate CanName(s: State, pid: int, k: int, j: int, name: string)
  {
    && Locked(s, pid, k) && IsDir(s.slots[k].din) && s.slots[k].inum in s.fs && s.slots[k].inum !in s.newborn
    && var d := s.slots[k].inum;
       0 <= j <= |s.fs[d].entries| && L.At(s.fs, d, j).inum == 0 && L.Absent(s.fs, d, name)
  }

  // Who may take a step. A directory entry can be followed by whoever has the directory locked,
  // whatever it names.
  ghost predicate Enabled(s: State, op: Op)
  {
    |s.slots| == |s.users| && s.stop == Running &&
    match op
    case GetRoot(_) => true
    case Lookup(pid, k, j) => Locked(s, pid, k) && IsDir(s.slots[k].din) && L.At(s.fs, s.slots[k].inum, j).inum != 0
    case AllocDisk(_, inum, _) => inum !in s.fs && inum != 0
    case GetNew(pid, inum) => inum in s.promised && s.promised[inum] == pid
    case Dup(pid, k, _) => In(s, k) && pid in s.users[k].holders
    && (s.users[k].phase == Normal || s.users[k].owner != pid)
    case Lock(pid, k) => In(s, k) && pid in s.users[k].holders && !s.slots[k].busy && pid != NONE
    case Unlock(pid, k) => Locked(s, pid, k)
    case Put(pid, k) =>
      // who has the inode locked may drop a reference it has besides
      && In(s, k) && pid != NONE && pid in s.users[k].holders
      && (s.users[k].owner != pid || (s.users[k].phase == Normal && s.users[k].holders[pid] >= 2))
    case FreeDisk(pid, k) => In(s, k) && pid != NONE && s.users[k].owner == pid && s.users[k].phase == Freeing
    case FreeEnd(pid, k) => In(s, k) && pid != NONE && s.users[k].owner == pid && s.users[k].phase == Freed
    case Create(pid, k, j, name, ki) =>
      CanName(s, pid, k, j, name) && Locked(s, pid, ki) && ki != k && s.slots[ki].inum in s.newborn
      && s.slots[ki].din.Alloc?
    case Link(pid, k, j, name, ki) =>
      && CanName(s, pid, k, j, name) && In(s, ki) && ki != k && pid in s.users[ki].holders
           && s.users[ki].phase == Normal
      && s.slots[ki].valid && s.slots[ki].din.Alloc? && s.slots[ki].din.kind != L.Dir && s.slots[ki].inum in s.fs
    case Unlink(pid, k, j, ki) =>
      && Locked(s, pid, k) && Locked(s, pid, ki) && ki != k && L.Erasable(s.fs, s.slots[k].inum, j)
           && s.slots[k].inum !in s.newborn
      && L.At(s.fs, s.slots[k].inum, j).inum == s.slots[ki].inum != s.slots[k].inum && s.slots[ki].inum in s.fs
    case Begin => !s.busy
    case End => s.busy
  }

  // iput frees when it drops the last reference to an inode it knows to have no links.
  predicate Frees(slot: Slot)
  {
    slot.ref == 1 && slot.valid && slot.din.Alloc? && slot.din.nlink == 0
  }

  // The directories changed under the locks on slots k and ki, whose copies follow.
  function Changed(s: State, k: int, ki: int, fs: L.Fs, shape: L.Shape): State
    requires In(s, k) && In(s, ki)
  {
    var slots := s.slots[k := s.slots[k].(din := OnDisk(fs, s.slots[k].inum))];
    s.(slots := slots[ki := slots[ki].(din := OnDisk(fs, slots[ki].inum))], fs := fs, shape := shape,
       newborn := s.newborn - {s.slots[ki].inum})
  }

  function LockStep(s: State, pid: int, k: int): State
    requires In(s, k)
  {
    var x := s.slots[k];
    if !x.valid && x.inum !in s.fs then s.(stop := NoType)
    else With(s, k, if x.valid then x.(busy := true) else x.(busy := true, valid := true, din := OnDisk(s.fs, x.inum)),
              s.users[k].(owner := pid))
  }

  function PutStep(s: State, pid: int, k: int): State
    requires In(s, k)
  {
    if Frees(s.slots[k]) then
      if s.slots[k].busy then s.(stop := PutBusy)
      else With(s, k, s.slots[k].(busy := true), s.users[k].(owner := pid, phase := Freeing))
    else With(s, k, s.slots[k].(ref := s.slots[k].ref - 1), s.users[k].(holders := s.users[k].holders - multiset{pid}))
  }

  function FreeEndStep(s: State, pid: int, k: int): State
    requires In(s, k)
  {
    With(s, k, s.slots[k].(busy := false, valid := false, ref := s.slots[k].ref - 1),
         Users(s.users[k].holders - multiset{pid}, NONE, Normal))
  }

  // The steps on one slot.
  predicate OneSlot(op: Op)
  {
    op.Dup? || op.Lock? || op.Unlock? || op.Put? || op.FreeDisk? || op.FreeEnd?
  }

  ghost function SlotStep(s: State, op: Op): State
    requires OneSlot(op) && In(s, op.k)
  {
    match op
    case Dup(_, k, to) =>
      With(s, k, s.slots[k].(ref := s.slots[k].ref + 1), s.users[k].(holders := s.users[k].holders + multiset{to}))
    case Lock(pid, k) => LockStep(s, pid, k)
    case Unlock(_, k) => With(s, k, s.slots[k].(busy := false), s.users[k].(owner := NONE))
    case Put(pid, k) => PutStep(s, pid, k)
    case FreeDisk(_, k) =>
      With(s, k, s.slots[k].(din := Free), s.users[k].(phase := Freed)).(fs := s.fs - {s.slots[k].inum})
    case FreeEnd(pid, k) => FreeEndStep(s, pid, k)
  }

  // Whether the step writes to the disk, through the log.
  predicate Logs(op: Op)
  {
    op.AllocDisk? || op.FreeDisk? || op.Create? || op.Link? || op.Unlink?
  }

  ghost function Step(s: State, op: Op): State
    requires Enabled(s, op)
  {
    if Logs(op) && !s.busy then s.(stop := OutsideTrans)
    else if OneSlot(op) then SlotStep(s, op)
    else
      match op
      case GetRoot(pid) => GetStep(s, pid, L.ROOT)
      case Lookup(pid, k, j) => GetStep(s, pid, L.At(s.fs, s.slots[k].inum, j).inum)
      case AllocDisk(pid, inum, kind) =>
        s.(fs := s.fs[inum := L.Inode(kind, 0, [])], newborn := s.newborn + {inum}, promised := s.promised[inum := pid])
      case GetNew(pid, inum) => GetStep(s.(promised := s.promised - {inum}), pid, inum)
      case Create(pid, k, j, name, ki) =>
        var d, i, kind := s.slots[k].inum, s.slots[ki].inum, s.slots[ki].din.kind;
        if i == d then s
        else Changed(s, k, ki, L.CreateStep(s.fs - {i}, d, j, name, i, kind), L.CreateShape(s.shape, d, j, i, kind))
      case Link(pid, k, j, name, ki) =>
        Changed(s, k, ki, L.LinkStep(s.fs, s.slots[k].inum, j, name, s.slots[ki].inum), s.shape)
      case Unlink(pid, k, j, ki) =>
        if s.fs[s.slots[ki].inum].nlink < 1 then s.(stop := NoLinks)
        else Changed(s, k, ki, L.UnlinkStep(s.fs, s.slots[k].inum, j), s.shape)
      case Begin => s.(busy := true)
      case End => s.(busy := false)
  }

  // A new name in a removed directory, which LinkSpec shows to break the count of links.
  predicate OffTree(s: State, op: Op)
  {
    (op.Create? || op.Link?) && In(s, op.k) && !L.Linked(s.fs, s.slots[op.k].inum)
  }

  // ---------- what every other step keeps ----------

  ghost predicate SlotOk(s: State, k: int)
  {
    In(s, k) ==>
      var x, u := s.slots[k], s.users[k];
      && x.ref == |u.holders|
      && (x.busy <==> u.owner != NONE)
      && (u.owner != NONE ==> u.owner in u.holders)
      && (x.busy ==> x.valid)
      && (u.phase != Normal ==> x.busy)
      // a valid copy is that of the disk
      && (x.ref > 0 && x.valid && u.phase != Freed ==> x.din.Alloc? && x.din == OnDisk(s.fs, x.inum))
      && (u.phase == Freeing ==> x.din.Alloc? && x.din.nlink == 0)
      && (u.phase == Freed ==> x.inum !in s.fs || x.inum in s.newborn)
  }

  // No inode is in two slots.
  ghost predicate UniqueAt(s: State, j: int, k: int)
  {
    In(s, j) && In(s, k) && s.slots[j].ref > 0 && s.slots[k].ref > 0 && s.slots[j].inum == s.slots[k].inum ==> j == k
  }

  ghost predicate KnownAt(s: State, i: int, k: int)
  {
    In(s, k) && s.slots[k].ref > 0 && s.slots[k].inum == i && s.slots[k].valid && s.users[k].phase != Freed
  }

  // An allocated inode that has lost its last link is cached and known to have none; a newborn one
  // has none.
  ghost predicate LeakOk(s: State, i: int)
  {
    i in s.fs ==>
      && (s.fs[i].nlink == 0 && i !in s.newborn ==> exists k :: KnownAt(s, i, k))
      && (i in s.newborn ==> s.fs[i].nlink == 0)
  }

  ghost predicate CacheOk(s: State)
  {
    |s.slots| == |s.users| && (forall k :: SlotOk(s, k)) && (forall j, k :: UniqueAt(s, j, k))
    && (forall i :: LeakOk(s, i))
  }

  ghost predicate Inv(s: State)
  {
    CacheOk(s) && L.Inv(s.fs, s.shape)
  }

  // A step that touches slot k and inode i only.
  lemma Change(s: State, s': State, k: int, i: int)
    requires CacheOk(s) && In(s, k) && |s'.slots| == |s'.users| == |s.slots|
    requires forall j :: 0 <= j < |s.slots| && j != k ==> s'.slots[j] == s.slots[j] && s'.users[j] == s.users[j]
    requires forall x :: x != i ==> OnDisk(s'.fs, x) == OnDisk(s.fs, x) && (x in s'.newborn <==> x in s.newborn)
    requires s'.slots[k].inum == i && (s.slots[k].ref == 0 || s.slots[k].inum == i)
    requires forall j :: 0 <= j < |s.slots| && j != k && s.slots[j].ref > 0 ==> s.slots[j].inum != i
    requires SlotOk(s', k) && LeakOk(s', i)
    ensures CacheOk(s')
  {
    forall j ensures SlotOk(s', j) {
      assert SlotOk(s, j);
      if In(s, j) && s.slots[j].ref > 0 && j != k {
        assert OnDisk(s'.fs, s.slots[j].inum) == OnDisk(s.fs, s.slots[j].inum);
      }
    }
    forall a, b ensures UniqueAt(s', a, b) {
      assert UniqueAt(s, a, b);
    }
    forall x ensures LeakOk(s', x) {
      assert LeakOk(s, x);
      if x != i && x in s'.fs {
        assert OnDisk(s'.fs, x) == OnDisk(s.fs, x);
        if s.fs[x].nlink == 0 && x !in s.newborn {
          var j :| KnownAt(s, x, j);
          assert KnownAt(s', x, j);
        }
      }
    }
  }

  // A change of directories under locks on slots k and ki touches those two inodes only.
  lemma ChangeTwo(s: State, k: int, ki: int, fs: L.Fs, shape: L.Shape)
    requires CacheOk(s) && In(s, k) && In(s, ki) && k != ki
    requires s.slots[k].ref > 0 && s.slots[ki].ref > 0 && s.slots[k].valid && s.slots[ki].valid
    requires s.users[k].phase == Normal && s.users[ki].phase == Normal
    requires s.slots[k].inum in fs && s.slots[ki].inum in fs && s.slots[k].inum !in s.newborn
    requires forall x :: x != s.slots[k].inum && x != s.slots[ki].inum ==> OnDisk(fs, x) == OnDisk(s.fs, x)
    ensures CacheOk(Changed(s, k, ki, fs, shape))
  {
    var s' := Changed(s, k, ki, fs, shape);
    var d, i := s.slots[k].inum, s.slots[ki].inum;
    assert UniqueAt(s, k, ki);
    forall j ensures SlotOk(s', j) {
      assert SlotOk(s, j) && UniqueAt(s, j, k) && UniqueAt(s, j, ki);
      if In(s, j) && s.slots[j].ref > 0 && j != k && j != ki {
        assert OnDisk(fs, s.slots[j].inum) == OnDisk(s.fs, s.slots[j].inum);
      }
    }
    forall a, b ensures UniqueAt(s', a, b) {
      assert UniqueAt(s, a, b);
    }
    forall x ensures LeakOk(s', x) {
      assert LeakOk(s, x) && KnownAt(s', i, ki) && KnownAt(s', d, k);
      if x != d && x != i && x in fs {
        assert OnDisk(fs, x) == OnDisk(s.fs, x);
        if s.fs[x].nlink == 0 && x !in s.newborn {
          var j :| KnownAt(s, x, j);
          assert KnownAt(s', x, j);
        }
      }
    }
  }

  lemma {:induction false} CachedFound(slots: seq<Slot>, inum: int, k: nat)
    ensures var r := Cached(slots, inum, k);
            if r == NONE then forall j :: k <= j < |slots| ==> !(slots[j].ref > 0 && slots[j].inum == inum)
            else slots[r].ref > 0 && slots[r].inum == inum
    decreases |slots| - k
  {
    if k < |slots| {
      CachedFound(slots, inum, k + 1);
    }
  }

  lemma {:induction false} FreeFound(slots: seq<Slot>, k: nat)
    ensures var r := FirstFree(slots, k);
            if r == NONE then forall j :: k <= j < |slots| ==> slots[j].ref != 0 else slots[r].ref == 0
    decreases |slots| - k
  {
    if k < |slots| {
      FreeFound(slots, k + 1);
    }
  }

  lemma Others(s: State, k: int)
    requires CacheOk(s) && In(s, k) && s.slots[k].ref > 0
    ensures forall j :: 0 <= j < |s.slots| && j != k && s.slots[j].ref > 0 ==> s.slots[j].inum != s.slots[k].inum
  {
    forall j | 0 <= j < |s.slots| && j != k && s.slots[j].ref > 0 ensures s.slots[j].inum != s.slots[k].inum {
      assert UniqueAt(s, j, k);
    }
  }

  // iget, of any inode.
  lemma GetKeeps(s: State, pid: int, inum: int)
    requires CacheOk(s)
    ensures CacheOk(GetStep(s, pid, inum))
  {
    var k := GetSlot(s.slots, inum);
    CachedFound(s.slots, inum, 0);
    FreeFound(s.slots, 0);
    var s' := GetStep(s, pid, inum);
    if k == NONE {
      Stopped(s, s');
    } else {
      assert SlotOk(s, k) && LeakOk(s, inum);
      if Cached(s.slots, inum, 0) != NONE {
        Others(s, k);
      }
      if j :| KnownAt(s, inum, j) {
        assert KnownAt(s', inum, j);
      }
      Change(s, s', k, inum);
    }
  }

  // A change of the flags alone.
  lemma Stopped(s: State, s': State)
    requires CacheOk(s) && s' == s.(stop := s'.stop, busy := s'.busy, promised := s'.promised)
    ensures CacheOk(s')
  {
    forall k ensures SlotOk(s', k) {
      assert SlotOk(s, k);
    }
    forall j, k ensures UniqueAt(s', j, k) {
      assert UniqueAt(s, j, k);
    }
    forall i ensures LeakOk(s', i) {
      assert LeakOk(s, i);
      if k :| KnownAt(s, i, k) {
        assert KnownAt(s', i, k);
      }
    }
  }

  lemma AllocKeeps(s: State, s': State, inum: int)
    requires CacheOk(s) && inum !in s.fs && inum != 0 && inum in s'.fs && s'.fs[inum].nlink == 0
             && s'.fs[inum].entries == []
    requires s' == s.(fs := s.fs[inum := s'.fs[inum]], newborn := s.newborn + {inum}, promised := s'.promised)
    ensures CacheOk(s')
  {
    forall k ensures SlotOk(s', k) {
      assert SlotOk(s, k);
    }
    forall j, k ensures UniqueAt(s', j, k) {
      assert UniqueAt(s, j, k);
    }
    forall i ensures LeakOk(s', i) {
      assert LeakOk(s, i);
      if k :| KnownAt(s, i, k) {
        assert KnownAt(s', i, k);
      }
    }
  }

  lemma HolderRef(s: State, k: int, pid: int)
    requires CacheOk(s) && In(s, k) && (pid in s.users[k].holders || (s.users[k].owner == pid && pid != NONE))
    ensures s.slots[k].ref > 0 && pid in s.users[k].holders
    ensures s.slots[k].ref == 1 ==> s.users[k].holders == multiset{pid}
  {
    assert SlotOk(s, k);
    if s.slots[k].ref == 1 {
      OnlyOne(s.users[k].holders, pid);
    }
  }

  lemma OnlyOne(m: multiset<int>, a: int)
    requires |m| == 1 && a in m
    ensures m == multiset{a}
  {
    assert |m - multiset{a}| == 0;
    assert m == (m - multiset{a}) + multiset{a};
  }

  lemma StepOne(s: State, op: Op)
    requires Enabled(s, op) && OneSlot(op)
    ensures In(s, op.k) && Step(s, op) == if Logs(op) && !s.busy then s.(stop := OutsideTrans) else SlotStep(s, op)
    ensures op.pid in s.users[op.k].holders || (s.users[op.k].owner == op.pid && op.pid != NONE)
    ensures op.Put? && s.users[op.k].owner == op.pid ==>
              s.users[op.k].phase == Normal && s.users[op.k].holders[op.pid] >= 2
    ensures op.Dup? && s.users[op.k].owner == op.pid ==> s.users[op.k].phase == Normal
    ensures op.Lock? ==> !s.slots[op.k].busy && op.pid != NONE
    ensures op.Unlock? ==> s.users[op.k].phase == Normal
    ensures op.FreeDisk? ==> s.users[op.k].phase == Freeing
    ensures op.FreeEnd? ==> s.users[op.k].phase == Freed
  {
  }

  // What is left to show of a step on slot k.
  lemma SlotChange(s: State, s': State, pid: int, k: int)
    requires CacheOk(s) && In(s, k) && pid in s.users[k].holders && |s'.slots| == |s'.users| == |s.slots|
    requires s'.slots == s.slots[k := s'.slots[k]] && s'.users == s.users[k := s'.users[k]] && s'.newborn == s.newborn
    requires s'.slots[k].inum == s.slots[k].inum && (s'.fs == s.fs || s'.fs == s.fs - {s.slots[k].inum})
             && SlotOk(s', k)
    requires s.slots[k].inum in s'.fs && s.fs[s.slots[k].inum].nlink == 0 && s.slots[k].inum !in s.newborn ==>
               s.slots[k].valid ==> KnownAt(s', s.slots[k].inum, k)
    ensures CacheOk(s')
  {
    var i := s.slots[k].inum;
    HolderRef(s, k, pid);
    Others(s, k);
    assert LeakOk(s, i);
    if j :| KnownAt(s, i, j) {
      assert UniqueAt(s, j, k);
    }
    Change(s, s', k, i);
  }

  lemma LockKeeps(s: State, pid: int, k: int)
    requires CacheOk(s) && In(s, k) && pid in s.users[k].holders && !s.slots[k].busy && pid != NONE
    ensures CacheOk(LockStep(s, pid, k))
    // ilock panics exactly on a free inode
    ensures LockStep(s, pid, k).stop == (if s.slots[k].inum in s.fs then s.stop else NoType)
  {
    var s' := LockStep(s, pid, k);
    HolderRef(s, k, pid);
    assert SlotOk(s, k);
    if !s.slots[k].valid && s.slots[k].inum !in s.fs {
      Stopped(s, s');
    } else {
      SlotChange(s, s', pid, k);
    }
  }

  lemma PutKeeps(s: State, pid: int, k: int)
    requires CacheOk(s) && In(s, k) && pid != NONE && pid in s.users[k].holders
    requires s.users[k].owner != pid || (s.users[k].phase == Normal && s.users[k].holders[pid] >= 2)
    ensures CacheOk(PutStep(s, pid, k))
    // the panic of iput on a locked inode cannot happen
    ensures PutStep(s, pid, k).stop == s.stop
  {
    var s' := PutStep(s, pid, k);
    HolderRef(s, k, pid);
    assert SlotOk(s, k) && LeakOk(s, s.slots[k].inum);
    SlotChange(s, s', pid, k);
  }

  lemma FreeDiskKeeps(s: State, pid: int, k: int)
    requires CacheOk(s) && In(s, k) && pid != NONE && s.users[k].owner == pid && s.users[k].phase == Freeing
    ensures s.slots[k].inum in s.fs && s.fs[s.slots[k].inum].nlink == 0
    ensures CacheOk(With(s, k, s.slots[k].(din := Free), s.users[k].(phase := Freed)).(fs := s.fs - {s.slots[k].inum}))
  {
    HolderRef(s, k, pid);
    assert SlotOk(s, k);
    SlotChange(s, With(s, k, s.slots[k].(din := Free), s.users[k].(phase := Freed)).(fs := s.fs - {s.slots[k].inum}),
               pid, k);
  }

  lemma FreeEndKeeps(s: State, pid: int, k: int)
    requires CacheOk(s) && In(s, k) && pid != NONE && s.users[k].owner == pid && s.users[k].phase == Freed
    ensures CacheOk(FreeEndStep(s, pid, k))
  {
    HolderRef(s, k, pid);
    assert SlotOk(s, k);
    SlotChange(s, FreeEndStep(s, pid, k), pid, k);
  }

  lemma OneSlotKeeps(s: State, op: Op)
    requires CacheOk(s) && Enabled(s, op) && OneSlot(op) && !(Logs(op) && !s.busy)
    ensures CacheOk(Step(s, op))
  {
    hide CacheOk, LockStep, PutStep, FreeEndStep;
    match op
    case Lock(pid, k) => LockKeeps(s, pid, k);
    case Put(pid, k) => PutKeeps(s, pid, k);
    case FreeDisk(pid, k) => FreeDiskKeeps(s, pid, k);
    case FreeEnd(pid, k) => FreeEndKeeps(s, pid, k);
    case Dup(pid, k, to) => DupKeeps(s, pid, k, to);
    case Unlock(pid, k) => UnlockKeeps(s, pid, k);
  }

  lemma DupKeeps(s: State, pid: int, k: int, to: int)
    requires CacheOk(s) && In(s, k) && pid in s.users[k].holders
    ensures CacheOk(With(s, k, s.slots[k].(ref := s.slots[k].ref + 1),
                         s.users[k].(holders := s.users[k].holders + multiset{to})))
  {
    HolderRef(s, k, pid);
    assert SlotOk(s, k);
    SlotChange(s,
               With(s, k, s.slots[k].(ref := s.slots[k].ref + 1),
                    s.users[k].(holders := s.users[k].holders + multiset{to})), pid, k);
  }

  lemma UnlockKeeps(s: State, pid: int, k: int)
    requires CacheOk(s) && Locked(s, pid, k)
    ensures CacheOk(With(s, k, s.slots[k].(busy := false), s.users[k].(owner := NONE)))
  {
    HolderRef(s, k, pid);
    assert SlotOk(s, k);
    SlotChange(s, With(s, k, s.slots[k].(busy := false), s.users[k].(owner := NONE)), pid, k);
  }

  // ---------- directories ----------

  // A locked directory with links.
  lemma LockedCopy(s: State, pid: int, k: int)
    requires CacheOk(s) && Locked(s, pid, k)
    ensures s.slots[k].ref > 0 && s.slots[k].valid && s.slots[k].inum in s.fs
            && s.slots[k].din == OnDisk(s.fs, s.slots[k].inum)
    ensures s.slots[k].inum in s.newborn ==> s.fs[s.slots[k].inum].nlink == 0
  {
    HolderRef(s, k, pid);
    assert SlotOk(s, k) && LeakOk(s, s.slots[k].inum);
  }

  lemma CreateElse(fs: L.Fs, d: int, j: int, name: string, i: int, kind: L.Kind, x: int)
    requires d in fs && 0 <= j <= |fs[d].entries| && i != d
    ensures var fs' := L.CreateStep(fs, d, j, name, i, kind);
            d in fs' && i in fs' && (x != d && x != i ==> OnDisk(fs', x) == OnDisk(fs, x))
  {
  }

  lemma LinkElse(fs: L.Fs, d: int, j: int, name: string, i: int, x: int)
    requires d in fs && 0 <= j <= |fs[d].entries| && i in fs
    ensures var fs' := L.LinkStep(fs, d, j, name, i);
            d in fs' && i in fs' && (x != d && x != i ==> OnDisk(fs', x) == OnDisk(fs, x))
  {
  }

  lemma UnlinkElse(fs: L.Fs, d: int, j: int, x: int)
    requires L.Erasable(fs, d, j) && L.At(fs, d, j).inum in fs && L.At(fs, d, j).inum != d
    ensures var fs', i := L.UnlinkStep(fs, d, j), L.At(fs, d, j).inum;
            d in fs' && i in fs' && (x != d && x != i ==> OnDisk(fs', x) == OnDisk(fs, x))
  {
  }

  // The inodes under the locks of a change of directories are different, and have their copies.
  lemma TwoLocked(s: State, op: Op)
    requires CacheOk(s) && Enabled(s, op) && (op.Create? || op.Link? || op.Unlink?)
    ensures In(s, op.k) && In(s, op.ki) && s.slots[op.k].inum != s.slots[op.ki].inum
    ensures s.slots[op.k].ref > 0 && s.slots[op.k].valid && s.users[op.k].phase == Normal && s.slots[op.k].inum in s.fs
    ensures s.slots[op.ki].ref > 0 && s.slots[op.ki].valid && s.users[op.ki].phase == Normal
            && s.slots[op.ki].inum in s.fs
    ensures s.slots[op.ki].din == OnDisk(s.fs, s.slots[op.ki].inum)
    ensures s.slots[op.ki].inum in s.newborn ==> s.fs[s.slots[op.ki].inum].nlink == 0
  {
    LockedCopy(s, op.pid, op.k);
    if op.Link? {
      HolderRef(s, op.ki, op.pid);
      assert SlotOk(s, op.ki) && LeakOk(s, s.slots[op.ki].inum);
    } else {
      LockedCopy(s, op.pid, op.ki);
    }
    assert UniqueAt(s, op.k, op.ki);
  }

  lemma CreateCache(s: State, op: Op)
    requires CacheOk(s) && Enabled(s, op) && s.busy && op.Create?
    ensures CacheOk(Step(s, op))
  {
    TwoLocked(s, op);
    var d, i, kind := s.slots[op.k].inum, s.slots[op.ki].inum, s.slots[op.ki].din.kind;
    var fs' := L.CreateStep(s.fs - {i}, d, op.j, op.name, i, kind);
    forall x | x != d && x != i ensures OnDisk(fs', x) == OnDisk(s.fs, x) {
      CreateElse(s.fs - {i}, d, op.j, op.name, i, kind, x);
    }
    CreateElse(s.fs - {i}, d, op.j, op.name, i, kind, d);
    ChangeTwo(s, op.k, op.ki, fs', L.CreateShape(s.shape, d, op.j, i, kind));
  }

  lemma LinkCache(s: State, op: Op)
    requires CacheOk(s) && Enabled(s, op) && s.busy && op.Link?
    ensures CacheOk(Step(s, op))
  {
    TwoLocked(s, op);
    var d, i := s.slots[op.k].inum, s.slots[op.ki].inum;
    var fs' := L.LinkStep(s.fs, d, op.j, op.name, i);
    forall x | x != d && x != i ensures OnDisk(fs', x) == OnDisk(s.fs, x) {
      LinkElse(s.fs, d, op.j, op.name, i, x);
    }
    LinkElse(s.fs, d, op.j, op.name, i, d);
    ChangeTwo(s, op.k, op.ki, fs', s.shape);
  }

  lemma UnlinkCache(s: State, op: Op)
    requires CacheOk(s) && Enabled(s, op) && s.busy && op.Unlink? && s.fs[s.slots[op.ki].inum].nlink >= 1
    ensures CacheOk(Step(s, op))
  {
    TwoLocked(s, op);
    var d, i := s.slots[op.k].inum, s.slots[op.ki].inum;
    var fs' := L.UnlinkStep(s.fs, d, op.j);
    forall x | x != d && x != i ensures OnDisk(fs', x) == OnDisk(s.fs, x) {
      UnlinkElse(s.fs, d, op.j, x);
    }
    UnlinkElse(s.fs, d, op.j, d);
    ChangeTwo(s, op.k, op.ki, fs', s.shape);
  }

  // Every step keeps the cache in order, whatever the directories.
  lemma CacheKeeps(s: State, op: Op)
    requires CacheOk(s) && Enabled(s, op)
    ensures CacheOk(Step(s, op))
  {
    hide CacheOk, GetStep, LockStep, PutStep, FreeEndStep, Changed;
    if Logs(op) && !s.busy {
      Stopped(s, Step(s, op));
    } else {
      match op
      case GetRoot(pid) => GetKeeps(s, pid, L.ROOT);
      case Lookup(pid, k, j) => GetKeeps(s, pid, L.At(s.fs, s.slots[k].inum, j).inum);
      case AllocDisk(pid, inum, kind) => AllocKeeps(s, Step(s, op), inum);
      case GetNew(pid, inum) =>
        Stopped(s, s.(promised := s.promised - {inum}));
        GetKeeps(s.(promised := s.promised - {inum}), pid, inum);
      case Create(pid, k, j, name, ki) => CreateCache(s, op);
      case Link(pid, k, j, name, ki) => LinkCache(s, op);
      case Unlink(pid, k, j, ki) =>
        if s.fs[s.slots[ki].inum].nlink < 1 {
          Stopped(s, Step(s, op));
        } else {
          UnlinkCache(s, op);
        }
      case Begin => Stopped(s, Step(s, op));
      case End => Stopped(s, Step(s, op));
      case _ => OneSlotKeeps(s, op);
    }
  }

  // Every step keeps the directories in order, but for a new name in a removed directory.
  lemma TreeKeeps(s: State, op: Op)
    requires Inv(s) && Enabled(s, op) && !OffTree(s, op)
    ensures L.Inv(Step(s, op).fs, Step(s, op).shape)
  {
    hide L.Inv, CacheOk;
    if op.Create? || op.Link? || op.Unlink? {
      TwoLocked(s, op);
      var d, i := s.slots[op.k].inum, s.slots[op.ki].inum;
      if op.Create? {
        L.RootIn(s.fs, s.shape);
        L.FreeKeeps(s.fs, s.shape, i);
        assert forall e :: L.At(s.fs - {i}, d, e) == L.At(s.fs, d, e);
        L.CreateKeeps(s.fs - {i}, s.shape, d, op.j, op.name, i, s.slots[op.ki].din.kind);
      } else if op.Link? {
        L.LinkKeeps(s.fs, s.shape, d, op.j, op.name, i);
      } else {
        L.ErasableIff(s.fs, s.shape, d, op.j);
        L.UnlinkKeeps(s.fs, s.shape, d, op.j);
      }
    } else if op.AllocDisk? {
      L.AllocKeeps(s.fs, s.shape, op.inum, op.kind);
    } else if op.FreeDisk? {
      FreeDiskKeeps(s, op.pid, op.k);
      L.FreeKeeps(s.fs, s.shape, s.slots[op.k].inum);
    }
  }

  // Every step keeps the invariant, but for a new name in a removed directory.
  lemma StepKeeps(s: State, op: Op)
    requires Inv(s) && Enabled(s, op) && !OffTree(s, op)
    ensures Inv(Step(s, op))
  {
    hide CacheOk, Step;
    CacheKeeps(s, op);
    TreeKeeps(s, op);
  }

  // Such a name breaks it for good.
  lemma OffTreeBreaks(s: State, op: Op)
    requires Inv(s) && Enabled(s, op) && OffTree(s, op) && s.busy
    ensures !Inv(Step(s, op))
  {
    var s', d, i := Step(s, op), s.slots[op.k].inum, s.slots[op.ki].inum;
    LockedCopy(s, op.pid, op.k);
    if op.Link? {
      HolderRef(s, op.ki, op.pid);
      assert SlotOk(s, op.ki);
      L.LinkIff(s.fs, s.shape, d, op.j, op.name, i);
    } else {
      LockedCopy(s, op.pid, op.ki);
      assert UniqueAt(s, op.k, op.ki);
      var fs := s.fs - {i};
      L.FreeKeeps(s.fs, s.shape, i);
      assert forall e :: L.At(fs, d, e) == L.At(s.fs, d, e);
      L.CreateIff(fs, s.shape, d, op.j, op.name, i, s.slots[op.ki].din.kind);
    }
  }

  // ---------- references to free inodes ----------

  // Nobody but the iput that frees it refers to a free inode or to one about to be freed.
  ghost predicate AliveAt(s: State, k: int)
  {
    In(s, k) && s.slots[k].ref > 0 ==>
      match s.users[k].phase
      case Normal => s.slots[k].inum in s.fs
      case Freeing => s.slots[k].ref == 1
      case Freed => s.slots[k].ref == 1 || s.slots[k].inum in s.fs
  }

  ghost predicate Alive(s: State)
  {
    forall k :: AliveAt(s, k)
  }

  // An inode ialloc has yet to return is nobody else's.
  ghost predicate PromiseOk(s: State, i: int)
  {
    i in s.promised ==>
      && i in s.fs && i in s.newborn
      && forall k :: In(s, k) && s.slots[k].ref > 0 && s.slots[k].inum == i ==>
             s.users[k].phase == Freed && s.slots[k].ref == 1
  }

  ghost predicate Safe(s: State)
  {
    Alive(s) && forall i :: PromiseOk(s, i)
  }

  ghost predicate BeingFreed(s: State, i: int)
  {
    exists k :: In(s, k) && s.slots[k].ref > 0 && s.slots[k].inum == i && s.users[k].phase == Freeing
  }

  // The inode an iget is for.
  function Target(s: State, op: Op): int
  {
    match op
    case GetRoot(_) => L.ROOT
    case Lookup(_, k, j) => if In(s, k) then L.At(s.fs, s.slots[k].inum, j).inum else 0
    case GetNew(_, inum) => inum
    case _ => 0
  }

  // A lookup of ".." in a removed directory.
  predicate GoesUp(s: State, op: Op)
  {
    && op.Lookup? && In(s, op.k) && L.Removed(s.fs, s.slots[op.k].inum)
    && L.At(s.fs, s.slots[op.k].inum, op.j).name == ".."
  }

  // It finds a parent that has been freed or is about to be; or ialloc returns an inode that
  // somebody found that way and freed in between.
  ghost predicate Strays(s: State, op: Op)
  {
    && (GoesUp(s, op) || op.GetNew?) && GetSlot(s.slots, Target(s, op)) != NONE
    && (Target(s, op) !in s.fs || BeingFreed(s, Target(s, op)))
  }

  lemma StepGet(s: State, op: Op)
    requires Enabled(s, op) && (op.GetRoot? || op.Lookup? || op.GetNew?)
    ensures Step(s, op) == GetStep(if op.GetNew? then s.(promised := s.promised - {op.inum})
            else s, op.pid, Target(s, op))
    ensures op.Lookup? ==> Target(s, op) == L.At(s.fs, s.slots[op.k].inum, op.j).inum
    ensures op.GetNew? ==> op.inum in s.promised
  {
  }

  // Where iget leaves everybody alive.
  lemma GetAlive(s: State, pid: int, i: int)
    requires Inv(s) && Alive(s)
    ensures Alive(GetStep(s, pid, i)) <==> GetSlot(s.slots, i) == NONE || (i in s.fs && !BeingFreed(s, i))
  {
    var k, s' := GetSlot(s.slots, i), GetStep(s, pid, i);
    CachedFound(s.slots, i, 0);
    FreeFound(s.slots, 0);
    forall j | j != k ensures AliveAt(s', j) {
      assert AliveAt(s, j);
    }
    if k != NONE {
      assert AliveAt(s, k) && SlotOk(s, k);
      if j :| In(s, j) && s.slots[j].ref > 0 && s.slots[j].inum == i && s.users[j].phase == Freeing {
        assert UniqueAt(s, j, k) && SlotOk(s, j);
        assert !AliveAt(s', k);
      } else {
        assert AliveAt(s', k) <==> i in s.fs;
      }
    }
  }

  // An inode with a link is not being freed.
  lemma LinkedStays(s: State, i: int)
    requires Inv(s) && i in s.fs && s.fs[i].nlink > 0
    ensures !BeingFreed(s, i) && i !in s.newborn
  {
    assert LeakOk(s, i);
    forall k | In(s, k) && s.slots[k].ref > 0 && s.slots[k].inum == i ensures s.users[k].phase != Freeing {
      assert SlotOk(s, k);
    }
  }

  lemma RootStays(s: State)
    requires Inv(s)
    ensures |s.slots| == |s.users| && L.ROOT in s.fs && !BeingFreed(s, L.ROOT) && L.ROOT !in s.newborn
  {
    LinkedStays(s, L.ROOT);
  }

  // Looking up anything but ".." of a removed directory finds an inode that stays.
  lemma LookupStays(s: State, pid: int, k: int, j: int)
    requires Inv(s) && Enabled(s, Lookup(pid, k, j)) && !GoesUp(s, Lookup(pid, k, j))
    ensures var i := L.At(s.fs, s.slots[k].inum, j).inum;
            i in s.fs && !BeingFreed(s, i) && (Safe(s) ==> i !in s.promised)
  {
    var d := s.slots[k].inum;
    var i := L.At(s.fs, d, j).inum;
    LockedCopy(s, pid, k);
    if L.Linked(s.fs, d) {
      L.NamesLinked(s.fs, s.shape, d, j);
      LinkedStays(s, i);
      assert PromiseOk(s, i) || !Safe(s);
    } else {
      assert L.BareAt(s.fs, d, j);
      forall x | In(s, x) && s.slots[x].ref > 0 && s.slots[x].inum == i ensures s.users[x].phase == Normal {
        assert UniqueAt(s, x, k);
      }
      assert PromiseOk(s, i) || !Safe(s);
    }
  }

  // A step leaves everybody alive exactly if it does not stray.
  lemma StepAlive(s: State, op: Op)
    requires Inv(s) && Alive(s) && Enabled(s, op) && !OffTree(s, op)
    ensures Alive(Step(s, op)) <==> !Strays(s, op)
  {
    hide Step, Target, GetStep;
    if op.GetRoot? || op.Lookup? || op.GetNew? {
      StepGet(s, op);
    }
    if op.GetRoot? {
      RootTarget(s, op);
      GetAlive(s, op.pid, L.ROOT);
      LinkedStays(s, L.ROOT);
    } else if op.Lookup? {
      GetAlive(s, op.pid, Target(s, op));
      if !GoesUp(s, op) {
        LookupStays(s, op.pid, op.k, op.j);
      }
    } else if op.GetNew? {
      var t := s.(promised := s.promised - {op.inum});
      Stopped(s, t);
      forall k ensures AliveAt(t, k) {
        assert AliveAt(s, k);
      }
      RootTarget(s, op);
      GetAlive(t, op.pid, op.inum);
      assert BeingFreed(t, op.inum) <==> BeingFreed(s, op.inum);
    } else {
      RestAlive(s, op);
    }
  }

  lemma RootTarget(s: State, op: Op)
    ensures op.GetRoot? ==> Target(s, op) == L.ROOT
    ensures op.GetNew? ==> Target(s, op) == op.inum
  {
  }

  lemma RestAlive(s: State, op: Op)
    requires Inv(s) && Alive(s) && Enabled(s, op) && !op.GetRoot? && !op.Lookup? && !op.GetNew?
    ensures Alive(Step(s, op))
  {
    hide Step, Enabled;
    var s' := Step(s, op);
    forall k ensures AliveAt(s', k) {
      if OneSlot(op) {
        OneSlotAlive(s, op, k);
      } else {
        assert AliveAt(s, k);
        SameUsers(s, op, k);
        DirsStay(s, op, if In(s, k) then s.slots[k].inum else 0);
      }
    }
  }

  lemma OneSlotAlive(s: State, op: Op, k: int)
    requires Inv(s) && Alive(s) && Enabled(s, op) && OneSlot(op)
    ensures AliveAt(Step(s, op), k)
  {
    hide Step, Enabled;
    StepOne(s, op);
    HolderRef(s, op.k, op.pid);
    assert SlotOk(s, op.k) && AliveAt(s, op.k) && AliveAt(s, k) && UniqueAt(s, k, op.k);
  }

  // The other steps change nobody's references and locks.
  lemma SameUsers(s: State, op: Op, k: int)
    requires Enabled(s, op) && !OneSlot(op) && !op.GetRoot? && !op.Lookup? && !op.GetNew?
    ensures var s' := Step(s, op);
            && (In(s', k) <==> In(s, k))
            && (In(s, k) ==>
                   s'.users[k] == s.users[k] && s'.slots[k].ref == s.slots[k].ref
                   && s'.slots[k].inum == s.slots[k].inum)
            && (op.AllocDisk? || s'.promised == s.promised)
  {
  }

  // Only freeing takes an inode away.
  lemma DirsStay(s: State, op: Op, x: int)
    requires Inv(s) && Enabled(s, op)
    ensures x in s.fs && !(op.FreeDisk? && x == s.slots[op.k].inum) ==> x in Step(s, op).fs
  {
  }

  // Without a lookup of ".." in a removed directory, ialloc's inode also stays its own.
  lemma StepSafe(s: State, op: Op)
    requires Inv(s) && Safe(s) && Enabled(s, op) && !OffTree(s, op) && !GoesUp(s, op)
    ensures Safe(Step(s, op)) && !Strays(s, op)
  {
    hide Step;
    if op.GetNew? {
      assert PromiseOk(s, op.inum);
    }
    StepAlive(s, op);
    var s' := Step(s, op);
    forall i ensures PromiseOk(s', i) {
      assert PromiseOk(s, i);
      if op.GetRoot? || op.Lookup? || op.GetNew? {
        GetPromise(s, op, i);
      } else if OneSlot(op) {
        OneSlotPromise(s, op, i);
      } else {
        RestPromise(s, op, i);
      }
    }
  }

  lemma GetPromise(s: State, op: Op, i: int)
    requires Inv(s) && Safe(s) && Enabled(s, op) && !GoesUp(s, op) && (op.GetRoot? || op.Lookup? || op.GetNew?)
    ensures PromiseOk(Step(s, op), i)
  {
    hide Inv, Step, Enabled, Target, GetStep;
    StepGet(s, op);
    RootTarget(s, op);
    var x, t := Target(s, op), if op.GetNew? then s.(promised := s.promised - {op.inum}) else s;
    assert PromiseOk(s, i) && PromiseOk(s, x);
    RootStays(s);
    if op.Lookup? {
      LookupStays(s, op.pid, op.k, op.j);
    }
    GetOthers(t, op.pid, x, i);
  }

  // iget of x leaves an inode another than x as it is.
  lemma GetOthers(s: State, pid: int, x: int, i: int)
    requires |s.slots| == |s.users| && (i in s.promised ==> i != x)
    ensures PromiseOk(s, i) ==> PromiseOk(GetStep(s, pid, x), i)
  {
    CachedFound(s.slots, x, 0);
  }

  lemma OneSlotPromise(s: State, op: Op, i: int)
    requires Inv(s) && Safe(s) && Enabled(s, op) && OneSlot(op)
    ensures PromiseOk(Step(s, op), i)
  {
    hide Step, Enabled;
    StepOne(s, op);
    var s' := Step(s, op);
    assert PromiseOk(s, i);
    HolderRef(s, op.k, op.pid);
    if i in s.promised && s.slots[op.k].inum == i {
      OnlyFreed(s, op, i);
    }
  }

  // The iput that frees an inode is the only one left in its slot.
  lemma OnlyFreed(s: State, op: Op, i: int)
    requires Inv(s) && PromiseOk(s, i) && Enabled(s, op) && OneSlot(op) && i in s.promised && s.slots[op.k].inum == i
    ensures op.FreeEnd? && s.slots[op.k].ref == 1
  {
    hide Step, Enabled;
    StepOne(s, op);
    HolderRef(s, op.k, op.pid);
    assert SlotOk(s, op.k);
  }

  lemma RestPromise(s: State, op: Op, i: int)
    requires Inv(s) && Safe(s) && Enabled(s, op) && !OneSlot(op) && !op.GetRoot? && !op.Lookup? && !op.GetNew?
    ensures PromiseOk(Step(s, op), i)
  {
    var s' := Step(s, op);
    assert PromiseOk(s, i);
    DirsStay(s, op, i);
    forall k | In(s', k) && s'.slots[k].ref > 0 && s'.slots[k].inum == i && i in s'.promised
      ensures s'.users[k].phase == Freed && s'.slots[k].ref == 1 {
      SameUsers(s, op, k);
      assert AliveAt(s, k) && SlotOk(s, k);
    }
    if op.Create? || op.Link? || op.Unlink? {
      assert In(s, op.ki);
      if op.Link? {
        HolderRef(s, op.ki, op.pid);
      } else {
        LockedCopy(s, op.pid, op.ki);
      }
    }
  }

  // ---------- runs ----------

  // An empty cache over a disk on which every allocated inode has a link, and no transaction.
  function Boot(n: nat, fs: L.Fs, shape: L.Shape): State
  {
    State(seq(n, _ => Slot(0, 0, false, false, Free)), seq(n, _ => Users(multiset{}, NONE, Normal)),
          fs, shape, {}, map[], false, Running)
  }

  ghost predicate Bootable(fs: L.Fs, shape: L.Shape)
  {
    L.Inv(fs, shape) && forall i :: i in fs ==> fs[i].nlink > 0
  }

  lemma BootInv(n: nat, fs: L.Fs, shape: L.Shape)
    requires Bootable(fs, shape)
    ensures Inv(Boot(n, fs, shape)) && Safe(Boot(n, fs, shape))
  {
    var s := Boot(n, fs, shape);
    forall k ensures SlotOk(s, k) && AliveAt(s, k) {
    }
    forall j, k ensures UniqueAt(s, j, k) {
    }
    forall i ensures LeakOk(s, i) && PromiseOk(s, i) {
    }
  }

  // A run: steps that cannot be taken are left out.
  ghost function Run(s: State, ops: seq<Op>): State
  {
    if ops == [] then s
    else
      var t := Run(s, ops[..|ops| - 1]);
      if Enabled(t, ops[|ops| - 1]) then Step(t, ops[|ops| - 1]) else t
  }

  // No step of the run gives a name in a removed directory.
  ghost predicate OnTree(s: State, ops: seq<Op>)
  {
    forall i :: 0 <= i < |ops| ==> !OffTree(Run(s, ops[..i]), ops[i])
  }

  // No step of the run looks up ".." in a removed directory.
  ghost predicate StaysDown(s: State, ops: seq<Op>)
  {
    forall i :: 0 <= i < |ops| ==> !GoesUp(Run(s, ops[..i]), ops[i])
  }

  lemma Front(s: State, ops: seq<Op>)
    requires ops != []
    ensures OnTree(s, ops) ==> OnTree(s, ops[..|ops| - 1]) && !OffTree(Run(s, ops[..|ops| - 1]), ops[|ops| - 1])
    ensures StaysDown(s, ops) ==> StaysDown(s, ops[..|ops| - 1]) && !GoesUp(Run(s, ops[..|ops| - 1]), ops[|ops| - 1])
  {
    var front := ops[..|ops| - 1];
    assert forall i :: 0 <= i < |front| ==> front[..i] == ops[..i] && front[i] == ops[i];
  }

  lemma {:induction false} RunCache(s: State, ops: seq<Op>)
    requires CacheOk(s) && s.stop != PutBusy
    ensures CacheOk(Run(s, ops)) && Run(s, ops).stop != PutBusy
  {
    hide CacheOk, Step;
    if ops != [] {
      var t, op := Run(s, ops[..|ops| - 1]), ops[|ops| - 1];
      RunCache(s, ops[..|ops| - 1]);
      if Enabled(t, op) {
        CacheKeeps(t, op);
        NotPutBusy(t, op);
      }
    }
  }

  // The panic of iput on a locked inode cannot happen.
  lemma NotPutBusy(s: State, op: Op)
    requires CacheOk(s) && Enabled(s, op)
    ensures Step(s, op).stop != PutBusy
  {
    match op
    case Put(pid, k) => PutKeeps(s, pid, k);
    case _ =>
  }

  lemma {:induction false} RunInv(s: State, ops: seq<Op>)
    requires Inv(s) && OnTree(s, ops) && s.stop != PutBusy
    ensures Inv(Run(s, ops)) && Run(s, ops).stop != PutBusy
  {
    hide Inv, Step;
    if ops != [] {
      Front(s, ops);
      var t, op := Run(s, ops[..|ops| - 1]), ops[|ops| - 1];
      RunInv(s, ops[..|ops| - 1]);
      if Enabled(t, op) {
        StepKeeps(t, op);
        StopsFor(t, op);
      }
    }
  }

  // Why a step stops the run.
  lemma StopsFor(s: State, op: Op)
    requires Inv(s) && Enabled(s, op)
    ensures Step(s, op).stop ==
            if Logs(op) && !s.busy then OutsideTrans
            else if (op.GetRoot? || op.Lookup? || op.GetNew?) && GetSlot(s.slots, Target(s, op)) == NONE then NoInodes
            else if op.Lock? && s.slots[op.k].inum !in s.fs then NoType
            else Running
  {
    match op
    case Lock(pid, k) => LockKeeps(s, pid, k);
    case Put(pid, k) => PutKeeps(s, pid, k);
    case Unlink(_, k, j, ki) => L.ErasableIff(s.fs, s.shape, s.slots[k].inum, j);
    case _ =>
  }

  lemma {:induction false} RunSafe(s: State, ops: seq<Op>)
    requires Inv(s) && Safe(s) && OnTree(s, ops) && StaysDown(s, ops) && s.stop != PutBusy && s.stop != NoType
    ensures Safe(Run(s, ops)) && Run(s, ops).stop != NoType
  {
    hide Inv, Safe, Step;
    if ops != [] {
      Front(s, ops);
      var t, op := Run(s, ops[..|ops| - 1]), ops[|ops| - 1];
      RunSafe(s, ops[..|ops| - 1]);
      RunInv(s, ops[..|ops| - 1]);
      if Enabled(t, op) {
        StepSafe(t, op);
        StopsFor(t, op);
        if op.Lock? {
          LockAlive(t, op.pid, op.k);
        }
      }
    }
  }

  // Whoever locks an inode while nobody has strayed finds it allocated.
  lemma LockAlive(s: State, pid: int, k: int)
    requires Inv(s) && Safe(s) && Enabled(s, Lock(pid, k))
    ensures s.slots[k].inum in s.fs
  {
    HolderRef(s, k, pid);
    assert SlotOk(s, k) && AliveAt(s, k);
  }

  // The reference count is the number of references, who has an inode locked sees it as it is on
  // disk, and what is about to be freed has no links.
  ghost predicate RefsAt(s: State, pid: int, k: int)
  {
    In(s, k) ==>
      && s.slots[k].ref == |s.users[k].holders|
      && (Locked(s, pid, k) ==>
             s.slots[k].valid && s.slots[k].din.Alloc? && s.slots[k].din == OnDisk(s.fs, s.slots[k].inum))
      && (Enabled(s, FreeDisk(pid, k)) ==> s.slots[k].inum in s.fs && s.fs[s.slots[k].inum].nlink == 0)
  }

  lemma CacheRefs(s: State, pid: int, j: int, k: int)
    requires CacheOk(s)
    ensures RefsAt(s, pid, k) && UniqueAt(s, j, k)
  {
    assert SlotOk(s, k);
    if Locked(s, pid, k) {
      LockedCopy(s, pid, k);
    }
    if Enabled(s, FreeDisk(pid, k)) {
      FreeDiskKeeps(s, pid, k);
    }
  }

  // This is so in every run, no inode is in two slots, and iput never panics over a locked inode.
  lemma References(n: nat, fs: L.Fs, shape: L.Shape, ops: seq<Op>, pid: int, j: int, k: int)
    requires Bootable(fs, shape)
    ensures var s := Run(Boot(n, fs, shape), ops); RefsAt(s, pid, k) && UniqueAt(s, j, k) && s.stop != PutBusy
  {
    hide CacheOk, Safe, RefsAt, UniqueAt, Run, Bootable;
    BootInv(n, fs, shape);
    RunCache(Boot(n, fs, shape), ops);
    CacheRefs(Run(Boot(n, fs, shape), ops), pid, j, k);
  }

  // ilock finds an allocated inode, and nobody else refers to one about to be freed.
  ghost predicate FreeAt(s: State, pid: int, k: int)
  {
    && (Enabled(s, Lock(pid, k)) ==> s.slots[k].inum in s.fs)
    && (Enabled(s, FreeDisk(pid, k)) ==> s.users[k].holders == multiset{pid})
  }

  lemma SafeFree(s: State, pid: int, k: int)
    requires Inv(s) && Safe(s)
    ensures FreeAt(s, pid, k)
  {
    if Enabled(s, Lock(pid, k)) {
      LockAlive(s, pid, k);
    }
    if Enabled(s, FreeDisk(pid, k)) {
      HolderRef(s, k, pid);
      assert AliveAt(s, k);
    }
  }

  // This is so in every run that never looks up ".." in a removed directory.
  lemma NeverFree(n: nat, fs: L.Fs, shape: L.Shape, ops: seq<Op>, pid: int, k: int)
    requires Bootable(fs, shape) && OnTree(Boot(n, fs, shape), ops) && StaysDown(Boot(n, fs, shape), ops)
    ensures var s := Run(Boot(n, fs, shape), ops); FreeAt(s, pid, k) && s.stop != NoType
  {
    hide Inv, Safe, FreeAt, Run, OnTree, StaysDown, Bootable;
    BootInv(n, fs, shape);
    RunInv(Boot(n, fs, shape), ops);
    RunSafe(Boot(n, fs, shape), ops);
    SafeFree(Run(Boot(n, fs, shape), ops), pid, k);
  }

  // Otherwise it does: who follows ".." to a freed parent and locks what it finds panics.
  lemma UpPanics(s: State, pid: int, k: int, j: int)
    requires CacheOk(s) && Enabled(s, Lookup(pid, k, j)) && GoesUp(s, Lookup(pid, k, j))
    requires FirstFree(s.slots, 0) != NONE
    requires var p := Target(s, Lookup(pid, k, j)); p !in s.fs && Cached(s.slots, p, 0) == NONE
    ensures Strays(s, Lookup(pid, k, j))
    ensures var s', x := Step(s, Lookup(pid, k, j)), FirstFree(s.slots, 0);
            Enabled(s', Lock(pid, x)) && Step(s', Lock(pid, x)).stop == NoType
  {
  }

  // ---------- the last iput ----------

  // In every run an allocated inode that lost its last link is still referred to, and the iput of
  // the last reference sets out to free it.
  lemma NoLeak(n: nat, fs: L.Fs, shape: L.Shape, ops: seq<Op>, i: int)
    requires Bootable(fs, shape)
    ensures var s := Run(Boot(n, fs, shape), ops);
            i in s.fs && s.fs[i].nlink == 0 && i !in s.newborn ==>
              exists k ::
                && In(s, k) && s.slots[k].inum == i && s.slots[k].ref > 0
                && (s.slots[k].ref == 1 ==> Frees(s.slots[k]))
  {
    BootInv(n, fs, shape);
    RunCache(Boot(n, fs, shape), ops);
    var s := Run(Boot(n, fs, shape), ops);
    assert LeakOk(s, i);
    if i in s.fs && s.fs[i].nlink == 0 && i !in s.newborn {
      var k :| KnownAt(s, i, k);
      assert SlotOk(s, k);
    }
  }

  // It does free it exactly if a transaction is open; outside one it panics.
  lemma LastPut(s: State, pid: int, k: int)
    requires CacheOk(s) && Enabled(s, Put(pid, k)) && Frees(s.slots[k])
    ensures var t := Step(s, Put(pid, k));
            && t.stop == Running && Enabled(t, FreeDisk(pid, k)) && t.busy == s.busy && s.slots[k].inum in t.fs
            && var u := Step(t, FreeDisk(pid, k));
               && (s.slots[k].inum !in u.fs <==> s.busy)
               && u.stop == if s.busy then Running else OutsideTrans
  {
    PutKeeps(s, pid, k);
    HolderRef(s, k, pid);
    assert SlotOk(s, k);
  }
}
