/**
  iget, idup, ilock, iunlock and iput (fs.c), against the steps of IcacheSpec.
 */
module Icache {
  import opened IcacheSpec
  import L = LinkSpec

  class Cache {
    var slots: seq<Slot>
    var fs: L.Fs
    var busy: bool
    ghost var users: seq<Users>
    ghost var shape: L.Shape
    ghost var newborn: set<int>
    ghost var promised: map<int, int>
    ghost var stop: Stop

    ghost function Abs(): State
      reads this
    {
      State(slots, users, fs, shape, newborn, promised, busy, stop)
    }

    constructor (n: nat, fs: L.Fs, ghost shape: L.Shape)
      requires Bootable(fs, shape)
      ensures Abs() == Boot(n, fs, shape) && Inv(Abs()) && Safe(Abs())
    {
      slots := seq(n, _ => Slot(0, 0, false, false, Free));
      users := seq(n, _ => Users(multiset{}, NONE, Normal));
      this.fs, this.shape, newborn, promised, busy, stop := fs, shape, {}, map[], false, Running;
      new;
      BootInv(n, fs, shape);
    }

    // The slot of the inode, one reference more; NONE stands for the panic when all are in use.
    method Iget(inum: int, ghost pid: int) returns (ip: int)
      requires CacheOk(Abs())
      modifies this`slots, this`users, this`stop
      ensures Abs() == GetStep(old(Abs()), pid, inum) && CacheOk(Abs()) && ip == GetSlot(old(slots), inum)
      ensures ip != NONE ==> slots[ip].inum == inum && pid in users[ip].holders
      // the slot that has it, else the first that nobody uses
      ensures var was := old(slots);
              if exists k :: 0 <= k < |was| && was[k].ref > 0 && was[k].inum == inum
              then && 0 <= ip < |was| && was[ip].ref > 0 && was[ip].inum == inum
                   && slots == was[ip := was[ip].(ref := was[ip].ref + 1)] && stop == old(stop)
              else if exists k :: 0 <= k < |was| && was[k].ref == 0
              then && 0 <= ip < |was| && was[ip].ref == 0 && (forall k :: 0 <= k < ip ==> was[k].ref != 0)
                   && slots == was[ip := Slot(1, inum, false, false, was[ip].din)] && stop == old(stop)
              else ip == NONE && slots == was && users == old(users) && stop == NoInodes
    {
      hide CacheOk;
      Lengths();
      GetKeeps(Abs(), pid, inum);
      CachedFound(slots, inum, 0);
      var empty := NONE;
      ip := 0;
      while ip < |slots|
        invariant 0 <= ip <= |slots| && Abs() == old(Abs())
        invariant Cached(slots, inum, 0) == Cached(slots, inum, ip)
        invariant FirstFree(slots, 0) == if empty != NONE then empty else FirstFree(slots, ip)
        invariant forall k :: 0 <= k < ip ==> slots[k].ref <= 0 || slots[k].inum != inum
        invariant if empty == NONE then forall k :: 0 <= k < ip ==> slots[k].ref != 0
                  else 0 <= empty < |slots| && slots[empty].ref == 0 && forall k :: 0 <= k < empty ==> slots[k].ref != 0
        decreases |slots| - ip
      {
        if slots[ip].ref > 0 && slots[ip].inum == inum {
          slots := slots[ip := slots[ip].(ref := slots[ip].ref + 1)];
          users := users[ip := users[ip].(holders := users[ip].holders + multiset{pid})];
          return;
        }
        if empty == NONE && slots[ip].ref == 0 {
          empty := ip;
        }
        ip := ip + 1;
      }
      if empty == NONE {
        stop := NoInodes;
        return NONE;
      }
      ip := empty;
      slots := slots[ip := Slot(1, inum, false, false, slots[ip].din)];
      users := users[ip := Users(multiset{pid}, NONE, Normal)];
    }

    lemma Lengths()
      requires CacheOk(Abs())
      ensures |slots| == |users|
    {
    }

    // ialloc: mark a free inode allocated on disk.
    method IallocDisk(inum: int, kind: L.Kind, ghost pid: int) returns (ok: bool)
      requires CacheOk(Abs()) && Enabled(Abs(), AllocDisk(pid, inum, kind))
      modifies this`fs, this`newborn, this`promised, this`stop
      ensures Abs() == Step(old(Abs()), AllocDisk(pid, inum, kind)) && CacheOk(Abs()) && ok == busy
      ensures if ok then fs == old(fs)[inum := L.Inode(kind, 0, [])] else fs == old(fs) && stop == OutsideTrans
    {
      CacheKeeps(Abs(), AllocDisk(pid, inum, kind));
      if !busy {
        stop := OutsideTrans;
        return false;
      }
      fs := fs[inum := L.Inode(kind, 0, [])];
      newborn := newborn + {inum};
      promised := promised[inum := pid];
      return true;
    }

    // And get a reference to it.
    method IallocGet(inum: int, ghost pid: int) returns (ip: int)
      requires CacheOk(Abs()) && Enabled(Abs(), GetNew(pid, inum))
      modifies this`slots, this`users, this`promised, this`stop
      ensures Abs() == Step(old(Abs()), GetNew(pid, inum)) && CacheOk(Abs()) && ip == GetSlot(old(slots), inum)
    {
      hide CacheOk, GetStep;
      CacheKeeps(Abs(), GetNew(pid, inum));
      Stopped(Abs(), Abs().(promised := promised - {inum}));
      promised := promised - {inum};
      ip := Iget(inum, pid);
    }

    method Idup(ip: int, ghost pid: int, ghost to: int)
      requires CacheOk(Abs()) && Enabled(Abs(), Dup(pid, ip, to))
      modifies this`slots, this`users
      ensures Abs() == Step(old(Abs()), Dup(pid, ip, to)) && CacheOk(Abs())
      ensures slots == old(slots)[ip := old(slots)[ip].(ref := old(slots)[ip].ref + 1)]
    {
      CacheKeeps(Abs(), Dup(pid, ip, to));
      slots := slots[ip := slots[ip].(ref := slots[ip].ref + 1)];
      users := users[ip := users[ip].(holders := users[ip].holders + multiset{to})];
    }

    // Lock the inode and read it from disk if need be. The caller holds a reference; waits is that
    // it sleeps because the inode is locked. Otherwise it panics exactly if the inode is free.
    method Ilock(ip: int, ghost pid: int) returns (waits: bool, ok: bool)
      requires CacheOk(Abs()) && In(Abs(), ip) && pid in users[ip].holders && pid != NONE && stop == Running
      modifies this`slots, this`users, this`stop
      ensures CacheOk(Abs()) && waits == old(slots[ip].busy)
      ensures waits ==> Abs() == old(Abs())
      ensures !waits ==> Enabled(old(Abs()), Lock(pid, ip)) && Abs() == Step(old(Abs()), Lock(pid, ip))
      ensures !waits ==> (ok <==> slots[ip].inum in fs) && (ok <==> stop == Running)
      ensures !waits && ok ==> slots[ip].busy && slots[ip].valid && slots[ip].din == OnDisk(fs, slots[ip].inum)
      ensures !waits && ok ==>
                && slots == old(slots)[ip := Slot(old(slots)[ip].ref, old(slots)[ip].inum, true, true, slots[ip].din)]
                && users == old(users)[ip := old(users)[ip].(owner := pid)]
      ensures waits || !ok ==> slots == old(slots) && users == old(users)
    {
      hide CacheOk;
      ok := true;
      if slots[ip].busy {
        return true, ok;
      }
      assert Enabled(Abs(), Lock(pid, ip));
      LockKeeps(Abs(), pid, ip);
      Copied(ip, pid);
      if !slots[ip].valid && slots[ip].inum !in fs {
        stop := NoType;
        return false, false;
      }
      slots := slots[ip := slots[ip].(busy := true)];
      users := users[ip := users[ip].(owner := pid)];
      if !slots[ip].valid {
        slots := slots[ip := slots[ip].(din := OnDisk(fs, slots[ip].inum))];
        slots := slots[ip := slots[ip].(valid := true)];
      }
      assert Abs() == LockStep(old(Abs()), pid, ip);
      return false, ok;
    }

    lemma Copied(ip: int, pid: int)
      requires CacheOk(Abs()) && In(Abs(), ip) && pid in users[ip].holders && !slots[ip].busy
      ensures slots[ip].valid ==> slots[ip].inum in fs && slots[ip].din == OnDisk(fs, slots[ip].inum)
    {
      HolderRef(Abs(), ip, pid);
      assert SlotOk(Abs(), ip);
    }

    method Iunlock(ip: int, ghost pid: int)
      requires CacheOk(Abs()) && Enabled(Abs(), Unlock(pid, ip))
      modifies this`slots, this`users
      ensures Abs() == Step(old(Abs()), Unlock(pid, ip)) && CacheOk(Abs())
      ensures slots == old(slots)[ip := old(slots)[ip].(busy := false)]
    {
      CacheKeeps(Abs(), Unlock(pid, ip));
      slots := slots[ip := slots[ip].(busy := false)];
      users := users[ip := users[ip].(owner := NONE)];
    }

    // iput up to where it lets go of icache.lock: done, or freeing the inode. The panic on a locked
    // inode cannot happen.
    method Iput(ip: int, ghost pid: int) returns (freeing: bool)
      requires CacheOk(Abs()) && Enabled(Abs(), Put(pid, ip))
      modifies this`slots, this`users
      ensures Abs() == Step(old(Abs()), Put(pid, ip)) && CacheOk(Abs()) && stop == Running
      ensures freeing <==> Frees(old(slots[ip]))
      // it frees an inode without links with its last reference
      ensures var was := old(slots)[ip];
              && (freeing <==> was.ref == 1 && was.valid && was.din.Alloc? && was.din.nlink == 0)
              && slots == old(slots)[ip := if freeing then was.(busy := true) else was.(ref := was.ref - 1)]
    {
      CacheKeeps(Abs(), Put(pid, ip));
      PutKeeps(Abs(), pid, ip);
      freeing := slots[ip].ref == 1 && slots[ip].valid && slots[ip].din.Alloc? && slots[ip].din.nlink == 0;
      if freeing {
        if slots[ip].busy {
          assert false;
        }
        slots := slots[ip := slots[ip].(busy := true)];
        users := users[ip := users[ip].(owner := pid, phase := Freeing)];
      } else {
        slots := slots[ip := slots[ip].(ref := slots[ip].ref - 1)];
        users := users[ip := users[ip].(holders := users[ip].holders - multiset{pid})];
      }
    }

    // The free inode reaches the disk exactly if a transaction is open; outside one it panics, as
    // after the iput of exit and of chdir.
    method IputFree(ip: int, ghost pid: int) returns (ok: bool)
      requires CacheOk(Abs()) && Enabled(Abs(), FreeDisk(pid, ip))
      modifies this`slots, this`users, this`fs, this`stop
      ensures Abs() == Step(old(Abs()), FreeDisk(pid, ip)) && CacheOk(Abs())
      ensures ok == busy && (ok <==> slots[ip].inum !in fs) && (ok <==> stop == Running)
      ensures if ok then && fs == old(fs) - {old(slots)[ip].inum}
                         && slots == old(slots)[ip := old(slots)[ip].(din := Free)]
              else fs == old(fs) && slots == old(slots)
    {
      CacheKeeps(Abs(), FreeDisk(pid, ip));
      FreeDiskKeeps(Abs(), pid, ip);
      if !busy {
        stop := OutsideTrans;
        return false;
      }
      slots := slots[ip := slots[ip].(din := Free)];
      fs := fs - {slots[ip].inum};
      users := users[ip := users[ip].(phase := Freed)];
      return true;
    }

    // The end of iput after that: whoever has got hold of the inode meanwhile reads it from disk.
    method IputEnd(ip: int, ghost pid: int)
      requires CacheOk(Abs()) && Enabled(Abs(), FreeEnd(pid, ip))
      modifies this`slots, this`users
      ensures Abs() == Step(old(Abs()), FreeEnd(pid, ip)) && CacheOk(Abs())
      ensures var was := old(slots)[ip];
              slots == old(slots)[ip := was.(busy := false, valid := false, ref := was.ref - 1)]
    {
      CacheKeeps(Abs(), FreeEnd(pid, ip));
      slots := slots[ip := slots[ip].(busy := false, valid := false)];
      slots := slots[ip := slots[ip].(ref := slots[ip].ref - 1)];
      users := users[ip := Users(users[ip].holders - multiset{pid}, NONE, Normal)];
    }
  }
}
