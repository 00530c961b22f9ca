/**
  The inode layer of fs.c as the code that runs, against the values of FsSpec.

  The bitmap, the inode table and the block contents are the sectors as the buffer cache shows
  them to a transaction; an inode the caller has locked also has its copy in memory.
 */
module FileSystem {
  import opened FsSpec
  import opened FsLog

  const T_DEV: int := 3
  const UINT: int := 0x1_0000_0000
  const LOGSIZE: int := 10

  // A block address, or what stops the call: a panic of balloc or log_write, or the panic on a block
  // beyond the largest file.
  datatype Mapping = At(addr: int) | Panicked | OutOfRange

  // A byte count, -1, the device routine's answer, or the panic that stops the call.
  datatype Count = Bytes(n: nat) | Fail | Device | Panic

  ghost predicate AllSet(bits: seq<bool>)
  {
    forall b :: 0 <= b < |bits| ==> bits[b]
  }

  // ---------- what a call logs ----------

  ghost predicate IsData(fs: Fs, ino: int, bn: int, s: int)
  {
    s != 0 && Addr(fs, Data(ino, bn)) == s
  }

  // s is the inode's sector, a bitmap sector, the indirect block or one of blocks lo .. hi-1.
  ghost predicate Touch(sb: Super, fs: Fs, ino: int, lo: int, hi: int, s: int)
  {
    || s == Iblock(ino)
    || (exists b :: 0 <= b < sb.size && s == Bblock(sb, b))
    || (s != 0 && s == Addr(fs, Indirect(ino)))
    || (exists bn :: lo <= bn < hi && IsData(fs, ino, bn, s))
  }

  ghost predicate LogsOnly(a: set<int>, b: set<int>, sb: Super, fs: Fs, ino: int, lo: int, hi: int)
  {
    forall s :: s in b ==> s in a || Touch(sb, fs, ino, lo, hi, s)
  }

  lemma LogsMore(a: set<int>, b: set<int>, c: set<int>, sb: Super, fs: Fs, fs': Fs, ino: int, lo: int, hi: int,
                 lo': int, hi': int)
    requires LogsOnly(a, b, sb, fs, ino, lo, hi) && LogsOnly(b, c, sb, fs', ino, lo', hi')
    requires lo <= lo' && hi <= hi' && forall q :: KeepsAddr(fs, fs', q)
    ensures LogsOnly(a, c, sb, fs', ino, lo, hi')
  {
    forall s | s in c && s !in a ensures Touch(sb, fs', ino, lo, hi', s) {
      if s in b {
        assert Touch(sb, fs, ino, lo, hi, s);
        assert KeepsAddr(fs, fs', Indirect(ino));
        if bn :| lo <= bn < hi && IsData(fs, ino, bn, s) {
          assert KeepsAddr(fs, fs', Data(ino, bn));
          assert IsData(fs', ino, bn, s);
        }
      } else {
        assert Touch(sb, fs', ino, lo', hi', s);
      }
    }
  }

  // What balloc logs for block bn, or for the indirect block.
  lemma BallocLogs(a: set<int>, sb: Super, fs: Fs, ino: int, bn: int, b: int)
    requires 0 <= b < sb.size && (b == Addr(fs, Indirect(ino)) || b == Addr(fs, Data(ino, bn))) && b != 0
    ensures LogsOnly(a, a + {Bblock(sb, b), b}, sb, fs, ino, bn, bn + 1)
  {
    assert Touch(sb, fs, ino, bn, bn + 1, Bblock(sb, b));
    assert b == Addr(fs, Data(ino, bn)) ==> IsData(fs, ino, bn, b);
    assert Touch(sb, fs, ino, bn, bn + 1, b);
  }

  lemma LogsSelf(a: set<int>, sb: Super, fs: Fs, ino: int, bn: int)
    ensures LogsOnly(a, a, sb, fs, ino, bn, bn + 1)
  {
  }

  lemma InodeShape(sb: Super, fs: Fs, owner: Owner, ino: int)
    requires Owned(sb, fs, owner) && 0 <= ino < |fs.inodes|
    ensures |fs.inodes[ino].addrs| == NDIRECT + 1 && |fs.bits| == |fs.blocks| == sb.size && |fs.inodes| == sb.ninodes
  {
    assert InodeOk(fs, ino);
  }

  lemma GrownSelf(fs: Fs, ino: int)
    ensures Grown(fs, fs, ino)
  {
  }

  lemma GrownKeeps(fs: Fs, fs': Fs, ino: int)
    requires Grown(fs, fs', ino)
    ensures forall q :: KeepsAddr(fs, fs', q)
  {
  }

  lemma GrownProgress(fs: Fs, fs': Fs, ino: int)
    requires Grown(fs, fs', ino)
    ensures Progress(fs, fs', ino)
  {
  }

  lemma GrownFile(fs: Fs, fs': Fs, ino: int, len: nat)
    requires Grown(fs, fs', ino)
    ensures File(fs', ino, len) == File(fs, ino, len)
  {
    SameFile(fs, fs', ino, len);
  }

  lemma RoundLogs(a: set<int>, b: set<int>, sb: Super, fs: Fs, fs': Fs, ino: int, bn: int, addr: int)
    requires LogsOnly(a, b, sb, fs, ino, bn, bn + 1) && Progress(fs, fs', ino)
    requires addr == Addr(fs', Data(ino, bn)) != 0
    ensures LogsOnly(a, b + {addr}, sb, fs', ino, bn, bn + 1)
  {
    assert IsData(fs', ino, bn, addr);
    assert Touch(sb, fs', ino, bn, bn + 1, addr);
    assert LogsOnly(b, b + {addr}, sb, fs', ino, bn, bn + 1);
    LogsMore(a, b, b + {addr}, sb, fs, fs', ino, bn, bn + 1, bn, bn + 1);
  }

  function Max(a: int, b: int): int
  {
    if a < b then b else a
  }

  lemma ProgressKeeps(fs: Fs, fs': Fs, ino: int)
    requires Progress(fs, fs', ino)
    ensures (forall q :: KeepsAddr(fs, fs', q)) && OthersSame(fs, fs', ino)
    ensures FsSpec.Inode(fs', ino) == FsSpec.Inode(fs, ino).(addrs := FsSpec.Inode(fs', ino).addrs)
  {
  }

  // The facts writei's loop starts from.
  lemma WriteStart(fs: Fs, ino: int, c: seq<int>, off: nat, src: seq<int>, a: set<int>, sb: Super)
    requires off <= |c|
    ensures Progress(fs, fs, ino) && Spliced(c, off, src[..0]) == c
    ensures LogsOnly(a, a, sb, fs, ino, off / BSIZE, (off + BSIZE - 1) / BSIZE)
  {
  }

  // One round of writei's loop stays in its block and reaches to the end of it or of the data.
  lemma RoundBounds(off: nat, tot: nat, k: nat, n: nat)
    requires tot < n && off + n <= MAXFILE * BSIZE
    requires k == if n - tot < BSIZE - (off + tot) % BSIZE then n - tot else BSIZE - (off + tot) % BSIZE
    ensures 0 < k <= n - tot && (off + tot) % BSIZE + k <= BSIZE && (off + tot) / BSIZE < MAXFILE
    ensures (off + tot + k + BSIZE - 1) / BSIZE == (off + tot) / BSIZE + 1
    ensures off / BSIZE <= (off + tot) / BSIZE && (off + tot + BSIZE - 1) / BSIZE <= (off + tot) / BSIZE + 1
  {
  }

  // What it adds up to.
  lemma RoundDone(a: set<int>, b: set<int>, c: set<int>, sb: Super, fs0: Fs, fs1: Fs, fs2: Fs, ino: int,
                  was: seq<int>, off: nat, src: seq<int>, tot: nat, k: nat)
    requires Progress(fs0, fs1, ino) && Progress(fs1, fs2, ino) && off <= |was| && tot + k <= |src|
    requires LogsOnly(a, b, sb, fs1, ino, off / BSIZE, (off + tot + BSIZE - 1) / BSIZE)
    requires LogsOnly(b, c, sb, fs2, ino, (off + tot) / BSIZE, (off + tot) / BSIZE + 1)
    requires off / BSIZE <= (off + tot) / BSIZE && (off + tot + BSIZE - 1) / BSIZE <= (off + tot) / BSIZE + 1
    ensures Progress(fs0, fs2, ino)
    ensures LogsOnly(a, c, sb, fs2, ino, off / BSIZE, (off + tot) / BSIZE + 1)
    ensures Spliced(Spliced(was, off, src[..tot]), off + tot, src[tot..tot + k]) == Spliced(was, off, src[..tot + k])
  {
    hide Progress, LogsOnly, Spliced;
    ProgressTwice(fs0, fs1, fs2, ino);
    ProgressKeeps(fs1, fs2, ino);
    LogsMore(a, b, c, sb, fs1, fs2, ino, off / BSIZE, (off + tot + BSIZE - 1) / BSIZE, (off + tot) / BSIZE,
             (off + tot) / BSIZE + 1);
    SplicedTwice(was, off, src[..tot], src[tot..tot + k]);
    assert src[..tot] + src[tot..tot + k] == src[..tot + k];
  }

  // Setting the size after the loop.
  lemma ResizeRest(fs0: Fs, fs1: Fs, fs: Fs, ino: int, len: nat, a: set<int>, b: set<int>, sb: Super, lo: int, hi: int)
    requires Progress(fs0, fs1, ino) && Dense(fs1, ino, len)
    requires (forall q :: Addr(fs, q) == Addr(fs1, q)) && (forall i :: SameBlocks(fs1, fs, i))
    requires forall i :: i != ino ==> SameInode(fs1, fs, i)
    requires LogsOnly(a, b, sb, fs1, ino, lo, hi)
    ensures Dense(fs, ino, len) && OthersSame(fs0, fs, ino) && (forall q :: KeepsAddr(fs0, fs, q))
    ensures LogsOnly(a, b + {Iblock(ino)}, sb, fs, ino, lo, hi)
  {
    forall bn ensures Mapped(fs, ino, bn, len) {
      assert Mapped(fs1, ino, bn, len);
    }
    forall i | i != ino ensures SameBlocks(fs0, fs, i) {
      assert SameBlocks(fs0, fs1, i) && SameBlocks(fs1, fs, i);
      forall bn ensures BlockOf(fs, i, bn) == BlockOf(fs0, i, bn) {
        assert BlockOf(fs1, i, bn) == BlockOf(fs0, i, bn);
      }
    }
    forall i | i != ino ensures SameInode(fs0, fs, i) {
      assert SameInode(fs0, fs1, i) && SameInode(fs1, fs, i);
    }
    forall q ensures KeepsAddr(fs0, fs, q) {
      assert KeepsAddr(fs0, fs1, q);
    }
    forall q: Role | q.ino != ino ensures SameAddr(fs0, fs, q) {
      assert SameAddr(fs0, fs1, q);
    }
    forall q ensures KeepsAddr(fs1, fs, q) {
    }
    assert Touch(sb, fs, ino, lo, hi, Iblock(ino));
    assert LogsOnly(b, b + {Iblock(ino)}, sb, fs, ino, lo, hi);
    LogsMore(a, b, b + {Iblock(ino)}, sb, fs1, fs, ino, lo, hi, lo, hi);
  }

  ghost predicate SubOwner(a: Owner, b: Owner)
  {
    forall c :: c in a ==> c in b && a[c] == b[c]
  }

  ghost predicate BitmapOnly(a: set<int>, b: set<int>, sb: Super)
  {
    forall s :: s in b ==> s in a || exists c :: 0 <= c < sb.size && s == Bblock(sb, c)
  }

  // Slots lo .. hi-1 of ino are empty in fs', its other slots are as in fs.
  ghost predicate Cleared(fs: Fs, fs': Fs, ino: int, lo: int, hi: int)
  {
    && (forall bn :: Addr(fs', Data(ino, bn)) == if lo <= bn < hi then 0 else Addr(fs, Data(ino, bn)))
    && Addr(fs', Indirect(ino)) == Addr(fs, Indirect(ino))
  }

  // All indirect slots of ino and its indirect block are gone, its direct slots are as in fs.
  ghost predicate IndirectCleared(fs: Fs, fs': Fs, ino: int)
  {
    && Addr(fs', Indirect(ino)) == 0
    && (forall bn :: Addr(fs', Data(ino, bn)) == if NDIRECT <= bn < MAXFILE then 0 else Addr(fs, Data(ino, bn)))
  }

  lemma BitmapAgain(a: set<int>, b: set<int>, ino: int, sb: Super)
    requires BitmapOnly(a + {Iblock(ino)}, b, sb)
    ensures BitmapOnly(a + {Iblock(ino)}, b + {Iblock(ino)}, sb)
  {
  }

  lemma TruncStart(fs: Fs, ino: int, owner: Owner, logged: set<int>, sb: Super)
    ensures OthersSame(fs, fs, ino) && SubOwner(owner, owner) && BitmapOnly(logged, logged, sb)
    ensures Cleared(fs, fs, ino, 0, 0) && Cleared(fs, fs, ino, NDIRECT, NDIRECT)
  {
  }

  lemma ClearedSkip(fs: Fs, fs': Fs, ino: int, lo: int, hi: int)
    requires Cleared(fs, fs', ino, lo, hi) && Addr(fs', Data(ino, hi)) == 0
    ensures Cleared(fs, fs', ino, lo, hi + 1)
  {
  }

  // One round of truncation: what freeing the block in slot r = Data(ino, hi) does.
  lemma TruncFacts(sb: Super, fs0: Fs, fs: Fs, owner: Owner, r: Role, own0: Owner, log0: set<int>, logged: set<int>,
                   lo: int, hi: int)
    requires Owned(sb, fs, owner) && r.Data? && r.bn == hi && lo <= hi && Addr(fs, r) != 0
    requires OthersSame(fs0, fs, r.ino) && Cleared(fs0, fs, r.ino, lo, hi)
    requires SubOwner(owner, own0) && BitmapOnly(log0, logged, sb)
    ensures 0 < Addr(fs, r) < |fs.bits| == |fs.blocks| && 0 <= r.ino < |fs.inodes|
    ensures |fs.inodes[r.ino].addrs| == NDIRECT + 1 && fs.bits[Addr(fs, r)]
    ensures Owned(sb, Release(fs, r), owner - {Addr(fs, r)})
    ensures OthersSame(fs0, Release(fs, r), r.ino) && Cleared(fs0, Release(fs, r), r.ino, lo, hi + 1)
    ensures SubOwner(owner - {Addr(fs, r)}, own0)
    ensures BitmapOnly(log0, logged + {Bblock(sb, Addr(fs, r))}, sb)
  {
    ReleaseKeeps(sb, fs, owner, r);
    ReleaseOthers(sb, fs, owner, r);
    AddrRange(sb, fs, owner, r);
    OthersTwice(fs0, fs, Release(fs, r), r.ino);
    forall bn
      ensures Addr(Release(fs, r), Data(r.ino, bn)) == if lo <= bn < hi + 1 then 0 else Addr(fs0, Data(r.ino, bn)) {
      ReleaseAddr(sb, fs, owner, r, Data(r.ino, bn));
    }
    ReleaseAddr(sb, fs, owner, r, Indirect(r.ino));
  }

  // An entry not yet freed is still in the indirect block on disk.
  lemma EntrySeen(fs0: Fs, fs: Fs, ino: int, j: int)
    requires Cleared(fs0, fs, ino, NDIRECT, NDIRECT + j) && 0 <= j < NINDIRECT
    requires 0 < Addr(fs0, Indirect(ino)) < |fs0.blocks|
    ensures Addr(fs, Data(ino, NDIRECT + j)) == Entry(fs0.blocks[Addr(fs0, Indirect(ino))], j)
  {
  }

  // The end of truncation: freeing the indirect block, whose old contents no longer matter.
  lemma ReleaseIndirectFacts(sb: Super, fs0: Fs, fs: Fs, owner: Owner, ino: int, blk: Block, own0: Owner,
                             log0: set<int>, logged: set<int>)
    requires Owned(sb, fs, owner) && OthersSame(fs0, fs, ino) && Cleared(fs0, fs, ino, NDIRECT, MAXFILE)
    requires Addr(fs, Indirect(ino)) != 0 && SubOwner(owner, own0) && BitmapOnly(log0, logged, sb)
    ensures var a := Addr(fs, Indirect(ino));
            && 0 < a < |fs.bits| == |fs.blocks| && 0 <= ino < |fs.inodes| && |fs.inodes[ino].addrs| == NDIRECT + 1
                 && fs.bits[a]
            && SubOwner(owner - {a}, own0) && BitmapOnly(log0, logged + {Bblock(sb, a)}, sb)
    ensures var a := Addr(fs, Indirect(ino));
            var fs' := Release(fs, Indirect(ino)).(blocks := fs.blocks[a := blk]);
            Owned(sb, fs', owner - {a}) && OthersSame(fs0, fs', ino) && IndirectCleared(fs0, fs', ino)
  {
    var r := Indirect(ino);
    ReleaseKeeps(sb, fs, owner, r);
    ReleaseOthers(sb, fs, owner, r);
    AddrRange(sb, fs, owner, r);
    ReleaseAddr(sb, fs, owner, r, r);
    var fs1 := Release(fs, r);
    FreeContents(sb, fs1, owner - {Addr(fs, r)}, Addr(fs, r), blk);
    var fs' := fs1.(blocks := fs.blocks[Addr(fs, r) := blk]);
    assert fs1.blocks == fs.blocks;
    OthersTwice(fs0, fs, fs1, ino);
    forall q: Role ensures SameAddr(fs1, fs', q) {
    }
    OthersTwice(fs0, fs1, fs', ino);
    forall bn ensures Addr(fs', Data(ino, bn)) == if NDIRECT <= bn < MAXFILE then 0 else Addr(fs0, Data(ino, bn)) {
      ReleaseAddr(sb, fs, owner, r, Data(ino, bn));
    }
  }

  lemma TruncTwice(own0: Owner, own1: Owner, own2: Owner, log0: set<int>, log1: set<int>, log2: set<int>, ino: int,
                   sb: Super)
    requires SubOwner(own1, own0) && SubOwner(own2, own1)
    requires BitmapOnly(log0, log1, sb) && BitmapOnly(log1, log2, sb)
    ensures SubOwner(own2, own0) && BitmapOnly(log0 + {Iblock(ino)}, log2 + {Iblock(ino)}, sb)
  {
  }

  // What truncation has achieved once the size is set to zero.
  lemma TruncEnd(sb: Super, fs0: Fs, own0: Owner, fs1: Fs, fs2: Fs, own2: Owner, ino: int)
    requires Owned(sb, fs0, own0) && Owned(sb, fs2, own2) && SubOwner(own2, own0) && 0 <= ino < |fs2.inodes|
    requires OthersSame(fs0, fs1, ino) && Cleared(fs0, fs1, ino, 0, NDIRECT)
    requires (fs2 == fs1 && Addr(fs1, Indirect(ino)) == 0)
             || (OthersSame(fs1, fs2, ino) && IndirectCleared(fs1, fs2, ino))
    ensures var fs3 := fs2.(inodes := fs2.inodes[ino := fs2.inodes[ino].(size := 0)]);
            && Owned(sb, fs3, own2) && OthersSame(fs0, fs3, ino) && Empty(fs3, ino)
            && (forall b :: b in own2 <==> b in own0 && own0[b].ino != ino)
            && (forall b :: 0 <= b < sb.size ==> (fs3.bits[b] <==> fs0.bits[b] && !(b in own0 && own0[b].ino == ino)))
  {
    var fs3 := fs2.(inodes := fs2.inodes[ino := fs2.inodes[ino].(size := 0)]);
    ResizeKeeps(sb, fs2, own2, ino, 0);
    if fs2 != fs1 {
      OthersTwice(fs0, fs1, fs2, ino);
    }
    forall i | i != ino ensures SameInode(fs2, fs3, i) {
    }
    forall q ensures SameAddr(fs2, fs3, q) {
      assert Addr(fs3, q) == Addr(fs2, q);
    }
    OthersTwice(fs0, fs2, fs3, ino);
    forall bn ensures Addr(fs3, Data(ino, bn)) == 0 {
      assert Addr(fs3, Data(ino, bn)) == Addr(fs2, Data(ino, bn));
      assert Addr(fs1, Data(ino, bn)) == if 0 <= bn < NDIRECT then 0 else Addr(fs0, Data(ino, bn));
    }
    assert Addr(fs3, Indirect(ino)) == Addr(fs2, Indirect(ino));
    forall b
      ensures b in own2 <==> b in own0 && own0[b].ino != ino
      ensures 0 <= b < sb.size ==> (fs3.bits[b] <==> fs0.bits[b] && !(b in own0 && own0[b].ino == ino))
    {
      EmptiedOwner(sb, fs0, own0, fs3, own2, ino, b);
    }
  }

  lemma EmptySound(sb: Super, fs0: Fs, own0: Owner, fs: Fs, owner: Owner, ino: int)
    requires Sound(sb, fs0, own0) && Owned(sb, fs, owner) && OthersSame(fs0, fs, ino)
    requires Empty(fs, ino) && FsSpec.Inode(fs, ino).size == 0
    ensures Sound(sb, fs, owner)
  {
    assert Dense(fs, ino, 0);
    OthersSound(sb, fs0, own0, fs, owner, ino);
  }

  lemma RecycleEmpty(sb: Super, fs: Fs, owner: Owner, ino: int, d: Dinode)
    requires Sound(sb, fs, owner) && 0 <= ino < |fs.inodes| && Empty(fs, ino)
    requires d.size == 0 && d.addrs == fs.inodes[ino].addrs
    ensures var fs' := fs.(inodes := fs.inodes[ino := d]);
            Sound(sb, fs', owner) && OthersSame(fs, fs', ino)
  {
    InodeShape(sb, fs, owner, ino);
    forall i | 0 <= i <= NDIRECT ensures d.addrs[i] == 0 {
      assert Addr(fs, Data(ino, i)) == 0 && Addr(fs, Indirect(ino)) == 0;
    }
    RecycleKeeps(sb, fs, owner, ino, d);
  }

  // ---------- blocks taken ----------

  lemma AssignAll(sb: Super, fs: Fs, owner: Owner, r: Role, b: int)
    requires Assignable(sb, fs, owner, r, b)
    ensures InodeOk(fs, r.ino) && (r.Data? && NDIRECT <= r.bn ==> 0 < Addr(fs, Indirect(r.ino)) < |fs.blocks|)
    ensures forall q :: Addr(Assign(fs, r, b), q) == if q == r then b else Addr(fs, q)
  {
    hide Addr, Assign;
    assert InodeOk(fs, r.ino);
    AssignAddr(sb, fs, owner, r, b, r);
    forall q ensures Addr(Assign(fs, r, b), q) == if q == r then b else Addr(fs, q) {
      AssignAddr(sb, fs, owner, r, b, q);
    }
  }

  lemma TookOne(fs: Fs, fs': Fs, o: Owner, p: Owner, r: Role, b: int)
    requires r.Data? && 0 <= r.bn < NDIRECT && Addr(fs, r) == 0 != b
    requires forall q :: Addr(fs', q) == if q == r then b else Addr(fs, q)
    requires |FreeBlocks(fs'.bits)| == |FreeBlocks(fs.bits)| - 1
    ensures Took(fs, fs', o, p, r.ino, r.bn, r.bn + 1)
  {
    hide Addr;
    var lo, hi := r.bn, r.bn + 1;
    OneBlock(fs, r.ino, lo);
    forall n ensures FilledAt(fs, fs', r.ino, lo, hi, n) {
    }
  }

  // The indirect block if it was missing, then the entry.
  lemma TookEntry(fs: Fs, mid: Fs, fs': Fs, o: Owner, p: Owner, ino: int, bn: int, ind: int, b: int)
    requires NDIRECT <= bn < MAXFILE && b != 0 && ind == Addr(mid, Indirect(ino)) != 0 && Addr(fs, Data(ino, bn)) == 0
    requires if Addr(fs, Indirect(ino)) != 0 then mid == fs
             else (forall q :: Addr(mid, q) == if q == Indirect(ino) then ind else Addr(fs, q))
                  && |FreeBlocks(mid.bits)| == |FreeBlocks(fs.bits)| - 1
    requires forall q :: Addr(fs', q) == if q == Data(ino, bn) then b else Addr(mid, q)
    requires |FreeBlocks(fs'.bits)| == |FreeBlocks(mid.bits)| - 1
    ensures Took(fs, fs', o, p, ino, bn, bn + 1)
  {
    hide Addr, FreeBlocks;
    var hi := bn + 1;
    OneBlock(fs, ino, bn);
    forall n ensures FilledAt(fs, fs', ino, bn, hi, n) {
    }
  }

  lemma WriteTook(sb: Super, fs: Fs, fs1: Fs, o: Owner, owner: Owner, ino: int, lo: int, hi: int, bn: int, blk: Block)
    requires Owned(sb, fs1, owner) && Addr(fs1, Data(ino, bn)) != 0 && Took(fs, fs1, o, owner, ino, lo, hi)
    ensures 0 < Addr(fs1, Data(ino, bn)) < |fs1.blocks|
    ensures Took(fs, WriteBlock(fs1, ino, bn, blk), o, owner, ino, lo, hi)
  {
    hide Addr, Owned, FreeBlocks, NewBlocks;
    WriteAddr(sb, fs1, owner, ino, bn, blk, Indirect(ino));
    var fs' := WriteBlock(fs1, ino, bn, blk);
    forall n ensures FilledAt(fs, fs', ino, lo, hi, n) {
      assert FilledAt(fs, fs1, ino, lo, hi, n);
      WriteAddr(sb, fs1, owner, ino, bn, blk, Data(ino, n));
    }
  }

  lemma ResizedTook(fs: Fs, fs1: Fs, o: Owner, owner: Owner, ino: int, off: nat, n: nat, size: nat)
    requires TookFor(fs, fs1, o, owner, ino, off, n) && 0 <= ino < |fs1.inodes|
    ensures var fs' := fs1.(inodes := fs1.inodes[ino := fs1.inodes[ino].(size := size)]);
            TookFor(fs, fs', o, owner, ino, off, n)
  {
    hide Entry, FreeBlocks, NewBlocks;
    var fs' := fs1.(inodes := fs1.inodes[ino := fs1.inodes[ino].(size := size)]);
    var lo, hi := off / BSIZE, (off + n + BSIZE - 1) / BSIZE;
    if n > 0 {
      forall bn ensures FilledAt(fs, fs', ino, lo, hi, bn) {
        assert FilledAt(fs, fs1, ino, lo, hi, bn);
      }
    }
  }

  // One round of writei, once its block is there: what patching the block makes of it.
  lemma RoundFacts(sb: Super, fs0: Fs, own0: Owner, fs1: Fs, owner: Owner, ino: int, len: nat, o: nat, data: seq<int>,
                   log0: set<int>, log1: set<int>)
    requires Grown(fs0, fs1, ino) && Owned(sb, fs1, owner) && Dense(fs0, ino, len) && o <= len
    requires o % BSIZE + |data| <= BSIZE && Addr(fs1, Data(ino, o / BSIZE)) != 0
    requires Took(fs0, fs1, own0, owner, ino, o / BSIZE, o / BSIZE + 1)
    requires LogsOnly(log0, log1, sb, fs1, ino, o / BSIZE, o / BSIZE + 1)
    ensures 0 < Addr(fs1, Data(ino, o / BSIZE)) < |fs1.blocks|
    ensures var bn := o / BSIZE; var a := Addr(fs1, Data(ino, bn));
            var fs := WriteBlock(fs1, ino, bn, Patch(fs1.blocks[a], o % BSIZE, data));
            var len' := if o + |data| < len then len else o + |data|;
            && Owned(sb, fs, owner) && Progress(fs0, fs, ino) && Dense(fs, ino, len')
            && File(fs, ino, len') == Spliced(File(fs0, ino, len), o, data)
            && Took(fs0, fs, own0, owner, ino, bn, bn + 1) && Addr(fs, Data(ino, bn)) == a
            && LogsOnly(log0, log1 + {a}, sb, fs, ino, bn, bn + 1)
            && FsSpec.Inode(fs, ino) == FsSpec.Inode(fs0, ino).(addrs := FsSpec.Inode(fs, ino).addrs)
  {
    hide Owned, Grown, Progress, LogsOnly, Dense, File, Spliced, Took, Addr;
    var bn := o / BSIZE;
    WriteAddr(sb, fs1, owner, ino, bn, Zero(), Data(ino, bn));
    var a := Addr(fs1, Data(ino, bn));
    var blk := Patch(fs1.blocks[a], o % BSIZE, data);
    var fs := WriteBlock(fs1, ino, bn, blk);
    GrownProgress(fs0, fs1, ino);
    GrownFile(fs0, fs1, ino, len);
    WriteKeeps(sb, fs1, owner, ino, bn, blk);
    WriteProgress(sb, fs1, owner, ino, bn, blk);
    ProgressTwice(fs0, fs1, fs, ino);
    ProgressKeeps(fs0, fs, ino);
    WriteAddr(sb, fs1, owner, ino, bn, blk, Data(ino, bn));
    WriteTook(sb, fs0, fs1, own0, owner, ino, bn, bn + 1, bn, blk);
    DenseGrows(fs0, fs, ino, len, o, |data|);
    PatchSplices(sb, fs1, owner, ino, len, o, data);
    RoundLogs(log0, log1, sb, fs1, fs, ino, bn, a);
  }

  // A round ends with its block.
  lemma BlockOn(off: nat, tot: nat, k: nat, n: nat)
    requires tot < n
    requires k == if n - tot < BSIZE - (off + tot) % BSIZE then n - tot else BSIZE - (off + tot) % BSIZE
    ensures if tot + k < n then (off + tot + k) / BSIZE == (off + tot) / BSIZE + 1
            else (off + n + BSIZE - 1) / BSIZE == (off + tot) / BSIZE + 1
    ensures (off + tot) / BSIZE < (off + n + BSIZE - 1) / BSIZE
  {
  }

  // The state of writei's loop once tot bytes are written, in blocks off / BSIZE .. h-1.
  ghost predicate WroteTo(sb: Super, fs0: Fs, own0: Owner, log0: set<int>, fs: Fs, owner: Owner, logged: set<int>,
                          ino: int, off: nat, src: seq<int>, tot: nat, h: int)
  {
    var len, size := FsSpec.Inode(fs0, ino).size, Max(FsSpec.Inode(fs0, ino).size, off + tot);
    && tot <= |src| && off <= len && off / BSIZE <= h
    && (tot == 0 ==> h == off / BSIZE && fs == fs0 && owner == own0)
    && (if tot < |src| then h == (off + tot) / BSIZE else tot > 0 ==> h == (off + |src| + BSIZE - 1) / BSIZE)
    && Progress(fs0, fs, ino) && Dense(fs, ino, size)
    && File(fs, ino, size) == Spliced(File(fs0, ino, len), off, src[..tot])
    && LogsOnly(log0, logged, sb, fs, ino, off / BSIZE, (off + tot + BSIZE - 1) / BSIZE)
    && Took(fs0, fs, own0, owner, ino, off / BSIZE, h)
  }

  lemma WroteNone(sb: Super, fs: Fs, owner: Owner, logged: set<int>, ino: int, off: nat, src: seq<int>)
    requires Dense(fs, ino, FsSpec.Inode(fs, ino).size) && off <= FsSpec.Inode(fs, ino).size
    ensures WroteTo(sb, fs, owner, logged, fs, owner, logged, ino, off, src, 0, off / BSIZE)
  {
    hide Dense, File, Took, Progress, LogsOnly, Spliced;
    WriteStart(fs, ino, File(fs, ino, FsSpec.Inode(fs, ino).size), off, src, logged, sb);
    TookNone(fs, owner, ino, off / BSIZE);
  }

  lemma WroteSize(sb: Super, fs0: Fs, own0: Owner, log0: set<int>, fs: Fs, owner: Owner, logged: set<int>, ino: int,
                  off: nat, src: seq<int>, tot: nat, h: int)
    requires WroteTo(sb, fs0, own0, log0, fs, owner, logged, ino, off, src, tot, h)
    ensures Dense(fs, ino, Max(FsSpec.Inode(fs0, ino).size, off + tot))
  {
  }

  // One round more.
  lemma WroteMore(sb: Super, fs0: Fs, own0: Owner, log0: set<int>, fs1: Fs, own1: Owner, log1: set<int>, fs2: Fs,
                  own2: Owner, log2: set<int>, ino: int, off: nat, src: seq<int>, tot: nat, k: nat, h: int)
    requires WroteTo(sb, fs0, own0, log0, fs1, own1, log1, ino, off, src, tot, h) && tot < |src|
    requires off + |src| <= MAXFILE * BSIZE
    requires k == if |src| - tot < BSIZE - (off + tot) % BSIZE then |src| - tot else BSIZE - (off + tot) % BSIZE
    requires var len := Max(FsSpec.Inode(fs0, ino).size, off + tot); var o := off + tot;
             var len' := if o + k < len then len else o + k;
             && Progress(fs1, fs2, ino) && Dense(fs2, ino, len') && tot + k <= |src|
             && File(fs2, ino, len') == Spliced(File(fs1, ino, len), o, src[tot..tot + k])
             && LogsOnly(log1, log2, sb, fs2, ino, o / BSIZE, o / BSIZE + 1)
             && Took(fs1, fs2, own1, own2, ino, o / BSIZE, o / BSIZE + 1)
    ensures WroteTo(sb, fs0, own0, log0, fs2, own2, log2, ino, off, src, tot + k, h + 1)
  {
    hide Dense, File, Took, Progress, LogsOnly, Spliced;
    RoundBounds(off, tot, k, |src|);
    BlockOn(off, tot, k, |src|);
    RoundDone(log0, log1, log2, sb, fs0, fs1, fs2, ino, File(fs0, ino, FsSpec.Inode(fs0, ino).size), off, src, tot, k);
    TookTwice(fs0, fs1, fs2, own0, own1, own2, ino, off / BSIZE, h, h, h + 1);
  }

  // It ends with everything written, ...
  lemma WroteAll(sb: Super, fs0: Fs, own0: Owner, log0: set<int>, fs: Fs, owner: Owner, logged: set<int>, ino: int,
                 off: nat, src: seq<int>, h: int)
    requires WroteTo(sb, fs0, own0, log0, fs, owner, logged, ino, off, src, |src|, h)
    ensures var len := Max(FsSpec.Inode(fs0, ino).size, off + |src|);
            && off <= FsSpec.Inode(fs0, ino).size && Progress(fs0, fs, ino) && Dense(fs, ino, len)
            && File(fs, ino, len) == Spliced(File(fs0, ino, FsSpec.Inode(fs0, ino).size), off, src)
            && LogsOnly(log0, logged, sb, fs, ino, off / BSIZE, (off + |src| + BSIZE - 1) / BSIZE)
            && TookFor(fs0, fs, own0, owner, ino, off, |src|)
    ensures BlocksFor(fs0, ino, off, |src|) <= |FreeBlocks(fs0.bits)|
  {
    hide Dense, File, Took, Progress, LogsOnly, Spliced;
    assert src[..|src|] == src;
    if src != [] {
      TookEnough(fs0, fs, own0, owner, ino, off / BSIZE, h);
    }
  }

  // ... or at a block that is not to be had.
  lemma WroteShort(sb: Super, fs0: Fs, own0: Owner, log0: set<int>, fs: Fs, owner: Owner, logged: set<int>, ino: int,
                   off: nat, src: seq<int>, tot: nat, h: int)
    requires WroteTo(sb, fs0, own0, log0, fs, owner, logged, ino, off, src, tot, h) && tot < |src|
    requires |FreeBlocks(fs.bits)| < NewBlocks(fs, ino, (off + tot) / BSIZE, (off + tot) / BSIZE + 1)
    ensures BlocksFor(fs0, ino, off, |src|) > |FreeBlocks(fs0.bits)|
  {
    hide Dense, File, Took, Progress, LogsOnly, Spliced;
    TookShort(fs0, fs, own0, owner, ino, off / BSIZE, h, h, h + 1, (off + |src| + BSIZE - 1) / BSIZE);
  }

  // The log takes another sector.
  predicate HasRoom(sb: Super, logged: set<int>)
  {
    |logged| < LOGSIZE && |logged| < sb.nlog - 1
  }

  lemma LessRoom(sb: Super, logged: set<int>, s: int)
    ensures HasRoom(sb, logged + {s}) ==> HasRoom(sb, logged)
  {
    assert s !in logged ==> |logged + {s}| == |logged| + 1;
    assert s in logged ==> logged + {s} == logged;
  }

  // ---------- the code ----------

  // An inode in memory, locked and valid.
  class Inode {
    const inum: int
    var din: Dinode

    constructor (inum: int, din: Dinode)
      ensures this.inum == inum && this.din == din
    {
      this.inum, this.din := inum, din;
    }
  }

  class Volume {
    const sb: Super
    var bits: seq<bool>
    var dinodes: seq<Dinode>
    var blocks: seq<Block>
    var busy: bool               // a transaction is open
    ghost var owner: Owner
    var logged: set<int>         // sectors logged in the current transaction
    var tooBig: bool             // log_write has found the log full: the code panics there
    ghost var base: Fs           // the disk it started from
    ghost var log: seq<Write>    // its log_writes

    constructor (sb: Super, fs: Fs, owner: Owner)
      ensures this.sb == sb && bits == fs.bits && dinodes == fs.inodes && blocks == fs.blocks
      ensures this.owner == owner && logged == {} && Logs() && !busy && !tooBig
    {
      this.sb, busy, tooBig := sb, false, false;
      bits, dinodes, blocks := fs.bits, fs.inodes, fs.blocks;
      logged := {};
      this.owner, base, log := owner, fs, [];
    }

    ghost function Disk(): Fs
      reads this
    {
      Fs(bits, dinodes, blocks)
    }

    // Every change so far is in the log, and it has been found full only if it is.
    ghost predicate Logs()
      reads this
    {
      Covered(sb, base, log, logged, Disk()) && (tooBig ==> !HasRoom(sb, logged))
    }

    // begin_trans, once no other transaction is open.
    method Begin()
      modifies this`busy, this`logged, this`tooBig, this`base, this`log
      ensures busy && Logs() && logged == {} && !tooBig && log == [] && base == Disk()
    {
      busy, tooBig, logged := true, false, {};
      base, log := Disk(), [];
    }

    // The end of commit_trans.
    method End()
      modifies this`busy
      ensures !busy
    {
      busy := false;
    }

    // log_write of sector s, the only one to differ from was; false stands for the panic outside a
    // transaction, tooBig for the one on a full log.
    method LogWrite(s: int, ghost was: Fs) returns (ok: bool)
      requires Covered(sb, base, log, logged, was) && WithSector(sb, was, Disk(), s) == Disk()
      requires tooBig ==> !HasRoom(sb, logged)
      modifies this`logged, this`tooBig, this`log
      ensures ok == busy && (tooBig <==> old(tooBig) || !HasRoom(sb, old(logged)))
      ensures if ok then Logs() && logged == old(logged) + {s} else logged == old(logged) && log == old(log)
    {
      LogSector(sb, base, log, logged, was, Disk(), s);
      LessRoom(sb, logged, s);
      if |logged| >= LOGSIZE || |logged| >= sb.nlog - 1 {
        tooBig := true;
      }
      if !busy {
        return false;
      }
      log := log + [Write(Disk(), s)];
      logged := logged + {s};
      return true;
    }

    // The file system with ip's copy in memory in place of the one on disk.
    ghost function View(ip: Inode): (r: Fs)
      reads this, ip
    {
      Fs(bits, if 0 <= ip.inum < |dinodes| then dinodes[ip.inum := ip.din] else dinodes, blocks)
    }

    ghost predicate Valid(ip: Inode)
      reads this, ip
    {
      0 <= ip.inum < |dinodes| && Owned(sb, View(ip), owner)
    }

    // Allocate the lowest free block, zeroed; -1 stands for the panic when there is none, or outside
    // a transaction.
    method Balloc() returns (b: int)
      requires |bits| == |blocks| == sb.size && Logs()
      modifies this`bits, this`blocks, this`logged, this`tooBig, this`log
      ensures b == -1 <==> AllSet(old(bits)) || !busy
      ensures AllSet(old(bits)) ==> bits == old(bits) && blocks == old(blocks)
      ensures b == -1 ==> logged == old(logged) && log == old(log)
      ensures b != -1 ==>
                && 0 <= b < sb.size && !old(bits)[b] && (forall i :: 0 <= i < b ==> old(bits)[i])
                && bits == old(bits)[b := true] && blocks == old(blocks)[b := Zero()]
                && logged == old(logged) + {Bblock(sb, b), b}
      ensures busy ==> Logs()
    {
      hide Covered;
      var base := 0;
      while base < sb.size
        invariant 0 <= base && bits == old(bits) && blocks == old(blocks) && logged == old(logged) && log == old(log)
                  && tooBig == old(tooBig)
        invariant forall i :: 0 <= i < base && i < sb.size ==> bits[i]
      {
        var bi := 0;
        while bi < BPB && base + bi < sb.size
          invariant 0 <= bi <= BPB && base + bi <= sb.size
          invariant bits == old(bits) && blocks == old(blocks) && logged == old(logged) && log == old(log)
                    && tooBig == old(tooBig)
          invariant forall i :: 0 <= i < base + bi ==> bits[i]
        {
          if !bits[base + bi] {
            b := base + bi;
            BitSector(sb, Disk(), b, true);
            bits := bits[b := true];
            var ok := LogWrite(Bblock(sb, b), old(Disk()));
            if !ok {
              return -1;
            }
            ghost var taken := Disk();
            BlockSector(sb, taken, b, Zero());
            blocks := blocks[b := Zero()];
            ok := LogWrite(b, taken);
            return;
          }
          bi := bi + 1;
        }
        base := base + BPB;
      }
      return -1;
    }

    // Free a block; false stands for the panic on a free one, or outside a transaction.
    method Bfree(b: int) returns (ok: bool)
      requires 0 <= b < |bits| && Logs()
      modifies this`bits, this`logged, this`tooBig, this`log
      ensures ok <==> old(bits)[b] && busy
      ensures bits == old(bits)[b := false]
      ensures logged == (if ok then old(logged) + {Bblock(sb, b)} else old(logged)) && (!ok ==> log == old(log))
      ensures busy ==> Logs()
    {
      hide Covered;
      if !bits[b] {
        assert bits == bits[b := false];
        return false;
      }
      BitSector(sb, Disk(), b, false);
      bits := bits[b := false];
      ok := LogWrite(Bblock(sb, b), old(Disk()));
    }

    // balloc for the empty slot r of ip, a pointer kept in the inode.
    method FillPointer(ip: Inode, ghost r: Role, i: int, ghost bn: int) returns (m: Mapping)
      requires Valid(ip) && r.ino == ip.inum && Addr(View(ip), r) == 0
      requires r == (if i == NDIRECT then Indirect(ip.inum) else Data(ip.inum, i)) && 0 <= i <= NDIRECT
      requires i < NDIRECT ==> bn == i
      requires Logs()
      modifies this`bits, this`blocks, this`logged, this`tooBig, this`log, this`owner, ip`din
      ensures (m.At? || m.Panicked?) && (m.At? <==> busy && FreeBlocks(old(bits)) != {})
      ensures m.Panicked? ==> AllSet(bits) || !busy
      ensures m.At? ==>
                && Valid(ip) && Grown(old(View(ip)), View(ip), ip.inum)
                && m.addr == Addr(View(ip), r) != 0
                && (forall q :: Addr(View(ip), q) == if q == r then m.addr else Addr(old(View(ip)), q))
                && |FreeBlocks(bits)| == |FreeBlocks(old(bits))| - 1
                && LogsOnly(old(logged), logged, sb, View(ip), ip.inum, bn, bn + 1)
      ensures (busy || m.At? ==> Logs()) && (!busy ==> logged == old(logged) && log == old(log))
    {
      hide Covered;
      ghost var fs := View(ip);
      assert InodeOk(fs, ip.inum);
      var b := Balloc();
      if b == -1 {
        return Panicked;
      }
      ClearIsFree(sb, fs, owner, b);
      TakeFree(old(bits), b);
      ip.din := ip.din.(addrs := ip.din.addrs[i := b]);
      AssignKeeps(sb, fs, owner, r, b);
      AssignAddr(sb, fs, owner, r, b, r);
      AssignGrows(sb, fs, owner, r, b);
      AssignAll(sb, fs, owner, r, b);
      owner := owner[b := r];
      assert View(ip) == Assign(fs, r, b);
      BallocLogs(old(logged), sb, View(ip), ip.inum, bn, b);
      return At(b);
    }

    // balloc for the empty entry j of ip's indirect block ind.
    method FillEntry(ip: Inode, ind: int, j: int) returns (m: Mapping)
      requires Valid(ip) && 0 <= j < NINDIRECT
      requires ind == Addr(View(ip), Indirect(ip.inum)) != 0 && Addr(View(ip), Data(ip.inum, NDIRECT + j)) == 0
      requires Logs()
      modifies this`bits, this`blocks, this`logged, this`tooBig, this`log, this`owner
      ensures (m.At? || m.Panicked?) && (m.At? <==> busy && FreeBlocks(old(bits)) != {})
      ensures m.Panicked? ==> AllSet(bits) || !busy
      ensures m.At? ==>
                && Valid(ip) && Grown(old(View(ip)), View(ip), ip.inum)
                && m.addr == Addr(View(ip), Data(ip.inum, NDIRECT + j)) != 0
                && (forall q :: Addr(View(ip), q) ==
                      if q == Data(ip.inum, NDIRECT + j) then m.addr else Addr(old(View(ip)), q))
                && |FreeBlocks(bits)| == |FreeBlocks(old(bits))| - 1
                && LogsOnly(old(logged), logged, sb, View(ip), ip.inum, NDIRECT + j, NDIRECT + j + 1)
      ensures (busy || m.At? ==> Logs()) && (!busy ==> logged == old(logged) && log == old(log))
    {
      hide Covered;
      ghost var fs, r := View(ip), Data(ip.inum, NDIRECT + j);
      assert InodeOk(fs, ip.inum);
      AddrRange(sb, fs, owner, Indirect(ip.inum));
      var b := Balloc();
      if b == -1 {
        return Panicked;
      }
      ClearIsFree(sb, fs, owner, b);
      TakeFree(old(bits), b);
      ghost var taken := Disk();
      BlockSector(sb, taken, ind, SetEntry(blocks[ind], j, b));
      blocks := blocks[ind := SetEntry(blocks[ind], j, b)];
      var ok := LogWrite(ind, taken);
      AssignKeeps(sb, fs, owner, r, b);
      AssignAddr(sb, fs, owner, r, b, r);
      AssignAddr(sb, fs, owner, r, b, Indirect(ip.inum));
      AssignGrows(sb, fs, owner, r, b);
      AssignAll(sb, fs, owner, r, b);
      owner := owner[b := r];
      assert View(ip) == Assign(fs, r, b);
      BallocLogs(old(logged), sb, View(ip), ip.inum, NDIRECT + j, b);
      assert Touch(sb, View(ip), ip.inum, NDIRECT + j, NDIRECT + j + 1, ind);
      return At(b);
    }

    // The disk address of block bn of ip, allocating it if there is none.
    method Bmap(ip: Inode, bn: int) returns (m: Mapping)
      requires Valid(ip) && 0 <= bn
      requires Logs()
      modifies this`bits, this`blocks, this`logged, this`tooBig, this`log, this`owner, ip`din
      ensures m.OutOfRange? <==> bn >= MAXFILE
      ensures m.Panicked? ==> AllSet(bits) || !busy
      ensures var need := NewBlocks(old(View(ip)), ip.inum, bn, bn + 1);
              m.At? <==> bn < MAXFILE && (need == 0 || (busy && need <= |FreeBlocks(old(bits))|))
      ensures m.At? ==> Took(old(View(ip)), View(ip), old(owner), owner, ip.inum, bn, bn + 1)
      ensures m.OutOfRange? ==> View(ip) == old(View(ip))
      ensures m.At? ==>
                && Valid(ip) && Grown(old(View(ip)), View(ip), ip.inum)
                && m.addr == Addr(View(ip), Data(ip.inum, bn)) != 0
                && LogsOnly(old(logged), logged, sb, View(ip), ip.inum, bn, bn + 1)
      ensures bn < MAXFILE && Addr(old(View(ip)), Data(ip.inum, bn)) != 0 ==>
                m.At? && View(ip) == old(View(ip)) && ip.din == old(ip.din) && logged == old(logged)
                && owner == old(owner)
      ensures (busy || m.At? ==> Logs()) && (!busy ==> logged == old(logged) && log == old(log))
    {
      hide Covered;
      hide Owned;
      hide Grown;
      hide LogsOnly;
      hide NewBlocks, Took, FreeBlocks;
      InodeShape(sb, View(ip), owner, ip.inum);
      GrownSelf(View(ip), ip.inum);
      LogsSelf(logged, sb, View(ip), ip.inum, bn);
      if bn < MAXFILE {
        OneBlock(View(ip), ip.inum, bn);
      }
      if bn < NDIRECT {
        var addr := ip.din.addrs[bn];
        if addr == 0 {
          m := FillPointer(ip, Data(ip.inum, bn), bn, bn);
          if m.At? {
            TookOne(old(View(ip)), View(ip), old(owner), owner, Data(ip.inum, bn), m.addr);
          }
          return;
        }
        TookSelf(View(ip), owner, ip.inum, bn);
        return At(addr);
      }
      if bn < MAXFILE {
        m := BmapIndirect(ip, bn - NDIRECT);
        return;
      }
      return OutOfRange;
    }

    // Load the indirect block, allocating if necessary, then entry j of it.
    method BmapIndirect(ip: Inode, j: int) returns (m: Mapping)
      requires Valid(ip) && 0 <= j < NINDIRECT
      requires Logs()
      modifies this`bits, this`blocks, this`logged, this`tooBig, this`log, this`owner, ip`din
      ensures m.At? || m.Panicked?
      ensures m.Panicked? ==> AllSet(bits) || !busy
      ensures var need := NewBlocks(old(View(ip)), ip.inum, NDIRECT + j, NDIRECT + j + 1);
              m.At? <==> (need == 0 || (busy && need <= |FreeBlocks(old(bits))|))
      ensures m.At? ==> Took(old(View(ip)), View(ip), old(owner), owner, ip.inum, NDIRECT + j, NDIRECT + j + 1)
      ensures m.At? ==>
                && Valid(ip) && Grown(old(View(ip)), View(ip), ip.inum)
                && m.addr == Addr(View(ip), Data(ip.inum, NDIRECT + j)) != 0
                && LogsOnly(old(logged), logged, sb, View(ip), ip.inum, NDIRECT + j, NDIRECT + j + 1)
      ensures Addr(old(View(ip)), Data(ip.inum, NDIRECT + j)) != 0 ==>
                m.At? && View(ip) == old(View(ip)) && ip.din == old(ip.din) && logged == old(logged)
                && owner == old(owner)
      ensures (busy || m.At? ==> Logs()) && (!busy ==> logged == old(logged) && log == old(log))
    {
      hide Covered;
      hide Owned;
      hide Grown;
      hide LogsOnly;
      hide NewBlocks, Took, FreeBlocks;
      InodeShape(sb, View(ip), owner, ip.inum);
      GrownSelf(View(ip), ip.inum);
      LogsSelf(logged, sb, View(ip), ip.inum, NDIRECT + j);
      OneBlock(View(ip), ip.inum, NDIRECT + j);
      var ind := ip.din.addrs[NDIRECT];
      if ind == 0 {
        m := FillPointer(ip, Indirect(ip.inum), NDIRECT, NDIRECT + j);
        if !m.At? {
          return;
        }
        ind := m.addr;
      }
      ghost var mid, midLogged := View(ip), logged;
      InodeShape(sb, mid, owner, ip.inum);
      AddrRange(sb, mid, owner, Indirect(ip.inum));
      var addr := Entry(blocks[ind], j);
      if addr == 0 {
        m := FillEntry(ip, ind, j);
        if m.At? {
          GrownTwice(old(View(ip)), mid, View(ip), ip.inum);
          TookEntry(old(View(ip)), mid, View(ip), old(owner), owner, ip.inum, NDIRECT + j, ind, m.addr);
          GrownKeeps(mid, View(ip), ip.inum);
          LogsMore(old(logged), midLogged, logged, sb, mid, View(ip), ip.inum, NDIRECT + j, NDIRECT + j + 1,
                   NDIRECT + j, NDIRECT + j + 1);
        }
        return;
      }
      TookSelf(View(ip), owner, ip.inum, NDIRECT + j);
      return At(addr);
    }

    // Copy ip to its place on disk; false stands for the panic outside a transaction.
    method Iupdate(ip: Inode) returns (ok: bool)
      requires 0 <= ip.inum < |dinodes|
      requires Logs()
      modifies this`dinodes, this`logged, this`tooBig, this`log
      ensures ok == busy
      ensures dinodes == old(dinodes)[ip.inum := ip.din] && View(ip) == old(View(ip))
      ensures if ok then Logs() && logged == old(logged) + {Iblock(ip.inum)}
              else logged == old(logged) && log == old(log)
    {
      hide Covered;
      InodeSector(sb, Disk(), ip.inum, ip.din);
      dinodes := dinodes[ip.inum := ip.din];
      ok := LogWrite(Iblock(ip.inum), old(Disk()));
    }

    // One round of readi: k bytes out of the block that holds byte o.
    method ReadRound(ip: Inode, o: nat, k: nat) returns (piece: seq<int>)
      requires Valid(ip) && Dense(View(ip), ip.inum, ip.din.size)
      requires 0 < k && o % BSIZE + k <= BSIZE && o + k <= ip.din.size
      requires Logs()
      modifies this`bits, this`blocks, this`logged, this`tooBig, this`log, this`owner, ip`din
      ensures View(ip) == old(View(ip)) && ip.din == old(ip.din) && logged == old(logged) && owner == old(owner)
      ensures piece == Contents(View(ip), ip.inum)[o..o + k]
      ensures Logs()
    {
      hide Covered;
      hide Owned;
      hide Grown;
      hide LogsOnly;
      hide Contents;
      hide Dense;
      DenseAt(View(ip), ip.inum, ip.din.size, o);
      var m := Bmap(ip, o / BSIZE);
      InodeShape(sb, View(ip), owner, ip.inum);
      AddrRange(sb, View(ip), owner, Data(ip.inum, o / BSIZE));
      SliceOfFile(View(ip), ip.inum, o, k);
      piece := Slice(blocks[m.addr], o % BSIZE, k);
    }

    // Read up to n bytes at off.
    method Readi(ip: Inode, off: nat, n: nat) returns (r: Count, dst: seq<int>)
      requires Valid(ip) && Dense(View(ip), ip.inum, ip.din.size)
      requires off < UINT && n < UINT
      requires Logs()
      modifies this`bits, this`blocks, this`logged, this`tooBig, this`log, this`owner, ip`din
      ensures View(ip) == old(View(ip)) && ip.din == old(ip.din) && logged == old(logged) && owner == old(owner)
      ensures ip.din.kind == T_DEV <==> r.Device?
      ensures ip.din.kind != T_DEV && (off > ip.din.size || off + n >= UINT) <==> r.Fail?
      ensures r.Bytes? ==>
                var c := Contents(View(ip), ip.inum);
                && r.n == |dst| && dst == c[off..if off + n < |c| then off + n else |c|]
      ensures !r.Panic?
      ensures Logs()
    {
      hide Covered;
      hide Owned;
      hide Grown;
      hide LogsOnly;
      hide Contents;
      hide Dense;
      dst := [];
      if ip.din.kind == T_DEV {
        return Device, [];
      }
      if off > ip.din.size || (off + n) % UINT < off {
        return Fail, [];
      }
      var want := if off + n > ip.din.size then ip.din.size - off else n;
      var tot := 0;
      while tot < want
        invariant tot <= want && off + want <= ip.din.size
        invariant View(ip) == old(View(ip)) && ip.din == old(ip.din) && logged == old(logged) && owner == old(owner)
                  && Logs()
        invariant dst == Contents(View(ip), ip.inum)[off..off + tot]
      {
        var o := off + tot;
        var k := if want - tot < BSIZE - o % BSIZE then want - tot else BSIZE - o % BSIZE;
        var piece := ReadRound(ip, o, k);
        JoinSlices(Contents(View(ip), ip.inum), off, o, o + k);
        dst := dst + piece;
        tot := tot + k;
      }
      return Bytes(want), dst;
    }

    // One round of writei: data goes into the block that holds byte o.
    method WriteRound(ip: Inode, data: seq<int>, o: nat, ghost len: nat) returns (m: Mapping)
      requires Valid(ip) && Dense(View(ip), ip.inum, len) && o <= len
      requires o % BSIZE + |data| <= BSIZE && o / BSIZE < MAXFILE
      requires Logs()
      modifies this`bits, this`blocks, this`logged, this`tooBig, this`log, this`owner, ip`din
      ensures m.At? || m.Panicked?
      ensures m.Panicked? ==> AllSet(bits) || !busy
      ensures var bn := o / BSIZE; var need := NewBlocks(old(View(ip)), ip.inum, bn, bn + 1);
              && (m.At? <==> busy && need <= |FreeBlocks(old(bits))|)
              && (m.At? ==> Took(old(View(ip)), View(ip), old(owner), owner, ip.inum, bn, bn + 1))
      ensures m.At? ==> busy
      ensures m.At? ==>
                var len' := if o + |data| < len then len else o + |data|;
                && Valid(ip) && Progress(old(View(ip)), View(ip), ip.inum) && Dense(View(ip), ip.inum, len')
                && File(View(ip), ip.inum, len') == Spliced(File(old(View(ip)), ip.inum, len), o, data)
                && LogsOnly(old(logged), logged, sb, View(ip), ip.inum, o / BSIZE, o / BSIZE + 1)
      ensures m.At? && o < len ==> ip.din == old(ip.din)
      ensures m.At? ==> ip.din == old(ip.din).(addrs := ip.din.addrs)
      ensures (busy || m.At? ==> Logs()) && (!busy ==> logged == old(logged) && log == old(log))
    {
      hide Covered;
      hide Owned;
      hide Grown;
      hide Progress;
      hide LogsOnly;
      hide Dense;
      hide File;
      hide NewBlocks, Took, FreeBlocks, Addr, Spliced, Patch;
      OneBlock(View(ip), ip.inum, o / BSIZE);
      if o < len {
        DenseAt(View(ip), ip.inum, len, o);
      }
      var bn := o / BSIZE;
      m := Bmap(ip, bn);
      if !m.At? {
        return;
      }
      ghost var fs1, log1 := View(ip), logged;
      InodeShape(sb, fs1, owner, ip.inum);
      RoundFacts(sb, old(View(ip)), old(owner), fs1, owner, ip.inum, len, o, data, old(logged), log1);
      var blk := Patch(blocks[m.addr], o % BSIZE, data);
      ghost var mapped := Disk();
      BlockSector(sb, mapped, m.addr, blk);
      blocks := blocks[m.addr := blk];
      var ok := LogWrite(m.addr, mapped);
      if !ok {
        return Panicked;
      }
      assert View(ip) == WriteBlock(fs1, ip.inum, bn, blk);
    }

    // Write src at off, growing the file if need be.
    method Writei(ip: Inode, src: seq<int>, off: nat) returns (r: Count)
      requires Valid(ip) && Dense(View(ip), ip.inum, ip.din.size)
      requires off < UINT && |src| < UINT
      requires Logs()
      modifies this`bits, this`dinodes, this`blocks, this`logged, this`tooBig, this`log, this`owner, ip`din
      ensures old(ip.din.kind) == T_DEV <==> r.Device?
      ensures r.Fail? <==>
                && old(ip.din.kind) != T_DEV
                && (off > old(ip.din.size) || off + |src| >= UINT || off + |src| > MAXFILE * BSIZE)
      ensures r.Device? || r.Fail? ==>
                && View(ip) == old(View(ip)) && ip.din == old(ip.din) && dinodes == old(dinodes) && owner == old(owner)
                && logged == old(logged) && tooBig == old(tooBig)
      ensures r.Panic? ==> AllSet(bits) || !busy
      ensures var need := BlocksFor(old(View(ip)), ip.inum, off, |src|);
              r.Panic? <==> !r.Device? && !r.Fail? && src != [] && (!busy || need > |FreeBlocks(old(bits))|)
      ensures r.Bytes? ==> TookFor(old(View(ip)), View(ip), old(owner), owner, ip.inum, off, |src|)
      ensures r.Bytes? ==> busy || src == []
      ensures r.Bytes? ==>
                && r.n == |src| && Valid(ip) && Dense(View(ip), ip.inum, ip.din.size)
                && off <= |old(Contents(View(ip), ip.inum))|
                && Contents(View(ip), ip.inum) == Spliced(old(Contents(View(ip), ip.inum)), off, src)
                && OthersSame(old(View(ip)), View(ip), ip.inum)
                && ip.din == old(ip.din).(size := ip.din.size, addrs := ip.din.addrs)
                && (forall q :: KeepsAddr(old(View(ip)), View(ip), q))
                && LogsOnly(old(logged), logged, sb, View(ip), ip.inum, off / BSIZE, (off + |src| + BSIZE - 1) / BSIZE)
      ensures r.Bytes? && old(dinodes[ip.inum] == ip.din) ==> dinodes == old(dinodes)[ip.inum := ip.din]
      ensures (busy || !r.Panic? ==> Logs()) && (!busy ==> logged == old(logged) && log == old(log))
    {
      hide Covered;
      hide Owned;
      hide Progress;
      hide LogsOnly;
      hide Dense;
      hide File;
      hide Spliced;
      hide OthersSame;
      hide BlocksFor, TookFor, FreeBlocks;
      if ip.din.kind == T_DEV {
        return Device;
      }
      if off > ip.din.size || (off + |src|) % UINT < off {
        return Fail;
      }
      if off + |src| > MAXFILE * BSIZE {
        return Fail;
      }
      ghost var fs0, size0, c0 := View(ip), ip.din.size, Contents(View(ip), ip.inum);
      r := WriteAll(ip, src, off);
      if r.Panic? {
        return;
      }
      ghost var fs1, log1 := View(ip), logged;
      InodeShape(sb, fs1, owner, ip.inum);
      ProgressKeeps(fs0, fs1, ip.inum);
      if |src| > 0 && off + |src| > ip.din.size {
        ResizeKeeps(sb, fs1, owner, ip.inum, off + |src|);
        ResizedTook(fs0, fs1, old(owner), owner, ip.inum, off, |src|, off + |src|);
        ip.din := ip.din.(size := off + |src|);
        assert View(ip) == fs1.(inodes := fs1.inodes[ip.inum := fs1.inodes[ip.inum].(size := off + |src|)]);
        var ok := Iupdate(ip);
        ResizeRest(fs0, fs1, View(ip), ip.inum, off + |src|, old(logged), log1, sb, off / BSIZE,
                   (off + |src| + BSIZE - 1) / BSIZE);
      }
    }

    // The loop of writei.
    method WriteAll(ip: Inode, src: seq<int>, off: nat) returns (r: Count)
      requires Valid(ip) && Dense(View(ip), ip.inum, ip.din.size)
      requires off <= ip.din.size && off + |src| <= MAXFILE * BSIZE
      requires Logs()
      modifies this`bits, this`blocks, this`logged, this`tooBig, this`log, this`owner, ip`din
      ensures r.Bytes? || r.Panic?
      ensures r.Panic? ==> AllSet(bits) || !busy
      ensures var need := BlocksFor(old(View(ip)), ip.inum, off, |src|);
              r.Bytes? <==> src == [] || (busy && need <= |FreeBlocks(old(bits))|)
      ensures r.Bytes? ==> TookFor(old(View(ip)), View(ip), old(owner), owner, ip.inum, off, |src|)
      ensures r.Bytes? ==> busy || src == []
      ensures r.Bytes? ==>
                var len := if off + |src| < old(ip.din.size) then old(ip.din.size) else off + |src|;
                && r.n == |src| && Valid(ip) && Progress(old(View(ip)), View(ip), ip.inum)
                     && Dense(View(ip), ip.inum, len)
                && File(View(ip), ip.inum, len) == Spliced(File(old(View(ip)), ip.inum, old(ip.din.size)), off, src)
                && LogsOnly(old(logged), logged, sb, View(ip), ip.inum, off / BSIZE, (off + |src| + BSIZE - 1) / BSIZE)
                && (len == old(ip.din.size) ==> ip.din == old(ip.din))
                && ip.din == old(ip.din).(addrs := ip.din.addrs)
      ensures (busy || !r.Panic? ==> Logs()) && (!busy ==> logged == old(logged) && log == old(log))
    {
      hide Covered, Owned, Progress, LogsOnly, Dense, File, Spliced, NewBlocks, TookFor, FreeBlocks, WroteTo, BlocksFor;
      ghost var fs0, own0, log0, h := View(ip), owner, logged, off / BSIZE;
      WroteNone(sb, fs0, own0, log0, ip.inum, off, src);
      var tot := 0;
      while tot < |src|
        invariant tot <= |src| && Valid(ip) && Logs()
        invariant WroteTo(sb, fs0, own0, log0, View(ip), owner, logged, ip.inum, off, src, tot, h)
        invariant off + tot <= old(ip.din.size) ==> ip.din == old(ip.din)
        invariant !busy ==> tot == 0 && logged == old(logged) && log == old(log)
        invariant ip.din == old(ip.din).(addrs := ip.din.addrs)
      {
        var o := off + tot;
        var k := if |src| - tot < BSIZE - o % BSIZE then |src| - tot else BSIZE - o % BSIZE;
        RoundBounds(off, tot, k, |src|);
        WroteSize(sb, fs0, own0, log0, View(ip), owner, logged, ip.inum, off, src, tot, h);
        ghost var fs1, own1, log1 := View(ip), owner, logged;
        var m := WriteRound(ip, src[tot..tot + k], o, Max(old(ip.din.size), o));
        if !m.At? {
          if busy {
            WroteShort(sb, fs0, own0, log0, fs1, own1, log1, ip.inum, off, src, tot, h);
          }
          return Panic;
        }
        WroteMore(sb, fs0, own0, log0, fs1, own1, log1, View(ip), owner, logged, ip.inum, off, src, tot, k, h);
        tot, h := tot + k, h + 1;
      }
      WroteAll(sb, fs0, own0, log0, View(ip), owner, logged, ip.inum, off, src, h);
      return Bytes(|src|);
    }

    // Free the blocks the inode points at directly.
    method TruncDirect(ip: Inode) returns (ok: bool)
      requires Valid(ip)
      requires Logs()
      modifies this`bits, this`logged, this`tooBig, this`log, this`owner, ip`din
      ensures (busy ==> ok) && (!busy ==> logged == old(logged) && log == old(log))
      ensures ok ==> Valid(ip) && OthersSame(old(View(ip)), View(ip), ip.inum) && SubOwner(owner, old(owner))
      ensures ok ==> Cleared(old(View(ip)), View(ip), ip.inum, 0, NDIRECT)
      ensures ok ==> ip.din == old(ip.din).(addrs := ip.din.addrs)
      ensures ok ==> BitmapOnly(old(logged), logged, sb)
      ensures ok ==> Logs()
    {
      hide Covered;
      hide Owned;
      hide OthersSame;
      hide Cleared;
      hide SubOwner;
      hide BitmapOnly;
      ghost var fs0 := View(ip);
      TruncStart(fs0, ip.inum, owner, logged, sb);
      var i := 0;
      while i < NDIRECT
        invariant 0 <= i <= NDIRECT && Valid(ip)
        invariant OthersSame(fs0, View(ip), ip.inum) && SubOwner(owner, old(owner))
        invariant Cleared(fs0, View(ip), ip.inum, 0, i)
        invariant ip.din == old(ip.din).(addrs := ip.din.addrs)
        invariant BitmapOnly(old(logged), logged, sb) && Logs()
        invariant !busy ==> logged == old(logged) && log == old(log)
      {
        InodeShape(sb, View(ip), owner, ip.inum);
        if ip.din.addrs[i] != 0 {
          ghost var fs1, r, own1, log1 := View(ip), Data(ip.inum, i), owner, logged;
          TruncFacts(sb, fs0, fs1, owner, r, old(owner), old(logged), log1, 0, i);
          ok := Bfree(ip.din.addrs[i]);
          if !ok {
            return;
          }
          owner := owner - {ip.din.addrs[i]};
          ip.din := ip.din.(addrs := ip.din.addrs[i := 0]);
          assert View(ip) == Release(fs1, r);
        } else {
          ClearedSkip(fs0, View(ip), ip.inum, 0, i);
        }
        i := i + 1;
      }
      return true;
    }

    // Free the blocks listed in the indirect block ind.  The entries stay in the block; left is
    // the block without them.
    method FreeEntries(ip: Inode, ind: int) returns (ok: bool, ghost left: Block)
      requires Valid(ip) && ind == Addr(View(ip), Indirect(ip.inum)) != 0
      requires Logs()
      modifies this`bits, this`logged, this`tooBig, this`log, this`owner
      ensures 0 < ind < |blocks|
      ensures (busy ==> ok) && (!busy ==> logged == old(logged) && log == old(log))
      ensures var fs := View(ip).(blocks := blocks[ind := left]);
              ok ==>
              && Owned(sb, fs, owner) && OthersSame(old(View(ip)), fs, ip.inum)
              && Cleared(old(View(ip)), fs, ip.inum, NDIRECT, MAXFILE)
      ensures ok ==> SubOwner(owner, old(owner)) && BitmapOnly(old(logged), logged, sb) && Logs()
    {
      hide Covered;
      hide Owned;
      hide OthersSame;
      hide Cleared;
      hide SubOwner;
      hide BitmapOnly;
      ghost var fs0 := View(ip);
      TruncStart(fs0, ip.inum, owner, logged, sb);
      InodeShape(sb, fs0, owner, ip.inum);
      AddrRange(sb, fs0, owner, Indirect(ip.inum));
      left := blocks[ind];
      assert blocks[ind := left] == blocks;
      var j := 0;
      while j < NINDIRECT
        invariant 0 <= j <= NINDIRECT && |bits| == |blocks|
        invariant Owned(sb, View(ip).(blocks := blocks[ind := left]), owner)
        invariant OthersSame(fs0, View(ip).(blocks := blocks[ind := left]), ip.inum) && SubOwner(owner, old(owner))
        invariant Cleared(fs0, View(ip).(blocks := blocks[ind := left]), ip.inum, NDIRECT, NDIRECT + j)
        invariant BitmapOnly(old(logged), logged, sb) && Logs()
        invariant !busy ==> logged == old(logged) && log == old(log)
      {
        ghost var fs1 := View(ip).(blocks := blocks[ind := left]);
        EntrySeen(fs0, fs1, ip.inum, j);
        var a := Entry(blocks[ind], j);
        if a != 0 {
          ghost var r := Data(ip.inum, NDIRECT + j);
          TruncFacts(sb, fs0, fs1, owner, r, old(owner), old(logged), logged, NDIRECT, NDIRECT + j);
          ok := Bfree(a);
          if !ok {
            return;
          }
          owner := owner - {a};
          left := SetEntry(left, j, 0);
          assert View(ip).(blocks := blocks[ind := left]) == Release(fs1, r);
        } else {
          ClearedSkip(fs0, fs1, ip.inum, NDIRECT, NDIRECT + j);
        }
        j := j + 1;
      }
      ok := true;
    }

    // Free everything the indirect block leads to, then the indirect block.
    method TruncIndirect(ip: Inode) returns (ok: bool)
      requires Valid(ip) && Addr(View(ip), Indirect(ip.inum)) != 0
      requires Logs()
      modifies this`bits, this`logged, this`tooBig, this`log, this`owner, ip`din
      ensures (busy ==> ok) && (!busy ==> logged == old(logged) && log == old(log))
      ensures ok ==> Valid(ip) && OthersSame(old(View(ip)), View(ip), ip.inum) && SubOwner(owner, old(owner))
      ensures ok ==> IndirectCleared(old(View(ip)), View(ip), ip.inum)
      ensures ok ==> ip.din == old(ip.din).(addrs := ip.din.addrs)
      ensures ok ==> BitmapOnly(old(logged), logged, sb)
      ensures ok ==> Logs()
    {
      hide Covered;
      hide Owned;
      hide OthersSame;
      hide SubOwner;
      hide BitmapOnly;
      hide IndirectCleared;
      InodeShape(sb, View(ip), owner, ip.inum);
      var ind := ip.din.addrs[NDIRECT];
      ghost var left;
      ok, left := FreeEntries(ip, ind);
      if !ok {
        return;
      }
      ghost var fs1 := View(ip).(blocks := blocks[ind := left]);
      ReleaseIndirectFacts(sb, old(View(ip)), fs1, owner, ip.inum, blocks[ind], old(owner), old(logged), logged);
      ok := Bfree(ind);
      if !ok {
        return;
      }
      owner := owner - {ind};
      ip.din := ip.din.(addrs := ip.din.addrs[NDIRECT := 0]);
      assert blocks == fs1.blocks[ind := blocks[ind]];
      assert View(ip) == Release(fs1, Indirect(ip.inum)).(blocks := fs1.blocks[ind := blocks[ind]]);
    }

    // Discard the contents of an inode.
    method Itrunc(ip: Inode) returns (ok: bool)
      requires Valid(ip)
      requires Logs()
      modifies this`bits, this`dinodes, this`blocks, this`logged, this`tooBig, this`log, this`owner, ip`din
      ensures ok == busy && (!ok ==> logged == old(logged) && log == old(log))
      ensures ok ==> Valid(ip) && OthersSame(old(View(ip)), View(ip), ip.inum)
      ensures ok ==> Empty(View(ip), ip.inum) && ip.din.size == 0 && dinodes == old(dinodes)[ip.inum := ip.din]
      ensures ok ==> ip.din == old(ip.din).(size := 0, addrs := ip.din.addrs)
      ensures ok ==> forall b :: b in owner <==> b in old(owner) && old(owner)[b].ino != ip.inum
      ensures ok ==> forall b :: 0 <= b < sb.size ==>
                (bits[b] <==> old(bits)[b] && !(b in old(owner) && old(owner)[b].ino == ip.inum))
      ensures ok ==> BitmapOnly(old(logged) + {Iblock(ip.inum)}, logged, sb)
      ensures ok ==> Logs()
    {
      hide Covered;
      hide Owned;
      hide OthersSame;
      hide SubOwner;
      hide BitmapOnly;
      hide IndirectCleared;
      hide Cleared;
      hide Empty;
      ok := TruncDirect(ip);
      if !ok {
        return;
      }
      ghost var fs1, own1, log1 := View(ip), owner, logged;
      InodeShape(sb, fs1, owner, ip.inum);
      TruncStart(fs1, ip.inum, owner, logged, sb);
      if ip.din.addrs[NDIRECT] != 0 {
        ok := TruncIndirect(ip);
        if !ok {
          return;
        }
      }
      TruncTwice(old(owner), own1, owner, old(logged), log1, logged, ip.inum, sb);
      TruncEnd(sb, old(View(ip)), old(owner), fs1, View(ip), owner, ip.inum);
      ghost var fs2 := View(ip);
      ip.din := ip.din.(size := 0);
      assert View(ip) == fs2.(inodes := fs2.inodes[ip.inum := fs2.inodes[ip.inum].(size := 0)]);
      ok := Iupdate(ip);
    }

    // Allocate the first free inode; -1 stands for the panic when there is none, or outside a
    // transaction.
    method Ialloc(kind: int) returns (inum: int)
      requires Sound(sb, Fs(bits, dinodes, blocks), owner)
      requires Logs()
      modifies this`dinodes, this`logged, this`tooBig, this`log
      ensures inum == -1 ==> logged == old(logged) && log == old(log)
      ensures inum == -1 <==> !busy || forall i :: 1 <= i < |old(dinodes)| ==> old(dinodes)[i].kind != 0
      ensures inum == -1 && busy ==> dinodes == old(dinodes)
      ensures inum != -1 ==>
                && 1 <= inum < |old(dinodes)| && old(dinodes)[inum].kind == 0
                     && (forall i :: 1 <= i < inum ==> old(dinodes)[i].kind != 0)
                && dinodes == old(dinodes)[inum := Dinode(kind, 0, 0, 0, 0, seq(NDIRECT + 1, _ => 0))]
                && logged == old(logged) + {Iblock(inum)}
                && Sound(sb, Fs(bits, dinodes, blocks), owner)
                && OthersSame(Fs(bits, old(dinodes), blocks), Fs(bits, dinodes, blocks), inum)
                && Contents(Fs(bits, dinodes, blocks), inum) == []
      ensures busy ==> Logs()
    {
      hide Covered;
      inum := 1;
      while inum < |dinodes|
        invariant 1 <= inum && dinodes == old(dinodes) && logged == old(logged) && log == old(log)
                  && tooBig == old(tooBig)
        invariant forall i :: 1 <= i < inum && i < |dinodes| ==> dinodes[i].kind != 0
      {
        if dinodes[inum].kind == 0 {
          var d := Dinode(kind, 0, 0, 0, 0, seq(NDIRECT + 1, _ => 0));
          ghost var fs := Fs(bits, dinodes, blocks);
          assert InodeSound(fs, inum);
          RecycleKeeps(sb, fs, owner, inum, d);
          InodeSector(sb, Disk(), inum, d);
          dinodes := dinodes[inum := d];
          var ok := LogWrite(Iblock(inum), old(Disk()));
          if !ok {
            return -1;
          }
          return;
        }
        inum := inum + 1;
      }
      return -1;
    }

    // iput's last step for an inode with no links and no other reference: free it and its blocks.
    // It panics exactly outside a transaction.
    method Ifree(ip: Inode) returns (ok: bool)
      requires Valid(ip) && Sound(sb, View(ip), owner)
      requires Logs()
      modifies this`bits, this`dinodes, this`blocks, this`logged, this`tooBig, this`log, this`owner, ip`din
      ensures ok == busy && (!ok ==> logged == old(logged) && log == old(log))
      ensures ok ==> Valid(ip) && Sound(sb, View(ip), owner) && OthersSame(old(View(ip)), View(ip), ip.inum)
      ensures ok ==> ip.din == old(ip.din).(kind := 0, size := 0, addrs := ip.din.addrs)
      ensures ok ==> dinodes == old(dinodes)[ip.inum := ip.din]
      ensures ok ==> forall b :: 0 <= b < sb.size ==>
                (bits[b] <==> old(bits)[b] && !(b in old(owner) && old(owner)[b].ino == ip.inum))
      ensures ok ==> BitmapOnly(old(logged) + {Iblock(ip.inum)}, logged, sb)
      ensures ok ==> Logs()
    {
      hide Covered;
      hide Owned;
      hide OthersSame;
      hide Empty;
      hide BitmapOnly;
      ghost var own0 := owner;
      ok := Itrunc(ip);
      if !ok {
        return;
      }
      ghost var fs1 := View(ip);
      InodeShape(sb, fs1, owner, ip.inum);
      EmptySound(sb, old(View(ip)), own0, fs1, owner, ip.inum);
      RecycleEmpty(sb, fs1, owner, ip.inum, ip.din.(kind := 0));
      ip.din := ip.din.(kind := 0);
      assert View(ip) == fs1.(inodes := fs1.inodes[ip.inum := ip.din]);
      OthersTwice(old(View(ip)), fs1, View(ip), ip.inum);
      BitmapAgain(old(logged), logged, ip.inum, sb);
      ok := Iupdate(ip);
    }
  }

  // memmove out of a block: k bytes from byte o on.
  function Slice(b: Block, o: nat, k: nat): (r: seq<int>)
    ensures |r| == k
  {
    seq(k, i requires 0 <= i < k => ByteAt(b, o + i))
  }

  lemma DenseAt(fs: Fs, ino: int, len: nat, k: nat)
    requires Dense(fs, ino, len) && k < len
    ensures Addr(fs, Data(ino, k / BSIZE)) != 0 && k / BSIZE < MAXFILE
  {
    assert Mapped(fs, ino, k / BSIZE, len);
  }

  // A piece of one block is the corresponding piece of the file.
  lemma SliceOfFile(fs: Fs, ino: int, o: nat, k: nat)
    requires o % BSIZE + k <= BSIZE && o + k <= FsSpec.Inode(fs, ino).size
    ensures Slice(BlockOf(fs, ino, o / BSIZE), o % BSIZE, k) == Contents(fs, ino)[o..o + k]
  {
    var x, y := Slice(BlockOf(fs, ino, o / BSIZE), o % BSIZE, k), Contents(fs, ino)[o..o + k];
    forall i | 0 <= i < k ensures x[i] == y[i] {
      assert (o + i) / BSIZE == o / BSIZE && (o + i) % BSIZE == o % BSIZE + i;
    }
  }

  lemma JoinSlices(c: seq<int>, a: nat, b: nat, d: nat)
    requires a <= b <= d <= |c|
    ensures c[a..b] + c[b..d] == c[a..d]
  {
  }
}
