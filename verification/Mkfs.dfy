/**
  mkfs.c: building the first image.  Blocks are handed out in increasing order; the bitmap is
  written at the end.  The invariant is FsSpec's, for the bitmap in which the blocks handed out
  so far, the metadata and the log are marked.
 */
module Mkfs {
  import opened FsSpec
  import opened FileSystem

  // The bitmap with blocks 0 .. free-1 and the log marked.
  function Marks(sb: Super, free: int): (r: seq<bool>)
  {
    seq(sb.size, b => b < free || sb.size - sb.nlog <= b)
  }

  // The bitmap balloc(used) writes: blocks 0 .. used-1 and no others.
  function Written(sb: Super, used: int): (r: seq<bool>)
  {
    seq(sb.size, b => b < used)
  }

  function FreshInode(): Dinode
  {
    Dinode(0, 0, 0, 0, 0, seq(NDIRECT + 1, _ => 0))
  }

  // Among the data slots, only r may have changed.
  ghost predicate OnlySlot(fs: Fs, fs': Fs, r: Role)
  {
    forall q: Role :: q != r && q.Data? ==> Addr(fs', q) == Addr(fs, q)
  }

  lemma AssignOnly(sb: Super, fs: Fs, owner: Owner, r: Role, b: int)
    requires Assignable(sb, fs, owner, r, b)
    ensures InodeOk(fs, r.ino) && (r.Data? && NDIRECT <= r.bn ==> 0 < Addr(fs, Indirect(r.ino)) < |fs.blocks|)
    ensures forall q: Role :: q != r ==> Addr(Assign(fs, r, b), q) == Addr(fs, q)
  {
    AssignAddr(sb, fs, owner, r, b, r);
    forall q: Role | q != r ensures Addr(Assign(fs, r, b), q) == Addr(fs, q) {
      AssignAddr(sb, fs, owner, r, b, q);
    }
  }

  lemma AssignSlot(sb: Super, fs: Fs, owner: Owner, r: Role, b: int)
    requires Assignable(sb, fs, owner, r, b)
    ensures InodeOk(fs, r.ino) && (r.Data? && NDIRECT <= r.bn ==> 0 < Addr(fs, Indirect(r.ino)) < |fs.blocks|)
    ensures OnlySlot(fs, Assign(fs, r, b), r)
  {
    AssignOnly(sb, fs, owner, r, b);
  }

  lemma OnlySelf(fs: Fs, r: Role)
    ensures OnlySlot(fs, fs, r)
  {
  }

  lemma OnlyIndirect(a: Fs, b: Fs, ino: int, r: Role)
    requires OnlySlot(a, b, Indirect(ino))
    ensures OnlySlot(a, b, r)
  {
  }

  lemma OnlyEntry(a: Fs, b: Fs, ino: int, bn: int)
    requires OnlySlot(a, b, Indirect(ino))
    ensures Addr(b, Data(ino, bn)) == Addr(a, Data(ino, bn))
  {
  }

  lemma OnlyTwice(a: Fs, b: Fs, c: Fs, r: Role)
    requires OnlySlot(a, b, r) && OnlySlot(b, c, r)
    ensures OnlySlot(a, c, r)
  {
  }

  // Every block of the inode lies before byte len, and it has an indirect block only if it needs one.
  ghost predicate Tight(fs: Fs, i: int, len: int)
  {
    && (forall bn :: Addr(fs, Data(i, bn)) != 0 ==> bn * BSIZE < len)
    && (Addr(fs, Indirect(i)) != 0 ==> NDIRECT * BSIZE < len)
  }

  // The blocks of a file of that many bytes, with its indirect block.
  function SizeBlocks(len: nat): nat
  {
    (len + BSIZE - 1) / BSIZE + if len > NDIRECT * BSIZE then 1 else 0
  }

  // A round of iappend takes what the file lacks.
  lemma RoundTakes(fs: Fs, ino: int, off: nat, n: nat)
    requires Dense(fs, ino, off) && Tight(fs, ino, off) && 0 < n && off % BSIZE + n <= BSIZE && off / BSIZE < MAXFILE
    ensures SizeBlocks(off + n) == SizeBlocks(off) + NewBlocks(fs, ino, off / BSIZE, off / BSIZE + 1)
  {
    hide Addr, NewBlocks;
    var bn := off / BSIZE;
    OneBlock(fs, ino, bn);
    assert Mapped(fs, ino, bn, off) && Mapped(fs, ino, NDIRECT, off);
    if off > NDIRECT * BSIZE {
      HasIndirect(fs, ino);
    }
  }

  lemma HasIndirect(fs: Fs, ino: int)
    requires Addr(fs, Data(ino, NDIRECT)) != 0
    ensures Addr(fs, Indirect(ino)) != 0
  {
    hide Entry;
  }

  lemma SizeGrows(a: nat, b: nat)
    requires a <= b
    ensures SizeBlocks(a) <= SizeBlocks(b)
  {
  }

  ghost predicate TightAt(fs: Fs, i: int)
  {
    Tight(fs, i, FsSpec.Inode(fs, i).size)
  }

  // No data slot of another inode has changed.
  ghost predicate OnlyInode(fs: Fs, fs': Fs, ino: int)
  {
    forall q: Role :: q.Data? && q.ino != ino ==> Addr(fs', q) == Addr(fs, q)
  }

  function Resized(fs: Fs, ino: int, size: nat): Fs
    requires 0 <= ino < |fs.inodes|
  {
    fs.(inodes := fs.inodes[ino := fs.inodes[ino].(size := size)])
  }

  lemma TightGrows(fs0: Fs, fs: Fs, fs': Fs, ino: int, off: nat, n: nat)
    requires Tight(fs, ino, off) && OnlySlot(fs, fs', Data(ino, off / BSIZE)) && 0 < n && OnlyInode(fs0, fs, ino)
    requires off / BSIZE < NDIRECT ==> Addr(fs', Indirect(ino)) == Addr(fs, Indirect(ino))
    ensures Tight(fs', ino, off + n) && OnlyInode(fs0, fs', ino)
  {
  }

  lemma RecycleTight(fs: Fs, ino: int, d: Dinode)
    requires 0 <= ino < |fs.inodes| && Empty(fs, ino) && d.addrs == FreshInode().addrs
    requires forall i :: TightAt(fs, i)
    ensures var fs' := fs.(inodes := fs.inodes[ino := d]); forall i :: TightAt(fs', i)
  {
    hide Entry;
    var fs' := fs.(inodes := fs.inodes[ino := d]);
    forall i ensures TightAt(fs', i) {
      assert TightAt(fs, i);
      forall bn | Addr(fs', Data(i, bn)) != 0 ensures bn * BSIZE < FsSpec.Inode(fs', i).size {
        assert i != ino ==> Addr(fs', Data(i, bn)) == Addr(fs, Data(i, bn));
      }
    }
  }

  // The facts iappend starts from.
  lemma AppendStart(sb: Super, fs: Fs, owner: Owner, ino: int)
    requires Sound(sb, fs, owner) && TightAt(fs, ino)
    ensures Owned(sb, fs, owner) && Progress(fs, fs, ino) && OnlyInode(fs, fs, ino)
    ensures Dense(fs, ino, FsSpec.Inode(fs, ino).size) && Tight(fs, ino, FsSpec.Inode(fs, ino).size)
  {
    assert InodeSound(fs, ino);
  }

  // What iappend has achieved once the size is written.
  lemma AppendEnd(sb: Super, fs0: Fs, own0: Owner, fs: Fs, owner: Owner, ino: int, len: nat)
    requires Sound(sb, fs0, own0) && Owned(sb, fs, owner) && Progress(fs0, fs, ino) && OnlyInode(fs0, fs, ino)
    requires 0 <= ino < |fs.inodes| && FsSpec.Inode(fs, ino).kind != 0 && Dense(fs, ino, len) && Tight(fs, ino, len)
    requires forall i :: TightAt(fs0, i)
    ensures var fs' := Resized(fs, ino, len);
            && Sound(sb, fs', owner) && OthersSame(fs0, fs', ino) && Contents(fs', ino) == File(fs, ino, len)
            && (forall i :: TightAt(fs', i))
  {
    var fs' := Resized(fs, ino, len);
    ResizeKeeps(sb, fs, owner, ino, len);
    forall i | i != ino ensures SameInode(fs, fs', i) {
    }
    forall q ensures KeepsAddr(fs, fs', q) {
      assert Addr(fs', q) == Addr(fs, q);
    }
    OthersTwice(fs0, fs, fs', ino);
    forall bn ensures Mapped(fs', ino, bn, len) {
      assert Mapped(fs, ino, bn, len) && Addr(fs', Data(ino, bn)) == Addr(fs, Data(ino, bn));
    }
    OthersSound(sb, fs0, own0, fs', owner, ino);
    forall i ensures TightAt(fs', i) {
      assert TightAt(fs0, i);
      assert i != ino ==> SameInode(fs0, fs', i);
      forall bn | Addr(fs', Data(i, bn)) != 0 ensures bn * BSIZE < FsSpec.Inode(fs', i).size {
        assert Addr(fs', Data(i, bn)) == Addr(fs, Data(i, bn));
        assert i != ino ==> Addr(fs, Data(i, bn)) == Addr(fs0, Data(i, bn));
      }
    }
  }

  // The bytes stored for an inode from off on are zero.
  ghost predicate ZeroFrom(fs: Fs, ino: int, off: int)
  {
    forall k :: k >= off ==> FileByte(fs, ino, k) == 0
  }

  ghost predicate ZeroTail(fs: Fs, ino: int)
  {
    ZeroFrom(fs, ino, FsSpec.Inode(fs, ino).size)
  }

  lemma FreshZero(fs: Fs, ino: int)
    requires FsSpec.Inode(fs, ino).addrs == FreshInode().addrs && FsSpec.Inode(fs, ino).size == 0
    ensures ZeroTail(fs, ino)
  {
    forall k ensures FileByte(fs, ino, k) == 0 {
      assert Addr(fs, Data(ino, k / BSIZE)) == 0;
    }
  }

  lemma ZeroAfter(sb: Super, fs0: Fs, fs1: Fs, owner: Owner, ino: int, off: nat, data: seq<int>)
    requires Grown(fs0, fs1, ino) && Owned(sb, fs1, owner) && Addr(fs1, Data(ino, off / BSIZE)) != 0
    requires off % BSIZE + |data| <= BSIZE
    ensures 0 < Addr(fs1, Data(ino, off / BSIZE)) < |fs1.blocks|
    ensures var blk := Patch(BlockOf(fs1, ino, off / BSIZE), off % BSIZE, data);
            ZeroFrom(fs0, ino, off) ==> ZeroFrom(WriteBlock(fs1, ino, off / BSIZE, blk), ino, off + |data|)
  {
    hide Owned, Grown, Addr;
    WriteAddr(sb, fs1, owner, ino, off / BSIZE, Zero(), Data(ino, off / BSIZE));
    var fs' := WriteBlock(fs1, ino, off / BSIZE, Patch(BlockOf(fs1, ino, off / BSIZE), off % BSIZE, data));
    if ZeroFrom(fs0, ino, off) {
      forall k: int | k >= off + |data| ensures FileByte(fs', ino, k) == 0 {
        PatchSplices(sb, fs1, owner, ino, k + 1, off, data);
        GrownFile(fs0, fs1, ino, k + 1);
        assert File(fs', ino, k + 1)[k] == File(fs0, ino, k + 1)[k];
      }
    }
  }

  // What patching the last block makes of it.
  lemma AppendFacts(sb: Super, fs0: Fs, fs1: Fs, owner: Owner, ino: int, off: nat, data: seq<int>)
    requires Grown(fs0, fs1, ino) && Owned(sb, fs1, owner) && Dense(fs0, ino, off)
    requires Addr(fs1, Data(ino, off / BSIZE)) != 0 && off % BSIZE + |data| <= BSIZE
    requires OnlySlot(fs0, fs1, Data(ino, off / BSIZE))
    ensures 0 < Addr(fs1, Data(ino, off / BSIZE)) < |fs1.blocks|
    ensures var bn := off / BSIZE; var a := Addr(fs1, Data(ino, bn));
            var fs := WriteBlock(fs1, ino, bn, Patch(fs1.blocks[a], off % BSIZE, data));
            && Owned(sb, fs, owner) && Progress(fs0, fs, ino) && Dense(fs, ino, off + |data|)
            && File(fs, ino, off + |data|) == File(fs0, ino, off) + data && OnlySlot(fs0, fs, Data(ino, bn))
            && Addr(fs, Indirect(ino)) == Addr(fs1, Indirect(ino))
            && (ZeroFrom(fs0, ino, off) ==> ZeroFrom(fs, ino, off + |data|))
            && FsSpec.Inode(fs, ino) == FsSpec.Inode(fs0, ino).(addrs := FsSpec.Inode(fs, ino).addrs)
  {
    hide Owned, Grown, Progress, Dense, File, OnlySlot, ZeroFrom, Addr;
    var bn := off / BSIZE;
    WriteAddr(sb, fs1, owner, ino, bn, Zero(), Data(ino, bn));
    var blk := Patch(fs1.blocks[Addr(fs1, Data(ino, bn))], off % BSIZE, data);
    var fs := WriteBlock(fs1, ino, bn, blk);
    GrownProgress(fs0, fs1, ino);
    GrownFile(fs0, fs1, ino, off);
    ZeroAfter(sb, fs0, fs1, owner, ino, off, data);
    WriteKeeps(sb, fs1, owner, ino, bn, blk);
    WriteProgress(sb, fs1, owner, ino, bn, blk);
    ProgressTwice(fs0, fs1, fs, ino);
    ProgressKeeps(fs0, fs, ino);
    WriteAddr(sb, fs1, owner, ino, bn, blk, Data(ino, bn));
    WriteAddr(sb, fs1, owner, ino, bn, blk, Indirect(ino));
    DenseGrows(fs0, fs, ino, off, off, |data|);
    PatchSplices(sb, fs1, owner, ino, off, off, data);
    AppendIsSplice(File(fs0, ino, off), data);
    WriteOnly(sb, fs0, fs1, owner, ino, bn, blk);
  }

  lemma ResizedZero(fs: Fs, ino: int, size: nat)
    requires 0 <= ino < |fs.inodes|
    ensures ZeroFrom(fs, ino, size) ==> ZeroTail(Resized(fs, ino, size), ino)
  {
    var fs' := Resized(fs, ino, size);
    forall k ensures FileByte(fs', ino, k) == FileByte(fs, ino, k) {
      assert Addr(fs', Data(ino, k / BSIZE)) == Addr(fs, Data(ino, k / BSIZE));
    }
  }

  class Image {
    const sb: Super
    var inodes: seq<Dinode>
    var blocks: seq<Block>
    var freeblock: int
    var freeinode: int
    ghost var owner: Owner

    ghost function State(): (r: Fs)
      reads this
    {
      Fs(Marks(sb, freeblock), inodes, blocks)
    }

    ghost predicate Valid()
      reads this
    {
      && Sound(sb, State(), owner)
      && (forall i :: TightAt(State(), i))
      && DataStart(sb) <= freeblock <= sb.size - sb.nlog && 1 <= freeinode
      && (forall b :: freeblock <= b < |blocks| ==> blocks[b] == Zero())
      && (forall i :: freeinode <= i < |inodes| ==> inodes[i] == FreshInode())
    }

    // The zeroed image, before any file.
    constructor (sb: Super)
      requires DataStart(sb) <= sb.size - sb.nlog
      ensures Valid() && this.sb == sb && freeblock == DataStart(sb) && freeinode == 1
      ensures inodes == seq(sb.ninodes, _ => FreshInode()) && owner == map[]
    {
      this.sb := sb;
      inodes := seq(sb.ninodes, _ => FreshInode());
      blocks := seq(sb.size, _ => Zero());
      freeblock, freeinode := DataStart(sb), 1;
      owner := map[];
      new;
      BlankIsSound(sb);
    }

    // Allocate the next inode; -1 when the table is full, which mkfs does not check.
    method Ialloc(kind: int) returns (inum: int)
      requires Valid() && kind != 0
      modifies this`inodes, this`freeinode
      ensures |inodes| == |old(inodes)| && (inum == -1 <==> old(freeinode) >= |inodes|)
      ensures inum == -1 ==> inodes == old(inodes) && freeinode == old(freeinode)
      ensures inum != -1 ==>
                && Valid() && inum == old(freeinode) && freeinode == old(freeinode) + 1
                && inodes == old(inodes)[inum := FreshInode().(kind := kind, nlink := 1)]
                && OthersSame(old(State()), State(), inum) && Contents(State(), inum) == [] && ZeroTail(State(), inum)
    {
      if freeinode >= |inodes| {
        return -1;
      }
      inum := freeinode;
      freeinode := freeinode + 1;
      ghost var fs := State();
      assert InodeSound(fs, inum);
      RecycleKeeps(sb, fs, owner, inum, FreshInode().(kind := kind, nlink := 1));
      RecycleTight(fs, inum, FreshInode().(kind := kind, nlink := 1));
      inodes := inodes[inum := FreshInode().(kind := kind, nlink := 1)];
      FreshZero(State(), inum);
    }

    ghost function With(inum: int, din: Dinode): (r: Fs)
      reads this
    {
      Fs(Marks(sb, freeblock), if 0 <= inum < |inodes| then inodes[inum := din] else inodes, blocks)
    }

    ghost predicate Ready(inum: int, din: Dinode)
      reads this
    {
      && 0 <= inum < |inodes| && Owned(sb, With(inum, din), owner)
      && DataStart(sb) <= freeblock <= sb.size - sb.nlog
      && (forall b :: freeblock <= b < |blocks| ==> blocks[b] == Zero())
    }

    // Hand the next block to the empty pointer i of the inode; false when the next block is in
    // the log, which mkfs does not check.
    method TakePointer(inum: int, din: Dinode, i: int) returns (ok: bool, d: Dinode)
      requires Ready(inum, din) && 0 <= i <= NDIRECT
      requires Addr(With(inum, din), if i == NDIRECT then Indirect(inum) else Data(inum, i)) == 0
      modifies this`freeblock, this`owner
      ensures ok <==> old(freeblock) < sb.size - sb.nlog
      ensures freeblock == old(freeblock) + if ok then 1 else 0
      ensures ok ==> Ready(inum, d) && Grown(old(With(inum, din)), With(inum, d), inum)
      ensures ok ==> Addr(With(inum, d), if i == NDIRECT then Indirect(inum) else Data(inum, i)) != 0
      ensures ok && i < NDIRECT ==> Addr(With(inum, d), Indirect(inum)) == Addr(old(With(inum, din)), Indirect(inum))
      ensures ok ==>
                OnlySlot(old(With(inum, din)), With(inum, d), if i == NDIRECT then Indirect(inum) else Data(inum, i))
    {
      d := din;
      if freeblock >= sb.size - sb.nlog {
        return false, d;
      }
      ghost var fs, r := With(inum, din), if i == NDIRECT then Indirect(inum) else Data(inum, i);
      InodeShape(sb, fs, owner, inum);
      ClearIsFree(sb, fs, owner, freeblock);
      AssignKeeps(sb, fs, owner, r, freeblock);
      AssignAddr(sb, fs, owner, r, freeblock, r);
      AssignGrows(sb, fs, owner, r, freeblock);
      AssignOnly(sb, fs, owner, r, freeblock);
      d := din.(addrs := din.addrs[i := freeblock]);
      owner := owner[freeblock := r];
      freeblock := freeblock + 1;
      assert With(inum, d) == Assign(fs, r, freeblock - 1);
      return true, d;
    }

    // Hand the next block to the empty entry j of the inode's indirect block.
    method TakeEntry(inum: int, din: Dinode, j: int) returns (ok: bool, x: int)
      requires Ready(inum, din) && 0 <= j < NINDIRECT
      requires Addr(With(inum, din), Indirect(inum)) != 0 && Addr(With(inum, din), Data(inum, NDIRECT + j)) == 0
      modifies this`freeblock, this`owner, this`blocks
      ensures ok <==> old(freeblock) < sb.size - sb.nlog
      ensures freeblock == old(freeblock) + if ok then 1 else 0
      ensures ok ==> Ready(inum, din) && Grown(old(With(inum, din)), With(inum, din), inum)
      ensures ok ==> x == Addr(With(inum, din), Data(inum, NDIRECT + j)) != 0
      ensures ok ==> OnlySlot(old(With(inum, din)), With(inum, din), Data(inum, NDIRECT + j))
    {
      hide Owned, Grown, OnlySlot, Addr;
      if freeblock >= sb.size - sb.nlog {
        return false, 0;
      }
      ghost var fs, r := With(inum, din), Data(inum, NDIRECT + j);
      InodeShape(sb, fs, owner, inum);
      IndirectAt(fs, inum);
      AddrRange(sb, fs, owner, Indirect(inum));
      ClearIsFree(sb, fs, owner, freeblock);
      AssignKeeps(sb, fs, owner, r, freeblock);
      AssignAddr(sb, fs, owner, r, freeblock, r);
      AssignGrows(sb, fs, owner, r, freeblock);
      AssignOnly(sb, fs, owner, r, freeblock);
      AssignSlot(sb, fs, owner, r, freeblock);
      var ind := din.addrs[NDIRECT];
      blocks := blocks[ind := SetEntry(blocks[ind], j, freeblock)];
      owner := owner[freeblock := r];
      freeblock := freeblock + 1;
      assert fs.blocks[freeblock - 1 := Zero()] == fs.blocks;
      assert With(inum, din) == Assign(fs, r, freeblock - 1);
      return true, freeblock - 1;
    }

    // The block for byte block fbn of the inode, handed out if there is none.
    method Place(inum: int, din: Dinode, fbn: int) returns (ok: bool, d: Dinode, x: int)
      requires Ready(inum, din) && 0 <= fbn < MAXFILE
      modifies this`freeblock, this`owner, this`blocks
      ensures ok ==>
                && Ready(inum, d) && Grown(old(With(inum, din)), With(inum, d), inum)
                && x == Addr(With(inum, d), Data(inum, fbn)) != 0
                && OnlySlot(old(With(inum, din)), With(inum, d), Data(inum, fbn))
      ensures var cost := NewBlocks(old(With(inum, din)), inum, fbn, fbn + 1);
              && (ok <==> old(freeblock) + cost <= sb.size - sb.nlog)
              && (ok ==> freeblock == old(freeblock) + cost)
      ensures ok && fbn < NDIRECT ==> Addr(With(inum, d), Indirect(inum)) == Addr(old(With(inum, din)), Indirect(inum))
      ensures !ok ==> freeblock >= sb.size - sb.nlog
      ensures freeblock >= old(freeblock)
    {
      hide Owned;
      hide Grown;
      hide OnlySlot;
      hide NewBlocks;
      OneBlock(With(inum, din), inum, fbn);
      ok, d, x := true, din, 0;
      OnlySelf(With(inum, din), Data(inum, fbn));
      GrownSelf(With(inum, din), inum);
      InodeShape(sb, With(inum, din), owner, inum);
      if fbn < NDIRECT {
        if d.addrs[fbn] == 0 {
          ok, d := TakePointer(inum, d, fbn);
          if !ok {
            return;
          }
          InodeShape(sb, With(inum, d), owner, inum);
        }
        x := d.addrs[fbn];
      } else {
        ok, d, x := PlaceIndirect(inum, d, fbn - NDIRECT);
      }
    }

    method PlaceIndirect(inum: int, din: Dinode, j: int) returns (ok: bool, d: Dinode, x: int)
      requires Ready(inum, din) && 0 <= j < NINDIRECT
      modifies this`freeblock, this`owner, this`blocks
      ensures ok ==>
                && Ready(inum, d) && Grown(old(With(inum, din)), With(inum, d), inum)
                && x == Addr(With(inum, d), Data(inum, NDIRECT + j)) != 0
                && OnlySlot(old(With(inum, din)), With(inum, d), Data(inum, NDIRECT + j))
      ensures var cost := NewBlocks(old(With(inum, din)), inum, NDIRECT + j, NDIRECT + j + 1);
              && (ok <==> old(freeblock) + cost <= sb.size - sb.nlog)
              && (ok ==> freeblock == old(freeblock) + cost)
      ensures !ok ==> freeblock >= sb.size - sb.nlog
      ensures freeblock >= old(freeblock)
    {
      hide Owned;
      hide Grown;
      hide OnlySlot;
      hide NewBlocks;
      OneBlock(With(inum, din), inum, NDIRECT + j);
      ok, d, x := true, din, 0;
      OnlySelf(With(inum, din), Data(inum, NDIRECT + j));
      GrownSelf(With(inum, din), inum);
      InodeShape(sb, With(inum, din), owner, inum);
      if d.addrs[NDIRECT] == 0 {
        ok, d := TakePointer(inum, d, NDIRECT);
        if !ok {
          return;
        }
        OnlyEntry(old(With(inum, din)), With(inum, d), inum, NDIRECT + j);
        OnlyIndirect(old(With(inum, din)), With(inum, d), inum, Data(inum, NDIRECT + j));
        InodeShape(sb, With(inum, d), owner, inum);
      }
      ghost var mid := With(inum, d);
      AddrRange(sb, mid, owner, Indirect(inum));
      x := Entry(blocks[d.addrs[NDIRECT]], j);
      if x == 0 {
        ok, x := TakeEntry(inum, d, j);
        if !ok {
          return;
        }
        GrownTwice(old(With(inum, din)), mid, With(inum, d), inum);
        OnlyTwice(old(With(inum, din)), mid, With(inum, d), Data(inum, NDIRECT + j));
      }
    }

    // One round of iappend: data goes to the end of the file, inside one block.
    method AppendRound(inum: int, din: Dinode, off: nat, data: seq<int>) returns (ok: bool, d: Dinode)
      requires Ready(inum, din) && Dense(With(inum, din), inum, off)
      requires off / BSIZE < MAXFILE && off % BSIZE + |data| <= BSIZE
      modifies this`freeblock, this`owner, this`blocks
      ensures var cost := NewBlocks(old(With(inum, din)), inum, off / BSIZE, off / BSIZE + 1);
              && (ok <==> old(freeblock) + cost <= sb.size - sb.nlog)
              && (ok ==> freeblock == old(freeblock) + cost)
      ensures ok && off / BSIZE < NDIRECT ==>
                Addr(With(inum, d), Indirect(inum)) == Addr(old(With(inum, din)), Indirect(inum))
      ensures !ok ==> freeblock >= sb.size - sb.nlog
      ensures ok ==>
                && Ready(inum, d) && Progress(old(With(inum, din)), With(inum, d), inum)
                && Dense(With(inum, d), inum, off + |data|)
                && File(With(inum, d), inum, off + |data|) == File(old(With(inum, din)), inum, off) + data
                && OnlySlot(old(With(inum, din)), With(inum, d), Data(inum, off / BSIZE))
                && d == din.(addrs := d.addrs) && freeblock >= old(freeblock)
                && (ZeroFrom(old(With(inum, din)), inum, off) ==> ZeroFrom(With(inum, d), inum, off + |data|))
    {
      hide Owned, Grown, Progress, Dense, File, OnlySlot, NewBlocks, ZeroFrom, Addr, Patch;
      var x;
      ghost var fs0 := With(inum, din);
      ok, d, x := Place(inum, din, off / BSIZE);
      if !ok {
        return;
      }
      ghost var fs1 := With(inum, d);
      var bn := off / BSIZE;
      InodeShape(sb, fs1, owner, inum);
      AddrRange(sb, fs1, owner, Data(inum, bn));
      BelowFree(sb, fs1, owner, freeblock, x);
      AppendFacts(sb, fs0, fs1, owner, inum, off, data);
      var blk := Patch(blocks[x], off % BSIZE, data);
      blocks := blocks[x := blk];
      assert With(inum, d) == WriteBlock(fs1, inum, bn, blk);
    }

    // Append data to a file; false when the image is full or the file too long (an assert there).
    method Iappend(inum: int, data: seq<int>) returns (ok: bool)
      requires Valid() && 0 <= inum < freeinode && inum < |inodes| && inodes[inum].kind != 0
      modifies this`freeblock, this`owner, this`blocks, this`inodes
      ensures !ok ==> freeblock >= sb.size - sb.nlog || old(inodes[inum].size) + |data| > MAXFILE * BSIZE
      ensures var len := old(inodes[inum].size); var cost := SizeBlocks(len + |data|) - SizeBlocks(len);
              && (ok <==> len + |data| <= MAXFILE * BSIZE && old(freeblock) + cost <= sb.size - sb.nlog)
              && (ok ==> freeblock == old(freeblock) + cost && freeinode == old(freeinode))
      ensures ok ==>
                && Valid() && freeblock >= old(freeblock)
                && Contents(State(), inum) == old(Contents(State(), inum)) + data
                && OthersSame(old(State()), State(), inum)
                && |inodes| == old(|inodes|)
                && inodes[inum] == old(inodes[inum]).(size := inodes[inum].size, addrs := inodes[inum].addrs)
                && (old(ZeroTail(State(), inum)) ==> ZeroTail(State(), inum))
    {
      hide Sound, OthersSame, Progress, Dense, File, Tight, OnlyInode, Owned, ZeroFrom, SizeBlocks;
      assert TightAt(State(), inum);
      AppendStart(sb, State(), owner, inum);
      ghost var fs0 := State();
      assert State() == With(inum, inodes[inum]);
      var din;
      ok, din := AppendAll(inum, data);
      if ok {
        var off := inodes[inum].size + |data|;
        ghost var fs1 := With(inum, din);
        AppendEnd(sb, fs0, old(owner), fs1, owner, inum, off);
        inodes := inodes[inum := din.(size := off)];
        assert State() == Resized(fs1, inum, off);
        ResizedZero(fs1, inum, off);
      }
    }

    // The loop of iappend.
    method AppendAll(inum: int, data: seq<int>) returns (ok: bool, din: Dinode)
      requires 0 <= inum < |inodes| && Ready(inum, inodes[inum]) && State() == With(inum, inodes[inum])
      requires Progress(State(), State(), inum) && OnlyInode(State(), State(), inum)
      requires Dense(State(), inum, inodes[inum].size) && Tight(State(), inum, inodes[inum].size)
      modifies this`freeblock, this`owner, this`blocks
      ensures !ok ==> freeblock >= sb.size - sb.nlog || inodes[inum].size + |data| > MAXFILE * BSIZE
      ensures var len := inodes[inum].size; var cost := SizeBlocks(len + |data|) - SizeBlocks(len);
              && (ok <==> len + |data| <= MAXFILE * BSIZE && old(freeblock) + cost <= sb.size - sb.nlog)
              && (ok ==> freeblock == old(freeblock) + cost)
      ensures ok ==>
                var len := inodes[inum].size + |data|;
                && freeblock >= old(freeblock) && Ready(inum, din) && din == inodes[inum].(addrs := din.addrs)
                && Progress(old(State()), With(inum, din), inum) && OnlyInode(old(State()), With(inum, din), inum)
                && Dense(With(inum, din), inum, len) && Tight(With(inum, din), inum, len)
                && File(With(inum, din), inum, len) == File(old(State()), inum, inodes[inum].size) + data
                && (ZeroFrom(old(State()), inum, inodes[inum].size) ==> ZeroFrom(With(inum, din), inum, len))
    {
      hide Progress, Dense, File, Tight, OnlySlot, OnlyInode, Owned, ZeroFrom, SizeBlocks, NewBlocks;
      ghost var fs0, total := State(), inodes[inum].size + |data|;
      DenseFits(State(), inum, inodes[inum].size);
      din := inodes[inum];
      var off, p := din.size, 0;
      assert data[..0] == [];
      while p < |data|
        invariant p <= |data| && off == inodes[inum].size + p && freeblock >= old(freeblock)
        invariant Ready(inum, din) && Progress(fs0, With(inum, din), inum) && OnlyInode(fs0, With(inum, din), inum)
        invariant din == inodes[inum].(addrs := din.addrs)
        invariant Dense(With(inum, din), inum, off) && Tight(With(inum, din), inum, off)
        invariant File(With(inum, din), inum, off) == File(fs0, inum, inodes[inum].size) + data[..p]
        invariant ZeroFrom(fs0, inum, inodes[inum].size) ==> ZeroFrom(With(inum, din), inum, off)
        invariant freeblock == old(freeblock) + SizeBlocks(off) - SizeBlocks(inodes[inum].size)
        invariant off <= MAXFILE * BSIZE
      {
        var fbn := off / BSIZE;
        if fbn >= MAXFILE {
          return false, din;
        }
        var n1 := if |data| - p < (fbn + 1) * BSIZE - off then |data| - p else (fbn + 1) * BSIZE - off;
        ghost var fs1 := With(inum, din);
        RoundTakes(fs1, inum, off, n1);
        SizeGrows(off + n1, total);
        ok, din := AppendRound(inum, din, off, data[p..p + n1]);
        if !ok {
          return;
        }
        ProgressTwice(fs0, fs1, With(inum, din), inum);
        TightGrows(fs0, fs1, With(inum, din), inum, off, n1);
        JoinPieces(File(fs0, inum, inodes[inum].size), data, p, n1);
        p := p + n1;
        off := off + n1;
      }
      assert data[..p] == data;
      return true, din;
    }
  }

  lemma IndirectAt(fs: Fs, ino: int)
    requires 0 <= ino < |fs.inodes| && |fs.inodes[ino].addrs| == NDIRECT + 1
    ensures Addr(fs, Indirect(ino)) == fs.inodes[ino].addrs[NDIRECT]
  {
  }

  // A file without holes is not larger than the largest file.
  lemma DenseFits(fs: Fs, ino: int, len: nat)
    requires Dense(fs, ino, len)
    ensures len <= MAXFILE * BSIZE
  {
    assert Mapped(fs, ino, MAXFILE, len);
  }

  lemma JoinPieces(c: seq<int>, data: seq<int>, p: nat, n: nat)
    requires p + n <= |data|
    ensures c + data[..p] + data[p..p + n] == c + data[..p + n]
  {
  }

  lemma BlankIsSound(sb: Super)
    requires DataStart(sb) <= sb.size - sb.nlog
    ensures Sound(sb, Fs(Marks(sb, DataStart(sb)), seq(sb.ninodes, _ => FreshInode()), seq(sb.size, _ => Zero())),
                  map[])
  {
    hide Entry;
    var fs := Fs(Marks(sb, DataStart(sb)), seq(sb.ninodes, _ => FreshInode()), seq(sb.size, _ => Zero()));
    forall q ensures Addr(fs, q) == 0 {
    }
    forall i ensures InodeSound(fs, i) {
      assert FsSpec.Inode(fs, i).size == 0;
      forall bn ensures Mapped(fs, i, bn, 0) {
      }
    }
    forall b ensures BlockOk(sb, fs, map[], b) {
    }
    forall q ensures RoleOk(fs, map[], q) {
      assert Addr(fs, q) == 0;
    }
    forall i ensures InodeOk(fs, i) {
    }
  }

  // A block in a slot has been handed out.
  lemma BelowFree(sb: Super, fs: Fs, owner: Owner, free: int, x: int)
    requires Owned(sb, fs, owner) && fs.bits == Marks(sb, free) && 0 <= x < |fs.bits| && fs.bits[x] && !Reserved(sb, x)
    ensures x < free
  {
  }

  lemma AppendIsSplice(c: seq<int>, data: seq<int>)
    ensures Spliced(c, |c|, data) == c + data
  {
  }

  lemma WriteOnly(sb: Super, fs0: Fs, fs: Fs, owner: Owner, ino: int, bn: int, blk: Block)
    requires Owned(sb, fs, owner) && Addr(fs, Data(ino, bn)) != 0 && OnlySlot(fs0, fs, Data(ino, bn))
    ensures 0 < Addr(fs, Data(ino, bn)) < |fs.blocks|
    ensures OnlySlot(fs0, WriteBlock(fs, ino, bn, blk), Data(ino, bn))
  {
    AddrRange(sb, fs, owner, Data(ino, bn));
    forall q: Role | q != Data(ino, bn) && q.Data? ensures Addr(WriteBlock(fs, ino, bn, blk), q) == Addr(fs0, q) {
      WriteAddr(sb, fs, owner, ino, bn, blk, q);
    }
  }

  // ---------- the finished image ----------

  // main rounds the root directory's size up to the next block even when it is a whole number
  // of blocks.  The result has no hole exactly when it was not.
  lemma RootRoundingIsDense(sb: Super, fs: Fs, owner: Owner, root: int)
    requires Sound(sb, fs, owner) && TightAt(fs, root) && 0 <= root < |fs.inodes|
    ensures var s := FsSpec.Inode(fs, root).size;
            Dense(Resized(fs, root, (s / BSIZE + 1) * BSIZE), root, (s / BSIZE + 1) * BSIZE) <==> s % BSIZE != 0
  {
    var s := FsSpec.Inode(fs, root).size;
    var s' := (s / BSIZE + 1) * BSIZE;
    var fs' := Resized(fs, root, s');
    ResizeKeeps(sb, fs, owner, root, s');
    assert InodeSound(fs, root);
    if s % BSIZE == 0 {
      assert Addr(fs', Data(root, s / BSIZE)) == Addr(fs, Data(root, s / BSIZE));
      assert !Mapped(fs', root, s / BSIZE, s');
    } else {
      forall bn ensures Mapped(fs', root, bn, s') {
        assert Mapped(fs, root, bn, s) && Addr(fs', Data(root, bn)) == Addr(fs, Data(root, bn));
      }
    }
  }

  // So the finished image is sound exactly then.
  lemma RootRoundingIsSound(sb: Super, fs: Fs, owner: Owner, root: int)
    requires Sound(sb, fs, owner) && TightAt(fs, root) && 0 <= root < |fs.inodes|
    ensures var s := FsSpec.Inode(fs, root).size;
            Sound(sb, Resized(fs, root, (s / BSIZE + 1) * BSIZE), owner) <==> s % BSIZE != 0
  {
    hide Dense;
    var s := FsSpec.Inode(fs, root).size;
    var fs' := Resized(fs, root, (s / BSIZE + 1) * BSIZE);
    RootRoundingIsDense(sb, fs, owner, root);
    ResizeKeeps(sb, fs, owner, root, (s / BSIZE + 1) * BSIZE);
    if s % BSIZE == 0 {
      assert !InodeSound(fs', root);
    } else {
      assert InodeSound(fs, root);
      DenseAt(fs, root, s, 0);
      assert InodeSound(fs', root);
      ResizedOthers(fs, root, (s / BSIZE + 1) * BSIZE);
      OthersSound(sb, fs, owner, fs', owner, root);
    }
  }

  lemma ResizedOthers(fs: Fs, ino: int, size: nat)
    requires 0 <= ino < |fs.inodes| && (forall q :: Addr(Resized(fs, ino, size), q) == Addr(fs, q))
    requires forall i :: SameBlocks(fs, Resized(fs, ino, size), i)
    ensures OthersSame(fs, Resized(fs, ino, size), ino)
  {
    hide Addr;
    var fs' := Resized(fs, ino, size);
    forall i | i != ino ensures SameInode(fs, fs', i) {
    }
    forall q ensures KeepsAddr(fs, fs', q) {
      assert Addr(fs', q) == Addr(fs, q);
    }
  }

  // The bitmap balloc writes marks every reserved block and every block in a slot, and no other,
  // exactly when there is no log behind the data: log blocks are left marked free.
  lemma WrittenBitmap(sb: Super, fs: Fs, owner: Owner, used: int)
    requires Owned(sb, fs, owner) && fs.bits == Marks(sb, used)
    requires DataStart(sb) <= used <= sb.size - sb.nlog
    ensures Owned(sb, fs.(bits := Written(sb, used)), owner) <==> sb.nlog == 0
  {
    var fs' := fs.(bits := Written(sb, used));
    if sb.nlog == 0 {
      assert fs'.bits == fs.bits;
      assert fs' == fs;
    } else {
      var b := sb.size - 1;
      assert Reserved(sb, b) && !fs'.bits[b];
      assert !BlockOk(sb, fs', owner, b);
    }
  }

  // On such an image the lowest clear bit is a log block exactly when the data blocks are used up.
  lemma BallocReachesLog(sb: Super, used: int)
    requires 0 < sb.nlog <= sb.size && DataStart(sb) <= used <= sb.size - sb.nlog
    ensures !Written(sb, used)[used] && forall i :: 0 <= i < used ==> Written(sb, used)[i]
    ensures Reserved(sb, used) <==> used == sb.size - sb.nlog
  {
  }

  // balloc's loop: the bitmap sector with bits 0 .. used-1 set, bit i%8 of byte i/8.
  method BitmapSector(used: nat) returns (buf: seq<bv8>)
    requires used < BSIZE * 8
    ensures |buf| == BSIZE
    ensures forall i: nat :: i < BSIZE * 8 ==> (BitSet(buf, i) <==> i < used)
  {
    buf := seq(BSIZE, _ => 0);
    var i := 0;
    while i < used
      invariant i <= used && |buf| == BSIZE
      invariant forall k: nat :: k < BSIZE * 8 ==> (BitSet(buf, k) <==> k < i)
    {
      ghost var was := buf;
      buf := buf[i / 8 := buf[i / 8] | (1 << (i % 8))];
      forall k: nat | k < BSIZE * 8 ensures BitSet(buf, k) <==> k < i + 1 {
        OrSetsOneBit(was[i / 8], i % 8, k % 8);
        assert BitSet(was, k) <==> k < i;
      }
      i := i + 1;
    }
  }

  predicate BitSet(buf: seq<bv8>, i: nat)
  {
    i / 8 < |buf| && buf[i / 8] & (1 << (i % 8)) != 0
  }

  lemma OrSetsOneBit(x: bv8, i: nat, k: nat)
    requires i < 8 && k < 8
    ensures (x | (1 << i)) & (1 << k) != 0 <==> k == i || x & (1 << k) != 0
  {
    assert (1 as bv8 << i) == [1, 2, 4, 8, 16, 32, 64, 128][i];
    assert (1 as bv8 << k) == [1, 2, 4, 8, 16, 32, 64, 128][k];
  }
}
