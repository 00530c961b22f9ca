/**
  The on-disk file system of fs.c as values: bitmap bits, inodes and block contents, who owns
  which block, and what the bytes of a file are.  Fs.dfy runs the code of fs.c against this.
 */
module FsSpec {
  const BSIZE: int := 512
  const NDIRECT: int := 12
  const NINDIRECT: int := 128
  const MAXFILE: int := NDIRECT + NINDIRECT
  const IPB: int := 8
  const BPB: int := 4096

  datatype Block = Block(bytes: seq<int>)

  datatype Dinode = Dinode(kind: int, major: int, minor: int, nlink: int, size: nat, addrs: seq<int>)

  // size blocks in all, ninodes inodes, the last nlog blocks are the log
  datatype Super = Super(size: nat, ninodes: nat, nlog: nat)

  datatype Fs = Fs(bits: seq<bool>, inodes: seq<Dinode>, blocks: seq<Block>)

  // The slots that can own a block: the n-th block of an inode, and its indirect block.
  datatype Role = Data(ino: int, bn: int) | Indirect(ino: int)

  type Owner = map<int, Role>

  // ---------- bytes and words of a block ----------

  function ByteAt(b: Block, i: int): int
  {
    if 0 <= i < |b.bytes| then b.bytes[i] else 0
  }

  function Zero(): Block
  {
    Block(seq(BSIZE, _ => 0))
  }

  // The block with data written over it from byte o on.
  function Patch(b: Block, o: int, data: seq<int>): Block
  {
    Block(seq(BSIZE, i => if o <= i < o + |data| then data[i - o] else ByteAt(b, i)))
  }

  // The j-th 4-byte word, little-endian.
  function Entry(b: Block, j: int): int
  {
    ByteAt(b, 4 * j) + 0x100 * ByteAt(b, 4 * j + 1) + 0x1_0000 * ByteAt(b, 4 * j + 2)
        + 0x100_0000 * ByteAt(b, 4 * j + 3)
  }

  function WordBytes(a: int): seq<int>
  {
    [a % 0x100, a / 0x100 % 0x100, a / 0x100 / 0x100 % 0x100, a / 0x100 / 0x100 / 0x100]
  }

  function SetEntry(b: Block, j: int, a: int): Block
  {
    Patch(b, 4 * j, WordBytes(a))
  }

  lemma PatchAt(b: Block, o: int, data: seq<int>, i: int)
    requires 0 <= o && o + |data| <= BSIZE
    ensures ByteAt(Patch(b, o, data), i) ==
            if o <= i < o + |data| then data[i - o] else if 0 <= i < BSIZE then ByteAt(b, i) else 0
  {
  }

  lemma WordBytesSum(a: int)
    ensures var w := WordBytes(a); w[0] + 0x100 * w[1] + 0x1_0000 * w[2] + 0x100_0000 * w[3] == a
  {
  }

  // Writing one word of an indirect block changes that word and no other.
  lemma EntryAfterSet(b: Block, j: int, a: int, k: int)
    requires 0 <= j < NINDIRECT && 0 <= k < NINDIRECT
    ensures Entry(SetEntry(b, j, a), k) == if k == j then a else Entry(b, k)
  {
    var w := WordBytes(a);
    WordBytesSum(a);
    PatchAt(b, 4 * j, w, 4 * k);
    PatchAt(b, 4 * j, w, 4 * k + 1);
    PatchAt(b, 4 * j, w, 4 * k + 2);
    PatchAt(b, 4 * j, w, 4 * k + 3);
  }

  lemma ZeroEntry(k: int)
    ensures Entry(Zero(), k) == 0
  {
  }

  // ---------- block addresses ----------

  function Word(d: Dinode, i: int): int
  {
    if 0 <= i < |d.addrs| then d.addrs[i] else 0
  }

  function Inode(fs: Fs, ino: int): Dinode
  {
    if 0 <= ino < |fs.inodes| then fs.inodes[ino] else Dinode(0, 0, 0, 0, 0, [])
  }

  // The address in a slot; 0 when the slot is empty.
  function Addr(fs: Fs, r: Role): int
  {
    match r
    case Indirect(ino) => Word(Inode(fs, ino), NDIRECT)
    case Data(ino, bn) =>
      if 0 <= bn < NDIRECT then Word(Inode(fs, ino), bn)
      else if NDIRECT <= bn < MAXFILE then
        var a := Word(Inode(fs, ino), NDIRECT);
        if 0 < a < |fs.blocks| then Entry(fs.blocks[a], bn - NDIRECT) else 0
      else 0
  }

  // ---------- who owns a block ----------

  function DataStart(sb: Super): int
  {
    sb.ninodes / IPB + 3 + sb.size / BPB + 1
  }

  // Boot block, super block, inodes, bitmap and log.
  predicate Reserved(sb: Super, b: int)
  {
    b < DataStart(sb) || sb.size - sb.nlog <= b
  }

  ghost predicate InodeOk(fs: Fs, ino: int)
  {
    0 <= ino < |fs.inodes| ==> |fs.inodes[ino].addrs| == NDIRECT + 1
  }

  ghost predicate RoleOk(fs: Fs, owner: Owner, r: Role)
  {
    var a := Addr(fs, r);
    a != 0 ==> a in owner && owner[a] == r
  }

  ghost predicate BlockOk(sb: Super, fs: Fs, owner: Owner, b: int)
  {
    && (b in owner ==> 0 <= b < sb.size && !Reserved(sb, b) && Addr(fs, owner[b]) == b)
    && (0 <= b < |fs.bits| ==> (fs.bits[b] <==> Reserved(sb, b) || b in owner))
  }

  // A bitmap bit is set exactly when its block is reserved or is in exactly one slot.
  ghost predicate Owned(sb: Super, fs: Fs, owner: Owner)
  {
    && |fs.bits| == |fs.blocks| == sb.size
    && |fs.inodes| == sb.ninodes
    && (forall ino :: InodeOk(fs, ino))
    && (forall r :: RoleOk(fs, owner, r))
    && (forall b :: BlockOk(sb, fs, owner, b))
  }

  // Give free block b, zeroed, to the empty slot r.
  function Assign(fs: Fs, r: Role, b: int): Fs
    requires 0 <= b < |fs.bits| == |fs.blocks| && 0 <= r.ino < |fs.inodes|
    requires |fs.inodes[r.ino].addrs| == NDIRECT + 1
    requires r.Data? ==> 0 <= r.bn < MAXFILE && (NDIRECT <= r.bn ==> 0 < Addr(fs, Indirect(r.ino)) < |fs.blocks|)
  {
    var d := fs.inodes[r.ino];
    var bits, blocks := fs.bits[b := true], fs.blocks[b := Zero()];
    if r.Data? && r.bn >= NDIRECT then
      var ind := d.addrs[NDIRECT];
      Fs(bits, fs.inodes, blocks[ind := SetEntry(blocks[ind], r.bn - NDIRECT, b)])
    else
      var i := if r.Data? then r.bn else NDIRECT;
      Fs(bits, fs.inodes[r.ino := d.(addrs := d.addrs[i := b])], blocks)
  }

  ghost predicate Assignable(sb: Super, fs: Fs, owner: Owner, r: Role, b: int)
  {
    && Owned(sb, fs, owner)
    && 0 <= b < sb.size && !fs.bits[b]
    && 0 <= r.ino < sb.ninodes && Addr(fs, r) == 0
    && (r.Data? ==> 0 <= r.bn < MAXFILE && (NDIRECT <= r.bn ==> Addr(fs, Indirect(r.ino)) != 0))
  }

  // An address in a slot is a block number, and no two slots hold it.
  lemma AddrRange(sb: Super, fs: Fs, owner: Owner, r: Role)
    requires Owned(sb, fs, owner) && Addr(fs, r) != 0
    ensures 0 < Addr(fs, r) < sb.size && fs.bits[Addr(fs, r)] && !Reserved(sb, Addr(fs, r))
    ensures Addr(fs, r) in owner && owner[Addr(fs, r)] == r
  {
    hide Entry;
    assert RoleOk(fs, owner, r);
    assert BlockOk(sb, fs, owner, Addr(fs, r));
  }

  // A clear bit belongs to a data block in no slot.
  lemma ClearIsFree(sb: Super, fs: Fs, owner: Owner, b: int)
    requires Owned(sb, fs, owner) && 0 <= b < sb.size && !fs.bits[b]
    ensures 0 < b && !Reserved(sb, b) && b !in owner
  {
    assert BlockOk(sb, fs, owner, b);
  }

  // The effect of Assign on every slot.
  lemma AssignAddr(sb: Super, fs: Fs, owner: Owner, r: Role, b: int, q: Role)
    requires Assignable(sb, fs, owner, r, b)
    ensures InodeOk(fs, r.ino) && (r.Data? && NDIRECT <= r.bn ==> 0 < Addr(fs, Indirect(r.ino)) < |fs.blocks|)
    ensures Addr(Assign(fs, r, b), q) == if q == r then b else Addr(fs, q)
  {
    hide Entry;
    assert InodeOk(fs, r.ino);
    assert BlockOk(sb, fs, owner, b);
    if r.Data? && NDIRECT <= r.bn {
      AddrRange(sb, fs, owner, Indirect(r.ino));
    }
    if Addr(fs, Indirect(q.ino)) != 0 {
      AddrRange(sb, fs, owner, Indirect(q.ino));
    }
    if q.Data? && NDIRECT <= q.bn < MAXFILE {
      ZeroEntry(q.bn - NDIRECT);
      if r.Data? && NDIRECT <= r.bn {
        EntryAfterSet(fs.blocks[Addr(fs, Indirect(r.ino))], r.bn - NDIRECT, b, q.bn - NDIRECT);
      }
    }
  }

  // Allocation keeps the ownership invariant.
  lemma AssignKeeps(sb: Super, fs: Fs, owner: Owner, r: Role, b: int)
    requires Assignable(sb, fs, owner, r, b)
    ensures InodeOk(fs, r.ino) && (r.Data? && NDIRECT <= r.bn ==> 0 < Addr(fs, Indirect(r.ino)) < |fs.blocks|)
    ensures Owned(sb, Assign(fs, r, b), owner[b := r])
  {
    hide Entry;
    AssignAddr(sb, fs, owner, r, b, r);
    var fs', owner' := Assign(fs, r, b), owner[b := r];
    assert BlockOk(sb, fs, owner, b);
    forall ino ensures InodeOk(fs', ino) {
      assert InodeOk(fs, ino);
    }
    forall q ensures RoleOk(fs', owner', q) {
      AssignAddr(sb, fs, owner, r, b, q);
      assert RoleOk(fs, owner, q);
    }
    forall c ensures BlockOk(sb, fs', owner', c) {
      assert BlockOk(sb, fs, owner, c);
      if c in owner {
        AssignAddr(sb, fs, owner, r, b, owner[c]);
      }
    }
  }

  // Take the block out of slot r and clear its bit.
  function Release(fs: Fs, r: Role): Fs
    requires 0 < Addr(fs, r) < |fs.bits| == |fs.blocks| && 0 <= r.ino < |fs.inodes|
    requires |fs.inodes[r.ino].addrs| == NDIRECT + 1
  {
    var d := fs.inodes[r.ino];
    var bits := fs.bits[Addr(fs, r) := false];
    if r.Data? && r.bn >= NDIRECT then
      var ind := d.addrs[NDIRECT];
      Fs(bits, fs.inodes, fs.blocks[ind := SetEntry(fs.blocks[ind], r.bn - NDIRECT, 0)])
    else
      var i := if r.Data? then r.bn else NDIRECT;
      Fs(bits, fs.inodes[r.ino := d.(addrs := d.addrs[i := 0])], fs.blocks)
  }

  // An indirect block may be released once its entries are empty.
  ghost predicate Releasable(sb: Super, fs: Fs, owner: Owner, r: Role)
  {
    && Owned(sb, fs, owner) && Addr(fs, r) != 0
    && (r.Indirect? ==> forall bn :: NDIRECT <= bn < MAXFILE ==> Addr(fs, Data(r.ino, bn)) == 0)
  }

  lemma ReleasePre(sb: Super, fs: Fs, owner: Owner, r: Role)
    requires Owned(sb, fs, owner) && Addr(fs, r) != 0
    ensures 0 < Addr(fs, r) < |fs.bits| == |fs.blocks| && 0 <= r.ino < |fs.inodes|
    ensures |fs.inodes[r.ino].addrs| == NDIRECT + 1
    ensures r.Data? ==> 0 <= r.bn < MAXFILE && (NDIRECT <= r.bn ==> 0 < Addr(fs, Indirect(r.ino)) < |fs.blocks|)
  {
    hide Entry;
    assert InodeOk(fs, r.ino);
    AddrRange(sb, fs, owner, r);
  }

  lemma ReleaseAddr(sb: Super, fs: Fs, owner: Owner, r: Role, q: Role)
    requires Releasable(sb, fs, owner, r)
    ensures 0 < Addr(fs, r) < |fs.bits| == |fs.blocks| && 0 <= r.ino < |fs.inodes|
    ensures |fs.inodes[r.ino].addrs| == NDIRECT + 1
    ensures Addr(Release(fs, r), q) == if q == r then 0 else Addr(fs, q)
  {
    hide Entry;
    ReleasePre(sb, fs, owner, r);
    if Addr(fs, Indirect(q.ino)) != 0 {
      AddrRange(sb, fs, owner, Indirect(q.ino));
    }
    if r.Data? && NDIRECT <= r.bn {
      AddrRange(sb, fs, owner, Indirect(r.ino));
      if q.Data? && NDIRECT <= q.bn < MAXFILE {
        EntryAfterSet(fs.blocks[Addr(fs, Indirect(r.ino))], r.bn - NDIRECT, 0, q.bn - NDIRECT);
      }
    }
  }

  // Freeing keeps the ownership invariant.
  lemma ReleaseKeeps(sb: Super, fs: Fs, owner: Owner, r: Role)
    requires Releasable(sb, fs, owner, r)
    ensures 0 < Addr(fs, r) < |fs.bits| == |fs.blocks| && 0 <= r.ino < |fs.inodes|
    ensures |fs.inodes[r.ino].addrs| == NDIRECT + 1
    ensures Owned(sb, Release(fs, r), owner - {Addr(fs, r)})
  {
    hide Entry;
    ReleasePre(sb, fs, owner, r);
    AddrRange(sb, fs, owner, r);
    var fs', owner' := Release(fs, r), owner - {Addr(fs, r)};
    forall ino ensures InodeOk(fs', ino) {
      assert InodeOk(fs, ino);
    }
    forall q ensures RoleOk(fs', owner', q) {
      ReleaseAddr(sb, fs, owner, r, q);
      assert RoleOk(fs, owner, q);
    }
    forall c ensures BlockOk(sb, fs', owner', c) {
      assert BlockOk(sb, fs, owner, c);
      if c in owner {
        ReleaseAddr(sb, fs, owner, r, owner[c]);
      }
    }
  }

  // Freeing undoes allocation: bitmap, owners and every slot are as before.
  lemma ReleaseUndoesAssign(sb: Super, fs: Fs, owner: Owner, r: Role, b: int, q: Role)
    requires Assignable(sb, fs, owner, r, b)
    ensures InodeOk(fs, r.ino) && (r.Data? && NDIRECT <= r.bn ==> 0 < Addr(fs, Indirect(r.ino)) < |fs.blocks|)
    ensures var fs' := Assign(fs, r, b);
            && Addr(fs', r) == b && 0 < b < |fs'.bits| == |fs'.blocks|
            && |fs'.inodes| == |fs.inodes| && |fs'.inodes[r.ino].addrs| == NDIRECT + 1
            && Release(fs', r).bits == fs.bits && owner[b := r] - {b} == owner
            && Addr(Release(fs', r), q) == Addr(fs, q)
  {
    hide Entry;
    AssignKeeps(sb, fs, owner, r, b);
    AssignAddr(sb, fs, owner, r, b, r);
    AssignAddr(sb, fs, owner, r, b, q);
    var fs', owner' := Assign(fs, r, b), owner[b := r];
    assert BlockOk(sb, fs, owner, b);
    forall bn | r.Indirect? && NDIRECT <= bn < MAXFILE ensures Addr(fs', Data(r.ino, bn)) == 0 {
      AssignAddr(sb, fs, owner, r, b, Data(r.ino, bn));
    }
    ReleaseAddr(sb, fs', owner', r, q);
    assert owner[b := r] - {b} == owner;
  }

  // ---------- the bytes of a file ----------

  // The n-th block of an inode; an empty slot reads as zeros.
  function BlockOf(fs: Fs, ino: int, bn: int): Block
  {
    var a := Addr(fs, Data(ino, bn));
    if 0 < a < |fs.blocks| then fs.blocks[a] else Zero()
  }

  function FileByte(fs: Fs, ino: int, k: int): int
  {
    ByteAt(BlockOf(fs, ino, k / BSIZE), k % BSIZE)
  }

  // The first n bytes stored for an inode.
  function File(fs: Fs, ino: int, n: nat): (r: seq<int>)
    ensures |r| == n
  {
    seq(n, k requires 0 <= k < n => FileByte(fs, ino, k))
  }

  function Contents(fs: Fs, ino: int): (r: seq<int>)
    ensures |r| == Inode(fs, ino).size
  {
    File(fs, ino, Inode(fs, ino).size)
  }

  // Two states that hold the same blocks for inode ino.
  ghost predicate SameBlocks(fs: Fs, fs': Fs, ino: int)
  {
    forall bn :: BlockOf(fs', ino, bn) == BlockOf(fs, ino, bn)
  }

  lemma SameFile(fs: Fs, fs': Fs, ino: int, n: nat)
    requires SameBlocks(fs, fs', ino)
    ensures File(fs', ino, n) == File(fs, ino, n)
  {
    forall k | 0 <= k < n ensures FileByte(fs', ino, k) == FileByte(fs, ino, k) {
      assert BlockOf(fs', ino, k / BSIZE) == BlockOf(fs, ino, k / BSIZE);
    }
  }

  // Allocation is invisible: no block of any file changes.
  lemma AssignInvisible(sb: Super, fs: Fs, owner: Owner, r: Role, b: int, ino: int)
    requires Assignable(sb, fs, owner, r, b)
    ensures InodeOk(fs, r.ino) && (r.Data? && NDIRECT <= r.bn ==> 0 < Addr(fs, Indirect(r.ino)) < |fs.blocks|)
    ensures SameBlocks(fs, Assign(fs, r, b), ino)
  {
    hide Entry;
    AssignAddr(sb, fs, owner, r, b, r);
    assert BlockOk(sb, fs, owner, b);
    if r.Data? && NDIRECT <= r.bn {
      AddrRange(sb, fs, owner, Indirect(r.ino));
    }
    forall bn ensures BlockOf(Assign(fs, r, b), ino, bn) == BlockOf(fs, ino, bn) {
      AssignAddr(sb, fs, owner, r, b, Data(ino, bn));
      if Addr(fs, Data(ino, bn)) != 0 {
        AddrRange(sb, fs, owner, Data(ino, bn));
      }
    }
  }

  // Overwrite the block in slot Data(ino, bn).
  function WriteBlock(fs: Fs, ino: int, bn: int, blk: Block): Fs
    requires 0 < Addr(fs, Data(ino, bn)) < |fs.blocks|
  {
    fs.(blocks := fs.blocks[Addr(fs, Data(ino, bn)) := blk])
  }

  // A data block is nobody's indirect block, so writing it moves no address ...
  lemma WriteAddr(sb: Super, fs: Fs, owner: Owner, ino: int, bn: int, blk: Block, q: Role)
    requires Owned(sb, fs, owner) && Addr(fs, Data(ino, bn)) != 0
    ensures 0 < Addr(fs, Data(ino, bn)) < |fs.blocks|
    ensures Addr(WriteBlock(fs, ino, bn, blk), q) == Addr(fs, q)
  {
    hide Entry;
    AddrRange(sb, fs, owner, Data(ino, bn));
    if Addr(fs, Indirect(q.ino)) != 0 {
      AddrRange(sb, fs, owner, Indirect(q.ino));
    }
  }

  // ... and changes that block of that file only.
  lemma WriteBlockOf(sb: Super, fs: Fs, owner: Owner, ino: int, bn: int, blk: Block, ino': int, bn': int)
    requires Owned(sb, fs, owner) && Addr(fs, Data(ino, bn)) != 0
    ensures 0 < Addr(fs, Data(ino, bn)) < |fs.blocks|
    ensures BlockOf(WriteBlock(fs, ino, bn, blk), ino', bn') == if ino' == ino && bn' == bn then blk
            else BlockOf(fs, ino', bn')
  {
    hide Entry;
    WriteAddr(sb, fs, owner, ino, bn, blk, Data(ino', bn'));
    AddrRange(sb, fs, owner, Data(ino, bn));
    if Addr(fs, Data(ino', bn')) != 0 {
      AddrRange(sb, fs, owner, Data(ino', bn'));
    }
  }

  lemma WriteKeeps(sb: Super, fs: Fs, owner: Owner, ino: int, bn: int, blk: Block)
    requires Owned(sb, fs, owner) && Addr(fs, Data(ino, bn)) != 0
    ensures 0 < Addr(fs, Data(ino, bn)) < |fs.blocks|
    ensures Owned(sb, WriteBlock(fs, ino, bn, blk), owner)
  {
    hide Entry;
    AddrRange(sb, fs, owner, Data(ino, bn));
    var fs' := WriteBlock(fs, ino, bn, blk);
    forall i ensures InodeOk(fs', i) {
      assert InodeOk(fs, i);
    }
    forall q ensures RoleOk(fs', owner, q) {
      WriteAddr(sb, fs, owner, ino, bn, blk, q);
      assert RoleOk(fs, owner, q);
    }
    forall c ensures BlockOk(sb, fs', owner, c) {
      assert BlockOk(sb, fs, owner, c);
      if c in owner {
        WriteAddr(sb, fs, owner, ino, bn, blk, owner[c]);
      }
    }
  }

  // ---------- growing and writing a file ----------

  ghost predicate KeepsAddr(fs: Fs, fs': Fs, q: Role)
  {
    Addr(fs, q) != 0 ==> Addr(fs', q) == Addr(fs, q)
  }

  ghost predicate SameAddr(fs: Fs, fs': Fs, q: Role)
  {
    Addr(fs', q) == Addr(fs, q)
  }

  ghost predicate SameInode(fs: Fs, fs': Fs, i: int)
  {
    Inode(fs', i) == Inode(fs, i)
  }

  // Every inode but ino has the same metadata, the same slots and the same blocks.
  ghost predicate OthersSame(fs: Fs, fs': Fs, ino: int)
  {
    && (forall i :: i != ino ==> SameInode(fs, fs', i))
    && (forall i :: i != ino ==> SameBlocks(fs, fs', i))
    && (forall q: Role :: q.ino != ino ==> SameAddr(fs, fs', q))
  }

  // fs' is fs after allocations for inode ino: nothing a reader could see has changed.
  ghost predicate Grown(fs: Fs, fs': Fs, ino: int)
  {
    && OthersSame(fs, fs', ino)
    && SameBlocks(fs, fs', ino)
    && (forall q :: KeepsAddr(fs, fs', q))
    && Inode(fs', ino) == Inode(fs, ino).(addrs := Inode(fs', ino).addrs)
  }

  lemma AssignGrows(sb: Super, fs: Fs, owner: Owner, r: Role, b: int)
    requires Assignable(sb, fs, owner, r, b)
    ensures InodeOk(fs, r.ino) && (r.Data? && NDIRECT <= r.bn ==> 0 < Addr(fs, Indirect(r.ino)) < |fs.blocks|)
    ensures Grown(fs, Assign(fs, r, b), r.ino)
  {
    hide Entry;
    AssignAddr(sb, fs, owner, r, b, r);
    var fs' := Assign(fs, r, b);
    forall i ensures SameBlocks(fs, fs', i) {
      AssignInvisible(sb, fs, owner, r, b, i);
    }
    forall q ensures KeepsAddr(fs, fs', q) && (q.ino != r.ino ==> SameAddr(fs, fs', q)) {
      AssignAddr(sb, fs, owner, r, b, q);
    }
  }

  lemma GrownTwice(a: Fs, b: Fs, c: Fs, ino: int)
    requires Grown(a, b, ino) && Grown(b, c, ino)
    ensures Grown(a, c, ino)
  {
    forall i ensures SameBlocks(a, c, i) {
      assert i != ino ==> SameBlocks(a, b, i) && SameBlocks(b, c, i);
      forall bn ensures BlockOf(c, i, bn) == BlockOf(a, i, bn) {
        assert BlockOf(b, i, bn) == BlockOf(a, i, bn);
      }
    }
    forall q ensures KeepsAddr(a, c, q) {
      assert KeepsAddr(a, b, q) && KeepsAddr(b, c, q);
    }
    forall q: Role | q.ino != ino ensures SameAddr(a, c, q) {
      assert SameAddr(a, b, q) && SameAddr(b, c, q);
    }
    forall i | i != ino ensures SameInode(a, c, i) {
      assert SameInode(a, b, i) && SameInode(b, c, i);
    }
  }

  ghost predicate Mapped(fs: Fs, ino: int, bn: int, len: int)
  {
    0 <= bn && bn * BSIZE < len ==> Addr(fs, Data(ino, bn)) != 0
  }

  // No holes among the first len bytes.
  ghost predicate Dense(fs: Fs, ino: int, len: int)
  {
    forall bn :: Mapped(fs, ino, bn, len)
  }

  // c with data written over it at off, growing it if it is too short.
  function Spliced(c: seq<int>, off: nat, data: seq<int>): (r: seq<int>)
    requires off <= |c|
    ensures |r| == if off + |data| < |c| then |c| else off + |data|
  {
    c[..off] + data + if off + |data| < |c| then c[off + |data|..] else []
  }

  lemma SplicedTwice(c: seq<int>, off: nat, a: seq<int>, b: seq<int>)
    requires off <= |c|
    ensures Spliced(Spliced(c, off, a), off + |a|, b) == Spliced(c, off, a + b)
  {
    var x, y := Spliced(Spliced(c, off, a), off + |a|, b), Spliced(c, off, a + b);
    assert |x| == |y|;
    forall i | 0 <= i < |x| ensures x[i] == y[i] {
    }
  }

  // One round of writei: patching block off/BSIZE splices the file at off.
  lemma PatchSplices(sb: Super, fs: Fs, owner: Owner, ino: int, len: nat, off: nat, data: seq<int>)
    requires Owned(sb, fs, owner) && Addr(fs, Data(ino, off / BSIZE)) != 0
    requires off <= len && off % BSIZE + |data| <= BSIZE
    ensures 0 < Addr(fs, Data(ino, off / BSIZE)) < |fs.blocks|
    ensures var fs' := WriteBlock(fs, ino, off / BSIZE, Patch(BlockOf(fs, ino, off / BSIZE), off % BSIZE, data));
            var len' := if off + |data| < len then len else off + |data|;
            File(fs', ino, len') == Spliced(File(fs, ino, len), off, data)
  {
    hide Entry;
    var bn, o := off / BSIZE, off % BSIZE;
    WriteAddr(sb, fs, owner, ino, bn, Zero(), Data(ino, bn));
    var blk := Patch(BlockOf(fs, ino, bn), o, data);
    var fs' := WriteBlock(fs, ino, bn, blk);
    var len' := if off + |data| < len then len else off + |data|;
    var x, y := File(fs', ino, len'), Spliced(File(fs, ino, len), off, data);
    forall k | 0 <= k < len' ensures x[k] == y[k] {
      WriteBlockOf(sb, fs, owner, ino, bn, blk, ino, k / BSIZE);
      PatchAt(BlockOf(fs, ino, bn), o, data, k % BSIZE);
      assert k / BSIZE == bn ==> k - off == k % BSIZE - o;
    }
  }

  // fs' is fs after allocations for inode ino and writes to its blocks.
  ghost predicate Progress(fs: Fs, fs': Fs, ino: int)
  {
    && OthersSame(fs, fs', ino)
    && (forall q :: KeepsAddr(fs, fs', q))
    && Inode(fs', ino) == Inode(fs, ino).(addrs := Inode(fs', ino).addrs)
  }

  lemma ProgressTwice(a: Fs, b: Fs, c: Fs, ino: int)
    requires Progress(a, b, ino) && Progress(b, c, ino)
    ensures Progress(a, c, ino)
  {
    forall i | i != ino ensures SameBlocks(a, c, i) {
      assert SameBlocks(a, b, i) && SameBlocks(b, c, i);
      forall bn ensures BlockOf(c, i, bn) == BlockOf(a, i, bn) {
        assert BlockOf(b, i, bn) == BlockOf(a, i, bn);
      }
    }
    forall q ensures KeepsAddr(a, c, q) {
      assert KeepsAddr(a, b, q) && KeepsAddr(b, c, q);
    }
    forall q: Role | q.ino != ino ensures SameAddr(a, c, q) {
      assert SameAddr(a, b, q) && SameAddr(b, c, q);
    }
    forall i | i != ino ensures SameInode(a, c, i) {
      assert SameInode(a, b, i) && SameInode(b, c, i);
    }
  }

  lemma WriteProgress(sb: Super, fs: Fs, owner: Owner, ino: int, bn: int, blk: Block)
    requires Owned(sb, fs, owner) && Addr(fs, Data(ino, bn)) != 0
    ensures 0 < Addr(fs, Data(ino, bn)) < |fs.blocks|
    ensures Progress(fs, WriteBlock(fs, ino, bn, blk), ino)
  {
    WriteAddr(sb, fs, owner, ino, bn, blk, Data(ino, bn));
    var fs' := WriteBlock(fs, ino, bn, blk);
    forall i | i != ino ensures SameBlocks(fs, fs', i) {
      forall n ensures BlockOf(fs', i, n) == BlockOf(fs, i, n) {
        WriteBlockOf(sb, fs, owner, ino, bn, blk, i, n);
      }
    }
    forall q ensures KeepsAddr(fs, fs', q) && SameAddr(fs, fs', q) {
      WriteAddr(sb, fs, owner, ino, bn, blk, q);
    }
  }

  // Writing at the end of a dense file, or inside it, leaves it dense.
  lemma DenseGrows(fs: Fs, fs': Fs, ino: int, len: nat, off: nat, n: nat)
    requires Progress(fs, fs', ino) && Dense(fs, ino, len) && off <= len
    requires off % BSIZE + n <= BSIZE && Addr(fs', Data(ino, off / BSIZE)) != 0
    ensures Dense(fs', ino, if off + n < len then len else off + n)
  {
    var len' := if off + n < len then len else off + n;
    forall bn ensures Mapped(fs', ino, bn, len') {
      assert Mapped(fs, ino, bn, len);
      assert KeepsAddr(fs, fs', Data(ino, bn));
    }
  }

  // Changing the recorded size moves no block.
  lemma ResizeKeeps(sb: Super, fs: Fs, owner: Owner, ino: int, size: nat)
    requires Owned(sb, fs, owner) && 0 <= ino < |fs.inodes|
    ensures var fs' := fs.(inodes := fs.inodes[ino := fs.inodes[ino].(size := size)]);
            && Owned(sb, fs', owner)
            && (forall q :: Addr(fs', q) == Addr(fs, q))
            && (forall i :: SameBlocks(fs, fs', i))
            && Contents(fs', ino) == File(fs, ino, size)
  {
    hide Entry;
    var fs' := fs.(inodes := fs.inodes[ino := fs.inodes[ino].(size := size)]);
    forall q ensures Addr(fs', q) == Addr(fs, q) {
    }
    forall i ensures InodeOk(fs', i) {
      assert InodeOk(fs, i);
    }
    forall q ensures RoleOk(fs', owner, q) {
      assert RoleOk(fs, owner, q);
    }
    forall c ensures BlockOk(sb, fs', owner, c) {
      assert BlockOk(sb, fs, owner, c);
    }
    forall i ensures SameBlocks(fs, fs', i) {
    }
    SameFile(fs, fs', ino, size);
  }

  // ---------- how many blocks a write takes ----------

  function FreeBlocks(bits: seq<bool>): set<int>
  {
    set b | 0 <= b < |bits| && !bits[b]
  }

  lemma TakeFree(bits: seq<bool>, b: int)
    requires 0 <= b < |bits| && !bits[b]
    ensures |FreeBlocks(bits[b := true])| == |FreeBlocks(bits)| - 1
  {
    assert FreeBlocks(bits[b := true]) == FreeBlocks(bits) - {b};
  }

  // The slots lo .. hi-1 of an inode that are empty.
  function Holes(fs: Fs, ino: int, lo: int, hi: int): nat
    decreases hi - lo
  {
    if hi <= lo then 0 else Holes(fs, ino, lo, hi - 1) + if Addr(fs, Data(ino, hi - 1)) == 0 then 1 else 0
  }

  // The blocks it takes to fill them: one each, and one for the indirect block.
  function NewBlocks(fs: Fs, ino: int, lo: int, hi: int): nat
  {
    Holes(fs, ino, lo, hi) + if lo < hi && NDIRECT < hi && Addr(fs, Indirect(ino)) == 0 then 1 else 0
  }

  // The blocks it takes to write n bytes at off.
  function BlocksFor(fs: Fs, ino: int, off: nat, n: nat): nat
  {
    if n == 0 then 0 else NewBlocks(fs, ino, off / BSIZE, (off + n + BSIZE - 1) / BSIZE)
  }

  ghost predicate FilledAt(fs: Fs, fs': Fs, ino: int, lo: int, hi: int, bn: int)
  {
    if lo <= bn < hi then Addr(fs', Data(ino, bn)) != 0 else Addr(fs', Data(ino, bn)) == Addr(fs, Data(ino, bn))
  }

  // fs' has blocks in the slots lo .. hi-1 of ino, and no others that fs has not.
  ghost predicate Filled(fs: Fs, fs': Fs, ino: int, lo: int, hi: int)
  {
    && (forall bn :: FilledAt(fs, fs', ino, lo, hi, bn))
    && if lo < hi && NDIRECT < hi then Addr(fs', Indirect(ino)) != 0
       else Addr(fs', Indirect(ino)) == Addr(fs, Indirect(ino))
  }

  lemma FilledTwice(a: Fs, b: Fs, c: Fs, ino: int, lo: int, m: int, h: int, hi: int)
    requires Filled(a, b, ino, lo, h) && Filled(b, c, ino, m, hi) && lo <= m <= h <= hi
    ensures Filled(a, c, ino, lo, hi)
  {
    hide Addr;
    forall bn ensures FilledAt(a, c, ino, lo, hi, bn) {
      assert FilledAt(a, b, ino, lo, h, bn) && FilledAt(b, c, ino, m, hi, bn);
    }
  }

  lemma {:induction false} HolesAdd(fs: Fs, fs': Fs, ino: int, lo: int, m: int, h: int, hi: int)
    requires Filled(fs, fs', ino, lo, h) && lo <= m <= h <= hi
    ensures Holes(fs, ino, lo, hi) == Holes(fs, ino, lo, h) + Holes(fs', ino, m, hi)
    decreases hi - m
  {
    hide Addr;
    if m < hi {
      assert FilledAt(fs, fs', ino, lo, h, hi - 1);
      if h < hi {
        HolesAdd(fs, fs', ino, lo, m, h, hi - 1);
      } else {
        forall bn | m <= bn < h ensures Addr(fs', Data(ino, bn)) != 0 {
          assert FilledAt(fs, fs', ino, lo, h, bn);
        }
        NoHoles(fs', ino, m, h);
      }
    }
  }

  lemma {:induction false} NoHoles(fs: Fs, ino: int, m: int, h: int)
    requires forall bn :: m <= bn < h ==> Addr(fs, Data(ino, bn)) != 0
    ensures Holes(fs, ino, m, h) == 0
    decreases h - m
  {
    hide Addr;
    if m < h {
      NoHoles(fs, ino, m, h - 1);
    }
  }

  // A write in two parts takes what the parts take.
  lemma NewAdd(fs: Fs, fs': Fs, ino: int, lo: int, m: int, h: int, hi: int)
    requires Filled(fs, fs', ino, lo, h) && lo <= m <= h <= hi
    ensures NewBlocks(fs, ino, lo, hi) == NewBlocks(fs, ino, lo, h) + NewBlocks(fs', ino, m, hi)
  {
    hide Addr, Holes;
    HolesAdd(fs, fs', ino, lo, m, h, hi);
  }

  lemma {:induction false} NewGrows(fs: Fs, ino: int, lo: int, h: int, hi: int)
    requires h <= hi
    ensures NewBlocks(fs, ino, lo, h) <= NewBlocks(fs, ino, lo, hi)
    decreases hi - h
  {
    hide Addr;
    if h < hi {
      NewGrows(fs, ino, lo, h, hi - 1);
    }
  }

  lemma OneBlock(fs: Fs, ino: int, bn: int)
    requires 0 <= bn < MAXFILE
    ensures NewBlocks(fs, ino, bn, bn + 1) ==
              if Addr(fs, Data(ino, bn)) != 0 then 0 else if bn < NDIRECT || Addr(fs, Indirect(ino)) != 0 then 1 else 2
  {
    hide Entry;
    assert Holes(fs, ino, bn, bn) == 0;
  }

  // Inside a file without holes a write takes none.
  lemma NoneNeeded(fs: Fs, ino: int, len: nat, off: nat)
    requires Dense(fs, ino, len) && off < len
    ensures off / BSIZE < MAXFILE && NewBlocks(fs, ino, off / BSIZE, off / BSIZE + 1) == 0
  {
    assert Mapped(fs, ino, off / BSIZE, len);
    OneBlock(fs, ino, off / BSIZE);
  }

  // fs' has filled the slots lo .. hi-1 of ino with free blocks and taken no others.
  ghost predicate Took(fs: Fs, fs': Fs, owner: Owner, owner': Owner, ino: int, lo: int, hi: int)
  {
    && Filled(fs, fs', ino, lo, hi) && |FreeBlocks(fs'.bits)| == |FreeBlocks(fs.bits)| - NewBlocks(fs, ino, lo, hi)
    && (NewBlocks(fs, ino, lo, hi) == 0 ==> fs'.bits == fs.bits && owner' == owner)
  }

  // The same for a write of n bytes at off.
  ghost predicate TookFor(fs: Fs, fs': Fs, owner: Owner, owner': Owner, ino: int, off: nat, n: nat)
  {
    if n == 0 then fs'.bits == fs.bits && owner' == owner
    else Took(fs, fs', owner, owner', ino, off / BSIZE, (off + n + BSIZE - 1) / BSIZE)
  }

  lemma TookNone(fs: Fs, owner: Owner, ino: int, lo: int)
    ensures Took(fs, fs, owner, owner, ino, lo, lo)
  {
    forall bn ensures FilledAt(fs, fs, ino, lo, lo, bn) {
    }
  }

  // A slot that is not empty takes nothing.
  lemma TookSelf(fs: Fs, owner: Owner, ino: int, bn: int)
    requires 0 <= bn < MAXFILE && Addr(fs, Data(ino, bn)) != 0
    ensures Took(fs, fs, owner, owner, ino, bn, bn + 1)
  {
    hide Entry;
    var hi := bn + 1;
    OneBlock(fs, ino, bn);
    forall n ensures FilledAt(fs, fs, ino, bn, hi, n) {
    }
  }

  lemma TookTwice(a: Fs, b: Fs, c: Fs, o: Owner, p: Owner, q: Owner, ino: int, lo: int, m: int, h: int, hi: int)
    requires Took(a, b, o, p, ino, lo, h) && Took(b, c, p, q, ino, m, hi) && lo <= m <= h <= hi
    ensures Took(a, c, o, q, ino, lo, hi)
  {
    hide Filled, NewBlocks, FreeBlocks;
    FilledTwice(a, b, c, ino, lo, m, h, hi);
    NewAdd(a, b, ino, lo, m, h, hi);
  }

  lemma TookEnough(fs: Fs, fs': Fs, o: Owner, p: Owner, ino: int, lo: int, hi: int)
    requires Took(fs, fs', o, p, ino, lo, hi)
    ensures NewBlocks(fs, ino, lo, hi) <= |FreeBlocks(fs.bits)|
  {
  }

  // Where a part of the rest does not fit, the whole did not.
  lemma TookShort(fs: Fs, fs': Fs, o: Owner, p: Owner, ino: int, lo: int, m: int, h: int, k: int, hi: int)
    requires Took(fs, fs', o, p, ino, lo, h) && lo <= m <= h <= k <= hi
    requires |FreeBlocks(fs'.bits)| < NewBlocks(fs', ino, m, k)
    ensures |FreeBlocks(fs.bits)| < NewBlocks(fs, ino, lo, hi)
  {
    hide Filled, NewBlocks, FreeBlocks;
    NewAdd(fs, fs', ino, lo, m, h, k);
    NewGrows(fs, ino, lo, k, hi);
  }

  // ---------- truncation ----------

  lemma ReleaseOthers(sb: Super, fs: Fs, owner: Owner, r: Role)
    requires Releasable(sb, fs, owner, r)
    ensures 0 < Addr(fs, r) < |fs.bits| == |fs.blocks| && 0 <= r.ino < |fs.inodes|
    ensures |fs.inodes[r.ino].addrs| == NDIRECT + 1
    ensures OthersSame(fs, Release(fs, r), r.ino)
  {
    hide Entry;
    ReleasePre(sb, fs, owner, r);
    var fs' := Release(fs, r);
    forall q: Role | q.ino != r.ino ensures SameAddr(fs, fs', q) {
      ReleaseAddr(sb, fs, owner, r, q);
    }
    forall i | i != r.ino ensures SameBlocks(fs, fs', i) {
      forall bn ensures BlockOf(fs', i, bn) == BlockOf(fs, i, bn) {
        ReleaseAddr(sb, fs, owner, r, Data(i, bn));
        if Addr(fs, Data(i, bn)) != 0 {
          AddrRange(sb, fs, owner, Data(i, bn));
          if r.Data? && NDIRECT <= r.bn {
            AddrRange(sb, fs, owner, Indirect(r.ino));
          }
        }
      }
    }
  }

  lemma OthersTwice(a: Fs, b: Fs, c: Fs, ino: int)
    requires OthersSame(a, b, ino) && OthersSame(b, c, ino)
    ensures OthersSame(a, c, ino)
  {
    forall i | i != ino ensures SameBlocks(a, c, i) {
      assert SameBlocks(a, b, i) && SameBlocks(b, c, i);
      forall bn ensures BlockOf(c, i, bn) == BlockOf(a, i, bn) {
        assert BlockOf(b, i, bn) == BlockOf(a, i, bn);
      }
    }
    forall q: Role | q.ino != ino ensures SameAddr(a, c, q) {
      assert SameAddr(a, b, q) && SameAddr(b, c, q);
    }
    forall i | i != ino ensures SameInode(a, c, i) {
      assert SameInode(a, b, i) && SameInode(b, c, i);
    }
  }

  // What a block in no slot holds does not matter.
  lemma FreeContents(sb: Super, fs: Fs, owner: Owner, b: int, blk: Block)
    requires Owned(sb, fs, owner) && 0 <= b < |fs.blocks| && b !in owner
    ensures var fs' := fs.(blocks := fs.blocks[b := blk]);
            && Owned(sb, fs', owner)
            && (forall q :: Addr(fs', q) == Addr(fs, q))
            && (forall i :: SameBlocks(fs, fs', i))
  {
    hide Entry;
    var fs' := fs.(blocks := fs.blocks[b := blk]);
    forall q ensures Addr(fs', q) == Addr(fs, q) {
      assert RoleOk(fs, owner, Indirect(q.ino));
    }
    forall i ensures SameBlocks(fs, fs', i) {
      forall bn ensures BlockOf(fs', i, bn) == BlockOf(fs, i, bn) {
        assert RoleOk(fs, owner, Data(i, bn));
        assert Addr(fs', Data(i, bn)) == Addr(fs, Data(i, bn));
      }
    }
    forall i ensures InodeOk(fs', i) {
      assert InodeOk(fs, i);
    }
    forall q ensures RoleOk(fs', owner, q) {
      assert RoleOk(fs, owner, q);
      assert Addr(fs', q) == Addr(fs, q);
    }
    forall c ensures BlockOk(sb, fs', owner, c) {
      assert BlockOk(sb, fs, owner, c);
      assert c in owner ==> Addr(fs', owner[c]) == Addr(fs, owner[c]);
    }
  }

  // Inode ino has no block at all.
  ghost predicate Empty(fs: Fs, ino: int)
  {
    Addr(fs, Indirect(ino)) == 0 && forall bn :: Addr(fs, Data(ino, bn)) == 0
  }

  // An emptied inode has given back exactly the blocks it owned.
  lemma EmptiedOwner(sb: Super, fs: Fs, owner: Owner, fs': Fs, owner': Owner, ino: int, b: int)
    requires Owned(sb, fs, owner) && Owned(sb, fs', owner') && OthersSame(fs, fs', ino) && Empty(fs', ino)
    requires forall c :: c in owner' ==> c in owner && owner'[c] == owner[c]
    ensures b in owner' <==> b in owner && owner[b].ino != ino
    ensures 0 <= b < sb.size ==> (fs'.bits[b] <==> fs.bits[b] && !(b in owner && owner[b].ino == ino))
  {
    assert BlockOk(sb, fs, owner, b) && BlockOk(sb, fs', owner', b);
    if b in owner {
      var r := owner[b];
      assert r.ino != ino ==> SameAddr(fs, fs', r);
      assert RoleOk(fs', owner', r);
      assert r.ino == ino ==> Addr(fs', r) == 0;
    }
  }

  // ---------- the whole file system ----------

  ghost predicate InodeSound(fs: Fs, i: int)
  {
    && Dense(fs, i, Inode(fs, i).size)
    && (Inode(fs, i).kind == 0 ==> Empty(fs, i))
  }

  // Ownership, no holes in any file, and nothing left in a free inode.
  ghost predicate Sound(sb: Super, fs: Fs, owner: Owner)
  {
    Owned(sb, fs, owner) && forall i :: InodeSound(fs, i)
  }

  lemma OthersSound(sb: Super, fs: Fs, owner: Owner, fs': Fs, owner': Owner, ino: int)
    requires Sound(sb, fs, owner) && Owned(sb, fs', owner') && OthersSame(fs, fs', ino) && InodeSound(fs', ino)
    ensures Sound(sb, fs', owner')
  {
    forall i ensures InodeSound(fs', i) {
      if i != ino {
        assert InodeSound(fs, i) && SameInode(fs, fs', i);
        var len := Inode(fs, i).size;
        forall bn ensures Mapped(fs', i, bn, len) {
          assert Mapped(fs, i, bn, len) && SameAddr(fs, fs', Data(i, bn));
        }
        if Inode(fs, i).kind == 0 {
          StaysEmpty(sb, fs, fs', owner', i);
        }
      }
    }
  }

  // An inode whose pointers are unchanged and empty is still empty.
  lemma StaysEmpty(sb: Super, fs: Fs, fs': Fs, owner': Owner, i: int)
    requires Owned(sb, fs', owner') && SameInode(fs, fs', i) && Empty(fs, i)
    ensures Empty(fs', i)
  {
    hide Entry;
    forall bn ensures Addr(fs', Data(i, bn)) == 0 {
      assert Addr(fs, Data(i, bn)) == 0 && Addr(fs, Indirect(i)) == 0;
    }
  }

  // Replacing an empty inode by another empty one moves no block.
  lemma RecycleKeeps(sb: Super, fs: Fs, owner: Owner, ino: int, d: Dinode)
    requires Sound(sb, fs, owner) && 0 <= ino < |fs.inodes| && Empty(fs, ino)
    requires |d.addrs| == NDIRECT + 1 && d.size == 0 && forall i :: 0 <= i <= NDIRECT ==> d.addrs[i] == 0
    ensures var fs' := fs.(inodes := fs.inodes[ino := d]);
            Sound(sb, fs', owner) && OthersSame(fs, fs', ino) && Contents(fs', ino) == []
  {
    hide Entry;
    var fs' := fs.(inodes := fs.inodes[ino := d]);
    forall q ensures Addr(fs', q) == Addr(fs, q) {
      assert q.Data? ==> Addr(fs, Data(ino, q.bn)) == 0;
    }
    forall i ensures InodeOk(fs', i) {
      assert InodeOk(fs, i);
    }
    forall q ensures RoleOk(fs', owner, q) {
      assert RoleOk(fs, owner, q) && Addr(fs', q) == Addr(fs, q);
    }
    forall c ensures BlockOk(sb, fs', owner, c) {
      assert BlockOk(sb, fs, owner, c);
      assert c in owner ==> Addr(fs', owner[c]) == Addr(fs, owner[c]);
    }
    forall i ensures SameBlocks(fs, fs', i) {
      forall bn ensures BlockOf(fs', i, bn) == BlockOf(fs, i, bn) {
        assert Addr(fs', Data(i, bn)) == Addr(fs, Data(i, bn));
      }
    }
    forall q ensures SameAddr(fs, fs', q) {
      assert Addr(fs', q) == Addr(fs, q);
    }
    assert Empty(fs', ino) by {
      forall bn ensures Addr(fs', Data(ino, bn)) == 0 {
        assert Addr(fs', Data(ino, bn)) == Addr(fs, Data(ino, bn));
      }
    }
    assert Dense(fs', ino, 0);
    OthersSound(sb, fs, owner, fs', owner, ino);
  }
}
