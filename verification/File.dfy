/** filewrite (file.c): a long write cut into transactions that fit the log. */
module File {
  import opened Finite
  import opened FsSpec
  import opened FsLog
  import opened FileSystem

  // The bytes filewrite puts into one transaction.
  const CHUNK: int := (LOGSIZE - 1 - 1 - 2) / 2 * 512

  function Bitmaps(sb: Super): nat
  {
    (sb.size + BPB - 1) / BPB
  }

  // The sectors of the bitmap.
  function BitmapSectors(sb: Super, n: nat): (r: set<int>)
    ensures |r| <= n && forall b :: 0 <= b < n * BPB ==> Bblock(sb, b) in r
  {
    if n == 0 then {} else BitmapSectors(sb, n - 1) + {Bblock(sb, (n - 1) * BPB)}
  }

  // The sectors a write to blocks lo .. hi-1 may log.
  lemma FewSectors(logged: set<int>, sb: Super, fs: Fs, ino: int, lo: int, hi: int)
    requires LogsOnly({}, logged, sb, fs, ino, lo, hi) && hi <= lo + 4
    ensures |logged| <= 6 + Bitmaps(sb)
  {
    hide Addr, Bblock;
    var a := [Iblock(ino), Addr(fs, Indirect(ino))];
    var d := [Addr(fs, Data(ino, lo)), Addr(fs, Data(ino, lo + 1)), Addr(fs, Data(ino, lo + 2)),
              Addr(fs, Data(ino, lo + 3))];
    var most := {a[0], a[1], d[0], d[1], d[2], d[3]};
    forall s | s in logged ensures s in most + BitmapSectors(sb, Bitmaps(sb)) {
      assert Touch(sb, fs, ino, lo, hi, s);
      if bn :| lo <= bn < hi && IsData(fs, ino, bn, s) {
        assert s == d[bn - lo];
      }
    }
    SubsetSize(logged, most + BitmapSectors(sb, Bitmaps(sb)));
  }

  // With a log as mkfs leaves it and up to two bitmap sectors there is room for eight sectors.
  predicate FitsLog(sb: Super)
  {
    Bitmaps(sb) <= 2 && sb.nlog >= LOGSIZE
  }

  // They lie before the log.
  lemma SectorsAtHome(logged: set<int>, sb: Super, fs: Fs, owner: Owner, ino: int, lo: int, hi: int, s: int)
    requires Owned(sb, fs, owner) && LogsOnly({}, logged, sb, fs, ino, lo, hi) && s in logged
    requires 0 <= ino < sb.ninodes && DataStart(sb) <= sb.size - sb.nlog
    ensures 0 <= s < sb.size - sb.nlog
  {
    hide Addr, Owned;
    assert Touch(sb, fs, ino, lo, hi, s);
    if s != 0 && s == Addr(fs, Indirect(ino)) {
      AddrRange(sb, fs, owner, Indirect(ino));
    }
    if bn :| lo <= bn < hi && IsData(fs, ino, bn, s) {
      AddrRange(sb, fs, owner, Data(ino, bn));
    }
  }

  class OpenFile {
    const ip: Inode
    const writable: bool
    var off: nat

    constructor (ip: Inode, writable: bool)
      ensures this.ip == ip && this.writable == writable && off == 0
    {
      this.ip, this.writable, off := ip, writable, 0;
    }
  }

  // One chunk in one transaction: begin_trans, writei, advance the offset, commit_trans.
  method WriteChunk(vol: Volume, f: OpenFile, data: seq<int>) returns (r: Count)
    requires vol.Valid(f.ip) && Sound(vol.sb, vol.View(f.ip), vol.owner)
    requires f.ip.din.kind != 0
    requires f.off < UINT && |data| <= CHUNK && DataStart(vol.sb) <= vol.sb.size - vol.sb.nlog
    modifies vol, f.ip`din, f`off
    ensures r.Fail? || r.Device? ==>
              vol.View(f.ip) == old(vol.View(f.ip)) && vol.owner == old(vol.owner) && f.off == old(f.off)
    ensures r.Fail? || r.Device? ==> f.ip.din == old(f.ip.din) && vol.dinodes == old(vol.dinodes)
    ensures r.Device? <==> old(f.ip.din.kind) == T_DEV
    ensures r.Fail? <==>
              old(f.ip.din.kind) != T_DEV && (old(f.off) > old(f.ip.din.size) || old(f.off) + |data| > MAXFILE * BSIZE)
    ensures !r.Bytes? ==> f.off == old(f.off)
    ensures r.Panic? ==> AllSet(vol.bits) || vol.tooBig
    ensures r.Panic? && FitsLog(vol.sb) ==> AllSet(vol.bits)
    ensures var need := BlocksFor(old(vol.View(f.ip)), f.ip.inum, old(f.off), |data|);
            && (!r.Device? && !r.Fail? && need > |FreeBlocks(old(vol.bits))| ==> r.Panic?)
            && (r.Panic? && FitsLog(vol.sb) ==> need > |FreeBlocks(old(vol.bits))|)
    ensures r.Bytes? ==>
              TookFor(old(vol.View(f.ip)), vol.View(f.ip), old(vol.owner), vol.owner, f.ip.inum, old(f.off), |data|)
    ensures !r.Panic? ==> !vol.tooBig
    ensures r.Bytes? ==>
              && r.n == |data| && f.off == old(f.off) + |data| <= f.ip.din.size
              && vol.Valid(f.ip) && Sound(vol.sb, vol.View(f.ip), vol.owner)
              && OthersSame(old(vol.View(f.ip)), vol.View(f.ip), f.ip.inum)
              && old(f.off) <= |old(Contents(vol.View(f.ip), f.ip.inum))|
              && Contents(vol.View(f.ip), f.ip.inum) == Spliced(old(Contents(vol.View(f.ip), f.ip.inum)), old(f.off),
                                                                data)
              && f.ip.din.kind == old(f.ip.din.kind)
    ensures r.Bytes? && old(vol.dinodes[f.ip.inum] == f.ip.din) ==>
              vol.dinodes == old(vol.dinodes)[f.ip.inum := f.ip.din]
    ensures !r.Panic? ==> |vol.logged| <= 6 + Bitmaps(vol.sb) && !vol.busy
    ensures Covered(vol.sb, old(vol.Disk()), vol.log, vol.logged, vol.Disk())
    ensures !r.Panic? ==> forall s :: s in vol.logged ==> 0 <= s < vol.sb.size - vol.sb.nlog
  {
    hide Owned;
    hide OthersSame;
    hide LogsOnly;
    hide Contents;
    hide Spliced;
    hide Dense;
    hide Covered;
    hide BlocksFor, FreeBlocks, TookFor;
    NoBytes(vol.View(f.ip), f.ip.inum, f.off);
    vol.Begin();
    InodeIsSound(vol.sb, vol.View(f.ip), vol.owner, f.ip.inum);
    ghost var fs0, own0 := vol.View(f.ip), vol.owner;
    r := vol.Writei(f.ip, data, f.off);
    if r.Bytes? {
      ghost var lo := f.off / BSIZE;
      FewSectors(vol.logged, vol.sb, vol.View(f.ip), f.ip.inum, lo, (f.off + |data| + BSIZE - 1) / BSIZE);
      if vol.tooBig {
        return Panic;
      }
      SoundAfter(vol.sb, fs0, own0, vol.View(f.ip), vol.owner, f.ip.inum);
      InodeShape(vol.sb, vol.View(f.ip), vol.owner, f.ip.inum);
      forall s | s in vol.logged ensures 0 <= s < vol.sb.size - vol.sb.nlog {
        SectorsAtHome(vol.logged, vol.sb, vol.View(f.ip), vol.owner, f.ip.inum, lo,
                      (f.off + |data| + BSIZE - 1) / BSIZE, s);
      }
      f.off := f.off + r.n;
    }
    if !r.Panic? {
      vol.End();
    }
  }

  lemma NoBytes(fs: Fs, ino: int, off: nat)
    ensures BlocksFor(fs, ino, off, 0) == 0
  {
  }

  lemma InodeIsSound(sb: Super, fs: Fs, owner: Owner, ino: int)
    requires Sound(sb, fs, owner)
    ensures Owned(sb, fs, owner) && Dense(fs, ino, FsSpec.Inode(fs, ino).size)
  {
    assert InodeSound(fs, ino);
  }

  lemma SoundAfter(sb: Super, fs: Fs, owner: Owner, fs': Fs, owner': Owner, ino: int)
    requires Sound(sb, fs, owner) && Owned(sb, fs', owner') && OthersSame(fs, fs', ino)
    requires Dense(fs', ino, FsSpec.Inode(fs', ino).size) && FsSpec.Inode(fs', ino).kind != 0
    ensures Sound(sb, fs', owner')
  {
    OthersSound(sb, fs, owner, fs', owner', ino);
  }

  // A transaction that has been committed, and the file system after it.
  datatype Txn = Txn(log: seq<Write>, logged: set<int>, now: Fs, owner: Owner)

  // The file system after n transactions.
  function After(base: Fs, txns: seq<Txn>, n: int): Fs
  {
    if 0 < n <= |txns| then txns[n - 1].now else base
  }

  // How much of a long write is done after n chunks.
  function Done(n: nat, len: nat): (r: nat)
    ensures r <= len
  {
    if n * CHUNK < len then n * CHUNK else len
  }

  // Transaction number i writes a whole chunk: it logs every change it makes, in few sectors outside
  // the log, and leaves a sound file system with the file's contents spliced so far.
  ghost predicate ChunkAt(sb: Super, base: Fs, txns: seq<Txn>, ino: int, off: nat, addr: seq<int>, i: int)
  {
    0 <= i < |txns| ==>
      && Covered(sb, After(base, txns, i), txns[i].log, txns[i].logged, txns[i].now)
      && |txns[i].logged| <= 6 + Bitmaps(sb) && (forall s :: s in txns[i].logged ==> 0 <= s < sb.size - sb.nlog)
      && Written(sb, base, txns[i].now, txns[i].owner, ino, off, addr[..Done(i + 1, |addr|)])
  }

  ghost predicate Written(sb: Super, base: Fs, fs: Fs, owner: Owner, ino: int, off: nat, data: seq<int>)
  {
    && Sound(sb, fs, owner) && OthersSame(base, fs, ino)
    && off <= |Contents(base, ino)| && Contents(fs, ino) == Spliced(Contents(base, ino), off, data)
    && FsSpec.Inode(fs, ino).kind == FsSpec.Inode(base, ino).kind
  }

  ghost predicate Chunks(sb: Super, base: Fs, txns: seq<Txn>, ino: int, off: nat, addr: seq<int>)
  {
    forall i :: ChunkAt(sb, base, txns, ino, off, addr, i)
  }

  lemma OneMoreChunk(sb: Super, base: Fs, txns: seq<Txn>, ino: int, off: nat, addr: seq<int>, t: Txn)
    requires Chunks(sb, base, txns, ino, off, addr) && ChunkAt(sb, base, txns + [t], ino, off, addr, |txns|)
    ensures Chunks(sb, base, txns + [t], ino, off, addr)
  {
    forall i ensures ChunkAt(sb, base, txns + [t], ino, off, addr, i) {
      assert ChunkAt(sb, base, txns, ino, off, addr, i);
    }
  }

  // How much of a write of len bytes at off is in chunks that do not pass the largest file.
  function InRange(off: nat, len: nat): nat
  {
    if off + len <= MAXFILE * BSIZE then len
    else if off > MAXFILE * BSIZE then 0
    else (MAXFILE * BSIZE - off) / CHUNK * CHUNK
  }

  lemma InRangeStops(off: nat, len: nat, k: nat, n: nat)
    requires k * CHUNK < len && n == if len - k * CHUNK > CHUNK then CHUNK else len - k * CHUNK
    requires k == 0 || off + k * CHUNK <= MAXFILE * BSIZE
    ensures if off + k * CHUNK + n > MAXFILE * BSIZE then InRange(off, len) == k * CHUNK < len
            else k * CHUNK + n <= InRange(off, len) <= len
  {
    if off <= MAXFILE * BSIZE < off + len {
      LastChunk(MAXFILE * BSIZE - off, len, k, n);
    }
  }

  lemma LastChunk(x: nat, len: nat, k: nat, n: nat)
    requires k * CHUNK < len && n == (if len - k * CHUNK > CHUNK then CHUNK else len - k * CHUNK) && x < len
    requires k * CHUNK <= x
    ensures if k * CHUNK + n > x then x / CHUNK == k else k * CHUNK + n <= x / CHUNK * CHUNK
    ensures x / CHUNK * CHUNK <= x
  {
    var a, b := k * CHUNK, (k + 1) * CHUNK;
    assert b == a + CHUNK;
    WholeChunks(x, k);
    WholeChunks(x, k + 1);
    if a + n > x {
      assert x < b;
    } else {
      assert n == CHUNK && k + 1 <= x / CHUNK;
      Times(k + 1, x / CHUNK);
    }
  }

  lemma Times(a: nat, b: nat)
    requires a <= b
    ensures a * CHUNK <= b * CHUNK
  {
  }

  // A multiple of CHUNK up to x is one up to the last one.
  lemma WholeChunks(x: nat, k: nat)
    ensures x / CHUNK * CHUNK <= x < x / CHUNK * CHUNK + CHUNK
    ensures k * CHUNK <= x <==> k <= x / CHUNK
  {
  }

  // The blocks of two writes, one after the other.
  lemma TookOn(fs0: Fs, fs1: Fs, fs2: Fs, o: Owner, p: Owner, q: Owner, ino: int, off: nat, i: nat, n: nat)
    requires TookFor(fs0, fs1, o, p, ino, off, i) && TookFor(fs1, fs2, p, q, ino, off + i, n)
    requires 0 < n && (i == 0 ==> fs1 == fs0)
    ensures TookFor(fs0, fs2, o, q, ino, off, i + n)
  {
    hide Took;
    if i > 0 {
      TookTwice(fs0, fs1, fs2, o, p, q, ino, off / BSIZE, (off + i) / BSIZE, (off + i + BSIZE - 1) / BSIZE,
                (off + i + n + BSIZE - 1) / BSIZE);
    }
  }

  lemma ShortOn(fs0: Fs, fs1: Fs, o: Owner, p: Owner, ino: int, off: nat, i: nat, n: nat, len: nat)
    requires TookFor(fs0, fs1, o, p, ino, off, i) && (i == 0 ==> fs1 == fs0) && 0 < n && i + n <= len
    requires BlocksFor(fs1, ino, off + i, n) > |FreeBlocks(fs1.bits)|
    ensures BlocksFor(fs0, ino, off, len) > |FreeBlocks(fs0.bits)|
  {
    hide Took, NewBlocks, FreeBlocks;
    var lo, k, hi := off / BSIZE, (off + i + n + BSIZE - 1) / BSIZE, (off + len + BSIZE - 1) / BSIZE;
    if i > 0 {
      TookShort(fs0, fs1, o, p, ino, lo, (off + i) / BSIZE, (off + i + BSIZE - 1) / BSIZE, k, hi);
    } else {
      NewGrows(fs0, ino, lo, k, hi);
    }
  }

  lemma EnoughFor(fs: Fs, fs': Fs, o: Owner, p: Owner, ino: int, off: nat, n: nat)
    requires TookFor(fs, fs', o, p, ino, off, n)
    ensures BlocksFor(fs, ino, off, n) <= |FreeBlocks(fs.bits)|
  {
  }

  // How a write of len bytes at off ends: on a device, with a start beyond the end of the file, or with
  // as many whole chunks as the largest file takes, if there are blocks for them.
  predicate WriteEnds(sb: Super, fs: Fs, ino: int, off: nat, len: nat, r: Count)
  {
    var d, n := FsSpec.Inode(fs, ino), InRange(off, len);
    if len == 0 then r == Bytes(0)
    else if d.kind == T_DEV then r.Device?
    else if off > d.size then r.Fail?
    else
      FitsLog(sb) ==>
        if BlocksFor(fs, ino, off, n) > |FreeBlocks(fs.bits)| then r.Panic?
        else if n == len then r == Bytes(len) else r.Fail?
  }

  // filewrite's loop, with the first i bytes written.
  ghost predicate Midway(vol: Volume, f: OpenFile, addr: seq<int>, i: nat, txns: seq<Txn>, fs0: Fs, own0: Owner,
                         off0: nat)
    reads vol, f, f.ip
  {
    && i == Done(|txns|, |addr|) && f.off == off0 + i < UINT && (i < |addr| ==> i == |txns| * CHUNK)
    && vol.Valid(f.ip) && Sound(vol.sb, vol.View(f.ip), vol.owner) && vol.dinodes[f.ip.inum] == f.ip.din
    && f.ip.din.kind == FsSpec.Inode(fs0, f.ip.inum).kind != 0
    && vol.View(f.ip) == After(fs0, txns, |txns|) && Chunks(vol.sb, fs0, txns, f.ip.inum, off0, addr)
    && vol.owner == (if txns == [] then own0 else txns[|txns| - 1].owner)
    && (i == 0 ==> vol.View(f.ip) == fs0)
    && (i > 0 ==>
          && f.ip.din.kind != T_DEV && off0 <= FsSpec.Inode(fs0, f.ip.inum).size && f.off <= f.ip.din.size
          && off0 + i <= MAXFILE * BSIZE && i <= InRange(off0, |addr|))
    && TookFor(fs0, vol.View(f.ip), own0, vol.owner, f.ip.inum, off0, i)
  }

  lemma MidwayStart(vol: Volume, f: OpenFile, addr: seq<int>)
    requires vol.Valid(f.ip) && Sound(vol.sb, vol.View(f.ip), vol.owner)
    requires f.ip.din.kind != 0 && vol.dinodes[f.ip.inum] == f.ip.din && f.off < UINT
    ensures Midway(vol, f, addr, 0, [], vol.View(f.ip), vol.owner, f.off)
  {
    hide Sound, Owned;
    NoChunks(vol.sb, vol.View(f.ip), f.ip.inum, f.off, addr);
  }

  lemma MidwayParts(vol: Volume, f: OpenFile, addr: seq<int>, i: nat, txns: seq<Txn>, fs0: Fs, own0: Owner, off0: nat)
    requires Midway(vol, f, addr, i, txns, fs0, own0, off0)
    ensures i == Done(|txns|, |addr|) && f.off == off0 + i && (i < |addr| ==> i == |txns| * CHUNK)
    ensures vol.Valid(f.ip) && Sound(vol.sb, vol.View(f.ip), vol.owner) && vol.dinodes[f.ip.inum] == f.ip.din
    ensures vol.View(f.ip) == After(fs0, txns, |txns|) && Chunks(vol.sb, fs0, txns, f.ip.inum, off0, addr)
    ensures vol.owner == if txns == [] then own0 else txns[|txns| - 1].owner
  {
    hide Sound, Owned, Chunks, TookFor, After, InRange;
  }

  lemma MidwayEnd(vol: Volume, f: OpenFile, addr: seq<int>, i: nat, txns: seq<Txn>, fs0: Fs, own0: Owner, off0: nat)
    requires Midway(vol, f, addr, i, txns, fs0, own0, off0) && i == |addr|
    ensures WriteEnds(vol.sb, fs0, f.ip.inum, off0, |addr|, Bytes(|addr|))
  {
    hide Sound, Owned, Chunks, TookFor, After, InRange, BlocksFor, FreeBlocks;
    EnoughFor(fs0, vol.View(f.ip), own0, vol.owner, f.ip.inum, off0, i);
    InRangeBound(off0, |addr|);
  }

  lemma InRangeBound(off: nat, len: nat)
    ensures InRange(off, len) <= len
  {
  }

  // A chunk that is not written ends it.
  lemma ChunkEnds(sb: Super, fs0: Fs, own0: Owner, fs1: Fs, own1: Owner, ino: int, off0: nat, len: nat, k: nat, n: nat,
                  r: Count)
    requires var i := k * CHUNK; var d, d1 := FsSpec.Inode(fs0, ino), FsSpec.Inode(fs1, ino); var o := off0 + i;
             && i < len && n == (if len - i > CHUNK then CHUNK else len - i) && !r.Bytes?
             && TookFor(fs0, fs1, own0, own1, ino, off0, i) && (i == 0 ==> fs1 == fs0) && d1.kind == d.kind
             && (i > 0 ==> d.kind != T_DEV && off0 <= d.size && o <= d1.size && o <= MAXFILE * BSIZE)
             && (r.Device? <==> d.kind == T_DEV)
             && (r.Fail? <==> d.kind != T_DEV && (o > d1.size || o + n > MAXFILE * BSIZE))
             && (r.Panic? && FitsLog(sb) ==> BlocksFor(fs1, ino, o, n) > |FreeBlocks(fs1.bits)|)
    ensures WriteEnds(sb, fs0, ino, off0, len, r)
    ensures r.Fail? && off0 <= FsSpec.Inode(fs0, ino).size ==> off0 + k * CHUNK == off0 + InRange(off0, len)
  {
    hide TookFor, InRange, BlocksFor, FreeBlocks;
    InRangeStops(off0, len, k, n);
    if r.Panic? && FitsLog(sb) {
      ShortOn(fs0, fs1, own0, own1, ino, off0, k * CHUNK, n, InRange(off0, len));
    } else {
      EnoughFor(fs0, fs1, own0, own1, ino, off0, k * CHUNK);
      NoBytes(fs0, ino, off0);
    }
  }

  // One round of the loop.
  method NextChunk(vol: Volume, f: OpenFile, addr: seq<int>, i: nat, ghost txns: seq<Txn>, ghost fs0: Fs,
                   ghost own0: Owner, ghost off0: nat)
    returns (r: Count, ghost txns': seq<Txn>)
    requires Midway(vol, f, addr, i, txns, fs0, own0, off0) && i < |addr|
    requires DataStart(vol.sb) <= vol.sb.size - vol.sb.nlog
    modifies vol, f.ip`din, f`off
    ensures r.Bytes? ==>
              Midway(vol, f, addr, i + (if |addr| - i > CHUNK then CHUNK else |addr| - i), txns', fs0, own0, off0)
    ensures !r.Bytes? ==>
              && txns' == txns && f.off == old(f.off)
              && (r.Device? || r.Fail? ==>
                    vol.View(f.ip) == old(vol.View(f.ip)) && vol.owner == old(vol.owner)
                    && f.ip.din == old(f.ip.din) && vol.dinodes == old(vol.dinodes))
              && WriteEnds(vol.sb, fs0, f.ip.inum, off0, |addr|, r)
              && (r.Fail? && off0 <= FsSpec.Inode(fs0, f.ip.inum).size ==> f.off == off0 + InRange(off0, |addr|))
    ensures r.Panic? ==> AllSet(vol.bits) || vol.tooBig
    ensures r.Panic? && FitsLog(vol.sb) ==> AllSet(vol.bits)
    ensures r.Device? ==> f.ip.din.kind == T_DEV
    ensures r.Fail? ==> f.off > f.ip.din.size || f.off + CHUNK > MAXFILE * BSIZE
  {
    hide Sound, OthersSame, Contents, Spliced, Covered, Chunks, Owned, BlocksFor, FreeBlocks, TookFor, InRange, After,
         FitsLog, AllSet, Bitmaps, WriteEnds, DataStart;
    txns' := txns;
    var n1 := if |addr| - i > CHUNK then CHUNK else |addr| - i;
    assert vol.View(f.ip) == vol.Disk();
    ghost var fs1, own1 := vol.View(f.ip), vol.owner;
    r := WriteChunk(vol, f, addr[i..i + n1]);
    if !r.Bytes? {
      ChunkEnds(vol.sb, fs0, own0, fs1, own1, f.ip.inum, off0, |addr|, |txns|, n1, r);
      return;
    }
    InRangeStops(off0, |addr|, |txns|, n1);
    TookOn(fs0, fs1, vol.View(f.ip), own0, own1, vol.owner, f.ip.inum, off0, i, n1);
    assert vol.View(f.ip) == vol.Disk();
    ghost var t := Txn(vol.log, vol.logged, vol.View(f.ip), vol.owner);
    ChunkDone(vol.sb, fs0, txns, t, f.ip.inum, off0, addr, i, n1);
    txns' := txns + [t];
    NextAfter(fs0, txns', t);
  }

  // Write addr at the file's offset, a chunk per transaction.
  method Filewrite(vol: Volume, f: OpenFile, addr: seq<int>) returns (r: Count, ghost txns: seq<Txn>)
    requires vol.Valid(f.ip) && Sound(vol.sb, vol.View(f.ip), vol.owner)
    requires f.ip.din.kind != 0 && vol.dinodes[f.ip.inum] == f.ip.din
    requires f.off < UINT && |addr| < UINT && DataStart(vol.sb) <= vol.sb.size - vol.sb.nlog
    modifies vol, f.ip`din, f`off
    ensures !f.writable ==> r.Fail? && f.off == old(f.off) && vol.View(f.ip) == old(vol.View(f.ip))
    ensures Chunks(vol.sb, old(vol.View(f.ip)), txns, f.ip.inum, old(f.off), addr)
    ensures f.off == old(f.off) + Done(|txns|, |addr|)
    ensures !r.Panic? ==>
              && vol.Valid(f.ip) && Sound(vol.sb, vol.View(f.ip), vol.owner) && vol.dinodes[f.ip.inum] == f.ip.din
              && vol.View(f.ip) == After(old(vol.View(f.ip)), txns, |txns|)
    ensures !r.Panic? && txns != [] ==> vol.owner == txns[|txns| - 1].owner
    ensures txns == [] && !r.Panic? ==> vol.owner == old(vol.owner)
    ensures r.Panic? ==> AllSet(vol.bits) || vol.tooBig
    ensures r.Panic? && FitsLog(vol.sb) ==> AllSet(vol.bits)
    ensures r.Device? ==> f.ip.din.kind == T_DEV
    ensures r.Bytes? ==> r.n == |addr| && f.off == old(f.off) + |addr|
    ensures r.Fail? && f.writable ==> f.off > f.ip.din.size || f.off + CHUNK > MAXFILE * BSIZE
    ensures f.writable ==> WriteEnds(vol.sb, old(vol.View(f.ip)), f.ip.inum, old(f.off), |addr|, r)
    ensures f.writable && r.Fail? && old(f.off) <= old(f.ip.din.size) ==>
              f.off == old(f.off) + InRange(old(f.off), |addr|)
  {
    hide Sound, Covered, Chunks, Owned, After, WriteEnds, Midway, InRange, AllSet;
    txns := [];
    ghost var fs0, off0, own0 := vol.View(f.ip), f.off, vol.owner;
    if !f.writable {
      NoChunks(vol.sb, fs0, f.ip.inum, off0, addr);
      return Fail, [];
    }
    MidwayStart(vol, f, addr);
    var i := 0;
    while i < |addr|
      invariant Midway(vol, f, addr, i, txns, fs0, own0, off0)
    {
      var n1 := if |addr| - i > CHUNK then CHUNK else |addr| - i;
      MidwayParts(vol, f, addr, i, txns, fs0, own0, off0);
      r, txns := NextChunk(vol, f, addr, i, txns, fs0, own0, off0);
      if !r.Bytes? {
        return;
      }
      i := i + n1;
    }
    MidwayParts(vol, f, addr, i, txns, fs0, own0, off0);
    MidwayEnd(vol, f, addr, i, txns, fs0, own0, off0);
    return Bytes(|addr|), txns;
  }

  lemma NextAfter(fs: Fs, txns: seq<Txn>, t: Txn)
    requires txns != [] && txns[|txns| - 1] == t
    ensures After(fs, txns, |txns|) == t.now
  {
  }

  lemma NoChunks(sb: Super, base: Fs, ino: int, off: nat, addr: seq<int>)
    ensures Chunks(sb, base, [], ino, off, addr) && After(base, [], 0) == base
  {
  }

  lemma DoneNext(k: nat, i: nat, n: nat, len: nat)
    requires i == k * CHUNK < len && n == if len - i > CHUNK then CHUNK else len - i
    ensures Done(k, len) == i && Done(k + 1, len) == i + n && (i + n < len ==> i + n == (k + 1) * CHUNK)
  {
  }

  lemma ChunkDone(sb: Super, base: Fs, txns: seq<Txn>, t: Txn, ino: int, off: nat, addr: seq<int>, i: nat, n: nat)
    requires Chunks(sb, base, txns, ino, off, addr) && i == |txns| * CHUNK < |addr|
    requires n == if |addr| - i > CHUNK then CHUNK else |addr| - i
    requires Covered(sb, After(base, txns, |txns|), t.log, t.logged, t.now) && |t.logged| <= 6 + Bitmaps(sb)
    requires forall s :: s in t.logged ==> 0 <= s < sb.size - sb.nlog
    requires Written(sb, After(base, txns, |txns|), t.now, t.owner, ino, off + i, addr[i..i + n])
    ensures Chunks(sb, base, txns + [t], ino, off, addr) && i + n == Done(|txns| + 1, |addr|)
    ensures i + n < |addr| ==> i + n == (|txns| + 1) * CHUNK
  {
    hide Covered, OthersSame, Contents, Spliced, Sound, Done, Bitmaps;
    DoneNext(|txns|, i, n, |addr|);
    var mid, all := After(base, txns, |txns|), txns + [t];
    assert After(base, all, |txns|) == mid;
    assert addr[..i] + addr[i..i + n] == addr[..i + n];
    if i == 0 {
      assert addr[i..i + n] == addr[..i + n];
    } else {
      assert ChunkAt(sb, base, txns, ino, off, addr, |txns| - 1);
      OthersTwice(base, mid, t.now, ino);
      SplicedTwice(Contents(base, ino), off, addr[..i], addr[i..i + n]);
    }
    OneMoreChunk(sb, base, txns, ino, off, addr, t);
  }
}
