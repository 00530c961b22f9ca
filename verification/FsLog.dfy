/**
  What a transaction of the file system puts into the log: at each log_write, one sector as it is
  at that moment.  Replaying that on the disk the transaction started from must give the file
  system the transaction ends with.
 */
module FsLog {
  import opened FsSpec

  function Iblock(ino: int): int
  {
    ino / IPB + 2
  }

  function Bblock(sb: Super, b: int): int
  {
    b / BPB + sb.ninodes / IPB + 3
  }

  // A log_write: the file system at that moment and the sector.
  datatype Write = Write(fs: Fs, sector: int)

  // Sector s of `to`, everything else of `from`.
  function WithSector(sb: Super, from: Fs, to: Fs, s: int): (r: Fs)
    ensures |r.bits| == |from.bits| && |r.inodes| == |from.inodes| && |r.blocks| == |from.blocks|
  {
    Fs(seq(|from.bits|, b requires 0 <= b < |from.bits| =>
             if Bblock(sb, b) == s && b < |to.bits| then to.bits[b] else from.bits[b]),
       seq(|from.inodes|, i requires 0 <= i < |from.inodes| =>
             if Iblock(i) == s && i < |to.inodes| then to.inodes[i] else from.inodes[i]),
       seq(|from.blocks|, b requires 0 <= b < |from.blocks| =>
             if b == s && b < |to.blocks| then to.blocks[b] else from.blocks[b]))
  }

  function Replay(sb: Super, base: Fs, log: seq<Write>): Fs
  {
    if log == [] then base
    else WithSector(sb, Replay(sb, base, log[..|log| - 1]), log[|log| - 1].fs, log[|log| - 1].sector)
  }

  // a and b hold the same in sector s.
  ghost predicate SectorSame(sb: Super, a: Fs, b: Fs, s: int)
  {
    && |a.bits| == |b.bits| && |a.inodes| == |b.inodes| && |a.blocks| == |b.blocks|
    && (forall i :: 0 <= i < |a.bits| && Bblock(sb, i) == s ==> a.bits[i] == b.bits[i])
    && (forall i :: 0 <= i < |a.inodes| && Iblock(i) == s ==> a.inodes[i] == b.inodes[i])
    && (0 <= s < |a.blocks| ==> a.blocks[s] == b.blocks[s])
  }

  predicate SameShape(a: Fs, b: Fs)
  {
    |a.bits| == |b.bits| && |a.inodes| == |b.inodes| && |a.blocks| == |b.blocks|
  }

  // Everything changed since base has been logged as it is now, in sectors of `logged` only.
  ghost predicate Covered(sb: Super, base: Fs, log: seq<Write>, logged: set<int>, now: Fs)
  {
    && Replay(sb, base, log) == now && SameShape(base, now)
    && forall k :: 0 <= k < |log| ==> log[k].sector in logged && SameShape(base, log[k].fs)
  }

  // Changing one sector and logging it.
  lemma LogSector(sb: Super, base: Fs, log: seq<Write>, logged: set<int>, was: Fs, now: Fs, s: int)
    requires Covered(sb, base, log, logged, was) && WithSector(sb, was, now, s) == now
    ensures Covered(sb, base, log + [Write(now, s)], logged + {s}, now)
  {
    var log' := log + [Write(now, s)];
    assert log'[..|log'| - 1] == log;
  }

  lemma BitSector(sb: Super, fs: Fs, b: int, v: bool)
    requires 0 <= b < |fs.bits|
    ensures var fs' := fs.(bits := fs.bits[b := v]); WithSector(sb, fs, fs', Bblock(sb, b)) == fs'
  {
    var fs' := fs.(bits := fs.bits[b := v]);
    var r := WithSector(sb, fs, fs', Bblock(sb, b));
    assert r.bits == fs'.bits && r.inodes == fs'.inodes && r.blocks == fs'.blocks;
  }

  lemma InodeSector(sb: Super, fs: Fs, i: int, d: Dinode)
    requires 0 <= i < |fs.inodes|
    ensures var fs' := fs.(inodes := fs.inodes[i := d]); WithSector(sb, fs, fs', Iblock(i)) == fs'
  {
    var fs' := fs.(inodes := fs.inodes[i := d]);
    var r := WithSector(sb, fs, fs', Iblock(i));
    assert r.bits == fs'.bits && r.inodes == fs'.inodes && r.blocks == fs'.blocks;
  }

  lemma BlockSector(sb: Super, fs: Fs, b: int, blk: Block)
    requires 0 <= b < |fs.blocks|
    ensures var fs' := fs.(blocks := fs.blocks[b := blk]); WithSector(sb, fs, fs', b) == fs'
  {
    var fs' := fs.(blocks := fs.blocks[b := blk]);
    var r := WithSector(sb, fs, fs', b);
    assert r.bits == fs'.bits && r.inodes == fs'.inodes && r.blocks == fs'.blocks;
  }
}
