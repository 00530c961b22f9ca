/**
  The transactions of link, unlink and create (sysfile.c) on the file system of FileSystem: which
  sectors they log, and that the log has room for them.
 */
module FsCalls {
  import opened Finite
  import opened FsSpec
  import opened FsLog
  import opened FileSystem
  import opened File

  const DIRSIZ: int := 14
  const DIRENT: int := DIRSIZ + 2

  // The bytes of a directory entry: the inode number, low byte first, and the padded name.
  function Dirent(inum: int, name: seq<int>): (r: seq<int>)
    ensures |r| == 2 + |name|
  {
    [inum % 256, inum / 256 % 256] + name
  }

  // The names of a directory for itself and for its parent.
  function Dots(n: nat): (r: seq<int>)
    requires n <= DIRSIZ
    ensures |r| == DIRSIZ
  {
    seq(DIRSIZ, i => if i < n then 46 else 0)
  }

  // ---------- counting sectors ----------

  // The sectors logged are in s or hold the bitmap, and lie before the log.
  ghost predicate Within(sb: Super, logged: set<int>, s: set<int>)
  {
    logged <= s + BitmapSectors(sb, Bitmaps(sb)) && forall x :: x in logged ==> 0 < x < sb.size - sb.nlog
  }

  ghost predicate LogLast(sb: Super)
  {
    DataStart(sb) <= sb.size - sb.nlog
  }

  // The sectors besides those of the bitmap that writing in block lo of an inode may log.
  function Near(fs: Fs, ino: int, lo: int): set<int>
  {
    {Iblock(ino), Addr(fs, Indirect(ino)), Addr(fs, Data(ino, lo))}
  }

  lemma WithinSize(sb: Super, logged: set<int>, s: set<int>)
    requires Within(sb, logged, s)
    ensures |logged| <= |s| + Bitmaps(sb) && forall x :: x in logged ==> 0 < x < sb.size - sb.nlog
  {
    SubsetSize(logged, s + BitmapSectors(sb, Bitmaps(sb)));
  }

  lemma WithinWrite(sb: Super, a: set<int>, b: set<int>, s: set<int>, fs: Fs, owner: Owner, ino: int, lo: int)
    requires Within(sb, a, s) && LogsOnly(a, b, sb, fs, ino, lo, lo + 1)
    requires 0 <= ino < sb.ninodes && LogLast(sb) && Sound(sb, fs, owner)
    ensures Within(sb, b, s + Near(fs, ino, lo))
  {
    hide Addr, Owned;
    forall x | x in b && x !in a
      ensures x in s + Near(fs, ino, lo) + BitmapSectors(sb, Bitmaps(sb)) && 0 < x < sb.size - sb.nlog {
      assert Touch(sb, fs, ino, lo, lo + 1, x);
      if x == Addr(fs, Indirect(ino)) != 0 {
        AddrRange(sb, fs, owner, Indirect(ino));
      }
      if x == Addr(fs, Data(ino, lo)) != 0 {
        AddrRange(sb, fs, owner, Data(ino, lo));
      }
    }
  }

  lemma WithinBitmap(sb: Super, a: set<int>, b: set<int>, s: set<int>, ino: int)
    requires Within(sb, a, s) && BitmapOnly(a + {Iblock(ino)}, b, sb)
    requires 0 <= ino < sb.ninodes && LogLast(sb)
    ensures Within(sb, b, s + {Iblock(ino)})
  {
    forall x | x in b && x !in a + {Iblock(ino)}
      ensures x in BitmapSectors(sb, Bitmaps(sb)) && 0 < x < sb.size - sb.nlog {
      var c :| 0 <= c < sb.size && x == Bblock(sb, c);
      assert 0 <= c < Bitmaps(sb) * BPB;
    }
  }

  // Sectors found before are still those of the inode; address 0 stands for none.
  lemma WithinLater(sb: Super, logged: set<int>, s: set<int>, fs: Fs, fs': Fs, ino: int, lo: int)
    requires Within(sb, logged, s + Near(fs, ino, lo))
    requires KeepsAddr(fs, fs', Indirect(ino)) && KeepsAddr(fs, fs', Data(ino, lo))
    ensures Within(sb, logged, s + Near(fs', ino, lo))
  {
    hide Addr;
  }

  // ---------- steps ----------

  ghost predicate Good(vol: Volume)
    reads vol
  {
    Sound(vol.sb, vol.Disk(), vol.owner) && vol.Logs() && vol.busy && |vol.dinodes| == vol.sb.ninodes
  }

  // The inode in memory is the one on disk.
  ghost predicate Synced(vol: Volume, ip: Inode)
    reads vol, ip
  {
    0 <= ip.inum < |vol.dinodes| && vol.dinodes[ip.inum] == ip.din && ip.din.kind != 0
  }

  // Another inode with the same type, size and blocks.
  predicate SameBody(d: Dinode, d': Dinode)
  {
    d'.kind == d.kind && d'.size == d.size && d'.addrs == d.addrs
  }

  function WithInode(fs: Fs, i: int, d: Dinode): Fs
    requires 0 <= i < |fs.inodes|
  {
    fs.(inodes := fs.inodes[i := d])
  }

  lemma BodyKeeps(sb: Super, fs: Fs, owner: Owner, i: int, d: Dinode)
    requires Sound(sb, fs, owner) && 0 <= i < |fs.inodes| && fs.inodes[i].kind != 0 && SameBody(fs.inodes[i], d)
    ensures Sound(sb, WithInode(fs, i, d), owner)
    ensures forall q :: Addr(WithInode(fs, i, d), q) == Addr(fs, q)
    ensures forall j :: Contents(WithInode(fs, i, d), j) == Contents(fs, j)
    ensures OthersSame(fs, WithInode(fs, i, d), i)
  {
    hide Entry;
    var fs' := WithInode(fs, i, d);
    forall q ensures Addr(fs', q) == Addr(fs, q) {
    }
    forall j ensures InodeOk(fs', j) {
      assert InodeOk(fs, j);
    }
    forall q ensures RoleOk(fs', owner, q) {
      assert RoleOk(fs, owner, q);
    }
    forall c ensures BlockOk(sb, fs', owner, c) {
      assert BlockOk(sb, fs, owner, c);
    }
    forall j ensures SameBlocks(fs, fs', j) {
    }
    forall j ensures Contents(fs', j) == Contents(fs, j) {
      SameFile(fs, fs', j, FsSpec.Inode(fs, j).size);
    }
    BodySound(sb, fs, owner, i, d);
  }

  lemma BodySound(sb: Super, fs: Fs, owner: Owner, i: int, d: Dinode)
    requires Sound(sb, fs, owner) && 0 <= i < |fs.inodes| && fs.inodes[i].kind != 0 && SameBody(fs.inodes[i], d)
    requires forall q :: Addr(WithInode(fs, i, d), q) == Addr(fs, q)
    ensures forall j :: InodeSound(WithInode(fs, i, d), j)
  {
    hide Addr;
    var fs' := WithInode(fs, i, d);
    forall j ensures InodeSound(fs', j) {
      assert InodeSound(fs, j);
      forall bn ensures Mapped(fs', j, bn, FsSpec.Inode(fs', j).size) {
        assert Mapped(fs, j, bn, FsSpec.Inode(fs, j).size);
        assert Addr(fs', Data(j, bn)) == Addr(fs, Data(j, bn));
      }
      if FsSpec.Inode(fs', j).kind == 0 {
        assert Empty(fs, j);
        EmptyStays(fs, fs', j);
      }
    }
  }

  lemma EmptyStays(fs: Fs, fs': Fs, j: int)
    requires Empty(fs, j) && (forall q :: Addr(fs', q) == Addr(fs, q)) && FsSpec.Inode(fs', j) == FsSpec.Inode(fs, j)
    ensures Empty(fs', j)
  {
    hide Addr;
  }

  // ---------- what an entry takes ----------

  // The entry at byte off can be written with that many blocks free: dp is no device, off is not
  // beyond its end, and the largest file is not exceeded.
  predicate EntryFits(fs: Fs, dp: int, off: nat, free: int)
  {
    && FsSpec.Inode(fs, dp).kind != T_DEV && off <= FsSpec.Inode(fs, dp).size && off + DIRENT <= MAXFILE * BSIZE
    && NewBlocks(fs, dp, off / BSIZE, off / BSIZE + 1) <= free
  }

  // Inside a file it always can, with no block more.
  lemma EntryInside(sb: Super, fs: Fs, owner: Owner, dp: int, off: nat)
    requires Sound(sb, fs, owner) && off % DIRENT == 0 && off < FsSpec.Inode(fs, dp).size
    requires FsSpec.Inode(fs, dp).kind != T_DEV
    ensures EntryFits(fs, dp, off, 0)
  {
    assert InodeSound(fs, dp);
    NoneNeeded(fs, dp, FsSpec.Inode(fs, dp).size, off);
  }

  lemma OneEntry(fs: Fs, ino: int, off: nat)
    requires off % DIRENT == 0
    ensures BlocksFor(fs, ino, off, DIRENT) == NewBlocks(fs, ino, off / BSIZE, off / BSIZE + 1)
    ensures (off + DIRENT + BSIZE - 1) / BSIZE == off / BSIZE + 1
  {
    hide NewBlocks;
  }

  lemma {:induction false} SameHoles(fs: Fs, fs': Fs, ino: int, lo: int, hi: int)
    requires forall q: Role :: q.ino == ino ==> SameAddr(fs, fs', q)
    ensures Holes(fs', ino, lo, hi) == Holes(fs, ino, lo, hi)
    decreases hi - lo
  {
    hide Addr;
    if lo < hi {
      SameHoles(fs, fs', ino, lo, hi - 1);
      assert SameAddr(fs, fs', Data(ino, hi - 1));
    }
  }

  lemma SameFits(fs: Fs, fs': Fs, dp: int, off: nat, free: int)
    requires (forall q: Role :: q.ino == dp ==> SameAddr(fs, fs', q))
    requires FsSpec.Inode(fs', dp).kind == FsSpec.Inode(fs, dp).kind
    requires FsSpec.Inode(fs', dp).size == FsSpec.Inode(fs, dp).size
    ensures EntryFits(fs', dp, off, free) == EntryFits(fs, dp, off, free)
    ensures NewBlocks(fs', dp, off / BSIZE, off / BSIZE + 1) == NewBlocks(fs, dp, off / BSIZE, off / BSIZE + 1)
  {
    hide Addr, Holes;
    SameHoles(fs, fs', dp, off / BSIZE, off / BSIZE + 1);
    assert SameAddr(fs, fs', Indirect(dp));
  }

  lemma OthersFit(fs: Fs, fs': Fs, i: int, dp: int, off: nat, free: int)
    requires OthersSame(fs, fs', i) && dp != i
    ensures EntryFits(fs', dp, off, free) == EntryFits(fs, dp, off, free)
  {
    hide Addr, EntryFits;
    assert SameInode(fs, fs', dp);
    SameFits(fs, fs', dp, off, free);
  }

  // A new inode's first block.
  lemma FreshFits(fs: Fs, ino: int)
    requires Addr(fs, Data(ino, 0)) == 0 && FsSpec.Inode(fs, ino).kind != T_DEV
    ensures EntryFits(fs, ino, 0, |FreeBlocks(fs.bits)|) <==> FreeBlocks(fs.bits) != {}
    ensures NewBlocks(fs, ino, 0, 1) == 1
  {
    hide Addr;
    OneBlock(fs, ino, 0);
  }

  lemma SecondFits(fs: Fs, fs': Fs, o: Owner, p: Owner, ino: int)
    requires Took(fs, fs', o, p, ino, 0, 1) && FsSpec.Inode(fs', ino).kind != T_DEV
    requires FsSpec.Inode(fs', ino).size == DIRENT && NewBlocks(fs, ino, 0, 1) == 1
    ensures EntryFits(fs', ino, DIRENT, |FreeBlocks(fs'.bits)|) && NewBlocks(fs', ino, 0, 1) == 0
    ensures |FreeBlocks(fs'.bits)| == |FreeBlocks(fs.bits)| - 1
  {
    hide Addr;
    OneBlock(fs', ino, 0);
    assert FilledAt(fs, fs', ino, 0, 1, 0);
  }

  // Change an inode's links or device numbers and write it.
  method SetInode(vol: Volume, ip: Inode, d: Dinode)
    requires Good(vol) && Synced(vol, ip) && SameBody(ip.din, d)
    modifies vol`dinodes, vol`logged, vol`tooBig, vol`log, ip`din
    ensures Good(vol) && Synced(vol, ip) && ip.din == d
    ensures vol.dinodes == old(vol.dinodes)[ip.inum := d] && vol.logged == old(vol.logged) + {Iblock(ip.inum)}
    ensures forall q :: Addr(vol.Disk(), q) == Addr(old(vol.Disk()), q)
    ensures forall j :: Contents(vol.Disk(), j) == Contents(old(vol.Disk()), j)
    ensures OthersSame(old(vol.Disk()), vol.Disk(), ip.inum)
  {
    hide Sound, Addr, Contents, Covered, OthersSame;
    BodyKeeps(vol.sb, vol.Disk(), vol.owner, ip.inum, d);
    ip.din := d;
    var ok := vol.Iupdate(ip);
    assert vol.Disk() == WithInode(old(vol.Disk()), ip.inum, d);
  }

  // Write a directory entry; false where writei fails, or panics on a full disk.
  method PutEntry(vol: Volume, dp: Inode, de: seq<int>, off: nat) returns (ok: bool)
    requires Good(vol) && Synced(vol, dp) && |de| == DIRENT && off % DIRENT == 0 && off < UINT - DIRENT
    modifies vol`bits, vol`dinodes, vol`blocks, vol`logged, vol`tooBig, vol`log, vol`owner, dp`din
    ensures !ok ==>
              old(dp.din.kind) == T_DEV || off > old(dp.din.size) || off + DIRENT > MAXFILE * BSIZE || AllSet(vol.bits)
    ensures ok <==> EntryFits(old(vol.Disk()), dp.inum, off, |FreeBlocks(old(vol.bits))|)
    ensures ok ==> dp.din == old(dp.din).(size := dp.din.size, addrs := dp.din.addrs)
    ensures ok ==>
              Took(old(vol.Disk()), vol.Disk(), old(vol.owner), vol.owner, dp.inum, off / BSIZE, off / BSIZE + 1)
    ensures ok ==>
              && Good(vol) && Synced(vol, dp) && vol.dinodes == old(vol.dinodes)[dp.inum := dp.din]
              && dp.din.nlink == old(dp.din.nlink) && dp.din.kind == old(dp.din.kind)
              && OthersSame(old(vol.Disk()), vol.Disk(), dp.inum)
              && off <= |Contents(old(vol.Disk()), dp.inum)|
              && Contents(vol.Disk(), dp.inum) == Spliced(Contents(old(vol.Disk()), dp.inum), off, de)
              && LogsOnly(old(vol.logged), vol.logged, vol.sb, vol.Disk(), dp.inum, off / BSIZE, off / BSIZE + 1)
              && (forall q :: KeepsAddr(old(vol.Disk()), vol.Disk(), q))
  {
    hide Owned, Contents, Spliced, OthersSame, Covered, LogsOnly, Dense, KeepsAddr, NewBlocks, Took, FreeBlocks;
    assert vol.View(dp) == vol.Disk();
    OneEntry(vol.Disk(), dp.inum, off);
    InodeIsSound(vol.sb, vol.Disk(), vol.owner, dp.inum);
    ghost var fs0, own0 := vol.Disk(), vol.owner;
    var r := vol.Writei(dp, de, off);
    if !r.Bytes? {
      return false;
    }
    assert vol.View(dp) == vol.Disk();
    SoundAfter(vol.sb, fs0, own0, vol.Disk(), vol.owner, dp.inum);
    return true;
  }

  // ---------- system calls ----------

  const T_DIR: int := 1

  // What becomes of a call: it succeeds, fails and takes back what it did, or panics.
  datatype Call = Done | Undone | Stuck

  // A whole transaction: all its changes are in the log, and the file system is sound again.
  ghost predicate Closed(vol: Volume, base: Fs, k: nat)
    reads vol
  {
    && Sound(vol.sb, vol.Disk(), vol.owner) && Covered(vol.sb, base, vol.log, vol.logged, vol.Disk()) && !vol.busy
    && |vol.logged| <= k + Bitmaps(vol.sb) && (forall x :: x in vol.logged ==> 0 < x < vol.sb.size - vol.sb.nlog)
    && (vol.tooBig ==> !HasRoom(vol.sb, vol.logged))
  }

  // So a call that logs at most six sectors besides those of the bitmap does not find the log full.
  lemma NotTooBig(vol: Volume, base: Fs, k: nat)
    requires Closed(vol, base, k) && FitsLog(vol.sb) && k <= 6
    ensures !vol.tooBig
  {
  }

  // sys_link from begin_trans on: a link more, and an entry at byte off of directory dp; taken back if
  // dirlink finds the name there.
  method Link(vol: Volume, ip: Inode, dp: Inode, name: seq<int>, off: nat, there: bool) returns (r: Call)
    requires Sound(vol.sb, vol.Disk(), vol.owner) && Synced(vol, ip) && Synced(vol, dp) && ip.inum != dp.inum
    requires |name| == DIRSIZ && off % DIRENT == 0 && off < UINT - DIRENT
    requires LogLast(vol.sb)
    modifies vol, ip`din, dp`din
    ensures r.Undone? <==> there
    ensures r.Stuck? <==> !there && !EntryFits(old(vol.Disk()), dp.inum, off, |FreeBlocks(old(vol.bits))|)
    ensures !r.Stuck? ==> Closed(vol, old(vol.Disk()), 4) && Synced(vol, ip) && Synced(vol, dp)
    ensures r.Undone? ==> vol.Disk() == old(vol.Disk())
    ensures r.Done? ==>
              && ip.din == old(ip.din).(nlink := old(ip.din.nlink) + 1)
              && dp.din == old(dp.din).(size := dp.din.size, addrs := dp.din.addrs)
              && vol.dinodes == old(vol.dinodes)[ip.inum := ip.din][dp.inum := dp.din]
              && (forall j :: j != dp.inum ==> Contents(vol.Disk(), j) == Contents(old(vol.Disk()), j))
              && off <= |Contents(old(vol.Disk()), dp.inum)|
              && Contents(vol.Disk(), dp.inum) == Spliced(Contents(old(vol.Disk()), dp.inum), off,
                                                          Dirent(ip.inum, name))
  {
    hide Sound, Contents, Spliced, OthersSame, Covered, LogsOnly, Addr, Near, Within, Dirent, EntryFits, Took;
    SoundOwned(vol.sb, vol.Disk(), vol.owner);
    vol.Begin();
    NoneWithin(vol.sb);
    ghost var s := {Iblock(ip.inum)};
    SetInode(vol, ip, ip.din.(nlink := ip.din.nlink + 1));
    WithinInode(vol.sb, {}, {}, ip.inum);
    if there {
      SetInode(vol, ip, ip.din.(nlink := ip.din.nlink - 1));
      WithinInode(vol.sb, vol.logged, s, ip.inum);
      assert vol.dinodes == old(vol.dinodes);
      r := Undone;
    } else {
      ghost var a, fs1 := vol.logged, vol.Disk();
      OthersFit(old(vol.Disk()), fs1, ip.inum, dp.inum, off, |FreeBlocks(vol.bits)|);
      var ok := PutEntry(vol, dp, Dirent(ip.inum, name), off);
      if !ok {
        return Stuck;
      }
      OthersReadAll(fs1, vol.Disk(), dp.inum);
      WithinWrite(vol.sb, a, vol.logged, s, vol.Disk(), vol.owner, dp.inum, off / BSIZE);
      s := s + Near(vol.Disk(), dp.inum, off / BSIZE);
      NearSize(vol.Disk(), dp.inum, off / BSIZE, {Iblock(ip.inum)});
      r := Done;
    }
    WithinSize(vol.sb, vol.logged, s);
    vol.End();
  }

  lemma NoneWithin(sb: Super)
    ensures Within(sb, {}, {})
  {
  }

  lemma WithinInode(sb: Super, a: set<int>, s: set<int>, ino: int)
    requires Within(sb, a, s) && 0 <= ino < sb.ninodes && LogLast(sb)
    ensures Within(sb, a + {Iblock(ino)}, s + {Iblock(ino)})
  {
  }

  lemma NearSize(fs: Fs, ino: int, lo: int, s: set<int>)
    ensures |s + Near(fs, ino, lo)| <= |s| + 3
  {
    hide Addr;
  }

  function Blank(): (r: seq<int>)
    ensures |r| == DIRENT
  {
    seq(DIRENT, _ => 0)
  }

  // sys_unlink once it has found the entry at byte off of dp that names ip: empty it, take the links
  // away, and free the inode if that was its last link and the last reference.
  method Unlink(vol: Volume, dp: Inode, ip: Inode, off: nat, last: bool) returns (r: Call)
    requires Sound(vol.sb, vol.Disk(), vol.owner) && Synced(vol, ip) && Synced(vol, dp) && ip.inum != dp.inum
    requires off % DIRENT == 0 && off < UINT - DIRENT
    requires LogLast(vol.sb)
    modifies vol, ip`din, dp`din
    ensures !r.Undone?
    ensures r.Stuck? <==> !EntryFits(old(vol.Disk()), dp.inum, off, |FreeBlocks(old(vol.bits))|)
    ensures old(dp.din.kind) != T_DEV && off < old(dp.din.size) ==> r.Done?
    ensures r.Done? ==> Closed(vol, old(vol.Disk()), 4)
    ensures r.Done? ==>
              && dp.din == old(dp.din).(nlink := old(dp.din.nlink) - (if old(ip.din.kind) == T_DIR then 1 else 0),
                                        size := dp.din.size, addrs := dp.din.addrs)
              && off <= |Contents(old(vol.Disk()), dp.inum)|
              && Contents(vol.Disk(), dp.inum) == Spliced(Contents(old(vol.Disk()), dp.inum), off, Blank())
    // the file only loses a link, or is gone if it was the last
    ensures r.Done? ==>
              if last && old(ip.din.nlink) == 1
              then ip.din == old(ip.din).(nlink := 0, kind := 0, size := 0, addrs := ip.din.addrs)
                   && Empty(vol.Disk(), ip.inum)
              else ip.din == old(ip.din).(nlink := old(ip.din.nlink) - 1)
                   && Contents(vol.Disk(), ip.inum) == Contents(old(vol.Disk()), ip.inum)
    // and the other files are as they were
    ensures r.Done? ==>
              && vol.dinodes == old(vol.dinodes)[dp.inum := dp.din][ip.inum := ip.din]
              && (forall j :: j != dp.inum && j != ip.inum ==>
                    Contents(vol.Disk(), j) == Contents(old(vol.Disk()), j))
    // no block is taken, and those of a file that is gone, and no others, are free again
    ensures r.Done? && off < old(dp.din.size) ==>
              forall b :: 0 <= b < vol.sb.size ==>
                (vol.bits[b] <==>
                   old(vol.bits)[b] && !(last && old(ip.din.nlink) == 1 && b in old(vol.owner)
                                         && old(vol.owner)[b].ino == ip.inum))
  {
    hide Sound, Contents, Spliced, Covered, Within, Bitmaps, EntryFits, Empty;
    SoundOwned(vol.sb, vol.Disk(), vol.owner);
    if dp.din.kind != T_DEV && off < dp.din.size {
      EntryInside(vol.sb, vol.Disk(), vol.owner, dp.inum, off);
      FitsMore(vol.Disk(), dp.inum, off, |FreeBlocks(vol.bits)|);
    }
    NoDevice(vol.Disk(), dp.inum, off, |FreeBlocks(vol.bits)|);
    vol.Begin();
    var ok;
    ghost var s;
    ok, s := Erase(vol, dp, off, ip.din.kind == T_DIR);
    if !ok {
      return Stuck;
    }
    LoseLink(vol, ip, last, s);
    WithinSize(vol.sb, vol.logged, s + {Iblock(ip.inum)});
    vol.End();
    return Done;
  }

  lemma NoDevice(fs: Fs, dp: int, off: nat, free: int)
    ensures EntryFits(fs, dp, off, free) ==> FsSpec.Inode(fs, dp).kind != T_DEV
  {
  }

  lemma FitsMore(fs: Fs, dp: int, off: nat, free: nat)
    requires EntryFits(fs, dp, off, 0)
    ensures EntryFits(fs, dp, off, free) && NewBlocks(fs, dp, off / BSIZE, off / BSIZE + 1) == 0
  {
  }

  // Empty an entry of dp, and take the link of a directory's .. away.
  method Erase(vol: Volume, dp: Inode, off: nat, dir: bool) returns (ok: bool, ghost s: set<int>)
    requires Good(vol) && Synced(vol, dp) && vol.logged == {} && LogLast(vol.sb)
    requires off % DIRENT == 0 && off < UINT - DIRENT
    modifies vol`bits, vol`dinodes, vol`blocks, vol`logged, vol`tooBig, vol`log, vol`owner, dp`din
    ensures ok <==> EntryFits(old(vol.Disk()), dp.inum, off, |FreeBlocks(old(vol.bits))|)
    ensures ok && NewBlocks(old(vol.Disk()), dp.inum, off / BSIZE, off / BSIZE + 1) == 0 ==>
              vol.bits == old(vol.bits) && vol.owner == old(vol.owner)
    ensures ok ==> forall j :: j != dp.inum ==> Contents(vol.Disk(), j) == Contents(old(vol.Disk()), j)
    ensures ok ==>
              && Good(vol) && Synced(vol, dp) && vol.dinodes == old(vol.dinodes)[dp.inum := dp.din]
              && dp.din == old(dp.din).(nlink := old(dp.din.nlink) - (if dir then 1 else 0), size := dp.din.size,
                                        addrs := dp.din.addrs)
              && off <= |Contents(old(vol.Disk()), dp.inum)|
              && Contents(vol.Disk(), dp.inum) == Spliced(Contents(old(vol.Disk()), dp.inum), off, Blank())
              && Within(vol.sb, vol.logged, s) && |s| <= 3
  {
    hide Sound, Contents, Spliced, OthersSame, Covered, LogsOnly, Addr, Near, Within, KeepsAddr, Dense, EntryFits;
    hide NewBlocks, FreeBlocks, Filled;
    NoneWithin(vol.sb);
    s := {};
    ok := PutEntry(vol, dp, Blank(), off);
    if !ok {
      return;
    }
    OthersReadAll(old(vol.Disk()), vol.Disk(), dp.inum);
    s := Near(vol.Disk(), dp.inum, off / BSIZE);
    WithinWrite(vol.sb, {}, vol.logged, {}, vol.Disk(), vol.owner, dp.inum, off / BSIZE);
    NearSize(vol.Disk(), dp.inum, off / BSIZE, {});
    assert {} + s == s;
    if dir {
      WithinInode(vol.sb, vol.logged, s, dp.inum);
      NearInode(vol.Disk(), dp.inum, off / BSIZE);
      SetInode(vol, dp, dp.din.(nlink := dp.din.nlink - 1));
    }
  }

  // A link less, and nothing left of the inode if it was the last and so is the reference.
  method LoseLink(vol: Volume, ip: Inode, last: bool, ghost s: set<int>)
    requires Good(vol) && Synced(vol, ip) && LogLast(vol.sb) && Within(vol.sb, vol.logged, s)
    modifies vol`bits, vol`dinodes, vol`blocks, vol`logged, vol`tooBig, vol`log, vol`owner, ip`din
    ensures Good(vol) && Within(vol.sb, vol.logged, s + {Iblock(ip.inum)})
    ensures vol.dinodes == old(vol.dinodes)[ip.inum := ip.din]
    ensures if last && old(ip.din.nlink) == 1
            then ip.din == old(ip.din).(nlink := 0, kind := 0, size := 0, addrs := ip.din.addrs)
                 && Empty(vol.Disk(), ip.inum)
            else ip.din == old(ip.din).(nlink := old(ip.din.nlink) - 1)
                 && Contents(vol.Disk(), ip.inum) == Contents(old(vol.Disk()), ip.inum)
    ensures forall b :: 0 <= b < vol.sb.size ==>
              (vol.bits[b] <==>
                 old(vol.bits)[b] && !(last && old(ip.din.nlink) == 1 && b in old(vol.owner)
                                       && old(vol.owner)[b].ino == ip.inum))
    ensures forall j :: j != ip.inum ==> Contents(vol.Disk(), j) == Contents(old(vol.Disk()), j)
  {
    hide Sound, Contents, Covered, Addr, Within, OthersSame, Empty;
    SoundSize(vol.sb, vol.Disk(), vol.owner);
    WithinInode(vol.sb, vol.logged, s, ip.inum);
    SetInode(vol, ip, ip.din.(nlink := ip.din.nlink - 1));
    if last && ip.din.nlink == 0 {
      Drop(vol, ip, s + {Iblock(ip.inum)});
      assert s + {Iblock(ip.inum)} + {Iblock(ip.inum)} == s + {Iblock(ip.inum)};
    }
  }

  lemma SoundSize(sb: Super, fs: Fs, owner: Owner)
    requires Sound(sb, fs, owner)
    ensures |fs.bits| == |fs.blocks| == sb.size
  {
  }

  lemma NearInode(fs: Fs, ino: int, lo: int)
    ensures Near(fs, ino, lo) + {Iblock(ino)} == Near(fs, ino, lo)
  {
    hide Addr;
  }

  // iput of the last reference to an inode without links.
  method Drop(vol: Volume, ip: Inode, ghost s: set<int>)
    requires Good(vol) && Synced(vol, ip) && Within(vol.sb, vol.logged, s)
    requires LogLast(vol.sb)
    modifies vol`bits, vol`dinodes, vol`blocks, vol`logged, vol`tooBig, vol`log, vol`owner, ip`din
    ensures Good(vol) && Within(vol.sb, vol.logged, s + {Iblock(ip.inum)})
    ensures ip.din == old(ip.din).(kind := 0, size := 0, addrs := ip.din.addrs) && Empty(vol.Disk(), ip.inum)
    ensures vol.dinodes == old(vol.dinodes)[ip.inum := ip.din]
    ensures |vol.bits| == vol.sb.size && forall b :: 0 <= b < vol.sb.size ==>
              (vol.bits[b] <==>
                 old(vol.bits)[b] && !(b in old(vol.owner) && old(vol.owner)[b].ino == ip.inum))
    ensures forall j :: j != ip.inum ==> Contents(vol.Disk(), j) == Contents(old(vol.Disk()), j)
  {
    hide Sound, Contents, OthersSame, Covered, BitmapOnly, Within, Empty;
    assert vol.View(ip) == vol.Disk();
    SoundOwned(vol.sb, vol.Disk(), vol.owner);
    SoundSize(vol.sb, vol.Disk(), vol.owner);
    var ok := vol.Ifree(ip);
    assert vol.View(ip) == vol.Disk();
    FreeIsEmpty(vol.sb, vol.Disk(), vol.owner, ip.inum);
    SoundSize(vol.sb, vol.Disk(), vol.owner);
    WithinBitmap(vol.sb, old(vol.logged), vol.logged, s, ip.inum);
    forall j | j != ip.inum ensures Contents(vol.Disk(), j) == Contents(old(vol.Disk()), j) {
      OthersRead(old(vol.Disk()), vol.Disk(), ip.inum, j);
    }
  }

  lemma FreeIsEmpty(sb: Super, fs: Fs, owner: Owner, i: int)
    requires Sound(sb, fs, owner) && FsSpec.Inode(fs, i).kind == 0
    ensures Empty(fs, i)
  {
    assert InodeSound(fs, i);
  }

  lemma SoundOwned(sb: Super, fs: Fs, owner: Owner)
    requires Sound(sb, fs, owner)
    ensures Owned(sb, fs, owner) && |fs.inodes| == sb.ninodes
  {
  }

  lemma OthersRead(fs: Fs, fs': Fs, i: int, j: int)
    requires OthersSame(fs, fs', i) && j != i
    ensures Contents(fs', j) == Contents(fs, j)
  {
    assert SameInode(fs, fs', j) && SameBlocks(fs, fs', j);
    SameFile(fs, fs', j, FsSpec.Inode(fs, j).size);
  }

  lemma OthersReadAll(fs: Fs, fs': Fs, i: int)
    requires OthersSame(fs, fs', i)
    ensures forall j :: j != i ==> Contents(fs', j) == Contents(fs, j)
  {
    hide Contents, OthersSame;
    forall j | j != i ensures Contents(fs', j) == Contents(fs, j) {
      OthersRead(fs, fs', i, j);
    }
  }

  // ialloc, and the inode filled in; null stands for the panic when there is no free one.
  method NewInode(vol: Volume, kind: int, major: int, minor: int) returns (ip: Inode?)
    requires Good(vol) && kind != 0
    modifies vol`dinodes, vol`logged, vol`tooBig, vol`log
    ensures ip == null <==> forall i :: 1 <= i < |old(vol.dinodes)| ==> old(vol.dinodes)[i].kind != 0
    ensures ip != null ==>
              && fresh(ip) && Good(vol) && Synced(vol, ip) && 1 <= ip.inum < |old(vol.dinodes)|
              && old(vol.dinodes)[ip.inum].kind == 0 && vol.dinodes == old(vol.dinodes)[ip.inum := ip.din]
              && (forall i :: 1 <= i < ip.inum ==> old(vol.dinodes)[i].kind != 0)
              && ip.din == Dinode(kind, major, minor, 1, 0, seq(NDIRECT + 1, _ => 0))
              && Contents(vol.Disk(), ip.inum) == [] && Addr(vol.Disk(), Data(ip.inum, 0)) == 0
              && OthersSame(old(vol.Disk()), vol.Disk(), ip.inum)
              && vol.logged == old(vol.logged) + {Iblock(ip.inum)}
              && forall j :: j != ip.inum ==> Contents(vol.Disk(), j) == Contents(old(vol.Disk()), j)
  {
    hide Sound, Contents, OthersSame, Covered;
    var inum := vol.Ialloc(kind);
    if inum == -1 {
      return null;
    }
    ghost var fs1 := vol.Disk();
    forall j | j != inum ensures Contents(fs1, j) == Contents(old(vol.Disk()), j) {
      OthersRead(old(vol.Disk()), fs1, inum, j);
    }
    var d := vol.dinodes[inum].(major := major, minor := minor, nlink := 1);
    var np := new Inode(inum, vol.dinodes[inum]);
    SetInode(vol, np, d);
    OthersTwice(old(vol.Disk()), fs1, vol.Disk(), inum);
    return np;
  }

  // The two entries a new directory starts with; false stands for the panic on a full disk.
  method AddDots(vol: Volume, ip: Inode, up: int, ghost s: set<int>) returns (ok: bool)
    requires Good(vol) && Synced(vol, ip) && ip.din.kind == T_DIR && Contents(vol.Disk(), ip.inum) == []
    requires Addr(vol.Disk(), Data(ip.inum, 0)) == 0
    requires Within(vol.sb, vol.logged, s)
    requires LogLast(vol.sb)
    modifies vol`bits, vol`dinodes, vol`blocks, vol`logged, vol`tooBig, vol`log, vol`owner, ip`din
    ensures ok <==> FreeBlocks(old(vol.bits)) != {}
    ensures ok ==>
              && Good(vol) && Synced(vol, ip) && vol.dinodes == old(vol.dinodes)[ip.inum := ip.din]
              && ip.din == old(ip.din).(size := ip.din.size, addrs := ip.din.addrs)
              && |FreeBlocks(vol.bits)| == |FreeBlocks(old(vol.bits))| - 1
              && OthersSame(old(vol.Disk()), vol.Disk(), ip.inum)
              && Within(vol.sb, vol.logged, s + Near(vol.Disk(), ip.inum, 0))
              && Contents(vol.Disk(), ip.inum) == Dirent(ip.inum, Dots(1)) + Dirent(up, Dots(2))
              && forall j :: j != ip.inum ==> Contents(vol.Disk(), j) == Contents(old(vol.Disk()), j)
  {
    hide Sound, Contents, Spliced, OthersSame, Covered, LogsOnly, Addr, Near, Within, Dirent, KeepsAddr;
    hide EntryFits, NewBlocks, FreeBlocks, Filled;
    ContentsSize(vol.Disk(), ip.inum);
    FreshFits(vol.Disk(), ip.inum);
    ok := PutEntry(vol, ip, Dirent(ip.inum, Dots(1)), 0);
    if !ok {
      return;
    }
    ghost var fs1, a := vol.Disk(), vol.logged;
    WithinWrite(vol.sb, old(vol.logged), a, s, fs1, vol.owner, ip.inum, 0);
    FirstSplice(Dirent(ip.inum, Dots(1)), Dirent(up, Dots(2)));
    ContentsSize(fs1, ip.inum);
    SecondFits(old(vol.Disk()), fs1, old(vol.owner), vol.owner, ip.inum);
    ok := PutEntry(vol, ip, Dirent(up, Dots(2)), DIRENT);
    OthersTwice(old(vol.Disk()), fs1, vol.Disk(), ip.inum);
    WithinLater(vol.sb, a, s, fs1, vol.Disk(), ip.inum, 0);
    WithinWrite(vol.sb, a, vol.logged, s + Near(vol.Disk(), ip.inum, 0), vol.Disk(), vol.owner, ip.inum, 0);
    assert s + Near(vol.Disk(), ip.inum, 0) + Near(vol.Disk(), ip.inum, 0) == s + Near(vol.Disk(), ip.inum, 0);
    forall j | j != ip.inum ensures Contents(vol.Disk(), j) == Contents(old(vol.Disk()), j) {
      OthersRead(old(vol.Disk()), fs1, ip.inum, j);
      OthersRead(fs1, vol.Disk(), ip.inum, j);
    }
  }

  lemma ContentsSize(fs: Fs, ino: int)
    ensures |Contents(fs, ino)| == FsSpec.Inode(fs, ino).size
  {
  }

  lemma FirstSplice(a: seq<int>, b: seq<int>)
    ensures Spliced([], 0, a) == a && Spliced(a, |a|, b) == a + b
  {
  }

  // A new directory: a link more for its parent, and its dots.
  method MakeDir(vol: Volume, ip: Inode, dp: Inode, ghost s: set<int>, ghost off: nat) returns (ok: bool)
    requires Good(vol) && Synced(vol, ip) && Synced(vol, dp) && ip.inum != dp.inum && ip != dp && LogLast(vol.sb)
    requires ip.din.kind == T_DIR && Contents(vol.Disk(), ip.inum) == [] && Within(vol.sb, vol.logged, s)
    requires Addr(vol.Disk(), Data(ip.inum, 0)) == 0
    modifies vol`bits, vol`dinodes, vol`blocks, vol`logged, vol`tooBig, vol`log, vol`owner, ip`din, dp`din
    ensures ok <==> FreeBlocks(old(vol.bits)) != {}
    ensures ok ==>
              && Good(vol) && Synced(vol, ip) && Synced(vol, dp)
              && vol.dinodes == old(vol.dinodes)[dp.inum := dp.din][ip.inum := ip.din]
              && ip.din == old(ip.din).(size := ip.din.size, addrs := ip.din.addrs)
              && dp.din == old(dp.din).(nlink := old(dp.din.nlink) + 1)
              && |FreeBlocks(vol.bits)| == |FreeBlocks(old(vol.bits))| - 1
              && (forall free :: EntryFits(vol.Disk(), dp.inum, off, free) == EntryFits(old(vol.Disk()), dp.inum, off,
                    free))
              && Within(vol.sb, vol.logged, s + {Iblock(dp.inum)} + Near(vol.Disk(), ip.inum, 0))
              && Contents(vol.Disk(), ip.inum) == Dirent(ip.inum, Dots(1)) + Dirent(dp.inum, Dots(2))
              && forall j :: j != ip.inum ==> Contents(vol.Disk(), j) == Contents(old(vol.Disk()), j)
  {
    hide Sound, Contents, Covered, Addr, Near, Within, Dirent, OthersSame, EntryFits, FreeBlocks;
    WithinInode(vol.sb, vol.logged, s, dp.inum);
    SetInode(vol, dp, dp.din.(nlink := dp.din.nlink + 1));
    ghost var fs1 := vol.Disk();
    ok := AddDots(vol, ip, dp.inum, s + {Iblock(dp.inum)});
    if ok {
      forall free
        ensures EntryFits(vol.Disk(), dp.inum, off, free) == EntryFits(old(vol.Disk()), dp.inum, off, free) {
        SameFits(old(vol.Disk()), fs1, dp.inum, off, free);
        OthersFit(fs1, vol.Disk(), ip.inum, dp.inum, off, free);
      }
    }
  }

  // The rest of create: the dots of a directory, and the entry for ip at byte off of dp.
  method Enter(vol: Volume, dp: Inode, ip: Inode, name: seq<int>, off: nat) returns (ok: bool)
    requires Good(vol) && Synced(vol, ip) && Synced(vol, dp) && ip.inum != dp.inum && ip != dp && LogLast(vol.sb)
    requires Contents(vol.Disk(), ip.inum) == [] && Addr(vol.Disk(), Data(ip.inum, 0)) == 0
    requires Within(vol.sb, vol.logged, {Iblock(ip.inum)})
    requires |name| == DIRSIZ && off % DIRENT == 0 && off < UINT - DIRENT
    modifies vol`bits, vol`dinodes, vol`blocks, vol`logged, vol`tooBig, vol`log, vol`owner, ip`din, dp`din
    ensures ok <==> EntryFits(old(vol.Disk()), dp.inum, off,
                              |FreeBlocks(old(vol.bits))| - (if old(ip.din.kind) == T_DIR then 1 else 0))
    ensures ok ==>
              && Good(vol) && Synced(vol, ip) && Synced(vol, dp)
              && ip.din == old(ip.din).(size := ip.din.size, addrs := ip.din.addrs)
              && dp.din == old(dp.din).(nlink := old(dp.din.nlink) + (if ip.din.kind == T_DIR then 1 else 0),
                                        size := dp.din.size, addrs := dp.din.addrs)
              && vol.dinodes == old(vol.dinodes)[ip.inum := ip.din][dp.inum := dp.din]
              && (forall j :: j != dp.inum && j != ip.inum ==>
                    Contents(vol.Disk(), j) == Contents(old(vol.Disk()), j))
              && Contents(vol.Disk(), ip.inum) ==
                   (if ip.din.kind == T_DIR then Dirent(ip.inum, Dots(1)) + Dirent(dp.inum, Dots(2)) else [])
              && off <= |Contents(old(vol.Disk()), dp.inum)|
              && Contents(vol.Disk(), dp.inum) == Spliced(Contents(old(vol.Disk()), dp.inum), off,
                                                          Dirent(ip.inum, name))
              && |vol.logged| <= 6 + Bitmaps(vol.sb)
              && (forall x :: x in vol.logged ==> 0 < x < vol.sb.size - vol.sb.nlog)
  {
    hide Sound, Contents, Spliced, OthersSame, Covered, LogsOnly, Addr, Near, Within, Dirent, KeepsAddr, Six;
    hide EntryFits, FreeBlocks, Took, Bitmaps;
    ghost var s := {Iblock(ip.inum)};
    if ip.din.kind == T_DIR {
      ok := MakeDir(vol, ip, dp, s, off);
      if !ok {
        NoneFits(old(vol.Disk()), dp.inum, off, -1);
        return;
      }
      s := s + {Iblock(dp.inum)} + Near(vol.Disk(), ip.inum, 0);
    }
    ghost var fs1, a := vol.Disk(), vol.logged;
    ok := PutEntry(vol, dp, Dirent(ip.inum, name), off);
    if !ok {
      return;
    }
    WithinWrite(vol.sb, a, vol.logged, s, vol.Disk(), vol.owner, dp.inum, off / BSIZE);
    SixSectors(fs1, vol.Disk(), ip.inum, dp.inum, off / BSIZE);
    WithinMore(vol.sb, vol.logged, s + Near(vol.Disk(), dp.inum, off / BSIZE),
               Six(fs1, vol.Disk(), ip.inum, dp.inum, off / BSIZE));
    WithinSize(vol.sb, vol.logged, Six(fs1, vol.Disk(), ip.inum, dp.inum, off / BSIZE));
    OthersReadAll(fs1, vol.Disk(), dp.inum);
  }

  // create once it has not found the name: a new inode, with its dots if it is a directory, and an
  // entry for it at byte off of dp.
  method Create(vol: Volume, dp: Inode, kind: int, major: int, minor: int, name: seq<int>, off: nat)
    returns (r: Call, ip: Inode?)
    requires Sound(vol.sb, vol.Disk(), vol.owner) && Synced(vol, dp) && kind != 0
    requires |name| == DIRSIZ && off % DIRENT == 0 && off < UINT - DIRENT
    requires LogLast(vol.sb)
    modifies vol, dp`din
    ensures !r.Undone?
    // it panics without a free inode, and without blocks for the dots or the entry
    ensures r.Stuck? <==>
              || (forall i :: 1 <= i < |old(vol.dinodes)| ==> old(vol.dinodes)[i].kind != 0)
              || !EntryFits(old(vol.Disk()), dp.inum, off,
                            |FreeBlocks(old(vol.bits))| - (if kind == T_DIR then 1 else 0))
    ensures r.Done? ==> ip != null && Closed(vol, old(vol.Disk()), 6) && Synced(vol, ip) && Synced(vol, dp)
    // the first free inode
    ensures r.Done? ==>
              && 1 <= ip.inum < |old(vol.dinodes)| && ip.inum != dp.inum && old(vol.dinodes)[ip.inum].kind == 0
              && (forall i :: 1 <= i < ip.inum ==> old(vol.dinodes)[i].kind != 0)
              && ip.din == Dinode(kind, major, minor, 1, ip.din.size, ip.din.addrs)
              && dp.din == old(dp.din).(nlink := old(dp.din.nlink) + (if kind == T_DIR then 1 else 0),
                                        size := dp.din.size, addrs := dp.din.addrs)
              && vol.dinodes == old(vol.dinodes)[ip.inum := ip.din][dp.inum := dp.din]
              && (forall j :: j != dp.inum && j != ip.inum ==>
                    Contents(vol.Disk(), j) == Contents(old(vol.Disk()), j))
    ensures r.Done? ==>
              && Contents(vol.Disk(), ip.inum) ==
                   (if kind == T_DIR then Dirent(ip.inum, Dots(1)) + Dirent(dp.inum, Dots(2)) else [])
              && off <= |Contents(old(vol.Disk()), dp.inum)|
              && Contents(vol.Disk(), dp.inum) == Spliced(Contents(old(vol.Disk()), dp.inum), off,
                                                          Dirent(ip.inum, name))
  {
    hide Sound, Contents, Spliced, OthersSame, Covered, Addr, Near, Within, Dirent, EntryFits, FreeBlocks, Bitmaps;
    SoundOwned(vol.sb, vol.Disk(), vol.owner);
    ghost var free := |FreeBlocks(vol.bits)|;
    vol.Begin();
    NoneWithin(vol.sb);
    ip := NewInode(vol, kind, major, minor);
    if ip == null {
      return Stuck, null;
    }
    WithinInode(vol.sb, {}, {}, ip.inum);
    assert {} + {Iblock(ip.inum)} == {Iblock(ip.inum)};
    OthersFit(old(vol.Disk()), vol.Disk(), ip.inum, dp.inum, off, if kind == T_DIR then free - 1 else free);
    var ok := Enter(vol, dp, ip, name, off);
    if !ok {
      return Stuck, ip;
    }
    vol.End();
    return Done, ip;
  }

  lemma NoneFits(fs: Fs, dp: int, off: nat, free: int)
    requires free < 0
    ensures !EntryFits(fs, dp, off, free)
  {
  }

  lemma WithinMore(sb: Super, logged: set<int>, s: set<int>, s': set<int>)
    requires Within(sb, logged, s) && s <= s'
    ensures Within(sb, logged, s')
  {
  }

  ghost function Six(fs: Fs, fs': Fs, ino: int, dir: int, lo: int): set<int>
  {
    {Iblock(ino), Iblock(dir)} + Near(fs, ino, 0) + Near(fs', dir, lo)
  }

  lemma SixSectors(fs: Fs, fs': Fs, ino: int, dir: int, lo: int)
    ensures |Six(fs, fs', ino, dir, lo)| <= 6
    ensures {Iblock(ino)} + Near(fs', dir, lo) <= Six(fs, fs', ino, dir, lo)
    ensures {Iblock(ino)} + {Iblock(dir)} + Near(fs, ino, 0) + Near(fs', dir, lo) <= Six(fs, fs', ino, dir, lo)
  {
    hide Addr;
    var a := [Iblock(ino), Addr(fs, Indirect(ino)), Addr(fs, Data(ino, 0))];
    var b := [Iblock(dir), Addr(fs', Indirect(dir)), Addr(fs', Data(dir, lo))];
    assert Six(fs, fs', ino, dir, lo) == Elements(a + b);
  }
}
