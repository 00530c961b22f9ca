/** filewrite on a disk that may crash: its transactions through the log, cut off anywhere. */
module FileCrash {
  import opened Finite
  import B = BufferCache
  import opened LogSpec
  import opened LogHistory
  import opened FsSpec
  import opened FsLog
  import opened FsCrash
  import opened File
  import opened FileSystem
  import opened FsDisk
  import C = FsCalls

  // The history is that of filewrite: chunk after chunk, until a crash, or until a chunk fails and
  // its transaction is empty.  What is cut off before it commits may be a chunk that would have failed
  // or panicked.
  ghost predicate Follows(enc: Encoding, txns: seq<Txn>, eps: seq<Episode>, n: nat)
  {
    && |eps| <= |txns| + 1
    && forall i :: 0 <= i < |eps| ==> EpisodeOk(enc, txns, eps, n, i)
  }

  ghost predicate EpisodeOk(enc: Encoding, txns: seq<Txn>, eps: seq<Episode>, n: nat, i: int)
    requires 0 <= i < |eps|
  {
    && (Commits(eps[i]) && i < |txns| ==> OnDisk(txns[i].log, n) && eps[i].txn == Updates(enc, txns[i].log, n))
    && (Commits(eps[i]) && i >= |txns| ==> eps[i].txn == [])
    && (i < |eps| - 1 ==> !eps[i].crashed)
  }

  // How many chunks are on the disk after the history.
  function Whole(txns: seq<Txn>, eps: seq<Episode>): (m: nat)
    ensures m <= |eps| && m <= |txns|
  {
    var m := if eps != [] && !Commits(eps[|eps| - 1]) then |eps| - 1 else |eps|;
    if m <= |txns| then m else |txns|
  }

  // The transactions of filewrite all fit the log, with up to three bitmap sectors.
  lemma ChunksFit(sb: Super, d: B.Disk, L: Layout, enc: Encoding, base: Fs, txns: seq<Txn>, ino: int, off: nat,
                  addr: seq<int>, i: nat)
    requires Chunks(sb, base, txns, ino, off, addr) && i < |txns| && Bitmaps(sb) <= 3
    requires |d| == sb.size >= sb.nlog >= LogSpec.LOGSIZE && L == Layout(sb.size - sb.nlog, sb.nlog) && Fits(d, L)
    ensures FsCrash.OnDisk(txns[i].log, |d|) && Loggable(d, L, Updates(enc, txns[i].log, |d|))
  {
    assert ChunkAt(sb, base, txns, ino, off, addr, i);
    ChunkFits(sb, d, L, enc, After(base, txns, i), txns[i].log, txns[i].logged, txns[i].now);
  }

  // One more episode.
  lemma EpisodeStep(sb: Super, enc: Encoding, base: Fs, t: Txn, d: B.Disk, L: Layout, ep: Episode, e: B.Disk)
    requires Encodes(sb, enc) && Covered(sb, base, t.log, t.logged, t.now) && Happens(d, L, ep, e)
    requires Commits(ep) ==> FsCrash.OnDisk(t.log, |d|) && ep.txn == Updates(enc, t.log, |d|)
    requires SameHome(d, Image(enc, base, |d|), L)
    ensures |e| == |d| && HeadIs(e, L, []) && SameHome(e, Image(enc, if Commits(ep) then t.now else base, |d|), L)
  {
    hide Happens;
    EpisodeAtomic(d, L, ep, e);
    if Commits(ep) {
      OverlayIsReplay(sb, enc, base, t.log, |d|);
      OverlaySame(d, Image(enc, base, |d|), L, ep.txn);
    }
  }

  // Cut filewrite off after any disk write and recover, crashing as often as you like: the disk
  // outside the log holds a sound file system in which a whole number of chunks has been written.
  lemma {:induction false} FilewriteCrash(sb: Super, enc: Encoding, base: Fs, txns: seq<Txn>, ino: int, off: nat,
                                          addr: seq<int>,
                                          disks: seq<B.Disk>, L: Layout, eps: seq<Episode>)
    requires Encodes(sb, enc) && Chunks(sb, base, txns, ino, off, addr)
    requires History(disks, L, eps) && Follows(enc, txns, eps, |disks[0]|)
             && SameHome(disks[0], Image(enc, base, |disks[0]|), L)
    ensures var m, e := Whole(txns, eps), disks[|eps|];
            && |e| == |disks[0]| && SameHome(e, Image(enc, After(base, txns, m), |e|), L)
            && (eps != [] ==> HeadIs(e, L, []))
            && (m > 0 ==> Written(sb, base, After(base, txns, m), txns[m - 1].owner, ino, off, addr[..Done(m, |addr|)]))
    decreases |eps|
  {
    hide Happens, SameHome, Written, Encodes, Covered;
    if eps != [] {
      var n := |eps| - 1;
      var front := eps[..n];
      assert EpisodeOk(enc, txns, eps, |disks[0]|, n);
      assert History(disks[..n + 1], L, front);
      forall i | 0 <= i < n ensures EpisodeOk(enc, txns, front, |disks[0]|, i) && Commits(front[i]) {
        assert EpisodeOk(enc, txns, eps, |disks[0]|, i);
      }
      FilewriteCrash(sb, enc, base, txns, ino, off, addr, disks[..n + 1], L, front);
      assert Whole(txns, front) == n;
      assert n > 0 ==> ChunkAt(sb, base, txns, ino, off, addr, n - 1);
      assert ChunkAt(sb, base, txns, ino, off, addr, n);
      if n < |txns| {
        EpisodeStep(sb, enc, After(base, txns, n), txns[n], disks[n], L, eps[n], disks[n + 1]);
      } else {
        EpisodeAtomic(disks[n], L, eps[n], disks[n + 1]);
        assert Commits(eps[n]) ==> Overlay(disks[n], eps[n].txn) == disks[n];
        HomeTwice(disks[n + 1], disks[n], Image(enc, After(base, txns, n), |disks[n]|), L);
      }
    }
  }

  lemma HomeTwice(a: B.Disk, b: B.Disk, c: B.Disk, L: Layout)
    requires SameHome(a, b, L) && SameHome(b, c, L)
    ensures SameHome(a, c, L)
  {
  }

  // The other panic of a chunk, that of bget: it finds a buffer to recycle unless the sectors logged
  // so far and the buffers held at that moment are as many as there are buffers.
  lemma ChunkFindsBuffer(cache: B.Cache, logged: set<nat>)
    requires cache.Valid() && cache.pinned.Keys <= logged && |logged| + |B.Held(cache.buf[..])| < B.NBUF
    ensures exists i :: 0 <= i < B.NBUF && !cache.buf[i].busy && !cache.buf[i].dirty
  {
    SubsetSize(cache.pinned.Keys, logged);
    if forall i :: 0 <= i < B.NBUF ==> cache.buf[i].busy || cache.buf[i].dirty {
      cache.AllTaken();
      assert false;
    }
  }

  // So do those of link, unlink and create.
  lemma CallFits(vol: Volume, base: Fs, k: nat, d: B.Disk, L: Layout, enc: Encoding)
    requires C.Closed(vol, base, k) && k <= 6 && FitsLog(vol.sb)
    requires |d| == vol.sb.size >= vol.sb.nlog && L == Layout(vol.sb.size - vol.sb.nlog, vol.sb.nlog) && Fits(d, L)
    ensures FsCrash.OnDisk(vol.log, |d|) && Loggable(d, L, Updates(enc, vol.log, |d|)) && !vol.tooBig
  {
    C.NotTooBig(vol, base, k);
    ChunkFits(vol.sb, d, L, enc, base, vol.log, vol.logged, vol.Disk());
  }

  // ---------- the file read back ----------

  ghost predicate AllBytes(data: seq<int>)
  {
    forall k :: 0 <= k < |data| ==> IsByte(data[k])
  }

  lemma WrittenStorable(sb: Super, base: Fs, fs: Fs, owner: Owner, ino: int, off: nat, data: seq<int>)
    requires Storable(sb, base) && Written(sb, base, fs, owner, ino, off, data) && AllBytes(data)
    ensures Storable(sb, fs)
  {
    hide Sound, FileByte;
    forall i ensures 0 <= FsSpec.Inode(fs, i).kind < HALF {
      assert i != ino ==> SameInode(base, fs, i);
    }
    forall i, k | 0 <= k < FsSpec.Inode(fs, i).size ensures IsByte(FileByte(fs, i, k)) {
      if i == ino {
        assert Contents(fs, i)[k] == FileByte(fs, i, k);
        SplicedByte(Contents(base, ino), off, data, k);
        forall x | 0 <= x < |Contents(base, ino)| ensures IsByte(Contents(base, ino)[x]) {
          assert IsByte(FileByte(base, ino, x));
        }
      } else {
        assert SameInode(base, fs, i) && SameBlocks(base, fs, i);
        SameFile(base, fs, i, FsSpec.Inode(fs, i).size);
        assert FsSpec.File(fs, i, FsSpec.Inode(fs, i).size)[k] == FileByte(fs, i, k);
        assert IsByte(FileByte(base, i, k));
      }
    }
  }

  lemma SplicedByte(c: seq<int>, off: nat, data: seq<int>, k: nat)
    requires off <= |c| && k < |Spliced(c, off, data)|
    ensures Spliced(c, off, data)[k] in c || Spliced(c, off, data)[k] in data
  {
  }

  // Read back from the disk after such a history, the file system is sound, a whole number of chunks
  // is in the file, and the other files are as they were.
  lemma FilewriteDecoded(sb: Super, base: Fs, owner: Owner, txns: seq<Txn>, ino: int, off: nat, addr: seq<int>,
                         disks: seq<B.Disk>, L: Layout, eps: seq<Episode>)
    requires Sound(sb, base, owner) && Storable(sb, base) && AllBytes(addr)
    requires DataStart(sb) <= sb.size - sb.nlog && L == Layout(sb.size - sb.nlog, sb.nlog)
    requires Chunks(sb, base, txns, ino, off, addr) && History(disks, L, eps) && |disks[0]| == sb.size
    requires Follows(Layout32(sb), txns, eps, sb.size) && SameHome(disks[0], Image(Layout32(sb), base, sb.size), L)
    ensures var m, g := Whole(txns, eps), Decode(sb, disks[|eps|]);
            && (exists o :: Sound(sb, g, o)) && (m > 0 ==> off <= |Contents(base, ino)|)
            && Contents(g, ino) ==
                 (if m == 0 then Contents(base, ino) else Spliced(Contents(base, ino), off, addr[..Done(m, |addr|)]))
            && forall i :: i != ino ==> Contents(g, i) == Contents(base, i)
  {
    hide Sound, Storable, Chunks, SameHome, Follows, Decode, Image, Contents, Spliced;
    LayoutEncodes(sb);
    FilewriteCrash(sb, Layout32(sb), base, txns, ino, off, addr, disks, L, eps);
    var m, e := Whole(txns, eps), disks[|eps|];
    var fs := After(base, txns, m);
    HomeHolds(sb, e, fs, L);
    if m == 0 {
      DecodeBack(sb, e, base, owner);
    } else {
      var data, o := addr[..Done(m, |addr|)], txns[m - 1].owner;
      WrittenStorable(sb, base, fs, o, ino, off, data);
      DecodeBack(sb, e, fs, o);
      forall i | i != ino ensures Contents(Decode(sb, e), i) == Contents(base, i) {
        C.OthersRead(base, fs, ino, i);
      }
    }
  }
}
