/**
  A transaction of the file system on a disk that may crash: log_writes of fs.c through the log of
  log.c.  How a sector encodes its part of the file system is left open.
 */
module FsCrash {
  import opened Finite
  import B = BufferCache
  import opened LogSpec
  import opened LogHistory
  import opened FsSpec
  import opened FsLog

  type Encoding = (Fs, int) -> B.Block

  // The contents of a sector depend on what the file system keeps in that sector.
  ghost predicate Encodes(sb: Super, enc: Encoding)
  {
    forall a, b, s :: SectorSame(sb, a, b, s) ==> enc(a, s) == enc(b, s)
  }

  ghost function Image(enc: Encoding, fs: Fs, n: nat): (d: B.Disk)
    ensures |d| == n
  {
    seq(n, s requires 0 <= s < n => enc(fs, s))
  }

  ghost predicate OnDisk(log: seq<Write>, n: nat)
  {
    forall k :: 0 <= k < |log| ==> 0 <= log[k].sector < n
  }

  // The log_writes as updates of sectors.
  ghost function Updates(enc: Encoding, log: seq<Write>, n: nat): (r: seq<Update>)
    requires OnDisk(log, n)
    ensures |r| == |log|
  {
    seq(|log|, k requires 0 <= k < |log| => Update(log[k].sector, enc(log[k].fs, log[k].sector)))
  }

  lemma {:induction false} ReplayShape(sb: Super, base: Fs, log: seq<Write>)
    ensures SameShape(base, Replay(sb, base, log))
  {
    if log != [] {
      ReplayShape(sb, base, log[..|log| - 1]);
    }
  }

  lemma SectorOf(sb: Super, from: Fs, to: Fs, s: int, x: int)
    requires SameShape(from, to)
    ensures SectorSame(sb, WithSector(sb, from, to, s), if x == s then to else from, x)
  {
  }

  // The log applied to the old image is the image of the log replayed.
  lemma {:induction false} OverlayIsReplay(sb: Super, enc: Encoding, base: Fs, log: seq<Write>, n: nat)
    requires Encodes(sb, enc) && OnDisk(log, n) && forall k :: 0 <= k < |log| ==> SameShape(base, log[k].fs)
    ensures Overlay(Image(enc, base, n), Updates(enc, log, n)) == Image(enc, Replay(sb, base, log), n)
    decreases |log|
  {
    if log != [] {
      var m := |log| - 1;
      var front, w := log[..m], log[m];
      OverlayIsReplay(sb, enc, base, front, n);
      ReplayShape(sb, base, front);
      assert Updates(enc, log, n)[..m] == Updates(enc, front, n);
      var r := Replay(sb, base, front);
      var before, after := Image(enc, r, n), Image(enc, Replay(sb, base, log), n);
      forall x | 0 <= x < n ensures before[w.sector := enc(w.fs, w.sector)][x] == after[x] {
        SectorOf(sb, r, w.fs, w.sector, x);
      }
      assert before[w.sector := enc(w.fs, w.sector)] == after;
    }
  }

  ghost predicate Writes(txn: seq<Update>, s: nat)
  {
    exists k :: 0 <= k < |txn| && txn[k].sector == s
  }

  lemma {:induction false} SectorsOf(txn: seq<Update>)
    ensures forall i :: 0 <= i < |Sectors(txn)| ==> Writes(txn, Sectors(txn)[i])
    ensures forall i, j :: 0 <= i < j < |Sectors(txn)| ==> Sectors(txn)[i] != Sectors(txn)[j]
  {
    if txn != [] {
      var m := |txn| - 1;
      SectorsOf(txn[..m]);
      var was, now := Sectors(txn[..m]), Sectors(txn);
      forall i | 0 <= i < |now| ensures Writes(txn, now[i]) {
        if i < |was| {
          assert Writes(txn[..m], was[i]);
          var k :| 0 <= k < m && txn[..m][k].sector == was[i];
          assert txn[k].sector == now[i];
        } else {
          assert txn[m].sector == now[i];
        }
      }
    }
  }

  // A transaction that logs few sectors, all outside the log, fits the log.
  lemma FewFit(d: B.Disk, L: Layout, enc: Encoding, log: seq<Write>, logged: set<int>)
    requires Fits(d, L) && OnDisk(log, |d|) && (forall k :: 0 <= k < |log| ==> log[k].sector in logged)
    requires (forall s :: s in logged ==> 0 <= s < |d| && Home(L, s)) && |logged| <= LOGSIZE && |logged| < L.size
    ensures Loggable(d, L, Updates(enc, log, |d|))
  {
    var txn := Updates(enc, log, |d|);
    SectorsOf(txn);
    var ss := Sectors(txn);
    forall i | 0 <= i < |ss| ensures ss[i] in logged {
      assert Writes(txn, ss[i]);
      var k :| 0 <= k < |txn| && txn[k].sector == ss[i];
      assert log[k].sector in logged;
    }
    DistinctElements(ss);
    SubsetSize(Elements(ss), logged);
  }

  // So does every chunk of filewrite, in the log that mkfs leaves at the end of the disk.
  lemma ChunkFits(sb: Super, d: B.Disk, L: Layout, enc: Encoding, base: Fs, log: seq<Write>, logged: set<int>, now: Fs)
    requires Covered(sb, base, log, logged, now) && |logged| < LOGSIZE && forall s :: s in logged ==>
               0 <= s < sb.size - sb.nlog
    requires |d| == sb.size >= sb.nlog >= LOGSIZE && L == Layout(sb.size - sb.nlog, sb.nlog) && Fits(d, L)
    ensures OnDisk(log, |d|) && Loggable(d, L, Updates(enc, log, |d|))
  {
    FewFit(d, L, enc, log, logged);
  }

  // Stop a file-system transaction after any disk write, crash during recovery as often as you
  // like: the disk outside the log holds the file system from before it or from after it.
  lemma TransactionAtomic(sb: Super, enc: Encoding, base: Fs, log: seq<Write>, logged: set<int>, now: Fs,
                          d: B.Disk, L: Layout, k: nat, crashes: seq<nat>) returns (ss: seq<nat>)
    requires Encodes(sb, enc) && Covered(sb, base, log, logged, now) && OnDisk(log, |d|)
    requires Loggable(d, L, Updates(enc, log, |d|)) && HeadIs(d, L, []) && SameHome(d, Image(enc, base, |d|), L)
    requires k < |TransactionImages(d, L, Updates(enc, log, |d|))|
    ensures var e := TransactionImages(d, L, Updates(enc, log, |d|))[k];
            && Pending(e, L, ss)
            && var (f, tt) := AfterCrashes(e, L, ss, crashes);
               && SameHome(Recovered(f, L, tt), Image(enc, if k <= |log| then base else now, |d|), L)
               && HeadIs(Recovered(f, L, tt), L, [])
  {
    hide TransactionImages, AfterCrashes, Recovered;
    var txn := Updates(enc, log, |d|);
    ss := CrashAtomicity(d, L, txn, k, crashes);
    OverlayIsReplay(sb, enc, base, log, |d|);
    OverlaySame(d, Image(enc, base, |d|), L, txn);
  }
}
