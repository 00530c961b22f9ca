/**
  The log over a whole history: transactions one after the other, each perhaps cut off by a crash
  and followed by a recovery that may itself crash.
 */
module LogHistory {
  import opened BufferCache
  import opened LogSpec

  // A transaction, and where it was cut off: after disk write number cut, with the given crashes
  // during recovery.
  datatype Episode = Episode(txn: seq<Update>, crashed: bool, cut: nat, crashes: seq<nat>)

  // It took the disk from d to e.
  ghost predicate Happens(d: Disk, L: Layout, ep: Episode, e: Disk)
  {
    && Loggable(d, L, ep.txn) && HeadIs(d, L, [])
    && var images := TransactionImages(d, L, ep.txn);
       if ep.crashed then ep.cut < |images| && Recovers(images[ep.cut], L, ep.crashes, e)
       else e == images[|images| - 1]
  }

  ghost predicate Recovers(d: Disk, L: Layout, crashes: seq<nat>, e: Disk)
  {
    exists ss :: Pending(d, L, ss) && var (f, tt) := AfterCrashes(d, L, ss, crashes); e == Recovered(f, L, tt)
  }

  // The header with the sector list reached the disk.
  predicate Commits(ep: Episode)
  {
    !ep.crashed || ep.cut > |ep.txn|
  }

  // The header tells what is pending.
  lemma PendingUnique(d: Disk, L: Layout, ss: seq<nat>, tt: seq<nat>)
    requires Pending(d, L, ss) && Pending(d, L, tt)
    ensures ss == tt
  {
  }

  lemma LastImage(d: Disk, L: Layout, txn: seq<Update>)
    requires Loggable(d, L, txn) && HeadIs(d, L, [])
    ensures var images := TransactionImages(d, L, txn);
            && |images| > 0 && |images[|images| - 1]| == |d| && Fits(images[|images| - 1], L)
            && HeadIs(images[|images| - 1], L, []) && SameHome(images[|images| - 1], Overlay(d, txn), L)
  {
    hide Logged, InstallImages, Recovered, WriteHead, SameHome;
    var images := TransactionImages(d, L, txn);
    var k := |images| - 1;
    var ss := ImageRecovers(d, L, txn, k);
    TransactionImageAt(d, L, txn, k);
    if Sectors(txn) == [] {
      NothingLogged(txn);
      LogsNothing(d, L);
      assert txn[..k] == [];
    } else {
      CommittedMeansInstalled(d, L, txn);
      var e := WriteHead(Logged(d, L, txn), L, Sectors(txn));
      EndsRecovered(e, L, Sectors(txn));
    }
  }

  lemma NothingLogged(txn: seq<Update>)
    requires Sectors(txn) == []
    ensures txn == []
  {
  }

  lemma LogsNothing(d: Disk, L: Layout)
    requires Loggable(d, L, [])
    ensures Logged(d, L, []) == d && Overlay(d, []) == d && SameHome(d, d, L)
  {
  }

  // Installation ends in what recovery would leave.
  lemma EndsRecovered(e: Disk, L: Layout, ss: seq<nat>)
    requires Pending(e, L, ss)
    ensures |InstallImages(e, L, ss)| == |ss| + 1 && InstallImages(e, L, ss)[|ss|] == Recovered(e, L, ss)
  {
  }

  // One episode: all of the transaction if it commits, nothing of it otherwise.
  lemma EpisodeAtomic(d: Disk, L: Layout, ep: Episode, e: Disk)
    requires Happens(d, L, ep, e)
    ensures |e| == |d| && Fits(e, L) && HeadIs(e, L, [])
    ensures SameHome(e, if Commits(ep) then Overlay(d, ep.txn) else d, L)
  {
    hide TransactionImages, AfterCrashes, Recovered, WriteHead;
    if ep.crashed {
      var image := TransactionImages(d, L, ep.txn)[ep.cut];
      var ss :| Pending(image, L, ss)
          && var (f, tt) := AfterCrashes(image, L, ss, ep.crashes); e == Recovered(f, L, tt);
      var ss' := CrashAtomicity(d, L, ep.txn, ep.cut, ep.crashes);
      PendingUnique(image, L, ss, ss');
    } else {
      LastImage(d, L, ep.txn);
    }
  }

  // ---------- histories ----------

  ghost predicate History(disks: seq<Disk>, L: Layout, eps: seq<Episode>)
  {
    |disks| == |eps| + 1 && forall i :: 0 <= i < |eps| ==> Happens(disks[i], L, eps[i], disks[i + 1])
  }

  // The updates of the committed transactions, in order.
  function Committed(eps: seq<Episode>): seq<Update>
  {
    if eps == [] then []
    else Committed(eps[..|eps| - 1]) + if Commits(eps[|eps| - 1]) then eps[|eps| - 1].txn else []
  }

  lemma {:induction false} OverlayBoth(d: Disk, a: seq<Update>, b: seq<Update>)
    requires (forall i :: 0 <= i < |a| ==> a[i].sector < |d|) && (forall i :: 0 <= i < |b| ==> b[i].sector < |d|)
    ensures Overlay(d, a + b) == Overlay(Overlay(d, a), b)
    decreases |b|
  {
    if b == [] {
      assert a + b == a;
    } else {
      assert (a + b)[..|a + b| - 1] == a + b[..|b| - 1];
      OverlayBoth(d, a, b[..|b| - 1]);
    }
  }

  lemma {:induction false} OverlaySame(d: Disk, e: Disk, L: Layout, txn: seq<Update>)
    requires SameHome(d, e, L) && forall i :: 0 <= i < |txn| ==> txn[i].sector < |d|
    ensures SameHome(Overlay(d, txn), Overlay(e, txn), L)
    decreases |txn|
  {
    if txn != [] {
      OverlaySame(d, e, L, txn[..|txn| - 1]);
    }
  }

  // Over any history the disk outside the log is the first disk with exactly the committed
  // transactions applied, in order.
  lemma {:induction false} HistoryAtomic(disks: seq<Disk>, L: Layout, eps: seq<Episode>)
    requires History(disks, L, eps)
    ensures forall i :: 0 <= i < |Committed(eps)| ==> Committed(eps)[i].sector < |disks[0]|
    ensures SameHome(disks[|eps|], Overlay(disks[0], Committed(eps)), L)
    ensures |eps| > 0 ==> |disks[|eps|]| == |disks[0]|
    decreases |eps|
  {
    hide Happens, SameHome;
    if eps == [] {
      SameHomeSelf(disks[0], L);
    } else {
      var n := |eps| - 1;
      var front := eps[..n];
      assert History(disks[..n + 1], L, front);
      HistoryAtomic(disks[..n + 1], L, front);
      HistoryStep(disks[0], disks[n], disks[n + 1], L, Committed(front), eps[n]);
    }
  }

  lemma SameHomeSelf(d: Disk, L: Layout)
    ensures SameHome(d, d, L)
  {
  }

  lemma HistoryStep(d0: Disk, d: Disk, e: Disk, L: Layout, done: seq<Update>, ep: Episode)
    requires Happens(d, L, ep, e) && |d| == |d0| && forall i :: 0 <= i < |done| ==> done[i].sector < |d0|
    requires SameHome(d, Overlay(d0, done), L)
    ensures |e| == |d0|
    ensures var all := done + if Commits(ep) then ep.txn else [];
            (forall i :: 0 <= i < |all| ==> all[i].sector < |d0|) && SameHome(e, Overlay(d0, all), L)
  {
    hide TransactionImages;
    EpisodeAtomic(d, L, ep, e);
    var now := if Commits(ep) then ep.txn else [];
    OverlayBoth(d0, done, now);
    OverlaySame(d, Overlay(d0, done), L, now);
  }
}
