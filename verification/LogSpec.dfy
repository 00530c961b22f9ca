/**
  What log.c writes to the disk, as functions on disk images, and why a crash between any two
  of those writes is harmless.  The class in Log.dfy is proved to write exactly these images.
 */
module LogSpec {
  import opened Finite
  import opened BufferCache

  const LOGSIZE: nat := 10

  // The log occupies sectors start .. start+size-1; the first of them is the header.
  datatype Layout = Layout(start: nat, size: nat)

  datatype Update = Update(sector: nat, data: Block)

  ghost predicate Fits(d: Disk, L: Layout)
  {
    0 < L.size && L.start + L.size <= |d| && |d[L.start].words| == WORDS
  }

  predicate Home(L: Layout, s: int)
  {
    s < L.start || L.start + L.size <= s
  }

  // The first position of s in ss, or |ss|: where log_write puts sector s.
  function Position(ss: seq<nat>, s: nat): (r: nat)
    ensures r <= |ss| && (r < |ss| ==> ss[r] == s)
    ensures forall i :: 0 <= i < r ==> ss[i] != s
  {
    if ss == [] || ss[0] == s then 0 else 1 + Position(ss[1..], s)
  }

  // Two images that agree outside the log.
  ghost predicate SameHome(a: Disk, b: Disk, L: Layout)
  {
    |a| == |b| && forall s :: 0 <= s < |a| && Home(L, s) ==> a[s] == b[s]
  }

  // A list of sectors that may stand in a header.
  ghost predicate Listable(ss: seq<nat>, size: nat, L: Layout)
  {
    && |ss| <= LOGSIZE && |ss| < L.size
    && (forall i :: 0 <= i < |ss| ==> ss[i] < size && Home(L, ss[i]))
    && (forall i, j :: 0 <= i < j < |ss| ==> ss[i] != ss[j])
  }

  // write_head stores the count in word 0 and the sector numbers after it, and leaves the rest.
  function WithHead(b: Block, ss: seq<nat>): (r: Block)
    requires |ss| <= LOGSIZE && |b.words| == WORDS
    ensures |r.words| == WORDS
  {
    Block([|ss|] + ss + b.words[|ss| + 1..])
  }

  ghost predicate HeadIs(d: Disk, L: Layout, ss: seq<nat>)
    requires Fits(d, L)
  {
    |ss| <= LOGSIZE && d[L.start].words[0] == |ss| && d[L.start].words[1..|ss| + 1] == ss
  }

  // The disk's header lists ss, and ss may be installed.
  ghost predicate Pending(d: Disk, L: Layout, ss: seq<nat>)
  {
    Fits(d, L) && Listable(ss, |d|, L) && HeadIs(d, L, ss)
  }

  function WriteHead(d: Disk, L: Layout, ss: seq<nat>): (r: Disk)
    requires Fits(d, L) && |ss| <= LOGSIZE
    ensures |r| == |d| && Fits(r, L) && HeadIs(r, L, ss)
  {
    d[L.start := WithHead(d[L.start], ss)]
  }

  // The image after the first k log blocks have been copied home.
  function Install(d: Disk, L: Layout, ss: seq<nat>, k: nat): (r: Disk)
    requires Fits(d, L) && Listable(ss, |d|, L) && k <= |ss|
    ensures |r| == |d| && r[L.start] == d[L.start]
  {
    if k == 0 then d else
      var e := Install(d, L, ss, k - 1);
      e[ss[k - 1] := e[L.start + k]]
  }

  // Every image recovery or commit produces while installing ss, then the one with an empty header.
  function InstallImages(d: Disk, L: Layout, ss: seq<nat>): (r: seq<Disk>)
    requires Fits(d, L) && Listable(ss, |d|, L)
    ensures |r| == |ss| + 1
  {
    seq(|ss|, i requires 0 <= i < |ss| => Install(d, L, ss, i + 1)) + [WriteHead(Install(d, L, ss, |ss|), L, [])]
  }

  lemma ImagesPrefix(d: Disk, L: Layout, ss: seq<nat>, k: nat)
    requires Fits(d, L) && Listable(ss, |d|, L) && k < |ss|
    ensures InstallImages(d, L, ss)[..k + 1] == InstallImages(d, L, ss)[..k] + [Install(d, L, ss, k + 1)]
    ensures Install(d, L, ss, k + 1) == Install(d, L, ss, k)[ss[k] := Install(d, L, ss, k)[L.start + k + 1]]
  {
    var im := InstallImages(d, L, ss);
    assert im[k] == Install(d, L, ss, k + 1);
    hide *;
    assert im[..k + 1] == im[..k] + [im[k]];
  }

  // What Install leaves in a listed sector, said without its recursion ...
  lemma {:induction false} InstallHit(d: Disk, L: Layout, ss: seq<nat>, k: nat, i: nat)
    requires Fits(d, L) && Listable(ss, |d|, L) && i < k <= |ss|
    ensures Install(d, L, ss, k)[ss[i]] == d[L.start + i + 1]
  {
    if i < k - 1 {
      InstallHit(d, L, ss, k - 1, i);
    } else {
      InstallMiss(d, L, ss, k - 1, L.start + k);
    }
  }

  // ... and in any other.
  lemma {:induction false} InstallMiss(d: Disk, L: Layout, ss: seq<nat>, k: nat, s: nat)
    requires Fits(d, L) && Listable(ss, |d|, L) && k <= |ss| && s < |d|
    requires forall i :: 0 <= i < k ==> ss[i] != s
    ensures Install(d, L, ss, k)[s] == d[s]
  {
    if k > 0 {
      InstallMiss(d, L, ss, k - 1, s);
    }
  }

  // Installing again after any part of an installation gives the same image.
  lemma InstallResumes(d: Disk, L: Layout, ss: seq<nat>, k: nat)
    requires Fits(d, L) && Listable(ss, |d|, L) && k <= |ss|
    ensures Install(Install(d, L, ss, k), L, ss, |ss|) == Install(d, L, ss, |ss|)
  {
    var e := Install(d, L, ss, k);
    forall s | 0 <= s < |d|
      ensures Install(e, L, ss, |ss|)[s] == Install(d, L, ss, |ss|)[s]
    {
      var i := Position(ss, s);
      if i < |ss| {
        InstallHit(e, L, ss, |ss|, i);
        InstallHit(d, L, ss, |ss|, i);
        InstallMiss(d, L, ss, k, L.start + i + 1);
      } else {
        InstallMiss(e, L, ss, |ss|, s);
        InstallMiss(d, L, ss, |ss|, s);
        InstallMiss(d, L, ss, k, s);
      }
    }
  }

  // The image a completed recovery leaves.
  function Recovered(d: Disk, L: Layout, ss: seq<nat>): (r: Disk)
    requires Pending(d, L, ss)
    ensures |r| == |d| && Fits(r, L) && HeadIs(r, L, [])
  {
    WriteHead(Install(d, L, ss, |ss|), L, [])
  }

  // A crash after any write of recovery, and any later recovery of what that crash left, ends
  // where the undisturbed recovery ends.
  lemma CrashedRecovery(d: Disk, L: Layout, ss: seq<nat>, k: nat)
    requires Pending(d, L, ss) && k <= |ss|
    ensures var e := InstallImages(d, L, ss)[k];
            var tt := if k < |ss| then ss else [];
            Pending(e, L, tt) && Recovered(e, L, tt) == Recovered(d, L, ss)
  {
    if k < |ss| {
      InstallResumes(d, L, ss, k + 1);
    } else {
      var e := InstallImages(d, L, ss)[k];
      assert e == Recovered(d, L, ss);
      assert WriteHead(e, L, []) == e;
    }
  }

  // The image left by a series of crashes: crash j strikes after crashes[j] writes of the
  // recovery that was running, or after that recovery had finished.  The second component is
  // the list in that image's header.
  function AfterCrashes(d: Disk, L: Layout, ss: seq<nat>, crashes: seq<nat>): (r: (Disk, seq<nat>))
    requires Pending(d, L, ss)
    ensures Pending(r.0, L, r.1)
    decreases |crashes|
  {
    if crashes == [] then (d, ss)
    else if crashes[0] == 0 then AfterCrashes(d, L, ss, crashes[1..])
    else
      var k := if crashes[0] <= |ss| then crashes[0] - 1 else |ss|;
      CrashedRecovery(d, L, ss, k);
      AfterCrashes(InstallImages(d, L, ss)[k], L, if k < |ss| then ss else [], crashes[1..])
  }

  lemma {:induction false} RecoverySurvivesCrashes(d: Disk, L: Layout, ss: seq<nat>, crashes: seq<nat>)
    requires Pending(d, L, ss)
    ensures var (e, tt) := AfterCrashes(d, L, ss, crashes);
            Recovered(e, L, tt) == Recovered(d, L, ss)
    decreases |crashes|
  {
    if crashes != [] {
      if crashes[0] == 0 {
        RecoverySurvivesCrashes(d, L, ss, crashes[1..]);
      } else {
        var k := if crashes[0] <= |ss| then crashes[0] - 1 else |ss|;
        CrashedRecovery(d, L, ss, k);
        RecoverySurvivesCrashes(InstallImages(d, L, ss)[k], L, if k < |ss| then ss else [], crashes[1..]);
      }
    }
  }

  // ---------- one transaction ----------

  function Listed(ss: seq<nat>, s: nat): (r: seq<nat>)
  {
    if Position(ss, s) == |ss| then ss + [s] else ss
  }

  // The sectors a transaction touches, in the order they enter the log.
  function Sectors(txn: seq<Update>): (r: seq<nat>)
  {
    if txn == [] then [] else Listed(Sectors(txn[..|txn| - 1]), txn[|txn| - 1].sector)
  }

  // The reference meaning of a transaction: each sector gets the last value logged for it.
  function Overlay(d: Disk, txn: seq<Update>): (r: Disk)
    requires forall i :: 0 <= i < |txn| ==> txn[i].sector < |d|
    ensures |r| == |d|
  {
    if txn == [] then d else
      Overlay(d, txn[..|txn| - 1])[txn[|txn| - 1].sector := txn[|txn| - 1].data]
  }

  ghost predicate Loggable(d: Disk, L: Layout, txn: seq<Update>)
  {
    Fits(d, L) && (forall i :: 0 <= i < |txn| ==> txn[i].sector < |d|) && Listable(Sectors(txn), |d|, L)
  }

  // What log_write(s, data) makes of the image when the list in memory is ss.
  function LogBlock(d: Disk, L: Layout, ss: seq<nat>, u: Update): (r: Disk)
    requires L.start + Position(ss, u.sector) + 1 < |d|
    ensures |r| == |d|
  {
    d[L.start + Position(ss, u.sector) + 1 := u.data]
  }

  lemma PrefixLoggable(d: Disk, L: Layout, txn: seq<Update>, k: nat)
    requires Loggable(d, L, txn) && k <= |txn|
    ensures Loggable(d, L, txn[..k])
    ensures Sectors(txn[..k]) <= Sectors(txn)
  {
    if k < |txn| {
      var p := txn[..|txn| - 1];
      assert Sectors(p) <= Sectors(txn);
      assert p[..k] == txn[..k];
      PrefixLoggable(d, L, p, k);
    } else {
      assert txn[..k] == txn;
    }
  }

  // The image after all log_writes of txn, before the header is written.
  function Logged(d: Disk, L: Layout, txn: seq<Update>): (r: Disk)
    requires Loggable(d, L, txn)
    ensures |r| == |d| && r[L.start] == d[L.start]
    decreases |txn|
  {
    if txn == [] then d else
      var p := txn[..|txn| - 1];
      PrefixLoggable(d, L, txn, |txn| - 1);
      LogBlock(Logged(d, L, p), L, Sectors(p), txn[|txn| - 1])
  }

  // commit_trans: header, installation, empty header; nothing when nothing was logged.
  function CommitImages(d: Disk, L: Layout, ss: seq<nat>): (r: seq<Disk>)
    requires Fits(d, L) && Listable(ss, |d|, L)
  {
    if ss == [] then [] else [WriteHead(d, L, ss)] + InstallImages(WriteHead(d, L, ss), L, ss)
  }

  // The images of a transaction up to its last log_write, from the one it starts with.
  function LoggedImages(d: Disk, L: Layout, txn: seq<Update>): (r: seq<Disk>)
    requires Loggable(d, L, txn)
    ensures |r| == |txn| + 1
  {
    seq(|txn| + 1, k requires 0 <= k <= |txn| => PrefixLoggable(d, L, txn, k); Logged(d, L, txn[..k]))
  }

  // Every image of a transaction.
  function TransactionImages(d: Disk, L: Layout, txn: seq<Update>): (r: seq<Disk>)
    requires Loggable(d, L, txn)
  {
    LoggedImages(d, L, txn) + CommitImages(Logged(d, L, txn), L, Sectors(txn))
  }

  // The sectors a transaction has pinned in the cache, with their values.
  function LastValues(txn: seq<Update>): (r: map<nat, Block>)
  {
    if txn == [] then map[] else
      LastValues(txn[..|txn| - 1])[txn[|txn| - 1].sector := txn[|txn| - 1].data]
  }

  lemma {:induction false} PinnedAreListed(txn: seq<Update>)
    ensures LastValues(txn).Keys == Elements(Sectors(txn))
    ensures |LastValues(txn).Keys| <= |Sectors(txn)|
  {
    if txn != [] {
      var p, u := txn[..|txn| - 1], txn[|txn| - 1];
      PinnedAreListed(p);
      assert LastValues(txn).Keys == LastValues(p).Keys + {u.sector};
      var k := Position(Sectors(p), u.sector);
      assert k < |Sectors(p)| ==> Sectors(p)[k] in Sectors(p);
      assert Sectors(txn) == Sectors(p) || Sectors(txn) == Sectors(p) + [u.sector];
    }
  }

  // One more log_write extends the transaction.
  lemma Extend(d: Disk, L: Layout, txn: seq<Update>, u: Update)
    requires Loggable(d, L, txn) && u.sector < |d| && Home(L, u.sector)
    requires |Sectors(txn)| < LOGSIZE && |Sectors(txn)| < L.size - 1
    ensures Loggable(d, L, txn + [u])
    ensures Sectors(txn + [u]) == Listed(Sectors(txn), u.sector)
    ensures L.start + Position(Sectors(txn), u.sector) + 1 < |d|
    ensures Logged(d, L, txn + [u]) == LogBlock(Logged(d, L, txn), L, Sectors(txn), u)
    ensures LastValues(txn + [u]) == LastValues(txn)[u.sector := u.data]
    ensures LoggedImages(d, L, txn + [u]) == LoggedImages(d, L, txn) + [Logged(d, L, txn + [u])]
  {
    var t := txn + [u];
    assert t[..|txn|] == txn;
    var ss := Sectors(txn);
    var k := Position(ss, u.sector);
    assert Sectors(t) == Listed(ss, u.sector);
    assert Loggable(d, L, t);
    var a, b := LoggedImages(d, L, t), LoggedImages(d, L, txn) + [Logged(d, L, t)];
    forall i | 0 <= i < |a| ensures a[i] == b[i] {
      if i <= |txn| {
        assert t[..i] == txn[..i];
      } else {
        assert t[..i] == t;
      }
    }
  }

  // Log slot i holds the value the goal has in the slot's sector.
  ghost predicate SlotHolds(e: Disk, L: Layout, ss: seq<nat>, goal: Disk, i: int)
  {
    0 <= i < |ss| ==> L.start + i + 1 < |e| && ss[i] < |goal| && e[L.start + i + 1] == goal[ss[i]]
  }

  ghost predicate SameAt(a: Disk, b: Disk, s: int)
  {
    0 <= s < |a| == |b| ==> a[s] == b[s]
  }

  // The log holds, slot by slot, the last value logged for each listed sector; nothing else moved.
  ghost predicate LogHolds(e: Disk, L: Layout, ss: seq<nat>, goal: Disk)
  {
    && |goal| == |e|
    && (forall i :: SlotHolds(e, L, ss, goal, i))
    && (forall s {:trigger SameAt(e, goal, s)} :: Home(L, s) && s >= 0 && Position(ss, s) == |ss| ==>
           SameAt(e, goal, s))
  }

  // One log_write keeps the log in step with the overlay.
  lemma LogBlockHolds(e: Disk, L: Layout, ss: seq<nat>, goal: Disk, u: Update)
    requires Fits(e, L) && LogHolds(e, L, ss, goal) && u.sector < |e| && Home(L, u.sector)
    requires Position(ss, u.sector) + 1 < L.size
    requires forall i, j :: 0 <= i < j < |ss| ==> ss[i] != ss[j]
    ensures LogHolds(LogBlock(e, L, ss, u), L, Listed(ss, u.sector), goal[u.sector := u.data])
  {
    hide LogBlock, Listed, SlotHolds, SameAt;
    var f, tt, goal' := LogBlock(e, L, ss, u), Listed(ss, u.sector), goal[u.sector := u.data];
    forall i ensures SlotHolds(f, L, tt, goal', i) {
      assert SlotHolds(e, L, ss, goal, i);
      LogBlockSlot(e, L, ss, goal, u, i);
    }
    forall s: int | Home(L, s) && s >= 0 && Position(tt, s) == |tt| ensures SameAt(f, goal', s) {
      ListedAt(ss, u.sector);
      Unlisted(ss, tt, s);
      assert SameAt(e, goal, s);
      LogBlockHome(e, L, ss, goal, u, s);
    }
  }

  lemma ListedAt(ss: seq<nat>, s: nat)
    ensures var tt, k := Listed(ss, s), Position(ss, s);
            k < |tt| && tt[k] == s && ss <= tt && forall i :: 0 <= i < |tt| && i != k ==> i < |ss| && tt[i] == ss[i]
  {
    hide Position;
  }

  lemma LogBlockSlot(e: Disk, L: Layout, ss: seq<nat>, goal: Disk, u: Update, i: int)
    requires Fits(e, L) && u.sector < |e| == |goal| && Position(ss, u.sector) + 1 < L.size
    requires SlotHolds(e, L, ss, goal, i) && forall a, b :: 0 <= a < b < |ss| ==> ss[a] != ss[b]
    ensures SlotHolds(LogBlock(e, L, ss, u), L, Listed(ss, u.sector), goal[u.sector := u.data], i)
  {
    hide Position, Listed;
    ListedAt(ss, u.sector);
  }

  lemma LogBlockHome(e: Disk, L: Layout, ss: seq<nat>, goal: Disk, u: Update, s: nat)
    requires Fits(e, L) && u.sector < |e| == |goal| && Position(ss, u.sector) + 1 < L.size && Home(L, s)
    requires SameAt(e, goal, s) && Position(Listed(ss, u.sector), s) == |Listed(ss, u.sector)|
    ensures SameAt(LogBlock(e, L, ss, u), goal[u.sector := u.data], s)
  {
    hide Position, Listed;
    ListedAt(ss, u.sector);
  }

  lemma Unlisted(ss: seq<nat>, tt: seq<nat>, s: nat)
    requires ss <= tt && Position(tt, s) == |tt|
    ensures Position(ss, s) == |ss|
  {
    var i := Position(ss, s);
    if i < |ss| {
      assert false;
    }
  }

  lemma {:induction false} LogHoldsLastValues(d: Disk, L: Layout, txn: seq<Update>)
    requires Loggable(d, L, txn) && HeadIs(d, L, [])
    ensures LogHolds(Logged(d, L, txn), L, Sectors(txn), Overlay(d, txn))
    ensures SameHome(Logged(d, L, txn), d, L) && HeadIs(Logged(d, L, txn), L, [])
    decreases |txn|
  {
    hide LogHolds, LogBlock, Listed, Position, Home;
    if txn == [] {
      NothingHeld(d, L);
    } else {
      var p, u := txn[..|txn| - 1], txn[|txn| - 1];
      PrefixLoggable(d, L, txn, |txn| - 1);
      LogHoldsLastValues(d, L, p);
      ListedAt(Sectors(p), u.sector);
      LogBlockHolds(Logged(d, L, p), L, Sectors(p), Overlay(d, p), u);
      LogBlockAway(Logged(d, L, p), d, L, Sectors(p), u);
    }
  }

  lemma NothingHeld(d: Disk, L: Layout)
    ensures LogHolds(d, L, [], d) && SameHome(d, d, L)
  {
  }

  // A log_write leaves the disk outside the log as it is.
  lemma LogBlockAway(e: Disk, d: Disk, L: Layout, ss: seq<nat>, u: Update)
    requires SameHome(e, d, L) && Position(ss, u.sector) + 1 < L.size && L.start + L.size <= |e|
    ensures SameHome(LogBlock(e, L, ss, u), d, L)
  {
    hide Position;
  }

  // Installing the log's blocks at their sectors produces the goal outside the log.
  lemma InstallOverlays(e: Disk, L: Layout, ss: seq<nat>, goal: Disk)
    requires Fits(e, L) && Listable(ss, |e|, L) && LogHolds(e, L, ss, goal)
    ensures SameHome(WriteHead(Install(e, L, ss, |ss|), L, []), goal, L)
  {
    forall s | 0 <= s < |e| && Home(L, s)
      ensures Install(e, L, ss, |ss|)[s] == goal[s]
    {
      InstallReaches(e, L, ss, goal, s);
    }
  }

  lemma InstallReaches(e: Disk, L: Layout, ss: seq<nat>, goal: Disk, s: nat)
    requires Fits(e, L) && Listable(ss, |e|, L) && LogHolds(e, L, ss, goal)
    requires s < |e| && Home(L, s)
    ensures Install(e, L, ss, |ss|)[s] == goal[s]
  {
    hide Install;
    hide Listable;
    var i := Position(ss, s);
    if i < |ss| {
      InstallHit(e, L, ss, |ss|, i);
      assert SlotHolds(e, L, ss, goal, i);
    } else {
      InstallMiss(e, L, ss, |ss|, s);
      assert SameAt(e, goal, s);
    }
  }

  lemma HeadKeepsLog(e: Disk, L: Layout, ss: seq<nat>, goal: Disk)
    requires Fits(e, L) && Listable(ss, |e|, L) && LogHolds(e, L, ss, goal)
    ensures LogHolds(WriteHead(e, L, ss), L, ss, goal)
  {
    var f := WriteHead(e, L, ss);
    forall i ensures SlotHolds(f, L, ss, goal, i) {
      assert SlotHolds(e, L, ss, goal, i);
    }
    forall s: int | Home(L, s) && s >= 0 && Position(ss, s) == |ss| ensures SameAt(f, goal, s) {
      assert SameAt(e, goal, s);
    }
  }

  // Once the header is on disk, recovery produces the overlaid image.
  lemma CommittedMeansInstalled(d: Disk, L: Layout, txn: seq<Update>)
    requires Loggable(d, L, txn) && HeadIs(d, L, [])
    ensures var e := WriteHead(Logged(d, L, txn), L, Sectors(txn));
            Pending(e, L, Sectors(txn)) && SameHome(Recovered(e, L, Sectors(txn)), Overlay(d, txn), L)
  {
    LogHoldsLastValues(d, L, txn);
    HeadKeepsLog(Logged(d, L, txn), L, Sectors(txn), Overlay(d, txn));
    InstallOverlays(WriteHead(Logged(d, L, txn), L, Sectors(txn)), L, Sectors(txn), Overlay(d, txn));
  }

  lemma TransactionImageAt(d: Disk, L: Layout, txn: seq<Update>, k: nat)
    requires Loggable(d, L, txn) && k < |TransactionImages(d, L, txn)|
    ensures k <= |txn| ==> Loggable(d, L, txn[..k]) && TransactionImages(d, L, txn)[k] == Logged(d, L, txn[..k])
    ensures k == |txn| + 1 ==> TransactionImages(d, L, txn)[k] == WriteHead(Logged(d, L, txn), L, Sectors(txn))
    ensures k > |txn| + 1 ==>
              var e := WriteHead(Logged(d, L, txn), L, Sectors(txn));
              k - |txn| - 2 <= |Sectors(txn)|
              && TransactionImages(d, L, txn)[k] == InstallImages(e, L, Sectors(txn))[k - |txn| - 2]
  {
    hide InstallImages;
    hide Logged;
    if k <= |txn| {
      PrefixLoggable(d, L, txn, k);
    }
  }

  // Every image of a transaction recovers: to the old disk up to the last log_write, to the new
  // one from the header on.
  lemma ImageRecovers(d: Disk, L: Layout, txn: seq<Update>, k: nat) returns (ss: seq<nat>)
    requires Loggable(d, L, txn) && HeadIs(d, L, []) && k < |TransactionImages(d, L, txn)|
    ensures var e := TransactionImages(d, L, txn)[k];
            && Pending(e, L, ss)
            && SameHome(Recovered(e, L, ss), if k <= |txn| then d else Overlay(d, txn), L)
  {
    TransactionImageAt(d, L, txn, k);
    if k <= |txn| {
      LogHoldsLastValues(d, L, txn[..k]);
      ss := [];
      NothingPending(Logged(d, L, txn[..k]), L, d);
    } else {
      CommittedMeansInstalled(d, L, txn);
      ss := Sectors(txn);
      if k > |txn| + 1 {
        CrashedRecovery(WriteHead(Logged(d, L, txn), L, ss), L, ss, k - |txn| - 2);
        ss := if k - |txn| - 2 < |ss| then ss else [];
      }
    }
    hide *;
  }

  // Recovering an image with an empty header changes nothing outside the log.
  lemma NothingPending(e: Disk, L: Layout, d: Disk)
    requires Fits(e, L) && HeadIs(e, L, []) && SameHome(e, d, L)
    ensures Pending(e, L, []) && SameHome(Recovered(e, L, []), d, L)
  {
  }

  // Crash atomicity.  Stop a transaction after any of its disk writes, crash any number of times
  // during the recoveries that follow, let one recovery finish: outside the log the disk is as
  // before the transaction or as after all of it, and the latter exactly when the header with
  // the sector list had been written.
  lemma CrashAtomicity(d: Disk, L: Layout, txn: seq<Update>, k: nat, crashes: seq<nat>) returns (ss: seq<nat>)
    requires Loggable(d, L, txn) && HeadIs(d, L, []) && k < |TransactionImages(d, L, txn)|
    ensures var e := TransactionImages(d, L, txn)[k];
            && Pending(e, L, ss)
            && var (f, tt) := AfterCrashes(e, L, ss, crashes);
               && SameHome(Recovered(f, L, tt), if k <= |txn| then d else Overlay(d, txn), L)
               && HeadIs(Recovered(f, L, tt), L, [])
  {
    ss := ImageRecovers(d, L, txn, k);
    RecoverySurvivesCrashes(TransactionImages(d, L, txn)[k], L, ss, crashes);
  }
}
