/**
  The write-ahead log (log.c) as the code that runs: an in-memory header updated in place and
  sectors read and written through the buffer cache.  Each method is proved to put on the disk
  exactly the images of LogSpec, in that order.
 */
module Log {
  import opened Finite
  import opened BufferCache
  import opened LogSpec

  // Done, or the panic or the sleep that stops the call. Installation sleeps at position tail, with
  // the log block in buffer lb held.
  datatype Status = Done | TooBig | OutsideTransaction | Busy | CacheFull | Sleeps(tail: nat, lb: nat)

  // Only sectors outside the log are held between calls: log blocks are used by log.c alone.
  ghost predicate HoldsHome(buf: seq<Buf>, L: Layout)
  {
    forall i :: 0 <= i < |buf| && buf[i].busy ==> Home(L, buf[i].sector)
  }

  lemma LogNotHeld(buf: seq<Buf>, L: Layout, s: nat)
    requires HoldsHome(buf, L) && !Home(L, s)
    ensures !HeldBy(buf, s)
  {
  }

  lemma KeepsHome(a: seq<Buf>, b: seq<Buf>, L: Layout)
    requires HoldsHome(a, L) && SameHeld(a, b)
    ensures HoldsHome(b, L) && Held(a) == Held(b)
  {
  }

  lemma SameHeldTwice(a: seq<Buf>, b: seq<Buf>, c: seq<Buf>)
    requires SameHeld(a, b) && SameHeld(b, c)
    ensures SameHeld(a, c) && Held(a) == Held(c) && forall s :: HeldBy(c, s) ==> HeldBy(a, s)
  {
    forall s | HeldBy(c, s) ensures HeldBy(a, s) {
      var i :| 0 <= i < |c| && c[i].busy && c[i].sector == s;
      assert a[i].busy && a[i].sector == s;
    }
  }

  // Taking a buffer for a log block leaves what others hold as it is.
  lemma LogTaken(a: seq<Buf>, c: seq<Buf>, b: nat, x: Buf, L: Layout)
    requires SameHeld(a, c) && b < |c| && !c[b].busy && x.busy && HoldsHome(c, L)
    ensures SameHeld(a, LetGo(c[b := x], b)) && HoldsHome(LetGo(c[b := x], b), L)
  {
  }

  lemma LetGoHeld(c: seq<Buf>, b: nat)
    ensures Held(LetGo(c, b)) <= Held(c) && |Held(c)| <= |Held(LetGo(c, b))| + 1
    ensures b >= |c| ==> LetGo(c, b) == c
    ensures forall s :: HeldBy(LetGo(c, b), s) ==> HeldBy(c, s)
  {
    SubsetSize(Held(c), Held(LetGo(c, b)) + {b});
  }

  lemma SameAsSelf(a: seq<Buf>)
    ensures SameHeld(a, a)
  {
  }

  lemma HoldsMore(a: seq<Buf>, lb: nat, b: nat, x: Buf, L: Layout)
    requires HoldsHome(LetGo(a, lb), L) && b < |a| && !a[b].busy && (lb < |a| ==> a[lb].busy) && Home(L, x.sector)
    ensures HoldsHome(LetGo(a[b := x], lb), L)
  {
    var was, now := LetGo(a, lb), LetGo(a[b := x], lb);
    assert forall i :: 0 <= i < |a| && i != b ==> now[i] == was[i];
  }

  lemma HoldsLess(a: seq<Buf>, lb: nat, b: nat, L: Layout)
    requires HoldsHome(LetGo(a, lb), L) && b < |a| && b != lb
    ensures HoldsHome(LetGo(a[b := a[b].(busy := false)], lb), L)
  {
    var was, now := LetGo(a, lb), LetGo(a[b := a[b].(busy := false)], lb);
    assert forall i :: 0 <= i < |a| && i != b ==> now[i] == was[i];
  }

  // Nobody holds the buffer of a listed sector from position a to position b.
  ghost predicate Clear(buf: seq<Buf>, ss: seq<nat>, a: nat, b: nat)
  {
    forall k :: a <= k < b && k < |ss| ==> !HeldBy(buf, ss[k])
  }

  // Position k is the first from a on whose sector somebody holds.
  ghost predicate StopsAt(buf: seq<Buf>, ss: seq<nat>, a: nat, k: nat)
  {
    a <= k < |ss| && HeldBy(buf, ss[k]) && Clear(buf, ss, a, k)
  }

  lemma NobodyHolds(buf: seq<Buf>, s: nat)
    requires Held(buf) == {}
    ensures !HeldBy(buf, s)
  {
    forall i | 0 <= i < |buf| ensures !buf[i].busy {
      assert i !in Held(buf);
    }
  }

  lemma NobodyListed(buf: seq<Buf>, ss: seq<nat>)
    requires Held(buf) == {}
    ensures forall k :: !StopsAt(buf, ss, 0, k)
  {
    hide HeldBy;
    forall i | 0 <= i < |ss| ensures !HeldBy(buf, ss[i]) {
      NobodyHolds(buf, ss[i]);
    }
  }

  lemma IdleHolds(buf: seq<Buf>, L: Layout)
    requires Held(buf) == {}
    ensures HoldsHome(buf, L)
  {
    forall i | 0 <= i < |buf| ensures !buf[i].busy {
      assert i !in Held(buf);
    }
  }

  // The same buffers are held, unchanged but for b's dirty mark.
  ghost predicate SameHeldBut(a: seq<Buf>, c: seq<Buf>, b: nat)
  {
    |a| == |c| && forall i :: 0 <= i < |a| ==>
      a[i].busy == c[i].busy && (a[i].busy ==> c[i] == if i == b then a[i].(dirty := true) else a[i])
  }

  lemma PinKeeps(a: seq<Buf>, m: seq<Buf>, b: nat, L: Layout)
    requires b < |a| && a[b].busy && SameHeld(a, m) && HoldsHome(a, L)
    ensures |m| == |a| && m[b] == a[b]
    ensures SameHeldBut(a, m[b := m[b].(dirty := true)], b)
    ensures HoldsHome(m[b := m[b].(dirty := true)], L)
  {
  }

  lemma TailGrows(trace: seq<Disk>, begun: nat, d: Disk)
    requires begun <= |trace|
    ensures (trace + [d])[begun..] == trace[begun..] + [d]
  {
  }

  lemma LogNotPinned(txn: seq<Update>, size: nat, L: Layout, s: nat)
    requires Listable(Sectors(txn), size, L) && !Home(L, s)
    ensures s !in LastValues(txn)
  {
    PinnedAreListed(txn);
    assert s !in Sectors(txn);
  }

  // The log block for a sector lies on the disk, and nobody holds or has pinned it.
  lemma SlotFree(d: Disk, L: Layout, txn: seq<Update>, s: nat, buf: seq<Buf>)
    requires Loggable(d, L, txn) && |Sectors(txn)| < L.size - 1 && HoldsHome(buf, L)
    ensures var i := Position(Sectors(txn), s);
            L.start + i + 1 < |d| && !HeldBy(buf, L.start + i + 1) && L.start + i + 1 !in LastValues(txn)
    ensures |LastValues(txn).Keys| <= |Sectors(txn)|
  {
    hide Elements;
    hide Sectors;
    hide LastValues;
    hide HoldsHome;
    hide HeldBy;
    hide Position;
    PinnedAreListed(txn);
    var i := Position(Sectors(txn), s);
    LogNotHeld(buf, L, L.start + i + 1);
    LogNotPinned(txn, |d|, L, L.start + i + 1);
  }

  lemma HeldIsHome(buf: seq<Buf>, L: Layout, b: nat)
    requires HoldsHome(buf, L) && b < |buf| && buf[b].busy
    ensures Home(L, buf[b].sector)
  {
  }

  // The facts commit_trans rests on.
  lemma CommitFacts(d: Disk, L: Layout, txn: seq<Update>)
    requires Loggable(d, L, txn) && HeadIs(d, L, [])
    ensures Fits(d, L) && Fits(Logged(d, L, txn), L)
    ensures Listable(Sectors(txn), |d|, L)
    ensures |LastValues(txn).Keys| <= |Sectors(txn)| && LastValues(txn).Keys == Elements(Sectors(txn))
    ensures L.start !in LastValues(txn)
    ensures |Sectors(txn)| == 0 ==> txn == []
    ensures |Overlay(d, txn)| == |d|
    ensures var e := WriteHead(Logged(d, L, txn), L, Sectors(txn));
            var f := Install(e, L, Sectors(txn), |Sectors(txn)|);
            Fits(f, L) && SameHome(WriteHead(f, L, []), Overlay(d, txn), L)
  {
    hide LastValues;
    PinnedAreListed(txn);
    LogNotPinned(txn, |d|, L, L.start);
    CommittedMeansInstalled(d, L, txn);
    SomethingListed(txn);
  }

  lemma NoneListed(buf: seq<Buf>, txn: seq<Update>)
    ensures |Sectors(txn)| == 0 ==> txn == [] && Clear(buf, Sectors(txn), 0, |Sectors(txn)|)
    ensures txn == [] ==> |Sectors(txn)| == 0
  {
    SomethingListed(txn);
  }

  // Recovery ends with the empty header.
  lemma ImagesEnd(d: Disk, L: Layout, ss: seq<nat>)
    requires Pending(d, L, ss)
    ensures InstallImages(d, L, ss) == InstallImages(d, L, ss)[..|ss|] + [Recovered(d, L, ss)]
    ensures Recovered(d, L, ss) == WriteHead(Install(d, L, ss, |ss|), L, [])
    ensures Fits(Install(d, L, ss, |ss|), L) && Fits(Recovered(d, L, ss), L) && HeadIs(Recovered(d, L, ss), L, [])
  {
    hide Install, WriteHead;
  }

  // An empty transaction writes nothing.
  lemma NothingCommitted(t: seq<Disk>, begun: nat, d: Disk, L: Layout)
    requires Loggable(d, L, []) && begun <= |t| && t[begun..] == LoggedImages(d, L, [])
    ensures t[begun..] == TransactionImages(d, L, [])
  {
  }

  // How far the history is into the transaction.
  lemma ImagesStart(t: seq<Disk>, begun: nat, d: Disk, L: Layout, txn: seq<Update>)
    requires Loggable(d, L, txn) && begun <= |t| && t[begun..] == LoggedImages(d, L, txn)
    ensures t[begun..] <= TransactionImages(d, L, txn)
  {
  }

  lemma HeaderWritten(t: seq<Disk>, begun: nat, d: Disk, L: Layout, txn: seq<Update>, t1: seq<Disk>)
    requires Loggable(d, L, txn) && begun <= |t| && t[begun..] == LoggedImages(d, L, txn)
    requires t1 == t + [WriteHead(Logged(d, L, txn), L, Sectors(txn))] && txn != []
    ensures begun <= |t1| && t1[begun..] == LoggedImages(d, L, txn) + [WriteHead(Logged(d, L, txn), L, Sectors(txn))]
  {
  }

  lemma CommitSoFar(t0: seq<Disk>, begun: nat, d: Disk, L: Layout, txn: seq<Update>, k: nat)
    requires Loggable(d, L, txn) && txn != [] && begun <= |t0| && k <= |Sectors(txn)|
    requires t0[begun..] == LoggedImages(d, L, txn) + [WriteHead(Logged(d, L, txn), L, Sectors(txn))]
    ensures var e := WriteHead(Logged(d, L, txn), L, Sectors(txn));
            (t0 + InstallImages(e, L, Sectors(txn))[..k])[begun..] <= TransactionImages(d, L, txn)
  {
    hide Logged, LoggedImages, WriteHead, Sectors;
    SomethingListed(txn);
    var e := WriteHead(Logged(d, L, txn), L, Sectors(txn));
    var im := InstallImages(e, L, Sectors(txn));
    assert (t0 + im[..k])[begun..] == t0[begun..] + im[..k];
    assert TransactionImages(d, L, txn) == t0[begun..] + im;
  }

  lemma CommitAll(t0: seq<Disk>, begun: nat, d: Disk, L: Layout, txn: seq<Update>, t1: seq<Disk>)
    requires Loggable(d, L, txn) && txn != [] && begun <= |t0|
    requires t0[begun..] == LoggedImages(d, L, txn) + [WriteHead(Logged(d, L, txn), L, Sectors(txn))]
    requires var e, ss := WriteHead(Logged(d, L, txn), L, Sectors(txn)), Sectors(txn);
             t1 == t0 + InstallImages(e, L, ss)[..|ss|] + [WriteHead(Install(e, L, ss, |ss|), L, [])]
    ensures begun <= |t1| && t1[begun..] == TransactionImages(d, L, txn)
  {
    hide Logged, LoggedImages, WriteHead, Sectors, Install;
    SomethingListed(txn);
    var e := WriteHead(Logged(d, L, txn), L, Sectors(txn));
    var im := InstallImages(e, L, Sectors(txn));
    assert im == im[..|Sectors(txn)|] + [WriteHead(Install(e, L, Sectors(txn), |Sectors(txn)|), L, [])];
    assert t1 == t0 + im;
    assert TransactionImages(d, L, txn) == t0[begun..] + im;
  }

  // With nothing logged, the image stands for itself.
  lemma NothingLogged(d: Disk, L: Layout)
    requires Fits(d, L) && HeadIs(d, L, [])
    ensures Loggable(d, L, []) && Sectors([]) == [] && LastValues([]) == map[] && LoggedImages(d, L, []) == [d]
    ensures Logged(d, L, []) == d && SameHome(d, Overlay(d, []), L)
  {
  }

  lemma SomethingListed(txn: seq<Update>)
    ensures |Sectors(txn)| == 0 <==> txn == []
  {
  }

  ghost predicate Unwritten(ss: seq<nat>, k: nat, s: nat)
    requires k <= |ss|
  {
    forall i :: 0 <= i < k ==> ss[i] != s
  }

  // What installation leaves pinned after k of the listed sectors have been written home.
  ghost function StillPinned(p: map<nat, Block>, ss: seq<nat>, k: nat): (r: map<nat, Block>)
    requires k <= |ss|
  {
    map s | s in p && Unwritten(ss, k, s) :: p[s]
  }

  lemma PinnedShrinks(p: map<nat, Block>, ss: seq<nat>, k: nat)
    requires k <= |ss|
    ensures |StillPinned(p, ss, k).Keys| <= |p.Keys|
  {
    SubsetSize(StillPinned(p, ss, k).Keys, p.Keys);
  }

  lemma OneLessPinned(p: map<nat, Block>, ss: seq<nat>, k: nat)
    requires k < |ss|
    ensures StillPinned(p, ss, k + 1) == StillPinned(p, ss, k) - {ss[k]}
  {
    var a, b := StillPinned(p, ss, k + 1), StillPinned(p, ss, k) - {ss[k]};
    forall s ensures s in a <==> s in b {
      assert Unwritten(ss, k + 1, s) <==> Unwritten(ss, k, s) && ss[k] != s;
    }
  }

  // The facts one round of installation rests on.
  lemma InstallRound(p: map<nat, Block>, ss: seq<nat>, size: nat, L: Layout, k: nat)
    requires L.start + L.size <= size && Listable(ss, size, L) && k < |ss|
    requires p.Keys == Elements(ss) || p == map[]
    ensures ss[k] < size && L.start + k + 1 < size && ss[k] != L.start + k + 1
    ensures var q := StillPinned(p, ss, k);
            && L.start + k + 1 !in q && |q.Keys| <= |p.Keys| && (ss[k] in q || q == map[])
            && (p.Keys == Elements(ss) ==> ss[k] in q)
            && StillPinned(p, ss, k + 1) == q - {ss[k]}
  {
    OneLessPinned(p, ss, k);
    PinnedShrinks(p, ss, k);
    assert L.start + k + 1 !in ss;
    assert Unwritten(ss, k, ss[k]);
  }

  // Where installation starts and ends.
  lemma InstallBounds(d: Disk, p: map<nat, Block>, ss: seq<nat>, L: Layout)
    requires Fits(d, L) && Listable(ss, |d|, L)
    requires p.Keys == Elements(ss) || p == map[]
    ensures Install(d, L, ss, 0) == d && StillPinned(p, ss, 0) == p
    ensures StillPinned(p, ss, |ss|) == map[]
  {
    hide Fits, Listable, StillPinned;
    NonePinned(p, ss);
  }

  // The buffers that installing needs besides those held.
  ghost function Room(p: map<nat, Block>): nat
  {
    if p == map[] then 1 else |p.Keys|
  }

  // The log block of position k is on the disk and nobody else's.
  lemma LogPlace(p: map<nat, Block>, ss: seq<nat>, d: Disk, L: Layout, k: nat)
    requires Fits(d, L) && Listable(ss, |d|, L) && k < |ss| && (p.Keys == Elements(ss) || p == map[])
    ensures L.start + k + 1 < |d| && !Home(L, L.start + k + 1)
    ensures L.start + k + 1 !in StillPinned(p, ss, k) && |StillPinned(p, ss, k).Keys| <= Room(p)
  {
    hide StillPinned, Elements, Room;
    InstallRound(p, ss, |d|, L, k);
    RoomShrinks(p, StillPinned(p, ss, k));
    RoomAtLeast(StillPinned(p, ss, k));
  }

  // And so is its home sector.
  lemma HomePlace(p: map<nat, Block>, ss: seq<nat>, d: Disk, L: Layout, k: nat)
    requires Fits(d, L) && Listable(ss, |d|, L) && k < |ss| && (p.Keys == Elements(ss) || p == map[])
    ensures L.start + k + 1 < |d| && ss[k] < |d| && ss[k] != L.start + k + 1
    ensures var q := StillPinned(p, ss, k);
            && L.start + k + 1 !in q && StillPinned(p, ss, k + 1) == q - {ss[k]}
            && (ss[k] !in q ==> q == map[] && |q.Keys| + 1 <= Room(p))
            && (p.Keys == Elements(ss) ==> ss[k] in q)
  {
    hide StillPinned, Elements, Room;
    InstallRound(p, ss, |d|, L, k);
    RoomShrinks(p, StillPinned(p, ss, k));
    RoomAtLeast(StillPinned(p, ss, k));
  }

  lemma RoomAtLeast(p: map<nat, Block>)
    ensures |p.Keys| <= Room(p) && (p == map[] ==> |p.Keys| + 1 <= Room(p))
  {
  }

  lemma RoomShrinks(p: map<nat, Block>, q: map<nat, Block>)
    requires |q.Keys| <= |p.Keys|
    ensures Room(q) <= Room(p)
  {
    if p != map[] {
      assert p.Keys != {};
    }
  }

  lemma SomePinned(p: map<nat, Block>, ss: seq<nat>)
    requires p.Keys == Elements(ss) && ss != []
    ensures Room(p) == |p.Keys|
  {
    assert ss[0] in p;
  }

  lemma SameListHeld(a: seq<Buf>, b: seq<Buf>, ss: seq<nat>)
    requires SameHeld(a, b)
    ensures Held(a) == Held(b) && forall k :: 0 <= k < |ss| ==> (HeldBy(a, ss[k]) <==> HeldBy(b, ss[k]))
  {
    hide HeldBy;
    SameAsSelf(a);
    SameAsSelf(b);
    SameHeldTwice(a, b, b);
    SameHeldBack(a, b);
    SameHeldTwice(b, a, a);
  }

  lemma SameHeldBack(a: seq<Buf>, b: seq<Buf>)
    requires SameHeld(a, b)
    ensures SameHeld(b, a)
  {
  }

  lemma NonePinned(p: map<nat, Block>, ss: seq<nat>)
    requires p.Keys == Elements(ss) || p == map[]
    ensures StillPinned(p, ss, 0) == p && StillPinned(p, ss, |ss|) == map[]
  {
    hide StillPinned;
    forall s: nat ensures s !in StillPinned(p, ss, |ss|) {
      PinnedAt(p, ss, |ss|, s);
      assert s in p ==> s in Elements(ss);
    }
    forall s: nat ensures (s in StillPinned(p, ss, 0) <==> s in p) && (s in p ==> StillPinned(p, ss, 0)[s] == p[s]) {
      PinnedAt(p, ss, 0, s);
    }
    SameMap(StillPinned(p, ss, |ss|), map[]);
    SameMap(StillPinned(p, ss, 0), p);
  }

  lemma PinnedAt(p: map<nat, Block>, ss: seq<nat>, k: nat, s: nat)
    requires k <= |ss|
    ensures s in StillPinned(p, ss, k) <==> s in p && forall i :: 0 <= i < k ==> ss[i] != s
    ensures s in StillPinned(p, ss, k) ==> StillPinned(p, ss, k)[s] == p[s]
  {
  }

  lemma SameMap(p: map<nat, Block>, q: map<nat, Block>)
    requires forall s :: (s in p <==> s in q) && (s in p ==> p[s] == q[s])
    ensures p == q
  {
  }

  class Logger {
    const cache: Cache
    const L: Layout
    var busy: bool             // a transaction is active
    var n: nat                 // lh.n
    const sector: array<nat>   // lh.sector

    ghost var base: Disk          // the disk when the transaction began
    ghost var txn: seq<Update>    // what it has logged
    ghost var begun: nat          // where base stands in the disk's history

    ghost predicate Wired()
      reads this, cache, cache.buf, cache.next, cache.prev, sector
    {
      && cache.Valid() && cache.buf.Length == NBUF
      && sector.Length == LOGSIZE && sector != cache.next && sector != cache.prev
      && n <= LOGSIZE
      && HoldsHome(cache.buf[..], L)
    }

    // Between calls the disk is the one the transaction's log_writes have made of base, its
    // history says so write by write, and the cache pins exactly what has been logged.
    ghost predicate Valid()
      reads this, cache, cache.buf, cache.next, cache.prev, sector
    {
      && Wired()
      && Loggable(base, L, txn) && HeadIs(base, L, [])
      && sector[..n] == Sectors(txn)
      && cache.disk == Logged(base, L, txn)
      && cache.pinned == LastValues(txn)
      && begun <= |cache.trace| && cache.trace[begun..] == LoggedImages(base, L, txn)
      && (!busy ==> txn == [])
    }

    ghost predicate Idle()
      reads cache, cache.buf
    {
      Held(cache.buf[..]) == {}
    }

    constructor (cache: Cache, start: nat, size: nat)
      requires cache.Valid() && Held(cache.buf[..]) == {}
      ensures Wired() && Idle() && this.cache == cache && L == Layout(start, size) && !busy && n == 0
      ensures fresh(sector)
    {
      IdleHolds(cache.buf[..], Layout(start, size));
      this.cache, this.L := cache, Layout(start, size);
      busy, n := false, 0;
      sector := new nat[LOGSIZE](_ => 0);
    }

    // Installation of ss at position tail, started from disk d0, pinned sectors p0 and history t0;
    // the log block of that position is in buffer lb, or lb is NBUF and it has yet to be read.
    ghost predicate Midway(ss: seq<nat>, tail: nat, lb: nat, d0: Disk, p0: map<nat, Block>, t0: seq<Disk>)
      reads this, cache, cache.buf, cache.next, cache.prev, sector
    {
      && cache.Valid() && cache.buf.Length == NBUF
      && sector.Length == LOGSIZE && sector != cache.next && sector != cache.prev
      && n <= LOGSIZE && sector[..n] == ss && tail <= n
      && Fits(d0, L) && Listable(ss, |d0|, L) && (p0.Keys == Elements(ss) || p0 == map[])
      && HoldsHome(LetGo(cache.buf[..], lb), L)
      && cache.disk == Install(d0, L, ss, tail) && cache.pinned == StillPinned(p0, ss, tail)
      && cache.trace == t0 + InstallImages(d0, L, ss)[..tail]
      && lb <= NBUF && (lb < NBUF ==> tail < n && cache.buf[lb] == LogBuf(tail))
    }

    // A buffer that holds the log block of position tail.
    ghost function LogBuf(tail: nat): Buf
      reads this, cache
    {
      var s := L.start + tail + 1;
      Buf(ROOTDEV, s, true, true, false, if s < |cache.disk| then cache.disk[s] else Block([]))
    }

    // Read the log block of position tail.
    method TakeLog(tail: nat, ghost ss: seq<nat>, ghost d0: Disk, ghost p0: map<nat, Block>, ghost t0: seq<Disk>)
      returns (r: Status, lb: nat)
      requires Midway(ss, tail, NBUF, d0, p0, t0) && tail < n
      modifies cache`slot, cache.buf
      ensures Midway(ss, tail, lb, d0, p0, t0) && (r.Done? || r.CacheFull?)
      ensures r.Done? ==> lb < NBUF
      ensures r.CacheFull? ==> lb == NBUF && NBUF <= |Held(old(cache.buf[..]))| + Room(p0)
      ensures Spare(old(cache.buf[..])) ==> r.Done?
      ensures SameHeld(old(cache.buf[..]), LetGo(cache.buf[..], lb))
    {
      hide StillPinned, Install, InstallImages, Listable, Cache.Valid, HoldsHome, Held, SameHeld, HeldBy, Elements,
           Room, LetGo;
      hide Home, Fits, Spare, NoneFor;
      if Spare(cache.buf[..]) {
        SpareIs(cache.buf[..], cache.slot, L.start + tail + 1);
      }
      lb := NBUF;
      LogPlace(p0, ss, d0, L, tail);
      LetGoHeld(cache.buf[..], NBUF);
      LogNotHeld(cache.buf[..], L, L.start + tail + 1);
      SameAsSelf(cache.buf[..]);
      var c := cache.Bread(L.start + tail + 1);
      if !c.Got? {
        return CacheFull, lb;
      }
      LogTaken(old(cache.buf[..]), old(cache.buf[..]), c.b, cache.buf[c.b], L);
      return Done, c.b;
    }

    // Copy the log block held in lb to its home sector.
    method PutHome(tail: nat, lb: nat, ghost ss: seq<nat>, ghost d0: Disk, ghost p0: map<nat, Block>,
                   ghost t0: seq<Disk>)
      returns (r: Status)
      requires Midway(ss, tail, lb, d0, p0, t0) && lb < NBUF
      modifies cache, cache.buf, cache.next, cache.prev
      ensures r.Done? || r.CacheFull? || r == Sleeps(tail, lb)
      ensures r.Done? ==>
                && Midway(ss, tail + 1, NBUF, d0, p0, t0) && SameHeld(LetGo(old(cache.buf[..]), lb), cache.buf[..])
                && Spare(cache.buf[..])
      ensures p0.Keys == Elements(ss) ==> !r.CacheFull?
      ensures !r.Done? ==> Midway(ss, tail, lb, d0, p0, t0) && cache.buf[..] == old(cache.buf[..])
      ensures r.CacheFull? ==> NBUF <= |Held(LetGo(old(cache.buf[..]), lb))| + Room(p0)
      ensures r.Sleeps? <==> HeldBy(LetGo(old(cache.buf[..]), lb), ss[tail])
    {
      hide StillPinned, Install, InstallImages, Listable, Cache.Valid, HoldsHome, Held, SameHeld, HeldBy, Elements,
           Room, LetGo;
      hide Fits, Home, Spare, NoneFor;
      HomePlace(p0, ss, d0, L, tail);
      ImagesPrefix(d0, L, ss, tail);
      LetGoHeld(cache.buf[..], lb);
      assert sector[tail] == sector[..n][tail];
      var c := cache.CopyHeld(lb, sector[tail]);
      if c.Sleep? {
        return Sleeps(tail, lb);
      }
      if !c.Got? {
        return CacheFull;
      }
      LetGoHeld(cache.buf[..], NBUF);
      KeepsHome(LetGo(old(cache.buf[..]), lb), cache.buf[..], L);
      return Done;
    }

    // Copy the listed log blocks to their home sectors, from position tail on.
    method InstallFrom(tail: nat, lb: nat, ghost ss: seq<nat>, ghost d0: Disk, ghost p0: map<nat, Block>,
                       ghost t0: seq<Disk>)
      returns (r: Status, at: nat, held: nat)
      requires Midway(ss, tail, lb, d0, p0, t0)
      modifies cache, cache.buf, cache.next, cache.prev
      ensures Midway(ss, at, held, d0, p0, t0) && tail <= at
      ensures SameHeld(LetGo(old(cache.buf[..]), lb), LetGo(cache.buf[..], held))
      ensures r.Done? || r.CacheFull? || r == Sleeps(at, held)
      ensures r.Done? ==> at == n && held == NBUF
      ensures r.CacheFull? ==> NBUF <= |Held(LetGo(old(cache.buf[..]), lb))| + Room(p0)
      ensures r.Sleeps? ==> held < NBUF && StopsAt(LetGo(old(cache.buf[..]), lb), ss, tail, at)
      ensures r.Done? ==> Clear(LetGo(old(cache.buf[..]), lb), ss, tail, at)
      ensures p0.Keys == Elements(ss) && (lb < NBUF || Spare(old(cache.buf[..]))) ==>
                !r.CacheFull? && (r.Done? ==> Spare(cache.buf[..]))
    {
      hide Midway, Held, SameHeld, HeldBy, Room, LetGo, Spare, Elements;
      ghost var b0 := LetGo(cache.buf[..], lb);
      SameAsSelf(b0);
      at, held := tail, lb;
      MidwayPlace(ss, at, held, d0, p0, t0);
      while at < n
        invariant Midway(ss, at, held, d0, p0, t0) && tail <= at <= n && held <= NBUF == cache.buf.Length
        invariant SameHeld(b0, LetGo(cache.buf[..], held)) && Clear(b0, ss, tail, at) && n == |ss|
        invariant p0.Keys == Elements(ss) && (lb < NBUF || Spare(old(cache.buf[..]))) ==>
                    held < NBUF || Spare(cache.buf[..])
      {
        r, held := InstallNext(at, held, ss, d0, p0, t0, b0);
        if !r.Done? {
          return;
        }
        at := at + 1;
        MidwayPlace(ss, at, held, d0, p0, t0);
      }
      MidwayPlace(ss, at, held, d0, p0, t0);
      return Done, at, held;
    }

    lemma MidwayPlace(ss: seq<nat>, tail: nat, lb: nat, d0: Disk, p0: map<nat, Block>, t0: seq<Disk>)
      requires Midway(ss, tail, lb, d0, p0, t0)
      ensures tail <= n == |ss| && lb <= NBUF == cache.buf.Length && (tail == n ==> lb == NBUF)
    {
    }

    // One round of it, where b0 are the buffers others held at the start.
    method InstallNext(tail: nat, lb: nat, ghost ss: seq<nat>, ghost d0: Disk, ghost p0: map<nat, Block>,
                       ghost t0: seq<Disk>,
                       ghost b0: seq<Buf>)
      returns (r: Status, held: nat)
      requires Midway(ss, tail, lb, d0, p0, t0) && tail < n && SameHeld(b0, LetGo(cache.buf[..], lb))
      modifies cache, cache.buf, cache.next, cache.prev
      ensures Midway(ss, if r.Done? then tail + 1 else tail, held, d0, p0, t0)
              && SameHeld(b0, LetGo(cache.buf[..], held))
      ensures r.Done? || r.CacheFull? || r == Sleeps(tail, held)
      ensures r.CacheFull? ==> NBUF <= |Held(b0)| + Room(p0)
      ensures r.Sleeps? ==> held < NBUF && tail < |ss| && HeldBy(b0, ss[tail])
      ensures r.Done? ==> tail < |ss| && !HeldBy(b0, ss[tail]) && Spare(cache.buf[..]) && held == NBUF
      ensures p0.Keys == Elements(ss) && (lb < NBUF || Spare(old(cache.buf[..]))) ==> !r.CacheFull?
    {
      hide Midway, Held, SameHeld, HeldBy, Room, LetGo, Spare, Elements;
      MidwayPlace(ss, tail, lb, d0, p0, t0);
      LetGoHeld(cache.buf[..], NBUF);
      SameListHeld(b0, LetGo(cache.buf[..], lb), ss);
      held := lb;
      ghost var b1 := LetGo(cache.buf[..], lb);
      if held == NBUF {
        r, held := TakeLog(tail, ss, d0, p0, t0);
        SameHeldTwice(b0, b1, LetGo(cache.buf[..], held));
        if !r.Done? {
          return;
        }
        SameListHeld(b0, LetGo(cache.buf[..], held), ss);
      }
      ghost var b2 := LetGo(cache.buf[..], held);
      r := PutHome(tail, held, ss, d0, p0, t0);
      if r.Done? {
        held := NBUF;
        LetGoHeld(cache.buf[..], NBUF);
        SameHeldTwice(b0, b2, cache.buf[..]);
      }
    }

    // Copy the listed log blocks to their home sectors.
    method InstallTrans(ghost ss: seq<nat>) returns (r: Status)
      requires Wired() && sector[..n] == ss
      requires Fits(cache.disk, L) && Listable(ss, |cache.disk|, L)
      requires cache.pinned.Keys == Elements(ss) || cache.pinned == map[]
      modifies cache, cache.buf, cache.next, cache.prev
      ensures r.Done? || r.CacheFull? || r.Sleeps?
      ensures r.CacheFull? ==> NBUF <= |Held(old(cache.buf[..]))| + Room(old(cache.pinned))
      ensures r.Sleeps? ==>
                && StopsAt(old(cache.buf[..]), ss, 0, r.tail)
                && Midway(ss, r.tail, r.lb, old(cache.disk), old(cache.pinned), old(cache.trace)) && r.lb < NBUF
      ensures old(cache.trace) <= cache.trace <= old(cache.trace) + InstallImages(old(cache.disk), L, ss)
      ensures r.Done? ==>
                && Wired() && SameHeld(old(cache.buf[..]), cache.buf[..]) && cache.pinned == map[]
                && Clear(old(cache.buf[..]), ss, 0, n)
                && cache.disk == Install(old(cache.disk), L, ss, n)
                && cache.trace == old(cache.trace) + InstallImages(old(cache.disk), L, ss)[..n]
    {
      hide StillPinned, Install, InstallImages, Listable, Fits, Held, SameHeld, Clear, Elements, Cache.Valid,
           HoldsHome, Room, LetGo;
      InstallBounds(cache.disk, cache.pinned, ss, L);
      LetGoHeld(cache.buf[..], NBUF);
      var at, held;
      r, at, held := InstallFrom(0, NBUF, ss, cache.disk, cache.pinned, cache.trace);
      LetGoHeld(cache.buf[..], NBUF);
    }

    // Read the header on disk into memory.
    method ReadHead(ghost ss: seq<nat>) returns (r: Status)
      requires Wired() && Idle() && cache.pinned == map[] && Pending(cache.disk, L, ss)
      modifies this`n, sector, cache`slot, cache`ring, cache.buf, cache.next, cache.prev
      ensures r.Done? && Wired() && Idle() && sector[..n] == ss
    {
      hide Cache.Valid;
      hide HoldsHome;
      hide Held;
      hide SameHeld;
      hide Listable;
      NobodyHolds(cache.buf[..], L.start);
      var hb, head := cache.Load(L.start);
      if !hb.Got? {
        return CacheFull;
      }
      KeepsHome(old(cache.buf[..]), cache.buf[..], L);
      n := 0;
      while n < head.words[0]
        modifies this`n, sector
        invariant n <= |ss| == head.words[0] && head.words[1..|ss| + 1] == ss
        invariant sector[..n] == ss[..n]
        invariant cache.Valid() && HoldsHome(cache.buf[..], L) && Idle()
      {
        assert ss[n] == head.words[1..|ss| + 1][n];
        sector[n] := head.words[n + 1];
        n := n + 1;
      }
      return Done;
    }

    // Store the header in memory into the header block's words.
    method FillHead(was: Block) returns (head: Block)
      requires sector.Length == LOGSIZE && n <= LOGSIZE && |was.words| == WORDS
      ensures head == WithHead(was, sector[..n])
    {
      var w := was.words[0 := n];
      var i := 0;
      while i < n
        invariant i <= n && |w| == WORDS
        invariant w[0] == n && w[1..i + 1] == sector[..i] && w[i + 1..] == was.words[i + 1..]
      {
        ghost var v := w;
        w := w[i + 1 := sector[i]];
        assert w[1..i + 2] == v[1..i + 1] + [sector[i]] && sector[..i + 1] == sector[..i] + [sector[i]];
        assert w[i + 2..] == v[i + 1..][1..] && was.words[i + 2..] == was.words[i + 1..][1..];
        i := i + 1;
      }
      head := Block(w);
      assert w == [n] + w[1..n + 1] + w[n + 1..];
    }

    // Write the header in memory to disk.
    method WriteHeader() returns (r: Status)
      requires Wired() && Fits(cache.disk, L) && L.start !in cache.pinned
      modifies cache, cache.buf, cache.next, cache.prev
      ensures r.Done? || r.CacheFull?
      ensures r.CacheFull? <==> NoneFor(old(cache.buf[..]), old(cache.slot), L.start)
      ensures r.CacheFull? ==>
                NBUF <= |Held(old(cache.buf[..]))| + |old(cache.pinned).Keys| && cache.trace == old(cache.trace)
      ensures r.Done? ==>
                && Spare(cache.buf[..]) && Wired() && SameHeld(old(cache.buf[..]), cache.buf[..])
                     && cache.pinned == old(cache.pinned)
                && cache.disk == WriteHead(old(cache.disk), L, sector[..n])
                && cache.trace == old(cache.trace) + [cache.disk]
    {
      hide Cache.Valid;
      hide HoldsHome;
      hide Held;
      hide SameHeld;
      hide HeldBy;
      hide WithHead;
      hide Spare, NoneFor;
      LogNotHeld(cache.buf[..], L, L.start);
      var hb := cache.Bread(L.start);
      if !hb.Got? {
        return CacheFull;
      }
      ghost var held := cache.buf[hb.b];
      var head := FillHead(cache.buf[hb.b].data);
      cache.FinishWrite(hb.b, head);
      Rewritten(old(cache.buf[..]), hb.b, held, cache.buf[hb.b]);
      KeepsHome(old(cache.buf[..]), cache.buf[..], L);
      SpareAt(cache.buf[..], hb.b);
      return Done;
    }

    // At boot: install what a committed transaction left behind, then empty the log.
    method RecoverFromLog(ghost ss: seq<nat>) returns (r: Status)
      requires Wired() && Idle() && cache.pinned == map[] && !busy && Pending(cache.disk, L, ss)
      modifies this, sector, cache, cache.buf, cache.next, cache.prev
      ensures r.Done? && Valid() && Idle() && n == 0 && txn == [] && !busy
      ensures cache.disk == Recovered(old(cache.disk), L, ss)
      ensures cache.trace == old(cache.trace) + InstallImages(old(cache.disk), L, ss)
    {
      hide Cache.Valid, HoldsHome, Held, Install, WithHead, SameHeld, StopsAt, Spare, NoneFor, Clear, HeldBy;
      hide InstallImages, Recovered, Loggable, Logged, LoggedImages, LastValues, Sectors, WriteHead;
      ImagesEnd(cache.disk, L, ss);
      r := ReadHead(ss);
      ghost var b1 := cache.buf[..];
      NobodyListed(b1, ss);
      r := InstallTrans(ss);
      KeepsHome(b1, cache.buf[..], L);
      n := 0;
      ghost var b2 := cache.buf[..];
      r := WriteHeader();
      KeepsHome(b2, cache.buf[..], L);
      NothingLogged(cache.disk, L);
      base, txn, begun := cache.disk, [], |cache.trace| - 1;
    }

    // Start a transaction; Busy stands for the sleep until the current one has ended.
    method BeginTrans() returns (r: Status)
      requires Valid()
      modifies this`busy, this`base, this`txn, this`begun
      ensures Valid() && r == (if old(busy) then Busy else Done) && busy
      ensures r.Done? ==> base == cache.disk && txn == []
      ensures r.Busy? ==> base == old(base) && txn == old(txn) && begun == old(begun)
    {
      if busy {
        return Busy;
      }
      busy := true;
      return Done;
    }

    // The log block of a sector.
    ghost function LogSlot(t: seq<Update>, s: nat): nat
    {
      L.start + Position(Sectors(t), s) + 1
    }

    // The caller holds b with changed data.  Append it to the log and pin it in the cache.
    method LogWrite(b: nat) returns (r: Status)
      requires Valid() && b < NBUF && cache.buf[b].busy && cache.buf[b].valid && cache.buf[b].sector < |cache.disk|
      modifies this`n, this`txn, sector, cache, cache.buf, cache.next, cache.prev
      ensures r.TooBig? <==> |Sectors(old(txn))| >= LOGSIZE || |Sectors(old(txn))| >= L.size - 1
      ensures r.OutsideTransaction? <==> !r.TooBig? && !busy
      ensures r.CacheFull? <==>
                && !r.TooBig? && busy
                && NoneFor(old(cache.buf[..]), old(cache.slot), LogSlot(old(txn), old(cache.buf[b].sector)))
      ensures r.CacheFull? ==> NBUF <= |Held(old(cache.buf[..]))| + |Sectors(old(txn))|
      ensures !r.Busy? && !r.Sleeps?
      ensures !r.Done? ==> cache.trace == old(cache.trace) && cache.pinned == old(cache.pinned) && txn == old(txn)
      ensures r.Done? ==> Valid() && busy
      ensures r.Done? ==> txn == old(txn) + [Update(old(cache.buf[b].sector), old(cache.buf[b].data))]
      ensures r.Done? ==> SameHeldBut(old(cache.buf[..]), cache.buf[..], b)
    {
      hide Cache.Valid;
      hide HoldsHome;
      hide Held;
      hide SameHeld;
      hide SameHeldBut;
      hide HeldBy;
      hide Loggable;
      hide Logged;
      hide LoggedImages;
      hide Sectors;
      hide LastValues;
      hide LogBlock;
      hide HeadIs;
      hide Elements;
      hide Home;
      hide Fits;
      hide Listable;
      hide Position;
      if n >= LOGSIZE || n >= L.size - 1 {
        return TooBig;
      }
      if !busy {
        return OutsideTransaction;
      }
      ghost var u := Update(cache.buf[b].sector, cache.buf[b].data);
      r := Append(cache.buf[b].sector, cache.buf[b].data, b);
      if !r.Done? {
        return;
      }
      PinKeeps(old(cache.buf[..]), cache.buf[..], b, L);
      cache.Pin(b);
      txn := txn + [u];
      return Done;
    }

    // Write a block into its slot of the log and list its sector.
    method Append(s: nat, data: Block, ghost b: nat) returns (r: Status)
      requires Valid() && n < LOGSIZE && n < L.size - 1
      requires b < NBUF && cache.buf[b].busy && cache.buf[b].sector == s < |cache.disk|
      modifies this`n, sector, cache, cache.buf, cache.next, cache.prev
      ensures r.Done? || r.CacheFull?
      ensures r.CacheFull? <==> NoneFor(old(cache.buf[..]), old(cache.slot), LogSlot(txn, s))
      ensures r.CacheFull? ==> NBUF <= |Held(old(cache.buf[..]))| + |Sectors(txn)|
      ensures r.CacheFull? ==> cache.trace == old(cache.trace) && cache.pinned == old(cache.pinned)
      ensures r.Done? ==>
                var t := txn + [Update(s, data)];
                && cache.Valid() && n <= LOGSIZE && SameHeld(old(cache.buf[..]), cache.buf[..])
                && Loggable(base, L, t)
                && sector[..n] == Sectors(t)
                && cache.disk == Logged(base, L, t)
                && cache.pinned == old(cache.pinned)
                && LastValues(t) == LastValues(txn)[s := data]
                && begun <= |cache.trace| && cache.trace[begun..] == LoggedImages(base, L, t)
    {
      hide Cache.Valid;
      hide HoldsHome;
      hide Held;
      hide SameHeld;
      hide HeldBy;
      hide Loggable;
      hide Logged;
      hide LoggedImages;
      hide Sectors;
      hide LastValues;
      hide HeadIs;
      hide Home;
      hide Position;
      hide Fits;
      hide Listable;
      hide NoneFor, Elements;
      SlotFree(base, L, txn, s, cache.buf[..]);
      HeldIsHome(cache.buf[..], L, b);
      Extend(base, L, txn, Update(s, data));
      var i := Enter(s);
      var c := cache.Overwrite(L.start + i + 1, data);
      if !c.Got? {
        return CacheFull;
      }
      TailGrows(old(cache.trace), begun, cache.disk);
      Count(i, s);
      return Done;
    }

    // Find the slot of sector s and put it there.
    method Enter(s: nat) returns (i: nat)
      requires sector.Length == LOGSIZE && n < LOGSIZE
      modifies sector
      ensures i == Position(sector[..n], s) && sector[..n] == old(sector[..n]) && i <= n && sector[i] == s
    {
      i := Search(s);
      ghost var ss := sector[..n];
      sector[i] := s;
      assert sector[..n] == ss;
    }

    // A new slot counts.
    method Count(i: nat, ghost s: nat)
      requires sector.Length == LOGSIZE && n < LOGSIZE && i == Position(sector[..n], s) && i <= n && sector[i] == s
      modifies this`n
      ensures n <= LOGSIZE && sector[..n] == Listed(old(sector[..n]), s)
    {
      if i == n {
        n := n + 1;
        assert sector[..n] == sector[..n - 1] + [s];
      }
    }

    // log_write's search for an earlier entry of sector s.
    method Search(s: nat) returns (i: nat)
      requires sector.Length == LOGSIZE && n <= LOGSIZE
      ensures i == Position(sector[..n], s)
    {
      i := 0;
      while i < n && sector[i] != s
        invariant i <= n
        invariant Position(sector[..n], s) == i + Position(sector[i..n], s)
      {
        i := i + 1;
      }
    }

    // The transaction is committed and its installation is at position tail, as in Midway.
    ghost predicate Committing(tail: nat, lb: nat)
      reads this, cache, cache.buf, cache.next, cache.prev, sector
    {
      && busy && txn != [] && Loggable(base, L, txn) && HeadIs(base, L, []) && tail <= |cache.trace|
      && var t0 := cache.trace[..|cache.trace| - tail];
         && begun <= |t0| && t0[begun..] == LoggedImages(base, L, txn) + [Header()]
         && Midway(Sectors(txn), tail, lb, Header(), LastValues(txn), t0)
    }

    // The disk with the transaction's header.
    ghost function Header(): Disk
      reads this
      requires Loggable(base, L, txn)
    {
      WriteHead(Logged(base, L, txn), L, Sectors(txn))
    }

    // Make the transaction durable, install it and empty the log. It sleeps where a listed sector is
    // held by somebody else.
    method CommitTrans() returns (r: Status)
      requires Valid()
      modifies this, sector, cache, cache.buf, cache.next, cache.prev
      ensures r.Done? || r.CacheFull? || r.Sleeps?
      // it panics exactly where it finds no buffer for the header
      ensures r.CacheFull? <==> old(txn) != [] && NoneFor(old(cache.buf[..]), old(cache.slot), L.start)
      ensures r.CacheFull? ==> NBUF <= |Held(old(cache.buf[..]))| + |Sectors(old(txn))|
      ensures r.Sleeps? ==> StopsAt(old(cache.buf[..]), Sectors(old(txn)), 0, r.tail) && r.lb < NBUF
      ensures r.Done? ==> Clear(old(cache.buf[..]), Sectors(old(txn)), 0, |Sectors(old(txn))|)
      ensures r.Sleeps? ==> Committing(r.tail, r.lb) && base == old(base) && txn == old(txn) && begun == old(begun)
      ensures old(begun) <= |cache.trace| && cache.trace[old(begun)..] <= TransactionImages(old(base), L, old(txn))
      ensures r.Done? ==>
                && Valid() && SameHeld(old(cache.buf[..]), cache.buf[..]) && Finished(old(base), old(txn), old(begun))
    {
      hide Cache.Valid, HoldsHome, Held, Loggable, Logged, LoggedImages, LogSpec.Install, InstallImages, WriteHead;
      hide CommitImages, TransactionImages, Sectors, LastValues, Overlay, Elements, SameHome, SameHeld, HeldBy,
           LetGo, Room, Spare, NoneFor;
      SameAsSelf(cache.buf[..]);
      NoneListed(cache.buf[..], txn);
      CommitFacts(base, L, txn);
      NothingLogged(base, L);
      ImagesStart(cache.trace, begun, base, L, txn);
      if n == 0 {
        busy := false;
        NothingCommitted(cache.trace, begun, base, L);
        base, txn, begun := cache.disk, [], |cache.trace| - 1;
        return Done;
      }
      SomePinned(cache.pinned, Sectors(txn));
      r := WriteHeader();
      if !r.Done? {
        return;
      }
      ghost var b1 := cache.buf[..];
      SameListHeld(old(cache.buf[..]), b1, Sectors(txn));
      LetGoHeld(b1, NBUF);
      HeaderWritten(old(cache.trace), begun, base, L, txn, cache.trace);
      InstallBounds(cache.disk, cache.pinned, Sectors(txn), L);
      r := CommitRest(0, NBUF);
      if r.Done? {
        SameHeldTwice(old(cache.buf[..]), b1, cache.buf[..]);
      }
    }

    // What a commit leaves behind.
    ghost predicate Finished(d: Disk, t: seq<Update>, from: nat)
      requires Loggable(d, L, t)
      reads this, cache
    {
      && !busy && txn == [] && cache.pinned == map[] && SameHome(cache.disk, Overlay(d, t), L)
      && from <= |cache.trace| && cache.trace[from..] == TransactionImages(d, L, t)
    }

    // The commit from position tail on: also what is left of it after it has slept there.
    method CommitRest(tail: nat, lb: nat) returns (r: Status)
      requires Committing(tail, lb)
      modifies this, cache, cache.buf, cache.next, cache.prev
      ensures r.Done? || r.CacheFull? || r.Sleeps?
      ensures r.CacheFull? ==> NBUF <= |Held(LetGo(old(cache.buf[..]), lb))| + Room(LastValues(old(txn)))
      ensures lb < NBUF || Spare(old(cache.buf[..])) ==> !r.CacheFull?
      ensures r.Sleeps? ==> r.lb < NBUF
      ensures r.Sleeps? ==> StopsAt(LetGo(old(cache.buf[..]), lb), Sectors(old(txn)), tail, r.tail)
      ensures r.Done? ==> Clear(LetGo(old(cache.buf[..]), lb), Sectors(old(txn)), tail, |Sectors(old(txn))|)
      ensures r.Sleeps? ==>
                Committing(r.tail, r.lb) && tail <= r.tail && base == old(base) && txn == old(txn)
                && begun == old(begun)
      ensures old(begun) <= |cache.trace| && cache.trace[old(begun)..] <= TransactionImages(old(base), L, old(txn))
      ensures r.Done? ==>
                && Valid() && SameHeld(LetGo(old(cache.buf[..]), lb), cache.buf[..])
                     && Finished(old(base), old(txn), old(begun))
    {
      hide Cache.Valid, HoldsHome, Held, Loggable, Logged, LoggedImages, LogSpec.Install, InstallImages, WriteHead;
      hide CommitImages, TransactionImages, Sectors, LastValues, Overlay, Elements, SameHome, SameHeld, HeldBy,
           LetGo, Room;
      hide StillPinned, Listable, HeadIs, Fits, Spare;
      ghost var t0, ss, e := cache.trace[..|cache.trace| - tail], Sectors(txn), Header();
      CommitFacts(base, L, txn);
      var at, held;
      r, at, held := InstallFrom(tail, lb, ss, e, LastValues(txn), t0);
      assert cache.trace == t0 + InstallImages(e, L, ss)[..at];
      CommitSoFar(t0, begun, base, L, txn, at);
      if !r.Done? {
        assert cache.trace[..|cache.trace| - at] == t0;
        return;
      }
      InstallBounds(e, LastValues(txn), ss, L);
      LetGoHeld(cache.buf[..], NBUF);
      ghost var b1 := cache.buf[..];
      SameListHeld(LetGo(old(cache.buf[..]), lb), b1, ss);
      assert cache.trace[..|cache.trace| - n] == t0;
      r := CommitEnd();
      if r.Done? {
        SameHeldTwice(LetGo(old(cache.buf[..]), lb), b1, cache.buf[..]);
      }
    }

    // The end of a commit: empty the log and let others start a transaction.
    method CommitEnd() returns (r: Status)
      requires Committing(n, NBUF)
      modifies this, cache, cache.buf, cache.next, cache.prev
      ensures r.Done? || r.CacheFull?
      ensures r.CacheFull? ==> NBUF <= |Held(old(cache.buf[..]))|
      ensures Spare(old(cache.buf[..])) ==> r.Done?
      ensures old(begun) <= |cache.trace| && cache.trace[old(begun)..] <= TransactionImages(old(base), L, old(txn))
      ensures r.Done? ==>
                Valid() && SameHeld(old(cache.buf[..]), cache.buf[..]) && Finished(old(base), old(txn), old(begun))
    {
      hide Cache.Valid, HoldsHome, Held, Loggable, Logged, LoggedImages, LogSpec.Install, InstallImages, WriteHead;
      hide CommitImages, TransactionImages, Sectors, LastValues, Overlay, Elements, SameHome, SameHeld, HeldBy,
           LetGo, Room;
      hide StillPinned, Listable, HeadIs, Spare, NoneFor;
      if Spare(cache.buf[..]) {
        SpareIs(cache.buf[..], cache.slot, L.start);
      }
      ghost var t0, ss, e := cache.trace[..|cache.trace| - n], Sectors(txn), Header();
      CommitFacts(base, L, txn);
      CommitSoFar(t0, begun, base, L, txn, n);
      InstallBounds(e, LastValues(txn), ss, L);
      LetGoHeld(cache.buf[..], NBUF);
      n := 0;
      r := WriteHeader();
      if !r.Done? {
        return;
      }
      NothingLogged(cache.disk, L);
      CommitAll(t0, begun, base, L, txn, cache.trace);
      busy := false;
      base, txn, begun := cache.disk, [], |cache.trace| - 1;
    }

    // While a commit sleeps others may read a sector outside the log, and let it go again.
    method ReadMeanwhile(s: nat, ghost tail: nat, ghost lb: nat) returns (c: Outcome)
      requires Committing(tail, lb) && Home(L, s)
      modifies cache`slot, cache.buf
      ensures !c.OutOfRange? ==> Committing(tail, lb)
      ensures c.Sleep? <==> HeldBy(old(cache.buf[..]), s)
      ensures c.NoBuffers? <==> NoneFor(old(cache.buf[..]), old(cache.slot), s)
      ensures c.OutOfRange? <==> !c.Sleep? && !c.NoBuffers? && s >= |cache.disk|
      ensures c.Got? ==> c.b != lb && c.b < cache.buf.Length && s < |cache.disk| && cache.buf[c.b].data == cache.View(s)
    {
      hide Midway, Loggable, Logged, LoggedImages, WriteHead, Sectors, LastValues, HeadIs, Home;
      ghost var t0 := cache.trace[..|cache.trace| - tail];
      c := ReadMidway(s, Sectors(txn), tail, lb, Header(), LastValues(txn), t0);
    }

    method ReadMidway(s: nat, ghost ss: seq<nat>, ghost tail: nat, ghost lb: nat,
                      ghost d0: Disk, ghost p0: map<nat, Block>, ghost t0: seq<Disk>)
      returns (c: Outcome)
      requires Midway(ss, tail, lb, d0, p0, t0) && Home(L, s)
      modifies cache`slot, cache.buf
      ensures !c.OutOfRange? ==> Midway(ss, tail, lb, d0, p0, t0)
      ensures c.Sleep? <==> HeldBy(old(cache.buf[..]), s)
      ensures c.NoBuffers? <==> NoneFor(old(cache.buf[..]), old(cache.slot), s)
      ensures c.OutOfRange? <==> !c.Sleep? && !c.NoBuffers? && s >= |cache.disk|
      ensures c.Got? ==> c.b != lb && c.b < cache.buf.Length && s < |cache.disk| && cache.buf[c.b].data == cache.View(s)
    {
      hide StillPinned, Install, InstallImages, Listable, Fits, Cache.Valid, HoldsHome, HeldBy, Held, Elements, LetGo,
           Home, NoneFor;
      c := cache.Bread(s);
      if c.Got? {
        HoldsMore(old(cache.buf[..]), lb, c.b, cache.buf[c.b], L);
      }
    }

    method ReleaseMeanwhile(b: nat, ghost tail: nat, ghost lb: nat) returns (ok: bool)
      requires Committing(tail, lb) && b < cache.buf.Length && b != lb && cache.buf[b].busy && cache.buf[b].valid
      requires cache.buf[b].sector < |cache.disk| && cache.buf[b].data == cache.View(cache.buf[b].sector)
      modifies cache`ring, cache.next, cache.prev, cache.buf
      ensures Committing(tail, lb) && ok
    {
      hide Midway, Loggable, Logged, LoggedImages, WriteHead, Sectors, LastValues, HeadIs;
      ghost var t0 := cache.trace[..|cache.trace| - tail];
      ok := ReleaseMidway(b, Sectors(txn), tail, lb, Header(), LastValues(txn), t0);
    }

    method ReleaseMidway(b: nat, ghost ss: seq<nat>, ghost tail: nat, ghost lb: nat,
                         ghost d0: Disk, ghost p0: map<nat, Block>, ghost t0: seq<Disk>)
      returns (ok: bool)
      requires Midway(ss, tail, lb, d0, p0, t0) && b < cache.buf.Length && b != lb && cache.buf[b].busy
               && cache.buf[b].valid
      requires cache.buf[b].sector < |cache.disk| && cache.buf[b].data == cache.View(cache.buf[b].sector)
      modifies cache`ring, cache.next, cache.prev, cache.buf
      ensures Midway(ss, tail, lb, d0, p0, t0) && ok
    {
      hide StillPinned, Install, InstallImages, Listable, Fits, Cache.Valid, HoldsHome, Elements, LetGo;
      ok := cache.Brelse(b);
      HoldsLess(old(cache.buf[..]), lb, b, L);
    }
  }
}
