/**
  The buffer cache (bio.c) over a synchronous disk (memide.c).

  Buffers are numbered 0..NBUF-1; HEAD is the list head.  `next` and `prev` hold the
  links of the circular list, `ring` is the ghost order they spell from HEAD.
 */
module BufferCache {
  import opened Finite

  const NBUF: nat := 10
  const HEAD: nat := NBUF
  const ROOTDEV: int := 1
  const NODEV: int := -1

  // A 512-byte sector, as words of 4 bytes.
  const WORDS: nat := 128
  datatype Block = Block(words: seq<int>)
  type Disk = seq<Block>

  datatype Buf = Buf(dev: int, sector: nat, busy: bool, valid: bool, dirty: bool, data: Block)

  datatype Outcome = Got(b: nat) | Sleep | NoBuffers | OutOfRange

  // ---------- the circular list ----------

  function At(ring: seq<nat>, i: nat): nat
    requires i <= |ring| + 1
  {
    if 1 <= i <= |ring| then ring[i - 1] else HEAD
  }

  predicate Distinct(ring: seq<nat>)
  {
    && (forall i :: 0 <= i < |ring| ==> ring[i] < NBUF)
    && (forall i, j :: 0 <= i < j < |ring| ==> ring[i] != ring[j])
  }

  // The i-th and the next element of the order point at each other.
  ghost predicate LinkAt(next: seq<nat>, prev: seq<nat>, ring: seq<nat>, i: int)
    requires |next| == |prev| == NBUF + 1 && Distinct(ring)
  {
    0 <= i <= |ring| ==> next[At(ring, i)] == At(ring, i + 1) && prev[At(ring, i + 1)] == At(ring, i)
  }

  ghost predicate Linked(next: seq<nat>, prev: seq<nat>, ring: seq<nat>)
  {
    && |next| == |prev| == NBUF + 1
    && Distinct(ring)
    && (forall i :: LinkAt(next, prev, ring, i))
  }

  // Unlinking an element by redirecting its two neighbours removes it from the order.
  lemma UnlinkKeepsLinked(next: seq<nat>, prev: seq<nat>, ring: seq<nat>, k: nat)
    requires Linked(next, prev, ring) && k < |ring|
    ensures next[ring[k]] <= NBUF && prev[ring[k]] <= NBUF
    ensures Linked(next[prev[ring[k]] := next[ring[k]]], prev[next[ring[k]] := prev[ring[k]]],
                   ring[..k] + ring[k + 1..])
  {
    var b := ring[k];
    UnlinkAt(next, prev, ring, k, 0);
    var r := ring[..k] + ring[k + 1..];
    var n', p' := next[prev[b] := next[b]], prev[next[b] := prev[b]];
    forall i ensures LinkAt(n', p', r, i) {
      if 0 <= i <= |r| {
        UnlinkAt(next, prev, ring, k, i);
      }
    }
  }

  lemma AtInjective(ring: seq<nat>, i: nat, j: nat)
    requires Distinct(ring) && i <= |ring| + 1 && j <= |ring| + 1
    ensures At(ring, i) <= NBUF
    ensures At(ring, i) == At(ring, j) ==> i == j || (i == 0 && j == |ring| + 1) || (j == 0 && i == |ring| + 1)
  {
  }

  lemma UnlinkDistinct(ring: seq<nat>, k: nat)
    requires Distinct(ring) && k < |ring|
    ensures Distinct(ring[..k] + ring[k + 1..])
  {
  }

  lemma UnlinkAt(next: seq<nat>, prev: seq<nat>, ring: seq<nat>, k: nat, i: nat)
    requires Linked(next, prev, ring) && k < |ring| && i < |ring|
    ensures next[ring[k]] <= NBUF && prev[ring[k]] <= NBUF
    ensures var r := ring[..k] + ring[k + 1..];
            Distinct(r) && LinkAt(next[prev[ring[k]] := next[ring[k]]], prev[next[ring[k]] := prev[ring[k]]], r, i)
  {
    hide Distinct;
    assert At(ring, k + 1) == ring[k];
    AtInjective(ring, k + 1, k + 1);
    assert LinkAt(next, prev, ring, k) && LinkAt(next, prev, ring, k + 1);
    UnlinkDistinct(ring, k);
    var r := ring[..k] + ring[k + 1..];
    var i' := if i <= k then i else i + 1;
    var j' := if i + 1 <= k then i + 1 else i + 2;
    assert At(r, i) == At(ring, i') && At(r, i + 1) == At(ring, j');
    AtInjective(ring, i', k);
    AtInjective(ring, j', k + 2);
    AtInjective(ring, k, k);
    AtInjective(ring, k + 2, k);
    assert LinkAt(next, prev, ring, i') && LinkAt(next, prev, ring, j' - 1);
  }

  // Linking a new element behind HEAD puts it first in the order.
  lemma InsertKeepsLinked(next: seq<nat>, prev: seq<nat>, ring: seq<nat>, b: nat)
    requires Linked(next, prev, ring) && b < NBUF && b !in ring
    ensures next[HEAD] <= NBUF
    ensures Linked(next[b := next[HEAD]][HEAD := b], prev[b := HEAD][next[HEAD] := b], [b] + ring)
  {
    assert LinkAt(next, prev, ring, 0);
    var r := [b] + ring;
    var n', p' := next[b := next[HEAD]][HEAD := b], prev[b := HEAD][next[HEAD] := b];
    forall i ensures LinkAt(n', p', r, i) {
      if 2 <= i <= |r| {
        assert At(r, i) == At(ring, i - 1) && At(r, i + 1) == At(ring, i);
        assert LinkAt(next, prev, ring, i - 1);
      } else if i == 1 {
        assert At(r, 1) == b && At(r, 2) == At(ring, 1);
      }
    }
  }

  // ---------- the cache ----------

  // What a reader must see in sector s: the uncommitted value if there is one, else the disk's.
  ghost function Logical(s: nat, pinned: map<nat, Block>, disk: Disk): (r: Block)
    requires s < |disk|
  {
    if s in pinned then pinned[s] else disk[s]
  }

  // Every buffer used less recently than b is held or pinned.
  ghost predicate LeastRecent(ring: seq<nat>, buf: seq<Buf>, b: nat)
  {
    forall j, k :: 0 <= j < k < |ring| && ring[j] == b ==> ring[k] < |buf| && (buf[ring[k]].busy || buf[ring[k]].dirty)
  }

  // Buffer i agrees with the sector it caches: dirty exactly when the sector is pinned, and,
  // unless some process holds it, equal to what a reader must see.
  ghost predicate BufOk(b: Buf, i: nat, slot: map<nat, nat>, pinned: map<nat, Block>, disk: Disk)
  {
    if b.dev == ROOTDEV then
      && b.sector in slot && slot[b.sector] == i
      && (b.valid ==> b.sector < |disk|)
      && (b.dirty ==> b.valid)
      && (b.dirty <==> b.sector in pinned)
      && (!b.busy ==> b.valid && b.data == Logical(b.sector, pinned, disk))
    else
      b.dev == NODEV && !b.busy && !b.valid && !b.dirty
  }

  ghost function Image(slot: map<nat, nat>, keys: set<nat>): (r: set<nat>)
    requires keys <= slot.Keys
    ensures forall s :: s in keys ==> slot[s] in r
    ensures |r| <= |keys|
  {
    if keys == {} then {} else
      var s :| s in keys;
      Image(slot, keys - {s}) + {slot[s]}
  }

  // The buffers some process holds.
  ghost function Held(buf: seq<Buf>): (r: set<nat>)
  {
    set i | 0 <= i < |buf| && buf[i].busy
  }

  ghost predicate HeldBy(buf: seq<Buf>, s: nat)
  {
    exists i :: 0 <= i < |buf| && buf[i].busy && buf[i].sector == s
  }

  // No buffer caches sector s and none can be given to it.
  ghost predicate NoneFor(buf: seq<Buf>, slot: map<nat, nat>, s: nat)
  {
    s !in slot && forall i :: 0 <= i < |buf| ==> buf[i].busy || buf[i].dirty
  }

  // Some buffer can be given to any sector.
  ghost predicate Spare(buf: seq<Buf>)
  {
    exists i :: 0 <= i < |buf| && !buf[i].busy && !buf[i].dirty
  }

  lemma SpareIs(buf: seq<Buf>, slot: map<nat, nat>, s: nat)
    requires Spare(buf)
    ensures !NoneFor(buf, slot, s)
  {
  }

  lemma SpareAt(buf: seq<Buf>, i: nat)
    requires i < |buf| && !buf[i].busy && !buf[i].dirty
    ensures Spare(buf)
  {
  }

  // The same buffers are held, and nothing in them has changed.
  ghost predicate SameHeld(a: seq<Buf>, b: seq<Buf>)
  {
    |a| == |b| && forall i :: 0 <= i < |a| ==> a[i].busy == b[i].busy && (a[i].busy ==> a[i] == b[i])
  }

  // The buffers with b let go; NBUF stands for none.
  function LetGo(buf: seq<Buf>, b: nat): (r: seq<Buf>)
    ensures |r| == |buf|
  {
    if b < |buf| then buf[b := buf[b].(busy := false)] else buf
  }

  lemma OthersHold(a: seq<Buf>, i: nat, s: nat)
    requires i < |a| && a[i].sector != s
    ensures HeldBy(a, s) <==> HeldBy(LetGo(a, i), s)
  {
    if j :| 0 <= j < |a| && a[j].busy && a[j].sector == s {
      assert LetGo(a, i)[j] == a[j];
    }
    if j :| 0 <= j < |a| && LetGo(a, i)[j].busy && LetGo(a, i)[j].sector == s {
      assert LetGo(a, i)[j] == a[j];
    }
  }

  // What is left held after a copy from buffer i to buffer j.
  lemma CopiedHeld(a: seq<Buf>, i: nat, j: nat, y: Buf, x': Buf, y': Buf)
    requires i < |a| && j < |a| && i != j && !a[j].busy && !x'.busy && !y'.busy
    ensures SameHeld(LetGo(a, i), a[j := y][i := x'][j := y'])
  {
  }

  // Buffers taken while free and let go again leave the same buffers held.
  lemma ReleasedAgain(a: seq<Buf>, i: nat, x: Buf, j: nat, y: Buf)
    requires i < |a| && j < |a| && !a[i].busy && !a[j].busy && !x.busy && !y.busy
    ensures SameHeld(a, a[i := x][j := y])
  {
  }

  lemma Rewritten(a: seq<Buf>, i: nat, x: Buf, y: Buf)
    requires i < |a| && !a[i].busy && !y.busy
    ensures a[i := x][i := y] == a[i := y] && SameHeld(a, a[i := y])
  {
  }

  class Cache {
    var disk: Disk             // memdisk
    const buf: array<Buf>      // bcache.buf
    const next: array<nat>
    const prev: array<nat>

    ghost var ring: seq<nat>           // most recently used first
    ghost var slot: map<nat, nat>      // sector -> the buffer that caches it
    ghost var pinned: map<nat, Block>  // logged but not yet installed sectors
    ghost var trace: seq<Disk>         // every disk image since start-up, oldest first

    ghost function View(s: nat): (r: Block)
      reads this
      requires s < |disk|
    {
      Logical(s, pinned, disk)
    }

    ghost predicate Shape()
      reads this, buf, next, prev
    {
      && buf.Length == NBUF && next.Length == prev.Length == NBUF + 1
      && next != prev
      && Linked(next[..], prev[..], ring) && |ring| == NBUF
      && |trace| > 0 && trace[|trace| - 1] == disk
    }

    ghost predicate Valid()
      reads this, buf, next, prev
    {
      && Shape()
      && (forall i :: 0 <= i < NBUF ==> BufOk(buf[i], i, slot, pinned, disk))
      && (forall s :: s in slot ==> slot[s] < NBUF && buf[slot[s]].dev == ROOTDEV && buf[slot[s]].sector == s)
      && (forall s :: s in pinned ==> s in slot && s < |disk|)
    }

    // When no buffer can be recycled, held buffers and pinned sectors account for all of them.
    lemma AllTaken()
      requires Valid() && forall i :: 0 <= i < NBUF ==> buf[i].busy || buf[i].dirty
      ensures NBUF <= |Held(buf[..])| + |pinned.Keys|
    {
      CoverSize(NBUF, Held(buf[..]), Image(slot, pinned.Keys));
    }

    constructor (image: Disk, zero: Block)
      ensures Valid() && fresh(buf) && fresh(next) && fresh(prev)
      ensures disk == image && trace == [image] && slot == map[] && pinned == map[]
      ensures Held(buf[..]) == {}
    {
      disk := image;
      buf := new Buf[NBUF](_ => Buf(NODEV, 0, false, false, false, zero));
      next := new nat[NBUF + 1](_ => HEAD);
      prev := new nat[NBUF + 1](_ => HEAD);
      ring, slot, pinned, trace := [], map[], map[], [image];
      new;
      var b := 0;
      while b < NBUF
        invariant 0 <= b <= NBUF == buf.Length
        invariant fresh(buf) && fresh(next) && fresh(prev) && next != prev
        invariant disk == image && trace == [image] && slot == map[] && pinned == map[]
        invariant forall i :: 0 <= i < NBUF ==> buf[i] == Buf(NODEV, 0, false, false, false, zero)
        invariant Linked(next[..], prev[..], ring) && |ring| == b
        invariant forall i :: 0 <= i < |ring| ==> ring[i] < b
      {
        Insert(b);
        b := b + 1;
      }
    }

    // Link b in at the front of the list.
    method Insert(b: nat)
      requires b < NBUF && next != prev
      requires Linked(next[..], prev[..], ring) && b !in ring
      modifies this`ring, next, prev
      ensures Linked(next[..], prev[..], ring) && ring == [b] + old(ring)
    {
      InsertKeepsLinked(next[..], prev[..], ring, b);
      ghost var n0: seq<nat>, p0: seq<nat> := next[..], prev[..];
      next[b] := next[HEAD];
      prev[b] := HEAD;
      prev[next[HEAD]] := b;
      next[HEAD] := b;
      ring := [b] + ring;
      assert next[..] == n0[b := n0[HEAD]][HEAD := b];
      assert prev[..] == p0[b := HEAD][n0[HEAD] := b];
    }

    // Look for sector s; if it is not cached, recycle the least recently used clean buffer.
    method Bget(s: nat) returns (r: Outcome)
      requires Valid()
      modifies this`slot, buf
      ensures Valid()
      ensures r.Sleep? <==> s in old(slot) && old(buf[slot[s]].busy)
      ensures r.NoBuffers? <==> s !in old(slot) && forall i :: 0 <= i < NBUF ==> old(buf[i].busy || buf[i].dirty)
      ensures !r.OutOfRange?
      ensures !r.Got? ==> buf[..] == old(buf[..]) && slot == old(slot)
      ensures r.Got? ==> r.b < NBUF && slot == SlotsAfter(old(slot), old(buf[..]), r.b, s)
      ensures r.Got? ==> buf[..] == old(buf[..])[r.b := buf[r.b]]
      ensures r.Got? && s in old(slot) ==> r.b == old(slot[s]) && buf[r.b] == old(buf[..])[r.b].(busy := true)
      ensures r.Got? && s !in old(slot) ==>
                && !old(buf[..])[r.b].busy && !old(buf[..])[r.b].dirty
                && buf[r.b] == Buf(ROOTDEV, s, true, false, false, old(buf[..])[r.b].data)
                && LeastRecent(ring, old(buf[..]), r.b)
    {
      hide Valid;
      hide LeastRecent;
      SlotShape();
      var b := FindCached(s);
      if b != HEAD {
        if buf[b].busy {
          return Sleep;
        }
        Take(b, s);
        return Got(b);
      }
      b := FindVictim();
      if b == HEAD {
        return NoBuffers;
      }
      Recycle(b, s);
      return Got(b);
    }

    lemma SlotShape()
      requires Valid()
      ensures buf.Length == NBUF && forall s :: s in slot ==> slot[s] < NBUF
    {
    }

    // Hold the buffer that caches s.
    method Take(b: nat, ghost s: nat)
      requires Valid() && s in slot && b == slot[s] && b < NBUF == buf.Length && !buf[b].busy
      modifies buf
      ensures Valid() && slot == SlotsAfter(slot, old(buf[..]), b, s)
      ensures buf[..] == old(buf[..])[b := old(buf[..])[b].(busy := true)]
    {
      hide Linked;
      buf[b] := buf[b].(busy := true);
    }

    // Give buffer b, clean and not held, to sector s.
    method Recycle(b: nat, s: nat)
      requires Valid() && s !in slot && b < NBUF == buf.Length && !buf[b].busy && !buf[b].dirty
      modifies this`slot, buf
      ensures Valid() && slot == SlotsAfter(old(slot), old(buf[..]), b, s)
      ensures buf[..] == old(buf[..])[b := Buf(ROOTDEV, s, true, false, false, old(buf[..])[b].data)]
    {
      hide Linked;
      slot := SlotsAfter(slot, buf[..], b, s);
      buf[b] := Buf(ROOTDEV, s, true, false, false, buf[b].data);
    }

    // Somebody holds sector s exactly if its buffer is held.
    lemma HeldSlot(s: nat)
      requires Valid()
      ensures buf.Length == NBUF && (s in slot ==> slot[s] < NBUF)
      ensures HeldBy(buf[..], s) <==> s in slot && buf[slot[s]].busy
      ensures NoneFor(buf[..], slot, s) <==> s !in slot && forall i :: 0 <= i < NBUF ==> buf[i].busy || buf[i].dirty
      ensures s in pinned ==> s in slot
      ensures s in slot && !buf[slot[s]].busy ==>
                s < |disk| && buf[slot[s]] == Buf(ROOTDEV, s, false, true, s in pinned, View(s))
    {
      if s in slot && buf[slot[s]].busy {
        assert buf[..][slot[s]].sector == s;
      }
      forall i | 0 <= i < NBUF ensures buf[..][i] == buf[i] {
      }
    }

    // Return a held buffer with the contents of sector s.
    method Bread(s: nat) returns (r: Outcome)
      requires Valid()
      modifies this`slot, buf
      ensures Valid() && buf.Length == NBUF
      ensures r.Sleep? <==> HeldBy(old(buf[..]), s)
      ensures r.NoBuffers? <==> NoneFor(old(buf[..]), old(slot), s)
      ensures r.NoBuffers? ==> s !in pinned && NBUF <= |old(Held(buf[..]))| + |pinned.Keys|
      ensures r.OutOfRange? <==> !r.Sleep? && !r.NoBuffers? && s >= |disk|
      ensures r.Sleep? || r.NoBuffers? ==> buf[..] == old(buf[..])
      ensures r.Got? ==> s < |disk| && r.b < NBUF && !old(buf[..])[r.b].busy
      ensures r.Got? ==> buf[..] == old(buf[..])[r.b := Buf(ROOTDEV, s, true, true, s in pinned, View(s))]
    {
      hide Valid, HeldBy, NoneFor, Held, LeastRecent, SlotsAfter;
      HeldSlot(s);
      if NoneFor(buf[..], slot, s) {
        AllTaken();
      }
      r := Bget(s);
      if r.Got? && !buf[r.b].valid {
        if s >= |disk| {
          return OutOfRange;
        }
        ReadIn(r.b);
      }
    }

    // iderw, reading.
    method ReadIn(b: nat)
      requires Valid() && b < NBUF == buf.Length && buf[b].busy && !buf[b].valid && buf[b].sector < |disk|
      modifies buf
      ensures Valid()
      ensures buf[..] == old(buf[..])[b := old(buf[..])[b].(data := disk[old(buf[..])[b].sector], valid := true)]
    {
      hide Linked;
      buf[b] := buf[b].(data := disk[buf[b].sector], valid := true);
    }

    // Write b's contents to disk; false stands for the panic on a buffer nobody holds.
    method Bwrite(b: nat) returns (ok: bool)
      requires Valid() && b < NBUF
      requires buf[b].busy ==> buf[b].valid
      modifies this`disk, this`pinned, this`trace, buf
      ensures Valid()
      ensures ok == old(buf[b].busy)
      ensures !ok ==> disk == old(disk) && pinned == old(pinned) && trace == old(trace) && buf[..] == old(buf[..])
      ensures ok ==>
                var o := old(buf[..])[b];
                && o.sector < |old(disk)|
                && disk == old(disk)[o.sector := o.data]
                && pinned == old(pinned) - {o.sector}
                && trace == old(trace) + [disk]
                && buf[..] == old(buf[..])[b := o.(dirty := false)]
    {
      if !buf[b].busy {
        return false;
      }
      // iderw, writing
      var s := buf[b].sector;
      disk := disk[s := buf[b].data];
      pinned := pinned - {s};
      trace := trace + [disk];
      buf[b] := buf[b].(dirty := false);
      return true;
    }

    // The holder changes b's data in memory.
    method SetData(b: nat, data: Block)
      requires Valid() && b < NBUF && buf[b].busy
      modifies buf
      ensures Valid() && buf[..] == old(buf[..])[b := old(buf[..])[b].(data := data)]
    {
      buf[b] := buf[b].(data := data);
    }

    // log_write marks the buffer dirty: from here on its data is what readers must see.
    method Pin(b: nat)
      requires Valid() && b < NBUF && buf[b].busy && buf[b].valid
      modifies this`pinned, buf
      ensures Valid()
      ensures pinned == old(pinned)[old(buf[..])[b].sector := old(buf[..])[b].data]
      ensures buf[..] == old(buf[..])[b := old(buf[..])[b].(dirty := true)]
    {
      pinned := pinned[buf[b].sector := buf[b].data];
      buf[b] := buf[b].(dirty := true);
    }

    // Release b and move it to the front of the list.  A holder must have handed its changes to
    // bwrite or log_write.  False stands for the panic on a buffer nobody holds.
    method Brelse(b: nat) returns (ok: bool)
      requires Valid() && b < NBUF
      requires buf[b].busy ==> buf[b].valid && buf[b].data == View(buf[b].sector)
      modifies this`ring, next, prev, buf
      ensures Valid()
      ensures ok == old(buf[b].busy)
      ensures !ok ==> ring == old(ring) && buf[..] == old(buf[..])
      ensures ok ==> buf[..] == old(buf[..])[b := old(buf[..])[b].(busy := false)]
      ensures ok ==> exists k :: 0 <= k < NBUF && old(ring)[k] == b && ring == [b] + old(ring)[..k] + old(ring)[k + 1..]
    {
      if !buf[b].busy {
        return false;
      }
      ghost var k := Unlink(b);
      Insert(b);
      buf[b] := buf[b].(busy := false);
      return true;
    }

    // Link b's neighbours to each other, which takes b out of the list.
    method Unlink(b: nat) returns (ghost k: nat)
      requires b < NBUF && next != prev
      requires Linked(next[..], prev[..], ring) && |ring| == NBUF
      modifies this`ring, next, prev
      ensures k < NBUF && old(ring)[k] == b && ring == old(ring)[..k] + old(ring)[k + 1..]
      ensures Linked(next[..], prev[..], ring)
    {
      DistinctCover(ring, NBUF, b);
      k :| 0 <= k < NBUF && ring[k] == b;
      UnlinkKeepsLinked(next[..], prev[..], ring, k);
      ghost var n0: seq<nat>, p0: seq<nat> := next[..], prev[..];
      prev[next[b]] := prev[b];
      next[prev[b]] := next[b];
      ring := ring[..k] + ring[k + 1..];
      assert next[..] == n0[p0[b] := n0[b]];
      assert prev[..] == p0[n0[b] := p0[b]];
    }

    // Read a sector, change the whole block, write it out and let it go.
    method Overwrite(s: nat, data: Block) returns (r: Outcome)
      requires Valid() && s < |disk|
      modifies this, buf, next, prev
      ensures r.Sleep? <==> HeldBy(old(buf[..]), s)
      ensures r.NoBuffers? <==> NoneFor(old(buf[..]), old(slot), s)
      ensures r.NoBuffers? ==> s !in old(pinned) && NBUF <= |old(Held(buf[..]))| + |old(pinned).Keys|
      ensures !r.OutOfRange?
      ensures !r.Got? ==> disk == old(disk) && trace == old(trace) && pinned == old(pinned)
      ensures r.Got? ==> Valid() && SameHeld(old(buf[..]), buf[..])
      ensures r.Got? ==> disk == old(disk)[s := data] && trace == old(trace) + [disk] && pinned == old(pinned) - {s}
    {
      hide Valid, SameHeld, HeldBy, Held, NoneFor;
      r := Bread(s);
      if r.Got? {
        ghost var x := buf[r.b];
        FinishWrite(r.b, data);
        Rewritten(old(buf[..]), r.b, x, buf[r.b]);
      }
    }

    // What follows a bread: change the data, bwrite, brelse.
    method FinishWrite(b: nat, data: Block)
      requires Valid() && b < NBUF && buf.Length == NBUF && buf[b].busy && buf[b].valid
      modifies this, buf, next, prev
      ensures Valid()
      ensures buf[..] == old(buf[..])[b := buf[b]] && !buf[b].busy && !buf[b].dirty
      ensures var s := old(buf[b].sector);
              && s < |old(disk)| && disk == old(disk)[s := data]
              && trace == old(trace) + [disk] && pinned == old(pinned) - {s}
    {
      hide Valid;
      SetData(b, data);
      var ok := Bwrite(b);
      ok := Brelse(b);
    }

    // Read a sector and let it go.
    method Load(s: nat) returns (r: Outcome, data: Block)
      requires Valid() && s < |disk|
      modifies this`slot, this`ring, buf, next, prev
      ensures r.Sleep? <==> HeldBy(old(buf[..]), s)
      ensures r.NoBuffers? <==> NoneFor(old(buf[..]), old(slot), s)
      ensures r.NoBuffers? ==> s !in pinned && NBUF <= |old(Held(buf[..]))| + |pinned.Keys|
      ensures !r.OutOfRange?
      ensures r.Got? ==> Valid() && SameHeld(old(buf[..]), buf[..]) && data == View(s)
    {
      hide Valid;
      hide SameHeld;
      data := Block([]);
      r := Bread(s);
      if r.Got? {
        data := buf[r.b].data;
        var ok := Brelse(r.b);
        ReleasedAgain(old(buf[..]), r.b, buf[r.b], r.b, buf[r.b]);
        assert buf[..] == old(buf[..])[r.b := buf[r.b]][r.b := buf[r.b]];
      }
    }

    // The rest of install_trans's step once it holds the log block lb: read the destination, copy,
    // write it and let both go.
    method CopyHeld(lb: nat, to: nat) returns (r: Outcome)
      requires Valid() && lb < NBUF == buf.Length && to < |disk|
      requires buf[lb].busy && buf[lb].valid && buf[lb].sector < |disk| && buf[lb].sector != to
      requires buf[lb].data == View(buf[lb].sector)
      modifies this, buf, next, prev
      ensures Valid() && !r.OutOfRange?
      ensures r.Sleep? <==> HeldBy(LetGo(old(buf[..]), lb), to)
      ensures r.NoBuffers? <==> NoneFor(old(buf[..]), old(slot), to)
      ensures r.NoBuffers? ==> to !in old(pinned) && NBUF <= |old(Held(buf[..]))| + |old(pinned).Keys|
      ensures !r.Got? ==> buf[..] == old(buf[..]) && disk == old(disk) && trace == old(trace) && pinned == old(pinned)
      ensures r.Got? ==> SameHeld(LetGo(old(buf[..]), lb), buf[..]) && Spare(buf[..])
      ensures r.Got? ==>
                && disk == old(disk)[to := old(buf[lb].data)]
                && trace == old(trace) + [disk] && pinned == old(pinned) - {to}
    {
      hide Valid, SameHeld, HeldBy, Held, LetGo, NoneFor, Spare;
      OthersHold(buf[..], lb, to);
      r := Bread(to);
      if r.Got? {
        ghost var b1 := buf[..];
        FinishCopy(lb, r.b);
        CopiedHeld(old(buf[..]), lb, r.b, b1[r.b], buf[lb], buf[r.b]);
        SpareAt(buf[..], r.b);
      }
    }

    method FinishCopy(lb: nat, db: nat)
      requires Valid() && lb < NBUF && db < NBUF && lb != db && buf.Length == NBUF
      requires buf[lb].busy && buf[lb].valid && buf[db].busy && buf[db].valid
      requires buf[lb].sector < |disk| && buf[lb].sector != buf[db].sector && buf[lb].data == View(buf[lb].sector)
      modifies this, buf, next, prev
      ensures Valid()
      ensures buf[..] == old(buf[..])[lb := buf[lb]][db := buf[db]] && !buf[lb].busy && !buf[db].busy
              && !buf[db].dirty
      ensures var s := old(buf[db].sector);
              && s < |old(disk)| && disk == old(disk)[s := old(buf[lb].data)]
              && trace == old(trace) + [disk] && pinned == old(pinned) - {s}
    {
      hide Valid;
      SetData(db, buf[lb].data);
      var ok := Bwrite(db);
      ok := Brelse(lb);
      ok := Brelse(db);
    }

    // The forward scan: the buffer that caches s, or HEAD.
    method FindCached(s: nat) returns (b: nat)
      requires Valid()
      ensures b == if s in slot then slot[s] else HEAD
    {
      assert LinkAt(next[..], prev[..], ring, 0);
      b := next[HEAD];
      ghost var i := 0;
      while b != HEAD
        invariant 0 <= i <= NBUF && b == At(ring, i + 1)
        invariant forall j :: 0 <= j < i ==> !(buf[ring[j]].dev == ROOTDEV && buf[ring[j]].sector == s)
        decreases NBUF - i
      {
        if buf[b].dev == ROOTDEV && buf[b].sector == s {
          return;
        }
        i := i + 1;
        assert LinkAt(next[..], prev[..], ring, i);
        b := next[b];
      }
      if s in slot {
        DistinctCover(ring, NBUF, slot[s]);
        assert false;
      }
    }

    // The backward scan: the least recently used clean buffer nobody holds, or HEAD.
    method FindVictim() returns (b: nat)
      requires Valid()
      ensures b == HEAD ==> forall k :: 0 <= k < NBUF ==> buf[k].busy || buf[k].dirty
      ensures b != HEAD ==> b < NBUF && !buf[b].busy && !buf[b].dirty
      ensures b != HEAD ==> LeastRecent(ring, buf[..], b)
    {
      assert LinkAt(next[..], prev[..], ring, NBUF);
      b := prev[HEAD];
      ghost var i := NBUF;
      while b != HEAD
        invariant 0 <= i <= NBUF && b == At(ring, i)
        invariant forall j :: i <= j < NBUF ==> buf[ring[j]].busy || buf[ring[j]].dirty
        decreases i
      {
        if !buf[b].busy && !buf[b].dirty {
          return;
        }
        assert LinkAt(next[..], prev[..], ring, i - 1);
        i := i - 1;
        b := prev[b];
      }
      forall k | 0 <= k < NBUF ensures buf[k].busy || buf[k].dirty {
        DistinctCover(ring, NBUF, k);
      }
    }
  }

  // Buffer b now caches sector s and no longer the sector it cached before.
  ghost function SlotsAfter(slot: map<nat, nat>, buf: seq<Buf>, b: nat, s: nat): (r: map<nat, nat>)
    requires b < |buf|
  {
    if buf[b].dev == ROOTDEV then (slot - {buf[b].sector})[s := b] else slot[s := b]
  }
}
