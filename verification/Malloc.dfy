/**
  The user-level allocator (umalloc.c), The C Programming Language 2nd ed., section 8.7.

  Headers live in memory at byte addresses; `ptr` and `size` are their two fields.  A block of n
  units covers the 8n bytes from its header on.  The free list is circular; `ring` is its order
  by address, from the static header `base`, which has size 0.
 */
module Malloc {
  import opened Finite
  import A = AddressSpace
  import V = VmSpec

  const UNIT: int := 8
  const UINT: int := 0x1_0000_0000
  const KERNBASE: int := 0x8000_0000

  type Field = map<int, int>

  function At(m: Field, a: int): int
  {
    if a in m then m[a] else 0
  }

  function End(size: Field, a: int): int
  {
    a + UNIT * At(size, a)
  }

  // ---------- the free list by address ----------

  // Neighbours in address order neither overlap nor touch.
  ghost predicate GapAt(ring: seq<int>, size: Field, i: int)
  {
    0 <= i < |ring| - 1 ==> End(size, ring[i]) < ring[i + 1]
  }

  ghost predicate SizeAt(ring: seq<int>, size: Field, i: int)
  {
    0 <= i < |ring| ==> if i == 0 then At(size, ring[i]) == 0 else At(size, ring[i]) > 0
  }

  ghost predicate Ordered(ring: seq<int>, size: Field)
  {
    |ring| >= 1 && (forall i :: GapAt(ring, size, i)) && (forall i :: SizeAt(ring, size, i))
  }

  function Next(ring: seq<int>, i: int): int
    requires 0 <= i < |ring|
  {
    if i + 1 < |ring| then ring[i + 1] else ring[0]
  }

  ghost predicate ChainAt(ring: seq<int>, ptr: Field, i: int)
  {
    0 <= i < |ring| ==> At(ptr, ring[i]) == Next(ring, i)
  }

  ghost predicate Chained(ring: seq<int>, ptr: Field)
  {
    forall i :: ChainAt(ring, ptr, i)
  }

  // Blocks further along lie beyond blocks before them.
  lemma {:induction false} Sorted(ring: seq<int>, size: Field, i: int, j: int)
    requires Ordered(ring, size) && 0 <= i < j < |ring|
    ensures ring[i] <= End(size, ring[i]) < ring[j]
    decreases j - i
  {
    assert GapAt(ring, size, j - 1) && SizeAt(ring, size, i) && SizeAt(ring, size, j - 1);
    if i < j - 1 {
      Sorted(ring, size, i, j - 1);
    }
  }

  // ---------- blocks that must not overlap ----------

  ghost predicate Apart(a: int, endA: int, b: int, endB: int)
  {
    endA <= b || endB <= a
  }

  ghost predicate FreeApart(ring: seq<int>, size: Field, live: Field, i: int, h: int)
  {
    0 <= i < |ring| && h in live ==> Apart(ring[i], End(size, ring[i]), h, h + UNIT * live[h])
  }

  ghost predicate LiveApart(live: Field, h: int, g: int)
  {
    h in live && g in live && h != g ==> Apart(h, h + UNIT * live[h], g, g + UNIT * live[g])
  }

  ghost predicate LiveOk(size: Field, live: Field, base: int, top: int, h: int)
  {
    h in live ==> live[h] > 0 && At(size, h) == live[h] && base < h && h + UNIT * live[h] <= top
  }

  // ---------- units ----------

  function FreeUnits(ring: seq<int>, size: Field): int
  {
    if ring == [] then 0 else At(size, ring[0]) + FreeUnits(ring[1..], size)
  }

  ghost function UnitsOf(keys: set<int>, live: Field): int
  {
    if keys == {} then 0 else
      var h := Pick(keys);
      At(live, h) + UnitsOf(keys - {h}, live)
  }

  ghost function LiveUnits(live: Field): int
  {
    UnitsOf(live.Keys, live)
  }

  lemma {:induction false} FreeUnitsAppend(a: seq<int>, b: seq<int>, size: Field)
    ensures FreeUnits(a + b, size) == FreeUnits(a, size) + FreeUnits(b, size)
  {
    if a == [] {
      assert a + b == b;
    } else {
      assert (a + b)[1..] == a[1..] + b;
      FreeUnitsAppend(a[1..], b, size);
    }
  }

  lemma {:induction false} FreeUnitsSame(a: seq<int>, size: Field, size': Field)
    requires forall i :: 0 <= i < |a| ==> At(size', a[i]) == At(size, a[i])
    ensures FreeUnits(a, size') == FreeUnits(a, size)
  {
    if a != [] {
      FreeUnitsSame(a[1..], size, size');
    }
  }

  // Taking any block out of a set takes its units out of the sum.
  lemma {:induction false} UnitsRemove(keys: set<int>, live: Field, h: int)
    requires h in keys
    ensures UnitsOf(keys, live) == At(live, h) + UnitsOf(keys - {h}, live)
  {
    var g := Pick(keys);
    if g != h {
      UnitsRemove(keys - {g}, live, h);
      UnitsRemove(keys - {h}, live, g);
      assert keys - {g} - {h} == keys - {h} - {g};
    }
  }

  lemma {:induction false} UnitsSame(keys: set<int>, a: Field, b: Field)
    requires forall h :: h in keys ==> At(a, h) == At(b, h)
    ensures UnitsOf(keys, a) == UnitsOf(keys, b)
  {
    if keys != {} {
      UnitsSame(keys - {Pick(keys)}, a, b);
    }
  }

  lemma LiveUnitsRemove(live: Field, h: int)
    requires h in live
    ensures LiveUnits(live) == live[h] + LiveUnits(live - {h})
  {
    UnitsRemove(live.Keys, live, h);
    assert (live - {h}).Keys == live.Keys - {h};
    UnitsSame(live.Keys - {h}, live, live - {h});
  }

  lemma LiveUnitsAdd(live: Field, h: int, n: int)
    requires h !in live
    ensures LiveUnits(live[h := n]) == LiveUnits(live) + n
  {
    LiveUnitsRemove(live[h := n], h);
    assert live[h := n] - {h} == live;
  }

  // ---------- free ----------

  // The place of bp: the last block below it.
  ghost predicate Place(ring: seq<int>, bp: int, i: int)
  {
    0 <= i < |ring| && ring[i] < bp && (i + 1 < |ring| ==> bp < ring[i + 1])
  }

  // Does the block [bp, stop) touch the block after position i?
  predicate TouchesNext(ring: seq<int>, i: int, stop: int)
  {
    0 <= i && i + 1 < |ring| && stop == ring[i + 1]
  }

  // The list with bp in place, swallowing the next block when they touch.
  function InsertRing(ring: seq<int>, size: Field, i: int, bp: int): seq<int>
    requires 0 <= i < |ring|
  {
    ring[..i + 1] + [bp] + if TouchesNext(ring, i, End(size, bp)) then ring[i + 2..] else ring[i + 1..]
  }

  function InsertSize(ring: seq<int>, size: Field, i: int, bp: int): Field
    requires 0 <= i < |ring|
  {
    if TouchesNext(ring, i, End(size, bp)) then size[bp := At(size, bp) + At(size, ring[i + 1])] else size
  }

  // The list after block i has swallowed block i+1, if they touch.
  function JoinRing(ring: seq<int>, size: Field, i: int): seq<int>
    requires 0 <= i && i + 1 < |ring|
  {
    if End(size, ring[i]) == ring[i + 1] then ring[..i + 1] + ring[i + 2..] else ring
  }

  function JoinSize(ring: seq<int>, size: Field, i: int): Field
    requires 0 <= i && i + 1 < |ring|
  {
    if End(size, ring[i]) == ring[i + 1] then size[ring[i] := At(size, ring[i]) + At(size, ring[i + 1])] else size
  }

  // A block to be freed: apart from every free block and not empty.
  ghost predicate Insertable(ring: seq<int>, size: Field, i: int, bp: int)
  {
    && Ordered(ring, size) && Place(ring, bp, i) && At(size, bp) > 0
    && (forall k :: 0 <= k < |ring| ==> Apart(ring[k], End(size, ring[k]), bp, End(size, bp)))
  }

  // After the first step the list is ordered, except that bp may touch the block before it.
  ghost predicate OrderedBut(ring: seq<int>, size: Field, i: int)
  {
    && |ring| >= 1 && (forall k :: k != i ==> GapAt(ring, size, k)) && (forall k :: SizeAt(ring, size, k))
    && (0 <= i < |ring| - 1 ==> End(size, ring[i]) <= ring[i + 1] && ring[i] < ring[i + 1])
  }

  lemma RingAfterInsert(ring: seq<int>, size: Field, i: int, bp: int, k: int)
    requires Insertable(ring, size, i, bp) && 0 <= k < |InsertRing(ring, size, i, bp)|
    ensures var r := InsertRing(ring, size, i, bp);
            var t := if TouchesNext(ring, i, End(size, bp)) then 1 else 0;
            && (k <= i ==> r[k] == ring[k]) && (k == i + 1 ==> r[k] == bp)
            && (k > i + 1 ==> 0 <= k - 1 + t < |ring| && r[k] == ring[k - 1 + t])
            && (r[k] != bp ==> At(InsertSize(ring, size, i, bp), r[k]) == At(size, r[k]))
            && (r[k] == bp <==> k == i + 1)
  {
    if k <= i {
      if k < i {
        Sorted(ring, size, k, i);
      }
    } else if k > i + 1 {
      var t := if TouchesNext(ring, i, End(size, bp)) then 1 else 0;
      if i + 1 < k - 1 + t {
        Sorted(ring, size, i + 1, k - 1 + t);
      }
    }
  }

  lemma InsertOrdered(ring: seq<int>, size: Field, i: int, bp: int)
    requires Insertable(ring, size, i, bp)
    ensures OrderedBut(InsertRing(ring, size, i, bp), InsertSize(ring, size, i, bp), i)
  {
    var r, s := InsertRing(ring, size, i, bp), InsertSize(ring, size, i, bp);
    forall k ensures SizeAt(r, s, k) {
      if 0 <= k < |r| {
        RingAfterInsert(ring, size, i, bp, k);
        assert SizeAt(ring, size, k) && SizeAt(ring, size, k - 1) && SizeAt(ring, size, i + 1);
      }
    }
    forall k | k != i ensures GapAt(r, s, k) {
      if 0 <= k < |r| - 1 {
        RingAfterInsert(ring, size, i, bp, k);
        RingAfterInsert(ring, size, i, bp, k + 1);
        assert GapAt(ring, size, k) && GapAt(ring, size, k - 1) && GapAt(ring, size, i + 1);
        assert SizeAt(ring, size, i + 1);
      }
    }
    assert SizeAt(ring, size, i);
    RingAfterInsert(ring, size, i, bp, i);
    RingAfterInsert(ring, size, i, bp, i + 1);
  }

  lemma InsertApart(ring: seq<int>, size: Field, i: int, bp: int, h: int, stop: int, k: int)
    requires Insertable(ring, size, i, bp) && h < stop && Apart(bp, End(size, bp), h, stop)
    requires forall j :: 0 <= j < |ring| ==> Apart(ring[j], End(size, ring[j]), h, stop)
    requires 0 <= k < |InsertRing(ring, size, i, bp)|
    ensures var r, s := InsertRing(ring, size, i, bp), InsertSize(ring, size, i, bp);
            Apart(r[k], End(s, r[k]), h, stop)
  {
    RingAfterInsert(ring, size, i, bp, k);
    var r := InsertRing(ring, size, i, bp);
    var t := if TouchesNext(ring, i, End(size, bp)) then 1 else 0;
    if k == i + 1 && t == 1 {
      assert Apart(ring[i + 1], End(size, ring[i + 1]), h, stop);
    } else if k <= i {
      assert Apart(ring[k], End(size, ring[k]), h, stop);
    } else if k > i + 1 {
      assert Apart(ring[k - 1 + t], End(size, ring[k - 1 + t]), h, stop);
    }
  }

  lemma InsertUnits(ring: seq<int>, size: Field, i: int, bp: int)
    requires Insertable(ring, size, i, bp)
    ensures FreeUnits(InsertRing(ring, size, i, bp), InsertSize(ring, size, i, bp)) == FreeUnits(ring, size)
            + At(size, bp)
  {
    var r, s := InsertRing(ring, size, i, bp), InsertSize(ring, size, i, bp);
    var touch := TouchesNext(ring, i, End(size, bp));
    var tail := if touch then ring[i + 2..] else ring[i + 1..];
    var t := if touch then 1 else 0;
    FreeUnitsAppend(ring[..i + 1] + [bp], tail, s);
    FreeUnitsAppend(ring[..i + 1], [bp], s);
    var head := ring[..i + 1];
    forall k | 0 <= k < |head| ensures At(s, head[k]) == At(size, head[k]) {
      RingAfterInsert(ring, size, i, bp, k);
    }
    FreeUnitsSame(ring[..i + 1], size, s);
    forall k | 0 <= k < |tail| ensures At(s, tail[k]) == At(size, tail[k]) {
      RingAfterInsert(ring, size, i, bp, i + 2 + k);
    }
    FreeUnitsSame(tail, size, s);
    FreeUnitsAppend(ring[..i + 1], ring[i + 1..], size);
    assert ring == ring[..i + 1] + ring[i + 1..];
    assert touch ==> ring[i + 1..] == [ring[i + 1]] + tail;
  }

  lemma {:induction false} FreeUnitsCons(x: int, c: seq<int>, size: Field)
    ensures FreeUnits([x] + c, size) == At(size, x) + FreeUnits(c, size)
  {
    assert ([x] + c)[1..] == c;
  }

  lemma {:induction false} SortedBut(ring: seq<int>, size: Field, i: int, a: int, b: int)
    requires OrderedBut(ring, size, i) && 0 <= a < b < |ring|
    ensures ring[a] < ring[b]
    decreases b - a
  {
    assert SizeAt(ring, size, b - 1);
    assert b - 1 != i ==> GapAt(ring, size, b - 1);
    if a < b - 1 {
      SortedBut(ring, size, i, a, b - 1);
    }
  }

  // Joining two touching blocks keeps the rest of the list ...
  lemma RingAfterJoin(ring: seq<int>, size: Field, i: int, k: int)
    requires OrderedBut(ring, size, i) && 0 <= i && i + 1 < |ring| && End(size, ring[i]) == ring[i + 1]
    requires 0 <= k < |ring| - 1
    ensures var r, s := JoinRing(ring, size, i), JoinSize(ring, size, i);
            && |r| == |ring| - 1
            && r[k] == (if k <= i then ring[k] else ring[k + 1])
            && At(s, r[k]) == (if k == i then At(size, ring[i]) + At(size, ring[i + 1]) else At(size, r[k]))
  {
    if k < i {
      SortedBut(ring, size, i, k, i);
    } else if k > i {
      SortedBut(ring, size, i, i, k + 1);
    }
  }

  lemma JoinOrdered(ring: seq<int>, size: Field, i: int)
    requires OrderedBut(ring, size, i) && 0 <= i && i + 1 < |ring|
    ensures Ordered(JoinRing(ring, size, i), JoinSize(ring, size, i))
  {
    var r, s := JoinRing(ring, size, i), JoinSize(ring, size, i);
    if End(size, ring[i]) == ring[i + 1] {
      forall k ensures SizeAt(r, s, k) && GapAt(r, s, k) {
        if 0 <= k < |ring| - 1 {
          RingAfterJoin(ring, size, i, k);
          assert SizeAt(ring, size, k) && SizeAt(ring, size, k + 1) && SizeAt(ring, size, i);
          if k < |ring| - 2 {
            RingAfterJoin(ring, size, i, k + 1);
            assert k < i ==> GapAt(ring, size, k);
            assert k >= i ==> GapAt(ring, size, k + 1);
          }
        }
      }
    } else {
      forall k ensures GapAt(ring, size, k) {
        assert k != i ==> GapAt(ring, size, k);
      }
    }
  }

  // ... and the number of free units ...
  lemma JoinUnits(ring: seq<int>, size: Field, i: int)
    requires OrderedBut(ring, size, i) && 0 <= i && i + 1 < |ring|
    ensures FreeUnits(JoinRing(ring, size, i), JoinSize(ring, size, i)) == FreeUnits(ring, size)
  {
    hide FreeUnits, OrderedBut;
    if End(size, ring[i]) == ring[i + 1] {
      var s := JoinSize(ring, size, i);
      var a, c := ring[..i], ring[i + 2..];
      var x, y := ring[i], ring[i + 1];
      assert JoinRing(ring, size, i) == a + ([x] + c);
      FreeUnitsAppend(a, [x] + c, s);
      FreeUnitsCons(x, c, s);
      assert ring == a + ([x] + ([y] + c));
      FreeUnitsAppend(a, [x] + ([y] + c), size);
      FreeUnitsCons(x, [y] + c, size);
      FreeUnitsCons(y, c, size);
      JoinElsewhere(ring, size, i);
      FreeUnitsSame(a, size, s);
      FreeUnitsSame(c, size, s);
    }
  }

  // The other blocks keep their sizes.
  lemma JoinElsewhere(ring: seq<int>, size: Field, i: int)
    requires OrderedBut(ring, size, i) && 0 <= i && i + 1 < |ring|
    ensures var s, a, c := JoinSize(ring, size, i), ring[..i], ring[i + 2..];
            && (forall k :: 0 <= k < |a| ==> At(s, a[k]) == At(size, a[k]))
            && (forall k :: 0 <= k < |c| ==> At(s, c[k]) == At(size, c[k]))
  {
    hide OrderedBut, End;
    var s, a, c := JoinSize(ring, size, i), ring[..i], ring[i + 2..];
    forall k | 0 <= k < |a| ensures At(s, a[k]) == At(size, a[k]) {
      SortedBut(ring, size, i, k, i);
    }
    forall k | 0 <= k < |c| ensures At(s, c[k]) == At(size, c[k]) {
      SortedBut(ring, size, i, i, i + 2 + k);
    }
  }

  // ... and stays clear of what both blocks were clear of.
  lemma JoinApart(ring: seq<int>, size: Field, i: int, h: int, stop: int, k: int)
    requires OrderedBut(ring, size, i) && 0 <= i && i + 1 < |ring| && h < stop
    requires forall j :: 0 <= j < |ring| ==> Apart(ring[j], End(size, ring[j]), h, stop)
    requires 0 <= k < |JoinRing(ring, size, i)|
    ensures var r, s := JoinRing(ring, size, i), JoinSize(ring, size, i);
            Apart(r[k], End(s, r[k]), h, stop)
  {
    assert Apart(ring[i], End(size, ring[i]), h, stop) && Apart(ring[i + 1], End(size, ring[i + 1]), h, stop);
    assert Apart(ring[k], End(size, ring[k]), h, stop);
    if End(size, ring[i]) == ring[i + 1] {
      RingAfterJoin(ring, size, i, k);
      assert Apart(ring[k + 1], End(size, ring[k + 1]), h, stop);
    }
  }

  // ---------- the heap ----------

  ghost predicate EndAt(ring: seq<int>, size: Field, top: int, i: int)
  {
    0 <= i < |ring| ==> End(size, ring[i]) <= top
  }

  datatype Heap = Heap(base: int, top: int, ptr: Field, size: Field)

  // The free list is the circular list of ring in address order, its blocks neither overlap nor
  // touch, live blocks overlap neither free blocks nor each other, and every unit ever obtained
  // from the kernel is in exactly one block.
  ghost predicate HeapOk(m: Heap, ring: seq<int>, live: Field, obtained: int)
  {
    && Ordered(ring, m.size) && Chained(ring, m.ptr) && ring[0] == m.base
    && (forall i :: EndAt(ring, m.size, m.top, i))
    && (forall h :: LiveOk(m.size, live, m.base, m.top, h))
    && (forall i, h :: FreeApart(ring, m.size, live, i, h))
    && (forall h, g :: LiveApart(live, h, g))
    && FreeUnits(ring, m.size) + LiveUnits(live) == obtained
  }

  // What free does to the headers once it has found the place i of bp.
  function Freed(m: Heap, p: int, bp: int): Heap
  {
    var next := At(m.ptr, p);
    var size1 := if End(m.size, bp) == next then m.size[bp := At(m.size, bp) + At(m.size, next)] else m.size;
    var ptr1 := m.ptr[bp := if End(m.size, bp) == next then At(m.ptr, next) else next];
    if End(size1, p) == bp then
      m.(size := size1[p := At(size1, p) + At(size1, bp)], ptr := ptr1[p := At(ptr1, bp)])
    else
      m.(size := size1, ptr := ptr1[p := bp])
  }

  ghost function FreedRing(ring: seq<int>, size: Field, i: int, bp: int): seq<int>
    requires 0 <= i < |ring|
  {
    JoinRing(InsertRing(ring, size, i, bp), InsertSize(ring, size, i, bp), i)
  }

  lemma LiveInsertable(m: Heap, ring: seq<int>, live: Field, obtained: int, i: int, bp: int)
    requires HeapOk(m, ring, live, obtained) && bp in live && Place(ring, bp, i)
    ensures Insertable(ring, m.size, i, bp)
    ensures m.base < bp && End(m.size, bp) == bp + UNIT * live[bp] <= m.top
    ensures TouchesNext(ring, i, End(m.size, bp)) <==> End(m.size, bp) == At(m.ptr, ring[i])
  {
    assert LiveOk(m.size, live, m.base, m.top, bp);
    forall k | 0 <= k < |ring| ensures Apart(ring[k], End(m.size, ring[k]), bp, End(m.size, bp)) {
      assert FreeApart(ring, m.size, live, k, bp);
    }
    assert ChainAt(ring, m.ptr, i);
  }

  lemma FreedSize(m: Heap, ring: seq<int>, live: Field, obtained: int, i: int, bp: int)
    requires HeapOk(m, ring, live, obtained) && bp in live && Place(ring, bp, i)
    ensures Insertable(ring, m.size, i, bp)
    ensures Freed(m, ring[i], bp).size == JoinSize(InsertRing(ring, m.size, i, bp), InsertSize(ring, m.size, i, bp), i)
  {
    LiveInsertable(m, ring, live, obtained, i, bp);
    assert ChainAt(ring, m.ptr, i);
    RingAfterInsert(ring, m.size, i, bp, i);
    RingAfterInsert(ring, m.size, i, bp, i + 1);
  }

  function InsertPtr(ring: seq<int>, ptr: Field, size: Field, i: int, bp: int): Field
    requires 0 <= i < |ring|
  {
    ptr[bp := if TouchesNext(ring, i, End(size, bp)) then At(ptr, ring[i + 1]) else At(ptr, ring[i])]
  }

  lemma InsertChain(ring: seq<int>, ptr: Field, size: Field, i: int, bp: int, k: int)
    requires Insertable(ring, size, i, bp) && Chained(ring, ptr) && k != i
    ensures ChainAt(InsertRing(ring, size, i, bp), InsertPtr(ring, ptr, size, i, bp), k)
  {
    hide Insertable, InsertRing, Chained;
    InsertLength(ring, size, i, bp);
    var r := InsertRing(ring, size, i, bp);
    if 0 <= k < |r| {
      RingAfterInsert(ring, size, i, bp, k);
      var t := if TouchesNext(ring, i, End(size, bp)) then 1 else 0;
      if k + 1 < |r| {
        RingAfterInsert(ring, size, i, bp, k + 1);
      }
      RingAfterInsert(ring, size, i, bp, 0);
      ChainedAt(ring, ptr, if k < i then k else if k > i + 1 then k - 1 + t else i + t);
    }
  }

  lemma ChainedAt(ring: seq<int>, ptr: Field, k: int)
    requires Chained(ring, ptr)
    ensures ChainAt(ring, ptr, k)
  {
  }

  lemma InsertLength(ring: seq<int>, size: Field, i: int, bp: int)
    requires Insertable(ring, size, i, bp)
    ensures 0 <= i < |ring|
    ensures |InsertRing(ring, size, i, bp)| == |ring| + if TouchesNext(ring, i, End(size, bp)) then 0 else 1
  {
  }

  lemma JoinChain(ring: seq<int>, ptr: Field, size: Field, i: int, k: int)
    requires OrderedBut(ring, size, i) && 0 <= i && i + 1 < |ring|
    requires forall j :: j != i ==> ChainAt(ring, ptr, j)
    ensures var q := ptr[ring[i] := if End(size, ring[i]) == ring[i + 1] then At(ptr, ring[i + 1]) else ring[i + 1]];
            ChainAt(JoinRing(ring, size, i), q, k)
  {
    hide OrderedBut;
    var r := JoinRing(ring, size, i);
    if 0 <= k < |r| {
      var k1 := if r != ring && k > i then k + 1 else k;
      assert r[k] == ring[k1];
      assert k1 != i ==> ChainAt(ring, ptr, k1);
      assert ChainAt(ring, ptr, i + 1);
      if k1 < i {
        SortedBut(ring, size, i, k1, i);
      } else if k1 > i {
        SortedBut(ring, size, i, i, k1);
      }
    }
  }

  lemma FreedChain(m: Heap, ring: seq<int>, live: Field, obtained: int, i: int, bp: int)
    requires HeapOk(m, ring, live, obtained) && bp in live && Place(ring, bp, i)
    ensures Chained(FreedRing(ring, m.size, i, bp), Freed(m, ring[i], bp).ptr)
  {
    hide Ordered;
    hide OrderedBut;
    LiveInsertable(m, ring, live, obtained, i, bp);
    var r1, s1 := InsertRing(ring, m.size, i, bp), InsertSize(ring, m.size, i, bp);
    var q1 := InsertPtr(ring, m.ptr, m.size, i, bp);
    InsertOrdered(ring, m.size, i, bp);
    assert ChainAt(ring, m.ptr, i);
    RingAfterInsert(ring, m.size, i, bp, i);
    RingAfterInsert(ring, m.size, i, bp, i + 1);
    forall k | k != i ensures ChainAt(r1, q1, k) {
      InsertChain(ring, m.ptr, m.size, i, bp, k);
    }
    var q := q1[r1[i] := if End(s1, r1[i]) == r1[i + 1] then At(q1, r1[i + 1]) else r1[i + 1]];
    assert Freed(m, ring[i], bp).ptr == q;
    forall k ensures ChainAt(FreedRing(ring, m.size, i, bp), q, k) {
      JoinChain(r1, q1, s1, i, k);
    }
  }

  // Freeing a live block keeps the heap invariant and loses no unit.
  lemma FreeKeeps(m: Heap, ring: seq<int>, live: Field, obtained: int, i: int, bp: int)
    requires HeapOk(m, ring, live, obtained) && bp in live && Place(ring, bp, i)
    ensures HeapOk(Freed(m, ring[i], bp), FreedRing(ring, m.size, i, bp), live - {bp}, obtained)
  {
    hide FreeUnits;
    hide UnitsOf;
    hide Chained;
    LiveInsertable(m, ring, live, obtained, i, bp);
    FreedSize(m, ring, live, obtained, i, bp);
    FreedChain(m, ring, live, obtained, i, bp);
    var r1, s1 := InsertRing(ring, m.size, i, bp), InsertSize(ring, m.size, i, bp);
    var r, m', live' := FreedRing(ring, m.size, i, bp), Freed(m, ring[i], bp), live - {bp};
    InsertOrdered(ring, m.size, i, bp);
    JoinOrdered(r1, s1, i);
    InsertUnits(ring, m.size, i, bp);
    JoinUnits(r1, s1, i);
    LiveUnitsRemove(live, bp);
    assert LiveOk(m.size, live, m.base, m.top, bp);
    forall k ensures EndAt(r, m'.size, m'.top, k) {
      FreedEnd(m, ring, live, obtained, i, bp, k);
    }
    forall h ensures LiveOk(m'.size, live', m'.base, m'.top, h) {
      FreedLive(m, ring, live, obtained, i, bp, h);
    }
    forall k, h ensures FreeApart(r, m'.size, live', k, h) {
      FreedApart(m, ring, live, obtained, i, bp, k, h);
    }
    forall h, g ensures LiveApart(live', h, g) {
      assert LiveApart(live, h, g);
    }
  }

  lemma FreedEnd(m: Heap, ring: seq<int>, live: Field, obtained: int, i: int, bp: int, k: int)
    requires HeapOk(m, ring, live, obtained) && bp in live && Place(ring, bp, i)
    ensures EndAt(FreedRing(ring, m.size, i, bp), Freed(m, ring[i], bp).size, m.top, k)
  {
    hide HeapOk;
    LiveInsertable(m, ring, live, obtained, i, bp);
    FreedSize(m, ring, live, obtained, i, bp);
    var r1, r := InsertRing(ring, m.size, i, bp), FreedRing(ring, m.size, i, bp);
    if 0 <= k < |r| {
      forall j | 0 <= j < |ring| ensures Apart(ring[j], End(m.size, ring[j]), m.top, m.top + 1) && ring[j] <= m.top {
        FreeBelow(m, ring, live, obtained, j);
      }
      ClearOfBoth(ring, m.size, i, bp, m.top, m.top + 1, k);
      var k1 := if r != r1 && k > i then k + 1 else k;
      assert r[k] == r1[k1];
      RingAfterInsert(ring, m.size, i, bp, k1);
    }
  }

  lemma FreeBelow(m: Heap, ring: seq<int>, live: Field, obtained: int, j: int)
    requires HeapOk(m, ring, live, obtained) && 0 <= j < |ring|
    ensures ring[j] <= End(m.size, ring[j]) <= m.top
  {
    assert EndAt(ring, m.size, m.top, j) && SizeAt(ring, m.size, j);
  }

  // What is clear of every free block and of bp is clear of every free block afterwards.
  lemma ClearOfBoth(ring: seq<int>, size: Field, i: int, bp: int, h: int, stop: int, k: int)
    requires Insertable(ring, size, i, bp) && h < stop && Apart(bp, End(size, bp), h, stop)
    requires forall j :: 0 <= j < |ring| ==> Apart(ring[j], End(size, ring[j]), h, stop)
    requires 0 <= k < |FreedRing(ring, size, i, bp)|
    ensures var r := FreedRing(ring, size, i, bp);
            var s := JoinSize(InsertRing(ring, size, i, bp), InsertSize(ring, size, i, bp), i);
            Apart(r[k], End(s, r[k]), h, stop)
  {
    hide Ordered;
    hide OrderedBut;
    InsertOrdered(ring, size, i, bp);
    var r1, s1 := InsertRing(ring, size, i, bp), InsertSize(ring, size, i, bp);
    forall j | 0 <= j < |r1| ensures Apart(r1[j], End(s1, r1[j]), h, stop) {
      InsertApart(ring, size, i, bp, h, stop, j);
    }
    JoinApart(r1, s1, i, h, stop, k);
  }

  lemma FreedLive(m: Heap, ring: seq<int>, live: Field, obtained: int, i: int, bp: int, h: int)
    requires HeapOk(m, ring, live, obtained) && bp in live && Place(ring, bp, i)
    ensures LiveOk(Freed(m, ring[i], bp).size, live - {bp}, m.base, m.top, h)
  {
    assert LiveOk(m.size, live, m.base, m.top, h) && FreeApart(ring, m.size, live, i, h);
    assert SizeAt(ring, m.size, i);
  }

  lemma FreedApart(m: Heap, ring: seq<int>, live: Field, obtained: int, i: int, bp: int, k: int, h: int)
    requires HeapOk(m, ring, live, obtained) && bp in live && Place(ring, bp, i)
    ensures FreeApart(FreedRing(ring, m.size, i, bp), Freed(m, ring[i], bp).size, live - {bp}, k, h)
  {
    LiveInsertable(m, ring, live, obtained, i, bp);
    FreedSize(m, ring, live, obtained, i, bp);
    if 0 <= k < |FreedRing(ring, m.size, i, bp)| && h in live - {bp} {
      var stop := h + UNIT * live[h];
      assert LiveOk(m.size, live, m.base, m.top, h) && LiveApart(live, bp, h);
      forall j | 0 <= j < |ring| ensures Apart(ring[j], End(m.size, ring[j]), h, stop) {
        assert FreeApart(ring, m.size, live, j, h);
      }
      ClearOfBoth(ring, m.size, i, bp, h, stop, k);
    }
  }

  // ---------- malloc ----------

  // What malloc does to the headers when block p, after prev, has at least n units.
  function Taken(m: Heap, prev: int, p: int, n: int): Heap
  {
    if At(m.size, p) == n then
      m.(ptr := m.ptr[prev := At(m.ptr, p)])
    else
      var rest := At(m.size, p) - n;
      m.(size := m.size[p := rest][p + UNIT * rest := n])
  }

  // The header of the block handed out.
  function TakenBlock(m: Heap, p: int, n: int): int
  {
    p + UNIT * (At(m.size, p) - n)
  }

  ghost function TakenRing(m: Heap, ring: seq<int>, j: int, n: int): seq<int>
    requires 0 <= j < |ring|
  {
    if At(m.size, ring[j]) == n then ring[..j] + ring[j + 1..] else ring
  }

  ghost predicate Takable(m: Heap, ring: seq<int>, j: int, n: int)
  {
    Ordered(ring, m.size) && 1 <= j < |ring| && 0 < n <= At(m.size, ring[j])
  }

  // The list and the sizes after handing out n units of block j.
  lemma RingAfterTake(m: Heap, ring: seq<int>, j: int, n: int, k: int)
    requires Takable(m, ring, j, n) && 0 <= k < |TakenRing(m, ring, j, n)|
    ensures var r, s := TakenRing(m, ring, j, n), Taken(m, ring[j - 1], ring[j], n).size;
            var exact := At(m.size, ring[j]) == n;
            && r[k] == ring[if exact && k >= j then k + 1 else k]
            && At(s, r[k]) == (if k == j && !exact then At(m.size, ring[j]) - n else At(m.size, r[k]))
            && r[k] != TakenBlock(m, ring[j], n)
  {
    var exact := At(m.size, ring[j]) == n;
    var k1 := if exact && k >= j then k + 1 else k;
    if k1 < j {
      Sorted(ring, m.size, k1, j);
    } else if k1 > j {
      Sorted(ring, m.size, j, k1);
    }
  }

  lemma TakenOrdered(m: Heap, ring: seq<int>, j: int, n: int)
    requires Takable(m, ring, j, n)
    ensures Ordered(TakenRing(m, ring, j, n), Taken(m, ring[j - 1], ring[j], n).size)
  {
    var r, s := TakenRing(m, ring, j, n), Taken(m, ring[j - 1], ring[j], n).size;
    forall k ensures SizeAt(r, s, k) && GapAt(r, s, k) {
      if 0 <= k < |r| {
        RingAfterTake(m, ring, j, n, k);
        assert SizeAt(ring, m.size, k) && SizeAt(ring, m.size, k + 1);
        if k + 1 < |r| {
          RingAfterTake(m, ring, j, n, k + 1);
          var exact := At(m.size, ring[j]) == n;
          var k1 := if exact && k >= j then k + 1 else k;
          Sorted(ring, m.size, k1, if exact && k + 1 >= j then k + 2 else k + 1);
        }
      }
    }
  }

  lemma TakenChain(m: Heap, ring: seq<int>, j: int, n: int, k: int)
    requires Takable(m, ring, j, n) && Chained(ring, m.ptr)
    ensures ChainAt(TakenRing(m, ring, j, n), Taken(m, ring[j - 1], ring[j], n).ptr, k)
  {
    var r := TakenRing(m, ring, j, n);
    if 0 <= k < |r| {
      RingAfterTake(m, ring, j, n, k);
      assert ChainAt(ring, m.ptr, k) && ChainAt(ring, m.ptr, k + 1) && ChainAt(ring, m.ptr, j);
      var exact := At(m.size, ring[j]) == n;
      if exact && k + 1 < j {
        Sorted(ring, m.size, k, j - 1);
      } else if exact && k >= j {
        Sorted(ring, m.size, j - 1, k + 1);
      }
    }
  }

  lemma TakenUnits(m: Heap, ring: seq<int>, j: int, n: int)
    requires Takable(m, ring, j, n)
    ensures FreeUnits(TakenRing(m, ring, j, n), Taken(m, ring[j - 1], ring[j], n).size) == FreeUnits(ring, m.size) - n
  {
    hide FreeUnits;
    var r, s := TakenRing(m, ring, j, n), Taken(m, ring[j - 1], ring[j], n).size;
    var a, p, c := ring[..j], ring[j], ring[j + 1..];
    assert ring == a + ([p] + c);
    FreeUnitsAppend(a, [p] + c, m.size);
    FreeUnitsCons(p, c, m.size);
    var exact := At(m.size, p) == n;
    forall k | 0 <= k < |a| ensures At(s, a[k]) == At(m.size, a[k]) {
      RingAfterTake(m, ring, j, n, k);
    }
    FreeUnitsSame(a, m.size, s);
    forall k | 0 <= k < |c| ensures At(s, c[k]) == At(m.size, c[k]) {
      RingAfterTake(m, ring, j, n, if exact then j + k else j + 1 + k);
    }
    FreeUnitsSame(c, m.size, s);
    if exact {
      FreeUnitsAppend(a, c, s);
    } else {
      RingAfterTake(m, ring, j, n, j);
      FreeUnitsAppend(a, [p] + c, s);
      FreeUnitsCons(p, c, s);
    }
  }

  // Every free block that is left lies inside a free block there was, clear of the block taken.
  lemma TakenInside(m: Heap, ring: seq<int>, j: int, n: int, k: int)
    requires Takable(m, ring, j, n) && 0 <= k < |TakenRing(m, ring, j, n)|
    ensures var r, s := TakenRing(m, ring, j, n), Taken(m, ring[j - 1], ring[j], n).size;
            var k1 := if At(m.size, ring[j]) == n && k >= j then k + 1 else k;
            var q := TakenBlock(m, ring[j], n);
            && r[k] == ring[k1] && End(s, r[k]) <= End(m.size, ring[k1])
            && Apart(r[k], End(s, r[k]), q, q + UNIT * n)
  {
    RingAfterTake(m, ring, j, n, k);
    var k1 := if At(m.size, ring[j]) == n && k >= j then k + 1 else k;
    if k1 < j {
      Sorted(ring, m.size, k1, j);
    } else if k1 > j {
      Sorted(ring, m.size, j, k1);
    }
  }

  // Handing out a block keeps the heap invariant: the block was part of one free block.
  lemma TakeKeeps(m: Heap, ring: seq<int>, live: Field, obtained: int, j: int, n: int)
    requires HeapOk(m, ring, live, obtained) && 1 <= j < |ring| && 0 < n <= At(m.size, ring[j])
    ensures var q := TakenBlock(m, ring[j], n);
            && q !in live && m.base < q
            && HeapOk(Taken(m, ring[j - 1], ring[j], n), TakenRing(m, ring, j, n), live[q := n], obtained)
  {
    hide FreeUnits;
    hide UnitsOf;
    var p := ring[j];
    var q := TakenBlock(m, p, n);
    var m', r, live' := Taken(m, ring[j - 1], p, n), TakenRing(m, ring, j, n), live[q := n];
    Sorted(ring, m.size, 0, j);
    FreeBelow(m, ring, live, obtained, j);
    assert LiveOk(m.size, live, m.base, m.top, q) && FreeApart(ring, m.size, live, j, q);
    LiveUnitsAdd(live, q, n);
    TakenUnits(m, ring, j, n);
    TakenOrdered(m, ring, j, n);
    RingAfterTake(m, ring, j, n, 0);
    forall k ensures ChainAt(r, m'.ptr, k) {
      TakenChain(m, ring, j, n, k);
    }
    forall k ensures EndAt(r, m'.size, m'.top, k) {
      if 0 <= k < |r| {
        TakenInside(m, ring, j, n, k);
        assert EndAt(ring, m.size, m.top, k) && EndAt(ring, m.size, m.top, k + 1);
      }
    }
    forall h ensures LiveOk(m'.size, live', m'.base, m'.top, h) {
      assert LiveOk(m.size, live, m.base, m.top, h) && FreeApart(ring, m.size, live, j, h);
    }
    forall h, g ensures LiveApart(live', h, g) {
      assert LiveApart(live, h, g) && FreeApart(ring, m.size, live, j, h) && FreeApart(ring, m.size, live, j, g);
      assert LiveOk(m.size, live, m.base, m.top, h) && LiveOk(m.size, live, m.base, m.top, g);
    }
    forall k, h ensures FreeApart(r, m'.size, live', k, h) {
      if 0 <= k < |r| {
        TakenInside(m, ring, j, n, k);
        assert FreeApart(ring, m.size, live, k, h) && FreeApart(ring, m.size, live, k + 1, h);
        assert LiveOk(m.size, live, m.base, m.top, h);
      }
    }
  }

  // ---------- searching ----------

  // Every address above base has a place in the list.
  lemma {:induction false} HasPlace(ring: seq<int>, bp: int, n: int) returns (i: int)
    requires 0 < n <= |ring| && ring[0] < bp && bp !in ring && (n < |ring| ==> bp < ring[n])
    ensures Place(ring, bp, i)
  {
    if ring[n - 1] < bp {
      i := n - 1;
    } else {
      i := HasPlace(ring, bp, n - 1);
    }
  }

  // The test that ends free's search.
  predicate Stops(p: int, next: int, bp: int)
  {
    (bp > p && bp < next) || (p >= next && (bp > p || bp < next))
  }

  // The search ends at the place of bp and nowhere else.
  lemma StopsAtPlace(ring: seq<int>, size: Field, bp: int, i: int, j: int)
    requires Ordered(ring, size) && Place(ring, bp, i) && ring[0] < bp && 0 <= j < |ring|
    ensures Stops(ring[j], Next(ring, j), bp) <==> j == i
  {
    if j < i {
      Sorted(ring, size, j, i);
      if j + 1 < i {
        Sorted(ring, size, j + 1, i);
      }
    } else if i < j {
      if i + 1 < j {
        Sorted(ring, size, i + 1, j);
      }
    }
    if 0 < j {
      Sorted(ring, size, 0, j);
    }
    if j + 1 < |ring| {
      Sorted(ring, size, j, j + 1);
    }
  }

  // How far position j is behind position i, going round.
  function Steps(n: int, j: int, i: int): int
  {
    if j <= i then i - j else i - j + n
  }

  lemma Nearer(n: int, j: int, i: int)
    requires 0 <= j < n && 0 <= i < n && j != i
    ensures 0 <= Steps(n, if j + 1 < n then j + 1 else 0, i) < Steps(n, j, i)
  {
  }

  // Some free block has n units.
  ghost predicate HasFit(ring: seq<int>, size: Field, n: int)
  {
    exists k :: 0 <= k < |ring| && At(size, ring[k]) >= n
  }

  // No block between position i and position j, going round, has n units.
  ghost predicate NoneBefore(ring: seq<int>, size: Field, i: int, j: int, n: int)
  {
    forall k :: 0 <= k < |ring| && Steps(|ring|, k, i) > Steps(|ring|, j, i) ==> At(size, ring[k]) < n
  }

  // Position j is the first after position i, going round, whose block has n units.
  ghost predicate NextFit(ring: seq<int>, size: Field, i: int, j: int, n: int)
  {
    0 <= j < |ring| && At(size, ring[j]) >= n && NoneBefore(ring, size, i, j, n)
  }

  // Round to where it started: no block has them.
  lemma NoneAtAll(ring: seq<int>, size: Field, i: int, n: int)
    requires 0 <= i < |ring| && NoneBefore(ring, size, i, i, n) && At(size, ring[i]) < n
    ensures !HasFit(ring, size, n)
  {
  }

  lemma Fitting(ring: seq<int>, size: Field, j: int, n: int)
    requires 0 <= j < |ring| && At(size, ring[j]) >= n
    ensures HasFit(ring, size, n)
  {
  }

  lemma BaseIsShort(size: Field, base: int, n: int)
    requires At(size, base) == 0 && n > 0
    ensures !HasFit([base], size, n)
  {
  }

  lemma OneOn(ring: seq<int>, size: Field, i: int, j: int, n: int)
    requires 0 <= i < |ring| && 0 <= j < |ring| && j != i && NoneBefore(ring, size, i, j, n) && At(size, ring[j]) < n
    ensures NoneBefore(ring, size, i, if j + 1 < |ring| then j + 1 else 0, n)
  {
    var j' := if j + 1 < |ring| then j + 1 else 0;
    forall k | 0 <= k < |ring| && Steps(|ring|, k, i) > Steps(|ring|, j', i) ensures At(size, ring[k]) < n {
      assert k == j || Steps(|ring|, k, i) > Steps(|ring|, j, i);
    }
  }

  lemma NoneYet(ring: seq<int>, size: Field, i: int, n: int)
    requires 0 <= i < |ring|
    ensures NoneBefore(ring, size, i, if i + 1 < |ring| then i + 1 else 0, n)
  {
  }

  // ---------- the arithmetic of malloc ----------

  // The units that hold nbytes and a header, counted in 32-bit arithmetic.
  function Units(nbytes: nat): int
  {
    (nbytes + UNIT - 1) % UINT / UNIT + 1
  }

  // The block malloc looks for holds the bytes asked for exactly when the sum does not wrap.
  lemma UnitsHold(nbytes: nat)
    requires nbytes < UINT
    ensures UNIT * (Units(nbytes) - 1) >= nbytes <==> nbytes <= UINT - UNIT
    ensures nbytes > UINT - UNIT ==> Units(nbytes) == 1
  {
  }

  lemma UnitsBound(nbytes: nat)
    requires nbytes < UINT
    ensures 0 < Units(nbytes) <= UINT / UNIT
  {
  }

  // The bytes of nu units, cut to 32 bits and taken as a signed number: what sbrk receives.
  function SbrkArg(nu: int): int
  {
    var b := nu * UNIT % UINT;
    if b < UINT / 2 then b else b - UINT
  }

  // sbrk is asked for the right number of bytes exactly below 2^28 units.
  lemma SbrkArgRight(nu: int)
    requires 0 < nu <= UINT / UNIT
    ensures SbrkArg(nu) == nu * UNIT <==> nu < UINT / 2 / UNIT
  {
  }

  // morecore never asks for less than 4096 units.
  function Asked(nunits: int): int
  {
    if nunits < 4096 then 4096 else nunits
  }

  lemma SbrkSign(nu: int)
    requires 0 < nu <= UINT / UNIT
    ensures -UINT / 2 <= SbrkArg(nu) && (SbrkArg(nu) > 0 <==> nu < UINT / 2 / UNIT)
  {
  }

  // One request makes sbrk take away all of a process of sz bytes.
  lemma LosesAll(sz: int)
    requires 0 < sz <= UINT / 2 && sz % UNIT == 0
    ensures Units(UINT - sz - UNIT) >= UINT / 2 / UNIT && A.AllLost(sz, SbrkArg(Units(UINT - sz - UNIT)))
  {
    assert Units(UINT - sz - UNIT) * UNIT == UINT - sz;
  }

  // With the block morecore then frees, the heap invariant survives exactly below 2^28 units.
  lemma GrowIff(m: Heap, ring: seq<int>, live: Field, obtained: int, nu: int)
    requires HeapOk(m, ring, live, obtained) && m.base < m.top && 0 < m.base && 0 < nu <= UINT / UNIT
    ensures m.top !in live
    ensures var m' := m.(top := A.GrowSize(m.top, SbrkArg(nu)), size := m.size[m.top := nu]);
            HeapOk(m', ring, live[m.top := nu], obtained + nu) <==> nu < UINT / 2 / UNIT
  {
    hide HeapOk;
    GrowKeeps(m, ring, live, obtained, nu);
    SbrkArgRight(nu);
    if nu >= UINT / 2 / UNIT {
      var m' := m.(top := A.GrowSize(m.top, SbrkArg(nu)), size := m.size[m.top := nu]);
      OutOfHeap(m', ring, live[m.top := nu], obtained + nu, m.top);
    }
  }

  lemma OutOfHeap(m: Heap, ring: seq<int>, live: Field, obtained: int, h: int)
    requires h in live && m.top < h + UNIT * live[h]
    ensures !HeapOk(m, ring, live, obtained)
  {
    assert !LiveOk(m.size, live, m.base, m.top, h);
  }

  // Without memory there is no list.
  lemma NoHeap(m: Heap, ring: seq<int>, live: Field, obtained: int)
    requires m.ptr == map[] && m.base > 0
    ensures !HeapOk(m, ring, live, obtained)
  {
    if Ordered(ring, m.size) && ring[0] == m.base {
      if |ring| > 1 {
        Sorted(ring, m.size, 0, 1);
      }
      assert !ChainAt(ring, m.ptr, 0);
    }
  }

  // What the kernel makes of a request for more memory: it refuses, grants all of it, or, when just
  // a page table for the last page is missing, reports success without that page.
  datatype Reply = Refuses | Grants | Short

  class Allocator {
    const base: int
    var ptr: Field
    var size: Field
    var freep: int
    var brk: int        // the process size, where sbrk adds memory
    var short: bool     // the last page of it is missing

    ghost var ring: seq<int>
    ghost var at: int             // freep's position in ring
    ghost var live: Field         // header address -> units, of the blocks handed out
    ghost var obtained: int       // units got from sbrk

    ghost function Mem(): (r: Heap)
      reads this
    {
      Heap(base, if short then (brk - 1) / V.PGSIZE * V.PGSIZE else brk, ptr, size)
    }

    ghost predicate Ready()
      reads this
    {
      && HeapOk(Mem(), ring, live, obtained)
      && 0 <= at < |ring| && freep == ring[at]
      && 0 < base < brk && !short
    }

    ghost predicate Valid()
      reads this
    {
      Ready() || (freep == 0 && live == map[] && obtained == 0 && 0 < base < brk && !short)
    }

    // Nothing allocated yet; base lies in the data segment, below the break.
    constructor (base: int, brk: int)
      requires 0 < base < brk
      ensures Valid() && freep == 0 && this.base == base && this.brk == brk && live == map[] && obtained == 0
    {
      this.base, this.brk, short := base, brk, false;
      ptr, size, freep := map[], map[], 0;
      ring, at, live, obtained := [], 0, map[], 0;
    }

    // Put the block with header bp back on the free list.
    method Free(bp: int)
      requires Ready() && bp in live
      modifies this
      ensures Ready() && live == old(live) - {bp} && obtained == old(obtained) && brk == old(brk)
      ensures At(size, freep) >= old(live)[bp] || At(size, At(ptr, freep)) >= old(live)[bp]
    {
      hide HeapOk;
      ghost var i := PlaceOf(bp);
      var p := Search(bp, i);
      FreeKeeps(Mem(), ring, live, obtained, i, bp);
      FreedWhere(Mem(), ring, live, obtained, i, bp);
      ghost var m := Mem();
      Relink(p, bp);
      ring := FreedRing(ring, m.size, i, bp);
      at := i;
      live := live - {bp};
    }

    // Put bp after p in the list, joining it to its neighbours where they touch.
    method Relink(p: int, bp: int)
      modifies this`ptr, this`size, this`freep
      ensures Mem() == Freed(old(Mem()), p, bp) && freep == p
    {
      var next := At(ptr, p);
      if End(size, bp) == next {
        size := size[bp := At(size, bp) + At(size, next)];
        ptr := ptr[bp := At(ptr, next)];
      } else {
        ptr := ptr[bp := next];
      }
      if End(size, p) == bp {
        size := size[p := At(size, p) + At(size, bp)];
        ptr := ptr[p := At(ptr, bp)];
      } else {
        ptr := ptr[p := bp];
      }
      freep := p;
    }

    // Ask the kernel for n more bytes; -1 when it refuses.  A negative n shrinks the process.  Shrunk
    // to nothing the process has lost all memory, the headers with it, before sbrk refuses.
    method Sbrk(n: int, kernel: Reply) returns (addr: int, lost: bool)
      requires -UINT / 2 <= n && brk > 0 && !short
      modifies this`brk, this`short, this`ptr, this`size
      ensures lost <==> A.AllLost(old(brk), n)
      ensures addr == -1 <==> lost || (n > 0 && (kernel.Refuses? || old(brk) + n >= KERNBASE))
      ensures addr == -1 ==> brk == old(brk)
      ensures addr != -1 ==> addr == old(brk) && brk == A.GrowSize(old(brk), n)
      ensures short <==> addr != -1 && n > 0 && kernel.Short?
      ensures if lost then ptr == map[] && size == map[] else ptr == old(ptr) && size == old(size)
    {
      lost := false;
      if n > 0 {
        if kernel.Refuses? || brk + n >= KERNBASE {
          return -1, false;
        }
        short := kernel.Short?;
      } else if n < 0 && brk + n == 0 {
        ptr, size := map[], map[];
        return -1, true;
      }
      addr := brk;
      if brk + n >= 0 {
        brk := brk + n;
      }
    }

    // Get at least nu units from the kernel and free them; 0 when it refuses.  broken is that the
    // heap has been lost, or has got memory that the process does not have: from 2^28 units on, where
    // sbrk shrinks the process or leaves it as it is, and when the last page is missing.
    method Morecore(nunits: int, kernel: Reply) returns (p: int, broken: bool)
      requires Ready() && 0 < nunits <= UINT / UNIT
      modifies this
      ensures broken <==> nunits >= UINT / 2 / UNIT || (kernel.Short? && old(brk) + UNIT * Asked(nunits) < KERNBASE)
      ensures broken ==> p == 0 && !HeapOk(Mem(), ring, live, obtained)
      ensures !broken ==> Ready() && live == old(live)
      ensures !broken ==> (p == 0 <==> kernel.Refuses? || old(brk) + UNIT * Asked(nunits) >= KERNBASE)
      ensures !broken && p == 0 ==>
                ring == old(ring) && at == old(at) && Mem() == old(Mem()) && obtained == old(obtained)
      ensures p != 0 ==>
                && p == freep && obtained == old(obtained) + Asked(nunits)
                && (At(size, freep) >= nunits || At(size, At(ptr, freep)) >= nunits)
    {
      hide HeapOk;
      var nu := if nunits < 4096 then 4096 else nunits;
      SbrkArgRight(nu);
      ghost var m := Mem();
      GrowIff(m, ring, live, obtained, nu);
      SbrkSign(nu);
      var hp, lost := Sbrk(SbrkArg(nu), kernel);
      if hp == -1 {
        if lost {
          NoHeap(Mem(), ring, live, obtained);
        }
        return 0, lost;
      }
      size := size[hp := nu];
      live := live[hp := nu];
      obtained := obtained + nu;
      if short || hp + UNIT * nu > brk {
        OutOfHeap(Mem(), ring, live, obtained, hp);
        return 0, true;
      }
      assert Mem() == m.(top := A.GrowSize(m.top, SbrkArg(nu)), size := m.size[m.top := nu]);
      Free(hp);
      assert live == old(live);
      RingPositive();
      return freep, false;
    }

    lemma RingPositive()
      requires Ready()
      ensures freep > 0
    {
      if at > 0 {
        Sorted(ring, size, 0, at);
      }
    }

    // The first call makes the list of the static header.
    method StartList(ghost n: int)
      requires Valid() && n > 0
      modifies this`ptr, this`size, this`freep, this`ring, this`at
      ensures Ready()
      ensures old(freep) != 0 ==> Mem() == old(Mem()) && freep == old(freep) && ring == old(ring) && at == old(at)
      ensures old(freep) == 0 ==> !HasFit(ring, size, n)
    {
      hide HeapOk;
      if Ready() {
        RingPositive();
      }
      if freep == 0 {
        EmptyHeap(base, brk, ptr, size);
        ptr, size, freep := ptr[base := base], size[base := 0], base;
        ring, at := [base], 0;
        BaseIsShort(size, base, n);
      }
    }

    // Allocate nbytes; the result is the address after the header, or 0.  broken is as for morecore.
    method Malloc(nbytes: nat, kernel: Reply) returns (ap: int, broken: bool, ghost calls: nat)
      requires Valid() && nbytes < UINT
      modifies this
      ensures calls <= 1
      ensures broken <==>
                calls == 1
                && (Units(nbytes) >= UINT / 2 / UNIT
                     || (kernel.Short? && old(brk) + UNIT * Asked(Units(nbytes)) < KERNBASE))
      ensures broken ==> ap == 0 && !HeapOk(Mem(), ring, live, obtained)
      ensures !broken ==> Ready()
      ensures !broken ==> obtained == old(obtained) + if calls == 1 && ap != 0 then Asked(Units(nbytes)) else 0
      // it asks for more memory exactly if no block on the list is large enough, and otherwise takes the
      // last units of the first block after freep that is
      ensures calls == 0 <==> old(freep) != 0 && HasFit(old(ring), old(size), Units(nbytes))
      ensures calls == 0 ==>
                exists j ::
                  && NextFit(old(ring), old(size), old(at), j, Units(nbytes)) && j > 0 && freep == old(ring)[j - 1]
                  && Mem() == Taken(old(Mem()), old(ring)[j - 1], old(ring)[j], Units(nbytes))
                  && ap == TakenBlock(old(Mem()), old(ring)[j], Units(nbytes)) + UNIT
      ensures calls == 0 ==> ap != 0
      ensures !broken ==>
                (ap == 0 <==> calls == 1 && (kernel.Refuses? || old(brk) + UNIT * Asked(Units(nbytes)) >= KERNBASE))
      ensures !broken && ap == 0 ==> live == old(live)
      ensures ap != 0 ==> ap - UNIT !in old(live) && live == old(live)[ap - UNIT := Units(nbytes)]
      ensures ap != 0 ==> (nbytes <= UNIT * (live[ap - UNIT] - 1) <==> nbytes <= UINT - UNIT)
    {
      hide HeapOk, Units, SbrkArg, NoneBefore, HasFit, Asked, Taken, TakenBlock, Steps;
      var nunits := Units(nbytes);
      UnitsHold(nbytes);
      UnitsBound(nbytes);
      broken := false;
      StartList(nunits);
      calls := 0;
      var prevp := freep;
      ghost var ring0, size0, at0, m0 := ring, size, at, Mem();
      NoneYet(ring, size, at, nunits);
      ghost var j := StepOn(at);
      var p := At(ptr, prevp);
      while true
        invariant Ready() && live == old(live) && 0 <= j < |ring| && p == ring[j] && calls <= 1
        invariant j > 0 ==> prevp == ring[j - 1]
        invariant !broken
        invariant calls == 1 ==>
                    nunits < UINT / 2 / UNIT && kernel.Grants? && old(brk) + UNIT * Asked(nunits) < KERNBASE
        invariant calls == 0 ==> obtained == old(obtained) && brk == old(brk)
        invariant calls == 0 ==> ring == ring0 && at == at0 && Mem() == m0 && NoneBefore(ring0, size0, at0, j, nunits)
        invariant calls == 1 ==> !HasFit(ring0, size0, nunits)
        invariant calls == 1 ==> obtained == old(obtained) + Asked(nunits)
        invariant calls == 1 ==> At(size, ring[at]) >= nunits || At(size, p) >= nunits
        decreases 1 - calls, Steps(|ring|, j, at)
      {
        if At(size, p) >= nunits {
          if calls == 0 {
            Fitting(ring0, size0, j, nunits);
            assert NextFit(ring0, size0, at0, j, nunits);
          }
          ap := Take(prevp, p, nunits, j);
          return;
        }
        if p == freep {
          SamePlace(j);
          if calls == 0 {
            NoneAtAll(ring0, size0, at0, nunits);
          }
          calls := calls + 1;
          p, broken := Morecore(nunits, kernel);
          if p == 0 {
            return 0, broken, calls;
          }
          j := at;
        } else {
          Nearer(|ring|, j, at);
          if calls == 0 {
            OneOn(ring0, size0, at0, j, nunits);
          }
        }
        prevp := p;
        ghost var k := StepOn(j);
        p := At(ptr, p);
        j := k;
      }
    }

    // Hand out n units of block p, the block after prevp.
    method Take(prevp: int, p: int, n: int, ghost j: int) returns (ap: int)
      requires Ready() && 0 <= j < |ring| && p == ring[j] && (j > 0 ==> prevp == ring[j - 1])
      requires 0 < n <= At(size, p)
      modifies this
      ensures Ready() && obtained == old(obtained) && brk == old(brk) && j > 0 && freep == prevp
      ensures Mem() == Taken(old(Mem()), prevp, p, n) && ap == TakenBlock(old(Mem()), p, n) + UNIT
      ensures ap != 0 && ap - UNIT !in old(live) && live == old(live)[ap - UNIT := n]
    {
      hide HeapOk;
      NotBase(j);
      ghost var m := Mem();
      TakeKeeps(m, ring, live, obtained, j, n);
      TakenFirst(m, ring, j, n);
      var q := p;
      if At(size, p) == n {
        ptr := ptr[prevp := At(ptr, p)];
      } else {
        size := size[p := At(size, p) - n];
        q := p + UNIT * At(size, p);
        size := size[q := n];
      }
      assert Mem() == Taken(m, prevp, p, n) && q == TakenBlock(m, p, n);
      ring := TakenRing(m, ring, j, n);
      at := j - 1;
      live := live[q := n];
      freep := prevp;
      return q + UNIT;
    }

    // Two places with the same block are one.
    lemma SamePlace(j: int)
      requires Ready() && 0 <= j < |ring| && ring[j] == freep
      ensures j == at
    {
      if j < at {
        Sorted(ring, size, j, at);
      } else if at < j {
        Sorted(ring, size, at, j);
      }
    }

    // A free block with units is not base.
    lemma NotBase(j: int)
      requires Ready() && 0 <= j < |ring|
      ensures At(size, ring[j]) > 0 ==> j > 0
    {
      assert SizeAt(ring, size, j);
    }

    lemma TakenFirst(m: Heap, ring: seq<int>, j: int, n: int)
      requires 1 <= j < |ring|
      ensures j - 1 < |TakenRing(m, ring, j, n)| && TakenRing(m, ring, j, n)[j - 1] == ring[j - 1]
    {
    }

    // The next position round the list.
    lemma StepOn(j: int) returns (k: int)
      requires Ready() && 0 <= j < |ring|
      ensures k == (if j + 1 < |ring| then j + 1 else 0) && At(ptr, ring[j]) == ring[k]
    {
      assert ChainAt(ring, ptr, j);
      k := if j + 1 < |ring| then j + 1 else 0;
    }

    // free's walk round the list, from freep to the place of bp.
    method Search(bp: int, ghost i: int) returns (p: int)
      requires Ready() && bp in live && Place(ring, bp, i)
      ensures p == ring[i]
    {
      hide HeapOk;
      ghost var j := at;
      p := freep;
      while !Stops(p, At(ptr, p), bp)
        invariant 0 <= j < |ring| && p == ring[j]
        decreases Steps(|ring|, j, i)
      {
        NextFacts(j, i, bp);
        p := At(ptr, p);
        j := if j + 1 < |ring| then j + 1 else 0;
      }
      NextFacts(j, i, bp);
    }

    lemma PlaceOf(bp: int) returns (i: int)
      requires Ready() && bp in live
      ensures Place(ring, bp, i)
    {
      assert LiveOk(size, live, base, brk, bp);
      forall k | 0 <= k < |ring| ensures ring[k] != bp {
        assert FreeApart(ring, size, live, k, bp) && SizeAt(ring, size, k);
      }
      i := HasPlace(ring, bp, |ring|);
    }

    lemma NextFacts(j: int, i: int, bp: int)
      requires Ready() && 0 <= j < |ring| && Place(ring, bp, i) && bp in live
      ensures At(ptr, ring[j]) == Next(ring, j)
      ensures Stops(ring[j], At(ptr, ring[j]), bp) <==> j == i
    {
      assert ChainAt(ring, ptr, j);
      assert LiveOk(size, live, base, brk, bp);
      StopsAtPlace(ring, size, bp, i, j);
    }
  }

  // Where the freed block is afterwards: inside the block free leaves freep at, or just after it.
  lemma FreedWhere(m: Heap, ring: seq<int>, live: Field, obtained: int, i: int, bp: int)
    requires HeapOk(m, ring, live, obtained) && bp in live && Place(ring, bp, i)
    ensures var r, m' := FreedRing(ring, m.size, i, bp), Freed(m, ring[i], bp);
            && i < |r| && r[i] == ring[i]
            && (if End(m.size, ring[i]) == bp then ring[i] < bp <= End(m'.size, ring[i])
                 && At(m'.size, ring[i]) >= live[bp]
                else i + 1 < |r| && r[i + 1] == bp && At(m'.ptr, ring[i]) == bp && At(m'.size, bp) >= live[bp])
  {
    LiveInsertable(m, ring, live, obtained, i, bp);
    FreedSize(m, ring, live, obtained, i, bp);
    RingAfterInsert(ring, m.size, i, bp, i);
    RingAfterInsert(ring, m.size, i, bp, i + 1);
    assert SizeAt(ring, m.size, i) && SizeAt(ring, m.size, i + 1);
    assert LiveOk(m.size, live, m.base, m.top, bp);
  }

  lemma EmptyHeap(base: int, brk: int, ptr: Field, size: Field)
    requires base < brk
    ensures HeapOk(Heap(base, brk, ptr[base := base], size[base := 0]), [base], map[], 0)
  {
    var m := Heap(base, brk, ptr[base := base], size[base := 0]);
    assert FreeUnits([base], m.size) == 0;
    forall k ensures ChainAt([base], m.ptr, k) {
    }
  }

  // Memory added at the break is a new live block.
  lemma GrowKeeps(m: Heap, ring: seq<int>, live: Field, obtained: int, nu: int)
    requires HeapOk(m, ring, live, obtained) && m.base < m.top && nu > 0
    ensures m.top !in live
    ensures HeapOk(m.(top := m.top + UNIT * nu, size := m.size[m.top := nu]), ring, live[m.top := nu], obtained + nu)
  {
    hide FreeUnits;
    hide UnitsOf;
    var m', live' := m.(top := m.top + UNIT * nu, size := m.size[m.top := nu]), live[m.top := nu];
    assert LiveOk(m.size, live, m.base, m.top, m.top);
    forall j | 0 <= j < |ring| ensures ring[j] < m.top {
      FreeBelow(m, ring, live, obtained, j);
      assert SizeAt(ring, m.size, j);
    }
    FreeUnitsSame(ring, m.size, m'.size);
    LiveUnitsAdd(live, m.top, nu);
    forall i ensures GapAt(ring, m'.size, i) && SizeAt(ring, m'.size, i) && EndAt(ring, m'.size, m'.top, i) {
      assert GapAt(ring, m.size, i) && SizeAt(ring, m.size, i) && EndAt(ring, m.size, m.top, i);
    }
    forall h ensures LiveOk(m'.size, live', m'.base, m'.top, h) {
      assert LiveOk(m.size, live, m.base, m.top, h);
    }
    forall i, h ensures FreeApart(ring, m'.size, live', i, h) {
      assert FreeApart(ring, m.size, live, i, h) && EndAt(ring, m.size, m.top, i);
    }
    forall h, g ensures LiveApart(live', h, g) {
      assert LiveApart(live, h, g) && LiveOk(m.size, live, m.base, m.top, h) && LiveOk(m.size, live, m.base, m.top, g);
    }
  }
}
