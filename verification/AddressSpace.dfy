/**
  What the loops of vm.c do to the pages of an address space and to the free frames, as relations
  between the tables before and after.
 */
module AddressSpace {
  import opened Finite
  import opened VmSpec

  const UINT: int := 0x1_0000_0000
  const PHYSTOP: int := 0xE00_0000
  const EXTMEM: int := 0x10_0000
  const DEVSPACE: int := 0xFE00_0000
  const KERNLINK: int := KERNBASE + EXTMEM
  const PTE_W: int := 2
  const PTE_U: int := 4

  // A whole page frame between the end of the kernel and PHYSTOP: what kfree accepts.
  predicate PoolOk(lo: int, a: int)
  {
    a % PGSIZE == 0 && lo <= a < PHYSTOP
  }

  // ---------- the free list ----------

  ghost predicate FreeAt(lo: int, free: seq<int>, own: Owner, i: int)
  {
    0 <= i < |free| ==> PoolOk(lo, free[i]) && free[i] !in own
  }

  ghost predicate DistinctAt(free: seq<int>, i: int, j: int)
  {
    0 <= i < j < |free| ==> free[i] != free[j]
  }

  ghost predicate OwnAt(lo: int, own: Owner, a: int)
  {
    a in own ==> PoolOk(lo, a)
  }

  // Free frames are different from each other and from the frames in use.
  ghost predicate FreeOk(lo: int, free: seq<int>, own: Owner)
  {
    && lo > 0
    && (forall i :: FreeAt(lo, free, own, i)) && (forall i, j :: DistinctAt(free, i, j))
    && (forall a :: OwnAt(lo, own, a))
  }

  // Every frame the address space and the free list account for.
  ghost function Frames(free: seq<int>, own: Owner): (r: set<int>)
  {
    Elements(free) + own.Keys
  }

  lemma NoneOwned(free: seq<int>)
    ensures Frames(free, map[]) == Elements(free)
  {
  }

  lemma PopFree(lo: int, free: seq<int>, own: Owner, r: Role)
    requires FreeOk(lo, free, own) && free != []
    ensures free[0] > 0 && free[0] !in own && PoolOk(lo, free[0])
    ensures FreeOk(lo, free[1..], own[free[0] := r]) && FreeOk(lo, free[1..], own)
    ensures Frames(free[1..], own[free[0] := r]) == Frames(free, own)
  {
    assert FreeAt(lo, free, own, 0);
    var f, o := free[1..], own[free[0] := r];
    forall i ensures FreeAt(lo, f, o, i) && FreeAt(lo, f, own, i) {
      assert FreeAt(lo, free, own, i + 1) && DistinctAt(free, 0, i + 1);
    }
    forall i, j ensures DistinctAt(f, i, j) {
      assert DistinctAt(free, i + 1, j + 1);
    }
    forall a ensures OwnAt(lo, o, a) {
      assert OwnAt(lo, own, a);
    }
    assert free == [free[0]] + free[1..];
  }

  lemma PushFree(lo: int, free: seq<int>, own: Owner, a: int)
    requires FreeOk(lo, free, own) && a in own
    ensures PoolOk(lo, a) && FreeOk(lo, [a] + free, own - {a})
    ensures Frames([a] + free, own - {a}) == Frames(free, own)
  {
    assert OwnAt(lo, own, a);
    var f, o := [a] + free, own - {a};
    forall i ensures FreeAt(lo, f, o, i) {
      assert FreeAt(lo, free, own, i - 1);
    }
    forall i, j ensures DistinctAt(f, i, j) {
      assert DistinctAt(free, i - 1, j - 1) && FreeAt(lo, free, own, j - 1);
    }
    forall b ensures OwnAt(lo, o, b) {
      assert OwnAt(lo, own, b);
    }
  }

  // A frame kept out of both joins the address space.
  lemma AdoptFrame(lo: int, free: seq<int>, own: Owner, a: int, r: Role)
    requires FreeOk(lo, free, own) && PoolOk(lo, a) && a !in Frames(free, own)
    ensures a > 0 && FreeOk(lo, free, own[a := r]) && Frames(free, own[a := r]) == Frames(free, own) + {a}
  {
    var o := own[a := r];
    forall i ensures FreeAt(lo, free, o, i) {
      assert FreeAt(lo, free, own, i);
      assert 0 <= i < |free| ==> free[i] in Elements(free);
    }
    forall b ensures OwnAt(lo, o, b) {
      assert OwnAt(lo, own, b);
    }
  }

  // a is a whole page inside start..end.
  predicate PageIn(start: int, end: int, a: int)
  {
    a % PGSIZE == 0 && start <= a && a + PGSIZE <= end
  }

  lemma NoPagesYet(start: int, end: int)
    ensures forall a :: PageIn(start, end, a) ==> Up(start) * PGSIZE <= a
  {
  }

  lemma NotFree(free: seq<int>, own: Owner, a: int)
    requires a !in Frames(free, own)
    ensures a !in free
  {
  }

  lemma NextPage(start: int, end: int, p: int)
    requires p % PGSIZE == 0 && start <= p && p + PGSIZE <= end
    ensures PageIn(start, end, p)
    ensures forall a :: PageIn(start, end, a) ==> (a < p + PGSIZE <==> a < p || a == p)
  {
  }

  lemma LastPage(start: int, end: int, p: int)
    requires p + PGSIZE > end
    ensures forall a :: PageIn(start, end, a) ==> a < p
  {
  }

  // A frame not in use before and not yet freed can be freed.
  lemma GiveFrame(lo: int, was: seq<int>, free: seq<int>, own: Owner, a: int)
    requires FreeOk(lo, free, own) && lo <= a && a % PGSIZE == 0 && a + PGSIZE <= PHYSTOP
    requires a !in Frames(was, own) && a !in free
    ensures PoolOk(lo, a) && FreeOk(lo, [a] + free, own)
  {
    var f := [a] + free;
    forall i ensures FreeAt(lo, f, own, i) {
      assert FreeAt(lo, free, own, i - 1);
    }
    forall i, j ensures DistinctAt(f, i, j) {
      assert DistinctAt(free, i - 1, j - 1);
    }
  }

  ghost predicate TouchAt(tab: Tables, tab': Tables, s: set<int>, a: int)
  {
    a !in s ==> (a in tab' <==> a in tab) && (a in tab ==> tab'[a] == tab[a])
  }

  // Only tables in the frames s differ.
  ghost predicate Touched(tab: Tables, tab': Tables, s: set<int>)
  {
    forall a :: TouchAt(tab, tab', s, a)
  }

  lemma TouchedTwice(tab: Tables, mid: Tables, tab': Tables, s: set<int>, s': set<int>)
    requires Touched(tab, mid, s) && Touched(mid, tab', s') && s' <= s
    ensures Touched(tab, tab', s)
  {
    forall a ensures TouchAt(tab, tab', s, a) {
      assert TouchAt(tab, mid, s, a) && TouchAt(mid, tab', s', a);
    }
  }

  // ---------- pages ----------

  ghost predicate SameAt(tab: Tables, tab': Tables, dir: int, w: int)
  {
    0 <= w < NPAGES ==> Pte(tab', dir, w) == Pte(tab, dir, w)
  }

  ghost predicate SamePages(tab: Tables, tab': Tables, dir: int)
  {
    forall w :: SameAt(tab, tab', dir, w)
  }

  // Directory slot d0 now has a table; the others have one exactly if they had.
  ghost predicate PdeAt(tab: Tables, tab': Tables, dir: int, d0: int, d: int)
  {
    0 <= d < ENTRIES ==> (Pde(tab', dir, d).To? <==> Pde(tab, dir, d).To? || d == d0)
  }

  ghost predicate PdeAdded(tab: Tables, tab': Tables, dir: int, d0: int)
  {
    forall d :: PdeAt(tab, tab', dir, d0, d)
  }

  // Pages first .. first+n-1 are mapped to consecutive frames from pa on; the others are as before.
  ghost predicate RangeAt(tab: Tables, tab': Tables, dir: int, first: int, n: int, pa: int, perm: int, w: int)
  {
    0 <= w < NPAGES ==>
      Pte(tab', dir, w) == if first <= w < first + n then To(pa + (w - first) * PGSIZE, perm) else Pte(tab, dir, w)
  }

  ghost predicate RangeMapped(tab: Tables, tab': Tables, dir: int, first: int, n: int, pa: int, perm: int)
  {
    forall w :: RangeAt(tab, tab', dir, first, n, pa, perm, w)
  }

  lemma NewTableKeeps(tab: Tables, dir: int, own: Owner, d: int, t: int, s: set<int>)
    requires TreeOk(tab, dir, own) && 0 <= d < ENTRIES && Pde(tab, dir, d).Empty? && t !in own && t > 0
    requires own.Keys <= s && t in s
    ensures dir in tab && |tab[dir]| == ENTRIES && t != dir && dir in own
    ensures var tab' := AddTable(tab, dir, d, t, PTE_W + PTE_U);
            && TreeOk(tab', dir, own[t := Table(d)]) && SamePages(tab, tab', dir)
            && Pde(tab', dir, d) == To(t, PTE_W + PTE_U) && Touched(tab, tab', s) && PdeAdded(tab, tab', dir, d)
  {
    TreeShape(tab, dir, own, d);
    AddTableKeeps(tab, dir, own, d, t, PTE_W + PTE_U);
    var tab' := AddTable(tab, dir, d, t, PTE_W + PTE_U);
    forall w ensures SameAt(tab, tab', dir, w) {
      if 0 <= w < NPAGES {
        AddTableAt(tab, dir, own, d, t, PTE_W + PTE_U, w);
      }
    }
    AddTableAt(tab, dir, own, d, t, PTE_W + PTE_U, d * ENTRIES);
    forall a ensures TouchAt(tab, tab', s, a) {
    }
    forall e ensures PdeAt(tab, tab', dir, d, e) {
      if 0 <= e < ENTRIES {
        AddTableAt(tab, dir, own, d, t, PTE_W + PTE_U, e * ENTRIES);
      }
    }
  }

  lemma SamePage(tab: Tables, tab': Tables, dir: int, w: int)
    requires SamePages(tab, tab', dir) && 0 <= w < NPAGES
    ensures Pte(tab', dir, w) == Pte(tab, dir, w)
  {
    assert SameAt(tab, tab', dir, w);
  }

  lemma NothingMoved(tab: Tables, dir: int, d: int, s: set<int>)
    ensures SamePages(tab, tab, dir) && Touched(tab, tab, s) && (Pde(tab, dir, d).To? ==> PdeAdded(tab, tab, dir, d))
  {
    forall a ensures TouchAt(tab, tab, s, a) {
    }
    forall w ensures SameAt(tab, tab, dir, w) {
    }
    forall e ensures Pde(tab, dir, d).To? ==> PdeAt(tab, tab, dir, d, e) {
    }
  }

  // Where walkpgdir's answer leads.
  lemma TableAt(tab: Tables, dir: int, own: Owner, v: int)
    requires TreeOk(tab, dir, own) && 0 <= v < NPAGES && Pde(tab, dir, v / ENTRIES).To?
    ensures var t := Pde(tab, dir, v / ENTRIES).pa;
            t > 0 && t in own && t in tab && |tab[t]| == ENTRIES && Pte(tab, dir, v) == tab[t][v % ENTRIES]
  {
    TreeShape(tab, dir, own, v / ENTRIES);
  }

  // The last page is right although va + size may be 2^32.
  lemma MapBounds(va: int, size: int)
    requires 0 <= va && 0 < size && va + size <= UINT
    ensures (va % UINT + size - 1) % UINT / PGSIZE == (va + size - 1) / PGSIZE
    ensures 0 <= va / PGSIZE <= (va + size - 1) / PGSIZE < NPAGES && (va < KERNBASE <==> va / PGSIZE < NUSER)
  {
  }

  lemma NoneMapped(tab: Tables, dir: int, first: int, pa: int, perm: int, s: set<int>)
    ensures RangeMapped(tab, tab, dir, first, 0, pa, perm) && Touched(tab, tab, s)
  {
    forall a ensures TouchAt(tab, tab, s, a) {
    }
    forall w ensures RangeAt(tab, tab, dir, first, 0, pa, perm, w) {
    }
  }

  lemma RangeOutside(tab: Tables, tab': Tables, dir: int, first: int, n: int, pa: int, perm: int, w: int)
    requires RangeMapped(tab, tab', dir, first, n, pa, perm) && 0 <= w < NPAGES && !(first <= w < first + n)
    ensures Pte(tab', dir, w) == Pte(tab, dir, w)
  {
    assert RangeAt(tab, tab', dir, first, n, pa, perm, w);
  }

  lemma RangeExtends(tab: Tables, mid: Tables, tab': Tables, dir: int, first: int, n: nat, pa: int, perm: int)
    requires RangeMapped(tab, mid, dir, first, n, pa, perm)
    requires RangeMapped(mid, tab', dir, first + n, 1, pa + n * PGSIZE, perm)
    ensures RangeMapped(tab, tab', dir, first, n + 1, pa, perm)
  {
    var m := n + 1;
    forall w ensures RangeAt(tab, tab', dir, first, m, pa, perm, w) {
      assert RangeAt(tab, mid, dir, first, n, pa, perm, w);
      assert RangeAt(mid, tab', dir, first + n, 1, pa + n * PGSIZE, perm, w);
    }
  }

  lemma PdeKept(tab: Tables, mid: Tables, tab': Tables, dir: int, d0: int)
    requires PdeAdded(tab, mid, dir, d0) && dir in mid && dir in tab' && tab'[dir] == mid[dir]
    ensures PdeAdded(tab, tab', dir, d0)
  {
    forall d ensures PdeAt(tab, tab', dir, d0, d) {
      assert PdeAt(tab, mid, dir, d0, d);
    }
  }

  // Writing the entry of an unmapped page, after a walk that moved no page.
  lemma PutPage(was: Tables, tab: Tables, dir: int, own: Owner, v: int, pa: int, perm: int, s: set<int>)
    requires TreeOk(tab, dir, own) && 0 <= v < NPAGES && Pde(tab, dir, v / ENTRIES).To?
    requires Pte(tab, dir, v).Empty? && SamePages(was, tab, dir) && own.Keys <= s
    requires v < NUSER ==> pa !in own && pa > 0
    ensures var t := Pde(tab, dir, v / ENTRIES).pa;
            && t in tab && |tab[t]| == ENTRIES && dir in tab
            && var tab' := tab[t := tab[t][v % ENTRIES := To(pa, perm)]];
               && TreeOk(tab', dir, if v < NUSER then own[pa := User(v)] else own)
               && RangeMapped(was, tab', dir, v, 1, pa, perm) && Touched(tab, tab', s) && tab'[dir] == tab[dir]
  {
    TreeShape(tab, dir, own, v / ENTRIES);
    var tab' := SetPte(tab, dir, v, To(pa, perm));
    if v < NUSER {
      MapKeeps(tab, dir, own, v, pa, perm);
    } else {
      KernelKeeps(tab, dir, own, v, To(pa, perm));
    }
    forall w ensures RangeAt(was, tab', dir, v, 1, pa, perm, w) {
      if 0 <= w < NPAGES {
        SetPteAt(tab, dir, own, v, To(pa, perm), w);
        SamePage(was, tab, dir, w);
      }
    }
    forall a ensures TouchAt(tab, tab', s, a) {
    }
  }

  // ---------- unmapping ----------

  // PGROUNDUP, as a page number.
  function Up(sz: int): int
  {
    (sz + PGSIZE - 1) / PGSIZE
  }

  function Min(a: int, b: int): int
  {
    if a <= b then a else b
  }

  // Pages from..to-1 are unmapped; the others are as before.
  ghost predicate GoneAt(tab: Tables, tab': Tables, dir: int, from: int, to: int, w: int)
  {
    0 <= w < NPAGES ==> Pte(tab', dir, w) == if from <= w < to then Empty else Pte(tab, dir, w)
  }

  ghost predicate Gone(tab: Tables, tab': Tables, dir: int, from: int, to: int)
  {
    forall w :: GoneAt(tab, tab', dir, from, to, w)
  }

  // The page deallocuvm starts freeing at, when asked to free the pages from v on: where there is
  // no table it moves on by a whole table's worth of pages, from the middle of a table too.
  function Start(tab: Tables, dir: int, v: int, hi: int): int
    decreases hi - v
  {
    if v >= hi then hi
    else if v % ENTRIES == 0 || Pde(tab, dir, v / ENTRIES).To? then v
    else Start(tab, dir, v + ENTRIES, hi)
  }

  // At page v the loop has yet to start freeing, or can only skip whole tables from now on.
  ghost predicate Sweeping(tab: Tables, dir: int, start: int, v: int, hi: int)
  {
    || Start(tab, dir, v, hi) == start
    || (start <= v && (v >= hi || v % ENTRIES == 0 || Pde(tab, dir, v / ENTRIES).To?))
  }

  lemma {:induction false} StartBound(tab: Tables, dir: int, v: int, hi: int)
    ensures Min(v, hi) <= Start(tab, dir, v, hi) <= hi
    decreases hi - v
  {
    if v < hi && v % ENTRIES != 0 && !Pde(tab, dir, v / ENTRIES).To? {
      StartBound(tab, dir, v + ENTRIES, hi);
    }
  }

  ghost predicate PrefixAt(tab: Tables, dir: int, n: int, v: int)
  {
    0 <= v < NUSER ==> (Pte(tab, dir, v).To? <==> v < n)
  }

  // The user part is mapped from page 0 up to page n, without holes.
  ghost predicate Prefix(tab: Tables, dir: int, n: int)
  {
    forall v :: PrefixAt(tab, dir, n, v)
  }

  // deallocuvm unmaps all it was asked to exactly if no page before its start is mapped.
  lemma UnmapsAll(tab: Tables, tab': Tables, dir: int, first: int, hi: int)
    requires 0 <= first < hi <= NUSER && Gone(tab, tab', dir, Start(tab, dir, first, hi), hi)
    ensures (forall w :: first <= w < hi ==> Pte(tab', dir, w).Empty?)
            <==> (forall w :: first <= w < Start(tab, dir, first, hi) ==> Pte(tab, dir, w).Empty?)
  {
    var start := Start(tab, dir, first, hi);
    StartBound(tab, dir, first, hi);
    forall w | first <= w < hi ensures Pte(tab', dir, w) == if start <= w then Empty else Pte(tab, dir, w) {
      assert GoneAt(tab, tab', dir, start, hi, w);
    }
  }

  // Without holes it does, wherever it starts.
  lemma UnmapsPrefix(tab: Tables, tab': Tables, dir: int, n: int, first: int, hi: int)
    requires 0 <= first < hi <= NUSER && Prefix(tab, dir, n) && Gone(tab, tab', dir, Start(tab, dir, first, hi), hi)
    ensures Gone(tab, tab', dir, first, hi)
  {
    var start := Start(tab, dir, first, hi);
    StartBound(tab, dir, first, hi);
    assert PrefixAt(tab, dir, n, first);
    forall w ensures GoneAt(tab, tab', dir, first, hi, w) {
      assert GoneAt(tab, tab', dir, start, hi, w) && PrefixAt(tab, dir, n, w);
    }
  }

  // A hole can hide pages from it: with a mapped page 1024 and no table for page 1, freeing from
  // page 1 on starts at page 1025.
  lemma HoleHides(tab: Tables, dir: int, hi: int)
    requires 1025 < hi <= NUSER && Pde(tab, dir, 0).Empty? && Pte(tab, dir, 1024).To?
    ensures Start(tab, dir, 1, hi) == 1025
  {
    assert Pde(tab, dir, 1025 / ENTRIES).To?;
  }

  lemma NoneGone(tab: Tables, dir: int, from: int, to: int)
    requires to <= from
    ensures Gone(tab, tab, dir, from, to)
  {
    forall w ensures GoneAt(tab, tab, dir, from, to, w) {
    }
  }

  lemma NoneThere(tab: Tables, dir: int, v: int)
    requires Pte(tab, dir, v).Empty?
    ensures Gone(tab, tab, dir, v, v + 1)
  {
    var to := v + 1;
    forall w ensures GoneAt(tab, tab, dir, v, to, w) {
    }
  }

  lemma GoneFurther(tab: Tables, mid: Tables, tab': Tables, dir: int, from: int, v: int)
    requires from <= v && Gone(tab, mid, dir, from, v) && Gone(mid, tab', dir, v, v + 1)
    ensures Gone(tab, tab', dir, from, v + 1)
  {
    var to := v + 1;
    forall w ensures GoneAt(tab, tab', dir, from, to, w) {
      assert GoneAt(tab, mid, dir, from, v, w) && GoneAt(mid, tab', dir, v, to, w);
    }
  }

  lemma SamePde(tab: Tables, tab': Tables, dir: int, d: int)
    requires dir in tab && dir in tab' && tab'[dir] == tab[dir]
    ensures Pde(tab', dir, d) == Pde(tab, dir, d)
  {
  }

  lemma StartSweep(tab: Tables, dir: int, first: int, hi: int)
    ensures Sweeping(tab, dir, Start(tab, dir, first, hi), first, hi)
    ensures Min(first, hi) <= Start(tab, dir, first, hi) <= hi && (first >= hi ==> Start(tab, dir, first, hi) == hi)
    ensures first % ENTRIES == 0 && first < hi ==> Start(tab, dir, first, hi) == first
  {
    StartBound(tab, dir, first, hi);
  }

  // A sweep of all user pages starts at the first.
  lemma WholeSpace(tab: Tables, dir: int)
    ensures Up(0) == 0 && Up(KERNBASE) == NUSER && Start(tab, dir, 0, NUSER) == 0
  {
    hide Start, Sweeping;
    StartSweep(tab, dir, 0, NUSER);
  }

  lemma SweepOn(tab: Tables, dir: int, start: int, v: int, hi: int)
    requires Sweeping(tab, dir, start, v, hi) && v < hi && Pde(tab, dir, v / ENTRIES).To?
    ensures start <= v && Sweeping(tab, dir, start, v + 1, hi)
  {
  }

  // The skip: nothing to be freed is mapped between v and the page it continues at.
  lemma SkipTable(tab: Tables, tab': Tables, dir: int, start: int, v: int, hi: int)
    requires 0 <= v < hi <= NUSER && Gone(tab, tab', dir, start, v)
    requires Sweeping(tab, dir, start, v, hi) && Pde(tab, dir, v / ENTRIES).Empty?
    ensures Gone(tab, tab', dir, start, Min(v + ENTRIES, hi)) && Sweeping(tab, dir, start, v + ENTRIES, hi)
  {
    var to := Min(v + ENTRIES, hi);
    StartBound(tab, dir, v + ENTRIES, hi);
    forall w ensures GoneAt(tab, tab', dir, start, to, w) {
      assert GoneAt(tab, tab', dir, start, v, w);
      if v <= w < to && v % ENTRIES == 0 {
        assert w / ENTRIES == v / ENTRIES;
      }
    }
  }

  lemma DropKeeps(tab: Tables, dir: int, own: Owner, v: int, s: set<int>)
    requires TreeOk(tab, dir, own) && 0 <= v < NUSER && Pte(tab, dir, v).To? && own.Keys <= s
    ensures Pde(tab, dir, v / ENTRIES).To?
    ensures var t := Pde(tab, dir, v / ENTRIES).pa;
            && t in tab && |tab[t]| == ENTRIES && dir in tab && tab[t][v % ENTRIES] == Pte(tab, dir, v)
            && tab[t][v % ENTRIES].pa in own
            && var tab' := tab[t := tab[t][v % ENTRIES := Empty]];
               && TreeOk(tab', dir, own - {tab[t][v % ENTRIES].pa})
               && Gone(tab, tab', dir, v, v + 1) && Touched(tab, tab', s) && tab'[dir] == tab[dir]
  {
    UnmapKeeps(tab, dir, own, v);
    TreeShape(tab, dir, own, v / ENTRIES);
    var tab', to := SetPte(tab, dir, v, Empty), v + 1;
    forall w ensures GoneAt(tab, tab', dir, v, to, w) {
      if 0 <= w < NPAGES {
        SetPteAt(tab, dir, own, v, Empty, w);
      }
    }
    forall a ensures TouchAt(tab, tab', s, a) {
    }
  }

  lemma AllUnmapped(tab: Tables, tab': Tables, dir: int)
    requires Gone(tab, tab', dir, 0, NUSER)
    ensures forall v :: 0 <= v < NUSER ==> Pte(tab', dir, v).Empty?
  {
    forall v | 0 <= v < NUSER ensures Pte(tab', dir, v).Empty? {
      assert GoneAt(tab, tab', dir, 0, NUSER, v);
    }
  }

  // o is own without the tables of directory slots below i.
  ghost predicate LeftAt(own: Owner, o: Owner, i: int, a: int)
  {
    (a in o <==> a in own && !(own[a].Table? && own[a].d < i)) && (a in o ==> o[a] == own[a])
  }

  ghost predicate Left(own: Owner, o: Owner, i: int)
  {
    forall a :: LeftAt(own, o, i, a)
  }

  lemma AllLeft(tab: Tables, dir: int, own: Owner)
    requires TreeOk(tab, dir, own)
    ensures Left(own, own, 0)
  {
    forall a ensures LeftAt(own, own, 0, a) {
      assert FrameOk(tab, dir, own, a);
    }
  }

  lemma NextLeft(tab: Tables, dir: int, own: Owner, o: Owner, i: int)
    requires TreeOk(tab, dir, own) && Left(own, o, i) && 0 <= i < ENTRIES
    ensures dir in tab && |tab[dir]| == ENTRIES
    ensures tab[dir][i].To? ==> tab[dir][i].pa in o && Left(own, o - {tab[dir][i].pa}, i + 1)
    ensures tab[dir][i].Empty? ==> Left(own, o, i + 1)
  {
    TreeShape(tab, dir, own, i);
    var e, j := tab[dir][i], i + 1;
    var o' := if e.To? then o - {e.pa} else o;
    assert e.To? ==> LeftAt(own, o, i, e.pa);
    forall a ensures LeftAt(own, o', j, a) {
      assert LeftAt(own, o, i, a) && FrameOk(tab, dir, own, a);
    }
  }

  lemma OnlyDirLeft(tab: Tables, dir: int, own: Owner, o: Owner)
    requires TreeOk(tab, dir, own) && Left(own, o, ENTRIES)
    requires forall v :: 0 <= v < NUSER ==> Pte(tab, dir, v).Empty?
    ensures dir in o && o - {dir} == map[]
  {
    TreeShape(tab, dir, own, 0);
    assert LeftAt(own, o, ENTRIES, dir);
    forall a | a in o ensures a == dir {
      assert LeftAt(own, o, ENTRIES, a) && FrameOk(tab, dir, own, a);
    }
  }

  // ---------- growing ----------

  datatype Growth = Mapped | NoFrame | Dropped

  // The frames it takes to map page v: itself, and a table if there is none.
  function Pages(tab: Tables, dir: int, v: int): int
  {
    if Pde(tab, dir, v / ENTRIES).To? then 1 else 2
  }

  // Page w is the first of those from first on in a table that does not exist yet.
  predicate Needs(tab: Tables, dir: int, first: int, w: int)
  {
    Pde(tab, dir, w / ENTRIES).Empty? && (w == first || w % ENTRIES == 0)
  }

  // The frames it takes to map n pages from first on.
  function Demand(tab: Tables, dir: int, first: int, n: int): int
  {
    if n <= 0 then 0 else Demand(tab, dir, first, n - 1) + if Needs(tab, dir, first, first + n - 1) then 2 else 1
  }

  lemma {:induction false} DemandGrows(tab: Tables, dir: int, first: int, m: int, n: int)
    requires 0 <= m <= n
    ensures Demand(tab, dir, first, m) + n - m <= Demand(tab, dir, first, n)
    decreases n - m
  {
    if m < n {
      DemandGrows(tab, dir, first, m, n - 1);
    }
  }

  lemma RunsShort(tab: Tables, dir: int, first: int, m: int, n: int, nfree: int)
    requires 0 <= m < n && nfree <= Demand(tab, dir, first, m)
    ensures nfree < Demand(tab, dir, first, n)
    ensures nfree == Demand(tab, dir, first, n) - 1 ==> !Needs(tab, dir, first, first + n - 1)
  {
    DemandGrows(tab, dir, first, m, n - 1);
  }

  function Zeros(): seq<int>
  {
    seq(PGSIZE, _ => 0)
  }

  function Bytes(mem: map<int, seq<int>>, a: int): seq<int>
  {
    if a in mem then mem[a] else []
  }

  // Pages first..to-1 are mapped, writable by the user, to zeroed frames not in s; the others are
  // as before.
  ghost predicate GrownAt(tab: Tables, tab': Tables, mem: map<int, seq<int>>, dir: int, first: int, to: int,
                          s: set<int>, w: int)
  {
    0 <= w < NPAGES ==>
      var e := Pte(tab', dir, w);
      if first <= w < to then e.To? && e.perm == PTE_W + PTE_U && e.pa !in s && Bytes(mem, e.pa) == Zeros()
      else e == Pte(tab, dir, w)
  }

  ghost predicate Grown(tab: Tables, tab': Tables, mem: map<int, seq<int>>, dir: int, first: int, to: int, s: set<int>)
  {
    forall w :: GrownAt(tab, tab', mem, dir, first, to, s, w)
  }

  // What allocuvm does with nfree free frames: it maps every page if there are enough frames,
  // reports success with the last page missing if it lacks just the table for that page, and
  // otherwise fails and leaves every page as it was.
  ghost predicate GrowOutcome(tab: Tables, tab': Tables, mem: map<int, seq<int>>, dir: int, first: int, hi: int,
                              nfree: int, ok: bool, lost: set<int>, s: set<int>)
  {
    var need := Demand(tab, dir, first, hi - first);
    && (ok && lost == {} <==> nfree >= need)
    && (ok && lost != {} <==> nfree == need - 1 && Needs(tab, dir, first, hi - 1))
    && (ok && lost == {} ==> Grown(tab, tab', mem, dir, first, hi, s))
    && (ok && lost != {} ==> Grown(tab, tab', mem, dir, first, hi - 1, s))
    && (!ok ==> SamePages(tab, tab', dir))
  }

  // While pages first..v-1 get mapped, their tables appear.
  ghost predicate TabledAt(tab: Tables, tab': Tables, dir: int, first: int, v: int, d: int)
  {
    0 <= d < ENTRIES ==>
      (Pde(tab', dir, d).To? <==> Pde(tab, dir, d).To? || (first < v && first / ENTRIES <= d <= (v - 1) / ENTRIES))
  }

  ghost predicate Tabled(tab: Tables, tab': Tables, dir: int, first: int, v: int)
  {
    forall d :: TabledAt(tab, tab', dir, first, v, d)
  }

  lemma UpFacts(oldsz: int, newsz: int)
    requires 0 <= oldsz <= newsz < KERNBASE
    ensures 0 <= Up(oldsz) <= Up(newsz) <= NUSER && oldsz <= Up(oldsz) * PGSIZE
            && newsz <= Up(newsz) * PGSIZE < newsz + PGSIZE
  {
  }

  lemma NothingGrown(tab: Tables, mem: map<int, seq<int>>, dir: int, first: int, s: set<int>)
    ensures Grown(tab, tab, mem, dir, first, first, s) && Tabled(tab, tab, dir, first, first)
    ensures Demand(tab, dir, first, 0) == 0 && UnmappedFrom(tab, dir, first, 0)
  {
    forall w ensures GrownAt(tab, tab, mem, dir, first, first, s, w) {
    }
    forall d ensures TabledAt(tab, tab, dir, first, first, d) {
    }
  }

  lemma Unmapped(tab: Tables, tab': Tables, mem: map<int, seq<int>>, dir: int, first: int, to: int, s: set<int>, v: int)
    requires Prefix(tab, dir, first) && Grown(tab, tab', mem, dir, first, to, s) && 0 <= first <= v < NUSER && to <= v
    ensures Pte(tab', dir, v).Empty?
  {
    assert PrefixAt(tab, dir, first, v) && GrownAt(tab, tab', mem, dir, first, to, s, v);
  }

  lemma GrownPrefix(tab: Tables, tab': Tables, mem: map<int, seq<int>>, dir: int, first: int, to: int, s: set<int>)
    requires Prefix(tab, dir, first) && Grown(tab, tab', mem, dir, first, to, s) && first <= to
    ensures Prefix(tab', dir, to)
  {
    forall v ensures PrefixAt(tab', dir, to, v) {
      assert PrefixAt(tab, dir, first, v) && GrownAt(tab, tab', mem, dir, first, to, s, v);
    }
  }

  lemma Restored(tab: Tables, grown: Tables, tab': Tables, mem: map<int, seq<int>>, dir: int, first: int, to: int,
                 hi: int, s: set<int>)
    requires Prefix(tab, dir, first) && Grown(tab, grown, mem, dir, first, to, s) && 0 <= first <= to <= hi <= NUSER
    requires Gone(grown, tab', dir, first, hi)
    ensures SamePages(tab, tab', dir)
  {
    forall w ensures SameAt(tab, tab', dir, w) {
      assert PrefixAt(tab, dir, first, w) && GrownAt(tab, grown, mem, dir, first, to, s, w)
             && GoneAt(grown, tab', dir, first, hi, w);
    }
  }

  // A table is missing now exactly if it is missing for good until page v.
  lemma NeedsNow(tab: Tables, tab': Tables, dir: int, first: int, v: int)
    requires Tabled(tab, tab', dir, first, v) && 0 <= first <= v < NPAGES
    ensures Pages(tab', dir, v) == if Needs(tab, dir, first, v) then 2 else 1
    ensures Pde(tab', dir, v / ENTRIES).Empty? <==> Needs(tab, dir, first, v)
    ensures Pde(tab', dir, v / ENTRIES).Empty? ==> Pde(tab, dir, v / ENTRIES).Empty?
    ensures Demand(tab, dir, first, v + 1 - first) == Demand(tab, dir, first, v - first) + Pages(tab', dir, v)
  {
    assert TabledAt(tab, tab', dir, first, v, v / ENTRIES);
  }

  lemma StillGrown(tab: Tables, tab': Tables, was: map<int, seq<int>>, mem: map<int, seq<int>>, dir: int, first: int,
                   to: int, s: set<int>, pa: int)
    requires Grown(tab, tab', was, dir, first, to, s) && mem == was[pa := Zeros()]
    ensures Grown(tab, tab', mem, dir, first, to, s)
  {
    forall w ensures GrownAt(tab, tab', mem, dir, first, to, s, w) {
      assert GrownAt(tab, tab', was, dir, first, to, s, w);
    }
  }

  lemma GrewOne(tab: Tables, mid: Tables, tab': Tables, was: map<int, seq<int>>, mem: map<int, seq<int>>, dir: int,
                first: int, v: int, s: set<int>, pa: int)
    requires 0 <= first <= v < NUSER && Grown(tab, mid, was, dir, first, v, s) && Tabled(tab, mid, dir, first, v)
    requires RangeMapped(mid, tab', dir, v, 1, pa, PTE_W + PTE_U) && mem == was[pa := Zeros()] && pa !in s
    requires PdeAdded(mid, tab', dir, v / ENTRIES)
    ensures Grown(tab, tab', mem, dir, first, v + 1, s) && Tabled(tab, tab', dir, first, v + 1)
  {
    var to := v + 1;
    forall w ensures GrownAt(tab, tab', mem, dir, first, to, s, w) {
      assert GrownAt(tab, mid, was, dir, first, v, s, w) && RangeAt(mid, tab', dir, v, 1, pa, PTE_W + PTE_U, w);
    }
    forall d ensures TabledAt(tab, tab', dir, first, to, d) {
      assert TabledAt(tab, mid, dir, first, v, d) && PdeAt(mid, tab', dir, v / ENTRIES, d);
    }
  }

  lemma HeadApart(lo: int, free: seq<int>, own: Owner)
    requires FreeOk(lo, free, own) && free != []
    ensures free[0] !in Frames(free[1..], own) && Frames(free[1..], own) + {free[0]} == Frames(free, own)
  {
    assert FreeAt(lo, free, own, 0);
    forall i | 0 <= i < |free[1..]| ensures free[1..][i] != free[0] {
      assert DistinctAt(free, 0, i + 1);
    }
    assert free == [free[0]] + free[1..];
  }

  lemma OnePage(v: int)
    requires 0 <= v < NUSER
    ensures v * PGSIZE / PGSIZE == v == (v * PGSIZE + PGSIZE - 1) / PGSIZE && v * PGSIZE + PGSIZE <= KERNBASE
  {
  }

  lemma TouchMore(tab: Tables, tab': Tables, s: set<int>, s': set<int>)
    requires Touched(tab, tab', s) && s <= s'
    ensures Touched(tab, tab', s')
  {
    forall a ensures TouchAt(tab, tab', s', a) {
      assert TouchAt(tab, tab', s, a);
    }
  }

  // ---------- copying ----------

  ghost predicate SameBytesAt(mem: map<int, seq<int>>, mem': map<int, seq<int>>, own: Owner, a: int)
  {
    a in own ==> Bytes(mem', a) == Bytes(mem, a)
  }

  ghost predicate SameBytes(mem: map<int, seq<int>>, mem': map<int, seq<int>>, own: Owner)
  {
    forall a :: SameBytesAt(mem, mem', own, a)
  }

  // The child's page w holds the bytes the parent's page w held.
  ghost predicate CopyAt(tab: Tables, mem: map<int, seq<int>>, tab': Tables, mem': map<int, seq<int>>,
                         pdir: int, d: int, data: int, n: int, w: int)
  {
    0 <= w < NPAGES ==>
      var e, e' := Pte(tab, pdir, w), Pte(tab', d, w);
      if w < n then e.To? && e'.To? && e'.perm == PTE_W + PTE_U && Bytes(mem', e'.pa) == Bytes(mem, e.pa)
      else e' == KernelEntry(data, 4, w)
  }

  ghost predicate Copied(tab: Tables, mem: map<int, seq<int>>, tab': Tables, mem': map<int, seq<int>>,
                         pdir: int, d: int, data: int, n: int)
  {
    forall w :: CopyAt(tab, mem, tab', mem', pdir, d, data, n, w)
  }

  lemma NothingCopied(tab: Tables, mem: map<int, seq<int>>, pdir: int, d: int, data: int, own: Owner, s: set<int>)
    requires KernelMapped(tab, d, data, 4)
    ensures Copied(tab, mem, tab, mem, pdir, d, data, 0) && SameBytes(mem, mem, own) && Touched(tab, tab, s)
  {
    forall w ensures CopyAt(tab, mem, tab, mem, pdir, d, data, 0, w) {
      assert KernelAt(tab, d, data, 4, w);
    }
    forall a ensures SameBytesAt(mem, mem, own, a) {
    }
    forall a ensures TouchAt(tab, tab, s, a) {
    }
  }

  lemma Uncopied(tab: Tables, mem: map<int, seq<int>>, tab': Tables, mem': map<int, seq<int>>, pdir: int, d: int,
                 data: int, v: int)
    requires Copied(tab, mem, tab', mem', pdir, d, data, v) && 0 <= v < NUSER && DataOk(data)
    ensures Pte(tab', d, v).Empty?
  {
    assert CopyAt(tab, mem, tab', mem', pdir, d, data, v, v);
    KernelLayout(data, v);
  }

  lemma ApartFromFree(lo: int, free: seq<int>, own: Owner, child: Owner)
    requires FreeOk(lo, free, own) && child.Keys !! own.Keys
    ensures own.Keys !! Frames(free, child)
  {
    forall i | 0 <= i < |free| ensures free[i] !in own {
      assert FreeAt(lo, free, own, i);
    }
  }

  // Frames drawn from those free for both stay free for the parent.
  lemma FreeForParent(lo: int, free: seq<int>, free': seq<int>, own: Owner, child: Owner, child': Owner)
    requires FreeOk(lo, free, own) && FreeOk(lo, free', child') && own.Keys !! Frames(free, child)
    requires Frames(free', child') <= Frames(free, child)
    ensures FreeOk(lo, free', own)
  {
    forall i ensures FreeAt(lo, free', own, i) {
      assert FreeAt(lo, free', child', i);
      assert 0 <= i < |free'| ==> free'[i] in Elements(free');
    }
  }

  lemma StillSameBytes(was: map<int, seq<int>>, mid: map<int, seq<int>>, mem: map<int, seq<int>>, own: Owner, pa: int,
                       bytes: seq<int>)
    requires SameBytes(was, mid, own) && mem == mid[pa := bytes] && pa !in own
    ensures SameBytes(was, mem, own)
  {
    forall a ensures SameBytesAt(was, mem, own, a) {
      assert SameBytesAt(was, mid, own, a);
    }
  }

  lemma NothingShared(mem: map<int, seq<int>>, own: Owner)
    ensures SameBytes(mem, mem, own)
  {
    forall a ensures SameBytesAt(mem, mem, own, a) {
    }
  }

  lemma NotOwned(lo: int, free: seq<int>, own: Owner)
    requires FreeOk(lo, free, own)
    ensures FreeOk(lo, free, map[]) && own.Keys !! Frames(free, map[])
  {
    ApartFromFree(lo, free, own, map[]);
    forall i ensures FreeAt(lo, free, map[], i) {
      assert FreeAt(lo, free, own, i);
    }
    forall a ensures OwnAt(lo, map[], a) {
    }
  }

  lemma OwnedFrames(free: seq<int>, own: Owner)
    ensures Frames(free, own) == Elements(free) + own.Keys
  {
  }

  // The copy may start from tables in which the parent's pages are where they were.
  lemma CopiedFrom(was: Tables, mid: Tables, tab: Tables, was': map<int, seq<int>>, mem: map<int, seq<int>>, pdir: int,
                   d: int, data: int, n: int)
    requires SamePages(was, mid, pdir)
    ensures Copied(mid, was', tab, mem, pdir, d, data, n) ==> Copied(was, was', tab, mem, pdir, d, data, n)
    ensures (exists v :: 0 <= v < n && Pte(mid, pdir, v).Empty?) ==>
              n > NPAGES || exists v :: 0 <= v < n && Pte(was, pdir, v).Empty?
  {
    if Copied(mid, was', tab, mem, pdir, d, data, n) {
      forall w ensures CopyAt(was, was', tab, mem, pdir, d, data, n, w) {
        assert CopyAt(mid, was', tab, mem, pdir, d, data, n, w) && SameAt(was, mid, pdir, w);
      }
    }
    if v :| 0 <= v < n <= NPAGES && Pte(mid, pdir, v).Empty? {
      assert SameAt(was, mid, pdir, v);
    }
  }

  lemma CopiedOne(was: Tables, mid: Tables, tab: Tables, was': map<int, seq<int>>, mid': map<int, seq<int>>,
                  mem: map<int, seq<int>>,
                  pdir: int, d: int, data: int, v: int, child: Owner, own: Owner, pa: int, e: Entry)
    requires 0 <= v < NUSER && Copied(was, was', mid, mid', pdir, d, data, v) && TreeOk(mid, d, child) && pa !in child
    requires e.To? && RangeMapped(mid, tab, d, v, 1, pa, PTE_W + PTE_U) && mem == mid'[pa := Bytes(mid', e.pa)]
    requires e == Pte(was, pdir, v) && e.pa in own && SameBytes(was', mid', own)
    ensures Copied(was, was', tab, mem, pdir, d, data, v + 1)
  {
    var n := v + 1;
    assert SameBytesAt(was', mid', own, e.pa);
    forall w ensures CopyAt(was, was', tab, mem, pdir, d, data, n, w) {
      assert CopyAt(was, was', mid, mid', pdir, d, data, v, w) && RangeAt(mid, tab, d, v, 1, pa, PTE_W + PTE_U, w);
      assert 0 <= w < v ==> RoleOk(mid, d, child, User(w));
    }
  }

  // Changes to other frames leave an address space as it was.
  lemma Untouched(tab: Tables, tab': Tables, dir: int, own: Owner, s: set<int>)
    requires TreeOk(tab, dir, own) && Touched(tab, tab', s) && own.Keys !! s
    ensures TreeOk(tab', dir, own) && SamePages(tab, tab', dir)
  {
    forall w ensures SameAt(tab, tab', dir, w) {
      if 0 <= w < NPAGES {
        UntouchedAt(tab, tab', dir, own, s, w);
      }
    }
    forall r ensures Slot(tab', dir, r) == Slot(tab, dir, r) && RoleOk(tab', dir, own, r) {
      assert RoleOk(tab, dir, own, r);
      match r
      case Dir =>
      case Table(d) => if 0 <= d < ENTRIES { UntouchedAt(tab, tab', dir, own, s, d * ENTRIES); }
      case User(v) => if 0 <= v < NUSER { UntouchedAt(tab, tab', dir, own, s, v); }
    }
    forall a ensures FrameOk(tab', dir, own, a) {
      assert FrameOk(tab, dir, own, a) && TouchAt(tab, tab', s, a);
    }
  }

  lemma UntouchedAt(tab: Tables, tab': Tables, dir: int, own: Owner, s: set<int>, w: int)
    requires TreeOk(tab, dir, own) && Touched(tab, tab', s) && own.Keys !! s && 0 <= w < NPAGES
    ensures Pte(tab', dir, w) == Pte(tab, dir, w) && Pde(tab', dir, w / ENTRIES) == Pde(tab, dir, w / ENTRIES)
  {
    TreeShape(tab, dir, own, w / ENTRIES);
    assert TouchAt(tab, tab', s, dir);
    if Pde(tab, dir, w / ENTRIES).To? {
      assert TouchAt(tab, tab', s, Pde(tab, dir, w / ENTRIES).pa);
    }
  }

  ghost predicate SparedAt(mem: map<int, seq<int>>, mem': map<int, seq<int>>, s: set<int>, a: int)
  {
    a !in s ==> Bytes(mem', a) == Bytes(mem, a)
  }

  // Only bytes in the frames s differ.
  ghost predicate Spared(mem: map<int, seq<int>>, mem': map<int, seq<int>>, s: set<int>)
  {
    forall a :: SparedAt(mem, mem', s, a)
  }

  lemma SparedAll(tab: Tables, mem: map<int, seq<int>>, s: set<int>)
    ensures Spared(mem, mem, s) && Touched(tab, tab, s)
  {
    forall a ensures SparedAt(mem, mem, s, a) && TouchAt(tab, tab, s, a) {
    }
  }

  lemma StillSpared(was: map<int, seq<int>>, mid: map<int, seq<int>>, mem: map<int, seq<int>>, s: set<int>, pa: int,
                    bytes: seq<int>)
    requires Spared(was, mid, s) && mem == mid[pa := bytes] && pa in s
    ensures Spared(was, mem, s)
  {
    forall a ensures SparedAt(was, mem, s, a) {
      assert SparedAt(was, mid, s, a);
    }
  }

  // The frames of other address spaces are neither free nor in this one.
  ghost predicate Disjoint(spaces: map<int, Owner>, s: set<int>)
  {
    forall e :: e in spaces ==> spaces[e].Keys !! s
  }

  // Every other address space keeps its tables, its pages and its bytes.
  lemma Isolation(tab: Tables, tab': Tables, mem: map<int, seq<int>>, mem': map<int, seq<int>>,
                  spaces: map<int, Owner>, s: set<int>)
    requires Touched(tab, tab', s) && Spared(mem, mem', s) && Disjoint(spaces, s)
    requires forall e :: e in spaces ==> TreeOk(tab, e, spaces[e])
    ensures forall e :: e in spaces ==>
              TreeOk(tab', e, spaces[e]) && SamePages(tab, tab', e) && SameBytes(mem, mem', spaces[e])
  {
    forall e | e in spaces
      ensures TreeOk(tab', e, spaces[e]) && SamePages(tab, tab', e) && SameBytes(mem, mem', spaces[e]) {
      Untouched(tab, tab', e, spaces[e], s);
      forall a ensures SameBytesAt(mem, mem', spaces[e], a) {
        assert SparedAt(mem, mem', s, a);
      }
    }
  }

  // ---------- permissions ----------

  predicate UserCan(e: Entry)
  {
    e.To? && e.perm / PTE_U % 2 == 1
  }

  // The entry with PTE_U cleared.
  function NoUser(e: Entry): Entry
  {
    if UserCan(e) then e.(perm := e.perm - PTE_U) else e
  }

  ghost predicate UserGoneAt(tab: Tables, tab': Tables, dir: int, v: int, w: int)
  {
    0 <= w < NPAGES ==> Pte(tab', dir, w) == if w == v then NoUser(Pte(tab, dir, v)) else Pte(tab, dir, w)
  }

  // Page v is the user's no more; every other page is as it was.
  ghost predicate UserGone(tab: Tables, tab': Tables, dir: int, v: int)
  {
    forall w :: UserGoneAt(tab, tab', dir, v, w)
  }

  lemma ClearPage(tab: Tables, dir: int, own: Owner, v: int)
    requires TreeOk(tab, dir, own) && 0 <= v < NUSER && Pde(tab, dir, v / ENTRIES).To?
    ensures var t := Pde(tab, dir, v / ENTRIES).pa;
            && t in tab && |tab[t]| == ENTRIES && tab[t][v % ENTRIES] == Pte(tab, dir, v)
            && var tab' := tab[t := tab[t][v % ENTRIES := NoUser(Pte(tab, dir, v))]];
               TreeOk(tab', dir, own) && UserGone(tab, tab', dir, v) && Touched(tab, tab', own.Keys)
  {
    TreeShape(tab, dir, own, v / ENTRIES);
    var e := Pte(tab, dir, v);
    var t := Pde(tab, dir, v / ENTRIES).pa;
    var tab' := SetPte(tab, dir, v, NoUser(e));
    if e.To? {
      PermKeeps(tab, dir, own, v, NoUser(e).perm);
    } else {
      assert tab[t][v % ENTRIES := NoUser(e)] == tab[t];
      assert tab' == tab;
    }
    forall w ensures UserGoneAt(tab, tab', dir, v, w) {
      if 0 <= w < NPAGES {
        SetPteAt(tab, dir, own, v, NoUser(e), w);
      }
    }
    forall a ensures TouchAt(tab, tab', own.Keys, a) {
    }
  }

  // A page of a copy has the parent's permissions exactly if those are PTE_W + PTE_U.
  lemma CopiedPerm(tab: Tables, mem: map<int, seq<int>>, tab': Tables, mem': map<int, seq<int>>, pdir: int, d: int,
                   data: int, n: int, w: int)
    requires Copied(tab, mem, tab', mem', pdir, d, data, n) && 0 <= w < n <= NPAGES
    ensures Pte(tab, pdir, w).To? && Pte(tab', d, w).To?
    ensures Pte(tab', d, w).perm == Pte(tab, pdir, w).perm <==> Pte(tab, pdir, w).perm == PTE_W + PTE_U
    ensures (UserCan(Pte(tab', d, w)) <==> UserCan(Pte(tab, pdir, w))) <==> UserCan(Pte(tab, pdir, w))
  {
    assert CopyAt(tab, mem, tab', mem', pdir, d, data, n, w);
  }

  // So the page below the stack that exec takes from the user is the user's again after a fork.
  lemma GuardCopied(was: Tables, tab: Tables, mem: map<int, seq<int>>, tab': Tables, mem': map<int, seq<int>>,
                    pdir: int, d: int, data: int, n: int, v: int)
    requires UserCan(Pte(was, pdir, v)) && UserGone(was, tab, pdir, v)
    requires Copied(tab, mem, tab', mem', pdir, d, data, n) && 0 <= v < n <= NPAGES
    ensures !UserCan(Pte(tab, pdir, v)) && UserCan(Pte(tab', d, v))
  {
    assert UserGoneAt(was, tab, pdir, v, v);
    assert CopyAt(tab, mem, tab', mem', pdir, d, data, n, v);
  }

  // ---------- growing and shrinking a process ----------

  // Shrinking a process by n to exactly nothing.
  predicate AllLost(sz: int, n: int)
  {
    n < 0 && sz + n == 0
  }

  // The size a process has once growproc(n) succeeds: a negative n shrinks it, unless by more than
  // there is, which leaves it as it is.
  function GrowSize(sz: int, n: int): int
  {
    if sz + n < 0 then sz else sz + n
  }

  // deallocuvm on pages without holes leaves the pages below the new size.
  lemma ShrunkPrefix(tab: Tables, tab': Tables, dir: int, sz: int, newsz: int)
    requires 0 <= sz <= KERNBASE && 0 <= newsz && Prefix(tab, dir, Up(sz))
    requires Gone(tab, tab', dir, Start(tab, dir, Up(newsz), Up(sz)), Up(sz))
    ensures Prefix(tab', dir, if newsz < sz then Up(newsz) else Up(sz))
  {
    hide Start, Sweeping;
    var first, hi := Up(newsz), Up(sz);
    StartSweep(tab, dir, first, hi);
    if first < hi {
      UnmapsPrefix(tab, tab', dir, hi, first, hi);
    }
    var n := if newsz < sz then first else hi;
    forall v ensures PrefixAt(tab', dir, n, v) {
      assert PrefixAt(tab, dir, hi, v) && GoneAt(tab, tab', dir, Start(tab, dir, first, hi), hi, v);
      assert first < hi ==> GoneAt(tab, tab', dir, first, hi, v);
    }
  }

  // ---------- the kernel's part ----------

  datatype Kmap = Kmap(virt: int, start: int, end: int, perm: int)

  function KmapTable(data: int): (r: seq<Kmap>)
    ensures |r| == 4
  {
    [Kmap(KERNBASE, 0, EXTMEM, PTE_W),
     Kmap(KERNLINK, KERNLINK - KERNBASE, data - KERNBASE, 0),
     Kmap(data, data - KERNBASE, PHYSTOP, PTE_W),
     Kmap(DEVSPACE, DEVSPACE, 0, PTE_W)]
  }

  // Where the kernel's data starts: a page between its text and the end of memory.
  predicate DataOk(data: int)
  {
    data % PGSIZE == 0 && KERNLINK < data < KERNBASE + PHYSTOP
  }

  // The entry of page w once the first i ranges are mapped.
  function KernelEntry(data: int, i: int, w: int): Entry
  {
    if i <= 0 || i > 4 then Empty
    else
      var k := KmapTable(data)[i - 1];
      var first, n := k.virt / PGSIZE, (k.end - k.start) % UINT / PGSIZE;
      if first <= w < first + n then To(k.start + (w - first) * PGSIZE, k.perm) else KernelEntry(data, i - 1, w)
  }

  lemma KernelSize(data: int, i: int)
    requires DataOk(data) && 0 < i <= 4
    ensures var k := KmapTable(data)[i - 1];
            && (k.end - k.start) % UINT == (if i == 4 then UINT - DEVSPACE else k.end - k.start)
            && k.virt % PGSIZE == 0 && (k.end - k.start) % PGSIZE == 0
  {
    assert (0 - DEVSPACE) % UINT == 0x200_0000;
    if i == 2 {
      assert data - KERNBASE - (KERNLINK - KERNBASE) < UINT;
    }
  }

  lemma KernelRange(data: int, i: int, w: int)
    requires DataOk(data) && 0 < i <= 4
    ensures var k := KmapTable(data)[i - 1]; var size := if i == 4 then UINT - DEVSPACE else k.end - k.start;
            KernelEntry(data, i, w) ==
            if k.virt <= w * PGSIZE < k.virt + size then To(k.start + w * PGSIZE - k.virt, k.perm)
            else KernelEntry(data, i - 1, w)
  {
    KernelSize(data, i);
  }

  // Physical memory is mapped at KERNBASE, device memory at its own address, user pages not at all,
  // and only text and read-only data are not writable.
  lemma KernelLayout(data: int, w: int)
    requires DataOk(data) && 0 <= w < NPAGES
    ensures KernelEntry(data, 4, w) ==
            if w * PGSIZE < KERNBASE then Empty
            else if w * PGSIZE < KERNBASE + PHYSTOP then
              To(w * PGSIZE - KERNBASE, if KERNLINK <= w * PGSIZE < data then 0 else PTE_W)
            else if w * PGSIZE < DEVSPACE then Empty
            else To(w * PGSIZE, PTE_W)
  {
    KernelRange(data, 4, w);
    KernelRange(data, 3, w);
    KernelRange(data, 2, w);
    KernelRange(data, 1, w);
  }

  // No range meets an earlier one.
  lemma KernelApart(data: int, i: int, w: int)
    requires DataOk(data) && 0 <= i < 4 && 0 <= w < NPAGES
    requires var k := KmapTable(data)[i]; k.virt / PGSIZE <= w < k.virt / PGSIZE + (k.end - k.start) % UINT / PGSIZE
    ensures KernelEntry(data, i, w).Empty?
  {
    KernelSize(data, i + 1);
    if i >= 1 {
      KernelRange(data, 1, w);
    }
    if i >= 2 {
      KernelRange(data, 2, w);
    }
    if i >= 3 {
      KernelRange(data, 3, w);
    }
  }

  ghost predicate KernelAt(tab: Tables, dir: int, data: int, i: int, w: int)
  {
    0 <= w < NPAGES ==> Pte(tab, dir, w) == KernelEntry(data, i, w)
  }

  ghost predicate KernelMapped(tab: Tables, dir: int, data: int, i: int)
  {
    forall w :: KernelAt(tab, dir, data, i, w)
  }

  lemma KernelStep(tab: Tables, tab': Tables, dir: int, data: int, i: int)
    requires DataOk(data) && 0 <= i < 4 && KernelMapped(tab, dir, data, i)
    requires var k := KmapTable(data)[i];
             RangeMapped(tab, tab', dir, k.virt / PGSIZE, (k.end - k.start) % UINT / PGSIZE, k.start, k.perm)
    ensures KernelMapped(tab', dir, data, i + 1)
  {
    var k, j := KmapTable(data)[i], i + 1;
    forall w ensures KernelAt(tab', dir, data, j, w) {
      assert KernelAt(tab, dir, data, i, w);
      assert RangeAt(tab, tab', dir, k.virt / PGSIZE, (k.end - k.start) % UINT / PGSIZE, k.start, k.perm, w);
    }
  }

  // A zeroed directory maps nothing and owns only itself.
  lemma BlankTree(tab: Tables, dir: int, data: int, s: set<int>)
    requires dir > 0 && dir in s
    ensures TreeOk(tab[dir := Blank()], dir, map[dir := Dir])
    ensures KernelMapped(tab[dir := Blank()], dir, data, 0) && Touched(tab, tab[dir := Blank()], s)
  {
    var tab', own := tab[dir := Blank()], map[dir := Dir];
    forall r ensures RoleOk(tab', dir, own, r) {
    }
    forall a ensures FrameOk(tab', dir, own, a) {
    }
    forall w ensures KernelAt(tab', dir, data, 0, w) {
    }
    forall a ensures TouchAt(tab, tab', s, a) {
    }
  }

  lemma NeverRemapped(tab: Tables, dir: int, data: int, i: int)
    requires DataOk(data) && 0 <= i < 4 && KernelMapped(tab, dir, data, i)
    ensures var k := KmapTable(data)[i];
            UnmappedFrom(tab, dir, k.virt / PGSIZE, (k.end - k.start) % UINT / PGSIZE)
  {
    KmapArgs(data, i);
    var k := KmapTable(data)[i];
    var first, n := k.virt / PGSIZE, (k.end - k.start) % UINT / PGSIZE;
    forall v | first <= v < first + n ensures Pte(tab, dir, v).Empty? {
      KernelApart(data, i, v);
      assert KernelAt(tab, dir, data, i, v);
    }
  }

  lemma FirstFrame(free: seq<int>, own: Owner)
    requires free != []
    ensures free[0] in Frames(free, own)
  {
    assert free[0] in Elements(free);
  }

  lemma KmapArgs(data: int, i: int)
    requires DataOk(data) && 0 <= i < 4
    ensures var k := KmapTable(data)[i]; var size := (k.end - k.start) % UINT;
            && KERNBASE <= k.virt && 0 < size && k.virt + size <= UINT
            && (k.virt + size - 1) / PGSIZE - k.virt / PGSIZE + 1 == size / PGSIZE
  {
    assert (0 - DEVSPACE) % UINT == 0x200_0000;
  }

  // ---------- counting frames ----------

  lemma NothingTabled(tab: Tables, dir: int, first: int)
    ensures Tabled(tab, tab, dir, first, first)
  {
    forall d ensures TabledAt(tab, tab, dir, first, first, d) {
    }
  }

  lemma TabledOn(tab: Tables, mid: Tables, tab': Tables, dir: int, first: int, v: int)
    requires Tabled(tab, mid, dir, first, v) && PdeAdded(mid, tab', dir, v / ENTRIES) && 0 <= first <= v < NPAGES
    ensures Tabled(tab, tab', dir, first, v + 1)
  {
    hide Pde;
    var w := v + 1;
    forall d ensures TabledAt(tab, tab', dir, first, w, d) {
      assert TabledAt(tab, mid, dir, first, v, d) && PdeAt(mid, tab', dir, v / ENTRIES, d);
    }
  }

  // The slots lo..hi-1 of a directory that have no table.
  function EmptySlots(tab: Tables, dir: int, lo: int, hi: int): int
    decreases hi - lo
  {
    if hi <= lo then 0 else EmptySlots(tab, dir, lo, hi - 1) + if Pde(tab, dir, hi - 1).Empty? then 1 else 0
  }

  // Mapping a range takes a table for each of them.
  lemma {:induction false} SlotDemand(tab: Tables, dir: int, first: int, n: int)
    requires 0 <= first && 0 < n
    ensures Demand(tab, dir, first, n) - n == EmptySlots(tab, dir, first / ENTRIES, (first + n - 1) / ENTRIES + 1)
    decreases n
  {
    hide Pde;
    if n > 1 {
      SlotDemand(tab, dir, first, n - 1);
      var v := first + n - 1;
      assert v / ENTRIES == if v % ENTRIES == 0 then (v - 1) / ENTRIES + 1 else (v - 1) / ENTRIES;
    } else {
      assert Demand(tab, dir, first, 0) == 0 && EmptySlots(tab, dir, first / ENTRIES, first / ENTRIES) == 0;
    }
  }

  // Counting them when they are the last ones of the range.
  lemma {:induction false} EmptyFrom(tab: Tables, dir: int, lo: int, t: int, hi: int)
    requires lo <= t <= hi && forall d :: lo <= d < hi ==> (Pde(tab, dir, d).Empty? <==> d >= t)
    ensures EmptySlots(tab, dir, lo, hi) == hi - t
    decreases hi - lo
  {
    hide Pde;
    if lo < hi {
      if t < hi {
        EmptyFrom(tab, dir, lo, t, hi - 1);
      } else {
        EmptyFrom(tab, dir, lo, hi - 1, hi - 1);
      }
    }
  }

  // The frames of an address space with n user pages and the kernel's part: a directory, 64 tables for
  // the kernel, the pages and their tables.
  function SpaceFrames(n: int): int
  {
    65 + n + (n + ENTRIES - 1) / ENTRIES
  }

  lemma UserDemand(tab: Tables, dir: int, n: int)
    requires 0 <= n <= NUSER && NoUserTables(tab, dir)
    ensures Demand(tab, dir, 0, n) == n + (n + ENTRIES - 1) / ENTRIES
  {
    hide Pde;
    if n > 0 {
      SlotDemand(tab, dir, 0, n);
      EmptyFrom(tab, dir, 0, 0, (n - 1) / ENTRIES + 1);
    }
  }

  // The first page below n that is not mapped, or n.
  function FirstHole(tab: Tables, dir: int, v: int, n: int): (r: int)
    ensures v <= n ==> v <= r <= n
    decreases n - v
  {
    if v >= n || Pte(tab, dir, v).Empty? then v else FirstHole(tab, dir, v + 1, n)
  }

  lemma {:induction false} HoleAt(tab: Tables, dir: int, v: int, m: int, n: int)
    requires 0 <= v <= m <= n && (forall w :: v <= w < m ==> Pte(tab, dir, w).To?)
             && (m < n ==> Pte(tab, dir, m).Empty?)
    ensures FirstHole(tab, dir, v, n) == m
    decreases m - v
  {
    hide Pte;
    if v < m {
      HoleAt(tab, dir, v + 1, m, n);
    }
  }

  // An address space without holes has none.
  lemma PrefixWhole(tab: Tables, dir: int, n: int)
    requires Prefix(tab, dir, n) && 0 <= n <= NUSER
    ensures FirstHole(tab, dir, 0, n) == n
  {
    hide Pte;
    forall w | 0 <= w < n ensures Pte(tab, dir, w).To? {
      assert PrefixAt(tab, dir, n, w);
    }
    HoleAt(tab, dir, 0, n, n);
  }

  // ---------- the kernel's tables ----------

  // The directory slot of the last page before the kernel's data.
  function TextSlot(data: int): int
  {
    (data / PGSIZE - 1) / ENTRIES
  }

  // The slots that have a table once the first i ranges are mapped, and how many they are.
  predicate KernelSlot(data: int, i: int, d: int)
  {
    || (i >= 1 && d == 512) || (i >= 2 && 512 <= d <= TextSlot(data)) || (i >= 3 && 512 <= d < 568)
    || (i >= 4 && 1016 <= d < 1024)
  }

  function KernelTables(data: int, i: int): int
  {
    if i <= 0 then 0 else if i == 1 then 1 else if i == 2 then TextSlot(data) - 511 else if i == 3 then 56 else 64
  }

  ghost predicate KernelTabledAt(tab: Tables, dir: int, data: int, i: int, d: int)
  {
    0 <= d < ENTRIES ==> (Pde(tab, dir, d).To? <==> KernelSlot(data, i, d))
  }

  ghost predicate KernelTabled(tab: Tables, dir: int, data: int, i: int)
  {
    forall d :: KernelTabledAt(tab, dir, data, i, d)
  }

  lemma BlankTabled(tab: Tables, dir: int, data: int)
    ensures KernelTabled(tab[dir := Blank()], dir, data, 0)
  {
    var tab' := tab[dir := Blank()];
    forall d ensures KernelTabledAt(tab', dir, data, 0, d) {
    }
  }

  // The slots of range i.
  lemma RangeSlots(data: int, i: int)
    requires DataOk(data) && 0 <= i < 4
    ensures var k := KmapTable(data)[i];
            var first, n := k.virt / PGSIZE, (k.end - k.start) % UINT / PGSIZE;
            var lo, hi := first / ENTRIES, (first + n - 1) / ENTRIES;
            && 0 < n && 0 <= first && first + n <= NPAGES && 512 <= TextSlot(data) < 568
            && lo == (if i <= 1 then 512 else if i == 2 then data / PGSIZE / ENTRIES else 1016)
            && hi == (if i == 0 then 512 else if i == 1 then TextSlot(data) else if i == 2 then 567 else 1023)
            && TextSlot(data) <= data / PGSIZE / ENTRIES <= TextSlot(data) + 1
  {
    assert (0 - DEVSPACE) % UINT == 0x200_0000;
    assert data / PGSIZE * PGSIZE == data;
  }

  lemma KernelSlots(tab: Tables, tab': Tables, dir: int, data: int, i: int)
    requires DataOk(data) && 0 <= i < 4 && KernelTabled(tab, dir, data, i)
    requires var k := KmapTable(data)[i]; var first, n := k.virt / PGSIZE, (k.end - k.start) % UINT / PGSIZE;
             Tabled(tab, tab', dir, first, first + n)
    ensures KernelTabled(tab', dir, data, i + 1)
  {
    hide Pde, KmapTable, TextSlot;
    RangeSlots(data, i);
    var k, j := KmapTable(data)[i], i + 1;
    var first, n := k.virt / PGSIZE, (k.end - k.start) % UINT / PGSIZE;
    forall d ensures KernelTabledAt(tab', dir, data, j, d) {
      assert KernelTabledAt(tab, dir, data, i, d) && TabledAt(tab, tab', dir, first, first + n, d);
    }
  }

  // Range i takes the tables that are not there yet.
  lemma KernelDemand(tab: Tables, dir: int, data: int, i: int)
    requires DataOk(data) && 0 <= i < 4 && KernelTabled(tab, dir, data, i)
    ensures var k := KmapTable(data)[i]; var first, n := k.virt / PGSIZE, (k.end - k.start) % UINT / PGSIZE;
            Demand(tab, dir, first, n) - n == KernelTables(data, i + 1) - KernelTables(data, i) >= 0
    ensures KernelTables(data, i + 1) <= 64
  {
    hide Pde, KmapTable, TextSlot;
    RangeSlots(data, i);
    var k := KmapTable(data)[i];
    var first, n := k.virt / PGSIZE, (k.end - k.start) % UINT / PGSIZE;
    var lo, hi := first / ENTRIES, (first + n - 1) / ENTRIES + 1;
    SlotDemand(tab, dir, first, n);
    var t := if i == 0 then 512 else if i == 1 then 513 else if i == 2 then TextSlot(data) + 1 else 1016;
    forall d | lo <= d < hi ensures Pde(tab, dir, d).Empty? <==> d >= t {
      assert KernelTabledAt(tab, dir, data, i, d);
    }
    EmptyFrom(tab, dir, lo, t, hi);
  }

  lemma UserSlotsEmpty(tab: Tables, dir: int, data: int)
    requires KernelTabled(tab, dir, data, 4) && DataOk(data)
    ensures NoUserTables(tab, dir)
  {
    hide Pde;
    forall d | 0 <= d < NUSER / ENTRIES ensures Pde(tab, dir, d).Empty? {
      assert KernelTabledAt(tab, dir, data, 4, d);
    }
  }

  lemma NoDemand(tab: Tables, dir: int, first: int)
    ensures Demand(tab, dir, first, 0) == 0 && UnmappedFrom(tab, dir, first, 0)
  {
  }

  lemma NoTables(data: int)
    ensures KernelTables(data, 0) == 0 && KernelTables(data, 4) == 64
  {
  }

  lemma TablesOf(tab: Tables, dir: int, v: int)
    ensures Pages(tab, dir, v) == if Pde(tab, dir, v / ENTRIES).To? then 1 else 2
  {
  }

  lemma {:induction false} HoleFrom(tab: Tables, dir: int, v: int, m: int, n: int)
    requires 0 <= v <= m <= n && forall w :: v <= w < m ==> Pte(tab, dir, w).To?
    ensures FirstHole(tab, dir, v, n) == FirstHole(tab, dir, m, n) >= m
    decreases m - v
  {
    hide Pte;
    if v < m {
      HoleFrom(tab, dir, v + 1, m, n);
    }
  }

  ghost predicate MappedBelow(tab: Tables, dir: int, n: int)
  {
    forall v :: 0 <= v < n ==> Pte(tab, dir, v).To?
  }

  ghost predicate NoUserTables(tab: Tables, dir: int)
  {
    forall d :: 0 <= d < NUSER / ENTRIES ==> Pde(tab, dir, d).Empty?
  }

  // How the copy of n pages ends with that many frames for the new address space: in a panic at the
  // first hole if it has the frames to come to it, else with the whole copy if there are frames for it.
  predicate CopyOutcome(tab: Tables, dir: int, n: int, frames: int, panics: bool, copied: bool)
  {
    var m := FirstHole(tab, dir, 0, n);
    && (panics <==> m < n && frames >= SpaceFrames(m))
    && (copied <==> m == n && frames >= SpaceFrames(m))
  }

  // The copy comes to page v, a hole or the end,
  lemma CopyStops(tab: Tables, dir: int, d: int, v: int, n: int, frames: int)
    requires NoUserTables(tab, d) && MappedBelow(tab, dir, v) && 0 <= v <= n <= NUSER
    requires frames >= Demand(tab, d, 0, v) && (v < n ==> Pte(tab, dir, v).Empty?)
    ensures CopyOutcome(tab, dir, n, frames + SpaceFrames(0), v < n, v == n)
  {
    hide Pte, Pde;
    UserDemand(tab, d, v);
    HoleAt(tab, dir, 0, v, n);
  }

  // or has no frames for it.
  lemma CopyShort(tab: Tables, dir: int, d: int, v: int, n: int, frames: int)
    requires NoUserTables(tab, d) && MappedBelow(tab, dir, v + 1) && 0 <= v < n <= NUSER
    requires frames < Demand(tab, d, 0, v + 1)
    ensures CopyOutcome(tab, dir, n, frames + SpaceFrames(0), false, false)
  {
    hide Pte, Pde, Demand;
    var m := FirstHole(tab, dir, 0, n);
    HoleFrom(tab, dir, 0, v + 1, n);
    DemandGrows(tab, d, 0, v + 1, m);
    UserDemand(tab, d, m);
  }

  lemma {:induction false} SameHole(tab: Tables, tab': Tables, dir: int, v: int, n: int)
    requires SamePages(tab, tab', dir) && 0 <= v && n <= NPAGES
    ensures FirstHole(tab', dir, v, n) == FirstHole(tab, dir, v, n)
    decreases n - v
  {
    hide Pte;
    if v < n {
      assert SameAt(tab, tab', dir, v);
      SameHole(tab, tab', dir, v + 1, n);
    }
  }

  datatype Status = Ok | NoTable | Remap

  // The first page from v on that is mapped, or end.
  function FirstMapped(tab: Tables, dir: int, v: int, end: int): (r: int)
    ensures v <= end ==> v <= r <= end
    decreases end - v
  {
    if v >= end || Pte(tab, dir, v).To? then v else FirstMapped(tab, dir, v + 1, end)
  }

  ghost predicate UnmappedFrom(tab: Tables, dir: int, first: int, n: int)
  {
    forall v :: first <= v < first + n ==> Pte(tab, dir, v).Empty?
  }

  // How mappages ends: in a panic at the first page already mapped if there are frames for the tables
  // before it, else with the whole range if there are frames for its tables.
  predicate MapOutcome(tab: Tables, dir: int, first: int, end: int, frames: int, r: Status)
  {
    var m := FirstMapped(tab, dir, first, end);
    var tables := Demand(tab, dir, first, m - first) - (m - first);
    && (r.Remap? <==> m < end && frames >= tables)
    && (r.Ok? <==> m == end && frames >= tables)
  }

  lemma {:induction false} MappedFrom(tab: Tables, dir: int, v: int, n: nat, end: int)
    requires v + n <= end && UnmappedFrom(tab, dir, v, n)
    ensures FirstMapped(tab, dir, v, end) == FirstMapped(tab, dir, v + n, end) >= v + n
    decreases n
  {
    hide Pte;
    if n > 0 {
      MappedFrom(tab, dir, v + 1, n - 1, end);
    }
  }

  lemma MapStops(tab: Tables, dir: int, first: int, n: nat, end: int, frames: int)
    requires UnmappedFrom(tab, dir, first, n) && first + n <= end && frames >= Demand(tab, dir, first, n) - n
    requires first + n < end ==> Pte(tab, dir, first + n).To?
    ensures MapOutcome(tab, dir, first, end, frames, if first + n < end then Remap else Ok)
  {
    hide Pte, Demand;
    MappedFrom(tab, dir, first, n, end);
  }

  lemma MapShort(tab: Tables, dir: int, first: int, n: nat, end: int, frames: int)
    requires UnmappedFrom(tab, dir, first, n) && 0 <= first && first + n < end
    requires Pde(tab, dir, (first + n) / ENTRIES).Empty? && frames < Demand(tab, dir, first, n + 1) - (n + 1)
    ensures MapOutcome(tab, dir, first, end, frames, NoTable)
  {
    hide Pde, Demand;
    assert UnmappedFrom(tab, dir, first, n + 1);
    hide Pte;
    MappedFrom(tab, dir, first, n + 1, end);
    DemandGrows(tab, dir, first, n + 1, FirstMapped(tab, dir, first, end) - first);
  }

  // On a range with nothing mapped it takes only the frames.
  lemma MapFree(tab: Tables, dir: int, first: int, n: nat, frames: int, r: Status)
    requires UnmappedFrom(tab, dir, first, n) && MapOutcome(tab, dir, first, first + n, frames, r)
    ensures !r.Remap? && (r.Ok? <==> frames >= Demand(tab, dir, first, n) - n)
  {
    hide Pte, Demand;
    MappedFrom(tab, dir, first, n, first + n);
  }

  lemma MappedNone(tab: Tables, dir: int, first: int, n: nat, pa: int, perm: int, tab': Tables)
    requires UnmappedFrom(tab, dir, first, n) && RangeMapped(tab, tab', dir, first, n, pa, perm)
    requires 0 <= first + n < NPAGES && Pte(tab', dir, first + n).Empty?
    ensures UnmappedFrom(tab, dir, first, n + 1)
  {
    hide Pte;
    RangeOutside(tab, tab', dir, first, n, pa, perm, first + n);
  }
}
