/**
  vm.c and kalloc.c: page frames on a free list, and the loops that build, shrink, copy and
  free an address space.
 */
module Vm {
  import opened Finite
  import opened VmSpec
  import opened AddressSpace

  class Kernel {
    const lo: int              // the first physical address after the kernel
    const data: int            // the first virtual address of the kernel's writable data
    var free: seq<int>         // kmem.freelist, next to be handed out first
    var tab: Tables
    var mem: map<int, seq<int>>   // the bytes of frames used as user pages

    constructor (lo: int, data: int)
      requires lo > 0
      ensures this.lo == lo && this.data == data && free == [] && tab == map[] && mem == map[]
      ensures FreeOk(lo, free, map[])
    {
      this.lo, this.data := lo, data;
      free, tab, mem := [], map[], map[];
    }

    // The next free frame, or 0.
    method Kalloc() returns (pa: int)
      modifies this`free
      ensures old(free) == [] ==> pa == 0 && free == []
      ensures old(free) != [] ==> pa == old(free)[0] && free == old(free)[1..]
    {
      if free == [] {
        return 0;
      }
      pa := free[0];
      free := free[1..];
    }

    // Put a frame back; false stands for the panic on something that is not a frame.
    method Kfree(pa: int) returns (ok: bool)
      modifies this`free
      ensures ok == PoolOk(lo, pa)
      ensures free == if ok then [pa] + old(free) else old(free)
    {
      if pa % PGSIZE != 0 || pa < lo || pa >= PHYSTOP {
        return false;
      }
      free := [pa] + free;
      return true;
    }

    // Hand every whole page of start..end to the free list.
    method Freerange(start: int, end: int, ghost own: Owner)
      requires FreeOk(lo, free, own) && lo <= start && end <= PHYSTOP
      requires forall a :: PageIn(start, end, a) ==> a !in Frames(free, own)
      modifies this`free
      ensures FreeOk(lo, free, own)
      ensures forall a :: a in free <==> a in old(free) || PageIn(start, end, a)
    {
      hide FreeOk, Frames, PoolOk, PageIn;
      var p := Up(start) * PGSIZE;
      NoPagesYet(start, end);
      while p + PGSIZE <= end
        invariant p % PGSIZE == 0 && start <= p
        invariant FreeOk(lo, free, own)
        invariant forall a :: a in free <==> a in old(free) || (PageIn(start, end, a) && a < p)
        decreases end - p
      {
        NextPage(start, end, p);
        NotFree(old(free), own, p);
        GiveFrame(lo, old(free), free, own, p);
        var ok := Kfree(p);
        p := p + PGSIZE;
      }
      LastPage(start, end, p);
    }

    // The table that covers page v, made if need be; 0 when there is none.
    method Walkpgdir(dir: int, v: int, alloc: bool, ghost own: Owner) returns (t: int, ghost own': Owner)
      requires TreeOk(tab, dir, own) && FreeOk(lo, free, own) && 0 <= v < NPAGES
      modifies this`free, this`tab
      ensures TreeOk(tab, dir, own') && FreeOk(lo, free, own') && SamePages(old(tab), tab, dir)
      ensures Frames(free, own') == Frames(old(free), own)
      ensures t == 0 ==>
                tab == old(tab) && free == old(free) && own' == own && Pde(tab, dir, v / ENTRIES).Empty?
                && (alloc ==> free == [])
      ensures t != 0 ==> Pde(tab, dir, v / ENTRIES).To? && Pde(tab, dir, v / ENTRIES).pa == t
      ensures t != 0 ==> PdeAdded(old(tab), tab, dir, v / ENTRIES) && own.Keys <= own'.Keys
      ensures t != 0 ==> |free| == |old(free)| - if Pde(old(tab), dir, v / ENTRIES).To? then 0 else 1
      ensures Touched(old(tab), tab, Frames(old(free), own))
      ensures !alloc || Pde(old(tab), dir, v / ENTRIES).To? ==> tab == old(tab) && free == old(free) && own' == own
    {
      hide TreeOk, FreeOk, Touched, SamePages, PdeAdded, Pte;
      own' := own;
      TreeShape(tab, dir, own, v / ENTRIES);
      var pde := tab[dir][v / ENTRIES];
      if pde.To? {
        NothingMoved(tab, dir, v / ENTRIES, Frames(free, own));
        return pde.pa, own;
      }
      if !alloc || free == [] {
        NothingMoved(tab, dir, v / ENTRIES, Frames(free, own));
        return 0, own;
      }
      t, own' := NewTable(dir, v / ENTRIES, own);
    }

    method NewTable(dir: int, d: int, ghost own: Owner) returns (t: int, ghost own': Owner)
      requires TreeOk(tab, dir, own) && FreeOk(lo, free, own) && 0 <= d < ENTRIES
      requires Pde(tab, dir, d).Empty? && free != []
      modifies this`free, this`tab
      ensures TreeOk(tab, dir, own') && FreeOk(lo, free, own') && SamePages(old(tab), tab, dir)
      ensures Frames(free, own') == Frames(old(free), own)
      ensures t > 0 && Pde(tab, dir, d) == To(t, PTE_W + PTE_U) && own.Keys <= own'.Keys
      ensures free == old(free)[1..] && PdeAdded(old(tab), tab, dir, d)
      ensures Touched(old(tab), tab, Frames(old(free), own))
    {
      hide TreeOk, FreeOk, Touched, SamePages, PdeAdded, Blank, Pde;
      PopFree(lo, free, own, Table(d));
      NewTableKeeps(tab, dir, own, d, free[0], Frames(free, own));
      t := Kalloc();
      own' := own[t := Table(d)];
      tab := tab[t := Blank()];
      tab := tab[dir := tab[dir][d := To(t, PTE_W + PTE_U)]];
      assert tab == AddTable(old(tab), dir, d, t, PTE_W + PTE_U);
    }

    // One round of mappages: page v is made to point at pa.
    method MapPage(dir: int, v: int, pa: int, perm: int, ghost own: Owner) returns (r: Status, ghost own': Owner)
      requires TreeOk(tab, dir, own) && FreeOk(lo, free, own) && 0 <= v < NPAGES
      requires v < NUSER ==> PoolOk(lo, pa) && pa !in Frames(free, own)
      modifies this`free, this`tab
      ensures TreeOk(tab, dir, own') && FreeOk(lo, free, own')
      ensures r.Ok? ==> Pte(old(tab), dir, v).Empty? && RangeMapped(old(tab), tab, dir, v, 1, pa, perm)
      ensures r.Ok? ==> PdeAdded(old(tab), tab, dir, v / ENTRIES)
      ensures own.Keys <= own'.Keys
      ensures r.Ok? ==> |free| == |old(free)| - if Pde(old(tab), dir, v / ENTRIES).To? then 0 else 1
      ensures r.Remap? ==> Pte(old(tab), dir, v).To?
      ensures r.NoTable? ==>
                free == [] && Pde(old(tab), dir, v / ENTRIES).Empty? && tab == old(tab) && old(free) == []
                && own' == own
      ensures !r.Ok? ==> SamePages(old(tab), tab, dir)
      ensures Frames(free, own') == Frames(old(free), own) + if r.Ok? && v < NUSER then {pa} else {}
      ensures Touched(old(tab), tab, Frames(old(free), own))
    {
      hide TreeOk, FreeOk, Touched, SamePages, RangeMapped, PdeAdded, Pte, Pde, PoolOk;
      var t;
      t, own' := Walkpgdir(dir, v, true, own);
      if t == 0 {
        return NoTable, own';
      }
      ghost var mid := tab;
      SamePage(old(tab), tab, dir, v);
      TableAt(tab, dir, own', v);
      if tab[t][v % ENTRIES].To? {
        return Remap, own';
      }
      if v < NUSER {
        AdoptFrame(lo, free, own', pa, User(v));
      }
      PutPage(old(tab), tab, dir, own', v, pa, perm, Frames(free, own'));
      if v < NUSER {
        own' := own'[pa := User(v)];
      }
      tab := tab[t := tab[t][v % ENTRIES := To(pa, perm)]];
      TouchedTwice(old(tab), mid, tab, Frames(old(free), own), Frames(old(free), own));
      PdeKept(old(tab), mid, tab, dir, v / ENTRIES);
      r := Ok;
    }

    // Map the pages from va to va+size-1 to the frames from pa on.
    method Mappages(dir: int, va: int, size: int, pa: int, perm: int, ghost own: Owner)
      returns (r: Status, ghost own': Owner)
      requires TreeOk(tab, dir, own) && FreeOk(lo, free, own)
      requires 0 <= va && 0 < size && va + size <= UINT
      requires va < KERNBASE ==> va / PGSIZE == (va + size - 1) / PGSIZE && PoolOk(lo, pa) && pa !in Frames(free, own)
      modifies this`free, this`tab
      ensures TreeOk(tab, dir, own') && FreeOk(lo, free, own')
      ensures r.Ok? ==>
                RangeMapped(old(tab), tab, dir, va / PGSIZE, (va + size - 1) / PGSIZE - va / PGSIZE + 1, pa, perm)
      ensures MapOutcome(old(tab), dir, va / PGSIZE, (va + size - 1) / PGSIZE + 1, |old(free)|, r)
      ensures r.Ok? ==>
                var first, n := va / PGSIZE, (va + size - 1) / PGSIZE - va / PGSIZE + 1;
                && Tabled(old(tab), tab, dir, first, first + n)
                && |free| == |old(free)| - (Demand(old(tab), dir, first, n) - n)
      ensures r.NoTable? ==> free == []
      ensures va < KERNBASE && !r.Ok? ==> SamePages(old(tab), tab, dir)
      ensures va < KERNBASE && r.NoTable? ==>
                Pde(old(tab), dir, va / PGSIZE / ENTRIES).Empty? && tab == old(tab) && old(free) == [] && own' == own
      ensures va < KERNBASE && r.Ok? ==> PdeAdded(old(tab), tab, dir, va / PGSIZE / ENTRIES) && own.Keys <= own'.Keys
      ensures va < KERNBASE && r.Ok? ==>
                |free| == |old(free)| - if Pde(old(tab), dir, va / PGSIZE / ENTRIES).To? then 0 else 1
      ensures Frames(free, own') == Frames(old(free), own) + if r.Ok? && va < KERNBASE then {pa} else {}
      ensures Touched(old(tab), tab, Frames(old(free), own))
    {
      hide TreeOk, FreeOk, Touched, SamePages, RangeMapped, PdeAdded, Pte, Pde, Frames, PoolOk, Tabled, Demand, Needs;
      hide Pages, MapOutcome, UnmappedFrom;
      MapBounds(va, size);
      ghost var first, n := va / PGSIZE, 0;
      ghost var all := Frames(free, own);
      var a, last := va / PGSIZE, (va % UINT + size - 1) % UINT / PGSIZE;
      var p := pa;
      own' := own;
      NoneMapped(tab, dir, first, pa, perm, all);
      NothingTabled(tab, dir, first);
      NoDemand(tab, dir, first);
      while true
        invariant 0 <= a <= last && a == first + n && n >= 0 && p == pa + n * PGSIZE
        invariant a < NUSER ==> n == 0 && a == last
        invariant n == 0 ==> tab == old(tab) && free == old(free) && own' == own
        invariant TreeOk(tab, dir, own') && FreeOk(lo, free, own') && Frames(free, own') == all
        invariant RangeMapped(old(tab), tab, dir, first, n, pa, perm) && Touched(old(tab), tab, all)
        invariant Tabled(old(tab), tab, dir, first, a) && UnmappedFrom(old(tab), dir, first, n)
        invariant |free| + Demand(old(tab), dir, first, n) - n == |old(free)|
        decreases last - a
      {
        ghost var was := tab;
        NeedsNow(old(tab), tab, dir, first, a);
        TablesOf(tab, dir, a);
        r, own' := MapPage(dir, a, p, perm, own');
        TouchedTwice(old(tab), was, tab, all, all);
        if !r.Ok? {
          if r.Remap? {
            RangeOutside(old(tab), was, dir, first, n, pa, perm, a);
            MapStops(old(tab), dir, first, n, last + 1, |old(free)|);
          } else {
            MapShort(old(tab), dir, first, n, last + 1, |old(free)|);
          }
          return;
        }
        MappedNone(old(tab), dir, first, n, pa, perm, was);
        RangeExtends(old(tab), was, tab, dir, first, n, pa, perm);
        TabledOn(old(tab), was, tab, dir, first, a);
        n := n + 1;
        if a == last {
          MapStops(old(tab), dir, first, n, last + 1, |old(free)|);
          return;
        }
        a, p := a + 1, p + PGSIZE;
      }
    }

    // A new address space with the kernel's mappings only; 0 when memory runs out, and then own
    // is what was taken and is not given back.
    method Setupkvm() returns (dir: int, ghost own: Owner)
      requires FreeOk(lo, free, map[]) && DataOk(data)
      modifies this`free, this`tab
      ensures FreeOk(lo, free, own) && Frames(free, own) == Frames(old(free), map[])
      ensures Touched(old(tab), tab, Frames(old(free), map[]))
      ensures dir == 0 ==> free == []
      ensures dir != 0 <==> |old(free)| >= SpaceFrames(0)
      ensures dir != 0 ==>
                && TreeOk(tab, dir, own) && KernelMapped(tab, dir, data, 4) && KernelTabled(tab, dir, data, 4)
                && |free| == |old(free)| - SpaceFrames(0)
    {
      hide TreeOk, FreeOk, Touched, KernelMapped, RangeMapped, Pte, Pde, Frames, KmapTable, Blank, KernelEntry;
      hide KernelTabled, Tabled, Demand, KernelTables, MapOutcome, UnmappedFrom;
      NoTables(data);
      own := map[];
      ghost var all := Frames(free, map[]);
      if free == [] {
        NoneMapped(tab, 0, 0, 0, 0, all);
        return 0, own;
      }
      PopFree(lo, free, own, Dir);
      FirstFrame(free, own);
      dir := Kalloc();
      own := own[dir := Dir];
      BlankTree(tab, dir, data, all);
      BlankTabled(tab, dir, data);
      tab := tab[dir := Blank()];
      var i := 0;
      while i < 4
        invariant 0 <= i <= 4
        invariant dir != 0 && TreeOk(tab, dir, own) && FreeOk(lo, free, own) && Frames(free, own) == all
        invariant Touched(old(tab), tab, all) && KernelMapped(tab, dir, data, i)
        invariant KernelTabled(tab, dir, data, i) && |free| + 1 + KernelTables(data, i) == |old(free)|
      {
        ghost var was, frames := tab, free;
        KmapArgs(data, i);
        KernelDemand(tab, dir, data, i);
        var k := KmapTable(data)[i];
        var r;
        r, own := Mappages(dir, k.virt, (k.end - k.start) % UINT, k.start, k.perm, own);
        TouchedTwice(old(tab), was, tab, all, all);
        NeverRemapped(was, dir, data, i);
        MapFree(was, dir, k.virt / PGSIZE, (k.end - k.start) % UINT / PGSIZE, |frames|, r);
        if r.Remap? {
          assert false;
        }
        if !r.Ok? {
          return 0, own;
        }
        KernelStep(was, tab, dir, data, i);
        KernelSlots(was, tab, dir, data, i);
        i := i + 1;
      }
    }

    // One round of deallocuvm on a mapped page.
    method DropPage(dir: int, v: int, t: int, ghost own: Owner) returns (ok: bool, ghost own': Owner)
      requires TreeOk(tab, dir, own) && FreeOk(lo, free, own) && 0 <= v < NUSER
      requires Pde(tab, dir, v / ENTRIES).To? && Pde(tab, dir, v / ENTRIES).pa == t && Pte(tab, dir, v).To?
      modifies this`free, this`tab
      ensures TreeOk(tab, dir, own') && FreeOk(lo, free, own') && Frames(free, own') == Frames(old(free), own)
      ensures ok && Gone(old(tab), tab, dir, v, v + 1) && Touched(old(tab), tab, Frames(old(free), own))
      ensures dir in tab && dir in old(tab) && tab[dir] == old(tab)[dir]
    {
      hide TreeOk, FreeOk, Touched, Gone, Pte, Pde;
      DropKeeps(tab, dir, own, v, Frames(free, own));
      var pa := tab[t][v % ENTRIES].pa;
      PushFree(lo, free, own, pa);
      ok := Kfree(pa);
      own' := own - {pa};
      tab := tab[t := tab[t][v % ENTRIES := Empty]];
    }

    // Shrink the address space from oldsz to newsz bytes.
    method Deallocuvm(dir: int, oldsz: int, newsz: int, ghost own: Owner) returns (r: int, ghost own': Owner)
      requires TreeOk(tab, dir, own) && FreeOk(lo, free, own) && 0 <= newsz && 0 <= oldsz <= KERNBASE
      modifies this`free, this`tab
      ensures TreeOk(tab, dir, own') && FreeOk(lo, free, own') && Frames(free, own') == Frames(old(free), own)
      ensures r == if newsz >= oldsz then oldsz else newsz
      ensures Gone(old(tab), tab, dir, Start(old(tab), dir, Up(newsz), Up(oldsz)), Up(oldsz))
      ensures Touched(old(tab), tab, Frames(old(free), own))
      ensures dir in old(tab) && dir in tab && tab[dir] == old(tab)[dir]
    {
      hide TreeOk, FreeOk, Touched, Gone, Pte, Pde, Frames, Start, Sweeping;
      ghost var all, start := Frames(free, own), Start(tab, dir, Up(newsz), Up(oldsz));
      own' := own;
      TreeShape(tab, dir, own, 0);
      NothingMoved(tab, dir, 0, all);
      StartSweep(tab, dir, Up(newsz), Up(oldsz));
      NoneGone(tab, dir, start, Min(Up(newsz), Up(oldsz)));
      if newsz >= oldsz {
        return oldsz, own';
      }
      var a := Up(newsz) * PGSIZE;
      while a < oldsz
        invariant a % PGSIZE == 0 && 0 <= a
        invariant TreeOk(tab, dir, own') && FreeOk(lo, free, own') && Frames(free, own') == all
        invariant dir in tab && tab[dir] == old(tab)[dir] && Touched(old(tab), tab, all)
        invariant Gone(old(tab), tab, dir, start, Min(a / PGSIZE, Up(oldsz)))
        invariant Sweeping(old(tab), dir, start, a / PGSIZE, Up(oldsz))
        decreases oldsz - a
      {
        var v := a / PGSIZE;
        ghost var was := tab;
        var t;
        t, own' := Walkpgdir(dir, v, false, own');
        SamePde(old(tab), tab, dir, v / ENTRIES);
        if t == 0 {
          SkipTable(old(tab), tab, dir, start, v, Up(oldsz));
          a := a + (ENTRIES - 1) * PGSIZE;
        } else {
          TableAt(tab, dir, own', v);
          if tab[t][v % ENTRIES].To? {
            var ok;
            ok, own' := DropPage(dir, v, t, own');
            TouchedTwice(old(tab), was, tab, all, all);
          } else {
            NoneThere(tab, dir, v);
          }
          SweepOn(old(tab), dir, start, v, Up(oldsz));
          GoneFurther(old(tab), was, tab, dir, start, v);
        }
        a := a + PGSIZE;
      }
      return newsz, own';
    }

    // The second half of freevm: the tables, then the directory.
    method FreeTables(dir: int, ghost own: Owner)
      requires TreeOk(tab, dir, own) && FreeOk(lo, free, own)
      requires forall v :: 0 <= v < NUSER ==> Pte(tab, dir, v).Empty?
      modifies this`free
      ensures FreeOk(lo, free, map[]) && Elements(free) == Frames(old(free), own)
    {
      hide TreeOk, FreeOk, Pte, Pde, Left, Frames, PoolOk;
      ghost var o := own;
      AllLeft(tab, dir, own);
      TreeShape(tab, dir, own, 0);
      var i := 0;
      while i < ENTRIES
        invariant 0 <= i <= ENTRIES
        invariant FreeOk(lo, free, o) && Frames(free, o) == Frames(old(free), own) && Left(own, o, i)
      {
        NextLeft(tab, dir, own, o, i);
        if tab[dir][i].To? {
          PushFree(lo, free, o, tab[dir][i].pa);
          o := o - {tab[dir][i].pa};
          var ok := Kfree(tab[dir][i].pa);
        }
        i := i + 1;
      }
      OnlyDirLeft(tab, dir, own, o);
      PushFree(lo, free, o, dir);
      var ok := Kfree(dir);
      NoneOwned(free);
    }

    // Give back an address space: afterwards its frames are free, each once.
    method Freevm(dir: int, ghost own: Owner)
      requires TreeOk(tab, dir, own) && FreeOk(lo, free, own)
      modifies this`free, this`tab
      ensures FreeOk(lo, free, map[]) && Elements(free) == Frames(old(free), own)
      ensures Touched(old(tab), tab, Frames(old(free), own))
    {
      hide TreeOk, FreeOk, Touched, Gone, Pte, Pde, Start, Sweeping, Frames, Up;
      var r;
      ghost var o;
      WholeSpace(tab, dir);
      r, o := Deallocuvm(dir, KERNBASE, 0, own);
      AllUnmapped(old(tab), tab, dir);
      FreeTables(dir, o);
    }

    // Take a frame, fill it, and map it at user page v.
    method FillPage(dir: int, v: int, bytes: seq<int>, ghost own: Owner) returns (r: Growth, ghost own': Owner)
      requires TreeOk(tab, dir, own) && FreeOk(lo, free, own) && 0 <= v < NUSER && Pte(tab, dir, v).Empty?
      modifies this`free, this`tab, this`mem
      ensures TreeOk(tab, dir, own') && FreeOk(lo, free, own') && Touched(old(tab), tab, Frames(old(free), own))
      ensures r.Mapped? ==>
                && old(free) != [] && RangeMapped(old(tab), tab, dir, v, 1, old(free)[0], PTE_W + PTE_U)
                && mem == old(mem)[old(free)[0] := bytes] && Frames(free, own') == Frames(old(free), own)
                && PdeAdded(old(tab), tab, dir, v / ENTRIES) && own.Keys <= own'.Keys && old(free)[0] !in own
                && |free| == |old(free)| - Pages(old(tab), dir, v)
      ensures r.NoFrame? ==> old(free) == [] && free == [] && tab == old(tab) && mem == old(mem) && own' == own
      ensures r.Dropped? ==>
                && |old(free)| == 1 && free == [] && tab == old(tab) && own' == own
                && mem == old(mem)[old(free)[0] := bytes]
                && Pde(tab, dir, v / ENTRIES).Empty?
                && Frames(free, own') + {old(free)[0]} == Frames(old(free), own)
    {
      hide TreeOk, FreeOk, Touched, RangeMapped, PdeAdded, Pte, Pde, SamePages, Frames, PoolOk;
      own' := own;
      OnePage(v);
      if free == [] {
        NothingMoved(tab, dir, 0, Frames(free, own));
        return NoFrame, own;
      }
      PopFree(lo, free, own, User(v));
      HeadApart(lo, free, own);
      var pa := Kalloc();
      mem := mem[pa := bytes];
      var st;
      st, own' := Mappages(dir, v * PGSIZE, PGSIZE, pa, PTE_W + PTE_U, own);
      TouchMore(old(tab), tab, Frames(old(free)[1..], own), Frames(old(free), own));
      MapFree(old(tab), dir, v, 1, |old(free)| - 1, st);
      if st.Remap? {
        assert false;
      }
      r := if st.Ok? then Mapped else Dropped;
    }

    // Undo the pages mapped so far.
    method Rollback(dir: int, oldsz: int, newsz: int, ghost was: Tables, ghost to: int, ghost s: set<int>,
                    ghost own: Owner)
      returns (ghost own': Owner)
      requires TreeOk(tab, dir, own) && FreeOk(lo, free, own) && 0 <= oldsz < newsz < KERNBASE
      requires Up(oldsz) <= to <= Up(newsz) && Up(oldsz) < Up(newsz)
      requires Prefix(was, dir, Up(oldsz)) && Grown(was, tab, mem, dir, Up(oldsz), to, s)
      modifies this`free, this`tab
      ensures TreeOk(tab, dir, own') && FreeOk(lo, free, own') && Frames(free, own') == Frames(old(free), own)
      ensures SamePages(was, tab, dir) && Touched(old(tab), tab, Frames(old(free), own))
    {
      hide TreeOk, FreeOk, Touched, Gone, Pte, Pde, Start, Grown, Prefix, Frames;
      ghost var grown := tab;
      GrownPrefix(was, tab, mem, dir, Up(oldsz), to, s);
      var r;
      r, own' := Deallocuvm(dir, newsz, oldsz, own);
      UnmapsPrefix(grown, tab, dir, to, Up(oldsz), Up(newsz));
      Restored(was, grown, tab, mem, dir, Up(oldsz), to, Up(newsz), s);
    }

    // The loop of allocuvm.
    method GrowTo(dir: int, oldsz: int, newsz: int, ghost own: Owner)
      returns (r: int, ghost ok: bool, ghost own': Owner, ghost lost: set<int>)
      requires TreeOk(tab, dir, own) && FreeOk(lo, free, own)
      requires 0 <= oldsz <= newsz < KERNBASE && Prefix(tab, dir, Up(oldsz))
      modifies this`free, this`tab, this`mem
      ensures TreeOk(tab, dir, own') && FreeOk(lo, free, own')
      ensures Frames(free, own') + lost == Frames(old(free), own) && |lost| <= 1
      ensures r == (if ok then newsz else 0)
      ensures GrowOutcome(old(tab), tab, mem, dir, Up(oldsz), Up(newsz), |old(free)|, ok, lost, own.Keys)
      ensures Touched(old(tab), tab, Frames(old(free), own)) && Spared(old(mem), mem, Frames(old(free), own))
    {
      hide TreeOk, FreeOk, Touched, Grown, Tabled, Pte, Pde, Prefix, Frames, Needs, Demand, SamePages, Up, Zeros,
           RangeMapped, PdeAdded, Pages, Spared;
      own', lost, ok := own, {}, false;
      ghost var first, hi, all := Up(oldsz), Up(newsz), Frames(free, own);
      SparedAll(tab, mem, all);
      UpFacts(oldsz, newsz);
      NothingGrown(tab, mem, dir, first, own.Keys);
      var a := Up(oldsz) * PGSIZE;
      ghost var to := first;
      while a < newsz
        invariant a % PGSIZE == 0 && first <= a / PGSIZE <= hi
        invariant TreeOk(tab, dir, own') && FreeOk(lo, free, own') && own.Keys <= own'.Keys
        invariant Frames(free, own') + lost == all && |lost| <= 1
        invariant Touched(old(tab), tab, all) && Spared(old(mem), mem, all)
        invariant Grown(old(tab), tab, mem, dir, first, to, own.Keys)
        invariant lost == {} ==>
                    && to == a / PGSIZE && Tabled(old(tab), tab, dir, first, to)
                    && |free| + Demand(old(tab), dir, first, to - first) == |old(free)|
        invariant lost != {} ==>
                    && first <= to == a / PGSIZE - 1 && free == [] && Needs(old(tab), dir, first, to)
                    && |old(free)| == Demand(old(tab), dir, first, to + 1 - first) - 1
      {
        var v := a / PGSIZE;
        var g;
        ghost var was, frames, bytes, mid := tab, free, mem, own';
        Unmapped(old(tab), tab, mem, dir, first, to, own.Keys, v);
        g, own' := FillPage(dir, v, Zeros(), own');
        TouchedTwice(old(tab), was, tab, all, Frames(frames, mid));
        if g.NoFrame? {
          ghost var mine := Frames(free, own');
          own' := Rollback(dir, oldsz, newsz, old(tab), to, own.Keys, own');
          TouchedTwice(old(tab), was, tab, all, mine);
          RunsShort(old(tab), dir, first, v - first, hi - first, |old(free)|);
          return 0, false, own', lost;
        }
        FirstFrame(frames, mid);
        StillSpared(old(mem), bytes, mem, all, frames[0], Zeros());
        NeedsNow(old(tab), was, dir, first, v);
        if g.Dropped? {
          lost := {frames[0]};
          StillGrown(old(tab), tab, bytes, mem, dir, first, to, own.Keys, frames[0]);
        } else {
          GrewOne(old(tab), was, tab, bytes, mem, dir, first, v, own.Keys, frames[0]);
          to := v + 1;
        }
        a := a + PGSIZE;
      }
      return newsz, true, own', lost;
    }

    // Grow the address space from oldsz to newsz bytes. lost is a frame taken and not mapped.
    method Allocuvm(dir: int, oldsz: int, newsz: int, ghost own: Owner)
      returns (r: int, ghost ok: bool, ghost own': Owner, ghost lost: set<int>)
      requires TreeOk(tab, dir, own) && FreeOk(lo, free, own)
      requires 0 <= oldsz <= KERNBASE && 0 <= newsz < UINT && Prefix(tab, dir, Up(oldsz))
      modifies this`free, this`tab, this`mem
      ensures TreeOk(tab, dir, own') && FreeOk(lo, free, own')
      ensures Frames(free, own') + lost == Frames(old(free), own) && |lost| <= 1
      ensures newsz >= KERNBASE || newsz < oldsz ==>
                tab == old(tab) && free == old(free) && mem == old(mem) && lost == {}
      ensures newsz >= KERNBASE ==> r == 0
      ensures newsz < KERNBASE && newsz < oldsz ==> r == oldsz
      ensures oldsz <= newsz < KERNBASE ==>
                && r == (if ok then newsz else 0)
                && GrowOutcome(old(tab), tab, mem, dir, Up(oldsz), Up(newsz), |old(free)|, ok, lost, own.Keys)
      ensures Touched(old(tab), tab, Frames(old(free), own)) && Spared(old(mem), mem, Frames(old(free), own))
    {
      hide TreeOk, FreeOk, Touched, Spared, Frames, Prefix, GrowOutcome;
      SparedAll(tab, mem, Frames(free, own));
      own', lost, ok := own, {}, false;
      if newsz >= KERNBASE {
        return 0, false, own, {};
      }
      if newsz < oldsz {
        return oldsz, false, own, {};
      }
      r, ok, own', lost := GrowTo(dir, oldsz, newsz, own);
    }

    // growproc: change the size of a process without holes by n bytes.
    method Growproc(dir: int, sz: int, n: int, ghost own: Owner)
      returns (ok: bool, sz': int, ghost own': Owner, ghost lost: set<int>)
      requires TreeOk(tab, dir, own) && FreeOk(lo, free, own)
      requires 0 < sz <= KERNBASE && -UINT / 2 <= n < UINT / 2 && Prefix(tab, dir, Up(sz))
      modifies this`free, this`tab, this`mem
      ensures TreeOk(tab, dir, own') && FreeOk(lo, free, own') && Frames(free, own') + lost == Frames(old(free), own)
      ensures sz' == if ok then GrowSize(sz, n) else sz
      ensures n > 0 && sz + n >= KERNBASE ==> !ok && tab == old(tab)
      ensures n > 0 && sz + n < KERNBASE ==>
                GrowOutcome(old(tab), tab, mem, dir, Up(sz), Up(sz + n), |old(free)|, ok, lost, own.Keys)
      // a shrinking request fails exactly when it takes away everything, and after it has
      ensures n <= 0 ==> (ok <==> !AllLost(sz, n)) && lost == {} && Prefix(tab, dir, Up(GrowSize(sz, n)))
    {
      hide TreeOk, FreeOk, Touched, Spared, Frames, Prefix, GrowOutcome, Gone, Start, Up;
      own', lost, sz' := own, {}, sz;
      var r;
      if n > 0 {
        ghost var grown;
        r, grown, own', lost := Allocuvm(dir, sz, sz + n, own);
        if r == 0 {
          return false, sz, own', lost;
        }
        sz' := r;
      } else if n < 0 {
        r, own' := Deallocuvm(dir, sz, (sz + n) % UINT, own);
        ShrunkPrefix(old(tab), tab, dir, sz, (sz + n) % UINT);
        if r == 0 {
          return false, sz, own', lost;
        }
        sz' := r;
      }
      ok := true;
    }

    // The entry of user page v.
    method ReadPage(dir: int, v: int, ghost own: Owner) returns (e: Entry)
      requires TreeOk(tab, dir, own) && FreeOk(lo, free, own) && 0 <= v < NUSER
      modifies this`free, this`tab
      ensures e == Pte(tab, dir, v) && free == old(free) && tab == old(tab)
      ensures e.To? ==> e.pa in own
    {
      var t;
      ghost var o;
      t, o := Walkpgdir(dir, v, false, own);
      if t == 0 {
        return Empty;
      }
      TableAt(tab, dir, own, v);
      assert RoleOk(tab, dir, own, User(v));
      return tab[t][v % ENTRIES];
    }

    // Take page v from the user, as exec does with the page below the stack; false stands for the
    // panic when there is no table for it.
    method Clearpteu(dir: int, v: int, ghost own: Owner) returns (ok: bool)
      requires TreeOk(tab, dir, own) && FreeOk(lo, free, own) && 0 <= v < NUSER
      modifies this`free, this`tab
      ensures TreeOk(tab, dir, own) && free == old(free) && (ok <==> Pde(old(tab), dir, v / ENTRIES).To?)
      ensures !ok ==> tab == old(tab)
      ensures ok ==> UserGone(old(tab), tab, dir, v) && Touched(old(tab), tab, own.Keys)
    {
      hide TreeOk, FreeOk, Touched, Pte, Pde, UserGone, Frames, SamePages;
      var t;
      ghost var o;
      t, o := Walkpgdir(dir, v, false, own);
      if t == 0 {
        return false;
      }
      ClearPage(tab, dir, own, v);
      tab := tab[t := tab[t][v % ENTRIES := NoUser(tab[t][v % ENTRIES])]];
      return true;
    }

    // The loop of copyuvm, up to where it gives up.
    method CopyPages(pdir: int, sz: int, d: int, ghost own: Owner, ghost child: Owner)
      returns (g: Growth, panics: bool, ghost own': Owner, ghost lost: set<int>)
      requires TreeOk(tab, pdir, own) && FreeOk(lo, free, own) && 0 <= sz <= KERNBASE
      requires TreeOk(tab, d, child) && FreeOk(lo, free, child) && child.Keys !! own.Keys
               && KernelMapped(tab, d, data, 4)
      requires DataOk(data) && KernelTabled(tab, d, data, 4)
      modifies this`free, this`tab, this`mem
      ensures TreeOk(tab, d, own') && FreeOk(lo, free, own') && Frames(free, own') + lost == Frames(old(free), child)
      ensures Touched(old(tab), tab, Frames(old(free), child)) && SameBytes(old(mem), mem, own)
      ensures Spared(old(mem), mem, Frames(old(free), child))
      ensures CopyOutcome(old(tab), pdir, Up(sz), |old(free)| + SpaceFrames(0), panics, !panics && g.Mapped?)
      ensures |lost| <= 1 && (g.Mapped? ==> lost == {})
      ensures !panics && g.Mapped? ==> Copied(old(tab), old(mem), tab, mem, pdir, d, data, Up(sz))
    {
      hide TreeOk, FreeOk, Touched, Copied, Pte, Pde, Frames, SameBytes, KernelMapped, SamePages, RangeMapped,
           PdeAdded, Bytes, Spared;
      hide Tabled, Demand, Needs, Pages, KernelTabled, CopyOutcome, FirstHole, SpaceFrames, NoUserTables;
      own', lost, g, panics := child, {}, Mapped, false;
      ghost var all := Frames(free, child);
      UserSlotsEmpty(tab, d, data);
      NothingTabled(tab, d, 0);
      NoDemand(tab, d, 0);
      SparedAll(tab, mem, all);
      NothingCopied(tab, mem, pdir, d, data, own, all);
      ApartFromFree(lo, free, own, child);
      var i := 0;
      while i < sz
        invariant 0 <= i && i % PGSIZE == 0 && i / PGSIZE <= Up(sz)
        invariant TreeOk(tab, d, own') && FreeOk(lo, free, own') && Frames(free, own') == all
        invariant Touched(old(tab), tab, all) && SameBytes(old(mem), mem, own) && Spared(old(mem), mem, all)
        invariant Copied(old(tab), old(mem), tab, mem, pdir, d, data, i / PGSIZE)
        invariant Tabled(old(tab), tab, d, 0, i / PGSIZE) && |free| + Demand(old(tab), d, 0, i / PGSIZE) == |old(free)|
        invariant g.Mapped? && MappedBelow(old(tab), pdir, i / PGSIZE)
      {
        var v := i / PGSIZE;
        NeedsNow(old(tab), tab, d, 0, v);
        Untouched(old(tab), tab, pdir, own, all);
        FreeForParent(lo, old(free), free, own, child, own');
        var e := ReadPage(pdir, v, own);
        SamePage(old(tab), tab, pdir, v);
        if e.Empty? {
          CopyStops(old(tab), pdir, d, v, Up(sz), |old(free)|);
          return Mapped, true, own', {};
        }
        ghost var was, frames, bytes, mid := tab, free, mem, own';
        Uncopied(old(tab), old(mem), tab, mem, pdir, d, data, v);
        g, own' := FillPage(d, v, Bytes(mem, e.pa), own');
        TouchedTwice(old(tab), was, tab, all, all);
        if frames != [] {
          FirstFrame(frames, mid);
          StillSameBytes(old(mem), bytes, mem, own, frames[0], Bytes(bytes, e.pa));
          StillSpared(old(mem), bytes, mem, all, frames[0], Bytes(bytes, e.pa));
        }
        if !g.Mapped? {
          CopyShort(old(tab), pdir, d, v, Up(sz), |old(free)|);
          lost := if g.Dropped? then {frames[0]} else {};
          return g, false, own', lost;
        }
        CopiedOne(old(tab), was, tab, old(mem), bytes, mem, pdir, d, data, v, mid, own, frames[0], e);
        TabledOn(old(tab), was, tab, d, 0, v);
        i := i + PGSIZE;
      }
      CopyStops(old(tab), pdir, d, Up(sz), Up(sz), |old(free)|);
    }

    // The rest of copyuvm once the child has a directory.
    method CopyOrFree(pdir: int, sz: int, d0: int, ghost own: Owner, ghost child: Owner)
      returns (d: int, panics: bool, ghost own': Owner, ghost lost: set<int>)
      requires TreeOk(tab, pdir, own) && FreeOk(lo, free, own) && 0 <= sz <= KERNBASE
      requires TreeOk(tab, d0, child) && FreeOk(lo, free, child) && child.Keys !! own.Keys
               && KernelMapped(tab, d0, data, 4)
      requires DataOk(data) && d0 != 0 && KernelTabled(tab, d0, data, 4)
      modifies this`free, this`tab, this`mem
      ensures FreeOk(lo, free, own') && Frames(free, own') + lost == Frames(old(free), child) && |lost| <= 1
      ensures Touched(old(tab), tab, Frames(old(free), child)) && SameBytes(old(mem), mem, own)
      ensures Spared(old(mem), mem, Frames(old(free), child))
      ensures CopyOutcome(old(tab), pdir, Up(sz), |old(free)| + SpaceFrames(0), panics, !panics && d != 0)
      ensures !panics && d == 0 ==> own' == map[]
      ensures !panics && d != 0 ==>
                lost == {} && TreeOk(tab, d, own') && Copied(old(tab), old(mem), tab, mem, pdir, d, data, Up(sz))
    {
      hide TreeOk, FreeOk, Touched, Copied, Pte, Frames, SameBytes, KernelMapped, Spared, KernelTabled;
      hide CopyOutcome, FirstHole, SpaceFrames;
      var g;
      d := d0;
      g, panics, own', lost := CopyPages(pdir, sz, d, own, child);
      if !panics && !g.Mapped? {
        ghost var was, mine := tab, Frames(free, own');
        Freevm(d, own');
        TouchedTwice(old(tab), was, tab, Frames(old(free), child), mine);
        NoneOwned(free);
        d, own' := 0, map[];
      }
    }

    // A copy of the first sz bytes of the user part of pdir, in an address space of its own; 0 when
    // memory runs out. lost are frames taken and neither used nor given back.
    method Copyuvm(pdir: int, sz: int, ghost own: Owner)
      returns (d: int, panics: bool, ghost own': Owner, ghost lost: set<int>)
      requires TreeOk(tab, pdir, own) && FreeOk(lo, free, own) && DataOk(data) && 0 <= sz <= KERNBASE
      modifies this`free, this`tab, this`mem
      ensures TreeOk(tab, pdir, own) && SamePages(old(tab), tab, pdir) && SameBytes(old(mem), mem, own)
      ensures FreeOk(lo, free, own) && FreeOk(lo, free, own') && own'.Keys !! own.Keys
      ensures Frames(free, own') + lost == Elements(old(free))
      ensures Touched(old(tab), tab, Elements(old(free))) && Spared(old(mem), mem, Elements(old(free)))
      // it panics at the first hole it has the frames to come to, and otherwise succeeds exactly if there
      // are frames for the whole copy
      ensures var m := FirstHole(old(tab), pdir, 0, Up(sz));
              && (panics <==> m < Up(sz) && |old(free)| >= SpaceFrames(m))
              && (!panics && d != 0 <==> m == Up(sz) && |old(free)| >= SpaceFrames(m))
      // so a process without holes always has its copy when there are frames for it
      ensures Prefix(old(tab), pdir, Up(sz)) ==> !panics && (d != 0 <==> |old(free)| >= SpaceFrames(Up(sz)))
      ensures !panics && d == 0 ==> own' == map[] && (|lost| <= 1 || free == [])
      ensures !panics && d != 0 ==>
                lost == {} && TreeOk(tab, d, own') && Copied(old(tab), old(mem), tab, mem, pdir, d, data, Up(sz))
    {
      hide TreeOk, FreeOk, Touched, Copied, Pte, Frames, SameBytes, KernelMapped, SamePages, Spared, KernelTabled;
      hide FirstHole, Prefix;
      panics, lost := false, {};
      if Prefix(tab, pdir, Up(sz)) {
        PrefixWhole(tab, pdir, Up(sz));
      }
      NoneOwned(free);
      NotOwned(lo, free, own);
      ghost var all := Frames(free, map[]);
      NothingShared(mem, own);
      SparedAll(tab, mem, all);
      d, own' := Setupkvm();
      Untouched(old(tab), tab, pdir, own, all);
      FreeForParent(lo, old(free), free, own, map[], own');
      OwnedFrames(free, own');
      SameHole(old(tab), tab, pdir, 0, Up(sz));
      if d == 0 {
        lost := own'.Keys;
        NoneOwned(free);
        NotOwned(lo, free, own);
        own' := map[];
        return;
      }
      ghost var was := tab;
      d, panics, own', lost := CopyOrFree(pdir, sz, d, own, own');
      CopiedFrom(old(tab), was, tab, old(mem), mem, pdir, d, data, Up(sz));
      TouchedTwice(old(tab), was, tab, all, all);
      Untouched(old(tab), tab, pdir, own, all);
      FreeForParent(lo, old(free), free, own, map[], own');
      OwnedFrames(free, own');
    }
  }
}
