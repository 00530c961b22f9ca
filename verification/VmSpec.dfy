/**
  Two-level page tables (mmu.h, vm.c) as values, and which frame serves which purpose.

  Page v covers addresses v*PGSIZE .. ; its directory index is v/1024 and its table index v%1024.
  `tab` holds the frames used as directories or tables.
 */
module VmSpec {
  const PGSIZE: int := 4096
  const ENTRIES: int := 1024
  const KERNBASE: int := 0x8000_0000
  const NUSER: int := KERNBASE / PGSIZE
  const NPAGES: int := 0x10_0000

  datatype Entry = Empty | To(pa: int, perm: int)

  type Tables = map<int, seq<Entry>>

  // What a frame of an address space is for.
  datatype Role = Dir | Table(d: int) | User(v: int)

  type Owner = map<int, Role>

  function Get(tab: Tables, t: int, i: int): Entry
  {
    if t in tab && 0 <= i < |tab[t]| then tab[t][i] else Empty
  }

  function Pde(tab: Tables, dir: int, d: int): Entry
  {
    Get(tab, dir, d)
  }

  function Pte(tab: Tables, dir: int, v: int): Entry
  {
    match Pde(tab, dir, v / ENTRIES)
    case Empty => Empty
    case To(t, _) => Get(tab, t, v % ENTRIES)
  }

  // The entry that role r stands for.
  function Slot(tab: Tables, dir: int, r: Role): Entry
  {
    match r
    case Dir => To(dir, 0)
    case Table(d) => if 0 <= d < ENTRIES then Pde(tab, dir, d) else Empty
    case User(v) => if 0 <= v < NUSER then Pte(tab, dir, v) else Empty
  }

  ghost predicate RoleOk(tab: Tables, dir: int, own: Owner, r: Role)
  {
    var e := Slot(tab, dir, r);
    e.To? ==> e.pa in own && own[e.pa] == r
  }

  ghost predicate FrameOk(tab: Tables, dir: int, own: Owner, a: int)
  {
    a in own ==>
      && a > 0
      && Slot(tab, dir, own[a]).To? && Slot(tab, dir, own[a]).pa == a
      && (own[a].User? || (a in tab && |tab[a]| == ENTRIES))
  }

  // The directory, its tables and the user frames are all different frames, and own lists them.
  ghost predicate TreeOk(tab: Tables, dir: int, own: Owner)
  {
    (forall r :: RoleOk(tab, dir, own, r)) && (forall a :: FrameOk(tab, dir, own, a))
  }

  function Blank(): seq<Entry>
  {
    seq(ENTRIES, _ => Empty)
  }

  // The directory is a page of entries, and so is every table it points at.
  lemma TreeShape(tab: Tables, dir: int, own: Owner, d: int)
    requires TreeOk(tab, dir, own) && 0 <= d < ENTRIES
    ensures dir > 0 && dir in own && own[dir] == Dir && dir in tab && |tab[dir]| == ENTRIES
    ensures Pde(tab, dir, d).To? ==>
              var t := Pde(tab, dir, d).pa;
              t > 0 && t != dir && t in own && own[t] == Table(d) && t in tab && |tab[t]| == ENTRIES
  {
    assert RoleOk(tab, dir, own, Dir) && FrameOk(tab, dir, own, dir);
    assert RoleOk(tab, dir, own, Table(d));
    if Pde(tab, dir, d).To? {
      assert FrameOk(tab, dir, own, Pde(tab, dir, d).pa);
    }
  }

  // Write entry e for page v into the table that covers it.
  function SetPte(tab: Tables, dir: int, v: int, e: Entry): Tables
    requires Pde(tab, dir, v / ENTRIES).To? && Pde(tab, dir, v / ENTRIES).pa in tab
    requires 0 <= v % ENTRIES < |tab[Pde(tab, dir, v / ENTRIES).pa]|
  {
    var t := Pde(tab, dir, v / ENTRIES).pa;
    tab[t := tab[t][v % ENTRIES := e]]
  }

  lemma SetPteAt(tab: Tables, dir: int, own: Owner, v: int, e: Entry, w: int)
    requires TreeOk(tab, dir, own) && 0 <= v < NPAGES && 0 <= w < NPAGES && Pde(tab, dir, v / ENTRIES).To?
    ensures Pde(tab, dir, v / ENTRIES).pa in tab && |tab[Pde(tab, dir, v / ENTRIES).pa]| == ENTRIES
    ensures Pte(SetPte(tab, dir, v, e), dir, w) == if w == v then e else Pte(tab, dir, w)
    ensures Pde(SetPte(tab, dir, v, e), dir, w / ENTRIES) == Pde(tab, dir, w / ENTRIES)
  {
    TreeShape(tab, dir, own, v / ENTRIES);
    TreeShape(tab, dir, own, w / ENTRIES);
  }

  // A new, blank table for directory slot d.
  function AddTable(tab: Tables, dir: int, d: int, t: int, perm: int): Tables
    requires dir in tab && 0 <= d < |tab[dir]| && t != dir
  {
    tab[t := Blank()][dir := tab[dir][d := To(t, perm)]]
  }

  // It makes no page appear or disappear.
  lemma AddTableAt(tab: Tables, dir: int, own: Owner, d: int, t: int, perm: int, w: int)
    requires TreeOk(tab, dir, own) && 0 <= d < ENTRIES && Pde(tab, dir, d).Empty? && t !in own && 0 <= w < NPAGES
    ensures dir in tab && |tab[dir]| == ENTRIES && t != dir
    ensures Pte(AddTable(tab, dir, d, t, perm), dir, w) == Pte(tab, dir, w)
    ensures Pde(AddTable(tab, dir, d, t, perm), dir, w / ENTRIES) == if w / ENTRIES == d then To(t, perm)
            else Pde(tab, dir, w / ENTRIES)
  {
    TreeShape(tab, dir, own, d);
    TreeShape(tab, dir, own, w / ENTRIES);
  }

  lemma AddTableSlot(tab: Tables, dir: int, own: Owner, d: int, t: int, perm: int, r: Role)
    requires TreeOk(tab, dir, own) && 0 <= d < ENTRIES && Pde(tab, dir, d).Empty? && t !in own
    ensures dir in tab && |tab[dir]| == ENTRIES && t != dir
    ensures Slot(AddTable(tab, dir, d, t, perm), dir, r) == if r == Table(d) then To(t, perm) else Slot(tab, dir, r)
  {
    TreeShape(tab, dir, own, d);
    match r
    case Dir =>
    case Table(x) =>
      if 0 <= x < ENTRIES {
        AddTableAt(tab, dir, own, d, t, perm, x * ENTRIES);
      }
    case User(v) =>
      if 0 <= v < NUSER {
        AddTableAt(tab, dir, own, d, t, perm, v);
      }
  }

  lemma AddTableKeeps(tab: Tables, dir: int, own: Owner, d: int, t: int, perm: int)
    requires TreeOk(tab, dir, own) && 0 <= d < ENTRIES && Pde(tab, dir, d).Empty? && t !in own && t > 0
    ensures dir in tab && |tab[dir]| == ENTRIES && t != dir
    ensures TreeOk(AddTable(tab, dir, d, t, perm), dir, own[t := Table(d)])
  {
    TreeShape(tab, dir, own, d);
    var tab', own' := AddTable(tab, dir, d, t, perm), own[t := Table(d)];
    forall r ensures RoleOk(tab', dir, own', r) {
      AddTableSlot(tab, dir, own, d, t, perm, r);
      assert RoleOk(tab, dir, own, r);
    }
    forall a ensures FrameOk(tab', dir, own', a) {
      assert FrameOk(tab, dir, own, a);
      if a in own' {
        AddTableSlot(tab, dir, own, d, t, perm, own'[a]);
      }
    }
  }

  lemma SetPteSlot(tab: Tables, dir: int, own: Owner, v: int, e: Entry, r: Role)
    requires TreeOk(tab, dir, own) && 0 <= v < NPAGES && Pde(tab, dir, v / ENTRIES).To?
    ensures Pde(tab, dir, v / ENTRIES).pa in tab && |tab[Pde(tab, dir, v / ENTRIES).pa]| == ENTRIES
    ensures Slot(SetPte(tab, dir, v, e), dir, r) == if r == User(v) && v < NUSER then e else Slot(tab, dir, r)
  {
    SetPteAt(tab, dir, own, v, e, v);
    match r
    case Dir =>
    case Table(x) =>
      if 0 <= x < ENTRIES {
        SetPteAt(tab, dir, own, v, e, x * ENTRIES);
      }
    case User(w) =>
      if 0 <= w < NUSER {
        SetPteAt(tab, dir, own, v, e, w);
      }
  }

  // Map a fresh frame at an unmapped user page.
  lemma MapKeeps(tab: Tables, dir: int, own: Owner, v: int, pa: int, perm: int)
    requires TreeOk(tab, dir, own) && 0 <= v < NUSER && Pde(tab, dir, v / ENTRIES).To?
    requires Pte(tab, dir, v).Empty? && pa !in own && pa > 0
    ensures Pde(tab, dir, v / ENTRIES).pa in tab && |tab[Pde(tab, dir, v / ENTRIES).pa]| == ENTRIES
    ensures TreeOk(SetPte(tab, dir, v, To(pa, perm)), dir, own[pa := User(v)])
  {
    SetPteAt(tab, dir, own, v, To(pa, perm), v);
    var tab', own' := SetPte(tab, dir, v, To(pa, perm)), own[pa := User(v)];
    forall r ensures RoleOk(tab', dir, own', r) {
      SetPteSlot(tab, dir, own, v, To(pa, perm), r);
      assert RoleOk(tab, dir, own, r);
    }
    forall a ensures FrameOk(tab', dir, own', a) {
      assert FrameOk(tab, dir, own, a);
      if a in own' {
        SetPteSlot(tab, dir, own, v, To(pa, perm), own'[a]);
      }
    }
  }

  // Unmap a user page, giving up its frame.
  lemma UnmapKeeps(tab: Tables, dir: int, own: Owner, v: int)
    requires TreeOk(tab, dir, own) && 0 <= v < NUSER && Pte(tab, dir, v).To?
    ensures Pde(tab, dir, v / ENTRIES).To? && Pde(tab, dir, v / ENTRIES).pa in tab
            && |tab[Pde(tab, dir, v / ENTRIES).pa]| == ENTRIES
    ensures Pte(tab, dir, v).pa in own && own[Pte(tab, dir, v).pa] == User(v) && Pte(tab, dir, v).pa > 0
    ensures TreeOk(SetPte(tab, dir, v, Empty), dir, own - {Pte(tab, dir, v).pa})
  {
    assert RoleOk(tab, dir, own, User(v));
    assert FrameOk(tab, dir, own, Pte(tab, dir, v).pa);
    SetPteAt(tab, dir, own, v, Empty, v);
    var tab', own' := SetPte(tab, dir, v, Empty), own - {Pte(tab, dir, v).pa};
    forall r ensures RoleOk(tab', dir, own', r) {
      SetPteSlot(tab, dir, own, v, Empty, r);
      assert RoleOk(tab, dir, own, r);
    }
    forall a ensures FrameOk(tab', dir, own', a) {
      assert FrameOk(tab, dir, own, a);
      if a in own' {
        SetPteSlot(tab, dir, own, v, Empty, own'[a]);
      }
    }
  }

  // Change the permissions of a user page.
  lemma PermKeeps(tab: Tables, dir: int, own: Owner, v: int, perm: int)
    requires TreeOk(tab, dir, own) && 0 <= v < NUSER && Pte(tab, dir, v).To?
    ensures Pde(tab, dir, v / ENTRIES).To? && Pde(tab, dir, v / ENTRIES).pa in tab
            && |tab[Pde(tab, dir, v / ENTRIES).pa]| == ENTRIES
    ensures TreeOk(SetPte(tab, dir, v, Pte(tab, dir, v).(perm := perm)), dir, own)
  {
    var e := Pte(tab, dir, v).(perm := perm);
    SetPteAt(tab, dir, own, v, e, v);
    var tab' := SetPte(tab, dir, v, e);
    forall r ensures RoleOk(tab', dir, own, r) {
      SetPteSlot(tab, dir, own, v, e, r);
      assert RoleOk(tab, dir, own, r);
    }
    forall a ensures FrameOk(tab', dir, own, a) {
      assert FrameOk(tab, dir, own, a);
      if a in own {
        SetPteSlot(tab, dir, own, v, e, own[a]);
      }
    }
  }

  // A kernel mapping involves no frame of the address space.
  lemma KernelKeeps(tab: Tables, dir: int, own: Owner, v: int, e: Entry)
    requires TreeOk(tab, dir, own) && NUSER <= v < NPAGES && Pde(tab, dir, v / ENTRIES).To?
    ensures Pde(tab, dir, v / ENTRIES).pa in tab && |tab[Pde(tab, dir, v / ENTRIES).pa]| == ENTRIES
    ensures TreeOk(SetPte(tab, dir, v, e), dir, own)
  {
    SetPteAt(tab, dir, own, v, e, v);
    var tab' := SetPte(tab, dir, v, e);
    forall r ensures RoleOk(tab', dir, own, r) {
      SetPteSlot(tab, dir, own, v, e, r);
      assert RoleOk(tab, dir, own, r);
    }
    forall a ensures FrameOk(tab', dir, own, a) {
      assert FrameOk(tab, dir, own, a);
      if a in own {
        SetPteSlot(tab, dir, own, v, e, own[a]);
      }
    }
  }
}
