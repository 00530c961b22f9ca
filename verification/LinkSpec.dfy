/**
  Directories and link counts (sysfile.c, fs.c): what create, link and unlink keep. Each system
  call is one step; names are at most DIRSIZ characters, as skipelem leaves them.
 */
module LinkSpec {
  const ROOT: int := 1

  datatype Kind = File | Dir | Dev

  // inum 0 marks an empty slot.
  datatype Entry = Entry(name: string, inum: int)

  datatype Inode = Inode(kind: Kind, nlink: int, entries: seq<Entry>)

  // The allocated inodes.
  type Fs = map<int, Inode>

  predicate Linked(fs: Fs, d: int)
  {
    d in fs && fs[d].kind == Dir && fs[d].nlink > 0
  }

  function At(fs: Fs, d: int, k: int): Entry
  {
    if d in fs && 0 <= k < |fs[d].entries| then fs[d].entries[k] else Entry("", 0)
  }

  // Slot k of the linked directory d names i, other than as ".".
  predicate Ref(fs: Fs, d: int, k: int, i: int)
  {
    Linked(fs, d) && At(fs, d, k).inum == i != 0 && At(fs, d, k).name != "."
  }

  function Refs(fs: Fs, i: int): (r: set<(int, int)>)
    ensures forall d, k :: (d, k) in r <==> Ref(fs, d, k, i)
  {
    set d, k | d in fs && 0 <= k < |fs[d].entries| && Ref(fs, d, k, i) :: (d, k)
  }

  // Where each linked directory but the root is named, and how deep it is.
  datatype Shape = Shape(home: map<int, (int, int)>, depth: map<int, nat>)

  ghost predicate CountOk(fs: Fs, i: int)
  {
    i in fs ==> fs[i].nlink == |Refs(fs, i)|
  }

  // Entries name allocated inodes; beyond the first two slots they are not "." or "..", and a
  // directory is named at its home only.
  ghost predicate EntryOk(fs: Fs, t: Shape, d: int, k: int)
  {
    var e := At(fs, d, k);
    Linked(fs, d) && e.inum != 0 ==>
      && e.inum in fs
      && (k >= 2 ==> e.name != "." && e.name != "..")
      && (k >= 2 && fs[e.inum].kind == Dir ==> e.inum != ROOT && e.inum in t.home && t.home[e.inum] == (d, k))
  }

  // A linked directory starts with "." and ".."; ".." names the directory that names it.
  ghost predicate DirOk(fs: Fs, t: Shape, d: int)
  {
    Linked(fs, d) ==>
      && |fs[d].entries| >= 2 && At(fs, d, 0) == Entry(".", d) && At(fs, d, 1).name == ".."
      && var p := At(fs, d, 1).inum;
         && Linked(fs, p)
         && (d == ROOT ==> p == ROOT)
         && (d != ROOT ==>
               && d in t.home && t.home[d].0 == p && t.home[d].1 >= 2 && At(fs, p, t.home[d].1).inum == d
               && d in t.depth && p in t.depth && t.depth[p] < t.depth[d])
  }

  predicate Removed(fs: Fs, d: int)
  {
    d in fs && fs[d].kind == Dir && fs[d].nlink <= 0
  }

  // A directory without links, somebody's working directory perhaps, has nothing but its dots.
  ghost predicate BareAt(fs: Fs, d: int, k: int)
  {
    var e := At(fs, d, k);
    Removed(fs, d) && e.inum != 0 ==> (k == 0 && e == Entry(".", d)) || (k == 1 && e.name == "..")
  }

  ghost predicate UniqueAt(fs: Fs, d: int, j: int, k: int)
  {
    Linked(fs, d) && j < k && At(fs, d, j).inum != 0 && At(fs, d, k).inum != 0 ==>
          At(fs, d, j).name != At(fs, d, k).name
  }

  ghost predicate Inv(fs: Fs, t: Shape)
  {
    && Linked(fs, ROOT) && ROOT in t.depth && 0 !in fs
    && (forall i :: CountOk(fs, i))
    && (forall d, k :: EntryOk(fs, t, d, k))
    && (forall d :: DirOk(fs, t, d))
    && (forall d, j, k :: UniqueAt(fs, d, j, k))
    && (forall d, k :: BareAt(fs, d, k))
  }

  // ---------- changing one entry ----------

  // Write an entry over slot k, or after the last slot.
  function Put(fs: Fs, d: int, k: int, e: Entry): Fs
    requires d in fs && 0 <= k <= |fs[d].entries|
  {
    var es := fs[d].entries;
    fs[d := fs[d].(entries := if k < |es| then es[k := e] else es + [e])]
  }

  function AddLinks(fs: Fs, i: int, n: int): Fs
    requires i in fs
  {
    fs[i := fs[i].(nlink := fs[i].nlink + n)]
  }

  // No entry of d has this name.
  ghost predicate Absent(fs: Fs, d: int, name: string)
  {
    forall k :: At(fs, d, k).inum == 0 || At(fs, d, k).name != name
  }

  // ---------- link ----------

  // A new name for i in directory d, and a link more.
  function LinkStep(fs: Fs, d: int, k: int, name: string, i: int): Fs
    requires d in fs && 0 <= k <= |fs[d].entries| && i in fs
  {
    AddLinks(Put(fs, d, k, Entry(name, i)), i, 1)
  }

  // What it does to an inode and to an entry.
  lemma LinkAt(fs: Fs, d: int, k: int, name: string, i: int, e: int, j: int)
    requires Linked(fs, d) && 0 <= k <= |fs[d].entries| && i in fs && fs[i].kind != Dir
    ensures var fs' := LinkStep(fs, d, k, name, i);
            && (e in fs' <==> e in fs)
            && (e in fs ==> fs'[e].kind == fs[e].kind && fs'[e].nlink == fs[e].nlink + if e == i then 1 else 0)
            && (Linked(fs', e) <==> Linked(fs, e))
            && (Linked(fs, e) ==> |fs'[e].entries| >= |fs[e].entries|)
            && At(fs', e, j) == if (e, j) == (d, k) then Entry(name, i) else At(fs, e, j)
  {
  }

  lemma LinkRefs(fs: Fs, d: int, k: int, name: string, i: int, x: int)
    requires Linked(fs, d) && 0 <= k <= |fs[d].entries| && At(fs, d, k).inum == 0 && i in fs && i != 0
    requires name != "." && fs[i].kind != Dir
    ensures Refs(LinkStep(fs, d, k, name, i), x) == Refs(fs, x) + if x == i then {(d, k)} else {}
    ensures !Ref(fs, d, k, x)
  {
    hide LinkStep;
    var fs' := LinkStep(fs, d, k, name, i);
    forall e, j ensures Ref(fs', e, j, x) <==> Ref(fs, e, j, x) || (x == i && (e, j) == (d, k)) {
      LinkAt(fs, d, k, name, i, e, j);
    }
  }

  lemma LinkKeeps(fs: Fs, t: Shape, d: int, k: int, name: string, i: int)
    requires Inv(fs, t) && Linked(fs, d) && 0 <= k <= |fs[d].entries| && At(fs, d, k).inum == 0
    requires Absent(fs, d, name) && i in fs && fs[i].kind != Dir
    ensures Inv(LinkStep(fs, d, k, name, i), t)
  {
    hide LinkStep, Linked, Refs;
    LinkedHas(fs, d);
    var fs' := LinkStep(fs, d, k, name, i);
    NamesDots(fs, t, d, name);
    LinkAt(fs, d, k, name, i, ROOT, 0);
    LinkAt(fs, d, k, name, i, 0, 0);
    forall x ensures CountOk(fs', x) {
      LinkRefs(fs, d, k, name, i, x);
      LinkAt(fs, d, k, name, i, x, 0);
      NewRef(fs, d, k, i);
      assert CountOk(fs, x);
    }
    forall e, j ensures EntryOk(fs', t, e, j) {
      assert EntryOk(fs, t, e, j);
      LinkAt(fs, d, k, name, i, e, j);
      LinkAt(fs, d, k, name, i, At(fs, e, j).inum, 0);
      LinkAt(fs, d, k, name, i, i, 0);
    }
    forall e ensures DirOk(fs', t, e) {
      assert DirOk(fs, t, e);
      LinkAt(fs, d, k, name, i, e, 0);
      LinkAt(fs, d, k, name, i, e, 1);
      LinkedHas(fs, e);
      LinkedHas(fs', e);
      if Linked(fs, e) {
        var p := At(fs, e, 1).inum;
        LinkAt(fs, d, k, name, i, p, 0);
        if e != ROOT {
          LinkAt(fs, d, k, name, i, p, t.home[e].1);
        }
      }
    }
    forall e, a, b ensures UniqueAt(fs', e, a, b) {
      assert UniqueAt(fs, e, a, b);
      LinkAt(fs, d, k, name, i, e, a);
      LinkAt(fs, d, k, name, i, e, b);
      assert At(fs, d, a).inum == 0 || At(fs, d, a).name != name;
      assert At(fs, d, b).inum == 0 || At(fs, d, b).name != name;
    }
    forall e, j ensures BareAt(fs', e, j) {
      assert BareAt(fs, e, j);
      LinkAt(fs, d, k, name, i, e, j);
    }
  }

  lemma LinkedHas(fs: Fs, d: int)
    ensures Linked(fs, d) ==> d in fs && fs[d].kind == Dir && fs[d].nlink > 0
  {
  }

  lemma RemovedOrLinked(fs: Fs, d: int)
    ensures d in fs && fs[d].kind == Dir ==> (Removed(fs, d) <==> !Linked(fs, d))
    ensures Removed(fs, d) ==> !Linked(fs, d)
  {
  }

  lemma NewRef(fs: Fs, d: int, k: int, i: int)
    requires At(fs, d, k).inum == 0
    ensures |Refs(fs, i) + {(d, k)}| == |Refs(fs, i)| + 1
  {
    assert !Ref(fs, d, k, i);
  }

  // A name not in a directory is not "." or "..", and a free slot is not one of theirs.
  lemma NamesDots(fs: Fs, t: Shape, d: int, name: string)
    requires Inv(fs, t) && Linked(fs, d) && Absent(fs, d, name)
    ensures name != "." && name != ".."
    ensures forall k :: At(fs, d, k).inum == 0 ==> k < 0 || k >= 2
  {
    assert DirOk(fs, t, d);
  }

  // ---------- unlink ----------

  const EMPTY: Entry := Entry("", 0)

  // Slot k of d emptied; the inode it named has a link less, and so has d for its ".." if that
  // inode is a directory.
  function UnlinkStep(fs: Fs, d: int, k: int): Fs
    requires d in fs && 0 <= k < |fs[d].entries| && At(fs, d, k).inum in fs && At(fs, d, k).inum != d
  {
    var i := At(fs, d, k).inum;
    var fs' := AddLinks(Put(fs, d, k, EMPTY), i, -1);
    if fs[i].kind == Dir then AddLinks(fs', d, -1) else fs'
  }

  ghost predicate EmptyDir(fs: Fs, i: int)
  {
    forall k :: k >= 2 ==> At(fs, i, k).inum == 0
  }

  // An entry that can be unlinked: in a linked directory, not one of the first two, not naming a
  // directory with entries.
  ghost predicate Unlinkable(fs: Fs, d: int, k: int)
  {
    && Linked(fs, d) && 2 <= k < |fs[d].entries| && At(fs, d, k).inum != 0
    && (At(fs, d, k).inum in fs && fs[At(fs, d, k).inum].kind == Dir ==> EmptyDir(fs, At(fs, d, k).inum))
  }

  // What unlink checks.
  ghost predicate Erasable(fs: Fs, d: int, k: int)
  {
    && d in fs && fs[d].kind == Dir && 2 <= k < |fs[d].entries| && At(fs, d, k).inum != 0
    && (At(fs, d, k).inum in fs && fs[At(fs, d, k).inum].kind == Dir ==> EmptyDir(fs, At(fs, d, k).inum))
  }

  // A removed directory has nothing to unlink.
  lemma ErasableIff(fs: Fs, t: Shape, d: int, k: int)
    requires Inv(fs, t)
    ensures Erasable(fs, d, k) <==> Unlinkable(fs, d, k)
    ensures Erasable(fs, d, k) ==> At(fs, d, k).inum in fs && fs[At(fs, d, k).inum].nlink >= 1
  {
    assert BareAt(fs, d, k);
    if Unlinkable(fs, d, k) {
      NamedHasLink(fs, t, d, k);
    }
  }

  // The panic "unlink: nlink < 1" cannot happen, and no directory names itself there.
  lemma NamedHasLink(fs: Fs, t: Shape, d: int, k: int)
    requires Inv(fs, t) && Linked(fs, d) && k >= 2 && At(fs, d, k).inum != 0
    ensures At(fs, d, k).inum in fs && fs[At(fs, d, k).inum].nlink >= 1 && At(fs, d, k).inum != d
  {
    assert EntryOk(fs, t, d, k) && DirOk(fs, t, d);
    var i := At(fs, d, k).inum;
    assert (d, k) in Refs(fs, i);
    assert CountOk(fs, i);
  }

  // An empty directory has one link: the name it is about to lose.
  lemma EmptyDirRefs(fs: Fs, t: Shape, d: int, k: int)
    requires Inv(fs, t) && Unlinkable(fs, d, k) && At(fs, d, k).inum in fs && fs[At(fs, d, k).inum].kind == Dir
    ensures Refs(fs, At(fs, d, k).inum) == {(d, k)} && fs[At(fs, d, k).inum].nlink == 1
    ensures At(fs, At(fs, d, k).inum, 1) == Entry("..", d)
  {
    var i := At(fs, d, k).inum;
    NamedHasLink(fs, t, d, k);
    assert EntryOk(fs, t, d, k) && DirOk(fs, t, i) && CountOk(fs, i);
    forall e, j ensures Ref(fs, e, j, i) <==> (e, j) == (d, k) {
      assert EntryOk(fs, t, e, j) && DirOk(fs, t, e);
    }
  }

  // Its parent has one more than the ".." it is about to lose.
  lemma ParentStays(fs: Fs, t: Shape, d: int, i: int)
    requires Inv(fs, t) && Linked(fs, d) && Linked(fs, i) && At(fs, i, 1) == Entry("..", d) && i != d
    ensures fs[d].nlink >= 2 && (i, 1) in Refs(fs, d)
  {
    assert DirOk(fs, t, d) && CountOk(fs, d);
    var other := if d == ROOT then (ROOT, 1) else t.home[d];
    assert EntryOk(fs, t, other.0, other.1);
    assert Ref(fs, other.0, other.1, d) && Ref(fs, i, 1, d);
    assert {other, (i, 1)} <= Refs(fs, d);
    TwoOf(Refs(fs, d), other, (i, 1));
  }

  lemma TwoOf<T>(s: set<T>, a: T, b: T)
    requires a in s && b in s && a != b
    ensures |s| >= 2
  {
    assert |s| == |s - {a}| + 1 && b in s - {a};
  }

  lemma UnlinkAt(fs: Fs, t: Shape, d: int, k: int, e: int, j: int)
    requires Inv(fs, t) && Unlinkable(fs, d, k)
    ensures At(fs, d, k).inum in fs && At(fs, d, k).inum != d
    ensures var i := At(fs, d, k).inum; var fs' := UnlinkStep(fs, d, k); var dir := fs[i].kind == Dir;
            && (e in fs' <==> e in fs)
            && (e in fs ==> fs'[e].kind == fs[e].kind && |fs'[e].entries| == |fs[e].entries|
                            && fs'[e].nlink == fs[e].nlink - if e == i || (e == d && dir) then 1 else 0)
            && (Linked(fs', e) <==> Linked(fs, e) && !(dir && e == i))
            && At(fs', e, j) == if (e, j) == (d, k) then EMPTY else At(fs, e, j)
  {
    NamedHasLink(fs, t, d, k);
    var i := At(fs, d, k).inum;
    if fs[i].kind == Dir {
      EmptyDirRefs(fs, t, d, k);
      ParentStays(fs, t, d, i);
    }
  }

  lemma UnlinkRefs(fs: Fs, t: Shape, d: int, k: int, x: int)
    requires Inv(fs, t) && Unlinkable(fs, d, k)
    ensures At(fs, d, k).inum in fs && At(fs, d, k).inum != d
    ensures var i := At(fs, d, k).inum;
            Refs(UnlinkStep(fs, d, k), x) ==
            Refs(fs, x) - if x == i then {(d, k)} else if x == d && fs[i].kind == Dir then {(i, 1)} else {}
  {
    hide UnlinkStep, Inv;
    UnlinkAt(fs, t, d, k, d, k);
    var i, fs' := At(fs, d, k).inum, UnlinkStep(fs, d, k);
    if fs[i].kind == Dir {
      EmptyDirRefs(fs, t, d, k);
      Dots(fs, t, i);
    }
    Dots(fs, t, d);
    forall e, j ensures Ref(fs', e, j, x) <==>
        Ref(fs, e, j, x) && !(x == i && (e, j) == (d, k)) && !(x == d && fs[i].kind == Dir && (e, j) == (i, 1)) {
      UnlinkAt(fs, t, d, k, e, j);
    }
  }

  lemma Dots(fs: Fs, t: Shape, d: int)
    requires Inv(fs, t)
    ensures Linked(fs, d) ==>
              At(fs, d, 0) == Entry(".", d) && At(fs, d, 1).name == ".." && Linked(fs, At(fs, d, 1).inum)
  {
    assert DirOk(fs, t, d);
  }

  lemma UnlinkCounts(fs: Fs, t: Shape, d: int, k: int, x: int)
    requires Inv(fs, t) && Unlinkable(fs, d, k)
    ensures At(fs, d, k).inum in fs && At(fs, d, k).inum != d && CountOk(UnlinkStep(fs, d, k), x)
  {
    hide UnlinkStep, Refs;
    UnlinkAt(fs, t, d, k, x, 0);
    UnlinkRefs(fs, t, d, k, x);
    var i := At(fs, d, k).inum;
    assert CountOk(fs, x) && EntryOk(fs, t, d, k);
    if x == i {
      assert Ref(fs, d, k, i);
      OneLess(Refs(fs, i), (d, k));
    } else if x == d && fs[i].kind == Dir {
      EmptyDirRefs(fs, t, d, k);
      ParentStays(fs, t, d, i);
      OneLess(Refs(fs, d), (i, 1));
    }
  }

  lemma OneLess<T>(s: set<T>, a: T)
    requires a in s
    ensures |s - {a}| == |s| - 1
  {
  }

  lemma UnlinkKeeps(fs: Fs, t: Shape, d: int, k: int)
    requires Inv(fs, t) && Unlinkable(fs, d, k)
    ensures At(fs, d, k).inum in fs && At(fs, d, k).inum != d && Inv(UnlinkStep(fs, d, k), t)
  {
    hide UnlinkStep, Linked, Refs;
    UnlinkAt(fs, t, d, k, ROOT, 0);
    UnlinkAt(fs, t, d, k, 0, 0);
    var i, fs' := At(fs, d, k).inum, UnlinkStep(fs, d, k);
    assert EntryOk(fs, t, d, k);
    LinkedHas(fs, d);
    forall x ensures CountOk(fs', x) {
      UnlinkCounts(fs, t, d, k, x);
    }
    forall e, j ensures EntryOk(fs', t, e, j) {
      assert EntryOk(fs, t, e, j);
      UnlinkAt(fs, t, d, k, e, j);
      UnlinkAt(fs, t, d, k, At(fs, e, j).inum, 0);
    }
    forall e ensures DirOk(fs', t, e) {
      UnlinkDirs(fs, t, d, k, e);
    }
    forall e, a, b ensures UniqueAt(fs', e, a, b) {
      assert UniqueAt(fs, e, a, b);
      UnlinkAt(fs, t, d, k, e, a);
      UnlinkAt(fs, t, d, k, e, b);
    }
    forall e, j ensures BareAt(fs', e, j) {
      assert BareAt(fs, e, j) && DirOk(fs, t, e);
      UnlinkAt(fs, t, d, k, e, j);
      RemovedOrLinked(fs, e);
      RemovedOrLinked(fs', e);
    }
  }

  // The directories that stay keep their parents: the one that goes has no children.
  lemma UnlinkDirs(fs: Fs, t: Shape, d: int, k: int, e: int)
    requires Inv(fs, t) && Unlinkable(fs, d, k)
    ensures At(fs, d, k).inum in fs && At(fs, d, k).inum != d && DirOk(UnlinkStep(fs, d, k), t, e)
  {
    hide UnlinkStep, Refs;
    assert DirOk(fs, t, e) && EntryOk(fs, t, d, k);
    UnlinkAt(fs, t, d, k, e, 0);
    UnlinkAt(fs, t, d, k, e, 1);
    var i := At(fs, d, k).inum;
    if Linked(UnlinkStep(fs, d, k), e) {
      var p := At(fs, e, 1).inum;
      if e != ROOT {
        UnlinkAt(fs, t, d, k, p, t.home[e].1);
      } else {
        UnlinkAt(fs, t, d, k, p, 0);
      }
    }
  }

  // ---------- create ----------

  // A new inode i with one link, named in directory d.
  function CreateStep(fs: Fs, d: int, k: int, name: string, i: int, kind: Kind): Fs
    requires d in fs && 0 <= k <= |fs[d].entries| && i != d
  {
    var entries := if kind == Dir then [Entry(".", i), Entry("..", d)] else [];
    var fs' := Put(fs[i := Inode(kind, 1, entries)], d, k, Entry(name, i));
    if kind == Dir then AddLinks(fs', d, 1) else fs'
  }

  function CreateShape(t: Shape, d: int, k: int, i: int, kind: Kind): Shape
  {
    if kind == Dir && d in t.depth then Shape(t.home[i := (d, k)], t.depth[i := t.depth[d] + 1]) else t
  }

  ghost predicate Creatable(fs: Fs, d: int, k: int, name: string, i: int)
  {
    Linked(fs, d) && 0 <= k <= |fs[d].entries| && At(fs, d, k).inum == 0 && Absent(fs, d, name) && i !in fs && i != 0
  }

  lemma CreateAt(fs: Fs, d: int, k: int, name: string, i: int, kind: Kind, e: int, j: int)
    requires Creatable(fs, d, k, name, i)
    ensures i != d
    ensures var fs' := CreateStep(fs, d, k, name, i, kind);
            && (e in fs' <==> e in fs || e == i)
            && (e in fs ==> fs'[e].kind == fs[e].kind && |fs'[e].entries| >= |fs[e].entries|
                            && fs'[e].nlink == fs[e].nlink + if e == d && kind == Dir then 1 else 0)
            && fs'[i].kind == kind && fs'[i].nlink == 1 && (kind == Dir ==> |fs'[i].entries| == 2)
            && (Linked(fs', e) <==> Linked(fs, e) || (e == i && kind == Dir))
            && At(fs', e, j) == if (e, j) == (d, k) then Entry(name, i)
                                else if e == i && kind == Dir && j == 0 then Entry(".", i)
                                else if e == i && kind == Dir && j == 1 then Entry("..", d)
                                else if e == i then EMPTY
                                else At(fs, e, j)
  {
  }

  lemma CreateRefs(fs: Fs, t: Shape, d: int, k: int, name: string, i: int, kind: Kind, x: int)
    requires Inv(fs, t) && Creatable(fs, d, k, name, i)
    ensures i != d && Refs(fs, i) == {} && !Ref(fs, i, 1, d)
    ensures Refs(CreateStep(fs, d, k, name, i, kind), x) ==
            Refs(fs, x) + if x == i then {(d, k)} else if x == d && kind == Dir then {(i, 1)} else {}
  {
    hide CreateStep, Inv;
    NamesDots(fs, t, d, name);
    CreateAt(fs, d, k, name, i, kind, d, k);
    var fs' := CreateStep(fs, d, k, name, i, kind);
    forall e, j ensures !Ref(fs, e, j, i) {
      NamesAllocated(fs, t, e, j);
    }
    RootIn(fs, t);
    forall e, j ensures Ref(fs', e, j, x) <==>
        Ref(fs, e, j, x) || (x == i && (e, j) == (d, k)) || (x == d && kind == Dir && (e, j) == (i, 1)) {
      CreateAt(fs, d, k, name, i, kind, e, j);
    }
  }

  lemma RootIn(fs: Fs, t: Shape)
    requires Inv(fs, t)
    ensures Linked(fs, ROOT) && ROOT in t.depth && 0 !in fs
  {
  }

  lemma NamesAllocated(fs: Fs, t: Shape, d: int, k: int)
    requires Inv(fs, t)
    ensures Linked(fs, d) && At(fs, d, k).inum != 0 ==> At(fs, d, k).inum in fs
  {
    assert EntryOk(fs, t, d, k);
  }

  lemma CreateCounts(fs: Fs, t: Shape, d: int, k: int, name: string, i: int, kind: Kind, x: int)
    requires Inv(fs, t) && Creatable(fs, d, k, name, i)
    ensures i != d && CountOk(CreateStep(fs, d, k, name, i, kind), x)
  {
    hide CreateStep, Refs;
    CreateAt(fs, d, k, name, i, kind, x, 0);
    CreateRefs(fs, t, d, k, name, i, kind, x);
    assert CountOk(fs, x);
    if x == d && kind == Dir {
      assert !Ref(fs, i, 1, d);
      NotIn(fs, i, 1, d);
      OneMore(Refs(fs, d), (i, 1));
    }
  }

  lemma NotIn(fs: Fs, e: int, j: int, x: int)
    requires !Ref(fs, e, j, x)
    ensures (e, j) !in Refs(fs, x)
  {
  }

  lemma OneMore<T>(s: set<T>, a: T)
    requires a !in s
    ensures |s + {a}| == |s| + 1
  {
  }

  lemma CreateKeeps(fs: Fs, t: Shape, d: int, k: int, name: string, i: int, kind: Kind)
    requires Inv(fs, t) && Creatable(fs, d, k, name, i)
    ensures i != d && Inv(CreateStep(fs, d, k, name, i, kind), CreateShape(t, d, k, i, kind))
  {
    hide CreateStep, Linked, Refs;
    CreateAt(fs, d, k, name, i, kind, ROOT, 0);
    CreateAt(fs, d, k, name, i, kind, 0, 0);
    NamesDots(fs, t, d, name);
    RootIn(fs, t);
    LinkedHas(fs, ROOT);
    LinkedHas(fs, d);
    assert DirOk(fs, t, d);
    var fs', t' := CreateStep(fs, d, k, name, i, kind), CreateShape(t, d, k, i, kind);
    forall x ensures CountOk(fs', x) {
      CreateCounts(fs, t, d, k, name, i, kind, x);
    }
    forall e, j ensures EntryOk(fs', t', e, j) {
      CreateEntries(fs, t, d, k, name, i, kind, e, j);
    }
    forall e ensures DirOk(fs', t', e) {
      CreateDirs(fs, t, d, k, name, i, kind, e);
    }
    forall e, a, b ensures UniqueAt(fs', e, a, b) {
      assert UniqueAt(fs, e, a, b);
      CreateAt(fs, d, k, name, i, kind, e, a);
      CreateAt(fs, d, k, name, i, kind, e, b);
      LinkedHas(fs, i);
      assert At(fs, d, a).inum == 0 || At(fs, d, a).name != name;
      assert At(fs, d, b).inum == 0 || At(fs, d, b).name != name;
    }
    forall e, j ensures BareAt(fs', e, j) {
      assert BareAt(fs, e, j);
      CreateAt(fs, d, k, name, i, kind, e, j);
      RemovedOrLinked(fs, e);
      RemovedOrLinked(fs', e);
    }
  }

  lemma CreateEntries(fs: Fs, t: Shape, d: int, k: int, name: string, i: int, kind: Kind, e: int, j: int)
    requires Inv(fs, t) && Creatable(fs, d, k, name, i)
    ensures i != d && EntryOk(CreateStep(fs, d, k, name, i, kind), CreateShape(t, d, k, i, kind), e, j)
  {
    hide CreateStep;
    NamesDots(fs, t, d, name);
    assert EntryOk(fs, t, e, j) && DirOk(fs, t, d);
    CreateAt(fs, d, k, name, i, kind, e, j);
    CreateAt(fs, d, k, name, i, kind, At(fs, e, j).inum, 0);
    CreateAt(fs, d, k, name, i, kind, i, 0);
    CreateAt(fs, d, k, name, i, kind, d, 0);
  }

  lemma CreateDirs(fs: Fs, t: Shape, d: int, k: int, name: string, i: int, kind: Kind, e: int)
    requires Inv(fs, t) && Creatable(fs, d, k, name, i)
    ensures i != d && DirOk(CreateStep(fs, d, k, name, i, kind), CreateShape(t, d, k, i, kind), e)
  {
    hide CreateStep;
    NamesDots(fs, t, d, name);
    assert DirOk(fs, t, e) && DirOk(fs, t, d);
    CreateAt(fs, d, k, name, i, kind, e, 0);
    CreateAt(fs, d, k, name, i, kind, e, 1);
    CreateAt(fs, d, k, name, i, kind, d, k);
    if Linked(fs, e) {
      var p := At(fs, e, 1).inum;
      CreateAt(fs, d, k, name, i, kind, p, if e == ROOT then 0 else t.home[e].1);
    }
  }

  // ---------- freeing an inode ----------

  // An inode without links can go: nothing names it.
  lemma FreeKeeps(fs: Fs, t: Shape, i: int)
    requires Inv(fs, t) && i in fs && fs[i].nlink == 0
    ensures Inv(fs - {i}, t)
  {
    var fs' := fs - {i};
    forall e, j, x ensures Ref(fs', e, j, x) <==> Ref(fs, e, j, x) {
    }
    assert CountOk(fs, i);
    forall x ensures CountOk(fs', x) {
      assert CountOk(fs, x) && Refs(fs', x) == Refs(fs, x);
    }
    forall e, j ensures EntryOk(fs', t, e, j) {
      assert EntryOk(fs, t, e, j) && DirOk(fs, t, e);
      if Linked(fs, e) && At(fs, e, j).inum == i {
        assert (e, j) !in Refs(fs, i);
        UniqueDot(fs, t, e, j);
      }
    }
    forall e ensures DirOk(fs', t, e) {
      assert DirOk(fs, t, e);
    }
    forall e, a, b ensures UniqueAt(fs', e, a, b) {
      assert UniqueAt(fs, e, a, b);
    }
    forall e, j ensures BareAt(fs', e, j) {
      assert BareAt(fs, e, j);
    }
  }

  // A new inode without links or entries is named nowhere.
  lemma AllocKeeps(fs: Fs, t: Shape, i: int, kind: Kind)
    requires Inv(fs, t) && i !in fs && i != 0
    ensures Inv(fs[i := Inode(kind, 0, [])], t)
  {
    var fs' := fs[i := Inode(kind, 0, [])];
    forall e, j, x ensures Ref(fs', e, j, x) <==> Ref(fs, e, j, x) {
    }
    forall e, j ensures !Ref(fs, e, j, i) {
      assert EntryOk(fs, t, e, j);
    }
    assert Refs(fs', i) == {};
    forall x ensures CountOk(fs', x) {
      assert CountOk(fs, x) && Refs(fs', x) == Refs(fs, x);
    }
    forall e, j ensures EntryOk(fs', t, e, j) {
      assert EntryOk(fs, t, e, j);
    }
    forall e ensures DirOk(fs', t, e) {
      assert DirOk(fs, t, e);
    }
    forall e, a, b ensures UniqueAt(fs', e, a, b) {
      assert UniqueAt(fs, e, a, b);
    }
    forall e, j ensures BareAt(fs', e, j) {
      assert BareAt(fs, e, j);
    }
  }

  lemma UniqueDot(fs: Fs, t: Shape, d: int, k: int)
    requires Inv(fs, t) && Linked(fs, d) && At(fs, d, k).inum != 0 && At(fs, d, k).name == "."
    ensures k == 0 && At(fs, d, k).inum == d
  {
    assert DirOk(fs, t, d) && UniqueAt(fs, d, 0, k) && EntryOk(fs, t, d, k);
  }

  // ---------- the tree ----------

  // n steps along "..".
  function Climb(fs: Fs, d: int, n: nat): int
    decreases n
  {
    if n == 0 then d else Climb(fs, At(fs, d, 1).inum, n - 1)
  }

  // From every linked directory ".." leads to the root: there are no cycles.
  lemma {:induction false} ClimbsToRoot(fs: Fs, t: Shape, d: int) returns (n: nat)
    requires Inv(fs, t) && Linked(fs, d)
    ensures Climb(fs, d, n) == ROOT
    decreases if d in t.depth then t.depth[d] else 0
  {
    assert DirOk(fs, t, d);
    n := 0;
    if d != ROOT {
      var m := ClimbsToRoot(fs, t, At(fs, d, 1).inum);
      n := m + 1;
    }
  }

  // mkfs's root directory, before anything is put in it.
  lemma RootAlone()
    ensures Inv(map[ROOT := Inode(Dir, 1, [Entry(".", ROOT), Entry("..", ROOT)])], Shape(map[], map[ROOT := 0]))
  {
    var fs, t := map[ROOT := Inode(Dir, 1, [Entry(".", ROOT), Entry("..", ROOT)])], Shape(map[], map[ROOT := 0]);
    forall i ensures CountOk(fs, i) {
      assert Refs(fs, ROOT) == {(ROOT, 1)} by {
        forall e, j ensures Ref(fs, e, j, ROOT) <==> (e, j) == (ROOT, 1) {
        }
      }
    }
    forall d, k ensures EntryOk(fs, t, d, k) {
    }
    forall d ensures DirOk(fs, t, d) {
    }
    forall d, j, k ensures UniqueAt(fs, d, j, k) {
    }
    forall d, k ensures BareAt(fs, d, k) {
    }
  }

  // ---------- removed directories ----------

  // Giving a name in a removed directory breaks the count of links: exactly a linked parent keeps it.
  lemma LinkIff(fs: Fs, t: Shape, d: int, k: int, name: string, i: int)
    requires Inv(fs, t) && d in fs && fs[d].kind == Dir && 0 <= k <= |fs[d].entries| && At(fs, d, k).inum == 0
    requires Absent(fs, d, name) && i in fs && fs[i].kind != Dir
    ensures (exists t' :: Inv(LinkStep(fs, d, k, name, i), t')) <==> Linked(fs, d)
  {
    if Linked(fs, d) {
      LinkKeeps(fs, t, d, k, name, i);
    } else {
      var fs' := LinkStep(fs, d, k, name, i);
      forall e, j ensures Ref(fs', e, j, i) <==> Ref(fs, e, j, i) {
      }
      assert Refs(fs', i) == Refs(fs, i);
      assert CountOk(fs, i) && !CountOk(fs', i);
    }
  }

  lemma CreateIff(fs: Fs, t: Shape, d: int, k: int, name: string, i: int, kind: Kind)
    requires Inv(fs, t) && d in fs && fs[d].kind == Dir && 0 <= k <= |fs[d].entries| && At(fs, d, k).inum == 0
    requires Absent(fs, d, name) && i !in fs && i != 0
    ensures i != d && ((exists t' :: Inv(CreateStep(fs, d, k, name, i, kind), t')) <==> Linked(fs, d))
  {
    if Linked(fs, d) {
      CreateKeeps(fs, t, d, k, name, i, kind);
    } else if kind == Dir {
      var fs' := CreateStep(fs, d, k, name, i, kind);
      forall t' ensures !Inv(fs', t') {
        MkdirInRemoved(fs, t, d, k, name, i, t');
      }
    } else {
      var fs' := CreateStep(fs, d, k, name, i, kind);
      forall e, j ensures !Ref(fs', e, j, i) {
        assert EntryOk(fs, t, e, j);
      }
      assert Refs(fs', i) == {};
      assert !CountOk(fs', i);
    }
  }

  // mkdir in a removed directory gives it a link again, but no directory names it.
  lemma MkdirInRemoved(fs: Fs, t: Shape, d: int, k: int, name: string, i: int, t': Shape)
    requires Inv(fs, t) && Removed(fs, d) && 0 <= k <= |fs[d].entries| && At(fs, d, k).inum == 0 && i !in fs && i != 0
    ensures i != d && !DirOk(CreateStep(fs, d, k, name, i, Dir), t', d)
  {
    var fs' := CreateStep(fs, d, k, name, i, Dir);
    var p, h := At(fs', d, 1).inum, if d in t'.home then t'.home[d].1 else 2;
    assert CountOk(fs, d) && BareAt(fs, d, h) && EntryOk(fs, t, p, h);
    assert Refs(fs, d) == {} && !Ref(fs, p, h, d);
  }

  // In a linked directory every name is that of an allocated inode with a link.
  lemma NamesLinked(fs: Fs, t: Shape, d: int, k: int)
    requires Inv(fs, t) && Linked(fs, d) && At(fs, d, k).inum != 0
    ensures At(fs, d, k).inum in fs && fs[At(fs, d, k).inum].nlink > 0
  {
    var i := At(fs, d, k).inum;
    assert EntryOk(fs, t, d, k) && CountOk(fs, i);
    if At(fs, d, k).name == "." {
      UniqueDot(fs, t, d, k);
    } else {
      assert (d, k) in Refs(fs, i);
    }
  }

  // An entry names a free inode exactly if it is ".." of a removed directory whose parent is gone.
  lemma NamesFree(fs: Fs, t: Shape, d: int, k: int)
    requires Inv(fs, t) && d in fs && fs[d].kind == Dir && At(fs, d, k).inum != 0
    ensures At(fs, d, k).inum !in fs <==> Removed(fs, d) && At(fs, d, k).name == ".." && At(fs, d, 1).inum !in fs
  {
    if Linked(fs, d) {
      NamesLinked(fs, t, d, k);
    } else {
      assert BareAt(fs, d, k);
    }
  }

  // It can: make p, make d in it, remove d while somebody is in it, remove p, and free p.
  lemma ParentGone(fs: Fs, t: Shape, k: int, p: int, d: int)
    requires Inv(fs, t) && 0 <= k <= |fs[ROOT].entries| && At(fs, ROOT, k).inum == 0 && Absent(fs, ROOT, "p")
    requires p !in fs && d !in fs && p != d && p != 0 && d != 0
    ensures p != ROOT
    ensures var fs1 := CreateStep(fs, ROOT, k, "p", p, Dir);
            var fs2 := CreateStep(fs1, p, 2, "d", d, Dir);
            && At(fs2, p, 2).inum == d
            && var fs3 := UnlinkStep(fs2, p, 2);
               && ROOT in fs3 && 0 <= k < |fs3[ROOT].entries| && At(fs3, ROOT, k).inum == p
               && var fs4 := UnlinkStep(fs3, ROOT, k);
                  && p in fs4 && fs4[p].nlink == 0
                  && var fs5 := fs4 - {p};
                     && (exists t' :: Inv(fs5, t')) && Removed(fs5, d) && At(fs5, d, 1) == Entry("..", p) && p !in fs5
  {
    var fs1, t1 := CreateStep(fs, ROOT, k, "p", p, Dir), CreateShape(t, ROOT, k, p, Dir);
    CreateKeeps(fs, t, ROOT, k, "p", p, Dir);
    NamesDots(fs, t, ROOT, "p");
    assert Absent(fs1, p, "d");
    var fs2, t2 := CreateStep(fs1, p, 2, "d", d, Dir), CreateShape(t1, p, 2, d, Dir);
    CreateKeeps(fs1, t1, p, 2, "d", d, Dir);
    UnlinkKeeps(fs2, t2, p, 2);
    var fs3 := UnlinkStep(fs2, p, 2);
    assert EmptyDir(fs3, p);
    UnlinkKeeps(fs3, t2, ROOT, k);
    var fs4 := UnlinkStep(fs3, ROOT, k);
    FreeKeeps(fs4, t2, p);
    assert Inv(fs4 - {p}, t2);
  }
}
