/**
  create, link, unlink and the directory scans under them (sysfile.c, fs.c), against LinkSpec.
 */
module Links {
  import opened LinkSpec

  // The first slot whose name is the given one, or -1.
  ghost predicate Found(fs: Fs, d: int, name: string, k: int)
  {
    if k == -1 then Absent(fs, d, name)
    else
      && d in fs && 0 <= k < |fs[d].entries| && At(fs, d, k).inum != 0 && At(fs, d, k).name == name
      && forall j :: 0 <= j < k ==> At(fs, d, j).inum == 0 || At(fs, d, j).name != name
  }

  class Directories {
    var fs: Fs
    ghost var shape: Shape

    ghost predicate Valid()
      reads this
    {
      Inv(fs, shape)
    }

    // A file system with an empty root.
    constructor ()
      ensures Valid() && Linked(fs, ROOT)
    {
      fs := map[ROOT := Inode(Dir, 1, [Entry(".", ROOT), Entry("..", ROOT)])];
      shape := Shape(map[], map[ROOT := 0]);
      new;
      RootAlone();
    }

    method Dirlookup(dp: int, name: string) returns (off: int)
      requires dp in fs
      ensures Found(fs, dp, name, off)
    {
      off := 0;
      while off < |fs[dp].entries|
        invariant 0 <= off <= |fs[dp].entries|
        invariant forall j :: 0 <= j < off ==> At(fs, dp, j).inum == 0 || At(fs, dp, j).name != name
      {
        var de := fs[dp].entries[off];
        if de.inum != 0 && de.name == name {
          return;
        }
        off := off + 1;
      }
      return -1;
    }

    // Put (name, inum) into the first empty slot, or after the last, unless the name is there.
    method Dirlink(dp: int, name: string, inum: int) returns (ok: bool, ghost slot: int)
      requires dp in fs
      modifies this`fs
      ensures ok <==> Absent(old(fs), dp, name)
      ensures !ok ==> fs == old(fs)
      ensures ok ==>
                && 0 <= slot <= |old(fs)[dp].entries| && At(old(fs), dp, slot).inum == 0
                && (forall j :: 0 <= j < slot ==> At(old(fs), dp, j).inum != 0)
                && fs == Put(old(fs), dp, slot, Entry(name, inum))
    {
      slot := 0;
      var there := Dirlookup(dp, name);
      if there != -1 {
        return false, 0;
      }
      var off := 0;
      while off < |fs[dp].entries| && fs[dp].entries[off].inum != 0
        invariant 0 <= off <= |fs[dp].entries| && fs == old(fs)
        invariant forall j :: 0 <= j < off ==> At(fs, dp, j).inum != 0
      {
        off := off + 1;
      }
      var entries := fs[dp].entries;
      entries := if off < |entries| then entries[off := Entry(name, inum)] else entries + [Entry(name, inum)];
      fs := fs[dp := fs[dp].(entries := entries)];
      return true, off;
    }

    method Isdirempty(ip: int) returns (empty: bool)
      requires ip in fs
      ensures empty <==> EmptyDir(fs, ip)
    {
      var off := 2;
      while off < |fs[ip].entries|
        invariant 2 <= off && forall j :: 2 <= j < off ==> At(fs, ip, j).inum == 0
        decreases |fs[ip].entries| - off
      {
        if fs[ip].entries[off].inum != 0 {
          assert At(fs, ip, off).inum != 0;
          return false;
        }
        off := off + 1;
      }
      return true;
    }

    // link: a new name for ip in dp, if the path to dp exists. On failure the link added first is
    // taken back. In a removed directory the name is given too, and the count of links is wrong.
    method Link(ip: int, found: bool, dp: int, name: string) returns (ok: bool, ghost slot: int)
      requires Valid() && ip in fs && (found ==> dp in fs && fs[dp].kind == Dir)
      modifies this`fs
      ensures shape == old(shape)
      ensures ok <==> old(fs)[ip].kind != Dir && found && Absent(old(fs), dp, name)
      ensures !ok ==> fs == old(fs)
      ensures ok ==> 0 <= slot <= |old(fs)[dp].entries| && fs == LinkStep(old(fs), dp, slot, name, ip)
      ensures !ok || Linked(old(fs), dp) ==> Valid()
      ensures ok && !Linked(old(fs), dp) ==> forall t :: !Inv(fs, t)
    {
      hide Inv, Absent;
      slot, ok := 0, false;
      if fs[ip].kind == Dir {
        return;
      }
      fs := fs[ip := fs[ip].(nlink := fs[ip].nlink + 1)];
      SameNames(old(fs), ip, 1, dp, name);
      if found {
        ok, slot := Dirlink(dp, name, ip);
      }
      if !ok {
        fs := fs[ip := fs[ip].(nlink := fs[ip].nlink - 1)];
        assert fs == old(fs);
        return;
      }
      assert fs == LinkStep(old(fs), dp, slot, name, ip);
      LinkIff(old(fs), shape, dp, slot, name, ip);
      if Linked(old(fs), dp) {
        LinkKeeps(old(fs), shape, dp, slot, name, ip);
      }
    }

    // unlink: remove a name, unless it is "." or "..", missing, or that of a directory with entries.
    method Unlink(dp: int, name: string) returns (ok: bool, ghost slot: int)
      requires Valid() && dp in fs && fs[dp].kind == Dir
      modifies this`fs
      ensures Valid() && shape == old(shape)
      ensures !ok ==> fs == old(fs)
      ensures !ok ==> name == "." || name == ".." || Absent(old(fs), dp, name)
                      || exists k :: 2 <= k && At(old(fs), dp, k).name == name && At(old(fs), dp, k).inum != 0
                                     && var i := At(old(fs), dp, k).inum;
                                        i in old(fs) && old(fs)[i].kind == Dir && !EmptyDir(old(fs), i)
      ensures ok ==>
                && Unlinkable(old(fs), dp, slot) && At(old(fs), dp, slot).name == name
                && At(old(fs), dp, slot).inum in old(fs) && At(old(fs), dp, slot).inum != dp
                && fs == UnlinkStep(old(fs), dp, slot)
    {
      hide Inv, Absent;
      slot, ok := 0, false;
      if name == "." || name == ".." {
        return;
      }
      var off := Dirlookup(dp, name);
      if off == -1 {
        return;
      }
      NamedIsLinked(fs, shape, dp, off);
      DotsFirst(fs, shape, dp, off);
      NamedHasLink(fs, shape, dp, off);
      var ip := fs[dp].entries[off].inum;
      var dir := fs[ip].kind == Dir;
      if dir {
        var empty := Isdirempty(ip);
        if !empty {
          return;
        }
      }
      slot, ok := off, true;
      UnlinkKeeps(fs, shape, dp, off);
      fs := fs[dp := fs[dp].(entries := fs[dp].entries[off := Entry("", 0)])];
      if dir {
        fs := fs[dp := fs[dp].(nlink := fs[dp].nlink - 1)];
      }
      fs := fs[ip := fs[ip].(nlink := fs[ip].nlink - 1)];
      assert fs == UnlinkStep(old(fs), dp, off);
    }

    // create: the existing file of that name, or a new inode (the one ialloc found free); 0 if the
    // name is taken otherwise. In a removed directory it is made too, and the links are wrong.
    method Create(dp: int, name: string, kind: Kind, free: int) returns (r: int, ghost slot: int)
      requires Valid() && dp in fs && fs[dp].kind == Dir && free !in fs && free != 0
      modifies this
      ensures !Absent(old(fs), dp, name) || Linked(old(fs), dp) ==> Valid()
      ensures Absent(old(fs), dp, name) && !Linked(old(fs), dp) ==> forall t :: !Inv(fs, t)
      ensures !Absent(old(fs), dp, name) ==>
                && fs == old(fs) && shape == old(shape)
                && exists k :: Found(fs, dp, name, k) && k != -1
                               && var i := At(fs, dp, k).inum; r == if kind == File && i in fs
                                    && fs[i].kind == File then i else 0
      ensures Absent(old(fs), dp, name) ==>
                && r == free != dp && 0 <= slot <= |old(fs)[dp].entries|
                && fs == CreateStep(old(fs), dp, slot, name, free, kind)
    {
      hide Inv, Absent;
      slot := 0;
      var off := Dirlookup(dp, name);
      FoundOrNot(fs, dp, name, off);
      if off != -1 {
        var ip := fs[dp].entries[off].inum;
        return if kind == File && ip in fs && fs[ip].kind == File then ip else 0, 0;
      }
      r := free;
      slot := FirstEmpty(fs, dp);
      CreateIff(fs, shape, dp, slot, name, free, kind);
      if Linked(fs, dp) {
        CreateKeeps(fs, shape, dp, slot, name, free, kind);
      }
      MakeInode(dp, name, kind, free, slot);
      shape := CreateShape(shape, dp, slot, free, kind);
    }

    method MakeDots(dp: int, ip: int)
      requires ip in fs && ip != 0 && fs[ip].entries == []
      modifies this`fs
      ensures fs == old(fs)[ip := old(fs)[ip].(entries := [Entry(".", ip), Entry("..", dp)])]
    {
      ghost var s;
      var ok;
      ok, s := Dirlink(ip, ".", ip);
      assert fs[ip].entries == [Entry(".", ip)];
      ok, s := Dirlink(ip, "..", dp);
      assert fs[ip].entries == [Entry(".", ip), Entry("..", dp)];
    }

    // The second half of create.
    method MakeInode(dp: int, name: string, kind: Kind, ip: int, ghost slot: int)
      requires dp in fs && Absent(fs, dp, name) && ip !in fs && ip != 0 && slot == FirstEmpty(fs, dp)
      modifies this`fs
      ensures ip != dp && fs == CreateStep(old(fs), dp, slot, name, ip, kind)
    {
      ghost var s;
      var ok;
      fs := fs[ip := Inode(kind, 1, [])];
      assert forall k :: At(fs, dp, k) == At(old(fs), dp, k);
      if kind == Dir {
        fs := fs[dp := fs[dp].(nlink := fs[dp].nlink + 1)];
        MakeDots(dp, ip);
      }
      assert forall k :: At(fs, dp, k) == At(old(fs), dp, k);
      ok, s := Dirlink(dp, name, ip);
      FirstEmptyIs(old(fs), dp, s);
      assert fs == CreateStep(old(fs), dp, slot, name, ip, kind);
    }

    // iput of the last reference to an inode without links.
    method Free(ip: int)
      requires Valid() && ip in fs && fs[ip].nlink == 0
      modifies this`fs
      ensures Valid() && shape == old(shape) && fs == old(fs) - {ip}
    {
      FreeKeeps(fs, shape, ip);
      fs := fs - {ip};
    }
  }

  ghost function FirstEmptyFrom(es: seq<Entry>, k: nat): (r: nat)
    requires k <= |es|
    ensures k <= r <= |es| && (r < |es| ==> es[r].inum == 0) && forall j :: k <= j < r ==> es[j].inum != 0
    decreases |es| - k
  {
    if k == |es| || es[k].inum == 0 then k else FirstEmptyFrom(es, k + 1)
  }

  ghost function FirstEmpty(fs: Fs, d: int): (r: nat)
    requires d in fs
    ensures r <= |fs[d].entries| && At(fs, d, r).inum == 0
    ensures forall j :: 0 <= j < r ==> At(fs, d, j).inum != 0
  {
    FirstEmptyFrom(fs[d].entries, 0)
  }

  lemma FirstEmptyIs(fs: Fs, d: int, k: int)
    requires d in fs && 0 <= k <= |fs[d].entries| && At(fs, d, k).inum == 0 && forall j :: 0 <= j < k ==>
               At(fs, d, j).inum != 0
    ensures k == FirstEmpty(fs, d)
  {
    var r := FirstEmpty(fs, d);
    assert r < k ==> At(fs, d, r).inum != 0;
    assert k < r ==> At(fs, d, k).inum != 0;
  }

  lemma SameNames(fs: Fs, i: int, n: int, d: int, name: string)
    requires i in fs
    ensures Absent(AddLinks(fs, i, n), d, name) <==> Absent(fs, d, name)
  {
    assert forall k :: At(AddLinks(fs, i, n), d, k) == At(fs, d, k);
  }

  lemma FoundOrNot(fs: Fs, d: int, name: string, k: int)
    requires Found(fs, d, name, k)
    ensures k == -1 <==> Absent(fs, d, name)
  {
  }

  // Only a linked directory has a name other than "." and "..".
  lemma NamedIsLinked(fs: Fs, t: Shape, d: int, k: int)
    requires Inv(fs, t) && d in fs && fs[d].kind == Dir
    requires At(fs, d, k).inum != 0 && At(fs, d, k).name != "." && At(fs, d, k).name != ".."
    ensures Linked(fs, d)
  {
    assert BareAt(fs, d, k);
  }

  // A name other than "." and ".." is found beyond the first two slots.
  lemma DotsFirst(fs: Fs, t: Shape, d: int, k: int)
    requires Inv(fs, t) && Linked(fs, d) && 0 <= k && At(fs, d, k).inum != 0 && At(fs, d, k).name != "."
             && At(fs, d, k).name != ".."
    ensures k >= 2
  {
    Dots(fs, t, d);
  }
}
