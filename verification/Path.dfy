/**
  Path names (fs.c): skipelem, namex, namei and nameiparent over the directories of LinkSpec.
 */
module Path {
  import opened LinkSpec
  import opened Links

  const DIRSIZ: int := 14

  // ---------- the elements of a path ----------

  function SkipSlashes(s: string): (r: string)
    ensures |r| <= |s| && (r == "" || r[0] != '/')
  {
    if s != "" && s[0] == '/' then SkipSlashes(s[1..]) else s
  }

  // The length of the element s starts with.
  function ElemLength(s: string): (k: nat)
    ensures k <= |s| && (s != "" && s[0] != '/' ==> k > 0)
  {
    if s == "" || s[0] == '/' then 0 else 1 + ElemLength(s[1..])
  }

  function Trunc(e: string): string
  {
    if |e| >= DIRSIZ then e[..DIRSIZ] else e
  }

  // The elements between the slashes, each cut to DIRSIZ characters.
  function Elements(s: string): seq<string>
    decreases |s|
  {
    var t := SkipSlashes(s);
    if t == "" then [] else [Trunc(t[..ElemLength(t)])] + Elements(t[ElemLength(t)..])
  }

  lemma SlashesSkipped(s: string)
    ensures Elements(SkipSlashes(s)) == Elements(s)
  {
    assert SkipSlashes(SkipSlashes(s)) == SkipSlashes(s);
  }

  lemma OneSlash(s: string)
    requires s != "" && s[0] == '/'
    ensures Elements(s) == Elements(s[1..])
  {
  }

  lemma FirstElement(t: string)
    requires t != "" && t[0] != '/'
    ensures Elements(t) == [Trunc(t[..ElemLength(t)])] + Elements(t[ElemLength(t)..])
  {
  }

  predicate IsName(e: string)
  {
    e != "" && forall i :: 0 <= i < |e| ==> e[i] != '/'
  }

  function Join(es: seq<string>): string
  {
    if es == [] then "" else "/" + es[0] + Join(es[1..])
  }

  lemma {:induction false} ElemLengthIs(e: string, s: string)
    requires (forall i :: 0 <= i < |e| ==> e[i] != '/') && (s == "" || s[0] == '/')
    ensures ElemLength(e + s) == |e|
  {
    if e == "" {
      assert e + s == s;
    } else {
      assert (e + s)[1..] == e[1..] + s;
      ElemLengthIs(e[1..], s);
    }
  }

  // A path put together from names has those names as elements, each cut to its first DIRSIZ characters.
  lemma {:induction false} JoinElements(es: seq<string>)
    requires forall i :: 0 <= i < |es| ==> IsName(es[i])
    ensures |Elements(Join(es))| == |es|
    ensures forall i :: 0 <= i < |es| ==>
              Elements(Join(es))[i] == if |es[i]| <= DIRSIZ then es[i] else es[i][..DIRSIZ]
  {
    if es != [] {
      hide Elements, ElemLength;
      var e, s := es[0], Join(es[1..]);
      var p := Join(es);
      assert p == "/" + e + s && p[1..] == e + s;
      assert (e + s)[0] == e[0];
      OneSlash(p);
      ElemLengthIs(e, s);
      FirstElement(e + s);
      assert (e + s)[..|e|] == e && (e + s)[|e|..] == s;
      JoinElements(es[1..]);
    }
  }

  // Slashes more or fewer between two parts of a path make no difference.
  lemma {:induction false} ExtraSlash(a: string, b: string)
    ensures Elements(a + "//" + b) == Elements(a + "/" + b)
    decreases |a|
  {
    hide Elements, ElemLength;
    var x, y := a + "//" + b, a + "/" + b;
    if a == "" {
      assert x[1..] == "/" + b && y[1..] == b && x[1..][1..] == b;
      OneSlash(x);
      OneSlash(x[1..]);
      OneSlash(y);
    } else if a[0] == '/' {
      assert x[1..] == a[1..] + "//" + b && y[1..] == a[1..] + "/" + b;
      OneSlash(x);
      OneSlash(y);
      ExtraSlash(a[1..], b);
    } else {
      var k := ElemLength(a);
      SameElement(a, "/" + b);
      SameElement(a, "//" + b);
      assert x == a + ("//" + b) && y == a + ("/" + b);
      ExtraSlash(a[k..], b);
      assert a[k..] + ("//" + b) == a[k..] + "//" + b && a[k..] + ("/" + b) == a[k..] + "/" + b;
    }
  }

  lemma SameElement(a: string, s: string)
    requires a != "" && a[0] != '/' && s != "" && s[0] == '/'
    ensures ElemLength(a) > 0
    ensures Elements(a + s) == [Trunc(a[..ElemLength(a)])] + Elements(a[ElemLength(a)..] + s)
  {
    hide Elements;
    ElemLengthJoined(a, s);
    FirstElement(a + s);
    var k := ElemLength(a);
    assert (a + s)[..k] == a[..k] && (a + s)[k..] == a[k..] + s;
  }

  lemma {:induction false} ElemLengthJoined(a: string, s: string)
    requires s != "" && s[0] == '/'
    ensures ElemLength(a + s) == ElemLength(a)
  {
    if a == "" {
      assert a + s == s;
    } else {
      assert (a + s)[1..] == a[1..] + s;
      if a[0] != '/' {
        ElemLengthJoined(a[1..], s);
      }
    }
  }

  // ---------- what a path names ----------

  function LookupFrom(fs: Fs, d: int, name: string, k: nat): int
    requires d in fs
    decreases |fs[d].entries| - k
  {
    if k >= |fs[d].entries| then 0
    else if fs[d].entries[k].inum != 0 && fs[d].entries[k].name == name then fs[d].entries[k].inum
    else LookupFrom(fs, d, name, k + 1)
  }

  // The inode of a name in a directory, 0 if there is none.
  function Lookup(fs: Fs, d: int, name: string): int
  {
    if d in fs then LookupFrom(fs, d, name, 0) else 0
  }

  // Where a path leads: to an inode, nowhere, or to the panic of ilock on a free inode.
  datatype Place = Reached(ip: int) | Missing | NoType

  // Following elements one by one from inode d, locking each directory to look into it.
  function Walk(fs: Fs, d: int, es: seq<string>): Place
    decreases |es|
  {
    if es == [] then Reached(d)
    else if d !in fs then NoType
    else if fs[d].kind != Dir || Lookup(fs, d, es[0]) == 0 then Missing
    else Walk(fs, Lookup(fs, d, es[0]), es[1..])
  }

  lemma {:induction false} WalkSplit(fs: Fs, d: int, a: seq<string>, b: seq<string>)
    ensures Walk(fs, d, a + b) == var x := Walk(fs, d, a); if x.Reached? then Walk(fs, x.ip, b) else x
    decreases |a|
  {
    if a == [] {
      assert a + b == b;
    } else if d in fs && fs[d].kind == Dir && Lookup(fs, d, a[0]) != 0 {
      assert (a + b)[1..] == a[1..] + b;
      WalkSplit(fs, Lookup(fs, d, a[0]), a[1..], b);
    }
  }

  // What the walk to the last element is when it cannot go on from ip.
  lemma WalkStuck(fs: Fs, start: int, es: seq<string>, done: nat, m: nat)
    requires done < m <= |es| && Walk(fs, start, es[..done]).Reached?
    requires var ip := Walk(fs, start, es[..done]).ip; ip !in fs || fs[ip].kind != Dir || Lookup(fs, ip, es[done]) == 0
    ensures Walk(fs, start, es[..m]) == if Walk(fs, start, es[..done]).ip in fs then Missing else NoType
  {
    var rest := es[done..m];
    assert es[..m] == es[..done] + rest && rest[0] == es[done];
    WalkSplit(fs, start, es[..done], rest);
  }

  lemma WalkStep(fs: Fs, start: int, es: seq<string>, done: nat)
    requires done < |es| && Walk(fs, start, es[..done]).Reached?
    requires var ip := Walk(fs, start, es[..done]).ip; ip in fs && fs[ip].kind == Dir && Lookup(fs, ip, es[done]) != 0
    ensures Walk(fs, start, es[..done + 1]) == Reached(Lookup(fs, Walk(fs, start, es[..done]).ip, es[done]))
  {
    assert es[..done + 1] == es[..done] + [es[done]];
    WalkSplit(fs, start, es[..done], [es[done]]);
  }

  // What nameiparent finds: the directory before the last element.
  function Parent(fs: Fs, start: int, es: seq<string>): Place
  {
    if es == [] then Missing
    else
      var x := Walk(fs, start, es[..|es| - 1]);
      if !x.Reached? then x
      else if x.ip !in fs then NoType
      else if fs[x.ip].kind != Dir then Missing
      else x
  }

  // What namei finds is what the last element names in what nameiparent finds.
  lemma ParentThenLookup(fs: Fs, start: int, es: seq<string>)
    requires es != []
    ensures var p := Parent(fs, start, es);
            Walk(fs, start, es) ==
            if !p.Reached? then p
            else if Lookup(fs, p.ip, es[|es| - 1]) == 0 then Missing
            else Reached(Lookup(fs, p.ip, es[|es| - 1]))
  {
    var m := |es| - 1;
    assert es == es[..m] + [es[m]];
    WalkSplit(fs, start, es[..m], [es[m]]);
  }

  // ---------- free inodes ----------

  // The walk comes to a free inode: the next ilock of it panics.
  predicate MeetsFree(fs: Fs, d: int, es: seq<string>)
  {
    var x := Walk(fs, d, es);
    x.NoType? || (x.Reached? && x.ip !in fs)
  }

  // Element m-1 is ".." in a removed directory whose parent has been freed.
  ghost predicate FallsAt(fs: Fs, d: int, es: seq<string>, m: int)
  {
    && 0 < m <= |es| && es[m - 1] == ".." && Walk(fs, d, es[..m - 1]).Reached?
    && var q := Walk(fs, d, es[..m - 1]).ip;
       Removed(fs, q) && At(fs, q, 1).inum != 0 && At(fs, q, 1).inum !in fs
  }

  lemma {:induction false} LookupAt(fs: Fs, d: int, name: string, k: nat)
    requires d in fs
    ensures var i := LookupFrom(fs, d, name, k);
            i != 0 ==> exists j :: k <= j < |fs[d].entries| && At(fs, d, j) == Entry(name, i)
    decreases |fs[d].entries| - k
  {
    if k < |fs[d].entries| {
      if fs[d].entries[k].inum != 0 && fs[d].entries[k].name == name {
        assert At(fs, d, k) == Entry(name, LookupFrom(fs, d, name, k));
      } else {
        LookupAt(fs, d, name, k + 1);
      }
    }
  }

  lemma DotDot(fs: Fs, t: Shape, d: int)
    requires Inv(fs, t) && Removed(fs, d) && At(fs, d, 1).inum != 0
    ensures Lookup(fs, d, "..") == At(fs, d, 1).inum
  {
    assert BareAt(fs, d, 0) && BareAt(fs, d, 1);
    assert LookupFrom(fs, d, "..", 1) == At(fs, d, 1).inum;
  }

  // From an allocated inode a path comes to a free one exactly if it goes up with ".." from a
  // removed directory whose parent has been freed.
  lemma {:induction false} MeetsFreeIff(fs: Fs, t: Shape, d: int, es: seq<string>)
    requires Inv(fs, t) && d in fs
    ensures MeetsFree(fs, d, es) <==> exists m :: FallsAt(fs, d, es, m)
    decreases |es|
  {
    if m :| FallsAt(fs, d, es, m) {
      FallMeets(fs, t, d, es, m);
    }
    if es != [] && fs[d].kind == Dir && Lookup(fs, d, es[0]) != 0 {
      var x, more := Lookup(fs, d, es[0]), es[1..];
      LookupAt(fs, d, es[0], 0);
      var j :| 0 <= j < |fs[d].entries| && At(fs, d, j) == Entry(es[0], x);
      NamesFree(fs, t, d, j);
      if x !in fs {
        assert BareAt(fs, d, j) && es[..0] == [];
        assert FallsAt(fs, d, es, 1);
      } else {
        MeetsFreeIff(fs, t, x, more);
        if m :| FallsAt(fs, x, more, m) {
          assert es[..m][1..] == more[..m - 1];
          assert FallsAt(fs, d, es, m + 1);
        }
      }
    }
  }

  lemma FallMeets(fs: Fs, t: Shape, d: int, es: seq<string>, m: int)
    requires Inv(fs, t) && FallsAt(fs, d, es, m)
    ensures MeetsFree(fs, d, es)
  {
    var q := Walk(fs, d, es[..m - 1]).ip;
    DotDot(fs, t, q);
    WalkStep(fs, d, es, m - 1);
    assert es == es[..m] + es[m..];
    WalkSplit(fs, d, es[..m], es[m..]);
  }

  // So never from a linked directory, the root for one: there every path ends nowhere or at an
  // allocated inode with a link.
  lemma {:induction false} LinkedStart(fs: Fs, t: Shape, d: int, es: seq<string>)
    requires Inv(fs, t) && d in fs && fs[d].nlink > 0
    ensures !MeetsFree(fs, d, es)
    ensures Walk(fs, d, es).Reached? ==> fs[Walk(fs, d, es).ip].nlink > 0
    decreases |es|
  {
    if es != [] && fs[d].kind == Dir && Lookup(fs, d, es[0]) != 0 {
      var x := Lookup(fs, d, es[0]);
      LookupAt(fs, d, es[0], 0);
      var j :| 0 <= j < |fs[d].entries| && At(fs, d, j) == Entry(es[0], x);
      NamesLinked(fs, t, d, j);
      LinkedStart(fs, t, x, es[1..]);
    }
  }

  // In a removed working directory whose parent has been freed, ".." is such a path.
  lemma GoneUp(fs: Fs, t: Shape, d: int, more: seq<string>)
    requires Inv(fs, t) && Removed(fs, d) && At(fs, d, 1).inum != 0 && At(fs, d, 1).inum !in fs
    ensures Walk(fs, d, [".."]) == Reached(At(fs, d, 1).inum)
    ensures more != [] ==> Walk(fs, d, [".."] + more) == NoType
  {
    DotDot(fs, t, d);
    assert ([".."] + more)[1..] == more;
  }

  lemma {:induction false} FoundIs(fs: Fs, d: int, name: string, k: int, j: nat)
    requires d in fs && Found(fs, d, name, k) && (k == -1 || j <= k)
    ensures LookupFrom(fs, d, name, j) == if k == -1 then 0 else At(fs, d, k).inum
    decreases |fs[d].entries| - j
  {
    if j < |fs[d].entries| && !(fs[d].entries[j].inum != 0 && fs[d].entries[j].name == name) {
      FoundIs(fs, d, name, k, j + 1);
    } else if j < |fs[d].entries| {
      assert At(fs, d, j) == fs[d].entries[j];
    }
  }

  // ---------- the code ----------

  // The next element of path and what follows it, without leading slashes.
  method Skipelem(path: string) returns (ok: bool, rest: string, name: string)
    ensures ok <==> Elements(path) != []
    ensures ok ==> name == Elements(path)[0] && Elements(rest) == Elements(path)[1..]
    ensures ok ==> |rest| < |path| && (rest == "" || rest[0] != '/') && (rest == "" <==> |Elements(path)| == 1)
  {
    hide Elements, ElemLength, SkipSlashes;
    rest, name := "", "";
    var s := SlashesEnd(path, 0);
    assert path[0..] == path;
    SlashesSkipped(path);
    NoElements(path[s..]);
    if s == |path| {
      return false, "", "";
    }
    var i := ElemEnd(path, s);
    var len := i - s;
    name := if len >= DIRSIZ then path[s..s + DIRSIZ] else path[s..s + len];
    FirstElement(path[s..]);
    assert path[s..][..len] == path[s..i] && path[s..][len..] == path[i..];
    var e := SlashesEnd(path, i);
    rest := path[e..];
    SlashesSkipped(path[i..]);
    NoElements(rest);
    return true, rest, name;
  }

  lemma NoElements(t: string)
    requires t == "" || t[0] != '/'
    ensures Elements(t) == [] <==> t == ""
  {
  }

  method ElemEnd(path: string, s: nat) returns (i: nat)
    requires s < |path| && path[s] != '/'
    ensures s < i <= |path| && i - s == ElemLength(path[s..])
  {
    i := s;
    while i < |path| && path[i] != '/'
      invariant s <= i <= |path| && ElemLength(path[s..]) == i - s + ElemLength(path[i..])
    {
      assert path[i..][1..] == path[i + 1..];
      i := i + 1;
    }
  }

  method SlashesEnd(path: string, from: nat) returns (i: nat)
    requires from <= |path|
    ensures from <= i <= |path| && path[i..] == SkipSlashes(path[from..]) && (i < |path| ==> path[i] != '/')
  {
    i := from;
    while i < |path| && path[i] == '/'
      invariant from <= i <= |path| && SkipSlashes(path[i..]) == SkipSlashes(path[from..])
    {
      assert path[i..][1..] == path[i + 1..];
      i := i + 1;
    }
  }

  // namex: where a path leads, or with parent the directory of its last element and that element.
  // Absolute paths start at the root, others at cwd.
  method Namex(dirs: Directories, cwd: int, path: string, parent: bool) returns (r: Place, name: string)
    ensures var start := if path != "" && path[0] == '/' then ROOT else cwd;
            var es := Elements(path);
            if parent then r == Parent(dirs.fs, start, es) && (r.Reached? ==> name == es[|es| - 1])
            else r == Walk(dirs.fs, start, es)
  {
    hide Elements, Lookup, Walk;
    var ip := if path != "" && path[0] == '/' then ROOT else cwd;
    ghost var start, es, done := ip, Elements(path), 0;
    WalkNothing(dirs.fs, start, es);
    var ok, rest;
    ok, rest, name := Skipelem(path);
    while ok
      invariant 0 <= done <= |es| && ok == (done < |es|) && Walk(dirs.fs, start, es[..done]) == Reached(ip)
      invariant ok ==> name == es[done] && Elements(rest) == es[done + 1..] && (rest == "" <==> done + 1 == |es|)
      invariant !ok && parent ==> es == []
      decreases |es| - done
    {
      if ip !in dirs.fs || dirs.fs[ip].kind != Dir {
        Stuck(dirs.fs, start, es, done);
        return if ip in dirs.fs then Missing else NoType, name;
      }
      if parent && rest == "" {
        assert es[..done] == es[..|es| - 1];
        return Reached(ip), name;
      }
      var off := dirs.Dirlookup(ip, name);
      LookupIs(dirs.fs, ip, name, off);
      if off == -1 {
        Stuck(dirs.fs, start, es, done);
        return Missing, name;
      }
      WalkStep(dirs.fs, start, es, done);
      ip := dirs.fs[ip].entries[off].inum;
      done := done + 1;
      ok, rest, name := Skipelem(rest);
    }
    assert es[..done] == es;
    return if parent then Missing else Reached(ip), name;
  }

  lemma WalkNothing(fs: Fs, start: int, es: seq<string>)
    ensures Walk(fs, start, es[..0]) == Reached(start)
  {
  }

  lemma LookupIs(fs: Fs, d: int, name: string, k: int)
    requires d in fs && Found(fs, d, name, k)
    ensures Lookup(fs, d, name) == (if k == -1 then 0 else At(fs, d, k).inum) && (k != -1 ==> Lookup(fs, d, name) != 0)
  {
    FoundIs(fs, d, name, k, 0);
  }

  lemma Stuck(fs: Fs, start: int, es: seq<string>, done: nat)
    requires done < |es| && Walk(fs, start, es[..done]).Reached?
    requires var ip := Walk(fs, start, es[..done]).ip; ip !in fs || fs[ip].kind != Dir || Lookup(fs, ip, es[done]) == 0
    ensures var r := if Walk(fs, start, es[..done]).ip in fs then Missing else NoType;
            && Walk(fs, start, es) == r
            && (done < |es| - 1 || Walk(fs, start, es[..done]).ip !in fs
                 || fs[Walk(fs, start, es[..done]).ip].kind != Dir ==>
                  Parent(fs, start, es) == r)
  {
    assert es[..|es|] == es;
    WalkStuck(fs, start, es, done, |es|);
    if done < |es| - 1 {
      WalkStuck(fs, start, es, done, |es| - 1);
    }
  }

  // ---------- what link, unlink and create do to names ----------

  lemma {:induction false} SomeFound(fs: Fs, d: int, name: string, k: nat) returns (j: int)
    requires d in fs && k <= |fs[d].entries| && forall i :: 0 <= i < k ==>
               At(fs, d, i).inum == 0 || At(fs, d, i).name != name
    ensures Found(fs, d, name, j)
    decreases |fs[d].entries| - k
  {
    if k == |fs[d].entries| {
      return -1;
    } else if At(fs, d, k).inum != 0 && At(fs, d, k).name == name {
      return k;
    }
    j := SomeFound(fs, d, name, k + 1);
  }

  // A name whose entries are as before means what it did.
  lemma SameMeaning(fs: Fs, fs': Fs, d: int, name: string)
    requires d in fs && d in fs'
    requires forall k :: At(fs, d, k) == At(fs', d, k)
                         || ((At(fs, d, k).inum == 0 || At(fs, d, k).name != name)
                             && (At(fs', d, k).inum == 0 || At(fs', d, k).name != name))
    ensures Lookup(fs', d, name) == Lookup(fs, d, name)
  {
    hide Lookup;
    var j := SomeFound(fs, d, name, 0);
    if j != -1 {
      assert At(fs, d, j) == At(fs', d, j);
    }
    assert Found(fs', d, name, j);
    LookupIs(fs, d, name, j);
    LookupIs(fs', d, name, j);
  }

  // After link the new name leads to the file and every other name where it led, and only the count
  // of links of the file has changed.
  lemma LinkNames(fs: Fs, d: int, k: int, name: string, i: int, x: int, n: string)
    requires d in fs && 0 <= k <= |fs[d].entries| && At(fs, d, k).inum == 0 && Absent(fs, d, name) && i in fs && i != 0
    ensures var fs' := LinkStep(fs, d, k, name, i);
            && Lookup(fs', x, n) == (if x == d && n == name then i else Lookup(fs, x, n))
            && fs'.Keys == fs.Keys
            && (x in fs ==> fs'[x].kind == fs[x].kind && fs'[x].nlink == fs[x].nlink + if x == i then 1 else 0)
  {
    hide Lookup;
    var fs' := LinkStep(fs, d, k, name, i);
    assert At(fs', d, k) == Entry(name, i) && forall j :: j != k ==> At(fs', d, j) == At(fs, d, j);
    if x == d && n == name {
      assert Found(fs', d, name, k);
      LookupIs(fs', d, name, k);
    } else if x in fs {
      SameMeaning(fs, fs', x, n);
    } else {
      NoDirectory(fs, fs', x, n);
    }
  }

  lemma NoDirectory(fs: Fs, fs': Fs, x: int, n: string)
    requires x !in fs && x !in fs'
    ensures Lookup(fs', x, n) == Lookup(fs, x, n) == 0
  {
  }

  // After unlink the name leads nowhere and every other name where it led; the file has a link less,
  // and so has the directory if the file was one.
  lemma UnlinkNames(fs: Fs, t: Shape, d: int, k: int, x: int, n: string)
    requires Inv(fs, t) && Unlinkable(fs, d, k) && At(fs, d, k).inum in fs && At(fs, d, k).inum != d
    ensures var fs', e := UnlinkStep(fs, d, k), At(fs, d, k);
            && Lookup(fs, d, e.name) == e.inum
            && Lookup(fs', x, n) == (if x == d && n == e.name then 0 else Lookup(fs, x, n))
            && fs'.Keys == fs.Keys
            && (x in fs ==>
                  && fs'[x].kind == fs[x].kind
                  && fs'[x].nlink == fs[x].nlink
                       - (if x == e.inum || (x == d && fs[e.inum].kind == Dir) then 1 else 0))
  {
    hide Lookup;
    var fs', e := UnlinkStep(fs, d, k), At(fs, d, k);
    assert At(fs', d, k).inum == 0 && forall j :: j != k ==> At(fs', d, j) == At(fs, d, j);
    OnlyEntry(fs, t, d, k);
    LookupIs(fs, d, e.name, k);
    if x == d && n == e.name {
      assert Found(fs', d, e.name, -1);
      LookupIs(fs', d, e.name, -1);
    } else if x in fs {
      SameMeaning(fs, fs', x, n);
    } else {
      NoDirectory(fs, fs', x, n);
    }
  }

  // No two entries of a linked directory have the same name.
  lemma OnlyEntry(fs: Fs, t: Shape, d: int, k: int)
    requires Inv(fs, t) && Unlinkable(fs, d, k)
    ensures Found(fs, d, At(fs, d, k).name, k)
    ensures forall j :: j != k ==> At(fs, d, j).inum == 0 || At(fs, d, j).name != At(fs, d, k).name
  {
    forall j | j != k ensures At(fs, d, j).inum == 0 || At(fs, d, j).name != At(fs, d, k).name {
      assert UniqueAt(fs, d, j, k) && UniqueAt(fs, d, k, j);
    }
  }

  // After create the name leads to the new inode, which has one link and, as a directory, its dots; the
  // parent of a directory has a link more, and every other name leads where it led.
  lemma CreateNames(fs: Fs, d: int, k: int, name: string, i: int, kind: Kind, x: int, n: string)
    requires d in fs && 0 <= k <= |fs[d].entries| && At(fs, d, k).inum == 0 && Absent(fs, d, name) && i !in fs && i != 0
    ensures var fs' := CreateStep(fs, d, k, name, i, kind);
            && fs'.Keys == fs.Keys + {i} && fs'[i].kind == kind && fs'[i].nlink == 1
            && Lookup(fs', x, n) ==
                 (if x == d && n == name then i
                  else if x == i then (if kind == Dir && n == "." then i else if kind == Dir && n == ".." then d else 0)
                  else Lookup(fs, x, n))
            && (x in fs ==>
                  && fs'[x].kind == fs[x].kind
                  && fs'[x].nlink == fs[x].nlink + if x == d && kind == Dir then 1 else 0)
  {
    hide Lookup;
    var fs' := CreateStep(fs, d, k, name, i, kind);
    assert At(fs', d, k) == Entry(name, i) && forall j :: j != k ==> At(fs', d, j) == At(fs, d, j);
    if x == d && n == name {
      assert Found(fs', d, name, k);
      LookupIs(fs', d, name, k);
    } else if x == i {
      NewNames(fs', d, i, kind, n);
    } else if x in fs {
      SameMeaning(fs, fs', x, n);
    } else {
      NoDirectory(fs, fs', x, n);
    }
  }

  lemma NewNames(fs: Fs, d: int, i: int, kind: Kind, n: string)
    requires i in fs && i != 0 && fs[i].entries == if kind == Dir then [Entry(".", i), Entry("..", d)] else []
    ensures Lookup(fs, i, n) == if kind == Dir && n == "." then i else if kind == Dir && n == ".." then d else 0
  {
    var j := if kind == Dir && n == "." then 0 else if kind == Dir && n == ".." && d != 0 then 1 else -1;
    assert Found(fs, i, n, j);
    LookupIs(fs, i, n, j);
  }
}
