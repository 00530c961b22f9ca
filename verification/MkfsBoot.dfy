/**
  The image mkfs.c makes of a list of files, read as directories: when it is one the kernel can start
  on.
 */
module MkfsBoot {
  import opened FsSpec
  import opened Mkfs
  import C = FsCalls
  import L = LinkSpec
  import I = IcacheSpec

  const T_FILE: int := 2

  // ---------- directories as bytes ----------

  // The name in the bytes of an entry: up to the first zero.
  function Text(name: seq<int>): string
  {
    if name == [] || !(0 < name[0] < 0x100) then "" else [name[0] as char] + Text(name[1..])
  }

  function EntryAt(c: seq<int>, k: int): L.Entry
    requires 0 <= k && C.DIRENT * (k + 1) <= |c|
  {
    var o := C.DIRENT * k;
    L.Entry(Text(c[o + 2..o + C.DIRENT]), c[o] + 0x100 * c[o + 1])
  }

  // The entries in the contents of a directory.
  function Entries(c: seq<int>): (r: seq<L.Entry>)
    ensures |r| == |c| / C.DIRENT
  {
    seq(|c| / C.DIRENT, k requires 0 <= k < |c| / C.DIRENT => EntryAt(c, k))
  }

  lemma EntryJoin(a: seq<int>, b: seq<int>, k: int)
    requires |a| % C.DIRENT == 0 && 0 <= k < |a + b| / C.DIRENT
    ensures Entries(a + b)[k] ==
            if k < |a| / C.DIRENT then Entries(a)[k] else Entries(b)[k - |a| / C.DIRENT]
  {
    hide Text;
    var o := C.DIRENT * k;
    if k < |a| / C.DIRENT {
      assert (a + b)[o + 2..o + C.DIRENT] == a[o + 2..o + C.DIRENT];
    } else {
      var p := C.DIRENT * (k - |a| / C.DIRENT);
      assert o == |a| + p;
      SliceOfSecond(a, b, p + 2, p + C.DIRENT);
    }
  }

  lemma EntriesJoin(a: seq<int>, b: seq<int>)
    requires |a| % C.DIRENT == 0
    ensures Entries(a + b) == Entries(a) + Entries(b)
  {
    hide Entries;
    var x, y := Entries(a + b), Entries(a) + Entries(b);
    assert |x| == |y|;
    forall k | 0 <= k < |x| ensures x[k] == y[k] {
      EntryJoin(a, b, k);
    }
  }

  lemma SliceOfSecond(a: seq<int>, b: seq<int>, i: nat, j: nat)
    requires i <= j <= |b|
    ensures (a + b)[|a| + i..|a| + j] == b[i..j]
  {
  }

  lemma OneEntry(inum: int, name: seq<int>)
    requires 0 <= inum < 0x1_0000 && |name| == C.DIRSIZ
    ensures Entries(C.Dirent(inum, name)) == [L.Entry(Text(name), inum)]
  {
    var c := C.Dirent(inum, name);
    assert c[2..C.DIRENT] == name;
    assert EntryAt(c, 0) == L.Entry(Text(name), inum);
  }

  function Zeros(n: nat): (r: seq<int>)
    ensures |r| == n
  {
    seq(n, _ => 0)
  }

  // Empty slots.
  function Pad(n: nat): (r: seq<L.Entry>)
    ensures |r| == n
  {
    seq(n, _ => L.EMPTY)
  }

  lemma BlankEntries(n: nat)
    ensures Entries(Zeros(C.DIRENT * n)) == Pad(n)
  {
    var c := Zeros(C.DIRENT * n);
    forall k | 0 <= k < n ensures EntryAt(c, k) == L.EMPTY {
      var o := C.DIRENT * k;
      assert c[o + 2..o + C.DIRENT][0] == 0;
    }
  }

  lemma DotNames()
    ensures Text(C.Dots(1)) == "." && Text(C.Dots(2)) == ".."
  {
    var a, b := C.Dots(1), C.Dots(2);
    assert a[1..][0] == 0 && b[1..][0] == 46 && b[1..][1..][0] == 0;
    assert Text(a[1..]) == "" && Text(b[1..][1..]) == "";
    assert Text(b[1..]) == ".";
  }

  // ---------- the root directory ----------

  // What main appends to the root directory for the files named so far.
  function RootBytes(names: seq<seq<int>>): (r: seq<int>)
  {
    if names == [] then C.Dirent(L.ROOT, C.Dots(1)) + C.Dirent(L.ROOT, C.Dots(2))
    else RootBytes(names[..|names| - 1]) + C.Dirent(|names| + 1, names[|names| - 1])
  }

  function RootEntries(names: seq<seq<int>>): (r: seq<L.Entry>)
    ensures |r| == |names| + 2
  {
    if names == [] then [L.Entry(".", L.ROOT), L.Entry("..", L.ROOT)]
    else RootEntries(names[..|names| - 1]) + [L.Entry(Text(names[|names| - 1]), |names| + 1)]
  }

  ghost predicate Named(names: seq<seq<int>>)
  {
    forall k :: 0 <= k < |names| ==> |names[k]| == C.DIRSIZ
  }

  lemma RootDots()
    ensures var c := C.Dirent(L.ROOT, C.Dots(1)) + C.Dirent(L.ROOT, C.Dots(2));
            Entries(c) == [L.Entry(".", L.ROOT), L.Entry("..", L.ROOT)] && |c| == 2 * C.DIRENT
  {
    hide Entries, Text, C.Dirent, C.Dots;
    DotNames();
    OneEntry(L.ROOT, C.Dots(1));
    OneEntry(L.ROOT, C.Dots(2));
    EntriesJoin(C.Dirent(L.ROOT, C.Dots(1)), C.Dirent(L.ROOT, C.Dots(2)));
  }

  lemma OneMore(c: seq<int>, inum: int, name: seq<int>)
    requires |c| % C.DIRENT == 0 && 0 <= inum < 0x1_0000 && |name| == C.DIRSIZ
    ensures Entries(c + C.Dirent(inum, name)) == Entries(c) + [L.Entry(Text(name), inum)]
  {
    hide Entries, Text, C.Dirent;
    OneEntry(inum, name);
    EntriesJoin(c, C.Dirent(inum, name));
  }

  lemma {:induction false} RootParsed(names: seq<seq<int>>)
    requires Named(names) && |names| + 1 < 0x1_0000
    ensures Entries(RootBytes(names)) == RootEntries(names) && |RootBytes(names)| == C.DIRENT * (|names| + 2)
  {
    hide Entries, Text, C.Dirent, C.Dots;
    if names == [] {
      RootDots();
    } else {
      var n := |names| - 1;
      RootParsed(names[..n]);
      OneMore(RootBytes(names[..n]), n + 2, names[n]);
    }
  }

  lemma {:induction false} RootEntryAt(names: seq<seq<int>>, k: nat)
    requires k < |names| + 2
    ensures RootEntries(names)[k] ==
            if k == 0 then L.Entry(".", L.ROOT) else if k == 1 then L.Entry("..", L.ROOT)
               else L.Entry(Text(names[k - 2]), k)
    decreases |names|
  {
    if names != [] && k < |names| + 1 {
      RootEntryAt(names[..|names| - 1], k);
    }
  }

  // ---------- the tree ----------

  // The root directory and a file for every name, made one after the other.
  function TreeOf(names: seq<seq<int>>): (fs: L.Fs)
    ensures L.ROOT in fs && |fs[L.ROOT].entries| == |names| + 2
  {
    if names == [] then map[L.ROOT := L.Inode(L.Dir, 1, [L.Entry(".", L.ROOT), L.Entry("..", L.ROOT)])]
    else
      var n := |names| - 1;
      L.CreateStep(TreeOf(names[..n]), L.ROOT, n + 2, Text(names[n]), n + 2, L.File)
  }

  lemma {:induction false} TreeOfAt(names: seq<seq<int>>, i: int)
    ensures i in TreeOf(names) <==> 1 <= i <= |names| + 1
    ensures i in TreeOf(names) ==>
              TreeOf(names)[i] == if i == L.ROOT then L.Inode(L.Dir, 1, RootEntries(names)) else L.Inode(L.File, 1, [])
  {
    hide Text;
    if names != [] {
      TreeOfAt(names[..|names| - 1], i);
    }
  }

  const SHAPE: L.Shape := L.Shape(map[], map[L.ROOT := 0])

  // The names are different, and none is a dot name.
  ghost predicate Distinct(names: seq<seq<int>>)
  {
    && (forall i :: 0 <= i < |names| ==> Text(names[i]) != "." && Text(names[i]) != "..")
    && (forall i, j :: 0 <= i < j < |names| ==> Text(names[i]) != Text(names[j]))
  }

  lemma {:induction false} TreeBoots(names: seq<seq<int>>)
    requires Distinct(names)
    ensures L.Inv(TreeOf(names), SHAPE)
  {
    if names == [] {
      L.RootAlone();
    } else {
      var n := |names| - 1;
      var fs := TreeOf(names[..n]);
      TreeBoots(names[..n]);
      TreeOfAt(names[..n], L.ROOT);
      TreeOfAt(names[..n], n + 2);
      forall k ensures L.At(fs, L.ROOT, k).inum == 0 || L.At(fs, L.ROOT, k).name != Text(names[n]) {
        if 0 <= k < n + 2 {
          RootEntryAt(names[..n], k);
        }
      }
      L.CreateKeeps(fs, SHAPE, L.ROOT, n + 2, Text(names[n]), n + 2, L.File);
    }
  }

  ghost predicate SameInodeAt(fs: L.Fs, fs': L.Fs, i: int)
  {
    && (i in fs <==> i in fs')
    && (i in fs ==> fs'[i].kind == fs[i].kind && fs'[i].nlink == fs[i].nlink && |fs[i].entries| <= |fs'[i].entries|)
  }

  ghost predicate SameSlot(fs: L.Fs, fs': L.Fs, i: int, k: int)
  {
    L.At(fs', i, k) == L.At(fs, i, k)
  }

  // The same directories but for empty slots at the end.
  ghost predicate SameEntries(fs: L.Fs, fs': L.Fs)
  {
    (forall i :: SameInodeAt(fs, fs', i)) && (forall i, k :: SameSlot(fs, fs', i, k))
  }

  lemma PaddedInv(fs: L.Fs, fs': L.Fs, t: L.Shape)
    requires L.Inv(fs, t) && SameEntries(fs, fs')
    ensures L.Inv(fs', t)
  {
    hide L.Refs, L.At;
    forall d ensures L.Linked(fs', d) <==> L.Linked(fs, d) {
      assert SameInodeAt(fs, fs', d);
    }
    assert SameInodeAt(fs, fs', 0);
    forall i ensures L.CountOk(fs', i) {
      assert L.CountOk(fs, i) && SameInodeAt(fs, fs', i);
      SameRefs(fs, fs', i);
    }
    forall d, k ensures L.EntryOk(fs', t, d, k) {
      assert L.EntryOk(fs, t, d, k) && SameSlot(fs, fs', d, k) && SameInodeAt(fs, fs', L.At(fs, d, k).inum);
    }
    forall d ensures L.DirOk(fs', t, d) {
      PaddedDir(fs, fs', t, d);
    }
    forall d, j, k ensures L.UniqueAt(fs', d, j, k) {
      assert L.UniqueAt(fs, d, j, k) && SameSlot(fs, fs', d, j) && SameSlot(fs, fs', d, k);
    }
    forall d, k ensures L.BareAt(fs', d, k) {
      assert L.BareAt(fs, d, k) && SameSlot(fs, fs', d, k) && SameInodeAt(fs, fs', d);
    }
  }

  lemma PaddedDir(fs: L.Fs, fs': L.Fs, t: L.Shape, d: int)
    requires L.DirOk(fs, t, d) && SameEntries(fs, fs')
    ensures L.DirOk(fs', t, d)
  {
    hide L.At;
    assert SameInodeAt(fs, fs', d) && SameSlot(fs, fs', d, 0) && SameSlot(fs, fs', d, 1);
    var p := L.At(fs, d, 1).inum;
    assert SameInodeAt(fs, fs', p);
    if d in t.home {
      assert SameSlot(fs, fs', p, t.home[d].1);
    }
  }

  lemma SameRefs(fs: L.Fs, fs': L.Fs, i: int)
    requires SameEntries(fs, fs')
    ensures L.Refs(fs', i) == L.Refs(fs, i)
  {
    hide L.At;
    forall d, k ensures L.Ref(fs', d, k, i) <==> L.Ref(fs, d, k, i) {
      assert SameSlot(fs, fs', d, k) && SameInodeAt(fs, fs', d);
    }
  }

  // Equal names, or a file with a dot name, are not a file system.
  lemma ClashBreaks(names: seq<seq<int>>, fs: L.Fs, t: L.Shape)
    requires !Distinct(names) && SameEntries(TreeOf(names), fs)
    ensures !L.Inv(fs, t)
  {
    hide L.Inv, SameEntries, Text;
    if i :| 0 <= i < |names| && (Text(names[i]) == "." || Text(names[i]) == "..") {
      DotBreaks(names, fs, t, i);
    } else {
      var i, j :| 0 <= i < j < |names| && Text(names[i]) == Text(names[j]);
      TwinsBreak(names, fs, t, i, j);
    }
  }

  // Entry k of the root directory.
  lemma RootAt(names: seq<seq<int>>, k: int)
    requires 0 <= k < |names|
    ensures L.At(TreeOf(names), L.ROOT, k + 2) == L.Entry(Text(names[k]), k + 2)
  {
    hide Text, TreeOf, RootEntries;
    TreeOfAt(names, L.ROOT);
    RootEntryAt(names, k + 2);
  }

  lemma RootLinked(names: seq<seq<int>>, fs: L.Fs)
    requires SameInodeAt(TreeOf(names), fs, L.ROOT)
    ensures L.Linked(fs, L.ROOT)
  {
    hide TreeOf, RootEntries;
    TreeOfAt(names, L.ROOT);
  }

  lemma RootSlot(names: seq<seq<int>>, fs: L.Fs, k: int)
    requires SameInodeAt(TreeOf(names), fs, L.ROOT) && SameSlot(TreeOf(names), fs, L.ROOT, k + 2) && 0 <= k < |names|
    ensures L.Linked(fs, L.ROOT) && L.At(fs, L.ROOT, k + 2) == L.Entry(Text(names[k]), k + 2)
  {
    hide Text, TreeOf, SameInodeAt, L.At, L.Linked;
    RootLinked(names, fs);
    RootAt(names, k);
  }

  lemma SameThere(fs: L.Fs, fs': L.Fs, i: int, k: int)
    requires SameEntries(fs, fs')
    ensures SameInodeAt(fs, fs', i) && SameSlot(fs, fs', i, k)
  {
    hide SameInodeAt, SameSlot;
  }

  lemma BadEntry(fs: L.Fs, t: L.Shape, d: int, k: int)
    requires !L.EntryOk(fs, t, d, k)
    ensures !L.Inv(fs, t)
  {
  }

  lemma BadPair(fs: L.Fs, t: L.Shape, d: int, j: int, k: int)
    requires !L.UniqueAt(fs, d, j, k)
    ensures !L.Inv(fs, t)
  {
  }

  lemma DotBreaks(names: seq<seq<int>>, fs: L.Fs, t: L.Shape, i: int)
    requires SameEntries(TreeOf(names), fs) && 0 <= i < |names| && (Text(names[i]) == "." || Text(names[i]) == "..")
    ensures !L.Inv(fs, t)
  {
    hide Text, TreeOf, L.At, L.Linked, SameSlot, SameInodeAt, SameEntries, L.Inv;
    SameThere(TreeOf(names), fs, L.ROOT, i + 2);
    RootSlot(names, fs, i);
    BadEntry(fs, t, L.ROOT, i + 2);
  }

  lemma TwinsBreak(names: seq<seq<int>>, fs: L.Fs, t: L.Shape, i: int, j: int)
    requires SameEntries(TreeOf(names), fs) && 0 <= i < j < |names| && Text(names[i]) == Text(names[j])
    ensures !L.Inv(fs, t)
  {
    hide Text, TreeOf, L.At, L.Linked, SameSlot, SameInodeAt, SameEntries, L.Inv;
    SameThere(TreeOf(names), fs, L.ROOT, i + 2);
    SameThere(TreeOf(names), fs, L.ROOT, j + 2);
    RootSlot(names, fs, i);
    RootSlot(names, fs, j);
    BadPair(fs, t, L.ROOT, i + 2, j + 2);
  }

  // ---------- the image ----------

  function KindOf(kind: int): L.Kind
  {
    if kind == C.T_DIR then L.Dir else if kind == T_FILE then L.File else L.Dev
  }

  // The directories of a file system.
  ghost function Tree(fs: Fs): L.Fs
  {
    map i | 0 <= i < |fs.inodes| && fs.inodes[i].kind != 0 ::
      L.Inode(KindOf(fs.inodes[i].kind), fs.inodes[i].nlink,
              if fs.inodes[i].kind == C.T_DIR then Entries(Contents(fs, i)) else [])
  }

  // The inodes once the files named have been made.
  ghost predicate Made(fs: Fs, n: nat)
  {
    && n + 1 < |fs.inodes| && fs.inodes[0].kind == 0
    && fs.inodes[L.ROOT].kind == C.T_DIR && fs.inodes[L.ROOT].nlink == 1
    && (forall i :: 2 <= i <= n + 1 ==> fs.inodes[i].kind == T_FILE && fs.inodes[i].nlink == 1)
    && (forall i :: n + 1 < i < |fs.inodes| ==> fs.inodes[i].kind == 0)
  }

  lemma TreeAt(fs: Fs, i: int)
    ensures i in Tree(fs) <==> 0 <= i < |fs.inodes| && fs.inodes[i].kind != 0
    ensures i in Tree(fs) ==>
              && Tree(fs)[i].kind == KindOf(fs.inodes[i].kind) && Tree(fs)[i].nlink == fs.inodes[i].nlink
              && Tree(fs)[i].entries == if fs.inodes[i].kind == C.T_DIR then Entries(Contents(fs, i)) else []
  {
  }

  // Inode i of the image is that of the tree, the root's entries padded.
  lemma MadeAt(fs: Fs, names: seq<seq<int>>, pad: nat, i: int)
    requires Made(fs, |names|) && Entries(Contents(fs, L.ROOT)) == RootEntries(names) + Pad(pad)
    ensures i in Tree(fs) <==> i in TreeOf(names)
    ensures i in Tree(fs) ==>
              Tree(fs)[i].kind == TreeOf(names)[i].kind && Tree(fs)[i].nlink == TreeOf(names)[i].nlink == 1
    ensures i in Tree(fs) && i != L.ROOT ==> Tree(fs)[i].entries == TreeOf(names)[i].entries == []
    ensures L.ROOT in Tree(fs) && Tree(fs)[L.ROOT].entries == TreeOf(names)[L.ROOT].entries + Pad(pad)
  {
    hide Tree, TreeOf, Contents, Entries, RootEntries, Pad;
    TreeAt(fs, i);
    TreeAt(fs, L.ROOT);
    TreeOfAt(names, i);
    TreeOfAt(names, L.ROOT);
  }

  lemma PadAt(n: nat)
    ensures forall k :: 0 <= k < n ==> Pad(n)[k] == L.Entry("", 0)
  {
  }

  lemma MadeSlot(fs: Fs, names: seq<seq<int>>, pad: nat, i: int, k: int)
    requires Made(fs, |names|) && Entries(Contents(fs, L.ROOT)) == RootEntries(names) + Pad(pad)
    ensures L.At(Tree(fs), i, k) == L.At(TreeOf(names), i, k)
  {
    hide Tree, TreeOf, Contents, Entries, RootEntries, Pad, Made;
    MadeAt(fs, names, pad, i);
    PadAt(pad);
  }

  lemma RootPadded(fs: Fs, names: seq<seq<int>>, pad: nat)
    requires Named(names) && |names| + 1 < 0x1_0000
    requires Contents(fs, L.ROOT) == RootBytes(names) + Zeros(C.DIRENT * pad)
    ensures Entries(Contents(fs, L.ROOT)) == RootEntries(names) + Pad(pad)
  {
    hide Entries, Contents, RootBytes, RootEntries, Pad, Zeros, Named;
    RootParsed(names);
    BlankEntries(pad);
    EntriesJoin(RootBytes(names), Zeros(C.DIRENT * pad));
  }

  lemma TreeMade(fs: Fs, names: seq<seq<int>>, pad: nat)
    requires Named(names) && |names| + 1 < 0x1_0000 && Made(fs, |names|)
    requires Contents(fs, L.ROOT) == RootBytes(names) + Zeros(C.DIRENT * pad)
    ensures SameEntries(TreeOf(names), Tree(fs)) && forall i :: i in Tree(fs) ==> Tree(fs)[i].nlink == 1
  {
    hide Tree, TreeOf, Entries, Contents, RootBytes, RootEntries, Made, Pad, Zeros, Named, L.At, SameInodeAt;
    RootPadded(fs, names, pad);
    forall i ensures SameInodeAt(TreeOf(names), Tree(fs), i) && (i in Tree(fs) ==> Tree(fs)[i].nlink == 1) {
      MadeSame(fs, names, pad, i);
    }
    forall i, k ensures SameSlot(TreeOf(names), Tree(fs), i, k) {
      MadeSlot(fs, names, pad, i, k);
    }
  }

  lemma MadeSame(fs: Fs, names: seq<seq<int>>, pad: nat, i: int)
    requires Made(fs, |names|) && Entries(Contents(fs, L.ROOT)) == RootEntries(names) + Pad(pad)
    ensures SameInodeAt(TreeOf(names), Tree(fs), i) && (i in Tree(fs) ==> Tree(fs)[i].nlink == 1)
  {
    hide Tree, TreeOf, Entries, Contents, RootEntries, Pad, Made;
    MadeAt(fs, names, pad, i);
  }

  // The image the kernel starts on is in order exactly if the names are different and none is a dot
  // name.
  lemma ImageBoots(fs: Fs, names: seq<seq<int>>, pad: nat)
    requires Named(names) && |names| + 1 < 0x1_0000 && Made(fs, |names|)
    requires Contents(fs, L.ROOT) == RootBytes(names) + Zeros(C.DIRENT * pad)
    ensures (exists t :: I.Bootable(Tree(fs), t)) <==> Distinct(names)
  {
    hide Contents, RootBytes, Tree, TreeOf, L.Inv, SameEntries, Distinct, Made, Named;
    TreeMade(fs, names, pad);
    if Distinct(names) {
      TreeBoots(names);
      PaddedInv(TreeOf(names), Tree(fs), SHAPE);
      assert I.Bootable(Tree(fs), SHAPE);
    } else {
      forall t ensures !I.Bootable(Tree(fs), t) {
        ClashBreaks(names, Tree(fs), t);
      }
    }
  }

  // ---------- main ----------

  // The blocks of the first k files.
  function FilesBlocks(files: seq<seq<int>>, k: nat): nat
    requires k <= |files|
  {
    if k == 0 then 0 else FilesBlocks(files, k - 1) + SizeBlocks(|files[k - 1]|)
  }

  // The block after the root directory and the first k files.
  function NextBlock(sb: Super, files: seq<seq<int>>, k: nat): int
    requires k <= |files|
  {
    DataStart(sb) + SizeBlocks(C.DIRENT * (k + 2)) + FilesBlocks(files, k)
  }

  // There are inodes and blocks for the root directory and the first k files, and no file is too long.
  predicate RoomFor(sb: Super, files: seq<seq<int>>, k: nat)
    requires k <= |files|
  {
    && k + 2 <= sb.ninodes && C.DIRENT * (k + 2) <= MAXFILE * BSIZE
    && (forall i :: 0 <= i < k ==> |files[i]| <= MAXFILE * BSIZE)
    && NextBlock(sb, files, k) <= sb.size - sb.nlog
  }

  lemma {:induction false} RoomBefore(sb: Super, files: seq<seq<int>>, k: nat, n: nat)
    requires k <= n <= |files| && RoomFor(sb, files, n)
    ensures RoomFor(sb, files, k)
    decreases n - k
  {
    hide SizeBlocks;
    if k < n {
      SizeGrows(C.DIRENT * (n + 1), C.DIRENT * (n + 2));
      RoomBefore(sb, files, k, n - 1);
    }
  }

  // What one file more takes.
  lemma OneFile(sb: Super, files: seq<seq<int>>, k: nat)
    requires k < |files|
    ensures NextBlock(sb, files, k + 1) == NextBlock(sb, files, k)
              + (SizeBlocks(C.DIRENT * (k + 3)) - SizeBlocks(C.DIRENT * (k + 2))) + SizeBlocks(|files[k]|)
    ensures SizeBlocks(C.DIRENT * (k + 3)) >= SizeBlocks(C.DIRENT * (k + 2)) && SizeBlocks(0) == 0
  {
    SizeGrows(C.DIRENT * (k + 2), C.DIRENT * (k + 3));
  }

  lemma {:induction false} RootLength(names: seq<seq<int>>)
    requires Named(names)
    ensures |RootBytes(names)| == C.DIRENT * (|names| + 2)
  {
    hide C.Dirent, C.Dots;
    if names != [] {
      RootLength(names[..|names| - 1]);
    }
  }

  // The image with the first k files in it.
  ghost predicate Partial(img: Image, names: seq<seq<int>>, files: seq<seq<int>>, k: nat)
    reads img
  {
    && k <= |names| == |files| && Named(names) && img.Valid() && img.freeinode == k + 2 && Made(img.State(), k)
    && |img.inodes| == img.sb.ninodes && RoomFor(img.sb, files, k) && img.freeblock == NextBlock(img.sb, files, k)
    && Contents(img.State(), L.ROOT) == RootBytes(names[..k]) && ZeroTail(img.State(), L.ROOT)
    && forall i :: 0 <= i < k ==> Contents(img.State(), i + 2) == files[i]
  }

  lemma OthersStay(fs: Fs, fs': Fs, i: int, j: int)
    requires OthersSame(fs, fs', i) && j != i
    ensures Contents(fs', j) == Contents(fs, j) && FsSpec.Inode(fs', j) == FsSpec.Inode(fs, j)
    ensures ZeroTail(fs, j) ==> ZeroTail(fs', j)
  {
    assert SameInode(fs, fs', j) && SameBlocks(fs, fs', j);
    SameFile(fs, fs', j, FsSpec.Inode(fs, j).size);
    forall k ensures FileByte(fs', j, k) == FileByte(fs, j, k) {
      assert BlockOf(fs', j, k / BSIZE) == BlockOf(fs, j, k / BSIZE);
    }
  }

  // The root directory with its dots; false where mkfs runs out of blocks.
  method StartRoot(img: Image, ghost names: seq<seq<int>>, ghost files: seq<seq<int>>) returns (ok: bool)
    requires img.Valid() && img.freeinode == 1 && 2 <= |img.inodes|
             && img.inodes == seq(|img.inodes|, _ => FreshInode())
    requires |names| == |files| && Named(names) && |img.inodes| == img.sb.ninodes
    requires img.freeblock == DataStart(img.sb)
    modifies img
    ensures ok <==> RoomFor(img.sb, files, 0)
    ensures ok ==> Partial(img, names, files, 0) && |img.inodes| == old(|img.inodes|)
  {
    hide Sound, Contents, OthersSame, ZeroTail, C.Dirent;
    assert SizeBlocks(C.DIRENT) == SizeBlocks(2 * C.DIRENT) == 1 && SizeBlocks(0) == 0;
    assert NextBlock(img.sb, files, 0) == DataStart(img.sb) + 1;
    ghost var fs0 := img.State();
    var root := img.Ialloc(C.T_DIR);
    ghost var fs1 := img.State();
    ok := img.Iappend(root, C.Dirent(L.ROOT, C.Dots(1)));
    if !ok {
      return;
    }
    ghost var fs2 := img.State();
    ok := img.Iappend(root, C.Dirent(L.ROOT, C.Dots(2)));
    if !ok {
      return;
    }
    OthersStay(fs0, fs1, root, 0);
    OthersStay(fs1, fs2, root, 0);
    OthersStay(fs2, img.State(), root, 0);
    assert names[..0] == [] && [] + C.Dirent(L.ROOT, C.Dots(1)) == C.Dirent(L.ROOT, C.Dots(1));
    MadeNone(img.State());
  }

  // One file: an inode, its entry in the root directory, and its bytes; false where mkfs runs out of
  // inodes or blocks.
  method AddFile(img: Image, names: seq<seq<int>>, files: seq<seq<int>>, k: nat) returns (ok: bool)
    requires Partial(img, names, files, k) && k < |names|
    modifies img
    ensures ok <==> RoomFor(img.sb, files, k + 1)
    ensures ok ==> Partial(img, names, files, k + 1) && |img.inodes| == old(|img.inodes|)
  {
    hide Sound, Contents, OthersSame, ZeroTail, C.Dirent, RootBytes, SizeBlocks, NextBlock;
    ghost var fs0 := img.State();
    OneFile(img.sb, files, k);
    RootLength(names[..k]);
    RootSize(img.State(), names[..k]);
    var inum := img.Ialloc(T_FILE);
    if inum == -1 {
      return false;
    }
    ghost var fs1 := img.State();
    ok := img.Iappend(L.ROOT, C.Dirent(inum, names[k]));
    if !ok {
      return;
    }
    ghost var fs2 := img.State();
    OthersStay(fs1, fs2, L.ROOT, inum);
    ok := img.Iappend(inum, files[k]);
    if !ok {
      return;
    }
    RootOne(names, k);
    assert [] + files[k] == files[k];
    OthersStay(fs0, fs1, inum, L.ROOT);
    OthersStay(fs2, img.State(), inum, L.ROOT);
    forall i | i != inum && i != L.ROOT
      ensures Contents(img.State(), i) == Contents(fs0, i) && FsSpec.Inode(img.State(), i) == FsSpec.Inode(fs0, i) {
      OthersStay(fs0, fs1, inum, i);
      OthersStay(fs1, fs2, L.ROOT, i);
      OthersStay(fs2, img.State(), inum, i);
    }
    MadeOne(fs0, img.State(), k);
  }

  lemma RootSize(fs: Fs, names: seq<seq<int>>)
    requires Contents(fs, L.ROOT) == RootBytes(names)
    ensures FsSpec.Inode(fs, L.ROOT).size == |RootBytes(names)|
  {
  }

  lemma RootOne(names: seq<seq<int>>, k: nat)
    requires k < |names|
    ensures RootBytes(names[..k + 1]) == RootBytes(names[..k]) + C.Dirent(k + 2, names[k])
  {
    assert names[..k + 1][..k] == names[..k];
  }

  lemma MadeNone(fs: Fs)
    requires L.ROOT < |fs.inodes| && FsSpec.Inode(fs, 0).kind == 0
    requires fs.inodes[L.ROOT].kind == C.T_DIR && fs.inodes[L.ROOT].nlink == 1
    requires forall i :: 2 <= i < |fs.inodes| ==> fs.inodes[i] == FreshInode()
    ensures Made(fs, 0)
  {
  }

  lemma MadeOne(fs: Fs, fs': Fs, k: nat)
    requires Made(fs, k) && |fs'.inodes| == |fs.inodes| && k + 2 < |fs.inodes|
    requires forall i :: i != k + 2 && i != L.ROOT ==> FsSpec.Inode(fs', i) == FsSpec.Inode(fs, i)
    requires FsSpec.Inode(fs', L.ROOT).kind == C.T_DIR && FsSpec.Inode(fs', L.ROOT).nlink == 1
    requires FsSpec.Inode(fs', k + 2).kind == T_FILE && FsSpec.Inode(fs', k + 2).nlink == 1
    ensures Made(fs', k + 1)
  {
    forall i | 0 <= i < |fs'.inodes|
      ensures fs'.inodes[i] == FsSpec.Inode(fs', i) && fs.inodes[i] == FsSpec.Inode(fs, i) {
    }
  }

  // The image mkfs makes of the files: what each holds, and when the kernel can start on it. ok is that
  // there were inodes and blocks enough, which mkfs does not check.
  method MakeImage(sb: Super, names: seq<seq<int>>, files: seq<seq<int>>) returns (img: Image, ok: bool)
    requires DataStart(sb) <= sb.size - sb.nlog && 2 <= sb.ninodes <= 0x1_0000 && Named(names) && |names| == |files|
    ensures fresh(img) && (ok <==> RoomFor(sb, files, |files|))
    ensures ok ==> Made(img.State(), |names|) && forall i :: 0 <= i < |names| ==>
              Contents(img.State(), i + 2) == files[i]
    ensures ok ==> ((exists t :: I.Bootable(Tree(img.State()), t)) <==> Distinct(names))
  {
    hide Sound, Contents, OthersSame, ZeroTail, RootBytes, Tree, Distinct, Named, Made, RoomFor, NextBlock;
    img := new Image(sb);
    if RoomFor(sb, files, |files|) {
      RoomBefore(sb, files, 0, |files|);
    }
    ok := StartRoot(img, names, files);
    if !ok {
      return;
    }
    var k := 0;
    while k < |names|
      invariant k <= |names| && Partial(img, names, files, k) && fresh(img) && |img.inodes| == sb.ninodes
    {
      if RoomFor(sb, files, |files|) {
        RoomBefore(sb, files, k + 1, |files|);
      }
      ok := AddFile(img, names, files, k);
      if !ok {
        return;
      }
      k := k + 1;
    }
    assert names[..k] == names;
    ghost var fs := img.State();
    MadeSize(fs, |names|);
    var size := (img.inodes[L.ROOT].size / BSIZE + 1) * BSIZE;
    ghost var pad := Rounded(fs, names, size);
    img.inodes := img.inodes[L.ROOT := img.inodes[L.ROOT].(size := size)];
    assert img.State() == Resized(fs, L.ROOT, size);
    RoundedMade(fs, |names|, size);
    forall i | 0 <= i < |names| ensures Contents(img.State(), i + 2) == files[i] {
      RoundedOthers(fs, i + 2, size);
    }
    ImageBoots(img.State(), names, pad);
    ok := true;
  }

  lemma MadeSize(fs: Fs, n: nat)
    requires Made(fs, n)
    ensures n + 1 < |fs.inodes| && L.ROOT < |fs.inodes|
  {
  }

  // Rounding up the root directory's size adds empty slots.
  lemma Rounded(fs: Fs, names: seq<seq<int>>, size: nat) returns (pad: nat)
    requires 0 <= L.ROOT < |fs.inodes| && Named(names) && |names| + 1 < 0x1_0000
    requires Contents(fs, L.ROOT) == RootBytes(names) && ZeroTail(fs, L.ROOT)
    requires size == (fs.inodes[L.ROOT].size / BSIZE + 1) * BSIZE
    ensures Contents(Resized(fs, L.ROOT, size), L.ROOT) == RootBytes(names) + Zeros(C.DIRENT * pad)
  {
    hide Contents, RootBytes, Zeros, Named, ZeroTail;
    RootParsed(names);
    var was := fs.inodes[L.ROOT].size;
    RoundedBytes(fs, size);
    pad := RoundedPad(|names|, was, size);
  }

  lemma RoundedPad(n: nat, was: nat, size: nat) returns (pad: nat)
    requires was == C.DIRENT * (n + 2) && size == (was / BSIZE + 1) * BSIZE
    ensures size - was == C.DIRENT * pad
  {
    pad := 32 * (was / BSIZE + 1) - (n + 2);
  }

  lemma RoundedBytes(fs: Fs, size: nat)
    requires 0 <= L.ROOT < |fs.inodes| && fs.inodes[L.ROOT].size <= size && ZeroTail(fs, L.ROOT)
    ensures |Contents(fs, L.ROOT)| == fs.inodes[L.ROOT].size
    ensures Contents(Resized(fs, L.ROOT, size), L.ROOT) == Contents(fs, L.ROOT) + Zeros(size - fs.inodes[L.ROOT].size)
  {
    hide FileByte;
    var x, y := Contents(Resized(fs, L.ROOT, size), L.ROOT),
        Contents(fs, L.ROOT) + Zeros(size - fs.inodes[L.ROOT].size);
    forall k | 0 <= k < size ensures x[k] == y[k] {
      ResizedByte(fs, L.ROOT, size, k);
    }
  }

  lemma ResizedByte(fs: Fs, ino: int, size: nat, k: int)
    requires 0 <= ino < |fs.inodes|
    ensures FileByte(Resized(fs, ino, size), ino, k) == FileByte(fs, ino, k)
  {
    assert Addr(Resized(fs, ino, size), Data(ino, k / BSIZE)) == Addr(fs, Data(ino, k / BSIZE));
  }

  lemma RoundedMade(fs: Fs, n: nat, size: nat)
    requires Made(fs, n)
    ensures Made(Resized(fs, L.ROOT, size), n)
  {
  }

  lemma RoundedOthers(fs: Fs, i: int, size: nat)
    requires 0 <= L.ROOT < |fs.inodes| && i != L.ROOT
    ensures Contents(Resized(fs, L.ROOT, size), i) == Contents(fs, i)
  {
    var fs' := Resized(fs, L.ROOT, size);
    forall bn ensures BlockOf(fs', i, bn) == BlockOf(fs, i, bn) {
      assert Addr(fs', Data(i, bn)) == Addr(fs, Data(i, bn));
    }
    SameFile(fs, fs', i, FsSpec.Inode(fs, i).size);
  }
}
