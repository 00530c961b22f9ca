/**
  How the file system lies on the disk (fs.h): the words of the super block, the inodes, the bitmap
  and the data blocks, and the file system read back from them.
 */
module FsDisk {
  import B = BufferCache
  import opened LogSpec
  import opened FsSpec
  import opened FsLog
  import opened FsCrash

  const HALF: int := 0x1_0000
  const WORD: int := 0x1_0000_0000

  // The words of an inode.
  const INODE_WORDS: int := 16

  // The first sector of the bitmap.
  function MapStart(sb: Super): int
  {
    sb.ninodes / IPB + 3
  }

  predicate IsData(sb: Super, s: int)
  {
    DataStart(sb) <= s < sb.size - sb.nlog
  }

  // ---------- onto the disk ----------

  // Word k of an inode: type and major number, minor number and links, size, addresses.
  function InodeWord(d: Dinode, k: int): int
  {
    if k == 0 then d.kind % HALF + HALF * (d.major % HALF)
    else if k == 1 then d.minor % HALF + HALF * (d.nlink % HALF)
    else if k == 2 then d.size % WORD
    else Word(d, k - 3) % WORD
  }

  function Bit(fs: Fs, b: int): int
  {
    if 0 <= b < |fs.bits| && fs.bits[b] then 1 else 0
  }

  // The n bits from b on, the first one lowest.
  function BitWord(fs: Fs, b: int, n: nat): int
    decreases n
  {
    if n == 0 then 0 else Bit(fs, b) + 2 * BitWord(fs, b + 1, n - 1)
  }

  function SuperWord(sb: Super, w: int): int
  {
    (if w == 0 then sb.size else if w == 1 then sb.size - sb.nlog - DataStart(sb)
     else if w == 2 then sb.ninodes else if w == 3 then sb.nlog else 0) % WORD
  }

  // Word w of sector s; the log's own sectors are not the file system's.
  function SectorWord(sb: Super, fs: Fs, s: int, w: int): int
  {
    if s == 1 then SuperWord(sb, w)
    else if 2 <= s < MapStart(sb) then InodeWord(FsSpec.Inode(fs, (s - 2) * IPB + w / INODE_WORDS), w % INODE_WORDS)
    else if MapStart(sb) <= s < DataStart(sb) then BitWord(fs, (s - MapStart(sb)) * BPB + 32 * w, 32)
    else if IsData(sb, s) && s < |fs.blocks| then Entry(fs.blocks[s], w) % WORD
    else 0
  }

  function Sector(sb: Super, fs: Fs, s: int): B.Block
  {
    B.Block(seq(B.WORDS, w => SectorWord(sb, fs, s, w)))
  }

  function Layout32(sb: Super): Encoding
  {
    (fs, s) => Sector(sb, fs, s)
  }

  lemma {:induction false} BitsSame(a: Fs, b: Fs, from: int, n: nat)
    requires forall i :: from <= i < from + n ==> Bit(a, i) == Bit(b, i)
    ensures BitWord(a, from, n) == BitWord(b, from, n)
    decreases n
  {
    if n > 0 {
      BitsSame(a, b, from + 1, n - 1);
    }
  }

  // A sector depends only on what the file system keeps in it.
  lemma LayoutEncodes(sb: Super)
    ensures Encodes(sb, Layout32(sb))
  {
    forall a, b, s | SectorSame(sb, a, b, s) ensures Layout32(sb)(a, s) == Layout32(sb)(b, s) {
      forall w | 0 <= w < B.WORDS ensures SectorWord(sb, a, s, w) == SectorWord(sb, b, s, w) {
        SameWord(sb, a, b, s, w);
      }
    }
  }

  lemma SameWord(sb: Super, a: Fs, b: Fs, s: int, w: int)
    requires SectorSame(sb, a, b, s) && 0 <= w < B.WORDS
    ensures SectorWord(sb, a, s, w) == SectorWord(sb, b, s, w)
  {
    hide SectorSame, BitWord, InodeWord, Entry;
    if 2 <= s < MapStart(sb) {
      SameInodeIn(sb, a, b, s, w / INODE_WORDS);
    } else if MapStart(sb) <= s < DataStart(sb) {
      SameBitsIn(sb, a, b, s, w);
    } else {
      SameBlockIn(sb, a, b, s);
    }
  }

  lemma SameInodeIn(sb: Super, a: Fs, b: Fs, s: int, k: int)
    requires SectorSame(sb, a, b, s) && 2 <= s && 0 <= k < IPB
    ensures FsSpec.Inode(a, (s - 2) * IPB + k) == FsSpec.Inode(b, (s - 2) * IPB + k)
  {
    assert Iblock((s - 2) * IPB + k) == s;
  }

  lemma SameBitsIn(sb: Super, a: Fs, b: Fs, s: int, w: int)
    requires SectorSame(sb, a, b, s) && MapStart(sb) <= s && 0 <= w < B.WORDS
    ensures var from := (s - MapStart(sb)) * BPB + 32 * w; BitWord(a, from, 32) == BitWord(b, from, 32)
  {
    hide Bblock, MapStart, BitWord;
    var from := (s - MapStart(sb)) * BPB + 32 * w;
    forall i | from <= i < from + 32 ensures Bit(a, i) == Bit(b, i) {
      InSector(sb, s, i - (s - MapStart(sb)) * BPB);
    }
    BitsSame(a, b, from, 32);
  }

  lemma InSector(sb: Super, s: int, k: int)
    requires 0 <= k < BPB
    ensures Bblock(sb, (s - MapStart(sb)) * BPB + k) == s
  {
  }

  lemma SameBlockIn(sb: Super, a: Fs, b: Fs, s: int)
    requires SectorSame(sb, a, b, s)
    ensures |a.blocks| == |b.blocks| && (0 <= s < |a.blocks| ==> a.blocks[s] == b.blocks[s])
  {
  }

  // ---------- off the disk ----------

  function WordAt(d: B.Disk, s: int, w: int): (r: int)
    ensures 0 <= r < WORD
  {
    if 0 <= s < |d| && 0 <= w < |d[s].words| then d[s].words[w] % WORD else 0
  }

  predicate BitOf(w: int, k: nat)
    decreases k
  {
    if k == 0 then w % 2 == 1 else BitOf(w / 2, k - 1)
  }

  function DecodeInode(d: B.Disk, i: int): Dinode
  {
    var s, o := Iblock(i), i % IPB * INODE_WORDS;
    Dinode(WordAt(d, s, o) % HALF, WordAt(d, s, o) / HALF, WordAt(d, s, o + 1) % HALF, WordAt(d, s, o + 1) / HALF,
           WordAt(d, s, o + 2), seq(NDIRECT + 1, k => WordAt(d, s, o + 3 + k)))
  }

  function Shift(w: int, k: int): int
  {
    if k == 0 then w else if k == 1 then w / 0x100 else if k == 2 then w / 0x1_0000 else w / 0x100_0000
  }

  function DecodeBlock(d: B.Disk, s: int): Block
  {
    Block(seq(BSIZE, i => Shift(WordAt(d, s, i / 4), i % 4) % 0x100))
  }

  // The file system on a disk.
  function Decode(sb: Super, d: B.Disk): (r: Fs)
    ensures |r.bits| == |r.blocks| == sb.size && |r.inodes| == sb.ninodes
  {
    Fs(seq(sb.size, b => BitOf(WordAt(d, Bblock(sb, b), b % BPB / 32), b % 32)),
       seq(sb.ninodes, i => DecodeInode(d, i)),
       seq(sb.size, b => if IsData(sb, b) then DecodeBlock(d, b) else Zero()))
  }

  // d holds fs outside the log.
  ghost predicate Holds(sb: Super, d: B.Disk, fs: Fs)
  {
    && |d| == sb.size && DataStart(sb) <= sb.size - sb.nlog
    && forall s :: 0 <= s < sb.size - sb.nlog ==> d[s] == Sector(sb, fs, s)
  }

  lemma HoldsWord(sb: Super, d: B.Disk, fs: Fs, s: int, w: int)
    requires Holds(sb, d, fs) && 0 <= s < sb.size - sb.nlog && 0 <= w < B.WORDS
    ensures WordAt(d, s, w) == SectorWord(sb, fs, s, w) % WORD
  {
  }

  lemma {:induction false} BitBack(fs: Fs, b: int, n: nat, k: nat)
    requires k < n
    ensures BitOf(BitWord(fs, b, n), k) <==> Bit(fs, b + k) == 1
    decreases n
  {
    var r := BitWord(fs, b + 1, n - 1);
    assert BitWord(fs, b, n) == Bit(fs, b) + 2 * r;
    if k > 0 {
      BitBack(fs, b + 1, n - 1, k - 1);
    }
  }

  lemma {:induction false} BitWordRange(fs: Fs, b: int, n: nat)
    requires n <= 32
    ensures 0 <= BitWord(fs, b, n) < Power(n)
    decreases n
  {
    if n > 0 {
      BitWordRange(fs, b + 1, n - 1);
    }
  }

  function Power(n: nat): int
  {
    if n == 0 then 1 else 2 * Power(n - 1)
  }

  lemma PowerWord()
    ensures Power(32) == WORD
  {
    assert Power(8) == 0x100;
    assert Power(16) == 0x1_0000;
    assert Power(24) == 0x100_0000;
  }

  lemma BitPlace(sb: Super, b: int)
    requires 0 <= b < sb.size
    ensures MapStart(sb) <= Bblock(sb, b) < DataStart(sb) && 0 <= b % BPB / 32 < B.WORDS
    ensures (Bblock(sb, b) - MapStart(sb)) * BPB + 32 * (b % BPB / 32) + b % 32 == b
  {
  }

  lemma DecodedBit(sb: Super, d: B.Disk, fs: Fs, b: int)
    requires Holds(sb, d, fs) && |fs.bits| == sb.size && 0 <= b < sb.size
    ensures Decode(sb, d).bits[b] == fs.bits[b]
  {
    hide Holds, Bblock, BitWord, BitOf, Power, WordAt;
    var s, w := Bblock(sb, b), b % BPB / 32;
    BitPlace(sb, b);
    HoldsSize(sb, d, fs);
    HoldsWord(sb, d, fs, s, w);
    var from := (s - MapStart(sb)) * BPB + 32 * w;
    BitWordRange(fs, from, 32);
    PowerWord();
    BitBack(fs, from, 32, b % 32);
  }

  lemma HoldsSize(sb: Super, d: B.Disk, fs: Fs)
    requires Holds(sb, d, fs)
    ensures |d| == sb.size && DataStart(sb) <= sb.size - sb.nlog
  {
  }

  // ---------- inodes ----------

  // What fits the fields of an inode: the other numbers are cut to 16 bits.
  ghost predicate InodeFits(d: Dinode)
  {
    d.size < WORD && |d.addrs| == NDIRECT + 1 && forall k :: 0 <= k <= NDIRECT ==> 0 <= d.addrs[k] < WORD
  }

  function Cut(d: Dinode): Dinode
  {
    Dinode(d.kind % HALF, d.major % HALF, d.minor % HALF, d.nlink % HALF, d.size, d.addrs)
  }

  lemma DecodedWord(sb: Super, d: B.Disk, fs: Fs, i: int, k: int)
    requires Holds(sb, d, fs) && 0 <= i < sb.ninodes && 0 <= k < INODE_WORDS
    ensures WordAt(d, Iblock(i), i % IPB * INODE_WORDS + k) == InodeWord(FsSpec.Inode(fs, i), k) % WORD
  {
    hide Holds, InodeWord;
    var s, w := Iblock(i), i % IPB * INODE_WORDS + k;
    assert (s - 2) * IPB + w / INODE_WORDS == i && w % INODE_WORDS == k && 2 <= s < MapStart(sb);
    HoldsSize(sb, d, fs);
    HoldsWord(sb, d, fs, s, w);
  }

  lemma TwoHalves(a: int, b: int)
    ensures var w := a % HALF + HALF * (b % HALF);
            0 <= w < WORD && w % HALF == a % HALF && w / HALF == b % HALF
  {
  }

  lemma DecodedInode(sb: Super, d: B.Disk, fs: Fs, i: int)
    requires Holds(sb, d, fs) && 0 <= i < sb.ninodes == |fs.inodes| && InodeFits(fs.inodes[i])
    ensures DecodeInode(d, i) == Cut(fs.inodes[i])
  {
    hide Holds, WordAt, Iblock, DecodeInode;
    DecodedHead(sb, d, fs, i);
    DecodedAddrs(sb, d, fs, i);
  }

  lemma DecodedHead(sb: Super, d: B.Disk, fs: Fs, i: int)
    requires Holds(sb, d, fs) && 0 <= i < sb.ninodes == |fs.inodes| && InodeFits(fs.inodes[i])
    ensures DecodeInode(d, i) == Cut(fs.inodes[i]).(addrs := DecodeInode(d, i).addrs)
  {
    hide Holds, WordAt, Iblock;
    var x := fs.inodes[i];
    DecodedWord(sb, d, fs, i, 0);
    DecodedWord(sb, d, fs, i, 1);
    DecodedWord(sb, d, fs, i, 2);
    TwoHalves(x.kind, x.major);
    TwoHalves(x.minor, x.nlink);
  }

  lemma DecodedAddrs(sb: Super, d: B.Disk, fs: Fs, i: int)
    requires Holds(sb, d, fs) && 0 <= i < sb.ninodes == |fs.inodes| && InodeFits(fs.inodes[i])
    ensures DecodeInode(d, i).addrs == fs.inodes[i].addrs
  {
    hide Holds, WordAt, Iblock;
    var x, r := fs.inodes[i], DecodeInode(d, i);
    forall k | 0 <= k <= NDIRECT ensures r.addrs[k] == x.addrs[k] {
      DecodedWord(sb, d, fs, i, 3 + k);
    }
  }

  // ---------- blocks ----------

  lemma DecodedEntry(sb: Super, d: B.Disk, fs: Fs, s: int, w: int)
    requires Holds(sb, d, fs) && IsData(sb, s) && s < |fs.blocks| && 0 <= w < B.WORDS
    ensures WordAt(d, s, w) == Entry(fs.blocks[s], w) % WORD
    ensures Entry(DecodeBlock(d, s), w) == Entry(fs.blocks[s], w) % WORD
  {
    hide Holds, Entry, WordAt, DecodeBlock;
    HoldsSize(sb, d, fs);
    HoldsWord(sb, d, fs, s, w);
    FourBytes(d, s, w);
  }

  lemma FourBytes(d: B.Disk, s: int, w: int)
    requires 0 <= w < B.WORDS
    ensures Entry(DecodeBlock(d, s), w) == WordAt(d, s, w)
  {
    hide Shift, WordAt, DecodeBlock, ByteAt;
    var b, x := DecodeBlock(d, s), WordAt(d, s, w);
    BlockByte(d, s, w, 0);
    BlockByte(d, s, w, 1);
    BlockByte(d, s, w, 2);
    BlockByte(d, s, w, 3);
    FourShifts(x);
  }

  lemma BlockByte(d: B.Disk, s: int, w: int, k: int)
    requires 0 <= w < B.WORDS && 0 <= k < 4
    ensures ByteAt(DecodeBlock(d, s), 4 * w + k) == Shift(WordAt(d, s, w), k) % 0x100
  {
    hide Shift, WordAt;
    assert (4 * w + k) / 4 == w && (4 * w + k) % 4 == k;
  }

  lemma FourShifts(x: int)
    requires 0 <= x < WORD
    ensures Shift(x, 0) % 0x100 + 0x100 * (Shift(x, 1) % 0x100) + 0x1_0000 * (Shift(x, 2) % 0x100)
            + 0x100_0000 * (Shift(x, 3) % 0x100) == x
  {
    var a := x / 0x100;
    var b := a / 0x100;
    assert b == x / 0x1_0000 && b / 0x100 == x / 0x100_0000 && b / 0x100 < 0x100;
  }

  predicate IsByte(x: int)
  {
    0 <= x < 0x100
  }

  // A byte comes back if it is one, and those before it in its word.
  lemma ByteBack(b: Block, w: int, k: int)
    requires 0 <= k < 4 && forall j :: 4 * w <= j <= 4 * w + k ==> IsByte(ByteAt(b, j))
    ensures Shift(Entry(b, w) % WORD, k) % 0x100 == ByteAt(b, 4 * w + k)
  {
    var x0, x1, x2, x3 := ByteAt(b, 4 * w), ByteAt(b, 4 * w + 1), ByteAt(b, 4 * w + 2), ByteAt(b, 4 * w + 3);
    ShiftSum(x0, x1, x2, x3, k);
  }

  lemma ShiftSum(x0: int, x1: int, x2: int, x3: int, k: int)
    requires 0 <= k < 4 && IsByte(x0) && (k >= 1 ==> IsByte(x1)) && (k >= 2 ==> IsByte(x2)) && (k >= 3 ==> IsByte(x3))
    ensures Shift((x0 + 0x100 * x1 + 0x1_0000 * x2 + 0x100_0000 * x3) % WORD, k) % 0x100 ==
            if k == 0 then x0 else if k == 1 then x1 else if k == 2 then x2 else x3
  {
    var a := x0 + 0x100 * x1 + 0x1_0000 * x2 + 0x100_0000 * x3;
    var m := a % WORD;
    var q := CutWord(a);
    if k == 0 {
      Div8(m, x1 + 0x100 * x2 + 0x1_0000 * x3 - 0x100_0000 * q, x0);
    } else if k == 1 {
      var y := x2 + 0x100 * x3 - 0x1_0000 * q;
      Div8(m, x1 + 0x100 * y, x0);
      Div8(x1 + 0x100 * y, y, x1);
    } else if k == 2 {
      var y := x3 - 0x100 * q;
      Div16(m, x2 + 0x100 * y, x0 + 0x100 * x1);
      Div8(x2 + 0x100 * y, y, x2);
    } else {
      Div24(m, x3 - 0x100 * q, x0 + 0x100 * x1 + 0x1_0000 * x2);
    }
  }

  lemma CutWord(a: int) returns (q: int)
    ensures a % WORD == a - WORD * q && (0 <= a < WORD ==> q == 0)
  {
    q := a / WORD;
  }

  lemma Div8(a: int, q: int, r: int)
    requires a == 0x100 * q + r && 0 <= r < 0x100
    ensures a / 0x100 == q && a % 0x100 == r
  {
  }

  lemma Div16(a: int, q: int, r: int)
    requires a == 0x1_0000 * q + r && 0 <= r < 0x1_0000
    ensures a / 0x1_0000 == q
  {
  }

  lemma Div24(a: int, q: int, r: int)
    requires a == 0x100_0000 * q + r && 0 <= r < 0x100_0000
    ensures a / 0x100_0000 == q
  {
  }

  lemma DecodedByte(sb: Super, d: B.Disk, fs: Fs, s: int, i: int)
    requires Holds(sb, d, fs) && IsData(sb, s) && s < |fs.blocks| && 0 <= i < BSIZE
    requires forall j :: i / 4 * 4 <= j <= i ==> IsByte(ByteAt(fs.blocks[s], j))
    ensures ByteAt(DecodeBlock(d, s), i) == ByteAt(fs.blocks[s], i)
  {
    hide Holds, Entry, Shift, WordAt;
    DecodedEntry(sb, d, fs, s, i / 4);
    ByteBack(fs.blocks[s], i / 4, i % 4);
  }

  // ---------- files ----------

  // Types are 16-bit numbers and files are made of bytes.
  ghost predicate Storable(sb: Super, fs: Fs)
  {
    && sb.size <= WORD && (forall i :: 0 <= FsSpec.Inode(fs, i).kind < HALF)
    && forall i, k :: 0 <= k < FsSpec.Inode(fs, i).size ==> IsByte(FileByte(fs, i, k))
  }

  lemma SoundFits(sb: Super, fs: Fs, owner: Owner, i: int)
    requires Sound(sb, fs, owner) && sb.size <= WORD && 0 <= i < |fs.inodes|
    ensures InodeFits(fs.inodes[i])
  {
    hide Entry;
    assert InodeOk(fs, i) && InodeSound(fs, i);
    assert Mapped(fs, i, MAXFILE, fs.inodes[i].size);
    forall k | 0 <= k <= NDIRECT ensures 0 <= fs.inodes[i].addrs[k] < WORD {
      var q := if k == NDIRECT then Indirect(i) else Data(i, k);
      assert Addr(fs, q) == fs.inodes[i].addrs[k];
      if Addr(fs, q) != 0 {
        AddrRange(sb, fs, owner, q);
      }
    }
  }

  lemma DecodedInodes(sb: Super, d: B.Disk, fs: Fs, owner: Owner, i: int)
    requires Holds(sb, d, fs) && Sound(sb, fs, owner) && Storable(sb, fs)
    ensures var g, x := FsSpec.Inode(Decode(sb, d), i), FsSpec.Inode(fs, i);
            g.kind == x.kind && g.size == x.size && g.addrs == x.addrs && g.nlink == x.nlink % HALF
            && g.major == x.major % HALF && g.minor == x.minor % HALF
  {
    hide Holds, DecodeInode, DecodeBlock, BitOf;
    if 0 <= i < sb.ninodes {
      SoundFits(sb, fs, owner, i);
      DecodedInode(sb, d, fs, i);
    }
  }

  // Every address comes back.
  lemma DecodedAddr(sb: Super, d: B.Disk, fs: Fs, owner: Owner, q: Role)
    requires Holds(sb, d, fs) && Sound(sb, fs, owner) && Storable(sb, fs)
    ensures Addr(Decode(sb, d), q) == Addr(fs, q)
  {
    hide Holds, Entry, Decode, Storable;
    var g := Decode(sb, d);
    DecodedInodes(sb, d, fs, owner, q.ino);
    if q.Data? && NDIRECT <= q.bn < MAXFILE {
      var a := Addr(fs, Indirect(q.ino));
      if a != 0 {
        AddrRange(sb, fs, owner, Indirect(q.ino));
        DecodedEntry(sb, d, fs, a, q.bn - NDIRECT);
        DecodedData(sb, d, a);
        StorableSize(sb, fs);
        if Addr(fs, q) != 0 {
          AddrRange(sb, fs, owner, q);
        }
      }
    }
  }

  lemma StorableSize(sb: Super, fs: Fs)
    requires Storable(sb, fs)
    ensures sb.size <= WORD
  {
  }

  lemma DecodedData(sb: Super, d: B.Disk, a: int)
    requires IsData(sb, a) && 0 <= a < sb.size
    ensures Decode(sb, d).blocks[a] == DecodeBlock(d, a)
  {
  }

  // And every byte of every file.
  lemma DecodedContents(sb: Super, d: B.Disk, fs: Fs, owner: Owner, i: int)
    requires Holds(sb, d, fs) && Sound(sb, fs, owner) && Storable(sb, fs)
    ensures Contents(Decode(sb, d), i) == Contents(fs, i)
  {
    hide Holds, Decode, Addr, ByteAt, DecodeBlock;
    var g := Decode(sb, d);
    DecodedInodes(sb, d, fs, owner, i);
    forall k | 0 <= k < FsSpec.Inode(fs, i).size ensures FileByte(g, i, k) == FileByte(fs, i, k) {
      var q := Data(i, k / BSIZE);
      DecodedAddr(sb, d, fs, owner, q);
      assert InodeSound(fs, i) && Mapped(fs, i, k / BSIZE, FsSpec.Inode(fs, i).size);
      AddrRange(sb, fs, owner, q);
      var a := Addr(fs, q);
      forall j | k % BSIZE / 4 * 4 <= j <= k % BSIZE ensures IsByte(ByteAt(fs.blocks[a], j)) {
        SameBlockByte(fs, i, k, j);
      }
      DecodedByte(sb, d, fs, a, k % BSIZE);
      DecodedData(sb, d, a);
    }
  }

  lemma SameBlockByte(fs: Fs, i: int, k: int, j: int)
    requires 0 <= j <= k % BSIZE && 0 <= k < FsSpec.Inode(fs, i).size
    requires forall x :: 0 <= x < FsSpec.Inode(fs, i).size ==> IsByte(FileByte(fs, i, x))
    requires 0 < Addr(fs, Data(i, k / BSIZE)) < |fs.blocks|
    ensures IsByte(ByteAt(fs.blocks[Addr(fs, Data(i, k / BSIZE))], j))
  {
    hide Addr, ByteAt;
    var x := k - k % BSIZE + j;
    assert x / BSIZE == k / BSIZE && x % BSIZE == j;
    assert IsByte(FileByte(fs, i, x));
  }

  // g is a sound file system with the files of fs.
  ghost predicate SameFiles(sb: Super, g: Fs, fs: Fs, owner: Owner)
  {
    && Sound(sb, g, owner) && g.bits == fs.bits && (forall i :: Contents(g, i) == Contents(fs, i))
    && forall i :: FsSpec.Inode(g, i).kind == FsSpec.Inode(fs, i).kind
  }

  // The file system on a disk that holds a sound one is sound, with the same files.
  lemma DecodeBack(sb: Super, d: B.Disk, fs: Fs, owner: Owner)
    requires Holds(sb, d, fs) && Sound(sb, fs, owner) && Storable(sb, fs)
    ensures SameFiles(sb, Decode(sb, d), fs, owner)
  {
    hide Holds, Decode, Addr, Contents, Storable;
    var g := Decode(sb, d);
    forall b | 0 <= b < sb.size ensures g.bits[b] == fs.bits[b] {
      DecodedBit(sb, d, fs, b);
    }
    assert g.bits == fs.bits;
    forall i ensures InodeOk(g, i) {
      assert InodeOk(fs, i);
      DecodedInodes(sb, d, fs, owner, i);
    }
    forall q ensures RoleOk(g, owner, q) && Addr(g, q) == Addr(fs, q) {
      DecodedAddr(sb, d, fs, owner, q);
      assert RoleOk(fs, owner, q);
    }
    forall b ensures BlockOk(sb, g, owner, b) {
      assert BlockOk(sb, fs, owner, b);
    }
    forall i ensures InodeSound(g, i) && FsSpec.Inode(g, i).kind == FsSpec.Inode(fs, i).kind {
      DecodedInodes(sb, d, fs, owner, i);
      assert InodeSound(fs, i);
      forall bn ensures Mapped(g, i, bn, FsSpec.Inode(g, i).size) {
        assert Mapped(fs, i, bn, FsSpec.Inode(fs, i).size) && Addr(g, Data(i, bn)) == Addr(fs, Data(i, bn));
      }
    }
    forall i ensures Contents(g, i) == Contents(fs, i) {
      DecodedContents(sb, d, fs, owner, i);
    }
  }

  lemma HomeHolds(sb: Super, d: B.Disk, fs: Fs, L: Layout)
    requires DataStart(sb) <= sb.size - sb.nlog && L == Layout(sb.size - sb.nlog, sb.nlog) && |d| == sb.size
    requires SameHome(d, Image(Layout32(sb), fs, |d|), L)
    ensures Holds(sb, d, fs)
  {
    hide Sector;
    forall s | 0 <= s < sb.size - sb.nlog ensures d[s] == Sector(sb, fs, s) {
      assert Home(L, s);
    }
  }

  // A transaction stopped after any disk write and recovered, crashing as often as you like: the file
  // system read from the disk is sound and has the files from before it or those from after it.
  lemma TransactionDecoded(sb: Super, base: Fs, owner: Owner, log: seq<Write>, logged: set<int>, now: Fs, owner': Owner,
                           d: B.Disk, L: Layout, k: nat, crashes: seq<nat>) returns (ss: seq<nat>)
    requires DataStart(sb) <= sb.size - sb.nlog && L == Layout(sb.size - sb.nlog, sb.nlog) && |d| == sb.size
    requires Sound(sb, base, owner) && Storable(sb, base) && Sound(sb, now, owner') && Storable(sb, now)
    requires Covered(sb, base, log, logged, now) && OnDisk(log, |d|)
    requires Loggable(d, L, Updates(Layout32(sb), log, |d|)) && HeadIs(d, L, [])
    requires SameHome(d, Image(Layout32(sb), base, |d|), L)
    requires k < |TransactionImages(d, L, Updates(Layout32(sb), log, |d|))|
    ensures var e := TransactionImages(d, L, Updates(Layout32(sb), log, |d|))[k];
            && Pending(e, L, ss)
            && var (f, tt) := AfterCrashes(e, L, ss, crashes);
               var g := Decode(sb, Recovered(f, L, tt));
               if k <= |log| then SameFiles(sb, g, base, owner) else SameFiles(sb, g, now, owner')
  {
    hide TransactionImages, AfterCrashes, Recovered, Covered, Sound, Storable, Decode, SameFiles;
    LayoutEncodes(sb);
    ss := TransactionAtomic(sb, Layout32(sb), base, log, logged, now, d, L, k, crashes);
    var e := TransactionImages(d, L, Updates(Layout32(sb), log, |d|))[k];
    var (f, tt) := AfterCrashes(e, L, ss, crashes);
    var x := Recovered(f, L, tt);
    HomeHolds(sb, x, if k <= |log| then base else now, L);
    if k <= |log| {
      DecodeBack(sb, x, base, owner);
    } else {
      DecodeBack(sb, x, now, owner');
    }
  }
}
