/**
 dirlookup, dirlink (fs.c), the entry removal of sys_unlink and isdirempty (sysfile.c), over directories stored as
 files.
 */
module DirectoryOps {
  import opened Bytes
  import opened FsImage
  import opened FileWrite
  import opened Directory
  import opened DiskInode
  import opened Fs

  /** Inode dp is a directory whose names are unique. */
  ghost predicate IsDir(im: Image, dp: nat) {
    && dp < |im.inodes| && im.inodes[dp].typ == T_DIR && im.inodes[dp].size % 16 == 0
    && Unique(EntriesOf(im, dp))
  }

  ghost function EntriesOf(im: Image, dp: nat): seq<Dirent>
    requires dp < |im.inodes|
  {
    Entries(Data(im, dp, im.inodes[dp].size))
  }

  /** The directory as a finite map. */
  ghost function MapOf(im: Image, dp: nat): map<seq<byte>, ushort>
    requires dp < |im.inodes|
  {
    DirMap(EntriesOf(im, dp))
  }

  /** ((struct dirent*)bp->data)[d] */
  function EntryIn(bp: Block, d: nat): Dirent
    requires d < 32
  {
    Decode(bp[16 * d..16 * d + 16])
  }

  /** The 16 bytes at entry k of inode dp. */
  function RawEntry(im: Image, dp: nat, k: nat): (e: seq<byte>)
    ensures |e| == 16
  {
    Data(im, dp, 16 * k + 16)[16 * k..]
  }

  lemma EntryBytes(im: Image, dp: nat, b: nat, d: nat)
    requires Quiet(im) && dp < |im.inodes| && d < 32 && Addr(im, DataSlot(dp, b)) != 0
    ensures Addr(im, DataSlot(dp, b)) < |im.disk|
    ensures im.disk[Addr(im, DataSlot(dp, b))][16 * d..16 * d + 16] == RawEntry(im, dp, 32 * b + d)
  {
    hide BitmapExact, FreeBlocksZero, NoHoles, TailZero, Addr;
    var a := Addr(im, DataSlot(dp, b));
    assert a in im.owner;
    var e := im.disk[a][16 * d..16 * d + 16];
    forall j | 0 <= j < 16
      ensures e[j] == RawEntry(im, dp, 32 * b + d)[j]
    {
      assert (16 * (32 * b + d) + j) / 512 == b && (16 * (32 * b + d) + j) % 512 == 16 * d + j;
    }
  }

  /** Entry d of block b: an entry of the directory, or past its end and then unused. */
  lemma BlockEntry(im: Image, dp: nat, b: nat, d: nat)
    requires Quiet(im) && dp < |im.inodes| && im.inodes[dp].size % 16 == 0 && 512 * b < im.inodes[dp].size && d < 32
    requires Addr(im, DataSlot(dp, b)) != 0
    ensures Addr(im, DataSlot(dp, b)) < |im.disk|
    ensures 32 * b + d < |EntriesOf(im, dp)| ==>
            EntryIn(im.disk[Addr(im, DataSlot(dp, b))], d) == EntriesOf(im, dp)[32 * b + d]
    ensures 32 * b + d >= |EntriesOf(im, dp)| ==> EntryIn(im.disk[Addr(im, DataSlot(dp, b))], d).inum == 0
  {
    hide Inv, Key, Addr, ByteAt;
    EntryBytes(im, dp, b, d);
    var k, size := 32 * b + d, im.inodes[dp].size;
    var e := im.disk[Addr(im, DataSlot(dp, b))][16 * d..16 * d + 16];
    if k < size / 16 {
      assert e == Data(im, dp, size)[16 * k..16 * k + 16];
    } else {
      PastEnd(im, dp, b, d);
      assert e[0] == 0 && e[1] == 0;
    }
  }

  lemma PastEnd(im: Image, dp: nat, b: nat, d: nat)
    requires Quiet(im) && dp < |im.inodes| && 512 * b < im.inodes[dp].size <= 16 * (32 * b + d) && d < 32
    ensures ByteAt(im, dp, 16 * (32 * b + d) + 0) == 0 && ByteAt(im, dp, 16 * (32 * b + d) + 1) == 0
  {
    hide Refs, BitmapExact, FreeBlocksZero, NoHoles, Owns, ByteAt;
    assert im.len[dp] == im.inodes[dp].size;
  }

  /** The first entry for name in one block, 32 if there is none: dirlookup's inner loop. */
  method FindInBlock(bp: Block, name: seq<byte>) returns (d: nat)
    ensures d <= 32
    ensures forall j :: 0 <= j < d ==> EntryIn(bp, j).inum == 0 || EntryIn(bp, j).key != Key(name)
    ensures d < 32 ==> EntryIn(bp, d).inum != 0 && EntryIn(bp, d).key == Key(name)
  {
    hide Key;
    d := 0;
    while d < 32
      invariant d <= 32
      invariant forall j :: 0 <= j < d ==> EntryIn(bp, j).inum == 0 || EntryIn(bp, j).key != Key(name)
    {
      var de := bp[16 * d..16 * d + 16];
      if Get16(de, 0) != 0 {
        var c := Namecmp(name, de[2..]);
        if c == 0 {
          return;
        }
      }
      d := d + 1;
    }
  }

  /** No entry below n is live under this name. */
  ghost predicate NoneBelow(es: seq<Dirent>, n: nat, key: seq<byte>) {
    forall k: nat :: k < n ==> !Live(es, k, key)
  }

  /** What scanning block b of dp tells. */
  lemma ScannedBlock(im: Image, dp: nat, b: nat, d: nat, key: seq<byte>)
    requires Quiet(im) && dp < |im.inodes| && im.inodes[dp].size % 16 == 0 && 512 * b < im.inodes[dp].size && d <= 32
    requires Addr(im, DataSlot(dp, b)) != 0
    ensures Addr(im, DataSlot(dp, b)) < |im.disk|
    ensures var bp := im.disk[Addr(im, DataSlot(dp, b))];
            (forall j :: 0 <= j < d ==> EntryIn(bp, j).inum == 0 || EntryIn(bp, j).key != key)
                && NoneBelow(EntriesOf(im, dp), 32 * b, key)
            ==> NoneBelow(EntriesOf(im, dp), 32 * b + d, key)
    ensures var bp := im.disk[Addr(im, DataSlot(dp, b))];
            d < 32 && EntryIn(bp, d).inum != 0 ==>
              32 * b + d < |EntriesOf(im, dp)| && EntriesOf(im, dp)[32 * b + d] == EntryIn(bp, d)
  {
    hide EntryIn, EntriesOf, Inv, Addr, Key;
    BlockEntry(im, dp, b, 0);
    if d < 32 {
      BlockEntry(im, dp, b, d);
    }
    var bp, es := im.disk[Addr(im, DataSlot(dp, b))], EntriesOf(im, dp);
    if (forall j :: 0 <= j < d ==> EntryIn(bp, j).inum == 0 || EntryIn(bp, j).key != key)
        && NoneBelow(es, 32 * b, key) {
      forall k: nat | 32 * b <= k < 32 * b + d
        ensures !Live(es, k, key)
      {
        BlockEntry(im, dp, b, k - 32 * b);
      }
    }
  }

  /** inum 0: no such name. The scan covers whole blocks, so it runs past the end of the directory. */
  method Dirlookup(fs: FileSystem, dp: nat, name: seq<byte>) returns (inum: ushort, off: nat)
    requires fs.Valid() && IsDir(fs.Img(), dp)
    modifies fs
    ensures fs.Img() == old(fs.Img())
    ensures inum != 0 <==> Key(name) in MapOf(fs.Img(), dp)
    ensures inum != 0 ==> MapOf(fs.Img(), dp)[Key(name)] == inum
    ensures inum != 0 ==>
            off % 16 == 0 && Live(EntriesOf(fs.Img(), dp), off / 16, Key(name))
            && EntriesOf(fs.Img(), dp)[off / 16].inum == inum
  {
    hide Key, Refs, Owns, BitmapExact, FreeBlocksZero, NoHoles, TailZero, ByteAt, SameBytes, Entries, DirMap, Data,
         Addr, NoneBelow, FreeCount, Mapped, Synced, GetInode;
    ghost var im := fs.Img();
    ghost var es := EntriesOf(im, dp);
    DirMapIff(es, Key(name));
    NoneBelowZero(es, Key(name));
    off := 0;
    while off < fs.inodes[dp].size
      invariant off % 512 == 0 && fs.Img() == im
      invariant NoneBelow(es, off / 16, Key(name))
      decreases im.inodes[dp].size - off
    {
      var addr := fs.Bmap(dp, off / 512);
      MappedExisting(im, fs.Img(), dp, off / 512);
      ScannedBlock(im, dp, off / 512, 0, Key(name));
      var d := FindInBlock(fs.disk[addr], name);
      ScannedBlock(im, dp, off / 512, d, Key(name));
      if d < 32 {
        inum := Get16(fs.disk[addr][16 * d..16 * d + 16], 0);
        off := off + 16 * d;
        assert Live(es, off / 16, Key(name));
        return;
      }
      off := off + 512;
    }
    NoneAtAll(im, dp, off / 16, Key(name));
    inum := 0;
  }

  lemma NoneBelowZero(es: seq<Dirent>, key: seq<byte>)
    ensures NoneBelow(es, 0, key)
  {
  }

  lemma NoneAtAll(im: Image, dp: nat, n: nat, key: seq<byte>)
    requires dp < |im.inodes| && im.inodes[dp].size <= 16 * n && NoneBelow(EntriesOf(im, dp), n, key)
    ensures forall k: nat :: !Live(EntriesOf(im, dp), k, key)
  {
  }

  /* Changing entries */

  /** Writing one 16-byte entry into slot k of directory dp, or just past the last one. */
  lemma EntryWritten(im0: Image, im: Image, dp: nat, k: nat, e: seq<byte>)
    requires dp < |im0.inodes| && im0.inodes[dp].size % 16 == 0 && 16 * k <= im0.inodes[dp].size && |e| == 16
    requires WriteDone(im0, im, dp, 16 * k, e)
    ensures im.inodes[dp].size % 16 == 0 && im.inodes[dp].typ == im0.inodes[dp].typ
    ensures EntriesOf(im, dp) == Put(EntriesOf(im0, dp), k, Decode(e))
  {
    hide Quiet, Synced, OthersSame, FreeCount, AllBlocks, Decode, ByteAt;
    EntriesOverwrite(Data(im0, dp, im0.inodes[dp].size), k, e);
    assert |Data(im, dp, im.inodes[dp].size)| == im.inodes[dp].size;
  }

  lemma EntriesLength(im: Image, dp: nat)
    requires dp < |im.inodes|
    ensures |EntriesOf(im, dp)| == im.inodes[dp].size / 16
  {
  }

  /** There is an unused entry, or the directory can grow by one. */
  ghost predicate CanLink(im: Image, dp: nat) {
    && dp < |im.inodes| == |im.len|
    && ((exists k :: 0 <= k < |EntriesOf(im, dp)| && EntriesOf(im, dp)[k].inum == 0)
        || Room(im, dp, im.inodes[dp].size + 16))
  }

  lemma ReadEntry(im: Image, dp: nat, k: nat, de: seq<byte>)
    requires dp < |im.inodes| && im.inodes[dp].size % 16 == 0 && 16 * k < im.inodes[dp].size
    requires de == Data(im, dp, im.inodes[dp].size)[16 * k..16 * k + 16]
    ensures k < |EntriesOf(im, dp)| && |de| == 16 && Decode(de) == EntriesOf(im, dp)[k]
  {
  }

  /** readi of one entry; the panics on a short read cannot happen. */
  method ReadDirent(fs: FileSystem, dp: nat, off: nat) returns (de: seq<byte>)
    requires fs.Valid() && IsDir(fs.Img(), dp) && off % 16 == 0 && off < fs.inodes[dp].size
    modifies fs
    ensures fs.Img() == old(fs.Img()) && |de| == 16
    ensures off / 16 < |EntriesOf(fs.Img(), dp)| && Decode(de) == EntriesOf(fs.Img(), dp)[off / 16]
            && Decode(de).inum == Get16(de, 0)
  {
    hide Inv, Settled, Synced, EntriesOf, Unique, Decode;
    SizeBound(fs.Img(), dp);
    var r;
    r, de := fs.Readi(dp, off, 16);
    ReadEntry(fs.Img(), dp, off / 16, de);
    DecodeInum(de);
  }

  /** Slot of the first unused entry, or the number of entries: the loop of dirlink. */
  method FindUnused(fs: FileSystem, dp: nat) returns (off: nat)
    requires fs.Valid() && IsDir(fs.Img(), dp)
    modifies fs
    ensures fs.Img() == old(fs.Img())
    ensures off % 16 == 0 && off <= fs.inodes[dp].size
    ensures forall k :: 0 <= k < off / 16 && k < |EntriesOf(fs.Img(), dp)| ==> EntriesOf(fs.Img(), dp)[k].inum != 0
    ensures off < fs.inodes[dp].size ==>
            off / 16 < |EntriesOf(fs.Img(), dp)| && EntriesOf(fs.Img(), dp)[off / 16].inum == 0
  {
    hide Inv, Settled, Synced, EntriesOf, Unique, Decode;
    ghost var im := fs.Img();
    off := 0;
    while off < fs.inodes[dp].size
      invariant off % 16 == 0 && off <= im.inodes[dp].size && fs.Img() == im
      invariant forall k :: 0 <= k < off / 16 && k < |EntriesOf(im, dp)| ==> EntriesOf(im, dp)[k].inum != 0
      decreases im.inodes[dp].size - off
    {
      var de := ReadDirent(fs, dp, off);
      if Get16(de, 0) == 0 {
        return;
      }
      off := off + 16;
    }
  }

  lemma DecodeInum(e: seq<byte>)
    requires |e| == 16
    ensures Decode(e).inum == Get16(e, 0)
  {
  }

  lemma SizeBound(im: Image, dp: nat)
    requires Quiet(im) && dp < |im.inodes|
    ensures im.inodes[dp].size <= MAXBYTES && |im.len| == |im.inodes|
  {
    assert im.len[dp] == im.inodes[dp].size;
  }

  /** Live entries, but those of key, stay where they are. */
  ghost predicate Stay(es0: seq<Dirent>, es: seq<Dirent>, key: Name) {
    forall k: nat, n :: Live(es0, k, n) && n != key ==> Live(es, k, n)
  }

  lemma PutStays(es: seq<Dirent>, k: nat, e: Dirent, key: Name)
    requires k <= |es| && (k < |es| && es[k].inum != 0 ==> es[k].key == key)
    ensures Stay(es, Put(es, k, e), key)
  {
  }

  /** -1 and nothing changed when the name is taken, otherwise the map gains name := inum and no other file changes. */
  method Dirlink(fs: FileSystem, dp: nat, name: seq<byte>, inum: ushort) returns (r: int)
    requires fs.Valid() && IsDir(fs.Img(), dp) && inum != 0 && CanLink(fs.Img(), dp)
    modifies fs
    ensures fs.Valid() && (r == 0 || r == -1)
    ensures r == -1 <==> Key(name) in MapOf(old(fs.Img()), dp)
    ensures r == -1 ==> fs.Img() == old(fs.Img())
    ensures r == 0 ==> IsDir(fs.Img(), dp) && MapOf(fs.Img(), dp) == MapOf(old(fs.Img()), dp)[Key(name) := inum]
    ensures r == 0 ==> OthersSame(old(fs.Img()), fs.Img(), dp)
    ensures r == 0 ==> Stay(EntriesOf(old(fs.Img()), dp), EntriesOf(fs.Img(), dp), Key(name))
    ensures r == 0 ==> fs.inodes[dp] == old(fs.inodes[dp]).(size := fs.inodes[dp].size, addrs := fs.inodes[dp].addrs)
    ensures r == 0 ==> fs.inodes[dp].size <= old(fs.inodes[dp].size) + 16
    ensures r == 0 ==>
              FreeCount(fs.Img()) ==
              FreeCount(old(fs.Img())) - (AllBlocks(fs.inodes[dp].size) - AllBlocks(old(fs.inodes[dp].size)))
  {
    hide Inv, Settled, Synced, EntriesOf, Unique, Key, DirMap, Room, Data, FreeCount, AllBlocks, Decode, Encode,
         Overwrite, OthersSame, Stay, Live;
    ghost var im0 := fs.Img();
    var found, _ := Dirlookup(fs, dp, name);
    if found != 0 {
      return -1;
    }
    var off := FindUnused(fs, dp);
    var s := Strncpy(name);
    SizeBound(im0, dp);
    EntriesLength(im0, dp);
    DecodeEncode(inum, s);
    RoomForEntry(im0, dp, off);
    var e := Encode(inum, s);
    var w := fs.Writei(dp, e, off);
    assert e[..w] == e && 16 * (off / 16) == off;
    EntryWritten(im0, fs.Img(), dp, off / 16, e);
    WrittenSize(im0, fs.Img(), dp, off, e);
    PutInsert(EntriesOf(im0, dp), off / 16, Dirent(inum, Key(name)));
    PutStays(EntriesOf(im0, dp), off / 16, Dirent(inum, Key(name)), Key(name));
    return 0;
  }

  lemma WrittenSize(im0: Image, im: Image, dp: nat, off: nat, e: seq<byte>)
    requires dp < |im0.inodes| && WriteDone(im0, im, dp, off, e) && |e| == 16 && off <= im0.inodes[dp].size
    ensures im.inodes[dp].size <= im0.inodes[dp].size + 16
  {
    hide Inv, Settled, Synced, FreeCount, AllBlocks;
    OverwriteAt(Data(im0, dp, im0.inodes[dp].size), off, e);
    assert |Data(im, dp, im.inodes[dp].size)| == im.inodes[dp].size;
  }

  lemma RoomForEntry(im: Image, dp: nat, off: nat)
    requires Quiet(im) && dp < |im.inodes| == |im.len| && CanLink(im, dp) && off % 16 == 0
             && off <= im.inodes[dp].size && im.inodes[dp].size % 16 == 0
    requires forall k :: 0 <= k < off / 16 && k < |EntriesOf(im, dp)| ==> EntriesOf(im, dp)[k].inum != 0
    ensures Room(im, dp, off + 16) && off + 16 <= MAXBYTES
  {
    hide Shape, Refs, Owns, BitmapExact, FreeBlocksZero, NoHoles, TailZero, Entries;
    SizeBound(im, dp);
    EntriesLength(im, dp);
    CountFree(im);
    if off < im.inodes[dp].size {
      assert Max(im.len[dp], off + 16) == im.len[dp];
    }
  }

  lemma CountFree(im: Image)
    requires Inv(im)
    ensures FreeCount(im) >= 0
  {
    hide Refs, BitmapExact, FreeBlocksZero, NoHoles, TailZero;
    var owned: set<int> := im.owner.Keys;
    assert |owned| == |im.owner|;
    RangeSize(im.g.DataStart(), im.g.size);
    SubsetSize(owned, Range(im.g.DataStart(), im.g.size));
  }

  /** sys_unlink zeroes the entry it found (sysfile.c:198-200): the name is gone from the map, nothing else. */
  method RemoveEntry(fs: FileSystem, dp: nat, off: nat, ghost key: seq<byte>)
    requires fs.Valid() && IsDir(fs.Img(), dp) && off % 16 == 0 && Live(EntriesOf(fs.Img(), dp), off / 16, key)
    modifies fs
    ensures fs.Valid() && IsDir(fs.Img(), dp) && MapOf(fs.Img(), dp) == MapOf(old(fs.Img()), dp) - {key}
    ensures OthersSame(old(fs.Img()), fs.Img(), dp) && Stay(EntriesOf(old(fs.Img()), dp), EntriesOf(fs.Img(), dp), key)
    ensures fs.inodes[dp] == old(fs.inodes[dp]).(size := fs.inodes[dp].size, addrs := fs.inodes[dp].addrs)
  {
    hide Inv, Settled, Synced, EntriesOf, Unique, Key, DirMap, Room, Data, FreeCount, AllBlocks, Overwrite,
         OthersSame, Stay;
    ghost var im0 := fs.Img();
    SizeBound(im0, dp);
    EntriesLength(im0, dp);
    var de: seq<byte> := seq(16, _ => 0);
    RoomInside(im0, dp, off);
    var w := fs.Writei(dp, de, off);
    assert de[..w] == de && 16 * (off / 16) == off;
    EntryWritten(im0, fs.Img(), dp, off / 16, de);
    PutRemove(EntriesOf(im0, dp), off / 16, Decode(de));
    PutStays(EntriesOf(im0, dp), off / 16, Decode(de), key);
  }

  lemma RoomInside(im: Image, dp: nat, off: nat)
    requires Quiet(im) && dp < |im.inodes| == |im.len| && off + 16 <= im.inodes[dp].size
    ensures Room(im, dp, off + 16)
  {
    CountFree(im);
    assert Max(im.len[dp], off + 16) == im.len[dp];
  }

  /** isdirempty: no live entry apart from the first two. */
  method Isdirempty(fs: FileSystem, dp: nat) returns (r: bool)
    requires fs.Valid() && IsDir(fs.Img(), dp)
    modifies fs
    ensures fs.Img() == old(fs.Img())
    ensures r <==> forall k :: 2 <= k < |EntriesOf(fs.Img(), dp)| ==> EntriesOf(fs.Img(), dp)[k].inum == 0
  {
    hide Inv, Settled, Synced, EntriesOf, Unique, Decode;
    ghost var im := fs.Img();
    EntriesLength(im, dp);
    var off := 32;
    while off < fs.inodes[dp].size
      invariant off % 16 == 0 && fs.Img() == im && off >= 32
      invariant forall k :: 2 <= k < off / 16 && k < |EntriesOf(im, dp)| ==> EntriesOf(im, dp)[k].inum == 0
      decreases im.inodes[dp].size - off
    {
      var de := ReadDirent(fs, dp, off);
      if Get16(de, 0) != 0 {
        return false;
      }
      off := off + 16;
    }
    return true;
  }

  /** A directory that isdirempty accepts holds the names of its first two entries and no others. */
  lemma EmptyDirMap(es: seq<Dirent>, dot: seq<byte>, dotdot: seq<byte>)
    requires Unique(es) && Live(es, 0, dot) && Live(es, 1, dotdot)
    ensures (forall k :: 2 <= k < |es| ==> es[k].inum == 0) <==> DirMap(es).Keys == {dot, dotdot}
  {
    DirMapIff(es, dot);
    DirMapIff(es, dotdot);
    if forall k :: 2 <= k < |es| ==> es[k].inum == 0 {
      forall key | key in DirMap(es)
        ensures key == dot || key == dotdot
      {
        DirMapIff(es, key);
      }
      assert DirMap(es).Keys == {dot, dotdot};
    }
    if DirMap(es).Keys == {dot, dotdot} {
      forall k | 2 <= k < |es|
        ensures es[k].inum == 0
      {
        if es[k].inum != 0 {
          DirMapIff(es, es[k].key);
          assert Live(es, k, es[k].key);
        }
      }
    }
  }
}
