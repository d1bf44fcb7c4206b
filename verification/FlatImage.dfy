/**
 mkfs (tools/mkfs.c) on a directory of the host that holds files only: add_dir and main. The image is a tree whose link
 counts are exact, so that what FileTree says of runs holds of every run that starts from it.
 */
module FlatImage {
  import opened Bytes
  import opened FsImage
  import opened DiskInode
  import opened FileWrite
  import opened Directory
  import opened DirectoryOps
  import opened SysFile
  import opened Fs
  import opened FileTree
  import opened Mkfs
  import L = LinkCounts

  datatype HostFile = HostFile(name: Name, data: seq<byte>)

  /** The file name that reaches the image is at most 14 bytes; readdir's own "." and ".." are not among the files. */
  ghost predicate Named(files: seq<HostFile>) {
    && |files| <= 65533
    && (forall i :: 0 <= i < |files| ==>
      Key(files[i].name) != DotName() && Key(files[i].name) != DotDotName() && |files[i].data| <= MAXBYTES)
    && forall i, j :: 0 <= i < j < |files| ==> Key(files[i].name) != Key(files[j].name)
  }

  /** The entries of the root directory. */
  function Table(files: seq<HostFile>): (es: seq<Dirent>)
    requires |files| <= 65533
    ensures |es| == |files| + 2
  {
    [Dirent(1, DotName()), Dirent(1, DotDotName())]
    + seq(|files|, i requires 0 <= i < |files| => Dirent(2 + i, Key(files[i].name)))
  }

  function BlocksFor(files: seq<HostFile>): nat {
    if files == [] then 0 else BlocksFor(files[..|files| - 1]) + AllBlocks(|files[|files| - 1].data|)
  }

  lemma {:induction false} BlocksForPrefix(files: seq<HostFile>, i: nat)
    requires i < |files|
    ensures BlocksFor(files[..i + 1]) == BlocksFor(files[..i]) + AllBlocks(|files[i].data|) <= BlocksFor(files)
    decreases |files|
  {
    assert files[..i + 1][..i] == files[..i];
    if i + 1 < |files| {
      var init := files[..|files| - 1];
      BlocksForPrefix(init, i);
      assert init[..i + 1] == files[..i + 1] && init[..i] == files[..i];
    } else {
      assert files[..i + 1] == files;
    }
  }

  /** Inode k is a file with this contents and one link. */
  ghost predicate FileIs(v: Image, k: nat, data: seq<byte>) {
    k < |v.inodes| && |data| <= MAXBYTES && v.inodes[k] == Inode(T_FILE, 0, 0, 1, |data|, v.inodes[k].addrs)
        && Data(v, k, |data|) == data
  }

  lemma MoreBlocks(a: nat, b: nat)
    requires a <= b
    ensures AllBlocks(a) <= AllBlocks(b)
  {
  }

  lemma RoomToAppend(v: Image, i: nat, n: nat, free: nat)
    requires Quiet(v) && InOrder(v, free) && i < |v.inodes| && v.inodes[i].size <= n <= MAXBYTES
    requires free + AllBlocks(n) - AllBlocks(v.inodes[i].size) <= v.g.size
    ensures Room(v, i, n)
  {
    SizeIsLen(v, i);
    hide Inv, Settled, AllBlocks;
    FreeLeft(v, free);
  }

  lemma SameAgain(v0: Image, v1: Image, v2: Image, i: nat)
    requires OthersSame(v0, v1, i) && OthersSame(v1, v2, i)
    ensures OthersSame(v0, v2, i)
  {
    hide Data;
  }

  /** A file of the host: read 512 bytes at a time, and appended. */
  method AddFile(b: Builder, data: seq<byte>) returns (inum: nat)
    requires b.Idle() && b.freeinode < b.g.ninodes && |data| <= MAXBYTES
    requires b.freeblock + AllBlocks(|data|) <= b.g.size && b.freeblock + AllBlocks(|data|) < BPB
    modifies b
    ensures b.Idle() && inum == old(b.freeinode) && b.freeinode == inum + 1
            && b.freeblock == old(b.freeblock) + AllBlocks(|data|)
    ensures FileIs(b.v, inum, data) && OthersSame(old(b.v), b.v, inum)
  {
    hide Inv, Settled, Synced, Data, AllBlocks, FreeCount, OthersSame, Room, UsedBits, Superblock;
    inum := b.Ialloc(T_FILE);
    ghost var v0 := old(b.v);
    EmptyFile(b.v, inum);
    var off := 0;
    while off < |data|
      invariant off <= |data| && b.Idle() && b.freeinode == inum + 1 && inum < |b.v.inodes|
      invariant b.freeblock == old(b.freeblock) + AllBlocks(off)
      invariant FileIs(b.v, inum, data[..off]) && OthersSame(v0, b.v, inum)
    {
      var m := if |data| - off < 512 then |data| - off else 512;
      ghost var v1 := b.v;
      MoreBlocks(off + m, |data|);
      RoomToAppend(b.v, inum, off + m, b.freeblock);
      b.Iappend(inum, data[off..off + m]);
      Longer(v1, b.v, inum, data, off, m);
      SameAgain(v0, v1, b.v, inum);
      off := off + m;
    }
    assert data[..off] == data;
  }

  lemma EmptyFile(v: Image, i: nat)
    requires i < |v.inodes| && v.inodes[i] == Inode(T_FILE, 0, 0, 1, 0, NoAddrs())
    ensures FileIs(v, i, []) && AllBlocks(0) == 0
  {
  }

  lemma Longer(v0: Image, v: Image, i: nat, data: seq<byte>, off: nat, m: nat)
    requires off + m <= |data| <= MAXBYTES && FileIs(v0, i, data[..off]) && i < |v.inodes|
    requires Data(v, i, v.inodes[i].size) == Data(v0, i, v0.inodes[i].size) + data[off..off + m]
    requires v.inodes[i] == v0.inodes[i].(size := v.inodes[i].size, addrs := v.inodes[i].addrs)
    ensures FileIs(v, i, data[..off + m])
  {
    assert data[..off] + data[off..off + m] == data[..off + m];
    assert |Data(v, i, v.inodes[i].size)| == v.inodes[i].size;
  }

  /** One more entry at the end of directory i. */
  method AddEntry(b: Builder, i: nat, name: Name, inum: ushort)
    requires b.Idle() && i < |b.v.inodes| && i < b.freeinode && b.v.inodes[i].typ == T_DIR
    requires b.v.inodes[i].size % 16 == 0 && b.v.inodes[i].size + 16 <= MAXBYTES
    requires b.freeblock + AllBlocks(b.v.inodes[i].size + 16) - AllBlocks(b.v.inodes[i].size) <= b.g.size
    requires b.freeblock + AllBlocks(b.v.inodes[i].size + 16) - AllBlocks(b.v.inodes[i].size) < BPB
    modifies b
    ensures b.Idle() && b.freeinode == old(b.freeinode) && OthersSame(old(b.v), b.v, i) && i < |b.v.inodes|
    ensures EntriesOf(b.v, i) == EntriesOf(old(b.v), i) + [Dirent(inum, Key(name))]
    ensures b.v.inodes[i] == old(b.v).inodes[i].(size := old(b.v).inodes[i].size + 16, addrs := b.v.inodes[i].addrs)
    ensures b.freeblock == old(b.freeblock) + AllBlocks(b.v.inodes[i].size) - AllBlocks(old(b.v).inodes[i].size)
  {
    hide Inv, Settled, Synced, Data, AllBlocks, FreeCount, OthersSame, Room, UsedBits, Superblock, Encode, Key;
    var s := Strncpy(name);
    DecodeEncode(inum, s);
    ghost var v0 := b.v;
    RoomToAppend(b.v, i, b.v.inodes[i].size + 16, b.freeblock);
    b.Iappend(i, Encode(inum, s));
    EntryAppended(v0, b.v, i, Encode(inum, s));
  }

  lemma EntryAppended(v0: Image, v: Image, i: nat, e: seq<byte>)
    requires i < |v0.inodes| && i < |v.inodes| && |e| == 16 && v0.inodes[i].size % 16 == 0
    requires Data(v, i, v.inodes[i].size) == Data(v0, i, v0.inodes[i].size) + e
    ensures EntriesOf(v, i) == EntriesOf(v0, i) + [Decode(e)] && v.inodes[i].size == v0.inodes[i].size + 16
  {
    hide Entries, Decode;
    var c, c' := Data(v0, i, v0.inodes[i].size), Data(v, i, v.inodes[i].size);
    assert |c| == v0.inodes[i].size && |c'| == v.inodes[i].size;
    EntriesAppend(c, e);
  }

  lemma EntriesAppend(c: seq<byte>, e: seq<byte>)
    requires |c| % 16 == 0 && |e| == 16
    ensures Entries(c + e) == Entries(c) + [Decode(e)]
  {
    hide Entries, Decode;
    EntriesOverwrite(c, |c| / 16, e);
    assert Overwrite(c, 16 * (|c| / 16), e) == c + e;
  }

  /* The image while add_dir works */

  /** The root lists the files, and they are there. */
  ghost predicate Built(v: Image, files: seq<HostFile>) {
    && Named(files) && |files| + 2 <= |v.inodes| && 16 * (|files| + 2) <= MAXBYTES
    && v.inodes[1] == Inode(T_DIR, 0, 0, 1, 16 * (|files| + 2), v.inodes[1].addrs)
    && EntriesOf(v, 1) == Table(files)
    && forall i :: 0 <= i < |files| ==> FileIs(v, 2 + i, files[i].data)
  }

  lemma NamedPrefix(files: seq<HostFile>, i: nat)
    requires Named(files) && i <= |files|
    ensures Named(files[..i])
  {
  }

  lemma FileStays(v0: Image, v: Image, x: nat, k: nat, data: seq<byte>)
    requires Quiet(v0) && OthersSame(v0, v, x) && k != x && FileIs(v0, k, data)
    ensures FileIs(v, k, data)
  {
    hide Inv, Settled, Data;
    SizeIsLen(v0, k);
  }

  lemma EntriesStay(v0: Image, v: Image, x: nat, d: nat)
    requires Quiet(v0) && OthersSame(v0, v, x) && d != x && d < |v0.inodes|
    ensures d < |v.inodes| == |v0.inodes| && v.inodes[d] == v0.inodes[d] && EntriesOf(v, d) == EntriesOf(v0, d)
  {
    hide Inv, Settled, Data;
    SizeIsLen(v0, d);
  }

  /** The next file: its inode, then its entry. */
  lemma BuiltNext(v0: Image, v1: Image, v2: Image, files: seq<HostFile>, i: nat)
    requires Quiet(v0) && Quiet(v1) && Named(files) && i < |files| && Built(v0, files[..i])
             && 16 * (i + 3) <= MAXBYTES && i + 3 <= |v0.inodes|
    requires OthersSame(v0, v1, 2 + i) && FileIs(v1, 2 + i, files[i].data)
    requires OthersSame(v1, v2, 1) && 1 < |v1.inodes| && 1 < |v2.inodes|
    requires EntriesOf(v2, 1) == EntriesOf(v1, 1) + [Dirent(2 + i, Key(files[i].name))]
    requires v2.inodes[1] == v1.inodes[1].(size := v1.inodes[1].size + 16, addrs := v2.inodes[1].addrs)
    ensures Built(v2, files[..i + 1])
  {
    hide Inv, Settled, Quiet, Named, EntriesOf, FileIs, OthersSame, Key;
    NamedPrefix(files, i + 1);
    EntriesStay(v0, v1, 2 + i, 1);
    SameNumber(v1, v2, 1);
    assert Table(files[..i + 1]) == Table(files[..i]) + [Dirent(2 + i, Key(files[i].name))];
    var done := files[..i + 1];
    forall k | 0 <= k < i + 1
      ensures FileIs(v2, 2 + k, done[k].data)
    {
      if k < i {
        assert FileIs(v0, 2 + k, files[..i][k].data);
        FileStays(v0, v1, 2 + i, 2 + k, files[k].data);
      }
      FileStays(v1, v2, 1, 2 + k, files[k].data);
    }
  }

  lemma SameNumber(v0: Image, v: Image, x: nat)
    requires OthersSame(v0, v, x)
    ensures |v.inodes| == |v0.inodes|
  {
  }

  /** There is room for the next file and its entry. */
  lemma SpaceLeft(files: seq<HostFile>, i: nat)
    requires i < |files|
    ensures BlocksFor(files[..i]) + AllBlocks(|files[i].data|) == BlocksFor(files[..i + 1]) <= BlocksFor(files)
    ensures AllBlocks(16 * (i + 2)) <= AllBlocks(16 * (i + 3)) <= AllBlocks(16 * (|files| + 2))
  {
    BlocksForPrefix(files, i);
    MoreBlocks(16 * (i + 2), 16 * (i + 3));
    MoreBlocks(16 * (i + 3), 16 * (|files| + 2));
  }

  /** The empty root, and what its first two entries make of it. */
  lemma NoEntriesYet(v: Image)
    requires Quiet(v) && 1 < |v.inodes| && v.inodes[1] == Inode(T_DIR, 0, 0, 1, 0, NoAddrs())
    ensures EntriesOf(v, 1) == [] && |v.inodes| == v.g.ninodes && AllBlocks(0) == 0
    ensures AllBlocks(16) == AllBlocks(32) == 1
  {
  }

  lemma DotsAreTable(v0: Image, v1: Image, v: Image, files: seq<HostFile>)
    requires Named(files) && |v0.inodes| >= 2 && OthersSame(v0, v1, 1) && OthersSame(v1, v, 1)
    requires v.inodes[1] == Inode(T_DIR, 0, 0, 1, 32, v.inodes[1].addrs)
    requires EntriesOf(v, 1) == [] + [Dirent(1, Key(DotName()))] + [Dirent(1, Key(DotDotName()))]
    ensures Built(v, files[..0]) && BlocksFor(files[..0]) == 0
  {
    hide EntriesOf, Key, Data;
    DotKeys();
    assert EntriesOf(v, 1) == Table(files[..0]);
  }

  lemma NamedData(files: seq<HostFile>, i: nat)
    requires Named(files) && i < |files|
    ensures |files[i].data| <= MAXBYTES
  {
  }

  /* The image when add_dir is done */

  /** The root's names are the dots and the files' names, and under each there is the file's data. */
  ghost predicate HoldsFiles(im: Image, files: seq<HostFile>) {
    && |im.inodes| >= 2
    && (forall i :: 0 <= i < |files| ==>
         Key(files[i].name) in MapOf(im, 1) && MapOf(im, 1)[Key(files[i].name)] == 2 + i
             && FileIs(im, 2 + i, files[i].data))
    && (forall key :: key in MapOf(im, 1) ==> key == DotName() || key == DotDotName() || IsName(files, key))
  }

  ghost predicate IsName(files: seq<HostFile>, key: Name) {
    exists i :: 0 <= i < |files| && Key(files[i].name) == key
  }

  /** es is t, with unused entries after it. */
  ghost predicate Padded(t: seq<Dirent>, es: seq<Dirent>) {
    t <= es && forall k :: |t| <= k < |es| ==> es[k].inum == 0
  }

  lemma PaddedMap(t: seq<Dirent>, es: seq<Dirent>)
    requires Padded(t, es) && Unique(t)
    ensures Unique(es) && DirMap(es) == DirMap(t)
  {
    forall key
      ensures key in DirMap(es) <==> key in DirMap(t)
      ensures key in DirMap(t) ==> DirMap(es)[key] == DirMap(t)[key]
    {
      DirMapIff(t, key);
      DirMapIff(es, key);
      assert forall k: nat :: Live(es, k, key) <==> Live(t, k, key);
    }
  }

  lemma TableUnique(files: seq<HostFile>)
    requires Named(files)
    ensures Unique(Table(files))
  {
    hide Key;
  }

  lemma TableMap(files: seq<HostFile>)
    requires Named(files)
    ensures var m := DirMap(Table(files));
            && DotName() in m && m[DotName()] == 1 && DotDotName() in m && m[DotDotName()] == 1
            && (forall i :: 0 <= i < |files| ==> Key(files[i].name) in m && m[Key(files[i].name)] == 2 + i)
            && (forall key :: key in m ==> key == DotName() || key == DotDotName() || IsName(files, key))
  {
    TableUnique(files);
    hide Key, DirMap, Unique, Named;
    var es := Table(files);
    DirMapIff(es, DotName());
    DirMapIff(es, DotDotName());
    assert Live(es, 0, DotName()) && Live(es, 1, DotDotName());
    forall i | 0 <= i < |files|
      ensures Key(files[i].name) in DirMap(es) && DirMap(es)[Key(files[i].name)] == 2 + i
    {
      DirMapIff(es, Key(files[i].name));
      assert Live(es, 2 + i, Key(files[i].name));
    }
    forall key | key in DirMap(es)
      ensures key == DotName() || key == DotDotName() || IsName(files, key)
    {
      DirMapIff(es, key);
      var k: nat :| Live(es, k, key);
      InTable(files, k, key);
    }
  }

  lemma InTable(files: seq<HostFile>, k: nat, key: Name)
    requires |files| <= 65533 && Live(Table(files), k, key)
    ensures key == DotName() || key == DotDotName() || IsName(files, key)
  {
    hide Key;
    if k >= 2 {
      assert Key(files[k - 2].name) == key;
    }
  }

  /** Rounding a directory's size up adds unused entries, and no file notices. */
  lemma RoundedDir(v0: Image, files: seq<HostFile>)
    requires Quiet(v0) && Built(v0, files) && 16 * (|files| + 2) + 512 <= MAXBYTES && 16 * (|files| + 2) % 512 != 0
    ensures |v0.inodes| == |v0.len| && |RoundUp(v0, 1).inodes| == |v0.inodes|
    ensures Padded(Table(files), EntriesOf(RoundUp(v0, 1), 1))
    ensures forall i :: 0 <= i < |files| ==> FileIs(RoundUp(v0, 1), 2 + i, files[i].data)
  {
    hide Refs, Owns, BitmapExact, FreeBlocksZero, NoHoles, Settled, TailZero, ByteAt, Table, Entries, Named, PutInode;
    SizeIsLen(v0, 1);
    var v := RoundUp(v0, 1);
    RoundedBytes(v0, 1);
    var n0, n := v0.inodes[1].size, v.inodes[1].size;
    var c0, c := Data(v0, 1, n0), Data(v, 1, n);
    assert c[..n0] == c0;
    PaddedEntries(c0, c);
    forall i | 0 <= i < |files|
      ensures FileIs(v, 2 + i, files[i].data)
    {
      assert FileIs(v0, 2 + i, files[i].data);
      assert Data(v, 2 + i, |files[i].data|) == Data(v0, 2 + i, |files[i].data|);
    }
  }

  lemma RoundedBytes(v0: Image, i: nat)
    requires Quiet(v0) && i < |v0.inodes| && v0.inodes[i].size + 512 <= MAXBYTES && v0.inodes[i].size % 512 != 0
    ensures |v0.inodes| == |v0.len|
    ensures forall j: nat, p: nat :: ByteAt(RoundUp(v0, i), j, p) == ByteAt(v0, j, p)
    ensures forall p: nat :: v0.inodes[i].size <= p < RoundUp(v0, i).inodes[i].size ==> ByteAt(v0, i, p) == 0
  {
    hide Refs, Owns, BitmapExact, FreeBlocksZero, NoHoles, Settled, ByteAt, PutInode;
    SizeIsLen(v0, i);
    SetRecordKeepsInv(v0, i, v0.inodes[i].(size := (v0.inodes[i].size / 512 + 1) * 512));
    forall j: nat, p: nat
      ensures ByteAt(RoundUp(v0, i), j, p) == ByteAt(v0, j, p)
    {
      SameByteAt(SetSize(v0, i, (v0.inodes[i].size / 512 + 1) * 512), RoundUp(v0, i), j, p);
    }
  }

  /** Zeroes at the end of a directory are unused entries. */
  lemma PaddedEntries(c0: seq<byte>, c: seq<byte>)
    requires |c0| % 16 == 0 && |c| % 16 == 0 && c0 <= c && forall p :: |c0| <= p < |c| ==> c[p] == 0
    ensures Padded(Entries(c0), Entries(c))
  {
    hide Key;
    forall k | 0 <= k < |c0| / 16
      ensures Entries(c)[k] == Entries(c0)[k]
    {
      assert c[16 * k..16 * k + 16] == c0[16 * k..16 * k + 16];
    }
    assert Entries(c)[..|c0| / 16] == Entries(c0);
    forall k | |c0| / 16 <= k < |c| / 16
      ensures Entries(c)[k].inum == 0
    {
      assert c[16 * k..16 * k + 16][0] == c[16 * k] && c[16 * k..16 * k + 16][1] == c[16 * k + 1];
    }
  }

  /** The tree mkfs makes. */
  function FlatState(files: seq<HostFile>): L.State
    requires |files| <= 65533
  {
    L.State(map k: nat | 1 <= k < |files| + 2 :: FlatNode(files, k), multiset{})
  }

  function FlatNode(files: seq<HostFile>, k: nat): L.Node
    requires |files| <= 65533
  {
    if k == 1 then L.Node(true, 1, true, DirMap(Table(files))) else L.Node(false, 1, false, map[])
  }

  /** Which names hold what, beside the dots. */
  lemma FlatHolds(files: seq<HostFile>, n: Name, k: nat)
    requires Named(files)
    ensures L.Holds(FlatState(files), n, k) <==> 2 <= k < |files| + 2 && n == Key(files[k - 2].name)
  {
    TableMap(files);
    NamesAreNotDots(files);
    hide Key, DirMap, Table, Named;
  }

  lemma FlatInit(files: seq<HostFile>)
    requires Named(files)
    ensures L.Init(FlatState(files))
  {
    TableMap(files);
    hide Key, DirMap, Table, Named, L.Holds;
    var s := FlatState(files);
    forall k | k in s.nodes && k != L.ROOT
      ensures exists n :: L.Holds(s, n, k)
    {
      FlatHolds(files, Key(files[k - 2].name), k);
    }
    forall n | n in s.nodes[L.ROOT].entries && !L.Dot(n)
      ensures s.nodes[L.ROOT].entries[n] in s.nodes && s.nodes[L.ROOT].entries[n] != L.ROOT
    {
      assert IsName(files, n);
    }
    forall m: Name, n: Name, k: nat | L.Holds(s, m, k) && L.Holds(s, n, k)
      ensures m == n
    {
      FlatHolds(files, m, k);
      FlatHolds(files, n, k);
    }
  }

  lemma NamesAreNotDots(files: seq<HostFile>)
    requires Named(files)
    ensures forall i :: 0 <= i < |files| ==> !L.Dot(Key(files[i].name))
    ensures forall i, j :: 0 <= i < |files| && 0 <= j < |files| && Key(files[i].name) == Key(files[j].name) ==> i == j
  {
  }

  lemma FlatTree(v0: Image, v: Image, files: seq<HostFile>)
    requires Quiet(v0) && Built(v0, files) && 16 * (|files| + 2) + 512 <= MAXBYTES && 16 * (|files| + 2) % 512 != 0
    requires |v0.inodes| == |v0.len| && v == RoundUp(v0, 1) && Quiet(v) && |v0.inodes| <= 65536
    requires forall k :: 2 + |files| <= k < |v0.inodes| ==> v0.inodes[k].typ == 0
    ensures Tree(v) && HoldsFiles(v, files)
  {
    hide Inv, Settled, Named, EntriesOf, DirMap, Table, Key, Unique, PutInode, L.Init, L.Inv;
    RoundedDir(v0, files);
    TableUnique(files);
    PaddedMap(Table(files), EntriesOf(v, 1));
    TableMap(files);
    var s := FlatState(files);
    FlatInit(files);
    L.InitInv(s);
    RootHasDots(v, files);
    forall k: nat
      ensures k in s.nodes <==> Allocated(v, k)
      ensures k in s.nodes ==> NodeIs(v, k, s.nodes[k])
    {
      if 2 <= k < |files| + 2 {
        assert FileIs(v, 2 + (k - 2), files[k - 2].data);
      }
    }
    assert Represents(v, s);
  }

  lemma RootHasDots(v: Image, files: seq<HostFile>)
    requires |v.inodes| >= 2 && v.inodes[1].typ == T_DIR && v.inodes[1].size % 16 == 0
    requires |files| <= 65533 && Padded(Table(files), EntriesOf(v, 1)) && Unique(EntriesOf(v, 1))
    ensures HasDots(v, 1)
  {
    hide EntriesOf, Unique;
  }

  lemma BlankTypes(b: Image, n: nat)
    requires forall i :: n <= i < |b.inodes| ==> b.inodes[i] == Mkfs.FreeInode()
    ensures forall i :: n <= i < |b.inodes| ==> b.inodes[i].typ == 0
  {
  }

  /** The numbers add_dir stays within. */
  ghost predicate Enough(b: Builder, files: seq<HostFile>, free: nat)
    reads b
  {
    && b.g.ninodes <= 65536 && |files| + 2 <= b.g.ninodes && 16 * (|files| + 2) + 512 <= MAXBYTES
    && free + BlocksFor(files) + AllBlocks(16 * (|files| + 2)) <= b.g.size
    && free + BlocksFor(files) + AllBlocks(16 * (|files| + 2)) < BPB
  }

  /** The first part of add_dir: "." and "..". */
  method AddDots(b: Builder, files: seq<HostFile>)
    requires b.Idle() && b.freeinode == 2 && 1 < |b.v.inodes| && b.v.inodes[1] == Inode(T_DIR, 0, 0, 1, 0, NoAddrs())
    requires Named(files) && Enough(b, files, b.freeblock)
    modifies b
    ensures b.Idle() && b.freeinode == 2 && |b.v.inodes| == b.g.ninodes && Built(b.v, files[..0])
    ensures b.freeblock == old(b.freeblock) + AllBlocks(32) && BlocksFor(files[..0]) == 0
  {
    hide Inv, Settled, Quiet, Synced, EntriesOf, AllBlocks, OthersSame, Room, UsedBits, Superblock, Named, FileIs,
         Table, Key, BlocksFor, Built;
    ghost var v0 := b.v;
    NoEntriesYet(v0);
    MoreBlocks(32, 16 * (|files| + 2));
    AddEntry(b, 1, DotName(), 1);
    ghost var v1 := b.v;
    AddEntry(b, 1, DotDotName(), 1);
    DotsAreTable(v0, v1, b.v, files);
    SameNumber(v0, v1, 1);
    SameNumber(v1, b.v, 1);
  }

  /** One round of add_dir's loop. */
  method AddNext(b: Builder, files: seq<HostFile>, i: nat, ghost start: nat)
    requires b.Idle() && i < |files| && b.freeinode == 2 + i && |b.v.inodes| == b.g.ninodes
    requires Named(files) && Enough(b, files, start) && Built(b.v, files[..i])
    requires b.freeblock == start + BlocksFor(files[..i]) + AllBlocks(16 * (i + 2))
    modifies b
    ensures b.Idle() && b.freeinode == 3 + i && |b.v.inodes| == b.g.ninodes && Built(b.v, files[..i + 1])
    ensures b.freeblock == start + BlocksFor(files[..i + 1]) + AllBlocks(16 * (i + 3))
  {
    hide Inv, Settled, Quiet, Synced, EntriesOf, AllBlocks, OthersSame, Room, UsedBits, Superblock, Named, FileIs,
         Table, Key, BlocksFor, Built;
    SpaceLeft(files, i);
    NamedData(files, i);
    ghost var v0 := b.v;
    RootIs(v0, files[..i]);
    var inum := AddFile(b, files[i].data);
    ghost var v1 := b.v;
    EntriesStay(v0, v1, 2 + i, 1);
    AddEntry(b, 1, files[i].name, inum);
    BuiltNext(v0, v1, b.v, files, i);
    SameNumber(v1, b.v, 1);
  }

  lemma RootIs(v: Image, files: seq<HostFile>)
    requires Built(v, files)
    ensures |v.inodes| >= 2 && v.inodes[1] == Inode(T_DIR, 0, 0, 1, 16 * (|files| + 2), v.inodes[1].addrs)
  {
  }

  /**
   add_dir for the root. The image is a tree exactly when the number of entries, dots included, does not fill whole
   blocks: see FixDirSize.
   */
  method AddDir(b: Builder, files: seq<HostFile>)
    requires b.Idle() && b.freeinode == 2 && 1 < |b.v.inodes| && b.v.inodes[1] == Inode(T_DIR, 0, 0, 1, 0, NoAddrs())
    requires Named(files) && Enough(b, files, b.freeblock)
    modifies b
    ensures b.Idle() <==> (|files| + 2) % 32 != 0
    ensures b.Idle() ==> Tree(b.v) && HoldsFiles(b.v, files)
  {
    hide Inv, Settled, Quiet, Synced, EntriesOf, AllBlocks, OthersSame, UsedBits, Superblock, Named, FileIs,
         BlocksFor, Tree, HoldsFiles, RoundUp, Built;
    ghost var start := b.freeblock;
    AddDots(b, files);
    var i := 0;
    while i < |files|
      invariant i <= |files| && b.Idle() && b.freeinode == 2 + i && |b.v.inodes| == b.g.ninodes
      invariant Built(b.v, files[..i])
      invariant b.freeblock == start + BlocksFor(files[..i]) + AllBlocks(16 * (i + 2))
    {
      AddNext(b, files, i, start);
      i := i + 1;
    }
    assert files[..i] == files;
    RootIs(b.v, files);
    ghost var v0 := b.v;
    BlankTypes(v0, b.freeinode);
    b.FixDirSize(1);
    if (|files| + 2) % 32 != 0 {
      SizeIsLen(v0, 1);
      FlatTree(v0, b.v, files);
    }
  }

  /** main: the disk image, ready to mount. */
  method MakeImage(nblocks: uint, ninodes: uint, size: uint, files: seq<HostFile>)
      returns (disk: seq<Block>, ghost im: Image)
    requires nblocks + ninodes / IPB + 3 + (size / BPB + 1) == size && size - nblocks < BPB
    requires Named(files) && |files| + 2 <= ninodes <= 65536 && 16 * (|files| + 2) + 512 <= MAXBYTES
             && (|files| + 2) % 32 != 0
    requires size - nblocks + BlocksFor(files) + AllBlocks(16 * (|files| + 2)) <= size
    requires size - nblocks + BlocksFor(files) + AllBlocks(16 * (|files| + 2)) < BPB
    ensures im.disk == disk && im.g == Geometry(size, ninodes) && Quiet(im) && Synced(im)
    ensures Tree(im) && HoldsFiles(im, files)
  {
    hide Inv, Settled, Quiet, Synced, EntriesOf, AllBlocks, OthersSame, Room, UsedBits, Superblock, Named, FileIs,
         Table, Key, BlocksFor, Tree, HoldsFiles;
    var b := new Builder(nblocks, ninodes, size);
    var root := b.Ialloc(T_DIR);
    AddDir(b, files);
    b.Balloc();
    disk, im := b.disk, Image(b.g, b.disk, b.v.inodes, b.v.owner, b.v.len);
    assert im == b.v;
  }
}
