/** create, sys_link and sys_unlink (kernel/sysfile.c) over the file system, once the path has been looked up. */
module SysFile {
  import opened Bytes
  import opened FsImage
  import opened DiskInode
  import opened FileWrite
  import opened Directory
  import opened DirectoryOps
  import opened Fs

  /** nlink is a C short; the record keeps its bits. */
  function Links(x: ushort): int { if x < 32768 then x else x - 65536 }

  /** nlink++ and nlink--, on 16 bits. */
  function Up(x: ushort): ushort { (x + 1) % 65536 }
  function Down(x: ushort): ushort { (x + 65535) % 65536 }

  /** Every inode that is not in `except` is as it was, contents and record. */
  ghost predicate Others(im0: Image, im: Image, except: set<nat>) {
    && |im.len| == |im0.len| == |im.inodes| == |im0.inodes|
    && forall j: nat :: j < |im.len| && j !in except ==>
         im.len[j] == im0.len[j] && im.inodes[j] == im0.inodes[j] && Data(im, j, im.len[j]) == Data(im0, j, im0.len[j])
  }

  lemma OthersOne(im0: Image, im: Image, i: nat)
    requires OthersSame(im0, im, i)
    ensures Others(im0, im, {i})
  {
  }

  lemma OthersThen(im0: Image, im1: Image, im2: Image, a: set<nat>, b: set<nat>)
    requires Others(im0, im1, a) && Others(im1, im2, b)
    ensures Others(im0, im2, a + b)
  {
  }

  /** A directory that is not touched stays the directory it is. */
  lemma DirStays(im0: Image, im: Image, except: set<nat>, d: nat)
    requires Quiet(im0) && Quiet(im) && Others(im0, im, except) && d !in except && IsDir(im0, d)
    ensures IsDir(im, d) && EntriesOf(im, d) == EntriesOf(im0, d) && MapOf(im, d) == MapOf(im0, d)
  {
    hide Inv, Settled, Unique, DirMap, Entries;
    assert im0.len[d] == im0.inodes[d].size && im.len[d] == im.inodes[d].size;
  }

  /** So does one whose record changes, but for its type and size. */
  lemma RecordKeepsDir(im0: Image, im: Image, i: nat, ino: Inode, d: nat)
    requires Quiet(im0) && RecordSet(im0, im, i, ino) && ino.typ == im0.inodes[i].typ && IsDir(im0, d)
    ensures IsDir(im, d) && EntriesOf(im, d) == EntriesOf(im0, d) && MapOf(im, d) == MapOf(im0, d)
  {
    hide Inv, Settled, Synced, Unique, DirMap, Entries;
    assert d < |im0.len| && im0.len[d] == im0.inodes[d].size && im.len[d] == im.inodes[d].size;
  }

  lemma RecordKeepsFree(im0: Image, im: Image, i: nat, ino: Inode)
    requires Quiet(im0) && RecordSet(im0, im, i, ino)
    ensures FreeCount(im) == FreeCount(im0) && im.len == im0.len && Others(im0, im, {i})
  {
    hide Inv, Settled, Synced;
    forall j | 0 <= j < |im.len|
      ensures im.len[j] == im0.len[j]
    {
      assert im.len[j] == im.inodes[j].size && im0.len[j] == im0.inodes[j].size;
    }
  }

  /** dirlink's room does not depend on records. */
  lemma RecordKeepsRoom(im0: Image, im: Image, i: nat, ino: Inode, d: nat)
    requires Quiet(im0) && RecordSet(im0, im, i, ino) && ino.typ == im0.inodes[i].typ && IsDir(im0, d)
             && CanLink(im0, d)
    ensures CanLink(im, d)
  {
    RecordKeepsFree(im0, im, i, ino);
    hide Inv, Settled, Synced, Unique, Entries, FreeCount, AllBlocks;
    assert im0.len[d] == im0.inodes[d].size && im.len[d] == im.inodes[d].size;
    assert EntriesOf(im, d) == EntriesOf(im0, d);
  }

  /** ip has the name key in dp as well, and one link more. */
  ghost predicate Linked(im0: Image, im: Image, dp: nat, key: Name, ip: nat) {
    && dp < |im0.inodes| == |im.inodes| && ip < |im.inodes| && ip < 65536
    && IsDir(im, dp) && MapOf(im, dp) == MapOf(im0, dp)[key := ip] && Stay(EntriesOf(im0, dp), EntriesOf(im, dp), key)
    && Others(im0, im, {ip, dp})
    && im.inodes[ip] == im0.inodes[ip].(nlink := Up(im0.inodes[ip].nlink))
    && Data(im, ip, im.inodes[ip].size) == Data(im0, ip, im0.inodes[ip].size)
    && im.inodes[dp] == im0.inodes[dp].(size := im.inodes[dp].size, addrs := im.inodes[dp].addrs)
  }

  /**
   sys_link once both paths are looked up: ip is the old file, dp the directory of the new name, 0 if there is none.
   */
  method Link(fs: FileSystem, ip: nat, dp: nat, name: seq<byte>) returns (r: int)
    requires fs.Valid() && 1 <= ip < |fs.inodes| && ip < 65536 && fs.inodes[ip].typ != 0
    requires dp != 0 ==> IsDir(fs.Img(), dp) && CanLink(fs.Img(), dp)
    modifies fs
    ensures fs.Valid() && (dp != 0 ==> IsDir(fs.Img(), dp))
    ensures r == -1 <==> old(fs.inodes[ip]).typ == T_DIR || dp == 0 || Key(name) in MapOf(old(fs.Img()), dp)
    ensures r == -1 ==> fs.inodes == old(fs.inodes) && Others(old(fs.Img()), fs.Img(), {})
    ensures r == -1 && dp != 0 ==> MapOf(fs.Img(), dp) == MapOf(old(fs.Img()), dp)
    ensures r != -1 ==> r == 0 && Linked(old(fs.Img()), fs.Img(), dp, Key(name), ip)
  {
    hide Inv, Settled, Synced, EntriesOf, Unique, Key, MapOf, IsDir, Room, Data, FreeCount, AllBlocks, CanLink,
         OthersSame, Others, RecordSet, Stay;
    ghost var im0 := fs.Img();
    NothingChanged(im0);
    if fs.inodes[ip].typ == T_DIR {
      return -1;
    }
    ghost var ino := fs.inodes[ip].(nlink := Up(fs.inodes[ip].nlink));
    fs.SetFields(ip, fs.inodes[ip].(nlink := Up(fs.inodes[ip].nlink)));
    ghost var im1 := fs.Img();
    RecordIs(im0, im1, ip, ino);
    r := -1;
    if dp != 0 {
      NotTheDirectory(im0, ip, dp);
      RecordKeepsDir(im0, im1, ip, ino, dp);
      RecordKeepsRoom(im0, im1, ip, ino, dp);
      r := Dirlink(fs, dp, name, ip);
    }
    if r < 0 {
      fs.SetFields(ip, fs.inodes[ip].(nlink := Down(fs.inodes[ip].nlink)));
      if dp != 0 {
        RecordKeepsDir(im1, fs.Img(), ip, im0.inodes[ip], dp);
      }
      Undone(im0, im1, fs.Img(), ip, ino);
      return -1;
    }
    OneMore(im0, im1, fs.Img(), ip, dp);
    return 0;
  }

  lemma NothingChanged(im: Image)
    requires Quiet(im)
    ensures Others(im, im, {})
  {
  }

  lemma NotTheDirectory(im: Image, ip: nat, dp: nat)
    requires IsDir(im, dp) && ip < |im.inodes| && im.inodes[ip].typ != T_DIR
    ensures ip != dp && dp < |im.inodes|
  {
  }

  /** What a record change is. */
  lemma RecordIs(im0: Image, im: Image, i: nat, ino: Inode)
    requires Quiet(im0) && RecordSet(im0, im, i, ino)
    ensures i < |im0.inodes| && im.inodes == im0.inodes[i := ino] && Others(im0, im, {i})
            && FreeCount(im) == FreeCount(im0)
    ensures ino.size == im0.inodes[i].size && Data(im, i, ino.size) == Data(im0, i, ino.size)
  {
    RecordKeepsFree(im0, im, i, ino);
  }

  /** A record change and the one that takes it back. */
  lemma Undone(im0: Image, im1: Image, im2: Image, i: nat, ino: Inode)
    requires Quiet(im0) && Quiet(im1) && RecordSet(im0, im1, i, ino) && i < |im0.inodes|
             && RecordSet(im1, im2, i, im0.inodes[i])
    ensures im2.inodes == im0.inodes && Others(im0, im2, {})
  {
    RecordIs(im0, im1, i, ino);
    RecordIs(im1, im2, i, im0.inodes[i]);
    RecordKeepsFree(im0, im1, i, ino);
    RecordKeepsFree(im1, im2, i, im0.inodes[i]);
    hide Inv, Settled, Synced, Data, FreeCount;
    assert im0.len[i] == im0.inodes[i].size;
  }

  /** A step that touches only ip, and then one that touches only dp. */
  lemma OneMore(im0: Image, im1: Image, im2: Image, ip: nat, dp: nat)
    requires Others(im0, im1, {ip}) && OthersSame(im1, im2, dp) && ip != dp && ip < |im0.inodes|
    requires Quiet(im1) && Quiet(im2)
    ensures Others(im0, im2, {ip, dp}) && |im2.inodes| == |im1.inodes| == |im0.inodes|
            && im2.inodes[ip] == im1.inodes[ip]
    ensures Data(im2, ip, im2.inodes[ip].size) == Data(im1, ip, im1.inodes[ip].size)
  {
    hide Inv, Settled, Data;
    OthersOne(im1, im2, dp);
    OthersThen(im0, im1, im2, {ip}, {dp});
    assert {ip} + {dp} == {ip, dp};
    assert im1.len[ip] == im1.inodes[ip].size && im2.len[ip] == im2.inodes[ip].size;
  }

  /* sys_unlink */

  lemma DotKeys()
    ensures Key(DotName()) == DotName() && Key(DotDotName()) == DotDotName()
  {
    assert Cut([46], DIRSIZ) == [46] + Cut([], DIRSIZ - 1);
    assert [46, 46][1..] == [46];
    assert Cut([46, 46], DIRSIZ) == [46] + Cut([46], DIRSIZ - 1);
    assert Cut([46], DIRSIZ - 1) == [46] + Cut([], DIRSIZ - 2);
  }

  /** What dp's names, apart from the dots, have to name for sys_unlink not to panic. */
  ghost predicate EntriesSound(im: Image, dp: nat)
    requires dp < |im.inodes|
  {
    forall key :: key in MapOf(im, dp) && key != DotName() && key != DotDotName() ==>
        EntrySound(im, dp, MapOf(im, dp)[key])
  }

  ghost predicate EntrySound(im: Image, dp: nat, ip: nat) {
    ip < |im.inodes| && ip != dp && Links(im.inodes[ip].nlink) >= 1 && (im.inodes[ip].typ == T_DIR ==> IsDir(im, ip))
  }

  ghost predicate OnlyDots(im: Image, ip: nat)
    requires ip < |im.inodes|
  {
    forall k :: 2 <= k < |EntriesOf(im, ip)| ==> EntriesOf(im, ip)[k].inum == 0
  }

  /** The name is there, is not a dot, and does not name a directory in use. */
  ghost predicate CanUnlink(im: Image, dp: nat, key: seq<byte>)
    requires dp < |im.inodes|
  {
    && key != DotName() && key != DotDotName() && key in MapOf(im, dp)
    && MapOf(im, dp)[key] < |im.inodes|
    && (im.inodes[MapOf(im, dp)[key]].typ == T_DIR ==> OnlyDots(im, MapOf(im, dp)[key]))
  }

  /** d is a directory that has "." and ".." where isdirempty takes them to be. */
  ghost predicate HasDots(im: Image, d: nat) {
    IsDir(im, d) && Live(EntriesOf(im, d), 0, DotName()) && Live(EntriesOf(im, d), 1, DotDotName())
  }

  /** Then isdirempty's answer is that there are no other names. */
  lemma OnlyDotsIff(im: Image, d: nat)
    requires HasDots(im, d)
    ensures OnlyDots(im, d) <==> MapOf(im, d).Keys == {DotName(), DotDotName()}
  {
    hide EntriesOf, Unique, Live, DirMap;
    EmptyDirMap(EntriesOf(im, d), DotName(), DotDotName());
  }

  /** What unlinking name makes of the file system; ip is what the name stood for. */
  ghost predicate NameGone(im0: Image, im: Image, dp: nat, key: seq<byte>, ip: nat) {
    && dp < |im0.inodes| == |im.inodes| && ip < |im.inodes|
    && MapOf(im, dp) == MapOf(im0, dp) - {key} && Stay(EntriesOf(im0, dp), EntriesOf(im, dp), key)
    && Others(im0, im, {ip, dp})
    && im.inodes[ip] == im0.inodes[ip].(nlink := Down(im0.inodes[ip].nlink))
    && Data(im, ip, im.inodes[ip].size) == Data(im0, ip, im0.inodes[ip].size)
    && im.inodes[dp] == im0.inodes[dp].(nlink := if im0.inodes[ip].typ == T_DIR then Down(im0.inodes[dp].nlink)
        else im0.inodes[dp].nlink,
                                        size := im.inodes[dp].size, addrs := im.inodes[dp].addrs)
  }

  /** The steps of sys_unlink: the entry goes, dp loses a link if ip is a directory, ip loses one. */
  lemma UnlinkSteps(im0: Image, im1: Image, im2: Image, im3: Image, dp: nat, ip: nat, key: seq<byte>)
    requires Quiet(im0) && Quiet(im1) && Quiet(im2) && Quiet(im3)
    requires dp < |im0.inodes| && ip < |im0.inodes| && ip != dp
    requires OthersSame(im0, im1, dp) && IsDir(im1, dp) && MapOf(im1, dp) == MapOf(im0, dp) - {key}
    requires Stay(EntriesOf(im0, dp), EntriesOf(im1, dp), key)
    requires im1.inodes[dp] == im0.inodes[dp].(size := im1.inodes[dp].size, addrs := im1.inodes[dp].addrs)
    requires if im0.inodes[ip].typ == T_DIR
             then RecordSet(im1, im2, dp, im1.inodes[dp].(nlink := Down(im1.inodes[dp].nlink))) else im2 == im1
    requires ip < |im2.inodes| && RecordSet(im2, im3, ip, im2.inodes[ip].(nlink := Down(im2.inodes[ip].nlink)))
    ensures NameGone(im0, im3, dp, key, ip) && IsDir(im3, dp)
  {
    hide Inv, Settled, Data, FreeCount, RecordSet, IsDir, MapOf, Synced, EntriesOf, Stay;
    OthersOne(im0, im1, dp);
    if im0.inodes[ip].typ == T_DIR {
      var ino := im1.inodes[dp].(nlink := Down(im1.inodes[dp].nlink));
      RecordIs(im1, im2, dp, ino);
      RecordKeepsDir(im1, im2, dp, ino, dp);
    } else {
      NothingChanged(im1);
    }
    assert Others(im1, im2, {dp});
    OthersThen(im0, im1, im2, {dp}, {dp});
    var ino := im2.inodes[ip].(nlink := Down(im2.inodes[ip].nlink));
    RecordIs(im2, im3, ip, ino);
    RecordKeepsDir(im2, im3, ip, ino, dp);
    OthersThen(im0, im2, im3, {dp} + {dp}, {ip});
    assert {dp} + {dp} + {ip} == {ip, dp};
    assert im0.len[ip] == im0.inodes[ip].size && im2.len[ip] == im2.inodes[ip].size;
  }

  /** sys_unlink once dp and name are known. */
  method Unlink(fs: FileSystem, dp: nat, name: seq<byte>) returns (r: int)
    requires fs.Valid() && IsDir(fs.Img(), dp) && EntriesSound(fs.Img(), dp)
    modifies fs
    ensures fs.Valid() && IsDir(fs.Img(), dp) && (r == 0 || r == -1)
    ensures r == 0 <==> CanUnlink(old(fs.Img()), dp, Key(name))
    ensures r == -1 ==> fs.Img() == old(fs.Img())
    ensures r == 0 ==> NameGone(old(fs.Img()), fs.Img(), dp, Key(name), MapOf(old(fs.Img()), dp)[Key(name)])
  {
    hide Inv, Settled, Synced, EntriesOf, Unique, Key, MapOf, IsDir, Data, FreeCount, AllBlocks, OthersSame, Others,
         RecordSet, NameGone, Live, Stay;
    ghost var im0 := fs.Img();
    DotKeys();
    var dot := Namecmp(name, DotName());
    var dotdot := Namecmp(name, DotDotName());
    if dot == 0 || dotdot == 0 {
      return -1;
    }
    var ip, off := Dirlookup(fs, dp, name);
    if ip == 0 {
      return -1;
    }
    assert EntrySound(im0, dp, ip);
    assert ip < |fs.inodes|;
    if fs.inodes[ip].typ == T_DIR {
      var empty := Isdirempty(fs, ip);
      if !empty {
        return -1;
      }
    }
    RemoveEntry(fs, dp, off, Key(name));
    ghost var im1 := fs.Img();
    TwoInodes(im0, im1, dp, ip);
    if fs.inodes[ip].typ == T_DIR {
      ghost var ino := fs.inodes[dp].(nlink := Down(fs.inodes[dp].nlink));
      fs.SetFields(dp, fs.inodes[dp].(nlink := Down(fs.inodes[dp].nlink)));
      RecordIs(im1, fs.Img(), dp, ino);
    }
    ghost var im2 := fs.Img();
    fs.SetFields(ip, fs.inodes[ip].(nlink := Down(fs.inodes[ip].nlink)));
    UnlinkSteps(im0, im1, im2, fs.Img(), dp, ip, Key(name));
    return 0;
  }

  lemma TwoInodes(im0: Image, im: Image, dp: nat, ip: nat)
    requires Quiet(im0) && Quiet(im) && OthersSame(im0, im, dp) && IsDir(im, dp) && ip != dp && ip < |im0.inodes|
    ensures dp < |im.inodes| == |im0.inodes| && im.inodes[ip] == im0.inodes[ip] && im.inodes[dp].typ == T_DIR
    ensures im.inodes[ip].typ == 0 ==> im.inodes[ip].size == 0
  {
    hide Inv, Settled, Data, EntriesOf, Unique;
  }

  /* create */

  /** dirlink has room in dp even when `spare` blocks go elsewhere first. */
  ghost predicate HasRoom(im: Image, dp: nat, spare: nat) {
    && dp < |im.inodes| == |im.len|
    && ((spare <= FreeCount(im) && exists k :: 0 <= k < |EntriesOf(im, dp)| && EntriesOf(im, dp)[k].inum == 0)
        || (im.inodes[dp].size + 16 <= MAXBYTES
            && AllBlocks(im.inodes[dp].size + 16) - AllBlocks(im.inodes[dp].size) + spare <= FreeCount(im)))
  }

  /** Directory dp has not changed in any way that shows, and at most `used` blocks have gone. */
  ghost predicate SameDir(im0: Image, im: Image, dp: nat, used: nat) {
    && |im.inodes| == |im0.inodes| && IsDir(im, dp)
    && EntriesOf(im, dp) == EntriesOf(im0, dp) && im.inodes[dp].size == im0.inodes[dp].size
    && FreeCount(im) >= FreeCount(im0) - used
  }

  lemma SameDirTrans(im0: Image, im1: Image, im2: Image, dp: nat, a: nat, b: nat)
    requires SameDir(im0, im1, dp, a) && SameDir(im1, im2, dp, b)
    ensures SameDir(im0, im2, dp, a + b)
  {
    hide Unique, EntriesOf, FreeCount;
  }

  lemma SameDirRoom(im0: Image, im: Image, dp: nat, used: nat)
    requires SameDir(im0, im, dp, used) && HasRoom(im0, dp, used) && Quiet(im) && dp < |im0.inodes|
    ensures CanLink(im, dp) && MapOf(im, dp) == MapOf(im0, dp) && EntriesOf(im, dp) == EntriesOf(im0, dp)
  {
    hide Inv, Settled, Unique, EntriesOf, FreeCount, AllBlocks, DirMap;
    SizeBound(im, dp);
    assert im.len[dp] == im.inodes[dp].size;
  }

  /** A change to another inode leaves the directory. */
  lemma SameDirOthers(im0: Image, im: Image, except: set<nat>, d: nat, used: nat)
    requires Quiet(im0) && Quiet(im) && Others(im0, im, except) && d !in except && IsDir(im0, d)
    requires FreeCount(im) >= FreeCount(im0) - used
    ensures SameDir(im0, im, d, used)
  {
    hide Inv, Settled, Unique, DirMap, Entries, FreeCount;
    assert im0.len[d] == im0.inodes[d].size && im.len[d] == im.inodes[d].size;
  }

  /** So does a change of its own record that keeps the type. */
  lemma SameDirRecord(im0: Image, im: Image, ino: Inode, d: nat)
    requires Quiet(im0) && RecordSet(im0, im, d, ino) && ino.typ == im0.inodes[d].typ && IsDir(im0, d)
    ensures SameDir(im0, im, d, 0)
  {
    RecordKeepsFree(im0, im, d, ino);
    RecordKeepsDir(im0, im, d, ino, d);
    hide Inv, Settled, Synced, Unique, DirMap, Entries, FreeCount;
  }

  /** A directory just allocated has no entries. */
  lemma NewDir(im: Image, ip: nat)
    requires Quiet(im) && ip < |im.inodes| && im.inodes[ip].typ == T_DIR && im.inodes[ip].size == 0
             && FreeCount(im) >= 1
    ensures IsDir(im, ip) && MapOf(im, ip) == map[] && CanLink(im, ip)
  {
    hide Inv, Settled, FreeCount;
    assert EntriesOf(im, ip) == [];
    SizeBound(im, ip);
    assert im.len[ip] == 0;
  }

  /** Both dots fit in the first block. */
  lemma RoomForDots(im: Image, ip: nat, free0: int)
    requires Quiet(im) && ip < |im.inodes| && im.inodes[ip].size <= 16 && free0 >= 1
    requires FreeCount(im) == free0 - (AllBlocks(im.inodes[ip].size) - AllBlocks(0))
    ensures CanLink(im, ip)
  {
    hide Inv, Settled, FreeCount, Entries;
    SizeBound(im, ip);
    assert im.len[ip] == im.inodes[ip].size;
  }

  /** The directory part of create: count ".." in dp, write "." and ".." in the new directory. */
  method MakeDots(fs: FileSystem, dp: nat, ip: nat)
    requires fs.Valid() && IsDir(fs.Img(), dp) && 1 <= dp < 65536 && 1 <= ip < 65536
    requires ip < |fs.inodes| && ip != dp && fs.inodes[ip].typ == T_DIR && fs.inodes[ip].size == 0
             && FreeCount(fs.Img()) >= 1
    modifies fs
    ensures fs.Valid() && |fs.inodes| == |old(fs.inodes)| && SameDir(old(fs.Img()), fs.Img(), dp, 1) && dp < |fs.inodes|
    ensures HasDots(fs.Img(), ip) && MapOf(fs.Img(), ip) == map[DotName() := ip, DotDotName() := dp]
    ensures fs.inodes[dp] == old(fs.inodes[dp]).(nlink := Up(old(fs.inodes[dp].nlink)))
    ensures fs.inodes[ip] == old(fs.inodes[ip]).(size := fs.inodes[ip].size, addrs := fs.inodes[ip].addrs)
    ensures Others(old(fs.Img()), fs.Img(), {ip, dp})
  {
    hide Inv, Settled, Synced, EntriesOf, Unique, Key, MapOf, Data, FreeCount, AllBlocks, CanLink, OthersSame, Others,
         RecordSet, SameDir, IsDir, HasDots, Stay;
    ghost var im0 := fs.Img();
    DotKeys();
    DirIndex(im0, dp);
    ghost var ino := fs.inodes[dp].(nlink := Up(fs.inodes[dp].nlink));
    fs.SetFields(dp, fs.inodes[dp].(nlink := Up(fs.inodes[dp].nlink)));
    ghost var im1 := fs.Img();
    RecordIs(im0, im1, dp, ino);
    SameDirRecord(im0, im1, ino, dp);
    NewDir(im1, ip);
    var r := Dirlink(fs, ip, DotName(), ip);
    ghost var im2 := fs.Img();
    DirIndex(im2, ip);
    RoomForDots(im2, ip, FreeCount(im1));
    r := Dirlink(fs, ip, DotDotName(), dp);
    DirIndex(fs.Img(), ip);
    DotsInPlace(im2, fs.Img(), ip);
    Dots(im0, im1, im2, fs.Img(), dp, ip);
  }

  /** The first two entries of a new directory. */
  lemma DotsInPlace(im: Image, im': Image, ip: nat)
    requires IsDir(im, ip) && im.inodes[ip].size <= 16 && DotName() in MapOf(im, ip)
    requires IsDir(im', ip) && im'.inodes[ip].size <= im.inodes[ip].size + 16 && DotDotName() in MapOf(im', ip)
    requires Stay(EntriesOf(im, ip), EntriesOf(im', ip), DotDotName())
    ensures HasDots(im', ip)
  {
    EntriesLength(im, ip);
    EntriesLength(im', ip);
    hide EntriesOf, DirMap, Unique, Live;
    DirMapIff(EntriesOf(im, ip), DotName());
    DirMapIff(EntriesOf(im', ip), DotDotName());
    FirstTwo(EntriesOf(im, ip), EntriesOf(im', ip));
  }

  lemma FirstTwo(es: seq<Dirent>, es': seq<Dirent>)
    requires |es| <= 1 && |es'| <= |es| + 1 && Stay(es, es', DotDotName())
    requires exists k: nat :: Live(es, k, DotName())
    requires exists k: nat :: Live(es', k, DotDotName())
    ensures Live(es', 0, DotName()) && Live(es', 1, DotDotName())
  {
    var k: nat :| Live(es, k, DotName());
    assert k == 0 && Live(es', 0, DotName());
    var j: nat :| Live(es', j, DotDotName());
  }

  lemma DirIndex(im: Image, dp: nat)
    requires IsDir(im, dp)
    ensures dp < |im.inodes| && im.inodes[dp].typ == T_DIR
  {
  }

  lemma Dots(im0: Image, im1: Image, im2: Image, im3: Image, dp: nat, ip: nat)
    requires Quiet(im0) && Quiet(im1) && Quiet(im2) && Quiet(im3) && ip != dp && ip < |im1.inodes|
    requires Others(im0, im1, {dp}) && SameDir(im0, im1, dp, 0) && OthersSame(im1, im2, ip) && OthersSame(im2, im3, ip)
    requires im1.inodes[ip].size == 0 && ip < |im2.inodes| && im2.inodes[ip].size <= 16
    requires ip < |im3.inodes| && im3.inodes[ip].size <= im2.inodes[ip].size + 16
    requires FreeCount(im2) == FreeCount(im1) - (AllBlocks(im2.inodes[ip].size) - AllBlocks(im1.inodes[ip].size))
    requires FreeCount(im3) == FreeCount(im2) - (AllBlocks(im3.inodes[ip].size) - AllBlocks(im2.inodes[ip].size))
    ensures dp < |im1.inodes| == |im3.inodes| && im3.inodes[dp] == im1.inodes[dp]
    ensures SameDir(im0, im3, dp, 1) && Others(im0, im3, {ip, dp})
  {
    hide Inv, Settled, EntriesOf, Unique, Data, FreeCount, SameDir;
    SameDirIs(im0, im1, dp, 0);
    OthersOne(im1, im2, ip);
    OthersOne(im2, im3, ip);
    OthersThen(im1, im2, im3, {ip}, {ip});
    assert {ip} + {ip} == {ip};
    SameDirOthers(im1, im3, {ip}, dp, 1);
    SameDirTrans(im0, im1, im3, dp, 0, 1);
    OthersThen(im0, im1, im3, {dp}, {ip});
    assert {dp} + {ip} == {ip, dp};
  }

  lemma SameDirIs(im0: Image, im: Image, dp: nat, used: nat)
    requires SameDir(im0, im, dp, used)
    ensures IsDir(im, dp) && dp < |im.inodes| == |im0.inodes|
  {
  }

  /** The file system after create made ip under this name. */
  ghost predicate Created(im0: Image, im: Image, dp: nat, key: seq<byte>, ip: nat, typ: ushort, major: ushort,
      minor: ushort) {
    && dp < |im0.inodes| == |im.inodes| && 1 <= ip < |im.inodes| && ip < 65536 && im0.inodes[ip].typ == 0
    && IsDir(im, dp) && MapOf(im, dp) == MapOf(im0, dp)[key := ip] && Stay(EntriesOf(im0, dp), EntriesOf(im, dp), key)
    && Others(im0, im, {ip, dp})
    && im.inodes[dp] == im0.inodes[dp].(nlink := if typ == T_DIR then Up(im0.inodes[dp].nlink)
        else im0.inodes[dp].nlink,
                                        size := im.inodes[dp].size, addrs := im.inodes[dp].addrs)
    && if typ == T_DIR then
         im.inodes[ip] == Inode(typ, major, minor, 1, im.inodes[ip].size, im.inodes[ip].addrs)
         && HasDots(im, ip) && MapOf(im, ip) == map[DotName() := ip, DotDotName() := dp]
       else im.inodes[ip] == Inode(typ, major, minor, 1, 0, NoAddrs())
  }

  /** create once dp and name are known; At(0) is its failure return. */
  method Create(fs: FileSystem, dp: nat, name: seq<byte>, typ: ushort, major: ushort, minor: ushort) returns (r: Found)
    requires fs.Valid() && IsDir(fs.Img(), dp) && 1 <= dp && |fs.inodes| <= 65536 && typ != 0
    requires HasRoom(fs.Img(), dp, if typ == T_DIR then 1 else 0)
    requires Key(name) in MapOf(fs.Img(), dp) ==> MapOf(fs.Img(), dp)[Key(name)] < |fs.inodes|
    modifies fs
    ensures fs.Valid() && IsDir(fs.Img(), dp)
    ensures r.Panic? <==> Key(name) !in MapOf(old(fs.Img()), dp) && forall j :: 1 <= j < |old(fs.inodes)| ==>
            old(fs.inodes)[j].typ != 0
    ensures r.Panic? || Key(name) in MapOf(old(fs.Img()), dp) ==> fs.Img() == old(fs.Img())
    ensures Key(name) in MapOf(old(fs.Img()), dp) ==>
              var ip := MapOf(old(fs.Img()), dp)[Key(name)];
                  r == At(if typ == T_FILE && old(fs.inodes)[ip].typ == T_FILE then ip else 0)
    ensures r.At? && Key(name) !in MapOf(old(fs.Img()), dp) ==>
            Created(old(fs.Img()), fs.Img(), dp, Key(name), r.n, typ, major, minor)
  {
    hide Inv, Settled, Synced, EntriesOf, Unique, Key, MapOf, Data, FreeCount, AllBlocks, CanLink, OthersSame, Others,
         RecordSet, SameDir, IsDir, HasRoom, Created, Stay, HasDots;
    ghost var im0 := fs.Img();
    DirIndex(im0, dp);
    var ip, _ := Dirlookup(fs, dp, name);
    if ip != 0 {
      if typ == T_FILE && fs.inodes[ip].typ == T_FILE {
        return At(ip);
      }
      return At(0);
    }
    r := fs.Ialloc(typ);
    if r.Panic? {
      return;
    }
    ghost var im1, blank := fs.Img(), Inode(typ, 0, 0, 0, 0, NoAddrs());
    RecordIs(im0, im1, r.n, blank);
    ghost var ino := Inode(typ, major, minor, 1, 0, NoAddrs());
    fs.SetFields(r.n, fs.inodes[r.n].(major := major, minor := minor, nlink := 1));
    ghost var im2 := fs.Img();
    RecordIs(im1, im2, r.n, ino);
    NewRecord(im0, im1, im2, dp, r.n, ino);
    ghost var used := if typ == T_DIR then 1 else 0;
    FreeBlocks(im0, dp, used);
    if typ == T_DIR {
      MakeDots(fs, dp, r.n);
    } else {
      SameImage(im2, dp, r.n);
    }
    ghost var im3 := fs.Img();
    SameDirTrans(im0, im2, im3, dp, 0, used);
    SameDirIs(im0, im3, dp, used);
    SameDirRoom(im0, im3, dp, used);
    var l := Dirlink(fs, dp, name, r.n);
    DirIndex(fs.Img(), dp);
    SameCount(im3, fs.Img(), dp);
    AllDone(im0, im2, im3, fs.Img(), dp, Key(name), r.n, ino);
  }

  /** A free inode has become ino: no directory has changed. */
  lemma NewRecord(im0: Image, im1: Image, im2: Image, dp: nat, ip: nat, ino: Inode)
    requires Quiet(im0) && Quiet(im1) && Quiet(im2) && IsDir(im0, dp) && ip < |im0.inodes| && im0.inodes[ip].typ == 0
    requires Others(im0, im1, {ip}) && Others(im1, im2, {ip}) && FreeCount(im2) == FreeCount(im1) == FreeCount(im0)
    ensures ip != dp && Others(im0, im2, {ip}) && SameDir(im0, im2, dp, 0) && IsDir(im2, dp)
  {
    hide Inv, Settled, Unique, EntriesOf, Data, FreeCount;
    OthersThen(im0, im1, im2, {ip}, {ip});
    assert {ip} + {ip} == {ip};
    SameDirOthers(im0, im2, {ip}, dp, 0);
  }

  lemma FreeBlocks(im: Image, dp: nat, spare: nat)
    requires HasRoom(im, dp, spare)
    ensures FreeCount(im) >= spare
  {
    hide FreeCount, EntriesOf;
  }

  lemma SameImage(im: Image, dp: nat, ip: nat)
    requires IsDir(im, dp) && Quiet(im)
    ensures SameDir(im, im, dp, 0) && Others(im, im, {ip, dp})
  {
    hide Unique, EntriesOf, Data, FreeCount;
    NothingChanged(im);
  }

  /** The steps of create after ialloc: ip filled in, the dots if it is a directory, the entry in dp. */
  lemma AllDone(im0: Image, im1: Image, im2: Image, im3: Image, dp: nat, key: seq<byte>, ip: nat, ino: Inode)
    requires |im0.inodes| == |im1.inodes| == |im2.inodes| == |im3.inodes|
    requires Quiet(im0) && Quiet(im1) && Quiet(im2) && Quiet(im3) && dp < |im0.inodes| && ip != dp
    requires 1 <= ip < |im0.inodes| <= 65536 && im0.inodes[ip].typ == 0 && ino.typ != 0
    requires Others(im0, im1, {ip}) && im1.inodes[ip] == ino
    requires Others(im1, im2, {ip, dp})
    requires im2.inodes[dp] == im0.inodes[dp].(nlink := if ino.typ == T_DIR then Up(im0.inodes[dp].nlink)
             else im0.inodes[dp].nlink)
    requires MapOf(im2, dp) == MapOf(im0, dp) && EntriesOf(im2, dp) == EntriesOf(im0, dp)
    requires Stay(EntriesOf(im2, dp), EntriesOf(im3, dp), key)
    requires if ino.typ == T_DIR then
               im2.inodes[ip] == ino.(size := im2.inodes[ip].size, addrs := im2.inodes[ip].addrs)
               && HasDots(im2, ip) && MapOf(im2, ip) == map[DotName() := ip, DotDotName() := dp]
             else im2.inodes[ip] == ino
    requires OthersSame(im2, im3, dp) && IsDir(im3, dp) && MapOf(im3, dp) == MapOf(im2, dp)[key := ip]
    requires im3.inodes[dp] == im2.inodes[dp].(size := im3.inodes[dp].size, addrs := im3.inodes[dp].addrs)
    requires ino == Inode(ino.typ, ino.major, ino.minor, 1, 0, NoAddrs())
    ensures Created(im0, im3, dp, key, ip, ino.typ, ino.major, ino.minor)
  {
    hide Inv, Settled, Unique, EntriesOf, Data, MapOf, IsDir, Stay, HasDots, Others, OthersSame;
    CreateOthers(im0, im1, im2, im3, dp, ip);
    if ino.typ == T_DIR {
      DotsStay(im2, im3, {dp}, ip);
    }
  }

  lemma SameCount(im0: Image, im: Image, i: nat)
    requires OthersSame(im0, im, i)
    ensures |im0.inodes| == |im.inodes|
  {
  }

  lemma CreateOthers(im0: Image, im1: Image, im2: Image, im3: Image, dp: nat, ip: nat)
    requires Others(im0, im1, {ip}) && Others(im1, im2, {ip, dp}) && OthersSame(im2, im3, dp) && ip != dp
             && ip < |im0.inodes|
    ensures Others(im0, im3, {ip, dp}) && Others(im2, im3, {dp})
    ensures |im3.inodes| == |im2.inodes| == |im0.inodes| && im3.inodes[ip] == im2.inodes[ip]
  {
    hide Data;
    OthersOne(im2, im3, dp);
    OthersThen(im0, im1, im2, {ip}, {ip, dp});
    assert {ip} + {ip, dp} == {ip, dp};
    OthersThen(im0, im2, im3, {ip, dp}, {dp});
    assert {ip, dp} + {dp} == {ip, dp};
  }

  lemma DotsStay(im0: Image, im: Image, except: set<nat>, d: nat)
    requires Quiet(im0) && Quiet(im) && Others(im0, im, except) && d !in except && HasDots(im0, d)
    ensures HasDots(im, d) && MapOf(im, d) == MapOf(im0, d)
  {
    hide Inv, Settled, Unique, DirMap, EntriesOf, Live;
    DirStays(im0, im, except, d);
  }
}
