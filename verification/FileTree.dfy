/**
 The directory tree on the disk. A run of system calls changes the disk the way LinkCounts says, so the link counts in
 the inode records are exact: the statements here are about bytes on the disk, the proofs go through the finite maps.
 */
module FileTree {
  import opened Bytes
  import opened FsImage
  import opened DiskInode
  import opened FileWrite
  import opened Directory
  import opened DirectoryOps
  import opened SysFile
  import opened Fs
  import L = LinkCounts

  /** Inode k of the image is node x of the tree. */
  ghost predicate NodeIs(im: Image, k: nat, x: L.Node) {
    && k < |im.inodes| && x.isDir == (im.inodes[k].typ == T_DIR) && x.nlink == Links(im.inodes[k].nlink)
    && (if x.isDir then HasDots(im, k) && x.entries == MapOf(im, k) else x.entries == map[])
    && forall n :: n in x.entries ==> 1 <= x.entries[n] < |im.inodes|
  }

  predicate Allocated(im: Image, k: nat) {
    1 <= k < |im.inodes| && im.inodes[k].typ != 0
  }

  /** Between two calls, the image is the tree s. */
  ghost predicate Represents(im: Image, s: L.State) {
    && s.owed == multiset{} && |im.inodes| <= 65536
    && (forall k: nat :: k in s.nodes <==> Allocated(im, k))
    && (forall k: nat :: k in s.nodes ==> NodeIs(im, k, s.nodes[k]))
  }

  ghost predicate Tree(im: Image) {
    Quiet(im) && exists s :: Represents(im, s) && L.Inv(s)
  }

  /* Link counts are exact on the disk */

  /** Entry n of d, a directory that still has links, names k; "." does not count. */
  ghost predicate DiskName(im: Image, d: nat, n: Name, k: nat) {
    && Allocated(im, d) && im.inodes[d].typ == T_DIR && Links(im.inodes[d].nlink) >= 1
    && n != DotName() && n in MapOf(im, d) && MapOf(im, d)[n] == k
  }

  ghost function DiskNames(im: Image, k: nat): set<(nat, Name)> {
    set d: nat, n | d < |im.inodes| && n in MapOf(im, d) && DiskName(im, d, n, k) :: (d, n)
  }

  lemma DiskNamesIff(im: Image, k: nat, d: nat, n: Name)
    ensures (d, n) in DiskNames(im, k) <==> DiskName(im, d, n, k)
  {
    hide MapOf;
  }

  /** A directory is still in the tree exactly when it has links. */
  lemma LinkedIff(s: L.State, k: nat)
    requires L.Inv(s) && s.owed == multiset{} && L.IsDir(s, k)
    ensures s.nodes[k].linked <==> s.nodes[k].nlink >= 1
  {
    hide L.NamesOf, L.OneName, L.TreeOk, L.Names, L.HasName;
    assert L.NodeOk(s.nodes[k], k);
    if s.nodes[k].linked {
      if k == L.ROOT {
        NamedHasLinks(s, L.ROOT, DotDotName(), L.ROOT);
      } else {
        HomeName(s, k);
      }
    } else {
      forall d: nat, n
        ensures !L.Names(s.nodes, d, n, k)
      {
        L.DeadUnnamed(s, d, n, k);
      }
      L.NoNames(s.nodes, k);
    }
  }

  lemma HomeName(s: L.State, k: nat)
    requires L.Inv(s) && s.owed == multiset{} && k in s.nodes && DotDotName() in s.nodes[k].entries
             && L.HasName(s.nodes, k)
    ensures s.nodes[k].nlink >= 1
  {
    hide L.NamesOf, L.OneName, L.TreeOk, L.Names, L.HomesOk, L.DotsOk, L.Exact;
    var n :| !L.Dot(n) && L.Names(s.nodes, s.nodes[k].entries[DotDotName()], n, k);
    NamedHasLinks(s, s.nodes[k].entries[DotDotName()], n, k);
  }

  lemma NamedHasLinks(s: L.State, d: nat, n: Name, k: nat)
    requires L.Inv(s) && s.owed == multiset{} && k in s.nodes
    requires L.Names(s.nodes, d, n, k) || (d == k == L.ROOT && n == DotDotName())
    ensures s.nodes[k].nlink >= 1 && L.Names(s.nodes, d, n, k)
  {
    hide L.NamesOf, L.OneName, L.TreeOk;
    L.NamesOfIff(s.nodes, k, d, n);
    assert (d, n) in L.NamesOf(s.nodes, k);
  }

  lemma SameNames(im: Image, s: L.State, d: nat, n: Name, k: nat)
    requires Represents(im, s) && L.Inv(s)
    ensures DiskName(im, d, n, k) <==> L.Names(s.nodes, d, n, k)
  {
    hide L.Inv, MapOf;
    if d in s.nodes {
      assert NodeIs(im, d, s.nodes[d]);
      if L.IsDir(s, d) {
        LinkedIff(s, d);
      }
    }
  }

  /** The link count of every inode on the disk is the number of its names. */
  lemma CountsExact(im: Image, k: nat)
    requires Tree(im) && Allocated(im, k)
    ensures Links(im.inodes[k].nlink) == |DiskNames(im, k)|
  {
    hide L.Inv, DiskNames, DiskName, L.NamesOf;
    var s :| Represents(im, s) && L.Inv(s);
    forall x: (nat, Name)
      ensures x in DiskNames(im, k) <==> x in L.NamesOf(s.nodes, k)
    {
      SameNames(im, s, x.0, x.1, k);
      DiskNamesIff(im, k, x.0, x.1);
      L.NamesOfIff(s.nodes, k, x.0, x.1);
    }
    assert DiskNames(im, k) == L.NamesOf(s.nodes, k);
    assert NodeIs(im, k, s.nodes[k]);
    ExactIs(s, k);
  }

  lemma ExactIs(s: L.State, k: nat)
    requires L.Inv(s) && k in s.nodes && s.owed == multiset{}
    ensures s.nodes[k].nlink == |L.NamesOf(s.nodes, k)|
  {
  }

  /* What sys_unlink relies on */

  /** In a tree, what a directory's names name is there and has links: sys_unlink's panic is out of reach. */
  lemma UnlinkIsSafe(im: Image, dp: nat)
    requires Tree(im) && Allocated(im, dp) && im.inodes[dp].typ == T_DIR
    ensures IsDir(im, dp) && EntriesSound(im, dp)
  {
    hide L.Inv, MapOf, IsDir;
    var s :| Represents(im, s) && L.Inv(s);
    assert NodeIs(im, dp, s.nodes[dp]);
    forall key | key in MapOf(im, dp) && key != DotName() && key != DotDotName()
      ensures EntrySound(im, dp, MapOf(im, dp)[key])
    {
      NameIsSound(s, dp, key);
      assert NodeIs(im, MapOf(im, dp)[key], s.nodes[MapOf(im, dp)[key]]);
    }
  }

  lemma NameIsSound(s: L.State, dp: nat, key: Name)
    requires L.Inv(s) && s.owed == multiset{} && L.IsDir(s, dp) && key in s.nodes[dp].entries && !L.Dot(key)
    ensures s.nodes[dp].linked && s.nodes[dp].entries[key] in s.nodes && s.nodes[dp].entries[key] != dp
    ensures s.nodes[s.nodes[dp].entries[key]].nlink >= 1
  {
    hide L.NamesOf, L.OneName, L.HomesOk, L.Exact;
    assert L.NodeOk(s.nodes[dp], dp);
    assert L.Names(s.nodes, dp, key, s.nodes[dp].entries[key]);
    hide L.TreeOk, L.Names;
    L.OldName(s, dp, key, s.nodes[dp].entries[key]);
    NamedHasLinks(s, dp, key, s.nodes[dp].entries[key]);
  }

  /* Each call changes the tree as LinkCounts says */

  lemma NodeStays(im0: Image, im: Image, except: set<nat>, k: nat, x: L.Node)
    requires Quiet(im0) && Quiet(im) && Others(im0, im, except) && k !in except && NodeIs(im0, k, x)
    ensures NodeIs(im, k, x) && |im.inodes| == |im0.inodes|
  {
    hide Inv, Settled, HasDots, MapOf;
    if x.isDir {
      DotsStay(im0, im, except, k);
    }
  }

  /** To see that im is the tree s it is enough to look at what has changed since im0 was the tree s0. */
  lemma RepresentsFrom(im0: Image, im: Image, s0: L.State, s: L.State, except: set<nat>)
    requires Quiet(im0) && Quiet(im) && Others(im0, im, except) && Represents(im0, s0) && s.owed == multiset{}
    requires forall k: nat :: k !in except ==> (k in s.nodes <==> k in s0.nodes)
    requires forall k: nat :: k !in except && k in s0.nodes ==> s.nodes[k] == s0.nodes[k]
    requires forall k: nat :: k in except ==> (k in s.nodes <==> Allocated(im, k))
    requires forall k: nat :: k in except && k in s.nodes ==> NodeIs(im, k, s.nodes[k])
    ensures Represents(im, s)
  {
    hide NodeIs, Quiet;
    forall k: nat
      ensures k in s.nodes <==> Allocated(im, k)
      ensures k in s.nodes ==> NodeIs(im, k, s.nodes[k])
    {
      if k !in except && k in s.nodes {
        NodeStays(im0, im, except, k, s.nodes[k]);
      }
    }
  }

  /** A directory whose entries change, but not the dots. */
  lemma DirChanged(im0: Image, im: Image, dp: nat, key: Name)
    requires HasDots(im0, dp) && IsDir(im, dp) && !L.Dot(key) && Stay(EntriesOf(im0, dp), EntriesOf(im, dp), key)
    ensures HasDots(im, dp)
  {
    hide EntriesOf, IsDir, Live;
  }

  lemma DotsInMap(im: Image, d: nat)
    requires HasDots(im, d)
    ensures DotName() in MapOf(im, d) && DotDotName() in MapOf(im, d)
  {
    hide EntriesOf, Live, DirMap, Unique;
    DirMapIff(EntriesOf(im, d), DotName());
    DirMapIff(EntriesOf(im, d), DotDotName());
  }

  lemma NodeOf(im: Image, s: L.State, k: nat)
    requires Represents(im, s) && Allocated(im, k)
    ensures k in s.nodes && NodeIs(im, k, s.nodes[k])
  {
    hide NodeIs;
  }

  lemma CreateRefines(im0: Image, im: Image, s: L.State, dp: nat, key: Name, ip: nat, typ: ushort, major: ushort,
      minor: ushort)
    requires Quiet(im0) && Quiet(im) && Represents(im0, s) && Allocated(im0, dp) && im0.inodes[dp].typ == T_DIR
             && typ != 0
    requires key !in MapOf(im0, dp) && Created(im0, im, dp, key, ip, typ, major, minor)
    requires typ == T_DIR ==> Links(im0.inodes[dp].nlink) < 32767
    ensures L.Enabled(s, L.Create(dp, key, typ == T_DIR, ip))
    ensures Represents(im, L.Do(s, L.Create(dp, key, typ == T_DIR, ip)))
  {
    hide Quiet, MapOf, IsDir, HasDots, Others, Stay, Represents;
    NodeOf(im0, s, dp);
    NewNumber(im0, s, ip);
    DotsInMap(im0, dp);
    DirChanged(im0, im, dp, key);
    var t := L.Do(s, L.Create(dp, key, typ == T_DIR, ip));
    assert NodeIs(im, dp, t.nodes[dp]);
    assert NodeIs(im, ip, t.nodes[ip]);
    NoDebt(im0, s);
    RepresentsFrom(im0, im, s, t, {ip, dp});
  }

  lemma NoDebt(im: Image, s: L.State)
    requires Represents(im, s)
    ensures s.owed == multiset{}
  {
  }

  lemma NewNumber(im: Image, s: L.State, ip: nat)
    requires Represents(im, s)
    ensures ip in s.nodes <==> Allocated(im, ip)
  {
  }

  lemma LinkRefines(im0: Image, im: Image, s: L.State, dp: nat, key: Name, ip: nat)
    requires Quiet(im0) && Quiet(im) && Represents(im0, s) && Allocated(im0, dp) && im0.inodes[dp].typ == T_DIR
    requires Allocated(im0, ip) && im0.inodes[ip].typ != T_DIR && key !in MapOf(im0, dp) && Linked(im0, im, dp, key, ip)
    requires Links(im0.inodes[ip].nlink) < 32767
    ensures L.Enabled(s, L.LinkBegin(ip)) && L.Enabled(L.Do(s, L.LinkBegin(ip)), L.LinkEnter(ip, dp, key))
    ensures Represents(im, L.Do(L.Do(s, L.LinkBegin(ip)), L.LinkEnter(ip, dp, key)))
  {
    hide Quiet, MapOf, IsDir, HasDots, Others, Stay, Represents;
    NodeOf(im0, s, dp);
    NodeOf(im0, s, ip);
    DotsInMap(im0, dp);
    DirChanged(im0, im, dp, key);
    NoDebt(im0, s);
    var t := L.Do(L.Do(s, L.LinkBegin(ip)), L.LinkEnter(ip, dp, key));
    assert t.owed == multiset{};
    assert NodeIs(im, dp, t.nodes[dp]);
    assert NodeIs(im, ip, t.nodes[ip]);
    RepresentsFrom(im0, im, s, t, {ip, dp});
  }

  /** Only the dots are left in a directory that isdirempty accepts. */
  lemma EmptyIsEmpty(im: Image, k: nat, x: L.Node)
    requires NodeIs(im, k, x) && x.isDir && OnlyDots(im, k)
    ensures L.EmptyDir(x)
  {
    hide HasDots, MapOf, OnlyDots;
    OnlyDotsIff(im, k);
    assert forall n :: n in x.entries ==> n in x.entries.Keys;
  }

  lemma UnlinkRefines(im0: Image, im: Image, s: L.State, dp: nat, key: Name)
    requires Quiet(im0) && Quiet(im) && Represents(im0, s) && L.Inv(s) && Allocated(im0, dp)
             && im0.inodes[dp].typ == T_DIR
    requires CanUnlink(im0, dp, key) && IsDir(im, dp) && NameGone(im0, im, dp, key, MapOf(im0, dp)[key])
    ensures L.Enabled(s, L.UnlinkEnter(dp, key))
    ensures L.Enabled(L.Do(s, L.UnlinkEnter(dp, key)), L.UnlinkEnd(MapOf(im0, dp)[key]))
    ensures Represents(im, L.Do(L.Do(s, L.UnlinkEnter(dp, key)), L.UnlinkEnd(MapOf(im0, dp)[key])))
  {
    hide Quiet, MapOf, IsDir, HasDots, Others, Stay, Represents, L.Inv, OnlyDots, L.EmptyDir;
    NodeOf(im0, s, dp);
    NoDebt(im0, s);
    NameIsSound(s, dp, key);
    LinkedIff(s, dp);
    var ip := MapOf(im0, dp)[key];
    NewNumber(im0, s, ip);
    NodeOf(im0, s, ip);
    if s.nodes[ip].isDir {
      EmptyIsEmpty(im0, ip, s.nodes[ip]);
      DirUntouched(im0, im, ip, dp, key);
    }
    DirChanged(im0, im, dp, key);
    var t := L.Do(L.Do(s, L.UnlinkEnter(dp, key)), L.UnlinkEnd(ip));
    assert t.owed == multiset{};
    assert NodeIs(im, dp, t.nodes[dp]);
    assert NodeIs(im, ip, t.nodes[ip]);
    RepresentsFrom(im0, im, s, t, {ip, dp});
  }

  /** The directory that is unlinked keeps its contents. */
  lemma DirUntouched(im0: Image, im: Image, ip: nat, dp: nat, key: Name)
    requires HasDots(im0, ip) && dp < |im0.inodes| && NameGone(im0, im, dp, key, ip)
    ensures HasDots(im, ip) && MapOf(im, ip) == MapOf(im0, ip)
  {
    hide Unique, DirMap, Entries, Stay, Others, Live, Data;
    assert EntriesOf(im, ip) == EntriesOf(im0, ip);
  }

  /** iput gives back an inode that has no links. */
  ghost predicate Freed(im0: Image, im: Image, ip: nat) {
    ip < |im0.inodes| && OthersSame(im0, im, ip)
        && im.inodes[ip] == im0.inodes[ip].(typ := 0, size := 0, addrs := NoAddrs())
  }

  lemma FreeRefines(im0: Image, im: Image, s: L.State, ip: nat)
    requires Quiet(im0) && Quiet(im) && Represents(im0, s) && Allocated(im0, ip) && im0.inodes[ip].nlink == 0
             && Freed(im0, im, ip)
    ensures L.Enabled(s, L.Free(ip)) && Represents(im, L.Do(s, L.Free(ip)))
  {
    hide Quiet, MapOf, IsDir, HasDots, Represents;
    NodeOf(im0, s, ip);
    NoDebt(im0, s);
    OthersOne(im0, im, ip);
    hide Others, OthersSame;
    RepresentsFrom(im0, im, s, L.Do(s, L.Free(ip)), {ip});
  }

  /** The contents of a file that is not a directory change. */
  ghost predicate Changed(im0: Image, im: Image, ip: nat) {
    ip < |im0.inodes| && OthersSame(im0, im, ip)
        && im.inodes[ip] == im0.inodes[ip].(size := im.inodes[ip].size, addrs := im.inodes[ip].addrs)
  }

  lemma ChangeRefines(im0: Image, im: Image, s: L.State, ip: nat)
    requires Quiet(im0) && Quiet(im) && Represents(im0, s) && Allocated(im0, ip) && im0.inodes[ip].typ != T_DIR
             && Changed(im0, im, ip)
    ensures Represents(im, s)
  {
    hide Quiet, MapOf, IsDir, HasDots, Represents;
    NodeOf(im0, s, ip);
    NoDebt(im0, s);
    OthersOne(im0, im, ip);
    hide Others, OthersSame;
    RepresentsFrom(im0, im, s, s, {ip});
  }

  /* No link count gets too big */

  ghost predicate NameAt(im: Image, d: nat, n: Name, j: nat) {
    d < |im.inodes| && Live(EntriesOf(im, d), j, n)
  }

  /** Where on the disk the entry for a name is, 32 entries to a block. */
  ghost function Place(im: Image, x: (nat, Name)): int {
    if exists j: nat :: NameAt(im, x.0, x.1, j) then
      var j: nat :| NameAt(im, x.0, x.1, j);
      32 * Addr(im, DataSlot(x.0, j / 32)) + j % 32
    else 0
  }

  /** Entry j of d is in a block that d owns. */
  lemma EntryBlock(im: Image, d: nat, j: nat)
    requires Quiet(im) && d < |im.inodes| && 16 * j + 16 <= im.inodes[d].size
    ensures var a := Addr(im, DataSlot(d, j / 32));
            im.g.DataStart() <= a < im.g.size && a in im.owner && im.owner[a] == DataSlot(d, j / 32)
  {
    hide BitmapExact, FreeBlocksZero, TailZero;
    assert Needed(im, DataSlot(d, j / 32));
  }

  lemma PlaceIs(im: Image, d: nat, n: Name, j0: nat) returns (j: nat)
    requires Quiet(im) && NameAt(im, d, n, j0)
    ensures NameAt(im, d, n, j) && Place(im, (d, n)) == 32 * Addr(im, DataSlot(d, j / 32)) + j % 32
    ensures 32 * im.g.DataStart() <= Place(im, (d, n)) < 32 * im.g.size
    ensures var a := Addr(im, DataSlot(d, j / 32)); a in im.owner && im.owner[a] == DataSlot(d, j / 32)
  {
    hide Quiet, Live, EntriesOf;
    j :| NameAt(im, d, n, j) && Place(im, (d, n)) == 32 * Addr(im, DataSlot(d, j / 32)) + j % 32;
    InSize(im, d, n, j);
    EntryBlock(im, d, j);
  }

  lemma InSize(im: Image, d: nat, n: Name, j: nat)
    requires NameAt(im, d, n, j)
    ensures d < |im.inodes| && 16 * j + 16 <= im.inodes[d].size
  {
    EntriesLength(im, d);
  }

  /** Two names are never in one place. */
  lemma PlacesDiffer(im: Image, x: (nat, Name), y: (nat, Name), j: nat, k: nat)
    requires Quiet(im) && NameAt(im, x.0, x.1, j) && NameAt(im, y.0, y.1, k) && Place(im, x) == Place(im, y)
    ensures x == y
  {
    hide Quiet, NameAt, Addr;
    var j' := PlaceIs(im, x.0, x.1, j);
    var k' := PlaceIs(im, y.0, y.1, k);
    assert j' % 32 == k' % 32;
    assert DataSlot(x.0, j' / 32) == DataSlot(y.0, k' / 32);
    assert j' / 32 == k' / 32;
    OneEntry(im, x.0, x.1, y.1, j');
  }

  lemma OneEntry(im: Image, d: nat, m: Name, n: Name, j: nat)
    requires NameAt(im, d, m, j) && NameAt(im, d, n, j)
    ensures m == n
  {
  }

  /** A set has no more elements than there are numbers to give them. */
  lemma {:induction false} Numbered(im: Image, xs: set<(nat, Name)>, ps: set<int>)
    requires forall x :: x in xs ==> Place(im, x) in ps
    requires forall x, y :: x in xs && y in xs && Place(im, x) == Place(im, y) ==> x == y
    ensures |xs| <= |ps|
  {
    hide Place;
    if xs != {} {
      var x :| x in xs;
      Numbered(im, xs - {x}, ps - {Place(im, x)});
    }
  }

  /** However many directories there are, their entries are on the disk: 32 to a data block. */
  lemma NamesBound(im: Image, k: nat)
    requires Tree(im)
    ensures |DiskNames(im, k)| <= 32 * (im.g.size - im.g.DataStart())
  {
    hide L.Inv, DiskNames, DiskName, Place, Quiet, NameAt, Represents;
    var all := Range(32 * im.g.DataStart(), 32 * im.g.size);
    DataFits(im);
    RangeSize(32 * im.g.DataStart(), 32 * im.g.size);
    forall x: (nat, Name) | x in DiskNames(im, k)
      ensures Place(im, x) in all
    {
      var j := IsAt(im, x.0, x.1, k);
      var j' := PlaceIs(im, x.0, x.1, j);
    }
    forall x: (nat, Name), y: (nat, Name) | x in DiskNames(im, k) && y in DiskNames(im, k)
        && Place(im, x) == Place(im, y)
      ensures x == y
    {
      var i := IsAt(im, x.0, x.1, k);
      var j := IsAt(im, y.0, y.1, k);
      PlacesDiffer(im, x, y, i, j);
    }
    Numbered(im, DiskNames(im, k), all);
  }

  lemma DataFits(im: Image)
    requires Quiet(im)
    ensures im.g.DataStart() <= im.g.size
  {
  }

  lemma IsAt(im: Image, d: nat, n: Name, k: nat) returns (j: nat)
    requires Tree(im) && (d, n) in DiskNames(im, k)
    ensures NameAt(im, d, n, j)
  {
    hide L.Inv, DiskNames, Live, DirMap, Unique, EntriesOf;
    DiskNamesIff(im, k, d, n);
    var s :| Represents(im, s) && L.Inv(s);
    NodeOf(im, s, d);
    DirMapIff(EntriesOf(im, d), n);
    j :| Live(EntriesOf(im, d), j, n);
  }

  /** An image so small that no link count can leave the positive range of 16 bits; a 1024 block image is. */
  predicate CountsFit(g: Geometry) {
    32 * (g.size - g.DataStart()) < 32767
  }

  /* Runs */

  datatype Call =
    | Create(dp: nat, key: Name, ip: nat, typ: ushort, major: ushort, minor: ushort)
    | Link(dp: nat, key: Name, ip: nat)
    | Unlink(dp: nat, key: Name)
    | Free(ip: nat)     // iput of the last reference to an inode without links
    | Change(ip: nat)   // write

  /** key is not in use in dp. */
  ghost predicate CanEnter(im: Image, dp: nat, key: Name) {
    Allocated(im, dp) && im.inodes[dp].typ == T_DIR && key !in MapOf(im, dp)
  }

  /** What the methods of SysFile and FileSystem ensure of the call. */
  ghost predicate Step(im0: Image, c: Call, im: Image) {
    && Quiet(im) && im.g == im0.g
    && match c
       case Create(dp, key, ip, typ, major, minor) => CanEnter(im0, dp, key) && typ != 0
           && Created(im0, im, dp, key, ip, typ, major, minor)
       case Link(dp, key, ip) => CanEnter(im0, dp, key) && Allocated(im0, ip) && im0.inodes[ip].typ != T_DIR
           && Linked(im0, im, dp, key, ip)
       case Unlink(dp, key) =>
         && Allocated(im0, dp) && im0.inodes[dp].typ == T_DIR && CanUnlink(im0, dp, key)
         && IsDir(im, dp) && NameGone(im0, im, dp, key, MapOf(im0, dp)[key])
       case Free(ip) => Allocated(im0, ip) && im0.inodes[ip].nlink == 0 && Freed(im0, im, ip)
       case Change(ip) => Allocated(im0, ip) && im0.inodes[ip].typ != T_DIR && Changed(im0, im, ip)
  }

  /**
   A name may be entered: the directory has not been removed, and the count that goes up is not at the end of its
   range.
   */
  predicate Fits(im: Image, c: Call) {
    match c
    case Create(dp, _, _, typ, _, _) => dp < |im.inodes| && Links(im.inodes[dp].nlink) >= 1
        && (typ == T_DIR ==> Links(im.inodes[dp].nlink) < 32767)
    case Link(dp, _, ip) => dp < |im.inodes| && ip < |im.inodes| && Links(im.inodes[dp].nlink) >= 1
        && Links(im.inodes[ip].nlink) < 32767
    case _ => true
  }

  lemma CreateKeepsTree(im0: Image, c: Call, im: Image)
    requires Tree(im0) && Fits(im0, c) && c.Create? && Step(im0, c, im)
    ensures Tree(im)
  {
    hide L.Inv, MapOf, IsDir, Created, Represents, L.Enabled, L.Do;
    var s :| Represents(im0, s) && L.Inv(s);
    CreateRefines(im0, im, s, c.dp, c.key, c.ip, c.typ, c.major, c.minor);
    var a := L.Create(c.dp, c.key, c.typ == T_DIR, c.ip);
    StillLinked(im0, s, c.dp);
    L.DoKeepsInv(s, a);
  }

  lemma StillLinked(im: Image, s: L.State, dp: nat)
    requires Represents(im, s) && L.Inv(s) && Allocated(im, dp) && im.inodes[dp].typ == T_DIR
             && Links(im.inodes[dp].nlink) >= 1
    ensures L.IsDir(s, dp) && s.nodes[dp].linked
  {
    hide L.Inv, MapOf, HasDots;
    NodeOf(im, s, dp);
    LinkedIff(s, dp);
  }

  lemma LinkKeepsInv(s: L.State, dp: nat, key: Name, ip: nat)
    requires L.Inv(s) && L.Enabled(s, L.LinkBegin(ip)) && L.Enabled(L.Do(s, L.LinkBegin(ip)), L.LinkEnter(ip, dp, key))
    requires L.IsDir(s, dp) && s.nodes[dp].linked
    ensures L.Inv(L.Do(L.Do(s, L.LinkBegin(ip)), L.LinkEnter(ip, dp, key)))
  {
    hide L.Inv;
    L.DoKeepsInv(s, L.LinkBegin(ip));
    L.DoKeepsInv(L.Do(s, L.LinkBegin(ip)), L.LinkEnter(ip, dp, key));
  }

  lemma LinkKeepsTree(im0: Image, c: Call, im: Image)
    requires Tree(im0) && Fits(im0, c) && c.Link? && Step(im0, c, im)
    ensures Tree(im)
  {
    hide L.Inv, MapOf, IsDir, Linked, Represents, L.Enabled, L.Do;
    var s :| Represents(im0, s) && L.Inv(s);
    LinkRefines(im0, im, s, c.dp, c.key, c.ip);
    StillLinked(im0, s, c.dp);
    LinkKeepsInv(s, c.dp, c.key, c.ip);
  }

  lemma UnlinkKeepsTree(im0: Image, c: Call, im: Image)
    requires Tree(im0) && c.Unlink? && Step(im0, c, im)
    ensures Tree(im)
  {
    hide L.Inv, MapOf, IsDir, NameGone, Represents, L.Enabled, L.Do, OnlyDots;
    var s :| Represents(im0, s) && L.Inv(s);
    UnlinkRefines(im0, im, s, c.dp, c.key);
    L.DoKeepsInv(s, L.UnlinkEnter(c.dp, c.key));
    L.DoKeepsInv(L.Do(s, L.UnlinkEnter(c.dp, c.key)), L.UnlinkEnd(MapOf(im0, c.dp)[c.key]));
  }

  lemma StepKeepsTree(im0: Image, c: Call, im: Image)
    requires Tree(im0) && Fits(im0, c) && Step(im0, c, im)
    ensures Tree(im)
  {
    hide L.Inv, Represents, L.Enabled, L.Do, Freed, Changed, MapOf, IsDir, CanUnlink, NameGone, Linked, Created,
         CanEnter, Fits;
    match c
    case Create(_, _, _, _, _, _) => CreateKeepsTree(im0, c, im);
    case Link(_, _, _) => LinkKeepsTree(im0, c, im);
    case Unlink(_, _) => UnlinkKeepsTree(im0, c, im);
    case Free(ip) =>
      var s :| Represents(im0, s) && L.Inv(s);
      FreeRefines(im0, im, s, ip);
      L.DoKeepsInv(s, L.Free(ip));
    case Change(ip) =>
      var s :| Represents(im0, s) && L.Inv(s);
      ChangeRefines(im0, im, s, ip);
  }

  /* A name that should not have been entered */

  /** The marks that go with the counts. */
  ghost predicate MarksFollow(s: L.State) {
    forall k :: k in s.nodes ==> (s.nodes[k].linked <==> s.nodes[k].isDir && s.nodes[k].nlink >= 1)
  }

  lemma TreeMarks(s: L.State)
    requires L.Inv(s) && s.owed == multiset{}
    ensures MarksFollow(s)
  {
    hide L.TreeOk, L.OneName, L.HomesOk, L.Exact;
    forall k | k in s.nodes
      ensures s.nodes[k].linked <==> s.nodes[k].isDir && s.nodes[k].nlink >= 1
    {
      assert L.NodeOk(s.nodes[k], k);
      if s.nodes[k].isDir {
        LinkedIff(s, k);
      }
    }
  }

  /** Two trees that an image represents differ in the marks at most. */
  lemma SameNodes(im: Image, s: L.State, t: L.State)
    requires Represents(im, s) && Represents(im, t)
    ensures forall k: nat :: k in s.nodes <==> k in t.nodes
    ensures forall k: nat :: k in s.nodes ==> t.nodes[k] == s.nodes[k].(linked := t.nodes[k].linked)
    ensures t.owed == s.owed == multiset{}
    ensures MarksFollow(s) && MarksFollow(t) ==> s == t
  {
    hide HasDots, MapOf;
    forall k: nat | k in s.nodes
      ensures k in t.nodes && t.nodes[k] == s.nodes[k].(linked := t.nodes[k].linked)
    {
      assert NodeIs(im, k, s.nodes[k]) && NodeIs(im, k, t.nodes[k]);
    }
    if MarksFollow(s) && MarksFollow(t) {
      assert s.nodes.Keys == t.nodes.Keys;
      assert s.nodes == t.nodes;
    }
  }

  /** What does not have exact counts is no tree. */
  lemma NotExact(im: Image, u: L.State)
    requires Represents(im, u) && MarksFollow(u) && !L.Exact(u)
    ensures !Tree(im)
  {
    hide L.Exact, L.TreeOk, L.OneName, L.HomesOk, L.DotsOk, Represents;
    if Tree(im) {
      var v :| Represents(im, v) && L.Inv(v);
      SameNodes(im, u, v);
      TreeMarks(v);
    }
  }

  /** A second name in a removed directory. */
  lemma DeadLink(im0: Image, c: Call, im: Image)
    requires Tree(im0) && c.Link? && Step(im0, c, im) && Links(im0.inodes[c.ip].nlink) < 32767
             && Links(im0.inodes[c.dp].nlink) < 1
    ensures !Tree(im)
  {
    hide L.Inv, MapOf, HasDots, IsDir, Linked, Represents, L.Exact;
    var s :| Represents(im0, s) && L.Inv(s);
    LinkRefines(im0, im, s, c.dp, c.key, c.ip);
    SameNodes(im0, s, s);
    TreeMarks(s);
    NodeOf(im0, s, c.dp);
    NodeOf(im0, s, c.ip);
    L.DoKeepsInv(s, L.LinkBegin(c.ip));
    var t := L.Do(s, L.LinkBegin(c.ip));
    L.ExactIff(t, L.LinkEnter(c.ip, c.dp, c.key));
    NotExact(im, L.Do(t, L.LinkEnter(c.ip, c.dp, c.key)));
  }

  /** A file in a removed directory. */
  lemma DeadFile(im0: Image, c: Call, im: Image)
    requires Tree(im0) && c.Create? && c.typ != T_DIR && Step(im0, c, im) && Links(im0.inodes[c.dp].nlink) < 1
    ensures !Tree(im)
  {
    hide L.Inv, MapOf, HasDots, IsDir, Created, Represents, L.Exact;
    var s :| Represents(im0, s) && L.Inv(s);
    CreateRefines(im0, im, s, c.dp, c.key, c.ip, c.typ, c.major, c.minor);
    SameNodes(im0, s, s);
    TreeMarks(s);
    NodeOf(im0, s, c.dp);
    var a := L.Create(c.dp, c.key, false, c.ip);
    L.ExactIff(s, a);
    NotExact(im, L.Do(s, a));
  }

  /** A directory in a removed directory, which so gets a link again, but no name. */
  lemma DeadDir(im0: Image, c: Call, im: Image)
    requires Tree(im0) && c.Create? && c.typ == T_DIR && Step(im0, c, im) && Links(im0.inodes[c.dp].nlink) < 1
    ensures !Tree(im)
  {
    hide L.Inv, MapOf, HasDots, IsDir, Created, Represents, L.Enabled, L.Do;
    var s :| Represents(im0, s) && L.Inv(s);
    CreateRefines(im0, im, s, c.dp, c.key, c.ip, c.typ, c.major, c.minor);
    SameNodes(im0, s, s);
    NodeOf(im0, s, c.dp);
    LinkedIff(s, c.dp);
    var u := L.Do(s, L.Create(c.dp, c.key, true, c.ip));
    if Tree(im) {
      var v :| Represents(im, v) && L.Inv(v);
      SameNodes(im, u, v);
      Nameless(s, u, v, c.dp, c.key, c.ip);
    }
  }

  lemma Nameless(s: L.State, u: L.State, v: L.State, dp: nat, key: Name, ip: nat)
    requires L.Inv(s) && s.owed == multiset{} && L.IsDir(s, dp) && !s.nodes[dp].linked
    requires L.Enabled(s, L.Create(dp, key, true, ip)) && u == L.Do(s, L.Create(dp, key, true, ip))
    requires forall k: nat :: k in u.nodes <==> k in v.nodes
    requires forall k: nat :: k in u.nodes ==> v.nodes[k] == u.nodes[k].(linked := v.nodes[k].linked)
    requires v.owed == multiset{}
    ensures !L.Inv(v)
  {
    hide L.Inv, L.EmptyDir;
    RemovedDir(s, dp);
    assert v.nodes[dp].nlink == 1;
    if L.Inv(v) {
      LinkedIff(v, dp);
      var p, n := NameOf(v, dp);
      if p != ip && p != dp {
        SameLinks(s, v, p, n, dp);
      }
    }
  }

  lemma RemovedDir(s: L.State, d: nat)
    requires L.Inv(s) && s.owed == multiset{} && L.IsDir(s, d) && !s.nodes[d].linked
    ensures s.nodes[d].nlink == 0 && d != L.ROOT && forall n :: n in s.nodes[d].entries ==> L.Dot(n)
  {
    hide L.NamesOf, L.OneName, L.TreeOk, L.HasName;
    assert L.NodeOk(s.nodes[d], d);
    LinkedIff(s, d);
    ExactIs(s, d);
  }

  /** A directory in the tree, the root apart, has its name where its ".." says. */
  lemma NameOf(s: L.State, d: nat) returns (p: nat, n: Name)
    requires L.Inv(s) && L.IsDir(s, d) && s.nodes[d].linked && d != L.ROOT
    ensures !L.Dot(n) && L.Names(s.nodes, p, n, d)
  {
    hide L.NamesOf, L.OneName, L.TreeOk, L.Exact, L.Names;
    assert L.HasName(s.nodes, d);
    p := s.nodes[d].entries[DotDotName()];
    n :| !L.Dot(n) && L.Names(s.nodes, p, n, d);
  }

  /** A directory that has links in v has them in s, where nothing names dp. */
  lemma SameLinks(s: L.State, v: L.State, p: nat, n: Name, dp: nat)
    requires L.Inv(s) && L.Inv(v) && s.owed == v.owed == multiset{} && L.IsDir(s, dp) && !s.nodes[dp].linked
    requires p in s.nodes && p in v.nodes && v.nodes[p] == s.nodes[p].(linked := v.nodes[p].linked)
    ensures !L.Names(v.nodes, p, n, dp)
  {
    hide L.Inv;
    if L.Names(v.nodes, p, n, dp) {
      LinkedIff(v, p);
      LinkedIff(s, p);
      L.DeadUnnamed(s, p, n, dp);
    }
  }

  /** Past the range of the count it is negative. */
  lemma Overflowed(im0: Image, c: Call, im: Image)
    requires Tree(im0) && Step(im0, c, im)
    requires (c.Create? && c.typ == T_DIR && Links(im0.inodes[c.dp].nlink) == 32767)
             || (c.Link? && Links(im0.inodes[c.ip].nlink) == 32767)
    ensures !Tree(im)
  {
    hide Tree, MapOf, IsDir, HasDots, Others, DiskNames, Stay;
    var k := if c.Create? then c.dp else c.ip;
    assert Links(im.inodes[k].nlink) < 0;
    if Tree(im) {
      CountsExact(im, k);
    }
  }

  lemma EntersSomewhere(im0: Image, c: Call, im: Image)
    requires Step(im0, c, im) && (c.Create? || c.Link?)
    ensures c.dp < |im0.inodes| && (c.Link? ==> c.ip < |im0.inodes|)
  {
    hide MapOf, IsDir, Created, Linked;
  }

  /** A call leaves a tree if and only if it fits. */
  lemma StepTreeIff(im0: Image, c: Call, im: Image)
    requires Tree(im0) && Step(im0, c, im)
    ensures Tree(im) <==> Fits(im0, c)
  {
    hide Tree, Step;
    if Fits(im0, c) {
      StepKeepsTree(im0, c, im);
    } else {
      EntersSomewhere(im0, c, im);
      if (c.Create? && c.typ == T_DIR && Links(im0.inodes[c.dp].nlink) == 32767)
          || (c.Link? && Links(im0.inodes[c.ip].nlink) == 32767) {
        Overflowed(im0, c, im);
      } else if c.Link? {
        DeadLink(im0, c, im);
      } else if c.typ == T_DIR {
        DeadDir(im0, c, im);
      } else {
        DeadFile(im0, c, im);
      }
    }
  }

  /** The calls take the disk through these images. */
  ghost predicate Run(ims: seq<Image>, calls: seq<Call>) {
    |ims| == |calls| + 1 && forall i :: 0 <= i < |calls| ==> Step(ims[i], calls[i], ims[i + 1])
  }

  ghost predicate AllFit(ims: seq<Image>, calls: seq<Call>) {
    |ims| == |calls| + 1 && forall i :: 0 <= i < |calls| ==> Fits(ims[i], calls[i])
  }

  /** All images of a run are trees if and only if all its calls fit. */
  lemma RunTreesIff(ims: seq<Image>, calls: seq<Call>)
    requires Run(ims, calls) && Tree(ims[0])
    ensures (forall i :: 0 <= i < |ims| ==> Tree(ims[i])) <==> AllFit(ims, calls)
  {
    hide Tree, Step, Fits;
    if AllFit(ims, calls) {
      forall i | 0 <= i < |ims|
        ensures Tree(ims[i])
      {
        RunKeepsTree(ims, calls, i);
      }
    }
    if forall i :: 0 <= i < |ims| ==> Tree(ims[i]) {
      forall i | 0 <= i < |calls|
        ensures Fits(ims[i], calls[i])
      {
        assert Tree(ims[i]) && Tree(ims[i + 1]);
        StepTreeIff(ims[i], calls[i], ims[i + 1]);
      }
    }
  }

  lemma {:induction false} RunKeepsTree(ims: seq<Image>, calls: seq<Call>, i: nat)
    requires Run(ims, calls) && Tree(ims[0]) && AllFit(ims, calls) && i <= |calls|
    ensures Tree(ims[i])
  {
    hide Tree, Step, Fits;
    if i > 0 {
      RunKeepsTree(ims, calls, i - 1);
      assert Step(ims[i - 1], calls[i - 1], ims[i]) && Fits(ims[i - 1], calls[i - 1]);
      StepKeepsTree(ims[i - 1], calls[i - 1], ims[i]);
    }
  }

  /**
   After every run of calls that fit, the link count on the disk of every inode in use is the number of entries, other
   than ".", that name it in directories that have links, and a directory can be unlinked from without a panic.
   */
  lemma RunCountsExact(ims: seq<Image>, calls: seq<Call>, k: nat)
    requires Run(ims, calls) && Tree(ims[0]) && AllFit(ims, calls) && Allocated(ims[|calls|], k)
    ensures var im := ims[|calls|];
            Links(im.inodes[k].nlink) == |DiskNames(im, k)| && (im.inodes[k].typ == T_DIR ==> EntriesSound(im, k))
  {
    hide Tree, Step, AllFit, DiskNames, EntriesSound;
    var im := ims[|calls|];
    RunKeepsTree(ims, calls, |calls|);
    CountsExact(im, k);
    if im.inodes[k].typ == T_DIR {
      UnlinkIsSafe(im, k);
    }
  }

  /** On a small image counts do not come near the end of their range. */
  lemma SmallDiskFits(im0: Image, c: Call, im: Image)
    requires Tree(im0) && Step(im0, c, im) && CountsFit(im0.g)
    ensures Fits(im0, c) <==> (c.Create? || c.Link? ==> c.dp < |im0.inodes| && Links(im0.inodes[c.dp].nlink) >= 1)
  {
    hide Tree, DiskNames, MapOf, IsDir, Created, Linked;
    if c.Create? || c.Link? {
      var k := if c.Create? then c.dp else c.ip;
      CountsExact(im0, k);
      NamesBound(im0, k);
    }
  }

  /** writei is such a change. */
  lemma WriteIsChange(im0: Image, im: Image, ip: nat, off: nat, src: seq<byte>)
    requires ip < |im0.inodes| && WriteDone(im0, im, ip, off, src)
    ensures Changed(im0, im, ip)
  {
    hide Inv, Settled, Synced, Data, FreeCount, AllBlocks;
  }
}
