/** skipelem and namex (kernel/fs.c): from a path to an inode. A path is a C string without its NUL. */
module Paths {
  import opened Bytes
  import opened FsImage
  import opened Directory
  import opened DirectoryOps
  import opened SysFile
  import opened Fs
  import opened FileTree
  import L = LinkCounts

  const SLASH: byte := 47

  /* Elements of a path */

  /** The elements of a path; cur is the part already read of the first one. */
  function Split(path: seq<byte>, cur: Name): seq<Name> {
    if path == [] then (if cur == [] then [] else [cur])
    else if path[0] != SLASH then Split(path[1..], cur + [path[0]])
    else (if cur == [] then [] else [cur]) + Split(path[1..], [])
  }

  function Elements(path: seq<byte>): seq<Name> {
    Split(path, [])
  }

  /** A path with these elements. */
  function Join(es: seq<Name>): seq<byte> {
    if es == [] then [] else [SLASH] + es[0] + Join(es[1..])
  }

  lemma {:induction false} SplitElement(e: Name, rest: seq<byte>, cur: Name)
    requires SLASH !in e && (rest == [] || rest[0] == SLASH) && cur + e != []
    ensures Split(e + rest, cur) == [cur + e] + Elements(rest)
  {
    if e == [] {
      assert e + rest == rest && cur + e == cur;
      if rest != [] {
        assert Elements(rest) == Split(rest[1..], []);
      }
    } else {
      assert (e + rest)[1..] == e[1..] + rest && cur + [e[0]] + e[1..] == cur + e;
      SplitElement(e[1..], rest, cur + [e[0]]);
    }
  }

  lemma {:induction false} SplitSlashes(n: nat, path: seq<byte>)
    requires n <= |path| && forall k :: 0 <= k < n ==> path[k] == SLASH
    ensures Elements(path) == Elements(path[n..])
  {
    if n > 0 {
      SplitSlashes(n - 1, path[1..]);
      assert path[1..][n - 1..] == path[n..];
    } else {
      assert path[n..] == path;
    }
  }

  /** What is joined from names is split into the same names. */
  lemma {:induction false} SplitJoin(es: seq<Name>)
    requires forall i :: 0 <= i < |es| ==> es[i] != [] && SLASH !in es[i]
    ensures Elements(Join(es)) == es
  {
    if es != [] {
      var p, rest := Join(es), Join(es[1..]);
      assert p[1..] == es[0] + rest;
      assert rest == [] || rest[0] == SLASH;
      SplitElement(es[0], rest, []);
      assert [] + es[0] == es[0];
      SplitJoin(es[1..]);
    }
  }

  /** A name of 14 bytes or more fills the buffer; a shorter one has a NUL after it. */
  lemma NameKey(e: Name)
    ensures Key(if |e| >= DIRSIZ then e[..DIRSIZ] else e + [0]) == Key(e)
  {
    var s := if |e| >= DIRSIZ then e[..DIRSIZ] else e + [0];
    SameChars(e, s, DIRSIZ);
  }

  lemma {:induction false} SameChars(s: seq<byte>, t: seq<byte>, n: nat)
    requires forall k :: 0 <= k < n ==> CharAt(s, k) == CharAt(t, k)
    ensures Cut(s, n) == Cut(t, n)
  {
    if n > 0 {
      CutUnfold(s, n);
      CutUnfold(t, n);
      assert CharAt(s, 0) == CharAt(t, 0);
      if CharAt(s, 0) != 0 {
        forall k | 0 <= k < n - 1
          ensures CharAt(s[1..], k) == CharAt(t[1..], k)
        {
          assert CharAt(s, k + 1) == CharAt(t, k + 1);
        }
        SameChars(s[1..], t[1..], n - 1);
      }
    }
  }

  /** The index after the slashes that start at p. */
  method AfterSlashes(path: seq<byte>, p: nat) returns (q: nat)
    requires p <= |path|
    ensures p <= q <= |path| && (q < |path| ==> path[q] != SLASH)
    ensures Elements(path[p..]) == Elements(path[q..])
  {
    q := p;
    while q < |path| && path[q] == SLASH
      invariant p <= q <= |path| && forall k :: p <= k < q ==> path[k] == SLASH
    {
      q := q + 1;
    }
    SplitSlashes(q - p, path[p..]);
    assert path[p..][q - p..] == path[q..];
  }

  /** The next element and the path after it, which does not start with a slash. */
  method Skipelem(path: seq<byte>) returns (found: bool, rest: seq<byte>, name: Name)
    requires 0 !in path
    ensures found <==> Elements(path) != []
    ensures found ==> Elements(path)[1..] == Elements(rest) && Key(name) == Key(Elements(path)[0])
    ensures found ==> |rest| < |path| && 0 !in rest && (rest == [] <==> |Elements(path)| == 1)
  {
    hide Key, Elements;
    var s := AfterSlashes(path, 0);
    assert path[0..] == path;
    NoMoreIff(path[s..]);
    if s == |path| {
      return false, [], [];
    }
    var p := s + 1;
    while p < |path| && path[p] != SLASH
      invariant s < p <= |path| && SLASH !in path[s..p]
    {
      assert path[s..p + 1] == path[s..p] + [path[p]];
      p := p + 1;
    }
    var e := path[s..p];
    name := if p - s >= DIRSIZ then e[..DIRSIZ] else e + [0];
    NameKey(e);
    FirstElement(e, path[p..]);
    assert path[s..] == e + path[p..];
    p := AfterSlashes(path, p);
    found, rest := true, path[p..];
    NoMoreIff(rest);
  }

  lemma FirstElement(e: Name, rest: seq<byte>)
    requires e != [] && SLASH !in e && (rest == [] || rest[0] == SLASH)
    ensures Elements(e + rest) == [e] + Elements(rest)
  {
    SplitElement(e, rest, []);
    assert [] + e == e;
  }

  /** A path that does not start with a slash has elements unless it is empty. */
  lemma NoMoreIff(path: seq<byte>)
    requires path == [] || path[0] != SLASH
    ensures Elements(path) == [] <==> path == []
  {
    if path != [] {
      StartedElement(path[1..], [path[0]]);
      assert [] + [path[0]] == [path[0]];
    }
  }

  lemma {:induction false} StartedElement(path: seq<byte>, cur: Name)
    requires cur != []
    ensures Split(path, cur) != []
  {
    if path != [] {
      StartedElement(path[1..], cur + [path[0]]);
    }
  }

  /* Lookup */

  /** Where a path leads. NoType: on the way ilock finds a free inode and panics. */
  datatype Lookup = Nowhere | Reached(ip: nat) | NoType

  ghost predicate IsDirectory(im: Image, k: nat) {
    Allocated(im, k) && im.inodes[k].typ == T_DIR
  }

  /** The inode that the elements lead to from ip. */
  ghost function Resolve(im: Image, ip: nat, es: seq<Name>): Lookup
    decreases |es|
  {
    if es == [] then Reached(ip)
    else if !Allocated(im, ip) then NoType
    else if IsDirectory(im, ip) && Key(es[0]) in MapOf(im, ip) then Resolve(im, MapOf(im, ip)[Key(es[0])], es[1..])
    else Nowhere
  }

  /** The directory that all elements but the last lead to. */
  ghost function ResolveParent(im: Image, ip: nat, es: seq<Name>): Lookup {
    if es == [] then Nowhere else Locked(im, Resolve(im, ip, es[..|es| - 1]))
  }

  /** A directory that is reached is locked. */
  ghost function Locked(im: Image, r: Lookup): Lookup {
    if r.Reached? && !Allocated(im, r.ip) then NoType else if r.Reached? && !IsDirectory(im, r.ip) then Nowhere else r
  }

  /** Looking up a path is looking up its last element in the directory that the others lead to. */
  lemma {:induction false} ResolveLast(im: Image, ip: nat, es: seq<Name>)
    requires es != []
    ensures var d, key := ResolveParent(im, ip, es), Key(es[|es| - 1]);
            Resolve(im, ip, es) == if !d.Reached? then d
                else if key in MapOf(im, d.ip) then Reached(MapOf(im, d.ip)[key]) else Nowhere
    decreases |es|
  {
    hide MapOf, Key;
    if |es| > 1 {
      assert es[..|es| - 1][0] == es[0] && es[..|es| - 1][1..] == es[1..][..|es| - 2];
      if IsDirectory(im, ip) && Key(es[0]) in MapOf(im, ip) {
        ResolveLast(im, MapOf(im, ip)[Key(es[0])], es[1..]);
      }
    } else {
      assert es[..|es| - 1] == [] && es[1..] == [];
    }
  }

  /* What a lookup comes across */

  /** An inode in use; a directory is still in the tree. */
  ghost predicate InTree(im: Image, k: nat) {
    Allocated(im, k) && (im.inodes[k].typ == T_DIR ==> Links(im.inodes[k].nlink) >= 1)
  }

  ghost predicate Removed(im: Image, d: nat) {
    IsDirectory(im, d) && Links(im.inodes[d].nlink) < 1
  }

  lemma RootInTree(im: Image)
    requires Tree(im)
    ensures InTree(im, L.ROOT) && IsDirectory(im, L.ROOT)
  {
    var s :| Represents(im, s) && L.Inv(s);
    LinkedIff(s, L.ROOT);
    NodeOf(im, s, L.ROOT);
  }

  /** Lookups in the tree stay in the tree, whether down, by "." or by "..". */
  lemma StaysInTree(im: Image, d: nat, key: Name)
    requires Tree(im) && InTree(im, d) && IsDirectory(im, d) && key in MapOf(im, d)
    ensures InTree(im, MapOf(im, d)[key])
  {
    hide L.Inv, MapOf, HasDots;
    var s :| Represents(im, s) && L.Inv(s);
    StillLinked(im, s, d);
    NodeOf(im, s, d);
    NextNode(s, d, key);
    var k := s.nodes[d].entries[key];
    NewNumber(im, s, k);
    NodeOf(im, s, k);
    if L.IsDir(s, k) {
      LinkedIff(s, k);
    }
  }

  lemma NextNode(s: L.State, d: nat, key: Name)
    requires L.Inv(s) && L.IsDir(s, d) && s.nodes[d].linked && key in s.nodes[d].entries
    ensures s.nodes[d].entries[key] in s.nodes
    ensures L.IsDir(s, s.nodes[d].entries[key]) ==> s.nodes[s.nodes[d].entries[key]].linked
  {
    hide L.NamesOf, L.OneName, L.Exact;
    assert L.NodeOk(s.nodes[d], d);
    var k := s.nodes[d].entries[key];
    if key == DotDotName() && d != L.ROOT {
      assert L.HasName(s.nodes, d);
    }
    if key != DotName() {
      assert L.Names(s.nodes, d, key, k);
      L.OldName(s, d, key, k);
    }
  }

  /** Only ".." of a removed directory can name an inode that is not in use. */
  lemma OnlyDotDot(im: Image, d: nat, key: Name)
    requires Tree(im) && IsDirectory(im, d) && key in MapOf(im, d)
    ensures 1 <= MapOf(im, d)[key] < |im.inodes|
    ensures !Allocated(im, MapOf(im, d)[key]) ==> Removed(im, d) && key == DotDotName()
  {
    hide L.Inv, MapOf, HasDots;
    var s :| Represents(im, s) && L.Inv(s);
    NodeOf(im, s, d);
    if InTree(im, d) {
      StaysInTree(im, d, key);
    } else {
      LinkedIff(s, d);
      OnlyDotsLeft(s, d, key);
    }
  }

  lemma OnlyDotsLeft(s: L.State, d: nat, key: Name)
    requires L.Inv(s) && L.IsDir(s, d) && !s.nodes[d].linked && key in s.nodes[d].entries
    ensures key != DotDotName() ==> s.nodes[d].entries[key] == d
  {
    assert L.NodeOk(s.nodes[d], d);
  }

  /** From a place in the tree, a lookup finds inodes in use only. */
  lemma {:induction false} FromTheTree(im: Image, ip: nat, es: seq<Name>)
    requires Tree(im) && InTree(im, ip)
    ensures var r := Resolve(im, ip, es); !r.NoType? && (r.Reached? ==> InTree(im, r.ip))
    decreases |es|
  {
    hide Tree, MapOf, Key;
    if es != [] && IsDirectory(im, ip) && Key(es[0]) in MapOf(im, ip) {
      StaysInTree(im, ip, Key(es[0]));
      FromTheTree(im, MapOf(im, ip)[Key(es[0])], es[1..]);
    }
  }

  /** After j elements the lookup is in a removed directory; the next is "..", and names a free inode. */
  ghost predicate Dangling(im: Image, ip: nat, es: seq<Name>, j: nat)
    requires j < |es|
  {
    var r := Resolve(im, ip, es[..j]);
    r.Reached? && Removed(im, r.ip) && Key(es[j]) == DotDotName() && DotDotName() in MapOf(im, r.ip)
        && !Allocated(im, MapOf(im, r.ip)[DotDotName()])
  }

  /** A lookup from an inode in use panics if and only if it goes on after such a "..". */
  lemma {:induction false} NoTypeIff(im: Image, ip: nat, es: seq<Name>)
    requires Tree(im) && Allocated(im, ip)
    ensures Resolve(im, ip, es).NoType? <==> exists j :: 0 <= j < |es| - 1 && Dangling(im, ip, es, j)
    decreases |es|
  {
    hide Tree, MapOf, Key;
    if es != [] {
      assert es[..0] == [];
      if IsDirectory(im, ip) && Key(es[0]) in MapOf(im, ip) {
        var k := MapOf(im, ip)[Key(es[0])];
        OnlyDotDot(im, ip, Key(es[0]));
        if Allocated(im, k) {
          NoTypeIff(im, k, es[1..]);
          forall j | 0 < j < |es|
            ensures Dangling(im, ip, es, j) == Dangling(im, k, es[1..], j - 1)
          {
            assert es[..j][0] == es[0] && es[..j][1..] == es[1..][..j - 1];
          }
          if i :| 0 <= i < |es[1..]| - 1 && Dangling(im, k, es[1..], i) {
            assert Dangling(im, ip, es, i + 1);
          }
        } else if |es| > 1 {
          assert Dangling(im, ip, es, 0);
        }
      } else {
        forall j | 0 <= j < |es| - 1
          ensures !Dangling(im, ip, es, j)
        {
          if j > 0 {
            assert es[..j][0] == es[0];
          }
        }
      }
    }
  }

  /** namei, or nameiparent if parent: then the last element is not looked up, but left in name. */
  method Namex(fs: FileSystem, cwd: nat, path: seq<byte>, parent: bool) returns (r: Lookup, name: Name)
    requires fs.Valid() && Tree(fs.Img()) && Allocated(fs.Img(), cwd) && 0 !in path
    modifies fs
    ensures fs.Img() == old(fs.Img())
    ensures var start, es := if path != [] && path[0] == SLASH then L.ROOT else cwd, Elements(path);
            r == (if parent then ResolveParent(fs.Img(), start, es) else Resolve(fs.Img(), start, es))
            && (parent && r.Reached? ==> es != [] && Key(name) == Key(es[|es| - 1]))
  {
    hide Inv, Settled, DiskInode.Synced, EntriesOf, MapOf, Key, Tree, Elements, IsDir, EntriesSound, Resolve;
    ghost var im := fs.Img();
    RootInTree(im);
    name := [];
    var ip := if path != [] && path[0] == SLASH then L.ROOT else cwd;
    ghost var start, es, done := ip, Elements(path), 0;
    var rest := path;
    assert es[0..] == es;
    while true
      invariant fs.Img() == im && ip < |fs.inodes| && 0 !in rest && done <= |es| && Elements(rest) == es[done..]
      invariant ip >= 1
      invariant Resolve(im, ip, es[done..]) == Resolve(im, start, es)
      invariant done < |es| ==> Resolve(im, ip, es[done..|es| - 1]) == Resolve(im, start, es[..|es| - 1])
      invariant parent && done == |es| ==> es == []
      decreases |rest|
    {
      var found, after, elem := Skipelem(rest);
      NextElement(im, ip, es, done);
      if !found {
        break;
      }
      name, rest := elem, after;
      if fs.inodes[ip].typ == 0 {
        return NoType, name;
      }
      if fs.inodes[ip].typ != T_DIR {
        return Nowhere, name;
      }
      if parent && rest == [] {
        return Reached(ip), name;
      }
      UnlinkIsSafe(im, ip);
      var next, _ := Dirlookup(fs, ip, name);
      if next == 0 {
        return Nowhere, name;
      }
      OnlyDotDot(im, ip, Key(name));
      ip, done := next, done + 1;
    }
    if parent {
      return Nowhere, name;
    }
    r := Reached(ip);
  }

  /** One step of a lookup: of the whole path, and of the path without its last element. */
  lemma NextElement(im: Image, ip: nat, es: seq<Name>, done: nat)
    requires done <= |es|
    ensures done == |es| ==> es[done..] == [] && Resolve(im, ip, es[done..]) == Reached(ip)
    ensures done < |es| ==> es[done..] != [] && es[done..][0] == es[done] && es[done..][1..] == es[done + 1..]
    ensures done < |es| ==> Resolve(im, ip, es[done..]) == Next(im, ip, es[done], es[done + 1..])
    ensures done + 1 < |es| ==> Resolve(im, ip, es[done..|es| - 1]) == Next(im, ip, es[done], es[done + 1..|es| - 1])
    ensures done + 1 == |es| ==> Resolve(im, ip, es[done..|es| - 1]) == Reached(ip)
  {
    hide MapOf, Key;
    if done + 1 < |es| {
      assert es[done..|es| - 1][0] == es[done] && es[done..|es| - 1][1..] == es[done + 1..|es| - 1];
    }
  }

  ghost function Next(im: Image, ip: nat, e: Name, es: seq<Name>): Lookup {
    if !Allocated(im, ip) then NoType
    else if IsDirectory(im, ip) && Key(e) in MapOf(im, ip) then Resolve(im, MapOf(im, ip)[Key(e)], es)
    else Nowhere
  }
}
