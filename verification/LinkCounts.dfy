/**
 Link counts (kernel/sysfile.c: create, sys_link, sys_unlink). Directories are the finite maps that Directory.dfy and
 DirectoryOps.dfy show them to be. Each action is what one system call does between taking and giving up the locks of
 the inodes it changes.
 */
module LinkCounts {
  import opened Bytes
  import opened Directory

  const ROOT := 1

  /** An inode. linked: for a directory, that it has not been removed from its parent; no code reads it. */
  datatype Node = Node(isDir: bool, nlink: int, linked: bool, entries: map<Name, nat>)

  /**
   nodes: the allocated inodes. owed: the inodes whose count some call in the middle of its work has raised, or not
   lowered yet; it is only there to state properties.
   */
  datatype State = State(nodes: map<nat, Node>, owed: multiset<nat>)

  datatype Action =
    | Create(dp: nat, name: Name, isDir: bool, k: nat)
    | LinkBegin(k: nat)                            // ip->nlink++
    | LinkEnter(k: nat, dp: nat, name: Name)     // dirlink(dp, name, ip->inum)
    | LinkUndo(k: nat)                             // bad: ip->nlink--
    | UnlinkEnter(dp: nat, name: Name)           // zero the entry; dp->nlink-- for a directory
    | UnlinkEnd(k: nat)                            // ip->nlink--
    | Free(k: nat)                                 // iput finds no links and no other references

  predicate IsDir(s: State, d: nat) {
    d in s.nodes && s.nodes[d].isDir
  }

  predicate Dot(name: Name) {
    name == DotName() || name == DotDotName()
  }

  /** isdirempty. */
  ghost predicate EmptyDir(x: Node) {
    forall n :: n in x.entries ==> Dot(n)
  }

  /**
   When a call comes to the action. A call that owes an inode has a reference to it, so iput does not free it; dirlink
   and create find the name not in use.
   */
  ghost predicate Enabled(s: State, a: Action) {
    match a
    case Create(dp, name, isDir, k) => IsDir(s, dp) && name !in s.nodes[dp].entries && k !in s.nodes
    case LinkBegin(k) => k in s.nodes && !s.nodes[k].isDir
    case LinkEnter(k, dp, name) => k in s.nodes && !s.nodes[k].isDir && s.owed[k] > 0 && IsDir(s, dp)
        && name !in s.nodes[dp].entries
    case LinkUndo(k) => k in s.nodes && s.owed[k] > 0
    case UnlinkEnter(dp, name) =>
      && IsDir(s, dp) && !Dot(name) && name in s.nodes[dp].entries && s.nodes[dp].entries[name] in s.nodes
      && (s.nodes[s.nodes[dp].entries[name]].isDir ==> EmptyDir(s.nodes[s.nodes[dp].entries[name]]))
    case UnlinkEnd(k) => k in s.nodes && s.owed[k] > 0
    case Free(k) => k in s.nodes && s.nodes[k].nlink == 0 && s.owed[k] == 0
  }

  function Relink(s: State, k: nat, delta: int): map<nat, Node>
    requires k in s.nodes
  {
    s.nodes[k := s.nodes[k].(nlink := s.nodes[k].nlink + delta)]
  }

  function Created(s: State, dp: nat, name: Name, isDir: bool, k: nat): State
    requires IsDir(s, dp)
  {
    var x := s.nodes[dp];
    var ip := Node(isDir, 1, isDir && x.linked, if isDir then map[DotName() := k, DotDotName() := dp] else map[]);
    s.(nodes := s.nodes[k := ip][dp := x.(entries := x.entries[name := k], nlink := x.nlink + if isDir then 1 else 0)])
  }

  function Entered(s: State, k: nat, dp: nat, name: Name): State
    requires IsDir(s, dp)
  {
    var x := s.nodes[dp];
    State(s.nodes[dp := x.(entries := x.entries[name := k])], s.owed - multiset{k})
  }

  function Removed(s: State, dp: nat, name: Name): State
    requires IsDir(s, dp) && name in s.nodes[dp].entries && s.nodes[dp].entries[name] in s.nodes
  {
    var x := s.nodes[dp];
    var k := x.entries[name];
    var x' := x.(entries := x.entries - {name}, nlink := x.nlink - if s.nodes[k].isDir then 1 else 0);
    var nodes := s.nodes[dp := x'];
    State(nodes[k := nodes[k].(linked := false)], s.owed + multiset{k})
  }

  function Do(s: State, a: Action): State
    requires Enabled(s, a)
  {
    match a
    case Create(dp, name, isDir, k) => Created(s, dp, name, isDir, k)
    case LinkBegin(k) => State(Relink(s, k, 1), s.owed + multiset{k})
    case LinkEnter(k, dp, name) => Entered(s, k, dp, name)
    case LinkUndo(k) => State(Relink(s, k, -1), s.owed - multiset{k})
    case UnlinkEnter(dp, name) => Removed(s, dp, name)
    case UnlinkEnd(k) => State(Relink(s, k, -1), s.owed - multiset{k})
    case Free(k) => s.(nodes := s.nodes - {k})
  }

  /* What always holds */

  /** Entry n of the linked directory d names k. "." does not count. */
  predicate Names(nodes: map<nat, Node>, d: nat, n: Name, k: nat) {
    d in nodes && nodes[d].isDir && nodes[d].linked && n != DotName() && n in nodes[d].entries
        && nodes[d].entries[n] == k
  }

  /** The entries that name k. */
  ghost function NamesOf(nodes: map<nat, Node>, k: nat): set<(nat, Name)> {
    set d, n | d in nodes && n in nodes[d].entries && Names(nodes, d, n, k) :: (d, n)
  }

  lemma NamesOfIff(nodes: map<nat, Node>, k: nat, d: nat, n: Name)
    ensures (d, n) in NamesOf(nodes, k) <==> Names(nodes, d, n, k)
  {
  }

  /** The count of every inode is the number of entries that name it, and what is owed on it. */
  ghost predicate Exact(s: State) {
    forall k :: k in s.nodes ==> s.nodes[k].nlink == |NamesOf(s.nodes, k)| + s.owed[k]
  }

  /**
   A directory has its dots, and nothing else once it is removed from its parent; no other kind of inode has entries.
   */
  ghost predicate NodeOk(x: Node, k: nat) {
    if x.isDir then
      DotName() in x.entries && x.entries[DotName()] == k && DotDotName() in x.entries && (!x.linked ==> EmptyDir(x))
    else x.entries == map[] && !x.linked
  }

  ghost predicate DotsOk(s: State) {
    forall k {:trigger s.nodes[k]} :: k in s.nodes ==> NodeOk(s.nodes[k], k)
  }

  /** Entries of linked directories name allocated inodes, and a subdirectory's ".." is where its name is. */
  ghost predicate TreeOk(s: State)
    requires DotsOk(s)
  {
    && (forall d, n, k :: Names(s.nodes, d, n, k) ==> k in s.nodes)
    && (forall d, n, k :: Names(s.nodes, d, n, k) && !Dot(n) && IsDir(s, k) ==>
         k != ROOT && k != d && s.nodes[k].linked && s.nodes[k].entries[DotDotName()] == d)
  }

  /** A directory has one name, beside the dots. */
  ghost predicate OneName(s: State) {
    forall d, m, n, k :: Names(s.nodes, d, m, k) && Names(s.nodes, d, n, k) && !Dot(m) && !Dot(n) && IsDir(s, k) ==>
        m == n
  }

  /** The parent of k, which its ".." says, names it. */
  ghost predicate HasName(nodes: map<nat, Node>, k: nat)
    requires k in nodes && DotDotName() in nodes[k].entries
  {
    exists n :: !Dot(n) && Names(nodes, nodes[k].entries[DotDotName()], n, k)
  }

  ghost predicate HomesOk(s: State)
    requires DotsOk(s)
  {
    && IsDir(s, ROOT) && s.nodes[ROOT].linked && DotDotName() in s.nodes[ROOT].entries
        && s.nodes[ROOT].entries[DotDotName()] == ROOT
    && forall k :: IsDir(s, k) && s.nodes[k].linked && k != ROOT ==> HasName(s.nodes, k)
  }

  ghost predicate Inv(s: State) {
    && DotsOk(s) && TreeOk(s) && OneName(s) && HomesOk(s) && Exact(s)
    && forall k :: s.owed[k] > 0 ==> k in s.nodes
  }

  /** A flat image as mkfs makes it: a root that holds files only, each once. */
  ghost predicate Init(s: State) {
    && s.owed == multiset{}
    && ROOT in s.nodes && s.nodes[ROOT].isDir && s.nodes[ROOT].linked && s.nodes[ROOT].nlink == 1
    && DotName() in s.nodes[ROOT].entries && DotDotName() in s.nodes[ROOT].entries
    && s.nodes[ROOT].entries[DotName()] == s.nodes[ROOT].entries[DotDotName()] == ROOT
    && (forall k :: k in s.nodes && k != ROOT ==>
      s.nodes[k] == Node(false, 1, false, map[]) && exists n :: Holds(s, n, k))
    && (forall n :: n in s.nodes[ROOT].entries && !Dot(n) ==>
      s.nodes[ROOT].entries[n] in s.nodes && s.nodes[ROOT].entries[n] != ROOT)
    && (forall m, n, k :: Holds(s, m, k) && Holds(s, n, k) ==> m == n)
  }

  predicate Holds(s: State, n: Name, k: nat) {
    IsDir(s, ROOT) && n in s.nodes[ROOT].entries && s.nodes[ROOT].entries[n] == k && !Dot(n)
  }

  lemma OnlyName(nodes: map<nat, Node>, k: nat, d: nat, n: Name)
    requires forall e: nat, m :: Names(nodes, e, m, k) <==> e == d && m == n
    ensures NamesOf(nodes, k) == {(d, n)}
  {
    forall x: (nat, Name)
      ensures x in NamesOf(nodes, k) <==> x == (d, n)
    {
      NamesOfIff(nodes, k, x.0, x.1);
    }
  }

  lemma InitInv(s: State)
    requires Init(s)
    ensures Inv(s)
  {
    forall k | k in s.nodes
      ensures s.nodes[k].nlink == |NamesOf(s.nodes, k)|
    {
      if k == ROOT {
        OnlyName(s.nodes, k, ROOT, DotDotName());
      } else {
        var n :| Holds(s, n, k);
        forall e: nat, m
          ensures Names(s.nodes, e, m, k) <==> e == ROOT && m == n
        {
          assert Names(s.nodes, e, m, k) ==> Holds(s, m, k);
        }
        OnlyName(s.nodes, k, ROOT, n);
      }
    }
  }

  /* Which entries name what, after each action */

  /** The entries that name j are those they were, with some more and without some. */
  lemma NamesChange(nodes: map<nat, Node>, nodes': map<nat, Node>, j: nat, more: set<(nat, Name)>,
      less: set<(nat, Name)>)
    requires forall d: nat, n :: Names(nodes', d, n, j) <==>
             (Names(nodes, d, n, j) || (d, n) in more) && (d, n) !in less
    ensures NamesOf(nodes', j) == NamesOf(nodes, j) + more - less
  {
    forall x: (nat, Name)
      ensures x in NamesOf(nodes', j) <==> x in NamesOf(nodes, j) + more - less
    {
      NamesOfIff(nodes, j, x.0, x.1);
      NamesOfIff(nodes', j, x.0, x.1);
    }
  }

  lemma CreatedName(s: State, dp: nat, name: Name, isDir: bool, k: nat, d: nat, n: Name, j: nat)
    requires Inv(s) && Enabled(s, Create(dp, name, isDir, k)) && s.nodes[dp].linked
    ensures Names(Created(s, dp, name, isDir, k).nodes, d, n, j) <==>
            Names(s.nodes, d, n, j) || (j == k && d == dp && n == name)
                || (isDir && j == dp && d == k && n == DotDotName())
  {
    hide OneName, NamesOf, TreeOk, HomesOk, Exact;
  }

  ghost function MoreNames(dp: nat, name: Name, isDir: bool, k: nat, j: nat): set<(nat, Name)> {
    (if j == k then {(dp, name)} else {}) + (if isDir && j == dp then {(k, DotDotName())} else {})
  }

  lemma CreatedNames(s: State, dp: nat, name: Name, isDir: bool, k: nat, j: nat)
    requires Inv(s) && Enabled(s, Create(dp, name, isDir, k)) && s.nodes[dp].linked
    ensures NamesOf(Created(s, dp, name, isDir, k).nodes, j) == NamesOf(s.nodes, j) + MoreNames(dp, name, isDir, k, j)
    ensures forall x :: x in MoreNames(dp, name, isDir, k, j) ==> x !in NamesOf(s.nodes, j)
    ensures j == k ==> NamesOf(s.nodes, j) == {}
  {
    hide Inv, Created;
    forall d: nat, n
      ensures Names(Created(s, dp, name, isDir, k).nodes, d, n, j) <==>
              (Names(s.nodes, d, n, j) || (d, n) in MoreNames(dp, name, isDir, k, j)) && (d, n) !in {}
    {
      CreatedName(s, dp, name, isDir, k, d, n, j);
    }
    NamesChange(s.nodes, Created(s, dp, name, isDir, k).nodes, j, MoreNames(dp, name, isDir, k, j), {});
    CreatedNew(s, dp, name, isDir, k, j);
  }

  lemma CreatedNew(s: State, dp: nat, name: Name, isDir: bool, k: nat, j: nat)
    requires Inv(s) && Enabled(s, Create(dp, name, isDir, k))
    ensures forall x :: x in MoreNames(dp, name, isDir, k, j) ==> x !in NamesOf(s.nodes, j)
    ensures j == k ==> NamesOf(s.nodes, j) == {}
  {
    assert forall d, n :: !Names(s.nodes, d, n, k);
  }

  lemma EnteredName(s: State, k: nat, dp: nat, name: Name, d: nat, n: Name, j: nat)
    requires Inv(s) && Enabled(s, LinkEnter(k, dp, name)) && s.nodes[dp].linked
    ensures Names(Entered(s, k, dp, name).nodes, d, n, j) <==>
            Names(s.nodes, d, n, j) || (j == k && d == dp && n == name)
  {
    hide OneName, NamesOf, TreeOk, HomesOk, Exact;
  }

  lemma EnteredNames(s: State, k: nat, dp: nat, name: Name, j: nat)
    requires Inv(s) && Enabled(s, LinkEnter(k, dp, name)) && s.nodes[dp].linked
    ensures NamesOf(Entered(s, k, dp, name).nodes, j) == NamesOf(s.nodes, j) + (if j == k then {(dp, name)} else {})
    ensures (dp, name) !in NamesOf(s.nodes, j)
  {
    hide Inv, Entered;
    var more: set<(nat, Name)> := if j == k then {(dp, name)} else {};
    forall d: nat, n
      ensures Names(Entered(s, k, dp, name).nodes, d, n, j) <==>
              (Names(s.nodes, d, n, j) || (d, n) in more) && (d, n) !in {}
    {
      EnteredName(s, k, dp, name, d, n, j);
    }
    NamesChange(s.nodes, Entered(s, k, dp, name).nodes, j, more, {});
    NamesOfIff(s.nodes, j, dp, name);
  }

  ghost function LostNames(s: State, dp: nat, name: Name, j: nat): set<(nat, Name)>
    requires IsDir(s, dp) && name in s.nodes[dp].entries
  {
    var k := s.nodes[dp].entries[name];
    (if j == k then {(dp, name)} else {}) + (if IsDir(s, k) && j == dp then {(k, DotDotName())} else {})
  }

  lemma RemovedName(s: State, dp: nat, name: Name, d: nat, n: Name, j: nat)
    requires Inv(s) && Enabled(s, UnlinkEnter(dp, name)) && s.nodes[dp].linked
    ensures Names(Removed(s, dp, name).nodes, d, n, j) <==>
            Names(s.nodes, d, n, j) && (d, n) !in LostNames(s, dp, name, j)
  {
    hide OneName, NamesOf, HomesOk, Exact;
    assert Names(s.nodes, dp, name, s.nodes[dp].entries[name]);
  }

  lemma RemovedNames(s: State, dp: nat, name: Name, j: nat)
    requires Inv(s) && Enabled(s, UnlinkEnter(dp, name)) && s.nodes[dp].linked
    ensures NamesOf(Removed(s, dp, name).nodes, j) == NamesOf(s.nodes, j) - LostNames(s, dp, name, j)
    ensures LostNames(s, dp, name, j) <= NamesOf(s.nodes, j)
  {
    hide Inv, Removed;
    forall d: nat, n
      ensures Names(Removed(s, dp, name).nodes, d, n, j) <==>
              (Names(s.nodes, d, n, j) || (d, n) in {}) && (d, n) !in LostNames(s, dp, name, j)
    {
      RemovedName(s, dp, name, d, n, j);
    }
    NamesChange(s.nodes, Removed(s, dp, name).nodes, j, {}, LostNames(s, dp, name, j));
    LostWereNames(s, dp, name, j);
  }

  lemma LostWereNames(s: State, dp: nat, name: Name, j: nat)
    requires Inv(s) && Enabled(s, UnlinkEnter(dp, name)) && s.nodes[dp].linked
    ensures LostNames(s, dp, name, j) <= NamesOf(s.nodes, j)
  {
    var k := s.nodes[dp].entries[name];
    assert Names(s.nodes, dp, name, k);
    NamesOfIff(s.nodes, k, dp, name);
    NamesOfIff(s.nodes, dp, k, DotDotName());
  }

  /* Every action keeps the invariant, as long as its directory is still linked */

  lemma CreateExact(s: State, dp: nat, name: Name, isDir: bool, k: nat)
    requires Inv(s) && Enabled(s, Create(dp, name, isDir, k)) && s.nodes[dp].linked
    ensures Exact(Created(s, dp, name, isDir, k))
  {
    hide Inv, Created;
    var t := Created(s, dp, name, isDir, k);
    forall j | j in t.nodes
      ensures t.nodes[j].nlink == |NamesOf(t.nodes, j)| + t.owed[j]
    {
      CreatedCount(s, dp, name, isDir, k, j);
    }
  }

  lemma CreatedCount(s: State, dp: nat, name: Name, isDir: bool, k: nat, j: nat)
    requires Inv(s) && Enabled(s, Create(dp, name, isDir, k)) && s.nodes[dp].linked
    requires j in Created(s, dp, name, isDir, k).nodes
    ensures var t := Created(s, dp, name, isDir, k); t.nodes[j].nlink == |NamesOf(t.nodes, j)| + t.owed[j]
  {
    CreatedNames(s, dp, name, isDir, k, j);
    hide OneName, TreeOk, HomesOk, DotsOk, NamesOf;
  }

  /** What a name says of the directory it names. */
  ghost predicate NameOk(s: State, d: nat, n: Name, k: nat) {
    && k in s.nodes
    && (!Dot(n) && IsDir(s, k) ==>
         k != ROOT && k != d && s.nodes[k].linked && DotDotName() in s.nodes[k].entries
             && s.nodes[k].entries[DotDotName()] == d)
  }

  lemma OldName(s: State, d: nat, n: Name, k: nat)
    requires Inv(s) && Names(s.nodes, d, n, k)
    ensures NameOk(s, d, n, k)
  {
    hide OneName, NamesOf, HomesOk, Exact;
  }

  lemma TreeFrom(s: State)
    requires DotsOk(s) && forall d: nat, n, k: nat :: Names(s.nodes, d, n, k) ==> NameOk(s, d, n, k)
    ensures TreeOk(s)
  {
    hide DotsOk, NamesOf;
    forall d: nat, n, k: nat | Names(s.nodes, d, n, k)
      ensures k in s.nodes && (!Dot(n) && IsDir(s, k) ==>
              k != ROOT && k != d && s.nodes[k].linked && s.nodes[k].entries[DotDotName()] == d)
    {
      assert NameOk(s, d, n, k);
    }
  }

  /** A directory keeps its home as long as it keeps its names. */
  lemma HomeStays(nodes: map<nat, Node>, nodes': map<nat, Node>, k: nat)
    requires k in nodes && k in nodes' && DotDotName() in nodes[k].entries && DotDotName() in nodes'[k].entries
             && nodes'[k].entries[DotDotName()] == nodes[k].entries[DotDotName()]
    requires HasName(nodes, k) && forall n :: !Dot(n) && Names(nodes, nodes[k].entries[DotDotName()], n, k) ==>
             Names(nodes', nodes[k].entries[DotDotName()], n, k)
    ensures HasName(nodes', k)
  {
  }

  lemma CreateDots(s: State, dp: nat, name: Name, isDir: bool, k: nat)
    requires Inv(s) && Enabled(s, Create(dp, name, isDir, k)) && s.nodes[dp].linked
    ensures var t := Created(s, dp, name, isDir, k); DotsOk(t) && k != ROOT
  {
    hide OneName, NamesOf, TreeOk, Exact;
    assert NodeOk(s.nodes[dp], dp);
  }

  lemma CreateTree(s: State, dp: nat, name: Name, isDir: bool, k: nat)
    requires Inv(s) && Enabled(s, Create(dp, name, isDir, k)) && s.nodes[dp].linked
    ensures DotsOk(Created(s, dp, name, isDir, k)) && TreeOk(Created(s, dp, name, isDir, k))
  {
    hide Inv, DotsOk, Names;
    var t := Created(s, dp, name, isDir, k);
    CreateDots(s, dp, name, isDir, k);
    forall d: nat, n, j: nat | Names(t.nodes, d, n, j)
      ensures NameOk(t, d, n, j)
    {
      CreatedName(s, dp, name, isDir, k, d, n, j);
      if Names(s.nodes, d, n, j) {
        OldName(s, d, n, j);
      }
    }
    TreeFrom(t);
  }

  lemma CreateHomes(s: State, dp: nat, name: Name, isDir: bool, k: nat)
    requires Inv(s) && Enabled(s, Create(dp, name, isDir, k)) && s.nodes[dp].linked
    ensures DotsOk(Created(s, dp, name, isDir, k)) && HomesOk(Created(s, dp, name, isDir, k))
  {
    CreateDots(s, dp, name, isDir, k);
    hide OneName, NamesOf, TreeOk, Exact, DotsOk, Names, HasName;
    var t := Created(s, dp, name, isDir, k);
    forall j | IsDir(t, j) && t.nodes[j].linked && j != ROOT
      ensures DotDotName() in t.nodes[j].entries && HasName(t.nodes, j)
    {
      CreateHome(s, dp, name, isDir, k, j);
    }
  }

  lemma CreateHome(s: State, dp: nat, name: Name, isDir: bool, k: nat, j: nat)
    requires Inv(s) && Enabled(s, Create(dp, name, isDir, k)) && s.nodes[dp].linked
    requires var t := Created(s, dp, name, isDir, k); IsDir(t, j) && t.nodes[j].linked && j != ROOT
    ensures var t := Created(s, dp, name, isDir, k); DotDotName() in t.nodes[j].entries && HasName(t.nodes, j)
  {
    hide OneName, NamesOf, TreeOk, Exact, HasName, Names;
    var t := Created(s, dp, name, isDir, k);
    if j == k {
      CreatedName(s, dp, name, isDir, k, dp, name, k);
      HomeIs(t.nodes, k, name);
    } else {
      forall n
        ensures Names(s.nodes, s.nodes[j].entries[DotDotName()], n, j) ==>
                Names(t.nodes, s.nodes[j].entries[DotDotName()], n, j)
      {
        CreatedName(s, dp, name, isDir, k, s.nodes[j].entries[DotDotName()], n, j);
      }
      HomeStays(s.nodes, t.nodes, j);
    }
  }

  lemma HomeIs(nodes: map<nat, Node>, k: nat, n: Name)
    requires k in nodes && DotDotName() in nodes[k].entries && !Dot(n)
             && Names(nodes, nodes[k].entries[DotDotName()], n, k)
    ensures HasName(nodes, k)
  {
  }

  lemma CreateOneName(s: State, dp: nat, name: Name, isDir: bool, k: nat)
    requires Inv(s) && Enabled(s, Create(dp, name, isDir, k)) && s.nodes[dp].linked
    ensures OneName(Created(s, dp, name, isDir, k))
  {
    hide NamesOf, Exact, HomesOk, DotsOk, Names;
    var t := Created(s, dp, name, isDir, k);
    forall d: nat, m, n, j: nat | Names(t.nodes, d, m, j) && Names(t.nodes, d, n, j) && !Dot(m) && !Dot(n)
        && IsDir(t, j)
      ensures m == n
    {
      CreatedName(s, dp, name, isDir, k, d, m, j);
      CreatedName(s, dp, name, isDir, k, d, n, j);
    }
  }

  lemma CreateKeepsInv(s: State, dp: nat, name: Name, isDir: bool, k: nat)
    requires Inv(s) && Enabled(s, Create(dp, name, isDir, k)) && s.nodes[dp].linked
    ensures Inv(Do(s, Create(dp, name, isDir, k)))
  {
    hide OneName, TreeOk, HomesOk, Exact, DotsOk;
    CreateExact(s, dp, name, isDir, k);
    CreateDots(s, dp, name, isDir, k);
    CreateTree(s, dp, name, isDir, k);
    CreateHomes(s, dp, name, isDir, k);
    CreateOneName(s, dp, name, isDir, k);
  }

  lemma LinkEnterExact(s: State, k: nat, dp: nat, name: Name)
    requires Inv(s) && Enabled(s, LinkEnter(k, dp, name)) && s.nodes[dp].linked
    ensures Exact(Entered(s, k, dp, name))
  {
    hide OneName, TreeOk, HomesOk;
    var t := Entered(s, k, dp, name);
    forall j | j in t.nodes
      ensures t.nodes[j].nlink == |NamesOf(t.nodes, j)| + t.owed[j]
    {
      EnteredNames(s, k, dp, name, j);
    }
  }

  lemma LinkEnterDots(s: State, k: nat, dp: nat, name: Name)
    requires Inv(s) && Enabled(s, LinkEnter(k, dp, name)) && s.nodes[dp].linked
    ensures var t := Entered(s, k, dp, name); DotsOk(t)
  {
    hide OneName, NamesOf, TreeOk, Exact, HomesOk;
  }

  lemma LinkEnterTree(s: State, k: nat, dp: nat, name: Name)
    requires Inv(s) && Enabled(s, LinkEnter(k, dp, name)) && s.nodes[dp].linked
    ensures DotsOk(Entered(s, k, dp, name)) && TreeOk(Entered(s, k, dp, name))
  {
    hide Inv, DotsOk, Names;
    var t := Entered(s, k, dp, name);
    LinkEnterDots(s, k, dp, name);
    forall d: nat, n, j: nat | Names(t.nodes, d, n, j)
      ensures NameOk(t, d, n, j)
    {
      EnteredName(s, k, dp, name, d, n, j);
      if Names(s.nodes, d, n, j) {
        OldName(s, d, n, j);
      }
    }
    TreeFrom(t);
  }

  lemma LinkEnterHome(s: State, k: nat, dp: nat, name: Name, j: nat)
    requires Inv(s) && Enabled(s, LinkEnter(k, dp, name)) && s.nodes[dp].linked
    requires var t := Entered(s, k, dp, name); IsDir(t, j) && t.nodes[j].linked && j != ROOT
    ensures var t := Entered(s, k, dp, name); DotDotName() in t.nodes[j].entries && HasName(t.nodes, j)
  {
    hide OneName, NamesOf, TreeOk, Exact, HasName, Names;
    var t := Entered(s, k, dp, name);
    forall n
      ensures Names(s.nodes, s.nodes[j].entries[DotDotName()], n, j) ==>
              Names(t.nodes, s.nodes[j].entries[DotDotName()], n, j)
    {
      EnteredName(s, k, dp, name, s.nodes[j].entries[DotDotName()], n, j);
    }
    HomeStays(s.nodes, t.nodes, j);
  }

  lemma LinkEnterOneName(s: State, k: nat, dp: nat, name: Name)
    requires Inv(s) && Enabled(s, LinkEnter(k, dp, name)) && s.nodes[dp].linked
    ensures OneName(Entered(s, k, dp, name))
  {
    hide NamesOf, Exact, HomesOk, TreeOk, DotsOk, Names;
    var t := Entered(s, k, dp, name);
    forall d: nat, m, n, j: nat | Names(t.nodes, d, m, j) && Names(t.nodes, d, n, j) && !Dot(m) && !Dot(n)
        && IsDir(t, j)
      ensures m == n
    {
      EnteredName(s, k, dp, name, d, m, j);
      EnteredName(s, k, dp, name, d, n, j);
    }
  }

  /** A name that is not in use is not one of the dots. */
  lemma NotADot(s: State, dp: nat, name: Name)
    requires DotsOk(s) && IsDir(s, dp) && name !in s.nodes[dp].entries
    ensures !Dot(name)
  {
    assert NodeOk(s.nodes[dp], dp);
  }

  lemma LinkEnterHomes(s: State, k: nat, dp: nat, name: Name)
    requires Inv(s) && Enabled(s, LinkEnter(k, dp, name)) && s.nodes[dp].linked
    ensures DotsOk(Entered(s, k, dp, name)) && HomesOk(Entered(s, k, dp, name))
  {
    hide OneName, NamesOf, TreeOk, Exact, DotsOk, HasName, Names;
    LinkEnterDots(s, k, dp, name);
    NotADot(s, dp, name);
    var t := Entered(s, k, dp, name);
    assert IsDir(t, ROOT) && t.nodes[ROOT].linked && DotDotName() in t.nodes[ROOT].entries
        && t.nodes[ROOT].entries[DotDotName()] == ROOT;
    forall j | IsDir(t, j) && t.nodes[j].linked && j != ROOT
      ensures DotDotName() in t.nodes[j].entries && HasName(t.nodes, j)
    {
      LinkEnterHome(s, k, dp, name, j);
    }
  }

  lemma LinkEnterKeepsInv(s: State, k: nat, dp: nat, name: Name)
    requires Inv(s) && Enabled(s, LinkEnter(k, dp, name)) && s.nodes[dp].linked
    ensures Inv(Do(s, LinkEnter(k, dp, name)))
  {
    hide OneName, NamesOf, TreeOk, Exact, DotsOk, HomesOk;
    LinkEnterExact(s, k, dp, name);
    LinkEnterDots(s, k, dp, name);
    LinkEnterTree(s, k, dp, name);
    LinkEnterOneName(s, k, dp, name);
    LinkEnterHomes(s, k, dp, name);
  }

  lemma UnlinkEnterExact(s: State, dp: nat, name: Name)
    requires Inv(s) && Enabled(s, UnlinkEnter(dp, name)) && s.nodes[dp].linked
    ensures Exact(Removed(s, dp, name))
  {
    hide OneName, TreeOk, HomesOk;
    var t := Removed(s, dp, name);
    NotItself(s, dp, name);
    forall j | j in t.nodes
      ensures t.nodes[j].nlink == |NamesOf(t.nodes, j)| + t.owed[j]
    {
      RemovedNames(s, dp, name, j);
    }
  }

  lemma NotItself(s: State, dp: nat, name: Name)
    requires Inv(s) && Enabled(s, UnlinkEnter(dp, name)) && s.nodes[dp].linked
    ensures s.nodes[dp].entries[name] != dp
    ensures IsDir(s, s.nodes[dp].entries[name]) ==>
            s.nodes[dp].entries[name] != ROOT && s.nodes[s.nodes[dp].entries[name]].entries[DotDotName()] == dp
  {
    assert Names(s.nodes, dp, name, s.nodes[dp].entries[name]);
  }

  lemma UnlinkEnterDots(s: State, dp: nat, name: Name)
    requires Inv(s) && Enabled(s, UnlinkEnter(dp, name)) && s.nodes[dp].linked
    ensures var t := Removed(s, dp, name); DotsOk(t)
  {
    hide OneName, NamesOf, TreeOk, Exact, HomesOk;
    NotItself(s, dp, name);
    assert NodeOk(s.nodes[dp], dp);
  }

  lemma LostIncludes(s: State, dp: nat, name: Name)
    requires IsDir(s, dp) && name in s.nodes[dp].entries
    ensures (dp, name) in LostNames(s, dp, name, s.nodes[dp].entries[name])
  {
  }

  lemma UnlinkEnterTree(s: State, dp: nat, name: Name)
    requires Inv(s) && Enabled(s, UnlinkEnter(dp, name)) && s.nodes[dp].linked
    ensures DotsOk(Removed(s, dp, name)) && TreeOk(Removed(s, dp, name))
  {
    hide Inv, DotsOk, Names, LostNames;
    var t := Removed(s, dp, name);
    UnlinkEnterDots(s, dp, name);
    NotItself(s, dp, name);
    forall d: nat, n, j: nat | Names(t.nodes, d, n, j)
      ensures NameOk(t, d, n, j)
    {
      RemovedName(s, dp, name, d, n, j);
      OldName(s, d, n, j);
      LostIncludes(s, dp, name);
      if !Dot(n) && j == s.nodes[dp].entries[name] && IsDir(s, j) {
        SameName(s, dp, name, d, n);
      }
    }
    TreeFrom(t);
  }

  /** The directory that is removed has no other name. */
  lemma SameName(s: State, dp: nat, name: Name, d: nat, n: Name)
    requires Inv(s) && Enabled(s, UnlinkEnter(dp, name)) && s.nodes[dp].linked
    requires IsDir(s, s.nodes[dp].entries[name]) && Names(s.nodes, d, n, s.nodes[dp].entries[name]) && !Dot(n)
    ensures d == dp && n == name
  {
    hide NamesOf, HomesOk, Exact;
    assert Names(s.nodes, dp, name, s.nodes[dp].entries[name]);
  }

  lemma UnlinkEnterOneName(s: State, dp: nat, name: Name)
    requires Inv(s) && Enabled(s, UnlinkEnter(dp, name)) && s.nodes[dp].linked
    ensures OneName(Removed(s, dp, name))
  {
    hide NamesOf, Exact, HomesOk, TreeOk, DotsOk, Names, LostNames;
    var t := Removed(s, dp, name);
    forall d: nat, m, n, j: nat | Names(t.nodes, d, m, j) && Names(t.nodes, d, n, j) && !Dot(m) && !Dot(n)
        && IsDir(t, j)
      ensures m == n
    {
      RemovedName(s, dp, name, d, m, j);
      RemovedName(s, dp, name, d, n, j);
    }
  }

  lemma UnlinkEnterHome(s: State, dp: nat, name: Name, j: nat)
    requires Inv(s) && Enabled(s, UnlinkEnter(dp, name)) && s.nodes[dp].linked
    requires var t := Removed(s, dp, name); IsDir(t, j) && t.nodes[j].linked && j != ROOT
    ensures var t := Removed(s, dp, name); DotDotName() in t.nodes[j].entries && HasName(t.nodes, j)
  {
    hide OneName, NamesOf, TreeOk, Exact, HasName, Names;
    var t := Removed(s, dp, name);
    forall n
      ensures !Dot(n) && Names(s.nodes, s.nodes[j].entries[DotDotName()], n, j) ==>
              Names(t.nodes, s.nodes[j].entries[DotDotName()], n, j)
    {
      RemovedName(s, dp, name, s.nodes[j].entries[DotDotName()], n, j);
    }
    HomeStays(s.nodes, t.nodes, j);
  }

  lemma UnlinkEnterHomes(s: State, dp: nat, name: Name)
    requires Inv(s) && Enabled(s, UnlinkEnter(dp, name)) && s.nodes[dp].linked
    ensures DotsOk(Removed(s, dp, name)) && HomesOk(Removed(s, dp, name))
  {
    hide OneName, NamesOf, TreeOk, Exact, DotsOk, HasName, Names;
    UnlinkEnterDots(s, dp, name);
    NotItself(s, dp, name);
    var t := Removed(s, dp, name);
    assert IsDir(t, ROOT) && t.nodes[ROOT].linked && DotDotName() in t.nodes[ROOT].entries
        && t.nodes[ROOT].entries[DotDotName()] == ROOT;
    forall j | IsDir(t, j) && t.nodes[j].linked && j != ROOT
      ensures DotDotName() in t.nodes[j].entries && HasName(t.nodes, j)
    {
      UnlinkEnterHome(s, dp, name, j);
    }
  }

  lemma UnlinkEnterKeepsInv(s: State, dp: nat, name: Name)
    requires Inv(s) && Enabled(s, UnlinkEnter(dp, name)) && s.nodes[dp].linked
    ensures Inv(Do(s, UnlinkEnter(dp, name)))
  {
    hide OneName, NamesOf, TreeOk, Exact, DotsOk, HomesOk;
    UnlinkEnterExact(s, dp, name);
    UnlinkEnterDots(s, dp, name);
    UnlinkEnterTree(s, dp, name);
    UnlinkEnterOneName(s, dp, name);
    UnlinkEnterHomes(s, dp, name);
    NotItself(s, dp, name);
  }

  /** t has the inodes of s, up to their counts; what it lacks is named nowhere and is no linked directory. */
  ghost predicate SameTree(s: State, t: State) {
    && (forall k :: k in t.nodes ==> k in s.nodes && t.nodes[k].isDir == s.nodes[k].isDir
                                     && t.nodes[k].linked == s.nodes[k].linked
                                         && t.nodes[k].entries == s.nodes[k].entries)
    && (forall k :: k in s.nodes && k !in t.nodes ==>
      k != ROOT && !s.nodes[k].linked && forall d: nat, n :: !Names(s.nodes, d, n, k))
  }

  lemma SameNames(s: State, t: State, k: nat)
    requires SameTree(s, t)
    ensures forall d: nat, n :: Names(t.nodes, d, n, k) <==> Names(s.nodes, d, n, k)
    ensures NamesOf(t.nodes, k) == NamesOf(s.nodes, k)
  {
    forall d: nat, n
      ensures Names(t.nodes, d, n, k) <==> (Names(s.nodes, d, n, k) || (d, n) in {}) && (d, n) !in {}
    {
    }
    NamesChange(s.nodes, t.nodes, k, {}, {});
  }

  lemma SameDots(s: State, t: State)
    requires SameTree(s, t) && DotsOk(s)
    ensures DotsOk(t)
  {
    forall k {:trigger t.nodes[k]} | k in t.nodes
      ensures NodeOk(t.nodes[k], k)
    {
      assert NodeOk(s.nodes[k], k);
    }
  }

  lemma SameShape(s: State, t: State)
    requires SameTree(s, t) && Inv(s)
    ensures DotsOk(t) && TreeOk(t) && OneName(t)
  {
    SameDots(s, t);
    hide NamesOf, HomesOk, Exact, DotsOk, Names;
    forall d: nat, n, k: nat | Names(t.nodes, d, n, k)
      ensures NameOk(t, d, n, k)
    {
      SameNames(s, t, k);
      OldName(s, d, n, k);
    }
    TreeFrom(t);
    forall d: nat, m, n, k: nat | Names(t.nodes, d, m, k) && Names(t.nodes, d, n, k) && !Dot(m) && !Dot(n)
        && IsDir(t, k)
      ensures m == n
    {
      SameNames(s, t, k);
    }
  }

  lemma SameHomes(s: State, t: State)
    requires SameTree(s, t) && Inv(s)
    ensures DotsOk(t) && HomesOk(t)
  {
    SameDots(s, t);
    hide NamesOf, TreeOk, OneName, Exact, HasName, Names;
    forall k | IsDir(t, k) && t.nodes[k].linked && k != ROOT
      ensures DotDotName() in t.nodes[k].entries && HasName(t.nodes, k)
    {
      assert NodeOk(s.nodes[k], k);
      SameNames(s, t, k);
      HomeStays(s.nodes, t.nodes, k);
    }
  }

  /** Counts may change with what is owed. */
  lemma SameKeepsInv(s: State, t: State)
    requires SameTree(s, t) && Inv(s)
    requires forall k :: k in t.nodes ==> t.nodes[k].nlink - t.owed[k] == s.nodes[k].nlink - s.owed[k]
    requires forall k :: t.owed[k] > 0 ==> k in t.nodes
    ensures Inv(t)
  {
    hide SameTree, NamesOf, HomesOk, DotsOk, TreeOk, OneName;
    SameShape(s, t);
    SameHomes(s, t);
    forall k | k in t.nodes
      ensures t.nodes[k].nlink == |NamesOf(t.nodes, k)| + t.owed[k]
    {
      SameNames(s, t, k);
      InBoth(s, t, k);
    }
  }

  lemma InBoth(s: State, t: State, k: nat)
    requires SameTree(s, t) && k in t.nodes
    ensures k in s.nodes
  {
  }

  /** With no links, and none owed, nothing names an inode, and it is no directory that is still linked. */
  lemma Unnamed(s: State, k: nat)
    requires Inv(s) && k in s.nodes && s.nodes[k].nlink == 0 && s.owed[k] == 0
    ensures forall d: nat, n :: !Names(s.nodes, d, n, k)
    ensures !s.nodes[k].linked && k != ROOT
  {
    assert NamesOf(s.nodes, k) == {};
    forall d: nat, n
      ensures !Names(s.nodes, d, n, k)
    {
      NamesOfIff(s.nodes, k, d, n);
    }
    hide NamesOf;
    assert NodeOk(s.nodes[k], k);
    assert Names(s.nodes, ROOT, DotDotName(), ROOT);
    assert DotDotName() in s.nodes[k].entries ==> !HasName(s.nodes, k);
  }

  lemma RelinkKeepsInv(s: State, k: nat, delta: int, owed: multiset<nat>)
    requires Inv(s) && k in s.nodes && owed[k] == s.owed[k] + delta && forall j: nat :: j != k ==> owed[j] == s.owed[j]
    ensures Inv(State(Relink(s, k, delta), owed))
  {
    hide NamesOf, HomesOk, DotsOk, TreeOk, OneName, Exact;
    SameKeepsInv(s, State(Relink(s, k, delta), owed));
  }

  /** iput frees an inode that nothing names. */
  lemma FreeKeepsInv(s: State, k: nat)
    requires Inv(s) && Enabled(s, Free(k))
    ensures Inv(Do(s, Free(k)))
  {
    hide NamesOf, HomesOk, DotsOk, TreeOk, OneName, Exact;
    Unnamed(s, k);
    SameKeepsInv(s, Do(s, Free(k)));
  }

  /** The directory an action enters a name into. */
  ghost predicate ParentLinked(s: State, a: Action)
    requires Enabled(s, a)
  {
    match a
    case Create(dp, name, isDir, k) => s.nodes[dp].linked
    case LinkEnter(k, dp, name) => s.nodes[dp].linked
    case _ => true
  }

  lemma DoKeepsInv(s: State, a: Action)
    requires Inv(s) && Enabled(s, a) && ParentLinked(s, a)
    ensures Inv(Do(s, a))
  {
    hide NamesOf, HomesOk, DotsOk, TreeOk, OneName, Exact;
    match a
    case Create(dp, name, isDir, k) => CreateKeepsInv(s, dp, name, isDir, k);
    case LinkBegin(k) => RelinkKeepsInv(s, k, 1, s.owed + multiset{k});
    case LinkEnter(k, dp, name) => LinkEnterKeepsInv(s, k, dp, name);
    case LinkUndo(k) => RelinkKeepsInv(s, k, -1, s.owed - multiset{k});
    case UnlinkEnter(dp, name) =>
      FromLinked(s, dp, name);
      UnlinkEnterKeepsInv(s, dp, name);
    case UnlinkEnd(k) => RelinkKeepsInv(s, k, -1, s.owed - multiset{k});
    case Free(k) => FreeKeepsInv(s, k);
  }

  /** There is nothing to remove from a directory that has been removed. */
  lemma FromLinked(s: State, dp: nat, name: Name)
    requires Inv(s) && Enabled(s, UnlinkEnter(dp, name))
    ensures s.nodes[dp].linked
  {
    hide NamesOf, HomesOk, TreeOk, OneName, Exact;
    assert NodeOk(s.nodes[dp], dp);
  }

  /** Names entered into a directory that has been removed are not counted. */
  lemma DeadEntry(s: State, t: State, dp: nat, k: nat)
    requires IsDir(s, dp) && !s.nodes[dp].linked && dp in t.nodes && !t.nodes[dp].linked
    requires forall d :: d != dp && d != k ==> (d in s.nodes <==> d in t.nodes)
    requires forall d :: d != dp && d != k && d in s.nodes ==> t.nodes[d] == s.nodes[d]
    requires (k in s.nodes && !s.nodes[k].linked) || (k !in s.nodes)
    requires k in t.nodes && !t.nodes[k].linked
    ensures NamesOf(t.nodes, k) == NamesOf(s.nodes, k)
  {
    forall d: nat, n
      ensures Names(t.nodes, d, n, k) <==> (Names(s.nodes, d, n, k) || (d, n) in {}) && (d, n) !in {}
    {
    }
    NamesChange(s.nodes, t.nodes, k, {}, {});
  }

  lemma DeadCreate(s: State, dp: nat, name: Name, isDir: bool, k: nat)
    requires Inv(s) && Enabled(s, Create(dp, name, isDir, k)) && !s.nodes[dp].linked
    ensures !Exact(Created(s, dp, name, isDir, k))
  {
    hide HomesOk, DotsOk, OneName, NamesOf;
    var t := Created(s, dp, name, isDir, k);
    DeadEntry(s, t, dp, k);
    NewIsUnnamed(s, k);
    assert t.nodes[k].nlink == 1 && t.owed[k] == 0;
  }

  lemma DeadLinkEnter(s: State, k: nat, dp: nat, name: Name)
    requires Inv(s) && Enabled(s, LinkEnter(k, dp, name)) && !s.nodes[dp].linked
    ensures !Exact(Entered(s, k, dp, name))
  {
    DeadIsNew(s, LinkEnter(k, dp, name));
    hide HomesOk, DotsOk, TreeOk, OneName, NamesOf;
    var t := Entered(s, k, dp, name);
    DeadEntry(s, t, dp, k);
    assert t.nodes[k].nlink == s.nodes[k].nlink && t.owed[k] == s.owed[k] - 1;
  }

  /** Entering a name into a directory that has been removed is the one thing that makes the counts wrong. */
  lemma ExactIff(s: State, a: Action)
    requires Inv(s) && Enabled(s, a)
    ensures Exact(Do(s, a)) <==> ParentLinked(s, a)
  {
    hide NamesOf, HomesOk, DotsOk, TreeOk, OneName, Exact;
    if ParentLinked(s, a) {
      DoKeepsInv(s, a);
    } else if a.Create? {
      DeadCreate(s, a.dp, a.name, a.isDir, a.k);
    } else {
      DeadLinkEnter(s, a.k, a.dp, a.name);
    }
  }

  lemma DeadIsNew(s: State, a: Action)
    requires Inv(s) && Enabled(s, a) && !ParentLinked(s, a)
    ensures a.dp != a.k && (a.k in s.nodes ==> !s.nodes[a.k].linked)
  {
    if a.k in s.nodes {
      assert NodeOk(s.nodes[a.k], a.k);
    }
  }

  lemma NewIsUnnamed(s: State, k: nat)
    requires Inv(s) && k !in s.nodes
    ensures NamesOf(s.nodes, k) == {}
  {
    assert forall d, n :: !Names(s.nodes, d, n, k);
  }

  /* Runs */

  /** A run in which names are entered into linked directories only. */
  ghost predicate Run(s: State, acts: seq<Action>, t: State)
    decreases |acts|
  {
    if acts == [] then s == t
    else Enabled(s, acts[0]) && ParentLinked(s, acts[0]) && Run(Do(s, acts[0]), acts[1..], t)
  }

  lemma {:induction false} RunKeepsInv(s: State, acts: seq<Action>, t: State)
    requires Inv(s) && Run(s, acts, t)
    ensures Inv(t)
    decreases |acts|
  {
    hide NamesOf, HomesOk, DotsOk, TreeOk, OneName, Exact;
    if acts != [] {
      DoKeepsInv(s, acts[0]);
      RunKeepsInv(Do(s, acts[0]), acts[1..], t);
    }
  }

  /**
   In every run, when no call is in the middle of its work, the count of every inode is the number of entries, other
   than ".", that name it in linked directories.
   */
  lemma CountsExact(s: State, acts: seq<Action>, t: State, k: nat)
    requires Init(s) && Run(s, acts, t) && t.owed == multiset{} && k in t.nodes
    ensures t.nodes[k].nlink == |NamesOf(t.nodes, k)|
  {
    InitInv(s);
    RunKeepsInv(s, acts, t);
  }

  /**
   In every run, sys_unlink's panic "nlink < 1" is out of reach, and isdirempty's answer is enough to remove a
   directory.
   */
  lemma UnlinkFindsLinks(s: State, acts: seq<Action>, t: State, dp: nat, name: Name)
    requires Init(s) && Run(s, acts, t) && Enabled(t, UnlinkEnter(dp, name))
    ensures t.nodes[t.nodes[dp].entries[name]].nlink >= 1
  {
    InitInv(s);
    RunKeepsInv(s, acts, t);
    FromLinked(t, dp, name);
    var k := t.nodes[dp].entries[name];
    NamesOfIff(t.nodes, k, dp, name);
    assert (dp, name) in NamesOf(t.nodes, k);
    hide NamesOf;
  }

  /** In every run, a directory that has been removed has no links but those still owed, so that it can be freed. */
  lemma RemovedHasNoLinks(s: State, acts: seq<Action>, t: State, k: nat)
    requires Init(s) && Run(s, acts, t) && IsDir(t, k) && !t.nodes[k].linked
    ensures t.nodes[k].nlink == t.owed[k]
  {
    InitInv(s);
    RunKeepsInv(s, acts, t);
    hide Exact;
    forall d: nat, n
      ensures !Names(t.nodes, d, n, k)
    {
      DeadUnnamed(t, d, n, k);
    }
    NoNames(t.nodes, k);
  }

  lemma NoNames(nodes: map<nat, Node>, k: nat)
    requires forall d: nat, n :: !Names(nodes, d, n, k)
    ensures NamesOf(nodes, k) == {}
  {
  }

  lemma DeadUnnamed(s: State, d: nat, n: Name, k: nat)
    requires Inv(s) && IsDir(s, k) && !s.nodes[k].linked
    ensures !Names(s.nodes, d, n, k)
  {
    hide NamesOf, Exact;
    if Names(s.nodes, d, n, k) {
      OldName(s, d, n, k);
    }
  }

  /**
   The exception happens: a file created in a directory that a process still has as its own, but that has been
   removed.
   */
  lemma LostFile()
    ensures exists s, t :: Init(s) && LostIn(s, t)
  {
    hide NamesOf, Inv;
    var s := State(map[ROOT := Node(true, 1, true, map[DotName() := ROOT, DotDotName() := ROOT])], multiset{});
    assert Init(s);
    var s3 := MadeAndRemoved(s);
    assert LostIn(s, Do(s3, Create(2, [102], false, 3)));
  }

  /** mkdir and rmdir of "d". */
  lemma MadeAndRemoved(s: State) returns (s3: State)
    requires s == State(map[ROOT := Node(true, 1, true, map[DotName() := ROOT, DotDotName() := ROOT])], multiset{})
    ensures Enabled(s, Create(ROOT, [100], true, 2))
    ensures var s1 := Do(s, Create(ROOT, [100], true, 2));
            Enabled(s1, UnlinkEnter(ROOT, [100])) && var s2 := Do(s1, UnlinkEnter(ROOT, [100]));
                Enabled(s2, UnlinkEnd(2)) && s3 == Do(s2, UnlinkEnd(2))
    ensures s3.owed == multiset{} && s3.nodes.Keys == {ROOT, 2}
            && s3.nodes[ROOT].entries == map[DotName() := ROOT, DotDotName() := ROOT]
    ensures s3.nodes[2].isDir && !s3.nodes[2].linked && s3.nodes[2].entries == map[DotName() := 2, DotDotName() := ROOT]
  {
    hide NamesOf, Inv;
    var s1 := Do(s, Create(ROOT, [100], true, 2));
    var s2 := Do(s1, UnlinkEnter(ROOT, [100]));
    assert s2.nodes[ROOT].entries == map[DotName() := ROOT, DotDotName() := ROOT];
    s3 := Do(s2, UnlinkEnd(2));
  }

  /**
   t comes after mkdir, rmdir and a create in the removed directory; its file 3 has a link, and no linked directory
   names it.
   */
  ghost predicate LostIn(s: State, t: State) {
    && Enabled(s, Create(ROOT, [100], true, 2))
    && var s1 := Do(s, Create(ROOT, [100], true, 2));
    && Enabled(s1, UnlinkEnter(ROOT, [100]))
    && var s2 := Do(s1, UnlinkEnter(ROOT, [100]));
    && Enabled(s2, UnlinkEnd(2))
    && var s3 := Do(s2, UnlinkEnd(2));
    && Enabled(s3, Create(2, [102], false, 3)) && t == Do(s3, Create(2, [102], false, 3))
    && t.owed == multiset{} && 3 in t.nodes && t.nodes[3].nlink == 1 && forall d: nat, n :: !Names(t.nodes, d, n, 3)
  }

  /* The ".." of a removed directory may name nothing */

  function Dots(k: nat, up: nat): map<Name, nat> {
    map[DotName() := k, DotDotName() := up]
  }

  /** mkdir d, mkdir d/e, rmdir d/e, which a process still has as its own, rmdir d. */
  function Nested(): seq<Action> {
    [Create(ROOT, [100], true, 2), Create(2, [101], true, 3), UnlinkEnter(2, [101]), UnlinkEnd(3),
        UnlinkEnter(ROOT, [100]), UnlinkEnd(2), Free(2)]
  }

  /** Root, d and e with these counts and entries; d and e in the tree or not. */
  function Three(r: nat, er: map<Name, nat>, d: nat, ed: map<Name, nat>, inD: bool, e: nat, inE: bool,
      owed: multiset<nat>): State {
    State(map[ROOT := Node(true, r, true, er), 2 := Node(true, d, inD, ed), 3 := Node(true, e, inE, Dots(3, 2))], owed)
  }

  lemma RunThen(s: State, a: Action, acts: seq<Action>, t: State)
    requires Enabled(s, a) && ParentLinked(s, a) && Run(Do(s, a), acts, t)
    ensures Run(s, [a] + acts, t)
  {
    hide Do, Enabled, ParentLinked;
    assert ([a] + acts)[1..] == acts;
  }

  /** Root and d. */
  function Two(): State {
    State(map[ROOT := Node(true, 2, true, Dots(ROOT, ROOT)[[100] := 2]), 2 := Node(true, 1, true, Dots(2, ROOT))],
        multiset{})
  }

  lemma MakeInner(acts: seq<Action>, t: State)
    requires Run(Three(2, Dots(ROOT, ROOT)[[100] := 2], 2, Dots(2, ROOT)[[101] := 3], true, 1, true, multiset{}),
             acts, t)
    ensures Run(Two(), [Create(2, [101], true, 3)] + acts, t)
  {
    hide Run;
    var a := Create(2, [101], true, 3);
    assert Enabled(Two(), a);
    assert Do(Two(), a).nodes ==
        Three(2, Dots(ROOT, ROOT)[[100] := 2], 2, Dots(2, ROOT)[[101] := 3], true, 1, true, multiset{}).nodes;
    hide Enabled, Dots;
    RunThen(Two(), a, acts, t);
  }

  lemma MakeOuter(acts: seq<Action>, t: State)
    requires Run(Two(), acts, t)
    ensures Run(State(map[ROOT := Node(true, 1, true, Dots(ROOT, ROOT))], multiset{}),
            [Create(ROOT, [100], true, 2)] + acts, t)
  {
    hide Run;
    var s, a := State(map[ROOT := Node(true, 1, true, Dots(ROOT, ROOT))], multiset{}), Create(ROOT, [100], true, 2);
    assert Enabled(s, a);
    assert Do(s, a).nodes == Two().nodes;
    hide Enabled, Dots;
    RunThen(s, a, acts, t);
  }

  /** Without e, d, both: while the count is owed, and after. */
  function NoInner(e: nat, owed: multiset<nat>): State {
    Three(2, Dots(ROOT, ROOT)[[100] := 2], 1, Dots(2, ROOT), true, e, false, owed)
  }

  function NoOuter(d: nat, owed: multiset<nat>): State {
    Three(1, Dots(ROOT, ROOT), d, Dots(2, ROOT), false, 0, false, owed)
  }

  lemma EnterInner(acts: seq<Action>, t: State)
    requires Run(NoInner(1, multiset{3}), acts, t)
    ensures Run(Three(2, Dots(ROOT, ROOT)[[100] := 2], 2, Dots(2, ROOT)[[101] := 3], true, 1, true, multiset{}),
            [UnlinkEnter(2, [101])] + acts, t)
  {
    hide Run;
    var s := Three(2, Dots(ROOT, ROOT)[[100] := 2], 2, Dots(2, ROOT)[[101] := 3], true, 1, true, multiset{});
    assert Dots(2, ROOT)[[101] := 3] - {[101]} == Dots(2, ROOT);
    assert multiset{} + multiset{3} == multiset{3};
    assert Do(s, UnlinkEnter(2, [101])).nodes == NoInner(1, multiset{3}).nodes;
    RunThen(s, UnlinkEnter(2, [101]), acts, t);
  }

  lemma EnterOuter(acts: seq<Action>, t: State)
    requires Run(NoOuter(1, multiset{2}), acts, t)
    ensures Run(NoInner(0, multiset{}), [UnlinkEnter(ROOT, [100])] + acts, t)
  {
    hide Run;
    assert Dots(ROOT, ROOT)[[100] := 2] - {[100]} == Dots(ROOT, ROOT);
    assert multiset{} + multiset{2} == multiset{2};
    assert Do(NoInner(0, multiset{}), UnlinkEnter(ROOT, [100])).nodes == NoOuter(1, multiset{2}).nodes;
    RunThen(NoInner(0, multiset{}), UnlinkEnter(ROOT, [100]), acts, t);
  }

  lemma EndBoth(acts: seq<Action>, t: State)
    ensures Run(NoInner(0, multiset{}), acts, t) ==> Run(NoInner(1, multiset{3}), [UnlinkEnd(3)] + acts, t)
    ensures Run(NoOuter(0, multiset{}), acts, t) ==> Run(NoOuter(1, multiset{2}), [UnlinkEnd(2)] + acts, t)
  {
    hide Run, Dots;
    assert multiset{3} - multiset{3} == multiset{2} - multiset{2} == multiset{};
    assert Do(NoInner(1, multiset{3}), UnlinkEnd(3)) == NoInner(0, multiset{});
    assert Do(NoOuter(1, multiset{2}), UnlinkEnd(2)) == NoOuter(0, multiset{});
    if Run(NoInner(0, multiset{}), acts, t) {
      RunThen(NoInner(1, multiset{3}), UnlinkEnd(3), acts, t);
    }
    if Run(NoOuter(0, multiset{}), acts, t) {
      RunThen(NoOuter(1, multiset{2}), UnlinkEnd(2), acts, t);
    }
  }

  /** The end: e, which is in no directory. */
  function Orphan(): State {
    State(map[ROOT := Node(true, 1, true, Dots(ROOT, ROOT)), 3 := Node(true, 0, false, Dots(3, 2))], multiset{})
  }

  lemma FreeOuter()
    ensures Run(NoOuter(0, multiset{}), [Free(2)], Orphan())
  {
    assert Do(NoOuter(0, multiset{}), Free(2)).nodes == Orphan().nodes;
    assert Run(Orphan(), [], Orphan());
    hide Run, Dots;
    RunThen(NoOuter(0, multiset{}), Free(2), [], Orphan());
    assert [Free(2)] + [] == [Free(2)];
  }

  lemma NestedRun()
    ensures Run(State(map[ROOT := Node(true, 1, true, Dots(ROOT, ROOT))], multiset{}), Nested(), Orphan())
  {
    FreeOuter();
    hide Run, NoInner, NoOuter, Three, Orphan, Dots;
    var a5 := [UnlinkEnd(2)] + [Free(2)];
    var a4 := [UnlinkEnter(ROOT, [100])] + a5;
    var a2 := [UnlinkEnter(2, [101])] + ([UnlinkEnd(3)] + a4);
    EndBoth([Free(2)], Orphan());
    EnterOuter(a5, Orphan());
    EndBoth(a4, Orphan());
    EnterInner([UnlinkEnd(3)] + a4, Orphan());
    MakeInner(a2, Orphan());
    MakeOuter([Create(2, [101], true, 3)] + a2, Orphan());
    assert [Create(ROOT, [100], true, 2)] + ([Create(2, [101], true, 3)] + a2) == Nested();
  }

  lemma EmptyRoot()
    ensures Init(State(map[ROOT := Node(true, 1, true, Dots(ROOT, ROOT))], multiset{}))
  {
  }

  /** The directory e is still in use, but its ".." names an inode that is free. */
  lemma DanglingParent() returns (s: State, t: State)
    ensures Init(s) && Run(s, Nested(), t)
    ensures IsDir(t, 3) && !t.nodes[3].linked && DotDotName() in t.nodes[3].entries
            && t.nodes[3].entries[DotDotName()] !in t.nodes
  {
    hide Init, Run, Nested;
    s, t := State(map[ROOT := Node(true, 1, true, Dots(ROOT, ROOT))], multiset{}), Orphan();
    EmptyRoot();
    NestedRun();
  }
}
