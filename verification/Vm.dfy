/**
 Physical pages and address spaces (kernel/kalloc.c, kernel/vm.c). Memory is an array of pages of 1024 words. A page
 number is an address shifted right by 12.
 */
module Vm {
  const WORDS := 1024          // words in a page, entries in a table
  const NPAGES := 4096         // PHYSTOP
  const USERPAGES := 160       // USERTOP
  const USERTOP := 0xA_0000
  const PGSIZE := 4096
  const FLAGS := 7             // PTE_P | PTE_W | PTE_U
  const JUNK := 0x0101_0101    // what kfree fills a page with

  type Frame = f: seq<nat> | |f| == WORDS witness seq(WORDS, _ => 0)

  function Zeros(): (f: Frame)
    ensures forall k :: 0 <= k < WORDS ==> f[k] == 0
  {
    seq(WORDS, _ => 0)
  }

  function Junk(): (f: Frame) {
    seq(WORDS, _ => JUNK)
  }

  /** The page that a word points into: PTE_ADDR. */
  function Page(w: nat): nat { w / PGSIZE }

  predicate Present(w: nat) { w % 2 == 1 }

  /* The list of free pages */

  function First(free: seq<nat>): nat {
    if free == [] then 0 else free[0]
  }

  predicate Usable(p: nat, end: nat) {
    0 < end <= p < NPAGES
  }

  /** Each free page holds the address of the next in its first word, and nothing of what it was used for. */
  ghost predicate Linked(m: seq<Frame>, free: seq<nat>, end: nat) {
    && |m| == NPAGES
    && (forall i :: 0 <= i < |free| ==> Usable(free[i], end))
    && (forall i, j :: 0 <= i < j < |free| ==> free[i] != free[j])
    && (forall i {:trigger m[free[i]]} :: 0 <= i < |free| ==> m[free[i]][0] == PGSIZE * First(free[i + 1..]))
    && (forall i :: 0 <= i < |free| ==> Blank(m[free[i]]))
  }

  /** memset(v, 1, PGSIZE), up to the first word. */
  ghost predicate Blank(f: Frame) {
    forall k :: 1 <= k < WORDS ==> f[k] == JUNK
  }

  /** kfree. */
  function Pushed(m: seq<Frame>, free: seq<nat>, p: nat): seq<Frame>
    requires p < |m|
  {
    m[p := Junk()[0 := PGSIZE * First(free)]]
  }

  lemma PushedLinked(m: seq<Frame>, free: seq<nat>, p: nat, end: nat)
    requires Linked(m, free, end) && Usable(p, end) && p !in free
    ensures Linked(Pushed(m, free, p), [p] + free, end)
  {
    var f := [p] + free;
    assert f[1..] == free;
    forall i | 0 <= i < |f|
      ensures Pushed(m, free, p)[f[i]][0] == PGSIZE * First(f[i + 1..]) && Blank(Pushed(m, free, p)[f[i]])
    {
      if i > 0 {
        assert f[i + 1..] == free[i..];
        assert m[free[i - 1]][0] == PGSIZE * First(free[i - 1 + 1..]);
      }
    }
  }

  lemma PoppedLinked(m: seq<Frame>, free: seq<nat>, end: nat)
    requires Linked(m, free, end) && free != []
    ensures Linked(m, free[1..], end) && m[free[0]][0] == PGSIZE * First(free[1..])
    ensures free[0] !in free[1..]
  {
    var f := free[1..];
    forall i | 0 <= i < |f|
      ensures m[f[i]][0] == PGSIZE * First(f[i + 1..])
    {
      assert f[i + 1..] == free[i + 1 + 1..];
      assert m[free[i + 1]][0] == PGSIZE * First(free[i + 1 + 1..]);
    }
  }

  /** Pages that are not free may change. */
  lemma ElsewhereLinked(m: seq<Frame>, m': seq<Frame>, free: seq<nat>, end: nat)
    requires Linked(m, free, end) && |m'| == |m| && forall p :: p in free && p < |m| ==> m'[p] == m[p]
    ensures Linked(m', free, end)
  {
  }

  /* Address spaces */

  /**
   What a page directory stands for. dir: its page; tabs: the pages of its page tables; user: the pages of the user's
   memory; kern: the entries of all other mapped pages. tabs is by directory index, the others by virtual page.
   */
  datatype Space = Space(dir: nat, tabs: map<nat, nat>, user: map<nat, nat>, kern: map<nat, nat>)

  /** The virtual page of entry j in table i. */
  function Vpn(i: nat, j: nat): nat { i * WORDS + j }

  /** The page table entry of a virtual page. */
  function Pte(sp: Space, v: nat): nat {
    if v in sp.user then sp.user[v] * PGSIZE + FLAGS else if v in sp.kern then sp.kern[v] else 0
  }

  /** The pages an address space has, each once. */
  ghost predicate Shape(sp: Space, end: nat) {
    && Usable(sp.dir, end)
    && (forall i :: i in sp.tabs ==> i < WORDS && Usable(sp.tabs[i], end) && sp.tabs[i] != sp.dir)
    && (forall v :: v in sp.user ==> v < USERPAGES && Usable(sp.user[v], end) && sp.user[v] != sp.dir)
    && (forall v :: v in sp.kern ==> USERPAGES <= v < WORDS * WORDS && Present(sp.kern[v]))
    && (forall i, j :: i in sp.tabs && j in sp.tabs && i != j ==> sp.tabs[i] != sp.tabs[j])
    && (forall v, w :: v in sp.user && w in sp.user && v != w ==> sp.user[v] != sp.user[w])
    && (forall i, v :: i in sp.tabs && v in sp.user ==> sp.tabs[i] != sp.user[v])
    && (forall v :: v in sp.user ==> v / WORDS in sp.tabs)
    && (forall v :: v in sp.kern ==> v / WORDS in sp.tabs)
  }

  function DirEntry(sp: Space, i: nat): nat {
    if i in sp.tabs then sp.tabs[i] * PGSIZE + FLAGS else 0
  }

  ghost predicate DirIs(m: seq<Frame>, sp: Space) {
    sp.dir < |m| && forall i :: 0 <= i < WORDS ==> m[sp.dir][i] == DirEntry(sp, i)
  }

  ghost predicate TabIs(m: seq<Frame>, sp: Space, i: nat)
    requires i in sp.tabs
  {
    sp.tabs[i] < |m| && forall j :: 0 <= j < WORDS ==> m[sp.tabs[i]][j] == Pte(sp, Vpn(i, j))
  }

  /** Memory holds the address space. */
  ghost predicate Holds(m: seq<Frame>, sp: Space) {
    DirIs(m, sp) && forall i :: i in sp.tabs ==> TabIs(m, sp, i)
  }

  ghost predicate Good(m: seq<Frame>, sp: Space, end: nat) {
    |m| == NPAGES && Shape(sp, end) && Holds(m, sp)
  }

  ghost function Pages(sp: Space): set<nat> {
    {sp.dir} + sp.tabs.Values + sp.user.Values
  }

  /** Only the directory and the tables say what an address space is. */
  lemma HoldsElsewhere(m: seq<Frame>, m': seq<Frame>, sp: Space, end: nat)
    requires Good(m, sp, end) && |m'| == |m|
    requires m'[sp.dir] == m[sp.dir] && forall i :: i in sp.tabs ==> m'[sp.tabs[i]] == m[sp.tabs[i]]
    ensures Good(m', sp, end)
  {
    forall i | i in sp.tabs
      ensures TabIs(m', sp, i)
    {
      assert TabIs(m, sp, i);
    }
  }

  /** The table and the index that walkpgdir computes. */
  lemma VpnIs(v: nat, i: nat, j: nat)
    requires j < WORDS
    ensures Vpn(i, j) == v <==> i == v / WORDS && j == v % WORDS
    ensures Vpn(i, j) / WORDS == i
  {
  }

  /** An entry is stored for a virtual page whose table is there. */
  lemma EntryStored(m: seq<Frame>, sp: Space, sp': Space, v: nat, w: nat, end: nat)
    requires Good(m, sp, end) && Shape(sp', end) && sp'.dir == sp.dir && sp'.tabs == sp.tabs
    requires v / WORDS in sp.tabs && sp.tabs[v / WORDS] < |m|
    requires Pte(sp', v) == w && forall u: nat :: u != v ==> Pte(sp', u) == Pte(sp, u)
    ensures var t := sp.tabs[v / WORDS]; Good(m[t := m[t][v % WORDS := w]], sp', end)
  {
    var t := sp.tabs[v / WORDS];
    var m' := m[t := m[t][v % WORDS := w]];
    hide Shape, Pte;
    forall i | i in sp.tabs
      ensures TabIs(m', sp', i)
    {
      assert TabIs(m, sp, i);
      forall j | 0 <= j < WORDS
        ensures m'[sp.tabs[i]][j] == Pte(sp', Vpn(i, j))
      {
        VpnIs(v, i, j);
        TabsDiffer(sp, end, i, v / WORDS);
      }
    }
    assert DirIs(m', sp') by { TabNotDir(sp, end, v / WORDS); }
  }

  lemma TabsDiffer(sp: Space, end: nat, i: nat, j: nat)
    requires Shape(sp, end) && i in sp.tabs && j in sp.tabs
    ensures sp.tabs[i] == sp.tabs[j] ==> i == j
  {
  }

  lemma TabNotDir(sp: Space, end: nat, i: nat)
    requires Shape(sp, end) && i in sp.tabs
    ensures sp.tabs[i] != sp.dir
  {
  }

  /** Without a table there are no entries. */
  lemma NoEntries(sp: Space, end: nat, i: nat, j: nat)
    requires Shape(sp, end) && i !in sp.tabs && j < WORDS
    ensures Pte(sp, Vpn(i, j)) == 0
  {
    VpnIs(Vpn(i, j), i, j);
  }

  /** A new table, all zeros. */
  lemma TableAdded(m: seq<Frame>, sp: Space, i: nat, t: nat, end: nat)
    requires Good(m, sp, end) && i < WORDS && i !in sp.tabs && Usable(t, end) && t !in Pages(sp)
    ensures var sp' := sp.(tabs := sp.tabs[i := t]);
            Good(m[t := Zeros()][sp.dir := m[sp.dir][i := t * PGSIZE + FLAGS]], sp', end)
  {
    hide Shape, Pages, Pte, Zeros;
    var sp' := sp.(tabs := sp.tabs[i := t]);
    var m' := m[t := Zeros()][sp.dir := m[sp.dir][i := t * PGSIZE + FLAGS]];
    TableShape(sp, i, t, end);
    SamePtes(sp, i, t);
    forall k | k in sp'.tabs
      ensures TabIs(m', sp', k)
    {
      TabNotDir(sp', end, k);
      if k != i {
        assert TabIs(m, sp, k);
        TabsDiffer(sp', end, k, i);
      } else {
        forall j | 0 <= j < WORDS
          ensures m'[t][j] == Pte(sp', Vpn(i, j))
        {
          NoEntries(sp, end, i, j);
        }
      }
    }
    TabNotDir(sp', end, i);
  }

  lemma SamePtes(sp: Space, i: nat, t: nat)
    ensures forall v: nat :: Pte(sp.(tabs := sp.tabs[i := t]), v) == Pte(sp, v)
  {
  }


  lemma TableShape(sp: Space, i: nat, t: nat, end: nat)
    requires Shape(sp, end) && i < WORDS && i !in sp.tabs && Usable(t, end) && t !in Pages(sp)
    ensures Shape(sp.(tabs := sp.tabs[i := t]), end)
    ensures Pages(sp.(tabs := sp.tabs[i := t])) == Pages(sp) + {t}
  {
    AddValue(sp.tabs, i, t);
  }

  /* What steps may change */

  ghost function FreeSet(free: seq<nat>): set<nat> {
    set p | p in free
  }

  /** Pages outside of `where` are as they were. */
  ghost predicate Same(m: seq<Frame>, m': seq<Frame>, where: set<nat>) {
    |m'| == |m| && forall p: nat :: p < |m| && p !in where ==> m'[p] == m[p]
  }

  /** The address space has no free page. */
  ghost predicate Apart(sp: Space, free: seq<nat>) {
    forall p :: p in Pages(sp) ==> p !in free
  }

  /** walkpgdir finds or makes the table of virtual page v. */
  ghost predicate Walked(sp: Space, sp': Space, v: nat, create: bool, free: seq<nat>, free': seq<nat>, t: nat) {
    if v / WORDS in sp.tabs then t == sp.tabs[v / WORDS] && sp' == sp && free' == free
    else if !create || free == [] then t == 0 && sp' == sp && free' == free
    else t == free[0] && sp' == sp.(tabs := sp.tabs[v / WORDS := t]) && free' == free[1..]
  }

  lemma WalkGrows(m: seq<Frame>, m': seq<Frame>, sp: Space, v: nat, free: seq<nat>, end: nat)
    requires Good(m, sp, end) && Linked(m, free, end) && free != [] && Apart(sp, free) && v < WORDS * WORDS
             && v / WORDS !in sp.tabs
    requires m' == m[free[0] := Zeros()][sp.dir := m[sp.dir][v / WORDS := free[0] * PGSIZE + FLAGS]]
    ensures var sp' := sp.(tabs := sp.tabs[v / WORDS := free[0]]);
            Good(m', sp', end) && Linked(m', free[1..], end) && Apart(sp', free[1..])
    ensures Same(m, m', {free[0], sp.dir})
  {
    hide Holds, Shape;
    var t := free[0];
    assert t in free;
    assert t !in Pages(sp);
    TableAdded(m, sp, v / WORDS, t, end);
    PoppedLinked(m, free, end);
    assert forall p :: p in free[1..] ==> p in free;
    assert sp.dir in Pages(sp);
    ElsewhereLinked(m, m', free[1..], end);
    assert Shape(sp, end);
    TableShape(sp, v / WORDS, t, end);
  }

  /** The directory entry for virtual page v. */
  lemma PdeIs(m: seq<Frame>, sp: Space, v: nat, end: nat)
    requires Good(m, sp, end) && v < WORDS * WORDS
    ensures sp.dir < |m| && (Present(m[sp.dir][v / WORDS]) <==> v / WORDS in sp.tabs)
    ensures v / WORDS in sp.tabs ==> Page(m[sp.dir][v / WORDS]) == sp.tabs[v / WORDS]
  {
    hide Page, Present;
    assert m[sp.dir][v / WORDS] == DirEntry(sp, v / WORDS);
    if v / WORDS in sp.tabs {
      Flags(sp.tabs[v / WORDS]);
    }
    NotPresent();
  }

  lemma AddValue(x: map<nat, nat>, k: nat, v: nat)
    requires k !in x
    ensures x[k := v].Values == x.Values + {v}
  {
    forall q
      ensures q in x[k := v].Values <==> q in x.Values + {v}
    {
      if q in x.Values {
        var u :| u in x && x[u] == q;
        assert x[k := v][u] == q;
      }
      if q == v {
        assert x[k := v][k] == q;
      }
    }
  }

  lemma DropValue(x: map<nat, nat>, k: nat)
    requires k in x && forall i, j :: i in x && j in x && i != j ==> x[i] != x[j]
    ensures (x - {k}).Values == x.Values - {x[k]} && x[k] in x.Values
  {
    forall q
      ensures q in (x - {k}).Values <==> q in x.Values - {x[k]}
    {
      if q in x.Values && q != x[k] {
        var u :| u in x && x[u] == q;
        assert (x - {k})[u] == q;
      }
    }
  }

  lemma UserAdded(sp: Space, v: nat, p: nat, end: nat)
    requires Shape(sp, end) && v < USERPAGES && v / WORDS in sp.tabs && v !in sp.user && Usable(p, end)
             && p !in Pages(sp)
    ensures var sp' := sp.(user := sp.user[v := p]); Shape(sp', end) && Pages(sp') == Pages(sp) + {p}
  {
    AddValue(sp.user, v, p);
  }

  lemma UserDropped(sp: Space, v: nat, end: nat)
    requires Shape(sp, end) && v in sp.user
    ensures var sp' := sp.(user := sp.user - {v});
            Shape(sp', end) && Pages(sp') == Pages(sp) - {sp.user[v]} && sp.user[v] in Pages(sp)
  {
    DropValue(sp.user, v);
    assert sp.user[v] !in sp.tabs.Values;
  }

  /** A page of user memory is mapped, or unmapped. */
  lemma UserMapped(m: seq<Frame>, sp: Space, v: nat, p: nat, end: nat)
    requires Good(m, sp, end) && v < USERPAGES && v / WORDS in sp.tabs && v !in sp.user && Usable(p, end)
             && p !in Pages(sp)
    ensures var t, sp' := sp.tabs[v / WORDS], sp.(user := sp.user[v := p]);
            t < |m| && Good(m[t := m[t][v % WORDS := p * PGSIZE + FLAGS]], sp', end) && Pages(sp') == Pages(sp) + {p}
  {
    hide Holds, Pages;
    UserAdded(sp, v, p, end);
    PteIs(m, sp, v, end);
    hide Shape;
    EntryStored(m, sp, sp.(user := sp.user[v := p]), v, p * PGSIZE + FLAGS, end);
  }

  lemma UserUnmapped(m: seq<Frame>, sp: Space, v: nat, end: nat)
    requires Good(m, sp, end) && v in sp.user
    ensures v / WORDS in sp.tabs && sp.tabs[v / WORDS] < |m|
    ensures var t, sp' := sp.tabs[v / WORDS], sp.(user := sp.user - {v});
            Good(m[t := m[t][v % WORDS := 0]], sp', end) && Pages(sp') == Pages(sp) - {sp.user[v]}
                && sp.user[v] in Pages(sp)
  {
    hide Holds, Pages;
    UserDropped(sp, v, end);
    assert v < USERPAGES && v / WORDS in sp.tabs && v !in sp.kern;
    PteIs(m, sp, v, end);
    hide Shape;
    EntryStored(m, sp, sp.(user := sp.user - {v}), v, 0, end);
  }

  /** An entry that is the kernel's. */
  lemma KernMapped(m: seq<Frame>, sp: Space, v: nat, w: nat, end: nat)
    requires Good(m, sp, end) && USERPAGES <= v < WORDS * WORDS && v / WORDS in sp.tabs && v !in sp.kern && Present(w)
    ensures var t, sp' := sp.tabs[v / WORDS], sp.(kern := sp.kern[v := w]);
            t < |m| && Good(m[t := m[t][v % WORDS := w]], sp', end) && Pages(sp') == Pages(sp)
  {
    hide Holds;
    var sp' := sp.(kern := sp.kern[v := w]);
    assert Shape(sp', end);
    assert v !in sp.user;
    hide Shape;
    EntryStored(m, sp, sp', v, w, end);
  }

  /** The entry for virtual page v. */
  lemma PteIs(m: seq<Frame>, sp: Space, v: nat, end: nat)
    requires Good(m, sp, end) && v < WORDS * WORDS && v / WORDS in sp.tabs
    ensures sp.tabs[v / WORDS] < |m| && m[sp.tabs[v / WORDS]][v % WORDS] == Pte(sp, v)
    ensures Present(Pte(sp, v)) <==> v in sp.user || v in sp.kern
    ensures v in sp.user ==> Page(Pte(sp, v)) == sp.user[v]
  {
    hide Page, Present;
    assert TabIs(m, sp, v / WORDS);
    VpnIs(v, v / WORDS, v % WORDS);
    if v in sp.user {
      Flags(sp.user[v]);
    }
    NotPresent();
  }

  /** The bit of a word that has the value b. */
  predicate HasBit(w: nat, b: nat)
    requires b > 0
  {
    w / b % 2 == 1
  }

  /** What the hardware needs to let the user read and write virtual page v: P, W and U in both entries. */
  ghost predicate UserCanWrite(m: seq<Frame>, sp: Space, v: nat) {
    && sp.dir < |m| && v / WORDS < WORDS && v in sp.user
    && var pde := m[sp.dir][v / WORDS];
    && HasBit(pde, 1) && HasBit(pde, 2) && HasBit(pde, 4) && pde / 4096 < |m|
    && var pte := m[pde / 4096][v % WORDS];
    && HasBit(pte, 1) && HasBit(pte, 2) && HasBit(pte, 4) && pte / 4096 == sp.user[v]
  }

  ghost predicate AllWritable(m: seq<Frame>, sp: Space) {
    forall v: nat :: v in sp.user ==> UserCanWrite(m, sp, v)
  }

  /** All of the user's memory is the user's to read and write. */
  lemma UserWritable(m: seq<Frame>, sp: Space, end: nat)
    requires Good(m, sp, end)
    ensures AllWritable(m, sp)
  {
    forall v: nat | v in sp.user
      ensures UserCanWrite(m, sp, v)
    {
      PdeIs(m, sp, v, end);
      PteIs(m, sp, v, end);
      var t := sp.tabs[v / WORDS];
      assert m[sp.dir][v / WORDS] == t * 4096 + 7;
      WordBits(t);
      assert m[t][v % WORDS] == sp.user[v] * 4096 + 7;
      WordBits(sp.user[v]);
    }
  }

  lemma WordBits(p: nat)
    ensures var w := p * 4096 + 7; HasBit(w, 1) && HasBit(w, 2) && HasBit(w, 4) && w / 4096 == p
  {
    LowBits(p, 7);
  }

  lemma NotPresent()
    ensures !Present(0)
  {
  }

  lemma Flags(p: nat)
    ensures Page(p * PGSIZE + FLAGS) == p && Present(p * PGSIZE + FLAGS)
  {
  }

  /** An entry of the identity mapping. */
  function Identity(v: nat, perm: nat): nat { v * PGSIZE + perm + 1 }

  /** The directory indices of n virtual pages from v on. */
  ghost function TablesOf(v: nat, n: nat): set<nat> {
    set u | v <= u < v + n :: u / WORDS
  }

  /** The free pages that are missing now belong to the address space. */
  ghost predicate Moved(sp: Space, sp': Space, free: seq<nat>, free': seq<nat>) {
    && Pages(sp) <= Pages(sp')
    && forall p :: p in free <==> p in free' || (p in Pages(sp') && p !in Pages(sp))
  }

  /** After n pages from v on are mapped to themselves. */
  ghost predicate KernelMapped(sp: Space, sp': Space, v: nat, n: nat, perm: nat) {
    && sp'.dir == sp.dir && sp'.user == sp.user
    && sp'.tabs.Keys == sp.tabs.Keys + TablesOf(v, n)
    && (forall u :: u in sp'.kern <==> u in sp.kern || v <= u < v + n)
    && (forall u :: u in sp'.kern ==> sp'.kern[u] == if v <= u < v + n then Identity(u, perm) else sp.kern[u])
  }

  /** What mapping kernel pages does to the pages: the ones it takes become page tables. */
  ghost predicate Took(sp: Space, sp': Space, free: seq<nat>, free': seq<nat>, m: seq<Frame>, m': seq<Frame>) {
    Moved(sp, sp', free, free') && |free| + |sp.tabs| == |free'| + |sp'.tabs| && Same(m, m', Pages(sp'))
  }

  lemma MovedOne(sp: Space, sp': Space, free: seq<nat>)
    requires free != [] && Pages(sp') == Pages(sp) + {free[0]} && free[0] !in Pages(sp) && free[0] !in free[1..]
    ensures Moved(sp, sp', free, free[1..])
  {
    hide Pages;
    assert free == [free[0]] + free[1..];
  }

  lemma SameWithin(m: seq<Frame>, m': seq<Frame>, a: set<nat>, b: set<nat>)
    requires Same(m, m', a) && a <= b
    ensures Same(m, m', b)
  {
  }

  lemma TookIs(sp: Space, sp': Space, free: seq<nat>, free': seq<nat>, m: seq<Frame>, m': seq<Frame>)
    requires Moved(sp, sp', free, free') && |free| + |sp.tabs| == |free'| + |sp'.tabs| && Same(m, m', Pages(sp'))
    ensures Took(sp, sp', free, free', m, m')
  {
  }

  lemma ApartFirst(sp: Space, free: seq<nat>)
    requires free != [] && Apart(sp, free)
    ensures free[0] !in Pages(sp) && sp.dir in Pages(sp)
  {
    assert free[0] in free;
  }

  lemma WalkTakes(sp: Space, v: nat, free: seq<nat>, m: seq<Frame>, m': seq<Frame>, end: nat)
    requires Shape(sp, end) && free != [] && v / WORDS !in sp.tabs && Apart(sp, free) && v < WORDS * WORDS
             && Linked(m, free, end)
    requires Same(m, m', {free[0], sp.dir})
    ensures Took(sp, sp.(tabs := sp.tabs[v / WORDS := free[0]]), free, free[1..], m, m')
  {
    hide Shape, Took, Moved, Same, Pages, Apart;
    var sp' := sp.(tabs := sp.tabs[v / WORDS := free[0]]);
    ApartFirst(sp, free);
    assert Usable(free[0], end);
    PoppedLinked(m, free, end);
    hide Linked;
    TableShape(sp, v / WORDS, free[0], end);
    OneFewer(sp'.tabs, v / WORDS);
    assert sp'.tabs - {v / WORDS} == sp.tabs;
    MovedOne(sp, sp', free);
    SameWithin(m, m', {free[0], sp.dir}, Pages(sp'));
    TookIs(sp, sp', free, free[1..], m, m');
  }

  lemma TookThen(sp0: Space, sp1: Space, sp2: Space, f0: seq<nat>, f1: seq<nat>, f2: seq<nat>, m0: seq<Frame>,
      m1: seq<Frame>, m2: seq<Frame>)
    requires Took(sp0, sp1, f0, f1, m0, m1) && Took(sp1, sp2, f1, f2, m1, m2) && Apart(sp1, f1)
    ensures Took(sp0, sp2, f0, f2, m0, m2)
  {
  }

  lemma TookNone(sp: Space, free: seq<nat>, m: seq<Frame>)
    ensures Took(sp, sp, free, free, m, m)
  {
  }

  lemma TableUsable(sp: Space, v: nat, end: nat)
    requires Shape(sp, end)
    ensures v / WORDS in sp.tabs ==> sp.tabs[v / WORDS] != 0
  {
  }

  /** walkpgdir with create: either there is a table now, and nothing else is new, or the pages have run out. */
  lemma WalkedWell(sp: Space, sp': Space, v: nat, free: seq<nat>, free': seq<nat>, t: nat)
    requires Walked(sp, sp', v, true, free, free', t) && (t != 0 <==> v / WORDS in sp'.tabs)
    ensures t == 0 ==> sp' == sp && free' == free == [] && v / WORDS !in sp.tabs
    ensures t != 0 ==> sp'.kern == sp.kern && sp'.user == sp.user && sp'.dir == sp.dir
                       && sp'.tabs.Keys == sp.tabs.Keys + {v / WORDS} && t == sp'.tabs[v / WORDS]
  {
  }

  lemma KernelMappedOne(sp: Space, sp1: Space, v: nat, perm: nat)
    requires sp1.kern == sp.kern && sp1.user == sp.user && sp1.dir == sp.dir
             && sp1.tabs.Keys == sp.tabs.Keys + {v / WORDS}
    ensures KernelMapped(sp, sp1.(kern := sp1.kern[v := Identity(v, perm)]), v, 1, perm)
  {
    assert TablesOf(v, 1) == {v / WORDS};
  }

  lemma TableThere(sp: Space, v: nat, t: nat)
    requires v / WORDS in sp.tabs && t == sp.tabs[v / WORDS]
    ensures t in sp.tabs.Values && t in Pages(sp)
  {
  }

  lemma SamePages(sp: Space, sp': Space, free: seq<nat>)
    requires Pages(sp') == Pages(sp) && Apart(sp, free)
    ensures Apart(sp', free)
  {
  }

  lemma TookStore(sp: Space, sp': Space, free: seq<nat>, m: seq<Frame>, m': seq<Frame>)
    requires sp'.tabs == sp.tabs && Pages(sp') == Pages(sp) && Same(m, m', Pages(sp))
    ensures Took(sp, sp', free, free, m, m')
  {
  }

  lemma KernelMappedThen(sp0: Space, sp1: Space, sp2: Space, v: nat, k: nat, perm: nat)
    requires KernelMapped(sp0, sp1, v, k, perm) && KernelMapped(sp1, sp2, v + k, 1, perm)
    ensures KernelMapped(sp0, sp2, v, k + 1, perm)
  {
    TablesMore(v, k);
    hide TablesOf;
  }

  lemma TablesMore(v: nat, k: nat)
    ensures TablesOf(v, k + 1) == TablesOf(v, k) + TablesOf(v + k, 1)
  {
    forall i
      ensures i in TablesOf(v, k + 1) <==> i in TablesOf(v, k) || i in TablesOf(v + k, 1)
    {
    }
  }

  lemma NotYet(sp: Space, sp': Space, v: nat, k: nat, perm: nat, u: nat)
    requires KernelMapped(sp, sp', v, k, perm)
    ensures sp'.dir == sp.dir && (u !in sp.kern && u >= v + k ==> u !in sp'.kern)
  {
  }

  lemma KernelMappedNone(sp: Space, v: nat, perm: nat)
    ensures KernelMapped(sp, sp, v, 0, perm)
  {
    assert TablesOf(v, 0) == {};
  }

  /* The kernel's part of every address space */

  const IOEND := 256          // page 1M
  const DEVICES := 0xF_E000   // page 0xFE000000

  /**
   kmap, by pages: the first page, the number of pages and the permissions of entry i. `data` is where kernel data
   starts.
   */
  function Kmap(i: nat, data: nat): (nat, nat, nat)
    requires i < 4 && IOEND < data < NPAGES
  {
    if i == 0 then (USERPAGES, IOEND - USERPAGES, 2)
    else if i == 1 then (IOEND, data - IOEND, 0)
    else if i == 2 then (data, NPAGES - data, 2)
    else (DEVICES, WORDS * WORDS - DEVICES, 2)
  }

  /** Where the direct mapping ends after i entries of kmap. */
  function Low(i: nat, data: nat): nat {
    if i == 0 then USERPAGES else if i == 1 then IOEND else if i == 2 then data else NPAGES
  }

  predicate InKernel(u: nat, i: nat, data: nat) {
    USERPAGES <= u < Low(i, data) || (i == 4 && DEVICES <= u < WORDS * WORDS)
  }

  /** Kernel text cannot be written. */
  function Perm(u: nat, data: nat): nat {
    if IOEND <= u < data then 0 else 2
  }

  /** The address space after i entries of kmap. */
  ghost predicate KernelUpTo(sp: Space, i: nat, data: nat) {
    && sp.user == map[]
    && (forall u :: u in sp.kern <==> InKernel(u, i, data))
    && (forall u :: u in sp.kern ==> sp.kern[u] == Identity(u, Perm(u, data)))
    && sp.tabs.Keys == KernelTables(i, data)
  }

  ghost function KernelTables(i: nat, data: nat): set<nat> {
    TablesOf(USERPAGES, if Low(i, data) < USERPAGES then 0 else Low(i, data) - USERPAGES) + if i == 4
        then TablesOf(DEVICES, WORDS * WORDS - DEVICES) else {}
  }

  lemma TablesJoin(v: nat, a: nat, b: nat)
    ensures TablesOf(v, a + b) == TablesOf(v, a) + TablesOf(v + a, b)
  {
    forall i
      ensures i in TablesOf(v, a + b) <==> i in TablesOf(v, a) || i in TablesOf(v + a, b)
    {
    }
  }

  lemma TablesWithin(v: nat, n: nat, i: nat)
    requires n > 0
    ensures i in TablesOf(v, n) <==> v / WORDS <= i <= (v + n - 1) / WORDS
  {
    if v / WORDS <= i <= (v + n - 1) / WORDS {
      var u := if i * WORDS < v then v else i * WORDS;
      assert v <= u < v + n && u / WORDS == i;
    }
  }

  lemma DirectTables()
    ensures TablesOf(USERPAGES, NPAGES - USERPAGES) == {0, 1, 2, 3}
  {
    hide TablesOf;
    var found := TablesOf(USERPAGES, NPAGES - USERPAGES);
    forall i
      ensures i in found <==> i in {0, 1, 2, 3}
    {
      TablesWithin(USERPAGES, NPAGES - USERPAGES, i);
    }
  }

  lemma DeviceTables()
    ensures TablesOf(DEVICES, WORDS * WORDS - DEVICES) == {1016, 1017, 1018, 1019, 1020, 1021, 1022, 1023}
  {
    hide TablesOf;
    var found := TablesOf(DEVICES, WORDS * WORDS - DEVICES);
    forall i
      ensures i in found <==> i in {1016, 1017, 1018, 1019, 1020, 1021, 1022, 1023}
    {
      TablesWithin(DEVICES, WORDS * WORDS - DEVICES, i);
    }
  }

  /** Four tables for what is mapped directly, eight for the devices. */
  lemma TwelveTables(data: nat)
    ensures |KernelTables(4, data)| == 12 && 0 in KernelTables(4, data)
  {
    hide TablesOf;
    DirectTables();
    DeviceTables();
    assert KernelTables(4, data) == {0, 1, 2, 3} + {1016, 1017, 1018, 1019, 1020, 1021, 1022, 1023};
    assert |{0, 1, 2, 3}| == 4;
  }

  lemma TablesGrow(i: nat, data: nat)
    requires i <= 4 && IOEND < data < NPAGES
    ensures KernelTables(i, data) <= KernelTables(4, data)
  {
    var n := if Low(i, data) < USERPAGES then 0 else Low(i, data) - USERPAGES;
    TablesJoin(USERPAGES, n, NPAGES - USERPAGES - n);
    hide TablesOf;
  }

  lemma KernelNext(sp: Space, sp': Space, i: nat, data: nat)
    requires i < 4 && IOEND < data < NPAGES && KernelUpTo(sp, i, data)
    requires var (v, n, perm) := Kmap(i, data); KernelMapped(sp, sp', v, n, perm)
    ensures KernelUpTo(sp', i + 1, data)
  {
    hide TablesOf;
    if i < 3 {
      TablesJoin(USERPAGES, Low(i, data) - USERPAGES, Low(i + 1, data) - Low(i, data));
    }
  }

  /** An address space of a directory alone. */
  function Bare(dir: nat): Space {
    Space(dir, map[], map[], map[])
  }

  lemma BareGood(m: seq<Frame>, dir: nat, free: seq<nat>, end: nat)
    requires |m| == NPAGES && Usable(dir, end) && dir !in free
    ensures Good(m[dir := Zeros()], Bare(dir), end) && Apart(Bare(dir), free) && Pages(Bare(dir)) == {dir}
  {
  }

  lemma KernelUpToNone(dir: nat, data: nat)
    ensures KernelUpTo(Bare(dir), 0, data) && |Bare(dir).tabs| == 0
  {
    TablesNone(USERPAGES);
  }

  lemma TablesNone(v: nat)
    ensures TablesOf(v, 0) == {}
  {
  }

  /** What setupkvm makes. */
  ghost predicate KernelOnly(sp: Space, data: nat) {
    KernelUpTo(sp, 4, data)
  }

  /** Kernel entries map each page to itself, are writable except for the text, and are hidden from users. */
  lemma KernelBits(m: seq<Frame>, sp: Space, v: nat, data: nat, end: nat)
    requires Good(m, sp, end) && KernelOnly(sp, data) && v in sp.kern
    ensures v / WORDS in sp.tabs && sp.tabs[v / WORDS] < |m|
    ensures var pte := m[sp.tabs[v / WORDS]][v % WORDS];
            pte / 4096 == v && HasBit(pte, 1) && !HasBit(pte, 4) && (HasBit(pte, 2) <==> !(0x100 <= v < data))
  {
    KernWord(m, sp, v, data, end);
    hide *;
    IdentityBits(v, false);
    IdentityBits(v, true);
  }

  lemma KernWord(m: seq<Frame>, sp: Space, v: nat, data: nat, end: nat)
    requires Good(m, sp, end) && KernelOnly(sp, data) && v in sp.kern
    ensures v / WORDS in sp.tabs && sp.tabs[v / WORDS] < |m|
    ensures m[sp.tabs[v / WORDS]][v % WORDS] == v * 4096 + 1 + if 0x100 <= v < data then 0 else 2
  {
    hide Holds, TablesOf, KernelTables;
    PteIs(m, sp, v, end);
  }

  lemma IdentityBits(v: nat, write: bool)
    ensures var w := v * 4096 + 1 + if write then 2 else 0;
            w / 4096 == v && HasBit(w, 1) && !HasBit(w, 4) && (HasBit(w, 2) <==> write)
  {
    LowBits(v, if write then 3 else 1);
  }

  lemma LowBits(v: nat, b: nat)
    requires b < 8
    ensures (v * 4096 + b) / 4096 == v && (v * 4096 + b) % 2 == b % 2
    ensures (v * 4096 + b) / 2 % 2 == b / 2 % 2 && (v * 4096 + b) / 4 % 2 == b / 4 % 2
  {
    var h := v * 512;
    assert v * 4096 + b == 8 * h + b;
    Eighths(h, b);
  }

  lemma Eighths(h: nat, b: nat)
    requires b < 8
    ensures (8 * h + b) % 2 == b % 2 && (8 * h + b) / 2 % 2 == b / 2 % 2 && (8 * h + b) / 4 % 2 == b / 4 % 2
  {
    assert (8 * h + b) / 2 == 4 * h + b / 2;
    assert (8 * h + b) / 4 == 2 * h + b / 4;
  }

  const SETUP := 13   // the pages of an address space without user memory

  lemma KernelOnlyPages(sp: Space, data: nat)
    requires KernelOnly(sp, data)
    ensures |sp.tabs| == 12 && 0 in sp.tabs
  {
    TwelveTables(data);
    assert |sp.tabs| == |sp.tabs.Keys| == 12;
  }

  /** What setupkvm touches was free. */
  lemma TakenFree(dir: nat, sp: Space, f: seq<nat>, f0: seq<nat>, f1: seq<nat>, m: seq<Frame>, m0: seq<Frame>,
      m1: seq<Frame>)
    requires f != [] && f[0] == dir && f0 == f[1..] && Same(m, m0, {dir}) && Same(m0, m1, Pages(sp))
    requires forall p :: p in f0 <==> p in f1 || (p in Pages(sp) && p != dir)
    ensures Same(m, m1, FreeSet(f)) && forall p :: p in f1 ==> p in f
  {
    hide Pages;
    assert dir in f && forall p :: p in f0 ==> p in f;
  }

  lemma KernelOnlyIs(sp: Space, data: nat)
    requires KernelUpTo(sp, 4, data)
    ensures KernelOnly(sp, data)
  {
  }

  lemma KmapFits(sp: Space, i: nat, data: nat)
    requires i < 4 && IOEND < data < NPAGES && KernelUpTo(sp, i, data)
    ensures var (v, n, perm) := Kmap(i, data);
            USERPAGES <= v && v + n <= WORDS * WORDS && n >= 1 && perm % 2 == 0 && forall u :: v <= u < v + n ==>
                u !in sp.kern
  {
  }

  lemma TookCounts(dir: nat, sp: Space, f0: seq<nat>, f: seq<nat>, m1: seq<Frame>, m: seq<Frame>)
    requires Took(Bare(dir), sp, f0, f, m1, m)
    ensures |f0| == |f| + |sp.tabs| && Same(m1, m, Pages(sp)) && dir in Pages(sp)
    ensures forall p :: p in f0 <==> p in f || (p in Pages(sp) && p != dir)
  {
  }

  /** As long as a table is missing there are fewer than twelve. */
  lemma MissingTable(sp: Space, sp': Space, i: nat, data: nat, k: nat)
    requires i < 4 && IOEND < data < NPAGES && KernelUpTo(sp, i, data)
    requires var (v, n, perm) := Kmap(i, data);
             k < n && KernelMapped(sp, sp', v, k, perm) && (v + k) / WORDS !in sp'.tabs
    ensures |sp'.tabs| < 12
  {
    hide TablesOf, KernelTables, KernelUpTo, KernelMapped, Low, Kmap;
    var (v, n, perm) := Kmap(i, data);
    TablesAre(sp, sp', i, data, v, k, perm);
    MissingIndex(i, data, k);
    TablesJoin(v, k, n - k);
    var x := (v + k) / WORDS;
    SubsetFewer(sp'.tabs.Keys, KernelTables(4, data) - {x});
    TwelveTables(data);
    assert |sp'.tabs| == |sp'.tabs.Keys|;
  }

  lemma TablesAre(sp: Space, sp': Space, i: nat, data: nat, v: nat, k: nat, perm: nat)
    requires KernelUpTo(sp, i, data) && KernelMapped(sp, sp', v, k, perm)
    ensures sp'.tabs.Keys == KernelTables(i, data) + TablesOf(v, k)
  {
    hide TablesOf, KernelTables;
  }

  lemma MissingIndex(i: nat, data: nat, k: nat)
    requires i < 4 && IOEND < data < NPAGES && k < Kmap(i, data).1
    ensures (Kmap(i, data).0 + k) / WORDS in KernelTables(4, data)
    ensures KernelTables(i, data) <= KernelTables(4, data)
            && TablesOf(Kmap(i, data).0, Kmap(i, data).1) <= KernelTables(4, data)
  {
    hide TablesOf, KernelTables, Low;
    TablesGrow(i, data);
    TablesGrow(i + 1, data);
    RegionTables(i, data, k);
  }

  lemma SubsetFewer(a: set<nat>, b: set<nat>)
    requires a <= b
    ensures |a| <= |b|
  {
    assert b == a + (b - a);
  }

  /** The tables of entry i of kmap are among all. */
  lemma RegionTables(i: nat, data: nat, k: nat)
    requires i < 4 && IOEND < data < NPAGES && k < Kmap(i, data).1
    ensures TablesOf(Kmap(i, data).0, Kmap(i, data).1) <= KernelTables(i + 1, data)
    ensures (Kmap(i, data).0 + k) / WORDS in TablesOf(Kmap(i, data).0, Kmap(i, data).1)
  {
    var (v, n, perm) := Kmap(i, data);
    if i < 3 {
      TablesJoin(USERPAGES, Low(i, data) - USERPAGES, n);
    }
    assert v <= v + k < v + n;
  }

  /* User memory */

  /** PGROUNDUP, as a number of pages. */
  function RoundUp(b: nat): nat { (b + PGSIZE - 1) / PGSIZE }

  /** The address space without its user pages from lo on below hi. */
  function Without(sp: Space, lo: nat, hi: nat): Space {
    sp.(user := map u | u in sp.user && !(lo <= u < hi) :: sp.user[u])
  }

  /** The pages that sp has and sp' has not are free again; beside them only page tables changed. */
  ghost predicate Gave(sp: Space, sp': Space, free: seq<nat>, free': seq<nat>, m: seq<Frame>, m': seq<Frame>) {
    && Pages(sp') <= Pages(sp) && sp'.tabs == sp.tabs
    && (forall p :: p in free' <==> p in free || (p in Pages(sp) && p !in Pages(sp')))
    && |free'| + |sp'.user| == |free| + |sp.user|
    && Same(m, m', sp.tabs.Values + (Pages(sp) - Pages(sp')))
  }

  /** Pages went from the address space to the list of free pages or back; only these pages changed. */
  ghost predicate Exchanged(sp: Space, sp': Space, free: seq<nat>, free': seq<nat>, m: seq<Frame>, m': seq<Frame>) {
    FreeSet(free') + Pages(sp') == FreeSet(free) + Pages(sp) && Same(m, m', Pages(sp) + FreeSet(free))
  }

  lemma GaveExchanges(sp: Space, sp': Space, free: seq<nat>, free': seq<nat>, m: seq<Frame>, m': seq<Frame>)
    requires Gave(sp, sp', free, free', m, m')
    ensures Exchanged(sp, sp', free, free', m, m') && Exchanged(sp', sp, free', free, m', m)
  {
    TabsWithin(sp');
    hide Pages;
    assert FreeSet(free') == FreeSet(free) + (Pages(sp) - Pages(sp'));
    assert sp.tabs.Values <= Pages(sp') && Pages(sp) <= Pages(sp') + FreeSet(free');
  }

  lemma SameExchanges(sp: Space, free: seq<nat>, free': seq<nat>, m: seq<Frame>, m': seq<Frame>)
    requires (forall p :: p in free' <==> p in free) && Same(m, m', sp.tabs.Values + set p | p in free)
    ensures Exchanged(sp, sp, free, free', m, m')
  {
  }

  lemma GaveNone(sp: Space, free: seq<nat>, m: seq<Frame>)
    ensures Gave(sp, sp, free, free, m, m)
  {
  }

  lemma GaveThen(sp0: Space, sp1: Space, sp2: Space, f0: seq<nat>, f1: seq<nat>, f2: seq<nat>, m0: seq<Frame>,
      m1: seq<Frame>, m2: seq<Frame>)
    requires Gave(sp0, sp1, f0, f1, m0, m1) && Gave(sp1, sp2, f1, f2, m1, m2)
    ensures Gave(sp0, sp2, f0, f2, m0, m2)
  {
  }

  lemma UserNeedsTable(sp: Space, v: nat, end: nat)
    requires Shape(sp, end)
    ensures v in sp.user ==> v / WORDS in sp.tabs
    ensures v !in sp.user ==> sp.user - {v} == sp.user
  {
  }

  lemma UserOrKernel(sp: Space, v: nat, end: nat)
    requires Shape(sp, end) && v < USERPAGES
    ensures v !in sp.kern
  {
  }

  /** A page of user memory is no table and not free. */
  lemma UserPage(sp: Space, v: nat, free: seq<nat>, end: nat)
    requires Shape(sp, end) && v in sp.user && v / WORDS in sp.tabs && Apart(sp, free)
    ensures Usable(sp.user[v], end) && sp.user[v] !in free && sp.user[v] != sp.dir < NPAGES
    ensures forall i :: i in sp.tabs ==> sp.tabs[i] != sp.user[v] && sp.tabs[i] !in free && sp.tabs[i] < NPAGES
  {
    assert sp.user[v] in sp.user.Values && sp.user[v] in Pages(sp);
    forall i | i in sp.tabs
      ensures sp.tabs[i] !in free
    {
      assert sp.tabs[i] in Pages(sp);
    }
  }

  lemma OneFewer(x: map<nat, nat>, k: nat)
    requires k in x
    ensures |x - {k}| == |x| - 1
  {
    assert x.Keys == (x - {k}).Keys + {k};
    assert |x| == |x.Keys| && |x - {k}| == |(x - {k}).Keys|;
  }

  lemma GaveOne(sp: Space, v: nat, free: seq<nat>, m: seq<Frame>, m': seq<Frame>, end: nat)
    requires Shape(sp, end) && v in sp.user && Apart(sp, free) && v / WORDS in sp.tabs
    requires Same(m, m', {sp.user[v], sp.tabs[v / WORDS]})
    ensures var sp' := sp.(user := sp.user - {v});
            Gave(sp, sp', free, [sp.user[v]] + free, m, m') && Apart(sp', [sp.user[v]] + free)
  {
    hide Shape, Pages;
    UserDropped(sp, v, end);
    OneFewer(sp.user, v);
    TableThere(sp, v, sp.tabs[v / WORDS]);
  }

  lemma RoundUpIs(a: nat, b: nat)
    ensures a * PGSIZE < b <==> a < RoundUp(b)
    ensures b <= USERTOP ==> RoundUp(b) <= USERPAGES
  {
  }

  lemma RoundUpGrows(a: nat, b: nat)
    requires a <= b
    ensures RoundUp(a) <= RoundUp(b)
  {
  }

  lemma WithoutDir(sp: Space, lo: nat, hi: nat)
    ensures Without(sp, lo, hi).dir == sp.dir && Without(sp, lo, hi).tabs == sp.tabs
  {
  }

  lemma WithoutNone(sp: Space, lo: nat)
    ensures Without(sp, lo, lo) == sp
  {
    assert (map u | u in sp.user && !(lo <= u < lo) :: sp.user[u]) == sp.user;
  }

  lemma WithoutMore(sp: Space, lo: nat, a: nat)
    requires lo <= a
    ensures Without(sp, lo, a + 1) == var sp1 := Without(sp, lo, a); sp1.(user := sp1.user - {a})
  {
    var sp1 := Without(sp, lo, a);
    assert Without(sp, lo, a + 1).user == sp1.user - {a};
  }

  /** A page from the front of the free list, zeroed or written otherwise, becomes user memory. */
  lemma GotOne(sp: Space, v: nat, free: seq<nat>, m: seq<Frame>, m': seq<Frame>, end: nat)
    requires Shape(sp, end) && free != [] && Apart(sp, free) && Usable(free[0], end) && free[0] !in free[1..]
             && v !in sp.user
    requires v < USERPAGES && v / WORDS in sp.tabs && Same(m, m', {free[0], sp.tabs[v / WORDS]})
    ensures var sp' := sp.(user := sp.user[v := free[0]]);
            Gave(sp', sp, free[1..], free, m', m) && Apart(sp', free[1..])
  {
    hide Shape, Pages;
    assert free[0] in free && free == [free[0]] + free[1..];
    UserAdded(sp, v, free[0], end);
    TableThere(sp, v, sp.tabs[v / WORDS]);
    var user' := sp.user[v := free[0]];
    OneFewer(user', v);
    assert user' - {v} == sp.user;
  }

  /** A page that was free is in no address space; writing it changes none. */
  lemma NewPage(m: seq<Frame>, m': seq<Frame>, sp: Space, p: nat, f0: seq<nat>, f: seq<nat>, end: nat)
    requires Good(m, sp, end) && Linked(m, f, end) && Apart(sp, f0) && p in f0 && p !in f && p < NPAGES
             && (forall q :: q in f ==> q in f0)
    requires |m'| == |m| && forall q: nat :: q < |m| && q != p ==> m'[q] == m[q]
    ensures Good(m', sp, end) && Linked(m', f, end) && Apart(sp, f) && p !in Pages(sp)
  {
    ElsewhereLinked(m, m', f, end);
    assert p !in Pages(sp);
    assert sp.dir in Pages(sp);
    forall i | i in sp.tabs
      ensures sp.tabs[i] != p
    {
      assert sp.tabs[i] in Pages(sp);
    }
    HoldsElsewhere(m, m', sp, end);
  }

  lemma NotThere(sp: Space, v: nat, p: nat)
    requires v / WORDS in sp.tabs && p !in Pages(sp)
    ensures sp.tabs[v / WORDS] != p
  {
    TableThere(sp, v, sp.tabs[v / WORDS]);
  }

  /** New pages hold zeros. */
  ghost predicate Zeroed(m: seq<Frame>, sp: Space, lo: nat, a: nat) {
    forall u :: u in sp.user && lo <= u < a ==> sp.user[u] < |m| && m[sp.user[u]] == Zeros()
  }

  /** sp' has what sp has, and user pages from lo on below a. */
  ghost predicate Extended(sp: Space, sp': Space, lo: nat, a: nat) {
    && sp'.dir == sp.dir && sp'.tabs == sp.tabs && sp'.kern == sp.kern
    && (forall u :: u in sp'.user <==> u in sp.user || lo <= u < a)
    && (forall u :: u in sp.user ==> sp'.user[u] == sp.user[u])
  }

  lemma ExtendedMore(sp: Space, sp1: Space, lo: nat, a: nat, p: nat)
    requires Extended(sp, sp1, lo, a) && lo <= a && a !in sp1.user
    ensures Extended(sp, sp1.(user := sp1.user[a := p]), lo, a + 1)
  {
  }

  lemma ZeroedMore(m: seq<Frame>, m': seq<Frame>, sp: Space, lo: nat, a: nat, p: nat, end: nat)
    requires Zeroed(m, sp, lo, a) && a / WORDS in sp.tabs && Same(m, m', {p, sp.tabs[a / WORDS]}) && p < |m|
             && m'[p] == Zeros()
    requires Shape(sp, end)
    ensures Zeroed(m', sp.(user := sp.user[a := p]), lo, a + 1)
  {
  }

  /** allocuvm's loop has come to page a. */
  ghost predicate Growing(sp: Space, sp': Space, lo: nat, a: nat, f0: seq<nat>, f: seq<nat>, m0: seq<Frame>,
      m: seq<Frame>) {
    && lo <= a && sp'.dir == sp.dir && Extended(sp, sp', lo, a) && Zeroed(m, sp', lo, a)
    && Gave(sp', sp, f, f0, m, m0) && |f0| == |f| + (a - lo)
  }

  lemma GrowingStart(sp: Space, lo: nat, f: seq<nat>, m: seq<Frame>)
    ensures Growing(sp, sp, lo, lo, f, f, m, m)
  {
    GaveNone(sp, f, m);
  }

  lemma GrowingStep(sp: Space, sp1: Space, lo: nat, a: nat, f0: seq<nat>, f: seq<nat>, m0: seq<Frame>, m: seq<Frame>,
      m': seq<Frame>, end: nat)
    requires Growing(sp, sp1, lo, a, f0, f, m0, m) && f != [] && Shape(sp1, end) && a !in sp1.user
             && a / WORDS in sp1.tabs
    requires f[0] < |m| && Same(m, m', {f[0], sp1.tabs[a / WORDS]}) && m'[f[0]] == Zeros()
    requires var sp' := sp1.(user := sp1.user[a := f[0]]); Gave(sp', sp1, f[1..], f, m', m)
    ensures var sp' := sp1.(user := sp1.user[a := f[0]]); Growing(sp, sp', lo, a + 1, f0, f[1..], m0, m')
  {
    hide Shape, Zeroed, Extended, Gave;
    var sp' := sp1.(user := sp1.user[a := f[0]]);
    GaveThen(sp', sp1, sp, f[1..], f, f0, m', m, m0);
    ExtendedMore(sp, sp1, lo, a, f[0]);
    ZeroedMore(m, m', sp1, lo, a, f[0], end);
  }

  lemma GrowingEnd(sp: Space, sp1: Space, lo: nat, a: nat, f0: seq<nat>, f: seq<nat>, m0: seq<Frame>, m: seq<Frame>)
    requires Growing(sp, sp1, lo, a, f0, f, m0, m)
    ensures Extended(sp, sp1, lo, a) && Zeroed(m, sp1, lo, a) && Gave(sp1, sp, f, f0, m, m0)
  {
  }

  lemma GrowingHere(sp: Space, sp1: Space, lo: nat, a: nat, f0: seq<nat>, f: seq<nat>, m0: seq<Frame>, m: seq<Frame>)
    requires Growing(sp, sp1, lo, a, f0, f, m0, m)
    ensures sp1.tabs == sp.tabs && (a !in sp.user ==> a !in sp1.user)
  {
  }

  /** What the failing allocuvm has to undo. */
  lemma UserBelow(sp: Space, sp1: Space, lo: nat, a: nat, hi: nat)
    requires Extended(sp, sp1, lo, a) && a <= hi && forall u :: u in sp.user ==> !(lo <= u < hi)
    ensures Without(sp1, lo, hi) == sp
  {
    ExtendedBack(sp, sp1, lo, a, hi);
  }

  lemma RolledBack(sp: Space, sp1: Space, f0: seq<nat>, f1: seq<nat>, f2: seq<nat>, m0: seq<Frame>, m1: seq<Frame>,
      m2: seq<Frame>)
    requires Gave(sp1, sp, f1, f0, m1, m0) && Gave(sp1, sp, f1, f2, m1, m2)
    ensures |f2| == |f0| && (forall p :: p in f2 <==> p in f0) && Same(m0, m2, sp.tabs.Values + set p | p in f0)
  {
  }

  lemma ExtendedBack(sp: Space, sp': Space, lo: nat, a: nat, hi: nat)
    requires Extended(sp, sp', lo, a) && a <= hi && forall u :: u in sp.user ==> !(lo <= u < hi)
    ensures Without(sp', lo, hi) == sp
  {
    assert Without(sp', lo, hi).user == sp.user;
  }

  /** The user's memory is the pages below sz. */
  ghost predicate UserIs(sp: Space, sz: nat) {
    forall u :: u in sp.user <==> 0 <= u < RoundUp(sz)
  }

  lemma WithoutUser(sp: Space, sz: nat, newsz: nat)
    requires UserIs(sp, sz) && newsz <= sz
    ensures UserIs(Without(sp, RoundUp(newsz), RoundUp(sz)), newsz)
  {
    RoundUpGrows(newsz, sz);
    hide RoundUp;
  }

  lemma ExtendedUser(sp: Space, sp': Space, sz: nat, newsz: nat)
    requires UserIs(sp, sz) && sz <= newsz && Extended(sp, sp', RoundUp(sz), RoundUp(newsz))
    ensures UserIs(sp', newsz)
  {
    RoundUpGrows(sz, newsz);
    hide RoundUp;
  }

  /** Without user pages above sz there is room to grow. */
  lemma NothingAbove(sp: Space, sz: nat, newsz: nat)
    requires UserIs(sp, sz)
    ensures forall u :: u in sp.user ==> !(RoundUp(sz) <= u < RoundUp(newsz))
  {
    hide RoundUp;
  }

  lemma ExtendedIf(sp: Space, sp': Space, sz: nat, newsz: nat)
    requires UserIs(sp, sz) && sz <= newsz && Extended(sp, sp', RoundUp(sz), RoundUp(newsz))
    ensures UserIs(sp', newsz)
  {
    ExtendedUser(sp, sp', sz, newsz);
  }

  /** What deallocuvm leaves when growproc passes on sz + n, n < 0. */
  lemma ShrunkIf(sp: Space, sz: nat, n: int, sp': Space)
    requires UserIs(sp, sz) && -0x8000_0000 <= n < 0 && sz <= USERTOP
    requires var newsz := (sz + n) % 0x1_0000_0000;
             sp' == if newsz >= sz then sp else Without(sp, RoundUp(newsz), RoundUp(sz))
    ensures UserIs(sp', if sz + n < 0 then sz else sz + n)
    ensures sz + n == 0 ==> !UserIs(sp', sz)
  {
    if sz + n >= 0 {
      WithoutUser(sp, sz, sz + n);
    }
    if sz + n == 0 {
      assert 0 < RoundUp(sz) && RoundUp(0) == 0;
      assert 0 !in sp'.user;
    }
  }

  /* freevm: the tables go one after another */

  ghost function TabPages(sp: Space, i: nat): set<nat> {
    set j | j in sp.tabs && j < i :: sp.tabs[j]
  }

  lemma TabPagesNext(sp: Space, i: nat, end: nat)
    requires Shape(sp, end)
    ensures TabPages(sp, 0) == {} && TabPages(sp, WORDS) == sp.tabs.Values
    ensures i in sp.tabs ==>
            TabPages(sp, i + 1) == TabPages(sp, i) + {sp.tabs[i]} && sp.tabs[i] !in TabPages(sp, i)
            && sp.tabs[i] in Pages(sp)
    ensures i !in sp.tabs ==> TabPages(sp, i + 1) == TabPages(sp, i)
  {
  }

  /** The pages of an address space without user memory. */
  lemma NoUserPages(sp: Space)
    requires sp.user == map[]
    ensures Pages(sp) == {sp.dir} + sp.tabs.Values
  {
    assert sp.user.Values == {};
  }

  lemma WithoutAll(sp: Space, end: nat)
    requires Shape(sp, end)
    ensures Without(sp, 0, USERPAGES).user == map[] && RoundUp(0) == 0 && RoundUp(USERTOP) == USERPAGES
  {
  }

  /** All pages of the address space are free. */
  ghost predicate AllGiven(sp: Space, free: seq<nat>, free': seq<nat>, m: seq<Frame>, m': seq<Frame>) {
    && (forall p :: p in free' <==> p in free || p in Pages(sp))
    && |free'| == |free| + |sp.user| + |sp.tabs| + 1
    && Same(m, m', Pages(sp))
  }

  lemma GivenThen(sp: Space, sp1: Space, f0: seq<nat>, f1: seq<nat>, f2: seq<nat>, m0: seq<Frame>, m1: seq<Frame>,
      m2: seq<Frame>)
    requires Gave(sp, sp1, f0, f1, m0, m1) && AllGiven(sp1, f1, f2, m1, m2) && sp1.user == map[]
    ensures AllGiven(sp, f0, f2, m0, m2)
  {
    TabsWithin(sp);
    hide Pages, Same;
    SameWithin(m0, m1, sp.tabs.Values + (Pages(sp) - Pages(sp1)), Pages(sp));
    SameWithin(m1, m2, Pages(sp1), Pages(sp));
    SameThen(m0, m1, m2, Pages(sp));
  }

  lemma TabsWithin(sp: Space)
    ensures sp.tabs.Values <= Pages(sp)
  {
  }

  lemma SameThen(m0: seq<Frame>, m1: seq<Frame>, m2: seq<Frame>, where: set<nat>)
    requires Same(m0, m1, where) && Same(m1, m2, where)
    ensures Same(m0, m2, where)
  {
  }


  lemma PagesApart(sp: Space, free: seq<nat>, end: nat)
    requires Shape(sp, end) && Apart(sp, free)
    ensures sp.dir !in free && Usable(sp.dir, end)
            && (forall i :: i in sp.tabs ==> sp.tabs[i] !in free && sp.tabs[i] != sp.dir && Usable(sp.tabs[i], end))
    ensures forall i :: sp.dir !in TabPages(sp, i)
  {
    forall i | i in sp.tabs
      ensures sp.tabs[i] !in free
    {
      assert sp.tabs[i] in Pages(sp);
    }
  }

  lemma TableAt(m: seq<Frame>, sp: Space, i: nat, end: nat)
    requires Good(m, sp, end) && i < WORDS
    ensures sp.dir < |m| && (Present(m[sp.dir][i]) <==> i in sp.tabs)
            && (i in sp.tabs ==> Page(m[sp.dir][i]) == sp.tabs[i])
  {
    hide Page, Present;
    assert m[sp.dir][i] == DirEntry(sp, i);
    if i in sp.tabs {
      Flags(sp.tabs[i]);
    }
    NotPresent();
  }

  lemma {:induction false} DistinctValues(x: map<nat, nat>)
    requires forall i, j :: i in x && j in x && i != j ==> x[i] != x[j]
    ensures |x.Values| == |x|
    decreases |x|
  {
    if x == map[] {
      assert x.Values == {};
    } else {
      var k :| k in x;
      DropValue(x, k);
      OneFewer(x, k);
      DistinctValues(x - {k});
    }
  }

  lemma ValuesCount(sp: Space, end: nat)
    requires Shape(sp, end)
    ensures |TabPages(sp, WORDS)| == |sp.tabs| && TabPages(sp, WORDS) == sp.tabs.Values
  {
    TabPagesNext(sp, 0, end);
    DistinctValues(sp.tabs);
  }

  /** freevm has freed the tables below directory index i. */
  ghost predicate Freeing(sp: Space, i: nat, f0: seq<nat>, f: seq<nat>, m0: seq<Frame>, m: seq<Frame>) {
    && |f| == |f0| + |TabPages(sp, i)| && Same(m0, m, TabPages(sp, i))
    && forall p :: p in f <==> p in f0 || p in TabPages(sp, i)
  }

  lemma FreeingStart(sp: Space, f: seq<nat>, m: seq<Frame>, end: nat)
    requires Shape(sp, end)
    ensures Freeing(sp, 0, f, f, m, m)
  {
    TabPagesNext(sp, 0, end);
  }

  lemma FreeingHere(sp: Space, i: nat, f0: seq<nat>, f: seq<nat>, m0: seq<Frame>, m: seq<Frame>, end: nat)
    requires Good(m0, sp, end) && Apart(sp, f0) && Freeing(sp, i, f0, f, m0, m) && i <= WORDS
    ensures sp.dir < |m| && Usable(sp.dir, end) && sp.dir !in f && m[sp.dir] == m0[sp.dir]
    ensures i < WORDS ==> (Present(m[sp.dir][i]) <==> i in sp.tabs)
    ensures i in sp.tabs ==>
            i < WORDS && Page(m[sp.dir][i]) == sp.tabs[i] && Usable(sp.tabs[i], end) && sp.tabs[i] !in f
  {
    hide Shape, Holds, Apart, TabPages, Present, Page;
    PagesApart(sp, f0, end);
    TabPagesNext(sp, i, end);
    TabBelow(sp, i, end);
    if i < WORDS {
      TableAt(m0, sp, i, end);
    }
  }

  lemma TabBelow(sp: Space, i: nat, end: nat)
    requires Shape(sp, end)
    ensures i in sp.tabs ==> i < WORDS
  {
  }

  lemma FreeingNext(sp: Space, i: nat, f0: seq<nat>, f: seq<nat>, f': seq<nat>, m0: seq<Frame>, m: seq<Frame>,
      m': seq<Frame>, end: nat)
    requires Shape(sp, end) && Freeing(sp, i, f0, f, m0, m)
    requires if i in sp.tabs then f' == [sp.tabs[i]] + f && Same(m, m', {sp.tabs[i]}) else f' == f && m' == m
    ensures Freeing(sp, i + 1, f0, f', m0, m')
  {
    hide Shape, TabPages, Pages;
    TabPagesNext(sp, i, end);
  }

  lemma FreeingEnd(sp: Space, f0: seq<nat>, f: seq<nat>, m0: seq<Frame>, m: seq<Frame>, m': seq<Frame>, end: nat)
    requires Shape(sp, end) && sp.user == map[] && Freeing(sp, WORDS, f0, f, m0, m) && Same(m, m', {sp.dir})
    ensures AllGiven(sp, f0, [sp.dir] + f, m0, m')
  {
    hide Shape, TabPages, Pages;
    NoUserPages(sp);
    ValuesCount(sp, end);
  }

  /* copyuvm */

  /** An address space outlives steps that touch only pages that were free. */
  lemma Survives(m0: seq<Frame>, m: seq<Frame>, sp: Space, f0: seq<nat>, f: seq<nat>, end: nat)
    requires Good(m0, sp, end) && Apart(sp, f0) && Same(m0, m, FreeSet(f0)) && forall p :: p in f ==> p in f0
    ensures Good(m, sp, end) && Apart(sp, f)
    ensures forall u :: u in sp.user ==> sp.user[u] < |m| && m[sp.user[u]] == m0[sp.user[u]]
  {
    assert sp.dir in Pages(sp);
    forall i | i in sp.tabs
      ensures sp.tabs[i] !in f0
    {
      assert sp.tabs[i] in Pages(sp);
    }
    forall u | u in sp.user
      ensures sp.user[u] !in f0
    {
      assert sp.user[u] in Pages(sp);
    }
    HoldsElsewhere(m0, m, sp, end);
  }

  /** The first n user pages of sp2 hold what those of sp held. */
  ghost predicate CopyOf(m: seq<Frame>, sp2: Space, m0: seq<Frame>, sp: Space, n: nat) {
    forall u :: 0 <= u < n ==>
      u in sp2.user && u in sp.user && sp2.user[u] < |m| && sp.user[u] < |m0| && m[sp2.user[u]] == m0[sp.user[u]]
  }

  /** copyuvm's loop has come to page n; sp0 is what setupkvm made, with f1 left free. */
  ghost predicate Copying(sp: Space, sp0: Space, sp2: Space, n: nat, f0: seq<nat>, f1: seq<nat>, f: seq<nat>,
      m0: seq<Frame>, m1: seq<Frame>, m: seq<Frame>) {
    && Extended(sp0, sp2, 0, n) && Gave(sp2, sp0, f, f1, m, m1) && CopyOf(m, sp2, m0, sp, n) && |f1| == |f| + n
    && Same(m0, m, FreeSet(f0)) && forall p :: p in f ==> p in f0
  }

  lemma CopyingStart(sp: Space, sp0: Space, f0: seq<nat>, f1: seq<nat>, m0: seq<Frame>, m1: seq<Frame>)
    requires Same(m0, m1, Pages(sp0)) && forall p :: p in f0 <==> p in f1 || p in Pages(sp0)
    ensures Copying(sp, sp0, sp0, 0, f0, f1, f1, m0, m1, m1)
  {
    GaveNone(sp0, f1, m1);
    hide Pages;
  }

  lemma CopyingStep(sp: Space, sp0: Space, sp2: Space, n: nat, f0: seq<nat>, f1: seq<nat>, f: seq<nat>,
                    m0: seq<Frame>, m1: seq<Frame>, m: seq<Frame>, m': seq<Frame>, end: nat)
    requires Copying(sp, sp0, sp2, n, f0, f1, f, m0, m1, m) && f != [] && Shape(sp2, end) && n !in sp2.user
             && n / WORDS in sp2.tabs
    requires sp2.tabs[n / WORDS] in FreeSet(f0) && f[0] !in Pages(sp2)
    requires f[0] < |m| && Same(m, m', {f[0], sp2.tabs[n / WORDS]}) && n in sp.user && sp.user[n] < |m0|
             && m'[f[0]] == m0[sp.user[n]]
    requires Gave(sp2.(user := sp2.user[n := f[0]]), sp2, f[1..], f, m', m)
    ensures Copying(sp, sp0, sp2.(user := sp2.user[n := f[0]]), n + 1, f0, f1, f[1..], m0, m1, m')
  {
    hide Shape, Extended, CopyOf, Gave, Pages, FreeSet, Same;
    var sp' := sp2.(user := sp2.user[n := f[0]]);
    CopyOfMore(m, m', sp2, n, m0, sp, f[0], end);
    ExtendedMore(sp0, sp2, 0, n, f[0]);
    GaveThen(sp', sp2, sp0, f[1..], f, f1, m', m, m1);
    WithinFree(f0, f, m0, m, m', sp2.tabs[n / WORDS]);
  }

  lemma WithinFree(f0: seq<nat>, f: seq<nat>, m0: seq<Frame>, m: seq<Frame>, m': seq<Frame>, t: nat)
    requires Same(m0, m, FreeSet(f0)) && f != [] && (forall p :: p in f ==> p in f0) && t in FreeSet(f0)
             && Same(m, m', {f[0], t})
    ensures Same(m0, m', FreeSet(f0)) && forall p :: p in f[1..] ==> p in f0
  {
    assert f[0] in f;
  }

  lemma CopyOfMore(m: seq<Frame>, m': seq<Frame>, sp2: Space, n: nat, m0: seq<Frame>, sp: Space, p: nat, end: nat)
    requires CopyOf(m, sp2, m0, sp, n) && Shape(sp2, end) && n !in sp2.user && n / WORDS in sp2.tabs && p < |m|
    requires Same(m, m', {p, sp2.tabs[n / WORDS]}) && n in sp.user && sp.user[n] < |m0| && m'[p] == m0[sp.user[n]]
             && p !in Pages(sp2)
    ensures CopyOf(m', sp2.(user := sp2.user[n := p]), m0, sp, n + 1)
  {
    hide Shape, Pages, Same;
    var t, sp' := sp2.tabs[n / WORDS], sp2.(user := sp2.user[n := p]);
    forall u | 0 <= u < n + 1
      ensures u in sp'.user && u in sp.user && sp'.user[u] < |m'| && sp.user[u] < |m0|
              && m'[sp'.user[u]] == m0[sp.user[u]]
    {
      SameSize(m, m', {p, t});
      if u < n {
        UserThere(sp2, u, n / WORDS, end);
        SameAt(m, m', p, t, sp2.user[u]);
      }
    }
  }

  lemma SameSize(m: seq<Frame>, m': seq<Frame>, where: set<nat>)
    requires Same(m, m', where)
    ensures |m'| == |m|
  {
  }

  lemma SameAt(m: seq<Frame>, m': seq<Frame>, p: nat, t: nat, q: nat)
    requires Same(m, m', {p, t}) && q < |m| && q != p && q != t
    ensures q < |m'| && m'[q] == m[q]
  {
  }

  lemma UserThere(sp: Space, u: nat, i: nat, end: nat)
    requires Shape(sp, end) && u in sp.user && i in sp.tabs
    ensures sp.user[u] in Pages(sp) && sp.user[u] != sp.tabs[i]
  {
    assert sp.user[u] in sp.user.Values;
  }


  /** The address space being copied is as it was. */
  lemma CopyingSurvives(sp: Space, sp0: Space, sp2: Space, n: nat, f0: seq<nat>, f1: seq<nat>, f: seq<nat>,
                        m0: seq<Frame>, m1: seq<Frame>, m: seq<Frame>, end: nat)
    requires Copying(sp, sp0, sp2, n, f0, f1, f, m0, m1, m) && Good(m0, sp, end) && Apart(sp, f0)
    ensures Good(m, sp, end) && Apart(sp, f)
    ensures forall u :: u in sp.user ==> sp.user[u] < |m| && m[sp.user[u]] == m0[sp.user[u]]
  {
    hide Good, Apart, Gave, CopyOf, Extended, Same, FreeSet;
    Survives(m0, m, sp, f0, f, end);
  }

  /** What the next step of copyuvm needs. */
  lemma CopyingNext(sp: Space, sp0: Space, sp2: Space, n: nat, f0: seq<nat>, f1: seq<nat>, f: seq<nat>,
                    m0: seq<Frame>, m1: seq<Frame>, m: seq<Frame>, data: nat)
    requires Copying(sp, sp0, sp2, n, f0, f1, f, m0, m1, m) && Apart(sp, f0)
    requires KernelOnly(sp0, data) && (forall p :: p in f0 <==> p in f1 || p in Pages(sp0)) && n < USERPAGES
    ensures n !in sp2.user && n / WORDS in sp2.tabs && sp2.tabs[n / WORDS] in FreeSet(f0) && sp2.dir == sp0.dir
    ensures forall p :: p in Pages(sp2) ==> p !in Pages(sp)
  {
    hide CopyOf, KernelOnly, Same, Pages;
    KernelOnlyPages(sp0, data);
    UserNone(sp0, data);
    assert n / WORDS == 0;
    TableThere(sp0, n, sp0.tabs[0]);
    assert forall p :: p in Pages(sp2) ==> p in Pages(sp0) || p in f1;
  }

  /** copyuvm is done. */
  lemma CopyingEnd(sp: Space, sp0: Space, sp2: Space, sz: nat, f0: seq<nat>, f1: seq<nat>, f: seq<nat>,
                   m0: seq<Frame>, m1: seq<Frame>, m: seq<Frame>, data: nat)
    requires Copying(sp, sp0, sp2, RoundUp(sz), f0, f1, f, m0, m1, m) && KernelOnly(sp0, data)
    requires forall p :: p in f0 <==> p in f1 || p in Pages(sp0)
    ensures UserIs(sp2, sz) && CopyOf(m, sp2, m0, sp, RoundUp(sz)) && Same(m0, m, FreeSet(f0))
    ensures forall p :: p in f0 <==> p in f || p in Pages(sp2)
  {
    hide CopyOf, KernelOnly, Same, Pages, RoundUp;
    UserNone(sp0, data);
  }

  /** copyuvm gives up: freevm has taken everything back. */
  lemma CopyingUndone(sp: Space, sp0: Space, sp2: Space, n: nat, f0: seq<nat>, f1: seq<nat>, f: seq<nat>, f': seq<nat>,
                      m0: seq<Frame>, m1: seq<Frame>, m: seq<Frame>, m': seq<Frame>, data: nat)
    requires Copying(sp, sp0, sp2, n, f0, f1, f, m0, m1, m) && KernelOnly(sp0, data) && AllGiven(sp2, f, f', m, m')
    requires |f0| == |f1| + SETUP && forall p :: p in f0 <==> p in f1 || p in Pages(sp0)
    ensures |f'| == |f0| && (forall p :: p in f' <==> p in f0) && Same(m0, m', FreeSet(f0))
  {
    hide CopyOf, KernelOnly, Pages, Extended;
    UserNone(sp0, data);
    KernelOnlyPages(sp0, data);
    SameTables(sp0, sp2, n);
    assert forall p :: p in Pages(sp2) ==> p in f0;
  }

  lemma SameTables(sp0: Space, sp2: Space, n: nat)
    ensures Extended(sp0, sp2, 0, n) ==> sp2.tabs == sp0.tabs
  {
  }

  lemma UserNone(sp: Space, data: nat)
    requires KernelOnly(sp, data)
    ensures sp.user == map[]
  {
  }

  class Machine {
    const end: nat          // the first page after the kernel
    const mem: array<Frame>
    var freelist: nat
    ghost var free: seq<nat>

    ghost predicate Valid()
      reads this, mem
    {
      mem.Length == NPAGES && 0 < end < NPAGES && Linked(mem[..], free, end) && freelist == First(free)
    }

    ghost predicate Has(sp: Space)
      reads this, mem
      requires mem.Length == NPAGES
    {
      Good(mem[..], sp, end) && Apart(sp, free)
    }

    constructor Kinit(mem: array<Frame>, end: nat)
      requires mem.Length == NPAGES && 0 < end < NPAGES
      modifies mem
      ensures Valid() && this.mem == mem && this.end == end && forall p: nat :: p in free <==> Usable(p, end)
    {
      this.end := end;
      this.mem := mem;
      freelist := 0;
      free := [];
      new;
      var p := end;
      while p < NPAGES
        invariant end <= p <= NPAGES && Valid()
        invariant forall q: nat :: q in free <==> end <= q < p
      {
        Kfree(p);
        p := p + 1;
      }
    }

    method Kfree(v: nat)
      requires Valid() && Usable(v, end) && v !in free
      modifies this`freelist, this`free, mem
      ensures Valid() && free == [v] + old(free) && Same(old(mem[..]), mem[..], {v})
    {
      PushedLinked(mem[..], free, v, end);
      mem[v] := Junk();
      mem[v] := mem[v][0 := PGSIZE * freelist];
      freelist := v;
      free := [v] + free;
    }

    method Kalloc() returns (r: nat)
      requires Valid()
      modifies this`freelist, this`free
      ensures Valid() && r == First(old(free)) && free == if old(free) == [] then [] else old(free)[1..]
      ensures r == 0 <==> old(free) == []
      ensures r != 0 ==> Usable(r, end) && r in old(free) && r !in free && Blank(mem[r])
    {
      r := freelist;
      if r != 0 {
        PoppedLinked(mem[..], free, end);
        freelist := Page(mem[r][0]);
        free := free[1..];
      }
    }

    /** walkpgdir: the page table for virtual page v, 0 if there is none and none was made. */
    method Walk(dir: nat, v: nat, create: bool, ghost sp: Space) returns (t: nat, ghost sp': Space)
      requires Valid() && Has(sp) && dir == sp.dir && v < WORDS * WORDS
      modifies this`freelist, this`free, mem
      ensures Valid() && Has(sp') && Walked(sp, sp', v, create, old(free), free, t)
      ensures Took(sp, sp', old(free), free, old(mem[..]), mem[..]) && (t != 0 <==> v / WORDS in sp'.tabs)
      ensures sp' == sp ==> mem[..] == old(mem[..])
      ensures sp' != sp ==> Same(old(mem[..]), mem[..], {t, dir})
    {
      hide Linked, Shape, Holds;
      PdeIs(mem[..], sp, v, end);
      TableUsable(sp, v, end);
      TookNone(sp, free, mem[..]);
      var pde := mem[dir][v / WORDS];
      sp' := sp;
      if Present(pde) {
        t := Page(pde);
      } else {
        if !create {
          return 0, sp;
        }
        ghost var m, f := mem[..], free;
        t := Kalloc();
        if t == 0 {
          return 0, sp;
        }
        assert t in f && dir in Pages(sp);
        mem[t] := Zeros();
        mem[dir] := mem[dir][v / WORDS := t * PGSIZE + FLAGS];
        WalkGrows(m, mem[..], sp, v, f, end);
        WalkTakes(sp, v, f, m, mem[..], end);
        sp' := sp.(tabs := sp.tabs[v / WORDS := t]);
      }
    }
  
    /** One turn of mappages, for a page p of user memory. */
    method MapUser(dir: nat, v: nat, p: nat, ghost sp: Space)
      requires Valid() && Has(sp) && dir == sp.dir && v < USERPAGES && v / WORDS in sp.tabs && v !in sp.user
      requires Usable(p, end) && p !in Pages(sp) && p !in free
      modifies this`freelist, this`free, mem
      ensures Valid() && free == old(free) && Has(sp.(user := sp.user[v := p]))
              && Same(old(mem[..]), mem[..], {sp.tabs[v / WORDS]})
      ensures Pages(sp.(user := sp.user[v := p])) == Pages(sp) + {p}
    {
      hide Linked, Shape, Holds, Pages, Took;
      var t, _ := Walk(dir, v, true, sp);
      TableThere(sp, v, t);
      Store(t, v % WORDS, p * PGSIZE + FLAGS, sp);
      UserMapped(old(mem[..]), sp, v, p, end);
    }

    /** *pte = w, in a table of the address space. */
    method Store(t: nat, j: nat, w: nat, ghost sp: Space)
      requires Valid() && Has(sp) && t in sp.tabs.Values && j < WORDS
      modifies mem
      ensures Valid() && t < NPAGES && mem[..] == old(mem[..])[t := old(mem[..])[t][j := w]]
    {
      assert t in Pages(sp);
      assert Usable(t, end);
      mem[t] := mem[t][j := w];
      ElsewhereLinked(old(mem[..]), mem[..], free, end);
    }
  
    /** *pte = pa | perm | PTE_P, for a page of the kernel. */
    method StoreKernel(t: nat, v: nat, perm: nat, ghost sp: Space) returns (ghost sp': Space)
      requires Valid() && Has(sp) && USERPAGES <= v < WORDS * WORDS && v !in sp.kern && perm % 2 == 0
      requires v / WORDS in sp.tabs && t == sp.tabs[v / WORDS] && t in sp.tabs.Values && t in Pages(sp)
      modifies mem
      ensures Valid() && Has(sp') && sp' == sp.(kern := sp.kern[v := Identity(v, perm)])
      ensures Took(sp, sp', free, free, old(mem[..]), mem[..])
    {
      hide Linked, Shape, Holds, Apart, Took, Pages;
      ghost var m := mem[..];
      Store(t, v % WORDS, Identity(v, perm), sp);
      KernMapped(m, sp, v, Identity(v, perm), end);
      sp' := sp.(kern := sp.kern[v := Identity(v, perm)]);
      TookStore(sp, sp', free, m, mem[..]);
      SamePages(sp, sp', free);
    }

    /** One turn of mappages, for page v of the kernel mapped to itself. */
    method MapKernelPage(dir: nat, v: nat, perm: nat, ghost sp: Space) returns (ok: bool, ghost sp': Space)
      requires Valid() && Has(sp) && dir == sp.dir && USERPAGES <= v < WORDS * WORDS && v !in sp.kern && perm % 2 == 0
      modifies this`freelist, this`free, mem
      ensures Valid() && Has(sp') && Took(sp, sp', old(free), free, old(mem[..]), mem[..])
      ensures ok ==> KernelMapped(sp, sp', v, 1, perm)
      ensures !ok ==> free == [] && sp' == sp && v / WORDS !in sp.tabs
    {
      hide Linked, Shape, Holds, Apart, Took, KernelMapped, Pages, Walked, Same, Identity;
      var t;
      t, sp' := Walk(dir, v, true, sp);
      WalkedWell(sp, sp', v, old(free), free, t);
      if t == 0 {
        return false, sp';
      }
      ghost var m, sp1 := mem[..], sp';
      TableThere(sp1, v, t);
      sp' := StoreKernel(t, v, perm, sp1);
      TookThen(sp, sp1, sp', old(free), free, free, old(mem[..]), m, mem[..]);
      KernelMappedOne(sp, sp1, v, perm);
      return true, sp';
    }
  
    /** mappages for n pages of the kernel from v on, mapped to themselves; false when there is no page for a table. */
    method MapKernel(dir: nat, v: nat, n: nat, perm: nat, ghost sp: Space) returns (ok: bool, ghost sp': Space)
      requires Valid() && Has(sp) && dir == sp.dir && USERPAGES <= v && v + n <= WORDS * WORDS && n >= 1
               && perm % 2 == 0
      requires forall u :: v <= u < v + n ==> u !in sp.kern
      modifies this`freelist, this`free, mem
      ensures Valid() && Has(sp') && Took(sp, sp', old(free), free, old(mem[..]), mem[..]) && sp'.dir == sp.dir
      ensures ok ==> KernelMapped(sp, sp', v, n, perm)
      ensures !ok ==> free == [] && exists k ::
              0 <= k < n && KernelMapped(sp, sp', v, k, perm) && (v + k) / WORDS !in sp'.tabs
    {
      hide Linked, Shape, Holds, Apart, Took, Pages, TablesOf, KernelMapped;
      var k: nat := 0;
      sp' := sp;
      TookNone(sp, free, mem[..]);
      KernelMappedNone(sp, v, perm);
      while true
        invariant k < n && Valid() && Has(sp') && Took(sp, sp', old(free), free, old(mem[..]), mem[..])
                  && sp'.dir == sp.dir
        invariant KernelMapped(sp, sp', v, k, perm)
        decreases n - k
      {
        NotYet(sp, sp', v, k, perm, v + k);
        ghost var sp1, f, m := sp', free, mem[..];
        ok, sp' := MapKernelPage(dir, v + k, perm, sp1);
        TookThen(sp, sp1, sp', old(free), f, free, old(mem[..]), m, mem[..]);
        if !ok {
          return;
        }
        KernelMappedThen(sp, sp1, sp', v, k, perm);
        NotYet(sp, sp', v, k + 1, perm, 0);
        if k == n - 1 {
          return;
        }
        k := k + 1;
      }
    }
  
    /** One turn of setupkvm's loop over kmap. */
    method MapEntry(dir: nat, k: nat, data: nat, ghost sp: Space) returns (ok: bool, ghost sp': Space)
      requires Valid() && Has(sp) && dir == sp.dir && k < 4 && IOEND < data < NPAGES && KernelUpTo(sp, k, data)
      modifies this`freelist, this`free, mem
      ensures Valid() && Has(sp') && Took(sp, sp', old(free), free, old(mem[..]), mem[..]) && sp'.dir == sp.dir
      ensures if ok then KernelUpTo(sp', k + 1, data) else free == [] && |sp'.tabs| < 12
    {
      hide Linked, Shape, Holds, Apart, Took, TablesOf, KernelMapped, KernelUpTo, Low, Kmap;
      KmapFits(sp, k, data);
      var (v, n, perm) := Kmap(k, data);
      ok, sp' := MapKernel(dir, v, n, perm, sp);
      if ok {
        KernelNext(sp, sp', k, data);
      } else {
        ghost var j: nat :| j < n && KernelMapped(sp, sp', v, j, perm) && (v + j) / WORDS !in sp'.tabs;
        MissingTable(sp, sp', k, data, j);
      }
    }

    /** setupkvm; `data` is the page where the kernel's data starts. */
    method Setupkvm(data: nat) returns (pgdir: nat, ghost sp: Space)
      requires Valid() && IOEND < data < NPAGES
      modifies this`freelist, this`free, mem
      ensures Valid() && (pgdir == 0 <==> |old(free)| < SETUP)
      ensures Same(old(mem[..]), mem[..], FreeSet(old(free))) && forall p :: p in free ==> p in old(free)
      ensures pgdir == 0 ==> free == []
      ensures pgdir != 0 ==>
              pgdir == sp.dir && Has(sp) && KernelOnly(sp, data) && Same(old(mem[..]), mem[..], Pages(sp))
              && |free| + SETUP == |old(free)| && forall p :: p in old(free) <==> p in free || p in Pages(sp)
    {
      hide Linked, Shape, Holds, Took, TablesOf, KernelMapped, KernelUpTo, KernelOnly, Low, Kmap;
      pgdir := Kalloc();
      sp := Bare(pgdir);
      if pgdir == 0 {
        return;
      }
      ghost var f0, m0 := free, mem[..];
      BareGood(mem[..], pgdir, free, end);
      mem[pgdir] := Zeros();
      ElsewhereLinked(m0, mem[..], free, end);
      ghost var m1 := mem[..];
      KernelUpToNone(pgdir, data);
      TookNone(sp, free, mem[..]);
      var k: nat := 0;
      while k < 4
        invariant k <= 4 && Valid() && Has(sp) && sp.dir == pgdir && KernelUpTo(sp, k, data)
        invariant Took(Bare(pgdir), sp, f0, free, m1, mem[..])
      {
        ghost var sp1, f, m := sp, free, mem[..];
        var ok;
        ok, sp := MapEntry(pgdir, k, data, sp1);
        TookThen(Bare(pgdir), sp1, sp, f0, f, free, m1, m, mem[..]);
        if !ok {
          TookCounts(pgdir, sp, f0, free, m1, mem[..]);
          TakenFree(pgdir, sp, old(free), f0, free, old(mem[..]), m1, mem[..]);
          return 0, sp;
        }
        k := k + 1;
      }
      KernelOnlyIs(sp, data);
      KernelOnlyPages(sp, data);
      TookCounts(pgdir, sp, f0, free, m1, mem[..]);
      TakenFree(pgdir, sp, old(free), f0, free, old(mem[..]), m1, mem[..]);
    }
  
    /** One turn of deallocuvm's loop. */
    method FreeUser(dir: nat, v: nat, ghost sp: Space) returns (ghost sp': Space)
      requires Valid() && Has(sp) && dir == sp.dir && v < USERPAGES
      modifies this`freelist, this`free, mem
      ensures Valid() && Has(sp') && Gave(sp, sp', old(free), free, old(mem[..]), mem[..])
      ensures sp' == sp.(user := sp.user - {v})
    {
      hide Linked, Shape, Holds, Apart, Gave, Pages;
      GaveNone(sp, free, mem[..]);
      var t, _ := Walk(dir, v, false, sp);
      sp' := sp;
      UserNeedsTable(sp, v, end);
      if t != 0 {
        PteIs(mem[..], sp, v, end);
        var pte := mem[t][v % WORDS];
        UserOrKernel(sp, v, end);
        if Present(pte) {
          ghost var m, f := mem[..], free;
          UserUnmapped(m, sp, v, end);
          UserPage(sp, v, free, end);
          TableThere(sp, v, t);
          Kfree(Page(pte));
          ghost var m1 := mem[..];
          mem[t] := mem[t][v % WORDS := 0];
          sp' := sp.(user := sp.user - {v});
          ElsewhereLinked(m1, mem[..], free, end);
          assert forall q: nat :: q < NPAGES && q != sp.user[v] ==> mem[..][q] == m[t := m[t][v % WORDS := 0]][q];
          HoldsElsewhere(m[t := m[t][v % WORDS := 0]], mem[..], sp', end);
          GaveOne(sp, v, f, m, mem[..], end);
        }
      }
    }
  
    method Deallocuvm(dir: nat, oldsz: nat, newsz: nat, ghost sp: Space) returns (r: nat, ghost sp': Space)
      requires Valid() && Has(sp) && dir == sp.dir && oldsz <= USERTOP
      modifies this`freelist, this`free, mem
      ensures Valid() && Has(sp') && Gave(sp, sp', old(free), free, old(mem[..]), mem[..])
      ensures r == if newsz >= oldsz then oldsz else newsz
      ensures sp' == if newsz >= oldsz then sp else Without(sp, RoundUp(newsz), RoundUp(oldsz))
    {
      hide Linked, Shape, Holds, Apart, Gave, Pages, Without, RoundUp;
      GaveNone(sp, free, mem[..]);
      sp' := sp;
      if newsz >= oldsz {
        return oldsz, sp';
      }
      RoundUpGrows(newsz, oldsz);
      RoundUpIs(0, oldsz);
      var a: nat := RoundUp(newsz);
      WithoutNone(sp, a);
      while a * PGSIZE < oldsz
        invariant RoundUp(newsz) <= a <= RoundUp(oldsz) && Valid() && Has(sp') && sp'.dir == dir
        invariant sp' == Without(sp, RoundUp(newsz), a) && Gave(sp, sp', old(free), free, old(mem[..]), mem[..])
        decreases RoundUp(oldsz) - a
      {
        RoundUpIs(a, oldsz);
        ghost var sp1, f, m := sp', free, mem[..];
        sp' := FreeUser(dir, a, sp1);
        GaveThen(sp, sp1, sp', old(free), f, free, old(mem[..]), m, mem[..]);
        WithoutMore(sp, RoundUp(newsz), a);
        a := a + 1;
      }
      RoundUpIs(a, oldsz);
      return newsz, sp';
    }

    /** One turn of allocuvm's loop: false when there is no page. */
    method AddUser(dir: nat, v: nat, ghost sp: Space) returns (ok: bool, ghost sp': Space)
      requires Valid() && Has(sp) && dir == sp.dir && v < USERPAGES && v / WORDS in sp.tabs && v !in sp.user
      modifies this`freelist, this`free, mem
      ensures Valid() && Has(sp') && Gave(sp', sp, free, old(free), mem[..], old(mem[..]))
      ensures ok <==> old(free) != []
      ensures !ok ==> sp' == sp && mem[..] == old(mem[..]) && free == old(free)
      ensures ok ==>
                free == old(free)[1..] && sp' == sp.(user := sp.user[v := old(free)[0]])
                && old(free)[0] < NPAGES && mem[old(free)[0]] == Zeros()
      ensures ok ==> Same(old(mem[..]), mem[..], {old(free)[0], sp.tabs[v / WORDS]})
    {
      hide Shape, Holds, Gave, Pages;
      GaveNone(sp, free, mem[..]);
      sp' := sp;
      var p := Kalloc();
      if p == 0 {
        return false, sp';
      }
      ghost var m, f := mem[..], free;
      mem[p] := Zeros();
      NewPage(m, mem[..], sp, p, old(free), f, end);
      hide Linked, Apart;
      MapUser(dir, v, p, sp);
      sp' := sp.(user := sp.user[v := p]);
      NotThere(sp, v, p);
      GotOne(sp, v, old(free), m, mem[..], end);
      return true, sp';
    }
  
    /**
     allocuvm. There are no user pages yet where it maps new ones (or mappages would panic), and user addresses have
     their table.
     */
    method Allocuvm(dir: nat, oldsz: nat, newsz: nat, ghost sp: Space) returns (r: nat, ghost sp': Space)
      requires Valid() && Has(sp) && dir == sp.dir && oldsz <= USERTOP && 0 in sp.tabs
      requires forall u :: u in sp.user ==> !(RoundUp(oldsz) <= u < RoundUp(newsz))
      modifies this`freelist, this`free, mem
      ensures Valid() && Has(sp') && AllWritable(mem[..], sp')
      ensures newsz > USERTOP ==> r == 0
      ensures newsz <= USERTOP && newsz < oldsz ==> r == oldsz
      ensures oldsz <= newsz <= USERTOP ==> r == if |old(free)| >= RoundUp(newsz) - RoundUp(oldsz) then newsz else 0
      ensures oldsz <= newsz <= USERTOP && |old(free)| >= RoundUp(newsz) - RoundUp(oldsz) ==>
                Extended(sp, sp', RoundUp(oldsz), RoundUp(newsz))
                    && Zeroed(mem[..], sp', RoundUp(oldsz), RoundUp(newsz))
                && Gave(sp', sp, free, old(free), mem[..], old(mem[..]))
      ensures !(oldsz <= newsz <= USERTOP && |old(free)| >= RoundUp(newsz) - RoundUp(oldsz)) ==>
                sp' == sp && |free| == |old(free)| && (forall p :: p in free <==> p in old(free))
                && Same(old(mem[..]), mem[..], sp.tabs.Values + set p | p in old(free))
    {
      hide Linked, Shape, Holds, Apart, Gave, Pages, Without, RoundUp, Zeroed, AllWritable;
      GaveNone(sp, free, mem[..]);
      UserWritable(mem[..], sp, end);
      sp' := sp;
      if newsz > USERTOP {
        return 0, sp';
      }
      if newsz < oldsz {
        return oldsz, sp';
      }
      RoundUpGrows(oldsz, newsz);
      RoundUpIs(0, newsz);
      var a: nat := RoundUp(oldsz);
      GrowingStart(sp, a, free, mem[..]);
      hide Extended, Growing;
      while a * PGSIZE < newsz
        invariant a <= RoundUp(newsz) <= USERPAGES && Valid() && Has(sp') && sp'.dir == dir
        invariant Growing(sp, sp', RoundUp(oldsz), a, old(free), free, old(mem[..]), mem[..])
        invariant RoundUp(oldsz) <= a && |old(free)| == |free| + (a - RoundUp(oldsz))
        decreases RoundUp(newsz) - a
      {
        RoundUpIs(a, newsz);
        assert a / WORDS == 0;
        ghost var sp1, f, m := sp', free, mem[..];
        GrowingHere(sp, sp1, RoundUp(oldsz), a, old(free), free, old(mem[..]), mem[..]);
        var ok;
        ok, sp' := AddUser(dir, a, sp1);
        if !ok {
          Undo(dir, newsz, oldsz, sp, sp1, old(free), old(mem[..]), a);
          UserWritable(mem[..], sp, end);
          return 0, sp;
        }
        GrowingStep(sp, sp1, RoundUp(oldsz), a, old(free), f, old(mem[..]), m, mem[..], end);
        a := a + 1;
      }
      RoundUpIs(a, newsz);
      GrowingEnd(sp, sp', RoundUp(oldsz), a, old(free), free, old(mem[..]), mem[..]);
      UserWritable(mem[..], sp', end);
      return newsz, sp';
    }

    /** allocuvm's deallocuvm(pgdir, newsz, oldsz). */
    method Undo(dir: nat, newsz: nat, oldsz: nat, ghost sp: Space, ghost sp1: Space, ghost f0: seq<nat>,
        ghost m0: seq<Frame>, ghost a: nat)
      requires Valid() && Has(sp1) && dir == sp1.dir && oldsz < newsz <= USERTOP
               && RoundUp(oldsz) <= a <= RoundUp(newsz)
      requires Growing(sp, sp1, RoundUp(oldsz), a, f0, free, m0, mem[..]) && forall u :: u in sp.user ==>
               !(RoundUp(oldsz) <= u < RoundUp(newsz))
      modifies this`freelist, this`free, mem
      ensures Valid() && Has(sp) && |free| == |f0| && (forall p :: p in free <==> p in f0)
      ensures Same(m0, mem[..], sp.tabs.Values + set p | p in f0)
    {
      hide Linked, Shape, Holds, Apart, Gave, Pages, Without, RoundUp, Extended, Zeroed;
      UserBelow(sp, sp1, RoundUp(oldsz), a, RoundUp(newsz));
      ghost var f, m := free, mem[..];
      var r;
      ghost var sp';
      r, sp' := Deallocuvm(dir, newsz, oldsz, sp1);
      RolledBack(sp, sp1, f0, f, free, m0, m, mem[..]);
    }
  
    /**
     growproc, of a process of size sz. A size that would be negative wraps around, and deallocuvm then does nothing.
     Shrinking to exactly 0 takes the pages away and reports failure, with the size left as it was.
     */
    method Growproc(dir: nat, sz: nat, n: int, ghost sp: Space) returns (r: int, sz': nat, ghost sp': Space)
      requires Valid() && Has(sp) && dir == sp.dir && sz <= USERTOP && UserIs(sp, sz) && 0 in sp.tabs
               && -0x8000_0000 <= n < 0x8000_0000
      modifies this`freelist, this`free, mem
      ensures Valid() && Has(sp') && AllWritable(mem[..], sp') && (r == 0 || r == -1) && (r == -1 ==> sz' == sz)
      ensures Exchanged(sp, sp', old(free), free, old(mem[..]), mem[..])
      ensures n > 0 ==> (r == 0 <==> sz + n <= USERTOP && |old(free)| >= RoundUp(sz + n) - RoundUp(sz))
      ensures n < 0 ==> (r == 0 <==> sz > 0 && sz + n != 0)
      ensures n == 0 || (n > 0 && r == -1) || sz + n < 0 ==> sp' == sp
      ensures n == 0 ==> r == 0
      ensures r == 0 ==> sz' == if sz + n < 0 then sz else sz + n
      ensures UserIs(sp', sz') <==> !(n < 0 && sz + n == 0)
      ensures n < 0 && sz + n == 0 ==> r == -1 && UserIs(sp', 0)
    {
      hide Linked, Shape, Holds, Apart, Gave, Pages, Without, RoundUp, Zeroed, Extended, UserIs, Exchanged, AllWritable;
      r, sz', sp' := 0, sz, sp;
      GaveNone(sp, free, mem[..]);
      UserWritable(mem[..], sp, end);
      GaveExchanges(sp, sp, free, free, mem[..], mem[..]);
      var s: nat := sz;
      ghost var f, m := free, mem[..];
      if n > 0 {
        NothingAbove(sp, sz, sz + n);
        s, sp' := Allocuvm(dir, sz, sz + n, sp);
        if s == 0 {
          SameExchanges(sp, f, free, m, mem[..]);
          return -1, sz, sp';
        }
        GaveExchanges(sp', sp, free, f, mem[..], m);
        ExtendedIf(sp, sp', sz, s);
      } else if n < 0 {
        s, sp' := Deallocuvm(dir, sz, (sz + n) % 0x1_0000_0000, sp);
        GaveExchanges(sp, sp', f, free, m, mem[..]);
        UserWritable(mem[..], sp', end);
        ShrunkIf(sp, sz, n, sp');
        if s == 0 {
          return -1, sz, sp';
        }
      }
      return 0, s, sp';
    }

    method Freevm(dir: nat, ghost sp: Space)
      requires Valid() && Has(sp) && dir == sp.dir
      modifies this`freelist, this`free, mem
      ensures Valid() && AllGiven(sp, old(free), free, old(mem[..]), mem[..])
    {
      hide Linked, Shape, Holds, Apart, Gave, Pages, Without, TabPages;
      WithoutAll(sp, end);
      WithoutDir(sp, 0, USERPAGES);
      var r;
      ghost var sp1;
      r, sp1 := Deallocuvm(dir, USERTOP, 0, sp);
      ghost var f, m := free, mem[..];
      FreeTables(dir, sp1);
      GivenThen(sp, sp1, old(free), f, free, old(mem[..]), m, mem[..]);
    }

    /** freevm's loop over the directory, and the directory itself. */
    method FreeTables(dir: nat, ghost sp: Space)
      requires Valid() && Has(sp) && dir == sp.dir && sp.user == map[]
      modifies this`freelist, this`free, mem
      ensures Valid() && AllGiven(sp, old(free), free, old(mem[..]), mem[..])
    {
      hide Linked, Shape, Holds, Apart, Pages, TabPages, Freeing, AllGiven;
      ghost var m0, f0 := mem[..], free;
      FreeingStart(sp, f0, m0, end);
      var i: nat := 0;
      while i < WORDS
        invariant i <= WORDS && Valid() && Freeing(sp, i, f0, free, m0, mem[..])
      {
        ghost var m, f := mem[..], free;
        FreeingHere(sp, i, f0, f, m0, m, end);
        if Present(mem[dir][i]) {
          Kfree(Page(mem[dir][i]));
        }
        FreeingNext(sp, i, f0, f, free, m0, m, mem[..], end);
        i := i + 1;
      }
      ghost var m, f := mem[..], free;
      FreeingHere(sp, WORDS, f0, f, m0, m, end);
      Kfree(dir);
      FreeingEnd(sp, f0, f, m0, m, mem[..], end);
    }
  
    /** One turn of copyuvm's loop: the page at v of the space sp is copied for sp2. */
    method CopyPage(dir: nat, d: nat, v: nat, ghost sp: Space, ghost sp2: Space) returns (ok: bool, ghost sp2': Space)
      requires Valid() && Has(sp) && Has(sp2) && dir == sp.dir && d == sp2.dir
      requires v < USERPAGES && v in sp.user && v / WORDS in sp2.tabs && v !in sp2.user
      requires forall p :: p in Pages(sp2) ==> p !in Pages(sp)
      modifies this`freelist, this`free, mem
      ensures Valid() && Has(sp2') && Gave(sp2', sp2, free, old(free), mem[..], old(mem[..]))
      ensures ok <==> old(free) != []
      ensures !ok ==> sp2' == sp2 && mem[..] == old(mem[..]) && free == old(free)
      ensures ok ==>
                free == old(free)[1..] && sp2' == sp2.(user := sp2.user[v := old(free)[0]]) && old(free)[0] < NPAGES
      ensures ok ==> sp.user[v] < NPAGES && mem[old(free)[0]] == old(mem[..])[sp.user[v]]
      ensures ok ==> Same(old(mem[..]), mem[..], {old(free)[0], sp2.tabs[v / WORDS]}) && old(free)[0] !in Pages(sp2)
    {
      hide Shape, Holds, Gave, Pages;
      GaveNone(sp2, free, mem[..]);
      sp2' := sp2;
      UserNeedsTable(sp, v, end);
      PteIs(mem[..], sp, v, end);
      UserPage(sp, v, free, end);
      var t, _ := Walk(dir, v, false, sp);
      var pa := Page(mem[t][v % WORDS]);
      var p := Kalloc();
      if p == 0 {
        return false, sp2';
      }
      ghost var m, f := mem[..], free;
      mem[p] := mem[pa];
      NewPage(m, mem[..], sp2, p, old(free), f, end);
      hide Linked, Apart;
      MapUser(d, v, p, sp2);
      sp2' := sp2.(user := sp2.user[v := p]);
      NotThere(sp2, v, p);
      GotOne(sp2, v, old(free), m, mem[..], end);
      return true, sp2';
    }
  
    /** copyuvm, of the user memory of size sz. */
    method Copyuvm(dir: nat, sz: nat, data: nat, ghost sp: Space) returns (d: nat, ghost sp2: Space)
      requires Valid() && Has(sp) && dir == sp.dir && sz <= USERTOP && IOEND < data < NPAGES
               && forall u :: 0 <= u < RoundUp(sz) ==> u in sp.user
      modifies this`freelist, this`free, mem
      ensures Valid() && Has(sp) && forall u :: u in sp.user ==>
              sp.user[u] < NPAGES && mem[sp.user[u]] == old(mem[..])[sp.user[u]]
      ensures Same(old(mem[..]), mem[..], FreeSet(old(free)))
      ensures d != 0 <==> |old(free)| >= SETUP + RoundUp(sz)
      ensures d != 0 ==>
                d == sp2.dir && Has(sp2) && AllWritable(mem[..], sp2) && UserIs(sp2, sz)
                && CopyOf(mem[..], sp2, old(mem[..]), sp, RoundUp(sz))
                && |free| + SETUP + RoundUp(sz) == |old(free)|
                && forall p :: p in old(free) <==> p in free || p in Pages(sp2)
      ensures d == 0 && |old(free)| >= SETUP ==> |free| == |old(free)| && forall p :: p in free <==> p in old(free)
      ensures d == 0 && |old(free)| < SETUP ==> free == []
    {
      hide Linked, Shape, Holds, Apart, Gave, Pages, RoundUp, Extended, CopyOf, KernelOnly, UserIs, AllGiven, Copying,
           AllWritable;
      ghost var f0, m0 := free, mem[..];
      d, sp2 := Setupkvm(data);
      Survives(m0, mem[..], sp, f0, free, end);
      if d == 0 {
        return;
      }
      ghost var sp0, f1, m1 := sp2, free, mem[..];
      CopyingStart(sp, sp0, f0, f1, m0, m1);
      RoundUpIs(0, sz);
      var i: nat := 0;
      while i * PGSIZE < sz
        invariant i <= RoundUp(sz) && Valid() && Has(sp2) && sp2.dir == d && |f1| == |free| + i
        invariant Copying(sp, sp0, sp2, i, f0, f1, free, m0, m1, mem[..])
        decreases RoundUp(sz) - i
      {
        RoundUpIs(i, sz);
        ghost var sp1, f, m := sp2, free, mem[..];
        CopyingSurvives(sp, sp0, sp1, i, f0, f1, f, m0, m1, m, end);
        CopyingNext(sp, sp0, sp1, i, f0, f1, f, m0, m1, m, data);
        var ok;
        ok, sp2 := CopyPage(dir, d, i, sp, sp1);
        if !ok {
          Freevm(d, sp1);
          CopyingUndone(sp, sp0, sp1, i, f0, f1, f, free, m0, m1, m, mem[..], data);
          Survives(m0, mem[..], sp, f0, free, end);
          return 0, sp2;
        }
        CopyingStep(sp, sp0, sp1, i, f0, f1, f, m0, m1, m, mem[..], end);
        i := i + 1;
      }
      RoundUpIs(i, sz);
      CopyingSurvives(sp, sp0, sp2, i, f0, f1, free, m0, m1, mem[..], end);
      UserWritable(mem[..], sp2, end);
      CopyingEnd(sp, sp0, sp2, sz, f0, f1, free, m0, m1, mem[..], data);
    }
  }
}
