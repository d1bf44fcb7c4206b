/**
 The storage allocator of user programs (user/umalloc.c): one circular list of free blocks in address order, starting
 at the empty block `base`. Addresses and sizes are in units of one Header (8 bytes).
 */
module Umalloc {
  const SPACE := 0x2000_0000   // units in a 32-bit address space
  const MINUNITS := 4096       // the least that morecore asks for

  /** Eight bytes, read as a header. Inside an allocated block they are the program's own data. */
  datatype Header = Header(ptr: nat, size: nat)

  /** n units from address at. */
  datatype Chunk = Chunk(at: nat, n: nat)

  predicate In(c: Chunk, u: nat) {
    c.at <= u < c.at + c.n
  }

  predicate Apart(c: Chunk, d: Chunk) {
    c.at + c.n <= d.at || d.at + d.n <= c.at
  }

  ghost predicate Covered(free: seq<Chunk>, u: nat) {
    exists i :: 0 <= i < |free| && In(free[i], u)
  }

  ghost predicate CoveredBy(used: set<Chunk>, u: nat) {
    exists c :: c in used && In(c, u)
  }

  /** A chunk of the heap, which lies between base and top. */
  predicate Fits(c: Chunk, base: nat, top: nat) {
    base < c.at && c.n >= 1 && c.at + c.n <= top
  }

  /** In strictly increasing address order, and no two chunks adjacent. */
  ghost predicate Canonical(free: seq<Chunk>) {
    && (forall i :: 0 <= i < |free| ==> free[i].n >= 1)
    && (forall i, j :: 0 <= i < j < |free| ==> free[i].at + free[i].n < free[j].at)
  }

  /** Every chunk is in the heap, and allocated chunks overlap nothing. */
  ghost predicate Placed(free: seq<Chunk>, used: set<Chunk>, base: nat, top: nat) {
    && (forall i :: 0 <= i < |free| ==> Fits(free[i], base, top))
    && (forall c :: c in used ==> Fits(c, base, top))
    && (forall c, d :: c in used && d in used && c != d ==> Apart(c, d))
    && (forall c, i :: c in used && 0 <= i < |free| ==> Apart(c, free[i]))
  }

  /** The units got from sbrk are those of free and of allocated chunks. */
  ghost predicate Exact(free: seq<Chunk>, used: set<Chunk>, owned: iset<nat>) {
    forall u :: u in owned <==> Covered(free, u) || CoveredBy(used, u)
  }

  /** Free and allocated chunks are pairwise disjoint, and together they are what sbrk gave. */
  ghost predicate Layout(free: seq<Chunk>, used: set<Chunk>, owned: iset<nat>, base: nat, top: nat) {
    Canonical(free) && Placed(free, used, base, top) && Exact(free, used, owned)
  }

  /** The k-th node of the ring; node 0 is base, which also follows the last node. */
  function Node(free: seq<Chunk>, base: nat, k: int): nat {
    if 1 <= k <= |free| then free[k - 1].at else base
  }

  function SizeAt(free: seq<Chunk>, k: int): nat {
    if 1 <= k <= |free| then free[k - 1].n else 0
  }

  /** The headers of the ring. */
  ghost predicate LinkedAt(m: seq<Header>, free: seq<Chunk>, base: nat, k: nat) {
    Node(free, base, k) < |m| && m[Node(free, base, k)] == Header(Node(free, base, k + 1), SizeAt(free, k))
  }

  ghost predicate Linked(m: seq<Header>, free: seq<Chunk>, base: nat) {
    forall k: nat :: k <= |free| ==> LinkedAt(m, free, base, k)
  }

  ghost predicate UsedHeaders(m: seq<Header>, used: set<Chunk>) {
    forall c :: c in used ==> c.at < |m| && m[c.at].size == c.n
  }

  /** The programs' data. */
  ghost predicate SameData(used: set<Chunk>, m: seq<Header>, m': seq<Header>) {
    |m'| == |m| && forall d, u: nat :: d in used && In(d, u) && u < |m| ==> m'[u] == m[u]
  }

  /* free: where a block goes */

  /** Chunk c belongs between the nodes g and g + 1. */
  ghost predicate Gap(free: seq<Chunk>, g: nat, c: Chunk) {
    && g <= |free|
    && (forall i :: 0 <= i < g ==> free[i].at + free[i].n <= c.at)
    && (forall i :: g <= i < |free| ==> c.at + c.n <= free[i].at)
  }

  /** A chunk that overlaps no free one has exactly one gap it belongs in. */
  lemma {:induction false} GapExists(free: seq<Chunk>, c: Chunk) returns (g: nat)
    requires Canonical(free) && c.n >= 1 && forall i :: 0 <= i < |free| ==> Apart(c, free[i])
    ensures Gap(free, g, c)
  {
    g := 0;
    while g < |free| && free[g].at < c.at
      invariant g <= |free|
      invariant forall i :: 0 <= i < g ==> free[i].at + free[i].n <= c.at
    {
      g := g + 1;
    }
  }

  predicate JoinsRight(free: seq<Chunk>, g: nat, c: Chunk) {
    g < |free| && c.at + c.n == free[g].at
  }

  predicate JoinsLeft(free: seq<Chunk>, g: nat, c: Chunk) {
    0 < g <= |free| && free[g - 1].at + free[g - 1].n == c.at
  }

  /** c joined with the free neighbour after it, if there is one. */
  function WithRight(free: seq<Chunk>, g: nat, c: Chunk): Chunk {
    if JoinsRight(free, g, c) then Chunk(c.at, c.n + free[g].n) else c
  }

  function WithBoth(free: seq<Chunk>, g: nat, c: Chunk): Chunk {
    var r := WithRight(free, g, c);
    if JoinsLeft(free, g, c) then Chunk(free[g - 1].at, free[g - 1].n + r.n) else r
  }

  /** free with x in the place of the chunks from lo to hi. */
  function Replace(free: seq<Chunk>, lo: nat, hi: nat, x: Chunk): (r: seq<Chunk>)
    requires lo <= hi <= |free|
    ensures |r| == lo + 1 + |free| - hi
    ensures forall i :: 0 <= i < |r| ==>
            r[i] == if i < lo then free[i] else if i == lo then x else free[i - lo - 1 + hi]
  {
    free[..lo] + [x] + free[hi..]
  }

  lemma InOrder(free: seq<Chunk>, i: nat, j: nat)
    requires Canonical(free) && i <= j < |free|
    ensures free[i].n >= 1 && free[j].n >= 1
    ensures i < j ==> free[i].at + free[i].n < free[j].at
  {
  }

  lemma CanonicalFrom(free: seq<Chunk>)
    requires forall i :: 0 <= i < |free| ==> free[i].n >= 1
    requires forall i, j :: 0 <= i < j < |free| ==> free[i].at + free[i].n < free[j].at
    ensures Canonical(free)
  {
  }

  lemma ReplaceCanonical(free: seq<Chunk>, lo: nat, hi: nat, x: Chunk)
    requires Canonical(free) && lo <= hi <= |free| && x.n >= 1
    requires lo > 0 ==> free[lo - 1].at + free[lo - 1].n < x.at
    requires hi < |free| ==> x.at + x.n < free[hi].at
    ensures Canonical(Replace(free, lo, hi, x))
  {
    hide Canonical;
    var f := Replace(free, lo, hi, x);
    forall i, j | 0 <= i < j < |f|
      ensures f[i].n >= 1 && f[j].n >= 1 && f[i].at + f[i].n < f[j].at
    {
      var i', j' := if i < lo then i else i - lo - 1 + hi, if j < lo then j else j - lo - 1 + hi;
      if i == lo {
        InOrder(free, hi, j');
      } else if j == lo {
        InOrder(free, i', lo - 1);
      } else {
        InOrder(free, i', j');
      }
    }
    forall i | 0 <= i < |f|
      ensures f[i].n >= 1
    {
      if i != lo {
        var k := if i < lo then i else i - lo - 1 + hi;
        InOrder(free, k, k);
      }
    }
    CanonicalFrom(f);
  }

  lemma ReplaceCovers(free: seq<Chunk>, lo: nat, hi: nat, x: Chunk, u: nat)
    requires lo <= hi <= |free|
    ensures Covered(Replace(free, lo, hi, x), u) <==>
            In(x, u) || exists i :: 0 <= i < |free| && !(lo <= i < hi) && In(free[i], u)
  {
    var f := Replace(free, lo, hi, x);
    if i :| 0 <= i < |free| && !(lo <= i < hi) && In(free[i], u) {
      assert f[if i < lo then i else i - hi + lo + 1] == free[i];
    } else if In(x, u) {
      assert In(f[lo], u);
    }
  }

  /** Where the list changes when c goes into gap g. */
  function Lo(free: seq<Chunk>, g: nat, c: Chunk): nat {
    if JoinsLeft(free, g, c) then g - 1 else g
  }

  function Hi(free: seq<Chunk>, g: nat, c: Chunk): nat {
    if JoinsRight(free, g, c) then g + 1 else g
  }

  /** The free list with c in gap g. */
  function Insert(free: seq<Chunk>, g: nat, c: Chunk): seq<Chunk>
    requires g <= |free|
  {
    Replace(free, Lo(free, g, c), Hi(free, g, c), WithBoth(free, g, c))
  }

  lemma InsertCanonical(free: seq<Chunk>, g: nat, c: Chunk)
    requires Canonical(free) && Gap(free, g, c) && c.n >= 1
    ensures Canonical(Insert(free, g, c))
  {
    ReplaceCanonical(free, Lo(free, g, c), Hi(free, g, c), WithBoth(free, g, c));
  }

  lemma InsertCovers(free: seq<Chunk>, g: nat, c: Chunk, u: nat)
    requires Canonical(free) && Gap(free, g, c) && c.n >= 1
    ensures Covered(Insert(free, g, c), u) <==> Covered(free, u) || In(c, u)
  {
    var lo, hi, x := Lo(free, g, c), Hi(free, g, c), WithBoth(free, g, c);
    ReplaceCovers(free, lo, hi, x, u);
    assert In(x, u) <==> In(c, u) || (lo < g && In(free[lo], u)) || (g < hi && In(free[g], u));
  }

  /** A free list is determined by the units it covers. */
  lemma {:induction false} CanonicalUnique(f: seq<Chunk>, g: seq<Chunk>)
    requires Canonical(f) && Canonical(g) && forall u: nat :: Covered(f, u) <==> Covered(g, u)
    ensures f == g
  {
    if f == [] && g == [] {
    } else if f == [] {
      assert In(g[0], g[0].at) && Covered(g, g[0].at);
    } else if g == [] {
      assert In(f[0], f[0].at) && Covered(f, f[0].at);
    } else {
      FirstChunk(f);
      FirstChunk(g);
      assert Covered(f, f[0].at) && Covered(g, g[0].at);
      assert !Covered(f, f[0].at + f[0].n) && !Covered(g, g[0].at + g[0].n);
      assert f[0] == g[0];
      forall u: nat
        ensures Covered(f[1..], u) <==> Covered(g[1..], u)
      {
        RestCovers(f, u);
        RestCovers(g, u);
      }
      CanonicalUnique(f[1..], g[1..]);
    }
  }

  lemma FirstChunk(f: seq<Chunk>)
    requires Canonical(f) && f != []
    ensures forall u: nat :: u < f[0].at ==> !Covered(f, u)
    ensures forall u: nat :: In(f[0], u) ==> Covered(f, u)
    ensures !Covered(f, f[0].at + f[0].n)
  {
  }

  lemma RestCovers(f: seq<Chunk>, u: nat)
    requires Canonical(f) && f != []
    ensures Covered(f[1..], u) <==> Covered(f, u) && !In(f[0], u)
  {
    if Covered(f, u) && !In(f[0], u) {
      var i :| 0 <= i < |f| && In(f[i], u);
      assert f[1..][i - 1] == f[i];
    }
  }

  /* What an operation does to the layout */

  ghost function Units(c: Chunk): iset<nat> {
    iset u: nat | In(c, u)
  }

  lemma GapInLayout(free: seq<Chunk>, used: set<Chunk>, owned: iset<nat>, base: nat, top: nat, c: Chunk)
      returns (g: nat)
    requires Layout(free, used, owned, base, top) && c in used
    ensures Gap(free, g, c)
  {
    g := GapExists(free, c);
  }

  /** Freeing a chunk. */
  lemma InsertLayout(free: seq<Chunk>, used: set<Chunk>, owned: iset<nat>, base: nat, top: nat, c: Chunk, g: nat)
    requires Layout(free, used, owned, base, top) && c in used && Gap(free, g, c)
    ensures Layout(Insert(free, g, c), used - {c}, owned, base, top)
  {
    InsertCanonical(free, g, c);
    InsertPlaced(free, used, base, top, c, g);
    assert Fits(c, base, top);
    hide Canonical, Covered, Placed, Insert;
    forall u: nat
      ensures u in owned <==> Covered(Insert(free, g, c), u) || CoveredBy(used - {c}, u)
    {
      InsertCovers(free, g, c, u);
      if d :| d in used && In(d, u) && d != c {
        assert d in used - {c};
      }
    }
  }

  lemma InsertPlaced(free: seq<Chunk>, used: set<Chunk>, base: nat, top: nat, c: Chunk, g: nat)
    requires Placed(free, used, base, top) && c in used && Gap(free, g, c)
    ensures Placed(Insert(free, g, c), used - {c}, base, top)
  {
    var f, x := Insert(free, g, c), WithBoth(free, g, c);
    assert Fits(x, base, top);
    forall d | d in used - {c}
      ensures Apart(d, x)
    {
      assert Apart(d, c);
      assert g < |free| ==> Apart(d, free[g]);
      assert g > 0 ==> Apart(d, free[g - 1]);
    }
  }

  /** A region from sbrk, as an allocated chunk. */
  lemma GrowLayout(free: seq<Chunk>, used: set<Chunk>, owned: iset<nat>, base: nat, top: nat, c: Chunk)
    requires Layout(free, used, owned, base, top) && Fits(c, base, top) && c !in used
    requires forall u: nat :: In(c, u) ==> u !in owned
    ensures Layout(free, used + {c}, owned + Units(c), base, top)
  {
    hide Canonical;
    forall d | d in used
      ensures Apart(c, d)
    {
      NotShared(c, d);
    }
    forall i | 0 <= i < |free|
      ensures Apart(c, free[i])
    {
      NotShared(c, free[i]);
    }
    forall u: nat
      ensures u in owned + Units(c) <==> Covered(free, u) || CoveredBy(used + {c}, u)
    {
      if d :| d in used && In(d, u) {
        assert d in used + {c};
      } else if In(c, u) {
        assert c in used + {c};
      }
    }
  }

  /** Chunks that share no unit are apart. */
  lemma NotShared(c: Chunk, d: Chunk)
    requires c.n >= 1 && d.n >= 1 && forall u: nat :: In(c, u) ==> !In(d, u)
    ensures Apart(c, d)
  {
    if !Apart(c, d) {
      assert In(c, if c.at < d.at then d.at else c.at);
    }
  }

  /** Allocating free chunk j whole. */
  lemma TakeLayout(free: seq<Chunk>, used: set<Chunk>, owned: iset<nat>, base: nat, top: nat, j: nat)
    requires Layout(free, used, owned, base, top) && j < |free|
    ensures Layout(free[..j] + free[j + 1..], used + {free[j]}, owned, base, top)
  {
    var f := free[..j] + free[j + 1..];
    assert forall i :: 0 <= i < |f| ==> f[i] == free[if i < j then i else i + 1];
    forall u: nat
      ensures u in owned <==> Covered(f, u) || CoveredBy(used + {free[j]}, u)
    {
      if i :| 0 <= i < |free| && In(free[i], u) {
        if i != j {
          assert f[if i < j then i else i - 1] == free[i];
        } else {
          assert free[j] in used + {free[j]};
        }
      }
      if d :| d in used && In(d, u) {
        assert d in used + {free[j]};
      }
    }
  }

  /** Allocating the last k units of free chunk j. */
  lemma SplitLayout(free: seq<Chunk>, used: set<Chunk>, owned: iset<nat>, base: nat, top: nat, j: nat, k: nat)
    requires Layout(free, used, owned, base, top) && j < |free| && 1 <= k < free[j].n
    ensures var rest, c := Chunk(free[j].at, free[j].n - k), Chunk(free[j].at + free[j].n - k, k);
            Layout(free[j := rest], used + {c}, owned, base, top)
  {
    hide Canonical, Placed, Exact;
    SplitCanonical(free, j, k);
    SplitPlaced(free, used, base, top, j, k);
    SplitExact(free, used, owned, j, k);
  }

  lemma SplitCanonical(free: seq<Chunk>, j: nat, k: nat)
    requires Canonical(free) && j < |free| && 1 <= k < free[j].n
    ensures Canonical(free[j := Chunk(free[j].at, free[j].n - k)])
  {
  }

  lemma SplitPlaced(free: seq<Chunk>, used: set<Chunk>, base: nat, top: nat, j: nat, k: nat)
    requires Placed(free, used, base, top) && Canonical(free) && j < |free| && 1 <= k < free[j].n
    ensures var rest, c := Chunk(free[j].at, free[j].n - k), Chunk(free[j].at + free[j].n - k, k);
            Placed(free[j := rest], used + {c}, base, top)
  {
  }

  lemma SplitExact(free: seq<Chunk>, used: set<Chunk>, owned: iset<nat>, j: nat, k: nat)
    requires Exact(free, used, owned) && j < |free| && 1 <= k < free[j].n
    ensures var rest, c := Chunk(free[j].at, free[j].n - k), Chunk(free[j].at + free[j].n - k, k);
            Exact(free[j := rest], used + {c}, owned)
  {
    var rest, c := Chunk(free[j].at, free[j].n - k), Chunk(free[j].at + free[j].n - k, k);
    var f := free[j := rest];
    forall u: nat
      ensures u in owned <==> Covered(f, u) || CoveredBy(used + {c}, u)
    {
      if i :| 0 <= i < |free| && In(free[i], u) {
        if i != j {
          assert f[i] == free[i];
        } else if In(c, u) {
          assert c in used + {c};
        } else {
          assert In(f[j], u);
        }
      }
      if d :| d in used && In(d, u) {
        assert d in used + {c};
      }
      if i :| 0 <= i < |f| && In(f[i], u) {
        assert In(free[i], u);
      }
      if In(c, u) {
        assert In(free[j], u);
      }
    }
  }

  /* What an operation does to the ring */

  ghost predicate Above(free: seq<Chunk>, base: nat) {
    Canonical(free) && forall i :: 0 <= i < |free| ==> base < free[i].at
  }

  lemma NodesDiffer(free: seq<Chunk>, base: nat, j: nat, k: nat)
    requires Above(free, base) && j <= |free| && k <= |free| && j != k
    ensures Node(free, base, j) != Node(free, base, k)
  {
  }

  /** The ring after a stretch of it is replaced by x. */
  lemma ReplaceLinked(m: seq<Header>, m': seq<Header>, free: seq<Chunk>, base: nat, lo: nat, hi: nat, x: Chunk)
    requires Linked(m, free, base) && lo <= hi <= |free| && |m'| == |m| && x.at < |m|
    requires m'[x.at] == Header(Node(free, base, hi + 1), x.n)
    requires LinkedAt(m, free, base, lo) && m'[Node(free, base, lo)] == Header(x.at, SizeAt(free, lo))
    requires forall k: nat :: k < lo || hi < k <= |free| ==>
             LinkedAt(m, free, base, k) && m'[Node(free, base, k)] == m[Node(free, base, k)]
    ensures Linked(m', Replace(free, lo, hi, x), base)
  {
    var f := Replace(free, lo, hi, x);
    forall k: nat | k <= |f|
      ensures LinkedAt(m', f, base, k)
    {
      if k < lo {
        assert LinkedAt(m, free, base, k);
      } else if k > lo + 1 {
        assert LinkedAt(m, free, base, k - lo - 1 + hi);
      }
    }
  }

  /** Where free's search stops: the loop's two tests, at any node, say whether this is the gap. */
  lemma StopsAtGap(free: seq<Chunk>, base: nat, g: nat, c: Chunk, k: nat)
    requires Above(free, base) && Gap(free, g, c) && c.n >= 1 && base < c.at && k <= |free|
    ensures var p, q := Node(free, base, k), Node(free, base, k + 1);
            (p < c.at < q || (p >= q && (c.at > p || c.at < q))) <==> k == g
  {
  }

  /** freep = p, after the headers of the freed chunk c and of the node before it are rewritten (free's two ifs). */
  function Freed(m: seq<Header>, p: nat, b: nat): (r: seq<Header>)
    requires p < |m| && b < |m| && m[p].ptr < |m|
    ensures |r| == |m|
  {
    var q := m[p].ptr;
    var h := if b + m[b].size == q then Header(m[q].ptr, m[b].size + m[q].size) else Header(q, m[b].size);
    if p + m[p].size == b then m[b := h][p := Header(h.ptr, m[p].size + h.size)]
    else m[b := h][p := Header(b, m[p].size)]
  }

  /** The two headers that Freed writes, in terms of the chunks. */
  lemma FreedHeaders(m: seq<Header>, free: seq<Chunk>, base: nat, c: Chunk, g: nat)
    requires Linked(m, free, base) && Above(free, base) && Gap(free, g, c) && c.n >= 1
    requires base < c.at < |m| && m[c.at].size == c.n
    ensures var p, x, lo, hi := Node(free, base, g), WithBoth(free, g, c), Lo(free, g, c), Hi(free, g, c);
            && p < |m| && m[p].ptr < |m| && x.at < |m| && p != c.at
            && var m' := Freed(m, p, c.at);
            && m'[x.at] == Header(Node(free, base, hi + 1), x.n)
            && (lo == g ==> m'[p] == Header(x.at, SizeAt(free, g)))
            && (lo != g ==> p == x.at)
  {
    assert LinkedAt(m, free, base, g);
    if g < |free| {
      assert LinkedAt(m, free, base, g + 1);
    } else {
      assert LinkedAt(m, free, base, 0);
    }
  }

  /** Freeing keeps the ring, whatever is merged. */
  lemma FreedLinked(m: seq<Header>, free: seq<Chunk>, base: nat, c: Chunk, g: nat)
    requires Linked(m, free, base) && Above(free, base) && Gap(free, g, c) && c.n >= 1
    requires base < c.at < |m| && m[c.at].size == c.n
    ensures var p := Node(free, base, g);
            && p < |m| && m[p].ptr < |m|
            && Linked(Freed(m, p, c.at), Insert(free, g, c), base)
            && p == Node(Insert(free, g, c), base, g)
  {
    FreedHeaders(m, free, base, c, g);
    var p, x, lo, hi := Node(free, base, g), WithBoth(free, g, c), Lo(free, g, c), Hi(free, g, c);
    var m' := Freed(m, p, c.at);
    assert LinkedAt(m, free, base, lo);
    forall k: nat | (k < lo || hi < k <= |free|) || (k == lo && lo != g)
      ensures LinkedAt(m, free, base, k) && m'[Node(free, base, k)] == m[Node(free, base, k)]
    {
      assert LinkedAt(m, free, base, k);
      NodesDiffer(free, base, k, g);
    }
    ReplaceLinked(m, m', free, base, lo, hi, x);
  }

  /** Only two headers change, and neither is in another allocated chunk. */
  lemma FreedElsewhere(m: seq<Header>, free: seq<Chunk>, used: set<Chunk>, base: nat, top: nat, c: Chunk, g: nat)
    requires Placed(free, used, base, top) && c in used && g <= |free| && top <= |m| && m[Node(free, base, g)].ptr < |m|
    ensures forall d, u: nat :: d in used && d != c && In(d, u) ==> Freed(m, Node(free, base, g), c.at)[u] == m[u]
  {
    assert Fits(c, base, top);
  }

  ghost predicate IsNode(free: seq<Chunk>, base: nat, p: nat) {
    exists k: nat :: k <= |free| && p == Node(free, base, k)
  }

  /** The heap once the ring exists, with freep = p. */
  ghost predicate Good(m: seq<Header>, base: nat, p: nat, free: seq<Chunk>, used: set<Chunk>, owned: iset<nat>) {
    Layout(free, used, owned, base, |m|) && UsedHeaders(m, used) && Linked(m, free, base) && IsNode(free, base, p)
  }

  /** After free: the chunk's units are free, and nothing else has changed. */
  ghost predicate Gave(free: seq<Chunk>, free': seq<Chunk>, used: set<Chunk>, used': set<Chunk>, c: Chunk) {
    && used' == used - {c}
    && forall u: nat :: Covered(free', u) <==> Covered(free, u) || In(c, u)
  }

  lemma FreeGood(m: seq<Header>, base: nat, p: nat, free: seq<Chunk>, used: set<Chunk>, owned: iset<nat>, c: Chunk,
      g: nat)
    requires Good(m, base, p, free, used, owned) && c in used && Gap(free, g, c)
    ensures var p' := Node(free, base, g);
            && p' < |m| && c.at < |m| && p' != c.at && m[p'].ptr < |m|
            && Good(Freed(m, p', c.at), base, p', Insert(free, g, c), used - {c}, owned)
            && Gave(free, Insert(free, g, c), used, used - {c}, c)
            && SameData(used - {c}, m, Freed(m, p', c.at))
  {
    hide Canonical, Covered, Layout, Placed, Exact, Linked, Insert, UsedHeaders, Freed, In, Gap, IsNode, Above;
    GoodChunk(m, base, p, free, used, owned, c);
    FreedHeaders(m, free, base, c, g);
    FreedLinked(m, free, base, c, g);
    GapShort(free, g, c);
    FreedElsewhere(m, free, used, base, |m|, c, g);
    InsertLayout(free, used, owned, base, |m|, c, g);
    forall u: nat
      ensures Covered(Insert(free, g, c), u) <==> Covered(free, u) || In(c, u)
    {
      InsertCovers(free, g, c, u);
    }
    NodeFor(Insert(free, g, c), base, g);
    UsedKept(m, Freed(m, Node(free, base, g), c.at), used, used - {c}, base);
  }

  lemma GoodChunk(m: seq<Header>, base: nat, p: nat, free: seq<Chunk>, used: set<Chunk>, owned: iset<nat>, c: Chunk)
    requires Good(m, base, p, free, used, owned) && c in used
    ensures Fits(c, base, |m|) && m[c.at].size == c.n && Above(free, base)
    ensures Canonical(free) && Placed(free, used, base, |m|) && forall d :: d in used ==> Fits(d, base, |m|)
  {
    hide Canonical, Exact, Linked;
  }

  lemma NodeFor(free: seq<Chunk>, base: nat, g: nat)
    requires g <= |free|
    ensures IsNode(free, base, Node(free, base, g))
  {
  }

  lemma GapShort(free: seq<Chunk>, g: nat, c: Chunk)
    requires Gap(free, g, c)
    ensures g <= |free| && g <= |Insert(free, g, c)|
  {
  }

  lemma NodePositive(free: seq<Chunk>, used: set<Chunk>, base: nat, top: nat, k: nat)
    requires Placed(free, used, base, top) && 0 < base
    ensures Node(free, base, k) > 0
  {
  }

  /** Headers of allocated chunks are part of them. */
  lemma UsedKept(m: seq<Header>, m': seq<Header>, used: set<Chunk>, kept: set<Chunk>, base: nat)
    requires UsedHeaders(m, used) && SameData(kept, m, m') && kept <= used && forall c :: c in used ==>
             Fits(c, base, |m|)
    ensures UsedHeaders(m', kept)
  {
    forall c | c in kept
      ensures c.at < |m'| && m'[c.at].size == c.n
    {
      assert In(c, c.at);
    }
  }

  /* malloc: taking a block out of the list */

  /** After malloc: c was free, and is allocated now. */
  ghost predicate Took(free: seq<Chunk>, free': seq<Chunk>, used: set<Chunk>, used': set<Chunk>, c: Chunk) {
    && c !in used && used' == used + {c}
    && (forall u: nat :: Covered(free', u) <==> Covered(free, u) && !In(c, u))
    && (forall u: nat :: In(c, u) ==> Covered(free, u))
  }

  ghost predicate Taken(m: seq<Header>, m': seq<Header>, base: nat, p: nat, free: seq<Chunk>, free': seq<Chunk>,
                        used: set<Chunk>, owned: iset<nat>, c: Chunk) {
    && Good(m', base, p, free', used + {c}, owned) && Took(free, free', used, used + {c}, c) && SameData(used, m, m')
  }

  lemma TookAll(free: seq<Chunk>, used: set<Chunk>, owned: iset<nat>, base: nat, top: nat, j: nat)
    requires Layout(free, used, owned, base, top) && j < |free|
    ensures Took(free, free[..j] + free[j + 1..], used, used + {free[j]}, free[j])
  {
    var f := free[..j] + free[j + 1..];
    assert Fits(free[j], base, top);
    assert forall d :: d in used ==> Apart(d, free[j]);
    forall u: nat
      ensures Covered(f, u) <==> Covered(free, u) && !In(free[j], u)
    {
      if i :| 0 <= i < |free| && In(free[i], u) && i != j {
        assert f[if i < j then i else i - 1] == free[i];
      }
      if i :| 0 <= i < |f| && In(f[i], u) {
        assert f[i] == free[if i < j then i else i + 1];
      }
    }
  }

  lemma TookTail(free: seq<Chunk>, used: set<Chunk>, owned: iset<nat>, base: nat, top: nat, j: nat, k: nat)
    requires Layout(free, used, owned, base, top) && j < |free| && 1 <= k < free[j].n
    ensures var rest, c := Chunk(free[j].at, free[j].n - k), Chunk(free[j].at + free[j].n - k, k);
            Took(free, free[j := rest], used, used + {c}, c)
  {
    var rest, c := Chunk(free[j].at, free[j].n - k), Chunk(free[j].at + free[j].n - k, k);
    var f := free[j := rest];
    assert forall d :: d in used ==> Apart(d, free[j]);
    forall u: nat
      ensures Covered(f, u) <==> Covered(free, u) && !In(c, u)
      ensures In(c, u) ==> Covered(free, u)
    {
      if i :| 0 <= i < |free| && In(free[i], u) {
        assert f[i] == if i == j then rest else free[i];
        assert In(c, u) || In(f[i], u);
      }
      if i :| 0 <= i < |f| && In(f[i], u) {
        assert In(free[i], u);
      }
      if In(c, u) {
        assert In(free[j], u);
      }
    }
  }

  /** prevp->s.ptr = p->s.ptr. */
  lemma UnlinkedRing(m: seq<Header>, free: seq<Chunk>, base: nat, j: nat)
    requires Linked(m, free, base) && Above(free, base) && j < |free|
    ensures var prev, p := Node(free, base, j), Node(free, base, j + 1);
            && prev < |m| && p < |m|
            && Linked(m[prev := m[prev].(ptr := m[p].ptr)], free[..j] + free[j + 1..], base)
  {
    var f, prev, p := free[..j] + free[j + 1..], Node(free, base, j), Node(free, base, j + 1);
    assert LinkedAt(m, free, base, j) && LinkedAt(m, free, base, j + 1);
    var m' := m[prev := m[prev].(ptr := m[p].ptr)];
    forall k: nat | k <= |f|
      ensures LinkedAt(m', f, base, k)
    {
      var was := if k <= j then k else k + 1;
      assert LinkedAt(m, free, base, was);
      if was != j {
        NodesDiffer(free, base, was, j);
      }
    }
  }

  /** p->s.size -= k, and a header k units before the block's end. */
  lemma SplitRing(m: seq<Header>, free: seq<Chunk>, base: nat, top: nat, j: nat, k: nat)
    requires Linked(m, free, base) && Above(free, base) && j < |free| && 1 <= k < free[j].n
    requires Fits(free[j], base, top) && top <= |m|
    ensures var p, cut := free[j].at, free[j].at + free[j].n - k;
            Linked(m[p := m[p].(size := free[j].n - k)][cut := m[cut].(size := k)],
                free[j := Chunk(p, free[j].n - k)], base)
  {
    var p, cut := free[j].at, free[j].at + free[j].n - k;
    var m', f := m[p := m[p].(size := free[j].n - k)][cut := m[cut].(size := k)], free[j := Chunk(p, free[j].n - k)];
    forall i: nat | i <= |f|
      ensures LinkedAt(m', f, base, i)
    {
      assert LinkedAt(m, free, base, i);
      if i != j + 1 {
        NodesDiffer(free, base, i, j + 1);
      }
    }
  }

  /** malloc takes a block that fits exactly. */
  lemma TakeGood(m: seq<Header>, base: nat, p: nat, free: seq<Chunk>, used: set<Chunk>, owned: iset<nat>, j: nat)
    requires Good(m, base, p, free, used, owned) && j < |free|
    ensures var prev, b, f, c := Node(free, base, j), free[j].at, free[..j] + free[j + 1..], free[j];
            && prev < |m| && b < |m|
            && Taken(m, m[prev := m[prev].(ptr := m[b].ptr)], base, prev, free, f, used, owned, c)
  {
    UnlinkedRing(m, free, base, j);
    TakeLayout(free, used, owned, base, |m|, j);
    TookAll(free, used, owned, base, |m|, j);
    assert LinkedAt(m, free, base, j) && LinkedAt(m, free, base, j + 1);
    var f := free[..j] + free[j + 1..];
    assert Node(f, base, j) == Node(free, base, j);
    forall d | d in used
      ensures Apart(d, free[j]) && !In(d, Node(free, base, j))
    {
      assert Fits(d, base, |m|);
      assert j > 0 ==> Apart(d, free[j - 1]) && free[j - 1].n >= 1;
    }
    hide Layout, Took, Linked;
  }
  /** malloc takes the last k units of a bigger block. */
  lemma SplitGood(m: seq<Header>, base: nat, p: nat, free: seq<Chunk>, used: set<Chunk>, owned: iset<nat>, j: nat,
      k: nat)
    requires Good(m, base, p, free, used, owned) && j < |free| && 1 <= k < free[j].n
    ensures var b, cut := free[j].at, free[j].at + free[j].n - k;
            var f, c := free[j := Chunk(b, free[j].n - k)], Chunk(cut, k);
            && cut < |m| && m[b].size == free[j].n
            && var m' := m[b := m[b].(size := free[j].n - k)][cut := m[cut].(size := k)];
            && Taken(m, m', base, Node(free, base, j), free, f, used, owned, c)
  {
    assert Fits(free[j], base, |m|);
    SplitRing(m, free, base, |m|, j, k);
    SplitLayout(free, used, owned, base, |m|, j, k);
    TookTail(free, used, owned, base, |m|, j, k);
    assert LinkedAt(m, free, base, j + 1);
    assert Node(free[j := Chunk(free[j].at, free[j].n - k)], base, j) == Node(free, base, j);
    forall d | d in used
      ensures Apart(d, free[j])
    {
    }
    hide Layout, Took, Linked;
  }

  /** What malloc took without sbrk, free gives back: the list is as it was, merged or not. */
  lemma FreeUndoesMalloc(free0: seq<Chunk>, free1: seq<Chunk>, free2: seq<Chunk>, used0: set<Chunk>,
      used1: set<Chunk>, used2: set<Chunk>, c: Chunk)
    requires Canonical(free0) && Canonical(free2)
    requires Took(free0, free1, used0, used1, c) && Gave(free1, free2, used1, used2, c)
    ensures free2 == free0 && used2 == used0
  {
    CanonicalUnique(free2, free0);
  }

  /**
   Two programs with the same allocated blocks and the same units from sbrk have the same free list, whatever they did
   to get there.
   */
  lemma HistoryDoesNotMatter(free: seq<Chunk>, free': seq<Chunk>, used: set<Chunk>, owned: iset<nat>, base: nat,
      top: nat)
    requires Layout(free, used, owned, base, top) && Layout(free', used, owned, base, top)
    ensures free == free'
  {
    forall u: nat
      ensures Covered(free, u) <==> Covered(free', u)
    {
      UsedNotFree(free, used, base, top, u);
      UsedNotFree(free', used, base, top, u);
      assert u in owned <==> Covered(free, u) || CoveredBy(used, u);
    }
    CanonicalUnique(free, free');
  }

  lemma UsedNotFree(free: seq<Chunk>, used: set<Chunk>, base: nat, top: nat, u: nat)
    requires Placed(free, used, base, top)
    ensures CoveredBy(used, u) ==> !Covered(free, u)
  {
    if c :| c in used && In(c, u) {
      assert forall i :: 0 <= i < |free| ==> Apart(c, free[i]);
    }
  }

  /** malloc's nunits, with the wrap-around of its 32-bit sum. */
  function Nunits(nbytes: nat): (n: nat)
    ensures n >= 1
  {
    (nbytes + 8 - 1) % 0x1_0000_0000 / 8 + 1
  }

  /** The int that sbrk is given for nu units. */
  function SbrkArg(nu: nat): int {
    var w := nu * 8 % 0x1_0000_0000;
    if w < 0x8000_0000 then w else w - 0x1_0000_0000
  }

  function Grown(nunits: nat): nat {
    if nunits < MINUNITS then MINUNITS else nunits
  }

  /**
   The requests for which malloc asks for what it needs: the block has room for nbytes beside its header, and sbrk is
   asked for as many bytes as the units morecore writes down. Just under 2 GB sbrk's argument turns negative, and
   just under 4 GB nunits wraps around.
   */
  lemma RequestIff(nbytes: nat)
    requires nbytes < 0x1_0000_0000
    ensures 8 * (Nunits(nbytes) - 1) >= nbytes && SbrkArg(Grown(Nunits(nbytes))) == 8 * Grown(Nunits(nbytes))
            <==> nbytes <= 0x7FFF_FFF0
  {
  }

  /** A run of free units lies within one free block. */
  lemma RunIsInOneBlock(free: seq<Chunk>, c: Chunk)
    requires Canonical(free) && c.n >= 1 && forall u: nat :: In(c, u) ==> Covered(free, u)
    ensures Some(free, c.n)
  {
    assert In(c, c.at);
    var i :| 0 <= i < |free| && In(free[i], c.at);
    var end := free[i].at + free[i].n;
    EndNotCovered(free, i);
    assert !In(c, end);
  }

  lemma EndNotCovered(free: seq<Chunk>, i: nat)
    requires Canonical(free) && i < |free|
    ensures !Covered(free, free[i].at + free[i].n)
  {
    var end := free[i].at + free[i].n;
    assert forall j :: 0 <= j < |free| ==> !In(free[j], end);
  }

  /** Every unit of a chunk of the heap came from sbrk. */
  lemma OwnedAll(free: seq<Chunk>, used: set<Chunk>, owned: iset<nat>, u: nat)
    requires Exact(free, used, owned) && u !in owned
    ensures forall d :: d in used ==> !In(d, u)
    ensures forall i :: 0 <= i < |free| ==> !In(free[i], u)
  {
    assert !CoveredBy(used, u);
    assert !Covered(free, u);
  }

  /** Some free block has k units. */
  ghost predicate Some(free: seq<Chunk>, k: nat) {
    exists i :: 0 <= i < |free| && free[i].n >= k
  }

  /** The region [brk, brk + n) can be had from sbrk. */
  ghost predicate RegionOk(brk: nat, n: nat, base: nat, top: nat, owned: iset<nat>) {
    Fits(Chunk(brk, n), base, top) && forall u: nat :: In(Chunk(brk, n), u) ==> u !in owned
  }

  /** morecore's region, before it is given to free. */
  lemma RegionGood(m: seq<Header>, base: nat, p: nat, free: seq<Chunk>, used: set<Chunk>, owned: iset<nat>, brk: nat,
      n: nat)
    requires Good(m, base, p, free, used, owned) && RegionOk(brk, n, base, |m|, owned)
    ensures var c, m' := Chunk(brk, n), m[brk := m[brk].(size := n)];
            && c !in used && Good(m', base, p, free, used + {c}, owned + Units(c)) && SameData(used, m, m')
  {
    var c, m' := Chunk(brk, n), m[brk := m[brk].(size := n)];
    assert In(c, brk);
    OwnedAll(free, used, owned, brk);
    GrowLayout(free, used, owned, base, |m|, c);
    forall k: nat | k <= |free|
      ensures LinkedAt(m', free, base, k)
    {
      assert LinkedAt(m, free, base, k);
      assert k > 0 ==> Fits(free[k - 1], base, |m|) && !In(free[k - 1], brk);
    }
    UsedKept(m, m', used, used, base);
    hide Layout, Linked;
  }

  /** The nodes after node k0, going round, up to node k. */
  predicate Passed(k0: nat, k: nat, i: nat) {
    if k0 <= k then k0 < i <= k else i > k0 || i <= k
  }

  ghost predicate AllSmall(free: seq<Chunk>, k0: nat, k: nat, n: nat) {
    forall i: nat {:trigger SizeAt(free, i)} :: i <= |free| && Passed(k0, k, i) ==> SizeAt(free, i) < n
  }

  /** c is the end of the first big enough block after node p; prev is the node before that block. */
  ghost predicate NextFit(free: seq<Chunk>, base: nat, p: nat, n: nat, c: Chunk, prev: nat) {
    exists k0: nat, j: nat ::
      && k0 <= |free| && p == Node(free, base, k0) && AllSmall(free, k0, j, n)
      && j < |free| && free[j].n >= n && c == Chunk(free[j].at + free[j].n - n, n) && prev == Node(free, base, j)
  }

  /** p is the node before the gap that c belongs in. */
  ghost predicate Before(free: seq<Chunk>, base: nat, c: Chunk, p: nat) {
    exists g: nat :: Gap(free, g, c) && p == Node(free, base, g)
  }

  /** The same once morecore has freed the region r: the walk starts at the node before it. */
  ghost predicate FitInRegion(free: seq<Chunk>, used: set<Chunk>, base: nat, r: Chunk, n: nat, c: Chunk, prev: nat) {
    exists free1, p1 ::
      Gave(free, free1, used + {r}, used, r) && Before(free, base, r, p1) && NextFit(free1, base, p1, n, c, prev)
  }

  /** One more node passed. */
  lemma PassOn(free: seq<Chunk>, k0: nat, k: nat, n: nat)
    requires k0 <= |free| && k <= |free| && AllSmall(free, k0, k, n)
    ensures var next := Next(free, k);
            SizeAt(free, next) < n ==> if next == k0 then !Some(free, n) else AllSmall(free, k0, next, n)
  {
    var next := Next(free, k);
    if SizeAt(free, next) < n && next == k0 {
      forall i | 0 <= i < |free|
        ensures free[i].n < n
      {
        assert SizeAt(free, i + 1) < n;
      }
    }
  }

  /** A node of the ring and what its header says. */
  lemma NodeHeader(m: seq<Header>, base: nat, p: nat, free: seq<Chunk>, used: set<Chunk>, owned: iset<nat>, k: nat)
    requires Good(m, base, p, free, used, owned) && k <= |free|
    ensures Node(free, base, k) < |m| && m[Node(free, base, k)] == Header(Node(free, base, k + 1), SizeAt(free, k))
    ensures forall j: nat :: j <= |free| && Node(free, base, j) == Node(free, base, k) ==> j == k
  {
    assert LinkedAt(m, free, base, k);
    assert Above(free, base);
    forall j: nat | j <= |free| && j != k
      ensures Node(free, base, j) != Node(free, base, k)
    {
      NodesDiffer(free, base, j, k);
    }
  }

  /** The first call: a ring of base alone. */
  lemma FirstGood(m: seq<Header>, base: nat)
    requires base < |m|
    ensures Good(m[base := Header(base, 0)], base, base, [], {}, iset{})
  {
    assert base == Node([], base, 0);
  }

  /** What malloc promises: where the block comes from, and what sbrk had to add. */
  ghost predicate Served(free: seq<Chunk>, free': seq<Chunk>, used: set<Chunk>, used': set<Chunk>, owned: iset<nat>,
      owned': iset<nat>,
                         c: Chunk) {
    && c !in used && used' == used + {c}
    && (forall u: nat :: Covered(free', u) <==> (Covered(free, u) || (u in owned' && u !in owned)) && !In(c, u))
    && (forall u: nat :: In(c, u) ==> Covered(free, u) || (u in owned' && u !in owned))
  }

  /**
   Where malloc is between two steps of its walk: before or after its one call of morecore, which got the region r.
   */
  ghost predicate Situation(free0: seq<Chunk>, used0: set<Chunk>, owned0: iset<nat>, free: seq<Chunk>,
      used: set<Chunk>, owned: iset<nat>,
                            grown: bool, r: Chunk, n: nat) {
    && used == used0
    && if grown then
         !Some(free0, n) && Some(free, n) && owned == owned0 + Units(r) && Gave(free0, free, used0 + {r}, used0, r)
         && forall u: nat :: In(r, u) ==> u !in owned0
       else free == free0 && owned == owned0
  }

  lemma ServedFrom(free0: seq<Chunk>, used0: set<Chunk>, owned0: iset<nat>, free: seq<Chunk>, used: set<Chunk>,
      owned: iset<nat>,
                   grown: bool, r: Chunk, n: nat, free': seq<Chunk>, used': set<Chunk>, c: Chunk)
    requires Situation(free0, used0, owned0, free, used, owned, grown, r, n) && Took(free, free', used, used', c)
             && Some(free, n)
    ensures Served(free0, free', used0, used', owned0, owned, c)
    ensures grown <==> !Some(free0, n)
    ensures owned == if grown then owned0 + Units(r) else owned0
  {
  }

  /** Nodes between k and k0, going round. */
  function Left(n: nat, k0: nat, k: nat): int {
    if k0 <= k then n + k0 - k else k0 - k - 1
  }

  function Next(free: seq<Chunk>, k: nat): nat {
    if k == |free| then 0 else k + 1
  }

  /** Node k + 1, and what it means that it is big enough. */
  lemma NextNode(free: seq<Chunk>, base: nat, k: nat, n: nat)
    requires k <= |free| && n >= 1
    ensures Node(free, base, k + 1) == Node(free, base, Next(free, k))
    ensures SizeAt(free, Next(free, k)) >= n ==>
              k < |free| && Node(free, base, k + 1) == free[k].at && free[k].n == SizeAt(free, Next(free, k))
                  && Some(free, n)
  {
  }

  lemma FoundFit(free: seq<Chunk>, base: nat, k0: nat, k: nat, n: nat, c: Chunk)
    requires k0 <= |free| && AllSmall(free, k0, k, n) && k < |free| && free[k].n >= n
             && c == Chunk(free[k].at + free[k].n - n, n)
    ensures NextFit(free, base, Node(free, base, k0), n, c, Node(free, base, k))
  {
  }

  /** The walk finds one block, at one node. */
  lemma FitUnique(free: seq<Chunk>, base: nat, p: nat, n: nat, c: Chunk, prev: nat, c': Chunk, prev': nat)
    requires Above(free, base) && NextFit(free, base, p, n, c, prev) && NextFit(free, base, p, n, c', prev')
    ensures c == c' && prev == prev'
  {
    var k: nat, j: nat :| k <= |free| && p == Node(free, base, k) && AllSmall(free, k, j, n) && j < |free|
      && free[j].n >= n && c == Chunk(free[j].at + free[j].n - n, n) && prev == Node(free, base, j);
    FitAt(free, base, k, n, c', prev', j);
  }

  /** The same, from node k, where the first big enough block is free[j]. */
  lemma FitAt(free: seq<Chunk>, base: nat, k: nat, n: nat, c: Chunk, prev: nat, j: nat)
    requires Above(free, base) && k <= |free| && AllSmall(free, k, j, n) && j < |free| && free[j].n >= n
    requires NextFit(free, base, Node(free, base, k), n, c, prev)
    ensures c == Chunk(free[j].at + free[j].n - n, n) && prev == Node(free, base, j)
  {
    var j' := FitFrom(free, base, k, n, c, prev);
    assert SizeAt(free, j + 1) >= n && SizeAt(free, j' + 1) >= n;
  }

  /** The block found from node k, which has one number only. */
  lemma FitFrom(free: seq<Chunk>, base: nat, k: nat, n: nat, c: Chunk, prev: nat) returns (j: nat)
    requires Above(free, base) && k <= |free| && NextFit(free, base, Node(free, base, k), n, c, prev)
    ensures AllSmall(free, k, j, n) && j < |free| && free[j].n >= n
    ensures c == Chunk(free[j].at + free[j].n - n, n) && prev == Node(free, base, j)
  {
    hide AllSmall;
    var k': nat, i: nat :| k' <= |free| && Node(free, base, k) == Node(free, base, k') && AllSmall(free, k', i, n)
      && i < |free| && free[i].n >= n && c == Chunk(free[i].at + free[i].n - n, n) && prev == Node(free, base, i);
    if k != k' {
      NodesDiffer(free, base, k, k');
    }
    j := i;
  }

  /** free without the last n units of its block j. */
  function Cut(free: seq<Chunk>, j: nat, n: nat): seq<Chunk>
    requires j < |free| && n <= free[j].n
  {
    if n == free[j].n then free[..j] + free[j + 1..] else free[j := Chunk(free[j].at, free[j].n - n)]
  }

  lemma CutIs(free: seq<Chunk>, used: set<Chunk>, owned: iset<nat>, base: nat, top: nat, j: nat, n: nat,
              free1: seq<Chunk>, used1: set<Chunk>)
    requires Layout(free, used, owned, base, top) && j < |free| && 1 <= n <= free[j].n
    requires Took(free, free1, used, used1, Chunk(free[j].at + free[j].n - n, n)) && Canonical(free1)
    ensures free1 == Cut(free, j, n) && Above(free, base) && Above(free1, base)
  {
    if n == free[j].n {
      TakeLayout(free, used, owned, base, top, j);
      TookAll(free, used, owned, base, top, j);
    } else {
      SplitLayout(free, used, owned, base, top, j, n);
      TookTail(free, used, owned, base, top, j, n);
    }
    CanonicalUnique(free1, Cut(free, j, n));
  }

  /** Where block i of the cut list is in the whole one. */
  function Whole(free: seq<Chunk>, j: nat, n: nat, i: nat): nat
    requires j < |free|
  {
    if i < j || n < free[j].n then i else i + 1
  }

  /** What is small in the cut list, and was passed from the node before block j on, is small in the whole list. */
  lemma CutSmall(free: seq<Chunk>, j: nat, n: nat, m: nat, i: nat)
    requires j < |free| && 1 <= n <= free[j].n && free[j].n - n < m && i < |Cut(free, j, n)|
    requires AllSmall(Cut(free, j, n), j, i, m) && Cut(free, j, n)[i].n >= m
    ensures Whole(free, j, n, i) < |free| && Cut(free, j, n)[i] == free[Whole(free, j, n, i)]
    ensures AllSmall(free, j + 1, Whole(free, j, n, i), m)
  {
    var f, i' := Cut(free, j, n), Whole(free, j, n, i);
    forall x: nat | x <= |free| && Passed(j + 1, i', x)
      ensures SizeAt(free, x) < m
    {
      var y: nat := if x <= j || n < free[j].n then x else x - 1;
      assert SizeAt(free, x) == SizeAt(f, y);
      assert y <= |f| && Passed(j, i, y);
    }
  }

  /** A walk in the list without the end of block j, from the node before it, is a walk in the list from block j on. */
  lemma WalkOn(free: seq<Chunk>, base: nat, j: nat, n: nat, m: nat, c: Chunk, prev: nat)
    requires Above(free, base) && j < |free| && 1 <= n <= free[j].n && free[j].n - n < m
    requires Above(Cut(free, j, n), base) && NextFit(Cut(free, j, n), base, Node(free, base, j), m, c, prev)
    ensures exists q: nat :: NextFit(free, base, free[j].at, m, c, q)
  {
    hide AllSmall, Above;
    var f := Cut(free, j, n);
    assert j <= |f| && Node(f, base, j) == Node(free, base, j);
    hide Cut;
    var i := FitFrom(f, base, j, m, c, prev);
    CutSmall(free, j, n, m, i);
    FoundFit(free, base, j + 1, Whole(free, j, n, i), m, c);
  }

  /**
   Two mallocs that the list serves, one after the other: if enough is left of the block that the first one cut, the
   second takes the units just below; otherwise it takes the first big enough block that follows.
   */
  lemma TwoMallocs(free0: seq<Chunk>, used0: set<Chunk>, owned: iset<nat>, base: nat, top: nat, p0: nat, n1: nat,
                   c1: Chunk, p1: nat, free1: seq<Chunk>, used1: set<Chunk>, n2: nat, c2: Chunk, p2: nat)
    requires Layout(free0, used0, owned, base, top) && n1 >= 1 && n2 >= 1
    requires NextFit(free0, base, p0, n1, c1, p1) && Took(free0, free1, used0, used1, c1) && Canonical(free1)
    requires NextFit(free1, base, p1, n2, c2, p2)
    ensures exists j: nat ::
              && j < |free0| && p1 == Node(free0, base, j) && n1 <= free0[j].n
              && c1 == Chunk(free0[j].at + free0[j].n - n1, n1)
              && if free0[j].n - n1 >= n2 then c2 == Chunk(c1.at - n2, n2) && p2 == p1
                 else exists q: nat :: NextFit(free0, base, free0[j].at, n2, c2, q)
  {
    var k: nat, j: nat :| k <= |free0| && p0 == Node(free0, base, k) && AllSmall(free0, k, j, n1) && j < |free0|
      && free0[j].n >= n1 && c1 == Chunk(free0[j].at + free0[j].n - n1, n1) && p1 == Node(free0, base, j);
    CutIs(free0, used0, owned, base, top, j, n1, free1, used1);
    if free0[j].n - n1 >= n2 {
      assert AllSmall(free1, j, j, n2) && Node(free1, base, j) == p1;
      FitAt(free1, base, j, n2, c2, p2, j);
    } else {
      WalkOn(free0, base, j, n1, n2, c2, p2);
    }
  }

  lemma RegionFit(free: seq<Chunk>, used: set<Chunk>, base: nat, r: Chunk, n: nat, c: Chunk, prev: nat,
                  free1: seq<Chunk>, p1: nat)
    requires Gave(free, free1, used + {r}, used, r) && Before(free, base, r, p1) && NextFit(free1, base, p1, n, c, prev)
    ensures FitInRegion(free, used, base, r, n, c, prev)
  {
  }

  /**
   The walk of malloc: prevp and p are the nodes k and k + 1, and all nodes passed since freep = p0 were too small.
   */
  ghost predicate Walking(m: seq<Header>, base: nat, p0: nat, free: seq<Chunk>, used: set<Chunk>, owned: iset<nat>,
                          prevp: nat, p: nat, k0: nat, k: nat, n: nat) {
    && Good(m, base, p0, free, used, owned) && k0 <= |free| && k <= |free| && AllSmall(free, k0, k, n)
    && p0 == Node(free, base, k0) && prevp == Node(free, base, k) && p == Node(free, base, k + 1) && p < |m|
  }

  lemma WalkStart(m: seq<Header>, base: nat, p0: nat, free: seq<Chunk>, used: set<Chunk>, owned: iset<nat>, n: nat)
      returns (k0: nat)
    requires Good(m, base, p0, free, used, owned)
    ensures p0 < |m| && m[p0].ptr < |m| && Walking(m, base, p0, free, used, owned, p0, m[p0].ptr, k0, k0, n)
  {
    k0 :| k0 <= |free| && p0 == Node(free, base, k0);
    NodeHeader(m, base, p0, free, used, owned, k0);
    NodeHeader(m, base, p0, free, used, owned, Next(free, k0));
  }

  /** What each look at the next node brings: a fit, the end of the round, or one step. */
  lemma WalkStep(m: seq<Header>, base: nat, p0: nat, free: seq<Chunk>, used: set<Chunk>, owned: iset<nat>,
                 prevp: nat, p: nat, k0: nat, k: nat, n: nat)
    requires Walking(m, base, p0, free, used, owned, prevp, p, k0, k, n) && n >= 1
    ensures Good(m, base, p0, free, used, owned)
    ensures m[p].size >= n ==>
              && k < |free| && p == free[k].at && free[k].n >= n && prevp == Node(free, base, k) && Some(free, n)
              && NextFit(free, base, p0, n, Chunk(free[k].at + free[k].n - n, n), prevp)
    ensures m[p].size < n && p == p0 ==> !Some(free, n)
    ensures m[p].size < n && p != p0 ==>
              && Walking(m, base, p0, free, used, owned, p, m[p].ptr, k0, Next(free, k), n)
              && m[p].ptr < |m| && 0 <= Left(|free|, k0, Next(free, k)) < Left(|free|, k0, k)
  {
    var next := Next(free, k);
    NodeHeader(m, base, p0, free, used, owned, next);
    NodeHeader(m, base, p0, free, used, owned, Next(free, next));
    NextNode(free, base, k, n);
    PassOn(free, k0, k, n);
    hide Good, NextFit, AllSmall, Some;
    if m[p].size >= n {
      FoundFit(free, base, k0, k, n, Chunk(free[k].at + free[k].n - n, n));
    }
  }

  lemma SituationStart(free: seq<Chunk>, used: set<Chunk>, owned: iset<nat>, r: Chunk, n: nat)
    ensures Situation(free, used, owned, free, used, owned, false, r, n)
    ensures free == [] ==> !Some(free, n)
  {
  }

  lemma SituationGrown(free: seq<Chunk>, used: set<Chunk>, owned: iset<nat>, free': seq<Chunk>, used': set<Chunk>,
                       r: Chunk, n: nat, base: nat, top: nat)
    requires Situation(free, used, owned, free, used', owned, false, r, n) && !Some(free, n) && Some(free', n)
    requires RegionOk(r.at, r.n, base, top, owned) && Gave(free, free', used + {r}, used', r)
    ensures Situation(free, used, owned, free', used', owned + Units(r), true, r, n)
  {
    assert r == Chunk(r.at, r.n);
  }

  lemma SameDataStart(used: set<Chunk>, m: seq<Header>)
    ensures SameData(used, m, m)
  {
  }

  /** No block is at address 0. */
  lemma NodePositiveHere(m: seq<Header>, base: nat, p: nat, free: seq<Chunk>, used: set<Chunk>, owned: iset<nat>,
                         k: nat)
    requires Good(m, base, p, free, used, owned) && k < |free|
    ensures free[k].at > 0
  {
    assert Fits(free[k], base, |m|);
  }

  lemma SameDataThen(used: set<Chunk>, m: seq<Header>, m1: seq<Header>, m2: seq<Header>)
    requires SameData(used, m, m1) && SameData(used, m1, m2)
    ensures SameData(used, m, m2)
  {
  }

  /** The heap of one program, inside its address space. */
  class Heap {
    const mem: array<Header>
    const base: nat
    var freep: nat              // 0 until the first malloc
    ghost var free: seq<Chunk>
    ghost var used: set<Chunk>
    ghost var owned: iset<nat>  // the units sbrk has given

    ghost predicate Valid()
      reads this, mem
    {
      && 0 < base < mem.Length <= SPACE
      && if freep == 0 then free == [] && used == {}
          && owned == iset{} else Good(mem[..], base, freep, free, used, owned)
    }

    constructor (mem: array<Header>, base: nat)
      requires 0 < base < mem.Length <= SPACE
      ensures Valid() && freep == 0 && used == {} && owned == iset{}
      ensures this.mem == mem && this.base == base
    {
      this.mem := mem;
      this.base := base;
      freep := 0;
      free := [];
      used := {};
      owned := iset{};
    }

    /** The loop of free: on from freep to the gap for the block bp. */
    method Search(bp: nat, ghost c: Chunk, ghost g: nat) returns (p: nat)
      requires Valid() && freep != 0 && c in used && bp == c.at && Gap(free, g, c)
      ensures p == Node(free, base, g)
    {
      ghost var k: nat :| k <= |free| && freep == Node(free, base, k);
      assert Above(free, base);
      p := freep;
      assert LinkedAt(mem[..], free, base, k);
      StopsAtGap(free, base, g, c, k);
      while !(bp > p && bp < mem[p].ptr)
        invariant k <= |free| && p == Node(free, base, k) && LinkedAt(mem[..], free, base, k)
        invariant bp > p && bp < mem[p].ptr ==> k == g
        decreases if k <= g then g - k else |free| + 1 - k + g
      {
        StopsAtGap(free, base, g, c, k);
        if p >= mem[p].ptr && (bp > p || bp < mem[p].ptr) {
          break;
        }
        p := mem[p].ptr;
        k := if k == |free| then 0 else k + 1;
        assert LinkedAt(mem[..], free, base, k);
        StopsAtGap(free, base, g, c, k);
      }
    }

    /** The two ifs of free: the freed block b joins the list after p. */
    method Join(p: nat, b: nat)
      requires p < mem.Length && b < mem.Length && p != b && mem[p].ptr < mem.Length
      modifies mem
      ensures mem[..] == Freed(old(mem[..]), p, b)
    {
      var q := mem[p].ptr;
      if b + mem[b].size == q {
        mem[b] := Header(mem[q].ptr, mem[b].size + mem[q].size);
      } else {
        mem[b] := Header(q, mem[b].size);
      }
      if p + mem[p].size == b {
        mem[p] := Header(mem[b].ptr, mem[p].size + mem[b].size);
      } else {
        mem[p] := Header(b, mem[p].size);
      }
    }

    method Free(ap: nat, ghost c: Chunk)
      requires Valid() && freep != 0 && c in used && ap == c.at + 1
      modifies this`freep, this`free, this`used, mem
      ensures Valid() && freep != 0 && owned == old(owned)
      ensures Gave(old(free), free, old(used), used, c)
      ensures Before(old(free), base, c, freep)
      ensures SameData(used, old(mem[..]), mem[..])
    {
      var bp := ap - 1;
      ghost var g := GapInLayout(free, used, owned, base, mem.Length, c);
      var p := Search(bp, c, g);
      FreeGood(mem[..], base, freep, free, used, owned, c, g);
      NodePositive(free, used, base, mem.Length, g);
      hide Good, Gave, SameData, Insert;
      Join(p, bp);
      freep, free, used := p, Insert(free, g, c), used - {c};
    }
  
    /** Block p, the node after prevp, leaves the list. */
    method TakeWhole(prevp: nat, p: nat, ghost j: nat)
      requires Valid() && freep != 0 && j < |free| && prevp == Node(free, base, j) && p == free[j].at
      modifies this`free, mem
      ensures Taken(old(mem[..]), mem[..], base, prevp, old(free), free, used, owned, old(free)[j])
    {
      TakeGood(mem[..], base, freep, free, used, owned, j);
      hide Good, Taken, Node;
      mem[prevp] := mem[prevp].(ptr := mem[p].ptr);
      free := free[..j] + free[j + 1..];
    }

    /** Block p0 loses its last nunits units, which become the block p. */
    method TakeTail(p0: nat, nunits: nat, ghost j: nat) returns (p: nat)
      requires Valid() && freep != 0 && j < |free| && p0 == free[j].at && 1 <= nunits < free[j].n
      modifies this`free, mem
      ensures p == p0 + old(free)[j].n - nunits
      ensures Taken(old(mem[..]), mem[..], base, Node(old(free), base, j), old(free), free, used, owned,
              Chunk(p, nunits))
    {
      hide Good, Taken, Node;
      SplitGood(mem[..], base, freep, free, used, owned, j, nunits);
      assert mem[p0].size == free[j].n && p0 + free[j].n - nunits < mem.Length;
      hide *;
      p := p0;
      mem[p] := mem[p].(size := mem[p].size - nunits);
      free := free[j := Chunk(p, mem[p].size)];
      p := p + mem[p].size;
      mem[p] := mem[p].(size := nunits);
    }

    /** The part of malloc that gives out block p, the node after prevp, once it is found to be big enough. */
    method Take(prevp: nat, p0: nat, nunits: nat, ghost j: nat) returns (ap: nat, ghost c: Chunk)
      requires Valid() && freep != 0 && j < |free| && 1 <= nunits <= free[j].n
      requires prevp == Node(free, base, j) && p0 == free[j].at
      modifies this`freep, this`free, this`used, mem
      ensures Valid() && freep != 0 && owned == old(owned)
      ensures ap == c.at + 1 && c == Chunk(old(free)[j].at + old(free)[j].n - nunits, nunits)
      ensures Took(old(free), free, old(used), used, c) && freep == prevp
      ensures SameData(old(used), old(mem[..]), mem[..])
    {
      var p := p0;
      NodePositive(free, used, base, mem.Length, j);
      assert LinkedAt(mem[..], free, base, j + 1);
      c := Chunk(free[j].at + free[j].n - nunits, nunits);
      if mem[p].size == nunits {
        TakeWhole(prevp, p, j);
      } else {
        p := TakeTail(p, nunits, j);
      }
      hide Good, Took, SameData, Node;
      used := used + {c};
      freep := prevp;
      return p + 1, c;
    }

    /** morecore, where sbrk answers brk, or fails if that is negative. */
    method Morecore(nu0: nat, brk: int) returns (p: nat)
      requires Valid() && freep != 0 && (brk >= 0 ==> RegionOk(brk, Grown(nu0), base, mem.Length, owned))
      modifies this, mem
      ensures Valid() && freep != 0 && used == old(used)
      ensures brk < 0 ==>
                p == 0 && freep == old(freep) && free == old(free) && owned == old(owned) && mem[..] == old(mem[..])
      ensures brk >= 0 ==> p == freep && owned == old(owned) + Units(Chunk(brk, Grown(nu0))) && Some(free, nu0)
      ensures brk >= 0 ==> Gave(old(free), free, used + {Chunk(brk, Grown(nu0))}, used, Chunk(brk, Grown(nu0)))
      ensures brk >= 0 ==> Before(old(free), base, Chunk(brk, Grown(nu0)), freep)
      ensures SameData(used, old(mem[..]), mem[..])
    {
      var nu := nu0;
      if nu < MINUNITS {
        nu := MINUNITS;
      }
      if brk < 0 {
        return 0;
      }
      ghost var c := Chunk(brk, nu);
      RegionGood(mem[..], base, freep, free, used, owned, brk, nu);
      mem[brk] := mem[brk].(size := nu);
      used := used + {c};
      owned := owned + Units(c);
      Free(brk + 1, c);
      RunIsInOneBlock(free, c);
      return freep;
    }
  
    /** malloc, where sbrk answers brk if it is asked, or fails if that is negative. */
    method Malloc(nbytes: nat, brk: int) returns (ap: nat, ghost c: Chunk)
      requires Valid() && nbytes <= 0x7FFF_FFF0
      requires brk >= 0 ==> RegionOk(brk, Grown(Nunits(nbytes)), base, mem.Length, owned)
      modifies this, mem
      ensures Valid() && freep != 0 && SameData(old(used), old(mem[..]), mem[..])
      ensures ap == 0 <==> !Some(old(free), Nunits(nbytes)) && brk < 0
      ensures owned ==
              if !Some(old(free), Nunits(nbytes)) && brk >= 0 then old(owned) + Units(Chunk(brk, Grown(Nunits(nbytes))))
              else old(owned)
      ensures ap == 0 ==>
                free == old(free) && used == old(used) && freep == if old(freep) == 0 then base else old(freep)
      ensures ap != 0 ==>
                ap == c.at + 1 && c.n == Nunits(nbytes)
                && Served(old(free), free, old(used), used, old(owned), owned, c)
      ensures Some(old(free), Nunits(nbytes)) ==> NextFit(old(free), base, old(freep), Nunits(nbytes), c, freep)
      ensures !Some(old(free), Nunits(nbytes)) && brk >= 0 ==>
                FitInRegion(old(free), old(used), base, Chunk(brk, Grown(Nunits(nbytes))), Nunits(nbytes), c, freep)
    {
      hide Good, Gave, Took, Served, SameData, Some, Situation, NextFit, RegionOk, Node, Nunits, Grown, Before,
           FitInRegion;
      var nunits := Nunits(nbytes);
      ghost var r := Chunk(if brk < 0 then 0 else brk, Grown(nunits));
      var prevp: nat := Start();
      SituationStart(free, used, owned, r, nunits);
      ghost var m := mem[..];
      var p;
      ghost var k, grown;
      prevp, p, k, grown := Walk(prevp, nunits, brk, r);
      SameDataThen(used, old(mem[..]), m, mem[..]);
      if p == 0 {
        return 0, r;
      }
      ghost var free1, p1 := free, freep;
      ap, c := Give(prevp, p, nunits, k, old(free), old(used), old(owned), old(mem[..]), grown, r);
      if grown {
        RegionFit(old(free), old(used), base, r, nunits, c, prevp, free1, p1);
      }
    }

    /** The loop of malloc: a big enough block p and the node before it, or 0. */
    method Walk(prevp0: nat, nunits: nat, brk: int, ghost r: Chunk)
        returns (prevp: nat, p: nat, ghost k: nat, ghost grown: bool)
      requires Valid() && freep != 0 && prevp0 == freep && nunits >= 1
      requires Situation(free, used, owned, free, used, owned, false, r, nunits)
      requires r == Chunk(if brk < 0 then 0 else brk, Grown(nunits))
               && (brk >= 0 ==> RegionOk(brk, Grown(nunits), base, mem.Length, owned))
      modifies this, mem
      ensures Valid() && freep != 0 && used == old(used) && SameData(used, old(mem[..]), mem[..])
      ensures p == 0 ==>
                brk < 0 && !Some(old(free), nunits) && free == old(free) && owned == old(owned) && freep == old(freep)
      ensures p != 0 ==>
                && k < |free| && nunits <= free[k].n && prevp == Node(free, base, k) && p == free[k].at
                && Some(free, nunits)
                && NextFit(free, base, freep, nunits, Chunk(free[k].at + free[k].n - nunits, nunits), prevp)
      ensures p != 0 ==> Situation(old(free), used, old(owned), free, used, owned, grown, r, nunits)
      ensures p != 0 ==> if grown then brk >= 0 && Before(old(free), base, r, freep)
                         else freep == old(freep) && free == old(free) && owned == old(owned)
    {
      hide Good, Gave, SameData, Some, Situation, Walking, NextFit, RegionOk, Node, Grown, Left, Next, Before;
      prevp, grown := prevp0, false;
      ghost var k0 := WalkStart(mem[..], base, freep, free, used, owned, nunits);
      SameDataStart(used, mem[..]);
      k := k0;
      p := mem[prevp].ptr;
      while true
        invariant Walking(mem[..], base, freep, free, used, owned, prevp, p, k0, k, nunits) && p < mem.Length
        invariant Situation(old(free), old(used), old(owned), free, used, owned, grown, r, nunits) && used == old(used)
        invariant if grown then brk >= 0 && Before(old(free), base, r, freep)
                  else freep == old(freep) && free == old(free) && owned == old(owned)
        invariant freep != 0 && 0 < base < mem.Length <= SPACE && SameData(used, old(mem[..]), mem[..])
        decreases if grown then 0 else 1, Left(|free|, k0, k)
      {
        WalkStep(mem[..], base, freep, free, used, owned, prevp, p, k0, k, nunits);
        if mem[p].size >= nunits {
          NodePositiveHere(mem[..], base, freep, free, used, owned, k);
          return;
        }
        if p == freep {
          ghost var m := mem[..];
          p := Refill(nunits, brk, old(free), old(owned), grown, r);
          SameDataThen(used, old(mem[..]), m, mem[..]);
          if p == 0 {
            return;
          }
          grown := true;
          k0 := WalkStart(mem[..], base, freep, free, used, owned, nunits);
          k := k0;
        } else {
          k := Next(free, k);
        }
        prevp := p;
        p := mem[p].ptr;
      }
    }

    /** Take, as what malloc as a whole has done since it was called. */
    method Give(prevp: nat, p: nat, nunits: nat, ghost k: nat, ghost free0: seq<Chunk>, ghost used0: set<Chunk>,
        ghost owned0: iset<nat>,
                ghost m0: seq<Header>, ghost grown: bool, ghost r: Chunk) returns (ap: nat, ghost c: Chunk)
      requires Valid() && freep != 0 && k < |free| && 1 <= nunits <= free[k].n && Some(free, nunits)
      requires prevp == Node(free, base, k) && p == free[k].at && SameData(used0, m0, mem[..])
      requires Situation(free0, used0, owned0, free, used, owned, grown, r, nunits)
      modifies this`freep, this`free, this`used, mem
      ensures Valid() && freep != 0 && owned == old(owned) && SameData(used0, m0, mem[..])
      ensures owned == (if grown then owned0 + Units(r) else owned0) && (grown <==> !Some(free0, nunits))
      ensures ap == c.at + 1 && c == Chunk(old(free)[k].at + old(free)[k].n - nunits, nunits)
      ensures Served(free0, free, used0, used, owned0, owned, c) && freep == prevp
      ensures grown ==> Gave(free0, old(free), used0 + {r}, used0, r)
    {
      ap, c := Take(prevp, p, nunits, k);
      ServedFrom(free0, used0, owned0, old(free), old(used), owned, grown, r, nunits, free, used, c);
      SameDataThen(used0, m0, old(mem[..]), mem[..]);
    }

    /** morecore as malloc calls it, when no free block fits. */
    method Refill(nunits: nat, brk: int, ghost free0: seq<Chunk>, ghost owned0: iset<nat>, ghost grown: bool,
        ghost r: Chunk) returns (p: nat)
      requires Valid() && freep != 0 && Situation(free0, used, owned0, free, used, owned, grown, r, nunits)
               && !Some(free, nunits)
      requires r == Chunk(if brk < 0 then 0 else brk, Grown(nunits))
               && (brk >= 0 ==> RegionOk(brk, Grown(nunits), base, mem.Length, owned0))
      modifies this, mem
      ensures Valid() && freep != 0 && used == old(used) && SameData(used, old(mem[..]), mem[..])
      ensures !grown && free0 == old(free) && !Some(free0, nunits)
      ensures p == 0 <==> brk < 0
      ensures p == 0 ==> free == old(free) && owned == old(owned) && freep == old(freep)
      ensures p != 0 ==> Before(free0, base, r, freep)
      ensures p != 0 ==> p == freep && Situation(free0, used, owned0, free, used, owned, true, r, nunits)
    {
      p := Morecore(nunits, brk);
      if p != 0 {
        SituationGrown(old(free), used, old(owned), free, used, r, nunits, base, mem.Length);
      }
    }

    /** malloc's first lines: on the first call the list is made of base alone. */
    method Start() returns (prevp: nat)
      requires Valid()
      modifies this`freep, mem
      ensures Valid() && freep != 0 && prevp == freep
      ensures if old(freep) == 0 then free == [] && freep == base else freep == old(freep)
      ensures SameData(used, old(mem[..]), mem[..])
    {
      prevp := freep;
      if prevp == 0 {
        FirstGood(mem[..], base);
        mem[base] := Header(base, 0);
        freep := base;
        prevp := base;
      }
    }
  }
}
