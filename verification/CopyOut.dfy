/**
 copyout and uva2ka (kernel/vm.c): bytes into the user memory of an address space that need not be the current one.
 */
module CopyOut {
  import opened Bytes
  import opened Vm

  /* The bytes of a word and of a page, low byte first */

  function ByteOf(w: nat, k: nat): byte {
    if k == 0 then w % 256 else ByteOf(w / 256, k - 1)
  }

  function WithByte(w: nat, k: nat, b: byte): nat {
    if k == 0 then w / 256 * 256 + b else WithByte(w / 256, k - 1, b) * 256 + w % 256
  }

  lemma {:induction false} WithByteAt(w: nat, k: nat, b: byte, j: nat)
    ensures ByteOf(WithByte(w, k, b), j) == if j == k then b else ByteOf(w, j)
  {
    var x := if k == 0 then w / 256 else WithByte(w / 256, k - 1, b);
    var l := if k == 0 then b else w % 256;
    assert WithByte(w, k, b) == x * 256 + l;
    Digits(x, l);
    ByteIs(w, j);
    ByteIs(x * 256 + l, j);
    hide ByteOf, WithByte;
    if k > 0 && j > 0 {
      WithByteAt(w / 256, k - 1, b, j - 1);
    }
  }

  lemma Digits(x: nat, l: byte)
    ensures (x * 256 + l) / 256 == x && (x * 256 + l) % 256 == l
  {
  }

  lemma ByteIs(w: nat, j: nat)
    ensures ByteOf(w, j) == if j == 0 then w % 256 else ByteOf(w / 256, j - 1)
  {
  }

  /** The byte at offset o of a page. */
  function PageByte(f: Frame, o: nat): byte
    requires o < PGSIZE
  {
    ByteOf(f[o / 4], o % 4)
  }

  function SetPageByte(f: Frame, o: nat, b: byte): Frame
    requires o < PGSIZE
  {
    f[o / 4 := WithByte(f[o / 4], o % 4, b)]
  }

  lemma SetPageByteAt(f: Frame, o: nat, b: byte, x: nat)
    requires o < PGSIZE && x < PGSIZE
    ensures PageByte(SetPageByte(f, o, b), x) == if x == o then b else PageByte(f, x)
  {
    hide ByteOf, WithByte;
    if x / 4 == o / 4 {
      WithByteAt(f[o / 4], o % 4, b, x % 4);
    }
  }

  /** A free page has forgotten what was in it: behind the pointer to the next one all its bytes are 1. */
  lemma FreeBytes(m: seq<Frame>, free: seq<nat>, end: nat, i: nat, o: nat)
    requires Linked(m, free, end) && i < |free| && 4 <= o < PGSIZE
    ensures PageByte(m[free[i]], o) == 1
  {
    assert Blank(m[free[i]]);
    assert ByteOf(JUNK, 0) == ByteOf(JUNK, 1) == ByteOf(JUNK, 2) == ByteOf(JUNK, 3) == 1;
  }

  /** memmove of s to offset o of page p. */
  method Memmove(mc: Machine, p: nat, o: nat, s: seq<byte>)
    requires p < mc.mem.Length && o + |s| <= PGSIZE
    modifies mc.mem
    ensures mc.mem[..] == old(mc.mem[..])[p := mc.mem[p]]
    ensures forall x :: 0 <= x < PGSIZE ==>
            PageByte(mc.mem[p], x) == if o <= x < o + |s| then s[x - o] else PageByte(old(mc.mem[p]), x)
  {
    hide PageByte, SetPageByte;
    var i := 0;
    while i < |s|
      invariant i <= |s| && mc.mem[..] == old(mc.mem[..])[p := mc.mem[p]]
      invariant forall x :: 0 <= x < PGSIZE ==>
                PageByte(mc.mem[p], x) == if o <= x < o + i then s[x - o] else PageByte(old(mc.mem[p]), x)
    {
      ghost var f := mc.mem[p];
      mc.mem[p] := SetPageByte(mc.mem[p], o + i, s[i]);
      forall x | 0 <= x < PGSIZE
        ensures PageByte(mc.mem[p], x) == if x == o + i then s[i] else PageByte(f, x)
      {
        SetPageByteAt(f, o + i, s[i], x);
      }
      i := i + 1;
    }
  }

  /* User memory */

  /** PTE_U */
  predicate ForUser(w: nat) { w / 4 % 2 == 1 }

  /** Entries of the kernel are not for the user. */
  ghost predicate KernelHidden(sp: Space) {
    forall v :: v in sp.kern ==> !ForUser(sp.kern[v])
  }

  /** So it is in what setupkvm makes. */
  lemma SetupHidesKernel(sp: Space, data: nat)
    requires KernelOnly(sp, data)
    ensures KernelHidden(sp)
  {
    forall v | v in sp.kern
      ensures !ForUser(sp.kern[v])
    {
      var perm := Perm(v, data);
      assert sp.kern[v] == v * 4096 + perm + 1;
    }
  }

  /** Address a is in the user's memory. */
  predicate Mapped(sp: Space, a: nat) {
    a / PGSIZE in sp.user
  }

  ghost function UserByte(m: seq<Frame>, sp: Space, a: nat): byte
    requires Mapped(sp, a) && sp.user[a / PGSIZE] < |m|
  {
    PageByte(m[sp.user[a / PGSIZE]], a % PGSIZE)
  }

  /** The user's memory after the first n bytes of s went to va on; the rest of it, and of memory, is as it was. */
  ghost predicate Copied(sp: Space, m0: seq<Frame>, m: seq<Frame>, va: nat, s: seq<byte>, n: nat)
    requires n <= |s|
  {
    && Same(m0, m, sp.user.Values)
    && (forall v :: v in sp.user ==> sp.user[v] < |m0|)
    && (forall a: nat :: va <= a < va + n ==> Mapped(sp, a))
    && (forall a: nat {:trigger UserByte(m, sp, a)} :: Mapped(sp, a) ==>
        UserByte(m, sp, a) == if va <= a < va + n then s[a - va] else UserByte(m0, sp, a))
  }

  lemma CopiedNone(sp: Space, m: seq<Frame>, va: nat, s: seq<byte>, end: nat)
    requires Good(m, sp, end)
    ensures Copied(sp, m, m, va, s, 0)
  {
  }

  /** Another piece, within page v. */
  lemma CopiedMore(sp: Space, m0: seq<Frame>, m: seq<Frame>, m': seq<Frame>, va: nat, s: seq<byte>, n: nat, k: nat,
      end: nat)
    requires Good(m, sp, end) && n + k <= |s| && Copied(sp, m0, m, va, s, n) && Mapped(sp, va + n)
             && (va + n) % PGSIZE + k <= PGSIZE
    requires var p := sp.user[(va + n) / PGSIZE];
             p < |m'| == |m| && m' == m[p := m'[p]]
             && forall x :: 0 <= x < PGSIZE ==>
                 PageByte(m'[p], x) == if (va + n) % PGSIZE <= x < (va + n) % PGSIZE + k
                 then s[n..n + k][x - (va + n) % PGSIZE] else PageByte(m[p], x)
    ensures Copied(sp, m0, m', va, s, n + k)
  {
    hide PageByte, Holds;
    var v, o := (va + n) / PGSIZE, (va + n) % PGSIZE;
    var p := sp.user[v];
    assert p in sp.user.Values;
    forall a: nat | va + n <= a < va + n + k
      ensures Mapped(sp, a)
    {
      SamePage(va + n, k, a);
    }
    forall a: nat | Mapped(sp, a)
      ensures UserByte(m', sp, a) == if va <= a < va + n + k then s[a - va] else UserByte(m0, sp, a)
    {
      SamePage(va + n, k, a);
      assert UserByte(m, sp, a) == if va <= a < va + n then s[a - va] else UserByte(m0, sp, a);
    }
  }

  /** The addresses from b to b + k are in one page. */
  lemma SamePage(b: nat, k: nat, a: nat)
    requires b % PGSIZE + k <= PGSIZE
    ensures b <= a < b + k <==> a / PGSIZE == b / PGSIZE && b % PGSIZE <= a % PGSIZE < b % PGSIZE + k
    ensures b <= a < b + k ==> a % PGSIZE - b % PGSIZE == a - b
  {
  }

  /** Tables and directory are as they were, and so is the list of free pages. */
  lemma CopiedGood(sp: Space, m: seq<Frame>, m': seq<Frame>, free: seq<nat>, end: nat)
    requires Good(m, sp, end) && Linked(m, free, end) && Apart(sp, free) && Same(m, m', sp.user.Values)
    ensures Good(m', sp, end) && Linked(m', free, end)
  {
    hide Holds;
    forall p | p in free && p < |m|
      ensures m'[p] == m[p]
    {
      assert p !in Pages(sp);
    }
    ElsewhereLinked(m, m', free, end);
    HoldsElsewhere(m, m', sp, end);
  }

  /** What uva2ka finds. NullPte: there is no page table, and it reads a page table entry through a null pointer. */
  datatype Ka = Ka(p: nat) | NotUser | NullPte

  /** uva2ka: the page of the user's virtual page v. */
  method Uva2ka(mc: Machine, dir: nat, v: nat, ghost sp: Space) returns (r: Ka)
    requires mc.Valid() && mc.Has(sp) && dir == sp.dir && v < WORDS * WORDS && KernelHidden(sp)
    modifies mc`freelist, mc`free, mc.mem
    ensures mc.Valid() && mc.Has(sp) && mc.free == old(mc.free) && mc.mem[..] == old(mc.mem[..])
    ensures r == if v / WORDS !in sp.tabs then NullPte else if v in sp.user then Ka(sp.user[v]) else NotUser
    ensures r.Ka? ==> 0 < r.p < NPAGES && v < USERPAGES
  {
    hide Linked, Holds, Apart, Took;
    var t, _ := mc.Walk(dir, v, false, sp);
    if t == 0 {
      return NullPte;
    }
    PteIs(mc.mem[..], sp, v, mc.end);
    UserFlag(sp, v);
    var pte := mc.mem[t][v % WORDS];
    if !Present(pte) || !ForUser(pte) {
      return NotUser;
    }
    return Ka(Page(pte));
  }

  lemma UserFlag(sp: Space, v: nat)
    ensures v in sp.user ==> ForUser(Pte(sp, v))
  {
  }

  /** What copyout returns: 0, -1, or nothing, when uva2ka has read through a null pointer. */
  datatype Return = All | Refused | NullRead

  /** copyout. n bytes are written, all of them or those before the first page that is not the user's. */
  method Copyout(mc: Machine, dir: nat, va: nat, p: seq<byte>, ghost sp: Space) returns (r: Return, ghost n: nat)
    requires mc.Valid() && mc.Has(sp) && dir == sp.dir && KernelHidden(sp) && va < PGSIZE * WORDS * WORDS
    modifies mc`freelist, mc`free, mc.mem
    ensures mc.Valid() && mc.Has(sp) && mc.free == old(mc.free)
    ensures n <= |p| && Copied(sp, old(mc.mem[..]), mc.mem[..], va, p, n)
    ensures r.All? <==> n == |p|
    ensures n < |p| ==> !Mapped(sp, va + n) && (r.NullRead? <==> (va + n) / PGSIZE / WORDS !in sp.tabs)
  {
    hide Linked, Holds, Apart, Shape, KernelHidden, Copied;
    CopiedNone(sp, mc.mem[..], va, p, mc.end);
    var a, buf, len := va, 0, |p|;
    n := 0;
    while len > 0
      invariant mc.Valid() && mc.Has(sp) && mc.free == old(mc.free) && a < PGSIZE * WORDS * WORDS
      invariant 0 <= len && 0 <= buf == n && buf + len == |p| && (len > 0 ==> a == va + buf)
      invariant Copied(sp, old(mc.mem[..]), mc.mem[..], va, p, n)
    {
      var va0 := a / PGSIZE;
      TableFirst(sp, va0, mc.mem[..], mc.end);
      var pa0 := Uva2ka(mc, dir, va0, sp);
      if pa0.NotUser? {
        return Refused, n;
      }
      if pa0.NullPte? {
        return NullRead, n;
      }
      var k := PGSIZE - (a - va0 * PGSIZE);
      if k > len {
        k := len;
      }
      ghost var m := mc.mem[..];
      Memmove(mc, pa0.p, a - va0 * PGSIZE, p[buf..buf + k]);
      CopiedMore(sp, old(mc.mem[..]), m, mc.mem[..], va, p, n, k, mc.end);
      WithinUser(sp, va0, m, mc.mem[..]);
      CopiedGood(sp, m, mc.mem[..], mc.free, mc.end);
      len, buf, a, n := len - k, buf + k, (va0 + 1) * PGSIZE, n + k;
    }
    r := All;
  }

  lemma TableFirst(sp: Space, v: nat, m: seq<Frame>, end: nat)
    requires Good(m, sp, end)
    ensures v in sp.user ==> v / WORDS in sp.tabs
  {
  }

  lemma WithinUser(sp: Space, v: nat, m: seq<Frame>, m': seq<Frame>)
    requires v in sp.user && |m'| == |m| && sp.user[v] < |m| && m' == m[sp.user[v] := m'[sp.user[v]]]
    ensures Same(m, m', sp.user.Values)
  {
    assert sp.user[v] in sp.user.Values;
  }
}
