/**
 All of physical memory (kernel/kalloc.c, kernel/vm.c): the address spaces of all processes, the list of free pages,
 and the pages that kalloc gave to others (kernel stacks, pipes). Each operation on one address space is seen with the
 others.
 */
module Memory {
  import opened Vm

  /**
   Every page above the kernel is free, or in exactly one address space, or among the rest; and memory holds the list
   and the address spaces.
   */
  ghost predicate Whole(m: seq<Frame>, free: seq<nat>, end: nat, spaces: map<nat, Space>, rest: set<nat>) {
    Linked(m, free, end) && SpacesOk(m, free, end, spaces) && AllDisjoint(spaces) && RestOk(free, end, spaces, rest)
        && Covered(free, end, spaces, rest)
  }

  ghost predicate SpacesOk(m: seq<Frame>, free: seq<nat>, end: nat, spaces: map<nat, Space>) {
    forall i :: i in spaces ==> Good(m, spaces[i], end) && Apart(spaces[i], free)
  }

  ghost predicate AllDisjoint(spaces: map<nat, Space>) {
    forall i, j :: i in spaces && j in spaces && i != j ==> Disjoint(spaces[i], spaces[j])
  }

  ghost predicate RestOk(free: seq<nat>, end: nat, spaces: map<nat, Space>, rest: set<nat>) {
    (forall i :: i in spaces ==> Pages(spaces[i]) !! rest) && forall p :: p in rest ==> Usable(p, end) && p !in free
  }

  ghost predicate Covered(free: seq<nat>, end: nat, spaces: map<nat, Space>, rest: set<nat>) {
    forall p: nat :: Usable(p, end) ==> p in free || p in rest || Owned(spaces, p)
  }

  ghost predicate Disjoint(a: Space, b: Space) {
    Pages(a) !! Pages(b)
  }

  ghost predicate Owned(spaces: map<nat, Space>, p: nat) {
    exists i :: i in spaces && p in Pages(spaces[i])
  }

  /** The pages of an address space that there may be. */
  ghost function PagesAt(spaces: map<nat, Space>, i: nat): set<nat> {
    if i in spaces then Pages(spaces[i]) else {}
  }

  /** Nothing that belongs to anybody but process i changes, be it of the user's memory or of the tables. */
  ghost predicate OthersKeep(m: seq<Frame>, m': seq<Frame>, spaces: map<nat, Space>, rest: set<nat>, i: nat) {
    && |m'| == |m|
    && (forall j, p: nat :: j in spaces && j != i && p in Pages(spaces[j]) && p < |m| ==> m'[p] == m[p])
    && (forall p: nat :: p in rest && p < |m| ==> m'[p] == m[p])
  }

  /** Pages went between the list and process i, except for some that were lost. */
  ghost predicate Turned(m: seq<Frame>, m': seq<Frame>, free: seq<nat>, free': seq<nat>, a: set<nat>, b: set<nat>,
      lost: set<nat>) {
    && FreeSet(free') + b + lost == FreeSet(free) + a && FreeSet(free') !! lost && b !! lost
    && Same(m, m', a + FreeSet(free))
  }

  lemma PagesUsable(sp: Space, end: nat)
    requires Shape(sp, end)
    ensures forall p :: p in Pages(sp) ==> Usable(p, end)
  {
  }

  /** What process i does leaves the other address spaces where and as they are. */
  lemma OthersStay(m: seq<Frame>, m': seq<Frame>, free: seq<nat>, free': seq<nat>, end: nat, spaces: map<nat, Space>,
      rest: set<nat>,
                   i: nat, b: set<nat>, lost: set<nat>, j: nat)
    requires Whole(m, free, end, spaces, rest) && Turned(m, m', free, free', PagesAt(spaces, i), b, lost)
    requires j in spaces && j != i
    ensures Good(m', spaces[j], end) && Apart(spaces[j], free') && Pages(spaces[j]) !! b && Pages(spaces[j]) !! lost
    ensures forall p: nat :: p in Pages(spaces[j]) && p < |m| ==> p < |m'| && m'[p] == m[p]
  {
    hide Linked, Holds, Shape, Pages;
    var sp := spaces[j];
    assert i in spaces ==> Disjoint(spaces[i], sp);
    forall p | p in Pages(sp)
      ensures p !in PagesAt(spaces, i) + FreeSet(free)
    {
    }
    TablesIn(sp);
    PagesUsable(sp, end);
    HoldsElsewhere(m, m', sp, end);
  }

  lemma TablesIn(sp: Space)
    ensures sp.dir in Pages(sp) && forall i :: i in sp.tabs ==> sp.tabs[i] in Pages(sp)
  {
  }

  /** The address spaces after process i has got sp, or has none any more. */
  ghost function Replaced(spaces: map<nat, Space>, i: nat, has: bool, sp: Space): map<nat, Space> {
    if has then spaces[i := sp] else spaces - {i}
  }

  /** A turn keeps the whole in order, with the lost pages among the rest. */
  lemma TurnKeeps(m: seq<Frame>, m': seq<Frame>, free: seq<nat>, free': seq<nat>, end: nat, spaces: map<nat, Space>,
      rest: set<nat>,
                  i: nat, has: bool, sp: Space, lost: set<nat>)
    requires Whole(m, free, end, spaces, rest) && Linked(m', free', end)
    requires Turned(m, m', free, free', PagesAt(spaces, i), if has then Pages(sp) else {}, lost)
    requires has ==> Good(m', sp, end) && Apart(sp, free')
    ensures Whole(m', free', end, Replaced(spaces, i, has, sp), rest + lost) && OthersKeep(m, m', spaces, rest, i)
  {
    var b, t := if has then Pages(sp) else {}, Replaced(spaces, i, has, sp);
    RestStays(m, m', free, free', end, spaces, rest, i, b, lost);
    hide Linked, Good, Pages, Turned, Usable, Whole, SpacesOk, AllDisjoint, RestOk, Covered;
    forall j | j in spaces && j != i
      ensures Good(m', spaces[j], end) && Apart(spaces[j], free') && Pages(spaces[j]) !! b && Pages(spaces[j]) !! lost
      ensures forall p: nat :: p in Pages(spaces[j]) && p < |m| ==> p < |m'| && m'[p] == m[p]
    {
      OthersStay(m, m', free, free', end, spaces, rest, i, b, lost, j);
    }
    forall p: nat | Usable(p, end)
      ensures p in free' || p in rest + lost || Owned(t, p)
    {
      StillSomewhere(m, m', free, free', end, spaces, rest, i, has, sp, lost, p);
    }
    Together(m, m', free, free', end, spaces, rest, i, has, sp, lost);
    SameSizes(m, m', free, free', PagesAt(spaces, i), b, lost);
  }

  lemma SameSizes(m: seq<Frame>, m': seq<Frame>, free: seq<nat>, free': seq<nat>, a: set<nat>, b: set<nat>,
      lost: set<nat>)
    requires Turned(m, m', free, free', a, b, lost)
    ensures |m'| == |m|
  {
  }

  /** The parts of Whole after the turn. */
  lemma Together(m: seq<Frame>, m': seq<Frame>, free: seq<nat>, free': seq<nat>, end: nat, spaces: map<nat, Space>,
      rest: set<nat>,
                 i: nat, has: bool, sp: Space, lost: set<nat>)
    requires Whole(m, free, end, spaces, rest) && Linked(m', free', end)
    requires has ==> Good(m', sp, end) && Apart(sp, free') && Pages(sp) !! lost && Pages(sp) !! rest
    requires forall j :: j in spaces && j != i ==>
             Good(m', spaces[j], end) && Apart(spaces[j], free') && Pages(spaces[j]) !! lost
    requires has ==> forall j :: j in spaces && j != i ==> Disjoint(spaces[j], sp)
    requires rest !! FreeSet(free') && forall p :: p in lost ==> Usable(p, end) && p !in free'
    requires forall p: nat :: Usable(p, end) ==>
             p in free' || p in rest + lost || Owned(Replaced(spaces, i, has, sp), p)
    ensures Whole(m', free', end, Replaced(spaces, i, has, sp), rest + lost)
  {
    hide Linked, Good, Pages, Usable, Apart;
    var t := Replaced(spaces, i, has, sp);
    assert forall j :: j in t && j != i ==> j in spaces && t[j] == spaces[j];
    forall j, k | j in t && k in t && j != k
      ensures Disjoint(t[j], t[k])
    {
      if j != i && k != i {
        assert Disjoint(spaces[j], spaces[k]);
      }
    }
    assert RestOk(free', end, t, rest + lost) by {
      forall j | j in t
        ensures Pages(t[j]) !! rest + lost
      {
      }
    }
  }

  lemma RestStays(m: seq<Frame>, m': seq<Frame>, free: seq<nat>, free': seq<nat>, end: nat, spaces: map<nat, Space>,
      rest: set<nat>,
                  i: nat, b: set<nat>, lost: set<nat>)
    requires Whole(m, free, end, spaces, rest) && Turned(m, m', free, free', PagesAt(spaces, i), b, lost)
    ensures rest !! b && rest !! lost && rest !! FreeSet(free')
    ensures forall p :: p in lost ==> Usable(p, end) && p !in free'
    ensures forall p: nat :: p in rest && p < |m| ==> p < |m'| && m'[p] == m[p]
  {
    hide Good, Pages, Holds, Owned;
    forall p | p in rest
      ensures p !in FreeSet(free) + PagesAt(spaces, i)
    {
    }
    forall p | p in lost
      ensures Usable(p, end) && p !in free'
    {
      assert p in FreeSet(free) + PagesAt(spaces, i) && p !in FreeSet(free');
      if p in FreeSet(free) {
        FreeUsable(m, free, end, p);
      } else {
        SpaceUsable(m, spaces[i], end);
      }
    }
  }

  lemma FreeUsable(m: seq<Frame>, free: seq<nat>, end: nat, p: nat)
    requires Linked(m, free, end) && p in free
    ensures Usable(p, end)
  {
  }

  lemma SpaceUsable(m: seq<Frame>, sp: Space, end: nat)
    requires Good(m, sp, end)
    ensures forall p :: p in Pages(sp) ==> Usable(p, end)
  {
    hide Holds;
    PagesUsable(sp, end);
  }

  lemma StillSomewhere(m: seq<Frame>, m': seq<Frame>, free: seq<nat>, free': seq<nat>, end: nat, spaces: map<nat,
      Space>, rest: set<nat>,
                       i: nat, has: bool, sp: Space, lost: set<nat>, p: nat)
    requires Whole(m, free, end, spaces, rest) && Usable(p, end)
    requires Turned(m, m', free, free', PagesAt(spaces, i), if has then Pages(sp) else {}, lost)
    ensures p in free' || p in rest + lost || Owned(Replaced(spaces, i, has, sp), p)
  {
    hide Good, Pages, Linked, Usable, Same;
    var t := Replaced(spaces, i, has, sp);
    if p !in rest {
      if j :| j in spaces && j != i && p in Pages(spaces[j]) {
        assert j in t && p in Pages(t[j]);
      } else {
        assert p in FreeSet(free) + PagesAt(spaces, i);
        assert p in FreeSet(free') || p in lost || (has && p in Pages(t[i]));
      }
    }
  }

  /** kalloc and kfree by others: a page moves between the list and the rest. */
  lemma PageMoves(m: seq<Frame>, m': seq<Frame>, free: seq<nat>, free': seq<nat>, end: nat, spaces: map<nat, Space>,
      rest: set<nat>, rest': set<nat>)
    requires Whole(m, free, end, spaces, rest) && Linked(m', free', end)
    requires FreeSet(free') + rest' == FreeSet(free) + rest && FreeSet(free') !! rest'
             && Same(m, m', FreeSet(free) + rest)
    ensures Whole(m', free', end, spaces, rest')
    ensures forall i, p: nat :: i in spaces && p in Pages(spaces[i]) && p < |m| ==> p < |m'| && m'[p] == m[p]
  {
    hide Linked, Shape, Holds, Pages, Usable;
    forall i | i in spaces
      ensures Good(m', spaces[i], end) && Apart(spaces[i], free') && Pages(spaces[i]) !! rest'
      ensures forall p: nat :: p in Pages(spaces[i]) && p < |m| ==> p < |m'| && m'[p] == m[p]
    {
      forall p | p in Pages(spaces[i])
        ensures p !in FreeSet(free) + rest
      {
      }
      TablesIn(spaces[i]);
      SpaceUsable(m, spaces[i], end);
      SpaceStays(m, m', spaces[i], end, FreeSet(free) + rest);
    }
    forall p | p in rest'
      ensures Usable(p, end)
    {
      assert p in FreeSet(free) + rest;
      if p in free {
        FreeUsable(m, free, end, p);
      }
    }
    forall p: nat | Usable(p, end)
      ensures p in free' || p in rest' || Owned(spaces, p)
    {
      if p in free || p in rest {
        assert p in FreeSet(free') + rest';
      }
    }
  }

  lemma SpaceStays(m: seq<Frame>, m': seq<Frame>, sp: Space, end: nat, where: set<nat>)
    requires Good(m, sp, end) && Same(m, m', where) && Pages(sp) !! where
    ensures Good(m', sp, end)
  {
    TablesIn(sp);
    PagesUsable(sp, end);
    hide Pages, Shape, Holds, Usable;
    HoldsElsewhere(m, m', sp, end);
  }

  /**
   The machine with the address spaces of all processes. others: pages that kalloc gave away; lost: those nobody has.
   */
  class System {
    const mc: Machine
    ghost var spaces: map<nat, Space>
    ghost var others: set<nat>
    ghost var lost: set<nat>

    ghost predicate Valid()
      reads this, mc, mc.mem
    {
      mc.Valid() && Whole(mc.mem[..], mc.free, mc.end, spaces, others + lost) && others !! lost
    }

    constructor (mem: array<Frame>, end: nat)
      requires mem.Length == NPAGES && 0 < end < NPAGES
      modifies mem
      ensures Valid() && spaces == map[] && others == lost == {}
    {
      mc := new Machine.Kinit(mem, end);
      spaces, others, lost := map[], {}, {};
    }

    method Kalloc() returns (p: nat)
      requires Valid()
      modifies this`others, mc`freelist, mc`free
      ensures Valid() && (p == 0 <==> old(mc.free) == []) && others == if p == 0 then old(others) else old(others) + {p}
      ensures p != 0 ==> p !in old(others)
    {
      hide Linked, Whole;
      ghost var f := mc.free;
      p := mc.Kalloc();
      if p != 0 {
        others := others + {p};
      }
      assert f != [] ==> f == [f[0]] + f[1..];
      RestIs(mc.mem[..], f, mc.end, spaces, old(others) + lost);
      PageMoves(mc.mem[..], mc.mem[..], f, mc.free, mc.end, spaces, old(others) + lost, others + lost);
    }

    method Kfree(p: nat)
      requires Valid() && p in others
      modifies this`others, mc`freelist, mc`free, mc.mem
      ensures Valid() && others == old(others) - {p}
    {
      hide Linked, Whole;
      ghost var f, m := mc.free, mc.mem[..];
      RestIs(m, f, mc.end, spaces, others + lost);
      mc.Kfree(p);
      others := others - {p};
      PageMoves(m, mc.mem[..], f, mc.free, mc.end, spaces, old(others) + lost, others + lost);
    }

    /** One system call's worth of change for process i: its address space is sp from now on, or it has none. */
    ghost method Settle(i: nat, has: bool, sp: Space, gone: set<nat>, f: seq<nat>, m: seq<Frame>)
      requires mc.Valid() && Whole(m, f, mc.end, spaces, others + lost) && others !! lost
      requires Turned(m, mc.mem[..], f, mc.free, PagesAt(spaces, i), if has then Pages(sp) else {}, gone)
               && gone !! others
      requires has ==> mc.Has(sp)
      modifies this`spaces, this`lost
      ensures Valid() && spaces == Replaced(old(spaces), i, has, sp) && lost == old(lost) + gone
      ensures OthersKeep(m, mc.mem[..], old(spaces), others + old(lost), i)
    {
      hide Linked, Whole, Turned, Good, Apart, Pages, OthersKeep, Replaced;
      TurnKeeps(m, mc.mem[..], f, mc.free, mc.end, spaces, others + lost, i, has, sp, gone);
      spaces, lost := Replaced(spaces, i, has, sp), lost + gone;
      assert others + old(lost) + gone == others + lost;
    }

    ghost method Exchange(i: nat, sp: Space, f: seq<nat>, m: seq<Frame>)
      requires mc.Valid() && Whole(m, f, mc.end, spaces, others + lost) && others !! lost && i in spaces
      requires Exchanged(spaces[i], sp, f, mc.free, m, mc.mem[..]) && mc.Has(sp)
      modifies this`spaces, this`lost
      ensures Valid() && spaces == old(spaces)[i := sp] && lost == old(lost)
      ensures OthersKeep(m, mc.mem[..], old(spaces), others + old(lost), i)
    {
      hide Linked, Whole, Good, Apart, Pages, OthersKeep, Exchanged, Turned, PagesAt;
      ExchangedTurns(spaces, i, sp, f, mc.free, m, mc.mem[..]);
      Settle(i, true, sp, {}, f, m);
    }

    /**
     setupkvm for a process that has no address space: the one operation that can lose pages, exactly when it fails.
     */
    method Setupkvm(i: nat, data: nat) returns (pgdir: nat)
      requires Valid() && i !in spaces && IOEND < data < NPAGES
      modifies this`spaces, this`lost, mc`freelist, mc`free, mc.mem
      ensures Valid() && (pgdir == 0 <==> |old(mc.free)| < SETUP)
      ensures OthersKeep(old(mc.mem[..]), mc.mem[..], old(spaces), others + old(lost), i)
      ensures lost == old(lost) + if pgdir == 0 then FreeSet(old(mc.free)) else {}
      ensures pgdir == 0 ==> spaces == old(spaces)
      ensures pgdir != 0 ==>
              i in spaces && spaces == old(spaces)[i := spaces[i]] && spaces[i].dir == pgdir
              && KernelOnly(spaces[i], data)
    {
      hide Linked, Whole, Good, Apart, KernelOnly, OthersKeep;
      ghost var f, m, sp := mc.free, mc.mem[..], Bare(0);
      RestIs(m, f, mc.end, spaces, others + lost);
      pgdir, sp := mc.Setupkvm(data);
      Settle(i, pgdir != 0, sp, if pgdir == 0 then FreeSet(f) else {}, f, m);
    }

    method Allocuvm(i: nat, dir: nat, oldsz: nat, newsz: nat) returns (r: nat)
      requires Valid() && i in spaces && dir == spaces[i].dir && oldsz <= USERTOP && 0 in spaces[i].tabs
      requires forall u :: u in spaces[i].user ==> !(RoundUp(oldsz) <= u < RoundUp(newsz))
      modifies this`spaces, this`lost, mc`freelist, mc`free, mc.mem
      ensures Valid() && lost == old(lost) && i in spaces && spaces == old(spaces)[i := spaces[i]]
      ensures OthersKeep(old(mc.mem[..]), mc.mem[..], old(spaces), others + old(lost), i)
      ensures oldsz <= newsz <= USERTOP && r != 0 ==>
              Extended(old(spaces)[i], spaces[i], RoundUp(oldsz), RoundUp(newsz))
      ensures oldsz <= newsz <= USERTOP ==> r == if |old(mc.free)| >= RoundUp(newsz) - RoundUp(oldsz) then newsz else 0
      ensures r != newsz ==> spaces == old(spaces)
    {
      hide Linked, Whole, Good, Apart, OthersKeep, Extended, Gave, Zeroed, Exchanged, Pages;
      ghost var f, m, sp := mc.free, mc.mem[..], spaces[i];
      SpaceOf(m, f, mc.end, spaces, others + lost, i);
      r, sp := mc.Allocuvm(dir, oldsz, newsz, sp);
      if Gave(sp, spaces[i], mc.free, f, mc.mem[..], m) {
        GaveExchanges(sp, spaces[i], mc.free, f, mc.mem[..], m);
      } else {
        SameExchanges(spaces[i], f, mc.free, m, mc.mem[..]);
      }
      Exchange(i, sp, f, m);
    }

    method Deallocuvm(i: nat, dir: nat, oldsz: nat, newsz: nat) returns (r: nat)
      requires Valid() && i in spaces && dir == spaces[i].dir && oldsz <= USERTOP
      modifies this`spaces, this`lost, mc`freelist, mc`free, mc.mem
      ensures Valid() && lost == old(lost) && r == if newsz >= oldsz then oldsz else newsz
      ensures spaces == old(spaces)[i := if newsz >= oldsz then old(spaces)[i]
              else Without(old(spaces)[i], RoundUp(newsz), RoundUp(oldsz))]
      ensures OthersKeep(old(mc.mem[..]), mc.mem[..], old(spaces), others + old(lost), i)
    {
      hide Linked, Whole, Good, Apart, OthersKeep, Gave, Without, Exchanged, Pages;
      ghost var f, m, sp := mc.free, mc.mem[..], spaces[i];
      SpaceOf(m, f, mc.end, spaces, others + lost, i);
      r, sp := mc.Deallocuvm(dir, oldsz, newsz, sp);
      GaveExchanges(spaces[i], sp, f, mc.free, m, mc.mem[..]);
      Exchange(i, sp, f, m);
    }

    method Growproc(i: nat, dir: nat, sz: nat, n: int) returns (r: int, sz': nat)
      requires Valid() && i in spaces && dir == spaces[i].dir && sz <= USERTOP && UserIs(spaces[i], sz)
               && 0 in spaces[i].tabs
      requires -0x8000_0000 <= n < 0x8000_0000
      modifies this`spaces, this`lost, mc`freelist, mc`free, mc.mem
      ensures Valid() && lost == old(lost) && i in spaces && spaces == old(spaces)[i := spaces[i]]
      ensures OthersKeep(old(mc.mem[..]), mc.mem[..], old(spaces), others + old(lost), i)
      ensures UserIs(spaces[i], sz') <==> !(n < 0 && sz + n == 0)
      ensures n > 0 ==> (r == 0 <==> sz + n <= USERTOP && |old(mc.free)| >= RoundUp(sz + n) - RoundUp(sz))
    {
      hide Linked, Whole, Good, Apart, OthersKeep, UserIs, Exchanged, Pages;
      ghost var f, m, sp := mc.free, mc.mem[..], spaces[i];
      SpaceOf(m, f, mc.end, spaces, others + lost, i);
      r, sz', sp := mc.Growproc(dir, sz, n, sp);
      Exchange(i, sp, f, m);
    }

    method Freevm(i: nat, dir: nat)
      requires Valid() && i in spaces && dir == spaces[i].dir
      modifies this`spaces, this`lost, mc`freelist, mc`free, mc.mem
      ensures Valid() && lost == old(lost) && spaces == old(spaces) - {i}
      ensures OthersKeep(old(mc.mem[..]), mc.mem[..], old(spaces), others + old(lost), i)
    {
      hide Linked, Whole, Good, Apart, OthersKeep, AllGiven, Pages, Turned, PagesAt;
      ghost var f, m := mc.free, mc.mem[..];
      SpaceOf(m, f, mc.end, spaces, others + lost, i);
      mc.Freevm(dir, spaces[i]);
      GivenTurns(spaces, i, f, mc.free, m, mc.mem[..]);
      Settle(i, false, spaces[i], {}, f, m);
    }

    /** copyuvm of process i's memory for process j, as in fork. It can lose pages when setupkvm does. */
    method Copyuvm(i: nat, j: nat, dir: nat, sz: nat, data: nat) returns (d: nat)
      requires Valid() && i in spaces && j !in spaces && dir == spaces[i].dir && sz <= USERTOP && IOEND < data < NPAGES
      requires forall u :: 0 <= u < RoundUp(sz) ==> u in spaces[i].user
      modifies this`spaces, this`lost, mc`freelist, mc`free, mc.mem
      ensures Valid() && (d != 0 <==> |old(mc.free)| >= SETUP + RoundUp(sz))
      ensures OthersKeep(old(mc.mem[..]), mc.mem[..], old(spaces), others + old(lost), j)
      ensures lost == old(lost) + if |old(mc.free)| < SETUP then FreeSet(old(mc.free)) else {}
      ensures d == 0 ==> spaces == old(spaces)
      ensures d != 0 ==>
                j in spaces && spaces == old(spaces)[j := spaces[j]]
                && spaces[j].dir == d && UserIs(spaces[j], sz)
                         && CopyOf(mc.mem[..], spaces[j], old(mc.mem[..]), spaces[i], RoundUp(sz))
    {
      hide Linked, Whole, Good, Apart, OthersKeep, UserIs, CopyOf;
      ghost var f, m, sp := mc.free, mc.mem[..], Bare(0);
      SpaceOf(m, f, mc.end, spaces, others + lost, i);
      RestIs(m, f, mc.end, spaces, others + lost);
      d, sp := mc.Copyuvm(dir, sz, data, spaces[i]);
      Settle(j, d != 0, sp, if |f| < SETUP then FreeSet(f) else {}, f, m);
    }
  }

  lemma ExchangedTurns(spaces: map<nat, Space>, i: nat, sp: Space, f: seq<nat>, f': seq<nat>, m: seq<Frame>,
      m': seq<Frame>)
    requires i in spaces && Exchanged(spaces[i], sp, f, f', m, m')
    ensures Turned(m, m', f, f', PagesAt(spaces, i), Pages(sp), {})
  {
    hide Pages;
  }

  lemma GivenTurns(spaces: map<nat, Space>, i: nat, f: seq<nat>, f': seq<nat>, m: seq<Frame>, m': seq<Frame>)
    requires i in spaces && AllGiven(spaces[i], f, f', m, m')
    ensures Turned(m, m', f, f', PagesAt(spaces, i), {}, {})
  {
    hide Pages;
  }

  lemma RestIs(m: seq<Frame>, free: seq<nat>, end: nat, spaces: map<nat, Space>, rest: set<nat>)
    requires Whole(m, free, end, spaces, rest)
    ensures forall p :: p in rest ==> Usable(p, end) && p !in free
  {
  }

  lemma SpaceOf(m: seq<Frame>, free: seq<nat>, end: nat, spaces: map<nat, Space>, rest: set<nat>, i: nat)
    requires Whole(m, free, end, spaces, rest) && i in spaces
    ensures Good(m, spaces[i], end) && Apart(spaces[i], free)
  {
  }
}
