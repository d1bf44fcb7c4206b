/**
 The lottery scheduler (A_xv6_patched/kernel/proc.c): who wins with which number, and what numbers random() yields.
 */
module LotteryScheduler {
  const NPROC := 64
  const INT_MAX := 0x7FFF_FFFF
  const WRAP := 0x1_0000_0000

  /** What the lottery reads of a struct proc. */
  datatype Proc = Proc(runnable: bool, tickets: int)

  /** A process has between 1 and INT_MAX tickets: allocproc gives 1, fork copies, sys_settickets refuses less. */
  ghost predicate Tickets(procs: seq<Proc>) {
    forall i :: 0 <= i < |procs| ==> 1 <= procs[i].tickets <= INT_MAX
  }

  /** The tickets of the RUNNABLE processes in the first n slots. */
  function Sum(procs: seq<Proc>, n: nat): (r: int)
    requires n <= |procs|
  {
    if n == 0 then 0 else Sum(procs, n - 1) + if procs[n - 1].runnable then procs[n - 1].tickets else 0
  }

  /** A sum as an int keeps it. */
  function Int32(x: int): (r: int)
    ensures -INT_MAX - 1 <= r <= INT_MAX
  {
    var w := x % WRAP;
    if w <= INT_MAX then w else w - WRAP
  }

  lemma Int32Adds(x: int, y: int)
    ensures Int32(Int32(x) + y) == Int32(x + y)
  {
    var w := Int32(x);
    assert w == x % WRAP || w == x % WRAP - WRAP;
    assert (w + y - (x + y)) % WRAP == 0;
    var k := (w - x) / WRAP;
    assert w == x + k * WRAP;
    SameMod(x + y, k);
  }

  lemma SameMod(x: int, k: int)
    ensures (x + k * WRAP) % WRAP == x % WRAP
  {
  }

  lemma {:induction false} SumGrows(procs: seq<Proc>, i: nat, j: nat)
    requires Tickets(procs) && i <= j <= |procs|
    ensures 0 <= Sum(procs, i) <= Sum(procs, j)
    ensures i < j && procs[i].runnable ==> Sum(procs, i) + procs[i].tickets <= Sum(procs, j)
    decreases j
  {
    if i < j {
      SumGrows(procs, i, j - 1);
    } else if j > 0 {
      SumGrows(procs, i - 1, j - 1);
    }
  }

  /** total_tickets, as the scheduler adds it up. */
  function Total(procs: seq<Proc>): int {
    Int32(Sum(procs, |procs|))
  }

  /** Slot i wins with the number w: its tickets are numbered on from those of the slots before it. */
  predicate Wins(procs: seq<Proc>, i: int, w: int) {
    0 <= i < |procs| && procs[i].runnable && Sum(procs, i) <= w < Sum(procs, i + 1)
  }

  /** With every number drawn exactly one slot wins. */
  lemma {:induction false} OneWinner(procs: seq<Proc>, w: int, n: nat) returns (i: int)
    requires Tickets(procs) && n <= |procs| && 0 <= w < Sum(procs, n)
    ensures 0 <= i < n && Wins(procs, i, w) && forall j :: Wins(procs, j, w) ==> j == i
    decreases n
  {
    SumGrows(procs, n - 1, n);
    if w < Sum(procs, n - 1) {
      i := OneWinner(procs, w, n - 1);
    } else {
      i := n - 1;
      forall j | Wins(procs, j, w)
        ensures j == i
      {
        if j < i {
          SumGrows(procs, j + 1, i);
        } else if j > i {
          SumGrows(procs, i + 1, j);
        }
      }
    }
  }

  /** All numbers that slot i wins with are below the total. */
  ghost predicate FullShare(procs: seq<Proc>, i: int) {
    0 <= i < |procs| && forall w :: Wins(procs, i, w) ==> 0 <= w < Total(procs)
  }

  /**
   The numbers below the total are the tickets, each once, if and only if the tickets of the RUNNABLE processes fit in
   an int.
   */
  lemma PartitionIff(procs: seq<Proc>)
    requires Tickets(procs)
    ensures (forall i :: 0 <= i < |procs| && procs[i].runnable ==> FullShare(procs, i)) <==>
            Sum(procs, |procs|) <= INT_MAX
  {
    var n := |procs|;
    SumGrows(procs, 0, n);
    if Sum(procs, n) <= INT_MAX {
      forall i | 0 <= i < n && procs[i].runnable
        ensures FullShare(procs, i)
      {
        SumGrows(procs, 0, i);
        SumGrows(procs, i + 1, n);
      }
    } else {
      var last := OneWinner(procs, Sum(procs, n) - 1, n);
      assert Total(procs) < Sum(procs, n);
      assert Wins(procs, last, Sum(procs, n) - 1);
    }
  }

  /** The numbers from lo to hi. */
  function Interval(lo: int, hi: int): (s: set<int>)
    ensures forall x :: x in s <==> lo <= x < hi
    decreases hi - lo
  {
    if lo < hi then Interval(lo, hi - 1) + {hi - 1} else {}
  }

  lemma {:induction false} IntervalSize(lo: int, hi: int)
    requires lo <= hi
    ensures |Interval(lo, hi)| == hi - lo
    decreases hi - lo
  {
    if lo < hi {
      IntervalSize(lo, hi - 1);
    }
  }

  /** A RUNNABLE slot wins with as many numbers as it has tickets. */
  lemma ShareSize(procs: seq<Proc>, i: nat, winning: set<int>)
    requires Tickets(procs) && i < |procs| && procs[i].runnable && forall w :: w in winning <==> Wins(procs, i, w)
    ensures |winning| == procs[i].tickets
  {
    assert winning == Interval(Sum(procs, i), Sum(procs, i + 1));
    IntervalSize(Sum(procs, i), Sum(procs, i + 1));
  }

  /* What can be drawn */

  const DRAWS := 32768   // random() returns less

  /** d % total is w for some value d of 15 bits. */
  ghost predicate Drawable(total: int, w: int)
    requires total > 0
  {
    exists d: nat :: d < DRAWS && d % total == w
  }

  ghost predicate FullyDrawn(procs: seq<Proc>, i: int)
    requires Total(procs) > 0
  {
    forall w :: Wins(procs, i, w) ==> Drawable(Total(procs), w)
  }

  /**
   If random() took all its 15-bit values, every process could win with each of its tickets if and only if the
   RUNNABLE processes have 32768 at most. It takes far fewer: see NeverDrawn.
   */
  lemma DrawnIff(procs: seq<Proc>)
    requires Tickets(procs) && Total(procs) > 0
    ensures (forall i :: 0 <= i < |procs| && procs[i].runnable ==> FullyDrawn(procs, i)) <==>
            Sum(procs, |procs|) <= DRAWS
  {
    var n, total := |procs|, Total(procs);
    TotalWithin(procs);
    if Sum(procs, n) <= DRAWS {
      forall i, w | 0 <= i < n && procs[i].runnable && Wins(procs, i, w)
        ensures Drawable(total, w)
      {
        SumGrows(procs, 0, i);
        SumGrows(procs, i + 1, n);
        SmallMod(w, total);
        assert w < DRAWS && w % total == w;
      }
    }
    if forall i :: 0 <= i < n && procs[i].runnable ==> FullyDrawn(procs, i) {
      var last := OneWinner(procs, Sum(procs, n) - 1, n);
      assert FullyDrawn(procs, last);
      var d: nat :| d < DRAWS && d % total == Sum(procs, n) - 1;
      ModWithin(d, total);
    }
  }

  lemma SmallMod(w: int, total: int)
    requires 0 <= w < total
    ensures w % total == w
  {
  }

  lemma ModWithin(d: nat, total: int)
    requires total > 0
    ensures d % total <= d
  {
    if d < total {
      SmallMod(d, total);
    }
  }

  /** Two processes with 32768 tickets each: the sum is an int, but the second never wins. */
  lemma SecondNeverWins(k: nat) returns (procs: seq<Proc>)
    ensures procs == [Proc(true, 32768), Proc(true, 32768)] && Tickets(procs) && Total(procs) == 65536 <= INT_MAX
    ensures !Wins(procs, 1, Random(k) % Total(procs))
  {
    procs := [Proc(true, 32768), Proc(true, 32768)];
    assert Sum(procs, 0) == 0 && Sum(procs, 1) == 32768 && Sum(procs, 2) == 65536;
    SmallMod(Random(k), 65536);
  }

  /* random() */

  const MULTIPLIER := 1103515245 + 12345

  /** What one call makes of rand_next. */
  function NextRand(r: nat): (n: nat)
    ensures n < WRAP
  {
    r * MULTIPLIER % WRAP
  }

  /** rand_next, an unsigned long of 32 bits, after k calls. */
  function RandNext(k: nat): (r: nat)
    ensures r < WRAP
  {
    if k == 0 then 1 else NextRand(RandNext(k - 1))
  }

  /** What the k-th call returns. */
  function Random(k: nat): nat {
    RandNext(k) / 65536 % 32768
  }

  function Pow2(k: nat): (r: nat)
    ensures r > 0
  {
    if k == 0 then 1 else 2 * Pow2(k - 1)
  }

  /** p divides x. */
  ghost predicate Multiple(x: nat, p: nat) {
    exists c: nat :: x == c * p
  }

  /** The multiplier is even, so every call brings one more factor of two, as long as 32 bits can tell. */
  lemma {:induction false} FactorsOfTwo(k: nat)
    requires k <= 32
    ensures Multiple(RandNext(k), Pow2(k))
  {
    if k == 0 {
      assert RandNext(0) == 1 * Pow2(0);
    } else {
      FactorsOfTwo(k - 1);
      var b: nat :| RandNext(k - 1) == b * Pow2(k - 1);
      var a := b * (MULTIPLIER / 2);
      Regroup(b, Pow2(k - 1), MULTIPLIER / 2);
      assert RandNext(k - 1) * MULTIPLIER == a * Pow2(k);
      var d := WrapFactor(k);
      ModOfMultiple(a, d, Pow2(k));
      assert RandNext(k) == (a % d) * Pow2(k);
    }
  }

  lemma Regroup(b: nat, p: nat, h: nat)
    ensures (b * p) * (2 * h) == (b * h) * (2 * p)
  {
  }

  lemma {:induction false} WrapFactor(k: nat) returns (d: nat)
    requires k <= 32
    ensures d > 0 && WRAP == d * Pow2(k) && (k == 32 ==> d == 1) && (k == 31 ==> d == 2)
    decreases 32 - k
  {
    if k == 32 {
      assert Pow2(8) == 256;
      assert Pow2(16) == 65536;
      assert Pow2(24) == 16777216;
      assert Pow2(32) == WRAP;
      d := 1;
    } else {
      var e := WrapFactor(k + 1);
      d := 2 * e;
    }
  }

  lemma ModOfMultiple(a: nat, d: nat, p: nat)
    requires d > 0 && p > 0
    ensures a * p % (d * p) == (a % d) * p
  {
    ScaledMod(a / d, d, a % d, p);
    assert a / d * d + a % d == a;
  }

  lemma ScaledMod(q: nat, d: nat, r: nat, p: nat)
    requires r < d && p > 0
    ensures (q * d + r) * p % (d * p) == r * p
  {
    Distribute(q, d, r, p);
    SmallerProduct(r, d, p);
    ModIs((q * d + r) * p, q, d * p, r * p);
  }

  lemma Distribute(q: nat, d: nat, r: nat, p: nat)
    ensures (q * d + r) * p == q * (d * p) + r * p
  {
  }

  lemma SmallerProduct(r: nat, d: nat, p: nat)
    requires r < d && p > 0
    ensures r * p < d * p
  {
    Apart(d, r, p);
  }

  /** Quotient and remainder are unique. */
  lemma ModIs(x: nat, q: nat, m: nat, r: nat)
    requires x == q * m + r && r < m
    ensures x % m == r
  {
    var q', r' := x / m, x % m;
    assert x == q' * m + r';
    if q > q' {
      Apart(q, q', m);
    } else if q < q' {
      Apart(q', q, m);
    }
  }

  lemma {:induction false} Apart(a: nat, b: nat, m: nat)
    requires a > b
    ensures a * m >= b * m + m
    decreases a
  {
    OneMoreTime(a - 1, m);
    if a > b + 1 {
      Apart(a - 1, b, m);
    }
  }

  lemma OneMoreTime(a: nat, m: nat)
    ensures (a + 1) * m == a * m + m
  {
  }

  lemma AtMostOne(c: nat, d: nat, p: nat)
    requires p > 0 && c * p < d * p
    ensures c < d
  {
    if c > d {
      Apart(c, d, p);
    }
  }

  /** From the 31st call on, random() returns 0. */
  lemma {:induction false} RandomDiesOut(k: nat)
    requires k >= 31
    ensures Random(k) == 0 && (k >= 32 ==> RandNext(k) == 0)
  {
    if k <= 32 {
      FactorsOfTwo(k);
      var c: nat :| RandNext(k) == c * Pow2(k);
      var d := WrapFactor(k);
      AtMostOne(c, d, Pow2(k));
    } else {
      RandomDiesOut(k - 1);
      assert RandNext(k) == NextRand(0);
    }
  }

  /** The numbers that the first n calls draw from total. */
  function Drawn(total: int, n: nat): set<int>
    requires total > 0
  {
    if n == 0 then {} else Drawn(total, n - 1) + {Random(n) % total}
  }

  lemma {:induction false} DrawnSize(total: int, n: nat, k: nat)
    requires total > 0
    ensures |Drawn(total, n)| <= n && (1 <= k <= n ==> Random(k) % total in Drawn(total, n))
  {
    if n > 0 {
      DrawnSize(total, n - 1, k);
    }
  }

  lemma {:induction false} Fewer<T>(a: set<T>, b: set<T>)
    requires a <= b
    ensures |a| <= |b|
  {
    if a != {} {
      var x :| x in a;
      Fewer(a - {x}, b - {x});
    }
  }

  /** Of more than 31 numbers some are never drawn at all. */
  lemma NeverDrawn(total: int) returns (w: int)
    requires total > 31
    ensures 0 <= w < total && forall k: nat :: k >= 1 ==> Random(k) % total != w
  {
    var all, seen := Interval(0, total), Drawn(total, 31);
    IntervalSize(0, total);
    DrawnSize(total, 31, 0);
    if all <= seen {
      Fewer(all, seen);
    }
    w :| w in all && w !in seen;
    forall k: nat | k >= 1
      ensures Random(k) % total != w
    {
      if k > 31 {
        RandomDiesOut(k);
        RandomDiesOut(31);
        DrawnSize(total, 31, 31);
      } else {
        DrawnSize(total, 31, k);
      }
    }
  }

  /** After that the lottery is no lottery: the first RUNNABLE slot of the table wins it every time. */
  lemma FirstSlotWins(procs: seq<Proc>, k: nat, i: nat)
    requires Tickets(procs) && k >= 31 && Total(procs) > 0 && i < |procs| && procs[i].runnable
    requires forall j :: 0 <= j < i ==> !procs[j].runnable
    ensures Wins(procs, i, Random(k) % Total(procs))
  {
    RandomDiesOut(k);
    NothingBefore(procs, i);
  }

  lemma {:induction false} NothingBefore(procs: seq<Proc>, i: nat)
    requires i <= |procs| && forall j :: 0 <= j < i ==> !procs[j].runnable
    ensures Sum(procs, i) == 0
  {
    if i > 0 {
      NothingBefore(procs, i - 1);
    }
  }

  /** The scheduler's two loops over the table. */
  class Lottery {
    const procs: array<Proc>
    var calls: nat       // of random(), whose state is RandNext(calls)
    var randNext: nat

    ghost predicate Valid()
      reads this, procs
    {
      procs.Length == NPROC && Tickets(procs[..]) && randNext == RandNext(calls)
    }

    method NextRandom() returns (r: nat)
      requires Valid()
      modifies this`calls, this`randNext
      ensures Valid() && calls == old(calls) + 1 && r == Random(calls)
    {
      randNext := NextRand(randNext);
      calls := calls + 1;
      r := randNext / 65536 % 32768;
    }

    /** One round of scheduler: the slot that wins, or -1 if no lottery is held. */
    method Round() returns (pick: int)
      requires Valid()
      modifies this`calls, this`randNext
      ensures Valid()
      ensures pick == -1 <==> Total(procs[..]) <= 0
      ensures Total(procs[..]) <= 0 ==> calls == old(calls)
      ensures Total(procs[..]) > 0 ==>
              calls == old(calls) + 1 && Wins(procs[..], pick, Random(calls) % Total(procs[..]))
    {
      ghost var t := procs[..];
      var total := 0;
      for p := 0 to NPROC
        invariant total == Int32(Sum(t, p)) && Valid() && calls == old(calls)
      {
        Int32Adds(Sum(t, p), procs[p].tickets);
        if procs[p].runnable {
          total := Int32(total + procs[p].tickets);
        }
      }
      if total <= 0 {
        return -1;
      }
      var draw := NextRandom();
      var winner := draw % total;
      TotalWithin(t);
      var left := winner;
      var p := 0;
      while p < NPROC
        invariant 0 <= p <= NPROC && left == winner - Sum(t, p) && left >= 0
      {
        if procs[p].runnable {
          left := left - procs[p].tickets;
          if left < 0 {
            return p;
          }
        }
        p := p + 1;
      }
      assert false;
    }
  }

  lemma TotalWithin(procs: seq<Proc>)
    requires Tickets(procs)
    ensures Total(procs) <= Sum(procs, |procs|)
  {
    SumGrows(procs, 0, |procs|);
  }
}
