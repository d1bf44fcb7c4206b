/**
 The priority scheduler (B_xv6_patched/kernel/proc.c): the RUNNABLE processes of least priority number run in turn, the
 turn being kept in last_sched.
 */
module PriorityScheduler {
  const NPROC := 64
  const MAXPRIORITY := 200       // sys_setpriority accepts 0 .. 200
  const DEFAULTPRIORITY := 50

  datatype ProcState = UNUSED | EMBRYO | SLEEPING | RUNNABLE | RUNNING | ZOMBIE

  /** What the scheduler reads of a struct proc. */
  datatype Proc = Proc(state: ProcState, priority: int)

  type Table = t: seq<Proc> | |t| == NPROC witness seq(NPROC, _ => Proc(UNUSED, 0))

  predicate Ready(p: Proc) {
    p.state == RUNNABLE
  }

  /** Priorities as sys_setpriority and allocproc leave them. */
  ghost predicate InRange(t: Table) {
    forall i :: 0 <= i < NPROC ==> 0 <= t[i].priority <= MAXPRIORITY
  }

  /** Slot i may be picked: it can run, and nothing that can run is more urgent. */
  ghost predicate Eligible(t: Table, i: int) {
    0 <= i < NPROC && Ready(t[i]) && forall j :: 0 <= j < NPROC && Ready(t[j]) ==> t[i].priority <= t[j].priority
  }

  /** How many slots come before i when the table is walked in a circle from the one after last (-1: from slot 0). */
  function Distance(last: int, i: int): int {
    (i - last - 1) % NPROC
  }

  /** The cyclic successor of last among the eligible slots; -1 if there are none. */
  ghost predicate IsNext(t: Table, last: int, s: int) {
    if s == -1 then forall i :: !Eligible(t, i)
    else Eligible(t, s) && forall i :: Eligible(t, i) ==> Distance(last, s) <= Distance(last, i)
  }

  lemma DistanceIs(last: int, i: int)
    requires -1 <= last < NPROC && 0 <= i < NPROC
    ensures Distance(last, i) == if i > last then i - last - 1 else i - last - 1 + NPROC
  {
  }

  /** The two loops of scheduler, from start on and then below it, walk the circle. */
  lemma TwoLoops(t: Table, last: int, s: int)
    requires -1 <= last < NPROC
    requires (last < s < NPROC && Eligible(t, s) && forall i :: last < i < s ==> !Eligible(t, i))
             || (0 <= s <= last && Eligible(t, s) && (forall i :: last < i < NPROC ==> !Eligible(t, i))
                 && forall i :: 0 <= i < s ==> !Eligible(t, i))
             || (s == -1 && (forall i :: last < i < NPROC ==> !Eligible(t, i))
                 && forall i :: 0 <= i <= last ==> !Eligible(t, i))
    ensures IsNext(t, last, s)
  {
    hide Distance;
    forall i | Eligible(t, i)
      ensures s != -1 && Distance(last, s) <= Distance(last, i)
    {
      DistanceIs(last, i);
      if s != -1 {
        DistanceIs(last, s);
      }
    }
  }

  class Scheduler {
    const procs: array<Proc>
    var lastSched: int      // -1 before anything has run

    ghost predicate Valid()
      reads this, procs
    {
      procs.Length == NPROC && -1 <= lastSched < NPROC && InRange(procs[..])
    }

    constructor ()
      ensures Valid() && fresh(procs) && lastSched == -1
    {
      procs := new Proc[NPROC](_ => Proc(UNUSED, 0));
      lastSched := -1;
    }

    /** allocproc's search, and what it sets here: the first UNUSED slot, or -1. */
    method Alloc() returns (p: int)
      requires Valid()
      modifies procs
      ensures Valid() && lastSched == old(lastSched)
      ensures p == -1 ==> (forall i :: 0 <= i < NPROC ==> procs[i].state != UNUSED) && procs[..] == old(procs[..])
      ensures p != -1 ==> 0 <= p < NPROC && old(procs[..])[p].state == UNUSED
                          && (forall i :: 0 <= i < p ==> procs[i].state != UNUSED)
                          && procs[..] == old(procs[..])[p := Proc(EMBRYO, DEFAULTPRIORITY)]
    {
      p := 0;
      while p < NPROC && procs[p].state != UNUSED
        invariant 0 <= p <= NPROC && forall i :: 0 <= i < p ==> procs[i].state != UNUSED
      {
        p := p + 1;
      }
      if p == NPROC {
        return -1;
      }
      procs[p] := Proc(EMBRYO, DEFAULTPRIORITY);
    }

    /**
     fork, where `copied` says whether the kernel stack and copyuvm got their pages: the child has its parent's
     priority.
     */
    method Fork(parent: int, copied: bool) returns (child: int)
      requires Valid() && 0 <= parent < NPROC && procs[parent].state == RUNNING
      modifies procs
      ensures Valid() && lastSched == old(lastSched)
      ensures child == -1 ==> forall i :: 0 <= i < NPROC ==> procs[i].state == old(procs[i].state)
      ensures child != -1 ==> 0 <= child < NPROC && old(procs[..])[child].state == UNUSED
                              && procs[..] == old(procs[..])[child := Proc(RUNNABLE, old(procs[parent].priority))]
    {
      child := Alloc();
      if child != -1 {
        if !copied {
          procs[child] := procs[child].(state := UNUSED);
          return -1;
        }
        procs[child] := procs[child].(priority := procs[parent].priority);
        procs[child] := procs[child].(state := RUNNABLE);
      }
    }

    /** sys_setpriority of the running process p, which yields when it makes itself less urgent. */
    method SetPriority(p: int, priority: int) returns (r: int)
      requires Valid() && 0 <= p < NPROC && procs[p].state == RUNNING
      modifies procs
      ensures Valid() && lastSched == old(lastSched)
      ensures priority < 0 || priority > MAXPRIORITY ==> r == -1 && procs[..] == old(procs[..])
      ensures 0 <= priority <= MAXPRIORITY ==>
                r == old(procs[p].priority)
                && procs[..] == old(procs[..])[p := Proc(if priority > r then RUNNABLE else RUNNING, priority)]
    {
      if priority < 0 || priority > MAXPRIORITY {
        return -1;
      }
      r := procs[p].priority;
      procs[p] := procs[p].(priority := priority);
      if priority > r {
        procs[p] := procs[p].(state := RUNNABLE);
      }
    }

    /** The first loop of scheduler. */
    method Highest() returns (h: int)
      requires Valid()
      ensures h == MAXPRIORITY + 1 ==> forall i :: 0 <= i < NPROC ==> !Ready(procs[i])
      ensures h <= MAXPRIORITY ==> exists i :: 0 <= i < NPROC && Ready(procs[i]) && procs[i].priority == h
      ensures h <= MAXPRIORITY + 1 && forall i :: 0 <= i < NPROC && Ready(procs[i]) ==> h <= procs[i].priority
    {
      h := MAXPRIORITY + 1;
      for k := 0 to NPROC
        invariant h <= MAXPRIORITY + 1 && forall i :: 0 <= i < k && Ready(procs[i]) ==> h <= procs[i].priority
        invariant h <= MAXPRIORITY ==> exists i :: 0 <= i < k && Ready(procs[i]) && procs[i].priority == h
      {
        if procs[k].state == RUNNABLE && procs[k].priority < h {
          h := procs[k].priority;
        }
      }
    }

    /** A walk over the slots from lo on: the first that can run at priority h. */
    method Find(lo: int, hi: int, h: int) returns (s: int)
      requires Valid() && 0 <= lo <= hi <= NPROC
      ensures s == -1 || (lo <= s < hi && Ready(procs[s]) && procs[s].priority == h)
      ensures forall i :: lo <= i < (if s == -1 then hi else s) ==> !(Ready(procs[i]) && procs[i].priority == h)
    {
      s := -1;
      var p := lo;
      while p < hi
        invariant lo <= p <= hi
        invariant forall i :: lo <= i < p ==> !(Ready(procs[i]) && procs[i].priority == h)
      {
        if procs[p].state == RUNNABLE && procs[p].priority == h {
          return p;
        }
        p := p + 1;
      }
    }

    /** One round of scheduler, up to the switch to the process it picks. */
    method Pick() returns (selected: int)
      requires Valid()
      modifies this`lastSched, procs
      ensures Valid() && IsNext(old(procs[..]), old(lastSched), selected)
      ensures selected == -1 <==> forall i :: 0 <= i < NPROC ==> !Ready(old(procs[..])[i])
      ensures selected == -1 ==> lastSched == old(lastSched) && procs[..] == old(procs[..])
      ensures selected != -1 ==> 0 <= selected < NPROC && lastSched == selected
                                 && procs[..] == old(procs[..])[selected := old(procs[..])[selected].(state := RUNNING)]
    {
      var h := Highest();
      hide InRange, IsNext;
      EligibleIff(procs[..], h);
      hide Eligible;
      var start := lastSched + 1;
      selected := Find(start, NPROC, h);
      if selected == -1 {
        selected := Find(0, start, h);
      }
      TwoLoops(procs[..], lastSched, selected);
      KeepsRange(procs[..], selected);
      if selected != -1 {
        lastSched := selected;
        procs[selected] := procs[selected].(state := RUNNING);
      }
    }
  }

  /** With h the least priority number that can run, eligible means having it. */
  lemma EligibleIff(t: Table, h: int)
    requires InRange(t)
    requires h == MAXPRIORITY + 1 ==> forall i :: 0 <= i < NPROC ==> !Ready(t[i])
    requires h <= MAXPRIORITY ==> exists i :: 0 <= i < NPROC && Ready(t[i]) && t[i].priority == h
    requires h <= MAXPRIORITY + 1 && forall i :: 0 <= i < NPROC && Ready(t[i]) ==> h <= t[i].priority
    ensures forall i :: 0 <= i < NPROC ==> (Eligible(t, i) <==> Ready(t[i]) && t[i].priority == h)
    ensures (forall i :: !Eligible(t, i)) <==> forall i :: 0 <= i < NPROC ==> !Ready(t[i])
  {
    if h <= MAXPRIORITY {
      var i :| 0 <= i < NPROC && Ready(t[i]) && t[i].priority == h;
      assert Eligible(t, i);
    }
  }

  lemma KeepsRange(t: Table, s: int)
    requires InRange(t)
    ensures 0 <= s < NPROC ==> InRange(t[s := t[s].(state := RUNNING)])
  {
  }

  /* Bounded waiting */

  /** last_sched after a round that finds the table t. */
  ghost predicate Round(t: Table, last: int, last': int) {
    exists s :: IsNext(t, last, s) && last' == if s == -1 then last else s
  }

  /**
   A stretch of rounds: the table as each finds it, which processes, interrupts and system calls may have changed in any
   way since the round before, and last_sched between the rounds.
   */
  ghost predicate Rounds(tables: seq<Table>, lasts: seq<int>) {
    && |lasts| == |tables| + 1
    && (forall k :: 0 <= k < |lasts| ==> -1 <= lasts[k] < NPROC)
    && (forall k :: 0 <= k < |tables| ==> Round(tables[k], lasts[k], lasts[k + 1]))
  }

  /** Whoever is picked before q was nearer. */
  lemma CloserEachRound(t: Table, last: int, last': int, q: int)
    requires -1 <= last < NPROC && Eligible(t, q) && Round(t, last, last') && last' != q
    ensures 0 <= last' < NPROC && 0 <= Distance(last', q) < Distance(last, q)
  {
    var s :| IsNext(t, last, s) && last' == if s == -1 then last else s;
    assert s != -1;
    DistanceIs(last, s);
    DistanceIs(last, q);
    DistanceIs(s, q);
  }

  /** Round k left the turn with q. */
  predicate TurnTo(lasts: seq<int>, k: nat, q: int) {
    k + 1 < |lasts| && lasts[k + 1] == q
  }

  lemma {:induction false} WaitsAtMost(tables: seq<Table>, lasts: seq<int>, q: int)
    requires Rounds(tables, lasts) && 0 <= q < NPROC
    requires forall k :: 0 <= k < |tables| ==> Eligible(tables[k], q) && !TurnTo(lasts, k, q)
    ensures |tables| <= Distance(lasts[0], q)
    decreases |tables|
  {
    if tables != [] {
      CloserEachRound(tables[0], lasts[0], lasts[1], q);
      var rest, more := tables[1..], lasts[1..];
      assert forall k :: 0 <= k < |rest| ==> rest[k] == tables[k + 1];
      assert forall k :: 0 <= k < |more| ==> more[k] == lasts[k + 1];
      WaitsAtMost(rest, more, q);
    } else {
      DistanceIs(lasts[0], q);
    }
  }

  /**
   Bounded waiting: in any NPROC rounds in a row in which q can run and nothing that can run is more urgent, q is
   picked, whatever the others do and wherever the turn was.
   */
  lemma PickedWithinNproc(tables: seq<Table>, lasts: seq<int>, q: int)
    requires Rounds(tables, lasts) && 0 <= q < NPROC && |tables| >= NPROC
    requires forall k :: 0 <= k < NPROC ==> Eligible(tables[k], q)
    ensures exists k :: 0 <= k < NPROC && IsNext(tables[k], lasts[k], q)
  {
    if k: nat :| k < NPROC && TurnTo(lasts, k, q) {
      assert Eligible(tables[k], q);
    } else {
      var first, turns := tables[..NPROC], lasts[..NPROC + 1];
      assert forall k :: 0 <= k < NPROC ==> first[k] == tables[k];
      assert forall k :: 0 <= k <= NPROC ==> turns[k] == lasts[k];
      forall k: nat | k < NPROC
        ensures !TurnTo(turns, k, q)
      {
        assert !TurnTo(lasts, k, q);
      }
      TooFar(turns[0], q);
      WaitsAtMost(first, turns, q);
    }
  }

  lemma TooFar(last: int, q: int)
    requires -1 <= last < NPROC && 0 <= q < NPROC
    ensures Distance(last, q) < NPROC
  {
  }
}
