/**
 The process table (kernel/proc.c): fork, exit and wait as steps of any number of CPUs, each step being what happens
 while one CPU holds ptable.lock.
 */
module Processes {
  const NPROC := 64

  datatype ProcState = UNUSED | EMBRYO | SLEEPING | RUNNABLE | RUNNING | ZOMBIE

  /**
   What a process sleeps on: wait uses the address of the waiting process; anything else is the business of others.
   */
  datatype Chan = NoChan | OfProc(p: int) | Other(id: int)

  /** struct proc. parent is a slot, or -1 for a null pointer. */
  datatype Proc = Proc(state: ProcState, pid: nat, parent: int, chan: Chan, killed: bool)

  predicate Alive(p: Proc) {
    p.state == SLEEPING || p.state == RUNNABLE || p.state == RUNNING
  }

  /* wakeup1, exit and the scan of wait on the table */

  function Woken(p: Proc, chan: Chan): Proc {
    if p.state == SLEEPING && p.chan == chan then p.(state := RUNNABLE) else p
  }

  function Wakeup1(t: seq<Proc>, chan: Chan): (r: seq<Proc>)
    ensures |r| == |t| && forall i :: 0 <= i < |t| ==> r[i] == Woken(t[i], chan)
  {
    seq(|t|, i requires 0 <= i < |t| => Woken(t[i], chan))
  }

  predicate ZombieChild(t: seq<Proc>, me: int, c: int) {
    0 <= c < |t| && t[c].parent == me && t[c].state == ZOMBIE
  }

  /** The children of me now belong to init. */
  function Reparent(t: seq<Proc>, me: int, init: int): (r: seq<Proc>)
    ensures |r| == |t| && forall i :: 0 <= i < |t| ==> r[i] == if t[i].parent == me then t[i].(parent := init) else t[i]
  {
    seq(|t|, i requires 0 <= i < |t| => if t[i].parent == me then t[i].(parent := init) else t[i])
  }

  ghost predicate HasChild(t: seq<Proc>, me: int) {
    exists c :: 0 <= c < |t| && t[c].parent == me
  }

  ghost predicate HasZombie(t: seq<Proc>, me: int) {
    exists c :: ZombieChild(t, me, c)
  }

  /** exit, once it has the lock. */
  ghost function Exited(t: seq<Proc>, me: nat, init: nat): (r: seq<Proc>)
    requires me < |t|
    ensures |r| == |t|
  {
    var t1 := Reparent(Wakeup1(t, OfProc(t[me].parent)), me, init);
    var t2 := if HasZombie(t, me) then Wakeup1(t1, OfProc(init)) else t1;
    t2[me := t2[me].(state := ZOMBIE)]
  }

  /** How a turn of wait's loop ends. */
  datatype Outcome = Reaps(c: nat) | GivesUp | Sleeps

  ghost predicate WaitEnds(t: seq<Proc>, me: nat, o: Outcome)
    requires me < |t|
  {
    match o
    case Reaps(c) => ZombieChild(t, me, c) && forall d :: 0 <= d < c ==> !ZombieChild(t, me, d)
    case GivesUp => !HasZombie(t, me) && (t[me].killed || !HasChild(t, me))
    case Sleeps => !HasZombie(t, me) && !t[me].killed && HasChild(t, me)
  }

  function Waited(t: seq<Proc>, me: nat, o: Outcome): (r: seq<Proc>)
    requires me < |t| && (o.Reaps? ==> o.c < |t|)
    ensures |r| == |t|
  {
    match o
    case Reaps(c) => t[c := t[c].(state := UNUSED, pid := 0, parent := -1, killed := false)]
    case GivesUp => t
    case Sleeps => t[me := t[me].(state := SLEEPING, chan := OfProc(me))]
  }

  /** The table in memory, with ptable.lock held. */
  class Table {
    const proc: array<Proc>
    const initproc: nat
    var nextpid: nat

    ghost predicate Valid()
      reads this, proc
    {
      proc.Length == NPROC && initproc < NPROC
    }

    constructor (init: nat)
      requires init < NPROC
      ensures Valid() && fresh(proc) && initproc == init && nextpid == 1
      ensures forall i :: 0 <= i < NPROC ==> proc[i] == Proc(UNUSED, 0, -1, NoChan, false)
    {
      proc := new Proc[NPROC](_ => Proc(UNUSED, 0, -1, NoChan, false));
      initproc := init;
      nextpid := 1;
    }

    /** allocproc, as far as it holds the lock: the first UNUSED slot, or -1. */
    method Alloc() returns (p: int)
      requires Valid()
      modifies this`nextpid, proc
      ensures p == -1 ==>
                (forall i :: 0 <= i < NPROC ==> proc[i].state != UNUSED) && proc[..] == old(proc[..])
                && nextpid == old(nextpid)
      ensures p != -1 ==>
                0 <= p < NPROC && old(proc[..])[p].state == UNUSED
                && forall i :: 0 <= i < p ==> proc[i].state != UNUSED
      ensures p != -1 ==>
                proc[..] == old(proc[..])[p := old(proc[..])[p].(state := EMBRYO, pid := old(nextpid))]
                && nextpid == old(nextpid) + 1
    {
      p := 0;
      while p < NPROC && proc[p].state != UNUSED
        invariant 0 <= p <= NPROC && forall i :: 0 <= i < p ==> proc[i].state != UNUSED
      {
        p := p + 1;
      }
      if p == NPROC {
        return -1;
      }
      proc[p] := proc[p].(state := EMBRYO, pid := nextpid);
      nextpid := nextpid + 1;
    }

    method WakeupAll(chan: Chan)
      requires Valid()
      modifies proc
      ensures proc[..] == Wakeup1(old(proc[..]), chan)
    {
      for p := 0 to NPROC
        invariant forall i :: 0 <= i < p ==> proc[i] == Woken(old(proc[i]), chan)
        invariant forall i :: p <= i < NPROC ==> proc[i] == old(proc[i])
      {
        if proc[p].state == SLEEPING && proc[p].chan == chan {
          proc[p] := proc[p].(state := RUNNABLE);
        }
      }
    }

    /** The part of exit that runs with the lock held. */
    method Exit(me: nat)
      requires Valid() && me < NPROC && me != initproc
      modifies proc
      ensures proc[..] == Exited(old(proc[..]), me, initproc)
    {
      WakeupAll(OfProc(proc[me].parent));
      ghost var t, zombie := proc[..], false;
      for p := 0 to NPROC
        invariant zombie <==> exists c :: 0 <= c < p && ZombieChild(t, me, c)
        invariant forall i :: 0 <= i < NPROC ==>
                    var r := if t[i].parent == me && i < p then t[i].(parent := initproc) else t[i];
                    proc[i] == if zombie then Woken(r, OfProc(initproc)) else r
      {
        assert ZombieChild(t, me, p) <==> proc[p].parent == me && proc[p].state == ZOMBIE;
        if proc[p].parent == me {
          proc[p] := proc[p].(parent := initproc);
          if proc[p].state == ZOMBIE {
            WakeupAll(OfProc(initproc));
            zombie := true;
          }
        }
      }
      proc[me] := proc[me].(state := ZOMBIE);
      assert forall c :: ZombieChild(t, me, c) <==> ZombieChild(old(proc[..]), me, c);
    }

    /** One turn of wait's loop. */
    method Wait(me: nat) returns (o: Outcome, pid: int)
      requires Valid() && me < NPROC
      modifies proc
      ensures WaitEnds(old(proc[..]), me, o) && proc[..] == Waited(old(proc[..]), me, o)
      ensures o.Reaps? ==> pid == old(proc[..])[o.c].pid
      ensures o.GivesUp? ==> pid == -1
    {
      ghost var t := proc[..];
      var havekids := false;
      var p := 0;
      while p < NPROC
        invariant 0 <= p <= NPROC && forall d :: 0 <= d < p ==> !ZombieChild(t, me, d)
        invariant havekids <==> exists d :: 0 <= d < p && t[d].parent == me
        invariant proc[..] == t
      {
        if proc[p].parent == me {
          havekids := true;
          if proc[p].state == ZOMBIE {
            pid := proc[p].pid;
            proc[p] := proc[p].(state := UNUSED, pid := 0, parent := -1, killed := false);
            return Reaps(p), pid;
          }
        }
        p := p + 1;
      }
      if !havekids || proc[me].killed {
        return GivesUp, -1;
      }
      proc[me] := proc[me].(state := SLEEPING, chan := OfProc(me));
      return Sleeps, 0;
    }
  }

  /* The processes */

  /** What a process is doing: anything else, between allocproc and the end of fork with the new slot c, or in wait. */
  datatype Place = Busy | Forking(c: nat) | Waiting

  /**
   exits and reports: the pids of the processes that exited, and those that wait returned, in order; they are only there
   to state properties, as is forker, the process that is filling an EMBRYO slot.
   */
  datatype State = State(procs: seq<Proc>, at: seq<Place>, init: nat, nextpid: nat, forker: seq<int>, exits: seq<nat>,
      reports: seq<nat>)

  datatype Action =
    | Run(p: nat)                // the scheduler picks p
    | Yield(p: nat)
    | SleepOn(p: nat, id: int)   // sleep on some channel that is not a process
    | WakeUp(id: int)
    | Kill(p: nat)               // kill reaches slot p
    | Fork(p: nat, c: nat)       // allocproc gives p the slot c
    | SetParent(p: nat)          // np->parent = proc, without the lock
    | ForkFails(p: nat)          // no page for the kernel stack, or copyuvm fails
    | ForkEnds(p: nat)
    | Exit(p: nat)
    | Wait(p: nat, o: Outcome)   // one turn of wait's loop

  predicate Shape(s: State) {
    |s.procs| == |s.at| == |s.forker| == NPROC && s.init < NPROC
  }

  predicate Runs(s: State, p: nat) {
    Shape(s) && p < NPROC && s.procs[p].state == RUNNING
  }

  ghost predicate Enabled(s: State, a: Action) {
    Shape(s) &&
    match a
    case Run(p) => p < NPROC && s.procs[p].state == RUNNABLE
    case Yield(p) => Runs(s, p)
    case SleepOn(p, id) => Runs(s, p) && !s.at[p].Waiting?
    case WakeUp(id) => true
    case Kill(p) => p < NPROC
    case Fork(p, c) => Runs(s, p) && s.at[p].Busy? && c < NPROC && s.procs[c].state == UNUSED
    case SetParent(p) => Runs(s, p) && s.at[p].Forking? && s.at[p].c < NPROC
    case ForkFails(p) => Runs(s, p) && s.at[p].Forking? && s.at[p].c < NPROC && s.procs[s.at[p].c].parent == -1
    case ForkEnds(p) => Runs(s, p) && s.at[p].Forking? && s.at[p].c < NPROC && s.procs[s.at[p].c].parent == p
    case Exit(p) => Runs(s, p) && s.at[p].Busy? && p != s.init
    case Wait(p, o) => Runs(s, p) && !s.at[p].Forking? && WaitEnds(s.procs, p, o)
  }

  ghost function Do(s: State, a: Action): State
    requires Enabled(s, a)
  {
    match a
    case Run(p) => s.(procs := s.procs[p := s.procs[p].(state := RUNNING, chan := NoChan)])
    case Yield(p) => s.(procs := s.procs[p := s.procs[p].(state := RUNNABLE)])
    case SleepOn(p, id) => s.(procs := s.procs[p := s.procs[p].(state := SLEEPING, chan := Other(id))])
    case WakeUp(id) => s.(procs := Wakeup1(s.procs, Other(id)))
    case Kill(p) => s.(procs := s.procs[p := Woken(s.procs[p].(killed := true), s.procs[p].chan)])
    case Fork(p, c) =>
      s.(procs := s.procs[c := s.procs[c].(state := EMBRYO, pid := s.nextpid)], nextpid := s.nextpid + 1,
         at := s.at[p := Forking(c)], forker := s.forker[c := p])
    case SetParent(p) => s.(procs := s.procs[s.at[p].c := s.procs[s.at[p].c].(parent := p)])
    case ForkFails(p) => s.(procs := s.procs[s.at[p].c := s.procs[s.at[p].c].(state := UNUSED)], at := s.at[p := Busy])
    case ForkEnds(p) => s.(procs := s.procs[s.at[p].c := s.procs[s.at[p].c].(state := RUNNABLE)],
        at := s.at[p := Busy][s.at[p].c := Busy])
    case Exit(p) => s.(procs := Exited(s.procs, p, s.init), exits := s.exits + [s.procs[p].pid])
    case Wait(p, o) =>
      s.(procs := Waited(s.procs, p, o), at := s.at[p := if o.Sleeps? then Waiting else Busy],
         reports := if o.Reaps? then s.reports + [s.procs[o.c].pid] else s.reports)
  }

  /* What always holds when the lock is free */

  /** A process asleep in wait has a child, and none that it could report. */
  ghost predicate SleepOk(s: State, p: nat)
    requires Shape(s) && p < NPROC
  {
    s.procs[p].state == SLEEPING && s.procs[p].chan == OfProc(p) ==>
      HasChild(s.procs, p) && !HasZombie(s.procs, p)
  }

  /** Where the parent pointer of a slot may point. */
  ghost predicate ParentOk(s: State, c: nat)
    requires Shape(s) && c < NPROC
  {
    var x := s.procs[c];
    match x.state
    case UNUSED => x.parent == -1
    case EMBRYO =>
      && 0 <= s.forker[c] < NPROC && Alive(s.procs[s.forker[c]]) && s.at[s.forker[c]] == Forking(c)
      && (x.parent == -1 || x.parent == s.forker[c])
    case _ => if c == s.init then x.parent == -1 else 0 <= x.parent < NPROC && x.parent != c && Alive(s.procs[x.parent])
  }

  /** What a slot's process may be doing. */
  ghost predicate PlaceOk(s: State, p: nat)
    requires Shape(s) && p < NPROC
  {
    && (s.at[p].Forking? ==>
      Alive(s.procs[p]) && s.at[p].c < NPROC && s.procs[s.at[p].c].state == EMBRYO && s.forker[s.at[p].c] == p)
    && (s.procs[p].state == SLEEPING ==>
      (s.procs[p].chan == OfProc(p) && s.at[p].Waiting?) || (s.procs[p].chan.Other? && !s.at[p].Waiting?))
    && (p == s.init ==> Alive(s.procs[p]))
  }

  ghost predicate InUse(s: State, p: int)
    requires Shape(s)
  {
    0 <= p < NPROC && s.procs[p].state != UNUSED
  }

  /** Pids in use are different, and a zombie's is the pid of an exit not reported yet. */
  ghost predicate PidOk(s: State, p: nat)
    requires Shape(s) && p < NPROC
  {
    InUse(s, p) ==>
      && s.procs[p].pid < s.nextpid
      && (forall q :: InUse(s, q) && q != p ==> s.procs[q].pid != s.procs[p].pid)
      && (s.procs[p].pid in s.exits <==> s.procs[p].state == ZOMBIE)
      && s.procs[p].pid !in s.reports
  }

  ghost predicate Distinct(x: seq<nat>) {
    forall i, j :: 0 <= i < j < |x| ==> x[i] != x[j]
  }

  ghost predicate ZombieWith(t: seq<Proc>, pid: nat) {
    exists c :: 0 <= c < |t| && t[c].state == ZOMBIE && t[c].pid == pid
  }

  /** Every report is of an exit, and every exit not reported yet still has its zombie. */
  ghost predicate LogsOk(s: State) {
    && Distinct(s.exits) && Distinct(s.reports)
    && (forall x :: x in s.reports ==> x in s.exits)
    && (forall x :: x in s.exits ==> x < s.nextpid)
    && (forall x :: x in s.exits ==> x in s.reports || ZombieWith(s.procs, x))
  }

  ghost predicate Inv(s: State) {
    && Shape(s) && LogsOk(s)
    && forall p: nat {:trigger SlotOk(s, p)} :: p < NPROC ==> SlotOk(s, p)
  }

  /** Everything the invariant says of one slot. */
  ghost predicate SlotOk(s: State, p: nat)
    requires Shape(s) && p < NPROC
  {
    SleepOk(s, p) && ParentOk(s, p) && PlaceOk(s, p) && PidOk(s, p)
  }

  /** userinit has run: one process, and nothing has happened yet. */
  ghost predicate Init(s: State) {
    && Shape(s) && s.exits == [] && s.reports == []
    && s.procs[s.init].state == RUNNABLE && s.procs[s.init].parent == -1 && s.procs[s.init].pid < s.nextpid
    && (forall p {:trigger s.procs[p]} :: 0 <= p < NPROC && p != s.init ==>
      s.procs[p].state == UNUSED && s.procs[p].parent == -1 && !s.procs[p].killed)
    && (forall p {:trigger s.at[p]} :: 0 <= p < NPROC ==> s.at[p].Busy?)
  }

  lemma InitInv(s: State)
    requires Init(s)
    ensures Inv(s)
  {
  }

  lemma SameFamily(t: seq<Proc>, t': seq<Proc>)
    requires |t'| == |t|
    requires forall c :: 0 <= c < |t| ==>
             t'[c].parent == t[c].parent && (t'[c].state == ZOMBIE <==> t[c].state == ZOMBIE)
    requires forall c :: 0 <= c < |t| && t[c].state == ZOMBIE ==> t'[c].pid == t[c].pid
    ensures forall p: int :: HasChild(t', p) == HasChild(t, p) && HasZombie(t', p) == HasZombie(t, p)
    ensures forall x: nat :: ZombieWith(t, x) ==> ZombieWith(t', x)
  {
    forall x: nat | ZombieWith(t, x)
      ensures ZombieWith(t', x)
    {
      var c :| 0 <= c < |t| && t[c].state == ZOMBIE && t[c].pid == x;
      assert t'[c].pid == x;
    }
    forall p: int
      ensures HasChild(t', p) == HasChild(t, p) && HasZombie(t', p) == HasZombie(t, p)
    {
      forall c
        ensures ZombieChild(t', p, c) == ZombieChild(t, p, c)
      {
      }
      if c :| 0 <= c < |t| && t[c].parent == p {
        assert t'[c].parent == p;
      }
    }
  }

  /** What steps that start and stop processes without ending any have in common: p changes, its family does not. */
  ghost predicate Moves(s: State, t: State, p: nat)
    requires Shape(s) && Shape(t) && p < NPROC
  {
    && t == s.(procs := s.procs[p := t.procs[p]], at := t.at)
    && t.procs[p].pid == s.procs[p].pid && t.procs[p].parent == s.procs[p].parent
    && Alive(s.procs[p]) && Alive(t.procs[p])
    && (t.at == s.at || (t.at == s.at[p := t.at[p]] && !s.at[p].Forking? && !t.at[p].Forking?))
    && (t.procs[p].state == SLEEPING ==>
         || (t.procs[p].chan.Other? && !t.at[p].Waiting?)
         || (t.procs[p].chan == OfProc(p) && t.at[p].Waiting? && WaitEnds(s.procs, p, Sleeps))
         || (t.procs[p] == s.procs[p] && t.at[p] == s.at[p]))
  }

  lemma MovedSlot(s: State, t: State, p: nat, q: nat)
    requires Inv(s) && Shape(t) && p < NPROC && Moves(s, t, p) && q < NPROC
    ensures SlotOk(t, q)
  {
    assert SlotOk(s, p) && SlotOk(s, q);
    SameFamily(s.procs, t.procs);
  }

  lemma Moved(s: State, t: State, p: nat)
    requires Inv(s) && Shape(t) && p < NPROC && Moves(s, t, p)
    ensures Inv(t)
  {
    assert SlotOk(s, p);
    SameFamily(s.procs, t.procs);
    forall q: nat | q < NPROC
      ensures SlotOk(t, q)
    {
      MovedSlot(s, t, p, q);
    }
  }

  lemma RunKeepsInv(s: State, p: nat)
    requires Inv(s) && Enabled(s, Run(p))
    ensures Inv(Do(s, Run(p)))
  {
    Moved(s, Do(s, Run(p)), p);
  }

  lemma YieldKeepsInv(s: State, p: nat)
    requires Inv(s) && Enabled(s, Yield(p))
    ensures Inv(Do(s, Yield(p)))
  {
    Moved(s, Do(s, Yield(p)), p);
  }

  lemma SleepOnKeepsInv(s: State, p: nat, id: int)
    requires Inv(s) && Enabled(s, SleepOn(p, id))
    ensures Inv(Do(s, SleepOn(p, id)))
  {
    Moved(s, Do(s, SleepOn(p, id)), p);
  }

  lemma WaitSleepsKeepsInv(s: State, p: nat)
    requires Inv(s) && Enabled(s, Wait(p, Sleeps))
    ensures Inv(Do(s, Wait(p, Sleeps)))
  {
    Moved(s, Do(s, Wait(p, Sleeps)), p);
  }

  lemma WaitGivesUpKeepsInv(s: State, p: nat)
    requires Inv(s) && Enabled(s, Wait(p, GivesUp))
    ensures Inv(Do(s, Wait(p, GivesUp)))
  {
    Moved(s, Do(s, Wait(p, GivesUp)), p);
  }

  /** Only who sleeps changes, or is marked killed. */
  lemma WokenUp(s: State, t: State)
    requires Inv(s) && Shape(t) && t == s.(procs := t.procs)
    requires forall q :: 0 <= q < NPROC ==> t.procs[q].pid == s.procs[q].pid && t.procs[q].parent == s.procs[q].parent
    requires forall q :: 0 <= q < NPROC ==>
             t.procs[q].state == s.procs[q].state || (s.procs[q].state == SLEEPING && t.procs[q].state == RUNNABLE)
    requires forall q :: 0 <= q < NPROC ==> t.procs[q].chan == s.procs[q].chan
    ensures Inv(t)
  {
    SameFamily(s.procs, t.procs);
    forall q: nat | q < NPROC
      ensures SlotOk(t, q)
    {
      assert SlotOk(s, q);
    }
  }

  lemma WakeUpKeepsInv(s: State, id: int)
    requires Inv(s) && Enabled(s, WakeUp(id))
    ensures Inv(Do(s, WakeUp(id)))
  {
    WokenUp(s, Do(s, WakeUp(id)));
  }

  lemma KillKeepsInv(s: State, p: nat)
    requires Inv(s) && Enabled(s, Kill(p))
    ensures Inv(Do(s, Kill(p)))
  {
    WokenUp(s, Do(s, Kill(p)));
  }

  lemma PidsBelow(s: State)
    requires Inv(s)
    ensures forall q :: InUse(s, q) ==> s.procs[q].pid < s.nextpid
  {
    forall q | InUse(s, q)
      ensures s.procs[q].pid < s.nextpid
    {
      assert SlotOk(s, q);
    }
  }

  /** allocproc: a pid never used before. */
  lemma ForkKeepsInv(s: State, p: nat, c: nat)
    requires Inv(s) && Enabled(s, Fork(p, c))
    ensures Inv(Do(s, Fork(p, c)))
  {
    var t := Do(s, Fork(p, c));
    SameFamily(s.procs, t.procs);
    PidsBelow(s);
    assert SlotOk(s, p) && SlotOk(s, c);
    forall q: nat | q < NPROC
      ensures SlotOk(t, q)
    {
      assert SlotOk(s, q);
    }
  }

  lemma ForkFailsKeepsInv(s: State, p: nat)
    requires Inv(s) && Enabled(s, ForkFails(p))
    ensures Inv(Do(s, ForkFails(p)))
  {
    var t := Do(s, ForkFails(p));
    assert SlotOk(s, p) && SlotOk(s, s.at[p].c);
    SameFamily(s.procs, t.procs);
    forall q: nat | q < NPROC
      ensures SlotOk(t, q)
    {
      assert SlotOk(s, q);
    }
  }

  lemma ForkEndsKeepsInv(s: State, p: nat)
    requires Inv(s) && Enabled(s, ForkEnds(p))
    ensures Inv(Do(s, ForkEnds(p)))
  {
    var t := Do(s, ForkEnds(p));
    assert SlotOk(s, p) && SlotOk(s, s.at[p].c);
    SameFamily(s.procs, t.procs);
    forall q: nat | q < NPROC
      ensures SlotOk(t, q)
    {
      assert SlotOk(s, q);
    }
  }

  /** Zombies other than in slot c are still there. */
  lemma OtherZombies(t: seq<Proc>, t': seq<Proc>, c: int)
    requires |t'| == |t| && forall d :: 0 <= d < |t| && d != c && t[d].state == ZOMBIE ==>
             t'[d].state == ZOMBIE && t'[d].pid == t[d].pid
    ensures forall x: nat :: ZombieWith(t, x) ==>
            ZombieWith(t', x) || (0 <= c < |t| && t[c].state == ZOMBIE && t[c].pid == x)
  {
    forall x: nat | ZombieWith(t, x) && !(0 <= c < |t| && t[c].state == ZOMBIE && t[c].pid == x)
      ensures ZombieWith(t', x)
    {
      var d :| 0 <= d < |t| && t[d].state == ZOMBIE && t[d].pid == x;
      assert t'[d].pid == x;
    }
  }

  lemma SetParentKeepsInv(s: State, p: nat)
    requires Inv(s) && Enabled(s, SetParent(p))
    ensures Inv(Do(s, SetParent(p)))
  {
    var t, c := Do(s, SetParent(p)), s.at[p].c;
    assert SlotOk(s, p) && SlotOk(s, c);
    OtherZombies(s.procs, t.procs, -1);
    forall q: nat | q < NPROC
      ensures SlotOk(t, q)
    {
      SetParentSlot(s, p, q);
    }
  }

  lemma SetParentSlot(s: State, p: nat, q: nat)
    requires Inv(s) && Enabled(s, SetParent(p)) && q < NPROC
    ensures SlotOk(Do(s, SetParent(p)), q)
  {
    var t, c := Do(s, SetParent(p)), s.at[p].c;
    assert SlotOk(s, p) && SlotOk(s, c) && SlotOk(s, q);
    if HasChild(s.procs, q) {
      var d :| 0 <= d < NPROC && s.procs[d].parent == q;
      assert t.procs[d].parent == q;
    }
    assert forall d :: ZombieChild(t.procs, q, d) ==> ZombieChild(s.procs, q, d);
  }

  lemma WaitReapsSlot(s: State, p: nat, c: nat, q: nat)
    requires Inv(s) && Enabled(s, Wait(p, Reaps(c))) && q < NPROC
    ensures SlotOk(Do(s, Wait(p, Reaps(c))), q)
  {
    hide LogsOk;
    var t := Do(s, Wait(p, Reaps(c)));
    assert SlotOk(s, p) && SlotOk(s, c) && SlotOk(s, q);
    if q != p && HasChild(s.procs, q) {
      var d :| 0 <= d < NPROC && s.procs[d].parent == q;
      assert t.procs[d].parent == q;
    }
    assert forall d :: ZombieChild(t.procs, q, d) ==> ZombieChild(s.procs, q, d);
  }

  /** wait reports a zombie, once. */
  lemma WaitReapsKeepsInv(s: State, p: nat, c: nat)
    requires Inv(s) && Enabled(s, Wait(p, Reaps(c)))
    ensures Inv(Do(s, Wait(p, Reaps(c))))
  {
    var t := Do(s, Wait(p, Reaps(c)));
    assert SlotOk(s, p) && SlotOk(s, c);
    OtherZombies(s.procs, t.procs, c);
    hide SlotOk, SleepOk, ParentOk, PlaceOk;
    forall q: nat | q < NPROC
      ensures SlotOk(t, q)
    {
      WaitReapsSlot(s, p, c, q);
    }
  }

  /** After exit: who is whose child, and who is a zombie. */
  lemma ExitedSlots(t: seq<Proc>, me: nat, init: nat)
    requires me < |t| && t[me].parent != me
    ensures var r := Exited(t, me, init);
            && (forall q :: 0 <= q < |t| ==>
                 && r[q].pid == t[q].pid && r[q].parent == (if t[q].parent == me then init else t[q].parent)
                 && r[q].killed == t[q].killed && r[q].chan == t[q].chan)
            && (forall q :: 0 <= q < |t| && q != me ==>
              r[q].state == t[q].state || (t[q].state == SLEEPING && r[q].state == RUNNABLE))
            && r[me].state == ZOMBIE
            && (forall q :: 0 <= q < |t| && q != me && r[q].state == SLEEPING ==>
                 r[q].chan != OfProc(t[me].parent) && (HasZombie(t, me) ==> r[q].chan != OfProc(init)))
  {
  }

  /** exit leaves nobody asleep in wait with a zombie to report, or without children. */
  lemma ExitSleepers(s: State, p: nat, q: nat)
    requires Inv(s) && Enabled(s, Exit(p)) && q < NPROC
    ensures SleepOk(Do(s, Exit(p)), q)
  {
    var t := Do(s, Exit(p));
    assert SlotOk(s, p) && SlotOk(s, q);
    ExitedSlots(s.procs, p, s.init);
    if t.procs[q].state == SLEEPING && t.procs[q].chan == OfProc(q) {
      var d :| 0 <= d < NPROC && s.procs[d].parent == q;
      assert t.procs[d].parent == q;
      forall c
        ensures !ZombieChild(t.procs, q, c)
      {
        assert !ZombieChild(s.procs, q, c);
        assert ZombieChild(t.procs, q, c) && c != p ==> ZombieChild(s.procs, p, c);
      }
    }
  }

  lemma ExitParents(s: State, p: nat, q: nat)
    requires Inv(s) && Enabled(s, Exit(p)) && q < NPROC
    ensures ParentOk(Do(s, Exit(p)), q)
  {
    hide Exited, SleepOk, PidOk, LogsOk;
    assert SlotOk(s, p) && SlotOk(s, q) && SlotOk(s, s.init);
    ExitedSlots(s.procs, p, s.init);
  }

  lemma ExitPlaces(s: State, p: nat, q: nat)
    requires Inv(s) && Enabled(s, Exit(p)) && q < NPROC
    ensures PlaceOk(Do(s, Exit(p)), q)
  {
    hide Exited, SleepOk, PidOk, LogsOk;
    assert SlotOk(s, p) && SlotOk(s, q);
    ExitedSlots(s.procs, p, s.init);
  }

  lemma ExitPids(s: State, p: nat, q: nat)
    requires Inv(s) && Enabled(s, Exit(p)) && q < NPROC
    ensures PidOk(Do(s, Exit(p)), q)
  {
    assert SlotOk(s, p) && SlotOk(s, q);
    ExitedSlots(s.procs, p, s.init);
    hide Exited;
  }

  lemma ExitKeepsInv(s: State, p: nat)
    requires Inv(s) && Enabled(s, Exit(p))
    ensures Inv(Do(s, Exit(p)))
  {
    var t := Do(s, Exit(p));
    assert SlotOk(s, p);
    ExitedSlots(s.procs, p, s.init);
    OtherZombies(s.procs, t.procs, -1);
    assert t.procs[p].state == ZOMBIE && t.procs[p].pid == s.procs[p].pid;
    hide Exited;
    forall q: nat | q < NPROC
      ensures SlotOk(t, q)
    {
      hide *;
      ExitSleepers(s, p, q);
      ExitParents(s, p, q);
      ExitPlaces(s, p, q);
      ExitPids(s, p, q);
      SlotFrom(t, q);
    }
  }

  lemma SlotFrom(s: State, q: nat)
    requires Shape(s) && q < NPROC && SleepOk(s, q) && ParentOk(s, q) && PlaceOk(s, q) && PidOk(s, q)
    ensures SlotOk(s, q)
  {
  }

  lemma StepKeepsInv(s: State, a: Action)
    requires Inv(s) && Enabled(s, a)
    ensures Inv(Do(s, a))
  {
    match a
    case Run(p) => RunKeepsInv(s, p);
    case Yield(p) => YieldKeepsInv(s, p);
    case SleepOn(p, id) => SleepOnKeepsInv(s, p, id);
    case WakeUp(id) => WakeUpKeepsInv(s, id);
    case Kill(p) => KillKeepsInv(s, p);
    case Fork(p, c) => ForkKeepsInv(s, p, c);
    case SetParent(p) => SetParentKeepsInv(s, p);
    case ForkFails(p) => ForkFailsKeepsInv(s, p);
    case ForkEnds(p) => ForkEndsKeepsInv(s, p);
    case Exit(p) => ExitKeepsInv(s, p);
    case Wait(p, o) =>
      match o
      case Reaps(c) => WaitReapsKeepsInv(s, p, c);
      case GivesUp => WaitGivesUpKeepsInv(s, p);
      case Sleeps => WaitSleepsKeepsInv(s, p);
  }

  ghost predicate Steps(s: State, acts: seq<Action>, t: State)
    decreases |acts|
  {
    if acts == [] then s == t else Enabled(s, acts[0]) && Steps(Do(s, acts[0]), acts[1..], t)
  }

  lemma {:induction false} StepsKeepInv(s: State, acts: seq<Action>, t: State)
    requires Inv(s) && Steps(s, acts, t)
    ensures Inv(t)
    decreases |acts|
  {
    if acts != [] {
      StepKeepsInv(s, acts[0]);
      StepsKeepInv(Do(s, acts[0]), acts[1..], t);
    }
  }

  /** In every run, whoever sleeps in wait has a child and no zombie to report: it has missed no exit. */
  lemma NoExitMissed(s: State, acts: seq<Action>, t: State, p: nat)
    requires Init(s) && Steps(s, acts, t) && p < |t.procs| && t.procs[p].state == SLEEPING
             && t.procs[p].chan == OfProc(p)
    ensures HasChild(t.procs, p) && !HasZombie(t.procs, p)
  {
    InitInv(s);
    StepsKeepInv(s, acts, t);
    assert SlotOk(t, p);
  }

  /** In every run, every process but init has a parent that can still wait for it. */
  lemma ParentsLive(s: State, acts: seq<Action>, t: State, p: nat)
    requires Init(s) && Steps(s, acts, t) && p < |t.procs| && p != t.init
             && (Alive(t.procs[p]) || t.procs[p].state == ZOMBIE)
    ensures 0 <= t.procs[p].parent < |t.procs| && Alive(t.procs[t.procs[p].parent])
  {
    InitInv(s);
    StepsKeepInv(s, acts, t);
    assert SlotOk(t, p);
  }

  /** In every run, pids in use differ, and wait reports only exits, each at most once. */
  lemma ReportedOnce(s: State, acts: seq<Action>, t: State)
    requires Init(s) && Steps(s, acts, t)
    ensures forall i, j :: 0 <= i < j < |t.reports| ==> t.reports[i] != t.reports[j]
    ensures forall x :: x in t.reports ==> x in t.exits
    ensures forall x :: x in t.exits && x !in t.reports ==> ZombieWith(t.procs, x)
    ensures Shape(t) && forall p, q :: InUse(t, p) && InUse(t, q) && p != q ==> t.procs[p].pid != t.procs[q].pid
  {
    InitInv(s);
    StepsKeepInv(s, acts, t);
    forall p: nat, q: nat | InUse(t, p) && InUse(t, q) && p != q
      ensures t.procs[p].pid != t.procs[q].pid
    {
      assert SlotOk(t, p);
    }
  }

  const INT_MAX := 0x7FFF_FFFF

  /** How often allocproc gives out a pid. */
  function Forks(acts: seq<Action>): nat {
    if acts == [] then 0 else Forks(acts[1..]) + if acts[0].Fork? then 1 else 0
  }

  lemma {:induction false} PidsCounted(s: State, acts: seq<Action>, t: State)
    requires Steps(s, acts, t)
    ensures t.nextpid == s.nextpid + Forks(acts)
    decreases |acts|
  {
    if acts != [] {
      PidsCounted(Do(s, acts[0]), acts[1..], t);
    }
  }

  /**
   nextpid and all pids in use are those of the kernel's int, in every state of a run, as long as no more than INT_MAX
   - nextpid processes are made in it.
   */
  lemma PidsAreInts(s: State, acts: seq<Action>, t: State)
    requires Init(s) && Steps(s, acts, t) && s.nextpid + Forks(acts) <= INT_MAX
    ensures Shape(t) && t.nextpid <= INT_MAX && forall p :: InUse(t, p) ==> t.procs[p].pid < INT_MAX
  {
    PidsCounted(s, acts, t);
    InitInv(s);
    StepsKeepInv(s, acts, t);
    forall p: nat | InUse(t, p)
      ensures t.procs[p].pid < INT_MAX
    {
      assert SlotOk(t, p);
    }
  }

  /* The states of a process */

  /** An exit that p is told of: of a child, or, if p is init, of a process with zombie children. */
  ghost predicate TellsOf(s: State, e: nat, p: nat)
    requires e < |s.procs|
  {
    s.procs[e].parent == p || (p == s.init && HasZombie(s.procs, e))
  }

  /** What wakes process q up. */
  ghost predicate Wakes(s: State, a: Action, q: nat)
    requires q < |s.procs|
  {
    || a == Kill(q)
    || (a.WakeUp? && s.procs[q].chan == Other(a.id))
    || (a.Exit? && a.p < |s.procs| && s.procs[q].chan == OfProc(q) && TellsOf(s, a.p, q))
  }

  /** The states that a process goes through, and what takes it from each to the next. */
  ghost function Next(s: State, a: Action, q: nat): ProcState
    requires q < |s.procs| == |s.at|
  {
    match s.procs[q].state
    case UNUSED => if a.Fork? && a.c == q then EMBRYO else UNUSED
    case EMBRYO =>
      if a.ForkEnds? && a.p < |s.at| && s.at[a.p] == Forking(q) then RUNNABLE
      else if a.ForkFails? && a.p < |s.at| && s.at[a.p] == Forking(q) then UNUSED
      else EMBRYO
    case RUNNABLE => if a == Run(q) then RUNNING else RUNNABLE
    case RUNNING =>
      if a == Yield(q) then RUNNABLE
      else if a == Exit(q) then ZOMBIE
      else if a == Wait(q, Sleeps) || (a.SleepOn? && a.p == q) then SLEEPING
      else RUNNING
    case SLEEPING => if Wakes(s, a, q) then RUNNABLE else SLEEPING
    case ZOMBIE => if a.Wait? && a.o == Reaps(q) then UNUSED else ZOMBIE
  }

  /** No step takes a process through its states in any other way. */
  lemma LifeCycle(s: State, a: Action, q: nat)
    requires Inv(s) && Enabled(s, a) && q < NPROC
    ensures Shape(Do(s, a)) && Do(s, a).procs[q].state == Next(s, a, q)
  {
    if a.Exit? {
      ExitNext(s, a.p, q);
    } else if a.Wait? {
      WaitNext(s, a.p, a.o, q);
    } else {
      hide PidOk, SleepOk, LogsOk, HasZombie, HasChild, WaitEnds;
      assert SlotOk(s, q);
      if a.ForkEnds? || a.ForkFails? {
        assert SlotOk(s, a.p);
      }
    }
  }

  lemma ExitNext(s: State, p: nat, q: nat)
    requires Inv(s) && Enabled(s, Exit(p)) && q < NPROC
    ensures Do(s, Exit(p)).procs[q].state == Next(s, Exit(p), q)
  {
    hide PidOk, SleepOk, LogsOk, HasZombie;
    assert SlotOk(s, q) && SlotOk(s, p);
  }

  lemma WaitNext(s: State, p: nat, o: Outcome, q: nat)
    requires Inv(s) && Enabled(s, Wait(p, o)) && q < NPROC
    ensures Do(s, Wait(p, o)).procs[q].state == Next(s, Wait(p, o), q)
  {
    hide PidOk, SleepOk, LogsOk, ParentOk;
    assert SlotOk(s, q);
  }

  /** A fork that gets its pages makes a child of the caller with a pid that nobody has had in the run. */
  lemma ForkMakesChild(s: State, p: nat, c: nat) returns (t: State)
    requires Inv(s) && Enabled(s, Fork(p, c))
    ensures Steps(s, [Fork(p, c), SetParent(p), ForkEnds(p)], t) && Shape(t) && HasChild(t.procs, p)
    ensures t.procs == s.procs[c := s.procs[c].(state := RUNNABLE, pid := s.nextpid, parent := p)]
    ensures s.nextpid !in s.exits && forall q :: InUse(s, q) ==> s.procs[q].pid != s.nextpid
  {
    assert SlotOk(s, p) && SlotOk(s, c);
    var s1 := Do(s, Fork(p, c));
    var s2 := Do(s1, SetParent(p));
    t := Do(s2, ForkEnds(p));
    assert t.procs[c].parent == p;
    forall q: nat | InUse(s, q)
      ensures s.procs[q].pid != s.nextpid
    {
      assert SlotOk(s, q);
    }
    assert Steps(t, [], t);
    assert [ForkEnds(p)][1..] == [] && [SetParent(p), ForkEnds(p)][1..] == [ForkEnds(p)];
    assert [Fork(p, c), SetParent(p), ForkEnds(p)][1..] == [SetParent(p), ForkEnds(p)];
    assert Steps(s2, [ForkEnds(p)], t);
    assert Steps(s1, [SetParent(p), ForkEnds(p)], t);
  }

  /* kill, and what is left in a slot */

  /** Only kill marks a process; wait's reaping and allocproc's slots are the two ends of a slot's life. */
  lemma KilledBy(s: State, a: Action, q: nat)
    requires Inv(s) && Enabled(s, a) && q < NPROC
    ensures Shape(Do(s, a))
    ensures Do(s, a).procs[q].killed ==> s.procs[q].killed || a == Kill(q)
    ensures a == Kill(q) ==> Do(s, a).procs[q].killed && Do(s, a).procs[q].state != SLEEPING
    ensures s.procs[q].killed && !Do(s, a).procs[q].killed ==>
              Do(s, a).procs[q] == Proc(UNUSED, 0, -1, s.procs[q].chan, false)
  {
    if a.Exit? {
      assert SlotOk(s, a.p);
      ExitedSlots(s.procs, a.p, s.init);
      hide Exited;
    }
  }

  /** A reaped slot is as good as new. */
  lemma ReapedSlot(s: State, p: nat, c: nat)
    requires Inv(s) && Enabled(s, Wait(p, Reaps(c)))
    ensures var t := Do(s, Wait(p, Reaps(c)));
            c < |t.procs| && t.procs[c] == Proc(UNUSED, 0, -1, s.procs[c].chan, false)
    ensures Do(s, Wait(p, Reaps(c))).reports == s.reports + [s.procs[c].pid]
  {
  }

  /** kill of a slot that is not in use yet, or has no process to end. */
  predicate Stray(s: State, a: Action) {
    a.Kill? && a.p < |s.procs| && (s.procs[a.p].state == UNUSED || s.procs[a.p].state == EMBRYO)
  }

  ghost predicate NoStray(s: State, acts: seq<Action>)
    decreases |acts|
  {
    acts != [] && Enabled(s, acts[0]) ==> !Stray(s, acts[0]) && NoStray(Do(s, acts[0]), acts[1..])
  }

  /** Slots that a fork can be given are not marked killed. */
  ghost predicate Clean(s: State) {
    forall c :: 0 <= c < |s.procs| && (s.procs[c].state == UNUSED || s.procs[c].state == EMBRYO) ==> !s.procs[c].killed
  }

  lemma InitClean(s: State)
    requires Init(s)
    ensures Inv(s) && Clean(s) && WaitersUnkilled(s)
  {
    InitInv(s);
  }

  lemma StepClean(s: State, a: Action)
    requires Inv(s) && Enabled(s, a) && Clean(s)
    ensures Clean(Do(s, a)) <==> !Stray(s, a)
  {
    var t := Do(s, a);
    if Stray(s, a) {
      KilledBy(s, a, a.p);
      assert t.procs[a.p].state == s.procs[a.p].state;
    } else {
      forall q: nat | q < NPROC
        ensures t.procs[q].state == UNUSED || t.procs[q].state == EMBRYO ==> !t.procs[q].killed
      {
        StepCleanSlot(s, a, q);
      }
    }
  }

  lemma StepCleanSlot(s: State, a: Action, q: nat)
    requires Inv(s) && Enabled(s, a) && Clean(s) && !Stray(s, a) && q < NPROC
    ensures var x := Do(s, a).procs; q < |x| && (x[q].state == UNUSED || x[q].state == EMBRYO ==> !x[q].killed)
  {
    assert SlotOk(s, q);
    if a.Exit? {
      assert SlotOk(s, a.p);
      ExitedSlots(s.procs, a.p, s.init);
      hide Exited;
    } else if a.ForkFails? {
      assert SlotOk(s, a.p);
    } else if a.ForkEnds? {
      assert SlotOk(s, a.p);
    }
  }

  /** As long as kill hits only slots of processes, a new child starts without being marked killed. */
  lemma {:induction false} ChildrenStartClean(s: State, acts: seq<Action>, t: State)
    requires Inv(s) && Clean(s) && Steps(s, acts, t) && NoStray(s, acts)
    ensures Clean(t) && Inv(t)
    ensures forall p: nat, c: nat ::
              Enabled(t, Fork(p, c)) ==> c < |Do(t, Fork(p, c)).procs| && !Do(t, Fork(p, c)).procs[c].killed
    decreases |acts|
  {
    hide Inv, Clean, Do, Enabled;
    if acts != [] {
      StepClean(s, acts[0]);
      StepKeepsInv(s, acts[0]);
      ChildrenStartClean(Do(s, acts[0]), acts[1..], t);
    } else {
      forall p: nat, c: nat | Enabled(t, Fork(p, c))
        ensures c < |Do(t, Fork(p, c)).procs| && !Do(t, Fork(p, c)).procs[c].killed
      {
        ForkedClean(t, p, c);
      }
    }
  }

  lemma ForkedClean(s: State, p: nat, c: nat)
    requires Inv(s) && Clean(s) && Enabled(s, Fork(p, c))
    ensures c < |Do(s, Fork(p, c)).procs| && !Do(s, Fork(p, c)).procs[c].killed
  {
  }

  /** A kill of an UNUSED slot, on the other hand, ends the process that gets the slot next. */
  lemma KilledAtBirth(s: State, p: nat, c: nat)
    requires Inv(s) && Enabled(s, Fork(p, c)) && p != c
    ensures Enabled(s, Kill(c)) && Enabled(Do(s, Kill(c)), Fork(p, c))
    ensures Do(Do(s, Kill(c)), Fork(p, c)).procs[c].killed
  {
  }

  /** Nobody sleeps in wait who is killed: wait tests `killed`, and kill wakes, under one lock. */
  ghost predicate WaitersUnkilled(s: State) {
    forall p: nat :: p < |s.procs| && s.procs[p].state == SLEEPING && s.procs[p].chan == OfProc(p) ==>
                       !s.procs[p].killed
  }

  lemma StepWaiters(s: State, a: Action)
    requires Inv(s) && Enabled(s, a) && WaitersUnkilled(s)
    ensures WaitersUnkilled(Do(s, a))
  {
    var t := Do(s, a);
    forall q: nat | q < |t.procs| && t.procs[q].state == SLEEPING && t.procs[q].chan == OfProc(q)
      ensures !t.procs[q].killed
    {
      KilledBy(s, a, q);
      if a.Exit? {
        assert SlotOk(s, a.p);
        ExitedSlots(s.procs, a.p, s.init);
        hide Exited;
      }
    }
  }

  /** In every run, no kill is lost on a process that waits for its children. */
  lemma {:induction false} NoKillLost(s: State, acts: seq<Action>, t: State)
    requires Inv(s) && WaitersUnkilled(s) && Steps(s, acts, t)
    ensures WaitersUnkilled(t)
    decreases |acts|
  {
    hide Inv, Do, Enabled, WaitersUnkilled;
    if acts != [] {
      StepWaiters(s, acts[0]);
      StepKeepsInv(s, acts[0]);
      NoKillLost(Do(s, acts[0]), acts[1..], t);
    }
  }
}
