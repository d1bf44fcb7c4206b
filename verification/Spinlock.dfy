/**
 Spin locks (kernel/spinlock.c) on several CPUs: every access to a shared word, and xchg as a whole, is a step of its
 own. pushcli and popcli touch their own CPU only and are one step each.
 */
module Spinlock {
  const NOCPU := -1

  /** struct spinlock; owner, which no code reads, is the CPU whose xchg last found the lock free. */
  datatype Lock = Lock(locked: bool, cpu: int, owner: int)

  /** Where a CPU is in acquire or release. The two reads of holding() are steps of their own. */
  datatype Pc =
    | Out
    | AcqReadLocked(l: nat) | AcqReadCpu(l: nat) | Spin(l: nat) | SetCpu(l: nat)
    | RelReadLocked(l: nat) | RelReadCpu(l: nat) | ClearCpu(l: nat) | Unlock(l: nat) | PopAfter
    | AcquirePanic(l: nat) | ReleasePanic(l: nat)

  /**
   struct cpu and the interrupt flag. held: the locks acquired and not released; pushes: the outstanding calls of
   pushcli outside acquire. No code reads these two.
   */
  datatype Cpu = Cpu(pc: Pc, ncli: int, intena: bool, flag: bool, held: set<nat>, pushes: nat)

  datatype State = State(locks: seq<Lock>, cpus: seq<Cpu>)

  datatype Action =
    | Acquire(c: nat, l: nat) | Release(c: nat, l: nat)
    | Push(c: nat) | Pop(c: nat)
    | SetFlag(c: nat, on: bool)     // cli or sti, outside of pushcli and popcli
    | Step(c: nat)                  // the next step of acquire or release

  function PushCli(x: Cpu): Cpu {
    x.(flag := false, ncli := x.ncli + 1, intena := if x.ncli == 0 then x.flag else x.intena)
  }

  /** popcli, where it does not panic. */
  function PopCli(x: Cpu): Cpu {
    x.(ncli := x.ncli - 1, flag := x.ncli - 1 == 0 && x.intena)
  }

  predicate PopCliPanics(x: Cpu) {
    x.flag || x.ncli - 1 < 0
  }

  predicate Moving(pc: Pc) {
    !pc.Out? && !pc.AcquirePanic? && !pc.ReleasePanic?
  }

  predicate Enabled(s: State, a: Action) {
    a.c < |s.cpus| &&
    var x := s.cpus[a.c];
    match a
    case Acquire(c, l) => x.pc.Out? && l < |s.locks|
    case Release(c, l) => x.pc.Out? && l < |s.locks|
    case Push(c) => x.pc.Out?
    case Pop(c) => x.pc.Out? && x.pushes > 0
    case SetFlag(c, on) => x.pc.Out? && x.ncli == 0
    case Step(c) => Moving(x.pc) && (!x.pc.PopAfter? ==> x.pc.l < |s.locks|)
  }

  function SetLock(s: State, l: nat, x: Lock): State
    requires l < |s.locks|
  {
    s.(locks := s.locks[l := x])
  }

  function At(s: State, c: nat, x: Cpu): State
    requires c < |s.cpus|
  {
    s.(cpus := s.cpus[c := x])
  }

  function DoStep(s: State, c: nat): State
    requires c < |s.cpus| && Moving(s.cpus[c].pc) && (!s.cpus[c].pc.PopAfter? ==> s.cpus[c].pc.l < |s.locks|)
  {
    var x := s.cpus[c];
    match x.pc
    case AcqReadLocked(l) => At(s, c, x.(pc := if s.locks[l].locked then AcqReadCpu(l) else Spin(l)))
    case AcqReadCpu(l) => At(s, c, x.(pc := if s.locks[l].cpu == c then AcquirePanic(l) else Spin(l)))
    case Spin(l) =>
      if s.locks[l].locked then s
      else At(SetLock(s, l, s.locks[l].(locked := true, owner := c)), c, x.(pc := SetCpu(l)))
    case SetCpu(l) => At(SetLock(s, l, s.locks[l].(cpu := c)), c, x.(pc := Out, held := x.held + {l}))
    case RelReadLocked(l) => At(s, c, x.(pc := if s.locks[l].locked then RelReadCpu(l) else ReleasePanic(l)))
    case RelReadCpu(l) => At(s, c, x.(pc := if s.locks[l].cpu == c then ClearCpu(l) else ReleasePanic(l)))
    case ClearCpu(l) => At(SetLock(s, l, s.locks[l].(cpu := NOCPU)), c, x.(pc := Unlock(l)))
    case Unlock(l) => At(SetLock(s, l, s.locks[l].(locked := false, owner := NOCPU)), c,
        x.(pc := PopAfter, held := x.held - {l}))
    case PopAfter => At(s, c, PopCli(x).(pc := Out))
  }

  function Do(s: State, a: Action): State
    requires Enabled(s, a)
  {
    var x := s.cpus[a.c];
    match a
    case Acquire(c, l) => At(s, c, PushCli(x).(pc := AcqReadLocked(l)))
    case Release(c, l) => At(s, c, x.(pc := RelReadLocked(l)))
    case Push(c) => At(s, c, PushCli(x).(pushes := x.pushes + 1))
    case Pop(c) => At(s, c, PopCli(x).(pushes := x.pushes - 1))
    case SetFlag(c, on) => At(s, c, x.(flag := on))
    case Step(c) => DoStep(s, c)
  }

  /* What always holds */

  /** From its successful xchg to the xchg that frees it. */
  predicate Owns(x: Cpu, l: nat) {
    l in x.held || x.pc == SetCpu(l)
  }

  /** The pushcli of an acquire whose lock is not held yet, or of a release whose lock is not held any more. */
  function Extra(pc: Pc): nat {
    if pc.AcqReadLocked? || pc.AcqReadCpu? || pc.Spin? || pc.SetCpu? || pc.PopAfter? || pc.AcquirePanic? then 1 else 0
  }

  ghost predicate LockOk(s: State, l: nat)
    requires l < |s.locks|
  {
    var k := s.locks[l];
    && (k.locked <==> k.owner != NOCPU)
    && (k.owner != NOCPU ==> 0 <= k.owner < |s.cpus| && Owns(s.cpus[k.owner], l))
    && (k.cpu != NOCPU ==> k.cpu == k.owner)
  }

  ghost predicate CpuOk(s: State, c: nat)
    requires c < |s.cpus|
  {
    var x := s.cpus[c];
    && x.ncli == |x.held| + x.pushes + Extra(x.pc)
    && (x.ncli > 0 ==> !x.flag)
    && (forall l: nat :: Owns(x, l) ==> l < |s.locks| && s.locks[l].owner == c)
    && (forall l :: l in x.held ==> l < |s.locks| && (s.locks[l].cpu == c || x.pc == Unlock(l)))
    && PcOk(s, x)
  }

  ghost predicate PcOk(s: State, x: Cpu) {
    match x.pc
    case SetCpu(l) => l < |s.locks| && l !in x.held
    case AcqReadCpu(l) => l < |s.locks|
    case AcqReadLocked(l) => l < |s.locks|
    case Spin(l) => l < |s.locks| && l !in x.held
    case RelReadLocked(l) => l < |s.locks|
    case RelReadCpu(l) => l < |s.locks|
    case ClearCpu(l) => l < |s.locks| && l in x.held
    case Unlock(l) => l < |s.locks| && l in x.held && s.locks[l].cpu == NOCPU
    case AcquirePanic(l) => l in x.held
    case ReleasePanic(l) => l !in x.held
    case _ => true
  }

  ghost predicate Inv(s: State) {
    && (forall l: nat {:trigger LockOk(s, l)} :: l < |s.locks| ==> LockOk(s, l))
    && (forall c: nat {:trigger CpuOk(s, c)} :: c < |s.cpus| ==> CpuOk(s, c))
  }

  ghost predicate Init(s: State) {
    && (forall l :: 0 <= l < |s.locks| ==> s.locks[l] == Lock(false, NOCPU, NOCPU))
    && (forall c :: 0 <= c < |s.cpus| ==>
      s.cpus[c].pc.Out? && s.cpus[c].ncli == 0 && s.cpus[c].held == {} && s.cpus[c].pushes == 0)
  }

  lemma InitInv(s: State)
    requires Init(s)
    ensures Inv(s)
  {
  }

  /** A CPU that changes only itself. */
  lemma Alone(s: State, t: State, c: nat)
    requires Inv(s) && c < |s.cpus| == |t.cpus| && t == At(s, c, t.cpus[c])
    requires CpuOk(t, c) && forall l: nat :: Owns(t.cpus[c], l) <==> Owns(s.cpus[c], l)
    ensures Inv(t)
  {
    forall l: nat | l < |t.locks|
      ensures LockOk(t, l)
    {
      assert LockOk(s, l);
    }
    forall d: nat | d < |t.cpus|
      ensures CpuOk(t, d)
    {
      if d != c {
        assert CpuOk(s, d);
      }
    }
  }

  /** A CPU that changes itself and one lock, which no other CPU owns. */
  lemma WithLock(s: State, t: State, c: nat, l: nat)
    requires Inv(s) && c < |s.cpus| == |t.cpus| && l < |s.locks| == |t.locks|
    requires t == At(SetLock(s, l, t.locks[l]), c, t.cpus[c])
    requires CpuOk(t, c) && LockOk(t, l) && forall k: nat :: k != l ==> (Owns(t.cpus[c], k) <==> Owns(s.cpus[c], k))
    requires s.locks[l].owner == c || s.locks[l].owner == NOCPU
    ensures Inv(t)
  {
    forall k: nat | k < |t.locks|
      ensures LockOk(t, k)
    {
      if k != l {
        assert LockOk(s, k);
      }
    }
    forall d: nat | d < |t.cpus|
      ensures CpuOk(t, d)
    {
      if d != c {
        assert CpuOk(s, d);
        assert !Owns(s.cpus[d], l);
        assert PcOk(s, s.cpus[d]);
      }
    }
  }

  lemma SpinKeepsInv(s: State, c: nat)
    requires Inv(s) && Enabled(s, Step(c)) && s.cpus[c].pc.Spin? && !s.locks[s.cpus[c].pc.l].locked
    ensures Inv(Do(s, Step(c)))
  {
    var l, t := s.cpus[c].pc.l, Do(s, Step(c));
    assert CpuOk(s, c) && LockOk(s, l);
    assert CpuOk(t, c) && LockOk(t, l);
    hide *;
    WithLock(s, t, c, l);
  }

  lemma SetCpuKeepsInv(s: State, c: nat)
    requires Inv(s) && Enabled(s, Step(c)) && s.cpus[c].pc.SetCpu?
    ensures Inv(Do(s, Step(c)))
  {
    var l, t := s.cpus[c].pc.l, Do(s, Step(c));
    assert CpuOk(s, c) && LockOk(s, l);
    assert CpuOk(t, c) && LockOk(t, l);
    hide *;
    WithLock(s, t, c, l);
  }

  lemma ClearCpuKeepsInv(s: State, c: nat)
    requires Inv(s) && Enabled(s, Step(c)) && s.cpus[c].pc.ClearCpu?
    ensures Inv(Do(s, Step(c)))
  {
    var l, t := s.cpus[c].pc.l, Do(s, Step(c));
    assert CpuOk(s, c) && LockOk(s, l);
    assert CpuOk(t, c) && LockOk(t, l);
    hide *;
    WithLock(s, t, c, l);
  }

  lemma UnlockKeepsInv(s: State, c: nat)
    requires Inv(s) && Enabled(s, Step(c)) && s.cpus[c].pc.Unlock?
    ensures Inv(Do(s, Step(c)))
  {
    var l, t := s.cpus[c].pc.l, Do(s, Step(c));
    assert CpuOk(s, c) && LockOk(s, l);
    assert CpuOk(t, c) && LockOk(t, l);
    hide *;
    WithLock(s, t, c, l);
  }

  /** The steps that write to no lock. */
  lemma LocalStepKeepsInv(s: State, c: nat)
    requires Inv(s) && Enabled(s, Step(c)) && !s.cpus[c].pc.Spin? && !s.cpus[c].pc.SetCpu? && !s.cpus[c].pc.ClearCpu?
             && !s.cpus[c].pc.Unlock?
    ensures Inv(Do(s, Step(c)))
  {
    var x, t := s.cpus[c], Do(s, Step(c));
    assert CpuOk(s, c) && PcOk(s, x);
    if !x.pc.PopAfter? {
      assert LockOk(s, x.pc.l);
    }
    Alone(s, t, c);
  }

  lemma StepKeepsInv(s: State, c: nat)
    requires Inv(s) && Enabled(s, Step(c))
    ensures Inv(Do(s, Step(c)))
  {
    match s.cpus[c].pc
    case Spin(l) =>
      if s.locks[l].locked {
        assert Do(s, Step(c)) == s;
      } else {
        SpinKeepsInv(s, c);
      }
    case SetCpu(l) => SetCpuKeepsInv(s, c);
    case ClearCpu(l) => ClearCpuKeepsInv(s, c);
    case Unlock(l) => UnlockKeepsInv(s, c);
    case _ => LocalStepKeepsInv(s, c);
  }

  lemma DoKeepsInv(s: State, a: Action)
    requires Inv(s) && Enabled(s, a)
    ensures Inv(Do(s, a))
  {
    assert CpuOk(s, a.c);
    if a.Step? {
      StepKeepsInv(s, a.c);
    } else {
      Alone(s, Do(s, a), a.c);
    }
  }

  ghost predicate Run(s: State, acts: seq<Action>, t: State)
    decreases |acts|
  {
    if acts == [] then s == t else Enabled(s, acts[0]) && Run(Do(s, acts[0]), acts[1..], t)
  }

  lemma {:induction false} RunKeepsInv(s: State, acts: seq<Action>, t: State)
    requires Inv(s) && Run(s, acts, t)
    ensures Inv(t)
    decreases |acts|
  {
    if acts != [] {
      DoKeepsInv(s, acts[0]);
      RunKeepsInv(Do(s, acts[0]), acts[1..], t);
    }
  }

  /** In every run, no two CPUs own the same lock. */
  lemma MutualExclusion(s: State, acts: seq<Action>, t: State, c: nat, d: nat, l: nat)
    requires Init(s) && Run(s, acts, t) && c < |t.cpus| && d < |t.cpus| && Owns(t.cpus[c], l) && Owns(t.cpus[d], l)
    ensures c == d
  {
    InitInv(s);
    RunKeepsInv(s, acts, t);
    assert CpuOk(t, c) && CpuOk(t, d);
  }

  /** holding(), read whole, on CPU c. */
  predicate Holding(s: State, c: nat, l: nat)
    requires l < |s.locks|
  {
    s.locks[l].locked && s.locks[l].cpu == c
  }

  /**
   In every run, holding() is true of a CPU only if it owns the lock, and, outside of acquire and release, exactly
   then.
   */
  lemma HoldingIsOwning(s: State, acts: seq<Action>, t: State, c: nat, l: nat)
    requires Init(s) && Run(s, acts, t) && c < |t.cpus| && l < |t.locks|
    ensures Holding(t, c, l) ==> Owns(t.cpus[c], l)
    ensures t.cpus[c].pc.Out? ==> (Holding(t, c, l) <==> l in t.cpus[c].held)
  {
    InitInv(s);
    RunKeepsInv(s, acts, t);
    assert CpuOk(t, c) && LockOk(t, l);
  }

  /** In every run, acquire panics only for a lock the CPU holds already, and release only for one it does not hold. */
  lemma PanicsOnlyOnMisuse(s: State, acts: seq<Action>, t: State, c: nat)
    requires Init(s) && Run(s, acts, t) && c < |t.cpus|
    ensures t.cpus[c].pc.AcquirePanic? ==> t.cpus[c].pc.l in t.cpus[c].held
    ensures t.cpus[c].pc.ReleasePanic? ==> t.cpus[c].pc.l !in t.cpus[c].held
    ensures t.cpus[c].pc.PopAfter? || (t.cpus[c].pc.Out? && t.cpus[c].pushes > 0) ==> !PopCliPanics(t.cpus[c])
  {
    InitInv(s);
    RunKeepsInv(s, acts, t);
    assert CpuOk(t, c) && PcOk(t, t.cpus[c]);
  }

  /**
   In every run, ncli counts the locks held and the pushcli calls outstanding, and interrupts are off while there are
   any.
   */
  lemma NcliCounts(s: State, acts: seq<Action>, t: State, c: nat)
    requires Init(s) && Run(s, acts, t) && c < |t.cpus|
    ensures t.cpus[c].pc.Out? ==> t.cpus[c].ncli == |t.cpus[c].held| + t.cpus[c].pushes
    ensures t.cpus[c].ncli >= 0 && (t.cpus[c].ncli > 0 ==> !t.cpus[c].flag)
  {
    InitInv(s);
    RunKeepsInv(s, acts, t);
    assert CpuOk(t, c);
  }

  /** A run from s to t in which CPU c has interrupts pushed off all the time. */
  ghost predicate Inside(s: State, acts: seq<Action>, t: State, c: nat)
    decreases |acts|
  {
    && c < |s.cpus| && s.cpus[c].ncli > 0
    && if acts == [] then s == t else Enabled(s, acts[0]) && Inside(Do(s, acts[0]), acts[1..], t, c)
  }

  /** Meanwhile nothing, on this CPU or another, changes what the first pushcli saved. */
  lemma {:induction false} SavedStays(s: State, acts: seq<Action>, t: State, c: nat)
    requires Inside(s, acts, t, c)
    ensures c < |t.cpus| && t.cpus[c].ncli > 0 && t.cpus[c].intena == s.cpus[c].intena
    decreases |acts|
  {
    if acts != [] {
      SavedStays(Do(s, acts[0]), acts[1..], t, c);
    }
  }

  /** The action that pushes interrupts off saves the flag. */
  lemma Begins(s: State, b: Action, c: nat)
    requires c < |s.cpus| && s.cpus[c].ncli == 0 && Enabled(s, b)
    ensures |Do(s, b).cpus| == |s.cpus| && (Do(s, b).cpus[c].ncli > 0 ==> Do(s, b).cpus[c].intena == s.cpus[c].flag)
  {
  }

  /** The action that lets them on again puts back what is saved. */
  lemma Ends(t: State, a: Action, c: nat)
    requires c < |t.cpus| && t.cpus[c].ncli > 0 && Enabled(t, a)
    ensures |Do(t, a).cpus| == |t.cpus| && (Do(t, a).cpus[c].ncli == 0 ==> Do(t, a).cpus[c].flag == t.cpus[c].intena)
  {
  }

  /**
   From any state with ncli 0: if b is the pushcli or acquire of CPU c that begins it all, acts is what all CPUs do
   while ncli of c stays above 0, and a is the action that brings it back to 0, then the interrupt flag is again what
   it was before b.
   */
  lemma FlagRestored(s: State, b: Action, acts: seq<Action>, t: State, a: Action, c: nat)
    requires c < |s.cpus| && s.cpus[c].ncli == 0 && Enabled(s, b) && Inside(Do(s, b), acts, t, c)
    requires Enabled(t, a) && c < |Do(t, a).cpus| && Do(t, a).cpus[c].ncli == 0
    ensures Do(t, a).cpus[c].flag == s.cpus[c].flag
  {
    hide Do, Enabled;
    SavedStays(Do(s, b), acts, t, c);
    Begins(s, b, c);
    Ends(t, a, c);
  }
}
