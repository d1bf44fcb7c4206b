/**
 When an inode is freed (kernel/fs.c). iget takes any number: an entry of a directory that has been removed may name an
 inode that is free or about to be. This is what can go wrong then, and exactly which calls of iget bring it about.
 */
module InodeLife {
  import opened InodeCache

  /** The inode of slot t is being freed: on disk it is already. */
  predicate Going(s: State, t: nat) {
    t < |s.slots| == |s.holder| && s.slots[t].busy && 0 <= s.holder[t] < |s.procs|
        && s.procs[s.holder[t]].pc == Reclaimed(t)
  }

  /** A slot in use is for an inode that is in use, and knows its link count once it is loaded. */
  ghost predicate SlotLive(s: State, t: nat)
    requires t < |s.slots|
  {
    var x := s.slots[t];
    x.ref > 0 && x.key in s.disk ==>
      if Going(s, t) then s.disk[x.key].used || x.ref == 1
      else s.disk[x.key].used && (x.valid ==> x.nlink == s.disk[x.key].nlink)
  }

  ghost predicate PcLive(s: State, x: Proc) {
    match x.pc
    case Reclaim(t) => t < |s.slots| && LastPut(s.slots[t])
    case Reclaimed(t) => t < |s.slots| && s.slots[t].nlink == 0
    case Allocated(k) =>
      && k in s.disk && s.disk[k] == Dinode(true, 0)
      && forall t: nat :: t < |s.slots| && Caches(s.slots[t], k) ==> Going(s, t) && s.slots[t].ref == 1
    case NoType(t) => false
    case _ => true
  }

  /** ialloc gave no inode twice. */
  ghost predicate AllocsDiffer(procs: seq<Proc>) {
    forall p, q :: 0 <= p < |procs| && 0 <= q < |procs| && procs[p].pc.Allocated? && procs[p].pc == procs[q].pc ==>
        p == q
  }

  ghost predicate Live(s: State) {
    && Inv(s) && AllocsDiffer(s.procs)
    && (forall t: nat {:trigger SlotLive(s, t)} :: t < |s.slots| ==> SlotLive(s, t))
    && (forall p: nat {:trigger s.procs[p]} :: p < |s.procs| ==> PcLive(s, s.procs[p]))
  }

  /**
   What iget asks for: an inode that p has just marked in ialloc, or one in use that no other process has just marked
   and none is about to free.
   */
  predicate Safe(s: State, p: nat, k: nat)
    requires p < |s.procs|
  {
    s.procs[p].pc == Allocated(k)
    || (k in s.disk && s.disk[k].used && forall q :: 0 <= q < |s.procs| ==>
      s.procs[q].pc != Allocated(k) && !Reclaims(s, s.procs[q], k))
  }

  predicate Reclaims(s: State, x: Proc, k: nat) {
    x.pc.Reclaim? && x.pc.s < |s.slots| && s.slots[x.pc.s].key == k
  }

  ghost predicate SafeStep(s: State, a: Action) {
    Enabled(s, a) && (a.Iget? ==> Safe(s, a.p, a.k))
  }

  lemma InitLive(s: State)
    requires Init(s)
    ensures Live(s)
  {
    InitInv(s);
  }

  /* Safe calls */

  /** Process p has a reference to a slot for inode k. */
  ghost predicate HasRef(s: State, p: nat, k: nat)
    requires p < |s.procs|
  {
    exists t :: 0 <= t < |s.slots| && s.procs[p].refs[t] > 0 && s.slots[t].key == k
  }

  /** A process that is not freeing the inode and has a reference to it keeps it from being freed by another. */
  lemma HasOther(s: State, p: nat, t: nat)
    requires Live(s) && p < |s.procs| && t < |s.slots| && s.procs[p].refs[t] > 0
    ensures s.slots[t].ref > 0 && s.slots[t].key in s.disk
    ensures forall q: nat :: q < |s.procs| && q != p ==> s.procs[q].pc != Reclaim(t)
    ensures s.procs[p].pc != Reclaimed(t) ==> (Going(s, t) ==> s.slots[t].ref >= 2) && s.disk[s.slots[t].key].used
  {
    hide NoAlias, AllocsDiffer;
    InUse(s, p, t);
    assert SlotOk(s, t) && SlotLive(s, t);
    forall q: nat | q < |s.procs| && q != p
      ensures s.procs[q].pc != Reclaim(t)
    {
      assert ProcOk(s, q);
      RefsTwo(s.procs, p, q, t);
    }
    if s.procs[p].pc != Reclaimed(t) && Going(s, t) {
      OwnersHold(s, s.holder[t], t);
      RefsTwo(s.procs, p, s.holder[t], t);
    }
  }

  /** A number that an entry of a directory with links names, or that the caller has a reference to, is safe. */
  lemma GoodNumbers(s: State, p: nat, k: nat)
    requires Live(s) && p < |s.procs| && s.procs[p].pc.Out? && k in s.disk
    requires (s.disk[k].used && s.disk[k].nlink > 0) || HasRef(s, p, k)
    ensures Safe(s, p, k)
  {
    if HasRef(s, p, k) {
      var t :| 0 <= t < |s.slots| && s.procs[p].refs[t] > 0 && s.slots[t].key == k;
      HasOther(s, p, t);
      forall q: nat | q < |s.procs|
        ensures s.procs[q].pc != Allocated(k) && !Reclaims(s, s.procs[q], k)
      {
        OneReclaimed(s, q, k, t);
      }
    } else {
      forall q: nat | q < |s.procs|
        ensures s.procs[q].pc != Allocated(k) && !Reclaims(s, s.procs[q], k)
      {
        if s.procs[q].pc == Allocated(k) || Reclaims(s, s.procs[q], k) {
          NoLinks(s, q, k);
        }
      }
    }
  }

  /** Whoever reclaims inode k does so in the slot in use for it. */
  lemma OneReclaimed(s: State, q: nat, k: nat, t: nat)
    requires Live(s) && q < |s.procs| && t < |s.slots| && Caches(s.slots[t], k)
    ensures Reclaims(s, s.procs[q], k) ==> s.procs[q].pc == Reclaim(t) && s.slots[t].ref == 1 && !Going(s, t)
    ensures s.procs[q].pc == Allocated(k) ==> Going(s, t) && s.slots[t].ref == 1
  {
    assert ProcOk(s, q) && PcLive(s, s.procs[q]);
  }

  /** What is about to be freed, or has just been marked, has no links. */
  lemma NoLinks(s: State, q: nat, k: nat)
    requires Live(s) && q < |s.procs| && (s.procs[q].pc == Allocated(k) || Reclaims(s, s.procs[q], k))
    ensures k in s.disk && s.disk[k] == Dinode(true, 0)
  {
    assert ProcOk(s, q) && PcLive(s, s.procs[q]);
    if s.procs[q].pc.Reclaim? {
      var t := s.procs[q].pc.s;
      assert SlotOk(s, t) && SlotLive(s, t);
    }
  }

  /** A free inode is cached, if at all, in a slot on its way out. */
  lemma FreeIsGoing(s: State, k: nat)
    requires Live(s) && k in s.disk && !s.disk[k].used
    ensures forall u: nat :: u < |s.slots| && Caches(s.slots[u], k) ==> Going(s, u) && s.slots[u].ref == 1
    ensures forall q: nat :: q < |s.procs| ==> s.procs[q].pc != Allocated(k)
  {
    forall u: nat | u < |s.slots| && Caches(s.slots[u], k)
      ensures Going(s, u) && s.slots[u].ref == 1
    {
      assert SlotLive(s, u);
    }
    forall q: nat | q < |s.procs|
      ensures s.procs[q].pc != Allocated(k)
    {
      assert PcLive(s, s.procs[q]);
    }
  }

  /* Safe steps keep it so */

  /** Process p changes its pc, and is not freeing anything before or after. */
  lemma PcStep(s: State, s': State, p: nat)
    requires Live(s) && Inv(s') && p < |s.procs| == |s'.procs| && s' == WithProc(s, p, s'.procs[p])
    requires !s.procs[p].pc.Reclaimed? && !s'.procs[p].pc.Reclaimed? && !s'.procs[p].pc.Allocated?
             && PcLive(s', s'.procs[p])
    ensures Live(s')
  {
    hide Inv;
    assert forall u: nat :: Going(s', u) == Going(s, u);
    forall u: nat | u < |s'.slots|
      ensures SlotLive(s', u)
    {
      assert SlotLive(s, u);
    }
    forall q: nat | q < |s'.procs|
      ensures PcLive(s', s'.procs[q])
    {
      assert PcLive(s, s.procs[q]);
    }
  }

  lemma IlockLive(s: State, p: nat, t: nat)
    requires Live(s) && Enabled(s, Ilock(p, t))
    ensures Live(Do(s, Ilock(p, t)))
  {
    DoKeepsInv(s, Ilock(p, t));
    PcStep(s, Do(s, Ilock(p, t)), p);
  }

  /** One slot and one process change; neither was, nor is, on its way out. */
  lemma SlotStep(s: State, s': State, p: nat, t: nat)
    requires Live(s) && Inv(s') && p < |s.procs| == |s'.procs|
             && t < |s.slots| == |s'.slots| == |s'.holder| == |s.holder| && s'.disk == s.disk
    requires s' == WithProc(WithSlot(s, t, s'.slots[t]), p, s'.procs[p]).(holder := s'.holder)
             && s'.holder == s.holder[t := s'.holder[t]]
    requires s'.slots[t].key == s.slots[t].key && s'.slots[t].ref == s.slots[t].ref
    requires !s'.procs[p].pc.Allocated? && !s.procs[p].pc.Reclaimed? && !s'.procs[p].pc.Reclaimed?
             && PcLive(s', s'.procs[p]) && SlotLive(s', t)
    requires !Going(s, t) && !Going(s', t)
    requires forall q: nat :: q < |s.procs| && q != p ==> !Owns(s.procs[q], t)
    ensures Live(s')
  {
    hide Inv;
    assert forall u: nat :: Going(s', u) == Going(s, u);
    forall u: nat | u < |s'.slots|
      ensures SlotLive(s', u)
    {
      assert SlotLive(s, u);
    }
    forall q: nat | q < |s'.procs|
      ensures PcLive(s', s'.procs[q])
    {
      assert PcLive(s, s.procs[q]);
    }
  }

  lemma TryLive(s: State, p: nat)
    requires Live(s) && Enabled(s, Try(p))
    ensures Live(Do(s, Try(p)))
  {
    DoKeepsInv(s, Try(p));
    var t, s' := s.procs[p].pc.s, Do(s, Try(p));
    assert ProcOk(s, p);
    HasOther(s, p, t);
    assert SlotLive(s, t);
    if s.slots[t].busy {
      PcStep(s, s', p);
    } else {
      OthersDoNotOwn(s, t);
      hide Inv;
      SlotStep(s, s', p, t);
    }
  }

  lemma LoadLive(s: State, p: nat)
    requires Live(s) && Enabled(s, Load(p))
    ensures Live(Do(s, Load(p)))
  {
    DoKeepsInv(s, Load(p));
    var t := s.procs[p].pc.s;
    OwnersHold(s, p, t);
    HasOther(s, p, t);
    OthersDoNotOwn(s, t);
    assert SlotLive(s, t);
    hide Inv;
    SlotStep(s, Do(s, Load(p)), p, t);
  }

  lemma ReclaimLive(s: State, p: nat, t: nat)
    requires Live(s) && Enabled(s, Iput(p, t)) && LastPut(s.slots[t])
    ensures Live(Do(s, Iput(p, t)))
  {
    DoKeepsInv(s, Iput(p, t));
    LastIsUnlocked(s, p, t);
    HasOther(s, p, t);
    OthersDoNotOwn(s, t);
    assert SlotLive(s, t);
    hide Inv;
    SlotStep(s, Do(s, Iput(p, t)), p, t);
  }

  lemma PutLive(s: State, p: nat, t: nat)
    requires Live(s) && Enabled(s, Iput(p, t)) && !LastPut(s.slots[t])
    ensures Live(Do(s, Iput(p, t)))
  {
    DoKeepsInv(s, Iput(p, t));
    var s' := Do(s, Iput(p, t));
    HasOther(s, p, t);
    hide Inv;
    assert forall u: nat :: Going(s', u) == Going(s, u);
    forall u: nat | u < |s'.slots|
      ensures SlotLive(s', u)
    {
      assert SlotLive(s, u);
    }
    forall q: nat | q < |s'.procs|
      ensures PcLive(s', s'.procs[q])
    {
      assert PcLive(s, s.procs[q]);
    }
  }

  lemma FreeLive(s: State, p: nat)
    requires Live(s) && Enabled(s, Free(p))
    ensures Live(Do(s, Free(p)))
  {
    DoKeepsInv(s, Free(p));
    var t, s' := s.procs[p].pc.s, Do(s, Free(p));
    OwnersHold(s, p, t);
    InUse(s, p, t);
    assert SlotLive(s, t) && PcLive(s, s.procs[p]);
    forall u: nat | u < |s'.slots|
      ensures SlotLive(s', u)
    {
      assert SlotLive(s, u);
    }
    forall q: nat | q < |s'.procs|
      ensures PcLive(s', s'.procs[q])
    {
      assert PcLive(s, s.procs[q]);
      if q != p {
        OneReclaimed(s, q, s.slots[t].key, t);
      }
    }
  }

  lemma DropLive(s: State, p: nat)
    requires Live(s) && Enabled(s, Drop(p))
    ensures Live(Do(s, Drop(p)))
  {
    DoKeepsInv(s, Drop(p));
    var t, s' := s.procs[p].pc.s, Do(s, Drop(p));
    OwnersHold(s, p, t);
    OthersDoNotOwn(s, t);
    assert SlotLive(s, t);
    hide Inv;
    assert forall u: nat :: u != t ==> Going(s', u) == Going(s, u);
    forall u: nat | u < |s'.slots|
      ensures SlotLive(s', u)
    {
      assert SlotLive(s, u);
    }
    forall q: nat | q < |s'.procs|
      ensures PcLive(s', s'.procs[q])
    {
      assert PcLive(s, s.procs[q]);
    }
  }

  lemma IunlockLive(s: State, p: nat, t: nat)
    requires Live(s) && Enabled(s, Iunlock(p, t))
    ensures Live(Do(s, Iunlock(p, t)))
  {
    DoKeepsInv(s, Iunlock(p, t));
    var s' := Do(s, Iunlock(p, t));
    OwnersHold(s, p, t);
    OthersDoNotOwn(s, t);
    hide Inv;
    assert forall u: nat :: Going(s', u) == Going(s, u);
    forall u: nat | u < |s'.slots|
      ensures SlotLive(s', u)
    {
      assert SlotLive(s, u);
    }
    forall q: nat | q < |s'.procs|
      ensures PcLive(s', s'.procs[q])
    {
      assert PcLive(s, s.procs[q]);
    }
  }

  lemma SetNlinkLive(s: State, p: nat, t: nat, n: nat)
    requires Live(s) && Enabled(s, SetNlink(p, t, n))
    ensures Live(Do(s, SetNlink(p, t, n)))
  {
    DoKeepsInv(s, SetNlink(p, t, n));
    var s' := Do(s, SetNlink(p, t, n));
    OwnersHold(s, p, t);
    OthersDoNotOwn(s, t);
    HasOther(s, p, t);
    assert SlotLive(s, t);
    assert forall u: nat :: Going(s', u) == Going(s, u);
    forall u: nat | u < |s'.slots|
      ensures SlotLive(s', u)
    {
      assert SlotLive(s, u);
    }
    forall q: nat | q < |s'.procs|
      ensures PcLive(s', s'.procs[q])
    {
      assert PcLive(s, s.procs[q]);
      if q != p {
        OneReclaimed(s, q, s.slots[t].key, t);
      }
    }
  }

  lemma IallocLive(s: State, p: nat, k: nat)
    requires Live(s) && Enabled(s, Ialloc(p, k))
    ensures Live(Do(s, Ialloc(p, k)))
  {
    DoKeepsInv(s, Ialloc(p, k));
    var s' := Do(s, Ialloc(p, k));
    FreeIsGoing(s, k);
    hide Inv;
    assert forall u: nat :: Going(s', u) == Going(s, u);
    forall u: nat | u < |s'.slots|
      ensures SlotLive(s', u)
    {
      assert SlotLive(s, u);
    }
    forall q: nat | q < |s'.procs|
      ensures PcLive(s', s'.procs[q])
    {
      assert PcLive(s, s.procs[q]);
    }
  }

  lemma IdupLive(s: State, p: nat, q': nat, t: nat)
    requires Live(s) && Enabled(s, Idup(p, q', t))
    ensures Live(Do(s, Idup(p, q', t)))
  {
    DoKeepsInv(s, Idup(p, q', t));
    var s' := Do(s, Idup(p, q', t));
    HasOther(s, p, t);
    hide Inv;
    assert forall u: nat :: Going(s', u) == Going(s, u);
    forall u: nat | u < |s'.slots|
      ensures SlotLive(s', u)
    {
      assert SlotLive(s, u);
    }
    forall q: nat | q < |s'.procs|
      ensures PcLive(s', s'.procs[q])
    {
      assert PcLive(s, s.procs[q]);
    }
  }

  lemma IgetLive(s: State, p: nat, k: nat)
    requires Live(s) && Enabled(s, Iget(p, k)) && Safe(s, p, k)
    ensures Live(Do(s, Iget(p, k)))
  {
    DoKeepsInv(s, Iget(p, k));
    var t :| t >= 0 && Finds(s.slots, k, t) && Do(s, Iget(p, k)) == Got(s, p, k, t);
    var s' := Got(s, p, k, t);
    assert s.disk[k].used by {
      assert PcLive(s, s.procs[p]);
    }
    hide NoAlias;
    if !Caches(s.slots[t], k) {
      NobodyAt(s, t);
    }
    assert forall u: nat :: Going(s', u) == Going(s, u);
    forall u: nat | u < |s'.slots|
      ensures SlotLive(s', u)
    {
      assert SlotLive(s, u);
    }
    forall q: nat | q < |s'.procs|
      ensures PcLive(s', s'.procs[q])
    {
      IgetPc(s, p, k, t, q);
    }
  }

  lemma IgetPc(s: State, p: nat, k: nat, t: nat, q: nat)
    requires Live(s) && Enabled(s, Iget(p, k)) && Safe(s, p, k) && t < |s.slots| && Finds(s.slots, k, t)
             && q < |s.procs|
    ensures PcLive(Got(s, p, k, t), Got(s, p, k, t).procs[q])
  {
    hide NoAlias;
    assert PcLive(s, s.procs[q]) && PcLive(s, s.procs[p]) && ProcOk(s, q);
    if !Caches(s.slots[t], k) {
      NobodyAt(s, t);
    }
  }

  lemma StepLive(s: State, a: Action)
    requires Live(s) && SafeStep(s, a)
    ensures Live(Do(s, a))
  {
    hide Live, Do, Safe;
    match a
    case Ialloc(p, k) => IallocLive(s, p, k);
    case Iget(p, k) => IgetLive(s, p, k);
    case Idup(p, q, t) => IdupLive(s, p, q, t);
    case Ilock(p, t) => IlockLive(s, p, t);
    case Try(p) => TryLive(s, p);
    case Load(p) => LoadLive(s, p);
    case Iunlock(p, t) => IunlockLive(s, p, t);
    case SetNlink(p, t, n) => SetNlinkLive(s, p, t, n);
    case Iput(p, t) =>
      if LastPut(s.slots[t]) {
        ReclaimLive(s, p, t);
      } else {
        PutLive(s, p, t);
      }
    case Free(p) => FreeLive(s, p);
    case Drop(p) => DropLive(s, p);
  }

  /* Runs in which every call of iget is safe */

  ghost predicate SafeRun(s: State, acts: seq<Action>, t: State)
    decreases |acts|
  {
    if acts == [] then s == t else SafeStep(s, acts[0]) && SafeRun(Do(s, acts[0]), acts[1..], t)
  }

  lemma {:induction false} SafeRunLive(s: State, acts: seq<Action>, t: State)
    requires Live(s) && SafeRun(s, acts, t)
    ensures Live(t)
    decreases |acts|
  {
    hide Live, Do;
    if acts != [] {
      StepLive(s, acts[0]);
      SafeRunLive(Do(s, acts[0]), acts[1..], t);
    }
  }

  /** Somebody has panicked with "ilock: no type", or is about to free an inode that others refer to. */
  ghost predicate Failed(s: State) {
    (exists p :: 0 <= p < |s.procs| && s.procs[p].pc.NoType?)
    || (exists p: nat :: p < |s.procs| && Enabled(s, Free(p)) && s.slots[s.procs[p].pc.s].ref >= 2)
  }

  /**
   In such a run an inode is truncated and freed only when it has no links and its one reference is the one being put.
   */
  lemma FreedOnlyUnused(s: State, acts: seq<Action>, s': State, p: nat)
    requires Init(s) && SafeRun(s, acts, s') && Enabled(s', Free(p))
    ensures var t := s'.procs[p].pc.s;
            && s'.slots[t].ref == 1 && s'.procs[p].refs[t] == 1 && s'.disk[s'.slots[t].key] == Dinode(true, 0)
            && forall q :: 0 <= q < |s'.procs| && q != p ==> s'.procs[q].refs[t] == 0
  {
    InitLive(s);
    SafeRunLive(s, acts, s');
    var t := s'.procs[p].pc.s;
    OwnersHold(s', p, t);
    assert SlotOk(s', t) && SlotLive(s', t) && PcLive(s', s'.procs[p]);
    RefsUpdate(s'.procs, p, s'.procs[p], t);
    forall q: nat | q < |s'.procs| && q != p
      ensures s'.procs[q].refs[t] == 0
    {
      RefsTwo(s'.procs, p, q, t);
    }
  }

  lemma LiveNotFailed(s: State)
    requires Live(s)
    ensures !Failed(s)
  {
    forall p: nat | p < |s.procs|
      ensures !s.procs[p].pc.NoType? && (Enabled(s, Free(p)) ==> s.slots[s.procs[p].pc.s].ref == 1)
    {
      assert PcLive(s, s.procs[p]);
    }
  }

  /** Nor does it reach the panic "ilock: no type". */
  lemma NeverFails(s: State, acts: seq<Action>, s': State)
    requires Init(s) && SafeRun(s, acts, s')
    ensures !Failed(s')
  {
    InitLive(s);
    SafeRunLive(s, acts, s');
    LiveNotFailed(s');
  }

  /* A call that is not safe */

  ghost predicate CanFail(s: State) {
    exists acts, s' :: SafeRun(s, acts, s') && Failed(s')
  }

  lemma FailsLater(s: State, a: Action)
    requires SafeStep(s, a) && CanFail(Do(s, a))
    ensures CanFail(s)
  {
    hide Do, Enabled, Safe;
    var acts, s' :| SafeRun(Do(s, a), acts, s') && Failed(s');
    var all := [a] + acts;
    assert all[0] == a && all[1..] == acts;
    assert SafeRun(s, all, s');
  }

  lemma FailsNow(s: State)
    requires Failed(s)
    ensures CanFail(s)
  {
    assert SafeRun(s, [], s);
  }

  /** p has a reference to slot t, which nobody else uses: for inode k, not loaded, not locked. */
  ghost predicate Sole(s: State, p: nat, t: nat, k: nat) {
    && |s.slots| == |s.holder| && p < |s.procs| && t < |s.slots| && k in s.disk
    && s.procs[p].pc.Out? && s.procs[p].refs[t] > 0 && t !in s.procs[p].locked
    && s.slots[t].key == k && s.slots[t].ref == 1 && !s.slots[t].busy && !s.slots[t].valid
  }

  /** What ilock does with a slot of one's own. */
  ghost predicate AfterLock(s: State, s': State, p: nat, t: nat, k: nat)
    requires Sole(s, p, t, k)
  {
    var x := s.procs[p];
    && s'.slots == s.slots[t := s.slots[t].(busy := true, valid := true, nlink := s.disk[k].nlink)]
    && s'.procs == s.procs[p := if s.disk[k].used then x.(locked := x.locked + {t}) else x.(pc := NoType(t))]
    && s'.disk == s.disk && s'.holder == s.holder[t := p]
  }

  lemma LockSole(s: State, p: nat, t: nat, k: nat, s': State)
    requires Sole(s, p, t, k) && AfterLock(s, s', p, t, k) && CanFail(s')
    ensures CanFail(s)
  {
    hide CanFail;
    var s1 := Do(s, Ilock(p, t));
    var s2 := Do(s1, Try(p));
    var s3 := Do(s2, Load(p));
    assert s3.procs == s'.procs && s3.slots == s'.slots;
    assert s3 == s';
    FailsLater(s2, Load(p));
    FailsLater(s1, Try(p));
    FailsLater(s, Ilock(p, t));
  }

  /** A free inode: ilock panics. */
  lemma LoadFails(s: State, p: nat, t: nat, k: nat)
    requires Sole(s, p, t, k) && !s.disk[k].used
    ensures CanFail(s)
  {
    var s' := State(s.slots[t := s.slots[t].(busy := true, valid := true, nlink := s.disk[k].nlink)], s.disk,
                    s.procs[p := s.procs[p].(pc := NoType(t))], s.holder[t := p]);
    assert s'.procs[p].pc.NoType?;
    FailsNow(s');
    LockSole(s, p, t, k, s');
  }

  /** iget finds one slot at most. */
  lemma FindsOne(slots: seq<Slot>, k: nat, t: int, u: int)
    requires Finds(slots, k, t) && Finds(slots, k, u)
    ensures t == u
  {
  }

  /** q has just marked inode k and not got it yet; its slot t, which p alone refers to, is loaded. */
  ghost predicate Stolen(s: State, p: nat, t: nat, k: nat, q: nat) {
    && |s.slots| == |s.holder| && p < |s.procs| && q < |s.procs| && q != p && t < |s.slots| && k in s.disk
    && s.procs[p].refs[t] > 0 && s.procs[q].pc == Allocated(k)
    && s.slots[t].key == k && s.slots[t].ref == 1 && s.slots[t].valid && s.slots[t].nlink == 0
    && forall u: nat :: u < |s.slots| && u != t ==> !Caches(s.slots[u], k)
  }

  /** q's iget comes between p's deciding to free the inode and its doing so. */
  lemma GetFails(s: State, p: nat, t: nat, k: nat, q: nat)
    requires Stolen(s, p, t, k, q) && s.procs[p].pc == Reclaim(t)
    ensures CanFail(s)
  {
    hide CanFail;
    assert Caches(s.slots[t], k) && Finds(s.slots, k, t);
    var u :| u >= 0 && Finds(s.slots, k, u) && Do(s, Iget(q, k)) == Got(s, q, k, u);
    FindsOne(s.slots, k, t, u);
    var s' := Got(s, q, k, t);
    assert s'.procs[p].pc == Reclaim(t) && s'.slots[t].ref == 2;
    assert Enabled(s', Free(p));
    FailsNow(s');
    FailsLater(s, Iget(q, k));
  }

  lemma PutFails(s: State, p: nat, t: nat, k: nat, q: nat)
    requires Stolen(s, p, t, k, q) && s.procs[p].pc.Out? && t !in s.procs[p].locked && !s.slots[t].busy
    ensures CanFail(s)
  {
    hide CanFail;
    var s' := Do(s, Iput(p, t));
    assert Stolen(s', p, t, k, q);
    GetFails(s', p, t, k, q);
    FailsLater(s, Iput(p, t));
  }

  lemma UnlockFails(s: State, p: nat, t: nat, k: nat, q: nat)
    requires Stolen(s, p, t, k, q) && s.procs[p].pc.Out? && t in s.procs[p].locked
    ensures CanFail(s)
  {
    hide CanFail;
    var s' := Do(s, Iunlock(p, t));
    assert Stolen(s', p, t, k, q);
    PutFails(s', p, t, k, q);
    FailsLater(s, Iunlock(p, t));
  }

  /** An inode that q has just marked and not got yet: p frees it while q gets it. */
  lemma FreeFails(s: State, p: nat, t: nat, k: nat, q: nat)
    requires Sole(s, p, t, k) && s.disk[k] == Dinode(true, 0) && q < |s.procs| && q != p
             && s.procs[q].pc == Allocated(k)
    requires forall u: nat :: u < |s.slots| && u != t ==> !Caches(s.slots[u], k)
    ensures CanFail(s)
  {
    hide CanFail;
    var x := s.procs[p];
    var s' := State(s.slots[t := s.slots[t].(busy := true, valid := true, nlink := 0)], s.disk,
                    s.procs[p := x.(locked := x.locked + {t})], s.holder[t := p]);
    assert Stolen(s', p, t, k, q);
    UnlockFails(s', p, t, k, q);
    LockSole(s, p, t, k, s');
  }

  /** Then p's slot is its own, once whoever was freeing the inode is done. */
  lemma SoleFails(s: State, p: nat, t: nat, k: nat)
    requires Sole(s, p, t, k) && NoAlias(s.slots)
    requires !s.disk[k].used || (s.disk[k] == Dinode(true, 0)
                                   && exists q :: 0 <= q < |s.procs| && s.procs[q].pc == Allocated(k))
    ensures CanFail(s)
  {
    hide CanFail;
    if !s.disk[k].used {
      LoadFails(s, p, t, k);
    } else {
      var q :| 0 <= q < |s.procs| && s.procs[q].pc == Allocated(k);
      FreeFails(s, p, t, k, q);
    }
  }

  /** After iget of an inode that is free or has just been marked: the slot was not in use, or on its way out. */
  lemma GotStale(s: State, p: nat, k: nat, t: nat)
    requires Live(s) && Enabled(s, Iget(p, k)) && s.procs[p].pc.Out? && t < |s.slots| && Finds(s.slots, k, t)
    requires !s.disk[k].used || exists q :: 0 <= q < |s.procs| && s.procs[q].pc == Allocated(k)
    ensures CanFail(Got(s, p, k, t))
  {
    hide CanFail;
    var s' := Got(s, p, k, t);
    assert s.disk[k].used ==> s.disk[k] == Dinode(true, 0) by {
      if s.disk[k].used {
        var q :| 0 <= q < |s.procs| && s.procs[q].pc == Allocated(k);
        assert PcLive(s, s.procs[q]);
      }
    }
    DoKeepsInv(s, Iget(p, k));
    SameGot(s, p, k, t);
    if Caches(s.slots[t], k) {
      GotGoing(s, p, k, t);
    } else {
      NobodyAt(s, t);
      assert Sole(s', p, t, k);
      assert forall q :: 0 <= q < |s.procs| && s.procs[q].pc == Allocated(k) ==> s'.procs[q].pc == Allocated(k);
      SoleFails(s', p, t, k);
    }
  }

  lemma SameGot(s: State, p: nat, k: nat, t: nat)
    requires Enabled(s, Iget(p, k)) && t < |s.slots| && Finds(s.slots, k, t)
    ensures Do(s, Iget(p, k)) == Got(s, p, k, t)
  {
    var u :| u >= 0 && Finds(s.slots, k, u) && Do(s, Iget(p, k)) == Got(s, p, k, u);
    FindsOne(s.slots, k, t, u);
  }

  /** The slot was on its way out: whoever frees it drops its reference, and p is left with the slot. */
  lemma GotGoing(s: State, p: nat, k: nat, t: nat)
    requires Live(s) && Enabled(s, Iget(p, k)) && s.procs[p].pc.Out? && t < |s.slots| && Finds(s.slots, k, t)
             && Caches(s.slots[t], k)
    requires s.disk[k].used ==> s.disk[k] == Dinode(true, 0)
    requires !s.disk[k].used || exists q :: 0 <= q < |s.procs| && s.procs[q].pc == Allocated(k)
    ensures CanFail(Got(s, p, k, t))
  {
    hide CanFail;
    assert Going(s, t) && s.slots[t].ref == 1 by {
      if s.disk[k].used {
        var q :| 0 <= q < |s.procs| && s.procs[q].pc == Allocated(k);
        OneReclaimed(s, q, k, t);
      } else {
        FreeIsGoing(s, k);
      }
    }
    var r, s1 := s.holder[t], Got(s, p, k, t);
    OwnersHold(s, r, t);
    OthersDoNotOwn(s, t);
    var s2 := Do(s1, Drop(r));
    assert Sole(s2, p, t, k);
    assert forall q :: 0 <= q < |s.procs| && s.procs[q].pc == Allocated(k) ==> s2.procs[q].pc == Allocated(k);
    assert NoAlias(s2.slots);
    SoleFails(s2, p, t, k);
    FailsLater(s1, Drop(r));
  }

  /** The inode is about to be freed: now its slot has a second reference. */
  lemma GotReclaimed(s: State, p: nat, k: nat, t: nat, q: nat)
    requires Live(s) && Enabled(s, Iget(p, k)) && s.procs[p].pc.Out? && t < |s.slots| && Finds(s.slots, k, t)
    requires q < |s.procs| && Reclaims(s, s.procs[q], k)
    ensures CanFail(Got(s, p, k, t))
  {
    hide CanFail;
    var t0, s' := s.procs[q].pc.s, Got(s, p, k, t);
    OwnersHold(s, q, t0);
    InUse(s, q, t0);
    assert Caches(s.slots[t0], k) && t == t0;
    assert SlotOk(s, t) && PcLive(s, s.procs[q]);
    assert s'.procs[q].pc == Reclaim(t) && s'.slots[t].ref == 2;
    assert Enabled(s', Free(q));
    FailsNow(s');
  }

  lemma UnsafeFails(s: State, p: nat, k: nat)
    requires Live(s) && Enabled(s, Iget(p, k)) && !Safe(s, p, k)
    ensures CanFail(Do(s, Iget(p, k)))
  {
    hide CanFail, Live;
    var t :| t >= 0 && Finds(s.slots, k, t) && Do(s, Iget(p, k)) == Got(s, p, k, t);
    if !s.disk[k].used || exists q :: 0 <= q < |s.procs| && s.procs[q].pc == Allocated(k) {
      GotStale(s, p, k, t);
    } else {
      var q :| 0 <= q < |s.procs| && Reclaims(s, s.procs[q], k);
      GotReclaimed(s, p, k, t, q);
    }
  }

  /**
   As long as all calls of iget have been safe, the next one is safe if and only if no run from there, with safe calls
   only, comes to the panic or to freeing an inode that others refer to.
   */
  lemma SafeIff(s: State, p: nat, k: nat)
    requires Live(s) && Enabled(s, Iget(p, k))
    ensures Safe(s, p, k) <==> !CanFail(Do(s, Iget(p, k)))
  {
    hide Live, Safe;
    var s1 := Do(s, Iget(p, k));
    if Safe(s, p, k) {
      StepLive(s, Iget(p, k));
      forall acts, s' | SafeRun(s1, acts, s')
        ensures !Failed(s')
      {
        SafeRunLive(s1, acts, s');
        LiveNotFailed(s');
      }
    } else {
      UnsafeFails(s, p, k);
    }
  }

  /* It happens */

  /**
   Process 0 looks up inode 7, removes its last name and puts it, so that it is freed; each iget so far is safe.
   Process 1, whose directory still has the number under "..", is about to call iget.
   */
  function Removal(): seq<Action> {
    [Iget(0, 7), Ilock(0, 0), Try(0), Load(0), SetNlink(0, 0, 0), Iunlock(0, 0), Iput(0, 0), Free(0), Drop(0)]
  }

  /** One inode with one name, one slot, two processes. */
  function Before(): State {
    State([Slot(0, 0, false, false, 0)], map[7 := Dinode(true, 1)],
        [Proc(Out, multiset{}, {}), Proc(Out, multiset{}, {})], [0])
  }

  /** Process 0 has slot 0 for inode 7. */
  function During(x: Slot, d: Dinode, pc: Pc, locked: set<nat>): State {
    State([x], map[7 := d], [Proc(pc, multiset{0}, locked), Proc(Out, multiset{}, {})], [0])
  }

  lemma Getting(acts: seq<Action>, t: State)
    requires SafeRun(During(Slot(7, 1, false, false, 0), Dinode(true, 1), Out, {}), acts, t)
    ensures SafeRun(Before(), [Iget(0, 7)] + acts, t)
  {
    hide SafeRun;
    assert Finds(Before().slots, 7, 0);
    SameGot(Before(), 0, 7, 0);
    var d := Do(Before(), Iget(0, 7));
    assert multiset{} + multiset{0} == multiset{0};
    assert d.procs == During(Slot(7, 1, false, false, 0), Dinode(true, 1), Out, {}).procs;
    assert d.slots == [Slot(7, 1, false, false, 0)];
    Then(Before(), Iget(0, 7), acts, t);
  }

  lemma Loaded(acts: seq<Action>, t: State)
    requires SafeRun(During(Slot(7, 1, true, true, 1), Dinode(true, 1), Out, {0}), acts, t)
    ensures SafeRun(During(Slot(7, 1, true, false, 0), Dinode(true, 1), Loading(0), {}), [Load(0)] + acts, t)
  {
    hide SafeRun;
    var s := During(Slot(7, 1, true, false, 0), Dinode(true, 1), Loading(0), {});
    assert {} + {0} == {0};
    var l := Do(s, Load(0));
    assert l.procs == During(Slot(7, 1, true, true, 1), Dinode(true, 1), Out, {0}).procs;
    assert l.slots == [Slot(7, 1, true, true, 1)] && l.holder == [0];
    assert l == During(Slot(7, 1, true, true, 1), Dinode(true, 1), Out, {0});
    Then(s, Load(0), acts, t);
  }

  lemma Locking(acts: seq<Action>, t: State)
    requires SafeRun(During(Slot(7, 1, true, true, 1), Dinode(true, 1), Out, {0}), acts, t)
    ensures SafeRun(Before(), [Iget(0, 7)] + ([Ilock(0, 0)] + ([Try(0)] + ([Load(0)] + acts))), t)
  {
    hide SafeRun;
    var x := Slot(7, 1, false, false, 0);
    var s1, s2, s3 := During(x, Dinode(true, 1), Out, {}), During(x, Dinode(true, 1), Wants(0), {}),
        During(x.(busy := true), Dinode(true, 1), Loading(0), {});
    assert Do(s1, Ilock(0, 0)) == s2;
    assert Do(s2, Try(0)) == s3;
    Loaded(acts, t);
    Then(s2, Try(0), [Load(0)] + acts, t);
    Then(s1, Ilock(0, 0), [Try(0)] + ([Load(0)] + acts), t);
    Getting([Ilock(0, 0)] + ([Try(0)] + ([Load(0)] + acts)), t);
  }

  lemma Then(s: State, a: Action, acts: seq<Action>, t: State)
    requires SafeStep(s, a) && SafeRun(Do(s, a), acts, t)
    ensures SafeRun(s, [a] + acts, t)
  {
    hide Do, Enabled, Safe;
    assert ([a] + acts)[1..] == acts;
  }

  /** Where process 0 decides to free the inode. */
  lemma Putting(acts: seq<Action>, t: State)
    requires SafeRun(During(Slot(7, 1, true, true, 0), Dinode(true, 0), Reclaim(0), {}), acts, t)
    ensures SafeRun(During(Slot(7, 1, true, true, 1), Dinode(true, 1), Out, {0}),
            [SetNlink(0, 0, 0)] + ([Iunlock(0, 0)] + ([Iput(0, 0)] + acts)), t)
  {
    hide SafeRun;
    var x := Slot(7, 1, true, true, 0);
    var s1, s2, s3 := During(x.(nlink := 1), Dinode(true, 1), Out, {0}), During(x, Dinode(true, 0), Out, {0}),
        During(x.(busy := false), Dinode(true, 0), Out, {});
    assert Do(s1, SetNlink(0, 0, 0)) == s2;
    var d := Do(s2, Iunlock(0, 0));
    assert {0} - {0} == {};
    assert d.procs == s3.procs && d.slots == s3.slots;
    assert Do(s3, Iput(0, 0)) == During(x, Dinode(true, 0), Reclaim(0), {});
    Then(s3, Iput(0, 0), acts, t);
    Then(s2, Iunlock(0, 0), [Iput(0, 0)] + acts, t);
    Then(s1, SetNlink(0, 0, 0), [Iunlock(0, 0)] + ([Iput(0, 0)] + acts), t);
  }

  /** The end of it. */
  function After(): State {
    State([Slot(7, 0, false, false, 0)], map[7 := Dinode(false, 0)],
        [Proc(Out, multiset{}, {}), Proc(Out, multiset{}, {})], [0])
  }

  lemma Dropping()
    ensures SafeRun(During(Slot(7, 1, true, true, 0), Dinode(true, 0), Reclaim(0), {}), [Free(0), Drop(0)], After())
  {
    var x := Slot(7, 1, true, true, 0);
    var s1, s2 := During(x, Dinode(true, 0), Reclaim(0), {}), During(x, Dinode(false, 0), Reclaimed(0), {});
    assert Do(s1, Free(0)) == s2;
    var d := Do(s2, Drop(0));
    assert multiset{0} - multiset{0} == multiset{};
    assert d.procs == After().procs && d.slots == [x.(ref := 0, busy := false, valid := false)];
    assert d == After();
    assert SafeRun(After(), [], After());
    Then(s2, Drop(0), [], After());
    Then(s1, Free(0), [Drop(0)] + [], After());
    assert [Free(0)] + ([Drop(0)] + []) == [Free(0), Drop(0)];
  }

  lemma Removed()
    ensures SafeRun(Before(), Removal(), After())
  {
    Dropping();
    hide SafeRun, Do, Enabled, Safe;
    var a3 := [Free(0), Drop(0)];
    var a2 := [SetNlink(0, 0, 0)] + ([Iunlock(0, 0)] + ([Iput(0, 0)] + a3));
    Putting(a3, After());
    Locking(a2, After());
    assert [Iget(0, 7)] + ([Ilock(0, 0)] + ([Try(0)] + ([Load(0)] + a2))) == Removal();
  }

  lemma NotSafe()
    ensures Init(Before()) && Enabled(After(), Iget(1, 7)) && !Safe(After(), 1, 7)
  {
    assert Finds(After().slots, 7, 0);
  }

  /** After it, process 1's iget is not safe: its ilock can panic. */
  lemma StaleNumber()
    ensures Init(Before()) && SafeRun(Before(), Removal(), After())
    ensures Enabled(After(), Iget(1, 7)) && !Safe(After(), 1, 7) && CanFail(Do(After(), Iget(1, 7)))
  {
    Removed();
    NotSafe();
    hide CanFail, SafeRun, Do, Enabled, Safe, Live, Init, Before, After, Removal;
    InitLive(Before());
    SafeRunLive(Before(), Removal(), After());
    SafeIff(After(), 1, 7);
  }
}
