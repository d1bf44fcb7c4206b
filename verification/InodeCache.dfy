/**
 The lives of inodes in the in-core table (kernel/fs.c: ialloc, iget, idup, ilock, iunlock, iput), run by any number of
 processes. Each action is what one process does while it holds icache.lock, or one access to the inode on disk.
 */
module InodeCache {
  /** struct inode, as far as its life goes. key stands for device and number. */
  datatype Slot = Slot(key: nat, ref: nat, busy: bool, valid: bool, nlink: nat)

  /** struct dinode: used says that its type is not 0. */
  datatype Dinode = Dinode(used: bool, nlink: nat)

  /** What a process is in the middle of. */
  datatype Pc =
    | Out
    | Wants(s: nat)       // in ilock, about to test I_BUSY
    | Asleep(s: nat)      // in ilock's sleep
    | Loading(s: nat)     // in ilock: has I_BUSY, reads the inode from disk
    | Reclaim(s: nat)     // in iput: has I_BUSY, about to truncate and free the inode
    | Reclaimed(s: nat)   // in iput: the inode is free on disk, the slot not yet
    | Allocated(k: nat)   // in ialloc: has marked inode k, about to iget it
    | NoType(s: nat)      // in ilock's panic "no type": has I_BUSY

  /** refs: the references a process holds; locked: the inodes it has locked. */
  datatype Proc = Proc(pc: Pc, refs: multiset<nat>, locked: set<nat>)

  /** holder: who set I_BUSY in each slot last; no code reads it. */
  datatype State = State(slots: seq<Slot>, disk: map<nat, Dinode>, procs: seq<Proc>, holder: seq<int>)

  datatype Action =
    | Ialloc(p: nat, k: nat)            // finds inode k free and marks it
    | Iget(p: nat, k: nat)
    | Idup(p: nat, q: nat, s: nat)      // p duplicates its reference, for q to keep
    | Ilock(p: nat, s: nat)
    | Try(p: nat)                       // ilock's loop tests I_BUSY
    | Load(p: nat)
    | Iunlock(p: nat, s: nat)
    | SetNlink(p: nat, s: nat, n: nat)  // ip->nlink = n; iupdate(ip)
    | Iput(p: nat, s: nat)
    | Free(p: nat)                      // itrunc(ip); ip->type = 0; iupdate(ip)
    | Drop(p: nat)                      // flags = 0; ref--

  /* iget's search */

  predicate Caches(x: Slot, k: nat) {
    x.ref > 0 && x.key == k
  }

  /** The slot that iget returns: the first that caches k, else the first with no references; -1 if there is none. */
  ghost predicate Finds(slots: seq<Slot>, k: nat, s: int) {
    if exists i :: 0 <= i < |slots| && Caches(slots[i], k) then
      0 <= s < |slots| && Caches(slots[s], k) && forall i :: 0 <= i < s ==> !Caches(slots[i], k)
    else if exists i :: 0 <= i < |slots| && slots[i].ref == 0 then
      0 <= s < |slots| && slots[s].ref == 0 && forall i :: 0 <= i < s ==> slots[i].ref != 0
    else s == -1
  }

  /** iget will not panic. */
  ghost predicate CanGet(slots: seq<Slot>, k: nat) {
    exists t :: t >= 0 && Finds(slots, k, t)
  }

  /** The slot after iget. */
  function Gotten(x: Slot, k: nat): Slot {
    if Caches(x, k) then x.(ref := x.ref + 1) else Slot(k, 1, false, false, x.nlink)
  }

  /** The table in memory. */
  class Icache {
    const inode: array<Slot>

    constructor (n: nat)
      ensures fresh(inode) && inode.Length == n && forall i :: 0 <= i < n ==> inode[i] == Slot(0, 0, false, false, 0)
    {
      inode := new Slot[n](_ => Slot(0, 0, false, false, 0));
    }

    /** iget; -1 stands for its panic. */
    method Get(k: nat) returns (s: int)
      modifies inode
      ensures Finds(old(inode[..]), k, s)
      ensures s == -1 ==> inode[..] == old(inode[..])
      ensures s != -1 ==> 0 <= s < inode.Length && inode[..] == old(inode[..])[s := Gotten(old(inode[..])[s], k)]
    {
      var empty, i := -1, 0;
      while i < inode.Length
        invariant 0 <= i <= inode.Length && -1 <= empty < i && inode[..] == old(inode[..])
        invariant forall j :: 0 <= j < i ==> !Caches(inode[j], k)
        invariant empty == -1 ==> forall j :: 0 <= j < i ==> inode[j].ref != 0
        invariant empty != -1 ==> inode[empty].ref == 0 && forall j :: 0 <= j < empty ==> inode[j].ref != 0
      {
        if inode[i].ref > 0 && inode[i].key == k {
          inode[i] := inode[i].(ref := inode[i].ref + 1);
          return i;
        }
        if empty == -1 && inode[i].ref == 0 {
          empty := i;
        }
        i := i + 1;
      }
      if empty != -1 {
        inode[empty] := Slot(k, 1, false, false, inode[empty].nlink);
      }
      return empty;
    }
  }

  /* The protocol */

  predicate Owns(x: Proc, s: nat) {
    s in x.locked || x.pc == Loading(s) || x.pc == Reclaim(s) || x.pc == Reclaimed(s) || x.pc == NoType(s)
  }

  predicate Quiet(s: State, p: nat) {
    p < |s.procs| && s.procs[p].pc.Out?
  }

  /** p is in the middle of something with a slot of the table. */
  predicate In(s: State, p: nat) {
    p < |s.procs| && (s.procs[p].pc.Wants? || s.procs[p].pc.Loading? || s.procs[p].pc.Reclaim?
        || s.procs[p].pc.Reclaimed?)
    && s.procs[p].pc.s < |s.slots| == |s.holder|
  }

  /** What callers may do. iget may be called with the number of any inode, in use or not. */
  ghost predicate Enabled(s: State, a: Action) {
    |s.slots| == |s.holder| &&
    match a
    case Ialloc(p, k) => Quiet(s, p) && k in s.disk && !s.disk[k].used
    case Iget(p, k) => p < |s.procs| && k in s.disk && CanGet(s.slots, k)
        && (s.procs[p].pc.Out? || s.procs[p].pc == Allocated(k))
    case Idup(p, q, t) => Quiet(s, p) && q < |s.procs| && t < |s.slots| && s.procs[p].refs[t] > 0
    case Ilock(p, t) => Quiet(s, p) && t < |s.slots| && s.procs[p].refs[t] > 0 && t !in s.procs[p].locked
    case Try(p) => In(s, p) && s.procs[p].pc.Wants?
    case Load(p) => In(s, p) && s.procs[p].pc.Loading? && s.slots[s.procs[p].pc.s].key in s.disk
    case Iunlock(p, t) => Quiet(s, p) && t < |s.slots| && t in s.procs[p].locked
    case SetNlink(p, t, n) => Quiet(s, p) && t < |s.slots| && t in s.procs[p].locked && s.slots[t].key in s.disk
    case Iput(p, t) => Quiet(s, p) && t < |s.slots| && s.procs[p].refs[t] > 0 && t !in s.procs[p].locked
        && s.slots[t].ref > 0
    case Free(p) => In(s, p) && s.procs[p].pc.Reclaim? && s.slots[s.procs[p].pc.s].key in s.disk
    case Drop(p) => In(s, p) && s.procs[p].pc.Reclaimed? && s.slots[s.procs[p].pc.s].ref > 0
  }

  function WithSlot(s: State, t: nat, x: Slot): State
    requires t < |s.slots|
  {
    s.(slots := s.slots[t := x])
  }

  function WithProc(s: State, p: nat, x: Proc): State
    requires p < |s.procs|
  {
    s.(procs := s.procs[p := x])
  }

  function Woken(x: Proc, t: nat): Proc {
    if x.pc == Asleep(t) then x.(pc := Wants(t)) else x
  }

  /** wakeup(ip). */
  function WakeAll(s: State, t: nat): State {
    s.(procs := seq(|s.procs|, i requires 0 <= i < |s.procs| => Woken(s.procs[i], t)))
  }

  /** The condition under which iput reclaims the inode. */
  predicate LastPut(x: Slot) {
    x.ref == 1 && x.valid && x.nlink == 0
  }

  ghost function Got(s: State, p: nat, k: nat, t: nat): State
    requires p < |s.procs| && t < |s.slots|
  {
    WithProc(WithSlot(s, t, Gotten(s.slots[t], k)), p, s.procs[p].(pc := Out, refs := s.procs[p].refs + multiset{t}))
  }

  ghost function Do(s: State, a: Action): State
    requires Enabled(s, a)
  {
    match a
    case Ialloc(p, k) => WithProc(s, p, s.procs[p].(pc := Allocated(k))).(disk := s.disk[k := Dinode(true, 0)])
    case Iget(p, k) =>
      var t :| t >= 0 && Finds(s.slots, k, t);
      Got(s, p, k, t)
    case Idup(p, q, t) =>
      WithProc(WithSlot(s, t, s.slots[t].(ref := s.slots[t].ref + 1)), q,
          s.procs[q].(refs := s.procs[q].refs + multiset{t}))
    case Ilock(p, t) => WithProc(s, p, s.procs[p].(pc := Wants(t)))
    case Try(p) =>
      var x, t := s.procs[p], s.procs[p].pc.s;
      if s.slots[t].busy then WithProc(s, p, x.(pc := Asleep(t)))
      else
        WithProc(WithSlot(s, t, s.slots[t].(busy := true)), p,
                 if s.slots[t].valid then x.(pc := Out, locked := x.locked + {t})
                     else x.(pc := Loading(t))).(holder := s.holder[t := p])
    case Load(p) =>
      var x, t := s.procs[p], s.procs[p].pc.s;
      var d := s.disk[s.slots[t].key];
      WithProc(WithSlot(s, t, s.slots[t].(valid := true, nlink := d.nlink)), p,
               if d.used then x.(pc := Out, locked := x.locked + {t}) else x.(pc := NoType(t)))
    case Iunlock(p, t) =>
      WakeAll(WithProc(WithSlot(s, t, s.slots[t].(busy := false)), p, s.procs[p].(locked := s.procs[p].locked - {t})),
          t)
    case SetNlink(p, t, n) =>
      var k := s.slots[t].key;
      WithSlot(s, t, s.slots[t].(nlink := n)).(disk := s.disk[k := s.disk[k].(nlink := n)])
    case Iput(p, t) =>
      if LastPut(s.slots[t]) then
        WithProc(WithSlot(s, t, s.slots[t].(busy := true)), p,
            s.procs[p].(pc := Reclaim(t))).(holder := s.holder[t := p])
      else
        WithProc(WithSlot(s, t, s.slots[t].(ref := s.slots[t].ref - 1)), p,
            s.procs[p].(refs := s.procs[p].refs - multiset{t}))
    case Free(p) =>
      var t := s.procs[p].pc.s;
      WithProc(s, p, s.procs[p].(pc := Reclaimed(t))).(disk := s.disk[s.slots[t].key := Dinode(false, 0)])
    case Drop(p) =>
      var t := s.procs[p].pc.s;
      WakeAll(WithProc(WithSlot(s, t, s.slots[t].(busy := false, valid := false, ref := s.slots[t].ref - 1)), p,
                       s.procs[p].(pc := Out, refs := s.procs[p].refs - multiset{t})), t)
  }

  /* What always holds */

  /** The references to slot t that processes hold. */
  function Refs(procs: seq<Proc>, t: nat): nat
    decreases |procs|
  {
    if procs == [] then 0 else Refs(procs[..|procs| - 1], t) + procs[|procs| - 1].refs[t]
  }

  ghost predicate SlotOk(s: State, t: nat)
    requires t < |s.slots| == |s.holder|
  {
    var x := s.slots[t];
    && x.ref == Refs(s.procs, t)
    && (x.busy ==> 0 <= s.holder[t] < |s.procs| && Owns(s.procs[s.holder[t]], t))
    && (x.ref > 0 ==> x.key in s.disk)
  }

  ghost predicate ProcOk(s: State, p: nat)
    requires p < |s.procs| && |s.slots| == |s.holder|
  {
    var x := s.procs[p];
    && (forall t: nat :: Owns(x, t) ==> t < |s.slots| && s.slots[t].busy && s.holder[t] == p && x.refs[t] > 0)
    && (forall t :: t in x.locked ==> t < |s.slots| && s.slots[t].valid)
    && (forall t: nat :: x.refs[t] > 0 ==> t < |s.slots|)
    && PcOk(s, x)
  }

  ghost predicate PcOk(s: State, x: Proc) {
    match x.pc
    case Wants(t) => t < |s.slots| && x.refs[t] > 0 && t !in x.locked
    case Asleep(t) => t < |s.slots| && x.refs[t] > 0 && t !in x.locked && s.slots[t].busy
    case Loading(t) => t < |s.slots| && t !in x.locked
    case Reclaim(t) => t < |s.slots| && t !in x.locked
    case Reclaimed(t) => t < |s.slots| && t !in x.locked
    case NoType(t) => t < |s.slots| && t !in x.locked
    case Allocated(k) => k in s.disk
    case Out => true
  }

  /** At most one slot in use for an inode. */
  ghost predicate NoAlias(slots: seq<Slot>) {
    forall t, u ::
      0 <= t < |slots| && 0 <= u < |slots| && slots[t].ref > 0 && slots[u].ref > 0 && slots[t].key == slots[u].key ==>
        t == u
  }

  ghost predicate Inv(s: State) {
    && |s.slots| == |s.holder| && NoAlias(s.slots)
    && (forall t: nat {:trigger SlotOk(s, t)} :: t < |s.slots| ==> SlotOk(s, t))
    && (forall p: nat {:trigger ProcOk(s, p)} :: p < |s.procs| ==> ProcOk(s, p))
  }

  ghost predicate Init(s: State) {
    && |s.slots| == |s.holder|
    && (forall t :: 0 <= t < |s.slots| ==> s.slots[t].ref == 0 && !s.slots[t].busy)
    && (forall p :: 0 <= p < |s.procs| ==> s.procs[p] == Proc(Out, multiset{}, {}))
  }

  lemma {:induction false} NoRefs(procs: seq<Proc>, t: nat)
    requires forall p :: 0 <= p < |procs| ==> procs[p].refs[t] == 0
    ensures Refs(procs, t) == 0
    decreases |procs|
  {
    if procs != [] {
      NoRefs(procs[..|procs| - 1], t);
    }
  }

  lemma InitInv(s: State)
    requires Init(s)
    ensures Inv(s)
  {
    forall t: nat | t < |s.slots|
      ensures SlotOk(s, t)
    {
      NoRefs(s.procs, t);
    }
  }

  /** The count changes with one process's references. */
  lemma {:induction false} RefsUpdate(procs: seq<Proc>, p: nat, x: Proc, t: nat)
    requires p < |procs|
    ensures Refs(procs[p := x], t) == Refs(procs, t) - procs[p].refs[t] + x.refs[t]
    ensures Refs(procs, t) >= procs[p].refs[t]
    decreases |procs|
  {
    var n := |procs| - 1;
    if p < n {
      RefsUpdate(procs[..n], p, x, t);
      assert procs[p := x][..n] == procs[..n][p := x];
    } else {
      assert procs[p := x][..n] == procs[..n];
    }
  }

  /** Two processes with a reference make two references. */
  lemma {:induction false} RefsTwo(procs: seq<Proc>, p: nat, q: nat, t: nat)
    requires p < |procs| && q < |procs| && p != q
    ensures Refs(procs, t) >= procs[p].refs[t] + procs[q].refs[t]
    decreases |procs|
  {
    RefsUpdate(procs, p, procs[p].(refs := multiset{}), t);
    RefsUpdate(procs[p := procs[p].(refs := multiset{})], q, procs[q], t);
  }

  /** wakeup changes no references. */
  lemma {:induction false} RefsSame(procs: seq<Proc>, procs': seq<Proc>, t: nat)
    requires |procs'| == |procs| && forall p :: 0 <= p < |procs| ==> procs'[p].refs == procs[p].refs
    ensures Refs(procs', t) == Refs(procs, t)
    decreases |procs|
  {
    if procs != [] {
      RefsSame(procs[..|procs| - 1], procs'[..|procs| - 1], t);
    }
  }

  /* Every action keeps the invariant */

  /** Process p changes without taking or giving up a reference or an inode, and nothing else changes. */
  lemma OnlyPc(s: State, t: State, p: nat)
    requires Inv(s) && p < |s.procs| == |t.procs| && t == WithProc(s, p, t.procs[p])
    requires t.procs[p].refs == s.procs[p].refs && t.procs[p].locked == s.procs[p].locked
    requires forall u: nat :: Owns(t.procs[p], u) <==> Owns(s.procs[p], u)
    requires PcOk(t, t.procs[p])
    ensures Inv(t)
  {
    forall u: nat | u < |t.slots|
      ensures SlotOk(t, u)
    {
      assert SlotOk(s, u);
      RefsUpdate(s.procs, p, t.procs[p], u);
    }
    assert ProcOk(s, p);
    forall q: nat | q < |t.procs|
      ensures ProcOk(t, q)
    {
      assert ProcOk(s, q);
    }
  }

  lemma IlockKeepsInv(s: State, p: nat, t: nat)
    requires Inv(s) && Enabled(s, Ilock(p, t))
    ensures Inv(Do(s, Ilock(p, t)))
  {
    OnlyPc(s, Do(s, Ilock(p, t)), p);
  }

  /** One slot and one process change, the process keeping its references. */
  lemma SlotAndProc(s: State, s': State, p: nat, t: nat)
    requires Inv(s) && p < |s.procs| == |s'.procs| && t < |s.slots| == |s'.slots| == |s'.holder| && s'.disk == s.disk
    requires s' == WithProc(WithSlot(s, t, s'.slots[t]), p, s'.procs[p]).(holder := s'.holder)
             && s'.holder == s.holder[t := s'.holder[t]]
    requires s'.procs[p].refs == s.procs[p].refs && s'.slots[t].key == s.slots[t].key
             && s'.slots[t].ref == s.slots[t].ref
    requires SlotOk(s', t) && ProcOk(s', p) && s.procs[p].refs[t] > 0
    requires forall q: nat :: q < |s.procs| && q != p ==>
             !Owns(s.procs[q], t) && (s.procs[q].pc == Asleep(t) ==> s'.slots[t].busy)
    requires forall u: nat :: u != t ==> (Owns(s'.procs[p], u) <==> Owns(s.procs[p], u))
    ensures Inv(s')
  {
    forall u: nat | u < |s'.slots|
      ensures SlotOk(s', u)
    {
      if u != t {
        assert SlotOk(s, u);
        RefsUpdate(s.procs, p, s'.procs[p], u);
      }
    }
    forall q: nat | q < |s'.procs|
      ensures ProcOk(s', q)
    {
      if q != p {
        assert ProcOk(s, q);
      }
    }
  }

  /** Who owns a slot has it busy, and is its holder. */
  lemma OwnersHold(s: State, q: nat, t: nat)
    requires Inv(s) && q < |s.procs| && Owns(s.procs[q], t)
    ensures t < |s.slots| && s.slots[t].busy && s.holder[t] == q && s.procs[q].refs[t] > 0
  {
    assert ProcOk(s, q);
  }

  /** Nobody but its holder owns a slot, and nobody owns or awaits one that is not busy. */
  lemma OthersDoNotOwn(s: State, t: nat)
    requires Inv(s) && t < |s.slots|
    ensures forall q: nat :: q < |s.procs| && (q != s.holder[t] || !s.slots[t].busy) ==> !Owns(s.procs[q], t)
    ensures !s.slots[t].busy ==> forall q: nat :: q < |s.procs| ==> s.procs[q].pc != Asleep(t)
  {
    forall q: nat | q < |s.procs|
      ensures (q != s.holder[t] || !s.slots[t].busy) ==> !Owns(s.procs[q], t)
      ensures !s.slots[t].busy ==> s.procs[q].pc != Asleep(t)
    {
      assert ProcOk(s, q);
    }
  }

  lemma TryBusyKeepsInv(s: State, p: nat)
    requires Inv(s) && Enabled(s, Try(p)) && s.slots[s.procs[p].pc.s].busy
    ensures Inv(Do(s, Try(p)))
  {
    assert ProcOk(s, p);
    OnlyPc(s, Do(s, Try(p)), p);
  }

  lemma TryFreeProc(s: State, p: nat)
    requires Inv(s) && Enabled(s, Try(p)) && !s.slots[s.procs[p].pc.s].busy
    ensures ProcOk(Do(s, Try(p)), p)
  {
    hide SlotOk, NoAlias;
    assert ProcOk(s, p);
  }

  lemma TryFreeSlot(s: State, p: nat)
    requires Inv(s) && Enabled(s, Try(p)) && !s.slots[s.procs[p].pc.s].busy
    ensures SlotOk(Do(s, Try(p)), s.procs[p].pc.s)
  {
    hide NoAlias, ProcOk, PcOk;
    var t := s.procs[p].pc.s;
    RefsUpdate(s.procs, p, Do(s, Try(p)).procs[p], t);
    assert SlotOk(s, t);
  }

  lemma TryFreeKeepsInv(s: State, p: nat)
    requires Inv(s) && Enabled(s, Try(p)) && !s.slots[s.procs[p].pc.s].busy
    ensures Inv(Do(s, Try(p)))
  {
    var t, s' := s.procs[p].pc.s, Do(s, Try(p));
    OthersDoNotOwn(s, t);
    RefsUpdate(s.procs, p, s'.procs[p], t);
    assert ProcOk(s, p) && SlotOk(s, t);
    TryFreeProc(s, p);
    TryFreeSlot(s, p);
    hide SlotOk, ProcOk, PcOk, NoAlias;
    SlotAndProc(s, s', p, t);
  }

  lemma LoadKeepsInv(s: State, p: nat)
    requires Inv(s) && Enabled(s, Load(p))
    ensures Inv(Do(s, Load(p)))
  {
    var t, s' := s.procs[p].pc.s, Do(s, Load(p));
    assert ProcOk(s, p) && SlotOk(s, t);
    RefsUpdate(s.procs, p, s'.procs[p], t);
    assert s.slots[t].ref > 0;
    OthersDoNotOwn(s, t);
    SlotAndProc(s, s', p, t);
  }

  /** Who puts the last reference finds the inode unlocked: "iput busy" is out of reach. */
  lemma LastIsUnlocked(s: State, p: nat, t: nat)
    requires Inv(s) && Enabled(s, Iput(p, t)) && LastPut(s.slots[t])
    ensures !s.slots[t].busy
  {
    assert SlotOk(s, t) && ProcOk(s, p);
    if s.slots[t].busy {
      var h := s.holder[t];
      OwnersHold(s, h, t);
      RefsTwo(s.procs, p, h, t);
    }
  }

  lemma ReclaimKeepsInv(s: State, p: nat, t: nat)
    requires Inv(s) && Enabled(s, Iput(p, t)) && LastPut(s.slots[t])
    ensures Inv(Do(s, Iput(p, t)))
  {
    var s' := Do(s, Iput(p, t));
    LastIsUnlocked(s, p, t);
    assert ProcOk(s, p) && SlotOk(s, t);
    RefsUpdate(s.procs, p, s'.procs[p], t);
    OthersDoNotOwn(s, t);
    SlotAndProc(s, s', p, t);
  }

  /** A slot that a process refers to is in use. */
  lemma InUse(s: State, p: nat, t: nat)
    requires Inv(s) && p < |s.procs| && t < |s.slots| && s.procs[p].refs[t] > 0
    ensures s.slots[t].ref > 0
  {
    assert SlotOk(s, t);
    RefsUpdate(s.procs, p, s.procs[p], t);
  }

  lemma PutKeepsInv(s: State, p: nat, t: nat)
    requires Inv(s) && Enabled(s, Iput(p, t)) && !LastPut(s.slots[t])
    ensures Inv(Do(s, Iput(p, t)))
  {
    var s' := Do(s, Iput(p, t));
    forall u: nat | u < |s'.slots|
      ensures SlotOk(s', u)
    {
      PutSlot(s, p, t, u);
    }
    forall q: nat | q < |s'.procs|
      ensures ProcOk(s', q)
    {
      PutProc(s, p, t, q);
    }
  }

  lemma PutSlot(s: State, p: nat, t: nat, u: nat)
    requires Inv(s) && Enabled(s, Iput(p, t)) && !LastPut(s.slots[t]) && u < |s.slots|
    ensures SlotOk(Do(s, Iput(p, t)), u)
  {
    hide ProcOk, PcOk, NoAlias;
    assert ProcOk(s, p) && SlotOk(s, u);
    InUse(s, p, t);
    RefsUpdate(s.procs, p, Do(s, Iput(p, t)).procs[p], u);
    if u == t && s.slots[t].busy {
      OwnersHold(s, s.holder[t], t);
    }
  }

  lemma PutPc(s: State, p: nat, t: nat, q: nat)
    requires Inv(s) && Enabled(s, Iput(p, t)) && !LastPut(s.slots[t]) && q < |s.procs|
    ensures PcOk(Do(s, Iput(p, t)), Do(s, Iput(p, t)).procs[q])
  {
    hide SlotOk, NoAlias;
    assert ProcOk(s, p) && ProcOk(s, q);
    InUse(s, p, t);
  }

  lemma PutProc(s: State, p: nat, t: nat, q: nat)
    requires Inv(s) && Enabled(s, Iput(p, t)) && !LastPut(s.slots[t]) && q < |s.procs|
    ensures ProcOk(Do(s, Iput(p, t)), q)
  {
    hide SlotOk, NoAlias, PcOk;
    assert ProcOk(s, p) && ProcOk(s, q);
    PutPc(s, p, t, q);
  }

  lemma FreeSlot(s: State, p: nat, u: nat)
    requires Inv(s) && Enabled(s, Free(p)) && u < |s.slots|
    ensures SlotOk(Do(s, Free(p)), u)
  {
    var t, s' := s.procs[p].pc.s, Do(s, Free(p));
    assert SlotOk(s, u) && SlotOk(s, t) && ProcOk(s, p);
    RefsUpdate(s.procs, p, s'.procs[p], u);
  }

  lemma FreeProc(s: State, p: nat, q: nat)
    requires Inv(s) && Enabled(s, Free(p)) && q < |s.procs|
    ensures ProcOk(Do(s, Free(p)), q)
  {
    hide NoAlias;
    assert ProcOk(s, q) && ProcOk(s, p) && SlotOk(s, s.procs[p].pc.s);
  }

  lemma FreeKeepsInv(s: State, p: nat)
    requires Inv(s) && Enabled(s, Free(p))
    ensures Inv(Do(s, Free(p)))
  {
    var s' := Do(s, Free(p));
    hide SlotOk, ProcOk;
    forall u: nat | u < |s'.slots|
      ensures SlotOk(s', u)
    {
      FreeSlot(s, p, u);
    }
    forall q: nat | q < |s'.procs|
      ensures ProcOk(s', q)
    {
      FreeProc(s, p, q);
    }
  }

  lemma SetNlinkKeepsInv(s: State, p: nat, t: nat, n: nat)
    requires Inv(s) && Enabled(s, SetNlink(p, t, n))
    ensures Inv(Do(s, SetNlink(p, t, n)))
  {
    var s' := Do(s, SetNlink(p, t, n));
    assert ProcOk(s, p) && SlotOk(s, t);
    OwnersHold(s, p, t);
    InUse(s, p, t);
    forall u: nat | u < |s'.slots|
      ensures SlotOk(s', u)
    {
      assert SlotOk(s, u);
    }
    forall q: nat | q < |s'.procs|
      ensures ProcOk(s', q)
    {
      assert ProcOk(s, q);
    }
  }

  lemma IunlockSlot(s: State, p: nat, t: nat, u: nat)
    requires Inv(s) && Enabled(s, Iunlock(p, t)) && u < |s.slots|
    ensures SlotOk(Do(s, Iunlock(p, t)), u)
  {
    hide ProcOk, PcOk, NoAlias;
    OwnersHold(s, p, t);
    assert SlotOk(s, u) && ProcOk(s, p);
    RefsSame(s.procs, Do(s, Iunlock(p, t)).procs, u);
  }

  lemma IunlockProc(s: State, p: nat, t: nat, q: nat)
    requires Inv(s) && Enabled(s, Iunlock(p, t)) && q < |s.procs|
    ensures ProcOk(Do(s, Iunlock(p, t)), q)
  {
    hide SlotOk, NoAlias;
    OwnersHold(s, p, t);
    OthersDoNotOwn(s, t);
    InUse(s, p, t);
    assert ProcOk(s, q);
  }

  lemma IunlockKeepsInv(s: State, p: nat, t: nat)
    requires Inv(s) && Enabled(s, Iunlock(p, t))
    ensures Inv(Do(s, Iunlock(p, t)))
  {
    var s' := Do(s, Iunlock(p, t));
    hide SlotOk, ProcOk;
    forall u: nat | u < |s'.slots|
      ensures SlotOk(s', u)
    {
      IunlockSlot(s, p, t, u);
    }
    forall q: nat | q < |s'.procs|
      ensures ProcOk(s', q)
    {
      IunlockProc(s, p, t, q);
    }
  }

  lemma DropSlot(s: State, p: nat, u: nat)
    requires Inv(s) && Enabled(s, Drop(p)) && u < |s.slots|
    ensures SlotOk(Do(s, Drop(p)), u)
  {
    hide ProcOk, PcOk, NoAlias;
    var t, s' := s.procs[p].pc.s, Do(s, Drop(p));
    OwnersHold(s, p, t);
    assert SlotOk(s, u);
    RefsSame(s.procs[p := s'.procs[p]], s'.procs, u);
    RefsUpdate(s.procs, p, s'.procs[p], u);
  }

  lemma DropOwnProc(s: State, p: nat)
    requires Inv(s) && Enabled(s, Drop(p))
    ensures ProcOk(Do(s, Drop(p)), p)
  {
    hide SlotOk, NoAlias;
    assert ProcOk(s, p);
  }

  lemma DropProc(s: State, p: nat, q: nat)
    requires Inv(s) && Enabled(s, Drop(p)) && q < |s.procs|
    ensures ProcOk(Do(s, Drop(p)), q)
  {
    hide SlotOk, NoAlias;
    if q == p {
      DropOwnProc(s, p);
    } else {
      OwnersHold(s, p, s.procs[p].pc.s);
      InUse(s, p, s.procs[p].pc.s);
      assert ProcOk(s, q);
    }
  }

  lemma DropKeepsInv(s: State, p: nat)
    requires Inv(s) && Enabled(s, Drop(p))
    ensures Inv(Do(s, Drop(p)))
  {
    var s' := Do(s, Drop(p));
    hide SlotOk, ProcOk;
    forall u: nat | u < |s'.slots|
      ensures SlotOk(s', u)
    {
      DropSlot(s, p, u);
    }
    forall q: nat | q < |s'.procs|
      ensures ProcOk(s', q)
    {
      DropProc(s, p, q);
    }
  }

  lemma IallocSlot(s: State, p: nat, k: nat, u: nat)
    requires Inv(s) && Enabled(s, Ialloc(p, k)) && u < |s.slots|
    ensures SlotOk(Do(s, Ialloc(p, k)), u)
  {
    hide ProcOk, PcOk, NoAlias;
    var s' := Do(s, Ialloc(p, k));
    assert SlotOk(s, u);
    RefsUpdate(s.procs, p, s'.procs[p], u);
  }

  lemma IallocProc(s: State, p: nat, k: nat, q: nat)
    requires Inv(s) && Enabled(s, Ialloc(p, k)) && q < |s.procs|
    ensures ProcOk(Do(s, Ialloc(p, k)), q)
  {
    hide SlotOk, NoAlias;
    assert ProcOk(s, q);
  }

  lemma IallocKeepsInv(s: State, p: nat, k: nat)
    requires Inv(s) && Enabled(s, Ialloc(p, k))
    ensures Inv(Do(s, Ialloc(p, k)))
  {
    var s' := Do(s, Ialloc(p, k));
    hide SlotOk, ProcOk;
    forall u: nat | u < |s'.slots|
      ensures SlotOk(s', u)
    {
      IallocSlot(s, p, k, u);
    }
    forall q: nat | q < |s'.procs|
      ensures ProcOk(s', q)
    {
      IallocProc(s, p, k, q);
    }
  }

  lemma IdupSlot(s: State, p: nat, q': nat, t: nat, u: nat)
    requires Inv(s) && Enabled(s, Idup(p, q', t)) && u < |s.slots|
    ensures SlotOk(Do(s, Idup(p, q', t)), u)
  {
    hide ProcOk, PcOk, NoAlias;
    assert SlotOk(s, u) && ProcOk(s, p);
    InUse(s, p, t);
    RefsUpdate(s.procs, q', Do(s, Idup(p, q', t)).procs[q'], u);
  }

  lemma IdupProc(s: State, p: nat, q': nat, t: nat, q: nat)
    requires Inv(s) && Enabled(s, Idup(p, q', t)) && q < |s.procs|
    ensures ProcOk(Do(s, Idup(p, q', t)), q)
  {
    hide SlotOk, NoAlias;
    assert ProcOk(s, q);
    InUse(s, p, t);
    IdupPc(s, p, q', t, q);
    hide PcOk;
  }

  lemma IdupPc(s: State, p: nat, q': nat, t: nat, q: nat)
    requires Inv(s) && Enabled(s, Idup(p, q', t)) && q < |s.procs|
    ensures PcOk(Do(s, Idup(p, q', t)), Do(s, Idup(p, q', t)).procs[q])
  {
    hide SlotOk, NoAlias;
    assert ProcOk(s, q);
    InUse(s, p, t);
  }

  lemma IdupKeepsInv(s: State, p: nat, q': nat, t: nat)
    requires Inv(s) && Enabled(s, Idup(p, q', t))
    ensures Inv(Do(s, Idup(p, q', t)))
  {
    var s' := Do(s, Idup(p, q', t));
    InUse(s, p, t);
    hide SlotOk, ProcOk;
    forall u: nat | u < |s'.slots|
      ensures SlotOk(s', u)
    {
      IdupSlot(s, p, q', t, u);
    }
    forall q: nat | q < |s'.procs|
      ensures ProcOk(s', q)
    {
      IdupProc(s, p, q', t, q);
    }
  }


  /** A slot with no references is nobody's business. */
  lemma NobodyAt(s: State, t: nat)
    requires Inv(s) && t < |s.slots| && s.slots[t].ref == 0
    ensures forall q: nat :: q < |s.procs| ==>
            s.procs[q].refs[t] == 0 && !Owns(s.procs[q], t) && s.procs[q].pc != Asleep(t) && s.procs[q].pc != Wants(t)
    ensures !s.slots[t].busy
  {
    hide NoAlias;
    assert SlotOk(s, t);
    forall q: nat | q < |s.procs|
      ensures s.procs[q].refs[t] == 0 && !Owns(s.procs[q], t) && s.procs[q].pc != Asleep(t) && s.procs[q].pc != Wants(t)
    {
      assert ProcOk(s, q);
      RefsUpdate(s.procs, q, s.procs[q], t);
    }
  }

  lemma IgetCachedSlot(s: State, p: nat, k: nat, t: nat, u: nat)
    requires Inv(s) && Enabled(s, Iget(p, k)) && t < |s.slots| && Caches(s.slots[t], k) && u < |s.slots|
    ensures SlotOk(Got(s, p, k, t), u)
  {
    hide NoAlias;
    assert SlotOk(s, u) && ProcOk(s, p);
    RefsUpdate(s.procs, p, Got(s, p, k, t).procs[p], u);
    hide PcOk;
  }

  lemma IgetCachedProc(s: State, p: nat, k: nat, t: nat, q: nat)
    requires Inv(s) && Enabled(s, Iget(p, k)) && t < |s.slots| && Caches(s.slots[t], k) && q < |s.procs|
    ensures ProcOk(Got(s, p, k, t), q)
  {
    hide SlotOk, NoAlias;
    assert ProcOk(s, q);
  }

  lemma IgetFreshSlot(s: State, p: nat, k: nat, t: nat, u: nat)
    requires Inv(s) && Enabled(s, Iget(p, k)) && t < |s.slots| && s.slots[t].ref == 0 && u < |s.slots|
    requires forall v :: 0 <= v < |s.slots| ==> !Caches(s.slots[v], k)
    ensures SlotOk(Got(s, p, k, t), u)
  {
    hide NoAlias;
    NobodyAt(s, t);
    assert SlotOk(s, u) && ProcOk(s, p);
    RefsUpdate(s.procs, p, Got(s, p, k, t).procs[p], u);
  }

  lemma IgetFreshProc(s: State, p: nat, k: nat, t: nat, q: nat)
    requires Inv(s) && Enabled(s, Iget(p, k)) && t < |s.slots| && s.slots[t].ref == 0 && q < |s.procs|
    ensures ProcOk(Got(s, p, k, t), q)
  {
    hide SlotOk, NoAlias;
    NobodyAt(s, t);
    assert ProcOk(s, q);
  }

  lemma IgetKeepsInv(s: State, p: nat, k: nat)
    requires Inv(s) && Enabled(s, Iget(p, k))
    ensures Inv(Do(s, Iget(p, k)))
  {
    var t :| t >= 0 && Finds(s.slots, k, t) && Do(s, Iget(p, k)) == Got(s, p, k, t);
    var s' := Got(s, p, k, t);
    assert ProcOk(s, p);
    hide SlotOk, ProcOk;
    forall u: nat | u < |s'.slots|
      ensures SlotOk(s', u)
    {
      if Caches(s.slots[t], k) {
        IgetCachedSlot(s, p, k, t, u);
      } else {
        IgetFreshSlot(s, p, k, t, u);
      }
    }
    forall q: nat | q < |s'.procs|
      ensures ProcOk(s', q)
    {
      if Caches(s.slots[t], k) {
        IgetCachedProc(s, p, k, t, q);
      } else {
        IgetFreshProc(s, p, k, t, q);
      }
    }
  }

  lemma DoKeepsInv(s: State, a: Action)
    requires Inv(s) && Enabled(s, a)
    ensures Inv(Do(s, a))
  {
    match a
    case Ialloc(p, k) => IallocKeepsInv(s, p, k);
    case Iget(p, k) => IgetKeepsInv(s, p, k);
    case Idup(p, q, t) => IdupKeepsInv(s, p, q, t);
    case Ilock(p, t) => IlockKeepsInv(s, p, t);
    case Try(p) =>
      if s.slots[s.procs[p].pc.s].busy {
        TryBusyKeepsInv(s, p);
      } else {
        TryFreeKeepsInv(s, p);
      }
    case Load(p) => LoadKeepsInv(s, p);
    case Iunlock(p, t) => IunlockKeepsInv(s, p, t);
    case SetNlink(p, t, n) => SetNlinkKeepsInv(s, p, t, n);
    case Iput(p, t) =>
      if LastPut(s.slots[t]) {
        ReclaimKeepsInv(s, p, t);
      } else {
        PutKeepsInv(s, p, t);
      }
    case Free(p) => FreeKeepsInv(s, p);
    case Drop(p) => DropKeepsInv(s, p);
  }

  ghost predicate Run(s: State, acts: seq<Action>, t: State)
    decreases |acts|
  {
    if acts == [] then s == t else Enabled(s, acts[0]) && Run(Do(s, acts[0]), acts[1..], t)
  }

  lemma {:induction false} RunKeepsInv(s: State, acts: seq<Action>, t: State)
    requires Inv(s) && Run(s, acts, t)
    ensures Inv(t)
    decreases |acts|
  {
    if acts != [] {
      DoKeepsInv(s, acts[0]);
      RunKeepsInv(Do(s, acts[0]), acts[1..], t);
    }
  }

  /** In every run an inode has at most one slot, and the slot's count is that of the references processes hold. */
  lemma OneSlotEach(s: State, acts: seq<Action>, s': State, t: nat)
    requires Init(s) && Run(s, acts, s') && t < |s'.slots|
    ensures s'.slots[t].ref == Refs(s'.procs, t)
    ensures s'.slots[t].ref > 0 ==> forall u :: 0 <= u < |s'.slots| && Caches(s'.slots[u], s'.slots[t].key) ==> u == t
  {
    InitInv(s);
    RunKeepsInv(s, acts, s');
    assert SlotOk(s', t);
  }

  /** In every run I_BUSY has one owner: what one process locked, no other locks, loads or frees. */
  lemma OneOwner(s: State, acts: seq<Action>, s': State, p: nat, q: nat, t: nat)
    requires Init(s) && Run(s, acts, s') && p < |s'.procs| && q < |s'.procs| && Owns(s'.procs[p], t)
             && Owns(s'.procs[q], t)
    ensures p == q && t < |s'.slots| && s'.slots[t].busy
  {
    InitInv(s);
    RunKeepsInv(s, acts, s');
    OwnersHold(s', p, t);
    OwnersHold(s', q, t);
  }

  /**
   In every run, clearing the flags at the end of iput takes I_BUSY from nobody else, even if ialloc has given the
   number out again.
   */
  lemma DropTakesNoLock(s: State, acts: seq<Action>, s': State, p: nat)
    requires Init(s) && Run(s, acts, s') && Enabled(s', Drop(p))
    ensures forall q: nat :: q < |s'.procs| && q != p ==> !Owns(s'.procs[q], s'.procs[p].pc.s)
  {
    InitInv(s);
    RunKeepsInv(s, acts, s');
    OwnersHold(s', p, s'.procs[p].pc.s);
    OthersDoNotOwn(s', s'.procs[p].pc.s);
  }

  /** In every run, the panic "iput busy" is out of reach, and whoever sleeps in ilock waits for an owner. */
  lemma NeverBusy(s: State, acts: seq<Action>, s': State, p: nat, t: nat)
    requires Init(s) && Run(s, acts, s') && p < |s'.procs|
    ensures Enabled(s', Iput(p, t)) && LastPut(s'.slots[t]) ==> !s'.slots[t].busy
    ensures s'.procs[p].pc == Asleep(t) ==> exists q :: 0 <= q < |s'.procs| && Owns(s'.procs[q], t)
  {
    InitInv(s);
    RunKeepsInv(s, acts, s');
    assert ProcOk(s', p);
    if Enabled(s', Iput(p, t)) && LastPut(s'.slots[t]) {
      LastIsUnlocked(s', p, t);
    }
    if s'.procs[p].pc == Asleep(t) {
      assert SlotOk(s', t);
    }
  }
}
