/**
 Open files (kernel/file.c, and fdalloc, sys_open, sys_dup, sys_close and sys_pipe in kernel/sysfile.c): the counts of
 the file table, the descriptors of the processes, and the pipe ends that files keep open. An action is one access to
 the file table under its lock, or one assignment to a process's own descriptors.
 */
module FileRefs {
  const NOFILE := 16

  /** What a struct file refers to. The ends of pipe q are numbered 2q, to read from, and 2q + 1, to write to. */
  datatype Kind = NoKind | PipeEnd(e: nat) | Inode(ip: nat)

  datatype File = File(ref: nat, kind: Kind)

  /**
   ofile: a file or -1 for each descriptor. hand: the references a call carries outside of them. owing: a file of which
   sys_dup has stored a second descriptor and not counted it yet, or -1. closing: what fileclose still has to close.
   */
  datatype Proc = Proc(ofile: seq<int>, hand: multiset<nat>, owing: int, closing: Kind)

  /** Where an open pipe end is kept: in a file, or with a process that is about to close it. No code reads this. */
  datatype Where = InFile(f: nat) | InProc(p: nat) | Shut

  /** open: readopen and writeopen of all pipes, by end. frees: the pipes whose page has been given to kfree. */
  datatype State = State(files: seq<File>, procs: seq<Proc>, open: seq<bool>, at: seq<Where>, frees: seq<nat>)

  datatype Action =
    | FileAlloc(p: nat, f: nat)
    | MakePipe(p: nat, f: nat, g: nat)     // pipealloc has its page and sets up both files
    | MakeInode(p: nat, f: nat, ip: nat)   // sys_open sets up the file
    | FdAlloc(p: nat, f: nat, fd: nat)
    | FdClear(p: nat, fd: nat)             // proc->ofile[fd] = 0
    | DupFd(p: nat, f: nat, fd: nat)       // sys_dup: fdalloc(f) ...
    | DupRef(p: nat)                       // ... and then filedup(f)
    | ForkDup(p: nat, q: nat, f: nat)      // fork: filedup for the child q
    | FileClose(p: nat, f: nat)            // fileclose up to the release of the lock
    | CloseEnd(p: nat)                     // and the rest: pipeclose or iput

  /* The table and the descriptors in memory */

  class Ftable {
    const file: array<File>

    constructor (n: nat)
      ensures fresh(file) && file.Length == n && forall f :: 0 <= f < n ==> file[f] == File(0, NoKind)
    {
      file := new File[n](_ => File(0, NoKind));
    }

    method Alloc() returns (f: int)
      modifies file
      ensures f == -1 ==> file[..] == old(file[..]) && forall i :: 0 <= i < file.Length ==> file[i].ref != 0
      ensures f != -1 ==>
                0 <= f < file.Length && old(file[..])[f].ref == 0 && (forall i :: 0 <= i < f ==> file[i].ref != 0)
                          && file[..] == old(file[..])[f := old(file[..])[f].(ref := 1)]
    {
      f := 0;
      while f < file.Length && file[f].ref != 0
        invariant 0 <= f <= file.Length && forall i :: 0 <= i < f ==> file[i].ref != 0
      {
        f := f + 1;
      }
      if f == file.Length {
        return -1;
      }
      file[f] := file[f].(ref := 1);
    }

    /** fileclose up to the release of the lock: what is left to close, if this was the last reference. */
    method Close(f: nat) returns (left: Kind)
      requires f < file.Length && file[f].ref >= 1
      modifies file
      ensures file[..] == old(file[..])[f := Closed(old(file[..])[f])]
      ensures left == if old(file[..])[f].ref == 1 then old(file[..])[f].kind else NoKind
    {
      var ff := file[f];
      file[f] := ff.(ref := ff.ref - 1);
      if file[f].ref > 0 {
        return NoKind;
      }
      file[f] := File(0, NoKind);
      return ff.kind;
    }
  }

  /** A file after fileclose. */
  function Closed(x: File): File
    requires x.ref >= 1
  {
    if x.ref == 1 then File(0, NoKind) else x.(ref := x.ref - 1)
  }

  /** fdalloc: the first free descriptor, or -1. */
  method Fdalloc(ofile: array<int>, f: nat) returns (fd: int)
    modifies ofile
    ensures fd == -1 ==> ofile[..] == old(ofile[..]) && forall i :: 0 <= i < ofile.Length ==> ofile[i] != -1
    ensures fd != -1 ==>
            0 <= fd < ofile.Length && old(ofile[..])[fd] == -1 && (forall i :: 0 <= i < fd ==> ofile[i] != -1)
                         && ofile[..] == old(ofile[..])[fd := f]
  {
    fd := 0;
    while fd < ofile.Length && ofile[fd] != -1
      invariant 0 <= fd <= ofile.Length && forall i :: 0 <= i < fd ==> ofile[i] != -1
    {
      fd := fd + 1;
    }
    if fd == ofile.Length {
      return -1;
    }
    ofile[fd] := f;
  }

  /* The actions */

  /** p is not in the middle of sys_dup or fileclose. */
  predicate Ready(s: State, p: nat) {
    p < |s.procs| && s.procs[p].owing == -1 && s.procs[p].closing.NoKind?
  }

  predicate Has(x: Proc, f: nat) {
    x.hand[f] > 0 || f in x.ofile
  }

  ghost predicate Enabled(s: State, a: Action) {
    match a
    case FileAlloc(p, f) => Ready(s, p) && f < |s.files| && s.files[f].ref == 0
    case MakePipe(p, f, g) =>
      && Ready(s, p) && f < |s.files| && g < |s.files| && f != g && s.procs[p].hand[f] > 0 && s.procs[p].hand[g] > 0
      && s.files[f] == File(1, NoKind) && s.files[g] == File(1, NoKind)
    case MakeInode(p, f, ip) => Ready(s, p) && f < |s.files| && Has(s.procs[p], f) && s.files[f].kind.NoKind?
    case FdAlloc(p, f, fd) => Ready(s, p) && s.procs[p].hand[f] > 0 && fd < |s.procs[p].ofile|
        && s.procs[p].ofile[fd] == -1
    case FdClear(p, fd) => Ready(s, p) && fd < |s.procs[p].ofile| && s.procs[p].ofile[fd] >= 0
    case DupFd(p, f, fd) => Ready(s, p) && f in s.procs[p].ofile && fd < |s.procs[p].ofile|
        && s.procs[p].ofile[fd] == -1
    case DupRef(p) => p < |s.procs| && 0 <= s.procs[p].owing < |s.files|
    case ForkDup(p, q, f) => Ready(s, p) && q < |s.procs| && f < |s.files| && f in s.procs[p].ofile
    case FileClose(p, f) => Ready(s, p) && f < |s.files| && s.procs[p].hand[f] > 0 && s.files[f].ref >= 1
    case CloseEnd(p) =>
      p < |s.procs| && !s.procs[p].closing.NoKind?
          && (s.procs[p].closing.PipeEnd? ==> s.procs[p].closing.e < |s.open| == |s.at|)
  }

  function Other(e: nat): nat {
    if e % 2 == 0 then e + 1 else e - 1
  }

  function Put(s: State, p: nat, x: Proc): State
    requires p < |s.procs|
  {
    s.(procs := s.procs[p := x])
  }

  function SetFile(s: State, f: nat, x: File): State
    requires f < |s.files|
  {
    s.(files := s.files[f := x])
  }

  /** pipeclose: the page goes when the other end is shut already. */
  function EndClosed(s: State, e: nat): State
    requires e < |s.open| == |s.at|
  {
    s.(open := s.open[e := false], at := s.at[e := Shut],
       frees := if Other(e) < |s.open| && !s.open[Other(e)] then s.frees + [e / 2] else s.frees)
  }

  ghost function Do(s: State, a: Action): State
    requires Enabled(s, a)
  {
    var x := s.procs[a.p];
    match a
    case FileAlloc(p, f) => Put(SetFile(s, f, s.files[f].(ref := 1)), p, x.(hand := x.hand + multiset{f}))
    case MakePipe(p, f, g) =>
      var e := |s.open|;
      SetFile(SetFile(s, f, s.files[f].(kind := PipeEnd(e))), g, s.files[g].(kind := PipeEnd(e + 1))).(
        open := s.open + [true, true], at := s.at + [InFile(f), InFile(g)])
    case MakeInode(p, f, ip) => SetFile(s, f, s.files[f].(kind := Inode(ip)))
    case FdAlloc(p, f, fd) => Put(s, p, x.(ofile := x.ofile[fd := f], hand := x.hand - multiset{f}))
    case FdClear(p, fd) => Put(s, p, x.(ofile := x.ofile[fd := -1], hand := x.hand + multiset{x.ofile[fd]}))
    case DupFd(p, f, fd) => Put(s, p, x.(ofile := x.ofile[fd := f], owing := f))
    case DupRef(p) => Put(SetFile(s, x.owing, s.files[x.owing].(ref := s.files[x.owing].ref + 1)), p, x.(owing := -1))
    case ForkDup(p, q, f) =>
      Put(SetFile(s, f, s.files[f].(ref := s.files[f].ref + 1)), q, s.procs[q].(hand := s.procs[q].hand + multiset{f}))
    case FileClose(p, f) =>
      var k := if s.files[f].ref == 1 then s.files[f].kind else NoKind;
      Put(SetFile(s, f, Closed(s.files[f])), p, x.(hand := x.hand - multiset{f}, closing := k)).(
        at := if k.PipeEnd? && k.e < |s.at| then s.at[k.e := InProc(p)] else s.at)
    case CloseEnd(p) =>
      var t := Put(s, p, x.(closing := NoKind));
      if x.closing.PipeEnd? then EndClosed(t, x.closing.e) else t
  }

  /* What always holds */

  function Times(ofile: seq<int>, f: nat): nat {
    multiset(ofile)[f]
  }

  /** The references to f that a process accounts for. */
  function Share(x: Proc, f: nat): int {
    Times(x.ofile, f) + x.hand[f] - if x.owing == f then 1 else 0
  }

  function Total(procs: seq<Proc>, f: nat): int
    decreases |procs|
  {
    if procs == [] then 0 else Total(procs[..|procs| - 1], f) + Share(procs[|procs| - 1], f)
  }

  ghost predicate FileOk(s: State, f: nat)
    requires f < |s.files|
  {
    s.files[f].ref == Total(s.procs, f) && (s.files[f].ref == 0 ==> s.files[f].kind.NoKind?)
  }

  ghost predicate ProcOk(s: State, p: nat)
    requires p < |s.procs|
  {
    var x := s.procs[p];
    && |x.ofile| == NOFILE && (forall fd :: 0 <= fd < NOFILE ==> -1 <= x.ofile[fd] < |s.files|)
    && (forall f: nat :: x.hand[f] > 0 ==> f < |s.files|)
    && -1 <= x.owing < |s.files| && (x.owing >= 0 ==> Times(x.ofile, x.owing) >= 2)
    && (x.closing.PipeEnd? ==> x.closing.e < |s.at|)
  }

  /** The one place where an end is kept. */
  ghost predicate EndOk(s: State, e: nat)
    requires e < |s.open| == |s.at|
  {
    && (s.open[e] <==> !s.at[e].Shut?)
    && (forall f :: 0 <= f < |s.files| ==> (s.files[f].kind == PipeEnd(e) <==> s.at[e] == InFile(f)))
    && (forall p :: 0 <= p < |s.procs| ==> (s.procs[p].closing == PipeEnd(e) <==> s.at[e] == InProc(p)))
    && (s.at[e].InFile? ==> s.at[e].f < |s.files|) && (s.at[e].InProc? ==> s.at[e].p < |s.procs|)
  }

  predicate Freed(s: State, q: nat) {
    2 * q + 1 < |s.open| && !s.open[2 * q] && !s.open[2 * q + 1]
  }

  ghost predicate FreesOk(s: State) {
    && (forall i, j :: 0 <= i < j < |s.frees| ==> s.frees[i] != s.frees[j])
    && (forall q: nat :: q in s.frees <==> Freed(s, q))
  }

  ghost predicate Inv(s: State) {
    && |s.open| == |s.at| && |s.open| % 2 == 0 && FreesOk(s)
    && (forall f: nat {:trigger FileOk(s, f)} :: f < |s.files| ==> FileOk(s, f))
    && (forall p: nat {:trigger ProcOk(s, p)} :: p < |s.procs| ==> ProcOk(s, p))
    && (forall e: nat {:trigger EndOk(s, e)} :: e < |s.open| ==> EndOk(s, e))
    && (forall f :: 0 <= f < |s.files| && s.files[f].kind.PipeEnd? ==> s.files[f].kind.e < |s.at|)
  }

  ghost predicate Init(s: State) {
    && s.open == [] && s.at == [] && s.frees == []
    && (forall f :: 0 <= f < |s.files| ==> s.files[f] == File(0, NoKind))
    && (forall p :: 0 <= p < |s.procs| ==> s.procs[p] == Proc(seq(NOFILE, _ => -1), multiset{}, -1, NoKind))
  }

  lemma {:induction false} NoShares(procs: seq<Proc>, f: nat)
    requires forall p :: 0 <= p < |procs| ==> procs[p] == Proc(seq(NOFILE, _ => -1), multiset{}, -1, NoKind)
    ensures Total(procs, f) == 0
    decreases |procs|
  {
    if procs != [] {
      NoShares(procs[..|procs| - 1], f);
      var x := procs[|procs| - 1];
      assert f !in x.ofile;
      assert multiset(x.ofile)[f] == 0;
    }
  }

  lemma InitInv(s: State)
    requires Init(s)
    ensures Inv(s)
  {
    forall f: nat | f < |s.files|
      ensures FileOk(s, f)
    {
      NoShares(s.procs, f);
    }
  }

  /** The total changes with one process's share. */
  lemma {:induction false} TotalUpdate(procs: seq<Proc>, p: nat, x: Proc, f: nat)
    requires p < |procs|
    ensures Total(procs[p := x], f) == Total(procs, f) - Share(procs[p], f) + Share(x, f)
    decreases |procs|
  {
    var n := |procs| - 1;
    if p < n {
      TotalUpdate(procs[..n], p, x, f);
      assert procs[p := x][..n] == procs[..n][p := x];
    } else {
      assert procs[p := x][..n] == procs[..n];
    }
  }

  predicate Sane(x: Proc) {
    x.owing >= 0 ==> Times(x.ofile, x.owing) >= 2
  }

  lemma {:induction false} TotalAtLeast(procs: seq<Proc>, p: nat, f: nat)
    requires p < |procs| && forall q :: 0 <= q < |procs| ==> Sane(procs[q])
    ensures Total(procs, f) >= Share(procs[p], f) >= 0
    decreases |procs|
  {
    var n := |procs| - 1;
    TotalNonNeg(procs[..n], f);
    if p < n {
      TotalAtLeast(procs[..n], p, f);
    }
  }

  lemma {:induction false} TotalNonNeg(procs: seq<Proc>, f: nat)
    requires forall q :: 0 <= q < |procs| ==> Sane(procs[q])
    ensures Total(procs, f) >= 0
    decreases |procs|
  {
    if procs != [] {
      TotalNonNeg(procs[..|procs| - 1], f);
    }
  }

  lemma AllSane(s: State)
    requires Inv(s)
    ensures forall q :: 0 <= q < |s.procs| ==> Sane(s.procs[q])
  {
    hide FileOk, EndOk, FreesOk;
    forall q: nat | q < |s.procs|
      ensures Sane(s.procs[q])
    {
      assert ProcOk(s, q);
    }
  }

  /** A reference that a process has is counted. */
  lemma Counted(s: State, p: nat, f: nat)
    requires Inv(s) && p < |s.procs| && f < |s.files|
    ensures s.files[f].ref >= Share(s.procs[p], f) >= 0
  {
    AllSane(s);
    TotalAtLeast(s.procs, p, f);
    assert FileOk(s, f);
  }

  /** Storing a descriptor. */
  lemma StoreTimes(ofile: seq<int>, fd: nat, v: int, f: nat)
    requires fd < |ofile|
    ensures Times(ofile[fd := v], f) == Times(ofile, f) + (if v == f then 1 else 0) - (if ofile[fd] == f then 1 else 0)
  {
    assert ofile == ofile[..fd] + [ofile[fd]] + ofile[fd + 1..];
    assert ofile[fd := v] == ofile[..fd] + [v] + ofile[fd + 1..];
  }

  /** What a step with no business with pipe ends keeps of them. */
  lemma EndsKept(s: State, t: State)
    requires Inv(s) && t.open == s.open && t.at == s.at && t.frees == s.frees && |t.files| == |s.files|
             && |t.procs| == |s.procs|
    requires forall f :: 0 <= f < |s.files| ==>
             t.files[f].kind == s.files[f].kind || (!t.files[f].kind.PipeEnd? && !s.files[f].kind.PipeEnd?)
    requires forall p :: 0 <= p < |s.procs| ==>
             t.procs[p].closing == s.procs[p].closing || (!t.procs[p].closing.PipeEnd? && !s.procs[p].closing.PipeEnd?)
    ensures FreesOk(t)
    ensures forall e: nat {:trigger EndOk(t, e)} :: e < |t.open| ==> EndOk(t, e)
  {
    hide FileOk, ProcOk;
    forall e: nat | e < |t.open|
      ensures EndOk(t, e)
    {
      assert EndOk(s, e);
    }
  }

  /** Process p's descriptors and references change, and the count of file f with them. */
  lemma Recounted(s: State, t: State, p: nat, f: nat)
    requires Inv(s) && p < |s.procs| == |t.procs| && f < |s.files| == |t.files|
             && t == SetFile(Put(s, p, t.procs[p]), f, t.files[f])
    requires t.procs[p].closing == s.procs[p].closing
             && (t.files[f].kind == s.files[f].kind || (!t.files[f].kind.PipeEnd? && !s.files[f].kind.PipeEnd?))
    requires t.files[f].ref == s.files[f].ref + Share(t.procs[p], f) - Share(s.procs[p], f)
    requires t.files[f].ref == 0 ==> t.files[f].kind.NoKind?
    requires forall g: nat :: g < |s.files| && g != f ==> Share(t.procs[p], g) == Share(s.procs[p], g)
    requires ProcOk(t, p)
    ensures Inv(t)
  {
    EndsKept(s, t);
    hide EndOk, FreesOk, Share;
    forall g: nat | g < |t.files|
      ensures FileOk(t, g)
    {
      assert FileOk(s, g);
      TotalUpdate(s.procs, p, t.procs[p], g);
    }
    forall q: nat | q < |t.procs|
      ensures ProcOk(t, q)
    {
      assert ProcOk(s, q);
    }
  }

  lemma FileAllocKeepsInv(s: State, p: nat, f: nat)
    requires Inv(s) && Enabled(s, FileAlloc(p, f))
    ensures Inv(Do(s, FileAlloc(p, f)))
  {
    hide EndOk, FreesOk;
    assert ProcOk(s, p) && FileOk(s, f);
    Recounted(s, Do(s, FileAlloc(p, f)), p, f);
  }

  lemma MakeInodeKeepsInv(s: State, p: nat, f: nat, ip: nat)
    requires Inv(s) && Enabled(s, MakeInode(p, f, ip))
    ensures Inv(Do(s, MakeInode(p, f, ip)))
  {
    hide EndOk, FreesOk;
    assert ProcOk(s, p);
    Counted(s, p, f);
    Recounted(s, Do(s, MakeInode(p, f, ip)), p, f);
  }

  lemma FdAllocKeepsInv(s: State, p: nat, f: nat, fd: nat)
    requires Inv(s) && Enabled(s, FdAlloc(p, f, fd))
    ensures Inv(Do(s, FdAlloc(p, f, fd)))
  {
    hide EndOk, FreesOk, Times;
    var t, x := Do(s, FdAlloc(p, f, fd)), s.procs[p];
    assert ProcOk(s, p) && FileOk(s, f);
    forall g: nat
      ensures Share(t.procs[p], g) == Share(x, g)
    {
      StoreTimes(x.ofile, fd, f, g);
    }
    Recounted(s, t, p, f);
  }

  lemma FdClearKeepsInv(s: State, p: nat, fd: nat)
    requires Inv(s) && Enabled(s, FdClear(p, fd))
    ensures Inv(Do(s, FdClear(p, fd)))
  {
    hide EndOk, FreesOk, Times;
    var t, x := Do(s, FdClear(p, fd)), s.procs[p];
    assert ProcOk(s, p) && FileOk(s, x.ofile[fd]);
    forall g: nat
      ensures Share(t.procs[p], g) == Share(x, g)
    {
      StoreTimes(x.ofile, fd, -1, g);
    }
    Recounted(s, t, p, x.ofile[fd]);
  }

  lemma DupFdKeepsInv(s: State, p: nat, f: nat, fd: nat)
    requires Inv(s) && Enabled(s, DupFd(p, f, fd))
    ensures Inv(Do(s, DupFd(p, f, fd)))
  {
    hide EndOk, FreesOk;
    var t, x := Do(s, DupFd(p, f, fd)), s.procs[p];
    assert ProcOk(s, p) && FileOk(s, f);
    assert f in multiset(x.ofile) && Times(x.ofile, f) >= 1;
    StoreTimes(x.ofile, fd, f, f);
    hide Times;
    forall g: nat
      ensures Share(t.procs[p], g) == Share(x, g)
    {
      StoreTimes(x.ofile, fd, f, g);
    }
    Recounted(s, t, p, f);
  }

  lemma DupRefKeepsInv(s: State, p: nat)
    requires Inv(s) && Enabled(s, DupRef(p))
    ensures Inv(Do(s, DupRef(p)))
  {
    hide EndOk, FreesOk, Times;
    assert ProcOk(s, p) && FileOk(s, s.procs[p].owing);
    Counted(s, p, s.procs[p].owing);
    Recounted(s, Do(s, DupRef(p)), p, s.procs[p].owing);
  }

  lemma ForkDupKeepsInv(s: State, p: nat, q: nat, f: nat)
    requires Inv(s) && Enabled(s, ForkDup(p, q, f))
    ensures Inv(Do(s, ForkDup(p, q, f)))
  {
    hide EndOk, FreesOk;
    assert ProcOk(s, p) && ProcOk(s, q) && FileOk(s, f);
    Recounted(s, Do(s, ForkDup(p, q, f)), q, f);
  }

  /** Files and descriptors are as before, up to what files refer to. */
  lemma SameCounts(s: State, t: State)
    requires Inv(s) && t.procs == s.procs && |t.files| == |s.files| && |t.at| >= |s.at|
    requires forall f :: 0 <= f < |s.files| ==>
             t.files[f].ref == s.files[f].ref && (t.files[f].ref == 0 ==> t.files[f].kind.NoKind?)
    ensures forall f: nat {:trigger FileOk(t, f)} :: f < |t.files| ==> FileOk(t, f)
    ensures forall p: nat {:trigger ProcOk(t, p)} :: p < |t.procs| ==> ProcOk(t, p)
  {
    hide EndOk, FreesOk;
    forall f: nat | f < |t.files|
      ensures FileOk(t, f)
    {
      assert FileOk(s, f);
    }
    forall p: nat | p < |t.procs|
      ensures ProcOk(t, p)
    {
      assert ProcOk(s, p);
    }
  }

  lemma MakePipeKeepsInv(s: State, p: nat, f: nat, g: nat)
    requires Inv(s) && Enabled(s, MakePipe(p, f, g))
    ensures Inv(Do(s, MakePipe(p, f, g)))
  {
    hide EndOk, FreesOk;
    var t := Do(s, MakePipe(p, f, g));
    forall h: nat | h < |s.files|
      ensures t.files[h].ref == 0 ==> t.files[h].kind.NoKind?
    {
      assert FileOk(s, h);
    }
    SameCounts(s, t);
    MakePipeEnds(s, p, f, g);
    MakePipeFrees(s, p, f, g);
  }

  lemma MakePipeEnds(s: State, p: nat, f: nat, g: nat)
    requires Inv(s) && Enabled(s, MakePipe(p, f, g))
    ensures var t := Do(s, MakePipe(p, f, g));
            && |t.open| == |t.at|
            && forall e: nat {:trigger EndOk(t, e)} :: e < |t.open| ==> EndOk(t, e)
  {
    hide FileOk;
    var t := Do(s, MakePipe(p, f, g));
    forall q: nat | q < |s.procs|
      ensures s.procs[q].closing.PipeEnd? ==> s.procs[q].closing.e < |s.at|
    {
      assert ProcOk(s, q);
    }
    hide ProcOk, FreesOk;
    forall e: nat | e < |t.open|
      ensures EndOk(t, e)
    {
      if e < |s.open| {
        assert EndOk(s, e);
      }
    }
  }

  lemma MakePipeFrees(s: State, p: nat, f: nat, g: nat)
    requires Inv(s) && Enabled(s, MakePipe(p, f, g))
    ensures FreesOk(Do(s, MakePipe(p, f, g)))
  {
    hide FileOk, ProcOk, EndOk;
    var t := Do(s, MakePipe(p, f, g));
    forall q: nat
      ensures Freed(t, q) == Freed(s, q)
    {
    }
  }

  lemma FileCloseCounts(s: State, p: nat, f: nat)
    requires Inv(s) && Enabled(s, FileClose(p, f))
    ensures var t := Do(s, FileClose(p, f));
            && (forall g: nat {:trigger FileOk(t, g)} :: g < |t.files| ==> FileOk(t, g))
            && (forall q: nat {:trigger ProcOk(t, q)} :: q < |t.procs| ==> ProcOk(t, q))
  {
    hide EndOk, FreesOk, Times;
    var t := Do(s, FileClose(p, f));
    assert ProcOk(s, p);
    forall g: nat | g < |t.files|
      ensures FileOk(t, g)
    {
      assert FileOk(s, g);
      TotalUpdate(s.procs, p, t.procs[p], g);
    }
    forall q: nat | q < |t.procs|
      ensures ProcOk(t, q)
    {
      assert ProcOk(s, q);
    }
  }

  lemma FileCloseKeepsInv(s: State, p: nat, f: nat)
    requires Inv(s) && Enabled(s, FileClose(p, f))
    ensures Inv(Do(s, FileClose(p, f)))
  {
    hide FileOk, ProcOk;
    FileCloseCounts(s, p, f);
    var t := Do(s, FileClose(p, f));
    forall e: nat | e < |t.open|
      ensures EndOk(t, e)
    {
      assert EndOk(s, e);
    }
  }

  lemma CloseEndCounts(s: State, p: nat)
    requires Inv(s) && Enabled(s, CloseEnd(p))
    ensures var t := Do(s, CloseEnd(p));
            && (forall g: nat {:trigger FileOk(t, g)} :: g < |t.files| ==> FileOk(t, g))
            && (forall q: nat {:trigger ProcOk(t, q)} :: q < |t.procs| ==> ProcOk(t, q))
  {
    hide EndOk, FreesOk, Times;
    var t := Do(s, CloseEnd(p));
    forall g: nat | g < |t.files|
      ensures FileOk(t, g)
    {
      assert FileOk(s, g);
      TotalUpdate(s.procs, p, t.procs[p], g);
    }
    forall q: nat | q < |t.procs|
      ensures ProcOk(t, q)
    {
      assert ProcOk(s, q);
    }
  }

  /** A pipe's page is freed by whoever closes its second end. */
  lemma CloseEndFrees(s: State, t: State, e: nat)
    requires FreesOk(s) && |s.open| == |s.at| && |s.open| % 2 == 0 && e < |s.open| && s.open[e]
    requires t.open == EndClosed(s, e).open && t.frees == EndClosed(s, e).frees
    ensures FreesOk(t)
  {
    assert Other(e) < |s.open|;
    forall q: nat
      ensures Freed(t, q) <==> Freed(s, q) || (q == e / 2 && !s.open[Other(e)])
    {
    }
    assert !Freed(s, e / 2);
  }

  lemma CloseEndKeepsInv(s: State, p: nat)
    requires Inv(s) && Enabled(s, CloseEnd(p))
    ensures Inv(Do(s, CloseEnd(p)))
  {
    hide FileOk, ProcOk, FreesOk;
    CloseEndCounts(s, p);
    var t := Do(s, CloseEnd(p));
    if s.procs[p].closing.PipeEnd? {
      assert EndOk(s, s.procs[p].closing.e);
      CloseEndFrees(s, t, s.procs[p].closing.e);
    } else {
      EndsKept(s, t);
    }
    forall e: nat | e < |t.open|
      ensures EndOk(t, e)
    {
      assert EndOk(s, e);
    }
  }

  lemma DoKeepsInv(s: State, a: Action)
    requires Inv(s) && Enabled(s, a)
    ensures Inv(Do(s, a))
  {
    match a
    case FileAlloc(p, f) => FileAllocKeepsInv(s, p, f);
    case MakePipe(p, f, g) => MakePipeKeepsInv(s, p, f, g);
    case MakeInode(p, f, ip) => MakeInodeKeepsInv(s, p, f, ip);
    case FdAlloc(p, f, fd) => FdAllocKeepsInv(s, p, f, fd);
    case FdClear(p, fd) => FdClearKeepsInv(s, p, fd);
    case DupFd(p, f, fd) => DupFdKeepsInv(s, p, f, fd);
    case DupRef(p) => DupRefKeepsInv(s, p);
    case ForkDup(p, q, f) => ForkDupKeepsInv(s, p, q, f);
    case FileClose(p, f) => FileCloseKeepsInv(s, p, f);
    case CloseEnd(p) => CloseEndKeepsInv(s, p);
  }

  ghost predicate Run(s: State, acts: seq<Action>, t: State)
    decreases |acts|
  {
    if acts == [] then s == t else Enabled(s, acts[0]) && Run(Do(s, acts[0]), acts[1..], t)
  }

  lemma {:induction false} RunKeepsInv(s: State, acts: seq<Action>, t: State)
    requires Inv(s) && Run(s, acts, t)
    ensures Inv(t)
    decreases |acts|
  {
    if acts != [] {
      DoKeepsInv(s, acts[0]);
      RunKeepsInv(Do(s, acts[0]), acts[1..], t);
    }
  }

  /** The descriptors of all processes that refer to f. */
  function Descriptors(procs: seq<Proc>, f: nat): nat
    decreases |procs|
  {
    if procs == [] then 0 else Descriptors(procs[..|procs| - 1], f) + Times(procs[|procs| - 1].ofile, f)
  }

  lemma {:induction false} OnlyDescriptors(procs: seq<Proc>, f: nat)
    requires forall p :: 0 <= p < |procs| ==> procs[p].hand == multiset{} && procs[p].owing == -1
    ensures Total(procs, f) == Descriptors(procs, f)
    decreases |procs|
  {
    if procs != [] {
      OnlyDescriptors(procs[..|procs| - 1], f);
    }
  }

  /**
   In every run, between system calls, the count of a file is the number of descriptors, over all processes, that
   refer to it.
   */
  lemma CountsDescriptors(s: State, acts: seq<Action>, t: State, f: nat)
    requires Init(s) && Run(s, acts, t) && f < |t.files|
    requires forall p :: 0 <= p < |t.procs| ==> t.procs[p].hand == multiset{} && t.procs[p].owing == -1
    ensures t.files[f].ref == Descriptors(t.procs, f)
  {
    InitInv(s);
    RunKeepsInv(s, acts, t);
    assert FileOk(t, f);
    OnlyDescriptors(t.procs, f);
  }

  /** In every run, the panics of filedup and fileclose are out of reach: a file that a process refers to is counted. */
  lemma NoPanics(s: State, acts: seq<Action>, t: State, p: nat, f: nat)
    requires Init(s) && Run(s, acts, t) && p < |t.procs| && f < |t.files|
    ensures t.procs[p].hand[f] > 0 || f in t.procs[p].ofile || t.procs[p].owing == f ==> t.files[f].ref >= 1
  {
    InitInv(s);
    RunKeepsInv(s, acts, t);
    Counted(t, p, f);
    assert ProcOk(t, p);
    assert f in t.procs[p].ofile ==> f in multiset(t.procs[p].ofile);
  }

  /**
   In every run, a pipe's page is freed once, when neither end is open any more, which is when no file refers to
   either.
   */
  lemma PipeFreedOnce(s: State, acts: seq<Action>, t: State, q: nat)
    requires Init(s) && Run(s, acts, t) && 2 * q + 1 < |t.open|
    ensures forall i, j :: 0 <= i < j < |t.frees| ==> t.frees[i] != t.frees[j]
    ensures q in t.frees <==> !t.open[2 * q] && !t.open[2 * q + 1]
    ensures q in t.frees ==>
            forall f :: 0 <= f < |t.files| ==>
            t.files[f].kind != PipeEnd(2 * q) && t.files[f].kind != PipeEnd(2 * q + 1)
    ensures q !in t.frees && (forall p :: 0 <= p < |t.procs| ==> t.procs[p].closing.NoKind?) ==>
              exists f :: 0 <= f < |t.files| && t.files[f].ref > 0
                  && (t.files[f].kind == PipeEnd(2 * q) || t.files[f].kind == PipeEnd(2 * q + 1))
  {
    InitInv(s);
    RunKeepsInv(s, acts, t);
    assert EndOk(t, 2 * q) && EndOk(t, 2 * q + 1);
    if q !in t.frees && forall p :: 0 <= p < |t.procs| ==> t.procs[p].closing.NoKind? {
      assert Freed(t, q) <==> q in t.frees;
      var e := if t.open[2 * q] then 2 * q else 2 * q + 1;
      assert t.at[e].InFile?;
      assert FileOk(t, t.at[e].f);
    }
  }

  /* The references to inodes that files keep */

  /** The files for inode ip. */
  function Files(files: seq<File>, ip: nat): nat
    decreases |files|
  {
    if files == [] then 0
    else Files(files[..|files| - 1], ip) + if files[|files| - 1].kind == Inode(ip) then 1 else 0
  }

  /** The processes that are about to call iput for the file they closed. */
  function Closing(procs: seq<Proc>, ip: nat): nat
    decreases |procs|
  {
    if procs == [] then 0
    else Closing(procs[..|procs| - 1], ip) + if procs[|procs| - 1].closing == Inode(ip) then 1 else 0
  }

  lemma {:induction false} FilesUpdate(files: seq<File>, f: nat, x: File, ip: nat)
    requires f < |files|
    ensures Files(files[f := x], ip) ==
            Files(files, ip) - (if files[f].kind == Inode(ip) then 1 else 0) + if x.kind == Inode(ip) then 1 else 0
    decreases |files|
  {
    var n := |files| - 1;
    if f < n {
      FilesUpdate(files[..n], f, x, ip);
      assert files[f := x][..n] == files[..n][f := x];
    } else {
      assert files[f := x][..n] == files[..n];
    }
  }

  lemma {:induction false} ClosingUpdate(procs: seq<Proc>, p: nat, x: Proc, ip: nat)
    requires p < |procs|
    ensures Closing(procs[p := x], ip) ==
            Closing(procs, ip) - (if procs[p].closing == Inode(ip) then 1 else 0)
                + if x.closing == Inode(ip) then 1 else 0
    decreases |procs|
  {
    var n := |procs| - 1;
    if p < n {
      ClosingUpdate(procs[..n], p, x, ip);
      assert procs[p := x][..n] == procs[..n][p := x];
    } else {
      assert procs[p := x][..n] == procs[..n];
    }
  }

  /** The references to ip that fileclose owes to iput, now or when the last descriptor goes. */
  function Kept(s: State, ip: nat): nat {
    Files(s.files, ip) + Closing(s.procs, ip)
  }

  /** sys_open hands the reference that namei or create gave it over to a file. */
  predicate Opens(a: Action, ip: nat) {
    a.MakeInode? && a.ip == ip
  }

  /** The end of fileclose calls iput(ip). */
  predicate Puts(s: State, a: Action, ip: nat) {
    a.CloseEnd? && a.p < |s.procs| && s.procs[a.p].closing == Inode(ip)
  }

  /** How many files were opened for ip in a run, and how often fileclose called iput for it. */
  ghost function Opened(s: State, acts: seq<Action>, ip: nat): nat
    decreases |acts|
  {
    if acts == [] || !Enabled(s, acts[0]) then 0
    else Opened(Do(s, acts[0]), acts[1..], ip) + if Opens(acts[0], ip) then 1 else 0
  }

  ghost function PutBack(s: State, acts: seq<Action>, ip: nat): nat
    decreases |acts|
  {
    if acts == [] || !Enabled(s, acts[0]) then 0
    else PutBack(Do(s, acts[0]), acts[1..], ip) + if Puts(s, acts[0], ip) then 1 else 0
  }

  lemma StepKept(s: State, a: Action, ip: nat)
    requires Inv(s) && Enabled(s, a)
    ensures Kept(Do(s, a), ip) == Kept(s, ip) + (if Opens(a, ip) then 1 else 0) - if Puts(s, a, ip) then 1 else 0
  {
    hide ProcOk, EndOk, FreesOk, Files, Closing, Share, Times;
    var t := Do(s, a);
    match a
    case FileAlloc(p, f) =>
      assert FileOk(s, f);
      FilesUpdate(s.files, f, t.files[f], ip);
      ClosingUpdate(s.procs, p, t.procs[p], ip);
    case MakePipe(p, f, g) =>
      FilesUpdate(s.files, f, t.files[f], ip);
      FilesUpdate(s.files[f := t.files[f]], g, t.files[g], ip);
    case MakeInode(p, f, i) =>
      FilesUpdate(s.files, f, t.files[f], ip);
    case FdAlloc(p, f, fd) => ClosingUpdate(s.procs, p, t.procs[p], ip);
    case FdClear(p, fd) => ClosingUpdate(s.procs, p, t.procs[p], ip);
    case DupFd(p, f, fd) => ClosingUpdate(s.procs, p, t.procs[p], ip);
    case DupRef(p) =>
      var f := s.procs[p].owing;
      FilesUpdate(s.files, f, t.files[f], ip);
      ClosingUpdate(s.procs, p, t.procs[p], ip);
    case ForkDup(p, q, f) =>
      FilesUpdate(s.files, f, t.files[f], ip);
      ClosingUpdate(s.procs, q, t.procs[q], ip);
    case FileClose(p, f) =>
      FilesUpdate(s.files, f, t.files[f], ip);
      ClosingUpdate(s.procs, p, t.procs[p], ip);
    case CloseEnd(p) => ClosingUpdate(s.procs, p, t.procs[p], ip);
  }

  /**
   In every run, every reference to an inode that was handed over to a file is still kept for that file or has come
   back in one call of iput.
   */
  lemma {:induction false} InodesConserved(s: State, acts: seq<Action>, t: State, ip: nat)
    requires Inv(s) && Run(s, acts, t)
    ensures Kept(s, ip) + Opened(s, acts, ip) == Kept(t, ip) + PutBack(s, acts, ip)
    decreases |acts|
  {
    hide Inv, Do, Enabled, Kept, Opens, Puts;
    if acts != [] {
      DoKeepsInv(s, acts[0]);
      StepKept(s, acts[0], ip);
      InodesConserved(Do(s, acts[0]), acts[1..], t, ip);
    }
  }

  lemma {:induction false} NothingKept(s: State, ip: nat)
    requires Init(s)
    ensures Inv(s) && Kept(s, ip) == 0
  {
    InitInv(s);
    NoFiles(s.files, ip);
    NoneClosing(s.procs, ip);
  }

  lemma {:induction false} NoFiles(files: seq<File>, ip: nat)
    requires forall f :: 0 <= f < |files| ==> files[f].kind.NoKind?
    ensures Files(files, ip) == 0
    decreases |files|
  {
    if files != [] {
      NoFiles(files[..|files| - 1], ip);
    }
  }

  lemma {:induction false} NoneClosing(procs: seq<Proc>, ip: nat)
    requires forall p :: 0 <= p < |procs| ==> procs[p].closing.NoKind?
    ensures Closing(procs, ip) == 0
    decreases |procs|
  {
    if procs != [] {
      NoneClosing(procs[..|procs| - 1], ip);
    }
  }

  /** Once every descriptor is closed and every call is over, all of them have. */
  lemma AllPutBack(s: State, acts: seq<Action>, t: State, ip: nat)
    requires Init(s) && Run(s, acts, t)
    requires forall p :: 0 <= p < |t.procs| ==>
             t.procs[p] == Proc(seq(NOFILE, _ => -1), multiset{}, -1, NoKind)
    ensures PutBack(s, acts, ip) == Opened(s, acts, ip)
  {
    NothingKept(s, ip);
    InodesConserved(s, acts, t, ip);
    RunKeepsInv(s, acts, t);
    forall f: nat | f < |t.files|
      ensures t.files[f].kind.NoKind?
    {
      assert FileOk(t, f);
      NoShares(t.procs, f);
    }
    NoFiles(t.files, ip);
    NoneClosing(t.procs, ip);
  }
}
