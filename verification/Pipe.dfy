/**
 Pipes (kernel/pipe.c): a 512-byte ring with two wrapping 32-bit counters, and the protocol its readers, writers and
 closers run over it with sleep and wakeup (kernel/proc.c).
 */
module Pipe {
  import opened Bytes

  const PIPESIZE := 512
  const WRAP := 0x1_0000_0000   // the counters are 32 bits wide

  /** struct pipe, without its lock. */
  datatype Pipe = Pipe(data: seq<byte>, nread: uint, nwrite: uint, readopen: bool, writeopen: bool)

  predicate Full(p: Pipe) {
    p.nwrite as int == (p.nread as int + PIPESIZE) % WRAP
  }

  predicate Empty(p: Pipe) {
    p.nread == p.nwrite
  }

  /** nwrite - nread, as the machine subtracts. */
  function Count(p: Pipe): nat {
    (p.nwrite as int - p.nread as int) % WRAP
  }

  predicate Sound(p: Pipe) {
    |p.data| == PIPESIZE && Count(p) <= PIPESIZE
  }

  /** The bytes in the pipe, oldest first. */
  function Contents(p: Pipe): (s: seq<byte>)
    requires Sound(p)
    ensures |s| == Count(p)
  {
    seq(Count(p), k requires 0 <= k < Count(p) => ByteOf(p, k))
  }

  function ByteOf(p: Pipe, k: nat): byte
    requires Sound(p)
  {
    p.data[(p.nread as int + k) % PIPESIZE]
  }

  /** p->data[p->nwrite++ % PIPESIZE] = b. */
  function Put(p: Pipe, b: byte): Pipe
    requires |p.data| == PIPESIZE
  {
    p.(data := p.data[p.nwrite as int % PIPESIZE := b], nwrite := (p.nwrite as int + 1) % WRAP)
  }

  /** p->data[p->nread++ % PIPESIZE]. */
  function Get(p: Pipe): (byte, Pipe)
    requires |p.data| == PIPESIZE
  {
    (p.data[p.nread as int % PIPESIZE], p.(nread := (p.nread as int + 1) % WRAP))
  }

  /** The counters tell full from empty at any point of their range. */
  lemma CountersTell(p: Pipe)
    requires Sound(p)
    ensures Full(p) <==> Count(p) == PIPESIZE
    ensures Empty(p) <==> Count(p) == 0
  {
  }

  /** The k-th byte sits in the slot the next byte goes to only if it is that next byte. */
  lemma SlotsDiffer(r: uint, w: uint, k: nat)
    requires k <= (w as int - r as int) % WRAP < PIPESIZE
    ensures (r as int + k) % PIPESIZE == w as int % PIPESIZE <==> k == (w as int - r as int) % WRAP
  {
    var c := (w as int - r as int) % WRAP;
    assert w as int == if r as int + c < WRAP then r as int + c else r as int + c - WRAP;
    assert w as int % PIPESIZE == (r as int + c) % PIPESIZE;
  }

  lemma PutByte(p: Pipe, b: byte, k: nat)
    requires Sound(p) && Count(p) < PIPESIZE && k <= Count(p)
    ensures |Put(p, b).data| == PIPESIZE
    ensures Put(p, b).data[(p.nread as int + k) % PIPESIZE] == if k == Count(p) then b else ByteOf(p, k)
  {
    SlotsDiffer(p.nread, p.nwrite, k);
  }

  lemma PutCounts(p: Pipe, b: byte)
    requires Sound(p) && !Full(p)
    ensures Count(p) < PIPESIZE && Count(Put(p, b)) == Count(p) + 1
  {
    CountersTell(p);
  }

  lemma PutAppends(p: Pipe, b: byte)
    requires Sound(p) && !Full(p)
    ensures Sound(Put(p, b)) && Contents(Put(p, b)) == Contents(p) + [b]
  {
    PutCounts(p, b);
    hide Count, Full;
    var q := Put(p, b);
    forall k | 0 <= k < Count(q)
      ensures ByteOf(q, k) == if k == Count(p) then b else ByteOf(p, k)
    {
      PutByte(p, b, k);
    }
  }

  lemma NextSlot(r: uint, k: nat)
    ensures ((r as int + 1) % WRAP + k) % PIPESIZE == (r as int + k + 1) % PIPESIZE
  {
    assert (r as int + 1) % WRAP == r as int + 1 || ((r as int + 1) % WRAP == 0 && r as int == WRAP - 1);
    if r as int == WRAP - 1 {
      assert r as int + k + 1 == k + 0x80_0000 * PIPESIZE;
    }
  }

  lemma GetCounts(p: Pipe)
    requires Sound(p) && !Empty(p)
    ensures 0 < Count(p) && Count(Get(p).1) == Count(p) - 1
  {
    CountersTell(p);
  }

  lemma GetRemoves(p: Pipe)
    requires Sound(p) && !Empty(p)
    ensures Sound(Get(p).1) && [Get(p).0] + Contents(Get(p).1) == Contents(p)
  {
    GetCounts(p);
    hide Count, Empty;
    var q := Get(p).1;
    forall k | 0 <= k < Count(q)
      ensures ByteOf(q, k) == ByteOf(p, k + 1)
    {
      NextSlot(p.nread, k);
    }
  }

  /** struct pipe in its page; the caller holds its lock. */
  class PipePage {
    const data: array<byte>
    var nread: uint
    var nwrite: uint
    var readopen: bool
    var writeopen: bool

    ghost function Value(): Pipe
      reads this, data
    {
      Pipe(data[..], nread, nwrite, readopen, writeopen)
    }

    ghost predicate Valid()
      reads this, data
    {
      data.Length == PIPESIZE && Sound(Value())
    }

    /** pipealloc. */
    constructor ()
      ensures Valid() && Contents(Value()) == [] && readopen && writeopen && fresh(data)
    {
      data := new byte[PIPESIZE](_ => 0);
      nread, nwrite := 0, 0;
      readopen, writeopen := true, true;
    }

    /** pipewrite between two sleeps: as much of src from i on as there is room for. */
    method Store(src: seq<byte>, i0: nat) returns (i: nat)
      requires Valid() && i0 <= |src|
      modifies this`nwrite, data
      ensures Valid() && i0 <= i <= |src|
      ensures i == |src| || Full(Value())
      ensures Contents(Value()) == old(Contents(Value())) + src[i0..i]
    {
      i := i0;
      hide Contents, Sound, Count;
      while i < |src| && !(nwrite as int == (nread as int + PIPESIZE) % WRAP)
        invariant i0 <= i <= |src| && Valid() && nread == old(nread)
        invariant Contents(Value()) == old(Contents(Value())) + src[i0..i]
      {
        ghost var was := Value();
        PutAppends(was, src[i]);
        data[nwrite as int % PIPESIZE] := src[i];
        nwrite := (nwrite as int + 1) % WRAP;
        assert Value() == Put(was, src[i]);
        i := i + 1;
      }
    }

    /** piperead once it no longer waits: at most n bytes, into the caller's buffer. */
    method Fetch(n: nat, buf: array<byte>) returns (i: nat)
      requires Valid() && n <= buf.Length && buf != data
      modifies this`nread, buf
      ensures Valid() && i == if n < old(Count(Value())) then n else old(Count(Value()))
      ensures old(Contents(Value())) == buf[..i] + Contents(Value())
      ensures forall k :: i <= k < buf.Length ==> buf[k] == old(buf[k])
    {
      i := 0;
      hide Contents, Sound, Count;
      while i < n && !(nread == nwrite)
        invariant 0 <= i <= n && Valid()
        invariant old(Contents(Value())) == buf[..i] + Contents(Value())
        invariant forall k :: i <= k < buf.Length ==> buf[k] == old(buf[k])
      {
        ghost var was, read := Value(), buf[..i];
        GetRemoves(was);
        assert old(Contents(Value())) == read + [Get(was).0] + Contents(Get(was).1);
        buf[i] := data[nread as int % PIPESIZE];
        nread := (nread as int + 1) % WRAP;
        assert Value() == Get(was).1 && buf[i] == Get(was).0;
        i := i + 1;
        assert buf[..i] == read + [Get(was).0];
      }
      CountersTell(Value());
      assert old(Count(Value())) == i + Count(Value());
    }
  }

  /* The protocol */

  /**
   Where a process is. Wants*: about to acquire the pipe's lock, to go on in pipewrite, piperead or pipeclose. The
   states from Write on hold the lock: Write in the loop of pipewrite with i bytes stored (`owes` once one was stored
   since the lock was acquired), Wait and Copy in the two loops of piperead, Close in pipeclose; Falls* has found that
   it is not killed and is about to sleep, and to be killed there does not keep it from that.
   */
  datatype Pc =
    | Out(r: int)   // not in the pipe; r is what the last call returned
    | WantsWrite(src: seq<byte>, i: nat)
    | WantsRead(n: nat)
    | WantsClose(writable: bool)
    | SleepsWrite(src: seq<byte>, i: nat)   // in sleep(&p->nwrite)
    | SleepsRead(n: nat)                    // in sleep(&p->nread)
    | Write(src: seq<byte>, i: nat, owes: bool)
    | Wait(n: nat)
    | Copy(n: nat, got: seq<byte>)
    | Close(writable: bool)
    | FallsWrite(src: seq<byte>, i: nat)
    | FallsRead(n: nat)

  /**
   holder: the process that holds the pipe's lock, -1 when it is free. accepted and delivered: all bytes ever stored in
   and taken out of the pipe; they are only there to state properties.
   */
  datatype State = State(pipe: Pipe, holder: int, procs: seq<Pc>, killed: seq<bool>, accepted: seq<byte>,
      delivered: seq<byte>)

  datatype Action =
    | Call(p: nat, pc: Pc)   // a system call on the pipe
    | Acquire(p: nat)
    | Step(p: nat)           // one turn of the loop the lock holder is in
    | Kill(p: nat)

  predicate InSection(pc: Pc) {
    pc.Write? || pc.Wait? || pc.Copy? || pc.Close? || pc.FallsWrite? || pc.FallsRead?
  }

  predicate Starts(pc: Pc) {
    match pc
    case WantsWrite(src, i) => i == 0
    case WantsRead(n) => true
    case WantsClose(w) => true
    case _ => false
  }

  predicate Wants(pc: Pc) {
    pc.WantsWrite? || pc.WantsRead? || pc.WantsClose?
  }

  /** Once both ends are closed the page is freed, and nobody has the pipe open. */
  ghost predicate Enabled(s: State, a: Action) {
    a.p < |s.procs| == |s.killed| &&
    match a
    case Call(p, pc) => s.procs[p].Out? && Starts(pc) && (s.pipe.readopen || s.pipe.writeopen)
    case Acquire(p) => s.holder == -1 && Wants(s.procs[p]) && (s.pipe.readopen || s.pipe.writeopen)
    case Step(p) => s.holder == p && InSection(s.procs[p]) && |s.pipe.data| == PIPESIZE
    case Kill(p) => true
  }

  function Entered(pc: Pc): Pc {
    match pc
    case WantsWrite(src, i) => Write(src, i, false)
    case WantsRead(n) => Wait(n)
    case WantsClose(w) => Close(w)
    case _ => pc
  }

  /** wakeup(&p->nread). */
  function WakeReader(pc: Pc): Pc {
    if pc.SleepsRead? then WantsRead(pc.n) else pc
  }

  /** wakeup(&p->nwrite). */
  function WakeWriter(pc: Pc): Pc {
    if pc.SleepsWrite? then WantsWrite(pc.src, pc.i) else pc
  }

  function WakeReaders(procs: seq<Pc>): (r: seq<Pc>)
    ensures |r| == |procs| && forall i :: 0 <= i < |procs| ==> r[i] == WakeReader(procs[i])
  {
    seq(|procs|, i requires 0 <= i < |procs| => WakeReader(procs[i]))
  }

  function WakeWriters(procs: seq<Pc>): (r: seq<Pc>)
    ensures |r| == |procs| && forall i :: 0 <= i < |procs| ==> r[i] == WakeWriter(procs[i])
  {
    seq(|procs|, i requires 0 <= i < |procs| => WakeWriter(procs[i]))
  }

  /** pipewrite gives up: the pipe is full, and the reading end is closed or the process is killed. */
  predicate GivesUp(s: State, p: nat)
    requires p < |s.procs| == |s.killed| && s.procs[p].Write?
  {
    s.procs[p].i < |s.procs[p].src| && Full(s.pipe) && (!s.pipe.readopen || s.killed[p])
  }

  function WriteStep(s: State, p: nat): State
    requires p < |s.procs| == |s.killed| && s.procs[p].Write? && |s.pipe.data| == PIPESIZE
  {
    var pc := s.procs[p];
    if pc.i >= |pc.src| then s.(holder := -1, procs := WakeReaders(s.procs[p := Out(|pc.src|)]))
    else if GivesUp(s, p) then s.(holder := -1, procs := s.procs[p := Out(-1)])
    else if Full(s.pipe) then s.(procs := s.procs[p := FallsWrite(pc.src, pc.i)])
    else
      s.(pipe := Put(s.pipe, pc.src[pc.i]), procs := s.procs[p := Write(pc.src, pc.i + 1, true)],
          accepted := s.accepted + [pc.src[pc.i]])
  }

  function ReadStep(s: State, p: nat): State
    requires p < |s.procs| == |s.killed| && (s.procs[p].Wait? || s.procs[p].Copy?) && |s.pipe.data| == PIPESIZE
  {
    match s.procs[p]
    case Wait(n) =>
      if Empty(s.pipe) && s.pipe.writeopen then
        if s.killed[p] then s.(holder := -1, procs := s.procs[p := Out(-1)])
        else s.(procs := s.procs[p := FallsRead(n)])
      else s.(procs := s.procs[p := Copy(n, [])])
    case Copy(n, got) =>
      if |got| < n && !Empty(s.pipe) then
        var (b, q) := Get(s.pipe);
        s.(pipe := q, procs := s.procs[p := Copy(n, got + [b])], delivered := s.delivered + [b])
      else s.(holder := -1, procs := WakeWriters(s.procs[p := Out(|got|)]))
  }

  /** sleep, which gives up the lock; a writer wakes the readers first. */
  function FallStep(s: State, p: nat): State
    requires p < |s.procs| && (s.procs[p].FallsWrite? || s.procs[p].FallsRead?)
  {
    match s.procs[p]
    case FallsWrite(src, i) => s.(holder := -1, procs := WakeReaders(s.procs[p := SleepsWrite(src, i)]))
    case FallsRead(n) => s.(holder := -1, procs := s.procs[p := SleepsRead(n)])
  }

  function CloseStep(s: State, p: nat): State
    requires p < |s.procs| && s.procs[p].Close?
  {
    if s.procs[p].writable then
      s.(holder := -1, pipe := s.pipe.(writeopen := false), procs := WakeReaders(s.procs[p := Out(0)]))
    else
      s.(holder := -1, pipe := s.pipe.(readopen := false), procs := WakeWriters(s.procs[p := Out(0)]))
  }

  ghost function Do(s: State, a: Action): State
    requires Enabled(s, a)
  {
    match a
    case Call(p, pc) => s.(procs := s.procs[p := pc])
    case Acquire(p) => s.(holder := p, procs := s.procs[p := Entered(s.procs[p])])
    case Step(p) =>
      if s.procs[p].Write? then WriteStep(s, p)
      else if s.procs[p].Close? then CloseStep(s, p)
      else if s.procs[p].FallsWrite? || s.procs[p].FallsRead? then FallStep(s, p)
      else ReadStep(s, p)
    case Kill(p) => s.(killed := s.killed[p := true], procs := s.procs[p := WakeWriter(WakeReader(s.procs[p]))])
  }

  /* What always holds */

  /** The bytes taken out and those still in the pipe are the bytes stored. */
  ghost predicate InOrder(s: State) {
    Sound(s.pipe) && s.delivered + Contents(s.pipe) == s.accepted
  }

  /** What the process in piperead has read is the latest that was delivered. */
  ghost predicate ReadsLatest(s: State, pc: Pc) {
    pc.Copy? ==> |pc.got| <= |s.delivered| && s.delivered[|s.delivered| - |pc.got|..] == pc.got
  }

  predicate Copying(s: State) {
    0 <= s.holder < |s.procs| && s.procs[s.holder].Copy?
  }

  predicate Owing(s: State) {
    0 <= s.holder < |s.procs| && ((s.procs[s.holder].Write? && s.procs[s.holder].owes) || s.procs[s.holder].FallsWrite?)
  }

  /** A sleeping writer waits for room that a reader can still make; if there is room, a reader is about to wake it. */
  ghost predicate WriterOk(s: State, pc: Pc) {
    pc.SleepsWrite? ==> s.pipe.readopen && (Full(s.pipe) || Copying(s))
  }

  /**
   A sleeping reader waits for bytes that a writer can still store; if there are any, a writer is about to wake it.
   */
  ghost predicate ReaderOk(s: State, pc: Pc) {
    pc.SleepsRead? ==> s.pipe.writeopen && (Empty(s.pipe) || Owing(s))
  }

  /** What a process in its critical section has found is still so. */
  ghost predicate FallOk(s: State, pc: Pc) {
    && (pc.FallsWrite? ==> Full(s.pipe) && s.pipe.readopen)
    && (pc.FallsRead? ==> Empty(s.pipe) && s.pipe.writeopen)
    && (pc.Copy? ==> |pc.got| <= pc.n && (pc.got == [] ==> !Empty(s.pipe) || !s.pipe.writeopen))
  }

  ghost predicate ReadersOk(s: State) {
    forall p {:trigger s.procs[p]} :: 0 <= p < |s.procs| ==> ReaderOk(s, s.procs[p])
  }

  /**
   Process p holds the lock if and only if it is in a critical section, which may have stored bytes only if it is a
   writer's.
   */
  ghost predicate Always(s: State) {
    && |s.killed| == |s.procs| && -1 <= s.holder < |s.procs| && InOrder(s)
    && (forall p {:trigger s.procs[p]} :: 0 <= p < |s.procs| ==>
         (InSection(s.procs[p]) <==> s.holder == p) && ReadsLatest(s, s.procs[p]) && WriterOk(s, s.procs[p])
             && FallOk(s, s.procs[p]))
  }

  ghost predicate Init(s: State) {
    && |s.killed| == |s.procs| && s.holder == -1 && s.accepted == [] && s.delivered == []
    && |s.pipe.data| == PIPESIZE && Empty(s.pipe) && s.pipe.readopen && s.pipe.writeopen
    && forall p {:trigger s.procs[p]} :: 0 <= p < |s.procs| ==> s.procs[p].Out?
  }

  lemma InitAlways(s: State)
    requires Init(s)
    ensures Always(s) && ReadersOk(s)
  {
    assert Contents(s.pipe) == [];
  }

  lemma CallKeeps(s: State, p: nat, pc: Pc)
    requires Always(s) && Enabled(s, Call(p, pc))
    ensures Always(Do(s, Call(p, pc)))
    ensures ReadersOk(s) ==> ReadersOk(Do(s, Call(p, pc)))
  {
  }

  lemma AcquireKeeps(s: State, p: nat)
    requires Always(s) && Enabled(s, Acquire(p))
    ensures Always(Do(s, Acquire(p)))
    ensures ReadersOk(s) ==> ReadersOk(Do(s, Acquire(p)))
  {
  }

  lemma KillKeeps(s: State, p: nat)
    requires Always(s) && Enabled(s, Kill(p))
    ensures Always(Do(s, Kill(p)))
    ensures ReadersOk(s) ==> ReadersOk(Do(s, Kill(p)))
  {
  }

  lemma CloseStepKeeps(s: State, p: nat)
    requires Always(s) && Enabled(s, Step(p)) && s.procs[p].Close?
    ensures Always(Do(s, Step(p)))
    ensures ReadersOk(s) ==> ReadersOk(Do(s, Step(p)))
  {
  }

  lemma FallStepKeeps(s: State, p: nat)
    requires Always(s) && Enabled(s, Step(p)) && (s.procs[p].FallsWrite? || s.procs[p].FallsRead?)
    ensures Always(Do(s, Step(p)))
    ensures ReadersOk(s) ==> ReadersOk(Do(s, Step(p)))
  {
    hide Contents, Sound, Count, Full, Empty;
    assert FallOk(s, s.procs[p]);
  }

  lemma ReadStepInOrder(s: State, p: nat)
    requires InOrder(s) && Enabled(s, Step(p)) && (s.procs[p].Wait? || s.procs[p].Copy?)
    ensures InOrder(Do(s, Step(p)))
  {
    if s.procs[p].Copy? && !Empty(s.pipe) {
      GetRemoves(s.pipe);
      var b := Get(s.pipe).0;
      assert s.delivered + Contents(s.pipe) == (s.delivered + [b]) + Contents(Get(s.pipe).1);
    }
  }

  lemma ReadStepKeeps(s: State, p: nat)
    requires Always(s) && Enabled(s, Step(p)) && (s.procs[p].Wait? || s.procs[p].Copy?)
    ensures Always(Do(s, Step(p)))
    ensures ReadersOk(s) ==> ReadersOk(Do(s, Step(p)))
  {
    ReadStepInOrder(s, p);
    CountersTell(s.pipe);
    hide InOrder, Get, Contents, Sound, Count;
    var t := Do(s, Step(p));
    forall q: nat {:trigger t.procs[q]} | q < |t.procs|
      ensures (InSection(t.procs[q]) <==> t.holder == q) && WriterOk(t, t.procs[q]) && FallOk(t, t.procs[q])
      ensures ReadersOk(s) ==> ReaderOk(t, t.procs[q])
    {
      assert WriterOk(s, s.procs[q]);
    }
    forall q: nat {:trigger t.procs[q]} | q < |t.procs|
      ensures ReadsLatest(t, t.procs[q])
    {
      ReadStepReads(s, p, q);
    }
  }

  lemma ReadStepReads(s: State, p: nat, q: nat)
    requires Always(s) && Enabled(s, Step(p)) && (s.procs[p].Wait? || s.procs[p].Copy?) && q < |s.procs|
    ensures q < |Do(s, Step(p)).procs| && ReadsLatest(Do(s, Step(p)), Do(s, Step(p)).procs[q])
  {
    hide InOrder, Contents, Sound, Count;
    assert ReadsLatest(s, s.procs[q]);
  }

  lemma WriteStepInOrder(s: State, p: nat)
    requires InOrder(s) && Enabled(s, Step(p)) && s.procs[p].Write?
    ensures InOrder(Do(s, Step(p)))
  {
    var pc := s.procs[p];
    if pc.i < |pc.src| && !Full(s.pipe) {
      PutAppends(s.pipe, pc.src[pc.i]);
      assert s.delivered + (Contents(s.pipe) + [pc.src[pc.i]]) == (s.delivered + Contents(s.pipe)) + [pc.src[pc.i]];
    }
  }

  lemma WriteStepKeeps(s: State, p: nat)
    requires Always(s) && Enabled(s, Step(p)) && s.procs[p].Write?
    ensures Always(Do(s, Step(p)))
  {
    WriteStepInOrder(s, p);
    hide InOrder, Put, Contents, Sound, Count;
    var t := Do(s, Step(p));
    forall q: nat {:trigger t.procs[q]} | q < |t.procs|
      ensures (InSection(t.procs[q]) <==> t.holder == q) && ReadsLatest(t, t.procs[q]) && WriterOk(t, t.procs[q])
              && FallOk(t, t.procs[q])
    {
      assert WriterOk(s, s.procs[q]);
    }
  }

  /** The exception of pipewrite: it gives up, and wakes nobody. */
  ghost predicate LeavesReaders(s: State, a: Action)
    requires Enabled(s, a)
  {
    && a.Step? && s.procs[a.p].Write? && GivesUp(s, a.p)
    && exists q :: 0 <= q < |s.procs| && s.procs[q].SleepsRead?
  }

  /** Sleeping readers stay right in every step but one: a writer that gives up while a reader sleeps. */
  lemma WriteStepReadersIff(s: State, p: nat)
    requires Always(s) && ReadersOk(s) && Enabled(s, Step(p)) && s.procs[p].Write?
    ensures ReadersOk(Do(s, Step(p))) <==> !LeavesReaders(s, Step(p))
  {
    var t := Do(s, Step(p));
    CountersTell(s.pipe);
    hide InOrder, Put, Contents, Sound, Count;
    if LeavesReaders(s, Step(p)) {
      var q :| 0 <= q < |s.procs| && s.procs[q].SleepsRead?;
      assert !ReaderOk(t, t.procs[q]);
    } else {
      forall q: nat {:trigger t.procs[q]} | q < |t.procs|
        ensures ReaderOk(t, t.procs[q])
      {
        assert ReaderOk(s, s.procs[q]);
      }
    }
  }

  lemma StepKeepsAlways(s: State, a: Action)
    requires Always(s) && Enabled(s, a)
    ensures Always(Do(s, a))
    ensures ReadersOk(s) ==> (ReadersOk(Do(s, a)) <==> !LeavesReaders(s, a))
  {
    match a
    case Call(p, pc) => CallKeeps(s, p, pc);
    case Acquire(p) => AcquireKeeps(s, p);
    case Kill(p) => KillKeeps(s, p);
    case Step(p) =>
      if s.procs[p].Write? {
        WriteStepKeeps(s, p);
        if ReadersOk(s) {
          WriteStepReadersIff(s, p);
        }
      } else if s.procs[p].Close? {
        CloseStepKeeps(s, p);
      } else if s.procs[p].FallsWrite? || s.procs[p].FallsRead? {
        FallStepKeeps(s, p);
      } else {
        ReadStepKeeps(s, p);
      }
  }

  /* Runs */

  ghost predicate Run(s: State, acts: seq<Action>, t: State)
    decreases |acts|
  {
    if acts == [] then s == t else Enabled(s, acts[0]) && Run(Do(s, acts[0]), acts[1..], t)
  }

  /** A run in which no writer gives up while a reader sleeps. */
  ghost predicate NobodyLeft(s: State, acts: seq<Action>)
    decreases |acts|
  {
    acts != [] && Enabled(s, acts[0]) ==> !LeavesReaders(s, acts[0]) && NobodyLeft(Do(s, acts[0]), acts[1..])
  }

  lemma {:induction false} RunKeepsAlways(s: State, acts: seq<Action>, t: State)
    requires Always(s) && Run(s, acts, t)
    ensures Always(t)
    ensures ReadersOk(s) && NobodyLeft(s, acts) ==> ReadersOk(t)
    decreases |acts|
  {
    if acts != [] {
      StepKeepsAlways(s, acts[0]);
      RunKeepsAlways(Do(s, acts[0]), acts[1..], t);
    }
  }

  /**
   In every run the bytes delivered are a prefix of the bytes accepted, at most 512 behind, and the counters say how
   many.
   */
  lemma DeliveredIsPrefix(s: State, acts: seq<Action>, t: State)
    requires Init(s) && Run(s, acts, t)
    ensures t.delivered <= t.accepted && |t.accepted| - |t.delivered| == Count(t.pipe) <= PIPESIZE
  {
    InitAlways(s);
    RunKeepsAlways(s, acts, t);
  }

  /** In every run, when the lock is free, a writer sleeps only while the pipe is full and somebody can read from it. */
  lemma SleepingWriters(s: State, acts: seq<Action>, t: State, p: nat)
    requires Init(s) && Run(s, acts, t) && t.holder == -1 && p < |t.procs| && t.procs[p].SleepsWrite?
    ensures Full(t.pipe) && t.pipe.readopen
  {
    InitAlways(s);
    RunKeepsAlways(s, acts, t);
    assert WriterOk(t, t.procs[p]);
  }

  /**
   If no writer gave up while a reader slept, a reader sleeps only while the pipe is empty and somebody can write to
   it.
   */
  lemma SleepingReaders(s: State, acts: seq<Action>, t: State, p: nat)
    requires Init(s) && Run(s, acts, t) && NobodyLeft(s, acts) && t.holder == -1 && p < |t.procs|
             && t.procs[p].SleepsRead?
    ensures Empty(t.pipe) && t.pipe.writeopen
    ensures forall q :: 0 <= q < |t.procs| ==> !t.procs[q].SleepsWrite?
  {
    InitAlways(s);
    RunKeepsAlways(s, acts, t);
    assert ReaderOk(t, t.procs[p]);
    CountersTell(t.pipe);
    forall q | 0 <= q < |t.procs|
      ensures !t.procs[q].SleepsWrite?
    {
      assert WriterOk(t, t.procs[q]);
    }
  }

  /* What the calls return, and what a close does */

  /**
   In every run, a read that returns has at most n bytes, fewer only if it emptied the pipe, and 0 although it asked for
   more only if there were none and the writing end is closed; -1 means that it was killed while it had to wait.
   */
  lemma ReadReturns(s: State, acts: seq<Action>, t: State, p: nat)
    requires Init(s) && Run(s, acts, t) && Enabled(t, Step(p)) && (t.procs[p].Wait? || t.procs[p].Copy?)
    requires Do(t, Step(p)).procs[p].Out?
    ensures var r, n, pipe := Do(t, Step(p)).procs[p].r, t.procs[p].n, Do(t, Step(p)).pipe;
            if t.procs[p].Wait? then r == -1 && t.killed[p] && Empty(pipe) && pipe.writeopen
            else
              && r == |t.procs[p].got| <= n && (r < n ==> Empty(pipe))
              && (r == 0 && n > 0 ==> !pipe.writeopen)
              && r <= |t.delivered| && t.delivered[|t.delivered| - r..] == t.procs[p].got
  {
    InitAlways(s);
    RunKeepsAlways(s, acts, t);
    assert ReadsLatest(t, t.procs[p]) && FallOk(t, t.procs[p]);
  }

  /** A write returns the number of its bytes, or -1 if it met a full pipe that nobody reads, or was killed there. */
  lemma WriteReturns(s: State, p: nat)
    requires Enabled(s, Step(p)) && s.procs[p].Write? && s.procs[p].i <= |s.procs[p].src|
    requires Do(s, Step(p)).procs[p].Out?
    ensures var r := Do(s, Step(p)).procs[p].r;
            if r == -1 then s.procs[p].i < |s.procs[p].src| && Full(s.pipe) && (!s.pipe.readopen || s.killed[p])
            else r == |s.procs[p].src| == s.procs[p].i
  {
  }

  /** A close shuts the end it is told to, and leaves nobody asleep who waits for that end. */
  lemma CloseShuts(s: State, p: nat)
    requires Enabled(s, Step(p)) && s.procs[p].Close?
    ensures var t, w := Do(s, Step(p)), s.procs[p].writable;
            && t.pipe == s.pipe.(writeopen := t.pipe.writeopen, readopen := t.pipe.readopen) && t.procs[p] == Out(0)
            && t.pipe.writeopen == (s.pipe.writeopen && !w) && t.pipe.readopen == (s.pipe.readopen && w)
            && (w ==> forall q :: 0 <= q < |t.procs| ==> !t.procs[q].SleepsRead?)
            && (!w ==> forall q :: 0 <= q < |t.procs| ==> !t.procs[q].SleepsWrite?)
  {
  }

  /** A reader of an empty pipe whose writing end is closed reads 0 bytes, killed or not. */
  lemma ReadsTheEnd(s: State, p: nat) returns (t: State)
    requires Always(s) && p < |s.procs| && s.procs[p].WantsRead? && s.holder == -1
    requires Empty(s.pipe) && !s.pipe.writeopen && s.pipe.readopen
    ensures Run(s, [Acquire(p), Step(p), Step(p)], t) && p < |t.procs| && t.procs[p] == Out(0) && t.pipe == s.pipe
  {
    hide Contents;
    var s1 := Do(s, Acquire(p));
    var s2 := Do(s1, Step(p));
    t := Do(s2, Step(p));
    Three(s, Acquire(p), s1, Step(p), s2, Step(p), t);
  }

  lemma Three(s: State, a: Action, s1: State, b: Action, s2: State, c: Action, t: State)
    requires Enabled(s, a) && s1 == Do(s, a) && Enabled(s1, b) && s2 == Do(s1, b) && Enabled(s2, c) && t == Do(s2, c)
    ensures Run(s, [a, b, c], t)
  {
    hide Enabled, Do;
    assert Run(t, [], t);
    RunOne(s2, c, t, []);
    RunOne(s1, b, t, [c] + []);
    RunOne(s, a, t, [b] + ([c] + []));
    assert [a] + ([b] + ([c] + [])) == [a, b, c];
  }

  /** A reader asleep on an empty pipe reads 0 bytes once a writer has closed the writing end. */
  lemma CloseEndsReads(s: State, p: nat, q: nat) returns (t: State)
    requires Always(s) && p < |s.procs| && q < |s.procs| && s.holder == -1 && s.procs[p] == WantsClose(true)
    requires s.procs[q].SleepsRead? && Empty(s.pipe) && s.pipe.readopen
    ensures Run(s, [Acquire(p), Step(p)] + [Acquire(q), Step(q), Step(q)], t) && q < |t.procs| && t.procs[q] == Out(0)
  {
    var s1 := Do(s, Acquire(p));
    var s2 := Do(s1, Step(p));
    AcquireKeeps(s, p);
    CloseStepKeeps(s1, p);
    assert s2.procs[q].WantsRead?;
    hide Always, InOrder, Contents;
    t := ReadsTheEnd(s2, q);
    NoMore(s2);
    RunOne(s1, Step(p), s2, []);
    RunOne(s, Acquire(p), s2, [Step(p)] + []);
    assert [Acquire(p)] + ([Step(p)] + []) == [Acquire(p), Step(p)];
    RunThen(s, [Acquire(p), Step(p)], s2, [Acquire(q), Step(q), Step(q)], t);
  }

  /** A write to a pipe that nobody reads: it stores what there is room for, and fails exactly if that is not all. */
  lemma WritesToNobody(s: State, p: nat) returns (acts: seq<Action>, t: State)
    requires Always(s) && p < |s.procs| && s.procs[p].WantsWrite? && s.procs[p].i == 0 && s.holder == -1
    requires !s.pipe.readopen && s.pipe.writeopen
    ensures var src := s.procs[p].src;
            Run(s, acts, t) && p < |t.procs| &&
            t.procs[p] == if |src| <= PIPESIZE - Count(s.pipe) then Out(|src|) else Out(-1)
  {
    var src, s1 := s.procs[p].src, Do(s, Acquire(p));
    AcquireKeeps(s, p);
    CountersTell(s.pipe);
    var room := PIPESIZE - Count(s.pipe);
    var n := if |src| <= room then |src| else room;
    var s2 := WriterStores(s1, p, n);
    CountersTell(s2.pipe);
    hide Always, InOrder, Contents, Count;
    t := Do(s2, Step(p));
    RunOne(s, Acquire(p), s2, Steps(p, n));
    NoMore(t);
    RunOne(s2, Step(p), t, []);
    acts := ([Acquire(p)] + Steps(p, n)) + ([Step(p)] + []);
    RunThen(s, [Acquire(p)] + Steps(p, n), s2, [Step(p)] + [], t);
  }

  /* kill */

  predicate Falls(pc: Pc) {
    pc.FallsWrite? || pc.FallsRead?
  }

  /** Process p is killed, and is asleep on the pipe all the same or about to be. */
  predicate Caught(s: State, p: nat) {
    && p < |s.procs| == |s.killed| && s.killed[p]
    && (Falls(s.procs[p]) || s.procs[p].SleepsWrite? || s.procs[p].SleepsRead?)
  }

  /** The kill comes between p's test of `killed` and its sleep, which are under different locks. */
  predicate LateKill(s: State, a: Action, p: nat) {
    a == Kill(p) && p < |s.procs| && Falls(s.procs[p])
  }

  ghost predicate NoLateKill(s: State, acts: seq<Action>, p: nat)
    decreases |acts|
  {
    acts != [] && Enabled(s, acts[0]) ==> !LateKill(s, acts[0], p) && NoLateKill(Do(s, acts[0]), acts[1..], p)
  }

  /** Only such a kill catches a process there. */
  lemma StepCaught(s: State, a: Action, p: nat)
    requires Enabled(s, a) && p < |s.procs| && !Caught(s, p)
    ensures Caught(Do(s, a), p) <==> LateKill(s, a, p)
    ensures |Do(s, a).procs| == |s.procs|
  {
  }

  /** In every run without such a kill of it, a process that is killed does not sleep on the pipe. */
  lemma {:induction false} KilledDoNotSleep(s: State, acts: seq<Action>, t: State, p: nat)
    requires Run(s, acts, t) && p < |s.procs| && !Caught(s, p) && NoLateKill(s, acts, p)
    ensures !Caught(t, p)
    decreases |acts|
  {
    hide Caught, LateKill, Do, Enabled;
    if acts != [] {
      StepCaught(s, acts[0], p);
      KilledDoNotSleep(Do(s, acts[0]), acts[1..], t, p);
    }
  }

  function Steps(p: nat, n: nat): (r: seq<Action>)
    ensures |r| == n && forall i :: 0 <= i < n ==> r[i] == Step(p)
  {
    seq(n, _ => Step(p))
  }

  /** A writer that holds the lock stores its bytes while there is room. */
  lemma {:induction false} WriterStores(s: State, p: nat, n: nat) returns (t: State)
    requires Always(s) && s.holder == p < |s.procs| && s.procs[p].Write?
    requires s.procs[p].i + n <= |s.procs[p].src| && Count(s.pipe) + n <= PIPESIZE
    ensures Run(s, Steps(p, n), t) && Always(t) && t.holder == p && Count(t.pipe) == Count(s.pipe) + n
            && t.killed == s.killed
    ensures t.procs == s.procs[p := Write(s.procs[p].src, s.procs[p].i + n, s.procs[p].owes || n > 0)]
    ensures t.pipe.readopen == s.pipe.readopen && t.pipe.writeopen == s.pipe.writeopen
    decreases n
  {
    if n == 0 {
      t := s;
    } else {
      CountersTell(s.pipe);
      PutAppends(s.pipe, s.procs[p].src[s.procs[p].i]);
      WriteStepKeeps(s, p);
      t := WriterStores(Do(s, Step(p)), p, n - 1);
      assert Steps(p, n)[1..] == Steps(p, n - 1);
    }
  }

  lemma {:induction false} RunThen(s: State, acts: seq<Action>, t: State, more: seq<Action>, u: State)
    requires Run(s, acts, t) && Run(t, more, u)
    ensures Run(s, acts + more, u)
    decreases |acts|
  {
    if acts == [] {
      assert acts + more == more;
    } else {
      RunThen(Do(s, acts[0]), acts[1..], t, more, u);
      assert (acts + more)[1..] == acts[1..] + more;
    }
  }

  /** A reader goes to sleep on an empty pipe. */
  lemma ReaderSleeps() returns (s: State, t: State)
    ensures Init(s) && Run(s, [Call(0, WantsRead(1)), Acquire(0), Step(0), Step(0)], t)
    ensures t == s.(procs := [SleepsRead(1), Out(0)]) && t.killed == [false, false] && t.pipe.readopen
  {
    s := State(Pipe(seq(PIPESIZE, _ => 0), 0, 0, true, true), -1, [Out(0), Out(0)], [false, false], [], []);
    var s1 := Do(s, Call(0, WantsRead(1)));
    var s2 := Do(s1, Acquire(0));
    var s3 := Do(s2, Step(0));
    t := Do(s3, Step(0));
    assert t.procs == [SleepsRead(1), Out(0)];
    var acts := [Call(0, WantsRead(1)), Acquire(0), Step(0), Step(0)];
    hide Do, Init, Enabled;
    RunOne(s3, acts[3], t, []);
    RunOne(s2, acts[2], t, acts[3..]);
    RunOne(s1, acts[1], t, acts[2..]);
    RunOne(s, acts[0], t, acts[1..]);
  }

  /** A reader goes to sleep, then a killed process calls pipewrite. */
  lemma Opening(src: seq<byte>) returns (s: State, acts: seq<Action>, t: State)
    ensures Init(s) && Run(s, acts, t)
    ensures t.holder == 1 && t.procs == [SleepsRead(1), Write(src, 0, false)] && t.killed == [false, true]
            && Empty(t.pipe)
  {
    var s3;
    s, s3 := ReaderSleeps();
    hide InOrder, Contents, Run;
    var s4 := Do(s3, Kill(1));
    var s5 := Do(s4, Call(1, WantsWrite(src, 0)));
    t := Do(s5, Acquire(1));
    assert t.procs == [SleepsRead(1), Write(src, 0, false)];
    var more := [Kill(1), Call(1, WantsWrite(src, 0)), Acquire(1)];
    acts := [Call(0, WantsRead(1)), Acquire(0), Step(0), Step(0)] + more;
    NoMore(t);
    RunOne(s5, more[2], t, []);
    assert [more[2]] + [] == more[2..] && [more[1]] + more[2..] == more[1..] && [more[0]] + more[1..] == more;
    RunOne(s4, more[1], t, more[2..]);
    RunOne(s3, more[0], t, more[1..]);
    RunThen(s, [Call(0, WantsRead(1)), Acquire(0), Step(0), Step(0)], s3, more, t);
  }

  lemma NoMore(s: State)
    ensures Run(s, [], s)
  {
  }

  /** The exception happens: a reader sleeps for good beside 512 bytes that a killed writer left. */
  lemma ReaderLeftAsleep()
    ensures exists s, acts, t :: Init(s) && Run(s, acts, t) && t.holder == -1 && Full(t.pipe)
                                 && t.procs == [SleepsRead(1), Out(-1)]
  {
    var src := seq<byte>(PIPESIZE + 1, _ => 7);
    var s, opening, s6 := Opening(src);
    InitAlways(s);
    RunKeepsAlways(s, opening, s6);
    CountersTell(s6.pipe);
    var s7 := WriterStores(s6, 1, PIPESIZE);
    CountersTell(s7.pipe);
    RunThen(s, opening, s6, Steps(1, PIPESIZE), s7);
    var s8 := Do(s7, Step(1));
    RunOne(s7, Step(1), s8, []);
    RunThen(s, opening + Steps(1, PIPESIZE), s7, [Step(1)], s8);
  }

  lemma RunOne(s: State, a: Action, t: State, rest: seq<Action>)
    requires Enabled(s, a) && Run(Do(s, a), rest, t)
    ensures Run(s, [a] + rest, t)
  {
    assert ([a] + rest)[1..] == rest;
  }
}
