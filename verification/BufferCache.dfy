/**
 The buffer cache (kernel/bio.c) and the disk queue behind it (kernel/ide.c) as one protocol, run by any number of
 processes. Every action is what one process, or the disk interrupt, does while it holds bcache.lock or idelock.
 */
module BufferCache {
  const NBUF := 10
  const NODEV := -1   // b->dev before the buffer is first used

  datatype Key = Key(dev: int, sector: int)

  /** struct buf, without its list pointers. */
  datatype Buf<D> = Buf(key: Key, busy: bool, valid: bool, dirty: bool, data: D)

  /** Buffers, and their numbers from most to least recently released. */
  datatype Cache<D> = Cache(bufs: seq<Buf<D>>, order: seq<nat>)

  ghost predicate CacheShape<D>(c: Cache<D>) {
    && |c.bufs| == |c.order|
    && (forall i :: 0 <= i < |c.order| ==> c.order[i] < |c.bufs|)
    && Distinct(c.order)
  }

  /* bget */

  /** The first buffer in the order that caches k: bget's forward scan. */
  function FindCached<D>(c: Cache<D>, k: Key, i: nat): (r: int)
    requires forall j :: 0 <= j < |c.order| ==> c.order[j] < |c.bufs|
    requires i <= |c.order|
    ensures r == -1 || (r in c.order && 0 <= r < |c.bufs| && c.bufs[r].key == k)
    ensures r == -1 ==> forall j :: i <= j < |c.order| ==> c.bufs[c.order[j]].key != k
    decreases |c.order| - i
  {
    if i == |c.order| then -1
    else if c.bufs[c.order[i]].key == k then c.order[i]
    else FindCached(c, k, i + 1)
  }

  /** The least recently released buffer that is not busy among the first n of the order: bget's backward scan. */
  function LruFree<D>(c: Cache<D>, n: nat): (r: int)
    requires forall j :: 0 <= j < |c.order| ==> c.order[j] < |c.bufs|
    requires n <= |c.order|
    ensures r == -1 || (r in c.order && 0 <= r < |c.bufs| && !c.bufs[r].busy)
    ensures r == -1 ==> forall j :: 0 <= j < n ==> c.bufs[c.order[j]].busy
  {
    if n == 0 then -1
    else if !c.bufs[c.order[n - 1]].busy then c.order[n - 1]
    else LruFree(c, n - 1)
  }

  /** What one pass of bget under bcache.lock comes to. */
  datatype Got<D> = Locked(b: nat, c: Cache<D>) | MustSleep(b: nat) | NoBuffers

  function Bget<D>(c: Cache<D>, k: Key): (g: Got<D>)
    requires forall j :: 0 <= j < |c.order| ==> c.order[j] < |c.bufs|
  {
    var b := FindCached(c, k, 0);
    if b != -1 then
      if c.bufs[b].busy then MustSleep(b)
      else Locked(b, c.(bufs := c.bufs[b := c.bufs[b].(busy := true)]))
    else
      var v := LruFree(c, |c.order|);
      if v == -1 then NoBuffers
      else Locked(v, c.(bufs := c.bufs[v := Buf(k, true, false, false, c.bufs[v].data)]))
  }

  /** order with b moved to the front: brelse's relinking. */
  function ToFront(order: seq<nat>, b: nat): seq<nat> {
    [b] + Without(order, b)
  }

  function Without(order: seq<nat>, b: nat): seq<nat> {
    if order == [] then []
    else if order[0] == b then order[1..]
    else [order[0]] + Without(order[1..], b)
  }

  function Brelse<D>(c: Cache<D>, b: nat): Cache<D>
    requires b < |c.bufs|
  {
    Cache(c.bufs[b := c.bufs[b].(busy := false)], ToFront(c.order, b))
  }

  ghost predicate Distinct(order: seq<nat>) {
    forall i, j :: 0 <= i < j < |order| ==> order[i] != order[j]
  }

  lemma {:induction false} WithoutKeeps(order: seq<nat>, b: nat)
    requires Distinct(order)
    ensures forall x :: x in Without(order, b) <==> x in order && x != b
    ensures Distinct(Without(order, b))
    ensures |Without(order, b)| == |order| - if b in order then 1 else 0
  {
    if order != [] {
      var rest := order[1..];
      assert order == [order[0]] + rest;
      assert order[0] !in rest;
      if order[0] != b {
        WithoutKeeps(rest, b);
        assert order[0] !in Without(rest, b);
      }
    }
  }

  /** More than m distinct numbers below m do not exist. */
  lemma {:induction false} Pigeonhole(order: seq<nat>, m: nat)
    requires Distinct(order) && forall x :: x in order ==> x < m
    ensures |order| <= m
    decreases m
  {
    if order != [] {
      assert order[0] in order;
      WithoutKeeps(order, m - 1);
      Pigeonhole(Without(order, m - 1), m - 1);
    }
  }

  /** An order as long as there are buffers lists every buffer. */
  lemma OrderCovers(order: seq<nat>, n: nat, b: nat)
    requires Distinct(order) && |order| == n && (forall x :: x in order ==> x < n) && b < n
    ensures b in order
  {
    if b !in order {
      var more := order + [b];
      assert Distinct(more);
      Pigeonhole(more, n);
    }
  }

  lemma BrelseShape<D>(c: Cache<D>, b: nat)
    requires CacheShape(c) && b < |c.bufs|
    ensures CacheShape(Brelse(c, b))
  {
    assert forall x :: x in c.order ==> x < |c.bufs|;
    OrderCovers(c.order, |c.bufs|, b);
    WithoutKeeps(c.order, b);
    var w := Without(c.order, b);
    forall i | 0 <= i < |w|
      ensures w[i] < |c.bufs| && w[i] != b
    {
      assert w[i] in w;
    }
  }

  /* The protocol */

  /**
   Where a process is. Wants: about to scan the cache for k. Asleep: in sleep(b) inside bget. Owns: bget returned an
   invalid buffer. InRw: in the loop of iderw, asleep or about to test the flags again. Holds: the buffer is its own
   to use; `changed` when its data differs from what was read or last written.
   */
  datatype Pc =
    | Idle
    | Wants(k: Key)
    | Asleep(b: nat, k: Key)
    | Owns(b: nat, k: Key)
    | InRw(b: nat, k: Key, asleep: bool)
    | Holds(b: nat, k: Key, changed: bool)

  /**
   disk: the sectors. queue: idequeue. The last two are only there to state properties. written: for each sector what
   was last passed to bwrite, or was on the disk at the start. holder: the process bget last gave each buffer to.
   */
  datatype State<D> = State(cache: Cache<D>, disk: map<Key, D>, queue: seq<nat>, procs: seq<Pc>, written: map<Key, D>,
      holder: seq<nat>)

  datatype Action<D> =
    | Bread(p: nat, k: Key)         // call bread
    | Scan(p: nat)                  // one pass of bget
    | Submit(p: nat)                // bread finds the buffer invalid and calls iderw
    | Change(p: nat, data: D)       // the caller stores into b->data
    | Bwrite(p: nat)                // bwrite: mark dirty and call iderw
    | Interrupt                     // ideintr
    | Test(p: nat)                  // iderw, woken up, tests the flags again
    | Release(p: nat)               // brelse

  /** The process has locked buffer b. */
  predicate Has(pc: Pc, b: int) {
    (pc.Owns? || pc.InRw? || pc.Holds?) && pc.b == b
  }

  /** When an action can happen. Callers release a buffer only after writing back what they changed. */
  ghost predicate Enabled<D>(s: State<D>, a: Action<D>) {
    match a
    case Bread(p, k) => p < |s.procs| && s.procs[p].Idle? && k in s.disk
    case Scan(p) => p < |s.procs| && s.procs[p].Wants? && CacheShape(s.cache) && !Bget(s.cache, s.procs[p].k).NoBuffers?
    case Submit(p) => p < |s.procs| && s.procs[p].Owns?
    case Change(p, data) => p < |s.procs| && s.procs[p].Holds? && s.procs[p].b < |s.cache.bufs|
    case Bwrite(p) => p < |s.procs| && s.procs[p].Holds? && s.procs[p].b < |s.cache.bufs|
    case Interrupt => s.queue != [] && s.queue[0] < |s.cache.bufs| && s.cache.bufs[s.queue[0]].key in s.disk
    case Test(p) => p < |s.procs| && s.procs[p].InRw? && !s.procs[p].asleep && s.procs[p].b < |s.cache.bufs|
    case Release(p) => p < |s.procs| && s.procs[p].Holds? && !s.procs[p].changed && s.procs[p].b < |s.cache.bufs|
  }

  function SetBuf<D>(c: Cache<D>, b: nat, x: Buf<D>): Cache<D>
    requires b < |c.bufs|
  {
    c.(bufs := c.bufs[b := x])
  }

  /** wakeup(b): everyone asleep on the buffer, in bget or in iderw, goes on. */
  function Woken(pc: Pc, b: nat): Pc {
    if pc.Asleep? && pc.b == b then Wants(pc.k)
    else if pc.InRw? && pc.b == b then pc.(asleep := false)
    else pc
  }

  function WakeAll(procs: seq<Pc>, b: nat): seq<Pc> {
    seq(|procs|, i requires 0 <= i < |procs| => Woken(procs[i], b))
  }

  function Scanned<D>(s: State<D>, p: nat, g: Got<D>): State<D>
    requires p < |s.procs| && s.procs[p].Wants?
  {
    var k := s.procs[p].k;
    match g
    case MustSleep(b) => s.(procs := s.procs[p := Asleep(b, k)])
    case Locked(b, c) =>
      s.(cache := c, holder := if b < |s.holder| then s.holder[b := p] else s.holder,
         procs := s.procs[p := if b < |c.bufs| && c.bufs[b].valid then Holds(b, k, false) else Owns(b, k)])
    case NoBuffers => s
  }

  function Interrupted<D>(s: State<D>, b: nat): State<D>
    requires b < |s.cache.bufs| && s.cache.bufs[b].key in s.disk && s.queue != []
  {
    var x := s.cache.bufs[b];
    s.(queue := s.queue[1..],
       cache := SetBuf(s.cache, b, Buf(x.key, x.busy, true, false, if x.dirty then x.data else s.disk[x.key])),
       disk := if x.dirty then s.disk[x.key := x.data] else s.disk,
       procs := WakeAll(s.procs, b))
  }

  ghost function Do<D>(s: State<D>, a: Action<D>): State<D>
    requires Enabled(s, a)
  {
    match a
    case Bread(p, k) => s.(procs := s.procs[p := Wants(k)])
    case Scan(p) => Scanned(s, p, Bget(s.cache, s.procs[p].k))
    case Submit(p) =>
      var b := s.procs[p].b;
      s.(queue := s.queue + [b], procs := s.procs[p := InRw(b, s.procs[p].k, true)])
    case Change(p, data) =>
      var b := s.procs[p].b;
      s.(cache := SetBuf(s.cache, b, s.cache.bufs[b].(data := data)),
          procs := s.procs[p := Holds(b, s.procs[p].k, true)])
    case Bwrite(p) =>
      var b, x := s.procs[p].b, s.cache.bufs[s.procs[p].b];
      s.(cache := SetBuf(s.cache, b, x.(dirty := true)), queue := s.queue + [b], written := s.written[x.key := x.data],
         procs := s.procs[p := InRw(b, s.procs[p].k, true)])
    case Interrupt => Interrupted(s, s.queue[0])
    case Test(p) =>
      var b, x := s.procs[p].b, s.cache.bufs[s.procs[p].b];
      s.(procs := s.procs[p := if x.valid && !x.dirty then Holds(b, s.procs[p].k, false)
                               else InRw(b, s.procs[p].k, true)])
    case Release(p) =>
      var b := s.procs[p].b;
      s.(cache := Brelse(s.cache, b), procs := WakeAll(s.procs[p := Idle], b))
  }

  /* The invariant */

  /** No two buffers cache the same sector. */
  ghost predicate NoAlias<D>(bufs: seq<Buf<D>>) {
    forall a, b :: 0 <= a < |bufs| && 0 <= b < |bufs| && a != b && bufs[a].key == bufs[b].key ==>
        bufs[a].key.dev == NODEV
  }

  /** What the owner of a buffer knows about it. A request for it is queued exactly while iderw waits for one. */
  ghost predicate OwnerView<D>(pc: Pc, x: Buf<D>, queued: bool) {
    match pc
    case Owns(b, k) => x.key == k && !x.valid && !x.dirty && !queued
    case InRw(b, k, asleep) => x.key == k && (queued <==> !x.valid || x.dirty) && (asleep ==> queued)
    case Holds(b, k, changed) => x.key == k && x.valid && !x.dirty && !queued
    case _ => true
  }

  /** A process in the middle of changing its buffer. */
  predicate Changing(pc: Pc) {
    pc.Holds? && pc.changed
  }

  /** A busy buffer has an owner; a free one is clean and not in the disk queue. */
  ghost predicate BufOk<D>(s: State<D>, b: nat)
    requires b < |s.cache.bufs| && |s.holder| == |s.cache.bufs|
  {
    var x := s.cache.bufs[b];
    && (x.busy ==>
         s.holder[b] < |s.procs| && Has(s.procs[s.holder[b]], b)
         && OwnerView(s.procs[s.holder[b]], x, b in s.queue))
    && (!x.busy ==> !x.dirty && b !in s.queue)
    && (x.busy || x.valid ==> x.key in s.disk)
  }

  /** A valid buffer that nobody is changing has the contents last written to its sector. */
  ghost predicate Coherent<D>(s: State<D>, b: nat)
    requires b < |s.cache.bufs| && |s.holder| == |s.cache.bufs|
  {
    var x := s.cache.bufs[b];
    x.valid || x.dirty ==>
      || (x.key in s.written && x.data == s.written[x.key])
      || (x.busy && s.holder[b] < |s.procs| && Changing(s.procs[s.holder[b]]))
  }

  /**
   Only the holder of a busy buffer owns it, and a process sleeps in bget only on a busy buffer: its owner will wake
   it.
   */
  ghost predicate ProcOk<D>(s: State<D>, pc: Pc, p: nat)
    requires |s.holder| == |s.cache.bufs|
  {
    && (pc.Owns? || pc.InRw? || pc.Holds? ==> pc.b < |s.cache.bufs| && s.cache.bufs[pc.b].busy && s.holder[pc.b] == p)
    && (pc.Wants? || pc.Asleep? ==> pc.k in s.disk)
    && (pc.Asleep? ==> pc.b < |s.cache.bufs| && s.cache.bufs[pc.b].busy)
  }

  /** A dirty buffer of this sector is on its way to the disk. */
  ghost predicate OnItsWay<D>(bufs: seq<Buf<D>>, k: Key) {
    exists b :: 0 <= b < |bufs| && bufs[b].key == k && bufs[b].dirty
  }

  ghost predicate DiskOk<D>(s: State<D>) {
    && s.written.Keys == s.disk.Keys
    && (forall k :: k in s.disk ==> k.dev != NODEV)
    && (forall k :: k in s.disk ==> s.written[k] == s.disk[k] || OnItsWay(s.cache.bufs, k))
  }

  ghost predicate Shapes<D>(s: State<D>) {
    && CacheShape(s.cache) && |s.holder| == |s.cache.bufs|
    && Distinct(s.queue) && forall i :: 0 <= i < |s.queue| ==> s.queue[i] < |s.cache.bufs|
  }

  ghost predicate Inv<D>(s: State<D>) {
    && Shapes(s) && NoAlias(s.cache.bufs) && DiskOk(s)
    && (forall b: nat {:trigger BufOk(s, b)} :: b < |s.cache.bufs| ==> BufOk(s, b) && Coherent(s, b))
    && (forall p: nat {:trigger s.procs[p]} :: p < |s.procs| ==> ProcOk(s, s.procs[p], p))
  }

  /** binit, before any process has called in. */
  ghost predicate Init<D>(s: State<D>) {
    && CacheShape(s.cache) && |s.cache.bufs| == NBUF && |s.holder| == NBUF
    && (forall b {:trigger s.cache.bufs[b]} :: 0 <= b < NBUF ==>
         var x := s.cache.bufs[b]; x.key.dev == NODEV && !x.busy && !x.valid && !x.dirty)
    && s.queue == [] && s.written == s.disk && (forall k :: k in s.disk ==> k.dev != NODEV)
    && (forall p {:trigger s.procs[p]} :: 0 <= p < |s.procs| ==> s.procs[p].Idle?)
  }

  lemma InitInv<D>(s: State<D>)
    requires Init(s)
    ensures Inv(s)
  {
    forall b: nat | b < |s.cache.bufs|
      ensures BufOk(s, b) && Coherent(s, b)
    {
      var x := s.cache.bufs[b];
    }
  }

  /* Every action keeps the invariant */

  /** An owner is a process like any other. */
  lemma OwnerKnows<D>(s: State<D>, p: nat)
    requires Inv(s) && p < |s.procs| && (s.procs[p].Owns? || s.procs[p].InRw? || s.procs[p].Holds?)
    ensures var b := s.procs[p].b;
            b < |s.cache.bufs| && s.cache.bufs[b].busy && s.holder[b] == p
                && OwnerView(s.procs[p], s.cache.bufs[b], b in s.queue)
            && s.cache.bufs[b].key in s.disk
  {
    var b := s.procs[p].b;
    assert ProcOk(s, s.procs[p], p);
    assert BufOk(s, b);
  }

  /** Nothing but process p moves, and it keeps the buffers it has. */
  lemma OthersProcs<D>(s: State<D>, t: State<D>, p: nat)
    requires Inv(s) && Shapes(t) && p < |s.procs| == |t.procs| && t.procs == s.procs[p := t.procs[p]]
    requires t.holder == s.holder && t.disk.Keys == s.disk.Keys && |t.cache.bufs| == |s.cache.bufs|
    requires forall b :: 0 <= b < |s.cache.bufs| ==> t.cache.bufs[b].busy == s.cache.bufs[b].busy
    requires ProcOk(t, t.procs[p], p)
    ensures forall q: nat {:trigger t.procs[q]} :: q < |t.procs| ==> ProcOk(t, t.procs[q], q)
  {
    forall q: nat {:trigger t.procs[q]} | q < |t.procs|
      ensures ProcOk(t, t.procs[q], q)
    {
      assert ProcOk(s, s.procs[q], q);
    }
  }

  /** The buffers other than p's are as before. */
  lemma OthersBufs<D>(s: State<D>, t: State<D>, p: nat, b: nat)
    requires Inv(s) && Shapes(t) && p < |s.procs| == |t.procs| && t.procs == s.procs[p := t.procs[p]]
    requires b < |s.cache.bufs| == |t.cache.bufs| && s.cache.bufs[b].busy && s.holder[b] == p
    requires t.cache.bufs == s.cache.bufs[b := t.cache.bufs[b]] && t.cache.bufs[b].key == s.cache.bufs[b].key
    requires t.holder == s.holder && t.disk == s.disk
    requires forall c :: c != b ==> (c in t.queue <==> c in s.queue)
    requires forall k :: k != s.cache.bufs[b].key && k in s.written ==> k in t.written && t.written[k] == s.written[k]
    ensures forall c: nat :: c < |t.cache.bufs| && c != b ==> BufOk(t, c) && Coherent(t, c)
  {
    forall c: nat | c < |t.cache.bufs| && c != b
      ensures BufOk(t, c) && Coherent(t, c)
    {
      assert BufOk(s, c) && BufOk(s, b);
      var x := s.cache.bufs[c];
      if x.busy {
        assert s.holder[c] != p;
      }
    }
  }

  lemma BreadKeepsInv<D>(s: State<D>, p: nat, k: Key)
    requires Inv(s) && Enabled(s, Bread(p, k))
    ensures Inv(Do(s, Bread(p, k)))
  {
    var t := Do(s, Bread(p, k));
    OthersProcs(s, t, p);
    forall b: nat | b < |s.cache.bufs|
      ensures BufOk(t, b) && Coherent(t, b)
    {
      assert BufOk(s, b);
    }
  }

  lemma SubmitKeepsInv<D>(s: State<D>, p: nat)
    requires Inv(s) && Enabled(s, Submit(p))
    ensures Inv(Do(s, Submit(p)))
  {
    OwnerKnows(s, p);
    var t, b := Do(s, Submit(p)), s.procs[p].b;
    OthersProcs(s, t, p);
    OthersBufs(s, t, p, b);
    assert BufOk(s, b);
    assert BufOk(t, b) && Coherent(t, b);
  }

  /** Storing a buffer that is as dirty as before and for the same sector. */
  lemma KeepsOnItsWay<D>(bufs: seq<Buf<D>>, b: nat, x: Buf<D>)
    requires b < |bufs| && x.key == bufs[b].key && (bufs[b].dirty ==> x.dirty)
    ensures forall k :: OnItsWay(bufs, k) ==> OnItsWay(bufs[b := x], k)
  {
    var after := bufs[b := x];
    forall k | OnItsWay(bufs, k)
      ensures OnItsWay(after, k)
    {
      var c :| 0 <= c < |bufs| && bufs[c].key == k && bufs[c].dirty;
      assert after[c].key == k && after[c].dirty;
    }
  }

  lemma ChangeKeepsInv<D>(s: State<D>, p: nat, data: D)
    requires Inv(s) && Enabled(s, Change(p, data))
    ensures Inv(Do(s, Change(p, data)))
  {
    OwnerKnows(s, p);
    var t, b := Do(s, Change(p, data)), s.procs[p].b;
    KeepsOnItsWay(s.cache.bufs, b, t.cache.bufs[b]);
    OthersProcs(s, t, p);
    OthersBufs(s, t, p, b);
    assert BufOk(s, b);
    assert BufOk(t, b) && Coherent(t, b);
  }

  lemma BwriteKeepsInv<D>(s: State<D>, p: nat)
    requires Inv(s) && Enabled(s, Bwrite(p))
    ensures Inv(Do(s, Bwrite(p)))
  {
    OwnerKnows(s, p);
    var t, b := Do(s, Bwrite(p)), s.procs[p].b;
    KeepsOnItsWay(s.cache.bufs, b, t.cache.bufs[b]);
    assert t.cache.bufs[b].dirty;
    assert OnItsWay(t.cache.bufs, t.cache.bufs[b].key);
    OthersProcs(s, t, p);
    OthersBufs(s, t, p, b);
    assert BufOk(s, b);
    assert BufOk(t, b) && Coherent(t, b);
  }

  lemma TestKeepsInv<D>(s: State<D>, p: nat)
    requires Inv(s) && Enabled(s, Test(p))
    ensures Inv(Do(s, Test(p)))
  {
    OwnerKnows(s, p);
    var t, b := Do(s, Test(p)), s.procs[p].b;
    OthersProcs(s, t, p);
    OthersBufs(s, t, p, b);
    assert BufOk(s, b) && Coherent(s, b);
    assert BufOk(t, b) && Coherent(t, b);
  }

  /** wakeup changes no process's claims, only who is asleep. */
  lemma WokenKeeps(pc: Pc, b: nat)
    ensures var w := Woken(pc, b);
            && (forall c: int :: Has(w, c) <==> Has(pc, c)) && Changing(w) == Changing(pc)
            && !(w.Asleep? && w.b == b) && !(w.InRw? && w.b == b && w.asleep)
            && (w.Asleep? ==> w == pc) && (w.InRw? && w.b != b ==> w == pc) && (!pc.Asleep? && !pc.InRw? ==> w == pc)
  {
  }

  /** ideintr is done with buffer b: the sector and the buffer agree. */
  lemma InterruptKeepsInv<D>(s: State<D>)
    requires Inv(s) && Enabled(s, Interrupt)
    ensures Inv(Do(s, Interrupt))
  {
    var t, b := Do(s, Interrupt), s.queue[0];
    InterruptDisk(s);
    forall p: nat | p < |t.procs|
      ensures ProcOk(t, t.procs[p], p)
    {
      assert ProcOk(s, s.procs[p], p);
    }
    forall c: nat | c < |t.cache.bufs|
      ensures BufOk(t, c) && Coherent(t, c)
    {
      InterruptBuf(s, c);
    }
  }

  /** A dirty buffer of b's sector is b. */
  lemma OnlyOne<D>(s: State<D>, b: nat)
    requires Inv(s) && b < |s.cache.bufs| && s.cache.bufs[b].busy && OnItsWay(s.cache.bufs, s.cache.bufs[b].key)
    ensures s.cache.bufs[b].dirty
  {
    assert BufOk(s, b);
  }

  lemma InterruptDisk<D>(s: State<D>)
    requires Inv(s) && Enabled(s, Interrupt)
    ensures Shapes(Do(s, Interrupt)) && NoAlias(Do(s, Interrupt).cache.bufs) && DiskOk(Do(s, Interrupt))
  {
    var t, b := Do(s, Interrupt), s.queue[0];
    var x := s.cache.bufs[b];
    assert BufOk(s, b) && Coherent(s, b);
    forall k | k in t.disk
      ensures t.written[k] == t.disk[k] || OnItsWay(t.cache.bufs, k)
    {
      if k != x.key && OnItsWay(s.cache.bufs, k) {
        var c :| 0 <= c < |s.cache.bufs| && s.cache.bufs[c].key == k && s.cache.bufs[c].dirty;
        assert t.cache.bufs[c] == s.cache.bufs[c];
      } else if k == x.key && OnItsWay(s.cache.bufs, k) {
        OnlyOne(s, b);
      }
    }
  }

  lemma InterruptBuf<D>(s: State<D>, c: nat)
    requires Inv(s) && Enabled(s, Interrupt) && c < |s.cache.bufs|
    ensures Shapes(Do(s, Interrupt)) && BufOk(Do(s, Interrupt), c) && Coherent(Do(s, Interrupt), c)
  {
    var t, b := Do(s, Interrupt), s.queue[0];
    assert BufOk(s, c) && Coherent(s, c) && BufOk(s, b) && Coherent(s, b);
    assert c != b ==> (c in t.queue <==> c in s.queue);
    assert b !in t.queue;
    if OnItsWay(s.cache.bufs, s.cache.bufs[b].key) {
      OnlyOne(s, b);
    }
    if s.cache.bufs[c].busy {
      WokenKeeps(s.procs[s.holder[c]], b);
    }
  }

  lemma ReleaseProc<D>(s: State<D>, p: nat, q: nat)
    requires Inv(s) && Enabled(s, Release(p)) && q < |s.procs|
    ensures ProcOk(Do(s, Release(p)), Do(s, Release(p)).procs[q], q)
  {
    hide DiskOk, NoAlias, OwnerView, Coherent;
    assert ProcOk(s, s.procs[q], q) && ProcOk(s, s.procs[p], p);
  }

  lemma ReleaseBuf<D>(s: State<D>, p: nat, c: nat)
    requires Inv(s) && Enabled(s, Release(p)) && c < |s.cache.bufs|
    ensures BufOk(Do(s, Release(p)), c) && Coherent(Do(s, Release(p)), c)
  {
    hide DiskOk, NoAlias;
    OwnerKnows(s, p);
    assert BufOk(s, c) && Coherent(s, c);
  }

  lemma ReleaseKeepsInv<D>(s: State<D>, p: nat)
    requires Inv(s) && Enabled(s, Release(p))
    ensures Inv(Do(s, Release(p)))
  {
    hide BufOk, Coherent;
    var t, b := Do(s, Release(p)), s.procs[p].b;
    BrelseShape(s.cache, b);
    KeepsOnItsWay(s.cache.bufs, b, t.cache.bufs[b]);
    hide ProcOk;
    forall q: nat | q < |t.procs|
      ensures ProcOk(t, t.procs[q], q)
    {
      ReleaseProc(s, p, q);
    }
    forall c: nat | c < |t.cache.bufs|
      ensures BufOk(t, c) && Coherent(t, c)
    {
      ReleaseBuf(s, p, c);
    }
  }

  /** bget finds a buffer it may lock; if it was not the sector's own, no buffer had the sector. */
  lemma BgetLocks<D>(c: Cache<D>, k: Key, b: nat)
    requires CacheShape(c) && Bget(c, k).Locked? && Bget(c, k).b == b
    ensures b < |c.bufs| && !c.bufs[b].busy && Bget(c, k).c.order == c.order
    ensures var x := Bget(c, k).c.bufs;
            || (c.bufs[b].key == k && x == c.bufs[b := c.bufs[b].(busy := true)])
            || ((forall a :: 0 <= a < |c.bufs| ==> c.bufs[a].key != k)
                && x == c.bufs[b := Buf(k, true, false, false, c.bufs[b].data)])
  {
    if FindCached(c, k, 0) == -1 {
      assert forall x :: x in c.order ==> x < |c.bufs|;
      forall a | 0 <= a < |c.bufs|
        ensures c.bufs[a].key != k
      {
        OrderCovers(c.order, |c.bufs|, a);
        var i :| 0 <= i < |c.order| && c.order[i] == a;
      }
    }
  }

  /** bget goes to sleep only on a busy buffer. */
  lemma SleepsOnBusy<D>(c: Cache<D>, k: Key)
    requires CacheShape(c) && Bget(c, k).MustSleep?
    ensures Bget(c, k).b < |c.bufs| && c.bufs[Bget(c, k).b].busy
  {
  }

  lemma MustSleepKeepsInv<D>(s: State<D>, p: nat)
    requires Inv(s) && Enabled(s, Scan(p)) && Bget(s.cache, s.procs[p].k).MustSleep?
    ensures Inv(Do(s, Scan(p)))
  {
    var t := Do(s, Scan(p));
    SleepsOnBusy(s.cache, s.procs[p].k);
    assert ProcOk(s, s.procs[p], p);
    hide Bget;
    OthersProcs(s, t, p);
    forall c: nat | c < |t.cache.bufs|
      ensures BufOk(t, c) && Coherent(t, c)
    {
      assert BufOk(s, c) && Coherent(s, c);
    }
  }

  lemma ScanKeepsInv<D>(s: State<D>, p: nat)
    requires Inv(s) && Enabled(s, Scan(p))
    ensures Inv(Do(s, Scan(p)))
  {
    match Bget(s.cache, s.procs[p].k)
    case MustSleep(b) =>
      MustSleepKeepsInv(s, p);
    case Locked(b, c) =>
      LockedKeepsInv(s, p);
    case NoBuffers =>
  }

  lemma LockedKeepsInv<D>(s: State<D>, p: nat)
    requires Inv(s) && Enabled(s, Scan(p)) && Bget(s.cache, s.procs[p].k).Locked?
    ensures Inv(Do(s, Scan(p)))
  {
    var k, t, b := s.procs[p].k, Do(s, Scan(p)), Bget(s.cache, s.procs[p].k).b;
    BgetLocks(s.cache, k, b);
    assert BufOk(s, b) && Coherent(s, b);
    assert ProcOk(s, s.procs[p], p);
    KeepsOnItsWayClean(s.cache.bufs, b, t.cache.bufs[b]);
    forall q: nat | q < |t.procs|
      ensures ProcOk(t, t.procs[q], q)
    {
      assert ProcOk(s, s.procs[q], q);
    }
    forall c: nat | c < |t.cache.bufs|
      ensures BufOk(t, c) && Coherent(t, c)
    {
      assert BufOk(s, c) && Coherent(s, c);
    }
  }

  /** Taking over a clean buffer. */
  lemma KeepsOnItsWayClean<D>(bufs: seq<Buf<D>>, b: nat, x: Buf<D>)
    requires b < |bufs| && !bufs[b].dirty
    ensures forall k :: OnItsWay(bufs, k) ==> OnItsWay(bufs[b := x], k)
  {
    var after := bufs[b := x];
    forall k | OnItsWay(bufs, k)
      ensures OnItsWay(after, k)
    {
      var c :| 0 <= c < |bufs| && bufs[c].key == k && bufs[c].dirty;
      assert after[c].key == k && after[c].dirty;
    }
  }

  /* What a run promises */

  /** s, then the actions one after another. */
  ghost predicate Run<D>(s: State<D>, acts: seq<Action<D>>, t: State<D>)
    decreases |acts|
  {
    if acts == [] then s == t else Enabled(s, acts[0]) && Run(Do(s, acts[0]), acts[1..], t)
  }

  lemma StepKeepsInv<D>(s: State<D>, a: Action<D>)
    requires Inv(s) && Enabled(s, a)
    ensures Inv(Do(s, a))
  {
    match a
    case Bread(p, k) => BreadKeepsInv(s, p, k);
    case Scan(p) => ScanKeepsInv(s, p);
    case Submit(p) => SubmitKeepsInv(s, p);
    case Change(p, data) => ChangeKeepsInv(s, p, data);
    case Bwrite(p) => BwriteKeepsInv(s, p);
    case Interrupt => InterruptKeepsInv(s);
    case Test(p) => TestKeepsInv(s, p);
    case Release(p) => ReleaseKeepsInv(s, p);
  }

  lemma {:induction false} RunKeepsInv<D>(s: State<D>, acts: seq<Action<D>>, t: State<D>)
    requires Inv(s) && Run(s, acts, t)
    ensures Inv(t)
    decreases |acts|
  {
    if acts != [] {
      StepKeepsInv(s, acts[0]);
      RunKeepsInv(Do(s, acts[0]), acts[1..], t);
    }
  }

  /**
   In every run, a process that bread has returned a buffer to has it alone, and until it changes it, it sees what was
   last written to the sector it asked for, which is also what the disk has.
   */
  lemma BreadReturnsLastWrite<D>(s: State<D>, acts: seq<Action<D>>, t: State<D>, p: nat)
    requires Init(s) && Run(s, acts, t) && p < |t.procs| && t.procs[p].Holds?
    ensures var b, k := t.procs[p].b, t.procs[p].k;
            && b < |t.cache.bufs| && t.cache.bufs[b].key == k && k in t.disk && k in t.written
            && (forall q :: 0 <= q < |t.procs| && Has(t.procs[q], b) ==> q == p)
            && (!t.procs[p].changed ==> t.cache.bufs[b].data == t.written[k] == t.disk[k])
  {
    InitInv(s);
    RunKeepsInv(s, acts, t);
    OwnerKnows(t, p);
    var b := t.procs[p].b;
    assert BufOk(t, b) && Coherent(t, b);
    forall q: nat | q < |t.procs| && Has(t.procs[q], b)
      ensures q == p
    {
      assert ProcOk(t, t.procs[q], q);
    }
    if OnItsWay(t.cache.bufs, t.cache.bufs[b].key) {
      OnlyOne(t, b);
    }
  }

  /** In every run, a buffer that is not busy is not dirty, and is as the disk is if it is valid. */
  lemma FreeBuffersMatchDisk<D>(s: State<D>, acts: seq<Action<D>>, t: State<D>, b: nat)
    requires Init(s) && Run(s, acts, t) && b < |t.cache.bufs| && !t.cache.bufs[b].busy
    ensures !t.cache.bufs[b].dirty
    ensures t.cache.bufs[b].valid ==>
            t.cache.bufs[b].key in t.disk && t.cache.bufs[b].data == t.disk[t.cache.bufs[b].key]
  {
    InitInv(s);
    RunKeepsInv(s, acts, t);
    assert BufOk(t, b) && Coherent(t, b);
  }

  /** In every run, whoever sleeps on a buffer has somebody to wake it: its owner, or the disk. */
  lemma NoLostWakeup<D>(s: State<D>, acts: seq<Action<D>>, t: State<D>, p: nat)
    requires Init(s) && Run(s, acts, t) && p < |t.procs|
    ensures t.procs[p].Asleep? ==> exists q :: 0 <= q < |t.procs| && q != p && Has(t.procs[q], t.procs[p].b)
    ensures t.procs[p].InRw? && t.procs[p].asleep ==> t.procs[p].b in t.queue
  {
    InitInv(s);
    RunKeepsInv(s, acts, t);
    assert ProcOk(t, t.procs[p], p);
    if t.procs[p].Asleep? {
      assert BufOk(t, t.procs[p].b);
      var q := t.holder[t.procs[p].b];
      assert Has(t.procs[q], t.procs[p].b);
    } else if t.procs[p].InRw? {
      OwnerKnows(t, p);
    }
  }

  /** In every run, the panics of bwrite, brelse and iderw ("nothing to do") are out of reach. */
  lemma NoPanic<D>(s: State<D>, acts: seq<Action<D>>, t: State<D>, p: nat)
    requires Init(s) && Run(s, acts, t) && p < |t.procs| && (t.procs[p].Owns? || t.procs[p].Holds?)
    ensures t.procs[p].b < |t.cache.bufs| && t.cache.bufs[t.procs[p].b].busy
    ensures t.procs[p].Owns? ==> !t.cache.bufs[t.procs[p].b].valid
    ensures t.procs[p].b !in t.queue
  {
    InitInv(s);
    RunKeepsInv(s, acts, t);
    OwnerKnows(t, p);
  }

  /* The panic "bget: no buffers" */

  /** bget panics if and only if every buffer is busy and none of them is for the sector. */
  lemma NoBuffersIff<D>(c: Cache<D>, k: Key)
    requires CacheShape(c)
    ensures Bget(c, k).NoBuffers? <==> forall b :: 0 <= b < |c.bufs| ==> c.bufs[b].busy && c.bufs[b].key != k
  {
    forall b: nat | b < |c.bufs|
      ensures Bget(c, k).NoBuffers? ==> c.bufs[b].busy && c.bufs[b].key != k
    {
      OrderCovers(c.order, |c.bufs|, b);
      var i :| 0 <= i < |c.order| && c.order[i] == b;
    }
  }

  /** Fewer than n numbers leave one out. */
  lemma {:induction false} OneMissing(taken: seq<nat>, n: nat) returns (b: nat)
    requires Distinct(taken) && |taken| < n
    ensures b < n && b !in taken
    decreases n
  {
    WithoutKeeps(taken, n - 1);
    if n - 1 in taken {
      b := OneMissing(Without(taken, n - 1), n - 1);
    } else {
      b := n - 1;
    }
  }

  /** The first i processes have locked a buffer each, and read nothing yet; `taken` are those buffers. */
  ghost predicate Filling(s: State<int>, i: nat, taken: seq<nat>) {
    && CacheShape(s.cache) && |s.cache.bufs| == |s.holder| == NBUF && |s.procs| == NBUF + 1
    && (forall j :: 0 <= j <= NBUF ==> Key(0, j) in s.disk)
    && (forall p :: i <= p < |s.procs| ==> s.procs[p].Idle?)
    && Distinct(taken) && |taken| == i && (forall b :: b in taken ==> b < NBUF)
    && (forall b {:trigger s.cache.bufs[b]} :: 0 <= b < NBUF ==>
         if b in taken then s.cache.bufs[b].busy && s.cache.bufs[b].key.sector < i
         else !s.cache.bufs[b].busy && s.cache.bufs[b].key.dev == NODEV)
  }

  /** One process more. */
  lemma FillOne(s: State<int>, i: nat, taken: seq<nat>) returns (t: State<int>, taken': seq<nat>)
    requires Filling(s, i, taken) && i < NBUF
    ensures Run(s, [Bread(i, Key(0, i)), Scan(i)], t) && Filling(t, i + 1, taken')
  {
    var k := Key(0, i);
    var s1 := Do(s, Bread(i, k));
    var free := OneMissing(taken, NBUF);
    NoBuffersIff(s.cache, k);
    assert !s.cache.bufs[free].busy;
    var v := Bget(s.cache, k).b;
    assert v !in taken && s.cache.bufs[v].key.dev == NODEV;
    t, taken' := Do(s1, Scan(i)), taken + [v];
    var acts: seq<Action<int>> := [Bread(i, k), Scan(i)];
    assert acts[1..] == [Scan(i)] && acts[1..][1..] == [];
    assert Run(t, [], t);
    assert Run(s1, acts[1..], t);
  }

  lemma {:induction false} RunThen<D>(s: State<D>, acts: seq<Action<D>>, t: State<D>, more: seq<Action<D>>, u: State<D>)
    requires Run(s, acts, t) && Run(t, more, u)
    ensures Run(s, acts + more, u)
    decreases |acts|
  {
    hide Do, Enabled;
    if acts == [] {
      assert acts + more == more;
    } else {
      RunThen(Do(s, acts[0]), acts[1..], t, more, u);
      assert (acts + more)[1..] == acts[1..] + more;
    }
  }

  lemma {:induction false} FillUp(s: State<int>, i: nat, taken: seq<nat>)
    returns (acts: seq<Action<int>>, t: State<int>, all: seq<nat>)
    requires Filling(s, i, taken) && i <= NBUF
    ensures Run(s, acts, t) && Filling(t, NBUF, all)
    decreases NBUF - i
  {
    if i == NBUF {
      acts, t, all := [], s, taken;
    } else {
      var u, more := FillOne(s, i, taken);
      var rest;
      rest, t, all := FillUp(u, i + 1, more);
      acts := [Bread(i, Key(0, i)), Scan(i)] + rest;
      RunThen(s, [Bread(i, Key(0, i)), Scan(i)], u, rest, t);
    }
  }

  /** Eleven sectors, and as many processes. */
  lemma EmptyCache() returns (s: State<int>)
    ensures Init(s) && Filling(s, 0, [])
  {
    var disk := map j | 0 <= j <= NBUF :: Key(0, j) := 0;
    var bufs := seq(NBUF, _ => Buf(Key(NODEV, 0), false, false, false, 0));
    var cache := Cache(bufs, seq(NBUF, i requires 0 <= i < NBUF => i));
    s := State(cache, disk, [], seq(NBUF + 1, _ => Idle), disk, seq(NBUF, _ => 0));
  }

  /** Once all buffers are taken, the next sector finds none. */
  lemma AllTaken(s: State<int>, all: seq<nat>)
    requires Filling(s, NBUF, all)
    ensures Bget(s.cache, Key(0, NBUF)).NoBuffers?
  {
    forall b: nat | b < NBUF
      ensures s.cache.bufs[b].busy && s.cache.bufs[b].key != Key(0, NBUF)
    {
      if b !in all {
        Pigeonhole(all + [b], NBUF);
      }
    }
    NoBuffersIff(s.cache, Key(0, NBUF));
  }

  /** It happens: as many processes as there are buffers have locked one each, and the next one finds none. */
  lemma OutOfBuffers()
    ensures exists s: State<int>, acts, t ::
              Init(s) && Run(s, acts, t) && |t.procs| == NBUF + 1 && t.procs[NBUF].Wants?
              && CacheShape(t.cache) && Bget(t.cache, t.procs[NBUF].k).NoBuffers?
  {
    var s := EmptyCache();
    hide Init;
    var acts, u, all := FillUp(s, 0, []);
    AllTaken(u, all);
    hide Bget;
    var a: Action<int> := Bread(NBUF, Key(0, NBUF));
    var t := Do(u, a);
    assert Run(t, [], t) && [a][1..] == [];
    RunThen(s, acts, u, [a], t);
  }

  /* Which buffer bget recycles */

  /** x comes before y in the order. */
  ghost predicate Precedes(order: seq<nat>, x: nat, y: nat) {
    exists i, j :: 0 <= i < j < |order| && order[i] == x && order[j] == y
  }

  /** The backward scan stops at the last free buffer in the order. */
  lemma {:induction false} LastFree<D>(c: Cache<D>, n: nat) returns (i: int)
    requires forall j :: 0 <= j < |c.order| ==> c.order[j] < |c.bufs|
    requires n <= |c.order| && LruFree(c, n) != -1
    ensures 0 <= i < n && LruFree(c, n) == c.order[i] && !c.bufs[c.order[i]].busy
    ensures forall j :: i < j < n ==> c.bufs[c.order[j]].busy
  {
    if c.bufs[c.order[n - 1]].busy {
      i := LastFree(c, n - 1);
    } else {
      i := n - 1;
    }
  }

  /** On a miss, bget takes the free buffer that every other free one precedes. */
  lemma TakesTheLast<D>(c: Cache<D>, k: Key, x: nat)
    requires CacheShape(c) && Bget(c, k).Locked? && Bget(c, k).b < |c.bufs| && c.bufs[Bget(c, k).b].key != k
    requires x < |c.bufs| && x != Bget(c, k).b && !c.bufs[x].busy
    ensures Precedes(c.order, x, Bget(c, k).b)
  {
    OrderCovers(c.order, |c.bufs|, x);
    var i := LastFree(c, |c.order|);
    var j :| 0 <= j < |c.order| && c.order[j] == x;
  }

  /** The order after these buffers were released, one after the other. */
  function Reordered(order: seq<nat>, released: seq<nat>): seq<nat> {
    if released == [] then order
    else ToFront(Reordered(order, released[..|released| - 1]), released[|released| - 1])
  }

  /** When x was last released: the place in the list, -1 if it never was. */
  function LastRelease(released: seq<nat>, x: nat): int {
    if released == [] then -1
    else if released[|released| - 1] == x then |released| - 1
    else LastRelease(released[..|released| - 1], x)
  }

  lemma {:induction false} LastReleaseRange(released: seq<nat>, x: nat)
    ensures -1 <= LastRelease(released, x) < |released|
  {
    if released != [] {
      LastReleaseRange(released[..|released| - 1], x);
    }
  }

  lemma {:induction false} WithoutPrecedes(order: seq<nat>, b: nat, x: nat, y: nat)
    requires Distinct(order) && x != b && y != b
    ensures Precedes(Without(order, b), x, y) <==> Precedes(order, x, y)
  {
    if order != [] {
      var rest := order[1..];
      WithoutKeeps(rest, b);
      if order[0] != b {
        WithoutPrecedes(rest, b, x, y);
        ConsPrecedes(order[0], rest, x, y);
        ConsPrecedes(order[0], Without(rest, b), x, y);
        assert order == [order[0]] + rest;
      } else {
        ConsPrecedes(b, rest, x, y);
        assert order == [b] + rest;
      }
    }
  }

  lemma ConsPrecedes(h: nat, rest: seq<nat>, x: nat, y: nat)
    ensures Precedes([h] + rest, x, y) <==> (h == x && y in rest) || Precedes(rest, x, y)
  {
    var all := [h] + rest;
    if i, j :| 0 <= i < j < |all| && all[i] == x && all[j] == y {
      if i > 0 {
        assert rest[i - 1] == x && rest[j - 1] == y;
      } else {
        assert rest[j - 1] == y;
      }
    }
    if h == x && y in rest {
      var j :| 0 <= j < |rest| && rest[j] == y;
      assert all[0] == x && all[j + 1] == y;
    }
    if i, j :| 0 <= i < j < |rest| && rest[i] == x && rest[j] == y {
      assert all[i + 1] == x && all[j + 1] == y;
    }
  }

  /** brelse puts its buffer first and keeps the others in order. */
  lemma ToFrontPrecedes(order: seq<nat>, b: nat, x: nat, y: nat)
    requires Distinct(order) && b in order && x in order && y in order && x != y
    ensures Precedes(ToFront(order, b), x, y) <==> x == b || (y != b && Precedes(order, x, y))
    ensures Distinct(ToFront(order, b)) && forall z :: z in ToFront(order, b) <==> z in order
  {
    WithoutKeeps(order, b);
    ConsPrecedes(b, Without(order, b), x, y);
    if x != b && y != b {
      WithoutPrecedes(order, b, x, y);
    }
  }

  /** The order is by the last release, the latest first; buffers never released come after, as binit had them. */
  lemma {:induction false} OrderIsRecency(order: seq<nat>, released: seq<nat>, x: nat, y: nat)
    requires Distinct(order) && x in order && y in order && x != y && forall b :: b in released ==> b in order
    ensures Distinct(Reordered(order, released)) && forall z :: z in Reordered(order, released) <==> z in order
    ensures Precedes(Reordered(order, released), x, y) <==>
            LastRelease(released, x) > LastRelease(released, y)
            || (LastRelease(released, x) == LastRelease(released, y) && Precedes(order, x, y))
  {
    LastReleaseRange(released, x);
    LastReleaseRange(released, y);
    if released != [] {
      var init, b := released[..|released| - 1], released[|released| - 1];
      OrderIsRecency(order, init, x, y);
      LastReleaseRange(init, x);
      LastReleaseRange(init, y);
      ToFrontPrecedes(Reordered(order, init), b, x, y);
    }
  }

  ghost function ReleasedBy<D>(s: State<D>, a: Action<D>): (r: seq<nat>)
    requires Enabled(s, a)
    ensures |r| <= 1
  {
    if a.Release? then [s.procs[a.p].b] else []
  }

  /** The buffers that the run releases. */
  ghost function Releases<D>(s: State<D>, acts: seq<Action<D>>): seq<nat>
    decreases |acts|
  {
    if acts == [] || !Enabled(s, acts[0]) then []
    else ReleasedBy(s, acts[0]) + Releases(Do(s, acts[0]), acts[1..])
  }

  lemma {:induction false} ReorderedThen(order: seq<nat>, a: seq<nat>, b: seq<nat>)
    ensures Reordered(order, a + b) == Reordered(Reordered(order, a), b)
  {
    if b == [] {
      assert a + b == a;
    } else {
      var init := b[..|b| - 1];
      ReorderedThen(order, a, init);
      assert (a + b)[..|a + b| - 1] == a + init;
    }
  }

  lemma StepOrder<D>(s: State<D>, a: Action<D>)
    requires Inv(s) && Enabled(s, a)
    ensures Do(s, a).cache.order == Reordered(s.cache.order, ReleasedBy(s, a))
    ensures forall b :: b in ReleasedBy(s, a) ==> b < |s.cache.bufs|
    ensures |Do(s, a).cache.bufs| == |s.cache.bufs|
  {
    if a.Release? {
      var b := s.procs[a.p].b;
      assert [b][..0] == [];
      assert Reordered(s.cache.order, [b]) == ToFront(s.cache.order, b);
    }
  }

  lemma {:induction false} RunOrder<D>(s: State<D>, acts: seq<Action<D>>, t: State<D>)
    requires Inv(s) && Run(s, acts, t)
    ensures t.cache.order == Reordered(s.cache.order, Releases(s, acts)) && |t.cache.bufs| == |s.cache.bufs|
    ensures forall b :: b in Releases(s, acts) ==> b < |s.cache.bufs|
    decreases |acts|
  {
    hide Inv, Do, Enabled, Bget, ReleasedBy;
    if acts != [] {
      var a := acts[0];
      StepKeepsInv(s, a);
      StepOrder(s, a);
      RunOrder(Do(s, a), acts[1..], t);
      ReorderedThen(s.cache.order, ReleasedBy(s, a), Releases(Do(s, a), acts[1..]));
    }
  }

  /** In every run, bget recycles the buffer released longest ago of all that are free. */
  lemma RecyclesOldest<D>(s: State<D>, acts: seq<Action<D>>, t: State<D>, k: Key, x: nat)
    requires Init(s) && Run(s, acts, t) && CacheShape(t.cache)
    requires Bget(t.cache, k).Locked? && Bget(t.cache, k).b < |t.cache.bufs|
    requires t.cache.bufs[Bget(t.cache, k).b].key != k
    requires x < |t.cache.bufs| && x != Bget(t.cache, k).b && !t.cache.bufs[x].busy
    ensures LastRelease(Releases(s, acts), Bget(t.cache, k).b) <= LastRelease(Releases(s, acts), x)
  {
    InitInv(s);
    RunOrder(s, acts, t);
    TakesTheLast(t.cache, k, x);
    var b, n := Bget(t.cache, k).b, |s.cache.bufs|;
    hide Bget, Inv;
    OrderCovers(s.cache.order, n, x);
    OrderCovers(s.cache.order, n, b);
    forall y | y in Releases(s, acts)
      ensures y in s.cache.order
    {
      OrderCovers(s.cache.order, n, y);
    }
    OrderIsRecency(s.cache.order, Releases(s, acts), x, b);
  }

  /** A buffer just released is recycled only if all others are busy. */
  lemma NewestLast<D>(s: State<D>, acts: seq<Action<D>>, t: State<D>, p: nat, k: Key, x: nat)
    requires Init(s) && Run(s, acts, t) && Enabled(t, Release(p))
    requires t.procs[p].b < |t.cache.bufs| && CacheShape(t.cache)
    requires var c := Brelse(t.cache, t.procs[p].b);
             CacheShape(c) && Bget(c, k).Locked? && Bget(c, k).b == t.procs[p].b && c.bufs[t.procs[p].b].key != k
    requires x < |t.cache.bufs| && x != t.procs[p].b
    ensures t.cache.bufs[x].busy
  {
    var b, c := t.procs[p].b, Brelse(t.cache, t.procs[p].b);
    if !t.cache.bufs[x].busy {
      TakesTheLast(c, k, x);
      OrderCovers(t.cache.order, |t.cache.bufs|, x);
      OrderCovers(t.cache.order, |t.cache.bufs|, b);
      ToFrontPrecedes(t.cache.order, b, b, x);
      ToFrontPrecedes(t.cache.order, b, x, b);
    }
  }

  /* The disk queue */

  function Interrupts<D>(acts: seq<Action<D>>): nat {
    if acts == [] then 0 else Interrupts(acts[1..]) + if acts[0].Interrupt? then 1 else 0
  }

  /** Process p sleeps in iderw until request i of the queue is answered. */
  ghost predicate WaitsFor<D>(s: State<D>, p: nat, i: nat) {
    p < |s.procs| && s.procs[p].InRw? && s.procs[p].asleep && i < |s.queue| && s.queue[i] == s.procs[p].b
  }

  /** Process p is awake, and the transfer it asked for is done. */
  ghost predicate AnsweredIn<D>(s: State<D>, p: nat) {
    p < |s.procs| && s.procs[p].InRw? && !s.procs[p].asleep && s.procs[p].b < |s.cache.bufs|
    && var x := s.cache.bufs[s.procs[p].b];
       x.valid && !x.dirty && x.key in s.disk && x.data == s.disk[x.key]
  }

  /** Requests keep their places: only an interrupt moves them up, and it answers the first. */
  lemma StepQueue<D>(s: State<D>, a: Action<D>, p: nat, i: nat)
    requires Inv(s) && Enabled(s, a) && WaitsFor(s, p, i)
    ensures var t := Do(s, a);
            if !a.Interrupt? then WaitsFor(t, p, i) && t.procs[p] == s.procs[p]
            else if i > 0 then WaitsFor(t, p, i - 1) && t.procs[p] == s.procs[p]
            else AnsweredIn(t, p) && t.procs[p].b == s.procs[p].b
  {
    hide NoAlias, DiskOk, OnItsWay, Coherent, BufOk;
    OwnerKnows(s, p);
    if a.Release? {
      OwnerKnows(s, a.p);
    }
  }

  /**
   The disk answers in turn: behind i other requests, a process is woken with its transfer done by the i + 1st
   interrupt, whatever everybody else asks for in the meantime.
   */
  lemma {:induction false} ServedInTurn<D>(s: State<D>, acts: seq<Action<D>>, t: State<D>, p: nat, i: nat)
      returns (n: nat, u: State<D>)
    requires Inv(s) && Run(s, acts, t) && WaitsFor(s, p, i) && Interrupts(acts) > i
    ensures n <= |acts| && Run(s, acts[..n], u) && Interrupts(acts[..n]) == i + 1
    ensures AnsweredIn(u, p) && u.procs[p].b == s.procs[p].b
    decreases |acts|
  {
    hide Inv, Do, Enabled, WaitsFor, AnsweredIn;
    var a, s1 := acts[0], Do(s, acts[0]);
    StepKeepsInv(s, a);
    StepQueue(s, a, p, i);
    if a.Interrupt? && i == 0 {
      n, u := 1, s1;
      assert acts[..1][1..] == [];
      assert Interrupts<D>([]) == 0 && Run(u, [], u);
    } else {
      var m;
      m, u := ServedInTurn(s1, acts[1..], t, p, if a.Interrupt? then i - 1 else i);
      n := m + 1;
      assert acts[..n][1..] == acts[1..][..m];
    }
  }

  /** In every run, as many interrupts as there are buffers wake every process that waits for the disk. */
  lemma WokenWithinNbuf<D>(s: State<D>, acts: seq<Action<D>>, t: State<D>, p: nat, more: seq<Action<D>>, v: State<D>)
      returns (n: nat, u: State<D>)
    requires Init(s) && Run(s, acts, t) && p < |t.procs| && t.procs[p].InRw? && t.procs[p].asleep
    requires Run(t, more, v) && Interrupts(more) >= NBUF
    ensures n <= |more| && Run(t, more[..n], u) && Interrupts(more[..n]) <= NBUF
    ensures AnsweredIn(u, p) && u.procs[p].b == t.procs[p].b
  {
    InitInv(s);
    RunKeepsInv(s, acts, t);
    SameBuffers(s, acts, t);
    OwnerKnows(t, p);
    var i: nat :| i < |t.queue| && t.queue[i] == t.procs[p].b;
    assert forall x :: x in t.queue ==> x < |t.cache.bufs|;
    Pigeonhole(t.queue, NBUF);
    hide Inv;
    n, u := ServedInTurn(t, more, v, p, i);
  }

  /** Buffers neither come nor go. */
  lemma {:induction false} SameBuffers<D>(s: State<D>, acts: seq<Action<D>>, t: State<D>)
    requires Run(s, acts, t)
    ensures |t.cache.bufs| == |s.cache.bufs|
    decreases |acts|
  {
    if acts != [] {
      SameBuffers(Do(s, acts[0]), acts[1..], t);
    }
  }
}
