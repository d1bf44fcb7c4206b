/**
 The ring that keeps bcache's buffers in order of use (kernel/bio.c), with its real prev and next links, proved to
 carry out the cache steps that the protocol in BufferCache is made of.
 */
module LruRing {
  import opened BufferCache

  /** The node at place i of the ring; the head h is at both ends. */
  function At(order: seq<nat>, h: nat, i: int): nat {
    if 0 <= i < |order| then order[i] else h
  }

  ghost predicate Below(order: seq<nat>, h: nat) {
    forall i :: 0 <= i < |order| ==> order[i] < h
  }

  /** Node i and the one after it point at each other. */
  ghost predicate Linked(next: seq<nat>, prev: seq<nat>, order: seq<nat>, h: nat, i: int)
    requires |next| == |prev| == h + 1
  {
    && At(order, h, i) <= h && At(order, h, i + 1) <= h
    && next[At(order, h, i)] == At(order, h, i + 1) && prev[At(order, h, i + 1)] == At(order, h, i)
  }

  /** next and prev link the nodes of order, and the head, into one circle. */
  ghost predicate Ring(next: seq<nat>, prev: seq<nat>, order: seq<nat>, h: nat) {
    && |next| == |prev| == h + 1
    && Distinct(order)
    && Below(order, h)
    && (forall i :: -1 <= i < |order| ==> Linked(next, prev, order, h, i))
  }

  /** order without its element i. */
  function Drop(order: seq<nat>, i: nat): seq<nat>
    requires i < |order|
  {
    order[..i] + order[i + 1..]
  }

  lemma {:induction false} DropIsWithout(order: seq<nat>, i: nat)
    requires Distinct(order) && i < |order|
    ensures Drop(order, i) == Without(order, order[i])
  {
    if i > 0 {
      DropIsWithout(order[1..], i - 1);
      assert Drop(order, i) == [order[0]] + Drop(order[1..], i - 1);
    }
  }

  /** The nodes of the ring are different. */
  lemma Nodes(order: seq<nat>, h: nat, i: int, j: int)
    requires Distinct(order) && Below(order, h) && -1 <= i < |order| && -1 <= j < |order|
    ensures At(order, h, i) <= h
    ensures At(order, h, i) == At(order, h, j) ==> i == j
  {
  }

  lemma NodesEnd(order: seq<nat>, h: nat, i: int, j: int)
    requires Distinct(order) && Below(order, h) && 0 <= i <= |order| && 0 <= j <= |order|
    ensures At(order, h, i) == At(order, h, j) ==> i == j
  {
  }

  /** Where the nodes of the shorter ring were. */
  lemma DropAt(order: seq<nat>, h: nat, i: nat, j: int)
    requires i < |order| && -1 <= j < |order|
    ensures At(Drop(order, i), h, j) == At(order, h, if j < i then j else j + 1)
  {
  }

  lemma DropShape(order: seq<nat>, h: nat, i: nat)
    requires Distinct(order) && Below(order, h) && i < |order|
    ensures Distinct(Drop(order, i)) && Below(Drop(order, i), h) && |Drop(order, i)| == |order| - 1
  {
  }

  lemma AtEnd(order: seq<nat>, h: nat)
    ensures At(order, h, |order|) == At(order, h, -1) == h
  {
  }

  /** Node i of the ring and its neighbours. */
  lemma Links(next: seq<nat>, prev: seq<nat>, order: seq<nat>, h: nat, i: nat)
    requires Ring(next, prev, order, h) && i < |order|
    ensures order[i] == At(order, h, i) < h
    ensures next[order[i]] == At(order, h, i + 1) <= h && prev[order[i]] == At(order, h, i - 1) <= h
  {
    assert Linked(next, prev, order, h, i);
    assert Linked(next, prev, order, h, i - 1);
  }

  lemma UnlinkAt(next: seq<nat>, prev: seq<nat>, order: seq<nat>, h: nat, i: nat, j: int)
    requires Ring(next, prev, order, h) && i < |order| && -1 <= j < |order| - 1
    requires next[order[i]] <= h && prev[order[i]] <= h
    ensures var b := order[i];
            Linked(next[prev[b] := next[b]], prev[next[b] := prev[b]], Drop(order, i), h, j)
  {
    Links(next, prev, order, h, i);
    hide Distinct, Drop, At, Below;
    var o := Drop(order, i);
    var was := if j < i then j else j + 1;
    DropShape(order, h, i);
    DropAt(order, h, i, j);
    Nodes(order, h, was, i - 1);
    NodesEnd(order, h, was + 1, i + 1);
    assert Linked(next, prev, order, h, was);
    if j + 1 < |o| {
      DropAt(order, h, i, j + 1);
    } else {
      AtEnd(order, h);
      AtEnd(o, h);
    }
  }

  /** b->next->prev = b->prev; b->prev->next = b->next. */
  lemma Unlink(next: seq<nat>, prev: seq<nat>, order: seq<nat>, h: nat, i: nat)
    requires Ring(next, prev, order, h) && i < |order|
    ensures var b := order[i];
            next[b] <= h && prev[b] <= h && Ring(next[prev[b] := next[b]], prev[next[b] := prev[b]], Drop(order, i), h)
  {
    Links(next, prev, order, h, i);
    DropShape(order, h, i);
    hide Distinct, Drop, At, Below, Linked;
    var b, o := order[i], Drop(order, i);
    var nx, pv := next[prev[b] := next[b]], prev[next[b] := prev[b]];
    forall j | -1 <= j < |order| - 1
      ensures Linked(nx, pv, o, h, j)
    {
      UnlinkAt(next, prev, order, h, i, j);
    }
  }

  /** Linking b in between the head and the first node. */
  lemma LinkFirst(next: seq<nat>, prev: seq<nat>, order: seq<nat>, h: nat, b: nat)
    requires Ring(next, prev, order, h) && b < h && b !in order
    ensures next[h] <= h && Ring(next[b := next[h]][h := b], prev[b := h][next[h] := b], [b] + order, h)
  {
    assert Linked(next, prev, order, h, -1);
    var o := [b] + order;
    var nx, pv := next[b := next[h]][h := b], prev[b := h][next[h] := b];
    forall j | -1 <= j < |o|
      ensures Linked(nx, pv, o, h, j)
    {
      if j > 0 {
        assert At(o, h, j) == At(order, h, j - 1) && At(o, h, j + 1) == At(order, h, j);
        assert Linked(next, prev, order, h, j - 1);
        NodesEnd(order, h, j, 0);
      } else if j == 0 {
        assert At(o, h, 1) == At(order, h, 0);
      }
    }
  }

  /** How a pass of bget ends: with a buffer locked, asleep on a buffer, or in a panic. */
  datatype Outcome = Returned(b: nat) | Sleeps(b: nat) | Panic

  /** struct bcache: NBUF buffers and, as node number NBUF, the head. */
  class Bcache<D> {
    var bufs: seq<Buf<D>>
    const next: array<nat>
    const prev: array<nat>
    ghost var order: seq<nat>

    ghost function Abstract(): Cache<D>
      reads this
    {
      Cache(bufs, order)
    }

    ghost predicate Valid()
      reads this, next, prev
    {
      && next != prev && |bufs| == |order| && Ring(next[..], prev[..], order, |bufs|)
    }

    constructor Binit(data: seq<D>)
      requires |data| == NBUF
      ensures Valid() && fresh(next) && fresh(prev) && CacheShape(Abstract()) && |bufs| == NBUF
      ensures forall b :: 0 <= b < NBUF ==> bufs[b] == Buf(Key(NODEV, 0), false, false, false, data[b])
      ensures order == seq(NBUF, i requires 0 <= i < NBUF => NBUF - 1 - i)
    {
      next := new nat[NBUF + 1](_ => NBUF);
      prev := new nat[NBUF + 1](_ => NBUF);
      order := [];
      bufs := seq(NBUF, b requires 0 <= b < NBUF => Buf(Key(NODEV, 0), false, false, false, data[b]));
      new;
      var b := 0;
      while b < NBUF
        invariant 0 <= b <= NBUF && next != prev && fresh(next) && fresh(prev)
        invariant order == seq(b, i requires 0 <= i < b => b - 1 - i)
        invariant Ring(next[..], prev[..], order, NBUF)
        invariant |bufs| == NBUF && forall c :: 0 <= c < NBUF ==>
                  bufs[c] == Buf(Key(NODEV, 0), false, false, false, data[c])
      {
        LinkFirst(next[..], prev[..], order, NBUF, b);
        LinkAtHead(b);
        b := b + 1;
      }
    }

    /** The four assignments that put a node after the head. */
    method LinkAtHead(b: nat)
      requires next != prev && b < |bufs|
      requires b !in order && Ring(next[..], prev[..], order, |bufs|)
      modifies this`order, next, prev
      ensures order == [b] + old(order)
      ensures Ring(next[..], prev[..], order, |bufs|)
    {
      var head := |bufs|;
      LinkFirst(next[..], prev[..], order, head, b);
      next[b] := next[head];
      prev[b] := head;
      prev[next[head]] := b;
      next[head] := b;
      order := [b] + order;
    }

    /** bget up to the point where it returns, sleeps or panics. */
    method Lookup(k: Key) returns (r: Outcome)
      requires Valid() && CacheShape(Abstract())
      modifies this`bufs
      ensures match Bget(old(Abstract()), k)
              case Locked(b, c) => r == Returned(b) && Abstract() == c
              case MustSleep(b) => r == Sleeps(b) && Abstract() == old(Abstract())
              case NoBuffers => r == Panic && Abstract() == old(Abstract())
      ensures Valid()
    {
      ghost var c := Abstract();
      var head := |bufs|;
      ghost var i := 0;
      assert Linked(next[..], prev[..], order, head, -1);
      var b := next[head];
      while b != head
        invariant 0 <= i <= |order| && b == At(order, head, i)
        invariant FindCached(c, k, 0) == FindCached(c, k, i)
        decreases |order| - i
      {
        if bufs[b].key == k {
          if !bufs[b].busy {
            bufs := bufs[b := bufs[b].(busy := true)];
            return Returned(b);
          }
          return Sleeps(b);
        }
        assert Linked(next[..], prev[..], order, head, i);
        b := next[b];
        i := i + 1;
      }
      i := |order|;
      assert Linked(next[..], prev[..], order, head, |order| - 1);
      b := prev[head];
      while b != head
        invariant 0 <= i <= |order| && b == At(order, head, i - 1)
        invariant LruFree(c, |order|) == LruFree(c, i)
        decreases i
      {
        if !bufs[b].busy {
          bufs := bufs[b := Buf(k, true, false, false, bufs[b].data)];
          return Returned(b);
        }
        assert Linked(next[..], prev[..], order, head, i - 2);
        b := prev[b];
        i := i - 1;
      }
      return Panic;
    }

    /** brelse, without the wakeup. */
    method Release(b: nat)
      requires Valid() && CacheShape(Abstract()) && b < |bufs|
      modifies this`bufs, this`order, next, prev
      ensures Abstract() == Brelse(old(Abstract()), b)
      ensures Valid() && CacheShape(Abstract())
    {
      BrelseShape(Abstract(), b);
      OrderCovers(order, |bufs|, b);
      ghost var i :| 0 <= i < |order| && order[i] == b;
      Unlink(next[..], prev[..], order, |bufs|, i);
      DropIsWithout(order, i);
      WithoutKeeps(order, b);
      prev[next[b]] := prev[b];
      next[prev[b]] := next[b];
      order := Without(order, b);
      LinkAtHead(b);
      bufs := bufs[b := bufs[b].(busy := false)];
    }
  }
}
