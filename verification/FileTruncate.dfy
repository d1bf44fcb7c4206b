/** Giving back the blocks of a file one at a time: the proof behind itrunc. */
module FileTruncate {
  import opened Bytes
  import opened FsImage
  import opened DiskInode
  import opened FileWrite

  /**
   Which slots of inode i itrunc has dealt with: direct ones below d, entries below e, and the indirect block once
   ind.
   */
  predicate Gone(s: Slot, i: nat, d: nat, e: nat, ind: bool) {
    match s
    case Direct(j, k) => j == i && k < d
    case Entry(j, k) => j == i && k < e
    case Indirect(j) => j == i && ind
    case _ => false
  }

  function Remaining(im0: Image, i: nat, d: nat, e: nat, ind: bool): map<nat, Slot> {
    map b | b in im0.owner && !Gone(im0.owner[b], i, d, e, ind) :: if OwnedBy(im0.owner[b], i) then Dead
        else im0.owner[b]
  }

  /** Blocks among the first d direct slots, the first e entries and possibly the indirect block. */
  function Returned(len: nat, d: nat, e: nat, ind: bool): nat {
    Min(d, Blocks(len)) + (if Blocks(len) > NDIRECT then Min(e, Blocks(len) - NDIRECT) + (if ind then 1 else 0) else 0)
  }

  function Min(a: nat, b: nat): nat {
    if a < b then a else b
  }

  /** v accounts for the state of itrunc(i) after the slots given by d, e, ind were freed; im0 is where it started. */
  ghost predicate Truncating(im0: Image, v: Image, i: nat, d: nat, e: nat, ind: bool)
    requires Shape(im0) && i < |im0.len| && Addr(im0, Indirect(i)) < |im0.disk|
  {
    && Inv(v) && v.g == im0.g
    && v.inodes == Detach(im0, i).inodes && v.len == Detach(im0, i).len
    && v.owner == Remaining(im0, i, d, e, ind)
    && (forall j: nat, p: nat :: ByteAt(v, j, p) == if j == i then 0 else ByteAt(im0, j, p))
    && (forall b :: 0 <= b < im0.g.ninodes / IPB + 3 ==> v.disk[b] == im0.disk[b])
    && (!ind && Addr(im0, Indirect(i)) != 0 ==> v.disk[Addr(im0, Indirect(i))] == im0.disk[Addr(im0, Indirect(i))])
    && FreeCount(v) == FreeCount(im0) + Returned(im0.len[i], d, e, ind)
  }

  lemma TruncateStart(im0: Image, i: nat)
    requires Inv(im0) && i < |im0.len|
    ensures Addr(im0, Indirect(i)) < |im0.disk| && Truncating(im0, Detach(im0, i), i, 0, 0, false)
  {
    DetachKeepsInv(im0, i);
    DetachAddrs(im0, i);
    assert Addr(im0, Indirect(i)) != 0 ==> Addr(im0, Indirect(i)) in im0.owner;
    assert Detach(im0, i).owner.Keys == im0.owner.Keys;
    assert |Detach(im0, i).owner| == |Detach(im0, i).owner.Keys| == |im0.owner|;
  }

  /** Moving past slot s, which is the next of its kind: free its block if it has one. */
  lemma TruncateStep(im0: Image, v: Image, i: nat, d: nat, e: nat, ind: bool, s: Slot, d': nat, e': nat, ind': bool)
    requires Inv(im0) && i < |im0.len|
    requires Addr(im0, Indirect(i)) < |im0.disk| && Truncating(im0, v, i, d, e, ind)
    requires d <= NDIRECT && e <= NINDIRECT
    requires || (s == Direct(i, d) && d < NDIRECT && d' == d + 1 && e' == e && ind' == ind)
             || (s == Entry(i, e) && e < NINDIRECT && d' == d && e' == e + 1 && ind' == ind)
             || (s == Indirect(i) && !ind && d' == d && e' == e && ind')
    ensures Addr(im0, s) == 0 ==> Truncating(im0, v, i, d', e', ind')
    ensures Addr(im0, s) != 0 ==>
            Addr(im0, s) in v.owner && v.g.DataStart() <= Addr(im0, s) < |v.disk| && BitSet(v, Addr(im0, s))
                                  && Truncating(im0, Free(v, Addr(im0, s)), i, d', e', ind')
  {
    hide BitmapExact, FreeBlocksZero, NoHoles, TailZero, ByteAt, BitAt, Remaining, Returned, ClearBit, Blocks;
    var b := Addr(im0, s);
    StepReturned(im0, i, d, e, ind, s, d', e', ind');
    if b == 0 {
      SameRemaining(im0, i, d, e, ind, s, d', e', ind');
    } else {
      assert b in im0.owner && im0.owner[b] == s;
      NextIsDead(im0, i, d, e, ind, s);
      FreeKeepsInv(v, b);
      FreeAddrs(v, b);
      StepRemaining(im0, i, d, e, ind, s, d', e', ind');
      StepFrame(im0, v, i, b, s);
      assert |v.owner.Keys| == |v.owner|;
      assert (v.owner - {b}).Keys == v.owner.Keys - {b};
    }
  }

  lemma StepReturned(im0: Image, i: nat, d: nat, e: nat, ind: bool, s: Slot, d': nat, e': nat, ind': bool)
    requires Inv(im0) && i < |im0.len| && d <= NDIRECT && e <= NINDIRECT
    requires || (s == Direct(i, d) && d < NDIRECT && d' == d + 1 && e' == e && ind' == ind)
             || (s == Entry(i, e) && e < NINDIRECT && d' == d && e' == e + 1 && ind' == ind)
             || (s == Indirect(i) && !ind && d' == d && e' == e && ind')
    ensures Returned(im0.len[i], d', e', ind') == Returned(im0.len[i], d, e, ind) + if Addr(im0, s) != 0 then 1 else 0
  {
    assert Addr(im0, s) != 0 <==> Needed(im0, s);
  }

  lemma SameRemaining(im0: Image, i: nat, d: nat, e: nat, ind: bool, s: Slot, d': nat, e': nat, ind': bool)
    requires Inv(im0) && i < |im0.len| && Addr(im0, s) == 0
    requires || (s == Direct(i, d) && d' == d + 1 && e' == e && ind' == ind)
             || (s == Entry(i, e) && d' == d && e' == e + 1 && ind' == ind)
             || (s == Indirect(i) && !ind && d' == d && e' == e && ind')
    ensures Remaining(im0, i, d', e', ind') == Remaining(im0, i, d, e, ind)
  {
    hide BitmapExact, FreeBlocksZero, NoHoles, TailZero;
    forall c | c in im0.owner
      ensures Gone(im0.owner[c], i, d', e', ind') <==> Gone(im0.owner[c], i, d, e, ind)
    {
      assert im0.owner[c] != s;
    }
  }

  lemma NextIsDead(im0: Image, i: nat, d: nat, e: nat, ind: bool, s: Slot)
    requires Inv(im0) && Addr(im0, s) != 0
    requires s == Direct(i, d) || s == Entry(i, e) || (s == Indirect(i) && !ind)
    ensures Addr(im0, s) in im0.owner && Addr(im0, s) in Remaining(im0, i, d, e, ind)
    ensures Remaining(im0, i, d, e, ind)[Addr(im0, s)] == Dead
  {
  }

  /** The block to free next is accounted for as detached. */
  lemma TruncatingDead(im0: Image, v: Image, i: nat, d: nat, e: nat, ind: bool, s: Slot)
    requires Inv(im0) && i < |im0.len| && Addr(im0, Indirect(i)) < |im0.disk| && Truncating(im0, v, i, d, e, ind)
    requires Addr(im0, s) != 0 && (s == Direct(i, d) || s == Entry(i, e) || (s == Indirect(i) && !ind))
    ensures Inv(v) && v.g == im0.g && Addr(im0, s) in v.owner && v.owner[Addr(im0, s)] == Dead
  {
    NextIsDead(im0, i, d, e, ind, s);
  }

  lemma StepRemaining(im0: Image, i: nat, d: nat, e: nat, ind: bool, s: Slot, d': nat, e': nat, ind': bool)
    requires Inv(im0) && i < |im0.len| && Addr(im0, s) != 0
    requires || (s == Direct(i, d) && d' == d + 1 && e' == e && ind' == ind)
             || (s == Entry(i, e) && d' == d && e' == e + 1 && ind' == ind)
             || (s == Indirect(i) && !ind && d' == d && e' == e && ind')
    ensures Remaining(im0, i, d', e', ind') == Remaining(im0, i, d, e, ind) - {Addr(im0, s)}
  {
    hide BitmapExact, FreeBlocksZero, NoHoles, TailZero;
    forall c | c in im0.owner
      ensures Gone(im0.owner[c], i, d', e', ind') <==> Gone(im0.owner[c], i, d, e, ind) || c == Addr(im0, s)
    {
      assert im0.owner[c] == s ==> c == Addr(im0, s);
    }
  }

  lemma StepFrame(im0: Image, v: Image, i: nat, b: nat, s: Slot)
    requires Inv(im0) && i < |im0.len| && Inv(v) && v.g == im0.g && b in v.owner
    requires b == Addr(im0, s) != 0
    ensures forall c :: 0 <= c < im0.g.ninodes / IPB + 3 ==> Free(v, b).disk[c] == v.disk[c]
    ensures s != Indirect(i) && Addr(im0, Indirect(i)) != 0 ==>
              Addr(im0, Indirect(i)) < |v.disk|
                  && Free(v, b).disk[Addr(im0, Indirect(i))] == v.disk[Addr(im0, Indirect(i))]
  {
    var ind := Addr(im0, Indirect(i));
    assert ind != 0 ==> ind in im0.owner && im0.owner[ind] == Indirect(i);
    assert b in im0.owner && im0.owner[b] == s;
  }

  /** Everything freed, the record written back. */
  lemma TruncateEnd(im0: Image, v: Image, i: nat)
    requires Quiet(im0) && Synced(im0) && i < |im0.len| && Addr(im0, Indirect(i)) < |im0.disk|
    requires Truncating(im0, v, i, NDIRECT, NINDIRECT, true)
    ensures Truncated(im0, SetSize(v, i, 0), i)
  {
    hide Refs, Owns, BitmapExact, FreeBlocksZero, TailZero, NoHoles, GetInode, PutInode, ByteAt, Needed, Remaining;
    var im := SetSize(v, i, 0);
    SetRecordKeepsInv(v, i, v.inodes[i].(size := 0));
    AllGone(im0, i);
    TruncateSyncs(im0, v, i);
    assert OthersSame(im0, im, i) by {
      forall j: nat | j < |im.len| && j != i
        ensures Data(im, j, im.len[j]) == Data(im0, j, im0.len[j])
      {
        assert forall p: nat :: ByteAt(im, j, p) == ByteAt(im0, j, p);
      }
    }
  }

  lemma AllGone(im0: Image, i: nat)
    requires Inv(im0) && Settled(im0)
    ensures Remaining(im0, i, NDIRECT, NINDIRECT, true) == map b | b in im0.owner
            && !OwnedBy(im0.owner[b], i) :: im0.owner[b]
  {
    hide BitmapExact, FreeBlocksZero, TailZero, NoHoles;
    forall c | c in im0.owner
      ensures Gone(im0.owner[c], i, NDIRECT, NINDIRECT, true) <==> OwnedBy(im0.owner[c], i)
    {
      assert Addr(im0, im0.owner[c]) == c;
    }
  }

  lemma TruncateSyncs(im0: Image, v: Image, i: nat)
    requires Quiet(im0) && Synced(im0) && i < |im0.len| && Addr(im0, Indirect(i)) < |im0.disk|
    requires Truncating(im0, v, i, NDIRECT, NINDIRECT, true)
    requires Shape(SetSize(v, i, 0))
    ensures Synced(SetSize(v, i, 0))
  {
    hide Refs, Owns, BitmapExact, FreeBlocksZero, NoHoles, TailZero, GetInode, PutInode, ByteAt, Needed, Remaining,
         Returned, FreeCount;
    forall j: nat | j < |v.inodes| && j != i
      ensures v.inodes[j] == im0.inodes[j] && GetInode(v.disk[InodeBlock(j)], j % IPB) == v.inodes[j]
    {
      assert im0.inodes[j] == v.inodes[j];
      assert InodeBlock(j) < im0.g.ninodes / IPB + 3;
    }
    UpdateSyncs(v, SetSize(v, i, 0), i);
  }

  /** What itrunc(i) achieves: the file is empty and exactly its blocks are free again. */
  ghost predicate Truncated(im0: Image, im: Image, i: nat) {
    && Quiet(im) && Synced(im) && im.g == im0.g
    && i < |im0.inodes| == |im.inodes| && |im0.len| == |im0.inodes|
    && im.inodes[i] == im0.inodes[i].(size := 0, addrs := NoAddrs())
    && OthersSame(im0, im, i)
    && im.owner == (map b | b in im0.owner && !OwnedBy(im0.owner[b], i) :: im0.owner[b])
    && FreeCount(im) == FreeCount(im0) + AllBlocks(im0.inodes[i].size)
  }
}
