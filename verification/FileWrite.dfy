/** What a write does to the image, one block at a time: the proof behind writei. */
module FileWrite {
  import opened Bytes
  import opened FsImage
  import opened DiskInode

  /** c with s put at off; s may run past the end. */
  function Overwrite(c: seq<byte>, off: nat, s: seq<byte>): seq<byte>
    requires off <= |c|
  {
    if off + |s| < |c| then c[..off] + s + c[off + |s|..] else c[..off] + s
  }

  lemma OverwriteAt(c: seq<byte>, off: nat, s: seq<byte>)
    requires off <= |c|
    ensures |Overwrite(c, off, s)| == Max(|c|, off + |s|)
    ensures forall p :: 0 <= p < |Overwrite(c, off, s)| ==>
            Overwrite(c, off, s)[p] == if off <= p < off + |s| then s[p - off] else c[p]
  {
  }

  /** There are enough free blocks to make file i hold at least n bytes. */
  ghost predicate Room(im: Image, i: nat, n: nat)
    requires i < |im.len|
  {
    n <= MAXBYTES && AllBlocks(Max(im.len[i], n)) - AllBlocks(im.len[i]) <= FreeCount(im)
  }

  /** The first tot bytes of src have been written to file i of im0 at off. */
  ghost predicate Written(im0: Image, im: Image, i: nat, off: nat, src: seq<byte>, tot: nat)
    requires Shape(im0) && i < |im0.len| && tot <= |src|
  {
    && Inv(im) && Settled(im) && im.g == im0.g
    && im.len == im0.len[i := Max(im0.len[i], off + tot)]
    && (forall j: nat, p: nat :: ByteAt(im, j, p) ==
          if j == i && off <= p < off + tot then src[p - off]
          else ByteAt(im0, j, p))
    && FreeCount(im) == FreeCount(im0) - (AllBlocks(im.len[i]) - AllBlocks(im0.len[i]))
    && im.inodes == im0.inodes[i := im0.inodes[i].(addrs := im.inodes[i].addrs)]
    && (im.len == im0.len ==> im.inodes == im0.inodes)
    && (forall b :: 0 <= b < im.g.ninodes / IPB + 3 ==> im.disk[b] == im0.disk[b])
  }

  lemma NothingWritten(im: Image, i: nat, off: nat, src: seq<byte>)
    requires Inv(im) && Settled(im) && i < |im.len| && off <= im.len[i]
    ensures Written(im, im, i, off, src, 0)
  {
    assert im.len == im.len[i := Max(im.len[i], off)];
    assert im.inodes == im.inodes[i := im.inodes[i].(addrs := im.inodes[i].addrs)];
  }

  /** writei's call of bmap is in order: the block exists or is the next one. */
  lemma MayMap(im0: Image, im: Image, i: nat, off: nat, src: seq<byte>, tot: nat)
    requires Shape(im0) && i < |im0.len| && off <= im0.len[i] && tot < |src|
    requires Room(im0, i, off + |src|)
    requires Written(im0, im, i, off, src, tot)
    ensures (off + tot) / 512 < MAXFILE
    ensures (off + tot) / 512 < Blocks(im.len[i]) || CanExtend(im, i, (off + tot) / 512)
  {
    var o := off + tot;
    assert im.len[i] >= o;
    if o / 512 >= Blocks(im.len[i]) {
      assert im.len[i] == o == o / 512 * 512;
      BlocksGrow(o, Max(im0.len[i], off + |src|));
    }
  }

  lemma BlocksGrow(a: nat, b: nat)
    requires a % 512 == 0 && a < b
    ensures Blocks(b) >= a / 512 + 1
    ensures AllBlocks(b) - AllBlocks(a) >= if a / 512 == NDIRECT then 2 else 1
  {
  }

  /** Bytes written by this round of the loop. */
  function Chunk(o: nat, left: nat): nat {
    if left < 512 - o % 512 then left else 512 - o % 512
  }

  lemma WriteStep(im0: Image, im: Image, im1: Image, i: nat, off: nat, src: seq<byte>, tot: nat)
    requires Shape(im0) && i < |im0.len| && off <= im0.len[i] && tot < |src| && off + |src| <= MAXBYTES
    requires Written(im0, im, i, off, src, tot)
    requires Mapped(im, im1, i, (off + tot) / 512)
    ensures var o := off + tot; var m := Chunk(o, |src| - tot);
            && Addr(im1, DataSlot(i, o / 512)) < |im1.disk|
            && im.g.DataStart() <= Addr(im1, DataSlot(i, o / 512))
            && Written(im0, WriteData(im1, i, o / 512, o % 512, src[tot..tot + m]), i, off, src, tot + m)
  {
    hide Inv, ByteAt, Needed, Splice, Addr, SameBytes, FreeCount, AllBlocks, Settled;
    var o := off + tot;
    var m := Chunk(o, |src| - tot);
    var bn, at, s := o / 512, o % 512, src[tot..tot + m];
    StepInRange(im, im1, i, o);
    assert o == bn * 512 + at;
    WriteDataBytes(im1, i, bn, at, s);
    WriteDataAddrs(im1, i, bn, at, s);
    WriteDataKeepsInv(im1, i, bn, at, s);
    var im2 := WriteData(im1, i, bn, at, s);
    StepBytes(im0, im, im1, im2, i, off, src, tot, m);
    StepCounts(im0, im, im1, im2, i, off, src, tot, m);
    assert Settled(im2) by {
      SameOwnerSettled(im1, im2);
    }
  }

  lemma SameOwnerSettled(im: Image, im': Image)
    requires Settled(im) && im'.owner == im.owner
    ensures Settled(im')
  {
  }

  lemma StepInRange(im: Image, im1: Image, i: nat, o: nat)
    requires Inv(im) && i < |im.len| && o <= im.len[i] && Mapped(im, im1, i, o / 512)
    ensures o / 512 < Blocks(im1.len[i]) && o <= im1.len[i]
    ensures im1.len[i] == Max(im.len[i], o / 512 * 512 + 1)
  {
  }

  lemma StepBytes(im0: Image, im: Image, im1: Image, im2: Image, i: nat, off: nat, src: seq<byte>, tot: nat, m: nat)
    requires tot + m <= |src|
    requires forall j: nat, p: nat :: ByteAt(im, j, p) ==
               if j == i && off <= p < off + tot then src[p - off]
               else ByteAt(im0, j, p)
    requires SameBytes(im, im1)
    requires forall j: nat, p: nat :: ByteAt(im2, j, p) ==
               if j == i && off + tot <= p < off + tot + m then src[tot..tot + m][p - off - tot]
               else ByteAt(im1, j, p)
    ensures forall j: nat, p: nat :: ByteAt(im2, j, p) ==
              if j == i && off <= p < off + tot + m then src[p - off]
              else ByteAt(im0, j, p)
  {
    hide ByteAt;
    forall j: nat, p: nat
      ensures ByteAt(im2, j, p) == if j == i && off <= p < off + tot + m then src[p - off] else ByteAt(im0, j, p)
    {
      assert ByteAt(im1, j, p) == ByteAt(im, j, p);
    }
  }

  lemma StepCounts(im0: Image, im: Image, im1: Image, im2: Image, i: nat, off: nat, src: seq<byte>, tot: nat, m: nat)
    requires Shape(im0) && i < |im0.len| && off <= im0.len[i] && tot < |src|
    requires m == Chunk(off + tot, |src| - tot)
    requires Written(im0, im, i, off, src, tot)
    requires Mapped(im, im1, i, (off + tot) / 512)
    requires im2.owner == im1.owner && im2.g == im1.g && im2.inodes == im1.inodes
    requires im2.len == im1.len[i := Max(im1.len[i], off + tot + m)]
    ensures im2.len == im0.len[i := Max(im0.len[i], off + tot + m)]
    ensures FreeCount(im2) == FreeCount(im0) - (AllBlocks(im2.len[i]) - AllBlocks(im0.len[i]))
    ensures im2.inodes == im0.inodes[i := im0.inodes[i].(addrs := im2.inodes[i].addrs)]
    ensures im2.len == im0.len ==> im2.inodes == im0.inodes
  {
    hide Refs, Owns, BitmapExact, FreeBlocksZero, NoHoles, TailZero, Addr, ByteAt, Needed, SameBytes, Superblock,
         Settled, Data;
    var o := off + tot;
    assert im1.len == im.len[i := Max(im.len[i], o / 512 * 512 + 1)];
    assert Blocks(im2.len[i]) == Blocks(im1.len[i]);
    if im2.len == im0.len {
      assert im2.len[i] == im0.len[i];
      assert im.len[i] == im0.len[i];
      assert im.len == im0.len;
    }
  }

  /** The image after changing fields of ip other than its block list and iupdate(ip). */
  function SetRecord(im: Image, i: nat, ino: Inode): Image
    requires Shape(im) && i < |im.inodes|
  {
    im.(inodes := im.inodes[i := ino],
        disk := im.disk[InodeBlock(i) := PutInode(im.disk[InodeBlock(i)], i % IPB, ino)])
  }

  function SetSize(im: Image, i: nat, n: uint): Image
    requires Shape(im) && i < |im.inodes|
  {
    SetRecord(im, i, im.inodes[i].(size := n))
  }

  lemma SetRecordKeepsInv(im: Image, i: nat, ino: Inode)
    requires Inv(im) && i < |im.inodes| && ino.addrs == im.inodes[i].addrs
    ensures Inv(SetRecord(im, i, ino))
    ensures forall j: nat, p: nat :: ByteAt(SetRecord(im, i, ino), j, p) == ByteAt(im, j, p)
  {
    var im' := SetRecord(im, i, ino);
    hide PutInode;
    forall s
      ensures Addr(im', s) == Addr(im, s)
    {
      if s.Entry? && s.inum < |im.inodes| {
        assert Addr(im, Indirect(s.inum)) == im.inodes[s.inum].addrs[NDIRECT];
      }
    }
    forall j: nat, p: nat
      ensures ByteAt(im', j, p) == ByteAt(im, j, p)
    {
      assert Addr(im', DataSlot(j, p / 512)) == Addr(im, DataSlot(j, p / 512));
    }
    SetRecordInvParts(im, im', i);
  }

  lemma SetRecordInvParts(im: Image, im': Image, i: nat)
    requires Inv(im) && i < |im.inodes|
    requires im'.g == im.g && im'.owner == im.owner && im'.len == im.len && |im'.inodes| == |im.inodes|
             && |im'.disk| == |im.disk|
    requires forall b :: 0 <= b < |im.disk| && b != InodeBlock(i) ==> im'.disk[b] == im.disk[b]
    requires forall s :: Addr(im', s) == Addr(im, s)
    requires forall j: nat, p: nat :: ByteAt(im', j, p) == ByteAt(im, j, p)
    ensures Inv(im')
  {
    hide ByteAt, Addr, Word;
    forall b: nat | b < im'.g.size
      ensures BitSet(im', b) <==> b < im'.g.DataStart() || b in im'.owner
    {
      assert BitSet(im, b) <==> b < im.g.DataStart() || b in im.owner;
      assert im.g.BitmapBlock(b) != InodeBlock(i);
      assert im'.disk[im.g.BitmapBlock(b)] == im.disk[im.g.BitmapBlock(b)];
    }
    forall s
      ensures Addr(im', s) != 0 <==> Needed(im', s)
    {
      assert Addr(im, s) != 0 <==> Needed(im, s);
    }
    forall j: nat, p: nat | j < |im'.len| && im'.len[j] <= p < 512 * Blocks(im'.len[j])
      ensures ByteAt(im', j, p) == 0
    {
      assert ByteAt(im, j, p) == 0;
    }
  }

  /** What a finished write achieves. */
  ghost predicate WriteDone(im0: Image, im: Image, i: nat, off: nat, src: seq<byte>) {
    && Quiet(im) && Synced(im) && im.g == im0.g
    && i < |im0.inodes| == |im.inodes| && |im0.len| == |im0.inodes| && off <= im0.inodes[i].size
    && im.inodes[i] == im0.inodes[i].(size := im.inodes[i].size, addrs := im.inodes[i].addrs)
    && Data(im, i, im.inodes[i].size) == Overwrite(Data(im0, i, im0.inodes[i].size), off, src)
    && OthersSame(im0, im, i)
    && FreeCount(im) == FreeCount(im0) - (AllBlocks(im.inodes[i].size) - AllBlocks(im0.inodes[i].size))
  }

  lemma WrittenBytes(im0: Image, im: Image, i: nat, off: nat, src: seq<byte>)
    requires Quiet(im0) && i < |im0.inodes| && off <= im0.inodes[i].size
    requires |im.inodes| == |im.len| == |im0.inodes| && im.len == im0.len[i := Max(im0.len[i], off + |src|)]
    requires forall j :: 0 <= j < |im.inodes| && j != i ==> im.inodes[j] == im0.inodes[j]
    requires forall j: nat, p: nat :: ByteAt(im, j, p) ==
               if j == i && off <= p < off + |src| then src[p - off]
               else ByteAt(im0, j, p)
    ensures Data(im, i, im.len[i]) == Overwrite(Data(im0, i, im0.inodes[i].size), off, src)
    ensures OthersSame(im0, im, i)
  {
    hide ByteAt, Refs, Owns, BitmapExact, FreeBlocksZero, NoHoles, TailZero;
    var c, c0 := Data(im, i, im.len[i]), Data(im0, i, im0.len[i]);
    var w := Overwrite(c0, off, src);
    assert |c0| == im0.inodes[i].size && |w| == |c|;
    forall p | 0 <= p < |c|
      ensures c[p] == w[p]
    {
    }
    assert c == w;
    forall j: nat | j < |im.len| && j != i
      ensures Data(im, j, im.len[j]) == Data(im0, j, im0.len[j])
    {
      assert forall p :: 0 <= p < im.len[j] ==> ByteAt(im, j, p) == ByteAt(im0, j, p);
    }
  }

  lemma FinishInPlace(im0: Image, im: Image, i: nat, off: nat, src: seq<byte>)
    requires Quiet(im0) && Synced(im0) && i < |im0.inodes| && off + |src| <= im0.inodes[i].size
    requires Written(im0, im, i, off, src, |src|)
    ensures WriteDone(im0, im, i, off, src) && Quiet(im) && Synced(im)
  {
    hide Refs, Owns, BitmapExact, FreeBlocksZero, NoHoles, TailZero, ByteAt, Overwrite, Data, GetInode;
    assert im.len == im0.len && im.inodes == im0.inodes;
    WrittenBytes(im0, im, i, off, src);
    assert im.inodes[i] == im0.inodes[i].(size := im.inodes[i].size, addrs := im.inodes[i].addrs);
  }

  lemma FinishGrown(im0: Image, im: Image, i: nat, off: nat, src: seq<byte>)
    requires Quiet(im0) && Synced(im0) && i < |im0.inodes| && off <= im0.inodes[i].size < off + |src| <= MAXBYTES
    requires im0.inodes[i].typ != 0
    requires Written(im0, im, i, off, src, |src|)
    ensures WriteDone(im0, SetSize(im, i, off + |src|), i, off, src)
    ensures Quiet(SetSize(im, i, off + |src|)) && Synced(SetSize(im, i, off + |src|))
  {
    hide Refs, Owns, BitmapExact, FreeBlocksZero, NoHoles, TailZero, ByteAt, Overwrite, Data, GetInode, PutInode;
    var im' := SetSize(im, i, off + |src|);
    SetRecordKeepsInv(im, i, im.inodes[i].(size := off + |src|));
    WrittenBytes(im0, im', i, off, src);
    SameOwnerSettled(im, im');
    SetSizeSyncs(im0, im, i, off, src);
  }

  lemma SetSizeSyncs(im0: Image, im: Image, i: nat, off: nat, src: seq<byte>)
    requires Quiet(im0) && Synced(im0) && i < |im0.inodes| && off + |src| <= MAXBYTES
    requires Written(im0, im, i, off, src, |src|) && Shape(SetSize(im, i, off + |src|))
    ensures Synced(SetSize(im, i, off + |src|))
  {
    hide Refs, Owns, BitmapExact, FreeBlocksZero, NoHoles, TailZero, ByteAt, GetInode, PutInode, Settled, FreeCount,
         Blocks, AllBlocks;
    forall j: nat | j < |im.inodes| && j != i
      ensures im.inodes[j] == im0.inodes[j] && GetInode(im.disk[InodeBlock(j)], j % IPB) == im.inodes[j]
    {
      assert im0.inodes[j] == im.inodes[j];
      assert InodeBlock(j) < im.g.ninodes / IPB + 3;
    }
    UpdateSyncs(im, SetSize(im, i, off + |src|), i);
  }

  /** A record change that leaves size and blocks alone keeps everything else, contents included. */
  ghost predicate RecordSet(im0: Image, im: Image, i: nat, ino: Inode) {
    && Quiet(im) && Synced(im) && im.g == im0.g
    && i < |im0.inodes| && im.inodes == im0.inodes[i := ino] && im.owner == im0.owner
    && OthersSame(im0, im, i)
    && ino.size == im0.inodes[i].size && Data(im, i, ino.size) == Data(im0, i, ino.size)
  }

  lemma SetRecordDone(im: Image, i: nat, ino: Inode)
    requires Quiet(im) && Synced(im) && i < |im.inodes|
    requires ino.addrs == im.inodes[i].addrs && ino.size == im.inodes[i].size && (ino.typ == 0 ==> ino.size == 0)
    ensures RecordSet(im, SetRecord(im, i, ino), i, ino)
  {
    SetRecordKeepsInv(im, i, ino);
    hide Refs, Owns, BitmapExact, FreeBlocksZero, NoHoles, TailZero, ByteAt, GetInode, PutInode;
    var im' := SetRecord(im, i, ino);
    SameOwnerSettled(im, im');
    UpdateSyncs(im, im', i);
    forall j: nat | j < |im.len|
      ensures Data(im', j, im.len[j]) == Data(im, j, im.len[j])
    {
      assert forall p: nat :: ByteAt(im', j, p) == ByteAt(im, j, p);
    }
  }
}
