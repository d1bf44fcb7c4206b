/** tools/mkfs.c: the initial image satisfies the invariant the kernel relies on. */
module Mkfs {
  import opened Bytes
  import opened FsImage
  import opened DiskInode
  import opened FileWrite

  /** A bitmap block whose first n bits are set: what balloc(used) of mkfs builds. */
  function UsedBits(n: nat): Block
    requires n <= BPB
  {
    if n == 0 then ZeroBlock() else SetBit(UsedBits(n - 1), n - 1)
  }

  lemma {:induction false} UsedBitsSet(n: nat)
    requires n <= BPB
    ensures forall j :: 0 <= j < BPB ==> (Bit(UsedBits(n), j) <==> j < n)
  {
    if n == 0 {
      forall j | 0 <= j < BPB
        ensures !Bit(UsedBits(0), j)
      {
        ZeroBits(j % 8);
      }
    } else {
      UsedBitsSet(n - 1);
      BitOfSetBit(UsedBits(n - 1), n - 1);
    }
  }

  lemma {:induction false} ZeroBits(k: nat)
    ensures !TestBit(0, k)
  {
    if k > 0 {
      ZeroBits(k - 1);
    }
  }

  function FreeInode(): Inode {
    Inode(0, 0, 0, 0, 0, NoAddrs())
  }

  function InitialBlock(g: Geometry, sb: Block, b: int): Block
    requires g.Valid() && g.DataStart() < BPB
  {
    if b == 1 then sb else if b == g.ninodes / IPB + 3 then UsedBits(g.DataStart()) else ZeroBlock()
  }

  /** The image of a file system without files, bitmap included. */
  function EmptyImage(g: Geometry, sb: Block): Image
    requires g.Valid() && g.DataStart() < BPB
  {
    Image(g, seq(g.size, b requires g.Valid() && g.DataStart() < BPB => InitialBlock(g, sb, b)),
          seq(g.ninodes, _ => FreeInode()), map[], seq(g.ninodes, _ => 0))
  }

  lemma EmptyImageInv(g: Geometry, sb: Block)
    requires g.Valid() && g.DataStart() < BPB && Word(sb, 0) == g.size && Word(sb, 2) == g.ninodes
    ensures Quiet(EmptyImage(g, sb)) && Synced(EmptyImage(g, sb))
  {
    hide UsedBits, BitAt, Addr, ByteAt, GetInode;
    EmptyNoAddrs(g, sb);
    EmptyBitmap(g, sb);
    EmptyNeeds(g, sb);
    EmptySynced(g, sb);
  }

  lemma EmptyNeeds(g: Geometry, sb: Block)
    requires g.Valid() && g.DataStart() < BPB
    ensures forall s :: !Needed(EmptyImage(g, sb), s)
  {
    hide UsedBits;
  }

  lemma EmptySynced(g: Geometry, sb: Block)
    requires g.Valid() && g.DataStart() < BPB && Shape(EmptyImage(g, sb))
    ensures Synced(EmptyImage(g, sb))
  {
    hide UsedBits;
    var im := EmptyImage(g, sb);
    ZeroInode();
    forall i: nat | i < |im.inodes|
      ensures GetInode(im.disk[InodeBlock(i)], i % IPB) == im.inodes[i]
    {
      assert im.disk[InodeBlock(i)] == ZeroBlock();
    }
  }

  lemma ZeroInode()
    ensures forall k :: 0 <= k < IPB ==> GetInode(ZeroBlock(), k) == FreeInode()
  {
    forall k | 0 <= k < IPB
      ensures GetInode(ZeroBlock(), k) == FreeInode()
    {
      assert GetInode(ZeroBlock(), k).addrs == NoAddrs();
    }
  }

  lemma EmptyNoAddrs(g: Geometry, sb: Block)
    requires g.Valid() && g.DataStart() < BPB
    ensures forall s :: Addr(EmptyImage(g, sb), s) == 0
    ensures forall i: nat, p: nat :: ByteAt(EmptyImage(g, sb), i, p) == 0
  {
    hide UsedBits;
  }

  lemma EmptyBitmap(g: Geometry, sb: Block)
    requires g.Valid() && g.DataStart() < BPB
    ensures forall b: nat {:trigger BitSet(EmptyImage(g, sb), b)} :: b < g.size ==>
            (BitSet(EmptyImage(g, sb), b) <==> b < g.DataStart())
  {
    var im := EmptyImage(g, sb);
    UsedBitsSet(g.DataStart());
    UsedBitsSet(0);
    forall b: nat | b < g.size
      ensures BitSet(im, b) <==> b < g.DataStart()
    {
      if b >= BPB {
        assert im.disk[g.BitmapBlock(b)] == UsedBits(0);
      }
    }
  }

  /** Handing out the next block in order is balloc on the image whose bitmap marks the blocks below it. */
  lemma NextIsFirstClear(im: Image, free: nat)
    requires Inv(im) && (forall b :: b in im.owner <==> im.g.DataStart() <= b < free)
    requires im.g.DataStart() <= free < im.g.size
    ensures !BitSet(im, free)
  {
    assert BitSet(im, free) <==> free < im.g.DataStart() || free in im.owner;
  }

  /** The bitmap that is going to be written has one bit more. */
  lemma TakenBits(im: Image, disk: seq<Block>, free: nat)
    requires Shape(im) && free < im.g.size && free < BPB
    requires im.g.ninodes / IPB + 3 < |disk| && im.disk == disk[im.g.ninodes / IPB + 3 := UsedBits(free)]
    ensures im.g.BitmapBlock(free) < |im.disk|
            && Take(im, free).disk == disk[im.g.ninodes / IPB + 3 := UsedBits(free + 1)]
  {
    hide SetBit;
    assert im.g.BitmapBlock(free) == im.g.ninodes / IPB + 3 && free % BPB == free;
  }

  lemma EmptyImageDisk(g: Geometry, sb: Block, d: seq<Block>)
    requires g.Valid() && g.DataStart() < BPB && |d| == g.size && forall b :: 0 <= b < |d| ==> d[b] == ZeroBlock()
    ensures EmptyImage(g, sb).disk == d[1 := sb][g.ninodes / IPB + 3 := UsedBits(g.DataStart())]
  {
    hide UsedBits;
  }

  /** wsect(i, zeroes) for every sector. */
  method Zeroes(n: nat) returns (d: seq<Block>)
    ensures |d| == n && forall b :: 0 <= b < n ==> d[b] == ZeroBlock()
  {
    d := [];
    var i := 0;
    while i < n
      invariant i <= n && |d| == i
      invariant forall b :: 0 <= b < i ==> d[b] == ZeroBlock()
    {
      d := d + [ZeroBlock()];
      i := i + 1;
    }
  }

  /** struct superblock in an otherwise zero block. */
  method EncodeSb(size: uint, nblocks: uint, ninodes: uint) returns (sb: Block)
    ensures Word(sb, 0) == size && Word(sb, 1) == nblocks && Word(sb, 2) == ninodes
  {
    hide Word, SetWord;
    WordOfSetWord(ZeroBlock(), 0, size);
    sb := SetWord(ZeroBlock(), 0, size);
    WordOfSetWord(sb, 1, nblocks);
    sb := SetWord(sb, 1, nblocks);
    WordOfSetWord(sb, 2, ninodes);
    sb := SetWord(sb, 2, ninodes);
  }

  /**
   mkfs's globals. `v` is the image being built as the kernel will see it: with the bitmap that balloc(usedblocks)
   is going to write at the end.
   */
  class Builder {
    var disk: seq<Block>
    var freeblock: nat
    var usedblocks: nat
    var freeinode: nat
    const g: Geometry
    ghost var v: Image

    ghost predicate Valid()
      reads this
    {
      && Inv(v) && Settled(v) && v.g == g
      && freeblock == usedblocks && g.DataStart() <= freeblock < BPB && freeblock <= g.size && 1 <= freeinode
      && InOrder(v, freeblock)
      && |disk| == g.size && v.disk == disk[g.ninodes / IPB + 3 := UsedBits(freeblock)]
      && (forall i :: freeinode <= i < |v.inodes| ==> v.inodes[i] == FreeInode())
    }

    /** mkfs(nblocks, ninodes, size); its assert is the first requires. */
    constructor (nblocks: uint, ninodes: uint, size: uint)
      requires nblocks + ninodes / IPB + 3 + (size / BPB + 1) == size
      requires ninodes >= 1 && size - nblocks < BPB
      ensures Valid() && Quiet(v) && Synced(v) && g == Geometry(size, ninodes)
      ensures v.owner == map[] && v.inodes == seq(ninodes, _ => FreeInode()) && freeinode == 1
              && freeblock == g.DataStart()
    {
      hide Refs, Owns, BitmapExact, FreeBlocksZero, NoHoles, TailZero, UsedBits, Superblock, GetInode;
      var bitblocks := size / (512 * 8) + 1;
      var used := ninodes / IPB + 3 + bitblocks;
      usedblocks := used;
      freeblock := used;
      freeinode := 1;
      g := Geometry(size, ninodes);
      var d := Zeroes(nblocks + used);
      var sb := EncodeSb(size, nblocks, ninodes);
      disk := d[1 := sb];
      v := EmptyImage(Geometry(size, ninodes), sb);
      EmptyImageInv(Geometry(size, ninodes), sb);
      new;
      EmptyImageDisk(g, sb, d);
    }

    /** freeblock++, usedblocks++ (no check against the size of the image: hence the requires). */
    method NextBlock() returns (b: uint)
      requires Inv(v) && v.g == g && freeblock == usedblocks && g.DataStart() <= freeblock < g.size
               && freeblock + 1 < BPB
      requires forall b :: b in v.owner <==> g.DataStart() <= b < freeblock
      requires |disk| == g.size && g.ninodes / IPB + 3 < |disk|
               && v.disk == disk[g.ninodes / IPB + 3 := UsedBits(freeblock)]
      modifies this`freeblock, this`usedblocks, this`v
      ensures b == old(freeblock) && freeblock == usedblocks == b + 1
      ensures !BitSet(old(v), b) && v == Take(old(v), b) && Inv(v)
      ensures forall c :: c in v.owner <==> g.DataStart() <= c < freeblock
      ensures v.disk == disk[g.ninodes / IPB + 3 := UsedBits(freeblock)]
    {
      hide Refs, Owns, BitmapExact, FreeBlocksZero, NoHoles, TailZero, Addr, ByteAt, Needed, FreeCount, BitAt,
           UsedBits, SetBit, BitSet;
      NextIsFirstClear(v, freeblock);
      TakenBits(v, disk, freeblock);
      TakeKeepsInv(v, freeblock);
      b := freeblock;
      v := Take(v, b);
      freeblock := freeblock + 1;
      usedblocks := usedblocks + 1;
    }

    /** A direct block: mkfs.c:344-349. */
    method MapDirectBlock(i: nat, din: Inode, fbn: nat) returns (din': Inode, x: uint)
      requires Valid() && i < |v.inodes| && v.inodes[i] == din && fbn < NDIRECT && i < freeinode
      requires fbn < Blocks(v.len[i]) || (CanExtend(v, i, fbn) && freeblock + 1 < BPB)
      modifies this
      ensures Valid() && Mapped(old(v), v, i, fbn) && din' == v.inodes[i] && x == Addr(v, DataSlot(i, fbn))
      ensures freeinode == old(freeinode)
      ensures forall b :: 0 <= b < g.ninodes / IPB + 3 ==> disk[b] == old(disk[b])
      ensures freeblock <= old(freeblock) + 1
    {
      hide Refs, Owns, BitmapExact, FreeBlocksZero, NoHoles, TailZero, SameBytes, UsedBits, ByteAt;
      din' := din;
      ghost var v0 := v;
      FreeLeft(v, freeblock);
      MapSlotIff(v, i, fbn);
      if din'.addrs[fbn] == 0 {
        var b := NextBlock();
        din' := SetAddr(din', fbn, b);
        MapDirect(v0, i, fbn, b);
        v := StoreDirect(v, i, fbn, b);
      } else {
        MapExisting(v, i, fbn);
      }
      x := din'.addrs[fbn];
    }

    /** Block fbn of inode i, whose record is din: mkfs.c:344-364. */
    method MapBlock(i: nat, din: Inode, fbn: nat) returns (din': Inode, x: uint)
      requires Valid() && i < |v.inodes| && v.inodes[i] == din && fbn < MAXFILE && i < freeinode
      requires fbn < Blocks(v.len[i]) || (CanExtend(v, i, fbn) && freeblock + (if fbn == NDIRECT then 2 else 1) < BPB)
      modifies this
      ensures Valid() && Mapped(old(v), v, i, fbn) && din' == v.inodes[i] && x == Addr(v, DataSlot(i, fbn))
      ensures freeinode == old(freeinode)
      ensures forall b :: 0 <= b < g.ninodes / IPB + 3 ==> disk[b] == old(disk[b])
      ensures freeblock <= old(freeblock) + 2
    {
      if fbn < NDIRECT {
        din', x := MapDirectBlock(i, din, fbn);
      } else {
        din', x := MapIndirect(i, din, fbn - NDIRECT);
      }
    }

    /** The indirect block of inode i, allocated if there is none: mkfs.c:351-355. */
    method LoadIndirect(i: nat, din: Inode, ghost k: nat) returns (ind: uint)
      requires Valid() && i < |v.inodes| && v.inodes[i] == din && k < NINDIRECT
      requires NDIRECT + k < Blocks(v.len[i])
               || (CanExtend(v, i, NDIRECT + k) && freeblock + (if k == 0 then 2 else 1) < BPB)
      modifies this`freeblock, this`usedblocks, this`v
      ensures Inv(v) && v.g == g && freeblock == usedblocks && old(freeblock) <= freeblock <= old(freeblock) + 1
      ensures forall c :: c in v.owner <==> g.DataStart() <= c < freeblock
      ensures v.disk == disk[g.ninodes / IPB + 3 := UsedBits(freeblock)]
      ensures g.DataStart() <= ind < |disk| && disk[ind] == v.disk[ind]
      ensures if din.addrs[NDIRECT] != 0 then v == old(v) && freeblock == old(freeblock)
              && ind == din.addrs[NDIRECT] else
                k == 0 && ind == old(freeblock) && !BitSet(old(v), ind) && v == Take(old(v), ind)
                    && disk[ind] == ZeroBlock() && FreeCount(v) > 0 && CanExtend(old(v), i, NDIRECT)
    {
      hide Refs, Owns, BitmapExact, FreeBlocksZero, NoHoles, TailZero, SameBytes, UsedBits, ByteAt, SetBit, Blocks;
      ghost var v0 := v;
      FreeLeft(v, freeblock);
      assert din.addrs[NDIRECT] == Addr(v, Indirect(i));
      MapSlotIff(v, i, NDIRECT + k);
      if din.addrs[NDIRECT] == 0 {
        ind := NextBlock();
        FreshIndirect(v0, i, k, ind);
      } else {
        ind := din.addrs[NDIRECT];
        IndirectInRange(v, i);
      }
    }

    /** A new block for entry k of indirect block ind: mkfs.c:358-362. */
    method AddEntry(i: nat, k: nat, ind: uint, ghost v0: Image) returns (x: uint)
      requires Inv(v0) && Settled(v0) && v0.g == g && i < |v0.inodes| && CanExtend(v0, i, NDIRECT + k) && k < NINDIRECT
      requires if v0.inodes[i].addrs[NDIRECT] != 0 then v == v0 && ind == v0.inodes[i].addrs[NDIRECT] && k > 0 else
                 k == 0 && ind < g.size && !BitSet(v0, ind) && v == Take(v0, ind)
      requires Inv(v) && freeblock == usedblocks && g.DataStart() <= freeblock < g.size && freeblock + 1 < BPB
      requires forall c :: c in v.owner <==> g.DataStart() <= c < freeblock
      requires |disk| == g.size && g.DataStart() <= ind < |disk|
               && v.disk == disk[g.ninodes / IPB + 3 := UsedBits(freeblock)]
      modifies this
      ensures Mapped(v0, v, i, NDIRECT + k) && x == Addr(v, Entry(i, k))
      ensures v.inodes == if v0.inodes[i].addrs[NDIRECT] != 0 then v0.inodes
              else v0.inodes[i := SetAddr(v0.inodes[i], NDIRECT, ind)]
      ensures freeblock == usedblocks == old(freeblock) + 1 && freeinode == old(freeinode)
      ensures forall c :: c in v.owner <==> g.DataStart() <= c < freeblock
      ensures |disk| == g.size && v.disk == disk[g.ninodes / IPB + 3 := UsedBits(freeblock)]
      ensures forall b :: 0 <= b < g.DataStart() ==> disk[b] == old(disk[b])
    {
      hide Refs, Owns, BitmapExact, FreeBlocksZero, NoHoles, TailZero, SameBytes, UsedBits, ByteAt, Mapped, SetWord,
           Word, SetBit, Blocks, AllBlocks, Settled, FreeCount, BitAt;
      IndirectOwned(v, v0, i, ind);
      x := NextBlock();
      ghost var v1 := v;
      var a := disk[ind];
      disk := disk[ind := SetWord(a, k, x)];
      if v0.inodes[i].addrs[NDIRECT] != 0 {
        MapEntry(v0, i, k, x);
        v := StoreEntry(v, i, k, x);
      } else {
        MapFirstEntry(v0, i, ind, x);
        v := StoreFirstEntry(v, i, ind, x);
      }
      assert v.disk == disk[g.ninodes / IPB + 3 := UsedBits(freeblock)];
      assert x in v1.owner && ind in v1.owner && v.owner.Keys == v1.owner.Keys;
    }

    method MapIndirect(i: nat, din: Inode, k: nat) returns (din': Inode, x: uint)
      requires Valid() && i < |v.inodes| && v.inodes[i] == din && k < NINDIRECT && i < freeinode
      requires NDIRECT + k < Blocks(v.len[i])
               || (CanExtend(v, i, NDIRECT + k) && freeblock + (if k == 0 then 2 else 1) < BPB)
      modifies this
      ensures Valid() && Mapped(old(v), v, i, NDIRECT + k) && din' == v.inodes[i] && x == Addr(v, Entry(i, k))
      ensures freeinode == old(freeinode)
      ensures forall b :: 0 <= b < g.ninodes / IPB + 3 ==> disk[b] == old(disk[b])
      ensures freeblock <= old(freeblock) + 2
    {
      hide Refs, Owns, BitmapExact, FreeBlocksZero, NoHoles, TailZero, SameBytes, UsedBits, ByteAt, Mapped, SetWord,
           Word, SetBit, Blocks, AllBlocks, Settled, FreeCount, BitAt, Take, FreeInode, CanExtend, Addr, Needed;
      ghost var v0 := v;
      var ind := LoadIndirect(i, din, k);
      din' := if din.addrs[NDIRECT] == 0 then SetAddr(din, NDIRECT, ind) else din;
      FreeLeft(v, freeblock);
      x := Word(disk[ind], k);
      EntryRead(v0, v, i, k, ind);
      if x == 0 {
        x := AddEntry(i, k, ind, v0);
        MappedInv(v0, v, i, NDIRECT + k);
      } else {
        MapExisting(v, i, NDIRECT + k);
      }
    }

    /** A finished file system image, but for the bitmap: what add_dir leaves. */
    ghost predicate Idle()
      reads this
    {
      Valid() && Quiet(v) && Synced(v)
    }

    method Rinode(i: nat) returns (din: Inode)
      requires Idle() && i < |v.inodes|
      ensures din == v.inodes[i]
    {
      hide UsedBits, Refs, Owns, BitmapExact, FreeBlocksZero, NoHoles, TailZero;
      var bn := InodeBlock(i);
      assert disk[bn] == v.disk[bn] && GetInode(v.disk[bn], i % IPB) == v.inodes[i];
      din := GetInode(disk[bn], i % IPB);
    }

    /** din goes to its place on disk. */
    method Winode(i: nat, din: Inode)
      requires Shape(v) && v.g == g && |disk| == g.size && i < |v.inodes| && freeblock <= BPB
               && v.disk == disk[g.ninodes / IPB + 3 := UsedBits(freeblock)]
      modifies this`disk, this`v
      ensures v == SetRecord(old(v), i, din)
      ensures |disk| == g.size && v.disk == disk[g.ninodes / IPB + 3 := UsedBits(freeblock)]
    {
      hide UsedBits, PutInode;
      var bn := InodeBlock(i);
      assert v.disk[bn] == disk[bn];
      disk := disk[bn := PutInode(disk[bn], i % IPB, din)];
      v := SetRecord(v, i, din);
    }

    /** New inode with one link and no contents; the caller must not run out of inodes. */
    method Ialloc(typ: ushort) returns (inum: nat)
      requires Idle() && freeinode < g.ninodes
      modifies this
      ensures Idle() && inum == old(freeinode) && freeinode == inum + 1 && freeblock == old(freeblock)
      ensures RecordSet(old(v), v, inum, Inode(typ, 0, 0, 1, 0, NoAddrs()))
    {
      hide Refs, Owns, BitmapExact, FreeBlocksZero, NoHoles, TailZero, UsedBits, PutInode, GetInode, ByteAt;
      inum := freeinode;
      freeinode := freeinode + 1;
      var din := Inode(typ, 0, 0, 1, 0, NoAddrs());
      SetRecordDone(v, inum, din);
      Winode(inum, din);
    }

    /** The loop of iappend. */
    method AppendBlocks(i: nat, din: Inode, p: seq<byte>) returns (din': Inode)
      requires Idle() && i < |v.inodes| && i < freeinode && v.inodes[i] == din && din.size + |p| <= MAXBYTES
      requires Room(v, i, din.size + |p|) && freeblock + AllBlocks(din.size + |p|) - AllBlocks(din.size) < BPB
      modifies this
      ensures Valid() && Written(old(v), v, i, din.size, p, |p|) && din' == v.inodes[i] && freeinode == old(freeinode)
    {
      hide Refs, Owns, BitmapExact, FreeBlocksZero, NoHoles, TailZero, UsedBits, GetInode, ByteAt, FreeCount, Settled,
           SameBytes, Mapped, Blocks, AllBlocks, Room, Synced, CanExtend, WriteData, Addr, Superblock, InOrder,
           FreeInode;
      ghost var v0 := v;
      SizeIsLen(v, i);
      NothingWritten(v, i, din.size, p);
      din' := din;
      var tot, off := 0, din.size;
      while tot < |p|
        invariant Valid() && freeinode == old(freeinode) && |v.inodes| == |v0.inodes|
        invariant tot <= |p| && off == din.size + tot && din' == v.inodes[i]
        invariant Written(v0, v, i, din.size, p, tot)
      {
        AppendReady(v0, v, i, p, tot, old(freeblock), freeblock);
        ghost var v1 := v;
        var fbn := off / 512;
        var n1 := if |p| - tot < (fbn + 1) * 512 - off then |p| - tot else (fbn + 1) * 512 - off;
        ghost var v2;
        din', v2 := AppendChunk(i, din', fbn, off - fbn * 512, p[tot..tot + n1]);
        WriteStep(v0, v1, v2, i, din.size, p, tot);
        tot, off := tot + n1, off + n1;
      }
    }

    method AppendChunk(i: nat, din: Inode, fbn: nat, at: nat, s: seq<byte>) returns (din': Inode, ghost v1: Image)
      requires Valid() && i < |v.inodes| && i < freeinode && v.inodes[i] == din && fbn < MAXFILE && at + |s| <= 512
      requires fbn < Blocks(v.len[i]) || (CanExtend(v, i, fbn) && freeblock + (if fbn == NDIRECT then 2 else 1) < BPB)
      requires fbn * 512 + at <= v.len[i]
      modifies this
      ensures Mapped(old(v), v1, i, fbn) && Addr(v1, DataSlot(i, fbn)) < |v1.disk| && v == WriteData(v1, i, fbn, at, s)
      ensures Valid() && freeinode == old(freeinode) && din' == v.inodes[i] && |v.inodes| == |old(v).inodes|
    {
      hide Refs, Owns, BitmapExact, FreeBlocksZero, NoHoles, TailZero, UsedBits, ByteAt, SameBytes, Splice, FreeCount,
           Settled, AllBlocks;
      var x;
      din', x := MapBlock(i, din, fbn);
      v1 := v;
      WriteDataKeepsInv(v1, i, fbn, at, s);
      disk := disk[x := Splice(disk[x], at, s)];
      v := WriteData(v, i, fbn, at, s);
      SameOwnerSettled(v1, v);
    }

    /** iappend(inum, p): the bytes of p are added at the end of the file. */
    method Iappend(i: nat, p: seq<byte>)
      requires Idle() && i < |v.inodes| && i < freeinode && v.inodes[i].typ != 0 && v.inodes[i].size + |p| <= MAXBYTES
      requires Room(v, i, v.inodes[i].size + |p|)
               && freeblock + AllBlocks(v.inodes[i].size + |p|) - AllBlocks(v.inodes[i].size) < BPB
      modifies this
      ensures Idle() && freeinode == old(freeinode)
      ensures i < |v.inodes| && Data(v, i, v.inodes[i].size) == Data(old(v), i, old(v).inodes[i].size) + p
      ensures OthersSame(old(v), v, i)
      ensures v.inodes[i] == old(v).inodes[i].(size := v.inodes[i].size, addrs := v.inodes[i].addrs)
      ensures freeblock == old(freeblock) + AllBlocks(v.inodes[i].size) - AllBlocks(old(v).inodes[i].size)
    {
      hide Refs, Owns, BitmapExact, FreeBlocksZero, NoHoles, TailZero, UsedBits, GetInode, PutInode, ByteAt,
           FreeCount, Settled, Data, AllBlocks, Blocks, Superblock, FreeInode;
      ghost var v0 := v;
      SizeIsLen(v, i);
      FreeLeft(v, freeblock);
      var din := Rinode(i);
      var din' := AppendBlocks(i, din, p);
      FreeLeft(v, freeblock);
      ghost var v1 := v;
      AppendEnd(v0, v1, i, p);
      Winode(i, din'.(size := din.size + |p|));
      SetRecordKeepsInv(v1, i, v1.inodes[i].(size := din.size + |p|));
      SameOwnerSettled(v1, v);
    }

    /**
     The end of add_dir (mkfs.c:188-193): a directory's size goes up to a block boundary, always by at least one byte.
     */
    method FixDirSize(i: nat)
      requires Idle() && i < |v.inodes| && i < freeinode && v.inodes[i].typ != 0 && v.inodes[i].size + 512 <= MAXBYTES
      modifies this
      ensures v == RoundUp(old(v), i) && freeinode == old(freeinode)
      ensures Idle() <==> old(v).inodes[i].size % 512 != 0
    {
      hide Refs, Owns, BitmapExact, FreeBlocksZero, NoHoles, TailZero, UsedBits, PutInode, GetInode, ByteAt;
      ghost var v0 := v;
      SizeIsLen(v, i);
      var din := Rinode(i);
      var off := din.size;
      off := (off / BSIZE + 1) * BSIZE;
      Winode(i, din.(size := off));
      v := v.(len := v.len[i := off]);
      RoundUpIff(v0, i);
    }

    /** balloc(usedblocks): the bitmap is written last, and then the disk is an image the kernel can mount. */
    method Balloc()
      requires Idle()
      modifies this`disk
      ensures disk == v.disk && Quiet(Image(g, disk, v.inodes, v.owner, v.len))
              && Synced(Image(g, disk, v.inodes, v.owner, v.len))
    {
      hide Refs, Owns, BitmapExact, FreeBlocksZero, NoHoles, TailZero, ByteAt, GetInode, SetBit, Quiet, Synced;
      var buf := ZeroBlock();
      var i := 0;
      while i < usedblocks
        invariant i <= usedblocks && buf == UsedBits(i)
      {
        buf := SetBit(buf, i);
        i := i + 1;
      }
      disk := disk[g.ninodes / IPB + 3 := buf];
      assert disk == v.disk;
      assert Image(g, disk, v.inodes, v.owner, v.len) == v;
    }
  }

  /** The image after a directory's size was rounded up. */
  function RoundUp(im: Image, i: nat): Image
    requires Shape(im) && i < |im.inodes| == |im.len| && im.inodes[i].size + 512 <= MAXBYTES
  {
    SetSize(im, i, (im.inodes[i].size / 512 + 1) * 512).(len := im.len[i := (im.inodes[i].size / 512 + 1) * 512])
  }

  /**
   Rounding keeps the invariant exactly when the size was not at a block boundary already; otherwise it opens a hole.
   */
  lemma RoundUpIff(im: Image, i: nat)
    requires Quiet(im) && Synced(im) && i < |im.inodes| && im.inodes[i].typ != 0 && im.inodes[i].size + 512 <= MAXBYTES
    ensures |im.len| == |im.inodes|
    ensures Quiet(RoundUp(im, i)) && Synced(RoundUp(im, i)) <==> im.inodes[i].size % 512 != 0
    ensures im.inodes[i].size % 512 == 0 ==> !Inv(RoundUp(im, i))
  {
    hide Refs, Owns, BitmapExact, FreeBlocksZero, TailZero, GetInode, PutInode, ByteAt, Settled, Addr, Needed;
    SizeIsLen(im, i);
    var n := (im.inodes[i].size / 512 + 1) * 512;
    SetRecordKeepsInv(im, i, im.inodes[i].(size := n));
    if im.inodes[i].size % 512 == 0 {
      HoleAfterRounding(im, i);
    } else {
      RoundUpInv(im, i);
      UpdateSyncs(im, RoundUp(im, i), i);
      SameOwnerSettled(im, RoundUp(im, i));
    }
  }

  lemma RoundUpAddrs(im: Image, i: nat)
    requires Inv(im) && i < |im.inodes| && im.inodes[i].size + 512 <= MAXBYTES
    ensures forall s :: Addr(RoundUp(im, i), s) == Addr(im, s)
  {
    hide PutInode;
    var im' := RoundUp(im, i);
    forall s
      ensures Addr(im', s) == Addr(im, s)
    {
      if s.Entry? && s.inum < |im.inodes| {
        assert Addr(im, Indirect(s.inum)) == im.inodes[s.inum].addrs[NDIRECT];
      }
    }
  }

  lemma RoundUpInv(im: Image, i: nat)
    requires Quiet(im) && i < |im.inodes| && im.inodes[i].size + 512 <= MAXBYTES && im.inodes[i].size % 512 != 0
    ensures Inv(RoundUp(im, i))
  {
    hide PutInode, BitAt, Addr, BitmapExact, FreeBlocksZero, ByteAt, Refs, Owns;
    var im', n := RoundUp(im, i), (im.inodes[i].size / 512 + 1) * 512;
    var im1 := SetSize(im, i, n);
    SetRecordKeepsInv(im, i, im.inodes[i].(size := n));
    assert im'.disk == im1.disk && im'.inodes == im1.inodes && im'.owner == im1.owner && im'.g == im1.g;
    assert im'.len == im1.len[i := n] && Blocks(n) == Blocks(im1.len[i]) && n % 512 == 0;
    LongerInLastBlock(im1, im', i);
  }

  /** Counting the rest of the last block, which is zero, as part of the file. */
  lemma LongerInLastBlock(im: Image, im': Image, i: nat)
    requires Inv(im) && i < |im.len|
    requires im'.disk == im.disk && im'.inodes == im.inodes && im'.owner == im.owner && im'.g == im.g
    requires |im'.len| == |im.len| && im.len[i] <= im'.len[i] <= MAXBYTES
    requires im'.len == im.len[i := im'.len[i]]
    requires Blocks(im'.len[i]) == Blocks(im.len[i])
    ensures Inv(im')
  {
    hide BitAt, Addr, ByteAt;
    forall s
      ensures Addr(im', s) == Addr(im, s) && Needed(im', s) == Needed(im, s)
    {
      SameAddr(im, im', s);
    }
    SameBitmap(im, im');
    forall j: nat, p: nat | j < |im'.len| && im'.len[j] <= p < 512 * Blocks(im'.len[j])
      ensures ByteAt(im', j, p) == 0
    {
      assert ByteAt(im, j, p) == 0;
      SameByteAt(im, im', j, p);
    }
  }

  lemma SameByteAt(im: Image, im': Image, j: nat, p: nat)
    requires im'.disk == im.disk && im'.inodes == im.inodes
    ensures ByteAt(im', j, p) == ByteAt(im, j, p)
  {
    SameAddr(im, im', DataSlot(j, p / 512));
  }

  lemma SameBitmap(im: Image, im': Image)
    requires Shape(im) && Shape(im') && BitmapExact(im) && FreeBlocksZero(im) && Owns(im)
    requires im'.g == im.g && im'.disk == im.disk && im'.owner == im.owner
    requires forall s :: Addr(im', s) == Addr(im, s)
    ensures BitmapExact(im') && FreeBlocksZero(im') && Owns(im')
  {
    hide BitAt, Addr;
    forall b: nat
      ensures BitSet(im', b) == BitSet(im, b)
    {
    }
  }

  lemma SameAddr(im: Image, im': Image, s: Slot)
    requires im'.disk == im.disk && im'.inodes == im.inodes
    ensures Addr(im', s) == Addr(im, s)
  {
  }

  lemma HoleAfterRounding(im: Image, i: nat)
    requires Quiet(im) && i < |im.inodes| && im.inodes[i].size + 512 <= MAXBYTES && im.inodes[i].size % 512 == 0
    ensures !Inv(RoundUp(im, i))
  {
    hide PutInode, Addr, ByteAt;
    var im', s := RoundUp(im, i), DataSlot(i, im.inodes[i].size / 512);
    RoundUpAddrs(im, i);
    assert Addr(im, s) != 0 <==> Needed(im, s);
    assert Needed(im', s) && Addr(im', s) == 0;
  }

  lemma AppendEnd(im0: Image, im: Image, i: nat, p: seq<byte>)
    requires Quiet(im0) && Synced(im0) && i < |im0.inodes| && im0.inodes[i].typ != 0
             && im0.inodes[i].size + |p| <= MAXBYTES
    requires Written(im0, im, i, im0.inodes[i].size, p, |p|)
    ensures i < |im.inodes|
    ensures var im' := SetSize(im, i, im0.inodes[i].size + |p|);
            && Quiet(im') && Synced(im') && OthersSame(im0, im', i)
            && Data(im', i, im'.inodes[i].size) == Data(im0, i, im0.inodes[i].size) + p
  {
    hide Refs, Owns, BitmapExact, FreeBlocksZero, NoHoles, TailZero, ByteAt, GetInode, PutInode, FreeCount, AllBlocks;
    var size := im0.inodes[i].size;
    if p == [] {
      FinishInPlace(im0, im, i, size, p);
      SetRecordDone(im, i, im.inodes[i].(size := size));
      assert Overwrite(Data(im0, i, size), size, p) == Data(im0, i, size) + p;
    } else {
      FinishGrown(im0, im, i, size, p);
    }
  }

  lemma SizeIsLen(im: Image, i: nat)
    requires Quiet(im) && i < |im.inodes|
    ensures |im.len| == |im.inodes| && im.len[i] == im.inodes[i].size
  {
  }

  ghost predicate InOrder(im: Image, free: nat) {
    im.g.DataStart() <= free && forall b :: b in im.owner <==> im.g.DataStart() <= b < free
  }

  /** Staying below one bitmap block for the whole append means there is room for the next block now. */
  lemma AppendReady(im0: Image, im: Image, i: nat, p: seq<byte>, tot: nat, free0: nat, free: nat)
    requires Quiet(im0) && i < |im0.inodes| && tot < |p| && Room(im0, i, im0.inodes[i].size + |p|)
    requires Written(im0, im, i, im0.inodes[i].size, p, tot) && InOrder(im0, free0) && InOrder(im, free)
    requires free0 + AllBlocks(im0.inodes[i].size + |p|) - AllBlocks(im0.inodes[i].size) < BPB
    ensures var off := im0.inodes[i].size + tot; var fbn := off / 512;
            && fbn < MAXFILE && i < |im.len| && off <= im.len[i]
            && (fbn < Blocks(im.len[i]) || (CanExtend(im, i, fbn) && free + (if fbn == NDIRECT then 2 else 1) < BPB))
  {
    hide Refs, Owns, BitmapExact, FreeBlocksZero, NoHoles, TailZero, ByteAt, Settled;
    var off := im0.inodes[i].size + tot;
    SizeIsLen(im0, i);
    MayMap(im0, im, i, im0.inodes[i].size, p, tot);
    FreeLeft(im0, free0);
    FreeLeft(im, free);
    if off / 512 >= Blocks(im.len[i]) {
      BlocksGrow(off, im0.inodes[i].size + |p|);
    }
  }

  /** What the indirect block, which may just have been allocated, says of entry k. */
  lemma EntryRead(v0: Image, v: Image, i: nat, k: nat, ind: nat)
    requires Inv(v0) && i < |v0.inodes| && k < NINDIRECT && ind < |v.disk|
    requires NDIRECT + k < Blocks(v0.len[i]) || CanExtend(v0, i, NDIRECT + k)
    requires if v0.inodes[i].addrs[NDIRECT] != 0 then v == v0 && ind == v0.inodes[i].addrs[NDIRECT]
             else k == 0 && v.disk[ind] == ZeroBlock() && CanExtend(v0, i, NDIRECT)
    ensures var x := Word(v.disk[ind], k);
            && (v0.inodes[i].addrs[NDIRECT] != 0 ==> x == Addr(v0, Entry(i, k)))
            && (if x != 0 then v == v0 && v0.inodes[i].addrs[NDIRECT] != 0 && NDIRECT + k < Blocks(v0.len[i])
                else NDIRECT + k >= Blocks(v0.len[i]) && CanExtend(v0, i, NDIRECT + k) && FreeCount(v0) > 0
                     && (v0.inodes[i].addrs[NDIRECT] != 0 ==> k > 0))
  {
    hide Refs, Owns, BitmapExact, FreeBlocksZero, TailZero, ByteAt, Word;
    ZeroWords();
    MapSlotIff(v0, i, NDIRECT + k);
    ExtendsEntries(v0, i, k);
  }

  lemma ExtendsEntries(im: Image, i: nat, k: nat)
    requires Inv(im) && i < |im.inodes| && k < NINDIRECT
    ensures im.inodes[i].addrs[NDIRECT] != 0 && CanExtend(im, i, NDIRECT + k) ==> k > 0
  {
    assert Needed(im, Indirect(i)) <==> Addr(im, Indirect(i)) != 0;
  }

  lemma MappedInv(im: Image, im': Image, i: nat, bn: nat)
    requires Shape(im) && i < |im.len| && Mapped(im, im', i, bn)
    ensures Inv(im') && Settled(im')
  {
  }

  lemma IndirectOwned(im: Image, im0: Image, i: nat, ind: nat)
    requires Inv(im0) && i < |im0.inodes| && im0.g.BitmapBlock(ind) < |im0.disk|
    requires if im0.inodes[i].addrs[NDIRECT] != 0 then im == im0
             && ind == im0.inodes[i].addrs[NDIRECT] else im == Take(im0, ind)
    ensures ind in im.owner
  {
    if im0.inodes[i].addrs[NDIRECT] != 0 {
      assert Addr(im, Indirect(i)) in im.owner;
    }
  }

  lemma IndirectInRange(im: Image, i: nat)
    requires Inv(im) && i < |im.inodes| && im.inodes[i].addrs[NDIRECT] != 0
    ensures im.g.DataStart() <= im.inodes[i].addrs[NDIRECT] < |im.disk|
  {
    assert Addr(im, Indirect(i)) in im.owner;
  }

  /** Counting free blocks by the next free number. */
  lemma FreeLeft(im: Image, free: nat)
    requires im.g.DataStart() <= free && forall b :: b in im.owner <==> im.g.DataStart() <= b < free
    ensures FreeCount(im) == im.g.size - free
  {
    var owned: set<int> := im.owner.Keys;
    assert |owned| == |im.owner|;
    assert owned == Range(im.g.DataStart(), free);
    RangeSize(im.g.DataStart(), free);
  }

  lemma MapSlotIff(im: Image, i: nat, bn: nat)
    requires Inv(im) && i < |im.len| && bn < MAXFILE
    ensures Addr(im, DataSlot(i, bn)) == 0 <==> bn >= Blocks(im.len[i])
    ensures bn < NDIRECT ==> Addr(im, DataSlot(i, bn)) == im.inodes[i].addrs[bn]
  {
    assert Needed(im, DataSlot(i, bn)) <==> Addr(im, DataSlot(i, bn)) != 0;
  }
}
