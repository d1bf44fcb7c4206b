/**
 An image of the size that mkfs makes, in which files own every data block. A kernel can mount it; its balloc
 (kernel/fs.c) then hands out a block past the end of the disk.
 */
module FullDisk {
  import opened Bytes
  import opened FsImage
  import opened DiskInode
  import opened Fs
  import opened Mkfs

  const START := 29     // the first data block
  const SPAN := 141     // blocks of a file of full length, with its indirect block

  function G(): Geometry {
    Geometry(1024, 200)
  }

  /** Inodes 1 to 7 are files of full length, inode 8 has the last 8 blocks. */
  function SpanOf(i: nat): nat {
    if 1 <= i <= 7 then SPAN else if i == 8 then 8 else 0
  }

  function LenOf(i: nat): nat {
    if 1 <= i <= 7 then MAXBYTES else if i == 8 then 4096 else 0
  }

  /** The j-th block of inode i: direct blocks, the indirect block, the blocks that it lists. */
  function BlockOf(i: nat, j: nat): (b: uint)
    requires 1 <= i <= 8 && j < SPAN
    ensures b > 0
  {
    START + SPAN * (i - 1) + j
  }

  function SlotOf(i: nat, j: nat): Slot {
    if j < NDIRECT then Direct(i, j) else if j == NDIRECT then Indirect(i) else Entry(i, j - NDIRECT - 1)
  }

  function RecordOf(i: nat): Inode {
    if 1 <= i <= 8 then
      Inode(T_FILE, 0, 0, 1, LenOf(i), seq(13, k requires 0 <= k < 13
          && 1 <= i <= 8 => if k < SpanOf(i) then BlockOf(i, k) else 0))
    else FreeInode()
  }

  /* The blocks */

  /** The first n entries of the indirect block of inode i. */
  function Pointers(i: nat, n: nat): Block
    requires 1 <= i <= 7 && n <= NINDIRECT
  {
    if n == 0 then ZeroBlock() else SetWord(Pointers(i, n - 1), n - 1, BlockOf(i, NDIRECT + n))
  }

  lemma {:induction false} PointersAt(i: nat, n: nat, k: nat)
    requires 1 <= i <= 7 && n <= NINDIRECT && k < NINDIRECT
    ensures Word(Pointers(i, n), k) == if k < n then BlockOf(i, NDIRECT + 1 + k) else 0
  {
    hide Word, SetWord;
    if n == 0 {
      ZeroWords();
    } else {
      PointersAt(i, n - 1, k);
      WordOfSetWord(Pointers(i, n - 1), n - 1, BlockOf(i, NDIRECT + n));
    }
  }

  /** The first n records of inode block c. */
  function Records(c: nat, n: nat): Block
    requires n <= IPB
  {
    if n == 0 then ZeroBlock() else PutInode(Records(c, n - 1), n - 1, RecordOf(IPB * c + n - 1))
  }

  lemma {:induction false} RecordsAt(c: nat, n: nat, k: nat)
    requires k < n <= IPB
    ensures GetInode(Records(c, n), k) == RecordOf(IPB * c + k)
  {
    hide GetInode, PutInode, RecordOf;
    InodeRoundTrip(Records(c, n - 1), n - 1, RecordOf(IPB * c + n - 1));
    if k < n - 1 {
      RecordsAt(c, n - 1, k);
    }
  }

  function Super(): Block {
    SetWord(SetWord(SetWord(ZeroBlock(), 0, 1024), 1, 995), 2, 200)
  }

  lemma SuperIs()
    ensures Word(Super(), 0) == 1024 && Word(Super(), 2) == 200
  {
    hide Word, SetWord;
    WordOfSetWord(ZeroBlock(), 0, 1024);
    WordOfSetWord(SetWord(ZeroBlock(), 0, 1024), 1, 995);
    WordOfSetWord(SetWord(SetWord(ZeroBlock(), 0, 1024), 1, 995), 2, 200);
  }

  function FullBlock(b: nat): Block {
    if b == 1 then Super()
    else if 2 <= b < 27 then Records(b - 2, IPB)
    else if b == 28 then UsedBits(1024)
    else if START <= b < 1024 - 8 && (b - START) % SPAN == NDIRECT then Pointers((b - START) / SPAN + 1, NINDIRECT)
    else ZeroBlock()
  }

  function FullImage(): Image {
    Image(G(), seq(1024, b requires 0 <= b < 1024 => FullBlock(b)), seq(200, i requires 0 <= i < 200 => RecordOf(i)),
          map b: nat | START <= b < 1024 :: OwnerOf(b), seq(200, i requires 0 <= i < 200 => LenOf(i)))
  }

  /** The owner of data block b. */
  function OwnerOf(b: nat): Slot {
    if b < START then Fresh else SlotOf((b - START) / SPAN + 1, (b - START) % SPAN)
  }

  /** The address in a slot, as a place in the layout. */
  lemma AddrIs(i: nat, j: nat)
    requires 1 <= i <= 8 && j < SPAN
    ensures Addr(FullImage(), SlotOf(i, j)) == if j < SpanOf(i) then BlockOf(i, j) else 0
  {
    hide Word, SetWord, UsedBits, Records, Pointers;
    var im := FullImage();
    assert im.inodes[i] == RecordOf(i);
    if j > NDIRECT {
      var a := im.inodes[i].addrs[NDIRECT];
      if i <= 7 {
        assert a == BlockOf(i, NDIRECT);
        assert (a - START) / SPAN == i - 1 && (a - START) % SPAN == NDIRECT;
        assert im.disk[a] == Pointers(i, NINDIRECT);
        PointersAt(i, NINDIRECT, j - NDIRECT - 1);
      }
    }
  }

  /** Every slot is one of a file's, or has no address. */
  lemma SlotForm(s: Slot)
    ensures (exists i: nat, j: nat :: 1 <= i <= 8 && j < SPAN && s == SlotOf(i, j))
            || (Addr(FullImage(), s) == 0 && !Needed(FullImage(), s))
  {
    hide Word, FullBlock;
    match s
    case Direct(i, k) =>
      if 1 <= i <= 8 && k < NDIRECT {
        assert s == SlotOf(i, k);
      } else if i < 200 {
        assert FullImage().inodes[i] == RecordOf(i);
      }
    case Indirect(i) =>
      if 1 <= i <= 8 {
        assert s == SlotOf(i, NDIRECT);
      } else if i < 200 {
        assert FullImage().inodes[i] == RecordOf(i);
      }
    case Entry(i, k) =>
      if 1 <= i <= 8 && k < NINDIRECT {
        assert s == SlotOf(i, NDIRECT + 1 + k);
      } else if i < 200 {
        assert FullImage().inodes[i] == RecordOf(i);
      }
    case _ =>
  }

  lemma NeededIs(i: nat, j: nat)
    requires 1 <= i <= 8 && j < SPAN
    ensures Needed(FullImage(), SlotOf(i, j)) <==> j < SpanOf(i)
  {
    hide FullBlock;
    assert FullImage().len[i] == LenOf(i);
  }

  lemma OwnerIs(i: nat, j: nat)
    requires 1 <= i <= 8 && j < SpanOf(i)
    ensures START <= BlockOf(i, j) < 1024 && OwnerOf(BlockOf(i, j)) == SlotOf(i, j)
  {
    assert (BlockOf(i, j) - START) / SPAN == i - 1 && (BlockOf(i, j) - START) % SPAN == j;
  }

  lemma FullSlots()
    ensures Refs(FullImage()) && NoHoles(FullImage())
  {
    hide Addr, Needed, SlotOf, OwnerOf, FullBlock, RecordOf, SpanOf;
    var im := FullImage();
    forall s
      ensures Addr(im, s) != 0 ==> Addr(im, s) in im.owner && im.owner[Addr(im, s)] == s
      ensures Addr(im, s) != 0 <==> Needed(im, s)
    {
      SlotForm(s);
      if i: nat, j: nat :| 1 <= i <= 8 && j < SPAN && s == SlotOf(i, j) {
        AddrIs(i, j);
        NeededIs(i, j);
        if j < SpanOf(i) {
          OwnerIs(i, j);
        }
      }
    }
  }

  lemma FullOwners()
    ensures Owns(FullImage()) && Settled(FullImage())
  {
    hide Addr, FullBlock, RecordOf;
    var im := FullImage();
    forall b | b in im.owner
      ensures im.g.DataStart() <= b < im.g.size && Addr(im, im.owner[b]) == b && !im.owner[b].Fresh?
              && !im.owner[b].Dead?
    {
      var i, j := (b - START) / SPAN + 1, (b - START) % SPAN;
      AddrIs(i, j);
    }
  }

  lemma FullBitmap()
    ensures Shape(FullImage()) && BitmapExact(FullImage()) && FreeBlocksZero(FullImage())
    ensures forall b: nat :: b <= 1024 ==> (BitAt(G(), FullImage().disk, b) <==> b < 1024)
  {
    hide Word, SetWord, UsedBits, Records, Pointers, RecordOf, Bit;
    var im := FullImage();
    assert im.disk[1] == Super();
    SuperIs();
    assert im.disk[28] == UsedBits(1024);
    UsedBitsSet(1024);
    forall b: nat | b <= 1024
      ensures BitAt(G(), im.disk, b) <==> b < 1024
    {
      assert im.g.BitmapBlock(b) == 28 && b % BPB == b;
    }
    FullOwners();
  }

  lemma FullSynced()
    ensures Shape(FullImage()) && Synced(FullImage())
  {
    FullBitmap();
    hide GetInode, Records, RecordOf, Shape;
    var im := FullImage();
    forall i: nat | i < |im.inodes|
      ensures GetInode(im.disk[InodeBlock(i)], i % IPB) == im.inodes[i]
    {
      assert im.disk[InodeBlock(i)] == Records(i / IPB, IPB);
      RecordsAt(i / IPB, IPB, i % IPB);
      assert IPB * (i / IPB) + i % IPB == i;
    }
  }

  lemma FullLengths()
    ensures forall i :: 0 <= i < |FullImage().len| ==> FullImage().len[i] == FullImage().inodes[i].size
    ensures forall i :: 0 <= i < |FullImage().len| ==> FullImage().inodes[i].typ == 0 ==>
            FullImage().inodes[i].size == 0
  {
    hide FullBlock, OwnerOf, BlockOf;
  }

  /** No file ends within a block. */
  lemma FullTails()
    ensures TailZero(FullImage())
  {
    hide FullBlock, OwnerOf, RecordOf, ByteAt;
    forall i: nat | i < |FullImage().len|
      ensures 512 * Blocks(FullImage().len[i]) == FullImage().len[i]
    {
      assert FullImage().len[i] == LenOf(i);
    }
  }

  lemma FullCount()
    ensures FreeCount(FullImage()) == 0
  {
    hide FullBlock, OwnerOf, RecordOf;
    var im := FullImage();
    var owned: set<int> := im.owner.Keys;
    assert owned == Range(START, 1024);
    RangeSize(START, 1024);
    assert |owned| == |im.owner|;
  }

  /** The image is consistent, as a kernel leaves it and mounts it, and has no free block. */
  lemma FullQuiet()
    ensures Quiet(FullImage()) && Synced(FullImage()) && FreeCount(FullImage()) == 0
  {
    FullSlots();
    FullOwners();
    FullBitmap();
    FullSynced();
    FullLengths();
    FullTails();
    FullCount();
    hide Shape, Refs, NoHoles, Owns, Settled, BitmapExact, FreeBlocksZero, TailZero, Synced, FullImage, FreeCount;
  }

  /** balloc of a kernel that has mounted it takes block 1024 of 1024. */
  method BallocOverruns() returns (r: Found)
    ensures r == At(1024)
  {
    FullQuiet();
    FullBitmap();
    hide Quiet, Synced, Shape, BitmapExact, FreeBlocksZero, FullBlock, BitAt;
    var im := FullImage();
    var fs := new FileSystem.Mount(im.disk, im);
    BitmapFits(im.g);
    FullDiskOverruns(im.g, im.disk);
    QuietSuper(im);
    r := fs.Balloc();
  }

  lemma QuietSuper(im: Image)
    requires Quiet(im)
    ensures Superblock(im.g, im.disk)
  {
  }
}
