/**
 The on-disk file system as a value, and what every operation on it keeps.

 An Image holds the disk sectors and the inode records together with two pieces of book-keeping that exist
 only for the proof: which inode slot refers to each allocated block, and how many bytes each inode has
 been given so far (its size, except while a write is under way).
 */
module FsImage {
  import opened Bytes

  const NDIRECT := 12
  const NINDIRECT := 128
  const MAXFILE := 140
  const MAXBYTES := 71680   // MAXFILE * BSIZE
  const IPB := 8            // inodes per block
  const BPB := 4096         // bitmap bits per block

  type Addrs = a: seq<uint> | |a| == 13 witness seq(13, _ => 0)

  /** struct dinode; the in-core copy has the same fields. Shorts are kept as 16-bit patterns. */
  datatype Inode = Inode(typ: ushort, major: ushort, minor: ushort, nlink: ushort, size: uint, addrs: Addrs)

  function NoAddrs(): Addrs {
    seq(13, _ => 0)
  }

  /** The two superblock fields the kernel uses. */
  datatype Geometry = Geometry(size: uint, ninodes: uint) {
    /** Boot sector, superblock, inode blocks and bitmap blocks come before the first data block. */
    function DataStart(): nat {
      ninodes / IPB + 3 + size / BPB + 1
    }

    /** BBLOCK(b, ninodes) */
    function BitmapBlock(b: nat): nat {
      b / BPB + ninodes / IPB + 3
    }

    ghost predicate Valid() {
      DataStart() <= size && 1 <= ninodes
    }
  }

  /** IBLOCK(inum) */
  function InodeBlock(inum: nat): nat {
    inum / IPB + 2
  }

  /**
   What an allocated block is for. Fresh: just taken from the bitmap, not stored anywhere yet. Dead: detached from
   an inode that is being truncated, not yet returned to the bitmap.
   */
  datatype Slot = Fresh | Dead | Direct(inum: nat, k: nat) | Indirect(inum: nat) | Entry(inum: nat, k: nat)

  datatype Image = Image(g: Geometry, disk: seq<Block>, inodes: seq<Inode>, owner: map<nat, Slot>, len: seq<nat>)

  /** The block address stored in a slot, 0 when there is none. */
  function Addr(im: Image, s: Slot): uint {
    match s
    case Fresh => 0
    case Dead => 0
    case Direct(i, k) => if i < |im.inodes| && k < NDIRECT then im.inodes[i].addrs[k] else 0
    case Indirect(i) => if i < |im.inodes| then im.inodes[i].addrs[NDIRECT] else 0
    case Entry(i, k) =>
      if i < |im.inodes| && k < NINDIRECT && 0 < im.inodes[i].addrs[NDIRECT] < |im.disk|
      then Word(im.disk[im.inodes[i].addrs[NDIRECT]], k) else 0
  }

  /** Number of blocks that hold len bytes. */
  function Blocks(len: nat): nat {
    (len + 511) / 512
  }

  /** The same, counting the indirect block. */
  function AllBlocks(len: nat): nat {
    Blocks(len) + if Blocks(len) > NDIRECT then 1 else 0
  }

  predicate Needed(im: Image, s: Slot) {
    match s
    case Fresh => false
    case Dead => false
    case Direct(i, k) => i < |im.len| && k < NDIRECT && k < Blocks(im.len[i])
    case Indirect(i) => i < |im.len| && NDIRECT < Blocks(im.len[i])
    case Entry(i, k) => i < |im.len| && NDIRECT + k < Blocks(im.len[i])
  }

  function DataSlot(i: nat, bn: nat): Slot {
    if bn < NDIRECT then Direct(i, bn) else Entry(i, bn - NDIRECT)
  }

  /** Byte p of inode i, following the block map. */
  function ByteAt(im: Image, i: nat, p: nat): byte {
    var a := Addr(im, DataSlot(i, p / 512));
    if 0 < a < |im.disk| then im.disk[a][p % 512] else 0
  }

  /** The first n bytes of inode i. */
  function Data(im: Image, i: nat, n: nat): (r: seq<byte>)
    ensures |r| == n
    ensures forall p :: 0 <= p < n ==> r[p] == ByteAt(im, i, p)
  {
    seq(n, p requires 0 <= p < n => ByteAt(im, i, p))
  }

  /** The bitmap bit of block b. */
  predicate BitAt(g: Geometry, disk: seq<Block>, b: nat) {
    g.BitmapBlock(b) < |disk| && Bit(disk[g.BitmapBlock(b)], b % BPB)
  }

  predicate BitSet(im: Image, b: nat) {
    BitAt(im.g, im.disk, b)
  }

  /* The parts of the invariant */

  /** Block 1 of the disk describes the file system. */
  ghost predicate Superblock(g: Geometry, disk: seq<Block>) {
    g.Valid() && |disk| == g.size && Word(disk[1], 0) == g.size && Word(disk[1], 2) == g.ninodes
  }

  ghost predicate Shape(im: Image) {
    && Superblock(im.g, im.disk)
    && |im.inodes| == |im.len| == im.g.ninodes
    && (forall i :: 0 <= i < |im.len| ==> im.len[i] <= MAXBYTES)
  }

  /** Every stored address is owned by exactly the slot that stores it, so no block is shared. */
  ghost predicate Refs(im: Image) {
    forall s {:trigger Addr(im, s)} :: Addr(im, s) != 0 ==> Addr(im, s) in im.owner && im.owner[Addr(im, s)] == s
  }

  /** Every owned block is a data block and is stored in the slot that owns it. */
  ghost predicate Owns(im: Image) {
    forall b :: b in im.owner ==>
      im.g.DataStart() <= b < im.g.size && (im.owner[b].Fresh? || im.owner[b].Dead? || Addr(im, im.owner[b]) == b)
  }

  /** The bitmap marks the metadata blocks and the owned blocks, nothing else. */
  ghost predicate BitmapExact(im: Image)
    requires Shape(im)
  {
    forall b: nat {:trigger BitSet(im, b)} :: b < im.g.size ==>
        (BitSet(im, b) <==> b < im.g.DataStart() || b in im.owner)
  }

  /** Free blocks are all zero; nothing in balloc makes them so. */
  ghost predicate FreeBlocksZero(im: Image)
    requires Shape(im)
  {
    forall b :: im.g.DataStart() <= b < im.g.size && (b !in im.owner || im.owner[b].Fresh?) ==>
        im.disk[b] == ZeroBlock()
  }

  /** No holes: a file has exactly the blocks its length needs. */
  ghost predicate NoHoles(im: Image) {
    forall s {:trigger Addr(im, s)} {:trigger Needed(im, s)} :: Addr(im, s) != 0 <==> Needed(im, s)
  }

  /** Bytes of the last block past the end are zero. */
  ghost predicate TailZero(im: Image) {
    forall i: nat, p: nat {:trigger ByteAt(im, i, p)} ::
      i < |im.len| && im.len[i] <= p < 512 * Blocks(im.len[i]) ==> ByteAt(im, i, p) == 0
  }

  ghost predicate Inv(im: Image) {
    && Shape(im)
    && Refs(im)
    && Owns(im)
    && BitmapExact(im)
    && FreeBlocksZero(im)
    && NoHoles(im)
    && TailZero(im)
  }

  /** No block is in flight. */
  ghost predicate Settled(im: Image) {
    forall b :: b in im.owner ==> !im.owner[b].Fresh? && !im.owner[b].Dead?
  }

  /** What Inv means between operations: nothing in flight, lengths are the recorded sizes. */
  ghost predicate Quiet(im: Image) {
    && Inv(im)
    && Settled(im)
    && (forall i :: 0 <= i < |im.len| ==> im.len[i] == im.inodes[i].size)
    && (forall i :: 0 <= i < |im.len| ==> im.inodes[i].typ == 0 ==> im.inodes[i].size == 0)
  }

  /** The bytes of every inode other than i are those of im0. */
  ghost predicate OthersSame(im0: Image, im: Image, i: nat) {
    && |im.len| == |im0.len| == |im.inodes| == |im0.inodes|
    && forall j :: 0 <= j < |im.len| && j != i ==>
      im.len[j] == im0.len[j] && im.inodes[j] == im0.inodes[j] && Data(im, j, im.len[j]) == Data(im0, j, im0.len[j])
  }

  function FreeCount(im: Image): int {
    im.g.size - im.g.DataStart() - |im.owner|
  }

  /* Counting */

  function Range(lo: int, hi: int): (s: set<int>)
    ensures forall x :: x in s <==> lo <= x < hi
    decreases hi - lo
  {
    if lo < hi then Range(lo, hi - 1) + {hi - 1} else {}
  }

  lemma {:induction false} RangeSize(lo: int, hi: int)
    requires lo <= hi
    ensures |Range(lo, hi)| == hi - lo
    decreases hi - lo
  {
    if lo < hi {
      RangeSize(lo, hi - 1);
    }
  }

  lemma {:induction false} SubsetSize<T>(a: set<T>, b: set<T>)
    requires a <= b
    ensures |a| <= |b|
    ensures |a| == |b| ==> a == b
  {
    if a != {} {
      var x :| x in a;
      SubsetSize(a - {x}, b - {x});
    }
  }

  /** Free space counted from the ownership map is really there in the bitmap. */
  lemma SomeBlockIsFree(im: Image) returns (b: nat)
    requires Inv(im) && FreeCount(im) > 0
    ensures im.g.DataStart() <= b < im.g.size && b !in im.owner && !BitSet(im, b)
  {
    var all := Range(im.g.DataStart(), im.g.size);
    RangeSize(im.g.DataStart(), im.g.size);
    var owned: set<int> := im.owner.Keys;
    assert |owned| == |im.owner|;
    SubsetSize(owned, all);
    if all <= owned {
      SubsetSize(all, owned);
      assert false;
    }
    b :| b in all && b !in owned;
    assert !BitSet(im, b);
  }

  /* Steps that keep the invariant */

  function MarkUsed(im: Image, b: nat): Image
    requires im.g.BitmapBlock(b) < |im.disk|
  {
    im.(disk := im.disk[im.g.BitmapBlock(b) := SetBit(im.disk[im.g.BitmapBlock(b)], b % BPB)])
  }

  /** The image after balloc handed out block b: its bit is set, it belongs to nobody yet. */
  function Take(im: Image, b: nat): Image
    requires im.g.BitmapBlock(b) < |im.disk|
  {
    MarkUsed(im, b).(owner := im.owner[b := Fresh])
  }

  /** Changing a metadata block changes no stored address and no file byte. */
  lemma MetadataFrame(im: Image, im': Image)
    requires Refs(im) && Owns(im)
    requires |im'.disk| == |im.disk| && im'.g == im.g && im'.inodes == im.inodes && im'.len == im.len
    requires forall b :: im.g.DataStart() <= b < |im.disk| ==> im'.disk[b] == im.disk[b]
    ensures forall s :: Addr(im', s) == Addr(im, s)
    ensures forall i: nat, p: nat :: ByteAt(im', i, p) == ByteAt(im, i, p)
  {
    forall s
      ensures Addr(im', s) == Addr(im, s)
    {
      if s.Entry? {
        assert Addr(im, Indirect(s.inum)) == 0 || Addr(im, Indirect(s.inum)) in im.owner;
      }
    }
    forall i: nat, p: nat
      ensures ByteAt(im', i, p) == ByteAt(im, i, p)
    {
      var s := DataSlot(i, p / 512);
      assert Addr(im', s) == Addr(im, s);
    }
  }

  lemma TakeBitmap(im: Image, b: nat)
    requires Shape(im) && BitmapExact(im) && b < im.g.size && !BitSet(im, b)
    requires Shape(Take(im, b))
    ensures BitmapExact(Take(im, b))
  {
    var im' := Take(im, b);
    var bb := im.g.BitmapBlock(b);
    BitOfSetBit(im.disk[bb], b % BPB);
    forall c: nat | c < im.g.size
      ensures BitSet(im', c) <==> c < im.g.DataStart() || c in im'.owner
    {
      assert BitSet(im, c) <==> c < im.g.DataStart() || c in im.owner;
      if im.g.BitmapBlock(c) == bb {
        assert c == b <==> c % BPB == b % BPB;
      }
    }
  }

  lemma TakeKeepsInv(im: Image, b: nat)
    requires Inv(im) && b < im.g.size && !BitSet(im, b)
    ensures Inv(Take(im, b))
    ensures im.g.DataStart() <= b && b !in im.owner
    ensures FreeCount(Take(im, b)) == FreeCount(im) - 1
    ensures forall s :: Addr(Take(im, b), s) == Addr(im, s)
    ensures forall i: nat, p: nat :: ByteAt(Take(im, b), i, p) == ByteAt(im, i, p)
  {
    var im' := Take(im, b);
    assert BitSet(im, b) <==> b < im.g.DataStart() || b in im.owner;
    MetadataFrame(im, im');
    TakeBitmap(im, b);
    assert im'.owner.Keys == im.owner.Keys + {b};
    forall s
      ensures Addr(im', s) != 0 ==> Addr(im', s) in im'.owner && im'.owner[Addr(im', s)] == s
      ensures Addr(im', s) != 0 <==> Needed(im', s)
    {
      assert Addr(im', s) == Addr(im, s);
      assert Needed(im', s) == Needed(im, s);
    }
  }

  /* Storing a fresh block in an inode */

  ghost predicate SameBytes(im: Image, im': Image) {
    forall i: nat, p: nat :: ByteAt(im', i, p) == ByteAt(im, i, p)
  }

  /**
   im' is im with the slots of m filled: each was empty and now stores a block that was fresh.
   Nothing but indirect blocks changed on disk.
   */
  ghost predicate Fills(im: Image, im': Image, m: map<Slot, uint>) {
    && im'.g == im.g && |im'.disk| == |im.disk|
    && |im'.inodes| == |im.inodes| && |im'.len| == |im.len|
    && (forall s :: s in m ==> Addr(im, s) == 0 && m[s] != 0 && m[s] in im.owner && im.owner[m[s]] == Fresh
                               && m[s] in im'.owner && im'.owner[m[s]] == s)
    && (forall s {:trigger Addr(im', s)} :: Addr(im', s) == if s in m then m[s] else Addr(im, s))
    && (forall s {:trigger Needed(im', s)} :: Needed(im', s) <==> s in m || Needed(im, s))
    && im'.owner.Keys == im.owner.Keys
    && (forall c :: c in im'.owner ==> im'.owner[c] == im.owner[c] || (im'.owner[c] in m && m[im'.owner[c]] == c))
    && (forall c :: 0 <= c < |im.disk| && im'.disk[c] != im.disk[c] ==> c in im'.owner && im'.owner[c].Indirect?)
  }

  lemma FillsKeepsRefs(im: Image, im': Image, m: map<Slot, uint>)
    requires Inv(im) && Fills(im, im', m)
    ensures Refs(im') && Owns(im') && NoHoles(im')
  {
    forall s
      ensures Addr(im', s) != 0 ==> Addr(im', s) in im'.owner && im'.owner[Addr(im', s)] == s
      ensures Addr(im', s) != 0 <==> Needed(im', s)
    {
      assert Needed(im', s) <==> s in m || Needed(im, s);
      assert Addr(im, s) != 0 <==> Needed(im, s);
    }
  }

  lemma FillsKeepsBitmap(im: Image, im': Image, m: map<Slot, uint>)
    requires Inv(im) && Fills(im, im', m) && Shape(im') && Owns(im')
    ensures BitmapExact(im') && FreeBlocksZero(im')
  {
    forall b: nat | b < im'.g.size
      ensures BitSet(im', b) <==> b < im'.g.DataStart() || b in im'.owner
    {
      assert BitSet(im, b) <==> b < im.g.DataStart() || b in im.owner;
      var bb := im.g.BitmapBlock(b);
      assert im'.disk[bb] == im.disk[bb];
    }
    forall b | im'.g.DataStart() <= b < im'.g.size && (b !in im'.owner || im'.owner[b].Fresh?)
      ensures im'.disk[b] == ZeroBlock()
    {
      assert im'.disk[b] == im.disk[b];
      if b in im'.owner {
        assert Addr(im', Fresh) == 0;
      }
    }
  }

  /** A filled slot was empty and its block is zero, so no file byte changes. */
  lemma FillsSameBytes(im: Image, im': Image, m: map<Slot, uint>)
    requires Inv(im) && Fills(im, im', m)
    requires forall s :: s in m && !s.Indirect? ==> im'.disk[m[s]] == ZeroBlock()
    ensures SameBytes(im, im')
  {
    forall i: nat, p: nat
      ensures ByteAt(im', i, p) == ByteAt(im, i, p)
    {
      var s := DataSlot(i, p / 512);
      assert Addr(im', s) == if s in m then m[s] else Addr(im, s);
    }
  }

  function SetAddr(ino: Inode, k: nat, a: uint): Inode
    requires k < 13
  {
    ino.(addrs := ino.addrs[k := a])
  }

  /** ip->addrs[bn] = b */
  function StoreDirect(im: Image, i: nat, bn: nat, b: uint): Image
    requires i < |im.inodes| == |im.len| && bn < NDIRECT
  {
    im.(inodes := im.inodes[i := SetAddr(im.inodes[i], bn, b)],
        owner := im.owner[b as nat := Direct(i, bn)],
        len := im.len[i := bn * 512 + 1])
  }

  lemma StoreDirectKeepsInv(im: Image, i: nat, bn: nat, b: uint)
    requires Inv(im) && i < |im.len| && bn < NDIRECT && im.len[i] == bn * 512
    requires b in im.owner && im.owner[b] == Fresh
    ensures Inv(StoreDirect(im, i, bn, b)) && Addr(StoreDirect(im, i, bn, b), Direct(i, bn)) == b
    ensures SameBytes(im, StoreDirect(im, i, bn, b))
    ensures FreeCount(StoreDirect(im, i, bn, b)) == FreeCount(im)
  {
    var im', m := StoreDirect(im, i, bn, b), map[Direct(i, bn) := b];
    StoreDirectFills(im, i, bn, b);
    FillsKeepsRefs(im, im', m);
    FillsKeepsBitmap(im, im', m);
    FillsSameBytes(im, im', m);
    assert |im'.owner| == |im'.owner.Keys| == |im.owner|;
  }

  lemma StoreDirectFills(im: Image, i: nat, bn: nat, b: uint)
    requires Inv(im) && i < |im.len| && bn < NDIRECT && im.len[i] == bn * 512
    requires b in im.owner && im.owner[b] == Fresh
    ensures Fills(im, StoreDirect(im, i, bn, b), map[Direct(i, bn) := b])
  {
    var im' := StoreDirect(im, i, bn, b);
    assert !Needed(im, Direct(i, bn));
    assert im'.owner.Keys == im.owner.Keys;
    forall s
      ensures Addr(im', s) == if s == Direct(i, bn) then b else Addr(im, s)
      ensures Needed(im', s) <==> s == Direct(i, bn) || Needed(im, s)
    {
    }
  }

  /** a[k] = b in an indirect block that was already there */
  function StoreEntry(im: Image, i: nat, k: nat, b: uint): Image
    requires i < |im.inodes| == |im.len| && k < NINDIRECT && im.inodes[i].addrs[NDIRECT] < |im.disk|
  {
    im.(disk := im.disk[im.inodes[i].addrs[NDIRECT] := SetWord(im.disk[im.inodes[i].addrs[NDIRECT]], k, b)],
        owner := im.owner[b as nat := Entry(i, k)],
        len := im.len[i := (NDIRECT + k) * 512 + 1])
  }

  lemma StoreEntryFills(im: Image, i: nat, k: nat, b: uint)
    requires Inv(im) && i < |im.len| && 0 < k < NINDIRECT && im.len[i] == (NDIRECT + k) * 512
    requires b in im.owner && im.owner[b] == Fresh
    ensures 0 < im.inodes[i].addrs[NDIRECT] < |im.disk|
    ensures Fills(im, StoreEntry(im, i, k, b), map[Entry(i, k) := b])
  {
    assert Needed(im, Indirect(i)) && !Needed(im, Entry(i, k));
    var ind := Addr(im, Indirect(i));
    assert ind in im.owner && im.owner[ind] == Indirect(i);
    var im' := StoreEntry(im, i, k, b);
    WordOfSetWord(im.disk[ind], k, b);
    assert im'.owner.Keys == im.owner.Keys;
    forall s
      ensures Addr(im', s) == if s == Entry(i, k) then b else Addr(im, s)
      ensures Needed(im', s) <==> s == Entry(i, k) || Needed(im, s)
    {
      if s.Entry? && s.inum < |im.inodes| {
        assert Addr(im, Indirect(s.inum)) == im.inodes[s.inum].addrs[NDIRECT];
      }
    }
  }

  lemma StoreEntryKeepsInv(im: Image, i: nat, k: nat, b: uint)
    requires Inv(im) && i < |im.len| && 0 < k < NINDIRECT && im.len[i] == (NDIRECT + k) * 512
    requires b in im.owner && im.owner[b] == Fresh
    ensures im.g.DataStart() <= im.inodes[i].addrs[NDIRECT] < |im.disk|
    ensures Inv(StoreEntry(im, i, k, b)) && Addr(StoreEntry(im, i, k, b), Entry(i, k)) == b
    ensures SameBytes(im, StoreEntry(im, i, k, b))
    ensures FreeCount(StoreEntry(im, i, k, b)) == FreeCount(im)
  {
    StoreEntryFills(im, i, k, b);
    var im', m := StoreEntry(im, i, k, b), map[Entry(i, k) := b];
    assert Addr(im, Indirect(i)) in im.owner;
    assert Addr(im', Entry(i, k)) == b;
    FillsKeepsRefs(im, im', m);
    FillsKeepsBitmap(im, im', m);
    FillsSameBytes(im, im', m);
    assert |im'.owner| == |im'.owner.Keys| == |im.owner|;
  }

  /** ip->addrs[NDIRECT] = b1 and a[0] = b2 in that block, which must be zero for the other entries to be empty */
  function StoreFirstEntry(im: Image, i: nat, b1: uint, b2: uint): Image
    requires i < |im.inodes| == |im.len| && b1 < |im.disk|
  {
    im.(disk := im.disk[b1 := SetWord(im.disk[b1], 0, b2)],
        inodes := im.inodes[i := SetAddr(im.inodes[i], NDIRECT, b1)],
        owner := im.owner[b1 as nat := Indirect(i)][b2 as nat := Entry(i, 0)],
        len := im.len[i := NDIRECT * 512 + 1])
  }

  lemma StoreFirstEntryAddrs(im: Image, i: nat, b1: uint, b2: uint)
    requires Inv(im) && i < |im.len| && im.len[i] == NDIRECT * 512 && b1 != b2
    requires b1 in im.owner && im.owner[b1] == Fresh && b2 in im.owner && im.owner[b2] == Fresh
    ensures forall s :: Addr(StoreFirstEntry(im, i, b1, b2), s) ==
                        if s == Indirect(i) then b1 else if s == Entry(i, 0) then b2 else Addr(im, s)
  {
    var im' := StoreFirstEntry(im, i, b1, b2);
    WordOfSetWord(im.disk[b1], 0, b2);
    ZeroWords();
    forall s
      ensures Addr(im', s) == if s == Indirect(i) then b1 else if s == Entry(i, 0) then b2 else Addr(im, s)
    {
      if s.Entry? && s.inum < |im.inodes| {
        var ind := Addr(im, Indirect(s.inum));
        assert ind == im.inodes[s.inum].addrs[NDIRECT];
        assert Needed(im, Indirect(i)) <==> Addr(im, Indirect(i)) != 0;
        assert s.inum != i && ind != 0 ==> im.owner[ind] == Indirect(s.inum);
      }
    }
  }

  lemma StoreFirstEntryFills(im: Image, i: nat, b1: uint, b2: uint)
    requires Inv(im) && i < |im.len| && im.len[i] == NDIRECT * 512 && b1 != b2
    requires b1 in im.owner && im.owner[b1] == Fresh && b2 in im.owner && im.owner[b2] == Fresh
    ensures Fills(im, StoreFirstEntry(im, i, b1, b2), map[Indirect(i) := b1, Entry(i, 0) := b2])
  {
    var im' := StoreFirstEntry(im, i, b1, b2);
    StoreFirstEntryAddrs(im, i, b1, b2);
    assert Needed(im, Indirect(i)) <==> Addr(im, Indirect(i)) != 0;
    assert Needed(im, Entry(i, 0)) <==> Addr(im, Entry(i, 0)) != 0;
    assert im'.owner.Keys == im.owner.Keys;
    forall s
      ensures Needed(im', s) <==> s == Indirect(i) || s == Entry(i, 0) || Needed(im, s)
    {
    }
  }

  lemma StoreFirstEntryKeepsInv(im: Image, i: nat, b1: uint, b2: uint)
    requires Inv(im) && i < |im.len| && im.len[i] == NDIRECT * 512 && b1 != b2
    requires b1 in im.owner && im.owner[b1] == Fresh && b2 in im.owner && im.owner[b2] == Fresh
    ensures Inv(StoreFirstEntry(im, i, b1, b2)) && Addr(StoreFirstEntry(im, i, b1, b2), Entry(i, 0)) == b2
    ensures SameBytes(im, StoreFirstEntry(im, i, b1, b2))
    ensures FreeCount(StoreFirstEntry(im, i, b1, b2)) == FreeCount(im)
  {
    StoreFirstEntryFills(im, i, b1, b2);
    var im', m := StoreFirstEntry(im, i, b1, b2), map[Indirect(i) := b1, Entry(i, 0) := b2];
    assert Addr(im', Entry(i, 0)) == b2;
    FillsKeepsRefs(im, im', m);
    FillsKeepsBitmap(im, im', m);
    FillsSameBytes(im, im', m);
    assert |im'.owner| == |im'.owner.Keys| == |im.owner|;
  }

  /* bmap as a whole */

  /** The block just past the end of file i may be allocated, and there is room for it. */
  ghost predicate CanExtend(im: Image, i: nat, bn: nat) {
    i < |im.len| && im.len[i] == bn * 512 && (if bn == NDIRECT then 2 else 1) <= FreeCount(im)
  }

  /** im' is im after bmap(i, bn): block bn of file i exists, no byte of any file has changed. */
  ghost predicate Mapped(im: Image, im': Image, i: nat, bn: nat)
    requires Shape(im) && i < |im.len|
  {
    && Inv(im') && Settled(im') && im'.g == im.g
    && Addr(im', DataSlot(i, bn)) != 0
    && SameBytes(im, im')
    && (bn < Blocks(im.len[i]) ==> im' == im)
    && (bn >= Blocks(im.len[i]) ==> im'.len == im.len[i := bn * 512 + 1])
    && FreeCount(im') == FreeCount(im) - (AllBlocks(im'.len[i]) - AllBlocks(im.len[i]))
    && im'.inodes == im.inodes[i := im.inodes[i].(addrs := im'.inodes[i].addrs)]
    && (forall b :: 0 <= b < im.g.ninodes / IPB + 3 ==> im'.disk[b] == im.disk[b])
  }

  /** Asking for a block the file has changes nothing. */
  lemma MappedExisting(im: Image, im': Image, i: nat, bn: nat)
    requires Shape(im) && i < |im.len| && bn < Blocks(im.len[i]) && Mapped(im, im', i, bn)
    ensures im' == im && Addr(im, DataSlot(i, bn)) != 0
  {
  }

  lemma MapExisting(im: Image, i: nat, bn: nat)
    requires Inv(im) && Settled(im) && i < |im.len| && bn < Blocks(im.len[i])
    ensures Mapped(im, im, i, bn)
  {
    assert Needed(im, DataSlot(i, bn));
    assert im.inodes == im.inodes[i := im.inodes[i].(addrs := im.inodes[i].addrs)];
  }

  /** A freshly taken indirect block is good as it is: all its entries read 0. */
  lemma FreshIndirect(im: Image, i: nat, k: nat, b: nat)
    requires Inv(im) && i < |im.len| && NDIRECT + k < MAXFILE && Addr(im, Indirect(i)) == 0
    requires NDIRECT + k < Blocks(im.len[i]) || CanExtend(im, i, NDIRECT + k)
    requires b < im.g.size && !BitSet(im, b)
    ensures k == 0 && CanExtend(im, i, NDIRECT)
    ensures Inv(Take(im, b)) && FreeCount(Take(im, b)) > 0
    ensures im.g.DataStart() <= b < |im.disk| && Take(im, b).disk[b] == ZeroBlock()
  {
    assert !Needed(im, Indirect(i));
    TakeKeepsInv(im, b);
    assert Take(im, b).owner[b] == Fresh;
  }

  lemma MapDirect(im: Image, i: nat, bn: nat, b: uint)
    requires Inv(im) && Settled(im) && CanExtend(im, i, bn) && bn < NDIRECT
    requires b < im.g.size && !BitSet(im, b)
    ensures Mapped(im, StoreDirect(Take(im, b), i, bn, b), i, bn)
  {
    hide Refs, Owns, BitmapExact, FreeBlocksZero, NoHoles, TailZero, Addr, ByteAt, Needed;
    TakeKeepsInv(im, b);
    StoreDirectKeepsInv(Take(im, b), i, bn, b);
  }

  lemma MapEntry(im: Image, i: nat, k: nat, b: uint)
    requires Inv(im) && Settled(im) && CanExtend(im, i, NDIRECT + k) && 0 < k < NINDIRECT
    requires b < im.g.size && !BitSet(im, b)
    ensures 0 < im.inodes[i].addrs[NDIRECT] < |im.disk|
    ensures Mapped(im, StoreEntry(Take(im, b), i, k, b), i, NDIRECT + k)
    ensures Addr(StoreEntry(Take(im, b), i, k, b), Entry(i, k)) == b
  {
    hide Refs, Owns, BitmapExact, FreeBlocksZero, NoHoles, TailZero, Addr, ByteAt, Needed;
    TakeKeepsInv(im, b);
    StoreEntryKeepsInv(Take(im, b), i, k, b);
  }

  lemma FirstEntrySettled(im: Image, i: nat, b1: uint, b2: uint)
    requires Settled(im) && i < |im.inodes| == |im.len| && b1 < |im.disk| && b1 != b2
    requires im.g.BitmapBlock(b1) < |im.disk| && im.g.BitmapBlock(b2) < |im.disk|
    ensures Settled(StoreFirstEntry(Take(Take(im, b1), b2), i, b1, b2))
  {
    hide SetBit, SetWord;
    var im' := StoreFirstEntry(Take(Take(im, b1), b2), i, b1, b2);
    forall b | b in im'.owner
      ensures !im'.owner[b].Fresh? && !im'.owner[b].Dead?
    {
      assert b == b1 || b == b2 || im'.owner[b] == im.owner[b];
    }
  }

  lemma MapFirstEntry(im: Image, i: nat, b1: uint, b2: uint)
    requires Inv(im) && Settled(im) && CanExtend(im, i, NDIRECT)
    requires b1 < im.g.size && !BitSet(im, b1)
    requires b2 < im.g.size && !BitSet(Take(im, b1), b2)
    ensures Mapped(im, StoreFirstEntry(Take(Take(im, b1), b2), i, b1, b2), i, NDIRECT)
    ensures Addr(StoreFirstEntry(Take(Take(im, b1), b2), i, b1, b2), Entry(i, 0)) == b2
  {
    hide Refs, Owns, BitmapExact, FreeBlocksZero, NoHoles, TailZero, Addr, ByteAt, Needed, BitAt, SetWord, SetBit,
         Settled;
    var im1, im2 := Take(im, b1), Take(Take(im, b1), b2);
    var im' := StoreFirstEntry(im2, i, b1, b2);
    TakeKeepsInv(im, b1);
    TakeKeepsInv(im1, b2);
    StoreFirstEntryKeepsInv(im2, i, b1, b2);
    FirstEntrySettled(im, i, b1, b2);
    assert im'.inodes == im.inodes[i := im.inodes[i].(addrs := im'.inodes[i].addrs)];
    assert SameBytes(im, im');
    assert im'.len[i] == NDIRECT * 512 + 1;
  }

  /* Writing file bytes */

  /** memmove(bp->data + at, src, |src|) into data block bn of inode i, which the write may extend. */
  function WriteData(im: Image, i: nat, bn: nat, at: nat, src: seq<byte>): Image
    requires i < |im.len| && Addr(im, DataSlot(i, bn)) < |im.disk| && at + |src| <= 512
  {
    im.(disk := im.disk[Addr(im, DataSlot(i, bn)) := Splice(im.disk[Addr(im, DataSlot(i, bn))], at, src)],
        len := im.len[i := Max(im.len[i], bn * 512 + at + |src|)])
  }

  function Max(a: nat, b: nat): nat {
    if a < b then b else a
  }

  lemma WriteDataAddrs(im: Image, i: nat, bn: nat, at: nat, src: seq<byte>)
    requires Inv(im) && i < |im.len| && at + |src| <= 512
    requires bn < Blocks(im.len[i]) && bn * 512 + at <= im.len[i]
    ensures im.g.DataStart() <= Addr(im, DataSlot(i, bn)) < |im.disk|
    ensures forall s :: Addr(WriteData(im, i, bn, at, src), s) == Addr(im, s)
    ensures forall s :: Needed(WriteData(im, i, bn, at, src), s) <==> Needed(im, s)
  {
    var slot := DataSlot(i, bn);
    assert Needed(im, slot);
    var a := Addr(im, slot);
    assert a in im.owner && im.owner[a] == slot;
    var im' := WriteData(im, i, bn, at, src);
    forall s
      ensures Addr(im', s) == Addr(im, s)
    {
      if s.Entry? && s.inum < |im.inodes| {
        assert Addr(im, Indirect(s.inum)) == im.inodes[s.inum].addrs[NDIRECT];
      }
    }
  }

  lemma WriteDataBytes(im: Image, i: nat, bn: nat, at: nat, src: seq<byte>)
    requires Inv(im) && i < |im.len| && at + |src| <= 512
    requires bn < Blocks(im.len[i]) && bn * 512 + at <= im.len[i]
    ensures Addr(im, DataSlot(i, bn)) < |im.disk|
    ensures forall j: nat, p: nat :: ByteAt(WriteData(im, i, bn, at, src), j, p) ==
                                     if j == i && bn * 512 + at <= p < bn * 512 + at + |src|
                                         then src[p - bn * 512 - at] else ByteAt(im, j, p)
  {
    WriteDataAddrs(im, i, bn, at, src);
    hide Needed, Addr;
    var slot := DataSlot(i, bn);
    var a, im' := Addr(im, slot), WriteData(im, i, bn, at, src);
    forall j: nat, p: nat
      ensures ByteAt(im', j, p) ==
              if j == i && bn * 512 + at <= p < bn * 512 + at + |src| then src[p - bn * 512 - at] else ByteAt(im, j, p)
    {
      var s := DataSlot(j, p / 512);
      assert Addr(im', s) == Addr(im, s);
      assert Addr(im, s) == a ==> s == slot;
      assert s == slot <==> j == i && p / 512 == bn;
    }
  }

  lemma WriteDataKeepsInv(im: Image, i: nat, bn: nat, at: nat, src: seq<byte>)
    requires Inv(im) && i < |im.len| && at + |src| <= 512
    requires bn < Blocks(im.len[i]) && bn * 512 + at <= im.len[i]
    ensures im.g.DataStart() <= Addr(im, DataSlot(i, bn)) < |im.disk|
    ensures Inv(WriteData(im, i, bn, at, src))
  {
    WriteDataAddrs(im, i, bn, at, src);
    WriteDataBytes(im, i, bn, at, src);
    var im' := WriteData(im, i, bn, at, src);
    forall s
      ensures Addr(im', s) != 0 ==> Addr(im', s) in im'.owner && im'.owner[Addr(im', s)] == s
      ensures Addr(im', s) != 0 <==> Needed(im', s)
    {
      assert Addr(im', s) == Addr(im, s);
    }
    forall b: nat | b < im'.g.size
      ensures BitSet(im', b) <==> b < im'.g.DataStart() || b in im'.owner
    {
      assert BitSet(im, b) <==> b < im.g.DataStart() || b in im.owner;
      assert im'.disk[im.g.BitmapBlock(b)] == im.disk[im.g.BitmapBlock(b)];
    }
    forall j: nat, p: nat | j < |im'.len| && im'.len[j] <= p < 512 * Blocks(im'.len[j])
      ensures ByteAt(im', j, p) == 0
    {
      assert ByteAt(im, j, p) == 0;
    }
  }

  /* Truncation */

  predicate OwnedBy(s: Slot, i: nat) {
    !s.Fresh? && !s.Dead? && s.inum == i
  }

  /** Inode i lets go of all its blocks; they wait to be freed one by one. */
  function Detach(im: Image, i: nat): Image
    requires i < |im.inodes| == |im.len|
  {
    im.(inodes := im.inodes[i := im.inodes[i].(addrs := NoAddrs(), size := 0)],
        owner := map b | b in im.owner :: if OwnedBy(im.owner[b], i) then Dead else im.owner[b],
        len := im.len[i := 0])
  }

  lemma DetachAddrs(im: Image, i: nat)
    requires Inv(im) && i < |im.len|
    ensures forall s :: Addr(Detach(im, i), s) == if OwnedBy(s, i) then 0 else Addr(im, s)
    ensures forall s :: Needed(Detach(im, i), s) <==> !OwnedBy(s, i) && Needed(im, s)
    ensures forall j: nat, p: nat :: ByteAt(Detach(im, i), j, p) == if j == i then 0 else ByteAt(im, j, p)
  {
    var im' := Detach(im, i);
    forall s
      ensures Addr(im', s) == if OwnedBy(s, i) then 0 else Addr(im, s)
    {
    }
    forall j: nat, p: nat
      ensures ByteAt(im', j, p) == if j == i then 0 else ByteAt(im, j, p)
    {
      assert Addr(im', DataSlot(j, p / 512)) == if j == i then 0 else Addr(im, DataSlot(j, p / 512));
    }
  }

  lemma DetachKeepsInv(im: Image, i: nat)
    requires Inv(im) && i < |im.len|
    ensures Inv(Detach(im, i))
  {
    var im' := Detach(im, i);
    DetachAddrs(im, i);
    forall s
      ensures Addr(im', s) != 0 ==> Addr(im', s) in im'.owner && im'.owner[Addr(im', s)] == s
      ensures Addr(im', s) != 0 <==> Needed(im', s)
    {
      assert Addr(im', s) == if OwnedBy(s, i) then 0 else Addr(im, s);
      assert Addr(im, s) != 0 <==> Needed(im, s);
    }
    forall b: nat | b < im'.g.size
      ensures BitSet(im', b) <==> b < im'.g.DataStart() || b in im'.owner
    {
      assert BitSet(im', b) == BitSet(im, b);
    }
    forall j: nat, p: nat | j < |im'.len| && im'.len[j] <= p < 512 * Blocks(im'.len[j])
      ensures ByteAt(im', j, p) == 0
    {
      assert j != i ==> ByteAt(im, j, p) == 0;
    }
  }

  function MarkFree(im: Image, b: nat): Image
    requires im.g.BitmapBlock(b) < |im.disk|
  {
    im.(disk := im.disk[im.g.BitmapBlock(b) := ClearBit(im.disk[im.g.BitmapBlock(b)], b % BPB)])
  }

  /** bfree: zero the block, then clear its bit. */
  function Free(im: Image, b: nat): Image
    requires im.g.BitmapBlock(b) < |im.disk| && b < |im.disk|
  {
    MarkFree(im.(disk := im.disk[b := ZeroBlock()]), b).(owner := im.owner - {b})
  }

  lemma FreeAddrs(im: Image, b: nat)
    requires Inv(im) && b in im.owner && im.owner[b] == Dead
    ensures forall s :: Addr(Free(im, b), s) == Addr(im, s)
    ensures forall j: nat, p: nat :: ByteAt(Free(im, b), j, p) == ByteAt(im, j, p)
  {
    var im' := Free(im, b);
    forall s
      ensures Addr(im', s) == Addr(im, s)
    {
      if s.Entry? && s.inum < |im.inodes| {
        assert Addr(im, Indirect(s.inum)) == im.inodes[s.inum].addrs[NDIRECT];
      }
    }
    forall j: nat, p: nat
      ensures ByteAt(im', j, p) == ByteAt(im, j, p)
    {
      assert Addr(im', DataSlot(j, p / 512)) == Addr(im, DataSlot(j, p / 512));
    }
  }

  lemma FreeBitmap(im: Image, b: nat)
    requires Shape(im) && BitmapExact(im) && b in im.owner && b < im.g.size && im.g.DataStart() <= b
    requires Shape(Free(im, b))
    ensures BitmapExact(Free(im, b))
  {
    var im' := Free(im, b);
    var bb := im.g.BitmapBlock(b);
    BitOfSetBit(im.disk[bb], b % BPB);
    forall c: nat | c < im.g.size
      ensures BitSet(im', c) <==> c < im.g.DataStart() || c in im'.owner
    {
      assert BitSet(im, c) <==> c < im.g.DataStart() || c in im.owner;
      if im.g.BitmapBlock(c) == bb {
        assert c == b <==> c % BPB == b % BPB;
      }
    }
  }

  lemma FreeKeepsInv(im: Image, b: nat)
    requires Inv(im) && b in im.owner && im.owner[b] == Dead
    ensures Inv(Free(im, b))
    ensures BitSet(im, b)
  {
    hide BitAt, ClearBit, ZeroBlock;
    var im' := Free(im, b);
    FreeAddrs(im, b);
    FreeBitmap(im, b);
    assert BitSet(im, b);
    forall s
      ensures Addr(im', s) != 0 ==> Addr(im', s) in im'.owner && im'.owner[Addr(im', s)] == s
      ensures Addr(im', s) != 0 <==> Needed(im', s)
    {
      assert Addr(im', s) == Addr(im, s);
      assert Needed(im', s) == Needed(im, s);
    }
    forall j: nat, p: nat | j < |im'.len| && im'.len[j] <= p < 512 * Blocks(im'.len[j])
      ensures ByteAt(im', j, p) == 0
    {
      assert ByteAt(im, j, p) == 0;
    }
  }
}
