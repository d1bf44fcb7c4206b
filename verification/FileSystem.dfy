/** Blocks and files: balloc, bfree, bmap, itrunc, readi, writei, iupdate, ialloc of kernel/fs.c. */
module Fs {
  import opened Bytes
  import opened FsImage
  import opened DiskInode
  import opened FileWrite
  import opened FileTruncate

  const T_DIR := 1
  const T_FILE := 2
  const T_DEV := 3

  /** balloc and ialloc panic when they find nothing. */
  datatype Found = Panic | At(n: nat)

  /* balloc's scan */

  /** Number of bits balloc looks at: whole bitmap blocks, so possibly more than there are blocks. */
  function BitmapBits(g: Geometry): nat
    requires g.Valid()
  {
    ((g.size - 1) / BPB + 1) * BPB
  }

  /** The first clear bit at or after c, n if there is none before n. */
  function FirstClear(g: Geometry, disk: seq<Block>, c: nat, n: nat): nat
    requires c <= n
    decreases n - c
  {
    if c == n || !BitAt(g, disk, c) then c else FirstClear(g, disk, c + 1, n)
  }

  lemma {:induction false} FirstClearIsFirst(g: Geometry, disk: seq<Block>, c: nat, n: nat)
    requires c <= n
    ensures c <= FirstClear(g, disk, c, n) <= n
    ensures forall b :: c <= b < FirstClear(g, disk, c, n) ==> BitAt(g, disk, b)
    ensures FirstClear(g, disk, c, n) < n ==> !BitAt(g, disk, FirstClear(g, disk, c, n))
    decreases n - c
  {
    if c < n && BitAt(g, disk, c) {
      FirstClearIsFirst(g, disk, c + 1, n);
    }
  }

  lemma FirstClearUnique(g: Geometry, disk: seq<Block>, n: nat, x: nat)
    requires x <= n
    requires forall b :: 0 <= b < x ==> BitAt(g, disk, b)
    requires x < n ==> !BitAt(g, disk, x)
    ensures FirstClear(g, disk, 0, n) == x
  {
    FirstClearIsFirst(g, disk, 0, n);
  }

  lemma BitmapFits(g: Geometry)
    requires g.Valid()
    ensures g.size <= BitmapBits(g)
    ensures forall b :: 0 <= b < BitmapBits(g) ==> g.BitmapBlock(b) < g.DataStart()
  {
  }

  /** The inner loop of balloc. */
  method FirstClearBit(bp: Block) returns (bi: nat)
    ensures bi <= BPB
    ensures forall c :: 0 <= c < bi ==> Bit(bp, c)
    ensures bi < BPB ==> !Bit(bp, bi)
  {
    bi := 0;
    while bi < BPB
      invariant bi <= BPB
      invariant forall c :: 0 <= c < bi ==> Bit(bp, c)
    {
      if !Bit(bp, bi) {
        return;
      }
      bi := bi + 1;
    }
  }

  /** What a scan of one bitmap block says about block numbers. */
  lemma BlockScan(g: Geometry, disk: seq<Block>, b: nat, bi: nat)
    requires g.Valid() && b % BPB == 0 && b < g.size <= |disk| && bi <= BPB
    ensures g.BitmapBlock(b) < |disk| && b + BPB <= BitmapBits(g)
    ensures (forall c :: 0 <= c < bi ==> Bit(disk[g.BitmapBlock(b)], c)) ==> forall c :: b <= c < b + bi ==>
            BitAt(g, disk, c)
    ensures bi < BPB ==> g.BitmapBlock(b + bi) == g.BitmapBlock(b) && (b + bi) % BPB == bi
    ensures bi < BPB ==> (BitAt(g, disk, b + bi) <==> Bit(disk[g.BitmapBlock(b)], bi))
  {
    forall c: nat | b <= c < b + bi
      ensures BitAt(g, disk, c) <==> Bit(disk[g.BitmapBlock(b)], c - b)
    {
      assert c / BPB == b / BPB && c % BPB == c - b;
    }
  }

  lemma BitmapEnd(g: Geometry, b: nat)
    requires g.Valid() && b % BPB == 0 && g.size <= b <= BitmapBits(g)
    ensures b == BitmapBits(g)
  {
  }

  /** balloc hands out a block of the file system exactly when some block is still free. */
  lemma BallocInRangeIff(g: Geometry, disk: seq<Block>)
    requires g.Valid()
    ensures FirstClear(g, disk, 0, BitmapBits(g)) < g.size <==> exists b: nat :: b < g.size && !BitAt(g, disk, b)
  {
    BitmapFits(g);
    FirstClearIsFirst(g, disk, 0, BitmapBits(g));
  }

  /**
   When no block is free, and the size is not a multiple of the bits in a bitmap block, the result is past the end.
   */
  lemma FullDiskOverruns(g: Geometry, disk: seq<Block>)
    requires g.Valid() && g.size < BitmapBits(g) && !BitAt(g, disk, g.size)
    requires forall b :: 0 <= b < g.size ==> BitAt(g, disk, b)
    ensures FirstClear(g, disk, 0, BitmapBits(g)) == g.size
  {
    FirstClearUnique(g, disk, BitmapBits(g), g.size);
  }

  class FileSystem {
    var disk: seq<Block>
    var inodes: seq<Inode>   // the inode records, as in the inode cache
    ghost const g: Geometry
    ghost var owner: map<nat, Slot>
    ghost var len: seq<nat>

    /** A kernel starting on a disk image: the inode records are those on disk. */
    constructor Mount(image: seq<Block>, ghost im: Image)
      requires Quiet(im) && Synced(im) && im.disk == image
      ensures Valid() && Img() == im
    {
      hide Refs, Owns, BitmapExact, FreeBlocksZero, NoHoles, TailZero, GetInode;
      var ninodes, i, recs := Word(image[1], 2), 0, [];
      while i < ninodes
        invariant i <= ninodes && recs == im.inodes[..i]
      {
        assert GetInode(image[InodeBlock(i)], i % IPB) == im.inodes[i];
        recs := recs + [GetInode(image[InodeBlock(i)], i % IPB)];
        i := i + 1;
      }
      assert recs == im.inodes;
      disk, inodes, g, owner, len := image, recs, im.g, im.owner, im.len;
      new;
      assert Img() == im;
    }

    ghost function Img(): Image
      reads this
    {
      Image(g, disk, inodes, owner, len)
    }

    /** The state between two system calls. */
    ghost predicate Valid()
      reads this
    {
      Quiet(Img()) && Synced(Img())
    }

    /** Content of inode i as a byte string. */
    ghost function Content(i: nat): seq<byte>
      requires i < |inodes|
      reads this
    {
      Data(Img(), i, inodes[i].size)
    }

    method Readsb() returns (size: uint, ninodes: uint)
      requires Superblock(g, disk)
      ensures size == g.size && ninodes == g.ninodes
    {
      size, ninodes := Word(disk[1], 0), Word(disk[1], 2);
    }

    method Balloc() returns (r: Found)
      requires Superblock(g, disk)
      modifies this`disk
      ensures var c := FirstClear(g, old(disk), 0, BitmapBits(g)); r == if c < BitmapBits(g) then At(c) else Panic
      ensures r.Panic? ==> disk == old(disk)
      ensures r.At? ==> g.BitmapBlock(r.n) < |old(disk)|
                        && disk == old(disk)[g.BitmapBlock(r.n) := SetBit(old(disk)[g.BitmapBlock(r.n)], r.n % BPB)]
    {
      hide Bit, SetBit, FirstClear, BitAt;
      BitmapFits(g);
      var size, ninodes := Readsb();
      var b := 0;
      while b < size
        invariant b % BPB == 0 && b <= BitmapBits(g)
        invariant disk == old(disk)
        invariant forall c :: 0 <= c < b ==> BitAt(g, old(disk), c)
      {
        var bp := b / BPB + ninodes / IPB + 3;
        var bi := FirstClearBit(disk[bp]);
        BlockScan(g, disk, b, bi);
        if bi < BPB {
          FirstClearUnique(g, disk, BitmapBits(g), b + bi);
          disk := disk[bp := SetBit(disk[bp], bi)];
          return At(b + bi);
        }
        b := b + BPB;
      }
      BitmapEnd(g, b);
      FirstClearUnique(g, disk, BitmapBits(g), b);
      return Panic;
    }

    /** Freeing a free block panics, hence the last requires. */
    method Bfree(b: nat)
      requires Superblock(g, disk) && g.DataStart() <= b < g.size && BitAt(g, disk, b)
      modifies this`disk
      ensures Img().(owner := owner - {b}) == Free(old(Img()), b)
    {
      disk := disk[b := ZeroBlock()];
      var size, ninodes := Readsb();
      var bp := b / BPB + ninodes / IPB + 3;
      disk := disk[bp := ClearBit(disk[bp], b % BPB)];
    }

    /** balloc as bmap uses it, while `view` is what the inode records will be accounted as. */
    method BallocFresh(ghost view: seq<Inode>) returns (b: uint)
      requires Inv(Img().(inodes := view)) && FreeCount(Img()) > 0
      modifies this`disk, this`owner
      ensures b < g.size && !BitAt(g, old(disk), b) && g.BitmapBlock(b) < |old(disk)|
      ensures Img().(inodes := view) == Take(old(Img()).(inodes := view), b)
    {
      ghost var c := SomeBlockIsFree(Img().(inodes := view));
      assert !BitAt(g, disk, c);
      BallocInRangeIff(g, disk);
      FirstClearIsFirst(g, disk, 0, BitmapBits(g));
      var r := Balloc();
      b := r.n;
      owner := owner[b as nat := Fresh];
    }

    method Bmap(i: nat, bn: nat) returns (addr: uint)
      requires Inv(Img()) && Settled(Img()) && i < |inodes| && bn < MAXFILE
      requires bn < Blocks(len[i]) || CanExtend(Img(), i, bn)
      modifies this
      ensures Mapped(old(Img()), Img(), i, bn)
      ensures addr == Addr(Img(), DataSlot(i, bn))
    {
      ghost var im := Img();
      if bn < NDIRECT {
        addr := inodes[i].addrs[bn];
        assert addr == Addr(im, DataSlot(i, bn)) && (addr == 0 <==> !Needed(im, DataSlot(i, bn)));
        if addr == 0 {
          addr := BallocFresh(inodes);
          inodes := inodes[i := SetAddr(inodes[i], bn, addr)];
          owner, len := owner[addr as nat := Direct(i, bn)], len[i := bn * 512 + 1];
          assert Img() == StoreDirect(Take(im, addr), i, bn, addr);
          MapDirect(im, i, bn, addr);
        } else {
          MapExisting(im, i, bn);
        }
      } else {
        addr := BmapIndirect(i, bn - NDIRECT);
      }
    }

    /** The first half of the indirect case of bmap (fs.c:333-335). */
    method LoadIndirect(i: nat, ghost k: nat) returns (ind: uint)
      requires Inv(Img()) && Settled(Img()) && i < |inodes| && k < NINDIRECT
      requires NDIRECT + k < Blocks(len[i]) || CanExtend(Img(), i, NDIRECT + k)
      modifies this
      ensures 0 < ind < |disk| && g.DataStart() <= ind && Inv(Img().(inodes := old(inodes)))
      ensures if Addr(old(Img()), Indirect(i)) != 0 then Img() == old(Img())
              && ind == Addr(old(Img()), Indirect(i)) else
                && k == 0 && disk[ind] == ZeroBlock() && FreeCount(Img()) > 0 && CanExtend(old(Img()), i, NDIRECT)
                && inodes == old(inodes)[i := SetAddr(old(inodes[i]), NDIRECT, ind)]
                && ind < g.size && !BitSet(old(Img()), ind) && Img().(inodes := old(inodes)) == Take(old(Img()), ind)
    {
      ghost var im := Img();
      ind := inodes[i].addrs[NDIRECT];
      assert ind == Addr(im, Indirect(i));
      if ind == 0 {
        ind := BallocFresh(inodes);
        FreshIndirect(im, i, k, ind);
        inodes := inodes[i := SetAddr(inodes[i], NDIRECT, ind)];
      } else {
        assert ind in im.owner;
      }
    }

    /**
     bmap from fs.c:330 on. A new indirect block is used as it comes from balloc: its entries read 0 because free
     blocks are zero.
     */
    method BmapIndirect(i: nat, k: nat) returns (addr: uint)
      requires Inv(Img()) && Settled(Img()) && i < |inodes| && k < NINDIRECT
      requires NDIRECT + k < Blocks(len[i]) || CanExtend(Img(), i, NDIRECT + k)
      modifies this
      ensures Mapped(old(Img()), Img(), i, NDIRECT + k)
      ensures addr == Addr(Img(), Entry(i, k))
    {
      hide Refs, Owns, BitmapExact, FreeBlocksZero, TailZero, ByteAt, Mapped, BitAt, SetBit, SetWord, SameBytes,
           FreeCount, Blocks, AllBlocks;
      ghost var im := Img();
      var ind := LoadIndirect(i, k);
      ghost var im1 := Img().(inodes := im.inodes);
      ZeroWords();
      var a := disk[ind];
      addr := Word(a, k);
      assert Addr(im, Entry(i, k)) == 0 <==> !Needed(im, Entry(i, k));
      if addr == 0 {
        addr := BallocFresh(im.inodes);
        TakeKeepsInv(im1, addr);
        disk := disk[ind := SetWord(a, k, addr)];
        len := len[i := (NDIRECT + k) * 512 + 1];
        if Addr(im, Indirect(i)) != 0 {
          owner := owner[addr as nat := Entry(i, k)];
          MapEntry(im, i, k, addr);
          assert Img() == StoreEntry(Take(im, addr), i, k, addr);
        } else {
          owner := owner[ind as nat := Indirect(i)][addr as nat := Entry(i, k)];
          MapFirstEntry(im, i, ind, addr);
          assert Img() == StoreFirstEntry(Take(im1, addr), i, ind, addr);
        }
      } else {
        MapExisting(im, i, NDIRECT + k);
      }
    }

    /** Copy the in-core record of inode i to its place on disk. */
    method Iupdate(i: nat)
      requires Superblock(g, disk) && i < |inodes| == g.ninodes
      modifies this`disk
      ensures disk == old(disk)[InodeBlock(i) := PutInode(old(disk)[InodeBlock(i)], i % IPB, inodes[i])]
    {
      disk := disk[InodeBlock(i) := PutInode(disk[InodeBlock(i)], i % IPB, inodes[i])];
    }

    /**
     Result -1 when off is past the end or off + n wraps around; otherwise the bytes between off and
     off + n, cut at the end of the file. Reading allocates nothing.
     */
    method Readi(i: nat, off: uint, n: uint) returns (r: int, dst: seq<byte>)
      requires Valid() && i < |inodes| && inodes[i].typ != T_DEV
      modifies this
      ensures Img() == old(Img())
      ensures off > inodes[i].size || off + n >= U32 ==> r == -1 && dst == []
      ensures off <= inodes[i].size && off + n < U32 ==>
                r == |dst| && dst == Content(i)[off..if off + n > inodes[i].size then inodes[i].size else off + n]
    {
      hide Refs, Owns, BitmapExact, FreeBlocksZero, NoHoles, TailZero, SameBytes, Addr, GetInode, Mapped, ByteAt;
      dst := [];
      if off > inodes[i].size || (off + n) % U32 < off {
        return -1, [];
      }
      var n' := n;
      if off + n > inodes[i].size {
        n' := inodes[i].size - off;
      }
      var tot, o := 0, off;
      while tot < n'
        invariant tot <= n' && o == off + tot
        invariant Img() == old(Img())
        invariant dst == Content(i)[off..o]
      {
        ghost var im := Img();
        var addr := Bmap(i, o / 512);
        MappedExisting(im, Img(), i, o / 512);
        var m := if n' - tot < 512 - o % 512 then n' - tot else 512 - o % 512;
        ReadChunk(Img(), i, o, m, off);
        dst := dst + disk[addr][o % 512..o % 512 + m];
        tot, o := tot + m, o + m;
      }
      return n', dst;
    }

    /** The body of writei's loop: get the block, put the bytes in it, write it back. */
    method WriteChunk(i: nat, bn: nat, at: nat, s: seq<byte>) returns (ghost im1: Image)
      requires Inv(Img()) && Settled(Img()) && i < |inodes| && bn < MAXFILE && at + |s| <= 512
      requires bn < Blocks(len[i]) || CanExtend(Img(), i, bn)
      modifies this
      ensures Mapped(old(Img()), im1, i, bn)
      ensures Addr(im1, DataSlot(i, bn)) < |im1.disk| && Img() == WriteData(im1, i, bn, at, s)
    {
      hide BitmapExact, FreeBlocksZero, NoHoles, TailZero, SameBytes, ByteAt, Splice, FreeCount, AllBlocks, Settled;
      var addr := Bmap(i, bn);
      im1 := Img();
      assert addr in owner && addr < |disk|;
      disk := disk[addr := Splice(disk[addr], at, s)];
      len := len[i := Max(len[i], bn * 512 + at + |s|)];
    }

    /** writei's loop. */
    method WriteBlocks(i: nat, src: seq<byte>, off: uint)
      requires Inv(Img()) && Settled(Img()) && i < |inodes| && off <= len[i] && Room(Img(), i, off + |src|)
      modifies this
      ensures Written(old(Img()), Img(), i, off, src, |src|)
    {
      hide Refs, Owns, BitmapExact, FreeBlocksZero, NoHoles, TailZero, SameBytes, ByteAt, Addr, FreeCount, Blocks,
           AllBlocks, Splice;
      ghost var im0 := Img();
      NothingWritten(im0, i, off, src);
      var tot, o := 0, off;
      while tot < |src|
        invariant tot <= |src| && o == off + tot
        invariant Written(im0, Img(), i, off, src, tot)
      {
        MayMap(im0, Img(), i, off, src, tot);
        ghost var im := Img();
        var m := if |src| - tot < 512 - o % 512 then |src| - tot else 512 - o % 512;
        ghost var im1 := WriteChunk(i, o / 512, o % 512, src[tot..tot + m]);
        WriteStep(im0, im, im1, i, off, src, tot);
        tot, o := tot + m, o + m;
      }
    }

    /**
     Result -1 when off is past the end or off + n wraps around (nothing is written then). Otherwise m = |src|,
     cut at the largest file size, bytes are stored at off. The file grows if needed; no other file changes.
     */
    method Writei(i: nat, src: seq<byte>, off: uint) returns (r: int)
      requires Valid() && i < |inodes| && inodes[i].typ != T_DEV && inodes[i].typ != 0 && |src| < U32
      requires off <= inodes[i].size && off + |src| < U32 ==> Room(Img(), i, off + WriteSize(off, |src|))
      modifies this
      ensures off > old(inodes[i].size) || off + |src| >= U32 ==> r == -1 && Img() == old(Img())
      ensures off <= old(inodes[i].size) && off + |src| < U32 ==>
                r == WriteSize(off, |src|) && WriteDone(old(Img()), Img(), i, off, src[..r])
      ensures Valid()
    {
      hide Refs, Owns, BitmapExact, FreeBlocksZero, NoHoles, TailZero, SameBytes, ByteAt, Addr, GetInode, PutInode,
           FreeCount, Blocks, AllBlocks, Splice, WriteDone, Overwrite, Data, Settled, Synced;
      if off > inodes[i].size || (off + |src|) % U32 < off {
        return -1;
      }
      var n: nat := |src|;
      if off + n > MAXBYTES {
        n := MAXBYTES - off;
      }
      ghost var im0 := Img();
      WriteBlocks(i, src[..n], off);
      var o := off + n;
      ghost var im := Img();
      if n > 0 && o > inodes[i].size {
        FinishGrown(im0, im, i, off, src[..n]);
        inodes := inodes[i := inodes[i].(size := o)];
        Iupdate(i);
        assert Img() == SetSize(im, i, o);
      } else {
        FinishInPlace(im0, im, i, off, src[..n]);
      }
      return n;
    }

    /** bfree of a block that a truncation has detached; v accounts for it. */
    method BfreeDead(b: nat, ghost v: Image) returns (ghost v': Image)
      requires Inv(v) && v.g == g && v.disk == disk && b in v.owner && v.owner[b] == Dead
      modifies this`disk
      ensures v' == Free(v, b) && disk == v'.disk
    {
      hide Refs, BitmapExact, FreeBlocksZero, NoHoles, TailZero, ByteAt, BitAt, ClearBit;
      FreeKeepsInv(v, b);
      Bfree(b);
      v' := Free(v, b);
    }

    method ItruncDirect(i: nat) returns (ghost v: Image)
      requires Valid() && i < |inodes|
      modifies this`disk, this`inodes
      ensures Addr(old(Img()), Indirect(i)) < |old(disk)| && Truncating(old(Img()), v, i, NDIRECT, 0, false)
              && disk == v.disk
      ensures |inodes| == |old(inodes)|
      ensures inodes[i] == old(inodes[i]).(addrs := inodes[i].addrs)
              && inodes[i].addrs == NoAddrs()[NDIRECT := old(inodes[i]).addrs[NDIRECT]]
      ensures forall j :: 0 <= j < |inodes| && j != i ==> inodes[j] == old(inodes[j])
    {
      hide Refs, Owns, BitmapExact, FreeBlocksZero, NoHoles, TailZero, ByteAt, Remaining, Returned, BitAt, GetInode,
           FreeCount, Settled, Synced, Truncating, Free;
      ghost var im0 := Img();
      TruncateStart(im0, i);
      v := Detach(im0, i);
      var k := 0;
      while k < NDIRECT
        invariant k <= NDIRECT && Truncating(im0, v, i, k, 0, false) && disk == v.disk
        invariant |inodes| == |im0.inodes| && inodes[i] == im0.inodes[i].(addrs := inodes[i].addrs)
        invariant forall j :: 0 <= j < k ==> inodes[i].addrs[j] == 0
        invariant forall j :: k <= j < 13 ==> inodes[i].addrs[j] == im0.inodes[i].addrs[j]
        invariant forall j :: 0 <= j < |inodes| && j != i ==> inodes[j] == im0.inodes[j]
      {
        TruncateStep(im0, v, i, k, 0, false, Direct(i, k), k + 1, 0, false);
        if inodes[i].addrs[k] != 0 {
          TruncatingDead(im0, v, i, k, 0, false, Direct(i, k));
          v := BfreeDead(inodes[i].addrs[k], v);
          inodes := inodes[i := SetAddr(inodes[i], k, 0)];
        }
        k := k + 1;
      }
    }

    /** The second half of itrunc; the entries are read from the indirect block while the blocks they name are freed. */
    method ItruncIndirect(i: nat, ghost im0: Image, ghost v0: Image) returns (ghost v: Image)
      requires Inv(im0) && im0.g == g && i < |im0.len| && |inodes| == |im0.inodes|
      requires Addr(im0, Indirect(i)) < |im0.disk| && Truncating(im0, v0, i, NDIRECT, 0, false) && disk == v0.disk
      requires inodes[i].addrs[NDIRECT] == Addr(im0, Indirect(i))
      modifies this`disk, this`inodes
      ensures Truncating(im0, v, i, NDIRECT, NINDIRECT, true) && disk == v.disk
      ensures inodes == old(inodes)[i := SetAddr(old(inodes)[i], NDIRECT, 0)]
    {
      hide Refs, Owns, BitmapExact, FreeBlocksZero, NoHoles, TailZero, ByteAt, Remaining, Returned, BitAt, SetAddr,
           FreeCount, Free;
      v := v0;
      var ind := inodes[i].addrs[NDIRECT];
      if ind != 0 {
        var a := disk[ind];
        var j := 0;
        while j < NINDIRECT
          invariant j <= NINDIRECT && Truncating(im0, v, i, NDIRECT, j, false) && disk == v.disk
          invariant inodes == old(inodes)
        {
          TruncateStep(im0, v, i, NDIRECT, j, false, Entry(i, j), NDIRECT, j + 1, false);
          assert Word(a, j) == Addr(im0, Entry(i, j));
          if Word(a, j) != 0 {
            TruncatingDead(im0, v, i, NDIRECT, j, false, Entry(i, j));
            v := BfreeDead(Word(a, j), v);
          }
          j := j + 1;
        }
        TruncateStep(im0, v, i, NDIRECT, NINDIRECT, false, Indirect(i), NDIRECT, NINDIRECT, true);
        TruncatingDead(im0, v, i, NDIRECT, NINDIRECT, false, Indirect(i));
        v := BfreeDead(ind, v);
        inodes := inodes[i := SetAddr(inodes[i], NDIRECT, 0)];
      } else {
        NoEntries(im0, v, i);
        assert inodes[i] == SetAddr(inodes[i], NDIRECT, 0) by {
          SetSameAddr(inodes[i]);
        }
      }
    }

    method Itrunc(i: nat)
      requires Valid() && i < |inodes|
      modifies this
      ensures Truncated(old(Img()), Img(), i) && Valid()
    {
      hide Refs, Owns, BitmapExact, FreeBlocksZero, NoHoles, TailZero, ByteAt, Remaining, Returned, BitAt, GetInode,
           PutInode, FreeCount;
      ghost var im0 := Img();
      ghost var v := ItruncDirect(i);
      v := ItruncIndirect(i, im0, v);
      inodes := inodes[i := inodes[i].(size := 0)];
      Iupdate(i);
      owner, len := v.owner, v.len;
      assert inodes[i].addrs == NoAddrs();
      assert inodes == v.inodes;
      assert Img() == SetSize(v, i, 0);
      TruncateEnd(im0, v, i);
    }

    /** Store fields other than size and blocks in the record of inode i, and iupdate. */
    method SetFields(i: nat, ino: Inode)
      requires Valid() && i < |inodes|
      requires ino.addrs == inodes[i].addrs && ino.size == inodes[i].size && (ino.typ == 0 ==> ino.size == 0)
      modifies this`disk, this`inodes
      ensures RecordSet(old(Img()), Img(), i, ino) && Valid()
    {
      hide Refs, Owns, BitmapExact, FreeBlocksZero, NoHoles, TailZero, ByteAt, GetInode, PutInode;
      SetRecordDone(Img(), i, ino);
      inodes := inodes[i := ino];
      Iupdate(i);
    }

    /** The last step of iput for an inode with no links: give back its blocks, then mark it free. */
    method FreeInode(i: nat)
      requires Valid() && i < |inodes|
      modifies this
      ensures Valid() && OthersSame(old(Img()), Img(), i)
      ensures inodes[i] == old(inodes[i]).(typ := 0, size := 0, addrs := NoAddrs())
      ensures FreeCount(Img()) == old(FreeCount(Img())) + AllBlocks(old(inodes[i].size))
    {
      hide Refs, Owns, BitmapExact, FreeBlocksZero, NoHoles, TailZero, ByteAt, GetInode, PutInode, Synced, Settled;
      Itrunc(i);
      SetFields(i, inodes[i].(typ := 0));
    }

    /** Inodes are looked for on disk, from number 1 on; the new one is all zero except for its type. */
    method Ialloc(typ: ushort) returns (r: Found)
      requires Valid() && typ != 0
      modifies this`disk, this`inodes
      ensures r.Panic? ==> Img() == old(Img()) && forall j :: 1 <= j < |inodes| ==> inodes[j].typ != 0
      ensures r.At? ==>
                1 <= r.n < |inodes| == |old(inodes)| && old(inodes)[r.n].typ == 0
                && forall j :: 1 <= j < r.n ==> inodes[j].typ != 0
      ensures r.At? ==> RecordSet(old(Img()), Img(), r.n, Inode(typ, 0, 0, 0, 0, NoAddrs()))
      ensures Valid()
    {
      hide Refs, Owns, BitmapExact, FreeBlocksZero, TailZero, ByteAt, GetInode, PutInode, Settled, NoHoles, Addr,
           Needed;
      var size, ninodes := Readsb();
      var inum := 1;
      while inum < ninodes
        invariant 1 <= inum <= ninodes && Img() == old(Img())
        invariant forall j :: 1 <= j < inum ==> inodes[j].typ != 0
      {
        assert GetInode(disk[InodeBlock(inum)], inum % IPB) == inodes[inum];
        if GetInode(disk[InodeBlock(inum)], inum % IPB).typ == 0 {
          EmptyHasNoBlocks(Img(), inum);
          SetFields(inum, Inode(typ, 0, 0, 0, 0, NoAddrs()));
          return At(inum);
        }
        inum := inum + 1;
      }
      return Panic;
    }
  }

  lemma EmptyHasNoBlocks(im: Image, i: nat)
    requires Quiet(im) && i < |im.inodes| && im.inodes[i].size == 0
    ensures im.inodes[i].addrs == NoAddrs()
  {
    forall k | 0 <= k < 13
      ensures im.inodes[i].addrs[k] == 0
    {
      var s := if k < NDIRECT then Direct(i, k) else Indirect(i);
      assert Addr(im, s) != 0 <==> Needed(im, s);
    }
  }

  lemma SetSameAddr(ino: Inode)
    requires ino.addrs[NDIRECT] == 0
    ensures SetAddr(ino, NDIRECT, 0) == ino
  {
    assert ino.addrs[NDIRECT := 0] == ino.addrs;
  }

  /** A file without an indirect block has nothing left once its direct blocks are gone. */
  lemma NoEntries(im0: Image, v: Image, i: nat)
    requires Inv(im0) && i < |im0.len| && Addr(im0, Indirect(i)) == 0
    requires Truncating(im0, v, i, NDIRECT, 0, false)
    ensures Truncating(im0, v, i, NDIRECT, NINDIRECT, true)
  {
    hide BitmapExact, FreeBlocksZero, TailZero, ByteAt;
    assert !Needed(im0, Indirect(i));
    forall c | c in im0.owner
      ensures Gone(im0.owner[c], i, NDIRECT, NINDIRECT, true) <==> Gone(im0.owner[c], i, NDIRECT, 0, false)
    {
      assert Addr(im0, im0.owner[c]) != 0 || im0.owner[c].Fresh? || im0.owner[c].Dead?;
      assert im0.owner[c].Entry? ==> Needed(im0, im0.owner[c]);
    }
    assert Remaining(im0, i, NDIRECT, NINDIRECT, true) == Remaining(im0, i, NDIRECT, 0, false);
  }

  /** How much of an n byte write at off fits in a file. */
  function WriteSize(off: nat, n: nat): int {
    if off + n > MAXBYTES then MAXBYTES - off else n
  }

  lemma ReadChunk(im: Image, i: nat, o: nat, m: nat, off: nat)
    requires Quiet(im) && i < |im.inodes| && off <= o && o + m <= im.inodes[i].size && o % 512 + m <= 512
    requires Addr(im, DataSlot(i, o / 512)) != 0
    ensures Addr(im, DataSlot(i, o / 512)) < |im.disk|
    ensures Data(im, i, im.inodes[i].size)[off..o + m] ==
            Data(im, i, im.inodes[i].size)[off..o] + im.disk[Addr(im, DataSlot(i, o / 512))][o % 512..o % 512 + m]
  {
    var c, a := Data(im, i, im.inodes[i].size), Addr(im, DataSlot(i, o / 512));
    assert a in im.owner;
    forall p | o <= p < o + m
      ensures c[p] == im.disk[a][o % 512..o % 512 + m][p - o]
    {
      assert p / 512 == o / 512;
    }
  }
}
