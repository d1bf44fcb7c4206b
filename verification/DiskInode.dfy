/** The 64-byte on-disk form of an inode, eight to a block. */
module DiskInode {
  import opened Bytes
  import opened FsImage

  /** Little-endian words one after the other. */
  function EncWords(a: seq<uint>): (e: seq<byte>)
    ensures |e| == 4 * |a|
  {
    if a == [] then [] else Enc32(a[0]) + EncWords(a[1..])
  }

  lemma {:induction false} WordInEncWords(a: seq<uint>, k: nat)
    requires k < |a|
    ensures Get32(EncWords(a), 4 * k) == a[k]
  {
    if k == 0 {
      DecodeEncode32(EncWords(a), 0, a[0]);
    } else {
      WordInEncWords(a[1..], k - 1);
      var e, t := EncWords(a), EncWords(a[1..]);
      assert e == Enc32(a[0]) + t;
    }
  }

  function EncInode(ino: Inode): (e: seq<byte>)
    ensures |e| == 64
  {
    Enc16(ino.typ) + Enc16(ino.major) + Enc16(ino.minor) + Enc16(ino.nlink) + Enc32(ino.size) + EncWords(ino.addrs)
  }

  /** ((struct dinode*)bp->data)[k] */
  function GetInode(b: Block, k: nat): Inode
    requires k < IPB
  {
    Inode(Get16(b, 64 * k), Get16(b, 64 * k + 2), Get16(b, 64 * k + 4), Get16(b, 64 * k + 6), Get32(b, 64 * k + 8),
          seq(13, j requires 0 <= j < 13 => Get32(b, 64 * k + 12 + 4 * j)))
  }

  function PutInode(b: Block, k: nat, ino: Inode): Block
    requires k < IPB
  {
    Splice(b, 64 * k, EncInode(ino))
  }

  lemma SameBytesSameInode(b: Block, c: Block, k: nat)
    requires k < IPB && b[64 * k..64 * k + 64] == c[64 * k..64 * k + 64]
    ensures GetInode(b, k) == GetInode(c, k)
  {
    forall at | 64 * k <= at < 64 * k + 64
      ensures b[at] == c[at]
    {
      assert b[at] == b[64 * k..64 * k + 64][at - 64 * k];
      assert c[at] == c[64 * k..64 * k + 64][at - 64 * k];
    }
    assert GetInode(b, k).addrs == GetInode(c, k).addrs;
  }

  lemma EncFields(ino: Inode)
    ensures var e := EncInode(ino);
            && Get16(e, 0) == ino.typ && Get16(e, 2) == ino.major && Get16(e, 4) == ino.minor
                && Get16(e, 6) == ino.nlink
            && Get32(e, 8) == ino.size
            && forall j :: 0 <= j < 13 ==> Get32(e, 12 + 4 * j) == ino.addrs[j]
  {
    var e := EncInode(ino);
    DecodeEncode16(e, 0, ino.typ);
    DecodeEncode16(e, 2, ino.major);
    DecodeEncode16(e, 4, ino.minor);
    DecodeEncode16(e, 6, ino.nlink);
    DecodeEncode32(e, 8, ino.size);
    var w := EncWords(ino.addrs);
    assert e[12..] == w;
    forall j | 0 <= j < 13
      ensures Get32(e, 12 + 4 * j) == ino.addrs[j]
    {
      WordInEncWords(ino.addrs, j);
      assert e[12 + 4 * j..12 + 4 * j + 4] == w[4 * j..4 * j + 4];
      var x, y := e[12 + 4 * j..12 + 4 * j + 4], w[4 * j..4 * j + 4];
      assert x[0] == y[0] && x[1] == y[1] && x[2] == y[2] && x[3] == y[3];
    }
  }

  /** Writing an inode and reading it back; the other seven inodes of the block are left alone. */
  lemma InodeRoundTrip(b: Block, k: nat, ino: Inode)
    requires k < IPB
    ensures GetInode(PutInode(b, k, ino), k) == ino
    ensures forall j :: 0 <= j < IPB && j != k ==> GetInode(PutInode(b, k, ino), j) == GetInode(b, j)
  {
    var c := PutInode(b, k, ino);
    EncFields(ino);
    var e := EncInode(ino);
    assert forall d :: 0 <= d < 64 ==> c[64 * k..64 * k + 64][d] == e[d];
    forall at | 64 * k <= at < 64 * k + 64
      ensures c[at] == e[at - 64 * k]
    {
    }
    forall j | 0 <= j < 13
      ensures Get32(c, 64 * k + 12 + 4 * j) == ino.addrs[j]
    {
      assert Get32(c, 64 * k + 12 + 4 * j) == Get32(e, 12 + 4 * j);
    }
    assert GetInode(c, k).addrs == ino.addrs;
    forall j | 0 <= j < IPB && j != k
      ensures GetInode(c, j) == GetInode(b, j)
    {
      SameBytesSameInode(c, b, j);
    }
  }

  /** The disk holds every inode record: what a crash-free reboot would read back. */
  ghost predicate Synced(im: Image)
    requires Shape(im)
  {
    forall i: nat {:trigger im.inodes[i]} :: i < |im.inodes| ==>
        GetInode(im.disk[InodeBlock(i)], i % IPB) == im.inodes[i]
  }

  /** iupdate writes one record; the sync of the others is kept. */
  lemma UpdateSyncs(im: Image, im': Image, i: nat)
    requires Shape(im) && Shape(im') && i < |im.inodes|
    requires im'.g == im.g && |im'.inodes| == |im.inodes|
    requires forall j: nat :: j < |im.inodes| && j != i ==>
               im'.inodes[j] == im.inodes[j] && GetInode(im.disk[InodeBlock(j)], j % IPB) == im.inodes[j]
    requires im'.disk[InodeBlock(i)] == PutInode(im.disk[InodeBlock(i)], i % IPB, im'.inodes[i])
    requires forall b :: 2 <= b < im.g.ninodes / IPB + 3 && b != InodeBlock(i) ==> im'.disk[b] == im.disk[b]
    ensures Synced(im')
  {
    InodeRoundTrip(im.disk[InodeBlock(i)], i % IPB, im'.inodes[i]);
    forall j: nat | j < |im'.inodes|
      ensures GetInode(im'.disk[InodeBlock(j)], j % IPB) == im'.inodes[j]
    {
      if InodeBlock(j) == InodeBlock(i) {
        assert j == i <==> j % IPB == i % IPB;
      }
    }
  }
}
