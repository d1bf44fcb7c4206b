/** Bytes, little-endian words and bits of a disk block, as the C code sees them through casts of `bp->data`. */
module Bytes {
  const BSIZE := 512
  const U32 := 0x1_0000_0000

  type byte = x: int | 0 <= x < 256
  type uint = x: int | 0 <= x < 0x1_0000_0000
  type ushort = x: int | 0 <= x < 65536

  /** One 512-byte disk sector. */
  type Block = b: seq<byte> | |b| == 512 witness seq(512, _ => 0)

  function ZeroBlock(): (z: Block)
    ensures forall k :: 0 <= k < 512 ==> z[k] == 0
  {
    seq(512, _ => 0)
  }

  /** memmove(buf + at, src, |src|). */
  function Splice(buf: seq<byte>, at: nat, src: seq<byte>): (r: seq<byte>)
    requires at + |src| <= |buf|
    ensures |r| == |buf|
    ensures forall k :: 0 <= k < |buf| ==> r[k] == if at <= k < at + |src| then src[k - at] else buf[k]
  {
    buf[..at] + src + buf[at + |src|..]
  }

  /* Little-endian words */

  function Get16(b: seq<byte>, at: nat): ushort
    requires at + 2 <= |b|
  {
    b[at] as int + 256 * b[at + 1] as int
  }

  function Get32(b: seq<byte>, at: nat): uint
    requires at + 4 <= |b|
  {
    b[at] as int + 256 * b[at + 1] as int + 65536 * b[at + 2] as int + 16777216 * b[at + 3] as int
  }

  function Enc16(v: ushort): (e: seq<byte>)
    ensures |e| == 2
  {
    [v % 256, v / 256]
  }

  function Enc32(v: uint): (e: seq<byte>)
    ensures |e| == 4
  {
    [v % 256, v / 256 % 256, v / 65536 % 256, v / 16777216]
  }

  lemma DecodeEncode16(b: seq<byte>, at: nat, v: ushort)
    requires at + 2 <= |b|
    requires b[at..at + 2] == Enc16(v)
    ensures Get16(b, at) == v
  {
    assert b[at] == b[at..at + 2][0] && b[at + 1] == b[at..at + 2][1];
  }

  lemma DecodeEncode32(b: seq<byte>, at: nat, v: uint)
    requires at + 4 <= |b|
    requires b[at..at + 4] == Enc32(v)
    ensures Get32(b, at) == v
  {
    var w := b[at..at + 4];
    assert w[0] == b[at] && w[1] == b[at + 1] && w[2] == b[at + 2] && w[3] == b[at + 3];
    assert b[at] == v % 256 && b[at + 1] == v / 256 % 256 && b[at + 2] == v / 65536 % 256 && b[at + 3] == v / 16777216;
    assert v / 256 == 256 * (v / 65536) + v / 256 % 256;
    assert v / 65536 == 256 * (v / 16777216) + v / 65536 % 256;
  }

  /* Words of a block: ((uint*)bp->data)[k] */

  function Word(b: Block, k: nat): uint
    requires k < 128
  {
    Get32(b, 4 * k)
  }

  function SetWord(b: Block, k: nat, v: uint): Block
    requires k < 128
  {
    Splice(b, 4 * k, Enc32(v))
  }

  lemma WordOfSetWord(b: Block, k: nat, v: uint)
    requires k < 128
    ensures forall j :: 0 <= j < 128 ==> Word(SetWord(b, k, v), j) == if j == k then v else Word(b, j)
  {
    var s := SetWord(b, k, v);
    assert s[4 * k..4 * k + 4] == Enc32(v);
    DecodeEncode32(s, 4 * k, v);
    forall j | 0 <= j < 128 && j != k
      ensures Word(s, j) == Word(b, j)
    {
    }
  }

  lemma ZeroWords()
    ensures forall j :: 0 <= j < 128 ==> Word(ZeroBlock(), j) == 0
  {
  }

  /* Bits of a block: bp->data[i/8] & (1 << (i%8)) */

  function Pow2(n: nat): (p: nat)
    ensures p >= 1
  {
    if n == 0 then 1 else 2 * Pow2(n - 1)
  }

  /** (x & (1 << k)) != 0 */
  predicate TestBit(x: nat, k: nat) {
    if k == 0 then x % 2 == 1 else TestBit(x / 2, k - 1)
  }

  /** x | (1 << k) */
  function OrBit(x: nat, k: nat): nat {
    if k == 0 then x / 2 * 2 + 1 else OrBit(x / 2, k - 1) * 2 + x % 2
  }

  /** x & ~(1 << k) */
  function AndNotBit(x: nat, k: nat): nat {
    if k == 0 then x / 2 * 2 else AndNotBit(x / 2, k - 1) * 2 + x % 2
  }

  lemma {:induction false} BitWidth(x: nat, k: nat, n: nat)
    requires k < n && x < Pow2(n)
    ensures OrBit(x, k) < Pow2(n) && AndNotBit(x, k) < Pow2(n)
  {
    var half := Pow2(n - 1);
    assert Pow2(n) == 2 * half && x / 2 < half;
    if k > 0 {
      BitWidth(x / 2, k - 1, n - 1);
      assert OrBit(x, k) == OrBit(x / 2, k - 1) * 2 + x % 2;
      assert AndNotBit(x, k) == AndNotBit(x / 2, k - 1) * 2 + x % 2;
    } else {
      assert OrBit(x, 0) == x / 2 * 2 + 1;
    }
  }

  lemma {:induction false} TestOrBit(x: nat, k: nat, j: nat)
    ensures TestBit(OrBit(x, k), j) <==> (j == k || TestBit(x, j))
    ensures TestBit(AndNotBit(x, k), j) <==> (j != k && TestBit(x, j))
  {
    if k > 0 && j > 0 {
      TestOrBit(x / 2, k - 1, j - 1);
    }
  }

  function OrByte(x: byte, k: nat): byte
    requires k < 8
  {
    assert Pow2(8) == 256;
    BitWidth(x, k, 8);
    OrBit(x, k)
  }

  function AndNotByte(x: byte, k: nat): byte
    requires k < 8
  {
    assert Pow2(8) == 256;
    BitWidth(x, k, 8);
    AndNotBit(x, k)
  }

  predicate Bit(b: Block, i: nat)
    requires i < 8 * BSIZE
  {
    TestBit(b[i / 8], i % 8)
  }

  function SetBit(b: Block, i: nat): Block
    requires i < 8 * BSIZE
  {
    b[i / 8 := OrByte(b[i / 8], i % 8)]
  }

  function ClearBit(b: Block, i: nat): Block
    requires i < 8 * BSIZE
  {
    b[i / 8 := AndNotByte(b[i / 8], i % 8)]
  }

  lemma BitOfSetBit(b: Block, i: nat)
    requires i < 8 * BSIZE
    ensures forall j :: 0 <= j < 8 * BSIZE ==> (Bit(SetBit(b, i), j) <==> (j == i || Bit(b, j)))
    ensures forall j :: 0 <= j < 8 * BSIZE ==> (Bit(ClearBit(b, i), j) <==> (j != i && Bit(b, j)))
  {
    forall j | 0 <= j < 8 * BSIZE
      ensures Bit(SetBit(b, i), j) <==> (j == i || Bit(b, j))
      ensures Bit(ClearBit(b, i), j) <==> (j != i && Bit(b, j))
    {
      TestOrBit(b[i / 8], i % 8, j % 8);
      assert j == i <==> (j / 8 == i / 8 && j % 8 == i % 8);
    }
  }
}
