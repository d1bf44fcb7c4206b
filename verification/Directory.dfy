/** A directory's contents as a finite map from names to inode numbers. */
module Directory {
  import opened Bytes
  import opened FileWrite

  const DIRSIZ := 14

  /** A name as a directory holds it. */
  type Name = seq<byte>

  function DotName(): Name { [46] }
  function DotDotName(): Name { [46, 46] }

  /** What strncmp(_, _, DIRSIZ) sees of a name: up to the first NUL, at most 14 bytes. */
  function Key(s: seq<byte>): (k: seq<byte>) {
    Cut(s, DIRSIZ)
  }

  function Cut(s: seq<byte>, n: nat): (k: seq<byte>)
    ensures |k| <= n && k <= s && 0 !in k
  {
    if n == 0 || s == [] || s[0] == 0 then [] else [s[0]] + Cut(s[1..], n - 1)
  }

  /** The longest prefix without a NUL, of at most n bytes. */
  lemma {:induction false} CutIs(s: seq<byte>, n: nat, k: seq<byte>)
    ensures k == Cut(s, n) <==> k <= s && |k| <= n && 0 !in k && (|k| == n || |k| == |s| || s[|k|] == 0)
  {
    if n > 0 && s != [] && s[0] != 0 && k != [] && k[0] == s[0] {
      CutIs(s[1..], n - 1, k[1..]);
      assert k == [k[0]] + k[1..] && s == [s[0]] + s[1..];
    }
  }

  lemma KeyIs(s: seq<byte>, k: seq<byte>)
    ensures k == Key(s) <==> k <= s && |k| <= 14 && 0 !in k && (|k| == 14 || |k| == |s| || s[|k|] == 0)
  {
    CutIs(s, DIRSIZ, k);
  }

  /** s[k] of a NUL-terminated string. */
  function CharAt(s: seq<byte>, k: nat): byte {
    if k < |s| then s[k] else 0
  }

  lemma CutUnfold(s: seq<byte>, n: nat)
    requires n > 0
    ensures if CharAt(s, 0) == 0 then Cut(s, n) == [] else s != [] && Cut(s, n) == [CharAt(s, 0)] + Cut(s[1..], n - 1)
    ensures s != [] ==> forall j: nat :: CharAt(s[1..], j) == CharAt(s, j + 1)
  {
  }

  lemma {:induction false} CutAgree(s: seq<byte>, t: seq<byte>, n: nat, m: nat)
    requires m <= n
    requires forall j :: 0 <= j < m ==> CharAt(s, j) == CharAt(t, j) && CharAt(s, j) != 0
    ensures m == n ==> Cut(s, n) == Cut(t, n)
    ensures m < n && CharAt(s, m) != CharAt(t, m) ==> Cut(s, n) != Cut(t, n)
    ensures m < n && CharAt(s, m) == CharAt(t, m) == 0 ==> Cut(s, n) == Cut(t, n)
  {
    if n > 0 {
      CutUnfold(s, n);
      CutUnfold(t, n);
      hide Cut, CharAt;
      if m > 0 {
        assert CharAt(s, 0) == CharAt(t, 0) != 0;
        assert Cut(s, n)[1..] == Cut(s[1..], n - 1) && Cut(t, n)[1..] == Cut(t[1..], n - 1);
        CutAgree(s[1..], t[1..], n - 1, m - 1);
      } else if CharAt(s, 0) != 0 && CharAt(t, 0) != 0 {
        assert Cut(s, n)[0] == CharAt(s, 0) && Cut(t, n)[0] == CharAt(t, 0);
      }
    }
  }

  /** namecmp: strncmp with bound DIRSIZ, string.c:54. */
  method Namecmp(s: seq<byte>, t: seq<byte>) returns (r: int)
    ensures r == 0 <==> Key(s) == Key(t)
  {
    var n, k := DIRSIZ, 0;
    while n > 0 && CharAt(s, k) != 0 && CharAt(s, k) == CharAt(t, k)
      invariant 0 <= n && n + k == DIRSIZ
      invariant forall j :: 0 <= j < k ==> CharAt(s, j) == CharAt(t, j) && CharAt(s, j) != 0
      decreases n
    {
      n, k := n - 1, k + 1;
    }
    CutAgree(s, t, DIRSIZ, k);
    if n == 0 {
      return 0;
    }
    return CharAt(s, k) - CharAt(t, k);
  }

  /** strncpy(de.name, name, DIRSIZ): string.c:65. */
  method Strncpy(t: seq<byte>) returns (s: seq<byte>)
    ensures |s| == DIRSIZ && Key(s) == Key(t)
  {
    var n, k := DIRSIZ, 0;
    s := [];
    var stop := false;
    while n > 0 && !stop
      invariant 0 <= n && n + k == DIRSIZ && |s| == k
      invariant !stop ==> forall j :: 0 <= j < k ==> s[j] == CharAt(t, j) != 0
      invariant stop ==> k > 0 && s[k - 1] == 0 == CharAt(t, k - 1) && forall j :: 0 <= j < k - 1 ==>
                s[j] == CharAt(t, j) != 0
      decreases n, if stop then 0 else 1
    {
      s := s + [CharAt(t, k)];
      stop := CharAt(t, k) == 0;
      n, k := n - 1, k + 1;
    }
    ghost var k0, s0 := k, s;
    while n > 0
      invariant 0 <= n && n + k == DIRSIZ && |s| == k && k0 <= k && s[..k0] == s0
      invariant !stop ==> k0 == k == DIRSIZ
    {
      s := s + [0];
      n, k := n - 1, k + 1;
    }
    assert forall j :: 0 <= j < k0 ==> CharAt(s, j) == s0[j];
    CutAgree(t, s, DIRSIZ, if stop then k0 - 1 else DIRSIZ);
  }

  /* Entries */

  /** struct dirent, with the name as namecmp sees it. inum 0 marks an unused entry. */
  datatype Dirent = Dirent(inum: ushort, key: seq<byte>)

  function Decode(e: seq<byte>): Dirent
    requires |e| == 16
  {
    Dirent(Get16(e, 0), Key(e[2..]))
  }

  function Encode(inum: ushort, name: seq<byte>): (e: seq<byte>)
    requires |name| == DIRSIZ
    ensures |e| == 16
  {
    Enc16(inum) + name
  }

  lemma DecodeEncode(inum: ushort, name: seq<byte>)
    requires |name| == DIRSIZ
    ensures Decode(Encode(inum, name)) == Dirent(inum, Key(name))
  {
    var e := Encode(inum, name);
    assert e[2..] == name;
    DecodeEncode16(e, 0, inum);
  }

  /** The entries of directory content c. */
  function Entries(c: seq<byte>): (es: seq<Dirent>)
    ensures |es| == |c| / 16
    ensures forall k :: 0 <= k < |es| ==> es[k] == Decode(c[16 * k..16 * k + 16])
  {
    seq(|c| / 16, k requires 0 <= k < |c| / 16 => Decode(c[16 * k..16 * k + 16]))
  }

  /** The map a list of entries stands for. */
  function DirMap(es: seq<Dirent>): map<seq<byte>, ushort> {
    if es == [] then map[]
    else
      var m, e := DirMap(es[..|es| - 1]), es[|es| - 1];
      if e.inum == 0 then m else m[e.key := e.inum]
  }

  /** No two live entries have one name. */
  ghost predicate Unique(es: seq<Dirent>) {
    forall j, k :: 0 <= j < k < |es| && es[j].inum != 0 && es[k].inum != 0 ==> es[j].key != es[k].key
  }

  ghost predicate Live(es: seq<Dirent>, k: nat, key: seq<byte>) {
    k < |es| && es[k].inum != 0 && es[k].key == key
  }

  lemma {:induction false} DirMapIff(es: seq<Dirent>, key: seq<byte>)
    requires Unique(es)
    ensures key in DirMap(es) <==> exists k: nat :: Live(es, k, key)
    ensures forall k: nat :: Live(es, k, key) ==> key in DirMap(es) && DirMap(es)[key] == es[k].inum
  {
    if es != [] {
      var init := es[..|es| - 1];
      DirMapIff(init, key);
      forall k: nat | Live(es, k, key)
        ensures key in DirMap(es) && DirMap(es)[key] == es[k].inum
      {
        if k < |init| {
          assert Live(init, k, key);
        }
      }
      if k: nat :| Live(init, k, key) {
        assert Live(es, k, key);
      }
      if es[|es| - 1].inum != 0 && es[|es| - 1].key == key {
        assert Live(es, |es| - 1, key);
      }
    }
  }

  /** es with e put in slot k, which may be the one just past the end. */
  function Put(es: seq<Dirent>, k: nat, e: Dirent): seq<Dirent>
    requires k <= |es|
  {
    if k == |es| then es + [e] else es[k := e]
  }

  lemma PutInsert(es: seq<Dirent>, k: nat, e: Dirent)
    requires Unique(es) && k <= |es| && (k < |es| ==> es[k].inum == 0)
    requires e.inum != 0 && e.key !in DirMap(es)
    ensures Unique(Put(es, k, e))
    ensures DirMap(Put(es, k, e)) == DirMap(es)[e.key := e.inum]
  {
    var es' := Put(es, k, e);
    DirMapIff(es, e.key);
    forall j: nat | j < |es| && es[j].inum != 0
      ensures es[j].key != e.key
    {
      assert Live(es, j, es[j].key);
    }
    assert Unique(es');
    forall key
      ensures key in DirMap(es') <==> key in DirMap(es) || key == e.key
      ensures key in DirMap(es') ==> DirMap(es')[key] == if key == e.key then e.inum else DirMap(es)[key]
    {
      DirMapIff(es, key);
      DirMapIff(es', key);
      assert Live(es', k, e.key);
      assert forall j: nat :: j != k ==> (Live(es', j, key) <==> Live(es, j, key));
    }
  }

  lemma PutRemove(es: seq<Dirent>, k: nat, e: Dirent)
    requires Unique(es) && k < |es| && es[k].inum != 0 && e.inum == 0
    ensures Unique(Put(es, k, e))
    ensures DirMap(Put(es, k, e)) == DirMap(es) - {es[k].key}
  {
    var es' := Put(es, k, e);
    assert Unique(es');
    forall key
      ensures key in DirMap(es') <==> key in DirMap(es) && key != es[k].key
      ensures key in DirMap(es') ==> DirMap(es')[key] == DirMap(es)[key]
    {
      DirMapIff(es, key);
      DirMapIff(es', key);
      assert forall j: nat :: j != k ==> (Live(es', j, key) <==> Live(es, j, key));
      assert Live(es, k, es[k].key);
      assert !Live(es', k, key);
    }
  }

  /** The bytes of entry j once e is written as entry k. */
  lemma EntryBytesWritten(c: seq<byte>, k: nat, e: seq<byte>, j: nat)
    requires |c| % 16 == 0 && |e| == 16 && 16 * k <= |c| && (16 * j < |c| || j == k)
    ensures 16 * j + 16 <= |Overwrite(c, 16 * k, e)|
    ensures Overwrite(c, 16 * k, e)[16 * j..16 * j + 16] == if j == k then e else c[16 * j..16 * j + 16]
  {
    OverwriteAt(c, 16 * k, e);
    hide Overwrite;
    var x, y := Overwrite(c, 16 * k, e)[16 * j..16 * j + 16], if j == k then e else c[16 * j..16 * j + 16];
    forall d | 0 <= d < 16
      ensures x[d] == y[d]
    {
      assert x[d] == Overwrite(c, 16 * k, e)[16 * j + d];
    }
  }

  /** Writing one entry, in place or at the end. */
  lemma EntriesOverwrite(c: seq<byte>, k: nat, e: seq<byte>)
    requires |c| % 16 == 0 && |e| == 16 && 16 * k <= |c|
    ensures Entries(Overwrite(c, 16 * k, e)) == Put(Entries(c), k, Decode(e))
    ensures |Overwrite(c, 16 * k, e)| % 16 == 0
  {
    hide Decode;
    var c', es' := Overwrite(c, 16 * k, e), Put(Entries(c), k, Decode(e));
    OverwriteSize(c, k, e);
    hide Overwrite;
    assert |c'| == 16 * |es'|;
    forall j | 0 <= j < |es'|
      ensures Entries(c')[j] == es'[j]
    {
      EntryBytesWritten(c, k, e, j);
    }
  }

  lemma OverwriteSize(c: seq<byte>, k: nat, e: seq<byte>)
    requires |c| % 16 == 0 && |e| == 16 && 16 * k <= |c|
    ensures |Overwrite(c, 16 * k, e)| == if 16 * k == |c| then |c| + 16 else |c|
  {
    OverwriteAt(c, 16 * k, e);
  }
}
