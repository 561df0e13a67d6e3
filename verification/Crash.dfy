/**
 * Crash safety. Harmless says that a sequence of block writes may be cut anywhere without any visible
 * change; writes that prepare a new chain, and writes that release an unreachable one, are harmless.
 * The single directory block in between is the commit point of every operation.
 */
module Crash {
  import opened Machine
  import opened Layout
  import opened Chains
  import opened Volume
  import opened Disk
  import opened Operations

  // The image still shows the tree of v and still carries the signature.
  ghost predicate Shows(v: Vol, img: Image) {
    Agree(v, ViewOf(img)) && img[BOOT_SECTOR] == Signature()
  }

  ghost predicate Harmless(v: Vol, log: seq<BlockWrite>) {
    forall img: Image, n: nat :: n <= |log| && Shows(v, img) ==> Shows(v, Replay(img, log[..n]))
  }

  lemma HarmlessConcat(v: Vol, a: seq<BlockWrite>, b: seq<BlockWrite>)
    requires Harmless(v, a) && Harmless(v, b)
    ensures Harmless(v, a + b)
  {
    forall img: Image, n: nat | n <= |a + b| && Shows(v, img) ensures Shows(v, Replay(img, (a + b)[..n])) {
      if n <= |a| {
        assert (a + b)[..n] == a[..n];
      } else {
        assert (a + b)[..n] == a + b[..n - |a|];
        assert a[..|a|] == a;
        ReplayConcat(img, a, b[..n - |a|]);
      }
    }
  }

  lemma VisibleUsed(v: Vol, x: ClusterNo)
    requires Weak(v) && Visible(v, x)
    ensures 2 <= x && v.fat[x] != EMPTY_ENTRY
  {
    if x != ROOT_CLUSTER {
      var d: ClusterNo, i: nat :| Owns(v, d, i, x);
      LinksUsed(v.fat, v.table[d][i].Head(), x);
    }
  }

  lemma LinksUsed(fat: Fat, c: uint32, x: ClusterNo)
    requires ChainOk(fat, c) && x in Chain(fat, c)
    ensures 3 <= x && fat[x] != EMPTY_ENTRY
  {
    var s := Chain(fat, c);
    var n: nat :| n < |s| && s[n] == x;
    ChainLinks(fat, c);
    assert fat[s[n]] == NextLink(s, n);
    hide Chain;
    if n + 1 < |s| {
      assert s[n + 1] in s;
    }
  }

  // Writes to a cluster nothing visible occupies.
  lemma HarmlessData(v: Vol, c: ClusterNo, data: Cluster)
    requires Weak(v) && 2 <= c && !Visible(v, c)
    ensures Harmless(v, ClusterWrites(c, data))
  {
    hide Replay, ClusterAt, DecodeTable, DecodeFat, Visible, Signature;
    var log := ClusterWrites(c, data);
    forall img: Image, n: nat | n <= |log| && Shows(v, img) ensures Shows(v, Replay(img, log[..n])) {
      var img' := Replay(img, log[..n]);
      PartialCluster(img, c, data, n, BOOT_SECTOR);
      forall d: ClusterNo | d != c ensures ClusterAt(img', d) == ClusterAt(img, d) {
        CutElsewhere(img, c, data, n, d);
      }
    }
  }

  // Writes of a table that keeps the reserved and the visible links.
  lemma HarmlessFat(v: Vol, fat: Fat)
    requires Weak(v) && Reserved(fat)
    requires forall x: ClusterNo :: Visible(v, x) ==> fat[x] == v.fat[x]
    ensures Harmless(v, FatWrites(fat))
  {
    hide FatWrites, Weak, Visible, Replay;
    var log := FatWrites(fat);
    forall img: Image, n: nat | n <= |log| && Shows(v, img) ensures Shows(v, Replay(img, log[..n])) {
      CutFatShows(v, fat, img, n);
    }
  }

  lemma CutFatShows(v: Vol, fat: Fat, img: Image, n: nat)
    requires Weak(v) && Reserved(fat) && n <= CLUSTER_BLOCK_COUNT && Shows(v, img)
    requires forall x: ClusterNo :: Visible(v, x) ==> fat[x] == v.fat[x]
    ensures Shows(v, Replay(img, FatWrites(fat)[..n]))
  {
    var img' := Replay(img, FatWrites(fat)[..n]);
    PartialCluster(img, FAT_CLUSTER, EncodeFat(fat), n, BOOT_SECTOR);
    hide Replay, ClusterAt, DecodeTable, DecodeFat, EncodeFat, Visible, Signature, ClusterWrites;
    forall x: ClusterNo ensures FatOf(img')[x] == fat[x] || FatOf(img')[x] == FatOf(img)[x] {
      MixedFat(img, fat, n, x);
    }
    forall d: ClusterNo | 2 <= d ensures ClusterAt(img', d) == ClusterAt(img, d) {
      CutElsewhere(img, FAT_CLUSTER, EncodeFat(fat), n, d);
    }
    forall x: ClusterNo | Visible(v, x) ensures 2 <= x {
      VisibleUsed(v, x);
    }
    hide Weak;
  }

  // A half-written table holds, entry by entry, either the new link or the old one.
  lemma MixedFat(img: Image, fat: Fat, n: nat, x: ClusterNo)
    requires n <= CLUSTER_BLOCK_COUNT
    ensures FatOf(Replay(img, FatWrites(fat)[..n]))[x] == if x / 128 < n then fat[x] else FatOf(img)[x]
  {
    CutBlock(img, FAT_CLUSTER, EncodeFat(fat), n, x / 128);
    FatDecodesBack(fat);
    var after := ClusterAt(Replay(img, FatWrites(fat)[..n]), FAT_CLUSTER);
    if x / 128 < n {
      FatBlocks(after, EncodeFat(fat), x);
    } else {
      FatBlocks(after, ClusterAt(img, FAT_CLUSTER), x);
    }
  }

  // Preparing a write.

  lemma {:induction false} FreeBelowFacts(fat: Fat, n: nat)
    requires n <= CLUSTER_MAP_SIZE
    ensures forall x: ClusterNo :: x in FreeBelow(fat, n) <==> x < n && fat[x] == EMPTY_ENTRY
    ensures forall i, j :: 0 <= i < j < |FreeBelow(fat, n)| ==> FreeBelow(fat, n)[i] < FreeBelow(fat, n)[j]
  {
    if n > 0 {
      FreeBelowFacts(fat, n - 1);
      var p := FreeBelow(fat, n - 1);
      forall i | 0 <= i < |p| ensures p[i] < n - 1 {
        assert p[i] in p;
      }
    }
  }

  // The chosen clusters are empty, ascending, and the lowest there are.
  lemma ChosenLowest(fat: Fat, req: Request)
    requires Needed(req) <= |FreeBelow(fat, CLUSTER_MAP_SIZE)|
    ensures |Chosen(fat, req)| == Needed(req) && Distinct(Chosen(fat, req))
    ensures forall i, j :: 0 <= i < j < |Chosen(fat, req)| ==> Chosen(fat, req)[i] < Chosen(fat, req)[j]
    ensures forall x :: x in Chosen(fat, req) ==> fat[x] == EMPTY_ENTRY
    ensures forall x: ClusterNo, y :: fat[x] == EMPTY_ENTRY && x !in Chosen(fat, req) && y in Chosen(fat, req) ==> y < x
  {
    var all := FreeBelow(fat, CLUSTER_MAP_SIZE);
    FreeBelowFacts(fat, CLUSTER_MAP_SIZE);
    forall x: ClusterNo, y | fat[x] == EMPTY_ENTRY && x !in Chosen(fat, req) && y in Chosen(fat, req)
      ensures y < x
    {
      var i :| 0 <= i < |all| && all[i] == x;
      var j :| 0 <= j < Needed(req) && Chosen(fat, req)[j] == y;
    }
  }

  // Distinct clusters with empty table entries.
  ghost predicate Fresh(fat: Fat, s: seq<ClusterNo>) {
    Distinct(s) && forall x :: x in s ==> fat[x] == EMPTY_ENTRY
  }

  lemma HarmlessLink(v: Vol, s: seq<ClusterNo>, j: nat)
    requires Weak(v) && Fresh(v.fat, s) && j <= |s|
    ensures Harmless(v, FatWrites(Link(v.fat, s, j)))
    ensures forall x :: x in s ==> 3 <= x && !Visible(v, x)
  {
    forall x: ClusterNo | x !in s ensures Link(v.fat, s, j)[x] == v.fat[x] {
      LinkAt(v.fat, s, j, x);
    }
    forall x: ClusterNo | Visible(v, x) ensures x !in s {
      VisibleUsed(v, x);
    }
    HarmlessFat(v, Link(v.fat, s, j));
  }

  lemma {:induction false} HarmlessFile(v: Vol, s: seq<ClusterNo>, data: seq<byte>, j: nat)
    requires Weak(v) && Fresh(v.fat, s) && j <= |s| && CLUSTER_SIZE * |s| <= |data|
    ensures Harmless(v, FileWrites(v.fat, s, data, j))
  {
    if j > 0 {
      HarmlessFile(v, s, data, j - 1);
      HarmlessLink(v, s, j);
      HarmlessData(v, s[j - 1], Piece(data, j - 1));
      hide Harmless, Weak, FatWrites, ClusterWrites;
      HarmlessConcat(v, FileWrites(v.fat, s, data, j - 1), FatWrites(Link(v.fat, s, j)));
      HarmlessConcat(v, FileWrites(v.fat, s, data, j - 1) + FatWrites(Link(v.fat, s, j)),
                     ClusterWrites(s[j - 1], Piece(data, j - 1)));
    }
  }

  lemma HarmlessPrepare(v: Vol, req: Request, s: seq<ClusterNo>, data: seq<byte>)
    requires Weak(v) && Fresh(v.fat, s) && s != []
    requires if req.bufferSize == 0 then |s| == 1 else CLUSTER_SIZE * |s| <= |data|
    ensures Harmless(v, PrepareWrites(v.fat, req, s, data))
  {
    if req.bufferSize == 0 {
      assert s == [s[0]];
      HarmlessLink(v, s, 1);
      HarmlessData(v, s[0], EncodeTable(NewFolder(req.name, s[0])));
      HarmlessConcat(v, TableWrites(s[0], NewFolder(req.name, s[0])), FatWrites(Link(v.fat, s, 1)));
    } else {
      HarmlessFile(v, s, data, |s|);
    }
  }

  lemma FatWritten(img: Image, fat: Fat)
    ensures FatOf(Replay(img, FatWrites(fat))) == fat
    ensures forall d: ClusterNo :: d != FAT_CLUSTER ==> ClusterAt(Replay(img, FatWrites(fat)), d) == ClusterAt(img, d)
  {
    FatDecodesBack(fat);
    forall d: ClusterNo ensures d != FAT_CLUSTER ==> ClusterAt(Replay(img, FatWrites(fat)), d) == ClusterAt(img, d) {
      ClusterWritten(img, FAT_CLUSTER, EncodeFat(fat), d);
    }
    ClusterWritten(img, FAT_CLUSTER, EncodeFat(fat), FAT_CLUSTER);
  }

  // One round of a file write: the table, then one data cluster.
  lemma RoundWritten(img: Image, fat: Fat, c: ClusterNo, data: Cluster, d: ClusterNo)
    requires 3 <= c
    ensures var img' := Replay(Replay(img, FatWrites(fat)), ClusterWrites(c, data));
      && FatOf(img') == fat
      && ClusterAt(img', c) == data
      && (d != c && d != FAT_CLUSTER ==> ClusterAt(img', d) == ClusterAt(img, d))
  {
    FatWritten(img, fat);
    hide Replay, FatWrites, ClusterAt, ClusterWrites;
    ClusterWritten(Replay(img, FatWrites(fat)), c, data, FAT_CLUSTER);
    ClusterWritten(Replay(img, FatWrites(fat)), c, data, c);
    ClusterWritten(Replay(img, FatWrites(fat)), c, data, d);
  }

  // The first j clusters hold their data and the table its first j links.
  ghost predicate FileDone(fat: Fat, img: Image, s: seq<ClusterNo>, data: seq<byte>, j: nat)
    requires j <= |s| && CLUSTER_SIZE * |s| <= |data|
  {
    FatOf(img) == Link(fat, s, j) && forall i: nat :: i < j ==> ClusterAt(img, s[i]) == Piece(data, i)
  }

  lemma FileRound(fat: Fat, img: Image, s: seq<ClusterNo>, data: seq<byte>, j: nat)
    requires Distinct(s) && j < |s| && CLUSTER_SIZE * |s| <= |data| && forall x :: x in s ==> 3 <= x
    requires FileDone(fat, img, s, data, j)
    ensures FileDone(fat, Replay(Replay(img, FatWrites(Link(fat, s, j + 1))), ClusterWrites(s[j], Piece(data, j))),
                     s, data, j + 1)
  {
    hide Replay, FatWrites, Link, ClusterAt, ClusterWrites, FatOf;
    assert s[j] in s;
    RoundWritten(img, Link(fat, s, j + 1), s[j], Piece(data, j), s[j]);
    forall i: nat | i < j
      ensures ClusterAt(Replay(Replay(img, FatWrites(Link(fat, s, j + 1))), ClusterWrites(s[j], Piece(data, j))), s[i])
           == Piece(data, i)
    {
      assert s[i] in s;
      RoundWritten(img, Link(fat, s, j + 1), s[j], Piece(data, j), s[i]);
    }
  }

  lemma FileNone(img: Image, s: seq<ClusterNo>, data: seq<byte>, j: nat)
    requires CLUSTER_SIZE * |s| <= |data| && j == 0
    ensures FileDone(FatOf(img), Replay(img, FileWrites(FatOf(img), s, data, j)), s, data, j)
  {
    hide FatOf, ClusterAt, Piece;
  }

  lemma {:induction false} FileWritten(img: Image, s: seq<ClusterNo>, data: seq<byte>, j: nat)
    requires Distinct(s) && j <= |s| && CLUSTER_SIZE * |s| <= |data| && forall x :: x in s ==> 3 <= x
    ensures FileDone(FatOf(img), Replay(img, FileWrites(FatOf(img), s, data, j)), s, data, j)
  {
    hide FileDone, Replay, FileWrites;
    if j == 0 {
      FileNone(img, s, data, j);
    } else {
      FileWritten(img, s, data, j - 1);
      FileStep(img, FatOf(img), s, data, j - 1);
      FileRound(FatOf(img), Replay(img, FileWrites(FatOf(img), s, data, j - 1)), s, data, j - 1);
    }
  }

  lemma {:induction false} GatherPieces(bytes: Clusters, s: seq<ClusterNo>, data: seq<byte>, j: nat)
    requires j <= |s| && CLUSTER_SIZE * |s| <= |data|
    requires forall i :: 0 <= i < j ==> bytes[s[i]] == Piece(data, i)
    ensures Gather(bytes, s[..j]) == data[..CLUSTER_SIZE * j]
  {
    if j > 0 {
      GatherPieces(bytes, s, data, j - 1);
      assert s[..j][..j - 1] == s[..j - 1];
      assert data[..CLUSTER_SIZE * j] == data[..CLUSTER_SIZE * (j - 1)] + Piece(data, j - 1);
    }
  }

  // Writing.

  ghost predicate Sound(img: Image) {
    Weak(ViewOf(img)) && img[BOOT_SECTOR] == Signature()
  }

  // Enough fresh clusters for the request, and a source buffer that covers them.
  ghost predicate Supplied(fat: Fat, req: Request, s: seq<ClusterNo>, data: seq<byte>) {
    && Fresh(fat, s) && s != []
    && if req.bufferSize == 0 then |s| == 1 else |s| == ClusterCount(req.bufferSize) && CLUSTER_SIZE * |s| <= |data|
  }

  lemma PrepareShows(img: Image, req: Request, s: seq<ClusterNo>, data: seq<byte>)
    requires Sound(img) && Supplied(FatOf(img), req, s, data)
    ensures Harmless(ViewOf(img), PrepareWrites(FatOf(img), req, s, data))
    ensures Shows(ViewOf(img), img) && Shows(ViewOf(img), Replay(img, PrepareWrites(FatOf(img), req, s, data)))
    ensures forall x :: x in s ==> 3 <= x && !Visible(ViewOf(img), x)
  {
    var v := ViewOf(img);
    var log := PrepareWrites(FatOf(img), req, s, data);
    HarmlessPrepare(v, req, s, data);
    HarmlessLink(v, s, 0);
    assert Shows(v, Replay(img, log[..|log|]));
    assert log[..|log|] == log;
  }

  lemma FolderWritten(img: Image, name: Name, c: ClusterNo)
    requires 3 <= c
    ensures FatOf(Replay(img, FolderWrites(FatOf(img), name, c))) == Link(FatOf(img), [c], 1)
    ensures TableAt(Replay(img, FolderWrites(FatOf(img), name, c)), c) == NewFolder(name, c)
  {
    var t, fat := NewFolder(name, c), Link(FatOf(img), [c], 1);
    ReplayConcat(img, TableWrites(c, t), FatWrites(fat));
    FatWritten(Replay(img, TableWrites(c, t)), fat);
    ClusterWritten(img, c, EncodeTable(t), c);
    TableDecodesBack(t);
  }

  // What the prepared clusters hold.

  lemma PreparedFile(img: Image, s: seq<ClusterNo>, data: seq<byte>)
    requires Distinct(s) && CLUSTER_SIZE * |s| <= |data| && forall x :: x in s ==> 3 <= x
    ensures FatOf(Replay(img, FileWrites(FatOf(img), s, data, |s|))) == Link(FatOf(img), s, |s|)
    ensures Gather(ViewOf(Replay(img, FileWrites(FatOf(img), s, data, |s|))).bytes, s) == data[..CLUSTER_SIZE * |s|]
  {
    var img' := Replay(img, FileWrites(FatOf(img), s, data, |s|));
    FileWritten(img, s, data, |s|);
    hide Replay, Link, FileWrites, FatOf, ClusterAt, TableAt, Gather, Piece;
    forall i: nat | i < |s| ensures ViewOf(img').bytes[s[i]] == Piece(data, i) {
    }
    hide ViewOf;
    GatherPieces(ViewOf(img').bytes, s, data, |s|);
    assert s[..|s|] == s;
  }

  lemma Views(img: Image, c: ClusterNo)
    ensures ViewOf(img).fat == FatOf(img)
    ensures ViewOf(img).table[c] == TableAt(img, c) && ViewOf(img).bytes[c] == ClusterAt(img, c)
  {
  }

  lemma PreparedContents(img: Image, req: Request, s: seq<ClusterNo>, data: seq<byte>)
    requires Sound(img) && Supplied(FatOf(img), req, s, data)
    ensures var w := ViewOf(Replay(img, PrepareWrites(FatOf(img), req, s, data)));
      && w.fat == Link(FatOf(img), s, |s|)
      && (req.bufferSize == 0 ==> w.table[s[0]] == NewFolder(req.name, s[0]))
      && (req.bufferSize != 0 ==> Gather(w.bytes, s) == data[..CLUSTER_SIZE * |s|])
  {
    PrepareShows(img, req, s, data);
    Views(Replay(img, PrepareWrites(FatOf(img), req, s, data)), s[0]);
    hide Sound, Visible, Shows, Harmless, Replay, Link, FileWrites, FolderWrites, FatOf, TableAt, Gather, ViewOf;
    hide NewFolder, Reserved;
    assert s[0] in s;
    if req.bufferSize == 0 {
      FolderWritten(img, req.name, s[0]);
      assert s == [s[0]];
    } else {
      PreparedFile(img, s, data);
    }
  }
}
