/**
 * What a crash leaks. On a device without leaks, cutting an operation strands exactly the clusters whose
 * links the cut separates from the directory entry that owns, or owned, them.
 */
module Leaks {
  import opened Machine
  import opened Layout
  import opened Chains
  import opened Volume
  import opened Disk
  import opened Commit
  import opened Operations
  import opened Crash
  import opened Atomic
  import opened Runs
  import opened Conservation

  // Cluster x is marked used, and no entry owns it.
  ghost predicate Leaked(v: Vol, x: ClusterNo) {
    3 <= x && v.fat[x] != EMPTY_ENTRY && !Visible(v, x)
  }

  // Writing.

  // The number of block writes before the one that stores the link of the k-th chosen cluster.
  function LinkWrite(req: Request, c: seq<ClusterNo>, k: nat): nat
    requires k < |c|
  {
    (if req.bufferSize == 0 then CLUSTER_BLOCK_COUNT else 2 * CLUSTER_BLOCK_COUNT * k) + c[k] / 128
  }

  // The links on the device after n of the writes that prepare a file.
  ghost predicate LinksOut(fat: Fat, fat': Fat, c: seq<ClusterNo>, n: nat) {
    && (forall x: ClusterNo :: x !in c ==> fat'[x] == fat[x])
    && forall k: nat :: k < |c| ==> fat'[c[k]] == if 8 * k + c[k] / 128 < n then NextLink(c, k) else fat[c[k]]
  }

  lemma {:induction false} FileLinksOut(img: Image, c: seq<ClusterNo>, data: seq<byte>, j: nat, n: nat)
    requires Distinct(c) && j <= |c| && CLUSTER_SIZE * |c| <= |data| && forall x :: x in c ==> 3 <= x
    requires |FileWrites(FatOf(img), c, data, j)| == 8 * j && n <= 8 * j
    ensures LinksOut(FatOf(img), FatOf(Replay(img, FileWrites(FatOf(img), c, data, j)[..n])), c, n)
    decreases j
  {
    hide FatOf, Replay, FileWrites, LinksOut;
    FileLength(FatOf(img), c, data, j);
    if j == 0 {
      NoLinksOut(img, c, data, n);
    } else {
      FileLength(FatOf(img), c, data, j - 1);
      if n <= 8 * (j - 1) {
        FileLinksOut(img, c, data, j - 1, n);
        FilePrefix(FatOf(img), c, data, j, n);
      } else {
        RoundLinksOut(img, c, data, j, n - 8 * (j - 1));
      }
    }
  }

  lemma {:induction false} FileLength(fat: Fat, c: seq<ClusterNo>, data: seq<byte>, j: nat)
    requires j <= |c| && CLUSTER_SIZE * |c| <= |data|
    ensures |FileWrites(fat, c, data, j)| == 8 * j
  {
    hide Link, Piece;
    if j > 0 {
      FileLength(fat, c, data, j - 1);
    }
  }

  lemma FilePrefix(fat: Fat, c: seq<ClusterNo>, data: seq<byte>, j: nat, n: nat)
    requires 0 < j <= |c| && CLUSTER_SIZE * |c| <= |data| && n <= |FileWrites(fat, c, data, j - 1)|
    ensures n <= |FileWrites(fat, c, data, j)|
    ensures FileWrites(fat, c, data, j)[..n] == FileWrites(fat, c, data, j - 1)[..n]
  {
    hide Link, Piece, ClusterWrites, EncodeFat;
  }

  lemma NoLinksOut(img: Image, c: seq<ClusterNo>, data: seq<byte>, n: nat)
    requires n == 0
    ensures LinksOut(FatOf(img), FatOf(Replay(img, [])), c, n)
  {
    hide FatOf;
  }

  // The last round, cut after r writes: first its link, block by block, then its data.
  lemma RoundLinksOut(img: Image, c: seq<ClusterNo>, data: seq<byte>, j: nat, r: nat)
    requires Distinct(c) && 0 < j <= |c| && CLUSTER_SIZE * |c| <= |data| && forall x :: x in c ==> 3 <= x
    requires |FileWrites(FatOf(img), c, data, j)| == 8 * j && r <= 8
    ensures LinksOut(FatOf(img), FatOf(Replay(img, FileWrites(FatOf(img), c, data, j)[..8 * (j - 1) + r])), c,
                     8 * (j - 1) + r)
  {
    hide FatOf, Replay, FileWrites, Link, ClusterWrites, FatWrites, Piece;
    var fat := FatOf(img);
    var fat' := FatOf(Replay(img, FileWrites(fat, c, data, j)[..8 * (j - 1) + r]));
    forall x: ClusterNo
      ensures fat'[x] == if x / 128 < r then Link(fat, c, j)[x] else Link(fat, c, j - 1)[x]
    {
      RoundLink(img, c, data, j, r, x);
    }
    LinksMixed(fat, fat', c, j, r);
  }

  lemma RoundLink(img: Image, c: seq<ClusterNo>, data: seq<byte>, j: nat, r: nat, x: ClusterNo)
    requires Distinct(c) && 0 < j <= |c| && CLUSTER_SIZE * |c| <= |data| && forall x :: x in c ==> 3 <= x
    requires |FileWrites(FatOf(img), c, data, j)| == 8 * j && r <= 8
    ensures FatOf(Replay(img, FileWrites(FatOf(img), c, data, j)[..8 * (j - 1) + r]))[x]
         == if x / 128 < r then Link(FatOf(img), c, j)[x] else Link(FatOf(img), c, j - 1)[x]
  {
    hide FatOf, Replay, Link, ClusterWrites, FatWrites, Piece;
    var fat := FatOf(img);
    var before, links := FileWrites(fat, c, data, j - 1), FatWrites(Link(fat, c, j));
    var piece := ClusterWrites(c[j - 1], Piece(data, j - 1));
    var img1 := Replay(img, before);
    FileLength(fat, c, data, j - 1);
    FileWritten(img, c, data, j - 1);
    assert FileWrites(fat, c, data, j) == before + links + piece;
    if r <= 4 {
      assert (before + links + piece)[..8 * (j - 1) + r] == before + links[..r];
      ReplayConcat(img, before, links[..r]);
      MixedFat(img1, Link(fat, c, j), r, x);
    } else {
      assert (before + links + piece)[..8 * (j - 1) + r] == before + links + piece[..r - 4];
      ReplayConcat(img, before + links, piece[..r - 4]);
      ReplayConcat(img, before, links);
      FatWritten(img1, Link(fat, c, j));
      assert c[j - 1] in c;
      CutKeepsFat(Replay(img1, links), c[j - 1], Piece(data, j - 1), r - 4);
    }
  }

  lemma CutKeepsFat(img: Image, c: ClusterNo, data: Cluster, n: nat)
    requires 2 <= c && n <= CLUSTER_BLOCK_COUNT
    ensures FatOf(Replay(img, ClusterWrites(c, data)[..n])) == FatOf(img)
  {
    hide Replay, ClusterAt, ClusterWrites;
    CutElsewhere(img, c, data, n, FAT_CLUSTER);
  }

  lemma LinksMixed(fat: Fat, fat': Fat, c: seq<ClusterNo>, j: nat, r: nat)
    requires Distinct(c) && 0 < j <= |c| && r <= 8
    requires forall x: ClusterNo :: fat'[x] == if x / 128 < r then Link(fat, c, j)[x] else Link(fat, c, j - 1)[x]
    ensures LinksOut(fat, fat', c, 8 * (j - 1) + r)
  {
    hide Link;
    forall x: ClusterNo ensures x !in c ==> fat'[x] == fat[x] {
      LinkAt(fat, c, j, x);
      LinkAt(fat, c, j - 1, x);
    }
    forall k: nat | k < |c|
      ensures fat'[c[k]] == if 8 * k + c[k] / 128 < 8 * (j - 1) + r then NextLink(c, k) else fat[c[k]]
    {
      LinkAt(fat, c, j, c[k]);
      LinkAt(fat, c, j - 1, c[k]);
      assert k >= j ==> c[k] !in c[..j];
      assert k >= j - 1 ==> c[k] !in c[..j - 1];
    }
  }

  // A folder's table goes first, then its one link.
  lemma FolderLinksOut(img: Image, name: Name, c: seq<ClusterNo>, n: nat)
    requires |c| == 1 && 3 <= c[0] && n <= |FolderWrites(FatOf(img), name, c[0])|
    ensures var fat' := FatOf(Replay(img, FolderWrites(FatOf(img), name, c[0])[..n]));
      forall x: ClusterNo ::
        fat'[x] == if x == c[0] && CLUSTER_BLOCK_COUNT + x / 128 < n then END_OF_FILE else FatOf(img)[x]
  {
    hide FatOf, Replay, ClusterWrites, EncodeTable, EncodeFat, NewFolder;
    var t, links := TableWrites(c[0], NewFolder(name, c[0])), FatWrites(Link(FatOf(img), [c[0]], 1));
    forall x: ClusterNo
      ensures FatOf(Replay(img, (t + links)[..n]))[x]
           == if x == c[0] && CLUSTER_BLOCK_COUNT + x / 128 < n then END_OF_FILE else FatOf(img)[x]
    {
      if n <= 4 {
        assert (t + links)[..n] == t[..n];
        CutKeepsFat(img, c[0], EncodeTable(NewFolder(name, c[0])), n);
      } else {
        assert (t + links)[..n] == t + links[..n - 4];
        ReplayConcat(img, t, links[..n - 4]);
        assert t[..4] == t;
        CutKeepsFat(img, c[0], EncodeTable(NewFolder(name, c[0])), 4);
        MixedFat(Replay(img, t), Link(FatOf(img), [c[0]], 1), n - 4, x);
        OneLink(FatOf(img), c[0], x);
      }
    }
  }

  lemma OneLink(fat: Fat, c: ClusterNo, x: ClusterNo)
    ensures Link(fat, [c], 1)[x] == if x == c then END_OF_FILE else fat[x]
  {
    LinkAt(fat, [c], 1, x);
    assert [c][..1] == [c];
  }

  // The chosen clusters whose links are on the device after n of the preparing writes.
  ghost predicate WrittenOut(req: Request, c: seq<ClusterNo>, n: nat, x: ClusterNo) {
    exists k: nat :: k < |c| && c[k] == x && LinkWrite(req, c, k) < n
  }

  lemma PreparedOut(img: Image, req: Request, c: seq<ClusterNo>, data: seq<byte>, n: nat, x: ClusterNo)
    requires Fresh(FatOf(img), c) && c != [] && forall y :: y in c ==> 3 <= y
    requires if req.bufferSize == 0 then |c| == 1 else CLUSTER_SIZE * |c| <= |data|
    requires n <= |PrepareWrites(FatOf(img), req, c, data)|
    ensures var fat' := FatOf(Replay(img, PrepareWrites(FatOf(img), req, c, data)[..n]));
      fat'[x] != EMPTY_ENTRY <==> FatOf(img)[x] != EMPTY_ENTRY || WrittenOut(req, c, n, x)
  {
    hide FatOf, Replay, FolderWrites, FileWrites, Distinct;
    assert c[0] in c;
    if req.bufferSize == 0 {
      FolderLinksOut(img, req.name, c, n);
      assert WrittenOut(req, c, n, x) <==> x == c[0] && LinkWrite(req, c, 0) < n;
    } else {
      FileLength(FatOf(img), c, data, |c|);
      FileLinksOut(img, c, data, |c|, n);
      LinksOutUsed(FatOf(img), FatOf(Replay(img, FileWrites(FatOf(img), c, data, |c|)[..n])), req, c, n, x);
    }
  }

  lemma LinksOutUsed(fat: Fat, fat': Fat, req: Request, c: seq<ClusterNo>, n: nat, x: ClusterNo)
    requires Fresh(fat, c) && LinksOut(fat, fat', c, n) && req.bufferSize != 0 && forall y :: y in c ==> 3 <= y
    ensures fat'[x] != EMPTY_ENTRY <==> fat[x] != EMPTY_ENTRY || WrittenOut(req, c, n, x)
  {
    if x in c {
      var k: nat :| k < |c| && c[k] == x;
      assert k + 1 < |c| ==> c[k + 1] in c;
      assert LinkWrite(req, c, k) == 8 * k + c[k] / 128;
    }
  }

  // Cut among the preparing writes, a write leaks what it has linked so far.
  lemma PreparationLeaks(img: Image, req: Request, c: seq<ClusterNo>, data: seq<byte>, n: nat, x: ClusterNo)
    requires Sound(img) && Strong(ViewOf(img)) && Supplied(FatOf(img), req, c, data)
    requires n <= |PrepareWrites(FatOf(img), req, c, data)|
    ensures Leaked(ViewOf(Replay(img, PrepareWrites(FatOf(img), req, c, data)[..n])), x) <==> WrittenOut(req, c, n, x)
  {
    hide Weak, Visible, FatOf, Replay, PrepareWrites, ViewOf, Agree, WrittenOut, SameTree, Owns, Distinct;
    var v, img' := ViewOf(img), Replay(img, PrepareWrites(FatOf(img), req, c, data)[..n]);
    PrepareShows(img, req, c, data);
    assert Shows(v, img');
    Frame(v, ViewOf(img'));
    SameVisible(v, ViewOf(img'));
    PreparedOut(img, req, c, data, n, x);
    Views(img, x);
    Views(img', x);
    WrittenChosen(req, c, n, x);
    ReservedUsed(v, x);
  }

  lemma WrittenChosen(req: Request, c: seq<ClusterNo>, n: nat, x: ClusterNo)
    ensures WrittenOut(req, c, n, x) ==> x in c
  {
  }

  lemma ReservedUsed(v: Vol, x: ClusterNo)
    requires Strong(v)
    ensures 3 <= x && v.fat[x] != EMPTY_ENTRY ==> Visible(v, x)
  {
  }

  lemma LinksBeforeCommit(fat: Fat, req: Request, c: seq<ClusterNo>, data: seq<byte>, n: nat, x: ClusterNo)
    requires c != [] && (if req.bufferSize == 0 then |c| == 1 else CLUSTER_SIZE * |c| <= |data|)
    requires |PrepareWrites(fat, req, c, data)| <= n
    ensures WrittenOut(req, c, n, x) <==> WrittenOut(req, c, |PrepareWrites(fat, req, c, data)|, x)
  {
    hide FileWrites;
    if req.bufferSize != 0 {
      FileLength(fat, c, data, |c|);
    }
    forall k: nat | k < |c| ensures LinkWrite(req, c, k) < |PrepareWrites(fat, req, c, data)| {
    }
  }

  // Cut after n block writes, a write leaks the chosen clusters whose links are out, unless its commit
  // block is out too.
  lemma CutWriteLeaks(s: State, dp: seq<Key>, req: Request, data: seq<byte>, n: nat, x: ClusterNo)
    requires Mounted(s) && Strong(ViewOf(s.img)) && Allowed(s, WriteOp(req, data))
    requires DirAt(ViewOf(s.img), dp) == req.parent != 0
    requires EffectOf(s, WriteOp(req, data)).code == 0 && n <= |EffectOf(s, WriteOp(req, data)).log|
    ensures var op := WriteOp(req, data);
      && Needed(req) <= |FreeBelow(s.fat, CLUSTER_MAP_SIZE)|
      && (Leaked(ViewOf(Replay(s.img, EffectOf(s, op).log[..n])), x) <==>
            !Commits(s, op, n) && WrittenOut(req, Chosen(s.fat, req), n, x))
  {
    hide Weak, Visible, FatOf, Replay, PrepareWrites, ViewOf, WrittenOut, Placed, StoreLog, EffectOf, CommitPoint;
    hide Strong, DirAt, Chosen, Needed, FreeBelow, TableAt, FreeSlot, Leaked, After;
    WriteCommitPoint(s, dp, req, data);
    var c := Chosen(s.fat, req);
    PlacedSupplied(s.img, dp, req, c, data);
    var prep := PrepareWrites(FatOf(s.img), req, c, data);
    var m := if n <= |prep| then n else |prep|;
    PreparationLeaks(s.img, req, c, data, m, x);
    if n <= |prep| {
      StoreLogPrefix(s.img, req, c, data, n);
    } else {
      LinksBeforeCommit(FatOf(s.img), req, c, data, n, x);
      StoreLogPrefix(s.img, req, c, data, |prep|);
      assert prep[..|prep|] == prep;
      StoreSwitches(s.img, dp, req, c, data, n - |prep|);
      WriteKeepsStrong(s, dp, req, data);
      StrongNoLeak(ViewOf(Next(s, WriteOp(req, data)).img), x);
      AfterImage(s, WriteOp(req, data));
    }
  }

  lemma PlacedSupplied(img: Image, dp: seq<Key>, req: Request, c: seq<ClusterNo>, data: seq<byte>)
    requires Placed(img, dp, req, c, data)
    ensures req.parent < CLUSTER_MAP_SIZE && FreeSlot(TableAt(img, req.parent)) < TABLE_SIZE
    ensures Sound(img) && Supplied(FatOf(img), req, c, data)
  {
    hide Sound, FatOf, TableAt, FreeSlot, Fresh, ViewOf, DirAt, Scan;
  }

  lemma StoreLogPrefix(img: Image, req: Request, c: seq<ClusterNo>, data: seq<byte>, n: nat)
    requires req.parent < CLUSTER_MAP_SIZE && FreeSlot(TableAt(img, req.parent)) < TABLE_SIZE
    requires c != [] && (req.bufferSize != 0 ==> CLUSTER_SIZE * |c| <= |data|)
    requires n <= |PrepareWrites(FatOf(img), req, c, data)|
    ensures |StoreLog(img, req, c, data)| == |PrepareWrites(FatOf(img), req, c, data)| + CLUSTER_BLOCK_COUNT
    ensures StoreLog(img, req, c, data)[..n] == PrepareWrites(FatOf(img), req, c, data)[..n]
  {
    hide FatOf, TableAt, FreeSlot, PrepareWrites, TableWrites, StoredTable;
  }

  lemma StrongNoLeak(v: Vol, x: ClusterNo)
    requires Strong(v)
    ensures !Leaked(v, x)
  {
  }

  lemma AfterImage(s: State, op: Op)
    requires Runnable(op)
    ensures After(s, op).img == Replay(s.img, EffectOf(s, op).log)
  {
    hide EffectOf, Replay;
  }

  // Deleting.

  // Cut after n block writes, the delete of a file or an empty folder leaks the clusters of its chain whose
  // links the map writes have not reached, once the directory block is out.
  lemma CutDeleteLeaks(s: State, dp: seq<Key>, req: Request, n: nat, x: ClusterNo)
    requires Mounted(s) && Strong(ViewOf(s.img)) && Allowed(s, DeleteOp(req))
    requires DirAt(ViewOf(s.img), dp) == req.parent != 0 && EffectOf(s, DeleteOp(req)).code == 0
    requires var t := TableAt(s.img, req.parent); var i := Scan(t, req.Id(), 0);
      i < TABLE_SIZE && Childless(ViewOf(s.img), t[i])
    requires n <= |EffectOf(s, DeleteOp(req)).log|
    ensures var op := DeleteOp(req); var t := TableAt(s.img, req.parent);
      Leaked(ViewOf(Replay(s.img, EffectOf(s, op).log[..n])), x) <==>
        && Commits(s, op, n) && x in Chain(s.fat, t[Scan(t, req.Id(), 0)].Head())
        && n - CLUSTER_BLOCK_COUNT <= x / 128
  {
    hide Weak, Visible, FatOf, Replay, ViewOf, EffectOf, Strong, DirAt, TableAt, Leaked, Chain, Childless, Scan;
    hide Release, TableWrites, FatWrites, Listed;
    var t := TableAt(s.img, req.parent);
    var i := Scan(t, req.Id(), 0);
    var fat := Release(s.fat, Chain(s.fat, t[i].Head()));
    var commit, release := TableWrites(req.parent, t[i := ZERO_ENTRY]), FatWrites(fat);
    FoundListed(s, dp, req);
    ReleasedLeaks(s, dp, req, if n <= 4 then 0 else n - 4, x);
    assert release[..0] == [];
    if n <= 4 {
      assert (commit + release)[..n] == commit[..n];
      OneBlock(s.img, req.parent, i, ZERO_ENTRY, n);
      StrongNoLeak(ViewOf(s.img), x);
      ReplayNothing(Erased(s.img, req));
    } else {
      assert (commit + release)[..n] == commit + release[..n - 4];
      ReplayConcat(s.img, commit, release[..n - 4]);
    }
  }

  lemma ReplayNothing(img: Image)
    ensures Replay(img, []) == img
  {
  }

  lemma ReleasedLeaks(s: State, dp: seq<Key>, req: Request, n: nat, x: ClusterNo)
    requires Mounted(s) && Strong(ViewOf(s.img)) && Listed(s.img, dp, req) && n <= CLUSTER_BLOCK_COUNT
    requires var t := TableAt(s.img, req.parent); Childless(ViewOf(s.img), t[Scan(t, req.Id(), 0)])
    ensures var t := TableAt(s.img, req.parent); var chain := Chain(s.fat, t[Scan(t, req.Id(), 0)].Head());
      Leaked(ViewOf(Replay(Erased(s.img, req), FatWrites(Release(s.fat, chain))[..n])), x) <==>
        x in chain && n <= x / 128
  {
    hide Weak, Visible, FatOf, Replay, ViewOf, DirAt, TableAt, Chain, Childless, Scan, Agree, SameTree, Owns;
    hide FatWrites, Patched, Removable, Erased;
    var t := TableAt(s.img, req.parent);
    var i := Scan(t, req.Id(), 0);
    var chain := Chain(s.fat, t[i].Head());
    var img1 := Erased(s.img, req);
    var img2 := Replay(img1, FatWrites(Release(s.fat, chain))[..n]);
    EraseCommits(s.img, dp, req);
    ErasedVisible(s.img, dp, req);
    Views(s.img, req.parent);
    Views(img1, req.parent);
    Views(img2, req.parent);
    HarmlessRelease(ViewOf(img1), chain);
    ShowsItself(img1);
    assert Shows(ViewOf(img1), img2);
    Frame(ViewOf(img1), ViewOf(img2));
    SameVisible(ViewOf(img1), ViewOf(img2));
    MixedFat(img1, Release(s.fat, chain), n, x);
    ChainUsed(ViewOf(s.img), dp, i, x);
    ReservedUsed(ViewOf(s.img), x);
    if Visible(ViewOf(s.img), x) && x !in chain {
      VisibleAfterRemove(ViewOf(s.img), ViewOf(img1), dp, i, x);
    }
  }

  lemma ChainUsed(v: Vol, dp: seq<Key>, i: nat, x: ClusterNo)
    requires Removable(v, dp, i)
    ensures x in Chain(v.fat, Target(v, dp, i).Head()) ==> 3 <= x && v.fat[x] != EMPTY_ENTRY
  {
    if x in Chain(v.fat, Target(v, dp, i).Head()) {
      assert Reach(v, DirAt(v, dp));
      assert EntryOk(v, Target(v, dp, i));
      LinksUsed(v.fat, Target(v, dp, i).Head(), x);
    }
  }
}
