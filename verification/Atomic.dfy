/**
 * Every operation moves the tree in one step. Whatever prefix of its block writes reaches the device,
 * the image is sound and shows either the old tree or the new one.
 */
module Atomic {
  import opened Machine
  import opened Layout
  import opened Chains
  import opened Volume
  import opened Disk
  import opened Commit
  import opened Operations
  import opened Crash

  // Rewriting one entry of a directory takes effect in a single block.

  lemma OneBlock(img: Image, c: ClusterNo, i: nat, e: DirEntry, n: nat)
    requires i < TABLE_SIZE && n <= CLUSTER_BLOCK_COUNT
    ensures Replay(img, TableWrites(c, TableAt(img, c)[i := e])[..n])
         == if n <= i / 16 then img else Replay(img, TableWrites(c, TableAt(img, c)[i := e]))
  {
    var t := TableAt(img, c);
    var t': Table := t[i := e];
    hide EncodeTable, DecodeTable, BlockOf, ClusterAt;
    forall a: nat | a < CLUSTER_BLOCK_COUNT && a != i / 16
      ensures BlockOf(EncodeTable(t'), a) == BlockOf(ClusterAt(img, c), a)
    {
      TableBlocks(t, t', a);
      TableEncodesBack(ClusterAt(img, c));
    }
    OneBlockCommit(img, c, EncodeTable(t'), i / 16, n);
  }

  lemma TableStored(img: Image, c: ClusterNo, t: Table)
    requires 2 <= c
    ensures var img' := Replay(img, TableWrites(c, t));
      && Overwritten(ViewOf(img), ViewOf(img'), c, t)
      && img'[BOOT_SECTOR] == img[BOOT_SECTOR] && FatOf(img') == FatOf(img)
  {
    var img' := Replay(img, TableWrites(c, t));
    var log := ClusterWrites(c, EncodeTable(t));
    assert log[..4] == log;
    PartialCluster(img, c, EncodeTable(t), 4, BOOT_SECTOR);
    hide Replay, ClusterWrites, DecodeTable, EncodeTable, ClusterAt, DecodeFat;
    forall d: ClusterNo ensures ClusterAt(img', d) == if d == c then EncodeTable(t) else ClusterAt(img, d) {
      ClusterWritten(img, c, EncodeTable(t), d);
    }
    TableDecodesBack(t);
    assert ViewOf(img').table == ViewOf(img).table[c := t];
  }

  lemma EntryStored(img: Image, c: ClusterNo, i: nat, e: DirEntry)
    requires 2 <= c && i < TABLE_SIZE
    ensures var img' := Replay(img, TableWrites(c, TableAt(img, c)[i := e]));
      && Patched(ViewOf(img), ViewOf(img'), c, i, e)
      && img'[BOOT_SECTOR] == img[BOOT_SECTOR] && FatOf(img') == FatOf(img)
  {
    hide ViewOf, FatOf, TableAt, Replay, TableWrites;
    Views(img, c);
    TableStored(img, c, TableAt(img, c)[i := e]);
  }

  // Writing.

  // The request passes every check and names the directory at path dp.
  ghost predicate Placed(img: Image, dp: seq<Key>, req: Request, s: seq<ClusterNo>, data: seq<byte>) {
    && Sound(img) && DirAt(ViewOf(img), dp) == req.parent && req.parent != 0
    && req.bufferSize <= MAX_FILE_SIZE && Supplied(FatOf(img), req, s, data)
    && Scan(TableAt(img, req.parent), req.Id(), 2) == TABLE_SIZE
    && FreeSlot(TableAt(img, req.parent)) < TABLE_SIZE
  }

  // The node a request creates: a folder, or a file holding whole clusters of the source buffer.
  ghost function WriteNode(req: Request, data: seq<byte>): Node {
    var n := CLUSTER_SIZE * ClusterCount(req.bufferSize);
    if req.bufferSize == 0 then Folder else File(req.bufferSize, if n <= |data| then data[..n] else data)
  }

  lemma NewChain(fat: Fat, s: seq<ClusterNo>)
    requires Fresh(fat, s) && 0 < |s| <= CLUSTER_MAP_SIZE && forall x :: x in s ==> 3 <= x
    ensures ChainOk(Link(fat, s, |s|), s[0]) && Chain(Link(fat, s, |s|), s[0]) == s
  {
    LinkedChain(fat, s);
  }

  lemma NewEntryOk(v: Vol, req: Request, s: seq<ClusterNo>)
    requires s != [] && ChainOk(v.fat, s[0]) && Chain(v.fat, s[0]) == s && req.bufferSize <= MAX_FILE_SIZE
    requires if req.bufferSize == 0 then |s| == 1 && v.table[s[0]] == NewFolder(req.name, s[0])
             else |s| == ClusterCount(req.bufferSize)
    ensures var e := NewEntry(req, s[0]);
      && e.Live() && e.Id() == req.Id() && e.Head() == s[0] && (e.IsFolder() <==> req.bufferSize == 0)
      && EntryOk(v, e) && (e.IsFolder() ==> EmptyTable(v.table[s[0]], s[0]))
  {
    hide Chain, ChainOk, Walk;
  }

  // A free slot of a sound table is all zero, so a name that is not there is not the zero name.
  lemma NameNotZero(t: Table, d: ClusterNo, key: Key)
    requires TableOk(t, d) && FreeSlot(t) < TABLE_SIZE && Scan(t, key, 2) == TABLE_SIZE
    ensures key != NO_KEY
  {
    assert t[FreeSlot(t)].Id() == NO_KEY;
  }

  lemma PreparedView(img: Image, dp: seq<Key>, req: Request, s: seq<ClusterNo>, data: seq<byte>)
    requires Placed(img, dp, req, s, data)
    ensures var w := ViewOf(Replay(img, PrepareWrites(FatOf(img), req, s, data)));
      && 2 <= req.parent && Weak(w) && SameTree(ViewOf(img), w) && DirAt(w, dp) == req.parent
      && TableAt(img, req.parent) == w.table[req.parent] && TableOk(w.table[req.parent], req.parent)
      && (forall x :: x in s ==> 3 <= x && !Visible(w, x))
      && forall x: ClusterNo :: Visible(w, x) <==> Visible(ViewOf(img), x)
  {
    hide Weak, Visible, DirAt, FatOf, TableAt, FreeSlot, Scan, TableOk, Agree, PrepareWrites, Replay, ViewOf, SameTree;
    hide Owns;
    var v := ViewOf(img);
    var w := ViewOf(Replay(img, PrepareWrites(FatOf(img), req, s, data)));
    PrepareShows(img, req, s, data);
    ParentSeen(img, dp, req);
    Frame(v, w);
    SameVisible(v, w);
    ParentAgrees(v, w, dp, req.parent);
  }

  lemma ParentSeen(img: Image, dp: seq<Key>, req: Request)
    requires Sound(img) && DirAt(ViewOf(img), dp) == req.parent != 0
    ensures 2 <= req.parent && Visible(ViewOf(img), req.parent)
    ensures ViewOf(img).table[req.parent] == TableAt(img, req.parent) && TableOk(TableAt(img, req.parent), req.parent)
  {
    var v := ViewOf(img);
    Views(img, req.parent);
    hide ViewOf, TableAt, DirAt;
    ReachVisible(v, dp);
    VisibleUsed(v, req.parent);
    assert FolderOk(v, req.parent);
  }

  lemma ParentAgrees(v: Vol, w: Vol, dp: seq<Key>, d: ClusterNo)
    requires Weak(v) && Agree(v, w) && DirAt(v, dp) == d && Visible(v, d)
    ensures DirAt(w, dp) == d && w.table[d] == v.table[d]
  {
    DirAtFrame(v, w, dp);
  }

  // The prepared volume, seen without its encoding.
  ghost predicate Ready(w: Vol, dp: seq<Key>, req: Request, s: seq<ClusterNo>) {
    && Weak(w) && DirAt(w, dp) == req.parent && req.parent != 0
    && TableOk(w.table[req.parent], req.parent)
    && FreeSlot(w.table[req.parent]) < TABLE_SIZE && Scan(w.table[req.parent], req.Id(), 2) == TABLE_SIZE
    && s != [] && ChainOk(w.fat, s[0]) && Chain(w.fat, s[0]) == s && (forall x :: x in s ==> !Visible(w, x))
    && req.bufferSize <= MAX_FILE_SIZE
    && if req.bufferSize == 0 then |s| == 1 && w.table[s[0]] == NewFolder(req.name, s[0])
       else |s| == ClusterCount(req.bufferSize)
  }

  lemma ReadyAddable(w: Vol, dp: seq<Key>, req: Request, s: seq<ClusterNo>)
    requires Ready(w, dp, req, s)
    ensures Addable(w, dp, FreeSlot(w.table[req.parent]), NewEntry(req, s[0]))
  {
    NewEntryOk(w, req, s);
    NameNotZero(w.table[req.parent], req.parent, req.Id());
    hide Weak, DirAt, Chain, ChainOk, EntryOk, Visible, NewEntry, NewFolder, TableOk, EmptyTable;
  }

  lemma ReadyChain(w: Vol, dp: seq<Key>, req: Request, s: seq<ClusterNo>)
    requires Ready(w, dp, req, s)
    ensures Chain(w.fat, NewEntry(req, s[0]).Head()) == s
  {
    hide Weak, DirAt, Chain, ChainOk, Visible, NewFolder, TableOk;
  }

  lemma PreparedReady(img: Image, dp: seq<Key>, req: Request, s: seq<ClusterNo>, data: seq<byte>)
    requires Placed(img, dp, req, s, data)
    ensures Ready(ViewOf(Replay(img, PrepareWrites(FatOf(img), req, s, data))), dp, req, s)
  {
    hide Sound, Weak, Visible, DirAt, SameTree, TableOk, Link, Replay, PrepareWrites, Gather, ChainOk, Chain;
    hide ViewOf, FatOf, TableAt, FreeSlot, Scan, Distinct, NewFolder;
    PreparedView(img, dp, req, s, data);
    PreparedContents(img, req, s, data);
    NewChain(FatOf(img), s);
  }

  lemma NewNode(img: Image, dp: seq<Key>, req: Request, s: seq<ClusterNo>, data: seq<byte>)
    requires Placed(img, dp, req, s, data)
    ensures NodeOf(ViewOf(Replay(img, PrepareWrites(FatOf(img), req, s, data))), NewEntry(req, s[0]))
         == WriteNode(req, data)
  {
    var w := ViewOf(Replay(img, PrepareWrites(FatOf(img), req, s, data)));
    PreparedReady(img, dp, req, s, data);
    PreparedContents(img, req, s, data);
    NewEntryOk(w, req, s);
    hide Placed, ViewOf, FatOf, TableAt, Weak, Visible, DirAt;
    hide Sound, Link, Replay, PrepareWrites, Gather, ChainOk, Chain;
  }

  // The writes of a successful write, in order.
  ghost function StoreLog(img: Image, req: Request, s: seq<ClusterNo>, data: seq<byte>): seq<BlockWrite>
    requires req.parent < CLUSTER_MAP_SIZE && FreeSlot(TableAt(img, req.parent)) < TABLE_SIZE
    requires s != [] && (req.bufferSize != 0 ==> CLUSTER_SIZE * |s| <= |data|)
  {
    PrepareWrites(FatOf(img), req, s, data)
    + TableWrites(req.parent, StoredTable(TableAt(img, req.parent), req, s[0]))
  }

  // Once the whole directory block is out, the new node is there and nothing else has changed.
  lemma StoreCommits(img: Image, dp: seq<Key>, req: Request, s: seq<ClusterNo>, data: seq<byte>)
    requires Placed(img, dp, req, s, data)
    ensures var img' := Replay(img, StoreLog(img, req, s, data));
      && Sound(img') && AddsNode(ViewOf(img), ViewOf(img'), dp + [req.Id()], WriteNode(req, data))
      && FatOf(img') == Link(FatOf(img), s, |s|)
      && forall x: ClusterNo :: Visible(ViewOf(img'), x) <==> Visible(ViewOf(img), x) || x in s
  {
    hide Weak, Visible, DirAt, TableOk, Link, PrepareWrites, ChainOk, Chain, FatOf, TableAt, FreeSlot, Scan, NodeOf;
    hide Addable, Patched, Ready, Agree, TableWrites, AddsNode, SameTree;
    var i, e := FreeSlot(TableAt(img, req.parent)), NewEntry(req, s[0]);
    var img1 := Replay(img, PrepareWrites(FatOf(img), req, s, data));
    PreparedView(img, dp, req, s, data);
    PreparedReady(img, dp, req, s, data);
    PreparedContents(img, req, s, data);
    PrepareShows(img, req, s, data);
    NewNode(img, dp, req, s, data);
    Views(img1, req.parent);
    assert ViewOf(img1).fat == FatOf(img1);
    ReadyAddable(ViewOf(img1), dp, req, s);
    EntryStored(img1, req.parent, i, e);
    ReplayConcat(img, PrepareWrites(FatOf(img), req, s, data),
                 TableWrites(req.parent, TableAt(img1, req.parent)[i := e]));
    var w := ViewOf(Replay(img, StoreLog(img, req, s, data)));
    AddCommits(ViewOf(img1), w, dp, i, e);
    ReadyChain(ViewOf(img1), dp, req, s);
    SameThenAdds(ViewOf(img), ViewOf(img1), w, dp + [req.Id()], WriteNode(req, data));
  }

  // What the parent directory looks like afterwards.
  lemma StoreImage(img: Image, dp: seq<Key>, req: Request, s: seq<ClusterNo>, data: seq<byte>)
    requires Placed(img, dp, req, s, data)
    ensures TableAt(Replay(img, StoreLog(img, req, s, data)), req.parent)
         == StoredTable(TableAt(img, req.parent), req, s[0])
  {
    hide Weak, Visible, DirAt, PrepareWrites, FatOf, Link;
    hide FreeSlot, Scan, Replay, DecodeTable, EncodeTable, ClusterAt, ViewOf;
    var t := StoredTable(TableAt(img, req.parent), req, s[0]);
    var img1 := Replay(img, PrepareWrites(FatOf(img), req, s, data));
    PreparedView(img, dp, req, s, data);
    ReplayConcat(img, PrepareWrites(FatOf(img), req, s, data), TableWrites(req.parent, t));
    ClusterWritten(img1, req.parent, EncodeTable(t), req.parent);
    TableDecodesBack(t);
  }

  lemma StoreChain(img: Image, dp: seq<Key>, req: Request, s: seq<ClusterNo>, data: seq<byte>)
    requires Placed(img, dp, req, s, data)
    ensures s != [] && Chain(Link(FatOf(img), s, |s|), s[0]) == s && forall x :: x in s ==> 3 <= x
  {
    hide Weak, Visible, DirAt, PrepareWrites, FatOf, Link, FreeSlot, Scan, ViewOf, TableAt, Replay;
    PreparedView(img, dp, req, s, data);
    NewChain(FatOf(img), s);
  }

  // Cut among the preparing writes, the device shows the old tree.
  lemma StorePrepares(img: Image, dp: seq<Key>, req: Request, s: seq<ClusterNo>, data: seq<byte>, n: nat)
    requires Placed(img, dp, req, s, data) && n <= |PrepareWrites(FatOf(img), req, s, data)|
    ensures var img' := Replay(img, StoreLog(img, req, s, data)[..n]);
      Sound(img') && SameTree(ViewOf(img), ViewOf(img'))
  {
    hide Weak, Visible, DirAt, PrepareWrites, FatOf, TableAt, FreeSlot, Scan, Agree, TableWrites, StoredTable;
    hide Replay, ViewOf, SameTree;
    var prep := PrepareWrites(FatOf(img), req, s, data);
    assert StoreLog(img, req, s, data)[..n] == prep[..n];
    PrepareShows(img, req, s, data);
    assert Shows(ViewOf(img), Replay(img, prep[..n]));
    Frame(ViewOf(img), ViewOf(Replay(img, prep[..n])));
  }

  // Cut k blocks into the directory, the device is as prepared or as after the whole write.
  lemma StoreSwitches(img: Image, dp: seq<Key>, req: Request, s: seq<ClusterNo>, data: seq<byte>, k: nat)
    requires Placed(img, dp, req, s, data) && k <= CLUSTER_BLOCK_COUNT
    ensures var prep := PrepareWrites(FatOf(img), req, s, data);
      Replay(img, StoreLog(img, req, s, data)[..|prep| + k])
      == if k <= FreeSlot(TableAt(img, req.parent)) / 16 then Replay(img, prep)
         else Replay(img, StoreLog(img, req, s, data))
  {
    hide Weak, Visible, DirAt, PrepareWrites, FatOf, TableAt, FreeSlot, Scan, TableWrites, NewEntry, Replay, ViewOf;
    hide SameTree, TableOk;
    var prep := PrepareWrites(FatOf(img), req, s, data);
    var commit := TableWrites(req.parent, StoredTable(TableAt(img, req.parent), req, s[0]));
    assert StoreLog(img, req, s, data)[..|prep| + k] == prep + commit[..k];
    ReplayConcat(img, prep, commit[..k]);
    ReplayConcat(img, prep, commit);
    PreparedView(img, dp, req, s, data);
    Views(Replay(img, prep), req.parent);
    OneBlock(Replay(img, prep), req.parent, FreeSlot(TableAt(img, req.parent)), NewEntry(req, s[0]), k);
  }

  // A crash during a write leaves the old tree up to the commit block and the new one from there on.
  lemma StoreAtomic(img: Image, dp: seq<Key>, req: Request, s: seq<ClusterNo>, data: seq<byte>, n: nat)
    requires Placed(img, dp, req, s, data) && n <= |StoreLog(img, req, s, data)|
    ensures var img' := Replay(img, StoreLog(img, req, s, data)[..n]);
      && Sound(img')
      && if n <= |PrepareWrites(FatOf(img), req, s, data)| + FreeSlot(TableAt(img, req.parent)) / 16
         then SameTree(ViewOf(img), ViewOf(img'))
         else AddsNode(ViewOf(img), ViewOf(img'), dp + [req.Id()], WriteNode(req, data))
  {
    hide Sound, DirAt, PrepareWrites, FatOf, TableAt, FreeSlot, Scan, TableWrites, StoredTable, Replay, ViewOf;
    hide SameTree, AddsNode, WriteNode;
    var prep := PrepareWrites(FatOf(img), req, s, data);
    var log := StoreLog(img, req, s, data);
    if n <= |prep| {
      StorePrepares(img, dp, req, s, data, n);
    } else {
      StoreSwitches(img, dp, req, s, data, n - |prep|);
      StorePrepares(img, dp, req, s, data, |prep|);
      assert log[..|prep|] == prep;
      StoreCommits(img, dp, req, s, data);
    }
  }

  // Deleting.

  // The request names an entry other than the directory's own, in the directory at path dp.
  ghost predicate Listed(img: Image, dp: seq<Key>, req: Request) {
    && Sound(img) && DirAt(ViewOf(img), dp) == req.parent && req.parent != 0
    && req.Id() != NO_KEY && req.Id() != TableAt(img, req.parent)[0].Id()
    && Scan(TableAt(img, req.parent), req.Id(), 0) < TABLE_SIZE
  }

  lemma ListedRemovable(img: Image, dp: seq<Key>, req: Request)
    requires Listed(img, dp, req)
    ensures var i := Scan(TableAt(img, req.parent), req.Id(), 0);
      && 2 <= req.parent && Removable(ViewOf(img), dp, i)
      && Target(ViewOf(img), dp, i) == TableAt(img, req.parent)[i]
      && TableAt(img, req.parent)[i].Id() == req.Id()
  {
    ReachVisible(ViewOf(img), dp);
    VisibleUsed(ViewOf(img), req.parent);
    Views(img, req.parent);
    assert FolderOk(ViewOf(img), req.parent);
    hide Weak, FolderOk, ViewOf, DirAt;
  }

  // Releasing a chain nothing visible uses is harmless.
  lemma HarmlessRelease(v: Vol, s: seq<ClusterNo>)
    requires Weak(v) && forall x :: x in s ==> 3 <= x && !Visible(v, x)
    ensures Harmless(v, FatWrites(Release(v.fat, s)))
  {
    HarmlessFat(v, Release(v.fat, s));
  }

  ghost function Erased(img: Image, req: Request): Image
    requires req.parent < CLUSTER_MAP_SIZE && Scan(TableAt(img, req.parent), req.Id(), 0) < TABLE_SIZE
  {
    var t := TableAt(img, req.parent);
    Replay(img, TableWrites(req.parent, t[Scan(t, req.Id(), 0) := ZERO_ENTRY]))
  }

  // The directory block alone removes the subtree.
  lemma EraseCommits(img: Image, dp: seq<Key>, req: Request)
    requires Listed(img, dp, req)
    ensures var e := TableAt(img, req.parent)[Scan(TableAt(img, req.parent), req.Id(), 0)];
      && Sound(Erased(img, req)) && FatOf(Erased(img, req)) == FatOf(img)
      && RemovesSubtree(ViewOf(img), ViewOf(Erased(img, req)), dp + [req.Id()])
      && forall x :: x in Chain(FatOf(img), e.Head()) ==> 3 <= x && !Visible(ViewOf(Erased(img, req)), x)
  {
    hide Weak, Visible, DirAt, Replay, TableWrites, TableAt, FatOf, Chain, Patched, Removable, Target, Scan;
    var i := Scan(TableAt(img, req.parent), req.Id(), 0);
    ListedRemovable(img, dp, req);
    EntryStored(img, req.parent, i, ZERO_ENTRY);
    Views(img, req.parent);
    hide ViewOf;
    RemoveCommits(ViewOf(img), ViewOf(Erased(img, req)), dp, i);
  }

  // A crash during a delete leaves the old tree up to the directory block and the new one from there on.
  lemma EraseAtomic(img: Image, dp: seq<Key>, req: Request, n: nat)
    requires Listed(img, dp, req) && n <= |DeleteLog(FatOf(img), TableAt(img, req.parent), req)|
    ensures var img' := Replay(img, DeleteLog(FatOf(img), TableAt(img, req.parent), req)[..n]);
      && Sound(img')
      && if n <= Scan(TableAt(img, req.parent), req.Id(), 0) / 16
         then SameTree(ViewOf(img), ViewOf(img'))
         else RemovesSubtree(ViewOf(img), ViewOf(img'), dp + [req.Id()])
  {
    hide Weak, Visible, DirAt, TableOk, FatOf, TableAt, Scan;
    hide Agree, TableWrites, FatWrites, Chain, ViewOf, Release, RemovesSubtree, SameTree;
    var t := TableAt(img, req.parent);
    var i := Scan(t, req.Id(), 0);
    var commit := TableWrites(req.parent, t[i := ZERO_ENTRY]);
    var release := FatWrites(Release(FatOf(img), Chain(FatOf(img), t[i].Head())));
    var log := DeleteLog(FatOf(img), t, req);
    EraseCommits(img, dp, req);
    if n <= 4 {
      assert log[..n] == commit[..n];
      OneBlock(img, req.parent, i, ZERO_ENTRY, n);
      SameAsItself(ViewOf(img));
    } else {
      assert log[..n] == commit + release[..n - 4];
      ReplayConcat(img, commit, release[..n - 4]);
      Views(Erased(img, req), req.parent);
      HarmlessRelease(ViewOf(Erased(img, req)), Chain(FatOf(img), t[i].Head()));
      assert Shows(ViewOf(Erased(img, req)), Erased(img, req)) by {
        ShowsItself(Erased(img, req));
      }
      assert Shows(ViewOf(Erased(img, req)), Replay(Erased(img, req), release[..n - 4]));
      Frame(ViewOf(Erased(img, req)), ViewOf(Replay(img, log[..n])));
      RemovesThenSame(ViewOf(img), ViewOf(Erased(img, req)), ViewOf(Replay(img, log[..n])), dp + [req.Id()]);
    }
  }

  // At the end the table on disk is the one in memory.
  lemma EraseWritesThrough(img: Image, req: Request)
    requires req.parent < CLUSTER_MAP_SIZE && Scan(TableAt(img, req.parent), req.Id(), 0) < TABLE_SIZE
    ensures var t := TableAt(img, req.parent);
      var final := Replay(img, DeleteLog(FatOf(img), t, req));
      var fat := Release(FatOf(img), Chain(FatOf(img), t[Scan(t, req.Id(), 0)].Head()));
      && final == Replay(Erased(img, req), FatWrites(fat))
      && FatOf(final) == fat
      && forall d: ClusterNo :: d != FAT_CLUSTER ==> ClusterAt(final, d) == ClusterAt(Erased(img, req), d)
  {
    hide FatOf, TableAt, Scan, TableWrites, FatWrites, Chain, Release, ClusterAt, Replay;
    var t := TableAt(img, req.parent);
    var i := Scan(t, req.Id(), 0);
    var fat := Release(FatOf(img), Chain(FatOf(img), t[i].Head()));
    ReplayConcat(img, TableWrites(req.parent, t[i := ZERO_ENTRY]), FatWrites(fat));
    FatWritten(Erased(img, req), fat);
  }

  lemma ShowsItself(img: Image)
    requires Sound(img)
    ensures Shows(ViewOf(img), img)
  {
  }
}
