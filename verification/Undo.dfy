/** Delete undoes write: the allocation table and the parent directory come back bit for bit. */
module Undo {
  import opened Machine
  import opened Layout
  import opened Chains
  import opened Volume
  import opened Disk
  import opened Commit
  import opened Operations
  import opened Crash
  import opened Atomic
  import opened Runs
  import opened Reading

  lemma FreeSlotZero(t: Table, d: ClusterNo)
    requires TableOk(t, d) && FreeSlot(t) < TABLE_SIZE
    ensures t[FreeSlot(t)] == ZERO_ENTRY
  {
  }

  lemma WrittenSlot(t: Table, d: ClusterNo, req: Request, c: ClusterNo)
    requires TableOk(t, d) && FreeSlot(t) < TABLE_SIZE && Scan(t, req.Id(), 2) == TABLE_SIZE
    requires req.Id() != t[0].Id()
    ensures var t' := StoredTable(t, req, c);
      && t'[0] == t[0] && Scan(t', req.Id(), 0) == FreeSlot(t) && t'[FreeSlot(t)] == NewEntry(req, c)
      && t'[FreeSlot(t) := ZERO_ENTRY] == t && req.Id() != NO_KEY
  {
    hide Scan, TableOk, FreeSlot, Find;
    var t' := StoredTable(t, req, c);
    FreeSlotZero(t, d);
    NameNotZero(t, d, req.Id());
    TableAfterAdd(t, d, FreeSlot(t), NewEntry(req, c));
    FindLive(t', d, FreeSlot(t));
    ScanFromSelf(t', d, req.Id());
  }

  // The write went through.
  ghost predicate Wrote(s: State, dp: seq<Key>, req: Request, data: seq<byte>) {
    && Mounted(s) && Allowed(s, WriteOp(req, data)) && DirAt(ViewOf(s.img), dp) == req.parent != 0
    && EffectOf(s, WriteOp(req, data)).code == 0
  }

  // The write went through, into a name that is not the directory's own.
  ghost predicate WroteOther(s: State, dp: seq<Key>, req: Request, data: seq<byte>) {
    Wrote(s, dp, req, data) && req.Id() != TableAt(s.img, req.parent)[0].Id()
  }

  lemma WrittenTable(s: State, dp: seq<Key>, req: Request, data: seq<byte>) returns (c: seq<ClusterNo>)
    requires WroteOther(s, dp, req, data)
    ensures c != [] && WriteCode(s.fat, TableAt(s.img, req.parent), req) == 0 && c == Chosen(s.fat, req)
    ensures var t := TableAt(s.img, req.parent); var t' := TableAt(Next(s, WriteOp(req, data)).img, req.parent);
      var i := Scan(t', req.Id(), 0);
      && t'[0] == t[0] && req.Id() != NO_KEY
      && i < TABLE_SIZE && t'[i := ZERO_ENTRY] == t && t'[i].Head() == c[0]
  {
    hide Weak, DirAt, ViewOf, FatOf, TableAt, Scan, FreeSlot, StoreLog, StoredTable, Chain, Link, Distinct, TableOk;
    c := Chosen(s.fat, req);
    AcceptedPlaced(s, dp, req, data);
    StoreImage(s.img, dp, req, c, data);
    PreparedView(s.img, dp, req, c, data);
    WrittenSlot(TableAt(s.img, req.parent), req.parent, req, c[0]);
  }

  lemma WrittenLinks(s: State, dp: seq<Key>, req: Request, data: seq<byte>, c: seq<ClusterNo>)
    requires Wrote(s, dp, req, data)
    requires WriteCode(s.fat, TableAt(s.img, req.parent), req) == 0 && c == Chosen(s.fat, req)
    ensures var fat := Next(s, WriteOp(req, data)).fat;
      c != [] && Chain(fat, c[0]) == c && Release(fat, c) == s.fat
  {
    hide Weak, DirAt, ViewOf, FatOf, TableAt, Scan, FreeSlot, StoreLog, Chosen, Chain, Link;
    AcceptedPlaced(s, dp, req, data);
    StoreChain(s.img, dp, req, c, data);
    ReleaseUndoesLink(s.fat, c);
  }

  lemma WrittenDeletable(s: State, dp: seq<Key>, req: Request, data: seq<byte>)
    requires WroteOther(s, dp, req, data)
    ensures var written := Next(s, WriteOp(req, data));
      && Mounted(written) && DirAt(ViewOf(written.img), dp) == req.parent
      && Allowed(written, DeleteOp(req)) && EffectOf(written, DeleteOp(req)).code == 0
      && AddsNode(ViewOf(s.img), ViewOf(written.img), dp + [req.Id()], WriteNode(req, data))
  {
    hide Sound, DirAt, ViewOf, FatOf, TableAt, Scan, Lookup;
    StepKeeps(s, WriteOp(req, data), dp);
    var c := WrittenTable(s, dp, req, data);
    assert dp != dp + [req.Id()];
  }

  // What a delete leaves in the two clusters it writes.
  lemma DeletedClusters(s: State, dp: seq<Key>, req: Request)
    requires Mounted(s) && Allowed(s, DeleteOp(req)) && DirAt(ViewOf(s.img), dp) == req.parent != 0
    requires EffectOf(s, DeleteOp(req)).code == 0
    ensures var t := TableAt(s.img, req.parent); var i := Scan(t, req.Id(), 0); var final := Next(s, DeleteOp(req));
      && final.fat == Release(s.fat, Chain(s.fat, t[i].Head()))
      && ClusterAt(final.img, FAT_CLUSTER) == EncodeFat(final.fat)
      && ClusterAt(final.img, req.parent) == EncodeTable(t[i := ZERO_ENTRY])
  {
    hide Sound, Weak, DirAt, ViewOf, FatOf, TableAt, Scan;
    hide Release, Chain, ClusterAt, Replay, EncodeTable, Removable, Target;
    hide Listed, Reach;
    var t := TableAt(s.img, req.parent);
    var i := Scan(t, req.Id(), 0);
    FoundListed(s, dp, req);
    EraseWritesThrough(s.img, req);
    ListedRemovable(s.img, dp, req);
    ClusterWritten(s.img, req.parent, EncodeTable(t[i := ZERO_ENTRY]), req.parent);
    ClusterWritten(Erased(s.img, req), FAT_CLUSTER, EncodeFat(Release(s.fat, Chain(s.fat, t[i].Head()))), FAT_CLUSTER);
  }

  lemma NothingBelow(v: Vol, path: seq<Key>, p: seq<Key>)
    requires Lookup(v, path) == None && path <= p
    ensures Lookup(v, p) == None && DirAt(v, p) == 0
    decreases |p|
  {
    if path != p {
      NothingBelow(v, path, p[..|p| - 1]);
    }
  }

  lemma AddThenRemove(u: Vol, v: Vol, w: Vol, path: seq<Key>, node: Node)
    requires AddsNode(u, v, path, node) && RemovesSubtree(v, w, path)
    ensures SameTree(u, w)
  {
    hide Lookup, DirAt;
    forall p | path <= p ensures Lookup(u, p) == None && DirAt(u, p) == 0 {
      NothingBelow(u, path, p);
    }
  }

  // The allocation table, in memory and on disk, the parent directory, and the tree are those of s.
  ghost predicate Restored(s: State, req: Request, final: State)
    requires req.parent < CLUSTER_MAP_SIZE
  {
    && final.fat == s.fat
    && ClusterAt(final.img, FAT_CLUSTER) == ClusterAt(s.img, FAT_CLUSTER)
    && ClusterAt(final.img, req.parent) == ClusterAt(s.img, req.parent)
    && SameTree(ViewOf(s.img), ViewOf(final.img))
  }

  lemma OtherNameRestored(s: State, dp: seq<Key>, req: Request, data: seq<byte>)
    requires WroteOther(s, dp, req, data)
    ensures var written := After(s, WriteOp(req, data));
      EffectOf(written, DeleteOp(req)).code == 0 && Restored(s, req, After(written, DeleteOp(req)))
  {
    hide Sound, DirAt, ViewOf, Scan, Lookup, Allowed;
    hide EffectOf, Chain, Release, ClusterAt, After, AddsNode, RemovesSubtree;
    hide DecodeTable, EncodeTable, DecodeFat, EncodeFat, SameTree, WriteNode;
    var written := Next(s, WriteOp(req, data));
    WrittenDeletable(s, dp, req, data);
    var c := WrittenTable(s, dp, req, data);
    WrittenLinks(s, dp, req, data, c);
    DeletedClusters(written, dp, req);
    TableEncodesBack(ClusterAt(s.img, req.parent));
    FatEncodesBack(ClusterAt(s.img, FAT_CLUSTER));
    StepKeeps(written, DeleteOp(req), dp);
    AddThenRemove(ViewOf(s.img), ViewOf(written.img), ViewOf(Next(written, DeleteOp(req)).img),
                  dp + [req.Id()], WriteNode(req, data));
  }

  // Deleting the directory's own entry frees the directory's cluster.
  lemma OwnNameFreed(s: State, dp: seq<Key>, req: Request)
    requires Mounted(s) && DirAt(ViewOf(s.img), dp) == req.parent != 0
    requires req.Id() == TableAt(s.img, req.parent)[0].Id()
    ensures EffectOf(s, DeleteOp(req)) ==
      Effect(0, Release(s.fat, [req.parent]), DeleteLog(s.fat, TableAt(s.img, req.parent), req))
    ensures Scan(TableAt(s.img, req.parent), req.Id(), 0) == 0
    ensures Chain(s.fat, TableAt(s.img, req.parent)[0].Head()) == [req.parent]
    ensures s.fat[req.parent] == END_OF_FILE && After(s, DeleteOp(req)).fat[req.parent] == EMPTY_ENTRY
  {
    hide Weak, DirAt, ViewOf, FatOf, TableAt, Scan, Chain, DeleteLog;
    Views(s.img, req.parent);
    OwnNameSlot(TableAt(s.img, req.parent), 0);
    SelfHead(ViewOf(s.img), dp);
    SelfChain(ViewOf(s.img), dp);
  }

  lemma OwnNameNotRestored(s: State, dp: seq<Key>, req: Request, data: seq<byte>)
    requires Wrote(s, dp, req, data) && req.Id() == TableAt(s.img, req.parent)[0].Id()
    ensures var written := After(s, WriteOp(req, data));
      EffectOf(written, DeleteOp(req)).code == 0 && !Restored(s, req, After(written, DeleteOp(req)))
  {
    hide Weak, DirAt, ViewOf, FatOf, TableAt, Scan, Lookup, Chain, DeleteLog, EffectOf, WriteNode, SameTree, After;
    var written := Next(s, WriteOp(req, data));
    StepKeeps(s, WriteOp(req, data), dp);
    assert dp != dp + [req.Id()];
    Views(s.img, req.parent);
    Views(written.img, req.parent);
    OwnNameFreed(written, dp, req);
    OwnNameFreed(s, dp, req);
  }

  // After a successful write, deleting the same name succeeds; it restores the allocation table, in
  // memory and on disk, and the parent directory, bit for bit, exactly when the name is not the
  // directory's own.
  lemma DeleteUndoesWrite(s: State, dp: seq<Key>, req: Request, data: seq<byte>)
    requires Wrote(s, dp, req, data)
    ensures var written := After(s, WriteOp(req, data));
      && EffectOf(written, DeleteOp(req)).code == 0
      && (Restored(s, req, After(written, DeleteOp(req))) <==> req.Id() != TableAt(s.img, req.parent)[0].Id())
  {
    hide Mounted, Allowed, DirAt, ViewOf, TableAt, EffectOf, After, Restored;
    if req.Id() == TableAt(s.img, req.parent)[0].Id() {
      OwnNameNotRestored(s, dp, req, data);
    } else {
      OtherNameRestored(s, dp, req, data);
    }
  }
}
