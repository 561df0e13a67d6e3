/**
 * The parent check of read and write: which clusters it admits, and what a write through each of them
 * does. A write keeps the volume, and every node in it, exactly when its parent is neither the cluster
 * of the allocation table nor the end of a file, and a file in a directory has at most 255 clusters.
 */
module Guard {
  import opened Machine
  import opened Layout
  import opened Chains
  import opened Volume
  import opened Disk
  import opened Commit
  import opened Overwrite
  import opened Operations
  import opened Crash
  import opened Atomic
  import opened Runs
  import opened Reading

  // What the check admits.

  // Cluster x ends the chain of the file in slot i of reachable directory d.
  ghost predicate Tail(v: Vol, d: ClusterNo, i: nat, x: ClusterNo) {
    InFile(v, d, i, x) &&
    var s := Chain(v.fat, v.table[d][i].Head());
    s[|s| - 1] == x
  }

  ghost predicate FileTail(v: Vol, x: ClusterNo) {
    exists d: ClusterNo, i: nat :: Tail(v, d, i, x)
  }

  // Cluster x is marked as the end of a chain no live entry owns.
  ghost predicate Stray(v: Vol, x: ClusterNo) {
    3 <= x && v.fat[x] == END_OF_FILE && !Visible(v, x)
  }

  lemma TailEnds(v: Vol, d: ClusterNo, i: nat, x: ClusterNo)
    requires Weak(v) && Tail(v, d, i, x)
    ensures v.fat[x] == END_OF_FILE && 3 <= x && Owns(v, d, i, x) && Visible(v, x) && !Reach(v, x)
    ensures i < TABLE_SIZE
  {
    FileCluster(v, d, i, x);
    assert EntryOk(v, v.table[d][i]);
  }

  // A cluster that ends a visible chain is a directory or ends a file.
  lemma OwnedEnd(v: Vol, d: ClusterNo, i: nat, x: ClusterNo)
    requires Weak(v) && Owns(v, d, i, x) && v.fat[x] == END_OF_FILE
    ensures Reach(v, x) || Tail(v, d, i, x)
  {
    var s := Chain(v.fat, v.table[d][i].Head());
    assert EntryOk(v, v.table[d][i]);
    ChainLinks(v.fat, v.table[d][i].Head());
    var n: nat :| n < |s| && s[n] == x;
    assert v.fat[s[n]] == NextLink(s, n);
    OwnedKind(v, d, i, x);
  }

  // The check admits the cluster of the allocation table, the directories, the last clusters of files,
  // and what an interrupted or leaking operation left behind; nothing is two of these.
  lemma GuardAdmits(v: Vol, x: ClusterNo)
    requires Weak(v)
    ensures v.fat[x] == END_OF_FILE <==> x == FAT_CLUSTER || Reach(v, x) || FileTail(v, x) || Stray(v, x)
    ensures x == FAT_CLUSTER ==> !Reach(v, x) && !FileTail(v, x) && !Stray(v, x)
    ensures Reach(v, x) ==> !FileTail(v, x) && !Stray(v, x)
    ensures FileTail(v, x) ==> !Stray(v, x)
    ensures Strong(v) ==> !Stray(v, x)
  {
    if Reach(v, x) {
      var path :| DirAt(v, path) == x;
      ReachVisible(v, path);
      VisibleUsed(v, x);
      FolderMark(v, path);
    }
    if d: ClusterNo, i: nat :| Tail(v, d, i, x) {
      TailEnds(v, d, i, x);
    }
    if 3 <= x && v.fat[x] == END_OF_FILE && Visible(v, x) {
      var d: ClusterNo, i: nat :| Owns(v, d, i, x);
      OwnedEnd(v, d, i, x);
    }
    assert DirAt(v, []) == ROOT_CLUSTER;
  }

  // A read through a cluster the check admits walks out of the map when the entry it finds leads there.
  lemma AstrayRead(fat: Fat, t: Table, req: Request)
    requires req.parent < CLUSTER_MAP_SIZE && fat[req.parent] == END_OF_FILE
    requires req.Id() == t[0].Id() && LeadsAstray(fat, t[0])
    ensures ReadCode(fat, t, req) == 0 && !Readable(fat, t, req, req.bufferSize)
  {
    hide Scan, Ceil, Ends, Chain;
    OwnNameSlot(t, 0);
    CeilExact(0);
  }

  // So does a read through a blank end of a file, for the all-zero name.
  lemma TailRead(img: Image, req: Request)
    requires Sound(img) && req.parent < CLUSTER_MAP_SIZE && FileTail(ViewOf(img), req.parent)
    requires TableAt(img, req.parent)[0] == ZERO_ENTRY && req.Id() == NO_KEY
    ensures ReadCode(FatOf(img), TableAt(img, req.parent), req) == 0
    ensures !Readable(FatOf(img), TableAt(img, req.parent), req, req.bufferSize)
  {
    hide ViewOf, FatOf, TableAt, FileTail, Unshared, Scan, Ceil, Ends, Chain, DirEntry.Head;
    Views(img, req.parent);
    GuardAdmits(ViewOf(img), req.parent);
    ZeroEntryAstray(FatOf(img), TableAt(img, req.parent)[0], 0);
    AstrayRead(FatOf(img), TableAt(img, req.parent), req);
  }

  // An accepted write.

  ghost predicate Admitted(s: State, req: Request, data: seq<byte>) {
    Mounted(s) && Runnable(WriteOp(req, data)) && EffectOf(s, WriteOp(req, data)).code == 0
  }

  // The writes before the directory's.
  ghost function Preparation(s: State, req: Request, data: seq<byte>): seq<BlockWrite>
    requires Admitted(s, req, data)
  {
    NeededBounds(req);
    PrepareWrites(s.fat, req, Chosen(s.fat, req), data)
  }

  ghost function Prepared(s: State, req: Request, data: seq<byte>): Image
    requires Admitted(s, req, data)
  {
    Replay(s.img, Preparation(s, req, data))
  }

  ghost function Stored(s: State, req: Request, data: seq<byte>): Table
    requires Admitted(s, req, data)
  {
    NeededBounds(req);
    StoredTable(TableAt(s.img, req.parent), req, Chosen(s.fat, req)[0])
  }

  lemma AdmittedChosen(s: State, req: Request, data: seq<byte>)
    requires Admitted(s, req, data)
    ensures Needed(req) <= |FreeBelow(s.fat, CLUSTER_MAP_SIZE)|
    ensures var c := Chosen(s.fat, req);
      && |c| == Needed(req) > 0 && Fresh(s.fat, c)
      && (if req.bufferSize == 0 then |c| == 1 else CLUSTER_SIZE * |c| <= |data|)
      && (forall j, k :: 0 <= j < k < |c| ==> c[j] < c[k])
      && After(s, WriteOp(req, data)).fat == Link(s.fat, c, |c|)
    ensures s.fat[req.parent] == END_OF_FILE
    ensures var t := TableAt(s.img, req.parent);
      FreeSlot(t) < TABLE_SIZE && Scan(t, req.Id(), 2) == TABLE_SIZE
  {
    hide Sound, FatOf, TableAt, FreeBelow, Scan, FreeSlot, Link, WriteLog, Ceil, Replay;
    NeededBounds(req);
    ChosenLowest(s.fat, req);
  }

  lemma AdmittedImage(s: State, req: Request, data: seq<byte>)
    requires Admitted(s, req, data)
    ensures After(s, WriteOp(req, data)).img
         == Replay(Prepared(s, req, data), TableWrites(req.parent, Stored(s, req, data)))
  {
    hide Sound, FatOf, TableAt, FreeBelow, Scan, FreeSlot, Link, PrepareWrites, Ceil, Replay, TableWrites, StoredTable;
    NeededBounds(req);
    ReplayConcat(s.img, Preparation(s, req, data), TableWrites(req.parent, Stored(s, req, data)));
  }

  // The preparation shows nothing, and leaves the links of the new chain on the device.
  lemma PreparationShows(s: State, req: Request, data: seq<byte>)
    requires Admitted(s, req, data)
    ensures Shows(ViewOf(s.img), Prepared(s, req, data))
    ensures FatOf(Prepared(s, req, data)) == Link(s.fat, Chosen(s.fat, req), |Chosen(s.fat, req)|)
    ensures forall x :: x in Chosen(s.fat, req) ==> 3 <= x && !Visible(ViewOf(s.img), x)
  {
    hide Weak, Visible, FatOf, TableAt, Link, Replay, PrepareWrites, EffectOf, Chosen, Needed, Fresh, After;
    AdmittedChosen(s, req, data);
    var c, log := Chosen(s.fat, req), Preparation(s, req, data);
    Views(s.img, req.parent);
    HarmlessPrepare(ViewOf(s.img), req, c, data);
    HarmlessLink(ViewOf(s.img), c, 0);
    ShowsItself(s.img);
    hide ViewOf;
    assert log[..|log|] == log;
    assert Shows(ViewOf(s.img), Replay(s.img, log[..|log|]));
    PreparedLinks(s.img, req, c, data);
  }

  lemma PreparedLinks(img: Image, req: Request, c: seq<ClusterNo>, data: seq<byte>)
    requires Distinct(c) && c != [] && forall x :: x in c ==> 3 <= x
    requires if req.bufferSize == 0 then |c| == 1 else CLUSTER_SIZE * |c| <= |data|
    ensures FatOf(Replay(img, PrepareWrites(FatOf(img), req, c, data))) == Link(FatOf(img), c, |c|)
  {
    hide Link, Replay, FolderWrites, FileWrites, FatOf;
    assert c[0] in c;
    if req.bufferSize == 0 {
      FolderWritten(img, req.name, c[0]);
      assert c == [c[0]];
    } else {
      PreparedFile(img, c, data);
    }
  }

  // What the device holds at the end, for a parent other than the allocation table's cluster.
  lemma StoredImage(s: State, req: Request, data: seq<byte>)
    requires Admitted(s, req, data) && 2 <= req.parent
    ensures var img, img' := Prepared(s, req, data), After(s, WriteOp(req, data)).img;
      && Overwritten(ViewOf(img), ViewOf(img'), req.parent, Stored(s, req, data))
      && img'[BOOT_SECTOR] == Signature() && After(s, WriteOp(req, data)).fat == FatOf(img')
  {
    hide Weak, FatOf, TableAt, Link, Replay, Chosen, Needed, After, ViewOf, EffectOf, Preparation, Visible;
    hide Agree, EncodeTable, ClusterWrites, Prepared, Stored;
    PreparationShows(s, req, data);
    AdmittedChosen(s, req, data);
    AdmittedImage(s, req, data);
    TableStored(Prepared(s, req, data), req.parent, Stored(s, req, data));
  }

  lemma StoredSlot(s: State, req: Request, data: seq<byte>)
    requires Admitted(s, req, data)
    ensures Needed(req) <= |FreeBelow(s.fat, CLUSTER_MAP_SIZE)|
    ensures var t := TableAt(s.img, req.parent);
      && FreeSlot(t) < TABLE_SIZE && Scan(t, req.Id(), 2) == TABLE_SIZE
      && Chosen(s.fat, req) != []
      && Stored(s, req, data) == t[FreeSlot(t) := NewEntry(req, Chosen(s.fat, req)[0])]
  {
    hide Mounted, FatOf, TableAt, FreeBelow, Scan, FreeSlot, NewEntry, EffectOf, After, Fresh, Link;
    AdmittedChosen(s, req, data);
  }

  lemma NewEntryLive(req: Request, c: ClusterNo)
    ensures var e := NewEntry(req, c);
      && e.Live() && e.Id() == req.Id() && e.Head() == c && e.fileSize == req.bufferSize
      && (e.IsFolder() <==> req.bufferSize == 0) && e.undelete == 0 && e.createTime == 0
  {
  }

  // Through a cluster nothing owns: the tree stays as it is.

  lemma StrayWrite(s: State, req: Request, data: seq<byte>)
    requires Admitted(s, req, data) && Stray(ViewOf(s.img), req.parent)
    ensures Mounted(After(s, WriteOp(req, data)))
    ensures SameTree(ViewOf(s.img), ViewOf(After(s, WriteOp(req, data)).img))
    ensures !Strong(ViewOf(After(s, WriteOp(req, data)).img))
  {
    hide Weak, Visible, Owns, FatOf, Chosen, Needed, After, ViewOf, EffectOf, Prepared, Stored, Agree, SameTree;
    var v, w1, w := ViewOf(s.img), ViewOf(Prepared(s, req, data)), ViewOf(After(s, WriteOp(req, data)).img);
    PreparationShows(s, req, data);
    StoredImage(s, req, data);
    Frame(v, w1);
    SameVisible(v, w1);
    UnownedOverwritten(w1, w, req.parent, Stored(s, req, data));
    Frame(w1, w);
    SameThenSame(v, w1, w);
    Views(After(s, WriteOp(req, data)).img, req.parent);
    NewChainLeaks(s, req, data);
  }

  // The clusters the write took belong to no entry.
  lemma NewChainLeaks(s: State, req: Request, data: seq<byte>)
    requires Admitted(s, req, data) && 2 <= req.parent
    requires var v, w := ViewOf(s.img), ViewOf(After(s, WriteOp(req, data)).img);
      forall d: ClusterNo, i: nat, x: ClusterNo :: Owns(w, d, i, x) <==> Owns(v, d, i, x)
    ensures !Strong(ViewOf(After(s, WriteOp(req, data)).img))
  {
    hide Mounted, Visible, Owns, ViewOf, EffectOf, After, Chosen;
    var x := NewChainUsed(s, req, data);
    SameVisible(ViewOf(s.img), ViewOf(After(s, WriteOp(req, data)).img));
  }

  lemma NewChainUsed(s: State, req: Request, data: seq<byte>) returns (x: ClusterNo)
    requires Admitted(s, req, data) && 2 <= req.parent
    ensures 3 <= x && !Visible(ViewOf(s.img), x)
    ensures ViewOf(After(s, WriteOp(req, data)).img).fat[x] != EMPTY_ENTRY
  {
    hide Mounted, Visible, FatOf, TableAt, Needed, ViewOf, EffectOf, Prepared, Stored, Link, After, Chosen, Shows;
    hide Overwritten, Distinct, Covers, Scan, FreeSlot;
    AdmittedChosen(s, req, data);
    PreparationShows(s, req, data);
    StoredImage(s, req, data);
    Views(After(s, WriteOp(req, data)).img, req.parent);
    var c := Chosen(s.fat, req);
    x := c[0];
    assert x in c;
    LinkUsed(s.fat, c);
  }

  lemma LinkUsed(fat: Fat, c: seq<ClusterNo>)
    requires Distinct(c) && c != [] && forall x :: x in c ==> 3 <= x
    ensures Link(fat, c, |c|)[c[0]] != EMPTY_ENTRY
  {
    LinkAt(fat, c, |c|, c[0]);
    assert 1 < |c| ==> c[1] in c;
  }

  // Through the last cluster of a file: that file's bytes change.

  // Writing the new entry changes the cluster: the slot was not live, and is now.
  lemma ClusterChanged(s: State, req: Request, data: seq<byte>)
    requires Admitted(s, req, data) && 2 <= req.parent && Visible(ViewOf(s.img), req.parent)
    ensures ViewOf(Prepared(s, req, data)).bytes[req.parent]
         != ViewOf(After(s, WriteOp(req, data)).img).bytes[req.parent]
  {
    hide Weak, Visible, FatOf, Chosen, Needed, ViewOf, EffectOf, Prepared, Stored, FreeSlot, Scan, NewEntry, After;
    var img1, final := Prepared(s, req, data), After(s, WriteOp(req, data)).img;
    PreparationShows(s, req, data);
    StoredImage(s, req, data);
    StoredSlot(s, req, data);
    NewEntryLive(req, Chosen(s.fat, req)[0]);
    Views(s.img, req.parent);
    Views(img1, req.parent);
    Views(final, req.parent);
  }

  // The file whose last cluster was named is spoiled, and nothing else changes in the tree.
  lemma TailWrite(s: State, req: Request, data: seq<byte>, dp: seq<Key>, i: nat)
    requires Admitted(s, req, data) && Tail(ViewOf(s.img), DirAt(ViewOf(s.img), dp), i, req.parent)
    ensures var v := ViewOf(s.img);
      && Mounted(After(s, WriteOp(req, data)))
      && FileSpoiled(v, ViewOf(After(s, WriteOp(req, data)).img), dp + [v.table[DirAt(v, dp)][i].Id()])
      && !Strong(ViewOf(After(s, WriteOp(req, data)).img))
  {
    hide Weak, Visible, FatOf, Chosen, Needed, After, ViewOf, EffectOf, Prepared, Stored, SameTree;
    hide Agree, FileSpoiled, InFile, DirAt, Owns;
    var v, w1, w := ViewOf(s.img), ViewOf(Prepared(s, req, data)), ViewOf(After(s, WriteOp(req, data)).img);
    var d := DirAt(v, dp);
    TailEnds(v, d, i, req.parent);
    PreparationShows(s, req, data);
    StoredImage(s, req, data);
    ClusterChanged(s, req, data);
    Frame(v, w1);
    FileFrame(v, w1, dp, i, req.parent);
    FileKeepsWeak(w1, w, d, i, req.parent, Stored(s, req, data));
    FileSpoils(w1, w, d, i, req.parent, Stored(s, req, data), dp);
    SameThenSpoiled(v, w1, w, dp + [v.table[d][i].Id()]);
    NewChainLeaks(s, req, data);
  }

  // Through the cluster of the allocation table: the new entry lands among the links.

  // Link x of a table of links read from a directory table lies in entry x / 8.
  lemma LinkInEntry(t: Table, x: ClusterNo)
    ensures DecodeFat(EncodeTable(t))[x] == FromLe32(EncodeEntry(t[x / 8])[4 * (x % 8)..4 * (x % 8) + 4])
  {
    hide EncodeEntry, EncodeTable, FromLe32;
    var i, k := x / 8, x % 8;
    TableSlice(t, i);
    SliceOfSlice(EncodeTable(t), 32 * i, 32, 4 * k, 4);
    assert 32 * i + 4 * k == 4 * x;
  }

  lemma SliceOfSlice(s: seq<byte>, a: nat, n: nat, b: nat, m: nat)
    requires a + n <= |s| && b + m <= n
    ensures s[a..a + n][b..b + m] == s[a + b..a + b + m]
  {
    assert s[a..a + n] == s[a..a + b] + s[a + b..a + b + m] + s[a + b + m..a + n];
  }

  // The low byte of the fourth link of an entry is its user attribute.
  lemma AttributeLink(t: Table, i: nat)
    requires i < TABLE_SIZE
    ensures DecodeFat(EncodeTable(t))[8 * i + 3] % 0x100 == t[i].userAttribute
    ensures t[i].undelete == 0 && t[i].createTime == 0 ==>
      DecodeFat(EncodeTable(t))[8 * i + 3] == t[i].userAttribute
  {
    hide EncodeEntry, EncodeTable, DecodeFat, FromLe32, Le16;
    var x: ClusterNo := 8 * i + 3;
    assert x / 8 == i && x % 8 == 3;
    LinkInEntry(t, x);
    AttributeBytes(t[i]);
    LowByte(EncodeEntry(t[i])[12..16]);
  }

  lemma AttributeBytes(e: DirEntry)
    ensures var s := EncodeEntry(e)[12..16];
      s[0] == e.userAttribute && s[1] == e.undelete && s[2..] == Le16(e.createTime)
  {
    EntryOffsets(e);
    hide EncodeEntry, Le16;
    var s := EncodeEntry(e);
    assert s[12..16][2..] == s[14..16];
  }

  lemma LowByte(s: seq<byte>)
    requires |s| == 4
    ensures FromLe32(s) % 0x100 == s[0]
    ensures s[1] == 0 && s[2..] == Le16(0) ==> FromLe32(s) == s[0]
  {
    assert s[..2][0] == s[0] && s[..2][1] == s[1];
  }

  // The cached links after the write differ from any that carry the new entry.
  lemma LinksDiffer(fat: Fat, fat': Fat, c: seq<ClusterNo>, i: nat)
    requires (forall j, k :: 0 <= j < k < |c| ==> c[j] < c[k]) && forall x :: x in c ==> fat[x] == EMPTY_ENTRY
    requires i < TABLE_SIZE && fat[8 * i + 3] != UATTR_NOT_EMPTY == fat'[8 * i + 3]
    requires forall x: ClusterNo :: x / 8 != i ==> fat'[x] == fat[x]
    ensures Link(fat, c, |c|) != fat'
  {
    var x: ClusterNo := 8 * i + 3;
    LinkAt(fat, c, |c|, x);
    assert c[..|c|] == c;
    if x in c && Link(fat, c, |c|)[x] == UATTR_NOT_EMPTY {
      var k: nat :| k < |c| && c[k] == x;
      var y := c[k + 1];
      assert y in c;
      LinkAt(fat, c, |c|, y);
      assert c[k + 1] == y && x < y && y / 8 != i;
      assert k + 2 < |c| ==> y < c[k + 2];
    }
  }

  lemma SameLinks(t: Table, t': Table, i: nat, x: ClusterNo)
    requires i < TABLE_SIZE && t' == t[i := t'[i]] && x / 8 != i
    ensures DecodeFat(EncodeTable(t'))[x] == DecodeFat(EncodeTable(t))[x]
  {
    hide DecodeFat, EncodeTable;
    LinkInEntry(t, x);
    LinkInEntry(t', x);
  }

  lemma FatClusterImage(s: State, req: Request, data: seq<byte>)
    requires Admitted(s, req, data) && req.parent == FAT_CLUSTER
    ensures s.fat == DecodeFat(EncodeTable(TableAt(s.img, req.parent)))
    ensures FatOf(After(s, WriteOp(req, data)).img) == DecodeFat(EncodeTable(Stored(s, req, data)))
  {
    hide Weak, Chosen, Needed, ViewOf, EffectOf, Prepared, Stored, EncodeTable, DecodeTable, DecodeFat, Replay;
    hide After, ClusterAt;
    AdmittedImage(s, req, data);
    TableEncodesBack(ClusterAt(s.img, req.parent));
    ClusterWritten(Prepared(s, req, data), FAT_CLUSTER, EncodeTable(Stored(s, req, data)), FAT_CLUSTER);
  }

  // The cached table and the one on the device part: nothing that follows is written through.
  lemma FatClusterWrite(s: State, req: Request, data: seq<byte>)
    requires Admitted(s, req, data) && req.parent == FAT_CLUSTER
    ensures !Mounted(After(s, WriteOp(req, data)))
  {
    hide Weak, FatOf, TableAt, Needed, ViewOf, EffectOf, Prepared, Stored, Link, After, Chosen;
    hide FreeSlot, Scan, DecodeFat, EncodeTable, NewEntry;
    var t, t' := TableAt(s.img, req.parent), Stored(s, req, data);
    FatClusterImage(s, req, data);
    AdmittedChosen(s, req, data);
    StoredSlot(s, req, data);
    var c, i := Chosen(s.fat, req), FreeSlot(t);
    NewEntryLive(req, c[0]);
    AttributeLink(t, i);
    AttributeLink(t', i);
    forall x: ClusterNo | x / 8 != i ensures DecodeFat(EncodeTable(t'))[x] == DecodeFat(EncodeTable(t))[x] {
      SameLinks(t, t', i, x);
    }
    LinksDiffer(s.fat, DecodeFat(EncodeTable(t')), c, i);
  }

  // Beyond 255 clusters: the entry records more bytes than its chain holds.

  // Storing an entry under a new name hides no directory.
  lemma {:induction false} OldFolderStays(v: Vol, w: Vol, d: ClusterNo, i: nat, e: DirEntry, path: seq<Key>)
    requires 2 <= i < TABLE_SIZE && TableOk(v.table[d], d) && Overwritten(v, w, d, v.table[d][i := e])
    requires Weak(v) && !v.table[d][i].Live() && e.Live() && e.Id() != NO_KEY
    requires Scan(v.table[d], e.Id(), 2) == TABLE_SIZE && DirAt(v, path) != 0
    ensures DirAt(w, path) == DirAt(v, path)
  {
    hide Weak, TableOk, Scan, Find;
    if path != [] {
      OldFolderStays(v, w, d, i, e, path[..|path| - 1]);
      var k := path[|path| - 1];
      FindAfterAdd(v.table[d], d, i, e, k);
      NameAbsent(v.table[d], e.Id());
    }
  }

  lemma RecordedSize(v: Vol, d: ClusterNo, i: nat)
    requires Weak(v) && Reach(v, d) && LiveAt(v, d, i) && !v.table[d][i].IsFolder()
    ensures v.table[d][i].fileSize <= MAX_FILE_SIZE
  {
    hide DirAt, Chain;
    assert EntryOk(v, v.table[d][i]);
  }

  lemma ParentKept(s: State, dp: seq<Key>, req: Request, data: seq<byte>)
    requires Admitted(s, req, data) && DirAt(ViewOf(s.img), dp) == req.parent != 0
    ensures var w1 := ViewOf(Prepared(s, req, data));
      && 2 <= req.parent && Weak(w1) && DirAt(w1, dp) == req.parent
      && w1.table[req.parent] == TableAt(s.img, req.parent) && TableOk(w1.table[req.parent], req.parent)
  {
    hide FatOf, TableAt, Needed, ViewOf, EffectOf, Prepared, DirAt, SameTree, TableOk, Unshared;
    var v, w1 := ViewOf(s.img), ViewOf(Prepared(s, req, data));
    PreparationShows(s, req, data);
    ReachVisible(v, dp);
    VisibleUsed(v, req.parent);
    Views(s.img, req.parent);
    DirAtFrame(v, w1, dp);
    Frame(v, w1);
    ReachedFolder(v, dp);
  }

  lemma OversizedWrite(s: State, dp: seq<Key>, req: Request, data: seq<byte>)
    requires Admitted(s, req, data) && DirAt(ViewOf(s.img), dp) == req.parent != 0
    requires req.bufferSize > MAX_FILE_SIZE
    ensures !Mounted(After(s, WriteOp(req, data)))
  {
    hide Weak, FatOf, TableAt, Needed, ViewOf, EffectOf, Prepared, Stored, After, Chosen, FreeSlot, Scan, NewEntry;
    hide DirAt, TableOk;
    var w1, w := ViewOf(Prepared(s, req, data)), ViewOf(After(s, WriteOp(req, data)).img);
    ParentKept(s, dp, req, data);
    StoredSlot(s, req, data);
    StoredImage(s, req, data);
    var t := TableAt(s.img, req.parent);
    var i, e := FreeSlot(t), NewEntry(req, Chosen(s.fat, req)[0]);
    NewEntryLive(req, Chosen(s.fat, req)[0]);
    NameNotZero(t, req.parent, req.Id());
    FreeSlotFree(t);
    OldFolderStays(w1, w, req.parent, i, e, dp);
    if Weak(w) {
      RecordedSize(w, req.parent, i);
    }
  }

  lemma FreeSlotFree(t: Table)
    ensures 2 <= FreeSlot(t) && (FreeSlot(t) < TABLE_SIZE ==> !t[FreeSlot(t)].Live())
  {
  }

  // Every node that was there is still there, unchanged.
  ghost predicate KeepsNodes(v: Vol, w: Vol) {
    forall p :: Lookup(v, p) != None ==> Lookup(w, p) == Lookup(v, p)
  }

  lemma FolderWrite(s: State, req: Request, data: seq<byte>)
    requires Admitted(s, req, data) && Reach(ViewOf(s.img), req.parent) && req.bufferSize <= MAX_FILE_SIZE
    ensures Mounted(After(s, WriteOp(req, data)))
    ensures KeepsNodes(ViewOf(s.img), ViewOf(After(s, WriteOp(req, data)).img))
  {
    hide Mounted, ViewOf, EffectOf, After, DirAt, Lookup, WriteNode;
    var dp :| DirAt(ViewOf(s.img), dp) == req.parent;
    StepKeeps(s, WriteOp(req, data), dp);
  }

  // An accepted write keeps the volume mounted and every node as it was, exactly when its parent is
  // neither the allocation table's cluster nor the end of a file, and a file stored in a directory has
  // at most 255 clusters.
  lemma WriteKeepsIff(s: State, req: Request, data: seq<byte>)
    requires Admitted(s, req, data)
    ensures var v, s' := ViewOf(s.img), After(s, WriteOp(req, data));
      Mounted(s') && KeepsNodes(v, ViewOf(s'.img)) <==>
        && req.parent != FAT_CLUSTER && !FileTail(v, req.parent)
        && (Reach(v, req.parent) ==> req.bufferSize <= MAX_FILE_SIZE)
  {
    hide Weak, ViewOf, EffectOf, After, DirAt, Lookup, FatOf, Tail, Needed, Chosen, Link, TableAt, Reach, Visible;
    var v := ViewOf(s.img);
    AdmittedChosen(s, req, data);
    Views(s.img, req.parent);
    GuardAdmits(v, req.parent);
    if req.parent == FAT_CLUSTER {
      FatClusterWrite(s, req, data);
    } else if Stray(v, req.parent) {
      StrayWrite(s, req, data);
    } else if FileTail(v, req.parent) {
      TailWriteLoses(s, req, data);
    } else if req.bufferSize <= MAX_FILE_SIZE {
      FolderWrite(s, req, data);
    } else {
      OversizedLoses(s, req, data);
    }
  }

  lemma TailWriteLoses(s: State, req: Request, data: seq<byte>)
    requires Admitted(s, req, data) && FileTail(ViewOf(s.img), req.parent)
    ensures !KeepsNodes(ViewOf(s.img), ViewOf(After(s, WriteOp(req, data)).img))
  {
    hide Mounted, ViewOf, EffectOf, After, DirAt, Lookup;
    var d: ClusterNo, i: nat :| Tail(ViewOf(s.img), d, i, req.parent);
    var dp :| DirAt(ViewOf(s.img), dp) == d;
    TailWrite(s, req, data, dp, i);
  }

  lemma OversizedLoses(s: State, req: Request, data: seq<byte>)
    requires Admitted(s, req, data) && Reach(ViewOf(s.img), req.parent) && req.bufferSize > MAX_FILE_SIZE
    ensures !Mounted(After(s, WriteOp(req, data)))
  {
    hide Mounted, ViewOf, EffectOf, After, DirAt;
    var dp :| DirAt(ViewOf(s.img), dp) == req.parent;
    OversizedWrite(s, dp, req, data);
  }
}
