/**
 * The parent check delete does not make. Whatever cluster is named as its parent, delete reads it as a
 * directory, frees the chain of the entry it finds, and clears the entry. Through a cluster that is no
 * directory it keeps the volume exactly when nothing owns a cluster of that chain, and every node exactly
 * when, in addition, nothing owns the cluster itself.
 */
module DeleteGuard {
  import opened Machine
  import opened Layout
  import opened Chains
  import opened Volume
  import opened Disk
  import opened Commit
  import opened Overwrite
  import opened Operations
  import opened Crash
  import opened Atomic
  import opened Runs
  import opened Reading
  import opened Boundaries

  // Freeing a chain.

  // No entry owns any of the clusters, and none is reserved.
  ghost predicate Unowned(v: Vol, s: seq<ClusterNo>) {
    forall x :: x in s ==> 3 <= x && !Visible(v, x)
  }

  // w is v with the chain s freed, and anything in cluster p.
  ghost predicate Severed(v: Vol, w: Vol, p: ClusterNo, s: seq<ClusterNo>) {
    && w.fat == Release(v.fat, s)
    && forall x: ClusterNo :: x != p && x != FAT_CLUSTER ==> w.table[x] == v.table[x] && w.bytes[x] == v.bytes[x]
  }

  lemma UnownedSevered(v: Vol, w: Vol, p: ClusterNo, s: seq<ClusterNo>)
    requires Weak(v) && Severed(v, w, p, s) && Unowned(v, s) && !Visible(v, p)
    ensures Agree(v, w)
  {
    hide Visible;
    forall x: ClusterNo | Visible(v, x) ensures 2 <= x {
      VisibleUsed(v, x);
    }
  }

  lemma {:induction false} SeveredDirAt(v: Vol, w: Vol, p: ClusterNo, s: seq<ClusterNo>, path: seq<Key>)
    requires Weak(v) && Severed(v, w, p, s) && !Reach(v, p)
    ensures DirAt(w, path) == DirAt(v, path)
    ensures DirAt(v, path) != 0 ==> w.table[DirAt(v, path)] == v.table[DirAt(v, path)]
  {
    hide Weak, Sub;
    if path != [] {
      SeveredDirAt(v, w, p, s, path[..|path| - 1]);
    }
    if DirAt(v, path) != 0 {
      ReachVisible(v, path);
      VisibleUsed(v, DirAt(v, path));
    }
  }

  // A chain that runs into a freed cluster is broken.
  lemma BrokenChain(fat: Fat, s: seq<ClusterNo>, c: uint32, x: ClusterNo)
    requires x in s && x in Chain(fat, c)
    ensures !ChainOk(Release(fat, s), c)
  {
    var fat' := Release(fat, s);
    hide ChainOk;
    if y :| y in Chain(fat', c) && y in s {
      if ChainOk(fat', c) {
        LinksUsed(fat', c, y);
      }
    } else {
      WalkFrame(fat', fat, c, CLUSTER_MAP_SIZE);
    }
  }

  lemma OwnedSevered(v: Vol, w: Vol, p: ClusterNo, s: seq<ClusterNo>)
    requires Weak(v) && Severed(v, w, p, s) && !Reach(v, p) && !Unowned(v, s)
    ensures !Weak(w)
  {
    var x :| x in s && (x < 3 || Visible(v, x));
    if 3 <= x {
      var d: ClusterNo, i: nat :| Owns(v, d, i, x);
      var path :| DirAt(v, path) == d;
      SeveredDirAt(v, w, p, s, path);
      BrokenChain(v.fat, s, v.table[d][i].Head(), x);
      BrokenEntry(w, d, i);
    } else {
      assert w.fat[x] == EMPTY_ENTRY;
    }
  }

  lemma BrokenEntry(v: Vol, d: ClusterNo, i: nat)
    requires Reach(v, d) && LiveAt(v, d, i) && !ChainOk(v.fat, v.table[d][i].Head())
    ensures !Weak(v)
  {
  }

  // Inside a file, the freed chain changes nothing, and the cleared entry that file.
  lemma FileSevered(v: Vol, w: Vol, p: ClusterNo, s: seq<ClusterNo>, dp: seq<Key>, i: nat)
    requires Weak(v) && Severed(v, w, p, s) && Unowned(v, s)
    requires InFile(v, DirAt(v, dp), i, p) && w.bytes[p] != v.bytes[p]
    ensures Weak(w) && i < TABLE_SIZE && FileSpoiled(v, w, dp + [v.table[DirAt(v, dp)][i].Id()])
  {
    hide Weak, DirAt, InFile, Visible, FileSpoiled, Agree, SameTree, Severed, Unowned, Overwritten;
    var u := Vol(w.fat, w.bytes[p := v.bytes[p]], w.table[p := v.table[p]]);
    FileCluster(v, DirAt(v, dp), i, p);
    SeveredApart(v, w, p, s);
    FreedAgrees(v, u, s);
    Frame(v, u);
    FileFrame(v, u, dp, i, p);
    FileKeepsWeak(u, w, DirAt(v, dp), i, p, w.table[p]);
    FileSpoils(u, w, DirAt(v, dp), i, p, w.table[p], dp);
    SameThenSpoiled(v, u, w, dp + [v.table[DirAt(v, dp)][i].Id()]);
  }

  // Freeing the chain and overwriting the cluster, one after the other.
  lemma SeveredApart(v: Vol, w: Vol, p: ClusterNo, s: seq<ClusterNo>)
    requires Severed(v, w, p, s)
    ensures var u := Vol(w.fat, w.bytes[p := v.bytes[p]], w.table[p := v.table[p]]);
      && Severed(v, u, FAT_CLUSTER, s) && Overwritten(u, w, p, w.table[p]) && u.bytes[p] == v.bytes[p]
  {
  }

  lemma FreedAgrees(v: Vol, u: Vol, s: seq<ClusterNo>)
    requires Weak(v) && Severed(v, u, FAT_CLUSTER, s) && Unowned(v, s)
    ensures Agree(v, u)
  {
    hide Visible;
    if Visible(v, FAT_CLUSTER) {
      VisibleUsed(v, FAT_CLUSTER);
    }
    UnownedSevered(v, u, FAT_CLUSTER, s);
  }

  // A delete that finds an entry whose chain ends.

  ghost predicate Located(s: State, req: Request) {
    && Mounted(s) && req.parent < CLUSTER_MAP_SIZE
    && Scan(TableAt(s.img, req.parent), req.Id(), 0) < TABLE_SIZE
    && Deletable(s.fat, TableAt(s.img, req.parent), req)
  }

  ghost function Freed(s: State, req: Request): seq<ClusterNo>
    requires Located(s, req)
  {
    var t := TableAt(s.img, req.parent);
    Chain(s.fat, t[Scan(t, req.Id(), 0)].Head())
  }

  lemma DeletedImage(s: State, req: Request)
    requires Located(s, req)
    ensures var t, s' := TableAt(s.img, req.parent), After(s, DeleteOp(req));
      && s'.fat == FatOf(s'.img) == Release(s.fat, Freed(s, req))
      && (forall x: ClusterNo :: x != req.parent && x != FAT_CLUSTER ==> ClusterAt(s'.img, x) == ClusterAt(s.img, x))
      && (req.parent != FAT_CLUSTER ==>
            ClusterAt(s'.img, req.parent) == EncodeTable(t[Scan(t, req.Id(), 0) := ZERO_ENTRY]))
  {
    hide Sound, Replay, DecodeTable, EncodeTable, Release, Chain, ClusterAt, DecodeFat, Scan, Ends;
    var t: Table := TableAt(s.img, req.parent)[Scan(TableAt(s.img, req.parent), req.Id(), 0) := ZERO_ENTRY];
    EraseWritesThrough(s.img, req);
    forall x: ClusterNo
      ensures ClusterAt(Erased(s.img, req), x) == if x == req.parent then EncodeTable(t) else ClusterAt(s.img, x)
    {
      ClusterWritten(s.img, req.parent, EncodeTable(t), x);
    }
  }

  lemma DeletedViews(s: State, req: Request)
    requires Located(s, req)
    ensures Severed(ViewOf(s.img), ViewOf(After(s, DeleteOp(req)).img), req.parent, Freed(s, req))
    ensures After(s, DeleteOp(req)).fat == FatOf(After(s, DeleteOp(req)).img)
  {
    hide Sound, FatOf, DecodeTable, Release, ClusterAt, After, Freed, Scan, EncodeTable;
    var w := After(s, DeleteOp(req)).img;
    DeletedImage(s, req);
    forall x: ClusterNo
      ensures x != req.parent && x != FAT_CLUSTER ==>
        ViewOf(w).table[x] == ViewOf(s.img).table[x] && ViewOf(w).bytes[x] == ViewOf(s.img).bytes[x]
    {
    }
  }

  // The cleared entry was not blank: a blank one leads out of the map.
  lemma EntryNotBlank(fat: Fat, e: DirEntry)
    requires Reserved(fat) && Ends(fat, e.Head())
    ensures e != ZERO_ENTRY
  {
    hide Ends, DirEntry.Head;
    if e == ZERO_ENTRY {
      ZeroEntryAstray(fat, e, 0);
    }
  }

  lemma BytesChanged(s: State, req: Request)
    requires Located(s, req) && req.parent != FAT_CLUSTER
    ensures ViewOf(After(s, DeleteOp(req)).img).bytes[req.parent] != ViewOf(s.img).bytes[req.parent]
  {
    hide FatOf, ClusterAt, After, Freed, Scan, EncodeTable, Ends, DecodeTable, Unshared;
    var t := TableAt(s.img, req.parent);
    var i := Scan(t, req.Id(), 0);
    DeletedImage(s, req);
    TableDecodesBack(t[i := ZERO_ENTRY]);
    EntryNotBlank(s.fat, t[i]);
    Views(s.img, req.parent);
    Views(After(s, DeleteOp(req)).img, req.parent);
  }

  // The signature, read as directory entries, leads nowhere.

  lemma HeadBytes(b: seq<byte>)
    requires |b| == 32
    ensures var h0: int, h1: int, l0: int, l1: int := b[20], b[21], b[26], b[27];
      DecodeEntry(b).Head() == (h0 + 0x100 * h1) * 0x1_0000 + l0 + 0x100 * l1
  {
    assert b[20..22][0] == b[20] && b[20..22][1] == b[21];
    assert b[26..28][0] == b[26] && b[26..28][1] == b[27];
  }

  lemma BootByte(img: Image, c: ClusterNo, i: nat, k: nat)
    requires c == 0 && img[BOOT_SECTOR] == Signature() && i < 16 && k < 32
    ensures ClusterAt(img, c)[32 * i..32 * i + 32][k] == SignatureByte(32 * i + k)
  {
    hide SignatureByte;
    assert ClusterAt(img, c)[32 * i + k] == img[BOOT_SECTOR][32 * i + k];
  }

  lemma SignatureHigh(i: nat)
    requires i < 16
    ensures i < 2 ==> SignatureByte(32 * i + 21) >= 0x20
    ensures i >= 2 ==> SignatureByte(32 * i + 20) == SignatureByte(32 * i + 21) == 0
    ensures i >= 2 ==> SignatureByte(32 * i + 26) == SignatureByte(32 * i + 27) == 0
  {
    assert SIGNATURE_TEXT[21] == 'n' && SIGNATURE_TEXT[53] == 'w';
  }

  lemma SignatureEntry(img: Image, c: ClusterNo, i: nat)
    requires c == 0 && img[BOOT_SECTOR] == Signature() && i < 16
    ensures TableAt(img, c)[i].Head() == 0 || TableAt(img, c)[i].Head() >= 0x2000_0000
  {
    hide SignatureByte, ClusterAt, Signature, DirEntry.Head;
    BootByte(img, c, i, 20);
    BootByte(img, c, i, 21);
    BootByte(img, c, i, 26);
    BootByte(img, c, i, 27);
    SignatureHigh(i);
    HeadBytes(ClusterAt(img, c)[32 * i..32 * i + 32]);
    hide DecodeEntry;
  }

  lemma FarNeverEnds(fat: Fat, c: uint32)
    requires c >= CLUSTER_MAP_SIZE && c != END_OF_FILE
    ensures !Ends(fat, c)
  {
  }

  // So an entry of cluster 0 whose chain ends lies behind the boot sector, which stays as it is.
  lemma BootKept(s: State, req: Request)
    requires Located(s, req)
    ensures After(s, DeleteOp(req)).img[BOOT_SECTOR] == Signature()
  {
    hide Unshared, FatOf, TableAt, Chain, Scan, EncodeTable, Ends, Replay, Signature, Release, ClusterWrites;
    var t := TableAt(s.img, req.parent);
    var i := Scan(t, req.Id(), 0);
    EraseWritesThrough(s.img, req);
    var fat := Release(FatOf(s.img), Chain(FatOf(s.img), t[i].Head()));
    MapKeepsBoot(Erased(s.img, req), fat);
    if req.parent == BOOT_SECTOR {
      BootEntryBehind(s.img, s.fat, req.parent, i);
      BootBlockKept(s.img, req.parent, i);
    } else {
      SectorKept(s.img, req.parent, EncodeTable(t[i := ZERO_ENTRY]));
    }
  }

  lemma BootBlockKept(img: Image, c: ClusterNo, i: nat)
    requires c == 0 && 16 <= i < TABLE_SIZE
    ensures Replay(img, TableWrites(c, TableAt(img, c)[i := ZERO_ENTRY]))[BOOT_SECTOR] == img[BOOT_SECTOR]
  {
    hide TableAt, EncodeTable, Replay, BlockOf;
    var t: Table := TableAt(img, c)[i := ZERO_ENTRY];
    var log := ClusterWrites(c, EncodeTable(t));
    assert log[..4] == log;
    hide ClusterWrites;
    OneBlock(img, c, i, ZERO_ENTRY, 1);
    PartialCluster(img, c, EncodeTable(t), 1, BOOT_SECTOR);
    PartialCluster(img, c, EncodeTable(t), 4, BOOT_SECTOR);
  }

  lemma BootEntryBehind(img: Image, fat: Fat, c: ClusterNo, i: nat)
    requires c == 0 && img[BOOT_SECTOR] == Signature() && i < TABLE_SIZE
    requires Reserved(fat) && Ends(fat, TableAt(img, c)[i].Head())
    ensures 16 <= i
  {
    hide Ends, TableAt, Signature;
    if i < 16 {
      SignatureEntry(img, c, i);
      var h := TableAt(img, c)[i].Head();
      if h == 0 {
        StrayNeverEnds(fat, h);
      } else {
        FarNeverEnds(fat, h);
      }
    }
  }

  // Through a cluster that is no directory.

  lemma DeleteElsewhere(s: State, req: Request)
    requires Located(s, req) && !Reach(ViewOf(s.img), req.parent)
    ensures Mounted(After(s, DeleteOp(req))) <==> Unowned(ViewOf(s.img), Freed(s, req))
    ensures Unowned(ViewOf(s.img), Freed(s, req)) && !Visible(ViewOf(s.img), req.parent) ==>
      SameTree(ViewOf(s.img), ViewOf(After(s, DeleteOp(req)).img))
  {
    hide Weak, FatOf, TableAt, After, Freed, Visible, Reach, ViewOf, Severed, Unowned, Agree, SameTree, Owns;
    var v, w := ViewOf(s.img), ViewOf(After(s, DeleteOp(req)).img);
    DeletedViews(s, req);
    BootKept(s, req);
    if !Unowned(v, Freed(s, req)) {
      OwnedSevered(v, w, req.parent, Freed(s, req));
    } else if !Visible(v, req.parent) {
      UnownedSevered(v, w, req.parent, Freed(s, req));
      Frame(v, w);
    } else {
      var dp, i := FileParent(v, req.parent);
      DeleteInFile(s, req, dp, i);
    }
  }

  // An owned cluster that is no directory lies in a file.
  lemma FileParent(v: Vol, x: ClusterNo) returns (dp: seq<Key>, i: nat)
    requires Weak(v) && Visible(v, x) && !Reach(v, x)
    ensures InFile(v, DirAt(v, dp), i, x)
  {
    if x == ROOT_CLUSTER {
      assert DirAt(v, []) == x;
    }
    var d: ClusterNo;
    d, i :| Owns(v, d, i, x);
    dp :| DirAt(v, dp) == d;
    OwnedKind(v, d, i, x);
  }

  // Through a cluster of a file: that file is spoiled, and nothing else changes in the tree.
  lemma DeleteInFile(s: State, req: Request, dp: seq<Key>, i: nat)
    requires Located(s, req) && InFile(ViewOf(s.img), DirAt(ViewOf(s.img), dp), i, req.parent)
    requires Unowned(ViewOf(s.img), Freed(s, req))
    ensures var v := ViewOf(s.img);
      && Mounted(After(s, DeleteOp(req)))
      && i < TABLE_SIZE
      && FileSpoiled(v, ViewOf(After(s, DeleteOp(req)).img), dp + [v.table[DirAt(v, dp)][i].Id()])
  {
    hide Weak, FatOf, TableAt, After, Freed, DirAt, InFile, ViewOf, Severed, Unowned, FileSpoiled;
    var v, w := ViewOf(s.img), ViewOf(After(s, DeleteOp(req)).img);
    FileCluster(v, DirAt(v, dp), i, req.parent);
    DeletedViews(s, req);
    BootKept(s, req);
    BytesChanged(s, req);
    FileSevered(v, w, req.parent, Freed(s, req), dp, i);
  }

  // Every node keeps what it is, but for what the key names in the directory of cluster d, and below it.
  ghost predicate KeepsOthers(v: Vol, w: Vol, d: ClusterNo, key: Key) {
    forall q :: Lookup(v, q) != None && (forall dp :: DirAt(v, dp) == d != 0 ==> !(dp + [key] <= q)) ==>
      Lookup(w, q) == Lookup(v, q)
  }

  lemma SpoiledLost(v: Vol, w: Vol, d: ClusterNo, key: Key, fp: seq<Key>)
    requires FileSpoiled(v, w, fp) && !Reach(v, d)
    ensures !KeepsOthers(v, w, d, key)
  {
    hide Lookup, DirAt;
  }

  lemma DeleteInFolder(s: State, req: Request)
    requires Located(s, req) && Reach(ViewOf(s.img), req.parent)
    ensures Mounted(After(s, DeleteOp(req))) <==> req.Id() != TableAt(s.img, req.parent)[0].Id()
    ensures req.Id() != TableAt(s.img, req.parent)[0].Id() ==>
      KeepsOthers(ViewOf(s.img), ViewOf(After(s, DeleteOp(req)).img), req.parent, req.Id())
  {
    hide Mounted, ViewOf, DirAt, TableAt, After, EffectOf, Scan, Deletable, Lookup;
    var dp :| DirAt(ViewOf(s.img), dp) == req.parent;
    DeletableIff(s, dp, req);
    DeleteSoundIff(s, dp, req);
    if req.Id() != TableAt(s.img, req.parent)[0].Id() {
      StepKeeps(s, DeleteOp(req), dp);
    }
  }

  // A delete that finds an entry whose chain ends keeps the volume mounted, and every node outside what
  // it names, exactly when: in a directory, the name is not the directory's own; elsewhere, no entry owns
  // the parent or any cluster of the chain it frees, and none of these is reserved.
  lemma DeleteKeepsIff(s: State, req: Request)
    requires Located(s, req)
    ensures var v, s' := ViewOf(s.img), After(s, DeleteOp(req));
      Mounted(s') && KeepsOthers(v, ViewOf(s'.img), req.parent, req.Id()) <==>
        if Reach(v, req.parent) then req.Id() != TableAt(s.img, req.parent)[0].Id()
        else !Visible(v, req.parent) && Unowned(v, Freed(s, req))
  {
    hide Weak, ViewOf, FatOf, TableAt, After, Freed, Visible, Reach, Unowned, DirAt, Lookup, KeepsOthers, SameTree;
    hide InFile;
    var v, w := ViewOf(s.img), ViewOf(After(s, DeleteOp(req)).img);
    if Reach(v, req.parent) {
      DeleteInFolder(s, req);
    } else {
      DeleteElsewhere(s, req);
      if Unowned(v, Freed(s, req)) {
        if Visible(v, req.parent) {
          var dp, i := FileParent(v, req.parent);
          DeleteInFile(s, req, dp, i);
          SpoiledLost(v, w, req.parent, req.Id(), dp + [v.table[DirAt(v, dp)][i].Id()]);
        } else {
          SameKeeps(v, w, req.parent, req.Id());
        }
      }
    }
  }

  lemma SameKeeps(v: Vol, w: Vol, d: ClusterNo, key: Key)
    requires SameTree(v, w)
    ensures KeepsOthers(v, w, d, key)
  {
    hide Lookup, DirAt;
  }
}
