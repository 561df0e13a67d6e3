/**
 * Names and formats the driver's own checks do not catch. A delete ends and keeps the volume exactly when
 * its name is neither all zero nor the directory's own; a formatted volume lacks exactly one mark. The
 * conditions for writes are in Guard.
 */
module Boundaries {
  import opened Machine
  import opened Layout
  import opened Chains
  import opened Volume
  import opened Disk
  import opened Commit
  import opened Operations
  import opened Crash
  import opened Runs
  import opened Reading
  import opened Undo
  import opened Conservation
  import opened Outcome
  import opened Guard

  // Delete scans from slot 0, so a request may hit the directory's own entry.

  lemma SelfDeleted(img: Image, d: ClusterNo, req: Request, x: ClusterNo)
    requires 2 <= d == req.parent && Scan(TableAt(img, d), req.Id(), 0) == 0
    ensures var final := Replay(img, DeleteLog(FatOf(img), TableAt(img, d), req));
      && FatOf(final) == Release(FatOf(img), Chain(FatOf(img), TableAt(img, d)[0].Head()))
      && (2 <= x ==> TableAt(final, x) == if x == d then TableAt(img, d)[0 := ZERO_ENTRY] else TableAt(img, x))
  {
    hide Replay, DecodeTable, EncodeTable, Release, Chain, ClusterAt, DecodeFat, Scan;
    var t: Table := TableAt(img, d)[0 := ZERO_ENTRY];
    var fat := Release(FatOf(img), Chain(FatOf(img), TableAt(img, d)[0].Head()));
    ReplayConcat(img, TableWrites(d, t), FatWrites(fat));
    FatWritten(Replay(img, TableWrites(d, t)), fat);
    ClusterWritten(img, d, EncodeTable(t), x);
    TableDecodesBack(t);
  }

  lemma {:induction false} SelfDirAt(v: Vol, w: Vol, d: ClusterNo, p: seq<Key>)
    requires forall x: ClusterNo :: 2 <= x ==> w.table[x] == if x == d then v.table[d][0 := ZERO_ENTRY] else v.table[x]
    requires Weak(v)
    ensures DirAt(w, p) == DirAt(v, p)
  {
    if p != [] {
      hide Weak, Sub, Reach, Visible;
      var q := p[..|p| - 1];
      SelfDirAt(v, w, d, q);
      if DirAt(v, q) != 0 {
        ReachVisible(v, q);
        VisibleUsed(v, DirAt(v, q));
        SelfSub(v.table[DirAt(v, q)], p[|p| - 1]);
      }
    }
  }

  lemma SelfSub(t: Table, key: Key)
    ensures Sub(t[0 := ZERO_ENTRY], key) == Sub(t, key)
  {
    SelfFind(t, key, 2);
  }

  lemma {:induction false} SelfFind(t: Table, key: Key, from: nat)
    requires 2 <= from <= TABLE_SIZE
    ensures Scan(t[0 := ZERO_ENTRY], key, from) == Scan(t, key, from)
    decreases TABLE_SIZE - from
  {
    if from < TABLE_SIZE {
      SelfFind(t, key, from + 1);
    }
  }

  // Deleting a directory's own entry frees the cluster the directory lives in.
  lemma SelfDeleteUnsound(s: State, dp: seq<Key>, req: Request)
    requires Mounted(s) && DirAt(ViewOf(s.img), dp) == req.parent != 0
    requires req.Id() == TableAt(s.img, req.parent)[0].Id()
    ensures EffectOf(s, DeleteOp(req)).code == 0 && !Sound(After(s, DeleteOp(req)).img)
  {
    hide ViewOf, DirAt, Weak, TableAt, FatOf, Replay, DeleteLog, Release, Chain, EffectOf, Scan;
    var v := ViewOf(s.img);
    var final := After(s, DeleteOp(req)).img;
    Views(s.img, req.parent);
    ReachVisible(v, dp);
    VisibleUsed(v, req.parent);
    OwnNameFreed(s, dp, req);
    SelfDeleted(s.img, req.parent, req, 0);
    forall x: ClusterNo
      ensures 2 <= x ==>
        ViewOf(final).table[x] == if x == req.parent then v.table[req.parent][0 := ZERO_ENTRY] else v.table[x]
    {
      SelfDeleted(s.img, req.parent, req, x);
      Views(final, x);
      Views(s.img, x);
    }
    SelfDirAt(v, ViewOf(final), req.parent, dp);
    Views(final, req.parent);
    if Weak(ViewOf(final)) {
      FolderMark(ViewOf(final), dp);
    }
  }

  // The walk that frees the chain ends exactly when the name is not all zero, or is the directory's own.
  lemma DeletableIff(s: State, dp: seq<Key>, req: Request)
    requires Mounted(s) && DirAt(ViewOf(s.img), dp) == req.parent != 0
    ensures Deletable(s.fat, TableAt(s.img, req.parent), req) <==>
      req.Id() != NO_KEY || TableAt(s.img, req.parent)[0].Id() == NO_KEY
  {
    hide ViewOf, DirAt, Weak, TableAt, FatOf, Chain, Scan, Lookup, NodeOf;
    var t := TableAt(s.img, req.parent);
    Views(s.img, req.parent);
    if req.Id() == t[0].Id() {
      OwnNameFreed(s, dp, req);
    } else if req.Id() == NO_KEY {
      NoNameSlot(ViewOf(s.img), dp, 0);
    } else {
      Found(s.img, dp, req);
    }
  }

  // A delete ends and leaves the volume mounted exactly when the name is neither all zero nor the
  // directory's own. These are the deletes that runs allow.
  lemma DeleteSoundIff(s: State, dp: seq<Key>, req: Request)
    requires Mounted(s) && DirAt(ViewOf(s.img), dp) == req.parent != 0
    ensures Deletable(s.fat, TableAt(s.img, req.parent), req) && Mounted(After(s, DeleteOp(req))) <==>
      req.Id() != NO_KEY && req.Id() != TableAt(s.img, req.parent)[0].Id()
  {
    hide Sound, ViewOf, DirAt, TableAt, FatOf, After, EffectOf, Deletable;
    DeletableIff(s, dp, req);
    if req.Id() == TableAt(s.img, req.parent)[0].Id() {
      SelfDeleteUnsound(s, dp, req);
    } else if req.Id() != NO_KEY {
      assert Reach(ViewOf(s.img), req.parent);
      StepKeepsMounted(s, DeleteOp(req));
    }
  }

  // A freshly formatted volume.

  lemma FormatContents(img: Image, name: Name)
    ensures var final := Replay(img, FormatWrites(name));
      && final[BOOT_SECTOR] == Signature() && FatOf(final) == EmptyFat()
      && TableAt(final, ROOT_CLUSTER) == NewFolder(name, ROOT_CLUSTER)
  {
    hide DecodeTable, EncodeTable, ClusterAt, DecodeFat, EmptyFat, NewFolder, Signature;
    var boot := [BlockWrite(BOOT_SECTOR, Signature())];
    var t := NewFolder(name, ROOT_CLUSTER);
    ReplayConcat(img, boot + FatWrites(EmptyFat()), TableWrites(ROOT_CLUSTER, t));
    ReplayConcat(img, boot, FatWrites(EmptyFat()));
    var booted := Replay(img, boot);
    assert boot[..0] == [];
    assert booted == img[BOOT_SECTOR := Signature()];
    hide Replay;
    var mapped := Replay(booted, FatWrites(EmptyFat()));
    FatWritten(booted, EmptyFat());
    ClusterWritten(mapped, ROOT_CLUSTER, EncodeTable(t), ROOT_CLUSTER);
    ClusterWritten(mapped, ROOT_CLUSTER, EncodeTable(t), FAT_CLUSTER);
    TableDecodesBack(t);
    SectorKept(booted, FAT_CLUSTER, EncodeFat(EmptyFat()));
    SectorKept(mapped, ROOT_CLUSTER, EncodeTable(t));
  }

  lemma SectorKept(img: Image, c: nat, data: Cluster)
    requires 1 <= c < DISK_CLUSTERS
    ensures Replay(img, ClusterWrites(c, data))[BOOT_SECTOR] == img[BOOT_SECTOR]
  {
    assert ClusterWrites(c, data)[..4] == ClusterWrites(c, data);
    PartialCluster(img, c, data, 4, BOOT_SECTOR);
  }

  // Formatting leaves the root's table entry empty: the volume is not sound, and the root refuses every
  // read and write.
  lemma FormatUnusable(img: Image, name: Name, req: Request)
    requires req.parent == ROOT_CLUSTER
    ensures var final := Replay(img, FormatWrites(name));
      && !Sound(final)
      && WriteCode(FatOf(final), TableAt(final, ROOT_CLUSTER), req) == 2
      && ReadCode(FatOf(final), TableAt(final, ROOT_CLUSTER), req) == 2
  {
    hide TableAt, FatOf, Replay, FormatWrites, Scan, ViewOf;
    var final := Replay(img, FormatWrites(name));
    FormatContents(img, name);
    Views(final, ROOT_CLUSTER);
  }

  // That entry is all that is missing: with it marked, the volume is well formed, empty and leak-free.
  lemma FormatLacksOnlyRootMark(img: Image, name: Name)
    ensures var v := ViewOf(Replay(img, FormatWrites(name)));
      var w := v.(fat := v.fat[ROOT_CLUSTER := END_OF_FILE]);
      Strong(w) && forall p :: p != [] ==> Lookup(w, p) == None
  {
    var final := Replay(img, FormatWrites(name));
    FormatContents(img, name);
    Views(final, ROOT_CLUSTER);
    var v := ViewOf(final);
    hide ViewOf, TableAt, FatOf, Replay, FormatWrites;
    OnlyRoot(v.(fat := v.fat[ROOT_CLUSTER := END_OF_FILE]), name);
  }

  function MarkedFat(): Fat {
    EmptyFat()[ROOT_CLUSTER := END_OF_FILE]
  }

  // So one more FAT write turns the formatted device into one that mounts, and whose root then takes any
  // first file or folder.
  lemma MarkedFormatMounts(img: Image, name: Name, req: Request)
    requires req.parent == ROOT_CLUSTER && Sized(req.bufferSize) && req.Id() != NO_KEY
    ensures var final := Replay(Replay(img, FormatWrites(name)), FatWrites(MarkedFat()));
      && Mounted(State(MarkedFat(), final)) && Strong(ViewOf(final)) && DirAt(ViewOf(final), []) == ROOT_CLUSTER
      && WriteCode(MarkedFat(), TableAt(final, ROOT_CLUSTER), req) == 0
  {
    hide Replay, FormatWrites, FatWrites, FatOf, TableAt, ViewOf, Strong, Weak, EmptyFat, WriteCode, NewFolder;
    var formatted := Replay(img, FormatWrites(name));
    var final := Replay(formatted, FatWrites(MarkedFat()));
    FormatContents(img, name);
    FatWritten(formatted, MarkedFat());
    MapKeepsBoot(formatted, MarkedFat());
    SameTable(formatted, final, ROOT_CLUSTER);
    Views(final, ROOT_CLUSTER);
    OnlyRoot(ViewOf(final), name);
    StrongIsWeak(ViewOf(final));
    MarkedAccepts(name, req);
  }

  // A file of 524289 bytes is accepted there with a chain of one cluster, and the volume is sound no more.
  lemma OversizedAccepted(img: Image, name: Name, req: Request, data: seq<byte>)
    requires req.parent == ROOT_CLUSTER && req.bufferSize == 524289 && req.Id() != NO_KEY && CLUSTER_SIZE <= |data|
    ensures var s := State(MarkedFat(), Replay(Replay(img, FormatWrites(name)), FatWrites(MarkedFat())));
      && Admitted(s, req, data) && |Chosen(s.fat, req)| == 1
      && !Mounted(After(s, WriteOp(req, data)))
  {
    hide Replay, FormatWrites, FatWrites, FatOf, TableAt, ViewOf, Strong, Weak, EmptyFat, WriteCode, Chosen, FreeBelow;
    hide Needed, Demand, WriteLog, Link, After;
    var s := State(MarkedFat(), Replay(Replay(img, FormatWrites(name)), FatWrites(MarkedFat())));
    MarkedFormatMounts(img, name, req);
    DemandMet(req);
    NeededBounds(req);
    AdmittedChosen(s, req, data);
    OversizedWrite(s, [], req, data);
  }

  lemma MapKeepsBoot(img: Image, fat: Fat)
    ensures Replay(img, FatWrites(fat))[BOOT_SECTOR] == img[BOOT_SECTOR]
  {
    SectorKept(img, FAT_CLUSTER, EncodeFat(fat));
  }

  lemma SameTable(img: Image, img': Image, c: ClusterNo)
    requires ClusterAt(img', c) == ClusterAt(img, c)
    ensures TableAt(img', c) == TableAt(img, c)
  {
  }

  lemma StrongIsWeak(v: Vol)
    requires Strong(v)
    ensures Weak(v)
  {
  }

  lemma MarkedAccepts(name: Name, req: Request)
    requires req.parent == ROOT_CLUSTER && Sized(req.bufferSize) && req.Id() != NO_KEY
    ensures WriteCode(MarkedFat(), NewFolder(name, ROOT_CLUSTER), req) == 0
  {
    hide WriteCode, Needed, Demand;
    var t := NewFolder(name, ROOT_CLUSTER);
    WriteOutcome(MarkedFat(), t, req);
    DemandMet(req);
    NeededBounds(req);
    MarkedFree();
    assert forall i :: 2 <= i < TABLE_SIZE ==> t[i].Id() == NO_KEY;
    assert !t[2].Live();
  }

  lemma MarkedFree()
    ensures |FreeClusters(MarkedFat())| == CLUSTER_MAP_SIZE - 3
  {
    var free: seq<ClusterNo> := seq(CLUSTER_MAP_SIZE - 3, i requires 0 <= i < CLUSTER_MAP_SIZE - 3 => i + 3);
    forall x: ClusterNo ensures x in Elements(free) <==> x in FreeClusters(MarkedFat()) {
      if 3 <= x {
        assert free[x - 3] == x;
      }
    }
    assert Elements(free) == FreeClusters(MarkedFat());
    DistinctCount(free);
  }

  lemma OnlyRoot(w: Vol, name: Name)
    requires w.fat == EmptyFat()[ROOT_CLUSTER := END_OF_FILE]
    requires w.table[ROOT_CLUSTER] == NewFolder(name, ROOT_CLUSTER)
    ensures Strong(w) && forall p :: p != [] ==> Lookup(w, p) == None
  {
    forall p ensures DirAt(w, p) == if p == [] then ROOT_CLUSTER else 0 {
      OnlyRootAt(w, name, p);
    }
    forall p | p != [] ensures Lookup(w, p) == None {
      EmptyFind(w.table[ROOT_CLUSTER], ROOT_CLUSTER, p[|p| - 1]);
    }
    EmptyFind(w.table[ROOT_CLUSTER], ROOT_CLUSTER, NO_KEY);
  }

  lemma {:induction false} OnlyRootAt(w: Vol, name: Name, p: seq<Key>)
    requires w.table[ROOT_CLUSTER] == NewFolder(name, ROOT_CLUSTER)
    ensures DirAt(w, p) == if p == [] then ROOT_CLUSTER else 0
  {
    if p != [] {
      OnlyRootAt(w, name, p[..|p| - 1]);
      EmptyFind(w.table[ROOT_CLUSTER], ROOT_CLUSTER, p[|p| - 1]);
    }
  }
}
