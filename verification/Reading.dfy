/**
 * Reading: when the answers of read and read_directory are the tree's, in both directions, and what
 * is read back after a write.
 */
module Reading {
  import opened Machine
  import opened Layout
  import opened Chains
  import opened Volume
  import opened Disk
  import opened Operations
  import opened Crash
  import opened Atomic
  import opened Runs

  // What the scans from slot 0 find.

  lemma OwnNameSlot(t: Table, from: nat)
    requires from == 0
    ensures Scan(t, t[0].Id(), from) == 0
  {
  }

  lemma StrayWalk(fat: Fat, c: ClusterNo, n: nat)
    requires fat[c] >= CLUSTER_MAP_SIZE && n > 0
    ensures Walk(fat, c, n) == [c]
  {
  }

  lemma StrayNeverEnds(fat: Fat, c: ClusterNo)
    requires fat[c] >= CLUSTER_MAP_SIZE && fat[c] != END_OF_FILE
    ensures !Ends(fat, c)
  {
    StrayWalk(fat, c, CLUSTER_MAP_SIZE);
    hide Walk;
  }

  lemma EmptySlot(t: Table, d: ClusterNo, from: nat)
    requires TableOk(t, d) && t[0].Id() != NO_KEY && from == 0
    ensures Scan(t, NO_KEY, from) == 1 && t[1] == ZERO_ENTRY
  {
  }

  // The slot holds an empty file that starts at cluster 0, whose link leads out of the map.
  ghost predicate LeadsAstray(fat: Fat, e: DirEntry) {
    e.attribute == 0 && e.fileSize == 0 && !Ends(fat, e.Head())
  }

  lemma ZeroEntryAstray(fat: Fat, e: DirEntry, c: ClusterNo)
    requires Reserved(fat) && e == ZERO_ENTRY && c == 0
    ensures LeadsAstray(fat, e)
  {
    StrayNeverEnds(fat, c);
    hide Ends;
    assert e.Head() == c;
  }

  // An all-zero name matches the empty slot 1.
  lemma NoNameSlot(v: Vol, dp: seq<Key>, from: nat)
    requires Weak(v) && DirAt(v, dp) != 0 && v.table[DirAt(v, dp)][0].Id() != NO_KEY && from == 0
    ensures Scan(v.table[DirAt(v, dp)], NO_KEY, from) == 1 && LeadsAstray(v.fat, v.table[DirAt(v, dp)][1])
  {
    hide DirAt, Scan, LeadsAstray;
    ReachedFolder(v, dp);
    EmptySlot(v.table[DirAt(v, dp)], DirAt(v, dp), from);
    ZeroEntryAstray(v.fat, v.table[DirAt(v, dp)][1], 0);
  }

  lemma FoundIn(v: Vol, dp: seq<Key>, key: Key)
    requires Weak(v) && DirAt(v, dp) != 0 && key != NO_KEY && key != v.table[DirAt(v, dp)][0].Id()
    ensures var t := v.table[DirAt(v, dp)]; var i := Scan(t, key, 0);
      if i == TABLE_SIZE then Lookup(v, dp + [key]) == None
      else LiveAt(v, DirAt(v, dp), i) && Lookup(v, dp + [key]) == Some(NodeOf(v, t[i])) && EntryOk(v, t[i])
  {
    hide Weak, DirAt, EntryOk, TableOk, Scan, NodeOf;
    var d := DirAt(v, dp);
    ReachedFolder(v, dp);
    ScanFromSelf(v.table[d], d, key);
    Step(v, dp, key);
  }

  // What the scan finds is what the path names.
  lemma Found(img: Image, dp: seq<Key>, req: Request)
    requires Sound(img) && DirAt(ViewOf(img), dp) == req.parent != 0
    requires req.Id() != NO_KEY && req.Id() != TableAt(img, req.parent)[0].Id()
    ensures var t := TableAt(img, req.parent); var i := Scan(t, req.Id(), 0);
      if i == TABLE_SIZE then Lookup(ViewOf(img), dp + [req.Id()]) == None
      else Lookup(ViewOf(img), dp + [req.Id()]) == Some(NodeOf(ViewOf(img), t[i])) && EntryOk(ViewOf(img), t[i])
  {
    Views(img, req.parent);
    hide ViewOf, FatOf, TableAt, Weak, DirAt, Lookup, NodeOf, Scan, EntryOk;
    FoundIn(ViewOf(img), dp, req.Id());
  }

  lemma Marked(img: Image, dp: seq<Key>, req: Request)
    requires Sound(img) && DirAt(ViewOf(img), dp) == req.parent != 0
    ensures FatOf(img)[req.parent] == END_OF_FILE
  {
    Views(img, req.parent);
    hide ViewOf, FatOf, DirAt;
    FolderMark(ViewOf(img), dp);
  }

  // read.

  // read answers what the tree says: no such name, a folder, a buffer too small for the file's
  // clusters, or exactly the file's clusters, which then fit the buffer.
  ghost predicate ReadAsTree(img: Image, dp: seq<Key>, req: Request)
    requires req.parent < CLUSTER_MAP_SIZE
  {
    var t := TableAt(img, req.parent);
    var code := ReadCode(FatOf(img), t, req);
    match Lookup(ViewOf(img), dp + [req.Id()])
    case None => code == 2
    case Some(Folder) => code == 1
    case Some(File(size, data)) =>
      && |data| == CLUSTER_SIZE * ClusterCount(size)
      && code == (if |data| <= req.bufferSize then 0 else -1)
      && data == Gather(ViewOf(img).bytes, Chain(FatOf(img), t[Scan(t, req.Id(), 0)].Head()))
  }

  lemma ReadListed(img: Image, dp: seq<Key>, req: Request)
    requires Sound(img) && DirAt(ViewOf(img), dp) == req.parent != 0
    requires req.Id() != NO_KEY && req.Id() != TableAt(img, req.parent)[0].Id()
    ensures ReadAsTree(img, dp, req)
  {
    hide Sound, DirAt, ViewOf, FatOf, TableAt, Scan, Chain, Gather, Ceil, Lookup;
    var t := TableAt(img, req.parent);
    var i := Scan(t, req.Id(), 0);
    Views(img, req.parent);
    Marked(img, dp, req);
    Found(img, dp, req);
    if i < TABLE_SIZE {
      CeilExact(t[i].fileSize);
    }
  }

  lemma ReadOwnName(img: Image, dp: seq<Key>, req: Request)
    requires Sound(img) && DirAt(ViewOf(img), dp) == req.parent != 0
    requires req.Id() == TableAt(img, req.parent)[0].Id()
    ensures ReadCode(FatOf(img), TableAt(img, req.parent), req) == 1
  {
    hide Weak, DirAt, ViewOf, FatOf, TableAt, Scan, Ceil;
    Views(img, req.parent);
    Marked(img, dp, req);
    OwnNameSlot(TableAt(img, req.parent), 0);
    SelfHead(ViewOf(img), dp);
  }

  lemma ReadNoName(img: Image, dp: seq<Key>, req: Request)
    requires Sound(img) && DirAt(ViewOf(img), dp) == req.parent != 0
    requires req.Id() == NO_KEY != TableAt(img, req.parent)[0].Id()
    ensures ReadCode(FatOf(img), TableAt(img, req.parent), req) == 0
    ensures !Readable(FatOf(img), TableAt(img, req.parent), req, req.bufferSize)
  {
    hide Weak, DirAt, ViewOf, FatOf, TableAt, Scan, Ceil, Ends, Chain;
    Views(img, req.parent);
    Marked(img, dp, req);
    NoNameSlot(ViewOf(img), dp, 0);
    CeilExact(0);
  }

  lemma NoSuchNode(img: Image, dp: seq<Key>, req: Request)
    requires Sound(img) && DirAt(ViewOf(img), dp) == req.parent != 0 && req.Id() == NO_KEY
    ensures Lookup(ViewOf(img), dp + [req.Id()]) == None
  {
    var v := ViewOf(img);
    hide ViewOf;
    ReachedFolder(v, dp);
    Step(v, dp, NO_KEY);
  }

  // read answers as the tree does exactly when the name is not all zero, and is not the directory's
  // own unless the directory lists a folder of that name.
  lemma ReadReturns(img: Image, dp: seq<Key>, req: Request)
    requires Sound(img) && DirAt(ViewOf(img), dp) == req.parent != 0
    ensures ReadAsTree(img, dp, req) <==>
      && req.Id() != NO_KEY
      && (req.Id() != TableAt(img, req.parent)[0].Id() || Lookup(ViewOf(img), dp + [req.Id()]) == Some(Folder))
  {
    hide Sound, DirAt, ViewOf, FatOf, TableAt, Scan, Chain, Gather, ReadCode, Lookup, Readable;
    if req.Id() == NO_KEY {
      NoSuchNode(img, dp, req);
    }
    if req.Id() == TableAt(img, req.parent)[0].Id() {
      ReadOwnName(img, dp, req);
    } else if req.Id() == NO_KEY {
      ReadNoName(img, dp, req);
    } else {
      ReadListed(img, dp, req);
    }
  }

  // Once read's checks have passed, the chain it walks ends and its clusters fit the buffer, exactly
  // when the name is not all zero or the directory itself carries the all-zero name.
  lemma ReadFits(img: Image, dp: seq<Key>, req: Request)
    requires Sound(img) && DirAt(ViewOf(img), dp) == req.parent != 0
    ensures Readable(FatOf(img), TableAt(img, req.parent), req, req.bufferSize) <==>
      req.Id() != NO_KEY || TableAt(img, req.parent)[0].Id() == NO_KEY
  {
    hide Weak, DirAt, ViewOf, FatOf, TableAt, Scan, Chain, Lookup, NodeOf;
    if req.Id() == TableAt(img, req.parent)[0].Id() {
      ReadOwnName(img, dp, req);
    } else if req.Id() == NO_KEY {
      ReadNoName(img, dp, req);
    } else {
      var t := TableAt(img, req.parent);
      var i := Scan(t, req.Id(), 0);
      Views(img, req.parent);
      Found(img, dp, req);
      if i < TABLE_SIZE {
        CeilExact(t[i].fileSize);
      }
    }
  }

  // What was written is what is read, after any later run that does not delete the file or a directory
  // above it, exactly when the file does not bear its directory's own name.
  lemma ReadAfterWrite(s: State, dp: seq<Key>, req: Request, data: seq<byte>, ops: seq<Op>, rd: Request)
    requires Mounted(s) && Allowed(s, WriteOp(req, data)) && DirAt(ViewOf(s.img), dp) == req.parent != 0
    requires EffectOf(s, WriteOp(req, data)).code == 0 && req.bufferSize != 0
    requires AllowedRun(Next(s, WriteOp(req, data)), ops)
    requires SparingRun(Next(s, WriteOp(req, data)), ops, dp + [req.Id()])
    requires rd.Id() == req.Id() && rd.parent == req.parent
    requires CLUSTER_SIZE * ClusterCount(req.bufferSize) <= rd.bufferSize
    ensures var n := CLUSTER_SIZE * ClusterCount(req.bufferSize);
      var final := Run(Next(s, WriteOp(req, data)), ops);
      var t := TableAt(final.img, req.parent);
      && (ReadCode(final.fat, t, rd) == 0 <==> req.Id() != TableAt(s.img, req.parent)[0].Id())
      && (ReadCode(final.fat, t, rd) == 0 ==>
            && n <= |data|
            && Gather(ViewOf(final.img).bytes, Chain(final.fat, t[Scan(t, req.Id(), 0)].Head())) == data[..n])
  {
    hide Sound, DirAt, ViewOf, Lookup, FatOf, TableAt, Chain, Scan, Gather, ReadCode, EffectOf, Allowed;
    var next := Next(s, WriteOp(req, data));
    var final := Run(next, ops);
    var path := dp + [req.Id()];
    assert path[..|path| - 1] == dp;
    StepKeeps(s, WriteOp(req, data), dp);
    CoversAll(s, req, data);
    WrittenName(s, dp, req, data);
    RunSpares(next, ops, path);
    Views(s.img, req.parent);
    Views(final.img, req.parent);
    if req.Id() == TableAt(s.img, req.parent)[0].Id() {
      ReadOwnName(final.img, dp, rd);
    } else {
      ReadListed(final.img, dp, rd);
    }
  }

  lemma CoversAll(s: State, req: Request, data: seq<byte>)
    requires Allowed(s, WriteOp(req, data)) && req.bufferSize != 0
    ensures CLUSTER_SIZE * ClusterCount(req.bufferSize) <= |data|
  {
    NeededBounds(req);
  }

  // A write that goes through does not have the all-zero name: a free slot would have matched it.
  lemma WrittenName(s: State, dp: seq<Key>, req: Request, data: seq<byte>)
    requires Mounted(s) && Allowed(s, WriteOp(req, data)) && DirAt(ViewOf(s.img), dp) == req.parent != 0
    requires EffectOf(s, WriteOp(req, data)).code == 0
    ensures req.Id() != NO_KEY
  {
    hide Weak, DirAt, ViewOf, FatOf, TableAt, Scan, FreeSlot, Ceil, FreeBelow;
    var t := TableAt(s.img, req.parent);
    Views(s.img, req.parent);
    ReachedFolder(ViewOf(s.img), dp);
    NameNotZero(t, req.parent, req.Id());
  }

  // read_directory compares names only.

  // It opens the folder a path names exactly when no slot before the folder's own carries the same
  // eight name bytes.
  lemma ReadDirectoryReturns(img: Image, dp: seq<Key>, key: Key, req: Request)
    requires Sound(img) && DirAt(ViewOf(img), dp) == req.parent != 0 && req.name == key.name
    requires DirAt(ViewOf(img), dp + [key]) != 0
    ensures var t := TableAt(img, req.parent); var i := ScanName(t, req.name, 0);
      (ReadDirectoryCode(t, req) == 0 && t[i].Head() == DirAt(ViewOf(img), dp + [key])) <==>
      (forall j :: 0 <= j < Scan(t, key, 2) ==> t[j].name != key.name)
  {
    Views(img, req.parent);
    hide ViewOf, TableAt, DirAt, ScanName, ReadDirectoryCode;
    NameOpens(ViewOf(img), dp, key, req);
  }

  lemma NameOpens(v: Vol, dp: seq<Key>, key: Key, req: Request)
    requires Weak(v) && DirAt(v, dp) == req.parent != 0 && req.name == key.name && DirAt(v, dp + [key]) != 0
    ensures var t := v.table[req.parent]; var i := ScanName(t, req.name, 0);
      (ReadDirectoryCode(t, req) == 0 && t[i].Head() == DirAt(v, dp + [key])) <==>
      (forall j :: 0 <= j < Scan(t, key, 2) ==> t[j].name != key.name)
  {
    hide Weak, DirAt, Scan, ScanName, ReadDirectoryCode, Owns;
    var d := DirAt(v, dp);
    var i := ScanName(v.table[d], req.name, 0);
    var slot := FolderAt(v, dp, key);
    NameBefore(v.table[d], key, slot, 0);
    AnswerAt(v.table[d], req);
    if i < TABLE_SIZE && v.table[d][i].attribute != 0 && v.table[d][i].Head() == DirAt(v, dp + [key]) {
      NameOfFolder(v, dp, key, i, slot);
    }
  }

  // What read_directory answers for the slot it finds.
  lemma AnswerAt(t: Table, req: Request)
    ensures var i := ScanName(t, req.name, 0);
      if i == TABLE_SIZE then ReadDirectoryCode(t, req) == 2
      else
        && (t[i].attribute == 0 ==> ReadDirectoryCode(t, req) == 1)
        && (t[i].IsFolder() && t[i].fileSize == 0 ==> ReadDirectoryCode(t, req) == 0)
        && (ReadDirectoryCode(t, req) == 0 ==> t[i].attribute != 0)
  {
    hide ScanName;
  }

  // The one slot that is no empty slot and leads to the folder is the folder's own.
  lemma NameOfFolder(v: Vol, dp: seq<Key>, key: Key, i: nat, slot: nat)
    requires Weak(v) && DirAt(v, dp) != 0 && Owns(v, DirAt(v, dp), slot, DirAt(v, dp + [key])) && i < TABLE_SIZE
    requires v.table[DirAt(v, dp)][i].attribute != 0 && v.table[DirAt(v, dp)][i].Head() == DirAt(v, dp + [key])
    ensures i == slot
  {
    var d, h := DirAt(v, dp), DirAt(v, dp + [key]);
    ReachedFolder(v, dp);
    SelfHead(v, dp);
    hide Weak, DirAt, FolderOk, Chain;
    OwnerNotSelf(v, dp, key);
    LiveSlot(v.table[d], d, i);
    hide Owns, TableOk;
    SameHead(v, d, i, slot, h);
  }

  lemma OwnerNotSelf(v: Vol, dp: seq<Key>, key: Key)
    requires Weak(v) && DirAt(v, dp) != 0
    ensures DirAt(v, dp + [key]) != DirAt(v, dp)
  {
    if DirAt(v, dp + [key]) == DirAt(v, dp) {
      PathUnique(v, dp, dp + [key]);
    }
  }

  lemma LiveSlot(t: Table, d: ClusterNo, i: nat)
    requires TableOk(t, d) && i < TABLE_SIZE && t[i].attribute != 0
    ensures i == 0 || (2 <= i && t[i].Live())
  {
    assert t[1].attribute == 0;
  }

  lemma NameBefore(t: Table, key: Key, slot: nat, from: nat)
    requires slot < TABLE_SIZE && t[slot].Id() == key && from == 0
    ensures ScanName(t, key.name, from) <= slot
    ensures ScanName(t, key.name, from) == slot <==> forall j :: 0 <= j < slot ==> t[j].name != key.name
  {
  }

  lemma FolderAt(v: Vol, dp: seq<Key>, key: Key) returns (slot: nat)
    requires Weak(v) && DirAt(v, dp) != 0 && DirAt(v, dp + [key]) != 0
    ensures slot == Scan(v.table[DirAt(v, dp)], key, 2) < TABLE_SIZE
    ensures var e := v.table[DirAt(v, dp)][slot];
      && e.Live() && e.IsFolder() && e.Id() == key && e.fileSize == 0 && e.Head() == DirAt(v, dp + [key])
      && Owns(v, DirAt(v, dp), slot, DirAt(v, dp + [key]))
  {
    var path := dp + [key];
    assert path[..|path| - 1] == dp;
    var d, i := FolderOwned(v, path);
    slot := i;
    ReachedFolder(v, dp);
    FindLive(v.table[d], d, i);
    assert EntryOk(v, v.table[d][i]);
  }

  lemma SameHead(v: Vol, d: ClusterNo, i: nat, slot: nat, h: ClusterNo)
    requires Weak(v) && Owns(v, d, slot, h) && LiveAt(v, d, i) && v.table[d][i].Head() == h
    ensures i == slot
  {
    assert EntryOk(v, v.table[d][i]);
    HeadInChain(v.fat, h);
    assert Owns(v, d, i, h);
  }

  // The answer, by name: 0 for the directory's own name, 1 for the all-zero name otherwise, and else
  // 2 exactly when no extension makes the name a path; 0 and 1 come from a folder and a file of the name.
  lemma ReadDirectoryAnswers(v: Vol, dp: seq<Key>, req: Request)
    requires Weak(v) && DirAt(v, dp) == req.parent != 0
    ensures var t := v.table[req.parent]; var code := ReadDirectoryCode(t, req);
      if req.name == t[0].name then code == 0
      else if req.name == NO_NAME then code == 1
      else
        && (code == 2 <==> forall ext: Ext :: Lookup(v, dp + [Key(req.name, ext)]) == None)
        && (code == 0 ==> exists ext: Ext :: Lookup(v, dp + [Key(req.name, ext)]) == Some(Folder))
        && (code == 1 ==> exists ext: Ext :: Lookup(v, dp + [Key(req.name, ext)]).Some?
                                          && Lookup(v, dp + [Key(req.name, ext)]) != Some(Folder))
        && code in {0, 1, 2}
  {
    hide Weak, DirAt, ScanName, Lookup, FolderOk, TableOk, EntryOk, ReadDirectoryCode, Scan;
    var d := DirAt(v, dp);
    var t := v.table[d];
    var i := ScanName(t, req.name, 0);
    ReachedFolder(v, dp);
    SelfHead(v, dp);
    OwnName(t, d, req.name, 0);
    AnswerAt(t, req);
    if req.name != t[0].name && req.name != NO_NAME {
      if i < TABLE_SIZE {
        ListedNode(v, dp, i);
        assert t[i].Id() == Key(req.name, t[i].ext);
      } else {
        forall ext: Ext ensures Lookup(v, dp + [Key(req.name, ext)]) == None {
          Unlisted(v, dp, Key(req.name, ext));
        }
      }
    }
  }

  lemma Unlisted(v: Vol, dp: seq<Key>, key: Key)
    requires DirAt(v, dp) != 0
    requires forall j :: 0 <= j < TABLE_SIZE ==> v.table[DirAt(v, dp)][j].name != key.name
    ensures Lookup(v, dp + [key]) == None
  {
    hide DirAt;
    Step(v, dp, key);
  }

  lemma OwnName(t: Table, d: ClusterNo, name: Name, from: nat)
    requires TableOk(t, d) && from == 0
    ensures var i := ScanName(t, name, from);
      if name == t[0].name then i == 0
      else if name == NO_NAME then i == 1 && t[1].attribute == 0
      else i == TABLE_SIZE || (2 <= i && t[i].Live())
  {
    assert t[1].name == NO_NAME;
  }

  // A live slot is the node its name and extension name: a folder, or a file without attributes.
  lemma ListedNode(v: Vol, dp: seq<Key>, i: nat)
    requires Weak(v) && DirAt(v, dp) != 0 && LiveAt(v, DirAt(v, dp), i)
    ensures var e := v.table[DirAt(v, dp)][i];
      && Lookup(v, dp + [e.Id()]) == Some(NodeOf(v, e))
      && if e.IsFolder() then e.fileSize == 0 else e.attribute == 0
  {
    ReachedFolder(v, dp);
    FindLive(v.table[DirAt(v, dp)], DirAt(v, dp), i);
    Step(v, dp, v.table[DirAt(v, dp)][i].Id());
    assert EntryOk(v, v.table[DirAt(v, dp)][i]);
  }
}
