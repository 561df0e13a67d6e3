/**
 * What the driver reads from and leaves on the device, byte by byte and by literal value: the place of
 * every cluster, link and entry, what a write and a delete change, and what formatting stores.
 */
module Wire {
  import opened Machine
  import opened Layout
  import opened Chains
  import opened Volume
  import opened Disk
  import opened Operations
  import opened Crash
  import opened Runs
  import opened Outcome
  import opened Guard
  import opened DeleteGuard
  import opened Boundaries

  // Places.

  // Cluster c is blocks 4c to 4c + 3, of 512 bytes each.
  lemma ClusterBytes(img: Image, c: nat, k: nat)
    requires c < 2048 && k < 2048
    ensures ClusterAt(img, c)[k] == img[4 * c + k / 512][k % 512]
  {
  }

  // A link is four bytes of cluster 1, least significant first.
  lemma LinkBytes(img: Image, x: ClusterNo)
    ensures var c := ClusterAt(img, 1);
      var b0: int, b1: int, b2: int, b3: int := c[4 * x], c[4 * x + 1], c[4 * x + 2], c[4 * x + 3];
      FatOf(img)[x] == b0 + 0x100 * b1 + 0x1_0000 * b2 + 0x100_0000 * b3
  {
    hide ClusterAt;
    var c := ClusterAt(img, 1);
    assert c[4 * x..4 * x + 4] == [c[4 * x], c[4 * x + 1], c[4 * x + 2], c[4 * x + 3]];
    LittleEndian(c[4 * x..4 * x + 4]);
  }

  lemma LittleEndian(s: seq<byte>)
    requires |s| == 4
    ensures var b0: int, b1: int, b2: int, b3: int := s[0], s[1], s[2], s[3];
      FromLe32(s) == b0 + 0x100 * b1 + 0x1_0000 * b2 + 0x100_0000 * b3
  {
    assert s[..2] == [s[0], s[1]] && s[2..] == [s[2], s[3]];
  }

  // Entry i of a directory is bytes 32i to 32i + 31 of its cluster.
  lemma SlotBytes(img: Image, c: nat, i: nat)
    requires c < 2048 && i < 64
    ensures var b, e := ClusterAt(img, c), TableAt(img, c)[i];
      && e.name == b[32 * i..32 * i + 8] && e.ext == b[32 * i + 8..32 * i + 11]
      && e.attribute == b[32 * i + 11] && e.userAttribute == b[32 * i + 12]
      && EncodeEntry(e) == b[32 * i..32 * i + 32]
  {
    hide ClusterAt, EncodeEntry;
    var s := ClusterAt(img, c)[32 * i..32 * i + 32];
    EntryEncodesBack(s);
    var b := ClusterAt(img, c);
    SliceOfSlice(b, 32 * i, 32, 0, 8);
    SliceOfSlice(b, 32 * i, 32, 8, 3);
  }

  // The bytes of an entry with every optional field zero.
  function EntryBytes(key: Key, attribute: byte, userAttribute: byte, cluster: ClusterNo, size: uint32): seq<byte> {
    key.name + key.ext + [attribute, userAttribute, 0] + [0, 0, 0, 0, 0, 0] + [0, 0] + [0, 0, 0, 0]
    + [cluster % 0x100, cluster / 0x100]
    + [size % 0x100, size / 0x100 % 0x100, size / 0x1_0000 % 0x100, size / 0x100_0000]
  }

  lemma MadeBytes(key: Key, attribute: byte, userAttribute: byte, cluster: ClusterNo, size: uint32)
    ensures EncodeEntry(MakeEntry(key, attribute, userAttribute, cluster, size))
         == EntryBytes(key, attribute, userAttribute, cluster, size)
  {
    Le32Bytes(size);
    hide Le32;
    assert Le16(0) == [0, 0];
    assert Le16(cluster) == [cluster % 0x100, cluster / 0x100];
  }

  // Replacing an entry of a directory replaces its 32 bytes.
  lemma EntryReplaced(b: Cluster, t: Table, i: nat, e: DirEntry)
    requires i < TABLE_SIZE && b == EncodeTable(t)
    ensures var b' := EncodeTable(t[i := e]);
      b'[..32 * i] == b[..32 * i] && b'[32 * i..32 * i + 32] == EncodeEntry(e) && b'[32 * i + 32..] == b[32 * i + 32..]
  {
    var b' := EncodeTable(t[i := e]);
    TableSlice(t[i := e], i);
    hide EncodeEntry;
    assert forall k :: 0 <= k < 32 * i ==> b'[k] == b[k];
    assert forall k :: 32 * i + 32 <= k < CLUSTER_SIZE ==> b'[k] == b[k];
  }

  // Writing.

  lemma WrittenCluster(s: State, req: Request, data: seq<byte>)
    requires Admitted(s, req, data)
    ensures ClusterAt(After(s, WriteOp(req, data)).img, req.parent) == EncodeTable(Stored(s, req, data))
  {
    hide Mounted, After, Stored, EffectOf, Prepared, EncodeTable, Replay, ClusterAt, Needed;
    AdmittedImage(s, req, data);
    ClusterWritten(Prepared(s, req, data), req.parent, EncodeTable(Stored(s, req, data)), req.parent);
  }

  // Byte 12 of slot j is 0xAA.
  ghost predicate Occupied(b: Cluster, j: nat) {
    j < 64 && b[32 * j + 12] == 0xAA
  }

  // The first slot from 2 on whose byte 12 is not 0xAA.
  ghost predicate FirstFreeSlot(b: Cluster, i: nat) {
    2 <= i < 64 && b[32 * i + 12] != 0xAA && forall j :: 2 <= j < i ==> Occupied(b, j)
  }

  lemma FreeSlotByBytes(img: Image, c: nat)
    requires c < 2048 && FreeSlot(TableAt(img, c)) < TABLE_SIZE
    ensures FirstFreeSlot(ClusterAt(img, c), FreeSlot(TableAt(img, c)))
  {
    hide ClusterAt, TableAt, EncodeEntry;
    var t, b, i := TableAt(img, c), ClusterAt(img, c), FreeSlot(TableAt(img, c));
    SlotBytes(img, c, i);
    forall j | 2 <= j < i ensures Occupied(b, j) {
      SlotBytes(img, c, j);
      assert t[j].Live();
    }
  }

  // A write fills the first free slot of the parent with 32 bytes made of the request and the first chosen
  // cluster, and leaves every other byte of the parent as it was. The chosen clusters are the lowest whose
  // link is 0, as many as the low byte of the size in clusters says, linked in ascending order.
  lemma WriteBytes(s: State, req: Request, data: seq<byte>) returns (i: nat, c: seq<ClusterNo>)
    requires Admitted(s, req, data)
    ensures FirstFreeSlot(ClusterAt(s.img, req.parent), i)
    ensures |c| == (if req.bufferSize == 0 then 1 else (req.bufferSize + 2047) / 2048 % 256) > 0
    ensures forall j, k :: 0 <= j < k < |c| ==> c[j] < c[k]
    ensures forall x :: x in c ==> s.fat[x] == 0
    ensures forall x: ClusterNo, y :: s.fat[x] == 0 && x !in c && y in c ==> y < x
    ensures var b, b' := ClusterAt(s.img, req.parent), ClusterAt(After(s, WriteOp(req, data)).img, req.parent);
      && b'[..32 * i] == b[..32 * i] && b'[32 * i + 32..] == b[32 * i + 32..]
      && b'[32 * i..32 * i + 32] ==
           req.name + req.ext + [if req.bufferSize == 0 then 0x10 else 0, 0xAA, 0] + [0, 0, 0, 0, 0, 0] + [0, 0]
           + [0, 0, 0, 0] + [c[0] % 0x100, c[0] / 0x100]
           + [req.bufferSize % 0x100, req.bufferSize / 0x100 % 0x100,
              req.bufferSize / 0x1_0000 % 0x100, req.bufferSize / 0x100_0000]
    ensures forall x: ClusterNo :: x !in c ==> After(s, WriteOp(req, data)).fat[x] == s.fat[x]
    ensures forall k: nat :: k < |c| ==>
      After(s, WriteOp(req, data)).fat[c[k]] == if k + 1 < |c| then c[k + 1] else 0x0FFFFFFF
  {
    hide Mounted, TableAt, FreeSlot, Scan, ClusterAt, After, EffectOf, Stored, Needed, Chosen, FreeBelow, Link, Demand;
    hide EncodeEntry, EncodeTable, FirstFreeSlot;
    var t := TableAt(s.img, req.parent);
    c := AdmittedLinks(s, req, data);
    StoredSlot(s, req, data);
    i := FreeSlot(t);
    FreeSlotByBytes(s.img, req.parent);
    TakenCount(req);
    ChosenLowest(s.fat, req);
    WrittenCluster(s, req, data);
    TableEncodesBack(ClusterAt(s.img, req.parent));
    TableIs(s.img, req.parent);
    EntryReplaced(ClusterAt(s.img, req.parent), t, i, NewEntry(req, c[0]));
    MadeBytes(req.Id(), if req.bufferSize == 0 then ATTR_SUBDIRECTORY else 0, UATTR_NOT_EMPTY, c[0], req.bufferSize);
    hide MakeEntry;
  }

  lemma AdmittedLinks(s: State, req: Request, data: seq<byte>) returns (c: seq<ClusterNo>)
    requires Admitted(s, req, data)
    ensures Needed(req) <= |FreeBelow(s.fat, CLUSTER_MAP_SIZE)| && c == Chosen(s.fat, req) && |c| == Needed(req)
    ensures forall x: ClusterNo :: x !in c ==> After(s, WriteOp(req, data)).fat[x] == s.fat[x]
    ensures forall k: nat :: k < |c| ==>
      After(s, WriteOp(req, data)).fat[c[k]] == if k + 1 < |c| then c[k + 1] else 0x0FFFFFFF
  {
    hide Mounted, After, EffectOf, Needed, Chosen, FreeBelow, Link, TableAt, FreeSlot, Scan;
    AdmittedChosen(s, req, data);
    c := Chosen(s.fat, req);
    LinksStored(s.fat, c);
  }

  lemma TakenCount(req: Request)
    requires Sized(req.bufferSize)
    ensures Needed(req) == (if req.bufferSize == 0 then 1 else (req.bufferSize + 2047) / 2048 % 256) > 0
  {
    NeededBounds(req);
  }

  lemma TableIs(img: Image, c: nat)
    requires c < 2048
    ensures TableAt(img, c) == DecodeTable(ClusterAt(img, c))
  {
  }

  // The chosen clusters of a file hold the source buffer, cluster by cluster.
  lemma WriteData(s: State, req: Request, data: seq<byte>, k: nat)
    requires Admitted(s, req, data) && req.bufferSize != 0
    ensures Needed(req) <= |FreeBelow(s.fat, CLUSTER_MAP_SIZE)|
    ensures k < |Chosen(s.fat, req)| ==>
      && 2048 * k + 2048 <= |data|
      && ClusterAt(After(s, WriteOp(req, data)).img, Chosen(s.fat, req)[k]) == data[2048 * k..2048 * k + 2048]
  {
    hide Sound, After, EffectOf, Needed, Chosen, FreeBelow, Link, TableAt, FatOf, FreeSlot, Scan, ClusterAt, Replay;
    hide FileWrites, Visible, ViewOf, Stored, EncodeTable;
    AdmittedChosen(s, req, data);
    var c := Chosen(s.fat, req);
    if k < |c| {
      assert c[k] in c;
      PreparationShows(s, req, data);
      FileWritten(s.img, c, data, |c|);
      AdmittedImage(s, req, data);
      ClusterWritten(Prepared(s, req, data), req.parent, EncodeTable(Stored(s, req, data)), c[k]);
    }
  }

  lemma ZeroBytes(t: Table, i: nat, k: nat)
    requires i < TABLE_SIZE && k < 32 && t[i] == ZERO_ENTRY
    ensures EncodeTable(t)[32 * i + k] == 0
  {
    hide EncodeTable, EncodeEntry;
    TableSlice(t, i);
    ZeroEntryBytes(k);
    assert EncodeTable(t)[32 * i..32 * i + 32][k] == EncodeEntry(t[i])[k];
  }

  lemma ZeroEntryBytes(k: nat)
    requires k < 32
    ensures EncodeEntry(ZERO_ENTRY)[k] == 0
  {
    EntryOffsets(ZERO_ENTRY);
  }

  // A new directory is its self entry, of 32 bytes, and zeros.
  lemma FolderBytes(name: Name, c: ClusterNo)
    ensures var b := EncodeTable(NewFolder(name, c));
      && b[..32] == name + [0, 0, 0] + [0x10, 0, 0] + [0, 0, 0, 0, 0, 0] + [0, 0] + [0, 0, 0, 0]
                    + [c % 0x100, c / 0x100] + [0, 0, 0, 0]
      && forall k :: 32 <= k < 2048 ==> b[k] == 0
  {
    var t := NewFolder(name, c);
    TableSlice(t, 0);
    MadeBytes(Key(name, NO_EXT), ATTR_SUBDIRECTORY, 0, c, 0);
    hide EncodeTable, EncodeEntry, MakeEntry;
    assert EncodeTable(t)[..32] == EncodeTable(t)[0..32];
    forall k | 32 <= k < 2048 ensures EncodeTable(t)[k] == 0 {
      ZeroBytes(t, k / 32, k % 32);
    }
  }

  lemma WriteFolderBytes(s: State, req: Request, data: seq<byte>)
    requires Admitted(s, req, data) && req.bufferSize == 0
    ensures Needed(req) <= |FreeBelow(s.fat, CLUSTER_MAP_SIZE)| && |Chosen(s.fat, req)| == 1
    ensures ClusterAt(After(s, WriteOp(req, data)).img, Chosen(s.fat, req)[0])
         == EncodeTable(NewFolder(req.name, Chosen(s.fat, req)[0]))
  {
    hide Sound, After, EffectOf, Needed, Chosen, FreeBelow, Link, FatOf, FreeSlot, Scan, ClusterAt, Replay;
    hide FolderWrites, Visible, ViewOf, Stored, EncodeTable, DecodeTable, NewFolder;
    AdmittedChosen(s, req, data);
    var c := Chosen(s.fat, req);
    assert c[0] in c;
    PreparationShows(s, req, data);
    FolderWritten(s.img, req.name, c[0]);
    TableEncodesBack(ClusterAt(Prepared(s, req, data), c[0]));
    AdmittedImage(s, req, data);
    ClusterWritten(Prepared(s, req, data), req.parent, EncodeTable(Stored(s, req, data)), c[0]);
  }

  // Deleting.

  // The eleven name bytes of slot i are the key's.
  ghost predicate NamedSlot(b: Cluster, key: Key, i: nat) {
    i < 64 && b[32 * i..32 * i + 11] == key.name + key.ext
  }

  lemma NamedBytes(img: Image, c: nat, j: nat, key: Key)
    requires c < 2048 && j < 64
    ensures TableAt(img, c)[j].Id() == key <==> NamedSlot(ClusterAt(img, c), key, j)
  {
    hide ClusterAt, TableAt, EncodeEntry;
    SlotBytes(img, c, j);
    var b := ClusterAt(img, c);
    assert b[32 * j..32 * j + 11] == b[32 * j..32 * j + 8] + b[32 * j + 8..32 * j + 11];
    assert (key.name + key.ext)[..8] == key.name && (key.name + key.ext)[8..] == key.ext;
    var e := TableAt(img, c)[j];
    assert (e.name + e.ext)[..8] == e.name && (e.name + e.ext)[8..] == e.ext;
  }

  // The scan finds the first slot so named, if there is one.
  lemma ScanByBytes(img: Image, c: nat, key: Key)
    requires c < 2048
    ensures var i := Scan(TableAt(img, c), key, 0);
      && (i < 64 ==> NamedSlot(ClusterAt(img, c), key, i))
      && forall j: nat :: j < i ==> !NamedSlot(ClusterAt(img, c), key, j)
  {
    var t, i := TableAt(img, c), Scan(TableAt(img, c), key, 0);
    hide ClusterAt, TableAt, Scan, NamedSlot;
    forall j: nat | j < i ensures !NamedSlot(ClusterAt(img, c), key, j) {
      NamedBytes(img, c, j, key);
      assert t[j].Id() != key;
    }
    if i < TABLE_SIZE {
      NamedBytes(img, c, i, key);
    }
  }

  // Bytes 20, 21 and 26, 27 of an entry are the halves of the number of its first cluster.
  lemma HeadByBytes(img: Image, c: nat, i: nat)
    requires c < 2048 && i < 64
    ensures var b := ClusterAt(img, c);
      var h0: int, h1: int, l0: int, l1: int := b[32 * i + 20], b[32 * i + 21], b[32 * i + 26], b[32 * i + 27];
      TableAt(img, c)[i].Head() == (h0 + 0x100 * h1) * 0x1_0000 + l0 + 0x100 * l1
  {
    hide ClusterAt, DirEntry.Head, FromLe16, FromLe32;
    HeadBytes(ClusterAt(img, c)[32 * i..32 * i + 32]);
    hide DecodeEntry;
  }

  // A delete clears the 32 bytes of the first slot that has the name, and exactly the links of the chain
  // that starts at the entry's cluster; the rest of the parent and of the map stays.
  lemma DeleteBytes(s: State, req: Request) returns (i: nat, c: seq<ClusterNo>)
    requires Located(s, req)
    ensures EffectOf(s, DeleteOp(req)).code == 0
    ensures var b := ClusterAt(s.img, req.parent);
      NamedSlot(b, req.Id(), i) && i < 64 && forall j: nat :: j < i ==> !NamedSlot(b, req.Id(), j)
    ensures var b := ClusterAt(s.img, req.parent);
      var h0: int, h1: int, l0: int, l1: int := b[32 * i + 20], b[32 * i + 21], b[32 * i + 26], b[32 * i + 27];
      (h0 + 0x100 * h1) * 0x1_0000 + l0 + 0x100 * l1 == if c == [] then 0x0FFFFFFF else c[0]
    ensures forall k: nat :: k < |c| ==> s.fat[c[k]] == if k + 1 < |c| then c[k + 1] else 0x0FFFFFFF
    ensures forall x: ClusterNo :: After(s, DeleteOp(req)).fat[x] == if x in c then 0 else s.fat[x]
    ensures After(s, DeleteOp(req)).fat == FatOf(After(s, DeleteOp(req)).img)
    ensures req.parent != 1 ==>
      var b, b' := ClusterAt(s.img, req.parent), ClusterAt(After(s, DeleteOp(req)).img, req.parent);
      && b'[..32 * i] == b[..32 * i] && b'[32 * i + 32..] == b[32 * i + 32..]
      && forall k :: 32 * i <= k < 32 * i + 32 ==> b'[k] == 0
  {
    hide Mounted, TableAt, Scan, ClusterAt, After, Chain, Ends, EncodeTable, EncodeEntry, FatOf, NamedSlot;
    hide DirEntry.Head;
    var t := TableAt(s.img, req.parent);
    i, c := Scan(t, req.Id(), 0), Freed(s, req);
    DeleteCode(s, req);
    ScanByBytes(s.img, req.parent, req.Id());
    HeadByBytes(s.img, req.parent, i);
    ChainLinks(s.fat, t[i].Head());
    DeletedImage(s, req);
    TableEncodesBack(ClusterAt(s.img, req.parent));
    TableIs(s.img, req.parent);
    EntryReplaced(ClusterAt(s.img, req.parent), t, i, ZERO_ENTRY);
    if req.parent != 1 {
      forall k | 32 * i <= k < 32 * i + 32 ensures ClusterAt(After(s, DeleteOp(req)).img, req.parent)[k] == 0 {
        ZeroBytes(t[i := ZERO_ENTRY], i, k - 32 * i);
      }
    }
  }

  lemma DeleteCode(s: State, req: Request)
    requires Located(s, req)
    ensures EffectOf(s, DeleteOp(req)).code == 0
  {
    hide Mounted, TableAt, Scan, Chain, Ends, DeleteLog, Release;
  }

  // Without such a slot it reports 1 and changes nothing.
  lemma DeleteMissesBytes(s: State, req: Request)
    requires req.parent < CLUSTER_MAP_SIZE
    ensures EffectOf(s, DeleteOp(req)).code in {0, 1}
    ensures EffectOf(s, DeleteOp(req)).code == 1 <==>
      forall j: nat :: !NamedSlot(ClusterAt(s.img, req.parent), req.Id(), j)
    ensures EffectOf(s, DeleteOp(req)).code == 1 ==>
      After(s, DeleteOp(req)) == s && EffectOf(s, DeleteOp(req)).log == []
  {
    hide TableAt, Scan, ClusterAt, Chain, DeleteLog, Release;
    ScanByBytes(s.img, req.parent, req.Id());
    assert forall j: nat :: NamedSlot(ClusterAt(s.img, req.parent), req.Id(), j) ==> j < 64;
    hide NamedSlot;
  }

  // The codes of write, by byte, for whatever the device holds: the parent's link is no end mark; a slot from
  // 2 on has the name; all of them have 0xAA in byte 12, or too few links are 0; and otherwise success.
  lemma WriteCodeBytes(img: Image, fat: Fat, req: Request)
    requires req.parent < 512 && Sized(req.bufferSize)
    ensures var b := ClusterAt(img, req.parent);
      WriteCode(fat, TableAt(img, req.parent), req) ==
        if fat[req.parent] != 0x0FFFFFFF then 2
        else if exists j: nat :: 2 <= j && NamedSlot(b, req.Id(), j) then 1
        else if (forall j :: 2 <= j < 64 ==> Occupied(b, j))
             || |FreeClusters(fat)| < (if req.bufferSize == 0 then 1 else (req.bufferSize + 2047) / 2048 % 256) then -1
        else 0
  {
    hide ClusterAt, TableAt, WriteCode, NamedSlot, FreeClusters, Taken, Full;
    var t := TableAt(img, req.parent);
    WriteOutcome(fat, t, req);
    WriteCodes(fat, t, req);
    TakenByBytes(img, req.parent, req.Id());
    FullByBytes(img, req.parent);
  }

  lemma TakenByBytes(img: Image, c: nat, key: Key)
    requires c < 2048
    ensures Taken(TableAt(img, c), key) <==> exists j: nat :: 2 <= j && NamedSlot(ClusterAt(img, c), key, j)
  {
    var t, b := TableAt(img, c), ClusterAt(img, c);
    hide ClusterAt, TableAt;
    if i: nat :| 2 <= i < TABLE_SIZE && t[i].Id() == key {
      NamedBytes(img, c, i, key);
      assert NamedSlot(b, key, i);
    }
    if j: nat :| 2 <= j && NamedSlot(b, key, j) {
      NamedBytes(img, c, j, key);
      assert t[j].Id() == key;
    }
  }

  lemma FullByBytes(img: Image, c: nat)
    requires c < 2048
    ensures Full(TableAt(img, c)) <==> forall j :: 2 <= j < 64 ==> Occupied(ClusterAt(img, c), j)
  {
    var t, b := TableAt(img, c), ClusterAt(img, c);
    hide ClusterAt, TableAt, EncodeEntry;
    forall j | 2 <= j < 64 ensures t[j].Live() <==> Occupied(b, j) {
      SlotBytes(img, c, j);
    }
    hide Occupied;
  }

  lemma WriteCodes(fat: Fat, t: Table, req: Request)
    requires req.parent < CLUSTER_MAP_SIZE
    ensures WriteCode(fat, t, req) in {2, 1, -1, 0}
  {
  }

  // Formatting.

  // The boot sector, by position: eighty characters, zeros, and the letters O and k.
  lemma SignatureBytes(k: nat)
    requires k < 512
    ensures var text := "Course          " + "Designed by     " + "Lab Sister ITB  " + "Made with <3    "
                        + "-----------2024\n";
      Signature()[k] == if k < 80 then text[k] as int else if k == 510 then 0x4F else if k == 511 then 0x6B else 0
  {
  }

  // The empty allocation table, by byte: 0x0FFFFFF0, 0x0FFFFFFF, and zeros.
  lemma EmptyFatBytes(k: nat)
    requires k < 2048
    ensures EncodeFat(EmptyFat())[k] ==
      if k == 0 then 0xF0 else if k == 3 || k == 7 then 0x0F else if k < 8 then 0xFF else 0
  {
    Le32Bytes(EmptyFat()[k / 4]);
    hide Le32, EmptyFat;
    EmptyLink(k / 4);
  }

  lemma EmptyLink(x: ClusterNo)
    ensures EmptyFat()[x] == if x == 0 then 0x0FFFFFF0 else if x == 1 then 0x0FFFFFFF else 0
  {
  }

  // A formatted device: signature in block 0, empty table in cluster 1, and in cluster 2 the root with its
  // own entry; every other block is as it was.
  lemma FormatBytes(img: Image, name: Name)
    ensures var img' := Replay(img, FormatWrites(name));
      && img'[0] == Signature()
      && ClusterAt(img', 1) == EncodeFat(EmptyFat())
      && ClusterAt(img', 2) == EncodeTable(NewFolder(name, 2))
      && forall k: nat :: 1 <= k < 4 || 12 <= k < DISK_BLOCKS ==> img'[k] == img[k]
  {
    hide DecodeTable, EncodeTable, ClusterAt, DecodeFat, EmptyFat, NewFolder, Signature, EncodeFat;
    var img' := Replay(img, FormatWrites(name));
    FormatContents(img, name);
    TableEncodesBack(ClusterAt(img', 2));
    FatEncodesBack(ClusterAt(img', 1));
    TableIs(img', 2);
    forall k: nat | 1 <= k < 4 || 12 <= k < DISK_BLOCKS ensures img'[k] == img[k] {
      FormatElsewhere(img, name, k);
    }
  }

  lemma FormatElsewhere(img: Image, name: Name, k: nat)
    requires 1 <= k < 4 || 12 <= k < DISK_BLOCKS
    ensures Replay(img, FormatWrites(name))[k] == img[k]
  {
    var boot := [BlockWrite(BOOT_SECTOR, Signature())];
    var links, root := EncodeFat(EmptyFat()), EncodeTable(NewFolder(name, ROOT_CLUSTER));
    assert boot[..0] == [];
    assert Replay(img, boot) == img[BOOT_SECTOR := Signature()];
    hide EncodeFat, EncodeTable, EmptyFat, NewFolder, Signature, Replay;
    ReplayConcat(img, boot + FatWrites(EmptyFat()), TableWrites(ROOT_CLUSTER, NewFolder(name, ROOT_CLUSTER)));
    ReplayConcat(img, boot, FatWrites(EmptyFat()));
    assert ClusterWrites(FAT_CLUSTER, links)[..4] == ClusterWrites(FAT_CLUSTER, links);
    assert ClusterWrites(ROOT_CLUSTER, root)[..4] == ClusterWrites(ROOT_CLUSTER, root);
    PartialCluster(Replay(img, boot), FAT_CLUSTER, links, 4, k);
    PartialCluster(Replay(Replay(img, boot), FatWrites(EmptyFat())), ROOT_CLUSTER, root, 4, k);
  }
}
