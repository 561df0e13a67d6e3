/**
 * The file-system driver: the operations as the repository runs them, on the cached allocation table
 * and the block device, proved to have exactly the effects Operations describes.
 */
module Driver {
  import opened Machine
  import opened Layout
  import opened Chains
  import opened Volume
  import opened Disk
  import opened Operations
  import opened Crash
  import opened Runs

  // Overwriting the bytes behind a prefix extends the prefix.
  lemma Splice(done: seq<byte>, data: seq<byte>, rest: seq<byte>)
    requires |done| + |data| <= |rest|
    ensures var now := done + rest[|done|..];
      now[..|done|] + data + now[|done| + |data|..] == done + data + rest[|done| + |data|..]
  {
  }

  lemma ClusterBytes(img: Image, c: ClusterNo)
    ensures ViewOf(img).bytes[c] == ClusterAt(img, c)
  {
  }

  lemma GatherStep(bytes: Clusters, s: seq<ClusterNo>, n: nat)
    requires n < |s|
    ensures Gather(bytes, s[..n + 1]) == Gather(bytes, s[..n]) + bytes[s[n]]
  {
    assert s[..n + 1][..n] == s[..n];
  }

  class Fat32Driver {
    const dev: BlockDevice
    const fat: array<uint32>
    const dirTableBuf: array<DirEntry>

    ghost predicate Valid() {
      dev.Valid() && fat.Length == CLUSTER_MAP_SIZE && dirTableBuf.Length == TABLE_SIZE
    }

    ghost function Content(): Image
      requires Valid()
      reads dev.blocks
    {
      dev.Content()
    }

    ghost function Now(): State
      requires Valid()
      reads dev.blocks, fat
    {
      State(fat[..], Content())
    }

    constructor (dev: BlockDevice)
      requires dev.Valid()
      ensures Valid() && this.dev == dev && fresh(fat) && fresh(dirTableBuf)
    {
      this.dev := dev;
      fat := new uint32[CLUSTER_MAP_SIZE](_ => 0);
      dirTableBuf := new DirEntry[TABLE_SIZE](_ => ZERO_ENTRY);
    }

    method ReadCluster(c: nat) returns (data: Cluster)
      requires Valid() && c < DISK_CLUSTERS
      ensures data == ClusterAt(Content(), c)
    {
      SpanIsCluster(Content(), c);
      data := dev.ReadBlocks(c * CLUSTER_BLOCK_COUNT, CLUSTER_BLOCK_COUNT);
    }

    method WriteCluster(c: nat, data: Cluster)
      requires Valid() && c < DISK_CLUSTERS
      modifies dev, dev.blocks
      ensures dev.log == old(dev.log) + ClusterWrites(c, data)
      ensures Content() == Replay(old(Content()), ClusterWrites(c, data))
    {
      assert SpanWrites(data, 4 * c, 4) == ClusterWrites(c, data);
      dev.WriteBlocks(data, c * CLUSTER_BLOCK_COUNT, CLUSTER_BLOCK_COUNT);
    }

    // Looks for a free slot and a name clash in one pass over slots 2 to 63.
    method ScanForWrite(table: Table, key: Key) returns (clash: bool, slot: nat)
      ensures clash <==> Scan(table, key, 2) < TABLE_SIZE
      ensures !clash ==> slot == if FreeSlot(table) < TABLE_SIZE then FreeSlot(table) else 0
    {
      slot := 0;
      for i := 2 to TABLE_SIZE
        invariant if slot == 0 then FreeSlot(table) == FreeSlotFrom(table, i) else slot == FreeSlot(table) < TABLE_SIZE
        invariant Scan(table, key, 2) == Scan(table, key, i)
      {
        if !table[i].Live() && slot == 0 {
          slot := i;
        }
        if table[i].name == key.name && table[i].ext == key.ext {
          return true, slot;
        }
      }
      return false, slot;
    }

    // First fit: scans the map upwards until enough empty entries have been collected.
    method FindClusters(required: nat) returns (slots: seq<ClusterNo>)
      requires Valid()
      ensures if required <= |FreeBelow(fat[..], CLUSTER_MAP_SIZE)|
              then slots == FreeBelow(fat[..], CLUSTER_MAP_SIZE)[..required]
              else |slots| < required
    {
      slots := [];
      var i := 0;
      while |slots| < required && i < CLUSTER_MAP_SIZE
        invariant i <= CLUSTER_MAP_SIZE && |slots| <= required
        invariant slots == FreeBelow(fat[..], i)
      {
        if fat[i] == EMPTY_ENTRY {
          slots := slots + [i];
        }
        i := i + 1;
      }
      FreePrefix(fat[..], i, CLUSTER_MAP_SIZE);
    }

    method Write(req: Request, data: seq<byte>) returns (ret: int)
      requires Valid() && req.parent < CLUSTER_MAP_SIZE && Covers(req, data)
      modifies dev, dev.blocks, fat
      ensures Performed(old(Now()), WriteOp(req, data), ret, Now(), old(dev.log), dev.log)
      ensures old(Mounted(Now()) && Allowed(Now(), WriteOp(req, data))) ==> Mounted(Now())
    {
      PerformedKeepsMounted(Now(), WriteOp(req, data));
      hide Mounted, Allowed;
      NeededBounds(req);
      var dirTable, slot, slots;
      ret, dirTable, slot, slots := Admit(req);
      if ret == 0 {
        Store(req, data, dirTable, slot, slots);
      }
    }

    method CountClusters(req: Request) returns (required: nat)
      ensures required == Needed(req)
    {
      required := Ceil(req.bufferSize as real / CLUSTER_SIZE as real);
      if req.bufferSize == 0 {
        required := required + 1;
      }
    }

    // Every reason to refuse a write is found before anything is changed.
    method Admit(req: Request) returns (ret: int, dirTable: Table, slot: nat, slots: seq<ClusterNo>)
      requires Valid() && req.parent < CLUSTER_MAP_SIZE && Sized(req.bufferSize)
      ensures ret == WriteCode(fat[..], TableAt(Content(), req.parent), req)
      ensures ret == 0 ==> dirTable == TableAt(Content(), req.parent) && slot == FreeSlot(dirTable)
      ensures ret == 0 ==> slots == Chosen(fat[..], req)
    {
      hide Scan, FreeSlot, FreeBelow, Needed, TableAt;
      dirTable, slot, slots := BLANK_TABLE, 0, [];
      if fat[req.parent] != END_OF_FILE {
        return 2, dirTable, slot, slots;
      }
      dirTable := ReadTable(req.parent);
      var clash;
      clash, slot := ScanForWrite(dirTable, req.Id());
      if clash {
        return 1, dirTable, slot, slots;
      }
      if slot == 0 {
        return -1, dirTable, slot, slots;
      }
      var required := CountClusters(req);
      slots := FindClusters(required);
      if |slots| < required {
        return -1, dirTable, slot, slots;
      }
      return 0, dirTable, slot, slots;
    }

    // Writes the new chain, then the directory entry that makes it appear.
    method Store(req: Request, data: seq<byte>, dirTable: Table, slot: nat, slots: seq<ClusterNo>)
      requires Valid() && Writable(fat[..], dirTable, req, data)
      requires slot == FreeSlot(dirTable) && slots == Chosen(fat[..], req)
      modifies dev, dev.blocks, fat
      ensures fat[..] == Link(old(fat[..]), slots, Needed(req))
      ensures dev.log == old(dev.log) + WriteLog(old(fat[..]), dirTable, req, data)
      ensures Content() == Replay(old(Content()), WriteLog(old(fat[..]), dirTable, req, data))
    {
      hide Link, FileWrites, FolderWrites, TableWrites, Replay, FreeBelow, FreeSlotFrom, Scan, Ceil, MakeEntry;
      if req.bufferSize == 0 {
        WriteFolderCluster(req.name, slots);
      } else {
        WriteFileClusters(slots, data);
      }
      var table := dirTable[slot := NewEntry(req, slots[0])];
      WriteTable(req.parent, table);
      ReplayConcat(old(Content()), PrepareWrites(old(fat[..]), req, slots, data), TableWrites(req.parent, table));
    }

    method ReadTable(c: nat) returns (t: Table)
      requires Valid() && c < DISK_CLUSTERS
      ensures t == TableAt(Content(), c)
    {
      var data := ReadCluster(c);
      t := DecodeTable(data);
    }

    method WriteTable(c: ClusterNo, t: Table)
      requires Valid()
      modifies dev, dev.blocks
      ensures dev.log == old(dev.log) + TableWrites(c, t)
      ensures Content() == Replay(old(Content()), TableWrites(c, t))
    {
      WriteCluster(c, EncodeTable(t));
    }

    // Writes the cached table through to cluster 1.
    method WriteFat()
      requires Valid()
      modifies dev, dev.blocks
      ensures dev.log == old(dev.log) + FatWrites(fat[..])
      ensures Content() == Replay(old(Content()), FatWrites(fat[..]))
    {
      WriteCluster(FAT_CLUSTER, EncodeFat(fat[..]));
    }

    method WriteFolderCluster(name: Name, slots: seq<ClusterNo>)
      requires Valid() && |slots| == 1
      modifies dev, dev.blocks, fat
      ensures fat[..] == Link(old(fat[..]), slots, 1)
      ensures dev.log == old(dev.log) + FolderWrites(old(fat[..]), name, slots[0])
      ensures Content() == Replay(old(Content()), FolderWrites(old(fat[..]), name, slots[0]))
    {
      var c := slots[0];
      assert slots == [c];
      WriteTable(c, NewFolder(name, c));
      fat[c] := END_OF_FILE;
      assert Link(old(fat[..]), [c], 0) == old(fat[..]);
      assert fat[..] == Link(old(fat[..]), [c], 1);
      WriteFat();
      ReplayConcat(old(Content()), TableWrites(c, NewFolder(name, c)), FatWrites(fat[..]));
    }

    method WriteFileClusters(slots: seq<ClusterNo>, data: seq<byte>)
      requires Valid() && CLUSTER_SIZE * |slots| <= |data|
      modifies dev, dev.blocks, fat
      ensures fat[..] == Link(old(fat[..]), slots, |slots|)
      ensures dev.log == old(dev.log) + FileWrites(old(fat[..]), slots, data, |slots|)
      ensures Content() == Replay(old(Content()), FileWrites(old(fat[..]), slots, data, |slots|))
    {
      var required := |slots|;
      hide FatWrites, ClusterWrites;
      for j := 0 to required
        invariant fat[..] == Link(old(fat[..]), slots, j)
        invariant dev.log == old(dev.log) + FileWrites(old(fat[..]), slots, data, j)
        invariant Content() == Replay(old(Content()), FileWrites(old(fat[..]), slots, data, j))
      {
        WriteFileCluster(slots, data, j);
        FileStep(old(Content()), old(fat[..]), slots, data, j);
      }
    }

    // Links one cluster, writes the table through, then writes the data.
    method WriteFileCluster(slots: seq<ClusterNo>, data: seq<byte>, j: nat)
      requires Valid() && j < |slots| && CLUSTER_SIZE * |slots| <= |data|
      modifies dev, dev.blocks, fat
      ensures fat[..] == old(fat[..])[slots[j] := NextLink(slots, j)]
      ensures dev.log == old(dev.log) + FatWrites(fat[..]) + ClusterWrites(slots[j], Piece(data, j))
      ensures Content() == Replay(Replay(old(Content()), FatWrites(fat[..])), ClusterWrites(slots[j], Piece(data, j)))
    {
      fat[slots[j]] := if j < |slots| - 1 then slots[j + 1] else END_OF_FILE;
      WriteFat();
      WriteCluster(slots[j], Piece(data, j));
    }

    method Delete(req: Request) returns (ret: int)
      requires Valid() && req.parent < CLUSTER_MAP_SIZE
      requires Deletable(fat[..], TableAt(Content(), req.parent), req)
      modifies dev, dev.blocks, fat, dirTableBuf
      ensures Performed(old(Now()), DeleteOp(req), ret, Now(), old(dev.log), dev.log)
      ensures old(Mounted(Now()) && Allowed(Now(), DeleteOp(req))) ==> Mounted(Now())
    {
      PerformedKeepsMounted(Now(), DeleteOp(req));
      hide Mounted, Allowed, TableAt, EffectOf, After, Deletable;
      ret := Erase(req);
    }

    method Erase(req: Request) returns (ret: int)
      requires Valid() && req.parent < CLUSTER_MAP_SIZE
      requires Deletable(fat[..], TableAt(Content(), req.parent), req)
      modifies dev, dev.blocks, fat, dirTableBuf
      ensures Performed(old(Now()), DeleteOp(req), ret, Now(), old(dev.log), dev.log)
    {
      hide Performed, TableAt, DeleteLog, Release, Chain, Ends, Scan, Replay;
      ghost var s, log := Now(), dev.log;
      ReadTableInto(req.parent, dirTableBuf);
      var i := FindEntry(dirTableBuf[..], req.Id());
      if i == TABLE_SIZE {
        DeleteMisses(s, req, log);
        return 1;
      }
      DeleteFinds(s, req, log);
      Unlink(req, i);
      return 0;
    }

    // Frees the chain in memory, then erases the entry on disk, then saves the table.
    method Unlink(req: Request, i: nat)
      requires Valid() && req.parent < CLUSTER_MAP_SIZE
      requires i == Scan(dirTableBuf[..], req.Id(), 0) < TABLE_SIZE && Ends(fat[..], dirTableBuf[i].Head())
      modifies dev, dev.blocks, fat, dirTableBuf
      ensures fat[..] == Release(old(fat[..]), Chain(old(fat[..]), old(dirTableBuf[i]).Head()))
      ensures dev.log == old(dev.log) + DeleteLog(old(fat[..]), old(dirTableBuf[..]), req)
      ensures Content() == Replay(old(Content()), DeleteLog(old(fat[..]), old(dirTableBuf[..]), req))
    {
      FreeChain(dirTableBuf[i].Head());
      ClearEntry(req.parent, i);
      WriteFat();
      hide Replay, TableWrites, FatWrites, Release, Ends, Chain, Scan;
      ReplayConcat(old(Content()), TableWrites(req.parent, dirTableBuf[..]), FatWrites(fat[..]));
    }

    method ClearEntry(c: ClusterNo, i: nat)
      requires Valid() && i < TABLE_SIZE
      modifies dev, dev.blocks, dirTableBuf
      ensures dirTableBuf[..] == old(dirTableBuf[..])[i := ZERO_ENTRY]
      ensures dev.log == old(dev.log) + TableWrites(c, dirTableBuf[..])
      ensures Content() == Replay(old(Content()), TableWrites(c, dirTableBuf[..]))
    {
      dirTableBuf[i] := ZERO_ENTRY;
      WriteTable(c, dirTableBuf[..]);
    }

    // Compares every slot of the buffered table, the self entry included, with the requested name.
    method FindEntry(table: Table, key: Key) returns (i: nat)
      ensures i == Scan(table, key, 0)
    {
      i := 0;
      while i < TABLE_SIZE && !(table[i].name == key.name && table[i].ext == key.ext)
        invariant i <= TABLE_SIZE
        invariant forall j :: 0 <= j < i ==> table[j].Id() != key
      {
        i := i + 1;
      }
    }

    // Follows the links from c, clearing each one after reading it.
    method FreeChain(c: uint32)
      requires Valid() && Ends(fat[..], c)
      modifies fat
      ensures fat[..] == Release(old(fat[..]), Chain(old(fat[..]), c))
    {
      ghost var s := Chain(fat[..], c);
      ghost var n := 0;
      ChainLinks(fat[..], c);
      assert Release(fat[..], s[..0]) == fat[..];
      hide Chain, Release, Ends;
      var cluster := c;
      while cluster != END_OF_FILE
        invariant n <= |s| && cluster == if n < |s| then s[n] else END_OF_FILE
        invariant fat[..] == Release(old(fat[..]), s[..n])
        decreases |s| - n
      {
        ReleaseStep(old(fat[..]), s, n);
        var next := fat[cluster];
        fat[cluster] := EMPTY_ENTRY;
        cluster := next;
        n := n + 1;
      }
      assert s[..n] == s;
    }

    // Copies the file's clusters, in chain order, to the start of the caller's buffer.
    method Read(req: Request, buf: array<byte>) returns (ret: int)
      requires Valid() && req.parent < CLUSTER_MAP_SIZE
      requires Readable(fat[..], TableAt(Content(), req.parent), req, buf.Length)
      modifies buf
      ensures ret == ReadCode(fat[..], TableAt(Content(), req.parent), req)
      ensures ret != 0 ==> buf[..] == old(buf[..])
      ensures ret == 0 ==>
        var t := TableAt(Content(), req.parent);
        var data := Gather(ViewOf(Content()).bytes, Chain(fat[..], t[Scan(t, req.Id(), 0)].Head()));
        |data| <= buf.Length && buf[..] == data + old(buf[..])[|data|..]
    {
      hide TableAt, Scan, Chain, Gather, Ceil, Ends, ViewOf;
      if fat[req.parent] != END_OF_FILE {
        return 2;
      }
      var dirTable := ReadTable(req.parent);
      var i := FindEntry(dirTable, req.Id());
      if i == TABLE_SIZE {
        return 2;
      }
      if dirTable[i].attribute == ATTR_SUBDIRECTORY {
        return 1;
      }
      if req.bufferSize / CLUSTER_SIZE < Ceil(dirTable[i].fileSize as real / CLUSTER_SIZE as real) {
        return -1;
      }
      CopyChain(dirTable[i].Head(), buf);
      return 0;
    }

    method CopyChain(c: uint32, buf: array<byte>)
      requires Valid() && Ends(fat[..], c)
      requires CLUSTER_SIZE * |Chain(fat[..], c)| <= buf.Length
      modifies buf
      ensures var data := Gather(ViewOf(Content()).bytes, Chain(fat[..], c));
        |data| <= buf.Length && buf[..] == data + old(buf[..])[|data|..]
    {
      ghost var s := Chain(fat[..], c);
      ghost var bytes := ViewOf(Content()).bytes;
      ChainLinks(fat[..], c);
      var current, n := c, 0;
      assert Gather(bytes, s[..0]) == [];
      hide Chain, ViewOf, Gather, ClusterAt, Ends;
      while current != END_OF_FILE
        invariant n <= |s| && current == if n < |s| then s[n] else END_OF_FILE
        invariant buf[..] == Gather(bytes, s[..n]) + old(buf[..])[CLUSTER_SIZE * n..]
        decreases |s| - n
      {
        CopyNext(current, buf, s, n, old(buf[..]));
        current := fat[current];
        n := n + 1;
      }
      assert s[..n] == s;
    }

    // Reads one cluster of the chain s behind the n clusters already in the buffer.
    method CopyNext(current: ClusterNo, buf: array<byte>, ghost s: seq<ClusterNo>, n: nat, ghost before: seq<byte>)
      requires Valid() && n < |s| && s[n] == current && CLUSTER_SIZE * |s| <= buf.Length == |before|
      requires buf[..] == Gather(ViewOf(Content()).bytes, s[..n]) + before[CLUSTER_SIZE * n..]
      modifies buf
      ensures buf[..] == Gather(ViewOf(Content()).bytes, s[..n + 1]) + before[CLUSTER_SIZE * (n + 1)..]
    {
      hide ViewOf, Gather, ClusterAt;
      ghost var bytes := ViewOf(Content()).bytes;
      var data := ReadCluster(current);
      ClusterBytes(Content(), current);
      CopyCluster(buf, n, data);
      Splice(Gather(bytes, s[..n]), data, before);
      GatherStep(bytes, s, n);
    }

    // memcpy of one cluster to offset n clusters into the buffer.
    method CopyCluster(buf: array<byte>, n: nat, data: Cluster)
      requires CLUSTER_SIZE * (n + 1) <= buf.Length
      modifies buf
      ensures buf[..] == old(buf[..])[..CLUSTER_SIZE * n] + data + old(buf[..])[CLUSTER_SIZE * (n + 1)..]
    {
      for k := 0 to CLUSTER_SIZE
        invariant forall j :: 0 <= j < buf.Length ==>
          buf[j] == if CLUSTER_SIZE * n <= j < CLUSTER_SIZE * n + k then data[j - CLUSTER_SIZE * n] else old(buf[j])
      {
        buf[CLUSTER_SIZE * n + k] := data[k];
      }
    }

    // Reads the subdirectory a table lists under a name into the caller's table.
    method ReadDirectory(req: Request, buf: array<DirEntry>) returns (ret: int)
      requires Valid() && req.parent < DISK_CLUSTERS && buf.Length == TABLE_SIZE
      requires var t := TableAt(Content(), req.parent);
        ReadDirectoryCode(t, req) == 0 ==> t[ScanName(t, req.name, 0)].Head() < DISK_CLUSTERS
      modifies buf
      ensures ret == ReadDirectoryCode(TableAt(Content(), req.parent), req)
      ensures ret != 0 ==> buf[..] == old(buf[..])
      ensures ret == 0 ==>
        var t := TableAt(Content(), req.parent);
        buf[..] == TableAt(Content(), t[ScanName(t, req.name, 0)].Head())
    {
      hide TableAt, ScanName;
      var dir := ReadTable(req.parent);
      var i := FindName(dir, req.name);
      if i == TABLE_SIZE {
        return 2;
      }
      if dir[i].attribute / ATTR_SUBDIRECTORY % 2 == 0 {
        return 1;
      }
      if req.bufferSize < dir[i].fileSize {
        return -1;
      }
      ReadTableInto(dir[i].Head(), buf);
      return 0;
    }

    method FindName(dir: Table, name: Name) returns (i: nat)
      ensures i == ScanName(dir, name, 0)
    {
      i := 0;
      while i < TABLE_SIZE && dir[i].name != name
        invariant i <= TABLE_SIZE && ScanName(dir, name, 0) == ScanName(dir, name, i)
      {
        i := i + 1;
      }
    }

    method ReadTableInto(c: nat, buf: array<DirEntry>)
      requires Valid() && c < DISK_CLUSTERS && buf.Length == TABLE_SIZE
      modifies buf
      ensures buf[..] == TableAt(Content(), c)
    {
      var t := ReadTable(c);
      forall k | 0 <= k < TABLE_SIZE {
        buf[k] := t[k];
      }
    }

    // Marks the reserved entries of the cached table and empties the rest.
    method InitFat()
      requires Valid()
      modifies fat
      ensures fat[..] == EmptyFat()
    {
      fat[0], fat[1] := CLUSTER_0_VALUE, CLUSTER_1_VALUE;
      for i := 2 to CLUSTER_MAP_SIZE
        invariant fat[0] == CLUSTER_0_VALUE && fat[1] == CLUSTER_1_VALUE
        invariant forall j :: 2 <= j < i ==> fat[j] == EMPTY_ENTRY
      {
        fat[i] := EMPTY_ENTRY;
      }
    }

    // Clears the buffered table and fills in its self entry.
    method InitDirectoryTable(name: Name, c: ClusterNo)
      requires Valid()
      modifies dirTableBuf
      ensures dirTableBuf[..] == NewFolder(name, c)
    {
      forall i | 0 <= i < TABLE_SIZE {
        dirTableBuf[i] := ZERO_ENTRY;
      }
      dirTableBuf[0] := MakeEntry(Key(name, NO_EXT), ATTR_SUBDIRECTORY, 0, c, 0);
    }

    // Formats the device; rootName is the eight bytes starting at the string "ROOT".
    method CreateFat32(rootName: Name)
      requires Valid()
      modifies dev, dev.blocks, fat, dirTableBuf
      ensures fat[..] == EmptyFat()
      ensures dev.log == old(dev.log) + FormatWrites(rootName)
      ensures Content() == Replay(old(Content()), FormatWrites(rootName))
    {
      ghost var boot := [BlockWrite(BOOT_SECTOR, Signature())];
      assert Signature()[0..BLOCK_SIZE] == Signature();
      assert SpanWrites(Signature(), BOOT_SECTOR, 1) == boot;
      dev.WriteBlocks(Signature(), BOOT_SECTOR, 1);
      hide EmptyFat, Signature, FatWrites, TableWrites, Replay, NewFolder;
      InitFat();
      WriteFat();
      InitDirectoryTable(rootName, ROOT_CLUSTER);
      WriteTable(ROOT_CLUSTER, dirTableBuf[..]);
      ReplayConcat(old(Content()), boot, FatWrites(EmptyFat()));
      ReplayConcat(old(Content()), boot + FatWrites(EmptyFat()),
                   TableWrites(ROOT_CLUSTER, NewFolder(rootName, ROOT_CLUSTER)));
    }

    // Mounts the device, formatting it first when the signature is missing.
    method Initialize(rootName: Name)
      requires Valid()
      modifies dev, dev.blocks, fat, dirTableBuf
      ensures old(Content())[BOOT_SECTOR] == Signature() ==>
        Content() == old(Content()) && dev.log == old(dev.log) && fat[..] == FatOf(Content())
      ensures old(Content())[BOOT_SECTOR] != Signature() ==>
        && dev.log == old(dev.log) + FormatWrites(rootName) && fat[..] == EmptyFat()
        && Content() == Replay(old(Content()), FormatWrites(rootName))
      ensures old(Sound(Content())) ==> Mounted(Now()) && Content() == old(Content())
      ensures old(Mounted(Now())) ==> Now() == old(Now())
    {
      var bootSector := dev.ReadBlocks(BOOT_SECTOR, 1);
      if bootSector != Signature() {
        CreateFat32(rootName);
      } else {
        hide DecodeFat, ClusterAt;
        var data := ReadCluster(FAT_CLUSTER);
        forall i | 0 <= i < CLUSTER_MAP_SIZE {
          fat[i] := DecodeFat(data)[i];
        }
      }
    }
  }
}
