/**
 * The file-system operations, on values: which result code each one returns, what it leaves in the
 * cached allocation table, and which block writes it issues, in order.
 */
module Operations {
  import opened Machine
  import opened Layout
  import opened Chains
  import opened Volume
  import opened Disk

  datatype Request = Request(name: Name, ext: Ext, parent: uint32, bufferSize: uint32) {
    function Id(): Key {
      Key(name, ext)
    }
  }

  const SIGNATURE_TEXT :=
    "Course          " + "Designed by     " + "Lab Sister ITB  " + "Made with <3    " + "-----------2024\n"

  function SignatureByte(i: nat): byte {
    if i < |SIGNATURE_TEXT| then SIGNATURE_TEXT[i] as int % 0x100
    else if i == BLOCK_SIZE - 2 then 0x4F
    else if i == BLOCK_SIZE - 1 then 0x6B
    else 0
  }

  function Signature(): Block {
    seq(BLOCK_SIZE, i requires 0 <= i => SignatureByte(i))
  }

  // What the device holds.

  function FatOf(img: Image): Fat {
    DecodeFat(ClusterAt(img, FAT_CLUSTER))
  }

  function TableAt(img: Image, c: nat): Table
    requires c < DISK_CLUSTERS
  {
    DecodeTable(ClusterAt(img, c))
  }

  function ViewOf(img: Image): Vol {
    Vol(FatOf(img), seq<Cluster>(CLUSTER_MAP_SIZE, c requires 0 <= c < CLUSTER_MAP_SIZE => ClusterAt(img, c)),
        seq<Table>(CLUSTER_MAP_SIZE, c requires 0 <= c < CLUSTER_MAP_SIZE => TableAt(img, c)))
  }

  // The eight-bit ceiling; conversion to uint8_t keeps the low byte.
  function Ceil(n: real): byte
    requires 0.0 <= n
  {
    if n.Floor as real == n then n.Floor % 0x100 else (n.Floor + 1) % 0x100
  }

  // The low byte of the cluster count; exact precisely while the count fits in eight bits.
  lemma CeilExact(size: nat)
    ensures Ceil(size as real / CLUSTER_SIZE as real) == ClusterCount(size) % 0x100
    ensures Ceil(size as real / CLUSTER_SIZE as real) == ClusterCount(size) <==> size <= MAX_FILE_SIZE
  {
    var q, r := size / CLUSTER_SIZE, size % CLUSTER_SIZE;
    assert size as real / 2048.0 == q as real + r as real / 2048.0;
    assert (size as real / 2048.0).Floor == q;
  }

  // Allocation.

  function FreeSlotFrom(t: Table, from: nat): (i: nat)
    requires from <= TABLE_SIZE
    ensures from <= i <= TABLE_SIZE
    ensures i < TABLE_SIZE ==> !t[i].Live()
    ensures forall j :: from <= j < i ==> t[j].Live()
    decreases TABLE_SIZE - from
  {
    if from == TABLE_SIZE || !t[from].Live() then from else FreeSlotFrom(t, from + 1)
  }

  function FreeSlot(t: Table): (i: nat)
    ensures 2 <= i <= TABLE_SIZE
    ensures i < TABLE_SIZE ==> !t[i].Live()
  {
    FreeSlotFrom(t, 2)
  }

  // The free clusters below n, in ascending order.
  function FreeBelow(fat: Fat, n: nat): seq<ClusterNo>
    requires n <= CLUSTER_MAP_SIZE
  {
    if n == 0 then [] else FreeBelow(fat, n - 1) + if fat[n - 1] == EMPTY_ENTRY then [n - 1] else []
  }

  function Needed(req: Request): nat {
    if req.bufferSize == 0 then 1 else Ceil(req.bufferSize as real / CLUSTER_SIZE as real)
  }

  function WriteCode(fat: Fat, t: Table, req: Request): int
    requires req.parent < CLUSTER_MAP_SIZE
  {
    if fat[req.parent] != END_OF_FILE then 2
    else if Scan(t, req.Id(), 2) < TABLE_SIZE then 1
    else if FreeSlot(t) == TABLE_SIZE then -1
    else if |FreeBelow(fat, CLUSTER_MAP_SIZE)| < Needed(req) then -1
    else 0
  }

  function Chosen(fat: Fat, req: Request): seq<ClusterNo>
    requires Needed(req) <= |FreeBelow(fat, CLUSTER_MAP_SIZE)|
  {
    FreeBelow(fat, CLUSTER_MAP_SIZE)[..Needed(req)]
  }

  // The block writes of a successful write.

  function NewFolder(name: Name, c: ClusterNo): Table {
    seq(TABLE_SIZE, i => if i == 0 then MakeEntry(Key(name, NO_EXT), ATTR_SUBDIRECTORY, 0, c, 0) else ZERO_ENTRY)
  }

  function NewEntry(req: Request, c: ClusterNo): DirEntry {
    MakeEntry(req.Id(), if req.bufferSize == 0 then ATTR_SUBDIRECTORY else 0, UATTR_NOT_EMPTY, c, req.bufferSize)
  }

  function Piece(data: seq<byte>, j: nat): Cluster
    requires CLUSTER_SIZE * (j + 1) <= |data|
  {
    data[CLUSTER_SIZE * j..CLUSTER_SIZE * j + CLUSTER_SIZE]
  }

  function FatWrites(fat: Fat): (log: seq<BlockWrite>)
    ensures |log| == CLUSTER_BLOCK_COUNT
  {
    ClusterWrites(FAT_CLUSTER, EncodeFat(fat))
  }

  function TableWrites(c: ClusterNo, t: Table): (log: seq<BlockWrite>)
    ensures |log| == CLUSTER_BLOCK_COUNT
  {
    ClusterWrites(c, EncodeTable(t))
  }

  // The first j clusters of a file: the link first, then the data.
  function FileWrites(fat: Fat, s: seq<ClusterNo>, data: seq<byte>, j: nat): seq<BlockWrite>
    requires j <= |s| && CLUSTER_SIZE * |s| <= |data|
  {
    if j == 0 then []
    else FileWrites(fat, s, data, j - 1) + FatWrites(Link(fat, s, j)) + ClusterWrites(s[j - 1], Piece(data, j - 1))
  }

  function FolderWrites(fat: Fat, name: Name, c: ClusterNo): seq<BlockWrite> {
    TableWrites(c, NewFolder(name, c)) + FatWrites(Link(fat, [c], 1))
  }

  function PrepareWrites(fat: Fat, req: Request, s: seq<ClusterNo>, data: seq<byte>): seq<BlockWrite>
    requires s != [] && (req.bufferSize != 0 ==> CLUSTER_SIZE * |s| <= |data|)
  {
    if req.bufferSize == 0 then FolderWrites(fat, req.name, s[0]) else FileWrites(fat, s, data, |s|)
  }

  function StoredTable(t: Table, req: Request, c: ClusterNo): Table
    requires FreeSlot(t) < TABLE_SIZE
  {
    t[FreeSlot(t) := NewEntry(req, c)]
  }

  // The largest size up to which every size is a float.
  const FLOAT_EXACT := 0x100_0000

  // The sizes whose cluster count C defines and is not zero: all up to 255 clusters; beyond, those that
  // are exact as floats, no multiple of a cluster, and whose truncated count is not zero.
  predicate Sized(size: nat) {
    size <= MAX_FILE_SIZE
    || (size <= FLOAT_EXACT && size % CLUSTER_SIZE != 0 && ClusterCount(size) % 0x100 != 0)
  }

  // The source buffer holds every cluster that will be copied out of it.
  predicate Covers(req: Request, data: seq<byte>) {
    Sized(req.bufferSize) && (req.bufferSize != 0 ==> CLUSTER_SIZE * Needed(req) <= |data|)
  }

  lemma NeededBounds(req: Request)
    requires Sized(req.bufferSize)
    ensures 1 <= Needed(req) <= 255
    ensures req.bufferSize != 0 ==> Needed(req) == ClusterCount(req.bufferSize) % 0x100
    ensures 0 < req.bufferSize <= MAX_FILE_SIZE ==> Needed(req) == ClusterCount(req.bufferSize)
  {
    CeilExact(req.bufferSize);
  }

  predicate Writable(fat: Fat, t: Table, req: Request, data: seq<byte>) {
    req.parent < CLUSTER_MAP_SIZE && Covers(req, data) && 1 <= Needed(req) && WriteCode(fat, t, req) == 0
  }

  function WriteLog(fat: Fat, t: Table, req: Request, data: seq<byte>): seq<BlockWrite>
    requires Writable(fat, t, req, data)
  {
    var s := Chosen(fat, req);
    PrepareWrites(fat, req, s, data) + TableWrites(req.parent, StoredTable(t, req, s[0]))
  }

  // What an operation returns, leaves in the cached table, and writes to the device.
  datatype Effect = Effect(code: int, fat: Fat, log: seq<BlockWrite>)

  function WriteEffect(fat: Fat, t: Table, req: Request, data: seq<byte>): Effect
    requires req.parent < CLUSTER_MAP_SIZE && Covers(req, data)
  {
    NeededBounds(req);
    if WriteCode(fat, t, req) == 0 then
      Effect(0, Link(fat, Chosen(fat, req), Needed(req)), WriteLog(fat, t, req, data))
    else
      Effect(WriteCode(fat, t, req), fat, [])
  }

  // The block writes of a successful delete.

  // Following the links from c, the walk stays inside the map and meets the end mark.
  predicate Ends(fat: Fat, c: uint32) {
    c == END_OF_FILE || Terminated(fat, Chain(fat, c))
  }

  function DeleteLog(fat: Fat, t: Table, req: Request): seq<BlockWrite>
    requires req.parent < CLUSTER_MAP_SIZE && Scan(t, req.Id(), 0) < TABLE_SIZE
  {
    var i := Scan(t, req.Id(), 0);
    TableWrites(req.parent, t[i := ZERO_ENTRY]) + FatWrites(Release(fat, Chain(fat, t[i].Head())))
  }

  function DeleteEffect(fat: Fat, t: Table, req: Request): Effect
    requires req.parent < CLUSTER_MAP_SIZE
  {
    var i := Scan(t, req.Id(), 0);
    if i < TABLE_SIZE then Effect(0, Release(fat, Chain(fat, t[i].Head())), DeleteLog(fat, t, req))
    else Effect(1, fat, [])
  }

  lemma ChainLinks(fat: Fat, c: uint32)
    requires Ends(fat, c)
    ensures var s := Chain(fat, c);
      && Distinct(s)
      && c == (if s != [] then s[0] else END_OF_FILE)
      && forall n: nat :: n < |s| ==> fat[s[n]] == NextLink(s, n)
  {
    var s := Chain(fat, c);
    if c != END_OF_FILE {
      WalkDistinct(fat, c, CLUSTER_MAP_SIZE);
      HeadInChain(fat, c);
      forall n: nat | n < |s| ensures fat[s[n]] == NextLink(s, n) {
        WalkSteps(fat, c, CLUSTER_MAP_SIZE, n);
      }
    }
  }

  // Delete may follow the links of whatever entry it finds.
  predicate Deletable(fat: Fat, t: Table, req: Request) {
    var i := Scan(t, req.Id(), 0);
    req.parent < CLUSTER_MAP_SIZE && (i < TABLE_SIZE ==> Ends(fat, t[i].Head()))
  }

  lemma {:induction false} FreePrefix(fat: Fat, i: nat, n: nat)
    requires i <= n <= CLUSTER_MAP_SIZE
    ensures FreeBelow(fat, i) <= FreeBelow(fat, n)
  {
    if i < n {
      FreePrefix(fat, i, n - 1);
    }
  }

  lemma FileStep(img: Image, fat: Fat, s: seq<ClusterNo>, data: seq<byte>, j: nat)
    requires j < |s| && CLUSTER_SIZE * |s| <= |data|
    ensures FileWrites(fat, s, data, j + 1)
         == FileWrites(fat, s, data, j) + FatWrites(Link(fat, s, j + 1)) + ClusterWrites(s[j], Piece(data, j))
    ensures Replay(img, FileWrites(fat, s, data, j + 1))
         == Replay(Replay(Replay(img, FileWrites(fat, s, data, j)), FatWrites(Link(fat, s, j + 1))),
                   ClusterWrites(s[j], Piece(data, j)))
  {
    var before, links := FileWrites(fat, s, data, j), FatWrites(Link(fat, s, j + 1));
    hide Link, Replay, FatWrites, ClusterWrites;
    ReplayConcat(img, before, links);
    ReplayConcat(img, before + links, ClusterWrites(s[j], Piece(data, j)));
  }

  // The cached table and the device.
  datatype State = State(fat: Fat, img: Image)

  datatype Op = WriteOp(req: Request, data: seq<byte>) | DeleteOp(req: Request)

  // What the C code needs to run at all: a mapped parent, and a buffer that covers a write.
  predicate Runnable(op: Op) {
    op.req.parent < CLUSTER_MAP_SIZE && (op.WriteOp? ==> Covers(op.req, op.data))
  }

  function EffectOf(s: State, op: Op): Effect
    requires Runnable(op)
  {
    match op
    case WriteOp(req, data) => WriteEffect(s.fat, TableAt(s.img, req.parent), req, data)
    case DeleteOp(req) => DeleteEffect(s.fat, TableAt(s.img, req.parent), req)
  }

  function After(s: State, op: Op): State
    requires Runnable(op)
  {
    State(EffectOf(s, op).fat, Replay(s.img, EffectOf(s, op).log))
  }

  // A run of the operation from s that returned ret, ended in s' and issued the new part of the log.
  ghost predicate Performed(s: State, op: Op, ret: int, s': State, log: seq<BlockWrite>, log': seq<BlockWrite>)
    requires Runnable(op)
  {
    ret == EffectOf(s, op).code && s' == After(s, op) && log' == log + EffectOf(s, op).log
  }

  lemma DeleteFinds(s: State, req: Request, log: seq<BlockWrite>)
    requires req.parent < CLUSTER_MAP_SIZE && Scan(TableAt(s.img, req.parent), req.Id(), 0) < TABLE_SIZE
    ensures var t := TableAt(s.img, req.parent);
      Performed(s, DeleteOp(req), 0,
                State(Release(s.fat, Chain(s.fat, t[Scan(t, req.Id(), 0)].Head())),
                      Replay(s.img, DeleteLog(s.fat, t, req))),
                log, log + DeleteLog(s.fat, t, req))
  {
    hide Replay, DeleteLog, Scan, TableAt, Chain, Release;
  }

  lemma DeleteMisses(s: State, req: Request, log: seq<BlockWrite>)
    requires req.parent < CLUSTER_MAP_SIZE && Scan(TableAt(s.img, req.parent), req.Id(), 0) == TABLE_SIZE
    ensures Performed(s, DeleteOp(req), 1, s, log, log)
  {
    hide DeleteLog, Scan, TableAt, Chain, Release;
    assert log + [] == log;
  }

  // Reading. The scan starts at the directory's own entry.

  function ReadCode(fat: Fat, t: Table, req: Request): int
    requires req.parent < CLUSTER_MAP_SIZE
  {
    var i := Scan(t, req.Id(), 0);
    if fat[req.parent] != END_OF_FILE || i == TABLE_SIZE then 2
    else if t[i].attribute == ATTR_SUBDIRECTORY then 1
    else if req.bufferSize / CLUSTER_SIZE < Ceil(t[i].fileSize as real / CLUSTER_SIZE as real) then -1
    else 0
  }

  // Once read's checks pass, the walk it starts ends, and copies at most size bytes.
  predicate Readable(fat: Fat, t: Table, req: Request, size: nat)
    requires req.parent < CLUSTER_MAP_SIZE
  {
    ReadCode(fat, t, req) == 0 ==>
      var c := t[Scan(t, req.Id(), 0)].Head();
      Ends(fat, c) && CLUSTER_SIZE * |Chain(fat, c)| <= size
  }

  // The first slot whose eight name bytes match; the extension is not compared.
  function ScanName(t: Table, name: Name, from: nat): (i: nat)
    requires from <= TABLE_SIZE
    ensures from <= i <= TABLE_SIZE
    ensures i < TABLE_SIZE ==> t[i].name == name
    ensures forall j :: from <= j < i ==> t[j].name != name
    decreases TABLE_SIZE - from
  {
    if from == TABLE_SIZE || t[from].name == name then from else ScanName(t, name, from + 1)
  }

  function ReadDirectoryCode(t: Table, req: Request): int {
    var i := ScanName(t, req.name, 0);
    if i == TABLE_SIZE then 2
    else if t[i].attribute / ATTR_SUBDIRECTORY % 2 == 0 then 1
    else if req.bufferSize < t[i].fileSize then -1
    else 0
  }

  // Formatting: the signature, a table with nothing allocated, and the root directory.

  function EmptyFat(): Fat {
    seq(CLUSTER_MAP_SIZE, i => if i == 0 then CLUSTER_0_VALUE else if i == 1 then CLUSTER_1_VALUE else EMPTY_ENTRY)
  }

  function FormatWrites(name: Name): seq<BlockWrite> {
    [BlockWrite(BOOT_SECTOR, Signature())] + FatWrites(EmptyFat())
    + TableWrites(ROOT_CLUSTER, NewFolder(name, ROOT_CLUSTER))
  }
}
