/**
 * The meaning of a volume: which node every absolute path names, when a volume is well formed, and
 * the two central facts about well-formed volumes. Directories form a tree (PathUnique), and changes
 * confined to clusters no reachable entry owns are invisible (Frame).
 */
module Volume {
  import opened Machine
  import opened Layout
  import opened Chains

  type Clusters = s: seq<Cluster> | |s| == CLUSTER_MAP_SIZE witness seq<Cluster>(CLUSTER_MAP_SIZE, _ => BLANK)
  type Tables = s: seq<Table> | |s| == CLUSTER_MAP_SIZE witness seq<Table>(CLUSTER_MAP_SIZE, _ => BLANK_TABLE)

  const BLANK: Cluster := seq(CLUSTER_SIZE, _ => 0)
  const BLANK_TABLE: Table := seq(TABLE_SIZE, _ => ZERO_ENTRY)

  // The largest size whose cluster count fits the driver's eight-bit counter.
  const MAX_FILE_SIZE := 255 * CLUSTER_SIZE

  // Every mapped cluster, read both as raw bytes and as a directory table.
  datatype Vol = Vol(fat: Fat, bytes: Clusters, table: Tables)

  // The first slot at or after `from` carrying the key; TABLE_SIZE when there is none. Some lemmas about
  // recursive functions take a parameter their requires pins to a constant: a literal argument would make
  // the verifier unroll the recursion to its end.
  function Scan(t: Table, key: Key, from: nat): (i: nat)
    requires from <= TABLE_SIZE
    ensures from <= i <= TABLE_SIZE
    ensures i < TABLE_SIZE ==> t[i].Id() == key
    ensures forall j :: from <= j < i ==> t[j].Id() != key
    decreases TABLE_SIZE - from
  {
    if from == TABLE_SIZE || t[from].Id() == key then from else Scan(t, key, from + 1)
  }

  // The live entry a table lists under a key.
  function Find(t: Table, key: Key): Option<DirEntry> {
    var i := Scan(t, key, 2);
    if i < TABLE_SIZE && t[i].Live() then Some(t[i]) else None
  }

  function Gather(bytes: Clusters, s: seq<ClusterNo>): (data: seq<byte>)
    ensures |data| == CLUSTER_SIZE * |s|
  {
    if s == [] then [] else Gather(bytes, s[..|s| - 1]) + bytes[s[|s| - 1]]
  }

  function ClusterCount(size: nat): nat {
    (size + CLUSTER_SIZE - 1) / CLUSTER_SIZE
  }

  // The name space.

  datatype Node = File(size: uint32, data: seq<byte>) | Folder

  // The cluster of the subdirectory a table lists under a key; 0 when it lists none.
  function Sub(t: Table, key: Key): ClusterNo {
    match Find(t, key)
    case Some(e) => if e.IsFolder() && e.Head() < CLUSTER_MAP_SIZE then e.Head() else 0
    case None => 0
  }

  // The cluster of the directory an absolute path names; 0 when it names none.
  ghost function DirAt(v: Vol, path: seq<Key>): ClusterNo {
    if path == [] then ROOT_CLUSTER
    else
      var d := DirAt(v, path[..|path| - 1]);
      if d == 0 then 0 else Sub(v.table[d], path[|path| - 1])
  }

  ghost function NodeOf(v: Vol, e: DirEntry): Node {
    if e.IsFolder() then Folder else File(e.fileSize, Gather(v.bytes, Chain(v.fat, e.Head())))
  }

  // The live entry an absolute path below the root names.
  ghost function EntryAt(v: Vol, path: seq<Key>): Option<DirEntry>
    requires path != []
  {
    var d := DirAt(v, path[..|path| - 1]);
    if d == 0 then None else Find(v.table[d], path[|path| - 1])
  }

  // What an absolute path names.
  ghost function Lookup(v: Vol, path: seq<Key>): Option<Node> {
    if path == [] then Some(Folder)
    else
      match EntryAt(v, path)
      case Some(e) => Some(NodeOf(v, e))
      case None => None
  }

  lemma Step(v: Vol, q: seq<Key>, k: Key)
    ensures DirAt(v, q + [k]) == if DirAt(v, q) == 0 then 0 else Sub(v.table[DirAt(v, q)], k)
    ensures EntryAt(v, q + [k]) == if DirAt(v, q) == 0 then None else Find(v.table[DirAt(v, q)], k)
  {
    assert (q + [k])[..|q + [k]| - 1] == q;
  }

  // How an operation may change the tree. Surviving directories keep their clusters and self entries.

  ghost predicate KeepsFolders(v: Vol, w: Vol) {
    forall p :: DirAt(v, p) != 0 && DirAt(w, p) != 0 ==>
      DirAt(w, p) == DirAt(v, p) && w.table[DirAt(v, p)][0] == v.table[DirAt(v, p)][0]
  }

  ghost predicate SameTree(v: Vol, w: Vol) {
    KeepsFolders(v, w) && forall p :: Lookup(w, p) == Lookup(v, p) && DirAt(w, p) == DirAt(v, p)
  }

  ghost predicate AddsNode(v: Vol, w: Vol, path: seq<Key>, node: Node) {
    && KeepsFolders(v, w)
    && (forall p :: Lookup(w, p) == if p == path then Some(node) else Lookup(v, p))
    && Lookup(v, path) == None
    && (forall p :: p != path ==> DirAt(w, p) == DirAt(v, p))
  }

  ghost predicate RemovesSubtree(v: Vol, w: Vol, path: seq<Key>) {
    && KeepsFolders(v, w)
    && (forall p :: Lookup(w, p) == if path <= p then None else Lookup(v, p))
    && Lookup(v, path) != None
    && (forall p :: DirAt(w, p) == if path <= p then 0 else DirAt(v, p))
  }

  lemma SameAsItself(v: Vol)
    ensures SameTree(v, v)
  {
  }

  lemma SameThenAdds(u: Vol, v: Vol, w: Vol, path: seq<Key>, node: Node)
    requires SameTree(u, v) && AddsNode(v, w, path, node)
    ensures AddsNode(u, w, path, node)
  {
    hide Lookup, DirAt;
  }

  lemma RemovesThenSame(u: Vol, v: Vol, w: Vol, path: seq<Key>)
    requires RemovesSubtree(u, v, path) && SameTree(v, w)
    ensures RemovesSubtree(u, w, path)
  {
    hide Lookup, DirAt;
  }

  // Well-formedness.

  ghost predicate Reach(v: Vol, d: ClusterNo) {
    d != 0 && exists path :: DirAt(v, path) == d
  }

  predicate LiveAt(v: Vol, d: ClusterNo, i: nat) {
    2 <= i < TABLE_SIZE && v.table[d][i].Live()
  }

  // Cluster x belongs to the chain of the live entry in slot i of reachable directory d.
  ghost predicate Owns(v: Vol, d: ClusterNo, i: nat, x: ClusterNo) {
    Reach(v, d) && LiveAt(v, d, i) && x in Chain(v.fat, v.table[d][i].Head())
  }

  ghost predicate Visible(v: Vol, x: ClusterNo) {
    x == ROOT_CLUSTER || exists d: ClusterNo, i: nat :: Owns(v, d, i, x)
  }

  predicate SelfOk(e: DirEntry, d: ClusterNo) {
    e.IsFolder() && !e.Live() && e.ext == NO_EXT && e.Head() == d && e.fileSize == 0
  }

  predicate TableOk(t: Table, d: ClusterNo) {
    && SelfOk(t[0], d)
    && t[1] == ZERO_ENTRY
    && (forall i :: 2 <= i < TABLE_SIZE ==> t[i].Live() || t[i] == ZERO_ENTRY)
    && (forall i :: 2 <= i < TABLE_SIZE && t[i].Live() ==> t[i].Id() != NO_KEY)
    && (forall i, j :: 2 <= i < j < TABLE_SIZE && t[i].Live() && t[j].Live() ==> t[i].Id() != t[j].Id())
  }

  predicate EmptyTable(t: Table, d: ClusterNo) {
    SelfOk(t[0], d) && forall i :: 1 <= i < TABLE_SIZE ==> t[i] == ZERO_ENTRY
  }

  predicate EntryOk(v: Vol, e: DirEntry) {
    && ChainOk(v.fat, e.Head())
    && if e.IsFolder() then
         && e.fileSize == 0
         && |Chain(v.fat, e.Head())| == 1
         && v.table[Chain(v.fat, e.Head())[0]][0].name == e.name
       else
         && e.attribute == 0
         && 1 <= e.fileSize <= MAX_FILE_SIZE
         && |Chain(v.fat, e.Head())| == ClusterCount(e.fileSize)
  }

  ghost predicate FolderOk(v: Vol, d: ClusterNo) {
    TableOk(v.table[d], d) && forall i: nat :: LiveAt(v, d, i) ==> EntryOk(v, v.table[d][i])
  }

  predicate Reserved(fat: Fat) {
    fat[0] == CLUSTER_0_VALUE && fat[1] == CLUSTER_1_VALUE && fat[ROOT_CLUSTER] == END_OF_FILE
  }

  ghost predicate Unshared(v: Vol) {
    forall x: ClusterNo, d: ClusterNo, i: nat, d': ClusterNo, i': nat ::
      Owns(v, d, i, x) && Owns(v, d', i', x) ==> d == d' && i == i'
  }

  // Everything reachable from the root is sound; unreachable clusters may hold anything.
  ghost predicate Weak(v: Vol) {
    Reserved(v.fat) && Unshared(v) && forall d: ClusterNo :: Reach(v, d) ==> FolderOk(v, d)
  }

  // In addition no cluster is leaked: whatever is marked used belongs to a live entry.
  ghost predicate Strong(v: Vol) {
    Weak(v) && forall x: ClusterNo :: 3 <= x && v.fat[x] != EMPTY_ENTRY ==> Visible(v, x)
  }

  // Basic consequences.

  lemma FindLive(t: Table, d: ClusterNo, i: nat)
    requires TableOk(t, d) && 2 <= i < TABLE_SIZE && t[i].Live()
    ensures Scan(t, t[i].Id(), 2) == i && Find(t, t[i].Id()) == Some(t[i])
  {
  }

  lemma HeadInChain(fat: Fat, c: nat)
    requires Chain(fat, c) != []
    ensures c < CLUSTER_MAP_SIZE && Chain(fat, c)[0] == c && c in Chain(fat, c)
  {
    assert Chain(fat, c)[0] == c;
  }

  // A directory below the root is owned by the entry that names it.
  lemma FolderOwned(v: Vol, path: seq<Key>) returns (d: ClusterNo, i: nat)
    requires Weak(v) && path != [] && DirAt(v, path) != 0
    ensures d == DirAt(v, path[..|path| - 1]) && d != 0
    ensures i < TABLE_SIZE && v.table[d][i].Id() == path[|path| - 1]
    ensures v.table[d][i].IsFolder() && v.table[d][i].Head() == DirAt(v, path)
    ensures Owns(v, d, i, DirAt(v, path)) && 3 <= DirAt(v, path)
  {
    d := DirAt(v, path[..|path| - 1]);
    i := Scan(v.table[d], path[|path| - 1], 2);
    assert Reach(v, d);
    assert LiveAt(v, d, i);
    HeadInChain(v.fat, v.table[d][i].Head());
  }

  lemma ReachVisible(v: Vol, path: seq<Key>)
    requires Weak(v) && DirAt(v, path) != 0
    ensures Reach(v, DirAt(v, path)) && Visible(v, DirAt(v, path))
  {
    if path != [] {
      var d, i := FolderOwned(v, path);
    }
  }

  lemma SameParent(v: Vol, p: seq<Key>, q: seq<Key>)
    requires Weak(v) && p != [] && q != [] && DirAt(v, p) == DirAt(v, q) != 0
    ensures DirAt(v, p[..|p| - 1]) == DirAt(v, q[..|q| - 1]) != 0 && p[|p| - 1] == q[|q| - 1]
  {
    var d, i := FolderOwned(v, p);
    var d', i' := FolderOwned(v, q);
    hide DirAt, Sub, Find, Owns;
  }

  lemma RootAlone(v: Vol, p: seq<Key>)
    requires Weak(v)
    ensures DirAt(v, []) == ROOT_CLUSTER
    ensures DirAt(v, p) == ROOT_CLUSTER ==> p == []
  {
    if p != [] && DirAt(v, p) == ROOT_CLUSTER {
      var _, _ := FolderOwned(v, p);
    }
  }

  // No file's chain runs through a directory.
  lemma FolderNotInFile(v: Vol, path: seq<Key>, d: ClusterNo, i: nat)
    requires Weak(v) && DirAt(v, path) != 0
    requires Reach(v, d) && LiveAt(v, d, i) && !v.table[d][i].IsFolder()
    ensures DirAt(v, path) !in Chain(v.fat, v.table[d][i].Head())
  {
    if DirAt(v, path) in Chain(v.fat, v.table[d][i].Head()) {
      assert Owns(v, d, i, DirAt(v, path));
      if path != [] {
        var d', i' := FolderOwned(v, path);
      }
    }
  }

  // The directories of a well-formed volume form a tree: no directory has two paths.
  lemma {:induction false} PathUnique(v: Vol, p: seq<Key>, q: seq<Key>)
    requires Weak(v) && DirAt(v, p) == DirAt(v, q) != 0
    ensures p == q
    decreases |p|
  {
    hide DirAt, Weak;
    RootAlone(v, p);
    RootAlone(v, q);
    if p != [] && q != [] {
      SameParent(v, p, q);
      PathUnique(v, p[..|p| - 1], q[..|q| - 1]);
      assert p == p[..|p| - 1] + [p[|p| - 1]] && q == q[..|q| - 1] + [q[|q| - 1]];
    }
  }

  // Framing.

  ghost predicate Agree(v: Vol, w: Vol) {
    && Reserved(w.fat)
    && forall x: ClusterNo :: Visible(v, x) ==>
         w.fat[x] == v.fat[x] && w.bytes[x] == v.bytes[x] && w.table[x] == v.table[x]
  }

  lemma {:induction false} GatherFrame(b: Clusters, b': Clusters, s: seq<ClusterNo>)
    requires forall x :: x in s ==> b'[x] == b[x]
    ensures Gather(b', s) == Gather(b, s)
  {
    if s != [] {
      GatherFrame(b, b', s[..|s| - 1]);
    }
  }

  // An entry means the same in any volume that agrees on its chain.
  lemma EntryFrame(v: Vol, w: Vol, e: DirEntry)
    requires EntryOk(v, e)
    requires forall x :: x in Chain(v.fat, e.Head()) ==> w.fat[x] == v.fat[x]
    ensures Chain(w.fat, e.Head()) == Chain(v.fat, e.Head())
    ensures (forall x :: x in Chain(v.fat, e.Head()) ==> w.bytes[x] == v.bytes[x]) ==> NodeOf(w, e) == NodeOf(v, e)
    ensures (forall x :: x in Chain(v.fat, e.Head()) ==> w.table[x][0].name == v.table[x][0].name) ==> EntryOk(w, e)
  {
    var s := Chain(v.fat, e.Head());
    WalkFrame(v.fat, w.fat, e.Head(), CLUSTER_MAP_SIZE);
    if forall x :: x in s ==> w.bytes[x] == v.bytes[x] {
      GatherFrame(v.bytes, w.bytes, s);
    }
  }

  lemma {:induction false} DirAtFrame(v: Vol, w: Vol, p: seq<Key>)
    requires Weak(v) && Agree(v, w)
    ensures DirAt(w, p) == DirAt(v, p)
  {
    if p != [] {
      var q := p[..|p| - 1];
      DirAtFrame(v, w, q);
      if DirAt(v, q) != 0 {
        ReachVisible(v, q);
      }
    }
  }

  lemma LiveAgrees(v: Vol, w: Vol, d: ClusterNo, i: nat)
    requires Weak(v) && Agree(v, w) && Reach(v, d) && LiveAt(v, d, i)
    ensures EntryOk(v, v.table[d][i])
    ensures forall x :: x in Chain(v.fat, v.table[d][i].Head()) ==>
      w.fat[x] == v.fat[x] && w.bytes[x] == v.bytes[x] && w.table[x] == v.table[x]
  {
    hide DirAt, Chain, EntryOk, TableOk;
    forall x | x in Chain(v.fat, v.table[d][i].Head()) ensures Visible(v, x) {
      assert Owns(v, d, i, x);
    }
  }

  lemma LiveFrame(v: Vol, w: Vol, d: ClusterNo, i: nat)
    requires Weak(v) && Agree(v, w) && Reach(v, d) && LiveAt(v, d, i)
    ensures EntryOk(w, v.table[d][i])
    ensures NodeOf(w, v.table[d][i]) == NodeOf(v, v.table[d][i])
    ensures Chain(w.fat, v.table[d][i].Head()) == Chain(v.fat, v.table[d][i].Head())
  {
    hide Weak, Agree, DirAt, Chain, EntryOk, NodeOf;
    LiveAgrees(v, w, d, i);
    EntryFrame(v, w, v.table[d][i]);
  }

  lemma FolderFrame(v: Vol, w: Vol, d: ClusterNo)
    requires Weak(v) && Agree(v, w) && Reach(v, d)
    ensures Reach(w, d) && w.table[d] == v.table[d] && FolderOk(w, d)
    ensures forall i: nat :: LiveAt(v, d, i) ==> NodeOf(w, v.table[d][i]) == NodeOf(v, v.table[d][i])
    ensures forall i: nat, x: ClusterNo :: Owns(v, d, i, x) <==> Owns(w, d, i, x)
  {
    var path :| DirAt(v, path) == d;
    DirAtFrame(v, w, path);
    ReachVisible(v, path);
    forall i: nat | LiveAt(v, d, i)
      ensures EntryOk(w, v.table[d][i]) && NodeOf(w, v.table[d][i]) == NodeOf(v, v.table[d][i])
      ensures Chain(w.fat, v.table[d][i].Head()) == Chain(v.fat, v.table[d][i].Head())
    {
      LiveFrame(v, w, d, i);
    }
  }

  lemma LookupFrame(v: Vol, w: Vol, p: seq<Key>)
    requires Weak(v) && Agree(v, w)
    ensures Lookup(w, p) == Lookup(v, p)
  {
    if p != [] {
      var q := p[..|p| - 1];
      DirAtFrame(v, w, q);
      if EntryAt(v, p).Some? {
        var d := DirAt(v, q);
        assert Reach(v, d) && LiveAt(v, d, Scan(v.table[d], p[|p| - 1], 2));
      }
      if DirAt(v, q) != 0 {
        hide Weak, Agree, DirAt;
        assert Reach(v, DirAt(v, q));
        FolderFrame(v, w, DirAt(v, q));
      }
    }
  }

  lemma ReachFrame(v: Vol, w: Vol, d: ClusterNo)
    requires Weak(v) && Agree(v, w)
    ensures Reach(w, d) <==> Reach(v, d)
  {
    if path :| DirAt(w, path) == d {
      DirAtFrame(v, w, path);
    }
    if path :| DirAt(v, path) == d {
      DirAtFrame(v, w, path);
    }
  }

  // Changes outside the visible clusters neither harm the volume nor alter what any path names.
  lemma Frame(v: Vol, w: Vol)
    requires Weak(v) && Agree(v, w)
    ensures Weak(w) && SameTree(v, w)
    ensures forall d: ClusterNo, i: nat, x: ClusterNo :: Owns(w, d, i, x) <==> Owns(v, d, i, x)
  {
    forall d: ClusterNo ensures Reach(w, d) <==> Reach(v, d) {
      ReachFrame(v, w, d);
    }
    forall d: ClusterNo | Reach(v, d)
      ensures FolderOk(w, d)
      ensures forall i: nat, x: ClusterNo :: Owns(w, d, i, x) <==> Owns(v, d, i, x)
    {
      FolderFrame(v, w, d);
    }
    forall p ensures Lookup(w, p) == Lookup(v, p) && DirAt(w, p) == DirAt(v, p) {
      DirAtFrame(v, w, p);
      LookupFrame(v, w, p);
    }
    forall p | DirAt(v, p) != 0 ensures w.table[DirAt(v, p)] == v.table[DirAt(v, p)] {
      ReachVisible(v, p);
    }
  }

  lemma SameVisible(v: Vol, w: Vol)
    requires forall d: ClusterNo, i: nat, x: ClusterNo :: Owns(w, d, i, x) <==> Owns(v, d, i, x)
    ensures forall x: ClusterNo :: Visible(w, x) <==> Visible(v, x)
  {
    hide Owns;
  }
}
