/**
 * No cluster is lost. A write keeps the strong invariant; a delete keeps it exactly when its target is
 * a file or an empty folder; and under it the free, the owned and the reserved clusters add up.
 */
module Conservation {
  import opened Machine
  import opened Layout
  import opened Chains
  import opened Volume
  import opened Disk
  import opened Commit
  import opened Operations
  import opened Crash
  import opened Atomic
  import opened Runs

  // A file, or a folder that lists nothing.
  ghost predicate Childless(v: Vol, e: DirEntry) {
    e.IsFolder() && e.Head() < CLUSTER_MAP_SIZE ==> forall i: nat :: !LiveAt(v, e.Head(), i)
  }

  lemma TargetPath(v: Vol, dp: seq<Key>, i: nat)
    requires Removable(v, dp, i)
    ensures var e := Target(v, dp, i); e.IsFolder() ==> DirAt(v, dp + [e.Id()]) == e.Head() != 0
    ensures forall x :: x in Chain(v.fat, Target(v, dp, i).Head()) ==> Owns(v, DirAt(v, dp), i, x)
  {
    ReachVisible(v, dp);
    FindLive(v.table[DirAt(v, dp)], DirAt(v, dp), i);
    Step(v, dp, Target(v, dp, i).Id());
    HeadInChain(v.fat, Target(v, dp, i).Head());
  }

  lemma TargetNamed(v: Vol, dp: seq<Key>, i: nat)
    requires Removable(v, dp, i)
    ensures var e := Target(v, dp, i); !e.IsFolder() ==> DirAt(v, dp + [e.Id()]) == 0
  {
    ReachVisible(v, dp);
    FindLive(v.table[DirAt(v, dp)], DirAt(v, dp), i);
    Step(v, dp, Target(v, dp, i).Id());
  }

  // Below a childless node there is no directory.
  lemma NoFolderBelow(v: Vol, dp: seq<Key>, i: nat, q: seq<Key>)
    requires Removable(v, dp, i) && Childless(v, Target(v, dp, i))
    requires dp + [Target(v, dp, i).Id()] <= q && DirAt(v, q) != 0
    ensures Target(v, dp, i).IsFolder() && DirAt(v, q) == Target(v, dp, i).Head()
    decreases |q|
  {
    hide DirAt, Weak, Target, Chain;
    var path := dp + [Target(v, dp, i).Id()];
    TargetPath(v, dp, i);
    TargetNamed(v, dp, i);
    if q != path {
      var p, k := q[..|q| - 1], q[|q| - 1];
      assert q == p + [k];
      Step(v, p, k);
      NoFolderBelow(v, dp, i, p);
      var _, j := FolderOwned(v, q);
    }
  }

  lemma VisibleAfterRemove(v: Vol, w: Vol, dp: seq<Key>, i: nat, x: ClusterNo)
    requires Removable(v, dp, i) && Patched(v, w, DirAt(v, dp), i, ZERO_ENTRY)
    requires Childless(v, Target(v, dp, i))
    requires Visible(v, x) && x !in Chain(v.fat, Target(v, dp, i).Head())
    ensures Visible(w, x)
  {
    if x != ROOT_CLUSTER {
      var c: ClusterNo, j: nat :| Owns(v, c, j, x);
      var q :| DirAt(v, q) == c;
      DirAtAfterRemove(v, w, dp, i, q);
      if dp + [Target(v, dp, i).Id()] <= q {
        NoFolderBelow(v, dp, i, q);
      }
      assert Owns(w, c, j, x);
    }
  }

  lemma ChildOwned(v: Vol, d: ClusterNo) returns (j: nat, x: ClusterNo)
    requires Weak(v) && Reach(v, d) && exists j: nat :: LiveAt(v, d, j)
    ensures Owns(v, d, j, x) && 3 <= x && v.fat[x] != EMPTY_ENTRY
  {
    j :| LiveAt(v, d, j);
    assert EntryOk(v, v.table[d][j]);
    HeadInChain(v.fat, v.table[d][j].Head());
    x := v.table[d][j].Head();
    LinksUsed(v.fat, x, x);
  }

  // Deleting a folder that still lists something strands a cluster of what it lists.
  lemma LeakAfterRemove(v: Vol, w: Vol, dp: seq<Key>, i: nat) returns (x: ClusterNo)
    requires Removable(v, dp, i) && Patched(v, w, DirAt(v, dp), i, ZERO_ENTRY)
    requires !Childless(v, Target(v, dp, i))
    ensures 3 <= x && v.fat[x] != EMPTY_ENTRY && x !in Chain(v.fat, Target(v, dp, i).Head()) && !Visible(w, x)
  {
    hide DirAt, Weak, Chain, Target;
    var path := dp + [Target(v, dp, i).Id()];
    TargetPath(v, dp, i);
    var j;
    j, x := ChildOwned(v, Target(v, dp, i).Head());
    OwnedOnce(v, DirAt(v, dp), i, Target(v, dp, i).Head(), j, x);
    if DirAt(v, dp) == DirAt(v, path) {
      PathUnique(v, dp, path);
    }
    if Visible(w, x) {
      var c: ClusterNo, k: nat :| Owns(w, c, k, x);
      var q :| DirAt(w, q) == c;
      DirAtAfterRemove(v, w, dp, i, q);
      NotBelow(v, w, dp, i, q, path, c, k, x, j);
    }
  }

  lemma OwnedOnce(v: Vol, d: ClusterNo, i: nat, d': ClusterNo, i': nat, x: ClusterNo)
    requires Weak(v) && Owns(v, d', i', x)
    ensures Owns(v, d, i, x) ==> d == d' && i == i'
  {
  }

  lemma NotBelow(v: Vol, w: Vol, dp: seq<Key>, i: nat, q: seq<Key>, path: seq<Key>,
                 c: ClusterNo, k: nat, x: ClusterNo, j: nat)
    requires Removable(v, dp, i) && Patched(v, w, DirAt(v, dp), i, ZERO_ENTRY)
    requires DirAt(w, q) == DirAt(v, q) == c && Owns(w, c, k, x) && Owns(v, DirAt(v, path), j, x)
    ensures q == path
  {
    hide DirAt, Weak, Chain;
    assert Owns(v, c, k, x);
    OwnedOnce(v, c, k, DirAt(v, path), j, x);
    PathUnique(v, q, path);
  }

  // The volume after the directory block, and after the whole delete, show the same clusters.
  lemma ErasedVisible(img: Image, dp: seq<Key>, req: Request)
    requires Listed(img, dp, req)
    ensures var i := Scan(TableAt(img, req.parent), req.Id(), 0);
      && Removable(ViewOf(img), dp, i) && Target(ViewOf(img), dp, i) == TableAt(img, req.parent)[i]
      && Patched(ViewOf(img), ViewOf(Erased(img, req)), DirAt(ViewOf(img), dp), i, ZERO_ENTRY)
    ensures forall x: ClusterNo :: Visible(ViewOf(Replay(img, DeleteLog(FatOf(img), TableAt(img, req.parent), req))), x)
                              <==> Visible(ViewOf(Erased(img, req)), x)
  {
    hide Weak, Visible, DirAt, TableOk, FatOf, TableAt, Scan;
    hide Agree, TableWrites, FatWrites, Chain, ViewOf, Release, Patched, Removable;
    var t := TableAt(img, req.parent);
    var i := Scan(t, req.Id(), 0);
    var img1, release := Erased(img, req), FatWrites(Release(FatOf(img), Chain(FatOf(img), t[i].Head())));
    ListedRemovable(img, dp, req);
    EntryStored(img, req.parent, i, ZERO_ENTRY);
    EraseCommits(img, dp, req);
    EraseWritesThrough(img, req);
    Views(img1, req.parent);
    HarmlessRelease(ViewOf(img1), Chain(FatOf(img), t[i].Head()));
    ShowsItself(img1);
    assert release[..|release|] == release;
    assert Shows(ViewOf(img1), Replay(img1, release[..|release|]));
    Frame(ViewOf(img1), ViewOf(Replay(img1, release)));
    SameVisible(ViewOf(img1), ViewOf(Replay(img1, release)));
  }

  // A write never leaks.
  lemma WriteKeepsStrong(s: State, dp: seq<Key>, req: Request, data: seq<byte>)
    requires Mounted(s) && Strong(ViewOf(s.img)) && Allowed(s, WriteOp(req, data))
    requires DirAt(ViewOf(s.img), dp) == req.parent != 0 && EffectOf(s, WriteOp(req, data)).code == 0
    ensures Strong(ViewOf(Next(s, WriteOp(req, data)).img))
  {
    hide Weak, Visible, DirAt, FatOf, TableAt, StoreLog, Placed, Scan;
    var c := Chosen(s.fat, req);
    AcceptedPlaced(s, dp, req, data);
    StoreCommits(s.img, dp, req, c, data);
    PlacedDistinct(s.img, dp, req, c, data);
    forall x: ClusterNo | x !in c ensures Link(s.fat, c, |c|)[x] == s.fat[x] {
      LinkAt(s.fat, c, |c|, x);
    }
  }

  lemma PlacedDistinct(img: Image, dp: seq<Key>, req: Request, s: seq<ClusterNo>, data: seq<byte>)
    requires Placed(img, dp, req, s, data)
    ensures Distinct(s)
  {
    hide Sound, DirAt, FatOf, Scan, FreeSlot;
  }

  // A delete leaks exactly when it removes a folder that still lists something.
  lemma DeleteKeepsStrong(s: State, dp: seq<Key>, req: Request)
    requires Mounted(s) && Strong(ViewOf(s.img)) && Allowed(s, DeleteOp(req))
    requires DirAt(ViewOf(s.img), dp) == req.parent != 0 && EffectOf(s, DeleteOp(req)).code == 0
    ensures var t := TableAt(s.img, req.parent);
      Strong(ViewOf(Next(s, DeleteOp(req)).img)) <==> Childless(ViewOf(s.img), t[Scan(t, req.Id(), 0)])
  {
    hide Weak, Visible, DirAt, TableAt, FatOf, ViewOf, Scan, Chain, Listed, Patched, Removable, Childless, Target;
    var v, w := ViewOf(s.img), ViewOf(Erased(s.img, req));
    var i := Scan(TableAt(s.img, req.parent), req.Id(), 0);
    FoundListed(s, dp, req);
    ErasedVisible(s.img, dp, req);
    EraseWritesThrough(s.img, req);
    EraseFinal(s.img, dp, req);
    Views(s.img, req.parent);
    Views(Next(s, DeleteOp(req)).img, req.parent);
    hide Allowed, EffectOf;
    if Childless(v, Target(v, dp, i)) {
      forall x: ClusterNo | Visible(v, x) && x !in Chain(v.fat, Target(v, dp, i).Head()) ensures Visible(w, x) {
        VisibleAfterRemove(v, w, dp, i, x);
      }
    } else {
      var x := LeakAfterRemove(v, w, dp, i);
    }
  }

  // Runs that delete only files and empty folders.

  ghost predicate Tidy(s: State, op: Op)
    requires Allowed(s, op)
  {
    op.DeleteOp? && EffectOf(s, op).code == 0 ==>
      var t := TableAt(s.img, op.req.parent);
      Scan(t, op.req.Id(), 0) < TABLE_SIZE && Childless(ViewOf(s.img), t[Scan(t, op.req.Id(), 0)])
  }

  ghost predicate TidyRun(s: State, ops: seq<Op>)
    requires AllowedRun(s, ops)
    decreases |ops|
  {
    ops == [] || (Tidy(s, ops[0]) && TidyRun(Next(s, ops[0]), ops[1..]))
  }

  lemma StepKeepsStrong(s: State, op: Op)
    requires Mounted(s) && Strong(ViewOf(s.img)) && Allowed(s, op) && Tidy(s, op)
    ensures Mounted(Next(s, op)) && Strong(ViewOf(Next(s, op).img))
  {
    hide Sound, Strong, DirAt, ViewOf, FatOf, TableAt, Childless, Scan, Unshared;
    StepKeepsMounted(s, op);
    if EffectOf(s, op).code != 0 {
      Unchanged(s, op);
    } else {
      SucceedsInFolder(s, op);
      var dp :| DirAt(ViewOf(s.img), dp) == op.req.parent;
      match op
      case WriteOp(req, data) => WriteKeepsStrong(s, dp, req, data);
      case DeleteOp(req) => DeleteKeepsStrong(s, dp, req);
    }
  }

  lemma SucceedsInFolder(s: State, op: Op)
    requires Allowed(s, op) && EffectOf(s, op).code == 0
    ensures Reach(ViewOf(s.img), op.req.parent) && op.req.parent != 0
  {
    hide ViewOf, TableAt, DirAt, Scan, Link, Release, Chain;
  }

  lemma {:induction false} RunKeepsStrong(s: State, ops: seq<Op>)
    requires Mounted(s) && Strong(ViewOf(s.img)) && AllowedRun(s, ops) && TidyRun(s, ops)
    ensures Mounted(Run(s, ops)) && Strong(ViewOf(Run(s, ops).img))
    decreases |ops|
  {
    hide Mounted, Strong, Allowed, Next, Tidy, ViewOf;
    if ops != [] {
      StepKeepsStrong(s, ops[0]);
      RunKeepsStrong(Next(s, ops[0]), ops[1..]);
    }
  }

  // Counting. Slot n of the volume is slot n % 64 of directory n / 64.

  const SLOTS := CLUSTER_MAP_SIZE * TABLE_SIZE

  ghost function OwnedBy(v: Vol, d: ClusterNo, i: nat): set<ClusterNo> {
    set x: ClusterNo | Owns(v, d, i, x)
  }

  // The clusters owned by the first n slots.
  ghost function OwnedBelow(v: Vol, n: nat): set<ClusterNo>
    requires n <= SLOTS
  {
    if n == 0 then {} else OwnedBelow(v, n - 1) + OwnedBy(v, (n - 1) / TABLE_SIZE, (n - 1) % TABLE_SIZE)
  }

  lemma {:induction false} OwnedBelowHas(v: Vol, n: nat, d: ClusterNo, i: nat, x: ClusterNo)
    requires n <= SLOTS && TABLE_SIZE * d + i < n && i < TABLE_SIZE && Owns(v, d, i, x)
    ensures x in OwnedBelow(v, n)
  {
    hide Owns;
    if TABLE_SIZE * d + i < n - 1 {
      OwnedBelowHas(v, n - 1, d, i, x);
    } else {
      assert (n - 1) / TABLE_SIZE == d && (n - 1) % TABLE_SIZE == i;
    }
  }

  lemma {:induction false} OwnerBelow(v: Vol, n: nat, x: ClusterNo) returns (d: ClusterNo, i: nat)
    requires n <= SLOTS && x in OwnedBelow(v, n)
    ensures i < TABLE_SIZE && TABLE_SIZE * d + i < n && Owns(v, d, i, x)
  {
    hide Owns;
    d, i := (n - 1) / TABLE_SIZE, (n - 1) % TABLE_SIZE;
    if x !in OwnedBy(v, d, i) {
      d, i := OwnerBelow(v, n - 1, x);
    }
  }

  // The number of clusters in the chains of the live entries among the first n slots of the tree.
  ghost function LiveLength(v: Vol, n: nat): nat
    requires n <= SLOTS
  {
    if n == 0 then 0
    else
      var d: ClusterNo, i := (n - 1) / TABLE_SIZE, (n - 1) % TABLE_SIZE;
      LiveLength(v, n - 1)
      + if Reach(v, d) && LiveAt(v, d, i) then |Chain(v.fat, v.table[d][i].Head())| else 0
  }

  ghost function Elements(s: seq<ClusterNo>): set<ClusterNo> {
    set x: ClusterNo | x in s
  }

  lemma {:induction false} DistinctCount(s: seq<ClusterNo>)
    requires Distinct(s)
    ensures |Elements(s)| == |s|
  {
    if s == [] {
      assert Elements(s) == {};
    } else {
      var t, last := s[..|s| - 1], s[|s| - 1];
      DistinctCount(t);
      assert s == t + [last];
      assert last !in Elements(t);
      assert Elements(s) == Elements(t) + {last};
    }
  }

  lemma DisjointCount(a: set<ClusterNo>, b: set<ClusterNo>)
    requires a !! b
    ensures |a + b| == |a| + |b|
  {
  }


  // Ownership is never shared, so the owned clusters can be counted slot by slot.
  lemma {:induction false} OwnedCount(v: Vol, n: nat)
    requires Weak(v) && n <= SLOTS
    ensures |OwnedBelow(v, n)| == LiveLength(v, n)
  {
    hide Owns, Weak, Reach, Chain, LiveAt;
    if n > 0 {
      OwnedCount(v, n - 1);
      var d: ClusterNo, i := (n - 1) / TABLE_SIZE, (n - 1) % TABLE_SIZE;
      assert TABLE_SIZE * d + i == n - 1;
      SlotCount(v, d, i);
      OwnedApart(v, n - 1, d, i);
      hide OwnedBy;
      DisjointCount(OwnedBelow(v, n - 1), OwnedBy(v, d, i));
    }
  }

  lemma OwnedApart(v: Vol, n: nat, d: ClusterNo, i: nat)
    requires Weak(v) && n <= SLOTS && i < TABLE_SIZE && TABLE_SIZE * d + i == n
    ensures OwnedBelow(v, n) !! OwnedBy(v, d, i)
  {
    hide Owns, Weak, OwnedBelow;
    forall x | x in OwnedBelow(v, n) ensures x !in OwnedBy(v, d, i) {
      var d', i' := OwnerBelow(v, n, x);
      OwnedOnce(v, d, i, d', i', x);
    }
  }

  lemma SlotCount(v: Vol, d: ClusterNo, i: nat)
    requires Weak(v)
    ensures |OwnedBy(v, d, i)|
         == if Reach(v, d) && LiveAt(v, d, i) then |Chain(v.fat, v.table[d][i].Head())| else 0
  {
    if Reach(v, d) && LiveAt(v, d, i) {
      var s := Chain(v.fat, v.table[d][i].Head());
      assert EntryOk(v, v.table[d][i]);
      WalkDistinct(v.fat, v.table[d][i].Head(), CLUSTER_MAP_SIZE);
      DistinctCount(s);
      assert OwnedBy(v, d, i) == Elements(s);
    } else {
      assert OwnedBy(v, d, i) == {};
    }
  }

  ghost function UsedBelow(fat: Fat, n: nat): set<ClusterNo> {
    set x: ClusterNo | x < n && fat[x] != EMPTY_ENTRY
  }

  lemma {:induction false} FreeAndUsed(fat: Fat, n: nat)
    requires n <= CLUSTER_MAP_SIZE
    ensures |FreeBelow(fat, n)| + |UsedBelow(fat, n)| == n
  {
    if n == 0 {
      assert UsedBelow(fat, n) == {};
    } else {
      FreeAndUsed(fat, n - 1);
      assert n - 1 !in UsedBelow(fat, n - 1);
      assert UsedBelow(fat, n) == UsedBelow(fat, n - 1) + if fat[n - 1] != EMPTY_ENTRY then {n - 1} else {};
    }
  }

  // Free clusters, live chain lengths over the whole tree, and the three reserved entries make up the map.
  lemma Conserved(v: Vol)
    requires Strong(v)
    ensures |FreeBelow(v.fat, CLUSTER_MAP_SIZE)| + LiveLength(v, SLOTS) + 3 == CLUSTER_MAP_SIZE
  {
    FreeAndUsed(v.fat, CLUSTER_MAP_SIZE);
    OwnedCount(v, SLOTS);
    UsedIsOwned(v);
    hide *;
    var reserved: set<ClusterNo> := {0, 1, 2};
    assert |reserved| == 3;
    DisjointCount(reserved, OwnedBelow(v, SLOTS));
  }

  lemma UsedIsOwned(v: Vol)
    requires Strong(v)
    ensures UsedBelow(v.fat, CLUSTER_MAP_SIZE) == {0, 1, 2} + OwnedBelow(v, SLOTS)
    ensures {0, 1, 2} !! OwnedBelow(v, SLOTS)
  {
    hide OwnedBelow, Visible;
    assert Reserved(v.fat);
    forall x: ClusterNo ensures x in OwnedBelow(v, SLOTS) <==> 3 <= x && v.fat[x] != EMPTY_ENTRY {
      OwnedIffUsed(v, x);
    }
    hide Strong;
  }

  lemma OwnedIffUsed(v: Vol, x: ClusterNo)
    requires Strong(v)
    ensures x in OwnedBelow(v, SLOTS) <==> 3 <= x && v.fat[x] != EMPTY_ENTRY
  {
    hide OwnedBelow, Chain, ChainOk;
    if 3 <= x && v.fat[x] != EMPTY_ENTRY {
      var d: ClusterNo, i: nat :| Owns(v, d, i, x);
      OwnedBelowHas(v, SLOTS, d, i, x);
    }
    if x in OwnedBelow(v, SLOTS) {
      var d, i := OwnerBelow(v, SLOTS, x);
      LinksUsed(v.fat, v.table[d][i].Head(), x);
    }
  }

  // After any tidy run from a volume without leaks, no cluster is lost or doubly owned.
  lemma RunConserves(s: State, ops: seq<Op>)
    requires Mounted(s) && Strong(ViewOf(s.img)) && AllowedRun(s, ops) && TidyRun(s, ops)
    ensures var v := ViewOf(Run(s, ops).img);
      |FreeBelow(v.fat, CLUSTER_MAP_SIZE)| + LiveLength(v, SLOTS) + 3 == CLUSTER_MAP_SIZE
  {
    RunKeepsStrong(s, ops);
    Conserved(ViewOf(Run(s, ops).img));
  }
}
