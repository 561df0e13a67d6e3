/**
 * The two directory updates that change the tree. Storing one entry into a free slot adds exactly
 * one node (AddCommits); clearing one live slot removes exactly one subtree (RemoveCommits).
 */
module Commit {
  import opened Machine
  import opened Layout
  import opened Chains
  import opened Volume

  // w is v with the whole of cluster d rewritten as table t.
  ghost predicate Overwritten(v: Vol, w: Vol, d: ClusterNo, t: Table) {
    && w.fat == v.fat
    && w.table == v.table[d := t]
    && forall x: ClusterNo :: x != d ==> w.bytes[x] == v.bytes[x]
  }

  // w is v with slot i of directory d replaced by e.
  ghost predicate Patched(v: Vol, w: Vol, d: ClusterNo, i: nat, e: DirEntry)
    requires i < TABLE_SIZE
  {
    && w.fat == v.fat
    && w.table == v.table[d := v.table[d][i := e]]
    && forall x: ClusterNo :: x != d ==> w.bytes[x] == v.bytes[x]
  }

  // e may be stored in slot i of the directory at path dp.
  ghost predicate Addable(v: Vol, dp: seq<Key>, i: nat, e: DirEntry) {
    && Weak(v) && DirAt(v, dp) != 0
    && 2 <= i < TABLE_SIZE && !v.table[DirAt(v, dp)][i].Live()
    && e.Live() && e.Id() != NO_KEY && Scan(v.table[DirAt(v, dp)], e.Id(), 2) == TABLE_SIZE
    && EntryOk(v, e)
    && (forall x: ClusterNo :: x in Chain(v.fat, e.Head()) ==> !Visible(v, x))
    && (e.IsFolder() ==> EmptyTable(v.table[Chain(v.fat, e.Head())[0]], Chain(v.fat, e.Head())[0]))
  }

  lemma TableAfterAdd(t: Table, d: ClusterNo, i: nat, e: DirEntry)
    requires TableOk(t, d) && 2 <= i < TABLE_SIZE
    requires e.Live() && e.Id() != NO_KEY && Scan(t, e.Id(), 2) == TABLE_SIZE
    ensures TableOk(t[i := e], d)
  {
    hide DirEntry.Live, DirEntry.Id;
  }

  lemma FindAfterAdd(t: Table, d: ClusterNo, i: nat, e: DirEntry, k: Key)
    requires TableOk(t, d) && 2 <= i < TABLE_SIZE && !t[i].Live()
    requires e.Live() && e.Id() != NO_KEY && Scan(t, e.Id(), 2) == TABLE_SIZE
    ensures Find(t[i := e], k) == if k == e.Id() then Some(e) else Find(t, k)
  {
    hide TableOk, Scan, Find;
    if k == e.Id() {
      TableAfterAdd(t, d, i, e);
      FindLive(t[i := e], d, i);
    } else {
      FindOther(t, d, i, e, k);
    }
  }

  lemma FindOther(t: Table, d: ClusterNo, i: nat, e: DirEntry, k: Key)
    requires TableOk(t, d) && 2 <= i < TABLE_SIZE && !t[i].Live()
    requires e.Live() && e.Id() != NO_KEY && Scan(t, e.Id(), 2) == TABLE_SIZE && k != e.Id()
    ensures Find(t[i := e], k) == Find(t, k)
  {
    TableAfterAdd(t, d, i, e);
    var j := Scan(t, k, 2);
    if j < TABLE_SIZE && t[j].Live() {
      hide TableOk;
      FindLive(t[i := e], d, j);
    }
  }

  lemma NameAbsent(t: Table, k: Key)
    requires Scan(t, k, 2) == TABLE_SIZE
    ensures Find(t, k) == None
  {
  }

  lemma EmptyFind(t: Table, d: ClusterNo, k: Key)
    requires EmptyTable(t, d)
    ensures Find(t, k) == None && TableOk(t, d)
  {
  }

  // What each table lists once the entry is stored.
  lemma TablesAfterAdd(v: Vol, w: Vol, dp: seq<Key>, i: nat, e: DirEntry, k: Key)
    requires Addable(v, dp, i, e) && Patched(v, w, DirAt(v, dp), i, e)
    ensures Find(w.table[DirAt(v, dp)], k) == if k == e.Id() then Some(e) else Find(v.table[DirAt(v, dp)], k)
    ensures Find(v.table[DirAt(v, dp)], e.Id()) == None
    ensures e.Head() < CLUSTER_MAP_SIZE
    ensures e.IsFolder() ==> Find(w.table[e.Head()], k) == None
    ensures forall c: ClusterNo :: c != DirAt(v, dp) ==> w.table[c] == v.table[c]
  {
    hide Walk, Chain, Scan, Find, DirAt, Visible, TableOk, EmptyTable, Unshared;
    var d := DirAt(v, dp);
    ReachVisible(v, dp);
    HeadInChain(v.fat, e.Head());
    FindAfterAdd(v.table[d], d, i, e, k);
    NameAbsent(v.table[d], e.Id());
    if e.IsFolder() {
      EmptyFind(w.table[e.Head()], e.Head(), k);
    }
  }

  lemma NewHead(v: Vol, dp: seq<Key>, i: nat, e: DirEntry)
    requires Addable(v, dp, i, e)
    ensures 3 <= e.Head() < CLUSTER_MAP_SIZE && !Visible(v, e.Head())
    ensures forall q :: DirAt(v, q) != e.Head()
    ensures DirAt(v, dp + [e.Id()]) == 0
  {
    HeadInChain(v.fat, e.Head());
    forall q ensures DirAt(v, q) != e.Head() {
      if DirAt(v, q) != 0 {
        ReachVisible(v, q);
      }
    }
    Step(v, dp, e.Id());
  }

  lemma NewName(v: Vol, dp: seq<Key>, i: nat, e: DirEntry)
    requires Addable(v, dp, i, e)
    ensures Lookup(v, dp + [e.Id()]) == None
  {
    Step(v, dp, e.Id());
  }

  lemma {:induction false} DirAtAfterAdd(v: Vol, w: Vol, dp: seq<Key>, i: nat, e: DirEntry, p: seq<Key>)
    requires Addable(v, dp, i, e) && Patched(v, w, DirAt(v, dp), i, e)
    ensures DirAt(w, p) == if e.IsFolder() && p == dp + [e.Id()] then e.Head() else DirAt(v, p)
  {
    if p != [] {
      var q, k := p[..|p| - 1], p[|p| - 1];
      DirAtAfterAdd(v, w, dp, i, e, q);
      Snoc(p, dp, e.Id());
      StepAfterAdd(v, w, dp, i, e, q, k);
    }
  }

  lemma Snoc(p: seq<Key>, q: seq<Key>, k: Key)
    requires p != []
    ensures p == p[..|p| - 1] + [p[|p| - 1]]
    ensures p == q + [k] <==> p[..|p| - 1] == q && p[|p| - 1] == k
  {
  }

  lemma StepAfterAdd(v: Vol, w: Vol, dp: seq<Key>, i: nat, e: DirEntry, q: seq<Key>, k: Key)
    requires Addable(v, dp, i, e) && Patched(v, w, DirAt(v, dp), i, e)
    requires DirAt(w, q) == if e.IsFolder() && q == dp + [e.Id()] then e.Head() else DirAt(v, q)
    ensures DirAt(w, q + [k]) == if e.IsFolder() && q == dp && k == e.Id() then e.Head() else DirAt(v, q + [k])
    ensures EntryAt(w, q + [k]) == if q == dp && k == e.Id() then Some(e) else EntryAt(v, q + [k])
  {
    hide Addable, Patched, DirAt, Find, EntryAt, Reach, Visible;
    TablesAfterAdd(v, w, dp, i, e, k);
    NewHead(v, dp, i, e);
    Step(v, q, k);
    Step(w, q, k);
    if DirAt(v, q) == DirAt(v, dp) {
      assert Weak(v) && DirAt(v, dp) != 0 by {
        ParentSound(v, dp, i, e);
      }
      PathUnique(v, q, dp);
    }
  }

  lemma ParentSound(v: Vol, dp: seq<Key>, i: nat, e: DirEntry)
    requires Addable(v, dp, i, e)
    ensures Weak(v) && Reach(v, DirAt(v, dp)) && Visible(v, DirAt(v, dp))
  {
    ReachVisible(v, dp);
  }

  lemma LookupAfterAdd(v: Vol, w: Vol, dp: seq<Key>, i: nat, e: DirEntry, p: seq<Key>)
    requires Addable(v, dp, i, e) && Patched(v, w, DirAt(v, dp), i, e)
    ensures Lookup(w, p) == if p == dp + [e.Id()] then Some(NodeOf(v, e)) else Lookup(v, p)
  {
    if p != [] {
      hide Addable, Patched, DirAt, Find, EntryAt, NodeOf;
      var q, k := p[..|p| - 1], p[|p| - 1];
      Snoc(p, dp, e.Id());
      DirAtAfterAdd(v, w, dp, i, e, q);
      StepAfterAdd(v, w, dp, i, e, q, k);
      NodesAfterAdd(v, w, dp, i, e, q, k);
    }
  }

  // Storing the entry disturbs no other node.
  lemma NodesAfterAdd(v: Vol, w: Vol, dp: seq<Key>, i: nat, e: DirEntry, q: seq<Key>, k: Key)
    requires Addable(v, dp, i, e) && Patched(v, w, DirAt(v, dp), i, e)
    ensures NodeOf(w, e) == NodeOf(v, e)
    ensures EntryAt(v, q + [k]).Some? ==> NodeOf(w, EntryAt(v, q + [k]).value) == NodeOf(v, EntryAt(v, q + [k]).value)
  {
    hide Walk, TableOk, EmptyTable, DirAt, Unshared, Visible;
    ReachVisible(v, dp);
    GatherFrame(v.bytes, w.bytes, Chain(v.fat, e.Head()));
    Step(v, q, k);
    if EntryAt(v, q + [k]).Some? {
      var c := DirAt(v, q);
      var j := Scan(v.table[c], k, 2);
      assert Reach(v, c) && LiveAt(v, c, j);
      if !v.table[c][j].IsFolder() {
        FolderNotInFile(v, dp, c, j);
        GatherFrame(v.bytes, w.bytes, Chain(v.fat, v.table[c][j].Head()));
      }
    }
  }

  lemma ReachAfterAdd(v: Vol, w: Vol, dp: seq<Key>, i: nat, e: DirEntry, c: ClusterNo)
    requires Addable(v, dp, i, e) && Patched(v, w, DirAt(v, dp), i, e)
    ensures Reach(w, c) <==> Reach(v, c) || (e.IsFolder() && c == e.Head())
  {
    DirAtAfterAdd(v, w, dp, i, e, dp + [e.Id()]);
    NewHead(v, dp, i, e);
    hide DirAt, Sub, Addable, Patched;
    if Reach(w, c) {
      var path :| DirAt(w, path) == c;
      DirAtAfterAdd(v, w, dp, i, e, path);
    }
    if Reach(v, c) {
      var path :| DirAt(v, path) == c;
      DirAtAfterAdd(v, w, dp, i, e, path);
    }
  }

  lemma OwnsAfterAdd(v: Vol, w: Vol, dp: seq<Key>, i: nat, e: DirEntry, c: ClusterNo, j: nat, x: ClusterNo)
    requires Addable(v, dp, i, e) && Patched(v, w, DirAt(v, dp), i, e)
    ensures Owns(w, c, j, x) <==>
      Owns(v, c, j, x) || (c == DirAt(v, dp) && j == i && x in Chain(v.fat, e.Head()))
  {
    hide DirAt, Weak, Chain;
    ReachAfterAdd(v, w, dp, i, e, c);
    ReachVisible(v, dp);
    HeadInChain(v.fat, e.Head());
  }

  lemma EntryAfterPatch(v: Vol, w: Vol, d: ClusterNo, i: nat, e: DirEntry, b: DirEntry)
    requires 2 <= i < TABLE_SIZE && Patched(v, w, d, i, e) && EntryOk(v, b)
    ensures EntryOk(w, b)
  {
  }

  lemma ShapeAfterAdd(v: Vol, w: Vol, dp: seq<Key>, i: nat, e: DirEntry, c: ClusterNo)
    requires Addable(v, dp, i, e) && Patched(v, w, DirAt(v, dp), i, e)
    requires Reach(v, c) || (e.IsFolder() && c == e.Head())
    ensures TableOk(w.table[c], c)
  {
    hide Walk, Scan, Find, DirAt, Unshared, Visible;
    var d := DirAt(v, dp);
    ReachVisible(v, dp);
    HeadInChain(v.fat, e.Head());
    if c == d {
      TableAfterAdd(v.table[d], d, i, e);
    } else if e.IsFolder() && c == e.Head() {
      EmptyFind(w.table[c], c, NO_KEY);
    }
  }

  lemma FolderAfterAdd(v: Vol, w: Vol, dp: seq<Key>, i: nat, e: DirEntry, c: ClusterNo)
    requires Addable(v, dp, i, e) && Patched(v, w, DirAt(v, dp), i, e)
    requires Reach(w, c)
    ensures FolderOk(w, c)
  {
    hide Walk, Find, Sub, Visible, Unshared;
    ReachAfterAdd(v, w, dp, i, e, c);
    ShapeAfterAdd(v, w, dp, i, e, c);
    HeadInChain(v.fat, e.Head());
    hide DirAt, EntryOk, TableOk, Chain;
    forall j: nat | LiveAt(w, c, j) ensures EntryOk(w, w.table[c][j]) {
      EntryAfterPatch(v, w, DirAt(v, dp), i, e, w.table[c][j]);
    }
  }

  lemma VisibleAfterAdd(v: Vol, w: Vol, dp: seq<Key>, i: nat, e: DirEntry)
    requires Addable(v, dp, i, e) && Patched(v, w, DirAt(v, dp), i, e)
    ensures forall x: ClusterNo :: Visible(w, x) <==> Visible(v, x) || x in Chain(v.fat, e.Head())
  {
    hide Addable, Patched, Owns, DirAt, Chain;
    forall c: ClusterNo, j: nat, x: ClusterNo
      ensures Owns(w, c, j, x) <==>
        Owns(v, c, j, x) || (c == DirAt(v, dp) && j == i && x in Chain(v.fat, e.Head()))
    {
      OwnsAfterAdd(v, w, dp, i, e, c, j, x);
    }
    forall x: ClusterNo | x in Chain(v.fat, e.Head()) ensures Visible(w, x) {
      assert Owns(w, DirAt(v, dp), i, x);
    }
  }

  lemma WeakAfterAdd(v: Vol, w: Vol, dp: seq<Key>, i: nat, e: DirEntry)
    requires Addable(v, dp, i, e) && Patched(v, w, DirAt(v, dp), i, e)
    ensures Weak(w)
  {
    forall c: ClusterNo | Reach(w, c) ensures FolderOk(w, c) {
      FolderAfterAdd(v, w, dp, i, e, c);
    }
    hide DirAt, FolderOk, Reach, LiveAt, Chain, EntryOk, Scan, Owns;
    UnsharedAfterAdd(v, w, dp, i, e);
  }

  lemma UnsharedAfterAdd(v: Vol, w: Vol, dp: seq<Key>, i: nat, e: DirEntry)
    requires Addable(v, dp, i, e) && Patched(v, w, DirAt(v, dp), i, e)
    ensures Unshared(w)
  {
    hide DirAt, FolderOk, Chain, EntryOk, Scan, Owns;
    forall c: ClusterNo, j: nat, x: ClusterNo
      ensures Owns(w, c, j, x) <==>
        Owns(v, c, j, x) || (c == DirAt(v, dp) && j == i && x in Chain(v.fat, e.Head()))
    {
      OwnsAfterAdd(v, w, dp, i, e, c, j, x);
    }
  }

  lemma FoldersStayAfterAdd(v: Vol, w: Vol, dp: seq<Key>, i: nat, e: DirEntry)
    requires Addable(v, dp, i, e) && Patched(v, w, DirAt(v, dp), i, e)
    ensures KeepsFolders(v, w)
  {
    forall p | DirAt(v, p) != 0 && DirAt(w, p) != 0
      ensures DirAt(w, p) == DirAt(v, p) && w.table[DirAt(v, p)][0] == v.table[DirAt(v, p)][0]
    {
      DirAtAfterAdd(v, w, dp, i, e, p);
      NewHead(v, dp, i, e);
    }
  }

  // Storing one entry adds exactly the node it describes.
  lemma AddCommits(v: Vol, w: Vol, dp: seq<Key>, i: nat, e: DirEntry)
    requires Addable(v, dp, i, e) && Patched(v, w, DirAt(v, dp), i, e)
    ensures Weak(w) && AddsNode(v, w, dp + [e.Id()], NodeOf(v, e))
    ensures forall x: ClusterNo :: Visible(w, x) <==> Visible(v, x) || x in Chain(v.fat, e.Head())
  {
    hide Lookup, DirAt, NodeOf;
    WeakAfterAdd(v, w, dp, i, e);
    FoldersStayAfterAdd(v, w, dp, i, e);
    hide Patched, Addable, Weak;
    forall p
      ensures Lookup(w, p) == if p == dp + [e.Id()] then Some(NodeOf(v, e)) else Lookup(v, p)
      ensures p != dp + [e.Id()] ==> DirAt(w, p) == DirAt(v, p)
    {
      LookupAfterAdd(v, w, dp, i, e, p);
      DirAtAfterAdd(v, w, dp, i, e, p);
    }
    NewName(v, dp, i, e);
    VisibleAfterAdd(v, w, dp, i, e);
  }

  // Removal.

  ghost predicate Removable(v: Vol, dp: seq<Key>, i: nat) {
    Weak(v) && DirAt(v, dp) != 0 && LiveAt(v, DirAt(v, dp), i)
  }

  ghost function Target(v: Vol, dp: seq<Key>, i: nat): DirEntry
    requires i < TABLE_SIZE
  {
    v.table[DirAt(v, dp)][i]
  }

  lemma TableAfterRemove(t: Table, d: ClusterNo, i: nat)
    requires TableOk(t, d) && 2 <= i < TABLE_SIZE && t[i].Live()
    ensures TableOk(t[i := ZERO_ENTRY], d)
  {
  }

  lemma FindAfterRemove(t: Table, d: ClusterNo, i: nat, k: Key)
    requires TableOk(t, d) && 2 <= i < TABLE_SIZE && t[i].Live()
    ensures Find(t[i := ZERO_ENTRY], k) == if k == t[i].Id() then None else Find(t, k)
  {
    var t': Table := t[i := ZERO_ENTRY];
    TableAfterRemove(t, d, i);
    var j := Scan(t, k, 2);
    if j < TABLE_SIZE && t[j].Live() && j != i {
      FindLive(t', d, j);
    }
  }

  lemma StepAfterRemove(v: Vol, w: Vol, dp: seq<Key>, i: nat, q: seq<Key>, k: Key)
    requires Removable(v, dp, i) && Patched(v, w, DirAt(v, dp), i, ZERO_ENTRY)
    requires DirAt(w, q) == DirAt(v, q)
    ensures DirAt(w, q + [k]) == if q == dp && k == Target(v, dp, i).Id() then 0 else DirAt(v, q + [k])
    ensures EntryAt(w, q + [k]) == if q == dp && k == Target(v, dp, i).Id() then None else EntryAt(v, q + [k])
  {
    Step(v, q, k);
    Step(w, q, k);
    var d := DirAt(v, dp);
    if DirAt(v, q) == d {
      PathUnique(v, q, dp);
      ReachVisible(v, dp);
      FindAfterRemove(v.table[d], d, i, k);
    }
  }

  lemma Below(p: seq<Key>, root: seq<Key>, k: Key)
    requires p != []
    ensures p == p[..|p| - 1] + [p[|p| - 1]]
    ensures root + [k] <= p <==> root + [k] <= p[..|p| - 1] || (p[..|p| - 1] == root && p[|p| - 1] == k)
  {
    if root + [k] <= p && |p| > |root| + 1 {
      assert p[..|p| - 1][..|root| + 1] == p[..|root| + 1];
    }
  }

  lemma {:induction false} DirAtAfterRemove(v: Vol, w: Vol, dp: seq<Key>, i: nat, p: seq<Key>)
    requires Removable(v, dp, i) && Patched(v, w, DirAt(v, dp), i, ZERO_ENTRY)
    ensures DirAt(w, p) == if dp + [Target(v, dp, i).Id()] <= p then 0 else DirAt(v, p)
  {
    if p != [] {
      var q, k := p[..|p| - 1], p[|p| - 1];
      DirAtAfterRemove(v, w, dp, i, q);
      Below(p, dp, Target(v, dp, i).Id());
      if dp + [Target(v, dp, i).Id()] <= q {
        Step(w, q, k);
      } else {
        StepAfterRemove(v, w, dp, i, q, k);
      }
    }
  }

  lemma LookupAfterRemove(v: Vol, w: Vol, dp: seq<Key>, i: nat, p: seq<Key>)
    requires Removable(v, dp, i) && Patched(v, w, DirAt(v, dp), i, ZERO_ENTRY)
    ensures Lookup(w, p) == if dp + [Target(v, dp, i).Id()] <= p then None else Lookup(v, p)
  {
    if p != [] {
      hide Removable, Patched, DirAt, EntryAt, NodeOf, Target, Reach;
      var q, k := p[..|p| - 1], p[|p| - 1];
      DirAtAfterRemove(v, w, dp, i, q);
      Below(p, dp, Target(v, dp, i).Id());
      if dp + [Target(v, dp, i).Id()] <= q {
        Step(w, q, k);
      } else {
        StepAfterRemove(v, w, dp, i, q, k);
        NodesAfterRemove(v, w, dp, i, q, k);
      }
    }
  }

  lemma NodesAfterRemove(v: Vol, w: Vol, dp: seq<Key>, i: nat, q: seq<Key>, k: Key)
    requires Removable(v, dp, i) && Patched(v, w, DirAt(v, dp), i, ZERO_ENTRY)
    ensures EntryAt(v, q + [k]).Some? ==> NodeOf(w, EntryAt(v, q + [k]).value) == NodeOf(v, EntryAt(v, q + [k]).value)
  {
    Step(v, q, k);
    if EntryAt(v, q + [k]).Some? {
      var c := DirAt(v, q);
      var j := Scan(v.table[c], k, 2);
      assert Reach(v, c) && LiveAt(v, c, j);
      if !v.table[c][j].IsFolder() {
        FolderNotInFile(v, dp, c, j);
        GatherFrame(v.bytes, w.bytes, Chain(v.fat, v.table[c][j].Head()));
      }
    }
  }

  lemma OldName(v: Vol, dp: seq<Key>, i: nat)
    requires Removable(v, dp, i)
    ensures Lookup(v, dp + [Target(v, dp, i).Id()]) == Some(NodeOf(v, Target(v, dp, i)))
  {
    ReachVisible(v, dp);
    FindLive(v.table[DirAt(v, dp)], DirAt(v, dp), i);
    Step(v, dp, Target(v, dp, i).Id());
  }

  lemma ReachAfterRemove(v: Vol, w: Vol, dp: seq<Key>, i: nat, c: ClusterNo)
    requires Removable(v, dp, i) && Patched(v, w, DirAt(v, dp), i, ZERO_ENTRY)
    requires Reach(w, c)
    ensures Reach(v, c)
  {
    var path :| DirAt(w, path) == c;
    DirAtAfterRemove(v, w, dp, i, path);
  }

  lemma FolderAfterRemove(v: Vol, w: Vol, dp: seq<Key>, i: nat, c: ClusterNo)
    requires Removable(v, dp, i) && Patched(v, w, DirAt(v, dp), i, ZERO_ENTRY)
    requires Reach(w, c)
    ensures FolderOk(w, c)
  {
    ReachAfterRemove(v, w, dp, i, c);
    if c == DirAt(v, dp) {
      TableAfterRemove(v.table[c], c, i);
    }
    hide DirAt, EntryOk, TableOk, Chain;
    forall j: nat | LiveAt(w, c, j) ensures EntryOk(w, w.table[c][j]) {
      EntryAfterPatch(v, w, DirAt(v, dp), i, ZERO_ENTRY, w.table[c][j]);
    }
  }

  // No cluster changes hands, and the removed entry's clusters have no owner left.
  lemma OwnsAfterRemove(v: Vol, w: Vol, dp: seq<Key>, i: nat)
    requires Removable(v, dp, i) && Patched(v, w, DirAt(v, dp), i, ZERO_ENTRY)
    ensures Unshared(w) && Reserved(w.fat)
    ensures forall x :: x in Chain(v.fat, Target(v, dp, i).Head()) ==> 3 <= x && !Visible(w, x)
  {
    forall c: ClusterNo, j: nat, x: ClusterNo | Owns(w, c, j, x)
      ensures Owns(v, c, j, x) && (c != DirAt(v, dp) || j != i)
    {
      ReachAfterRemove(v, w, dp, i, c);
    }
    hide DirAt, Chain;
    assert Reach(v, DirAt(v, dp)) by {
      RemovableReached(v, dp, i);
    }
    assert FolderOk(v, DirAt(v, dp)) && EntryOk(v, Target(v, dp, i));
    forall x | x in Chain(v.fat, Target(v, dp, i).Head()) ensures 3 <= x && !Visible(w, x) {
      assert Owns(v, DirAt(v, dp), i, x);
    }
  }

  lemma RemovableReached(v: Vol, dp: seq<Key>, i: nat)
    requires Removable(v, dp, i)
    ensures Reach(v, DirAt(v, dp))
  {
    hide Weak, DirAt;
  }

  // Clearing one live slot removes exactly the subtree it names and gives up its chain.
  lemma RemoveCommits(v: Vol, w: Vol, dp: seq<Key>, i: nat)
    requires Removable(v, dp, i) && Patched(v, w, DirAt(v, dp), i, ZERO_ENTRY)
    ensures Weak(w) && RemovesSubtree(v, w, dp + [Target(v, dp, i).Id()])
    ensures forall x :: x in Chain(v.fat, Target(v, dp, i).Head()) ==> 3 <= x && !Visible(w, x)
  {
    hide Chain, Lookup, DirAt, Target, NodeOf, FolderOk;
    forall c: ClusterNo | Reach(w, c) ensures FolderOk(w, c) {
      FolderAfterRemove(v, w, dp, i, c);
    }
    OwnsAfterRemove(v, w, dp, i);
    hide Patched, Removable, Owns;
    forall p
      ensures Lookup(w, p) == if dp + [Target(v, dp, i).Id()] <= p then None else Lookup(v, p)
      ensures DirAt(w, p) == if dp + [Target(v, dp, i).Id()] <= p then 0 else DirAt(v, p)
    {
      LookupAfterRemove(v, w, dp, i, p);
      DirAtAfterRemove(v, w, dp, i, p);
    }
    OldName(v, dp, i);
  }
}
