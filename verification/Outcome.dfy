/**
 * What write decides: the exact condition of each result code, what a successful write allocates, and
 * the shape every chain has after any run.
 */
module Outcome {
  import opened Machine
  import opened Layout
  import opened Chains
  import opened Volume
  import opened Disk
  import opened Operations
  import opened Crash
  import opened Atomic
  import opened Runs
  import opened Reading
  import opened Conservation

  ghost function FreeClusters(fat: Fat): set<ClusterNo> {
    set x: ClusterNo | fat[x] == EMPTY_ENTRY
  }

  lemma FreeCount(fat: Fat)
    ensures |FreeBelow(fat, CLUSTER_MAP_SIZE)| == |FreeClusters(fat)|
  {
    FreeBelowFacts(fat, CLUSTER_MAP_SIZE);
    DistinctCount(FreeBelow(fat, CLUSTER_MAP_SIZE));
    assert Elements(FreeBelow(fat, CLUSTER_MAP_SIZE)) == FreeClusters(fat);
  }

  predicate Taken(t: Table, key: Key) {
    exists i :: 2 <= i < TABLE_SIZE && t[i].Id() == key
  }

  predicate Full(t: Table) {
    forall i :: 2 <= i < TABLE_SIZE ==> t[i].Live()
  }

  // The clusters a request takes: one for a folder, the low byte of the cluster count for a file.
  function Demand(req: Request): nat {
    if req.bufferSize == 0 then 1 else ClusterCount(req.bufferSize) % 0x100
  }

  lemma DemandMet(req: Request)
    requires Sized(req.bufferSize)
    ensures Needed(req) == Demand(req) > 0
  {
    NeededBounds(req);
  }

  // Each code is returned under exactly one condition, in this order of precedence.
  lemma WriteOutcome(fat: Fat, t: Table, req: Request)
    requires req.parent < CLUSTER_MAP_SIZE && Sized(req.bufferSize)
    ensures WriteCode(fat, t, req) == 2 <==> fat[req.parent] != END_OF_FILE
    ensures WriteCode(fat, t, req) == 1 <==> fat[req.parent] == END_OF_FILE && Taken(t, req.Id())
    ensures WriteCode(fat, t, req) == -1 <==>
      fat[req.parent] == END_OF_FILE && !Taken(t, req.Id()) && (Full(t) || |FreeClusters(fat)| < Demand(req))
    ensures WriteCode(fat, t, req) == 0 <==>
      fat[req.parent] == END_OF_FILE && !Taken(t, req.Id()) && !Full(t) && Demand(req) <= |FreeClusters(fat)|
  {
    hide FreeBelow, Needed, Demand, Scan, FreeSlot, Full;
    FreeCount(fat);
    DemandMet(req);
    assert Taken(t, req.Id()) <==> Scan(t, req.Id(), 2) < TABLE_SIZE;
    SlotIffNotFull(t);
  }

  lemma SlotIffNotFull(t: Table)
    ensures Full(t) <==> FreeSlot(t) == TABLE_SIZE
  {
  }

  // In a sound volume a name is taken exactly when the tree has it; the all-zero name, which no node
  // bears, is taken exactly when the directory has an empty slot.
  lemma TakenIffNamed(img: Image, dp: seq<Key>, req: Request)
    requires Sound(img) && DirAt(ViewOf(img), dp) == req.parent != 0
    ensures Taken(TableAt(img, req.parent), req.Id()) <==>
      if req.Id() == NO_KEY then !Full(TableAt(img, req.parent))
      else Lookup(ViewOf(img), dp + [req.Id()]) != None
  {
    hide Weak, ViewOf, TableAt, DirAt, NodeOf, FolderOk, TableOk, Taken, Full, Find;
    var v, t := ViewOf(img), TableAt(img, req.parent);
    Views(img, req.parent);
    ReachedFolder(v, dp);
    Step(v, dp, req.Id());
    ZeroTaken(t, req.parent);
    if req.Id() != NO_KEY {
      TakenListed(t, req.parent, req.Id());
    }
  }

  lemma ZeroTaken(t: Table, d: ClusterNo)
    requires TableOk(t, d)
    ensures Taken(t, NO_KEY) <==> !Full(t)
  {
  }

  lemma TakenListed(t: Table, d: ClusterNo, key: Key)
    requires TableOk(t, d) && key != NO_KEY
    ensures Taken(t, key) <==> Find(t, key) != None
  {
  }

  // delete reports 0 exactly when the tree has the name, or the name is all zero or the directory's own;
  // otherwise it reports 1.
  lemma DeleteOutcome(s: State, dp: seq<Key>, req: Request)
    requires Mounted(s) && DirAt(ViewOf(s.img), dp) == req.parent != 0
    ensures EffectOf(s, DeleteOp(req)).code ==
      if Lookup(ViewOf(s.img), dp + [req.Id()]) != None
         || req.Id() == NO_KEY || req.Id() == TableAt(s.img, req.parent)[0].Id()
      then 0 else 1
  {
    hide ViewOf, DirAt, Weak, TableAt, FatOf, Chain, Scan, Lookup, NodeOf, Release, DeleteLog, LeadsAstray;
    var t := TableAt(s.img, req.parent);
    Views(s.img, req.parent);
    if req.Id() == t[0].Id() {
      OwnNameSlot(t, 0);
    } else if req.Id() == NO_KEY {
      NoNameSlot(ViewOf(s.img), dp, 0);
    } else {
      Found(s.img, dp, req);
    }
  }

  // Slot i is the first one from slot 0 on that has the key.
  predicate FirstWith(t: Table, key: Key, i: nat) {
    i < 64 && t[i].Id() == key && forall j :: 0 <= j < i ==> t[j].Id() != key
  }

  // Whatever the map, the table and the request, read answers 2 exactly when the parent's link is no end
  // mark or no slot has the key; else the first such slot decides, by its attribute and its size.
  lemma ReadOutcome(fat: Fat, t: Table, req: Request, i: nat)
    requires req.parent < 512
    ensures ReadCode(fat, t, req) == 2 <==>
      fat[req.parent] != 0x0FFFFFFF || forall j :: 0 <= j < 64 ==> t[j].Id() != req.Id()
    ensures fat[req.parent] == 0x0FFFFFFF && FirstWith(t, req.Id(), i) && t[i].fileSize <= 0x100_0000 ==>
      ReadCode(fat, t, req) ==
        if t[i].attribute == 0x10 then 1
        else if req.bufferSize / 2048 < (t[i].fileSize + 2047) / 2048 % 256 then -1
        else 0
  {
    hide Scan, Ceil;
    if FirstWith(t, req.Id(), i) {
      CeilExact(t[i].fileSize);
    }
  }

  // Slot i is the first one from slot 0 on that has the eight name bytes.
  predicate FirstNamed(t: Table, name: Name, i: nat) {
    i < 64 && t[i].name == name && forall j :: 0 <= j < i ==> t[j].name != name
  }

  // Whatever the table and the request, read_directory answers 2 exactly when no slot has the name bytes;
  // else the first such slot decides, by bit 4 of its attribute and by its size.
  lemma ReadDirectoryOutcome(t: Table, req: Request, i: nat)
    ensures ReadDirectoryCode(t, req) == 2 <==> forall j :: 0 <= j < 64 ==> t[j].name != req.name
    ensures FirstNamed(t, req.name, i) ==>
      && ScanName(t, req.name, 0) == i
      && ReadDirectoryCode(t, req) ==
           if t[i].attribute / 0x10 % 2 == 0 then 1 else if req.bufferSize < t[i].fileSize then -1 else 0
  {
    hide ScanName;
  }

  // A successful write takes the lowest free slot and the lowest free clusters, and links those in
  // ascending order; no other slot and no other link changes.
  lemma WriteUsesLowest(s: State, dp: seq<Key>, req: Request, data: seq<byte>) returns (i: nat, c: seq<ClusterNo>)
    requires Mounted(s) && Allowed(s, WriteOp(req, data)) && DirAt(ViewOf(s.img), dp) == req.parent != 0
    requires EffectOf(s, WriteOp(req, data)).code == 0
    ensures var t, t' := TableAt(s.img, req.parent), TableAt(Next(s, WriteOp(req, data)).img, req.parent);
      && 2 <= i < TABLE_SIZE && !t[i].Live() && (forall j :: 2 <= j < i ==> t[j].Live())
      && |c| == Demand(req) > 0
      && t' == t[i := t'[i]]
      && t'[i].Live() && t'[i].Id() == req.Id() && t'[i].Head() == c[0] && t'[i].fileSize == req.bufferSize
      && (t'[i].IsFolder() <==> req.bufferSize == 0)
    ensures forall j, k :: 0 <= j < k < |c| ==> c[j] < c[k]
    ensures forall x :: x in c ==> s.fat[x] == EMPTY_ENTRY
    ensures forall x: ClusterNo, y :: s.fat[x] == EMPTY_ENTRY && x !in c && y in c ==> y < x
    ensures forall x: ClusterNo :: x !in c ==> Next(s, WriteOp(req, data)).fat[x] == s.fat[x]
    ensures forall k: nat :: k < |c| ==>
      Next(s, WriteOp(req, data)).fat[c[k]] == if k + 1 < |c| then c[k + 1] else END_OF_FILE
  {
    hide Sound, DirAt, ViewOf, TableAt, FatOf, StoreLog, FreeBelow, Scan, Link, Fresh, Needed, Demand;
    c := WriteLinksLowest(s, dp, req, data);
    DemandMet(req);
    i := FreeSlot(TableAt(s.img, req.parent));
    ChosenLowest(s.fat, req);
    AcceptedPlaced(s, dp, req, data);
    StoreImage(s.img, dp, req, c, data);
  }

  lemma WriteLinksLowest(s: State, dp: seq<Key>, req: Request, data: seq<byte>) returns (c: seq<ClusterNo>)
    requires Mounted(s) && Allowed(s, WriteOp(req, data)) && DirAt(ViewOf(s.img), dp) == req.parent != 0
    requires EffectOf(s, WriteOp(req, data)).code == 0
    ensures Needed(req) <= |FreeBelow(s.fat, CLUSTER_MAP_SIZE)| && c == Chosen(s.fat, req)
    ensures forall x: ClusterNo :: x !in c ==> Next(s, WriteOp(req, data)).fat[x] == s.fat[x]
    ensures forall k: nat :: k < |c| ==>
      Next(s, WriteOp(req, data)).fat[c[k]] == if k + 1 < |c| then c[k + 1] else END_OF_FILE
  {
    hide Sound, DirAt, ViewOf, TableAt, FatOf, StoreLog, FreeBelow, Scan, Link, Fresh, Needed, Demand;
    DemandMet(req);
    c := Chosen(s.fat, req);
    ChosenLowest(s.fat, req);
    AcceptedPlaced(s, dp, req, data);
    LinksStored(s.fat, c);
  }

  lemma LinksStored(fat: Fat, c: seq<ClusterNo>)
    requires Distinct(c)
    ensures forall x: ClusterNo :: x !in c ==> Link(fat, c, |c|)[x] == fat[x]
    ensures forall k: nat :: k < |c| ==> Link(fat, c, |c|)[c[k]] == NextLink(c, k)
  {
    forall x: ClusterNo
      ensures x !in c ==> Link(fat, c, |c|)[x] == fat[x]
      ensures forall k: nat :: k < |c| && c[k] == x ==> Link(fat, c, |c|)[x] == NextLink(c, k)
    {
      LinkAt(fat, c, |c|, x);
      assert c[..|c|] == c;
    }
  }

  // The chain of a live entry is in range, free of repeats, linked in order, ended, and of the right length.
  ghost predicate ProperChain(v: Vol, e: DirEntry) {
    var s := Chain(v.fat, e.Head());
    && Distinct(s) && (forall x :: x in s ==> 3 <= x)
    && |s| == (if e.IsFolder() then 1 else ClusterCount(e.fileSize)) && 1 <= |s| <= 255 && s[0] == e.Head()
    && forall n: nat :: n < |s| ==> v.fat[s[n]] == if n + 1 < |s| then s[n + 1] else END_OF_FILE
  }

  lemma LiveChain(v: Vol, d: ClusterNo, i: nat)
    requires Weak(v) && Reach(v, d) && LiveAt(v, d, i)
    ensures ProperChain(v, v.table[d][i])
  {
    assert EntryOk(v, v.table[d][i]);
    ChainLinks(v.fat, v.table[d][i].Head());
  }

  // After any run every live entry has a proper chain, and no cluster belongs to two of them.
  lemma RunChains(s: State, ops: seq<Op>)
    requires Mounted(s) && AllowedRun(s, ops)
    ensures var v := ViewOf(Run(s, ops).img);
      && (forall d: ClusterNo, i: nat :: Reach(v, d) && LiveAt(v, d, i) ==> ProperChain(v, v.table[d][i]))
      && forall d: ClusterNo, i: nat, d': ClusterNo, i': nat, x: ClusterNo ::
           Owns(v, d, i, x) && Owns(v, d', i', x) ==> d == d' && i == i'
  {
    RunKeepsMounted(s, ops);
    var v := ViewOf(Run(s, ops).img);
    hide ViewOf, Chain, Run, ProperChain;
    forall d: ClusterNo, i: nat | Reach(v, d) && LiveAt(v, d, i) ensures ProperChain(v, v.table[d][i]) {
      LiveChain(v, d, i);
    }
  }
}
