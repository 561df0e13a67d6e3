/**
 * Runs of the driver: what every operation keeps, from any well-formed volume, over any sequence of
 * writes and deletes.
 */
module Runs {
  import opened Machine
  import opened Layout
  import opened Chains
  import opened Volume
  import opened Disk
  import opened Operations
  import opened Crash
  import opened Atomic

  // The volume is sound and the cached table is the one on disk.
  ghost predicate Mounted(s: State) {
    Sound(s.img) && s.fat == FatOf(s.img)
  }

  // What the driver demands of its callers.
  ghost predicate Allowed(s: State, op: Op) {
    && Runnable(op)
    && match op
       case WriteOp(req, data) =>
         && req.bufferSize <= MAX_FILE_SIZE
         && (s.fat[req.parent] == END_OF_FILE ==> Reach(ViewOf(s.img), req.parent))
       case DeleteOp(req) =>
         && Reach(ViewOf(s.img), req.parent)
         && req.Id() != NO_KEY && req.Id() != TableAt(s.img, req.parent)[0].Id()
  }

  ghost function Next(s: State, op: Op): State
    requires Allowed(s, op)
  {
    After(s, op)
  }

  // w is v after the whole operation on the directory at path dp.
  ghost predicate Changed(v: Vol, w: Vol, op: Op, dp: seq<Key>) {
    match op
    case WriteOp(req, data) => AddsNode(v, w, dp + [req.Id()], WriteNode(req, data))
    case DeleteOp(req) => RemovesSubtree(v, w, dp + [req.Id()])
  }

  // An accepted write meets every condition of Atomic, and its effect is the one analysed there.
  lemma AcceptedPlaced(s: State, dp: seq<Key>, req: Request, data: seq<byte>)
    requires Mounted(s) && Allowed(s, WriteOp(req, data)) && DirAt(ViewOf(s.img), dp) == req.parent != 0
    requires EffectOf(s, WriteOp(req, data)).code == 0
    ensures var c := Chosen(s.fat, req);
      && Placed(s.img, dp, req, c, data)
      && EffectOf(s, WriteOp(req, data)) == Effect(0, Link(s.fat, c, |c|), StoreLog(s.img, req, c, data))
  {
    hide Sound, Weak, Reach, DirAt, ViewOf, FatOf, TableAt, Link, FreeBelow, Scan, FreeSlot, Distinct;
    var e := EffectOf(s, WriteOp(req, data));
    NeededBounds(req);
    ChosenLowest(s.fat, req);
    hide WriteCode, PrepareWrites, StoredTable, TableWrites, Chosen, Ceil;
  }

  lemma FoundListed(s: State, dp: seq<Key>, req: Request)
    requires Mounted(s) && Allowed(s, DeleteOp(req)) && DirAt(ViewOf(s.img), dp) == req.parent != 0
    requires EffectOf(s, DeleteOp(req)).code == 0
    ensures Listed(s.img, dp, req)
    ensures EffectOf(s, DeleteOp(req)).log == DeleteLog(s.fat, TableAt(s.img, req.parent), req)
  {
    hide Sound, Weak, Reach, DirAt, ViewOf, FatOf, TableAt, Scan, Release, Chain, DeleteLog;
  }

  // The number of block writes up to the one that makes the operation visible.
  ghost function CommitPoint(s: State, op: Op): nat
    requires Runnable(op) && EffectOf(s, op).code == 0
  {
    var t := TableAt(s.img, op.req.parent);
    match op
    case WriteOp(req, data) =>
      NeededBounds(req);
      |PrepareWrites(s.fat, req, Chosen(s.fat, req), data)| + FreeSlot(t) / 16
    case DeleteOp(req) => Scan(t, req.Id(), 0) / 16
  }

  // The first n block writes of the operation include the one that makes it visible.
  ghost predicate Commits(s: State, op: Op, n: nat)
    requires Runnable(op)
  {
    EffectOf(s, op).code == 0 && CommitPoint(s, op) < n
  }

  lemma WriteCommitPoint(s: State, dp: seq<Key>, req: Request, data: seq<byte>)
    requires Mounted(s) && Allowed(s, WriteOp(req, data)) && DirAt(ViewOf(s.img), dp) == req.parent != 0
    requires EffectOf(s, WriteOp(req, data)).code == 0
    ensures Needed(req) <= |FreeBelow(s.fat, CLUSTER_MAP_SIZE)|
    ensures var c := Chosen(s.fat, req);
      && Placed(s.img, dp, req, c, data)
      && EffectOf(s, WriteOp(req, data)).log == StoreLog(s.img, req, c, data)
      && CommitPoint(s, WriteOp(req, data))
         == |PrepareWrites(FatOf(s.img), req, c, data)| + FreeSlot(TableAt(s.img, req.parent)) / 16
  {
    hide Sound, DirAt, ViewOf, FatOf, TableAt, PrepareWrites, FreeSlot;
    AcceptedPlaced(s, dp, req, data);
  }

  // Crash safety of every operation: cut after any number of block writes, the device is sound and
  // shows the tree after the whole operation if the commit block is out, and the old tree if it is not.
  lemma CrashAtomic(s: State, op: Op, dp: seq<Key>, n: nat)
    requires Mounted(s) && Allowed(s, op) && DirAt(ViewOf(s.img), dp) == op.req.parent != 0
    requires n <= |EffectOf(s, op).log|
    ensures var img' := Replay(s.img, EffectOf(s, op).log[..n]);
      && Sound(img')
      && if Commits(s, op, n) then Changed(ViewOf(s.img), ViewOf(img'), op, dp)
         else SameTree(ViewOf(s.img), ViewOf(img'))
  {
    hide Mounted, DirAt, ViewOf, SameTree, Commits, Changed, EffectOf;
    if EffectOf(s, op).code == 0 {
      match op
      case WriteOp(req, data) => WriteCrash(s, dp, req, data, n);
      case DeleteOp(req) => DeleteCrash(s, dp, req, n);
    } else {
      RefusedCrash(s, op, dp, n);
    }
  }

  lemma WriteCrash(s: State, dp: seq<Key>, req: Request, data: seq<byte>, n: nat)
    requires Mounted(s) && Allowed(s, WriteOp(req, data)) && DirAt(ViewOf(s.img), dp) == req.parent != 0
    requires EffectOf(s, WriteOp(req, data)).code == 0 && n <= |EffectOf(s, WriteOp(req, data)).log|
    ensures var op := WriteOp(req, data); var img' := Replay(s.img, EffectOf(s, op).log[..n]);
      && Sound(img')
      && if Commits(s, op, n) then Changed(ViewOf(s.img), ViewOf(img'), op, dp)
         else SameTree(ViewOf(s.img), ViewOf(img'))
  {
    hide Mounted, Allowed, Sound, DirAt, ViewOf, SameTree, AddsNode, StoreLog, Placed, WriteNode, CommitPoint, EffectOf;
    hide Replay, PrepareWrites, FatOf, TableAt, FreeSlot, Chosen, Needed, FreeBelow;
    WriteCommitPoint(s, dp, req, data);
    StoreAtomic(s.img, dp, req, Chosen(s.fat, req), data, n);
  }

  lemma DeleteCrash(s: State, dp: seq<Key>, req: Request, n: nat)
    requires Mounted(s) && Allowed(s, DeleteOp(req)) && DirAt(ViewOf(s.img), dp) == req.parent != 0
    requires EffectOf(s, DeleteOp(req)).code == 0 && n <= |EffectOf(s, DeleteOp(req)).log|
    ensures var op := DeleteOp(req); var img' := Replay(s.img, EffectOf(s, op).log[..n]);
      && Sound(img')
      && if Commits(s, op, n) then Changed(ViewOf(s.img), ViewOf(img'), op, dp)
         else SameTree(ViewOf(s.img), ViewOf(img'))
  {
    hide Sound, Weak, DirAt, ViewOf, SameTree, RemovesSubtree, DeleteLog, Listed, EffectOf, Replay, Scan;
    FoundListed(s, dp, req);
    EraseAtomic(s.img, dp, req, n);
  }

  lemma RefusedCrash(s: State, op: Op, dp: seq<Key>, n: nat)
    requires Mounted(s) && Runnable(op) && EffectOf(s, op).code != 0 && n <= |EffectOf(s, op).log|
    ensures var img' := Replay(s.img, EffectOf(s, op).log[..n]);
      Sound(img') && !Commits(s, op, n) && SameTree(ViewOf(s.img), ViewOf(img'))
  {
    hide Sound, ViewOf, SameTree, EffectOf, CommitPoint;
    Unchanged(s, op);
    SameAsItself(ViewOf(s.img));
  }

  lemma Unchanged(s: State, op: Op)
    requires Runnable(op) && EffectOf(s, op).code != 0
    ensures EffectOf(s, op).log == [] && EffectOf(s, op).fat == s.fat
  {
    hide WriteCode, Scan, Link, Release, Chain;
  }

  // Run to the end, an operation changes the tree as its result code says, and leaves the device sound
  // with the cached table written through.
  lemma StepKeeps(s: State, op: Op, dp: seq<Key>)
    requires Mounted(s) && Allowed(s, op) && DirAt(ViewOf(s.img), dp) == op.req.parent != 0
    ensures Mounted(Next(s, op))
    ensures if EffectOf(s, op).code == 0 then Changed(ViewOf(s.img), ViewOf(Next(s, op).img), op, dp)
            else Next(s, op) == s
  {
    hide Sound, Weak, DirAt, ViewOf, SameTree, AddsNode, RemovesSubtree, StoreLog, DeleteLog, Placed, Listed, WriteNode;
    if EffectOf(s, op).code == 0 {
      match op
      case WriteOp(req, data) =>
        AcceptedPlaced(s, dp, req, data);
        StoreCommits(s.img, dp, req, Chosen(s.fat, req), data);
      case DeleteOp(req) =>
        FoundListed(s, dp, req);
        EraseWritesThrough(s.img, req);
        EraseFinal(s.img, dp, req);
    } else {
      Unchanged(s, op);
    }
  }

  lemma EraseFinal(img: Image, dp: seq<Key>, req: Request)
    requires Listed(img, dp, req)
    ensures var img' := Replay(img, DeleteLog(FatOf(img), TableAt(img, req.parent), req));
      Sound(img') && RemovesSubtree(ViewOf(img), ViewOf(img'), dp + [req.Id()])
  {
    hide Sound, DirAt, ViewOf, SameTree, RemovesSubtree, TableAt, FatOf, Scan;
    var log := DeleteLog(FatOf(img), TableAt(img, req.parent), req);
    EraseAtomic(img, dp, req, |log|);
    assert log[..|log|] == log;
  }

  // A write to a cluster that is not marked as the end of a chain is refused without effect.
  lemma StepKeepsMounted(s: State, op: Op)
    requires Mounted(s) && Allowed(s, op)
    ensures Mounted(Next(s, op))
  {
    hide Sound, DirAt, ViewOf, Changed, FatOf, TableAt;
    if Reach(ViewOf(s.img), op.req.parent) {
      var dp :| DirAt(ViewOf(s.img), dp) == op.req.parent;
      StepKeeps(s, op, dp);
    } else {
      Unchanged(s, op);
    }
  }

  lemma PerformedKeepsMounted(s: State, op: Op)
    requires Runnable(op)
    ensures Mounted(s) && Allowed(s, op) ==> Mounted(After(s, op))
  {
    hide Mounted, Allowed, After;
    if Mounted(s) && Allowed(s, op) {
      StepKeepsMounted(s, op);
    }
  }

  // Runs.

  ghost predicate AllowedRun(s: State, ops: seq<Op>)
    decreases |ops|
  {
    ops == [] || (Allowed(s, ops[0]) && AllowedRun(Next(s, ops[0]), ops[1..]))
  }

  ghost function Run(s: State, ops: seq<Op>): State
    requires AllowedRun(s, ops)
    decreases |ops|
  {
    if ops == [] then s else Run(Next(s, ops[0]), ops[1..])
  }

  // After any run the volume is sound, the cached table equals the one on disk, and the signature is
  // still there: a reboot neither reformats nor loses anything.
  lemma {:induction false} RunKeepsMounted(s: State, ops: seq<Op>)
    requires Mounted(s) && AllowedRun(s, ops)
    ensures Mounted(Run(s, ops))
    decreases |ops|
  {
    hide Mounted, Allowed, Next;
    if ops != [] {
      StepKeepsMounted(s, ops[0]);
      RunKeepsMounted(Next(s, ops[0]), ops[1..]);
    }
  }

  // No operation deletes the node at path p or a directory above it.
  ghost predicate Spares(s: State, op: Op, p: seq<Key>) {
    op.DeleteOp? ==> forall dp :: DirAt(ViewOf(s.img), dp) == op.req.parent ==> !(dp + [op.req.Id()] <= p)
  }

  ghost predicate SparingRun(s: State, ops: seq<Op>, p: seq<Key>)
    requires AllowedRun(s, ops)
    decreases |ops|
  {
    ops == [] || (Spares(s, ops[0], p) && SparingRun(Next(s, ops[0]), ops[1..], p))
  }

  // The directory at path p is where it was, under the same self entry.
  ghost predicate SameFolder(v: Vol, w: Vol, p: seq<Key>) {
    DirAt(w, p) == DirAt(v, p) != 0 && w.table[DirAt(v, p)][0] == v.table[DirAt(v, p)][0]
  }

  // What spares a node leaves it, in a directory that stays where it was.
  lemma ChangeSpares(v: Vol, w: Vol, op: Op, dp: seq<Key>, p: seq<Key>)
    requires Changed(v, w, op, dp) && Lookup(v, p) != None && (op.DeleteOp? ==> !(dp + [op.req.Id()] <= p))
    ensures Lookup(w, p) == Lookup(v, p)
    ensures p != [] ==> SameFolder(v, w, p[..|p| - 1])
  {
    hide DirAt, Lookup, WriteNode;
    if p != [] {
      ParentExists(v, p);
    }
  }

  lemma SpareStays(v: Vol, p: seq<Key>)
    requires Lookup(v, p) != None
    ensures p != [] ==> SameFolder(v, v, p[..|p| - 1])
  {
    hide DirAt, Lookup;
    if p != [] {
      ParentExists(v, p);
    }
  }

  lemma StepSpares(s: State, op: Op, p: seq<Key>)
    requires Mounted(s) && Allowed(s, op) && Spares(s, op, p) && Lookup(ViewOf(s.img), p) != None
    ensures Mounted(Next(s, op))
    ensures Lookup(ViewOf(Next(s, op).img), p) == Lookup(ViewOf(s.img), p)
    ensures p != [] ==> SameFolder(ViewOf(s.img), ViewOf(Next(s, op).img), p[..|p| - 1])
  {
    hide Sound, DirAt, ViewOf, Lookup, FatOf, TableAt, Changed, SameFolder, EffectOf, After;
    StepKeepsMounted(s, op);
    SpareStays(ViewOf(s.img), p);
    if Reach(ViewOf(s.img), op.req.parent) {
      var dp :| DirAt(ViewOf(s.img), dp) == op.req.parent;
      StepKeeps(s, op, dp);
      if EffectOf(s, op).code == 0 {
        ChangeSpares(ViewOf(s.img), ViewOf(Next(s, op).img), op, dp, p);
      }
    } else {
      RefusedElsewhere(s, op);
      Unchanged(s, op);
      Kept(s, op);
    }
  }

  lemma Kept(s: State, op: Op)
    requires Runnable(op) && EffectOf(s, op).log == [] && EffectOf(s, op).fat == s.fat
    ensures After(s, op) == s
  {
    hide EffectOf;
  }

  // A write to a cluster that is no directory is refused.
  lemma RefusedElsewhere(s: State, op: Op)
    requires Allowed(s, op) && !Reach(ViewOf(s.img), op.req.parent)
    ensures EffectOf(s, op).code != 0
  {
    hide ViewOf, DirAt, Reach, Scan, TableAt, Chosen;
  }

  lemma ParentExists(v: Vol, p: seq<Key>)
    requires p != [] && Lookup(v, p) != None
    ensures DirAt(v, p[..|p| - 1]) != 0 && Lookup(v, p[..|p| - 1]) != None
  {
  }

  // A node nobody deletes keeps its contents, and stays in the same directory cluster, over any run.
  lemma {:induction false} RunSpares(s: State, ops: seq<Op>, p: seq<Key>)
    requires Mounted(s) && AllowedRun(s, ops) && SparingRun(s, ops, p) && Lookup(ViewOf(s.img), p) != None
    ensures Mounted(Run(s, ops)) && Lookup(ViewOf(Run(s, ops).img), p) == Lookup(ViewOf(s.img), p)
    ensures p != [] ==> SameFolder(ViewOf(s.img), ViewOf(Run(s, ops).img), p[..|p| - 1])
    decreases |ops|
  {
    hide Mounted, Allowed, Next, Lookup, DirAt, ViewOf, Spares;
    if p != [] {
      ParentExists(ViewOf(s.img), p);
    }
    if ops != [] {
      StepSpares(s, ops[0], p);
      RunSpares(Next(s, ops[0]), ops[1..], p);
    }
  }

  // A crash at any point of any run leaves a sound device; rebooting from it mounts again.
  lemma RunCrashSafe(s: State, ops: seq<Op>, op: Op, dp: seq<Key>, n: nat)
    requires Mounted(s) && AllowedRun(s, ops) && Allowed(Run(s, ops), op)
    requires DirAt(ViewOf(Run(s, ops).img), dp) == op.req.parent != 0
    requires n <= |EffectOf(Run(s, ops), op).log|
    ensures var img := Run(s, ops).img;
      var img' := Replay(img, EffectOf(Run(s, ops), op).log[..n]);
      && Mounted(State(FatOf(img'), img'))
      && if Commits(Run(s, ops), op, n) then Changed(ViewOf(img), ViewOf(img'), op, dp)
         else SameTree(ViewOf(img), ViewOf(img'))
  {
    hide Sound, ViewOf, DirAt, SameTree, Changed, EffectOf, Allowed, Run, AllowedRun, FatOf, CommitPoint;
    RunKeepsMounted(s, ops);
    CrashAtomic(Run(s, ops), op, dp, n);
  }

  // Directories.

  lemma ReachedFolder(v: Vol, dp: seq<Key>)
    requires Weak(v) && DirAt(v, dp) != 0
    ensures FolderOk(v, DirAt(v, dp)) && TableOk(v.table[DirAt(v, dp)], DirAt(v, dp))
  {
    assert Reach(v, DirAt(v, dp));
  }

  // The guard of read and write holds of every directory.
  lemma FolderMark(v: Vol, dp: seq<Key>)
    requires Weak(v) && DirAt(v, dp) != 0
    ensures v.fat[DirAt(v, dp)] == END_OF_FILE
  {
    if dp != [] {
      var d, i := FolderOwned(v, dp);
      var s := Chain(v.fat, v.table[d][i].Head());
      assert s == [DirAt(v, dp)];
    }
  }

  lemma SelfChain(v: Vol, dp: seq<Key>)
    requires Weak(v) && DirAt(v, dp) != 0
    ensures v.fat[DirAt(v, dp)] == END_OF_FILE && Chain(v.fat, DirAt(v, dp)) == [DirAt(v, dp)]
  {
    FolderMark(v, dp);
  }

  lemma SelfHead(v: Vol, dp: seq<Key>)
    requires Weak(v) && DirAt(v, dp) != 0
    ensures var e := v.table[DirAt(v, dp)][0]; e.Head() == DirAt(v, dp) && e.IsFolder() && e.fileSize == 0
  {
    assert Reach(v, DirAt(v, dp));
  }

  // Scanning from the self entry finds the same slot as scanning the listed entries.
  lemma ScanFromSelf(t: Table, d: ClusterNo, key: Key)
    requires TableOk(t, d) && key != NO_KEY && key != t[0].Id()
    ensures Scan(t, key, 0) == Scan(t, key, 2)
    ensures Scan(t, key, 0) < TABLE_SIZE ==> t[Scan(t, key, 0)].Live()
    ensures Find(t, key) == if Scan(t, key, 0) < TABLE_SIZE then Some(t[Scan(t, key, 0)]) else None
  {
    assert t[1].Id() == NO_KEY;
  }
}
