/**
 * Runs with crashes. Every event is a completed operation, or an operation cut after any number of its
 * block writes and followed by a new mount. Whatever the events, the volume stays mounted, and its tree
 * is the first one changed by the committed operations alone, in order.
 */
module Recovery {
  import opened Machine
  import opened Layout
  import opened Volume
  import opened Disk
  import opened Operations
  import opened Crash
  import opened Atomic
  import opened Runs

  datatype Event = Done(op: Op) | Cut(op: Op, n: nat)

  datatype Change = Add(path: seq<Key>, node: Node) | Remove(path: seq<Key>)

  ghost predicate Possible(s: State, e: Event) {
    Allowed(s, e.op) && (e.Cut? ==> e.n <= |EffectOf(s, e.op).log|)
  }

  // What mounting a device caches.
  ghost function Remounted(img: Image): State {
    State(FatOf(img), img)
  }

  ghost function Reached(s: State, e: Event): State
    requires Possible(s, e)
  {
    match e
    case Done(op) => Next(s, op)
    case Cut(op, n) => Remounted(Replay(s.img, EffectOf(s, op).log[..n]))
  }

  // The event takes effect: it completes successfully, or is cut behind the commit block.
  ghost predicate Committed(s: State, e: Event)
    requires Possible(s, e)
  {
    match e
    case Done(op) => EffectOf(s, op).code == 0
    case Cut(op, n) => Commits(s, op, n)
  }

  // The path of a directory.
  ghost function PathTo(v: Vol, d: ClusterNo): seq<Key> {
    if path :| DirAt(v, path) == d then path else []
  }

  ghost function ChangeOf(s: State, op: Op): Change
    requires Runnable(op)
  {
    var path := PathTo(ViewOf(s.img), op.req.parent) + [op.req.Id()];
    match op
    case WriteOp(req, data) => Add(path, WriteNode(req, data))
    case DeleteOp(req) => Remove(path)
  }

  ghost predicate PossibleRun(s: State, es: seq<Event>)
    decreases |es|, 0
  {
    es == [] ||
    var n := |es| - 1;
    PossibleRun(s, es[..n]) && Possible(AfterEvents(s, es[..n]), es[n])
  }

  ghost function AfterEvents(s: State, es: seq<Event>): State
    requires PossibleRun(s, es)
    decreases |es|, 1
  {
    if es == [] then s else Reached(AfterEvents(s, es[..|es| - 1]), es[|es| - 1])
  }

  // The changes of the committed events, in order.
  ghost function Changes(s: State, es: seq<Event>): seq<Change>
    requires PossibleRun(s, es)
    decreases |es|
  {
    if es == [] then []
    else
      var before, e := AfterEvents(s, es[..|es| - 1]), es[|es| - 1];
      Changes(s, es[..|es| - 1]) + if Committed(before, e) then [ChangeOf(before, e.op)] else []
  }

  // What path p names once the changes have been made to the tree of v.
  ghost function TreeAfter(v: Vol, changes: seq<Change>, p: seq<Key>): Option<Node> {
    if changes == [] then Lookup(v, p)
    else
      var earlier := TreeAfter(v, changes[..|changes| - 1], p);
      match changes[|changes| - 1]
      case Add(path, node) => if p == path then Some(node) else earlier
      case Remove(path) => if path <= p then None else earlier
  }

  // w is v after the change.
  ghost predicate Made(v: Vol, w: Vol, c: Change) {
    forall p :: Lookup(w, p) ==
      match c
      case Add(path, node) => if p == path then Some(node) else Lookup(v, p)
      case Remove(path) => if path <= p then None else Lookup(v, p)
  }

  lemma ChangedMade(s: State, w: Vol, op: Op)
    requires Runnable(op) && Changed(ViewOf(s.img), w, op, PathTo(ViewOf(s.img), op.req.parent))
    ensures Made(ViewOf(s.img), w, ChangeOf(s, op))
  {
    hide Lookup, DirAt, ViewOf, PathTo, KeepsFolders, WriteNode;
  }

  lemma EventInFolder(s: State, e: Event)
    requires Mounted(s) && Possible(s, e) && Reach(ViewOf(s.img), e.op.req.parent)
    ensures Mounted(Reached(s, e))
    ensures if Committed(s, e) then Made(ViewOf(s.img), ViewOf(Reached(s, e).img), ChangeOf(s, e.op))
            else forall p :: Lookup(ViewOf(Reached(s, e).img), p) == Lookup(ViewOf(s.img), p)
  {
    hide Sound, ViewOf, DirAt, Lookup, Changed, Made, FatOf, EffectOf, CommitPoint, After, ChangeOf, KeepsFolders;
    var dp := PathTo(ViewOf(s.img), e.op.req.parent);
    match e
    case Done(op) =>
      StepKeeps(s, op, dp);
      if Committed(s, e) {
        ChangedMade(s, ViewOf(Reached(s, e).img), op);
      }
    case Cut(op, n) =>
      CrashAtomic(s, op, dp, n);
      if Committed(s, e) {
        ChangedMade(s, ViewOf(Reached(s, e).img), op);
      }
  }

  // A refused write may name any cluster.
  lemma EventElsewhere(s: State, e: Event)
    requires Mounted(s) && Possible(s, e) && !Reach(ViewOf(s.img), e.op.req.parent)
    ensures !Committed(s, e) && Reached(s, e) == s
  {
    hide Sound, ViewOf, DirAt, FatOf, Scan, TableAt;
    RefusedElsewhere(s, e.op);
    Unchanged(s, e.op);
    hide EffectOf;
  }

  lemma EventKeeps(s: State, e: Event)
    requires Mounted(s) && Possible(s, e)
    ensures Mounted(Reached(s, e))
    ensures if Committed(s, e) then Made(ViewOf(s.img), ViewOf(Reached(s, e).img), ChangeOf(s, e.op))
            else forall p :: Lookup(ViewOf(Reached(s, e).img), p) == Lookup(ViewOf(s.img), p)
  {
    hide Mounted, Reached, Committed, ChangeOf, Made, Lookup, ViewOf, Reach;
    if Reach(ViewOf(s.img), e.op.req.parent) {
      EventInFolder(s, e);
    } else {
      EventElsewhere(s, e);
    }
  }

  // Over any run of completed operations and crashes, the volume stays mounted, and every path names
  // what the committed operations make of the first tree.
  lemma {:induction false} RunRecovers(s: State, es: seq<Event>)
    requires Mounted(s) && PossibleRun(s, es)
    ensures Mounted(AfterEvents(s, es))
    ensures forall p :: Lookup(ViewOf(AfterEvents(s, es).img), p) == TreeAfter(ViewOf(s.img), Changes(s, es), p)
    decreases |es|
  {
    hide Mounted, Possible, Reached, Committed, ChangeOf, Lookup, ViewOf;
    if es != [] {
      var n := |es| - 1;
      var before := AfterEvents(s, es[..n]);
      RunRecovers(s, es[..n]);
      EventKeeps(before, es[n]);
      if Committed(before, es[n]) {
        assert Changes(s, es)[..|Changes(s, es)| - 1] == Changes(s, es[..n]);
      } else {
        assert Changes(s, es) == Changes(s, es[..n]);
      }
    }
  }
}
