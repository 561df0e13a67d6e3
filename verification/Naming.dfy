/**
 * The naming conditions of the shell's walks survive: after any run whose writes respect them, every
 * volume the driver reaches meets them, so that find and cd work on it as they do on the first one.
 */
module Naming {
  import opened Machine
  import opened Layout
  import opened Volume
  import opened Operations
  import opened Atomic
  import opened Runs
  import opened Reading
  import opened Strings
  import opened Shell

  // A zero extension, a zero-padded name, and not the name in the self entry of cluster d.
  ghost predicate NamedFor(v: Vol, d: ClusterNo, key: Key) {
    key.ext == NO_EXT && ZeroPadded(key.name) && key.name != v.table[d][0].name
  }

  // WellNamed, said of paths.
  ghost predicate PathsNamed(v: Vol) {
    forall p, k :: Lookup(v, p + [k]) != None ==> NamedFor(v, DirAt(v, p), k)
  }

  lemma ListedNamed(v: Vol, d: ClusterNo, i: nat, p: seq<Key>)
    requires WellNamed(v) && DirAt(v, p) == d != 0 && LiveAt(v, d, i)
    ensures NamedFor(v, d, v.table[d][i].Id())
  {
    assert Reach(v, d);
  }

  lemma NamedIffPaths(v: Vol)
    requires Weak(v)
    ensures WellNamed(v) <==> PathsNamed(v)
  {
    hide Weak, DirAt, Lookup;
    if WellNamed(v) {
      hide WellNamed, NamedFor;
      forall p, k | Lookup(v, p + [k]) != None ensures NamedFor(v, DirAt(v, p), k) {
        PathNamed(v, p, k);
      }
    }
    if PathsNamed(v) {
      forall d: ClusterNo, i: nat | Reach(v, d) && LiveAt(v, d, i) ensures NamedFor(v, d, v.table[d][i].Id()) {
        var p :| DirAt(v, p) == d;
        ListedNode(v, p, i);
      }
    }
  }

  lemma PathNamed(v: Vol, p: seq<Key>, k: Key)
    requires WellNamed(v) && Lookup(v, p + [k]) != None
    ensures NamedFor(v, DirAt(v, p), k)
  {
    hide WellNamed, DirAt, NamedFor;
    Step(v, p, k);
    ListedNamed(v, DirAt(v, p), Scan(v.table[DirAt(v, p)], k, 2), p);
  }

  // The operation writes, if it writes, under a name its directory allows.
  ghost predicate NamesWell(s: State, op: Op)
    requires Runnable(op)
  {
    op.WriteOp? ==> NamedFor(ViewOf(s.img), op.req.parent, op.req.Id())
  }

  lemma OldNamed(v: Vol, w: Vol, p: seq<Key>, k: Key)
    requires PathsNamed(v) && KeepsFolders(v, w) && Lookup(v, p + [k]) != None && DirAt(w, p) != 0
    ensures NamedFor(w, DirAt(w, p), k)
  {
    hide DirAt, Lookup;
    ParentExists(v, p + [k]);
    assert (p + [k])[..|p|] == p;
  }

  lemma NewParent(w: Vol, p: seq<Key>, k: Key)
    requires Lookup(w, p + [k]) != None
    ensures DirAt(w, p) != 0
  {
    hide DirAt;
    assert (p + [k])[..|p|] == p;
  }

  lemma ChangeNamed(v: Vol, w: Vol, op: Op, dp: seq<Key>)
    requires PathsNamed(v) && Changed(v, w, op, dp) && DirAt(v, dp) == op.req.parent != 0
    requires op.WriteOp? ==> NamedFor(v, op.req.parent, op.req.Id())
    ensures PathsNamed(w)
  {
    hide DirAt, Lookup, WriteNode, NamedFor, PathsNamed;
    forall p, k | Lookup(w, p + [k]) != None ensures NamedFor(w, DirAt(w, p), k) {
      NewParent(w, p, k);
      if Lookup(v, p + [k]) != None {
        OldNamed(v, w, p, k);
      } else {
        NewNamed(v, w, op, dp, p, k);
      }
    }
    AllNamed(w);
  }

  lemma AllNamed(w: Vol)
    requires forall p, k :: Lookup(w, p + [k]) != None ==> NamedFor(w, DirAt(w, p), k)
    ensures PathsNamed(w)
  {
  }

  lemma NewNamed(v: Vol, w: Vol, op: Op, dp: seq<Key>, p: seq<Key>, k: Key)
    requires Changed(v, w, op, dp) && DirAt(v, dp) == op.req.parent != 0 && DirAt(w, p) != 0
    requires op.WriteOp? ==> NamedFor(v, op.req.parent, op.req.Id())
    requires Lookup(w, p + [k]) != None && Lookup(v, p + [k]) == None
    ensures NamedFor(w, DirAt(w, p), k)
  {
    hide DirAt, Lookup, WriteNode;
    assert p + [k] == dp + [op.req.Id()];
    assert p == (p + [k])[..|p + [k]| - 1] && dp == (dp + [op.req.Id()])[..|dp + [op.req.Id()]| - 1];
    assert k == (p + [k])[|p + [k]| - 1];
    assert dp != dp + [op.req.Id()];
  }

  lemma StepKeepsNames(s: State, op: Op)
    requires Mounted(s) && WellNamed(ViewOf(s.img)) && Allowed(s, op) && NamesWell(s, op)
    ensures Mounted(Next(s, op)) && WellNamed(ViewOf(Next(s, op).img))
  {
    hide Weak, ViewOf, DirAt, WellNamed, PathsNamed, Changed, EffectOf, After, FatOf, TableAt, Lookup, NamedFor;
    var v, w := ViewOf(s.img), ViewOf(Next(s, op).img);
    StepKeepsMounted(s, op);
    NamedIffPaths(v);
    NamedIffPaths(w);
    if Reach(v, op.req.parent) {
      var dp :| DirAt(v, dp) == op.req.parent;
      StepKeeps(s, op, dp);
      if EffectOf(s, op).code == 0 {
        ChangeNamed(v, w, op, dp);
      }
    } else {
      RefusedElsewhere(s, op);
      Unchanged(s, op);
      Kept(s, op);
    }
  }

  // A write that goes through keeps the conditions exactly when it respects them.
  lemma WriteNamesIff(s: State, dp: seq<Key>, req: Request, data: seq<byte>)
    requires Mounted(s) && WellNamed(ViewOf(s.img)) && Allowed(s, WriteOp(req, data))
    requires DirAt(ViewOf(s.img), dp) == req.parent != 0 && EffectOf(s, WriteOp(req, data)).code == 0
    ensures WellNamed(ViewOf(Next(s, WriteOp(req, data)).img)) <==> NamedFor(ViewOf(s.img), req.parent, req.Id())
  {
    hide Weak, ViewOf, DirAt, WellNamed, EffectOf, After, FatOf, TableAt, Lookup, WriteNode;
    var v, w := ViewOf(s.img), ViewOf(Next(s, WriteOp(req, data)).img);
    StepKeeps(s, WriteOp(req, data), dp);
    if NamedFor(v, req.parent, req.Id()) {
      StepKeepsNames(s, WriteOp(req, data));
    } else if WellNamed(w) {
      assert dp != dp + [req.Id()];
      PathNamed(w, dp, req.Id());
    }
  }

  ghost predicate NamedRun(s: State, ops: seq<Op>)
    requires AllowedRun(s, ops)
    decreases |ops|
  {
    ops == [] || (NamesWell(s, ops[0]) && NamedRun(Next(s, ops[0]), ops[1..]))
  }

  // The names stay good over any run of such operations.
  lemma {:induction false} RunKeepsNames(s: State, ops: seq<Op>)
    requires Mounted(s) && WellNamed(ViewOf(s.img)) && AllowedRun(s, ops) && NamedRun(s, ops)
    ensures Mounted(Run(s, ops)) && WellNamed(ViewOf(Run(s, ops).img))
    decreases |ops|
  {
    hide Mounted, WellNamed, Next, NamesWell, ViewOf;
    if ops != [] {
      StepKeepsNames(s, ops[0]);
      RunKeepsNames(Next(s, ops[0]), ops[1..]);
    }
  }
}
