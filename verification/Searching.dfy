/**
 * What find prints, said of paths: one name for every path that is shown, in slot order along the paths.
 * A path below the start is shown when its entry matches, no live slot before its own does, and the same
 * holds of every directory on the way, except that these do not match themselves.
 */
module Searching {
  import opened Machine
  import opened Layout
  import opened Volume
  import opened Shell

  // The slot of the entry a path names, in the directory above it.
  ghost function PathSlot(v: Vol, q: seq<Key>): nat
    requires q != []
  {
    Scan(v.table[DirAt(v, q[..|q| - 1])], q[|q| - 1], 2)
  }

  // The path names an entry, and no live slot before that entry's matches.
  ghost predicate Met(v: Vol, q: seq<Key>, name: seq<byte>) {
    q != [] && EntryAt(v, q).Some? &&
    var d := DirAt(v, q[..|q| - 1]);
    forall j: nat :: j < PathSlot(v, q) && LiveAt(v, d, j) ==> !Matches(v.table[d][j], name)
  }

  // The path is met and, as its entry does not match, searched.
  ghost predicate Passed(v: Vol, q: seq<Key>, name: seq<byte>) {
    Met(v, q, name) && !Matches(EntryAt(v, q).value, name)
  }

  ghost predicate Shown(v: Vol, p: seq<Key>, q: seq<Key>, name: seq<byte>) {
    && p < q && Met(v, q, name) && Matches(EntryAt(v, q).value, name)
    && forall n: nat :: |p| < n < |q| ==> Passed(v, q[..n], name)
  }

  // Where the paths part, x turns into an earlier slot than y.
  ghost predicate Earlier(v: Vol, x: seq<Key>, y: seq<Key>) {
    exists n: nat :: n < |x| && n < |y| && x[..n] == y[..n] && PathSlot(v, x[..n + 1]) < PathSlot(v, y[..n + 1])
  }

  ghost predicate InOrder(v: Vol, qs: seq<seq<Key>>) {
    forall a, b :: 0 <= a < b < |qs| ==> Earlier(v, qs[a], qs[b])
  }

  // Shown through slot i or a later one of the directory at path p.
  ghost predicate ShownFrom(v: Vol, p: seq<Key>, i: nat, q: seq<Key>, name: seq<byte>) {
    Shown(v, p, q, name) && i <= PathSlot(v, q[..|p| + 1])
  }

  // The names are those of the paths, one by one.
  ghost predicate NamesOf(names: seq<Name>, qs: seq<seq<Key>>) {
    |names| == |qs| && forall a :: 0 <= a < |qs| ==> qs[a] != [] && names[a] == qs[a][|qs[a]| - 1].name
  }

  // One step down.
  lemma ShownStep(v: Vol, p: seq<Key>, q: seq<Key>, name: seq<byte>)
    requires p < q
    ensures var r := q[..|p| + 1];
      Shown(v, p, q, name) <==>
        if r == q then Met(v, q, name) && Matches(EntryAt(v, q).value, name)
        else Passed(v, r, name) && Shown(v, r, q, name)
  {
    hide Met, Passed, EntryAt, Matches;
    var r := q[..|p| + 1];
    if r != q {
      assert r < q;
    }
  }

  // A live slot is the slot of the path that names it.
  lemma SlotNamed(v: Vol, p: seq<Key>, i: nat)
    requires Weak(v) && DirAt(v, p) != 0 && LiveAt(v, DirAt(v, p), i)
    ensures var e := v.table[DirAt(v, p)][i]; var r := p + [e.Id()];
      EntryAt(v, r) == Some(e) && PathSlot(v, r) == i && (!e.IsFolder() ==> DirAt(v, r) == 0)
  {
    SlotPath(v, p, i);
    ReachVisible(v, p);
    var e := v.table[DirAt(v, p)][i];
    assert (p + [e.Id()])[..|p|] == p;
    FindLive(v.table[DirAt(v, p)], DirAt(v, p), i);
  }

  // A path that names an entry leads through a live slot.
  lemma SlotLive(v: Vol, p: seq<Key>, r: seq<Key>)
    requires p <= r && |r| == |p| + 1 && EntryAt(v, r).Some?
    ensures var i := PathSlot(v, r); var d := DirAt(v, p);
      d != 0 && LiveAt(v, d, i) && EntryAt(v, r) == Some(v.table[d][i]) && r == p + [v.table[d][i].Id()]
  {
    assert r[..|r| - 1] == p;
    hide DirAt;
  }

  // No slot before i of the directory at path p matches.
  ghost predicate ClearBefore(v: Vol, p: seq<Key>, i: nat, name: seq<byte>) {
    forall j: nat :: j < i && LiveAt(v, DirAt(v, p), j) ==> !Matches(v.table[DirAt(v, p)][j], name)
  }

  lemma MetIff(v: Vol, p: seq<Key>, i: nat, name: seq<byte>)
    requires Weak(v) && DirAt(v, p) != 0 && LiveAt(v, DirAt(v, p), i)
    ensures Met(v, p + [v.table[DirAt(v, p)][i].Id()], name) <==> ClearBefore(v, p, i, name)
  {
    SlotNamed(v, p, i);
    var r := p + [v.table[DirAt(v, p)][i].Id()];
    assert r[..|r| - 1] == p;
    hide Weak, DirAt, Matches;
  }

  // Slot i contributes what is shown through it.
  ghost predicate ShownThrough(v: Vol, p: seq<Key>, i: nat, q: seq<Key>, name: seq<byte>) {
    Shown(v, p, q, name) && PathSlot(v, q[..|p| + 1]) == i
  }

  lemma ThroughSlot(v: Vol, p: seq<Key>, i: nat, q: seq<Key>, name: seq<byte>)
    requires Weak(v) && DirAt(v, p) != 0 && LiveAt(v, DirAt(v, p), i) && ClearBefore(v, p, i, name)
    ensures var e := v.table[DirAt(v, p)][i]; var r := p + [e.Id()];
      ShownThrough(v, p, i, q, name) <==>
        if Matches(e, name) then q == r else e.IsFolder() && Shown(v, r, q, name)
  {
    hide Weak, DirAt, Matches, Met, ClearBefore, EntryAt, Shown, PathSlot;
    var e := v.table[DirAt(v, p)][i];
    var r := p + [e.Id()];
    SlotNamed(v, p, i);
    MetIff(v, p, i, name);
    if Shown(v, p, q, name) {
      ShownBelow(v, p, q, name);
      SlotLive(v, p, q[..|p| + 1]);
      ShownStep(v, p, q, name);
      if PathSlot(v, q[..|p| + 1]) == i && q != r && !e.IsFolder() {
        NothingShown(v, r, q, name);
      }
    }
    if q == r {
      assert q[..|p| + 1] == r;
      ShownStep(v, p, q, name);
    }
    if Shown(v, r, q, name) {
      ShownBelow(v, r, q, name);
      assert q[..|p| + 1] == r;
      ShownStep(v, p, q, name);
    }
  }

  lemma ShownBelow(v: Vol, p: seq<Key>, q: seq<Key>, name: seq<byte>)
    requires Shown(v, p, q, name)
    ensures p < q && EntryAt(v, q[..|p| + 1]).Some?
  {
    hide EntryAt, Matches;
    ShownStep(v, p, q, name);
  }

  lemma NothingShown(v: Vol, r: seq<Key>, q: seq<Key>, name: seq<byte>)
    requires DirAt(v, r) == 0
    ensures !Shown(v, r, q, name)
  {
    hide Matches;
    if Shown(v, r, q, name) {
      BelowFolder(v, r, q);
    }
  }

  // What is shown through one slot: the paths, in order, and their names.
  lemma {:induction false} SlotListing(v: Vol, p: seq<Key>, i: nat, name: seq<byte>) returns (qs: seq<seq<Key>>)
    requires Weak(v) && DirAt(v, p) != 0 && LiveAt(v, DirAt(v, p), i) && ClearBefore(v, p, i, name)
    ensures forall q :: q in qs <==> ShownThrough(v, p, i, q, name)
    ensures InOrder(v, qs) && NamesOf(SlotPrintout(v, p, i, name), qs)
    decreases CLUSTER_MAP_SIZE - |p|, TABLE_SIZE - i, 0
  {
    hide Weak, DirAt, Matches, ClearBefore, EntryAt, Shown, ShownThrough, Printout, Earlier;
    var e := v.table[DirAt(v, p)][i];
    var r := p + [e.Id()];
    DepthBound(v, p);
    SlotPath(v, p, i);
    forall q
      ensures ShownThrough(v, p, i, q, name) <==>
        if Matches(e, name) then q == r else e.IsFolder() && Shown(v, r, q, name)
    {
      ThroughSlot(v, p, i, q, name);
    }
    if Matches(e, name) {
      qs := [r];
    } else if e.IsFolder() {
      qs := Listing(v, r, name);
    } else {
      qs := [];
    }
  }

  lemma {:induction false} ListingFrom(v: Vol, p: seq<Key>, i: nat, name: seq<byte>) returns (qs: seq<seq<Key>>)
    requires Weak(v) && DirAt(v, p) != 0 && 2 <= i <= TABLE_SIZE && ClearBefore(v, p, i, name)
    ensures forall q :: q in qs <==> ShownFrom(v, p, i, q, name)
    ensures InOrder(v, qs) && NamesOf(Printout(v, p, i, name), qs)
    decreases CLUSTER_MAP_SIZE - |p|, TABLE_SIZE - i, 1
  {
    hide Weak, DirAt, Matches, ClearBefore, EntryAt, Shown, SlotPrintout, Earlier, LiveAt, InOrder, NamesOf, PathSlot;
    DepthBound(v, p);
    forall q ensures ShownFrom(v, p, i, q, name) ==> ShownSlot(v, p, i, q, name) {
      SlotOrLater(v, p, i, q, name);
    }
    if i == TABLE_SIZE {
      qs := [];
      NoNames(v);
    } else if !LiveAt(v, DirAt(v, p), i) {
      ClearSkips(v, p, i, name);
      qs := ListingFrom(v, p, i + 1, name);
    } else {
      var here := SlotListing(v, p, i, name);
      if Matches(v.table[DirAt(v, p)][i], name) {
        qs := here;
        var next := i + 1;
        forall q ensures ShownFrom(v, p, next, q, name) ==> false {
          HiddenLater(v, p, i, q, name);
        }
        assert SlotPrintout(v, p, i, name) + [] == SlotPrintout(v, p, i, name);
      } else {
        ClearPasses(v, p, i, name);
        var later := ListingFrom(v, p, i + 1, name);
        qs := here + later;
        JoinListings(v, p, i, here, later, name);
        JoinNames(SlotPrintout(v, p, i, name), here, Printout(v, p, i + 1, name), later);
      }
    }
  }

  // Shown through slot i, which is live, or through a later one.
  ghost predicate ShownSlot(v: Vol, p: seq<Key>, i: nat, q: seq<Key>, name: seq<byte>) {
    i < TABLE_SIZE &&
    ((LiveAt(v, DirAt(v, p), i) && ShownThrough(v, p, i, q, name)) || ShownFrom(v, p, i + 1, q, name))
  }

  lemma SlotOrLater(v: Vol, p: seq<Key>, i: nat, q: seq<Key>, name: seq<byte>)
    requires DirAt(v, p) != 0
    ensures ShownFrom(v, p, i, q, name) ==> ShownSlot(v, p, i, q, name)
  {
    hide DirAt, Matches, EntryAt, Shown, PathSlot;
    if ShownFrom(v, p, i, q, name) {
      ShownBelow(v, p, q, name);
      SlotLive(v, p, q[..|p| + 1]);
    }
  }

  lemma NoNames(v: Vol)
    ensures InOrder(v, []) && NamesOf([], [])
  {
  }

  lemma ClearSkips(v: Vol, p: seq<Key>, i: nat, name: seq<byte>)
    requires ClearBefore(v, p, i, name) && !LiveAt(v, DirAt(v, p), i)
    ensures ClearBefore(v, p, i + 1, name)
  {
    hide DirAt, Matches;
  }

  lemma ClearPasses(v: Vol, p: seq<Key>, i: nat, name: seq<byte>)
    requires ClearBefore(v, p, i, name) && i < TABLE_SIZE && !Matches(v.table[DirAt(v, p)][i], name)
    ensures ClearBefore(v, p, i + 1, name)
  {
    hide DirAt, Matches;
  }

  // Behind a match nothing of the directory is shown.
  lemma HiddenLater(v: Vol, p: seq<Key>, i: nat, q: seq<Key>, name: seq<byte>)
    requires DirAt(v, p) != 0 && LiveAt(v, DirAt(v, p), i) && Matches(v.table[DirAt(v, p)][i], name)
    ensures !ShownFrom(v, p, i + 1, q, name)
  {
    hide DirAt, Matches, EntryAt, Met, PathSlot, Shown;
    if ShownFrom(v, p, i + 1, q, name) {
      ShownBelow(v, p, q, name);
      ShownStep(v, p, q, name);
      MetUpTo(v, p, i, q[..|p| + 1], name);
    }
  }

  lemma MetUpTo(v: Vol, p: seq<Key>, i: nat, r: seq<Key>, name: seq<byte>)
    requires LiveAt(v, DirAt(v, p), i) && Matches(v.table[DirAt(v, p)][i], name)
    requires p <= r && |r| == |p| + 1 && Met(v, r, name)
    ensures PathSlot(v, r) <= i
  {
    hide DirAt, Matches, EntryAt;
    assert r[..|r| - 1] == p;
  }

  lemma JoinListings(v: Vol, p: seq<Key>, i: nat, here: seq<seq<Key>>, later: seq<seq<Key>>, name: seq<byte>)
    requires forall q :: q in here ==> ShownThrough(v, p, i, q, name)
    requires forall q :: q in later ==> ShownFrom(v, p, i + 1, q, name)
    requires InOrder(v, here) && InOrder(v, later)
    ensures InOrder(v, here + later)
  {
    hide ShownThrough, ShownFrom, Earlier;
    forall x, y | x in here && y in later ensures Earlier(v, x, y) {
      PartAtSlot(v, p, i, x, y, name);
    }
  }

  lemma PartAtSlot(v: Vol, p: seq<Key>, i: nat, x: seq<Key>, y: seq<Key>, name: seq<byte>)
    requires ShownThrough(v, p, i, x, name) && ShownFrom(v, p, i + 1, y, name)
    ensures Earlier(v, x, y)
  {
    hide PathSlot, Met, EntryAt, Matches;
    var n := |p|;
    assert x[..n] == p && y[..n] == p;
    assert PathSlot(v, x[..n + 1]) < PathSlot(v, y[..n + 1]);
  }

  lemma JoinNames(a: seq<Name>, x: seq<seq<Key>>, b: seq<Name>, y: seq<seq<Key>>)
    requires NamesOf(a, x) && NamesOf(b, y)
    ensures NamesOf(a + b, x + y)
  {
  }

  // The printout of a directory has exactly one name for every shown path, in slot order along the paths.
  lemma {:induction false} Listing(v: Vol, p: seq<Key>, name: seq<byte>) returns (qs: seq<seq<Key>>)
    requires Weak(v) && DirAt(v, p) != 0
    ensures forall q :: q in qs <==> Shown(v, p, q, name)
    ensures InOrder(v, qs) && NamesOf(Printout(v, p, 2, name), qs)
    ensures forall a, b :: 0 <= a < b < |qs| ==> qs[a] != qs[b]
    decreases CLUSTER_MAP_SIZE - |p|, TABLE_SIZE - 2, 2
  {
    hide Weak, DirAt, Matches, EntryAt, Shown, Printout, InOrder, NamesOf;
    assert ClearBefore(v, p, 2, name);
    qs := ListingFrom(v, p, 2, name);
    forall q | Shown(v, p, q, name) ensures ShownFrom(v, p, 2, q, name) {
      SlotOrLater(v, p, 0, q, name);
      ShownBelow(v, p, q, name);
      SlotLive(v, p, q[..|p| + 1]);
    }
    forall a, b | 0 <= a < b < |qs| ensures qs[a] != qs[b] {
      OrderDistinct(v, qs, a, b);
    }
  }

  // In that order no path comes twice.
  lemma OrderDistinct(v: Vol, qs: seq<seq<Key>>, a: nat, b: nat)
    requires InOrder(v, qs) && a < b < |qs|
    ensures qs[a] != qs[b]
  {
    assert Earlier(v, qs[a], qs[b]);
  }
}
