/**
 * Overwriting a cluster that is no directory. Where no entry owns the cluster, the tree stays as it is;
 * inside a file, that file's bytes change and nothing else does.
 */
module Overwrite {
  import opened Machine
  import opened Layout
  import opened Chains
  import opened Volume
  import opened Commit

  // A cluster nothing owns.

  lemma UnownedOverwritten(v: Vol, w: Vol, p: ClusterNo, t: Table)
    requires Weak(v) && !Visible(v, p) && Overwritten(v, w, p, t)
    ensures Agree(v, w)
  {
    hide Visible;
  }

  lemma SameThenSame(u: Vol, v: Vol, w: Vol)
    requires SameTree(u, v) && SameTree(v, w)
    ensures SameTree(u, w)
  {
    hide Lookup, DirAt;
  }

  // A cluster of a file.

  // Cluster x lies in the file in slot i of reachable directory d.
  ghost predicate InFile(v: Vol, d: ClusterNo, i: nat, x: ClusterNo) {
    Owns(v, d, i, x) && !v.table[d][i].IsFolder()
  }

  lemma FileCluster(v: Vol, d: ClusterNo, i: nat, x: ClusterNo)
    requires Weak(v) && InFile(v, d, i, x)
    ensures 3 <= x && Visible(v, x) && !Reach(v, x) && i < TABLE_SIZE
  {
    assert EntryOk(v, v.table[d][i]);
    if Reach(v, x) {
      var path :| DirAt(v, path) == x;
      FolderNotInFile(v, path, d, i);
    }
  }

  // A cluster with an owner is a directory or lies in a file.
  lemma OwnedKind(v: Vol, d: ClusterNo, i: nat, x: ClusterNo)
    requires Weak(v) && Owns(v, d, i, x)
    ensures InFile(v, d, i, x) || Reach(v, x)
  {
    if v.table[d][i].IsFolder() {
      var dp :| DirAt(v, dp) == d;
      var e := v.table[d][i];
      assert EntryOk(v, e);
      HeadInChain(v.fat, e.Head());
      FindLive(v.table[d], d, i);
      Step(v, dp, e.Id());
      assert DirAt(v, dp + [e.Id()]) == x;
    }
  }

  ghost predicate FileOverwritten(v: Vol, w: Vol, d: ClusterNo, i: nat, p: ClusterNo, t: Table) {
    Weak(v) && InFile(v, d, i, p) && Overwritten(v, w, p, t)
  }

  lemma {:induction false} FileDirAt(v: Vol, w: Vol, d: ClusterNo, i: nat, p: ClusterNo, t: Table, path: seq<Key>)
    requires FileOverwritten(v, w, d, i, p, t)
    ensures DirAt(w, path) == DirAt(v, path)
    ensures DirAt(v, path) != 0 ==> DirAt(v, path) != p
  {
    hide InFile, Weak, Reach, Sub;
    if path != [] {
      FileDirAt(v, w, d, i, p, t, path[..|path| - 1]);
    }
    FileNotFolder(v, d, i, p, path);
  }

  lemma FileNotFolder(v: Vol, d: ClusterNo, i: nat, p: ClusterNo, path: seq<Key>)
    requires Weak(v) && InFile(v, d, i, p)
    ensures DirAt(v, path) != p
  {
    hide DirAt, Weak;
    FileCluster(v, d, i, p);
  }

  lemma FileReach(v: Vol, w: Vol, d: ClusterNo, i: nat, p: ClusterNo, t: Table, c: ClusterNo)
    requires FileOverwritten(v, w, d, i, p, t)
    ensures Reach(w, c) <==> Reach(v, c)
    ensures Reach(v, c) ==> w.table[c] == v.table[c]
  {
    hide FileOverwritten, DirAt;
    if path :| DirAt(w, path) == c {
      FileDirAt(v, w, d, i, p, t, path);
    }
    if path :| DirAt(v, path) == c != 0 {
      FileDirAt(v, w, d, i, p, t, path);
      FileTable(v, w, d, i, p, t, c);
    }
  }

  lemma FileTable(v: Vol, w: Vol, d: ClusterNo, i: nat, p: ClusterNo, t: Table, c: ClusterNo)
    requires FileOverwritten(v, w, d, i, p, t) && c != p
    ensures w.table[c] == v.table[c]
  {
    hide InFile, Weak;
  }

  // Every entry but the file's keeps its meaning.
  lemma FileEntry(v: Vol, w: Vol, d: ClusterNo, i: nat, p: ClusterNo, t: Table, c: ClusterNo, j: nat)
    requires FileOverwritten(v, w, d, i, p, t) && Reach(v, c) && LiveAt(v, c, j)
    ensures EntryOk(w, v.table[c][j])
    ensures c != d || j != i ==> NodeOf(w, v.table[c][j]) == NodeOf(v, v.table[c][j])
  {
    var e := v.table[c][j];
    assert EntryOk(v, e);
    FileCluster(v, d, i, p);
    HeadInChain(v.fat, e.Head());
    if c != d || j != i {
      assert p !in Chain(v.fat, e.Head()) by {
        if p in Chain(v.fat, e.Head()) {
          assert Owns(v, c, j, p);
        }
      }
      GatherFrame(v.bytes, w.bytes, Chain(v.fat, e.Head()));
    }
  }

  lemma FileFolderOk(v: Vol, w: Vol, d: ClusterNo, i: nat, p: ClusterNo, t: Table, c: ClusterNo)
    requires FileOverwritten(v, w, d, i, p, t) && Reach(v, c)
    ensures FolderOk(w, c) && w.table[c] == v.table[c]
    ensures forall j: nat, x: ClusterNo :: Owns(w, c, j, x) <==> Owns(v, c, j, x)
  {
    FileReach(v, w, d, i, p, t, c);
    assert TableOk(v.table[c], c);
    hide Reach, InFile, Chain, TableOk, EntryOk;
    forall j: nat | LiveAt(v, c, j) ensures EntryOk(w, v.table[c][j]) {
      FileEntry(v, w, d, i, p, t, c, j);
    }
  }

  lemma FileKeepsWeak(v: Vol, w: Vol, d: ClusterNo, i: nat, p: ClusterNo, t: Table)
    requires FileOverwritten(v, w, d, i, p, t)
    ensures Weak(w)
    ensures forall c: ClusterNo, j: nat, x: ClusterNo :: Owns(w, c, j, x) <==> Owns(v, c, j, x)
  {
    hide InFile, Chain, FolderOk, DirAt;
    forall c: ClusterNo
      ensures Reach(w, c) <==> Reach(v, c)
      ensures Reach(v, c) ==> FolderOk(w, c)
      ensures forall j: nat, x: ClusterNo :: Owns(w, c, j, x) <==> Owns(v, c, j, x)
    {
      FileReach(v, w, d, i, p, t, c);
      if Reach(v, c) {
        FileFolderOk(v, w, d, i, p, t, c);
      }
    }
    hide Owns, Reach;
  }

  // Other bytes in one cluster of a chain are other bytes of the chain.
  lemma {:induction false} GatherDiffers(a: Clusters, b: Clusters, s: seq<ClusterNo>, k: nat)
    requires k < |s| && a[s[k]] != b[s[k]]
    ensures Gather(a, s) != Gather(b, s)
  {
    var n := |s| - 1;
    var x, y := Gather(a, s[..n]), Gather(b, s[..n]);
    if k < n {
      GatherDiffers(a, b, s[..n], k);
      assert (x + a[s[n]])[..|x|] == x && (y + b[s[n]])[..|y|] == y;
    } else {
      assert (x + a[s[n]])[|x|..] == a[s[n]] && (y + b[s[n]])[|y|..] == b[s[n]];
    }
  }

  // The file at path fp keeps its size and gets other bytes; every other path names what it named.
  ghost predicate FileSpoiled(v: Vol, w: Vol, fp: seq<Key>) {
    && (forall q :: DirAt(w, q) == DirAt(v, q))
    && (forall q :: q != fp ==> Lookup(w, q) == Lookup(v, q))
    && match (Lookup(v, fp), Lookup(w, fp))
       case (Some(File(size, data)), Some(File(size', data'))) => size' == size && data' != data
       case _ => false
  }

  lemma FileLookup(v: Vol, w: Vol, d: ClusterNo, i: nat, p: ClusterNo, t: Table, dp: seq<Key>, q: seq<Key>)
    requires FileOverwritten(v, w, d, i, p, t) && DirAt(v, dp) == d
    ensures q != dp + [v.table[d][i].Id()] ==> Lookup(w, q) == Lookup(v, q)
  {
    hide FileOverwritten, DirAt, NodeOf, Find;
    if q != [] {
      var q', k := q[..|q| - 1], q[|q| - 1];
      assert q == q' + [k];
      FileDirAt(v, w, d, i, p, t, q');
      if DirAt(v, q') != 0 {
        FileTable(v, w, d, i, p, t, DirAt(v, q'));
        if EntryAt(v, q).Some? {
          var j := FoundAt(v, q', k);
          if DirAt(v, q') == d {
            FileSound(v, w, d, i, p, t);
            PathUnique(v, q', dp);
          }
          FileEntry(v, w, d, i, p, t, DirAt(v, q'), j);
        }
      }
    }
  }

  lemma FileSound(v: Vol, w: Vol, d: ClusterNo, i: nat, p: ClusterNo, t: Table)
    requires FileOverwritten(v, w, d, i, p, t)
    ensures Weak(v) && InFile(v, d, i, p) && Reach(v, d) && LiveAt(v, d, i)
  {
  }

  lemma FoundAt(v: Vol, q: seq<Key>, k: Key) returns (j: nat)
    requires DirAt(v, q) != 0 && Find(v.table[DirAt(v, q)], k).Some?
    ensures Reach(v, DirAt(v, q)) && LiveAt(v, DirAt(v, q), j) && v.table[DirAt(v, q)][j].Id() == k
    ensures Find(v.table[DirAt(v, q)], k) == Some(v.table[DirAt(v, q)][j])
  {
    j := Scan(v.table[DirAt(v, q)], k, 2);
  }

  lemma FileSpoils(v: Vol, w: Vol, d: ClusterNo, i: nat, p: ClusterNo, t: Table, dp: seq<Key>)
    requires FileOverwritten(v, w, d, i, p, t) && DirAt(v, dp) == d && w.bytes[p] != v.bytes[p]
    ensures FileSpoiled(v, w, dp + [v.table[d][i].Id()])
  {
    var e := v.table[d][i];
    var fp := dp + [e.Id()];
    forall q
      ensures DirAt(w, q) == DirAt(v, q)
      ensures q != fp ==> Lookup(w, q) == Lookup(v, q)
    {
      FileDirAt(v, w, d, i, p, t, q);
      FileLookup(v, w, d, i, p, t, dp, q);
    }
    FileSound(v, w, d, i, p, t);
    FileBytes(v, w, d, i, p, t, dp);
  }

  lemma FileBytes(v: Vol, w: Vol, d: ClusterNo, i: nat, p: ClusterNo, t: Table, dp: seq<Key>)
    requires FileOverwritten(v, w, d, i, p, t) && DirAt(v, dp) == d && w.bytes[p] != v.bytes[p]
    ensures var e := v.table[d][i]; var s := Chain(v.fat, e.Head());
      && Lookup(v, dp + [e.Id()]) == Some(File(e.fileSize, Gather(v.bytes, s)))
      && Lookup(w, dp + [e.Id()]) == Some(File(e.fileSize, Gather(w.bytes, s)))
      && Gather(v.bytes, s) != Gather(w.bytes, s)
  {
    var e := v.table[d][i];
    FileDirAt(v, w, d, i, p, t, dp);
    FileTable(v, w, d, i, p, t, d);
    var k: nat :| k < |Chain(v.fat, e.Head())| && Chain(v.fat, e.Head())[k] == p;
    GatherDiffers(v.bytes, w.bytes, Chain(v.fat, e.Head()), k);
    FindLive(v.table[d], d, i);
    Step(v, dp, e.Id());
    Step(w, dp, e.Id());
  }

  lemma FileFrame(v: Vol, w: Vol, dp: seq<Key>, i: nat, p: ClusterNo)
    requires Weak(v) && Agree(v, w) && InFile(v, DirAt(v, dp), i, p)
    ensures DirAt(w, dp) == DirAt(v, dp) && w.table[DirAt(v, dp)] == v.table[DirAt(v, dp)]
    ensures InFile(w, DirAt(v, dp), i, p)
  {
    DirAtFrame(v, w, dp);
    FolderFrame(v, w, DirAt(v, dp));
    LiveFrame(v, w, DirAt(v, dp), i);
  }

  lemma SameThenSpoiled(u: Vol, v: Vol, w: Vol, fp: seq<Key>)
    requires SameTree(u, v) && FileSpoiled(v, w, fp)
    ensures FileSpoiled(u, w, fp)
  {
    hide Lookup, DirAt;
  }
}
