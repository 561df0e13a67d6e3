/**
 * Cluster chains: the singly linked lists threaded through the file allocation table.
 *
 * Walk follows the links for at most n clusters; any value outside the map ends the walk. A chain is
 * sound when the walk stays clear of the three reserved clusters and its last cluster holds the
 * end-of-file mark.
 */
module Chains {
  import opened Machine
  import opened Layout

  function Walk(fat: Fat, c: nat, n: nat): (s: seq<ClusterNo>)
    ensures |s| <= n
    decreases n
  {
    if n == 0 || c >= CLUSTER_MAP_SIZE then [] else [c] + Walk(fat, fat[c], n - 1)
  }

  function Chain(fat: Fat, c: nat): seq<ClusterNo> {
    Walk(fat, c, CLUSTER_MAP_SIZE)
  }

  predicate Terminated(fat: Fat, s: seq<ClusterNo>) {
    && s != []
    && fat[s[|s| - 1]] == END_OF_FILE
  }

  predicate ChainOk(fat: Fat, c: nat) {
    && Terminated(fat, Chain(fat, c))
    && forall x :: x in Chain(fat, c) ==> 3 <= x
  }

  predicate Distinct(s: seq<ClusterNo>) {
    forall i, j :: 0 <= i < j < |s| ==> s[i] != s[j]
  }

  lemma {:induction false} WalkSteps(fat: Fat, c: nat, n: nat, k: nat)
    requires k < |Walk(fat, c, n)|
    ensures Walk(fat, c, n)[k..] == Walk(fat, Walk(fat, c, n)[k], n - k)
    ensures k + 1 < |Walk(fat, c, n)| ==> Walk(fat, c, n)[k + 1] == fat[Walk(fat, c, n)[k]]
    decreases k
  {
    if k > 0 {
      WalkSteps(fat, fat[c], n - 1, k - 1);
    }
  }

  // A walk that reaches the end mark never visits a cluster twice.
  lemma WalkDistinct(fat: Fat, c: nat, n: nat)
    requires Terminated(fat, Walk(fat, c, n))
    ensures Distinct(Walk(fat, c, n))
  {
    var s := Walk(fat, c, n);
    forall i: nat, j: nat | i < j < |s| ensures s[i] != s[j] {
      if s[i] == s[j] {
        var m := |s| - 1 - j;
        SameTail(fat, c, n, i, j, m);
        WalkSteps(fat, c, n, i + m);
        assert false;
      }
    }
  }

  lemma {:induction false} SameTail(fat: Fat, c: nat, n: nat, i: nat, j: nat, m: nat)
    requires i < j && j + m < |Walk(fat, c, n)|
    requires Walk(fat, c, n)[i] == Walk(fat, c, n)[j]
    ensures Walk(fat, c, n)[i + m] == Walk(fat, c, n)[j + m]
  {
    if m > 0 {
      SameTail(fat, c, n, i, j, m - 1);
      WalkSteps(fat, c, n, i + m - 1);
      WalkSteps(fat, c, n, j + m - 1);
    }
  }

  // A walk depends only on the links of the clusters it visits.
  lemma {:induction false} WalkFrame(fat: Fat, fat': Fat, c: nat, n: nat)
    requires forall x :: x in Walk(fat, c, n) ==> fat'[x] == fat[x]
    ensures Walk(fat', c, n) == Walk(fat, c, n)
    decreases n
  {
    if n > 0 && c < CLUSTER_MAP_SIZE {
      assert c in Walk(fat, c, n);
      forall x | x in Walk(fat, fat[c], n - 1) ensures fat'[x] == fat[x] {
        assert x in Walk(fat, c, n);
      }
      WalkFrame(fat, fat', fat[c], n - 1);
    }
  }

  // Allocation: the links written for a new chain, cluster by cluster.

  function NextLink(s: seq<ClusterNo>, j: nat): uint32
  {
    if j + 1 < |s| then s[j + 1] else END_OF_FILE
  }

  function Link(fat: Fat, s: seq<ClusterNo>, j: nat): Fat
    requires j <= |s|
  {
    if j == 0 then fat else Link(fat, s, j - 1)[s[j - 1] := NextLink(s, j - 1)]
  }

  lemma {:induction false} LinkAt(fat: Fat, s: seq<ClusterNo>, j: nat, x: ClusterNo)
    requires Distinct(s) && j <= |s|
    ensures x !in s[..j] ==> Link(fat, s, j)[x] == fat[x]
    ensures forall i :: 0 <= i < j && s[i] == x ==> Link(fat, s, j)[x] == NextLink(s, i)
  {
    if j > 0 {
      LinkAt(fat, s, j - 1, x);
      assert s[..j] == s[..j - 1] + [s[j - 1]];
    }
  }

  lemma {:induction false} LinkedWalk(fat: Fat, s: seq<ClusterNo>, k: nat, n: nat)
    requires Distinct(s) && k < |s| && |s| - k <= n
    ensures Walk(Link(fat, s, |s|), s[k], n) == s[k..]
    decreases |s| - k
  {
    var f := Link(fat, s, |s|);
    LinkAt(fat, s, |s|, s[k]);
    assert f[s[k]] == NextLink(s, k);
    if k + 1 < |s| {
      LinkedWalk(fat, s, k + 1, n - 1);
    }
    assert s[k..] == [s[k]] + s[k + 1..];
  }

  // Linking distinct clusters yields exactly that chain, whatever the table held before.
  lemma LinkedChain(fat: Fat, s: seq<ClusterNo>)
    requires Distinct(s) && 0 < |s| <= CLUSTER_MAP_SIZE
    ensures Chain(Link(fat, s, |s|), s[0]) == s
    ensures Terminated(Link(fat, s, |s|), s)
  {
    LinkedWalk(fat, s, 0, CLUSTER_MAP_SIZE);
    LinkAt(fat, s, |s|, s[|s| - 1]);
  }

  // Release: every cluster of s marked empty, every other link kept.
  function Release(fat: Fat, s: seq<ClusterNo>): Fat {
    seq(CLUSTER_MAP_SIZE, x requires 0 <= x < CLUSTER_MAP_SIZE => if x in s then EMPTY_ENTRY else fat[x])
  }

  lemma ReleaseStep(fat: Fat, s: seq<ClusterNo>, n: nat)
    requires Distinct(s) && n < |s|
    ensures Release(fat, s[..n])[s[n]] == fat[s[n]]
    ensures Release(fat, s[..n])[s[n] := EMPTY_ENTRY] == Release(fat, s[..n + 1])
  {
    assert s[..n + 1] == s[..n] + [s[n]];
  }

  // Releasing what was allocated from empty entries restores the table.
  lemma ReleaseUndoesLink(fat: Fat, s: seq<ClusterNo>)
    requires Distinct(s)
    requires forall y :: y in s ==> fat[y] == EMPTY_ENTRY
    ensures Release(Link(fat, s, |s|), s) == fat
  {
    forall x | 0 <= x < CLUSTER_MAP_SIZE ensures Release(Link(fat, s, |s|), s)[x] == fat[x] {
      LinkAt(fat, s, |s|, x);
      assert s[..|s|] == s;
    }
  }
}
