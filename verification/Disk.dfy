/**
 * The memory-backed block device: 4 MiB of 512-byte blocks. A write of one block is atomic; a write
 * of several blocks issues them in ascending order. The ghost log records every block written, so a
 * crash is a prefix of the log.
 */
module Disk {
  import opened Machine
  import opened Layout

  const DISK_BLOCKS := 8192
  const DISK_CLUSTERS := 2048

  type Lba = x: nat | x < DISK_BLOCKS
  const BLANK_BLOCK: Block := seq(BLOCK_SIZE, _ => 0)
  type Image = s: seq<Block> | |s| == DISK_BLOCKS witness seq<Block>(DISK_BLOCKS, _ => BLANK_BLOCK)

  datatype BlockWrite = BlockWrite(lba: Lba, data: Block)

  function BlockOf(c: Cluster, b: nat): Block
    requires b < CLUSTER_BLOCK_COUNT
  {
    c[BLOCK_SIZE * b..BLOCK_SIZE * b + BLOCK_SIZE]
  }

  function Join(a: seq<byte>, b: seq<byte>): seq<byte> {
    a + b
  }

  function ClusterAt(img: Image, c: nat): Cluster
    requires c < DISK_CLUSTERS
  {
    Join(img[4 * c], img[4 * c + 1]) + Join(img[4 * c + 2], img[4 * c + 3])
  }

  function Replay(img: Image, log: seq<BlockWrite>): Image {
    if log == [] then img
    else var last := log[|log| - 1]; Replay(img, log[..|log| - 1])[last.lba := last.data]
  }

  // The block writes issued for one cluster.
  function ClusterWrites(c: nat, data: Cluster): (log: seq<BlockWrite>)
    requires c < DISK_CLUSTERS
    ensures |log| == CLUSTER_BLOCK_COUNT
    ensures forall b :: 0 <= b < CLUSTER_BLOCK_COUNT ==> log[b] == BlockWrite(4 * c + b, BlockOf(data, b))
  {
    seq(CLUSTER_BLOCK_COUNT, b requires 0 <= b < CLUSTER_BLOCK_COUNT => BlockWrite(4 * c + b, BlockOf(data, b)))
  }

  lemma {:induction false} ReplayConcat(img: Image, a: seq<BlockWrite>, b: seq<BlockWrite>)
    ensures Replay(img, a + b) == Replay(Replay(img, a), b)
  {
    if b == [] {
      assert a + b == a;
    } else {
      var b' := b[..|b| - 1];
      ReplayConcat(img, a, b');
      assert (a + b)[..|a + b| - 1] == a + b';
    }
  }

  lemma ReplayStep(img: Image, log: seq<BlockWrite>, n: nat)
    requires n < |log|
    ensures Replay(img, log[..n + 1]) == Replay(img, log[..n])[log[n].lba := log[n].data]
  {
    assert log[..n + 1][..n] == log[..n];
  }

  // Where block b sits after some of the four writes of a cluster have reached the device.
  lemma {:induction false} PartialCluster(img: Image, c: nat, data: Cluster, n: nat, k: nat)
    requires c < DISK_CLUSTERS && n <= CLUSTER_BLOCK_COUNT && k < DISK_BLOCKS
    ensures Replay(img, ClusterWrites(c, data)[..n])[k]
         == if 4 * c <= k < 4 * c + n then BlockOf(data, k - 4 * c) else img[k]
  {
    if n > 0 {
      PartialCluster(img, c, data, n - 1, k);
      hide Replay, BlockOf;
      var log := ClusterWrites(c, data);
      hide ClusterWrites;
      ReplayStep(img, log, n - 1);
      if k == 4 * c + n - 1 {
        assert log[n - 1] == BlockWrite(k, BlockOf(data, n - 1));
      }
    }
  }

  lemma BlockWritten(img: Image, c: nat, data: Cluster, d: nat, b: nat)
    requires c < DISK_CLUSTERS && d < DISK_CLUSTERS && b < CLUSTER_BLOCK_COUNT
    ensures Replay(img, ClusterWrites(c, data))[4 * d + b] == if d == c then BlockOf(data, b) else img[4 * d + b]
  {
    assert ClusterWrites(c, data)[..4] == ClusterWrites(c, data);
    PartialCluster(img, c, data, 4, 4 * d + b);
  }

  lemma ClusterOfBlocks(data: Cluster)
    ensures data == Join(BlockOf(data, 0), BlockOf(data, 1)) + Join(BlockOf(data, 2), BlockOf(data, 3))
  {
  }

  // Writing a cluster replaces that cluster and nothing else.
  lemma ClusterWritten(img: Image, c: nat, data: Cluster, d: nat)
    requires c < DISK_CLUSTERS && d < DISK_CLUSTERS
    ensures ClusterAt(Replay(img, ClusterWrites(c, data)), d) == if d == c then data else ClusterAt(img, d)
  {
    hide Join, BlockOf, Replay, ClusterWrites;
    BlockWritten(img, c, data, d, 0);
    BlockWritten(img, c, data, d, 1);
    BlockWritten(img, c, data, d, 2);
    BlockWritten(img, c, data, d, 3);
    ClusterOfBlocks(data);
  }

  lemma BlockOfCluster(img: Image, c: nat, b: nat)
    requires c < DISK_CLUSTERS && b < CLUSTER_BLOCK_COUNT
    ensures BlockOf(ClusterAt(img, c), b) == img[4 * c + b]
  {
  }

  // Cut short after n blocks, a cluster write has changed the first n blocks of that cluster alone.
  lemma CutBlock(img: Image, c: nat, data: Cluster, n: nat, b: nat)
    requires c < DISK_CLUSTERS && n <= CLUSTER_BLOCK_COUNT && b < CLUSTER_BLOCK_COUNT
    ensures BlockOf(ClusterAt(Replay(img, ClusterWrites(c, data)[..n]), c), b)
         == BlockOf(if b < n then data else ClusterAt(img, c), b)
  {
    var img' := Replay(img, ClusterWrites(c, data)[..n]);
    hide Replay, ClusterWrites, BlockOf;
    PartialCluster(img, c, data, n, 4 * c + b);
    BlockOfCluster(img', c, b);
    BlockOfCluster(img, c, b);
  }

  lemma CutElsewhere(img: Image, c: nat, data: Cluster, n: nat, d: nat)
    requires c < DISK_CLUSTERS && d < DISK_CLUSTERS && n <= CLUSTER_BLOCK_COUNT && c != d
    ensures ClusterAt(Replay(img, ClusterWrites(c, data)[..n]), d) == ClusterAt(img, d)
  {
    hide Replay, ClusterWrites, BlockOf;
    PartialCluster(img, c, data, n, 4 * d);
    PartialCluster(img, c, data, n, 4 * d + 1);
    PartialCluster(img, c, data, n, 4 * d + 2);
    PartialCluster(img, c, data, n, 4 * d + 3);
  }

  lemma CutBeforeOrAfter(img: Image, c: nat, data: Cluster, b: nat, n: nat, k: nat)
    requires c < DISK_CLUSTERS && b < CLUSTER_BLOCK_COUNT && n <= CLUSTER_BLOCK_COUNT && k < DISK_BLOCKS
    requires forall a :: 0 <= a < CLUSTER_BLOCK_COUNT && a != b ==> BlockOf(data, a) == BlockOf(ClusterAt(img, c), a)
    ensures Replay(img, ClusterWrites(c, data)[..n])[k]
         == if n <= b then img[k] else Replay(img, ClusterWrites(c, data)[..4])[k]
  {
    hide Replay, ClusterWrites, BlockOf, ClusterAt;
    PartialCluster(img, c, data, n, k);
    PartialCluster(img, c, data, 4, k);
    if 4 * c <= k < 4 * c + 4 {
      BlockOfCluster(img, c, k - 4 * c);
    }
  }

  // When old and new contents differ in block b alone, the cluster changes in a single step.
  lemma OneBlockCommit(img: Image, c: nat, data: Cluster, b: nat, n: nat)
    requires c < DISK_CLUSTERS && b < CLUSTER_BLOCK_COUNT && n <= CLUSTER_BLOCK_COUNT
    requires forall a :: 0 <= a < CLUSTER_BLOCK_COUNT && a != b ==> BlockOf(data, a) == BlockOf(ClusterAt(img, c), a)
    ensures Replay(img, ClusterWrites(c, data)[..n]) == if n <= b then img else Replay(img, ClusterWrites(c, data))
  {
    var log := ClusterWrites(c, data);
    assert log[..4] == log;
    hide *;
    forall k: nat | k < DISK_BLOCKS
      ensures Replay(img, log[..n])[k] == if n <= b then img[k] else Replay(img, log)[k]
    {
      CutBeforeOrAfter(img, c, data, b, n, k);
    }
  }

  // Block locality of the two encoded structures.

  lemma TableBlocks(t: Table, t': Table, b: nat)
    requires b < CLUSTER_BLOCK_COUNT
    requires forall i :: 16 * b <= i < 16 * b + 16 ==> t[i] == t'[i]
    ensures BlockOf(EncodeTable(t), b) == BlockOf(EncodeTable(t'), b)
  {
    forall k | 0 <= k < BLOCK_SIZE
      ensures BlockOf(EncodeTable(t), b)[k] == BlockOf(EncodeTable(t'), b)[k]
    {
      assert 16 * b <= (512 * b + k) / 32 < 16 * b + 16;
    }
  }

  lemma FatBlocks(c: Cluster, c': Cluster, x: nat)
    requires x < CLUSTER_MAP_SIZE
    requires BlockOf(c, x / 128) == BlockOf(c', x / 128)
    ensures DecodeFat(c)[x] == DecodeFat(c')[x]
  {
    var b := x / 128;
    assert 128 * b <= x < 128 * b + 128;
    forall k | 4 * x <= k < 4 * x + 4 ensures c[k] == c'[k] {
      assert c[k] == BlockOf(c, b)[k - 512 * b];
      assert c'[k] == BlockOf(c', b)[k - 512 * b];
    }
    assert c[4 * x..4 * x + 4] == c'[4 * x..4 * x + 4];
  }

  lemma FatBlockLocal(f: Fat, x: ClusterNo, y: uint32, b: nat)
    requires b < CLUSTER_BLOCK_COUNT && b != x / 128
    ensures BlockOf(EncodeFat(f[x := y]), b) == BlockOf(EncodeFat(f), b)
  {
    forall k | 0 <= k < BLOCK_SIZE
      ensures BlockOf(EncodeFat(f[x := y]), b)[k] == BlockOf(EncodeFat(f), b)[k]
    {
      assert (512 * b + k) / 4 != x;
    }
  }

  // The bytes read from, and the writes issued to, count consecutive blocks.

  function Span(img: Image, lba: nat, count: nat): (s: seq<byte>)
    requires lba + count <= DISK_BLOCKS
    ensures |s| == BLOCK_SIZE * count
  {
    if count == 0 then [] else Span(img, lba, count - 1) + img[lba + count - 1]
  }

  function SpanWrites(src: seq<byte>, lba: nat, count: nat): (log: seq<BlockWrite>)
    requires lba + count <= DISK_BLOCKS && BLOCK_SIZE * count <= |src|
    ensures |log| == count
  {
    seq(count, b requires 0 <= b < count => BlockWrite(lba + b, src[BLOCK_SIZE * b..BLOCK_SIZE * b + BLOCK_SIZE]))
  }

  lemma SpanIsCluster(img: Image, c: nat)
    requires c < DISK_CLUSTERS
    ensures Span(img, 4 * c, 4) == ClusterAt(img, c)
  {
    assert Span(img, 4 * c, 2) == Join(img[4 * c], img[4 * c + 1]);
    assert Span(img, 4 * c, 3) == Span(img, 4 * c, 2) + img[4 * c + 2];
  }

  class BlockDevice {
    const blocks: array<Block>
    ghost var log: seq<BlockWrite>

    ghost predicate Valid() {
      blocks.Length == DISK_BLOCKS
    }

    ghost function Content(): Image
      requires Valid()
      reads blocks
    {
      blocks[..]
    }

    // The device holds 4 MiB.
    constructor (image: array<Block>)
      requires image.Length == DISK_BLOCKS
      ensures Valid() && blocks == image && log == []
      ensures 0x200 * |Content()| == 0x40_0000
    {
      blocks := image;
      log := [];
    }

    method ReadBlocks(lba: nat, count: nat) returns (s: seq<byte>)
      requires Valid() && lba + count <= DISK_BLOCKS
      ensures s == Span(Content(), lba, count)
    {
      s := [];
      for i := 0 to count
        invariant s == Span(Content(), lba, i)
      {
        s := s + blocks[lba + i];
      }
    }

    method WriteBlocks(src: seq<byte>, lba: nat, count: nat)
      requires Valid() && lba + count <= DISK_BLOCKS && BLOCK_SIZE * count <= |src|
      modifies this, blocks
      ensures log == old(log) + SpanWrites(src, lba, count)
      ensures Content() == Replay(old(Content()), SpanWrites(src, lba, count))
    {
      ghost var writes := SpanWrites(src, lba, count);
      assert writes[..0] == [];
      for i := 0 to count
        invariant log == old(log) + writes[..i]
        invariant Content() == Replay(old(Content()), writes[..i])
      {
        ReplayStep(old(Content()), writes, i);
        blocks[lba + i] := src[BLOCK_SIZE * i..BLOCK_SIZE * i + BLOCK_SIZE];
        log := log + [writes[i]];
        assert writes[..i + 1] == writes[..i] + [writes[i]];
      }
      assert writes[..count] == writes;
    }
  }
}
