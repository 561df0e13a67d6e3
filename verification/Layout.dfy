/**
 * On-disk layout: the packed 32-byte directory entry, the one-cluster directory table of 64 entries
 * and the one-cluster file allocation table of 512 entries.
 *
 * The entry follows "FAT Directory Structure" of the FAT32 File System Specification v1.03, with
 * byte 12 holding the repository's own user attribute.
 */
module Layout {
  import opened Machine

  const BLOCK_SIZE := 512
  const CLUSTER_BLOCK_COUNT := 4
  const CLUSTER_SIZE := 2048
  const CLUSTER_MAP_SIZE := 512
  const TABLE_SIZE := 64

  const CLUSTER_0_VALUE: uint32 := 0x0FFFFFF0
  const CLUSTER_1_VALUE: uint32 := 0x0FFFFFFF
  const END_OF_FILE: uint32 := 0x0FFFFFFF
  const EMPTY_ENTRY: uint32 := 0

  const BOOT_SECTOR := 0
  const FAT_CLUSTER := 1
  const ROOT_CLUSTER := 2

  const ATTR_SUBDIRECTORY: byte := 0x10
  const UATTR_NOT_EMPTY: byte := 0xAA

  type Block = s: seq<byte> | |s| == BLOCK_SIZE witness seq(BLOCK_SIZE, _ => 0)
  type Cluster = s: seq<byte> | |s| == CLUSTER_SIZE witness seq(CLUSTER_SIZE, _ => 0)
  type Fat = s: seq<uint32> | |s| == CLUSTER_MAP_SIZE witness seq(CLUSTER_MAP_SIZE, _ => 0)
  type ClusterNo = x: nat | x < CLUSTER_MAP_SIZE
  type Name = s: seq<byte> | |s| == 8 witness seq(8, _ => 0)
  type Ext = s: seq<byte> | |s| == 3 witness seq(3, _ => 0)
  type Table = s: seq<DirEntry> | |s| == TABLE_SIZE witness seq(TABLE_SIZE, _ => ZERO_ENTRY)

  const NO_NAME: Name := [0, 0, 0, 0, 0, 0, 0, 0]
  const NO_EXT: Ext := [0, 0, 0]

  datatype DirEntry = DirEntry(
    name: Name, ext: Ext, attribute: byte, userAttribute: byte, undelete: byte,
    createTime: uint16, createDate: uint16, accessDate: uint16, clusterHigh: uint16,
    modifiedTime: uint16, modifiedDate: uint16, clusterLow: uint16, fileSize: uint32)
  {
    // (cluster_high << 16) | cluster_low
    function Head(): uint32 {
      clusterHigh * 0x1_0000 + clusterLow
    }

    predicate Live() {
      userAttribute == UATTR_NOT_EMPTY
    }

    predicate IsFolder() {
      attribute == ATTR_SUBDIRECTORY
    }

    function Id(): Key {
      Key(name, ext)
    }
  }

  // What a request names inside a directory: the eight name bytes and three extension bytes.
  datatype Key = Key(name: Name, ext: Ext)

  const NO_KEY := Key(NO_NAME, NO_EXT)

  const ZERO_ENTRY: DirEntry := DirEntry(NO_NAME, NO_EXT, 0, 0, 0, 0, 0, 0, 0, 0, 0, 0, 0)

  // An entry with the fields the driver fills in; the remaining ones are zero-initialised.
  function MakeEntry(key: Key, attribute: byte, userAttribute: byte, cluster: uint32, size: uint32): (e: DirEntry)
    ensures e.Head() == cluster && e.Id() == key
  {
    DirEntry(key.name, key.ext, attribute, userAttribute, 0, 0, 0, 0, cluster / 0x1_0000 % 0x1_0000,
             0, 0, cluster % 0x1_0000, size)
  }

  function EncodeEntry(e: DirEntry): (s: seq<byte>)
    ensures |s| == 32
  {
    e.name + e.ext + [e.attribute, e.userAttribute, e.undelete]
    + Le16(e.createTime) + Le16(e.createDate) + Le16(e.accessDate) + Le16(e.clusterHigh)
    + Le16(e.modifiedTime) + Le16(e.modifiedDate) + Le16(e.clusterLow) + Le32(e.fileSize)
  }

  function DecodeEntry(s: seq<byte>): DirEntry
    requires |s| == 32
  {
    DirEntry(s[..8], s[8..11], s[11], s[12], s[13],
             FromLe16(s[14..16]), FromLe16(s[16..18]), FromLe16(s[18..20]), FromLe16(s[20..22]),
             FromLe16(s[22..24]), FromLe16(s[24..26]), FromLe16(s[26..28]), FromLe32(s[28..]))
  }

  function EncodeTable(t: Table): Cluster {
    seq(CLUSTER_SIZE, k requires 0 <= k < CLUSTER_SIZE => EncodeEntry(t[k / 32])[k % 32])
  }

  function DecodeTable(c: Cluster): Table {
    seq(TABLE_SIZE, i requires 0 <= i < TABLE_SIZE => DecodeEntry(c[32 * i..32 * i + 32]))
  }

  function EncodeFat(f: Fat): Cluster {
    seq(CLUSTER_SIZE, k requires 0 <= k < CLUSTER_SIZE => Le32(f[k / 4])[k % 4])
  }

  function DecodeFat(c: Cluster): Fat {
    seq(CLUSTER_MAP_SIZE, i requires 0 <= i < CLUSTER_MAP_SIZE => FromLe32(c[4 * i..4 * i + 4]))
  }

  // Byte offsets of the fields within an entry.
  lemma EntryOffsets(e: DirEntry)
    ensures var s := EncodeEntry(e);
      && s[0..8] == e.name && s[8..11] == e.ext && s[11] == e.attribute && s[12] == e.userAttribute
      && s[13] == e.undelete && s[14..16] == Le16(e.createTime) && s[16..18] == Le16(e.createDate)
      && s[18..20] == Le16(e.accessDate) && s[20..22] == Le16(e.clusterHigh) && s[22..24] == Le16(e.modifiedTime)
      && s[24..26] == Le16(e.modifiedDate) && s[26..28] == Le16(e.clusterLow) && s[28..32] == Le32(e.fileSize)
  {
  }

  lemma EntryDecodesBack(e: DirEntry)
    ensures DecodeEntry(EncodeEntry(e)) == e
  {
    var s := EncodeEntry(e);
    EntryOffsets(e);
    assert s[..8] == s[0..8] && s[28..] == s[28..32];
    Le32DecodesBack(e.fileSize);
    hide Le16, Le32, FromLe16, FromLe32, EncodeEntry;
    forall x: uint16 ensures FromLe16(Le16(x)) == x {
      Le16DecodesBack(x);
    }
  }

  lemma EntryEncodesBack(s: seq<byte>)
    requires |s| == 32
    ensures EncodeEntry(DecodeEntry(s)) == s
  {
    Le32EncodesBack(s[28..]);
    assert s == s[..8] + s[8..11] + s[11..14] + s[14..16] + s[16..18] + s[18..20] + s[20..22]
                + s[22..24] + s[24..26] + s[26..28] + s[28..];
    assert s[11..14] == [s[11], s[12], s[13]];
    forall b: seq<byte> | |b| == 2 ensures Le16(FromLe16(b)) == b {
      Le16EncodesBack(b);
    }
  }

  lemma TableSlice(t: Table, i: nat)
    requires i < TABLE_SIZE
    ensures EncodeTable(t)[32 * i..32 * i + 32] == EncodeEntry(t[i])
  {
    var s := EncodeTable(t)[32 * i..32 * i + 32];
    forall k | 0 <= k < 32 ensures s[k] == EncodeEntry(t[i])[k] {
      assert (32 * i + k) / 32 == i && (32 * i + k) % 32 == k;
    }
  }

  lemma TableDecodesBack(t: Table)
    ensures DecodeTable(EncodeTable(t)) == t
  {
    forall i | 0 <= i < TABLE_SIZE ensures DecodeTable(EncodeTable(t))[i] == t[i] {
      TableSlice(t, i);
      EntryDecodesBack(t[i]);
    }
  }

  lemma TableEncodesBack(c: Cluster)
    ensures EncodeTable(DecodeTable(c)) == c
  {
    forall k | 0 <= k < CLUSTER_SIZE ensures EncodeTable(DecodeTable(c))[k] == c[k] {
      TableByteBack(c, k);
    }
  }

  lemma TableByteBack(c: Cluster, k: nat)
    requires k < CLUSTER_SIZE
    ensures EncodeTable(DecodeTable(c))[k] == c[k]
  {
    hide EncodeEntry, DecodeEntry;
    var i := k / 32;
    EntryEncodesBack(c[32 * i..32 * i + 32]);
    assert DecodeTable(c)[i] == DecodeEntry(c[32 * i..32 * i + 32]);
    assert c[32 * i..32 * i + 32][k % 32] == c[k];
  }

  lemma FatDecodesBack(f: Fat)
    ensures DecodeFat(EncodeFat(f)) == f
  {
    hide Le32, FromLe32;
    var c := EncodeFat(f);
    forall i | 0 <= i < CLUSTER_MAP_SIZE ensures DecodeFat(c)[i] == f[i] {
      assert c[4 * i..4 * i + 4] == Le32(f[i]);
      Le32DecodesBack(f[i]);
    }
  }

  lemma FatEncodesBack(c: Cluster)
    ensures EncodeFat(DecodeFat(c)) == c
  {
    forall k | 0 <= k < CLUSTER_SIZE ensures EncodeFat(DecodeFat(c))[k] == c[k] {
      var i := k / 4;
      Le32EncodesBack(c[4 * i..4 * i + 4]);
      assert DecodeFat(c)[i] == FromLe32(c[4 * i..4 * i + 4]);
    }
  }
}
