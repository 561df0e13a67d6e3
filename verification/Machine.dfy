/** Machine integers and the option type shared by every module. */
module Machine {
  datatype Option<+T> = None | Some(value: T)

  type byte = x: int | 0 <= x < 0x100
  type uint16 = x: int | 0 <= x < 0x1_0000
  type uint32 = x: int | 0 <= x < 0x1_0000_0000

  // Little-endian images of the packed integers the driver stores on disk.

  function Le16(x: uint16): (s: seq<byte>)
    ensures |s| == 2
  {
    [x % 0x100, x / 0x100]
  }

  function Le32(x: uint32): (s: seq<byte>)
    ensures |s| == 4
  {
    Le16(x % 0x1_0000) + Le16(x / 0x1_0000)
  }

  function FromLe16(s: seq<byte>): uint16
    requires |s| == 2
  {
    var low: int, high: int := s[0], s[1];
    low + 0x100 * high
  }

  function FromLe32(s: seq<byte>): uint32
    requires |s| == 4
  {
    var low: int, high: int := FromLe16(s[..2]), FromLe16(s[2..]);
    low + 0x1_0000 * high
  }

  lemma Le16DecodesBack(x: uint16)
    ensures FromLe16(Le16(x)) == x
  {
  }

  lemma Le16EncodesBack(s: seq<byte>)
    requires |s| == 2
    ensures Le16(FromLe16(s)) == s
  {
  }

  lemma Le32DecodesBack(x: uint32)
    ensures FromLe32(Le32(x)) == x
  {
    var low, high := x % 0x1_0000, x / 0x1_0000;
    Le16DecodesBack(low);
    Le16DecodesBack(high);
    assert Le32(x)[..2] == Le16(low) && Le32(x)[2..] == Le16(high);
    hide Le16, FromLe16;
  }

  lemma Le32EncodesBack(s: seq<byte>)
    requires |s| == 4
    ensures Le32(FromLe32(s)) == s
  {
    Le16EncodesBack(s[..2]);
    Le16EncodesBack(s[2..]);
    hide Le16, FromLe16;
    Halves(FromLe16(s[..2]), FromLe16(s[2..]));
    assert s == s[..2] + s[2..];
  }

  lemma Halves(low: uint16, high: uint16)
    ensures (low + 0x1_0000 * high) % 0x1_0000 == low && (low + 0x1_0000 * high) / 0x1_0000 == high
  {
  }

  // The least significant byte comes first.
  lemma Le32Bytes(x: uint32)
    ensures Le32(x) == [x % 0x100, x / 0x100 % 0x100, x / 0x1_0000 % 0x100, x / 0x100_0000]
  {
    var low, high := x % 0x1_0000, x / 0x1_0000;
    assert low % 0x100 == x % 0x100 && low / 0x100 == x / 0x100 % 0x100;
    assert high / 0x100 == x / 0x100_0000;
  }
}
