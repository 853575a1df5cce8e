/** Fixed-width big-endian numbers. */
module BigEndian {
  import opened Wrappers

  const TWO_TO_THE_32: int := 0x1_0000_0000

  type uint32 = n: int | 0 <= n < 0x1_0000_0000

  type uint64 = n: int | 0 <= n < 0x1_0000_0000_0000_0000

  function Be32(v: uint32): (b: bytes)
    ensures |b| == 4
  {
    [v / 0x100_0000, (v / 0x1_0000) % 256, (v / 256) % 256, v % 256]
  }

  function ReadBe32(b: bytes): uint32
    requires |b| == 4
  {
    var b0: int, b1: int, b2: int, b3: int := b[0], b[1], b[2], b[3];
    b0 * 0x100_0000 + b1 * 0x1_0000 + b2 * 256 + b3
  }

  lemma Be32RoundTrip(v: uint32)
    ensures ReadBe32(Be32(v)) == v
  {
    var a, b, c := v / 256, v / 0x1_0000, v / 0x100_0000;
    assert v == a * 256 + v % 256 && a == b * 256 + a % 256 && b == c * 256 + b % 256;
  }

  function Be64(v: uint64): (b: bytes)
    ensures |b| == 8
  {
    Be32(v / TWO_TO_THE_32) + Be32(v % TWO_TO_THE_32)
  }

  function ReadBe64(b: bytes): uint64
    requires |b| == 8
  {
    ReadBe32(b[..4]) * TWO_TO_THE_32 + ReadBe32(b[4..])
  }

  lemma Be64RoundTrip(v: uint64)
    ensures ReadBe64(Be64(v)) == v
  {
    var hi, lo := v / TWO_TO_THE_32, v % TWO_TO_THE_32;
    Be32RoundTrip(hi);
    Be32RoundTrip(lo);
    assert Be64(v)[..4] == Be32(hi) && Be64(v)[4..] == Be32(lo);
  }
}
