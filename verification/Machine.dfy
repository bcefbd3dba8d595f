/** The fixed-width integers of the WASM guest, and the little-endian output buffers of host calls. */
module Machine {

  const MAX_INT32 := 0x7FFF_FFFF

  type int32 = x: int | -0x8000_0000 <= x <= 0x7FFF_FFFF

  type byte = x: int | 0 <= x < 0x100

  /** Go's int32 arithmetic wraps around. */
  function Wrap32(x: int): (w: int32)
    ensures -0x8000_0000 <= x <= MAX_INT32 ==> w == x
  {
    (x + 0x8000_0000) % 0x1_0000_0000 - 0x8000_0000
  }

  /** The four bytes a host call writes for one 32-bit output, least significant first. */
  function Word(x: int32): (w: seq<byte>)
    ensures |w| == 4
  {
    var u := x % 0x1_0000_0000;
    [u % 0x100, u / 0x100 % 0x100, u / 0x1_0000 % 0x100, u / 0x100_0000]
  }

  /** The guest reads an output back with shifts and ors, then converts uint32 to int32. */
  function Int32At(buf: seq<byte>, at: nat): int32
    requires at + 4 <= |buf|
  {
    var b0: int, b1: int, b2: int, b3: int := buf[at], buf[at + 1], buf[at + 2], buf[at + 3];
    Wrap32(b0 + 0x100 * b1 + 0x1_0000 * b2 + 0x100_0000 * b3)
  }

  /** The bytes of an output, least significant first, make up its value, or that value less 2^32 if it is negative. */
  lemma WordIsLittleEndian(x: int32)
    ensures var b0: int, b1: int, b2: int, b3: int := Word(x)[0], Word(x)[1], Word(x)[2], Word(x)[3];
      b0 + 256 * b1 + 65536 * b2 + 16777216 * b3 == if x < 0 then x + 4294967296 else x
  {
    var u := x % 0x1_0000_0000;
    BytesOfWord(u);
    assert u == if x < 0 then x + 4294967296 else x;
  }

  /** Whatever output the host writes at `at`, pointer or length, negative or not, the guest reads back. */
  lemma WordRoundTrip(buf: seq<byte>, at: nat, x: int32)
    requires at + 4 <= |buf| && buf[at..at + 4] == Word(x)
    ensures Int32At(buf, at) == x
  {
    var w := buf[at..at + 4];
    assert w[0] == buf[at] && w[1] == buf[at + 1] && w[2] == buf[at + 2] && w[3] == buf[at + 3];
    BytesOfWord(x % 0x1_0000_0000);
  }

  type int64 = x: int | -0x8000_0000_0000_0000 <= x <= 0x7FFF_FFFF_FFFF_FFFF

  function Wrap64(x: int): (w: int64)
    ensures -0x8000_0000_0000_0000 <= x <= 0x7FFF_FFFF_FFFF_FFFF ==> w == x
  {
    (x + 0x8000_0000_0000_0000) % 0x1_0000_0000_0000_0000 - 0x8000_0000_0000_0000
  }

  /** The eight bytes of a 64-bit output: its low word, then its high word. */
  function Long(x: int64): (w: seq<byte>)
    ensures |w| == 8
  {
    var u := x % 0x1_0000_0000_0000_0000;
    Word(Wrap32(u % 0x1_0000_0000)) + Word(Wrap32(u / 0x1_0000_0000))
  }

  /** The eight bytes put together with shifts and ors, then converted to int64. */
  function Int64At(buf: seq<byte>, at: nat): int64
    requires at + 8 <= |buf|
  {
    Wrap64(Int32At(buf, at) % 0x1_0000_0000 + 0x1_0000_0000 * (Int32At(buf, at + 4) % 0x1_0000_0000))
  }

  /** And so on: the high word counts 2^32 times. */
  lemma LongIsLittleEndian(x: int64)
    ensures var u := if x < 0 then x + 18446744073709551616 else x;
      && Long(x)[..4] == Word(Wrap32(u % 4294967296)) && Long(x)[4..] == Word(Wrap32(u / 4294967296))
  {
    assert x % 0x1_0000_0000_0000_0000 == if x < 0 then x + 18446744073709551616 else x;
  }

  /** Whatever 64-bit count the host writes, the guest reads back. */
  lemma LongRoundTrip(buf: seq<byte>, at: nat, x: int64)
    requires at + 8 <= |buf| && buf[at..at + 8] == Long(x)
    ensures Int64At(buf, at) == x
  {
    var u := x % 0x1_0000_0000_0000_0000;
    var low, high := Wrap32(u % 0x1_0000_0000), Wrap32(u / 0x1_0000_0000);
    assert buf[at..at + 4] == buf[at..at + 8][..4] == Word(low);
    assert buf[at + 4..at + 4 + 4] == buf[at..at + 8][4..] == Word(high);
    WordRoundTrip(buf, at, low);
    WordRoundTrip(buf, at + 4, high);
    UnsignedOfWrap(u % 0x1_0000_0000);
    UnsignedOfWrap(u / 0x1_0000_0000);
    SignedOfUnsigned(x);
  }

  lemma UnsignedOfWrap(u: int)
    requires 0 <= u < 0x1_0000_0000
    ensures Wrap32(u) % 0x1_0000_0000 == u
  {
    assert Wrap32(u) == if u < 0x8000_0000 then u else u - 0x1_0000_0000;
  }

  lemma SignedOfUnsigned(x: int64)
    ensures Wrap64(x % 0x1_0000_0000_0000_0000) == x
  {
    var u := x % 0x1_0000_0000_0000_0000;
    assert u == if x < 0 then x + 0x1_0000_0000_0000_0000 else x;
  }

  lemma BytesOfWord(u: int)
    requires 0 <= u < 0x1_0000_0000
    ensures u % 0x100 + 0x100 * (u / 0x100 % 0x100) + 0x1_0000 * (u / 0x1_0000 % 0x100) + 0x100_0000 * (u / 0x100_0000) == u
  {
    var a := u / 0x100;
    var b := a / 0x100;
    assert u / 0x1_0000 == b && u / 0x100_0000 == b / 0x100;
  }
}
