/** Byte-level vocabulary shared by the decoders: the `byte` type, the unsigned
    widths of the player's integers, and the `ntohl`/`ntohs` byte swaps the file
    loader applies to words it reads straight from the file into host memory. */
module Bytes {

  type byte = bv8

  /** 2^16, 2^32 and 2^64: the moduli of `uint16_t`, `uint32_t` and `uint64_t`. */
  const U16_LIMIT: int := 0x1_0000
  const U32_LIMIT: int := 0x1_0000_0000
  const U64_LIMIT: int := 0x1_0000_0000_0000_0000
  /** `UINT64_MAX`. */
  const U64_MAX: int := U64_LIMIT - 1

  /** The unsigned value of bytes read most significant first. */
  function BigEndian(bs: seq<byte>): nat
  {
    if |bs| == 0 then 0 else BigEndian(bs[..|bs| - 1]) * 256 + bs[|bs| - 1] as nat
  }

  /** The `uint32_t` a little-endian host holds after `file.read` of four bytes into it. */
  function LoadLE32(b0: byte, b1: byte, b2: byte, b3: byte): bv32
  {
    b0 as bv32 | (b1 as bv32 << 8) | (b2 as bv32 << 16) | (b3 as bv32 << 24)
  }

  /** The `uint16_t` a little-endian host holds after `file.read` of two bytes into it. */
  function LoadLE16(b0: byte, b1: byte): bv16
  {
    b0 as bv16 | (b1 as bv16 << 8)
  }

  /** The `ntohl` macro: reverses the four bytes of a 32-bit word. */
  function Ntohl(x: bv32): (r: bv32)
    ensures r & 0xFF == x >> 24
    ensures (r >> 8) & 0xFF == (x >> 16) & 0xFF
    ensures (r >> 16) & 0xFF == (x >> 8) & 0xFF
    ensures r >> 24 == x & 0xFF
  {
    ((x & 0xFF) << 24) | ((x & 0xFF00) << 8) | ((x & 0xFF0000) >> 8) | ((x >> 24) & 0xFF)
  }

  /** The `ntohs` macro: swaps the two bytes of a 16-bit word. */
  function Ntohs(x: bv16): (r: bv16)
    ensures r & 0xFF == x >> 8
    ensures r >> 8 == x & 0xFF
  {
    ((x & 0xFF) << 8) | ((x & 0xFF00) >> 8)
  }

  /** Swapping twice gives back the word: `ntohl` is its own inverse. */
  lemma NtohlInvolution(x: bv32)
    ensures Ntohl(Ntohl(x)) == x
  {
  }

  /** Swapping twice gives back the word: `ntohs` is its own inverse. */
  lemma NtohsInvolution(x: bv16)
    ensures Ntohs(Ntohs(x)) == x
  {
  }

  /** The loader's 32-bit read: four file bytes loaded on a little-endian host,
      then byte-swapped. */
  function ReadU32(s: seq<byte>, p: nat): (r: nat)
    requires p + 4 <= |s|
    ensures r < U32_LIMIT
  {
    Ntohl(LoadLE32(s[p], s[p + 1], s[p + 2], s[p + 3])) as nat
  }

  /** The 32-bit read gives the big-endian value of the four bytes. */
  lemma ReadU32Value(s: seq<byte>, p: nat)
    requires p + 4 <= |s|
    ensures ReadU32(s, p) == BigEndian(s[p..p + 4])
  {
    BigEndian4(s, p);
    SwappedWordValue(s[p], s[p + 1], s[p + 2], s[p + 3]);
  }

  /** The loader's 16-bit read: two file bytes loaded on a little-endian host,
      then byte-swapped. */
  function ReadU16(s: seq<byte>, p: nat): (r: nat)
    requires p + 2 <= |s|
    ensures r < U16_LIMIT
  {
    Ntohs(LoadLE16(s[p], s[p + 1])) as nat
  }

  /** The 16-bit read gives the big-endian value of the two bytes. */
  lemma ReadU16Value(s: seq<byte>, p: nat)
    requires p + 2 <= |s|
    ensures ReadU16(s, p) == BigEndian(s[p..p + 2])
  {
    HalfWordValue(s[p], s[p + 1]);
    var h := s[p..p + 2];
    BigEndianSnoc(h, 0);
    BigEndianSnoc(h, 1);
    assert h[..2] == h;
  }

  lemma SwappedWordValue(b0: byte, b1: byte, b2: byte, b3: byte)
    ensures Ntohl(LoadLE32(b0, b1, b2, b3)) as nat
         == ((b0 as nat * 256 + b1 as nat) * 256 + b2 as nat) * 256 + b3 as nat
  {
    assert Ntohl(LoadLE32(b0, b1, b2, b3))
        == (b0 as bv32 << 24) | (b1 as bv32 << 16) | (b2 as bv32 << 8) | b3 as bv32;
    WordValue(b0, b1, b2, b3);
  }

  lemma WordValue(b0: byte, b1: byte, b2: byte, b3: byte)
    ensures ((b0 as bv32 << 24) | (b1 as bv32 << 16) | (b2 as bv32 << 8) | b3 as bv32) as nat
         == ((b0 as nat * 256 + b1 as nat) * 256 + b2 as nat) * 256 + b3 as nat
  {
  }

  lemma HalfWordValue(b0: byte, b1: byte)
    ensures Ntohs(LoadLE16(b0, b1)) as nat == b0 as nat * 256 + b1 as nat
  {
    assert Ntohs(LoadLE16(b0, b1)) == (b0 as bv16 << 8) | b1 as bv16;
    HalfValue(b0, b1);
  }

  lemma HalfValue(b0: byte, b1: byte)
    ensures ((b0 as bv16 << 8) | b1 as bv16) as nat == b0 as nat * 256 + b1 as nat
  {
  }

  /** The byte holding a value below 256, built bit by bit from the most
      significant end. */
  function ByteOf(d: nat): (b: byte)
    requires d < 256
    ensures b as nat == d
    decreases d
  {
    if d == 0 then 0
    else
      var high := ByteOf(d / 2);
      var low: byte := if d % 2 == 1 then 1 else 0;
      ShiftIn(high, low);
      (high << 1) | low
  }

  /** Shifting a bit in below a byte under 128 doubles it and adds the bit. */
  lemma ShiftIn(x: byte, c: byte)
    requires x < 128 && c <= 1
    ensures ((x << 1) | c) as nat == 2 * x as nat + c as nat
  {
  }

  /** Unfolds `BigEndian` over a prefix extended by one byte. */
  lemma BigEndianSnoc(s: seq<byte>, n: nat)
    requires n < |s|
    ensures BigEndian(s[..n + 1]) == BigEndian(s[..n]) * 256 + s[n] as nat
  {
    assert s[..n + 1][..n] == s[..n];
  }

  lemma BigEndian4(s: seq<byte>, p: nat)
    requires p + 4 <= |s|
    ensures BigEndian(s[p..p + 4])
         == ((s[p] as nat * 256 + s[p + 1] as nat) * 256 + s[p + 2] as nat) * 256 + s[p + 3] as nat
  {
    var w := s[p..p + 4];
    BigEndianSnoc(w, 0);
    BigEndianSnoc(w, 1);
    BigEndianSnoc(w, 2);
    BigEndianSnoc(w, 3);
    assert w[..4] == w;
  }

  /** The four bytes a file holds for the 32-bit big-endian value `n`. */
  function U32Bytes(n: nat): (r: seq<byte>)
    requires n < U32_LIMIT
    ensures |r| == 4
    ensures BigEndian(r) == n
  {
    var q1 := n / 256;
    var q2 := q1 / 256;
    var q3 := q2 / 256;
    var r := [ByteOf(q3), ByteOf(q2 % 256), ByteOf(q1 % 256), ByteOf(n % 256)];
    BigEndianSnoc(r, 0);
    BigEndianSnoc(r, 1);
    BigEndianSnoc(r, 2);
    BigEndianSnoc(r, 3);
    assert r[..4] == r;
    r
  }

  /** The two bytes a file holds for the 16-bit big-endian value `n`. */
  function U16Bytes(n: nat): (r: seq<byte>)
    requires n < U16_LIMIT
    ensures |r| == 2
    ensures BigEndian(r) == n
  {
    var r := [ByteOf(n / 256), ByteOf(n % 256)];
    BigEndianSnoc(r, 0);
    BigEndianSnoc(r, 1);
    assert r[..2] == r;
    r
  }

  /** A slice of a slice is a slice of the original. */
  lemma SliceOfSlice(s: seq<byte>, a: nat, b: nat, i: nat, j: nat)
    requires a <= b <= |s| && i <= j <= b - a
    ensures s[a..b][i..j] == s[a + i..a + j]
  {
    assert forall k :: 0 <= k < j - i ==> s[a..b][i..j][k] == s[a + i + k];
  }

  /** Where `x + y` lies in `file` at `pos`, `x` lies at `pos` and `y` right after it. */
  lemma SplitAt(file: seq<byte>, pos: nat, x: seq<byte>, y: seq<byte>)
    requires pos + |x| + |y| <= |file| && file[pos..pos + |x| + |y|] == x + y
    ensures file[pos..pos + |x|] == x
    ensures file[pos + |x|..pos + |x| + |y|] == y
  {
    SliceOfSlice(file, pos, pos + |x| + |y|, 0, |x|);
    SliceOfSlice(file, pos, pos + |x| + |y|, |x|, |x| + |y|);
    assert (x + y)[0..|x|] == x;
    assert (x + y)[|x|..|x| + |y|] == y;
  }
}
