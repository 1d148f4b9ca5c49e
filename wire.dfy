/**
 * Byte-level wire conventions shared by both transports: the controller and the
 * device exchange packed host structs of a little-endian target, so every
 * multi-byte field is written least significant byte first.
 */
module Wire {

  /** A wire byte. */
  type byte = bv8

  datatype Option<T> = None | Some(value: T)

  /** A count below 256 stored in one byte. */
  function ByteOf(n: nat): (b: byte)
    requires n < 0x100
    ensures b as int == n
  {
    if n == 0 then 0 else ByteOf(n - 1) + 1
  }

  lemma {:induction false} ByteBound(b: byte)
    ensures b as int < 0x100
  {
  }

  /** A byte's value stored back into a byte is that byte. */
  lemma {:induction false} ByteOfValue(b: byte)
    ensures ByteOf(b as int) == b
  {
  }

  /** The little-endian 16-bit value stored in `s[i]`, `s[i + 1]`. */
  function U16At(s: seq<byte>, i: nat): (r: bv16)
    requires i + 2 <= |s|
    ensures r & 0xFF == s[i] as bv16 && r >> 8 == s[i + 1] as bv16
  {
    (s[i] as bv16) | ((s[i + 1] as bv16) << 8)
  }

  /** The value read depends on the two bytes read and on nothing else. */
  lemma {:induction false} U16AtSameBytes(s: seq<byte>, t: seq<byte>, i: nat)
    requires i + 2 <= |s| && i + 2 <= |t| && s[i..i + 2] == t[i..i + 2]
    ensures U16At(s, i) == U16At(t, i)
  {
    assert s[i] == s[i..i + 2][0] && s[i + 1] == s[i..i + 2][1];
    assert t[i] == t[i..i + 2][0] && t[i + 1] == t[i..i + 2][1];
  }

  /** Two different byte pairs read as two different values. */
  lemma {:induction false} U16AtDiffers(s: seq<byte>, t: seq<byte>, i: nat)
    requires i + 2 <= |s| && i + 2 <= |t| && (s[i] != t[i] || s[i + 1] != t[i + 1])
    ensures U16At(s, i) != U16At(t, i)
  {
  }

  /** The little-endian 32-bit value stored in `s[i..i + 4]`. */
  function U32At(s: seq<byte>, i: nat): (r: bv32)
    requires i + 4 <= |s|
    ensures (r & 0xFF) as bv8 == s[i] && ((r >> 8) & 0xFF) as bv8 == s[i + 1]
    ensures ((r >> 16) & 0xFF) as bv8 == s[i + 2] && (r >> 24) as bv8 == s[i + 3]
  {
    (s[i] as bv32) | ((s[i + 1] as bv32) << 8) | ((s[i + 2] as bv32) << 16) | ((s[i + 3] as bv32) << 24)
  }

  /** The two bytes a packed `uint16_t` occupies in memory. */
  function LeU16(x: bv16): (r: seq<byte>)
    ensures |r| == 2 && U16At(r, 0) == x
  {
    [(x & 0xFF) as bv8, (x >> 8) as bv8]
  }

  /** The four bytes a packed `uint32_t` occupies in memory. */
  function LeU32(x: bv32): (r: seq<byte>)
    ensures |r| == 4 && U32At(r, 0) == x
  {
    [(x & 0xFF) as bv8, ((x >> 8) & 0xFF) as bv8, ((x >> 16) & 0xFF) as bv8, (x >> 24) as bv8]
  }

  /** Reading a field back at any offset of a larger message gives the stored value. */
  lemma {:induction false} U16AtSplice(prefix: seq<byte>, x: bv16, suffix: seq<byte>)
    ensures U16At(prefix + LeU16(x) + suffix, |prefix|) == x
  {
    var s := prefix + LeU16(x) + suffix;
    assert s[|prefix|] == LeU16(x)[0] && s[|prefix| + 1] == LeU16(x)[1];
  }

  lemma {:induction false} U32AtSplice(prefix: seq<byte>, x: bv32, suffix: seq<byte>)
    ensures U32At(prefix + LeU32(x) + suffix, |prefix|) == x
  {
    var s := prefix + LeU32(x) + suffix;
    var e := LeU32(x);
    assert s[|prefix|] == e[0] && s[|prefix| + 1] == e[1];
    assert s[|prefix| + 2] == e[2] && s[|prefix| + 3] == e[3];
  }

  /** Encoding is also the inverse of decoding: two stored bytes are recovered exactly. */
  lemma {:induction false} LeU16OfU16At(s: seq<byte>, i: nat)
    requires i + 2 <= |s|
    ensures LeU16(U16At(s, i)) == s[i..i + 2]
  {
  }

  lemma {:induction false} LeU32OfU32At(s: seq<byte>, i: nat)
    requires i + 4 <= |s|
    ensures LeU32(U32At(s, i)) == s[i..i + 4]
  {
  }

  /** Wrap-around of a mathematical integer to an unsigned 32-bit field (`uint32_t` assignment). */
  function ToU32(x: int): bv32
  {
    (x % 0x1_0000_0000) as bv32
  }
}
