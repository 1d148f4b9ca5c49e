/**
 * The text form in which both handlers log a received frame: for every byte,
 * in order, the characters `0x`, the value in upper-case hexadecimal without
 * leading zeros, and one space (`bytesToHexString`, a `std::hex` and
 * `std::uppercase` stream of each byte widened to `int`).
 */
module HexDump {
  import opened Wire

  /** The upper-case hexadecimal digit for `d`. */
  function HexDigit(d: nat): (c: char)
    requires d < 16
    ensures ('0' <= c <= '9') || ('A' <= c <= 'F')
  {
    if d < 10 then (48 + d) as char else (55 + d) as char
  }

  /** The value of an upper-case hexadecimal digit (the inverse of HexDigit). */
  function DigitValue(c: char): (d: nat)
    requires ('0' <= c <= '9') || ('A' <= c <= 'F')
    ensures d < 16 && HexDigit(d) == c
  {
    if c <= '9' then c as nat - 48 else c as nat - 55
  }

  predicate IsHexDigit(c: char)
  {
    ('0' <= c <= '9') || ('A' <= c <= 'F')
  }

  /** A byte value printed by a hex stream: one digit below 16, two digits from 16 on. */
  function ByteHex(b: byte): (r: string)
    ensures |r| == (if b < 16 then 1 else 2)
    ensures forall i :: 0 <= i < |r| ==> IsHexDigit(r[i])
    ensures |r| == 2 ==> r[0] != '0'
  {
    var v := b as nat;
    if v < 16 then [HexDigit(v)]
    else
      var hi, lo := v / 16, v % 16;
      assert 1 <= hi < 16 && lo < 16;
      [HexDigit(hi), HexDigit(lo)]
  }

  /** The text logged for one byte. */
  function Chunk(b: byte): (r: string)
    ensures |r| == 3 + |ByteHex(b)|
  {
    "0x" + ByteHex(b) + " "
  }

  /** The logged line for `data`: `0x<hex> ` for every byte. */
  function BytesToHexString(data: seq<byte>): (r: string)
    ensures 4 * |data| <= |r| <= 5 * |data|
    decreases |data|
  {
    if data == [] then "" else Chunk(data[0]) + BytesToHexString(data[1..])
  }

  /**
   * Reads a logged line back into the bytes it shows; None when the text is not
   * in the form the logger writes.
   */
  function ParseHexDump(s: string): (r: Option<seq<byte>>)
    decreases |s|
  {
    if s == [] then Some([])
    else if |s| >= 4 && s[0] == '0' && s[1] == 'x' && IsHexDigit(s[2]) && s[3] == ' ' then
      match ParseHexDump(s[4..])
      case None => None
      case Some(rest) => Some([DigitValue(s[2]) as byte] + rest)
    else if |s| >= 5 && s[0] == '0' && s[1] == 'x' && IsHexDigit(s[2]) && s[2] != '0'
      && IsHexDigit(s[3]) && s[4] == ' ' then
      match ParseHexDump(s[5..])
      case None => None
      case Some(rest) => Some([(DigitValue(s[2]) * 16 + DigitValue(s[3])) as byte] + rest)
    else None
  }

  lemma {:induction false} HexDigitValue(d: nat)
    requires d < 16
    ensures DigitValue(HexDigit(d)) == d
  {
  }

  lemma {:induction false} ByteHexValue(b: byte)
    ensures |ByteHex(b)| == 1 ==> DigitValue(ByteHex(b)[0]) == b as nat
    ensures |ByteHex(b)| == 2 ==> DigitValue(ByteHex(b)[0]) * 16 + DigitValue(ByteHex(b)[1]) == b as nat
  {
    var v := b as nat;
    if v < 16 {
      HexDigitValue(v);
    } else {
      HexDigitValue(v / 16);
      HexDigitValue(v % 16);
    }
  }

  /** Reading one logged byte followed by any text. */
  lemma {:induction false} ParseChunk(b: byte, tail: string)
    ensures ParseHexDump(Chunk(b) + tail) ==
      match ParseHexDump(tail)
      case None => None
      case Some(rest) => Some([b] + rest)
  {
    ByteHexValue(b);
    if |ByteHex(b)| == 1 {
      ParseShortChunk(b, tail);
    } else {
      ParseLongChunk(b, tail);
    }
  }

  lemma {:induction false} ParseShortChunk(b: byte, tail: string)
    requires |ByteHex(b)| == 1 && DigitValue(ByteHex(b)[0]) == b as nat
    ensures ParseHexDump(Chunk(b) + tail) ==
      match ParseHexDump(tail)
      case None => None
      case Some(rest) => Some([b] + rest)
  {
    var h := ByteHex(b);
    var s := Chunk(b) + tail;
    assert s[..4] == ['0', 'x', h[0], ' '];
    assert s[4..] == tail;
  }

  lemma {:induction false} ParseLongChunk(b: byte, tail: string)
    requires |ByteHex(b)| == 2 && DigitValue(ByteHex(b)[0]) * 16 + DigitValue(ByteHex(b)[1]) == b as nat
    ensures ParseHexDump(Chunk(b) + tail) ==
      match ParseHexDump(tail)
      case None => None
      case Some(rest) => Some([b] + rest)
  {
    var h := ByteHex(b);
    assert Chunk(b) + tail == ['0', 'x', h[0], h[1], ' '] + tail;
    ParseLongText(h[0], h[1], b, tail);
  }

  /** Reading a two-digit chunk `0x<c0><c1> ` followed by any text. */
  lemma {:induction false} ParseLongText(c0: char, c1: char, b: byte, tail: string)
    requires IsHexDigit(c0) && c0 != '0' && IsHexDigit(c1) && DigitValue(c0) * 16 + DigitValue(c1) == b as nat
    ensures ParseHexDump(['0', 'x', c0, c1, ' '] + tail) ==
      match ParseHexDump(tail)
      case None => None
      case Some(rest) => Some([b] + rest)
  {
    var s := ['0', 'x', c0, c1, ' '] + tail;
    assert s[5..] == tail;
    assert (b as nat) as byte == b;
  }

  /** The logged text determines the frame: reading it back gives exactly the logged bytes. */
  lemma {:induction false} HexDumpRoundTrip(data: seq<byte>)
    ensures ParseHexDump(BytesToHexString(data)) == Some(data)
    decreases |data|
  {
    if data != [] {
      HexDumpRoundTrip(data[1..]);
      ParseChunk(data[0], BytesToHexString(data[1..]));
      assert [data[0]] + data[1..] == data;
    }
  }

  /** Two different frames are never logged as the same line. */
  lemma {:induction false} HexDumpInjective(a: seq<byte>, b: seq<byte>)
    ensures BytesToHexString(a) == BytesToHexString(b) ==> a == b
  {
    HexDumpRoundTrip(a);
    HexDumpRoundTrip(b);
  }

  /** The values the stream prints without padding: 0x0A is logged as `0xA `, 0xFF as `0xFF `. */
  lemma {:induction false} HexDumpExamples()
    ensures BytesToHexString([0x0A]) == "0xA "
    ensures BytesToHexString([0xEE, 0x00]) == "0xEE 0x0 "
  {
  }
}
