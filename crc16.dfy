/**
 * CRC-16/X-25, the frame check sequence of both transports: the reflected
 * CRC-CCITT polynomial 0x8408, register preset to 0xFFFF, one table lookup per
 * byte, result complemented. This is the HDLC FCS-16 of section C.2 of RFC 1662.
 * The network and the serial code carry textually identical copies of the table
 * and of the loop; both are modelled by this one module.
 */
module Crc16X25 {
  import opened Wire

  /**
   * The 256-entry lookup table exactly as the source lists it, arranged in 16
   * rows of 16: row = high nibble of the index, column = low nibble.
   */
  function Table(index: byte): bv16
  {
    var col := index & 0x0F;
    match index >> 4
    case 0x0 => (match col
      case 0x0 => 0x0000 case 0x1 => 0x1189 case 0x2 => 0x2312 case 0x3 => 0x329B
      case 0x4 => 0x4624 case 0x5 => 0x57AD case 0x6 => 0x6536 case 0x7 => 0x74BF
      case 0x8 => 0x8C48 case 0x9 => 0x9DC1 case 0xA => 0xAF5A case 0xB => 0xBED3
      case 0xC => 0xCA6C case 0xD => 0xDBE5 case 0xE => 0xE97E case 0xF => 0xF8F7)
    case 0x1 => (match col
      case 0x0 => 0x1081 case 0x1 => 0x0108 case 0x2 => 0x3393 case 0x3 => 0x221A
      case 0x4 => 0x56A5 case 0x5 => 0x472C case 0x6 => 0x75B7 case 0x7 => 0x643E
      case 0x8 => 0x9CC9 case 0x9 => 0x8D40 case 0xA => 0xBFDB case 0xB => 0xAE52
      case 0xC => 0xDAED case 0xD => 0xCB64 case 0xE => 0xF9FF case 0xF => 0xE876)
    case 0x2 => (match col
      case 0x0 => 0x2102 case 0x1 => 0x308B case 0x2 => 0x0210 case 0x3 => 0x1399
      case 0x4 => 0x6726 case 0x5 => 0x76AF case 0x6 => 0x4434 case 0x7 => 0x55BD
      case 0x8 => 0xAD4A case 0x9 => 0xBCC3 case 0xA => 0x8E58 case 0xB => 0x9FD1
      case 0xC => 0xEB6E case 0xD => 0xFAE7 case 0xE => 0xC87C case 0xF => 0xD9F5)
    case 0x3 => (match col
      case 0x0 => 0x3183 case 0x1 => 0x200A case 0x2 => 0x1291 case 0x3 => 0x0318
      case 0x4 => 0x77A7 case 0x5 => 0x662E case 0x6 => 0x54B5 case 0x7 => 0x453C
      case 0x8 => 0xBDCB case 0x9 => 0xAC42 case 0xA => 0x9ED9 case 0xB => 0x8F50
      case 0xC => 0xFBEF case 0xD => 0xEA66 case 0xE => 0xD8FD case 0xF => 0xC974)
    case 0x4 => (match col
      case 0x0 => 0x4204 case 0x1 => 0x538D case 0x2 => 0x6116 case 0x3 => 0x709F
      case 0x4 => 0x0420 case 0x5 => 0x15A9 case 0x6 => 0x2732 case 0x7 => 0x36BB
      case 0x8 => 0xCE4C case 0x9 => 0xDFC5 case 0xA => 0xED5E case 0xB => 0xFCD7
      case 0xC => 0x8868 case 0xD => 0x99E1 case 0xE => 0xAB7A case 0xF => 0xBAF3)
    case 0x5 => (match col
      case 0x0 => 0x5285 case 0x1 => 0x430C case 0x2 => 0x7197 case 0x3 => 0x601E
      case 0x4 => 0x14A1 case 0x5 => 0x0528 case 0x6 => 0x37B3 case 0x7 => 0x263A
      case 0x8 => 0xDECD case 0x9 => 0xCF44 case 0xA => 0xFDDF case 0xB => 0xEC56
      case 0xC => 0x98E9 case 0xD => 0x8960 case 0xE => 0xBBFB case 0xF => 0xAA72)
    case 0x6 => (match col
      case 0x0 => 0x6306 case 0x1 => 0x728F case 0x2 => 0x4014 case 0x3 => 0x519D
      case 0x4 => 0x2522 case 0x5 => 0x34AB case 0x6 => 0x0630 case 0x7 => 0x17B9
      case 0x8 => 0xEF4E case 0x9 => 0xFEC7 case 0xA => 0xCC5C case 0xB => 0xDDD5
      case 0xC => 0xA96A case 0xD => 0xB8E3 case 0xE => 0x8A78 case 0xF => 0x9BF1)
    case 0x7 => (match col
      case 0x0 => 0x7387 case 0x1 => 0x620E case 0x2 => 0x5095 case 0x3 => 0x411C
      case 0x4 => 0x35A3 case 0x5 => 0x242A case 0x6 => 0x16B1 case 0x7 => 0x0738
      case 0x8 => 0xFFCF case 0x9 => 0xEE46 case 0xA => 0xDCDD case 0xB => 0xCD54
      case 0xC => 0xB9EB case 0xD => 0xA862 case 0xE => 0x9AF9 case 0xF => 0x8B70)
    case 0x8 => (match col
      case 0x0 => 0x8408 case 0x1 => 0x9581 case 0x2 => 0xA71A case 0x3 => 0xB693
      case 0x4 => 0xC22C case 0x5 => 0xD3A5 case 0x6 => 0xE13E case 0x7 => 0xF0B7
      case 0x8 => 0x0840 case 0x9 => 0x19C9 case 0xA => 0x2B52 case 0xB => 0x3ADB
      case 0xC => 0x4E64 case 0xD => 0x5FED case 0xE => 0x6D76 case 0xF => 0x7CFF)
    case 0x9 => (match col
      case 0x0 => 0x9489 case 0x1 => 0x8500 case 0x2 => 0xB79B case 0x3 => 0xA612
      case 0x4 => 0xD2AD case 0x5 => 0xC324 case 0x6 => 0xF1BF case 0x7 => 0xE036
      case 0x8 => 0x18C1 case 0x9 => 0x0948 case 0xA => 0x3BD3 case 0xB => 0x2A5A
      case 0xC => 0x5EE5 case 0xD => 0x4F6C case 0xE => 0x7DF7 case 0xF => 0x6C7E)
    case 0xA => (match col
      case 0x0 => 0xA50A case 0x1 => 0xB483 case 0x2 => 0x8618 case 0x3 => 0x9791
      case 0x4 => 0xE32E case 0x5 => 0xF2A7 case 0x6 => 0xC03C case 0x7 => 0xD1B5
      case 0x8 => 0x2942 case 0x9 => 0x38CB case 0xA => 0x0A50 case 0xB => 0x1BD9
      case 0xC => 0x6F66 case 0xD => 0x7EEF case 0xE => 0x4C74 case 0xF => 0x5DFD)
    case 0xB => (match col
      case 0x0 => 0xB58B case 0x1 => 0xA402 case 0x2 => 0x9699 case 0x3 => 0x8710
      case 0x4 => 0xF3AF case 0x5 => 0xE226 case 0x6 => 0xD0BD case 0x7 => 0xC134
      case 0x8 => 0x39C3 case 0x9 => 0x284A case 0xA => 0x1AD1 case 0xB => 0x0B58
      case 0xC => 0x7FE7 case 0xD => 0x6E6E case 0xE => 0x5CF5 case 0xF => 0x4D7C)
    case 0xC => (match col
      case 0x0 => 0xC60C case 0x1 => 0xD785 case 0x2 => 0xE51E case 0x3 => 0xF497
      case 0x4 => 0x8028 case 0x5 => 0x91A1 case 0x6 => 0xA33A case 0x7 => 0xB2B3
      case 0x8 => 0x4A44 case 0x9 => 0x5BCD case 0xA => 0x6956 case 0xB => 0x78DF
      case 0xC => 0x0C60 case 0xD => 0x1DE9 case 0xE => 0x2F72 case 0xF => 0x3EFB)
    case 0xD => (match col
      case 0x0 => 0xD68D case 0x1 => 0xC704 case 0x2 => 0xF59F case 0x3 => 0xE416
      case 0x4 => 0x90A9 case 0x5 => 0x8120 case 0x6 => 0xB3BB case 0x7 => 0xA232
      case 0x8 => 0x5AC5 case 0x9 => 0x4B4C case 0xA => 0x79D7 case 0xB => 0x685E
      case 0xC => 0x1CE1 case 0xD => 0x0D68 case 0xE => 0x3FF3 case 0xF => 0x2E7A)
    case 0xE => (match col
      case 0x0 => 0xE70E case 0x1 => 0xF687 case 0x2 => 0xC41C case 0x3 => 0xD595
      case 0x4 => 0xA12A case 0x5 => 0xB0A3 case 0x6 => 0x8238 case 0x7 => 0x93B1
      case 0x8 => 0x6B46 case 0x9 => 0x7ACF case 0xA => 0x4854 case 0xB => 0x59DD
      case 0xC => 0x2D62 case 0xD => 0x3CEB case 0xE => 0x0E70 case 0xF => 0x1FF9)
    case 0xF => (match col
      case 0x0 => 0xF78F case 0x1 => 0xE606 case 0x2 => 0xD49D case 0x3 => 0xC514
      case 0x4 => 0xB1AB case 0x5 => 0xA022 case 0x6 => 0x92B9 case 0x7 => 0x8330
      case 0x8 => 0x7BC7 case 0x9 => 0x6A4E case 0xA => 0x58D5 case 0xB => 0x495C
      case 0xC => 0x3DE3 case 0xD => 0x2C6A case 0xE => 0x1EF1 case 0xF => 0x0F78)
  }


  /**
   * One bit of the bit-serial (shift register) form of the reflected CRC:
   * shift right, and add the polynomial when the bit shifted out was set.
   */
  function Shift1(c: bv16): bv16
  {
    if c & 1 == 1 then (c >> 1) ^ 0x8408 else c >> 1
  }

  /** The table entry the polynomial defines for one index: eight bit-serial steps. */
  function Entry(i: byte): bv16
  {
    var c := i as bv16;
    Shift1(Shift1(Shift1(Shift1(Shift1(Shift1(Shift1(Shift1(c))))))))
  }

  /**
   * A proof device, not part of the source: the inverse of the map from an
   * index to the high byte of its table entry. That this inverse exists is
   * what makes every update step invertible.
   */
  function HighByteIndex(high: byte): byte
  {
    var col := high & 0x0F;
    match high >> 4
    case 0x0 => (match col
      case 0x0 => 0x00 case 0x1 => 0x11 case 0x2 => 0x22 case 0x3 => 0x33
      case 0x4 => 0x44 case 0x5 => 0x55 case 0x6 => 0x66 case 0x7 => 0x77
      case 0x8 => 0x88 case 0x9 => 0x99 case 0xA => 0xAA case 0xB => 0xBB
      case 0xC => 0xCC case 0xD => 0xDD case 0xE => 0xEE case 0xF => 0xFF)
    case 0x1 => (match col
      case 0x0 => 0x10 case 0x1 => 0x01 case 0x2 => 0x32 case 0x3 => 0x23
      case 0x4 => 0x54 case 0x5 => 0x45 case 0x6 => 0x76 case 0x7 => 0x67
      case 0x8 => 0x98 case 0x9 => 0x89 case 0xA => 0xBA case 0xB => 0xAB
      case 0xC => 0xDC case 0xD => 0xCD case 0xE => 0xFE case 0xF => 0xEF)
    case 0x2 => (match col
      case 0x0 => 0x31 case 0x1 => 0x20 case 0x2 => 0x13 case 0x3 => 0x02
      case 0x4 => 0x75 case 0x5 => 0x64 case 0x6 => 0x57 case 0x7 => 0x46
      case 0x8 => 0xB9 case 0x9 => 0xA8 case 0xA => 0x9B case 0xB => 0x8A
      case 0xC => 0xFD case 0xD => 0xEC case 0xE => 0xDF case 0xF => 0xCE)
    case 0x3 => (match col
      case 0x0 => 0x21 case 0x1 => 0x30 case 0x2 => 0x03 case 0x3 => 0x12
      case 0x4 => 0x65 case 0x5 => 0x74 case 0x6 => 0x47 case 0x7 => 0x56
      case 0x8 => 0xA9 case 0x9 => 0xB8 case 0xA => 0x8B case 0xB => 0x9A
      case 0xC => 0xED case 0xD => 0xFC case 0xE => 0xCF case 0xF => 0xDE)
    case 0x4 => (match col
      case 0x0 => 0x62 case 0x1 => 0x73 case 0x2 => 0x40 case 0x3 => 0x51
      case 0x4 => 0x26 case 0x5 => 0x37 case 0x6 => 0x04 case 0x7 => 0x15
      case 0x8 => 0xEA case 0x9 => 0xFB case 0xA => 0xC8 case 0xB => 0xD9
      case 0xC => 0xAE case 0xD => 0xBF case 0xE => 0x8C case 0xF => 0x9D)
    case 0x5 => (match col
      case 0x0 => 0x72 case 0x1 => 0x63 case 0x2 => 0x50 case 0x3 => 0x41
      case 0x4 => 0x36 case 0x5 => 0x27 case 0x6 => 0x14 case 0x7 => 0x05
      case 0x8 => 0xFA case 0x9 => 0xEB case 0xA => 0xD8 case 0xB => 0xC9
      case 0xC => 0xBE case 0xD => 0xAF case 0xE => 0x9C case 0xF => 0x8D)
    case 0x6 => (match col
      case 0x0 => 0x53 case 0x1 => 0x42 case 0x2 => 0x71 case 0x3 => 0x60
      case 0x4 => 0x17 case 0x5 => 0x06 case 0x6 => 0x35 case 0x7 => 0x24
      case 0x8 => 0xDB case 0x9 => 0xCA case 0xA => 0xF9 case 0xB => 0xE8
      case 0xC => 0x9F case 0xD => 0x8E case 0xE => 0xBD case 0xF => 0xAC)
    case 0x7 => (match col
      case 0x0 => 0x43 case 0x1 => 0x52 case 0x2 => 0x61 case 0x3 => 0x70
      case 0x4 => 0x07 case 0x5 => 0x16 case 0x6 => 0x25 case 0x7 => 0x34
      case 0x8 => 0xCB case 0x9 => 0xDA case 0xA => 0xE9 case 0xB => 0xF8
      case 0xC => 0x8F case 0xD => 0x9E case 0xE => 0xAD case 0xF => 0xBC)
    case 0x8 => (match col
      case 0x0 => 0xC4 case 0x1 => 0xD5 case 0x2 => 0xE6 case 0x3 => 0xF7
      case 0x4 => 0x80 case 0x5 => 0x91 case 0x6 => 0xA2 case 0x7 => 0xB3
      case 0x8 => 0x4C case 0x9 => 0x5D case 0xA => 0x6E case 0xB => 0x7F
      case 0xC => 0x08 case 0xD => 0x19 case 0xE => 0x2A case 0xF => 0x3B)
    case 0x9 => (match col
      case 0x0 => 0xD4 case 0x1 => 0xC5 case 0x2 => 0xF6 case 0x3 => 0xE7
      case 0x4 => 0x90 case 0x5 => 0x81 case 0x6 => 0xB2 case 0x7 => 0xA3
      case 0x8 => 0x5C case 0x9 => 0x4D case 0xA => 0x7E case 0xB => 0x6F
      case 0xC => 0x18 case 0xD => 0x09 case 0xE => 0x3A case 0xF => 0x2B)
    case 0xA => (match col
      case 0x0 => 0xF5 case 0x1 => 0xE4 case 0x2 => 0xD7 case 0x3 => 0xC6
      case 0x4 => 0xB1 case 0x5 => 0xA0 case 0x6 => 0x93 case 0x7 => 0x82
      case 0x8 => 0x7D case 0x9 => 0x6C case 0xA => 0x5F case 0xB => 0x4E
      case 0xC => 0x39 case 0xD => 0x28 case 0xE => 0x1B case 0xF => 0x0A)
    case 0xB => (match col
      case 0x0 => 0xE5 case 0x1 => 0xF4 case 0x2 => 0xC7 case 0x3 => 0xD6
      case 0x4 => 0xA1 case 0x5 => 0xB0 case 0x6 => 0x83 case 0x7 => 0x92
      case 0x8 => 0x6D case 0x9 => 0x7C case 0xA => 0x4F case 0xB => 0x5E
      case 0xC => 0x29 case 0xD => 0x38 case 0xE => 0x0B case 0xF => 0x1A)
    case 0xC => (match col
      case 0x0 => 0xA6 case 0x1 => 0xB7 case 0x2 => 0x84 case 0x3 => 0x95
      case 0x4 => 0xE2 case 0x5 => 0xF3 case 0x6 => 0xC0 case 0x7 => 0xD1
      case 0x8 => 0x2E case 0x9 => 0x3F case 0xA => 0x0C case 0xB => 0x1D
      case 0xC => 0x6A case 0xD => 0x7B case 0xE => 0x48 case 0xF => 0x59)
    case 0xD => (match col
      case 0x0 => 0xB6 case 0x1 => 0xA7 case 0x2 => 0x94 case 0x3 => 0x85
      case 0x4 => 0xF2 case 0x5 => 0xE3 case 0x6 => 0xD0 case 0x7 => 0xC1
      case 0x8 => 0x3E case 0x9 => 0x2F case 0xA => 0x1C case 0xB => 0x0D
      case 0xC => 0x7A case 0xD => 0x6B case 0xE => 0x58 case 0xF => 0x49)
    case 0xE => (match col
      case 0x0 => 0x97 case 0x1 => 0x86 case 0x2 => 0xB5 case 0x3 => 0xA4
      case 0x4 => 0xD3 case 0x5 => 0xC2 case 0x6 => 0xF1 case 0x7 => 0xE0
      case 0x8 => 0x1F case 0x9 => 0x0E case 0xA => 0x3D case 0xB => 0x2C
      case 0xC => 0x5B case 0xD => 0x4A case 0xE => 0x79 case 0xF => 0x68)
    case 0xF => (match col
      case 0x0 => 0x87 case 0x1 => 0x96 case 0x2 => 0xA5 case 0x3 => 0xB4
      case 0x4 => 0xC3 case 0x5 => 0xD2 case 0x6 => 0xE1 case 0x7 => 0xF0
      case 0x8 => 0x0F case 0x9 => 0x1E case 0xA => 0x2D case 0xB => 0x3C
      case 0xC => 0x4B case 0xD => 0x5A case 0xE => 0x69 case 0xF => 0x78)
  }

  lemma {:induction false} TableBlock00(i: byte)
    requires 0x00 <= i <= 0x07
    ensures Table(i) == Entry(i)
  {
    if i == 0x00 {} else if i == 0x01 {} else if i == 0x02 {} else if i == 0x03 {}
    else if i == 0x04 {} else if i == 0x05 {} else if i == 0x06 {} else { assert i == 0x07; }
  }
  lemma {:induction false} TableBlock08(i: byte)
    requires 0x08 <= i <= 0x0F
    ensures Table(i) == Entry(i)
  {
    if i == 0x08 {} else if i == 0x09 {} else if i == 0x0A {} else if i == 0x0B {}
    else if i == 0x0C {} else if i == 0x0D {} else if i == 0x0E {} else { assert i == 0x0F; }
  }
  lemma {:induction false} IndexBlock0(i: byte)
    requires 0x00 <= i <= 0x0F
    ensures HighByteIndex((Table(i) >> 8) as byte) == i
  {
    if i == 0x00 {} else if i == 0x01 {} else if i == 0x02 {} else if i == 0x03 {}
    else if i == 0x04 {} else if i == 0x05 {} else if i == 0x06 {} else if i == 0x07 {}
    else if i == 0x08 {} else if i == 0x09 {} else if i == 0x0A {} else if i == 0x0B {}
    else if i == 0x0C {} else if i == 0x0D {} else if i == 0x0E {} else { assert i == 0x0F; }
  }
  lemma {:induction false} TableBlock10(i: byte)
    requires 0x10 <= i <= 0x17
    ensures Table(i) == Entry(i)
  {
    if i == 0x10 {} else if i == 0x11 {} else if i == 0x12 {} else if i == 0x13 {}
    else if i == 0x14 {} else if i == 0x15 {} else if i == 0x16 {} else { assert i == 0x17; }
  }
  lemma {:induction false} TableBlock18(i: byte)
    requires 0x18 <= i <= 0x1F
    ensures Table(i) == Entry(i)
  {
    if i == 0x18 {} else if i == 0x19 {} else if i == 0x1A {} else if i == 0x1B {}
    else if i == 0x1C {} else if i == 0x1D {} else if i == 0x1E {} else { assert i == 0x1F; }
  }
  lemma {:induction false} IndexBlock1(i: byte)
    requires 0x10 <= i <= 0x1F
    ensures HighByteIndex((Table(i) >> 8) as byte) == i
  {
    if i == 0x10 {} else if i == 0x11 {} else if i == 0x12 {} else if i == 0x13 {}
    else if i == 0x14 {} else if i == 0x15 {} else if i == 0x16 {} else if i == 0x17 {}
    else if i == 0x18 {} else if i == 0x19 {} else if i == 0x1A {} else if i == 0x1B {}
    else if i == 0x1C {} else if i == 0x1D {} else if i == 0x1E {} else { assert i == 0x1F; }
  }
  lemma {:induction false} TableBlock20(i: byte)
    requires 0x20 <= i <= 0x27
    ensures Table(i) == Entry(i)
  {
    if i == 0x20 {} else if i == 0x21 {} else if i == 0x22 {} else if i == 0x23 {}
    else if i == 0x24 {} else if i == 0x25 {} else if i == 0x26 {} else { assert i == 0x27; }
  }
  lemma {:induction false} TableBlock28(i: byte)
    requires 0x28 <= i <= 0x2F
    ensures Table(i) == Entry(i)
  {
    if i == 0x28 {} else if i == 0x29 {} else if i == 0x2A {} else if i == 0x2B {}
    else if i == 0x2C {} else if i == 0x2D {} else if i == 0x2E {} else { assert i == 0x2F; }
  }
  lemma {:induction false} IndexBlock2(i: byte)
    requires 0x20 <= i <= 0x2F
    ensures HighByteIndex((Table(i) >> 8) as byte) == i
  {
    if i == 0x20 {} else if i == 0x21 {} else if i == 0x22 {} else if i == 0x23 {}
    else if i == 0x24 {} else if i == 0x25 {} else if i == 0x26 {} else if i == 0x27 {}
    else if i == 0x28 {} else if i == 0x29 {} else if i == 0x2A {} else if i == 0x2B {}
    else if i == 0x2C {} else if i == 0x2D {} else if i == 0x2E {} else { assert i == 0x2F; }
  }
  lemma {:induction false} TableBlock30(i: byte)
    requires 0x30 <= i <= 0x37
    ensures Table(i) == Entry(i)
  {
    if i == 0x30 {} else if i == 0x31 {} else if i == 0x32 {} else if i == 0x33 {}
    else if i == 0x34 {} else if i == 0x35 {} else if i == 0x36 {} else { assert i == 0x37; }
  }
  lemma {:induction false} TableBlock38(i: byte)
    requires 0x38 <= i <= 0x3F
    ensures Table(i) == Entry(i)
  {
    if i == 0x38 {} else if i == 0x39 {} else if i == 0x3A {} else if i == 0x3B {}
    else if i == 0x3C {} else if i == 0x3D {} else if i == 0x3E {} else { assert i == 0x3F; }
  }
  lemma {:induction false} IndexBlock3(i: byte)
    requires 0x30 <= i <= 0x3F
    ensures HighByteIndex((Table(i) >> 8) as byte) == i
  {
    if i == 0x30 {} else if i == 0x31 {} else if i == 0x32 {} else if i == 0x33 {}
    else if i == 0x34 {} else if i == 0x35 {} else if i == 0x36 {} else if i == 0x37 {}
    else if i == 0x38 {} else if i == 0x39 {} else if i == 0x3A {} else if i == 0x3B {}
    else if i == 0x3C {} else if i == 0x3D {} else if i == 0x3E {} else { assert i == 0x3F; }
  }
  lemma {:induction false} TableBlock40(i: byte)
    requires 0x40 <= i <= 0x47
    ensures Table(i) == Entry(i)
  {
    if i == 0x40 {} else if i == 0x41 {} else if i == 0x42 {} else if i == 0x43 {}
    else if i == 0x44 {} else if i == 0x45 {} else if i == 0x46 {} else { assert i == 0x47; }
  }
  lemma {:induction false} TableBlock48(i: byte)
    requires 0x48 <= i <= 0x4F
    ensures Table(i) == Entry(i)
  {
    if i == 0x48 {} else if i == 0x49 {} else if i == 0x4A {} else if i == 0x4B {}
    else if i == 0x4C {} else if i == 0x4D {} else if i == 0x4E {} else { assert i == 0x4F; }
  }
  lemma {:induction false} IndexBlock4(i: byte)
    requires 0x40 <= i <= 0x4F
    ensures HighByteIndex((Table(i) >> 8) as byte) == i
  {
    if i == 0x40 {} else if i == 0x41 {} else if i == 0x42 {} else if i == 0x43 {}
    else if i == 0x44 {} else if i == 0x45 {} else if i == 0x46 {} else if i == 0x47 {}
    else if i == 0x48 {} else if i == 0x49 {} else if i == 0x4A {} else if i == 0x4B {}
    else if i == 0x4C {} else if i == 0x4D {} else if i == 0x4E {} else { assert i == 0x4F; }
  }
  lemma {:induction false} TableBlock50(i: byte)
    requires 0x50 <= i <= 0x57
    ensures Table(i) == Entry(i)
  {
    if i == 0x50 {} else if i == 0x51 {} else if i == 0x52 {} else if i == 0x53 {}
    else if i == 0x54 {} else if i == 0x55 {} else if i == 0x56 {} else { assert i == 0x57; }
  }
  lemma {:induction false} TableBlock58(i: byte)
    requires 0x58 <= i <= 0x5F
    ensures Table(i) == Entry(i)
  {
    if i == 0x58 {} else if i == 0x59 {} else if i == 0x5A {} else if i == 0x5B {}
    else if i == 0x5C {} else if i == 0x5D {} else if i == 0x5E {} else { assert i == 0x5F; }
  }
  lemma {:induction false} IndexBlock5(i: byte)
    requires 0x50 <= i <= 0x5F
    ensures HighByteIndex((Table(i) >> 8) as byte) == i
  {
    if i == 0x50 {} else if i == 0x51 {} else if i == 0x52 {} else if i == 0x53 {}
    else if i == 0x54 {} else if i == 0x55 {} else if i == 0x56 {} else if i == 0x57 {}
    else if i == 0x58 {} else if i == 0x59 {} else if i == 0x5A {} else if i == 0x5B {}
    else if i == 0x5C {} else if i == 0x5D {} else if i == 0x5E {} else { assert i == 0x5F; }
  }
  lemma {:induction false} TableBlock60(i: byte)
    requires 0x60 <= i <= 0x67
    ensures Table(i) == Entry(i)
  {
    if i == 0x60 {} else if i == 0x61 {} else if i == 0x62 {} else if i == 0x63 {}
    else if i == 0x64 {} else if i == 0x65 {} else if i == 0x66 {} else { assert i == 0x67; }
  }
  lemma {:induction false} TableBlock68(i: byte)
    requires 0x68 <= i <= 0x6F
    ensures Table(i) == Entry(i)
  {
    if i == 0x68 {} else if i == 0x69 {} else if i == 0x6A {} else if i == 0x6B {}
    else if i == 0x6C {} else if i == 0x6D {} else if i == 0x6E {} else { assert i == 0x6F; }
  }
  lemma {:induction false} IndexBlock6(i: byte)
    requires 0x60 <= i <= 0x6F
    ensures HighByteIndex((Table(i) >> 8) as byte) == i
  {
    if i == 0x60 {} else if i == 0x61 {} else if i == 0x62 {} else if i == 0x63 {}
    else if i == 0x64 {} else if i == 0x65 {} else if i == 0x66 {} else if i == 0x67 {}
    else if i == 0x68 {} else if i == 0x69 {} else if i == 0x6A {} else if i == 0x6B {}
    else if i == 0x6C {} else if i == 0x6D {} else if i == 0x6E {} else { assert i == 0x6F; }
  }
  lemma {:induction false} TableBlock70(i: byte)
    requires 0x70 <= i <= 0x77
    ensures Table(i) == Entry(i)
  {
    if i == 0x70 {} else if i == 0x71 {} else if i == 0x72 {} else if i == 0x73 {}
    else if i == 0x74 {} else if i == 0x75 {} else if i == 0x76 {} else { assert i == 0x77; }
  }
  lemma {:induction false} TableBlock78(i: byte)
    requires 0x78 <= i <= 0x7F
    ensures Table(i) == Entry(i)
  {
    if i == 0x78 {} else if i == 0x79 {} else if i == 0x7A {} else if i == 0x7B {}
    else if i == 0x7C {} else if i == 0x7D {} else if i == 0x7E {} else { assert i == 0x7F; }
  }
  lemma {:induction false} IndexBlock7(i: byte)
    requires 0x70 <= i <= 0x7F
    ensures HighByteIndex((Table(i) >> 8) as byte) == i
  {
    if i == 0x70 {} else if i == 0x71 {} else if i == 0x72 {} else if i == 0x73 {}
    else if i == 0x74 {} else if i == 0x75 {} else if i == 0x76 {} else if i == 0x77 {}
    else if i == 0x78 {} else if i == 0x79 {} else if i == 0x7A {} else if i == 0x7B {}
    else if i == 0x7C {} else if i == 0x7D {} else if i == 0x7E {} else { assert i == 0x7F; }
  }
  lemma {:induction false} TableBlock80(i: byte)
    requires 0x80 <= i <= 0x87
    ensures Table(i) == Entry(i)
  {
    if i == 0x80 {} else if i == 0x81 {} else if i == 0x82 {} else if i == 0x83 {}
    else if i == 0x84 {} else if i == 0x85 {} else if i == 0x86 {} else { assert i == 0x87; }
  }
  lemma {:induction false} TableBlock88(i: byte)
    requires 0x88 <= i <= 0x8F
    ensures Table(i) == Entry(i)
  {
    if i == 0x88 {} else if i == 0x89 {} else if i == 0x8A {} else if i == 0x8B {}
    else if i == 0x8C {} else if i == 0x8D {} else if i == 0x8E {} else { assert i == 0x8F; }
  }
  lemma {:induction false} IndexBlock8(i: byte)
    requires 0x80 <= i <= 0x8F
    ensures HighByteIndex((Table(i) >> 8) as byte) == i
  {
    if i == 0x80 {} else if i == 0x81 {} else if i == 0x82 {} else if i == 0x83 {}
    else if i == 0x84 {} else if i == 0x85 {} else if i == 0x86 {} else if i == 0x87 {}
    else if i == 0x88 {} else if i == 0x89 {} else if i == 0x8A {} else if i == 0x8B {}
    else if i == 0x8C {} else if i == 0x8D {} else if i == 0x8E {} else { assert i == 0x8F; }
  }
  lemma {:induction false} TableBlock90(i: byte)
    requires 0x90 <= i <= 0x97
    ensures Table(i) == Entry(i)
  {
    if i == 0x90 {} else if i == 0x91 {} else if i == 0x92 {} else if i == 0x93 {}
    else if i == 0x94 {} else if i == 0x95 {} else if i == 0x96 {} else { assert i == 0x97; }
  }
  lemma {:induction false} TableBlock98(i: byte)
    requires 0x98 <= i <= 0x9F
    ensures Table(i) == Entry(i)
  {
    if i == 0x98 {} else if i == 0x99 {} else if i == 0x9A {} else if i == 0x9B {}
    else if i == 0x9C {} else if i == 0x9D {} else if i == 0x9E {} else { assert i == 0x9F; }
  }
  lemma {:induction false} IndexBlock9(i: byte)
    requires 0x90 <= i <= 0x9F
    ensures HighByteIndex((Table(i) >> 8) as byte) == i
  {
    if i == 0x90 {} else if i == 0x91 {} else if i == 0x92 {} else if i == 0x93 {}
    else if i == 0x94 {} else if i == 0x95 {} else if i == 0x96 {} else if i == 0x97 {}
    else if i == 0x98 {} else if i == 0x99 {} else if i == 0x9A {} else if i == 0x9B {}
    else if i == 0x9C {} else if i == 0x9D {} else if i == 0x9E {} else { assert i == 0x9F; }
  }
  lemma {:induction false} TableBlockA0(i: byte)
    requires 0xA0 <= i <= 0xA7
    ensures Table(i) == Entry(i)
  {
    if i == 0xA0 {} else if i == 0xA1 {} else if i == 0xA2 {} else if i == 0xA3 {}
    else if i == 0xA4 {} else if i == 0xA5 {} else if i == 0xA6 {} else { assert i == 0xA7; }
  }
  lemma {:induction false} TableBlockA8(i: byte)
    requires 0xA8 <= i <= 0xAF
    ensures Table(i) == Entry(i)
  {
    if i == 0xA8 {} else if i == 0xA9 {} else if i == 0xAA {} else if i == 0xAB {}
    else if i == 0xAC {} else if i == 0xAD {} else if i == 0xAE {} else { assert i == 0xAF; }
  }
  lemma {:induction false} IndexBlockA(i: byte)
    requires 0xA0 <= i <= 0xAF
    ensures HighByteIndex((Table(i) >> 8) as byte) == i
  {
    if i == 0xA0 {} else if i == 0xA1 {} else if i == 0xA2 {} else if i == 0xA3 {}
    else if i == 0xA4 {} else if i == 0xA5 {} else if i == 0xA6 {} else if i == 0xA7 {}
    else if i == 0xA8 {} else if i == 0xA9 {} else if i == 0xAA {} else if i == 0xAB {}
    else if i == 0xAC {} else if i == 0xAD {} else if i == 0xAE {} else { assert i == 0xAF; }
  }
  lemma {:induction false} TableBlockB0(i: byte)
    requires 0xB0 <= i <= 0xB7
    ensures Table(i) == Entry(i)
  {
    if i == 0xB0 {} else if i == 0xB1 {} else if i == 0xB2 {} else if i == 0xB3 {}
    else if i == 0xB4 {} else if i == 0xB5 {} else if i == 0xB6 {} else { assert i == 0xB7; }
  }
  lemma {:induction false} TableBlockB8(i: byte)
    requires 0xB8 <= i <= 0xBF
    ensures Table(i) == Entry(i)
  {
    if i == 0xB8 {} else if i == 0xB9 {} else if i == 0xBA {} else if i == 0xBB {}
    else if i == 0xBC {} else if i == 0xBD {} else if i == 0xBE {} else { assert i == 0xBF; }
  }
  lemma {:induction false} IndexBlockB(i: byte)
    requires 0xB0 <= i <= 0xBF
    ensures HighByteIndex((Table(i) >> 8) as byte) == i
  {
    if i == 0xB0 {} else if i == 0xB1 {} else if i == 0xB2 {} else if i == 0xB3 {}
    else if i == 0xB4 {} else if i == 0xB5 {} else if i == 0xB6 {} else if i == 0xB7 {}
    else if i == 0xB8 {} else if i == 0xB9 {} else if i == 0xBA {} else if i == 0xBB {}
    else if i == 0xBC {} else if i == 0xBD {} else if i == 0xBE {} else { assert i == 0xBF; }
  }
  lemma {:induction false} TableBlockC0(i: byte)
    requires 0xC0 <= i <= 0xC7
    ensures Table(i) == Entry(i)
  {
    if i == 0xC0 {} else if i == 0xC1 {} else if i == 0xC2 {} else if i == 0xC3 {}
    else if i == 0xC4 {} else if i == 0xC5 {} else if i == 0xC6 {} else { assert i == 0xC7; }
  }
  lemma {:induction false} TableBlockC8(i: byte)
    requires 0xC8 <= i <= 0xCF
    ensures Table(i) == Entry(i)
  {
    if i == 0xC8 {} else if i == 0xC9 {} else if i == 0xCA {} else if i == 0xCB {}
    else if i == 0xCC {} else if i == 0xCD {} else if i == 0xCE {} else { assert i == 0xCF; }
  }
  lemma {:induction false} IndexBlockC(i: byte)
    requires 0xC0 <= i <= 0xCF
    ensures HighByteIndex((Table(i) >> 8) as byte) == i
  {
    if i == 0xC0 {} else if i == 0xC1 {} else if i == 0xC2 {} else if i == 0xC3 {}
    else if i == 0xC4 {} else if i == 0xC5 {} else if i == 0xC6 {} else if i == 0xC7 {}
    else if i == 0xC8 {} else if i == 0xC9 {} else if i == 0xCA {} else if i == 0xCB {}
    else if i == 0xCC {} else if i == 0xCD {} else if i == 0xCE {} else { assert i == 0xCF; }
  }
  lemma {:induction false} TableBlockD0(i: byte)
    requires 0xD0 <= i <= 0xD7
    ensures Table(i) == Entry(i)
  {
    if i == 0xD0 {} else if i == 0xD1 {} else if i == 0xD2 {} else if i == 0xD3 {}
    else if i == 0xD4 {} else if i == 0xD5 {} else if i == 0xD6 {} else { assert i == 0xD7; }
  }
  lemma {:induction false} TableBlockD8(i: byte)
    requires 0xD8 <= i <= 0xDF
    ensures Table(i) == Entry(i)
  {
    if i == 0xD8 {} else if i == 0xD9 {} else if i == 0xDA {} else if i == 0xDB {}
    else if i == 0xDC {} else if i == 0xDD {} else if i == 0xDE {} else { assert i == 0xDF; }
  }
  lemma {:induction false} IndexBlockD(i: byte)
    requires 0xD0 <= i <= 0xDF
    ensures HighByteIndex((Table(i) >> 8) as byte) == i
  {
    if i == 0xD0 {} else if i == 0xD1 {} else if i == 0xD2 {} else if i == 0xD3 {}
    else if i == 0xD4 {} else if i == 0xD5 {} else if i == 0xD6 {} else if i == 0xD7 {}
    else if i == 0xD8 {} else if i == 0xD9 {} else if i == 0xDA {} else if i == 0xDB {}
    else if i == 0xDC {} else if i == 0xDD {} else if i == 0xDE {} else { assert i == 0xDF; }
  }
  lemma {:induction false} TableBlockE0(i: byte)
    requires 0xE0 <= i <= 0xE7
    ensures Table(i) == Entry(i)
  {
    if i == 0xE0 {} else if i == 0xE1 {} else if i == 0xE2 {} else if i == 0xE3 {}
    else if i == 0xE4 {} else if i == 0xE5 {} else if i == 0xE6 {} else { assert i == 0xE7; }
  }
  lemma {:induction false} TableBlockE8(i: byte)
    requires 0xE8 <= i <= 0xEF
    ensures Table(i) == Entry(i)
  {
    if i == 0xE8 {} else if i == 0xE9 {} else if i == 0xEA {} else if i == 0xEB {}
    else if i == 0xEC {} else if i == 0xED {} else if i == 0xEE {} else { assert i == 0xEF; }
  }
  lemma {:induction false} IndexBlockE(i: byte)
    requires 0xE0 <= i <= 0xEF
    ensures HighByteIndex((Table(i) >> 8) as byte) == i
  {
    if i == 0xE0 {} else if i == 0xE1 {} else if i == 0xE2 {} else if i == 0xE3 {}
    else if i == 0xE4 {} else if i == 0xE5 {} else if i == 0xE6 {} else if i == 0xE7 {}
    else if i == 0xE8 {} else if i == 0xE9 {} else if i == 0xEA {} else if i == 0xEB {}
    else if i == 0xEC {} else if i == 0xED {} else if i == 0xEE {} else { assert i == 0xEF; }
  }
  lemma {:induction false} TableBlockF0(i: byte)
    requires 0xF0 <= i <= 0xF7
    ensures Table(i) == Entry(i)
  {
    if i == 0xF0 {} else if i == 0xF1 {} else if i == 0xF2 {} else if i == 0xF3 {}
    else if i == 0xF4 {} else if i == 0xF5 {} else if i == 0xF6 {} else { assert i == 0xF7; }
  }
  lemma {:induction false} TableBlockF8(i: byte)
    requires 0xF8 <= i <= 0xFF
    ensures Table(i) == Entry(i)
  {
    if i == 0xF8 {} else if i == 0xF9 {} else if i == 0xFA {} else if i == 0xFB {}
    else if i == 0xFC {} else if i == 0xFD {} else if i == 0xFE {} else { assert i == 0xFF; }
  }
  lemma {:induction false} IndexBlockF(i: byte)
    requires 0xF0 <= i <= 0xFF
    ensures HighByteIndex((Table(i) >> 8) as byte) == i
  {
    if i == 0xF0 {} else if i == 0xF1 {} else if i == 0xF2 {} else if i == 0xF3 {}
    else if i == 0xF4 {} else if i == 0xF5 {} else if i == 0xF6 {} else if i == 0xF7 {}
    else if i == 0xF8 {} else if i == 0xF9 {} else if i == 0xFA {} else if i == 0xFB {}
    else if i == 0xFC {} else if i == 0xFD {} else if i == 0xFE {} else { assert i == 0xFF; }
  }

  /**
   * Every entry of the source's table is the entry the polynomial defines, and
   * the high bytes of the 256 entries are 256 different values.
   */
  lemma {:induction false} TableIsReflected8408(i: byte)
    ensures Table(i) == Entry(i)
    ensures HighByteIndex((Table(i) >> 8) as byte) == i
  {
    if i <= 0x07 { TableBlock00(i); }
    else if i <= 0x0F { TableBlock08(i); }
    else if i <= 0x17 { TableBlock10(i); }
    else if i <= 0x1F { TableBlock18(i); }
    else if i <= 0x27 { TableBlock20(i); }
    else if i <= 0x2F { TableBlock28(i); }
    else if i <= 0x37 { TableBlock30(i); }
    else if i <= 0x3F { TableBlock38(i); }
    else if i <= 0x47 { TableBlock40(i); }
    else if i <= 0x4F { TableBlock48(i); }
    else if i <= 0x57 { TableBlock50(i); }
    else if i <= 0x5F { TableBlock58(i); }
    else if i <= 0x67 { TableBlock60(i); }
    else if i <= 0x6F { TableBlock68(i); }
    else if i <= 0x77 { TableBlock70(i); }
    else if i <= 0x7F { TableBlock78(i); }
    else if i <= 0x87 { TableBlock80(i); }
    else if i <= 0x8F { TableBlock88(i); }
    else if i <= 0x97 { TableBlock90(i); }
    else if i <= 0x9F { TableBlock98(i); }
    else if i <= 0xA7 { TableBlockA0(i); }
    else if i <= 0xAF { TableBlockA8(i); }
    else if i <= 0xB7 { TableBlockB0(i); }
    else if i <= 0xBF { TableBlockB8(i); }
    else if i <= 0xC7 { TableBlockC0(i); }
    else if i <= 0xCF { TableBlockC8(i); }
    else if i <= 0xD7 { TableBlockD0(i); }
    else if i <= 0xDF { TableBlockD8(i); }
    else if i <= 0xE7 { TableBlockE0(i); }
    else if i <= 0xEF { TableBlockE8(i); }
    else if i <= 0xF7 { TableBlockF0(i); }
    else { TableBlockF8(i); }
    if i <= 0x0F { IndexBlock0(i); }
    else if i <= 0x1F { IndexBlock1(i); }
    else if i <= 0x2F { IndexBlock2(i); }
    else if i <= 0x3F { IndexBlock3(i); }
    else if i <= 0x4F { IndexBlock4(i); }
    else if i <= 0x5F { IndexBlock5(i); }
    else if i <= 0x6F { IndexBlock6(i); }
    else if i <= 0x7F { IndexBlock7(i); }
    else if i <= 0x8F { IndexBlock8(i); }
    else if i <= 0x9F { IndexBlock9(i); }
    else if i <= 0xAF { IndexBlockA(i); }
    else if i <= 0xBF { IndexBlockB(i); }
    else if i <= 0xCF { IndexBlockC(i); }
    else if i <= 0xDF { IndexBlockD(i); }
    else if i <= 0xEF { IndexBlockE(i); }
    else { IndexBlockF(i); }
  }

  lemma {:induction false} TableHighByteInjective(a: byte, b: byte)
    ensures Table(a) >> 8 == Table(b) >> 8 ==> a == b
  {
    TableIsReflected8408(a);
    TableIsReflected8408(b);
  }

  /** The register update the source performs for one byte: one table lookup. */
  function Step(crc: bv16, b: byte): bv16
  {
    (crc >> 8) ^ Table(((crc ^ b as bv16) & 0xFF) as bv8)
  }

  /**
   * The register after `data` has been fed, one byte at a time, through the
   * update `step` to a register holding `init`. The update is a parameter so
   * that the facts below about feeding bytes hold for any update.
   */
  function Feed(step: (bv16, byte) -> bv16, init: bv16, data: seq<byte>): bv16
    decreases |data|
  {
    if data == [] then init else step(Feed(step, init, data[..|data| - 1]), data[|data| - 1])
  }

  /** CRC-16/X-25 of `data`: preset 0xFFFF, final XOR 0xFFFF. */
  function Crc16(data: seq<byte>): bv16
  {
    Feed(Step, 0xFFFF, data) ^ 0xFFFF
  }

  /**
   * The checksum loop over the first `length` bytes of a buffer
   * (`calculateCRC16X25` of the network handler, `calculateCRC16_X25` of the
   * serial module).
   */
  method CalculateCrc16X25(data: array<byte>, length: nat) returns (crc: bv16)
    requires length <= data.Length
    ensures crc == Crc16(data[..length])
  {
    crc := 0xFFFF;
    var i := 0;
    while i < length
      invariant i <= length
      invariant crc == Feed(Step, 0xFFFF, data[..i])
    {
      assert data[..i + 1][..i] == data[..i];
      crc := Step(crc, data[i]);
      i := i + 1;
    }
    crc := crc ^ 0xFFFF;
  }

  /** The standard check value of CRC-16/X-25 over the ASCII digits "123456789". */
  lemma {:induction false} CheckValue()
    ensures Crc16([0x31, 0x32, 0x33, 0x34, 0x35, 0x36, 0x37, 0x38, 0x39]) == 0x906E
    ensures Crc16([]) == 0x0000
  {
    var s0: seq<byte> := [];
    var s1 := s0 + [0x31];
    assert s1[..0] == s0;
    assert Step(0xFFFF, 0x31) == 0x2F8D;
    assert Feed(Step, 0xFFFF, s1) == 0x2F8D;
    var s2 := s1 + [0x32];
    assert s2[..1] == s1;
    assert Step(0x2F8D, 0x32) == 0x4D53;
    assert Feed(Step, 0xFFFF, s2) == 0x4D53;
    var s3 := s2 + [0x33];
    assert s3[..2] == s2;
    assert Step(0x4D53, 0x33) == 0x634B;
    assert Feed(Step, 0xFFFF, s3) == 0x634B;
    var s4 := s3 + [0x34];
    assert s4[..3] == s3;
    assert Step(0x634B, 0x34) == 0x8B13;
    assert Feed(Step, 0xFFFF, s4) == 0x8B13;
    var s5 := s4 + [0x35];
    assert s5[..4] == s4;
    assert Step(0x8B13, 0x35) == 0x44BF;
    assert Feed(Step, 0xFFFF, s5) == 0x44BF;
    var s6 := s5 + [0x36];
    assert s6[..5] == s5;
    assert Step(0x44BF, 0x36) == 0x198D;
    assert Feed(Step, 0xFFFF, s6) == 0x198D;
    var s7 := s6 + [0x37];
    assert s7[..6] == s6;
    assert Step(0x198D, 0x37) == 0x1AC8;
    assert Feed(Step, 0xFFFF, s7) == 0x1AC8;
    var s8 := s7 + [0x38];
    assert s8[..7] == s7;
    assert Step(0x1AC8, 0x38) == 0xF795;
    assert Feed(Step, 0xFFFF, s8) == 0xF795;
    var s9 := s8 + [0x39];
    assert s9[..8] == s8;
    assert Step(0xF795, 0x39) == 0x6F91;
    assert Feed(Step, 0xFFFF, s9) == 0x6F91;
    assert s9 == [0x31, 0x32, 0x33, 0x34, 0x35, 0x36, 0x37, 0x38, 0x39];
  }

  /** Feeding is compositional: feeding `a + b` continues from the register left by `a`. */
  lemma {:induction false} FeedAppend(step: (bv16, byte) -> bv16, init: bv16, a: seq<byte>, b: seq<byte>)
    ensures Feed(step, init, a + b) == Feed(step, Feed(step, init, a), b)
    decreases |b|
  {
    if b == [] {
      assert a + b == a;
    } else {
      var ab := a + b;
      assert ab[..|ab| - 1] == a + b[..|b| - 1];
      assert ab[|ab| - 1] == b[|b| - 1];
      FeedAppend(step, init, a, b[..|b| - 1]);
    }
  }

  /** When every single update is injective in the register, so is feeding a whole sequence. */
  lemma {:induction false} FeedInjective(step: (bv16, byte) -> bv16, r1: bv16, r2: bv16, data: seq<byte>)
    requires forall c1: bv16, c2: bv16, b: byte :: step(c1, b) == step(c2, b) ==> c1 == c2
    ensures Feed(step, r1, data) == Feed(step, r2, data) ==> r1 == r2
    decreases |data|
  {
    if data != [] {
      FeedInjective(step, r1, r2, data[..|data| - 1]);
    }
  }

  /** For a fixed byte, two different registers always update to two different registers. */
  lemma {:induction false} StepInjective(c1: bv16, c2: bv16, b: byte)
    ensures Step(c1, b) == Step(c2, b) ==> c1 == c2
  {
    var i1 := ((c1 ^ b as bv16) & 0xFF) as bv8;
    var i2 := ((c2 ^ b as bv16) & 0xFF) as bv8;
    TableHighByteInjective(i1, i2);
  }

  /** From a fixed register, two different bytes always lead to two different registers. */
  lemma {:induction false} StepSeparatesBytes(c: bv16, b1: byte, b2: byte)
    ensures b1 != b2 ==> Step(c, b1) != Step(c, b2)
  {
    var i1 := ((c ^ b1 as bv16) & 0xFF) as bv8;
    var i2 := ((c ^ b2 as bv16) & 0xFF) as bv8;
    TableHighByteInjective(i1, i2);
  }

  /**
   * Any change confined to one byte of a message changes its checksum, so a
   * corrupted byte (in particular a flipped bit) is always detected.
   */
  lemma {:induction false} SingleByteErrorDetected(a: seq<byte>, b: seq<byte>, k: nat)
    requires |a| == |b| && k < |a| && a[k] != b[k]
    requires forall i :: 0 <= i < |a| && i != k ==> a[i] == b[i]
    ensures Crc16(a) != Crc16(b)
  {
    var p := a[..k];
    assert b[..k] == p;
    var sa := a[k + 1..];
    assert b[k + 1..] == sa;
    var pa, pb := p + [a[k]], p + [b[k]];
    assert a == pa + sa;
    assert b == pb + sa;
    FeedAppend(Step, 0xFFFF, pa, sa);
    FeedAppend(Step, 0xFFFF, pb, sa);
    assert pa[..k] == p && pb[..k] == p;
    StepSeparatesBytes(Feed(Step, 0xFFFF, p), a[k], b[k]);
    forall c1: bv16, c2: bv16, x: byte
      ensures Step(c1, x) == Step(c2, x) ==> c1 == c2
    {
      StepInjective(c1, c2, x);
    }
    FeedInjective(Step, Feed(Step, 0xFFFF, pa), Feed(Step, 0xFFFF, pb), sa);
  }

  /** Whether `frame` ends with the little-endian checksum of the bytes before it. */
  predicate FcsOk(frame: seq<byte>)
    requires |frame| >= 2
  {
    U16At(frame, |frame| - 2) == Crc16(frame[..|frame| - 2])
  }

  /** A frame that passes the check is its message followed by the message's checksum. */
  lemma {:induction false} FcsOkIsAppended(f: seq<byte>)
    requires |f| >= 2 && FcsOk(f)
    ensures f == f[..|f| - 2] + LeU16(Crc16(f[..|f| - 2]))
  {
    LeU16OfU16At(f, |f| - 2);
    assert f == f[..|f| - 2] + f[|f| - 2..];
  }

  /** Appending the checksum of a message to it makes a frame that passes the check. */
  lemma {:induction false} FcsOfAppended(head: seq<byte>)
    ensures FcsOk(head + LeU16(Crc16(head)))
  {
    var f := head + LeU16(Crc16(head));
    U16AtSplice(head, Crc16(head), []);
    assert head + LeU16(Crc16(head)) + [] == f;
    assert f[..|f| - 2] == head;
  }

  /** Changing one byte of the message, and nothing else, breaks the check. */
  lemma {:induction false} MessageChangeBreaksFcs(f: seq<byte>, k: nat, x: byte)
    requires |f| >= 2 && FcsOk(f) && k < |f| - 2 && x != f[k]
    ensures !FcsOk(f[k := x])
  {
    var n := |f|;
    var g := f[k := x];
    var m, m' := f[..n - 2], g[..n - 2];
    assert m' == m[k := x];
    SingleByteErrorDetected(m, m', k);
    assert g[n - 2..n] == f[n - 2..n];
    U16AtSameBytes(f, g, n - 2);
  }

  /** Changing one byte of the checksum field, and nothing else, breaks the check. */
  lemma {:induction false} FieldChangeBreaksFcs(f: seq<byte>, k: nat, x: byte)
    requires |f| >= 2 && FcsOk(f) && |f| - 2 <= k < |f| && x != f[k]
    ensures !FcsOk(f[k := x])
  {
    var n := |f|;
    var g := f[k := x];
    assert g[..n - 2] == f[..n - 2];
    assert g[n - 2] != f[n - 2] || g[n - 1] != f[n - 1];
    U16AtDiffers(f, g, n - 2);
  }

  /**
   * A frame that passes the check fails it once any one of its bytes is changed,
   * whether the byte is in the message or in the checksum field.
   */
  lemma {:induction false} ByteChangeBreaksFcs(f: seq<byte>, k: nat, x: byte)
    requires |f| >= 2 && FcsOk(f) && k < |f| && x != f[k]
    ensures !FcsOk(f[k := x])
  {
    if k < |f| - 2 {
      MessageChangeBreaksFcs(f, k, x);
    } else {
      FieldChangeBreaksFcs(f, k, x);
    }
  }
}
