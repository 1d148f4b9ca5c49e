/**
 * The UDP control protocol of the network handler: validation of a received
 * datagram, the commands an accepted frame triggers, and the heartbeat reply.
 *
 * A frame is `EE AA <len> <id> <payload> <crc16 LE>`: `len` counts the whole
 * frame, the checksum is CRC-16/X-25 over the `len - 2` bytes before it, and the
 * handler of `id` is given the `len - 4` bytes after the header (the checksum
 * included). Bytes received after the first `len` are ignored.
 */
module UdpFrame {
  import opened Wire
  import opened Crc16X25
  import opened Ipv4Text

  const FrameIdDevice: byte := 1
  const FrameIdOsd: byte := 2
  const FrameIdIp: byte := 3

  /** The outcome of checking one received datagram. */
  datatype Verdict =
    | TooShort          // fewer bytes than the 4-byte header (a timeout or error counts as none)
    | BadMarker         // the first two bytes are not EE AA
    | Truncated         // fewer bytes received than the length byte announces
    | LengthTooSmall    // the length byte leaves no room for header and checksum
    | ReadsBeforeBuffer // the checksum would be read at a negative offset
    | PayloadLengthWraps // the payload length `len - 4` would wrap around as an unsigned size
    | CrcMismatch
    | Accepted(frame: seq<byte>, id: byte, payload: seq<byte>)

  /**
   * The check every datagram goes through before it is dispatched, with a lower
   * bound of 6 on the length byte (header and checksum).
   */
  function CheckDatagram(d: seq<byte>): (v: Verdict)
    ensures v != ReadsBeforeBuffer && v != PayloadLengthWraps
    ensures v.Accepted? ==>
      6 <= |v.frame| <= |d| && v.frame == d[..|v.frame|] && v.frame[2] as int == |v.frame|
      && v.frame[..2] == [0xEE, 0xAA] && v.id == v.frame[3] && v.payload == v.frame[4..]
      && FcsOk(v.frame)
    ensures v == CrcMismatch ==> |d| >= 4 && 6 <= d[2] as int <= |d| && !FcsOk(d[..d[2]])
  {
    if |d| < 4 then TooShort
    else if d[0] != 0xEE || d[1] != 0xAA then BadMarker
    else if |d| < d[2] as int then Truncated
    else if d[2] < 6 then LengthTooSmall
    else
      var f := d[..d[2]];
      if !FcsOk(f) then CrcMismatch
      else Accepted(f, f[3], f[4..])
  }

  /**
   * A datagram is accepted exactly when it has a header, starts with EE AA,
   * announces a length of at least 6 that it does not fall short of, and the first
   * `len` bytes end with their checksum; the frame is then those `len` bytes.
   */
  lemma {:induction false} CheckDatagramCases(d: seq<byte>)
    ensures CheckDatagram(d).Accepted? <==>
      |d| >= 4 && d[0] == 0xEE && d[1] == 0xAA && 6 <= d[2] as int <= |d| && FcsOk(d[..d[2]])
    ensures CheckDatagram(d).Accepted? ==> CheckDatagram(d).frame == d[..d[2]]
  {
  }

  /**
   * The same check as the handler's loop performs it, without a lower bound on the
   * length byte: a length below 2 puts the checksum before the buffer, and a
   * length below 4 makes the payload length wrap.
   */
  function CheckDatagramAsWritten(d: seq<byte>): (v: Verdict)
    ensures v != LengthTooSmall
  {
    if |d| < 4 then TooShort
    else if d[0] != 0xEE || d[1] != 0xAA then BadMarker
    else if |d| < d[2] as int then Truncated
    else if d[2] < 2 then ReadsBeforeBuffer
    else
      var f := d[..d[2]];
      if !FcsOk(f) then CrcMismatch
      else if |f| < 4 then PayloadLengthWraps
      else Accepted(f, f[3], f[4..])
  }

  /** The two checks agree on every datagram whose length byte is at least 6. */
  lemma {:induction false} AsWrittenAgreesFromSix(d: seq<byte>)
    ensures CheckDatagram(d) != LengthTooSmall ==> CheckDatagramAsWritten(d) == CheckDatagram(d)
    ensures CheckDatagram(d) == LengthTooSmall ==> CheckDatagramAsWritten(d) != CheckDatagram(d)
  {
  }

  /** The checksums of the header prefixes a short frame is checked against. */
  lemma {:induction false} ShortPrefixCrcs()
    ensures Crc16([0xEE]) == 0xFE08
    ensures Crc16([0xEE, 0xAA, 0x05]) == 0xDA54
  {
    var s0: seq<byte> := [];
    var s1 := s0 + [0xEE];
    assert s1[..0] == s0;
    assert Step(0xFFFF, 0xEE) == 0x01F7;
    assert Feed(Step, 0xFFFF, s1) == 0x01F7;
    var s2 := s1 + [0xAA];
    assert s2[..1] == s1;
    assert Step(0x01F7, 0xAA) == 0x8961;
    assert Feed(Step, 0xFFFF, s2) == 0x8961;
    var s3 := s2 + [0x05];
    assert s3[..2] == s2;
    assert Step(0x8961, 0x05) == 0x25AB;
    assert Feed(Step, 0xFFFF, s3) == 0x25AB;
    assert s3 == [0xEE, 0xAA, 0x05];
  }

  /**
   * A length byte of 2 or 3 never passes the checksum: the checksum field then
   * overlaps the marker, and the marker's checksum never matches. So the wrapped
   * payload length is never reached.
   */
  lemma {:induction false} AsWrittenNeverWraps(d: seq<byte>)
    ensures CheckDatagramAsWritten(d) != PayloadLengthWraps
  {
    if 4 <= |d| && d[0] == 0xEE && d[1] == 0xAA && d[2] as int <= |d| && 2 <= d[2] < 4 {
      var f := d[..d[2]];
      CheckValue();
      ShortPrefixCrcs();
      if d[2] == 2 {
        assert f[..0] == [];
        assert U16At(f, 0) == 0xAAEE;
      } else {
        assert f[..1] == [0xEE];
        assert U16At(f, 1) == 0x03AA;
      }
    }
  }

  /**
   * The datagram `EE AA 00 00` passes the marker and size checks, and the loop as
   * written then reads the checksum two bytes before its buffer; the lower bound
   * rejects it.
   */
  lemma {:induction false} AsWrittenReadsBeforeBufferExample()
    ensures CheckDatagramAsWritten([0xEE, 0xAA, 0x00, 0x00]) == ReadsBeforeBuffer
    ensures CheckDatagram([0xEE, 0xAA, 0x00, 0x00]) == LengthTooSmall
  {
  }

  /**
   * The five bytes `EE AA 05 54 DA` are accepted as written, although the header
   * and the checksum overlap; the lower bound rejects them.
   */
  lemma {:induction false} AsWrittenAcceptsOverlapExample()
    ensures CheckDatagramAsWritten([0xEE, 0xAA, 0x05, 0x54, 0xDA]) == Accepted([0xEE, 0xAA, 0x05, 0x54, 0xDA], 0x54, [0xDA])
    ensures CheckDatagram([0xEE, 0xAA, 0x05, 0x54, 0xDA]) == LengthTooSmall
  {
    var d: seq<byte> := [0xEE, 0xAA, 0x05, 0x54, 0xDA];
    ShortPrefixCrcs();
    assert d[..5] == d;
    assert d[..3] == [0xEE, 0xAA, 0x05];
    assert U16At(d, 3) == 0xDA54;
  }

  /** The frame a sender builds for `id` and `body`. */
  function EncodeDatagram(id: byte, body: seq<byte>): (r: seq<byte>)
    requires |body| <= 249
    ensures |r| == |body| + 6
  {
    var head := [0xEE, 0xAA, ByteOf(|body| + 6), id] + body;
    head + LeU16(Crc16(head))
  }

  /** Where header, body and checksum lie in an encoded frame, and that it passes the check. */
  lemma {:induction false} EncodedLayout(id: byte, body: seq<byte>)
    requires |body| <= 249
    ensures var f := EncodeDatagram(id, body);
      f[..4] == [0xEE, 0xAA, ByteOf(|f|), id] && FcsOk(f)
      && f[4..] == body + LeU16(Crc16(f[..|f| - 2]))
  {
    var head := [0xEE, 0xAA, ByteOf(|body| + 6), id] + body;
    FcsOfAppended(head);
    HeaderThenRest([0xEE, 0xAA, ByteOf(|body| + 6), id], body, LeU16(Crc16(head)));
  }

  /** Cutting `h + b + t` after a four-byte `h` and before a two-byte `t`. */
  lemma {:induction false} HeaderThenRest(h: seq<byte>, b: seq<byte>, t: seq<byte>)
    requires |h| == 4 && |t| == 2
    ensures var f := h + b + t;
      f[..4] == h && f[4..] == b + t && f[..|f| - 2] == h + b
  {
  }

  /**
   * A well-formed frame is accepted whatever follows it in the datagram, and its
   * handler gets the body followed by the checksum bytes.
   */
  lemma {:induction false} EncodedAccepted(id: byte, body: seq<byte>, trailing: seq<byte>)
    requires |body| <= 249
    ensures var f := EncodeDatagram(id, body);
      CheckDatagram(f + trailing) == Accepted(f, id, f[4..])
      && f[4..] == body + LeU16(Crc16(f[..|f| - 2]))
  {
    var f := EncodeDatagram(id, body);
    EncodedLayout(id, body);
    var d := f + trailing;
    assert d[..4] == f[..4];
    assert d[..d[2]] == f;
  }

  /** Conversely, every accepted frame is exactly the encoding of its id and body. */
  lemma {:induction false} AcceptedIsEncoded(d: seq<byte>)
    requires CheckDatagram(d).Accepted?
    ensures var v := CheckDatagram(d);
      |v.payload| >= 2 && v.frame == EncodeDatagram(v.id, v.payload[..|v.payload| - 2])
  {
    var v := CheckDatagram(d);
    var f := v.frame;
    assert f[0] == f[..2][0] && f[1] == f[..2][1];
    FrameIsEncoded(f);
    DropTwo(f, v.payload);
  }

  lemma {:induction false} DropTwo(f: seq<byte>, p: seq<byte>)
    requires 6 <= |f| && p == f[4..]
    ensures |p| >= 2 && p[..|p| - 2] == f[4..|f| - 2]
  {
  }

  /** A frame with marker, length and checksum in place is the encoding of its id and body. */
  lemma {:induction false} FrameIsEncoded(f: seq<byte>)
    requires 6 <= |f| && f[0] == 0xEE && f[1] == 0xAA && f[2] as int == |f| && FcsOk(f)
    ensures f == EncodeDatagram(f[3], f[4..|f| - 2])
  {
    ByteBound(f[2]);
    var body := f[4..|f| - 2];
    HeaderOfFrame(f);
    FcsOkIsAppended(f);
    assert EncodeDatagram(f[3], body) == f[..|f| - 2] + LeU16(Crc16(f[..|f| - 2]));
  }

  lemma {:induction false} HeaderOfFrame(f: seq<byte>)
    requires 6 <= |f| && f[0] == 0xEE && f[1] == 0xAA && f[2] as int == |f|
    ensures |f| < 0x100
    ensures f[..|f| - 2] == [0xEE, 0xAA, ByteOf(|f[4..|f| - 2]| + 6), f[3]] + f[4..|f| - 2]
  {
    ByteBound(f[2]);
    LengthByteOfFrame(f);
    assert f[..4] == [0xEE, 0xAA, f[2], f[3]];
    assert f[..|f| - 2] == f[..4] + f[4..|f| - 2];
  }

  lemma {:induction false} LengthByteOfFrame(f: seq<byte>)
    requires 6 <= |f| < 0x100 && f[2] as int == |f|
    ensures ByteOf(|f[4..|f| - 2]| + 6) == f[2]
  {
    ByteOfValue(f[2]);
  }

  /**
   * Corrupting any byte of an accepted frame after the length byte (id, payload
   * or checksum) makes the datagram fail the checksum.
   */
  lemma {:induction false} CorruptionDetected(d: seq<byte>, k: nat, x: byte)
    requires CheckDatagram(d).Accepted?
    requires 3 <= k < |CheckDatagram(d).frame| && x != d[k]
    ensures CheckDatagram(d[k := x]) == CrcMismatch
  {
    var f := CheckDatagram(d).frame;
    var e := d[k := x];
    assert e[..e[2]] == f[k := x];
    ByteChangeBreaksFcs(f, k, x);
  }

  // ---------------------------------------------------------------------------
  // Commands of the three frame kinds

  /** `processDeviceInfo`: a first payload byte of 0 or 1 powers the device off. */
  function DeviceCommand(payload: seq<byte>): (r: Option<string>)
    ensures r.Some? <==> |payload| >= 1 && payload[0] <= 1
    ensures r.Some? ==> r.value == "poweroff"
  {
    if |payload| < 1 then None
    else if payload[0] == 0 || payload[0] == 1 then Some("poweroff")
    else None
  }

  /** `processOsdInfo`: 0 stops, 1 starts and 2 restarts the capture service. */
  function OsdCommand(payload: seq<byte>): (r: Option<string>)
    ensures r.Some? <==> |payload| >= 1 && payload[0] <= 2
    ensures |payload| >= 1 && payload[0] == 0 ==> r == Some("systemctl stop ffmedia-capture.service")
    ensures |payload| >= 1 && payload[0] == 1 ==> r == Some("systemctl start ffmedia-capture.service")
    ensures |payload| >= 1 && payload[0] == 2 ==> r == Some("systemctl restart ffmedia-capture.service")
  {
    if |payload| < 1 then None
    else if payload[0] == 0 then Some("systemctl stop ffmedia-capture.service")
    else if payload[0] == 1 then Some("systemctl start ffmedia-capture.service")
    else if payload[0] == 2 then Some("systemctl restart ffmedia-capture.service")
    else None
  }

  /** The three service actions are three different commands. */
  lemma {:induction false} OsdCommandsDistinct(p: seq<byte>, q: seq<byte>)
    requires OsdCommand(p).Some? && OsdCommand(q).Some?
    ensures OsdCommand(p) == OsdCommand(q) <==> p[0] == q[0]
  {
    var stop, start := "systemctl stop ffmedia-capture.service", "systemctl start ffmedia-capture.service";
    var restart := "systemctl restart ffmedia-capture.service";
    assert stop[12] != start[12] && stop[12] != restart[12] && start[12] != restart[12];
  }

  function Pow2(k: nat): (r: nat)
    ensures r >= 1
  {
    if k == 0 then 1 else 2 * Pow2(k - 1)
  }

  lemma {:induction false} Pow2Monotone(j: nat, k: nat)
    requires j <= k
    ensures Pow2(j) <= Pow2(k)
    decreases k
  {
    if j < k {
      Pow2Monotone(j, k - 1);
    }
  }

  lemma {:induction false} Pow2Values()
    ensures Pow2(8) == 0x100 && Pow2(12) == 0x1000 && Pow2(16) == 0x1_0000
    ensures Pow2(24) == 0x100_0000 && Pow2(32) == 0x1_0000_0000
  {
  }

  function ByteValue(b: byte): (v: nat)
    ensures v < 0x100
  {
    b as nat
  }

  /**
   * The mask field as `processIPInfo` loads it: the unsigned 32-bit word stored in
   * `p[i..i + 4]`, read on a little-endian host.
   */
  function MaskWord(p: seq<byte>, i: nat): (r: nat)
    requires i + 4 <= |p|
    ensures r < 0x1_0000_0000
  {
    ByteValue(p[i]) + 0x100 * ByteValue(p[i + 1]) + 0x1_0000 * ByteValue(p[i + 2]) + 0x100_0000 * ByteValue(p[i + 3])
  }

  /** The number of set bits of `m` below its lowest clear bit. */
  function TrailingOnes(m: nat): nat
    decreases m
  {
    if m % 2 == 1 then 1 + TrailingOnes(m / 2) else 0
  }

  lemma {:induction false} TrailingOnesOfOdd(r: nat)
    ensures TrailingOnes(2 * r + 1) == 1 + TrailingOnes(r)
  {
    assert (2 * r + 1) % 2 == 1 && (2 * r + 1) / 2 == r;
  }

  lemma {:induction false} TrailingOnesOfEven(r: nat)
    ensures TrailingOnes(2 * r) == 0
  {
    assert (2 * r) % 2 == 0;
  }

  /** A byte of 255 at the bottom of a word adds eight to the count. */
  lemma {:induction false} TrailingOnesOfFullByte(r: nat)
    ensures TrailingOnes(255 + 256 * r) == 8 + TrailingOnes(r)
  {
    TrailingOnesOfOdd(127 + 128 * r);
    TrailingOnesOfOdd(63 + 64 * r);
    TrailingOnesOfOdd(31 + 32 * r);
    TrailingOnesOfOdd(15 + 16 * r);
    TrailingOnesOfOdd(7 + 8 * r);
    TrailingOnesOfOdd(3 + 4 * r);
    TrailingOnesOfOdd(1 + 2 * r);
    TrailingOnesOfOdd(r);
  }

  /** A word of `k` bits has at most `k` trailing set bits. */
  lemma {:induction false} TrailingOnesBound(m: nat, k: nat)
    requires m < Pow2(k)
    ensures TrailingOnes(m) <= k
    decreases k
  {
    if m % 2 == 1 {
      TrailingOnesBound(m / 2, k - 1);
    }
  }

  /** The prefix length taken from any mask field lies between 0 and 32. */
  lemma {:induction false} MaskCidrBound(p: seq<byte>, i: nat)
    requires i + 4 <= |p|
    ensures TrailingOnes(MaskWord(p, i)) <= 32
  {
    Pow2Values();
    TrailingOnesBound(MaskWord(p, i), 32);
  }

  /**
   * The loop of `processIPInfo` that derives the prefix length from the mask word:
   * it counts set bits from bit 0 upwards and stops at the first clear one.
   */
  method CountCidr(mask: nat) returns (cidr: nat)
    requires mask < 0x1_0000_0000
    ensures cidr == TrailingOnes(mask) && cidr <= 32
  {
    Pow2Values();
    cidr := 0;
    var m: nat := mask;
    while m != 0
      invariant cidr <= 32 && m < Pow2(32 - cidr)
      invariant TrailingOnes(mask) == cidr + TrailingOnes(m)
      decreases m
    {
      if m % 2 == 1 {
        cidr := cidr + 1;
      } else {
        break;
      }
      m := m / 2;
    }
  }

  /** The value of a 4-byte field read in network order (most significant byte first). */
  function NetworkWord(b: seq<byte>): (r: nat)
    requires |b| == 4
    ensures r < 0x1_0000_0000
  {
    0x100_0000 * ByteValue(b[0]) + 0x1_0000 * ByteValue(b[1]) + 0x100 * ByteValue(b[2]) + ByteValue(b[3])
  }

  /** The number of leading set bits of the `n`-bit value `v`. */
  function LeadingOnes(v: nat, n: nat): (r: nat)
    requires v < Pow2(n)
    ensures r <= n
    decreases n
  {
    if n == 0 || v < Pow2(n - 1) then 0 else 1 + LeadingOnes(v - Pow2(n - 1), n - 1)
  }

  /** The prefix length a netmask denotes: its leading set bits in network order. */
  function PrefixLength(maskBytes: seq<byte>): (r: nat)
    requires |maskBytes| == 4
    ensures r <= 32
  {
    Pow2Values();
    LeadingOnes(NetworkWord(maskBytes), 32)
  }

  /** The `n`-bit value whose top `p` bits are set and whose other bits are clear. */
  function HighMask(p: nat, n: nat): (r: nat)
    requires p <= n
  {
    Pow2Monotone(n - p, n);
    Pow2(n) - Pow2(n - p)
  }

  lemma {:induction false} LeadingOnesOfHighMask(p: nat, n: nat)
    requires p <= n
    ensures HighMask(p, n) < Pow2(n) && LeadingOnes(HighMask(p, n), n) == p
    decreases n
  {
    if p > 0 {
      Pow2Monotone(n - p, n - 1);
      assert HighMask(p, n) - Pow2(n - 1) == HighMask(p - 1, n - 1);
      LeadingOnesOfHighMask(p - 1, n - 1);
    } else if n > 0 {
      assert HighMask(p, n) == 0;
    }
  }

  /** For every netmask /p (0 <= p <= 32), the prefix length read from it is p. */
  lemma {:induction false} PrefixLengthOfNetmask(maskBytes: seq<byte>, p: nat)
    requires |maskBytes| == 4 && p <= 32 && NetworkWord(maskBytes) == HighMask(p, 32)
    ensures PrefixLength(maskBytes) == p
  {
    LeadingOnesOfHighMask(p, 32);
  }

  /** The mask of `k` whole bytes of 255 followed by zero bytes. */
  function ByteAlignedMask(k: nat): (r: seq<byte>)
    requires k <= 4
    ensures |r| == 4
  {
    if k == 0 then [0, 0, 0, 0]
    else if k == 1 then [0xFF, 0, 0, 0]
    else if k == 2 then [0xFF, 0xFF, 0, 0]
    else if k == 3 then [0xFF, 0xFF, 0xFF, 0]
    else [0xFF, 0xFF, 0xFF, 0xFF]
  }

  /**
   * For the byte-aligned masks (0.0.0.0, 255.0.0.0, 255.255.0.0, 255.255.255.0 and
   * 255.255.255.255) the count of the loop equals the prefix length.
   */
  lemma {:induction false} CidrOfByteAlignedMask(k: nat)
    requires k <= 4
    ensures TrailingOnes(MaskWord(ByteAlignedMask(k), 0)) == 8 * k == PrefixLength(ByteAlignedMask(k))
  {
    LoopCountOfByteAlignedMask(k);
    PrefixOfByteAlignedMask(k);
  }

  lemma {:induction false} PrefixOfByteAlignedMask(k: nat)
    requires k <= 4
    ensures PrefixLength(ByteAlignedMask(k)) == 8 * k
  {
    var m := ByteAlignedMask(k);
    Pow2Values();
    if k == 0 {
      assert NetworkWord(m) == 0 == HighMask(0, 32);
    } else if k == 1 {
      assert NetworkWord(m) == 0xFF00_0000 == HighMask(8, 32);
    } else if k == 2 {
      assert NetworkWord(m) == 0xFFFF_0000 == HighMask(16, 32);
    } else if k == 3 {
      assert NetworkWord(m) == 0xFFFF_FF00 == HighMask(24, 32);
    } else {
      assert NetworkWord(m) == 0xFFFF_FFFF == HighMask(32, 32);
    }
    PrefixLengthOfNetmask(m, 8 * k);
  }

  lemma {:induction false} LoopCountOfByteAlignedMask(k: nat)
    requires k <= 4
    ensures TrailingOnes(MaskWord(ByteAlignedMask(k), 0)) == 8 * k
  {
    var w := MaskWord(ByteAlignedMask(k), 0);
    TrailingOnesOfEven(0);
    if k == 1 {
      assert w == 0xFF;
      TrailingOnesOfFullByte(0);
    } else if k == 2 {
      assert w == 0xFFFF;
      TrailingOnesOfFullByte(0xFF);
      TrailingOnesOfFullByte(0);
    } else if k == 3 {
      assert w == 0xFF_FFFF;
      TrailingOnesOfFullByte(0xFFFF);
      TrailingOnesOfFullByte(0xFF);
      TrailingOnesOfFullByte(0);
    } else if k == 4 {
      assert w == 0xFFFF_FFFF;
      TrailingOnesOfFullByte(0xFF_FFFF);
      TrailingOnesOfFullByte(0xFFFF);
      TrailingOnesOfFullByte(0xFF);
      TrailingOnesOfFullByte(0);
    }
  }

  /**
   * For a mask that is not byte-aligned the loop's count differs from the prefix
   * length: 255.255.240.0 denotes a /20 but yields 16.
   */
  lemma {:induction false} CidrOfUnalignedMask()
    ensures TrailingOnes(MaskWord([0xFF, 0xFF, 0xF0, 0x00], 0)) == 16
    ensures PrefixLength([0xFF, 0xFF, 0xF0, 0x00]) == 20
  {
    LoopCountOfUnalignedMask();
    Pow2Values();
    assert NetworkWord([0xFF, 0xFF, 0xF0, 0x00]) == 0xFFFF_F000 == HighMask(20, 32);
    PrefixLengthOfNetmask([0xFF, 0xFF, 0xF0, 0x00], 20);
  }

  lemma {:induction false} LoopCountOfUnalignedMask()
    ensures TrailingOnes(MaskWord([0xFF, 0xFF, 0xF0, 0x00], 0)) == 16
  {
    assert MaskWord([0xFF, 0xFF, 0xF0, 0x00], 0) == 255 + 256 * (255 + 256 * 0xF0);
    TrailingOnesOfFullByte(0xF0FF);
    TrailingOnesOfFullByte(0xF0);
    TrailingOnesOfEven(0x78);
  }

  /** The command that reconfigures the interface, from the 12-byte address record. */
  function IpConfigCommand(payload: seq<byte>, netDev: string): (r: Option<string>)
    ensures r.Some? <==> |payload| >= 12
  {
    if |payload| < 12 then None
    else
      var cidr := TrailingOnes(MaskWord(payload, 4));
      Some("nmcli c m " + netDev + " ipv4.addresses " + FormatIPv4(payload[0..4]) + "/" + Decimal(cidr)
        + " ipv4.gateway " + FormatIPv4(payload[8..12]))
  }

  /** The command that brings the reconfigured connection up. */
  function ConnectionUpCommand(netDev: string): string
  {
    "nmcli c up " + netDev
  }

  /**
   * The size `processIPInfo` allocates for its command buffer: the format's length,
   * the interface name, the address text, 4 characters for the prefix length and
   * the gateway text.
   */
  function IpCommandBufferSize(payload: seq<byte>, netDev: string): nat
    requires |payload| >= 12
  {
    49 + |netDev| + |FormatIPv4(payload[0..4])| + 4 + |FormatIPv4(payload[8..12])|
  }

  /** Both commands, with their terminating NUL, fit in the buffer allocated for them. */
  lemma {:induction false} IpCommandsFitBuffer(payload: seq<byte>, netDev: string)
    requires |payload| >= 12
    ensures |IpConfigCommand(payload, netDev).value| + 1 <= IpCommandBufferSize(payload, netDev)
    ensures |ConnectionUpCommand(netDev)| + 1 <= IpCommandBufferSize(payload, netDev)
  {
    var cidr := TrailingOnes(MaskWord(payload, 4));
    MaskCidrBound(payload, 4);
    assert cidr < 100;
    assert |Decimal(cidr)| <= 2;
  }

  /**
   * The command names the interface, then an address text and a prefix text, then
   * a gateway text: the address and gateway read back by `inet_pton` as the
   * record's bytes, and the prefix reads back as the count of the mask loop.
   */
  lemma {:induction false} IpConfigCommandAddresses(payload: seq<byte>, netDev: string)
    requires |payload| >= 12
    ensures var a := FormatIPv4(payload[0..4]);
      var d := Decimal(TrailingOnes(MaskWord(payload, 4)));
      var g := FormatIPv4(payload[8..12]);
      IpConfigCommand(payload, netDev)
        == Some("nmcli c m " + netDev + " ipv4.addresses " + a + "/" + d + " ipv4.gateway " + g)
      && ParseIPv4(a) == Some(payload[0..4])
      && ParseIPv4(g) == Some(payload[8..12])
      && DecimalValue(d) == TrailingOnes(MaskWord(payload, 4)) <= 32
  {
    FormatParseRoundTrip(payload[0..4]);
    FormatParseRoundTrip(payload[8..12]);
    DecimalRoundTrip(TrailingOnes(MaskWord(payload, 4)));
    MaskCidrBound(payload, 4);
  }

  /** For a mask of whole bytes of 255, the prefix in the command is the mask's prefix length. */
  lemma {:induction false} IpConfigCommandAlignedPrefix(payload: seq<byte>, netDev: string, k: nat)
    requires |payload| >= 12 && k <= 4 && payload[4..8] == ByteAlignedMask(k)
    ensures IpConfigCommand(payload, netDev)
      == Some("nmcli c m " + netDev + " ipv4.addresses " + FormatIPv4(payload[0..4]) + "/"
              + Decimal(PrefixLength(payload[4..8])) + " ipv4.gateway " + FormatIPv4(payload[8..12]))
    ensures DecimalValue(Decimal(PrefixLength(payload[4..8]))) == 8 * k
  {
    assert MaskWord(payload, 4) == MaskWord(ByteAlignedMask(k), 0);
    CidrOfByteAlignedMask(k);
    DecimalRoundTrip(8 * k);
  }

  /**
   * The commands an accepted frame runs, in order. `firstOk` is whether the
   * address change succeeded; only then is the connection brought up.
   */
  function FrameCommands(id: byte, payload: seq<byte>, netDev: string, firstOk: bool): (r: seq<string>)
    ensures |r| <= 2
    ensures id != FrameIdDevice && id != FrameIdOsd && id != FrameIdIp ==> r == []
    ensures |r| == 2 ==> id == FrameIdIp && firstOk && r[1] == ConnectionUpCommand(netDev)
  {
    if id == FrameIdDevice then
      (match DeviceCommand(payload) case Some(c) => [c] case None => [])
    else if id == FrameIdOsd then
      (match OsdCommand(payload) case Some(c) => [c] case None => [])
    else if id == FrameIdIp then
      (match IpConfigCommand(payload, netDev)
       case Some(c) => [c] + (if firstOk then [ConnectionUpCommand(netDev)] else [])
       case None => [])
    else []
  }

  // ---------------------------------------------------------------------------
  // Heartbeat reply

  /** The fields of the 18-byte reply (`NET_RESPOND_MSG`). */
  datatype NetRespondMsg = NetRespondMsg(uptime: bv32, gpsPackets: bv32, devicePackets: bv32)

  /** The reply as sent: `EE BB 12 01`, three little-endian counters, the checksum of the first 16 bytes. */
  function EncodeNetRespond(m: NetRespondMsg): (r: seq<byte>)
    ensures |r| == 18
  {
    var body := [0xEE, 0xBB, 18, 1] + LeU32(m.uptime) + LeU32(m.gpsPackets) + LeU32(m.devicePackets);
    body + LeU16(Crc16(body))
  }

  /** Reading a reply on the controller's side; None unless marker, length, id and checksum hold. */
  function DecodeNetRespond(r: seq<byte>): Option<NetRespondMsg>
  {
    if |r| == 18 && r[..4] == [0xEE, 0xBB, 18, 1] && U16At(r, 16) == Crc16(r[..16]) then
      Some(NetRespondMsg(U32At(r, 4), U32At(r, 8), U32At(r, 12)))
    else None
  }

  lemma {:induction false} NetRespondRoundTrip(m: NetRespondMsg)
    ensures DecodeNetRespond(EncodeNetRespond(m)) == Some(m)
  {
    var a, b, c := LeU32(m.uptime), LeU32(m.gpsPackets), LeU32(m.devicePackets);
    var head: seq<byte> := [0xEE, 0xBB, 18, 1];
    var body := head + a + b + c;
    var r := EncodeNetRespond(m);
    assert r[..16] == body;
    U16AtSplice(body, Crc16(body), []);
    assert r == body + LeU16(Crc16(body)) + [];
    U32AtSplice(head, m.uptime, b + c + LeU16(Crc16(body)));
    assert r == head + a + (b + c + LeU16(Crc16(body)));
    U32AtSplice(head + a, m.gpsPackets, c + LeU16(Crc16(body)));
    assert r == (head + a) + b + (c + LeU16(Crc16(body)));
    U32AtSplice(head + a + b, m.devicePackets, LeU16(Crc16(body)));
  }

  /** The reply carries a different marker, so a handler never takes its own reply for a command. */
  lemma {:induction false} NetRespondIsNotACommand(m: NetRespondMsg)
    ensures CheckDatagram(EncodeNetRespond(m)) == BadMarker
  {
  }
}
