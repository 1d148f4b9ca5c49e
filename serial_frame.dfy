/**
 * What the two serial handlers read and write on the line, apart from the line
 * itself: one frame attempt of the resynchronising reader, the 22-byte heartbeat,
 * the GPS record a GPS frame carries, the text logged for a position, and the
 * clock correction a GPS time calls for.
 *
 * A serial frame is `FF BB L id data crc`: the two marker bytes, the length L of
 * the whole frame, an id, and the CRC-16/X-25 of the first L - 2 bytes stored
 * little-endian in the last two.
 */
module SerialFrame {
  import opened Wire
  import opened Crc16X25
  import opened SerialLink
  import Ipv4Text
  import UdpFrame

  /** The size of the receive buffer of both serial handlers. */
  const SerialPacketSize: nat := 256
  const SerialIdGps: byte := 1
  const SerialIdDevice: byte := 2

  /** One byte read with `readn(buf + pos, 1)`, or None when it returned anything but 1. */
  datatype ByteResult = ByteResult(value: Option<byte>, rest: seq<ReadEvent>)

  function NextByte(evs: seq<ReadEvent>): (r: ByteResult)
    ensures |r.rest| <= |evs|
  {
    ReadSpecBounds(evs, 1);
    var r := ReadSpec(evs, 1);
    if r.count == 1 then ByteResult(Some(r.data[0]), r.rest) else ByteResult(None, r.rest)
  }

  /** How one pass of the reader's loop ends. */
  datatype Attempt =
    | NoStart                  // no byte, or a byte other than 0xFF
    | NoSecondMarker           // no byte after 0xFF, or a byte other than 0xBB
    | NoLength                 // no length byte
    | BadLength(length: byte)  // L - 3 <= 0, or L larger than the buffer
    | ShortBody                // fewer than L - 3 further bytes arrived
    | CrcMismatch              // the stored checksum differs from the computed one
    | Frame(frame: seq<byte>)  // a frame with a valid checksum: all L bytes

  datatype AttemptResult = AttemptResult(outcome: Attempt, rest: seq<ReadEvent>)

  /** The first three bytes of an attempt: both markers and the length, or why the attempt ended. */
  datatype HeaderResult = HeaderFailed(why: Attempt, rest: seq<ReadEvent>) | Header(length: byte, rest: seq<ReadEvent>)

  function ReadHeader(evs: seq<ReadEvent>): HeaderResult
  {
    var b1 := NextByte(evs);
    if b1.value != Some(0xFF) then HeaderFailed(NoStart, b1.rest)
    else
      var b2 := NextByte(b1.rest);
      if b2.value != Some(0xBB) then HeaderFailed(NoSecondMarker, b2.rest)
      else
        var b3 := NextByte(b2.rest);
        if b3.value.None? then HeaderFailed(NoLength, b3.rest)
        else Header(b3.value.value, b3.rest)
  }

  /** The rest of an attempt once the length byte `len` is known: length check, body, checksum. */
  function ReadBody(len: byte, evs: seq<ReadEvent>): AttemptResult
  {
    if len as int > SerialPacketSize || len as int - 3 <= 0 then AttemptResult(BadLength(len), evs)
    else
      ReadSpecBounds(evs, len as int - 3);
      var body := ReadSpec(evs, len as int - 3);
      if body.count != len as int - 3 then AttemptResult(ShortBody, body.rest)
      else
        var frame := [0xFF, 0xBB, len] + body.data;
        if !FcsOk(frame) then AttemptResult(CrcMismatch, body.rest)
        else AttemptResult(Frame(frame), body.rest)
  }

  /** One pass of the reader's loop against the read outcomes `evs`. */
  function FrameAttempt(evs: seq<ReadEvent>): AttemptResult
  {
    match ReadHeader(evs)
    case HeaderFailed(why, rest) => AttemptResult(why, rest)
    case Header(len, rest) => ReadBody(len, rest)
  }

  /** The frame a sender builds for `id` and `body`. */
  function EncodeSerialFrame(id: byte, body: seq<byte>): (r: seq<byte>)
    requires |body| <= 249
    ensures |r| == |body| + 6
  {
    var head := [0xFF, 0xBB, ByteOf(|body| + 6), id] + body;
    head + LeU16(Crc16(head))
  }

  lemma {:induction false} NextByteConsumes(evs: seq<ReadEvent>)
    ensures var b := NextByte(evs);
      b.value.Some? ==> Stream(evs) == [b.value.value] + Stream(b.rest)
  {
    ReadSpecBounds(evs, 1);
    ReadSpecConsumes(evs, 1);
  }

  lemma {:induction false} ReadHeaderConsumes(evs: seq<ReadEvent>)
    ensures var h := ReadHeader(evs);
      h.Header? ==> Stream(evs) == [0xFF, 0xBB, h.length] + Stream(h.rest)
  {
    var b1 := NextByte(evs);
    var b2 := NextByte(b1.rest);
    var b3 := NextByte(b2.rest);
    NextByteConsumes(evs);
    NextByteConsumes(b1.rest);
    NextByteConsumes(b2.rest);
  }

  lemma {:induction false} ReadBodyAccepts(len: byte, evs: seq<ReadEvent>)
    ensures var a := ReadBody(len, evs);
      a.outcome.Frame? ==>
        var f := a.outcome.frame;
        4 <= |f| <= 255 && f[..3] == [0xFF, 0xBB, len] && f[2] as int == |f| && FcsOk(f)
        && Stream(evs) == f[3..] + Stream(a.rest)
  {
    var a := ReadBody(len, evs);
    if a.outcome.Frame? {
      ReadSpecBounds(evs, len as int - 3);
      ReadSpecConsumes(evs, len as int - 3);
      ByteBound(len);
    }
  }

  /** An attempt that gets past the header is the rest of the attempt after the length byte. */
  lemma {:induction false} FrameAttemptOfHeader(evs: seq<ReadEvent>)
    ensures var h := ReadHeader(evs);
      FrameAttempt(evs) == if h.Header? then ReadBody(h.length, h.rest) else AttemptResult(h.why, h.rest)
  {
  }

  /**
   * An accepted frame starts with the two markers, its third byte is its length
   * (4 to 255), and its checksum holds.
   */
  lemma {:induction false} FrameAttemptAccepts(evs: seq<ReadEvent>)
    ensures var a := FrameAttempt(evs);
      a.outcome.Frame? ==>
        var f := a.outcome.frame;
        4 <= |f| <= 255 && f[0] == 0xFF && f[1] == 0xBB && f[2] as int == |f| && FcsOk(f)
  {
    var h := ReadHeader(evs);
    FrameAttemptOfHeader(evs);
    if h.Header? {
      ReadBodyAccepts(h.length, h.rest);
      var a := ReadBody(h.length, h.rest);
      if a.outcome.Frame? {
        var f := a.outcome.frame;
        assert f[0] == f[..3][0] && f[1] == f[..3][1];
      }
    }
  }

  /** An accepted frame is exactly the next bytes of the line: none skipped, none left behind. */
  lemma {:induction false} FrameAttemptConsumes(evs: seq<ReadEvent>)
    ensures var a := FrameAttempt(evs);
      a.outcome.Frame? ==> Stream(evs) == a.outcome.frame + Stream(a.rest)
  {
    var h := ReadHeader(evs);
    FrameAttemptOfHeader(evs);
    if h.Header? {
      ReadHeaderConsumes(evs);
      ReadBodyAccepts(h.length, h.rest);
      var a := ReadBody(h.length, h.rest);
      if a.outcome.Frame? {
        var f := a.outcome.frame;
        assert f == f[..3] + f[3..];
        JoinStreams(Stream(evs), [0xFF, 0xBB, h.length], Stream(h.rest), f[3..], Stream(a.rest), f);
      }
    }
  }

  lemma {:induction false} JoinStreams(all: seq<byte>, head: seq<byte>, mid: seq<byte>, body: seq<byte>, tail: seq<byte>, f: seq<byte>)
    requires all == head + mid && mid == body + tail && f == head + body
    ensures all == f + tail
  {
  }

  lemma {:induction false} SplitAfterHeader(e: seq<byte>)
    requires |e| >= 3
    ensures e == [e[0], e[1], e[2]] + e[3..]
  {
  }

  /** The length byte alone rules out frames shorter than four bytes. */
  lemma {:induction false} ShortLengthRejected(evs: seq<ReadEvent>)
    ensures var h := ReadHeader(evs);
      h.Header? && h.length <= 3 ==> FrameAttempt(evs) == AttemptResult(BadLength(h.length), h.rest)
  {
  }

  lemma {:induction false} NextByteOfWaiting(b: seq<byte>, more: seq<ReadEvent>)
    requires |b| >= 2
    ensures NextByte([Waiting(b)] + more) == ByteResult(Some(b[0]), [Waiting(b[1..])] + more)
  {
    ReadSpecOfWaiting(b, more, 1);
  }

  lemma {:induction false} ReadHeaderOfWaiting(e: seq<byte>, more: seq<ReadEvent>)
    requires |e| >= 4 && e[0] == 0xFF && e[1] == 0xBB
    ensures ReadHeader([Waiting(e)] + more) == Header(e[2], [Waiting(e[3..])] + more)
  {
    NextByteOfWaiting(e, more);
    NextByteOfWaiting(e[1..], more);
    NextByteOfWaiting(e[2..], more);
    assert e[1..][1..] == e[2..] && e[2..][1..] == e[3..];
  }

  /** A frame arriving whole is accepted as exactly the frame sent, and nothing after it is read. */
  lemma {:induction false} EncodedFrameAccepted(id: byte, body: seq<byte>, more: seq<ReadEvent>)
    requires |body| <= 249
    ensures FrameAttempt([Waiting(EncodeSerialFrame(id, body))] + more)
      == AttemptResult(Frame(EncodeSerialFrame(id, body)), more)
  {
    var e := EncodeSerialFrame(id, body);
    EncodedSerialFrame(id, body);
    ReadHeaderOfWaiting(e, more);
    ReadBodyOfWhole(e, more);
  }

  /** An encoded serial frame starts with FF BB, carries its own length and ends with its checksum. */
  lemma {:induction false} EncodedSerialFrame(id: byte, body: seq<byte>)
    requires |body| <= 249
    ensures var e := EncodeSerialFrame(id, body);
      4 <= |e| <= SerialPacketSize && e[0] == 0xFF && e[1] == 0xBB && e[2] as int == |e| && FcsOk(e)
  {
    var e := EncodeSerialFrame(id, body);
    var head := [0xFF, 0xBB, ByteOf(|body| + 6), id] + body;
    FcsOfAppended(head);
    ByteOfValue(ByteOf(|body| + 6));
    assert e[..|head|] == head;
  }

  /** A whole frame waiting after its header is read as that frame. */
  lemma {:induction false} ReadBodyOfWhole(f: seq<byte>, more: seq<ReadEvent>)
    requires 4 <= |f| <= SerialPacketSize && f[2] as int == |f|
    requires f[0] == 0xFF && f[1] == 0xBB && FcsOk(f)
    ensures ReadBody(f[2], [Waiting(f[3..])] + more) == AttemptResult(Frame(f), more)
  {
    var b, n := f[3..], |f| - 3;
    ReadSpecOfWaiting(b, more, n);
    assert b[..n] == b;
    SplitAfterHeader(f);
    assert [0xFF, 0xBB, f[2]] + b == f;
  }

  /**
   * The reader never looks at a mismatching byte again: a frame that follows a stray
   * 0xFF is lost, because its own 0xFF is taken as the second marker.
   */
  lemma {:induction false} StrayMarkerLosesFrame(id: byte, body: seq<byte>, more: seq<ReadEvent>)
    requires |body| <= 249
    ensures var e := EncodeSerialFrame(id, body);
      var first := FrameAttempt([Waiting([0xFF] + e)] + more);
      first == AttemptResult(NoSecondMarker, [Waiting(e[1..])] + more)
      && FrameAttempt(first.rest) == AttemptResult(NoStart, [Waiting(e[2..])] + more)
  {
    var e := EncodeSerialFrame(id, body);
    NextByteOfWaiting([0xFF] + e, more);
    assert ([0xFF] + e)[1..] == e;
    NextByteOfWaiting(e, more);
    NextByteOfWaiting(e[1..], more);
    assert e[1..][1..] == e[2..];
  }

  // ---------------------------------------------------------------------------
  // Heartbeat

  /** The fields of the 16-byte `RespondMsg`. */
  datatype TtyRespondMsg = TtyRespondMsg(second: bv32, gpsPackets: bv32, devicePackets: bv32, ipv4: bv32)

  /** The address reported: all ones when no network interface is configured. */
  function HeartbeatAddress(netDev: string, localIp: bv32): (a: bv32)
    ensures netDev == "" ==> a == 0xFFFF_FFFF
    ensures netDev != "" ==> a == localIp
  {
    if netDev == "" then 0xFFFF_FFFF else localIp
  }

  /** The heartbeat as written: `EE AA 16 06`, four little-endian fields, the checksum of the first 20 bytes. */
  function EncodeTtyRespond(m: TtyRespondMsg): (r: seq<byte>)
    ensures |r| == 22
  {
    var head := [0xEE, 0xAA, 22, 6] + LeU32(m.second) + LeU32(m.gpsPackets) + LeU32(m.devicePackets) + LeU32(m.ipv4);
    head + LeU16(Crc16(head))
  }

  /** Reading a heartbeat on the receiving side; None unless marker, length, id and checksum hold. */
  function DecodeTtyRespond(r: seq<byte>): Option<TtyRespondMsg>
  {
    if |r| == 22 && r[..4] == [0xEE, 0xAA, 22, 6] && U16At(r, 20) == Crc16(r[..20]) then
      Some(TtyRespondMsg(U32At(r, 4), U32At(r, 8), U32At(r, 12), U32At(r, 16)))
    else None
  }

  lemma {:induction false} TtyRespondRoundTrip(m: TtyRespondMsg)
    ensures DecodeTtyRespond(EncodeTtyRespond(m)) == Some(m)
  {
    TtyRespondChecked(m);
    TtyRespondLeading(m);
    TtyRespondTrailing(m);
  }

  /** The heartbeat's marker, length and id, and its checksum over the first 20 bytes. */
  lemma {:induction false} TtyRespondChecked(m: TtyRespondMsg)
    ensures var r := EncodeTtyRespond(m);
      r[..4] == [0xEE, 0xAA, 22, 6] && U16At(r, 20) == Crc16(r[..20])
  {
    var head: seq<byte> := [0xEE, 0xAA, 22, 6];
    var body := head + LeU32(m.second) + LeU32(m.gpsPackets) + LeU32(m.devicePackets) + LeU32(m.ipv4);
    var r := EncodeTtyRespond(m);
    assert r[..20] == body;
    assert r[..4] == head;
    U16AtSplice(body, Crc16(body), []);
    assert r == body + LeU16(Crc16(body)) + [];
  }

  /** The seconds and the GPS count read back from the heartbeat. */
  lemma {:induction false} TtyRespondLeading(m: TtyRespondMsg)
    ensures var r := EncodeTtyRespond(m);
      U32At(r, 4) == m.second && U32At(r, 8) == m.gpsPackets
  {
    var a, b, c, d := LeU32(m.second), LeU32(m.gpsPackets), LeU32(m.devicePackets), LeU32(m.ipv4);
    var head: seq<byte> := [0xEE, 0xAA, 22, 6];
    var crc := LeU16(Crc16(head + a + b + c + d));
    var r := EncodeTtyRespond(m);
    U32AtSplice(head, m.second, b + c + d + crc);
    assert r == head + a + (b + c + d + crc);
    U32AtSplice(head + a, m.gpsPackets, c + d + crc);
    assert r == (head + a) + b + (c + d + crc);
  }

  /** The device count and the address read back from the heartbeat. */
  lemma {:induction false} TtyRespondTrailing(m: TtyRespondMsg)
    ensures var r := EncodeTtyRespond(m);
      U32At(r, 12) == m.devicePackets && U32At(r, 16) == m.ipv4
  {
    var a, b, c, d := LeU32(m.second), LeU32(m.gpsPackets), LeU32(m.devicePackets), LeU32(m.ipv4);
    var head: seq<byte> := [0xEE, 0xAA, 22, 6];
    var crc := LeU16(Crc16(head + a + b + c + d));
    var r := EncodeTtyRespond(m);
    U32AtSplice(head + a + b, m.devicePackets, d + crc);
    assert r == (head + a + b) + c + (d + crc);
    U32AtSplice(head + a + b + c, m.ipv4, crc);
  }

  /** The serial heartbeat is a well-formed network frame with id 6 carrying the 16-byte record. */
  lemma {:induction false} TtyRespondIsDatagram(m: TtyRespondMsg)
    ensures var r := EncodeTtyRespond(m);
      UdpFrame.CheckDatagram(r) == UdpFrame.Accepted(r, 6, r[4..])
  {
    var fields := LeU32(m.second) + LeU32(m.gpsPackets) + LeU32(m.devicePackets) + LeU32(m.ipv4);
    var r := EncodeTtyRespond(m);
    assert ByteOf(16 + 6) == 22;
    assert [0xEE, 0xAA, 22, 6] + fields == [0xEE, 0xAA, 22, 6] + LeU32(m.second) + LeU32(m.gpsPackets) + LeU32(m.devicePackets) + LeU32(m.ipv4);
    assert UdpFrame.EncodeDatagram(6, fields) == r;
    UdpFrame.EncodedAccepted(6, fields, []);
    assert r + [] == r;
  }

  // ---------------------------------------------------------------------------
  // GPS record

  /** The packed 21-byte `GpsInfo`: degrees, fraction in 1/10000, hemisphere letter, and a UTC date and time. */
  datatype GpsInfo = GpsInfo(
    latitude: bv16, latitudeFraction: bv32, latitudeHemisphere: byte,
    longitude: bv16, longitudeFraction: bv32, longitudeHemisphere: byte,
    year: bv16, month: byte, day: byte, hour: byte, minute: byte, second: byte)

  const GpsInfoSize: nat := 21

  /** `memcpy` of the record out of a GPS frame's payload; None when the payload is shorter than the record. */
  function DecodeGpsInfo(p: seq<byte>): (r: Option<GpsInfo>)
    ensures r.Some? <==> |p| >= GpsInfoSize
  {
    if |p| < GpsInfoSize then None
    else Some(GpsInfo(U16At(p, 0), U32At(p, 2), p[6], U16At(p, 7), U32At(p, 9), p[13],
                      U16At(p, 14), p[16], p[17], p[18], p[19], p[20]))
  }

  /** The record as a sender packs it. */
  function EncodeGpsInfo(g: GpsInfo): (r: seq<byte>)
    ensures |r| == GpsInfoSize
  {
    var lat, latd, lon, lond, yr := LeU16(g.latitude), LeU32(g.latitudeFraction), LeU16(g.longitude), LeU32(g.longitudeFraction), LeU16(g.year);
    [lat[0], lat[1], latd[0], latd[1], latd[2], latd[3], g.latitudeHemisphere,
     lon[0], lon[1], lond[0], lond[1], lond[2], lond[3], g.longitudeHemisphere,
     yr[0], yr[1], g.month, g.day, g.hour, g.minute, g.second]
  }

  /** Whatever follows the record in the payload (the frame's checksum, at least), the record is read back. */
  lemma {:induction false} GpsInfoRoundTrip(g: GpsInfo, tail: seq<byte>)
    ensures DecodeGpsInfo(EncodeGpsInfo(g) + tail) == Some(g)
  {
    var p := EncodeGpsInfo(g) + tail;
    assert p[..21] == EncodeGpsInfo(g);
    GpsLatitudeOf(p, g);
    GpsLongitudeOf(p, g);
    GpsTimeOf(p, g);
  }

  lemma {:induction false} GpsLatitudeOf(p: seq<byte>, g: GpsInfo)
    requires |p| >= 21 && p[..21] == EncodeGpsInfo(g)
    ensures U16At(p, 0) == g.latitude && U32At(p, 2) == g.latitudeFraction && p[6] == g.latitudeHemisphere
  {
    assert p[0] == p[..21][0] && p[1] == p[..21][1] && p[2] == p[..21][2] && p[3] == p[..21][3];
    assert p[4] == p[..21][4] && p[5] == p[..21][5] && p[6] == p[..21][6];
    U16AtOf(p, 0, g.latitude);
    U32AtOf(p, 2, g.latitudeFraction);
  }

  lemma {:induction false} GpsLongitudeOf(p: seq<byte>, g: GpsInfo)
    requires |p| >= 21 && p[..21] == EncodeGpsInfo(g)
    ensures U16At(p, 7) == g.longitude && U32At(p, 9) == g.longitudeFraction && p[13] == g.longitudeHemisphere
  {
    assert p[7] == p[..21][7] && p[8] == p[..21][8] && p[9] == p[..21][9] && p[10] == p[..21][10];
    assert p[11] == p[..21][11] && p[12] == p[..21][12] && p[13] == p[..21][13];
    U16AtOf(p, 7, g.longitude);
    U32AtOf(p, 9, g.longitudeFraction);
  }

  lemma {:induction false} GpsTimeOf(p: seq<byte>, g: GpsInfo)
    requires |p| >= 21 && p[..21] == EncodeGpsInfo(g)
    ensures U16At(p, 14) == g.year && p[16] == g.month && p[17] == g.day
    ensures p[18] == g.hour && p[19] == g.minute && p[20] == g.second
  {
    assert p[14] == p[..21][14] && p[15] == p[..21][15] && p[16] == p[..21][16] && p[17] == p[..21][17];
    assert p[18] == p[..21][18] && p[19] == p[..21][19] && p[20] == p[..21][20];
    U16AtOf(p, 14, g.year);
  }

  lemma {:induction false} U16AtOf(s: seq<byte>, i: nat, x: bv16)
    requires i + 2 <= |s| && s[i] == LeU16(x)[0] && s[i + 1] == LeU16(x)[1]
    ensures U16At(s, i) == x
  {
    assert U16At(LeU16(x), 0) == x;
  }

  lemma {:induction false} U32AtOf(s: seq<byte>, i: nat, x: bv32)
    requires i + 4 <= |s| && s[i] == LeU32(x)[0] && s[i + 1] == LeU32(x)[1]
    requires s[i + 2] == LeU32(x)[2] && s[i + 3] == LeU32(x)[3]
    ensures U32At(s, i) == x
  {
    assert U32At(LeU32(x), 0) == x;
  }

  /** `%0.4f` of `k / 10000.0`: the quotient, a point, and the remainder in four digits. */
  function Fixed4(k: nat): (r: string)
    ensures |r| >= 6 && r[|r| - 5] == '.'
  {
    Ipv4Text.Decimal(k / 10000) + "." + Pad4(k % 10000)
  }

  /** `d` in exactly four decimal digits, with leading zeros. */
  function Pad4(d: nat): (r: string)
    requires d < 10000
    ensures |r| == 4 && forall i :: 0 <= i < 4 ==> Ipv4Text.IsDigit(r[i])
  {
    [Digit(d / 10 / 10 / 10), Digit(d / 10 / 10 % 10), Digit(d / 10 % 10), Digit(d % 10)]
  }

  function Digit(d: nat): (c: char)
    requires d < 10
    ensures Ipv4Text.IsDigit(c)
  {
    (48 + d) as char
  }

  /** Four digits written by Pad4 read back as the number written. */
  lemma {:induction false} Pad4Value(d: nat)
    requires d < 10000
    ensures Ipv4Text.DecimalValue(Pad4(d)) == d
  {
    var s := Pad4(d);
    var q1 := d / 10;
    var q2 := q1 / 10;
    var a, b, c, e := q2 / 10, q2 % 10, q1 % 10, d % 10;
    assert d == q1 * 10 + e && q1 == q2 * 10 + c && q2 == a * 10 + b;
    assert Ipv4Text.DigitValue(s[0]) == a && Ipv4Text.DigitValue(s[1]) == b;
    assert Ipv4Text.DigitValue(s[2]) == c && Ipv4Text.DigitValue(s[3]) == e;
    assert s[..3][..2][..1] == [s[0]];
    assert Ipv4Text.DecimalValue([s[0]]) == a;
    assert s[..3][..2] == [s[0], s[1]];
    assert Ipv4Text.DecimalValue(s[..3][..2]) == a * 10 + b;
    assert Ipv4Text.DecimalValue(s[..3]) == (a * 10 + b) * 10 + c;
  }

  /**
   * The position text `"%c %d %0.4f : %c %d %0.4f"`. The fraction is an integer
   * count of 1/10000; its quotient by 10000.0 in double precision lies within
   * 2^-20 of the exact four-place decimal, so `%0.4f` prints that decimal.
   */
  function PositionText(g: GpsInfo): string
  {
    [g.latitudeHemisphere as char] + " " + Ipv4Text.Decimal(g.latitude as nat) + " "
    + Fixed4(g.latitudeFraction as nat) + " : "
    + [g.longitudeHemisphere as char] + " " + Ipv4Text.Decimal(g.longitude as nat) + " "
    + Fixed4(g.longitudeFraction as nat)
  }

  /** Reading the digits of `%0.4f`, point removed, gives back the count of 1/10000. */
  lemma {:induction false} Fixed4Value(k: nat)
    ensures var t := Fixed4(k);
      Ipv4Text.DecimalValue(t[..|t| - 5] + t[|t| - 4..]) == k
  {
    var t := Fixed4(k);
    var hi, lo := k / 10000, k % 10000;
    var q, p := Ipv4Text.Decimal(hi), Pad4(lo);
    assert t[..|t| - 5] == q;
    assert t[|t| - 4..] == p;
    Ipv4Text.DecimalRoundTrip(hi);
    Pad4Value(lo);
    JoinFour(q, p);
    SplitAtTenThousand(k);
  }

  /** Four digits appended to `q` read as the value of `q` times 10000 plus theirs. */
  lemma {:induction false} JoinFour(q: string, p: string)
    requires forall i :: 0 <= i < |q| ==> Ipv4Text.IsDigit(q[i])
    requires |p| == 4 && forall i :: 0 <= i < |p| ==> Ipv4Text.IsDigit(p[i])
    ensures forall i :: 0 <= i < |q + p| ==> Ipv4Text.IsDigit((q + p)[i])
    ensures Ipv4Text.DecimalValue(q + p) == Ipv4Text.DecimalValue(q) * 10000 + Ipv4Text.DecimalValue(p)
  {
    DecimalValueAppend(q, p);
    assert Pow10(|p|) == 10000;
  }

  lemma {:induction false} SplitAtTenThousand(k: nat)
    ensures (k / 10000) * 10000 + k % 10000 == k
  {
  }

  function Pow10(k: nat): nat
  {
    if k == 0 then 1 else 10 * Pow10(k - 1)
  }

  /** Appending digits `p` scales the value read by a power of ten and adds the value of `p`. */
  lemma {:induction false} DecimalValueAppend(a: string, p: string)
    requires forall i :: 0 <= i < |a| ==> Ipv4Text.IsDigit(a[i])
    requires forall i :: 0 <= i < |p| ==> Ipv4Text.IsDigit(p[i])
    ensures forall i :: 0 <= i < |a + p| ==> Ipv4Text.IsDigit((a + p)[i])
    ensures Ipv4Text.DecimalValue(a + p) == Ipv4Text.DecimalValue(a) * Pow10(|p|) + Ipv4Text.DecimalValue(p)
    decreases |p|
  {
    if p == [] {
      assert a + p == a;
    } else {
      var s := a + p;
      var q := p[..|p| - 1];
      assert s[..|s| - 1] == a + q;
      DecimalValueAppend(a, q);
      var va, vq, d := Ipv4Text.DecimalValue(a), Ipv4Text.DecimalValue(q), Ipv4Text.DigitValue(p[|p| - 1]);
      assert Ipv4Text.DecimalValue(s) == (va * Pow10(|q|) + vq) * 10 + d;
      assert Ipv4Text.DecimalValue(p) == vq * 10 + d;
      ShiftDigit(va, Pow10(|q|), vq, d);
    }
  }

  lemma {:induction false} ShiftDigit(va: int, w: int, vq: int, d: int)
    ensures (va * w + vq) * 10 + d == va * (10 * w) + (vq * 10 + d)
  {
  }

  // ---------------------------------------------------------------------------
  // Clock correction

  /** What the handler does to the system clock for one GPS record. */
  datatype ClockAction = NoAction | Gradual | Hard

  /** China Standard Time, UTC+8, in seconds: the GPS time is UTC, the device keeps local time. */
  const LocalOffset: int := 28800

  function Abs(x: int): nat
  {
    if x < 0 then -x else x
  }

  /**
   * The classification: no correction when disabled (`timeDiff < 0`) or when the
   * clocks differ by less than half the tolerance; a gradual adjustment up to the
   * tolerance; a hard set beyond it. `gpsTime` is what `mktime` makes of the record.
   */
  function ClockDecision(timeDiff: int, now: int, gpsTime: int): ClockAction
  {
    if timeDiff < 0 then NoAction
    else
      var d := Abs(now - (gpsTime + LocalOffset));
      if d >= timeDiff / 2 then (if d > timeDiff then Hard else Gradual) else NoAction
  }

  /** The three bands, each in both directions. */
  lemma {:induction false} ClockDecisionBands(timeDiff: int, now: int, gpsTime: int)
    requires timeDiff >= 0
    ensures var d := Abs(now - (gpsTime + LocalOffset)); var a := ClockDecision(timeDiff, now, gpsTime);
      (a == NoAction <==> d < timeDiff / 2)
      && (a == Gradual <==> timeDiff / 2 <= d <= timeDiff)
      && (a == Hard <==> d > timeDiff)
  {
  }

  /** A larger discrepancy never calls for a milder correction. */
  lemma {:induction false} ClockDecisionMonotone(timeDiff: int, now1: int, now2: int, gpsTime: int)
    requires Abs(now1 - (gpsTime + LocalOffset)) <= Abs(now2 - (gpsTime + LocalOffset))
    ensures ClockDecision(timeDiff, now1, gpsTime) == Hard ==> ClockDecision(timeDiff, now2, gpsTime) == Hard
    ensures ClockDecision(timeDiff, now1, gpsTime) != NoAction ==> ClockDecision(timeDiff, now2, gpsTime) != NoAction
  {
  }

  /** The value handed to `adjtime` as written: the absolute GPS time. */
  function AdjtimeArgumentAsWritten(now: int, gpsTime: int): int
  {
    gpsTime + LocalOffset
  }

  /** The value `adjtime` expects: the offset still to be slewed, GPS time minus system time. */
  function AdjtimeArgument(now: int, gpsTime: int): (delta: int)
    ensures now + delta == gpsTime + LocalOffset
  {
    gpsTime + LocalOffset - now
  }

  /** Whenever a gradual adjustment is chosen, the corrected offset is within the tolerance. */
  lemma {:induction false} GradualAdjustmentWithinTolerance(timeDiff: int, now: int, gpsTime: int)
    requires ClockDecision(timeDiff, now, gpsTime) == Gradual
    ensures Abs(AdjtimeArgument(now, gpsTime)) <= timeDiff
  {
  }

  /**
   * As written, a gradual adjustment six seconds off asks the kernel to slew the clock
   * by the whole time since the epoch (about 54 years in late 2023).
   */
  lemma {:induction false} AdjtimeAsWrittenExample()
    ensures ClockDecision(10, 1_700_000_000, 1_700_000_006 - LocalOffset) == Gradual
    ensures AdjtimeArgumentAsWritten(1_700_000_000, 1_700_000_006 - LocalOffset) == 1_700_000_006
    ensures AdjtimeArgument(1_700_000_000, 1_700_000_006 - LocalOffset) == 6
  {
  }
}
