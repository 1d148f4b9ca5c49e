/**
 * One pass after another of the serial reader loop that `TtyHandler::process` and
 * `ModuleTtyProcess::ttyProcess` both run: read a frame attempt into the 256-byte
 * buffer, and for a frame with a valid checksum dispatch it by id, count it, answer
 * with a heartbeat and log it.
 *
 * The line is a `SerialLine` (read and write outcomes supplied up front). What the
 * clock, `mktime`, the network interface and the file system report during a pass
 * is a `Moment`; calls that change the system clock are recorded (a hard set with
 * its time, a gradual one with the offset it is meant to apply), and files are
 * their text.
 */
module SerialSessions {
  import opened Wire
  import opened Crc16X25
  import opened HexDump
  import opened DataLog
  import opened Counters
  import opened SerialLink
  import opened SerialFrame
  import opened LineFile
  import NetHandling

  /** What the outside world reports during one pass of the loop. */
  datatype Moment = Moment(
    uptime: bv32,       // what `getUptime` returns
    now: int,           // the seconds of `gettimeofday` in the GPS handler
    heartbeatNow: int,  // the seconds of `gettimeofday` when the heartbeat is built
    gpsTime: int,       // what `mktime` makes of a GPS record's date and time
    localIp: bv32,      // what `getLocalIPAddressUint` returns for the interface
    stamp: string,      // the time-stamped name for a new data file
    logOk: bool,        // whether appending the log line succeeds
    gpsWriteOk: bool)   // whether the GPS file can be opened for writing

  /**
   * The handler's settings a pass reads. `clockStart` is the construction time of a
   * `ModuleTtyProcess`, whose heartbeat counts seconds from it; a `TtyHandler` has
   * none and reports the system uptime.
   */
  datatype Settings = Settings(
    netDev: string, gpsFile: string, gpsLine: int, timeDiff: int, clockStart: Option<int>)

  /** A call that changes the system clock: `settimeofday` to a time, `adjtime` by an offset. */
  datatype ClockCall = SetTime(seconds: int) | Adjust(delta: int)

  /** The line, the counters, the data log, the files and the clock calls made so far. */
  datatype SessionState = SessionState(
    input: seq<ReadEvent>, writes: seq<WriteEvent>, output: seq<byte>,
    gps: bv32, device: bv32,
    log: LogState,
    files: map<string, string>,
    clock: seq<ClockCall>)

  /** The text of `name`, None when it cannot be opened for reading. */
  function FileText(files: map<string, string>, name: string): Option<string>
  {
    if name in files then Some(files[name]) else None
  }

  /** `writeStringToLine` on the GPS file, when one is configured. */
  function GpsFileAfter(files: map<string, string>, c: Settings, text: string, writeOk: bool): map<string, string>
  {
    if c.gpsFile == "" then files
    else
      match Updated(FileText(files, c.gpsFile), c.gpsLine, text)
      case Rewrite(lines) => if writeOk then files[c.gpsFile := Render(lines)] else files
      case _ => files
  }

  /**
   * The clock call for a GPS time: a hard set to the local time, a gradual
   * adjustment by the offset still to go, or nothing.
   */
  function ClockAfter(clock: seq<ClockCall>, c: Settings, m: Moment): seq<ClockCall>
  {
    match ClockDecision(c.timeDiff, m.now, m.gpsTime)
    case NoAction => clock
    case Gradual => clock + [Adjust(AdjtimeArgument(m.now, m.gpsTime))]
    case Hard => clock + [SetTime(m.gpsTime + LocalOffset)]
  }

  /** `processGpsInfo` on the payload: nothing unless it holds a whole record. */
  function GpsHandled(s: SessionState, payload: seq<byte>, m: Moment, c: Settings): SessionState
  {
    match DecodeGpsInfo(payload)
    case None => s
    case Some(g) =>
      s.(files := GpsFileAfter(s.files, c, PositionText(g), m.gpsWriteOk), clock := ClockAfter(s.clock, c, m))
  }

  /** A GPS frame: its payload handled, then the GPS counter raised. */
  function GpsCounted(s: SessionState, payload: seq<byte>, m: Moment, c: Settings): SessionState
  {
    var t := GpsHandled(s, payload, m, c);
    t.(gps := t.gps + 1)
  }

  /** The dispatch on the id byte; the counter goes up whatever the handler made of the payload. */
  function Dispatched(s: SessionState, frame: seq<byte>, m: Moment, c: Settings): SessionState
    requires |frame| >= 4
  {
    if frame[3] == SerialIdGps then GpsCounted(s, frame[4..], m, c)
    else if frame[3] == SerialIdDevice then s.(device := s.device + 1)
    else s
  }

  /**
   * The first field of the heartbeat: seconds since construction, or the system
   * uptime. The clock is read again for it, after any clock set of the same pass.
   */
  function HeartbeatSecond(m: Moment, c: Settings): bv32
  {
    match c.clockStart
    case Some(start) => ToU32(m.heartbeatNow - start)
    case None => m.uptime
  }

  /** The heartbeat for the counters of `s`. */
  function Heartbeat(s: SessionState, m: Moment, c: Settings): seq<byte>
  {
    EncodeTtyRespond(TtyRespondMsg(HeartbeatSecond(m, c), s.gps, s.device, HeartbeatAddress(c.netDev, m.localIp)))
  }

  /** `writen` of the heartbeat on the line. */
  function Responded(s: SessionState, m: Moment, c: Settings): SessionState
  {
    var w := WriteSpec(s.writes, Heartbeat(s, m, c));
    s.(writes := w.rest, output := s.output + w.taken)
  }

  /** What a frame with a valid checksum causes: dispatch, heartbeat, log line, in that order. */
  function Handled(s: SessionState, frame: seq<byte>, m: Moment, c: Settings): SessionState
    requires |frame| >= 4
  {
    var r := Responded(Dispatched(s, frame, m, c), m, c);
    r.(log := Logged(r.log, BytesToHexString(frame), m.stamp, m.logOk))
  }

  /** One pass of the loop. */
  function SerialTurn(s: SessionState, m: Moment, c: Settings): SessionState
  {
    var a := FrameAttempt(s.input);
    FrameAttemptAccepts(s.input);
    if a.outcome.Frame? then Handled(s.(input := a.rest), a.outcome.frame, m, c)
    else s.(input := a.rest)
  }

  /** The passes of the loop, one per moment, in order. */
  function SerialRun(s: SessionState, ms: seq<Moment>, c: Settings): SessionState
    decreases |ms|
  {
    if ms == [] then s else SerialTurn(SerialRun(s, ms[..|ms| - 1], c), ms[|ms| - 1], c)
  }

  // ---------------------------------------------------------------------------
  // Properties of one pass

  /** Whether a pass reads a valid frame with id `id`. */
  predicate ReadsFrameWithId(input: seq<ReadEvent>, id: byte)
  {
    var a := FrameAttempt(input).outcome;
    a.Frame? && |a.frame| >= 4 && a.frame[3] == id
  }

  /**
   * A pass either handles the frame it read, or only consumes read outcomes: a
   * rejected attempt changes nothing else.
   */
  lemma {:induction false} SerialTurnCases(s: SessionState, m: Moment, c: Settings)
    ensures var a := FrameAttempt(s.input);
      (a.outcome.Frame? ==>
        |a.outcome.frame| >= 4 && SerialTurn(s, m, c) == Handled(s.(input := a.rest), a.outcome.frame, m, c))
      && (!a.outcome.Frame? ==> SerialTurn(s, m, c) == s.(input := a.rest))
  {
    FrameAttemptAccepts(s.input);
  }

  /** Handling a frame counts it by its id, each counter wrapping at 2^32. */
  lemma {:induction false} HandledCounters(s: SessionState, f: seq<byte>, m: Moment, c: Settings)
    requires |f| >= 4
    ensures Handled(s, f, m, c).gps == (if f[3] == SerialIdGps then s.gps + 1 else s.gps)
    ensures Handled(s, f, m, c).device == (if f[3] == SerialIdDevice then s.device + 1 else s.device)
  {
    var d := Dispatched(s, f, m, c);
    RespondedKeeps(d, m, c);
    if f[3] == SerialIdGps {
      GpsHandledKeeps(s, f[4..], m, c);
    }
  }

  /** Writing the heartbeat touches only the line. */
  lemma {:induction false} RespondedKeeps(s: SessionState, m: Moment, c: Settings)
    ensures var r := Responded(s, m, c);
      r.input == s.input && r.gps == s.gps && r.device == s.device && r.log == s.log
      && r.files == s.files && r.clock == s.clock
  {
  }

  /** The GPS handler touches only the files and the clock calls. */
  lemma {:induction false} GpsHandledKeeps(s: SessionState, payload: seq<byte>, m: Moment, c: Settings)
    ensures var r := GpsHandled(s, payload, m, c);
      r.input == s.input && r.writes == s.writes && r.output == s.output
      && r.gps == s.gps && r.device == s.device && r.log == s.log
  {
    match DecodeGpsInfo(payload) {
      case None =>
      case Some(g) =>
        var t := PositionText(g);
        assert GpsHandled(s, payload, m, c) == s.(files := GpsFileAfter(s.files, c, t, m.gpsWriteOk), clock := ClockAfter(s.clock, c, m));
    }
  }

  /**
   * A GPS frame adds one to the GPS counter, a device frame one to the device
   * counter, each wrapping at 2^32; nothing else changes a counter.
   */
  lemma {:induction false} SerialTurnCounters(s: SessionState, m: Moment, c: Settings)
    ensures var t := SerialTurn(s, m, c);
      t.gps == (if ReadsFrameWithId(s.input, SerialIdGps) then s.gps + 1 else s.gps)
      && t.device == (if ReadsFrameWithId(s.input, SerialIdDevice) then s.device + 1 else s.device)
  {
    SerialTurnCases(s, m, c);
    var a := FrameAttempt(s.input);
    if a.outcome.Frame? {
      HandledCounters(s.(input := a.rest), a.outcome.frame, m, c);
    }
  }

  /**
   * Handling a frame writes the heartbeat for the counters after the frame was
   * counted: all 22 bytes or a prefix of them when a write fails.
   */
  lemma {:induction false} HandledHeartbeat(s: SessionState, f: seq<byte>, m: Moment, c: Settings)
    requires |f| >= 4
    ensures var t := Handled(s, f, m, c);
      var hb := EncodeTtyRespond(TtyRespondMsg(HeartbeatSecond(m, c), t.gps, t.device, HeartbeatAddress(c.netDev, m.localIp)));
      s.output <= t.output && t.output[|s.output|..] <= hb
  {
    var d := Dispatched(s, f, m, c);
    var hb := Heartbeat(d, m, c);
    WriteSpecAllOrFail(d.writes, hb);
    var w := WriteSpec(d.writes, hb);
    assert (s.output + w.taken)[|s.output|..] == w.taken;
  }

  /**
   * After a valid frame the line takes the heartbeat, all 22 bytes or a prefix of
   * them when a write fails; the heartbeat reports the counters as they are after
   * the frame was counted.
   */
  lemma {:induction false} SerialTurnHeartbeat(s: SessionState, m: Moment, c: Settings)
    requires FrameAttempt(s.input).outcome.Frame?
    ensures var t := SerialTurn(s, m, c);
      var msg := TtyRespondMsg(HeartbeatSecond(m, c), t.gps, t.device, HeartbeatAddress(c.netDev, m.localIp));
      s.output <= t.output && t.output[|s.output|..] <= EncodeTtyRespond(msg)
      && DecodeTtyRespond(EncodeTtyRespond(msg)) == Some(msg)
  {
    SerialTurnCases(s, m, c);
    var a := FrameAttempt(s.input);
    HandledHeartbeat(s.(input := a.rest), a.outcome.frame, m, c);
    var t := SerialTurn(s, m, c);
    TtyRespondRoundTrip(TtyRespondMsg(HeartbeatSecond(m, c), t.gps, t.device, HeartbeatAddress(c.netDev, m.localIp)));
  }

  /**
   * A valid frame is logged as its hex dump (when logging is on), and that line reads
   * back as the frame; the frame's bytes are exactly the bytes the pass consumed.
   */
  lemma {:induction false} SerialTurnLog(s: SessionState, m: Moment, c: Settings)
    requires FrameAttempt(s.input).outcome.Frame?
    ensures var f := FrameAttempt(s.input).outcome.frame; var t := SerialTurn(s, m, c);
      t.log == Logged(s.log, BytesToHexString(f), m.stamp, m.logOk)
      && ParseHexDump(BytesToHexString(f)) == Some(f)
      && Stream(s.input) == f + Stream(t.input)
  {
    SerialTurnCases(s, m, c);
    var a := FrameAttempt(s.input);
    HandledLog(s.(input := a.rest), a.outcome.frame, m, c);
    HexDumpRoundTrip(a.outcome.frame);
    FrameAttemptConsumes(s.input);
  }

  /** Handling a frame appends its hex dump to the log and reads nothing more from the line. */
  lemma {:induction false} HandledLog(s: SessionState, f: seq<byte>, m: Moment, c: Settings)
    requires |f| >= 4
    ensures var h := Handled(s, f, m, c);
      h.log == Logged(s.log, BytesToHexString(f), m.stamp, m.logOk) && h.input == s.input
  {
    var d := Dispatched(s, f, m, c);
    DispatchedKeeps(s, f, m, c);
    RespondedKeeps(d, m, c);
    var r := Responded(d, m, c);
    assert Handled(s, f, m, c) == r.(log := Logged(r.log, BytesToHexString(f), m.stamp, m.logOk));
  }

  /** The dispatch leaves the log and the unread input alone. */
  lemma {:induction false} DispatchedKeeps(s: SessionState, f: seq<byte>, m: Moment, c: Settings)
    requires |f| >= 4
    ensures var d := Dispatched(s, f, m, c);
      d.log == s.log && d.input == s.input
  {
    if f[3] == SerialIdGps {
      GpsHandledKeeps(s, f[4..], m, c);
    }
  }

  /**
   * A GPS frame too short for a record (L < 25, the payload being the L - 4 bytes
   * from the record on, checksum included) writes no file and sets no clock.
   */
  lemma {:induction false} ShortGpsFrameOnlyCounted(s: SessionState, m: Moment, c: Settings)
    requires ReadsFrameWithId(s.input, SerialIdGps) && |FrameAttempt(s.input).outcome.frame| < 4 + GpsInfoSize
    ensures SerialTurn(s, m, c).files == s.files && SerialTurn(s, m, c).clock == s.clock
  {
    SerialTurnCases(s, m, c);
  }

  /** The position text is one line unless a hemisphere byte is a newline. */
  lemma {:induction false} PositionTextOneLine(g: GpsInfo)
    requires g.latitudeHemisphere != 10 && g.longitudeHemisphere != 10
    ensures '\n' !in PositionText(g)
  {
    var t := PositionText(g);
    forall i | 0 <= i < |t| ensures t[i] != '\n' {
      Fixed4Digits(g.latitudeFraction as nat);
      Fixed4Digits(g.longitudeFraction as nat);
    }
  }

  lemma {:induction false} Fixed4Digits(k: nat)
    ensures '\n' !in Fixed4(k)
  {
    var q := Ipv4Text.Decimal(k / 10000);
    assert forall i :: 0 <= i < |q| ==> q[i] != '\n';
  }

  /**
   * After a GPS frame carrying a whole record, with a GPS file configured and
   * writable, the file's configured line holds the record's position (the file is
   * that one line when the line number is negative).
   */
  lemma {:induction false} GpsFrameWritesPosition(s: SessionState, m: Moment, c: Settings, g: GpsInfo)
    requires ReadsFrameWithId(s.input, SerialIdGps)
    requires DecodeGpsInfo(FrameAttempt(s.input).outcome.frame[4..]) == Some(g)
    requires g.latitudeHemisphere != 10 && g.longitudeHemisphere != 10
    requires c.gpsFile != "" && m.gpsWriteOk && (c.gpsLine < 0 || c.gpsFile in s.files)
    ensures var t := SerialTurn(s, m, c);
      c.gpsFile in t.files
      && var lines := ReadLines(t.files[c.gpsFile]);
      (c.gpsLine < 0 ==> lines == [PositionText(g)])
      && (c.gpsLine >= 0 ==> c.gpsLine < |lines| && lines[c.gpsLine] == PositionText(g))
  {
    var f := FrameAttempt(s.input).outcome.frame;
    var text := PositionText(g);
    var files := GpsFileAfter(s.files, c, text, m.gpsWriteOk);
    PositionTextOneLine(g);
    var u := Updated(FileText(s.files, c.gpsFile), c.gpsLine, text);
    if c.gpsLine < 0 {
      NegativeLineReplacesFile(FileText(s.files, c.gpsFile), c.gpsLine, text);
    } else {
      UpdatedSetsLine(FileText(s.files, c.gpsFile), c.gpsLine, text);
      if u.Rewrite? {
        UpdatedNoNewline(FileText(s.files, c.gpsFile), c.gpsLine, text);
        ReadRender(u.lines);
      }
    }
    SerialTurnFiles(s, m, c, g);
  }

  /** The files after a GPS frame with a whole record are those `GpsFileAfter` gives. */
  lemma {:induction false} SerialTurnFiles(s: SessionState, m: Moment, c: Settings, g: GpsInfo)
    requires ReadsFrameWithId(s.input, SerialIdGps)
    requires DecodeGpsInfo(FrameAttempt(s.input).outcome.frame[4..]) == Some(g)
    ensures SerialTurn(s, m, c).files == GpsFileAfter(s.files, c, PositionText(g), m.gpsWriteOk)
    ensures SerialTurn(s, m, c).clock == ClockAfter(s.clock, c, m)
  {
    SerialTurnCases(s, m, c);
  }

  /** The checksum test on a whole frame. */
  function Checked(frame: seq<byte>, rest: seq<ReadEvent>): AttemptResult
    requires |frame| >= 2
  {
    if FcsOk(frame) then AttemptResult(Frame(frame), rest) else AttemptResult(CrcMismatch, rest)
  }

  /** The rest of an attempt once `L - 3` further bytes have been asked for. */
  lemma {:induction false} ReadBodyOfRead(len: byte, evs: seq<ReadEvent>)
    requires 3 < len as int <= SerialPacketSize
    ensures var r := ReadSpec(evs, len as int - 3);
      ReadBody(len, evs) ==
        if r.count != len as int - 3 then AttemptResult(ShortBody, r.rest)
        else Checked([0xFF, 0xBB, len] + r.data, r.rest)
  {
  }

  // ---------------------------------------------------------------------------
  // The loop itself

  /** The part of a serial handler that runs the reader loop. */
  class SerialSession {
    const line: SerialLine
    /** The frame counters (shared with the network handler for `TtyHandler`). */
    const counters: PacketCounters
    const logger: RotatingLogger
    /** The text of every file that can be opened for reading. */
    var files: map<string, string>
    /** Every call that changed the system clock, in order. */
    var clock: seq<ClockCall>

    function State(): SessionState
      reads this, line, counters, logger
    {
      SessionState(line.input, line.writes, line.output, counters.gps, counters.device, logger.State(), files, clock)
    }

    ghost predicate Valid()
      reads this, logger
    {
      logger.Valid()
    }

    /** A loop on `line` counting into `counters`, with logging off and no clock call yet. */
    constructor (line: SerialLine, counters: PacketCounters, files: map<string, string>)
      ensures Valid() && fresh(logger)
      ensures this.line == line && this.counters == counters
      ensures State() == SessionState(line.input, line.writes, line.output, counters.gps, counters.device,
                                       LogState("", "", 0, 0, []), files, [])
    {
      this.line := line;
      this.counters := counters;
      logger := new RotatingLogger();
      this.files := files;
      clock := [];
    }

    /** `readn(buf + pos, 1)`: the byte lands at `pos` when exactly one arrives. */
    method ReadByte(buf: array<byte>, pos: nat) returns (ok: bool)
      requires pos < buf.Length
      modifies line, buf
      ensures var b := NextByte(old(line.input));
        line.input == b.rest && (ok <==> b.value.Some?) && (ok ==> buf[pos] == b.value.value)
      ensures forall i :: 0 <= i < buf.Length && i != pos ==> buf[i] == old(buf[i])
      ensures line.writes == old(line.writes) && line.output == old(line.output)
    {
      ReadSpecBounds(line.input, 1);
      var count, data := line.ReadN(1);
      if count != 1 {
        return false;
      }
      buf[pos] := data[0];
      return true;
    }

    /** The two markers and the length byte, at offsets 0, 1 and 2 of the buffer. */
    method ReadHeaderBytes(buf: array<byte>) returns (h: HeaderResult)
      requires buf.Length == SerialPacketSize
      modifies line, buf
      ensures h == ReadHeader(old(line.input)) && line.input == h.rest
      ensures h.Header? ==> buf[0] == 0xFF && buf[1] == 0xBB && buf[2] == h.length
      ensures line.writes == old(line.writes) && line.output == old(line.output)
    {
      var ok := ReadByte(buf, 0);
      if !ok || buf[0] != 0xFF {
        return HeaderFailed(NoStart, line.input);
      }
      ok := ReadByte(buf, 1);
      if !ok || buf[1] != 0xBB {
        return HeaderFailed(NoSecondMarker, line.input);
      }
      ok := ReadByte(buf, 2);
      if !ok {
        return HeaderFailed(NoLength, line.input);
      }
      return Header(buf[2], line.input);
    }

    /**
     * The rest of the frame after its header: the length check, `readn` of the other
     * L - 3 bytes into the buffer from offset 3, then the checksum test.
     */
    method ReadBodyBytes(buf: array<byte>, len: byte) returns (a: Attempt)
      requires buf.Length == SerialPacketSize && buf[0] == 0xFF && buf[1] == 0xBB && buf[2] == len
      modifies line, buf
      ensures AttemptResult(a, line.input) == ReadBody(len, old(line.input))
      ensures a.Frame? ==> |a.frame| <= buf.Length && buf[..|a.frame|] == a.frame
      ensures line.writes == old(line.writes) && line.output == old(line.output)
    {
      var frameSize := len as int;
      var readLen := frameSize - 3;
      if frameSize > buf.Length || readLen <= 0 {
        return BadLength(len);
      }
      ghost var evs := line.input;
      ReadSpecBounds(evs, readLen);
      ReadBodyOfRead(len, evs);
      var count, data := line.ReadN(readLen);
      if count != readLen {
        return ShortBody;
      }
      assert ReadBody(len, evs) == Checked([0xFF, 0xBB, len] + data, line.input);
      a := PlaceAndCheck(buf, len, data);
    }

    /** The body placed after the header, and the checksum test on the whole frame. */
    static method PlaceAndCheck(buf: array<byte>, len: byte, data: seq<byte>) returns (a: Attempt)
      requires buf.Length == SerialPacketSize && 3 < len as int <= buf.Length && |data| == len as int - 3
      requires buf[0] == 0xFF && buf[1] == 0xBB && buf[2] == len
      modifies buf
      ensures a == Checked([0xFF, 0xBB, len] + data, []).outcome
      ensures a.Frame? ==> |a.frame| <= buf.Length && buf[..|a.frame|] == a.frame
    {
      var frameSize := len as int;
      assert buf[..3] == [0xFF, 0xBB, len];
      PlaceBody(buf, data);
      assert buf[..frameSize] == [0xFF, 0xBB, len] + data;
      var ok := NetHandling.TrailerMatches(buf, frameSize);
      if !ok {
        return CrcMismatch;
      }
      return Frame(buf[..frameSize]);
    }

    /** `readn(buf + 3, L - 3)` landing its bytes after the header. */
    static method PlaceBody(buf: array<byte>, data: seq<byte>)
      requires 3 + |data| <= buf.Length
      modifies buf
      ensures buf[..3 + |data|] == old(buf[..3]) + data
    {
      forall i | 0 <= i < |data| {
        buf[3 + i] := data[i];
      }
    }

    /** One frame attempt into the buffer; a frame is left at its start. */
    method ReadFrame(buf: array<byte>) returns (a: Attempt)
      requires buf.Length == SerialPacketSize
      modifies line, buf
      ensures AttemptResult(a, line.input) == FrameAttempt(old(line.input))
      ensures a.Frame? ==> |a.frame| <= buf.Length && buf[..|a.frame|] == a.frame
      ensures line.writes == old(line.writes) && line.output == old(line.output)
    {
      var h := ReadHeaderBytes(buf);
      match h {
        case HeaderFailed(why, _) => a := why;
        case Header(len, _) => a := ReadBodyBytes(buf, len);
      }
    }

    /**
     * `processGpsInfo`: a whole record has its position written to the GPS file's
     * line and the clock corrected as the tolerance says.
     */
    method HandleGps(payload: seq<byte>, m: Moment, c: Settings)
      modifies this
      ensures State() == GpsHandled(old(State()), payload, m, c)
    {
      if |payload| < GpsInfoSize {
        return;
      }
      var g := DecodeGpsInfo(payload).value;
      WritePosition(PositionText(g), m, c);
      CorrectClock(m, c);
    }

    /** `writeStringToLine` of the position text, when a GPS file is configured. */
    method WritePosition(text: string, m: Moment, c: Settings)
      modifies this
      ensures files == GpsFileAfter(old(files), c, text, m.gpsWriteOk) && clock == old(clock)
    {
      if c.gpsFile != "" {
        var r, written := WriteStringToLine(FileText(files, c.gpsFile), c.gpsLine, text, m.gpsWriteOk);
        if written.Some? {
          files := files[c.gpsFile := written.value];
        }
      }
    }

    /** The clock correction for the GPS time of this moment. */
    method CorrectClock(m: Moment, c: Settings)
      modifies this
      ensures clock == ClockAfter(old(clock), c, m) && files == old(files)
    {
      if c.timeDiff >= 0 {
        var time := m.gpsTime + LocalOffset;
        var diff := Abs(m.now - time);
        // `timeDiff >> 1` of a non-negative value
        if diff >= c.timeDiff / 2 {
          if diff > c.timeDiff {
            clock := clock + [SetTime(time)];
          } else {
            clock := clock + [Adjust(AdjtimeArgument(m.now, m.gpsTime))];
          }
        }
      }
    }

    /** The switch on the id byte and the counter increment. */
    method Dispatch(frame: seq<byte>, m: Moment, c: Settings)
      requires |frame| >= 4
      modifies this, counters
      ensures State() == Dispatched(old(State()), frame, m, c)
    {
      if frame[3] == SerialIdGps {
        GpsFrame(frame[4..], m, c);
      } else if frame[3] == SerialIdDevice {
        counters.CountDevice();
      }
    }

    /** The GPS branch of the dispatch: handle the payload, then count the frame. */
    method GpsFrame(payload: seq<byte>, m: Moment, c: Settings)
      modifies this, counters
      ensures State() == GpsCounted(old(State()), payload, m, c)
    {
      HandleGps(payload, m, c);
      counters.CountGps();
    }

    /** `respondHeartbeatMsg`: 0 when all 22 bytes were written, -1 otherwise. */
    method Respond(m: Moment, c: Settings) returns (r: int)
      modifies line
      ensures State() == Responded(old(State()), m, c)
      ensures r == 0 <==> WriteSpec(old(line.writes), Heartbeat(old(State()), m, c)).count == 22
      ensures r == 0 || r == -1
    {
      var msg := TtyRespondMsg(HeartbeatSecond(m, c), counters.gps, counters.device, HeartbeatAddress(c.netDev, m.localIp));
      var bytes := EncodeTtyRespond(msg);
      var count := line.WriteN(bytes);
      r := if count != 22 then -1 else 0;
    }

    /** One pass of the loop with the buffer `buf`. */
    method Attempt(buf: array<byte>, m: Moment, c: Settings)
      requires Valid() && buf.Length == SerialPacketSize
      modifies this, line, counters, logger, buf
      ensures Valid()
      ensures State() == SerialTurn(old(State()), m, c)
    {
      ghost var s := State();
      SerialTurnCases(s, m, c);
      var a := ReadFrame(buf);
      assert State() == s.(input := line.input);
      if a.Frame? {
        var frame := buf[..|a.frame|];
        Dispatch(frame, m, c);
        var _ := Respond(m, c);
        logger.Append(BytesToHexString(frame), m.stamp, m.logOk);
      }
    }

    /** The loop over the moments, one pass each. */
    method Run(buf: array<byte>, ms: seq<Moment>, c: Settings)
      requires Valid() && buf.Length == SerialPacketSize
      modifies this, line, counters, logger, buf
      ensures Valid()
      ensures State() == SerialRun(old(State()), ms, c)
    {
      var i := 0;
      while i < |ms|
        invariant 0 <= i <= |ms| && Valid()
        invariant State() == SerialRun(old(State()), ms[..i], c)
        decreases |ms| - i
      {
        assert ms[..i + 1][..i] == ms[..i];
        Attempt(buf, ms[i], c);
        i := i + 1;
      }
      assert ms[..i] == ms;
    }
  }
}
