/**
 * The UDP handler (`NetHandler`): it owns a datagram socket and a 1500-byte
 * receive buffer, checks every datagram it receives, logs and dispatches the
 * frames that pass, and answers each of them with a heartbeat sent to the
 * configured peer.
 *
 * The socket, the clock and `system()` are outside the model. What they return is
 * a parameter: one `Event` per turn of the receive loop. The commands the handler
 * would run and the replies it would send are recorded in order.
 */
module NetHandling {
  import opened Wire
  import opened Crc16X25
  import opened HexDump
  import opened UdpFrame
  import opened Ipv4Text
  import opened DataLog
  import opened Counters

  /** The size of the receive buffer (`packetSize`). */
  const PacketSize: nat := 1500

  /** What one `readSocket` call returns. */
  datatype ReadOutcome = ReadError | Timeout | Received(data: seq<byte>)

  /** What the outside world supplies for one turn of the receive loop. */
  datatype Event = Event(
    read: ReadOutcome,  // the datagram, or why there is none
    uptime: bv32,       // what `getUptime` returns when the reply is built
    stamp: string,      // the time-stamped file name for a log rotation
    writeOk: bool,      // whether appending the log line succeeds
    firstOk: bool)      // whether the first command of the frame succeeds

  /** One heartbeat handed to the socket: destination address, port and bytes. */
  datatype Reply = Reply(addr: seq<byte>, port: bv16, bytes: seq<byte>)

  /** Everything the handler has done so far: the data log, the commands run, the replies sent. */
  datatype Trace = Trace(log: LogState, commands: seq<string>, sent: seq<Reply>)

  /** The configuration a turn of the loop reads, and the shared frame counters. */
  datatype Setting = Setting(netDev: string, addr: seq<byte>, port: bv16, gps: bv32, device: bv32)

  /**
   * The bytes that end up in the buffer: a datagram longer than the buffer is cut
   * to its size, and an error or a timeout leaves no bytes.
   */
  function DatagramOf(r: ReadOutcome): (d: seq<byte>)
    ensures |d| <= PacketSize
    ensures r.Received? ==> |d| <= |r.data| && d == r.data[..|d|] && (|d| < PacketSize ==> d == r.data)
    ensures !r.Received? ==> d == []
  {
    match r
    case Received(data) => if |data| <= PacketSize then data else data[..PacketSize]
    case _ => []
  }

  /** Whether the turn's datagram passes every check and is dispatched. */
  predicate Accepts(ev: Event)
  {
    CheckDatagram(DatagramOf(ev.read)).Accepted?
  }

  /** The heartbeat answering one accepted frame. */
  function HeartbeatFor(ev: Event, c: Setting): Reply
  {
    Reply(c.addr, c.port, EncodeNetRespond(NetRespondMsg(ev.uptime, c.gps, c.device)))
  }

  /** What a frame that passed the checks causes: its log line, its commands, one heartbeat. */
  function Dispatched(t: Trace, frame: seq<byte>, ev: Event, c: Setting): Trace
    requires |frame| >= 4
  {
    Trace(Logged(t.log, BytesToHexString(frame), ev.stamp, ev.writeOk),
          t.commands + FrameCommands(frame[3], frame[4..], c.netDev, ev.firstOk),
          t.sent + [HeartbeatFor(ev, c)])
  }

  /**
   * One turn of the receive loop: a datagram that fails a check is skipped. The
   * checks are the guarded `CheckDatagram`, so a length byte below 6, which the
   * handler as written lets through, is skipped too.
   */
  function Turn(t: Trace, ev: Event, c: Setting): Trace
  {
    var v := CheckDatagram(DatagramOf(ev.read));
    if v.Accepted? then Dispatched(t, v.frame, ev, c) else t
  }

  /** The turns of the loop, in order. */
  function Run(t: Trace, evs: seq<Event>, c: Setting): Trace
    decreases |evs|
  {
    if evs == [] then t else Turn(Run(t, evs[..|evs| - 1], c), evs[|evs| - 1], c)
  }

  /** One more event is one more turn. */
  lemma {:induction false} RunStep(t: Trace, evs: seq<Event>, i: nat, c: Setting)
    requires i < |evs|
    ensures Run(t, evs[..i + 1], c) == Turn(Run(t, evs[..i], c), evs[i], c)
  {
    assert evs[..i + 1][..i] == evs[..i];
  }

  /** How many of the events bring a datagram that passes the checks. */
  function AcceptedCount(evs: seq<Event>): (n: nat)
    ensures n <= |evs|
    decreases |evs|
  {
    if evs == [] then 0
    else AcceptedCount(evs[..|evs| - 1]) + (if Accepts(evs[|evs| - 1]) then 1 else 0)
  }

  /** A reply is a well-formed heartbeat to the configured peer carrying the shared counters. */
  predicate HeartbeatTo(r: Reply, c: Setting)
  {
    r.addr == c.addr && r.port == c.port
    && DecodeNetRespond(r.bytes).Some?
    && DecodeNetRespond(r.bytes).value.gpsPackets == c.gps
    && DecodeNetRespond(r.bytes).value.devicePackets == c.device
  }

  /** A logged line shows a frame that, taken alone, passes the checks and is that frame. */
  predicate LoggedFrame(line: string)
  {
    ParseHexDump(line).Some?
    && CheckDatagram(ParseHexDump(line).value).Accepted?
    && CheckDatagram(ParseHexDump(line).value).frame == ParseHexDump(line).value
  }

  /** An accepted frame, checked again on its own, is accepted as the same frame. */
  lemma {:induction false} AcceptedFrameRechecks(d: seq<byte>)
    requires CheckDatagram(d).Accepted?
    ensures CheckDatagram(CheckDatagram(d).frame) == CheckDatagram(d)
  {
    var f := CheckDatagram(d).frame;
    assert f[..f[2]] == f;
  }

  /**
   * The checksum test on the first `len` bytes of the buffer: the little-endian
   * value stored at `len - 2` against the checksum computed over the bytes before it.
   */
  method TrailerMatches(buf: array<byte>, len: nat) returns (ok: bool)
    requires 2 <= len <= buf.Length
    ensures ok <==> FcsOk(buf[..len])
  {
    var frame := buf[..len];
    var srcCrc := U16At(frame, len - 2);
    var dstCrc := CalculateCrc16X25(buf, len - 2);
    assert buf[..len - 2] == frame[..len - 2];
    ok := srcCrc == dstCrc;
  }

  /** A turn whose datagram fails a check changes nothing. */
  lemma {:induction false} TurnRejected(t: Trace, ev: Event, c: Setting)
    requires !Accepts(ev)
    ensures Turn(t, ev, c) == t
  {
  }

  /** A dispatched frame sends exactly one heartbeat, to the configured peer, after the earlier ones. */
  lemma {:induction false} DispatchedReplies(t: Trace, frame: seq<byte>, ev: Event, c: Setting)
    requires |frame| >= 4
    ensures var u := Dispatched(t, frame, ev, c);
      |u.sent| == |t.sent| + 1 && u.sent[..|t.sent|] == t.sent && HeartbeatTo(u.sent[|t.sent|], c)
  {
    NetRespondRoundTrip(NetRespondMsg(ev.uptime, c.gps, c.device));
  }

  /** A dispatched frame runs at most two commands, after the earlier ones. */
  lemma {:induction false} DispatchedCommands(t: Trace, frame: seq<byte>, ev: Event, c: Setting)
    requires |frame| >= 4
    ensures var u := Dispatched(t, frame, ev, c);
      |t.commands| <= |u.commands| <= |t.commands| + 2 && u.commands[..|t.commands|] == t.commands
  {
  }

  /** The log line of a frame that passes the checks on its own shows that frame. */
  lemma {:induction false} HexOfFrameIsLoggedFrame(frame: seq<byte>)
    requires CheckDatagram(frame).Accepted? && CheckDatagram(frame).frame == frame
    ensures LoggedFrame(BytesToHexString(frame))
  {
    HexDumpRoundTrip(frame);
  }

  /**
   * Logging the line of such a frame adds at most that line (none when logging is
   * off or the append fails) and keeps the earlier ones.
   */
  lemma {:induction false} LoggedFrameLine(s: LogState, line: string, stamp: string, writeOk: bool)
    requires LoggedFrame(line)
    ensures var u := Logged(s, line, stamp, writeOk);
      |s.records| <= |u.records| && u.records[..|s.records|] == s.records
      && (s.outputFile == "" || !writeOk ==> u.records == s.records)
      && (forall k :: |s.records| <= k < |u.records| ==> LoggedFrame(u.records[k].line))
  {
    LoggedAppends(s, line, stamp, writeOk);
  }

  /**
   * A dispatched frame whose line shows a frame that passes the checks adds at most
   * that line and keeps the earlier ones, and the line count stays consistent.
   */
  lemma {:induction false} DispatchedLog(t: Trace, frame: seq<byte>, ev: Event, c: Setting)
    requires |frame| >= 4 && LoggedFrame(BytesToHexString(frame))
    ensures var u := Dispatched(t, frame, ev, c);
      |t.log.records| <= |u.log.records| && u.log.records[..|t.log.records|] == t.log.records
      && (t.log.outputFile == "" || !ev.writeOk ==> u.log.records == t.log.records)
      && (forall k :: |t.log.records| <= k < |u.log.records| ==> LoggedFrame(u.log.records[k].line))
      && (Consistent(t.log) ==> Consistent(u.log))
  {
    var line := BytesToHexString(frame);
    assert Dispatched(t, frame, ev, c).log == Logged(t.log, line, ev.stamp, ev.writeOk);
    LoggedFrameLine(t.log, line, ev.stamp, ev.writeOk);
    if Consistent(t.log) {
      LoggedConsistent(t.log, line, ev.stamp, ev.writeOk);
    }
  }

  /** The frame of an accepted turn, with the facts the dispatch lemmas need. */
  lemma {:induction false} AcceptedTurn(t: Trace, ev: Event, c: Setting) returns (frame: seq<byte>)
    requires Accepts(ev)
    ensures |frame| >= 4 && CheckDatagram(frame).Accepted? && CheckDatagram(frame).frame == frame
    ensures Turn(t, ev, c) == Dispatched(t, frame, ev, c)
  {
    frame := CheckDatagram(DatagramOf(ev.read)).frame;
    AcceptedFrameRechecks(DatagramOf(ev.read));
  }

  /** A run sends one heartbeat per accepted datagram, each to the configured peer, after the earlier ones. */
  lemma {:induction false} RunReplies(t: Trace, evs: seq<Event>, c: Setting)
    ensures var u := Run(t, evs, c);
      |u.sent| == |t.sent| + AcceptedCount(evs)
      && u.sent[..|t.sent|] == t.sent
      && forall k :: |t.sent| <= k < |u.sent| ==> HeartbeatTo(u.sent[k], c)
    decreases |evs|
  {
    if evs != [] {
      var init, ev := evs[..|evs| - 1], evs[|evs| - 1];
      var m := Run(t, init, c);
      RunReplies(t, init, c);
      if Accepts(ev) {
        var frame := AcceptedTurn(m, ev, c);
        DispatchedReplies(m, frame, ev, c);
        RepliesStep(t, m, Run(t, evs, c), c);
      } else {
        TurnRejected(m, ev, c);
      }
    }
  }

  /**
   * A run keeps the earlier commands first and runs at most two per accepted
   * datagram; a run in which no datagram passes changes nothing at all.
   */
  lemma {:induction false} RunCommands(t: Trace, evs: seq<Event>, c: Setting)
    ensures var u := Run(t, evs, c);
      |t.commands| <= |u.commands| <= |t.commands| + 2 * AcceptedCount(evs)
      && u.commands[..|t.commands|] == t.commands
    ensures AcceptedCount(evs) == 0 ==> Run(t, evs, c) == t
    decreases |evs|
  {
    if evs != [] {
      var init, ev := evs[..|evs| - 1], evs[|evs| - 1];
      var m := Run(t, init, c);
      RunCommands(t, init, c);
      if Accepts(ev) {
        var frame := AcceptedTurn(m, ev, c);
        DispatchedCommands(m, frame, ev, c);
      } else {
        TurnRejected(m, ev, c);
      }
    }
  }

  /**
   * A run keeps the lines logged before it, every line it adds shows a frame that
   * passes the checks, and the log's line count stays consistent with its current file.
   */
  lemma {:induction false} RunLog(t: Trace, evs: seq<Event>, c: Setting)
    ensures var u := Run(t, evs, c);
      |t.log.records| <= |u.log.records|
      && u.log.records[..|t.log.records|] == t.log.records
      && (forall k :: |t.log.records| <= k < |u.log.records| ==> LoggedFrame(u.log.records[k].line))
      && (Consistent(t.log) ==> Consistent(u.log))
    decreases |evs|
  {
    if evs != [] {
      var init, ev := evs[..|evs| - 1], evs[|evs| - 1];
      var m := Run(t, init, c);
      RunLog(t, init, c);
      if Accepts(ev) {
        var frame := AcceptedTurn(m, ev, c);
        HexOfFrameIsLoggedFrame(frame);
        DispatchedLog(m, frame, ev, c);
        RunLogStep(t, m, Run(t, evs, c));
      } else {
        TurnRejected(m, ev, c);
      }
    }
  }

  /** Keeping the earlier replies and sending only heartbeats to the peer is transitive. */
  lemma {:induction false} RepliesStep(t: Trace, m: Trace, u: Trace, c: Setting)
    requires |t.sent| <= |m.sent| && m.sent[..|t.sent|] == t.sent
    requires forall k :: |t.sent| <= k < |m.sent| ==> HeartbeatTo(m.sent[k], c)
    requires |u.sent| == |m.sent| + 1 && u.sent[..|m.sent|] == m.sent && HeartbeatTo(u.sent[|m.sent|], c)
    ensures |t.sent| <= |u.sent| && u.sent[..|t.sent|] == t.sent
    ensures forall k :: |t.sent| <= k < |u.sent| ==> HeartbeatTo(u.sent[k], c)
  {
    forall k | |t.sent| <= k < |u.sent|
      ensures HeartbeatTo(u.sent[k], c)
    {
      if k < |m.sent| {
        assert u.sent[k] == m.sent[k];
      }
    }
  }

  /** Keeping the earlier lines and logging only frames is transitive. */
  lemma {:induction false} RunLogStep(t: Trace, m: Trace, u: Trace)
    requires |t.log.records| <= |m.log.records| && m.log.records[..|t.log.records|] == t.log.records
    requires forall k :: |t.log.records| <= k < |m.log.records| ==> LoggedFrame(m.log.records[k].line)
    requires |m.log.records| <= |u.log.records| && u.log.records[..|m.log.records|] == m.log.records
    requires forall k :: |m.log.records| <= k < |u.log.records| ==> LoggedFrame(u.log.records[k].line)
    ensures |t.log.records| <= |u.log.records| && u.log.records[..|t.log.records|] == t.log.records
    ensures forall k :: |t.log.records| <= k < |u.log.records| ==> LoggedFrame(u.log.records[k].line)
  {
    forall k | |t.log.records| <= k < |m.log.records|
      ensures LoggedFrame(u.log.records[k].line)
    {
      assert u.log.records[k] == m.log.records[k];
    }
  }

  /** With logging configured and a positive maximum, no file of the run holds more lines than the maximum. */
  lemma {:induction false} RunLogBounded(t: Trace, evs: seq<Event>, c: Setting)
    requires t.log.outputFile != "" && t.log.maxLines > 0 && 0 <= t.log.curLines <= t.log.maxLines
    ensures var u := Run(t, evs, c);
      u.log.outputFile == t.log.outputFile && u.log.maxLines == t.log.maxLines
      && 0 <= u.log.curLines <= u.log.maxLines
    decreases |evs|
  {
    if evs != [] {
      var init, ev := evs[..|evs| - 1], evs[|evs| - 1];
      var m := Run(t, init, c);
      RunLogBounded(t, init, c);
      if Accepts(ev) {
        var v := CheckDatagram(DatagramOf(ev.read));
        LoggedBounded(m.log, BytesToHexString(v.frame), ev.stamp, ev.writeOk);
      } else {
        TurnRejected(m, ev, c);
      }
    }
  }

  class NetHandler {
    /** The socket; negative while there is none. */
    var fd: int
    /** Whether the receive loop should keep going. */
    var workFlag: bool
    /** Whether a worker thread exists. */
    var hasWorker: bool
    /** The receive timeout in milliseconds. */
    var timeout: int
    /** The receive buffer, allocated by the first successful `Init`. */
    var packet: array?<byte>
    /** The local port the socket is bound to. */
    const port: bv16
    /** The network connection the address commands name. */
    var netDev: string
    /** The configured peer's address (network order) and port. */
    var remoteAddr: seq<byte>
    var remotePort: bv16
    const logger: RotatingLogger
    /** The frame counters shared with the serial handler. */
    const counters: PacketCounters
    /** Every command handed to `system()`, in order. */
    var commands: seq<string>
    /** Every reply handed to the socket, in order. */
    var sent: seq<Reply>

    ghost predicate Valid()
      reads this, logger
    {
      logger.Valid() && |remoteAddr| == 4 && (packet != null ==> packet.Length == PacketSize)
    }

    /** What the handler has done so far. */
    function History(): Trace
      reads this, logger
    {
      Trace(logger.State(), commands, sent)
    }

    /** What a turn of the loop reads besides the datagram. */
    function Config(): Setting
      reads this, counters
    {
      Setting(netDev, remoteAddr, remotePort, counters.gps, counters.device)
    }

    /** A handler for `port`: no socket, no buffer, not working, peer 0.0.0.0:0, logging off. */
    constructor (port: bv16, counters: PacketCounters)
      ensures Valid()
      ensures fd == -1 && !workFlag && !hasWorker && timeout == 1000 && packet == null
      ensures this.port == port && this.counters == counters && fresh(logger)
      ensures netDev == "" && remoteAddr == [0, 0, 0, 0] && remotePort == 0
      ensures History() == Trace(LogState("", "", 0, 0, []), [], [])
    {
      fd := -1;
      workFlag := false;
      hasWorker := false;
      timeout := 1000;
      packet := null;
      this.port := port;
      netDev := "";
      remoteAddr := [0, 0, 0, 0];
      remotePort := 0;
      logger := new RotatingLogger();
      this.counters := counters;
      commands := [];
      sent := [];
    }

    method SetNetworkDevice(dev: string)
      modifies this
      ensures netDev == dev
      ensures fd == old(fd) && workFlag == old(workFlag) && hasWorker == old(hasWorker)
      ensures packet == old(packet) && remoteAddr == old(remoteAddr) && remotePort == old(remotePort)
      ensures commands == old(commands) && sent == old(sent) && timeout == old(timeout)
    {
      netDev := dev;
    }

    /**
     * The peer heartbeats go to. The address changes only when `ip` is a valid
     * dotted quad; the port is always taken.
     */
    method SetRemoteDeviceInfo(ip: string, p: bv16)
      requires Valid()
      modifies this
      ensures Valid()
      ensures remotePort == p
      ensures ParseIPv4(ip).Some? ==> remoteAddr == ParseIPv4(ip).value
      ensures ParseIPv4(ip).None? ==> remoteAddr == old(remoteAddr)
      ensures fd == old(fd) && workFlag == old(workFlag) && hasWorker == old(hasWorker)
      ensures packet == old(packet) && netDev == old(netDev)
      ensures commands == old(commands) && sent == old(sent) && timeout == old(timeout)
    {
      match ParseIPv4(ip) {
        case Some(a) => remoteAddr := a;
        case None =>
      }
      remotePort := p;
    }

    /** Turns logging on (a non-empty `filename`) or off; the next frame opens a new file. */
    method SetDataOutputFile(filename: string, maxLines: int)
      requires Valid()
      modifies logger
      ensures Valid()
      ensures logger.State() == old(logger.State()).(outputFile := filename, maxLines := maxLines, curLines := maxLines)
    {
      logger.SetDataOutputFile(filename, maxLines);
    }

    /**
     * Opens the socket unless there is one. `sockFd` is what setting up and binding
     * the socket returns (negative on failure). The buffer is allocated once.
     */
    method Init(sockFd: int) returns (r: int)
      requires Valid()
      modifies this
      ensures Valid()
      ensures old(fd) >= 0 ==> r == 0 && fd == old(fd) && packet == old(packet)
      ensures old(fd) < 0 && sockFd < 0 ==> r == -1 && fd == sockFd && packet == old(packet)
      ensures old(fd) < 0 && sockFd >= 0 ==>
        (r == 0 && fd == sockFd && packet != null
         && (old(packet) != null ==> packet == old(packet))
         && (old(packet) == null ==> fresh(packet)))
      ensures workFlag == old(workFlag) && hasWorker == old(hasWorker) && netDev == old(netDev)
      ensures remoteAddr == old(remoteAddr) && remotePort == old(remotePort)
      ensures commands == old(commands) && sent == old(sent) && timeout == old(timeout)
    {
      if fd >= 0 {
        return 0;
      }
      fd := sockFd;
      if fd < 0 {
        return -1;
      }
      if packet == null {
        packet := new byte[PacketSize];
      }
      return 0;
    }

    /** Sets the work flag and creates the worker unless one exists. */
    method Start()
      modifies this
      ensures workFlag && hasWorker
      ensures fd == old(fd) && packet == old(packet) && netDev == old(netDev)
      ensures remoteAddr == old(remoteAddr) && remotePort == old(remotePort)
      ensures commands == old(commands) && sent == old(sent) && timeout == old(timeout)
    {
      workFlag := true;
      hasWorker := true;
    }

    /** Clears the work flag and waits for the worker, which then no longer exists. */
    method Stop()
      modifies this
      ensures !workFlag && !hasWorker
      ensures fd == old(fd) && packet == old(packet) && netDev == old(netDev)
      ensures remoteAddr == old(remoteAddr) && remotePort == old(remotePort)
      ensures commands == old(commands) && sent == old(sent) && timeout == old(timeout)
    {
      workFlag := false;
      hasWorker := false;
    }

    /**
     * The checks of one turn on the `ret` bytes received into the buffer: header
     * size, marker, received length against the length byte, then the checksum, in
     * the handler's order. The lower bound of 6 on the length byte before the
     * checksum is not in the handler; it is the guard `CheckDatagram` adds to the
     * checks as written (`CheckDatagramAsWritten`). `len` is the frame's length when
     * they all pass.
     */
    method CheckReceived(ret: int) returns (ok: bool, len: nat)
      requires packet != null && 0 <= ret <= packet.Length
      ensures ok <==> CheckDatagram(packet[..ret]).Accepted?
      ensures ok ==> len <= ret && CheckDatagram(packet[..ret]).frame == packet[..len]
    {
      var d := packet[..ret];
      CheckDatagramCases(d);
      if ret < 4 || d[0] != 0xEE || d[1] != 0xAA {
        return false, 0;
      }
      len := d[2] as int;
      if ret < len || len < 6 {
        return false, 0;
      }
      ok := TrailerMatches(packet, len);
      assert d[..len] == packet[..len];
    }

    /** What a frame that passed the checks causes: log line, commands, heartbeat. */
    method HandleFrame(ev: Event, frame: seq<byte>)
      requires Valid() && |frame| >= 4
      modifies this, logger
      ensures Valid()
      ensures History() == Dispatched(old(History()), frame, ev, Config())
      ensures fd == old(fd) && workFlag == old(workFlag) && hasWorker == old(hasWorker)
      ensures packet == old(packet) && netDev == old(netDev) && timeout == old(timeout)
      ensures remoteAddr == old(remoteAddr) && remotePort == old(remotePort)
    {
      logger.Append(BytesToHexString(frame), ev.stamp, ev.writeOk);
      commands := commands + FrameCommands(frame[3], frame[4..], netDev, ev.firstOk);
      sent := sent + [HeartbeatFor(ev, Config())];
    }

    /** `readSocket` copying the datagram into the buffer. */
    method ReadInto(d: seq<byte>)
      requires packet != null && |d| <= packet.Length
      modifies packet
      ensures packet[..|d|] == d
    {
      forall i | 0 <= i < |d| {
        packet[i] := d[i];
      }
    }

    /**
     * One turn of the receive loop: the datagram is copied into the buffer and
     * checked; a frame that passes is logged, dispatched and answered with a
     * heartbeat. A read error or a timeout leaves no bytes to check.
     */
    method Receive(ev: Event)
      requires Valid() && packet != null
      modifies this, logger, packet
      ensures packet == old(packet) && packet != null && Valid()
      ensures History() == Turn(old(History()), ev, Config())
      ensures packet[..|DatagramOf(ev.read)|] == DatagramOf(ev.read)
      ensures fd == old(fd) && workFlag == old(workFlag) && hasWorker == old(hasWorker)
      ensures netDev == old(netDev) && timeout == old(timeout)
      ensures remoteAddr == old(remoteAddr) && remotePort == old(remotePort)
    {
      var d := DatagramOf(ev.read);
      ReadInto(d);
      var ok, len := CheckReceived(|d|);
      if ok {
        HandleFrame(ev, packet[..len]);
      } else {
        TurnRejected(History(), ev, Config());
      }
    }

    /**
     * The receive loop. Without a socket or a buffer it clears the work flag and
     * does nothing; otherwise, while the flag is set, it takes the events in order.
     * The counters are never touched.
     */
    method Process(evs: seq<Event>)
      requires Valid()
      modifies this, logger, packet
      ensures Valid()
      ensures old(fd) < 0 || old(packet) == null ==> !workFlag && History() == old(History())
      ensures old(fd) >= 0 && old(packet) != null ==>
        (workFlag == old(workFlag)
         && History() == (if workFlag then Run(old(History()), evs, Config()) else old(History())))
      ensures fd == old(fd) && hasWorker == old(hasWorker) && packet == old(packet) && netDev == old(netDev)
      ensures remoteAddr == old(remoteAddr) && remotePort == old(remotePort)
    {
      if fd < 0 || packet == null {
        workFlag := false;
        return;
      }
      var i := 0;
      ghost var c := Config();
      ghost var t := History();
      while workFlag && i < |evs|
        invariant Valid() && packet != null && packet == old(packet)
        invariant 0 <= i <= |evs| && (!workFlag ==> i == 0)
        invariant fd == old(fd) && workFlag == old(workFlag) && hasWorker == old(hasWorker)
        invariant netDev == old(netDev) && remoteAddr == old(remoteAddr) && remotePort == old(remotePort)
        invariant Config() == c
        invariant History() == Run(t, evs[..i], c)
        decreases |evs| - i
      {
        RunStep(t, evs, i, c);
        Receive(evs[i]);
        i := i + 1;
      }
      if workFlag {
        assert evs[..i] == evs;
      } else {
        assert evs[..i] == [];
      }
    }
  }
}
