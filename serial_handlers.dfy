/**
 * The two serial handlers. `TtyHandler` extends the network handler: it counts into
 * the counters it shares with it and reports the system uptime in its heartbeat.
 * `ModuleTtyProcess` stands alone: it keeps its own counters and reports the seconds
 * since it was constructed. Both run the same reader loop (`SerialSession`) on a
 * 256-byte buffer allocated by `init`.
 *
 * What the operating system answers is a parameter: the descriptor `open` returns
 * (None for -1), and whether `tcgetattr` and the two `tcsetattr` calls succeed. The
 * device's terminal attributes are a field.
 */
module SerialHandlers {
  import opened Wire
  import opened SerialConfig
  import opened SerialLink
  import opened SerialFrame
  import opened DataLog
  import opened Counters
  import opened SerialSessions

  class TtyHandler {
    /** The device path `open` is given. */
    const device: string
    const para: TtyPara
    /** The reader loop, with the line, the shared counters and the data log. */
    const session: SerialSession
    /** The serial descriptor; -1 while there is none. */
    var fd: int
    var workFlag: bool
    var hasWorker: bool
    /** The frame buffer, allocated by the first successful `Init`. */
    var packet: array?<byte>
    /** The terminal attributes of the device. */
    var attrs: Termios
    var netDev: string
    var gpsFile: string
    var gpsLine: int
    var timeDiff: int

    ghost predicate Valid()
      reads this, session, session.logger
    {
      session.Valid() && (packet != null ==> packet.Length == SerialPacketSize)
    }

    /** What a pass of the loop reads from the handler; the heartbeat reports the uptime. */
    function Config(): Settings
      reads this
    {
      Settings(netDev, gpsFile, gpsLine, timeDiff, None)
    }

    /**
     * The network handler's initial state (no descriptor, no buffer, not working,
     * logging off), no GPS file, and clock correction off (`timeDiff` -1).
     */
    constructor (device: string, para: TtyPara, line: SerialLine, counters: PacketCounters,
                 attrs: Termios, files: map<string, string>)
      ensures Valid()
      ensures this.device == device && this.para == para && this.attrs == attrs
      ensures fd == -1 && !workFlag && !hasWorker && packet == null
      ensures Config() == Settings("", "", 0, -1, None)
      ensures fresh(session) && fresh(session.logger)
      ensures session.line == line && session.counters == counters
      ensures session.State() == SessionState(line.input, line.writes, line.output, counters.gps, counters.device,
                                              LogState("", "", 0, 0, []), files, [])
    {
      this.device := device;
      this.para := para;
      session := new SerialSession(line, counters, files);
      fd := -1;
      workFlag := false;
      hasWorker := false;
      packet := null;
      this.attrs := attrs;
      netDev := "";
      gpsFile := "";
      gpsLine := 0;
      timeDiff := -1;
    }

    /**
     * Opens and configures the line unless the descriptor is positive (a descriptor
     * of 0 is opened again). A failed speed or parity setting closes the line and
     * leaves -1. The buffer is allocated only when there is none.
     */
    method Init(openFd: Option<nat>, speedSetOk: bool, getOk: bool, paritySetOk: bool) returns (r: int)
      requires Valid()
      modifies this
      ensures Valid()
      ensures old(fd) > 0 ==> r == 0 && fd == old(fd) && packet == old(packet) && attrs == old(attrs)
      ensures old(fd) <= 0 && openFd.None? ==> r == -1 && fd == -1 && packet == old(packet) && attrs == old(attrs)
      ensures old(fd) <= 0 && openFd.Some? ==>
        var s := LineSetup(old(attrs), para, speedSetOk, getOk, paritySetOk);
        attrs == s.attrs
        && (s.ok ==> r == 0 && fd == openFd.value && packet != null
                     && (old(packet) != null ==> packet == old(packet))
                     && (old(packet) == null ==> fresh(packet)))
        && (!s.ok ==> r == -1 && fd == -1 && packet == old(packet))
      ensures Config() == old(Config()) && workFlag == old(workFlag) && hasWorker == old(hasWorker)
    {
      if fd > 0 {
        return 0;
      }
      fd := if openFd.Some? then openFd.value else -1;
      if fd < 0 {
        return -1;
      }
      var rs, t1 := SetSpeed(attrs, para, speedSetOk);
      attrs := t1;
      if rs != 0 {
        fd := -1;
        return -1;
      }
      var rp, t2 := SetParity(attrs, para, getOk, paritySetOk);
      attrs := t2;
      if rp != 0 {
        fd := -1;
        return -1;
      }
      if packet == null {
        packet := new byte[SerialPacketSize];
      }
      return 0;
    }

    /** The reader loop: one pass per moment while the work flag is set. */
    method Process(ms: seq<Moment>)
      requires Valid()
      modifies this, session, session.line, session.counters, session.logger, packet
      ensures Valid()
      ensures old(fd) < 0 || old(packet) == null ==> !workFlag && session.State() == old(session.State())
      ensures old(fd) >= 0 && old(packet) != null ==>
        workFlag == old(workFlag)
        && session.State() == (if workFlag then SerialRun(old(session.State()), ms, Config()) else old(session.State()))
      ensures fd == old(fd) && packet == old(packet) && hasWorker == old(hasWorker) && attrs == old(attrs)
      ensures Config() == old(Config())
    {
      if fd < 0 || packet == null {
        workFlag := false;
        return;
      }
      if workFlag {
        session.Run(packet, ms, Config());
      }
    }

    /** `setNetworkDevice`: the interface whose address the heartbeat reports. */
    method SetNetworkDevice(dev: string)
      modifies this
      ensures Config() == old(Config()).(netDev := dev)
      ensures fd == old(fd) && packet == old(packet) && attrs == old(attrs)
      ensures workFlag == old(workFlag) && hasWorker == old(hasWorker)
    {
      netDev := dev;
    }

    /** Turns logging on (a non-empty `filename`) or off; the next frame starts a new file. */
    method SetDataOutputFile(filename: string, maxLines: int)
      requires Valid()
      modifies session.logger
      ensures Valid()
      ensures session.logger.State() ==
        old(session.logger.State()).(outputFile := filename, maxLines := maxLines, curLines := maxLines)
    {
      session.logger.SetDataOutputFile(filename, maxLines);
    }

    /** The file and line the GPS position goes to; an empty name turns it off. */
    method SetGpsDataOutputFile(filename: string, lineNumber: int)
      modifies this
      ensures Config() == old(Config()).(gpsFile := filename, gpsLine := lineNumber)
      ensures fd == old(fd) && packet == old(packet) && attrs == old(attrs)
      ensures workFlag == old(workFlag) && hasWorker == old(hasWorker)
    {
      gpsFile := filename;
      gpsLine := lineNumber;
    }

    /** The clock tolerance in seconds; negative turns clock correction off. */
    method SetTimeDiff(diff: int)
      modifies this
      ensures Config() == old(Config()).(timeDiff := diff)
      ensures fd == old(fd) && packet == old(packet) && attrs == old(attrs)
      ensures workFlag == old(workFlag) && hasWorker == old(hasWorker)
    {
      timeDiff := diff;
    }

    /** The network handler's `start`: sets the work flag, creates the worker unless one exists. */
    method Start()
      modifies this
      ensures workFlag && hasWorker
      ensures fd == old(fd) && packet == old(packet) && attrs == old(attrs) && Config() == old(Config())
    {
      workFlag := true;
      hasWorker := true;
    }

    /** The network handler's `stop`: clears the work flag and joins the worker. */
    method Stop()
      modifies this
      ensures !workFlag && !hasWorker
      ensures fd == old(fd) && packet == old(packet) && attrs == old(attrs) && Config() == old(Config())
    {
      workFlag := false;
      hasWorker := false;
    }
  }

  class ModuleTtyProcess {
    const device: string
    const para: TtyPara
    /** The seconds of `gettimeofday` at construction. */
    const startSec: int
    /** The reader loop, with the line, this handler's own counters and the data log. */
    const session: SerialSession
    var fd: int
    var workFlag: bool
    var hasWorker: bool
    var packet: array?<byte>
    var attrs: Termios
    var netDev: string
    var gpsFile: string
    var gpsLine: int
    var timeDiff: int

    ghost predicate Valid()
      reads this, session, session.logger
    {
      session.Valid() && (packet != null ==> packet.Length == SerialPacketSize)
    }

    /** What a pass of the loop reads; the heartbeat counts seconds from `startSec`. */
    function Config(): Settings
      reads this
    {
      Settings(netDev, gpsFile, gpsLine, timeDiff, Some(startSec))
    }

    /**
     * No descriptor, no buffer, not working, both counters 0, logging off, no GPS
     * file, clock correction off.
     */
    constructor (device: string, para: TtyPara, line: SerialLine, startSec: int,
                 attrs: Termios, files: map<string, string>)
      ensures Valid()
      ensures this.device == device && this.para == para && this.startSec == startSec && this.attrs == attrs
      ensures fd == -1 && !workFlag && !hasWorker && packet == null
      ensures Config() == Settings("", "", 0, -1, Some(startSec))
      ensures fresh(session) && fresh(session.logger) && fresh(session.counters)
      ensures session.line == line
      ensures session.State() == SessionState(line.input, line.writes, line.output, 0, 0,
                                              LogState("", "", 0, 0, []), files, [])
    {
      this.device := device;
      this.para := para;
      this.startSec := startSec;
      var counters := new PacketCounters();
      session := new SerialSession(line, counters, files);
      fd := -1;
      workFlag := false;
      hasWorker := false;
      packet := null;
      this.attrs := attrs;
      netDev := "";
      gpsFile := "";
      gpsLine := 0;
      timeDiff := -1;
    }

    /** Closes the descriptor if there is one; closing twice does nothing more. */
    method Close()
      modifies this
      ensures fd == if old(fd) < 0 then old(fd) else -1
      ensures packet == old(packet) && attrs == old(attrs) && Config() == old(Config())
      ensures workFlag == old(workFlag) && hasWorker == old(hasWorker)
    {
      if fd < 0 {
        return;
      }
      fd := -1;
    }

    /**
     * As `TtyHandler.Init`, except that a successful `init` always allocates a new
     * buffer, releasing any previous one.
     */
    method Init(openFd: Option<nat>, speedSetOk: bool, getOk: bool, paritySetOk: bool) returns (r: int)
      requires Valid()
      modifies this
      ensures Valid()
      ensures old(fd) > 0 ==> r == 0 && fd == old(fd) && packet == old(packet) && attrs == old(attrs)
      ensures old(fd) <= 0 && openFd.None? ==> r == -1 && fd == -1 && packet == old(packet) && attrs == old(attrs)
      ensures old(fd) <= 0 && openFd.Some? ==>
        var s := LineSetup(old(attrs), para, speedSetOk, getOk, paritySetOk);
        attrs == s.attrs
        && (s.ok ==> r == 0 && fd == openFd.value && packet != null && fresh(packet))
        && (!s.ok ==> r == -1 && fd == -1 && packet == old(packet))
      ensures Config() == old(Config()) && workFlag == old(workFlag) && hasWorker == old(hasWorker)
    {
      if fd > 0 {
        return 0;
      }
      fd := if openFd.Some? then openFd.value else -1;
      if fd < 0 {
        return -1;
      }
      var rs, t1 := SetSpeed(attrs, para, speedSetOk);
      attrs := t1;
      if rs != 0 {
        Close();
        return -1;
      }
      var rp, t2 := SetParity(attrs, para, getOk, paritySetOk);
      attrs := t2;
      if rp != 0 {
        Close();
        return -1;
      }
      packet := new byte[SerialPacketSize];
      return 0;
    }

    /** Sets the work flag and creates the worker unless one exists. */
    method Start()
      modifies this
      ensures workFlag && hasWorker
      ensures fd == old(fd) && packet == old(packet) && attrs == old(attrs) && Config() == old(Config())
    {
      workFlag := true;
      hasWorker := true;
    }

    /** Clears the work flag and joins the worker, which then no longer exists. */
    method Stop()
      modifies this
      ensures !workFlag && !hasWorker
      ensures fd == old(fd) && packet == old(packet) && attrs == old(attrs) && Config() == old(Config())
    {
      workFlag := false;
      hasWorker := false;
    }

    /** `ttyProcess`: one pass per moment while the work flag is set. */
    method TtyProcess(ms: seq<Moment>)
      requires Valid()
      modifies this, session, session.line, session.counters, session.logger, packet
      ensures Valid()
      ensures old(fd) < 0 || old(packet) == null ==> !workFlag && session.State() == old(session.State())
      ensures old(fd) >= 0 && old(packet) != null ==>
        workFlag == old(workFlag)
        && session.State() == (if workFlag then SerialRun(old(session.State()), ms, Config()) else old(session.State()))
      ensures fd == old(fd) && packet == old(packet) && hasWorker == old(hasWorker) && attrs == old(attrs)
      ensures Config() == old(Config())
    {
      if fd < 0 || packet == null {
        workFlag := false;
        return;
      }
      if workFlag {
        session.Run(packet, ms, Config());
      }
    }

    /** `setInterface`: the interface whose address the heartbeat reports. */
    method SetInterface(dev: string)
      modifies this
      ensures Config() == old(Config()).(netDev := dev)
      ensures fd == old(fd) && packet == old(packet) && attrs == old(attrs)
      ensures workFlag == old(workFlag) && hasWorker == old(hasWorker)
    {
      netDev := dev;
    }

    method SetDataOutputFile(filename: string, maxLines: int)
      requires Valid()
      modifies session.logger
      ensures Valid()
      ensures session.logger.State() ==
        old(session.logger.State()).(outputFile := filename, maxLines := maxLines, curLines := maxLines)
    {
      session.logger.SetDataOutputFile(filename, maxLines);
    }

    method SetGpsDataOutputFile(filename: string, lineNumber: int)
      modifies this
      ensures Config() == old(Config()).(gpsFile := filename, gpsLine := lineNumber)
      ensures fd == old(fd) && packet == old(packet) && attrs == old(attrs)
      ensures workFlag == old(workFlag) && hasWorker == old(hasWorker)
    {
      gpsFile := filename;
      gpsLine := lineNumber;
    }

    method SetTimeDiff(diff: int)
      modifies this
      ensures Config() == old(Config()).(timeDiff := diff)
      ensures fd == old(fd) && packet == old(packet) && attrs == old(attrs)
      ensures workFlag == old(workFlag) && hasWorker == old(hasWorker)
    {
      timeDiff := diff;
    }
  }

  /** With no GPS file configured, the line number is never read: the files stay as they are. */
  lemma {:induction false} NoGpsFileIgnoresLine(files: map<string, string>, c: Settings, text: string, writeOk: bool)
    requires c.gpsFile == ""
    ensures GpsFileAfter(files, c, text, writeOk) == files
  {
  }
}
