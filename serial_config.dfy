/**
 * The line settings of the serial handlers (`ttyPara`, `setSpeed`, `setParity`).
 * The terminal attributes are a record of the flags the handlers touch; the
 * baud-rate constants are the rates themselves.
 */
module SerialConfig {
  import opened Wire

  /** `ttyPara`: baud rate, data bits, stop bits, parity (0 none, 1 odd, 2 even, 3 cleared). */
  datatype TtyPara = TtyPara(speed: int, databits: int, stopbits: int, parity: int)

  /** The defaults: 115200 baud, 8 data bits, 1 stop bit, no parity. */
  const DefaultPara: TtyPara := TtyPara(115200, 8, 1, 0)

  /** The rates `setSpeed` accepts, in the order of its table. */
  const Rates: seq<int> := [38400, 19200, 9600, 4800, 2400, 1200, 600, 230400, 115200, 57600, 1800]

  /** The `c_cflag` bits the handlers touch. */
  datatype ControlModes = ControlModes(
    charSize: int,       // CS7 or CS8 within CSIZE
    parityEnable: bool,  // PARENB
    parityOdd: bool,     // PARODD
    twoStopBits: bool,   // CSTOPB
    rtsCts: bool,        // CRTSCTS
    clocal: bool,        // CLOCAL
    cread: bool)         // CREAD

  /** The `c_lflag` bits: ICANON, ECHO, ECHOE, ISIG. */
  datatype LocalModes = LocalModes(canonical: bool, echo: bool, echoErase: bool, signals: bool)

  /** The `c_iflag` bits: INPCK, ICRNL, IXON. */
  datatype InputModes = InputModes(parityCheck: bool, crToNl: bool, xon: bool)

  /** The terminal attributes `setSpeed` and `setParity` read and write. */
  datatype Termios = Termios(
    ispeed: int, ospeed: int,
    cflag: ControlModes, lflag: LocalModes, iflag: InputModes,
    opost: bool,             // OPOST in c_oflag
    vmin: int, vtime: int)   // c_cc[VMIN], c_cc[VTIME]

  /** Where `speed` first appears in the table of rates. */
  function RateIndex(speed: int): (r: Option<nat>)
    ensures r.Some? ==> r.value < |Rates| && Rates[r.value] == speed
    ensures r.None? <==> speed !in Rates
  {
    if speed in Rates then Some(IndexFrom(speed, 0)) else None
  }

  function IndexFrom(speed: int, i: nat): (k: nat)
    requires i <= |Rates| && speed in Rates[i..]
    ensures i <= k < |Rates| && Rates[k] == speed
    decreases |Rates| - i
  {
    if Rates[i] == speed then i else IndexFrom(speed, i + 1)
  }

  /** The attributes with both speeds set to `speed`. */
  function WithSpeed(t: Termios, speed: int): Termios
  {
    t.(ispeed := speed, ospeed := speed)
  }

  /**
   * `setParity` on the attributes `t`: raw mode, the character size, the parity and
   * the stop bits, no hardware flow control, reads that wait for one byte with a
   * one-second inter-byte timeout. None when a setting is unsupported.
   */
  function ParityApplied(t: Termios, p: TtyPara): Option<Termios>
  {
    if p.databits != 7 && p.databits != 8 then None
    else
      var sized := Raw(t).(cflag := t.cflag.(charSize := p.databits));
      match ParityBits(sized, p.parity)
      case None => None
      case Some(a) =>
        match StopBits(a.cflag, p.stopbits)
        case None => None
        case Some(c) => Some(ReadTimeouts(a.(cflag := c)))
  }

  /** No output processing, no canonical mode, no echo, no signals. */
  function Raw(t: Termios): Termios
  {
    t.(opost := false, lflag := LocalModes(false, false, false, false))
  }

  /** The parity switch; parity 0 also clears CSTOPB. */
  function ParityBits(t: Termios, parity: int): Option<Termios>
  {
    var c := t.cflag;
    if parity == 0 then Some(t.(cflag := c.(parityEnable := false, twoStopBits := false)))
    else if parity == 1 then Some(t.(cflag := c.(parityOdd := true, parityEnable := true), iflag := t.iflag.(parityCheck := true)))
    else if parity == 2 then Some(t.(cflag := c.(parityEnable := true, parityOdd := false), iflag := t.iflag.(parityCheck := true)))
    else if parity == 3 then Some(t.(cflag := c.(parityEnable := false)))
    else None
  }

  /** The stop-bits switch. */
  function StopBits(c: ControlModes, stopbits: int): Option<ControlModes>
  {
    if stopbits == 1 then Some(c.(twoStopBits := false))
    else if stopbits == 2 then Some(c.(twoStopBits := true))
    else None
  }

  /**
   * No RTS/CTS, local and receiving; reads of at least one byte with a one-second
   * timeout; no CR-to-NL mapping and no XON/XOFF.
   */
  function ReadTimeouts(t: Termios): Termios
  {
    t.(cflag := t.cflag.(rtsCts := false, clocal := true, cread := true),
       vtime := 10, vmin := 1,
       iflag := t.iflag.(crToNl := false, xon := false))
  }

  /** The settings are refused exactly when one of the three is unsupported. */
  lemma {:induction false} ParityAppliedRejects(t: Termios, p: TtyPara)
    ensures ParityApplied(t, p).None? <==>
      (p.databits !in {7, 8} || !(0 <= p.parity <= 3) || p.stopbits !in {1, 2})
  {
  }

  /**
   * Accepted settings: raw 7- or 8-bit characters, the stop bits asked for (the
   * CSTOPB clear of parity 0 is always overridden), no RTS/CTS, VMIN 1 and VTIME 10,
   * the speeds untouched.
   */
  lemma {:induction false} ParityAppliedSettings(t: Termios, p: TtyPara)
    requires ParityApplied(t, p).Some?
    ensures var u := ParityApplied(t, p).value;
      u.cflag.charSize == p.databits && (u.cflag.twoStopBits <==> p.stopbits == 2)
      && !u.cflag.rtsCts && u.cflag.clocal && u.cflag.cread
      && u.vmin == 1 && u.vtime == 10
      && u.lflag == LocalModes(false, false, false, false) && !u.opost
      && !u.iflag.crToNl && !u.iflag.xon
      && u.ispeed == t.ispeed && u.ospeed == t.ospeed
  {
  }

  /** Parity is enabled for 1 (odd) and 2 (even) only. */
  lemma {:induction false} ParityAppliedEnables(t: Termios, p: TtyPara)
    requires ParityApplied(t, p).Some?
    ensures ParityApplied(t, p).value.cflag.parityEnable <==> p.parity == 1 || p.parity == 2
  {
  }

  /** Parity 1 is odd parity with input checking. */
  lemma {:induction false} ParityAppliedOdd(t: Termios, p: TtyPara)
    requires ParityApplied(t, p).Some? && p.parity == 1
    ensures ParityApplied(t, p).value.cflag.parityOdd && ParityApplied(t, p).value.iflag.parityCheck
  {
  }

  /** Parity 2 is even parity with input checking. */
  lemma {:induction false} ParityAppliedEven(t: Termios, p: TtyPara)
    requires ParityApplied(t, p).Some? && p.parity == 2
    ensures !ParityApplied(t, p).value.cflag.parityOdd && ParityApplied(t, p).value.iflag.parityCheck
  {
  }

  /** Parity 0 and 3 leave PARODD and INPCK as they were. */
  lemma {:induction false} ParityAppliedKeeps(t: Termios, p: TtyPara)
    requires ParityApplied(t, p).Some? && (p.parity == 0 || p.parity == 3)
    ensures ParityApplied(t, p).value.cflag.parityOdd == t.cflag.parityOdd
    ensures ParityApplied(t, p).value.iflag.parityCheck == t.iflag.parityCheck
  {
  }

  /** The defaults are accepted: 8N1. */
  lemma {:induction false} DefaultParaAccepted(t: Termios)
    ensures ParityApplied(t, DefaultPara).Some?
    ensures RateIndex(DefaultPara.speed) == Some(8)
  {
    assert Rates[8] == 115200;
  }

  /**
   * The table search of `setSpeed`: the index of the first rate equal to `speed`, or
   * None after all eleven entries.
   */
  method FindRate(speed: int) returns (r: Option<nat>)
    ensures r == RateIndex(speed)
  {
    var i := 0;
    while i < |Rates|
      invariant 0 <= i <= |Rates|
      invariant speed !in Rates[..i]
      decreases |Rates| - i
    {
      if Rates[i] == speed {
        assert speed in Rates[i..];
        FirstIndex(speed, i);
        return Some(i);
      }
      assert Rates[..i + 1] == Rates[..i] + [Rates[i]];
      i := i + 1;
    }
    assert Rates[..i] == Rates;
    return None;
  }

  /** Where the search first meets `speed` is where `RateIndex` points. */
  lemma {:induction false} FirstIndex(speed: int, i: nat)
    requires i < |Rates| && Rates[i] == speed && speed !in Rates[..i]
    ensures RateIndex(speed) == Some(i)
  {
    var j := 0;
    while j < i
      invariant j <= i && IndexFrom(speed, j) == IndexFrom(speed, 0)
      decreases i - j
    {
      assert Rates[j] == Rates[..i][j];
      assert Rates[j + 1..][i - j - 1] == speed;
      j := j + 1;
    }
  }

  /**
   * `setSpeed` on the attributes `t`: both speeds set to the first matching rate of
   * the table. `setOk` says whether `tcsetattr` succeeds. It returns 0 or -1 and the
   * attributes the device then has.
   */
  method SetSpeed(t: Termios, p: TtyPara, setOk: bool) returns (r: int, u: Termios)
    ensures r == 0 <==> p.speed in Rates && setOk
    ensures r == 0 || r == -1
    ensures u == if r == 0 then WithSpeed(t, p.speed) else t
  {
    var k := FindRate(p.speed);
    if k.None? {
      return -1, t;
    }
    if !setOk {
      return -1, t;
    }
    return 0, WithSpeed(t, Rates[k.value]);
  }

  /**
   * `setParity` on the attributes `t`: `getOk` and `setOk` say whether `tcgetattr`
   * and `tcsetattr` succeed. The settings are made one switch at a time, as the
   * handler does; the device keeps `t` unless all of them succeed.
   */
  method SetParity(t: Termios, p: TtyPara, getOk: bool, setOk: bool) returns (r: int, u: Termios)
    ensures r == 0 <==> getOk && setOk && ParityApplied(t, p).Some?
    ensures r == 0 || r == -1
    ensures u == if r == 0 then ParityApplied(t, p).value else t
  {
    if !getOk {
      return -1, t;
    }
    var o := t;
    o := o.(opost := false);
    o := o.(cflag := o.cflag.(charSize := 0));
    o := o.(lflag := LocalModes(false, false, false, false));
    if p.databits == 7 || p.databits == 8 {
      o := o.(cflag := o.cflag.(charSize := p.databits));
    } else {
      return -1, t;
    }
    var parityOk, o1 := SetParityBits(o, p.parity);
    if !parityOk {
      return -1, t;
    }
    var stopOk, c := SetStopBits(o1.cflag, p.stopbits);
    if !stopOk {
      return -1, t;
    }
    o := o1.(cflag := c.(rtsCts := false));
    o := o.(vtime := 10, vmin := 1);
    o := o.(iflag := o.iflag.(crToNl := false, xon := false));
    o := o.(cflag := o.cflag.(clocal := true, cread := true));
    if !setOk {
      return -1, t;
    }
    return 0, o;
  }

  method SetParityBits(t: Termios, parity: int) returns (ok: bool, u: Termios)
    ensures ok <==> ParityBits(t, parity).Some?
    ensures ok ==> u == ParityBits(t, parity).value
  {
    ok := true;
    u := t;
    if parity == 0 {
      u := u.(cflag := u.cflag.(parityEnable := false));
      u := u.(cflag := u.cflag.(twoStopBits := false));
    } else if parity == 1 {
      u := u.(cflag := u.cflag.(parityOdd := true, parityEnable := true));
      u := u.(iflag := u.iflag.(parityCheck := true));
    } else if parity == 2 {
      u := u.(cflag := u.cflag.(parityEnable := true));
      u := u.(cflag := u.cflag.(parityOdd := false));
      u := u.(iflag := u.iflag.(parityCheck := true));
    } else if parity == 3 {
      u := u.(cflag := u.cflag.(parityEnable := false));
    } else {
      ok := false;
    }
  }

  method SetStopBits(c: ControlModes, stopbits: int) returns (ok: bool, u: ControlModes)
    ensures ok <==> StopBits(c, stopbits).Some?
    ensures ok ==> u == StopBits(c, stopbits).value
  {
    ok := true;
    u := c;
    if stopbits == 1 {
      u := u.(twoStopBits := false);
    } else if stopbits == 2 {
      u := u.(twoStopBits := true);
    } else {
      ok := false;
    }
  }

  /** What `init` leaves on the device: whether the setup succeeded, and the attributes. */
  datatype Setup = Setup(ok: bool, attrs: Termios)

  /**
   * The speed, then the parity: a speed failure leaves the attributes alone, a parity
   * failure leaves the new speed in place.
   */
  function LineSetup(t: Termios, p: TtyPara, speedSetOk: bool, getOk: bool, paritySetOk: bool): Setup
  {
    if p.speed !in Rates || !speedSetOk then Setup(false, t)
    else
      var s := WithSpeed(t, p.speed);
      match ParityApplied(s, p)
      case Some(u) => if getOk && paritySetOk then Setup(true, u) else Setup(false, s)
      case None => Setup(false, s)
  }

  /**
   * The setup succeeds exactly when the rate is in the table, the three settings are
   * supported and the three attribute calls succeed; the line then runs at that rate
   * in raw mode with the settings asked for.
   */
  lemma {:induction false} LineSetupOk(t: Termios, p: TtyPara, speedSetOk: bool, getOk: bool, paritySetOk: bool)
    ensures var s := LineSetup(t, p, speedSetOk, getOk, paritySetOk);
      s.ok <==> (p.speed in Rates && speedSetOk && getOk && paritySetOk
                 && p.databits in {7, 8} && 0 <= p.parity <= 3 && p.stopbits in {1, 2})
    ensures var s := LineSetup(t, p, speedSetOk, getOk, paritySetOk);
      s.ok ==> s.attrs.ispeed == p.speed && s.attrs.ospeed == p.speed && s.attrs.cflag.charSize == p.databits
               && (s.attrs.cflag.twoStopBits <==> p.stopbits == 2)
               && (s.attrs.cflag.parityEnable <==> p.parity == 1 || p.parity == 2)
               && !s.attrs.lflag.canonical && !s.attrs.cflag.rtsCts && s.attrs.vmin == 1 && s.attrs.vtime == 10
  {
    var w := WithSpeed(t, p.speed);
    ParityAppliedRejects(w, p);
    if ParityApplied(w, p).Some? {
      ParityAppliedSettings(w, p);
      ParityAppliedEnables(w, p);
    }
  }
}
