# Telemetry link and OSD helpers: a Dafny model

This project models the protocol core of a small embedded telemetry demo. The
demo is a set of C++ programs for a camera board. A UDP handler (`NetHandler`)
takes control frames from a ground station. Two serial handlers (`TtyHandler`,
and its standalone twin `ModuleTtyProcess`) take GPS and device frames from a
flight controller. An OSD module (`ModuleOsd`) reads a configuration file and
stamps a video overlay. A dump utility writes video buffers to files.

What is modelled:

- **CRC-16/X-25** (`crc16.dfy`). This is the table-driven checksum both handlers use. It has preset 0xFFFF, reflected polynomial 0x8408 and a final XOR of 0xFFFF, i.e. the FCS-16 of section C.2 of RFC 1662. The table is proved entry by entry equal to eight bit-serial steps of the polynomial. The loop is proved equal to a recursive specification, and the check value over "123456789" is 0x906E. Also proved: compositionality over concatenation, detection of every single-byte error, and the "frame = message + little-endian FCS" round trip. The source has two identical copies of the function and its table, and both are modelled by this one module.
- **Little-endian packed fields** (`wire.dfy`). Wire structs are packed host structs on a little-endian target. This file reads and writes 16- and 32-bit fields, with both round trips proved.
- **The UDP frame check** (`udp_frame.dfy`):
  - The datagram check: minimum size, `EE AA` marker, announced length, then checksum.
  - The commands chosen for the device, OSD and IP frames, including the prefix length counted from the mask word.
  - The 18-byte heartbeat reply.
- **The UDP handler** (`net_handler.dfy`). `NetHandler` is a class with the source's fields. Its receive loop is a method proved equal to a run of turns over abstract socket events. It has lemmas about what a run logs, which commands it runs, and which heartbeats it sends.
- **The data log** (`rotating_log.dfy`). This is the rotation state all three handlers share: a maximum number of lines per file, and a new time-stamped file once the count reaches it.
- **The serial line** (`serial_link.dfy`). `readn` and `writen` are loops over a sequence of read and write outcomes (data, timeout, end of file, interrupted call, error), proved against recursive specifications.
- **The serial frame reader** (`serial_frame.dfy`, `serial_session.dfy`):
  - The byte-at-a-time `FF BB <len>` resynchronising reader, with its length check, body read and checksum test, proved to consume exactly the accepted frame.
  - The dispatch by id and the frame counters.
  - The 22-byte heartbeat.
  - The 21-byte GPS record.
  - The clock-correction decision.
  - The hex-dump data log.
  - The GPS position file.
- **Serial parameters** (`serial_config.dfy`). These are the speed table and the data-bits, parity and stop-bits switches, over an abstract record of terminal flags.
- **The handler objects** (`serial_handlers.dfy`). These are `TtyHandler` and `ModuleTtyProcess` with `init`, `close`, `start`, `stop` and the setters.
- **`writeStringToLine`** (`line_file.dfy`). It replaces one line of a text file, padding with empty lines when the file is shorter.
- **The hex dump** (`hex_dump.dfy`). This is `bytesToHexString`, proved injective by a parser that reads the dump back.
- **IPv4 text** (`ipv4_text.dfy`). These are the `inet_pton`/`inet_ntop` conversions the handlers use, with the round trip.
- **The message queue** (`message_queue.dfy`). This is `MessageQueue` as a sequential FIFO.
- **The OSD helpers** (`osd.dfy`):
  - the configuration parser: tokens, quoted text, integer fields and the file-duration scaling;
  - the overlay text list;
  - the display-plane rectangle;
  - the recording-rollover trigger.
- **The video dump** (`video_dump.dfy`). The stride-padded buffer is serialised to a packed byte stream for NV16, NV12/NV21, YUV420, NV24, GREY and the packed RGB formats. It is proved equal to a plane-by-plane specification.

Sockets, the serial device, the clock, `system()` and the file system are outside the model. What they return is a parameter, and what the program hands to them is recorded in order, except that a gradual clock correction is recorded with the offset it is meant to apply (see Findings).

## Model

| member | source | states |
|---|---|---|
| Wire.U16At | demo/ttyHandler.cpp:463 | the little-endian u16 read at an offset has the two stored bytes as low and high byte |
| Wire.U32At | demo/ttyHandler.cpp:54-68 | the little-endian u32 read at an offset has the four stored bytes in order |
| Wire.U16AtSplice | demo/netHandler.cpp:45-52 | a u16 field written anywhere in a message reads back as the stored value |
| Wire.U32AtSplice | demo/netHandler.cpp:45-52 | a u32 field written anywhere in a message reads back as the stored value |
| Wire.LeU16OfU16At | demo/ttyHandler.cpp:463 | writing back a u16 that was read reproduces the two bytes exactly |
| Wire.LeU32OfU32At | demo/ttyHandler.cpp:70-75 | writing back a u32 that was read reproduces the four bytes exactly |
| Wire.U16AtDiffers | demo/ttyHandler.cpp:463 | two different byte pairs read as two different values |
| Crc16X25.TableIsReflected8408 | demo/netHandler.cpp:427-452 | every table entry is eight bit-serial steps of the reflected polynomial 0x8408 on its index; the high byte of an entry determines the index |
| Crc16X25.TableHighByteInjective | demo/netHandler.cpp:427-452 | different indices have table entries with different high bytes |
| Crc16X25.CalculateCrc16X25 | demo/netHandler.cpp:454-462 | the table loop over the first `length` bytes returns the recursive CRC-16/X-25 of those bytes |
| Crc16X25.CheckValue | demo/netHandler.cpp:454-462 | CRC-16/X-25 of "123456789" is 0x906E, and of the empty message 0x0000 |
| Crc16X25.FeedAppend | demo/netHandler.cpp:456-458 | checksumming `a + b` continues from the register left by `a` |
| Crc16X25.FeedInjective | demo/netHandler.cpp:456-458 | when one update is injective in the register, feeding any data is too |
| Crc16X25.StepInjective | demo/netHandler.cpp:456-458 | for a fixed byte, different registers update to different registers |
| Crc16X25.StepSeparatesBytes | demo/netHandler.cpp:456-458 | from a fixed register, different bytes lead to different registers |
| Crc16X25.SingleByteErrorDetected | demo/netHandler.cpp:454-462 | two messages of equal length differing in exactly one byte have different checksums |
| Crc16X25.FcsOkIsAppended | demo/netHandler.cpp:181-183 | a frame that passes the check is its message followed by the little-endian checksum of the message |
| Crc16X25.FcsOfAppended | demo/netHandler.cpp:326 | a message followed by its checksum passes the check |
| Crc16X25.MessageChangeBreaksFcs | demo/netHandler.cpp:181-183 | changing one message byte of a passing frame makes it fail |
| Crc16X25.FieldChangeBreaksFcs | demo/netHandler.cpp:181-183 | changing one checksum byte of a passing frame makes it fail |
| Crc16X25.ByteChangeBreaksFcs | demo/ttyHandler.cpp:462-468 | changing any single byte of a passing frame makes it fail |
| HexDump.ByteHex | demo/netHandler.cpp:482-484 | a byte prints as one upper-case hex digit below 16 and as two digits, the first non-zero, from 16 on |
| HexDump.BytesToHexString | demo/netHandler.cpp:479-487 | the dump of n bytes has between 4n and 5n characters; what the dump means is fixed by HexDumpRoundTrip |
| HexDump.ParseChunk | demo/netHandler.cpp:484 | reading `0x<hex> ` followed by any text yields that byte, then whatever the text yields |
| HexDump.HexDumpRoundTrip | demo/netHandler.cpp:479-487 | reading the dump back gives exactly the dumped bytes |
| HexDump.HexDumpInjective | demo/tty_process.cpp:662-670 | two different frames never have the same dump line |
| HexDump.HexDumpExamples | demo/netHandler.cpp:482-484 | 0x0A dumps as `0xA `, and EE 00 as `0xEE 0x0 ` (no zero padding) |
| Ipv4Text.Decimal | demo/netHandler.cpp:288 | decimal text is non-empty digits without a leading zero, at most three digits below 1000 |
| Ipv4Text.DecimalRoundTrip | demo/netHandler.cpp:288 | the value of the decimal text of n is n |
| Ipv4Text.ParseIPv4 | demo/netHandler.cpp:107 | an address read from text has four bytes |
| Ipv4Text.FormatIPv4 | demo/netHandler.cpp:288 | a dotted-quad address text has 7 to 15 characters |
| Ipv4Text.ParseOctetOfDecimal | demo/netHandler.cpp:288 | the decimal text of a byte reads back as that byte |
| Ipv4Text.FieldsOfFormat | demo/netHandler.cpp:288 | the text of an address splits at its dots into the decimal texts of its four bytes |
| Ipv4Text.FormatParseRoundTrip | demo/netHandler.cpp:288-297 | what `inet_ntop` writes, `inet_pton` reads back as the same four bytes |
| Ipv4Text.ParseIPv4Accepts | demo/netHandler.cpp:107 | "192.168.1.1" reads as C0 A8 01 01 |
| Ipv4Text.ParseIPv4RejectsBadComponent | demo/netHandler.cpp:107 | four dotted components with one that is not an octet are rejected |
| Ipv4Text.ParseIPv4RejectsThreeComponents | demo/netHandler.cpp:107 | three dotted components are rejected |
| Ipv4Text.OctetExamples | demo/netHandler.cpp:107 | "256" and "01" are not octets; "0" is |
| UdpFrame.CheckDatagram | demo/netHandler.cpp:166-186 | an accepted datagram yields a prefix frame of its announced length, at least 6, with the EE AA marker, the id at offset 3, the payload from offset 4 (checksum included) and a valid trailing checksum |
| UdpFrame.CheckDatagramCases | demo/netHandler.cpp:166-186 | a datagram is accepted exactly when it has 4 bytes, the marker, at least the announced length, a length of at least 6 and a valid checksum; the frame is then the first `len` bytes |
| UdpFrame.CheckDatagramAsWritten | demo/netHandler.cpp:166-186 | the check as written never reports a too-small length (it has no such test) |
| UdpFrame.AsWrittenAgreesFromSix | demo/netHandler.cpp:175-182 | the written check agrees with the guarded one on every datagram the guard does not reject as too short, and differs on every one it does |
| UdpFrame.AsWrittenNeverWraps | demo/netHandler.cpp:181-209 | a marked frame of length 2 or 3 never passes the checksum, so the payload length `len - 4` never wraps as written |
| UdpFrame.AsWrittenReadsBeforeBufferExample | demo/netHandler.cpp:175-182 | `EE AA 00 00` passes the written checks and reads the checksum two bytes before the buffer |
| UdpFrame.AsWrittenAcceptsOverlapExample | demo/netHandler.cpp:175-182 | a 5-byte frame whose checksum overlaps its id byte is accepted as written and rejected by the guard |
| UdpFrame.EncodeDatagram | demo/netHandler.cpp:31-36 | a frame of a body of n bytes has n + 6 bytes |
| UdpFrame.EncodedLayout | demo/netHandler.cpp:31-36 | an encoded frame is `EE AA <len> <id>`, the body and the checksum of everything before it, and passes the checksum test |
| UdpFrame.EncodedAccepted | demo/netHandler.cpp:166-186 | an encoded frame, with anything received after it, is accepted as that frame with its id and payload |
| UdpFrame.AcceptedIsEncoded | demo/netHandler.cpp:166-186 | every accepted frame is exactly the encoding of its id and body |
| UdpFrame.FrameIsEncoded | demo/netHandler.cpp:166-186 | a frame with marker, matching length and valid checksum is the encoding of its id and body |
| UdpFrame.CorruptionDetected | demo/netHandler.cpp:180-186 | changing any byte after the marker and length of an accepted frame makes the datagram fail the checksum |
| UdpFrame.DeviceCommand | demo/netHandler.cpp:223-239 | a command runs exactly when the payload is non-empty with a first byte of 0 or 1, and it is "poweroff" |
| UdpFrame.OsdCommand | demo/netHandler.cpp:244-262 | a command runs exactly when the payload is non-empty with a first byte of 0, 1 or 2; 0 runs `systemctl stop`, 1 `systemctl start` and 2 `systemctl restart` of `ffmedia-capture.service` |
| UdpFrame.OsdCommandsDistinct | demo/netHandler.cpp:250-255 | two OSD payloads select the same command exactly when their first bytes are equal |
| UdpFrame.MaskCidrBound | demo/netHandler.cpp:278-285 | the prefix length counted from any mask field lies between 0 and 32 |
| UdpFrame.CountCidr | demo/netHandler.cpp:278-285 | the loop returns the number of set bits of the mask word below its lowest clear bit, at most 32 |
| UdpFrame.PrefixLength | demo/netHandler.cpp:278-285 | the prefix a netmask denotes (its leading set bits in network order) is at most 32 |
| UdpFrame.PrefixLengthOfNetmask | demo/netHandler.cpp:278-285 | for every /p netmask, the prefix length read from it is p |
| UdpFrame.CidrOfByteAlignedMask | demo/netHandler.cpp:278-285 | for a mask of k whole bytes of 255, the loop's count is 8k, which is the mask's prefix length |
| UdpFrame.CidrOfUnalignedMask | demo/netHandler.cpp:278-285 | for 255.255.240.0 the loop counts 16 while the prefix is 20 |
| UdpFrame.IpConfigCommand | demo/netHandler.cpp:267-305 | a command is produced exactly when the payload holds the 12-byte address record; its text is fixed by IpConfigCommandAddresses |
| UdpFrame.IpCommandsFitBuffer | demo/netHandler.cpp:299-308 | both `nmcli` commands, with their terminating NUL, fit in the buffer sized by `cmdSize` |
| UdpFrame.IpConfigCommandAddresses | demo/netHandler.cpp:278-305 | the command is `nmcli c m <netDev> ipv4.addresses <a>/<d> ipv4.gateway <g>`, where `a` and `g` read back by `inet_pton` as the record's address and gateway bytes and `d` reads back as the mask loop's count, at most 32 |
| UdpFrame.IpConfigCommandAlignedPrefix | demo/netHandler.cpp:278-303 | for a mask of k whole bytes of 255, the prefix in the command is the mask's prefix length, 8k |
| UdpFrame.FrameCommands | demo/netHandler.cpp:201-213 | a frame runs at most two commands; an unknown id runs none; a second command is `nmcli c up` after a successful first one on an IP frame |
| UdpFrame.EncodeNetRespond | demo/netHandler.cpp:317-326 | the heartbeat reply has 18 bytes |
| UdpFrame.NetRespondRoundTrip | demo/netHandler.cpp:317-326 | the reply decodes to the uptime and the two counters it was built from, with marker `EE BB`, length 18, id 1 and a valid checksum |
| UdpFrame.NetRespondIsNotACommand | demo/netHandler.cpp:320 | the reply's `EE BB` marker makes a handler reject it as a command |
| NetHandling.DatagramOf | demo/netHandler.cpp:166 | the datagram seen is at most 1500 bytes, a prefix of what arrived (all of it when shorter than the buffer), and empty on a timeout or error |
| NetHandling.AcceptedCount | demo/netHandler.cpp:164-186 | a run accepts at most one datagram per event |
| NetHandling.AcceptedFrameRechecks | demo/netHandler.cpp:166-186 | an accepted frame, checked again on its own, is accepted as the same frame |
| NetHandling.TrailerMatches | demo/netHandler.cpp:181-183 | comparing the stored checksum with the computed one holds exactly when the frame passes the checksum test |
| NetHandling.TurnRejected | demo/netHandler.cpp:166-186 | a datagram failing any check changes nothing |
| NetHandling.DispatchedReplies | demo/netHandler.cpp:216 | an accepted frame sends exactly one heartbeat, to the configured peer and port, after the earlier ones |
| NetHandling.DispatchedCommands | demo/netHandler.cpp:201-213 | an accepted frame adds at most two commands after the earlier ones |
| NetHandling.HexOfFrameIsLoggedFrame | demo/netHandler.cpp:195 | the log line of an accepted frame is the dump of a frame that passes the checks |
| NetHandling.LoggedFrameLine | demo/netHandler.cpp:189-198 | logging a frame line keeps the earlier lines and adds only frame lines, none when logging is off or the write fails |
| NetHandling.DispatchedLog | demo/netHandler.cpp:189-198 | an accepted frame's turn keeps the earlier log, adds only frame lines and keeps the line count consistent |
| NetHandling.AcceptedTurn | demo/netHandler.cpp:164-216 | an accepted turn dispatches exactly the frame the check returns |
| NetHandling.RunReplies | demo/netHandler.cpp:164-217 | a run sends one heartbeat per accepted datagram, each to the configured peer, after the earlier ones |
| NetHandling.RunCommands | demo/netHandler.cpp:164-217 | a run adds at most two commands per accepted datagram and none when nothing is accepted |
| NetHandling.RunLog | demo/netHandler.cpp:164-217 | a run keeps the earlier log lines, logs only frames and keeps the line count consistent |
| NetHandling.RunLogBounded | demo/netHandler.cpp:189-198 | with logging on and a positive maximum, the current count stays between 0 and the maximum |
| NetHandling.NetHandler.constructor | demo/netHandler.cpp:58-71 | no socket, no buffer, not working, timeout 1000 ms, peer 0.0.0.0:0, logging off, nothing done yet |
| NetHandling.NetHandler.SetNetworkDevice | demo/netHandler.cpp:96-99 | sets the interface name and nothing else |
| NetHandling.NetHandler.SetRemoteDeviceInfo | demo/netHandler.cpp:104-111 | the port is always set; the address only when the text reads as an IPv4 address |
| NetHandling.NetHandler.SetDataOutputFile | demo/netHandler.cpp:116-121 | sets the path and the maximum, and the count to the maximum so the next line opens a new file |
| NetHandling.NetHandler.Init | demo/netHandler.cpp:123-136 | returns 0 with nothing changed when a socket exists; -1 when none can be made; otherwise keeps the socket and allocates the buffer only once |
| NetHandling.NetHandler.Start | demo/netHandler.cpp:138-143 | sets the work flag and there is a worker afterwards |
| NetHandling.NetHandler.Stop | demo/netHandler.cpp:85-94 | clears the work flag and no worker remains |
| NetHandling.NetHandler.CheckReceived | demo/netHandler.cpp:167-186 | the buffer checks succeed exactly when the datagram is accepted, and `len` then delimits the accepted frame |
| NetHandling.NetHandler.HandleFrame | demo/netHandler.cpp:188-216 | logs, dispatches and answers the frame as the specification of one accepted turn says |
| NetHandling.NetHandler.Receive | demo/netHandler.cpp:166-216 | one loop turn: the datagram lands in the buffer and the history becomes the specified turn |
| NetHandling.NetHandler.Process | demo/netHandler.cpp:152-218 | without socket or buffer, clears the work flag and does nothing; otherwise, while the work flag is set, the history is the specified run over the events |
| DataLog.LoggedConsistent | demo/netHandler.cpp:189-198 | logging keeps the count equal to the lines written to the current file |
| DataLog.LoggedBounded | demo/netHandler.cpp:189-198 | with a positive maximum the count stays in [0, max]; a new time-stamped `.txt` file is taken exactly on rotation |
| DataLog.LoggedAppends | demo/netHandler.cpp:189-198 | a line is appended to the current file exactly when logging is on and the write succeeds |
| DataLog.RotatingLogger.constructor | demo/ttyHandler.cpp:80-87 | no path, maximum and count 0, nothing logged |
| DataLog.RotatingLogger.SetDataOutputFile | demo/tty_process.cpp:582-587 | sets path and maximum, and the count to the maximum |
| DataLog.RotatingLogger.Append | demo/ttyHandler.cpp:486-495 | the state after one line is the specified rotation step |
| Counters.PacketCounters.CountGps | demo/ttyHandler.cpp:474 | the GPS count goes up by one, modulo 2^32, and the device count is unchanged |
| Counters.PacketCounters.CountDevice | demo/ttyHandler.cpp:478 | the device count goes up by one, modulo 2^32, and the GPS count is unchanged |
| Counters.CountWraps | demo/netHandler.cpp:20-21 | a u32 counter below its maximum goes up by one; at 0xFFFFFFFF it wraps to 0 |
| Messages.MessageQueue.constructor | demo/demo_comm.hpp:11-16 | the queue starts empty |
| Messages.MessageQueue.Push | demo/demo_comm.hpp:18-23 | the string goes to the back |
| Messages.MessageQueue.Pop | demo/demo_comm.hpp:25-33 | the front string is returned and removed; the rest keeps its order |
| Messages.MessageQueue.Empty | demo/demo_comm.hpp:35-39 | true exactly when nothing is queued; the queue is unchanged |
| Messages.PushThenPop | demo/demo_comm.hpp:18-33 | pushing s1..sn and popping n times returns s1..sn in order and leaves the queue empty |
| SerialLink.ReadSpecBounds | demo/tty_process.cpp:270-301 | `readn(n)` returns -1 with nothing stored, or a count between 0 and n with that many bytes stored |
| SerialLink.ReadSpecConsumes | demo/tty_process.cpp:270-301 | the bytes `readn` stores are exactly the next bytes of the line |
| SerialLink.ReadSpecOfWaiting | demo/tty_process.cpp:281-299 | with n bytes waiting in one piece, `readn` returns them all and leaves the rest |
| SerialLink.WriteSpecAllOrFail | demo/tty_process.cpp:307-331 | `writen` returns n with all bytes taken, or -1 with a prefix of them taken |
| SerialLink.SerialLine.PollRead | demo/ttyHandler.cpp:216-241 | one poll and read: a timeout or end of file ends `readn`, an error fails it, an interrupted call leaves it to retry, a read stores at most what is missing |
| SerialLink.SerialLine.ReadN | demo/ttyHandler.cpp:216-241 | the loop returns what the recursive `readn` specification gives and consumes the same outcomes |
| SerialLink.SerialLine.WriteOnce | demo/ttyHandler.cpp:248-268 | one write: the line takes a non-empty prefix, or the call is interrupted or fails |
| SerialLink.SerialLine.WriteN | demo/ttyHandler.cpp:248-268 | the loop returns what the recursive `writen` specification gives, and the line has taken exactly its bytes |
| SerialFrame.NextByte | demo/ttyHandler.cpp:430 | reading one byte never consumes more outcomes than there are; which byte it reads is tied to the line by NextByteConsumes |
| SerialFrame.NextByteConsumes | demo/ttyHandler.cpp:430-431 | a byte read is the next byte of the line |
| SerialFrame.ReadHeaderConsumes | demo/ttyHandler.cpp:430-445 | a header read consumes exactly `FF BB <len>` from the line |
| SerialFrame.ReadBodyAccepts | demo/ttyHandler.cpp:444-468 | an accepted body makes a frame of 4 to 255 bytes with `FF BB <len>`, matching length and valid checksum, taken straight from the line |
| SerialFrame.FrameAttemptAccepts | demo/ttyHandler.cpp:424-468 | an accepted frame starts with FF BB, carries its own length of at least 4, and passes the checksum |
| SerialFrame.FrameAttemptConsumes | demo/ttyHandler.cpp:424-468 | an accepted frame is exactly the next bytes of the line, none skipped, none left behind |
| SerialFrame.ShortLengthRejected | demo/ttyHandler.cpp:446-452 | a length byte of 3 or less ends the attempt right after the header |
| SerialFrame.EncodedFrameAccepted | demo/ttyHandler.cpp:424-468 | a frame arriving whole is accepted as the frame sent, and nothing after it is read |
| SerialFrame.EncodedSerialFrame | demo/ttyHandler.cpp:444-468 | an encoded frame has 4 to 256 bytes, starts with FF BB, carries its own length and passes the checksum |
| SerialFrame.StrayMarkerLosesFrame | demo/ttyHandler.cpp:430-437 | after a stray FF, the frame's own FF is consumed as the failed second marker and the next attempt starts at its BB, so the frame is lost |
| SerialFrame.HeartbeatAddress | demo/ttyHandler.cpp:384 | the address reported is all ones when no interface is set, the interface's address otherwise |
| SerialFrame.EncodeTtyRespond | demo/ttyHandler.cpp:365-397 | the serial heartbeat has 22 bytes |
| SerialFrame.TtyRespondRoundTrip | demo/ttyHandler.cpp:365-397 | the heartbeat decodes to the four fields it was built from, with marker `EE AA`, length 22, id 6 and a valid checksum |
| SerialFrame.TtyRespondChecked | demo/ttyHandler.cpp:370-390 | the heartbeat starts `EE AA 16 06`, and bytes 20-21 are the checksum of the first 20 |
| SerialFrame.TtyRespondIsDatagram | demo/tty_process.cpp:465-484 | the serial heartbeat is a well-formed network frame with id 6 carrying the 16-byte record |
| SerialFrame.DecodeGpsInfo | demo/ttyHandler.cpp:306-313 | the record is read exactly when the payload holds its 21 bytes |
| SerialFrame.GpsInfoRoundTrip | demo/ttyHandler.cpp:54-68 | the packed record, followed by anything, reads back as the record |
| SerialFrame.GpsLatitudeOf | demo/ttyHandler.cpp:54-68 | latitude degrees, fraction and hemisphere lie at offsets 0, 2 and 6 |
| SerialFrame.GpsLongitudeOf | demo/ttyHandler.cpp:54-68 | longitude degrees, fraction and hemisphere lie at offsets 7, 9 and 13 |
| SerialFrame.GpsTimeOf | demo/ttyHandler.cpp:54-68 | year, month, day, hour, minute and second lie at offsets 14 to 20 |
| SerialFrame.Fixed4 | demo/ttyHandler.cpp:314-315 | `%0.4f` of k/10000 has a point five characters from its end |
| SerialFrame.Pad4Value | demo/ttyHandler.cpp:314-315 | four zero-padded digits read back as the number written |
| SerialFrame.Fixed4Value | demo/ttyHandler.cpp:314-315 | the digits of `%0.4f` of k/10000, point removed, read as k |
| SerialFrame.ClockDecisionBands | demo/ttyHandler.cpp:321-349 | with a tolerance t >= 0 and d the distance between system time and GPS time + 8 h: no action iff d < t/2, gradual iff t/2 <= d <= t, hard set iff d > t |
| SerialFrame.ClockDecisionMonotone | demo/ttyHandler.cpp:338-344 | a larger discrepancy never calls for a milder correction |
| SerialFrame.AdjtimeArgument | demo/ttyHandler.cpp:340-344 | the offset handed to a gradual adjustment takes the system time to the GPS local time |
| SerialFrame.GradualAdjustmentWithinTolerance | demo/ttyHandler.cpp:338-344 | whenever a gradual adjustment is chosen, its offset is within the tolerance |
| SerialFrame.AdjtimeAsWrittenExample | demo/ttyHandler.cpp:340-344 | a 6-second discrepancy with tolerance 10 is handed to `adjtime` as the absolute time 1700000006, where the offset is 6 |
| SerialConfig.RateIndex | demo/ttyHandler.cpp:95-116 | a table position holding the speed, or none exactly when the speed is not one of the 11 rates |
| SerialConfig.ParityAppliedRejects | demo/ttyHandler.cpp:120-194 | the settings are refused exactly when data bits are not 7 or 8, parity not 0-3, or stop bits not 1 or 2 |
| SerialConfig.ParityAppliedSettings | demo/ttyHandler.cpp:120-194 | accepted settings give the data bits, two stop bits iff 2, no RTS/CTS, CLOCAL and CREAD, VMIN 1, VTIME 10, raw mode, no CR/NL or XON, speeds kept |
| SerialConfig.ParityAppliedEnables | demo/ttyHandler.cpp:145-165 | parity is enabled exactly for parity 1 and 2 |
| SerialConfig.ParityAppliedOdd | demo/ttyHandler.cpp:151-155 | parity 1 sets odd parity and input checking |
| SerialConfig.ParityAppliedEven | demo/ttyHandler.cpp:156-160 | parity 2 sets even parity and input checking |
| SerialConfig.ParityAppliedKeeps | demo/ttyHandler.cpp:145-165 | parity 0 and 3 leave PARODD and INPCK as they were |
| SerialConfig.DefaultParaAccepted | demo/tty_process.hpp:18-23 | the defaults 115200/8/1/none are accepted |
| SerialConfig.FindRate | demo/ttyHandler.cpp:101-115 | the table loop finds the position the specification gives, or none |
| SerialConfig.SetSpeed | demo/ttyHandler.cpp:95-116 | 0 exactly when the speed is listed and the attributes are applied, with both speeds set; -1 otherwise with the attributes unchanged |
| SerialConfig.SetParity | demo/ttyHandler.cpp:120-194 | 0 exactly when the attributes are read, the three settings are supported and they are applied; -1 otherwise with the attributes unchanged |
| SerialConfig.SetParityBits | demo/ttyHandler.cpp:145-167 | the parity switch succeeds exactly for 0-3 and yields the specified flags |
| SerialConfig.SetStopBits | demo/ttyHandler.cpp:168-178 | the stop-bits switch succeeds exactly for 1 and 2 and yields the specified flags |
| SerialConfig.LineSetupOk | demo/ttyHandler.cpp:283-295 | the line setup succeeds exactly when the speed is listed, every call succeeds and the settings are supported; the attributes then carry the requested speed, size, stop bits and parity in raw mode |
| SerialSessions.SerialTurnCases | demo/ttyHandler.cpp:424-495 | a pass with a frame handles it after the consumed bytes; any other pass only consumes its bytes |
| SerialSessions.HandledCounters | demo/ttyHandler.cpp:471-482 | a handled frame raises the GPS count for id 1 and the device count for id 2, modulo 2^32, and no count otherwise |
| SerialSessions.RespondedKeeps | demo/ttyHandler.cpp:484 | writing the heartbeat touches only the line |
| SerialSessions.GpsHandledKeeps | demo/ttyHandler.cpp:306-352 | the GPS handler touches only the files and the clock |
| SerialSessions.SerialTurnCounters | demo/ttyHandler.cpp:471-482 | a pass raises the GPS count exactly when it reads a valid frame with id 1, and the device count exactly for id 2 |
| SerialSessions.HandledHeartbeat | demo/ttyHandler.cpp:484 | after a frame, the line has taken a prefix of the heartbeat carrying the updated counters |
| SerialSessions.SerialTurnHeartbeat | demo/tty_process.cpp:565 | after a valid frame, the line has taken a prefix of the heartbeat with the updated counters, and that heartbeat decodes to them; its second is taken from the clock read made for the heartbeat (demo/tty_process.cpp:476-477), not the GPS handler's |
| SerialSessions.SerialTurnLog | demo/ttyHandler.cpp:486-495 | a valid frame's dump is logged, the dump reads back as the frame, and the frame is exactly the bytes consumed |
| SerialSessions.HandledLog | demo/ttyHandler.cpp:486-495 | handling a frame appends its dump to the log and reads nothing more from the line |
| SerialSessions.DispatchedKeeps | demo/ttyHandler.cpp:471-482 | the dispatch leaves the log and the unread input alone |
| SerialSessions.ShortGpsFrameOnlyCounted | demo/ttyHandler.cpp:310-311 | a GPS frame too short for the record changes neither files nor clock, though it is counted |
| SerialSessions.PositionTextOneLine | demo/ttyHandler.cpp:314-315 | the position text has no newline unless a hemisphere byte is one |
| SerialSessions.GpsFrameWritesPosition | demo/ttyHandler.cpp:317-319 | with a GPS file configured and writable, its line (or the whole file for a negative line) is the position text afterwards |
| SerialSessions.SerialTurnFiles | demo/ttyHandler.cpp:306-349 | a GPS frame with a whole record updates the GPS file by `writeStringToLine` and makes the specified clock call |
| SerialSessions.ReadBodyOfRead | demo/ttyHandler.cpp:446-468 | after the header, a body is a `readn` of L - 3 bytes followed by the checksum test |
| SerialSessions.SerialSession.ReadByte | demo/ttyHandler.cpp:430-431 | one-byte read: the byte lands at its offset exactly when one byte arrives; the rest of the buffer is unchanged |
| SerialSessions.SerialSession.ReadHeaderBytes | demo/ttyHandler.cpp:425-445 | the header reads as specified and, on success, leaves FF BB L in the buffer |
| SerialSessions.SerialSession.ReadBodyBytes | demo/ttyHandler.cpp:446-468 | the body reads as specified and a frame is left at the buffer's start |
| SerialSessions.SerialSession.ReadFrame | demo/ttyHandler.cpp:424-468 | one attempt into the buffer as specified, a frame left at its start |
| SerialSessions.SerialSession.HandleGps | demo/ttyHandler.cpp:306-352 | `processGpsInfo`: the state becomes the specified GPS handling |
| SerialSessions.SerialSession.WritePosition | demo/ttyHandler.cpp:317-319 | the GPS file is updated by `writeStringToLine` when configured; the clock is untouched |
| SerialSessions.SerialSession.CorrectClock | demo/ttyHandler.cpp:321-349 | the clock call is the specified decision; the files are untouched |
| SerialSessions.SerialSession.Dispatch | demo/ttyHandler.cpp:471-482 | the switch on the id byte is the specified dispatch |
| SerialSessions.SerialSession.GpsFrame | demo/ttyHandler.cpp:472-475 | a GPS frame: its payload handled, then the GPS count raised |
| SerialSessions.SerialSession.Respond | demo/ttyHandler.cpp:365-397 | writes the heartbeat; 0 exactly when all 22 bytes were taken, -1 otherwise |
| SerialSessions.SerialSession.Attempt | demo/ttyHandler.cpp:424-495 | one pass of the loop is the specified pass |
| SerialSessions.SerialSession.Run | demo/ttyHandler.cpp:424-496 | the loop is the specified run, one pass per moment |
| SerialHandlers.TtyHandler.constructor | demo/ttyHandler.cpp:80-87 | no descriptor or buffer, not working, clock correction off, logging off, counting into the shared counters |
| SerialHandlers.TtyHandler.Init | demo/ttyHandler.cpp:272-300 | returns 0 at once when a descriptor is open; -1 with fd = -1 when opening or the line setup fails; otherwise keeps the descriptor and allocates the buffer only once |
| SerialHandlers.TtyHandler.Process | demo/ttyHandler.cpp:412-499 | without descriptor or buffer, clears the work flag; otherwise, while the work flag is set, the session is the specified run |
| SerialHandlers.TtyHandler.SetNetworkDevice | demo/netHandler.cpp:96-99 | sets the interface the heartbeat reports and nothing else |
| SerialHandlers.TtyHandler.SetDataOutputFile | demo/ttyHandler.cpp:502-507 | sets the path and maximum, and the count to the maximum |
| SerialHandlers.TtyHandler.SetGpsDataOutputFile | demo/ttyHandler.cpp:509-513 | sets the GPS file and line and nothing else |
| SerialHandlers.TtyHandler.SetTimeDiff | demo/ttyHandler.cpp:515-518 | sets the clock tolerance and nothing else |
| SerialHandlers.TtyHandler.Start | demo/netHandler.cpp:138-143 | sets the work flag and there is a worker afterwards |
| SerialHandlers.TtyHandler.Stop | demo/netHandler.cpp:85-94 | clears the work flag and no worker remains |
| SerialHandlers.ModuleTtyProcess.constructor | demo/tty_process.cpp:103-114 | no descriptor or buffer, not working, own counters at 0, clock correction off, heartbeat counting from the construction time |
| SerialHandlers.ModuleTtyProcess.Close | demo/tty_process.cpp:254-262 | a negative descriptor is left alone; otherwise it becomes -1, so closing twice does nothing more |
| SerialHandlers.ModuleTtyProcess.Init | demo/tty_process.cpp:335-365 | returns 0 at once when a descriptor is open; -1 with fd = -1 when opening or the line setup fails; otherwise a fresh buffer |
| SerialHandlers.ModuleTtyProcess.Start | demo/tty_process.cpp:368-375 | sets the work flag and there is a worker afterwards |
| SerialHandlers.ModuleTtyProcess.Stop | demo/tty_process.cpp:378-388 | clears the work flag and no worker remains |
| SerialHandlers.ModuleTtyProcess.TtyProcess | demo/tty_process.cpp:500-580 | without descriptor or buffer, clears the work flag; otherwise, while the work flag is set, the session is the specified run |
| SerialHandlers.ModuleTtyProcess.SetInterface | demo/tty_process.cpp:595-598 | sets the interface the heartbeat reports and nothing else |
| SerialHandlers.ModuleTtyProcess.SetDataOutputFile | demo/tty_process.cpp:582-587 | sets the path and maximum, and the count to the maximum |
| SerialHandlers.ModuleTtyProcess.SetGpsDataOutputFile | demo/tty_process.cpp:589-593 | sets the GPS file and line and nothing else |
| SerialHandlers.ModuleTtyProcess.SetTimeDiff | demo/tty_process.cpp:600-603 | sets the clock tolerance and nothing else |
| SerialHandlers.NoGpsFileIgnoresLine | demo/tty_process.cpp:414-418 | with no GPS file configured, the files stay as they are whatever the line number |
| LineFile.LineEnd | demo/tty_process.cpp:632 | the first line ends at the first newline, or at the end of the text |
| LineFile.ReadLines | demo/tty_process.cpp:631-634 | no line read contains a newline |
| LineFile.Blanks | demo/tty_process.cpp:639 | n empty lines |
| LineFile.ReadRender | demo/tty_process.cpp:654-656 | lines without newlines, written and read back, are the same lines |
| LineFile.NegativeLineReplacesFile | demo/tty_process.cpp:622-623 | a negative line number makes the file exactly one line, the new string |
| LineFile.UpdatedSetsLine | demo/tty_process.cpp:624-645 | an unreadable file fails; the line already there is left alone; otherwise the file has max(old count, line + 1) lines, the new string at the line, the other lines kept and empty lines as padding |
| LineFile.UpdatedNoNewline | demo/tty_process.cpp:638-645 | every rewritten line is free of newlines when the new string is |
| LineFile.RewriteThenAlreadyThere | demo/tty_process.cpp:642-643 | writing the same string to the same line again is a no-op |
| LineFile.ReadAllLines | demo/tty_process.cpp:631-634 | the `getline` loop returns every line of the text in order |
| LineFile.WriteAllLines | demo/tty_process.cpp:654-656 | the output loop writes each line followed by a newline |
| LineFile.WriteStringToLine | demo/tty_process.cpp:618-660 | 0 with the new text on a rewrite that can be written, 0 without writing when the line is already there, -1 without writing when the file cannot be read or written |
| Osd.SpaceRun | demo/osd.cpp:39 | the leading run of whitespace `>>` skips |
| Osd.WordRun | demo/osd.cpp:39 | the leading run of non-whitespace `>>` extracts |
| Osd.Tokens | demo/osd.cpp:264 | the words of a line are non-empty and free of whitespace |
| Osd.TokensOfWord | demo/osd.cpp:264 | a word followed by whitespace or nothing is the first token |
| Osd.FirstIndexOf | demo/osd.cpp:44 | `find`: the first position of the character, or none when absent |
| Osd.LastIndexOf | demo/osd.cpp:45 | `rfind`: the last position of the character, or none when absent |
| Osd.UnquotedTextKept | demo/osd.cpp:39-40 | a word not starting with a double quote is kept as it is |
| Osd.SingleQuoteKept | demo/osd.cpp:40-49 | a line with a single double quote keeps the raw word, quote included |
| Osd.QuotedLineQuotes | demo/osd.cpp:44-47 | in `key "body"` the first quote opens and the last one closes the body |
| Osd.QuotedTextParsed | demo/osd.cpp:37-51 | the text of `key "body"` is exactly the body, spaces and inner quotes included |
| Osd.Clamp32 | demo/osd.cpp:106-108 | the value stored by `>>` into an `int` is within the 32-bit range, and unchanged when it fits |
| Osd.IntRead | demo/osd.cpp:108 | with no word left, the field keeps its value |
| Osd.IntReadDigits | demo/osd.cpp:108 | a word of digits whose value fits reads as that value |
| Osd.Wrap32 | demo/osd.cpp:110 | 32-bit truncation lands in the `int` range and is congruent modulo 2^32 |
| Osd.FileMaxDuration | demo/osd.cpp:106-112 | a positive number of seconds becomes that many seconds in microseconds; other values are kept |
| Osd.FileMaxDurationFits | demo/osd.cpp:106-112 | up to 2147 seconds the written scaling and the intended one agree |
| Osd.FileMaxDurationOneHour | demo/osd.cpp:106-112 | one hour is 3600000000 us, but the written scaling gives -694967296 |
| Osd.ParseLinesAppend | demo/osd.cpp:257-269 | parsing a file in two parts is parsing the first part and continuing with the second |
| Osd.ParseLinesStep | demo/osd.cpp:257-269 | parsing lines from i is one line step, then parsing from i + 1 |
| Osd.SkippedLineChangesNothing | demo/osd.cpp:260-261 | empty lines and lines starting with `#` change nothing |
| Osd.UnknownKeyIgnored | demo/osd.cpp:264-268 | a line whose first word is no key leaves the configuration as it was |
| Osd.DeviceTextLine | demo/osd.cpp:53-56 | `osdDevText "text"` sets the device text to the quoted text and changes nothing else |
| Osd.BlankLineRepeatsKey | demo/osd.cpp:263-268 | a whitespace-only line reads no word and runs the previous key's parser again |
| Osd.BlankLineKeepsPlainWords | demo/osd.cpp:263-268 | a blank line after a key that only extracts words leaves the parser state as it was: the failed extraction keeps the stored words |
| Osd.BlankLineRescalesDuration | demo/osd.cpp:106-112 | so a blank line after `fileMaxDuration` scales the duration a second time |
| Osd.ParseConfFileInfo | demo/osd.cpp:241-271 | -1 with the configuration untouched for an empty name, an unreadable file or an empty file (`readFile` returns no text for length 0); otherwise 0 with every line applied in order |
| Osd.ApplyLine | demo/osd.cpp:258-268 | one loop body is one specified line step; a skipped line changes nothing |
| Osd.PlaneRect | demo/osd.cpp:413-429 | the plane rectangle always lies inside the plane |
| Osd.CropInsidePlane | demo/osd.cpp:417-421 | a crop that fits the plane is used as it is |
| Osd.UncroppedCentred | demo/osd.cpp:422-427 | without a crop the rectangle is the output size clipped to the plane and centred to within one pixel |
| Osd.RolledEvent | demo/osd.cpp:688-695 | the current stamp is the frame's; event bit 0 is raised, the other bits kept and the segment restarted exactly on a rollover; otherwise the event is unchanged |
| Osd.RolledSegmentBound | demo/osd.cpp:688-695 | with a positive duration, after the callback the segment never spans more than the duration |
| Osd.AsWrittenHourRollsEveryFrame | demo/osd.cpp:688-695 | with one hour as written every later frame rolls over; with the intended duration only a frame over an hour does |
| Osd.ModuleOsd.constructor | demo/osd.cpp:229-234 | no text, event 0, both stamps -1, default configuration |
| Osd.EtcText | demo/osd.cpp:273-291 | with a text file that yielded lines, the text ends with those lines and is exactly them when there is no device text, otherwise it starts with the device text; without such a file it is unchanged |
| Osd.TextAfterInit | demo/osd.cpp:312-317 | with a device text the overlay is never empty after `init`: it starts with the device text or is the earlier text; without one it is the text file's result |
| Osd.ModuleOsd.HandleEtcText | demo/osd.cpp:273-291 | with a text file that yielded lines, the text becomes the lines, after the device text when there is one; otherwise it is unchanged |
| Osd.ModuleOsd.InitText | demo/osd.cpp:306-317 | -1 with nothing changed when there is no configuration file name or the file is unreadable or empty; otherwise 0, the parsed configuration, and the text file's lines or else the device text alone |
| Osd.ModuleOsd.OnFrame | demo/osd.cpp:679-695 | the stamps and event become the specified rollover of the previous ones |
| VideoDump.RowOfAt | demo/utils.cpp:74-78 | taken byte j of a row is the byte at its offset: j, 2j or 2j + 1 |
| VideoDump.RowsAt | demo/utils.cpp:66-67 | row r is the one taken r strides after the start, and every row has n bytes |
| VideoDump.GatheredLength | demo/utils.cpp:66-67 | count rows of n bytes make count * n bytes |
| VideoDump.GatheredAt | demo/utils.cpp:66-67 | byte j of output row r is byte j of the buffer row r strides after the start |
| VideoDump.RowsContinue | demo/utils.cpp:125-133 | rows continued where earlier rows left the cursor are the rows of one longer run |
| VideoDump.WriteAt | demo/utils.cpp:76-77 | a write puts its bytes in its range and keeps all others |
| VideoDump.SplitPlanes | demo/utils.cpp:72-81 | de-interleaving rows into the scratch buffer writes the U plane and the V plane whole |
| VideoDump.ScratchRoom | demo/utils.cpp:60-63 | for width <= hStride, both planes fit the `2 * hStride * height` scratch buffer |
| VideoDump.GreyLayout | demo/utils.cpp:169-179 | GREY output byte `i * width + j` is buffer byte `i * hStride + j` |
| VideoDump.SemiPlanarLayout | demo/utils.cpp:90-108 | NV12/NV21 chroma output row i is buffer row i at `hStride * vStride` |
| VideoDump.PlanarChromaContiguous | demo/utils.cpp:111-135 | YUV420 writes luma, then the U rows, then V rows taken where U left off: one run of `2 * (height / 2)` rows at stride `hStride / 2` |
| VideoDump.ChromaHalves | demo/utils.cpp:72-83 | with V at half the buffer, its first bytes are all U bytes then all V bytes |
| VideoDump.NV16Planes | demo/utils.cpp:52-86 | for even width, NV16 writes luma, the even chroma bytes (U) and the odd ones (V) |
| VideoDump.NV24Planes | demo/utils.cpp:139-165 | NV24 writes luma, then U and V from chroma rows `2 * hStride` apart |
| VideoDump.DumpLength | demo/utils.cpp:30-213 | every format writes exactly the number of bytes its layout gives |
| VideoDump.WriteRows | demo/utils.cpp:66-67 | the row loop appends the gathered rows and leaves the cursor after the last row |
| VideoDump.SplitRow | demo/utils.cpp:74-78 | the inner loop writes a row's even bytes at U and its odd bytes at V |
| VideoDump.Deinterleave | demo/utils.cpp:72-81 | the outer loop fills the scratch buffer as specified |
| VideoDump.WriteSplit | demo/utils.cpp:72-83 | the de-interleaved scratch bytes are appended as specified |
| VideoDump.DumpNV16 | demo/utils.cpp:52-86 | the NV16 branch writes the specified dump |
| VideoDump.DumpNV24 | demo/utils.cpp:139-165 | the NV24 branch writes the specified dump |
| VideoDump.DumpNV12 | demo/utils.cpp:90-108 | the NV12/NV21 branch writes the specified dump |
| VideoDump.DumpYUV420 | demo/utils.cpp:111-135 | the YUV420 branch writes the specified dump |
| VideoDump.DumpPacked | demo/utils.cpp:169-205 | the GREY and packed RGB branches write the specified dump |
| VideoDump.DumpVideoBuffer | demo/utils.cpp:30-213 | nothing without a file or buffer; otherwise the specified dump for the format |
| VideoDump.DumpNormalBuffer | demo/utils.cpp:11-25 | nothing without a file or buffer; otherwise the active bytes as they are |

## Left out

- Sockets, `poll`/`read`/`write`, `open`/`fcntl` and `tcgetattr`/`tcsetattr`: what they return is a parameter. The serial line is a sequence of read and write outcomes, and the socket is one event per loop turn.
- `tcgetattr` in `setSpeed`: its result is ignored in the source, and the model likewise applies the speed to the attributes it holds.
- `system()`/`execCommand`: the model records which command string is chosen, and whether the first IP command succeeded is a parameter.
- `getUptime`, `gettimeofday`, `mktime`, `settimeofday`, `adjtime`, `getLocalIPAddressUint` and `ptsToTimeStr`: their results are parameters (`Moment`, `Event`). `settimeofday` is recorded with the time it is given, `adjtime` with the offset it is meant to apply.
- The two clock reads of a `ModuleTtyProcess` pass (the GPS handler's at demo/tty_process.cpp:435 and the heartbeat's at demo/tty_process.cpp:476) are two independent parameters, `now` and `heartbeatNow`. The model does not relate the second to a `settimeofday` made between them.
- SerialSessions.ClockAfter: a gradual correction is recorded as `adjtime` of the offset GPS time minus system time (`AdjtimeArgument`). The source hands `adjtime` the absolute GPS local time; see Findings and SerialFrame.AdjtimeAsWrittenExample.
- SerialSessions.SerialSession.CorrectClock: like ClockAfter, it records the intended `adjtime` offset, not the absolute time the source passes.
- SerialSessions.SerialTurnFiles: its clock call is ClockAfter's, so a gradual correction is the intended offset, not the absolute time the source passes.
- SerialSessions.SerialSession.HandleGps: its clock call is CorrectClock's, so a gradual correction is the intended offset, not the absolute time the source passes.
- NetHandling.TurnRejected: a turn uses the guarded `CheckDatagram`, which rejects length bytes 2 to 5 (for example `EE AA 05 54 DA`) that the handler as written accepts; see Findings and UdpFrame.AsWrittenAgreesFromSix.
- NetHandling.NetHandler.CheckReceived: it adds the lower bound of 6 on the length byte that the handler lacks, so it rejects length bytes 2 to 5 that the code accepts.
- NetHandling.NetHandler.Receive: its checks are CheckReceived's, so it skips datagrams with a length byte of 2 to 5 that the code would dispatch.
- NetHandling.NetHandler.Process: its turns are Receive's, so it skips datagrams with a length byte of 2 to 5 that the code would dispatch.
- Threads, the mutex and condition variable of `MessageQueue` and `ModuleOsd`: only the sequential behaviour is modelled.
- Messages.MessageQueue.Pop: blocking until the queue is non-empty is a precondition.
- `start`/`stop`: these keep only the work flag and whether a worker exists. The worker's loop is `Process`/`TtyProcess`, over the events it would see.
- Floating point: the `%0.4f` position text is the exact decimal of k/10000. That is what `printf` prints for these values, but it is not derived from binary floating point. The FPS text and bitrate expressions of the OSD are not part of this model.
- The hemisphere letters are single bytes taken as characters, and embedded NUL bytes in the text are not treated specially.
- File I/O: appends that may fail are a success flag, and files are their text (`map<string, string>`). `createDirectory` is not part of this model.
- The contents of the receive buffer after a failed or short read are not modelled, since no later step reads them.
- `parseConfFileInfo`: lines are taken whole. The source's `getline` into 512 bytes would stop making progress on a longer line, and that is not modelled.
- The OSD parsers that only extract words into configuration fields keep their words, not typed fields; a line with no words after the key keeps the earlier ones, and a line with too few words for a parser that reads several fields is stored as its words, not as the fields the parser would fill. Only the text, file-duration and etc-file fields that later code reads are typed.
- Osd.FileMaxDuration: the model's duration is an unbounded integer where the intended field would be 64-bit, and values beyond the 64-bit range are not excluded.
- Osd.Apply: `fileMaxDuration` stores the intended scaling (FileMaxDuration), not the 32-bit wrap-around of demo/osd.cpp:106-112 (FileMaxDurationAsWritten); see Findings.
- Osd.ParseConfFileInfo: the parsed duration is Apply's, the intended scaling rather than the 32-bit wrap-around the source computes.
- Osd.ApplyLine: the duration it stores is Apply's, the intended scaling rather than the 32-bit wrap-around the source computes.
- Osd.BlankLineRescalesDuration: the second scaling is FileMaxDuration's, not the 32-bit wrap-around the source computes.
- `gpsinfoOutputFileLines` in `TtyHandler`: it is not initialised in the source until `setGpsDataOutputFile` is called. The model's constructor starts it at 0, but no GPS file is configured then, so it is never read (SerialHandlers.NoGpsFileIgnoresLine).
- VideoDump: offsets are unbounded integers. The source's `uint32_t` products would wrap for buffers over 4 GiB, which cannot occur on the target.
- VideoDump.NV16Planes: this is stated for an even width. For an odd width, the last `height` bytes of the U/V output come from the uninitialised scratch buffer, which is a parameter.
- VideoDump.ScratchRoom: `width <= hStride` is assumed, as for any valid buffer.
- OSD media pipeline: the camera, encoders, display, RTSP and overlay drawing in `init`/`start`/`stop`/`osdProcess` are hardware SDK glue and are not part of this model. The plane rectangle computed in `init` and its configuration and text part (`InitText`) are modelled; the `vDev` check at demo/osd.cpp:319-322 and everything after it are not.
- The full-width parentheses at demo/netHandler.cpp:254 do not compile. The model takes the evident 0/1/2 → stop/start/restart mapping.
- A 7-byte UDP frame whose length byte says 8 is rejected, because fewer bytes were received than announced. The model follows the code.
- The UDP heartbeat goes to the configured peer, not to the datagram's sender. The model follows the code.
- `NetHandler::process` never raises the shared counters; only the serial handler does. The model follows the code.
- The prefix length counted by `processIPInfo` starts from bit 0 of the host-order mask word. That is right for byte-aligned masks and wrong otherwise (UdpFrame.CidrOfUnalignedMask). The model keeps the code's count.

## Findings

| source | as written | input that shows it | evidently intended | confidence | as-written member | corrected member |
|---|---|---|---|---|---|---|
| demo/netHandler.cpp:175-182 | the length byte is only checked against the bytes received, never against a minimum | the datagram `EE AA 00 00` passes every check and the checksum is read at `buf - 2` over `(size_t)-2` bytes | reject frames whose length byte is below 6 (header and checksum) | high; not executed | UdpFrame.AsWrittenReadsBeforeBufferExample | UdpFrame.CheckDatagramCases |
| demo/ttyHandler.cpp:340-344 | `adjtime` is given `tv` holding the absolute GPS time | system time 1700000000 and GPS local time 1700000006 with tolerance 10: a gradual correction of about 54 years instead of 6 seconds | hand `adjtime` the offset GPS time minus system time | high; not executed | SerialFrame.AdjtimeAsWrittenExample | SerialFrame.GradualAdjustmentWithinTolerance |
| demo/osd.cpp:106-112 | `fMaxDuration *= 1000000` on a 32-bit `int` | `fileMaxDuration 3600` gives -694967296, so every later frame starts a new recording | scale in 64 bits so that 3600 s is 3600000000 us | high; not executed | Osd.FileMaxDurationOneHour | Osd.FileMaxDuration |
