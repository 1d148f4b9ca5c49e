/**
 * The two frame counters reported in every heartbeat (`gpsPackets` and
 * `devicePackets`). They are unsigned 32-bit values, so counting past
 * 0xFFFFFFFF wraps to 0. The network and serial handlers share one pair; the
 * serial module keeps a pair per instance.
 */
module Counters {

  class PacketCounters {
    var gps: bv32
    var device: bv32

    /** Both counters start at 0. */
    constructor ()
      ensures gps == 0 && device == 0
    {
      gps := 0;
      device := 0;
    }

    /** One more GPS frame (`gpsPackets++`); the device count is unchanged. */
    method CountGps()
      modifies this
      ensures gps == old(gps) + 1 && device == old(device)
    {
      gps := gps + 1;
    }

    /** One more device frame (`devicePackets++`); the GPS count is unchanged. */
    method CountDevice()
      modifies this
      ensures device == old(device) + 1 && gps == old(gps)
    {
      device := device + 1;
    }
  }

  /** The increment of a 32-bit counter: one more, except that 0xFFFFFFFF wraps to 0. */
  lemma {:induction false} CountWraps(c: bv32)
    ensures c < 0xFFFF_FFFF ==> c < c + 1 && c + 1 - c == 1
    ensures c == 0xFFFF_FFFF ==> c + 1 == 0
  {
  }
}
