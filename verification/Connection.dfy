/**
 One client connection: what it does with a packet, and the per-minute counters.
 */
module Connection {
  import opened PacketCodec
  import opened RateLimit
  import opened Config

  /** The fields of a connection; it keeps the configuration it was created with. */
  datatype Conn = Conn(config: NtpConfig, active: bool, trusted: bool, requestBuckets: History,
                       packetsReceived: nat, bytesReceived: nat)

  /** A datagram with what the program reads from its surroundings while handling it. */
  datatype Arrival = Arrival(data: seq<byte>, minuteBucket: nat, authentic: bool)

  /** A packet that is a well-formed client request. */
  predicate ClientRequestData(data: seq<byte>) {
    |data| >= NTP_PACKET_SIZE && Decode(data).IsValid() && Decode(data).mode == MODE_CLIENT
  }

  function Counted(c: Conn, a: Arrival): Conn {
    if c.config.enableRateLimiting
    then c.(requestBuckets := c.requestBuckets[a.minuteBucket := HistoryCount(c.requestBuckets, a.minuteBucket)])
    else c
  }

  predicate Accepts(c: Conn, a: Arrival) {
    && c.active
    && ClientRequestData(a.data)
    && (c.config.enableRateLimiting ==> HistoryCount(c.requestBuckets, a.minuteBucket) <= c.config.requestRateLimit)
    && (c.config.enableAuthentication ==> a.authentic)
  }

  /** The connection after a packet: only a client request counts, only an accepted one is booked. */
  function Handled(c: Conn, a: Arrival): Conn {
    if !c.active || !ClientRequestData(a.data) then c
    else if !Accepts(c, a) then Counted(c, a)
    else Counted(c, a).(packetsReceived := c.packetsReceived + 1, bytesReceived := c.bytesReceived + |a.data|)
  }

  class NtpConnection {
    const config: NtpConfig
    var active: bool
    var trusted: bool
    var requestBuckets: History
    var packetsReceived: nat
    var bytesReceived: nat

    function View(): Conn
      reads this
    {
      Conn(config, active, trusted, requestBuckets, packetsReceived, bytesReceived)
    }

    constructor (config: NtpConfig)
      ensures View() == Conn(config, true, false, map[], 0, 0)
    {
      this.config := config;
      active, trusted, requestBuckets, packetsReceived, bytesReceived := true, false, map[], 0, 0;
    }

    method SetTrusted(trusted: bool)
      modifies this
      ensures View() == old(View()).(trusted := trusted)
    {
      this.trusted := trusted;
    }

    method Stop()
      modifies this
      ensures View() == old(View()).(active := false)
    {
      active := false;
    }

    method HandlePacket(a: Arrival) returns (ok: bool)
      modifies this
      ensures ok == Accepts(old(View()), a)
      ensures View() == Handled(old(View()), a)
      ensures ok ==> |a.data| >= NTP_PACKET_SIZE
    {
      if !active {
        return false;
      }
      if |a.data| < NTP_PACKET_SIZE {
        return false;
      }
      var packet := new NtpPacket();
      var parsed := packet.ParseFromData(a.data);
      if !parsed {
        return false;
      }
      var valid, _ := ValidateDetailed(packet.fields);
      if !valid {
        return false;
      }
      if packet.fields.mode != MODE_CLIENT {
        return false;
      }
      if config.enableRateLimiting {
        var count := HistoryCount(requestBuckets, a.minuteBucket);
        requestBuckets := requestBuckets[a.minuteBucket := count];
        if count > config.requestRateLimit {
          return false;
        }
      }
      if config.enableAuthentication && !a.authentic {
        return false;
      }
      packetsReceived := packetsReceived + 1;
      bytesReceived := bytesReceived + |a.data|;
      return true;
    }
  }
}
