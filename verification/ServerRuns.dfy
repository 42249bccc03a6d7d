/**
 What holds over every run of the server: every answer is well formed, the counters balance,
 the connection table is conserved, and the limiter slots are those of the admitted calls.
 */
module ServerRuns {
  import opened Wrappers
  import opened NtpTime
  import opened OnWire
  import opened PacketCodec
  import opened AccessControl
  import opened UpstreamSync
  import opened UpstreamPool
  import opened Config
  import opened Connection
  import opened ServerModel

  /** A step of the server or of its surroundings. */
  datatype Event =
    | Receive(input: PacketInput)
    | Reload(loaded: Option<NtpConfig>)
    | Sync(servers: seq<string>, replies: seq<UpstreamReply>, now: int64)
    | Cleanup
    | StopConnection(key: ClientKey)

  function Initial(config: NtpConfig): ServerState {
    ServerState(config, NO_STATS, map[], map[], map[], Pool(config.upstreamServers, 0),
                if config.upstreamServers == [] then None else Some(UNSYNCED))
  }

  function Step(s: ServerState, e: Event): ServerState {
    match e
    case Receive(input) => Process(s, input).state
    case Reload(loaded) => Reloaded(s, loaded)
    case Sync(servers, replies, now) =>
      if |servers| == |replies| then Synchronised(s, Attempts(servers, replies), now) else s
    case Cleanup => Cleaned(s)
    case StopConnection(key) => Stopped(s, key)
  }

  function Run(config: NtpConfig, events: seq<Event>): ServerState {
    if events == [] then Initial(config) else Step(Run(config, events[..|events| - 1]), events[|events| - 1])
  }

  // ---------------------------------------------------------------- one step, field by field

  lemma ScreenedFields(s: ServerState, input: PacketInput)
    ensures var sc := Screened(s, input);
            && sc.state.config == s.config && sc.state.connections == s.connections
            && sc.state.pool == s.pool && sc.state.sync == s.sync
            && sc.state.stats == (if sc.passed then s.stats else CountError(s.stats))
            && (sc.passed ==> Admits(s.config.acl, input.key.ip) && !RateLimited(s, input))
  {
  }

  /** The configuration after dynamic adjustment: the same, or a stratum one higher and at most 15. */
  predicate StratumRaised(config: NtpConfig, config': NtpConfig) {
    config' == config || (config.stratum < 15 && config' == config.(stratum := config.stratum + 1))
  }

  lemma AnsweredFields(h: ServerState, input: PacketInput)
    ensures var t := Answered(h, input);
            && StratumRaised(h.config, t.config) && t.sync == h.sync && t.connections == h.connections
            && t.rateSlots == h.rateSlots && t.ddosSlots == h.ddosSlots
            && t.stats == if input.sendOk then CountResponse(h.stats, |input.arrival.data|) else CountError(h.stats)
  {
    hide Select, Drop;
  }

  /** How a packet past admission is booked, by what became of it. */
  function BookedServed(stats: Stats, input: PacketInput, accepted: bool): Stats {
    if !accepted then CountTime(CountError(stats), input.duration)
    else if input.sendOk then CountTime(CountResponse(stats, |input.arrival.data|), input.duration)
    else CountError(stats)
  }

  lemma ServedFields(s: ServerState, input: PacketInput)
    requires input.key in s.connections
    ensures var o := Served(s, input);
            var accepted := Accepts(s.connections[input.key], input.arrival);
            && StratumRaised(s.config, o.state.config) && o.state.sync == s.sync
            && o.state.connections.Keys == s.connections.Keys
            && o.state.rateSlots == s.rateSlots && o.state.ddosSlots == s.ddosSlots
            && (o.reply.Some? <==> accepted && input.sendOk)
            && o.state.stats == BookedServed(s.stats, input, accepted)
  {
    hide Accepts, Handled, Answered, Response, CountTime, CountResponse;
    var h := s.(connections := s.connections[input.key := Handled(s.connections[input.key], input.arrival)]);
    if Accepts(s.connections[input.key], input.arrival) {
      AnsweredFields(h, input);
    }
  }

  /** How any packet is booked: dropped, or counted as a connection if new and then by its fate. */
  predicate BookedProcess(s: ServerState, o: Outcome, input: PacketInput) {
    if !Screened(s, input).passed then
      o.reply == None && o.state.stats == CountError(s.stats) && o.state.connections == s.connections
    else
      var c := Connected(Screened(s, input).state, input.key);
      var accepted := Accepts(c.connections[input.key], input.arrival);
      && (o.reply.Some? <==> accepted && input.sendOk)
      && o.state.stats == BookedServed(c.stats, input, accepted)
      && o.state.connections.Keys == c.connections.Keys
  }

  /** A packet changes the configuration only by dynamic stratum, and never the synchronisation state. */
  lemma ProcessFields(s: ServerState, input: PacketInput)
    ensures var o := Process(s, input);
            && StratumRaised(s.config, o.state.config) && o.state.sync == s.sync
            && o.state.rateSlots == Screened(s, input).state.rateSlots
            && o.state.ddosSlots == Screened(s, input).state.ddosSlots
            && BookedProcess(s, o, input)
  {
    hide Screened, Served, Accepts, BookedServed, NewConnection, CountConnection, CountError;
    ScreenedFields(s, input);
    var sc := Screened(s, input);
    if sc.passed {
      ServedFields(Connected(sc.state, input.key), input);
    }
  }

  /** Over every run the configuration stays acceptable, whatever is reloaded and however the stratum adapts. */
  lemma {:induction false} ConfigStaysAccepted(config: NtpConfig, events: seq<Event>)
    requires config.Accepted()
    ensures Run(config, events).config.Accepted()
  {
    hide Process, Cleaned;
    if events != [] {
      var before, e := Run(config, events[..|events| - 1]), events[|events| - 1];
      ConfigStaysAccepted(config, events[..|events| - 1]);
      match e
      case Receive(input) => ProcessFields(before, input);
      case Cleanup => CleanedConfig(before);
      case _ =>
    }
  }

  lemma CleanedConfig(s: ServerState)
    ensures Cleaned(s).config == s.config
  {
  }

  // ---------------------------------------------------------------- answers

  /** An answer comes only from the configuration and synchronisation state the packet met. */
  lemma ReplyIsResponse(s: ServerState, input: PacketInput)
    requires Process(s, input).reply.Some?
    ensures ClientRequestData(input.arrival.data)
    ensures exists h: ServerState :: h.config == s.config && h.sync == s.sync
                                     && Process(s, input).reply == Some(Response(h, input))
  {
    hide Screened, Response, Handled, Answered, NewConnection, CountConnection, Decode;
    ScreenedFields(s, input);
    var c := Connected(Screened(s, input).state, input.key);
    var h := c.(connections := c.connections[input.key := Handled(c.connections[input.key], input.arrival)]);
    assert Process(s, input).reply == Some(Response(h, input));
  }

  lemma ResponseDependsOn(s: ServerState, h: ServerState, input: PacketInput)
    requires |input.arrival.data| >= NTP_PACKET_SIZE && h.config == s.config && h.sync == s.sync
    ensures Response(h, input) == Response(s, input)
  {
  }

  lemma ReplyFromState(s: ServerState, input: PacketInput)
    requires Process(s, input).reply.Some?
    ensures ClientRequestData(input.arrival.data)
    ensures Process(s, input).reply.value == Response(s, input)
  {
    hide Process, Response;
    ReplyIsResponse(s, input);
    var h: ServerState :| h.config == s.config && h.sync == s.sync && Process(s, input).reply == Some(Response(h, input));
    ResponseDependsOn(s, h, input);
  }

  /** The checks of a client on the other side accept the datagram and read the stratum that was served. */
  ghost predicate AcceptedByClients(p: Packet) {
    forall host: string, t1: NtpTimestamp, t4: NtpTimestamp ::
      var r := QueryUpstreamServer(host, Reply(t1, Encode(p), t4));
      r.success && r.server == host && r.stratum == p.stratum
  }

  lemma ValidServerPacketAccepted(p: Packet)
    requires p.FitsHeader() && p.IsValid() && p.mode == MODE_SERVER
    ensures AcceptedByClients(p)
  {
    forall host: string, t1: NtpTimestamp, t4: NtpTimestamp
      ensures var r := QueryUpstreamServer(host, Reply(t1, Encode(p), t4));
              r.success && r.server == host && r.stratum == p.stratum
    {
      hide Encode, QueryUpstreamServer, CalculateOffset, CalculateRoundTripDelay;
      AcceptsServerPacket(host, t1, p, t4);
    }
  }

  lemma ResponseFields(s: ServerState, input: PacketInput)
    requires s.config.Accepted() && |input.arrival.data| >= NTP_PACKET_SIZE
    ensures var p := Response(s, input);
            && p.FitsHeader() && p.IsValid() && p.mode == MODE_SERVER
            && p.leapIndicator == 0 && p.version == 4 && p.poll == 4 && p.precision == -6
            && p.rootDelay == 0 && p.rootDispersion == 0
            && p.originateTs == Decode(input.arrival.data).transmitTs
            && p.stratum == StratumInEffect(s.config, s.sync) <= 15
            && p.referenceId == ReadU32Be(ReferenceBytes(EffectiveReferenceId(s.config)), 0)
  {
    hide Decode, FromSystemTime, CorrectTimestamp, ReadU32Be, ReferenceBytes, EffectiveReferenceId;
  }

  lemma ReferenceIdOnWire(p: Packet, id: seq<byte>)
    requires |id| == 4 && p.referenceId == ReadU32Be(ReferenceBytes(id), 0)
    ensures Encode(p)[12..16] == id
  {
    hide FirstByte, TimestampBytes, ReadU32Be;
    FieldsOfEncoding(p);
    WriteReadWord(ReferenceBytes(id), 0);
    assert ReferenceBytes(id)[0..4] == id;
  }

  /** The stratum in an answer: one more than that of the upstream synchronised with, up to 15, or the configured one. */
  function ServedStratum(s: ServerState): byte {
    match s.sync
    case None => s.config.stratum
    case Some(u) =>
      if !u.synced || u.upstreamStratum == 0 then s.config.stratum
      else if u.upstreamStratum < 15 then u.upstreamStratum + 1
      else 15
  }

  lemma StratumServed(s: ServerState)
    ensures StratumInEffect(s.config, s.sync) == ServedStratum(s)
  {
    if s.sync.Some? {
      StratumInCases(s.sync.value, s.config.stratum);
    }
  }

  lemma EchoOnWire(p: Packet, data: seq<byte>)
    requires |data| >= NTP_PACKET_SIZE && p.originateTs == Decode(data).transmitTs
    ensures Encode(p)[24..32] == data[40..48]
  {
    hide FirstByte, TimestampBytes, ReadU32Be, Encode;
    FieldsOfEncoding(p);
    WriteReadTimestamp(data, 40);
  }

  /**
   After any run from an accepted configuration, every answer is a version 4 server packet with
   the stratum served, up to 15, echoes the eight bytes of the request's transmit time, carries
   the identifier in effect in bytes 12 to 15, and is accepted by any client that applies this
   program's own checks.
   */
  lemma EveryAnswerWellFormed(config: NtpConfig, events: seq<Event>, input: PacketInput)
    requires config.Accepted()
    requires Process(Run(config, events), input).reply.Some?
    ensures var s := Run(config, events);
            var p := Process(s, input).reply.value;
            && |input.arrival.data| >= NTP_PACKET_SIZE
            && Encode(p)[24..32] == input.arrival.data[40..48]
            && Encode(p)[..4] == [0x24, ServedStratum(s), 4, 0xFA] && ServedStratum(s) <= 15
            && Encode(p)[4..12] == [0, 0, 0, 0, 0, 0, 0, 0]
            && Encode(p)[12..16] == EffectiveReferenceId(s.config)
            && AcceptedByClients(p)
  {
    hide Process, Response, Encode, Decode, AcceptedByClients, Run, EffectiveReferenceId, ReadU32Be, ReferenceBytes;
    var s := Run(config, events);
    ConfigStaysAccepted(config, events);
    ReplyFromState(s, input);
    ResponseFields(s, input);
    StratumServed(s);
    ReferenceIdHasFour(s.config);
    ReferenceIdOnWire(Response(s, input), EffectiveReferenceId(s.config));
    EchoOnWire(Response(s, input), input.arrival.data);
    ServerHeaderOnWire(Response(s, input));
    ValidServerPacketAccepted(Response(s, input));
  }
}
