/**
 What the server does with a packet, a cleanup, a reload and a synchronisation, as functions on
 its state. Each is one atomic step; the program's locks make it so except for the statistics
 and the healthy list, whose updates are serialised here.
 */
module ServerModel {
  import opened Wrappers
  import opened NtpTime
  import opened OnWire
  import opened PacketCodec
  import opened AccessControl
  import opened RateLimit
  import opened UpstreamSync
  import opened UpstreamPool
  import opened Config
  import opened Connection

  datatype ClientKey = ClientKey(ip: Address, port: nat)

  datatype Stats = Stats(
    totalConnections: nat, activeConnections: nat,
    totalRequests: nat, totalResponses: nat, totalBytes: nat, totalErrors: nat,
    processingTime: nat, processedCount: nat, maxTime: nat, minTime: uint64)

  const NO_STATS := Stats(0, 0, 0, 0, 0, 0, 0, 0, 0, 0xFFFF_FFFF_FFFF_FFFF)

  /** A received datagram with every reading the program takes from its surroundings on the way. */
  datatype PacketInput = PacketInput(
    arrival: Arrival, key: ClientKey, minuteBucket: nat, secondBucket: nat,
    receivedAt: int64, sentAt: int64, referenceAt: int64,
    draw: nat, sendOk: bool, duration: uint64)

  datatype ServerState = ServerState(
    config: NtpConfig, stats: Stats, connections: map<ClientKey, Conn>,
    rateSlots: Slots, ddosSlots: Slots, pool: Pool, sync: Option<SyncState>)

  // ---------------------------------------------------------------- the transition function

  function CountError(stats: Stats): Stats { stats.(totalErrors := stats.totalErrors + 1) }

  function CountTime(stats: Stats, duration: uint64): Stats {
    stats.(processingTime := stats.processingTime + duration,
           processedCount := stats.processedCount + 1,
           maxTime := if duration > stats.maxTime then duration else stats.maxTime,
           minTime := if duration < stats.minTime then duration else stats.minTime)
  }

  function CountResponse(stats: Stats, bytes: nat): Stats {
    stats.(totalRequests := stats.totalRequests + 1,
           totalBytes := stats.totalBytes + bytes,
           totalResponses := stats.totalResponses + 1)
  }

  function RateCall(s: ServerState, input: PacketInput): Call {
    Call(input.key.ip, input.minuteBucket, s.config.connectionRateLimit)
  }

  function DdosCall(s: ServerState, input: PacketInput): Call {
    Call(input.key.ip, input.secondBucket, s.config.ddosThreshold)
  }

  function RateChecked(s: ServerState, input: PacketInput): ServerState {
    if s.config.enableRateLimiting then s.(rateSlots := Hit(s.rateSlots, RateCall(s, input))) else s
  }

  predicate RateLimited(s: ServerState, input: PacketInput) {
    s.config.enableRateLimiting && Exceeds(s.rateSlots, RateCall(s, input))
  }

  function DdosChecked(s: ServerState, input: PacketInput): ServerState {
    if s.config.enableDdosProtection then s.(ddosSlots := Hit(s.ddosSlots, DdosCall(s, input))) else s
  }

  predicate Anomalous(s: ServerState, input: PacketInput) {
    s.config.enableDdosProtection && Exceeds(s.ddosSlots, DdosCall(s, input))
  }

  function NewConnection(config: NtpConfig, key: ClientKey): Conn {
    Conn(config, true, Admits(config.acl, key.ip), map[], 0, 0)
  }

  function CountConnection(stats: Stats): Stats {
    stats.(totalConnections := stats.totalConnections + 1, activeConnections := stats.activeConnections + 1)
  }

  function Connected(s: ServerState, key: ClientKey): (t: ServerState)
    ensures key in t.connections
  {
    if key in s.connections then s
    else s.(connections := s.connections[key := NewConnection(s.config, key)], stats := CountConnection(s.stats))
  }

  function StratumInEffect(config: NtpConfig, sync: Option<SyncState>): byte {
    if sync.Some? && sync.value.synced then sync.value.EffectiveStratum(config.stratum) else config.stratum
  }

  function OffsetInEffect(sync: Option<SyncState>): OffsetUs {
    if sync.Some? then sync.value.clockOffsetUs else 0
  }

  /** The error ratio is a real quotient; the program computes it in double precision. */
  function AdjustedConfig(config: NtpConfig, stats: Stats): NtpConfig {
    if config.enableDynamicStratum
       && stats.totalRequests > 100
       && (stats.totalErrors as real) / (stats.totalRequests as real) > 0.20
       && config.stratum < 15
    then config.(stratum := config.stratum + 1)
    else config
  }

  function Corrected(p: Packet, offset: OffsetUs): Packet {
    p.(receiveTs := CorrectTimestamp(p.receiveTs, offset), transmitTs := CorrectTimestamp(p.transmitTs, offset))
  }

  function Response(s: ServerState, input: PacketInput): Packet
    requires |input.arrival.data| >= NTP_PACKET_SIZE
  {
    Corrected(ServerResponse(Decode(input.arrival.data), StratumInEffect(s.config, s.sync), EffectiveReferenceId(s.config),
                             input.receivedAt, input.sentAt, input.referenceAt),
              OffsetInEffect(s.sync))
  }

  /** The tail of processing for an accepted request: adjust, select, send, book. */
  function Answered(s: ServerState, input: PacketInput): ServerState {
    var config := AdjustedConfig(s.config, s.stats);
    var selection := Select(s.pool, config.upstreamServers, config.selectionAlgorithm, input.draw);
    if input.sendOk then
      s.(config := config, pool := selection.pool, stats := CountResponse(s.stats, |input.arrival.data|))
    else
      s.(config := config, stats := CountError(s.stats),
         pool := if config.enableUpstreamFailover && selection.server != ""
                 then selection.pool.(healthy := Drop(selection.pool.healthy, selection.server))
                 else selection.pool)
  }

  /** The state and the packet sent, if any, after processing one datagram. */
  datatype Outcome = Outcome(state: ServerState, reply: Option<Packet>)

  function Dropped(s: ServerState): ServerState { s.(stats := CountError(s.stats)) }

  /** Processing times are booked for answered and for refused requests, not for drops and failed sends. */
  function Timed(s: ServerState, duration: uint64): ServerState { s.(stats := CountTime(s.stats, duration)) }

  function Replied(h: ServerState, input: PacketInput): Outcome
    requires |input.arrival.data| >= NTP_PACKET_SIZE
  {
    if input.sendOk then Outcome(Timed(Answered(h, input), input.duration), Some(Response(h, input)))
    else Outcome(Answered(h, input), None)
  }

  /** The packet reaches its connection. */
  function Delivered(s: ServerState, input: PacketInput): ServerState
    requires input.key in s.connections
  {
    s.(connections := s.connections[input.key := Handled(s.connections[input.key], input.arrival)])
  }

  /** The part after admission: the connection handles the packet, and an accepted request is answered. */
  function Served(s: ServerState, input: PacketInput): Outcome
    requires input.key in s.connections
  {
    var h := Delivered(s, input);
    if Accepts(s.connections[input.key], input.arrival) then Replied(h, input)
    else Outcome(Timed(Dropped(h), input.duration), None)
  }

  /** Admission: the access list, then the two limiters; `passed` is false for a drop, which is booked. */
  datatype Screening = Screening(state: ServerState, passed: bool)

  function Screened(s: ServerState, input: PacketInput): Screening {
    if !Admits(s.config.acl, input.key.ip) then Screening(Dropped(s), false)
    else if RateLimited(s, input) then Screening(Dropped(RateChecked(s, input)), false)
    else
      var r := RateChecked(s, input);
      var d := DdosChecked(r, input);
      if Anomalous(r, input) && r.config.enableGracefulDegradation then Screening(Dropped(d), false)
      else Screening(d, true)
  }

  function Process(s: ServerState, input: PacketInput): Outcome {
    var screening := Screened(s, input);
    if screening.passed then Served(Connected(screening.state, input.key), input) else Outcome(screening.state, None)
  }

  /** What became of a sequence of datagrams. */
  datatype Outcomes = Outcomes(state: ServerState, replies: seq<Option<Packet>>)

  function ProcessAll(s: ServerState, inputs: seq<PacketInput>): Outcomes {
    if inputs == [] then Outcomes(s, [])
    else
      var before := ProcessAll(s, inputs[..|inputs| - 1]);
      var o := Process(before.state, inputs[|inputs| - 1]);
      Outcomes(o.state, before.replies + [o.reply])
  }

  /** A connection stopped from outside, if it is in the table. */
  function Stopped(s: ServerState, key: ClientKey): ServerState {
    if key in s.connections then s.(connections := s.connections[key := s.connections[key].(active := false)]) else s
  }

  function KeptConnections(connections: map<ClientKey, Conn>): map<ClientKey, Conn> {
    map k | k in connections && connections[k].active :: connections[k]
  }

  /** Cleanup takes one off the gauge for every entry it erases. */
  function Cleaned(s: ServerState): ServerState {
    var kept := KeptConnections(s.connections);
    var erased := |s.connections| - |kept|;
    s.(connections := kept, stats := s.stats.(activeConnections := Minus(s.stats.activeConnections, erased)))
  }

  function Minus(a: nat, b: int): nat { if b <= a then a - b else 0 }

  /** What reading the configuration file again produced, if it could be read. */
  function Reloaded(s: ServerState, loaded: Option<NtpConfig>): ServerState {
    if loaded.Some? && loaded.value.Accepted() then s.(config := loaded.value) else s
  }

  function Synchronised(s: ServerState, attempts: seq<UpstreamSyncResult>, now: int64): ServerState {
    if s.sync.Some? then s.(sync := Some(Commit(s.sync.value, BestOf(attempts), now))) else s
  }
}
