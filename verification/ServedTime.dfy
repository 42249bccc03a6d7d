/**
 The time a client reads off this server: what one exchange through the whole program
 guarantees, and what is left of the upstream clock's quality after two hops.
 */
module ServedTime {
  import opened Wrappers
  import opened NtpTime
  import opened OnWire
  import opened PacketCodec
  import opened AccessControl
  import opened UpstreamSync
  import opened Config
  import opened Connection
  import opened ServerModel
  import opened ServerRuns
  import opened ConnectionRuns

  lemma ClientStamp(clock: int64, era: int)
    requires ReadableIn(clock, era)
    ensures 0 <= clock - era * ERA_NANOS - ToSystemTime(FromSystemTime(clock)) <= 1000
  {
    RoundTrip(clock);
  }

  /** The stamps a reply carries, in terms of the two clock readings behind them. */
  lemma StampsOfReply(s: ServerState, input: PacketInput)
    requires Process(s, input).reply.Some?
    ensures var p := Process(s, input).reply.value;
            && p.receiveTs == CorrectTimestamp(FromSystemTime(input.receivedAt), OffsetInEffect(s.sync))
            && p.transmitTs == CorrectTimestamp(FromSystemTime(input.sentAt), OffsetInEffect(s.sync))
  {
    hide Process, Decode, FromSystemTime, CorrectTimestamp, ReadU32Be;
    ReplyFromState(s, input);
  }

  /**
   A synchronised server serves its clock plus the committed offset: the decoded stamps of any
   answer are 0 to 2 us behind that, in the era of the clock. The reference stamp is not corrected.
   */
  lemma ServedWithSync(s: ServerState, input: PacketInput, u: SyncState, era: int)
    requires Process(s, input).reply.Some? && s.sync == Some(u)
    requires Servable(input.receivedAt, u.clockOffsetUs, era) && Servable(input.sentAt, u.clockOffsetUs, era)
    ensures var p := Process(s, input).reply.value;
            && 0 <= input.receivedAt + u.clockOffsetUs * 1000 - era * ERA_NANOS - ToSystemTime(p.receiveTs) <= 2000
            && 0 <= input.sentAt + u.clockOffsetUs * 1000 - era * ERA_NANOS - ToSystemTime(p.transmitTs) <= 2000
  {
    hide Process, FromSystemTime, ToSystemTime, CorrectTimestamp, Servable;
    StampsOfReply(s, input);
    ServedStamp(input.receivedAt, u.clockOffsetUs, era);
    ServedStamp(input.sentAt, u.clockOffsetUs, era);
  }

  /** A server without synchronisation adds nothing: the stamps are its clock's, up to 1 us behind. */
  lemma ServedWithoutSync(s: ServerState, input: PacketInput, era: int)
    requires Process(s, input).reply.Some? && s.sync == None
    requires ReadableIn(input.receivedAt, era) && ReadableIn(input.sentAt, era)
    ensures var p := Process(s, input).reply.value;
            && 0 <= input.receivedAt - era * ERA_NANOS - ToSystemTime(p.receiveTs) <= 1000
            && 0 <= input.sentAt - era * ERA_NANOS - ToSystemTime(p.transmitTs) <= 1000
  {
    hide Process, FromSystemTime, ToSystemTime, CorrectTimestamp, ReadableIn;
    StampsOfReply(s, input);
    Uncorrected(FromSystemTime(input.receivedAt));
    Uncorrected(FromSystemTime(input.sentAt));
    ClientStamp(input.receivedAt, era);
    ClientStamp(input.sentAt, era);
  }

  /** The reference stamp is the server's own clock, corrected or not. */
  lemma ReferenceServed(s: ServerState, input: PacketInput, era: int)
    requires Process(s, input).reply.Some? && ReadableIn(input.referenceAt, era)
    ensures var p := Process(s, input).reply.value;
            0 <= input.referenceAt - era * ERA_NANOS - ToSystemTime(p.referenceTs) <= 1000
  {
    hide Process, FromSystemTime, ToSystemTime, CorrectTimestamp, Decode, ReadU32Be, EffectiveReferenceId;
    ReplyFromState(s, input);
    ClientStamp(input.referenceAt, era);
  }

  /** How far a server's synchronisation moves the clock it serves, in microseconds. */
  function ServedOffset(sync: Option<SyncState>): OffsetUs {
    match sync
    case None => 0
    case Some(u) => u.clockOffsetUs
  }

  /** Both clock readings behind an answer can be served. */
  predicate ServableInput(s: ServerState, input: PacketInput, era: int) {
    Servable(input.receivedAt, ServedOffset(s.sync), era) && Servable(input.sentAt, ServedOffset(s.sync), era)
  }

  lemma ServedStamps(s: ServerState, input: PacketInput, era: int)
    requires Process(s, input).reply.Some? && ServableInput(s, input, era)
    ensures var p, offsetUs := Process(s, input).reply.value, ServedOffset(s.sync);
            && 0 <= input.receivedAt + offsetUs * 1000 - era * ERA_NANOS - ToSystemTime(p.receiveTs) <= StampLoss(offsetUs)
            && 0 <= input.sentAt + offsetUs * 1000 - era * ERA_NANOS - ToSystemTime(p.transmitTs) <= StampLoss(offsetUs)
  {
    hide Process, FromSystemTime, ToSystemTime, CorrectTimestamp, Servable, StampLoss;
    StampsOfReply(s, input);
    ServedStamp(input.receivedAt, ServedOffset(s.sync), era);
    ServedStamp(input.sentAt, ServedOffset(s.sync), era);
  }

  /** Correction keeps the stamps of an answer in the order of the clock readings. */
  lemma ReceiveBeforeTransmit(s: ServerState, input: PacketInput, era: int)
    requires Process(s, input).reply.Some? && ServableInput(s, input, era)
    requires input.receivedAt <= input.sentAt
    ensures var p := Process(s, input).reply.value; p.receiveTs.Units() <= p.transmitTs.Units()
  {
    hide Process, FromSystemTime, ToSystemTime, CorrectTimestamp;
    var offsetUs := ServedOffset(s.sync);
    StampsOfReply(s, input);
    EncodingMonotone(input.receivedAt, input.sentAt, era);
    RoundTrip(input.receivedAt);
    RoundTrip(input.sentAt);
    if offsetUs == 0 {
      Uncorrected(FromSystemTime(input.receivedAt));
      Uncorrected(FromSystemTime(input.sentAt));
    } else {
      CorrectionMonotone(FromSystemTime(input.receivedAt), FromSystemTime(input.sentAt), offsetUs, 0);
    }
  }

  lemma Uncorrected(ts: NtpTimestamp)
    ensures CorrectTimestamp(ts, 0) == ts
  {
  }

  /**
   One exchange with the server. The client's clock reads `sent` and `received` around it; the
   server's own clock is `lag` ahead of the client's; the paths take `a` and `b` nanoseconds.
   All times lie in one era.
   */
  predicate ExchangeWith(s: ServerState, input: PacketInput, sent: int64, received: int64,
                         lag: int, a: nat, b: nat, era: int)
  {
    && input.arrival.data == Encode(ClientRequest(sent))
    && input.receivedAt == sent + a + lag
    && input.sentAt == received - b + lag
    && ReadableIn(sent, era) && ReadableIn(received, era) && ServableInput(s, input, era)
  }

  /** The exchange with the clock that the server serves. */
  function ServedExchange(s: ServerState, sent: int64, received: int64, lag: int, a: nat, b: nat, era: int): Exchange {
    Exchange(sent, received, lag + ServedOffset(s.sync) * 1000, a, b, era * ERA_NANOS)
  }

  /** What the client makes of the answer. */
  function ClientReads(host: string, sent: int64, p: Packet, received: int64): UpstreamSyncResult {
    QueryUpstreamServer(host, ReplyTo(sent, p, received))
  }

  function ReplyTo(sent: int64, p: Packet, received: int64): UpstreamReply {
    Reply(FromSystemTime(sent), Encode(p), FromSystemTime(received))
  }

  lemma ExchangedStamps(s: ServerState, input: PacketInput, sent: int64, received: int64,
                        lag: int, a: nat, b: nat, era: int)
    requires Process(s, input).reply.Some? && ExchangeWith(s, input, sent, received, lag, a, b, era)
    ensures var p := Process(s, input).reply.value;
            Exchanged(FromSystemTime(sent), p.receiveTs, p.transmitTs, FromSystemTime(received),
                      ServedExchange(s, sent, received, lag, a, b, era), StampLoss(ServedOffset(s.sync)))
  {
    hide Process, Encode, ToSystemTime, FromSystemTime, ServedOffset, StampLoss, ReadableIn, Servable;
    ClientStamp(sent, era);
    ClientStamp(received, era);
    ServedStamps(s, input, era);
  }

  lemma ReplyIsAnswer(s: ServerState, input: PacketInput, sent: int64, received: int64,
                      lag: int, a: nat, b: nat, era: int)
    requires s.config.Accepted()
    requires Process(s, input).reply.Some? && ExchangeWith(s, input, sent, received, lag, a, b, era)
    ensures AnswersExchange(ReplyTo(sent, Process(s, input).reply.value, received),
                            ServedExchange(s, sent, received, lag, a, b, era), 0, StampLoss(ServedOffset(s.sync)))
  {
    hide Process, Response, Encode, Decode, FromSystemTime, ExchangeWith, Exchanged, StampLoss, ServedOffset;
    ReplyFromState(s, input);
    ResponseFields(s, input);
    DecodeEncode(Response(s, input));
    ExchangedStamps(s, input, sent, received, lag, a, b, era);
    var x := ServedExchange(s, sent, received, lag, a, b, era);
    assert x.(a := x.a - 0) == x;
  }

  lemma ClientReadsReply(s: ServerState, input: PacketInput, host: string, sent: int64, received: int64)
    requires s.config.Accepted() && Process(s, input).reply.Some?
    ensures var r := ClientReads(host, sent, Process(s, input).reply.value, received);
            r.success && r.server == host && r.stratum == StratumInEffect(s.config, s.sync)
  {
    hide Process, Response, Encode, QueryUpstreamServer, CalculateOffset, CalculateRoundTripDelay, FromSystemTime;
    ReplyFromState(s, input);
    ResponseFields(s, input);
    AcceptsServerPacket(host, FromSystemTime(sent), Response(s, input), FromSystemTime(received));
  }

  /**
   End to end: through both conversions, the codec, the server and its correction, the client
   accepts the answer, its delay is a + b up to a few microseconds, and its offset to the
   server's own clock plus the synchronised offset is off by at most half the reported delay
   plus 1.5 us, or 2.5 us when the server corrects its clock.
   */
  lemma ExchangeThroughServer(s: ServerState, input: PacketInput, host: string,
                              sent: int64, received: int64, lag: int, a: nat, b: nat, era: int)
    requires s.config.Accepted()
    requires Process(s, input).reply.Some? && ExchangeWith(s, input, sent, received, lag, a, b, era)
    ensures var r := ClientReads(host, sent, Process(s, input).reply.value, received);
            var offsetUs := match s.sync case None => 0 case Some(u) => u.clockOffsetUs;
            var loss := if offsetUs == 0 then 1000 else 2000;
            && r.success && r.server == host
            && OffsetWithin(r.offsetUs, r.delayUs, lag + offsetUs * 1000, 500 + loss)
            && -(1000 + loss) <= r.delayUs * 1000 - (a + b) <= 1000 + loss
  {
    hide Process, Encode, QueryUpstreamServer, FromSystemTime, ExchangeWith, AnswersExchange, OffsetWithin;
    var p := Process(s, input).reply.value;
    ClientReadsReply(s, input, host, sent, received);
    ReplyIsAnswer(s, input, sent, received, lag, a, b, era);
    AnswerWithin(host, ReplyTo(sent, p, received), ServedExchange(s, sent, received, lag, a, b, era),
                 0, StampLoss(ServedOffset(s.sync)));
  }

  lemma RequestIsClientData(sent: int64)
    ensures ClientRequestData(Encode(ClientRequest(sent)))
  {
    hide Encode, Decode, FromSystemTime;
    DecodeEncode(ClientRequest(sent));
  }

  /** Whatever limits an accepted configuration sets, they let the first request of an admitted client through. */
  lemma FirstRequestAnswered(config: NtpConfig, input: PacketInput)
    requires config.Accepted() && Admits(config.acl, input.key.ip)
    requires ClientRequestData(input.arrival.data) && (config.enableAuthentication ==> input.arrival.authentic)
    ensures Process(Initial(config), input).reply.Some? <==> input.sendOk
  {
    hide ClientRequestData, Admits, Process;
    var s := Initial(config);
    FirstScreened(config, input);
    ProcessFields(s, input);
  }

  /** With both access switches off, as by default, the first valid request of any client is answered. */
  lemma OpenServerAnswers(config: NtpConfig, input: PacketInput)
    requires config.Accepted() && !config.acl.enabled && !config.acl.restrictQueries
    requires ValidBytes(input.arrival.data, 3) && (config.enableAuthentication ==> input.arrival.authentic)
    ensures Process(Initial(config), input).reply.Some? <==> input.sendOk
  {
    hide ClientRequestData, Admits, Process, NtpConfig.Accepted;
    ClientBytes(input.arrival.data);
    AdmittedIff(config.acl, input.key.ip);
    FirstRequestAnswered(config, input);
  }

  lemma FirstScreened(config: NtpConfig, input: PacketInput)
    requires config.Accepted() && Admits(config.acl, input.key.ip)
    ensures Screened(Initial(config), input).passed
  {
    hide Admits;
  }

  /** The first exchange of an admitted client with a server that has not synchronised yet, in any era. */
  lemma FirstExchange(config: NtpConfig, input: PacketInput, host: string,
                      sent: int64, received: int64, theta: int, a: nat, b: nat, era: int)
    requires config.Accepted() && Admits(config.acl, input.key.ip) && input.sendOk
    requires config.enableAuthentication ==> input.arrival.authentic
    requires input.arrival.data == Encode(ClientRequest(sent))
    requires input.receivedAt == sent + a + theta && input.sentAt == received - b + theta
    requires ReadableIn(sent, era) && ReadableIn(received, era)
    requires ReadableIn(input.receivedAt, era) && ReadableIn(input.sentAt, era)
    ensures Process(Initial(config), input).reply.Some?
    ensures var r := ClientReads(host, sent, Process(Initial(config), input).reply.value, received);
            r.success && OffsetWithin(r.offsetUs, r.delayUs, theta, 1500) && -2000 <= r.delayUs * 1000 - (a + b) <= 2000
  {
    hide Process, Encode, ClientReads, Admits;
    RequestIsClientData(sent);
    FirstRequestAnswered(config, input);
    ExchangeThroughServer(Initial(config), input, host, sent, received, theta, a, b, era);
  }

  // ---------------------------------------------------------------- two hops

  /** The reply came out of an exchange with a clock within `spread` of one that is `theta` ahead of ours. */
  ghost predicate ShowsClock(reply: UpstreamReply, theta: int, spread: nat, loss: nat) {
    exists x: Exchange :: AnswersExchange(reply, x, 0, loss) && theta - spread <= x.theta <= theta + spread
  }

  /** Every reply that a synchronisation round accepts came out of such an exchange. */
  ghost predicate ShowsReference(e: Event, theta: int, spread: nat, loss: nat) {
    e.Sync? && |e.servers| == |e.replies| ==>
      forall i :: 0 <= i < |e.servers| && QueryUpstreamServer(e.servers[i], e.replies[i]).success ==>
                    ShowsClock(e.replies[i], theta, spread, loss)
  }

  /** The committed offset is off by at most half its delay plus a constant. */
  ghost predicate SyncQuality(sync: Option<SyncState>, theta: int, slack: nat) {
    sync.Some? && sync.value.synced ==> OffsetWithin(sync.value.clockOffsetUs, sync.value.lastDelayUs, theta, slack)
  }

  lemma ShownWithin(host: string, reply: UpstreamReply, theta: int, spread: nat, loss: nat)
    requires QueryUpstreamServer(host, reply).success && ShowsClock(reply, theta, spread, loss)
    ensures var r := QueryUpstreamServer(host, reply); OffsetWithin(r.offsetUs, r.delayUs, theta, Slack(loss) + spread)
  {
    hide QueryUpstreamServer, Exchanged, Decode;
    var x: Exchange :| AnswersExchange(reply, x, 0, loss) && theta - spread <= x.theta <= theta + spread;
    AnswerWithin(host, reply, x, 0, loss);
  }

  lemma RoundQuality(s: ServerState, e: Event, theta: int, spread: nat, loss: nat)
    requires e.Sync? && |e.servers| == |e.replies| && ShowsReference(e, theta, spread, loss)
    requires SyncQuality(s.sync, theta, Slack(loss) + spread)
    ensures SyncQuality(Synchronised(s, Attempts(e.servers, e.replies), e.now).sync, theta, Slack(loss) + spread)
  {
    hide QueryUpstreamServer, ShowsClock, OffsetWithin, BestOf;
    var attempts := Attempts(e.servers, e.replies);
    var i := BestPosition(attempts);
    if BestOf(attempts).success {
      ShownWithin(e.servers[i], e.replies[i], theta, spread, loss);
    }
  }

  lemma StepQuality(s: ServerState, e: Event, theta: int, spread: nat, loss: nat)
    requires SyncQuality(s.sync, theta, Slack(loss) + spread) && ShowsReference(e, theta, spread, loss)
    ensures SyncQuality(Step(s, e).sync, theta, Slack(loss) + spread)
  {
    hide Process, Synchronised, OffsetWithin, Attempts, ShowsReference;
    match e
    case Receive(input) => ProcessFields(s, input);
    case Sync(servers, replies, now) =>
      if |servers| == |replies| {
        RoundQuality(s, e, theta, spread, loss);
      }
    case _ =>
  }

  /** Over every run, whatever else happens in it, the committed offset is as good as the exchanges it came from. */
  lemma {:induction false} SyncQualityKept(config: NtpConfig, events: seq<Event>, theta: int, spread: nat, loss: nat)
    requires forall e :: e in events ==> ShowsReference(e, theta, spread, loss)
    ensures SyncQuality(Run(config, events).sync, theta, Slack(loss) + spread)
  {
    hide Step, ShowsReference, OffsetWithin;
    if events != [] {
      SyncQualityKept(config, events[..|events| - 1], theta, spread, loss);
      StepQuality(Run(config, events[..|events| - 1]), events[|events| - 1], theta, spread, loss);
    }
  }

  /** The rounds of a run. */
  function RoundsOf(events: seq<Event>): seq<Round> {
    if events == [] then []
    else
      var e := events[|events| - 1];
      RoundsOf(events[..|events| - 1])
      + (if e.Sync? && |e.servers| == |e.replies| then [Round(Attempts(e.servers, e.replies), e.now)] else [])
  }

  lemma OneMoreRound(s: SyncState, rounds: seq<Round>, last: Round)
    ensures RunRounds(s, rounds + [last]) == Commit(RunRounds(s, rounds), BestOf(last.attempts), last.now)
  {
    assert (rounds + [last])[..|rounds|] == rounds;
  }

  lemma StepSync(s: ServerState, e: Event)
    ensures Step(s, e).sync ==
            if e.Sync? && |e.servers| == |e.replies| && s.sync.Some?
            then Some(Commit(s.sync.value, BestOf(Attempts(e.servers, e.replies)), e.now)) else s.sync
  {
    hide Process, Attempts, BestOf, Commit;
    if e.Receive? {
      ProcessFields(s, e.input);
    }
  }

  /** Over every run the server's clock state is that of its rounds alone, if it started with upstreams, and none otherwise. */
  lemma {:induction false} SyncFollowsRounds(config: NtpConfig, events: seq<Event>)
    ensures Run(config, events).sync ==
            if config.upstreamServers == [] then None else Some(RunRounds(UNSYNCED, RoundsOf(events)))
  {
    hide Step, Attempts, BestOf, Commit;
    if events == [] {
      assert Run(config, events) == Initial(config);
    } else {
      var init, e := events[..|events| - 1], events[|events| - 1];
      SyncFollowsRounds(config, init);
      StepSync(Run(config, init), e);
      if e.Sync? && |e.servers| == |e.replies| {
        OneMoreRound(UNSYNCED, RoundsOf(init), Round(Attempts(e.servers, e.replies), e.now));
      } else {
        assert RoundsOf(events) == RoundsOf(init);
      }
    }
  }

  lemma BoundsAdd(offsetUs: int, delayUs: int, offsetUs': int, delayUs': int,
                  theta: int, theta': int, slack: nat, slack': nat)
    requires OffsetWithin(offsetUs, delayUs, theta + offsetUs' * 1000, slack)
    requires OffsetWithin(offsetUs', delayUs', theta', slack')
    ensures OffsetWithin(offsetUs, delayUs + delayUs', theta + theta', slack + slack')
  {
  }

  lemma MoreSlack(offsetUs: int, delayUs: int, theta: int, slack: nat, slack': nat)
    requires OffsetWithin(offsetUs, delayUs, theta, slack) && slack <= slack'
    ensures OffsetWithin(offsetUs, delayUs, theta, slack')
  {
  }

  /**
   Two hops, each an exchange. In any run whose synchronisations exchanged stamps with clocks
   within `spread` of a reference `theta` ahead of this server's own, a client whose clock is
   `lag` behind this server's reads an offset to that reference that is off by at most half of
   both reported delays together plus the constants of both hops.
   */
  lemma ReferenceThroughServer(config: NtpConfig, events: seq<Event>, input: PacketInput, host: string, sent: int64, received: int64,
                               lag: int, a: nat, b: nat, era: int, theta: int, spread: nat, loss: nat)
    requires config.Accepted()
    requires forall e :: e in events ==> ShowsReference(e, theta, spread, loss)
    requires var s := Run(config, events);
             && s.sync.Some? && s.sync.value.synced
             && Process(s, input).reply.Some?
             && input.arrival.data == Encode(ClientRequest(sent))
             && input.receivedAt == sent + a + lag && input.sentAt == received - b + lag
             && ReadableIn(sent, era) && ReadableIn(received, era)
             && Servable(input.receivedAt, s.sync.value.clockOffsetUs, era)
             && Servable(input.sentAt, s.sync.value.clockOffsetUs, era)
    ensures var s := Run(config, events);
            var r := ClientReads(host, sent, Process(s, input).reply.value, received);
            && r.success
            && OffsetWithin(r.offsetUs, r.delayUs + s.sync.value.lastDelayUs, lag + theta, 2500 + Slack(loss) + spread)
  {
    hide Run, Process, ClientReads, OffsetWithin, ShowsReference, Slack, Encode, ReadableIn, Servable;
    var s := Run(config, events);
    var u := s.sync.value;
    ConfigStaysAccepted(config, events);
    SyncQualityKept(config, events, theta, spread, loss);
    ExchangeThroughServer(s, input, host, sent, received, lag, a, b, era);
    var r := ClientReads(host, sent, Process(s, input).reply.value, received);
    MoreSlack(r.offsetUs, r.delayUs, lag + u.clockOffsetUs * 1000, if u.clockOffsetUs == 0 then 1500 else 2500, 2500);
    BoundsAdd(r.offsetUs, r.delayUs, u.clockOffsetUs, u.lastDelayUs, lag, theta, 2500, Slack(loss) + spread);
  }
}
