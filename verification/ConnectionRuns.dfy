/**
 The connections over whole runs: how long they stay, under which configuration they decide,
 and how many answers each gets in a minute.
 */
module ConnectionRuns {
  import opened Wrappers
  import opened NtpTime
  import opened PacketCodec
  import opened AccessControl
  import opened UpstreamSync
  import opened Config
  import opened Connection
  import opened ServerModel
  import opened ServerRuns
  import opened Accounting
  import opened FailoverRuns
  import opened AdmissionRuns
  import R = RateLimit

  /** The connection that a packet of a client meets. */
  function ConnectionFor(s: ServerState, key: ClientKey): Conn {
    if key in s.connections then s.connections[key] else NewConnection(s.config, key)
  }

  lemma HandledKeeps(conn: Conn, arrival: Arrival)
    ensures Handled(conn, arrival).active == conn.active && Handled(conn, arrival).config == conn.config
  {
  }

  lemma ServedConnections(s: ServerState, input: PacketInput)
    requires input.key in s.connections
    ensures Served(s, input).state.connections == s.connections[input.key := Handled(s.connections[input.key], input.arrival)]
  {
    hide Accepts, Answered, Response, Handled, CountTime, CountError;
    AnsweredFields(Delivered(s, input), input);
  }

  /** A packet changes its client's connection alone, and only past admission. */
  lemma ProcessedConnections(s: ServerState, input: PacketInput)
    ensures Process(s, input).state.connections ==
            if Screened(s, input).passed
            then s.connections[input.key := Handled(ConnectionFor(s, input.key), input.arrival)] else s.connections
  {
    hide Screened, Served, Handled, NewConnection;
    ScreenedFields(s, input);
    if Screened(s, input).passed {
      ServedConnections(Connected(Screened(s, input).state, input.key), input);
    }
  }

  /** A packet is answered exactly if it passes admission, its connection accepts it and it can be sent. */
  lemma AnsweredIff(s: ServerState, input: PacketInput)
    ensures Process(s, input).reply.Some? <==>
            Screened(s, input).passed && Accepts(ConnectionFor(s, input.key), input.arrival) && input.sendOk
  {
    hide Process, Screened, Accepts, BookedServed, NewConnection, CountConnection, CountError;
    ScreenedFields(s, input);
    ProcessFields(s, input);
  }

  lemma AnsweredIffReached(s: ServerState, input: PacketInput)
    ensures Process(s, input).reply.Some? <==> Reached(s, input) && input.sendOk
  {
    hide Process, Screened, Accepts, NewConnection, CountConnection;
    AnsweredIff(s, input);
    ScreenedFields(s, input);
  }

  lemma ClientBytes(data: seq<byte>)
    ensures ClientRequestData(data) <==> ValidBytes(data, 3)
  {
    hide Decode;
    if |data| >= NTP_PACKET_SIZE {
      ValidBytesIff(data);
    }
  }

  /** Calls the connection has counted in a minute. */
  function CountedIn(conn: Conn, bucket: nat): nat {
    if bucket in conn.requestBuckets then conn.requestBuckets[bucket] else 0
  }

  /**
   When a packet is answered, in full, after any run: exactly if the access list admits its
   client; the client's packets this minute stay within the limit, and those this second too
   if anomalies are dropped; its connection is active; its bytes are a valid client packet,
   mode 3; the connection's requests this minute stay within its limit; it is authentic if
   the connection demands it; and the answer can be sent. Counters are modulo 2^32.
   */
  lemma AnsweredExactly(config: NtpConfig, events: seq<Event>, input: PacketInput)
    requires SteadyClock(Minute, events + [Receive(input)]) && SteadyClock(Second, events + [Receive(input)])
    ensures var s := Run(config, events);
            var conn, ip := ConnectionFor(s, input.key), input.key.ip;
            Process(s, input).reply.Some? <==>
              && Admits(s.config.acl, ip)
              && (s.config.enableRateLimiting ==>
                    (PacketsIn(Minute, config, events, ip, input.minuteBucket) + 1) % 0x1_0000_0000
                    <= s.config.connectionRateLimit)
              && (s.config.enableDdosProtection && s.config.enableGracefulDegradation ==>
                    (PacketsIn(Second, config, events, ip, input.secondBucket) + 1) % 0x1_0000_0000
                    <= s.config.ddosThreshold)
              && conn.active
              && ValidBytes(input.arrival.data, 3)
              && (conn.config.enableRateLimiting ==>
                    (CountedIn(conn, input.arrival.minuteBucket) + 1) % 0x1_0000_0000 <= conn.config.requestRateLimit)
              && (conn.config.enableAuthentication ==> input.arrival.authentic)
              && input.sendOk
  {
    hide Run, Process, Screened, Admits, SteadyClock, Over, PacketsIn, ClientRequestData, ConnectionFor;
    var s := Run(config, events);
    AnsweredIff(s, input);
    PassedIff(s, input);
    OverIffTooMany(Minute, config, events, input);
    OverIffTooMany(Second, config, events, input);
    ClientBytes(input.arrival.data);
  }

  /** What one step does to the connection of one client. */
  lemma StepConnection(s: ServerState, e: Event, key: ClientKey)
    ensures var t := Step(s, e);
            && (key in t.connections && key in s.connections ==> t.connections[key].config == s.connections[key].config)
            && (key in t.connections && key !in s.connections ==>
                  e.Receive? && t.connections[key].config == s.config)
            && (key in s.connections && key !in t.connections ==> e.Cleanup? && !s.connections[key].active)
            && (key in t.connections && !e.StopConnection? && (key in s.connections ==> s.connections[key].active) ==>
                  t.connections[key].active)
  {
    hide Process, Screened, Handled, Accepts, BestOf, Commit;
    if e.Receive? {
      ProcessedConnections(s, e.input);
      HandledKeeps(ConnectionFor(s, e.input.key), e.input.arrival);
    }
  }

  // ---------------------------------------------------------------- how long connections stay

  /** Nothing stops a connection. The program itself does so only when it destroys one. */
  predicate NoStop(events: seq<Event>) { forall i :: 0 <= i < |events| ==> !events[i].StopConnection? }

  predicate AllActive(connections: map<ClientKey, Conn>) { forall k :: k in connections ==> connections[k].active }

  lemma StepWithoutStop(s: ServerState, e: Event)
    requires AllActive(s.connections) && !e.StopConnection?
    ensures AllActive(Step(s, e).connections) && s.connections.Keys <= Step(s, e).connections.Keys
  {
    hide Step;
    var t := Step(s, e);
    forall k | k in t.connections ensures t.connections[k].active {
      StepConnection(s, e, k);
    }
    forall k | k in s.connections ensures k in t.connections {
      StepConnection(s, e, k);
    }
  }

  lemma NoneInactive(connections: map<ClientKey, Conn>)
    requires AllActive(connections)
    ensures Inactive(connections) == {}
  {
  }

  /**
   Without a stop every connection stays active, so no cleanup ever erases one and the table
   only grows: it holds every client that was ever admitted.
   */
  lemma {:induction false} TableNeverShrinks(config: NtpConfig, events: seq<Event>, n: nat)
    requires NoStop(events) && n <= |events|
    ensures AllActive(Run(config, events).connections) && LedgerOf(config, events).erased == 0
    ensures Run(config, events[..n]).connections.Keys <= Run(config, events).connections.Keys
  {
    hide Step, AllActive, Inactive, Process, Refused;
    if events == [] {
      assert events[..n] == events;
      NoneActive(config);
    } else {
      var init, e := events[..|events| - 1], events[|events| - 1];
      TableNeverShrinks(config, init, if n < |events| then n else |init|);
      NoneInactive(Run(config, init).connections);
      StepWithoutStop(Run(config, init), e);
      if n < |events| {
        assert init[..n] == events[..n];
      } else {
        assert events[..n] == events;
      }
    }
  }

  lemma NoneActive(config: NtpConfig)
    ensures AllActive(Initial(config).connections)
  {
  }

  /** A connection that is stopped answers nothing more, and the next cleanup erases it. */
  lemma StoppedIsErased(config: NtpConfig, events: seq<Event>, key: ClientKey, input: PacketInput)
    requires key in Run(config, events).connections && input.key == key
    ensures var s := Step(Run(config, events), StopConnection(key));
            Process(s, input).reply == None && key !in Step(s, Cleanup).connections
  {
    hide Run, Process, Screened, ClientRequestData;
    AnsweredIff(Step(Run(config, events), StopConnection(key)), input);
  }

  // ---------------------------------------------------------------- under which configuration they decide

  /** The configuration in force when a client's present connection was made. */
  function ConfigWhenMade(config: NtpConfig, events: seq<Event>, key: ClientKey): Option<NtpConfig> {
    if events == [] || key !in Run(config, events).connections then None
    else
      var init := events[..|events| - 1];
      if key in Run(config, init).connections then ConfigWhenMade(config, init, key) else Some(Run(config, init).config)
  }

  /** Over every run a connection keeps the configuration in force when it was made, whatever is reloaded. */
  lemma {:induction false} ConnectionKeepsConfig(config: NtpConfig, events: seq<Event>, key: ClientKey)
    ensures var connections := Run(config, events).connections;
            ConfigWhenMade(config, events, key) ==
            if key in connections then Some(connections[key].config) else None
  {
    hide Step;
    if events == [] {
      assert Run(config, events) == Initial(config);
    } else {
      var init, e := events[..|events| - 1], events[|events| - 1];
      ConnectionKeepsConfig(config, init, key);
      StepConnection(Run(config, init), e, key);
    }
  }

  /** The conditions on a request other than that it is authentic. */
  predicate AdmissibleRequest(s: ServerState, input: PacketInput) {
    var conn := ConnectionFor(s, input.key);
    && Screened(s, input).passed && conn.active && ClientRequestData(input.arrival.data) && input.sendOk
    && (conn.config.enableRateLimiting ==>
          R.HistoryCount(conn.requestBuckets, input.arrival.minuteBucket) <= conn.config.requestRateLimit)
  }

  /**
   Authentication that a reload turns on does not reach a client with a connection: after any
   run, while the configuration demands authentication, a packet that is not authentic is
   answered exactly if its client's connection was made under one that did not.
   */
  lemma UnauthenticatedAnsweredIff(config: NtpConfig, events: seq<Event>, input: PacketInput)
    requires Run(config, events).config.enableAuthentication && !input.arrival.authentic
    ensures Process(Run(config, events), input).reply.Some? <==>
            && AdmissibleRequest(Run(config, events), input)
            && ConfigWhenMade(config, events, input.key).Some?
            && !ConfigWhenMade(config, events, input.key).value.enableAuthentication
  {
    hide Process, Screened, Run, ClientRequestData;
    AnsweredIff(Run(config, events), input);
    ConnectionKeepsConfig(config, events, input.key);
  }

  // ---------------------------------------------------------------- a client that is always served

  /** A client the access list admits, whose connection, if there is one, is active and was made under a valid configuration. */
  predicate Welcome(s: ServerState, key: ClientKey) {
    && s.config.Accepted() && Admits(s.config.acl, key.ip)
    && (key in s.connections ==> s.connections[key].active && s.connections[key].config.Accepted())
  }

  lemma UnusedBucket(history: R.History) returns (bucket: nat)
    ensures bucket !in history
  {
    bucket := Above(history.Keys);
  }

  lemma {:induction false} Above(buckets: set<nat>) returns (bound: nat)
    ensures forall b :: b in buckets ==> b < bound
    decreases |buckets|
  {
    if buckets == {} {
      bound := 0;
    } else {
      var b :| b in buckets;
      var rest := Above(buckets - {b});
      bound := if b < rest then rest else b + 1;
      forall x | x in buckets ensures x < bound {
        assert x == b || x in buckets - {b};
      }
    }
  }

  /** A request of the client in minutes and a second it has not used yet. */
  function RequestAt(key: ClientKey, minute: nat, second: nat, connectionMinute: nat, authentic: bool, draw: nat): PacketInput {
    PacketInput(Arrival(Encode(ClientRequest(0)), connectionMinute, authentic), key, minute, second, 0, 0, 0, draw, true, 0)
  }

  lemma RequestAdmitted(s: ServerState, input: PacketInput)
    requires Welcome(s, input.key)
    requires input.minuteBucket != R.SlotOf(s.rateSlots, input.key.ip).bucket
    requires input.secondBucket != R.SlotOf(s.ddosSlots, input.key.ip).bucket
    ensures Screened(s, input).passed
  {
  }

  lemma RequestAccepted(conn: Conn, arrival: Arrival)
    requires conn.active && conn.config.Accepted() && (conn.config.enableAuthentication ==> arrival.authentic)
    requires ClientRequestData(arrival.data) && arrival.minuteBucket !in conn.requestBuckets
    ensures Accepts(conn, arrival)
  {
  }

  lemma RequestIsClientData()
    ensures ClientRequestData(Encode(ClientRequest(0)))
  {
    hide Encode, Decode, FromSystemTime;
    DecodeEncode(ClientRequest(0));
  }

  /** A welcome client can always send a request that reaches an answer. */
  lemma WelcomeRequest(s: ServerState, key: ClientKey, authentic: bool, draw: nat) returns (input: PacketInput)
    requires Welcome(s, key) && (ConnectionFor(s, key).config.enableAuthentication ==> authentic)
    ensures input.key == key && input.draw == draw && input.sendOk && input.arrival.authentic == authentic
    ensures Reached(s, input)
  {
    hide Accepts, ClientRequestData, Encode;
    var history := if key in s.connections then s.connections[key].requestBuckets else map[];
    var bucket := UnusedBucket(history);
    input := RequestAt(key, R.SlotOf(s.rateSlots, key.ip).bucket + 1, R.SlotOf(s.ddosSlots, key.ip).bucket + 1,
                       bucket, authentic, draw);
    RequestIsClientData();
    RequestAdmitted(s, input);
    ScreenedFields(s, input);
    RequestAccepted(Connected(Screened(s, input).state, key).connections[key], input.arrival);
  }

  lemma TwoSteps(config: NtpConfig, e: Event, e': Event)
    ensures Run(config, [e, e']) == Step(Step(Initial(config), e), e')
  {
    hide Step;
    assert [e, e'][..1] == [e] && [e][..0] == [];
    assert Run(config, []) == Initial(config);
    assert Run(config, [e]) == Step(Initial(config), e);
  }

  /** One answered request, then a reload that demands authentication: the next request needs none. */
  lemma UnauthenticatedAfterReload(config: NtpConfig, key: ClientKey, authenticationKey: string)
      returns (first: PacketInput, second: PacketInput)
    requires config.Accepted() && !config.enableAuthentication && authenticationKey != "" && Admits(config.acl, key.ip)
    ensures var c := config.(enableAuthentication := true, authenticationKey := authenticationKey);
            var s := Run(config, [Receive(first), Reload(Some(c))]);
            && s.config == c && c.Accepted()
            && !second.arrival.authentic && Process(s, second).reply.Some?
  {
    hide Process, Admits, Screened, Handled, Accepts;
    var c := config.(enableAuthentication := true, authenticationKey := authenticationKey);
    var s0 := Initial(config);
    first := WelcomeRequest(s0, key, false, 0);
    var s1 := Step(s0, Receive(first));
    var s2 := Step(s1, Reload(Some(c)));
    TwoSteps(config, Receive(first), Reload(Some(c)));
    ProcessedConnections(s0, first);
    HandledKeeps(ConnectionFor(s0, key), first.arrival);
    second := WelcomeRequest(s2, key, false, 0);
    AnsweredIffReached(s2, second);
  }

  // ---------------------------------------------------------------- what a connection books

  /** The packets that a client's connection accepted, and their bytes. */
  function Taken(config: NtpConfig, events: seq<Event>, key: ClientKey): nat {
    if events == [] then 0
    else
      var init, e := events[..|events| - 1], events[|events| - 1];
      Taken(config, init, key) + (if TakenBy(Run(config, init), e, key) then 1 else 0)
  }

  function TakenBytes(config: NtpConfig, events: seq<Event>, key: ClientKey): nat {
    if events == [] then 0
    else
      var init, e := events[..|events| - 1], events[|events| - 1];
      TakenBytes(config, init, key) + (if TakenBy(Run(config, init), e, key) then |e.input.arrival.data| else 0)
  }

  predicate TakenBy(s: ServerState, e: Event, key: ClientKey) {
    && e.Receive? && e.input.key == key && Screened(s, e.input).passed
    && Accepts(ConnectionFor(s, key), e.input.arrival)
  }

  predicate BooksTaken(conn: Conn, taken: nat, bytes: nat) { conn.packetsReceived == taken && conn.bytesReceived == bytes }

  lemma StepTaken(s: ServerState, e: Event, key: ClientKey, taken: nat, bytes: nat)
    requires BooksTaken(ConnectionFor(s, key), taken, bytes)
    requires key in s.connections ==> key in Step(s, e).connections
    ensures BooksTaken(ConnectionFor(Step(s, e), key),
                       taken + (if TakenBy(s, e, key) then 1 else 0),
                       bytes + (if TakenBy(s, e, key) then |e.input.arrival.data| else 0))
            || (key !in Step(s, e).connections && !TakenBy(s, e, key))
  {
    hide Process, Screened, Accepts, Handled, BestOf, Commit, NewConnection;
    if e.Receive? {
      ProcessedConnections(s, e.input);
      HandledBooks(ConnectionFor(s, e.input.key), e.input.arrival);
    }
  }

  lemma HandledBooks(conn: Conn, arrival: Arrival)
    ensures var after, n := Handled(conn, arrival), if Accepts(conn, arrival) then 1 else 0;
            && after.packetsReceived == conn.packetsReceived + n
            && after.bytesReceived == conn.bytesReceived + n * |arrival.data|
  {
    hide ClientRequestData;
  }

  lemma NothingTaken(config: NtpConfig, key: ClientKey)
    ensures BooksTaken(NewConnection(config, key), 0, 0)
  {
    hide Admits;
  }

  /** Over every run that does not erase a client's connection, it has booked exactly the packets it accepted and their bytes. */
  lemma {:induction false} ConnectionBooks(config: NtpConfig, events: seq<Event>, key: ClientKey)
    requires NeverErased(config, events, key)
    ensures BooksTaken(ConnectionFor(Run(config, events), key), Taken(config, events, key), TakenBytes(config, events, key))
    ensures key !in Run(config, events).connections ==> Taken(config, events, key) == 0 && TakenBytes(config, events, key) == 0
  {
    hide Step, TakenBy, BooksTaken, NewConnection, NeverErased;
    if events == [] {
      NothingTaken(config, key);
      assert Run(config, events) == Initial(config);
    } else {
      var init, e := events[..|events| - 1], events[|events| - 1];
      var s := Run(config, init);
      NeverErasedInit(config, events, key);
      ConnectionBooks(config, init, key);
      StepTaken(s, e, key, Taken(config, init, key), TakenBytes(config, init, key));
      NothingTaken(Step(s, e).config, key);
      TakenStays(s, e, key);
    }
  }

  lemma TakenStays(s: ServerState, e: Event, key: ClientKey)
    requires key in s.connections ==> key in Step(s, e).connections
    ensures TakenBy(s, e, key) ==> key in Step(s, e).connections
    ensures key !in Step(s, e).connections ==> key !in s.connections
  {
    hide Process, Screened, Accepts, Handled, BestOf, Commit, NewConnection;
    if e.Receive? {
      ProcessedConnections(s, e.input);
    }
  }

  /** Every connection in the table is a trusted one: the access list that admitted its first packet says so. */
  lemma {:induction false} EveryConnectionTrusted(config: NtpConfig, events: seq<Event>, key: ClientKey)
    ensures key in Run(config, events).connections ==> Run(config, events).connections[key].trusted
  {
    hide Step;
    if events == [] {
      assert Run(config, events) == Initial(config);
    } else {
      EveryConnectionTrusted(config, events[..|events| - 1], key);
      StepTrusted(Run(config, events[..|events| - 1]), events[|events| - 1], key);
    }
  }

  lemma StepTrusted(s: ServerState, e: Event, key: ClientKey)
    requires key in s.connections ==> s.connections[key].trusted
    ensures key in Step(s, e).connections ==> Step(s, e).connections[key].trusted
  {
    hide Process, Screened, Accepts, ClientRequestData, BestOf, Commit, Admits;
    if e.Receive? {
      ProcessedConnections(s, e.input);
      ScreenedFields(s, e.input);
    }
  }

  // ---------------------------------------------------------------- answers on one connection

  /** The packet counts against its connection's limit for the minute. */
  predicate CountsAgainst(s: ServerState, e: Event, key: ClientKey, bucket: nat) {
    && e.Receive? && e.input.key == key && e.input.arrival.minuteBucket == bucket
    && Screened(s, e.input).passed && ConnectionFor(s, key).active && ClientRequestData(e.input.arrival.data)
  }

  /** Requests of a client that reached its connection in a minute. */
  function Requests(config: NtpConfig, events: seq<Event>, key: ClientKey, bucket: nat): nat {
    if events == [] then 0
    else
      var init := events[..|events| - 1];
      Requests(config, init, key, bucket)
      + (if CountsAgainst(Run(config, init), events[|events| - 1], key, bucket) then 1 else 0)
  }

  predicate AnswersKey(s: ServerState, e: Event, key: ClientKey, bucket: nat) {
    e.Receive? && e.input.key == key && e.input.arrival.minuteBucket == bucket && Process(s, e.input).reply.Some?
  }

  function AnswersTo(config: NtpConfig, events: seq<Event>, key: ClientKey, bucket: nat): nat {
    if events == [] then 0
    else
      var init := events[..|events| - 1];
      AnswersTo(config, init, key, bucket)
      + (if AnswersKey(Run(config, init), events[|events| - 1], key, bucket) then 1 else 0)
  }

  /** The client's connection is never erased. */
  ghost predicate NeverErased(config: NtpConfig, events: seq<Event>, key: ClientKey) {
    forall i :: 0 <= i < |events| && key in Run(config, events[..i]).connections ==>
                  key in Run(config, events[..i + 1]).connections
  }

  lemma NeverErasedInit(config: NtpConfig, events: seq<Event>, key: ClientKey)
    requires events != [] && NeverErased(config, events, key)
    ensures var init := events[..|events| - 1];
            && NeverErased(config, init, key)
            && (key in Run(config, init).connections ==> key in Run(config, events).connections)
  {
    hide Run;
    var init := events[..|events| - 1];
    assert events[..|init| + 1] == events;
    forall i | 0 <= i < |init| && key in Run(config, init[..i]).connections
      ensures key in Run(config, init[..i + 1]).connections
    {
      assert init[..i] == events[..i] && init[..i + 1] == events[..i + 1];
    }
  }

  /** The counter of a limiting connection is exact, and its answers stay within both the requests and the limit. */
  predicate Metered(conn: Conn, bucket: nat, requests: nat, answers: nat) {
    conn.config.enableRateLimiting && requests < 0x1_0000_0000 ==>
      && requests == (if bucket in conn.requestBuckets then conn.requestBuckets[bucket] else 0)
      && answers <= requests && answers <= conn.config.requestRateLimit
  }

  lemma HandledMetered(conn: Conn, arrival: Arrival, bucket: nat, requests: nat, answers: nat)
    requires Metered(conn, bucket, requests, answers)
    ensures var counts := conn.active && ClientRequestData(arrival.data) && arrival.minuteBucket == bucket;
            var answered := arrival.minuteBucket == bucket && Accepts(conn, arrival);
            Metered(Handled(conn, arrival), bucket,
                    requests + (if counts then 1 else 0), answers + (if answered then 1 else 0))
  {
    hide ClientRequestData;
    if requests + 1 < 0x1_0000_0000 {
      SmallRemainder(requests + 1, 0x1_0000_0000);
    }
  }

  lemma FewerAnswers(conn: Conn, bucket: nat, requests: nat, answers: nat, fewer: nat)
    requires Metered(conn, bucket, requests, answers) && fewer <= answers
    ensures Metered(conn, bucket, requests, fewer)
  {
  }

  /** A packet of the client: its connection, new or not, stays metered. */
  lemma PacketMetered(s: ServerState, input: PacketInput, bucket: nat, requests: nat, answers: nat)
    requires Metered(ConnectionFor(s, input.key), bucket, requests, answers)
    ensures var t := Process(s, input).state;
            input.key in t.connections ==>
              Metered(t.connections[input.key], bucket,
                      requests + (if CountsAgainst(s, Receive(input), input.key, bucket) then 1 else 0),
                      answers + (if AnswersKey(s, Receive(input), input.key, bucket) then 1 else 0))
  {
    hide Process, Screened, Accepts, Handled, Metered, ClientRequestData, NewConnection;
    ProcessedConnections(s, input);
    AnsweredIff(s, input);
    var conn := ConnectionFor(s, input.key);
    HandledMetered(conn, input.arrival, bucket, requests, answers);
    if Screened(s, input).passed && !input.sendOk {
      var counts := if CountsAgainst(s, Receive(input), input.key, bucket) then 1 else 0;
      var answered := if input.arrival.minuteBucket == bucket && Accepts(conn, input.arrival) then 1 else 0;
      FewerAnswers(Handled(conn, input.arrival), bucket, requests + counts, answers + answered, answers);
    }
  }

  lemma OtherMetered(s: ServerState, e: Event, key: ClientKey, bucket: nat, requests: nat, answers: nat)
    requires !(e.Receive? && e.input.key == key) && key in s.connections && key in Step(s, e).connections
    requires Metered(s.connections[key], bucket, requests, answers)
    ensures Metered(Step(s, e).connections[key], bucket, requests, answers)
  {
    hide Process, Screened, Handled, BestOf, Commit;
    if e.Receive? {
      ProcessedConnections(s, e.input);
    }
  }

  lemma NewIsMetered(s: ServerState, key: ClientKey, bucket: nat)
    ensures Metered(NewConnection(s.config, key), bucket, 0, 0)
  {
    hide Admits;
  }

  lemma {:induction false} AnswersMetered(config: NtpConfig, events: seq<Event>, key: ClientKey, bucket: nat)
    requires NeverErased(config, events, key)
    ensures var s := Run(config, events);
            Metered(ConnectionFor(s, key), bucket, Requests(config, events, key, bucket), AnswersTo(config, events, key, bucket))
    ensures key !in Run(config, events).connections ==>
              Requests(config, events, key, bucket) == 0 && AnswersTo(config, events, key, bucket) == 0
  {
    hide Step, CountsAgainst, AnswersKey, Metered, NewConnection, NeverErased;
    if events == [] {
      NewIsMetered(Run(config, events), key, bucket);
      assert Run(config, events) == Initial(config);
    } else {
      var init, e := events[..|events| - 1], events[|events| - 1];
      NeverErasedInit(config, events, key);
      AnswersMetered(config, init, key, bucket);
      StepMetered(Run(config, init), e, key, bucket,
                  Requests(config, init, key, bucket), AnswersTo(config, init, key, bucket));
    }
  }

  lemma StepMetered(s: ServerState, e: Event, key: ClientKey, bucket: nat, requests: nat, answers: nat)
    requires Metered(ConnectionFor(s, key), bucket, requests, answers)
    requires key !in s.connections ==> requests == 0 && answers == 0
    requires key in s.connections ==> key in Step(s, e).connections
    ensures var requests' := requests + (if CountsAgainst(s, e, key, bucket) then 1 else 0);
            var answers' := answers + (if AnswersKey(s, e, key, bucket) then 1 else 0);
            && Metered(ConnectionFor(Step(s, e), key), bucket, requests', answers')
            && (key !in Step(s, e).connections ==> requests' == 0 && answers' == 0)
  {
    hide Process, Screened, Accepts, Handled, Metered, ClientRequestData, NewConnection, Step;
    if e.Receive? && e.input.key == key {
      PacketStep(s, e.input, bucket, requests, answers);
    } else {
      StepConnection(s, e, key);
      if key in s.connections {
        OtherMetered(s, e, key, bucket, requests, answers);
      } else {
        NotInserted(s, e, key);
        NewIsMetered(Step(s, e), key, bucket);
      }
    }
  }

  lemma PacketStep(s: ServerState, input: PacketInput, bucket: nat, requests: nat, answers: nat)
    requires Metered(ConnectionFor(s, input.key), bucket, requests, answers)
    requires input.key !in s.connections ==> requests == 0 && answers == 0
    ensures var e, key := Receive(input), input.key;
            var requests' := requests + (if CountsAgainst(s, e, key, bucket) then 1 else 0);
            var answers' := answers + (if AnswersKey(s, e, key, bucket) then 1 else 0);
            && Metered(ConnectionFor(Step(s, e), key), bucket, requests', answers')
            && (key !in Step(s, e).connections ==> requests' == 0 && answers' == 0)
  {
    hide Process, Screened, Accepts, Handled, Metered, ClientRequestData, NewConnection;
    PacketMetered(s, input, bucket, requests, answers);
    ProcessedConnections(s, input);
    AnsweredIff(s, input);
    NewIsMetered(Step(s, Receive(input)), input.key, bucket);
  }

  lemma NotInserted(s: ServerState, e: Event, key: ClientKey)
    requires key !in s.connections && !(e.Receive? && e.input.key == key)
    ensures key !in Step(s, e).connections
  {
    hide Process, Screened, Handled, BestOf, Commit;
    if e.Receive? {
      ProcessedConnections(s, e.input);
    }
  }

  /**
   A client whose connection is never erased gets at most `requestRateLimit` answers a minute
   on it, over every run, with the limit in force when the connection was made.
   */
  lemma ConnectionAnswersAMinute(config: NtpConfig, events: seq<Event>, key: ClientKey, bucket: nat)
    requires NeverErased(config, events, key) && key in Run(config, events).connections
    requires Run(config, events).connections[key].config.enableRateLimiting
    requires Requests(config, events, key, bucket) < 0x1_0000_0000
    ensures AnswersTo(config, events, key, bucket) <= Run(config, events).connections[key].config.requestRateLimit
  {
    hide Run;
    AnswersMetered(config, events, key, bucket);
  }
}
