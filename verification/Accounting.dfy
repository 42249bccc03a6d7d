/**
 The counters of the server against a ledger kept from outside: what was answered, refused,
 dropped, connected and erased, as seen from packets, replies and the table alone.
 */
module Accounting {
  import opened NtpTime
  import opened PacketCodec
  import opened UpstreamSync
  import opened Config
  import opened Connection
  import opened ServerModel
  import opened ServerRuns

  datatype Ledger = Ledger(answered: nat, unanswered: nat, bytes: nat, made: nat, erased: nat, durations: seq<uint64>)

  const EMPTY := Ledger(0, 0, 0, 0, 0, [])

  /** The packet passed admission and its connection did not accept it. */
  predicate Refused(s: ServerState, input: PacketInput) {
    var sc := Screened(s, input);
    sc.passed && !Accepts(Connected(sc.state, input.key).connections[input.key], input.arrival)
  }

  function Inactive(connections: map<ClientKey, Conn>): set<ClientKey> {
    set k | k in connections && !connections[k].active
  }

  /**
   One event: a packet is answered or not; a client is new to the table or not; packets
   answered or refused by their connection are timed; a cleanup erases the inactive entries.
   */
  function Entered(l: Ledger, s: ServerState, e: Event): Ledger {
    match e
    case Receive(input) =>
      var o := Process(s, input);
      var made := if input.key !in s.connections && input.key in o.state.connections then 1 else 0;
      if o.reply.Some? then
        Ledger(l.answered + 1, l.unanswered, l.bytes + |input.arrival.data|, l.made + made, l.erased, l.durations + [input.duration])
      else
        Ledger(l.answered, l.unanswered + 1, l.bytes, l.made + made, l.erased,
               l.durations + (if Refused(s, input) then [input.duration] else []))
    case Cleanup => l.(erased := l.erased + |Inactive(s.connections)|)
    case _ => l
  }

  function LedgerOf(config: NtpConfig, events: seq<Event>): Ledger {
    if events == [] then EMPTY
    else
      var init := events[..|events| - 1];
      Entered(LedgerOf(config, init), Run(config, init), events[|events| - 1])
  }

  function Sum(durations: seq<uint64>): nat {
    if durations == [] then 0 else Sum(durations[..|durations| - 1]) + durations[|durations| - 1]
  }

  /** The times booked are those of the timed packets: how many, their sum, their greatest and their least. */
  ghost predicate TimesAgree(stats: Stats, durations: seq<uint64>) {
    && stats.processedCount == |durations|
    && stats.processingTime == Sum(durations)
    && (forall i :: 0 <= i < |durations| ==> Between(durations[i], stats.minTime, stats.maxTime))
    && (if durations == [] then stats.maxTime == 0 && stats.minTime == 0xFFFF_FFFF_FFFF_FFFF
        else stats.maxTime in durations && stats.minTime in durations)
  }

  predicate Between(d: nat, least: nat, most: nat) { least <= d <= most }

  predicate CountsAgree(stats: Stats, l: Ledger) {
    && stats.totalRequests == l.answered && stats.totalResponses == l.answered && stats.totalErrors == l.unanswered
    && stats.totalBytes == l.bytes
  }

  predicate ConnectionsAgree(stats: Stats, l: Ledger, table: nat) {
    stats.activeConnections == table && stats.totalConnections == l.made == table + l.erased
  }

  ghost predicate Agree(stats: Stats, l: Ledger, table: nat) {
    CountsAgree(stats, l) && ConnectionsAgree(stats, l, table) && TimesAgree(stats, l.durations)
  }

  lemma TimeAgrees(stats: Stats, durations: seq<uint64>, d: uint64)
    requires TimesAgree(stats, durations)
    ensures TimesAgree(CountTime(stats, d), durations + [d])
  {
    var more := durations + [d];
    assert more[..|durations|] == durations;
    var t := CountTime(stats, d);
    forall i | 0 <= i < |more| ensures Between(more[i], t.minTime, t.maxTime) {
      if i < |durations| {
        assert Between(durations[i], stats.minTime, stats.maxTime);
      }
    }
    assert d in more;
  }

  /** What is booked for one packet that passed admission. */
  lemma BookedAgrees(stats: Stats, l: Ledger, input: PacketInput, accepted: bool, table: nat)
    requires Agree(stats, l, table)
    ensures var t := BookedServed(stats, input, accepted);
            Agree(t, if accepted && input.sendOk
                     then Ledger(l.answered + 1, l.unanswered, l.bytes + |input.arrival.data|, l.made, l.erased,
                                 l.durations + [input.duration])
                     else Ledger(l.answered, l.unanswered + 1, l.bytes, l.made, l.erased,
                                 l.durations + (if accepted then [] else [input.duration])), table)
  {
    hide TimesAgree;
    if !accepted {
      TimesIgnoreCounts(stats, CountError(stats), l.durations);
      TimeAgrees(CountError(stats), l.durations, input.duration);
    } else if input.sendOk {
      TimesIgnoreCounts(stats, CountResponse(stats, |input.arrival.data|), l.durations);
      TimeAgrees(CountResponse(stats, |input.arrival.data|), l.durations, input.duration);
    } else {
      TimesIgnoreCounts(stats, CountError(stats), l.durations);
      assert l.durations + [] == l.durations;
    }
  }

  lemma TimesIgnoreCounts(stats: Stats, stats': Stats, durations: seq<uint64>)
    requires TimesAgree(stats, durations)
    requires stats'.processedCount == stats.processedCount && stats'.processingTime == stats.processingTime
    requires stats'.maxTime == stats.maxTime && stats'.minTime == stats.minTime
    ensures TimesAgree(stats', durations)
  {
  }

  lemma ConnectedAgrees(s: ServerState, key: ClientKey, l: Ledger)
    requires Agree(s.stats, l, |s.connections|)
    ensures var c := Connected(s, key);
            Agree(c.stats, l.(made := l.made + (if key in s.connections then 0 else 1)), |c.connections|)
  {
    hide NewConnection, TimesAgree;
    var c := Connected(s, key);
    if key !in s.connections {
      assert c.connections.Keys == s.connections.Keys + {key};
      assert |c.connections| == |s.connections| + 1;
      TimesIgnoreCounts(s.stats, c.stats, l.durations);
    }
  }

  lemma DroppedAgrees(stats: Stats, l: Ledger, table: nat)
    requires Agree(stats, l, table)
    ensures Agree(CountError(stats), l.(unanswered := l.unanswered + 1), table)
  {
    hide TimesAgree;
    TimesIgnoreCounts(stats, CountError(stats), l.durations);
  }

  lemma PacketAgrees(s: ServerState, input: PacketInput, l: Ledger)
    requires Agree(s.stats, l, |s.connections|)
    ensures var t := Process(s, input).state; Agree(t.stats, Entered(l, s, Receive(input)), |t.connections|)
  {
    hide Process, Screened, Accepts, Connected, BookedServed, Agree;
    ProcessFields(s, input);
    ScreenedFields(s, input);
    var o := Process(s, input);
    var sc := Screened(s, input);
    if sc.passed {
      var c := Connected(sc.state, input.key);
      ConnectedAgrees(sc.state, input.key, l);
      ConnectedKeys(sc.state, input.key);
      var made := l.(made := l.made + (if input.key in s.connections then 0 else 1));
      BookedAgrees(c.stats, made, input, Accepts(c.connections[input.key], input.arrival), |c.connections|);
      assert |o.state.connections| == |o.state.connections.Keys| == |c.connections.Keys| == |c.connections|;
    } else {
      DroppedAgrees(s.stats, l, |s.connections|);
      assert l.durations + [] == l.durations;
    }
  }

  lemma ConnectedKeys(s: ServerState, key: ClientKey)
    ensures Connected(s, key).connections.Keys == s.connections.Keys + {key}
  {
  }

  lemma KeptAndInactive(connections: map<ClientKey, Conn>)
    ensures |connections| == |KeptConnections(connections)| + |Inactive(connections)|
  {
    var kept := KeptConnections(connections);
    assert connections.Keys == kept.Keys + Inactive(connections) && kept.Keys !! Inactive(connections);
    assert |kept| == |kept.Keys| && |connections| == |connections.Keys|;
  }

  /** A cleanup books what it erases, and leaves exactly the active entries. */
  lemma CleanupAgrees(s: ServerState, l: Ledger)
    requires Agree(s.stats, l, |s.connections|)
    ensures var t := Cleaned(s); Agree(t.stats, Entered(l, s, Cleanup), |t.connections|)
    ensures forall k :: k in Cleaned(s).connections <==> k in s.connections && s.connections[k].active
  {
    hide TimesAgree, Inactive;
    KeptAndInactive(s.connections);
    TimesIgnoreCounts(s.stats, Cleaned(s).stats, l.durations);
  }

  lemma OtherAgrees(s: ServerState, e: Event)
    requires !e.Receive? && !e.Cleanup?
    ensures var t := Step(s, e); t.stats == s.stats && |t.connections| == |s.connections|
  {
    hide Attempts, Commit, BestOf;
    var t := Step(s, e);
    assert t.connections.Keys == s.connections.Keys;
    assert |t.connections| == |t.connections.Keys| && |s.connections| == |s.connections.Keys|;
  }

  /**
   Over every run the counters are those of the ledger: a request and a response for every
   answered packet and an error for every other, the bytes of the answered packets, a connection
   for every client that was new, all of them in the table or erased, and the times of the
   packets answered or refused by their connection.
   */
  lemma {:induction false} BooksAgree(config: NtpConfig, events: seq<Event>)
    ensures var s := Run(config, events); Agree(s.stats, LedgerOf(config, events), |s.connections|)
  {
    hide Process, Cleaned, Step, Agree, Entered, Initial;
    if events == [] {
      NothingBooked(config);
    } else {
      var init, e := events[..|events| - 1], events[|events| - 1];
      var before := Run(config, init);
      BooksAgree(config, init);
      StepAgrees(before, e, LedgerOf(config, init));
    }
  }

  lemma StepAgrees(s: ServerState, e: Event, l: Ledger)
    requires Agree(s.stats, l, |s.connections|)
    ensures var t := Step(s, e); Agree(t.stats, Entered(l, s, e), |t.connections|)
  {
    hide Process, Cleaned, Reloaded, Synchronised, Stopped, Attempts, Agree;
    match e
    case Receive(input) => PacketAgrees(s, input, l);
    case Cleanup => CleanupAgrees(s, l);
    case _ => OtherAgrees(s, e);
  }

  lemma NothingBooked(config: NtpConfig)
    ensures var s := Initial(config); Agree(s.stats, EMPTY, |s.connections|)
  {
  }

  // ---------------------------------------------------------------- the balance

  /** Datagrams processed in a run. */
  function Received(events: seq<Event>): nat {
    if events == [] then 0
    else Received(events[..|events| - 1]) + (if events[|events| - 1].Receive? then 1 else 0)
  }

  /** Every datagram fits the receive buffer of 48 bytes. */
  predicate Buffered(events: seq<Event>) {
    forall i :: 0 <= i < |events| && events[i].Receive? ==> |events[i].input.arrival.data| <= NTP_PACKET_SIZE
  }

  lemma AnsweredWholeHeader(s: ServerState, input: PacketInput)
    requires Process(s, input).reply.Some?
    ensures |input.arrival.data| >= NTP_PACKET_SIZE
  {
    hide Process, ClientRequestData, Response;
    ReplyFromState(s, input);
    ClientDataLength(input.arrival.data);
  }

  lemma ClientDataLength(data: seq<byte>)
    requires ClientRequestData(data)
    ensures |data| >= NTP_PACKET_SIZE
  {
  }

  lemma {:induction false} LedgerBalances(config: NtpConfig, events: seq<Event>)
    ensures var l := LedgerOf(config, events); l.answered + l.unanswered == Received(events)
    ensures Buffered(events) ==> LedgerOf(config, events).bytes == NTP_PACKET_SIZE * LedgerOf(config, events).answered
  {
    hide Process, Refused, Inactive;
    if events != [] {
      var init, e := events[..|events| - 1], events[|events| - 1];
      LedgerBalances(config, init);
      if e.Receive? && Process(Run(config, init), e.input).reply.Some? {
        AnsweredWholeHeader(Run(config, init), e.input);
      }
    }
  }

  lemma {:induction false} SumBetween(durations: seq<uint64>, least: nat, most: nat)
    requires forall i :: 0 <= i < |durations| ==> Between(durations[i], least, most)
    ensures |durations| * least <= Sum(durations) <= |durations| * most
  {
    if durations != [] {
      var n := |durations| - 1;
      SumBetween(durations[..n], least, most);
      assert Between(durations[n], least, most);
      OneMoreTime(n, least);
      OneMoreTime(n, most);
    }
  }

  lemma OneMoreTime(n: nat, d: nat)
    ensures (n + 1) * d == n * d + d
  {
  }

  /** Requests and errors together are the packets, 48 bytes are booked a request, and the total time lies between the extremes. */
  lemma BooksBalance(config: NtpConfig, events: seq<Event>)
    requires Buffered(events)
    ensures var stats := Run(config, events).stats;
            && stats.totalRequests == stats.totalResponses
            && stats.totalRequests + stats.totalErrors == Received(events)
            && stats.totalBytes == NTP_PACKET_SIZE * stats.totalRequests
            && stats.processedCount * stats.minTime <= stats.processingTime <= stats.processedCount * stats.maxTime
  {
    hide Run, LedgerOf, Received, Buffered, Sum;
    var stats := Run(config, events).stats;
    BooksAgree(config, events);
    LedgerBalances(config, events);
    SumBetween(LedgerOf(config, events).durations, stats.minTime, stats.maxTime);
  }
}
