/**
 The server object: its methods update the fields step by step and are proved against the
 functions of `ServerModel`.
 */
module Server {
  import opened Wrappers
  import opened NtpTime
  import opened OnWire
  import opened PacketCodec
  import opened AccessControl
  import opened RateLimit
  import opened UpstreamSync
  import opened UpstreamPool
  import opened Config
  import opened Connection
  import opened ServerModel

  type Table = map<ClientKey, NtpConnection>

  /** The values of the connections in a table. */
  ghost function Views(table: Table): map<ClientKey, Conn>
    reads table.Values
  {
    map k | k in table :: table[k].View()
  }

  lemma ViewsOfOneMore(table: Table, k: ClientKey, c: NtpConnection)
    ensures Views(table[k := c]) == Views(table)[k := c.View()]
  {
    hide NtpConnection.View;
  }

  lemma ViewsOfOneFewer(table: Table, k: ClientKey)
    ensures Views(table - {k}) == Views(table) - {k}
  {
    hide NtpConnection.View;
  }

  lemma ViewsKeys(table: Table)
    ensures Views(table).Keys == table.Keys && |Views(table)| == |table|
  {
    assert Views(table).Keys == table.Keys;
    assert |Views(table)| == |Views(table).Keys| && |table| == |table.Keys|;
  }

  /** No two keys lead to the same object. */
  ghost predicate Unshared<V>(m: map<ClientKey, V>) {
    forall j, k :: j in m && k in m && j != k ==> m[j] != m[k]
  }

  lemma Apart<V>(m: map<ClientKey, V>, k: ClientKey)
    requires k in m && Unshared(m)
    ensures m == (m - {k})[k := m[k]] && m[k] !in (m - {k}).Values
  {
  }

  lemma OneMore<V>(m: map<ClientKey, V>, k: ClientKey, v: V)
    requires k !in m && Unshared(m) && v !in m.Values
    ensures |m[k := v]| == |m| + 1 && Unshared(m[k := v])
  {
    assert m[k := v].Keys == m.Keys + {k};
  }

  lemma OneFewer<V>(m: map<ClientKey, V>, k: ClientKey)
    requires k in m && Unshared(m)
    ensures |m - {k}| == |m| - 1 && Unshared(m - {k})
  {
    assert (m - {k}).Keys == m.Keys - {k};
    assert |m - {k}| == |(m - {k}).Keys| && |m| == |m.Keys|;
  }

  /** A sweep over `before` that has the pending entries still to look at. */
  ghost predicate Swept(before: map<ClientKey, Conn>, now: map<ClientKey, Conn>, pending: set<ClientKey>) {
    && (forall k :: k in now <==> k in before && (k in pending || before[k].active))
    && (forall k :: k in now ==> now[k] == before[k])
  }

  lemma NothingSwept(before: map<ClientKey, Conn>)
    ensures Swept(before, before, before.Keys)
  {
  }

  lemma SweepOne(before: map<ClientKey, Conn>, now: map<ClientKey, Conn>, pending: set<ClientKey>, k: ClientKey)
    requires Swept(before, now, pending) && k in pending && k in now
    ensures Swept(before, if now[k].active then now else now - {k}, pending - {k})
  {
  }

  lemma AllSwept(before: map<ClientKey, Conn>, now: map<ClientKey, Conn>)
    requires Swept(before, now, {})
    ensures now == KeptConnections(before)
  {
  }

  class NtpServer {
    var config: NtpConfig
    var stats: Stats
    var connections: map<ClientKey, NtpConnection>
    var rateSlots: Slots
    var ddosSlots: Slots
    var healthyUpstreams: seq<string>
    var upstreamIndex: uint64
    var upstreamSync: UpstreamSyncManager?

    ghost var views: map<ClientKey, Conn>  // the values of the connection objects in the table

    /** The object's state as a value. */
    ghost function State(): ServerState
      reads this, upstreamSync
    {
      ServerState(config, stats, views, rateSlots, ddosSlots, Pool(healthyUpstreams, upstreamIndex), SyncView())
    }

    function SyncView(): Option<SyncState>
      reads this`upstreamSync, upstreamSync
    {
      if upstreamSync == null then None else Some(upstreamSync.State())
    }

    /** The views are those of the table, and no two clients share a connection object. */
    ghost predicate TableValid()
      reads this`connections, this`views, connections.Values
    {
      views == Views(connections) && Unshared(connections)
    }

    /** The gauge of active connections is the table's size. */
    ghost predicate Valid()
      reads this, connections.Values
    {
      TableValid() && stats.activeConnections == |connections|
    }

    constructor (config: NtpConfig)
      ensures Valid() && fresh(connections.Values) && (upstreamSync != null ==> fresh(upstreamSync))
      ensures State() == ServerState(config, NO_STATS, map[], map[], map[], Pool(config.upstreamServers, 0),
                                     if config.upstreamServers == [] then None else Some(UNSYNCED))
    {
      this.config := config;
      stats := NO_STATS;
      connections, rateSlots, ddosSlots, views := map[], map[], map[], map[];
      healthyUpstreams, upstreamIndex := config.upstreamServers, 0;
      upstreamSync := null;
      new;
      if |config.upstreamServers| > 0 {
        upstreamSync := new UpstreamSyncManager();
      }
    }

    method IsRateLimitExceeded(ip: Address, minuteBucket: nat) returns (exceeded: bool)
      modifies this`rateSlots
      ensures var c := Call(ip, minuteBucket, config.connectionRateLimit);
              && exceeded == (config.enableRateLimiting && Exceeds(old(rateSlots), c))
              && rateSlots == if config.enableRateLimiting then Hit(old(rateSlots), c) else old(rateSlots)
    {
      if !config.enableRateLimiting {
        return false;
      }
      var entry := SlotOf(rateSlots, ip);
      if entry.bucket != minuteBucket {
        entry := Slot(minuteBucket, 0);
      }
      entry := entry.(count := U32(entry.count + 1));
      rateSlots := rateSlots[ip := entry];
      return entry.count > config.connectionRateLimit;
    }

    method IsDdosAnomaly(ip: Address, secondBucket: nat) returns (anomaly: bool)
      modifies this`ddosSlots
      ensures var c := Call(ip, secondBucket, config.ddosThreshold);
              && anomaly == (config.enableDdosProtection && Exceeds(old(ddosSlots), c))
              && ddosSlots == if config.enableDdosProtection then Hit(old(ddosSlots), c) else old(ddosSlots)
    {
      if !config.enableDdosProtection {
        return false;
      }
      var entry := SlotOf(ddosSlots, ip);
      if entry.bucket != secondBucket {
        entry := Slot(secondBucket, 0);
      }
      entry := entry.(count := U32(entry.count + 1));
      ddosSlots := ddosSlots[ip := entry];
      return entry.count > config.ddosThreshold;
    }

    method InsertConnection(key: ClientKey, connection: NtpConnection)
      requires TableValid() && key !in connections && connection !in connections.Values
      modifies this`connections, this`views
      ensures TableValid()
      ensures connections == old(connections)[key := connection] && views == old(views)[key := connection.View()]
      ensures |connections| == |old(connections)| + 1
    {
      hide Unshared, Views;
      OneMore(connections, key, connection);
      ViewsOfOneMore(connections, key, connection);
      views := views[key := connection.View()];
      connections := connections[key := connection];
    }

    method CreateConnection(key: ClientKey) returns (connection: NtpConnection)
      ensures fresh(connection)
      ensures connection.View() == NewConnection(config, key)
    {
      connection := new NtpConnection(config);
      var trusted := IsClientAllowed(config.acl, key.ip);
      connection.SetTrusted(trusted);
    }

    method AddConnection(key: ClientKey) returns (connection: NtpConnection)
      requires Valid() && key !in connections
      modifies this`connections, this`views, this`stats
      ensures Valid()
      ensures fresh(connection) && connections == old(connections)[key := connection]
      ensures views == old(views)[key := NewConnection(config, key)]
      ensures stats == CountConnection(old(stats))
    {
      hide NewConnection;
      connection := CreateConnection(key);
      InsertConnection(key, connection);
      stats := stats.(totalConnections := stats.totalConnections + 1);
      stats := stats.(activeConnections := stats.activeConnections + 1);
    }

    method GetOrCreateConnection(key: ClientKey) returns (connection: NtpConnection)
      requires Valid()
      modifies this`connections, this`views, this`stats
      ensures Valid()
      ensures key in connections && connections[key] == connection
      ensures if key in old(connections) then connections == old(connections)
              else fresh(connection) && connections == old(connections)[key := connection]
      ensures State() == Connected(old(State()), key)
    {
      hide NewConnection, CountConnection;
      if key in connections {
        return connections[key];
      }
      connection := AddConnection(key);
    }

    method EraseConnection(key: ClientKey)
      requires Valid() && key in connections
      modifies this`connections, this`views, this`stats
      ensures Valid()
      ensures connections == old(connections) - {key} && views == old(views) - {key}
      ensures stats == old(stats).(activeConnections := old(stats.activeConnections) - 1)
    {
      hide Unshared, Views;
      OneFewer(connections, key);
      ViewsOfOneFewer(connections, key);
      var fewer := connections - {key};
      views := views - {key};
      assert views == Views(fewer);
      connections := fewer;
      stats := stats.(activeConnections := stats.activeConnections - 1);
    }

    /** Erases while iterating: every entry is looked at once, in any order. */
    method SweepConnections()
      requires Valid()
      modifies this`connections, this`views, this`stats
      ensures Valid()
      ensures connections.Values <= old(connections.Values)
      ensures views == KeptConnections(old(views))
      ensures stats == old(stats).(activeConnections := |views|)
    {
      hide Swept, KeptConnections, Unshared;
      ghost var before := views;
      var pending := connections.Keys;
      ViewsKeys(connections);
      NothingSwept(before);
      while pending != {}
        invariant Valid() && pending <= connections.Keys && connections.Values <= old(connections.Values)
        invariant Swept(before, views, pending)
        invariant stats == old(stats).(activeConnections := |connections|)
        decreases pending
      {
        var k :| k in pending;
        ViewsKeys(connections);
        SweepOne(before, views, pending, k);
        if !connections[k].active {
          EraseConnection(k);
        }
        pending := pending - {k};
      }
      AllSwept(before, views);
      ViewsKeys(connections);
    }

    method CleanupConnections()
      requires Valid()
      modifies this`connections, this`views, this`stats
      ensures Valid() && connections.Values <= old(connections.Values)
      ensures State() == Cleaned(old(State()))
    {
      hide KeptConnections;
      ViewsKeys(connections);
      SweepConnections();
    }

    method SelectUpstreamServer(draw: nat) returns (server: string)
      modifies this`healthyUpstreams, this`upstreamIndex
      ensures Selection(Pool(healthyUpstreams, upstreamIndex), server) ==
              Select(Pool(old(healthyUpstreams), old(upstreamIndex)), config.upstreamServers, config.selectionAlgorithm, draw)
    {
      if |config.upstreamServers| == 0 {
        return "";
      }
      if |healthyUpstreams| == 0 {
        healthyUpstreams := config.upstreamServers;
      }
      if |healthyUpstreams| == 1 {
        return healthyUpstreams[0];
      }
      match config.selectionAlgorithm
      case Random =>
        return healthyUpstreams[draw % |healthyUpstreams|];
      case _ =>
        var index := upstreamIndex % |healthyUpstreams|;
        upstreamIndex := U64(upstreamIndex + 1);
        return healthyUpstreams[index];
    }

    /** Erases the first occurrence of a server that failed. */
    method DropUpstream(server: string)
      modifies this`healthyUpstreams
      ensures healthyUpstreams == Drop(old(healthyUpstreams), server)
    {
      var i := 0;
      while i < |healthyUpstreams| && healthyUpstreams[i] != server
        invariant 0 <= i <= |healthyUpstreams|
        invariant Drop(healthyUpstreams, server) == healthyUpstreams[..i] + Drop(healthyUpstreams[i..], server)
      {
        i := i + 1;
      }
      if i < |healthyUpstreams| {
        healthyUpstreams := healthyUpstreams[..i] + healthyUpstreams[i + 1..];
      }
    }

    method ApplyDynamicStratum()
      modifies this`config
      ensures config == AdjustedConfig(old(config), stats)
    {
      if !config.enableDynamicStratum {
        return;
      }
      if stats.totalRequests > 100 {
        var errorRatio := (stats.totalErrors as real) / (stats.totalRequests as real);
        if errorRatio > 0.20 && config.stratum < 15 {
          config := config.(stratum := config.stratum + 1);
        }
      }
    }

    method ReloadConfig(loaded: Option<NtpConfig>) returns (ok: bool)
      modifies this`config
      ensures ok <==> loaded.Some? && loaded.value.Accepted()
      ensures State() == Reloaded(old(State()), loaded)
    {
      if loaded.None? || !loaded.value.Accepted() {
        return false;
      }
      config := loaded.value;
      return true;
    }

    /** The answer before correction: stratum and identifier as they are, three clock readings. */
    method CreateResponse(input: PacketInput) returns (response: Packet)
      requires |input.arrival.data| >= NTP_PACKET_SIZE
      ensures response == ServerResponse(Decode(input.arrival.data), StratumInEffect(config, SyncView()),
                                         EffectiveReferenceId(config), input.receivedAt, input.sentAt, input.referenceAt)
    {
      var request := new NtpPacket();
      var parsed := request.ParseFromData(input.arrival.data);
      assert parsed;  // an accepted packet always parses again
      var stratum := config.stratum;
      if upstreamSync != null && upstreamSync.synced {
        stratum := upstreamSync.State().EffectiveStratum(config.stratum);
      }
      response := CreateServerResponse(request.fields, stratum, EffectiveReferenceId(config),
                                       input.receivedAt, input.sentAt, input.referenceAt);
    }

    method CorrectResponse(response: Packet) returns (corrected: Packet)
      ensures corrected == Corrected(response, OffsetInEffect(SyncView()))
    {
      corrected := response;
      if upstreamSync != null {
        var offset := upstreamSync.clockOffsetUs;
        if offset != 0 {
          corrected := corrected.(receiveTs := FromSystemTime(ShiftedTime(response.receiveTs, offset)));
          corrected := corrected.(transmitTs := FromSystemTime(ShiftedTime(response.transmitTs, offset)));
        }
      }
    }

    /** Builds, corrects and sends the answer to an accepted request; a failed send drops the upstream it had selected. */
    method Respond(input: PacketInput) returns (reply: Option<Packet>)
      requires |input.arrival.data| >= NTP_PACKET_SIZE
      modifies this`config, this`stats, this`healthyUpstreams, this`upstreamIndex
      ensures stats.activeConnections == old(stats.activeConnections)
      ensures reply == if input.sendOk then Some(Response(old(State()), input)) else None
      ensures State() == Answered(old(State()), input)
    {
      var response := CreateResponse(input);
      ApplyDynamicStratum();
      response := CorrectResponse(response);
      var selected := SelectUpstreamServer(input.draw);
      if !input.sendOk {
        stats := CountError(stats);
        if config.enableUpstreamFailover && selected != "" {
          DropUpstream(selected);
        }
        return None;
      }
      stats := CountResponse(stats, |input.arrival.data|);
      return Some(response);
    }

    method Handle(input: PacketInput, connection: NtpConnection) returns (accepted: bool)
      requires TableValid() && input.key in connections && connections[input.key] == connection
      modifies this`views, connection
      ensures TableValid()
      ensures accepted == Accepts(old(views)[input.key], input.arrival)
      ensures accepted ==> |input.arrival.data| >= NTP_PACKET_SIZE
      ensures State() == Delivered(old(State()), input)
    {
      hide Accepts, Handled, Unshared, Views;
      ghost var others := connections - {input.key};
      Apart(connections, input.key);
      ViewsOfOneMore(others, input.key, connection);
      accepted := connection.HandlePacket(input.arrival);
      ViewsOfOneMore(others, input.key, connection);
      views := views[input.key := connection.View()];
    }

    method Reply(input: PacketInput) returns (reply: Option<Packet>)
      requires |input.arrival.data| >= NTP_PACKET_SIZE
      modifies this`config, this`stats, this`healthyUpstreams, this`upstreamIndex
      ensures stats.activeConnections == old(stats.activeConnections)
      ensures Outcome(State(), reply) == Replied(old(State()), input)
    {
      hide Response, Answered;
      reply := Respond(input);
      if input.sendOk {
        stats := CountTime(stats, input.duration);
      }
    }

    /** Hands the packet to its connection and answers it if the connection accepts it. */
    method Serve(input: PacketInput, connection: NtpConnection) returns (reply: Option<Packet>)
      requires Valid() && input.key in connections && connections[input.key] == connection
      modifies this`config, this`stats, this`views, this`healthyUpstreams, this`upstreamIndex, connection
      ensures Valid()
      ensures Outcome(State(), reply) == Served(old(State()), input)
    {
      hide Replied, Accepts, Delivered, Timed, Dropped;
      reply := None;
      var accepted := Handle(input, connection);
      if accepted {
        reply := Reply(input);
      } else {
        Refuse(input);
      }
    }

    method Refuse(input: PacketInput)
      modifies this`stats
      ensures stats.activeConnections == old(stats.activeConnections)
      ensures State() == Timed(Dropped(old(State())), input.duration)
    {
      stats := CountError(stats);
      stats := CountTime(stats, input.duration);
    }

    /** The access list and the two limiters; every drop is booked as an error. */
    method Screen(input: PacketInput) returns (passed: bool)
      modifies this`stats, this`rateSlots, this`ddosSlots
      ensures stats.activeConnections == old(stats.activeConnections)
      ensures Screening(State(), passed) == Screened(old(State()), input)
    {
      hide Admits, Hit, Exceeds;
      var allowed := IsClientAllowed(config.acl, input.key.ip);
      if !allowed {
        stats := CountError(stats);
        return false;
      }
      var limited := IsRateLimitExceeded(input.key.ip, input.minuteBucket);
      if limited {
        stats := CountError(stats);
        return false;
      }
      var anomaly := IsDdosAnomaly(input.key.ip, input.secondBucket);
      if anomaly {
        if config.enableGracefulDegradation {
          stats := CountError(stats);
          return false;
        }
      }
      return true;
    }

    method ProcessPacket(input: PacketInput) returns (reply: Option<Packet>)
      requires Valid()
      modifies this, connections.Values
      ensures Valid()
      ensures fresh(connections.Values - old(connections.Values)) && upstreamSync == old(upstreamSync)
      ensures Outcome(State(), reply) == Process(old(State()), input)
    {
      hide Screened, Connected, Served, Views, Unshared;
      reply := None;
      var passed := Screen(input);
      if passed {
        var connection := GetOrCreateConnection(input.key);
        reply := Serve(input, connection);
      }
    }

    /** The receive loop: one packet after another, as the socket delivers them. */
    method ProcessIncomingPackets(inputs: seq<PacketInput>) returns (replies: seq<Option<Packet>>)
      requires Valid()
      modifies this, connections.Values
      ensures Valid()
      ensures fresh(connections.Values - old(connections.Values)) && upstreamSync == old(upstreamSync)
      ensures Outcomes(State(), replies) == ProcessAll(old(State()), inputs)
    {
      hide Process, Views, Unshared;
      replies := [];
      for i := 0 to |inputs|
        invariant Valid() && fresh(connections.Values - old(connections.Values)) && upstreamSync == old(upstreamSync)
        invariant Outcomes(State(), replies) == ProcessAll(old(State()), inputs[..i])
      {
        var reply := ProcessPacket(inputs[i]);
        replies := replies + [reply];
        assert inputs[..i + 1][..i] == inputs[..i];
      }
      assert inputs[..|inputs|] == inputs;
    }

    method StopInTable(key: ClientKey, connection: NtpConnection)
      requires TableValid() && key in connections && connections[key] == connection
      modifies this`views, connection
      ensures TableValid()
      ensures views == old(views)[key := old(views)[key].(active := false)]
    {
      hide Unshared, Views;
      ghost var others := connections - {key};
      Apart(connections, key);
      ViewsOfOneMore(others, key, connection);
      connection.Stop();
      ViewsOfOneMore(others, key, connection);
      views := views[key := connection.View()];
    }

    /** Stops a connection in the table, as its destructor would. */
    method StopConnection(key: ClientKey)
      requires Valid()
      modifies this`views, connections.Values
      ensures Valid()
      ensures State() == Stopped(old(State()), key)
    {
      ViewsKeys(connections);
      if key in connections {
        hide Unshared, Views;
        StopInTable(key, connections[key]);
      }
    }
  }
}
