/**
 The server object over a whole run: driven event by event, it goes through the states of the
 run, so what is proved of runs holds of the object.
 */
module ServerObject {
  import opened Wrappers
  import opened NtpTime
  import opened Config
  import opened UpstreamSync
  import opened UpstreamPool
  import opened ServerModel
  import opened ServerRuns
  import opened Server

  lemma RunOfOneMore(config: NtpConfig, events: seq<Event>, e: Event)
    ensures Run(config, events + [e]) == Step(Run(config, events), e)
  {
    assert (events + [e])[..|events|] == events;
  }

  function Received(inputs: seq<PacketInput>): (events: seq<Event>)
    ensures |events| == |inputs|
  {
    seq(|inputs|, i requires 0 <= i < |inputs| => Receive(inputs[i]))
  }

  /** The receive loop is a stretch of the run. */
  lemma {:induction false} ReceiveLoopIsRun(config: NtpConfig, events: seq<Event>, inputs: seq<PacketInput>)
    ensures Run(config, events + Received(inputs)) == ProcessAll(Run(config, events), inputs).state
  {
    hide Process;
    if inputs == [] {
      assert events + Received(inputs) == events;
    } else {
      var init, last := inputs[..|inputs| - 1], inputs[|inputs| - 1];
      ReceiveLoopIsRun(config, events, init);
      assert events + Received(inputs) == events + Received(init) + [Receive(last)];
      RunOfOneMore(config, events + Received(init), Receive(last));
    }
  }

  /** A synchronisation round, if the server has a clock to synchronise. */
  method Synchronise(server: NtpServer, servers: seq<string>, replies: seq<UpstreamReply>, now: int64)
    requires server.Valid() && |servers| == |replies|
    modifies server.upstreamSync
    ensures server.Valid()
    ensures server.State() == Synchronised(old(server.State()), Attempts(servers, replies), now)
  {
    hide Attempts, BestOf, Commit;
    if server.upstreamSync != null {
      var _ := server.upstreamSync.SyncOnce(servers, replies, now);
    }
  }

  method HandleEvent(server: NtpServer, e: Event)
    requires server.Valid()
    modifies server, server.connections.Values, server.upstreamSync
    ensures server.Valid() && server.upstreamSync == old(server.upstreamSync)
    ensures fresh(server.connections.Values - old(server.connections.Values))
    ensures server.State() == Step(old(server.State()), e)
  {
    hide Process, Cleaned, Stopped, Reloaded, Synchronised, Attempts;
    match e
    case Receive(input) => var _ := server.ProcessPacket(input);
    case Reload(loaded) => var _ := server.ReloadConfig(loaded);
    case Sync(servers, replies, now) =>
      if |servers| == |replies| {
        Synchronise(server, servers, replies, now);
      }
    case Cleanup => server.CleanupConnections();
    case StopConnection(key) => server.StopConnection(key);
  }

  lemma RunOfNothing(config: NtpConfig)
    ensures Run(config, []) ==
            ServerState(config, NO_STATS, map[], map[], map[], Pool(config.upstreamServers, 0),
                        if config.upstreamServers == [] then None else Some(UNSYNCED))
  {
  }

  /** A server started with a configuration and driven by any events ends in the state of their run. */
  method RunServer(config: NtpConfig, events: seq<Event>) returns (server: NtpServer)
    ensures server.Valid() && server.State() == Run(config, events)
  {
    hide Step, Run, Initial;
    RunOfNothing(config);
    server := new NtpServer(config);
    for i := 0 to |events|
      invariant server.Valid() && fresh(server) && fresh(server.connections.Values)
      invariant server.upstreamSync != null ==> fresh(server.upstreamSync)
      invariant server.State() == Run(config, events[..i])
    {
      HandleEvent(server, events[i]);
      RunOfOneMore(config, events[..i], events[i]);
      assert events[..i + 1] == events[..i] + [events[i]];
    }
    assert events[..|events|] == events;
  }
}
