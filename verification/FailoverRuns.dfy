/**
 Failover inside the server: over a run without a reload, the upstream pool goes through
 exactly the selections and failures its packets make.
 */
module FailoverRuns {
  import opened UpstreamSync
  import opened UpstreamPool
  import opened Config
  import opened Connection
  import opened ServerModel
  import opened ServerRuns

  /** The packet gets as far as being answered. */
  predicate Reached(s: ServerState, input: PacketInput) {
    var sc := Screened(s, input);
    sc.passed && Accepts(Connected(sc.state, input.key).connections[input.key], input.arrival)
  }

  function SelectedFor(s: ServerState, input: PacketInput): Selection {
    Select(s.pool, s.config.upstreamServers, s.config.selectionAlgorithm, input.draw)
  }

  /** What the step does to the pool: a selection for an answered packet, and a failure if it cannot be sent. */
  function PoolOps(s: ServerState, e: Event): seq<PoolOp> {
    if e.Receive? && Reached(s, e.input) then
      [Pick(e.input.draw)]
      + (if !e.input.sendOk && s.config.enableUpstreamFailover && SelectedFor(s, e.input).server != ""
         then [Fail(SelectedFor(s, e.input).server)] else [])
    else []
  }

  function AllPoolOps(config: NtpConfig, events: seq<Event>): seq<PoolOp> {
    if events == [] then []
    else
      var before := events[..|events| - 1];
      AllPoolOps(config, before) + PoolOps(Run(config, before), events[|events| - 1])
  }

  predicate NoReload(events: seq<Event>) { forall i :: 0 <= i < |events| ==> !events[i].Reload? }

  predicate SameUpstreams(a: NtpConfig, b: NtpConfig) {
    a.upstreamServers == b.upstreamServers && a.selectionAlgorithm == b.selectionAlgorithm
  }

  /** The pool after one answered packet. */
  function PoolAfter(s: ServerState, input: PacketInput): Pool {
    var selection := SelectedFor(s, input);
    if !input.sendOk && s.config.enableUpstreamFailover && selection.server != ""
    then selection.pool.(healthy := Drop(selection.pool.healthy, selection.server))
    else selection.pool
  }

  lemma AnsweredPool(h: ServerState, input: PacketInput)
    ensures Answered(h, input).pool == PoolAfter(h, input)
  {
    hide Select, Drop;
  }

  lemma ServedPool(s: ServerState, input: PacketInput)
    requires input.key in s.connections
    ensures Served(s, input).state.pool == if Accepts(s.connections[input.key], input.arrival) then PoolAfter(s, input) else s.pool
  {
    hide Accepts, Answered, Handled, Response, CountTime, Select, Drop;
    AnsweredPool(Delivered(s, input), input);
  }

  lemma ProcessedPool(s: ServerState, input: PacketInput)
    ensures Process(s, input).state.pool == if Reached(s, input) then PoolAfter(s, input) else s.pool
  {
    hide Accepts, Served, Screened, NewConnection, Select, Drop;
    ScreenedFields(s, input);
    if Screened(s, input).passed {
      ServedPool(Connected(Screened(s, input).state, input.key), input);
    }
  }

  lemma StepUpstreams(s: ServerState, e: Event)
    requires !e.Reload?
    ensures SameUpstreams(Step(s, e).config, s.config)
    ensures Step(s, e).pool == if e.Receive? && Reached(s, e.input) then PoolAfter(s, e.input) else s.pool
  {
    hide Process, Reached, PoolAfter, Attempts, BestOf, Commit, KeptConnections;
    if e.Receive? {
      ProcessFields(s, e.input);
      ProcessedPool(s, e.input);
    }
  }

  lemma OneMoreOp(configured: seq<string>, algorithm: Algorithm, ops: seq<PoolOp>, op: PoolOp)
    ensures RunPool(configured, algorithm, ops + [op]) ==
            PoolStep(RunPool(configured, algorithm, ops), configured, algorithm, op)
  {
    assert (ops + [op])[..|ops|] == ops;
  }

  lemma OpsMakePool(s: ServerState, input: PacketInput, configured: seq<string>, algorithm: Algorithm, ops: seq<PoolOp>)
    requires RunPool(configured, algorithm, ops).pool == s.pool && Reached(s, input)
    requires s.config.upstreamServers == configured && s.config.selectionAlgorithm == algorithm
    ensures RunPool(configured, algorithm, ops + PoolOps(s, Receive(input))).pool == PoolAfter(s, input)
  {
    hide Reached, Select, Drop, RunPool;
    OneMoreOp(configured, algorithm, ops, Pick(input.draw));
    var server := SelectedFor(s, input).server;
    OneMoreOp(configured, algorithm, ops + [Pick(input.draw)], Fail(server));
    assert ops + ([Pick(input.draw)] + [Fail(server)]) == ops + [Pick(input.draw)] + [Fail(server)];
    assert ops + ([Pick(input.draw)] + []) == ops + [Pick(input.draw)];
  }

  /** The server's pool is that of a run of its packets' selections and failures. */
  lemma {:induction false} PoolFollowsPackets(config: NtpConfig, events: seq<Event>)
    requires NoReload(events)
    ensures var s := Run(config, events);
            && SameUpstreams(s.config, config)
            && s.pool == RunPool(config.upstreamServers, config.selectionAlgorithm, AllPoolOps(config, events)).pool
  {
    hide Step, Reached, PoolAfter, PoolStep;
    if events != [] {
      var init, e := events[..|events| - 1], events[|events| - 1];
      var s := Run(config, init);
      PoolFollowsPackets(config, init);
      StepUpstreams(s, e);
      if e.Receive? && Reached(s, e.input) {
        OpsMakePool(s, e.input, config.upstreamServers, config.selectionAlgorithm, AllPoolOps(config, init));
      } else {
        assert AllPoolOps(config, events) == AllPoolOps(config, init);
      }
    }
  }

  /**
   Over every run without a reload, for every packet: if upstreams are configured, the one
   selected is among them, and one that a send failed with is not selected again until a
   send has failed with every other.
   */
  lemma FailedIsNotSelected(config: NtpConfig, events: seq<Event>, input: PacketInput)
    requires NoReload(events) && Distinct(config.upstreamServers) && config.upstreamServers != []
    ensures var server := SelectedFor(Run(config, events), input).server;
            var failed := RunPool(config.upstreamServers, config.selectionAlgorithm, AllPoolOps(config, events)).failed;
            && server in config.upstreamServers
            && (server in failed ==> forall t :: t in config.upstreamServers ==> t in failed)
  {
    hide Select;
    PoolFollowsPackets(config, events);
    SelectionAfterFailures(config.upstreamServers, config.selectionAlgorithm, AllPoolOps(config, events), input.draw);
  }
}
