/**
 The configuration over whole runs: the last valid one loaded, with the stratum that dynamic
 adjustment has reached.
 */
module ConfigRuns {
  import opened Wrappers
  import opened UpstreamSync
  import opened UpstreamPool
  import opened Config
  import opened Connection
  import opened ServerModel
  import opened ServerRuns
  import opened FailoverRuns
  import opened Accounting

  /** The rise in stratum, in whole numbers: more than a hundred answers, and more than one error for five of them. */
  lemma AdjustedIff(config: NtpConfig, stats: Stats)
    ensures AdjustedConfig(config, stats) ==
            if config.enableDynamicStratum && stats.totalRequests > 100
               && 5 * stats.totalErrors > stats.totalRequests && config.stratum < 15
            then config.(stratum := config.stratum + 1) else config
  {
    if stats.totalRequests > 100 {
      RatioAboveFifth(stats.totalErrors as real, stats.totalRequests as real);
    }
  }

  lemma RatioAboveFifth(errors: real, requests: real)
    requires requests > 0.0
    ensures errors / requests > 0.20 <==> 5.0 * errors > requests
  {
    var ratio := errors / requests;
    assert ratio * requests == errors;
  }

  lemma AnsweredConfig(h: ServerState, input: PacketInput)
    ensures Answered(h, input).config == AdjustedConfig(h.config, h.stats)
  {
    hide AdjustedConfig, Select, Drop;
  }

  lemma ServedConfig(s: ServerState, input: PacketInput)
    requires input.key in s.connections
    ensures Served(s, input).state.config ==
            if Accepts(s.connections[input.key], input.arrival) then AdjustedConfig(s.config, s.stats) else s.config
  {
    hide Accepts, Answered, Handled, Response, CountTime, AdjustedConfig;
    AnsweredConfig(Delivered(s, input), input);
  }

  lemma ConnectedCounts(s: ServerState, key: ClientKey)
    ensures var c := Connected(s, key).stats; c.totalRequests == s.stats.totalRequests && c.totalErrors == s.stats.totalErrors
  {
    hide NewConnection;
  }

  lemma ProcessedConfig(s: ServerState, input: PacketInput)
    ensures Process(s, input).state.config == (if Reached(s, input) then AdjustedConfig(s.config, s.stats) else s.config)
  {
    hide Screened, Served, Accepts, Connected, AdjustedConfig;
    ScreenedFields(s, input);
    var sc := Screened(s, input);
    if sc.passed {
      var c := Connected(sc.state, input.key);
      ConnectedCounts(sc.state, input.key);
      ConnectedConfig(sc.state, input.key);
      ServedConfig(c, input);
      AdjustedIff(c.config, c.stats);
      AdjustedIff(s.config, s.stats);
    }
  }

  /**
   A packet raises the stratum by one exactly if it is accepted while dynamic adjustment is on,
   more than a hundred packets have been answered, more than one in six was not, and the
   stratum is below 15. It changes nothing else of the configuration.
   */
  lemma StratumRisesIff(config: NtpConfig, events: seq<Event>, input: PacketInput)
    ensures var s := Run(config, events);
            var l := LedgerOf(config, events);
            Process(s, input).state.config ==
            if Reached(s, input) && s.config.enableDynamicStratum && l.answered > 100
               && 5 * l.unanswered > l.answered && s.config.stratum < 15
            then s.config.(stratum := s.config.stratum + 1) else s.config
  {
    hide Run, Process, Reached, AdjustedConfig, LedgerOf, TimesAgree;
    var s := Run(config, events);
    BooksAgree(config, events);
    ProcessedConfig(s, input);
    AdjustedIff(s.config, s.stats);
  }

  lemma ConnectedConfig(s: ServerState, key: ClientKey)
    ensures Connected(s, key).config == s.config
  {
  }

  /** The same configuration but for a stratum that has risen, and only if dynamic adjustment is on. */
  predicate RaisedFrom(loaded: NtpConfig, c: NtpConfig) {
    && c == loaded.(stratum := c.stratum)
    && loaded.stratum <= c.stratum
    && (!loaded.enableDynamicStratum ==> c == loaded)
  }

  lemma RaisedAgain(loaded: NtpConfig, c: NtpConfig, c': NtpConfig)
    requires RaisedFrom(loaded, c) && RaisedFrom(c, c')
    ensures RaisedFrom(loaded, c')
  {
  }

  lemma RaisedByNothing(c: NtpConfig)
    ensures RaisedFrom(c, c)
  {
  }

  function LoadedBy(e: Event): Option<NtpConfig> {
    if e.Reload? && e.loaded.Some? && e.loaded.value.Accepted() then e.loaded else None
  }

  /** The configuration started with, or the last valid one that a reload read since. */
  function LastLoaded(config: NtpConfig, events: seq<Event>): NtpConfig {
    if events == [] then config
    else
      var loaded := LoadedBy(events[|events| - 1]);
      if loaded.Some? then loaded.value else LastLoaded(config, events[..|events| - 1])
  }

  lemma PacketRaises(s: ServerState, input: PacketInput)
    ensures RaisedFrom(s.config, Process(s, input).state.config)
  {
    hide Process, AdjustedConfig, Reached;
    ProcessedConfig(s, input);
    AdjustedIff(s.config, s.stats);
  }

  lemma OtherConfig(s: ServerState, e: Event)
    requires !e.Receive?
    ensures Step(s, e).config == if LoadedBy(e).Some? then LoadedBy(e).value else s.config
  {
    hide Attempts, BestOf, Commit, KeptConnections, NtpConfig.Accepted;
  }

  lemma StepConfig(s: ServerState, e: Event)
    ensures if LoadedBy(e).Some? then Step(s, e).config == LoadedBy(e).value else RaisedFrom(s.config, Step(s, e).config)
  {
    hide RaisedFrom, Process, NtpConfig.Accepted;
    if e.Receive? {
      PacketRaises(s, e.input);
    } else {
      OtherConfig(s, e);
      RaisedByNothing(s.config);
    }
  }

  /**
   Over every run the configuration in force is the last valid one loaded, but for a stratum that
   can only have risen, and only if that configuration asks for it.
   */
  lemma {:induction false} ConfigIsLastLoaded(config: NtpConfig, events: seq<Event>)
    ensures RaisedFrom(LastLoaded(config, events), Run(config, events).config)
  {
    hide Step, RaisedFrom, LoadedBy;
    if events == [] {
      RaisedByNothing(config);
    } else {
      var init, e := events[..|events| - 1], events[|events| - 1];
      ConfigIsLastLoaded(config, init);
      StepConfig(Run(config, init), e);
      if LoadedBy(e).Some? {
        RaisedByNothing(LoadedBy(e).value);
      } else {
        RaisedAgain(LastLoaded(config, init), Run(config, init).config, Run(config, events).config);
      }
    }
  }
}
