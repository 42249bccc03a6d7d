/**
 The upstream pool after a reload: the new configuration takes effect, the healthy list stays
 that of the old one.
 */
module ReloadRuns {
  import opened Wrappers
  import opened NtpTime
  import opened AccessControl
  import opened UpstreamPool
  import opened Config
  import opened Connection
  import opened ServerModel
  import opened ServerRuns
  import opened FailoverRuns
  import opened ConnectionRuns

  lemma RunOfOneMore(config: NtpConfig, before: seq<Event>, more: seq<Event>, e: Event)
    ensures Run(config, before + (more + [e])) == Step(Run(config, before + more), e)
  {
    hide Step;
    assert (before + (more + [e]))[..|before + more|] == before + more;
  }

  // ---------------------------------------------------------------- a client that is always served

  lemma StaysWelcome(s: ServerState, input: PacketInput)
    requires Welcome(s, input.key)
    ensures Welcome(Process(s, input).state, input.key)
  {
    hide Process, Screened, Handled, Admits;
    ProcessFields(s, input);
    ProcessedConnections(s, input);
    HandledKeeps(ConnectionFor(s, input.key), input.arrival);
  }

  // ---------------------------------------------------------------- selections of a stretch of the run

  /** The upstream selected by an event, if it is an answered packet. */
  function SelectedBy(s: ServerState, e: Event): seq<string> {
    if e.Receive? && Reached(s, e.input) then [SelectedFor(s, e.input).server] else []
  }

  /** The upstreams selected by the answered packets of the events that follow. */
  function Selections(config: NtpConfig, before: seq<Event>, more: seq<Event>): seq<string> {
    if more == [] then []
    else
      var init := more[..|more| - 1];
      Selections(config, before, init) + SelectedBy(Run(config, before + init), more[|more| - 1])
  }

  /** Events without a reload in which every send succeeds. */
  predicate Smooth(more: seq<Event>) {
    forall i :: 0 <= i < |more| ==> !more[i].Reload? && (more[i].Receive? ==> more[i].input.sendOk)
  }

  /** The pool rotates over at least two servers. */
  predicate Rotates(s: ServerState) {
    |s.pool.healthy| >= 2 && !s.config.selectionAlgorithm.Random? && s.config.upstreamServers != []
  }

  lemma SmoothStep(s: ServerState, e: Event)
    requires Rotates(s) && !e.Reload? && (e.Receive? ==> e.input.sendOk)
    ensures var t := Step(s, e);
            && SameUpstreams(t.config, s.config)
            && t.pool == if e.Receive? && Reached(s, e.input) then s.pool.(index := U64(s.pool.index + 1)) else s.pool
  {
    hide Step, Reached;
    StepUpstreams(s, e);
  }

  lemma RotatingSelection(s: ServerState, input: PacketInput)
    requires Rotates(s)
    ensures SelectedFor(s, input).server == s.pool.healthy[s.pool.index % |s.pool.healthy|]
  {
  }

  lemma PicksGoOn(p: Pool, picks: seq<string>, s: ServerState, e: Event)
    requires Rotates(s) && s.pool == Pool(p.healthy, U64(p.index + |picks|))
    requires picks == Picks(p.healthy, p.index, |picks|)
    requires !e.Reload? && (e.Receive? ==> e.input.sendOk)
    ensures var more := picks + SelectedBy(s, e);
            var t := Step(s, e);
            && Rotates(t) && SameUpstreams(t.config, s.config)
            && more == Picks(p.healthy, p.index, |more|) && t.pool == Pool(p.healthy, U64(p.index + |more|))
  {
    hide Step, Reached, Picks, SelectedFor;
    SmoothStep(s, e);
    if e.Receive? && Reached(s, e.input) {
      RotatingSelection(s, e.input);
      PicksLast(p.healthy, p.index, |picks|);
      WrapsOn(p.index, |picks|, 1);
    } else {
      assert picks + SelectedBy(s, e) == picks;
    }
  }

  /** Short of a failed send, the selections of any stretch of the run are consecutive picks of the rotation. */
  lemma {:induction false} SelectionsArePicks(config: NtpConfig, before: seq<Event>, more: seq<Event>)
    requires Rotates(Run(config, before)) && Smooth(more)
    ensures var s, t := Run(config, before), Run(config, before + more);
            var picks := Selections(config, before, more);
            && Rotates(t) && SameUpstreams(t.config, s.config)
            && picks == Picks(s.pool.healthy, s.pool.index, |picks|)
            && t.pool == Pool(s.pool.healthy, U64(s.pool.index + |picks|))
  {
    hide Step, Run, SelectedBy, Picks;
    var s := Run(config, before);
    if more == [] {
      assert before + more == before;
      SmallRemainder(s.pool.index, 0x1_0000_0000_0000_0000);
      NoPicks(s.pool.healthy, s.pool.index);
    } else {
      var init, e := more[..|more| - 1], more[|more| - 1];
      SelectionsArePicks(config, before, init);
      assert more == init + [e];
      RunOfOneMore(config, before, init, e);
      PicksGoOn(s.pool, Selections(config, before, init), Run(config, before + init), e);
    }
  }

  lemma NoPicks(healthy: seq<string>, index: uint64)
    requires |healthy| >= 2
    ensures Picks(healthy, index, 0) == []
  {
  }

  /**
   Over every stretch of the run without a reload or a failed send, and short of the counter's
   wrap, the answered packets share themselves out evenly over the healthy list. So within
   as many answered packets as it is long, every server in it has been selected, also one that
   a reload before took out of the configuration.
   */
  lemma SelectionsAreFair(config: NtpConfig, before: seq<Event>, more: seq<Event>, server: string)
    requires Rotates(Run(config, before)) && Smooth(more) && Distinct(Run(config, before).pool.healthy)
    requires server in Run(config, before).pool.healthy
    requires Run(config, before).pool.index + |Selections(config, before, more)| <= 0x1_0000_0000_0000_0000
    ensures var n := |Run(config, before).pool.healthy|;
            var picks := Selections(config, before, more);
            && |picks| / n <= Occurrences(picks, server) <= (|picks| + n - 1) / n
            && (|picks| >= n ==> server in picks)
  {
    hide Run, Selections, Picks;
    var s := Run(config, before);
    var picks := Selections(config, before, more);
    SelectionsArePicks(config, before, more);
    FairUntilWrap(s.pool.healthy, s.pool.index, |picks|);
    OccursIsIn(picks, server);
    if |picks| >= |s.pool.healthy| {
      AtLeastOnce(|picks|, |s.pool.healthy|);
    }
  }

  lemma AtLeastOnce(m: nat, n: nat)
    requires m >= n > 0
    ensures m / n >= 1
  {
  }

  lemma {:induction false} OccursIsIn(picks: seq<string>, server: string)
    ensures Occurrences(picks, server) > 0 ==> server in picks
  {
    if picks != [] {
      OccursIsIn(picks[1..], server);
    }
  }

  // ---------------------------------------------------------------- after a reload

  /** Some packet after the events, before another reload, selects a server outside the configuration. */
  ghost predicate CanSelectOutside(config: NtpConfig, before: seq<Event>, c: NtpConfig) {
    exists more: seq<Event>, input: PacketInput :: SelectsOutside(config, before, more, input, c)
  }

  predicate SelectsOutside(config: NtpConfig, before: seq<Event>, more: seq<Event>, input: PacketInput, c: NtpConfig) {
    var s := Run(config, before + more);
    NoReload(more) && Reached(s, input) && SelectedFor(s, input).server !in c.upstreamServers
  }

  predicate AllConfigured(healthy: seq<string>, configured: seq<string>) {
    forall i :: 0 <= i < |healthy| ==> healthy[i] in configured
  }

  lemma {:induction false} DropKeepsConfigured(healthy: seq<string>, server: string, configured: seq<string>)
    requires AllConfigured(healthy, configured)
    ensures AllConfigured(Drop(healthy, server), configured)
  {
    if healthy != [] {
      assert AllConfigured(healthy[1..], configured);
      DropKeepsConfigured(healthy[1..], server, configured);
    }
  }

  /** Once the healthy list is within the configuration it stays so until the next reload. */
  lemma {:induction false} ConfiguredStays(config: NtpConfig, before: seq<Event>, more: seq<Event>, configured: seq<string>)
    requires NoReload(more) && Run(config, before).config.upstreamServers == configured
    requires AllConfigured(Run(config, before).pool.healthy, configured)
    ensures var t := Run(config, before + more);
            t.config.upstreamServers == configured && AllConfigured(t.pool.healthy, configured)
  {
    hide Step, Run, Reached, Drop;
    if more == [] {
      assert before + more == before;
    } else {
      var init, e := more[..|more| - 1], more[|more| - 1];
      ConfiguredStays(config, before, init, configured);
      var s := Run(config, before + init);
      assert more == init + [e];
      RunOfOneMore(config, before, init, e);
      StepUpstreams(s, e);
      if e.Receive? && Reached(s, e.input) {
        var selection := SelectedFor(s, e.input);
        DropKeepsConfigured(selection.pool.healthy, selection.server, configured);
      }
    }
  }

  /** Requests of one client turn the rotation on by as many positions as wanted. */
  lemma {:induction false} TurnOn(config: NtpConfig, before: seq<Event>, key: ClientKey, k: nat) returns (more: seq<Event>)
    requires Rotates(Run(config, before)) && Welcome(Run(config, before), key)
    ensures NoReload(more) && Welcome(Run(config, before + more), key)
    ensures SameUpstreams(Run(config, before + more).config, Run(config, before).config)
    ensures var p := Run(config, before).pool; Run(config, before + more).pool == Pool(p.healthy, U64(p.index + k))
  {
    hide Run, Process, Reached, Welcome;
    var p := Run(config, before).pool;
    if k == 0 {
      more := [];
      assert before + more == before;
      SmallRemainder(p.index, 0x1_0000_0000_0000_0000);
    } else {
      var init := TurnOn(config, before, key, k - 1);
      var s := Run(config, before + init);
      var input := WelcomeRequest(s, key, true, 0);
      more := init + [Receive(input)];
      RunOfOneMore(config, before, init, Receive(input));
      SmoothStep(s, Receive(input));
      StaysWelcome(s, input);
      WrapsOn(p.index, k - 1, 1);
    }
  }

  /** How far to turn for a position to be next. */
  function Turns(index: uint64, n: nat, j: nat): (k: nat)
    requires j < n <= 0x1_0000_0000_0000_0000
    ensures U64(index + k) % n == j
  {
    SmallRemainder(j, 0x1_0000_0000_0000_0000);
    SmallRemainder(j, n);
    DivUnique(0x1_0000_0000_0000_0000 + j, 0x1_0000_0000_0000_0000, 1);
    0x1_0000_0000_0000_0000 - index + j
  }

  /** Whatever is on the healthy list can be selected, as long as some client is served. */
  lemma EveryHealthySelectable(config: NtpConfig, before: seq<Event>, key: ClientKey, j: nat)
    returns (more: seq<Event>, input: PacketInput)
    requires var s := Run(config, before);
             Welcome(s, key) && s.config.upstreamServers != [] && j < |s.pool.healthy| <= 0x1_0000_0000_0000_0000
    ensures var s := Run(config, before + more);
            NoReload(more) && Reached(s, input) && SelectedFor(s, input).server == Run(config, before).pool.healthy[j]
  {
    hide Run, Reached, Welcome;
    var s := Run(config, before);
    var n := |s.pool.healthy|;
    if Rotates(s) {
      more := TurnOn(config, before, key, Turns(s.pool.index, n, j));
      input := WelcomeRequest(Run(config, before + more), key, true, 0);
    } else {
      more := [];
      assert before + more == before;
      input := WelcomeRequest(s, key, true, j);
      SmallRemainder(j, n);
    }
  }

  /** A reload takes the new configuration and leaves the pool alone. */
  lemma ReloadedPool(config: NtpConfig, events: seq<Event>, c: NtpConfig)
    requires c.Accepted()
    ensures var t := Run(config, events + [Reload(Some(c))]);
            t == Run(config, events).(config := c)
  {
    assert (events + [Reload(Some(c))])[..|events|] == events;
  }

  /**
   After a reload, some later packet is given a server that is no longer configured exactly if
   the healthy list that the old configuration left has one, as long as the new configuration
   admits some client that has no connection yet.
   */
  lemma StaleAfterReload(config: NtpConfig, events: seq<Event>, c: NtpConfig, key: ClientKey)
    requires c.Accepted() && c.upstreamServers != []
    requires Admits(c.acl, key.ip) && key !in Run(config, events).connections
    requires |Run(config, events).pool.healthy| <= 0x1_0000_0000_0000_0000
    ensures CanSelectOutside(config, events + [Reload(Some(c))], c)
            <==> !AllConfigured(Run(config, events).pool.healthy, c.upstreamServers)
  {
    hide Run, Admits, Reached;
    var before := events + [Reload(Some(c))];
    ReloadedPool(config, events, c);
    var healthy := Run(config, before).pool.healthy;
    if AllConfigured(healthy, c.upstreamServers) {
      forall more: seq<Event>, input: PacketInput ensures !SelectsOutside(config, before, more, input, c) {
        if NoReload(more) {
          ConfiguredStays(config, before, more, c.upstreamServers);
        }
      }
    } else {
      var j: nat :| j < |healthy| && healthy[j] !in c.upstreamServers;
      var more, input := EveryHealthySelectable(config, before, key, j);
      assert SelectsOutside(config, before, more, input, c);
    }
  }

  /** Two servers configured, then replaced by a third before any packet: one of the two is still selected. */
  lemma StaleWitness(config: NtpConfig, key: ClientKey)
    requires config.Accepted() && config.upstreamServers == ["a", "b"] && Admits(config.acl, key.ip)
    ensures var c := config.(upstreamServers := ["c"]);
            CanSelectOutside(config, [Reload(Some(c))], c)
  {
    hide Admits, CanSelectOutside;
    var c := config.(upstreamServers := ["c"]);
    assert Run(config, []) == Initial(config);
    assert config.upstreamServers[0] !in c.upstreamServers;
    StaleAfterReload(config, [], c, key);
    assert [] + [Reload(Some(c))] == [Reload(Some(c))];
  }
}
