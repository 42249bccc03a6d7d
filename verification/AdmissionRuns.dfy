/**
 The two limiters inside the server: over a whole run the slots of each are those of the calls
 that reached it, so its verdicts follow the count of those calls, and the answers a client
 gets in a minute or in a second are bounded.
 */
module AdmissionRuns {
  import opened NtpTime
  import opened AccessControl
  import opened UpstreamSync
  import opened Config
  import opened ServerModel
  import opened ServerRuns
  import R = RateLimit

  /** The request limiter counts minutes, the anomaly limiter seconds. */
  datatype Window = Minute | Second

  function SlotsIn(w: Window, s: ServerState): R.Slots { if w.Minute? then s.rateSlots else s.ddosSlots }

  function CallIn(w: Window, s: ServerState, input: PacketInput): R.Call {
    if w.Minute? then RateCall(s, input) else DdosCall(s, input)
  }

  function BucketIn(w: Window, input: PacketInput): nat { if w.Minute? then input.minuteBucket else input.secondBucket }

  predicate Enabled(w: Window, config: NtpConfig) {
    if w.Minute? then config.enableRateLimiting else config.enableDdosProtection
  }

  /** An anomaly drops a packet only under graceful degradation. */
  predicate Enforced(w: Window, config: NtpConfig) {
    Enabled(w, config) && (w.Second? ==> config.enableGracefulDegradation)
  }

  /** The datagram gets as far as the limiter. */
  predicate Reaches(w: Window, s: ServerState, input: PacketInput) {
    Admits(s.config.acl, input.key.ip) && (w.Second? ==> !RateLimited(s, input))
  }

  /** The limiter's verdict. */
  predicate Over(w: Window, s: ServerState, input: PacketInput) {
    if w.Minute? then RateLimited(s, input) else Anomalous(RateChecked(s, input), input)
  }

  /** The call an event makes to the limiter, if any. */
  function CallsOf(w: Window, s: ServerState, e: Event): seq<R.Call> {
    if e.Receive? && Reaches(w, s, e.input) && Enabled(w, s.config) then [CallIn(w, s, e.input)] else []
  }

  function CallsMade(w: Window, config: NtpConfig, events: seq<Event>): seq<R.Call> {
    if events == [] then []
    else
      var before := events[..|events| - 1];
      CallsMade(w, config, before) + CallsOf(w, Run(config, before), events[|events| - 1])
  }

  lemma RunOfOneMore(calls: seq<R.Call>, c: R.Call)
    ensures R.Run(calls + [c]) == R.Hit(R.Run(calls), c)
  {
    assert (calls + [c])[..|calls|] == calls;
  }

  lemma ScreenedSlots(w: Window, s: ServerState, input: PacketInput)
    ensures SlotsIn(w, Screened(s, input).state) ==
            if Reaches(w, s, input) && Enabled(w, s.config) then R.Hit(SlotsIn(w, s), CallIn(w, s, input)) else SlotsIn(w, s)
  {
    hide Admits, R.Hit, R.Exceeds;
  }

  lemma StepSlots(w: Window, s: ServerState, e: Event)
    ensures SlotsIn(w, Step(s, e)) ==
            if CallsOf(w, s, e) == [] then SlotsIn(w, s) else R.Hit(SlotsIn(w, s), CallsOf(w, s, e)[0])
  {
    hide Process, Attempts, BestOf, Commit, Reaches, KeptConnections, R.Hit;
    if e.Receive? {
      ProcessFields(s, e.input);
      ScreenedSlots(w, s, e.input);
    }
  }

  lemma OneCall(w: Window, s: ServerState, e: Event)
    ensures CallsOf(w, s, e) == [] || CallsOf(w, s, e) == [CallsOf(w, s, e)[0]]
  {
  }

  /** Over every run, whatever happens in between, the slots are those of the calls made, in order. */
  lemma {:induction false} SlotsAreOfCalls(w: Window, config: NtpConfig, events: seq<Event>)
    ensures SlotsIn(w, Run(config, events)) == R.Run(CallsMade(w, config, events))
  {
    hide Step, CallsOf;
    if events == [] {
      assert Run(config, []) == Initial(config);
    } else {
      var init, e := events[..|events| - 1], events[|events| - 1];
      SlotsAreOfCalls(w, config, init);
      StepSlots(w, Run(config, init), e);
      OneCall(w, Run(config, init), e);
      if CallsOf(w, Run(config, init), e) != [] {
        RunOfOneMore(CallsMade(w, config, init), CallsOf(w, Run(config, init), e)[0]);
      } else {
        assert CallsMade(w, config, events) == CallsMade(w, config, init);
      }
    }
  }

  lemma OverIsExceeds(w: Window, s: ServerState, input: PacketInput)
    ensures Over(w, s, input) <==> Enabled(w, s.config) && R.Exceeds(SlotsIn(w, s), CallIn(w, s, input))
    ensures CallIn(w, s, input) == R.Call(input.key.ip, BucketIn(w, input), LimitOf(w, s.config))
  {
    hide R.Hit, R.Exceeds;
  }

  function LimitOf(w: Window, config: NtpConfig): uint32 {
    if w.Minute? then config.connectionRateLimit else config.ddosThreshold
  }

  /** The packets of a client that met the limiter in a minute or second, while it was on. */
  function PacketsIn(w: Window, config: NtpConfig, events: seq<Event>, ip: Address, bucket: nat): nat {
    if events == [] then 0
    else
      var init := events[..|events| - 1];
      PacketsIn(w, config, init, ip, bucket)
      + (if Meets(w, Run(config, init), events[|events| - 1], ip, bucket) then 1 else 0)
  }

  predicate Meets(w: Window, s: ServerState, e: Event, ip: Address, bucket: nat) {
    && e.Receive? && e.input.key.ip == ip && BucketIn(w, e.input) == bucket
    && Reaches(w, s, e.input) && Enabled(w, s.config)
  }

  /** The clock is read under the lock, so successive packets never see it go back. */
  predicate SteadyClock(w: Window, events: seq<Event>) {
    forall i, j :: 0 <= i < j < |events| && events[i].Receive? && events[j].Receive? ==>
                     BucketIn(w, events[i].input) <= BucketIn(w, events[j].input)
  }

  lemma CallsOfOneMore(calls: seq<R.Call>, c: R.Call, ip: Address, bucket: nat)
    ensures R.Calls(calls + [c], ip, bucket) == R.Calls(calls, ip, bucket) + (if c.ip == ip && c.bucket == bucket then 1 else 0)
  {
    assert (calls + [c])[..|calls|] == calls;
  }

  /** The calls made are those packets. */
  lemma {:induction false} CallsArePackets(w: Window, config: NtpConfig, events: seq<Event>, ip: Address, bucket: nat)
    ensures R.Calls(CallsMade(w, config, events), ip, bucket) == PacketsIn(w, config, events, ip, bucket)
  {
    hide Run, R.Calls, Reaches, Enabled;
    if events == [] {
      NoCalls(ip, bucket);
    } else {
      var init, e := events[..|events| - 1], events[|events| - 1];
      CallsArePackets(w, config, init, ip, bucket);
      OneCall(w, Run(config, init), e);
      var calls := CallsMade(w, config, init);
      if CallsOf(w, Run(config, init), e) != [] {
        OverIsExceeds(w, Run(config, init), e.input);
        CallsOfOneMore(calls, CallIn(w, Run(config, init), e.input), ip, bucket);
      } else {
        assert CallsMade(w, config, events) == calls;
      }
    }
  }

  lemma NoCalls(ip: Address, bucket: nat)
    ensures R.Calls([], ip, bucket) == 0
  {
  }

  predicate AllBelow(calls: seq<R.Call>, bound: nat) { forall i :: 0 <= i < |calls| ==> calls[i].bucket <= bound }

  /** No call is of a later minute or second than every packet. */
  lemma {:induction false} CallsBelow(w: Window, config: NtpConfig, events: seq<Event>, bound: nat)
    requires forall i :: 0 <= i < |events| && events[i].Receive? ==> BucketIn(w, events[i].input) <= bound
    ensures AllBelow(CallsMade(w, config, events), bound)
  {
    hide Run, Reaches, Enabled;
    if events != [] {
      var init, e := events[..|events| - 1], events[|events| - 1];
      CallsBelow(w, config, init, bound);
      if e.Receive? {
        OverIsExceeds(w, Run(config, init), e.input);
      }
    }
  }

  lemma SteadyInit(w: Window, events: seq<Event>)
    requires events != [] && SteadyClock(w, events)
    ensures SteadyClock(w, events[..|events| - 1])
    ensures var e := events[|events| - 1];
            e.Receive? ==> forall i :: 0 <= i < |events| - 1 && events[i].Receive? ==>
                                         BucketIn(w, events[i].input) <= BucketIn(w, e.input)
  {
  }

  lemma SteadyMore(calls: seq<R.Call>, c: R.Call)
    requires R.Steady(calls) && AllBelow(calls, c.bucket)
    ensures R.Steady(calls + [c])
  {
  }

  lemma {:induction false} CallsSteady(w: Window, config: NtpConfig, events: seq<Event>)
    requires SteadyClock(w, events)
    ensures R.Steady(CallsMade(w, config, events))
  {
    hide Run, Reaches, Enabled, R.Steady, SteadyClock;
    if events == [] {
      NoneSteady();
    } else {
      var init, e := events[..|events| - 1], events[|events| - 1];
      SteadyInit(w, events);
      CallsSteady(w, config, init);
      if CallsOf(w, Run(config, init), e) != [] {
        OverIsExceeds(w, Run(config, init), e.input);
        CallsBelow(w, config, init, BucketIn(w, e.input));
        SteadyMore(CallsMade(w, config, init), CallIn(w, Run(config, init), e.input));
      } else {
        assert CallsMade(w, config, events) == CallsMade(w, config, init);
      }
    }
  }

  lemma NoneSteady()
    ensures R.Steady([])
  {
  }

  /**
   The verdict on a datagram after any run: it is over the limit exactly if the limiter is on
   and the client's packets that met it in this minute or second, this one included, exceed
   the configured limit (modulo the 32-bit counter), whoever else called in between.
   */
  lemma OverIffTooMany(w: Window, config: NtpConfig, events: seq<Event>, input: PacketInput)
    requires SteadyClock(w, events + [Receive(input)])
    ensures var s := Run(config, events);
            Over(w, s, input) <==>
              Enabled(w, s.config)
              && (PacketsIn(w, config, events, input.key.ip, BucketIn(w, input)) + 1) % 0x1_0000_0000 > LimitOf(w, s.config)
  {
    hide Over, Run, R.Exceeds, R.Run, R.Calls, R.Steady, SteadyClock;
    var s := Run(config, events);
    var calls, c := CallsMade(w, config, events), CallIn(w, s, input);
    assert (events + [Receive(input)])[..|events|] == events;
    SteadyInit(w, events + [Receive(input)]);
    CallsSteady(w, config, events);
    AllEarlier(w, events, input);
    CallsBelow(w, config, events, BucketIn(w, input));
    SlotsAreOfCalls(w, config, events);
    OverIsExceeds(w, s, input);
    SteadyMore(calls, c);
    R.ExceedsIffBucketCount(calls, c);
    CallsOfOneMore(calls, c, input.key.ip, BucketIn(w, input));
    CallsArePackets(w, config, events, input.key.ip, BucketIn(w, input));
  }

  lemma AllEarlier(w: Window, events: seq<Event>, input: PacketInput)
    requires SteadyClock(w, events + [Receive(input)])
    ensures forall i :: 0 <= i < |events| && events[i].Receive? ==> BucketIn(w, events[i].input) <= BucketIn(w, input)
  {
    var all := events + [Receive(input)];
    forall i | 0 <= i < |events| && events[i].Receive? ensures BucketIn(w, events[i].input) <= BucketIn(w, input) {
      assert all[i] == events[i] && all[|events|] == Receive(input);
    }
  }

  /** Admission in full: the access list, the minute limiter, and the anomaly limiter if it is to drop packets. */
  lemma PassedIff(s: ServerState, input: PacketInput)
    ensures Screened(s, input).passed <==>
            && Admits(s.config.acl, input.key.ip)
            && !Over(Minute, s, input)
            && !(Over(Second, s, input) && s.config.enableGracefulDegradation)
  {
    hide Admits, R.Hit, R.Exceeds;
  }

  /** 1 if the event brings this client an answer in this minute or second. */
  function AnswerTo(w: Window, s: ServerState, e: Event, ip: Address, bucket: nat): nat {
    if e.Receive? && e.input.key.ip == ip && BucketIn(w, e.input) == bucket && Process(s, e.input).reply.Some? then 1 else 0
  }

  /** The answers sent to a client for datagrams that met the limiter in a given minute or second. */
  function Answers(w: Window, config: NtpConfig, events: seq<Event>, ip: Address, bucket: nat): nat {
    if events == [] then 0
    else
      var before := events[..|events| - 1];
      Answers(w, config, before, ip, bucket) + AnswerTo(w, Run(config, before), events[|events| - 1], ip, bucket)
  }

  /** One limit is enforced at every datagram of the run. */
  ghost predicate AlwaysEnforced(w: Window, config: NtpConfig, events: seq<Event>, limit: uint32) {
    forall i :: 0 <= i < |events| && events[i].Receive? ==> EnforcedAt(w, Run(config, events[..i]).config, limit)
  }

  predicate EnforcedAt(w: Window, config: NtpConfig, limit: uint32) { Enforced(w, config) && LimitOf(w, config) == limit }

  lemma AlwaysEnforcedInit(w: Window, config: NtpConfig, events: seq<Event>, limit: uint32)
    requires events != [] && AlwaysEnforced(w, config, events, limit)
    ensures var n := |events| - 1;
            && AlwaysEnforced(w, config, events[..n], limit)
            && (events[n].Receive? ==> EnforcedAt(w, Run(config, events[..n]).config, limit))
  {
    hide Run, EnforcedAt;
    var n := |events| - 1;
    forall i | 0 <= i < n && events[..n][i].Receive?
      ensures EnforcedAt(w, Run(config, events[..n][..i]).config, limit)
    {
      assert events[..n][..i] == events[..i];
    }
  }

  predicate LimitedTo(calls: seq<R.Call>, limit: uint32) { forall i :: 0 <= i < |calls| ==> calls[i].limit == limit }

  lemma {:induction false} CallsLimited(w: Window, config: NtpConfig, events: seq<Event>, limit: uint32)
    requires AlwaysEnforced(w, config, events, limit)
    ensures LimitedTo(CallsMade(w, config, events), limit)
  {
    hide Run, Reaches, Enabled, AlwaysEnforced;
    if events != [] {
      var init, e := events[..|events| - 1], events[|events| - 1];
      AlwaysEnforcedInit(w, config, events, limit);
      CallsLimited(w, config, init, limit);
      if e.Receive? {
        OverIsExceeds(w, Run(config, init), e.input);
      }
    }
  }

  lemma PassedIsUnder(w: Window, s: ServerState, input: PacketInput)
    requires Screened(s, input).passed && Enforced(w, s.config)
    ensures CallsOf(w, s, Receive(input)) == [CallIn(w, s, input)] && !R.Exceeds(SlotsIn(w, s), CallIn(w, s, input))
  {
    hide Admits, R.Hit, R.Exceeds;
  }

  lemma AnswerPassed(w: Window, s: ServerState, input: PacketInput)
    requires Process(s, input).reply.Some? && Enforced(w, s.config)
    ensures CallsOf(w, s, Receive(input)) == [CallIn(w, s, input)] && !R.Exceeds(SlotsIn(w, s), CallIn(w, s, input))
  {
    hide Screened, Served, Connected;
    PassedIsUnder(w, s, input);
  }

  lemma PassesOfOneMore(calls: seq<R.Call>, c: R.Call, ip: Address, bucket: nat)
    ensures R.Passes(calls + [c], ip, bucket) ==
            R.Passes(calls, ip, bucket) + (if c.ip == ip && c.bucket == bucket && !R.Exceeds(R.Run(calls), c) then 1 else 0)
  {
    assert (calls + [c])[..|calls|] == calls;
  }

  lemma StepPasses(w: Window, s: ServerState, calls: seq<R.Call>, e: Event, ip: Address, bucket: nat)
    requires SlotsIn(w, s) == R.Run(calls) && (e.Receive? ==> Enforced(w, s.config))
    ensures R.Passes(calls, ip, bucket) + AnswerTo(w, s, e, ip, bucket) <= R.Passes(calls + CallsOf(w, s, e), ip, bucket)
  {
    hide Process, CallsOf, Enforced, SlotsIn, R.Exceeds, R.Run;
    OneCall(w, s, e);
    if CallsOf(w, s, e) != [] {
      PassesOfOneMore(calls, CallsOf(w, s, e)[0], ip, bucket);
    } else {
      assert calls + CallsOf(w, s, e) == calls;
    }
    if AnswerTo(w, s, e, ip, bucket) == 1 {
      AnswerPassed(w, s, e.input);
    }
  }

  lemma {:induction false} AnswersPassed(w: Window, config: NtpConfig, events: seq<Event>, ip: Address, bucket: nat, limit: uint32)
    requires AlwaysEnforced(w, config, events, limit)
    ensures Answers(w, config, events, ip, bucket) <= R.Passes(CallsMade(w, config, events), ip, bucket)
  {
    hide AnswerTo, CallsOf, Step, AlwaysEnforced, Enforced, SlotsIn, R.Exceeds, R.Run;
    if events != [] {
      var init := events[..|events| - 1];
      AlwaysEnforcedInit(w, config, events, limit);
      AnswersPassed(w, config, init, ip, bucket, limit);
      SlotsAreOfCalls(w, config, init);
      StepPasses(w, Run(config, init), CallsMade(w, config, init), events[|events| - 1], ip, bucket);
    }
  }

  /** A client gets at most `limit` answers a minute, or a second, over every run in which that limit stays in force. */
  lemma AnswersWithinLimit(w: Window, config: NtpConfig, events: seq<Event>, ip: Address, bucket: nat, limit: uint32)
    requires AlwaysEnforced(w, config, events, limit) && SteadyClock(w, events)
    requires PacketsIn(w, config, events, ip, bucket) < 0x1_0000_0000
    ensures Answers(w, config, events, ip, bucket) <= limit
  {
    hide AlwaysEnforced, SteadyClock, Run, R.Steady, R.Calls, R.Passes;
    AnswersPassed(w, config, events, ip, bucket, limit);
    CallsSteady(w, config, events);
    CallsLimited(w, config, events, limit);
    CallsArePackets(w, config, events, ip, bucket);
    R.BucketPasses(CallsMade(w, config, events), ip, bucket, limit);
  }
}
