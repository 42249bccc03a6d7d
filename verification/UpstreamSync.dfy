/**
 Synchronisation with upstream servers: the checks one answer must pass, the choice of the
 answer with the lowest delay, and the clock state it is committed to.
 */
module UpstreamSync {
  import opened NtpTime
  import opened OnWire
  import opened PacketCodec

  datatype UpstreamSyncResult =
    UpstreamSyncResult(success: bool, server: string, offsetUs: OffsetUs, delayUs: int64, stratum: byte)

  const NO_RESULT := UpstreamSyncResult(false, "", 0, 0, 0)

  /** What came back for one request: nothing usable from the network, or a datagram between two clock readings. */
  datatype UpstreamReply = NoReply | Reply(t1: NtpTimestamp, data: seq<byte>, t4: NtpTimestamp)

  function QueryUpstreamServer(host: string, reply: UpstreamReply): UpstreamSyncResult {
    var failed := NO_RESULT.(server := host);
    if reply.NoReply? || |reply.data| < NTP_PACKET_SIZE then failed
    else
      var response := Decode(reply.data);
      if !response.IsValid() || response.mode != MODE_SERVER then failed
      else
        UpstreamSyncResult(
          true, host,
          CalculateOffset(reply.t1, response.receiveTs, response.transmitTs, reply.t4),
          CalculateRoundTripDelay(reply.t1, response.receiveTs, response.transmitTs, reply.t4),
          response.stratum)
  }

  /** A valid server packet put on the wire is accepted, and its two stamps reach the formulas unchanged. */
  lemma AcceptsServerPacket(host: string, t1: NtpTimestamp, p: Packet, t4: NtpTimestamp)
    requires p.FitsHeader() && p.IsValid() && p.mode == MODE_SERVER
    ensures QueryUpstreamServer(host, Reply(t1, Encode(p), t4)) ==
            UpstreamSyncResult(true, host, CalculateOffset(t1, p.receiveTs, p.transmitTs, t4),
                               CalculateRoundTripDelay(t1, p.receiveTs, p.transmitTs, t4), p.stratum)
  {
    DecodeEncode(p);
  }

  /** A reply in the bytes of a valid server packet, mode 4. */
  predicate GoodReply(reply: UpstreamReply) { reply.Reply? && ValidBytes(reply.data, 4) }

  /** A query succeeds exactly on such bytes, reports the stratum in them and always names the server asked. */
  lemma SucceedsIff(host: string, reply: UpstreamReply)
    ensures var r := QueryUpstreamServer(host, reply);
            && (r.success <==> GoodReply(reply))
            && r.server == host
            && r.stratum == (if GoodReply(reply) then reply.data[1] else 0)
  {
    hide CalculateOffset, CalculateRoundTripDelay, ReadU32Be, ReadTimestamp;
    if reply.Reply? && |reply.data| >= NTP_PACKET_SIZE {
      HeaderBytes(reply.data);
      ValidBytesIff(reply.data);
    }
  }

  // ---------------------------------------------------------------- what an accepted answer guarantees

  /**
   The reply is the server's answer to a request sent `late` nanoseconds before the one it is
   taken to answer: it reached the server that much earlier. An answer to the request itself
   is late by nothing.
   */
  ghost predicate AnswersExchange(reply: UpstreamReply, x: Exchange, late: nat, loss: nat) {
    && reply.Reply? && |reply.data| >= NTP_PACKET_SIZE
    && x.a >= 0 && x.b >= 0
    && Exchanged(reply.t1, Decode(reply.data).receiveTs, Decode(reply.data).transmitTs, reply.t4,
                 x.(a := x.a - late), loss)
  }

  lemma ResultOfAnswer(host: string, reply: UpstreamReply)
    requires QueryUpstreamServer(host, reply).success
    ensures var r, p := QueryUpstreamServer(host, reply), Decode(reply.data);
            && r.offsetUs == CalculateOffset(reply.t1, p.receiveTs, p.transmitTs, reply.t4)
            && r.delayUs == CalculateRoundTripDelay(reply.t1, p.receiveTs, p.transmitTs, reply.t4)
  {
  }

  /** An accepted answer holds the exchange bound for the clock of whichever server sent it, and shows its paths. */
  lemma AnswerWithin(host: string, reply: UpstreamReply, x: Exchange, late: nat, loss: nat)
    requires QueryUpstreamServer(host, reply).success && AnswersExchange(reply, x, late, loss) && late <= x.a
    ensures var r := QueryUpstreamServer(host, reply);
            && OffsetWithin(r.offsetUs, r.delayUs, x.theta, Slack(loss))
            && -(1000 + loss) <= r.delayUs * 1000 - (x.a - late + x.b) <= 1000 + loss
  {
    hide Decode, QueryUpstreamServer, CalculateOffset, CalculateRoundTripDelay, Exchanged, OffsetWithin;
    var p := Decode(reply.data);
    ResultOfAnswer(host, reply);
    ExchangeBound(reply.t1, p.receiveTs, p.transmitTs, reply.t4, x.(a := x.a - late), loss, Slack(loss));
    DelayIsPaths(reply.t1, p.receiveTs, p.transmitTs, reply.t4, x.(a := x.a - late), loss);
  }

  /** Any eight bytes in place of the originate timestamp give the same result. */
  lemma OriginateIgnored(host: string, t1: NtpTimestamp, data: seq<byte>, originate: seq<byte>, t4: NtpTimestamp)
    requires |data| >= NTP_PACKET_SIZE && |originate| == 8
    ensures QueryUpstreamServer(host, Reply(t1, data[..24] + originate + data[32..], t4)) ==
            QueryUpstreamServer(host, Reply(t1, data, t4))
  {
    hide CalculateOffset, CalculateRoundTripDelay, BigEndian, ToSigned8;
    var other := data[..24] + originate + data[32..];
    assert forall i :: 0 <= i < |data| && !(24 <= i < 32) ==> other[i] == data[i];
    assert Decode(other) == Decode(data).(originateTs := Decode(other).originateTs);
  }

  /** Every answer that is late by so much, over paths so long, holds the bound if it is accepted. */
  ghost predicate LateAnswersWithin(host: string, late: nat, a: nat, b: nat, loss: nat) {
    forall reply: UpstreamReply, x: Exchange ::
      x.a == a && x.b == b && QueryUpstreamServer(host, reply).success && AnswersExchange(reply, x, late, loss) ==>
        OffsetWithin(QueryUpstreamServer(host, reply).offsetUs, QueryUpstreamServer(host, reply).delayUs, x.theta, Slack(loss))
  }

  /** A server packet that carries the two stamps. */
  function AnswerWith(t2: NtpTimestamp, t3: NtpTimestamp): Packet {
    DEFAULT_PACKET.(mode := MODE_SERVER, poll := 4, receiveTs := t2, transmitTs := t3)
  }

  lemma LateAnswersDecide(host: string, late: nat, a: nat, b: nat, loss: nat)
    requires LateAnswersWithin(host, late, a, b, loss)
    ensures AlwaysWithin(a - late, b, loss, Slack(loss))
  {
    hide Encode, Decode, QueryUpstreamServer, CalculateOffset, CalculateRoundTripDelay, Exchanged, OffsetWithin;
    forall t1: NtpTimestamp, t2: NtpTimestamp, t3: NtpTimestamp, t4: NtpTimestamp, x: Exchange
      | x.a == a - late && x.b == b && Exchanged(t1, t2, t3, t4, x, loss)
      ensures OffsetWithin(CalculateOffset(t1, t2, t3, t4), CalculateRoundTripDelay(t1, t2, t3, t4), x.theta, Slack(loss))
    {
      var p := AnswerWith(t2, t3);
      var reply, y := Reply(t1, Encode(p), t4), x.(a := a);
      DecodeEncode(p);
      AcceptsServerPacket(host, t1, p, t4);
      assert y.(a := y.a - late) == x;
      assert AnswersExchange(reply, y, late, loss);
    }
  }

  /**
   The originate timestamp is not checked, so an answer to an earlier request is accepted too.
   Such answers hold the bound exactly while they are late by no more than the outward path.
   */
  lemma LateAnswersWithinIff(host: string, late: nat, a: nat, b: nat, loss: nat)
    requires WithinEra(a - late, b, loss) && loss >= 1000
    ensures LateAnswersWithin(host, late, a, b, loss) <==> late <= a
  {
    hide QueryUpstreamServer, OffsetWithin, AnswersExchange, AlwaysWithin;
    if LateAnswersWithin(host, late, a, b, loss) {
      LateAnswersDecide(host, late, a, b, loss);
      ExchangeBoundIff(a - late, b, loss, Slack(loss));
    }
    if late <= a {
      forall reply: UpstreamReply, x: Exchange
        | x.a == a && x.b == b && QueryUpstreamServer(host, reply).success && AnswersExchange(reply, x, late, loss)
        ensures OffsetWithin(QueryUpstreamServer(host, reply).offsetUs, QueryUpstreamServer(host, reply).delayUs,
                             x.theta, Slack(loss))
      {
        AnswerWithin(host, reply, x, late, loss);
      }
    }
  }

  // ---------------------------------------------------------------- choosing an answer

  function BestOf(attempts: seq<UpstreamSyncResult>): UpstreamSyncResult {
    if attempts == [] then NO_RESULT
    else
      var best := BestOf(attempts[..|attempts| - 1]);
      var attempt := attempts[|attempts| - 1];
      if attempt.success && (!best.success || attempt.delayUs < best.delayUs) then attempt else best
  }

  /** The position holds a success, no success has a lower delay, and no earlier one the same delay. */
  ghost predicate FirstMinimum(attempts: seq<UpstreamSyncResult>, i: nat) {
    && i < |attempts|
    && attempts[i].success
    && (forall j :: 0 <= j < |attempts| && attempts[j].success ==> attempts[i].delayUs <= attempts[j].delayUs)
    && (forall j :: 0 <= j < i && attempts[j].success ==> attempts[i].delayUs < attempts[j].delayUs)
  }

  lemma ExtendMinimum(attempts: seq<UpstreamSyncResult>, i: nat)
    requires attempts != [] && FirstMinimum(attempts[..|attempts| - 1], i)
    ensures var n := |attempts| - 1;
            if attempts[n].success && attempts[n].delayUs < attempts[i].delayUs
            then FirstMinimum(attempts, n)
            else FirstMinimum(attempts, i)
  {
    var before := attempts[..|attempts| - 1];
    assert forall j :: 0 <= j < |before| ==> attempts[j] == before[j];
  }

  /** Where the choice is found. */
  lemma {:induction false} BestPosition(attempts: seq<UpstreamSyncResult>) returns (i: nat)
    ensures BestOf(attempts).success ==> FirstMinimum(attempts, i) && attempts[i] == BestOf(attempts)
    ensures !BestOf(attempts).success ==>
              BestOf(attempts) == NO_RESULT && forall j :: 0 <= j < |attempts| ==> !attempts[j].success
  {
    i := 0;
    if attempts != [] {
      var n := |attempts| - 1;
      i := BestPosition(attempts[..n]);
      if BestOf(attempts[..n]).success {
        ExtendMinimum(attempts, i);
        if attempts[n].success && attempts[n].delayUs < attempts[i].delayUs {
          i := n;
        }
      } else {
        assert forall j :: 0 <= j < n ==> !attempts[..n][j].success && attempts[j] == attempts[..n][j];
        i := n;
      }
    }
  }

  ghost predicate ChosenFrom(attempts: seq<UpstreamSyncResult>, best: UpstreamSyncResult) {
    exists i: nat :: FirstMinimum(attempts, i) && attempts[i] == best
  }

  predicate AnySuccess(attempts: seq<UpstreamSyncResult>) {
    exists j :: 0 <= j < |attempts| && attempts[j].success
  }

  /** The choice is the first answer of minimum delay among the successes, or nothing if all failed. */
  lemma BestIsFirstMinimum(attempts: seq<UpstreamSyncResult>)
    ensures AnySuccess(attempts) <==> BestOf(attempts).success
    ensures if AnySuccess(attempts) then ChosenFrom(attempts, BestOf(attempts)) else BestOf(attempts) == NO_RESULT
  {
    var i := BestPosition(attempts);
  }

  // ---------------------------------------------------------------- clock state

  datatype SyncState = SyncState(clockOffsetUs: OffsetUs, lastDelayUs: int64, upstreamStratum: byte,
                                 syncedUpstream: string, lastSyncTime: int64, synced: bool)
  {
    function EffectiveStratum(configured: byte): byte {
      if !synced || upstreamStratum == 0 then configured
      else
        Clamp(upstreamStratum as int + 1, 1, 15)
    }
  }

  function Clamp(v: int, lo: int, hi: int): int { if v < lo then lo else if v > hi then hi else v }

  const UNSYNCED := SyncState(0, 0, 0, "", 0, false)

  function Commit(s: SyncState, best: UpstreamSyncResult, now: int64): SyncState {
    if best.success then SyncState(best.offsetUs, best.delayUs, best.stratum, best.server, now, true) else s
  }

  /** The results of querying each configured server once. */
  function Attempts(servers: seq<string>, replies: seq<UpstreamReply>): (attempts: seq<UpstreamSyncResult>)
    requires |servers| == |replies|
    ensures |attempts| == |servers|
    ensures forall i :: 0 <= i < |servers| ==> attempts[i] == QueryUpstreamServer(servers[i], replies[i])
  {
    seq(|servers|, i requires 0 <= i < |servers| => QueryUpstreamServer(servers[i], replies[i]))
  }

  /** A round commits something exactly if one of its replies is good, and then a stratum up to 15 from a good one. */
  lemma RoundCommitsIff(s: SyncState, servers: seq<string>, replies: seq<UpstreamReply>, now: int64)
    requires |servers| == |replies|
    ensures var best := BestOf(Attempts(servers, replies));
            && (best.success <==> exists i :: 0 <= i < |replies| && GoodReply(replies[i]))
            && ((forall i :: 0 <= i < |replies| ==> !GoodReply(replies[i])) ==> Commit(s, best, now) == s)
            && (best.success ==> Commit(s, best, now).synced && Commit(s, best, now).upstreamStratum <= 15
                                 && exists i :: 0 <= i < |replies| && GoodReply(replies[i])
                                                && best == QueryUpstreamServer(servers[i], replies[i]))
  {
    hide QueryUpstreamServer, GoodReply;
    var attempts := Attempts(servers, replies);
    forall i | 0 <= i < |replies| ensures attempts[i].success <==> GoodReply(replies[i]) {
      SucceedsIff(servers[i], replies[i]);
    }
    var i := BestPosition(attempts);
    if BestOf(attempts).success {
      SucceedsIff(servers[i], replies[i]);
      GoodStratum(replies[i]);
    }
  }

  lemma GoodStratum(reply: UpstreamReply)
    requires GoodReply(reply)
    ensures reply.data[1] <= 15
  {
  }

  class UpstreamSyncManager {
    var clockOffsetUs: OffsetUs
    var lastDelayUs: int64
    var upstreamStratum: byte
    var syncedUpstream: string
    var lastSyncTime: int64
    var synced: bool

    function State(): SyncState
      reads this
    {
      SyncState(clockOffsetUs, lastDelayUs, upstreamStratum, syncedUpstream, lastSyncTime, synced)
    }

    constructor ()
      ensures State() == UNSYNCED
    {
      clockOffsetUs, lastDelayUs, upstreamStratum := 0, 0, 0;
      syncedUpstream, lastSyncTime, synced := "", 0, false;
    }

    method SyncOnce(servers: seq<string>, replies: seq<UpstreamReply>, now: int64) returns (best: UpstreamSyncResult)
      requires |servers| == |replies|
      modifies this
      ensures best == BestOf(Attempts(servers, replies))
      ensures State() == Commit(old(State()), best, now)
      ensures (forall i :: 0 <= i < |replies| ==> !GoodReply(replies[i])) ==> State() == old(State())
    {
      hide QueryUpstreamServer, GoodReply;
      RoundCommitsIff(State(), servers, replies, now);
      best := NO_RESULT;
      if |servers| == 0 {
        return;
      }
      ghost var attempts := Attempts(servers, replies);
      for i := 0 to |servers|
        invariant best == BestOf(attempts[..i])
      {
        var attempt := QueryUpstreamServer(servers[i], replies[i]);
        if attempt.success {
          if !best.success || attempt.delayUs < best.delayUs {
            best := attempt;
          }
        }
        assert attempts[..i + 1][..i] == attempts[..i];
      }
      assert attempts[..|servers|] == attempts;
      if best.success {
        clockOffsetUs := best.offsetUs;
        lastDelayUs := best.delayUs;
        upstreamStratum := best.stratum;
        syncedUpstream := best.server;
        lastSyncTime := now;
        synced := true;
      }
    }
  }

  // ---------------------------------------------------------------- runs

  datatype Round = Round(attempts: seq<UpstreamSyncResult>, now: int64)

  function RunRounds(s: SyncState, rounds: seq<Round>): SyncState {
    if rounds == [] then s
    else
      var last := rounds[|rounds| - 1];
      Commit(RunRounds(s, rounds[..|rounds| - 1]), BestOf(last.attempts), last.now)
  }

  predicate ShowsAnswer(s: SyncState, r: UpstreamSyncResult) {
    && s.synced && r.success
    && s.clockOffsetUs == r.offsetUs && s.lastDelayUs == r.delayUs
    && s.upstreamStratum == r.stratum && s.syncedUpstream == r.server
  }

  /** The state shows the first answer of minimum delay of round k, the last round with a success. */
  ghost predicate ShowsRound(s: SyncState, rounds: seq<Round>, k: nat) {
    && k < |rounds|
    && AnySuccess(rounds[k].attempts)
    && (forall j :: k < j < |rounds| ==> !AnySuccess(rounds[j].attempts))
    && (exists i: nat :: FirstMinimum(rounds[k].attempts, i) && ShowsAnswer(s, rounds[k].attempts[i]))
    && s.lastSyncTime == rounds[k].now
  }

  lemma CommitShowsAnswer(s: SyncState, round: Round)
    requires AnySuccess(round.attempts)
    ensures var t := Commit(s, BestOf(round.attempts), round.now);
            exists i: nat :: FirstMinimum(round.attempts, i) && ShowsAnswer(t, round.attempts[i])
  {
    BestIsFirstMinimum(round.attempts);
    var i := BestPosition(round.attempts);
    assert ShowsAnswer(Commit(s, BestOf(round.attempts), round.now), round.attempts[i]);
  }

  lemma ShowsLonger(s: SyncState, rounds: seq<Round>, last: Round, k: nat)
    requires ShowsRound(s, rounds, k) && !AnySuccess(last.attempts)
    ensures ShowsRound(s, rounds + [last], k)
  {
    var longer := rounds + [last];
    assert longer[k] == rounds[k];
    forall j | k < j < |longer| ensures !AnySuccess(longer[j].attempts) {
      if j < |rounds| {
        assert longer[j] == rounds[j];
      }
    }
  }

  predicate AnyRound(rounds: seq<Round>) {
    exists k :: 0 <= k < |rounds| && AnySuccess(rounds[k].attempts)
  }

  lemma AnyRoundLonger(rounds: seq<Round>, last: Round)
    ensures AnyRound(rounds + [last]) <==> AnyRound(rounds) || AnySuccess(last.attempts)
  {
    var longer := rounds + [last];
    assert longer[|rounds|] == last && forall k :: 0 <= k < |rounds| ==> longer[k] == rounds[k];
  }

  /** The round whose answer is shown, found by following the run. */
  lemma {:induction false} ShownRound(s: SyncState, rounds: seq<Round>) returns (k: nat)
    ensures AnyRound(rounds) ==> ShowsRound(RunRounds(s, rounds), rounds, k)
    ensures !AnyRound(rounds) ==> RunRounds(s, rounds) == s
  {
    k := 0;
    if rounds != [] {
      var n := |rounds| - 1;
      var before, last := rounds[..n], rounds[n];
      assert rounds == before + [last];
      AnyRoundLonger(before, last);
      k := ShownRound(s, before);
      BestIsFirstMinimum(last.attempts);
      if AnySuccess(last.attempts) {
        CommitShowsAnswer(RunRounds(s, before), last);
        k := n;
      } else if AnyRound(before) {
        ShowsLonger(RunRounds(s, before), before, last, k);
      }
    }
  }

  /**
   Over every run: if every query of every round failed, nothing changed; otherwise all fields
   come from one answer, the first of minimum delay, of the last round with a success. So
   a clock once synchronised stays so.
   */
  lemma StateIsOneAnswer(s: SyncState, rounds: seq<Round>)
    ensures if AnyRound(rounds) then exists k: nat :: ShowsRound(RunRounds(s, rounds), rounds, k)
            else RunRounds(s, rounds) == s
    ensures s.synced ==> RunRounds(s, rounds).synced
  {
    var k := ShownRound(s, rounds);
  }

  /** The stratum served: the configured one until an upstream of known stratum is found, then one more than its, capped at 15. */
  lemma StratumInCases(s: SyncState, configured: byte)
    ensures !s.synced || s.upstreamStratum == 0 ==> s.EffectiveStratum(configured) == configured
    ensures s.synced && 1 <= s.upstreamStratum <= 14 ==> s.EffectiveStratum(configured) == s.upstreamStratum + 1
    ensures s.synced && s.upstreamStratum >= 15 ==> s.EffectiveStratum(configured) == 15
  {
  }

  // ---------------------------------------------------------------- quality of the committed clock

  /** Every accepted reply answers its own request in the exchange given for it. */
  ghost predicate HonestRound(servers: seq<string>, replies: seq<UpstreamReply>, xs: seq<Exchange>, loss: nat)
    requires |servers| == |replies| == |xs|
  {
    forall j :: 0 <= j < |servers| && QueryUpstreamServer(servers[j], replies[j]).success ==>
                  AnswersExchange(replies[j], xs[j], 0, loss)
  }

  /** Twice the error of an offset, in nanoseconds, stays within a bound. */
  predicate ErrorWithin(offsetUs: int, theta: int, bound: int) { -bound <= 2 * (offsetUs * 1000 - theta) <= bound }

  /**
   The committed offset is that of one answer, holds the bound of its own delay, and is off by
   no more than half the time any answer on offer spent on its paths, plus a constant.
   */
  ghost predicate BestCommitted(t: SyncState, attempts: seq<UpstreamSyncResult>, xs: seq<Exchange>, i: nat, loss: nat)
    requires |xs| == |attempts|
  {
    && FirstMinimum(attempts, i)
    && ShowsAnswer(t, attempts[i])
    && OffsetWithin(t.clockOffsetUs, t.lastDelayUs, xs[i].theta, Slack(loss))
    && forall j :: 0 <= j < |attempts| && attempts[j].success ==>
                     ErrorWithin(t.clockOffsetUs, xs[i].theta, xs[j].a + xs[j].b + 1000 + loss + 2 * Slack(loss))
  }

  /** Of the replies a round receives, the one committed is off by no more than the shortest path on offer allows. */
  lemma CommittedIsBestGuarantee(s: SyncState, servers: seq<string>, replies: seq<UpstreamReply>, now: int64,
                                 xs: seq<Exchange>, loss: nat)
    requires |servers| == |replies| == |xs|
    requires HonestRound(servers, replies, xs, loss) && AnySuccess(Attempts(servers, replies))
    ensures var attempts := Attempts(servers, replies);
            exists i: nat :: BestCommitted(Commit(s, BestOf(attempts), now), attempts, xs, i, loss)
  {
    hide QueryUpstreamServer, Exchanged, Decode;
    var attempts := Attempts(servers, replies);
    BestIsFirstMinimum(attempts);
    var i := BestPosition(attempts);
    AnswerWithin(servers[i], replies[i], xs[i], 0, loss);
    forall j | 0 <= j < |attempts| && attempts[j].success
      ensures ErrorWithin(attempts[i].offsetUs, xs[i].theta, xs[j].a + xs[j].b + 1000 + loss + 2 * Slack(loss))
    {
      AnswerWithin(servers[j], replies[j], xs[j], 0, loss);
    }
    assert BestCommitted(Commit(s, BestOf(attempts), now), attempts, xs, i, loss);
  }

  /**
   A late answer beats an honest one: both servers agree with the client's clock, the honest
   answer took a quarter second each way, and a reply to a request sent four seconds earlier
   arrives a quarter second after the new request. Its delay is lower, so its offset of almost
   four seconds is committed.
   */
  lemma LateAnswerChosen(host: string, s: SyncState, now: int64)
    ensures var t1 := StampAt(0);
            var honest := Reply(t1, Encode(AnswerWith(StampAt(250_000_000), StampAt(250_000_000))), StampAt(500_000_000));
            var late := Reply(t1, Encode(AnswerWith(StampAt(-3_750_000_000), StampAt(-3_750_000_000))), StampAt(250_000_000));
            var y := Exchange(0, 250_000_000, 0, 250_000_000, 4_000_000_000, 0);
            var t := Commit(s, BestOf(Attempts([host, host], [honest, late])), now);
            && AnswersExchange(honest, Exchange(0, 500_000_000, 0, 250_000_000, 250_000_000, 0), 0, 1000)
            && AnswersExchange(late, y, 4_000_000_000, 1000)
            && t.clockOffsetUs == -3_875_000 && !OffsetWithin(t.clockOffsetUs, t.lastDelayUs, y.theta, Slack(1000))
  {
    hide Encode, Decode, StampAt, ToSystemTime, QueryUpstreamServer;
    StampAtDecodes(0);
    StampAtDecodes(250_000_000);
    StampAtDecodes(500_000_000);
    StampAtDecodes(-3_750_000_000);
    var p, q := AnswerWith(StampAt(250_000_000), StampAt(250_000_000)), AnswerWith(StampAt(-3_750_000_000), StampAt(-3_750_000_000));
    DecodeEncode(p);
    DecodeEncode(q);
    AcceptsServerPacket(host, StampAt(0), p, StampAt(500_000_000));
    AcceptsServerPacket(host, StampAt(0), q, StampAt(250_000_000));
    var attempts := Attempts([host, host], [Reply(StampAt(0), Encode(p), StampAt(500_000_000)),
                                            Reply(StampAt(0), Encode(q), StampAt(250_000_000))]);
    assert attempts[..2] == attempts && attempts[..1] == [attempts[0]] && attempts[..0] == [];
    assert BestOf(attempts[..1]) == attempts[0];
  }
}
