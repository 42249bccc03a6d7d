/**
 The on-wire offset and delay formulas (RFC 5905, section 8) and the correction a
 synchronised server applies to the times it serves.
 */
module OnWire {
  import opened NtpTime

  /** What a decoded timestamp can be: whole microseconds inside one era. */
  predicate SystemStamp(t: int) {
    -2_208_988_800_000_000_000 <= t < 2_085_978_496_000_000_000 && t % 1000 == 0
  }

  lemma WholeMicros(time1: int, time2: int, time3: int, time4: int)
    requires time1 % 1000 == 0 && time2 % 1000 == 0 && time3 % 1000 == 0 && time4 % 1000 == 0
    ensures var delay := (time4 - time1) - (time3 - time2); TruncDiv(delay, 1000) * 1000 == delay
  {
    var m := (time4 / 1000 - time1 / 1000) - (time3 / 1000 - time2 / 1000);
    assert (time4 - time1) - (time3 - time2) == m * 1000;
    ExactQuotient(m);
  }

  lemma ExactQuotient(m: int)
    ensures TruncDiv(m * 1000, 1000) == m
  {
  }

  /** A clock offset in microseconds that the formula below can produce. */
  type OffsetUs = us: int | -4_294_967_296_000_000 <= us <= 4_294_967_296_000_000

  /** ((t2 - t1) + (t3 - t4)) / 2 in microseconds; no step leaves the signed 64-bit range. */
  function OffsetOf(time1: int, time2: int, time3: int, time4: int): OffsetUs
    requires SystemStamp(time1) && SystemStamp(time2) && SystemStamp(time3) && SystemStamp(time4)
  {
    var there: int64 := time2 - time1;
    var back: int64 := time3 - time4;
    var sum: int64 := there + back;
    TruncDiv(TruncDiv(sum, 2), 1000)
  }

  /** (t4 - t1) - (t3 - t2) in microseconds; no step leaves the signed 64-bit range. */
  function DelayOf(time1: int, time2: int, time3: int, time4: int): (us: int64)
    requires SystemStamp(time1) && SystemStamp(time2) && SystemStamp(time3) && SystemStamp(time4)
    ensures us * 1000 == (time4 - time1) - (time3 - time2)
  {
    var total: int64 := time4 - time1;
    var held: int64 := time3 - time2;
    var delay: int64 := total - held;
    WholeMicros(time1, time2, time3, time4);
    TruncDiv(delay, 1000)
  }

  function CalculateOffset(t1: NtpTimestamp, t2: NtpTimestamp, t3: NtpTimestamp, t4: NtpTimestamp): OffsetUs {
    ToSystemTimeRange(t1);
    ToSystemTimeRange(t2);
    ToSystemTimeRange(t3);
    ToSystemTimeRange(t4);
    OffsetOf(ToSystemTime(t1), ToSystemTime(t2), ToSystemTime(t3), ToSystemTime(t4))
  }

  function CalculateRoundTripDelay(t1: NtpTimestamp, t2: NtpTimestamp, t3: NtpTimestamp, t4: NtpTimestamp): (us: int64)
    ensures us * 1000 == (ToSystemTime(t4) - ToSystemTime(t1)) - (ToSystemTime(t3) - ToSystemTime(t2))
  {
    ToSystemTimeRange(t1);
    ToSystemTimeRange(t2);
    ToSystemTimeRange(t3);
    ToSystemTimeRange(t4);
    DelayOf(ToSystemTime(t1), ToSystemTime(t2), ToSystemTime(t3), ToSystemTime(t4))
  }

  function Max(a: int, b: int): int { if a >= b then a else b }

  /**
   One exchange as it happened. The client stamps its own clock at `sent` and `received`; the
   server's clock is `theta` ahead of it, the request travels for `a` and the answer for `b`
   nanoseconds. All stamps are of the era that starts `shift` nanoseconds after 1900.
   */
  datatype Exchange = Exchange(sent: int, received: int, theta: int, a: int, b: int, shift: int)

  /**
   The stamps that such an exchange leaves: encoding takes up to a microsecond off a client
   stamp and up to `loss` off a server stamp.
   */
  ghost predicate Exchanged(t1: NtpTimestamp, t2: NtpTimestamp, t3: NtpTimestamp, t4: NtpTimestamp, x: Exchange, loss: nat) {
    && 0 <= x.sent - x.shift - ToSystemTime(t1) <= 1000
    && 0 <= x.sent + x.a + x.theta - x.shift - ToSystemTime(t2) <= loss
    && 0 <= x.received - x.b + x.theta - x.shift - ToSystemTime(t3) <= loss
    && 0 <= x.received - x.shift - ToSystemTime(t4) <= 1000
  }

  /** What an exchange guarantees: the offset is off by at most half the delay plus a constant. */
  ghost predicate OffsetWithin(offsetUs: int, delayUs: int, theta: int, slack: nat) {
    -(delayUs * 1000 + 2 * slack) <= 2 * (offsetUs * 1000 - theta) <= delayUs * 1000 + 2 * slack
  }

  /** The constant that covers every rounding on the way. */
  function Slack(loss: nat): nat { 500 + Max(1000, loss) }

  lemma ExchangeBound(t1: NtpTimestamp, t2: NtpTimestamp, t3: NtpTimestamp, t4: NtpTimestamp, x: Exchange, loss: nat, slack: nat)
    requires Exchanged(t1, t2, t3, t4, x, loss)
    requires x.a + slack >= 500 + loss && x.b + slack >= 1500
    ensures OffsetWithin(CalculateOffset(t1, t2, t3, t4), CalculateRoundTripDelay(t1, t2, t3, t4), x.theta, slack)
  {
    OffsetRounding(t1, t2, t3, t4);
  }

  /** The reported delay is the time spent on both paths, up to the stamps' rounding. */
  lemma DelayIsPaths(t1: NtpTimestamp, t2: NtpTimestamp, t3: NtpTimestamp, t4: NtpTimestamp, x: Exchange, loss: nat)
    requires Exchanged(t1, t2, t3, t4, x, loss)
    ensures -(1000 + loss) <= CalculateRoundTripDelay(t1, t2, t3, t4) * 1000 - (x.a + x.b) <= 1000 + loss
  {
  }

  /** The bound holds of every exchange over paths of this length. */
  ghost predicate AlwaysWithin(a: int, b: int, loss: nat, slack: nat) {
    forall t1: NtpTimestamp, t2: NtpTimestamp, t3: NtpTimestamp, t4: NtpTimestamp, x: Exchange ::
      x.a == a && x.b == b && Exchanged(t1, t2, t3, t4, x, loss) ==>
        OffsetWithin(CalculateOffset(t1, t2, t3, t4), CalculateRoundTripDelay(t1, t2, t3, t4), x.theta, slack)
  }

  /** The timestamp that decodes to a given time. */
  function StampAt(t: int): NtpTimestamp
    requires SystemStamp(t)
  {
    var micros := t / 1000 + NTP_EPOCH_OFFSET * 1_000_000;
    NtpTimestamp(micros / 1_000_000, (micros % 1_000_000 * 0x1_0000_0000 + 999_999) / 1_000_000)
  }

  lemma StampAtDecodes(t: int)
    requires SystemStamp(t)
    ensures ToSystemTime(StampAt(t)) == t
  {
    var ts := StampAt(t);
    var micros := t / 1000 + NTP_EPOCH_OFFSET * 1_000_000;
    ToSystemTimeIsSigned(ts);
    DivUnique(ts.fraction * 1_000_000, 0x1_0000_0000, micros % 1_000_000);
  }

  /** Paths short enough for all four stamps to lie in one era. */
  predicate WithinEra(a: int, b: int, loss: nat) {
    -4_000_000_000_000_000_000 <= a + b - loss && a + b <= 4_000_000_000_000_000_000
  }

  /** A half sum of half a microsecond is truncated to nothing. */
  lemma HalfMicroVanishes(t1: NtpTimestamp, t2: NtpTimestamp, t3: NtpTimestamp, t4: NtpTimestamp)
    requires var sum := (ToSystemTime(t2) - ToSystemTime(t1)) + (ToSystemTime(t3) - ToSystemTime(t4)); sum == 1000 || sum == -1000
    ensures CalculateOffset(t1, t2, t3, t4) == 0
  {
    hide ToSystemTime;
  }

  /** Roundings that all make the server look slow: the outward path must cover what they take. */
  lemma OutwardTight(a: int, b: int, loss: nat, slack: nat)
    requires WithinEra(a, b, loss) && loss >= 1000 && AlwaysWithin(a, b, loss, slack)
    ensures a + slack >= 500 + loss
  {
    var c := a + b - loss;
    var q := (c + 1999) / 2000;
    var u, w := 1000 * q, c + 1000 - 2000 * q;
    GridStamps(q);
    var e3, e4 := if w < 0 then -w else 0, if w > 0 then w else 0;
    var x := Exchange(0, e4, u + loss - a, a, b, 0);
    var t1, t2, t3 := StampAt(0), StampAt(u), StampAt(1000 - u);
    hide CalculateOffset, ToSystemTime, StampAt;
    assert Exchanged(t1, t2, t3, t1, x, loss);
    HalfMicroVanishes(t1, t2, t3, t1);
  }

  /** Roundings that all make the server look fast: the return path must cover what they take. */
  lemma ReturnTight(a: int, b: int, loss: nat, slack: nat)
    requires WithinEra(a, b, loss) && loss >= 1000 && AlwaysWithin(a, b, loss, slack)
    ensures b + slack >= 1500
  {
    var q := (a + b + 999) / 2000;
    var v, w := -1000 * q, 2000 * q - a - b;
    GridStamps(-q);
    var e1, e2 := if w > 0 then w else 0, if w < 0 then -w else 0;
    var x := Exchange(e1, 1000, v + b - 1000, a, b, 0);
    var t1, t2, t3 := StampAt(0), StampAt(-1000 - v), StampAt(v);
    hide CalculateOffset, ToSystemTime, StampAt;
    assert Exchanged(t1, t2, t3, t1, x, loss);
    HalfMicroVanishes(t1, t2, t3, t1);
  }

  lemma GridStamps(q: int)
    requires -2_000_000_000_000_001 <= q <= 2_000_000_000_000_001
    ensures SystemStamp(0) && SystemStamp(1000 * q) && SystemStamp(1000 - 1000 * q) && SystemStamp(-1000 - 1000 * q)
    ensures ToSystemTime(StampAt(0)) == 0 && ToSystemTime(StampAt(1000 * q)) == 1000 * q
    ensures ToSystemTime(StampAt(1000 - 1000 * q)) == 1000 - 1000 * q
    ensures ToSystemTime(StampAt(-1000 - 1000 * q)) == -1000 - 1000 * q
  {
    hide StampAt, ToSystemTime;
    StampAtDecodes(0);
    StampAtDecodes(1000 * q);
    StampAtDecodes(1000 - 1000 * q);
    StampAtDecodes(-1000 - 1000 * q);
  }

  /**
   The bound holds of every exchange exactly if each path, with the slack, covers what the
   roundings against it can add up to. So the constant in `Slack` is the least for paths of
   no length, and a path that seems shorter than it was breaks the bound.
   */
  lemma ExchangeBoundIff(a: int, b: int, loss: nat, slack: nat)
    requires WithinEra(a, b, loss) && loss >= 1000
    ensures AlwaysWithin(a, b, loss, slack) <==> a + slack >= 500 + loss && b + slack >= 1500
  {
    if AlwaysWithin(a, b, loss, slack) {
      OutwardTight(a, b, loss, slack);
      ReturnTight(a, b, loss, slack);
    }
    if a + slack >= 500 + loss && b + slack >= 1500 {
      forall t1: NtpTimestamp, t2: NtpTimestamp, t3: NtpTimestamp, t4: NtpTimestamp, x: Exchange
        | x.a == a && x.b == b && Exchanged(t1, t2, t3, t4, x, loss)
        ensures OffsetWithin(CalculateOffset(t1, t2, t3, t4), CalculateRoundTripDelay(t1, t2, t3, t4), x.theta, slack)
      {
        ExchangeBound(t1, t2, t3, t4, x, loss, slack);
      }
    }
  }

  /** Both truncations together take at most half a microsecond off the exact half sum. */
  lemma OffsetRounding(t1: NtpTimestamp, t2: NtpTimestamp, t3: NtpTimestamp, t4: NtpTimestamp)
    ensures var sum := (ToSystemTime(t2) - ToSystemTime(t1)) + (ToSystemTime(t3) - ToSystemTime(t4));
            -1000 <= 2000 * CalculateOffset(t1, t2, t3, t4) - sum <= 1000
  {
    ToSystemTimeRange(t1);
    ToSystemTimeRange(t2);
    ToSystemTimeRange(t3);
    ToSystemTimeRange(t4);
    HalfSumRounding(ToSystemTime(t1), ToSystemTime(t2), ToSystemTime(t3), ToSystemTime(t4));
  }

  lemma HalfSumRounding(time1: int, time2: int, time3: int, time4: int)
    requires SystemStamp(time1) && SystemStamp(time2) && SystemStamp(time3) && SystemStamp(time4)
    ensures -1000 <= 2000 * OffsetOf(time1, time2, time3, time4) - ((time2 - time1) + (time3 - time4)) <= 1000
  {
    HalfMicros((time2 / 1000 - time1 / 1000) + (time3 / 1000 - time4 / 1000));
  }

  lemma HalfMicros(m: int)
    ensures -1000 <= 2000 * TruncDiv(TruncDiv(1000 * m, 2), 1000) - 1000 * m <= 1000
  {
    var n := if m >= 0 then m else -m;
    DivUnique(1000 * n, 2, 500 * n);
    DivUnique(500 * n, 1000, n / 2);
  }

  /**
   Four system times, each sent through one encoding: offset and delay are the textbook
   values up to 1.5 and 2 microseconds exactly when the era numbers cancel, in particular
   when all four times lie in one era.
   */
  lemma EncodedExchange(x1: int64, x2: int64, x3: int64, x4: int64)
    requires Convertible(x1) && Convertible(x2) && Convertible(x3) && Convertible(x4)
    ensures var offset := CalculateOffset(FromSystemTime(x1), FromSystemTime(x2), FromSystemTime(x3), FromSystemTime(x4));
            var sum := (x2 - x1) + (x3 - x4);
            -3000 <= 2000 * offset - sum <= 3000 <==> Era(x1) + Era(x4) == Era(x2) + Era(x3)
    ensures var delay := CalculateRoundTripDelay(FromSystemTime(x1), FromSystemTime(x2), FromSystemTime(x3), FromSystemTime(x4));
            -2000 <= 1000 * delay - ((x4 - x1) - (x3 - x2)) <= 2000 <==> Era(x1) + Era(x3) == Era(x2) + Era(x4)
  {
    RoundTrip(x1);
    RoundTrip(x2);
    RoundTrip(x3);
    RoundTrip(x4);
    OffsetRounding(FromSystemTime(x1), FromSystemTime(x2), FromSystemTime(x3), FromSystemTime(x4));
  }

  // ---------------------------------------------------------------- served time

  /** The instant, in system time, that a corrected timestamp is meant to show. */
  function ShiftedTime(ts: NtpTimestamp, offsetUs: OffsetUs): (t: int64)
    ensures t % 1000 == 0
  {
    ToSystemTimeRange(ts);
    PlusThousands(ToSystemTime(ts), offsetUs);
    ToSystemTime(ts) + offsetUs * 1000
  }

  lemma PlusThousands(t: int, n: int)
    requires t % 1000 == 0
    ensures (t + n * 1000) % 1000 == 0
  {
    DivUnique(t + n * 1000, 1000, t / 1000 + n);
  }

  function CorrectTimestamp(ts: NtpTimestamp, offsetUs: OffsetUs): NtpTimestamp
  {
    if offsetUs != 0 then FromSystemTime(ShiftedTime(ts, offsetUs)) else ts
  }

  /** The corrected timestamp in millionths of 2^-32 second, if nothing were rounded. */
  function ExactShift(ts: NtpTimestamp, offsetUs: OffsetUs): int {
    ts.Units() * 1_000_000 + offsetUs * 0x1_0000_0000
  }

  lemma ShiftedUnits(ts: NtpTimestamp, offsetUs: OffsetUs)
    ensures 0 <= ExactShift(ts, offsetUs) - ExactUnits(ShiftedTime(ts, offsetUs)) * 1_000_000 < 0x1_0000_0000 + 1_000_000
  {
    ToSystemTimeIsSigned(ts);
    var w := ts.fraction * 1_000_000 / 0x1_0000_0000;
    var micros := ts.seconds * 1_000_000 + w + offsetUs;
    assert ShiftedTime(ts, offsetUs) + NTP_EPOCH_OFFSET * 1_000_000_000 == micros * 1000;
    var q := micros * 0x1_0000_0000 / 1_000_000;
    DivUnique(micros * 1000 * 0x1_0000_0000, 1_000_000_000, q);
  }

  /** Inside era 0: the correction is never ahead and less than 1 us + 2^-32 s behind. */
  lemma ServedCorrection(ts: NtpTimestamp, offsetUs: OffsetUs)
    requires offsetUs != 0 && ReadableIn(ShiftedTime(ts, offsetUs), 0)
    ensures 0 <= ExactShift(ts, offsetUs) - CorrectTimestamp(ts, offsetUs).Units() * 1_000_000 < 0x1_0000_0000 + 1_000_000
  {
    ShiftedUnits(ts, offsetUs);
    EncodedInEra(ShiftedTime(ts, offsetUs));
  }

  /**
   Over all timestamps and offsets: the corrected timestamp is the shifted instant, rounded
   down, of some era exactly when the shifted instant is convertible. From 2036 on a received
   timestamp decodes before 1970, so a served time with a fraction of a second is then wrong.
   */
  lemma ServedCorrectionIff(ts: NtpTimestamp, offsetUs: OffsetUs)
    requires offsetUs != 0
    ensures CorrectTimestamp(ts, offsetUs).Units() == ExactUnits(ShiftedTime(ts, offsetUs)) % 0x1_0000_0000_0000_0000
            <==> Convertible(ShiftedTime(ts, offsetUs))
  {
    FromSystemTimeIsFloor(ShiftedTime(ts, offsetUs));
  }

  /** Half a second into the era of 2036, corrected by one microsecond: more than a quarter second ahead. */
  lemma ServedCorrectionFailsAfter2036()
    ensures var ts := NtpTimestamp(0, 0x8000_0000);
            CorrectTimestamp(ts, 1).Units() * 1_000_000 - ExactShift(ts, 1) > 1_000_000 * 0x4000_0000
  {
    var ts := NtpTimestamp(0, 0x8000_0000);
    HalfSecondOf2036(ts);
    NextSecondOf2036();
    assert CorrectTimestamp(ts, 1).seconds == 1;
  }

  lemma NextSecondOf2036()
    ensures FromSystemTime(-2_208_988_799_499_999_000).seconds == 1
  {
    EncodedFields(-2_208_988_799_499_999_000);
  }

  lemma HalfSecondOf2036(ts: NtpTimestamp)
    requires ts == NtpTimestamp(0, 0x8000_0000)
    ensures ShiftedTime(ts, 1) == -2_208_988_799_499_999_000
  {
    ToSystemTimeIsSigned(ts);
  }

  lemma ToSystemTimeMonotone(ts: NtpTimestamp, ts': NtpTimestamp)
    requires ts.Units() <= ts'.Units()
    ensures ToSystemTime(ts) <= ToSystemTime(ts')
  {
    ToSystemTimeIsSigned(ts);
    ToSystemTimeIsSigned(ts');
    MicrosMonotone(ts.seconds, ts.fraction, ts'.seconds, ts'.fraction);
  }

  lemma MicrosMonotone(s: int, f: uint32, s': int, f': uint32)
    requires s * 0x1_0000_0000 + f <= s' * 0x1_0000_0000 + f'
    ensures s * 1_000_000 + f * 1_000_000 / 0x1_0000_0000 <= s' * 1_000_000 + f' * 1_000_000 / 0x1_0000_0000
  {
    if s < s' {
      assert f * 1_000_000 / 0x1_0000_0000 < 1_000_000;
    } else {
      assert f <= f';
    }
  }

  lemma ExactUnitsMonotone(t: int, t': int)
    requires t <= t' && Era(t) == 0 && Era(t') == 0
    ensures 0 <= ExactUnits(t) <= ExactUnits(t') < 0x1_0000_0000_0000_0000
  {
  }

  /** Encoding keeps the order of times within one era. */
  lemma EncodingMonotone(t: int64, t': int64, era: int)
    requires t <= t' && ReadableIn(t, era) && ReadableIn(t', era)
    ensures FromSystemTime(t).Units() <= FromSystemTime(t').Units()
  {
    EncodedFields(t);
    EncodedFields(t');
    var s, s' := t / 1_000_000_000, t' / 1_000_000_000;
    assert s == s' ==> t % 1_000_000_000 <= t' % 1_000_000_000;
    FieldsMonotone(s + NTP_EPOCH_OFFSET, t % 1_000_000_000, s' + NTP_EPOCH_OFFSET, t' % 1_000_000_000);
  }

  lemma FieldsMonotone(s: int, f: int, s': int, f': int)
    requires s < s' || (s == s' && f <= f')
    requires 0 <= f < 1_000_000_000 && 0 <= f' < 1_000_000_000
    requires s / 0x1_0000_0000 == s' / 0x1_0000_0000
    ensures s % 0x1_0000_0000 * 0x1_0000_0000 + f * 0x1_0000_0000 / 1_000_000_000
            <= s' % 0x1_0000_0000 * 0x1_0000_0000 + f' * 0x1_0000_0000 / 1_000_000_000
  {
    var n, n' := f * 0x1_0000_0000 / 1_000_000_000, f' * 0x1_0000_0000 / 1_000_000_000;
    assert 0 <= n < 0x1_0000_0000 && 0 <= n';
    assert s' % 0x1_0000_0000 - s % 0x1_0000_0000 == s' - s;
  }

  /** Correction keeps the order of the stamps, so receive <= transmit survives it. */
  lemma CorrectionMonotone(ts: NtpTimestamp, ts': NtpTimestamp, offsetUs: OffsetUs, era: int)
    requires ts.Units() <= ts'.Units()
    requires ReadableIn(ShiftedTime(ts, offsetUs), era) && ReadableIn(ShiftedTime(ts', offsetUs), era)
    ensures CorrectTimestamp(ts, offsetUs).Units() <= CorrectTimestamp(ts', offsetUs).Units()
  {
    ToSystemTimeMonotone(ts, ts');
    if offsetUs != 0 {
      EncodingMonotone(ShiftedTime(ts, offsetUs), ShiftedTime(ts', offsetUs), era);
    }
  }

  lemma EncodedInEra(t: int64)
    requires ReadableIn(t, 0)
    ensures FromSystemTime(t).Units() == ExactUnits(t)
  {
    ExactUnitsMonotone(t, t);
    SmallRemainder(ExactUnits(t), 0x1_0000_0000_0000_0000);
    FromSystemTimeIsFloor(t);
  }

  /**
   A clock reading that can be served with a correction: encoding handles it and, if there is a
   correction, the corrected time as well, which is computed in the era from 1900 to 2036.
   */
  predicate Servable(clock: int, offsetUs: OffsetUs, era: int) {
    && ReadableIn(clock, era)
    && (offsetUs != 0 ==> ReadableIn(clock - era * ERA_NANOS - Loss(clock) + offsetUs * 1000, 0))
  }

  /** What encoding and correcting may take off a served stamp, in nanoseconds. */
  function StampLoss(offsetUs: OffsetUs): nat { if offsetUs == 0 then 1000 else 2000 }

  /** A served stamp, decoded by its reader, is at most 2 microseconds behind clock + offset. */
  lemma ServedStamp(clock: int64, offsetUs: OffsetUs, era: int)
    requires Servable(clock, offsetUs, era)
    ensures 0 <= clock + offsetUs * 1000 - era * ERA_NANOS
                 - ToSystemTime(CorrectTimestamp(FromSystemTime(clock), offsetUs)) <= StampLoss(offsetUs)
  {
    RoundTrip(clock);
    if offsetUs != 0 {
      RoundTrip(ShiftedTime(FromSystemTime(clock), offsetUs));
    }
  }
}
