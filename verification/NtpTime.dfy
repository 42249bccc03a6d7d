/**
 Conversion between system time and 32.32 fixed point NTP timestamps, in the machine
 arithmetic the daemon uses (RFC 5905, section 6).

 System time is a signed 64-bit count of nanoseconds since 1970. Every place where the
 program relies on wrap-around of an unsigned type is written out with `U32` or `U64`.
 */
module NtpTime {

  const NTP_EPOCH_OFFSET := 2_208_988_800

  type uint32 = n: int | 0 <= n < 0x1_0000_0000
  type uint64 = n: int | 0 <= n < 0x1_0000_0000_0000_0000
  type int64 = n: int | -0x8000_0000_0000_0000 <= n < 0x8000_0000_0000_0000

  /** Conversion to an unsigned 32-bit or 64-bit integer keeps the low bits. */
  function U32(n: int): uint32 { n % 0x1_0000_0000 }

  function U64(n: int): uint64 { n % 0x1_0000_0000_0000_0000 }

  /** An unsigned 64-bit value read as two's complement. */
  function S64(n: uint64): int64 {
    if n < 0x8000_0000_0000_0000 then n else n - 0x1_0000_0000_0000_0000
  }

  /** C++ integer division and duration_cast round toward zero. */
  function TruncDiv(a: int, b: int): int
    requires b > 0
  {
    if a >= 0 then a / b else -((-a) / b)
  }

  datatype NtpTimestamp = NtpTimestamp(seconds: uint32, fraction: uint32)
  {
    /** The timestamp in units of 2^-32 seconds since the start of its era. */
    function Units(): uint64 { seconds * 0x1_0000_0000 + fraction }
  }

  function FromSystemTime(time: int64): NtpTimestamp {
    var seconds := TruncDiv(time, 1_000_000_000);
    var fraction := time - seconds * 1_000_000_000;
    NtpTimestamp(U32(U64(U64(seconds) + NTP_EPOCH_OFFSET)),
                 U32(U64(U64(fraction) * 0x1_0000_0000) / 1_000_000_000))
  }

  function ToSystemTime(ts: NtpTimestamp): int {
    var wholeMicros := U64(U64(ts.seconds - NTP_EPOCH_OFFSET) * 1_000_000);
    var fractionMicros := U64(ts.fraction * 1_000_000) / 0x1_0000_0000;
    S64(U64(wholeMicros + fractionMicros)) * 1000
  }

  /** Quotient and remainder are determined by the interval the dividend lies in. */
  lemma DivUnique(a: int, b: int, q: int)
    requires b > 0 && q * b <= a < q * b + b
    ensures a / b == q && a % b == a - q * b
  {
    var d := a / b;
    assert d * b <= a < d * b + b;
    if d != q {
      StrictMultiple(b, if d < q then q - d else d - q);
      assert false;
    }
  }

  lemma StrictMultiple(b: int, n: int)
    requires b > 0 && n > 0
    ensures n * b >= b
  {
  }

  lemma SmallRemainder(n: int, m: int)
    requires 0 <= n < m
    ensures n % m == n
  {
    DivUnique(n, m, 0);
  }

  /** The wrapping computation equals the signed one, also before 1970. */
  lemma ToSystemTimeIsSigned(ts: NtpTimestamp)
    ensures ToSystemTime(ts) ==
            ((ts.seconds - NTP_EPOCH_OFFSET) * 1_000_000 + ts.fraction * 1_000_000 / 0x1_0000_0000) * 1000
  {
    var d := ts.seconds - NTP_EPOCH_OFFSET;
    var k := if d < 0 then -1 else 0;
    DivUnique(d, 0x1_0000_0000_0000_0000, k);
    DivUnique(U64(d) * 1_000_000, 0x1_0000_0000_0000_0000, if d < 0 then 999_999 else 0);
    DivUnique(ts.fraction * 1_000_000, 0x1_0000_0000_0000_0000, 0);
    var f := ts.fraction * 1_000_000 / 0x1_0000_0000;
    assert 0 <= f < 1_000_000;
    DivUnique(d * 1_000_000 - k * 0x1_0000_0000_0000_0000 + f, 0x1_0000_0000_0000_0000, 0);
  }

  /** Every timestamp decodes to whole microseconds inside the 136 years of one era. */
  lemma ToSystemTimeRange(ts: NtpTimestamp)
    ensures -2_208_988_800_000_000_000 <= ToSystemTime(ts) < 2_085_978_496_000_000_000
    ensures ToSystemTime(ts) % 1000 == 0
  {
    hide ToSystemTime;
    ToSystemTimeIsSigned(ts);
    var f := ts.fraction * 1_000_000 / 0x1_0000_0000;
    DivUnique(ToSystemTime(ts), 1000, (ts.seconds - NTP_EPOCH_OFFSET) * 1_000_000 + f);
  }

  // ---------------------------------------------------------------- encoding a system time

  /** A system time that the encoding handles: 1970 or later, or a whole second. */
  predicate Convertible(time: int) {
    time >= 0 || time % 1_000_000_000 == 0
  }

  /** The instant in units of 2^-32 seconds since 1900, rounded down; not reduced to an era. */
  function ExactUnits(time: int): int {
    (time + NTP_EPOCH_OFFSET * 1_000_000_000) * 0x1_0000_0000 / 1_000_000_000
  }

  /** The Unix epoch is 70 years, 17 of them leap years, after the NTP epoch. */
  lemma UnixEpochEncoded()
    ensures FromSystemTime(0) == NtpTimestamp((70 * 365 + 17) * 86_400, 0)
  {
    EncodedFields(0);
  }

  lemma SecondsField(s: int)
    ensures U32(U64(U64(s) + NTP_EPOCH_OFFSET)) == (s + NTP_EPOCH_OFFSET) % 0x1_0000_0000
  {
    var k := s / 0x1_0000_0000_0000_0000;
    var l := (U64(s) + NTP_EPOCH_OFFSET) / 0x1_0000_0000_0000_0000;
    var w := U64(U64(s) + NTP_EPOCH_OFFSET);
    assert s + NTP_EPOCH_OFFSET == w + (k + l) * 0x1_0000_0000_0000_0000;
    var m := w / 0x1_0000_0000;
    DivUnique(s + NTP_EPOCH_OFFSET, 0x1_0000_0000, m + (k + l) * 0x1_0000_0000);
  }

  lemma FractionField(f: int)
    requires 0 <= f < 1_000_000_000
    ensures U32(U64(U64(f) * 0x1_0000_0000) / 1_000_000_000) == f * 0x1_0000_0000 / 1_000_000_000
  {
    DivUnique(f, 0x1_0000_0000_0000_0000, 0);
    DivUnique(f * 0x1_0000_0000, 0x1_0000_0000_0000_0000, 0);
    var n := f * 0x1_0000_0000 / 1_000_000_000;
    assert 0 <= n < 0x1_0000_0000;
    DivUnique(n, 0x1_0000_0000, 0);
  }

  /** Both fields of an encoded time, by whether the truncation toward zero was a floor. */
  lemma EncodedFields(time: int64)
    ensures Convertible(time) ==>
              FromSystemTime(time) ==
              NtpTimestamp((time / 1_000_000_000 + NTP_EPOCH_OFFSET) % 0x1_0000_0000,
                           time % 1_000_000_000 * 0x1_0000_0000 / 1_000_000_000)
    ensures !Convertible(time) ==>
              FromSystemTime(time).seconds == (time / 1_000_000_000 + 1 + NTP_EPOCH_OFFSET) % 0x1_0000_0000
  {
    var seconds := TruncDiv(time, 1_000_000_000);
    SecondsField(seconds);
    if Convertible(time) {
      assert seconds == time / 1_000_000_000;
      FractionField(time % 1_000_000_000);
    } else {
      assert seconds == time / 1_000_000_000 + 1;
    }
  }

  /** Encoding is rounding down to the NTP grid within the era exactly on the convertible times. */
  lemma FromSystemTimeIsFloor(time: int64)
    ensures FromSystemTime(time).Units() == ExactUnits(time) % 0x1_0000_0000_0000_0000 <==> Convertible(time)
  {
    EncodedFields(time);
    var ts := FromSystemTime(time);
    var s, f := time / 1_000_000_000 + NTP_EPOCH_OFFSET, time % 1_000_000_000;
    var n := f * 0x1_0000_0000 / 1_000_000_000;
    DivUnique((s * 1_000_000_000 + f) * 0x1_0000_0000, 1_000_000_000, s * 0x1_0000_0000 + n);
    assert ExactUnits(time) == s * 0x1_0000_0000 + n;
    var era, low := s / 0x1_0000_0000, s % 0x1_0000_0000;
    DivUnique(s * 0x1_0000_0000 + n, 0x1_0000_0000_0000_0000, era);
    assert ExactUnits(time) % 0x1_0000_0000_0000_0000 == low * 0x1_0000_0000 + n;
    if !Convertible(time) {
      NextSecondDiffers(s);
    }
  }

  lemma NextSecondDiffers(s: int)
    ensures (s + 1) % 0x1_0000_0000 != s % 0x1_0000_0000
  {
  }

  // ---------------------------------------------------------------- round trip

  /** Number of the NTP era (of 2^32 seconds, era 0 starting in 1900) that contains a system time. */
  function Era(time: int): int {
    (time / 1_000_000_000 + NTP_EPOCH_OFFSET) / 0x1_0000_0000
  }

  /** Nanoseconds in one era. */
  const ERA_NANOS := 4_294_967_296_000_000_000

  /** A time that encoding handles, in the given era. */
  predicate ReadableIn(time: int, era: int) { Convertible(time) && Era(time) == era }

  /** What one round trip through a timestamp takes off a system time, in nanoseconds. */
  function Loss(time: int): (e: nat)
    ensures e <= 1000
  {
    if time % 1000 != 0 then time % 1000
    else if time % 15_625_000 == 0 then 0
    else 1000
  }

  /** A multiple of 1/2^32 of a second that is also a whole microsecond is a multiple of 1/64 second. */
  lemma ExactFraction(f: int, n: int)
    requires f % 1000 == 0 && f * 0x1_0000_0000 == n * 1_000_000_000
    ensures f % 15_625_000 == 0
  {
    var g := f / 1000;
    assert g * 67_108_864 == n * 15_625;
    // Bezout: 12659 * 67108864 - 54369991 * 15625 == 1
    var q := 12_659 * n - 54_369_991 * g;
    assert g == q * 15_625;
    DivUnique(f, 15_625_000, q);
  }

  lemma MicrosOfFraction(f: int)
    requires 0 <= f < 1_000_000_000
    ensures f * 0x1_0000_0000 / 1_000_000_000 * 1_000_000 / 0x1_0000_0000 * 1000 == f - Loss(f)
  {
    var n := f * 0x1_0000_0000 / 1_000_000_000;
    var r := f * 0x1_0000_0000 - n * 1_000_000_000;
    assert 0 <= r < 1_000_000_000;
    var m, rest := f / 1000, f % 1000;
    assert n * 1_000_000 * 1000 == f * 0x1_0000_0000 - r;
    if rest != 0 {
      DivUnique(n * 1_000_000, 0x1_0000_0000, m);
    } else if r == 0 {
      DivUnique(n * 1_000_000, 0x1_0000_0000, m);
      ExactFraction(f, n);
    } else {
      DivUnique(n * 1_000_000, 0x1_0000_0000, m - 1);
      if f % 15_625_000 == 0 {
        var j := f / 15_625_000;
        DivUnique(f * 0x1_0000_0000, 1_000_000_000, j * 67_108_864);
        assert false;
      }
    }
  }

  lemma LossOfFraction(time: int)
    ensures Loss(time) == Loss(time % 1_000_000_000)
  {
    var s, f := time / 1_000_000_000, time % 1_000_000_000;
    assert time == s * 64 * 15_625_000 + f;
    DivUnique(time, 1000, s * 1_000_000 + f / 1000);
    DivUnique(time, 15_625_000, s * 64 + f / 15_625_000);
  }

  /** The exact value of a round trip, for every convertible time of every era. */
  lemma RoundTrip(time: int64)
    requires Convertible(time)
    ensures ToSystemTime(FromSystemTime(time)) ==
            time - Era(time) * ERA_NANOS - Loss(time)
  {
    EncodedFields(time);
    ToSystemTimeIsSigned(FromSystemTime(time));
    MicrosOfFraction(time % 1_000_000_000);
    LossOfFraction(time);
  }

  /**
   A round trip loses at most a microsecond, up to whole eras, exactly when the time is
   convertible; a fraction of a second before 1970 comes back ahead of the time encoded.
   */
  lemma RoundTripIff(time: int64)
    ensures Convertible(time) <==>
            0 <= time - Era(time) * ERA_NANOS - ToSystemTime(FromSystemTime(time)) <= 1000
  {
    if Convertible(time) {
      RoundTrip(time);
    } else {
      EncodedFields(time);
      var ts := FromSystemTime(time);
      ToSystemTimeIsSigned(ts);
      var s := time / 1_000_000_000 + NTP_EPOCH_OFFSET;
      assert time % 1_000_000_000 > 0;
      SuccessorInEra(s);
      assert ts.fraction * 1_000_000 / 0x1_0000_0000 >= 0;
    }
  }

  lemma SuccessorInEra(s: int)
    ensures (s + 1) % 0x1_0000_0000 ==
            if (s + 1) % 0x1_0000_0000 == 0 then s % 0x1_0000_0000 - 0xFFFF_FFFF else s % 0x1_0000_0000 + 1
  {
  }
}
