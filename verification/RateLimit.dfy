/**
 The fixed-window limiter of the server (one bucket number and one counter a client) and the
 per-connection limiter (a counter for every bucket), both with 32-bit counters that wrap.
 */
module RateLimit {
  import opened NtpTime
  import opened AccessControl

  /** The pair kept for each client; a missing entry reads as (0, 0). */
  datatype Slot = Slot(bucket: nat, count: uint32)

  type Slots = map<Address, Slot>

  /** One limiter call: a client, the bucket of the steady clock and the limit configured at that moment. */
  datatype Call = Call(ip: Address, bucket: nat, limit: uint32)

  function SlotOf(slots: Slots, ip: Address): Slot {
    if ip in slots then slots[ip] else Slot(0, 0)
  }

  function CountIn(slots: Slots, ip: Address, bucket: nat): Slot {
    var entry := SlotOf(slots, ip);
    Slot(bucket, U32((if entry.bucket != bucket then 0 else entry.count) + 1))
  }

  function Hit(slots: Slots, c: Call): Slots {
    slots[c.ip := CountIn(slots, c.ip, c.bucket)]
  }

  predicate Exceeds(slots: Slots, c: Call) {
    CountIn(slots, c.ip, c.bucket).count > c.limit
  }

  function Run(calls: seq<Call>): Slots {
    if calls == [] then map[] else Hit(Run(calls[..|calls| - 1]), calls[|calls| - 1])
  }

  /** The clock is read under the lock, so the buckets of successive calls never go back. */
  predicate Steady(calls: seq<Call>) {
    forall i, j :: 0 <= i < j < |calls| ==> calls[i].bucket <= calls[j].bucket
  }

  /** The number of calls a client made in a bucket. */
  function Calls(calls: seq<Call>, ip: Address, bucket: nat): nat {
    if calls == [] then 0
    else
      var c := calls[|calls| - 1];
      Calls(calls[..|calls| - 1], ip, bucket) + (if c.ip == ip && c.bucket == bucket then 1 else 0)
  }

  lemma {:induction false} NoLaterCalls(calls: seq<Call>, ip: Address, bucket: nat)
    requires forall i :: 0 <= i < |calls| ==> calls[i].bucket < bucket
    ensures Calls(calls, ip, bucket) == 0
  {
    if calls != [] {
      NoLaterCalls(calls[..|calls| - 1], ip, bucket);
    }
  }

  lemma Successor(n: nat)
    ensures (n + 1) % 0x1_0000_0000 == (n % 0x1_0000_0000 + 1) % 0x1_0000_0000
  {
  }

  /** What the one slot remembers: the last bucket of the client and its calls there, modulo 2^32. */
  lemma {:induction false} SlotCountsItsBucket(calls: seq<Call>, ip: Address, bucket: nat)
    requires Steady(calls)
    requires forall i :: 0 <= i < |calls| ==> calls[i].bucket <= bucket
    ensures var entry := SlotOf(Run(calls), ip);
            Calls(calls, ip, bucket) % 0x1_0000_0000 == if entry.bucket == bucket then entry.count else 0
  {
    if calls != [] {
      var before, c := calls[..|calls| - 1], calls[|calls| - 1];
      SlotCountsItsBucket(before, ip, bucket);
      if c.ip == ip {
        if c.bucket < bucket {
          NoLaterCalls(before, ip, bucket);
        } else {
          Successor(Calls(before, ip, bucket));
        }
      }
    }
  }

  lemma SteadyInit(calls: seq<Call>, c: Call)
    requires Steady(calls + [c])
    ensures Steady(calls)
    ensures forall i :: 0 <= i < |calls| ==> calls[i].bucket <= c.bucket
  {
    var all := calls + [c];
    assert forall i :: 0 <= i < |calls| ==> calls[i] == all[i];
    assert all[|calls|] == c;
  }

  lemma OneMoreCall(calls: seq<Call>, c: Call)
    ensures Calls(calls + [c], c.ip, c.bucket) == Calls(calls, c.ip, c.bucket) + 1
  {
    assert (calls + [c])[..|calls|] == calls;
  }

  /** The verdict on a call depends on the client's calls in the current bucket alone, whoever else calls. */
  lemma ExceedsIffBucketCount(calls: seq<Call>, c: Call)
    requires Steady(calls + [c])
    ensures Exceeds(Run(calls), c) <==> Calls(calls + [c], c.ip, c.bucket) % 0x1_0000_0000 > c.limit
  {
    SteadyInit(calls, c);
    OneMoreCall(calls, c);
    SlotCountsItsBucket(calls, c.ip, c.bucket);
    VerdictOfSlot(Run(calls), c, Calls(calls, c.ip, c.bucket));
  }

  lemma VerdictOfSlot(slots: Slots, c: Call, n: nat)
    requires n % 0x1_0000_0000 == if SlotOf(slots, c.ip).bucket == c.bucket then SlotOf(slots, c.ip).count else 0
    ensures Exceeds(slots, c) <==> (n + 1) % 0x1_0000_0000 > c.limit
  {
    Successor(n);
  }

  // ---------------------------------------------------------------- the unbounded history

  /** The per-connection limiter keeps one counter for every bucket it has seen. */
  type History = map<nat, uint32>

  function HistoryCount(history: History, bucket: nat): uint32 {
    var n: int := if bucket in history then history[bucket] else 0;
    U32(n + 1)
  }

  function HistoryRun(calls: seq<Call>, ip: Address): History {
    if calls == [] then map[]
    else
      var c := calls[|calls| - 1];
      var history := HistoryRun(calls[..|calls| - 1], ip);
      if c.ip != ip then history else history[c.bucket := HistoryCount(history, c.bucket)]
  }

  /** Each counter of the history is exact modulo 2^32, in whatever order the calls came. */
  lemma {:induction false} HistoryCountsEveryBucket(calls: seq<Call>, ip: Address, bucket: nat)
    ensures var history := HistoryRun(calls, ip);
            Calls(calls, ip, bucket) % 0x1_0000_0000 == if bucket in history then history[bucket] else 0
  {
    if calls != [] {
      var before, c := calls[..|calls| - 1], calls[|calls| - 1];
      HistoryCountsEveryBucket(before, ip, bucket);
      if c.ip == ip && c.bucket == bucket {
        Successor(Calls(before, ip, bucket));
      }
    }
  }

  /** On a steady clock the one slot gives the verdict of the full history. */
  lemma SlotRefinesHistory(calls: seq<Call>, c: Call)
    requires Steady(calls + [c])
    ensures Exceeds(Run(calls), c) <==> HistoryCount(HistoryRun(calls, c.ip), c.bucket) > c.limit
  {
    ExceedsIffBucketCount(calls, c);
    OneMoreCall(calls, c);
    HistoryCountsEveryBucket(calls, c.ip, c.bucket);
    Successor(Calls(calls, c.ip, c.bucket));
  }

  /** A clock that steps back separates the two: the slot forgets, the history does not. */
  lemma UnsteadySeparates(ip: Address)
    ensures var calls := [Call(ip, 1, 1), Call(ip, 2, 1)];
            var c := Call(ip, 1, 1);
            !Exceeds(Run(calls), c) && HistoryCount(HistoryRun(calls, ip), c.bucket) > c.limit
  {
    var first, second := Call(ip, 1, 1), Call(ip, 2, 1);
    assert [first, second][..1] == [first] && [first][..0] == [];
    assert Run([first]) == map[ip := Slot(1, 1)];
    assert HistoryRun([first], ip) == map[1 := 1];
  }

  // ---------------------------------------------------------------- how many calls pass

  /** The number of a client's calls in a bucket that the limiter let through. */
  function Passes(calls: seq<Call>, ip: Address, bucket: nat): nat {
    if calls == [] then 0
    else
      var before, c := calls[..|calls| - 1], calls[|calls| - 1];
      Passes(before, ip, bucket) + (if c.ip == ip && c.bucket == bucket && !Exceeds(Run(before), c) then 1 else 0)
  }

  function Min(a: nat, b: nat): nat { if a <= b then a else b }

  /** With a fixed limit, a bucket lets exactly its first `limit` calls pass. */
  lemma {:induction false} BucketPasses(calls: seq<Call>, ip: Address, bucket: nat, limit: uint32)
    requires Steady(calls)
    requires forall i :: 0 <= i < |calls| ==> calls[i].limit == limit
    requires Calls(calls, ip, bucket) < 0x1_0000_0000
    ensures Passes(calls, ip, bucket) == Min(Calls(calls, ip, bucket), limit)
  {
    if calls != [] {
      var before, c := calls[..|calls| - 1], calls[|calls| - 1];
      assert calls == before + [c];
      BucketPasses(before, ip, bucket, limit);
      if c.ip == ip && c.bucket == bucket {
        LimitInBucket(before, c);
      }
    }
  }

  lemma LimitInBucket(before: seq<Call>, c: Call)
    requires Steady(before + [c]) && Calls(before + [c], c.ip, c.bucket) < 0x1_0000_0000
    ensures Exceeds(Run(before), c) <==> Calls(before, c.ip, c.bucket) >= c.limit
  {
    OneMoreCall(before, c);
    SmallRemainder(Calls(before + [c], c.ip, c.bucket), 0x1_0000_0000);
    ExceedsIffBucketCount(before, c);
  }

  /** The number of a client's passing calls at times in lo <= t < hi; `times` are the readings behind the buckets. */
  function PassesBetween(calls: seq<Call>, times: seq<nat>, ip: Address, lo: nat, hi: nat): nat
    requires |times| == |calls|
  {
    if calls == [] then 0
    else
      var n := |calls| - 1;
      PassesBetween(calls[..n], times[..n], ip, lo, hi)
      + (if calls[n].ip == ip && lo <= times[n] < hi && !Exceeds(Run(calls[..n]), calls[n]) then 1 else 0)
  }

  lemma {:induction false} PassesSplit(calls: seq<Call>, times: seq<nat>, ip: Address, lo: nat, hi: nat, bucket: nat)
    requires |times| == |calls|
    requires forall i :: 0 <= i < |calls| && lo <= times[i] < hi ==> calls[i].bucket == bucket || calls[i].bucket == bucket + 1
    ensures PassesBetween(calls, times, ip, lo, hi) <= Passes(calls, ip, bucket) + Passes(calls, ip, bucket + 1)
  {
    if calls != [] {
      var n := |calls| - 1;
      PassesSplit(calls[..n], times[..n], ip, lo, hi, bucket);
    }
  }

  lemma WindowSpansTwo(start: nat, t: nat, width: nat)
    requires width > 0 && start <= t < start + width
    ensures t / width == start / width || t / width == start / width + 1
  {
    var b := start / width;
    var lo := b * width;
    assert (b + 1) * width == lo + width;
    if t < lo + width {
      DivUnique(t, width, b);
    } else {
      DivUnique(t, width, b + 1);
    }
  }

  lemma WindowBuckets(calls: seq<Call>, times: seq<nat>, width: nat, start: nat)
    requires width > 0 && |times| == |calls|
    requires forall i :: 0 <= i < |calls| ==> calls[i].bucket == times[i] / width
    ensures forall i :: 0 <= i < |calls| && start <= times[i] < start + width ==>
                          calls[i].bucket == start / width || calls[i].bucket == start / width + 1
  {
    forall i | 0 <= i < |calls| && start <= times[i] < start + width
      ensures calls[i].bucket == start / width || calls[i].bucket == start / width + 1
    {
      WindowSpansTwo(start, times[i], width);
    }
  }

  /** In any stretch as long as one bucket, wherever it starts, at most twice the limit passes. */
  lemma WindowPasses(calls: seq<Call>, times: seq<nat>, width: nat, ip: Address, start: nat, limit: uint32)
    requires width > 0 && |times| == |calls| && Steady(calls)
    requires forall i :: 0 <= i < |calls| ==> calls[i].bucket == times[i] / width
    requires forall i :: 0 <= i < |calls| ==> calls[i].limit == limit
    requires forall b: nat :: Calls(calls, ip, b) < 0x1_0000_0000
    ensures PassesBetween(calls, times, ip, start, start + width) <= 2 * limit
  {
    WindowBuckets(calls, times, width, start);
    var b: nat := start / width;
    PassesSplit(calls, times, ip, start, start + width, b);
    BucketPasses(calls, ip, b, limit);
    BucketPasses(calls, ip, b + 1, limit);
  }
}
