/**
 Selection of an upstream server: the healthy list, the wrapping round-robin counter, and
 failover, which removes a server from the list until the list has run empty.
 */
module UpstreamPool {
  import opened NtpTime

  datatype Algorithm = RoundRobin | Random | LeastErrors

  datatype Pool = Pool(healthy: seq<string>, index: uint64)

  datatype Selection = Selection(pool: Pool, server: string)

  /** One selection; `draw` is the value of the random generator. No upstreams select the empty name. */
  function Select(pool: Pool, configured: seq<string>, algorithm: Algorithm, draw: nat): Selection {
    if configured == [] then Selection(pool, "")
    else
      var healthy := if pool.healthy == [] then configured else pool.healthy;
      var refilled := pool.(healthy := healthy);
      if |healthy| == 1 then Selection(refilled, healthy[0])
      else if algorithm.Random? then Selection(refilled, healthy[draw % |healthy|])
      else Selection(refilled.(index := U64(pool.index + 1)), healthy[pool.index % |healthy|])
  }

  /** Removes the first occurrence of a server. */
  function Drop(healthy: seq<string>, server: string): seq<string> {
    if healthy == [] then []
    else if healthy[0] == server then healthy[1..]
    else [healthy[0]] + Drop(healthy[1..], server)
  }

  /** Dropping takes out the first occurrence and no other, wherever it is. */
  lemma {:induction false} DropTakesFirst(before: seq<string>, server: string, after: seq<string>)
    requires server !in before
    ensures Drop(before + [server] + after, server) == before + after
  {
    if before == [] {
      assert before + [server] + after == [server] + after && before + after == after;
    } else {
      assert (before + [server] + after)[1..] == before[1..] + [server] + after;
      DropTakesFirst(before[1..], server, after);
      assert [before[0]] + (before[1..] + after) == before + after;
    }
  }

  // ---------------------------------------------------------------- fairness of the rotation

  ghost predicate Distinct(servers: seq<string>) {
    forall i, j :: 0 <= i < j < |servers| ==> servers[i] != servers[j]
  }

  /** The servers chosen by m selections in a row, starting at a counter value. */
  function Picks(healthy: seq<string>, index: uint64, m: nat): (picks: seq<string>)
    requires |healthy| >= 2
    ensures |picks| == m
    decreases m
  {
    if m == 0 then []
    else
      var s := Select(Pool(healthy, index), healthy, RoundRobin, 0);
      [s.server] + Picks(s.pool.healthy, s.pool.index, m - 1)
  }

  function Occurrences(picks: seq<string>, server: string): nat {
    if picks == [] then 0 else (if picks[0] == server then 1 else 0) + Occurrences(picks[1..], server)
  }

  /** How many numbers below x leave the remainder j modulo n. */
  function Below(x: nat, n: nat, j: nat): nat
    requires j < n
  {
    (x + n - 1 - j) / n
  }

  lemma BelowStep(x: nat, n: nat, j: nat)
    requires j < n
    ensures Below(x + 1, n, j) == Below(x, n, j) + (if x % n == j then 1 else 0)
  {
    var q, r := x / n, x % n;
    assert x == q * n + r;
    assert (q + 1) * n == q * n + n;
    if r < j {
      DivUnique(x + n - 1 - j, n, q);
      DivUnique(x + n - j, n, q);
    } else if r == j {
      DivUnique(x + n - 1 - j, n, q);
      DivUnique(x + n - j, n, q + 1);
    } else {
      DivUnique(x + n - 1 - j, n, q + 1);
      DivUnique(x + n - j, n, q + 1);
    }
  }

  lemma CeilingOf(m: nat, n: nat)
    requires n > 0
    ensures (m + n - 1) / n == if m % n == 0 then m / n else m / n + 1
  {
    var q := m / n;
    assert m == q * n + m % n;
    assert (q + 1) * n == q * n + n;
    DivUnique(m + n - 1, n, if m % n == 0 then q else q + 1);
  }

  lemma QuotientOfSum(a: nat, m: nat, n: nat)
    requires n > 0
    ensures (a + m) / n == a / n + m / n + (if a % n + m % n < n then 0 else 1)
  {
    var p, q := a / n, m / n;
    assert a == p * n + a % n && m == q * n + m % n;
    assert (p + q) * n == p * n + q * n;
    assert (p + q + 1) * n == p * n + q * n + n;
    DivUnique(a + m, n, if a % n + m % n < n then p + q else p + q + 1);
  }

  /** Rounding down the ends of a stretch of length m gives m / n, up or down. */
  lemma StretchBounds(a: nat, m: nat, n: nat)
    requires n > 0
    ensures m / n <= (a + m) / n - a / n <= (m + n - 1) / n
  {
    QuotientOfSum(a, m, n);
    CeilingOf(m, n);
  }

  lemma RemainderAfter(a: nat, n: nat)
    requires n > 0
    ensures (a + 1) % n == if a % n + 1 < n then a % n + 1 else 0
  {
    var q := a / n;
    assert (q + 1) * n == q * n + n;
    DivUnique(a + 1, n, if a % n + 1 < n then q else q + 1);
  }

  lemma NextRemainder(a: nat, b: nat, n: nat)
    requires n > 0 && a % n == b % n
    ensures (a + 1) % n == (b + 1) % n
  {
    RemainderAfter(a, n);
    RemainderAfter(b, n);
  }

  lemma OnePick(healthy: seq<string>, index: uint64, m: nat)
    requires |healthy| >= 2 && m > 0
    ensures var picks := Picks(healthy, index, m);
            picks[0] == healthy[index % |healthy|] && picks[1..] == Picks(healthy, U64(index + 1), m - 1)
  {
  }

  lemma SamePosition(healthy: seq<string>, i: nat, j: nat)
    requires Distinct(healthy) && i < |healthy| && j < |healthy|
    ensures healthy[i] == healthy[j] <==> i == j
  {
  }

  lemma {:induction false} PicksLast(healthy: seq<string>, index: uint64, m: nat)
    requires |healthy| >= 2
    ensures Picks(healthy, index, m + 1) == Picks(healthy, index, m) + [healthy[U64(index + m) % |healthy|]]
    decreases m
  {
    OnePick(healthy, index, m + 1);
    if m == 0 {
      SmallRemainder(index, 0x1_0000_0000_0000_0000);
    } else {
      OnePick(healthy, index, m);
      PicksLast(healthy, U64(index + 1), m - 1);
      WrapsOn(index, 1, m - 1);
    }
  }

  /** Counting on from a wrapped counter is counting on from the counter. */
  lemma WrapsOn(index: nat, k: nat, m: nat)
    ensures U64(U64(index + k) + m) == U64(index + k + m)
  {
    DivUnique(index + k + m, 0x1_0000_0000_0000_0000,
              (index + k) / 0x1_0000_0000_0000_0000 + (U64(index + k) + m) / 0x1_0000_0000_0000_0000);
  }

  /**
   Each server is picked as often as its position occurs as a remainder, as long as the
   counter does not wrap or its period is a multiple of the number of servers. `base` counts on
   where the counter wraps.
   */
  lemma {:induction false} PicksCountRemainders(healthy: seq<string>, index: uint64, base: nat, m: nat, j: nat)
    requires |healthy| >= 2 && Distinct(healthy) && j < |healthy|
    requires base % |healthy| == index % |healthy|
    requires index + m <= 0x1_0000_0000_0000_0000 || 0x1_0000_0000_0000_0000 % |healthy| == 0
    ensures Occurrences(Picks(healthy, index, m), healthy[j]) ==
            Below(base + m, |healthy|, j) - Below(base, |healthy|, j)
    decreases m
  {
    if m > 0 {
      OnePick(healthy, index, m);
      SamePosition(healthy, index % |healthy|, j);
      BelowStep(base, |healthy|, j);
      NextRemainder(base, index, |healthy|);
      if m > 1 || index + 1 < 0x1_0000_0000_0000_0000 {
        NextIndex(index, |healthy|);
        PicksCountRemainders(healthy, U64(index + 1), base + 1, m - 1, j);
      }
    }
  }

  lemma NextIndex(index: uint64, n: nat)
    requires n > 0
    requires index + 1 < 0x1_0000_0000_0000_0000 || 0x1_0000_0000_0000_0000 % n == 0
    ensures U64(index + 1) == if index + 1 < 0x1_0000_0000_0000_0000 then index + 1 else 0
    ensures U64(index + 1) % n == (index + 1) % n
  {
  }

  /** Among m selections in a row, each server is picked m / n times, rounded up or down. */
  ghost predicate Fair(healthy: seq<string>, index: uint64, m: nat)
    requires |healthy| >= 2
  {
    forall server :: server in healthy ==>
      m / |healthy| <= Occurrences(Picks(healthy, index, m), server) <= (m + |healthy| - 1) / |healthy|
  }

  /** Any m selections in a row share themselves out evenly, short of the counter's wrap at 2^64. */
  lemma FairUntilWrap(healthy: seq<string>, index: uint64, m: nat)
    requires |healthy| >= 2 && Distinct(healthy)
    requires index + m <= 0x1_0000_0000_0000_0000 || 0x1_0000_0000_0000_0000 % |healthy| == 0
    ensures Fair(healthy, index, m)
  {
    var n := |healthy|;
    forall server | server in healthy
      ensures m / n <= Occurrences(Picks(healthy, index, m), server) <= (m + n - 1) / n
    {
      var j: nat :| j < n && healthy[j] == server;
      PicksCountRemainders(healthy, index, index, m, j);
      StretchBounds(index + n - 1 - j, m, n);
    }
  }

  /** A stretch that starts at a small counter value and stops short of the last position never picks it. */
  lemma {:induction false} LapWithoutLast(healthy: seq<string>, index: uint64, m: nat)
    requires 2 <= |healthy| <= 0x1_0000_0000_0000_0000 && Distinct(healthy)
    requires index + m < |healthy|
    ensures Occurrences(Picks(healthy, index, m), healthy[|healthy| - 1]) == 0
    decreases m
  {
    if m > 0 {
      OnePick(healthy, index, m);
      SmallRemainder(index, |healthy|);
      SamePosition(healthy, index, |healthy| - 1);
      SmallRemainder(index + 1, 0x1_0000_0000_0000_0000);
      LapWithoutLast(healthy, index + 1, m - 1);
    }
  }

  lemma WrapWithoutLast(healthy: seq<string>, last: uint64)
    requires 2 <= |healthy| <= 0x1_0000_0000_0000_0000 && Distinct(healthy)
    requires U64(last + 1) == 0 && last % |healthy| != |healthy| - 1
    ensures Occurrences(Picks(healthy, last, |healthy|), healthy[|healthy| - 1]) == 0
  {
    OnePick(healthy, last, |healthy|);
    SamePosition(healthy, last % |healthy|, |healthy| - 1);
    LapWithoutLast(healthy, 0, |healthy| - 1);
  }

  /** Across the wrap the last server misses its turn, unless the number of servers divides 2^64. */
  lemma WrapSkipsLast(healthy: seq<string>)
    requires 2 <= |healthy| <= 0x1_0000_0000_0000_0000 && Distinct(healthy)
    requires 0x1_0000_0000_0000_0000 % |healthy| != 0
    ensures Occurrences(Picks(healthy, 0xFFFF_FFFF_FFFF_FFFF, |healthy|), healthy[|healthy| - 1]) == 0
    ensures !Fair(healthy, 0xFFFF_FFFF_FFFF_FFFF, |healthy|)
  {
    LastRemainder(0xFFFF_FFFF_FFFF_FFFF, |healthy|);
    WrapWithoutLast(healthy, 0xFFFF_FFFF_FFFF_FFFF);
    DivUnique(|healthy|, |healthy|, 1);
    assert healthy[|healthy| - 1] in healthy;
  }

  lemma LastRemainder(a: nat, n: nat)
    requires n >= 2 && (a + 1) % n != 0
    ensures a % n != n - 1
  {
    if a % n == n - 1 {
      var q := a / n;
      assert a + 1 == q * n + n == (q + 1) * n;
      DivUnique(a + 1, n, q + 1);
      assert false;
    }
  }

  /** The rotation is fair from every counter value and for every length exactly if the wrap is harmless. */
  lemma FairAlwaysIff(healthy: seq<string>)
    requires 2 <= |healthy| <= 0x1_0000_0000_0000_0000 && Distinct(healthy)
    ensures (forall index: uint64, m: nat :: Fair(healthy, index, m)) <==> 0x1_0000_0000_0000_0000 % |healthy| == 0
  {
    if 0x1_0000_0000_0000_0000 % |healthy| == 0 {
      forall index: uint64, m: nat ensures Fair(healthy, index, m) {
        FairUntilWrap(healthy, index, m);
      }
    } else {
      WrapSkipsLast(healthy);
      assert !Fair(healthy, 0xFFFF_FFFF_FFFF_FFFF, |healthy|);
    }
  }

  // ---------------------------------------------------------------- failover

  /** A packet selects a server, and a failed send drops the server it had selected. */
  datatype PoolOp = Pick(draw: nat) | Fail(server: string)

  /** The pool together with the servers that failed since the list was last filled. */
  datatype PoolRun = PoolRun(pool: Pool, failed: set<string>)

  function PoolStep(r: PoolRun, configured: seq<string>, algorithm: Algorithm, op: PoolOp): PoolRun {
    match op
    case Pick(draw) =>
      PoolRun(Select(r.pool, configured, algorithm, draw).pool, if r.pool.healthy == [] then {} else r.failed)
    case Fail(server) =>
      PoolRun(r.pool.(healthy := Drop(r.pool.healthy, server)), r.failed + {server})
  }

  function RunPool(configured: seq<string>, algorithm: Algorithm, ops: seq<PoolOp>): PoolRun {
    if ops == [] then PoolRun(Pool(configured, 0), {})
    else PoolStep(RunPool(configured, algorithm, ops[..|ops| - 1]), configured, algorithm, ops[|ops| - 1])
  }

  /** The servers of a list that have not failed, in their order. */
  function Without(servers: seq<string>, failed: set<string>): seq<string> {
    if servers == [] then []
    else if servers[0] in failed then Without(servers[1..], failed)
    else [servers[0]] + Without(servers[1..], failed)
  }

  lemma {:induction false} WithoutMembers(servers: seq<string>, failed: set<string>)
    ensures forall s :: s in Without(servers, failed) <==> s in servers && s !in failed
    ensures failed == {} ==> Without(servers, failed) == servers
  {
    if servers != [] {
      WithoutMembers(servers[1..], failed);
      assert servers == [servers[0]] + servers[1..];
    }
  }

  lemma {:induction false} DropAbsent(servers: seq<string>, server: string)
    requires server !in servers
    ensures Drop(servers, server) == servers
  {
    if servers != [] {
      DropAbsent(servers[1..], server);
    }
  }

  lemma {:induction false} WithoutIrrelevant(servers: seq<string>, failed: set<string>, server: string)
    requires server !in servers
    ensures Without(servers, failed + {server}) == Without(servers, failed)
  {
    if servers != [] {
      WithoutIrrelevant(servers[1..], failed, server);
    }
  }

  /** Dropping one server from the list is adding it to the failures. */
  lemma {:induction false} DropIsFailure(servers: seq<string>, failed: set<string>, server: string)
    requires Distinct(servers)
    ensures Drop(Without(servers, failed), server) == Without(servers, failed + {server})
  {
    if servers != [] {
      var rest := servers[1..];
      DropIsFailure(rest, failed, server);
      if servers[0] == server {
        WithoutIrrelevant(rest, failed, server);
        WithoutMembers(rest, failed);
        DropAbsent(Without(rest, failed), server);
      }
    }
  }

  /** Over every run the healthy list is the configured one less the failures since it was last filled. */
  lemma {:induction false} HealthyIsConfiguredLessFailed(configured: seq<string>, algorithm: Algorithm, ops: seq<PoolOp>)
    requires Distinct(configured)
    ensures var r := RunPool(configured, algorithm, ops);
            r.pool.healthy == Without(configured, r.failed)
  {
    if ops == [] {
      WithoutMembers(configured, {});
    } else {
      var before := RunPool(configured, algorithm, ops[..|ops| - 1]);
      HealthyIsConfiguredLessFailed(configured, algorithm, ops[..|ops| - 1]);
      match ops[|ops| - 1]
      case Pick(_) =>
        WithoutMembers(configured, {});
      case Fail(server) =>
        DropIsFailure(configured, before.failed, server);
    }
  }

  /**
   Over every run, whatever the algorithm: if an upstream is configured, a configured server is
   selected, and one that failed since the list was filled only when all of them have.
   */
  lemma SelectionAfterFailures(configured: seq<string>, algorithm: Algorithm, ops: seq<PoolOp>, draw: nat)
    requires Distinct(configured) && configured != []
    ensures var r := RunPool(configured, algorithm, ops);
            var s := Select(r.pool, configured, algorithm, draw);
            && s.server in configured
            && (forall t :: t in r.pool.healthy ==> t in configured)
            && (s.server in r.failed ==> forall t :: t in configured ==> t in r.failed)
  {
    var r := RunPool(configured, algorithm, ops);
    HealthyIsConfiguredLessFailed(configured, algorithm, ops);
    WithoutMembers(configured, r.failed);
  }
}
