/**
 Self-healing of the receive socket: each worker that loses the socket first compares the
 shared restart counter with the limit and only later adds one to it. The two are atomic
 alone but not together, so other workers' steps come in between.
 */
module SelfHealing {
  import opened NtpTime

  /** The shared 32-bit counter, the workers between check and increment, and the restarts so far. */
  datatype Healing = Healing(restartCount: uint32, checked: set<nat>, attempts: nat)

  const FRESH := Healing(0, {}, 0)

  /** A worker's check carries the configuration it read, which a reload may have changed. */
  datatype Step =
    | Check(worker: nat, enabled: bool, limit: uint32)
    | Increment(worker: nat)

  function Next(h: Healing, s: Step): Healing {
    match s
    case Check(w, enabled, limit) =>
      if enabled && h.restartCount < limit then h.(checked := h.checked + {w}) else h
    case Increment(w) =>
      if w in h.checked then Healing(U32(h.restartCount + 1), h.checked - {w}, h.attempts + 1) else h
  }

  function Run(steps: seq<Step>): Healing {
    if steps == [] then FRESH else Next(Run(steps[..|steps| - 1]), steps[|steps| - 1])
  }

  /** Steps of the given number of workers that never read a limit above the given one. */
  ghost predicate Allowed(steps: seq<Step>, workers: nat, limit: uint32) {
    forall s :: s in steps ==> s.worker < workers && (s.Check? ==> s.limit <= limit)
  }

  /** The most restarts the program can mean to allow: the last check may let every worker through. */
  function Bound(workers: nat, limit: uint32): nat {
    if limit == 0 || workers == 0 then 0 else limit + workers - 1
  }

  lemma {:induction false} AtMostWorkers(checked: set<nat>, workers: nat)
    requires forall w :: w in checked ==> w < workers
    ensures |checked| <= workers
  {
    if workers == 0 {
      assert checked == {};
    } else {
      var rest := checked - {workers - 1};
      AtMostWorkers(rest, workers - 1);
      assert checked <= rest + {workers - 1};
      assert |checked| <= |rest| + 1;
    }
  }

  /** What every reachable state keeps: restarts made and restarts already granted, together. */
  lemma {:induction false} GrantsAreBounded(steps: seq<Step>, workers: nat, limit: uint32)
    requires Allowed(steps, workers, limit) && Bound(workers, limit) < 0x1_0000_0000
    ensures var h := Run(steps);
            && h.attempts + |h.checked| <= Bound(workers, limit)
            && h.restartCount == h.attempts
            && forall w :: w in h.checked ==> w < workers
  {
    if steps != [] {
      var init, s := steps[..|steps| - 1], steps[|steps| - 1];
      GrantsAreBounded(init, workers, limit);
      AtMostWorkers(Run(steps).checked, workers);
      if s.Increment? && s.worker in Run(init).checked {
        SmallRemainder(Run(init).attempts + 1, 0x1_0000_0000);
      }
    }
  }

  /** Over every interleaving, restarts stay within limit + workers - 1; within the limit if there is one worker. */
  lemma RestartsAreBounded(steps: seq<Step>, workers: nat, limit: uint32)
    requires Allowed(steps, workers, limit) && Bound(workers, limit) < 0x1_0000_0000
    ensures Run(steps).attempts <= Bound(workers, limit)
    ensures workers <= 1 || limit == 0 ==> Run(steps).attempts <= limit
  {
    GrantsAreBounded(steps, workers, limit);
  }

  /** Workers that find self-healing switched off never restart anything. */
  lemma {:induction false} DisabledNeverRestarts(steps: seq<Step>)
    requires forall i :: 0 <= i < |steps| && steps[i].Check? ==> !steps[i].enabled
    ensures Run(steps) == FRESH
  {
    if steps != [] {
      DisabledNeverRestarts(steps[..|steps| - 1]);
    }
  }

  // ---------------------------------------------------------------- the bound is reached

  lemma RunOfOneMore(steps: seq<Step>, s: Step)
    ensures Run(steps + [s]) == Next(Run(steps), s)
  {
    assert (steps + [s])[..|steps|] == steps;
  }

  /** One worker after another restarts, the first n times. */
  lemma {:induction false} OneByOne(n: nat, workers: nat, limit: uint32) returns (steps: seq<Step>)
    requires workers > 0 && n <= limit
    ensures Allowed(steps, workers, limit)
    ensures Run(steps) == Healing(n, {}, n)
  {
    if n == 0 {
      steps := [];
    } else {
      var before := OneByOne(n - 1, workers, limit);
      steps := before + [Check(0, true, limit)] + [Increment(0)];
      RunOfOneMore(before, Check(0, true, limit));
      RunOfOneMore(before + [Check(0, true, limit)], Increment(0));
      SmallRemainder(n, 0x1_0000_0000);
    }
  }

  function FirstWorkers(n: nat): (workers: set<nat>)
    ensures forall w :: w in workers ==> w < n
  {
    if n == 0 then {} else FirstWorkers(n - 1) + {n - 1}
  }

  lemma {:induction false} AllCheck(steps: seq<Step>, n: nat, workers: nat, limit: uint32) returns (longer: seq<Step>)
    requires Allowed(steps, workers, limit) && n <= workers
    requires Run(steps).checked == {} && Run(steps).restartCount < limit
    ensures Allowed(longer, workers, limit)
    ensures Run(longer) == Run(steps).(checked := FirstWorkers(n))
  {
    if n == 0 {
      longer := steps;
    } else {
      var before := AllCheck(steps, n - 1, workers, limit);
      RunOfOneMore(before, Check(n - 1, true, limit));
      longer := before + [Check(n - 1, true, limit)];
    }
  }

  lemma {:induction false} AllIncrement(steps: seq<Step>, n: nat, workers: nat, limit: uint32) returns (longer: seq<Step>)
    requires Allowed(steps, workers, limit) && n <= workers
    requires Run(steps).checked == FirstWorkers(n)
    ensures Allowed(longer, workers, limit)
    ensures Run(longer) == Healing(U32(Run(steps).restartCount + n), {}, Run(steps).attempts + n)
    decreases n
  {
    if n == 0 {
      longer := steps;
      SmallRemainder(Run(steps).restartCount, 0x1_0000_0000);
    } else {
      RunOfOneMore(steps, Increment(n - 1));
      assert FirstWorkers(n) - {n - 1} == FirstWorkers(n - 1);
      longer := AllIncrement(steps + [Increment(n - 1)], n - 1, workers, limit);
      WrapTwice(Run(steps).restartCount, n - 1);
    }
  }

  lemma WrapTwice(count: nat, n: nat)
    ensures U32(U32(count + 1) + n) == U32(count + 1 + n)
  {
    DivUnique(count + 1 + n, 0x1_0000_0000, (count + 1) / 0x1_0000_0000 + (U32(count + 1) + n) / 0x1_0000_0000);
  }

  /** All workers check just below the limit and then all restart: the bound is reached. */
  lemma TightRun(workers: nat, limit: uint32) returns (steps: seq<Step>)
    requires workers > 0 && limit > 0
    ensures Allowed(steps, workers, limit)
    ensures Run(steps) == Healing(U32(limit + workers - 1), {}, Bound(workers, limit))
  {
    var alone := OneByOne(limit - 1, workers, limit);
    var all := AllCheck(alone, workers, workers, limit);
    steps := AllIncrement(all, workers, workers, limit);
  }

  /** The counter wraps to a small value, and one more worker gets through. */
  lemma OneMoreAfterWrap(workers: nat, limit: uint32) returns (steps: seq<Step>)
    requires 0x1_0000_0000 <= Bound(workers, limit) && workers <= 0x1_0000_0000
    ensures Allowed(steps, workers, limit)
    ensures Run(steps).attempts == Bound(workers, limit) + 1
  {
    var tight := TightRun(workers, limit);
    DivUnique(limit + workers - 1, 0x1_0000_0000, 1);
    RunOfOneMore(tight, Check(0, true, limit));
    RunOfOneMore(tight + [Check(0, true, limit)], Increment(0));
    steps := tight + [Check(0, true, limit)] + [Increment(0)];
  }

  /** The bound holds of every interleaving exactly if the 32-bit counter can hold it. */
  lemma BoundedIff(workers: nat, limit: uint32)
    requires workers <= 0x1_0000_0000
    ensures (forall steps :: Allowed(steps, workers, limit) ==> Run(steps).attempts <= Bound(workers, limit))
            <==> Bound(workers, limit) < 0x1_0000_0000
  {
    if Bound(workers, limit) < 0x1_0000_0000 {
      forall steps | Allowed(steps, workers, limit) ensures Run(steps).attempts <= Bound(workers, limit) {
        RestartsAreBounded(steps, workers, limit);
      }
    } else {
      var steps := OneMoreAfterWrap(workers, limit);
    }
  }

  /** No smaller bound holds: some interleaving makes exactly limit + workers - 1 restarts. */
  lemma BoundIsReached(workers: nat, limit: uint32)
    ensures exists steps :: Allowed(steps, workers, limit) && Run(steps).attempts == Bound(workers, limit)
  {
    if workers > 0 && limit > 0 {
      var steps := TightRun(workers, limit);
    } else {
      assert Allowed([], workers, limit) && Run([]).attempts == 0;
    }
  }
}
