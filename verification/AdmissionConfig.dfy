/** router/config.hpp: the admission block, its thread budget, and the worker that budget always spares. */
module AdmissionConfig {
  import opened Wrappers
  import opened AdmissionSpec
  import opened AdmissionRuns

  const THREAD_BUDGET := 256
  const MAX_SLOTS := 1000000
  const MAX_TIMEOUT_MS := 86400000
  const INT_MAX := 0x7fff_ffff

  datatype JsonNumber = Integer(n: int) | NotInteger

  datatype Field = MaxInflightPerModel | MaxQueued | QueueTimeoutMs

  function ThreadsExact(cap: int, maxQueued: int): int {
    maxQueued + cap + THREAD_MARGIN
  }

  /** The number of threads in the listener's pool: the sum, but at least one and at most the largest int. */
  function TaskQueueThreads(cap: int, maxQueued: int): int {
    var threads := ThreadsExact(cap, maxQueued);
    if threads > INT_MAX then INT_MAX else if threads < 1 then 1 else threads
  }

  predicate InRange(value: JsonNumber, low: int, high: int) {
    value.Integer? && low <= value.n <= high
  }

  /** Three in-range integers, and a queue of at least one or no queue at all can be paid for. */
  ghost predicate Acceptable(cap: JsonNumber, maxQueued: JsonNumber, timeout: JsonNumber) {
    && InRange(cap, 1, 1_000_000) && InRange(maxQueued, 0, 1_000_000) && InRange(timeout, 0, 86_400_000)
    && (cap.n + maxQueued.n + 8 <= 256 || cap.n + 8 < 256)
  }

  /** The queue depth an accepted config runs with: the configured one, or the deepest the budget pays for. */
  function EffectiveMaxQueued(cap: int, maxQueued: int): int {
    if ThreadsExact(cap, maxQueued) <= THREAD_BUDGET then maxQueued else THREAD_BUDGET - THREAD_MARGIN - cap
  }

  class AdmissionBlock {
    var maxInflightPerModel: int
    var maxQueued: int

    constructor (cap: int, queued: int)
      ensures maxInflightPerModel == cap && maxQueued == queued
    {
      maxInflightPerModel, maxQueued := cap, queued;
    }

    /** Lowers maxQueued to what the budget can pay for, or names the field at fault. */
    method ClampMaxQueuedToThreadBudget() returns (error: Option<Field>)
      requires maxQueued >= 0
      modifies this`maxQueued
      ensures error == None <==> maxInflightPerModel + old(maxQueued) + 8 <= 256 || maxInflightPerModel + 8 < 256
      ensures error.Some? ==>
                && maxQueued == old(maxQueued)
                && error.value == if maxInflightPerModel + 8 > 256 then MaxInflightPerModel else MaxQueued
      ensures error == None ==>
                && maxInflightPerModel + maxQueued + 8 <= 256
                && 0 <= maxQueued <= old(maxQueued)
                && (maxQueued < old(maxQueued) ==> maxInflightPerModel + maxQueued + 8 == 256 && maxQueued >= 1)
    {
      if ThreadsExact(maxInflightPerModel, maxQueued) <= THREAD_BUDGET {
        return None;
      }
      var inflightCost := maxInflightPerModel + THREAD_MARGIN;
      if inflightCost > THREAD_BUDGET {
        return Some(MaxInflightPerModel);
      }
      var effective := THREAD_BUDGET - inflightCost;
      if effective < 1 {
        return Some(MaxQueued);
      }
      maxQueued := effective;
      return None;
    }
  }

  /** The admission half of parseRouterConfig. */
  method ParseAdmission(cap: JsonNumber, maxQueued: JsonNumber, timeout: JsonNumber)
    returns (r: Result<(int, int), Field>)
    ensures r.Ok? <==> Acceptable(cap, maxQueued, timeout)
    ensures r.Ok? ==>
              && r.value.0 == cap.n >= 1 && 0 <= r.value.1 <= maxQueued.n
              && r.value.1 == EffectiveMaxQueued(cap.n, maxQueued.n)
              && TaskQueueThreads(r.value.0, r.value.1) == r.value.1 + cap.n + 8 <= 256
              && (r.value.1 < maxQueued.n ==> r.value.1 + cap.n + 8 == 256)
    ensures r.Err? ==>
              r.error == if !InRange(cap, 1, 1_000_000) then MaxInflightPerModel
                         else if !InRange(maxQueued, 0, 1_000_000) then MaxQueued
                         else if !InRange(timeout, 0, 86_400_000) then QueueTimeoutMs
                         else if cap.n + 8 > 256 then MaxInflightPerModel
                         else MaxQueued
  {
    if !InRange(cap, 1, MAX_SLOTS) {
      return Err(MaxInflightPerModel);
    }
    if !InRange(maxQueued, 0, MAX_SLOTS) {
      return Err(MaxQueued);
    }
    if !InRange(timeout, 0, MAX_TIMEOUT_MS) {
      return Err(QueueTimeoutMs);
    }
    var block := new AdmissionBlock(cap.n, maxQueued.n);
    var error := block.ClampMaxQueuedToThreadBudget();
    match error {
      case Some(field) => return Err(field);
      case None => return Ok((block.maxInflightPerModel, block.maxQueued));
    }
  }

  /** Requests in flight over all models. */
  ghost function Total(inflight: map<string, nat>): nat
    decreases |inflight|
  {
    if inflight == map[] then 0
    else
      var m :| m in inflight;
      assert |inflight - {m}| < |inflight| by {
        assert inflight.Keys == (inflight - {m}).Keys + {m};
      }
      inflight[m] + Total(inflight - {m})
  }

  /** Total is a sum: the order of the models does not matter. */
  lemma {:induction false} TotalSplit(inflight: map<string, nat>, m: string)
    requires m in inflight
    ensures Total(inflight) == inflight[m] + Total(inflight - {m})
    decreases |inflight|
  {
    var k :| k in inflight && Total(inflight) == inflight[k] + Total(inflight - {k});
    if k != m {
      assert inflight.Keys == (inflight - {k}).Keys + {k};
      assert inflight.Keys == (inflight - {m}).Keys + {m};
      TotalSplit(inflight - {k}, m);
      TotalSplit(inflight - {m}, k);
      assert inflight - {k} - {m} == inflight - {m} - {k};
    }
  }

  lemma {:induction false} TotalBound(inflight: map<string, nat>, cap: nat)
    requires forall m :: m in inflight ==> inflight[m] <= cap
    ensures Total(inflight) <= cap * |inflight|
    decreases |inflight|
  {
    if inflight != map[] {
      var m :| m in inflight;
      var rest := inflight - {m};
      assert inflight.Keys == rest.Keys + {m};
      TotalSplit(inflight, m);
      TotalBound(rest, cap);
      assert cap * |rest| + cap == cap * (|rest| + 1);
    }
  }

  /** The limit is the largest number of models whose slots ride the margin and leave one of its workers. */
  lemma DistinctModelsRideTheMargin(cap: nat, keys: nat)
    requires cap >= 1
    ensures keys <= MaxDistinct(cap) <==> cap * keys <= cap + 7
    ensures MaxDistinct(cap) >= 1
  {
    var extra := (THREAD_MARGIN - 1) / cap;
    assert cap * extra <= THREAD_MARGIN - 1 < cap * (extra + 1) by {
      Quotient(THREAD_MARGIN - 1, cap);
    }
    Times(cap, 1 + extra, 1, extra);
    if keys <= 1 + extra {
      Grows(cap, keys, 1 + extra);
    } else {
      Grows(cap, extra + 2, keys);
      Times(cap, extra + 2, 1, extra + 1);
    }
  }

  lemma Quotient(n: nat, d: nat)
    requires d >= 1
    ensures d * (n / d) <= n < d * (n / d + 1)
  {
    assert n == d * (n / d) + n % d;
    assert d * (n / d + 1) == d * (n / d) + d;
  }

  lemma Times(a: nat, sum: nat, x: nat, y: nat)
    requires sum == x + y
    ensures a * sum == a * x + a * y
  {
  }

  lemma Grows(a: nat, x: nat, y: nat)
    requires x <= y
    ensures a * x <= a * y
  {
    assert a * y == a * x + a * (y - x);
  }

  /**
   One worker is always spared: with any accepted config, whatever arrives, expires and is released,
   the requests in flight and in the queue leave at least one thread of the listener's pool.
   */
  lemma OneWorkerSpared(cap: JsonNumber, maxQueued: JsonNumber, timeout: JsonNumber, cfg: Config, es: seq<Event>)
    requires Acceptable(cap, maxQueued, timeout)
    requires cfg.cap == cap.n && cfg.maxQueued == EffectiveMaxQueued(cap.n, maxQueued.n)
    ensures var s := Run(cfg, EMPTY, es);
            Total(s.inflight) + |s.queue| <= TaskQueueThreads(cfg.cap, cfg.maxQueued) - 1 < 256
  {
    var s := Run(cfg, EMPTY, es);
    InvHoldsInitially(cfg);
    InvRun(cfg, EMPTY, es);
    TotalBound(s.inflight, cfg.cap);
    DistinctModelsRideTheMargin(cfg.cap, |s.inflight|);
  }
}
