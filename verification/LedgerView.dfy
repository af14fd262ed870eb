/** dashboard/ledger_view.hpp: the fold behind the dashboard's panes. */
module LedgerViews {
  import opened Wrappers
  import opened LedgerTails
  import opened Aggregates

  /** The last n records, or all of them. */
  function LastOf(n: nat, rs: seq<LedgerRecord>): seq<LedgerRecord> {
    if |rs| <= n then rs else rs[|rs| - n..]
  }

  lemma LastOfIs(n: nat, rs: seq<LedgerRecord>)
    ensures |LastOf(n, rs)| == if |rs| < n then |rs| else n
    ensures exists earlier :: earlier + LastOf(n, rs) == rs
  {
    var k := |rs| - |LastOf(n, rs)|;
    assert rs[..k] + LastOf(n, rs) == rs;
  }

  const PAIRED_COMPLETION: LedgerRecord -> Option<int> :=
    (r: LedgerRecord) => if r.upstreamMs.Some? then r.completionTokens else None
  const PAIRED_UPSTREAM: LedgerRecord -> Option<int> :=
    (r: LedgerRecord) => if r.completionTokens.Some? then r.upstreamMs else None

  datatype LedgerAggregate = LedgerAggregate(tally: Tally, waitMsP50: int, waitMsP95: int,
                                             schemaConformanceRate: Option<real>,
                                             completionTokensPerUpstreamSecond: Option<real>)

  /** Tokens per second of upstream time, over the records that have both; nothing without such time. */
  function Throughput(tokens: int, upstreamMs: int): Option<real> {
    if upstreamMs > 0 then Some(tokens as real / (upstreamMs as real / 1000.0)) else None
  }

  lemma ThroughputIs(tokens: int, upstreamMs: int)
    ensures Throughput(tokens, upstreamMs).Some? <==> upstreamMs > 0
    ensures upstreamMs > 0 ==> Throughput(tokens, upstreamMs).value * upstreamMs as real == 1000.0 * tokens as real
  {
    if upstreamMs > 0 {
      var t, seconds := tokens as real, upstreamMs as real / 1000.0;
      assert (t / seconds) * seconds == t;
      assert upstreamMs as real == 1000.0 * seconds;
    }
  }

  /** What a record that has both adds, of its tokens and of its upstream time. */
  function BothHalves(r: LedgerRecord): (int, int) {
    if r.completionTokens.Some? && r.upstreamMs.Some? then (r.completionTokens.value, r.upstreamMs.value) else (0, 0)
  }

  /** The rate times the upstream seconds is the tokens, over the records that have both; no rate without such time. */
  ghost predicate IsThroughput(rate: Option<real>, rs: seq<LedgerRecord>) {
    var tokens := Sum(seq(|rs|, i requires 0 <= i < |rs| => BothHalves(rs[i]).0));
    var ms := Sum(seq(|rs|, i requires 0 <= i < |rs| => BothHalves(rs[i]).1));
    if ms > 0 then rate.Some? && rate.value * ms as real == 1000.0 * tokens as real else rate == None
  }

  lemma PairsGiveThroughput(rs: seq<LedgerRecord>)
    ensures IsThroughput(Throughput(SumOf(PAIRED_COMPLETION, rs), SumOf(PAIRED_UPSTREAM, rs)), rs)
  {
    SumIs(PAIRED_COMPLETION, rs, seq(|rs|, i requires 0 <= i < |rs| => BothHalves(rs[i]).0));
    SumIs(PAIRED_UPSTREAM, rs, seq(|rs|, i requires 0 <= i < |rs| => BothHalves(rs[i]).1));
    ThroughputIs(SumOf(PAIRED_COMPLETION, rs), SumOf(PAIRED_UPSTREAM, rs));
  }

  class LedgerView {
    const windowSize: nat
    var window: seq<LedgerRecord>
    var totalRequests: nat
    var schemaMissingTrue: nat
    var schemaConformedTrue: nat
    var schemaVerdicts: nat
    var promptTokens: int
    var completionTokens: int
    var pairedCompletionTokens: int
    var pairedUpstreamMs: int
    var statusCounts: map<int, nat>

    /** The records that count. */
    ghost var history: seq<LedgerRecord>

    function Figures(): Tally
      reads this
    {
      Tally(totalRequests, schemaMissingTrue, schemaConformedTrue, schemaVerdicts, promptTokens, completionTokens,
            statusCounts)
    }

    ghost predicate Valid()
      reads this
    {
      && TallyOf(Figures(), history)
      && pairedCompletionTokens == SumOf(PAIRED_COMPLETION, history)
      && pairedUpstreamMs == SumOf(PAIRED_UPSTREAM, history)
      && window == LastOf(windowSize, history)
    }

    constructor (windowSize: nat)
      ensures Valid() && history == [] && this.windowSize == windowSize
    {
      this.windowSize := windowSize;
      window, totalRequests, schemaMissingTrue, schemaConformedTrue, schemaVerdicts := [], 0, 0, 0, 0;
      promptTokens, completionTokens, pairedCompletionTokens, pairedUpstreamMs, statusCounts := 0, 0, 0, 0, map[];
      history := [];
    }

    /** The cumulative half of record(). */
    method Count(entry: LedgerRecord)
      modifies this`totalRequests, this`statusCounts, this`promptTokens, this`completionTokens, this`schemaMissingTrue,
               this`schemaVerdicts, this`schemaConformedTrue
      ensures Figures() == Counted(old(Figures()), entry)
    {
      totalRequests := totalRequests + 1;
      statusCounts := CountUp(statusCounts, entry.status);
      if entry.promptTokens.Some? {
        promptTokens := promptTokens + entry.promptTokens.value;
      }
      if entry.completionTokens.Some? {
        completionTokens := completionTokens + entry.completionTokens.value;
      }
      CountSchema(entry.schemaMissing, entry.schemaConformed);
    }

    /** The schema counters of one record. */
    method CountSchema(missing: Option<bool>, conformed: Option<bool>)
      modifies this`schemaMissingTrue, this`schemaVerdicts, this`schemaConformedTrue
      ensures schemaMissingTrue == old(schemaMissingTrue) + if missing == Some(true) then 1 else 0
      ensures schemaVerdicts == old(schemaVerdicts) + if conformed.Some? then 1 else 0
      ensures schemaConformedTrue == old(schemaConformedTrue) + if conformed == Some(true) then 1 else 0
    {
      if missing.Some? && missing.value {
        schemaMissingTrue := schemaMissingTrue + 1;
      }
      if conformed.Some? {
        schemaVerdicts := schemaVerdicts + 1;
        if conformed.value {
          schemaConformedTrue := schemaConformedTrue + 1;
        }
      }
    }

    /** Both sides of the throughput ratio, fed only by records that have both. */
    method CountPair(entry: LedgerRecord)
      modifies this`pairedCompletionTokens, this`pairedUpstreamMs
      ensures pairedCompletionTokens == old(pairedCompletionTokens) + OrZero(PAIRED_COMPLETION(entry))
      ensures pairedUpstreamMs == old(pairedUpstreamMs) + OrZero(PAIRED_UPSTREAM(entry))
    {
      if entry.completionTokens.Some? && entry.upstreamMs.Some? {
        pairedCompletionTokens := pairedCompletionTokens + entry.completionTokens.value;
        pairedUpstreamMs := pairedUpstreamMs + entry.upstreamMs.value;
      }
    }

    /** Appends to the retained window, oldest out first. */
    method Retain(entry: LedgerRecord, ghost past: seq<LedgerRecord>)
      requires window == LastOf(windowSize, past)
      modifies this`window
      ensures window == LastOf(windowSize, past + [entry])
    {
      ghost var all := past + [entry];
      window := window + [entry];
      while |window| > windowSize
        invariant |window| <= |all| && window == all[|all| - |window|..]
        invariant |window| < windowSize ==> window == all
      {
        window := window[1..];
      }
    }

    method Record(entry: LedgerRecord)
      requires Valid()
      modifies this
      ensures Valid() && history == old(history) + [entry]
    {
      CountedIsTally(Figures(), history, entry);
      Count(entry);
      CountPair(entry);
      Retain(entry, history);
      ghost var all := history + [entry];
      assert all[..|all| - 1] == history;
      history := all;
    }

    method RecordAll(entries: seq<LedgerRecord>)
      requires Valid()
      modifies this
      ensures Valid() && history == old(history) + entries
    {
      for i := 0 to |entries|
        invariant Valid() && history == old(history) + entries[..i]
      {
        Record(entries[i]);
      }
      assert entries[..|entries|] == entries;
    }

    /** Forgets every record, as for a new file. */
    method Restart()
      modifies this
      ensures Valid() && history == []
    {
      window, totalRequests, schemaMissingTrue, schemaConformedTrue, schemaVerdicts := [], 0, 0, 0, 0;
      promptTokens, completionTokens, pairedCompletionTokens, pairedUpstreamMs, statusCounts := 0, 0, 0, 0, map[];
      history := [];
    }

    /** The waits in the window, of the records that have one. */
    method WindowWaits() returns (waits: seq<int>)
      ensures waits == Waits(window)
    {
      waits := [];
      for i := 0 to |window|
        invariant waits == Waits(window[..i])
      {
        assert window[..i + 1][..i] == window[..i];
        if window[i].queueWaitMs.Some? {
          waits := waits + [window[i].queueWaitMs.value];
        }
      }
      assert window[..|window|] == window;
    }

    /** Zero verdicts are no rate, rather than a rate of zero. */
    method ConformanceRate() returns (rate: Option<real>)
      requires Valid()
      ensures ConformanceOf(rate, history)
    {
      ConformedAreVerdicts(history);
      RateIsShare(schemaConformedTrue, schemaVerdicts);
      rate := Rate(schemaConformedTrue, schemaVerdicts);
    }

    /** Totals over everything recorded; percentiles over the last windowSize records. */
    method Aggregate() returns (out: LedgerAggregate)
      requires Valid()
      ensures TallyOf(out.tally, history) && TallyReads(out.tally, history)
      ensures out.waitMsP50 == NearestRank(Waits(LastOf(windowSize, history)), 50)
      ensures out.waitMsP95 == NearestRank(Waits(LastOf(windowSize, history)), 95)
      ensures |LastOf(windowSize, history)| == if |history| < windowSize then |history| else windowSize
      ensures exists earlier :: earlier + LastOf(windowSize, history) == history
      ensures ConformanceOf(out.schemaConformanceRate, history)
      ensures IsShare(out.schemaConformanceRate, out.tally.conformed, out.tally.verdicts)
      ensures IsThroughput(out.completionTokensPerUpstreamSecond, history)
    {
      TallyIsRead(Figures(), history);
      PairsGiveThroughput(history);
      LastOfIs(windowSize, history);
      var waits := WindowWaits();
      var rate := ConformanceRate();
      out := LedgerAggregate(Figures(), NearestRank(waits, 50), NearestRank(waits, 95), rate,
                             Throughput(pairedCompletionTokens, pairedUpstreamMs));
    }
  }
}
