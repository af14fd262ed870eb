/** What the two readers of the ledger report, defined on the sequence of records and on nothing else. */
module Aggregates {
  import opened Wrappers
  import opened LedgerTails

  // ----- Counts and sums -----

  function CountIf(p: LedgerRecord -> bool, rs: seq<LedgerRecord>): nat {
    if rs == [] then 0 else CountIf(p, rs[..|rs| - 1]) + if p(rs[|rs| - 1]) then 1 else 0
  }

  function OrZero(v: Option<int>): int {
    match v case Some(n) => n case None => 0
  }

  function SumOf(f: LedgerRecord -> Option<int>, rs: seq<LedgerRecord>): int {
    if rs == [] then 0 else SumOf(f, rs[..|rs| - 1]) + OrZero(f(rs[|rs| - 1]))
  }

  function StatusIs(status: int): LedgerRecord -> bool {
    (r: LedgerRecord) => r.status == status
  }

  const MISSING: LedgerRecord -> bool := (r: LedgerRecord) => r.schemaMissing == Some(true)
  const CONFORMED: LedgerRecord -> bool := (r: LedgerRecord) => r.schemaConformed == Some(true)
  const VERDICT: LedgerRecord -> bool := (r: LedgerRecord) => r.schemaConformed.Some?
  const PROMPT: LedgerRecord -> Option<int> := (r: LedgerRecord) => r.promptTokens
  const COMPLETION: LedgerRecord -> Option<int> := (r: LedgerRecord) => r.completionTokens

  /** The figures both sides keep running. */
  datatype Tally = Tally(total: nat, missing: nat, conformed: nat, verdicts: nat, prompt: int, completion: int,
                         statusCounts: map<int, nat>)

  /** The table has a key for each status some record has, and for no other. */
  ghost predicate StatusCountsOf(counts: map<int, nat>, rs: seq<LedgerRecord>) {
    && (forall s: int :: s in counts ==> counts[s] == CountIf(StatusIs(s), rs) > 0)
    && (forall s: int :: CountIf(StatusIs(s), rs) > 0 ==> s in counts)
  }

  ghost predicate TallyOf(t: Tally, rs: seq<LedgerRecord>) {
    && t.total == |rs|
    && t.missing == CountIf(MISSING, rs)
    && t.conformed == CountIf(CONFORMED, rs)
    && t.verdicts == CountIf(VERDICT, rs)
    && t.prompt == SumOf(PROMPT, rs)
    && t.completion == SumOf(COMPLETION, rs)
    && StatusCountsOf(t.statusCounts, rs)
  }

  /** The records determine the tally, status keys included. */
  lemma TallyIsUnique(t: Tally, u: Tally, rs: seq<LedgerRecord>)
    requires TallyOf(t, rs) && TallyOf(u, rs)
    ensures t == u
  {
    assert forall s :: s in t.statusCounts ==> s in u.statusCounts;
    assert forall s :: s in u.statusCounts ==> s in t.statusCounts;
    assert forall s :: s in t.statusCounts ==> t.statusCounts[s] == u.statusCounts[s];
    assert t.statusCounts == u.statusCounts;
  }

  function CountUp(counts: map<int, nat>, status: int): map<int, nat> {
    counts[status := (if status in counts then counts[status] else 0) + 1]
  }

  /** The tally after one more record. */
  function Counted(t: Tally, r: LedgerRecord): Tally {
    Tally(t.total + 1,
          t.missing + (if r.schemaMissing == Some(true) then 1 else 0),
          t.conformed + (if r.schemaConformed == Some(true) then 1 else 0),
          t.verdicts + (if r.schemaConformed.Some? then 1 else 0),
          t.prompt + OrZero(r.promptTokens),
          t.completion + OrZero(r.completionTokens),
          CountUp(t.statusCounts, r.status))
  }

  lemma CountedIsTally(t: Tally, rs: seq<LedgerRecord>, r: LedgerRecord)
    requires TallyOf(t, rs)
    ensures TallyOf(Counted(t, r), rs + [r])
  {
    var all := rs + [r];
    assert all[..|all| - 1] == rs && all[|all| - 1] == r;
    var counts := Counted(t, r).statusCounts;
    forall s: int
      ensures CountIf(StatusIs(s), all) == CountIf(StatusIs(s), rs) + if r.status == s then 1 else 0
    {
    }
    assert forall s: int :: s in counts ==> counts[s] == CountIf(StatusIs(s), all) > 0;
  }

  // ----- The tally, read off the records -----

  function Sum(values: seq<int>): int {
    if values == [] then 0 else Sum(values[..|values| - 1]) + values[|values| - 1]
  }

  /** Each figure is how many of the records have something, or a sum over them; a field that is absent adds nothing. */
  ghost predicate TallyReads(t: Tally, rs: seq<LedgerRecord>) {
    && t.total == |rs|
    && t.missing == |set i: nat | i < |rs| && rs[i].schemaMissing == Some(true)|
    && t.conformed == |set i: nat | i < |rs| && rs[i].schemaConformed == Some(true)|
    && t.verdicts == |set i: nat | i < |rs| && rs[i].schemaConformed != None|
    && t.prompt == Sum(seq(|rs|, i requires 0 <= i < |rs| => OrZero(rs[i].promptTokens)))
    && t.completion == Sum(seq(|rs|, i requires 0 <= i < |rs| => OrZero(rs[i].completionTokens)))
    && (forall s :: s in t.statusCounts <==> exists i :: 0 <= i < |rs| && rs[i].status == s)
    && (forall s :: s in t.statusCounts ==> t.statusCounts[s] == |set i: nat | i < |rs| && rs[i].status == s|)
  }

  ghost function Where(p: LedgerRecord -> bool, rs: seq<LedgerRecord>): set<nat> {
    set i: nat | i < |rs| && p(rs[i])
  }

  lemma WhereSnoc(p: LedgerRecord -> bool, rs: seq<LedgerRecord>, r: LedgerRecord)
    ensures |Where(p, rs + [r])| == |Where(p, rs)| + if p(r) then 1 else 0
  {
    assert Where(p, rs + [r]) == if p(r) then Where(p, rs) + {|rs|} else Where(p, rs);
  }

  lemma {:induction false} CountIs(p: LedgerRecord -> bool, rs: seq<LedgerRecord>)
    ensures CountIf(p, rs) == |Where(p, rs)|
  {
    if rs != [] {
      var n := |rs| - 1;
      CountIs(p, rs[..n]);
      WhereSnoc(p, rs[..n], rs[n]);
      assert rs[..n] + [rs[n]] == rs;
    }
  }

  lemma {:induction false} SumIs(f: LedgerRecord -> Option<int>, rs: seq<LedgerRecord>, values: seq<int>)
    requires |values| == |rs| && forall i :: 0 <= i < |rs| ==> values[i] == OrZero(f(rs[i]))
    ensures SumOf(f, rs) == Sum(values)
  {
    if rs != [] {
      SumIs(f, rs[..|rs| - 1], values[..|rs| - 1]);
    }
  }

  lemma {:induction false} SomeCounted(p: LedgerRecord -> bool, rs: seq<LedgerRecord>)
    ensures CountIf(p, rs) > 0 <==> exists i :: 0 <= i < |rs| && p(rs[i])
  {
    if rs != [] {
      var n := |rs| - 1;
      SomeCounted(p, rs[..n]);
      assert forall i :: 0 <= i < n ==> rs[..n][i] == rs[i];
    }
  }

  lemma TallyIsRead(t: Tally, rs: seq<LedgerRecord>)
    requires TallyOf(t, rs)
    ensures TallyReads(t, rs)
  {
    CountsAreRead(t, rs);
    SumIs(PROMPT, rs, seq(|rs|, i requires 0 <= i < |rs| => OrZero(rs[i].promptTokens)));
    SumIs(COMPLETION, rs, seq(|rs|, i requires 0 <= i < |rs| => OrZero(rs[i].completionTokens)));
    forall s
      ensures s in t.statusCounts <==> exists i :: 0 <= i < |rs| && rs[i].status == s
      ensures s in t.statusCounts ==> t.statusCounts[s] == |set i: nat | i < |rs| && rs[i].status == s|
    {
      StatusRead(s, rs);
    }
  }

  lemma StatusRead(s: int, rs: seq<LedgerRecord>)
    ensures CountIf(StatusIs(s), rs) > 0 <==> exists i :: 0 <= i < |rs| && rs[i].status == s
    ensures CountIf(StatusIs(s), rs) == |set i: nat | i < |rs| && rs[i].status == s|
  {
    SomeCounted(StatusIs(s), rs);
    CountIs(StatusIs(s), rs);
    assert Where(StatusIs(s), rs) == set i: nat | i < |rs| && rs[i].status == s;
  }

  lemma CountsAreRead(t: Tally, rs: seq<LedgerRecord>)
    requires TallyOf(t, rs)
    ensures t.missing == |set i: nat | i < |rs| && rs[i].schemaMissing == Some(true)|
    ensures t.conformed == |set i: nat | i < |rs| && rs[i].schemaConformed == Some(true)|
    ensures t.verdicts == |set i: nat | i < |rs| && rs[i].schemaConformed != None|
  {
    CountIs(MISSING, rs);
    CountIs(CONFORMED, rs);
    CountIs(VERDICT, rs);
    assert Where(MISSING, rs) == set i: nat | i < |rs| && rs[i].schemaMissing == Some(true);
    assert Where(CONFORMED, rs) == set i: nat | i < |rs| && rs[i].schemaConformed == Some(true);
    assert Where(VERDICT, rs) == set i: nat | i < |rs| && rs[i].schemaConformed != None;
  }

  /** part / whole, when there is anything to divide by. */
  function Rate(part: int, whole: int): Option<real> {
    if whole > 0 then Some(part as real / whole as real) else None
  }

  /** The share a part is of the whole, or nothing when there is no whole. */
  ghost predicate IsShare(rate: Option<real>, part: nat, whole: nat) {
    if whole == 0 then rate == None
    else rate.Some? && 0.0 <= rate.value <= 1.0 && rate.value * whole as real == part as real
  }

  lemma Between(share: real, part: real, whole: real)
    requires 0.0 <= part <= whole && whole > 0.0 && share == part / whole
    ensures share * whole == part && 0.0 <= share <= 1.0
  {
    assert share * whole == part;
    assert share > 1.0 ==> (share - 1.0) * whole > 0.0;
    assert share < 0.0 ==> share * whole < 0.0;
  }

  lemma RateIsShare(part: nat, whole: nat)
    requires part <= whole
    ensures IsShare(Rate(part, whole), part, whole)
  {
    if whole > 0 {
      var p, w := part as real, whole as real;
      assert 0.0 <= p <= w && w > 0.0;
      Between(p / w, p, w);
      assert Rate(part, whole) == Some(p / w);
    }
  }

  lemma ShareIsUnique(a: Option<real>, b: Option<real>, part: nat, whole: nat)
    requires IsShare(a, part, whole) && IsShare(b, part, whole)
    ensures a == b
  {
    if whole > 0 {
      SameQuotient(a.value, b.value, whole as real);
    }
  }

  lemma SameQuotient(a: real, b: real, whole: real)
    requires whole > 0.0 && a * whole == b * whole
    ensures a == b
  {
    var d := a - b;
    assert d * whole == a * whole - b * whole;
    assert d > 0.0 ==> d * whole > 0.0;
    assert d < 0.0 ==> d * whole < 0.0;
  }

  /** The share of the verdicts that conformed. */
  ghost predicate ConformanceOf(rate: Option<real>, rs: seq<LedgerRecord>) {
    IsShare(rate, CountIf(CONFORMED, rs), CountIf(VERDICT, rs))
  }

  lemma {:induction false} ConformedAreVerdicts(rs: seq<LedgerRecord>)
    ensures CountIf(CONFORMED, rs) <= CountIf(VERDICT, rs)
  {
    if rs != [] {
      ConformedAreVerdicts(rs[..|rs| - 1]);
    }
  }

  // ----- The wait percentiles -----

  function Waits(rs: seq<LedgerRecord>): seq<int> {
    if rs == [] then []
    else Waits(rs[..|rs| - 1]) + match rs[|rs| - 1].queueWaitMs case Some(w) => [w] case None => []
  }

  ghost function WaitIs(v: int): LedgerRecord -> bool {
    (r: LedgerRecord) => r.queueWaitMs == Some(v)
  }

  lemma {:induction false} WaitsCounted(rs: seq<LedgerRecord>, v: int)
    ensures multiset(Waits(rs))[v] == |Where(WaitIs(v), rs)|
  {
    if rs != [] {
      var rest, last := rs[..|rs| - 1], rs[|rs| - 1];
      WaitsCounted(rest, v);
      WhereSnoc(WaitIs(v), rest, last);
      assert rest + [last] == rs;
      assert multiset(Waits(rs)) ==
             multiset(Waits(rest)) + match last.queueWaitMs case Some(w) => multiset{w} case None => multiset{};
    }
  }

  /** The waits are those of the records that have one, each as often as records have it. */
  lemma WaitsAre(rs: seq<LedgerRecord>, v: int)
    ensures multiset(Waits(rs))[v] == |set i: nat | i < |rs| && rs[i].queueWaitMs == Some(v)|
  {
    WaitsCounted(rs, v);
    assert Where(WaitIs(v), rs) == set i: nat | i < |rs| && rs[i].queueWaitMs == Some(v);
  }

  function CountUpTo(v: int, samples: seq<int>): nat {
    if samples == [] then 0 else (if samples[0] <= v then 1 else 0) + CountUpTo(v, samples[1..])
  }

  ghost predicate Ascending(s: seq<int>) {
    forall i, j :: 0 <= i < j < |s| ==> s[i] <= s[j]
  }

  function Insert(x: int, s: seq<int>): seq<int> {
    if s == [] || x <= s[0] then [x] + s else [s[0]] + Insert(x, s[1..])
  }

  function Sort(s: seq<int>): seq<int> {
    if s == [] then [] else Insert(s[0], Sort(s[1..]))
  }

  ghost predicate AtLeast(low: int, s: seq<int>) {
    forall i :: 0 <= i < |s| ==> low <= s[i]
  }

  lemma {:induction false} InsertSorts(x: int, s: seq<int>, low: int)
    requires Ascending(s) && AtLeast(low, s) && low <= x
    ensures Ascending(Insert(x, s)) && AtLeast(low, Insert(x, s))
  {
    if s != [] && s[0] < x {
      InsertSorts(x, s[1..], s[0]);
    }
  }

  lemma {:induction false} InsertAdds(x: int, s: seq<int>)
    ensures multiset(Insert(x, s)) == multiset(s) + multiset{x}
  {
    if s != [] && s[0] < x {
      InsertAdds(x, s[1..]);
      assert s == [s[0]] + s[1..];
    }
  }

  lemma {:induction false} InsertCounts(x: int, s: seq<int>, v: int)
    ensures CountUpTo(v, Insert(x, s)) == CountUpTo(v, s) + if x <= v then 1 else 0
  {
    if s != [] && s[0] < x {
      InsertCounts(x, s[1..], v);
    } else {
      assert ([x] + s)[1..] == s;
    }
  }

  lemma {:induction false} SortAscends(s: seq<int>)
    ensures Ascending(Sort(s))
  {
    if s != [] {
      SortAscends(s[1..]);
      var low := if Sort(s[1..]) == [] || s[0] <= Sort(s[1..])[0] then s[0] else Sort(s[1..])[0];
      InsertSorts(s[0], Sort(s[1..]), low);
    }
  }

  lemma {:induction false} SortPermutes(s: seq<int>)
    ensures multiset(Sort(s)) == multiset(s)
  {
    if s != [] {
      SortPermutes(s[1..]);
      InsertAdds(s[0], Sort(s[1..]));
      assert s == [s[0]] + s[1..];
    }
  }

  lemma SortSorts(s: seq<int>)
    ensures Ascending(Sort(s)) && multiset(Sort(s)) == multiset(s) && |Sort(s)| == |s|
  {
    SortAscends(s);
    SortPermutes(s);
    assert |multiset(Sort(s))| == |multiset(s)|;
  }

  lemma {:induction false} SortCounts(s: seq<int>, v: int)
    ensures CountUpTo(v, Sort(s)) == CountUpTo(v, s)
  {
    if s != [] {
      SortCounts(s[1..], v);
      InsertCounts(s[0], Sort(s[1..]), v);
    }
  }

  /** The least sample that at least percent of the samples do not exceed. */
  ghost predicate IsNearestRank(v: int, samples: seq<int>, percent: nat) {
    && v in samples
    && 100 * CountUpTo(v, samples) >= percent * |samples|
    && forall w :: w < v ==> 100 * CountUpTo(w, samples) < percent * |samples|
  }

  lemma PercentOf(percent: nat, n: nat)
    requires percent <= 100
    ensures percent * n <= 100 * n
    ensures percent >= 1 && n >= 1 ==> percent * n >= 1
  {
    assert 100 * n - percent * n == (100 - percent) * n;
  }

  lemma Hundredths(x: nat)
    ensures 100 * ((x + 99) / 100) >= x && 100 * ((x + 99) / 100 - 1) < x
  {
  }

  /** The number of samples that make up percent of n, rounded up. */
  function Rank(percent: nat, n: nat): (r: nat)
    requires percent <= 100
    ensures r <= n && 100 * r >= percent * n
    ensures percent >= 1 && n >= 1 ==> 1 <= r && 100 * (r - 1) < percent * n
  {
    PercentOf(percent, n);
    Hundredths(percent * n);
    (percent * n + 99) / 100
  }

  /** Nearest rank over a sorted copy; 0 when there is no sample. */
  function NearestRank(samples: seq<int>, percent: nat): int
    requires percent <= 100
  {
    if samples == [] then 0
    else
      var sorted := Sort(samples);
      SortSorts(samples);
      var rank := Rank(percent, |sorted|);
      sorted[if rank == 0 then 0 else rank - 1]
  }

  lemma {:induction false} CountInAscending(s: seq<int>, k: nat)
    requires Ascending(s) && k < |s|
    ensures CountUpTo(s[k], s) >= k + 1
    ensures forall w :: w < s[k] ==> CountUpTo(w, s) <= k
  {
    if k > 0 {
      CountInAscending(s[1..], k - 1);
    } else {
      forall w | w < s[0]
        ensures CountUpTo(w, s) == 0
      {
        NoneUpTo(w, s);
      }
    }
  }

  lemma {:induction false} NoneUpTo(w: int, s: seq<int>)
    requires forall i :: 0 <= i < |s| ==> w < s[i]
    ensures CountUpTo(w, s) == 0
  {
    if s != [] {
      NoneUpTo(w, s[1..]);
    }
  }

  lemma NearestRankIs(samples: seq<int>, percent: nat)
    requires 1 <= percent <= 100
    ensures if samples == [] then NearestRank(samples, percent) == 0
            else IsNearestRank(NearestRank(samples, percent), samples, percent)
  {
    if samples == [] {
      return;
    }
    var sorted := Sort(samples);
    SortSorts(samples);
    var rank := Rank(percent, |sorted|);
    var v := sorted[rank - 1];
    CountInAscending(sorted, rank - 1);
    assert v in multiset(samples);
    SortCounts(samples, v);
    forall w | w < v
      ensures 100 * CountUpTo(w, samples) < percent * |samples|
    {
      SortCounts(samples, w);
    }
  }
}
