/** scripts/conductor_bench.py: the aggregation of a campaign's rows, and what its figures add up to. */
module CampaignReports {
  import opened Wrappers
  import opened CampaignSpec
  import Aggregates

  // ----- Medians -----

  /** The middle of ordered values; between two middles, half their sum rounded down. */
  function Middle(ordered: seq<int>): int {
    var n := |ordered|;
    if n == 0 then 0
    else if n % 2 == 1 then ordered[n / 2]
    else (ordered[n / 2 - 1] + ordered[n / 2]) / 2
  }

  function Median(values: seq<int>): int {
    Middle(Aggregates.Sort(values))
  }

  lemma {:induction false} CountMonotone(v: int, w: int, s: seq<int>)
    requires v <= w
    ensures Aggregates.CountUpTo(v, s) <= Aggregates.CountUpTo(w, s)
  {
    if s != [] {
      CountMonotone(v, w, s[1..]);
    }
  }

  lemma MiddleHalves(s: seq<int>, m: int)
    requires s != [] && Aggregates.Ascending(s) && m == Middle(s)
    ensures 2 * Aggregates.CountUpTo(m, s) >= |s|
    ensures 2 * Aggregates.CountUpTo(m - 1, s) <= |s|
  {
    var k := |s| / 2;
    Aggregates.CountInAscending(s, k);
    if |s| % 2 == 0 {
      Aggregates.CountInAscending(s, k - 1);
      assert s[k - 1] <= s[k];
      CountMonotone(s[k - 1], m, s);
      CountMonotone(m - 1, s[k] - 1, s);
    }
  }

  /** At least half of the values do not exceed the median, and at most half fall below it. */
  lemma MedianHalves(values: seq<int>)
    requires values != []
    ensures 2 * Aggregates.CountUpTo(Median(values), values) >= |values|
    ensures 2 * Aggregates.CountUpTo(Median(values) - 1, values) <= |values|
  {
    Aggregates.SortSorts(values);
    MiddleHalves(Aggregates.Sort(values), Median(values));
    Aggregates.SortCounts(values, Median(values));
    Aggregates.SortCounts(values, Median(values) - 1);
  }

  /** The same values in ascending order: as many up to any bound. */
  ghost predicate Orders(ordered: seq<int>, values: seq<int>) {
    && Aggregates.Ascending(ordered) && |ordered| == |values|
    && forall v :: Aggregates.CountUpTo(v, ordered) == Aggregates.CountUpTo(v, values)
  }

  lemma NotBefore(a: seq<int>, b: seq<int>, k: nat)
    requires Aggregates.Ascending(a) && Aggregates.Ascending(b) && k < |a| == |b|
    requires Aggregates.CountUpTo(a[k], a) == Aggregates.CountUpTo(a[k], b)
    ensures b[k] <= a[k]
  {
    Aggregates.CountInAscending(a, k);
    Aggregates.CountInAscending(b, k);
  }

  lemma OrderedOnce(a: seq<int>, b: seq<int>, values: seq<int>)
    requires Orders(a, values) && Orders(b, values)
    ensures a == b
  {
    forall k | 0 <= k < |a|
      ensures a[k] == b[k]
    {
      NotBefore(a, b, k);
      NotBefore(b, a, k);
    }
  }

  /** However the values are put in order: the middle one, or half the sum of the two middle ones, rounded down. */
  lemma MedianIs(values: seq<int>, ordered: seq<int>)
    requires Orders(ordered, values)
    ensures var n, m := |values|, Median(values);
            && (n == 0 ==> m == 0)
            && (n % 2 == 1 ==> m == ordered[n / 2])
            && (n > 0 && n % 2 == 0 ==> 2 * m <= ordered[n / 2 - 1] + ordered[n / 2] <= 2 * m + 1)
  {
    var sorted := Aggregates.Sort(values);
    Aggregates.SortSorts(values);
    forall v
      ensures Aggregates.CountUpTo(v, sorted) == Aggregates.CountUpTo(v, values)
    {
      Aggregates.SortCounts(values, v);
    }
    OrderedOnce(sorted, ordered, values);
  }

  // ----- What is reported -----

  function Walls(rows: seq<Row>): seq<int> {
    if rows == [] then [] else Walls(rows[..|rows| - 1]) + [rows[|rows| - 1].wallClockMs]
  }

  function SumOf(values: seq<int>): int {
    if values == [] then 0 else SumOf(values[..|values| - 1]) + values[|values| - 1]
  }

  lemma {:induction false} WallsJoin(a: seq<Row>, b: seq<Row>)
    ensures Walls(a + b) == Walls(a) + Walls(b)
  {
    if b == [] {
      assert a + b == a;
    } else {
      WallsJoin(a, b[..|b| - 1]);
      assert (a + b)[..|a + b| - 1] == a + b[..|b| - 1];
    }
  }

  datatype Figures = Figures(passes: int, scored: int, timeouts: int, tokens: int)

  const ZERO := Figures(0, 0, 0, 0)

  function FiguresOf(fates: seq<Fate>): Figures {
    Figures(Total(Cells({IsPassed}), fates), Total(Cells(SCORED), fates), Total(Cells({IsTimedOut}), fates),
            Total(TokenSum, fates))
  }

  datatype TierRow = TierRow(figures: Figures, walls: seq<int>)

  function TierRowOf(fates: seq<Fate>): TierRow {
    TierRow(FiguresOf(fates), Walls(Rows(fates)))
  }

  datatype Group = Group(figures: Figures, recorded: int, planned: int, excluded: int, minPass: nat, maxPass: nat,
                         wallTotal: int, wallMedian: int)

  function GroupOf(fates: seq<Fate>): Group {
    var walls := Walls(Rows(fates));
    Group(FiguresOf(fates), Total(Cells(RECORDED), fates), |fates|, Total(Cells({IsExcluded}), fates),
          LowestPass(Rows(fates)), HighestPass(Rows(fates)), SumOf(walls), Median(walls))
  }

  datatype ArmTotals = ArmTotals(figures: Figures, recorded: int, planned: int, excluded: int, walls: seq<int>)

  function TotalsOf(fates: seq<Fate>): ArmTotals {
    ArmTotals(FiguresOf(fates), Total(Cells(RECORDED), fates), |fates|, Total(Cells({IsExcluded}), fates),
              Walls(Rows(fates)))
  }

  function Plus(a: Figures, b: Figures): Figures {
    Figures(a.passes + b.passes, a.scored + b.scored, a.timeouts + b.timeouts, a.tokens + b.tokens)
  }

  lemma FiguresJoin(a: seq<Fate>, b: seq<Fate>)
    ensures FiguresOf(a + b) == Plus(FiguresOf(a), FiguresOf(b))
  {
    TotalJoin(Cells({IsPassed}), a, b);
    TotalJoin(Cells(SCORED), a, b);
    TotalJoin(Cells({IsTimedOut}), a, b);
    TotalJoin(TokenSum, a, b);
  }

  lemma TierRowJoin(a: seq<Fate>, b: seq<Fate>)
    ensures TierRowOf(a + b) == TierRow(Plus(FiguresOf(a), FiguresOf(b)), Walls(Rows(a)) + Walls(Rows(b)))
  {
    FiguresJoin(a, b);
    RowsJoin(a, b);
    WallsJoin(Rows(a), Rows(b));
  }

  lemma TotalsJoin(a: seq<Fate>, b: seq<Fate>)
    ensures TotalsOf(a + b) ==
            ArmTotals(Plus(FiguresOf(a), FiguresOf(b)),
                      Total(Cells(RECORDED), a) + Total(Cells(RECORDED), b), |a| + |b|,
                      Total(Cells({IsExcluded}), a) + Total(Cells({IsExcluded}), b), Walls(Rows(a)) + Walls(Rows(b)))
  {
    TierRowJoin(a, b);
    TotalJoin(Cells(RECORDED), a, b);
    TotalJoin(Cells({IsExcluded}), a, b);
  }

  // ----- The program -----

  type Strata = map<(string, nat), Reason>

  ghost predicate StrataAre(c: Campaign, strata: Strata) {
    && (forall task: Task, rep: nat :: task in c.tasks && 1 <= rep <= c.reps ==>
          ((task.id, rep) in strata <==> Stratum(c, c.arms, task.id, rep).Some?))
    && (forall key :: key in strata ==> Stratum(c, c.arms, key.0, key.1) == Some(strata[key]))
  }

  /** The innermost loop: the first reason among the arms of one task and repetition. */
  method StratumReason(c: Campaign, task: string, rep: nat) returns (reason: Option<Reason>)
    ensures reason == Stratum(c, c.arms, task, rep)
  {
    reason := None;
    var i := 0;
    while i < |c.arms|
      invariant 0 <= i <= |c.arms|
      invariant reason == Stratum(c, c.arms[..i], task, rep)
    {
      assert c.arms[..i + 1][..i] == c.arms[..i];
      var row := RowAt(c, c.arms[i], task, rep);
      if row.Some? {
        var why := ExclusionReason(row.value);
        if why.Some? && reason.None? {
          reason := why;
        }
      }
      i := i + 1;
    }
    assert c.arms[..i] == c.arms;
  }

  method ExcludedStrata(c: Campaign) returns (strata: Strata)
    ensures StrataAre(c, strata)
  {
    strata := map[];
    var i := 0;
    while i < |c.tasks|
      invariant 0 <= i <= |c.tasks|
      invariant forall key :: key in strata ==> Stratum(c, c.arms, key.0, key.1) == Some(strata[key])
      invariant forall j, rep: nat ::
                  0 <= j < i && 1 <= rep <= c.reps && Stratum(c, c.arms, c.tasks[j].id, rep).Some?
                  ==> (c.tasks[j].id, rep) in strata
    {
      strata := ExcludedOf(c, strata, c.tasks[i].id);
      i := i + 1;
    }
  }

  method ExcludedOf(c: Campaign, before: Strata, task: string) returns (strata: Strata)
    requires forall key :: key in before ==> Stratum(c, c.arms, key.0, key.1) == Some(before[key])
    ensures forall key :: key in strata ==> Stratum(c, c.arms, key.0, key.1) == Some(strata[key])
    ensures before.Keys <= strata.Keys
    ensures forall rep: nat :: 1 <= rep <= c.reps && Stratum(c, c.arms, task, rep).Some? ==> (task, rep) in strata
  {
    strata := before;
    var rep: nat := 1;
    while rep <= c.reps
      invariant 1 <= rep <= c.reps + 1
      invariant forall key :: key in strata ==> Stratum(c, c.arms, key.0, key.1) == Some(strata[key])
      invariant before.Keys <= strata.Keys
      invariant forall r: nat :: 1 <= r < rep && Stratum(c, c.arms, task, r).Some? ==> (task, r) in strata
    {
      var reason := StratumReason(c, task, rep);
      if reason.Some? && (task, rep) !in strata {
        strata := strata[(task, rep) := reason.value];
      }
      rep := rep + 1;
    }
  }

  /** What becomes of one cell, read off the excluded strata. */
  method FateOf(c: Campaign, strata: Strata, arm: string, task: Task, rep: nat) returns (fate: Fate)
    requires StrataAre(c, strata) && task in c.tasks && 1 <= rep <= c.reps
    ensures fate == FateAt(c, arm, task.id, rep)
  {
    var row := RowAt(c, arm, task.id, rep);
    if row.None? {
      return Missing;
    }
    if (task.id, rep) in strata {
      return Excluded(strata[(task.id, rep)]);
    }
    return if row.value.outcome == Timeout then TimedOut(row.value) else Scored(row.value);
  }

  /** min and max over the flags of the repetitions that did not time out. */
  method FlagRange(rows: seq<Row>) returns (minPass: nat, maxPass: nat)
    ensures minPass == LowestPass(rows) && maxPass == HighestPass(rows)
  {
    var any := false;
    minPass, maxPass := 0, 0;
    var i := 0;
    while i < |rows|
      invariant 0 <= i <= |rows|
      invariant minPass <= 1 && maxPass <= 1
      invariant any <==> exists j :: 0 <= j < i && rows[j].outcome != Timeout
      invariant minPass == 1 <==>
                any && forall j :: 0 <= j < i && rows[j].outcome != Timeout ==> rows[j].outcome == Pass
      invariant maxPass == 1 <==> exists j :: 0 <= j < i && rows[j].outcome == Pass
    {
      if rows[i].outcome != Timeout {
        var flag := if rows[i].outcome == Pass then 1 else 0;
        minPass := if !any || flag < minPass then flag else minPass;
        maxPass := if !any || flag > maxPass then flag else maxPass;
        any := true;
      }
      i := i + 1;
    }
  }

  /** The counters of one task in one arm, and the rows that enter its lists. */
  datatype Counters = Counters(figures: Figures, recorded: int, excluded: int, counted: seq<Row>)

  function CountersOf(fates: seq<Fate>): Counters {
    Counters(FiguresOf(fates), Total(Cells(RECORDED), fates), Total(Cells({IsExcluded}), fates), Rows(fates))
  }

  lemma CountersSnoc(fates: seq<Fate>, fate: Fate)
    ensures var f := FiguresOf(fates);
            CountersOf(fates + [fate]) ==
            Counters(Figures(f.passes + Weight(Cells({IsPassed}), fate), f.scored + Weight(Cells(SCORED), fate),
                             f.timeouts + Weight(Cells({IsTimedOut}), fate), f.tokens + Weight(TokenSum, fate)),
                     Total(Cells(RECORDED), fates) + Weight(Cells(RECORDED), fate),
                     Total(Cells({IsExcluded}), fates) + Weight(Cells({IsExcluded}), fate),
                     Rows(fates) + if fate.TimedOut? || fate.Scored? then [fate.row] else [])
  {
    assert (fates + [fate])[..|fates|] == fates;
  }

  /** One cell counted. */
  method CountFate(k: Counters, fate: Fate, ghost fates: seq<Fate>) returns (next: Counters)
    requires k == CountersOf(fates)
    ensures next == CountersOf(fates + [fate])
  {
    CountersSnoc(fates, fate);
    var f := k.figures;
    match fate
    case Missing =>
      next := k;
    case Excluded(_) =>
      next := k.(recorded := k.recorded + 1, excluded := k.excluded + 1);
    case TimedOut(row) =>
      var tokens := if row.tokens.Some? then row.tokens.value else 0;
      next := Counters(f.(timeouts := f.timeouts + 1, tokens := f.tokens + tokens), k.recorded + 1, k.excluded,
                       k.counted + [row]);
    case Scored(row) =>
      var tokens := if row.tokens.Some? then row.tokens.value else 0;
      var passes := if row.passed then f.passes + 1 else f.passes;
      next := Counters(f.(passes := passes, scored := f.scored + 1, tokens := f.tokens + tokens),
                       k.recorded + 1, k.excluded, k.counted + [row]);
  }

  /** The cells of an arm among the missing ones. */
  function MissingOf(missing: seq<Cell>, arm: string): nat {
    if missing == [] then 0
    else MissingOf(missing[..|missing| - 1], arm) + if missing[|missing| - 1].arm == arm then 1 else 0
  }

  lemma {:induction false} MissingJoin(a: seq<Cell>, b: seq<Cell>, arm: string)
    ensures MissingOf(a + b, arm) == MissingOf(a, arm) + MissingOf(b, arm)
  {
    if b == [] {
      assert a + b == a;
    } else {
      MissingJoin(a, b[..|b| - 1], arm);
      assert (a + b)[..|a + b| - 1] == a + b[..|b| - 1];
    }
  }

  /** The planned cells of one task in one arm that have no row, up to a repetition. */
  ghost predicate Gaps(c: Campaign, arm: string, task: string, n: nat, missing: seq<Cell>) {
    && |missing| == Total(Cells({IsMissing}), Fates(c, arm, task, n))
    && forall cell :: cell in missing <==>
         1 <= cell.rep <= n && cell == Cell(c.model, c.capability, arm, task, cell.rep) && cell !in c.rows
  }

  lemma GapsSnoc(c: Campaign, arm: string, task: string, n: nat, missing: seq<Cell>)
    requires Gaps(c, arm, task, n, missing)
    ensures var cell := Cell(c.model, c.capability, arm, task, n + 1);
            Gaps(c, arm, task, n + 1, if cell in c.rows then missing else missing + [cell])
  {
    OneMore(Cells({IsMissing}), Fates(c, arm, task, n), FateAt(c, arm, task, n + 1));
  }

  /** The loop over the repetitions of one task. */
  method TallyTask(c: Campaign, strata: Strata, arm: string, task: Task) returns (k: Counters, missing: seq<Cell>)
    requires StrataAre(c, strata) && task in c.tasks
    ensures k == CountersOf(InArm(c, arm)(task.id))
    ensures Gaps(c, arm, task.id, c.reps, missing)
  {
    k, missing := Counters(ZERO, 0, 0, []), [];
    var rep := 0;
    while rep < c.reps
      invariant 0 <= rep <= c.reps
      invariant k == CountersOf(Fates(c, arm, task.id, rep))
      invariant Gaps(c, arm, task.id, rep, missing)
    {
      var fate := FateOf(c, strata, arm, task, rep + 1);
      GapsSnoc(c, arm, task.id, rep, missing);
      if fate.Missing? {
        missing := missing + [Cell(c.model, c.capability, arm, task.id, rep + 1)];
      }
      k := CountFate(k, fate, Fates(c, arm, task.id, rep));
      rep := rep + 1;
    }
  }

  method TaskGroup(c: Campaign, strata: Strata, arm: string, task: Task)
    returns (group: Group, k: Counters, missing: seq<Cell>)
    requires StrataAre(c, strata) && task in c.tasks
    ensures k == CountersOf(InArm(c, arm)(task.id)) && group == GroupOf(InArm(c, arm)(task.id))
    ensures Gaps(c, arm, task.id, c.reps, missing)
  {
    k, missing := TallyTask(c, strata, arm, task);
    var minPass, maxPass := FlagRange(k.counted);
    var walls := Walls(k.counted);
    group := Group(k.figures, k.recorded, c.reps, k.excluded, minPass, maxPass, SumOf(walls), Median(walls));
  }

  function TierSet(tiers: seq<Tier>): set<Tier> { set t | t in tiers }

  /** The tier rows and the groups after some of the tasks. */
  ghost predicate TiersAre(rows: map<Tier, TierRow>, present: set<Tier>, f: PerTask, tasks: seq<Task>) {
    rows.Keys == present && forall t :: t in present ==> rows[t] == TierRowOf(Over(f, TierTasks(tasks, t)))
  }

  ghost predicate GroupsAre(groups: map<string, Group>, f: PerTask, tasks: seq<Task>) {
    forall task :: task in tasks ==> task.id in groups && groups[task.id] == GroupOf(f(task.id))
  }

  /** An arm's totals, and a tier's row, with one task's counters added. */
  function TotalsPlus(t: ArmTotals, k: Counters, reps: nat): ArmTotals {
    ArmTotals(Plus(t.figures, k.figures), t.recorded + k.recorded, t.planned + reps, t.excluded + k.excluded,
              t.walls + Walls(k.counted))
  }

  function RowPlus(row: TierRow, k: Counters): TierRow {
    TierRow(Plus(row.figures, k.figures), row.walls + Walls(k.counted))
  }

  lemma TotalsStep(f: PerTask, tasks: seq<Task>, task: Task, more: seq<Task>)
    requires more == tasks + [task]
    ensures TotalsOf(Over(f, more)) == TotalsPlus(TotalsOf(Over(f, tasks)), CountersOf(f(task.id)), |f(task.id)|)
  {
    OverSnoc(f, tasks, task, more);
    TotalsJoin(Over(f, tasks), f(task.id));
  }

  lemma OverSnoc(f: PerTask, tasks: seq<Task>, task: Task, more: seq<Task>)
    requires more == tasks + [task]
    ensures Over(f, more) == Over(f, tasks) + f(task.id)
  {
    assert more[..|more| - 1] == tasks;
  }

  lemma TiersStep(f: PerTask, tasks: seq<Task>, task: Task, more: seq<Task>, rows: map<Tier, TierRow>,
                  present: set<Tier>)
    requires more == tasks + [task]
    requires TiersAre(rows, present, f, tasks) && task.tier in present
    ensures TiersAre(rows[task.tier := RowPlus(rows[task.tier], CountersOf(f(task.id)))], present, f, more)
  {
    var row := RowPlus(rows[task.tier], CountersOf(f(task.id)));
    forall t | t in present
      ensures rows[task.tier := row][t] == TierRowOf(Over(f, TierTasks(more, t)))
    {
      TierTasksGrow(tasks, task, t);
      if t == task.tier {
        OverSnoc(f, TierTasks(tasks, t), task, TierTasks(more, t));
        TierRowJoin(Over(f, TierTasks(tasks, t)), f(task.id));
      } else {
        assert TierTasks(more, t) == TierTasks(tasks, t);
      }
    }
  }

  lemma GroupsStep(f: PerTask, tasks: seq<Task>, task: Task, more: seq<Task>, groups: map<string, Group>)
    requires more == tasks + [task] && GroupsAre(groups, f, tasks)
    requires forall t :: t in tasks ==> t.id != task.id
    ensures GroupsAre(groups[task.id := GroupOf(f(task.id))], f, more)
  {
  }

  function EmptyRows(present: seq<Tier>): map<Tier, TierRow> {
    map t | t in present :: TierRow(ZERO, [])
  }

  datatype ArmReport = ArmReport(groups: map<string, Group>, totals: ArmTotals, tiers: map<Tier, TierRow>)

  ghost predicate ArmReportIs(r: ArmReport, f: PerTask, tasks: seq<Task>, present: set<Tier>) {
    GroupsAre(r.groups, f, tasks) && r.totals == TotalsOf(Over(f, tasks)) && TiersAre(r.tiers, present, f, tasks)
  }

  const NOTHING := ArmTotals(ZERO, 0, 0, 0, [])

  /** What one task adds to the report of its arm. */
  method AddTask(r: ArmReport, task: Task, group: Group, k: Counters, reps: nat,
                 ghost f: PerTask, ghost tasks: seq<Task>, ghost more: seq<Task>, ghost present: set<Tier>)
    returns (next: ArmReport)
    requires more == tasks + [task] && task.tier in present && forall t :: t in tasks ==> t.id != task.id
    requires ArmReportIs(r, f, tasks, present)
    requires group == GroupOf(f(task.id)) && k == CountersOf(f(task.id)) && |f(task.id)| == reps
    ensures ArmReportIs(next, f, more, present)
  {
    TotalsStep(f, tasks, task, more);
    TiersStep(f, tasks, task, more, r.tiers, present);
    GroupsStep(f, tasks, task, more, r.groups);
    next := ArmReport(r.groups[task.id := group], TotalsPlus(r.totals, k, reps),
                      r.tiers[task.tier := RowPlus(r.tiers[task.tier], k)]);
  }

  lemma Prefixes(tasks: seq<Task>, i: nat)
    requires i < |tasks| && forall j, k :: 0 <= j < k < |tasks| ==> tasks[j].id != tasks[k].id
    ensures tasks[..i + 1] == tasks[..i] + [tasks[i]]
    ensures forall t :: t in tasks[..i] ==> t.id != tasks[i].id
  {
  }

  /** A planned cell of the arm that has no row. */
  ghost predicate IsGap(c: Campaign, arm: string, tasks: seq<Task>, cell: Cell) {
    && cell !in c.rows && cell.model == c.model && cell.capability == c.capability && cell.arm == arm
    && 1 <= cell.rep <= c.reps && exists t :: t in tasks && t.id == cell.task
  }

  ghost predicate GapsAre(missing: seq<Cell>, c: Campaign, arm: string, tasks: seq<Task>) {
    && |missing| == Total(Cells({IsMissing}), Over(InArm(c, arm), tasks))
    && forall cell :: cell in missing <==> IsGap(c, arm, tasks, cell)
  }

  lemma GapsStep(missing: seq<Cell>, c: Campaign, arm: string, tasks: seq<Task>, task: Task, gaps: seq<Cell>,
                 more: seq<Task>)
    requires more == tasks + [task] && GapsAre(missing, c, arm, tasks) && Gaps(c, arm, task.id, c.reps, gaps)
    ensures GapsAre(missing + gaps, c, arm, more)
  {
    OverGrows(Cells({IsMissing}), InArm(c, arm), tasks, task, more);
    forall cell: Cell
      ensures cell in missing + gaps <==> IsGap(c, arm, more, cell)
    {
      assert (exists t :: t in more && t.id == cell.task) <==>
             (exists t :: t in tasks && t.id == cell.task) || task.id == cell.task by {
        assert forall t :: t in more <==> t in tasks || t == task;
      }
    }
  }

  /** The loop over the tasks of one arm. */
  method TallyArm(c: Campaign, strata: Strata, arm: string, present: seq<Tier>)
    returns (r: ArmReport, missing: seq<Cell>)
    requires Planned(c) && StrataAre(c, strata) && present == TiersIn(c.tasks, TIERS)
    ensures ArmReportIs(r, InArm(c, arm), c.tasks, TierSet(present))
    ensures GapsAre(missing, c, arm, c.tasks)
  {
    r, missing := ArmReport(map[], NOTHING, EmptyRows(present)), [];
    var i := 0;
    while i < |c.tasks|
      invariant 0 <= i <= |c.tasks|
      invariant ArmReportIs(r, InArm(c, arm), c.tasks[..i], TierSet(present))
      invariant GapsAre(missing, c, arm, c.tasks[..i])
    {
      r, missing := NextTask(c, strata, arm, present, i, r, missing);
      i := i + 1;
    }
    assert c.tasks[..i] == c.tasks;
  }

  method NextTask(c: Campaign, strata: Strata, arm: string, present: seq<Tier>, i: nat, r: ArmReport,
                  missing: seq<Cell>)
    returns (next: ArmReport, all: seq<Cell>)
    requires Planned(c) && StrataAre(c, strata) && present == TiersIn(c.tasks, TIERS) && i < |c.tasks|
    requires ArmReportIs(r, InArm(c, arm), c.tasks[..i], TierSet(present))
    requires GapsAre(missing, c, arm, c.tasks[..i])
    ensures ArmReportIs(next, InArm(c, arm), c.tasks[..i + 1], TierSet(present))
    ensures GapsAre(all, c, arm, c.tasks[..i + 1])
  {
    var group, k, gaps := TaskGroup(c, strata, arm, c.tasks[i]);
    TierIsPresent(c.tasks, i);
    Prefixes(c.tasks, i);
    next := AddTask(r, c.tasks[i], group, k, c.reps, InArm(c, arm), c.tasks[..i], c.tasks[..i + 1], TierSet(present));
    GapsStep(missing, c, arm, c.tasks[..i], c.tasks[i], gaps, c.tasks[..i + 1]);
    all := missing + gaps;
  }

  lemma TierIsPresent(tasks: seq<Task>, i: nat)
    requires i < |tasks|
    ensures tasks[i].tier in TiersIn(tasks, TIERS)
  {
    TiersInIs(tasks, TIERS);
    assert tasks[i].tier in TIERS by {
      assert T0 == TIERS[0] && T1 == TIERS[1] && T2 == TIERS[2] && T3 == TIERS[3] && T4 == TIERS[4];
    }
  }

  datatype Report = Report(arms: map<string, ArmReport>, missing: seq<Cell>, strata: Strata, tiers: seq<Tier>)

  ghost predicate ArmsAre(arms: map<string, ArmReport>, c: Campaign, done: seq<string>, tiers: set<Tier>) {
    forall arm :: arm in done ==> arm in arms && ArmReportIs(arms[arm], InArm(c, arm), c.tasks, tiers)
  }

  function MissingIn(c: Campaign, arm: string): int {
    Total(Cells({IsMissing}), Over(InArm(c, arm), c.tasks))
  }

  ghost predicate MissingAre(missing: seq<Cell>, c: Campaign, done: seq<string>) {
    && (forall arm :: MissingOf(missing, arm) == if arm in done then MissingIn(c, arm) else 0)
    && (forall cell :: cell in missing <==> cell.arm in done && IsGap(c, cell.arm, c.tasks, cell))
  }

  ghost predicate ReportIs(r: Report, c: Campaign) {
    && StrataAre(c, r.strata)
    && r.tiers == TiersIn(c.tasks, TIERS)
    && ArmsAre(r.arms, c, c.arms, TierSet(r.tiers))
    && MissingAre(r.missing, c, c.arms)
  }

  lemma ArmsStep(arms: map<string, ArmReport>, c: Campaign, done: seq<string>, tiers: set<Tier>, arm: string,
                 r: ArmReport, more: seq<string>)
    requires more == done + [arm] && ArmsAre(arms, c, done, tiers)
    requires ArmReportIs(r, InArm(c, arm), c.tasks, tiers)
    ensures ArmsAre(arms[arm := r], c, more, tiers)
  {
  }

  lemma MissingStep(missing: seq<Cell>, c: Campaign, done: seq<string>, arm: string, gaps: seq<Cell>, more: seq<string>)
    requires more == done + [arm] && arm !in done && MissingAre(missing, c, done)
    requires GapsAre(gaps, c, arm, c.tasks)
    ensures MissingAre(missing + gaps, c, more)
  {
    forall a: string
      ensures MissingOf(missing + gaps, a) == if a in more then MissingIn(c, a) else 0
    {
      MissingJoin(missing, gaps, a);
      MissingOfOne(gaps, arm, a);
    }
  }

  lemma {:induction false} MissingOfOne(missing: seq<Cell>, arm: string, other: string)
    requires forall cell :: cell in missing ==> cell.arm == arm
    ensures MissingOf(missing, other) == if other == arm then |missing| else 0
  {
    if missing != [] {
      MissingOfOne(missing[..|missing| - 1], arm, other);
    }
  }

  /** aggregate: the loop over the arms. */
  method Aggregate(c: Campaign) returns (report: Report)
    requires Planned(c)
    ensures ReportIs(report, c) && StrataGiven(report.strata, c)
    ensures forall arm :: arm in c.arms ==> ArmOverRows(report, c, arm)
  {
    var strata := ExcludedStrata(c);
    var present := TiersIn(c.tasks, TIERS);
    var arms: map<string, ArmReport> := map[];
    var missing: seq<Cell> := [];
    var i := 0;
    while i < |c.arms|
      invariant 0 <= i <= |c.arms|
      invariant ArmsAre(arms, c, c.arms[..i], TierSet(present))
      invariant MissingAre(missing, c, c.arms[..i])
    {
      var r, gaps := TallyArm(c, strata, c.arms[i], present);
      ArmsStep(arms, c, c.arms[..i], TierSet(present), c.arms[i], r, c.arms[..i + 1]);
      MissingStep(missing, c, c.arms[..i], c.arms[i], gaps, c.arms[..i + 1]);
      arms, missing := arms[c.arms[i] := r], missing + gaps;
      i := i + 1;
    }
    report := Report(arms, missing, strata, present);
    assert c.arms[..i] == c.arms;
    StrataOverRows(c, strata);
    forall arm | arm in c.arms
      ensures ArmOverRows(report, c, arm)
    {
      ReportOverRows(c, report, arm);
    }
  }

  // ----- What the report adds up to -----

  /** For each arm, planned is recorded and missing, and recorded is scored, timed out and excluded. */
  lemma ArmsConserve(c: Campaign, r: Report, arm: string)
    requires ReportIs(r, c) && arm in c.arms
    ensures var t := r.arms[arm].totals;
            && t.planned == t.recorded + MissingOf(r.missing, arm)
            && t.recorded == t.figures.scored + t.figures.timeouts + t.excluded
            && 0 <= t.figures.passes <= t.figures.scored
  {
    var fates := Over(InArm(c, arm), c.tasks);
    Conservation(fates);
    CountsAreNatural({IsPassed}, fates);
    CountsAreNatural({IsFailed}, fates);
  }

  datatype Column = Passes | ScoredCells | Timeouts | TokenTotal

  function Read(f: Figures, col: Column): int {
    match col
    case Passes => f.passes
    case ScoredCells => f.scored
    case Timeouts => f.timeouts
    case TokenTotal => f.tokens
  }

  function MeasureOf(col: Column): Measure {
    match col
    case Passes => Cells({IsPassed})
    case ScoredCells => Cells(SCORED)
    case Timeouts => Cells({IsTimedOut})
    case TokenTotal => TokenSum
  }

  /** A column added up over the tier rows. */
  function ColumnSum(rows: map<Tier, TierRow>, tiers: seq<Tier>, col: Column): int
    requires forall t :: t in tiers ==> t in rows
  {
    if tiers == [] then 0
    else ColumnSum(rows, tiers[..|tiers| - 1], col) + Read(rows[tiers[|tiers| - 1]].figures, col)
  }

  lemma {:induction false} ColumnSumIs(rows: map<Tier, TierRow>, present: set<Tier>, f: PerTask, tasks: seq<Task>,
                                       tiers: seq<Tier>, col: Column)
    requires TiersAre(rows, present, f, tasks) && forall t :: t in tiers ==> t in present
    ensures ColumnSum(rows, tiers, col) == TierSum(MeasureOf(col), f, tasks, tiers)
    decreases |tiers|
  {
    if tiers != [] {
      ColumnSumIs(rows, present, f, tasks, tiers[..|tiers| - 1], col);
    }
  }

  lemma TiersPresent(tasks: seq<Task>)
    ensures forall t :: t in tasks ==> t.tier in TiersIn(tasks, TIERS)
    ensures var present := TiersIn(tasks, TIERS); forall i, j :: 0 <= i < j < |present| ==> present[i] != present[j]
  {
    TiersInIs(tasks, TIERS);
    forall t | t in tasks
      ensures t.tier in TiersIn(tasks, TIERS)
    {
      var i :| 0 <= i < |tasks| && tasks[i] == t;
      TierIsPresent(tasks, i);
    }
  }

  lemma RowsAddUp(rows: map<Tier, TierRow>, present: seq<Tier>, f: PerTask, tasks: seq<Task>, col: Column)
    requires present == TiersIn(tasks, TIERS) && TiersAre(rows, TierSet(present), f, tasks)
    ensures ColumnSum(rows, present, col) == Total(MeasureOf(col), Over(f, tasks))
  {
    TiersPresent(tasks);
    ColumnSumIs(rows, TierSet(present), f, tasks, present, col);
    TiersAddUp(MeasureOf(col), f, tasks, present);
  }

  /** In every column the tier rows of an arm add up to the arm's total. */
  lemma TierRowsAddUp(c: Campaign, r: Report, arm: string, col: Column)
    requires ReportIs(r, c) && arm in c.arms
    ensures ColumnSum(r.arms[arm].tiers, r.tiers, col) == Read(r.arms[arm].totals.figures, col)
  {
    RowsAddUp(r.arms[arm].tiers, r.tiers, InArm(c, arm), c.tasks, col);
  }

  /** within_noise: whether the two pass ranges overlap. */
  predicate WithinNoise(a: Group, b: Group) {
    !(a.maxPass < b.minPass || b.maxPass < a.minPass)
  }

  /** One passed every scored repetition, of which there was one, and the other passed none. */
  predicate Swept(a: Group, b: Group) {
    a.figures.scored > 0 && a.figures.passes == a.figures.scored && b.figures.passes == 0
  }

  lemma RangeIs(g: Group, fates: seq<Fate>)
    requires g == GroupOf(fates) && Agree(fates)
    ensures g.minPass == 1 <==> g.figures.scored > 0 && g.figures.passes == g.figures.scored
    ensures g.maxPass == 0 <==> g.figures.passes == 0
  {
    RangeCounts(fates);
    Conservation(fates);
    CountsAreNatural({IsPassed}, fates);
    CountsAreNatural({IsFailed}, fates);
  }

  /** Two arms are outside noise on a task exactly when one swept the other. */
  lemma OutsideNoise(c: Campaign, r: Report, task: Task, left: string, right: string)
    requires ReportIs(r, c) && AsScored(c) && task in c.tasks && left in c.arms && right in c.arms
    ensures var a, b := r.arms[left].groups[task.id], r.arms[right].groups[task.id];
            !WithinNoise(a, b) <==> Swept(a, b) || Swept(b, a)
  {
    FatesAgree(c, left, task.id, c.reps);
    FatesAgree(c, right, task.id, c.reps);
    RangeIs(r.arms[left].groups[task.id], InArm(c, left)(task.id));
    RangeIs(r.arms[right].groups[task.id], InArm(c, right)(task.id));
  }

  // ----- The report, over the rows -----

  lemma {:induction false} TierTasksAre(tasks: seq<Task>, tier: Tier)
    ensures forall t :: t in TierTasks(tasks, tier) <==> t in tasks && t.tier == tier
    ensures (forall i, j :: 0 <= i < j < |tasks| ==> tasks[i] != tasks[j]) ==>
              forall i, j :: 0 <= i < j < |TierTasks(tasks, tier)| ==>
                TierTasks(tasks, tier)[i] != TierTasks(tasks, tier)[j]
  {
    if tasks != [] {
      var rest, last := tasks[..|tasks| - 1], tasks[|tasks| - 1];
      TierTasksAre(rest, tier);
      assert forall t :: t in tasks <==> t in rest || t == last;
      assert forall i :: 0 <= i < |rest| ==> rest[i] == tasks[i];
    }
  }

  lemma {:induction false} OverSize(c: Campaign, arm: string, tasks: seq<Task>)
    ensures |Over(InArm(c, arm), tasks)| == |tasks| * c.reps
  {
    if tasks != [] {
      var n := |tasks| - 1;
      OverSize(c, arm, tasks[..n]);
      assert Over(InArm(c, arm), tasks) == Over(InArm(c, arm), tasks[..n]) + Fates(c, arm, tasks[n].id, c.reps);
      assert n * c.reps + c.reps == (n + 1) * c.reps;
    }
  }

  lemma {:induction false} WallsAre(fates: seq<Fate>)
    ensures SumOf(Walls(Rows(fates))) == Total(WallSum, fates)
  {
    if fates != [] {
      var last := fates[|fates| - 1];
      WallsAre(fates[..|fates| - 1]);
      if last.TimedOut? || last.Scored? {
        var before := Rows(fates[..|fates| - 1]);
        assert (before + [last.row])[..|before|] == before;
        assert (Walls(before) + [last.row.wallClockMs])[..|Walls(before)|] == Walls(before);
      } else {
        assert Rows(fates) == Rows(fates[..|fates| - 1]);
      }
    }
  }

  /** These figures are the sums over the rows of the cells of these tasks. */
  ghost predicate FiguresOverRows(f: Figures, c: Campaign, arm: string, tasks: seq<Task>) {
    && f.passes == SumCells(PassedCell(c, arm), tasks, c.reps)
    && f.scored == SumCells(ScoredCell(c, arm), tasks, c.reps)
    && f.timeouts == SumCells(TimedOutCell(c, arm), tasks, c.reps)
    && f.tokens == SumCells(CellTokens(c, arm), tasks, c.reps)
  }

  /** An arm's columns, over all tasks, task by task and tier by tier, are the sums over its cells. */
  ghost predicate ArmOverRows(r: Report, c: Campaign, arm: string) {
    && arm in r.arms
    && (var t := r.arms[arm].totals;
            && FiguresOverRows(t.figures, c, arm, c.tasks)
            && t.planned == |c.tasks| * c.reps
            && t.recorded == SumCells(RecordedCell(c, arm), c.tasks, c.reps)
            && t.excluded == SumCells(ExcludedCell(c, arm), c.tasks, c.reps)
            && SumOf(t.walls) == SumCells(CellWall(c, arm), c.tasks, c.reps))
    && (forall task :: task in c.tasks ==>
              && task.id in r.arms[arm].groups
              && FiguresOverRows(r.arms[arm].groups[task.id].figures, c, arm, [task])
              && r.arms[arm].groups[task.id].excluded == SumCells(ExcludedCell(c, arm), [task], c.reps)
              && r.arms[arm].groups[task.id].wallTotal == SumCells(CellWall(c, arm), [task], c.reps))
    && (forall tier :: tier in r.tiers ==>
              && tier in r.arms[arm].tiers
              && FiguresOverRows(r.arms[arm].tiers[tier].figures, c, arm, TierTasks(c.tasks, tier)))
  }

  /** The strata are those some arm drops, each with the reason of the first arm that does. */
  ghost predicate StrataGiven(strata: Strata, c: Campaign) {
    forall task, rep: nat :: task in c.tasks && 1 <= rep <= c.reps ==>
      && ((task.id, rep) in strata <==> Dropped(c, task.id, rep))
      && ((task.id, rep) in strata ==> ReasonOfFirst(c, c.arms, task.id, rep, strata[(task.id, rep)]))
  }

  /** The report, over the rows themselves. */
  lemma ReportOverRows(c: Campaign, r: Report, arm: string)
    requires ReportIs(r, c) && arm in c.arms
    ensures ArmOverRows(r, c, arm) && StrataGiven(r.strata, c)
  {
    TotalsOverRows(c, arm, c.tasks);
    OverSize(c, arm, c.tasks);
    WallsAre(Over(InArm(c, arm), c.tasks));
    forall task | task in c.tasks
      ensures FiguresOverRows(r.arms[arm].groups[task.id].figures, c, arm, [task])
      ensures r.arms[arm].groups[task.id].excluded == SumCells(ExcludedCell(c, arm), [task], c.reps)
      ensures r.arms[arm].groups[task.id].wallTotal == SumCells(CellWall(c, arm), [task], c.reps)
    {
      TotalsOverRows(c, arm, [task]);
      WallsAre(InArm(c, arm)(task.id));
      OnlyTask(InArm(c, arm), task);
    }
    forall tier | tier in r.tiers
      ensures FiguresOverRows(r.arms[arm].tiers[tier].figures, c, arm, TierTasks(c.tasks, tier))
    {
      TotalsOverRows(c, arm, TierTasks(c.tasks, tier));
    }
    StrataOverRows(c, r.strata);
  }

  lemma OnlyTask(f: PerTask, task: Task)
    ensures Over(f, [task]) == f(task.id)
  {
    assert Over(f, []) + f(task.id) == f(task.id);
  }

  lemma StrataOverRows(c: Campaign, strata: Strata)
    requires StrataAre(c, strata)
    ensures StrataGiven(strata, c)
  {
    forall task, rep: nat | task in c.tasks && 1 <= rep <= c.reps
      ensures (task.id, rep) in strata <==> Dropped(c, task.id, rep)
      ensures (task.id, rep) in strata ==> ReasonOfFirst(c, c.arms, task.id, rep, strata[(task.id, rep)])
    {
      StratumOverRows(c, c.arms, task.id, rep);
    }
  }
}
