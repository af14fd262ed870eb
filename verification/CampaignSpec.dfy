/** scripts/conductor_bench.py: what becomes of every planned cell of a campaign, and what is counted of it. */
module CampaignSpec {
  import opened Wrappers

  datatype Outcome = Pass | Fail | Timeout | HarnessError
  datatype Tier = T0 | T1 | T2 | T3 | T4
  datatype Reason = HarnessFault | PluginAbsent

  const TIERS: seq<Tier> := [T0, T1, T2, T3, T4]

  datatype Row = Row(outcome: Outcome, passed: bool, pluginAbsent: bool, wallClockMs: int, tokens: Option<int>)
  datatype Cell = Cell(model: string, capability: string, arm: string, task: string, rep: nat)
  datatype Task = Task(id: string, tier: Tier)

  /** One model at one capability, over the recorded rows by cell. */
  datatype Campaign = Campaign(rows: map<Cell, Row>, model: string, capability: string,
                               arms: seq<string>, tasks: seq<Task>, reps: nat)

  /** Task ids are unique in a manifest, and an arm is compared once. */
  ghost predicate Planned(c: Campaign) {
    && (forall i, j :: 0 <= i < j < |c.tasks| ==> c.tasks[i].id != c.tasks[j].id)
    && (forall i, j :: 0 <= i < j < |c.arms| ==> c.arms[i] != c.arms[j])
  }

  // ----- One row -----

  datatype Score = Score(passed: bool, outcome: Outcome, exitCode: Option<int>)

  /** score_cell: the exit status, unless the harness, the spawn or the clock ended the cell. */
  function ScoreCell(exitCode: Option<int>, timedOut: bool, spawnError: bool, harnessFault: bool): (s: Score)
    ensures s.passed <==> s.outcome == Pass
    ensures s.outcome == Pass <==> exitCode == Some(0) && !timedOut && !spawnError && !harnessFault
    ensures s.outcome == HarnessError <==> harnessFault || spawnError
    ensures s.outcome == Timeout <==> timedOut && !spawnError && !harnessFault
    ensures s.exitCode == exitCode
  {
    if harnessFault || spawnError then Score(false, HarnessError, exitCode)
    else if timedOut then Score(false, Timeout, exitCode)
    else if exitCode == Some(0) then Score(true, Pass, Some(0))
    else Score(false, Fail, exitCode)
  }

  function ExclusionReason(row: Row): Option<Reason> {
    if row.outcome == HarnessError then Some(HarnessFault)
    else if row.pluginAbsent then Some(PluginAbsent)
    else None
  }

  // ----- What becomes of a cell -----

  function RowAt(c: Campaign, arm: string, task: string, rep: nat): Option<Row> {
    var cell := Cell(c.model, c.capability, arm, task, rep);
    if cell in c.rows then Some(c.rows[cell]) else None
  }

  function ReasonAt(c: Campaign, arm: string, task: string, rep: nat): Option<Reason> {
    match RowAt(c, arm, task, rep)
    case Some(row) => ExclusionReason(row)
    case None => None
  }

  /** Why the stratum of one task and repetition is excluded: the reason of the first of the arms that has one. */
  function Stratum(c: Campaign, arms: seq<string>, task: string, rep: nat): Option<Reason> {
    if arms == [] then None
    else
      var earlier := Stratum(c, arms[..|arms| - 1], task, rep);
      if earlier.Some? then earlier else ReasonAt(c, arms[|arms| - 1], task, rep)
  }

  datatype Fate = Missing | Excluded(reason: Reason) | TimedOut(row: Row) | Scored(row: Row)

  function FateAt(c: Campaign, arm: string, task: string, rep: nat): Fate {
    match RowAt(c, arm, task, rep)
    case None => Missing
    case Some(row) =>
      var stratum := Stratum(c, c.arms, task, rep);
      if stratum.Some? then Excluded(stratum.value)
      else if row.outcome == Timeout then TimedOut(row)
      else Scored(row)
  }

  /** The fates of the first n repetitions of one task in one arm. */
  function Fates(c: Campaign, arm: string, task: string, n: nat): (fates: seq<Fate>)
    ensures |fates| == n
  {
    if n == 0 then [] else Fates(c, arm, task, n - 1) + [FateAt(c, arm, task, n)]
  }

  /** What an arm has for each task. */
  type PerTask = string -> seq<Fate>

  function InArm(c: Campaign, arm: string): PerTask {
    (task: string) => Fates(c, arm, task, c.reps)
  }

  /** The fates over the given tasks, task by task. */
  function Over(of: PerTask, tasks: seq<Task>): seq<Fate> {
    if tasks == [] then [] else Over(of, tasks[..|tasks| - 1]) + of(tasks[|tasks| - 1].id)
  }

  function TierTasks(tasks: seq<Task>, tier: Tier): seq<Task> {
    if tasks == [] then []
    else
      var last := tasks[|tasks| - 1];
      TierTasks(tasks[..|tasks| - 1], tier) + if last.tier == tier then [last] else []
  }

  /** The tiers that have a task, in their order. */
  function TiersIn(tasks: seq<Task>, tiers: seq<Tier>): seq<Tier> {
    if tiers == [] then []
    else
      var last := tiers[|tiers| - 1];
      TiersIn(tasks, tiers[..|tiers| - 1]) + if exists t :: t in tasks && t.tier == last then [last] else []
  }

  // ----- What is counted -----

  datatype Kind = IsMissing | IsExcluded | IsTimedOut | IsPassed | IsFailed

  function KindOf(f: Fate): Kind {
    match f
    case Missing => IsMissing
    case Excluded(_) => IsExcluded
    case TimedOut(_) => IsTimedOut
    case Scored(row) => if row.passed then IsPassed else IsFailed
  }

  const RECORDED: set<Kind> := {IsExcluded, IsTimedOut, IsPassed, IsFailed}
  const SCORED: set<Kind> := {IsPassed, IsFailed}

  function TokensOf(f: Fate): int {
    if (f.TimedOut? || f.Scored?) && f.row.tokens.Some? then f.row.tokens.value else 0
  }

  /** What is added up: the cells of some kinds, or the tokens or the time they took. */
  datatype Measure = Cells(kinds: set<Kind>) | TokenSum | WallSum

  function Weight(m: Measure, f: Fate): int {
    match m
    case Cells(kinds) => if KindOf(f) in kinds then 1 else 0
    case TokenSum => TokensOf(f)
    case WallSum => if f.TimedOut? || f.Scored? then f.row.wallClockMs else 0
  }

  function Total(m: Measure, fates: seq<Fate>): int {
    if fates == [] then 0 else Total(m, fates[..|fates| - 1]) + Weight(m, fates[|fates| - 1])
  }

  /** The rows that count, those that timed out included. */
  function Rows(fates: seq<Fate>): seq<Row> {
    if fates == [] then []
    else
      var last := fates[|fates| - 1];
      Rows(fates[..|fates| - 1]) + if last.TimedOut? || last.Scored? then [last.row] else []
  }

  // ----- Laws of counting -----

  lemma {:induction false} TotalSplit(a: set<Kind>, b: set<Kind>, fates: seq<Fate>)
    requires a !! b
    ensures Total(Cells(a + b), fates) == Total(Cells(a), fates) + Total(Cells(b), fates)
  {
    if fates != [] {
      TotalSplit(a, b, fates[..|fates| - 1]);
    }
  }

  lemma {:induction false} TotalJoin(m: Measure, a: seq<Fate>, b: seq<Fate>)
    ensures Total(m, a + b) == Total(m, a) + Total(m, b)
  {
    if b == [] {
      assert a + b == a;
    } else {
      TotalJoin(m, a, b[..|b| - 1]);
      assert (a + b)[..|a + b| - 1] == a + b[..|b| - 1];
    }
  }

  lemma {:induction false} RowsJoin(a: seq<Fate>, b: seq<Fate>)
    ensures Rows(a + b) == Rows(a) + Rows(b)
  {
    if b == [] {
      assert a + b == a;
    } else {
      RowsJoin(a, b[..|b| - 1]);
      assert (a + b)[..|a + b| - 1] == a + b[..|b| - 1];
    }
  }

  lemma {:induction false} EveryFateCounts(fates: seq<Fate>)
    ensures Total(Cells({IsMissing} + RECORDED), fates) == |fates|
  {
    if fates != [] {
      EveryFateCounts(fates[..|fates| - 1]);
    }
  }

  lemma {:induction false} CountsAreNatural(kinds: set<Kind>, fates: seq<Fate>)
    ensures Total(Cells(kinds), fates) >= 0
  {
    if fates != [] {
      CountsAreNatural(kinds, fates[..|fates| - 1]);
    }
  }

  /** Planned is recorded and missing; recorded is scored, timed out and excluded. */
  lemma Conservation(fates: seq<Fate>)
    ensures |fates| == Total(Cells(RECORDED), fates) + Total(Cells({IsMissing}), fates)
    ensures Total(Cells(RECORDED), fates) ==
            Total(Cells(SCORED), fates) + Total(Cells({IsTimedOut}), fates) + Total(Cells({IsExcluded}), fates)
    ensures Total(Cells({IsPassed}), fates) + Total(Cells({IsFailed}), fates) == Total(Cells(SCORED), fates)
  {
    EveryFateCounts(fates);
    TotalSplit({IsMissing}, RECORDED, fates);
    TotalSplit(SCORED, {IsTimedOut}, fates);
    TotalSplit(SCORED + {IsTimedOut}, {IsExcluded}, fates);
    TotalSplit({IsPassed}, {IsFailed}, fates);
    assert RECORDED == SCORED + {IsTimedOut} + {IsExcluded};
    assert SCORED == {IsPassed} + {IsFailed};
  }

  // ----- The strata -----

  lemma {:induction false} StratumIs(c: Campaign, arms: seq<string>, task: string, rep: nat)
    ensures Stratum(c, arms, task, rep).Some? <==> exists arm :: arm in arms && ReasonAt(c, arm, task, rep).Some?
    ensures Stratum(c, arms, task, rep).Some? ==>
            exists arm :: arm in arms && ReasonAt(c, arm, task, rep) == Stratum(c, arms, task, rep)
  {
    if arms != [] {
      var last := |arms| - 1;
      StratumIs(c, arms[..last], task, rep);
      assert forall arm :: arm in arms <==> arm in arms[..last] || arm == arms[last];
    }
  }

  // ----- The same, over the rows -----

  ghost predicate Recorded(c: Campaign, arm: string, task: string, rep: nat) {
    Cell(c.model, c.capability, arm, task, rep) in c.rows
  }

  ghost function RowOf(c: Campaign, arm: string, task: string, rep: nat): Row
    requires Recorded(c, arm, task, rep)
  {
    c.rows[Cell(c.model, c.capability, arm, task, rep)]
  }

  /** The arm's row takes its stratum out: the harness failed, or nothing gated the session. */
  ghost predicate Drops(c: Campaign, arm: string, task: string, rep: nat) {
    Recorded(c, arm, task, rep)
    && (RowOf(c, arm, task, rep).outcome == HarnessError || RowOf(c, arm, task, rep).pluginAbsent)
  }

  ghost predicate Dropped(c: Campaign, task: string, rep: nat) {
    exists arm :: arm in c.arms && Drops(c, arm, task, rep)
  }

  lemma ReasonIs(c: Campaign, arm: string, task: string, rep: nat)
    ensures ReasonAt(c, arm, task, rep).Some? <==> Drops(c, arm, task, rep)
    ensures Drops(c, arm, task, rep) ==>
              (ReasonAt(c, arm, task, rep) == Some(HarnessFault) <==> RowOf(c, arm, task, rep).outcome == HarnessError)
  {
  }

  /** The reason is that of the first arm that drops the stratum. */
  ghost predicate ReasonOfFirst(c: Campaign, arms: seq<string>, task: string, rep: nat, reason: Reason) {
    exists k :: 0 <= k < |arms| && Drops(c, arms[k], task, rep)
                && (forall j :: 0 <= j < k ==> !Drops(c, arms[j], task, rep))
                && (reason == HarnessFault <==> RowOf(c, arms[k], task, rep).outcome == HarnessError)
  }

  lemma FirstStays(c: Campaign, arms: seq<string>, arm: string, task: string, rep: nat, reason: Reason)
    requires ReasonOfFirst(c, arms, task, rep, reason)
    ensures ReasonOfFirst(c, arms + [arm], task, rep, reason)
  {
    var k :| 0 <= k < |arms| && Drops(c, arms[k], task, rep)
             && (forall j :: 0 <= j < k ==> !Drops(c, arms[j], task, rep))
             && (reason == HarnessFault <==> RowOf(c, arms[k], task, rep).outcome == HarnessError);
    assert (arms + [arm])[k] == arms[k];
  }

  lemma FirstIsLast(c: Campaign, arms: seq<string>, arm: string, task: string, rep: nat)
    requires (forall a :: a in arms ==> !Drops(c, a, task, rep)) && Drops(c, arm, task, rep)
    ensures ReasonAt(c, arm, task, rep).Some?
    ensures ReasonOfFirst(c, arms + [arm], task, rep, ReasonAt(c, arm, task, rep).value)
  {
    assert (arms + [arm])[|arms|] == arm;
    assert forall j :: 0 <= j < |arms| ==> (arms + [arm])[j] in arms;
  }

  lemma {:induction false} StratumOverRows(c: Campaign, arms: seq<string>, task: string, rep: nat)
    ensures Stratum(c, arms, task, rep).Some? <==> exists arm :: arm in arms && Drops(c, arm, task, rep)
    ensures Stratum(c, arms, task, rep).Some? ==> ReasonOfFirst(c, arms, task, rep, Stratum(c, arms, task, rep).value)
    decreases |arms|
  {
    if arms != [] {
      var rest, last := arms[..|arms| - 1], arms[|arms| - 1];
      assert arms == rest + [last];
      StratumOverRows(c, rest, task, rep);
      ReasonIs(c, last, task, rep);
      if Stratum(c, rest, task, rep).Some? {
        FirstStays(c, rest, last, task, rep, Stratum(c, rest, task, rep).value);
      } else if Drops(c, last, task, rep) {
        FirstIsLast(c, rest, last, task, rep);
      }
    }
  }

  /**
   What becomes of a cell: one whose stratum some arm drops is excluded, with every other arm's cell there; any other
   recorded one is a timeout or counts, by its own row.
   */
  lemma FatesOverRows(c: Campaign, arm: string, task: string, rep: nat)
    ensures var f := FateAt(c, arm, task, rep);
            && (f.Missing? <==> !Recorded(c, arm, task, rep))
            && (f.Excluded? <==> Recorded(c, arm, task, rep) && Dropped(c, task, rep))
            && (f.Excluded? ==> ReasonOfFirst(c, c.arms, task, rep, f.reason))
            && (Recorded(c, arm, task, rep) && !Dropped(c, task, rep) ==>
                  f == if RowOf(c, arm, task, rep).outcome == Timeout then TimedOut(RowOf(c, arm, task, rep))
                       else Scored(RowOf(c, arm, task, rep)))
  {
    StratumOverRows(c, c.arms, task, rep);
  }

  /** The sum over the cells of one task, and over those of some tasks. */
  ghost function SumReps(w: (string, nat) -> int, task: string, n: nat): int {
    if n == 0 then 0 else SumReps(w, task, n - 1) + w(task, n)
  }

  ghost function SumCells(w: (string, nat) -> int, tasks: seq<Task>, reps: nat): int {
    if tasks == [] then 0 else SumReps(w, tasks[0].id, reps) + SumCells(w, tasks[1..], reps)
  }

  /** The measure of a cell is given by its coordinates. */
  ghost predicate Weighs(c: Campaign, arm: string, m: Measure, w: (string, nat) -> int) {
    forall task, rep: nat :: Weight(m, FateAt(c, arm, task, rep)) == w(task, rep)
  }

  lemma {:induction false} TotalOfTask(c: Campaign, arm: string, m: Measure, w: (string, nat) -> int, task: string,
                                       n: nat)
    requires Weighs(c, arm, m, w)
    ensures Total(m, Fates(c, arm, task, n)) == SumReps(w, task, n)
    decreases n
  {
    if n > 0 {
      TotalOfTask(c, arm, m, w, task, n - 1);
      OneMore(m, Fates(c, arm, task, n - 1), FateAt(c, arm, task, n));
    }
  }

  lemma {:induction false} SumCellsSnoc(w: (string, nat) -> int, tasks: seq<Task>, task: Task, reps: nat)
    ensures SumCells(w, tasks + [task], reps) == SumCells(w, tasks, reps) + SumReps(w, task.id, reps)
    decreases |tasks|
  {
    if tasks == [] {
      assert [task][1..] == [];
    } else {
      assert (tasks + [task])[1..] == tasks[1..] + [task];
      SumCellsSnoc(w, tasks[1..], task, reps);
    }
  }

  lemma {:induction false} TotalOfTasks(c: Campaign, arm: string, m: Measure, w: (string, nat) -> int, tasks: seq<Task>)
    requires Weighs(c, arm, m, w)
    ensures Total(m, Over(InArm(c, arm), tasks)) == SumCells(w, tasks, c.reps)
    decreases |tasks|
  {
    if tasks != [] {
      var rest, task := tasks[..|tasks| - 1], tasks[|tasks| - 1];
      TotalOfTasks(c, arm, m, w, rest);
      TotalOfTask(c, arm, m, w, task.id, c.reps);
      OverGrows(m, InArm(c, arm), rest, task, tasks);
      assert tasks == rest + [task];
      SumCellsSnoc(w, rest, task, c.reps);
    }
  }

  /** A cell that counts: recorded, and its stratum kept by every arm. */
  ghost predicate Counts(c: Campaign, arm: string, task: string, rep: nat) {
    Recorded(c, arm, task, rep) && !Dropped(c, task, rep)
  }

  ghost function One(holds: bool): int { if holds then 1 else 0 }

  ghost function ExcludedCell(c: Campaign, arm: string): (string, nat) -> int {
    (task: string, rep: nat) => One(Recorded(c, arm, task, rep) && Dropped(c, task, rep))
  }

  ghost function RecordedCell(c: Campaign, arm: string): (string, nat) -> int {
    (task: string, rep: nat) => One(Recorded(c, arm, task, rep))
  }

  ghost function TimedOutCell(c: Campaign, arm: string): (string, nat) -> int {
    (task: string, rep: nat) => One(Counts(c, arm, task, rep) && RowOf(c, arm, task, rep).outcome == Timeout)
  }

  ghost function ScoredCell(c: Campaign, arm: string): (string, nat) -> int {
    (task: string, rep: nat) => One(Counts(c, arm, task, rep) && RowOf(c, arm, task, rep).outcome != Timeout)
  }

  ghost function PassedCell(c: Campaign, arm: string): (string, nat) -> int {
    (task: string, rep: nat) => One(Counts(c, arm, task, rep) && RowOf(c, arm, task, rep).outcome != Timeout
                                    && RowOf(c, arm, task, rep).passed)
  }

  /** The tokens of a cell that counts, a timeout's too, where they were measured. */
  ghost function CellTokens(c: Campaign, arm: string): (string, nat) -> int {
    (task: string, rep: nat) =>
      if Counts(c, arm, task, rep) && RowOf(c, arm, task, rep).tokens.Some? then RowOf(c, arm, task, rep).tokens.value
      else 0
  }

  ghost function CellWall(c: Campaign, arm: string): (string, nat) -> int {
    (task: string, rep: nat) =>
      if Counts(c, arm, task, rep) then RowOf(c, arm, task, rep).wallClockMs else 0
  }

  /** Every column of an arm over some tasks is the sum over the cells of the rows themselves. */
  lemma TotalsOverRows(c: Campaign, arm: string, tasks: seq<Task>)
    ensures var fates := Over(InArm(c, arm), tasks);
            && Total(Cells({IsExcluded}), fates) == SumCells(ExcludedCell(c, arm), tasks, c.reps)
            && Total(Cells(RECORDED), fates) == SumCells(RecordedCell(c, arm), tasks, c.reps)
            && Total(Cells({IsTimedOut}), fates) == SumCells(TimedOutCell(c, arm), tasks, c.reps)
            && Total(Cells(SCORED), fates) == SumCells(ScoredCell(c, arm), tasks, c.reps)
            && Total(Cells({IsPassed}), fates) == SumCells(PassedCell(c, arm), tasks, c.reps)
            && Total(TokenSum, fates) == SumCells(CellTokens(c, arm), tasks, c.reps)
            && Total(WallSum, fates) == SumCells(CellWall(c, arm), tasks, c.reps)
  {
    WeightsAre(c, arm);
    TotalOfTasks(c, arm, Cells({IsExcluded}), ExcludedCell(c, arm), tasks);
    TotalOfTasks(c, arm, Cells(RECORDED), RecordedCell(c, arm), tasks);
    TotalOfTasks(c, arm, Cells({IsTimedOut}), TimedOutCell(c, arm), tasks);
    TotalOfTasks(c, arm, Cells(SCORED), ScoredCell(c, arm), tasks);
    TotalOfTasks(c, arm, Cells({IsPassed}), PassedCell(c, arm), tasks);
    TotalOfTasks(c, arm, TokenSum, CellTokens(c, arm), tasks);
    TotalOfTasks(c, arm, WallSum, CellWall(c, arm), tasks);
  }

  lemma WeightsAre(c: Campaign, arm: string)
    ensures Weighs(c, arm, Cells({IsExcluded}), ExcludedCell(c, arm))
    ensures Weighs(c, arm, Cells(RECORDED), RecordedCell(c, arm))
    ensures Weighs(c, arm, Cells({IsTimedOut}), TimedOutCell(c, arm))
    ensures Weighs(c, arm, Cells(SCORED), ScoredCell(c, arm))
    ensures Weighs(c, arm, Cells({IsPassed}), PassedCell(c, arm))
    ensures Weighs(c, arm, TokenSum, CellTokens(c, arm))
    ensures Weighs(c, arm, WallSum, CellWall(c, arm))
  {
    forall task, rep: nat
      ensures var f := FateAt(c, arm, task, rep);
              && Weight(Cells({IsExcluded}), f) == ExcludedCell(c, arm)(task, rep)
              && Weight(Cells(RECORDED), f) == RecordedCell(c, arm)(task, rep)
              && Weight(Cells({IsTimedOut}), f) == TimedOutCell(c, arm)(task, rep)
              && Weight(Cells(SCORED), f) == ScoredCell(c, arm)(task, rep)
              && Weight(Cells({IsPassed}), f) == PassedCell(c, arm)(task, rep)
              && Weight(TokenSum, f) == CellTokens(c, arm)(task, rep)
              && Weight(WallSum, f) == CellWall(c, arm)(task, rep)
    {
      FatesOverRows(c, arm, task, rep);
    }
  }

  /** One excluded cell takes every recorded arm's cell of its task and repetition with it, and nothing else does. */
  lemma ExclusionIsByStratum(c: Campaign, arm: string, task: string, rep: nat)
    ensures var cell := Cell(c.model, c.capability, arm, task, rep);
            FateAt(c, arm, task, rep).Excluded? <==>
              cell in c.rows
              && exists other :: other in c.arms && cell.(arm := other) in c.rows
                   && (c.rows[cell.(arm := other)].outcome == HarnessError || c.rows[cell.(arm := other)].pluginAbsent)
    ensures FateAt(c, arm, task, rep).Scored? && arm in c.arms ==>
            FateAt(c, arm, task, rep).row.outcome in {Pass, Fail}
  {
    FatesOverRows(c, arm, task, rep);
    var cell := Cell(c.model, c.capability, arm, task, rep);
    assert forall other :: cell.(arm := other) == Cell(c.model, c.capability, other, task, rep);
    if Dropped(c, task, rep) {
      var other :| other in c.arms && Drops(c, other, task, rep);
      assert cell.(arm := other) in c.rows;
    }
    if other :| other in c.arms && cell.(arm := other) in c.rows
                && (c.rows[cell.(arm := other)].outcome == HarnessError || c.rows[cell.(arm := other)].pluginAbsent) {
      assert Drops(c, other, task, rep);
    }
  }

  lemma {:induction false} OverAlike(m: Measure, f: PerTask, g: PerTask, tasks: seq<Task>)
    requires forall task :: Total(m, f(task)) == Total(m, g(task)) && Rows(f(task)) == Rows(g(task))
    ensures Total(m, Over(f, tasks)) == Total(m, Over(g, tasks)) && Rows(Over(f, tasks)) == Rows(Over(g, tasks))
  {
    if tasks != [] {
      var rest, last := tasks[..|tasks| - 1], tasks[|tasks| - 1].id;
      OverAlike(m, f, g, rest);
      TotalJoin(m, Over(f, rest), f(last));
      TotalJoin(m, Over(g, rest), g(last));
      RowsJoin(Over(f, rest), f(last));
      RowsJoin(Over(g, rest), g(last));
    }
  }

  /** The order of the arms decides which reason is given, not which cells are excluded nor any total. */
  lemma OrderOfArmsIrrelevant(c: Campaign, arms: seq<string>, m: Measure, arm: string, tasks: seq<Task>)
    requires forall a :: a in arms <==> a in c.arms
    ensures Total(m, Over(InArm(c.(arms := arms), arm), tasks)) == Total(m, Over(InArm(c, arm), tasks))
    ensures Rows(Over(InArm(c.(arms := arms), arm), tasks)) == Rows(Over(InArm(c, arm), tasks))
  {
    var d := c.(arms := arms);
    forall task: string
      ensures Total(m, InArm(d, arm)(task)) == Total(m, InArm(c, arm)(task))
      ensures Rows(InArm(d, arm)(task)) == Rows(InArm(c, arm)(task))
    {
      SameFates(c, d, m, arm, task, c.reps);
    }
    OverAlike(m, InArm(d, arm), InArm(c, arm), tasks);
  }

  lemma {:induction false} SameFates(c: Campaign, d: Campaign, m: Measure, arm: string, task: string, n: nat)
    requires d == c.(arms := d.arms) && forall a :: a in d.arms <==> a in c.arms
    ensures Total(m, Fates(d, arm, task, n)) == Total(m, Fates(c, arm, task, n))
    ensures Rows(Fates(d, arm, task, n)) == Rows(Fates(c, arm, task, n))
    decreases n
  {
    if n > 0 {
      SameFates(c, d, m, arm, task, n - 1);
      SameFate(c, d, arm, task, n);
      BothOneMore(m, Fates(c, arm, task, n - 1), Fates(d, arm, task, n - 1), FateAt(c, arm, task, n),
                  FateAt(d, arm, task, n));
    }
  }

  lemma OneMore(m: Measure, fates: seq<Fate>, f: Fate)
    ensures Total(m, fates + [f]) == Total(m, fates) + Weight(m, f)
    ensures Rows(fates + [f]) == Rows(fates) + if f.TimedOut? || f.Scored? then [f.row] else []
  {
    assert (fates + [f])[..|fates|] == fates;
  }

  lemma BothOneMore(m: Measure, a: seq<Fate>, b: seq<Fate>, x: Fate, y: Fate)
    requires Total(m, a) == Total(m, b) && Rows(a) == Rows(b)
    requires x == y || (x.Excluded? && y.Excluded?)
    ensures Total(m, a + [x]) == Total(m, b + [y]) && Rows(a + [x]) == Rows(b + [y])
  {
    OneMore(m, a, x);
    OneMore(m, b, y);
  }

  lemma SameFate(c: Campaign, d: Campaign, arm: string, task: string, rep: nat)
    requires d == c.(arms := d.arms) && forall a :: a in d.arms <==> a in c.arms
    ensures var f, g := FateAt(c, arm, task, rep), FateAt(d, arm, task, rep); f == g || (f.Excluded? && g.Excluded?)
  {
    SameReasons(c, d, c.arms, task, rep);
    SameReasons(c, d, d.arms, task, rep);
    StratumIs(c, c.arms, task, rep);
    StratumIs(c, d.arms, task, rep);
  }

  lemma {:induction false} SameReasons(c: Campaign, d: Campaign, arms: seq<string>, task: string, rep: nat)
    requires d == c.(arms := d.arms)
    ensures Stratum(d, arms, task, rep) == Stratum(c, arms, task, rep)
    decreases |arms|
  {
    if arms != [] {
      SameReasons(c, d, arms[..|arms| - 1], task, rep);
    }
  }

  // ----- Tiers -----

  lemma TierGrows(m: Measure, f: PerTask, tasks: seq<Task>, task: Task, more: seq<Task>, tier: Tier)
    requires more == tasks + [task]
    ensures Total(m, Over(f, TierTasks(more, tier))) ==
            Total(m, Over(f, TierTasks(tasks, tier))) +
            if task.tier == tier then Total(m, f(task.id)) else 0
  {
    var before := TierTasks(tasks, tier);
    TierTasksGrow(tasks, task, tier);
    if task.tier == tier {
      OverGrows(m, f, before, task, before + [task]);
    } else {
      assert TierTasks(more, tier) == before;
    }
  }

  lemma TierTasksGrow(tasks: seq<Task>, task: Task, tier: Tier)
    ensures TierTasks(tasks + [task], tier) == TierTasks(tasks, tier) + if task.tier == tier then [task] else []
  {
    assert (tasks + [task])[..|tasks|] == tasks;
  }

  lemma OverGrows(m: Measure, f: PerTask, tasks: seq<Task>, task: Task, more: seq<Task>)
    requires more == tasks + [task]
    ensures Total(m, Over(f, more)) == Total(m, Over(f, tasks)) + Total(m, f(task.id))
  {
    assert more[..|more| - 1] == tasks;
    TotalJoin(m, Over(f, tasks), f(task.id));
  }

  /** The totals of the given tiers, added up. */
  function TierSum(m: Measure, f: PerTask, tasks: seq<Task>, tiers: seq<Tier>): int {
    if tiers == [] then 0
    else TierSum(m, f, tasks, tiers[..|tiers| - 1]) + Total(m, Over(f, TierTasks(tasks, tiers[|tiers| - 1])))
  }

  /** One more task adds its total to its own tier and to no other. */
  lemma {:induction false} TierSumGrows(m: Measure, f: PerTask, tasks: seq<Task>, task: Task, more: seq<Task>,
                                        tiers: seq<Tier>)
    requires more == tasks + [task]
    requires forall i, j :: 0 <= i < j < |tiers| ==> tiers[i] != tiers[j]
    ensures TierSum(m, f, more, tiers) ==
            TierSum(m, f, tasks, tiers) + if task.tier in tiers then Total(m, f(task.id)) else 0
    decreases |tiers|
  {
    if tiers != [] {
      var rest, last := tiers[..|tiers| - 1], tiers[|tiers| - 1];
      TierSumGrows(m, f, tasks, task, more, rest);
      TierGrows(m, f, tasks, task, more, last);
      assert task.tier in tiers <==> task.tier in rest || task.tier == last;
    }
  }

  lemma {:induction false} TierSumEmpty(m: Measure, f: PerTask, tiers: seq<Tier>)
    ensures TierSum(m, f, [], tiers) == 0
    decreases |tiers|
  {
    if tiers != [] {
      TierSumEmpty(m, f, tiers[..|tiers| - 1]);
    }
  }

  /** The tiers' totals add up to the arm's, whatever is totalled. */
  lemma {:induction false} TiersAddUp(m: Measure, f: PerTask, tasks: seq<Task>, tiers: seq<Tier>)
    requires forall i, j :: 0 <= i < j < |tiers| ==> tiers[i] != tiers[j]
    requires forall t :: t in tasks ==> t.tier in tiers
    ensures TierSum(m, f, tasks, tiers) == Total(m, Over(f, tasks))
    decreases |tasks|
  {
    if tasks == [] {
      TierSumEmpty(m, f, tiers);
    } else {
      var rest, task := tasks[..|tasks| - 1], tasks[|tasks| - 1];
      assert tasks == rest + [task];
      TiersAddUp(m, f, rest, tiers);
      TiersAddUpWith(m, f, rest, task, tasks, tiers);
    }
  }

  lemma TiersAddUpWith(m: Measure, f: PerTask, tasks: seq<Task>, task: Task, more: seq<Task>, tiers: seq<Tier>)
    requires forall i, j :: 0 <= i < j < |tiers| ==> tiers[i] != tiers[j]
    requires more == tasks + [task] && task.tier in tiers
    requires TierSum(m, f, tasks, tiers) == Total(m, Over(f, tasks))
    ensures TierSum(m, f, more, tiers) == Total(m, Over(f, more))
  {
    TierSumGrows(m, f, tasks, task, more, tiers);
    OverGrows(m, f, tasks, task, more);
  }

  lemma {:induction false} TiersInIs(tasks: seq<Task>, tiers: seq<Tier>)
    requires forall i, j :: 0 <= i < j < |tiers| ==> tiers[i] != tiers[j]
    ensures forall t :: t in TiersIn(tasks, tiers) <==> t in tiers && exists task :: task in tasks && task.tier == t
    ensures forall i, j :: 0 <= i < j < |TiersIn(tasks, tiers)| ==> TiersIn(tasks, tiers)[i] != TiersIn(tasks, tiers)[j]
    decreases |tiers|
  {
    if tiers != [] {
      var rest, last := tiers[..|tiers| - 1], tiers[|tiers| - 1];
      TiersInIs(tasks, rest);
      assert forall t :: t in tiers <==> t in rest || t == last;
      assert last !in rest;
      assert last !in TiersIn(tasks, rest);
    }
  }

  // ----- Separability -----

  /** The rows are as score_cell wrote them. */
  ghost predicate AsScored(c: Campaign) {
    forall cell :: cell in c.rows ==> (c.rows[cell].passed <==> c.rows[cell].outcome == Pass)
  }

  ghost predicate Agree(fates: seq<Fate>) {
    forall f :: f in fates ==>
      && (f.Scored? ==> f.row.outcome != Timeout && (f.row.passed <==> f.row.outcome == Pass))
      && (f.TimedOut? ==> f.row.outcome == Timeout)
  }

  lemma {:induction false} FatesAgree(c: Campaign, arm: string, task: string, n: nat)
    requires AsScored(c)
    ensures Agree(Fates(c, arm, task, n))
    decreases n
  {
    if n > 0 {
      FatesAgree(c, arm, task, n - 1);
    }
  }

  /** The lowest pass of the repetitions that did not time out, each 1 or 0; 0 when there is none. */
  function LowestPass(rows: seq<Row>): nat {
    if (exists r :: r in rows && r.outcome != Timeout) &&
       (forall r :: r in rows && r.outcome != Timeout ==> r.outcome == Pass) then 1 else 0
  }

  function HighestPass(rows: seq<Row>): nat {
    if exists r :: r in rows && r.outcome == Pass then 1 else 0
  }

  lemma {:induction false} RangeCounts(fates: seq<Fate>)
    requires Agree(fates)
    ensures (exists r :: r in Rows(fates) && r.outcome != Timeout) <==> Total(Cells(SCORED), fates) > 0
    ensures (exists r :: r in Rows(fates) && r.outcome == Pass) <==> Total(Cells({IsPassed}), fates) > 0
    ensures (exists r :: r in Rows(fates) && r.outcome != Timeout && r.outcome != Pass) <==>
            Total(Cells({IsFailed}), fates) > 0
  {
    if fates != [] {
      var rest, last := fates[..|fates| - 1], fates[|fates| - 1];
      RangeCounts(rest);
      CountsAreNatural(SCORED, rest);
      CountsAreNatural({IsPassed}, rest);
      CountsAreNatural({IsFailed}, rest);
      if last.TimedOut? || last.Scored? {
        assert Rows(fates) == Rows(rest) + [last.row];
        assert forall r :: r in Rows(fates) <==> r in Rows(rest) || r == last.row;
      } else {
        assert Rows(fates) == Rows(rest);
      }
    }
  }
}
