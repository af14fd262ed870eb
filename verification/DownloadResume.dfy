/** scripts/fetch_models.py: that a download gets somewhere, and that what it has is not fetched again. */
module DownloadResume {
  import opened Wrappers
  import opened Download

  // ----- What a download leaves -----

  /** The model file, and nothing beside it. */
  function Downloaded(job: Job): Disk {
    Disk(None, None, Some(job.remote))
  }

  /** A run that ends a download has the remote in place, and neither a part file nor a state file. */
  lemma CompletedExactly(job: Job, disk: Disk, steps: seq<Step>)
    requires ValidJob(job) && Consistent(job, disk) && SafeDisk(job, disk)
    requires Legal(job, Found(disk), steps) && NeverCutOff(job, Found(disk), steps)
    requires Enabled(job, Run(job, Found(disk), steps), Unlink)
    ensures Next(job, Run(job, Found(disk), steps), Unlink).disk == Downloaded(job)
  {
    InvRun(job, Found(disk), steps);
  }

  // ----- Nothing is fetched twice -----

  /** The program at work or dying: it completes nothing and no file is removed. */
  predicate Works(step: Step) {
    !step.Unlink? && !step.Clean? && !step.Remove?
  }

  lemma WorkKeepsRecords(job: Job, x: System, step: Step)
    requires ValidJob(job) && Inv(job, x) && Enabled(job, x, step) && Works(step) && !x.process.Clearing?
    ensures Recorded(job, x.disk) <= Recorded(job, Next(job, x, step).disk)
    ensures step.Begin? ==> step.i !in Recorded(job, x.disk)
    ensures !Next(job, x, step).process.Clearing? && Inv(job, Next(job, x, step))
  {
    InvStep(job, x, step);
  }

  /** Over any run of crashes and restarts, a chunk once recorded stays recorded and is not begun again. */
  lemma {:induction false} NeverFetchedAgain(job: Job, x: System, steps: seq<Step>)
    requires ValidJob(job) && Inv(job, x) && !x.process.Clearing?
    requires Legal(job, x, steps) && forall step :: step in steps ==> Works(step)
    ensures Recorded(job, x.disk) <= Recorded(job, Run(job, x, steps).disk)
    ensures forall i :: Begin(i) in steps ==> i !in Recorded(job, x.disk)
    decreases |steps|
  {
    if steps != [] {
      WorkKeepsRecords(job, x, steps[0]);
      assert forall step :: step in steps <==> step == steps[0] || step in steps[1..];
      NeverFetchedAgain(job, Next(job, x, steps[0]), steps[1..]);
    }
  }

  /** A chunk's bytes are those from its start to its stop, and the chunks share none. */
  lemma ChunkIs(job: Job, p: nat, i: nat)
    requires ValidJob(job) && p < |job.remote|
    ensures ChunkStart(job, i) <= p < ChunkStop(job, i) <==> p / job.chunk == i
  {
    ChunkBounds(job, p, i);
  }

  /** A worker writes the remote's bytes and touches no chunk but its own. */
  lemma WritesOwnChunk(job: Job, x: System, i: nat, n: nat, p: nat)
    requires ValidJob(job) && Inv(job, x) && Enabled(job, x, Block(i, n)) && p < |job.remote|
    ensures var part, after := x.disk.part.value, Next(job, x, Block(i, n)).disk.part;
            && after.Some? && |after.value| == |part| == |job.remote|
            && (p / job.chunk != i ==> after.value[p] == part[p])
            && (x.process.at[i] <= p < x.process.at[i] + n ==> after.value[p] == job.remote[p])
  {
    ChunkIs(job, p, i);
  }

  // ----- A download can always be completed -----

  /** Work without a crash that begins none of these chunks. */
  ghost predicate Fetches(steps: seq<Step>, skip: set<nat>) {
    forall step :: step in steps ==>
      !step.Crash? && !step.Clean? && !step.Remove? && (step.Begin? ==> step.i !in skip)
  }

  ghost predicate Reaches(job: Job, x: System, y: System, skip: set<nat>)
    requires ValidJob(job)
  {
    exists steps :: Legal(job, x, steps) && Fetches(steps, skip) && Run(job, x, steps) == y
  }

  lemma ReachesItself(job: Job, x: System, skip: set<nat>)
    requires ValidJob(job)
    ensures Reaches(job, x, x, skip)
  {
    assert Legal(job, x, []) && Fetches([], skip) && Run(job, x, []) == x;
  }

  lemma StepReaches(job: Job, x: System, step: Step, y: System, skip: set<nat>)
    requires ValidJob(job) && Enabled(job, x, step) && Fetches([step], skip)
    requires Reaches(job, Next(job, x, step), y, skip)
    ensures Reaches(job, x, y, skip)
  {
    var next := Next(job, x, step);
    var steps :| Legal(job, next, steps) && Fetches(steps, skip) && Run(job, next, steps) == y;
    var all := [step] + steps;
    assert all[0] == step && all[1..] == steps;
    assert Legal(job, x, all) && Run(job, x, all) == y;
    assert step in [step] && forall s :: s in all <==> s == step || s in steps;
    assert Fetches(all, skip);
  }

  /** No worker is running. */
  ghost predicate Between(job: Job, x: System)
    requires ValidJob(job)
  {
    Inv(job, x) && x.process.Fetching? && x.process.at == map[]
  }

  /** One chunk, fetched in one block. */
  lemma ChunkFetched(job: Job, x: System, i: nat) returns (y: System)
    requires ValidJob(job) && Between(job, x) && i < ChunkCount(job) && i !in x.process.done
    ensures Between(job, y) && y.process.done == x.process.done + {i}
    ensures forall z, skip :: i !in skip && Reaches(job, y, z, skip) ==> Reaches(job, x, z, skip)
  {
    ChunkStartInRange(job, i);
    var n := ChunkStop(job, i) - ChunkStart(job, i);
    InvStep(job, x, Begin(i));
    var x1 := Next(job, x, Begin(i));
    InvStep(job, x1, Block(i, n));
    var x2 := Next(job, x1, Block(i, n));
    InvStep(job, x2, Finish(i));
    y := Next(job, x2, Finish(i));
    assert y.process.at == map[];
    forall z, skip | i !in skip && Reaches(job, y, z, skip)
      ensures Reaches(job, x, z, skip)
    {
      StepReaches(job, x2, Finish(i), z, skip);
      StepReaches(job, x1, Block(i, n), z, skip);
      StepReaches(job, x, Begin(i), z, skip);
    }
  }

  lemma {:induction false} RestFetched(job: Job, x: System, i: nat, skip: set<nat>) returns (y: System)
    requires ValidJob(job) && Between(job, x) && i <= ChunkCount(job)
    requires skip <= x.process.done && forall j :: 0 <= j < i ==> j in x.process.done
    ensures Between(job, y) && AllDone(job, y.process.done) && Reaches(job, x, y, skip)
    decreases ChunkCount(job) - i
  {
    if i == ChunkCount(job) {
      y := x;
      ReachesItself(job, x, skip);
    } else if i in x.process.done {
      y := RestFetched(job, x, i + 1, skip);
    } else {
      var z := ChunkFetched(job, x, i);
      y := RestFetched(job, z, i + 1, skip);
    }
  }

  lemma {:induction false} ReachesThen(job: Job, x: System, y: System, z: System, skip: set<nat>)
    requires ValidJob(job) && Reaches(job, x, y, skip) && Reaches(job, y, z, skip)
    ensures Reaches(job, x, z, skip)
  {
    var steps :| Legal(job, x, steps) && Fetches(steps, skip) && Run(job, x, steps) == y;
    RunReaches(job, x, steps, z, skip);
  }

  lemma {:induction false} RunReaches(job: Job, x: System, steps: seq<Step>, z: System, skip: set<nat>)
    requires ValidJob(job) && Legal(job, x, steps) && Fetches(steps, skip) && Reaches(job, Run(job, x, steps), z, skip)
    ensures Reaches(job, x, z, skip)
    decreases |steps|
  {
    if steps != [] {
      assert steps[0] in steps && forall step :: step in steps[1..] ==> step in steps;
      RunReaches(job, Next(job, x, steps[0]), steps[1..], z, skip);
      StepReaches(job, x, steps[0], z, skip);
    }
  }

  lemma FinishedFrom(job: Job, x: System, skip: set<nat>)
    requires ValidJob(job) && Between(job, x) && skip <= x.process.done
    ensures Reaches(job, x, System(Downloaded(job), NotRunning, true), skip)
  {
    var y := RestFetched(job, x, 0, skip);
    InvStep(job, y, Complete);
    var renamed, over := Next(job, y, Complete), System(Downloaded(job), NotRunning, true);
    ReachesItself(job, over, skip);
    assert Next(job, renamed, Unlink) == over;
    StepReaches(job, renamed, Unlink, over, skip);
    StepReaches(job, y, Complete, over, skip);
    ReachesThen(job, x, y, over, skip);
  }

  /**
   From any disk a download is safe on, however far an earlier one got, a start can be brought to its end, and only
   the chunks not yet recorded are fetched.
   */
  lemma CanComplete(job: Job, disk: Disk)
    requires ValidJob(job) && Consistent(job, disk) && SafeDisk(job, disk) && !Finished(job, disk)
    ensures Reaches(job, Found(disk), System(Downloaded(job), NotRunning, true), Recorded(job, disk))
  {
    var skip, over := Recorded(job, disk), System(Downloaded(job), NotRunning, true);
    InvStep(job, Found(disk), Start);
    var x := Next(job, Found(disk), Start);
    if x.process.Creating? {
      InvStep(job, x, Extend);
      FinishedFrom(job, Next(job, x, Extend), skip);
      StepReaches(job, x, Extend, over, skip);
    } else {
      FinishedFrom(job, x, skip);
    }
    StepReaches(job, Found(disk), Start, over, skip);
  }
}
