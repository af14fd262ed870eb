/**
 scripts/fetch_models.py: the resumable download of one file, and the two commands that remove its files, as a
 crash-recovery protocol. The server is honest and the remote does not change; a crash can come between any two
 steps and leaves only the disk.
 */
module Download {
  import opened Wrappers

  /** What the state file says. Its replacement by _flush is atomic. */
  datatype Saved = Saved(size: nat, chunkSize: nat, done: set<nat>)

  datatype Disk = Disk(part: Option<seq<Byte>>, state: Option<Saved>, dest: Option<seq<Byte>>)

  /** The files the disk can hold for this download, by name. */
  datatype File = DestFile | PartFile | StateFile

  /**
   Creating: the part file was just opened empty. Fetching: at is where each running worker writes next. Renamed:
   dest is in place. Clearing: a cleanup that has the files left to remove and has removed those that are gone.
   */
  datatype Process =
    | NotRunning
    | Creating(done: set<nat>)
    | Fetching(done: set<nat>, at: map<nat, nat>)
    | Renamed
    | Clearing(left: seq<File>, gone: set<File>)

  /** renamed: dest was put there by this download. */
  datatype System = System(disk: Disk, process: Process, renamed: bool)

  /** The remote's bytes and the chunk size. */
  datatype Job = Job(remote: seq<Byte>, chunk: nat)

  /**
   Clean: a cleanup begins, with the files in the order it takes them. Remove: it tries the next one, which may fail.
   install --force goes through FORCED_ORDER, ignoring failures; remove takes a directory's own order, and a failure
   ends it as a crash would.
   */
  datatype Step =
    | Start
    | Extend
    | Begin(i: nat)
    | Block(i: nat, n: nat)
    | Finish(i: nat)
    | Retry(i: nat)
    | Complete
    | Unlink
    | Crash
    | Clean(order: seq<File>)
    | Remove(removed: bool)

  const FORCED_ORDER: seq<File> := [DestFile, PartFile, StateFile]

  predicate ValidJob(job: Job) {
    job.remote != [] && job.chunk > 0
  }

  function Total(job: Job): nat { |job.remote| }

  // ----- Chunks -----

  function ChunkCount(job: Job): nat
    requires ValidJob(job)
  {
    (Total(job) + job.chunk - 1) / job.chunk
  }

  function ChunkStart(job: Job, i: nat): nat { i * job.chunk }

  /** One past the last byte of a chunk. */
  function ChunkStop(job: Job, i: nat): nat {
    if ChunkStart(job, i) + job.chunk < Total(job) then ChunkStart(job, i) + job.chunk else Total(job)
  }

  function ChunkAt(job: Job, p: nat): nat
    requires ValidJob(job)
  {
    p / job.chunk
  }

  /** The bytes of chunk i below a position are the remote's. */
  ghost predicate HoldsUpTo(job: Job, part: seq<Byte>, i: nat, stop: nat)
    requires ValidJob(job) && |part| == Total(job)
  {
    forall p :: 0 <= p < Total(job) && p < stop && ChunkAt(job, p) == i ==> part[p] == job.remote[p]
  }

  ghost predicate Holds(job: Job, part: seq<Byte>, i: nat)
    requires ValidJob(job) && |part| == Total(job)
  {
    HoldsUpTo(job, part, i, Total(job))
  }

  lemma ChunkBounds(job: Job, p: nat, i: nat)
    requires ValidJob(job)
    ensures ChunkAt(job, p) == i <==> ChunkStart(job, i) <= p < ChunkStart(job, i) + job.chunk
  {
    var c := job.chunk;
    var q := p / c;
    assert p == q * c + p % c;
    if q < i {
      assert (q + 1) * c <= i * c;
    } else if i < q {
      assert (i + 1) * c <= q * c;
    }
  }

  lemma Scale(a: nat, b: nat, c: nat)
    requires a <= b
    ensures a * c <= b * c
  {
    assert (b - a) * c >= 0;
  }

  lemma ScaleLess(a: nat, b: nat, c: nat)
    requires a * c < b * c
    ensures a < b
  {
    if b <= a {
      Scale(b, a, c);
      assert false;
    }
  }

  lemma ChunkInRange(job: Job, p: nat)
    requires ValidJob(job) && p < Total(job)
    ensures ChunkAt(job, p) < ChunkCount(job)
  {
    var c, n, q := job.chunk, ChunkCount(job), p / job.chunk;
    var t := Total(job) + c - 1;
    assert t == n * c + t % c;
    assert p == q * c + p % c;
    ScaleLess(q, n, c);
  }

  lemma ChunkStartInRange(job: Job, i: nat)
    requires ValidJob(job) && i < ChunkCount(job)
    ensures ChunkStart(job, i) < Total(job)
  {
    var c, n := job.chunk, ChunkCount(job);
    var t := Total(job) + c - 1;
    Scale(i + 1, n, c);
    assert t == n * c + t % c;
    assert (i + 1) * c == i * c + c;
  }

  // ----- Steps -----

  /** The chunks the state file records for this job. */
  ghost function Recorded(job: Job, disk: Disk): set<nat> {
    if disk.state.Some? && disk.state.value.size == Total(job) && disk.state.value.chunkSize == job.chunk
    then disk.state.value.done else {}
  }

  ghost predicate Finished(job: Job, disk: Disk) {
    disk.dest.Some? && |disk.dest.value| == Total(job)
  }

  ghost predicate FullPart(job: Job, disk: Disk) {
    disk.part.Some? && |disk.part.value| == Total(job)
  }

  /** A new run: done already, or resume from a part of the right size, or open a new one. */
  ghost function OnStart(job: Job, x: System): System {
    if Finished(job, x.disk) then x
    else
      var done := if x.disk.part.Some? then Recorded(job, x.disk) else {};
      if FullPart(job, x.disk) then x.(process := Fetching(done, map[]))
      else x.(disk := x.disk.(part := Some([])), process := Creating(done))
  }

  function Zeros(n: nat): seq<Byte> {
    seq(n, i => 0)
  }

  function Written(part: seq<Byte>, at: nat, bytes: seq<Byte>): seq<Byte>
    requires at + |bytes| <= |part|
  {
    part[..at] + bytes + part[at + |bytes|..]
  }

  function Without(disk: Disk, file: File): Disk {
    match file
    case DestFile => disk.(dest := None)
    case PartFile => disk.(part := None)
    case StateFile => disk.(state := None)
  }

  function Cleared(left: seq<File>, gone: set<File>): Process {
    if left == [] then NotRunning else Clearing(left, gone)
  }

  ghost predicate AllDone(job: Job, done: set<nat>)
    requires ValidJob(job)
  {
    forall i :: 0 <= i < ChunkCount(job) ==> i in done
  }

  ghost predicate Enabled(job: Job, x: System, step: Step)
    requires ValidJob(job)
  {
    match step
    case Start => x.process.NotRunning?
    case Extend => x.process.Creating?
    case Begin(i) => x.process.Fetching? && i < ChunkCount(job) && i !in x.process.done && i !in x.process.at
    case Block(i, n) => x.process.Fetching? && i in x.process.at && FullPart(job, x.disk)
                        && x.process.at[i] + n <= ChunkStop(job, i)
    case Finish(i) => x.process.Fetching? && i in x.process.at && x.process.at[i] == ChunkStop(job, i)
    case Retry(i) => x.process.Fetching? && i in x.process.at
    case Complete => x.process.Fetching? && AllDone(job, x.process.done) && x.disk.part.Some?
    case Unlink => x.process.Renamed?
    case Crash => true
    case Clean(_) => x.process.NotRunning?
    case Remove(_) => x.process.Clearing? && x.process.left != []
  }

  ghost function Next(job: Job, x: System, step: Step): System
    requires ValidJob(job) && Enabled(job, x, step)
  {
    match step
    case Start => OnStart(job, x)
    case Extend => x.(disk := x.disk.(part := Some(Zeros(Total(job)))), process := Fetching(x.process.done, map[]))
    case Begin(i) => x.(process := x.process.(at := x.process.at[i := ChunkStart(job, i)]))
    case Block(i, n) =>
      var o := x.process.at[i];
      x.(disk := x.disk.(part := Some(Written(x.disk.part.value, o, job.remote[o..o + n]))),
         process := x.process.(at := x.process.at[i := o + n]))
    case Finish(i) =>
      var done := x.process.done + {i};
      x.(disk := x.disk.(state := Some(Saved(Total(job), job.chunk, done))),
         process := Fetching(done, x.process.at - {i}))
    case Retry(i) => x.(process := x.process.(at := x.process.at[i := ChunkStart(job, i)]))
    case Complete => System(x.disk.(dest := x.disk.part, part := None), Renamed, true)
    case Unlink => x.(disk := x.disk.(state := None), process := NotRunning)
    case Crash => x.(process := NotRunning)
    case Clean(order) => x.(process := Cleared(order, {}))
    case Remove(removed) =>
      var file, rest, gone := x.process.left[0], x.process.left[1..], x.process.gone;
      if removed then System(Without(x.disk, file), Cleared(rest, gone + {file}), x.renamed && file != DestFile)
      else x.(process := Cleared(rest, gone))
  }

  // ----- Safety -----

  /** Every chunk recorded as done, on disk or in the running process, holds the remote's bytes. */
  ghost predicate RecordsTrue(job: Job, x: System)
    requires ValidJob(job)
  {
    && (FullPart(job, x.disk) ==> forall i :: i in Recorded(job, x.disk) ==> Holds(job, x.disk.part.value, i))
    && (x.process.Fetching? ==>
          FullPart(job, x.disk) && forall i :: i in x.process.done ==> Holds(job, x.disk.part.value, i))
  }

  ghost predicate DestTrue(job: Job, x: System) {
    x.renamed ==> x.disk.dest == Some(job.remote)
  }

  /** A disk that records chunks has the whole part file they are in, or the finished file. */
  ghost predicate SafeDisk(job: Job, disk: Disk) {
    Recorded(job, disk) == {} || FullPart(job, disk) || Finished(job, disk)
  }

  ghost predicate Inv(job: Job, x: System)
    requires ValidJob(job)
  {
    && RecordsTrue(job, x) && DestTrue(job, x)
    && match x.process
       case NotRunning => SafeDisk(job, x.disk)
       case Creating(done) => done == {} == Recorded(job, x.disk)
       case Fetching(done, at) =>
         && done == Recorded(job, x.disk)
         && forall i :: i in at ==>
              ChunkStart(job, i) <= at[i] <= Total(job) && HoldsUpTo(job, x.disk.part.value, i, at[i])
       case Renamed => x.disk.dest == Some(job.remote) && x.disk.part == None && AllDone(job, Recorded(job, x.disk))
       case Clearing(left, gone) =>
         left != [] && (gone == {} ==> SafeDisk(job, x.disk)) && (StateFile in gone ==> Recorded(job, x.disk) == {})
  }

  /** What a cleanup may have removed when it ends: nothing, or the state file and whatever else. */
  predicate Harmless(gone: set<File>) {
    gone == {} || StateFile in gone
  }

  /** The step ends a cleanup that has removed something, the state file not among it. */
  predicate CutsOff(x: System, step: Step) {
    x.process.Clearing? &&
    match step
    case Crash => !Harmless(x.process.gone)
    case Remove(removed) =>
      |x.process.left| == 1 && !Harmless(if removed then x.process.gone + {x.process.left[0]} else x.process.gone)
    case _ => false
  }

  lemma WriteKeeps(job: Job, part: seq<Byte>, o: nat, n: nat, i: nat, stop: nat)
    requires ValidJob(job) && |part| == Total(job) && o + n <= Total(job) && HoldsUpTo(job, part, i, stop)
    ensures HoldsUpTo(job, Written(part, o, job.remote[o..o + n]), i, stop)
    ensures stop == o ==> HoldsUpTo(job, Written(part, o, job.remote[o..o + n]), i, o + n)
  {
    var after := Written(part, o, job.remote[o..o + n]);
    assert |after| == Total(job);
    assert forall p :: 0 <= p < Total(job) ==> after[p] == if o <= p < o + n then job.remote[p] else part[p];
  }

  lemma StopHolds(job: Job, part: seq<Byte>, i: nat)
    requires ValidJob(job) && |part| == Total(job) && HoldsUpTo(job, part, i, ChunkStop(job, i))
    ensures Holds(job, part, i)
  {
    forall p | 0 <= p < Total(job) && ChunkAt(job, p) == i
      ensures part[p] == job.remote[p]
    {
      ChunkBounds(job, p, i);
    }
  }

  lemma AllDoneIsWhole(job: Job, part: seq<Byte>, done: set<nat>)
    requires ValidJob(job) && |part| == Total(job) && AllDone(job, done)
    requires forall i :: i in done ==> Holds(job, part, i)
    ensures part == job.remote
  {
    forall p | 0 <= p < Total(job)
      ensures part[p] == job.remote[p]
    {
      ChunkInRange(job, p);
      assert Holds(job, part, ChunkAt(job, p));
    }
  }

  lemma BlockKeepsInv(job: Job, x: System, i: nat, n: nat)
    requires ValidJob(job) && Inv(job, x) && Enabled(job, x, Block(i, n))
    ensures Inv(job, Next(job, x, Block(i, n)))
  {
    var o, part := x.process.at[i], x.disk.part.value;
    var x' := Next(job, x, Block(i, n));
    var after := x'.disk.part.value;
    forall j | j in x.process.done || j in Recorded(job, x.disk)
      ensures Holds(job, after, j)
    {
      WriteKeeps(job, part, o, n, j, Total(job));
    }
    forall j | j in x'.process.at
      ensures HoldsUpTo(job, after, j, x'.process.at[j])
    {
      WriteKeeps(job, part, o, n, j, x.process.at[j]);
    }
  }

  lemma StartKeepsInv(job: Job, x: System)
    requires ValidJob(job) && Inv(job, x) && Enabled(job, x, Start)
    ensures Inv(job, Next(job, x, Start))
  {
  }

  lemma FinishKeepsInv(job: Job, x: System, i: nat)
    requires ValidJob(job) && Inv(job, x) && Enabled(job, x, Finish(i))
    ensures Inv(job, Next(job, x, Finish(i)))
  {
    StopHolds(job, x.disk.part.value, i);
  }

  lemma WorkerKeepsInv(job: Job, x: System, step: Step)
    requires ValidJob(job) && Inv(job, x) && Enabled(job, x, step) && (step.Begin? || step.Retry?)
    ensures Inv(job, Next(job, x, step))
  {
    if step.Begin? {
      ChunkStartInRange(job, step.i);
    }
    var part := x.disk.part.value;
    assert HoldsUpTo(job, part, step.i, ChunkStart(job, step.i)) by {
      forall p | 0 <= p < Total(job) && p < ChunkStart(job, step.i)
        ensures ChunkAt(job, p) != step.i
      {
        ChunkBounds(job, p, step.i);
      }
    }
  }

  lemma RemoveKeepsInv(job: Job, x: System, removed: bool)
    requires ValidJob(job) && Inv(job, x) && Enabled(job, x, Remove(removed)) && !CutsOff(x, Remove(removed))
    ensures Inv(job, Next(job, x, Remove(removed)))
  {
  }

  /** Every step keeps the invariant, but for a step that cuts a cleanup off. */
  lemma InvStep(job: Job, x: System, step: Step)
    requires ValidJob(job) && Inv(job, x) && Enabled(job, x, step) && !CutsOff(x, step)
    ensures Inv(job, Next(job, x, step))
  {
    match step {
      case Start => StartKeepsInv(job, x);
      case Begin(_) => WorkerKeepsInv(job, x, step);
      case Retry(_) => WorkerKeepsInv(job, x, step);
      case Block(i, n) => BlockKeepsInv(job, x, i, n);
      case Finish(i) => FinishKeepsInv(job, x, i);
      case Complete => AllDoneIsWhole(job, x.disk.part.value, x.process.done);
      case Remove(removed) => RemoveKeepsInv(job, x, removed);
      case Extend =>
      case Unlink =>
      case Crash =>
      case Clean(_) =>
    }
  }

  ghost predicate Legal(job: Job, x: System, steps: seq<Step>)
    requires ValidJob(job)
    decreases |steps|
  {
    steps != [] ==> Enabled(job, x, steps[0]) && Legal(job, Next(job, x, steps[0]), steps[1..])
  }

  ghost function Run(job: Job, x: System, steps: seq<Step>): System
    requires ValidJob(job) && Legal(job, x, steps)
    decreases |steps|
  {
    if steps == [] then x else Run(job, Next(job, x, steps[0]), steps[1..])
  }

  /** No cleanup of the run is cut off. */
  ghost predicate NeverCutOff(job: Job, x: System, steps: seq<Step>)
    requires ValidJob(job) && Legal(job, x, steps)
    decreases |steps|
  {
    steps != [] ==> !CutsOff(x, steps[0]) && NeverCutOff(job, Next(job, x, steps[0]), steps[1..])
  }

  lemma {:induction false} InvRun(job: Job, x: System, steps: seq<Step>)
    requires ValidJob(job) && Inv(job, x) && Legal(job, x, steps) && NeverCutOff(job, x, steps)
    ensures Inv(job, Run(job, x, steps))
    decreases |steps|
  {
    if steps != [] {
      InvStep(job, x, steps[0]);
      InvRun(job, Next(job, x, steps[0]), steps[1..]);
    }
  }

  /** The system as a program start finds it. */
  function Found(disk: Disk): System {
    System(disk, NotRunning, false)
  }

  /** Whatever a disk of this layout holds, its recorded chunks are the remote's where the part file is whole. */
  ghost predicate Consistent(job: Job, disk: Disk)
    requires ValidJob(job)
  {
    FullPart(job, disk) ==> forall i :: i in Recorded(job, disk) ==> Holds(job, disk.part.value, i)
  }

  /** Every run from here that cuts no cleanup off keeps its records true and renames nothing but the remote's bytes. */
  ghost predicate Safe(job: Job, disk: Disk)
    requires ValidJob(job)
  {
    forall steps :: Legal(job, Found(disk), steps) && NeverCutOff(job, Found(disk), steps) ==>
      RecordsTrue(job, Run(job, Found(disk), steps)) && DestTrue(job, Run(job, Found(disk), steps))
  }

  lemma SafeDiskIsSafe(job: Job, disk: Disk)
    requires ValidJob(job) && Consistent(job, disk) && SafeDisk(job, disk)
    ensures Safe(job, disk)
  {
    forall steps | Legal(job, Found(disk), steps) && NeverCutOff(job, Found(disk), steps)
      ensures RecordsTrue(job, Run(job, Found(disk), steps)) && DestTrue(job, Run(job, Found(disk), steps))
    {
      InvRun(job, Found(disk), steps);
    }
  }

  /** A run from a disk that records chunks without the part file they are in creates it anew, full of zeros. */
  lemma Recreated(job: Job, disk: Disk)
    requires ValidJob(job) && !SafeDisk(job, disk)
    ensures Legal(job, Found(disk), [Start, Extend]) && NeverCutOff(job, Found(disk), [Start, Extend])
    ensures Run(job, Found(disk), [Start, Extend]).disk == disk.(part := Some(Zeros(Total(job))))
  {
    var x1 := Next(job, Found(disk), Start);
    assert x1.process.Creating?;
    assert [Start, Extend][1..] == [Extend];
    var x2 := Next(job, x1, Extend);
    assert Run(job, x1, [Extend]) == x2;
  }

  lemma UnsafeDisk(job: Job, disk: Disk, i: nat)
    requires ValidJob(job) && !SafeDisk(job, disk) && i in Recorded(job, disk)
    requires ChunkStart(job, i) < Total(job) && job.remote[ChunkStart(job, i)] != 0
    ensures Legal(job, Found(disk), [Start, Extend]) && NeverCutOff(job, Found(disk), [Start, Extend])
    ensures !RecordsTrue(job, Run(job, Found(disk), [Start, Extend]))
  {
    Recreated(job, disk);
    var x := Run(job, Found(disk), [Start, Extend]);
    var p := ChunkStart(job, i);
    ChunkBounds(job, p, i);
    assert x.disk.part.value[p] == 0 && ChunkAt(job, p) == i;
    assert !Holds(job, x.disk.part.value, i);
    assert i in Recorded(job, x.disk);
  }

  /**
   Crash safety, exactly: for every remote of this size that the disk is consistent with, every run with its crashes,
   restarts and completed cleanups keeps its records true and renames nothing but the remote, if and only if the
   disk does not record chunks without either the whole part file or the finished file. The check after the part
   file is recreated looks at a size that was just set, so it never discards the records.
   */
  lemma CrashSafety(job: Job, disk: Disk)
    requires ValidJob(job) && forall i :: i in Recorded(job, disk) ==> i < ChunkCount(job)
    ensures (forall other ::
               ValidJob(other) && Total(other) == Total(job) && other.chunk == job.chunk && Consistent(other, disk)
               ==> Safe(other, disk))
            <==> SafeDisk(job, disk)
  {
    if SafeDisk(job, disk) {
      forall other | ValidJob(other) && Total(other) == Total(job) && other.chunk == job.chunk
          && Consistent(other, disk)
        ensures Safe(other, disk)
      {
        SafeDiskIsSafe(other, disk);
      }
    } else {
      var ones: seq<Byte> := seq(Total(job), i => 1);
      var other := Job(ones, job.chunk);
      var i :| i in Recorded(job, disk);
      ChunkStartInRange(job, i);
      UnsafeDisk(other, disk, i);
    }
  }

  /** From a disk that records nothing, a run leaves a disk that is not safe only by cutting a cleanup off. */
  lemma NeverUnsafe(job: Job, disk: Disk, steps: seq<Step>)
    requires ValidJob(job) && Recorded(job, disk) == {} && Legal(job, Found(disk), steps)
    ensures NeverCutOff(job, Found(disk), steps) ==>
              var x := Run(job, Found(disk), steps);
              RecordsTrue(job, x) && DestTrue(job, x) && (x.process == NotRunning ==> SafeDisk(job, x.disk))
  {
    if NeverCutOff(job, Found(disk), steps) {
      InvRun(job, Found(disk), steps);
    }
  }

  // ----- Cleanups -----

  function WithoutAll(disk: Disk, gone: set<File>): Disk {
    Disk(if PartFile in gone then None else disk.part, if StateFile in gone then None else disk.state,
         if DestFile in gone then None else disk.dest)
  }

  /** The steps take a cleanup with these files left some way, cut off by a crash or to the end. */
  ghost predicate Way(left: seq<File>, rest: seq<Step>)
    decreases |rest|
  {
    rest != [] ==>
      if rest[0].Remove? then left != [] && Way(left[1..], rest[1..])
      else rest[0] == Crash && Way([], rest[1..])
  }

  /** The files a way gets to remove. */
  ghost function Removed(left: seq<File>, rest: seq<Step>): set<File>
    requires Way(left, rest)
    decreases |rest|
  {
    if rest == [] then {}
    else if rest[0].Remove? then (if rest[0].removed then {left[0]} else {}) + Removed(left[1..], rest[1..])
    else Removed([], rest[1..])
  }

  ghost predicate OnlyCleans(rest: seq<Step>) {
    forall step :: step in rest ==> step.Remove? || step.Crash?
  }

  /** A cleanup under way, or over, with these files left. */
  ghost predicate HasLeft(x: System, left: seq<File>) {
    if left == [] then x.process == NotRunning else x.process.Clearing? && x.process.left == left
  }

  /** The ways are the runs of removals and crashes, and what a run leaves is the disk without the files it removed. */
  lemma {:induction false} CleaningRun(job: Job, x: System, left: seq<File>, rest: seq<Step>)
    requires ValidJob(job) && HasLeft(x, left)
    ensures Way(left, rest) <==> Legal(job, x, rest) && OnlyCleans(rest)
    ensures Way(left, rest) ==> Run(job, x, rest).disk == WithoutAll(x.disk, Removed(left, rest))
    decreases |rest|
  {
    if rest != [] {
      assert OnlyCleans(rest) <==> (rest[0].Remove? || rest[0].Crash?) && OnlyCleans(rest[1..]);
      if Enabled(job, x, rest[0]) && (rest[0].Remove? || rest[0].Crash?) {
        CleaningRun(job, Next(job, x, rest[0]), if rest[0].Remove? then left[1..] else [], rest[1..]);
      }
    }
  }

  /** A whole cleanup: the command, and one way through it. */
  lemma CleanupRun(job: Job, disk: Disk, order: seq<File>, rest: seq<Step>)
    requires ValidJob(job)
    ensures Way(order, rest) <==> Legal(job, Found(disk), [Clean(order)] + rest) && OnlyCleans(rest)
    ensures Way(order, rest) ==>
              Run(job, Found(disk), [Clean(order)] + rest).disk == WithoutAll(disk, Removed(order, rest))
  {
    assert ([Clean(order)] + rest)[1..] == rest;
    CleaningRun(job, Next(job, Found(disk), Clean(order)), order, rest);
  }

  /**
   Whatever safe disk files are removed from, it stays safe if and only if they are
   none or include the state file.
   */
  lemma HarmlessSets(job: Job, gone: set<File>)
    requires ValidJob(job)
    ensures (forall disk :: SafeDisk(job, disk) ==> SafeDisk(job, WithoutAll(disk, gone))) <==> Harmless(gone)
  {
    if Harmless(gone) {
      forall disk | SafeDisk(job, disk)
        ensures SafeDisk(job, WithoutAll(disk, gone))
      {
        assert gone == {} ==> WithoutAll(disk, gone) == disk;
      }
    } else {
      var saved, whole := Some(Saved(Total(job), job.chunk, {0})), Some(Zeros(Total(job)));
      var disk := if PartFile in gone then Disk(whole, saved, None) else Disk(None, saved, whole);
      var file :| file in gone;
      assert file != StateFile && (PartFile in gone || (file == DestFile && WithoutAll(disk, gone).dest == None));
      assert 0 in Recorded(job, disk) && 0 in Recorded(job, WithoutAll(disk, gone));
      assert SafeDisk(job, disk) && !SafeDisk(job, WithoutAll(disk, gone));
    }
  }

  /**
   A way through a cleanup leaves a safe disk whatever safe disk it starts from if and only if it removes nothing or
   the state file.
   */
  lemma HarmlessExactly(job: Job, order: seq<File>, rest: seq<Step>)
    requires ValidJob(job) && Way(order, rest)
    ensures forall disk :: Legal(job, Found(disk), [Clean(order)] + rest)
    ensures (forall disk :: SafeDisk(job, disk) ==> SafeDisk(job, Run(job, Found(disk), [Clean(order)] + rest).disk))
            <==> Harmless(Removed(order, rest))
  {
    forall disk
      ensures Legal(job, Found(disk), [Clean(order)] + rest)
      ensures Run(job, Found(disk), [Clean(order)] + rest).disk == WithoutAll(disk, Removed(order, rest))
    {
      CleanupRun(job, disk, order, rest);
    }
    HarmlessSets(job, Removed(order, rest));
  }

  /** Every run of this cleanup from the disk, however it goes and wherever it is cut off, leaves a safe disk. */
  ghost predicate Stands(job: Job, disk: Disk, order: seq<File>)
    requires ValidJob(job)
  {
    forall rest :: Legal(job, Found(disk), [Clean(order)] + rest) && OnlyCleans(rest) ==>
      SafeDisk(job, Run(job, Found(disk), [Clean(order)] + rest).disk)
  }

  /**
   What makes the disk safe is out of reach of the cleanup: no chunk is recorded, or one of
   the two files is not in its order.
   */
  ghost predicate OutOfReach(job: Job, disk: Disk, order: seq<File>) {
    || Recorded(job, disk) == {}
    || (FullPart(job, disk) && PartFile !in order)
    || (Finished(job, disk) && DestFile !in order)
  }

  /** The way that fails to remove the state file and removes everything else. */
  ghost function Worst(order: seq<File>): seq<Step> {
    if order == [] then [] else [Remove(order[0] != StateFile)] + Worst(order[1..])
  }

  lemma {:induction false} WorstWay(order: seq<File>)
    ensures Way(order, Worst(order)) && Removed(order, Worst(order)) == (set f | f in order && f != StateFile)
  {
    if order != [] {
      assert Worst(order)[1..] == Worst(order[1..]);
      WorstWay(order[1..]);
      assert order == [order[0]] + order[1..];
    }
  }

  lemma {:induction false} RemovedInOrder(order: seq<File>, rest: seq<Step>)
    requires Way(order, rest)
    ensures forall f :: f in Removed(order, rest) ==> f in order
    decreases |rest|
  {
    if rest != [] {
      RemovedInOrder(if rest[0].Remove? then order[1..] else [], rest[1..]);
    }
  }

  /** A disk stands every run of a cleanup if and only if what makes it safe is out of the cleanup's reach. */
  lemma StandsExactly(job: Job, disk: Disk, order: seq<File>)
    requires ValidJob(job)
    ensures Stands(job, disk, order) <==> OutOfReach(job, disk, order)
  {
    if OutOfReach(job, disk, order) {
      forall rest | Legal(job, Found(disk), [Clean(order)] + rest) && OnlyCleans(rest)
        ensures SafeDisk(job, Run(job, Found(disk), [Clean(order)] + rest).disk)
      {
        CleanupRun(job, disk, order, rest);
        RemovedInOrder(order, rest);
      }
    } else {
      WorstWay(order);
      CleanupRun(job, disk, order, Worst(order));
      assert !SafeDisk(job, Run(job, Found(disk), [Clean(order)] + Worst(order)).disk);
    }
  }

  /** Before a forced install: every run of its cleanup leaves a safe disk if and only if the disk records no chunk. */
  lemma StandsEveryCleanup(job: Job, disk: Disk)
    requires ValidJob(job)
    ensures Stands(job, disk, FORCED_ORDER) <==> Recorded(job, disk) == {}
  {
    StandsExactly(job, disk, FORCED_ORDER);
    assert DestFile == FORCED_ORDER[0] && PartFile == FORCED_ORDER[1];
  }

  /** The removals of the way succeed. */
  ghost predicate Succeeds(rest: seq<Step>) {
    forall step :: step in rest && step.Remove? ==> step.removed
  }

  lemma {:induction false} FirstIsRemoved(order: seq<File>, rest: seq<Step>)
    requires Way(order, rest) && Succeeds(rest)
    ensures Removed(order, rest) == {} || (order != [] && order[0] in Removed(order, rest))
    decreases |rest|
  {
    if rest != [] && rest[0].Remove? {
      assert rest[0] in rest;
    } else if rest != [] {
      assert forall step :: step in rest[1..] ==> step in rest;
      FirstIsRemoved([], rest[1..]);
    }
  }

  /**
   The cleanups of an order can be cut off anywhere, from any safe disk, if and only if the
   order starts with the state file.
   */
  lemma StateFirstExactly(job: Job, order: seq<File>)
    requires ValidJob(job)
    ensures (forall disk, rest :: SafeDisk(job, disk) && Succeeds(rest) && OnlyCleans(rest)
                                  && Legal(job, Found(disk), [Clean(order)] + rest) ==>
               SafeDisk(job, Run(job, Found(disk), [Clean(order)] + rest).disk))
            <==> order == [] || order[0] == StateFile
  {
    if order == [] || order[0] == StateFile {
      forall disk, rest | SafeDisk(job, disk) && Succeeds(rest) && OnlyCleans(rest)
                          && Legal(job, Found(disk), [Clean(order)] + rest)
        ensures SafeDisk(job, Run(job, Found(disk), [Clean(order)] + rest).disk)
      {
        CleanupRun(job, disk, order, rest);
        FirstIsRemoved(order, rest);
        HarmlessExactly(job, order, rest);
      }
    } else {
      var rest := [Remove(true)];
      assert rest[1..] == [];
      assert Way(order, rest) && Removed(order, rest) == {order[0]};
      HarmlessExactly(job, order, rest);
    }
  }

  /** Cleanups take the state file first, and succeed in removing what they reach. */
  ghost predicate StateFirst(steps: seq<Step>) {
    forall step :: step in steps ==>
      && (step.Clean? ==> step.order == [] || step.order[0] == StateFile)
      && (step.Remove? ==> step.removed)
  }

  /** Such cleanups are never cut off, wherever a run crashes. */
  lemma {:induction false} StateFirstNeverCutOff(job: Job, x: System, steps: seq<Step>)
    requires ValidJob(job) && Legal(job, x, steps) && StateFirst(steps)
    requires x.process.Clearing? && StateFile !in x.process.gone ==>
               x.process.gone == {} && x.process.left != [] && x.process.left[0] == StateFile
    ensures NeverCutOff(job, x, steps)
    decreases |steps|
  {
    if steps != [] {
      assert steps[0] in steps;
      StateFirstNeverCutOff(job, Next(job, x, steps[0]), steps[1..]);
    }
  }

  /** After a crash between the rename and the unlink of the state file, losing the finished file leaves such a disk. */
  lemma RemovingDestIsUnsafe(job: Job, x: System)
    requires ValidJob(job) && Inv(job, x) && x.process == Renamed
    ensures !SafeDisk(job, Without(Next(job, x, Crash).disk, DestFile))
  {
    ChunkInRange(job, 0);
    assert 0 in Recorded(job, x.disk);
  }

  // ----- A forced cleanup cut off, step by step -----

  const ONE_BYTE := Job([1], 1)
  const NOTHING := Disk(None, None, None)

  lemma {:induction false} Append(job: Job, x: System, a: seq<Step>, b: seq<Step>)
    requires ValidJob(job) && Legal(job, x, a) && Legal(job, Run(job, x, a), b)
    ensures Legal(job, x, a + b) && Run(job, x, a + b) == Run(job, Run(job, x, a), b)
    decreases |a|
  {
    if a == [] {
      assert a + b == b;
    } else {
      Append(job, Next(job, x, a[0]), a[1..], b);
      assert (a + b)[1..] == a[1..] + b;
    }
  }

  lemma ThreeSteps(job: Job, x: System, a: Step, b: Step, c: Step)
    requires ValidJob(job) && Enabled(job, x, a) && Enabled(job, Next(job, x, a), b)
    requires Enabled(job, Next(job, Next(job, x, a), b), c)
    ensures Legal(job, x, [a, b, c]) && Run(job, x, [a, b, c]) == Next(job, Next(job, Next(job, x, a), b), c)
  {
    OneStep(job, x, a);
    OneStep(job, Next(job, x, a), b);
    OneStep(job, Next(job, Next(job, x, a), b), c);
    Append(job, x, [a], [b]);
    Append(job, x, [a] + [b], [c]);
    assert [a] + [b] + [c] == [a, b, c];
  }

  lemma OneStep(job: Job, x: System, a: Step)
    requires ValidJob(job) && Enabled(job, x, a)
    ensures Legal(job, x, [a]) && Run(job, x, [a]) == Next(job, x, a)
  {
    assert [a][1..] == [];
  }

  function OneByte(part: Option<seq<Byte>>, state: bool, dest: Option<seq<Byte>>): Disk {
    Disk(part, if state then Some(Saved(1, 1, {0})) else None, dest)
  }

  const FETCH: seq<Step> := [Start, Extend, Begin(0)] + [Block(0, 1), Finish(0), Crash]
  const RENAME: seq<Step> := [Start, Complete, Crash]
  const CUT_CLEANUP: seq<Step> := [Clean(FORCED_ORDER), Remove(true), Remove(true)] + [Crash, Start, Extend]
  const RESTART: seq<Step> := [Crash, Start, Complete]

  lemma OneByteFetched()
    ensures Legal(ONE_BYTE, Found(NOTHING), FETCH)
    ensures Run(ONE_BYTE, Found(NOTHING), FETCH) == Found(OneByte(Some([1]), true, None))
  {
    var job := ONE_BYTE;
    assert ChunkCount(job) == 1 && ChunkStart(job, 0) == 0 && ChunkStop(job, 0) == 1 && Total(job) == 1;
    var x0 := Found(NOTHING);
    var x3 := System(Disk(Some([0]), None, None), Fetching({}, map[0 := 0]), false);
    assert Zeros(1) == [0];
    ThreeSteps(job, x0, Start, Extend, Begin(0));
    assert Run(job, x0, [Start, Extend, Begin(0)]) == x3;
    var x4 := Next(job, x3, Block(0, 1));
    assert Written([0], 0, job.remote[0..1]) == [1];
    assert map[0 := 0][0 := 1] == map[0 := 1];
    assert x4 == System(Disk(Some([1]), None, None), Fetching({}, map[0 := 1]), false);
    ThreeSteps(job, x3, Block(0, 1), Finish(0), Crash);
    assert {} + {0} == {0};
    Append(job, x0, [Start, Extend, Begin(0)], [Block(0, 1), Finish(0), Crash]);
  }

  /** A run reaches the crash between the rename and the unlink; without the finished file its disk is not safe. */
  lemma RenamedReachable()
    ensures Legal(ONE_BYTE, Found(NOTHING), FETCH + RENAME)
    ensures var x := Run(ONE_BYTE, Found(NOTHING), FETCH + RENAME);
            && x == System(OneByte(None, true, Some([1])), NotRunning, true)
            && SafeDisk(ONE_BYTE, x.disk) && !SafeDisk(ONE_BYTE, Without(x.disk, DestFile))
  {
    OneByteFetched();
    var x := Found(OneByte(Some([1]), true, None));
    assert ChunkCount(ONE_BYTE) == 1;
    ThreeSteps(ONE_BYTE, x, Start, Complete, Crash);
    Append(ONE_BYTE, Found(NOTHING), FETCH, RENAME);
    assert 0 in Recorded(ONE_BYTE, OneByte(None, true, None));
  }

  ghost predicate UsesOrder(order: seq<File>, steps: seq<Step>) {
    forall step :: step in steps ==> (step.Clean? ==> step.order == order) && (step.Remove? ==> step.removed)
  }

  /** Runs whose cleanups take this order are safe, from every disk that records nothing. */
  ghost predicate OrderSafe(order: seq<File>) {
    forall job, disk, steps ::
      ValidJob(job) && Recorded(job, disk) == {} && Legal(job, Found(disk), steps) && UsesOrder(order, steps) ==>
      var x := Run(job, Found(disk), steps);
      RecordsTrue(job, x) && DestTrue(job, x) && (x.process == NotRunning ==> SafeDisk(job, x.disk))
  }

  lemma OtherOrderUnsafe(order: seq<File>, fetch: seq<Step>, x: System)
    requires order != [] && order[0] != StateFile && UsesOrder(order, fetch)
    requires Legal(ONE_BYTE, Found(NOTHING), fetch) && x == Run(ONE_BYTE, Found(NOTHING), fetch)
             && x.process == NotRunning
    requires x.disk == if order[0] == PartFile then OneByte(Some([1]), true, None) else OneByte(None, true, Some([1]))
    ensures !OrderSafe(order)
  {
    var cut := [Clean(order), Remove(true), Crash];
    ThreeSteps(ONE_BYTE, x, Clean(order), Remove(true), Crash);
    Append(ONE_BYTE, Found(NOTHING), fetch, cut);
    assert UsesOrder(order, fetch + cut);
    var y := Run(ONE_BYTE, Found(NOTHING), fetch + cut);
    assert y.disk == OneByte(None, true, None) && 0 in Recorded(ONE_BYTE, y.disk);
    assert y.process == NotRunning && !SafeDisk(ONE_BYTE, y.disk);
  }

  /** A program that cleans up in a fixed order is safe under crashes if and only if it removes the state file first. */
  lemma OrderSafeExactly(order: seq<File>)
    ensures OrderSafe(order) <==> order == [] || order[0] == StateFile
  {
    if order == [] || order[0] == StateFile {
      forall job, disk, steps | ValidJob(job) && Recorded(job, disk) == {} && Legal(job, Found(disk), steps)
          && UsesOrder(order, steps)
        ensures var x := Run(job, Found(disk), steps);
                RecordsTrue(job, x) && DestTrue(job, x) && (x.process == NotRunning ==> SafeDisk(job, x.disk))
      {
        StateFirstNeverCutOff(job, Found(disk), steps);
        NeverUnsafe(job, disk, steps);
      }
    } else if order[0] == PartFile {
      OneByteFetched();
      OtherOrderUnsafe(order, FETCH, Found(OneByte(Some([1]), true, None)));
    } else {
      RenamedReachable();
      OtherOrderUnsafe(order, FETCH + RENAME, System(OneByte(None, true, Some([1])), NotRunning, true));
    }
  }

  /** The order of a forced install is not safe. */
  lemma ForcedOrderNotSafe()
    ensures !OrderSafe(FORCED_ORDER)
  {
    OrderSafeExactly(FORCED_ORDER);
  }

  lemma CleanupCutOff()
    ensures var x := Found(OneByte(Some([1]), true, None));
            Legal(ONE_BYTE, x, CUT_CLEANUP) && Run(ONE_BYTE, x, CUT_CLEANUP).disk == OneByte(Some([0]), true, None)
  {
    var job, x := ONE_BYTE, Found(OneByte(Some([1]), true, None));
    assert Zeros(1) == [0];
    assert FORCED_ORDER[1..] == [PartFile, StateFile] && [PartFile, StateFile][1..] == [StateFile];
    ThreeSteps(job, x, Clean(FORCED_ORDER), Remove(true), Remove(true));
    var y := Run(job, x, [Clean(FORCED_ORDER), Remove(true), Remove(true)]);
    assert y.disk == OneByte(None, true, None) && y.process.Clearing?;
    ThreeSteps(job, y, Crash, Start, Extend);
    Append(job, x, [Clean(FORCED_ORDER), Remove(true), Remove(true)], [Crash, Start, Extend]);
  }

  lemma StaleRestart(x: System)
    requires x.disk == OneByte(Some([0]), true, None)
    ensures Legal(ONE_BYTE, x, RESTART) && Run(ONE_BYTE, x, RESTART).disk.dest == Some([0])
  {
    assert ChunkCount(ONE_BYTE) == 1;
    ThreeSteps(ONE_BYTE, x, Crash, Start, Complete);
  }

  /**
   The failing run: one byte is fetched, a forced cleanup crashes after removing the part file, and two restarts
   later a file of the right size that is not the remote is renamed into place.
   */
  lemma ForcedCleanupCorrupts()
    ensures Legal(ONE_BYTE, Found(NOTHING), FETCH + (CUT_CLEANUP + RESTART))
    ensures Run(ONE_BYTE, Found(NOTHING), FETCH + (CUT_CLEANUP + RESTART)).disk.dest == Some([0])
    ensures ONE_BYTE.remote != [0]
  {
    var x := Found(OneByte(Some([1]), true, None));
    OneByteFetched();
    CleanupCutOff();
    StaleRestart(Run(ONE_BYTE, x, CUT_CLEANUP));
    Append(ONE_BYTE, x, CUT_CLEANUP, RESTART);
    Append(ONE_BYTE, Found(NOTHING), FETCH, CUT_CLEANUP + RESTART);
  }
}
