/** dashboard/main.cpp: following one ledger file that grows, or is replaced, while it is read. */
module LedgerFollowers {
  import opened Wrappers
  import opened LedgerTails
  import opened LedgerReaders
  import opened LedgerViews

  datatype TailStep = TailStep(offset: nat, restart: bool)

  /** The follow position: a file that shrank is read from its start, any other from where the last read ended. */
  function NextRead(consumed: nat, size: nat): TailStep {
    if size < consumed then TailStep(0, true) else TailStep(consumed, false)
  }

  /** The follower as a value; records are those folded into the view since its last restart. */
  datatype Follower = Follower(consumed: nat, tail: Tail, records: seq<LedgerRecord>)

  /** What one poll finds: no size, or a size and then either no file to open or the bytes one read returned. */
  datatype Finding = NoFile | Found(size: nat, read: Option<seq<Byte>>)

  ghost function Restarted(f: Follower, size: nat): Follower {
    if NextRead(f.consumed, size).restart then Follower(0, Tail([], false, f.tail.skipped), []) else f
  }

  ghost function Poll(decode: Decoder, max: nat, f: Follower, found: Finding): Follower {
    match found
    case NoFile => f
    case Found(size, read) =>
      var g := Restarted(f, size);
      if size <= g.consumed || read == None then g
      else
        var o := Consume(decode, max, g.tail, read.value);
        Follower(g.consumed + |read.value|, o.tail, g.records + o.records)
  }

  class LedgerFollower {
    const tail: LedgerTail
    const view: LedgerView
    var consumed: nat

    ghost function View(): Follower
      reads this, tail, view
    {
      Follower(consumed, tail.View(), view.history)
    }

    ghost predicate Valid()
      reads this, tail, view
    {
      tail.Valid() && view.Valid()
    }

    constructor (decode: Decoder, maxCarryBytes: nat, windowSize: nat)
      ensures Valid() && fresh(tail) && fresh(view) && View() == Follower(0, START, [])
      ensures tail.decode == decode && tail.maxCarryBytes == maxCarryBytes
    {
      tail := new LedgerTail(maxCarryBytes, decode);
      view := new LedgerView(windowSize);
      consumed := 0;
    }

    /** One poll; what it reads may be less than the size it saw promised. */
    method PollOnce(found: Finding)
      requires Valid()
      requires found.Found? && found.read.Some? ==>
                 NextRead(consumed, found.size).offset + |found.read.value| <= found.size
      modifies this, tail, view
      ensures Valid()
      ensures View() == Poll(tail.decode, tail.maxCarryBytes, old(View()), found)
    {
      match found {
        case NoFile => return;
        case Found(size, read) =>
          var step := NextRead(consumed, size);
          if step.restart {
            tail.Reset();
            consumed := 0;
            view.Restart();
          }
          if size <= step.offset {
            return;
          }
          match read {
            case None => return;
            case Some(chunk) =>
              consumed := step.offset + |chunk|;
              var records := tail.Consume(chunk);
              view.RecordAll(records);
          }
      }
    }
  }

  // ----- The file under the follower -----

  /** The file, and whether another took its place since the follower last read any of it. */
  datatype World = World(file: seq<Byte>, replaced: bool, follower: Follower)

  /**
   Append: the router adds bytes. Replace: another file takes its place. Look: a poll that saw the file
   at a moment when it was size bytes long and then read n bytes, or could not open it.
   */
  datatype Event =
    | Append(bytes: seq<Byte>)
    | Replace(bytes: seq<Byte>)
    | Miss
    | Look(size: nat, readable: bool, n: nat)

  ghost function FindingOf(w: World, size: nat, readable: bool, n: nat): Finding
    requires NextRead(w.follower.consumed, size).offset + n <= |w.file|
  {
    var offset := NextRead(w.follower.consumed, size).offset;
    Found(size, if readable then Some(w.file[offset..offset + n]) else None)
  }

  /**
   A file that replaced one partly consumed is first seen shorter than that part; a
   read stays within what was seen.
   */
  ghost predicate Enabled(w: World, ev: Event) {
    ev.Look? ==>
      && NextRead(w.follower.consumed, ev.size).offset + ev.n <= ev.size <= |w.file|
      && (ev.size < w.follower.consumed <==> w.replaced)
  }

  ghost function Happen(decode: Decoder, max: nat, w: World, ev: Event): World
    requires Enabled(w, ev)
  {
    match ev
    case Append(bytes) => w.(file := w.file + bytes)
    case Replace(bytes) => w.(file := bytes, replaced := w.follower.consumed != 0)
    case Miss => w.(follower := Poll(decode, max, w.follower, NoFile))
    case Look(size, readable, n) =>
      w.(follower := Poll(decode, max, w.follower, FindingOf(w, size, readable, n)), replaced := false)
  }

  /** No line the follower has reached is over the carry ceiling, or at least none that would have counted. */
  ghost predicate LinesFit(decode: Decoder, max: nat, file: seq<Byte>) {
    forall line :: line in Lines([], file) && |line| > max ==> Bad(decode, line)
  }

  /** The follower has read a prefix of this file as if in one chunk; base is what it skipped in earlier files. */
  ghost predicate Synced(decode: Decoder, max: nat, f: Follower, file: seq<Byte>, base: nat) {
    && f.consumed <= |file|
    && Consume(decode, max, Tail([], false, base), file[..f.consumed]) == Out(f.tail, f.records)
  }

  lemma SyncedRead(decode: Decoder, max: nat, f: Follower, file: seq<Byte>, base: nat, n: nat)
    requires Synced(decode, max, f, file, base) && LinesFit(decode, max, file) && f.consumed + n <= |file|
    ensures var o := Consume(decode, max, f.tail, file[f.consumed..f.consumed + n]);
            Synced(decode, max, Follower(f.consumed + n, o.tail, f.records + o.records), file, base)
  {
    var t := Tail([], false, base);
    LongLinesAre(decode, max, t, file);
    Slices(file, f.consumed, n);
    ReadInTwo(decode, max, t, file[..f.consumed], file[f.consumed..f.consumed + n], file[f.consumed + n..]);
  }

  lemma Slices(file: seq<Byte>, at: nat, n: nat)
    requires at + n <= |file|
    ensures file == file[..at] + (file[at..at + n] + file[at + n..])
    ensures file[..at + n] == file[..at] + file[at..at + n]
  {
  }

  /** Reading a and then b of a file that goes on with c is reading a + b. */
  lemma ReadInTwo(decode: Decoder, max: nat, t: Tail, a: seq<Byte>, b: seq<Byte>, c: seq<Byte>)
    requires Clean(t) && LongLinesBad(decode, max, t, a + (b + c))
    ensures var first := Consume(decode, max, t, a);
            Consume(decode, max, t, a + b) == Then(first.records, Consume(decode, max, first.tail, b))
  {
    var scanned := Scan(decode, t, a);
    LongLinesSum(decode, max, t, a, b + c);
    LongLinesSum(decode, max, scanned.tail, b, c);
    ScanClean(decode, t, a);
    SealEarly(decode, max, scanned.tail, b);
    ScanSum(decode, t, a, b);
  }

  lemma SyncedAppend(decode: Decoder, max: nat, f: Follower, file: seq<Byte>, base: nat, bytes: seq<Byte>)
    requires Synced(decode, max, f, file, base)
    ensures Synced(decode, max, f, file + bytes, base)
  {
    assert (file + bytes)[..f.consumed] == file[..f.consumed];
  }

  /** In step with the current file, or waiting to notice that it was replaced. */
  ghost predicate InStep(decode: Decoder, max: nat, w: World, base: nat) {
    if w.replaced then w.follower.consumed != 0 else Synced(decode, max, w.follower, w.file, base)
  }

  /** One event; the new base differs only when a restart is noticed. */
  lemma FollowStep(decode: Decoder, max: nat, w: World, ev: Event, base: nat) returns (base': nat)
    requires InStep(decode, max, w, base) && Enabled(w, ev) && LinesFit(decode, max, w.file)
    ensures InStep(decode, max, Happen(decode, max, w, ev), base')
  {
    base' := base;
    match ev {
      case Append(bytes) =>
        if !w.replaced {
          SyncedAppend(decode, max, w.follower, w.file, base, bytes);
        }
      case Replace(bytes) =>
        assert w.follower.consumed == 0 ==> bytes[..0] == w.file[..0];
      case Miss =>
      case Look(size, readable, n) =>
        base' := PollStep(decode, max, w.follower, w.file, FindingOf(w, size, readable, n), base);
    }
  }

  lemma PollStep(decode: Decoder, max: nat, f: Follower, file: seq<Byte>, found: Finding, base: nat)
    returns (base': nat)
    requires LinesFit(decode, max, file) && found.Found?
             && (found.size >= f.consumed ==> Synced(decode, max, f, file, base))
    requires var at := NextRead(f.consumed, found.size).offset;
             found.read.Some? ==>
               at + |found.read.value| <= |file| && found.read.value == file[at..at + |found.read.value|]
    ensures Synced(decode, max, Poll(decode, max, f, found), file, base')
  {
    var g := Restarted(f, found.size);
    base' := if found.size < f.consumed then f.tail.skipped else base;
    assert file[..0] == [];
    if found.read.Some? {
      SyncedRead(decode, max, g, file, base', |found.read.value|);
    }
  }

  ghost predicate Legal(decode: Decoder, max: nat, w: World, evs: seq<Event>)
    decreases |evs|
  {
    LinesFit(decode, max, w.file)
    && (evs != [] ==> Enabled(w, evs[0]) && Legal(decode, max, Happen(decode, max, w, evs[0]), evs[1..]))
  }

  ghost function Run(decode: Decoder, max: nat, w: World, evs: seq<Event>): World
    requires Legal(decode, max, w, evs)
    decreases |evs|
  {
    if evs == [] then w else Run(decode, max, Happen(decode, max, w, evs[0]), evs[1..])
  }

  lemma {:induction false} FollowRun(decode: Decoder, max: nat, w: World, evs: seq<Event>, base: nat)
    returns (base': nat)
    requires InStep(decode, max, w, base) && Legal(decode, max, w, evs)
    ensures InStep(decode, max, Run(decode, max, w, evs), base')
    ensures LinesFit(decode, max, Run(decode, max, w, evs).file)
    decreases |evs|
  {
    base' := base;
    if evs != [] {
      var mid := FollowStep(decode, max, w, evs[0], base);
      base' := FollowRun(decode, max, Happen(decode, max, w, evs[0]), evs[1..], mid);
    }
  }

  /**
   After any run of appends, replacements and polls, the view holds the records of the complete lines in the
   first consumed bytes of the current file: none lost, none repeated, none left from an earlier file.
   */
  lemma TailFollow(decode: Decoder, max: nat, file: seq<Byte>, evs: seq<Event>)
    requires Legal(decode, max, World(file, false, Follower(0, START, [])), evs)
    ensures var w := Run(decode, max, World(file, false, Follower(0, START, [])), evs);
            !w.replaced ==>
              && w.follower.consumed <= |w.file|
              && w.follower.records == RecordsOf(decode, Lines([], w.file[..w.follower.consumed]))
  {
    var start := World(file, false, Follower(0, START, []));
    assert file[..0] == [];
    var base := FollowRun(decode, max, start, evs, 0);
    var w := Run(decode, max, start, evs);
    if !w.replaced {
      ScanIsLines(decode, Tail([], false, base), w.file[..w.follower.consumed]);
    }
  }

  /** What a poll reads moves the position on by as much; a file seen shorter starts again. */
  lemma PollAdvances(decode: Decoder, max: nat, f: Follower, size: nat, read: seq<Byte>)
    requires size != 0
    ensures var at := if size < f.consumed then 0 else f.consumed;
            at < size ==> Poll(decode, max, f, Found(size, Some(read))).consumed == at + |read|
  {
  }

  /** A poll that sees the whole file and reads all it has not read. */
  ghost function LookAtAll(w: World): Event {
    Look(|w.file|, true, |w.file| - NextRead(w.follower.consumed, |w.file|).offset)
  }

  /** Such a poll leaves the view with the records of every complete line of the file. */
  lemma CaughtUp(decode: Decoder, max: nat, file: seq<Byte>, evs: seq<Event>)
    requires Legal(decode, max, World(file, false, Follower(0, START, [])), evs)
    ensures var w := Run(decode, max, World(file, false, Follower(0, START, [])), evs);
            Enabled(w, LookAtAll(w)) ==>
              var f := Happen(decode, max, w, LookAtAll(w)).follower;
              f.consumed == |w.file| && f.records == RecordsOf(decode, Lines([], w.file))
  {
    var start := World(file, false, Follower(0, START, []));
    assert file[..0] == [];
    var base := FollowRun(decode, max, start, evs, 0);
    var w := Run(decode, max, start, evs);
    if Enabled(w, LookAtAll(w)) {
      CaughtUpFrom(decode, max, w, LookAtAll(w), base);
    }
  }

  lemma CaughtUpFrom(decode: Decoder, max: nat, w: World, look: Event, base: nat)
    requires look == LookAtAll(w) && Enabled(w, look) && InStep(decode, max, w, base) && LinesFit(decode, max, w.file)
    ensures var f := Happen(decode, max, w, look).follower;
            f.consumed == |w.file| && f.records == RecordsOf(decode, Lines([], w.file))
  {
    var again := FollowStep(decode, max, w, look, base);
    assert Happen(decode, max, w, look).follower.consumed == |w.file|;
    WholeFileSynced(decode, max, Happen(decode, max, w, look).follower, w.file, again);
  }

  lemma WholeFileSynced(decode: Decoder, max: nat, f: Follower, file: seq<Byte>, base: nat)
    requires Synced(decode, max, f, file, base) && f.consumed == |file|
    ensures f.records == RecordsOf(decode, Lines([], file))
  {
    assert file[..f.consumed] == file;
    ScanIsLines(decode, Tail([], false, base), file);
  }

  /** The follower's view after one poll that reads the whole of what another file holds past the follow position. */
  ghost function RecordsAfterReplacement(decode: Decoder, max: nat, f: Follower, file: seq<Byte>): seq<LedgerRecord> {
    var step := NextRead(f.consumed, |file|);
    Poll(decode, max, f, Found(|file|, Some(file[step.offset..]))).records
  }

  lemma NoLines(prefix: seq<Byte>, bytes: seq<Byte>)
    requires NewlineFree(bytes)
    ensures Lines(prefix, bytes) == []
  {
    assert bytes + [] == bytes;
    LinesWithin(prefix, bytes, []);
  }

  /**
   Replacement, exactly: a view that has records shows the records of whatever file of that size took its
   place if and only if the new file is seen shorter than what was consumed. Any other replacement can leave
   records of two files in one view.
   */
  lemma ReplacementNoticed(decode: Decoder, max: nat, f: Follower, size: nat)
    requires f.records != []
    ensures (forall file :: |file| == size ==>
             RecordsAfterReplacement(decode, max, f, file) == RecordsOf(decode, Lines([], file)))
            <==> size < f.consumed
  {
    if size < f.consumed {
      forall file | |file| == size
        ensures RecordsAfterReplacement(decode, max, f, file) == RecordsOf(decode, Lines([], file))
      {
        ShrunkIsNoticed(decode, max, f, file);
      }
    } else {
      var file: seq<Byte> := seq(size, i => 0);
      NoLines([], file);
      assert f.records <= RecordsAfterReplacement(decode, max, f, file);
    }
  }

  lemma ShrunkIsNoticed(decode: Decoder, max: nat, f: Follower, file: seq<Byte>)
    requires |file| < f.consumed
    ensures RecordsAfterReplacement(decode, max, f, file) == RecordsOf(decode, Lines([], file))
  {
    assert file[0..] == file;
    ScanIsLines(decode, Tail([], false, f.tail.skipped), file);
  }

  /** Nothing was read of the old file, so nothing is carried. */
  ghost predicate CarriesWhatItRead(f: Follower) {
    f.consumed == 0 ==> f.tail.carry == [] && !f.tail.dropping
  }

  ghost predicate ShowsReplacement(decode: Decoder, max: nat, f: Follower, file: seq<Byte>) {
    RecordsAfterReplacement(decode, max, f, file) == RecordsOf(decode, Lines([], file))
  }

  /**
   The same of any view, whatever the lines decode to: one without records is safe only while nothing was
   consumed, or if the new file is too short for a line with anything on it.
   */
  lemma EveryReplacementNoticed(max: nat, f: Follower, size: nat, r: LedgerRecord)
    requires CarriesWhatItRead(f)
    ensures (forall decode, file :: |file| == size ==> ShowsReplacement(decode, max, f, file))
            <==> size < f.consumed || (f.records == [] && (f.consumed == 0 || size <= 1))
  {
    if size < f.consumed || (f.records == [] && (f.consumed == 0 || size <= 1)) {
      forall decode, file | |file| == size
        ensures ShowsReplacement(decode, max, f, file)
      {
        if size < f.consumed {
          ShrunkIsNoticed(decode, max, f, file);
        } else {
          NothingToMix(decode, max, f, file);
        }
      }
    } else if f.records != [] {
      var decode: Decoder := line => None;
      ReplacementNoticed(decode, max, f, size);
      var file :| |file| == size && RecordsAfterReplacement(decode, max, f, file) != RecordsOf(decode, Lines([], file));
      assert !ShowsReplacement(decode, max, f, file);
    } else {
      var decode, file := FirstLineMissed(max, f, size, r);
    }
  }

  /** A replacement that is not noticed adds what the rest of the new file gives the old tail. */
  lemma Unnoticed(decode: Decoder, max: nat, f: Follower, file: seq<Byte>)
    requires f.consumed <= |file|
    ensures RecordsAfterReplacement(decode, max, f, file) == f.records
            + Scan(decode, f.tail, file[f.consumed..]).records
  {
    if f.consumed == |file| {
      assert file[f.consumed..] == [] && f.records + [] == f.records;
    }
  }

  lemma NothingToMix(decode: Decoder, max: nat, f: Follower, file: seq<Byte>)
    requires CarriesWhatItRead(f) && f.records == [] && f.consumed <= |file|
    requires f.consumed == 0 || |file| <= 1
    ensures ShowsReplacement(decode, max, f, file)
  {
    Unnoticed(decode, max, f, file);
    if f.consumed == 0 {
      assert file[0..] == file;
      ScanIsLines(decode, f.tail, file);
    } else {
      assert file[f.consumed..] == [];
      ShortFile(decode, file);
    }
  }

  lemma ShortFile(decode: Decoder, file: seq<Byte>)
    requires |file| == 1
    ensures RecordsOf(decode, Lines([], file)) == []
  {
    if file[0] == NEWLINE {
      assert file == [] + [NEWLINE] + [];
      LinesOfLine([], [], []);
    } else {
      NoLines([], file);
    }
  }

  lemma OnlyRecord(decode: Decoder, letter: Byte, rest: seq<Byte>, r: LedgerRecord)
    requires decode([letter]) == Some(r) && !IsBlankByte(letter) && NewlineFree(rest)
    ensures RecordsOf(decode, Lines([], [letter] + [NEWLINE] + rest)) == [r]
  {
    LinesOfLine([], [letter], rest);
    NoLines([], rest);
    assert [] + [letter] == [letter];
    assert letter in [letter] && WithoutReturn([letter]) == [letter];
    assert RecordsOf(decode, [[letter]]) == RecordOf(decode, [letter]) + RecordsOf(decode, []);
  }

  /** The end of a line that does not decode, and the start of another. */
  lemma NoRecord(decode: Decoder, t: Tail, rest: seq<Byte>)
    requires NewlineFree(rest) && RecordOf(decode, t.carry) == []
    ensures Scan(decode, t, rest).records == []
    ensures Scan(decode, t, [NEWLINE] + rest).records == []
  {
    ScanWithin(decode, t, rest);
    ScanWithin(decode, Put(decode, t, NEWLINE).tail, rest);
    ScanFirst(decode, t, NEWLINE, rest, [NEWLINE] + rest);
  }

  /** A first line that lies in the part taken for consumed, or is completed by what another file left behind. */
  lemma FirstLineMissed(max: nat, f: Follower, size: nat, r: LedgerRecord) returns (decode: Decoder, file: seq<Byte>)
    requires f.records == [] && 0 < f.consumed <= size && size >= 2
    ensures |file| == size && !ShowsReplacement(decode, max, f, file)
  {
    var letter: Byte := if WithoutReturn(f.tail.carry) == [97] then 98 else 97;
    var rest: seq<Byte> := seq(size - 2, i => 97);
    decode := line => if line == [letter] then Some(r) else None;
    file := [letter] + [NEWLINE] + rest;
    OnlyRecord(decode, letter, rest, r);
    assert RecordOf(decode, f.tail.carry) == [];
    NothingRead(decode, max, f, letter, rest);
  }

  lemma NothingRead(decode: Decoder, max: nat, f: Follower, letter: Byte, rest: seq<Byte>)
    requires NewlineFree(rest) && RecordOf(decode, f.tail.carry) == []
    requires f.records == [] && 0 < f.consumed <= |rest| + 2
    ensures RecordsAfterReplacement(decode, max, f, [letter] + [NEWLINE] + rest) == []
  {
    var file := [letter] + [NEWLINE] + rest;
    Unnoticed(decode, max, f, file);
    if f.consumed == 1 {
      assert file[1..] == [NEWLINE] + rest;
      NoRecord(decode, f.tail, rest);
    } else {
      assert file[f.consumed..] == rest[f.consumed - 2..];
      NoRecord(decode, f.tail, rest[f.consumed - 2..]);
    }
  }

  lemma OneLine(decode: Decoder, t: Tail, line: seq<Byte>)
    requires NewlineFree(line) && !t.dropping
    ensures Scan(decode, t, line + [NEWLINE]).records == RecordOf(decode, t.carry + line)
    ensures !Bad(decode, t.carry + line) ==> Scan(decode, t, line + [NEWLINE]).tail == Tail([], false, t.skipped)
  {
    assert line + [NEWLINE] == line + [NEWLINE] + [];
    ScanLine(decode, t, line, []);
    assert RecordOf(decode, t.carry + line) + [] == RecordOf(decode, t.carry + line);
  }

  /** A follower after it has read the whole of its first file. */
  ghost function HasRead(decode: Decoder, max: nat, file: seq<Byte>): Follower {
    Poll(decode, max, Follower(0, START, []), Found(|file|, Some(file)))
  }

  lemma HasReadLine(decode: Decoder, max: nat, a: seq<Byte>, r: LedgerRecord)
    requires NewlineFree(a) && RecordOf(decode, a) == [r]
    ensures HasRead(decode, max, a + [NEWLINE]) == Follower(|a| + 1, START, [r])
  {
    OneLine(decode, START, a);
    assert [] + a == a && [] + [r] == [r];
  }

  lemma HasReadPart(decode: Decoder, max: nat, a: seq<Byte>)
    requires NewlineFree(a) && 0 < |a| <= max
    ensures HasRead(decode, max, a) == Follower(|a|, Tail(a, false, 0), [])
  {
    ScanWithin(decode, START, a);
    assert [] + a == a;
  }

  /**
   A longer file in the place of one of a line: the view has a record of each, and one
   of the new file's is missing.
   */
  lemma MixedFiles(decode: Decoder, max: nat, a: seq<Byte>, b: seq<Byte>, ra: LedgerRecord, rb: LedgerRecord)
    requires NewlineFree(a) && NewlineFree(b) && |a| == |b|
    requires RecordOf(decode, a) == [ra] && RecordOf(decode, b) == [rb]
    ensures var later := (b + [NEWLINE]) + (b + [NEWLINE]);
            && RecordsOf(decode, Lines([], later)) == [rb, rb]
            && RecordsAfterReplacement(decode, max, HasRead(decode, max, a + [NEWLINE]), later) == [ra, rb]
  {
    var line := b + [NEWLINE];
    HasReadLine(decode, max, a, ra);
    Unnoticed(decode, max, Follower(|a| + 1, START, [ra]), line + line);
    assert (line + line)[|a| + 1..] == line && [ra] + [rb] == [ra, rb];
    LineRead(decode, b, rb);
    ScanSum(decode, START, line, line);
    ScanIsLines(decode, START, line + line);
  }

  lemma LineRead(decode: Decoder, b: seq<Byte>, rb: LedgerRecord)
    requires NewlineFree(b) && RecordOf(decode, b) == [rb]
    ensures Scan(decode, START, b + [NEWLINE]) == Out(START, [rb])
  {
    OneLine(decode, START, b);
    assert [] + b == b;
  }

  /** A file of one line in the place of the start of another: what the view decodes stands in neither. */
  lemma MixedLine(decode: Decoder, max: nat, a: seq<Byte>, b: seq<Byte>, rest: seq<Byte>)
    requires NewlineFree(a) && NewlineFree(b) && NewlineFree(rest) && 0 < |a| == |b| <= max
    ensures var later := (b + rest) + [NEWLINE];
            && RecordsOf(decode, Lines([], later)) == RecordOf(decode, b + rest)
            && RecordsAfterReplacement(decode, max, HasRead(decode, max, a), later) == RecordOf(decode, a + rest)
  {
    var later, carrying := (b + rest) + [NEWLINE], Follower(|a|, Tail(a, false, 0), []);
    LineOf(decode, b + rest);
    HasReadPart(decode, max, a);
    assert later[|a|..] == rest + [NEWLINE];
    GoesOn(decode, max, carrying, later, rest);
    assert [] + RecordOf(decode, a + rest) == RecordOf(decode, a + rest);
  }

  lemma GoesOn(decode: Decoder, max: nat, f: Follower, file: seq<Byte>, rest: seq<Byte>)
    requires f.consumed <= |file| && file[f.consumed..] == rest + [NEWLINE] && NewlineFree(rest) && !f.tail.dropping
    ensures RecordsAfterReplacement(decode, max, f, file) == f.records + RecordOf(decode, f.tail.carry + rest)
  {
    Unnoticed(decode, max, f, file);
    OneLine(decode, f.tail, rest);
  }

  lemma LineOf(decode: Decoder, b: seq<Byte>)
    requires NewlineFree(b)
    ensures RecordsOf(decode, Lines([], b + [NEWLINE])) == RecordOf(decode, b)
  {
    OneLine(decode, START, b);
    assert [] + b == b;
    ScanIsLines(decode, START, b + [NEWLINE]);
  }
}
