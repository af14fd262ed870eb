/** router/metrics.hpp: the router's own aggregate, and its agreement with the dashboard's. */
module Metrics {
  import opened Wrappers
  import opened LedgerTails
  import opened Aggregates
  import opened LedgerViews

  /** One request's ledger line as the router records it; timings are copied verbatim and never counted. */
  datatype RequestRecord = RequestRecord(model: string, role: Option<string>, group: Option<string>, priority: string,
                                         queueWaitMs: int, upstreamMs: Option<int>,
                                         promptTokens: Option<int>, completionTokens: Option<int>,
                                         schemaMissing: Option<bool>, schemaConformed: Option<bool>, status: int)

  /** What the reader makes of the line. */
  function AsLedger(r: RequestRecord): LedgerRecord {
    LedgerRecord(r.model, r.role, r.group, r.priority, Some(r.queueWaitMs), r.upstreamMs,
                 r.promptTokens, r.completionTokens, r.schemaMissing, r.schemaConformed, r.status)
  }

  function AllAsLedger(rs: seq<RequestRecord>): seq<LedgerRecord> {
    seq(|rs|, i requires 0 <= i < |rs| => AsLedger(rs[i]))
  }

  function QueueWaits(rs: seq<RequestRecord>): seq<int> {
    seq(|rs|, i requires 0 <= i < |rs| => rs[i].queueWaitMs)
  }

  /** The router always measures a wait, so every record is a sample. */
  lemma {:induction false} WaitsOfRequests(rs: seq<RequestRecord>)
    ensures Waits(AllAsLedger(rs)) == QueueWaits(rs)
  {
    if rs != [] {
      var k := |rs| - 1;
      WaitsOfRequests(rs[..k]);
      assert AllAsLedger(rs)[..k] == AllAsLedger(rs[..k]);
      assert QueueWaits(rs) == QueueWaits(rs[..k]) + [rs[k].queueWaitMs];
    }
  }

  /** The tally, read off the requests themselves. */
  ghost predicate RequestsRead(t: Tally, rs: seq<RequestRecord>) {
    && t.total == |rs|
    && t.missing == |set i: nat | i < |rs| && rs[i].schemaMissing == Some(true)|
    && t.conformed == |set i: nat | i < |rs| && rs[i].schemaConformed == Some(true)|
    && t.verdicts == |set i: nat | i < |rs| && rs[i].schemaConformed != None|
    && t.prompt == Sum(seq(|rs|, i requires 0 <= i < |rs| => OrZero(rs[i].promptTokens)))
    && t.completion == Sum(seq(|rs|, i requires 0 <= i < |rs| => OrZero(rs[i].completionTokens)))
    && (forall s :: s in t.statusCounts <==> exists i :: 0 <= i < |rs| && rs[i].status == s)
    && (forall s :: s in t.statusCounts ==> t.statusCounts[s] == |set i: nat | i < |rs| && rs[i].status == s|)
  }

  lemma RequestsAreRead(t: Tally, rs: seq<RequestRecord>)
    requires TallyOf(t, AllAsLedger(rs))
    ensures RequestsRead(t, rs)
  {
    var ls := AllAsLedger(rs);
    TallyIsRead(t, ls);
    RequestCounts(rs, ls);
    assert seq(|ls|, i requires 0 <= i < |ls| => OrZero(ls[i].promptTokens))
        == seq(|rs|, i requires 0 <= i < |rs| => OrZero(rs[i].promptTokens));
    assert seq(|ls|, i requires 0 <= i < |ls| => OrZero(ls[i].completionTokens))
        == seq(|rs|, i requires 0 <= i < |rs| => OrZero(rs[i].completionTokens));
    forall s
      ensures s in t.statusCounts <==> exists i :: 0 <= i < |rs| && rs[i].status == s
      ensures s in t.statusCounts ==> t.statusCounts[s] == |set i: nat | i < |rs| && rs[i].status == s|
    {
      RequestStatus(rs, ls, s);
    }
  }

  lemma RequestCounts(rs: seq<RequestRecord>, ls: seq<LedgerRecord>)
    requires ls == AllAsLedger(rs)
    ensures (set i: nat | i < |ls| && ls[i].schemaMissing == Some(true))
         == set i: nat | i < |rs| && rs[i].schemaMissing == Some(true)
    ensures (set i: nat | i < |ls| && ls[i].schemaConformed == Some(true))
         == set i: nat | i < |rs| && rs[i].schemaConformed == Some(true)
    ensures (set i: nat | i < |ls| && ls[i].schemaConformed != None)
         == set i: nat | i < |rs| && rs[i].schemaConformed != None
  {
  }

  lemma RequestStatus(rs: seq<RequestRecord>, ls: seq<LedgerRecord>, s: int)
    requires ls == AllAsLedger(rs)
    ensures (set i: nat | i < |ls| && ls[i].status == s) == set i: nat | i < |rs| && rs[i].status == s
    ensures (exists i :: 0 <= i < |ls| && ls[i].status == s) <==> exists i :: 0 <= i < |rs| && rs[i].status == s
  {
    assert forall i :: 0 <= i < |rs| ==> ls[i].status == rs[i].status;
  }

  datatype Summary = Summary(tally: Tally, waitMsP50: int, waitMsP95: int, schemaConformanceRate: Option<real>)

  class MetricsLedger {
    var totalRequests: nat
    var schemaMissingTrue: nat
    var schemaConformedTrue: nat
    var schemaVerdicts: nat
    var promptTokensTotal: int
    var completionTokensTotal: int
    var statusCounts: map<int, nat>
    var waits: seq<int>

    ghost var history: seq<RequestRecord>

    function Figures(): Tally
      reads this
    {
      Tally(totalRequests, schemaMissingTrue, schemaConformedTrue, schemaVerdicts, promptTokensTotal,
            completionTokensTotal, statusCounts)
    }

    ghost predicate Valid()
      reads this
    {
      TallyOf(Figures(), AllAsLedger(history)) && waits == QueueWaits(history)
    }

    constructor ()
      ensures Valid() && history == []
    {
      totalRequests, schemaMissingTrue, schemaConformedTrue, schemaVerdicts := 0, 0, 0, 0;
      promptTokensTotal, completionTokensTotal, statusCounts, waits := 0, 0, map[], [];
      history := [];
    }

    /** The counters of accumulate(). */
    method Count(entry: RequestRecord)
      modifies this`totalRequests, this`statusCounts, this`promptTokensTotal, this`completionTokensTotal,
               this`schemaMissingTrue, this`schemaVerdicts, this`schemaConformedTrue
      ensures Figures() == Counted(old(Figures()), AsLedger(entry))
    {
      totalRequests := totalRequests + 1;
      statusCounts := CountUp(statusCounts, entry.status);
      if entry.promptTokens.Some? {
        promptTokensTotal := promptTokensTotal + entry.promptTokens.value;
      }
      if entry.completionTokens.Some? {
        completionTokensTotal := completionTokensTotal + entry.completionTokens.value;
      }
      CountSchema(entry.schemaMissing, entry.schemaConformed);
    }

    /** The schema counters of one record. */
    method CountSchema(missing: Option<bool>, conformed: Option<bool>)
      modifies this`schemaMissingTrue, this`schemaVerdicts, this`schemaConformedTrue
      ensures schemaMissingTrue == old(schemaMissingTrue) + if missing == Some(true) then 1 else 0
      ensures schemaVerdicts == old(schemaVerdicts) + if conformed.Some? then 1 else 0
      ensures schemaConformedTrue == old(schemaConformedTrue) + if conformed == Some(true) then 1 else 0
    {
      if missing.Some? && missing.value {
        schemaMissingTrue := schemaMissingTrue + 1;
      }
      if conformed.Some? {
        schemaVerdicts := schemaVerdicts + 1;
        if conformed.value {
          schemaConformedTrue := schemaConformedTrue + 1;
        }
      }
    }

    /** Counters advance whatever happens to the file. */
    method Accumulate(entry: RequestRecord)
      requires Valid()
      modifies this
      ensures Valid() && history == old(history) + [entry]
    {
      CountedIsTally(Figures(), AllAsLedger(history), AsLedger(entry));
      Count(entry);
      waits := waits + [entry.queueWaitMs];
      assert AllAsLedger(history + [entry]) == AllAsLedger(history) + [AsLedger(entry)];
      assert QueueWaits(history + [entry]) == QueueWaits(history) + [entry.queueWaitMs];
      history := history + [entry];
    }

    method ConformanceRate() returns (rate: Option<real>)
      requires Valid()
      ensures ConformanceOf(rate, AllAsLedger(history))
    {
      ConformedAreVerdicts(AllAsLedger(history));
      RateIsShare(schemaConformedTrue, schemaVerdicts);
      rate := Rate(schemaConformedTrue, schemaVerdicts);
    }

    method Summarize() returns (out: Summary)
      requires Valid()
      ensures TallyOf(out.tally, AllAsLedger(history)) && RequestsRead(out.tally, history)
      ensures out.waitMsP50 == NearestRank(QueueWaits(history), 50)
      ensures out.waitMsP95 == NearestRank(QueueWaits(history), 95)
      ensures ConformanceOf(out.schemaConformanceRate, AllAsLedger(history))
      ensures IsShare(out.schemaConformanceRate, out.tally.conformed, out.tally.verdicts)
    {
      RequestsAreRead(Figures(), history);
      var rate := ConformanceRate();
      out := Summary(Figures(), NearestRank(waits, 50), NearestRank(waits, 95), rate);
    }
  }

  /** Summarize's contract, as a relation. */
  ghost predicate RouterReports(out: Summary, rs: seq<RequestRecord>) {
    && TallyOf(out.tally, AllAsLedger(rs))
    && out.waitMsP50 == NearestRank(QueueWaits(rs), 50)
    && out.waitMsP95 == NearestRank(QueueWaits(rs), 95)
    && ConformanceOf(out.schemaConformanceRate, AllAsLedger(rs))
  }

  /** Aggregate's contract, as a relation. */
  ghost predicate DashboardReports(out: LedgerAggregate, windowSize: nat, rs: seq<LedgerRecord>) {
    && TallyOf(out.tally, rs)
    && out.waitMsP50 == NearestRank(Waits(LastOf(windowSize, rs)), 50)
    && out.waitMsP95 == NearestRank(Waits(LastOf(windowSize, rs)), 95)
    && ConformanceOf(out.schemaConformanceRate, rs)
  }

  /**
   Over the same requests the endpoint and the dashboard quote the same totals, and the same
   percentiles while the run fits the window.
   */
  lemma RouterAndDashboardAgree(router: Summary, dashboard: LedgerAggregate, windowSize: nat, rs: seq<RequestRecord>)
    requires RouterReports(router, rs) && DashboardReports(dashboard, windowSize, AllAsLedger(rs))
    ensures router.tally == dashboard.tally && RequestsRead(router.tally, rs)
    ensures router.schemaConformanceRate == dashboard.schemaConformanceRate
    ensures |rs| <= windowSize ==> router.waitMsP50 == dashboard.waitMsP50 && router.waitMsP95 == dashboard.waitMsP95
  {
    TallyIsUnique(router.tally, dashboard.tally, AllAsLedger(rs));
    RequestsAreRead(router.tally, rs);
    ShareIsUnique(router.schemaConformanceRate, dashboard.schemaConformanceRate,
                  CountIf(CONFORMED, AllAsLedger(rs)), CountIf(VERDICT, AllAsLedger(rs)));
    WaitsOfRequests(rs);
  }

  // ----- Through the file -----

  /**
   One call of appendLine: the request, the time stamped on its line, and how much of
   line and newline got written.
   */
  datatype Append = Append(entry: RequestRecord, completedAt: int, sent: nat)

  type Encoder = (RequestRecord, int) -> seq<Byte>

  function Line(encode: Encoder, a: Append): seq<Byte> {
    encode(a.entry, a.completedAt)
  }

  predicate Whole(encode: Encoder, a: Append) {
    a.sent > |Line(encode, a)|
  }

  /** A write that failed half way, or was under way when the router died. */
  predicate CutOff(encode: Encoder, a: Append) {
    0 < a.sent <= |Line(encode, a)|
  }

  function Piece(encode: Encoder, a: Append): seq<Byte> {
    if Whole(encode, a) then Line(encode, a) + [NEWLINE] else Line(encode, a)[..a.sent]
  }

  function LedgerFile(encode: Encoder, appends: seq<Append>): seq<Byte> {
    if appends == [] then [] else Piece(encode, appends[0]) + LedgerFile(encode, appends[1..])
  }

  /** The unfinished line at the end of the file after one more append, if start was there before it. */
  function Unfinished(encode: Encoder, start: seq<Byte>, a: Append): seq<Byte> {
    if Whole(encode, a) then [] else start + Piece(encode, a)
  }

  /** The file's lines: each one written whole, behind whatever was cut off before it. */
  function FileLines(encode: Encoder, start: seq<Byte>, appends: seq<Append>): seq<seq<Byte>>
    decreases |appends|
  {
    if appends == [] then []
    else
      (if Whole(encode, appends[0]) then [start + Line(encode, appends[0])] else [])
      + FileLines(encode, Unfinished(encode, start, appends[0]), appends[1..])
  }

  function FileEnd(encode: Encoder, start: seq<Byte>, appends: seq<Append>): seq<Byte>
    decreases |appends|
  {
    if appends == [] then start else FileEnd(encode, Unfinished(encode, start, appends[0]), appends[1..])
  }

  lemma {:induction false} LinesOfFile(encode: Encoder, start: seq<Byte>, appends: seq<Append>)
    requires forall a :: a in appends && a.sent > 0 ==> NewlineFree(Line(encode, a))
    ensures Lines(start, LedgerFile(encode, appends)) == FileLines(encode, start, appends)
    ensures Remainder(start, LedgerFile(encode, appends)) == FileEnd(encode, start, appends)
    decreases |appends|
  {
    if appends != [] {
      var a, rest := appends[0], appends[1..];
      assert forall x :: x in rest ==> x in appends;
      LinesOfFile(encode, Unfinished(encode, start, a), rest);
      if Whole(encode, a) {
        LinesOfLine(start, Line(encode, a), LedgerFile(encode, rest));
      } else {
        LinesWithin(start, Piece(encode, a), LedgerFile(encode, rest));
      }
    }
  }

  // ----- What the dashboard gets of it -----

  /** The JSON library writes one line that reads back as the record it was given. */
  ghost predicate Codec(encode: Encoder, decode: Decoder, a: Append) {
    && NewlineFree(Line(encode, a))
    && WithoutReturn(Line(encode, a)) == Line(encode, a) && !IsBlank(Line(encode, a))
    && decode(Line(encode, a)) == Some(AsLedger(a.entry))
  }

  /** And does not take a line behind the start of another for a record. */
  ghost predicate GluedAreBad(encode: Encoder, decode: Decoder, start: seq<Byte>, appends: seq<Append>)
    decreases |appends|
  {
    appends != [] ==>
      && (Whole(encode, appends[0]) && start != [] ==> Bad(decode, start + Line(encode, appends[0])))
      && GluedAreBad(encode, decode, Unfinished(encode, start, appends[0]), appends[1..])
  }

  /** The requests whose lines were written whole. */
  function Written(encode: Encoder, appends: seq<Append>): seq<RequestRecord> {
    if appends == [] then []
    else (if Whole(encode, appends[0]) then [appends[0].entry] else []) + Written(encode, appends[1..])
  }

  /** Those of them that stand on a line of their own; torn: an unfinished line comes before them. */
  function Kept(encode: Encoder, torn: bool, appends: seq<Append>): seq<RequestRecord>
    decreases |appends|
  {
    if appends == [] then []
    else if !Whole(encode, appends[0]) then Kept(encode, torn || appends[0].sent > 0, appends[1..])
    else (if torn then [] else [appends[0].entry]) + Kept(encode, false, appends[1..])
  }

  /** How many do not. */
  function Glued(encode: Encoder, torn: bool, appends: seq<Append>): nat
    decreases |appends|
  {
    if appends == [] then 0
    else if !Whole(encode, appends[0]) then Glued(encode, torn || appends[0].sent > 0, appends[1..])
    else (if torn then 1 else 0) + Glued(encode, false, appends[1..])
  }

  /** What one line written whole adds. */
  lemma WholeLine(encode: Encoder, decode: Decoder, start: seq<Byte>, a: Append, lines: seq<seq<Byte>>,
                  kept: seq<RequestRecord>)
    requires Codec(encode, decode, a) && (start != [] ==> Bad(decode, start + Line(encode, a)))
    requires RecordsOf(decode, lines) == AllAsLedger(kept)
    ensures var all := [start + Line(encode, a)] + lines;
            && RecordsOf(decode, all) == AllAsLedger((if start != [] then [] else [a.entry]) + kept)
            && BadLines(decode, all) == (if start != [] then 1 else 0) + BadLines(decode, lines)
  {
    var line := start + Line(encode, a);
    LineMore(decode, line, lines);
    if start == [] {
      assert line == Line(encode, a);
      RecordMore(a.entry, kept);
    } else {
      assert RecordOf(decode, line) == [] && [] + kept == kept && [] + AllAsLedger(kept) == AllAsLedger(kept);
    }
  }

  lemma LineMore(decode: Decoder, line: seq<Byte>, lines: seq<seq<Byte>>)
    ensures RecordsOf(decode, [line] + lines) == RecordOf(decode, line) + RecordsOf(decode, lines)
    ensures BadLines(decode, [line] + lines) == (if Bad(decode, line) then 1 else 0) + BadLines(decode, lines)
  {
    assert ([line] + lines)[1..] == lines;
  }

  lemma RecordMore(r: RequestRecord, rs: seq<RequestRecord>)
    ensures AllAsLedger([r] + rs) == [AsLedger(r)] + AllAsLedger(rs)
  {
  }

  lemma {:induction false} KeptOfLines(encode: Encoder, decode: Decoder, start: seq<Byte>, appends: seq<Append>)
    requires forall a :: a in appends && a.sent > 0 ==> Codec(encode, decode, a)
    requires GluedAreBad(encode, decode, start, appends)
    ensures RecordsOf(decode, FileLines(encode, start, appends)) == AllAsLedger(Kept(encode, start != [], appends))
    ensures BadLines(decode, FileLines(encode, start, appends)) == Glued(encode, start != [], appends)
    decreases |appends|
  {
    if appends != [] {
      var a, rest := appends[0], appends[1..];
      assert forall x :: x in rest ==> x in appends;
      KeptOfLines(encode, decode, Unfinished(encode, start, a), rest);
      var lines := FileLines(encode, Unfinished(encode, start, a), rest);
      if Whole(encode, a) {
        WholeLine(encode, decode, start, a, lines, Kept(encode, false, rest));
      } else {
        assert [] + lines == lines;
      }
    }
  }

  lemma {:induction false} LongLinesGlued(encode: Encoder, decode: Decoder, max: nat, start: seq<Byte>,
                                          appends: seq<Append>)
    requires forall a :: a in appends && a.sent > 0 ==> |Line(encode, a)| <= max
    requires GluedAreBad(encode, decode, start, appends)
    ensures forall line :: line in FileLines(encode, start, appends) && |line| > max ==> Bad(decode, line)
    decreases |appends|
  {
    if appends != [] {
      assert forall x :: x in appends[1..] ==> x in appends;
      LongLinesGlued(encode, decode, max, Unfinished(encode, start, appends[0]), appends[1..]);
    }
  }

  /**
   The file the router appends to gives the dashboard, however its reads cut it up, exactly the requests whose lines
   were written whole and not behind an unfinished one, in order, and a skip for each of the others written whole,
   as long as no line is longer than the carry ceiling.
   */
  lemma LedgerReadBack(encode: Encoder, decode: Decoder, max: nat, appends: seq<Append>, chunks: seq<seq<Byte>>)
    requires forall a :: a in appends && a.sent > 0 ==> Codec(encode, decode, a) && |Line(encode, a)| <= max
    requires GluedAreBad(encode, decode, [], appends)
    requires Concat(chunks) == LedgerFile(encode, appends)
    ensures var end := Tail(FileEnd(encode, [], appends), false, Glued(encode, false, appends));
            ConsumeAll(decode, max, START, chunks) == Out(Seal(max, end), AllAsLedger(Kept(encode, false, appends)))
  {
    var file := LedgerFile(encode, appends);
    LinesOfFile(encode, [], appends);
    KeptOfLines(encode, decode, [], appends);
    LongLinesGlued(encode, decode, max, [], appends);
    LongLinesAre(decode, max, START, file);
    ScanIsLines(decode, START, file);
    ChunksAsOne(decode, max, START, chunks);
  }

  // ----- What a write that was cut off costs -----

  function CutOffs(encode: Encoder, appends: seq<Append>): nat {
    if appends == [] then 0 else (if CutOff(encode, appends[0]) then 1 else 0) + CutOffs(encode, appends[1..])
  }

  /** Each unfinished line costs at most one that was written whole, the next; none are lost otherwise. */
  lemma {:induction false} CutOffCostsOne(encode: Encoder, torn: bool, appends: seq<Append>)
    ensures |Kept(encode, torn, appends)| + Glued(encode, torn, appends) == |Written(encode, appends)|
    ensures Glued(encode, torn, appends) <= CutOffs(encode, appends) + (if torn then 1 else 0)
    ensures Glued(encode, torn, appends) == 0 ==> Kept(encode, torn, appends) == Written(encode, appends)
    decreases |appends|
  {
    if appends != [] {
      CutOffCostsOne(encode, !Whole(encode, appends[0]) && (torn || appends[0].sent > 0), appends[1..]);
    }
  }

  /** No line is written whole after one that was cut off. */
  ghost predicate CutOffsLast(encode: Encoder, appends: seq<Append>) {
    forall i, j :: 0 <= i < j < |appends| && CutOff(encode, appends[i]) ==> !Whole(encode, appends[j])
  }

  lemma {:induction false} GluedExactly(encode: Encoder, torn: bool, appends: seq<Append>)
    ensures Glued(encode, torn, appends) == 0
            <==> CutOffsLast(encode, appends) && (torn ==> forall a :: a in appends ==> !Whole(encode, a))
    decreases |appends|
  {
    if appends != [] {
      var a, rest := appends[0], appends[1..];
      GluedExactly(encode, !Whole(encode, a) && (torn || a.sent > 0), rest);
      assert forall i, j :: 0 <= i < j < |rest| ==> rest[i] == appends[i + 1] && rest[j] == appends[j + 1];
      assert CutOffsLast(encode, appends) <==>
             CutOffsLast(encode, rest) && (CutOff(encode, a) ==> forall x :: x in rest ==> !Whole(encode, x));
    }
  }

  /**
   A write that is cut off loses no more than its own line if and only if none is written whole after it: the ledger
   is only ever appended to, so the next line continues the unfinished one.
   */
  lemma OwnLineOnly(encode: Encoder, appends: seq<Append>)
    ensures Kept(encode, false, appends) == Written(encode, appends) <==> CutOffsLast(encode, appends)
  {
    CutOffCostsOne(encode, false, appends);
    GluedExactly(encode, false, appends);
  }
}
