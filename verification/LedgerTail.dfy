/**
 dashboard/ledger_view.hpp: cutting the ledger's bytes, in whatever pieces they are
 read, into one record per line.
 */
module LedgerTails {
  import opened Wrappers

  const NEWLINE: Byte := 10
  const RETURN: Byte := 13

  /** One decoded line. */
  datatype LedgerRecord = LedgerRecord(model: string, role: Option<string>, group: Option<string>, priority: string,
                                       queueWaitMs: Option<int>, upstreamMs: Option<int>,
                                       promptTokens: Option<int>, completionTokens: Option<int>,
                                       schemaMissing: Option<bool>, schemaConformed: Option<bool>, status: int)

  /** Decoding one line is the JSON library's business. */
  type Decoder = seq<Byte> -> Option<LedgerRecord>

  // ----- Lines -----

  /** The lines terminated in bytes, when prefix has been read of the first. */
  function Lines(prefix: seq<Byte>, bytes: seq<Byte>): seq<seq<Byte>>
    decreases |bytes|
  {
    if bytes == [] then []
    else if bytes[0] == NEWLINE then [prefix] + Lines([], bytes[1..])
    else Lines(prefix + [bytes[0]], bytes[1..])
  }

  /** What follows the last newline. */
  function Remainder(prefix: seq<Byte>, bytes: seq<Byte>): seq<Byte>
    decreases |bytes|
  {
    if bytes == [] then prefix
    else if bytes[0] == NEWLINE then Remainder([], bytes[1..])
    else Remainder(prefix + [bytes[0]], bytes[1..])
  }

  predicate NewlineFree(bytes: seq<Byte>) {
    NEWLINE !in bytes
  }

  /** Bytes without a newline only lengthen the line they are in. */
  lemma {:induction false} LinesWithin(prefix: seq<Byte>, bytes: seq<Byte>, rest: seq<Byte>)
    requires NewlineFree(bytes)
    ensures Lines(prefix, bytes + rest) == Lines(prefix + bytes, rest)
    ensures Remainder(prefix, bytes + rest) == Remainder(prefix + bytes, rest)
    decreases |bytes|
  {
    if bytes == [] {
      assert prefix + bytes == prefix && bytes + rest == rest;
    } else {
      assert (bytes + rest)[1..] == bytes[1..] + rest;
      LinesWithin(prefix + [bytes[0]], bytes[1..], rest);
      assert prefix + bytes == prefix + [bytes[0]] + bytes[1..];
    }
  }

  lemma LinesOfLine(prefix: seq<Byte>, line: seq<Byte>, rest: seq<Byte>)
    requires NewlineFree(line)
    ensures Lines(prefix, line + [NEWLINE] + rest) == [prefix + line] + Lines([], rest)
    ensures Remainder(prefix, line + [NEWLINE] + rest) == Remainder([], rest)
  {
    var tail := [NEWLINE] + rest;
    assert line + [NEWLINE] + rest == line + tail && tail[1..] == rest;
    LinesWithin(prefix, line, tail);
  }

  predicate IsBlankByte(b: Byte) {
    b == 32 || (9 <= b <= 13)
  }

  predicate IsBlank(line: seq<Byte>) {
    forall b :: b in line ==> IsBlankByte(b)
  }

  function WithoutReturn(line: seq<Byte>): seq<Byte> {
    if line != [] && line[|line| - 1] == RETURN then line[..|line| - 1] else line
  }

  /** The record of a line, if it has one. */
  function RecordOf(decode: Decoder, line: seq<Byte>): seq<LedgerRecord> {
    var text := WithoutReturn(line);
    if IsBlank(text) then [] else match decode(text) case Some(r) => [r] case None => []
  }

  /** Corruption: neither blank nor decodable. */
  predicate Bad(decode: Decoder, line: seq<Byte>) {
    !IsBlank(WithoutReturn(line)) && decode(WithoutReturn(line)) == None
  }

  /**
   What a line is worth, with or without a carriage return at its end: nothing if it is all spaces and tabs and their
   like, else its record, or a skip if it does not decode.
   */
  lemma LineIs(decode: Decoder, text: seq<Byte>, line: seq<Byte>)
    requires (text == [] || text[|text| - 1] != 13) && (line == text || line == text + [13])
    ensures var blank := forall b :: b in text ==> b in {9, 10, 11, 12, 13, 32};
            && (blank ==> RecordOf(decode, line) == [] && !Bad(decode, line))
            && (!blank && decode(text).Some? ==> RecordOf(decode, line) == [decode(text).value] && !Bad(decode, line))
            && (!blank && decode(text) == None ==> RecordOf(decode, line) == [] && Bad(decode, line))
  {
    assert WithoutReturn(line) == text;
  }

  /** The lines, each with its newline, and the remainder are the bytes. */
  function Joined(lines: seq<seq<Byte>>, remainder: seq<Byte>): seq<Byte> {
    if lines == [] then remainder else lines[0] + [NEWLINE] + Joined(lines[1..], remainder)
  }

  lemma {:induction false} LinesAre(prefix: seq<Byte>, bytes: seq<Byte>)
    requires NewlineFree(prefix)
    ensures Joined(Lines(prefix, bytes), Remainder(prefix, bytes)) == prefix + bytes
    ensures NewlineFree(Remainder(prefix, bytes)) && forall line :: line in Lines(prefix, bytes) ==> NewlineFree(line)
    decreases |bytes|
  {
    if bytes == [] {
      assert prefix + bytes == prefix;
    } else if bytes[0] == NEWLINE {
      LinesAre([], bytes[1..]);
      var lines := Lines([], bytes[1..]);
      assert ([prefix] + lines)[1..] == lines;
      assert prefix + bytes == prefix + [NEWLINE] + ([] + bytes[1..]);
    } else {
      LinesAre(prefix + [bytes[0]], bytes[1..]);
      assert prefix + bytes == prefix + [bytes[0]] + bytes[1..];
    }
  }

  /** The records of some lines, in order. */
  function RecordsOf(decode: Decoder, lines: seq<seq<Byte>>): seq<LedgerRecord> {
    if lines == [] then [] else RecordOf(decode, lines[0]) + RecordsOf(decode, lines[1..])
  }

  function BadLines(decode: Decoder, lines: seq<seq<Byte>>): nat {
    if lines == [] then 0 else (if Bad(decode, lines[0]) then 1 else 0) + BadLines(decode, lines[1..])
  }

  // ----- The tail, as a value -----

  datatype Tail = Tail(carry: seq<Byte>, dropping: bool, skipped: nat)

  const START := Tail([], false, 0)

  /** The tail after some bytes, and the records they gave. */
  datatype Out = Out(tail: Tail, records: seq<LedgerRecord>)

  ghost function Then(records: seq<LedgerRecord>, o: Out): Out {
    Out(o.tail, records + o.records)
  }

  ghost function Put(decode: Decoder, t: Tail, b: Byte): Out {
    if b != NEWLINE then Out(if t.dropping then t else t.(carry := t.carry + [b]), [])
    else if t.dropping then Out(t.(dropping := false), [])
    else Out(Tail([], false, t.skipped + if Bad(decode, t.carry) then 1 else 0), RecordOf(decode, t.carry))
  }

  ghost function Scan(decode: Decoder, t: Tail, bytes: seq<Byte>): Out
    decreases |bytes|
  {
    match |bytes|
    case 0 => Out(t, [])
    case _ => Then(Put(decode, t, bytes[0]).records, Scan(decode, Put(decode, t, bytes[0]).tail, bytes[1..]))
  }

  /** The ceiling, applied where a chunk ends. */
  ghost function Seal(max: nat, t: Tail): Tail {
    if |t.carry| > max then Tail([], true, t.skipped + 1) else t
  }

  /** One call of consume. */
  ghost function Consume(decode: Decoder, max: nat, t: Tail, chunk: seq<Byte>): Out {
    var o := Scan(decode, t, chunk);
    Out(Seal(max, o.tail), o.records)
  }

  ghost function ConsumeAll(decode: Decoder, max: nat, t: Tail, chunks: seq<seq<Byte>>): Out
    decreases |chunks|
  {
    if chunks == [] then Out(t, [])
    else
      var first := Consume(decode, max, t, chunks[0]);
      Then(first.records, ConsumeAll(decode, max, first.tail, chunks[1..]))
  }

  /** Between calls the carry is within the ceiling, and a tail that is dropping carries nothing. */
  ghost predicate Bounded(max: nat, t: Tail) {
    |t.carry| <= max && Clean(t)
  }

  ghost predicate Clean(t: Tail) {
    t.dropping ==> t.carry == []
  }

  lemma {:induction false} ScanClean(decode: Decoder, t: Tail, bytes: seq<Byte>)
    requires Clean(t)
    ensures Clean(Scan(decode, t, bytes).tail)
    decreases |bytes|
  {
    if bytes != [] {
      ScanClean(decode, Put(decode, t, bytes[0]).tail, bytes[1..]);
    }
  }

  /** Whatever the bytes, no call ends with a carry above the ceiling. */
  lemma {:induction false} AlwaysBounded(decode: Decoder, max: nat, t: Tail, chunks: seq<seq<Byte>>)
    requires Bounded(max, t)
    ensures Bounded(max, ConsumeAll(decode, max, t, chunks).tail)
    decreases |chunks|
  {
    if chunks != [] {
      ScanClean(decode, t, chunks[0]);
      AlwaysBounded(decode, max, Consume(decode, max, t, chunks[0]).tail, chunks[1..]);
    }
  }

  lemma ScanFirst(decode: Decoder, t: Tail, b: Byte, rest: seq<Byte>, all: seq<Byte>)
    requires all == [b] + rest
    ensures Scan(decode, t, all) == Then(Put(decode, t, b).records, Scan(decode, Put(decode, t, b).tail, rest))
  {
    assert all[1..] == rest;
  }

  lemma ThenThen(a: seq<LedgerRecord>, b: seq<LedgerRecord>, o: Out)
    ensures Then(a, Then(b, o)) == Then(a + b, o)
  {
    assert a + (b + o.records) == (a + b) + o.records;
  }

  lemma {:induction false} ScanSum(decode: Decoder, t: Tail, a: seq<Byte>, b: seq<Byte>)
    ensures Scan(decode, t, a + b) == Then(Scan(decode, t, a).records, Scan(decode, Scan(decode, t, a).tail, b))
    decreases |a|
  {
    if a == [] {
      assert a + b == b;
    } else {
      var first, rest := Put(decode, t, a[0]), a[1..];
      ScanFirst(decode, t, a[0], rest, a);
      ScanFirst(decode, t, a[0], rest + b, a + b);
      ScanSum(decode, first.tail, rest, b);
      ThenThen(first.records, Scan(decode, first.tail, rest).records,
               Scan(decode, Scan(decode, first.tail, rest).tail, b));
    }
  }

  // ----- A whole file in one chunk is its lines -----

  /** Consumed whole, bytes give the records of their lines, a skip for each bad one, and the remainder. */
  lemma {:induction false} ScanIsLines(decode: Decoder, t: Tail, bytes: seq<Byte>)
    requires !t.dropping
    ensures var o := Scan(decode, t, bytes);
            && o.records == RecordsOf(decode, Lines(t.carry, bytes))
            && o.tail == Tail(Remainder(t.carry, bytes), false, t.skipped + BadLines(decode, Lines(t.carry, bytes)))
    decreases |bytes|
  {
    if bytes != [] {
      ScanIsLines(decode, Put(decode, t, bytes[0]).tail, bytes[1..]);
    }
  }

  // ----- Chunk independence -----

  /** Every line that ends in these bytes and is over the ceiling is one that does not decode. */
  ghost predicate LongLinesBad(decode: Decoder, max: nat, t: Tail, bytes: seq<Byte>)
    decreases |bytes|
  {
    bytes != [] ==>
      && (bytes[0] == NEWLINE && !t.dropping && |t.carry| > max ==> Bad(decode, t.carry))
      && LongLinesBad(decode, max, Put(decode, t, bytes[0]).tail, bytes[1..])
  }

  lemma {:induction false} LongLinesSum(decode: Decoder, max: nat, t: Tail, a: seq<Byte>, b: seq<Byte>)
    ensures LongLinesBad(decode, max, t, a + b)
            <==> LongLinesBad(decode, max, t, a) && LongLinesBad(decode, max, Scan(decode, t, a).tail, b)
    decreases |a|
  {
    if a == [] {
      assert a + b == b;
    } else {
      assert (a + b)[1..] == a[1..] + b;
      LongLinesSum(decode, max, Put(decode, t, a[0]).tail, a[1..], b);
    }
  }

  lemma {:induction false} LongLinesAre(decode: Decoder, max: nat, t: Tail, bytes: seq<Byte>)
    requires !t.dropping
    ensures LongLinesBad(decode, max, t, bytes)
            <==> forall line :: line in Lines(t.carry, bytes) && |line| > max ==> Bad(decode, line)
    decreases |bytes|
  {
    if bytes != [] {
      LongLinesAre(decode, max, Put(decode, t, bytes[0]).tail, bytes[1..]);
      if bytes[0] == NEWLINE {
        assert Lines(t.carry, bytes) == [t.carry] + Lines([], bytes[1..]);
      }
    }
  }

  /** Dropping an over-long line early changes nothing if the line would not have decoded anyway. */
  lemma {:induction false} SealEarly(decode: Decoder, max: nat, t: Tail, bytes: seq<Byte>)
    requires Clean(t) && LongLinesBad(decode, max, t, bytes)
    ensures LongLinesBad(decode, max, Seal(max, t), bytes)
    ensures Consume(decode, max, Seal(max, t), bytes) == Consume(decode, max, t, bytes)
    decreases |bytes|
  {
    if |t.carry| > max && bytes != [] {
      if bytes[0] != NEWLINE {
        SealEarly(decode, max, Put(decode, t, bytes[0]).tail, bytes[1..]);
      } else {
        assert RecordOf(decode, t.carry) == [];
        assert Put(decode, Seal(max, t), NEWLINE) == Put(decode, t, NEWLINE);
      }
    }
  }

  lemma {:induction false} ChunksAsOne(decode: Decoder, max: nat, t: Tail, chunks: seq<seq<Byte>>)
    requires Bounded(max, t) && LongLinesBad(decode, max, t, Concat(chunks))
    ensures ConsumeAll(decode, max, t, chunks) == Consume(decode, max, t, Concat(chunks))
    decreases |chunks|
  {
    if chunks != [] {
      var a, b := chunks[0], Concat(chunks[1..]);
      var scanned := Scan(decode, t, a);
      ScanClean(decode, t, a);
      LongLinesSum(decode, max, t, a, b);
      SealEarly(decode, max, scanned.tail, b);
      ChunksAsOne(decode, max, Seal(max, scanned.tail), chunks[1..]);
      ScanSum(decode, t, a, b);
    }
  }

  ghost function Skipping(t: Tail, more: nat): Tail {
    t.(skipped := t.skipped + more)
  }

  /** A skip more at the start is a skip more at the end, and nothing else. */
  lemma {:induction false} SkipsCarry(decode: Decoder, t: Tail, bytes: seq<Byte>, more: nat)
    ensures Scan(decode, Skipping(t, more), bytes).tail == Skipping(Scan(decode, t, bytes).tail, more)
    ensures Scan(decode, Skipping(t, more), bytes).records == Scan(decode, t, bytes).records
    decreases |bytes|
  {
    if bytes != [] {
      var next := Put(decode, t, bytes[0]);
      assert Put(decode, Skipping(t, more), bytes[0]) == Out(Skipping(next.tail, more), next.records);
      SkipsCarry(decode, next.tail, bytes[1..], more);
    }
  }

  /** A line over the ceiling that is not bad is lost when a chunk ends just before its newline. */
  lemma {:induction false} LongLineLost(decode: Decoder, max: nat, t: Tail, bytes: seq<Byte>) returns (cut: nat)
    requires Clean(t) && !LongLinesBad(decode, max, t, bytes)
    ensures cut <= |bytes|
    ensures var first := Consume(decode, max, t, bytes[..cut]);
            Consume(decode, max, first.tail, bytes[cut..]).tail.skipped
            == Consume(decode, max, t, bytes).tail.skipped + 1
    decreases |bytes|
  {
    var next := Put(decode, t, bytes[0]).tail;
    if !LongLinesBad(decode, max, next, bytes[1..]) {
      var k := LongLineLost(decode, max, next, bytes[1..]);
      cut := k + 1;
      assert bytes[..cut] == [bytes[0]] + bytes[1..][..k];
      assert bytes[..cut][1..] == bytes[1..][..k];
      assert bytes[cut..] == bytes[1..][k..];
    } else {
      cut := 0;
      assert bytes[..0] == [] && bytes[0..] == bytes;
      SkipsCarry(decode, Tail([], false, t.skipped), bytes[1..], 1);
    }
  }

  /** Cut before the newline of such a line, the bytes count a skip more than in one chunk. */
  lemma SomeChunkingDiffers(decode: Decoder, max: nat, bytes: seq<Byte>) returns (chunks: seq<seq<Byte>>)
    requires !LongLinesBad(decode, max, START, bytes)
    ensures Concat(chunks) == bytes
    ensures ConsumeAll(decode, max, START, chunks) != Consume(decode, max, START, bytes)
  {
    var cut := LongLineLost(decode, max, START, bytes);
    var a, b := bytes[..cut], bytes[cut..];
    chunks := [a, b];
    TwoConcat(a, b);
    assert a + b == bytes;
    TwoChunks(decode, max, START, a, b);
  }

  lemma TwoConcat(a: seq<Byte>, b: seq<Byte>)
    ensures Concat([a, b]) == a + b
  {
    assert [a, b][1..] == [b] && [b][1..] == [];
    assert Concat([b]) == b;
  }

  /**
   Chunk independence, exactly: the bytes give the same records, skips and carry however they are cut
   up if and only if no line over the carry ceiling is one that decodes or is blank.
   */
  lemma ChunkIndependence(decode: Decoder, max: nat, bytes: seq<Byte>)
    ensures (forall chunks :: Concat(chunks) == bytes ==>
             ConsumeAll(decode, max, START, chunks) == Consume(decode, max, START, bytes))
            <==> (forall line :: line in Lines([], bytes) && |line| > max ==> Bad(decode, line))
  {
    LongLinesAre(decode, max, START, bytes);
    if LongLinesBad(decode, max, START, bytes) {
      forall chunks | Concat(chunks) == bytes
        ensures ConsumeAll(decode, max, START, chunks) == Consume(decode, max, START, bytes)
      {
        ChunksAsOne(decode, max, START, chunks);
      }
    } else {
      var chunks := SomeChunkingDiffers(decode, max, bytes);
    }
  }

  lemma TwoSpaces(decode: Decoder)
    ensures Scan(decode, START, [32, 32]) == Out(Tail([32, 32], false, 0), [])
  {
    ScanFirst(decode, START, 32, [32], [32, 32]);
    ScanFirst(decode, Tail([32], false, 0), 32, [], [32]);
  }

  lemma NewlineAlone(decode: Decoder, t: Tail)
    ensures Scan(decode, t, [NEWLINE]) == Put(decode, t, NEWLINE)
  {
    ScanFirst(decode, t, NEWLINE, [], [NEWLINE]);
    assert Put(decode, t, NEWLINE).records + [] == Put(decode, t, NEWLINE).records;
  }

  lemma TwoChunks(decode: Decoder, max: nat, t: Tail, a: seq<Byte>, b: seq<Byte>)
    ensures var first := Consume(decode, max, t, a);
            ConsumeAll(decode, max, t, [a, b]) == Then(first.records, Consume(decode, max, first.tail, b))
  {
    var first := Consume(decode, max, t, a);
    var second := Consume(decode, max, first.tail, b);
    assert [a, b][1..] == [b];
    assert ConsumeAll(decode, max, first.tail, [b]) == Then(second.records, Out(second.tail, []));
    assert second.records + [] == second.records;
  }

  /**
   Two spaces and a newline with a ceiling of one byte: no skip in one chunk, one skip
   when the newline comes apart.
   */
  lemma BlankLineCounted(decode: Decoder)
    ensures Consume(decode, 1, START, [32, 32, NEWLINE]) == Out(START, [])
    ensures ConsumeAll(decode, 1, START, [[32, 32], [NEWLINE]]) == Out(Tail([], false, 1), [])
  {
    var line: seq<Byte>, end: seq<Byte> := [32, 32], [NEWLINE];
    LineIs(decode, line, line);
    TwoSpaces(decode);
    NewlineAlone(decode, Tail(line, false, 0));
    NewlineAlone(decode, Tail([], true, 1));
    ScanSum(decode, START, line, end);
    assert line + end == [32, 32, NEWLINE];
    TwoChunks(decode, 1, START, line, end);
  }
}
