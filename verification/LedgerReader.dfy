/** dashboard/ledger_view.hpp: the tail object, proved against the byte-wise reading of LedgerTails. */
module LedgerReaders {
  import opened Wrappers
  import opened LedgerTails

  /** Bytes without a newline only lengthen the carry. */
  lemma {:induction false} ScanWithin(decode: Decoder, t: Tail, bytes: seq<Byte>)
    requires NewlineFree(bytes)
    ensures Scan(decode, t, bytes) == Out(if t.dropping then t else t.(carry := t.carry + bytes), [])
    decreases |bytes|
  {
    if bytes == [] {
      assert t.carry + [] == t.carry;
    } else {
      var first, rest := bytes[0], bytes[1..];
      ScanFirst(decode, t, first, rest, bytes);
      ScanWithin(decode, if t.dropping then t else t.(carry := t.carry + [first]), rest);
      assert t.carry + bytes == (t.carry + [first]) + rest;
    }
  }

  /** A line and its newline. */
  lemma ScanLine(decode: Decoder, t: Tail, line: seq<Byte>, rest: seq<Byte>)
    requires NewlineFree(line)
    ensures var end := Put(decode, if t.dropping then t else t.(carry := t.carry + line), NEWLINE);
            Scan(decode, t, line + [NEWLINE] + rest) == Then(end.records, Scan(decode, end.tail, rest))
  {
    var tail := [NEWLINE] + rest;
    assert line + [NEWLINE] + rest == line + tail;
    ScanSum(decode, t, line, tail);
    ScanWithin(decode, t, line);
    ScanFirst(decode, if t.dropping then t else t.(carry := t.carry + line), NEWLINE, rest, tail);
  }

  method FindNewline(bytes: seq<Byte>) returns (n: nat)
    ensures n <= |bytes| && NewlineFree(bytes[..n])
    ensures n < |bytes| ==> bytes[n] == NEWLINE
  {
    n := 0;
    while n < |bytes| && bytes[n] != NEWLINE
      invariant n <= |bytes| && NewlineFree(bytes[..n])
    {
      n := n + 1;
    }
  }

  class LedgerTail {
    const maxCarryBytes: nat
    const decode: Decoder
    var carry: seq<Byte>
    var dropping: bool
    var skipped: nat

    ghost function View(): Tail
      reads this
    {
      Tail(carry, dropping, skipped)
    }

    ghost predicate Valid()
      reads this
    {
      Bounded(maxCarryBytes, View())
    }

    constructor (maxCarryBytes: nat, decode: Decoder)
      ensures Valid() && View() == START && this.maxCarryBytes == maxCarryBytes && this.decode == decode
    {
      this.maxCarryBytes, this.decode := maxCarryBytes, decode;
      carry, dropping, skipped := [], false, 0;
    }

    /** The records of the lines that end in this chunk; the rest is carried to the next. */
    method Consume(chunk: seq<Byte>) returns (records: seq<LedgerRecord>)
      requires Valid()
      modifies this
      ensures Valid()
      ensures Out(View(), records) == LedgerTails.Consume(decode, maxCarryBytes, old(View()), chunk)
    {
      ghost var t := View();
      records := [];
      var rest := chunk;
      var n := FindNewline(rest);
      while n < |rest|
        invariant Valid()
        invariant 0 <= n <= |rest| && NewlineFree(rest[..n]) && (n < |rest| ==> rest[n] == NEWLINE)
        invariant Scan(decode, t, chunk) == Then(records, Scan(decode, View(), rest))
        decreases |rest|
      {
        var found := TakeLine(rest, n);
        ThenThen(records, found, Scan(decode, View(), rest[n + 1..]));
        records := records + found;
        rest := rest[n + 1..];
        n := FindNewline(rest);
      }
      assert rest[..n] == rest;
      ghost var last := LedgerTails.Consume(decode, maxCarryBytes, View(), rest);
      CarryOver(rest);
      assert Then(records, last).records == records;
    }

    /** The line that ends at n. */
    method TakeLine(rest: seq<Byte>, n: nat) returns (found: seq<LedgerRecord>)
      requires Valid() && n < |rest| && NewlineFree(rest[..n]) && rest[n] == NEWLINE
      modifies this
      ensures Valid()
      ensures Scan(decode, old(View()), rest) == Then(found, Scan(decode, View(), rest[n + 1..]))
    {
      var line := rest[..n];
      ghost var next := rest[n + 1..];
      assert rest == line + [NEWLINE] + next;
      ScanLine(decode, View(), line, next);
      found := EndLine(line);
    }

    /** What is left without a newline is carried, up to the ceiling. */
    method CarryOver(rest: seq<Byte>)
      requires Valid() && NewlineFree(rest)
      modifies this
      ensures Valid()
      ensures Out(View(), []) == LedgerTails.Consume(decode, maxCarryBytes, old(View()), rest)
    {
      ScanWithin(decode, View(), rest);
      if rest == [] || dropping {
        assert carry + rest == carry || dropping;
        return;
      }
      carry := carry + rest;
      if |carry| > maxCarryBytes {
        carry := [];
        dropping := true;
        skipped := skipped + 1;
      }
    }

    /** One complete line: the end of a dropped blob, or something to decode. */
    method EndLine(line: seq<Byte>) returns (records: seq<LedgerRecord>)
      requires Valid()
      modifies this
      ensures Valid()
      ensures Out(View(), records)
              == Put(decode, if old(dropping) then old(View()) else old(View()).(carry := old(carry) + line), NEWLINE)
    {
      if dropping {
        dropping := false;
        return [];
      }
      if carry == [] {
        assert carry + line == line;
        records := Admit(line);
      } else {
        carry := carry + line;
        records := Admit(carry);
        carry := [];
      }
    }

    /** Decodes a line, skipping a blank one silently and counting a bad one. */
    method Admit(line: seq<Byte>) returns (records: seq<LedgerRecord>)
      modifies this`skipped
      ensures records == RecordOf(decode, line)
      ensures skipped == old(skipped) + if Bad(decode, line) then 1 else 0
    {
      var text := WithoutReturn(line);
      if IsBlank(text) {
        return [];
      }
      match decode(text) {
        case None =>
          skipped := skipped + 1;
          return [];
        case Some(record) =>
          return [record];
      }
    }

    /** Forgets the unfinished line; what was skipped so far stays counted. */
    method Reset()
      modifies this`carry, this`dropping
      ensures Valid() && View() == Tail([], false, old(skipped))
    {
      carry, dropping := [], false;
    }
  }
}
