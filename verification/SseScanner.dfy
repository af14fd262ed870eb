/** router/router.hpp: splitting a chunked server-sent-event stream on its two-newline delimiter. */
module SseScanner {
  import opened Wrappers

  const NEWLINE: Byte := 10

  /** The events completed so far and the partial event after them. */
  datatype Split = Split(events: seq<seq<Byte>>, partial: seq<Byte>)

  ghost function Then(events: seq<seq<Byte>>, s: Split): Split {
    Split(events + s.events, s.partial)
  }

  predicate EndsWithNewline(bytes: seq<Byte>) {
    bytes != [] && bytes[|bytes| - 1] == NEWLINE
  }

  /** One byte: the second newline of a delimiter completes the event before it. */
  ghost function Put(partial: seq<Byte>, b: Byte): Split {
    if b == NEWLINE && EndsWithNewline(partial) then Split([partial[..|partial| - 1]], [])
    else Split([], partial + [b])
  }

  ghost function Scan(partial: seq<Byte>, bytes: seq<Byte>): Split
    decreases |bytes|
  {
    if bytes == [] then Split([], partial)
    else Then(Put(partial, bytes[0]).events, Scan(Put(partial, bytes[0]).partial, bytes[1..]))
  }

  /** A partial event over the limit is forgotten where a chunk ends. */
  ghost function Cap(limit: nat, partial: seq<Byte>): seq<Byte> {
    if |partial| > limit then [] else partial
  }

  ghost function FeedOnce(limit: nat, partial: seq<Byte>, chunk: seq<Byte>): Split {
    var s := Scan(partial, chunk);
    Split(s.events, Cap(limit, s.partial))
  }

  ghost function FeedAll(limit: nat, partial: seq<Byte>, chunks: seq<seq<Byte>>): Split
    decreases |chunks|
  {
    if chunks == [] then Split([], partial)
    else
      var first := FeedOnce(limit, partial, chunks[0]);
      Then(first.events, FeedAll(limit, first.partial, chunks[1..]))
  }

  lemma ThenThen(a: seq<seq<Byte>>, b: seq<seq<Byte>>, s: Split)
    ensures Then([], s) == s && Then(a, Then(b, s)) == Then(a + b, s)
  {
    assert a + (b + s.events) == (a + b) + s.events;
  }

  lemma {:induction false} ScanSum(partial: seq<Byte>, a: seq<Byte>, b: seq<Byte>)
    ensures Scan(partial, a + b) == Then(Scan(partial, a).events, Scan(Scan(partial, a).partial, b))
    decreases |a|
  {
    if a == [] {
      assert a + b == b;
      ThenThen([], [], Scan(partial, b));
    } else {
      var put := Put(partial, a[0]);
      var rest := Scan(put.partial, a[1..]);
      assert (a + b)[1..] == a[1..] + b;
      ScanSum(put.partial, a[1..], b);
      ThenThen(put.events, rest.events, Scan(rest.partial, b));
    }
  }

  // ----- The split, by its boundaries -----

  ghost predicate NoBoundary(bytes: seq<Byte>) {
    forall i :: 0 <= i < |bytes| - 1 ==> !(bytes[i] == NEWLINE && bytes[i + 1] == NEWLINE)
  }

  ghost function Rejoin(events: seq<seq<Byte>>, partial: seq<Byte>): seq<Byte> {
    if events == [] then partial else events[0] + [NEWLINE, NEWLINE] + Rejoin(events[1..], partial)
  }

  lemma PutSplits(partial: seq<Byte>, b: Byte)
    requires NoBoundary(partial)
    ensures var put := Put(partial, b);
            && NoBoundary(put.partial)
            && (put.events == [] ==> put.partial == partial + [b])
            && (put.events != [] ==> |put.events| == 1 && NoBoundary(put.events[0]) && put.partial == []
                                     && put.events[0] + [NEWLINE, NEWLINE] == partial + [b]
                                     && NoBoundary(put.events[0] + [NEWLINE]))
  {
  }

  /**
   Joining the events with the delimiter gives the bytes back, no delimiter starts before the one that ends its event,
   and the partial holds none.
   */
  lemma {:induction false} ScanSplits(partial: seq<Byte>, bytes: seq<Byte>)
    requires NoBoundary(partial)
    ensures var s := Scan(partial, bytes);
            && Rejoin(s.events, s.partial) == partial + bytes
            && NoBoundary(s.partial)
            && forall e :: e in s.events ==> NoBoundary(e + [NEWLINE])
    decreases |bytes|
  {
    if bytes == [] {
      assert partial + bytes == partial;
    } else {
      var put := Put(partial, bytes[0]);
      var rest := Scan(put.partial, bytes[1..]);
      PutSplits(partial, bytes[0]);
      ScanSplits(put.partial, bytes[1..]);
      assert partial + bytes == (partial + [bytes[0]]) + bytes[1..];
      if put.events == [] {
        ThenThen([], [], rest);
      } else {
        var events := put.events + rest.events;
        assert events[0] == put.events[0] && events[1..] == rest.events;
        assert [] + bytes[1..] == bytes[1..];
      }
    }
  }

  /** And there is one such split only. */
  lemma {:induction false} SplitOnce(s: Split, t: Split)
    requires Rejoin(s.events, s.partial) == Rejoin(t.events, t.partial)
    requires NoBoundary(s.partial) && forall e :: e in s.events ==> NoBoundary(e + [NEWLINE])
    requires NoBoundary(t.partial) && forall e :: e in t.events ==> NoBoundary(e + [NEWLINE])
    ensures s == t
    decreases |s.events|
  {
    var bytes := Rejoin(s.events, s.partial);
    if s.events == [] && t.events == [] {
    } else if s.events == [] {
      FirstBoundary(t.events[0], Rejoin(t.events[1..], t.partial), bytes);
      assert false;
    } else if t.events == [] {
      FirstBoundary(s.events[0], Rejoin(s.events[1..], s.partial), bytes);
      assert false;
    } else {
      var restS, restT := Rejoin(s.events[1..], s.partial), Rejoin(t.events[1..], t.partial);
      SameFirst(s.events[0], restS, t.events[0], restT, bytes);
      SplitOnce(Split(s.events[1..], s.partial), Split(t.events[1..], t.partial));
      assert s.events == [s.events[0]] + s.events[1..] && t.events == [t.events[0]] + t.events[1..];
    }
  }

  lemma FirstBoundary(e: seq<Byte>, rest: seq<Byte>, bytes: seq<Byte>)
    requires bytes == e + [NEWLINE, NEWLINE] + rest
    ensures bytes[|e|] == NEWLINE && bytes[|e| + 1] == NEWLINE && !NoBoundary(bytes)
  {
  }

  lemma SameFirst(e: seq<Byte>, restE: seq<Byte>, f: seq<Byte>, restF: seq<Byte>, bytes: seq<Byte>)
    requires bytes == e + [NEWLINE, NEWLINE] + restE == f + [NEWLINE, NEWLINE] + restF
    requires NoBoundary(e + [NEWLINE]) && NoBoundary(f + [NEWLINE])
    ensures e == f && restE == restF
  {
    if |e| < |f| {
      LongerHoldsBoundary(e, restE, f, restF, bytes);
    } else if |f| < |e| {
      LongerHoldsBoundary(f, restF, e, restE, bytes);
    }
    assert e == bytes[..|e|] && f == bytes[..|f|];
    assert restE == bytes[|e| + 2..] && restF == bytes[|f| + 2..];
  }

  lemma LongerHoldsBoundary(e: seq<Byte>, restE: seq<Byte>, f: seq<Byte>, restF: seq<Byte>, bytes: seq<Byte>)
    requires bytes == e + [NEWLINE, NEWLINE] + restE == f + [NEWLINE, NEWLINE] + restF && |e| < |f|
    ensures !NoBoundary(f + [NEWLINE])
  {
    FirstBoundary(e, restE, bytes);
    var g := f + [NEWLINE];
    assert g[|e|] == bytes[|e|] && g[|e| + 1] == bytes[|e| + 1];
  }

  // ----- Chunk independence -----

  /** No chunk that ends before the last of these bytes can end inside a partial event over the limit. */
  ghost predicate PartialsFit(limit: nat, partial: seq<Byte>, bytes: seq<Byte>)
    decreases |bytes|
  {
    bytes != [] ==> |partial| <= limit && PartialsFit(limit, Put(partial, bytes[0]).partial, bytes[1..])
  }

  /** A partial event only grows, until an event that holds all of it but a newline comes out. */
  lemma {:induction false} FirstHoldsPartial(partial: seq<Byte>, bytes: seq<Byte>)
    requires bytes != []
    ensures var s := Scan(partial, bytes);
            if s.events == [] then |partial| < |s.partial| else |partial| <= |s.events[0]| + 1
    decreases |bytes|
  {
    var put := Put(partial, bytes[0]);
    if bytes[1..] == [] {
      assert put.events + [] == put.events;
    } else if put.events == [] {
      FirstHoldsPartial(put.partial, bytes[1..]);
      ThenThen([], [], Scan(put.partial, bytes[1..]));
    }
  }

  /** Every event comes out under the limit, and what is left is at most one byte over it. */
  ghost predicate WithinLimit(limit: nat, s: Split) {
    (forall e :: e in s.events ==> |e| < limit) && |s.partial| <= limit + 1
  }

  /** The condition byte by byte is a condition on the events. */
  lemma {:induction false} PartialsFitAre(limit: nat, partial: seq<Byte>, bytes: seq<Byte>)
    requires bytes != []
    ensures PartialsFit(limit, partial, bytes) <==> |partial| <= limit && WithinLimit(limit, Scan(partial, bytes))
    decreases |bytes|
  {
    var put := Put(partial, bytes[0]);
    var rest := Scan(put.partial, bytes[1..]);
    if bytes[1..] == [] {
      assert put.events + [] == put.events;
    } else {
      PartialsFitAre(limit, put.partial, bytes[1..]);
      FirstHoldsPartial(put.partial, bytes[1..]);
      if put.events == [] {
        ThenThen([], [], rest);
      } else {
        assert forall e :: e in put.events + rest.events <==> e == partial[..|partial| - 1] || e in rest.events;
      }
    }
  }

  lemma {:induction false} PartialsFitSum(limit: nat, partial: seq<Byte>, a: seq<Byte>, b: seq<Byte>)
    requires PartialsFit(limit, partial, a + b)
    ensures PartialsFit(limit, Scan(partial, a).partial, b)
    decreases |a|
  {
    if a == [] {
      assert a + b == b;
    } else {
      assert (a + b)[1..] == a[1..] + b;
      PartialsFitSum(limit, Put(partial, a[0]).partial, a[1..], b);
    }
  }

  lemma {:induction false} EmptyChunks(limit: nat, partial: seq<Byte>, chunks: seq<seq<Byte>>)
    requires Concat(chunks) == [] && |partial| <= limit
    ensures FeedAll(limit, partial, chunks) == Split([], partial)
    decreases |chunks|
  {
    if chunks != [] {
      EmptyChunks(limit, partial, chunks[1..]);
    }
  }

  lemma {:induction false} ChunksAsOne(limit: nat, partial: seq<Byte>, chunks: seq<seq<Byte>>)
    requires |partial| <= limit && PartialsFit(limit, partial, Concat(chunks))
    ensures FeedAll(limit, partial, chunks) == FeedOnce(limit, partial, Concat(chunks))
    decreases |chunks|
  {
    if chunks != [] {
      var a, b := chunks[0], Concat(chunks[1..]);
      var scanned := Scan(partial, a);
      ScanSum(partial, a, b);
      PartialsFitSum(limit, partial, a, b);
      if b == [] {
        EmptyChunks(limit, Cap(limit, scanned.partial), chunks[1..]);
        assert a + b == a;
      } else {
        ChunksAsOne(limit, scanned.partial, chunks[1..]);
      }
    }
  }

  /** Where a chunk would end inside a partial event over the limit. */
  lemma {:induction false} OverLimitAt(limit: nat, partial: seq<Byte>, bytes: seq<Byte>) returns (k: nat)
    requires !PartialsFit(limit, partial, bytes)
    ensures k < |bytes| && |Scan(partial, bytes[..k]).partial| > limit
    decreases |bytes|
  {
    if |partial| > limit {
      k := 0;
    } else {
      k := OverLimitAt(limit, Put(partial, bytes[0]).partial, bytes[1..]);
      assert bytes[..k + 1][1..] == bytes[1..][..k];
      k := k + 1;
    }
  }

  // ----- The converse: a partial event over the limit can be lost -----

  /** The bytes some events take up, delimiters included. */
  ghost function Taken(events: seq<seq<Byte>>): nat {
    if events == [] then 0 else |events[0]| + 2 + Taken(events[1..])
  }

  lemma {:induction false} ScanConserves(partial: seq<Byte>, bytes: seq<Byte>)
    ensures Taken(Scan(partial, bytes).events) + |Scan(partial, bytes).partial| == |partial| + |bytes|
    decreases |bytes|
  {
    if bytes != [] {
      var put := Put(partial, bytes[0]);
      var rest := Scan(put.partial, bytes[1..]);
      ScanConserves(put.partial, bytes[1..]);
      if put.events == [] {
        ThenThen([], [], rest);
      } else {
        assert (put.events + rest.events)[1..] == rest.events;
      }
    }
  }

  /** A partial event ends with the last byte scanned. */
  lemma PartialEnds(partial: seq<Byte>, bytes: seq<Byte>)
    requires bytes != []
    ensures var k := |bytes| - 1;
            var before := Scan(partial, bytes[..k]);
            && Scan(partial, bytes) == Then(before.events, Put(before.partial, bytes[k]))
            && (Scan(partial, bytes).partial != [] ==>
                  Scan(partial, bytes) == Split(before.events, before.partial + [bytes[k]]))
  {
    var k := |bytes| - 1;
    assert bytes == bytes[..k] + [bytes[k]];
    ScanSum(partial, bytes[..k], [bytes[k]]);
    var put := Put(Scan(partial, bytes[..k]).partial, bytes[k]);
    assert put.events + [] == put.events;
    assert Scan(partial, bytes[..k]).events + [] == Scan(partial, bytes[..k]).events;
  }

  lemma TwoChunks(limit: nat, a: seq<Byte>, b: seq<Byte>)
    ensures var first := FeedOnce(limit, [], a);
            FeedAll(limit, [], [a, b]) == Then(first.events, FeedOnce(limit, first.partial, b))
    ensures Concat([a, b]) == a + b
  {
    var first := FeedOnce(limit, [], a);
    var second := FeedOnce(limit, first.partial, b);
    assert [a, b][1..] == [b];
    assert FeedAll(limit, first.partial, [b]) == Then(second.events, Split([], second.partial));
    assert second.events + [] == second.events;
    assert Concat([b]) == b;
  }

  /** Cutting off the last byte loses an over-long partial event that the cut leaves over the limit. */
  lemma LastByteSurvives(limit: nat, bytes: seq<Byte>)
    requires limit >= 1 && |Scan([], bytes).partial| > limit + 1
    ensures var k := |bytes| - 1;
            FeedAll(limit, [], [bytes[..k], bytes[k..]]) != FeedOnce(limit, [], bytes)
  {
    var k := |bytes| - 1;
    PartialEnds([], bytes);
    TwoChunks(limit, bytes[..k], bytes[k..]);
    var before := Scan([], bytes[..k]);
    assert bytes[k..] == [bytes[k]];
    assert [] + [bytes[k]] == [bytes[k]];
    assert Scan([], [bytes[k]]) == Split([], [bytes[k]]);
  }

  /**
   If a forgotten partial event makes no difference to the events, the stream ends
   inside another one over the limit.
   */
  lemma ForgettingShows(limit: nat, r: seq<Byte>, q: seq<Byte>)
    requires limit >= 1 && |r| > limit && q != []
    requires Scan(r, q).events == Scan([], q).events
    ensures |Scan(r, q).partial| == |Scan([], q).partial| + |r|
    ensures Scan([], q).partial != []
  {
    ScanConserves(r, q);
    ScanConserves([], q);
    var k := |q| - 1;
    PartialEnds(r, q);
    PartialEnds([], q);
    if Scan([], q).partial == [] {
      var before := Scan(r, q[..k]);
      // The last byte completes an event of q alone, so q ends in two newlines; so does what r leaves partial.
      PartialEnds([], q[..k]);
      PartialEnds(r, q[..k]);
      assert EndsWithNewline(before.partial);
      assert false;
    }
  }

  /** A stream with a partial event over the limit before its last byte is split differently by some chunking. */
  lemma SomeChunkingDiffers(limit: nat, bytes: seq<Byte>) returns (chunks: seq<seq<Byte>>)
    requires limit >= 1 && !PartialsFit(limit, [], bytes)
    ensures Concat(chunks) == bytes && FeedAll(limit, [], chunks) != FeedOnce(limit, [], bytes)
  {
    var cut := OverLimitAt(limit, [], bytes);
    var p, q := bytes[..cut], bytes[cut..];
    var r := Scan([], p);
    chunks := [p, q];
    assert bytes == p + q;
    TwoChunks(limit, p, q);
    ScanSum([], p, q);
    if FeedAll(limit, [], chunks) == FeedOnce(limit, [], bytes) {
      SameTail(r.events, Scan([], q).events, Scan(r.partial, q).events);
      ForgettingShows(limit, r.partial, q);
      LastByteSurvives(limit, bytes);
      var k := |bytes| - 1;
      chunks := [bytes[..k], bytes[k..]];
      TwoChunks(limit, bytes[..k], bytes[k..]);
      assert bytes[..k] + bytes[k..] == bytes;
    }
  }

  lemma SameTail(head: seq<seq<Byte>>, x: seq<seq<Byte>>, y: seq<seq<Byte>>)
    requires head + x == head + y
    ensures x == y
  {
    assert x == (head + x)[|head|..] && y == (head + y)[|head|..];
  }

  /**
   Chunk independence, exactly: a stream is split into the same events, with the same partial event left, however
   it is cut into chunks if and only if every event is shorter than the limit and what is left at most one byte longer.
   */
  lemma ChunkIndependence(limit: nat, bytes: seq<Byte>)
    requires limit >= 1
    ensures (forall chunks :: Concat(chunks) == bytes ==> FeedAll(limit, [], chunks) == FeedOnce(limit, [], bytes))
            <==> WithinLimit(limit, Scan([], bytes))
  {
    if bytes != [] {
      PartialsFitAre(limit, [], bytes);
    }
    if PartialsFit(limit, [], bytes) {
      forall chunks | Concat(chunks) == bytes
        ensures FeedAll(limit, [], chunks) == FeedOnce(limit, [], bytes)
      {
        ChunksAsOne(limit, [], chunks);
      }
    } else {
      var chunks := SomeChunkingDiffers(limit, bytes);
    }
  }

  /** Bytes without a delimiter are one partial event. */
  lemma {:induction false} ScanWithin(bytes: seq<Byte>)
    requires NoBoundary(bytes)
    ensures Scan([], bytes) == Split([], bytes)
    decreases |bytes|
  {
    if bytes != [] {
      var k := |bytes| - 1;
      PartialEnds([], bytes);
      ScanWithin(bytes[..k]);
      assert bytes == bytes[..k] + [bytes[k]];
      assert !(k > 0 && bytes[k - 1] == NEWLINE && bytes[k] == NEWLINE);
    }
  }

  /** The first delimiter ends the first event. */
  lemma ScanFirst(bytes: seq<Byte>, at: nat)
    requires at + 1 < |bytes| && bytes[at] == NEWLINE && bytes[at + 1] == NEWLINE && NoBoundary(bytes[..at + 1])
    ensures Scan([], bytes) == Then([bytes[..at]], Scan([], bytes[at + 2..]))
  {
    var a, b := bytes[..at + 1], bytes[at + 1..];
    assert bytes == a + b && b[0] == NEWLINE && b[1..] == bytes[at + 2..] && a[..at] == bytes[..at];
    ScanWithin(a);
    ScanSum([], a, b);
    ThenThen([], [], Scan(a, b));
  }

  /** An event of three bytes under a limit of two comes out whole, or, cut before its delimiter, as an empty event. */
  lemma LongEventLost()
    ensures FeedOnce(2, [], [97, 97, 97, NEWLINE, NEWLINE]) == Split([[97, 97, 97]], [])
    ensures FeedAll(2, [], [[97, 97, 97], [NEWLINE, NEWLINE]]) == Split([[]], [])
  {
    var word: seq<Byte> := [97, 97, 97];
    var stream: seq<Byte> := [97, 97, 97, NEWLINE, NEWLINE];
    var end: seq<Byte> := [NEWLINE, NEWLINE];
    assert stream[..4] == word + [NEWLINE] && stream[..3] == word && stream[5..] == [];
    ScanFirst(stream, 3);
    ScanWithin(word);
    assert end[..0] == [] && end[..1] == [NEWLINE] && end[2..] == [];
    ScanFirst(end, 0);
    TwoChunks(2, word, end);
  }

  class Scanner {
    const highWater: nat
    var buffer: seq<Byte>

    constructor (highWater: nat)
      ensures buffer == [] && this.highWater == highWater
    {
      this.highWater := highWater;
      buffer := [];
    }

    /** Position of the first delimiter, or the length if there is none. */
    method FindBoundary() returns (at: nat)
      ensures at < |buffer| ==>
                at + 1 < |buffer| && buffer[at] == NEWLINE && buffer[at + 1] == NEWLINE && NoBoundary(buffer[..at + 1])
      ensures at >= |buffer| ==> NoBoundary(buffer)
    {
      at := 0;
      while at + 1 < |buffer|
        invariant forall i :: 0 <= i < at && i + 1 < |buffer| ==> !(buffer[i] == NEWLINE && buffer[i + 1] == NEWLINE)
      {
        if buffer[at] == NEWLINE && buffer[at + 1] == NEWLINE {
          return at;
        }
        at := at + 1;
      }
      at := |buffer|;
    }

    /** The events that end in these bytes, in order; what is left waits in the buffer unless it is over the mark. */
    method Feed(bytes: seq<Byte>) returns (events: seq<seq<Byte>>)
      requires NoBoundary(buffer)
      modifies this`buffer
      ensures NoBoundary(buffer)
      ensures Split(events, buffer) == FeedOnce(highWater, old(buffer), bytes)
    {
      events := [];
      ScanSum([], buffer, bytes);
      ScanWithin(buffer);
      ThenThen([], [], Scan(buffer, bytes));
      buffer := buffer + bytes;
      var boundary := FindBoundary();
      while boundary < |buffer|
        invariant 0 <= boundary
        invariant boundary < |buffer| ==>
                    boundary + 1 < |buffer| && buffer[boundary] == NEWLINE && buffer[boundary + 1] == NEWLINE
                    && NoBoundary(buffer[..boundary + 1])
        invariant boundary >= |buffer| ==> NoBoundary(buffer)
        invariant Scan(old(buffer), bytes) == Then(events, Scan([], buffer))
        decreases |buffer|
      {
        ScanFirst(buffer, boundary);
        ThenThen(events, [buffer[..boundary]], Scan([], buffer[boundary + 2..]));
        events := events + [buffer[..boundary]];
        buffer := buffer[boundary + 2..];
        boundary := FindBoundary();
      }
      ScanWithin(buffer);
      assert events + [] == events;
      if |buffer| > highWater {
        buffer := [];
      }
    }
  }
}
