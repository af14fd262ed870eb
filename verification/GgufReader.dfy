/** scripts/fetch_models.py: the cursor and the reading loop, proved against the parsers of Gguf. */
module GgufReader {
  import opened Wrappers
  import opened Gguf

  /** EOFError and ValueError. */
  datatype Fault = EndOfBuffer | UnsupportedType

  class Cursor {
    const buf: seq<Byte>
    var pos: nat

    ghost predicate Valid()
      reads this
    {
      pos <= |buf|
    }

    ghost function Rest(): seq<Byte>
      reads this
      requires Valid()
    {
      buf[pos..]
    }

    /** A call did what the parser does with the bytes it found; after a fault the position does not matter. */
    ghost predicate Did<T>(r: Result<T, Fault>, p: Parse<T>)
      reads this
      requires Valid()
    {
      match p
      case Got(value, rest) => r == Ok(value) && Rest() == rest
      case Eof => r == Err(EndOfBuffer)
      case Unsupported => r == Err(UnsupportedType)
    }

    constructor (buf: seq<Byte>)
      ensures Valid() && this.buf == buf && Rest() == buf
    {
      this.buf := buf;
      pos := 0;
    }

    method Take(n: nat) returns (r: Result<seq<Byte>, Fault>)
      requires Valid()
      modifies this
      ensures Valid() && Did(r, Gguf.Take(old(Rest()), n))
    {
      if pos + n > |buf| {
        return Err(EndOfBuffer);
      }
      r := Ok(buf[pos..pos + n]);
      assert buf[pos..][..n] == buf[pos..pos + n] && buf[pos..][n..] == buf[pos + n..];
      pos := pos + n;
    }

    method Skip(n: nat) returns (r: Result<(), Fault>)
      requires Valid()
      modifies this
      ensures Valid() && Did(r, Gguf.Skip(old(Rest()), n))
    {
      if pos + n > |buf| {
        return Err(EndOfBuffer);
      }
      assert buf[pos..][n..] == buf[pos + n..];
      pos := pos + n;
      return Ok(());
    }

    method Unsigned(width: nat) returns (r: Result<nat, Fault>)
      requires Valid()
      modifies this
      ensures Valid() && Did(r, Gguf.Unsigned(old(Rest()), width))
    {
      var bytes :- Take(width);
      return Ok(Number(bytes));
    }

    method String() returns (r: Result<seq<Byte>, Fault>)
      requires Valid()
      modifies this
      ensures Valid() && Did(r, Gguf.String(old(Rest())))
    {
      var length :- Unsigned(8);
      r := Take(length);
    }

    method SkipString() returns (r: Result<(), Fault>)
      requires Valid()
      modifies this
      ensures Valid()
      ensures r.Ok? <==> Gguf.String(old(Rest())).Got?
      ensures r.Ok? ==> Rest() == Gguf.String(old(Rest())).rest
      ensures r.Err? ==> r.error == EndOfBuffer && Gguf.String(old(Rest())) == Eof
    {
      var length :- Unsigned(8);
      r := Skip(length);
    }

    /** The strings of an array, one by one. */
    method SkipTexts(count: nat) returns (r: Result<(), Fault>)
      requires Valid()
      modifies this
      ensures Valid() && Did(r, SkipStrings(old(Rest()), count))
    {
      for i := 0 to count
        invariant Valid() && SkipStrings(Rest(), count - i) == SkipStrings(old(Rest()), count)
      {
        var _ :- SkipString();
      }
      return Ok(());
    }

    method SkipArray() returns (r: Result<(), Fault>)
      requires Valid()
      modifies this
      ensures Valid() && Did(r, Gguf.SkipArray(old(Rest())))
    {
      var etype :- Unsigned(4);
      var count :- Unsigned(8);
      match FixedSize(etype) {
        case Some(size) =>
          r := Skip(size * count);
        case None =>
          if etype != T_STRING {
            return Err(UnsupportedType);
          }
          r := SkipTexts(count);
      }
    }

    method SkipValue(vtype: nat) returns (r: Result<(), Fault>)
      requires Valid()
      modifies this
      ensures Valid() && Did(r, Gguf.SkipValue(old(Rest()), vtype))
    {
      match FixedSize(vtype) {
        case Some(size) =>
          r := Skip(size);
        case None =>
          if vtype == T_STRING {
            var length :- Unsigned(8);
            r := Skip(length);
          } else if vtype == T_ARRAY {
            r := SkipArray();
          } else {
            return Err(UnsupportedType);
          }
      }
    }

    method ReadValue(vtype: nat) returns (r: Result<Option<Value>, Fault>)
      requires Valid()
      modifies this
      ensures Valid() && Did(r, Gguf.ReadValue(old(Rest()), vtype))
    {
      match FixedSize(vtype) {
        case Some(size) =>
          var raw :- Take(size);
          return Ok(Some(Unpack(vtype, raw)));
        case None =>
          if vtype == T_STRING {
            var text :- String();
            return Ok(Some(Text(text)));
          }
          var _ :- SkipValue(vtype);
          return Ok(None);
      }
    }

    /** One turn of the reading loop. */
    method ReadPair() returns (r: Result<(seq<Byte>, Option<Value>), Fault>)
      requires Valid()
      modifies this
      ensures Valid() && Did(r, Gguf.ReadPair(old(Rest())))
    {
      var key :- String();
      var vtype :- Unsigned(4);
      if Wanted(key) {
        var value :- ReadValue(vtype);
        return Ok((key, value));
      }
      var _ :- SkipValue(vtype);
      return Ok((key, None));
    }
  }

  /** What is left to read after one turn of the loop. */
  lemma TurnIs(read: PairReader, s: seq<Byte>, n: nat, fewer: nat, meta: Meta, result: (Meta, bool))
    requires n == fewer + 1 && Answers(read, s, n, meta, result)
    ensures match read(s)
            case Got(pair, rest) => Answers(read, rest, fewer, With(meta, pair), result)
            case _ => result == (meta, true)
  {
  }

  /** One turn: a pair more, or the end. */
  method ReadMore(cur: Cursor, ghost left: nat, ghost fewer: nat, before: Meta, ghost result: (Meta, bool))
    returns (meta: Meta, stopped: bool)
    requires cur.Valid() && left == fewer + 1 && Answers(ReadPair, cur.Rest(), left, before, result)
    modifies cur
    ensures cur.Valid()
    ensures if stopped then result == (meta, true) else Answers(ReadPair, cur.Rest(), fewer, meta, result)
  {
    TurnIs(ReadPair, cur.Rest(), left, fewer, before, result);
    var pair := cur.ReadPair();
    match pair {
      case Ok(p) => return With(before, p), false;
      case Err(_) => return before, true;
    }
  }

  /** The loop over the pairs: it stops at the first that cannot be read. */
  method ReadMeta(cur: Cursor, count: nat) returns (meta: Meta, truncated: bool)
    requires cur.Valid()
    modifies cur
    ensures Answers(ReadPair, old(cur.Rest()), count, map[], (meta, truncated))
  {
    meta, truncated := map[], false;
    ghost var result := ReadPairs(ReadPair, cur.Rest(), count, map[]);
    assert Answers(ReadPair, cur.Rest(), count, map[], result);
    var left := count;
    while left > 0 && !truncated
      invariant cur.Valid()
      invariant Answers(ReadPair, old(cur.Rest()), count, map[], result)
      invariant if truncated then result == (meta, true) else Answers(ReadPair, cur.Rest(), left, meta, result)
      decreases left, !truncated
    {
      var fewer := left - 1;
      meta, truncated := ReadMore(cur, left, fewer, meta, result);
      left := fewer;
    }
    if !truncated {
      NoneLeft(ReadPair, cur.Rest(), meta, result);
    }
  }

  lemma NoneLeft(read: PairReader, s: seq<Byte>, meta: Meta, result: (Meta, bool))
    requires Answers(read, s, 0, meta, result)
    ensures result == (meta, false)
  {
  }

  /** read_gguf_header on the bytes it probed. */
  method ReadGgufHeader(buf: seq<Byte>) returns (r: Result<Header, Refusal>)
    ensures r == ReadHeader(buf)
  {
    if |buf| < 24 || buf[..4] != MAGIC {
      return Err(BadMagic);
    }
    var version := Number(buf[4..8]);
    if version != 2 && version != 3 {
      return Err(BadVersion(version));
    }
    var tensorCount, kvCount := Number(buf[8..16]), Number(buf[16..24]);
    var cur := new Cursor(buf[24..]);
    var meta, truncated := ReadMeta(cur, kvCount);
    return Ok(Header(version, tensorCount, kvCount, meta, truncated));
  }
}
