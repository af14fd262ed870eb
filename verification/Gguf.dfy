/**
 scripts/fetch_models.py: the GGUF header (versions 2 and 3 of the ggml repository's docs/gguf.md, "File
 Structure"), as parsers from bytes to a value and the bytes that follow it, and the printer they invert.
 */
module Gguf {
  import opened Wrappers

  /** Eof is running out of bytes, Unsupported a type code without a meaning. */
  datatype Parse<+T> = Got(value: T, rest: seq<Byte>) | Eof | Unsupported

  // ----- Little-endian numbers -----

  function Number(bytes: seq<Byte>): nat {
    if bytes == [] then 0 else bytes[0] + 256 * Number(bytes[1..])
  }

  function Encode(n: nat, width: nat): seq<Byte> {
    if width == 0 then [] else [n % 256] + Encode(n / 256, width - 1)
  }

  function Limit(width: nat): nat {
    if width == 0 then 1 else 256 * Limit(width - 1)
  }

  lemma {:induction false} NumberOfEncode(n: nat, width: nat)
    requires n < Limit(width)
    ensures |Encode(n, width)| == width && Number(Encode(n, width)) == n
  {
    if width > 0 {
      NumberOfEncode(n / 256, width - 1);
      assert Encode(n, width)[1..] == Encode(n / 256, width - 1);
    }
  }

  lemma {:induction false} EncodeSize(n: nat, width: nat)
    ensures |Encode(n, width)| == width
    decreases width
  {
    if width > 0 {
      EncodeSize(n / 256, width - 1);
    }
  }

  // ----- Parsers -----

  function Take(s: seq<Byte>, n: nat): Parse<seq<Byte>> {
    if n > |s| then Eof else Got(s[..n], s[n..])
  }

  function Unsigned(s: seq<Byte>, width: nat): Parse<nat> {
    match Take(s, width)
    case Got(bytes, rest) => Got(Number(bytes), rest)
    case Eof => Eof
    case Unsupported => Unsupported
  }

  function String(s: seq<Byte>): Parse<seq<Byte>> {
    match Unsigned(s, 8)
    case Got(length, rest) => Take(rest, length)
    case Eof => Eof
    case Unsupported => Unsupported
  }

  const T_STRING := 8
  const T_ARRAY := 9

  /** Bytes of a fixed-size value of a type, if it is one. */
  function FixedSize(vtype: nat): Option<nat> {
    if vtype == 0 || vtype == 1 || vtype == 7 then Some(1)
    else if vtype == 2 || vtype == 3 then Some(2)
    else if 4 <= vtype <= 6 then Some(4)
    else if 10 <= vtype <= 12 then Some(8)
    else None
  }

  function SkipStrings(s: seq<Byte>, count: nat): Parse<()>
    decreases count
  {
    if count == 0 then Got((), s)
    else match String(s)
      case Got(_, rest) => SkipStrings(rest, count - 1)
      case Eof => Eof
      case Unsupported => Unsupported
  }

  function Skip(s: seq<Byte>, n: nat): Parse<()> {
    if n > |s| then Eof else Got((), s[n..])
  }

  function SkipArray(s: seq<Byte>): Parse<()> {
    match Unsigned(s, 4)
    case Eof => Eof
    case Unsupported => Unsupported
    case Got(etype, afterType) =>
      match Unsigned(afterType, 8)
      case Eof => Eof
      case Unsupported => Unsupported
      case Got(count, afterCount) =>
        match FixedSize(etype)
        case Some(size) => Skip(afterCount, size * count)
        case None => if etype == T_STRING then SkipStrings(afterCount, count) else Unsupported
  }

  function SkipValue(s: seq<Byte>, vtype: nat): Parse<()> {
    match FixedSize(vtype)
    case Some(size) => Skip(s, size)
    case None =>
      if vtype == T_STRING then
        match Unsigned(s, 8)
        case Got(length, rest) => Skip(rest, length)
        case Eof => Eof
        case Unsupported => Unsupported
      else if vtype == T_ARRAY then SkipArray(s)
      else Unsupported
  }

  /** What a value is to the caller; floating-point numbers stay their bits. */
  datatype Value = Whole(n: int) | Flag(on: bool) | Single(bits: nat) | Double(bits: nat) | Text(text: seq<Byte>)

  /** Two's complement. */
  function Signed(n: nat, width: nat): int {
    if 2 * n >= Limit(width) then n - Limit(width) else n
  }

  /** struct.unpack, by the type's format. */
  function Unpack(vtype: nat, raw: seq<Byte>): Value {
    var n := Number(raw);
    if vtype == 1 || vtype == 3 || vtype == 5 || vtype == 11 then Whole(Signed(n, |raw|))
    else if vtype == 6 then Single(n)
    else if vtype == 7 then Flag(n != 0)
    else if vtype == 12 then Double(n)
    else Whole(n)
  }

  /** An array is skipped and gives no value. */
  function ReadValue(s: seq<Byte>, vtype: nat): Parse<Option<Value>> {
    match FixedSize(vtype)
    case Some(size) =>
      (match Take(s, size)
       case Got(raw, rest) => Got(Some(Unpack(vtype, raw)), rest)
       case Eof => Eof
       case Unsupported => Unsupported)
    case None =>
      if vtype == T_STRING then
        match String(s)
        case Got(text, rest) => Got(Some(Text(text)), rest)
        case Eof => Eof
        case Unsupported => Unsupported
      else
        match SkipValue(s, vtype)
        case Got(_, rest) => Got(None, rest)
        case Eof => Eof
        case Unsupported => Unsupported
  }

  /** Reading and skipping a value move the cursor alike, and fail alike. */
  lemma SkipReadAlike(s: seq<Byte>, vtype: nat)
    ensures match ReadValue(s, vtype)
            case Got(_, rest) => SkipValue(s, vtype).Got? && SkipValue(s, vtype).rest == rest
            case Eof => SkipValue(s, vtype) == Eof
            case Unsupported => SkipValue(s, vtype) == Unsupported
  {
  }

  function Code(c: char): Byte
    requires c < 128 as char
  {
    c as int
  }

  /** ASCII of a key name. */
  function Ascii(text: string): seq<Byte>
    requires forall c :: c in text ==> c < 128 as char
  {
    seq(|text|, i requires 0 <= i < |text| => assert text[i] in text; Code(text[i]))
  }

  predicate EndsWith(key: seq<Byte>, suffix: seq<Byte>) {
    |suffix| <= |key| && key[|key| - |suffix|..] == suffix
  }

  predicate Wanted(key: seq<Byte>) {
    || key == Ascii("general.architecture") || key == Ascii("general.name") || key == Ascii("general.file_type")
    || key == Ascii("split.count") || key == Ascii("split.no") || key == Ascii("general.size_label")
    || EndsWith(key, Ascii(".context_length"))
  }

  /** One key/value pair: what it adds to the metadata, if anything. */
  function ReadPair(s: seq<Byte>): Parse<(seq<Byte>, Option<Value>)> {
    match String(s)
    case Eof => Eof
    case Unsupported => Unsupported
    case Got(key, afterKey) =>
      match Unsigned(afterKey, 4)
      case Eof => Eof
      case Unsupported => Unsupported
      case Got(vtype, afterType) =>
        if Wanted(key) then
          match ReadValue(afterType, vtype)
          case Got(value, rest) => Got((key, value), rest)
          case Eof => Eof
          case Unsupported => Unsupported
        else
          match SkipValue(afterType, vtype)
          case Got(_, rest) => Got((key, None), rest)
          case Eof => Eof
          case Unsupported => Unsupported
  }

  type Meta = map<seq<Byte>, Value>

  function With(meta: Meta, pair: (seq<Byte>, Option<Value>)): Meta {
    match pair.1 case Some(value) => meta[pair.0 := value] case None => meta
  }

  datatype Header = Header(version: nat, tensorCount: nat, kvCount: nat, meta: Meta, truncated: bool)

  type PairReader = seq<Byte> -> Parse<(seq<Byte>, Option<Value>)>

  /** The metadata of up to count pairs, and whether they could not all be read. */
  function ReadPairs(read: PairReader, s: seq<Byte>, count: nat, meta: Meta): (Meta, bool)
    decreases count
  {
    if count == 0 then (meta, false)
    else match read(s)
      case Got(pair, rest) => ReadPairs(read, rest, count - 1, With(meta, pair))
      case _ => (meta, true)
  }

  datatype Refusal = BadMagic | BadVersion(version: nat)

  const MAGIC: seq<Byte> := [71, 71, 85, 70]

  function ReadHeader(buf: seq<Byte>): Result<Header, Refusal> {
    if |buf| < 24 || buf[..4] != MAGIC then Err(BadMagic)
    else
      var version := Number(buf[4..8]);
      if version != 2 && version != 3 then Err(BadVersion(version))
      else
        var tensorCount, kvCount := Number(buf[8..16]), Number(buf[16..24]);
        var (meta, truncated) := ReadPairs(ReadPair, buf[24..], kvCount, map[]);
        Ok(Header(version, tensorCount, kvCount, meta, truncated))
  }

  // ----- The printer -----

  type U8 = n: nat | n < 0x100
  type U16 = n: nat | n < 0x1_0000
  type U32 = n: nat | n < 0x1_0000_0000
  type U64 = n: nat | n < 0x1_0000_0000_0000_0000
  type I8 = n: int | -0x80 <= n < 0x80
  type I16 = n: int | -0x8000 <= n < 0x8000
  type I32 = n: int | -0x8000_0000 <= n < 0x8000_0000
  type I64 = n: int | -0x8000_0000_0000_0000 <= n < 0x8000_0000_0000_0000

  /** The scalar types of the format. */
  datatype Scalar =
    | Uint8(u8: U8) | Int8(i8: I8) | Uint16(u16: U16) | Int16(i16: I16) | Uint32(u32: U32) | Int32(i32: I32)
    | Float32(f32: U32) | Boolean(flag: bool) | Uint64(u64: U64) | Int64(i64: I64) | Float64(f64: U64)

  /** The code the format gives each of them. */
  function CodeOf(v: Scalar): nat {
    match v
    case Uint8(_) => 0
    case Int8(_) => 1
    case Uint16(_) => 2
    case Int16(_) => 3
    case Uint32(_) => 4
    case Int32(_) => 5
    case Float32(_) => 6
    case Boolean(_) => 7
    case Uint64(_) => 10
    case Int64(_) => 11
    case Float64(_) => 12
  }

  function PrintScalar(v: Scalar): seq<Byte> {
    match v
    case Uint8(n) => [n]
    case Int8(n) => [if n < 0 then n + 0x100 else n]
    case Uint16(n) => Encode(n, 2)
    case Int16(n) => Encode(if n < 0 then n + 0x1_0000 else n, 2)
    case Uint32(n) => Encode(n, 4)
    case Int32(n) => Encode(if n < 0 then n + 0x1_0000_0000 else n, 4)
    case Float32(bits) => Encode(bits, 4)
    case Boolean(on) => [if on then 1 else 0]
    case Uint64(n) => Encode(n, 8)
    case Int64(n) => Encode(if n < 0 then n + 0x1_0000_0000_0000_0000 else n, 8)
    case Float64(bits) => Encode(bits, 8)
  }

  function MeaningOf(v: Scalar): Value {
    match v
    case Uint8(n) => Whole(n)
    case Int8(n) => Whole(n)
    case Uint16(n) => Whole(n)
    case Int16(n) => Whole(n)
    case Uint32(n) => Whole(n)
    case Int32(n) => Whole(n)
    case Float32(bits) => Single(bits)
    case Boolean(on) => Flag(on)
    case Uint64(n) => Whole(n)
    case Int64(n) => Whole(n)
    case Float64(bits) => Double(bits)
  }

  /** The values of a file: scalars, texts and arrays of either. */
  datatype Printed =
    | PScalar(scalar: Scalar)
    | PText(text: seq<Byte>)
    | PScalars(etype: nat, items: seq<Scalar>)
    | PTexts(texts: seq<seq<Byte>>)

  predicate Printable(v: Printed) {
    match v
    case PScalar(_) => true
    case PText(text) => |text| < Limit(8)
    case PScalars(etype, items) => etype in {0, 1, 2, 3, 4, 5, 6, 7, 10, 11, 12} && |items| < Limit(8)
                                   && forall i :: 0 <= i < |items| ==> CodeOf(items[i]) == etype
    case PTexts(texts) => |texts| < Limit(8) && forall i :: 0 <= i < |texts| ==> |texts[i]| < Limit(8)
  }

  function PrintText(text: seq<Byte>): seq<Byte> {
    Encode(|text|, 8) + text
  }

  function PrintTexts(texts: seq<seq<Byte>>): seq<Byte> {
    if texts == [] then [] else PrintText(texts[0]) + PrintTexts(texts[1..])
  }

  function PrintScalars(items: seq<Scalar>): seq<Byte> {
    if items == [] then [] else PrintScalar(items[0]) + PrintScalars(items[1..])
  }

  function TypeOf(v: Printed): nat {
    match v
    case PScalar(scalar) => CodeOf(scalar)
    case PText(_) => 8
    case _ => 9
  }

  function PrintValue(v: Printed): seq<Byte> {
    match v
    case PScalar(scalar) => PrintScalar(scalar)
    case PText(text) => PrintText(text)
    case PScalars(etype, items) => Encode(etype, 4) + (Encode(|items|, 8) + PrintScalars(items))
    case PTexts(texts) => Encode(8, 4) + (Encode(|texts|, 8) + PrintTexts(texts))
  }

  function ValueOf(v: Printed): Option<Value> {
    match v
    case PScalar(scalar) => Some(MeaningOf(scalar))
    case PText(text) => Some(Text(text))
    case _ => None
  }

  datatype Pair = Pair(key: seq<Byte>, value: Printed)

  predicate PrintablePair(p: Pair) {
    |p.key| < Limit(8) && Printable(p.value)
  }

  function PrintPair(p: Pair): seq<Byte> {
    PrintText(p.key) + (Encode(TypeOf(p.value), 4) + PrintValue(p.value))
  }

  type PairPrinter = Pair -> seq<Byte>

  function PrintPairs(render: PairPrinter, pairs: seq<Pair>): seq<Byte> {
    if pairs == [] then [] else render(pairs[0]) + PrintPairs(render, pairs[1..])
  }

  function PrintHeader(version: nat, tensorCount: nat, pairs: seq<Pair>): seq<Byte> {
    [71, 71, 85, 70]
    + (Encode(version, 4) + (Encode(tensorCount, 8) + (Encode(|pairs|, 8) + PrintPairs(PrintPair, pairs))))
  }

  /** What a pair adds to the metadata. */
  function Entry(p: Pair): (seq<Byte>, Option<Value>) {
    (p.key, if Wanted(p.key) then ValueOf(p.value) else None)
  }

  type PairMeaning = Pair -> (seq<Byte>, Option<Value>)

  /** What pairs leave, added one by one. */
  function Adding(of: PairMeaning, meta: Meta, pairs: seq<Pair>): Meta
    decreases |pairs|
  {
    if pairs == [] then meta
    else Adding(of, With(meta, of(pairs[0])), pairs[1..])
  }

  /** The wanted scalar and text pairs, the last of a key winning. */
  function MetaOf(meta: Meta, pairs: seq<Pair>): Meta {
    Adding(Entry, meta, pairs)
  }

  /** The pair puts a value under the key. */
  ghost predicate Gives(of: PairMeaning, p: Pair, key: seq<Byte>) {
    of(p).0 == key && of(p).1.Some?
  }

  ghost predicate NoneGives(of: PairMeaning, pairs: seq<Pair>, key: seq<Byte>) {
    forall i :: 0 <= i < |pairs| ==> !Gives(of, pairs[i], key)
  }

  lemma {:induction false} NotGiven(of: PairMeaning, meta: Meta, pairs: seq<Pair>, key: seq<Byte>)
    requires NoneGives(of, pairs, key)
    ensures key in Adding(of, meta, pairs) <==> key in meta
    ensures key in meta ==> Adding(of, meta, pairs)[key] == meta[key]
    decreases |pairs|
  {
    if pairs != [] {
      assert !Gives(of, pairs[0], key);
      NotGiven(of, With(meta, of(pairs[0])), pairs[1..], key);
    }
  }

  lemma {:induction false} LastGiven(of: PairMeaning, meta: Meta, pairs: seq<Pair>, key: seq<Byte>, i: nat)
    requires i < |pairs| && Gives(of, pairs[i], key) && NoneGives(of, pairs[i + 1..], key)
    ensures key in Adding(of, meta, pairs) && Adding(of, meta, pairs)[key] == of(pairs[i]).1.value
    decreases |pairs|
  {
    var next := With(meta, of(pairs[0]));
    if i == 0 {
      NotGiven(of, next, pairs[1..], key);
    } else {
      assert pairs[1..][i - 1] == pairs[i] && pairs[1..][i..] == pairs[i + 1..];
      LastGiven(of, next, pairs[1..], key, i - 1);
    }
  }

  lemma LastGiving(of: PairMeaning, pairs: seq<Pair>, key: seq<Byte>, i: nat) returns (last: nat)
    requires i < |pairs| && Gives(of, pairs[i], key)
    ensures i <= last < |pairs| && Gives(of, pairs[last], key) && NoneGives(of, pairs[last + 1..], key)
    decreases |pairs| - i
  {
    last := i;
    if j :| i < j < |pairs| && Gives(of, pairs[j], key) {
      last := LastGiving(of, pairs, key, j);
    }
  }

  lemma AddingIs(of: PairMeaning, pairs: seq<Pair>, key: seq<Byte>)
    ensures key in Adding(of, map[], pairs) <==> exists i :: 0 <= i < |pairs| && Gives(of, pairs[i], key)
    ensures forall i :: 0 <= i < |pairs| && Gives(of, pairs[i], key) && NoneGives(of, pairs[i + 1..], key) ==>
              key in Adding(of, map[], pairs) && Some(Adding(of, map[], pairs)[key]) == of(pairs[i]).1
  {
    if i :| 0 <= i < |pairs| && Gives(of, pairs[i], key) {
      var last := LastGiving(of, pairs, key, i);
      LastGiven(of, map[], pairs, key, last);
    } else {
      NotGiven(of, map[], pairs, key);
    }
    forall i | 0 <= i < |pairs| && Gives(of, pairs[i], key) && NoneGives(of, pairs[i + 1..], key)
      ensures key in Adding(of, map[], pairs) && Some(Adding(of, map[], pairs)[key]) == of(pairs[i]).1
    {
      LastGiven(of, map[], pairs, key, i);
    }
  }

  /** The pair has this key and a scalar or a text. */
  predicate Carries(p: Pair, key: seq<Byte>) {
    p.key == key && (p.value.PScalar? || p.value.PText?)
  }

  ghost predicate LastCarrier(pairs: seq<Pair>, key: seq<Byte>, i: nat)
    requires i < |pairs|
  {
    Carries(pairs[i], key) && forall j :: i < j < |pairs| ==> !Carries(pairs[j], key)
  }

  lemma GivesIs(p: Pair, key: seq<Byte>)
    ensures Gives(Entry, p, key) <==> Wanted(key) && Carries(p, key)
    ensures Gives(Entry, p, key) ==> Entry(p).1 == ValueOf(p.value)
  {
  }

  /**
   The metadata has a key if and only if it is wanted and some scalar or text pair has it, and
   then the value of the last such pair.
   */
  lemma MetaIs(pairs: seq<Pair>, key: seq<Byte>)
    ensures key in MetaOf(map[], pairs) <==> Wanted(key) && exists i :: 0 <= i < |pairs| && Carries(pairs[i], key)
    ensures forall i :: 0 <= i < |pairs| && Wanted(key) && LastCarrier(pairs, key, i) ==>
              key in MetaOf(map[], pairs) && Some(MetaOf(map[], pairs)[key]) == ValueOf(pairs[i].value)
  {
    AddingIs(Entry, pairs, key);
    forall i | 0 <= i < |pairs|
      ensures Gives(Entry, pairs[i], key) <==> Wanted(key) && Carries(pairs[i], key)
      ensures Gives(Entry, pairs[i], key) ==> Entry(pairs[i]).1 == ValueOf(pairs[i].value)
    {
      GivesIs(pairs[i], key);
    }
    forall i | 0 <= i < |pairs| && Wanted(key) && LastCarrier(pairs, key, i)
      ensures NoneGives(Entry, pairs[i + 1..], key)
    {
    }
  }

  /** A key's text, byte by byte. */
  function Chars(key: seq<Byte>): string {
    seq(|key|, i requires 0 <= i < |key| => key[i] as char)
  }

  lemma CharsOfAscii(key: seq<Byte>, text: string)
    requires forall c :: c in text ==> c < 128 as char
    ensures key == Ascii(text) <==> Chars(key) == text
  {
    if Chars(key) == text {
      forall i | 0 <= i < |key|
        ensures key[i] == Ascii(text)[i]
      {
        assert Chars(key)[i] == text[i];
      }
    }
    if key == Ascii(text) {
      forall i | 0 <= i < |text|
        ensures Chars(key)[i] == text[i]
      {
        assert Ascii(text)[i] == text[i] as int;
      }
    }
  }

  /** The keys that are surfaced: six names, and the context length of any architecture. */
  lemma WantedKeys(key: seq<Byte>)
    ensures Wanted(key) <==>
            || Chars(key) in {"general.architecture", "general.name", "general.file_type",
                              "general.size_label", "split.no", "split.count"}
            || exists stem :: Chars(key) == stem + ".context_length"
  {
    CharsOfAscii(key, "general.architecture");
    CharsOfAscii(key, "general.name");
    CharsOfAscii(key, "general.file_type");
    CharsOfAscii(key, "general.size_label");
    CharsOfAscii(key, "split.no");
    CharsOfAscii(key, "split.count");
    SuffixChars(key, ".context_length");
  }

  lemma SuffixChars(key: seq<Byte>, suffix: string)
    requires forall c :: c in suffix ==> c < 128 as char
    ensures EndsWith(key, Ascii(suffix)) <==> exists stem :: Chars(key) == stem + suffix
  {
    if |suffix| <= |key| {
      var at := |key| - |suffix|;
      CharsOfAscii(key[at..], suffix);
      assert Chars(key) == Chars(key[..at]) + Chars(key[at..]);
    }
    if stem :| Chars(key) == stem + suffix {
      assert |stem| == |key| - |suffix| && Chars(key)[|stem|..] == suffix;
      assert Chars(key[|stem|..]) == Chars(key)[|stem|..];
    }
  }

  // ----- Parsing what was printed, whole or cut short -----

  /** s starts like text, or is a beginning of it. */
  ghost predicate Agrees(s: seq<Byte>, text: seq<Byte>) {
    forall i :: 0 <= i < |s| && i < |text| ==> s[i] == text[i]
  }

  /** The parse of text gives value from any s long enough, and runs out of bytes in any s cut short. */
  ghost predicate Reads<T>(p: Parse<T>, s: seq<Byte>, text: seq<Byte>, value: T) {
    p == if |s| >= |text| then Got(value, s[|text|..]) else Eof
  }

  lemma AgreesSplit(s: seq<Byte>, x: seq<Byte>, y: seq<Byte>)
    requires Agrees(s, x + y)
    ensures Agrees(s, x)
    ensures |s| >= |x| ==> Agrees(s[|x|..], y)
    ensures |s| >= |x + y| ==> s[|x|..][|y|..] == s[|x + y|..]
  {
    if |s| >= |x| {
      forall i | 0 <= i < |s[|x|..]| && i < |y|
        ensures s[|x|..][i] == y[i]
      {
        assert (x + y)[|x| + i] == y[i];
      }
    }
    forall i | 0 <= i < |s| && i < |x|
      ensures s[i] == x[i]
    {
      assert (x + y)[i] == x[i];
    }
  }

  lemma TakeReads(s: seq<Byte>, text: seq<Byte>)
    requires Agrees(s, text)
    ensures Reads(Take(s, |text|), s, text, text)
    ensures Reads(Skip(s, |text|), s, text, ())
  {
    if |s| >= |text| {
      assert s[..|text|] == text;
    }
  }

  lemma UnsignedReads(s: seq<Byte>, n: nat, width: nat)
    requires n < Limit(width) && Agrees(s, Encode(n, width))
    ensures Reads(Unsigned(s, width), s, Encode(n, width), n)
  {
    NumberOfEncode(n, width);
    TakeReads(s, Encode(n, width));
  }

  lemma StringReads(s: seq<Byte>, text: seq<Byte>)
    requires |text| < Limit(8) && Agrees(s, PrintText(text))
    ensures Reads(String(s), s, PrintText(text), text)
  {
    var length := Encode(|text|, 8);
    AgreesSplit(s, length, text);
    UnsignedReads(s, |text|, 8);
    if |s| >= |length| {
      TakeReads(s[|length|..], text);
    }
  }

  lemma {:induction false} StringsRead(s: seq<Byte>, texts: seq<seq<Byte>>)
    requires (forall i :: 0 <= i < |texts| ==> |texts[i]| < Limit(8)) && Agrees(s, PrintTexts(texts))
    ensures Reads(SkipStrings(s, |texts|), s, PrintTexts(texts), ())
    decreases |texts|
  {
    if texts == [] {
      assert s[0..] == s;
    } else {
      var first := PrintText(texts[0]);
      AgreesSplit(s, first, PrintTexts(texts[1..]));
      StringReads(s, texts[0]);
      if |s| >= |first| {
        StringsRead(s[|first|..], texts[1..]);
      }
    }
  }

  /** The reader's table of sizes and formats fits every scalar type of the format. */
  lemma ScalarReads(v: Scalar)
    ensures FixedSize(CodeOf(v)) == Some(|PrintScalar(v)|)
    ensures Unpack(CodeOf(v), PrintScalar(v)) == MeaningOf(v)
  {
    Limits();
    match v {
      case Uint8(n) => OneByte(n);
      case Int8(n) => OneByte(if n < 0 then n + 0x100 else n);
      case Uint16(n) => NumberOfEncode(n, 2);
      case Int16(n) => NumberOfEncode(if n < 0 then n + 0x1_0000 else n, 2);
      case Uint32(n) => NumberOfEncode(n, 4);
      case Int32(n) => NumberOfEncode(if n < 0 then n + 0x1_0000_0000 else n, 4);
      case Float32(bits) => NumberOfEncode(bits, 4);
      case Boolean(on) => OneByte(if on then 1 else 0);
      case Uint64(n) => NumberOfEncode(n, 8);
      case Int64(n) => NumberOfEncode(if n < 0 then n + 0x1_0000_0000_0000_0000 else n, 8);
      case Float64(bits) => NumberOfEncode(bits, 8);
    }
  }

  lemma OneByte(b: Byte)
    ensures Number([b]) == b
  {
    assert [b][1..] == [];
  }

  lemma {:induction false} ScalarsSize(etype: nat, items: seq<Scalar>, size: nat)
    requires FixedSize(etype) == Some(size) && forall i :: 0 <= i < |items| ==> CodeOf(items[i]) == etype
    ensures |PrintScalars(items)| == size * |items|
  {
    if items != [] {
      ScalarReads(items[0]);
      ScalarsSize(etype, items[1..], size);
      assert size * |items| == size + size * (|items| - 1);
    }
  }

  lemma ArrayReads(s: seq<Byte>, v: Printed)
    requires (v.PScalars? || v.PTexts?) && Printable(v) && Agrees(s, PrintValue(v))
    ensures Reads(SkipArray(s), s, PrintValue(v), ())
  {
    var etype, count, body := if v.PTexts? then 8 else v.etype, if v.PTexts? then |v.texts| else |v.items|,
                              if v.PTexts? then PrintTexts(v.texts) else PrintScalars(v.items);
    var x, y := Encode(etype, 4), Encode(count, 8);
    assert PrintValue(v) == x + (y + body);
    AgreesSplit(s, x, y + body);
    FourBytes();
    UnsignedReads(s, etype, 4);
    if |s| >= |x| {
      var s1 := s[|x|..];
      AgreesSplit(s1, y, body);
      UnsignedReads(s1, count, 8);
      if |s1| >= |y| {
        if v.PTexts? {
          StringsRead(s1[|y|..], v.texts);
        } else {
          ScalarsSize(etype, v.items, FixedSize(etype).value);
          TakeReads(s1[|y|..], body);
        }
      }
    }
  }

  lemma FourBytes()
    ensures Limit(4) == 0x1_0000_0000
  {
    assert Limit(1) == 256;
    assert Limit(2) == 0x1_0000;
    assert Limit(3) == 0x100_0000;
  }

  lemma Limits()
    ensures Limit(1) == 0x100 && Limit(2) == 0x1_0000 && Limit(4) == 0x1_0000_0000
    ensures Limit(8) == 0x1_0000_0000_0000_0000
  {
    FourBytes();
    assert Limit(1) == 256;
    assert Limit(5) == 0x100_0000_0000;
    assert Limit(6) == 0x1_0000_0000_0000;
    assert Limit(7) == 0x100_0000_0000_0000;
  }

  lemma ValueReads(s: seq<Byte>, v: Printed)
    requires Printable(v) && Agrees(s, PrintValue(v))
    ensures Reads(ReadValue(s, TypeOf(v)), s, PrintValue(v), ValueOf(v))
    ensures Reads(SkipValue(s, TypeOf(v)), s, PrintValue(v), ())
  {
    SkipReadAlike(s, TypeOf(v));
    match v {
      case PScalar(scalar) =>
        ScalarReads(scalar);
        TakeReads(s, PrintScalar(scalar));
      case PText(text) => StringReads(s, text);
      case _ => ArrayReads(s, v);
    }
  }

  lemma PairReads(s: seq<Byte>, p: Pair)
    requires PrintablePair(p) && Agrees(s, PrintPair(p))
    ensures Reads(ReadPair(s), s, PrintPair(p), Entry(p))
  {
    var key, vtype, value := PrintText(p.key), Encode(TypeOf(p.value), 4), PrintValue(p.value);
    AgreesSplit(s, key, vtype + value);
    StringReads(s, p.key);
    if |s| >= |key| {
      var s1 := s[|key|..];
      AgreesSplit(s1, vtype, value);
      FourBytes();
      UnsignedReads(s1, TypeOf(p.value), 4);
      if |s1| >= |vtype| {
        ValueReads(s1[|vtype|..], p.value);
      }
    }
  }

  /** How many pairs are whole in the first n bytes. */
  function WholePairs(render: PairPrinter, pairs: seq<Pair>, n: nat): (k: nat)
    ensures k <= |pairs|
  {
    if pairs == [] || n < |render(pairs[0])| then 0 else 1 + WholePairs(render, pairs[1..], n - |render(pairs[0])|)
  }

  /** The answer for as many pairs as the bytes hold, and the flag exactly when that is not all. */
  ghost predicate PairsAnswered(read: PairReader, render: PairPrinter, s: seq<Byte>, pairs: seq<Pair>, meta: Meta) {
    var k := WholePairs(render, pairs, |s|);
    ReadPairs(read, s, |pairs|, meta) == (MetaOf(meta, pairs[..k]), k < |pairs|)
  }

  /** The reader inverts the printer on these pairs, from any beginning of what is printed. */
  ghost predicate Inverts(read: PairReader, render: PairPrinter, pairs: seq<Pair>) {
    forall s, i :: 0 <= i < |pairs| && Agrees(s, render(pairs[i])) ==>
        Reads(read(s), s, render(pairs[i]), Entry(pairs[i]))
  }

  lemma ReadPairInverts(pairs: seq<Pair>)
    requires forall i :: 0 <= i < |pairs| ==> PrintablePair(pairs[i])
    ensures Inverts(ReadPair, PrintPair, pairs)
  {
    forall s, i | 0 <= i < |pairs| && Agrees(s, PrintPair(pairs[i]))
      ensures Reads(ReadPair(s), s, PrintPair(pairs[i]), Entry(pairs[i]))
    {
      PairReads(s, pairs[i]);
    }
  }

  lemma {:induction false} PairsRead(read: PairReader, render: PairPrinter, s: seq<Byte>, pairs: seq<Pair>, meta: Meta)
    requires Inverts(read, render, pairs) && Agrees(s, PrintPairs(render, pairs))
    ensures PairsAnswered(read, render, s, pairs, meta)
    decreases |pairs|
  {
    if pairs != [] {
      var first := render(pairs[0]);
      AgreesSplit(s, first, PrintPairs(render, pairs[1..]));
      assert Reads(read(s), s, first, Entry(pairs[0]));
      if |s| >= |first| {
        PairsRead(read, render, s[|first|..], pairs[1..], With(meta, Entry(pairs[0])));
        AnsweredAfterPair(read, render, s, pairs, meta, s[|first|..]);
      }
    }
  }

  lemma AnsweredAfterPair(read: PairReader, render: PairPrinter, s: seq<Byte>, pairs: seq<Pair>, meta: Meta,
                          rest: seq<Byte>)
    requires pairs != [] && read(s) == Got(Entry(pairs[0]), rest) && |s| == |render(pairs[0])| + |rest|
    requires PairsAnswered(read, render, rest, pairs[1..], With(meta, Entry(pairs[0])))
    ensures PairsAnswered(read, render, s, pairs, meta)
  {
    OnePairMore(render, pairs, |s|, meta);
  }

  lemma OnePairMore(render: PairPrinter, pairs: seq<Pair>, n: nat, meta: Meta)
    requires pairs != [] && |render(pairs[0])| <= n
    ensures var k := WholePairs(render, pairs[1..], n - |render(pairs[0])|);
            WholePairs(render, pairs, n) == k + 1
            && MetaOf(meta, pairs[..k + 1]) == MetaOf(With(meta, Entry(pairs[0])), pairs[1..][..k])
  {
    var k := WholePairs(render, pairs[1..], n - |render(pairs[0])|);
    assert pairs[..k + 1][1..] == pairs[1..][..k];
    assert pairs[..k + 1][0] == pairs[0];
  }

  ghost predicate PrintableHeader(version: nat, tensorCount: nat, pairs: seq<Pair>) {
    && (version == 2 || version == 3) && tensorCount < Limit(8) && |pairs| < Limit(8)
    && forall i :: 0 <= i < |pairs| ==> PrintablePair(pairs[i])
  }

  /** A printed number at a position, and what follows it. */
  lemma FieldAt(buf: seq<Byte>, at: nat, n: nat, width: nat, rest: seq<Byte>)
    requires at + width <= |buf| && n < Limit(width) && Agrees(buf[at..], Encode(n, width) + rest)
    ensures Number(buf[at..at + width]) == n && Agrees(buf[at + width..], rest)
  {
    var s := buf[at..];
    NumberOfEncode(n, width);
    AgreesSplit(s, Encode(n, width), rest);
    UnsignedReads(s, n, width);
    assert s[..width] == buf[at..at + width] && s[width..] == buf[at + width..];
  }

  /** The fixed part of a header. */
  lemma FixedPart(buf: seq<Byte>, version: nat, tensorCount: nat, count: nat, rest: seq<Byte>)
    requires version < Limit(4) && tensorCount < Limit(8) && count < Limit(8) && |buf| >= 24
    requires Agrees(buf, [71, 71, 85, 70] + (Encode(version, 4) + (Encode(tensorCount, 8) + (Encode(count, 8) + rest))))
    ensures buf[..4] == MAGIC && Number(buf[4..8]) == version
    ensures Number(buf[8..16]) == tensorCount && Number(buf[16..24]) == count
    ensures Agrees(buf[24..], rest)
  {
    AgreesSplit(buf, [71, 71, 85, 70], Encode(version, 4) + (Encode(tensorCount, 8) + (Encode(count, 8) + rest)));
    ThreeFields(buf, version, tensorCount, count, rest, 4, 8);
  }

  lemma ThreeFields(buf: seq<Byte>, version: nat, tensorCount: nat, count: nat, rest: seq<Byte>, four: nat, eight: nat)
    requires four == 4 && eight == 8 && |buf| >= 24
    requires version < Limit(four) && tensorCount < Limit(eight) && count < Limit(eight)
    requires Agrees(buf[four..], Encode(version, four) + (Encode(tensorCount, eight) + (Encode(count, eight) + rest)))
    ensures Number(buf[4..8]) == version && Number(buf[8..16]) == tensorCount && Number(buf[16..24]) == count
    ensures Agrees(buf[24..], rest)
  {
    var counts := Encode(count, eight) + rest;
    FieldAt(buf, four, version, four, Encode(tensorCount, eight) + counts);
    FieldAt(buf, 8, tensorCount, eight, counts);
    FieldAt(buf, 16, count, eight, rest);
  }

  lemma PairsFrom(body: seq<Byte>, pairs: seq<Pair>)
    requires forall i :: 0 <= i < |pairs| ==> PrintablePair(pairs[i])
    requires Agrees(body, PrintPairs(PrintPair, pairs))
    ensures PairsAnswered(ReadPair, PrintPair, body, pairs, map[])
  {
    ReadPairInverts(pairs);
    PairsRead(ReadPair, PrintPair, body, pairs, map[]);
  }

  lemma HeaderFrom(buf: seq<Byte>, read: PairReader, version: nat, tensorCount: nat, count: nat, meta: Meta,
                   truncated: bool)
    requires read == ReadPair && |buf| >= 24 && buf[..4] == MAGIC
    requires Number(buf[4..8]) == version && Number(buf[8..16]) == tensorCount && Number(buf[16..24]) == count
    requires version == 2 || version == 3
    requires ReadPairs(read, buf[24..], count, map[]) == (meta, truncated)
    ensures ReadHeader(buf) == Ok(Header(version, tensorCount, count, meta, truncated))
  {
  }

  lemma AfterFixedPart(buf: seq<Byte>, version: nat, tensorCount: nat, pairs: seq<Pair>, k: nat)
    requires |buf| >= 24 && buf[..4] == MAGIC && (version == 2 || version == 3)
    requires Number(buf[4..8]) == version && Number(buf[8..16]) == tensorCount && Number(buf[16..24]) == |pairs|
    requires (forall i :: 0 <= i < |pairs| ==> PrintablePair(pairs[i]))
             && Agrees(buf[24..], PrintPairs(PrintPair, pairs))
    requires k == WholePairs(PrintPair, pairs, |buf| - 24)
    ensures ReadHeader(buf) == Ok(Header(version, tensorCount, |pairs|, MetaOf(map[], pairs[..k]), k < |pairs|))
  {
    PairsFrom(buf[24..], pairs);
    HeaderFrom(buf, ReadPair, version, tensorCount, |pairs|, MetaOf(map[], pairs[..k]), k < |pairs|);
  }

  /**
   Prefix soundness: from any beginning of a printed file of at least 24 bytes, and whatever follows the pairs, the
   reader gives the metadata of exactly the pairs that are whole in it, flagged if and only if some are not.
   */
  lemma PrefixSound(buf: seq<Byte>, version: nat, tensorCount: nat, pairs: seq<Pair>)
    requires PrintableHeader(version, tensorCount, pairs)
    requires |buf| >= 24 && Agrees(buf, PrintHeader(version, tensorCount, pairs))
    ensures var k := WholePairs(PrintPair, pairs, |buf| - 24);
            ReadHeader(buf) == Ok(Header(version, tensorCount, |pairs|, MetaOf(map[], pairs[..k]), k < |pairs|))
  {
    FourBytes();
    FixedPart(buf, version, tensorCount, |pairs|, PrintPairs(PrintPair, pairs));
    AfterFixedPart(buf, version, tensorCount, pairs, WholePairs(PrintPair, pairs, |buf| - 24));
  }

  lemma AfterAll(a: seq<Byte>, b: seq<Byte>, c: seq<Byte>, d: seq<Byte>, rest: seq<Byte>)
    ensures var all, n := a + (b + (c + (d + rest))), |a| + |b| + |c| + |d|;
            |all| == n + |rest| && all[n..] == rest
  {
    assert a + (b + (c + (d + rest))) == (a + b + c + d) + rest;
  }

  lemma StartSize(start: seq<Byte>, version: nat, tensorCount: nat, count: nat, body: seq<Byte>, four: nat, eight: nat)
    ensures var buf := start + (Encode(version, four) + (Encode(tensorCount, eight) + (Encode(count, eight) + body)));
            |buf| == |start| + four + 2 * eight + |body| && buf[|start| + four + 2 * eight..] == body
  {
    EncodeSize(version, four);
    EncodeSize(tensorCount, eight);
    EncodeSize(count, eight);
    AfterAll(start, Encode(version, four), Encode(tensorCount, eight), Encode(count, eight), body);
  }

  lemma {:induction false} AllWhole(render: PairPrinter, pairs: seq<Pair>, n: nat)
    requires n >= |PrintPairs(render, pairs)|
    ensures WholePairs(render, pairs, n) == |pairs|
  {
    if pairs != [] {
      AllWhole(render, pairs[1..], n - |render(pairs[0])|);
    }
  }

  /** Reading inverts printing: every wanted scalar and text key, the last of each winning, and no flag. */
  lemma RoundTrip(version: nat, tensorCount: nat, pairs: seq<Pair>, tail: seq<Byte>)
    requires PrintableHeader(version, tensorCount, pairs)
    ensures ReadHeader(PrintHeader(version, tensorCount, pairs) + tail)
            == Ok(Header(version, tensorCount, |pairs|, MetaOf(map[], pairs), false))
  {
    var printed, body := PrintHeader(version, tensorCount, pairs), PrintPairs(PrintPair, pairs);
    StartSize([71, 71, 85, 70], version, tensorCount, |pairs|, body, 4, 8);
    PrefixSound(printed + tail, version, tensorCount, pairs);
    AllWhole(PrintPair, pairs, |printed + tail| - 24);
    assert pairs[..|pairs|] == pairs;
  }

  // ----- What the reader refuses -----

  /** The pairs in these bytes give this metadata and flag. */
  ghost predicate Answers(read: PairReader, s: seq<Byte>, n: nat, meta: Meta, result: (Meta, bool)) {
    ReadPairs(read, s, n, meta) == result
  }

  lemma OneTurn(read: PairReader, s: seq<Byte>, pair: (seq<Byte>, Option<Value>), rest: seq<Byte>, n: nat, meta: Meta,
                result: (Meta, bool))
    requires n > 0 && read(s) == Got(pair, rest) && Answers(read, rest, n - 1, With(meta, pair), result)
    ensures Answers(read, s, n, meta, result)
  {
  }

  lemma PrintedFirst(render: PairPrinter, pairs: seq<Pair>, rest: seq<Byte>)
    requires pairs != []
    ensures var first, others := render(pairs[0]), PrintPairs(render, pairs[1..]) + rest;
            PrintPairs(render, pairs) + rest == first + others
  {
  }

  lemma {:induction false} PairsThen(read: PairReader, render: PairPrinter, pairs: seq<Pair>, rest: seq<Byte>,
                                     more: nat, n: nat, meta: Meta, result: (Meta, bool))
    requires Inverts(read, render, pairs) && Answers(read, rest, more, Adding(Entry, meta, pairs), result)
    requires n == |pairs| + more
    ensures Answers(read, PrintPairs(render, pairs) + rest, n, meta, result)
    decreases |pairs|
  {
    if pairs == [] {
      assert PrintPairs(render, pairs) + rest == rest;
    } else {
      var first, others := render(pairs[0]), PrintPairs(render, pairs[1..]) + rest;
      PairsThen(read, render, pairs[1..], rest, more, n - 1, With(meta, Entry(pairs[0])), result);
      AgreesWithStart(first + others, first, others);
      assert Reads(read(first + others), first + others, first, Entry(pairs[0]));
      OneTurn(read, first + others, Entry(pairs[0]), others, n, meta, result);
      PrintedFirst(render, pairs, rest);
    }
  }

  /** A value whose type the format does not define, or an array whose elements are arrays or of such a type. */
  ghost predicate PrintsUnsupported(s: seq<Byte>) {
    || (exists vtype: nat, rest :: 13 <= vtype < Limit(4) && s == Encode(vtype, 4) + rest)
    || exists etype: nat, count: nat, rest ::
         (etype == 9 || 13 <= etype < Limit(4)) && count < Limit(8)
         && s == Encode(9, 4) + (Encode(etype, 4) + (Encode(count, 8) + rest))
  }

  lemma AgreesWithStart(s: seq<Byte>, x: seq<Byte>, y: seq<Byte>)
    requires s == x + y
    ensures Agrees(s, x) && |s| >= |x| && s[|x|..] == y
  {
  }

  lemma NoValue(s: seq<Byte>, key: seq<Byte>, afterKey: seq<Byte>, vtype: nat, rest: seq<Byte>)
    requires String(s) == Got(key, afterKey) && Unsigned(afterKey, 4) == Got(vtype, rest)
    requires SkipValue(rest, vtype) == Unsupported
    ensures ReadPair(s) == Unsupported
  {
    SkipReadAlike(rest, vtype);
  }

  lemma UnsupportedPair(key: seq<Byte>, value: seq<Byte>)
    requires |key| < Limit(8) && PrintsUnsupported(value)
    ensures ReadPair(PrintText(key) + value) == Unsupported
  {
    var s := PrintText(key) + value;
    AgreesWithStart(s, PrintText(key), value);
    StringReads(s, key);
    FourBytes();
    if vtype: nat, rest :| 13 <= vtype < Limit(4) && value == Encode(vtype, 4) + rest {
      TypeThen(value, vtype, rest);
      NoValue(s, key, value, vtype, rest);
    } else {
      var etype: nat, count: nat, rest :| (etype == 9 || 13 <= etype < Limit(4)) && count < Limit(8)
                                          && value == Encode(9, 4) + (Encode(etype, 4) + (Encode(count, 8) + rest));
      NestedArray(s, key, value, etype, count, rest);
    }
  }

  lemma NestedArray(s: seq<Byte>, key: seq<Byte>, value: seq<Byte>, etype: nat, count: nat, rest: seq<Byte>)
    requires String(s) == Got(key, value) && value == Encode(9, 4) + (Encode(etype, 4) + (Encode(count, 8) + rest))
    requires (etype == 9 || 13 <= etype < Limit(4)) && count < Limit(8)
    ensures ReadPair(s) == Unsupported
  {
    var nested := Encode(etype, 4) + (Encode(count, 8) + rest);
    FourBytes();
    TypeThen(value, 9, nested);
    UnsupportedArray(etype, count, rest);
    NoValue(s, key, value, 9, nested);
  }

  lemma TypeThen(s: seq<Byte>, vtype: nat, rest: seq<Byte>)
    requires vtype < Limit(4) && s == Encode(vtype, 4) + rest
    ensures Unsigned(s, 4) == Got(vtype, rest)
  {
    AgreesWithStart(s, Encode(vtype, 4), rest);
    UnsignedReads(s, vtype, 4);
  }

  lemma UnsupportedArray(etype: nat, count: nat, rest: seq<Byte>)
    requires (etype == 9 || 13 <= etype < Limit(4)) && count < Limit(8)
    ensures SkipArray(Encode(etype, 4) + (Encode(count, 8) + rest)) == Unsupported
  {
    FourBytes();
    var nested, counted := Encode(etype, 4) + (Encode(count, 8) + rest), Encode(count, 8) + rest;
    AgreesWithStart(nested, Encode(etype, 4), counted);
    UnsignedReads(nested, etype, 4);
    AgreesWithStart(counted, Encode(count, 8), rest);
    UnsignedReads(counted, count, 8);
  }

  /** A value of an unknown type ends the reading: the metadata of the pairs before it, and the flag. */
  lemma UnsupportedStops(version: nat, tensorCount: nat, count: nat, pairs: seq<Pair>, key: seq<Byte>, value: seq<Byte>)
    requires PrintableHeader(version, tensorCount, pairs) && |pairs| < count < Limit(8)
    requires |key| < Limit(8) && PrintsUnsupported(value)
    ensures var body := PrintPairs(PrintPair, pairs) + (PrintText(key) + value);
            ReadHeader([71, 71, 85, 70] + (Encode(version, 4) + (Encode(tensorCount, 8) + (Encode(count, 8) + body))))
            == Ok(Header(version, tensorCount, count, MetaOf(map[], pairs), true))
  {
    UnsupportedPair(key, value);
    ReadPairInverts(pairs);
    StopsAt(ReadPair, PrintPair, version, tensorCount, count, pairs, PrintText(key) + value);
  }

  lemma StopsAt(read: PairReader, render: PairPrinter, version: nat, tensorCount: nat, count: nat, pairs: seq<Pair>,
                bad: seq<Byte>)
    requires (version == 2 || version == 3) && tensorCount < Limit(8) && |pairs| < count < Limit(8)
    requires read == ReadPair && Inverts(read, render, pairs) && read(bad) == Unsupported
    ensures var body := PrintPairs(render, pairs) + bad;
            ReadHeader([71, 71, 85, 70] + (Encode(version, 4) + (Encode(tensorCount, 8) + (Encode(count, 8) + body))))
            == Ok(Header(version, tensorCount, count, MetaOf(map[], pairs), true))
  {
    var meta, body := MetaOf(map[], pairs), PrintPairs(render, pairs) + bad;
    var buf := [71, 71, 85, 70] + (Encode(version, 4) + (Encode(tensorCount, 8) + (Encode(count, 8) + body)));
    Stops(read, bad, count - |pairs|, meta);
    PairsThen(read, render, pairs, bad, count - |pairs|, count, map[], (meta, true));
    FourBytes();
    Fields(buf, version, tensorCount, count, body);
    BodyRead(read, buf, version, tensorCount, count, body, (meta, true));
  }

  lemma Stops(read: PairReader, s: seq<Byte>, more: nat, meta: Meta)
    requires 0 < more && read(s) == Unsupported
    ensures Answers(read, s, more, meta, (meta, true))
  {
  }

  lemma Fields(buf: seq<Byte>, version: nat, tensorCount: nat, count: nat, body: seq<Byte>)
    requires version < Limit(4) && tensorCount < Limit(8) && count < Limit(8)
    requires buf == [71, 71, 85, 70] + (Encode(version, 4) + (Encode(tensorCount, 8) + (Encode(count, 8) + body)))
    ensures |buf| >= 24 && buf[..4] == MAGIC && Number(buf[4..8]) == version
    ensures Number(buf[8..16]) == tensorCount && Number(buf[16..24]) == count && buf[24..] == body
  {
    StartSize([71, 71, 85, 70], version, tensorCount, count, body, 4, 8);
    FixedPart(buf, version, tensorCount, count, body);
  }

  lemma BodyRead(read: PairReader, buf: seq<Byte>, version: nat, tensorCount: nat, count: nat, body: seq<Byte>,
                 result: (Meta, bool))
    requires |buf| >= 24 && buf[..4] == MAGIC && Number(buf[4..8]) == version && (version == 2 || version == 3)
    requires Number(buf[8..16]) == tensorCount && Number(buf[16..24]) == count && buf[24..] == body
    requires read == ReadPair && Answers(read, body, count, map[], result)
    ensures ReadHeader(buf) == Ok(Header(version, tensorCount, count, result.0, result.1))
  {
    HeaderFrom(buf, read, version, tensorCount, count, result.0, result.1);
  }

  /** A file is refused for its start alone: too short or without the four letters, or of another version. */
  lemma RefusedExactly(buf: seq<Byte>, version: nat, rest: seq<Byte>)
    requires version < Limit(4)
    ensures ReadHeader(buf) == Err(BadMagic) <==> |buf| < 24 || Chars(buf[..4]) != "GGUF"
    ensures |rest| >= 16 && buf == [71, 71, 85, 70] + (Encode(version, 4) + rest) ==>
              (ReadHeader(buf) == Err(BadVersion(version)) <==> version != 2 && version != 3)
  {
    if |buf| >= 4 {
      assert Ascii("GGUF") == [71, 71, 85, 70];
      CharsOfAscii(buf[..4], "GGUF");
    }
    if |rest| >= 16 && buf == [71, 71, 85, 70] + (Encode(version, 4) + rest) {
      NumberOfEncode(version, 4);
      assert buf[4..8] == Encode(version, 4);
    }
  }
}
