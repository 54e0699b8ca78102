/** The e2store record format: an 8-byte header (type, length, reserved) followed by the data. */
module E2Store {
  import opened Options
  import opened Bytes

  datatype Error = Io | Ssz | ReservedNotZero | Abort

  datatype Result<+T> = Ok(value: T) | Err(error: Error) {
    predicate IsFailure() { Err? }
    function PropagateFailure<U>(): Result<U> requires Err? { Err(error) }
    function Extract(): T requires Ok? { value }
  }

  /** Two bytes that name the kind of a record. */
  datatype Kind = Kind(first: Byte, second: Byte)

  const VERSION := Kind(0x65, 0x32)

  datatype Entry = Entry(kind: Kind, data: Bytes)

  const VERSION_ENTRY := Entry(VERSION, [])

  /** The length field is 32 bits wide. */
  ghost predicate Fits(e: Entry) {
    |e.data| < U32_LIMIT
  }

  ghost predicate AllFit(es: seq<Entry>) {
    forall i :: 0 <= i < |es| ==> Fits(es[i])
  }

  // ----- writing -----

  function EncodeHeader(kind: Kind, length: nat): (bs: Bytes)
    ensures |bs| == 8
  {
    [kind.first, kind.second] + (ToLe(length, 4) + ToLe(0, 2))
  }

  /** The record `e` followed by `tail`; the length is cut to 32 bits, the data is not. */
  function EncodeOnto(e: Entry, tail: Bytes): Bytes {
    EncodeHeader(e.kind, |e.data| % U32_LIMIT) + (e.data + tail)
  }

  function EncodeAllOnto(es: seq<Entry>, tail: Bytes): Bytes {
    if es == [] then tail else EncodeOnto(es[0], EncodeAllOnto(es[1..], tail))
  }

  function EncodeAll(es: seq<Entry>): Bytes {
    EncodeAllOnto(es, [])
  }

  lemma {:induction false} EncodeAllConcat(es: seq<Entry>, fs: seq<Entry>, tail: Bytes)
    ensures EncodeAllOnto(es + fs, tail) == EncodeAllOnto(es, EncodeAllOnto(fs, tail))
  {
    if es == [] {
      assert es + fs == fs;
    } else {
      assert (es + fs)[1..] == es[1..] + fs;
      EncodeAllConcat(es[1..], fs, tail);
    }
  }

  lemma EncodeOntoConcat(e: Entry, x: Bytes, y: Bytes)
    ensures EncodeOnto(e, x + y) == EncodeOnto(e, x) + y
  {
    Associate(e.data, x, y);
    Associate(EncodeHeader(e.kind, |e.data| % U32_LIMIT), e.data + x, y);
  }

  lemma {:induction false} EncodeAllTail(es: seq<Entry>, tail: Bytes)
    ensures EncodeAllOnto(es, tail) == EncodeAll(es) + tail
  {
    if es != [] {
      EncodeAllTail(es[1..], tail);
      EncodeOntoConcat(es[0], EncodeAll(es[1..]), tail);
    }
  }

  /** Appending a record to the output appends it to the list of records. */
  lemma EncodeSnoc(es: seq<Entry>, e: Entry)
    ensures EncodeAll(es + [e]) == EncodeAll(es) + EncodeOnto(e, [])
  {
    EncodeAllConcat(es, [e], []);
    EncodeAllTail(es, EncodeOnto(e, []));
  }

  lemma VersionBytes()
    ensures EncodeHeader(VERSION, 0) == [0x65, 0x32, 0, 0, 0, 0, 0, 0]
  {
    assert ToLe(0, 1) == [0] && ToLe(0, 2) == [0, 0] && ToLe(0, 3) == [0, 0, 0] && ToLe(0, 4) == [0, 0, 0, 0];
  }

  // ----- reading -----

  datatype Header = Header(kind: Kind, length: nat)

  /** Fewer than 8 bytes count as the end of the file; a nonzero reserved field is an error. */
  function ReadHeader(input: Bytes): Result<Option<Header>> {
    if |input| < 8 then Ok(None)
    else
      var rest := input[2..];
      if FromLe(rest[4..][..2]) != 0 then Err(ReservedNotZero)
      else Ok(Some(Header(Kind(input[0], input[1]), FromLe(rest[..4]))))
  }

  datatype Item = Item(entry: Entry, tail: Bytes)

  /** The next record and the input after it. */
  function ReadEntry(input: Bytes): Result<Option<Item>> {
    var header :- ReadHeader(input);
    if header.None? then Ok(None)
    else
      var body := input[8..];
      if |body| < header.value.length then Err(Io)
      else Ok(Some(Item(Entry(header.value.kind, body[..header.value.length]), body[header.value.length..])))
  }

  lemma HeaderRead(kind: Kind, length: nat, tail: Bytes)
    requires length < U32_LIMIT
    ensures ReadHeader(EncodeHeader(kind, length) + tail) == Ok(Some(Header(kind, length)))
  {
    SpanOfWidths();
    LeRoundTrip(length, 4);
    LeRoundTrip(0, 2);
    var input := EncodeHeader(kind, length) + tail;
    Associate([kind.first, kind.second], ToLe(length, 4) + ToLe(0, 2), tail);
    TakeDrop([kind.first, kind.second], (ToLe(length, 4) + ToLe(0, 2)) + tail);
    Associate(ToLe(length, 4), ToLe(0, 2), tail);
    TakeDrop(ToLe(length, 4), ToLe(0, 2) + tail);
    TakeDrop(ToLe(0, 2), tail);
  }

  lemma WrittenReads(kind: Kind, length: nat, body: Bytes)
    requires length < U32_LIMIT && length <= |body|
    ensures ReadEntry(EncodeHeader(kind, length) + body) == Ok(Some(Item(Entry(kind, body[..length]), body[length..])))
  {
    HeaderRead(kind, length, body);
    TakeDrop(EncodeHeader(kind, length), body);
  }

  /** A written record reads back, with the input positioned after it, exactly when its length fits 32 bits. */
  lemma EntryRoundTrip(e: Entry, tail: Bytes)
    ensures ReadEntry(EncodeOnto(e, tail)) == Ok(Some(Item(e, tail))) <==> Fits(e)
  {
    var length, body := |e.data| % U32_LIMIT, e.data + tail;
    WrittenReads(e.kind, length, body);
    if Fits(e) {
      TakeDrop(e.data, tail);
    } else {
      assert |body[..length]| < |e.data|;
    }
  }

  /** A record of 2^32 bytes does not: its length field is zero. */
  lemma LongRecordLost(kind: Kind, tail: Bytes)
    ensures var e := Entry(kind, seq(U32_LIMIT, i => 0)); ReadEntry(EncodeOnto(e, tail)) != Ok(Some(Item(e, tail)))
  {
    EntryRoundTrip(Entry(kind, seq(U32_LIMIT, i => 0)), tail);
  }

  lemma HeaderBytes(input: Bytes)
    requires |input| >= 8 && FromLe(input[2..][4..][..2]) == 0
    ensures FromLe(input[2..][..4]) < U32_LIMIT
    ensures EncodeHeader(Kind(input[0], input[1]), FromLe(input[2..][..4])) == input[..8]
  {
    SpanOfWidths();
    LeReencode(input[2..][..4]);
    LeReencode(input[2..][4..][..2]);
    assert input[..8] == [input[0], input[1]] + (input[2..][..4] + input[2..][4..][..2]);
  }

  lemma EntryParts(input: Bytes)
    requires ReadEntry(input).Ok? && ReadEntry(input).value.Some?
    ensures var item, length := ReadEntry(input).value.value, FromLe(input[2..][..4]);
            && |input| >= 8 && FromLe(input[2..][4..][..2]) == 0 && length <= |input[8..]|
            && item == Item(Entry(Kind(input[0], input[1]), input[8..][..length]), input[8..][length..])
  {
  }

  /** Whatever reads as a record is that record's own encoding. */
  lemma EntryReencode(input: Bytes)
    requires ReadEntry(input).Ok? && ReadEntry(input).value.Some?
    ensures var item := ReadEntry(input).value.value; Fits(item.entry) && EncodeOnto(item.entry, item.tail) == input
  {
    EntryParts(input);
    HeaderBytes(input);
    HeaderThenBody(input, Kind(input[0], input[1]), FromLe(input[2..][..4]));
  }

  lemma HeaderThenBody(input: Bytes, kind: Kind, length: nat)
    requires |input| >= 8 && length <= |input[8..]| && length < U32_LIMIT && EncodeHeader(kind, length) == input[..8]
    ensures EncodeOnto(Entry(kind, input[8..][..length]), input[8..][length..]) == input
  {
    var body := input[8..];
    var data, tail := body[..length], body[length..];
    assert |data| % U32_LIMIT == length;
    SplitAt(body, length);
    SplitAt(input, 8);
    assert EncodeOnto(Entry(kind, data), tail) == EncodeHeader(kind, length) + (data + tail);
  }

  /** The reserved field and the length field, byte by byte. */
  lemma HeaderFields(input: Bytes)
    requires |input| >= 8
    ensures FromLe(input[2..][4..][..2]) == 0 <==> input[6] == 0 && input[7] == 0
    ensures FromLe(input[2..][..4]) == Quad(input[2], input[3], input[4], input[5])
  {
    TwoBytes(input[2..][4..][..2]);
    FourBytes(input[2..][..4]);
  }

  /** Every outcome of reading a record, in terms of the bytes of the input. */
  lemma ReadOutcomes(input: Bytes)
    ensures ReadEntry(input) == Ok(None) <==> |input| < 8
    ensures ReadEntry(input) == Err(ReservedNotZero) <==> |input| >= 8 && (input[6] != 0 || input[7] != 0)
    ensures |input| >= 8 && input[6] == 0 && input[7] == 0 ==>
            var n := Quad(input[2], input[3], input[4], input[5]);
            ReadEntry(input) == if |input| < 8 + n then Err(Io)
                                else Ok(Some(Item(Entry(Kind(input[0], input[1]), input[8..8 + n]), input[8 + n..])))
  {
    if |input| >= 8 {
      HeaderFields(input);
      var n := FromLe(input[2..][..4]);
      if n <= |input[8..]| { assert input[8..][..n] == input[8..8 + n] && input[8..][n..] == input[8 + n..]; }
    }
  }

  lemma ReadShrinks(input: Bytes)
    ensures var r := ReadEntry(input); r.Ok? && r.value.Some? ==> |r.value.value.tail| < |input|
  {
  }

  /** All records up to the end of the input. */
  function Entries(input: Bytes): Result<seq<Entry>>
    decreases |input|
  {
    var item :- ReadEntry(input);
    if item.None? then Ok([])
    else
      assert |item.value.tail| < |input| by { ReadShrinks(input); }
      var rest :- Entries(item.value.tail);
      Ok([item.value.entry] + rest)
  }

  function Prepend(front: seq<Entry>, r: Result<seq<Entry>>): Result<seq<Entry>> {
    if r.Err? then r else Ok(front + r.value)
  }

  lemma PrependNext(front: seq<Entry>, input: Bytes)
    ensures Prepend([], Entries(input)) == Entries(input)
    ensures match ReadEntry(input)
            case Err(e) => Prepend(front, Entries(input)) == Err(e)
            case Ok(None) => Prepend(front, Entries(input)) == Ok(front)
            case Ok(Some(item)) => Prepend(front, Entries(input)) == Prepend(front + [item.entry], Entries(item.tail))
  {
    var r := ReadEntry(input);
    assert front + [] == front;
    if Entries(input).Ok? { assert [] + Entries(input).value == Entries(input).value; }
    if r.Ok? && r.value.Some? {
      var rest := Entries(r.value.value.tail);
      if rest.Ok? { Associate(front, [r.value.value.entry], rest.value); }
    }
  }

  lemma EntriesNext(input: Bytes, e: Entry, rest: Bytes, es: seq<Entry>)
    requires ReadEntry(input) == Ok(Some(Item(e, rest))) && Entries(rest) == Ok(es)
    ensures Entries(input) == Ok([e] + es)
  {
  }

  /** Written records read back; fewer than 8 bytes after them are ignored. */
  lemma {:induction false} EntriesRoundTrip(es: seq<Entry>, junk: Bytes)
    requires AllFit(es) && |junk| < 8
    ensures Entries(EncodeAllOnto(es, junk)) == Ok(es)
  {
    if es != [] {
      var rest := EncodeAllOnto(es[1..], junk);
      EntryRoundTrip(es[0], rest);
      EntriesRoundTrip(es[1..], junk);
      EntriesNext(EncodeOnto(es[0], rest), es[0], rest, es[1..]);
      assert es == [es[0]] + es[1..];
    }
  }

  /** Any accepted input is the encoding of the records read from it, up to an ignored short tail. */
  lemma {:induction false} EntriesReencode(input: Bytes) returns (junk: Bytes)
    requires Entries(input).Ok?
    ensures |junk| < 8 && AllFit(Entries(input).value)
    ensures EncodeAllOnto(Entries(input).value, junk) == input
    decreases |input|
  {
    var item := ReadEntry(input).value;
    if item.None? {
      junk := input;
    } else {
      EntryReencode(input);
      ReadShrinks(input);
      junk := EntriesReencode(item.value.tail);
    }
  }

  // ----- the reader and the writer -----

  /** A reader over a whole file: the bytes after the cursor are `unread`. */
  class E2StoreReader {
    const file: Bytes
    var unread: Bytes

    constructor (file: Bytes)
      ensures this.file == file && unread == file
    {
      this.file, this.unread := file, file;
    }

    /** Reads the record at the cursor and moves past it. */
    method ReadNextEntry() returns (r: Result<Option<Entry>>)
      modifies this
      ensures r == match ReadEntry(old(unread))
                   case Err(e) => Err(e)
                   case Ok(None) => Ok(None)
                   case Ok(Some(item)) => Ok(Some(item.entry))
      ensures r.Ok? && r.value.Some? ==> unread == ReadEntry(old(unread)).value.value.tail && |unread| < |old(unread)|
      ensures r.Ok? && r.value.None? ==> unread == []
    {
      ReadShrinks(unread);
      var item := ReadEntry(unread);
      match item {
        case Err(e) => r := Err(e);
        case Ok(None) => unread := []; r := Ok(None);
        case Ok(Some(next)) => unread := next.tail; r := Ok(Some(next.entry));
      }
    }

    /** Goes back to the start; the first record must be a version. */
    method ReadVersion() returns (r: Result<Option<Entry>>)
      modifies this
      ensures r == match ReadEntry(file)
                   case Err(e) => Err(e)
                   case Ok(None) => Ok(None)
                   case Ok(Some(item)) => if item.entry.kind == VERSION then Ok(Some(item.entry)) else Err(Ssz)
      ensures r.Ok? && r.value.Some? ==> unread == ReadEntry(file).value.value.tail
      ensures ReadEntry(file).Ok? && |file| >= 8 ==> (r.Ok? <==> file[0] == 0x65 && file[1] == 0x32)
    {
      ReadOutcomes(file);
      unread := file;
      var entry := ReadNextEntry();
      r := match entry
           case Err(e) => Err(e)
           case Ok(None) => Ok(None)
           case Ok(Some(e)) => if e.kind == VERSION then Ok(Some(e)) else Err(Ssz);
    }

    /** All records of the file, including the version. */
    method ReadEntries() returns (r: Result<seq<Entry>>)
      modifies this
      ensures r == Entries(file)
    {
      unread := file;
      PrependNext([], file);
      var entries := [];
      while true
        invariant Entries(file) == Prepend(entries, Entries(unread))
        decreases |unread|
      {
        PrependNext(entries, unread);
        var next := ReadNextEntry();
        match next {
          case Err(e) => return Err(e);
          case Ok(None) => return Ok(entries);
          case Ok(Some(entry)) => entries := entries + [entry];
        }
      }
    }
  }

  /** A writer that puts the version before anything else, once. */
  class E2StoreWriter {
    var out: Bytes
    var hasWrittenVersion: bool
    ghost var written: seq<Entry>

    ghost predicate Valid()
      reads this
    {
      && out == EncodeAll(written)
      && (hasWrittenVersion <==> written != [])
      && (written != [] ==> written[0] == VERSION_ENTRY)
    }

    constructor ()
      ensures Valid() && written == []
    {
      out, hasWrittenVersion, written := [], false, [];
    }

    method WriteVersion()
      requires Valid()
      modifies this
      ensures Valid() && written == if old(written) == [] then [VERSION_ENTRY] else old(written)
      ensures old(written) == [] ==> out == [0x65, 0x32, 0, 0, 0, 0, 0, 0]
    {
      if hasWrittenVersion { return; }
      EncodeSnoc(written, VERSION_ENTRY);
      VersionBytes();
      out := out + EncodeHeader(VERSION, 0);
      written := written + [VERSION_ENTRY];
      hasWrittenVersion := true;
    }

    method WriteEntry(e: Entry)
      requires Valid()
      modifies this
      ensures Valid() && written == (if old(written) == [] then [VERSION_ENTRY] else old(written)) + [e]
    {
      if !hasWrittenVersion { WriteVersion(); }
      EncodeSnoc(written, e);
      out := out + EncodeHeader(e.kind, |e.data| % U32_LIMIT) + e.data;
      written := written + [e];
    }
  }
}
