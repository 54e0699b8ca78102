/** Exporting a range of blocks to Era1 files: chunking, predicted byte offsets and running total difficulty. */
module Export {
  import opened Options
  import opened Bytes
  import opened E2Store
  import opened BlockIndexes
  import opened Era1
  import opened Era1Writer
  import opened Era1Layout

  const ENTRY_HEADER_SIZE := 8

  /** A header with its compressed form. */
  datatype Header = Header(number: nat, difficulty: nat, compressed: Bytes)

  /** The database: headers of an inclusive range, compressed bodies and receipts, total difficulties. `None` stands for
      a failed or missing read. */
  datatype Provider = Provider(best: nat, headersRange: (nat, nat) -> Option<seq<Header>>, body: nat -> Option<Bytes>,
                               receipts: nat -> Option<Bytes>, totalDifficulty: nat -> Option<nat>)

  /** The compressed body and receipts of one block. */
  datatype Payload = Payload(body: Bytes, receipts: Bytes)

  function Fetch(p: Provider, n: nat): Option<Payload> {
    var body := p.body(n);
    if body.None? then None
    else
      var receipts := p.receipts(n);
      if receipts.None? then None else Some(Payload(body.value, receipts.value))
  }

  /** A range query gives only headers of that range. */
  ghost predicate InRange(p: Provider) {
    forall s: nat, e: nat, i :: p.headersRange(s, e).Some? && 0 <= i < |p.headersRange(s, e).value|
      ==> s <= p.headersRange(s, e).value[i].number <= e
  }

  ghost predicate SmallHeaders(hs: seq<Header>) {
    Words(hs) && forall i :: 0 <= i < |hs| ==> |hs[i].compressed| < U32_LIMIT
  }

  /** Compressed payloads are under 2^32 bytes and difficulties are 256-bit words. */
  ghost predicate Small(p: Provider) {
    && (forall s: nat, e: nat :: p.headersRange(s, e).Some? ==> SmallHeaders(p.headersRange(s, e).value))
    && (forall n: nat :: p.body(n).Some? ==> |p.body(n).value| < U32_LIMIT)
    && (forall n: nat :: p.receipts(n).Some? ==> |p.receipts(n).value| < U32_LIMIT)
    && (forall n: nat :: p.totalDifficulty(n).Some? ==> p.totalDifficulty(n).value < U256_LIMIT)
  }

  // ----- total difficulty -----

  function Sum(hs: seq<Header>): nat {
    if hs == [] then 0 else Sum(hs[..|hs| - 1]) + hs[|hs| - 1].difficulty
  }

  /** 256-bit addition of two words, wrapping around. */
  function AddWord(a: nat, d: nat): nat {
    if a + d < U256_LIMIT then a + d else a + d - U256_LIMIT
  }

  ghost predicate Words(hs: seq<Header>) {
    forall i :: 0 <= i < |hs| ==> hs[i].difficulty < U256_LIMIT
  }

  /** The total difficulty after `hs`, as the exporter adds it up. */
  function Running(td: nat, hs: seq<Header>): nat {
    if hs == [] then td else AddWord(Running(td, hs[..|hs| - 1]), hs[|hs| - 1].difficulty)
  }

  lemma AddWordIs(x: nat, d: nat)
    requires d < U256_LIMIT
    ensures AddWord(x % U256_LIMIT, d) == (x + d) % U256_LIMIT
  {
  }

  /** It is the starting total plus all difficulties modulo 2^256, so equal to that sum exactly when the sum is a
      256-bit word. */
  lemma {:induction false} RunningIsSum(td: nat, hs: seq<Header>)
    requires td < U256_LIMIT && Words(hs)
    ensures Running(td, hs) == (td + Sum(hs)) % U256_LIMIT < U256_LIMIT
    ensures Running(td, hs) == td + Sum(hs) <==> td + Sum(hs) < U256_LIMIT
  {
    if hs != [] {
      RunningIsSum(td, hs[..|hs| - 1]);
      AddWordIs(td + Sum(hs[..|hs| - 1]), hs[|hs| - 1].difficulty);
    }
  }

  /** A header numbered 0 of difficulty 1 whose compressed form just fills the accumulator. */
  const HEADER_0 := Header.Header(0, 1, seq(32, i => 0))

  /** One more than the largest word starts over. */
  lemma TotalWraps()
    ensures Running(U256_LIMIT - 1, [HEADER_0]) == 0
  {
    assert [HEADER_0][..0] == [];
  }

  lemma {:induction false} RunningConcat(td: nat, a: seq<Header>, b: seq<Header>)
    ensures Running(td, a + b) == Running(Running(td, a), b)
  {
    if b == [] {
      assert a + b == a;
    } else {
      var front := b[..|b| - 1];
      assert (a + b)[..|a + b| - 1] == a + front;
      RunningConcat(td, a, front);
      assert (a + b)[|a + b| - 1] == b[|b| - 1];
    }
  }

  // ----- sizes and offsets -----

  /** The first `n` records of `input`, if there are that many. */
  function ReadMany(input: Bytes, n: nat): Option<seq<Entry>> {
    if n == 0 then Some([])
    else match ReadEntry(input)
      case Ok(Some(item)) =>
        var rest := ReadMany(item.tail, n - 1);
        if rest.Some? then Some([item.entry] + rest.value) else None
      case _ => None
  }

  lemma ReadOneMore(input: Bytes, e: Entry, tail: Bytes, es: seq<Entry>)
    requires ReadEntry(input) == Ok(Some(Item(e, tail))) && ReadMany(tail, |es|) == Some(es)
    ensures ReadMany(input, |es| + 1) == Some([e] + es)
  {
  }

  lemma {:induction false} ReadManyEncoded(es: seq<Entry>, tail: Bytes)
    requires AllFit(es)
    ensures ReadMany(EncodeAllOnto(es, tail), |es|) == Some(es)
  {
    if es != [] {
      var rest := EncodeAllOnto(es[1..], tail);
      EntryRoundTrip(es[0], rest);
      ReadManyEncoded(es[1..], tail);
      ReadOneMore(EncodeOnto(es[0], rest), es[0], rest, es[1..]);
      assert es == [es[0]] + es[1..];
    }
  }

  /** The records after `before` start at the byte where `before` ends. */
  lemma OffsetPoints(before: seq<Entry>, t: seq<Entry>, after: seq<Entry>)
    requires AllFit(t)
    ensures var bytes := EncodeAll(before + (t + after));
            |EncodeAll(before)| <= |bytes| && ReadMany(bytes[|EncodeAll(before)|..], |t|) == Some(t)
  {
    EncodeAllConcat(before, t + after, []);
    EncodeAllTail(before, EncodeAll(t + after));
    TakeDrop(EncodeAll(before), EncodeAll(t + after));
    EncodeAllConcat(t, after, []);
    ReadManyEncoded(t, EncodeAll(after));
  }

  // ----- the blocks of one file -----

  ghost predicate Fetched(p: Provider, hs: seq<Header>, start: nat, i: nat)
    requires i < |hs|
  {
    hs[i].number == start + i && p.body(start + i).Some? && p.receipts(start + i).Some?
  }

  /** The i-th header is the i-th block of the file, and its body and receipts are there. */
  ghost predicate AllFetched(p: Provider, hs: seq<Header>, start: nat) {
    forall i :: 0 <= i < |hs| ==> Fetched(p, hs, start, i)
  }

  lemma NotAllFetched(p: Provider, hs: seq<Header>, start: nat, i: nat)
    requires i < |hs| && !(hs[i].number == start + i && Fetch(p, start + i).Some?)
    ensures !AllFetched(p, hs, start)
  {
    assert !Fetched(p, hs, start, i);
  }

  function TupleOf(h: Header, payload: Payload, total: nat): BlockTuple {
    BlockTuple(h.compressed, payload.body, payload.receipts, total)
  }

  /** Block `i` has the compressed header, and what the provider has under its number as body and receipts. */
  ghost predicate IsBlock(p: Provider, hs: seq<Header>, start: nat, td: nat, b: BlockTuple, i: nat)
    requires i < |hs|
  {
    && hs[i].number == start + i && b.header == hs[i].compressed
    && p.body(start + i) == Some(b.body) && p.receipts(start + i) == Some(b.receipts)
    && b.totalDifficulty == Running(td, hs[..i + 1])
  }

  /** `blocks` are the provider's blocks for `hs`, with the total difficulty after each. */
  ghost predicate AreBlocks(p: Provider, hs: seq<Header>, start: nat, td: nat, blocks: seq<BlockTuple>)
  {
    && |blocks| == |hs| && AllFetched(p, hs, start)
    && forall i :: 0 <= i < |hs| ==> IsBlock(p, hs, start, td, blocks[i], i)
  }

  /** Each offset is the length of everything written before its block. */
  ghost predicate AreOffsets(offsets: seq<nat>, blocks: seq<BlockTuple>) {
    |offsets| == |blocks| && forall i :: 0 <= i < |blocks| ==> offsets[i] == |EncodeAll(Records(blocks[..i]))|
  }

  lemma OffsetsSnoc(offsets: seq<nat>, blocks: seq<BlockTuple>, b: BlockTuple, position: nat)
    requires AreOffsets(offsets, blocks) && position == |EncodeAll(Records(blocks))|
    ensures AreOffsets(offsets + [position], blocks + [b])
  {
    var blocks' := blocks + [b];
    forall i | 0 <= i < |blocks'| ensures (offsets + [position])[i] == |EncodeAll(Records(blocks'[..i]))| {
      assert blocks'[..i] == if i < |blocks| then blocks[..i] else blocks;
    }
  }

  lemma BlocksSnoc(p: Provider, hs: seq<Header>, start: nat, td: nat, blocks: seq<BlockTuple>, h: Header, b: BlockTuple)
    requires AreBlocks(p, hs, start, td, blocks)
    requires h.number == start + |hs| && Fetch(p, start + |hs|).Some?
    requires b == TupleOf(h, Fetch(p, start + |hs|).value, AddWord(Running(td, hs), h.difficulty))
    ensures Running(td, hs + [h]) == b.totalDifficulty
    ensures AreBlocks(p, hs + [h], start, td, blocks + [b])
  {
    var hs', blocks' := hs + [h], blocks + [b];
    assert hs'[..|hs|] == hs && hs'[..|hs| + 1] == hs';
    forall i | 0 <= i < |hs'| ensures Fetched(p, hs', start, i) && IsBlock(p, hs', start, td, blocks'[i], i) {
      if i < |hs| {
        assert Fetched(p, hs, start, i) && IsBlock(p, hs, start, td, blocks[i], i);
        assert hs'[..i + 1] == hs[..i + 1];
      }
    }
  }

  /** Everything known after writing the blocks of `hs`. */
  ghost predicate Written(p: Provider, hs: seq<Header>, start: nat, td: nat, blocks: seq<BlockTuple>,
                          offsets: seq<nat>, position: nat, td': nat)
  {
    && AreBlocks(p, hs, start, td, blocks) && AreOffsets(offsets, blocks)
    && position == |EncodeAll(Records(blocks))|
    && td' == Running(td, hs)
  }

  lemma WrittenSnoc(p: Provider, hs: seq<Header>, start: nat, td: nat, blocks: seq<BlockTuple>, offsets: seq<nat>,
                    position: nat, td': nat, h: Header, b: BlockTuple)
    requires Written(p, hs, start, td, blocks, offsets, position, td')
    requires h.number == start + |hs| && Fetch(p, start + |hs|).Some?
    requires b == TupleOf(h, Fetch(p, start + |hs|).value, AddWord(td', h.difficulty))
    ensures Written(p, hs + [h], start, td, blocks + [b], offsets + [position],
                    position + |b.header| + |b.body| + |b.receipts| + 32 + 4 * ENTRY_HEADER_SIZE, b.totalDifficulty)
  {
    BlocksSnoc(p, hs, start, td, blocks, h, b);
    OffsetsSnoc(offsets, blocks, b, position);
    RecordsSnoc(blocks, b);
  }

  lemma NothingWritten(p: Provider, start: nat, td: nat)
    ensures Written(p, [], start, td, [], [], 8, td)
    ensures Records([]) == [VERSION_ENTRY]
  {
    var none: seq<BlockTuple> := [];
    assert Records(none) == [VERSION_ENTRY];
    assert EncodeAll([VERSION_ENTRY]) == EncodeOnto(VERSION_ENTRY, EncodeAllOnto([VERSION_ENTRY][1..], []));
    assert [VERSION_ENTRY][1..] == [];
  }

  /** What the loop over headers carries: blocks, offsets, the next byte position, the running total, and the
      compressed header of the last block of the file. */
  datatype Progress = Progress(blocks: seq<BlockTuple>, offsets: seq<nat>, position: nat, total: nat,
                               finalHeader: Bytes)

  ghost predicate Reached(p: Provider, hs: seq<Header>, start: nat, end: nat, td: nat, s: Progress)
  {
    && Written(p, hs, start, td, s.blocks, s.offsets, s.position, s.total)
    && s.finalHeader == if start <= end < start + |hs| then hs[end - start].compressed else []
  }

  ghost predicate WriterAt(writer: Writer, blocks: seq<BlockTuple>)
    reads writer, writer.writer
  {
    writer.Valid() && writer.Contents() == State(Records(blocks), true, blocks != [], false, false)
  }

  /** One header: it must be the expected one, with a body and receipts; its block goes at the current position. */
  function Advance(p: Provider, h: Header, start: nat, end: nat, s: Progress): Option<Progress> {
    var expected := start + |s.blocks|;
    if h.number != expected then None
    else
      var payload := Fetch(p, expected);
      if payload.None? then None
      else
        var b := TupleOf(h, payload.value, AddWord(s.total, h.difficulty));
        var size := (|b.header| + ENTRY_HEADER_SIZE) + (|b.body| + ENTRY_HEADER_SIZE)
            + (|b.receipts| + ENTRY_HEADER_SIZE) + (32 + ENTRY_HEADER_SIZE);
        Some(Progress(s.blocks + [b], s.offsets + [s.position], s.position + size, b.totalDifficulty,
                      if expected == end then h.compressed else s.finalHeader))
  }

  function AdvanceAll(p: Provider, hs: seq<Header>, start: nat, end: nat, td: nat): Option<Progress> {
    if hs == [] then Some(Progress([], [], ENTRY_HEADER_SIZE, td, []))
    else
      var s := AdvanceAll(p, hs[..|hs| - 1], start, end, td);
      if s.None? then None else Advance(p, hs[|hs| - 1], start, end, s.value)
  }

  /** The pass over the headers goes through exactly when every header is the expected one with its data there, and then
      blocks, offsets, position, total and final header are as they should be. */
  lemma {:induction false} AdvanceReaches(p: Provider, hs: seq<Header>, start: nat, end: nat, td: nat)
    ensures var s := AdvanceAll(p, hs, start, end, td);
            && (s.Some? <==> AllFetched(p, hs, start))
            && (s.Some? ==> Reached(p, hs, start, end, td, s.value))
  {
    if hs == [] {
      NothingWritten(p, start, td);
    } else {
      var front, h := hs[..|hs| - 1], hs[|hs| - 1];
      assert hs == front + [h];
      AdvanceReaches(p, front, start, end, td);
      var s := AdvanceAll(p, front, start, end, td);
      if s.Some? {
        AdvanceOne(p, front, h, start, end, td, s.value);
      } else {
        NotAllFetchedLonger(p, front, h, start);
      }
    }
  }

  lemma AdvanceOne(p: Provider, hs: seq<Header>, h: Header, start: nat, end: nat, td: nat, s: Progress)
    requires AllFetched(p, hs, start) && Reached(p, hs, start, end, td, s)
    ensures var s' := Advance(p, h, start, end, s);
            && (s'.Some? <==> AllFetched(p, hs + [h], start))
            && (s'.Some? ==> Reached(p, hs + [h], start, end, td, s'.value))
  {
    if h.number == start + |hs| && Fetch(p, start + |hs|).Some? {
      AdvanceGood(p, hs, h, start, end, td, s);
    } else {
      NotAllFetched(p, hs + [h], start, |hs|);
    }
  }

  lemma FinalHeaderNext(hs: seq<Header>, h: Header, start: nat, end: nat, final: Bytes)
    requires final == if start <= end < start + |hs| then hs[end - start].compressed else []
    ensures (if start + |hs| == end then h.compressed else final)
         == if start <= end < start + |hs + [h]| then (hs + [h])[end - start].compressed else []
  {
  }

  lemma AdvanceGood(p: Provider, hs: seq<Header>, h: Header, start: nat, end: nat, td: nat, s: Progress)
    requires Reached(p, hs, start, end, td, s) && h.number == start + |hs| && Fetch(p, start + |hs|).Some?
    ensures Advance(p, h, start, end, s).Some?
              && Reached(p, hs + [h], start, end, td, Advance(p, h, start, end, s).value)
    ensures AllFetched(p, hs + [h], start)
  {
    var b := TupleOf(h, Fetch(p, start + |hs|).value, AddWord(s.total, h.difficulty));
    var position := s.position + |b.header| + |b.body| + |b.receipts| + 32 + 4 * ENTRY_HEADER_SIZE;
    var final := if start + |hs| == end then h.compressed else s.finalHeader;
    assert Advance(p, h, start, end, s)
        == Some(Progress(s.blocks + [b], s.offsets + [s.position], position, b.totalDifficulty, final));
    WrittenSnoc(p, hs, start, td, s.blocks, s.offsets, s.position, s.total, h, b);
    FinalHeaderNext(hs, h, start, end, s.finalHeader);
  }

  lemma NotAllFetchedLonger(p: Provider, hs: seq<Header>, h: Header, start: nat)
    requires !AllFetched(p, hs, start)
    ensures !AllFetched(p, hs + [h], start)
  {
    var i :| 0 <= i < |hs| && !Fetched(p, hs, start, i);
    NotAllFetched(p, hs + [h], start, i);
  }

  /** Writes one block after the other; fails on the first header that is not the expected one or whose body or
      receipts are missing. */
  method PutBlocks(p: Provider, hs: seq<Header>, start: nat, end: nat, td: nat, writer: Writer)
    returns (r: Option<Progress>)
    requires WriterAt(writer, [])
    modifies writer, writer.writer
    ensures r == AdvanceAll(p, hs, start, end, td)
    ensures r.Some? ==> WriterAt(writer, r.value.blocks)
  {
    var s := Progress([], [], ENTRY_HEADER_SIZE, td, []);
    for i := 0 to |hs|
      invariant AdvanceAll(p, hs[..i], start, end, td) == Some(s) && WriterAt(writer, s.blocks)
    {
      AdvancePrefix(p, hs, i, start, end, td);
      var next := Advance(p, hs[i], start, end, s);
      if next.None? {
        NoneStays(p, hs, i + 1, start, end, td);
        return None;
      }
      PutOne(next.value.blocks[|s.blocks|], s.blocks, writer);
      s := next.value;
    }
    assert hs[..|hs|] == hs;
    r := Some(s);
  }

  method PutOne(b: BlockTuple, ghost done: seq<BlockTuple>, writer: Writer)
    requires WriterAt(writer, done)
    modifies writer, writer.writer
    ensures WriterAt(writer, done + [b])
  {
    RecordsSnoc(done, b);
    var ok := writer.PutBlock(b);
  }

  lemma AdvancePrefix(p: Provider, hs: seq<Header>, i: nat, start: nat, end: nat, td: nat)
    requires i < |hs|
    ensures AdvanceAll(p, hs[..i + 1], start, end, td)
         == var s := AdvanceAll(p, hs[..i], start, end, td);
            if s.None? then None else Advance(p, hs[i], start, end, s.value)
  {
    assert hs[..i + 1][..i] == hs[..i];
  }

  lemma {:induction false} NoneStays(p: Provider, hs: seq<Header>, i: nat, start: nat, end: nat, td: nat)
    requires i <= |hs| && AdvanceAll(p, hs[..i], start, end, td).None?
    ensures AdvanceAll(p, hs, start, end, td).None?
    decreases |hs| - i
  {
    if i == |hs| {
      assert hs[..i] == hs;
    } else {
      AdvancePrefix(p, hs, i, start, end, td);
      NoneStays(p, hs, i + 1, start, end, td);
    }
  }

  // ----- one file -----

  /** An exported file: its first block number, the headers it was made from, its blocks, the recorded offsets and the
      accumulator root. */
  datatype File = File(start: nat, headers: seq<Header>, blocks: seq<BlockTuple>, offsets: seq<nat>, root: Bytes)

  datatype Chunk = Chunk(file: Option<File>, total: nat)

  ghost predicate SmallBlocks(blocks: seq<BlockTuple>) {
    forall i :: 0 <= i < |blocks|
        ==> |blocks[i].header| < U32_LIMIT && |blocks[i].body| < U32_LIMIT && |blocks[i].receipts| < U32_LIMIT
  }

  lemma {:induction false} RecordsBound(blocks: seq<BlockTuple>)
    requires SmallBlocks(blocks)
    ensures |EncodeAll(Records(blocks))| <= 8 + |blocks| * 0x3_0000_0040
  {
    if blocks == [] {
      NothingWritten(Provider(0, (a, b) => None, n => None, n => None, n => None), 0, 0);
    } else {
      var front, b := blocks[..|blocks| - 1], blocks[|blocks| - 1];
      RecordsBound(front);
      RecordsSnoc(front, b);
      assert front + [b] == blocks;
    }
  }

  /** Offsets of a file of at most 8192 blocks are 64-bit signed integers. */
  lemma OffsetsFit(offsets: seq<nat>, blocks: seq<BlockTuple>)
    requires AreOffsets(offsets, blocks) && SmallBlocks(blocks) && |blocks| <= MAX_BLOCKS_PER_ERA1
    ensures forall i :: 0 <= i < |offsets| ==> offsets[i] < I64_LIMIT
  {
    forall i | 0 <= i < |offsets| ensures offsets[i] < I64_LIMIT { RecordsBound(blocks[..i]); }
  }

  /** The index as written: positions are cast to 64-bit signed integers. */
  function IndexOf(start: nat, offsets: seq<nat>): BlockIndex {
    BlockIndex(start, seq(|offsets|, i requires 0 <= i < |offsets| => AsI64(offsets[i] % U64_LIMIT)))
  }

  /** The group of records a file is. */
  function FileGroup(f: File): Group {
    Group(f.blocks, [], f.root, IndexOf(f.start, f.offsets))
  }

  function FileBytes(f: File): Bytes {
    EncodeAll([VERSION_ENTRY] + GroupEntries(FileGroup(f)))
  }

  /** One chunk: nothing when there are no headers, an abort when the last header is missing or shorter than 32
      bytes. */
  function ChunkOf(p: Provider, start: nat, end: nat, td: nat): Result<Chunk> {
    var hs := p.headersRange(start, end);
    if hs.None? then Err(Io)
    else
      var s := AdvanceAll(p, hs.value, start, end, td);
      if s.None? then Err(Io)
      else if s.value.blocks == [] then Ok(Chunk(None, s.value.total))
      else if |s.value.finalHeader| < 32 then Err(Abort)
      else Ok(Chunk(Some(File(start, hs.value, s.value.blocks, s.value.offsets, s.value.finalHeader[..32])),
                    s.value.total))
  }

  function Made(chunk: Chunk): seq<File> {
    if chunk.file.Some? then [chunk.file.value] else []
  }

  /** What goes to disk for each file. */
  ghost predicate OnDisk(files: seq<File>, outputs: seq<Bytes>) {
    |outputs| == |files| && forall i :: 0 <= i < |files| ==> outputs[i] == FileBytes(files[i])
  }

  method ExportChunk(p: Provider, start: nat, end: nat, td: nat) returns (r: Result<Chunk>, outputs: seq<Bytes>)
    ensures r == ChunkOf(p, start, end, td)
    ensures r.Ok? ==> OnDisk(Made(r.value), outputs)
  {
    outputs := [];
    var hs := p.headersRange(start, end);
    if hs.None? { return Err(Io), []; }
    var writer := new Writer();
    NothingWritten(p, start, td);
    writer.PutVersion();
    var s := PutBlocks(p, hs.value, start, end, td, writer);
    if s.None? { return Err(Io), []; }
    if s.value.blocks == [] { return Ok(Chunk(None, s.value.total)), []; }
    if |s.value.finalHeader| < 32 { return Err(Abort), []; }
    var f := File(start, hs.value, s.value.blocks, s.value.offsets, s.value.finalHeader[..32]);
    PutLast(f, writer);
    r, outputs := Ok(Chunk(Some(f), s.value.total)), [writer.writer.out];
  }

  /** Accumulator and index complete the file. */
  method PutLast(f: File, writer: Writer)
    requires WriterAt(writer, f.blocks)
    modifies writer, writer.writer
    ensures writer.writer.out == FileBytes(f)
  {
    var ok := writer.PutAccumulator(f.root);
    ok := writer.PutBlockIndex(IndexOf(f.start, f.offsets));
    GroupBytes(FileGroup(f));
    assert writer.writer.written == [VERSION_ENTRY] + GroupEntries(FileGroup(f));
  }

  lemma GroupBytes(g: Group)
    requires g.otherEntries == []
    ensures [VERSION_ENTRY] + GroupEntries(g)
         == Records(g.blocks) + [Entry(ACCUMULATOR, g.accumulator), ToEntry(g.blockIndex)]
  {
    assert [] + [Entry(ACCUMULATOR, g.accumulator), ToEntry(g.blockIndex)]
        == [Entry(ACCUMULATOR, g.accumulator), ToEntry(g.blockIndex)];
    Associate([VERSION_ENTRY], BlockEntries(g.blocks), [Entry(ACCUMULATOR, g.accumulator), ToEntry(g.blockIndex)]);
  }

  /** Reading at absolute byte `offsets[i]` gives the four records of block `i`. */
  ghost predicate OffsetsPoint(f: File) {
    |f.offsets| == |f.blocks| && forall i :: 0 <= i < |f.blocks| ==> PointsAt(FileBytes(f), f.offsets[i], f.blocks[i])
  }

  ghost predicate PointsAt(bytes: Bytes, offset: nat, b: BlockTuple) {
    offset <= |bytes| && ReadMany(bytes[offset..], 4) == Some(TupleEntries(b))
  }

  /** The index record holds the first block's number and exactly the file's offsets, and the accumulator the head of
      the last header. */
  ghost predicate Indexed(f: File) {
    && FileGroup(f).blockIndex.offsets == f.offsets && f.headers != []
    && FileGroup(f).blockIndex.startingNumber == f.headers[0].number == f.start
    && f.headers != [] && f.root <= f.headers[|f.headers| - 1].compressed && |f.root| == 32
  }

  /** Each offset counts the bytes of the version and of all earlier blocks. */
  ghost predicate OffsetsStart(f: File) {
    |f.offsets| == |f.blocks| && forall i :: 0 <= i < |f.blocks| ==> f.offsets[i] == BlockStart(f.blocks, i)
  }

  /** A file holds the provider's blocks of its range with running totals from `td`, and its offsets point at them. */
  ghost predicate GoodFile(p: Provider, f: File, td: nat) {
    && AreBlocks(p, f.headers, f.start, td, f.blocks) && OffsetsPoint(f) && OffsetsStart(f) && Indexed(f)
    && |f.blocks| <= 8192
  }

  lemma OffsetsDoPoint(f: File)
    requires AreOffsets(f.offsets, f.blocks) && SmallBlocks(f.blocks)
    ensures OffsetsPoint(f)
  {
    GroupBytes(FileGroup(f));
    var last := [Entry(ACCUMULATOR, f.root), ToEntry(IndexOf(f.start, f.offsets))];
    forall i | 0 <= i < |f.blocks| ensures PointsAt(FileBytes(f), f.offsets[i], f.blocks[i]) {
      RecordsAround(f.blocks, i, last);
      OffsetPoints(Records(f.blocks[..i]), TupleEntries(f.blocks[i]), BlockEntries(f.blocks[i + 1..]) + last);
    }
  }

  lemma OffsetsDoStart(f: File)
    requires AreOffsets(f.offsets, f.blocks)
    ensures OffsetsStart(f)
  {
    forall i | 0 <= i < |f.blocks| ensures f.offsets[i] == BlockStart(f.blocks, i) { BlockStartIs(f.blocks, i); }
  }

  lemma FetchedInRange(p: Provider, hs: seq<Header>, start: nat, end: nat)
    requires InRange(p) && p.headersRange(start, end) == Some(hs) && AllFetched(p, hs, start) && start <= end
    ensures |hs| <= end - start + 1
  {
    if |hs| > 0 {
      var i := |hs| - 1;
      assert Fetched(p, hs, start, i) && hs[i].number <= end;
    }
  }

  lemma BlocksAreSmall(p: Provider, hs: seq<Header>, start: nat, td: nat, blocks: seq<BlockTuple>)
    requires Small(p) && SmallHeaders(hs) && AreBlocks(p, hs, start, td, blocks)
    ensures SmallBlocks(blocks)
  {
    forall i | 0 <= i < |blocks|
      ensures |blocks[i].header| < U32_LIMIT && |blocks[i].body| < U32_LIMIT && |blocks[i].receipts| < U32_LIMIT
    {
      assert IsBlock(p, hs, start, td, blocks[i], i);
      assert p.body(start + i).Some? && p.receipts(start + i).Some?;
    }
  }

  /** What a chunk that goes through means: there are no headers at all, or all of them, and then its file is good. */
  ghost predicate GoodChunk(p: Provider, start: nat, end: nat, td: nat, c: Chunk) {
    if c.file.None? then p.headersRange(start, end) == Some([]) && c.total == td
    else
      var f := c.file.value;
      && f.start == start && p.headersRange(start, end) == Some(f.headers) && |f.headers| == end - start + 1
      && GoodFile(p, f, td) && c.total == Running(td, f.headers)
  }

  lemma FileIsGood(p: Provider, f: File, td: nat)
    requires AreBlocks(p, f.headers, f.start, td, f.blocks) && AreOffsets(f.offsets, f.blocks) && SmallBlocks(f.blocks)
    requires 0 < |f.headers| <= 8192 && |f.root| == 32 && f.root <= f.headers[|f.headers| - 1].compressed
    ensures GoodFile(p, f, td)
  {
    OffsetsDoPoint(f);
    OffsetsDoStart(f);
    IndexHolds(f);
    assert IsBlock(p, f.headers, f.start, td, f.blocks[0], 0);
  }

  /** What a chunk with a file is made of. */
  lemma ChunkParts(p: Provider, start: nat, end: nat, td: nat, c: Chunk)
    requires InRange(p) && start <= end && ChunkOf(p, start, end, td) == Ok(c) && c.file.Some?
    ensures var f := c.file.value;
            && f.start == start && p.headersRange(start, end) == Some(f.headers) && |f.headers| == end - start + 1
            && AreBlocks(p, f.headers, start, td, f.blocks) && AreOffsets(f.offsets, f.blocks)
            && |f.root| == 32 && f.root <= f.headers[|f.headers| - 1].compressed && c.total == Running(td, f.headers)
  {
    var hs := p.headersRange(start, end).value;
    AdvanceReaches(p, hs, start, end, td);
    FetchedInRange(p, hs, start, end);
  }

  lemma ChunkIs(p: Provider, start: nat, end: nat, td: nat)
    requires InRange(p) && Small(p) && start <= end < start + MAX_BLOCKS_PER_ERA1 && ChunkOf(p, start, end, td).Ok?
    ensures GoodChunk(p, start, end, td, ChunkOf(p, start, end, td).value)
  {
    var c := ChunkOf(p, start, end, td).value;
    if c.file.Some? {
      ChunkParts(p, start, end, td, c);
      BlocksAreSmall(p, c.file.value.headers, start, td, c.file.value.blocks);
      FileIsGood(p, c.file.value, td);
    } else {
      AdvanceReaches(p, p.headersRange(start, end).value, start, end, td);
    }
  }

  /** The query succeeded and every header it gave is the expected one, with body and receipts. */
  ghost predicate ChunkRead(p: Provider, start: nat, end: nat) {
    p.headersRange(start, end).Some? && AllFetched(p, p.headersRange(start, end).value, start)
  }

  /** Headers at the end of the chunk are missing, or the last one is too short to fill the accumulator. */
  ghost predicate NoAccumulator(hs: seq<Header>, start: nat, end: nat) {
    hs != [] && (|hs| <= end - start || |hs[|hs| - 1].compressed| < 32)
  }

  /** Every outcome of a chunk: an error when something could not be read, an abort exactly when some but not all
      headers are there or the last is shorter than 32 bytes, and otherwise it goes through. */
  lemma ChunkOutcomes(p: Provider, start: nat, end: nat, td: nat)
    requires InRange(p) && start <= end
    ensures ChunkOf(p, start, end, td) == Err(Io) <==> !ChunkRead(p, start, end)
    ensures ChunkOf(p, start, end, td) == Err(Abort) <==>
            ChunkRead(p, start, end) && NoAccumulator(p.headersRange(start, end).value, start, end)
    ensures ChunkOf(p, start, end, td).Ok? <==>
            ChunkRead(p, start, end) && !NoAccumulator(p.headersRange(start, end).value, start, end)
  {
    if p.headersRange(start, end).Some? {
      var hs := p.headersRange(start, end).value;
      AdvanceReaches(p, hs, start, end, td);
      if AllFetched(p, hs, start) { FetchedInRange(p, hs, start, end); }
    }
  }

  /** A database that has block 0 and not block 1. */
  function OneBlockOnly(): Provider {
    Provider(0, (a, b) => Some(if a == 0 then [HEADER_0] else []), n => Some([]), n => Some([]), n => Some(1))
  }

  /** Exporting block 0 from it goes through; exporting blocks 0 and 1 aborts. */
  lemma PartialChunkAborts(td: nat)
    ensures InRange(OneBlockOnly()) && ChunkOf(OneBlockOnly(), 0, 1, td) == Err(Abort)
    ensures ChunkOf(OneBlockOnly(), 0, 0, td).Ok?
  {
    var p := OneBlockOnly();
    assert Fetched(p, p.headersRange(0, 1).value, 0, 0);
    ChunkOutcomes(p, 0, 1, td);
    ChunkOutcomes(p, 0, 0, td);
  }

  lemma CastKeeps(n: nat)
    requires n < I64_LIMIT
    ensures AsI64(n % U64_LIMIT) == n
  {
  }

  lemma IndexHolds(f: File)
    requires AreOffsets(f.offsets, f.blocks) && SmallBlocks(f.blocks) && |f.blocks| <= MAX_BLOCKS_PER_ERA1
    ensures IndexOf(f.start, f.offsets).offsets == f.offsets
  {
    OffsetsFit(f.offsets, f.blocks);
    forall i | 0 <= i < |f.offsets| ensures AsI64(f.offsets[i] % U64_LIMIT) == f.offsets[i] { CastKeeps(f.offsets[i]); }
  }
}
