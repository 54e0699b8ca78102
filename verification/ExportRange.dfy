/** The whole export: the range is cut into chunks, each chunk becomes a file, the total difficulty runs through. */
module ExportRange {
  import opened Bytes
  import opened Options
  import opened E2Store
  import opened BlockIndexes
  import opened Era1
  import opened Era1Writer
  import opened Era1Layout
  import opened Era1RoundTrip
  import opened Export

  function EndOf(start: nat, last: nat, max: nat): nat
    requires max > 0
  {
    if start + max - 1 < last then start + max - 1 else last
  }

  /** How a chunk is exported: from its first and last number and the total difficulty before it. */
  type Chunker = (nat, nat, nat) -> Result<Chunk>

  function Chunks(p: Provider): Chunker {
    (start: nat, end: nat, td: nat) => ChunkOf(p, start, end, td)
  }

  /** The files of the chunks from `start` on. */
  function ExportFrom(chunkOf: Chunker, start: nat, last: nat, max: nat, td: nat): Result<seq<File>>
    requires max > 0
    decreases if start <= last then last + 1 - start else 0
  {
    if start > last then Ok([])
    else
      var chunk :- chunkOf(start, EndOf(start, last, max), td);
      var rest :- ExportFrom(chunkOf, start + max, last, max, chunk.total);
      Ok(Made(chunk) + rest)
  }

  datatype Config = Config(first: nat, last: nat, max: nat)

  /** The last block to export: the configured one, or what the database has when that is beyond its head. */
  function LastBlock(p: Provider, config: Config): nat {
    if p.best >= config.last then config.last
    else match p.headersRange(p.best, config.last)
      case Some(hs) => if hs == [] then p.best else hs[|hs| - 1].number
      case None => p.best
  }

  /** The total difficulty before the first block. */
  function StartTotal(p: Provider, config: Config): Option<nat> {
    if config.first == 0 then Some(0) else p.totalDifficulty(config.first - 1)
  }

  function ExportAll(p: Provider, config: Config): Result<seq<File>> {
    if config.max > MAX_BLOCKS_PER_ERA1 || config.max == 0 then Err(Ssz)
    else
      var td := StartTotal(p, config);
      if td.None? then Err(Io)
      else ExportFrom(Chunks(p), config.first, LastBlock(p, config), config.max, td.value)
  }

  function PrependFiles(files: seq<File>, r: Result<seq<File>>): Result<seq<File>> {
    if r.Err? then r else Ok(files + r.value)
  }

  lemma NextChunk(chunkOf: Chunker, start: nat, last: nat, max: nat, td: nat, files: seq<File>)
    requires max > 0 && start <= last
    ensures var chunk := chunkOf(start, EndOf(start, last, max), td);
            PrependFiles(files, ExportFrom(chunkOf, start, last, max, td)) ==
            if chunk.Err? then Err(chunk.error)
            else PrependFiles(files + Made(chunk.value), ExportFrom(chunkOf, start + max, last, max, chunk.value.total))
  {
    var chunk := chunkOf(start, EndOf(start, last, max), td);
    if chunk.Ok? {
      var rest := ExportFrom(chunkOf, start + max, last, max, chunk.value.total);
      if rest.Ok? { Associate(files, Made(chunk.value), rest.value); }
    }
  }

  lemma OnDiskConcat(files: seq<File>, outputs: seq<Bytes>, files': seq<File>, outputs': seq<Bytes>)
    requires OnDisk(files, outputs) && OnDisk(files', outputs')
    ensures OnDisk(files + files', outputs + outputs')
  {
  }

  /** `chunkOf` is what exporting a chunk of `p` does. */
  ghost predicate ChunksOf(p: Provider, chunkOf: Chunker) {
    forall start: nat, end: nat, td: nat {:trigger ChunkOf(p, start, end, td)} ::
      chunkOf(start, end, td) == ChunkOf(p, start, end, td)
  }

  method ExportNext(p: Provider, ghost chunkOf: Chunker, start: nat, end: nat, td: nat)
    returns (r: Result<Chunk>, outputs: seq<Bytes>)
    requires ChunksOf(p, chunkOf)
    ensures r == chunkOf(start, end, td)
    ensures r.Ok? ==> OnDisk(Made(r.value), outputs)
  {
    r, outputs := ExportChunk(p, start, end, td);
  }

  /** The loop over the chunks of a range. */
  method ExportChunks(p: Provider, ghost chunkOf: Chunker, first: nat, last: nat, max: nat, td0: nat)
    returns (r: Result<seq<File>>, outputs: seq<Bytes>)
    requires ChunksOf(p, chunkOf) && max > 0
    ensures r == ExportFrom(chunkOf, first, last, max, td0)
    ensures r.Ok? ==> OnDisk(r.value, outputs)
  {
    outputs := [];
    var files: seq<File>, start, td := [], first, td0;
    ghost var goal := ExportFrom(chunkOf, first, last, max, td);
    assert goal.Ok? ==> [] + goal.value == goal.value;
    while start <= last
      invariant goal == PrependFiles(files, ExportFrom(chunkOf, start, last, max, td))
      invariant OnDisk(files, outputs)
      decreases if start <= last then last + 1 - start else 0
    {
      NextChunk(chunkOf, start, last, max, td, files);
      var chunk, out := ExportNext(p, chunkOf, start, EndOf(start, last, max), td);
      if chunk.Err? { return Err(chunk.error), outputs; }
      OnDiskConcat(files, outputs, Made(chunk.value), out);
      files, outputs := files + Made(chunk.value), outputs + out;
      td := chunk.value.total;
      start := start + max;
    }
    assert files + [] == files;
    r := Ok(files);
  }

  method ExportBlocks(p: Provider, config: Config) returns (r: Result<seq<File>>, outputs: seq<Bytes>)
    ensures r == ExportAll(p, config)
    ensures r.Ok? ==> OnDisk(r.value, outputs)
  {
    if config.max > MAX_BLOCKS_PER_ERA1 { return Err(Ssz), []; }
    if config.max == 0 { return Err(Ssz), []; }
    var last := LastBlock(p, config);
    var startTotal := StartTotal(p, config);
    if startTotal.None? { return Err(Io), []; }
    r, outputs := ExportChunks(p, Chunks(p), config.first, last, config.max, startTotal.value);
  }

  // ----- what a successful export means -----

  ghost function Numbers(from: nat, to: nat): (r: seq<nat>)
    ensures |r| == (if from <= to then to - from else 0) && forall i :: 0 <= i < |r| ==> r[i] == from + i
  {
    seq(if from <= to then to - from else 0, i requires 0 <= i => from + i)
  }

  /** The block numbers of all files, file by file. */
  ghost function Covered(files: seq<File>): seq<nat> {
    if files == [] then [] else Numbers(files[0].start, files[0].start + |files[0].blocks|) + Covered(files[1..])
  }

  ghost predicate NoEmptyChunk(p: Provider, start: nat, last: nat, max: nat)
    requires max > 0
    decreases if start <= last then last + 1 - start else 0
  {
    start <= last ==>
      p.headersRange(start, EndOf(start, last, max)) != Some([]) && NoEmptyChunk(p, start + max, last, max)
  }

  /** Files lie in `start..=last`, in order and without overlap. */
  ghost predicate InOrder(files: seq<File>, start: nat, last: nat) {
    files != [] ==>
      && files[0].blocks != []
      && start <= files[0].start && files[0].start + |files[0].blocks| <= last + 1
      && InOrder(files[1..], files[0].start + |files[0].blocks|, last)
  }

  /** Every file is good, and each goes on with the total its predecessor ended with. */
  ghost predicate TotalsFlow(p: Provider, files: seq<File>, td: nat) {
    files != [] ==> GoodFile(p, files[0], td) && TotalsFlow(p, files[1..], Running(td, files[0].headers))
  }

  lemma {:induction false} OrderWeaken(files: seq<File>, start: nat, start': nat, last: nat)
    requires InOrder(files, start', last) && start <= start'
    ensures InOrder(files, start, last)
  {
  }

  lemma {:induction false} CoveredBound(files: seq<File>, start: nat, last: nat)
    requires InOrder(files, start, last)
    ensures |Covered(files)| <= if start <= last then last + 1 - start else 0
  {
    if files != [] { CoveredBound(files[1..], files[0].start + |files[0].blocks|, last); }
  }

  /** Every chunk of at most 8192 blocks that goes through is good. */
  ghost predicate GoodChunks(p: Provider, chunkOf: Chunker) {
    forall start: nat, end: nat, td: nat ::
      start <= end < start + MAX_BLOCKS_PER_ERA1 && chunkOf(start, end, td).Ok?
      ==> GoodChunk(p, start, end, td, chunkOf(start, end, td).value)
  }

  /** The chunk has no headers and no file, or a file with all its blocks. */
  ghost predicate Spans(p: Provider, start: nat, end: nat, c: Chunk) {
    if c.file.None? then p.headersRange(start, end) == Some([])
    else
      && c.file.value.start == start && |c.file.value.blocks| == end - start + 1
      && p.headersRange(start, end) != Some([])
  }

  ghost predicate ChunksSpan(p: Provider, chunkOf: Chunker) {
    forall start: nat, end: nat, td: nat ::
      start <= end < start + MAX_BLOCKS_PER_ERA1 && chunkOf(start, end, td).Ok?
      ==> Spans(p, start, end, chunkOf(start, end, td).value)
  }

  lemma GoodChunksSpan(p: Provider, chunkOf: Chunker)
    requires GoodChunks(p, chunkOf)
    ensures ChunksSpan(p, chunkOf)
  {
    forall start: nat, end: nat, td: nat | start <= end < start + MAX_BLOCKS_PER_ERA1 && chunkOf(start, end, td).Ok?
      ensures Spans(p, start, end, chunkOf(start, end, td).value)
    {
      assert GoodChunk(p, start, end, td, chunkOf(start, end, td).value);
    }
  }

  /** One more chunk in front: the whole is covered exactly when this chunk has headers and the rest is covered. */
  lemma ChunkCovers(p: Provider, chunk: Chunk, rest: seq<File>, start: nat, last: nat, max: nat)
    requires max > 0 && start <= last && Spans(p, start, EndOf(start, last, max), chunk)
               && InOrder(rest, start + max, last)
    ensures InOrder(Made(chunk) + rest, start, last)
    ensures Covered(Made(chunk) + rest) == Numbers(start, last + 1) <==>
            p.headersRange(start, EndOf(start, last, max)) != Some([])
                && Covered(rest) == Numbers(start + max, last + 1)
  {
    if chunk.file.Some? {
      ConsFile(chunk.file.value, rest, start, EndOf(start, last, max), last, max);
    } else {
      SkipChunk(rest, start, last, max);
      assert [] + rest == rest;
    }
  }

  lemma {:induction false} RangeCovers(p: Provider, chunkOf: Chunker, start: nat, last: nat, max: nat, td: nat)
    requires ChunksSpan(p, chunkOf) && 0 < max <= MAX_BLOCKS_PER_ERA1 && ExportFrom(chunkOf, start, last, max, td).Ok?
    ensures var files := ExportFrom(chunkOf, start, last, max, td).value;
            && InOrder(files, start, last)
            && (Covered(files) == Numbers(start, last + 1) <==> NoEmptyChunk(p, start, last, max))
    decreases if start <= last then last + 1 - start else 0
  {
    if start <= last {
      var chunk := chunkOf(start, EndOf(start, last, max), td).value;
      RangeCovers(p, chunkOf, start + max, last, max, chunk.total);
      ChunkCovers(p, chunk, ExportFrom(chunkOf, start + max, last, max, chunk.total).value, start, last, max);
    }
  }

  lemma {:induction false} RangeFlows(p: Provider, chunkOf: Chunker, start: nat, last: nat, max: nat, td: nat)
    requires GoodChunks(p, chunkOf) && 0 < max <= MAX_BLOCKS_PER_ERA1 && ExportFrom(chunkOf, start, last, max, td).Ok?
    ensures TotalsFlow(p, ExportFrom(chunkOf, start, last, max, td).value, td)
    decreases if start <= last then last + 1 - start else 0
  {
    if start <= last {
      var chunk := chunkOf(start, EndOf(start, last, max), td).value;
      RangeFlows(p, chunkOf, start + max, last, max, chunk.total);
      var rest := ExportFrom(chunkOf, start + max, last, max, chunk.total).value;
      if chunk.file.Some? {
        ConsFlows(p, chunk.file.value, rest, td);
      } else {
        assert [] + rest == rest;
      }
    }
  }

  lemma AllChunksGood(p: Provider)
    requires InRange(p) && Small(p)
    ensures GoodChunks(p, Chunks(p))
  {
    forall start: nat, end: nat, td: nat | start <= end < start + MAX_BLOCKS_PER_ERA1 && Chunks(p)(start, end, td).Ok?
      ensures GoodChunk(p, start, end, td, Chunks(p)(start, end, td).value)
    {
      ChunkIs(p, start, end, td);
    }
  }

  /** A successful export gives good files in order, with totals running through; they cover the whole range without a
      gap if and only if no chunk of the range was empty. */
  lemma ExportIs(p: Provider, config: Config)
    requires InRange(p) && Small(p) && ExportAll(p, config).Ok?
    ensures var files := ExportAll(p, config).value;
            && InOrder(files, config.first, LastBlock(p, config)) && TotalsFlow(p, files, StartTotal(p, config).value)
            && (Covered(files) == Numbers(config.first, LastBlock(p, config) + 1)
                <==> NoEmptyChunk(p, config.first, LastBlock(p, config), config.max))
  {
    AllChunksGood(p);
    GoodChunksSpan(p, Chunks(p));
    RangeCovers(p, Chunks(p), config.first, LastBlock(p, config), config.max, StartTotal(p, config).value);
    RangeFlows(p, Chunks(p), config.first, LastBlock(p, config), config.max, StartTotal(p, config).value);
  }

  /** The export can go through and still leave blocks out: without headers nothing is exported and nothing reported. */
  lemma {:induction false} SilentGap(p: Provider, start: nat, last: nat, max: nat, td: nat)
    requires max > 0 && forall a: nat, b: nat :: p.headersRange(a, b) == Some([])
    ensures ExportFrom(Chunks(p), start, last, max, td) == Ok([])
    decreases if start <= last then last + 1 - start else 0
  {
    if start <= last {
      assert Chunks(p)(start, EndOf(start, last, max), td) == Ok(Chunk(None, td));
      SilentGap(p, start + max, last, max, td);
      var none: seq<File> := [];
      assert none + none == none;
    }
  }

  lemma SkipChunk(files: seq<File>, start: nat, last: nat, max: nat)
    requires InOrder(files, start + max, last) && start <= last && max > 0
    ensures InOrder(files, start, last) && Covered(files) != Numbers(start, last + 1)
  {
    OrderWeaken(files, start, start + max, last);
    CoveredBound(files, start + max, last);
  }

  lemma NumbersSplit(from: nat, mid: nat, to: nat)
    requires from <= mid <= to
    ensures Numbers(from, to) == Numbers(from, mid) + Numbers(mid, to)
  {
  }

  /** Putting a file for `f.start..next` in front. */
  lemma ConsCovers(f: File, rest: seq<File>, last: nat)
    requires f.start + |f.blocks| <= last + 1
    ensures Covered([f] + rest) == Numbers(f.start, last + 1)
       <==> Covered(rest) == Numbers(f.start + |f.blocks|, last + 1)
  {
    var next := f.start + |f.blocks|;
    assert ([f] + rest)[1..] == rest;
    NumbersSplit(f.start, next, last + 1);
    SamePrefix(Numbers(f.start, next), Covered(rest), Numbers(next, last + 1));
  }

  lemma NothingAfter(rest: seq<File>, start: nat, last: nat)
    requires InOrder(rest, start, last) && start > last
    ensures rest == [] && Covered(rest) == []
  {
    CoveredBound(rest, start, last);
  }

  lemma ConsInOrder(f: File, rest: seq<File>, start: nat, last: nat, next: nat)
    requires f.blocks != [] && f.start == start && start + |f.blocks| <= last + 1 && InOrder(rest, next, last)
    requires start + |f.blocks| == next || rest == []
    ensures InOrder([f] + rest, start, last)
  {
    assert ([f] + rest)[1..] == rest && ([f] + rest)[0] == f;
  }

  lemma ConsFileCovers(f: File, rest: seq<File>, start: nat, end: nat, last: nat, max: nat)
    requires max > 0 && start <= last && end == EndOf(start, last, max) && f.start == start
               && |f.blocks| == end - start + 1
    requires InOrder(rest, start + max, last)
    ensures Covered([f] + rest) == Numbers(start, last + 1) <==> Covered(rest) == Numbers(start + max, last + 1)
  {
    ConsCovers(f, rest, last);
    if end == last {
      NothingAfter(rest, start + max, last);
      NoNumbers(start + max, start + |f.blocks|, last + 1);
    }
  }

  lemma ConsFile(f: File, rest: seq<File>, start: nat, end: nat, last: nat, max: nat)
    requires max > 0 && start <= last && end == EndOf(start, last, max) && f.start == start
               && |f.blocks| == end - start + 1
    requires InOrder(rest, start + max, last)
    ensures InOrder([f] + rest, start, last)
    ensures Covered([f] + rest) == Numbers(start, last + 1) <==> Covered(rest) == Numbers(start + max, last + 1)
  {
    if start + max > last { NothingAfter(rest, start + max, last); }
    ConsInOrder(f, rest, start, last, start + max);
    ConsFileCovers(f, rest, start, end, last, max);
  }

  lemma NoNumbers(a: nat, b: nat, to: nat)
    requires a >= to && b >= to
    ensures Numbers(a, to) == [] == Numbers(b, to)
  {
  }

  lemma ConsFlows(p: Provider, f: File, rest: seq<File>, td: nat)
    requires GoodFile(p, f, td) && TotalsFlow(p, rest, Running(td, f.headers))
    ensures TotalsFlow(p, [f] + rest, td)
  {
    assert ([f] + rest)[1..] == rest;
  }

  // ----- total difficulty across files -----

  ghost function AllHeaders(files: seq<File>): seq<Export.Header> {
    if files == [] then [] else files[0].headers + AllHeaders(files[1..])
  }

  lemma BlockTotal(p: Provider, f: File, td: nat, i: nat)
    requires AreBlocks(p, f.headers, f.start, td, f.blocks) && i < |f.blocks|
    ensures |f.headers| == |f.blocks| && f.blocks[i].totalDifficulty == Running(td, f.headers[..i + 1])
  {
    assert IsBlock(p, f.headers, f.start, td, f.blocks[i], i);
  }

  lemma RunningShift(td: nat, a: seq<Export.Header>, b: seq<Export.Header>, c: seq<Export.Header>)
    ensures Running(Running(td, a), b + c) == Running(td, (a + b) + c)
  {
    RunningConcat(td, a, b + c);
    Associate(a, b, c);
  }

  lemma HeadersSplit(files: seq<File>, k: nat)
    requires 0 < k <= |files|
    ensures AllHeaders(files[..k]) == files[0].headers + AllHeaders(files[1..][..k - 1])
  {
    assert files[..k][1..] == files[1..][..k - 1];
  }

  lemma FlowParts(p: Provider, files: seq<File>, td: nat)
    requires TotalsFlow(p, files, td) && files != []
    ensures AreBlocks(p, files[0].headers, files[0].start, td, files[0].blocks)
    ensures TotalsFlow(p, files[1..], Running(td, files[0].headers))
  {
  }

  /** The total recorded with block `i` of file `k` adds up every exported header so far, in whatever file it is. */
  lemma {:induction false} TotalAt(p: Provider, files: seq<File>, td: nat, k: nat, i: nat)
    requires TotalsFlow(p, files, td) && k < |files| && i < |files[k].blocks|
    ensures |files[k].headers| == |files[k].blocks|
    ensures files[k].blocks[i].totalDifficulty == Running(td, AllHeaders(files[..k]) + files[k].headers[..i + 1])
  {
    FlowParts(p, files, td);
    var first, here := files[0].headers, files[k].headers;
    if k == 0 {
      BlockTotal(p, files[0], td, i);
      assert AllHeaders(files[..0]) + here[..i + 1] == here[..i + 1];
    } else {
      TotalAt(p, files[1..], Running(td, first), k - 1, i);
      HeadersSplit(files, k);
      RunningShift(td, first, AllHeaders(files[1..][..k - 1]), here[..i + 1]);
    }
  }

  // ----- totals against the database -----

  /** The total difficulty the database has before block `n`. */
  ghost function Before(p: Provider, n: nat): nat {
    if n == 0 then 0 else p.totalDifficulty(n - 1).GetOr(0)
  }

  ghost predicate TotalKept(p: Provider, h: Export.Header) {
    p.totalDifficulty(h.number) == Some(AddWord(Before(p, h.number), h.difficulty))
  }

  /** The database's totals add up over its headers. */
  ghost predicate TotalsKept(p: Provider) {
    forall a: nat, b: nat, i :: p.headersRange(a, b).Some? && 0 <= i < |p.headersRange(a, b).value|
      ==> TotalKept(p, p.headersRange(a, b).value[i])
  }

  lemma {:induction false} RunningIsBefore(p: Provider, hs: seq<Export.Header>, start: nat, n: nat)
    requires n <= |hs| && AllFetched(p, hs, start) && HeadersKept(p, hs)
    ensures Running(Before(p, start), hs[..n]) == Before(p, start + n)
  {
    if n > 0 {
      RunningIsBefore(p, hs, start, n - 1);
      assert hs[..n][..n - 1] == hs[..n - 1];
      assert Fetched(p, hs, start, n - 1) && TotalKept(p, hs[n - 1]);
    }
  }

  ghost predicate TrueTotal(p: Provider, f: File, i: nat)
    requires i < |f.blocks|
  {
    p.totalDifficulty(f.start + i).GetOr(0) == f.blocks[i].totalDifficulty
  }

  /** Every block of the file carries the database's total difficulty for its number. */
  ghost predicate TrueTotals(p: Provider, f: File) {
    forall i :: 0 <= i < |f.blocks| ==> TrueTotal(p, f, i)
  }

  ghost predicate HeadersKept(p: Provider, hs: seq<Export.Header>) {
    forall i :: 0 <= i < |hs| ==> TotalKept(p, hs[i])
  }

  lemma BlockTotalIs(p: Provider, f: File, i: nat)
    requires AreBlocks(p, f.headers, f.start, Before(p, f.start), f.blocks) && HeadersKept(p, f.headers)
               && i < |f.blocks|
    ensures TrueTotal(p, f, i)
  {
    BlockTotal(p, f, Before(p, f.start), i);
    RunningIsBefore(p, f.headers, f.start, i + 1);
  }

  lemma FileTotals(p: Provider, f: File)
    requires AreBlocks(p, f.headers, f.start, Before(p, f.start), f.blocks) && HeadersKept(p, f.headers)
    ensures TrueTotals(p, f) && Running(Before(p, f.start), f.headers) == Before(p, f.start + |f.headers|)
  {
    forall i | 0 <= i < |f.blocks| ensures TrueTotal(p, f, i) { BlockTotalIs(p, f, i); }
    RunningIsBefore(p, f.headers, f.start, |f.headers|);
    assert f.headers[..|f.headers|] == f.headers;
  }

  /** A chunk with headers that starts from the database's total has true totals and ends with the database's total. */
  ghost predicate KeepsTotals(p: Provider, end: nat, c: Chunk) {
    c.total == Before(p, end + 1) && forall f :: f in Made(c) ==> TrueTotals(p, f)
  }

  ghost predicate ChunksKeepTotals(p: Provider, chunkOf: Chunker) {
    forall start: nat, end: nat {:trigger chunkOf(start, end, Before(p, start))} ::
      start <= end < start + MAX_BLOCKS_PER_ERA1 && p.headersRange(start, end) != Some([])
      && chunkOf(start, end, Before(p, start)).Ok?
      ==> KeepsTotals(p, end, chunkOf(start, end, Before(p, start)).value)
  }

  lemma ChunkKeepsTotals(p: Provider, start: nat, end: nat, c: Chunk)
    requires TotalsKept(p) && GoodChunk(p, start, end, Before(p, start), c) && p.headersRange(start, end) != Some([])
    ensures KeepsTotals(p, end, c)
  {
    FileTotals(p, c.file.value);
  }

  lemma AllChunksKeepTotals(p: Provider)
    requires InRange(p) && Small(p) && TotalsKept(p)
    ensures ChunksKeepTotals(p, Chunks(p))
  {
    forall start: nat, end: nat |
      start <= end < start + MAX_BLOCKS_PER_ERA1 && p.headersRange(start, end) != Some([])
      && Chunks(p)(start, end, Before(p, start)).Ok?
      ensures KeepsTotals(p, end, Chunks(p)(start, end, Before(p, start)).value)
    {
      ChunkIs(p, start, end, Before(p, start));
      ChunkKeepsTotals(p, start, end, ChunkOf(p, start, end, Before(p, start)).value);
    }
  }

  lemma {:induction false} RangeTotals(p: Provider, chunkOf: Chunker, start: nat, last: nat, max: nat)
    requires ChunksKeepTotals(p, chunkOf) && 0 < max <= MAX_BLOCKS_PER_ERA1 && NoEmptyChunk(p, start, last, max)
    requires ExportFrom(chunkOf, start, last, max, Before(p, start)).Ok?
    ensures forall f :: f in ExportFrom(chunkOf, start, last, max, Before(p, start)).value ==> TrueTotals(p, f)
    decreases if start <= last then last + 1 - start else 0
  {
    if start <= last {
      var end := EndOf(start, last, max);
      assert KeepsTotals(p, end, chunkOf(start, end, Before(p, start)).value);
      if end < last { RangeTotals(p, chunkOf, start + max, last, max); }
    }
  }

  /** Without an empty chunk, and over a database whose totals add up, every exported block carries the database's own
      total difficulty. */
  lemma ExportedTotals(p: Provider, config: Config)
    requires InRange(p) && Small(p) && TotalsKept(p) && ExportAll(p, config).Ok?
    requires NoEmptyChunk(p, config.first, LastBlock(p, config), config.max)
    ensures forall f :: f in ExportAll(p, config).value ==> TrueTotals(p, f)
  {
    AllChunksKeepTotals(p);
    RangeTotals(p, Chunks(p), config.first, LastBlock(p, config), config.max);
  }

  // ----- what the files hold -----

  /** Block `i` of the file: the compressed header it was made from, and the body and receipts that the database has
      under its number. */
  ghost predicate HoldsBlock(p: Provider, f: File, i: nat)
    requires i < |f.blocks| == |f.headers|
  {
    && f.headers[i].number == f.start + i && f.blocks[i].header == f.headers[i].compressed
    && p.body(f.start + i) == Some(f.blocks[i].body) && p.receipts(f.start + i) == Some(f.blocks[i].receipts)
  }

  /** The file is made from a nonempty answer of the database, and its index begins at its first block. */
  ghost predicate HoldsBlocks(p: Provider, f: File) {
    && f.headers != [] && |f.blocks| == |f.headers|
    && (exists end: nat :: p.headersRange(f.start, end) == Some(f.headers))
    && (forall i :: 0 <= i < |f.blocks| ==> HoldsBlock(p, f, i))
    && FileGroup(f).blockIndex.startingNumber == f.headers[0].number == f.start
  }

  lemma ChunkHolds(p: Provider, start: nat, end: nat, td: nat)
    requires ChunkOf(p, start, end, td).Ok? && ChunkOf(p, start, end, td).value.file.Some?
    ensures HoldsBlocks(p, ChunkOf(p, start, end, td).value.file.value)
  {
    var f := ChunkOf(p, start, end, td).value.file.value;
    AdvanceReaches(p, f.headers, start, end, td);
    forall i | 0 <= i < |f.blocks| ensures HoldsBlock(p, f, i) {
      assert IsBlock(p, f.headers, f.start, td, f.blocks[i], i);
    }
    assert HoldsBlock(p, f, 0);
  }

  ghost predicate ChunksHold(p: Provider, chunkOf: Chunker) {
    forall start: nat, end: nat, td: nat :: chunkOf(start, end, td).Ok?
      ==> forall f :: f in Made(chunkOf(start, end, td).value) ==> HoldsBlocks(p, f)
  }

  lemma AllChunksHold(p: Provider)
    ensures ChunksHold(p, Chunks(p))
  {
    forall start: nat, end: nat, td: nat | Chunks(p)(start, end, td).Ok?
      ensures forall f :: f in Made(Chunks(p)(start, end, td).value) ==> HoldsBlocks(p, f)
    {
      if ChunkOf(p, start, end, td).value.file.Some? { ChunkHolds(p, start, end, td); }
    }
  }

  lemma {:induction false} RangeHolds(p: Provider, chunkOf: Chunker, start: nat, last: nat, max: nat, td: nat)
    requires ChunksHold(p, chunkOf) && max > 0 && ExportFrom(chunkOf, start, last, max, td).Ok?
    ensures forall f :: f in ExportFrom(chunkOf, start, last, max, td).value ==> HoldsBlocks(p, f)
    decreases if start <= last then last + 1 - start else 0
  {
    if start <= last {
      var chunk := chunkOf(start, EndOf(start, last, max), td).value;
      RangeHolds(p, chunkOf, start + max, last, max, chunk.total);
    }
  }

  /** Every file of every successful export holds the database's blocks, each part where it belongs. */
  lemma ExportedBlocks(p: Provider, config: Config)
    requires ExportAll(p, config).Ok?
    ensures forall f :: f in ExportAll(p, config).value ==> HoldsBlocks(p, f)
  {
    AllChunksHold(p);
    RangeHolds(p, Chunks(p), config.first, LastBlock(p, config), config.max, StartTotal(p, config).value);
  }

  // ----- refusals -----

  lemma {:induction false} RangeErrors(p: Provider, start: nat, last: nat, max: nat, td: nat)
    requires max > 0
    ensures ExportFrom(Chunks(p), start, last, max, td) != Err(Ssz)
    decreases if start <= last then last + 1 - start else 0
  {
    if start <= last {
      var chunk := ChunkOf(p, start, EndOf(start, last, max), td);
      if chunk.Ok? { RangeErrors(p, start + max, last, max, chunk.value.total); }
    }
  }

  /** A configuration is refused exactly when it asks for no blocks or more than 8192 blocks per file. */
  lemma ConfigRefused(p: Provider, config: Config)
    ensures ExportAll(p, config) == Err(Ssz) <==> config.max == 0 || config.max > 8192
  {
    if 0 < config.max <= 8192 && StartTotal(p, config).Some? {
      RangeErrors(p, config.first, LastBlock(p, config), config.max, StartTotal(p, config).value);
    }
  }

  /** The range ends at the configured block, unless that is beyond the reported head. Then it ends at the last header
      the database gives from the head on, or at the head when it gives none. */
  lemma RangeEnds(p: Provider, config: Config)
    requires InRange(p)
    ensures LastBlock(p, config) <= config.last
    ensures p.best >= config.last ==> LastBlock(p, config) == config.last
    ensures p.best < config.last ==>
            && p.best <= LastBlock(p, config)
            && match p.headersRange(p.best, config.last)
               case None => LastBlock(p, config) == p.best
               case Some(hs) => LastBlock(p, config) == (if hs == [] then p.best else hs[|hs| - 1].number)
  {
    if p.best < config.last {
      var hs := p.headersRange(p.best, config.last);
      if hs.Some? && hs.value != [] {
        assert p.best <= hs.value[|hs.value| - 1].number <= config.last;
      }
    }
  }

  // ----- an exported file reads back -----

  lemma {:induction false} BlockEntriesFit(blocks: seq<BlockTuple>)
    requires SmallBlocks(blocks)
    ensures AllFit(BlockEntries(blocks))
  {
    if blocks != [] { BlockEntriesFit(blocks[..|blocks| - 1]); }
  }

  /** The bytes of the file parse into its records, and those assemble to its group. */
  ghost predicate ReadsBack(f: File) {
    && Entries(FileBytes(f)) == Ok([VERSION_ENTRY] + GroupEntries(FileGroup(f)))
    && AssemblesTo(GroupEntries(FileGroup(f)), FileGroup(f))
  }

  lemma FileEntriesFit(f: File)
    requires SmallBlocks(f.blocks) && |f.blocks| == |f.offsets| <= MAX_BLOCKS_PER_ERA1 && |f.root| == 32
    ensures AllFit([VERSION_ENTRY] + GroupEntries(FileGroup(f)))
  {
    BlockEntriesFit(f.blocks);
    IndexLayout(FileGroup(f).blockIndex);
    assert Fits(ToEntry(FileGroup(f).blockIndex)) && Fits(Entry(ACCUMULATOR, f.root)) && Fits(VERSION_ENTRY);
  }

  lemma AsWritten(f: File)
    requires SmallBlocks(f.blocks) && |f.blocks| == |f.offsets| <= 8192 && |f.root| == 32
    ensures FileBytes(f) == EncodeAll(WriteFile(FRESH, FileGroup(f)).state.written)
    ensures AllFit(GroupEntries(FileGroup(f)))
  {
    FileEntriesFit(f);
    FitTail(VERSION_ENTRY, GroupEntries(FileGroup(f)));
    FreshFile(FileGroup(f));
  }

  /** Block `i` of an exported file lies at the byte that was recorded for it. */
  lemma BlockAtOffset(f: File, i: nat)
    requires SmallBlocks(f.blocks) && OffsetsStart(f) && |f.blocks| <= 8192 && |f.root| == 32 && i < |f.blocks|
    ensures TupleIsAt(FileBytes(f), f.offsets[i], f.blocks[i])
  {
    AsWritten(f);
    FileFront(FileGroup(f), FileBytes(f));
    BlockIsAt(FileBytes(f), f.blocks, |f.blocks|, i);
  }

  /** The accumulator and the index come right after the last block. */
  lemma FileEnds(f: File, end: nat)
    requires SmallBlocks(f.blocks) && |f.blocks| == |f.offsets| <= 8192 && |f.root| == 32
    requires end == BlockStart(f.blocks, |f.blocks|)
    ensures RecordAt(FileBytes(f), end, 7, 0, f.root) && IndexEnds(FileBytes(f), end + 40, FileGroup(f).blockIndex)
  {
    AsWritten(f);
    FileBack(FileGroup(f), FileBytes(f), end);
  }

  lemma FitTail(e: Entry, es: seq<Entry>)
    requires AllFit([e] + es)
    ensures AllFit(es)
  {
    forall i | 0 <= i < |es| ensures Fits(es[i]) { assert ([e] + es)[i + 1] == es[i]; }
  }

  lemma TotalsAreWords(p: Provider, f: File, td: nat)
    requires AreBlocks(p, f.headers, f.start, td, f.blocks) && Words(f.headers) && td < U256_LIMIT
    ensures SmallDifficulties(f.blocks)
  {
    forall i | 0 <= i < |f.blocks| ensures f.blocks[i].totalDifficulty < U256_LIMIT {
      BlockTotal(p, f, td, i);
      RunningIsSum(td, f.headers[..i + 1]);
    }
  }

  /** Reading a good file gives exactly the group that was exported. */
  lemma FileReads(p: Provider, f: File, td: nat)
    requires Small(p) && SmallHeaders(f.headers) && GoodFile(p, f, td) && td < U256_LIMIT && f.start < U64_LIMIT
    ensures ReadsBack(f)
  {
    BlocksAreSmall(p, f.headers, f.start, td, f.blocks);
    FileEntriesFit(f);
    EntriesRoundTrip([VERSION_ENTRY] + GroupEntries(FileGroup(f)), []);
    TotalsAreWords(p, f, td);
    GroupAssembles(FileGroup(f));
  }

  lemma ChunkReads(p: Provider, start: nat, end: nat, td: nat, c: Chunk)
    requires Small(p) && GoodChunk(p, start, end, td, c) && td < U256_LIMIT && start < U64_LIMIT
    ensures c.total < U256_LIMIT && (c.file.Some? ==> ReadsBack(c.file.value))
  {
    if c.file.Some? {
      var f := c.file.value;
      assert SmallHeaders(p.headersRange(start, end).value);
      RunningIsSum(td, f.headers);
      FileReads(p, f, td);
    }
  }

  /** What `ChunkReads` says of every chunk. */
  ghost predicate ChunksReadBack(chunkOf: Chunker) {
    forall start: nat, end: nat, td: nat ::
      start <= end < start + MAX_BLOCKS_PER_ERA1 && start < U64_LIMIT && td < U256_LIMIT && chunkOf(start, end, td).Ok?
      ==> chunkOf(start, end, td).value.total < U256_LIMIT
          && forall f :: f in Made(chunkOf(start, end, td).value) ==> ReadsBack(f)
  }

  lemma AllChunksRead(p: Provider)
    requires InRange(p) && Small(p)
    ensures ChunksReadBack(Chunks(p))
  {
    forall start: nat, end: nat, td: nat |
      start <= end < start + MAX_BLOCKS_PER_ERA1 && start < U64_LIMIT && td < U256_LIMIT
          && Chunks(p)(start, end, td).Ok?
      ensures Chunks(p)(start, end, td).value.total < U256_LIMIT
      ensures forall f :: f in Made(Chunks(p)(start, end, td).value) ==> ReadsBack(f)
    {
      ChunkIs(p, start, end, td);
      ChunkReads(p, start, end, td, ChunkOf(p, start, end, td).value);
    }
  }

  lemma {:induction false} RangeReads(chunkOf: Chunker, start: nat, last: nat, max: nat, td: nat)
    requires ChunksReadBack(chunkOf) && 0 < max <= MAX_BLOCKS_PER_ERA1 && last < U64_LIMIT && td < U256_LIMIT
    requires ExportFrom(chunkOf, start, last, max, td).Ok?
    ensures forall f :: f in ExportFrom(chunkOf, start, last, max, td).value ==> ReadsBack(f)
    decreases if start <= last then last + 1 - start else 0
  {
    if start <= last {
      var chunk := chunkOf(start, EndOf(start, last, max), td).value;
      RangeReads(chunkOf, start + max, last, max, chunk.total);
    }
  }

  /** Every file of a successful export reads back as exactly the group that was exported. */
  lemma ExportReads(p: Provider, config: Config)
    requires InRange(p) && Small(p) && config.last < U64_LIMIT && ExportAll(p, config).Ok?
    ensures forall f :: f in ExportAll(p, config).value ==> ReadsBack(f)
  {
    RangeEnds(p, config);
    AllChunksRead(p);
    RangeReads(Chunks(p), config.first, LastBlock(p, config), config.max, StartTotal(p, config).value);
  }

  /** The groups of the files, as the reader gives them. */
  function GroupsOf(files: seq<File>): seq<Result<Group>> {
    if files == [] then [] else GroupsOf(files[..|files| - 1]) + [Ok(FileGroup(files[|files| - 1]))]
  }

  /** Exporting a range and reading every file gives back exactly the exported groups. */
  method ExportThenRead(p: Provider, config: Config) returns (r: Result<seq<File>>, groups: seq<Result<Group>>)
    requires InRange(p) && Small(p) && config.last < U64_LIMIT
    ensures r == ExportAll(p, config)
    ensures r.Ok? ==> groups == GroupsOf(r.value)
  {
    var outputs: seq<Bytes>;
    r, outputs := ExportBlocks(p, config);
    groups := [];
    if r.Err? { return; }
    ExportReads(p, config);
    groups := ReadFiles(outputs, r.value);
  }

  method ReadFiles(outputs: seq<Bytes>, ghost files: seq<File>) returns (groups: seq<Result<Group>>)
    requires OnDisk(files, outputs) && forall f :: f in files ==> ReadsBack(f)
    ensures groups == GroupsOf(files)
  {
    groups := [];
    for i := 0 to |outputs|
      invariant groups == GroupsOf(files[..i])
    {
      var group := ReadFile(outputs[i], files[i]);
      assert files[..i + 1][..i] == files[..i];
      groups := groups + [group];
    }
    assert files[..|outputs|] == files;
  }

  method ReadFile(bytes: Bytes, ghost f: File) returns (group: Result<Group>)
    requires bytes == FileBytes(f) && ReadsBack(f)
    ensures group == Ok(FileGroup(f))
  {
    group := ReadAndAssemble(bytes);
    assert ([VERSION_ENTRY] + GroupEntries(FileGroup(f)))[1..] == GroupEntries(FileGroup(f));
    if group.Ok? { AssemblyUnique(GroupEntries(FileGroup(f)), FileGroup(f), group.value); }
  }
}
