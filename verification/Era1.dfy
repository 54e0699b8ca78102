/** Era1 files: what a group of blocks is on disk, and how a stream of records is put back together. */
module Era1 {
  import opened Options
  import opened Bytes
  import opened E2Store
  import opened BlockIndexes

  const COMPRESSED_HEADER := Kind(3, 0)
  const COMPRESSED_BODY := Kind(4, 0)
  const COMPRESSED_RECEIPTS := Kind(5, 0)
  const TOTAL_DIFFICULTY := Kind(6, 0)
  const ACCUMULATOR := Kind(7, 0)
  const MAX_BLOCKS_PER_ERA1 := 8192

  predicate Recognised(k: Kind) {
    k == COMPRESSED_HEADER || k == COMPRESSED_BODY || k == COMPRESSED_RECEIPTS || k == TOTAL_DIFFICULTY
    || k == ACCUMULATOR || k == BLOCK_INDEX
  }

  /** Compressed payloads are opaque bytes. */
  datatype BlockTuple = BlockTuple(header: Bytes, body: Bytes, receipts: Bytes, totalDifficulty: nat)

  datatype Group = Group(blocks: seq<BlockTuple>, otherEntries: seq<Entry>, accumulator: Bytes, blockIndex: BlockIndex)

  // ----- conversions -----

  function DifficultyEntry(td: nat): Entry {
    Entry(TOTAL_DIFFICULTY, ToBe(td, 32))
  }

  /** The four records of one block. */
  function TupleEntries(b: BlockTuple): seq<Entry> {
    [Entry(COMPRESSED_HEADER, b.header), Entry(COMPRESSED_BODY, b.body), Entry(COMPRESSED_RECEIPTS, b.receipts),
     DifficultyEntry(b.totalDifficulty)]
  }

  function BlockEntries(blocks: seq<BlockTuple>): seq<Entry> {
    if blocks == [] then [] else BlockEntries(blocks[..|blocks| - 1]) + TupleEntries(blocks[|blocks| - 1])
  }

  function GroupEntries(g: Group): seq<Entry> {
    BlockEntries(g.blocks) + (g.otherEntries + [Entry(ACCUMULATOR, g.accumulator), ToEntry(g.blockIndex)])
  }

  // ----- the records of a stream, by kind -----

  function Column(es: seq<Entry>, k: Kind): seq<Bytes> {
    if es == [] then []
    else Column(es[..|es| - 1], k) + if es[|es| - 1].kind == k then [es[|es| - 1].data] else []
  }

  function Others(es: seq<Entry>): seq<Entry> {
    if es == [] then []
    else Others(es[..|es| - 1]) + if Recognised(es[|es| - 1].kind) then [] else [es[|es| - 1]]
  }

  lemma ColumnSnoc(es: seq<Entry>, e: Entry, k: Kind)
    ensures Column(es + [e], k) == Column(es, k) + if e.kind == k then [e.data] else []
  {
    assert (es + [e])[..|es|] == es;
  }

  lemma OthersSnoc(es: seq<Entry>, e: Entry)
    ensures Others(es + [e]) == Others(es) + if Recognised(e.kind) then [] else [e]
  {
    assert (es + [e])[..|es|] == es;
  }

  lemma {:induction false} ColumnConcat(es: seq<Entry>, fs: seq<Entry>, k: Kind)
    ensures Column(es + fs, k) == Column(es, k) + Column(fs, k)
  {
    if fs == [] {
      assert es + fs == es;
    } else {
      var front, last := fs[..|fs| - 1], fs[|fs| - 1];
      assert es + fs == (es + front) + [last] && fs == front + [last];
      ColumnSnoc(es + front, last, k);
      ColumnSnoc(front, last, k);
      ColumnConcat(es, front, k);
    }
  }

  lemma {:induction false} OthersConcat(es: seq<Entry>, fs: seq<Entry>)
    ensures Others(es + fs) == Others(es) + Others(fs)
  {
    if fs == [] {
      assert es + fs == es;
    } else {
      var front, last := fs[..|fs| - 1], fs[|fs| - 1];
      assert es + fs == (es + front) + [last] && fs == front + [last];
      OthersSnoc(es + front, last);
      OthersSnoc(front, last);
      OthersConcat(es, front);
    }
  }

  // ----- which streams assemble, and to what -----

  /** A record that its kind's decoder accepts. */
  predicate Decodes(e: Entry) {
    && (e.kind == TOTAL_DIFFICULTY || e.kind == ACCUMULATOR ==> |e.data| == 32)
    && (e.kind == BLOCK_INDEX ==> FromEntry(e).Ok?)
  }

  /** Every record decodes, and there are no second accumulators or indexes. */
  ghost predicate WellFormed(es: seq<Entry>) {
    && (forall i :: 0 <= i < |es| ==> Decodes(es[i]))
    && |Column(es, ACCUMULATOR)| <= 1 && |Column(es, BLOCK_INDEX)| <= 1
  }

  /** How many of each block component a stream has. */
  ghost predicate Balanced(es: seq<Entry>) {
    |Column(es, COMPRESSED_HEADER)| == |Column(es, COMPRESSED_BODY)| == |Column(es, COMPRESSED_RECEIPTS)|
      == |Column(es, TOTAL_DIFFICULTY)|
  }

  ghost predicate Assembles(es: seq<Entry>) {
    WellFormed(es) && Balanced(es) && |Column(es, ACCUMULATOR)| == 1 && |Column(es, BLOCK_INDEX)| == 1
  }

  /** Difficulties and accumulators have 32 bytes, and an index has the size its count asks for. */
  ghost predicate RightSize(e: Entry) {
    && (e.kind == Kind(6, 0) || e.kind == Kind(7, 0) ==> |e.data| == 32)
    && (e.kind == Kind(0x66, 0x32) ==> && |e.data| >= 16 && |e.data| % 8 == 0
                                       && FromLe(e.data[|e.data| - 8..]) == (|e.data| - 16) / 8)
  }

  lemma DecodesIff(e: Entry)
    requires |e.data| < I64_LIMIT
    ensures Decodes(e) <==> RightSize(e)
  {
    DecoderOutcomes(e);
  }

  /** Which streams assemble: equally many headers, bodies, receipts and difficulties, one accumulator, one index, and
      every record of the right size. */
  lemma AssemblesIff(es: seq<Entry>)
    requires forall i :: 0 <= i < |es| ==> |es[i].data| < I64_LIMIT
    ensures Assembles(es) <==>
            && |Column(es, Kind(3, 0))| == |Column(es, Kind(4, 0))| == |Column(es, Kind(5, 0))|
               == |Column(es, Kind(6, 0))|
            && |Column(es, Kind(7, 0))| == 1 && |Column(es, Kind(0x66, 0x32))| == 1
            && forall i :: 0 <= i < |es| ==> RightSize(es[i])
  {
    forall i | 0 <= i < |es| ensures Decodes(es[i]) <==> RightSize(es[i]) { DecodesIff(es[i]); }
  }

  ghost predicate HasTuple(es: seq<Entry>, i: nat) {
    && i < |Column(es, COMPRESSED_HEADER)| && i < |Column(es, COMPRESSED_BODY)|
    && i < |Column(es, COMPRESSED_RECEIPTS)| && i < |Column(es, TOTAL_DIFFICULTY)|
  }

  /** The i-th tuple pairs the i-th header, body, receipts and difficulty. */
  ghost function TupleAt(es: seq<Entry>, i: nat): BlockTuple
    requires HasTuple(es, i)
  {
    BlockTuple(Column(es, COMPRESSED_HEADER)[i], Column(es, COMPRESSED_BODY)[i],
               Column(es, COMPRESSED_RECEIPTS)[i], FromBe(Column(es, TOTAL_DIFFICULTY)[i]))
  }

  ghost predicate Tuples(es: seq<Entry>, blocks: seq<BlockTuple>) {
    forall i :: 0 <= i < |blocks| ==> HasTuple(es, i) && blocks[i] == TupleAt(es, i)
  }

  /** `g` is what an assembling stream stands for. */
  ghost predicate AssemblesTo(es: seq<Entry>, g: Group) {
    && Assembles(es)
    && |g.blocks| == |Column(es, COMPRESSED_HEADER)| && Tuples(es, g.blocks)
    && g.otherEntries == Others(es)
    && g.accumulator == Column(es, ACCUMULATOR)[0]
    && FromEntry(Entry(BLOCK_INDEX, Column(es, BLOCK_INDEX)[0])) == Ok(g.blockIndex)
  }

  // ----- the four queues -----

  datatype Queues = Queues(headers: seq<Bytes>, bodies: seq<Bytes>, receipts: seq<Bytes>, difficulties: seq<nat>,
                           others: seq<Entry>, accumulator: Option<Bytes>, blockIndex: Option<BlockIndex>)
  {
    predicate Complete() {
      headers != [] && bodies != [] && receipts != [] && difficulties != []
    }

    function Front(): BlockTuple
      requires Complete()
    {
      BlockTuple(headers[0], bodies[0], receipts[0], difficulties[0])
    }

    function Popped(): Queues
      requires Complete()
    {
      this.(headers := headers[1..], bodies := bodies[1..], receipts := receipts[1..],
            difficulties := difficulties[1..])
    }
  }

  const NO_QUEUES := Queues([], [], [], [], [], None, None)

  /** One record is decoded and put on the queue of its kind. */
  function Push(q: Queues, e: Entry): Result<Queues> {
    if e.kind == COMPRESSED_HEADER then Ok(q.(headers := q.headers + [e.data]))
    else if e.kind == COMPRESSED_BODY then Ok(q.(bodies := q.bodies + [e.data]))
    else if e.kind == COMPRESSED_RECEIPTS then Ok(q.(receipts := q.receipts + [e.data]))
    else if e.kind == TOTAL_DIFFICULTY then
      if |e.data| != 32 then Err(Ssz) else Ok(q.(difficulties := q.difficulties + [FromBe(e.data)]))
    else if e.kind == ACCUMULATOR then
      if q.accumulator.Some? then Err(Ssz)
      else if |e.data| != 32 then Err(Ssz)
      else Ok(q.(accumulator := Some(e.data)))
    else if e.kind == BLOCK_INDEX then
      if q.blockIndex.Some? then Err(Ssz)
      else
        var index :- FromEntry(e);
        Ok(q.(blockIndex := Some(index)))
    else Ok(q.(others := q.others + [e]))
  }

  ghost function Decoded(words: seq<Bytes>): (r: seq<nat>)
    ensures |r| == |words| && forall i :: 0 <= i < |words| ==> r[i] == FromBe(words[i])
  {
    seq(|words|, i requires 0 <= i < |words| => FromBe(words[i]))
  }

  /** After reading `es` and giving out `n` tuples, the queues are the rest of each column. */
  ghost predicate Queued(q: Queues, es: seq<Entry>, n: nat) {
    && n <= |Column(es, COMPRESSED_HEADER)| && q.headers == Column(es, COMPRESSED_HEADER)[n..]
    && n <= |Column(es, COMPRESSED_BODY)| && q.bodies == Column(es, COMPRESSED_BODY)[n..]
    && n <= |Column(es, COMPRESSED_RECEIPTS)| && q.receipts == Column(es, COMPRESSED_RECEIPTS)[n..]
    && n <= |Column(es, TOTAL_DIFFICULTY)| && q.difficulties == Decoded(Column(es, TOTAL_DIFFICULTY)[n..])
  }

  ghost predicate Singles(q: Queues, es: seq<Entry>) {
    && q.others == Others(es)
    && Column(es, ACCUMULATOR) == (if q.accumulator.None? then [] else [q.accumulator.value])
    && |Column(es, BLOCK_INDEX)| == (if q.blockIndex.None? then 0 else 1)
    && (q.blockIndex.Some? ==> FromEntry(Entry(BLOCK_INDEX, Column(es, BLOCK_INDEX)[0])) == Ok(q.blockIndex.value))
  }

  lemma DropSnoc<T>(c: seq<T>, x: T, n: nat)
    requires n <= |c|
    ensures (c + [x])[n..] == c[n..] + [x]
  {
  }

  /** What putting record `e` on its queue changes. */
  ghost predicate Pushed(q: Queues, q': Queues, e: Entry) {
    && q'.headers == (if e.kind == COMPRESSED_HEADER then q.headers + [e.data] else q.headers)
    && q'.bodies == (if e.kind == COMPRESSED_BODY then q.bodies + [e.data] else q.bodies)
    && q'.receipts == (if e.kind == COMPRESSED_RECEIPTS then q.receipts + [e.data] else q.receipts)
    && q'.difficulties == (if e.kind == TOTAL_DIFFICULTY then q.difficulties + [FromBe(e.data)] else q.difficulties)
    && q'.others == (if Recognised(e.kind) then q.others else q.others + [e])
    && PushedAccumulator(q, q', e) && PushedIndex(q, q', e)
  }

  ghost predicate PushedAccumulator(q: Queues, q': Queues, e: Entry) {
    if e.kind == ACCUMULATOR then q.accumulator.None? && q'.accumulator == Some(e.data)
    else q'.accumulator == q.accumulator
  }

  ghost predicate PushedIndex(q: Queues, q': Queues, e: Entry) {
    if e.kind == BLOCK_INDEX then q.blockIndex.None? && FromEntry(e).Ok? && q'.blockIndex == Some(FromEntry(e).value)
    else q'.blockIndex == q.blockIndex
  }

  lemma PushIs(q: Queues, e: Entry)
    requires Push(q, e).Ok?
    ensures Pushed(q, Push(q, e).value, e)
  {
  }

  /** One queue: the rest of its column, before and after a record. */
  lemma QueueNext(es: seq<Entry>, e: Entry, k: Kind, n: nat, queue: seq<Bytes>, queue': seq<Bytes>)
    requires n <= |Column(es, k)| && queue == Column(es, k)[n..]
    requires queue' == if e.kind == k then queue + [e.data] else queue
    ensures n <= |Column(es + [e], k)| && queue' == Column(es + [e], k)[n..]
  {
    ColumnSnoc(es, e, k);
    var c := Column(es, k);
    if e.kind == k { DropSnoc(c, e.data, n); } else { assert c + [] == c; }
  }

  lemma DecodedSnoc(words: seq<Bytes>, w: Bytes)
    ensures Decoded(words + [w]) == Decoded(words) + [FromBe(w)]
  {
  }

  lemma PushQueued(q: Queues, q': Queues, es: seq<Entry>, n: nat, e: Entry)
    requires Queued(q, es, n) && Pushed(q, q', e)
    ensures Queued(q', es + [e], n)
  {
    QueueNext(es, e, COMPRESSED_HEADER, n, q.headers, q'.headers);
    QueueNext(es, e, COMPRESSED_BODY, n, q.bodies, q'.bodies);
    QueueNext(es, e, COMPRESSED_RECEIPTS, n, q.receipts, q'.receipts);
    var words := Column(es, TOTAL_DIFFICULTY)[n..];
    QueueNext(es, e, TOTAL_DIFFICULTY, n, words, if e.kind == TOTAL_DIFFICULTY then words + [e.data] else words);
    DecodedSnoc(words, e.data);
  }

  lemma PushAccumulator(q: Queues, q': Queues, es: seq<Entry>, e: Entry)
    requires Singles(q, es) && PushedAccumulator(q, q', e)
    ensures Column(es + [e], ACCUMULATOR) == if q'.accumulator.None? then [] else [q'.accumulator.value]
  {
    ColumnSnoc(es, e, ACCUMULATOR);
    var c := Column(es, ACCUMULATOR);
    if e.kind == ACCUMULATOR { assert c == [] && [] + [e.data] == [e.data]; } else { assert c + [] == c; }
  }

  lemma PushIndex(q: Queues, q': Queues, es: seq<Entry>, e: Entry)
    requires Singles(q, es) && PushedIndex(q, q', e)
    ensures var c := Column(es + [e], BLOCK_INDEX);
            && |c| == (if q'.blockIndex.None? then 0 else 1)
            && (q'.blockIndex.Some? ==> FromEntry(Entry(BLOCK_INDEX, c[0])) == Ok(q'.blockIndex.value))
  {
    ColumnSnoc(es, e, BLOCK_INDEX);
    var c := Column(es, BLOCK_INDEX);
    if e.kind == BLOCK_INDEX {
      assert c == [] && [] + [e.data] == [e.data] && Entry(BLOCK_INDEX, e.data) == e;
    } else {
      assert c + [] == c;
    }
  }

  lemma PushOthers(q: Queues, q': Queues, es: seq<Entry>, e: Entry)
    requires q.others == Others(es) && q'.others == if Recognised(e.kind) then q.others else q.others + [e]
    ensures q'.others == Others(es + [e])
  {
    OthersSnoc(es, e);
    assert Others(es) + [] == Others(es);
  }

  lemma PushSingles(q: Queues, q': Queues, es: seq<Entry>, e: Entry)
    requires Singles(q, es) && Pushed(q, q', e)
    ensures Singles(q', es + [e])
  {
    PushAccumulator(q, q', es, e);
    PushIndex(q, q', es, e);
    PushOthers(q, q', es, e);
  }

  /** A record is refused exactly when it makes the stream ill-formed. */
  lemma PushRefuses(q: Queues, es: seq<Entry>, e: Entry)
    requires Singles(q, es) && WellFormed(es)
    ensures Push(q, e).Ok? <==> WellFormed(es + [e])
  {
    ColumnSnoc(es, e, ACCUMULATOR);
    ColumnSnoc(es, e, BLOCK_INDEX);
    var es' := es + [e];
    assert es'[|es|] == e && forall i :: 0 <= i < |es| ==> es'[i] == es[i];
  }

  lemma PopQueued(q: Queues, es: seq<Entry>, n: nat)
    requires Queued(q, es, n) && q.Complete()
    ensures HasTuple(es, n) && q.Front() == TupleAt(es, n)
    ensures Queued(q.Popped(), es, n + 1)
  {
  }

  /** A longer stream keeps the tuples of a shorter one. */
  lemma TuplesGrow(es: seq<Entry>, e: Entry, blocks: seq<BlockTuple>)
    requires Tuples(es, blocks)
    ensures Tuples(es + [e], blocks)
  {
    ColumnSnoc(es, e, COMPRESSED_HEADER);
    ColumnSnoc(es, e, COMPRESSED_BODY);
    ColumnSnoc(es, e, COMPRESSED_RECEIPTS);
    ColumnSnoc(es, e, TOTAL_DIFFICULTY);
    forall i | 0 <= i < |blocks| ensures HasTuple(es + [e], i) && blocks[i] == TupleAt(es + [e], i) {
      assert HasTuple(es, i) && blocks[i] == TupleAt(es, i);
    }
  }

  lemma IllFormedStays(es: seq<Entry>, fs: seq<Entry>)
    requires WellFormed(es + fs)
    ensures WellFormed(es)
  {
    ColumnConcat(es, fs, ACCUMULATOR);
    ColumnConcat(es, fs, BLOCK_INDEX);
    forall i | 0 <= i < |es| ensures Decodes(es[i]) { assert (es + fs)[i] == es[i]; }
  }

  // ----- the iterator -----

  /** Everything the iterator knows after reading `es` and giving out `blocks`: one queue is always empty. */
  ghost predicate InStep(q: Queues, es: seq<Entry>, blocks: seq<BlockTuple>) {
    WellFormed(es) && Queued(q, es, |blocks|) && Singles(q, es) && Tuples(es, blocks) && !q.Complete()
  }

  /** One more record: refused when it makes the stream ill-formed, otherwise at most one tuple comes out. */
  lemma StepIn(q: Queues, es: seq<Entry>, blocks: seq<BlockTuple>, e: Entry)
    requires InStep(q, es, blocks)
    ensures Push(q, e).Err? ==> !WellFormed(es + [e])
    ensures Push(q, e).Ok? ==>
      var q' := Push(q, e).value;
      if q'.Complete() then InStep(q'.Popped(), es + [e], blocks + [q'.Front()]) else InStep(q', es + [e], blocks)
  {
    PushRefuses(q, es, e);
    if Push(q, e).Ok? {
      var q' := Push(q, e).value;
      PushIs(q, e);
      PushQueued(q, q', es, |blocks|, e);
      PushSingles(q, q', es, e);
      TuplesGrow(es, e, blocks);
      if q'.Complete() {
        PopQueued(q', es + [e], |blocks|);
        OneWasMissing(q, e);
        TuplesOneMore(es + [e], blocks, q'.Front());
      }
    }
  }

  /** Only the queue that was empty made the set complete, so giving out a tuple empties it again. */
  lemma OneWasMissing(q: Queues, e: Entry)
    requires !q.Complete() && Push(q, e).Ok? && Push(q, e).value.Complete()
    ensures !Push(q, e).value.Popped().Complete()
  {
  }

  lemma TuplesOneMore(es: seq<Entry>, blocks: seq<BlockTuple>, b: BlockTuple)
    requires Tuples(es, blocks) && HasTuple(es, |blocks|) && b == TupleAt(es, |blocks|)
    ensures Tuples(es, blocks + [b])
  {
  }

  /** The stream from `input` on can be read and decoded to its end. */
  ghost predicate Readable(input: Bytes) {
    Entries(input).Ok? && WellFormed(Entries(input).value)
  }

  /** One record is put on its queue, and a tuple comes out when all four queues have something. */
  method Accept(q: Queues, e: Entry, ghost es: seq<Entry>, ghost blocks: seq<BlockTuple>)
    returns (r: Result<Queues>, block: Option<BlockTuple>)
    requires InStep(q, es, blocks)
    ensures r.Err? ==> !WellFormed(es + [e])
    ensures r.Ok? ==> InStep(r.value, es + [e], blocks + if block.Some? then [block.value] else [])
  {
    StepIn(q, es, blocks, e);
    r, block := Push(q, e), None;
    if r.Ok? && r.value.Complete() {
      block := Some(r.value.Front());
      r := Ok(r.value.Popped());
    } else {
      assert blocks + [] == blocks;
    }
  }

  /** The records read so far and those to come are the records of the stream. */
  ghost predicate Reading(start: Bytes, consumed: seq<Entry>, unread: Bytes) {
    Entries(start) == Prepend(consumed, Entries(unread))
  }

  lemma ReadingNext(start: Bytes, consumed: seq<Entry>, unread: Bytes)
    requires Reading(start, consumed, unread)
    ensures ReadEntry(unread).Err? ==> Entries(start).Err?
    ensures ReadEntry(unread) == Ok(None) ==> Entries(start) == Ok(consumed)
    ensures ReadEntry(unread).Ok? && ReadEntry(unread).value.Some? ==>
            Reading(start, consumed + [ReadEntry(unread).value.value.entry], ReadEntry(unread).value.value.tail)
  {
    PrependNext(consumed, unread);
  }

  lemma ReadingEnds(start: Bytes, consumed: seq<Entry>)
    requires Entries(start) == Ok(consumed)
    ensures Reading(start, consumed, [])
  {
    PrependNext(consumed, []);
  }

  /** Streams block tuples out of the records that follow the version. */
  class BlockTupleIterator {
    const reader: E2StoreReader
    var queues: Queues
    ghost const start: Bytes
    ghost var consumed: seq<Entry>
    ghost var yielded: seq<BlockTuple>

    ghost predicate Valid()
      reads this, reader
    {
      Reading(start, consumed, reader.unread) && InStep(queues, consumed, yielded)
    }

    constructor (reader: E2StoreReader)
      ensures Valid() && this.reader == reader && start == reader.unread && yielded == []
    {
      this.reader, this.queues := reader, NO_QUEUES;
      this.start, this.consumed, this.yielded := reader.unread, [], [];
      PrependNext([], reader.unread);
    }

    /** Queues one record, which may complete a tuple. */
    method QueueEntry(entry: Entry) returns (r: Result<Option<BlockTuple>>)
      requires InStep(queues, consumed, yielded)
      modifies this
      ensures r.Err? ==> !WellFormed(old(consumed) + [entry])
      ensures r.Ok? ==> InStep(queues, consumed, yielded) && consumed == old(consumed) + [entry]
                          && yielded == old(yielded) + if r.value.Some? then [r.value.value] else []
    {
      var queued, block := Accept(queues, entry, consumed, yielded);
      if queued.Err? { return Err(queued.error); }
      queues, consumed := queued.value, consumed + [entry];
      yielded := yielded + if block.Some? then [block.value] else [];
      r := Ok(block);
    }

    /** Reads one record: it may complete a tuple, or there is none left and `done` is set. */
    method TakeEntry() returns (r: Result<Option<BlockTuple>>, done: bool)
      requires Valid()
      modifies this, reader
      ensures r.Err? ==> !Readable(start)
      ensures r.Ok? ==> Valid() && yielded == old(yielded) + if r.value.Some? then [r.value.value] else []
      ensures r.Ok? && !done ==> |reader.unread| < |old(reader.unread)|
      ensures r.Ok? && done ==> r.value.None? && Entries(start) == Ok(consumed)
    {
      done := false;
      ReadingNext(start, consumed, reader.unread);
      var next := reader.ReadNextEntry();
      if next.Err? { return Err(next.error), false; }
      if next.value.None? {
        ReadingEnds(start, consumed);
        assert yielded + [] == yielded;
        return Ok(None), true;
      }
      var entry := next.value.value;
      ghost var before := consumed;
      r := QueueEntry(entry);
      if r.Err? { Unreadable(start, before + [entry], reader.unread); }
    }

    /** The next tuple, or nothing at the end of the stream, or an error that makes the stream unreadable. */
    method NextResult() returns (r: Result<Option<BlockTuple>>)
      requires Valid()
      modifies this, reader
      ensures r.Err? ==> !Readable(start)
      ensures r.Ok? ==> Valid()
      ensures r.Ok? && r.value.Some? ==>
              yielded == old(yielded) + [r.value.value] && |reader.unread| < |old(reader.unread)|
      ensures r.Ok? && r.value.None? ==> yielded == old(yielded) && Entries(start) == Ok(consumed)
    {
      while true
        invariant Valid() && yielded == old(yielded) && |reader.unread| <= |old(reader.unread)|
        decreases |reader.unread|
      {
        var done: bool;
        r, done := TakeEntry();
        assert yielded + [] == yielded;
        if r.Err? || r.value.Some? || done { return; }
      }
    }
  }

  lemma Unreadable(start: Bytes, es: seq<Entry>, unread: Bytes)
    requires Reading(start, es, unread) && !WellFormed(es)
    ensures !Readable(start)
  {
    if Readable(start) {
      IllFormedStays(es, Entries(unread).value);
      assert false;
    }
  }

  // ----- reading a whole file -----

  /** The file starts with a version and the records after it assemble. */
  ghost predicate FileAssembles(file: Bytes) {
    && Entries(file).Ok?
    && var all := Entries(file).value; all != [] && all[0].kind == VERSION && Assembles(all[1..])
  }

  /** With nothing left to read, the queues are even exactly when the columns are, and then they are empty. */
  lemma EvenQueues(q: Queues, es: seq<Entry>, blocks: seq<BlockTuple>)
    requires InStep(q, es, blocks)
    ensures Balanced(es) <==> |q.headers| == |q.bodies| == |q.receipts| == |q.difficulties|
    ensures Balanced(es) ==> |blocks| == |Column(es, COMPRESSED_HEADER)|
  {
  }

  /** The final checks on what the iterator has left. */
  method Finish(q: Queues, blocks: seq<BlockTuple>, ghost es: seq<Entry>) returns (r: Result<Group>)
    requires InStep(q, es, blocks)
    ensures r.Ok? <==> Assembles(es)
    ensures r.Ok? ==> AssemblesTo(es, r.value)
  {
    EvenQueues(q, es, blocks);
    if |q.headers| != |q.bodies| || |q.headers| != |q.receipts| || |q.headers| != |q.difficulties| { return Err(Ssz); }
    if q.accumulator.None? { return Err(Ssz); }
    if q.blockIndex.None? { return Err(Ssz); }
    r := Ok(Group(blocks, q.others, q.accumulator.value, q.blockIndex.value));
  }

  method CollectTuples(it: BlockTupleIterator) returns (r: Result<seq<BlockTuple>>)
    requires it.Valid() && it.yielded == []
    modifies it, it.reader
    ensures r.Err? ==> !Readable(it.start)
    ensures r.Ok? ==> it.Valid() && it.yielded == r.value && Entries(it.start) == Ok(it.consumed)
  {
    var blocks := [];
    while true
      invariant it.Valid() && it.yielded == blocks
      decreases |it.reader.unread|
    {
      var next := it.NextResult();
      if next.Err? { return Err(next.error); }
      if next.value.None? { return Ok(blocks); }
      blocks := blocks + [next.value.value];
    }
  }

  /** A file assembles when its first record is a version and the rest of it assembles. */
  lemma FileSplit(file: Bytes)
    ensures match ReadEntry(file)
            case Err(_) => !FileAssembles(file)
            case Ok(None) => !FileAssembles(file)
            case Ok(Some(item)) =>
              && (FileAssembles(file) <==>
                  item.entry.kind == VERSION && Entries(item.tail).Ok? && Assembles(Entries(item.tail).value))
              && (Entries(item.tail).Ok? ==> Entries(file) == Ok([item.entry] + Entries(item.tail).value))
  {
    var first := ReadEntry(file);
    if first.Ok? && first.value.Some? {
      var item := first.value.value;
      if Entries(item.tail).Ok? {
        assert ([item.entry] + Entries(item.tail).value)[1..] == Entries(item.tail).value;
      }
    }
  }

  /** Succeeds exactly on the files that assemble, with the i-th block made of the i-th components. */
  method ReadAndAssemble(file: Bytes) returns (r: Result<Group>)
    ensures r.Ok? <==> FileAssembles(file)
    ensures r.Ok? ==> AssemblesTo(Entries(file).value[1..], r.value)
    ensures r.Ok? ==> |file| >= 8 && file[0] == 0x65 && file[1] == 0x32
  {
    FileSplit(file);
    ReadOutcomes(file);
    var reader := new E2StoreReader(file);
    var version := reader.ReadVersion();
    if version.Err? { return Err(version.error); }
    if version.value.None? { return Err(Ssz); }
    var it := new BlockTupleIterator(reader);
    var blocks := CollectTuples(it);
    if blocks.Err? { return Err(blocks.error); }
    r := Finish(it.queues, blocks.value, it.consumed);
    assert ([version.value.value] + it.consumed)[1..] == it.consumed;
  }
}
