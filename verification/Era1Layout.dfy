/** Where every byte of an Era1 file is. */
module Era1Layout {
  import opened Bytes
  import opened E2Store
  import opened BlockIndexes
  import opened Era1
  import opened Era1Writer

  /** A record: two bytes for its kind, four for its length, least significant first, two zeros, and then its data. */
  function Record(first: Byte, second: Byte, data: Bytes): (r: Bytes)
    ensures |r| == 8 + |data|
  {
    var n := |data|;
    [first, second, n % 256, n / 256 % 256, n / 65536 % 256, n / 16777216 % 256, 0, 0] + data
  }

  /** A record begins at byte `o`. */
  ghost predicate RecordAt(out: Bytes, o: nat, first: Byte, second: Byte, data: Bytes) {
    o + 8 + |data| <= |out| && out[o..o + 8 + |data|] == Record(first, second, data)
  }

  /** The four records of a block: header, body, receipts and total difficulty, the last one in 32 bytes with the most
      significant first. */
  ghost predicate TupleIsAt(out: Bytes, o: nat, b: BlockTuple) {
    var body := o + 8 + |b.header|;
    var receipts := body + 8 + |b.body|;
    && RecordAt(out, o, 3, 0, b.header)
    && RecordAt(out, body, 4, 0, b.body)
    && RecordAt(out, receipts, 5, 0, b.receipts)
    && RecordAt(out, receipts + 8 + |b.receipts|, 6, 0, ToBe(b.totalDifficulty, 32))
  }

  /** The byte at which block `i` begins, after the eight bytes of the version. */
  function BlockStart(blocks: seq<BlockTuple>, i: nat): nat
    requires i <= |blocks|
  {
    if i == 0 then 8
    else
      var b := blocks[i - 1];
      BlockStart(blocks, i - 1) + 64 + |b.header| + |b.body| + |b.receipts|
  }

  /** The byte at which other record `i` begins, the first one at `start`. */
  function OtherStart(es: seq<Entry>, start: nat, i: nat): nat
    requires i <= |es|
  {
    if i == 0 then start else OtherStart(es, start, i - 1) + 8 + |es[i - 1].data|
  }

  /** The first `n` blocks lie one after the other. */
  ghost predicate BlocksAre(out: Bytes, blocks: seq<BlockTuple>, n: nat)
    requires n <= |blocks|
  {
    n > 0 ==> BlocksAre(out, blocks, n - 1) && TupleIsAt(out, BlockStart(blocks, n - 1), blocks[n - 1])
  }

  /** So do the first `n` other records. */
  ghost predicate OthersAre(out: Bytes, start: nat, es: seq<Entry>, n: nat)
    requires n <= |es|
  {
    n > 0 ==> OthersAre(out, start, es, n - 1) && OtherIsAt(out, start, es, n - 1)
  }

  /** The index record from `o` to the end. */
  ghost predicate IndexEnds(out: Bytes, o: nat, x: BlockIndex) {
    RecordAt(out, o, 0x66, 0x32, ToEntry(x).data) && |out| == o + 8 + |ToEntry(x).data|
  }

  ghost predicate OtherIsAt(out: Bytes, start: nat, es: seq<Entry>, i: nat)
    requires i < |es|
  {
    RecordAt(out, OtherStart(es, start, i), es[i].kind.first, es[i].kind.second, es[i].data)
  }

  // ----- one record -----

  lemma HeaderIs(kind: Kind, n: nat)
    ensures EncodeHeader(kind, n)
         == [kind.first, kind.second, n % 256, n / 256 % 256, n / 65536 % 256, n / 16777216 % 256, 0, 0]
  {
    assert Span(0) == 1 && Span(1) == 256 && Span(2) == 65536 && Span(3) == 16777216;
    LeDigit(n, 4, 0);
    LeDigit(n, 4, 1);
    LeDigit(n, 4, 2);
    LeDigit(n, 4, 3);
    assert ToLe(0, 1) == [0] && ToLe(0, 2) == [0, 0];
  }

  lemma EncodedConcat(es: seq<Entry>, fs: seq<Entry>)
    ensures EncodeAll(es + fs) == EncodeAll(es) + EncodeAll(fs)
  {
    EncodeAllConcat(es, fs, []);
    EncodeAllTail(es, EncodeAll(fs));
  }

  lemma RecordIs(e: Entry)
    requires Fits(e)
    ensures Record(e.kind.first, e.kind.second, e.data) == EncodeHeader(e.kind, |e.data| % U32_LIMIT) + e.data
  {
    assert |e.data| % U32_LIMIT == |e.data|;
    HeaderIs(e.kind, |e.data|);
  }

  lemma EncodedCons(e: Entry, after: seq<Entry>)
    requires Fits(e)
    ensures EncodeAll([e] + after) == Record(e.kind.first, e.kind.second, e.data) + EncodeAll(after)
  {
    assert ([e] + after)[1..] == after;
    RecordIs(e);
    Associate(EncodeHeader(e.kind, |e.data| % U32_LIMIT), e.data, EncodeAll(after));
  }

  /** A record lies where the records before it end. */
  lemma RecordLies(before: seq<Entry>, e: Entry, after: seq<Entry>)
    requires Fits(e)
    ensures RecordAt(EncodeAll(before + ([e] + after)), |EncodeAll(before)|, e.kind.first, e.kind.second, e.data)
  {
    var record := Record(e.kind.first, e.kind.second, e.data);
    EncodedConcat(before, [e] + after);
    EncodedCons(e, after);
    SliceInto(EncodeAll(before), record + EncodeAll(after), 0, |record|);
    TakeDrop(record, EncodeAll(after));
  }

  lemma EncodedSnoc(es: seq<Entry>, e: Entry)
    ensures |EncodeAll(es + [e])| == |EncodeAll(es)| + 8 + |e.data|
  {
    EncodeSnoc(es, e);
  }

  // ----- the records of a file -----

  /** The version and the records of `blocks`. */
  function Records(blocks: seq<BlockTuple>): seq<Entry> {
    [VERSION_ENTRY] + BlockEntries(blocks)
  }

  lemma EncodedLength(es: seq<Entry>, b: BlockTuple)
    ensures |EncodeAll(es + TupleEntries(b))|
         == |EncodeAll(es)| + |b.header| + |b.body| + |b.receipts| + 32 + 32
  {
    var t := TupleEntries(b);
    EncodeAllConcat(es, t, []);
    EncodeAllTail(es, EncodeAll(t));
    assert t[1..][1..][1..][1..] == [];
    assert EncodeAllOnto(t[1..][1..][1..], []) == EncodeOnto(t[3], []);
    assert EncodeAllOnto(t[1..][1..], []) == EncodeOnto(t[2], EncodeAllOnto(t[1..][1..][1..], []));
    assert EncodeAllOnto(t[1..], []) == EncodeOnto(t[1], EncodeAllOnto(t[1..][1..], []));
  }

  lemma RecordsSnoc(blocks: seq<BlockTuple>, b: BlockTuple)
    ensures Records(blocks + [b]) == Records(blocks) + TupleEntries(b)
    ensures |EncodeAll(Records(blocks + [b]))|
         == |EncodeAll(Records(blocks))| + |b.header| + |b.body| + |b.receipts| + 32 + 32
  {
    assert (blocks + [b])[..|blocks|] == blocks;
    Associate([VERSION_ENTRY], BlockEntries(blocks), TupleEntries(b));
    EncodedLength(Records(blocks), b);
  }

  lemma {:induction false} BlockEntriesConcat(a: seq<BlockTuple>, b: seq<BlockTuple>)
    ensures BlockEntries(a + b) == BlockEntries(a) + BlockEntries(b)
  {
    if b == [] {
      assert a + b == a;
    } else {
      var front, last := b[..|b| - 1], b[|b| - 1];
      assert (a + b)[..|a + b| - 1] == a + front;
      BlockEntriesConcat(a, front);
      Associate(BlockEntries(a), BlockEntries(front), TupleEntries(last));
    }
  }

  lemma RecordsAround(blocks: seq<BlockTuple>, i: nat, last: seq<Entry>)
    requires i < |blocks|
    ensures Records(blocks) + last
         == Records(blocks[..i]) + (TupleEntries(blocks[i]) + (BlockEntries(blocks[i + 1..]) + last))
  {
    var before, after := blocks[..i + 1], blocks[i + 1..];
    assert blocks == before + after;
    BlockEntriesConcat(before, after);
    NextPrefix(blocks, i);
    RecordsSnoc(blocks[..i], blocks[i]);
    Associate([VERSION_ENTRY], BlockEntries(before), BlockEntries(after));
    Associate(Records(before), BlockEntries(after), last);
    Associate(Records(blocks[..i]), TupleEntries(blocks[i]), BlockEntries(after) + last);
  }

  lemma {:induction false} BlockStartIs(blocks: seq<BlockTuple>, i: nat)
    requires i <= |blocks|
    ensures |EncodeAll(Records(blocks[..i]))| == BlockStart(blocks, i)
  {
    if i == 0 {
      assert Records(blocks[..0]) == [] + [VERSION_ENTRY];
      EncodedSnoc([], VERSION_ENTRY);
    } else {
      BlockStartIs(blocks, i - 1);
      RecordsSnoc(blocks[..i - 1], blocks[i - 1]);
      NextPrefix(blocks, i - 1);
    }
  }

  /** Two records one after the other. */
  lemma TwoLie(out: Bytes, o: nat, before: seq<Entry>, x: Entry, y: Entry, after: seq<Entry>)
    requires Fits(x) && Fits(y) && out == EncodeAll(before + ([x, y] + after)) && o == |EncodeAll(before)|
    ensures RecordAt(out, o, x.kind.first, x.kind.second, x.data)
    ensures RecordAt(out, o + 8 + |x.data|, y.kind.first, y.kind.second, y.data)
    ensures |EncodeAll(before + [x, y])| == (o + 8 + |x.data|) + 8 + |y.data|
  {
    assert before + ([x, y] + after) == before + ([x] + ([y] + after)) == (before + [x]) + ([y] + after);
    assert before + [x, y] == before + [x] + [y];
    EncodedSnoc(before, x);
    EncodedSnoc(before + [x], y);
    RecordLies(before, x, [y] + after);
    RecordLies(before + [x], y, after);
  }

  lemma HeaderAndBody(out: Bytes, o: nat, before: seq<Entry>, header: Bytes, body: Bytes, after: seq<Entry>)
    requires out == EncodeAll(before + ([Entry(COMPRESSED_HEADER, header), Entry(COMPRESSED_BODY, body)] + after))
    requires o == |EncodeAll(before)| && |header| < U32_LIMIT && |body| < U32_LIMIT
    ensures RecordAt(out, o, 3, 0, header) && RecordAt(out, o + 8 + |header|, 4, 0, body)
    ensures |EncodeAll(before + [Entry(COMPRESSED_HEADER, header), Entry(COMPRESSED_BODY, body)])|
         == (o + 8 + |header|) + 8 + |body|
  {
    TwoLie(out, o, before, Entry(COMPRESSED_HEADER, header), Entry(COMPRESSED_BODY, body), after);
  }

  lemma ReceiptsAndDifficulty(out: Bytes, o: nat, before: seq<Entry>, receipts: Bytes, total: nat, after: seq<Entry>)
    requires out == EncodeAll(before + ([Entry(COMPRESSED_RECEIPTS, receipts), DifficultyEntry(total)] + after))
    requires o == |EncodeAll(before)| && |receipts| < U32_LIMIT
    ensures RecordAt(out, o, 5, 0, receipts) && RecordAt(out, o + 8 + |receipts|, 6, 0, ToBe(total, 32))
  {
    TwoLie(out, o, before, Entry(COMPRESSED_RECEIPTS, receipts), DifficultyEntry(total), after);
  }

  lemma Halves(before: seq<Entry>, b: BlockTuple, after: seq<Entry>)
    ensures var t := TupleEntries(b);
            && before + (t + after) == before + ([t[0], t[1]] + ([t[2], t[3]] + after))
            && before + (t + after) == (before + [t[0], t[1]]) + ([t[2], t[3]] + after)
  {
  }

  ghost predicate SmallTuple(b: BlockTuple) {
    |b.header| < U32_LIMIT && |b.body| < U32_LIMIT && |b.receipts| < U32_LIMIT
  }

  lemma TupleFront(out: Bytes, o: nat, before: seq<Entry>, b: BlockTuple, after: seq<Entry>)
    requires SmallTuple(b) && out == EncodeAll(before + (TupleEntries(b) + after)) && o == |EncodeAll(before)|
    ensures RecordAt(out, o, 3, 0, b.header) && RecordAt(out, o + 8 + |b.header|, 4, 0, b.body)
  {
    Halves(before, b, after);
    HeaderAndBody(out, o, before, b.header, b.body, [TupleEntries(b)[2], TupleEntries(b)[3]] + after);
  }

  lemma TupleBack(out: Bytes, o: nat, before: seq<Entry>, b: BlockTuple, after: seq<Entry>, receipts: nat)
    requires SmallTuple(b) && out == EncodeAll(before + (TupleEntries(b) + after)) && o == |EncodeAll(before)|
    requires receipts == (o + 8 + |b.header|) + 8 + |b.body|
    ensures RecordAt(out, receipts, 5, 0, b.receipts)
    ensures RecordAt(out, receipts + 8 + |b.receipts|, 6, 0, ToBe(b.totalDifficulty, 32))
  {
    var t := TupleEntries(b);
    Halves(before, b, after);
    HeaderAndBody(out, o, before, b.header, b.body, [t[2], t[3]] + after);
    ReceiptsAndDifficulty(out, receipts, before + [t[0], t[1]], b.receipts, b.totalDifficulty, after);
  }

  lemma FourRecords(out: Bytes, o: nat, body: nat, receipts: nat, b: BlockTuple)
    requires body == o + 8 + |b.header| && receipts == body + 8 + |b.body|
    requires RecordAt(out, o, 3, 0, b.header) && RecordAt(out, body, 4, 0, b.body)
    requires RecordAt(out, receipts, 5, 0, b.receipts)
    requires RecordAt(out, receipts + 8 + |b.receipts|, 6, 0, ToBe(b.totalDifficulty, 32))
    ensures TupleIsAt(out, o, b)
  {
  }

  /** The four records of a block lie one after the other. */
  lemma TupleLies(out: Bytes, o: nat, before: seq<Entry>, b: BlockTuple, after: seq<Entry>)
    requires SmallTuple(b) && out == EncodeAll(before + (TupleEntries(b) + after)) && o == |EncodeAll(before)|
    ensures TupleIsAt(out, o, b)
  {
    var body := o + 8 + |b.header|;
    var receipts := body + 8 + |b.body|;
    TupleFront(out, o, before, b, after);
    TupleBack(out, o, before, b, after, receipts);
    FourRecords(out, o, body, receipts, b);
  }

  lemma {:induction false} OtherStartIs(before: seq<Entry>, es: seq<Entry>, i: nat)
    requires i <= |es|
    ensures |EncodeAll(before + es[..i])| == OtherStart(es, |EncodeAll(before)|, i)
  {
    if i == 0 {
      assert before + es[..0] == before;
    } else {
      OtherStartIs(before, es, i - 1);
      NextPrefix(es, i - 1);
      Associate(before, es[..i - 1], [es[i - 1]]);
      EncodedSnoc(before + es[..i - 1], es[i - 1]);
    }
  }

  lemma SplitOut<T>(before: seq<T>, es: seq<T>, i: nat, after: seq<T>)
    requires i < |es|
    ensures before + (es + after) == (before + es[..i]) + ([es[i]] + (es[i + 1..] + after))
  {
    assert es == es[..i] + ([es[i]] + es[i + 1..]);
  }

  lemma OtherLies(out: Bytes, start: nat, before: seq<Entry>, es: seq<Entry>, i: nat, after: seq<Entry>)
    requires i < |es| && AllFit(es) && out == EncodeAll(before + (es + after)) && start == |EncodeAll(before)|
    ensures OtherIsAt(out, start, es, i)
  {
    SplitOut(before, es, i, after);
    OtherStartIs(before, es, i);
    RecordLies(before + es[..i], es[i], es[i + 1..] + after);
  }

  lemma VersionLies(out: Bytes, rest: seq<Entry>)
    requires out == EncodeAll([VERSION_ENTRY] + rest)
    ensures |out| >= 8 && out[..8] == [0x65, 0x32, 0, 0, 0, 0, 0, 0]
  {
    EncodedCons(VERSION_ENTRY, rest);
    VersionBytes();
    TakeDrop(Record(0x65, 0x32, []), EncodeAll(rest));
  }

  /** The accumulator and the index end the file. */
  lemma EndLies(out: Bytes, o: nat, before: seq<Entry>, root: Bytes, x: BlockIndex)
    requires |root| < U32_LIMIT && Fits(ToEntry(x))
    requires out == EncodeAll(before + [Entry(ACCUMULATOR, root), ToEntry(x)]) && o == |EncodeAll(before)|
    ensures RecordAt(out, o, 7, 0, root) && IndexEnds(out, o + 8 + |root|, x)
  {
    assert [Entry(ACCUMULATOR, root), ToEntry(x)] + [] == [Entry(ACCUMULATOR, root), ToEntry(x)];
    TwoLie(out, o, before, Entry(ACCUMULATOR, root), ToEntry(x), []);
  }

  lemma GroupFits(g: Group)
    requires AllFit(GroupEntries(g))
    ensures AllFit(BlockEntries(g.blocks)) && AllFit(g.otherEntries)
    ensures |g.accumulator| < U32_LIMIT && Fits(ToEntry(g.blockIndex))
  {
    var blocks, others := BlockEntries(g.blocks), g.otherEntries;
    var es, end := GroupEntries(g), |blocks| + |others|;
    forall i | 0 <= i < |blocks| ensures Fits(blocks[i]) { assert es[i] == blocks[i]; }
    forall i | 0 <= i < |others| ensures Fits(others[i]) { assert es[|blocks| + i] == others[i]; }
    assert es[end] == Entry(ACCUMULATOR, g.accumulator) && es[end + 1] == ToEntry(g.blockIndex);
  }

  lemma {:induction false} TupleFits(blocks: seq<BlockTuple>, i: nat)
    requires AllFit(BlockEntries(blocks)) && i < |blocks|
    ensures SmallTuple(blocks[i])
  {
    var front, t := BlockEntries(blocks[..|blocks| - 1]), TupleEntries(blocks[|blocks| - 1]);
    var es := BlockEntries(blocks);
    assert es == front + t;
    if i == |blocks| - 1 {
      assert es[|front|] == t[0] && es[|front| + 1] == t[1] && es[|front| + 2] == t[2];
    } else {
      forall k | 0 <= k < |front| ensures Fits(front[k]) { assert es[k] == front[k]; }
      TupleFits(blocks[..|blocks| - 1], i);
    }
  }

  lemma BlockLies(out: Bytes, blocks: seq<BlockTuple>, i: nat, rest: seq<Entry>)
    requires i < |blocks| && AllFit(BlockEntries(blocks)) && out == EncodeAll(Records(blocks) + rest)
    ensures TupleIsAt(out, BlockStart(blocks, i), blocks[i])
  {
    RecordsAround(blocks, i, rest);
    BlockStartIs(blocks, i);
    TupleFits(blocks, i);
    TupleLies(out, BlockStart(blocks, i), Records(blocks[..i]), blocks[i], BlockEntries(blocks[i + 1..]) + rest);
  }

  lemma GroupSplits(g: Group)
    ensures var last := [Entry(ACCUMULATOR, g.accumulator), ToEntry(g.blockIndex)];
            && [VERSION_ENTRY] + GroupEntries(g) == Records(g.blocks) + (g.otherEntries + last)
            && [VERSION_ENTRY] + GroupEntries(g) == (Records(g.blocks) + g.otherEntries) + last
  {
    var last := [Entry(ACCUMULATOR, g.accumulator), ToEntry(g.blockIndex)];
    Associate([VERSION_ENTRY], BlockEntries(g.blocks), g.otherEntries + last);
    Associate(Records(g.blocks), g.otherEntries, last);
  }

  lemma WholePrefix<T>(s: seq<T>)
    ensures s[..|s|] == s
  {
  }

  lemma {:induction false} BlocksLie(out: Bytes, blocks: seq<BlockTuple>, rest: seq<Entry>, n: nat)
    requires AllFit(BlockEntries(blocks)) && out == EncodeAll(Records(blocks) + rest) && n <= |blocks|
    ensures BlocksAre(out, blocks, n)
  {
    if n > 0 {
      BlocksLie(out, blocks, rest, n - 1);
      BlockLies(out, blocks, n - 1, rest);
    }
  }

  lemma {:induction false} OthersLie(out: Bytes, start: nat, before: seq<Entry>, es: seq<Entry>, after: seq<Entry>,
                                     n: nat)
    requires AllFit(es) && out == EncodeAll(before + (es + after)) && start == |EncodeAll(before)| && n <= |es|
    ensures OthersAre(out, start, es, n)
  {
    if n > 0 {
      OthersLie(out, start, before, es, after, n - 1);
      OtherLies(out, start, before, es, n - 1, after);
    }
  }

  /** Block `i` of a file. */
  lemma {:induction false} BlockIsAt(out: Bytes, blocks: seq<BlockTuple>, n: nat, i: nat)
    requires i < n <= |blocks| && BlocksAre(out, blocks, n)
    ensures TupleIsAt(out, BlockStart(blocks, i), blocks[i])
  {
    if i < n - 1 { BlockIsAt(out, blocks, n - 1, i); }
  }

  lemma Starts(g: Group)
    ensures |EncodeAll(Records(g.blocks))| == BlockStart(g.blocks, |g.blocks|)
    ensures |EncodeAll(Records(g.blocks) + g.otherEntries)|
         == OtherStart(g.otherEntries, BlockStart(g.blocks, |g.blocks|), |g.otherEntries|)
  {
    WholePrefix(g.blocks);
    WholePrefix(g.otherEntries);
    BlockStartIs(g.blocks, |g.blocks|);
    OtherStartIs(Records(g.blocks), g.otherEntries, |g.otherEntries|);
  }

  /** What a fresh writer puts out for a group begins with the version, all blocks and all other records, with nothing
      in between. */
  lemma FileFront(g: Group, out: Bytes)
    requires |g.blocks| <= 8192 && AllFit(GroupEntries(g)) && out == EncodeAll(WriteFile(FRESH, g).state.written)
    ensures WriteFile(FRESH, g).ok
    ensures |out| >= 8 && out[..8] == [0x65, 0x32, 0, 0, 0, 0, 0, 0] && BlocksAre(out, g.blocks, |g.blocks|)
    ensures OthersAre(out, BlockStart(g.blocks, |g.blocks|), g.otherEntries, |g.otherEntries|)
  {
    var last := [Entry(ACCUMULATOR, g.accumulator), ToEntry(g.blockIndex)];
    FreshFile(g);
    GroupFits(g);
    GroupSplits(g);
    Starts(g);
    VersionLies(out, GroupEntries(g));
    BlocksLie(out, g.blocks, g.otherEntries + last, |g.blocks|);
    OthersLie(out, BlockStart(g.blocks, |g.blocks|), Records(g.blocks), g.otherEntries, last, |g.otherEntries|);
  }

  /** It ends with the accumulator and the index. */
  lemma FileBack(g: Group, out: Bytes, o: nat)
    requires |g.blocks| <= 8192 && AllFit(GroupEntries(g)) && out == EncodeAll(WriteFile(FRESH, g).state.written)
    requires o == OtherStart(g.otherEntries, BlockStart(g.blocks, |g.blocks|), |g.otherEntries|)
    ensures RecordAt(out, o, 7, 0, g.accumulator) && IndexEnds(out, o + 8 + |g.accumulator|, g.blockIndex)
  {
    FreshFile(g);
    GroupFits(g);
    GroupSplits(g);
    Starts(g);
    EndLies(out, o, Records(g.blocks) + g.otherEntries, g.accumulator, g.blockIndex);
  }

  /** More than 8192 blocks are refused, and only the version is there. */
  lemma TooManyBlocks(g: Group)
    ensures WriteFile(FRESH, g).ok <==> |g.blocks| <= 8192
    ensures |g.blocks| > 8192 ==> EncodeAll(WriteFile(FRESH, g).state.written) == [0x65, 0x32, 0, 0, 0, 0, 0, 0]
  {
    if |g.blocks| <= 8192 {
      FreshFile(g);
    } else {
      assert WriteFile(FRESH, g).state.written == [VERSION_ENTRY] + [];
      EncodedCons(VERSION_ENTRY, []);
      VersionBytes();
    }
  }
}
