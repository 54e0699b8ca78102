/** Writing a group with a fresh writer and reading the bytes back. */
module Era1RoundTrip {
  import opened Bytes
  import opened E2Store
  import opened BlockIndexes
  import opened Era1
  import opened Era1Writer
  import opened Era1Layout

  ghost predicate SmallDifficulties(blocks: seq<BlockTuple>) {
    forall i :: 0 <= i < |blocks| ==> blocks[i].totalDifficulty < U256_LIMIT
  }

  /** What the types promise of a group: 256-bit difficulties, a 32-byte root, an index that fits in memory. */
  ghost predicate Typed(g: Group) {
    SmallDifficulties(g.blocks) && |g.accumulator| == 32 && Valid(g.blockIndex)
  }

  ghost predicate NoneRecognised(es: seq<Entry>) {
    forall i :: 0 <= i < |es| ==> !Recognised(es[i].kind)
  }

  // ----- columns of the written records -----

  function One(e: Entry, k: Kind): seq<Bytes> {
    if e.kind == k then [e.data] else []
  }

  lemma ColumnOne(e: Entry, k: Kind)
    ensures Column([e], k) == One(e, k)
  {
    var es := [e];
    assert es[..0] == [];
  }

  lemma ColumnTwo(a: Entry, b: Entry, k: Kind)
    ensures Column([a, b], k) == One(a, k) + One(b, k)
  {
    ColumnOne(a, k);
    ColumnOne(b, k);
    ColumnConcat([a], [b], k);
    assert [a, b] == [a] + [b];
  }

  lemma OthersOne(e: Entry)
    requires Recognised(e.kind)
    ensures Others([e]) == []
  {
    var es := [e];
    assert es[..0] == [];
  }

  lemma OthersTwo(a: Entry, b: Entry)
    requires Recognised(a.kind) && Recognised(b.kind)
    ensures Others([a, b]) == []
  {
    OthersOne(a);
    OthersOne(b);
    OthersConcat([a], [b]);
    assert [a, b] == [a] + [b];
  }

  lemma TupleColumn(b: BlockTuple, k: Kind)
    ensures var es := TupleEntries(b);
            Column(es, k) == (One(es[0], k) + One(es[1], k)) + (One(es[2], k) + One(es[3], k))
  {
    var es := TupleEntries(b);
    assert es == [es[0], es[1]] + [es[2], es[3]];
    ColumnConcat([es[0], es[1]], [es[2], es[3]], k);
    ColumnTwo(es[0], es[1], k);
    ColumnTwo(es[2], es[3], k);
  }

  lemma TupleColumns(b: BlockTuple)
    ensures Column(TupleEntries(b), COMPRESSED_HEADER) == [b.header]
    ensures Column(TupleEntries(b), COMPRESSED_BODY) == [b.body]
    ensures Column(TupleEntries(b), COMPRESSED_RECEIPTS) == [b.receipts]
    ensures Column(TupleEntries(b), TOTAL_DIFFICULTY) == [ToBe(b.totalDifficulty, 32)]
    ensures Column(TupleEntries(b), ACCUMULATOR) == [] && Column(TupleEntries(b), BLOCK_INDEX) == []
    ensures Others(TupleEntries(b)) == []
  {
    TupleColumn(b, COMPRESSED_HEADER);
    TupleColumn(b, COMPRESSED_BODY);
    TupleColumn(b, COMPRESSED_RECEIPTS);
    TupleColumn(b, TOTAL_DIFFICULTY);
    TupleColumn(b, ACCUMULATOR);
    TupleColumn(b, BLOCK_INDEX);
    var es := TupleEntries(b);
    assert es == [es[0], es[1]] + [es[2], es[3]];
    OthersConcat([es[0], es[1]], [es[2], es[3]]);
    OthersTwo(es[0], es[1]);
    OthersTwo(es[2], es[3]);
  }

  /** Records that hold each component of `blocks` once, in order. */
  ghost predicate Holds(es: seq<Entry>, blocks: seq<BlockTuple>) {
    Balanced(es) && |Column(es, COMPRESSED_HEADER)| == |blocks| && Tuples(es, blocks)
  }

  /** Records that decode and hold nothing but block components. */
  ghost predicate OnlyBlocks(es: seq<Entry>) {
    && Column(es, ACCUMULATOR) == [] && Column(es, BLOCK_INDEX) == [] && Others(es) == []
    && forall i :: 0 <= i < |es| ==> Decodes(es[i])
  }

  lemma {:induction false} BlockColumns(blocks: seq<BlockTuple>)
    requires SmallDifficulties(blocks)
    ensures Holds(BlockEntries(blocks), blocks) && OnlyBlocks(BlockEntries(blocks))
  {
    if blocks != [] {
      var front, last := blocks[..|blocks| - 1], blocks[|blocks| - 1];
      BlockColumns(front);
      HoldsOneMore(BlockEntries(front), front, last);
      OnlyOneMore(BlockEntries(front), last);
      assert front + [last] == blocks;
    }
  }

  lemma HoldsOneMore(es: seq<Entry>, blocks: seq<BlockTuple>, b: BlockTuple)
    requires Holds(es, blocks) && b.totalDifficulty < U256_LIMIT
    ensures Holds(es + TupleEntries(b), blocks + [b])
  {
    var t := TupleEntries(b);
    TupleColumns(b);
    ColumnConcat(es, t, COMPRESSED_HEADER);
    ColumnConcat(es, t, COMPRESSED_BODY);
    ColumnConcat(es, t, COMPRESSED_RECEIPTS);
    ColumnConcat(es, t, TOTAL_DIFFICULTY);
    SpanOfU256();
    BeRoundTrip(b.totalDifficulty, 32);
    TuplesExtend(es, t, blocks);
    assert HasTuple(es + t, |blocks|) && b == TupleAt(es + t, |blocks|);
    TuplesOneMore(es + t, blocks, b);
  }

  lemma OnlyOneMore(es: seq<Entry>, b: BlockTuple)
    requires OnlyBlocks(es)
    ensures OnlyBlocks(es + TupleEntries(b))
  {
    var t := TupleEntries(b);
    TupleColumns(b);
    ColumnConcat(es, t, ACCUMULATOR);
    ColumnConcat(es, t, BLOCK_INDEX);
    OthersConcat(es, t);
    TupleDecodes(b);
    AllDecode(es, t);
  }

  lemma TupleDecodes(b: BlockTuple)
    ensures forall i :: 0 <= i < |TupleEntries(b)| ==> Decodes(TupleEntries(b)[i])
  {
  }

  lemma AllDecode(es: seq<Entry>, fs: seq<Entry>)
    requires forall i :: 0 <= i < |es| ==> Decodes(es[i])
    requires forall i :: 0 <= i < |fs| ==> Decodes(fs[i])
    ensures forall i :: 0 <= i < |es + fs| ==> Decodes((es + fs)[i])
  {
  }

  lemma TuplesExtend(es: seq<Entry>, fs: seq<Entry>, blocks: seq<BlockTuple>)
    requires Tuples(es, blocks)
    ensures Tuples(es + fs, blocks)
  {
    ColumnConcat(es, fs, COMPRESSED_HEADER);
    ColumnConcat(es, fs, COMPRESSED_BODY);
    ColumnConcat(es, fs, COMPRESSED_RECEIPTS);
    ColumnConcat(es, fs, TOTAL_DIFFICULTY);
    forall i | 0 <= i < |blocks| ensures HasTuple(es + fs, i) && blocks[i] == TupleAt(es + fs, i) {
      assert HasTuple(es, i) && blocks[i] == TupleAt(es, i);
    }
  }

  /** Filtering out the recognised records changes nothing exactly when there are none. */
  lemma {:induction false} OthersAll(es: seq<Entry>)
    ensures |Others(es)| <= |es|
    ensures Others(es) == es <==> NoneRecognised(es)
    ensures |Others(es)| == |es| ==> NoneRecognised(es)
  {
    if es != [] {
      var front, last := es[..|es| - 1], es[|es| - 1];
      OthersAll(front);
      assert es == front + [last];
    }
  }

  lemma {:induction false} NoColumn(es: seq<Entry>, k: Kind)
    requires NoneRecognised(es) && Recognised(k)
    ensures Column(es, k) == []
  {
    if es != [] { NoColumn(es[..|es| - 1], k); }
  }

  lemma LastColumns(root: Bytes, x: BlockIndex)
    ensures var es := [Entry(ACCUMULATOR, root), ToEntry(x)];
            && Column(es, ACCUMULATOR) == [root] && Column(es, BLOCK_INDEX) == [ToEntry(x).data] && Others(es) == []
            && Column(es, COMPRESSED_HEADER) == [] && Column(es, COMPRESSED_BODY) == []
            && Column(es, COMPRESSED_RECEIPTS) == [] && Column(es, TOTAL_DIFFICULTY) == []
  {
    var a, b := Entry(ACCUMULATOR, root), ToEntry(x);
    ColumnTwo(a, b, ACCUMULATOR);
    ColumnTwo(a, b, BLOCK_INDEX);
    ColumnTwo(a, b, COMPRESSED_HEADER);
    ColumnTwo(a, b, COMPRESSED_BODY);
    ColumnTwo(a, b, COMPRESSED_RECEIPTS);
    ColumnTwo(a, b, TOTAL_DIFFICULTY);
    OthersTwo(a, b);
  }

  /** The column of a whole group, for any kind. */
  lemma GroupColumn(g: Group, k: Kind)
    ensures Column(GroupEntries(g), k)
         == Column(BlockEntries(g.blocks), k)
              + (Column(g.otherEntries, k) + Column([Entry(ACCUMULATOR, g.accumulator), ToEntry(g.blockIndex)], k))
  {
    var last := [Entry(ACCUMULATOR, g.accumulator), ToEntry(g.blockIndex)];
    ColumnConcat(BlockEntries(g.blocks), g.otherEntries + last, k);
    ColumnConcat(g.otherEntries, last, k);
  }

  lemma GroupOthers(g: Group)
    requires Typed(g)
    ensures Others(GroupEntries(g)) == Others(g.otherEntries)
  {
    var last := [Entry(ACCUMULATOR, g.accumulator), ToEntry(g.blockIndex)];
    BlockColumns(g.blocks);
    LastColumns(g.accumulator, g.blockIndex);
    OthersConcat(BlockEntries(g.blocks), g.otherEntries + last);
    OthersConcat(g.otherEntries, last);
  }

  lemma GroupDecodes(g: Group)
    requires Typed(g) && NoneRecognised(g.otherEntries)
    ensures forall i :: 0 <= i < |GroupEntries(g)| ==> Decodes(GroupEntries(g)[i])
  {
    var last := [Entry(ACCUMULATOR, g.accumulator), ToEntry(g.blockIndex)];
    BlockColumns(g.blocks);
    IndexRoundTrip(g.blockIndex);
    forall i | 0 <= i < |g.otherEntries| ensures Decodes(g.otherEntries[i]) {}
    forall i | 0 <= i < |last| ensures Decodes(last[i]) {}
  }

  /** A group whose other entries are of no recognised kind assembles back to itself. */
  lemma GroupAssembles(g: Group)
    requires Typed(g) && NoneRecognised(g.otherEntries)
    ensures AssemblesTo(GroupEntries(g), g)
  {
    var es := GroupEntries(g);
    var last := [Entry(ACCUMULATOR, g.accumulator), ToEntry(g.blockIndex)];
    BlockColumns(g.blocks);
    LastColumns(g.accumulator, g.blockIndex);
    forall k | Recognised(k)
      ensures Column(es, k) == Column(BlockEntries(g.blocks), k) + Column(last, k)
    {
      GroupColumn(g, k);
      NoColumn(g.otherEntries, k);
    }
    TuplesExtend(BlockEntries(g.blocks), g.otherEntries + last, g.blocks);
    GroupOthers(g);
    OthersAll(g.otherEntries);
    GroupDecodes(g);
    IndexRoundTrip(g.blockIndex);
    assert Entry(BLOCK_INDEX, ToEntry(g.blockIndex).data) == ToEntry(g.blockIndex);
  }

  /** A stream assembles to at most one group. */
  lemma AssemblyUnique(es: seq<Entry>, g: Group, h: Group)
    requires AssemblesTo(es, g) && AssemblesTo(es, h)
    ensures g == h
  {
    forall i | 0 <= i < |g.blocks| ensures g.blocks[i] == h.blocks[i] {}
  }

  /** For every group of at most 8192 blocks whose payloads fit, writing it afresh and reading it back gives the same
      group if and only if none of its other entries has one of the six recognised kinds. Larger groups are refused
      and leave only the version. */
  method WriteThenRead(g: Group) returns (ok: bool, out: Bytes, r: Result<Group>)
    requires Typed(g) && AllFit(GroupEntries(g))
    ensures ok <==> |g.blocks| <= 8192
    ensures ok ==> (r == Ok(g) <==> NoneRecognised(g.otherEntries))
    ensures ok ==> BlocksAre(out, g.blocks, |g.blocks|)
    ensures !ok ==> out == [0x65, 0x32, 0, 0, 0, 0, 0, 0] && r.Err?
  {
    var writer := new Writer();
    ok := writer.PutFile(g);
    out := writer.writer.out;
    r := ReadAndAssemble(out);
    TooManyBlocks(g);
    if |g.blocks| <= MAX_BLOCKS_PER_ERA1 {
      FileFront(g, out);
      WrittenReads(g, out);
      if NoneRecognised(g.otherEntries) {
        GroupAssembles(g);
        AssemblyUnique(GroupEntries(g), g, r.value);
      } else {
        GroupOthers(g);
        OthersAll(g.otherEntries);
      }
    } else {
      assert writer.writer.written == [VERSION_ENTRY];
      VersionOnly(out);
    }
  }

  lemma WrittenReads(g: Group, out: Bytes)
    requires |g.blocks| <= MAX_BLOCKS_PER_ERA1 && AllFit(GroupEntries(g))
               && out == EncodeAll(WriteFile(FRESH, g).state.written)
    ensures WriteFile(FRESH, g).ok
    ensures Entries(out) == Ok([VERSION_ENTRY] + GroupEntries(g))
    ensures Entries(out).value[1..] == GroupEntries(g)
    ensures FileAssembles(out) <==> Assembles(GroupEntries(g))
  {
    FreshFile(g);
    EntriesRoundTrip([VERSION_ENTRY] + GroupEntries(g), []);
  }

  lemma VersionOnly(out: Bytes)
    requires out == EncodeAll([VERSION_ENTRY])
    ensures !FileAssembles(out)
  {
    EntriesRoundTrip([VERSION_ENTRY], []);
    assert Column([VERSION_ENTRY][1..], ACCUMULATOR) == [];
  }
}
