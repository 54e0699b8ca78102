/** The Era1 writer as a state machine: what every sequence of calls leaves in the output. */
module Era1Writer {
  import opened Options
  import opened Bytes
  import opened E2Store
  import opened BlockIndexes
  import opened Era1

  /** The records written so far and the writer's flags. */
  datatype State = State(written: seq<Entry>, version: bool, blocks: bool, accumulator: bool, index: bool)

  const FRESH := State([], false, false, false, false)

  datatype Call =
    | WriteVersion
    | WriteBlock(block: BlockTuple)
    | WriteAccumulator(root: Bytes)
    | WriteIndex(index: BlockIndex)
    | WriteOther(entry: Entry)

  /** Every call puts the version first if it is not there yet. */
  function Started(s: State): State {
    if s.version then s else s.(written := s.written + [VERSION_ENTRY], version := true)
  }

  datatype Outcome = Outcome(state: State, ok: bool)

  function Do(s: State, call: Call): Outcome {
    var s := Started(s);
    match call
    case WriteVersion => Outcome(s, true)
    case WriteBlock(b) =>
      if s.accumulator || s.index then Outcome(s, false)
      else Outcome(s.(written := s.written + TupleEntries(b), blocks := true), true)
    case WriteAccumulator(root) =>
      if s.accumulator then Outcome(s, false)
      else if s.index then Outcome(s, false)
      else Outcome(s.(written := s.written + [Entry(ACCUMULATOR, root)], accumulator := true), true)
    case WriteIndex(x) =>
      if s.index then Outcome(s, false)
      else Outcome(s.(written := s.written + [ToEntry(x)], index := true), true)
    case WriteOther(e) => Outcome(s.(written := s.written + [e]), true)
  }

  // ----- every sequence of public calls -----

  /** What the accepted calls of a sequence amount to. */
  datatype Accepted = Accepted(blocks: seq<BlockTuple>, accumulator: Option<Bytes>, index: Option<BlockIndex>)

  function Accept(a: Accepted, call: Call): Accepted {
    match call
    case WriteBlock(b) => if a.accumulator.None? && a.index.None? then a.(blocks := a.blocks + [b]) else a
    case WriteAccumulator(root) => if a.accumulator.None? && a.index.None? then a.(accumulator := Some(root)) else a
    case WriteIndex(x) => if a.index.None? then a.(index := Some(x)) else a
    case _ => a
  }

  function AcceptAll(calls: seq<Call>): Accepted {
    if calls == [] then Accepted([], None, None) else Accept(AcceptAll(calls[..|calls| - 1]), calls[|calls| - 1])
  }

  /** One version, whole block tuples, then at most one accumulator and at most one index. */
  function Layout(a: Accepted): seq<Entry> {
    [VERSION_ENTRY] + BlockEntries(a.blocks)
    + (if a.accumulator.Some? then [Entry(ACCUMULATOR, a.accumulator.value)] else [])
    + (if a.index.Some? then [ToEntry(a.index.value)] else [])
  }

  /** The state after all `calls`, refused ones included. */
  function After(calls: seq<Call>): State {
    if calls == [] then FRESH else Do(After(calls[..|calls| - 1]), calls[|calls| - 1]).state
  }

  ghost predicate Matches(s: State, a: Accepted) {
    s.version && s.written == Layout(a) && s.accumulator == a.accumulator.Some? && s.index == a.index.Some?
  }

  lemma LayoutBlock(a: Accepted, b: BlockTuple)
    requires a.accumulator.None? && a.index.None?
    ensures Layout(a.(blocks := a.blocks + [b])) == Layout(a) + TupleEntries(b)
  {
    assert (a.blocks + [b])[..|a.blocks|] == a.blocks;
    Associate([VERSION_ENTRY], BlockEntries(a.blocks), TupleEntries(b));
  }

  lemma CallMatches(s: State, a: Accepted, call: Call)
    requires Matches(s, a) && !call.WriteOther?
    ensures Matches(Do(s, call).state, Accept(a, call))
    ensures !Do(s, call).ok ==> Do(s, call).state == s
  {
    if call.WriteBlock? && Do(s, call).ok { LayoutBlock(a, call.block); }
  }

  lemma FirstCall(call: Call)
    requires !call.WriteOther?
    ensures Do(FRESH, call).ok && Do(FRESH, call) == Do(Started(FRESH), call)
    ensures Matches(Started(FRESH), Accepted([], None, None))
  {
  }

  /** After any sequence of calls, refused ones included, the output is empty or has the Era1 layout. */
  lemma {:induction false} EveryCallSequence(calls: seq<Call>)
    requires forall i :: 0 <= i < |calls| ==> !calls[i].WriteOther?
    ensures if calls == [] then After(calls) == FRESH else Matches(After(calls), AcceptAll(calls))
  {
    if calls != [] {
      var front, last := calls[..|calls| - 1], calls[|calls| - 1];
      EveryCallSequence(front);
      if front == [] {
        FirstCall(last);
        CallMatches(Started(FRESH), Accepted([], None, None), last);
      } else {
        CallMatches(After(front), AcceptAll(front), last);
      }
    }
  }

  // ----- which calls are refused, and what the accepted ones amount to -----

  ghost predicate Ends(call: Call) {
    call.WriteAccumulator? || call.WriteIndex?
  }

  ghost predicate NoneEnds(calls: seq<Call>) {
    forall i :: 0 <= i < |calls| ==> !Ends(calls[i])
  }

  ghost predicate NoIndex(calls: seq<Call>) {
    forall i :: 0 <= i < |calls| ==> !calls[i].WriteIndex?
  }

  lemma NoneMore(calls: seq<Call>)
    requires calls != []
    ensures var front, last := calls[..|calls| - 1], calls[|calls| - 1];
            && (NoneEnds(calls) <==> NoneEnds(front) && !Ends(last))
            && (NoIndex(calls) <==> NoIndex(front) && !last.WriteIndex?)
  {
    assert calls == calls[..|calls| - 1] + [calls[|calls| - 1]];
  }

  lemma {:induction false} FlagsAre(calls: seq<Call>)
    ensures After(calls).index <==> !NoIndex(calls)
    ensures After(calls).accumulator || After(calls).index <==> !NoneEnds(calls)
  {
    if calls != [] {
      FlagsAre(calls[..|calls| - 1]);
      NoneMore(calls);
    }
  }

  /** A block or an accumulator is refused exactly after a call for an accumulator or an index, an index exactly after a
      call for an index, and nothing else ever. */
  lemma RefusedIff(calls: seq<Call>, call: Call)
    ensures Do(After(calls), call).ok <==>
            && (call.WriteBlock? || call.WriteAccumulator? ==> NoneEnds(calls))
            && (call.WriteIndex? ==> NoIndex(calls))
  {
    FlagsAre(calls);
  }

  ghost function BlocksOf(calls: seq<Call>): seq<BlockTuple> {
    if calls == [] then []
    else
      var last := calls[|calls| - 1];
      BlocksOf(calls[..|calls| - 1]) + if last.WriteBlock? then [last.block] else []
  }

  /** The calls before the first one for an accumulator or an index. */
  ghost function BeforeEnd(calls: seq<Call>): seq<Call> {
    if calls == [] then []
    else if NoneEnds(calls) then calls
    else BeforeEnd(calls[..|calls| - 1])
  }

  /** The first root given, if no index comes before it, and the first index given. */
  ghost function FirstRoot(calls: seq<Call>): Option<Bytes> {
    if calls == [] || Ends(calls[0])
        then (if calls != [] && calls[0].WriteAccumulator? then Some(calls[0].root) else None)
    else FirstRoot(calls[1..])
  }

  ghost function FirstIndex(calls: seq<Call>): Option<BlockIndex> {
    if calls == [] then None else if calls[0].WriteIndex? then Some(calls[0].index) else FirstIndex(calls[1..])
  }

  lemma {:induction false} FirstRootSnoc(calls: seq<Call>, call: Call)
    ensures FirstRoot(calls).Some? ==> !NoneEnds(calls)
    ensures FirstRoot(calls + [call])
         == if NoneEnds(calls) && call.WriteAccumulator? then Some(call.root) else FirstRoot(calls)
  {
    if calls == [] {
      assert calls + [call] == [call];
    } else {
      assert (calls + [call])[1..] == calls[1..] + [call];
      FirstRootSnoc(calls[1..], call);
      assert NoneEnds(calls) <==> !Ends(calls[0]) && NoneEnds(calls[1..]) by { HeadFirst(calls); }
    }
  }

  lemma HeadFirst(calls: seq<Call>)
    requires calls != []
    ensures NoneEnds(calls) <==> !Ends(calls[0]) && NoneEnds(calls[1..])
    ensures NoIndex(calls) <==> !calls[0].WriteIndex? && NoIndex(calls[1..])
  {
    assert calls == [calls[0]] + calls[1..];
  }

  lemma {:induction false} FirstIndexSnoc(calls: seq<Call>, call: Call)
    ensures FirstIndex(calls).Some? <==> !NoIndex(calls)
    ensures FirstIndex(calls + [call])
         == if NoIndex(calls) && call.WriteIndex? then Some(call.index) else FirstIndex(calls)
  {
    if calls == [] {
      assert calls + [call] == [call];
    } else {
      assert (calls + [call])[1..] == calls[1..] + [call];
      FirstIndexSnoc(calls[1..], call);
      HeadFirst(calls);
    }
  }

  /** What the accepted calls amount to: all blocks before the first accumulator or index, the first accumulator if no
      index comes before it, and the first index. */
  lemma {:induction false} AcceptedAre(calls: seq<Call>)
    ensures AcceptAll(calls).blocks == BlocksOf(BeforeEnd(calls))
    ensures AcceptAll(calls).accumulator == FirstRoot(calls) && AcceptAll(calls).index == FirstIndex(calls)
    ensures AcceptAll(calls).accumulator.Some? || AcceptAll(calls).index.Some? <==> !NoneEnds(calls)
  {
    if calls != [] {
      var front, last := calls[..|calls| - 1], calls[|calls| - 1];
      AcceptedAre(front);
      assert calls == front + [last];
      NoneMore(calls);
      FirstRootSnoc(front, last);
      FirstIndexSnoc(front, last);
      if NoneEnds(front) { WholeBefore(front); }
    }
  }

  lemma WholeBefore(calls: seq<Call>)
    requires NoneEnds(calls)
    ensures BeforeEnd(calls) == calls
  {
  }

  /** So the bytes parse back into exactly that layout. */
  lemma OutputParses(calls: seq<Call>)
    requires forall i :: 0 <= i < |calls| ==> !calls[i].WriteOther?
    requires AllFit(After(calls).written)
    ensures Entries(EncodeAll(After(calls).written)) == Ok(if calls == [] then [] else Layout(AcceptAll(calls)))
  {
    EveryCallSequence(calls);
    EntriesRoundTrip(After(calls).written, []);
  }

  // ----- writing a whole group -----

  /** Calls until one is refused. */
  function DoAll(s: State, calls: seq<Call>): Outcome
    decreases calls
  {
    if calls == [] then Outcome(s, true)
    else
      var first := Do(s, calls[0]);
      if first.ok then DoAll(first.state, calls[1..]) else first
  }

  lemma DoNext(s: State, calls: seq<Call>, i: nat)
    requires i < |calls|
    ensures var first := Do(s, calls[i]);
            DoAll(s, calls[i..]) == if first.ok then DoAll(first.state, calls[i + 1..]) else first
    ensures DoAll(s, calls[|calls|..]) == Outcome(s, true)
  {
    assert calls[i..][1..] == calls[i + 1..];
  }

  lemma {:induction false} DoConcat(s: State, a: seq<Call>, b: seq<Call>)
    ensures var first := DoAll(s, a); DoAll(s, a + b) == if first.ok then DoAll(first.state, b) else first
    decreases a
  {
    if a == [] {
      assert a + b == b;
    } else {
      assert (a + b)[1..] == a[1..] + b;
      if Do(s, a[0]).ok { DoConcat(Do(s, a[0]).state, a[1..], b); }
    }
  }

  lemma {:induction false} StaysStarted(s: State, calls: seq<Call>)
    requires s.version
    ensures DoAll(s, calls).state.version
    decreases calls
  {
    if calls != [] && Do(s, calls[0]).ok { StaysStarted(Do(s, calls[0]).state, calls[1..]); }
  }

  lemma DoTwo(s: State, a: Call, b: Call)
    ensures var first := Do(s, a); DoAll(s, [a, b]) == if first.ok then Do(first.state, b) else first
  {
    assert [a, b] == [a] + [b] && [a][1..] == [] && [b][1..] == [];
    DoConcat(s, [a], [b]);
  }

  function BlockCalls(blocks: seq<BlockTuple>): (calls: seq<Call>)
    ensures |calls| == |blocks| && forall i :: 0 <= i < |blocks| ==> calls[i] == WriteBlock(blocks[i])
  {
    seq(|blocks|, i requires 0 <= i < |blocks| => WriteBlock(blocks[i]))
  }

  function OtherCalls(es: seq<Entry>): (calls: seq<Call>)
    ensures |calls| == |es| && forall i :: 0 <= i < |es| ==> calls[i] == WriteOther(es[i])
  {
    seq(|es|, i requires 0 <= i < |es| => WriteOther(es[i]))
  }

  function GroupCalls(g: Group): seq<Call> {
    BlockCalls(g.blocks) + (OtherCalls(g.otherEntries) + [WriteAccumulator(g.accumulator), WriteIndex(g.blockIndex)])
  }

  /** The version goes out before the number of blocks is checked. */
  function WriteFile(s: State, g: Group): Outcome {
    if |g.blocks| > MAX_BLOCKS_PER_ERA1 then Outcome(Started(s), false)
    else DoAll(Started(s), GroupCalls(g))
  }

  lemma {:induction false} DoBlocks(s: State, blocks: seq<BlockTuple>, rest: seq<Call>)
    requires s.version && !s.accumulator && !s.index
    ensures DoAll(s, BlockCalls(blocks) + rest)
         == DoAll(s.(written := s.written + BlockEntries(blocks), blocks := s.blocks || blocks != []), rest)
  {
    if blocks == [] {
      assert BlockCalls(blocks) + rest == rest && s.written + [] == s.written;
    } else {
      var front, last := blocks[..|blocks| - 1], blocks[|blocks| - 1];
      assert BlockCalls(blocks) + rest == BlockCalls(front) + ([WriteBlock(last)] + rest);
      DoBlocks(s, front, [WriteBlock(last)] + rest);
      assert ([WriteBlock(last)] + rest)[1..] == rest;
      Associate(s.written, BlockEntries(front), TupleEntries(last));
    }
  }

  lemma {:induction false} DoOthers(s: State, es: seq<Entry>, rest: seq<Call>)
    requires s.version
    ensures DoAll(s, OtherCalls(es) + rest) == DoAll(s.(written := s.written + es), rest)
    decreases es
  {
    if es == [] {
      assert OtherCalls(es) + rest == rest && s.written + [] == s.written;
    } else {
      var calls := OtherCalls(es) + rest;
      assert calls[0] == WriteOther(es[0]) && calls[1..] == OtherCalls(es[1..]) + rest;
      DoOthers(s.(written := s.written + [es[0]]), es[1..], rest);
      Associate(s.written, [es[0]], es[1..]);
      assert [es[0]] + es[1..] == es;
    }
  }

  lemma DoLast(s: State, root: Bytes, x: BlockIndex)
    requires s.version && !s.accumulator && !s.index
    ensures var r := DoAll(s, [WriteAccumulator(root), WriteIndex(x)]);
            r.ok && r.state.written == s.written + [Entry(ACCUMULATOR, root), ToEntry(x)]
  {
    DoTwo(s, WriteAccumulator(root), WriteIndex(x));
  }

  /** A fresh writer puts out the version and then exactly the group's records. */
  lemma FreshFile(g: Group)
    requires |g.blocks| <= MAX_BLOCKS_PER_ERA1
    ensures WriteFile(FRESH, g).ok && WriteFile(FRESH, g).state.written == [VERSION_ENTRY] + GroupEntries(g)
  {
    var s0 := Started(FRESH);
    var last := [WriteAccumulator(g.accumulator), WriteIndex(g.blockIndex)];
    DoBlocks(s0, g.blocks, OtherCalls(g.otherEntries) + last);
    var s1 := s0.(written := s0.written + BlockEntries(g.blocks), blocks := g.blocks != []);
    DoOthers(s1, g.otherEntries, last);
    var s2 := s1.(written := s1.written + g.otherEntries);
    DoLast(s2, g.accumulator, g.blockIndex);
    var end := [Entry(ACCUMULATOR, g.accumulator), ToEntry(g.blockIndex)];
    Associate(s1.written, g.otherEntries, end);
    Associate(s0.written, BlockEntries(g.blocks), g.otherEntries + end);
  }

  // ----- the writer object -----

  class Writer {
    const writer: E2StoreWriter
    var hasWrittenVersion: bool
    var hasWrittenBlocks: bool
    var hasWrittenAccumulator: bool
    var hasWrittenBlockIndex: bool

    ghost predicate Valid()
      reads this, writer
    {
      writer.Valid() && hasWrittenVersion == writer.hasWrittenVersion
    }

    ghost function Contents(): State
      reads this, writer
    {
      State(writer.written, hasWrittenVersion, hasWrittenBlocks, hasWrittenAccumulator, hasWrittenBlockIndex)
    }

    constructor ()
      ensures Valid() && fresh(writer) && Contents() == FRESH
    {
      writer := new E2StoreWriter();
      hasWrittenVersion, hasWrittenBlocks, hasWrittenAccumulator, hasWrittenBlockIndex := false, false, false, false;
    }

    method PutVersion()
      requires Valid()
      modifies this`hasWrittenVersion, writer
      ensures Valid() && Contents() == Started(old(Contents()))
    {
      if hasWrittenVersion { return; }
      writer.WriteVersion();
      hasWrittenVersion := true;
    }

    method PutBlock(b: BlockTuple) returns (ok: bool)
      requires Valid()
      modifies this, writer
      ensures Valid() && Outcome(Contents(), ok) == Do(old(Contents()), WriteBlock(b))
    {
      if !hasWrittenVersion { PutVersion(); }
      if hasWrittenAccumulator || hasWrittenBlockIndex { return false; }
      ghost var before := writer.written;
      writer.WriteEntry(Entry(COMPRESSED_HEADER, b.header));
      writer.WriteEntry(Entry(COMPRESSED_BODY, b.body));
      writer.WriteEntry(Entry(COMPRESSED_RECEIPTS, b.receipts));
      writer.WriteEntry(DifficultyEntry(b.totalDifficulty));
      assert writer.written == before + TupleEntries(b);
      hasWrittenBlocks := true;
      ok := true;
    }

    method PutBlockIndex(x: BlockIndex) returns (ok: bool)
      requires Valid()
      modifies this, writer
      ensures Valid() && Outcome(Contents(), ok) == Do(old(Contents()), WriteIndex(x))
    {
      if !hasWrittenVersion { PutVersion(); }
      if hasWrittenBlockIndex { return false; }
      writer.WriteEntry(ToEntry(x));
      hasWrittenBlockIndex := true;
      ok := true;
    }

    method PutAccumulator(root: Bytes) returns (ok: bool)
      requires Valid()
      modifies this, writer
      ensures Valid() && Outcome(Contents(), ok) == Do(old(Contents()), WriteAccumulator(root))
    {
      if !hasWrittenVersion { PutVersion(); }
      if hasWrittenAccumulator { return false; }
      if hasWrittenBlockIndex { return false; }
      writer.WriteEntry(Entry(ACCUMULATOR, root));
      hasWrittenAccumulator := true;
      ok := true;
    }

    method PutBlocks(blocks: seq<BlockTuple>) returns (ok: bool)
      requires Valid()
      modifies this, writer
      ensures Valid() && Outcome(Contents(), ok) == DoAll(old(Contents()), BlockCalls(blocks))
    {
      ghost var calls := BlockCalls(blocks);
      assert calls[0..] == calls;
      ok := true;
      for i := 0 to |blocks|
        invariant Valid() && ok && DoAll(Contents(), calls[i..]) == DoAll(old(Contents()), calls)
      {
        DoNext(Contents(), calls, i);
        ok := PutBlock(blocks[i]);
        if !ok { return; }
      }
    }

    method PutOthers(es: seq<Entry>)
      requires Valid() && hasWrittenVersion
      modifies writer
      ensures Valid() && Outcome(Contents(), true) == DoAll(old(Contents()), OtherCalls(es))
    {
      ghost var calls := OtherCalls(es);
      assert calls[0..] == calls;
      for i := 0 to |es|
        invariant Valid() && DoAll(Contents(), calls[i..]) == DoAll(old(Contents()), calls)
      {
        DoNext(Contents(), calls, i);
        writer.WriteEntry(es[i]);
      }
    }

    /** A whole group, stopping at the first refusal. */
    method PutFile(g: Group) returns (ok: bool)
      requires Valid()
      modifies this, writer
      ensures Valid() && Outcome(Contents(), ok) == WriteFile(old(Contents()), g)
    {
      PutVersion();
      if |g.blocks| > MAX_BLOCKS_PER_ERA1 { return false; }
      ghost var last := [WriteAccumulator(g.accumulator), WriteIndex(g.blockIndex)];
      DoConcat(Contents(), BlockCalls(g.blocks), OtherCalls(g.otherEntries) + last);
      StaysStarted(Contents(), BlockCalls(g.blocks));
      ok := PutBlocks(g.blocks);
      if !ok { return; }
      DoConcat(Contents(), OtherCalls(g.otherEntries), last);
      PutOthers(g.otherEntries);
      DoTwo(Contents(), last[0], last[1]);
      ok := PutAccumulator(g.accumulator);
      if !ok { return; }
      ok := PutBlockIndex(g.blockIndex);
    }
  }
}
