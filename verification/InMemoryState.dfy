/** The mutable container of canonical blocks that are not on disk yet. Writers hold both locks, so every
    method is one atomic step of `InMemoryModel`. */
module InMemoryState {
  import opened Options
  import opened BlockStates
  import opened InMemoryModel
  import opened Overlay

  datatype NewCanonicalChain =
    | CommitChain(commit: seq<ExecutedBlock>)
    | ReorgChain(replacement: seq<ExecutedBlock>, reorged: seq<BlockNumHash>)
  {
    function AsOp(): Op {
      match this
      case CommitChain(added) => Commit(added)
      case ReorgChain(added, reorged) => Reorg(added, reorged)
    }
  }

  lemma {:induction false} MinimumExists(blocks: map<Hash, BlockState>, hs: set<Hash>) returns (h: Hash)
    requires hs != {} && hs <= blocks.Keys
    ensures h in hs && forall x :: x in hs ==> blocks[h].block.number <= blocks[x].block.number
    decreases hs
  {
    var y :| y in hs;
    h := y;
    var rest := hs - {y};
    assert hs == rest + {y};
    if rest != {} {
      var z := MinimumExists(blocks, rest);
      if blocks[z].block.number < blocks[y].block.number { h := z; }
    }
  }

  /** `order` is sorted by number and, with the not yet drained `left`, holds every block above `height` once. */
  ghost predicate Drained(blocks: map<Hash, BlockState>, height: nat, order: seq<Hash>, left: set<Hash>) {
    && (forall h :: h in left ==> h in blocks && blocks[h].block.number > height && h !in order)
    && (forall i :: 0 <= i < |order| ==> order[i] in blocks && blocks[order[i]].block.number > height)
    && (forall h {:trigger h in left} :: h in blocks && blocks[h].block.number > height ==> h in order || h in left)
    && (forall i, j :: 0 <= i < j < |order| ==> order[i] != order[j])
    && (forall i, j :: 0 <= i < j < |order| ==> blocks[order[i]].block.number <= blocks[order[j]].block.number)
    && (forall i, h :: 0 <= i < |order| && h in left ==> blocks[order[i]].block.number <= blocks[h].block.number)
  }

  lemma DrainOne(blocks: map<Hash, BlockState>, height: nat, order: seq<Hash>, left: set<Hash>, h: Hash)
    requires Drained(blocks, height, order, left)
    requires h in left && forall x :: x in left ==> blocks[h].block.number <= blocks[x].block.number
    ensures Drained(blocks, height, order + [h], left - {h})
  {
    var order', left' := order + [h], left - {h};
    forall i | 0 <= i < |order'|
      ensures order'[i] in blocks && blocks[order'[i]].block.number > height && order'[i] !in left'
    {
      if i < |order| { assert order[i] in order; }
    }
    forall i, j | 0 <= i < j < |order'|
      ensures order'[i] != order'[j] && blocks[order'[i]].block.number <= blocks[order'[j]].block.number
    {
      assert order[i] in order && order'[i] == order[i];
      assert j < |order| ==> order'[j] == order[j];
    }
    forall x | x in blocks && blocks[x].block.number > height ensures x in order' || x in left' {
      assert x in left || x in order;
      if x in order { assert x in order'; } else if x == h { assert order'[|order|] == h; }
    }
  }

  lemma AllDrained(m: Memory, height: nat, order: seq<Hash>)
    requires Drained(m.blocks, height, order, {})
    ensures Survivors(m, height, order)
  {
    var none: set<Hash> := {};
    forall h | h in m.blocks && m.blocks[h].block.number > height ensures h in order {
      assert h !in none;
    }
  }

  class CanonicalInMemoryState {
    var blocks: map<Hash, BlockState>
    var numbers: map<nat, Hash>
    var pending: Option<BlockState>

    ghost function Contents(): Memory
      reads this
    {
      Memory(blocks, numbers, pending)
    }

    constructor ()
      ensures Contents() == EMPTY
      ensures Represents(Contents(), [])
    {
      blocks, numbers, pending := map[], map[], None;
    }

    method ClearState()
      modifies this
      ensures Step(old(Contents()), Clear, Contents())
    {
      numbers := map[];
      blocks := map[];
      pending := None;
    }

    method SetPendingBlock(block: ExecutedBlock)
      modifies this`pending
      ensures Step(old(Contents()), SetPending(block), Contents())
      ensures pending == Some(BlockState(block, Lookup(blocks, block.parentHash)))
    {
      var parent := Lookup(blocks, block.parentHash);
      pending := Some(BlockState(block, parent));
    }

    method UpdateBlocks(added: seq<ExecutedBlock>, reorged: seq<BlockNumHash>)
      modifies this
      ensures Contents() == InMemoryModel.UpdateBlocks(old(Contents()), added, reorged) && pending == None
    {
      for i := 0 to |reorged|
        invariant Contents() == RemoveAll(old(Contents()), reorged[..i])
      {
        assert reorged[..i + 1][..i] == reorged[..i];
        blocks := blocks - {reorged[i].hash};
        numbers := numbers - {reorged[i].number};
      }
      assert reorged[..|reorged|] == reorged;
      Append(added);
      pending := None;
    }

    /** Connects each block to its stored parent and appends it. */
    method Append(added: seq<ExecutedBlock>)
      modifies this`blocks, this`numbers
      ensures Contents() == InsertAll(old(Contents()), added)
    {
      for i := 0 to |added|
        invariant Contents() == InsertAll(old(Contents()), added[..i])
      {
        assert added[..i + 1][..i] == added[..i];
        var state := BlockState(added[i], Lookup(blocks, added[i].parentHash));
        blocks := blocks[state.block.hash := state];
        numbers := numbers[state.block.number := state.block.hash];
      }
      assert added[..|added|] == added;
    }

    method UpdateChain(chain: NewCanonicalChain)
      modifies this
      ensures Step(old(Contents()), chain.AsOp(), Contents()) && pending == None
    {
      match chain {
        case CommitChain(added) => UpdateBlocks(added, []);
        case ReorgChain(added, reorged) => UpdateBlocks(added, reorged);
      }
    }

    /** The hashes of the blocks above `height`, sorted by number; equal numbers may come in any order. */
    method DrainAbove(height: nat) returns (order: seq<Hash>)
      ensures Survivors(Contents(), height, order)
    {
      order := [];
      var left := set h | h in blocks && blocks[h].block.number > height;
      while left != {}
        invariant Drained(blocks, height, order, left)
        decreases left
      {
        ghost var least := MinimumExists(blocks, left);
        var h :| h in left && forall x :: x in left ==> blocks[h].block.number <= blocks[x].block.number;
        DrainOne(blocks, height, order, left, h);
        order := order + [h];
        left := left - {h};
      }
      AllDrained(Contents(), height, order);
    }

    method RemovePersistedBlocks(persisted: BlockNumHash)
      modifies this
      ensures Step(old(Contents()), Persist(persisted), Contents())
    {
      if persisted.hash !in blocks { return; }
      var order := DrainAbove(persisted.number);
      var kept := BlocksAt(Memory(blocks, numbers, pending), order);
      numbers := map[];
      blocks := map[];
      Append(kept);
      if pending.Some? {
        pending := Some(BlockState(pending.value.block, Lookup(blocks, pending.value.block.parentHash)));
      }
    }

    method GetHeadState() returns (r: Option<BlockState>)
      ensures r == HeadState(Contents())
    {
      if numbers.Keys == {} { return None; }
      ghost var top := MaxKey(numbers.Keys);
      var last :| last in numbers.Keys && forall n :: n in numbers.Keys ==> n <= last;
      r := Lookup(blocks, numbers[last]);
    }

    /** The blocks a state provider for `hash` reads through, newest first. */
    method StateProvider(hash: Hash) returns (overlay: seq<ExecutedBlock>)
      ensures overlay == if hash in blocks then ChainBlocks(blocks[hash]) else []
      ensures forall c :: Represents(Contents(), c) ==> NewestFirst(overlay)
    {
      overlay := if hash in blocks then ChainBlocks(blocks[hash]) else [];
      forall c | Represents(Contents(), c) ensures NewestFirst(overlay) {
        if hash in blocks { ProviderNewestFirst(Contents(), c, hash); }
      }
    }
  }
}
