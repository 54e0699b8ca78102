/** The canonical in-memory chain as a value: the operations on the three linked structures, and the
    sequence of blocks they stand for. Every operation is one atomic step. */
module InMemoryModel {
  import opened Options
  import opened BlockStates

  datatype Memory = Memory(blocks: map<Hash, BlockState>, numbers: map<nat, Hash>, pending: Option<BlockState>)

  const EMPTY := Memory(map[], map[], None)

  function NumHash(b: ExecutedBlock): BlockNumHash {
    BlockNumHash(b.number, b.hash)
  }

  /** A new state for `b`, linked to whatever is stored under its parent hash. */
  function WithParent(blocks: map<Hash, BlockState>, b: ExecutedBlock): BlockState {
    BlockState(b, Lookup(blocks, b.parentHash))
  }

  function Insert(m: Memory, b: ExecutedBlock): Memory {
    m.(blocks := m.blocks[b.hash := WithParent(m.blocks, b)], numbers := m.numbers[b.number := b.hash])
  }

  function InsertAll(m: Memory, added: seq<ExecutedBlock>): Memory {
    if added == [] then m else Insert(InsertAll(m, added[..|added| - 1]), added[|added| - 1])
  }

  function Remove(m: Memory, b: BlockNumHash): Memory {
    m.(blocks := m.blocks - {b.hash}, numbers := m.numbers - {b.number})
  }

  function RemoveAll(m: Memory, reorged: seq<BlockNumHash>): Memory {
    if reorged == [] then m else Remove(RemoveAll(m, reorged[..|reorged| - 1]), reorged[|reorged| - 1])
  }

  function UpdateBlocks(m: Memory, added: seq<ExecutedBlock>, reorged: seq<BlockNumHash>): Memory {
    InsertAll(RemoveAll(m, reorged), added).(pending := None)
  }

  /** `order` enumerates, in rising order of number, the hashes of the blocks above `height`. */
  ghost predicate Survivors(m: Memory, height: nat, order: seq<Hash>) {
    && (forall i :: 0 <= i < |order| ==> order[i] in m.blocks && m.blocks[order[i]].block.number > height)
    && (forall h {:trigger h in order} :: h in m.blocks && m.blocks[h].block.number > height ==> h in order)
    && (forall i, j :: 0 <= i < j < |order| ==> order[i] != order[j])
    && (forall i, j :: 0 <= i < j < |order| ==> m.blocks[order[i]].block.number <= m.blocks[order[j]].block.number)
  }

  function BlocksAt(m: Memory, order: seq<Hash>): (bs: seq<ExecutedBlock>)
    requires forall h :: h in order ==> h in m.blocks
    ensures |bs| == |order| && forall i :: 0 <= i < |order| ==> bs[i] == m.blocks[order[i]].block
  {
    seq(|order|, i requires 0 <= i < |order| => m.blocks[order[i]].block)
  }

  function Relink(m: Memory): Memory {
    m.(pending := if m.pending.None? then None else Some(WithParent(m.blocks, m.pending.value.block)))
  }

  /** One call of `remove_persisted_blocks`; the sort may break ties in any way. */
  ghost predicate PersistStep(m: Memory, persisted: BlockNumHash, m': Memory) {
    if persisted.hash !in m.blocks then m' == m
    else exists order :: Survivors(m, persisted.number, order)
                      && m' == Relink(InsertAll(Memory(map[], map[], m.pending), BlocksAt(m, order)))
  }

  datatype Op =
    | Commit(commit: seq<ExecutedBlock>)
    | Reorg(replacement: seq<ExecutedBlock>, reorged: seq<BlockNumHash>)
    | Persist(persisted: BlockNumHash)
    | SetPending(block: ExecutedBlock)
    | Clear

  ghost predicate Step(m: Memory, op: Op, m': Memory) {
    match op
    case Commit(added) => m' == UpdateBlocks(m, added, [])
    case Reorg(added, reorged) => m' == UpdateBlocks(m, added, reorged)
    case Persist(p) => PersistStep(m, p, m')
    case SetPending(b) => m' == m.(pending := Some(WithParent(m.blocks, b)))
    case Clear => m' == EMPTY
  }

  // ----- the same operations on the sequence of blocks, oldest first -----

  /** How many of the oldest blocks precede the first one named in `reorged`. */
  function KeptCount(c: seq<ExecutedBlock>, reorged: seq<BlockNumHash>): (k: nat)
    ensures k <= |c|
    ensures forall i :: 0 <= i < k ==> NumHash(c[i]) !in reorged
    ensures k < |c| ==> NumHash(c[k]) in reorged
  {
    if c == [] || NumHash(c[0]) in reorged then 0 else 1 + KeptCount(c[1..], reorged)
  }

  /** How many of the oldest blocks are numbered at most `height`. */
  function PersistedCount(c: seq<ExecutedBlock>, height: nat): (k: nat)
    ensures k <= |c|
    ensures forall i :: 0 <= i < k ==> c[i].number <= height
    ensures k < |c| ==> c[k].number > height
  {
    if c == [] || c[0].number > height then 0 else 1 + PersistedCount(c[1..], height)
  }

  ghost predicate InChain(c: seq<ExecutedBlock>, h: Hash) {
    exists i :: 0 <= i < |c| && c[i].hash == h
  }

  ghost predicate HasNumber(c: seq<ExecutedBlock>, n: nat) {
    exists i :: 0 <= i < |c| && c[i].number == n
  }

  ghost function Apply(c: seq<ExecutedBlock>, op: Op): seq<ExecutedBlock> {
    match op
    case Commit(added) => c + added
    case Reorg(added, reorged) => c[..KeptCount(c, reorged)] + added
    case Persist(p) => if InChain(c, p.hash) then c[PersistedCount(c, p.number)..] else c
    case SetPending(_) => c
    case Clear => []
  }

  /** The old chain names every in-memory block above the shared ancestor; its other blocks are no longer in memory. */
  ghost predicate NamesSuffix(c: seq<ExecutedBlock>, reorged: seq<BlockNumHash>) {
    && (forall i :: KeptCount(c, reorged) <= i < |c| ==> NumHash(c[i]) in reorged)
    && (forall b, i :: b in reorged && 0 <= i < |c| && NumHash(c[i]) != b
         ==> c[i].hash != b.hash && c[i].number != b.number)
  }

  /** What the callers promise: a commit extends the head, a reorg replaces the blocks above a shared ancestor. */
  ghost predicate Allowed(c: seq<ExecutedBlock>, op: Op) {
    match op
    case Commit(added) => GoodChain(c + added)
    case Reorg(added, reorged) => NamesSuffix(c, reorged) && GoodChain(c[..KeptCount(c, reorged)] + added)
    case Persist(_) => true
    case SetPending(_) => true
    case Clear => true
  }

  ghost predicate HoldsBlocks(blocks: map<Hash, BlockState>, c: seq<ExecutedBlock>) {
    && (forall i {:trigger LinkedAt(c, i)} :: 0 <= i < |c|
         ==> c[i].hash in blocks && blocks[c[i].hash] == LinkedAt(c, i))
    && (forall h {:trigger InChain(c, h)} :: h in blocks ==> InChain(c, h))
  }

  ghost predicate HoldsNumbers(numbers: map<nat, Hash>, c: seq<ExecutedBlock>) {
    && (forall i :: 0 <= i < |c| ==> c[i].number in numbers && numbers[c[i].number] == c[i].hash)
    && (forall n {:trigger HasNumber(c, n)} :: n in numbers ==> HasNumber(c, n))
  }

  ghost predicate HoldsChain(m: Memory, c: seq<ExecutedBlock>) {
    HoldsBlocks(m.blocks, c) && HoldsNumbers(m.numbers, c)
  }

  lemma BlockAt(blocks: map<Hash, BlockState>, c: seq<ExecutedBlock>, h: Hash) returns (i: nat)
    requires HoldsBlocks(blocks, c) && h in blocks
    ensures i < |c| && c[i].hash == h && blocks[h] == LinkedAt(c, i)
  {
    assert InChain(c, h);
    i :| 0 <= i < |c| && c[i].hash == h;
  }

  lemma StoredAt(blocks: map<Hash, BlockState>, c: seq<ExecutedBlock>, i: nat)
    requires HoldsBlocks(blocks, c) && i < |c|
    ensures Lookup(blocks, c[i].hash) == Some(LinkedAt(c, i))
  {
  }

  lemma NumberAt(numbers: map<nat, Hash>, c: seq<ExecutedBlock>, n: nat) returns (i: nat)
    requires HoldsNumbers(numbers, c) && n in numbers
    ensures i < |c| && c[i].number == n && numbers[n] == c[i].hash
  {
    assert HasNumber(c, n);
    i :| 0 <= i < |c| && c[i].number == n;
  }

  ghost predicate PendingLinked(m: Memory) {
    m.pending.Some? ==> m.pending.value.parent == Lookup(m.blocks, m.pending.value.block.parentHash)
  }

  /** The memory stands for exactly the blocks `c`. */
  ghost predicate Represents(m: Memory, c: seq<ExecutedBlock>) {
    GoodChain(c) && HoldsChain(m, c) && PendingLinked(m)
  }

  // ----- each operation refines its sequence counterpart -----

  lemma GoodPrefix(c: seq<ExecutedBlock>, k: nat)
    requires GoodChain(c) && k <= |c|
    ensures GoodChain(c[..k])
  {
  }

  lemma GoodSuffix(c: seq<ExecutedBlock>, k: nat)
    requires GoodChain(c) && k <= |c|
    ensures GoodChain(c[k..])
  {
  }

  lemma InsertExtendsBlocks(blocks: map<Hash, BlockState>, c: seq<ExecutedBlock>, b: ExecutedBlock)
    requires HoldsBlocks(blocks, c)
    requires c != [] ==> b.parentHash == c[|c| - 1].hash
    requires forall i :: 0 <= i < |c| ==> c[i].hash != b.hash
    ensures HoldsBlocks(blocks[b.hash := WithParent(blocks, b)], c + [b])
  {
    var c' := c + [b];
    var blocks' := blocks[b.hash := WithParent(blocks, b)];
    forall i | 0 <= i < |c'|
      ensures c'[i].hash in blocks' && blocks'[c'[i].hash] == LinkedAt(c', i)
    {
      if i < |c| {
        LinkedAtPrefix(c, c', i);
      } else if i > 0 {
        LinkedAtPrefix(c, c', i - 1);
      } else if b.parentHash in blocks {
        var k := BlockAt(blocks, c, b.parentHash);
      }
    }
    forall h | h in blocks' ensures InChain(c', h) {
      if h == b.hash {
        assert c'[|c|].hash == h;
      } else {
        var i := BlockAt(blocks, c, h);
        assert c'[i].hash == h;
      }
    }
  }

  lemma InsertExtendsNumbers(numbers: map<nat, Hash>, c: seq<ExecutedBlock>, b: ExecutedBlock)
    requires HoldsNumbers(numbers, c)
    requires forall i :: 0 <= i < |c| ==> c[i].number != b.number
    ensures HoldsNumbers(numbers[b.number := b.hash], c + [b])
  {
    var c' := c + [b];
    forall n | n in numbers[b.number := b.hash] ensures HasNumber(c', n) {
      if n == b.number {
        assert c'[|c|].number == n;
      } else {
        var i := NumberAt(numbers, c, n);
        assert c'[i].number == n;
      }
    }
  }

  lemma {:induction false} InsertAllExtends(m: Memory, c: seq<ExecutedBlock>, added: seq<ExecutedBlock>)
    requires HoldsChain(m, c) && GoodChain(c + added)
    ensures HoldsChain(InsertAll(m, added), c + added)
    ensures InsertAll(m, added).pending == m.pending
  {
    if added == [] {
      assert c + added == c;
    } else {
      var front, b := added[..|added| - 1], added[|added| - 1];
      assert c + added == (c + front) + [b];
      GoodFront(c + front, b);
      InsertAllExtends(m, c, front);
      InsertExtends(InsertAll(m, front), c + front, b);
    }
  }

  lemma GoodFront(c: seq<ExecutedBlock>, b: ExecutedBlock)
    requires GoodChain(c + [b])
    ensures GoodChain(c)
  {
    assert (c + [b])[..|c|] == c;
    GoodPrefix(c + [b], |c|);
  }

  lemma InsertExtends(m: Memory, c: seq<ExecutedBlock>, b: ExecutedBlock)
    requires HoldsChain(m, c) && GoodChain(c + [b])
    ensures HoldsChain(Insert(m, b), c + [b])
  {
    LastIsNew(c, b);
    InsertExtendsBlocks(m.blocks, c, b);
    InsertExtendsNumbers(m.numbers, c, b);
  }

  lemma LastIsNew(c: seq<ExecutedBlock>, b: ExecutedBlock)
    requires GoodChain(c + [b])
    ensures c != [] ==> b.parentHash == c[|c| - 1].hash
    ensures forall i :: 0 <= i < |c| ==> c[i].hash != b.hash && c[i].number != b.number
  {
    var d := c + [b];
    GoodChainDistinct(d);
    assert d[|c|] == b && forall i :: 0 <= i < |c| ==> d[i] == c[i];
  }

  lemma {:induction false} RemoveAllIs(m: Memory, reorged: seq<BlockNumHash>)
    ensures var r := RemoveAll(m, reorged);
      && (forall h :: h in r.blocks <==> h in m.blocks && forall b :: b in reorged ==> b.hash != h)
      && (forall n :: n in r.numbers <==> n in m.numbers && forall b :: b in reorged ==> b.number != n)
      && (forall h :: h in r.blocks ==> r.blocks[h] == m.blocks[h])
      && (forall n :: n in r.numbers ==> r.numbers[n] == m.numbers[n])
  {
    if reorged != [] {
      var front := reorged[..|reorged| - 1];
      RemoveAllIs(m, front);
      assert forall b :: b in reorged <==> b in front || b == reorged[|reorged| - 1];
    }
  }

  lemma RemoveAllCuts(m: Memory, c: seq<ExecutedBlock>, reorged: seq<BlockNumHash>)
    requires HoldsChain(m, c) && NamesSuffix(c, reorged)
    ensures HoldsChain(RemoveAll(m, reorged), c[..KeptCount(c, reorged)])
  {
    var k := KeptCount(c, reorged);
    var c' := c[..k];
    var m' := RemoveAll(m, reorged);
    RemoveAllIs(m, reorged);
    forall i | 0 <= i < k
      ensures c'[i].hash in m'.blocks && m'.blocks[c'[i].hash] == LinkedAt(c', i)
      ensures c'[i].number in m'.numbers && m'.numbers[c'[i].number] == c'[i].hash
    {
      assert c'[i] == c[i];
      assert forall b :: b in reorged ==> NumHash(c[i]) != b;
      LinkedAtPrefix(c', c, i);
    }
    forall h | h in m'.blocks ensures InChain(c', h) {
      var i := BlockAt(m.blocks, c, h);
      assert NumHash(c[i]).hash == h;
      assert i < k && c'[i].hash == h;
    }
    forall n | n in m'.numbers ensures HasNumber(c', n) {
      var i := NumberAt(m.numbers, c, n);
      assert NumHash(c[i]).number == n;
      assert i < k && c'[i].number == n;
    }
  }

  /** Two sequences of blocks that rise in number and have the same members are the same. */
  lemma {:induction false} RisingUnique(a: seq<ExecutedBlock>, b: seq<ExecutedBlock>)
    requires forall i, j :: 0 <= i < j < |a| ==> a[i].number < a[j].number
    requires forall i, j :: 0 <= i < j < |b| ==> b[i].number < b[j].number
    requires forall x :: x in a <==> x in b
    ensures a == b
  {
    if a == [] {
      assert forall i :: 0 <= i < |b| ==> b[i] in b;
    } else {
      assert a[0] in b && b[0] in a;
      var a', b' := a[1..], b[1..];
      forall x ensures x in a' <==> x in b' {
        if x in a' {
          assert x in b && x != a[0];
          var j :| 0 <= j < |b| && b[j] == x;
          assert j > 0 && b'[j - 1] == x;
        }
        if x in b' {
          assert x in a && x != b[0];
          var j :| 0 <= j < |a| && a[j] == x;
          assert j > 0 && a'[j - 1] == x;
        }
      }
      RisingUnique(a', b');
      assert a == [a[0]] + a' && b == [b[0]] + b';
    }
  }

  lemma SurvivorAt(m: Memory, c: seq<ExecutedBlock>, height: nat, order: seq<Hash>, i: nat) returns (x: nat)
    requires HoldsBlocks(m.blocks, c) && Distinct(c) && Survivors(m, height, order) && i < |order|
    ensures PersistedCount(c, height) <= x < |c|
    ensures c[x] == BlocksAt(m, order)[i] && c[x].hash == order[i]
  {
    assert order[i] in order;
    x := BlockAt(m.blocks, c, order[i]);
    AboveCount(c, height);
  }

  lemma SurvivorsRise(m: Memory, c: seq<ExecutedBlock>, height: nat, order: seq<Hash>, i: nat, j: nat)
    requires HoldsBlocks(m.blocks, c) && Distinct(c) && Survivors(m, height, order) && i < j < |order|
    ensures BlocksAt(m, order)[i].number < BlocksAt(m, order)[j].number
  {
    var x := SurvivorAt(m, c, height, order, i);
    var y := SurvivorAt(m, c, height, order, j);
    assert m.blocks[order[i]].block.number <= m.blocks[order[j]].block.number;
  }

  /** However the sort breaks ties, what is put back is exactly the chain above the persisted height. */
  lemma SurvivorsAreSuffix(m: Memory, c: seq<ExecutedBlock>, height: nat, order: seq<Hash>)
    requires HoldsBlocks(m.blocks, c) && Distinct(c) && Survivors(m, height, order)
    ensures BlocksAt(m, order) == c[PersistedCount(c, height)..]
  {
    var k := PersistedCount(c, height);
    var kept := c[k..];
    var bs := BlocksAt(m, order);
    forall i, j | 0 <= i < j < |bs| ensures bs[i].number < bs[j].number {
      SurvivorsRise(m, c, height, order, i, j);
    }
    forall b ensures b in bs <==> b in kept {
      SurvivorIff(m, c, height, order, b);
    }
    RisingUnique(bs, kept);
  }

  lemma SurvivorInSuffix(m: Memory, c: seq<ExecutedBlock>, height: nat, order: seq<Hash>, i: nat)
    requires HoldsBlocks(m.blocks, c) && Distinct(c) && Survivors(m, height, order) && i < |order|
    ensures BlocksAt(m, order)[i] in c[PersistedCount(c, height)..]
  {
    var x := SurvivorAt(m, c, height, order, i);
    assert c[PersistedCount(c, height)..][x - PersistedCount(c, height)] == c[x];
  }

  lemma SurvivorIff(m: Memory, c: seq<ExecutedBlock>, height: nat, order: seq<Hash>, b: ExecutedBlock)
    requires HoldsBlocks(m.blocks, c) && Distinct(c) && Survivors(m, height, order)
    ensures b in BlocksAt(m, order) <==> b in c[PersistedCount(c, height)..]
  {
    var bs := BlocksAt(m, order);
    if b in bs {
      var i :| 0 <= i < |bs| && bs[i] == b;
      SurvivorInSuffix(m, c, height, order, i);
    }
    if b in c[PersistedCount(c, height)..] {
      var x := InSuffix(c, PersistedCount(c, height), b);
      KeptSurvives(m, c, height, order, x);
    }
  }

  lemma InSuffix<T>(c: seq<T>, k: nat, b: T) returns (x: nat)
    requires k <= |c| && b in c[k..]
    ensures k <= x < |c| && c[x] == b
  {
    var i :| 0 <= i < |c[k..]| && c[k..][i] == b;
    x := k + i;
  }

  lemma KeptSurvives(m: Memory, c: seq<ExecutedBlock>, height: nat, order: seq<Hash>, x: nat)
    requires HoldsBlocks(m.blocks, c) && Distinct(c) && Survivors(m, height, order)
    requires PersistedCount(c, height) <= x < |c|
    ensures c[x] in BlocksAt(m, order)
  {
    AboveCount(c, height);
    assert LinkedAt(c, x).block == c[x];
    assert c[x].hash in order;
    var i :| 0 <= i < |order| && order[i] == c[x].hash;
    assert BlocksAt(m, order)[i] == c[x];
  }

  lemma AboveCount(c: seq<ExecutedBlock>, height: nat)
    requires Distinct(c)
    ensures forall i :: 0 <= i < |c| ==> (c[i].number > height <==> i >= PersistedCount(c, height))
  {
    var k := PersistedCount(c, height);
    assert forall i :: k < i < |c| ==> c[k].number < c[i].number;
  }

  lemma PersistRefines(m: Memory, c: seq<ExecutedBlock>, p: BlockNumHash, m': Memory)
    requires Represents(m, c) && PersistStep(m, p, m')
    ensures Represents(m', Apply(c, Persist(p)))
    ensures m'.pending.Some? <==> m.pending.Some?
    ensures m.pending.Some? ==> m'.pending.value.block == m.pending.value.block
  {
    InMemoryIff(m, c, p.hash);
    if p.hash in m.blocks {
      var order :| Survivors(m, p.number, order)
                && m' == Relink(InsertAll(Memory(map[], map[], m.pending), BlocksAt(m, order)));
      PutBack(m, c, p.number, order);
    }
  }

  lemma InMemoryIff(m: Memory, c: seq<ExecutedBlock>, h: Hash)
    requires HoldsChain(m, c)
    ensures h in m.blocks <==> InChain(c, h)
  {
    if InChain(c, h) {
      var i :| 0 <= i < |c| && c[i].hash == h;
      StoredAt(m.blocks, c, i);
    }
  }

  lemma PutBack(m: Memory, c: seq<ExecutedBlock>, height: nat, order: seq<Hash>)
    requires HoldsChain(m, c) && GoodChain(c) && Survivors(m, height, order)
    ensures Represents(Relink(InsertAll(Memory(map[], map[], m.pending), BlocksAt(m, order))),
                       c[PersistedCount(c, height)..])
    ensures InsertAll(Memory(map[], map[], m.pending), BlocksAt(m, order)).pending == m.pending
  {
    GoodChainDistinct(c);
    SurvivorsAreSuffix(m, c, height, order);
    GoodSuffix(c, PersistedCount(c, height));
    Rebuilt(m, c[PersistedCount(c, height)..]);
  }

  lemma Rebuilt(m: Memory, kept: seq<ExecutedBlock>)
    requires GoodChain(kept)
    ensures var r := InsertAll(Memory(map[], map[], m.pending), kept); HoldsChain(r, kept) && r.pending == m.pending
  {
    assert [] + kept == kept;
    InsertAllExtends(Memory(map[], map[], m.pending), [], kept);
  }

  lemma UpdateRefines(m: Memory, c: seq<ExecutedBlock>, added: seq<ExecutedBlock>, reorged: seq<BlockNumHash>)
    requires Represents(m, c) && Allowed(c, Reorg(added, reorged))
    ensures Represents(UpdateBlocks(m, added, reorged), Apply(c, Reorg(added, reorged)))
  {
    RemoveAllCuts(m, c, reorged);
    InsertAllExtends(RemoveAll(m, reorged), c[..KeptCount(c, reorged)], added);
  }

  lemma StepRefines(m: Memory, c: seq<ExecutedBlock>, op: Op, m': Memory)
    requires Represents(m, c) && Allowed(c, op) && Step(m, op, m')
    ensures Represents(m', Apply(c, op))
  {
    match op
    case Commit(added) =>
      assert KeptCount(c, []) == |c| && c[..|c|] == c;
      UpdateRefines(m, c, added, []);
    case Reorg(added, reorged) => UpdateRefines(m, c, added, reorged);
    case Persist(p) => PersistRefines(m, c, p, m');
    case SetPending(_) =>
    case Clear =>
  }

  // ----- whole runs -----

  ghost function ApplyAll(ops: seq<Op>): seq<ExecutedBlock> {
    if ops == [] then [] else Apply(ApplyAll(ops[..|ops| - 1]), ops[|ops| - 1])
  }

  /** `ms` are the memories a run of `ops` passes through, each call keeping the callers' promise. */
  ghost predicate IsRun(ms: seq<Memory>, ops: seq<Op>) {
    && |ms| == |ops| + 1
    && ms[0] == EMPTY
    && forall i :: 0 <= i < |ops| ==> Step(ms[i], ops[i], ms[i + 1]) && Allowed(ApplyAll(ops[..i]), ops[i])
  }

  /** Every memory that any run reaches stands for the blocks the same calls give on plain sequences. */
  lemma {:induction false} RunRefines(ms: seq<Memory>, ops: seq<Op>, i: nat)
    requires IsRun(ms, ops) && i <= |ops|
    ensures Represents(ms[i], ApplyAll(ops[..i]))
  {
    if i > 0 {
      RunRefines(ms, ops, i - 1);
      assert ops[..i][..i - 1] == ops[..i - 1];
      StepRefines(ms[i - 1], ApplyAll(ops[..i - 1]), ops[i - 1], ms[i]);
    }
  }

  /** `numbers` and `blocks` agree one to one, and every stored parent is the current entry for its hash. */
  ghost predicate Consistent(m: Memory) {
    && (forall h :: h in m.blocks
         ==> m.blocks[h].block.hash == h && Lookup(m.numbers, m.blocks[h].block.number) == Some(h))
    && (forall n :: n in m.numbers ==> m.numbers[n] in m.blocks && m.blocks[m.numbers[n]].block.number == n)
    && (forall h :: h in m.blocks ==> m.blocks[h].parent == Lookup(m.blocks, m.blocks[h].block.parentHash))
    && PendingLinked(m)
  }

  lemma RepresentsConsistent(m: Memory, c: seq<ExecutedBlock>)
    requires Represents(m, c)
    ensures Consistent(m)
  {
    GoodChainDistinct(c);
    forall h | h in m.blocks
      ensures m.blocks[h].block.hash == h && Lookup(m.numbers, m.blocks[h].block.number) == Some(h)
      ensures m.blocks[h].parent == Lookup(m.blocks, m.blocks[h].block.parentHash)
    {
      var i := BlockAt(m.blocks, c, h);
      if i > 0 {
        StoredAt(m.blocks, c, i - 1);
      } else if c[0].parentHash in m.blocks {
        var k := BlockAt(m.blocks, c, c[0].parentHash);
        assert false;
      }
    }
    forall n | n in m.numbers
      ensures m.numbers[n] in m.blocks && m.blocks[m.numbers[n]].block.number == n
    {
      var i := NumberAt(m.numbers, c, n);
      StoredAt(m.blocks, c, i);
    }
  }

  /** Every run of commit, reorg, persist, set-pending and clear keeps the three structures in step. */
  lemma EveryRunConsistent(ms: seq<Memory>, ops: seq<Op>)
    requires IsRun(ms, ops)
    ensures forall i :: 0 <= i < |ms| ==> Consistent(ms[i])
  {
    forall i | 0 <= i < |ms| ensures Consistent(ms[i]) {
      RunRefines(ms, ops, i);
      RepresentsConsistent(ms[i], ApplyAll(ops[..i]));
    }
  }

  // ----- the pending block along a run -----

  /** A commit, a reorg and a clear forget the pending block. */
  predicate Forgets(op: Op) {
    op.Commit? || op.Reorg? || op.Clear?
  }

  /** Call `k` sets the pending block, and no call up to `i` forgets it. */
  ghost predicate SetAt(ops: seq<Op>, k: nat, i: nat)
    requires i <= |ops|
  {
    k < i && ops[k].SetPending? && forall j :: k < j < i ==> !Forgets(ops[j])
  }

  /** It is also the last one that sets it. */
  ghost predicate LastSetAt(ops: seq<Op>, k: nat, i: nat)
    requires i <= |ops|
  {
    SetAt(ops, k, i) && forall j :: k < j < i ==> !ops[j].SetPending?
  }

  lemma StepPending(m: Memory, op: Op, m': Memory)
    requires Step(m, op, m')
    ensures match op
            case SetPending(b) => m'.pending.Some? && m'.pending.value.block == b
            case Persist(_) => && m'.pending.Some? == m.pending.Some?
                               && (m.pending.Some? ==> m'.pending.value.block == m.pending.value.block)
            case _ => m'.pending.None?
  {
    if op.Persist? && op.persisted.hash in m.blocks {
      var order :| Survivors(m, op.persisted.number, order)
                && m' == Relink(InsertAll(Memory(map[], map[], m.pending), BlocksAt(m, order)));
      InsertKeepsPending(Memory(map[], map[], m.pending), BlocksAt(m, order));
    }
  }

  lemma {:induction false} InsertKeepsPending(m: Memory, added: seq<ExecutedBlock>)
    ensures InsertAll(m, added).pending == m.pending
  {
    if added != [] { InsertKeepsPending(m, added[..|added| - 1]); }
  }

  ghost predicate WasSet(ops: seq<Op>, i: nat)
    requires i <= |ops|
  {
    exists k: nat :: SetAt(ops, k, i)
  }

  lemma WasSetMore(ops: seq<Op>, i: nat)
    requires i < |ops|
    ensures WasSet(ops, i + 1) <==> ops[i].SetPending? || (ops[i].Persist? && WasSet(ops, i))
  {
    if ops[i].SetPending? { assert SetAt(ops, i, i + 1); }
    if ops[i].Persist? && WasSet(ops, i) {
      var k: nat :| SetAt(ops, k, i);
      assert SetAt(ops, k, i + 1);
    }
    if WasSet(ops, i + 1) && !ops[i].SetPending? {
      var k: nat :| SetAt(ops, k, i + 1);
      assert SetAt(ops, k, i);
    }
  }

  lemma LastSetBefore(ops: seq<Op>, k: nat, i: nat)
    requires i < |ops| && LastSetAt(ops, k, i + 1)
    ensures (k == i && ops[i].SetPending?) || (LastSetAt(ops, k, i) && ops[i].Persist?)
  {
  }

  /** There is a pending block exactly when one was set and nothing was committed, reorged or cleared since. It is the
      one that was set last. */
  lemma {:induction false} PendingBlockIs(ms: seq<Memory>, ops: seq<Op>, i: nat)
    requires IsRun(ms, ops) && i <= |ops|
    ensures ms[i].pending.Some? <==> WasSet(ops, i)
    ensures forall k: nat :: LastSetAt(ops, k, i)
              ==> ms[i].pending.Some? && ms[i].pending.value.block == ops[k].block
  {
    if i > 0 {
      PendingBlockIs(ms, ops, i - 1);
      StepPending(ms[i - 1], ops[i - 1], ms[i]);
      WasSetMore(ops, i - 1);
      forall k: nat | LastSetAt(ops, k, i)
        ensures ms[i].pending.Some? && ms[i].pending.value.block == ops[k].block
      {
        LastSetBefore(ops, k, i - 1);
      }
    }
  }

  // ----- lookups -----

  ghost function MaxKey(s: set<nat>): (n: nat)
    requires s != {}
    ensures n in s && forall k :: k in s ==> k <= n
  {
    var x :| x in s;
    if s == {x} then x
    else
      assert s == {x} + (s - {x});
      var y := MaxKey(s - {x});
      if x < y then y else x
  }

  ghost function HeadState(m: Memory): Option<BlockState> {
    if m.numbers.Keys == {} then None else Lookup(m.blocks, m.numbers[MaxKey(m.numbers.Keys)])
  }

  ghost function CanonicalChain(m: Memory): seq<BlockState> {
    var head := HeadState(m);
    if head.None? then [] else Chain(head.value)
  }

  ghost function CanonicalBlocks(m: Memory): seq<ExecutedBlock> {
    var head := HeadState(m);
    if head.None? then [] else ChainBlocks(head.value)
  }

  function StateByNumber(m: Memory, number: nat): Option<BlockState> {
    if number in m.numbers then Lookup(m.blocks, m.numbers[number]) else None
  }

  lemma HeadIsLast(m: Memory, c: seq<ExecutedBlock>)
    requires HoldsChain(m, c) && Distinct(c)
    ensures HeadState(m) == if c == [] then None else Some(LinkedAt(c, |c| - 1))
  {
    assert c != [] ==> c[0].number in m.numbers.Keys;
    if m.numbers.Keys != {} {
      var i := NumberAt(m.numbers, c, MaxKey(m.numbers.Keys));
      assert c[|c| - 1].number in m.numbers.Keys;
    }
  }

  /** The canonical blocks are the represented ones, newest first. */
  lemma CanonicalBlocksAre(m: Memory, c: seq<ExecutedBlock>)
    requires HoldsChain(m, c) && Distinct(c)
    ensures CanonicalBlocks(m) == Reversed(c)
  {
    HeadIsLast(m, c);
    if c != [] {
      LinkedBlocks(c, |c| - 1);
      assert c[..|c| - 1 + 1] == c;
    }
  }

  lemma CanonicalChainIs(m: Memory, c: seq<ExecutedBlock>)
    requires HoldsChain(m, c) && Distinct(c)
    ensures CanonicalChain(m) == if c == [] then [] else Chain(LinkedAt(c, |c| - 1))
  {
    HeadIsLast(m, c);
  }

  lemma CanonicalChainAt(m: Memory, c: seq<ExecutedBlock>, k: nat)
    requires HoldsChain(m, c) && Distinct(c) && k < |c|
    ensures |CanonicalChain(m)| == |c|
    ensures CanonicalChain(m)[k] == LinkedAt(c, |c| - 1 - k)
    ensures CanonicalChain(m)[k].block == c[|c| - 1 - k]
    ensures Lookup(m.blocks, c[|c| - 1 - k].hash) == Some(CanonicalChain(m)[k])
  {
    CanonicalChainIs(m, c);
    ChainListed(CanonicalChain(m), c, k, |c| - 1 - k);
    StoredAt(m.blocks, c, |c| - 1 - k);
  }

  lemma ChainListed(chain: seq<BlockState>, c: seq<ExecutedBlock>, k: nat, j: nat)
    requires c != [] && chain == Chain(LinkedAt(c, |c| - 1)) && k + j == |c| - 1
    ensures |chain| == |c| && chain[k] == LinkedAt(c, j) && chain[k].block == c[j]
  {
    StepsDown(c, |c| - 1, k, j);
    LinkedBlock(c, j);
  }

  /** The canonical chain lists each in-memory block once, as it is stored. */
  lemma CanonicalChainListsMemory(m: Memory, c: seq<ExecutedBlock>)
    requires Represents(m, c)
    ensures var chain := CanonicalChain(m);
            && (forall h :: h in m.blocks <==> exists i :: 0 <= i < |chain| && chain[i].block.hash == h)
            && (forall i :: 0 <= i < |chain| ==> Lookup(m.blocks, chain[i].block.hash) == Some(chain[i]))
            && (forall i, j :: 0 <= i < j < |chain| ==> chain[i] != chain[j])
  {
    var chain := CanonicalChain(m);
    GoodChainDistinct(c);
    HeadIsLast(m, c);
    if c != [] { CanonicalChainAt(m, c, 0); }
    forall k | 0 <= k < |chain|
      ensures chain[k].block == c[|c| - 1 - k] && Lookup(m.blocks, chain[k].block.hash) == Some(chain[k])
    {
      CanonicalChainAt(m, c, k);
    }
    forall h | h in m.blocks ensures exists i :: 0 <= i < |chain| && chain[i].block.hash == h {
      var k := BlockAt(m.blocks, c, h);
      assert chain[|c| - 1 - k].block.hash == h;
    }
  }

  /** Along the canonical chain each block names the next as its parent, one number below. */
  lemma CanonicalChainDescends(m: Memory, c: seq<ExecutedBlock>, i: nat)
    requires Represents(m, c) && i + 1 < |CanonicalChain(m)|
    ensures var chain := CanonicalChain(m);
            && chain[i].block.number == chain[i + 1].block.number + 1
            && chain[i].block.parentHash == chain[i + 1].block.hash
  {
    GoodChainDistinct(c);
    HeadIsLast(m, c);
    CanonicalChainAt(m, c, 0);
    CanonicalChainAt(m, c, i);
    CanonicalChainAt(m, c, i + 1);
  }

  lemma RepresentedBlocks(m: Memory, c: seq<ExecutedBlock>)
    requires Represents(m, c)
    ensures CanonicalBlocks(m) == Reversed(c)
  {
    GoodChainDistinct(c);
    CanonicalBlocksAre(m, c);
  }

  /** After a reorg the canonical chain is the new segment, newest first, on top of the old one cut at the ancestor. */
  lemma ReorgedChain(m: Memory, c: seq<ExecutedBlock>, added: seq<ExecutedBlock>, reorged: seq<BlockNumHash>)
    requires Represents(m, c) && Allowed(c, Reorg(added, reorged))
    ensures var was := CanonicalBlocks(m);
            var cut := |c| - KeptCount(c, reorged);
            && 0 <= cut <= |was|
            && (forall i :: 0 <= i < |was| ==> (NumHash(was[i]) in reorged <==> i < cut))
            && CanonicalBlocks(UpdateBlocks(m, added, reorged)) == Reversed(added) + was[cut..]
  {
    UpdateRefines(m, c, added, reorged);
    RepresentedBlocks(m, c);
    RepresentedBlocks(UpdateBlocks(m, added, reorged), Apply(c, Reorg(added, reorged)));
    CutWhereNamed(c, reorged, added, CanonicalBlocks(m), CanonicalBlocks(UpdateBlocks(m, added, reorged)));
  }

  lemma CutWhereNamed(c: seq<ExecutedBlock>, reorged: seq<BlockNumHash>, added: seq<ExecutedBlock>,
                      was: seq<ExecutedBlock>, now: seq<ExecutedBlock>)
    requires NamesSuffix(c, reorged) && was == Reversed(c) && now == Reversed(c[..KeptCount(c, reorged)] + added)
    ensures var cut := |c| - KeptCount(c, reorged);
            && 0 <= cut <= |was|
            && (forall i :: 0 <= i < |was| ==> (NumHash(was[i]) in reorged <==> i < cut))
            && now == Reversed(added) + was[cut..]
  {
    ReversedCut(c, KeptCount(c, reorged), added);
    SuffixNamed(c, reorged);
  }

  lemma ReversedCut<T>(c: seq<T>, k: nat, added: seq<T>)
    requires k <= |c|
    ensures |Reversed(c)| == |c|
    ensures Reversed(c[..k] + added) == Reversed(added) + Reversed(c)[|c| - k..]
  {
    ReversedConcat(c[..k], added);
    ReversedConcat(c[..k], c[k..]);
    assert c[..k] + c[k..] == c;
    if c != [] { ReversedAt(c, 0); }
    if k > 0 { ReversedAt(c[..k], 0); }
    if k < |c| { ReversedAt(c[k..], 0); }
  }

  lemma SuffixNamed(c: seq<ExecutedBlock>, reorged: seq<BlockNumHash>)
    requires NamesSuffix(c, reorged)
    ensures |Reversed(c)| == |c|
    ensures forall i :: 0 <= i < |c| ==> (NumHash(Reversed(c)[i]) in reorged <==> i < |c| - KeptCount(c, reorged))
  {
    if c != [] { ReversedAt(c, 0); }
    forall i | 0 <= i < |c|
      ensures |Reversed(c)| == |c| && (NumHash(Reversed(c)[i]) in reorged <==> i < |c| - KeptCount(c, reorged))
    {
      ReversedAt(c, i);
    }
  }

  /** Looking a block up by number or hash and walking back from the head give the same answer. */
  lemma LookupsAgree(m: Memory, c: seq<ExecutedBlock>, key: HashOrNumber)
    requires Represents(m, c) && c != []
    ensures HeadState(m).Some?
    ensures BlockOnChain(HeadState(m).value, key)
         == match key case ByHash(h) => Lookup(m.blocks, h) case ByNumber(n) => StateByNumber(m, n)
  {
    GoodChainDistinct(c);
    HeadIsLast(m, c);
    LinkedFind(c, |c| - 1, key);
    match key
    case ByHash(h) => if h in m.blocks { var i := BlockAt(m.blocks, c, h); assert Matches(c[i], key); }
    case ByNumber(n) => if n in m.numbers { var i := NumberAt(m.numbers, c, n); assert Matches(c[i], key); }
  }

  lemma FromSlice(c: seq<ExecutedBlock>, k: nat, h: Hash) returns (x: nat)
    requires k <= |c| && InChain(c[k..], h)
    ensures k <= x < |c| && c[x].hash == h
  {
    var d := c[k..];
    var i :| 0 <= i < |d| && d[i].hash == h;
    x := k + i;
  }

  lemma KeptIsAbove(m: Memory, c: seq<ExecutedBlock>, height: nat, h: Hash)
    requires HoldsBlocks(m.blocks, c) && Distinct(c) && InChain(c[PersistedCount(c, height)..], h)
    ensures h in m.blocks && m.blocks[h].block.number > height
  {
    var x := FromSlice(c, PersistedCount(c, height), h);
    StoredAbove(m, c, height, x);
  }

  lemma AboveIff(m: Memory, c: seq<ExecutedBlock>, height: nat, h: Hash)
    requires HoldsBlocks(m.blocks, c) && Distinct(c)
    ensures InChain(c[PersistedCount(c, height)..], h) <==> h in m.blocks && m.blocks[h].block.number > height
  {
    if InChain(c[PersistedCount(c, height)..], h) {
      KeptIsAbove(m, c, height, h);
    } else if h in m.blocks && m.blocks[h].block.number > height {
      AboveIsKept(m, c, height, h);
    }
  }

  lemma AboveIsKept(m: Memory, c: seq<ExecutedBlock>, height: nat, h: Hash)
    requires HoldsBlocks(m.blocks, c) && Distinct(c) && h in m.blocks && m.blocks[h].block.number > height
    ensures InChain(c[PersistedCount(c, height)..], h)
  {
    var i := BlockAt(m.blocks, c, h);
    LinkedBlock(c, i);
    AboveCount(c, height);
    InSlice(c, PersistedCount(c, height), i);
  }

  lemma InSlice(c: seq<ExecutedBlock>, k: nat, i: nat)
    requires k <= i < |c|
    ensures InChain(c[k..], c[i].hash)
  {
    assert c[k..][i - k] == c[i];
  }

  lemma StoredAbove(m: Memory, c: seq<ExecutedBlock>, height: nat, i: nat)
    requires HoldsBlocks(m.blocks, c) && Distinct(c) && PersistedCount(c, height) <= i < |c|
    ensures c[i].hash in m.blocks && m.blocks[c[i].hash].block.number > height
  {
    StoredAt(m.blocks, c, i);
    LinkedBlock(c, i);
    AboveCount(c, height);
  }

  /** Persisting keeps exactly the blocks above the persisted height. */
  lemma PersistKeeps(m: Memory, c: seq<ExecutedBlock>, p: BlockNumHash, m': Memory, h: Hash)
    requires Represents(m, c) && PersistStep(m, p, m') && p.hash in m.blocks
    ensures h in m'.blocks <==> h in m.blocks && m.blocks[h].block.number > p.number
    ensures h in m'.blocks ==> m'.blocks[h].block == m.blocks[h].block
  {
    var k := PersistedCount(c, p.number);
    PersistRefines(m, c, p, m');
    InMemoryIff(m, c, p.hash);
    InMemoryIff(m', c[k..], h);
    GoodChainDistinct(c);
    AboveIff(m, c, p.number, h);
    if h in m'.blocks { SameBlock(m, m', c, k, h); }
  }

  lemma SameBlock(m: Memory, m': Memory, c: seq<ExecutedBlock>, k: nat, h: Hash)
    requires k <= |c| && HoldsBlocks(m.blocks, c) && HoldsBlocks(m'.blocks, c[k..]) && h in m'.blocks
    ensures h in m.blocks && m'.blocks[h].block == m.blocks[h].block
  {
    var i := BlockAt(m'.blocks, c[k..], h);
    StoredAt(m.blocks, c, k + i);
  }

  // ----- what one call adds and removes -----

  /** The blocks a call adds. */
  function Added(op: Op): seq<ExecutedBlock> {
    match op
    case Commit(added) => added
    case Reorg(added, _) => added
    case _ => []
  }

  ghost predicate Adds(op: Op, h: Hash) {
    InChain(Added(op), h)
  }

  ghost predicate Names(reorged: seq<BlockNumHash>, h: Hash) {
    exists r :: r in reorged && r.hash == h
  }

  /** A reorg removes the blocks it names, a clear removes all, and persisting a block in memory removes everything
      numbered at most as it says. */
  ghost predicate Removes(m: Memory, op: Op, h: Hash)
    requires h in m.blocks
  {
    match op
    case Reorg(_, reorged) => Names(reorged, h)
    case Persist(p) => p.hash in m.blocks && m.blocks[h].block.number <= p.number
    case Clear => true
    case _ => false
  }

  lemma {:induction false} InsertAllKeys(m: Memory, added: seq<ExecutedBlock>, h: Hash)
    ensures h in InsertAll(m, added).blocks <==> h in m.blocks || InChain(added, h)
    ensures h in m.blocks && !InChain(added, h) ==> InsertAll(m, added).blocks[h] == m.blocks[h]
  {
    if added != [] {
      var front, last := added[..|added| - 1], added[|added| - 1];
      InsertAllKeys(m, front, h);
      if i :| 0 <= i < |front| && front[i].hash == h { assert added[i].hash == h; }
      if i :| 0 <= i < |added| && added[i].hash == h && last.hash != h { assert front[i].hash == h; }
    }
  }

  lemma UpdateContents(m: Memory, added: seq<ExecutedBlock>, reorged: seq<BlockNumHash>, h: Hash)
    ensures h in UpdateBlocks(m, added, reorged).blocks <==>
            InChain(added, h) || (h in m.blocks && !Names(reorged, h))
    ensures h in m.blocks && !Names(reorged, h) && !InChain(added, h)
            ==> UpdateBlocks(m, added, reorged).blocks[h] == m.blocks[h]
  {
    RemoveAllIs(m, reorged);
    InsertAllKeys(RemoveAll(m, reorged), added, h);
  }

  /** Which blocks are in memory after a call: those it adds, and those it does not remove, unchanged. */
  lemma StepContents(m: Memory, c: seq<ExecutedBlock>, op: Op, m': Memory, h: Hash)
    requires Represents(m, c) && Allowed(c, op) && Step(m, op, m')
    ensures h in m'.blocks <==> Adds(op, h) || (h in m.blocks && !Removes(m, op, h))
    ensures h in m'.blocks && !Adds(op, h) ==> m'.blocks[h].block == m.blocks[h].block
  {
    match op
    case Commit(added) =>
      UpdateContents(m, added, [], h);
      assert Adds(op, h) <==> InChain(added, h);
    case Reorg(added, reorged) =>
      UpdateContents(m, added, reorged, h);
      assert Adds(op, h) <==> InChain(added, h);
    case Persist(p) => if p.hash in m.blocks { PersistKeeps(m, c, p, m', h); }
    case SetPending(_) =>
    case Clear =>
  }

  /** A block that a call adds is in memory as it was given. */
  lemma AddedIsStored(m: Memory, c: seq<ExecutedBlock>, op: Op, m': Memory, i: nat)
    requires Represents(m, c) && Allowed(c, op) && Step(m, op, m') && i < |Added(op)|
    ensures Added(op)[i].hash in m'.blocks && m'.blocks[Added(op)[i].hash].block == Added(op)[i]
  {
    StepRefines(m, c, op, m');
    var c' := Apply(c, op);
    var k := |c'| - |Added(op)|;
    StoredAt(m'.blocks, c', k + i);
    LinkedBlock(c', k + i);
    assert c'[k + i] == Added(op)[i];
  }

  /** After persisting an in-memory block, every remaining block traces back to exactly that block. */
  lemma PersistAnchors(m: Memory, c: seq<ExecutedBlock>, p: BlockNumHash, m': Memory, h: Hash)
    requires Represents(m, c) && PersistStep(m, p, m')
    requires p.hash in m.blocks && m.blocks[p.hash].block.number == p.number
    requires h in m'.blocks
    ensures Anchor(m'.blocks[h]) == p
  {
    var k := PersistedCount(c, p.number);
    PersistRefines(m, c, p, m');
    InMemoryIff(m, c, p.hash);
    var i := BlockAt(m'.blocks, c[k..], h);
    LinkedAnchor(c[k..], i);
    var at := BlockAt(m.blocks, c, p.hash);
    AnchorIndex(c, p.number, at);
  }

  lemma AnchorIndex(c: seq<ExecutedBlock>, height: nat, at: nat)
    requires GoodChain(c) && at < |c| && c[at].number == height
    ensures PersistedCount(c, height) == at + 1
    ensures at + 1 < |c| ==> c[at + 1].ParentNumHash() == NumHash(c[at])
  {
    GoodChainDistinct(c);
    AboveCount(c, height);
    if at + 1 < |c| { assert c[at].number < c[at + 1].number; }
  }
}
