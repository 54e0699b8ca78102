/** Runs of the in-memory state together with its disk: every effective persistence call moves blocks to the disk,
    and what a reader sees through a block does not change for as long as that block stays in memory. */
module DiskRuns {
  import opened BlockStates
  import opened InMemoryModel
  import opened Overlay

  // ----- the disk along a run -----

  /** No block is in memory both before and after the call, so the chain goes on from a block on disk. */
  ghost predicate LeavesMemory(c: seq<ExecutedBlock>, op: Op) {
    c == [] || op.Clear? || (op.Reorg? && KeptCount(c, op.reorged) == 0)
  }

  /** What one call does to the disk. A persistence call that takes effect moves blocks there. When the call leaves
      memory, blocks may have been unwound from the disk or written to it. */
  ghost predicate DiskStep(d: Disk, c: seq<ExecutedBlock>, op: Op, d': Disk) {
    if op.Persist? && InChain(c, op.persisted.hash) then d' == SaveBlocks(d, RemovedBlocks(c, op.persisted))
    else if LeavesMemory(c, op) then ZeroFree(d')
    else d' == d
  }

  /** `ds` are the disks that go with the calls `ops`. */
  ghost predicate AreDisks(ds: seq<Disk>, ops: seq<Op>) {
    && |ds| == |ops| + 1 && ZeroFree(ds[0])
    && forall i :: 0 <= i < |ops| ==> DiskStep(ds[i], ApplyAll(ops[..i]), ops[i], ds[i + 1])
  }

  /** What the executor promises: whenever blocks are added, the in-memory chain is executed on top of the disk of that
      moment. */
  ghost predicate Executed(ds: seq<Disk>, ops: seq<Op>)
    requires |ds| == |ops| + 1
  {
    forall i :: 0 <= i < |ops| && (ops[i].Commit? || ops[i].Reorg?)
        ==> SoundExecution(ds[i + 1], ApplyAll(ops[..i + 1]))
  }

  // ----- what writing blocks keeps -----

  lemma WrittenZeroFree(d: Disk, b: ExecutedBlock)
    requires ZeroFree(d)
    ensures ZeroFree(WriteBlock(d, b))
  {
    forall k | k in WriteBlock(d, b).storage ensures WriteBlock(d, b).storage[k] != 0 {
      WriteBlockSlots(d, b, k.0, k.1);
      assert k == (k.0, k.1);
    }
  }

  lemma {:induction false} SavedZeroFree(d: Disk, blocks: seq<ExecutedBlock>)
    requires ZeroFree(d)
    ensures ZeroFree(SaveBlocks(d, blocks))
  {
    if blocks != [] {
      SavedZeroFree(d, blocks[..|blocks| - 1]);
      WrittenZeroFree(SaveBlocks(d, blocks[..|blocks| - 1]), blocks[|blocks| - 1]);
    }
  }

  lemma {:induction false} SoundPrefix(d: Disk, a: seq<ExecutedBlock>, b: seq<ExecutedBlock>)
    requires SoundExecution(d, a + b)
    ensures SoundExecution(d, a)
  {
    if b == [] {
      assert a + b == a;
    } else {
      assert (a + b)[..|a + b| - 1] == a + b[..|b| - 1];
      SoundPrefix(d, a, b[..|b| - 1]);
    }
  }

  lemma SoundDiffsShift(d: Disk, a: seq<ExecutedBlock>, older: seq<ExecutedBlock>, b: ExecutedBlock)
    requires ZeroFree(d) && SoundExecution(d, a) && SoundDiffs(d, a + older, b)
    ensures SoundDiffs(SaveBlocks(d, a), older, b)
  {
    ReversedConcat(a, older);
    forall x, s | x in b.outcome.accounts
      ensures Storage(Reversed(older), SaveBlocks(d, a), x, s).GetOr(0)
           == Storage(Reversed(a + older), d, x, s).GetOr(0)
    {
      PersistedStorage(Reversed(older), a, d, x, s);
    }
  }

  /** Blocks executed on top of others are executed on top of the disk that took those others. */
  lemma {:induction false} SoundSuffix(d: Disk, a: seq<ExecutedBlock>, b: seq<ExecutedBlock>)
    requires ZeroFree(d) && SoundExecution(d, a + b)
    ensures SoundExecution(SaveBlocks(d, a), b)
  {
    if b != [] {
      var front := b[..|b| - 1];
      assert (a + b)[..|a + b| - 1] == a + front;
      SoundPrefix(d, a, b);
      SoundSuffix(d, a, front);
      SoundDiffsShift(d, a, front, b[|b| - 1]);
    }
  }

  lemma StepSound(d: Disk, c: seq<ExecutedBlock>, op: Op, d': Disk)
    requires ZeroFree(d) && SoundExecution(d, c) && DiskStep(d, c, op, d')
    requires op.Commit? || op.Reorg? ==> SoundExecution(d', Apply(c, op))
    ensures ZeroFree(d') && SoundExecution(d', Apply(c, op))
  {
    if op.Persist? && InChain(c, op.persisted.hash) {
      var removed, kept := RemovedBlocks(c, op.persisted), c[PersistedCount(c, op.persisted.number)..];
      assert removed + kept == c;
      SavedZeroFree(d, removed);
      SoundSuffix(d, removed, kept);
    }
  }

  /** Along every run the disk keeps no zeros and the blocks in memory are executed on top of it. */
  lemma {:induction false} RunSound(ds: seq<Disk>, ops: seq<Op>, i: nat)
    requires AreDisks(ds, ops) && Executed(ds, ops) && i <= |ops|
    ensures ZeroFree(ds[i]) && SoundExecution(ds[i], ApplyAll(ops[..i]))
  {
    if i > 0 {
      RunSound(ds, ops, i - 1);
      assert ops[..i][..i - 1] == ops[..i - 1];
      StepSound(ds[i - 1], ApplyAll(ops[..i - 1]), ops[i - 1], ds[i]);
    }
  }

  // ----- reads along a run -----

  /** Block `h` is in memory before and after call `i`, and that call did not replace it. */
  ghost predicate Stays(ms: seq<Memory>, ops: seq<Op>, i: nat, h: Hash)
    requires i < |ops| && |ms| == |ops| + 1
  {
    h in ms[i].blocks && h in ms[i + 1].blocks && (ops[i].Reorg? ==> forall b :: b in ops[i].reorged ==> b.hash != h)
  }

  /** A block in the shared part of two chains has the same state in both. */
  lemma SharedState(m: Memory, c: seq<ExecutedBlock>, m': Memory, c': seq<ExecutedBlock>, k: nat, h: Hash)
    requires HoldsBlocks(m.blocks, c) && HoldsBlocks(m'.blocks, c') && h in m.blocks
    requires k <= |c| && k <= |c'| && c[..k] == c'[..k]
    requires forall i :: k <= i < |c| ==> c[i].hash != h
    ensures h in m'.blocks && m'.blocks[h] == m.blocks[h]
  {
    var i := BlockAt(m.blocks, c, h);
    assert c[..k][i] == c'[..k][i];
    StoredAt(m'.blocks, c', i);
    LinkedAtPrefix(c[..k], c, i);
    LinkedAtPrefix(c'[..k], c', i);
  }

  /** A commit or a reorg does not touch the chain of a block it keeps. */
  lemma UpdateKeepsState(m: Memory, c: seq<ExecutedBlock>, added: seq<ExecutedBlock>, reorged: seq<BlockNumHash>,
                         m': Memory, h: Hash)
    requires HoldsBlocks(m.blocks, c) && HoldsBlocks(m'.blocks, c[..KeptCount(c, reorged)] + added)
    requires NamesSuffix(c, reorged) && h in m.blocks && forall b :: b in reorged ==> b.hash != h
    ensures h in m'.blocks && m'.blocks[h] == m.blocks[h]
  {
    var k := KeptCount(c, reorged);
    forall i | k <= i < |c| ensures c[i].hash != h { assert NumHash(c[i]) in reorged; }
    SharedState(m, c, m', c[..k] + added, k, h);
  }

  lemma CommitKeepsState(m: Memory, c: seq<ExecutedBlock>, added: seq<ExecutedBlock>, m': Memory, h: Hash)
    requires HoldsBlocks(m.blocks, c) && HoldsBlocks(m'.blocks, c + added) && h in m.blocks
    ensures h in m'.blocks && m'.blocks[h] == m.blocks[h]
  {
    SharedState(m, c, m', c + added, |c|, h);
  }

  /** Only an effective persistence call rebuilds the chain of a block that stays. */
  lemma KeepsState(m: Memory, c: seq<ExecutedBlock>, op: Op, m': Memory, h: Hash)
    requires Represents(m, c) && Allowed(c, op) && Step(m, op, m') && !(op.Persist? && op.persisted.hash in m.blocks)
    requires h in m.blocks && h in m'.blocks && (op.Reorg? ==> forall b :: b in op.reorged ==> b.hash != h)
    ensures m'.blocks[h] == m.blocks[h]
  {
    if op.Commit? || op.Reorg? {
      StepRefines(m, c, op, m');
      if op.Commit? {
        CommitKeepsState(m, c, op.commit, m', h);
      } else {
        UpdateKeepsState(m, c, op.replacement, op.reorged, m', h);
      }
    }
  }

  lemma RemovedSound(d: Disk, c: seq<ExecutedBlock>, p: BlockNumHash)
    requires SoundExecution(d, c)
    ensures SoundExecution(d, RemovedBlocks(c, p))
  {
    var removed, kept := RemovedBlocks(c, p), c[PersistedCount(c, p.number)..];
    assert removed + kept == c;
    SoundPrefix(d, removed, kept);
  }

  lemma PersistReads(m: Memory, c: seq<ExecutedBlock>, p: BlockNumHash, m': Memory, d: Disk, h: Hash,
                     a: Address, s: Slot, codeHash: Hash, n: nat)
    requires Represents(m, c) && PersistStep(m, p, m') && ZeroFree(d) && SoundExecution(d, c)
    requires p.hash in m.blocks && h in m.blocks && h in m'.blocks
    ensures SameReads(ChainBlocks(m.blocks[h]), d, ChainBlocks(m'.blocks[h]), SaveBlocks(d, RemovedBlocks(c, p)),
                      a, s, codeHash, n)
  {
    RemovedSound(d, c, p);
    PersistInvisible(m, c, p, m', d, h, a, s, codeHash, n);
  }

  /** A call that leaves memory keeps no block. */
  lemma NothingStays(m: Memory, c: seq<ExecutedBlock>, op: Op, h: Hash)
    requires HoldsBlocks(m.blocks, c) && Allowed(c, op) && op.Reorg? && KeptCount(c, op.reorged) == 0 && h in m.blocks
    ensures exists b :: b in op.reorged && b.hash == h
  {
    var i := BlockAt(m.blocks, c, h);
    assert NumHash(c[i]) in op.reorged && NumHash(c[i]).hash == h;
  }

  lemma SameDisk(m: Memory, c: seq<ExecutedBlock>, op: Op, m': Memory, d: Disk, d': Disk, h: Hash)
    requires Represents(m, c) && Allowed(c, op) && Step(m, op, m') && DiskStep(d, c, op, d')
    requires !(op.Persist? && op.persisted.hash in m.blocks)
    requires h in m.blocks && h in m'.blocks && (op.Reorg? ==> forall b :: b in op.reorged ==> b.hash != h)
    ensures d' == d
  {
    var at := BlockAt(m.blocks, c, h);
    assert at < |c|;
    if op.Persist? { InMemoryIff(m, c, op.persisted.hash); }
    if op.Reorg? && KeptCount(c, op.reorged) == 0 { NothingStays(m, c, op, h); }
  }

  /** One call. */
  lemma StepReads(m: Memory, c: seq<ExecutedBlock>, op: Op, m': Memory, d: Disk, d': Disk, h: Hash,
                  a: Address, s: Slot, codeHash: Hash, n: nat)
    requires Represents(m, c) && Allowed(c, op) && Step(m, op, m') && ZeroFree(d) && SoundExecution(d, c)
    requires DiskStep(d, c, op, d')
    requires h in m.blocks && h in m'.blocks && (op.Reorg? ==> forall b :: b in op.reorged ==> b.hash != h)
    ensures SameReads(ChainBlocks(m.blocks[h]), d, ChainBlocks(m'.blocks[h]), d', a, s, codeHash, n)
  {
    if op.Persist? && op.persisted.hash in m.blocks {
      InMemoryIff(m, c, op.persisted.hash);
      PersistReads(m, c, op.persisted, m', d, h, a, s, codeHash, n);
    } else {
      SameDisk(m, c, op, m', d, d', h);
      KeepsState(m, c, op, m', h);
    }
  }

  /** What a reader sees through a block over the disk of the moment. */
  ghost predicate SameView(ms: seq<Memory>, ds: seq<Disk>, i: nat, j: nat, h: Hash,
                           a: Address, s: Slot, codeHash: Hash, n: nat)
    requires i < |ms| == |ds| && j < |ms| && h in ms[i].blocks && h in ms[j].blocks
  {
    SameReads(ChainBlocks(ms[i].blocks[h]), ds[i], ChainBlocks(ms[j].blocks[h]), ds[j], a, s, codeHash, n)
  }

  lemma RunStep(ms: seq<Memory>, ds: seq<Disk>, ops: seq<Op>, i: nat)
    requires IsRun(ms, ops) && AreDisks(ds, ops) && i < |ops|
    ensures Step(ms[i], ops[i], ms[i + 1]) && Allowed(ApplyAll(ops[..i]), ops[i])
    ensures DiskStep(ds[i], ApplyAll(ops[..i]), ops[i], ds[i + 1])
  {
  }

  lemma CallReads(ms: seq<Memory>, ds: seq<Disk>, ops: seq<Op>, i: nat, h: Hash,
                  a: Address, s: Slot, codeHash: Hash, n: nat)
    requires IsRun(ms, ops) && AreDisks(ds, ops) && Executed(ds, ops) && i < |ops| && Stays(ms, ops, i, h)
    ensures SameView(ms, ds, i, i + 1, h, a, s, codeHash, n)
  {
    RunRefines(ms, ops, i);
    RunSound(ds, ops, i);
    RunStep(ms, ds, ops, i);
    StepReads(ms[i], ApplyAll(ops[..i]), ops[i], ms[i + 1], ds[i], ds[i + 1], h, a, s, codeHash, n);
  }

  /** Call `k` leaves what is read through `h` as it was. */
  ghost predicate KeepsView(ms: seq<Memory>, ds: seq<Disk>, k: nat, h: Hash,
                            a: Address, s: Slot, codeHash: Hash, n: nat)
    requires k + 1 < |ms| == |ds|
  {
    h in ms[k].blocks && h in ms[k + 1].blocks && SameView(ms, ds, k, k + 1, h, a, s, codeHash, n)
  }

  lemma {:induction false} ViewsChain(ms: seq<Memory>, ds: seq<Disk>, i: nat, j: nat, h: Hash,
                                      a: Address, s: Slot, codeHash: Hash, n: nat)
    requires i <= j < |ms| == |ds| && h in ms[i].blocks
    requires forall k :: i <= k < j ==> KeepsView(ms, ds, k, h, a, s, codeHash, n)
    ensures h in ms[j].blocks && SameView(ms, ds, i, j, h, a, s, codeHash, n)
    decreases j - i
  {
    if i < j {
      ViewsChain(ms, ds, i, j - 1, h, a, s, codeHash, n);
      assert KeepsView(ms, ds, j - 1, h, a, s, codeHash, n);
    }
  }

  /** In every run, for as long as a block stays in memory, every read through it over the disk of the moment gives
      the same answer, whatever is committed, reorged away or persisted in between. */
  lemma ReadsStay(ms: seq<Memory>, ds: seq<Disk>, ops: seq<Op>, i: nat, j: nat, h: Hash,
                  a: Address, s: Slot, codeHash: Hash, n: nat)
    requires IsRun(ms, ops) && AreDisks(ds, ops) && Executed(ds, ops) && i <= j <= |ops| && h in ms[i].blocks
    requires forall k :: i <= k < j ==> Stays(ms, ops, k, h)
    ensures h in ms[j].blocks && SameView(ms, ds, i, j, h, a, s, codeHash, n)
  {
    forall k | i <= k < j ensures KeepsView(ms, ds, k, h, a, s, codeHash, n) {
      assert Stays(ms, ops, k, h);
      CallReads(ms, ds, ops, k, h, a, s, codeHash, n);
    }
    ViewsChain(ms, ds, i, j, h, a, s, codeHash, n);
  }

  // ----- writing before removing -----

  /** The disk may take the blocks before they leave memory: until then, reads through the whole chain do not notice. */
  lemma WrittenEarly(kept: seq<ExecutedBlock>, written: seq<ExecutedBlock>, d: Disk, a: Address, s: Slot,
                     codeHash: Hash, n: nat)
    requires ZeroFree(d) && SoundExecution(d, written)
    ensures var all := kept + Reversed(written); SameReads(all, d, all, SaveBlocks(d, written), a, s, codeHash, n)
  {
    var rest := Reversed(written);
    FirstMatchConcat(kept, rest, b => AccountIn(b, a));
    FirstMatchConcat(kept, rest, b => CodeIn(b, codeHash));
    FirstMatchConcat(kept, rest, b => HashIn(b, n));
    FirstMatchConcat(kept, rest, b => StorageIn(b, a, s));
    SavedAccount(d, written, a);
    SavedCode(d, written, codeHash);
    SavedHash(d, written, n);
    SavedStorage(d, written, a, s);
  }
}
