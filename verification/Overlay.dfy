/** Reads that go through in-memory blocks, newest first, and fall back to the disk; and the disk
    that results from writing blocks out. */
module Overlay {
  import opened Options
  import opened BlockStates
  import opened InMemoryModel

  /** The tables a state provider falls back to. Storage keeps no zero values. */
  datatype Disk = Disk(accounts: map<Address, Account>, storage: map<(Address, Slot), Word>,
                       code: map<Hash, Code>, hashes: map<nat, Hash>)

  ghost predicate ZeroFree(d: Disk) {
    forall k :: k in d.storage ==> d.storage[k] != 0
  }

  // ----- what one executed block knows -----

  function AccountIn(b: ExecutedBlock, a: Address): Option<Option<Account>> {
    if a in b.outcome.accounts then Some(b.outcome.accounts[a].info) else None
  }

  /** The slot's value after the block, or zero when the account's whole storage is known. */
  function StorageIn(b: ExecutedBlock, a: Address, s: Slot): Option<Word> {
    if a !in b.outcome.accounts then None
    else
      var diff := b.outcome.accounts[a];
      if s in diff.storage then Some(diff.storage[s])
      else if diff.storageKnown then Some(0)
      else None
  }

  function CodeIn(b: ExecutedBlock, h: Hash): Option<Code> {
    Lookup(b.outcome.contracts, h)
  }

  function HashIn(b: ExecutedBlock, n: nat): Option<Hash> {
    if b.number == n then Some(b.hash) else None
  }

  // ----- reads through `blocks`, newest first -----

  function FirstMatch<T>(blocks: seq<ExecutedBlock>, f: ExecutedBlock -> Option<T>): Option<T> {
    if blocks == [] then None
    else if f(blocks[0]).Some? then f(blocks[0])
    else FirstMatch(blocks[1..], f)
  }

  function Or<T>(first: Option<T>, second: Option<T>): Option<T> {
    if first.Some? then first else second
  }

  function BasicAccount(blocks: seq<ExecutedBlock>, d: Disk, a: Address): Option<Account> {
    var found := FirstMatch(blocks, b => AccountIn(b, a));
    if found.Some? then found.value else Lookup(d.accounts, a)
  }

  function Storage(blocks: seq<ExecutedBlock>, d: Disk, a: Address, s: Slot): Option<Word> {
    Or(FirstMatch(blocks, b => StorageIn(b, a, s)), Lookup(d.storage, (a, s)))
  }

  function BytecodeByHash(blocks: seq<ExecutedBlock>, d: Disk, h: Hash): Option<Code> {
    Or(FirstMatch(blocks, b => CodeIn(b, h)), Lookup(d.code, h))
  }

  function BlockHash(blocks: seq<ExecutedBlock>, d: Disk, n: nat): Option<Hash> {
    Or(FirstMatch(blocks, b => HashIn(b, n)), Lookup(d.hashes, n))
  }

  lemma {:induction false} FirstMatchAt<T>(blocks: seq<ExecutedBlock>, f: ExecutedBlock -> Option<T>, i: nat)
    requires i <= |blocks| && (forall j :: 0 <= j < i ==> f(blocks[j]).None?) && (i < |blocks| ==> f(blocks[i]).Some?)
    ensures FirstMatch(blocks, f) == if i < |blocks| then f(blocks[i]) else None
  {
    if i > 0 { FirstMatchAt(blocks[1..], f, i - 1); }
  }

  /** Every read takes the answer of the newest block `i` that has one, and that of the disk when none has. An account
      is answered by a block that changed it, code by one that deployed it, a block hash by the block of that number. */
  lemma AccountRead(blocks: seq<ExecutedBlock>, d: Disk, a: Address, i: nat)
    requires i <= |blocks| && (forall j :: 0 <= j < i ==> a !in blocks[j].outcome.accounts)
    requires i < |blocks| ==> a in blocks[i].outcome.accounts
    ensures BasicAccount(blocks, d, a)
         == if i < |blocks| then blocks[i].outcome.accounts[a].info
            else if a in d.accounts then Some(d.accounts[a]) else None
  {
    FirstMatchAt(blocks, b => AccountIn(b, a), i);
  }

  lemma CodeRead(blocks: seq<ExecutedBlock>, d: Disk, h: Hash, i: nat)
    requires i <= |blocks| && (forall j :: 0 <= j < i ==> h !in blocks[j].outcome.contracts)
    requires i < |blocks| ==> h in blocks[i].outcome.contracts
    ensures BytecodeByHash(blocks, d, h)
         == if i < |blocks| then Some(blocks[i].outcome.contracts[h])
            else if h in d.code then Some(d.code[h]) else None
  {
    FirstMatchAt(blocks, b => CodeIn(b, h), i);
  }

  lemma HashRead(blocks: seq<ExecutedBlock>, d: Disk, n: nat, i: nat)
    requires i <= |blocks| && (forall j :: 0 <= j < i ==> blocks[j].number != n)
    requires i < |blocks| ==> blocks[i].number == n
    ensures BlockHash(blocks, d, n)
         == if i < |blocks| then Some(blocks[i].hash) else if n in d.hashes then Some(d.hashes[n]) else None
  {
    FirstMatchAt(blocks, b => HashIn(b, n), i);
  }

  /** The block wrote the slot, or knows the whole storage of its account. */
  ghost predicate KnowsSlot(b: ExecutedBlock, a: Address, s: Slot) {
    var accounts := b.outcome.accounts;
    a in accounts && (s in accounts[a].storage || accounts[a].storageKnown)
  }

  /** A slot is answered by a block that wrote it, or with zero by one that knows the whole storage of its account. */
  lemma StorageRead(blocks: seq<ExecutedBlock>, d: Disk, a: Address, s: Slot, i: nat)
    requires i <= |blocks| && (forall j :: 0 <= j < i ==> !KnowsSlot(blocks[j], a, s))
    requires i < |blocks| ==> KnowsSlot(blocks[i], a, s)
    ensures Storage(blocks, d, a, s)
         == if i < |blocks| then
              (var slots := blocks[i].outcome.accounts[a].storage; Some(if s in slots then slots[s] else 0))
            else if (a, s) in d.storage then Some(d.storage[(a, s)]) else None
  {
    forall j | 0 <= j < i ensures StorageIn(blocks[j], a, s).None? { assert !KnowsSlot(blocks[j], a, s); }
    FirstMatchAt(blocks, b => StorageIn(b, a, s), i);
  }

  // ----- writing blocks to the disk -----

  /** A slot after the block: written values replace the old one, zeros are deleted, a destroyed account is wiped. */
  function SlotAfter(d: Disk, b: ExecutedBlock, a: Address, s: Slot): Option<Word> {
    if a !in b.outcome.accounts then Lookup(d.storage, (a, s))
    else
      var diff := b.outcome.accounts[a];
      if s in diff.storage then (if diff.storage[s] == 0 then None else Some(diff.storage[s]))
      else if diff.destroyed then None
      else Lookup(d.storage, (a, s))
  }

  function AccountAfter(d: Disk, b: ExecutedBlock, a: Address): Option<Account> {
    if a in b.outcome.accounts then b.outcome.accounts[a].info else Lookup(d.accounts, a)
  }

  function WriteBlock(d: Disk, b: ExecutedBlock): Disk {
    var touched := set a, s | a in b.outcome.accounts && s in b.outcome.accounts[a].storage :: (a, s);
    Disk(
      map a | a in d.accounts.Keys + b.outcome.accounts.Keys && AccountAfter(d, b, a).Some?
        :: AccountAfter(d, b, a).value,
      map k | k in d.storage.Keys + touched && SlotAfter(d, b, k.0, k.1).Some? :: SlotAfter(d, b, k.0, k.1).value,
      d.code + b.outcome.contracts,
      d.hashes[b.number := b.hash])
  }

  /** Blocks are written in order, oldest first. */
  function SaveBlocks(d: Disk, blocks: seq<ExecutedBlock>): Disk {
    if blocks == [] then d else WriteBlock(SaveBlocks(d, blocks[..|blocks| - 1]), blocks[|blocks| - 1])
  }

  lemma WriteBlockSlots(d: Disk, b: ExecutedBlock, a: Address, s: Slot)
    ensures Lookup(WriteBlock(d, b).storage, (a, s)) == SlotAfter(d, b, a, s)
  {
  }

  ghost predicate WritesSlot(b: ExecutedBlock, a: Address, s: Slot) {
    a in b.outcome.accounts && s in b.outcome.accounts[a].storage
  }

  ghost predicate Wipes(b: ExecutedBlock, a: Address) {
    a in b.outcome.accounts && b.outcome.accounts[a].destroyed
  }

  /** Writing one block: a slot it wrote is there exactly if the value is not zero; any other slot stays exactly if its
      account was not destroyed. */
  lemma SlotWritten(d: Disk, b: ExecutedBlock, a: Address, s: Slot)
    ensures WritesSlot(b, a, s) ==>
            var v := b.outcome.accounts[a].storage[s];
            Lookup(WriteBlock(d, b).storage, (a, s)) == if v == 0 then None else Some(v)
    ensures !WritesSlot(b, a, s) ==>
            Lookup(WriteBlock(d, b).storage, (a, s)) == if Wipes(b, a) then None else Lookup(d.storage, (a, s))
  {
    WriteBlockSlots(d, b, a, s);
  }

  lemma {:induction false} FirstMatchConcat<T>(x: seq<ExecutedBlock>, y: seq<ExecutedBlock>,
                                               f: ExecutedBlock -> Option<T>)
    ensures FirstMatch(x + y, f) == Or(FirstMatch(x, f), FirstMatch(y, f))
  {
    if x == [] {
      assert x + y == y;
    } else {
      assert (x + y)[1..] == x[1..] + y;
      FirstMatchConcat(x[1..], y, f);
    }
  }

  lemma SaveUnfolds(d: Disk, blocks: seq<ExecutedBlock>)
    requires blocks != []
    ensures var front, b := blocks[..|blocks| - 1], blocks[|blocks| - 1];
            && SaveBlocks(d, blocks) == WriteBlock(SaveBlocks(d, front), b)
            && Reversed(blocks) == [b] + Reversed(front)
            && Reversed(blocks)[1..] == Reversed(front)
  {
  }

  lemma {:induction false} SavedAccount(d: Disk, blocks: seq<ExecutedBlock>, a: Address)
    ensures Lookup(SaveBlocks(d, blocks).accounts, a) == BasicAccount(Reversed(blocks), d, a)
  {
    if blocks != [] {
      SaveUnfolds(d, blocks);
      SavedAccount(d, blocks[..|blocks| - 1], a);
    }
  }

  lemma {:induction false} SavedCode(d: Disk, blocks: seq<ExecutedBlock>, h: Hash)
    ensures Lookup(SaveBlocks(d, blocks).code, h) == BytecodeByHash(Reversed(blocks), d, h)
  {
    if blocks != [] {
      SaveUnfolds(d, blocks);
      SavedCode(d, blocks[..|blocks| - 1], h);
    }
  }

  lemma {:induction false} SavedHash(d: Disk, blocks: seq<ExecutedBlock>, n: nat)
    ensures Lookup(SaveBlocks(d, blocks).hashes, n) == BlockHash(Reversed(blocks), d, n)
  {
    if blocks != [] {
      SaveUnfolds(d, blocks);
      SavedHash(d, blocks[..|blocks| - 1], n);
    }
  }

  // ----- storage: the disk drops zeros, so only values, not optional values, survive -----

  /** What the executor promises of block `b` run on top of `older` (oldest first): a wiped account's storage
      is fully known, and storage is known without a wipe only where there was none before. */
  ghost predicate SoundDiffs(d: Disk, older: seq<ExecutedBlock>, b: ExecutedBlock) {
    forall a | a in b.outcome.accounts ::
      var diff := b.outcome.accounts[a];
      && (diff.destroyed ==> diff.storageKnown)
      && (diff.storageKnown && !diff.destroyed ==> forall s :: Storage(Reversed(older), d, a, s).GetOr(0) == 0)
  }

  ghost predicate SoundExecution(d: Disk, blocks: seq<ExecutedBlock>) {
    blocks != [] ==>
      && SoundExecution(d, blocks[..|blocks| - 1])
      && SoundDiffs(d, blocks[..|blocks| - 1], blocks[|blocks| - 1])
  }

  function DropZero(v: Option<Word>): Option<Word> {
    if v == Some(0) then None else v
  }

  lemma SlotStep(d: Disk, d': Disk, older: seq<ExecutedBlock>, b: ExecutedBlock, a: Address, s: Slot)
    requires SoundDiffs(d, older, b)
    requires Lookup(d'.storage, (a, s)) == DropZero(Storage(Reversed(older), d, a, s))
    ensures SlotAfter(d', b, a, s) == DropZero(Or(StorageIn(b, a, s), Storage(Reversed(older), d, a, s)))
  {
    var was := Storage(Reversed(older), d, a, s);
  }

  lemma {:induction false} SavedStorage(d: Disk, blocks: seq<ExecutedBlock>, a: Address, s: Slot)
    requires ZeroFree(d) && SoundExecution(d, blocks)
    ensures Lookup(SaveBlocks(d, blocks).storage, (a, s)) == DropZero(Storage(Reversed(blocks), d, a, s))
  {
    if blocks != [] {
      var front, b := blocks[..|blocks| - 1], blocks[|blocks| - 1];
      SaveUnfolds(d, blocks);
      SavedStorage(d, front, a, s);
      WriteBlockSlots(SaveBlocks(d, front), b, a, s);
      SlotStep(d, SaveBlocks(d, front), front, b, a, s);
    }
  }

  // ----- persisting is invisible -----

  /** Reading through kept and removed blocks over the old disk, and through the kept blocks over the new one,
      agree on accounts, code and block hashes. */
  lemma PersistedReads(kept: seq<ExecutedBlock>, removed: seq<ExecutedBlock>, d: Disk, a: Address, h: Hash, n: nat)
    ensures var all, d' := kept + Reversed(removed), SaveBlocks(d, removed);
            && BasicAccount(all, d, a) == BasicAccount(kept, d', a)
            && BytecodeByHash(all, d, h) == BytecodeByHash(kept, d', h)
            && BlockHash(all, d, n) == BlockHash(kept, d', n)
  {
    FirstMatchConcat(kept, Reversed(removed), b => AccountIn(b, a));
    FirstMatchConcat(kept, Reversed(removed), b => CodeIn(b, h));
    FirstMatchConcat(kept, Reversed(removed), b => HashIn(b, n));
    SavedAccount(d, removed, a);
    SavedCode(d, removed, h);
    SavedHash(d, removed, n);
  }

  /** Storage reads agree as values. As optional values they agree exactly when the answer does not come from
      a zero in a removed block, which the disk does not keep. */
  lemma PersistedStorage(kept: seq<ExecutedBlock>, removed: seq<ExecutedBlock>, d: Disk, a: Address, s: Slot)
    requires ZeroFree(d) && SoundExecution(d, removed)
    ensures var before := Storage(kept + Reversed(removed), d, a, s);
            var after := Storage(kept, SaveBlocks(d, removed), a, s);
            && before.GetOr(0) == after.GetOr(0)
            && (before == after <==> FirstMatch(kept, b => StorageIn(b, a, s)).Some?
                                     || FirstMatch(Reversed(removed), b => StorageIn(b, a, s)) != Some(0))
  {
    FirstMatchConcat(kept, Reversed(removed), b => StorageIn(b, a, s));
    SavedStorage(d, removed, a, s);
  }

  /** The blocks above `k` stay on the kept chain of block `i`; the rest is what was written out. */
  lemma SplitChain(c: seq<ExecutedBlock>, k: nat, i: nat)
    requires k <= i < |c|
    ensures ChainBlocks(LinkedAt(c, i)) == ChainBlocks(LinkedAt(c[k..], i - k)) + Reversed(c[..k])
  {
    var d, j := c[k..], i - k;
    LinkedBlocks(c, i);
    LinkedBlocks(d, j);
    ReversedSplit(c, k, i + 1, j + 1);
    Joined(ChainBlocks(LinkedAt(c, i)), ChainBlocks(LinkedAt(d, j)), Reversed(c[..i + 1]), Reversed(d[..j + 1]),
           Reversed(c[..k]));
  }

  lemma Joined<T>(a: seq<T>, b: seq<T>, x: seq<T>, y: seq<T>, rest: seq<T>)
    requires a == x && b == y && x == y + rest
    ensures a == b + rest
  {
  }

  lemma ReversedSplit<T>(c: seq<T>, k: nat, n: nat, m: nat)
    requires k + m == n <= |c|
    ensures Reversed(c[..n]) == Reversed(c[k..][..m]) + Reversed(c[..k])
  {
    assert c[..n] == c[..k] + c[k..][..m];
    ReversedConcat(c[..k], c[k..][..m]);
  }

  /** The blocks one persistence call removes, oldest first. */
  ghost function RemovedBlocks(c: seq<ExecutedBlock>, p: BlockNumHash): seq<ExecutedBlock> {
    c[..PersistedCount(c, p.number)]
  }

  lemma PersistSplits(m: Memory, c: seq<ExecutedBlock>, p: BlockNumHash, m': Memory, h: Hash)
    requires Represents(m, c) && PersistStep(m, p, m') && p.hash in m.blocks && h in m'.blocks
    ensures h in m.blocks
    ensures ChainBlocks(m.blocks[h]) == ChainBlocks(m'.blocks[h]) + Reversed(RemovedBlocks(c, p))
  {
    var k := PersistedCount(c, p.number);
    assert HoldsBlocks(m'.blocks, c[k..]) by {
      InMemoryIff(m, c, p.hash);
      PersistRefines(m, c, p, m');
    }
    var i := StoredInBoth(m, m', c, k, h);
    SplitChain(c, k, i);
  }

  lemma StoredInBoth(m: Memory, m': Memory, c: seq<ExecutedBlock>, k: nat, h: Hash) returns (i: nat)
    requires k <= |c| && HoldsBlocks(m.blocks, c) && HoldsBlocks(m'.blocks, c[k..]) && h in m'.blocks
    ensures k <= i < |c| && h in m.blocks
    ensures m.blocks[h] == LinkedAt(c, i) && m'.blocks[h] == LinkedAt(c[k..], i - k)
  {
    var x := BlockAt(m'.blocks, c[k..], h);
    i := k + x;
    StoredAt(m.blocks, c, i);
  }

  /** Account, code and block-hash reads are the same, and storage reads have the same value. */
  ghost predicate SameReads(was: seq<ExecutedBlock>, d: Disk, now: seq<ExecutedBlock>, d': Disk,
                            a: Address, s: Slot, codeHash: Hash, n: nat)
  {
    && BasicAccount(was, d, a) == BasicAccount(now, d', a)
    && BytecodeByHash(was, d, codeHash) == BytecodeByHash(now, d', codeHash)
    && BlockHash(was, d, n) == BlockHash(now, d', n)
    && Storage(was, d, a, s).GetOr(0) == Storage(now, d', a, s).GetOr(0)
  }

  /** Persistence is invisible: every block still in memory answers reads over the disk that took the removed blocks
      as it did over the old disk. */
  lemma PersistInvisible(m: Memory, c: seq<ExecutedBlock>, p: BlockNumHash, m': Memory, d: Disk, h: Hash,
                         a: Address, s: Slot, codeHash: Hash, n: nat)
    requires Represents(m, c) && PersistStep(m, p, m') && p.hash in m.blocks && h in m'.blocks
    requires ZeroFree(d) && SoundExecution(d, RemovedBlocks(c, p))
    ensures h in m.blocks
    ensures SameReads(ChainBlocks(m.blocks[h]), d, ChainBlocks(m'.blocks[h]), SaveBlocks(d, RemovedBlocks(c, p)),
                      a, s, codeHash, n)
  {
    PersistSplits(m, c, p, m', h);
    PersistedReads(ChainBlocks(m'.blocks[h]), RemovedBlocks(c, p), d, a, codeHash, n);
    PersistedStorage(ChainBlocks(m'.blocks[h]), RemovedBlocks(c, p), d, a, s);
  }

  /** The pending block's parent is still in memory, or is the newest of the blocks that were removed. */
  ghost predicate PendingFollows(m': Memory, parentHash: Hash, removed: seq<ExecutedBlock>) {
    parentHash in m'.blocks || removed == [] || parentHash == removed[|removed| - 1].hash
  }

  lemma PendingChain(m: Memory)
    requires PendingLinked(m) && m.pending.Some?
    ensures var b := m.pending.value.block;
            ChainBlocks(m.pending.value)
            == [b] + if b.parentHash in m.blocks then ChainBlocks(m.blocks[b.parentHash]) else []
  {
  }

  /** How far down memory the chain of a block that is not kept reaches. */
  lemma RemovedDepth(m: Memory, c: seq<ExecutedBlock>, p: BlockNumHash, m': Memory, h: Hash)
    requires Represents(m, c) && PersistStep(m, p, m') && p.hash in m.blocks && h in m.blocks && h !in m'.blocks
    ensures var removed := RemovedBlocks(c, p);
            && removed != [] && |Reversed(removed)| == |removed| && |ChainBlocks(m.blocks[h])| <= |removed|
            && (h == removed[|removed| - 1].hash ==> ChainBlocks(m.blocks[h]) == Reversed(removed))
            && (h != removed[|removed| - 1].hash ==> |ChainBlocks(m.blocks[h])| < |removed|)
  {
    var k := PersistedCount(c, p.number);
    var i := BlockAt(m.blocks, c, h);
    PersistKeeps(m, c, p, m', h);
    GoodChainDistinct(c);
    AboveCount(c, p.number);
    LinkedBlock(c, i);
    LinkedBlocks(c, i);
    ReversedAt(c[..i + 1], 0);
    ReversedAt(c[..k], 0);
    if h == c[k - 1].hash { assert i == k - 1; }
  }

  lemma UnknownParent(m: Memory, c: seq<ExecutedBlock>, p: BlockNumHash, h: Hash)
    requires Represents(m, c) && h !in m.blocks
    ensures var removed := RemovedBlocks(c, p); removed != [] ==> h != removed[|removed| - 1].hash
    ensures |Reversed(RemovedBlocks(c, p))| == |RemovedBlocks(c, p)|
  {
    var k := PersistedCount(c, p.number);
    if k > 0 {
      StoredAt(m.blocks, c, k - 1);
      ReversedAt(c[..k], 0);
    }
  }

  /** Persistence takes the removed blocks off the bottom of the pending block's chain, if and only if its parent is
      still in memory, or is the newest removed block, or nothing was removed. */
  lemma PendingSplits(m: Memory, c: seq<ExecutedBlock>, p: BlockNumHash, m': Memory)
    requires Represents(m, c) && PersistStep(m, p, m') && p.hash in m.blocks && m.pending.Some?
    ensures m'.pending.Some? && m'.pending.value.block == m.pending.value.block
    ensures var removed := RemovedBlocks(c, p);
            ChainBlocks(m.pending.value) == ChainBlocks(m'.pending.value) + Reversed(removed)
            <==> PendingFollows(m', m.pending.value.block.parentHash, removed)
  {
    PersistRefines(m, c, p, m');
    PendingChain(m);
    PendingChain(m');
    var b, rest := m.pending.value.block, Reversed(RemovedBlocks(c, p));
    var h := b.parentHash;
    if h in m'.blocks {
      PersistSplits(m, c, p, m', h);
      Associate3(b, ChainBlocks(m'.blocks[h]), rest);
    } else if h in m.blocks {
      RemovedDepth(m, c, p, m', h);
    } else {
      UnknownParent(m, c, p, h);
    }
  }

  lemma Associate3<T>(x: T, a: seq<T>, b: seq<T>)
    ensures [x] + (a + b) == ([x] + a) + b
  {
  }

  /** Then reads through the pending block do not notice persistence either. */
  lemma PendingInvisible(m: Memory, c: seq<ExecutedBlock>, p: BlockNumHash, m': Memory, d: Disk,
                         a: Address, s: Slot, codeHash: Hash, n: nat)
    requires Represents(m, c) && PersistStep(m, p, m') && p.hash in m.blocks && m.pending.Some?
    requires PendingFollows(m', m.pending.value.block.parentHash, RemovedBlocks(c, p))
    requires ZeroFree(d) && SoundExecution(d, RemovedBlocks(c, p))
    ensures m'.pending.Some?
    ensures SameReads(ChainBlocks(m.pending.value), d, ChainBlocks(m'.pending.value),
                      SaveBlocks(d, RemovedBlocks(c, p)),
                      a, s, codeHash, n)
  {
    PendingSplits(m, c, p, m');
    PersistedReads(ChainBlocks(m'.pending.value), RemovedBlocks(c, p), d, a, codeHash, n);
    PersistedStorage(ChainBlocks(m'.pending.value), RemovedBlocks(c, p), d, a, s);
  }

  /** The same for every persistence call of every run from the empty state. */
  lemma EveryPersistInvisible(ms: seq<Memory>, ops: seq<Op>, i: nat, d: Disk, h: Hash,
                              a: Address, s: Slot, codeHash: Hash, n: nat)
    requires IsRun(ms, ops) && i < |ops| && ops[i].Persist?
    requires ops[i].persisted.hash in ms[i].blocks && h in ms[i + 1].blocks
    requires ZeroFree(d) && SoundExecution(d, RemovedBlocks(ApplyAll(ops[..i]), ops[i].persisted))
    ensures h in ms[i].blocks
    ensures SameReads(ChainBlocks(ms[i].blocks[h]), d, ChainBlocks(ms[i + 1].blocks[h]),
                      SaveBlocks(d, RemovedBlocks(ApplyAll(ops[..i]), ops[i].persisted)), a, s, codeHash, n)
  {
    RunRefines(ms, ops, i);
    PersistInvisible(ms[i], ApplyAll(ops[..i]), ops[i].persisted, ms[i + 1], d, h, a, s, codeHash, n);
  }

  /** Optional storage values are not preserved: clearing a slot of a live account is `Some(0)` before persistence and
      `None` after it. */
  lemma ZeroSlotForgotten(a: Address, s: Slot, was: Word, account: Account)
    requires was != 0
    ensures var diff := AccountDiff(Some(account), false, false, map[s := 0]);
            var b := ExecutedBlock(1, 11, 10, ExecutionOutcome(map[a := diff], map[]));
            var d := Disk(map[a := account], map[(a, s) := was], map[], map[]);
            && ZeroFree(d) && SoundExecution(d, [b])
            && Storage([], d, a, s) == Some(was)
            && Storage([b], d, a, s) == Some(0)
            && Storage([], SaveBlocks(d, [b]), a, s) == None
  {
    var diff := AccountDiff(Some(account), false, false, map[s := 0]);
    var b := ExecutedBlock(1, 11, 10, ExecutionOutcome(map[a := diff], map[]));
    var d := Disk(map[a := account], map[(a, s) := was], map[], map[]);
    assert [b][..0] == [];
    assert Reversed([b]) == [b];
    assert SoundDiffs(d, [], b);
    SavedStorage(d, [b], a, s);
  }

  // ----- ranges of block hashes -----

  /** The hashes that exist for numbers in `start..end`, in rising order. */
  function HashesIn(blocks: seq<ExecutedBlock>, d: Disk, start: nat, end: nat): seq<Hash>
    decreases end
  {
    if end <= start then []
    else
      var h := BlockHash(blocks, d, end - 1);
      HashesIn(blocks, d, start, end - 1) + if h.Some? then [h.value] else []
  }

  function DiskHashes(d: Disk, start: nat, end: nat): seq<Hash> {
    HashesIn([], d, start, end)
  }

  /** The overlay's blocks are contiguous, newest first. */
  ghost predicate NewestFirst(blocks: seq<ExecutedBlock>) {
    forall i :: 0 <= i < |blocks| ==> blocks[i].number + i == blocks[0].number
  }

  lemma {:induction false} HashesSplit(blocks: seq<ExecutedBlock>, d: Disk, start: nat, mid: nat, end: nat)
    requires start <= mid <= end
    ensures HashesIn(blocks, d, start, end) == HashesIn(blocks, d, start, mid) + HashesIn(blocks, d, mid, end)
  {
    if mid < end { HashesSplit(blocks, d, start, mid, end - 1); }
  }

  lemma {:induction false} MemoryHash(blocks: seq<ExecutedBlock>, n: nat)
    requires NewestFirst(blocks)
    ensures FirstMatch(blocks, b => HashIn(b, n))
         == if blocks != [] && blocks[0].number - |blocks| < n <= blocks[0].number
            then Some(blocks[blocks[0].number - n].hash) else None
  {
    if blocks != [] && blocks[0].number != n {
      assert |blocks| > 1 ==> blocks[1].number + 1 == blocks[0].number;
      MemoryHash(blocks[1..], n);
    }
  }

  /** Where memory has no block, the overlay's hashes are the disk's. */
  lemma {:induction false} OutsideMemory(blocks: seq<ExecutedBlock>, d: Disk, start: nat, end: nat)
    requires NewestFirst(blocks)
    requires blocks == [] || end <= start || end <= blocks[0].number - |blocks| + 1 || blocks[0].number < start
    ensures HashesIn(blocks, d, start, end) == DiskHashes(d, start, end)
  {
    if start < end {
      OutsideMemory(blocks, d, start, end - 1);
      MemoryHash(blocks, end - 1);
    }
  }

  ghost predicate DiskHas(d: Disk, start: nat, end: nat) {
    exists n :: start <= n < end && n in d.hashes
  }

  lemma {:induction false} DiskHashesEmpty(d: Disk, start: nat, end: nat)
    ensures DiskHashes(d, start, end) == [] <==> !DiskHas(d, start, end)
  {
    if start < end {
      DiskHashesEmpty(d, start, end - 1);
      assert DiskHas(d, start, end) <==> DiskHas(d, start, end - 1) || end - 1 in d.hashes;
    }
  }

  ghost predicate Overlaps(blocks: seq<ExecutedBlock>, start: nat, end: nat) {
    exists i :: 0 <= i < |blocks| && IsIn(blocks[i], start, end)
  }

  function Max(x: int, y: int): int { if x < y then y else x }
  function Min(x: int, y: int): int { if x < y then x else y }

  /** The part of `start..end` covered by the newest `i` in-memory blocks. */
  function CoveredFrom(blocks: seq<ExecutedBlock>, i: nat, start: nat): nat
    requires 0 < i <= |blocks|
  {
    Max(blocks[0].number - i + 1, start)
  }

  function CoveredTo(blocks: seq<ExecutedBlock>, end: nat): nat
    requires blocks != []
  {
    Min(blocks[0].number + 1, end)
  }

  /** The hashes of the covered part. */
  ghost function CoveredHashes(blocks: seq<ExecutedBlock>, d: Disk, start: nat, end: nat, i: nat): seq<Hash>
    requires i <= |blocks|
  {
    if i == 0 then [] else HashesIn(blocks, d, CoveredFrom(blocks, i, start), CoveredTo(blocks, end))
  }

  /** One more block either falls outside the range or extends the covered part downwards by its hash. */
  lemma CoverOne(blocks: seq<ExecutedBlock>, d: Disk, start: nat, end: nat, i: nat, acc: seq<Hash>)
    requires NewestFirst(blocks) && i < |blocks| && Reversed(acc) == CoveredHashes(blocks, d, start, end, i)
    ensures var acc' := if start <= blocks[i].number < end then acc + [blocks[i].hash] else acc;
            Reversed(acc') == CoveredHashes(blocks, d, start, end, i + 1)
  {
    var n := blocks[i].number;
    var top := CoveredTo(blocks, end);
    if start <= n < end {
      ReversedConcat(acc, [blocks[i].hash]);
      assert Reversed([blocks[i].hash]) == [blocks[i].hash];
      FirstHash(blocks, d, i, top);
    }
  }

  lemma FirstHash(blocks: seq<ExecutedBlock>, d: Disk, i: nat, end: nat)
    requires NewestFirst(blocks) && i < |blocks| && blocks[i].number < end
    ensures HashesIn(blocks, d, blocks[i].number, end)
         == [blocks[i].hash] + HashesIn(blocks, d, blocks[i].number + 1, end)
  {
    var n := blocks[i].number;
    MemoryHash(blocks, n);
    HashesSplit(blocks, d, n, n + 1, end);
  }

  lemma LookupRange(blocks: seq<ExecutedBlock>, d: Disk, start: nat, end: nat)
    requires NewestFirst(blocks) && Overlaps(blocks, start, end)
    ensures var from, to := CoveredFrom(blocks, |blocks|, start), CoveredTo(blocks, end);
            && start <= from < to <= end
            && HashesIn(blocks, d, start, end)
              == DiskHashes(d, start, from) + HashesIn(blocks, d, from, to) + DiskHashes(d, to, end)
  {
    var from, to := CoveredFrom(blocks, |blocks|, start), CoveredTo(blocks, end);
    HashesSplit(blocks, d, start, from, end);
    HashesSplit(blocks, d, from, to, end);
    OutsideMemory(blocks, d, start, from);
    OutsideMemory(blocks, d, to, end);
  }

  predicate IsIn(b: ExecutedBlock, start: nat, end: nat) {
    start <= b.number < end
  }

  /** The hashes of the blocks in range, in the order of the scan. */
  function Scanned(blocks: seq<ExecutedBlock>, start: nat, end: nat): seq<Hash> {
    if blocks == [] then []
    else
      var b := blocks[|blocks| - 1];
      Scanned(blocks[..|blocks| - 1], start, end) + if IsIn(b, start, end) then [b.hash] else []
  }

  /** The number of the last block in range that the scan meets. */
  function Earliest(blocks: seq<ExecutedBlock>, start: nat, end: nat): Option<nat> {
    if blocks == [] then None
    else
      var b := blocks[|blocks| - 1];
      if IsIn(b, start, end) then Some(b.number) else Earliest(blocks[..|blocks| - 1], start, end)
  }

  /** The disk's hashes below the earliest block in range, then those in memory. */
  function RangeRead(blocks: seq<ExecutedBlock>, d: Disk, start: nat, end: nat): seq<Hash> {
    DiskHashes(d, start, Earliest(blocks, start, end).GetOr(end)) + Reversed(Scanned(blocks, start, end))
  }

  method CanonicalHashesRange(blocks: seq<ExecutedBlock>, d: Disk, start: nat, end: nat) returns (hashes: seq<Hash>)
    ensures hashes == RangeRead(blocks, d, start, end)
  {
    var earliest: Option<nat> := None;
    var inMemory := [];
    for i := 0 to |blocks|
      invariant inMemory == Scanned(blocks[..i], start, end) && earliest == Earliest(blocks[..i], start, end)
    {
      assert blocks[..i + 1][..i] == blocks[..i];
      if start <= blocks[i].number < end {
        inMemory := inMemory + [blocks[i].hash];
        earliest := Some(blocks[i].number);
      }
    }
    assert blocks[..|blocks|] == blocks;
    hashes := DiskHashes(d, start, earliest.GetOr(end)) + Reversed(inMemory);
  }

  /** The newest `i` blocks in range are the covered part of the range. */
  lemma {:induction false} ScanCovers(blocks: seq<ExecutedBlock>, d: Disk, start: nat, end: nat, i: nat)
    requires NewestFirst(blocks) && i <= |blocks|
    ensures Reversed(Scanned(blocks[..i], start, end)) == CoveredHashes(blocks, d, start, end, i)
  {
    if i > 0 {
      ScanCovers(blocks, d, start, end, i - 1);
      CoverOne(blocks, d, start, end, i - 1, Scanned(blocks[..i - 1], start, end));
      ScannedNext(blocks, start, end, i);
    }
  }

  lemma ScannedNext(blocks: seq<ExecutedBlock>, start: nat, end: nat, i: nat)
    requires 0 < i <= |blocks|
    ensures var acc, b := Scanned(blocks[..i - 1], start, end), blocks[i - 1];
            Scanned(blocks[..i], start, end) == if start <= b.number < end then acc + [b.hash] else acc
  {
    var acc := Scanned(blocks[..i - 1], start, end);
    assert blocks[..i][..i - 1] == blocks[..i - 1];
    assert acc + [] == acc;
  }

  lemma {:induction false} EarliestCovers(blocks: seq<ExecutedBlock>, start: nat, end: nat, i: nat)
    requires NewestFirst(blocks) && i <= |blocks|
    ensures var earliest := Earliest(blocks[..i], start, end);
            && (earliest.Some? <==> Overlaps(blocks[..i], start, end))
            && (earliest.Some? ==> i > 0 && earliest.value == CoveredFrom(blocks, i, start))
  {
    if i > 0 {
      EarliestCovers(blocks, start, end, i - 1);
      assert blocks[..i][..i - 1] == blocks[..i - 1];
      OverlapsMore(blocks, start, end, i);
    }
  }

  lemma OverlapsMore(blocks: seq<ExecutedBlock>, start: nat, end: nat, i: nat)
    requires 0 < i <= |blocks|
    ensures Overlaps(blocks[..i], start, end)
       <==> Overlaps(blocks[..i - 1], start, end) || IsIn(blocks[i - 1], start, end)
  {
    if Overlaps(blocks[..i - 1], start, end) {
      var k :| 0 <= k < i - 1 && IsIn(blocks[..i - 1][k], start, end);
      assert IsIn(blocks[..i][k], start, end);
    }
    if IsIn(blocks[i - 1], start, end) { assert IsIn(blocks[..i][i - 1], start, end); }
    if Overlaps(blocks[..i], start, end) && !IsIn(blocks[i - 1], start, end) {
      var k :| 0 <= k < i && IsIn(blocks[..i][k], start, end);
      assert IsIn(blocks[..i - 1][k], start, end);
    }
  }

  /** The range read is the block-by-block read of every number, unless some in-memory block is in range and the
      disk also knows numbers above the newest in-memory block that are in range. */
  lemma RangeReadIs(blocks: seq<ExecutedBlock>, d: Disk, start: nat, end: nat)
    requires NewestFirst(blocks)
    ensures RangeRead(blocks, d, start, end) == HashesIn(blocks, d, start, end)
       <==> !(Overlaps(blocks, start, end) && DiskHas(d, blocks[0].number + 1, end))
  {
    assert blocks[..|blocks|] == blocks;
    ScanCovers(blocks, d, start, end, |blocks|);
    EarliestCovers(blocks, start, end, |blocks|);
    if Overlaps(blocks, start, end) {
      LookupRange(blocks, d, start, end);
      DiskHashesEmpty(d, CoveredTo(blocks, end), end);
    } else {
      NoOverlap(blocks, d, start, end);
    }
  }

  /** A block on disk right above the only block in memory is left out of the range of the two. */
  lemma DiskAboveMissed(b: ExecutedBlock, above: Hash)
    ensures var d := Disk(map[], map[], map[], map[b.number + 1 := above]);
            && RangeRead([b], d, b.number, b.number + 2) != HashesIn([b], d, b.number, b.number + 2)
            && BlockHash([b], d, b.number + 1) == Some(above)
  {
    var d := Disk(map[], map[], map[], map[b.number + 1 := above]);
    assert IsIn([b][0], b.number, b.number + 2);
    assert b.number + 1 in d.hashes;
    MemoryHash([b], b.number + 1);
    RangeReadIs([b], d, b.number, b.number + 2);
  }

  lemma CoveredOverlaps(blocks: seq<ExecutedBlock>, start: nat, end: nat)
    requires NewestFirst(blocks) && blocks != []
    requires CoveredFrom(blocks, |blocks|, start) < CoveredTo(blocks, end)
    ensures Overlaps(blocks, start, end)
  {
    var i := blocks[0].number - CoveredFrom(blocks, |blocks|, start);
    assert IsIn(blocks[i], start, end);
  }

  lemma NoOverlap(blocks: seq<ExecutedBlock>, d: Disk, start: nat, end: nat)
    requires NewestFirst(blocks) && !Overlaps(blocks, start, end)
    ensures HashesIn(blocks, d, start, end) == DiskHashes(d, start, end)
    ensures blocks != [] ==> HashesIn(blocks, d, CoveredFrom(blocks, |blocks|, start), CoveredTo(blocks, end)) == []
  {
    if blocks != [] {
      var from, to := CoveredFrom(blocks, |blocks|, start), CoveredTo(blocks, end);
      if from < to {
        CoveredOverlaps(blocks, start, end);
        assert false;
      }
    }
    OutsideMemory(blocks, d, start, end);
  }

  /** Every state provider of a represented memory reads through a contiguous overlay. */
  lemma ProviderNewestFirst(m: Memory, c: seq<ExecutedBlock>, h: Hash)
    requires Represents(m, c) && h in m.blocks
    ensures NewestFirst(ChainBlocks(m.blocks[h]))
  {
    var i := BlockAt(m.blocks, c, h);
    LinkedBlocks(c, i);
    var blocks := Reversed(c[..i + 1]);
    ReversedAt(c[..i + 1], 0);
    forall k | 0 <= k < |blocks| ensures blocks[k].number + k == blocks[0].number {
      ReversedAt(c[..i + 1], k);
    }
  }
}
