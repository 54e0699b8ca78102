/** Executed blocks and the chain of in-memory states that each block heads. */
module BlockStates {
  import opened Options

  /** A 32-byte digest, read as a number. */
  type Hash = nat
  type Address = nat
  type Slot = nat
  type Word = nat
  type Code = seq<nat>

  datatype Account = Account(nonce: nat, balance: nat, codeHash: Option<Hash>)
  datatype BlockNumHash = BlockNumHash(number: nat, hash: Hash)

  /** What executing one block did to one account. `info` is absent when the account is gone.
      `destroyed` says the old storage was wiped; `storageKnown` says that slots missing from
      `storage` are known to be zero. */
  datatype AccountDiff = AccountDiff(info: Option<Account>, storageKnown: bool, destroyed: bool,
                                     storage: map<Slot, Word>)

  datatype ExecutionOutcome = ExecutionOutcome(accounts: map<Address, AccountDiff>, contracts: map<Hash, Code>)

  datatype ExecutedBlock = ExecutedBlock(number: nat, hash: Hash, parentHash: Hash, outcome: ExecutionOutcome) {
    /** The number is saturating, so a block numbered 0 names a parent numbered 0. */
    function ParentNumHash(): BlockNumHash {
      BlockNumHash(if number == 0 then 0 else number - 1, parentHash)
    }
  }

  datatype BlockState = BlockState(block: ExecutedBlock, parent: Option<BlockState>)

  /** The state itself and all its in-memory ancestors, newest first. */
  function Chain(s: BlockState): seq<BlockState> {
    [s] + if s.parent.None? then [] else Chain(s.parent.value)
  }

  /** The blocks of `Chain(s)`, which a state provider for `s` reads through. */
  function ChainBlocks(s: BlockState): seq<ExecutedBlock> {
    [s.block] + if s.parent.None? then [] else ChainBlocks(s.parent.value)
  }

  /** The on-disk block a state can be traced back to. */
  function Anchor(s: BlockState): BlockNumHash {
    if s.parent.None? then s.block.ParentNumHash() else Anchor(s.parent.value)
  }

  method ComputeAnchor(s: BlockState) returns (r: BlockNumHash)
    ensures r == Anchor(s)
    ensures r == Chain(s)[|Chain(s)| - 1].block.ParentNumHash()
  {
    var current := s;
    while current.parent.Some?
      invariant Anchor(current) == Anchor(s)
      invariant Chain(current)[|Chain(current)| - 1] == Chain(s)[|Chain(s)| - 1]
      decreases current
    {
      current := current.parent.value;
    }
    r := current.block.ParentNumHash();
  }

  function ChainFrom(s: Option<BlockState>): seq<BlockState> {
    if s.None? then [] else Chain(s.value)
  }

  lemma MoveOne<T>(front: seq<T>, x: T, rest: seq<T>)
    ensures front + ([x] + rest) == (front + [x]) + rest
  {
  }

  method ComputeParentStateChain(s: BlockState) returns (parents: seq<BlockState>)
    ensures [s] + parents == Chain(s)
  {
    parents := [];
    var current := s.parent;
    while current.Some?
      invariant parents + ChainFrom(current) == ChainFrom(s.parent)
      decreases current
    {
      MoveOne(parents, current.value, ChainFrom(current.value.parent));
      parents := parents + [current.value];
      current := current.value.parent;
    }
  }

  datatype HashOrNumber = ByHash(hash: Hash) | ByNumber(number: nat)

  predicate Matches(b: ExecutedBlock, key: HashOrNumber) {
    match key
    case ByHash(h) => b.hash == h
    case ByNumber(n) => b.number == n
  }

  /** First block with the given hash or number on the chain ending at `s`. */
  function BlockOnChain(s: BlockState, key: HashOrNumber): Option<BlockState> {
    if Matches(s.block, key) then Some(s)
    else if s.parent.None? then None
    else BlockOnChain(s.parent.value, key)
  }

  // ----- chains as sequences, oldest block first -----

  ghost predicate Contiguous(c: seq<ExecutedBlock>) {
    && (forall i :: 0 <= i < |c| ==> c[i].number == c[0].number + i)
    && (forall i, j :: 0 <= i && j == i + 1 < |c| ==> c[j].parentHash == c[i].hash)
  }

  /** A hash determines its block, and a child is numbered one above its parent. */
  ghost predicate Coherent(c: seq<ExecutedBlock>) {
    && (forall i, j :: 0 <= i < |c| && 0 <= j < |c| && c[i].hash == c[j].hash ==> c[i] == c[j])
    && (forall i, j :: 0 <= i < |c| && 0 <= j < |c| && c[i].hash == c[j].parentHash ==> c[j].number == c[i].number + 1)
  }

  ghost predicate GoodChain(c: seq<ExecutedBlock>) {
    Contiguous(c) && Coherent(c)
  }

  /** No hash or number repeats, and nothing in the chain is the parent of its oldest block. */
  ghost predicate Distinct(c: seq<ExecutedBlock>) {
    && (forall i, j :: 0 <= i < j < |c| ==> c[i].hash != c[j].hash && c[i].number < c[j].number)
    && (forall i :: 0 <= i < |c| ==> c[i].hash != c[0].parentHash)
  }

  lemma GoodChainDistinct(c: seq<ExecutedBlock>)
    requires GoodChain(c)
    ensures Distinct(c)
  {
  }

  /** The state of block `i`, linked through all earlier blocks of `c`. */
  function LinkedAt(c: seq<ExecutedBlock>, i: nat): BlockState
    requires i < |c|
  {
    BlockState(c[i], if i == 0 then None else Some(LinkedAt(c, i - 1)))
  }

  /** The state of block `i` depends only on the blocks up to it. */
  lemma {:induction false} LinkedAtPrefix(c: seq<ExecutedBlock>, d: seq<ExecutedBlock>, i: nat)
    requires i < |c| <= |d| && c == d[..|c|]
    ensures LinkedAt(c, i) == LinkedAt(d, i)
  {
    if i > 0 { LinkedAtPrefix(c, d, i - 1); }
  }

  function Reversed<T>(s: seq<T>): seq<T> {
    if s == [] then [] else [s[|s| - 1]] + Reversed(s[..|s| - 1])
  }

  lemma {:induction false} ReversedAt<T>(s: seq<T>, i: nat)
    requires i < |s|
    ensures |Reversed(s)| == |s| && Reversed(s)[i] == s[|s| - 1 - i]
  {
    if |s| > 1 { ReversedAt(s[..|s| - 1], if i == 0 then 0 else i - 1); }
  }

  lemma {:induction false} ReversedConcat<T>(s: seq<T>, t: seq<T>)
    ensures Reversed(s + t) == Reversed(t) + Reversed(s)
  {
    if t == [] {
      assert s + t == s;
    } else {
      var front := t[..|t| - 1];
      assert (s + t)[..|s + t| - 1] == s + front;
      ReversedConcat(s, front);
    }
  }

  lemma ChainFirst(s: BlockState)
    ensures |Chain(s)| == 1 + (if s.parent.None? then 0 else |Chain(s.parent.value)|) && Chain(s)[0] == s
  {
  }

  lemma ChainLater(s: BlockState, k: nat)
    requires s.parent.Some? && 0 < k <= |Chain(s.parent.value)|
    ensures |Chain(s)| == 1 + |Chain(s.parent.value)| && Chain(s)[k] == Chain(s.parent.value)[k - 1]
  {
  }

  lemma LinkedParent(c: seq<ExecutedBlock>, i: nat)
    requires i < |c|
    ensures LinkedAt(c, i).parent == if i == 0 then None else Some(LinkedAt(c, i - 1))
  {
  }

  lemma {:induction false} LinkedLength(c: seq<ExecutedBlock>, i: nat)
    requires i < |c|
    ensures |Chain(LinkedAt(c, i))| == i + 1
  {
    LinkedParent(c, i);
    ChainFirst(LinkedAt(c, i));
    if i > 0 { LinkedLength(c, i - 1); }
  }

  /** The state `k` steps down the chain of block `i`, which is that of block `j`. */
  lemma {:induction false} StepsDown(c: seq<ExecutedBlock>, i: nat, k: nat, j: nat)
    requires i < |c| && k + j == i
    ensures |Chain(LinkedAt(c, i))| == i + 1
    ensures Chain(LinkedAt(c, i))[k] == LinkedAt(c, j)
  {
    LinkedLength(c, i);
    if k > 0 {
      StepsDown(c, i - 1, k - 1, j);
      LinkedParent(c, i);
      ChainLater(LinkedAt(c, i), k);
    } else {
      ChainFirst(LinkedAt(c, i));
    }
  }

  lemma LinkedBlock(c: seq<ExecutedBlock>, i: nat)
    requires i < |c|
    ensures LinkedAt(c, i).block == c[i]
  {
  }

  /** A state's blocks are its sequence of blocks, newest first. */
  lemma {:induction false} LinkedBlocks(c: seq<ExecutedBlock>, i: nat)
    requires i < |c|
    ensures ChainBlocks(LinkedAt(c, i)) == Reversed(c[..i + 1])
  {
    assert c[..i + 1][..i] == c[..i];
    if i > 0 { LinkedBlocks(c, i - 1); }
  }

  lemma {:induction false} LinkedAnchor(c: seq<ExecutedBlock>, i: nat)
    requires i < |c|
    ensures Anchor(LinkedAt(c, i)) == c[0].ParentNumHash()
    ensures Anchor(LinkedAt(c, i)).hash == c[0].parentHash
    ensures Anchor(LinkedAt(c, i)).number == if c[0].number == 0 then 0 else c[0].number - 1
  {
    if i > 0 { LinkedAnchor(c, i - 1); }
  }

  lemma {:induction false} LinkedFind(c: seq<ExecutedBlock>, i: nat, key: HashOrNumber)
    requires i < |c|
    ensures var r := BlockOnChain(LinkedAt(c, i), key);
            && (r.None? ==> forall k :: 0 <= k <= i ==> !Matches(c[k], key))
            && (r.Some? ==> exists k :: 0 <= k <= i && Matches(c[k], key) && r.value == LinkedAt(c, k))
  {
    if !Matches(c[i], key) && i > 0 { LinkedFind(c, i - 1, key); }
  }
}
