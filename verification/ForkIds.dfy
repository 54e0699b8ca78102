/** The fork schedule and the fork identifier of EIP-2124 and EIP-6122. */
module ForkIds {
  import opened Options

  /** When a fork activates; `TTD` is the merge, with its block when that is known. */
  datatype Condition = Block(number: nat) | TTD(difficulty: nat, forkBlock: Option<nat>) | Timestamp(time: nat) | Never

  datatype Head = Head(number: nat, timestamp: nat, totalDifficulty: nat)

  /** A fork hash is the genesis hash with fork values folded in, in order; here the list of folded values. */
  datatype ForkId = ForkId(hash: seq<nat>, next: nat)

  function BlockKey(c: Condition): Option<nat> {
    match c
    case Block(n) => Some(n)
    case TTD(_, b) => b
    case _ => None
  }

  /** Timestamp forks after genesis only. */
  function TimeKey(c: Condition, genesis: nat): Option<nat> {
    if c.Timestamp? && c.time > genesis then Some(c.time) else None
  }

  function Listed(k: Option<nat>): seq<nat> {
    if k.Some? then [k.value] else []
  }

  function Blocks(forks: seq<Condition>): seq<nat> {
    if forks == [] then [] else Blocks(forks[..|forks| - 1]) + Listed(BlockKey(forks[|forks| - 1]))
  }

  function Times(forks: seq<Condition>, genesis: nat): seq<nat> {
    if forks == [] then [] else Times(forks[..|forks| - 1], genesis) + Listed(TimeKey(forks[|forks| - 1], genesis))
  }

  // ----- the two loops -----

  /** Values folded so far, the last one seen, and the value to return early with. */
  datatype Progress = Progress(hash: seq<nat>, applied: nat, next: Option<nat>)

  function Apply(key: nat, at: nat, p: Progress): Progress {
    if p.next.Some? then p
    else if key > at then p.(next := Some(key))
    else if key != p.applied then Progress(p.hash + [key], key, None)
    else p
  }

  function Walk(keys: seq<nat>, at: nat, p: Progress): Progress {
    if keys == [] then p else Apply(keys[|keys| - 1], at, Walk(keys[..|keys| - 1], at, p))
  }

  const START := Progress([], 0, None)

  function ForkIdOf(forks: seq<Condition>, genesis: nat, head: Head): ForkId {
    var b := Walk(Blocks(forks), head.number, START);
    if b.next.Some? then ForkId(b.hash, b.next.value)
    else
      var t := Walk(Times(forks, genesis), head.timestamp, b);
      ForkId(t.hash, t.next.GetOr(0))
  }

  lemma WalkPrefix(keys: seq<nat>, more: seq<nat>, at: nat, p: Progress)
    requires |more| <= 1
    ensures Walk(keys + more, at, p) == if more == [] then Walk(keys, at, p) else Apply(more[0], at, Walk(keys, at, p))
  {
    if more == [] { assert keys + more == keys; } else { assert (keys + more)[..|keys|] == keys; }
  }

  lemma {:induction false} WalkStops(keys: seq<nat>, more: seq<nat>, at: nat, p: Progress)
    requires Walk(keys, at, p).next.Some?
    ensures Walk(keys + more, at, p) == Walk(keys, at, p)
  {
    if more == [] {
      assert keys + more == keys;
    } else {
      assert (keys + more)[..|keys + more| - 1] == keys + more[..|more| - 1];
      WalkStops(keys, more[..|more| - 1], at, p);
    }
  }

  lemma {:induction false} BlocksConcat(a: seq<Condition>, b: seq<Condition>)
    ensures Blocks(a + b) == Blocks(a) + Blocks(b)
  {
    if b == [] {
      assert a + b == a;
    } else {
      assert (a + b)[..|a + b| - 1] == a + b[..|b| - 1];
      BlocksConcat(a, b[..|b| - 1]);
    }
  }

  lemma {:induction false} TimesConcat(a: seq<Condition>, b: seq<Condition>, genesis: nat)
    ensures Times(a + b, genesis) == Times(a, genesis) + Times(b, genesis)
  {
    if b == [] {
      assert a + b == a;
    } else {
      assert (a + b)[..|a + b| - 1] == a + b[..|b| - 1];
      TimesConcat(a, b[..|b| - 1], genesis);
    }
  }

  function ApplyOne(key: Option<nat>, at: nat, p: Progress): Progress {
    if key.Some? then Apply(key.value, at, p) else p
  }

  /** The first loop's state after `i` forks. */
  ghost function BlocksAt(forks: seq<Condition>, i: nat, at: nat): Progress
    requires i <= |forks|
  {
    Walk(Blocks(forks[..i]), at, START)
  }

  lemma BlocksStep(forks: seq<Condition>, i: nat, at: nat)
    requires i < |forks|
    ensures BlocksAt(forks, i + 1, at) == ApplyOne(BlockKey(forks[i]), at, BlocksAt(forks, i, at))
  {
    assert forks[..i + 1][..i] == forks[..i];
    WalkPrefix(Blocks(forks[..i]), Listed(BlockKey(forks[i])), at, START);
  }

  lemma BlocksEnd(forks: seq<Condition>, at: nat)
    ensures BlocksAt(forks, |forks|, at) == Walk(Blocks(forks), at, START)
  {
    assert forks[..|forks|] == forks;
  }

  lemma StopsInBlocks(a: seq<Condition>, b: seq<Condition>, at: nat)
    requires Walk(Blocks(a), at, START).next.Some?
    ensures Walk(Blocks(a + b), at, START) == Walk(Blocks(a), at, START)
  {
    BlocksConcat(a, b);
    WalkStops(Blocks(a), Blocks(b), at, START);
  }

  lemma BlocksStop(forks: seq<Condition>, i: nat, at: nat)
    requires i <= |forks| && BlocksAt(forks, i, at).next.Some?
    ensures Walk(Blocks(forks), at, START) == BlocksAt(forks, i, at)
  {
    StopsInBlocks(forks[..i], forks[i..], at);
    assert forks[..i] + forks[i..] == forks;
  }

  /** The second loop's state after `i` forks. */
  ghost function TimesAt(forks: seq<Condition>, genesis: nat, i: nat, at: nat, p: Progress): Progress
    requires i <= |forks|
  {
    Walk(Times(forks[..i], genesis), at, p)
  }

  lemma TimesStep(forks: seq<Condition>, genesis: nat, i: nat, at: nat, p: Progress)
    requires i < |forks|
    ensures TimesAt(forks, genesis, i + 1, at, p)
         == ApplyOne(TimeKey(forks[i], genesis), at, TimesAt(forks, genesis, i, at, p))
  {
    assert forks[..i + 1][..i] == forks[..i];
    WalkPrefix(Times(forks[..i], genesis), Listed(TimeKey(forks[i], genesis)), at, p);
  }

  lemma TimesEnd(forks: seq<Condition>, genesis: nat, at: nat, p: Progress)
    ensures TimesAt(forks, genesis, |forks|, at, p) == Walk(Times(forks, genesis), at, p)
  {
    assert forks[..|forks|] == forks;
  }

  lemma StopsInTimes(a: seq<Condition>, b: seq<Condition>, genesis: nat, at: nat, p: Progress)
    requires Walk(Times(a, genesis), at, p).next.Some?
    ensures Walk(Times(a + b, genesis), at, p) == Walk(Times(a, genesis), at, p)
  {
    TimesConcat(a, b, genesis);
    WalkStops(Times(a, genesis), Times(b, genesis), at, p);
  }

  lemma TimesStop(forks: seq<Condition>, genesis: nat, i: nat, at: nat, p: Progress)
    requires i <= |forks| && TimesAt(forks, genesis, i, at, p).next.Some?
    ensures Walk(Times(forks, genesis), at, p) == TimesAt(forks, genesis, i, at, p)
  {
    StopsInTimes(forks[..i], forks[i..], genesis, at, p);
    assert forks[..i] + forks[i..] == forks;
  }

  method ComputeForkId(forks: seq<Condition>, genesis: nat, head: Head) returns (id: ForkId)
    ensures id == ForkIdOf(forks, genesis, head)
  {
    var hash, applied := [], 0;
    for i := 0 to |forks|
      invariant BlocksAt(forks, i, head.number) == Progress(hash, applied, None)
    {
      BlocksStep(forks, i, head.number);
      var key := BlockKey(forks[i]);
      if key.Some? {
        if head.number >= key.value {
          if key.value != applied { hash, applied := hash + [key.value], key.value; }
        } else {
          BlocksStop(forks, i + 1, head.number);
          return ForkId(hash, key.value);
        }
      }
    }
    BlocksEnd(forks, head.number);
    ghost var p := Walk(Blocks(forks), head.number, START);
    for i := 0 to |forks|
      invariant TimesAt(forks, genesis, i, head.timestamp, p) == Progress(hash, applied, None)
    {
      TimesStep(forks, genesis, i, head.timestamp, p);
      var key := TimeKey(forks[i], genesis);
      if key.Some? {
        if head.timestamp >= key.value {
          if key.value != applied { hash, applied := hash + [key.value], key.value; }
        } else {
          TimesStop(forks, genesis, i + 1, head.timestamp, p);
          return ForkId(hash, key.value);
        }
      }
    }
    TimesEnd(forks, genesis, head.timestamp, p);
    id := ForkId(hash, 0);
  }

  // ----- the specification -----

  ghost predicate Sorted(keys: seq<nat>) {
    forall i, j :: 0 <= i < j < |keys| ==> keys[i] <= keys[j]
  }

  /** Block forks in order, and timestamp forks in order. */
  ghost predicate SortedSchedule(forks: seq<Condition>, genesis: nat) {
    Sorted(Blocks(forks)) && Sorted(Times(forks, genesis))
  }

  ghost function Keys(keys: seq<nat>): set<nat> {
    set k | k in keys
  }

  /** The keys above `floor` up to `at`, each once, ascending. */
  ghost function Passed(keys: set<nat>, floor: nat, at: nat): seq<nat> {
    if at <= floor then [] else Passed(keys, floor, at - 1) + if at in keys then [at] else []
  }

  /** The least key above `at`. */
  ghost function LeastAbove(keys: seq<nat>, at: nat): Option<nat> {
    if keys == [] then None
    else
      var rest, k := LeastAbove(keys[..|keys| - 1], at), keys[|keys| - 1];
      if k > at && (rest.None? || k < rest.value) then Some(k) else rest
  }

  /** The blocks at which forks activate: those of block forks, and of the merge where it is known. */
  ghost function ForkBlocks(forks: seq<Condition>): set<nat> {
    (set c | c in forks && c.Block? :: c.number)
    + (set c | c in forks && c.TTD? && c.forkBlock.Some? :: c.forkBlock.value)
  }

  /** The times at which forks activate, after genesis. */
  ghost function ForkTimes(forks: seq<Condition>, genesis: nat): set<nat> {
    set c | c in forks && c.Timestamp? && c.time > genesis :: c.time
  }

  lemma SnocHas<T>(front: seq<T>, x: T)
    ensures forall y :: y in front + [x] <==> y in front || y == x
  {
  }

  lemma {:induction false} BlocksAre(forks: seq<Condition>)
    ensures Keys(Blocks(forks)) == ForkBlocks(forks)
  {
    if forks != [] {
      var front, c := forks[..|forks| - 1], forks[|forks| - 1];
      assert forks == front + [c];
      BlocksAre(front);
      SnocHas(front, c);
      assert ForkBlocks(forks) == ForkBlocks(front) + Keys(Listed(BlockKey(c)));
    }
  }

  lemma {:induction false} TimesAre(forks: seq<Condition>, genesis: nat)
    ensures Keys(Times(forks, genesis)) == ForkTimes(forks, genesis)
  {
    if forks != [] {
      var front, c := forks[..|forks| - 1], forks[|forks| - 1];
      assert forks == front + [c];
      TimesAre(front, genesis);
      SnocHas(front, c);
      assert ForkTimes(forks, genesis) == ForkTimes(front, genesis) + Keys(Listed(TimeKey(c, genesis)));
    }
  }

  /** EIP-6122: fold the distinct nonzero fork blocks passed, then the distinct fork timestamps passed after genesis;
      announce the least fork not passed, blocks first. */
  ghost function Eip6122(forks: seq<Condition>, genesis: nat, head: Head): ForkId {
    var nextBlock := LeastAbove(Blocks(forks), head.number);
    var nextTime := LeastAbove(Times(forks, genesis), head.timestamp);
    ForkId(Passed(ForkBlocks(forks), 0, head.number) + Passed(ForkTimes(forks, genesis), genesis, head.timestamp),
           if nextBlock.Some? then nextBlock.value else nextTime.GetOr(0))
  }

  // ----- what a walk does -----

  ghost predicate StrictlyUp(xs: seq<nat>) {
    forall i, j :: 0 <= i < j < |xs| ==> xs[i] < xs[j]
  }

  ghost predicate Elements(xs: seq<nat>, keys: set<nat>, floor: nat, at: nat) {
    forall x :: x in xs <==> x in keys && floor < x <= at
  }

  lemma HasElement(xs: seq<nat>)
    requires xs != []
    ensures exists x :: x in xs
  {
    assert xs[0] in xs;
  }

  lemma UpSnoc(xs: seq<nat>, k: nat)
    requires StrictlyUp(xs) && forall x :: x in xs ==> x < k
    ensures StrictlyUp(xs + [k])
  {
    forall i | 0 <= i < |xs| ensures xs[i] < k { assert xs[i] in xs; }
  }

  lemma LastElement(xs: seq<nat>, keys: set<nat>, floor: nat, at: nat)
    requires StrictlyUp(xs) && Elements(xs, keys, floor, at) && floor < at && at in keys
    ensures xs != [] && xs == xs[..|xs| - 1] + [at]
    ensures StrictlyUp(xs[..|xs| - 1]) && Elements(xs[..|xs| - 1], keys, floor, at - 1)
  {
    var i :| 0 <= i < |xs| && xs[i] == at;
    var front, last := xs[..|xs| - 1], xs[|xs| - 1];
    assert last in xs;
    assert xs == front + [last];
    forall x ensures x in front <==> x in keys && floor < x <= at - 1 {
      assert x in xs <==> x in front || x == last;
    }
  }

  lemma ElementsBelow(xs: seq<nat>, keys: set<nat>, floor: nat, at: nat)
    requires Elements(xs, keys, floor, at) && floor < at && at !in keys
    ensures Elements(xs, keys, floor, at - 1)
  {
  }

  /** A strictly ascending list is determined by its elements. */
  lemma {:induction false} PassedUnique(xs: seq<nat>, keys: set<nat>, floor: nat, at: nat)
    requires StrictlyUp(xs) && Elements(xs, keys, floor, at)
    ensures xs == Passed(keys, floor, at)
    decreases at
  {
    if at <= floor {
      if xs != [] { HasElement(xs); }
    } else if at in keys {
      LastElement(xs, keys, floor, at);
      PassedUnique(xs[..|xs| - 1], keys, floor, at - 1);
    } else {
      ElementsBelow(xs, keys, floor, at);
      PassedUnique(xs, keys, floor, at - 1);
    }
  }

  lemma {:induction false} PassedElements(keys: set<nat>, floor: nat, at: nat)
    ensures Elements(Passed(keys, floor, at), keys, floor, at)
    decreases at
  {
    if at > floor { PassedElements(keys, floor, at - 1); }
  }

  ghost predicate AllPassed(keys: seq<nat>, at: nat) {
    forall k :: k in keys ==> k <= at
  }

  ghost predicate Least(keys: seq<nat>, at: nat, next: nat) {
    next in keys && next > at && forall k :: k in keys && k > at ==> next <= k
  }

  lemma {:induction false} LeastAboveIs(keys: seq<nat>, at: nat)
    ensures match LeastAbove(keys, at) case None => AllPassed(keys, at) case Some(next) => Least(keys, at, next)
  {
    if keys != [] {
      var front, k := keys[..|keys| - 1], keys[|keys| - 1];
      LeastAboveIs(front, at);
      assert keys == front + [k];
    }
  }

  /** The value the walk never folds: the one applied before it, when it comes first. */
  ghost function Skipped(keys: seq<nat>, applied: nat): set<nat> {
    if keys != [] && keys[0] == applied then {applied} else {}
  }

  /** Which keys a walk over sorted keys folds. */
  ghost predicate Folded(keys: seq<nat>, at: nat, applied: nat, xs: seq<nat>) {
    StrictlyUp(xs) && forall x :: x in xs <==> x in keys && x <= at && x !in Skipped(keys, applied)
  }

  ghost function LastOr(keys: seq<nat>, default: nat): nat {
    if keys == [] then default else keys[|keys| - 1]
  }

  /** The state after walking sorted keys, all passed or up to the first one not passed. */
  ghost predicate Walked(keys: seq<nat>, at: nat, p: Progress, xs: seq<nat>) {
    var q := Walk(keys, at, p);
    && q.hash == p.hash + xs && q.next == LeastAbove(keys, at)
    && (q.next.None? ==> q.applied == LastOr(keys, p.applied))
    && Folded(keys, at, p.applied, xs)
  }

  lemma InLast(keys: seq<nat>)
    requires keys != [] && Sorted(keys)
    ensures forall k :: k in keys ==> keys[0] <= k <= keys[|keys| - 1]
  {
  }

  /** A passed key above all others is folded. */
  lemma FoldsNew(front: seq<nat>, k: nat, at: nat, applied: nat, xs: seq<nat>)
    requires Sorted(front) && Folded(front, at, applied, xs) && k <= at && k != LastOr(front, applied)
    requires front != [] ==> k > front[|front| - 1]
    ensures Folded(front + [k], at, applied, xs + [k])
  {
    var keys := front + [k];
    if front != [] { InLast(front); }
    forall x ensures x in xs + [k] <==> x in keys && x <= at && x !in Skipped(keys, applied) {
      assert x in xs + [k] <==> x in xs || x == k;
      assert x in keys <==> x in front || x == k;
    }
    UpSnoc(xs, k);
  }

  /** A key seen before, or not passed, is not. */
  lemma FoldsOld(front: seq<nat>, k: nat, at: nat, applied: nat, xs: seq<nat>)
    requires Folded(front, at, applied, xs) && (k > at || k == LastOr(front, applied))
    ensures Folded(front + [k], at, applied, xs)
  {
    var keys := front + [k];
    forall x ensures x in xs <==> x in keys && x <= at && x !in Skipped(keys, applied) {
      assert x in keys <==> x in front || x == k;
    }
  }

  lemma WalkSnoc(front: seq<nat>, k: nat, at: nat, p: Progress)
    ensures Walk(front + [k], at, p) == Apply(k, at, Walk(front, at, p))
    ensures LeastAbove(front + [k], at)
         == var rest := LeastAbove(front, at); if k > at && (rest.None? || k < rest.value) then Some(k) else rest
  {
    assert (front + [k])[..|front|] == front;
  }

  lemma SortedSnoc(front: seq<nat>, k: nat)
    requires Sorted(front + [k])
    ensures Sorted(front) && forall x :: x in front ==> x <= k
  {
    var keys := front + [k];
    forall i, j | 0 <= i < j < |front| ensures front[i] <= front[j] { assert keys[i] <= keys[j]; }
    forall i | 0 <= i < |front| ensures front[i] <= k { assert keys[i] <= keys[|front|]; }
  }

  /** One more key, not below the others. */
  lemma WalkMore(front: seq<nat>, k: nat, at: nat, p: Progress, xs: seq<nat>) returns (ys: seq<nat>)
    requires Sorted(front + [k]) && p.next.None? && Walked(front, at, p, xs)
    ensures Walked(front + [k], at, p, ys)
  {
    SortedSnoc(front, k);
    WalkSnoc(front, k, at, p);
    LeastAboveIs(front, at);
    if front != [] { assert front[|front| - 1] in front; }
    var q := Walk(front, at, p);
    if q.next.Some? || k > at || k == q.applied {
      FoldsOld(front, k, at, p.applied, xs);
      ys := xs;
    } else {
      FoldsNew(front, k, at, p.applied, xs);
      ys := xs + [k];
      assert p.hash + ys == q.hash + [k];
    }
  }

  lemma {:induction false} WalkIs(keys: seq<nat>, at: nat, p: Progress) returns (xs: seq<nat>)
    requires Sorted(keys) && p.next.None?
    ensures Walked(keys, at, p, xs)
  {
    if keys == [] {
      xs := [];
    } else {
      var front, k := keys[..|keys| - 1], keys[|keys| - 1];
      assert keys == front + [k];
      SortedSnoc(front, k);
      xs := WalkIs(front, at, p);
      xs := WalkMore(front, k, at, p, xs);
    }
  }

  lemma {:induction false} TimesAfter(forks: seq<Condition>, genesis: nat)
    ensures forall t :: t in Times(forks, genesis) ==> t > genesis
  {
    if forks != [] { TimesAfter(forks[..|forks| - 1], genesis); }
  }

  /** The last block fork and the first timestamp fork have the same value. */
  ghost predicate Collides(forks: seq<Condition>, genesis: nat) {
    var bs, ts := Blocks(forks), Times(forks, genesis);
    bs != [] && ts != [] && ts[0] == bs[|bs| - 1]
  }

  ghost function Colliding(forks: seq<Condition>, genesis: nat): set<nat> {
    if Collides(forks, genesis) then {Times(forks, genesis)[0]} else {}
  }

  lemma BlocksWalk(forks: seq<Condition>, at: nat)
    requires Sorted(Blocks(forks))
    ensures var bs, q := Blocks(forks), Walk(Blocks(forks), at, START);
            && q.hash == Passed(Keys(bs), 0, at) && q.next == LeastAbove(bs, at)
            && (q.next.None? ==> q.applied == if bs == [] then 0 else bs[|bs| - 1])
  {
    var bs := Blocks(forks);
    var xs := WalkIs(bs, at, START);
    assert START.hash + xs == xs;
    if bs != [] { InLast(bs); }
    PassedUnique(xs, Keys(bs), 0, at);
  }

  lemma TimesWalk(forks: seq<Condition>, genesis: nat, at: nat, p: Progress)
    requires Sorted(Times(forks, genesis)) && p.next.None?
    ensures var ts, q := Times(forks, genesis), Walk(Times(forks, genesis), at, p);
            q.hash == p.hash + Passed(Keys(ts) - Skipped(ts, p.applied), genesis, at) && q.next == LeastAbove(ts, at)
  {
    var ts := Times(forks, genesis);
    var xs := WalkIs(ts, at, p);
    TimesAfter(forks, genesis);
    PassedUnique(xs, Keys(ts) - Skipped(ts, p.applied), genesis, at);
  }

  /** What the two loops compute on a sorted schedule. */
  lemma ForkIdIs(forks: seq<Condition>, genesis: nat, head: Head)
    requires SortedSchedule(forks, genesis)
    ensures var bs, ts := Blocks(forks), Times(forks, genesis);
            ForkIdOf(forks, genesis, head) ==
            if LeastAbove(bs, head.number).Some? then
              ForkId(Passed(Keys(bs), 0, head.number), LeastAbove(bs, head.number).value)
            else
              ForkId(Passed(Keys(bs), 0, head.number)
                     + Passed(Keys(ts) - Colliding(forks, genesis), genesis, head.timestamp),
                     LeastAbove(ts, head.timestamp).GetOr(0))
  {
    BlocksWalk(forks, head.number);
    var b := Walk(Blocks(forks), head.number, START);
    if b.next.None? {
      TimesWalk(forks, genesis, head.timestamp, b);
      var ts := Times(forks, genesis);
      TimesAfter(forks, genesis);
      if ts != [] { assert ts[0] in ts; }
      assert Skipped(Times(forks, genesis), b.applied) == Colliding(forks, genesis);
    }
  }
}
