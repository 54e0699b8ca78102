/** What the fork identifier means: agreement with EIP-6122, how it changes as the chain grows, and the heads built to
    satisfy a fork. */
module ForkIdLaws {
  import opened Options
  import opened Bytes
  import opened ForkIds

  // ----- agreement with EIP-6122 -----

  /** No timestamp fork after genesis is reached. */
  ghost predicate NoTimeReached(forks: seq<Condition>, genesis: nat, at: nat) {
    forall t :: t in Times(forks, genesis) ==> t > at
  }

  lemma PassedNone(keys: set<nat>, floor: nat, at: nat)
    ensures Passed(keys, floor, at) == [] <==> forall k :: k in keys ==> !(floor < k <= at)
  {
    PassedElements(keys, floor, at);
    if Passed(keys, floor, at) != [] { assert Passed(keys, floor, at)[0] in Passed(keys, floor, at); }
  }

  lemma PassedDiffers(a: set<nat>, b: set<nat>, floor: nat, at: nat, k: nat)
    requires k in a && k !in b && floor < k <= at
    ensures Passed(a, floor, at) != Passed(b, floor, at)
  {
    PassedElements(a, floor, at);
    PassedElements(b, floor, at);
    assert k in Passed(a, floor, at) && k !in Passed(b, floor, at);
  }

  lemma FirstReached(forks: seq<Condition>, genesis: nat, at: nat)
    requires SortedSchedule(forks, genesis) && !NoTimeReached(forks, genesis, at)
    ensures var ts := Times(forks, genesis); ts != [] && ts[0] in ts && genesis < ts[0] <= at
  {
    TimesAfter(forks, genesis);
    var ts := Times(forks, genesis);
    InLast(ts);
    assert ts[0] in ts;
  }

  /** The fork id is the one of EIP-6122 exactly when no timestamp fork is reached, or all block forks are passed
      and the first timestamp fork does not happen to equal the last fork block. */
  lemma FollowsEip6122(forks: seq<Condition>, genesis: nat, head: Head)
    requires SortedSchedule(forks, genesis)
    ensures ForkIdOf(forks, genesis, head) == Eip6122(forks, genesis, head) <==>
            NoTimeReached(forks, genesis, head.timestamp)
                || (AllPassed(Blocks(forks), head.number) && !Collides(forks, genesis))
  {
    var bs, ts := Blocks(forks), Times(forks, genesis);
    var passed, times := Passed(Keys(bs), 0, head.number), Passed(Keys(ts), genesis, head.timestamp);
    var folded := Passed(Keys(ts) - Colliding(forks, genesis), genesis, head.timestamp);
    BlocksAre(forks);
    TimesAre(forks, genesis);
    ForkIdIs(forks, genesis, head);
    LeastAboveIs(bs, head.number);
    PassedNone(Keys(ts), genesis, head.timestamp);
    PassedNone(Keys(ts) - Colliding(forks, genesis), genesis, head.timestamp);
    SamePrefix(passed, times, []);
    assert passed + [] == passed;
    SamePrefix(passed, times, folded);
    if NoTimeReached(forks, genesis, head.timestamp) {
      assert times == [] && folded == [];
    } else {
      FirstReached(forks, genesis, head.timestamp);
      assert ts[0] in Keys(ts);
      if Collides(forks, genesis) {
        PassedDiffers(Keys(ts), Keys(ts) - Colliding(forks, genesis), genesis, head.timestamp, ts[0]);
      } else {
        assert Keys(ts) - Colliding(forks, genesis) == Keys(ts);
      }
    }
  }

  lemma OneBlock(n: nat, genesis: nat)
    ensures Blocks([Block(n)]) == [n] && Times([Block(n)], genesis) == []
  {
    assert [Block(n)][..0] == [];
  }

  lemma OneTimestamp(t: nat, genesis: nat)
    requires t > genesis
    ensures Blocks([Timestamp(t)]) == [] && Times([Timestamp(t)], genesis) == [t]
  {
    assert [Timestamp(t)][..0] == [];
  }

  /** A timestamp fork equal to the last fork block is passed and still not folded. */
  lemma CollisionForgotten(n: nat)
    requires n > 0
    ensures var forks, head := [Block(n)] + [Timestamp(n)], Head(n, n, 0);
            ForkIdOf(forks, 0, head) != Eip6122(forks, 0, head)
  {
    var forks := [Block(n)] + [Timestamp(n)];
    BlocksConcat([Block(n)], [Timestamp(n)]);
    TimesConcat([Block(n)], [Timestamp(n)], 0);
    OneBlock(n, 0);
    OneTimestamp(n, 0);
    assert n in Times(forks, 0);
    FollowsEip6122(forks, 0, Head(n, n, 0));
  }

  /** A timestamp fork reached before the last fork block is not folded yet. */
  lemma EarlyTimestampWaits(n: nat, t: nat)
    requires n > 0 && t > 0
    ensures var forks, head := [Block(n)] + [Timestamp(t)], Head(n - 1, t, 0);
            ForkIdOf(forks, 0, head) != Eip6122(forks, 0, head)
  {
    var forks := [Block(n)] + [Timestamp(t)];
    BlocksConcat([Block(n)], [Timestamp(t)]);
    TimesConcat([Block(n)], [Timestamp(t)], 0);
    OneBlock(n, 0);
    OneTimestamp(t, 0);
    assert n in Blocks(forks) && t in Times(forks, 0);
    FollowsEip6122(forks, 0, Head(n - 1, t, 0));
  }

  // ----- how it changes -----

  lemma {:induction false} PassedSame(keys: set<nat>, floor: nat, at: nat, at': nat)
    requires at <= at' && forall k :: k in keys && floor < k <= at' ==> k <= at
    ensures Passed(keys, floor, at') == Passed(keys, floor, at)
    decreases at' - at
  {
    if at < at' { PassedSame(keys, floor, at, at' - 1); }
  }

  lemma PassedNext(keys: set<nat>, floor: nat, at: nat, next: nat)
    requires at < next && floor < next && next in keys && forall k :: k in keys && k > at ==> next <= k
    ensures Passed(keys, floor, next) == Passed(keys, floor, at) + [next]
  {
    PassedSame(keys, floor, at, next - 1);
  }

  lemma PassedGrows(keys: set<nat>, floor: nat, at: nat, at': nat, k: nat)
    requires k in keys && floor < k && at < k <= at'
    ensures k in Passed(keys, floor, at') && k !in Passed(keys, floor, at)
  {
    PassedElements(keys, floor, at);
    PassedElements(keys, floor, at');
  }

  /** While fork blocks remain, the fork id changes exactly when the chain reaches the announced block. */
  lemma BlockForkAhead(forks: seq<Condition>, genesis: nat, head: Head, head': Head)
    requires SortedSchedule(forks, genesis) && !AllPassed(Blocks(forks), head.number) && head.number <= head'.number
    ensures var id := ForkIdOf(forks, genesis, head); ForkIdOf(forks, genesis, head') == id <==> head'.number < id.next
  {
    var bs, id, id' := Blocks(forks), ForkIdOf(forks, genesis, head), ForkIdOf(forks, genesis, head');
    ForkIdIs(forks, genesis, head);
    ForkIdIs(forks, genesis, head');
    LeastAboveIs(bs, head.number);
    LeastAboveIs(bs, head'.number);
    if head'.number < id.next {
      PassedSame(Keys(bs), 0, head.number, head'.number);
      assert !AllPassed(bs, head'.number);
    } else {
      PassedGrows(Keys(bs), 0, head.number, head'.number, id.next);
      assert id.next in id'.hash;
    }
  }

  /** No timestamp fork that gets folded is reached. */
  ghost predicate NoFoldedTimeReached(forks: seq<Condition>, genesis: nat, at: nat) {
    forall t :: t in Times(forks, genesis) && t !in Colliding(forks, genesis) ==> t > at
  }

  lemma NothingFolded(forks: seq<Condition>, genesis: nat, at: nat)
    ensures Passed(Keys(Times(forks, genesis)) - Colliding(forks, genesis), genesis, at) == []
       <==> NoFoldedTimeReached(forks, genesis, at)
  {
    TimesAfter(forks, genesis);
    PassedNone(Keys(Times(forks, genesis)) - Colliding(forks, genesis), genesis, at);
  }

  lemma NextBlockPassed(forks: seq<Condition>, number: nat, next: nat)
    requires LeastAbove(Blocks(forks), number) == Some(next)
    ensures Passed(Keys(Blocks(forks)), 0, next) == Passed(Keys(Blocks(forks)), 0, number) + [next]
  {
    LeastAboveIs(Blocks(forks), number);
    PassedNext(Keys(Blocks(forks)), 0, number, next);
  }

  /** At the announced block the hash grows by exactly that block, if and only if more fork blocks remain or no
      timestamp fork was waiting behind it. */
  lemma AtBlockFork(forks: seq<Condition>, genesis: nat, head: Head, head': Head)
    requires SortedSchedule(forks, genesis) && !AllPassed(Blocks(forks), head.number)
    requires head'.number == ForkIdOf(forks, genesis, head).next
    ensures ForkIdOf(forks, genesis, head').hash == ForkIdOf(forks, genesis, head).hash + [head'.number]
       <==> !AllPassed(Blocks(forks), head'.number) || NoFoldedTimeReached(forks, genesis, head'.timestamp)
  {
    ForkIdIs(forks, genesis, head);
    ForkIdIs(forks, genesis, head');
    LeastAboveIs(Blocks(forks), head.number);
    LeastAboveIs(Blocks(forks), head'.number);
    NextBlockPassed(forks, head.number, head'.number);
    var passed := Passed(Keys(Blocks(forks)), 0, head'.number);
    var times := Passed(Keys(Times(forks, genesis)) - Colliding(forks, genesis), genesis, head'.timestamp);
    NothingFolded(forks, genesis, head'.timestamp);
    assert |passed + times| == |passed| + |times|;
    if times == [] { assert passed + times == passed; }
  }

  lemma BlocksStayPassed(forks: seq<Condition>, number: nat, number': nat)
    requires AllPassed(Blocks(forks), number) && number <= number'
    ensures AllPassed(Blocks(forks), number') && LeastAbove(Blocks(forks), number').None?
    ensures Passed(Keys(Blocks(forks)), 0, number') == Passed(Keys(Blocks(forks)), 0, number)
  {
    LeastAboveIs(Blocks(forks), number');
    PassedSame(Keys(Blocks(forks)), 0, number, number');
  }

  /** After the last fork block, the fork id changes exactly when time reaches the announced timestamp, and for the last
      fork never. */
  lemma TimeForkAhead(forks: seq<Condition>, genesis: nat, head: Head, head': Head)
    requires SortedSchedule(forks, genesis) && AllPassed(Blocks(forks), head.number)
    requires head.number <= head'.number && head.timestamp <= head'.timestamp
    ensures var id := ForkIdOf(forks, genesis, head);
            ForkIdOf(forks, genesis, head') == id <==> id.next == 0 || head'.timestamp < id.next
  {
    var ts, id := Times(forks, genesis), ForkIdOf(forks, genesis, head);
    ForkIdIs(forks, genesis, head);
    ForkIdIs(forks, genesis, head');
    BlocksStayPassed(forks, head.number, head.number);
    BlocksStayPassed(forks, head.number, head'.number);
    LeastAboveIs(ts, head.timestamp);
    LeastAboveIs(ts, head'.timestamp);
    TimesAfter(forks, genesis);
    if id.next == 0 || head'.timestamp < id.next {
      PassedSame(Keys(ts) - Colliding(forks, genesis), genesis, head.timestamp, head'.timestamp);
      LeastAboveSame(ts, head.timestamp, head'.timestamp);
    }
  }

  lemma LeastAboveSame(keys: seq<nat>, at: nat, at': nat)
    requires at <= at' && forall k :: k in keys && k > at ==> k > at'
    ensures LeastAbove(keys, at) == LeastAbove(keys, at')
  {
    LeastAboveIs(keys, at);
    LeastAboveIs(keys, at');
  }

  lemma TimesGrow(forks: seq<Condition>, genesis: nat, at: nat, next: nat)
    requires Least(Times(forks, genesis), at, next)
    ensures var keys := Keys(Times(forks, genesis)) - Colliding(forks, genesis);
            Passed(keys, genesis, next)
              == Passed(keys, genesis, at) + if next in Colliding(forks, genesis) then [] else [next]
  {
    var keys := Keys(Times(forks, genesis)) - Colliding(forks, genesis);
    TimesAfter(forks, genesis);
    if next in Colliding(forks, genesis) {
      PassedSame(keys, genesis, at, next);
    } else {
      PassedNext(keys, genesis, at, next);
    }
  }

  /** At the announced timestamp the hash grows by exactly that timestamp, or not at all if it is the colliding one. */
  lemma AtTimeFork(forks: seq<Condition>, genesis: nat, head: Head, head': Head)
    requires SortedSchedule(forks, genesis) && AllPassed(Blocks(forks), head.number) && head.number <= head'.number
    requires ForkIdOf(forks, genesis, head).next == head'.timestamp != 0
    ensures ForkIdOf(forks, genesis, head').hash
         == ForkIdOf(forks, genesis, head).hash
            + if head'.timestamp in Colliding(forks, genesis) then [] else [head'.timestamp]
  {
    var ts := Times(forks, genesis);
    var keys := Keys(ts) - Colliding(forks, genesis);
    ForkIdIs(forks, genesis, head);
    ForkIdIs(forks, genesis, head');
    BlocksStayPassed(forks, head.number, head.number);
    BlocksStayPassed(forks, head.number, head'.number);
    LeastAboveIs(ts, head.timestamp);
    TimesGrow(forks, genesis, head.timestamp, head'.timestamp);
    Associate(Passed(Keys(Blocks(forks)), 0, head.number), Passed(keys, genesis, head.timestamp),
              if head'.timestamp in Colliding(forks, genesis) then [] else [head'.timestamp]);
  }

  /** `next` is the least of `keys` above `at`. */
  ghost predicate IsLeastAbove(keys: set<nat>, at: nat, next: nat) {
    next in keys && next > at && forall k :: k in keys && k > at ==> next <= k
  }

  ghost predicate NoneAbove(keys: set<nat>, at: nat) {
    forall k :: k in keys ==> k <= at
  }

  /** What is announced: the least fork block not passed; if there is none, the least fork time not passed; else
      zero. */
  lemma AnnouncesNext(forks: seq<Condition>, genesis: nat, head: Head)
    requires SortedSchedule(forks, genesis)
    ensures var next, bs, ts := ForkIdOf(forks, genesis, head).next, ForkBlocks(forks), ForkTimes(forks, genesis);
            && (!NoneAbove(bs, head.number) ==> IsLeastAbove(bs, head.number, next))
            && (NoneAbove(bs, head.number) && !NoneAbove(ts, head.timestamp) ==> IsLeastAbove(ts, head.timestamp, next))
            && (NoneAbove(bs, head.number) && NoneAbove(ts, head.timestamp) ==> next == 0)
  {
    BlocksAre(forks);
    TimesAre(forks, genesis);
    ForkIdIs(forks, genesis, head);
    LeastAboveIs(Blocks(forks), head.number);
    LeastAboveIs(Times(forks, genesis), head.timestamp);
  }

  /** Nothing is announced exactly when every fork is passed. */
  lemma NothingAhead(forks: seq<Condition>, genesis: nat, head: Head)
    requires SortedSchedule(forks, genesis)
    ensures ForkIdOf(forks, genesis, head).next == 0
            <==> AllPassed(Blocks(forks), head.number) && AllPassed(Times(forks, genesis), head.timestamp)
  {
    ForkIdIs(forks, genesis, head);
    LeastAboveIs(Blocks(forks), head.number);
    LeastAboveIs(Times(forks, genesis), head.timestamp);
    TimesAfter(forks, genesis);
  }

  // ----- heads built to satisfy a fork -----

  /** The scan for the last block fork before the merge or a timestamp fork. */
  function LastBlockFork(forks: seq<Condition>): Option<nat> {
    if |forks| < 2 then None
    else match forks[1]
      case TTD(_, Some(b)) => Some(b)
      case TTD(_, None) => if forks[0].Block? then Some(forks[0].number) else LastBlockFork(forks[1..])
      case Timestamp(_) => if forks[0].Block? then Some(forks[0].number) else LastBlockFork(forks[1..])
      case _ => LastBlockFork(forks[1..])
  }

  method ScanLastBlockFork(forks: seq<Condition>) returns (r: Option<nat>)
    ensures r == LastBlockFork(forks)
  {
    var i := 0;
    assert forks[0..] == forks;
    while i < |forks|
      invariant 0 <= i <= |forks| && LastBlockFork(forks[i..]) == LastBlockFork(forks)
    {
      var current := forks[i];
      i := i + 1;
      if i < |forks| {
        assert forks[i - 1..][1..] == forks[i..] && forks[i - 1..][1] == forks[i];
        match forks[i] {
          case TTD(_, Some(b)) => return Some(b);
          case TTD(_, None) => if current.Block? { return Some(current.number); }
          case Timestamp(_) => if current.Block? { return Some(current.number); }
          case _ =>
        }
      }
    }
    r := None;
  }

  function Satisfy(forks: seq<Condition>, c: Condition): Head
    requires !c.Never?
  {
    match c
    case Block(n) => Head(n, 0, 0)
    case Timestamp(t) => Head(LastBlockFork(forks).GetOr(0), t, 0)
    case TTD(d, b) => Head(b.GetOr(0), 0, d)
  }

  function HardforkForkId(forks: seq<Condition>, genesis: nat, c: Condition): Option<ForkId> {
    if c.Never? then None else Some(ForkIdOf(forks, genesis, Satisfy(forks, c)))
  }

  /** `None` where the source panics: no forks, or the last one never activates. */
  function LatestForkId(forks: seq<Condition>, genesis: nat): Option<ForkId> {
    if forks == [] then None else HardforkForkId(forks, genesis, forks[|forks| - 1])
  }

  /** The conditions at which a fork is active. */
  ghost predicate Active(c: Condition, head: Head) {
    match c
    case Block(n) => head.number >= n
    case Timestamp(t) => head.timestamp >= t
    case TTD(d, b) => head.totalDifficulty >= d && (b.Some? ==> head.number >= b.value)
    case Never => false
  }

  /** The head built for a fork makes it active, and no head that makes it active has less of what the fork asks for. */
  lemma SatisfyActivates(forks: seq<Condition>, c: Condition, head: Head)
    requires !c.Never?
    ensures Active(c, Satisfy(forks, c))
    ensures Active(c, head) ==>
            var built := Satisfy(forks, c);
            && (c.Block? ==> built.number <= head.number)
            && (c.Timestamp? ==> built.timestamp <= head.timestamp)
            && (c.TTD? ==> built.totalDifficulty <= head.totalDifficulty && built.number <= head.number)
    ensures !c.Timestamp? ==> Satisfy(forks, c).timestamp == 0
    ensures !c.TTD? ==> Satisfy(forks, c).totalDifficulty == 0
  {
  }

  /** Scanning stops before fork `i`: a merge, or a timestamp fork, that tells the last fork block. */
  ghost predicate StopsBefore(forks: seq<Condition>, i: nat)
    requires 0 < i < |forks|
  {
    || (forks[i].TTD? && forks[i].forkBlock.Some?)
    || ((forks[i].TTD? || forks[i].Timestamp?) && forks[i - 1].Block?)
  }

  ghost function StopValue(forks: seq<Condition>, i: nat): nat
    requires 0 < i < |forks| && StopsBefore(forks, i)
  {
    if forks[i].TTD? && forks[i].forkBlock.Some? then forks[i].forkBlock.value else forks[i - 1].number
  }

  /** The scan finds the first place where it can stop: the block of the merge there, or else of the block fork right
      before it. */
  lemma {:induction false} ScanStops(forks: seq<Condition>, i: nat)
    requires 0 < i < |forks| && StopsBefore(forks, i) && forall j :: 0 < j < i ==> !StopsBefore(forks, j)
    ensures LastBlockFork(forks) == Some(StopValue(forks, i))
    decreases i
  {
    if i > 1 {
      assert !StopsBefore(forks, 1);
      forall j | 0 < j < i - 1 ensures !StopsBefore(forks[1..], j) { assert !StopsBefore(forks, j + 1); }
      ScanStops(forks[1..], i - 1);
    }
  }

  /** Without such a place it finds nothing. */
  lemma {:induction false} ScanFindsNothing(forks: seq<Condition>)
    requires forall i :: 0 < i < |forks| ==> !StopsBefore(forks, i)
    ensures LastBlockFork(forks) == None
  {
    if |forks| >= 2 {
      assert !StopsBefore(forks, 1);
      forall j | 0 < j < |forks[1..]| ensures !StopsBefore(forks[1..], j) { assert !StopsBefore(forks, j + 1); }
      ScanFindsNothing(forks[1..]);
    }
  }

  /** Every fork after genesis up to and including `c`: block forks up to its block, or all of them and then
      timestamps. */
  ghost function UpTo(forks: seq<Condition>, genesis: nat, c: Condition): seq<nat> {
    var bs, ts := Blocks(forks), Times(forks, genesis);
    if c.Timestamp? then Passed(Keys(bs), 0, LastOr(bs, 0)) + Passed(Keys(ts), genesis, c.time)
    else Passed(Keys(bs), 0, BlockKey(c).GetOr(0))
  }

  lemma BlockSatisfied(forks: seq<Condition>, genesis: nat, c: Condition)
    requires SortedSchedule(forks, genesis) && BlockKey(c).Some?
    ensures ForkIdOf(forks, genesis, Satisfy(forks, c)).hash == UpTo(forks, genesis, c)
  {
    ForkIdIs(forks, genesis, Satisfy(forks, c));
    PassedNone(Keys(Times(forks, genesis)) - Colliding(forks, genesis), genesis, 0);
  }

  lemma TopPassed(forks: seq<Condition>, at: nat)
    requires Sorted(Blocks(forks))
    ensures AllPassed(Blocks(forks), at) <==> LastOr(Blocks(forks), 0) <= at
  {
    var bs := Blocks(forks);
    if bs != [] {
      InLast(bs);
      assert bs[|bs| - 1] in bs;
    }
  }

  /** The head built for a timestamp fork has folded exactly the forks up to it, if and only if the scanned block passes
      every block fork and no reached timestamp collides with the last of them. */
  lemma TimestampSatisfied(forks: seq<Condition>, genesis: nat, c: Condition)
    requires SortedSchedule(forks, genesis) && c.Timestamp?
    ensures ForkIdOf(forks, genesis, Satisfy(forks, c)).hash == UpTo(forks, genesis, c) <==>
            && AllPassed(Blocks(forks), LastBlockFork(forks).GetOr(0))
            && !(Collides(forks, genesis) && Times(forks, genesis)[0] <= c.time)
  {
    var bs, ts, number := Blocks(forks), Times(forks, genesis), LastBlockFork(forks).GetOr(0);
    ForkIdIs(forks, genesis, Satisfy(forks, c));
    LeastAboveIs(bs, number);
    TopPassed(forks, number);
    var top := LastOr(bs, 0);
    if AllPassed(bs, number) {
      TopPassed(forks, top);
      BlocksStayPassed(forks, top, number);
      CollisionShows(forks, genesis, c.time);
      SamePrefix(Passed(Keys(bs), 0, top), Passed(Keys(ts) - Colliding(forks, genesis), genesis, c.time),
                 Passed(Keys(ts), genesis, c.time));
    } else {
      PassedGrows(Keys(bs), 0, number, top, top);
      assert top in UpTo(forks, genesis, c);
    }
  }

  lemma CollisionShows(forks: seq<Condition>, genesis: nat, at: nat)
    requires SortedSchedule(forks, genesis)
    ensures var ts := Times(forks, genesis);
            Passed(Keys(ts) - Colliding(forks, genesis), genesis, at) == Passed(Keys(ts), genesis, at)
            <==> !(Collides(forks, genesis) && ts[0] <= at)
  {
    var ts := Times(forks, genesis);
    TimesAfter(forks, genesis);
    if Collides(forks, genesis) {
      assert ts[0] in ts;
      InLast(ts);
      if ts[0] <= at {
        PassedDiffers(Keys(ts), Keys(ts) - {ts[0]}, genesis, at, ts[0]);
      } else {
        PassedNone(Keys(ts), genesis, at);
        PassedNone(Keys(ts) - {ts[0]}, genesis, at);
      }
    } else {
      assert Keys(ts) - Colliding(forks, genesis) == Keys(ts);
    }
  }

  /** The fork id of a fork announces the least fork that the head built for it has not passed. */
  lemma HardforkNext(forks: seq<Condition>, genesis: nat, c: Condition)
    requires SortedSchedule(forks, genesis) && !c.Never?
    ensures var head, id := Satisfy(forks, c), HardforkForkId(forks, genesis, c);
            var bs, ts := ForkBlocks(forks), ForkTimes(forks, genesis);
            && id.Some?
            && (!NoneAbove(bs, head.number) ==> IsLeastAbove(bs, head.number, id.value.next))
            && (NoneAbove(bs, head.number) && !NoneAbove(ts, head.timestamp)
                ==> IsLeastAbove(ts, head.timestamp, id.value.next))
            && (NoneAbove(bs, head.number) && NoneAbove(ts, head.timestamp) ==> id.value.next == 0)
  {
    AnnouncesNext(forks, genesis, Satisfy(forks, c));
  }

  /** The latest fork id announces nothing, if and only if the head built for the last fork passes every fork. */
  lemma LatestAnnouncesNothing(forks: seq<Condition>, genesis: nat)
    requires SortedSchedule(forks, genesis) && forks != [] && !forks[|forks| - 1].Never?
    ensures var head := Satisfy(forks, forks[|forks| - 1]);
            LatestForkId(forks, genesis).value.next == 0
            <==> AllPassed(Blocks(forks), head.number) && AllPassed(Times(forks, genesis), head.timestamp)
  {
    NothingAhead(forks, genesis, Satisfy(forks, forks[|forks| - 1]));
  }

  // ----- schedules of the usual shape -----

  /** `m` block forks, then the merge or a timestamp fork, then timestamp forks only. */
  ghost predicate Shaped(forks: seq<Condition>, m: nat) {
    && 0 < m < |forks| && (forall i :: 0 <= i < m ==> forks[i].Block?)
    && (forks[m].TTD? || forks[m].Timestamp?) && (forall i :: m < i < |forks| ==> forks[i].Timestamp?)
  }

  lemma {:induction false} ShapedScan(forks: seq<Condition>, m: nat)
    requires Shaped(forks, m)
    ensures LastBlockFork(forks) == Some(BlockKey(forks[m]).GetOr(forks[m - 1].number))
    decreases m
  {
    if m > 1 { ShapedScan(forks[1..], m - 1); }
  }

  lemma {:induction false} NoBlocks(forks: seq<Condition>)
    requires forall i :: 0 <= i < |forks| ==> forks[i].Timestamp?
    ensures Blocks(forks) == []
  {
    if forks != [] { NoBlocks(forks[..|forks| - 1]); }
  }

  lemma ShapedTop(forks: seq<Condition>, m: nat)
    requires Shaped(forks, m)
    ensures LastOr(Blocks(forks), 0) == BlockKey(forks[m]).GetOr(forks[m - 1].number)
  {
    assert forks == forks[..m + 1] + forks[m + 1..];
    BlocksConcat(forks[..m + 1], forks[m + 1..]);
    NoBlocks(forks[m + 1..]);
    assert forks[..m + 1][..m] == forks[..m] && forks[..m][..m - 1] == forks[..m - 1];
    assert Blocks(forks[..m]) == Blocks(forks[..m - 1]) + [forks[m - 1].number];
  }

  /** On a schedule of the usual shape without a collision, every fork that has a block or a timestamp is satisfied. */
  lemma ShapedSatisfied(forks: seq<Condition>, genesis: nat, m: nat, c: Condition)
    requires SortedSchedule(forks, genesis) && Shaped(forks, m) && !Collides(forks, genesis)
    requires c in forks && (BlockKey(c).Some? || c.Timestamp?)
    ensures HardforkForkId(forks, genesis, c).Some?
    ensures HardforkForkId(forks, genesis, c).value.hash == UpTo(forks, genesis, c)
  {
    ShapedScan(forks, m);
    ShapedTop(forks, m);
    TopPassed(forks, LastBlockFork(forks).GetOr(0));
    if c.Timestamp? { TimestampSatisfied(forks, genesis, c); } else { BlockSatisfied(forks, genesis, c); }
  }

  lemma {:induction false} TimesHave(forks: seq<Condition>, genesis: nat, t: nat)
    ensures t in Times(forks, genesis) <==> t > genesis && Timestamp(t) in forks
  {
    if forks != [] {
      var front, c := forks[..|forks| - 1], forks[|forks| - 1];
      assert forks == front + [c];
      TimesHave(front, genesis, t);
    }
  }

  /** Like `Shaped`, or block forks only; no timestamp is above the last. */
  ghost predicate UsualShape(forks: seq<Condition>, m: nat) {
    && 0 < m <= |forks| && (forall i :: 0 <= i < m ==> forks[i].Block?)
    && (m < |forks| ==> Shaped(forks, m))
    && (forall t: nat :: Timestamp(t) in forks ==> forks[|forks| - 1].Timestamp? && t <= forks[|forks| - 1].time)
  }

  lemma {:induction false} OnlyBlocks(forks: seq<Condition>)
    requires forall i :: 0 <= i < |forks| ==> forks[i].Block?
    ensures |Blocks(forks)| == |forks| && forall i :: 0 <= i < |forks| ==> Blocks(forks)[i] == forks[i].number
  {
    if forks != [] { OnlyBlocks(forks[..|forks| - 1]); }
  }

  /** The number of the head built for the last fork passes every block fork, unless that fork is a merge without a
      block. */
  lemma LatestNumber(forks: seq<Condition>, m: nat)
    requires UsualShape(forks, m)
    ensures var last, head := forks[|forks| - 1], Satisfy(forks, forks[|forks| - 1]);
            head.number == if last.TTD? && last.forkBlock.None? then 0 else LastOr(Blocks(forks), 0)
  {
    if m == |forks| {
      OnlyBlocks(forks);
    } else {
      ShapedScan(forks, m);
      ShapedTop(forks, m);
    }
  }

  /** On a schedule of the usual shape the latest fork id announces nothing, if and only if the schedule does not
      end with a merge without a known block, or all its block forks are at genesis. */
  lemma ShapedLatest(forks: seq<Condition>, genesis: nat, m: nat)
    requires SortedSchedule(forks, genesis) && UsualShape(forks, m)
    ensures LatestForkId(forks, genesis).Some?
    ensures var last := forks[|forks| - 1];
            LatestForkId(forks, genesis).value.next == 0
            <==> !(last.TTD? && last.forkBlock.None?) || LastOr(Blocks(forks), 0) == 0
  {
    var last := forks[|forks| - 1];
    var head := Satisfy(forks, last);
    LatestNumber(forks, m);
    TopPassed(forks, head.number);
    forall t | t in Times(forks, genesis) ensures t <= head.timestamp { TimesHave(forks, genesis, t); }
    LatestAnnouncesNothing(forks, genesis);
  }

  lemma BlockTimeBlock(a: nat, t: nat, b: nat)
    requires 0 < t
    ensures var forks := [Block(a)] + [Timestamp(t)] + [Block(b)]; Blocks(forks) == [a] + [b] && Times(forks, 0) == [t]
  {
    var front := [Block(a)] + [Timestamp(t)];
    BlocksConcat([Block(a)], [Timestamp(t)]);
    BlocksConcat(front, [Block(b)]);
    TimesConcat([Block(a)], [Timestamp(t)], 0);
    TimesConcat(front, [Block(b)], 0);
    OneBlock(a, 0);
    OneBlock(b, 0);
    OneTimestamp(t, 0);
    assert [a] + [] == [a] && [] + [t] == [t] && [t] + [] == [t];
  }

  lemma LateSchedule(a: nat, t: nat, b: nat)
    requires a < b && 0 < t
    ensures var forks := [Block(a)] + [Timestamp(t)] + [Block(b)];
            && SortedSchedule(forks, 0) && LastBlockFork(forks) == Some(a) && !AllPassed(Blocks(forks), a)
  {
    BlockTimeBlock(a, t, b);
    assert b in [a] + [b];
  }

  /** A block fork scheduled behind the first timestamp fork makes the built head fall short of it. */
  lemma LateBlockFork(a: nat, t: nat, b: nat)
    requires a < b && 0 < t
    ensures var forks := [Block(a)] + [Timestamp(t)] + [Block(b)];
            && SortedSchedule(forks, 0) && LastBlockFork(forks) == Some(a)
            && ForkIdOf(forks, 0, Satisfy(forks, Timestamp(t))).hash != UpTo(forks, 0, Timestamp(t))
  {
    LateSchedule(a, t, b);
    TimestampSatisfied([Block(a)] + [Timestamp(t)] + [Block(b)], 0, Timestamp(t));
  }
}
