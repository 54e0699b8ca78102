/** The ancestor check of stateless validation: witness headers are decoded, sorted and checked to form a chain that
    ends at the block's parent; their hashes are collected by number. */
module Ancestors {
  import opened Bytes

  type Hash = nat
  type U64 = n: nat | n < U64_LIMIT

  /** A header sealed with the hash of its bytes. */
  datatype Header = Header(number: U64, parentHash: Hash, hash: Hash)

  /** A witness entry that may fail to decode. */
  datatype Witness = Decoded(header: Header) | Undecodable

  datatype Error = HeaderDeserializationFailed | InvalidAncestorChain | MissingAncestorHeader

  datatype Result<T> = Ok(value: T) | Err(error: Error)

  /** Hashes by number, and the parent header. */
  datatype Checked = Checked(hashes: map<nat, Hash>, parent: Header)

  /** The number after `n`, as a wrapping 64-bit integer. */
  function Following(n: U64): U64 {
    if n + 1 < U64_LIMIT then n + 1 else 0
  }

  // ----- sorting -----

  ghost predicate Sorted(hs: seq<Header>) {
    forall i, j :: 0 <= i < j < |hs| ==> hs[i].number <= hs[j].number
  }

  /** Put `h` behind all headers with its number or less. */
  function InsertByNumber(hs: seq<Header>, h: Header): (r: seq<Header>)
    requires Sorted(hs)
    ensures Sorted(r) && multiset(r) == multiset(hs) + multiset{h} && |r| == |hs| + 1
    ensures r[|r| - 1] == h || (hs != [] && r[|r| - 1] == hs[|hs| - 1])
  {
    if hs == [] || hs[|hs| - 1].number <= h.number then hs + [h]
    else
      assert hs == hs[..|hs| - 1] + [hs[|hs| - 1]];
      InsertByNumber(hs[..|hs| - 1], h) + [hs[|hs| - 1]]
  }

  /** The stable sort by number. */
  function SortByNumber(hs: seq<Header>): (r: seq<Header>)
    ensures Sorted(r) && multiset(r) == multiset(hs) && |r| == |hs|
  {
    if hs == [] then []
    else
      assert hs == hs[..|hs| - 1] + [hs[|hs| - 1]];
      InsertByNumber(SortByNumber(hs[..|hs| - 1]), hs[|hs| - 1])
  }

  // ----- the chain check -----

  function Walk(child: Header, hs: seq<Header>, hashes: map<nat, Hash>): Result<map<nat, Hash>>
    decreases |hs|
  {
    if hs == [] then Ok(hashes)
    else
      var parent := hs[|hs| - 1];
      if child.parentHash != parent.hash || Following(parent.number) != child.number then Err(InvalidAncestorChain)
      else Walk(parent, hs[..|hs| - 1], hashes[parent.number := child.parentHash])
  }

  method ComputeAncestorHashes(block: Header, headers: seq<Header>) returns (r: Result<map<nat, Hash>>)
    ensures r == Walk(block, headers, map[])
  {
    var hashes: map<nat, Hash> := map[];
    var child := block;
    var i := |headers|;
    assert headers[..i] == headers;
    while i > 0
      invariant 0 <= i <= |headers| && Walk(child, headers[..i], hashes) == Walk(block, headers, map[])
    {
      i := i - 1;
      assert headers[..i + 1][..i] == headers[..i];
      var parent, parentHash := headers[i], child.parentHash;
      hashes := hashes[parent.number := parentHash];
      if parentHash != parent.hash { return Err(InvalidAncestorChain); }
      if Following(parent.number) != child.number { return Err(InvalidAncestorChain); }
      child := parent;
    }
    r := Ok(hashes);
  }

  function DecodeAll(ws: seq<Witness>): Result<seq<Header>> {
    if ws == [] then Ok([])
    else
      var front := DecodeAll(ws[..|ws| - 1]);
      if front.Err? then front
      else if ws[|ws| - 1].Undecodable? then Err(HeaderDeserializationFailed)
      else Ok(front.value + [ws[|ws| - 1].header])
  }

  function Check(block: Header, ws: seq<Witness>): Result<Checked> {
    var decoded := DecodeAll(ws);
    if decoded.Err? then Err(decoded.error)
    else
      var headers := SortByNumber(decoded.value);
      var hashes := Walk(block, headers, map[]);
      if hashes.Err? then Err(hashes.error)
      else if headers == [] then Err(MissingAncestorHeader)
      else Ok(Checked(hashes.value, headers[|headers| - 1]))
  }

  method CheckAncestors(block: Header, ws: seq<Witness>) returns (r: Result<Checked>)
    ensures r == Check(block, ws)
  {
    var decoded := DecodeAll(ws);
    if decoded.Err? { return Err(decoded.error); }
    var headers := SortByNumber(decoded.value);
    var hashes := ComputeAncestorHashes(block, headers);
    if hashes.Err? { return Err(hashes.error); }
    if headers == [] { return Err(MissingAncestorHeader); }
    r := Ok(Checked(hashes.value, headers[|headers| - 1]));
  }

  // ----- what it accepts -----

  ghost predicate IsParent(parent: Header, child: Header) {
    parent.hash == child.parentHash && Following(parent.number) == child.number
  }

  ghost predicate LinkAt(block: Header, hs: seq<Header>, i: nat)
    requires i < |hs|
  {
    IsParent(hs[i], if i + 1 < |hs| then hs[i + 1] else block)
  }

  /** Every header is the parent of the next, the last one of the block. */
  ghost predicate Linked(block: Header, hs: seq<Header>) {
    forall i :: 0 <= i < |hs| ==> LinkAt(block, hs, i)
  }

  ghost function Numbers(hs: seq<Header>): set<nat> {
    set h | h in hs :: h.number
  }

  /** The collected map has exactly the headers' numbers besides those it had, each with its header's hash. */
  ghost predicate Collected(hs: seq<Header>, before: map<nat, Hash>, after: map<nat, Hash>) {
    && after.Keys == before.Keys + Numbers(hs)
    && (forall h :: h in hs ==> h.number in after && after[h.number] == h.hash)
    && (forall n :: n in before && n !in Numbers(hs) ==> n in after && after[n] == before[n])
  }

  lemma LinkedParts(block: Header, hs: seq<Header>)
    requires hs != []
    ensures Linked(block, hs) <==> IsParent(hs[|hs| - 1], block) && Linked(hs[|hs| - 1], hs[..|hs| - 1])
  {
    var front, parent := hs[..|hs| - 1], hs[|hs| - 1];
    assert LinkAt(block, hs, |hs| - 1) <==> IsParent(parent, block);
    forall i | 0 <= i < |front| ensures LinkAt(parent, front, i) <==> LinkAt(block, hs, i) {}
    if Linked(block, hs) {
      forall i | 0 <= i < |front| ensures LinkAt(parent, front, i) { assert LinkAt(block, hs, i); }
    }
    if IsParent(parent, block) && Linked(parent, front) {
      forall i | 0 <= i < |hs| ensures LinkAt(block, hs, i) { if i < |front| { assert LinkAt(parent, front, i); } }
    }
  }

  lemma FrontSorted(hs: seq<Header>)
    requires hs != [] && Sorted(hs)
    ensures Sorted(hs[..|hs| - 1]) && forall h :: h in hs[..|hs| - 1] ==> h.number <= hs[|hs| - 1].number
  {
  }

  /** In a sorted chain that links to `child` all numbers are different: one with the last number would not link. */
  lemma LastIsNew(child: Header, hs: seq<Header>)
    requires hs != [] && Sorted(hs) && Linked(child, hs)
    ensures hs[|hs| - 1].number !in Numbers(hs[..|hs| - 1])
  {
    var front := hs[..|hs| - 1];
    if front != [] {
      FrontSorted(hs);
      FrontSorted(front);
      assert LinkAt(child, hs, |front| - 1);
      assert front[|front| - 1].number < hs[|hs| - 1].number;
      assert front == front[..|front| - 1] + [front[|front| - 1]];
    }
  }

  lemma CollectedMore(front: seq<Header>, h: Header, before: map<nat, Hash>, after: map<nat, Hash>)
    requires h.number !in Numbers(front) && Collected(front, before[h.number := h.hash], after)
    ensures Collected(front + [h], before, after)
  {
    assert Numbers(front + [h]) == Numbers(front) + {h.number} by {
      forall x ensures x in front + [h] <==> x in front || x == h {}
    }
  }

  /** The walk succeeds exactly on chains that link to `child`, and then collects them. */
  lemma {:induction false} WalkIs(child: Header, hs: seq<Header>, hashes: map<nat, Hash>)
    requires Sorted(hs)
    ensures var r := Walk(child, hs, hashes);
            && (r.Ok? <==> Linked(child, hs))
            && (r.Ok? ==> Collected(hs, hashes, r.value))
    decreases |hs|
  {
    if hs != [] {
      var front, parent := hs[..|hs| - 1], hs[|hs| - 1];
      LinkedParts(child, hs);
      FrontSorted(hs);
      if IsParent(parent, child) {
        var more := hashes[parent.number := child.parentHash];
        WalkIs(parent, front, more);
        if Linked(child, hs) {
          LastIsNew(child, hs);
          CollectedMore(front, parent, hashes, Walk(parent, front, more).value);
          assert front + [parent] == hs;
        }
      }
    }
  }

  // ----- numbers -----

  lemma LinkedRises(block: Header, hs: seq<Header>, i: nat)
    requires Sorted(hs) && Linked(block, hs) && i + 1 < |hs|
    ensures hs[i + 1].number == hs[i].number + 1
  {
    assert LinkAt(block, hs, i);
  }

  lemma {:induction false} LinkedDistance(block: Header, hs: seq<Header>, i: nat, j: nat)
    requires Sorted(hs) && Linked(block, hs) && i <= j < |hs|
    ensures hs[j].number == hs[i].number + (j - i)
    decreases j - i
  {
    if i < j {
      LinkedDistance(block, hs, i, j - 1);
      LinkedRises(block, hs, j - 1);
    }
  }

  /** An accepted chain has exactly the numbers below the block, if and only if the block is not numbered 0. */
  lemma NumbersBelow(block: Header, hs: seq<Header>, i: nat)
    requires Sorted(hs) && Linked(block, hs) && i < |hs|
    ensures hs[i].number == block.number - (|hs| - i) <==> block.number > 0
    ensures block.number == 0 ==> hs[i].number == U64_LIMIT - (|hs| - i)
  {
    LinkedDistance(block, hs, i, |hs| - 1);
    assert LinkAt(block, hs, |hs| - 1);
  }

  // ----- order does not matter -----

  lemma SplitLast<T>(xs: seq<T>)
    requires xs != []
    ensures xs == xs[..|xs| - 1] + [xs[|xs| - 1]]
    ensures multiset(xs[..|xs| - 1]) == multiset(xs) - multiset{xs[|xs| - 1]}
  {
    assert xs == xs[..|xs| - 1] + [xs[|xs| - 1]];
  }

  lemma SameLast(block: Header, a: seq<Header>, b: seq<Header>)
    requires a != [] && b != [] && Sorted(a) && Sorted(b) && Linked(block, a) && multiset(a) == multiset(b)
    ensures a[|a| - 1] == b[|b| - 1]
  {
    var x, y := a[|a| - 1], b[|b| - 1];
    SplitLast(a);
    SplitLast(b);
    FrontSorted(a);
    FrontSorted(b);
    assert x in multiset(a) && y in multiset(b);
    assert x in b && y in a;
    LastIsNew(block, a);
  }

  /** A sorted chain is the only sorted order of its headers. */
  lemma {:induction false} OneSortedOrder(block: Header, a: seq<Header>, b: seq<Header>)
    requires Sorted(a) && Sorted(b) && Linked(block, a) && multiset(a) == multiset(b)
    ensures a == b
    decreases |a|
  {
    assert |a| == |multiset(a)| == |multiset(b)| == |b|;
    if a != [] {
      SameLast(block, a, b);
      SplitLast(a);
      SplitLast(b);
      FrontSorted(a);
      FrontSorted(b);
      LinkedParts(block, a);
      OneSortedOrder(a[|a| - 1], a[..|a| - 1], b[..|b| - 1]);
    }
  }

  lemma {:induction false} DecodeIs(ws: seq<Witness>)
    ensures DecodeAll(ws).Ok? <==> Undecodable !in multiset(ws)
    ensures DecodeAll(ws).Ok? ==> forall h :: multiset(DecodeAll(ws).value)[h] == multiset(ws)[Decoded(h)]
    ensures DecodeAll(ws).Err? ==> DecodeAll(ws).error == HeaderDeserializationFailed
  {
    if ws != [] {
      SplitLast(ws);
      DecodeIs(ws[..|ws| - 1]);
      assert multiset(ws) == multiset(ws[..|ws| - 1]) + multiset{ws[|ws| - 1]};
    }
  }

  lemma DecodeSame(ws: seq<Witness>, ws': seq<Witness>)
    requires multiset(ws) == multiset(ws')
    ensures DecodeAll(ws).Err? ==> DecodeAll(ws') == DecodeAll(ws)
    ensures DecodeAll(ws).Ok? ==> DecodeAll(ws').Ok? && multiset(DecodeAll(ws).value) == multiset(DecodeAll(ws').value)
  {
    DecodeIs(ws);
    DecodeIs(ws');
  }

  lemma {:induction false} WalkError(child: Header, hs: seq<Header>, hashes: map<nat, Hash>)
    ensures Walk(child, hs, hashes).Err? ==> Walk(child, hs, hashes).error == InvalidAncestorChain
    decreases |hs|
  {
    if hs != [] { WalkError(hs[|hs| - 1], hs[..|hs| - 1], hashes[hs[|hs| - 1].number := child.parentHash]); }
  }

  /** The check does not depend on the order of the witness headers. */
  lemma AnyOrder(block: Header, ws: seq<Witness>, ws': seq<Witness>)
    requires multiset(ws) == multiset(ws')
    ensures Check(block, ws) == Check(block, ws')
  {
    DecodeSame(ws, ws');
    if DecodeAll(ws).Ok? {
      var a, b := SortByNumber(DecodeAll(ws).value), SortByNumber(DecodeAll(ws').value);
      WalkIs(block, a, map[]);
      WalkIs(block, b, map[]);
      WalkError(block, a, map[]);
      WalkError(block, b, map[]);
      if Linked(block, a) { OneSortedOrder(block, a, b); }
      if Linked(block, b) { OneSortedOrder(block, b, a); }
    }
  }

  // ----- what acceptance means -----

  /** Accepted exactly when everything decodes into a nonempty chain below the block. The parent is its last header,
      and the map holds exactly the chain's numbers with the chain's hashes. */
  lemma AcceptedIs(block: Header, ws: seq<Witness>)
    ensures Check(block, ws).Ok? <==>
            DecodeAll(ws).Ok? && ws != [] && Linked(block, SortByNumber(DecodeAll(ws).value))
    ensures Check(block, ws).Ok? ==>
            var hs, c := SortByNumber(DecodeAll(ws).value), Check(block, ws).value;
            && hs != [] && c.parent == hs[|hs| - 1] && IsParent(c.parent, block)
            && c.hashes.Keys == Numbers(hs) && (forall h :: h in hs ==> c.hashes[h.number] == h.hash)
  {
    if DecodeAll(ws).Ok? {
      var hs := SortByNumber(DecodeAll(ws).value);
      DecodeLength(ws);
      WalkIs(block, hs, map[]);
      if hs != [] { LinkedParts(block, hs); }
    }
  }

  /** Which error a refused witness gives: an undecodable header first, then a broken chain, then no header at all. */
  lemma Rejections(block: Header, ws: seq<Witness>)
    ensures Check(block, ws) == Err(HeaderDeserializationFailed) <==> Undecodable in ws
    ensures Check(block, ws) == Err(MissingAncestorHeader) <==> ws == []
    ensures Check(block, ws) == Err(InvalidAncestorChain) <==>
            DecodeAll(ws).Ok? && ws != [] && !Linked(block, SortByNumber(DecodeAll(ws).value))
  {
    DecodeIs(ws);
    assert Undecodable in ws <==> Undecodable in multiset(ws);
    AcceptedIs(block, ws);
    if DecodeAll(ws).Ok? {
      DecodeLength(ws);
      WalkError(block, SortByNumber(DecodeAll(ws).value), map[]);
      WalkIs(block, SortByNumber(DecodeAll(ws).value), map[]);
    }
  }

  lemma {:induction false} DecodeLength(ws: seq<Witness>)
    requires DecodeAll(ws).Ok?
    ensures |DecodeAll(ws).value| == |ws|
  {
    if ws != [] { DecodeLength(ws[..|ws| - 1]); }
  }

  /** For a block after genesis, the map's keys are exactly the `k` numbers below it. */
  lemma KeysBelow(block: Header, ws: seq<Witness>)
    requires Check(block, ws).Ok?
    ensures (forall n: int :: n in Check(block, ws).value.hashes <==> block.number - |ws| <= n < block.number)
       <==> block.number > 0
  {
    var hs := SortByNumber(DecodeAll(ws).value);
    AcceptedIs(block, ws);
    DecodeLength(ws);
    NumbersAre(block, hs);
  }

  /** Numbers wrap around: a block numbered 0 is accepted with the largest number as its parent. */
  lemma WrappedParent(hash: Hash, parentHash: Hash, grandparentHash: Hash)
    ensures Check(Header(0, parentHash, hash), [Decoded(Header(U64_LIMIT - 1, grandparentHash, parentHash))]).Ok?
  {
    var block, parent := Header(0, parentHash, hash), Header(U64_LIMIT - 1, grandparentHash, parentHash);
    var ws, hs := [Decoded(parent)], [parent];
    assert ws[..0] == [] && hs[..0] == [];
    assert DecodeAll(ws) == Ok([] + [parent]);
    assert SortByNumber(hs) == [] + [parent];
    AcceptedIs(block, ws);
  }

  lemma NumbersAre(block: Header, hs: seq<Header>)
    requires hs != [] && Sorted(hs) && Linked(block, hs)
    ensures (forall n: int :: n in Numbers(hs) <==> block.number - |hs| <= n < block.number) <==> block.number > 0
  {
    if block.number > 0 {
      forall n: int ensures n in Numbers(hs) <==> block.number - |hs| <= n < block.number {
        if n in Numbers(hs) {
          var h :| h in hs && h.number == n;
          var i :| 0 <= i < |hs| && hs[i] == h;
          NumbersBelow(block, hs, i);
        }
        if block.number - |hs| <= n < block.number {
          var i := n - block.number + |hs|;
          NumbersBelow(block, hs, i);
          assert hs[i] in hs;
        }
      }
    } else {
      NumbersBelow(block, hs, 0);
      assert hs[0] in hs && hs[0].number in Numbers(hs);
    }
  }

  /** Headers with the same hash are the same. */
  ghost predicate Injective(a: seq<Header>, b: seq<Header>) {
    forall x, y :: x in a && y in b && x.hash == y.hash ==> x == y
  }

  /** Two accepted chains of the same length are the same chain. */
  lemma {:induction false} ChainUnique(block: Header, a: seq<Header>, b: seq<Header>)
    requires Linked(block, a) && Linked(block, b) && |a| == |b| && Injective(a, b)
    ensures a == b
    decreases |a|
  {
    if a != [] {
      LinkedParts(block, a);
      LinkedParts(block, b);
      SplitLast(a);
      SplitLast(b);
      var x, y := a[|a| - 1], b[|b| - 1];
      assert x in a && y in b;
      ChainUnique(x, a[..|a| - 1], b[..|b| - 1]);
    }
  }

  lemma AcceptedUnique(block: Header, ws: seq<Witness>, ws': seq<Witness>)
    requires Check(block, ws).Ok? && Check(block, ws').Ok? && |ws| == |ws'|
    requires Injective(SortByNumber(DecodeAll(ws).value), SortByNumber(DecodeAll(ws').value))
    ensures SortByNumber(DecodeAll(ws).value) == SortByNumber(DecodeAll(ws').value)
    ensures Check(block, ws) == Check(block, ws')
  {
    var a, b := SortByNumber(DecodeAll(ws).value), SortByNumber(DecodeAll(ws').value);
    AcceptedIs(block, ws);
    AcceptedIs(block, ws');
    DecodeLength(ws);
    DecodeLength(ws');
    ChainUnique(block, a, b);
  }
}
