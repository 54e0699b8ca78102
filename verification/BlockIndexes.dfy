/** The block index record: a starting number, one signed offset per block, and their count. */
module BlockIndexes {
  import opened Bytes
  import opened E2Store

  const BLOCK_INDEX := Kind(0x66, 0x32)

  /** From this count on, the vector of offsets cannot be allocated. */
  const COUNT_LIMIT := 0x1000_0000_0000_0000

  /** Eight times this count is zero in 64 bits. */
  const WRAP := 0x2000_0000_0000_0000

  datatype BlockIndex = BlockIndex(startingNumber: nat, offsets: seq<I64>)

  ghost predicate Valid(x: BlockIndex) {
    x.startingNumber < U64_LIMIT && |x.offsets| < COUNT_LIMIT
  }

  function EncodeOffsets(offsets: seq<I64>, tail: Bytes): Bytes {
    if offsets == [] then tail else ToLe(AsU64(offsets[0]), 8) + EncodeOffsets(offsets[1..], tail)
  }

  function ToEntry(x: BlockIndex): Entry {
    Entry(BLOCK_INDEX, ToLe(x.startingNumber, 8) + EncodeOffsets(x.offsets, ToLe(|x.offsets|, 8)))
  }

  lemma FromLeBound(bs: Bytes)
    requires |bs| == 8
    ensures FromLe(bs) < U64_LIMIT
  {
    SpanOfWidths();
    LeReencode(bs);
  }

  /** The first `count` words of `input`, as signed integers. */
  function ReadOffsets(input: Bytes, count: nat): seq<I64>
    requires |input| >= 8 * count
  {
    if count == 0 then []
    else
      FromLeBound(input[..8]);
      [AsI64(FromLe(input[..8]))] + ReadOffsets(input[8..], count - 1)
  }

  /** The count is read unsigned and the expected size is computed in 64 bits; a count that wraps around to the right
      size makes the allocation of the offsets abort. */
  function FromEntry(e: Entry): Result<BlockIndex> {
    var n := |e.data|;
    if e.kind != BLOCK_INDEX then Err(Ssz)
    else if n < 16 then Err(Ssz)
    else
      var count := FromLe(e.data[n - 8..]);
      if n != (16 + 8 * count) % U64_LIMIT then Err(Ssz)
      else if count >= COUNT_LIMIT then Err(Abort)
      else Ok(BlockIndex(FromLe(e.data[..8]), ReadOffsets(e.data[8..], count)))
  }

  lemma {:induction false} OffsetsLength(offsets: seq<I64>, tail: Bytes)
    ensures |EncodeOffsets(offsets, tail)| == 8 * |offsets| + |tail|
    ensures EncodeOffsets(offsets, tail)[8 * |offsets|..] == tail
  {
    if offsets != [] { OffsetsLength(offsets[1..], tail); }
  }

  lemma {:induction false} OffsetsRead(offsets: seq<I64>, tail: Bytes)
    ensures |EncodeOffsets(offsets, tail)| >= 8 * |offsets|
    ensures ReadOffsets(EncodeOffsets(offsets, tail), |offsets|) == offsets
  {
    OffsetsLength(offsets, tail);
    if offsets != [] {
      var word, rest := ToLe(AsU64(offsets[0]), 8), EncodeOffsets(offsets[1..], tail);
      SpanOfWidths();
      LeRoundTrip(AsU64(offsets[0]), 8);
      TakeDrop(word, rest);
      OffsetsRead(offsets[1..], tail);
      assert offsets == [offsets[0]] + offsets[1..];
    }
  }

  lemma {:induction false} OffsetsReencode(input: Bytes, count: nat)
    requires |input| >= 8 * count
    ensures |ReadOffsets(input, count)| == count
    ensures EncodeOffsets(ReadOffsets(input, count), input[8 * count..]) == input
  {
    if count > 0 {
      SpanOfWidths();
      LeReencode(input[..8]);
      OffsetsReencode(input[8..], count - 1);
      DropTwice(input, 8, 8 * (count - 1));
      SplitAt(input, 8);
    } else {
      assert input[0..] == input;
    }
  }

  lemma IndexLayout(x: BlockIndex)
    ensures var data, rest := ToEntry(x).data, EncodeOffsets(x.offsets, ToLe(|x.offsets|, 8));
            && |data| == 16 + 8 * |x.offsets|
            && data[..8] == ToLe(x.startingNumber, 8) && data[8..] == rest
            && data[|data| - 8..] == ToLe(|x.offsets|, 8)
  {
    var start, count := ToLe(x.startingNumber, 8), ToLe(|x.offsets|, 8);
    var rest := EncodeOffsets(x.offsets, count);
    TakeDrop(start, rest);
    OffsetsLength(x.offsets, count);
    DropInto(start, rest, 8 * |x.offsets|);
  }

  /** The eight bytes from `o` on, least significant first, are `v` in two's complement. */
  ghost predicate WordAt(data: Bytes, o: nat, v: int) {
    && o + 8 <= |data|
    && (if v < 0 then v + 0x1_0000_0000_0000_0000 else v)
       == Quad(data[o], data[o + 1], data[o + 2], data[o + 3])
          + 0x1_0000_0000 * Quad(data[o + 4], data[o + 5], data[o + 6], data[o + 7])
  }

  lemma SliceIsWord(data: Bytes, o: nat, u: nat, v: int)
    requires o + 8 <= |data| && data[o..o + 8] == ToLe(u, 8) && u < U64_LIMIT
    requires u == if v < 0 then v + U64_LIMIT else v
    ensures WordAt(data, o, v)
  {
    var word := data[o..o + 8];
    SpanOfWidths();
    LeRoundTrip(u, 8);
    EightBytes(word);
  }

  lemma {:induction false} OffsetSlice(offsets: seq<I64>, tail: Bytes, i: nat)
    requires i < |offsets|
    ensures |EncodeOffsets(offsets, tail)| == 8 * |offsets| + |tail|
    ensures EncodeOffsets(offsets, tail)[8 * i..8 * i + 8] == ToLe(AsU64(offsets[i]), 8)
  {
    var word, rest := ToLe(AsU64(offsets[0]), 8), EncodeOffsets(offsets[1..], tail);
    OffsetsLength(offsets, tail);
    OffsetsLength(offsets[1..], tail);
    if i > 0 {
      OffsetSlice(offsets[1..], tail, i - 1);
      SliceInto(word, rest, 8 * (i - 1), 8 * (i - 1) + 8);
    } else {
      TakeDrop(word, rest);
    }
  }

  lemma OffsetInData(x: BlockIndex, i: nat, o: nat)
    requires i < |x.offsets| && o == 8 + 8 * i
    ensures o + 8 <= |ToEntry(x).data| && ToEntry(x).data[o..o + 8] == ToLe(AsU64(x.offsets[i]), 8)
  {
    var start, rest := ToLe(x.startingNumber, 8), EncodeOffsets(x.offsets, ToLe(|x.offsets|, 8));
    OffsetSlice(x.offsets, ToLe(|x.offsets|, 8), i);
    SliceInto(start, rest, 8 * i, 8 * i + 8);
  }

  lemma OffsetIsWord(x: BlockIndex, i: nat)
    requires i < |x.offsets|
    ensures WordAt(ToEntry(x).data, 8 + 8 * i, x.offsets[i])
  {
    OffsetInData(x, i, 8 + 8 * i);
    SliceIsWord(ToEntry(x).data, 8 + 8 * i, AsU64(x.offsets[i]), x.offsets[i]);
  }

  /** The first `n` offsets, one word each. */
  ghost predicate OffsetsAre(data: Bytes, offsets: seq<I64>, n: nat)
    requires n <= |offsets|
  {
    n > 0 ==> OffsetsAre(data, offsets, n - 1) && WordAt(data, 8 + 8 * (n - 1), offsets[n - 1])
  }

  lemma {:induction false} OffsetsAreWords(x: BlockIndex, n: nat)
    requires n <= |x.offsets|
    ensures OffsetsAre(ToEntry(x).data, x.offsets, n)
  {
    if n > 0 {
      OffsetsAreWords(x, n - 1);
      OffsetIsWord(x, n - 1);
    }
  }

  /** Where every byte of an index record is: the starting number, one word per offset, and their count. */
  ghost predicate IsIndex(data: Bytes, x: BlockIndex) {
    && |data| == 16 + 8 * |x.offsets|
    && WordAt(data, 0, x.startingNumber)
    && OffsetsAre(data, x.offsets, |x.offsets|)
    && WordAt(data, 8 + 8 * |x.offsets|, |x.offsets|)
  }

  lemma FirstAndLastWord(data: Bytes, first: nat, last: nat)
    requires |data| >= 8 && data[..8] == ToLe(first, 8) && data[|data| - 8..] == ToLe(last, 8)
    requires first < U64_LIMIT && last < U64_LIMIT
    ensures WordAt(data, 0, first) && WordAt(data, |data| - 8, last)
  {
    assert data[0..8] == data[..8] && data[|data| - 8..|data|] == data[|data| - 8..];
    SliceIsWord(data, 0, first, first);
    SliceIsWord(data, |data| - 8, last, last);
  }

  lemma IndexBytes(x: BlockIndex)
    requires Valid(x)
    ensures IsIndex(ToEntry(x).data, x)
  {
    var data := ToEntry(x).data;
    IndexLayout(x);
    FirstAndLastWord(data, x.startingNumber, |x.offsets|);
    OffsetsAreWords(x, |x.offsets|);
  }

  lemma SizeCheck(n: nat, count: nat)
    requires count < COUNT_LIMIT
    ensures n == (16 + 8 * count) % U64_LIMIT <==> n == 16 + 8 * count
  {
  }

  lemma ReadParts(x: BlockIndex)
    requires Valid(x)
    ensures var data := ToEntry(x).data;
            && |data| == 16 + 8 * |x.offsets| && FromLe(data[..8]) == x.startingNumber
            && FromLe(data[|data| - 8..]) == |x.offsets| && ReadOffsets(data[8..], |x.offsets|) == x.offsets
  {
    SpanOfWidths();
    IndexLayout(x);
    OffsetsRead(x.offsets, ToLe(|x.offsets|, 8));
    LeRoundTrip(x.startingNumber, 8);
    LeRoundTrip(|x.offsets|, 8);
  }

  /** Every index a program can hold survives encoding. */
  lemma IndexRoundTrip(x: BlockIndex)
    requires Valid(x)
    ensures FromEntry(ToEntry(x)) == Ok(x)
  {
    ReadParts(x);
    SizeCheck(|ToEntry(x).data|, |x.offsets|);
  }

  lemma ReencodeParts(data: Bytes, count: nat)
    requires |data| == 16 + 8 * count && FromLe(data[|data| - 8..]) == count
    ensures |ReadOffsets(data[8..], count)| == count && FromLe(data[..8]) < U64_LIMIT
    ensures ToLe(FromLe(data[..8]), 8) + EncodeOffsets(ReadOffsets(data[8..], count), ToLe(count, 8)) == data
  {
    FromLeBound(data[..8]);
    LeReencode(data[..8]);
    LeReencode(data[|data| - 8..]);
    OffsetsReencode(data[8..], count);
    DropTwice(data, 8, 8 * count);
    SplitAt(data, 8);
  }

  /** Every accepted record is the encoding of the index read from it, so acceptance never loses a byte. */
  lemma IndexReencode(e: Entry)
    requires FromEntry(e).Ok?
    ensures Valid(FromEntry(e).value) && ToEntry(FromEntry(e).value) == e
  {
    var count := FromLe(e.data[|e.data| - 8..]);
    SizeCheck(|e.data|, count);
    ReencodeParts(e.data, count);
  }

  lemma WrapsAround(count: nat)
    ensures (16 + 8 * count) % U64_LIMIT == (16 + 8 * (count % WRAP)) % U64_LIMIT
  {
    var k := count / WRAP;
    assert 16 + 8 * count == (16 + 8 * (count % WRAP)) + U64_LIMIT * k;
    ModShift(16 + 8 * (count % WRAP), k);
  }

  lemma {:induction false} ModShift(x: nat, k: nat)
    ensures (x + U64_LIMIT * k) % U64_LIMIT == x % U64_LIMIT
  {
    if k > 0 {
      ModShift(x, k - 1);
      assert x + U64_LIMIT * k == (x + U64_LIMIT * (k - 1)) + U64_LIMIT;
    }
  }

  /** Which counts pass the size check. */
  lemma WrappedSize(n: nat, count: nat)
    requires 16 <= n < I64_LIMIT
    ensures n == (16 + 8 * count) % U64_LIMIT <==> n % 8 == 0 && count % WRAP == (n - 16) / 8
  {
    WrapsAround(count);
    var rest := count % WRAP;
    if 16 + 8 * rest < U64_LIMIT {
      assert (16 + 8 * rest) % U64_LIMIT == 16 + 8 * rest;
    } else {
      assert (16 + 8 * rest) % U64_LIMIT == 16 + 8 * rest - U64_LIMIT;
    }
  }

  /** Every outcome of the decoder, for records a program can hold. The abort needs a count of 2^61 or more whose value
      modulo 2^61 is the number of offsets that the record has room for. */
  lemma DecoderOutcomes(e: Entry)
    requires |e.data| < I64_LIMIT
    ensures e.kind != BLOCK_INDEX || |e.data| < 16 ==> FromEntry(e) == Err(Ssz)
    ensures e.kind == BLOCK_INDEX && |e.data| >= 16 ==>
            var n, count := |e.data|, FromLe(e.data[|e.data| - 8..]);
            && (FromEntry(e).Ok? <==> n % 8 == 0 && count == (n - 16) / 8)
            && (FromEntry(e) == Err(Abort) <==> n % 8 == 0 && count >= WRAP && count % WRAP == (n - 16) / 8)
            && (FromEntry(e).Ok? || FromEntry(e) == Err(Abort) || FromEntry(e) == Err(Ssz))
  {
    if e.kind == BLOCK_INDEX && |e.data| >= 16 {
      var count := FromLe(e.data[|e.data| - 8..]);
      WrappedSize(|e.data|, count);
      if count < WRAP { assert count % WRAP == count; }
    }
  }

  /** A count field of 2^63 passes the size check of a 16-byte record. */
  lemma WrappedCountAborts()
    ensures FromEntry(Entry(BLOCK_INDEX, ToLe(0, 8) + ToLe(I64_LIMIT, 8))) == Err(Abort)
  {
    SpanOfWidths();
    LeRoundTrip(I64_LIMIT, 8);
    TakeDrop(ToLe(0, 8), ToLe(I64_LIMIT, 8));
  }

  // ----- as the program does it, step by step -----

  lemma {:induction false} OffsetsSnoc(offsets: seq<I64>, x: I64, tail: Bytes)
    ensures EncodeOffsets(offsets + [x], tail) == EncodeOffsets(offsets, ToLe(AsU64(x), 8) + tail)
  {
    if offsets != [] {
      assert (offsets + [x])[1..] == offsets[1..] + [x];
      OffsetsSnoc(offsets[1..], x, tail);
    } else {
      assert offsets + [x] == [x];
    }
  }

  lemma {:induction false} OffsetsTail(offsets: seq<I64>, x: Bytes, y: Bytes)
    ensures EncodeOffsets(offsets, x + y) == EncodeOffsets(offsets, x) + y
  {
    if offsets != [] {
      OffsetsTail(offsets[1..], x, y);
      Associate(ToLe(AsU64(offsets[0]), 8), EncodeOffsets(offsets[1..], x), y);
    }
  }

  method WriteIndex(x: BlockIndex) returns (e: Entry)
    ensures e == ToEntry(x)
  {
    var start := ToLe(x.startingNumber, 8);
    var body: Bytes := [];
    for i := 0 to |x.offsets|
      invariant body == EncodeOffsets(x.offsets[..i], [])
    {
      assert x.offsets[..i + 1] == x.offsets[..i] + [x.offsets[i]];
      OffsetsSnoc(x.offsets[..i], x.offsets[i], []);
      OffsetsTail(x.offsets[..i], [], ToLe(AsU64(x.offsets[i]), 8));
      assert [] + ToLe(AsU64(x.offsets[i]), 8) == ToLe(AsU64(x.offsets[i]), 8) + [];
      body := body + ToLe(AsU64(x.offsets[i]), 8);
    }
    assert x.offsets[..|x.offsets|] == x.offsets;
    var count := ToLe(|x.offsets|, 8);
    OffsetsTail(x.offsets, [], count);
    assert [] + count == count;
    e := Entry(BLOCK_INDEX, start + (body + count));
  }

  method ReadIndex(e: Entry) returns (r: Result<BlockIndex>)
    ensures r == FromEntry(e)
  {
    var n := |e.data|;
    if e.kind != BLOCK_INDEX { return Err(Ssz); }
    if n < 16 { return Err(Ssz); }
    var count := FromLe(e.data[n - 8..]);
    if n != (16 + 8 * count) % U64_LIMIT { return Err(Ssz); }
    if count >= COUNT_LIMIT { return Err(Abort); }
    var offsets: seq<I64> := [];
    var left := e.data[8..];
    for i := 0 to count
      invariant |left| == n - 8 - 8 * i
      invariant offsets + ReadOffsets(left, count - i) == ReadOffsets(e.data[8..], count)
    {
      FromLeBound(left[..8]);
      Associate(offsets, [AsI64(FromLe(left[..8]))], ReadOffsets(left[8..], count - i - 1));
      offsets := offsets + [AsI64(FromLe(left[..8]))];
      left := left[8..];
    }
    assert offsets + [] == offsets;
    r := Ok(BlockIndex(FromLe(e.data[..8]), offsets));
  }
}
