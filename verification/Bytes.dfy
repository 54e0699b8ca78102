/** Bytes and the fixed-width integer encodings used by the file formats. */
module Bytes {
  type Byte = n: nat | n < 256
  type Bytes = seq<Byte>

  const U32_LIMIT := 0x1_0000_0000
  const U64_LIMIT := 0x1_0000_0000_0000_0000
  const U256_LIMIT := 0x1_0000_0000_0000_0000_0000_0000_0000_0000_0000_0000_0000_0000_0000_0000_0000_0000
  const I64_LIMIT := 0x8000_0000_0000_0000

  /** 256 to the power `n`. */
  function Span(n: nat): (r: nat)
    ensures r >= 1
  {
    if n == 0 then 1 else 256 * Span(n - 1)
  }

  /** The lowest `n` bytes of `v`, least significant first. */
  function ToLe(v: nat, n: nat): (bs: Bytes)
    ensures |bs| == n
    decreases n, v
  {
    if n == 0 then [] else [v % 256] + ToLe(v / 256, n - 1)
  }

  function FromLe(bs: Bytes): nat {
    if bs == [] then 0 else bs[0] + 256 * FromLe(bs[1..])
  }

  /** The lowest `n` bytes of `v`, most significant first. */
  function ToBe(v: nat, n: nat): (bs: Bytes)
    ensures |bs| == n
    decreases n, v
  {
    if n == 0 then [] else ToBe(v / 256, n - 1) + [v % 256]
  }

  function FromBe(bs: Bytes): nat {
    if bs == [] then 0 else 256 * FromBe(bs[..|bs| - 1]) + bs[|bs| - 1]
  }

  lemma DivMod256(low: Byte, high: nat)
    ensures (low + 256 * high) % 256 == low && (low + 256 * high) / 256 == high
  {
  }

  lemma {:induction false} LeRoundTrip(v: nat, n: nat)
    requires v < Span(n)
    ensures FromLe(ToLe(v, n)) == v
    decreases n
  {
    if n > 0 { LeRoundTrip(v / 256, n - 1); }
  }

  lemma {:induction false} LeReencode(bs: Bytes)
    ensures FromLe(bs) < Span(|bs|)
    ensures ToLe(FromLe(bs), |bs|) == bs
  {
    if bs != [] {
      LeReencode(bs[1..]);
      DivMod256(bs[0], FromLe(bs[1..]));
      assert bs == [bs[0]] + bs[1..];
    }
  }

  lemma {:induction false} BeRoundTrip(v: nat, n: nat)
    requires v < Span(n)
    ensures FromBe(ToBe(v, n)) == v
    decreases n
  {
    if n > 0 {
      BeRoundTrip(v / 256, n - 1);
      assert ToBe(v, n)[..n - 1] == ToBe(v / 256, n - 1);
    }
  }

  lemma SpanOfWidths()
    ensures Span(2) == 0x1_0000 && Span(4) == U32_LIMIT && Span(8) == U64_LIMIT
  {
    assert Span(1) == 256 && Span(2) == 0x1_0000 && Span(3) == 0x100_0000 && Span(4) == U32_LIMIT;
    assert Span(5) == 0x100_0000_0000 && Span(6) == 0x1_0000_0000_0000 && Span(7) == 0x100_0000_0000_0000;
  }

  lemma Regroup(x: nat, y: nat)
    ensures 256 * (x * y) == (256 * x) * y
  {
  }

  lemma {:induction false} SpanAdd(m: nat, n: nat)
    ensures Span(m + n) == Span(m) * Span(n)
  {
    if m > 0 {
      SpanAdd(m - 1, n);
      Regroup(Span(m - 1), Span(n));
    }
  }

  lemma SpanOfU256()
    ensures Span(32) == U256_LIMIT
  {
    SpanOfWidths();
    SpanAdd(8, 8);
    SpanAdd(16, 16);
  }

  // ----- which byte is where -----

  lemma OneMoreMultiple(m: nat, x: nat)
    ensures m * (x + 1) == m * x + m
  {
  }

  lemma {:induction false} NextMultiple(m: nat, x: nat, y: nat)
    requires x < y
    ensures m * x + m <= m * y
  {
    OneMoreMultiple(m, y - 1);
    if x < y - 1 { NextMultiple(m, x, y - 1); }
  }

  lemma QuotientIs(v: nat, m: nat, q: nat, r: nat)
    requires r < m && v == m * q + r
    ensures v / m == q
  {
    var a, b := v / m, v % m;
    assert v == m * a + b;
    if a < q { NextMultiple(m, a, q); }
    if q < a { NextMultiple(m, q, a); }
  }

  lemma DivTwice(v: nat, s: nat)
    requires s > 0
    ensures (v / 256) / s == v / (256 * s)
  {
    var q, r := (v / 256) / s, (v / 256) % s;
    Regroup(s, q);
    assert v == 256 * (s * q + r) + v % 256;
    QuotientIs(v, 256 * s, q, 256 * r + v % 256);
  }

  /** Byte `i` counts multiples of 256 to the power `i`. */
  lemma {:induction false} LeDigit(v: nat, n: nat, i: nat)
    requires i < n
    ensures ToLe(v, n)[i] == v / Span(i) % 256
    decreases n
  {
    if i > 0 {
      LeDigit(v / 256, n - 1, i - 1);
      DivTwice(v, Span(i - 1));
    }
  }

  /** Byte `i` counts multiples of 256 to the power `n - 1 - i`. */
  lemma {:induction false} BeDigit(v: nat, n: nat, i: nat)
    requires i < n
    ensures ToBe(v, n)[i] == v / Span(n - 1 - i) % 256
    decreases n
  {
    if i < n - 1 {
      BeDigit(v / 256, n - 1, i);
      DivTwice(v, Span(n - 2 - i));
    }
  }

  /** The bytes are `value`, most significant first. */
  ghost predicate BigEndian(data: Bytes, value: nat) {
    forall i :: 0 <= i < |data| ==> data[i] == value / Span(|data| - 1 - i) % 256
  }

  lemma BigEndianIs(v: nat, n: nat)
    ensures BigEndian(ToBe(v, n), v)
  {
    forall i | 0 <= i < n ensures ToBe(v, n)[i] == v / Span(n - 1 - i) % 256 { BeDigit(v, n, i); }
  }

  /** Four bytes as a number, least significant first. */
  function Quad(a: nat, b: nat, c: nat, d: nat): nat {
    a + 256 * b + 65536 * c + 16777216 * d
  }

  lemma TwoBytes(bs: Bytes)
    requires |bs| == 2
    ensures FromLe(bs) == Quad(bs[0], bs[1], 0, 0)
  {
    assert bs[1..][1..] == [];
    assert FromLe(bs[1..]) == bs[1];
  }

  lemma FourBytes(bs: Bytes)
    requires |bs| == 4
    ensures FromLe(bs) == Quad(bs[0], bs[1], bs[2], bs[3])
  {
    assert bs[1..][1..][1..][1..] == [];
    assert FromLe(bs[1..][1..][1..]) == bs[3];
    assert FromLe(bs[1..][1..]) == Quad(bs[2], bs[3], 0, 0);
    assert FromLe(bs[1..]) == Quad(bs[1], bs[2], bs[3], 0);
  }

  lemma EightBytes(bs: Bytes)
    requires |bs| == 8
    ensures FromLe(bs) == Quad(bs[0], bs[1], bs[2], bs[3]) + 0x1_0000_0000 * Quad(bs[4], bs[5], bs[6], bs[7])
  {
    var high := FromLe(bs[4..]);
    FourBytes(bs[4..]);
    assert bs[1..][1..][1..][1..] == bs[4..];
    assert FromLe(bs[1..][1..][1..]) == Quad(bs[3], high, 0, 0);
    assert FromLe(bs[1..][1..]) == Quad(bs[2], bs[3], high, 0);
    assert FromLe(bs[1..]) == Quad(bs[1], bs[2], bs[3], high);
  }

  // ----- signed 64-bit integers, two's complement -----

  type I64 = v: int | -I64_LIMIT <= v < I64_LIMIT

  function AsU64(v: I64): (r: nat)
    ensures r < U64_LIMIT
  {
    if v < 0 then v + U64_LIMIT else v
  }

  function AsI64(u: nat): I64
    requires u < U64_LIMIT
  {
    if u < I64_LIMIT then u else u - U64_LIMIT
  }

  // ----- taking a known prefix off an input -----

  lemma TakeDrop<T>(a: seq<T>, b: seq<T>)
    ensures (a + b)[..|a|] == a && (a + b)[|a|..] == b
  {
  }

  lemma SplitAt<T>(s: seq<T>, n: nat)
    requires n <= |s|
    ensures s[..n] + s[n..] == s
  {
  }

  lemma NextPrefix<T>(s: seq<T>, i: nat)
    requires i < |s|
    ensures |s[..i]| == i && s[..i + 1] == s[..i] + [s[i]] && s[..|s|] == s
  {
  }

  lemma DropInto<T>(a: seq<T>, b: seq<T>, k: nat)
    requires k <= |b|
    ensures (a + b)[|a| + k..] == b[k..]
  {
  }

  lemma SliceInto<T>(a: seq<T>, b: seq<T>, lo: nat, hi: nat)
    requires lo <= hi <= |b|
    ensures (a + b)[|a| + lo..|a| + hi] == b[lo..hi]
  {
  }

  lemma DropTwice<T>(s: seq<T>, j: nat, k: nat)
    requires j + k <= |s|
    ensures s[j..][k..] == s[j + k..]
  {
  }

  lemma Associate<T>(a: seq<T>, b: seq<T>, c: seq<T>)
    ensures (a + b) + c == a + (b + c)
  {
  }

  lemma SamePrefix<T>(a: seq<T>, b: seq<T>, c: seq<T>)
    ensures a + b == a + c <==> b == c
  {
    TakeDrop(a, b);
    TakeDrop(a, c);
  }
}
