/** The external sort: entries are buffered, spilled to sorted length-prefixed files, and merged through a heap. */
module Etl {
  import opened Options
  import opened Bytes

  /** A key and a value, already encoded and compressed. */
  datatype Entry = Entry(key: Bytes, value: Bytes)

  /** Lengths are machine words. */
  ghost predicate Fits(e: Entry) {
    |e.key| < U64_LIMIT && |e.value| < U64_LIMIT
  }

  ghost predicate AllFit(es: seq<Entry>) {
    forall i :: 0 <= i < |es| ==> Fits(es[i])
  }

  // ----- order -----

  predicate LexLeq(a: Bytes, b: Bytes) {
    a == [] || (b != [] && (a[0] < b[0] || (a[0] == b[0] && LexLeq(a[1..], b[1..]))))
  }

  lemma {:induction false} LexTotal(a: Bytes, b: Bytes)
    ensures LexLeq(a, b) || LexLeq(b, a)
    ensures LexLeq(a, b) && LexLeq(b, a) ==> a == b
    ensures LexLeq(a, a)
  {
    if a != [] {
      LexTotal(a[1..], a[1..]);
      if b != [] {
        LexTotal(a[1..], b[1..]);
        assert a == [a[0]] + a[1..] && b == [b[0]] + b[1..];
      }
    }
  }

  lemma {:induction false} LexTransitive(a: Bytes, b: Bytes, c: Bytes)
    requires LexLeq(a, b) && LexLeq(b, c)
    ensures LexLeq(a, c)
  {
    if a != [] && a[0] == b[0] == c[0] { LexTransitive(a[1..], b[1..], c[1..]); }
  }

  /** The order of the bytes themselves: one is a prefix of the other, or the first byte that differs is smaller. */
  ghost predicate ByteOrder(a: Bytes, b: Bytes) {
    a <= b || exists n :: 0 <= n < |a| && n < |b| && a[..n] == b[..n] && a[n] < b[n]
  }

  lemma {:induction false} LexIs(a: Bytes, b: Bytes)
    ensures LexLeq(a, b) <==> ByteOrder(a, b)
  {
    if a != [] && b != [] {
      LexIs(a[1..], b[1..]);
      if a[0] < b[0] {
        assert a[..0] == b[..0];
      } else if a[0] == b[0] {
        OrderTail(a, b);
      } else {
        assert !(a <= b);
      }
    }
  }

  lemma OrderTail(a: Bytes, b: Bytes)
    requires a != [] && b != [] && a[0] == b[0]
    ensures ByteOrder(a, b) <==> ByteOrder(a[1..], b[1..])
  {
    assert a <= b <==> a[1..] <= b[1..] by { PrefixTail(a, b); }
    if n :| 0 <= n < |a| && n < |b| && a[..n] == b[..n] && a[n] < b[n] {
      assert a[1..][..n - 1] == a[..n][1..] && b[1..][..n - 1] == b[..n][1..];
      assert a[1..][n - 1] < b[1..][n - 1];
    }
    if n :| 0 <= n < |a[1..]| && n < |b[1..]| && a[1..][..n] == b[1..][..n] && a[1..][n] < b[1..][n] {
      assert a[..n + 1] == [a[0]] + a[1..][..n] && b[..n + 1] == [b[0]] + b[1..][..n];
      assert a[n + 1] < b[n + 1];
    }
  }

  lemma PrefixTail(a: Bytes, b: Bytes)
    requires a != [] && b != [] && a[0] == b[0]
    ensures a <= b <==> a[1..] <= b[1..]
  {
    if a[1..] <= b[1..] {
      forall i | 0 <= i < |a| ensures a[i] == b[i] { if i > 0 { assert a[1..][i - 1] == b[1..][i - 1]; } }
    }
    if a <= b {
      forall i | 0 <= i < |a[1..]| ensures a[1..][i] == b[1..][i] { assert a[i + 1] == b[i + 1]; }
    }
  }

  predicate KeyLeq(x: Entry, y: Entry) {
    LexLeq(x.key, y.key)
  }

  /** Entries compare by key, then by value. */
  predicate EntryLeq(x: Entry, y: Entry) {
    if x.key == y.key then LexLeq(x.value, y.value) else LexLeq(x.key, y.key)
  }

  predicate SortedByKey(es: seq<Entry>) {
    forall i, j :: 0 <= i < j < |es| ==> KeyLeq(es[i], es[j])
  }

  /** Keys rise byte by byte. */
  ghost predicate KeysRise(es: seq<Entry>) {
    forall i, j :: 0 <= i < j < |es| ==> ByteOrder(es[i].key, es[j].key)
  }

  lemma SortedRises(es: seq<Entry>)
    ensures SortedByKey(es) <==> KeysRise(es)
  {
    forall i, j | 0 <= i < j < |es| ensures KeyLeq(es[i], es[j]) <==> ByteOrder(es[i].key, es[j].key) {
      LexIs(es[i].key, es[j].key);
    }
  }

  /** `x` is a lower bound, by key, of everything in `m`. */
  ghost predicate Below(x: Entry, m: multiset<Entry>) {
    forall y :: y in m ==> KeyLeq(x, y)
  }

  // ----- sorting the buffer -----

  ghost function Inserted(e: Entry, es: seq<Entry>): seq<Entry> {
    if es == [] || KeyLeq(e, es[0]) then [e] + es else [es[0]] + Inserted(e, es[1..])
  }

  lemma {:induction false} InsertedContents(e: Entry, es: seq<Entry>)
    ensures multiset(Inserted(e, es)) == multiset(es) + multiset{e}
  {
    if es != [] && !KeyLeq(e, es[0]) {
      InsertedContents(e, es[1..]);
      assert es == [es[0]] + es[1..];
    }
  }

  ghost predicate BelowAll(e: Entry, es: seq<Entry>) {
    forall j :: 0 <= j < |es| ==> KeyLeq(e, es[j])
  }

  lemma {:induction false} InsertedBelow(low: Entry, e: Entry, es: seq<Entry>)
    requires BelowAll(low, es) && KeyLeq(low, e)
    ensures BelowAll(low, Inserted(e, es))
  {
    if es != [] && !KeyLeq(e, es[0]) { InsertedBelow(low, e, es[1..]); }
  }

  lemma {:induction false} InsertedSorted(e: Entry, es: seq<Entry>)
    requires SortedByKey(es)
    ensures SortedByKey(Inserted(e, es))
  {
    if es != [] && KeyLeq(e, es[0]) {
      forall j | 0 <= j < |es| ensures KeyLeq(e, es[j]) {
        if j > 0 { LexTransitive(e.key, es[0].key, es[j].key); }
      }
    } else if es != [] {
      InsertedSorted(e, es[1..]);
      LexTotal(e.key, es[0].key);
      InsertedBelow(es[0], e, es[1..]);
    }
  }

  lemma {:induction false} SortExists(es: seq<Entry>) returns (r: seq<Entry>)
    ensures SortedByKey(r) && multiset(r) == multiset(es)
  {
    if es == [] {
      r := [];
    } else {
      var front := SortExists(es[..|es| - 1]);
      r := Inserted(es[|es| - 1], front);
      InsertedSorted(es[|es| - 1], front);
      InsertedContents(es[|es| - 1], front);
      assert es == es[..|es| - 1] + [es[|es| - 1]];
    }
  }

  /** The unstable sort by key: equal keys may end up in any order. */
  method SortByKey(es: seq<Entry>) returns (r: seq<Entry>)
    ensures SortedByKey(r) && multiset(r) == multiset(es)
  {
    ghost var sorted := SortExists(es);
    r :| SortedByKey(r) && multiset(r) == multiset(es);
  }

  // ----- files -----

  /** The encoding of `e` followed by `tail`. */
  function EncodeOnto(e: Entry, tail: Bytes): Bytes {
    ToBe(|e.key|, 8) + (ToBe(|e.value|, 8) + (e.key + (e.value + tail)))
  }

  function EncodeAll(es: seq<Entry>): Bytes {
    if es == [] then [] else EncodeOnto(es[0], EncodeAll(es[1..]))
  }

  lemma EncodeOntoConcat(e: Entry, x: Bytes, y: Bytes)
    ensures EncodeOnto(e, x + y) == EncodeOnto(e, x) + y
  {
    var k, v := ToBe(|e.key|, 8), ToBe(|e.value|, 8);
    Associate(e.value, x, y);
    Associate(e.key, e.value + x, y);
    Associate(v, e.key + (e.value + x), y);
    Associate(k, v + (e.key + (e.value + x)), y);
  }

  lemma {:induction false} EncodeSnoc(es: seq<Entry>, e: Entry)
    ensures EncodeAll(es + [e]) == EncodeAll(es) + EncodeOnto(e, [])
  {
    if es == [] {
      assert es + [e] == [e];
    } else {
      assert (es + [e])[1..] == es[1..] + [e];
      EncodeSnoc(es[1..], e);
      EncodeOntoConcat(es[0], EncodeAll(es[1..]), EncodeOnto(e, []));
    }
  }

  datatype ReadResult = End | Got(entry: Entry) | UnexpectedEof

  datatype Parsed = Truncated | Parsed(entry: Entry, tail: Bytes)

  /** Reads the two lengths, then the key and the value; any short read is an error. */
  function ParseFront(input: Bytes): Parsed {
    if |input| < 8 then Truncated
    else
      var keyLength, afterKeyLength := FromBe(input[..8]), input[8..];
      if |afterKeyLength| < 8 then Truncated
      else
        var valueLength, body := FromBe(afterKeyLength[..8]), afterKeyLength[8..];
        if |body| < keyLength then Truncated
        else if |body[keyLength..]| < valueLength then Truncated
        else Parsed(Entry(body[..keyLength], body[keyLength..][..valueLength]), body[keyLength..][valueLength..])
  }

  /** A read is short exactly when the lengths or what they announce are not all there. */
  lemma ParseOutcomes(input: Bytes)
    ensures ParseFront(input).Truncated? <==>
            |input| < 16 || |input| < 16 + FromBe(input[..8]) + FromBe(input[8..16])
  {
    if |input| >= 16 { assert input[8..][..8] == input[8..16]; }
  }

  /** Where every byte of an entry is: both lengths in eight bytes, most significant first, then key and value. */
  lemma EntryBytes(e: Entry, tail: Bytes)
    ensures var out, end := EncodeOnto(e, tail), 16 + |e.key| + |e.value|;
            && |out| == end + |tail| && BigEndian(out[..8], |e.key|) && BigEndian(out[8..16], |e.value|)
            && out[16..16 + |e.key|] == e.key && out[16 + |e.key|..end] == e.value && out[end..] == tail
  {
    var out, k, v := EncodeOnto(e, tail), ToBe(|e.key|, 8), ToBe(|e.value|, 8);
    BigEndianIs(|e.key|, 8);
    BigEndianIs(|e.value|, 8);
    assert out == k + v + e.key + e.value + tail;
    assert out[..8] == k && out[8..16] == v;
  }

  lemma ParseEncoded(e: Entry, tail: Bytes)
    requires Fits(e)
    ensures ParseFront(EncodeOnto(e, tail)) == Parsed(e, tail)
  {
    SpanOfWidths();
    BeRoundTrip(|e.key|, 8);
    BeRoundTrip(|e.value|, 8);
    TakeDrop(ToBe(|e.key|, 8), ToBe(|e.value|, 8) + (e.key + (e.value + tail)));
    TakeDrop(ToBe(|e.value|, 8), e.key + (e.value + tail));
    TakeDrop(e.key, e.value + tail);
    TakeDrop(e.value, tail);
  }

  /** A file whose unread bytes are exactly the entries `es`. */
  ghost predicate Holds(unread: Bytes, len: nat, es: seq<Entry>) {
    unread == EncodeAll(es) && len == |es| && AllFit(es)
  }

  lemma EncodePrefix(buffer: seq<Entry>, i: nat)
    requires i < |buffer|
    ensures EncodeAll(buffer[..i + 1]) == EncodeAll(buffer[..i]) + EncodeOnto(buffer[i], [])
  {
    assert buffer[..i + 1] == buffer[..i] + [buffer[i]];
    EncodeSnoc(buffer[..i], buffer[i]);
  }

  method WriteEntries(buffer: seq<Entry>) returns (written: Bytes)
    ensures written == EncodeAll(buffer)
  {
    written := [];
    for i := 0 to |buffer|
      invariant written == EncodeAll(buffer[..i])
    {
      EncodePrefix(buffer, i);
      written := written + EncodeOnto(buffer[i], []);
    }
    assert buffer[..|buffer|] == buffer;
  }

  /** A temporary file, owned by value by the list it is in: the bytes after the read cursor, and the number of
      entries they hold. */
  datatype EtlFile = EtlFile(unread: Bytes, len: nat) {
    ghost predicate Contains(es: seq<Entry>) {
      Holds(unread, len, es)
    }
  }

  method NewFile(buffer: seq<Entry>) returns (file: EtlFile)
    requires AllFit(buffer)
    ensures file.Contains(buffer)
  {
    var written := WriteEntries(buffer);
    file := EtlFile(written, |buffer|);
  }

  /** On a file that holds `es` this returns and consumes the first entry, or reports the end. A short read is an
      error and leaves the count as it was. */
  method ReadNext(file: EtlFile) returns (r: ReadResult, file': EtlFile)
    ensures r.UnexpectedEof? <==> file.len > 0 && ParseFront(file.unread).Truncated?
    ensures r.End? <==> file.len == 0
    ensures r.Got? <==> file'.len == file.len - 1
    ensures forall es :: file.Contains(es) ==>
      if es == [] then r == End && file'.Contains(es) else r == Got(es[0]) && file'.Contains(es[1..])
  {
    if file.len == 0 { return End, file; }
    var parsed := ParseFront(file.unread);
    forall es: seq<Entry> | file.Contains(es)
      ensures es != [] && parsed == Parsed(es[0], EncodeAll(es[1..])) && AllFit(es[1..])
    {
      ParseEncoded(es[0], EncodeAll(es[1..]));
    }
    if parsed.Truncated? { return UnexpectedEof, file; }
    return Got(parsed.entry), EtlFile(parsed.tail, file.len - 1);
  }

  ghost function Tail(run: seq<Entry>): seq<Entry> {
    if run == [] then [] else run[1..]
  }

  /** Reading a file known to hold `es`: never a short read. */
  method ReadHeld(file: EtlFile, ghost es: seq<Entry>) returns (head: Option<Entry>, file': EtlFile)
    requires file.Contains(es)
    ensures head == if es == [] then None else Some(es[0])
    ensures file'.Contains(Tail(es))
  {
    var r;
    r, file' := ReadNext(file);
    head := match r case Got(e) => Some(e) case _ => None;
  }

  // ----- runs: what each file still has to give -----

  /** The bytes of all keys and values. */
  function TotalSize(es: seq<Entry>): nat {
    if es == [] then 0
    else
      var e := es[|es| - 1];
      TotalSize(es[..|es| - 1]) + |e.key| + |e.value|
  }

  /** A file takes those bytes and sixteen more for each entry. */
  lemma {:induction false} FileSize(es: seq<Entry>)
    ensures |EncodeAll(es)| == TotalSize(es) + 16 * |es|
  {
    if es != [] {
      FileSize(es[..|es| - 1]);
      EncodePrefix(es, |es| - 1);
      assert es[..|es| - 1 + 1] == es;
    }
  }

  ghost predicate HasBytes(es: seq<Entry>) {
    exists i :: 0 <= i < |es| && (es[i].key != [] || es[i].value != [])
  }

  lemma {:induction false} SizeIsBytes(es: seq<Entry>)
    ensures TotalSize(es) > 0 <==> HasBytes(es)
  {
    if es != [] {
      var front, e := es[..|es| - 1], es[|es| - 1];
      SizeIsBytes(front);
      if HasBytes(front) {
        var i :| 0 <= i < |front| && (front[i].key != [] || front[i].value != []);
        assert es[i] == front[i];
      }
      if HasBytes(es) && e.key == [] && e.value == [] {
        var i :| 0 <= i < |es| && (es[i].key != [] || es[i].value != []);
        assert front[i] == es[i];
      }
    }
  }

  ghost function Union(runs: seq<seq<Entry>>): multiset<Entry> {
    if runs == [] then multiset{} else Union(runs[..|runs| - 1]) + multiset(runs[|runs| - 1])
  }

  lemma {:induction false} InUnion(runs: seq<seq<Entry>>, e: Entry) returns (i: nat)
    requires e in Union(runs)
    ensures i < |runs| && e in runs[i]
  {
    var n := |runs| - 1;
    if e in multiset(runs[n]) {
      i := n;
    } else {
      i := InUnion(runs[..n], e);
    }
  }

  /** Dropping the head of one run takes exactly that entry out of the union. */
  lemma {:induction false} UnionPop(runs: seq<seq<Entry>>, i: nat)
    requires i < |runs| && runs[i] != []
    ensures Union(runs) == Union(runs[i := runs[i][1..]]) + multiset{runs[i][0]}
  {
    var n := |runs| - 1;
    var popped := runs[i := runs[i][1..]];
    if i == n {
      assert popped[..n] == runs[..n];
      PopHead(runs[i]);
    } else {
      UnionPop(runs[..n], i);
      assert popped[..n] == runs[..n][i := runs[i][1..]];
      Swap(Union(popped[..n]), multiset{runs[i][0]}, multiset(runs[n]));
    }
  }

  lemma PopHead(run: seq<Entry>)
    requires run != []
    ensures multiset(run) == multiset(run[1..]) + multiset{run[0]}
  {
    assert run == [run[0]] + run[1..];
  }

  lemma Swap(a: multiset<Entry>, b: multiset<Entry>, c: multiset<Entry>)
    ensures (a + b) + c == (a + c) + b
  {
  }

  ghost predicate AllEmpty(runs: seq<seq<Entry>>) {
    forall i :: 0 <= i < |runs| ==> runs[i] == []
  }

  lemma {:induction false} UnionEmpty(runs: seq<seq<Entry>>)
    requires AllEmpty(runs)
    ensures Union(runs) == multiset{}
  {
    if runs != [] { UnionEmpty(runs[..|runs| - 1]); }
  }

  ghost predicate AllSorted(runs: seq<seq<Entry>>) {
    forall i :: 0 <= i < |runs| ==> SortedByKey(runs[i])
  }

  // ----- the heap -----

  datatype HeapItem = HeapItem(entry: Entry, id: nat)

  /** The heap's order: the least entry comes out first, and among equal entries the highest file number. */
  predicate OutFirst(x: HeapItem, y: HeapItem) {
    if x.entry == y.entry then x.id >= y.id else EntryLeq(x.entry, y.entry)
  }

  lemma OutFirstOrders(x: HeapItem, y: HeapItem)
    requires OutFirst(x, y)
    ensures ByteOrder(x.entry.key, y.entry.key)
    ensures x.entry.key == y.entry.key ==> ByteOrder(x.entry.value, y.entry.value)
  {
    LexIs(x.entry.key, y.entry.key);
    LexIs(x.entry.value, y.entry.value);
  }

  lemma OutFirstOrder(x: HeapItem, y: HeapItem, z: HeapItem)
    ensures OutFirst(x, y) || OutFirst(y, x)
    ensures OutFirst(x, y) && OutFirst(y, z) ==> OutFirst(x, z)
  {
    EntryTotal(x.entry, y.entry);
    if OutFirst(x, y) && OutFirst(y, z) {
      EntryTransitive(x.entry, y.entry, z.entry);
      EntryTotal(x.entry, y.entry);
      EntryTotal(y.entry, z.entry);
    }
  }

  lemma EntryTotal(x: Entry, y: Entry)
    ensures EntryLeq(x, y) || EntryLeq(y, x)
    ensures EntryLeq(x, y) && EntryLeq(y, x) ==> x == y
    ensures EntryLeq(x, x)
  {
    LexTotal(x.key, y.key);
    LexTotal(x.value, y.value);
    LexTotal(x.value, x.value);
  }

  lemma EntryTransitive(x: Entry, y: Entry, z: Entry)
    ensures EntryLeq(x, y) && EntryLeq(y, z) ==> EntryLeq(x, z)
  {
    if EntryLeq(x, y) && EntryLeq(y, z) {
      LexTotal(x.key, y.key);
      LexTotal(y.key, z.key);
      LexTransitive(x.key, y.key, z.key);
      if x.key == z.key {
        assert x.key == y.key;
        LexTransitive(x.value, y.value, z.value);
      }
    }
  }

  lemma {:induction false} TopExists(heap: set<HeapItem>) returns (top: HeapItem)
    requires heap != {}
    ensures top in heap && forall y :: y in heap ==> OutFirst(top, y)
    decreases heap
  {
    top :| top in heap;
    var rest := heap - {top};
    assert heap == rest + {top};
    OutFirstOrder(top, top, top);
    if rest != {} {
      var other := TopExists(rest);
      OutFirstOrder(top, other, other);
      if OutFirst(top, other) {
        forall y | y in rest ensures OutFirst(top, y) { OutFirstOrder(top, other, y); }
      } else {
        top := other;
      }
    }
  }

  method PopTop(heap: set<HeapItem>) returns (top: HeapItem)
    requires heap != {}
    ensures top in heap && forall y :: y in heap ==> OutFirst(top, y)
    ensures forall y :: y in heap ==>
      && ByteOrder(top.entry.key, y.entry.key)
      && (top.entry.key == y.entry.key ==> ByteOrder(top.entry.value, y.entry.value))
      && (top.entry == y.entry ==> top.id >= y.id)
  {
    ghost var best := TopExists(heap);
    top :| top in heap && forall y :: y in heap ==> OutFirst(top, y);
    forall y | y in heap
      ensures ByteOrder(top.entry.key, y.entry.key)
      ensures top.entry.key == y.entry.key ==> ByteOrder(top.entry.value, y.entry.value)
    {
      OutFirstOrders(top, y);
    }
  }

  /** The heap holds exactly the head of every unfinished run. */
  ghost predicate HoldsHeads(heap: set<HeapItem>, runs: seq<seq<Entry>>) {
    && (forall item :: item in heap ==> item.id < |runs| && runs[item.id] != [] && item.entry == runs[item.id][0])
    && (forall i :: 0 <= i < |runs| && runs[i] != [] ==> HeapItem(runs[i][0], i) in heap)
  }

  function WithHead(heap: set<HeapItem>, head: Option<Entry>, id: nat): set<HeapItem> {
    if head.Some? then heap + {HeapItem(head.value, id)} else heap
  }

  lemma PushHead(heap: set<HeapItem>, runs: seq<seq<Entry>>, id: nat, head: Option<Entry>)
    requires id < |runs| && HoldsHeads(heap, runs[..id])
    requires head == if runs[id] == [] then None else Some(runs[id][0])
    ensures HoldsHeads(WithHead(heap, head, id), runs[..id + 1])
  {
    assert runs[..id + 1] == runs[..id] + [runs[id]];
  }

  lemma AdvanceHead(heap: set<HeapItem>, runs: seq<seq<Entry>>, top: HeapItem, head: Option<Entry>)
    requires HoldsHeads(heap, runs) && top in heap
    requires var tail := runs[top.id][1..]; head == if tail == [] then None else Some(tail[0])
    ensures HoldsHeads(WithHead(heap - {top}, head, top.id), runs[top.id := runs[top.id][1..]])
  {
  }

  lemma AdvanceSorted(runs: seq<seq<Entry>>, id: nat)
    requires AllSorted(runs) && id < |runs| && runs[id] != []
    ensures AllSorted(runs[id := runs[id][1..]])
  {
  }

  /** The least head is, by key, below everything not yet given out. */
  lemma TopIsLeast(heap: set<HeapItem>, runs: seq<seq<Entry>>, top: HeapItem)
    requires HoldsHeads(heap, runs) && AllSorted(runs)
    requires top in heap && forall y :: y in heap ==> OutFirst(top, y)
    ensures Below(top.entry, Union(runs))
  {
    forall e | e in Union(runs) ensures KeyLeq(top.entry, e) {
      var i := InUnion(runs, e);
      var k :| 0 <= k < |runs[i]| && runs[i][k] == e;
      var head := runs[i][0];
      assert OutFirst(top, HeapItem(head, i));
      LexTotal(top.entry.key, head.key);
      LexTotal(head.key, head.key);
      assert KeyLeq(head, e);
      LexTransitive(top.entry.key, head.key, e.key);
    }
  }

  ghost predicate FilesHold(files: seq<EtlFile>, runs: seq<seq<Entry>>) {
    |files| == |runs| && forall i :: 0 <= i < |files| ==> files[i].Contains(runs[i])
  }

  /** Each file holds its run except for the head. */
  ghost predicate FilesHoldTails(files: seq<EtlFile>, runs: seq<seq<Entry>>) {
    |files| == |runs| && forall i :: 0 <= i < |files| ==> files[i].Contains(Tail(runs[i]))
  }

  lemma AdvanceFile(files: seq<EtlFile>, runs: seq<seq<Entry>>, id: nat, file: EtlFile)
    requires FilesHoldTails(files, runs) && id < |runs| && runs[id] != [] && file.Contains(Tail(runs[id][1..]))
    ensures FilesHoldTails(files[id := file], runs[id := runs[id][1..]])
  {
  }

  ghost predicate Merging(heap: set<HeapItem>, files: seq<EtlFile>, runs: seq<seq<Entry>>) {
    AllSorted(runs) && HoldsHeads(heap, runs) && FilesHoldTails(files, runs)
  }

  /** Replacing the top by the next entry of its file keeps the merge going, with one entry less to come. */
  lemma MergeStep(heap: set<HeapItem>, files: seq<EtlFile>, runs: seq<seq<Entry>>, top: HeapItem, head: Option<Entry>,
                  file: EtlFile)
    requires Merging(heap, files, runs) && top in heap && forall y :: y in heap ==> OutFirst(top, y)
    requires var tail := runs[top.id][1..];
             head == (if tail == [] then None else Some(tail[0])) && file.Contains(Tail(tail))
    ensures var runs' := runs[top.id := runs[top.id][1..]];
            && Merging(WithHead(heap - {top}, head, top.id), files[top.id := file], runs')
            && Union(runs) == Union(runs') + multiset{top.entry}
            && Below(top.entry, Union(runs))
  {
    TopIsLeast(heap, runs, top);
    UnionPop(runs, top.id);
    AdvanceHead(heap, runs, top, head);
    AdvanceSorted(runs, top.id);
    AdvanceFile(files, runs, top.id, file);
  }

  method ReadHeads(files: seq<EtlFile>, ghost runs: seq<seq<Entry>>) returns (heap: set<HeapItem>, files': seq<EtlFile>)
    requires FilesHold(files, runs)
    ensures HoldsHeads(heap, runs) && FilesHoldTails(files', runs)
  {
    heap, files' := {}, files;
    for id := 0 to |files|
      invariant |files'| == |files| && HoldsHeads(heap, runs[..id])
      invariant forall i :: 0 <= i < id ==> files'[i].Contains(Tail(runs[i]))
      invariant forall i :: id <= i < |files| ==> files'[i] == files[i]
    {
      var head, file := ReadHeld(files'[id], runs[id]);
      PushHead(heap, runs, id, head);
      heap := WithHead(heap, head, id);
      files' := files'[id := file];
    }
    assert runs[..|files|] == runs;
  }

  ghost function Optional(e: Option<Entry>): multiset<Entry> {
    if e.None? then multiset{} else multiset{e.value}
  }

  /** Takes the least head off the heap and refills the heap from the same file. */
  method MergeNext(heap: set<HeapItem>, files: seq<EtlFile>, ghost runs: seq<seq<Entry>>)
    returns (r: Option<Entry>, heap': set<HeapItem>, files': seq<EtlFile>, ghost runs': seq<seq<Entry>>)
    requires Merging(heap, files, runs)
    ensures Merging(heap', files', runs')
    ensures Union(runs) == Optional(r) + Union(runs')
    ensures if r.None? then Union(runs') == multiset{} else Below(r.value, Union(runs))
  {
    if heap == {} {
      UnionEmpty(runs);
      return None, heap, files, runs;
    }
    var top := PopTop(heap);
    var head, file := ReadHeld(files[top.id], runs[top.id][1..]);
    MergeStep(heap, files, runs, top, head, file);
    r := Some(top.entry);
    heap' := WithHead(heap - {top}, head, top.id);
    files' := files[top.id := file];
    runs' := runs[top.id := runs[top.id][1..]];
  }

  /** The iterator over all files: each file has already given its head to the heap. */
  class EtlIter {
    var heap: set<HeapItem>
    var files: seq<EtlFile>
    ghost var runs: seq<seq<Entry>>

    ghost predicate Valid()
      reads this
    {
      Merging(heap, files, runs)
    }

    /** What is still to come. */
    ghost function Remaining(): multiset<Entry>
      reads this
    {
      Union(runs)
    }

    constructor (files: seq<EtlFile>, ghost runs: seq<seq<Entry>>)
      requires FilesHold(files, runs) && AllSorted(runs)
      ensures Valid() && Remaining() == Union(runs)
    {
      var heap, files' := ReadHeads(files, runs);
      this.heap, this.files, this.runs := heap, files', runs;
    }

    /** Gives out the least remaining entry, or nothing when nothing remains. */
    method Next() returns (r: Option<Entry>)
      requires Valid()
      modifies this
      ensures Valid()
      ensures old(Remaining()) == Optional(r) + Remaining()
      ensures if r.None? then Remaining() == multiset{} else Below(r.value, old(Remaining()))
    {
      r, heap, files, runs := MergeNext(heap, files, runs);
    }
  }

  // ----- the collector -----

  /** The buffer after one more insert: a buffer above capacity is spilled. */
  function Buffered(buffer: seq<Entry>, e: Entry, capacity: nat): seq<Entry> {
    if TotalSize(buffer + [e]) > capacity then [] else buffer + [e]
  }

  lemma BufferOne(buffer: seq<Entry>, e: Entry)
    ensures TotalSize(buffer + [e]) == TotalSize(buffer) + |e.key| + |e.value|
    ensures multiset(buffer + [e]) == multiset(buffer) + multiset{e}
    ensures AllFit(buffer) && Fits(e) ==> AllFit(buffer + [e])
  {
    assert (buffer + [e])[..|buffer|] == buffer;
  }

  lemma AddRun(files: seq<EtlFile>, runs: seq<seq<Entry>>, file: EtlFile, run: seq<Entry>)
    requires FilesHold(files, runs) && AllSorted(runs) && file.Contains(run) && SortedByKey(run)
    ensures FilesHold(files + [file], runs + [run]) && AllSorted(runs + [run])
    ensures Union(runs + [run]) == Union(runs) + multiset(run)
  {
    assert (runs + [run])[..|runs|] == runs;
  }

  class Collector {
    const capacity: nat
    var files: seq<EtlFile>
    var bufferSizeBytes: nat
    var buffer: seq<Entry>
    var len: nat
    ghost var runs: seq<seq<Entry>>

    /** The byte count is exact and within capacity, and the length counts buffered and spilled entries. */
    ghost predicate Valid()
      reads this
    {
      && bufferSizeBytes == TotalSize(buffer) && bufferSizeBytes <= capacity && AllFit(buffer)
      && FilesHold(files, runs) && AllSorted(runs)
      && len == |buffer| + |Union(runs)|
    }

    ghost function Contents(): multiset<Entry>
      reads this
    {
      Union(runs) + multiset(buffer)
    }

    constructor (capacity: nat)
      ensures Valid() && Contents() == multiset{} && this.capacity == capacity && buffer == [] && len == 0
    {
      this.capacity := capacity;
      files, bufferSizeBytes, buffer, len, runs := [], 0, [], 0, [];
    }

    method Clear()
      modifies this
      ensures Valid() && Contents() == multiset{} && len == 0 && files == [] && buffer == []
    {
      files, bufferSizeBytes, buffer, len, runs := [], 0, [], 0, [];
    }

    /** Sorts the buffer into a new file. */
    method Flush()
      requires FilesHold(files, runs) && AllSorted(runs) && AllFit(buffer)
      modifies this`files, this`bufferSizeBytes, this`buffer, this`runs
      ensures FilesHold(files, runs) && AllSorted(runs)
      ensures buffer == [] && bufferSizeBytes == 0 && |files| == old(|files|) + 1
      ensures Union(runs) == old(Union(runs)) + multiset(old(buffer))
    {
      bufferSizeBytes := 0;
      var run := SortByKey(buffer);
      SameFit(buffer, run);
      var file := NewFile(run);
      AddRun(files, runs, file, run);
      buffer := [];
      files := files + [file];
      runs := runs + [run];
    }

    method Insert(e: Entry)
      requires Valid() && Fits(e)
      modifies this
      ensures Valid() && len == old(len) + 1
      ensures Contents() == old(Contents()) + multiset{e}
      ensures buffer == Buffered(old(buffer), e, capacity)
      ensures if old(TotalSize(buffer)) + |e.key| + |e.value| > capacity then buffer == []
                && |files| == old(|files|) + 1
              else buffer == old(buffer) + [e] && files == old(files)
    {
      BufferOne(buffer, e);
      bufferSizeBytes := bufferSizeBytes + |e.key| + |e.value|;
      buffer := buffer + [e];
      if bufferSizeBytes > capacity {
        Flush();
      }
      len := len + 1;
    }

    /** Spills what is left, if it has any bytes, and starts one pass over all files. */
    method Iter() returns (it: EtlIter)
      requires Valid()
      modifies this
      ensures fresh(it) && it.Valid()
      ensures it.Remaining() + multiset(buffer) == old(Contents())
      ensures buffer == if HasBytes(old(buffer)) then [] else old(buffer)
      ensures len == old(len)
    {
      SizeIsBytes(buffer);
      if bufferSizeBytes > 0 {
        Flush();
      }
      it := new EtlIter(files, runs);
      files := it.files;
    }
  }

  lemma SameFit(a: seq<Entry>, b: seq<Entry>)
    requires AllFit(a) && multiset(a) == multiset(b)
    ensures AllFit(b)
  {
    forall i | 0 <= i < |b| ensures Fits(b[i]) {
      assert b[i] in multiset(b);
      assert b[i] in a;
    }
  }

  // ----- insert everything, then one pass -----

  /** What is still in the buffer after inserting `es`. */
  function LeftInBuffer(es: seq<Entry>, capacity: nat): seq<Entry> {
    if es == [] then [] else Buffered(LeftInBuffer(es[..|es| - 1], capacity), es[|es| - 1], capacity)
  }

  /** The last buffer is spilled by a pass exactly when one of its entries has a byte. */
  ghost predicate PassSeesAll(es: seq<Entry>, capacity: nat) {
    var left := LeftInBuffer(es, capacity);
    left == [] || HasBytes(left)
  }

  lemma {:induction false} NonEmptySeen(es: seq<Entry>, capacity: nat)
    requires forall i :: 0 <= i < |es| ==> es[i].key != [] || es[i].value != []
    ensures PassSeesAll(es, capacity)
  {
    if es != [] {
      var left := LeftInBuffer(es[..|es| - 1], capacity);
      assert (left + [es[|es| - 1]])[|left|] == es[|es| - 1];
    }
  }

  /** An entry without a single byte is not seen by the pass, whatever the capacity. */
  lemma EmptyEntryUnseen(capacity: nat)
    ensures !PassSeesAll([Entry([], [])], capacity)
  {
    var e := Entry([], []);
    assert LeftInBuffer([e], capacity) == Buffered(LeftInBuffer([e][..0], capacity), e, capacity);
    assert TotalSize([] + [e]) == TotalSize([e][..0]) + |e.key| + |e.value|;
  }

  lemma InsertedPrefix(es: seq<Entry>, i: nat, capacity: nat)
    requires i < |es|
    ensures multiset(es[..i + 1]) == multiset(es[..i]) + multiset{es[i]}
    ensures LeftInBuffer(es[..i + 1], capacity) == Buffered(LeftInBuffer(es[..i], capacity), es[i], capacity)
  {
    assert es[..i + 1] == es[..i] + [es[i]] && es[..i + 1][..i] == es[..i];
  }

  method InsertAll(es: seq<Entry>, capacity: nat) returns (c: Collector)
    requires AllFit(es)
    ensures fresh(c) && c.Valid() && c.Contents() == multiset(es) && c.len == |es|
    ensures c.buffer == LeftInBuffer(es, capacity)
  {
    c := new Collector(capacity);
    for i := 0 to |es|
      invariant fresh(c) && c.Valid() && c.capacity == capacity && c.len == i
      invariant c.Contents() == multiset(es[..i])
      invariant c.buffer == LeftInBuffer(es[..i], capacity)
    {
      InsertedPrefix(es, i, capacity);
      c.Insert(es[i]);
    }
    assert es[..|es|] == es;
  }

  ghost predicate UpTo(es: seq<Entry>, e: Entry) {
    forall i :: 0 <= i < |es| ==> KeyLeq(es[i], e)
  }

  lemma UpToNext(es: seq<Entry>, e: Entry, next: Entry)
    requires UpTo(es, e) && KeyLeq(e, next)
    ensures UpTo(es + [e], next)
  {
    forall i | 0 <= i < |es| ensures KeyLeq(es[i], next) { LexTransitive(es[i].key, e.key, next.key); }
  }

  lemma SnocSorted(es: seq<Entry>, e: Entry)
    requires SortedByKey(es) && UpTo(es, e)
    ensures SortedByKey(es + [e])
  {
  }

  /** `out` is sorted, `r` comes next, and `left` is still in the files. */
  ghost predicate Giving(all: multiset<Entry>, out: seq<Entry>, r: Option<Entry>, left: multiset<Entry>) {
    && SortedByKey(out)
    && all == multiset(out) + Optional(r) + left
    && (r.None? ==> left == multiset{})
    && (r.Some? ==> Below(r.value, left) && UpTo(out, r.value))
  }

  lemma GiveNext(all: multiset<Entry>, out: seq<Entry>, e: Entry, before: multiset<Entry>, r: Option<Entry>,
                 left: multiset<Entry>)
    requires Giving(all, out, Some(e), before)
    requires before == Optional(r) + left
    requires if r.None? then left == multiset{} else Below(r.value, before)
    ensures Giving(all, out + [e], r, left)
  {
    SnocSorted(out, e);
    if r.Some? {
      assert r.value in before;
      UpToNext(out, e, r.value);
    }
  }

  /** Drains an iterator: everything that remained, in nondecreasing key order. */
  method Drain(it: EtlIter) returns (out: seq<Entry>)
    requires it.Valid()
    modifies it
    ensures SortedByKey(out) && KeysRise(out) && multiset(out) == old(it.Remaining())
  {
    out := [];
    ghost var all := it.Remaining();
    var r := it.Next();
    ghost var left := it.Remaining();
    while r.Some?
      invariant it.Valid() && left == it.Remaining() && Giving(all, out, r, left)
      decreases |left|, r.Some?
    {
      var e := r.value;
      ghost var before := left;
      r := it.Next();
      left := it.Remaining();
      assert r.Some? ==> |before| == |left| + 1;
      GiveNext(all, out, e, before, r, left);
      out := out + [e];
    }
    SortedRises(out);
  }

  /** Inserting every entry and reading one full pass gives back exactly the inserted entries, sorted by key, if and
      only if the last buffer was spilled; in particular whenever every entry has a byte. */
  method SortExternally(es: seq<Entry>, capacity: nat) returns (out: seq<Entry>, len: nat)
    requires AllFit(es)
    ensures KeysRise(out) && len == |es|
    ensures multiset(out) == multiset(es) <==> PassSeesAll(es, capacity)
    ensures |out| == len <==> PassSeesAll(es, capacity)
    ensures (forall i :: 0 <= i < |es| ==> es[i].key != [] || es[i].value != []) ==> multiset(out) == multiset(es)
  {
    var c := InsertAll(es, capacity);
    len := c.len;
    var it := c.Iter();
    out := Drain(it);
    SortedRises(out);
    assert multiset(out) + multiset(c.buffer) == multiset(es);
    assert |multiset(out)| == |out| && |multiset(es)| == |es|;
    if forall i :: 0 <= i < |es| ==> es[i].key != [] || es[i].value != [] { NonEmptySeen(es, capacity); }
  }
}
