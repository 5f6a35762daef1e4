/** Reading a CBOR encoding gives back the value, wherever the encoding stands in the input. */
module CborRoundTrip {
  import opened Prelude
  import opened Cbor

  // ---- The value a dict decodes to: the same dict, items in encoded-key order ----

  /** The encoding of a key, empty when it has none. */
  function KeyCode(k: Key): Bytes {
    if EncodeKey(k).Some? then EncodeKey(k).value else []
  }

  predicate EntryLe(a: Entry, b: Entry) {
    BytesLe(KeyCode(a.key), KeyCode(b.key))
  }

  function Canon(v: Value): Value
    decreases v, 1
  {
    match v
    case List(items) => List(CanonAll(items))
    case Dict(entries) =>
      Dict(Sort(EntryLe, seq(|entries|, i requires 0 <= i < |entries| =>
        Entry(entries[i].key, Canon(entries[i].value)))))
    case _ => v
  }

  function CanonAll(items: seq<Value>): (r: seq<Value>)
    ensures |r| == |items|
    decreases items, 0
  {
    if items == [] then [] else [Canon(items[0])] + CanonAll(items[1..])
  }

  function CanonEntry(e: Entry): Entry {
    Entry(e.key, Canon(e.value))
  }

  function CanonEntries(entries: seq<Entry>): (r: seq<Entry>)
    ensures |r| == |entries|
  {
    Map(CanonEntry, entries)
  }

  lemma CanonOfDict(entries: seq<Entry>)
    ensures Canon(Dict(entries)) == Dict(Sort(EntryLe, CanonEntries(entries)))
  {
    hide EntryLe, Sort;
    assert CanonEntries(entries) == seq(|entries|, i requires 0 <= i < |entries| =>
      Entry(entries[i].key, Canon(entries[i].value)));
  }

  // ---- Heads ----

  lemma Widths()
    ensures Pow256(1) == 0x100 && Pow256(2) == 0x1_0000
    ensures Pow256(4) == 0x1_0000_0000 && Pow256(8) == 0x1_0000_0000_0000_0000
  {
    assert Pow256(3) == 0x100_0000;
    assert Pow256(5) == 0x100_0000_0000;
    assert Pow256(6) == 0x1_0000_0000_0000;
    assert Pow256(7) == 0x100_0000_0000_0000;
  }

  lemma ReadBeRoundTrip(data: Bytes, pos: nat, n: nat, width: nat)
    requires n < Pow256(width) && Holds(data, pos, ToBe(n, width))
    ensures ReadBe(data, pos, width) == Got((n, pos + width))
  {
    BeRoundTrip(n, width);
  }

  lemma OneByte(n: nat)
    ensures n <= 0xFF ==> ToBe(n, 1) == [n]
  {
    assert ToBe(n / 256, 0) == [];
  }

  /** A head reads back as its major type and number. */
  lemma HeadRoundTrip(data: Bytes, pos: nat, major: nat, n: nat)
    requires major < 8 && Head(major, n).Some? && Holds(data, pos, Head(major, n).value)
    ensures pos < |data| && data[pos] / 32 == major && |Head(major, n).value| > 0
    ensures ReadInt(data, pos + 1, data[pos] % 32) == Got((n, pos + |Head(major, n).value|))
  {
    hide Holds, ReadBe, FromBe, ToBe;
    Widths();
    var width := if n <= 23 then 0 else if n <= 0xFF then 1 else if n <= 0xFFFF then 2 else if n <= MAX_32 then 4 else 8;
    var info := if n <= 23 then n else if n <= 0xFF then 24 else if n <= 0xFFFF then 25 else if n <= MAX_32 then 26 else 27;
    if n > 23 {
      OneByte(n);
      assert Head(major, n).value == [Initial(major, info)] + ToBe(n, width);
      HoldsSplit(data, pos, [Initial(major, info)], ToBe(n, width));
      ReadBeRoundTrip(data, pos + 1, n, width);
    }
    FirstByte(data, pos, Head(major, n).value);
  }

  /** Main result: no head the decoder accepts for n is shorter than the one written (section 4.2.1 of RFC 8949). */
  lemma HeadIsShortest(data: Bytes, pos: nat, info: nat, major: nat, n: nat, end: nat)
    requires major < 8 && Head(major, n).Some?
    requires pos <= |data| && info < 32 && ReadInt(data, pos, info) == Got((n, end))
    ensures 1 + (end - pos) >= |Head(major, n).value|
  {
    hide ToBe, FromBe;
    Widths();
    if 24 <= info <= 27 {
      var width := if info == 24 then 1 else if info == 25 then 2 else if info == 26 then 4 else 8;
      assert ReadBe(data, pos, width) == Got((n, end));
      FromBeBound(data[pos..pos + width]);
    }
  }

  lemma BlobReadsBack(data: Bytes, pos: nat, major: nat, b: Bytes)
    requires major < 8 && Head(major, |b|).Some? && Holds(data, pos, Head(major, |b|).value + b)
    ensures pos < |data| && data[pos] / 32 == major
    ensures ReadBlob(data, pos + 1, data[pos] % 32) == Got((b, pos + |Head(major, |b|).value + b|))
  {
    hide Head, ReadInt;
    HoldsSplit(data, pos, Head(major, |b|).value, b);
    HeadRoundTrip(data, pos, major, |b|);
  }

  lemma KeyRoundTrip(data: Bytes, pos: nat, v: Value)
    requires KeyOf(v).Some? && IsPython(v) && Encode(v).Some? && Holds(data, pos, Encode(v).value)
    ensures Read(data, pos) == Got((v, pos + |Encode(v).value|))
  {
    hide Head, ValidUtf8, ReadInt, ReadBlob, ReadItems, ReadEntries;
    match v
    case Int(n) => HeadRoundTrip(data, pos, if n >= 0 then 0 else 1, if n >= 0 then n else -1 - n);
    case Blob(b) => BlobReadsBack(data, pos, 2, b);
    case Text(t) => BlobReadsBack(data, pos, 3, t);
    case Bool(_) => FirstByte(data, pos, Encode(v).value);
    case Null => FirstByte(data, pos, Encode(v).value);
    case List(_) =>
    case Dict(_) =>
  }

  // ---- Sorting entries and sorting their encodings agree ----

  predicate KeysDiffer(a: Entry, b: Entry) {
    !KeyEq(a.key, b.key)
  }

  function PairOf(e: Entry): Pair {
    if EncodeEntry(e).Some? then EncodeEntry(e).value else Pair([], [])
  }

  lemma {:induction false} EncodePairsIsMap(entries: seq<Entry>)
    ensures EncodePairs(entries).Some? <==>
      forall i :: 0 <= i < |entries| ==> EncodeEntry(entries[i]).Some?
    ensures EncodePairs(entries).Some? ==> EncodePairs(entries).value == Map(PairOf, entries)
  {
    hide EncodeEntry, EncodePairs;
    if entries == [] {
      NoPairs();
    } else {
      EncodePairsCons(entries);
      EncodePairsIsMap(entries[1..]);
      assert forall i :: 0 < i < |entries| ==> entries[i] == entries[1..][i - 1];
      assert Map(PairOf, entries) == [PairOf(entries[0])] + Map(PairOf, entries[1..]);
    }
  }

  /** The bytes of some entries in the order given. */
  function EntriesBytes(entries: seq<Entry>): Bytes {
    if entries == [] then []
    else PairOf(entries[0]).key + PairOf(entries[0]).value + EntriesBytes(entries[1..])
  }

  lemma {:induction false} FlattenIsEntriesBytes(entries: seq<Entry>)
    requires EncodePairs(entries).Some?
    ensures Flatten(EncodePairs(entries).value) == EntriesBytes(entries)
  {
    hide EncodeEntry, EncodePairs;
    if entries == [] {
      NoPairs();
    } else {
      EncodePairsCons(entries);
      FlattenIsEntriesBytes(entries[1..]);
      assert PairOf(entries[0]) == EncodeEntry(entries[0]).value;
    }
  }

  lemma KeyEqSymmetric(j: Key, k: Key)
    ensures KeyEq(j, k) <==> KeyEq(k, j)
  {
  }

  lemma SortedStaysDistinct(entries: seq<Entry>)
    requires DistinctKeys(entries)
    ensures DistinctKeys(Sort(EntryLe, entries))
  {
    hide KeyEq;
    var sorted := Sort(EntryLe, entries);
    assert Pairwise(KeysDiffer, entries);
    forall x, y | x in entries && y in entries && KeysDiffer(x, y) ensures KeysDiffer(y, x) {
      KeyEqSymmetric(x.key, y.key);
    }
    SortKeepsPairwise(KeysDiffer, EntryLe, entries);
    forall i, j | 0 <= i < j < |sorted| ensures !KeyEq(sorted[i].key, sorted[j].key) {
      assert KeysDiffer(sorted[i], sorted[j]);
    }
  }

  lemma CodesAgree(e: Entry)
    requires EncodeEntry(e).Some?
    ensures PairOf(e).key == KeyCode(e.key) && EncodeKey(e.key) == Some(KeyCode(e.key))
  {
  }

  lemma SortedBytes(entries: seq<Entry>)
    requires EncodePairs(entries).Some?
    ensures EncodePairs(Sort(EntryLe, entries)) == Some(Sort(PairLe, EncodePairs(entries).value))
    ensures Flatten(Sort(PairLe, EncodePairs(entries).value)) == EntriesBytes(Sort(EntryLe, entries))
  {
    hide EncodePairs, EncodeEntry, Flatten, EntriesBytes, BytesLe, EncodeKey, Sort;
    var sorted := Sort(EntryLe, entries);
    SortPermutes(EntryLe, entries);
    EncodePairsIsMap(entries);
    EncodePairsIsMap(sorted);
    forall i | 0 <= i < |sorted| ensures EncodeEntry(sorted[i]).Some? {
      assert sorted[i] in entries;
    }
    forall a, b | a in entries && b in entries ensures EntryLe(a, b) == PairLe(PairOf(a), PairOf(b)) {
      CodesAgree(a);
      CodesAgree(b);
    }
    SortCommutesWithMap(PairOf, EntryLe, PairLe, entries);
    FlattenIsEntriesBytes(sorted);
  }

  lemma SortedCanon(entries: seq<Entry>)
    ensures CanonEntries(Sort(EntryLe, entries)) == Sort(EntryLe, CanonEntries(entries))
  {
    SortCommutesWithMap(CanonEntry, EntryLe, EntryLe, entries);
  }

  lemma SortKeepsLength(entries: seq<Entry>)
    ensures |Sort(EntryLe, entries)| == |entries|
  {
    SortPermutes(EntryLe, entries);
  }

  lemma {:induction false} PutAppends(out: seq<Entry>, k: Key, v: Value)
    requires forall i :: 0 <= i < |out| ==> !KeyEq(out[i].key, k)
    ensures Put(out, k, v) == out + [Entry(k, v)]
  {
    if out == [] {
    } else {
      PutAppends(out[1..], k, v);
    }
  }

  // ---- Round trip at any position ----

  lemma ReadOfList(data: Bytes, pos: nat, n: nat, start: nat, items: seq<Value>, end: nat)
    requires pos < |data| && data[pos] / 32 == 4 && start <= |data|
    requires ReadInt(data, pos + 1, data[pos] % 32) == Got((n, start))
    requires ReadItems(data, start, n) == Got((items, end))
    ensures Read(data, pos) == Got((List(items), end))
  {
    hide ReadItems, ReadEntries, ReadInt;
  }

  lemma ReadOfDict(data: Bytes, pos: nat, n: nat, start: nat, entries: seq<Entry>, end: nat)
    requires pos < |data| && data[pos] / 32 == 5 && start <= |data|
    requires ReadInt(data, pos + 1, data[pos] % 32) == Got((n, start))
    requires ReadEntries(data, start, n, []) == Got((entries, end))
    ensures Read(data, pos) == Got((Dict(entries), end))
  {
    hide ReadItems, ReadEntries, ReadInt;
  }

  lemma ReadEntriesStep(
    data: Bytes, pos: nat, n: nat, out: seq<Entry>, k: Key, middle: nat, v: Value, end: nat)
    requires n > 0 && pos <= middle <= end <= |data|
    requires Read(data, pos) == Got((KeyValue(k), middle)) && Read(data, middle) == Got((v, end))
    ensures ReadEntries(data, pos, n, out) == ReadEntries(data, end, n - 1, Put(out, k, v))
  {
    hide Read;
  }

  /** Main result: wherever the input holds an encoding, reading there gives the value back. */
  lemma {:induction false} ReadsBack(data: Bytes, pos: nat, v: Value)
    requires IsPython(v) && Encode(v).Some? && Holds(data, pos, Encode(v).value)
    ensures Read(data, pos) == Got((Canon(v), pos + |Encode(v).value|))
    decreases v, 1
  {
    hide Read, Holds, Head, ValidUtf8, EncodeKey, DistinctKeys;
    match v
    case List(items) =>
      var head, body := Head(4, |items|).value, EncodeAll(items).value;
      HoldsSplit(data, pos, head, body);
      HeadRoundTrip(data, pos, 4, |items|);
      ItemsReadBack(data, pos + |head|, items);
      ReadOfList(data, pos, |items|, pos + |head|, CanonAll(items), pos + |head| + |body|);
    case Dict(entries) => DictReadsBack(data, pos, entries);
    case _ =>
      KeyRoundTrip(data, pos, v);
  }

  lemma {:induction false} ItemsReadBack(data: Bytes, pos: nat, items: seq<Value>)
    requires forall i :: 0 <= i < |items| ==> IsPython(items[i])
    requires EncodeAll(items).Some? && Holds(data, pos, EncodeAll(items).value)
    ensures ReadItems(data, pos, |items|) == Got((CanonAll(items), pos + |EncodeAll(items).value|))
    decreases items, 0
  {
    hide Read, Encode, Canon, IsPython;
    if items == [] {
    } else {
      var first, rest := Encode(items[0]).value, EncodeAll(items[1..]).value;
      HoldsSplit(data, pos, first, rest);
      ReadsBack(data, pos, items[0]);
      ItemsReadBack(data, pos + |first|, items[1..]);
    }
  }

  /** Every entry can be read back and its value is a proper part of v. */
  ghost predicate ReadableBelow(entries: seq<Entry>, v: Value) {
    forall i :: 0 <= i < |entries| ==>
      && IsPythonKey(entries[i].key) && IsPython(entries[i].value)
      && EncodeEntry(entries[i]).Some? && entries[i].value < v
  }

  lemma DictIsReadable(entries: seq<Entry>)
    requires IsPython(Dict(entries)) && EncodePairs(entries).Some?
    ensures ReadableBelow(Sort(EntryLe, entries), Dict(entries))
  {
    hide IsPythonKey, EncodeEntry;
    var sorted := Sort(EntryLe, entries);
    SortPermutes(EntryLe, entries);
    EncodePairsIsMap(entries);
    forall i | 0 <= i < |sorted|
      ensures IsPythonKey(sorted[i].key) && IsPython(sorted[i].value)
      ensures EncodeEntry(sorted[i]).Some? && sorted[i].value < Dict(entries)
    {
      assert sorted[i] in entries;
      var k :| 0 <= k < |entries| && entries[k] == sorted[i];
      assert entries[k].value < entries[k];
    }
  }

  lemma DictShape(entries: seq<Entry>)
    requires Encode(Dict(entries)).Some?
    ensures EncodePairs(entries).Some? && Head(5, |entries|).Some?
    ensures Encode(Dict(entries))
      == Some(Head(5, |entries|).value + Flatten(Sort(PairLe, EncodePairs(entries).value)))
    ensures IsPython(Dict(entries)) ==> DistinctKeys(entries)
    ensures Canon(Dict(entries)) == Dict(Sort(EntryLe, CanonEntries(entries)))
  {
    DictEncoding(entries);
    CanonOfDict(entries);
    hide Head, Flatten, EncodePairs, CanonEntries, Sort, IsPythonKey, DistinctKeys, Encode, Canon;
  }

  lemma {:induction false} DictReadsBack(data: Bytes, pos: nat, entries: seq<Entry>)
    requires IsPython(Dict(entries)) && Encode(Dict(entries)).Some?
    requires Holds(data, pos, Encode(Dict(entries)).value)
    ensures Read(data, pos) == Got((Canon(Dict(entries)), pos + |Encode(Dict(entries)).value|))
    decreases Dict(entries), 0, |entries| + 1
  {
    hide *;
    DictShape(entries);
    var sorted, pairs := Sort(EntryLe, entries), EncodePairs(entries).value;
    var head, body := Head(5, |entries|).value, Flatten(Sort(PairLe, pairs));
    HoldsSplit(data, pos, head, body);
    HeadRoundTrip(data, pos, 5, |entries|);
    SortKeepsLength(entries);
    SortedStaysDistinct(entries);
    SortedBytes(entries);
    SortedCanon(entries);
    DictIsReadable(entries);
    assert [] + sorted == sorted && [] + CanonEntries(sorted) == CanonEntries(sorted);
    HoldsFits(data, pos, head);
    EntriesReadBack(data, pos + |head|, Dict(entries), sorted, []);
    ReadOfDict(data, pos, |entries|, pos + |head|, CanonEntries(sorted), pos + |head| + |body|);
  }

  lemma DistinctUnderCanon(out: seq<Entry>, entries: seq<Entry>)
    requires entries != [] && DistinctKeys(out + entries)
    ensures DistinctKeys((out + [CanonEntry(entries[0])]) + entries[1..])
    ensures Put(out, entries[0].key, Canon(entries[0].value)) == out + [CanonEntry(entries[0])]
  {
    hide KeyEq, Canon;
    var before, after := out + entries, (out + [CanonEntry(entries[0])]) + entries[1..];
    forall i | 0 <= i < |after| ensures after[i].key == before[i].key {
    }
    forall i | 0 <= i < |out| ensures !KeyEq(out[i].key, entries[0].key) {
      assert before[i] == out[i] && before[|out|] == entries[0];
    }
    PutAppends(out, entries[0].key, Canon(entries[0].value));
  }

  lemma UnfoldEntries(entries: seq<Entry>)
    requires entries != []
    ensures EntriesBytes(entries)
      == PairOf(entries[0]).key + (PairOf(entries[0]).value + EntriesBytes(entries[1..]))
    ensures CanonEntries(entries) == [CanonEntry(entries[0])] + CanonEntries(entries[1..])
  {
    hide PairOf, CanonEntry;
    assert CanonEntries(entries)[1..] == CanonEntries(entries[1..]);
  }

  lemma EntriesInPieces(data: Bytes, pos: nat, entries: seq<Entry>)
    requires entries != [] && Holds(data, pos, EntriesBytes(entries))
    ensures var pair := PairOf(entries[0]);
      && Holds(data, pos, pair.key) && Holds(data, pos + |pair.key|, pair.value)
      && Holds(data, pos + |pair.key| + |pair.value|, EntriesBytes(entries[1..]))
      && pos + |pair.key| + |pair.value| <= |data|
  {
    hide *;
    UnfoldEntries(entries);
    var pair, rest := PairOf(entries[0]), EntriesBytes(entries[1..]);
    HoldsSplit(data, pos, pair.key, pair.value + rest);
    HoldsSplit(data, pos + |pair.key|, pair.value, rest);
    HoldsFits(data, pos + |pair.key|, pair.value);
  }

  lemma EntriesStep(data: Bytes, pos: nat, entries: seq<Entry>, out: seq<Entry>, middle: nat, next: nat)
    requires entries != [] && pos <= middle <= next <= |data| && DistinctKeys(out + entries)
    requires Read(data, pos) == Got((KeyValue(entries[0].key), middle))
    requires Read(data, middle) == Got((Canon(entries[0].value), next))
    ensures ReadEntries(data, pos, |entries|, out)
      == ReadEntries(data, next, |entries[1..]|, out + [CanonEntry(entries[0])])
  {
    hide *;
    DistinctUnderCanon(out, entries);
    ReadEntriesStep(data, pos, |entries|, out, entries[0].key, middle, Canon(entries[0].value), next);
  }

  lemma ReadableCons(entries: seq<Entry>, v: Value)
    requires entries != [] && ReadableBelow(entries, v)
    ensures ReadableBelow(entries[1..], v)
    ensures IsPythonKey(entries[0].key) && IsPython(entries[0].value) && entries[0].value < v
    ensures EncodeKey(entries[0].key) == Some(PairOf(entries[0]).key)
    ensures Encode(entries[0].value) == Some(PairOf(entries[0]).value)
  {
    hide IsPythonKey, IsPython, Encode, EncodeKey;
  }

  lemma NothingReadsBack(data: Bytes, pos: nat, out: seq<Entry>)
    requires pos <= |data|
    ensures ReadEntries(data, pos, 0, out) == Got((out + CanonEntries([]), pos + |EntriesBytes([])|))
  {
    assert out + [] == out;
  }

  lemma KeyReadsBack(data: Bytes, pos: nat, k: Key)
    requires IsPythonKey(k) && EncodeKey(k).Some? && Holds(data, pos, EncodeKey(k).value)
    ensures Read(data, pos) == Got((KeyValue(k), pos + |EncodeKey(k).value|))
  {
    hide Read, Holds, ValidUtf8;
    KeyRoundTrip(data, pos, KeyValue(k));
  }

  /** The entries of v, in some order, are read one after the other into `out`. */
  lemma {:induction false} EntriesReadBack(
    data: Bytes, pos: nat, v: Value, entries: seq<Entry>, out: seq<Entry>)
    requires ReadableBelow(entries, v) && DistinctKeys(out + entries)
    requires pos <= |data| && Holds(data, pos, EntriesBytes(entries))
    ensures ReadEntries(data, pos, |entries|, out)
      == Got((out + CanonEntries(entries), pos + |EntriesBytes(entries)|))
    decreases v, 0, |entries|
  {
    hide *;
    if entries == [] {
      NothingReadsBack(data, pos, out);
    } else {
      var e, tail := entries[0], entries[1..];
      var middle := pos + |PairOf(e).key|;
      var next, out' := middle + |PairOf(e).value|, out + [CanonEntry(e)];
      ReadableCons(entries, v);
      EntriesInPieces(data, pos, entries);
      KeyReadsBack(data, pos, e.key);
      ReadsBack(data, middle, e.value);
      EntriesStep(data, pos, entries, out, middle, next);
      DistinctUnderCanon(out, entries);
      EntriesReadBack(data, next, v, tail, out');
      UnfoldEntries(entries);
      assert out + CanonEntries(entries) == out' + CanonEntries(tail);
    }
  }
}
