/** What the CBOR bytes of a value say: one value, no proper prefix, keys in order, whatever the dict order. */
module CborCanonical {
  import opened Prelude
  import opened Cbor
  import opened CborRoundTrip

  /** Main result: decoding an encoding followed by anything gives the value and its length. */
  lemma RoundTripUnderSuffix(v: Value, rest: Bytes)
    requires IsPython(v) && InRange(v)
    ensures Encode(v).Some?
    ensures Read(Encode(v).value + rest, 0) == Got((Canon(v), |Encode(v).value|))
  {
    hide *;
    EncodesIffInRange(v);
    var code := Encode(v).value;
    HoldsAtFront(code, rest);
    ReadsBack(code + rest, 0, v);
  }

  /** Main result: no encoding is a proper prefix of another; equal bytes mean one value. */
  lemma PrefixFree(v: Value, w: Value)
    requires IsPython(v) && IsPython(w) && Encode(v).Some? && Encode(w).Some?
    requires Encode(v).value <= Encode(w).value
    ensures Canon(v) == Canon(w) && Encode(v) == Encode(w)
  {
    hide *;
    var code, longer := Encode(v).value, Encode(w).value;
    var rest := longer[|code|..];
    assert longer == code + rest && longer == longer + [];
    HoldsAtFront(code, rest);
    HoldsAtFront(longer, []);
    ReadsBack(longer, 0, v);
    ReadsBack(longer, 0, w);
  }

  // ---- The decoder looks at nothing behind what it consumes ----

  lemma ReadIntStable(data: Bytes, more: Bytes, pos: nat, info: nat)
    requires pos <= |data| && ReadInt(data, pos, info).Got?
    ensures ReadInt(data + more, pos, info) == ReadInt(data, pos, info)
  {
    hide FromBe;
    if 24 <= info <= 27 {
      var width := if info == 24 then 1 else if info == 25 then 2 else if info == 26 then 4 else 8;
      assert (data + more)[pos..pos + width] == data[pos..pos + width];
    }
  }

  lemma ReadBlobStable(data: Bytes, more: Bytes, pos: nat, info: nat)
    requires pos <= |data| && ReadBlob(data, pos, info).Got?
    ensures ReadBlob(data + more, pos, info) == ReadBlob(data, pos, info)
  {
    hide ReadInt;
    ReadIntStable(data, more, pos, info);
    var n := ReadInt(data, pos, info).value;
    assert (data + more)[n.1..n.1 + n.0] == data[n.1..n.1 + n.0];
  }

  /** Main result: what has been decoded stays the same whatever bytes follow. */
  lemma {:induction false} ReadIsStable(data: Bytes, more: Bytes, pos: nat)
    requires Read(data, pos).Got?
    ensures Read(data + more, pos) == Read(data, pos)
    decreases |data| - pos, 0
  {
    hide ReadInt, ReadBlob, ReadItems, ReadEntries, ValidUtf8;
    assert (data + more)[pos] == data[pos];
    var major, info, next := data[pos] / 32, data[pos] % 32, pos + 1;
    if major <= 1 {
      ReadIntStable(data, more, next, info);
    } else if major <= 3 {
      ReadBlobStable(data, more, next, info);
    } else if major <= 5 {
      ReadIntStable(data, more, next, info);
      var n := ReadInt(data, next, info).value;
      if major == 4 {
        ReadItemsStable(data, more, n.1, n.0);
      } else {
        ReadEntriesStable(data, more, n.1, n.0, []);
      }
    }
  }

  lemma {:induction false} ReadItemsStable(data: Bytes, more: Bytes, pos: nat, n: nat)
    requires pos <= |data| && ReadItems(data, pos, n).Got?
    ensures ReadItems(data + more, pos, n) == ReadItems(data, pos, n)
    decreases |data| - pos, 1
  {
    hide Read;
    if n == 0 {
    } else {
      ReadIsStable(data, more, pos);
      ReadItemsStable(data, more, Read(data, pos).value.1, n - 1);
    }
  }

  lemma {:induction false} ReadEntriesStable(data: Bytes, more: Bytes, pos: nat, n: nat, out: seq<Entry>)
    requires pos <= |data| && ReadEntries(data, pos, n, out).Got?
    ensures ReadEntries(data + more, pos, n, out) == ReadEntries(data, pos, n, out)
    decreases |data| - pos, 1
  {
    hide Read, Put, KeyOf;
    if n == 0 {
    } else {
      var k := Read(data, pos).value;
      var v := Read(data, k.1).value;
      ReadIsStable(data, more, pos);
      ReadIsStable(data, more, k.1);
      ReadEntriesStable(data, more, v.1, n - 1, Put(out, KeyOf(k.0).value, v.0));
    }
  }

  /** Main result: an encoding that is cut short does not decode. */
  lemma TruncationIsDetected(v: Value, k: nat)
    requires IsPython(v) && InRange(v)
    ensures Encode(v).Some?
    ensures k < |Encode(v).value| ==> !Read(Encode(v).value[..k], 0).Got?
  {
    hide *;
    EncodesIffInRange(v);
    var code := Encode(v).value;
    if k < |code| && Read(code[..k], 0).Got? {
      ReadIsStable(code[..k], code[k..], 0);
      assert code[..k] + code[k..] == code && code + [] == code;
      RoundTripUnderSuffix(v, []);
    }
  }

  lemma KeyCodeInjective(j: Key, k: Key)
    requires IsPythonKey(j) && IsPythonKey(k) && EncodeKey(j).Some? && EncodeKey(k).Some?
    requires KeyCode(j) == KeyCode(k)
    ensures j == k
  {
    hide IsPythonKey, EncodeKey, Holds, Read;
    HoldsAtFront(KeyCode(j), []);
    KeyReadsBack(KeyCode(j) + [], 0, j);
    KeyReadsBack(KeyCode(j) + [], 0, k);
  }

  // ---- The first byte ----

  /** The major type of each kind of value (section 3.1 of RFC 8949). */
  function MajorOf(v: Value): nat {
    match v
    case Int(n) => if n >= 0 then 0 else 1
    case Blob(_) => 2
    case Text(_) => 3
    case List(_) => 4
    case Dict(_) => 5
    case Bool(_) => 7
    case Null => 7
  }

  lemma HeadMajor(major: nat, n: nat)
    requires major < 8 && Head(major, n).Some?
    ensures Head(major, n).value != [] && Head(major, n).value[0] / 32 == major
  {
  }

  lemma FirstByteIsMajor(v: Value)
    requires Encode(v).Some?
    ensures Encode(v).value != [] && Encode(v).value[0] / 32 == MajorOf(v)
  {
    hide Head, EncodeAll, Collect, Flatten, Sort;
    match v
    case Int(n) => HeadMajor(MajorOf(v), if n >= 0 then n else -1 - n);
    case Blob(b) => HeadMajor(2, |b|);
    case Text(t) => HeadMajor(3, |t|);
    case List(items) => HeadMajor(4, |items|);
    case Dict(entries) => HeadMajor(5, |entries|);
    case Bool(_) =>
    case Null =>
  }

  // ---- The orders used by the sorts ----

  lemma PairOrder()
    ensures TotalPreorder(PairLe)
  {
    forall p, q ensures PairLe(p, q) || PairLe(q, p) { BytesLeTotal(p.key, q.key); }
    forall p, q, r | PairLe(p, q) && PairLe(q, r) ensures PairLe(p, r) {
      BytesLeTransitive(p.key, q.key, r.key);
    }
  }

  lemma EntryOrder()
    ensures TotalPreorder(EntryLe)
  {
    hide KeyCode;
    forall p, q ensures EntryLe(p, q) || EntryLe(q, p) { BytesLeTotal(KeyCode(p.key), KeyCode(q.key)); }
    forall p, q, r | EntryLe(p, q) && EntryLe(q, r) ensures EntryLe(p, r) {
      BytesLeTransitive(KeyCode(p.key), KeyCode(q.key), KeyCode(r.key));
    }
  }

  /** Main result: a dict goes out with its encoded keys strictly increasing (section 4.2.1 of RFC 8949). */
  lemma MapKeysStrictlyIncrease(entries: seq<Entry>)
    requires IsPython(Dict(entries)) && Encode(Dict(entries)).Some?
    ensures EncodePairs(entries).Some? && Head(5, |entries|).Some?
    ensures var pairs := Sort(PairLe, EncodePairs(entries).value);
      && Encode(Dict(entries)) == Some(Head(5, |entries|).value + Flatten(pairs))
      && multiset(pairs) == multiset(EncodePairs(entries).value)
      && forall i, j :: 0 <= i < j < |pairs| ==>
           BytesLe(pairs[i].key, pairs[j].key) && pairs[i].key != pairs[j].key
  {
    DictShape(entries);
    var sorted, pairs := Sort(EntryLe, entries), Sort(PairLe, EncodePairs(entries).value);
    PairOrder();
    SortSorts(PairLe, EncodePairs(entries).value);
    SortPermutes(PairLe, EncodePairs(entries).value);
    SortedBytes(entries);
    EncodePairsIsMap(sorted);
    DictIsReadable(entries);
    SortedStaysDistinct(entries);
    hide EncodeKey, EncodeEntry, IsPythonKey, Encode, EncodePairs, BytesLe, Sort, IsPython, Flatten, Head;
    forall i, j | 0 <= i < j < |pairs|
      ensures BytesLe(pairs[i].key, pairs[j].key) && pairs[i].key != pairs[j].key
    {
      assert PairLe(pairs[i], pairs[j]);
      CodesAgree(sorted[i]);
      CodesAgree(sorted[j]);
      if pairs[i].key == pairs[j].key {
        KeyCodeInjective(sorted[i].key, sorted[j].key);
      }
    }
  }

  // ---- Equality of Python values, dict order aside ----

  /** v == w as Python compares them, with every leaf of the same type. */
  ghost predicate Same(v: Value, w: Value)
    decreases v
  {
    match (v, w)
    case (List(xs), List(ys)) => |xs| == |ys| && forall i :: 0 <= i < |xs| ==> Same(xs[i], ys[i])
    case (Dict(es), Dict(fs)) =>
      && |es| == |fs|
      && forall i :: 0 <= i < |es| ==>
        exists j :: 0 <= j < |fs| && es[i].key == fs[j].key && Same(es[i].value, fs[j].value)
    case _ => v == w
  }

  lemma PartsEncode(v: Value)
    requires Encode(v).Some?
    ensures v.List? ==> forall i :: 0 <= i < |v.items| ==> Encode(v.items[i]).Some?
    ensures v.Dict? ==> forall i :: 0 <= i < |v.entries| ==> Encode(v.entries[i].value).Some?
  {
    hide Encode;
    EncodesIffInRange(v);
    if v.List? {
      forall i | 0 <= i < |v.items| ensures Encode(v.items[i]).Some? { EncodesIffInRange(v.items[i]); }
    } else if v.Dict? {
      forall i | 0 <= i < |v.entries| ensures Encode(v.entries[i].value).Some? {
        EncodesIffInRange(v.entries[i].value);
      }
    }
  }

  lemma PartsArePython(v: Value)
    requires IsPython(v)
    ensures v.List? ==> forall i :: 0 <= i < |v.items| ==> IsPython(v.items[i])
    ensures v.Dict? ==> forall i :: 0 <= i < |v.entries| ==> IsPython(v.entries[i].value)
  {
  }

  lemma CanonEntriesKeepEncoding(entries: seq<Entry>)
    requires forall i :: 0 <= i < |entries| ==> Encode(Canon(entries[i].value)) == Encode(entries[i].value)
    ensures EncodePairs(CanonEntries(entries)) == EncodePairs(entries)
  {
    hide Encode, EncodeKey, Canon, Collect;
    assert Map(EncodeEntry, CanonEntries(entries)) == Map(EncodeEntry, entries);
  }

  lemma CanonDictKeepsEncoding(entries: seq<Entry>)
    requires Encode(Dict(entries)).Some?
    requires forall i :: 0 <= i < |entries| ==> Encode(Canon(entries[i].value)) == Encode(entries[i].value)
    ensures Encode(Canon(Dict(entries))) == Encode(Dict(entries))
  {
    CanonEntriesKeepEncoding(entries);
    hide *;
    DictShape(entries);
    var canon, pairs := CanonEntries(entries), EncodePairs(entries).value;
    SortedBytes(canon);
    PairOrder();
    SortSorts(PairLe, pairs);
    SortOfSorted(PairLe, Sort(PairLe, pairs));
    SortKeepsLength(canon);
    DictEncoding(Sort(EntryLe, canon));
    DictEncoding(entries);
  }

  lemma {:induction false} CanonKeepsEncoding(v: Value)
    requires Encode(v).Some?
    ensures Encode(Canon(v)) == Encode(v)
    decreases v, 1
  {
    match v
    case List(items) => CanonAllKeepsEncoding(items);
    case Dict(entries) =>
      PartsEncode(v);
      forall i | 0 <= i < |entries| ensures Encode(Canon(entries[i].value)) == Encode(entries[i].value) {
        CanonKeepsEncoding(entries[i].value);
      }
      CanonDictKeepsEncoding(entries);
    case _ =>
  }

  lemma {:induction false} CanonAllKeepsEncoding(items: seq<Value>)
    requires EncodeAll(items).Some?
    ensures EncodeAll(CanonAll(items)) == EncodeAll(items)
    decreases items, 0
  {
    hide Encode, Canon;
    if items == [] {
    } else {
      CanonKeepsEncoding(items[0]);
      CanonAllKeepsEncoding(items[1..]);
      assert CanonAll(items)[1..] == CanonAll(items[1..]);
    }
  }

  lemma {:induction false} CanonAt(items: seq<Value>, i: nat)
    requires i < |items|
    ensures CanonAll(items)[i] == Canon(items[i])
  {
    hide Canon;
    if i == 0 {
    } else {
      CanonAt(items[1..], i - 1);
    }
  }

  // ---- Same dict, same sorted entries ----

  lemma {:induction false} DistinctCard<T>(s: seq<T>)
    requires forall i, j :: 0 <= i < j < |s| ==> s[i] != s[j]
    ensures |set x | x in s| == |s|
  {
    if s == [] {
    } else {
      DistinctCard(s[1..]);
      assert (set x | x in s) == {s[0]} + (set x | x in s[1..]);
    }
  }

  lemma SubsetOfSameSize<T>(a: set<T>, b: set<T>)
    requires a <= b && |a| == |b|
    ensures a == b
  {
    assert b == a + (b - a);
  }

  ghost predicate Coded(entries: seq<Entry>) {
    && DistinctKeys(entries)
    && forall i :: 0 <= i < |entries| ==> IsPythonKey(entries[i].key) && EncodeKey(entries[i].key).Some?
  }

  lemma CodedFacts(entries: seq<Entry>, x: Entry, y: Entry)
    requires Coded(entries) && x in entries && y in entries && KeyCode(x.key) == KeyCode(y.key)
    ensures x == y
  {
    hide KeyCode, IsPythonKey, EncodeKey;
    KeyCodeInjective(x.key, y.key);
    var i :| 0 <= i < |entries| && entries[i] == x;
    var j :| 0 <= j < |entries| && entries[j] == y;
  }

  lemma CodedEntriesDistinct(entries: seq<Entry>)
    requires Coded(entries)
    ensures forall i, j :: 0 <= i < j < |entries| ==> entries[i] != entries[j]
  {
  }

  lemma SortedCodedDistinct(entries: seq<Entry>)
    requires Coded(entries)
    ensures var sorted := Sort(EntryLe, entries);
      forall i, j :: 0 <= i < j < |sorted| ==> sorted[i] != sorted[j]
  {
    SortedStaysDistinct(entries);
  }

  lemma SameElementsBothWays(a: seq<Entry>, b: seq<Entry>)
    requires Coded(a) && Coded(b) && |a| == |b| && forall e :: e in a ==> e in b
    ensures forall e :: e in a <==> e in b
  {
    CodedEntriesDistinct(a);
    CodedEntriesDistinct(b);
    hide Coded;
    DistinctCard(a);
    DistinctCard(b);
    var inA, inB := set e | e in a, set e | e in b;
    SubsetOfSameSize(inA, inB);
    assert forall e :: e in b ==> e in inB;
  }

  lemma EqualCodes(x: Entry, y: Entry)
    requires EntryLe(x, y) && EntryLe(y, x)
    ensures KeyCode(x.key) == KeyCode(y.key)
  {
    BytesLeAntisymmetric(KeyCode(x.key), KeyCode(y.key));
  }

  lemma SameElementsSameSort(a: seq<Entry>, b: seq<Entry>)
    requires Coded(a) && Coded(b) && |a| == |b| && forall e :: e in a ==> e in b
    ensures Sort(EntryLe, a) == Sort(EntryLe, b)
  {
    hide *;
    SameElementsBothWays(a, b);
    var s, t := Sort(EntryLe, a), Sort(EntryLe, b);
    EntryOrder();
    SortSorts(EntryLe, a);
    SortSorts(EntryLe, b);
    SortPermutes(EntryLe, a);
    SortPermutes(EntryLe, b);
    SortedCodedDistinct(a);
    SortedCodedDistinct(b);
    forall x, y | x in s && y in s && EntryLe(x, y) && EntryLe(y, x) ensures x == y {
      EqualCodes(x, y);
      CodedFacts(a, x, y);
    }
    StrictlySortedUnique(EntryLe, s, t);
  }

  lemma CanonIsCoded(entries: seq<Entry>)
    requires IsPython(Dict(entries)) && Encode(Dict(entries)).Some?
    ensures Coded(CanonEntries(entries))
  {
    DictShape(entries);
    EncodePairsIsMap(entries);
    var canon := CanonEntries(entries);
    forall i | 0 <= i < |canon|
      ensures canon[i].key == entries[i].key
      ensures IsPythonKey(canon[i].key) && EncodeKey(canon[i].key).Some?
    {
      CodesAgree(entries[i]);
    }
  }

  ghost predicate HasEqualEntry(e: Entry, fs: seq<Entry>) {
    exists j :: 0 <= j < |fs| && e.key == fs[j].key && Canon(e.value) == Canon(fs[j].value)
  }

  /** When equal keys carry equal values, two dicts have the same sorted entries. */
  lemma SameSortedEntries(es: seq<Entry>, fs: seq<Entry>)
    requires IsPython(Dict(es)) && IsPython(Dict(fs)) && Encode(Dict(es)).Some? && Encode(Dict(fs)).Some?
    requires |es| == |fs|
    requires forall i :: 0 <= i < |es| ==> HasEqualEntry(es[i], fs)
    ensures Canon(Dict(es)) == Canon(Dict(fs))
  {
    hide IsPython, Encode, Canon;
    var a, b := CanonEntries(es), CanonEntries(fs);
    forall e | e in a ensures e in b {
      var i :| 0 <= i < |a| && a[i] == e;
      var j :| 0 <= j < |b| && es[i].key == fs[j].key && Canon(es[i].value) == Canon(fs[j].value);
      assert b[j] == e;
    }
    CanonIsCoded(es);
    CanonIsCoded(fs);
    SameElementsSameSort(a, b);
    CanonOfDict(es);
    CanonOfDict(fs);
  }

  lemma {:induction false} SameImpliesEqualCanon(v: Value, w: Value)
    requires IsPython(v) && IsPython(w) && Encode(v).Some? && Encode(w).Some? && Same(v, w)
    ensures Canon(v) == Canon(w)
    decreases v
  {
    hide IsPython, Encode;
    PartsEncode(v);
    PartsEncode(w);
    PartsArePython(v);
    PartsArePython(w);
    if v.List? {
      forall i | 0 <= i < |v.items| ensures CanonAll(v.items)[i] == CanonAll(w.items)[i] {
        SameImpliesEqualCanon(v.items[i], w.items[i]);
        CanonAt(v.items, i);
        CanonAt(w.items, i);
      }
      assert CanonAll(v.items) == CanonAll(w.items);
    } else if v.Dict? {
      forall i | 0 <= i < |v.entries| ensures HasEqualEntry(v.entries[i], w.entries) {
        var j :| 0 <= j < |w.entries| && v.entries[i].key == w.entries[j].key
          && Same(v.entries[i].value, w.entries[j].value);
        SameImpliesEqualCanon(v.entries[i].value, w.entries[j].value);
      }
      SameSortedEntries(v.entries, w.entries);
    }
  }

  /** An entry of one dict has its counterpart in a dict with the same sorted entries. */
  lemma Counterpart(es: seq<Entry>, fs: seq<Entry>, i: nat) returns (j: nat)
    requires Sort(EntryLe, CanonEntries(es)) == Sort(EntryLe, CanonEntries(fs)) && i < |es|
    ensures j < |fs| && es[i].key == fs[j].key && Canon(es[i].value) == Canon(fs[j].value)
  {
    hide EntryLe, Canon, Sort;
    var a, b := CanonEntries(es), CanonEntries(fs);
    SortPermutes(EntryLe, a);
    SortPermutes(EntryLe, b);
    assert a[i] in Sort(EntryLe, a) && a[i] in b;
    j :| 0 <= j < |b| && b[j] == a[i];
  }

  lemma {:induction false} EqualCanonImpliesSame(v: Value, w: Value)
    requires Canon(v) == Canon(w)
    ensures Same(v, w)
    decreases v
  {
    hide EntryLe, Sort;
    if v.List? {
      forall i | 0 <= i < |v.items| ensures Same(v.items[i], w.items[i]) {
        CanonAt(v.items, i);
        CanonAt(w.items, i);
        EqualCanonImpliesSame(v.items[i], w.items[i]);
      }
    } else if v.Dict? {
      hide Canon, CanonEntries;
      CanonOfDict(v.entries);
      CanonOfDict(w.entries);
      var es, fs := v.entries, w.entries;
      SortKeepsLength(CanonEntries(es));
      SortKeepsLength(CanonEntries(fs));
      forall i | 0 <= i < |es|
        ensures exists j :: 0 <= j < |fs| && es[i].key == fs[j].key && Same(es[i].value, fs[j].value)
      {
        var j := Counterpart(es, fs, i);
        EqualCanonImpliesSame(es[i].value, fs[j].value);
      }
      assert forall i :: 0 <= i < |es| ==>
        exists j :: 0 <= j < |fs| && es[i].key == fs[j].key && Same(es[i].value, fs[j].value);
    }
  }

  lemma SortedDictIsCanonical(entries: seq<Entry>)
    requires CanonEntries(CanonEntries(entries)) == CanonEntries(entries)
    ensures Canon(Canon(Dict(entries))) == Canon(Dict(entries))
  {
    hide *;
    var canon := CanonEntries(entries);
    CanonOfDict(entries);
    CanonOfDict(Sort(EntryLe, canon));
    SortedCanon(canon);
    EntryOrder();
    SortSorts(EntryLe, canon);
    SortOfSorted(EntryLe, Sort(EntryLe, canon));
  }

  lemma {:induction false} CanonIdempotent(v: Value)
    ensures Canon(Canon(v)) == Canon(v)
    decreases v, 1
  {
    hide EntryLe, Sort;
    match v
    case List(items) => CanonAllIdempotent(items);
    case Dict(entries) =>
      var canon := CanonEntries(entries);
      forall i | 0 <= i < |entries| ensures CanonEntries(canon)[i] == canon[i] {
        CanonIdempotent(entries[i].value);
      }
      assert CanonEntries(canon) == canon;
      SortedDictIsCanonical(entries);
    case _ =>
  }

  lemma {:induction false} CanonAllIdempotent(items: seq<Value>)
    ensures CanonAll(CanonAll(items)) == CanonAll(items)
    decreases items, 0
  {
    hide Canon;
    if items == [] {
    } else {
      CanonIdempotent(items[0]);
      CanonAllIdempotent(items[1..]);
      assert CanonAll(items)[1..] == CanonAll(items[1..]);
    }
  }

  /** What decoding returns is the encoded value, dict order aside. */
  lemma CanonIsSame(v: Value)
    ensures Same(v, Canon(v))
  {
    hide *;
    CanonIdempotent(v);
    EqualCanonImpliesSame(v, Canon(v));
  }

  /** Main result: two values have the same bytes exactly when they are the same Python value. */
  lemma SameBytesIffSameValue(v: Value, w: Value)
    requires IsPython(v) && IsPython(w) && InRange(v) && InRange(w)
    ensures Encode(v).Some? && Encode(w).Some?
    ensures Encode(v) == Encode(w) <==> Same(v, w)
  {
    hide *;
    EncodesIffInRange(v);
    EncodesIffInRange(w);
    if Encode(v) == Encode(w) {
      PrefixFree(v, w);
      EqualCanonImpliesSame(v, w);
    }
    if Same(v, w) {
      SameImpliesEqualCanon(v, w);
      CanonKeepsEncoding(v);
      CanonKeepsEncoding(w);
    }
  }

  /** The order in which dict items were inserted does not reach the bytes. */
  lemma InsertionOrderIrrelevant(entries: seq<Entry>, others: seq<Entry>)
    requires IsPython(Dict(entries)) && Encode(Dict(entries)).Some?
    requires IsPython(Dict(others)) && Encode(Dict(others)).Some?
    requires multiset(entries) == multiset(others)
    ensures Encode(Dict(entries)) == Encode(Dict(others))
  {
    assert |multiset(entries)| == |multiset(others)|;
    EncodesIffInRange(Dict(entries));
    EncodesIffInRange(Dict(others));
    forall i | 0 <= i < |entries|
      ensures exists j :: 0 <= j < |others| && entries[i].key == others[j].key
                && Same(entries[i].value, others[j].value)
    {
      assert entries[i] in multiset(others);
      var j :| 0 <= j < |others| && others[j] == entries[i];
      EqualCanonImpliesSame(entries[i].value, others[j].value);
    }
    SameBytesIffSameValue(Dict(entries), Dict(others));
  }
}
