/** What the CBOR decoder returns for bytes the encoder need not have written. */
module CborDecoding {
  import opened Prelude
  import opened Cbor
  import opened CborRoundTrip
  import opened CborCanonical

  /** The bytes of v fit in the given room. */
  ghost predicate Reencodes(v: Value, room: int) {
    IsPython(v) && InRange(v) && Encode(v).Some? && |Encode(v).value| <= room
  }

  ghost predicate GoodEntry(e: Entry) {
    && IsPythonKey(e.key) && KeyInRange(e.key) && IsPython(e.value) && InRange(e.value)
    && EncodeEntry(e).Some?
  }

  ghost predicate GoodEntries(entries: seq<Entry>) {
    && DistinctKeys(entries)
    && forall i :: 0 <= i < |entries| ==> GoodEntry(entries[i])
  }

  // ---- Heads ----

  lemma ReadIntBound(data: Bytes, pos: nat, info: nat)
    requires pos <= |data| && info < 32 && ReadInt(data, pos, info).Got?
    ensures ReadInt(data, pos, info).value.0 <= MAX_64
  {
    Widths();
    hide FromBe, Pow256;
    if 24 <= info <= 27 {
      var width := if info == 24 then 1 else if info == 25 then 2 else if info == 26 then 4 else 8;
      FromBeBound(data[pos..pos + width]);
    }
  }

  lemma HeadExists(major: nat, n: nat)
    requires major < 8 && (n <= MAX_32 || (major <= 1 && n <= MAX_64))
    ensures Head(major, n).Some?
  {
  }

  lemma HeadGrows(major: nat, m: nat, n: nat)
    requires major < 8 && m <= n && Head(major, n).Some?
    ensures Head(major, m).Some? && |Head(major, m).value| <= |Head(major, n).value|
  {
    hide ToBe;
  }

  lemma ScalarReencodes(data: Bytes, pos: nat)
    requires |data| <= MAX_32 && Read(data, pos).Got? && KeyOf(Read(data, pos).value.0).Some?
    ensures Reencodes(Read(data, pos).value.0, Read(data, pos).value.1 - pos)
  {
    hide Head, ReadInt, ReadItems, ReadEntries, ValidUtf8;
    var major, info, next := data[pos] / 32, data[pos] % 32, pos + 1;
    if major <= 3 {
      var n := ReadInt(data, next, info).value;
      ReadIntBound(data, next, info);
      HeadExists(major, n.0);
      HeadIsShortest(data, next, info, major, n.0, n.1);
    }
  }

  // ---- Entries ----

  lemma EntrySize(e: Entry)
    requires GoodEntry(e)
    ensures EncodeKey(e.key) == Some(PairOf(e).key) && Encode(e.value) == Some(PairOf(e).value)
  {
    hide IsPythonKey, IsPython, InRange, EncodeKey, Encode;
  }

  lemma SizeCons(entries: seq<Entry>)
    requires entries != []
    ensures |EntriesBytes(entries)|
      == |PairOf(entries[0]).key| + |PairOf(entries[0]).value| + |EntriesBytes(entries[1..])|
  {
    hide PairOf;
  }

  lemma {:induction false} InsertSize(e: Entry, entries: seq<Entry>)
    ensures |EntriesBytes(Insert(EntryLe, e, entries))|
      == |PairOf(e).key| + |PairOf(e).value| + |EntriesBytes(entries)|
  {
    hide PairOf, EntryLe, EntriesBytes;
    if entries == [] || EntryLe(e, entries[0]) {
      SizeCons([e] + entries);
      assert ([e] + entries)[1..] == entries;
    } else {
      InsertSize(e, entries[1..]);
      var rest := Insert(EntryLe, e, entries[1..]);
      SizeCons([entries[0]] + rest);
      assert ([entries[0]] + rest)[1..] == rest;
      SizeCons(entries);
    }
  }

  lemma {:induction false} SortKeepsSize(entries: seq<Entry>)
    ensures |EntriesBytes(Sort(EntryLe, entries))| == |EntriesBytes(entries)|
  {
    hide PairOf, EntryLe, EntriesBytes;
    if entries == [] {
    } else {
      SortKeepsSize(entries[1..]);
      InsertSize(entries[0], Sort(EntryLe, entries[1..]));
      SizeCons(entries);
    }
  }

  lemma ReplacedEntry(first: Entry, k: Key, v: Value)
    requires GoodEntry(first) && GoodEntry(Entry(k, v))
    ensures GoodEntry(Entry(first.key, v))
    ensures PairOf(Entry(first.key, v)).key == PairOf(first).key
    ensures PairOf(Entry(first.key, v)).value == PairOf(Entry(k, v)).value
  {
    hide IsPythonKey, KeyInRange, IsPython, InRange, EncodeKey, Encode;
  }

  /** An entry put into a dict adds at most its own bytes. */
  lemma {:induction false} PutSize(out: seq<Entry>, k: Key, v: Value)
    requires (forall i :: 0 <= i < |out| ==> GoodEntry(out[i])) && GoodEntry(Entry(k, v))
    ensures |EntriesBytes(Put(out, k, v))|
      <= |EntriesBytes(out)| + |PairOf(Entry(k, v)).key| + |PairOf(Entry(k, v)).value|
    ensures |Put(out, k, v)| <= |out| + 1
    ensures forall i :: 0 <= i < |Put(out, k, v)| ==> GoodEntry(Put(out, k, v)[i])
  {
    hide PairOf, EntriesBytes, GoodEntry, KeyEq;
    if out == [] {
      SizeCons([Entry(k, v)]);
      assert [Entry(k, v)][1..] == [];
    } else if KeyEq(out[0].key, k) {
      var replaced := Entry(out[0].key, v);
      ReplacedEntry(out[0], k, v);
      SizeCons([replaced] + out[1..]);
      assert ([replaced] + out[1..])[1..] == out[1..];
      SizeCons(out);
    } else {
      PutSize(out[1..], k, v);
      var rest := Put(out[1..], k, v);
      SizeCons([out[0]] + rest);
      assert ([out[0]] + rest)[1..] == rest;
      SizeCons(out);
    }
  }

  lemma {:induction false} PutKeys(out: seq<Entry>, k: Key, v: Value)
    ensures |out| <= |Put(out, k, v)|
    ensures forall i :: 0 <= i < |out| ==> Put(out, k, v)[i].key == out[i].key
    ensures |Put(out, k, v)| > |out| ==>
      && |Put(out, k, v)| == |out| + 1 && Put(out, k, v)[|out|].key == k
      && forall i :: 0 <= i < |out| ==> !KeyEq(out[i].key, k)
  {
    hide KeyEq;
    if out == [] || KeyEq(out[0].key, k) {
    } else {
      PutKeys(out[1..], k, v);
      var rest := Put(out[1..], k, v);
      forall i | 0 <= i < |out| ensures ([out[0]] + rest)[i].key == out[i].key {
        assert i > 0 ==> out[i] == out[1..][i - 1];
      }
      if |rest| > |out[1..]| {
        forall i | 0 <= i < |out| ensures !KeyEq(out[i].key, k) {
          assert i > 0 ==> out[i] == out[1..][i - 1];
        }
      }
    }
  }

  lemma PutStaysDistinct(out: seq<Entry>, k: Key, v: Value)
    requires DistinctKeys(out)
    ensures DistinctKeys(Put(out, k, v))
  {
    hide KeyEq, Put;
    PutKeys(out, k, v);
    var after := Put(out, k, v);
    forall i, j | 0 <= i < j < |after| ensures !KeyEq(after[i].key, after[j].key) {
      assert after[i].key == out[i].key;
      assert j < |out| ==> after[j].key == out[j].key;
    }
  }

  lemma PutStaysGood(out: seq<Entry>, k: Key, v: Value)
    requires GoodEntries(out) && GoodEntry(Entry(k, v))
    ensures GoodEntries(Put(out, k, v))
  {
    hide GoodEntry, DistinctKeys, Put;
    PutStaysDistinct(out, k, v);
    PutSize(out, k, v);
  }

  lemma DictIsPython(entries: seq<Entry>)
    requires GoodEntries(entries) && |entries| <= MAX_32
    ensures IsPython(Dict(entries)) && InRange(Dict(entries))
  {
    hide IsPythonKey, KeyInRange, EncodeEntry, DistinctKeys;
  }

  lemma DictFits(entries: seq<Entry>, room: int)
    requires IsPython(Dict(entries)) && InRange(Dict(entries)) && Encode(Dict(entries)).Some?
    requires |Encode(Dict(entries)).value| <= room
    ensures Reencodes(Dict(entries), room)
  {
    hide IsPython, InRange, Encode;
  }

  lemma DictReencodes(entries: seq<Entry>, n: nat, room: int)
    requires GoodEntries(entries) && |entries| <= n && Head(5, n).Some? && n <= MAX_32
    requires |Head(5, n).value| + |EntriesBytes(entries)| <= room
    ensures Reencodes(Dict(entries), room)
  {
    DictIsPython(entries);
    hide *;
    EncodesIffInRange(Dict(entries));
    HeadGrows(5, |entries|, n);
    DictShape(entries);
    SortedBytes(entries);
    SortKeepsSize(entries);
    DictFits(entries, room);
  }

  // ---- On any input: a Python value ----

  ghost predicate AllPython(entries: seq<Entry>) {
    && DistinctKeys(entries)
    && forall i :: 0 <= i < |entries| ==> IsPythonKey(entries[i].key) && IsPython(entries[i].value)
  }

  lemma {:induction false} PutValues(out: seq<Entry>, k: Key, v: Value, i: nat)
    requires i < |Put(out, k, v)|
    ensures Put(out, k, v)[i].value == v || (i < |out| && Put(out, k, v)[i] == out[i])
  {
    hide KeyEq;
    if out == [] || KeyEq(out[0].key, k) || i == 0 {
    } else {
      PutValues(out[1..], k, v, i - 1);
    }
  }

  lemma PutStaysPython(out: seq<Entry>, k: Key, v: Value)
    requires AllPython(out) && IsPythonKey(k) && IsPython(v)
    ensures AllPython(Put(out, k, v))
  {
    hide IsPythonKey, IsPython, Put, DistinctKeys;
    PutStaysDistinct(out, k, v);
    PutKeys(out, k, v);
    forall i | 0 <= i < |Put(out, k, v)|
      ensures IsPythonKey(Put(out, k, v)[i].key) && IsPython(Put(out, k, v)[i].value)
    {
      PutValues(out, k, v, i);
    }
  }

  /** Main result: whatever decodes has UTF-8 texts only and no dict with two equal keys. */
  lemma {:induction false} DecodedIsPython(data: Bytes, pos: nat)
    requires Read(data, pos).Got?
    ensures IsPython(Read(data, pos).value.0)
    decreases |data| - pos, 0
  {
    hide ReadInt, ReadBlob, ReadItems, ReadEntries, ValidUtf8;
    var major, info, next := data[pos] / 32, data[pos] % 32, pos + 1;
    if major == 4 {
      var n := ReadInt(data, next, info).value;
      ItemsArePython(data, n.1, n.0);
    } else if major == 5 {
      var n := ReadInt(data, next, info).value;
      EntriesArePython(data, n.1, n.0, []);
    }
  }

  lemma {:induction false} ItemsArePython(data: Bytes, pos: nat, n: nat)
    requires pos <= |data| && ReadItems(data, pos, n).Got?
    ensures forall i :: 0 <= i < n ==> IsPython(ReadItems(data, pos, n).value.0[i])
    decreases |data| - pos, 1
  {
    hide Read, IsPython;
    if n == 0 {
    } else {
      DecodedIsPython(data, pos);
      ItemsArePython(data, Read(data, pos).value.1, n - 1);
    }
  }

  lemma KeyHasValueCode(k: Value)
    requires KeyOf(k).Some?
    ensures Encode(k) == EncodeKey(KeyOf(k).value)
    ensures IsPython(k) <==> IsPythonKey(KeyOf(k).value)
    ensures InRange(k) <==> KeyInRange(KeyOf(k).value)
  {
    hide Head;
  }

  lemma {:induction false} EntriesArePython(data: Bytes, pos: nat, n: nat, out: seq<Entry>)
    requires pos <= |data| && ReadEntries(data, pos, n, out).Got? && AllPython(out)
    ensures AllPython(ReadEntries(data, pos, n, out).value.0)
    decreases |data| - pos, 1
  {
    hide Read, Put, KeyOf, IsPython, IsPythonKey, AllPython;
    if n == 0 {
    } else {
      var k, v := Read(data, pos).value, Read(data, Read(data, pos).value.1).value;
      DecodedIsPython(data, pos);
      DecodedIsPython(data, k.1);
      KeyHasValueCode(k.0);
      PutStaysPython(out, KeyOf(k.0).value, v.0);
      EntriesArePython(data, v.1, n - 1, Put(out, KeyOf(k.0).value, v.0));
    }
  }

  // ---- On inputs below 4 GiB: a value that encodes again ----

  ghost predicate GoodItems(items: seq<Value>, room: int) {
    && (forall i :: 0 <= i < |items| ==> IsPython(items[i]) && InRange(items[i]))
    && EncodeAll(items).Some? && |EncodeAll(items).value| <= room
  }

  lemma ListReencodes(items: seq<Value>, room: int)
    requires |items| <= MAX_32 && Head(4, |items|).Some?
    requires GoodItems(items, room - |Head(4, |items|).value|)
    ensures Reencodes(List(items), room)
  {
    hide Head, EncodeAll;
  }

  lemma GoodItemsFit(items: seq<Value>, room: int, more: int)
    requires GoodItems(items, room) && room <= more
    ensures GoodItems(items, more)
  {
  }

  lemma NoEntriesGood()
    ensures GoodEntries([]) && EntriesBytes([]) == []
  {
  }

  /** Main result: whatever decodes is a Python value that encodes again, in no more bytes than were read. */
  lemma {:induction false} DecodedReencodes(data: Bytes, pos: nat)
    requires |data| <= MAX_32 && Read(data, pos).Got?
    ensures Reencodes(Read(data, pos).value.0, Read(data, pos).value.1 - pos)
    decreases |data| - pos, 0
  {
    hide Head, ReadInt, ReadBlob, ReadItems, ReadEntries, ValidUtf8, Reencodes, EntriesBytes, GoodEntries, GoodItems;
    var major, info, next := data[pos] / 32, data[pos] % 32, pos + 1;
    if major == 4 {
      var n := ReadInt(data, next, info).value;
      ItemsReencode(data, n.1, n.0);
      HeadExists(4, n.0);
      HeadIsShortest(data, next, info, 4, n.0, n.1);
      var items := ReadItems(data, n.1, n.0).value;
      GoodItemsFit(items.0, items.1 - n.1, items.1 - pos - |Head(4, n.0).value|);
      ListReencodes(items.0, items.1 - pos);
    } else if major == 5 {
      var n := ReadInt(data, next, info).value;
      NoEntriesGood();
      EntriesReencode(data, n.1, n.0, []);
      HeadExists(5, n.0);
      HeadIsShortest(data, next, info, 5, n.0, n.1);
      var entries := ReadEntries(data, n.1, n.0, []).value;
      DictReencodes(entries.0, n.0, entries.1 - pos);
    } else {
      ScalarReencodes(data, pos);
    }
  }

  lemma {:induction false} ItemsReencode(data: Bytes, pos: nat, n: nat)
    requires |data| <= MAX_32 && pos <= |data| && ReadItems(data, pos, n).Got?
    ensures n <= ReadItems(data, pos, n).value.1 - pos
    ensures GoodItems(ReadItems(data, pos, n).value.0, ReadItems(data, pos, n).value.1 - pos)
    decreases |data| - pos, 1
  {
    hide Read, Encode, IsPython, InRange;
    if n == 0 {
    } else {
      var v := Read(data, pos).value;
      DecodedReencodes(data, pos);
      ItemsReencode(data, v.1, n - 1);
      var rest := ReadItems(data, v.1, n - 1).value;
      assert ([v.0] + rest.0)[1..] == rest.0;
    }
  }

  lemma KeyIsGood(k: Value, v: Value, roomK: int, roomV: int)
    requires Reencodes(k, roomK) && Reencodes(v, roomV) && KeyOf(k).Some?
    ensures var e := Entry(KeyOf(k).value, v);
      GoodEntry(e) && |PairOf(e).key| <= roomK && |PairOf(e).value| <= roomV
  {
    KeyHasValueCode(k);
    hide Encode, EncodeKey;
  }

  lemma {:induction false} EntriesReencode(data: Bytes, pos: nat, n: nat, out: seq<Entry>)
    requires |data| <= MAX_32 && pos <= |data| && ReadEntries(data, pos, n, out).Got? && GoodEntries(out)
    ensures var r := ReadEntries(data, pos, n, out).value;
      && GoodEntries(r.0) && |r.0| <= |out| + n && n <= r.1 - pos
      && |EntriesBytes(r.0)| <= |EntriesBytes(out)| + (r.1 - pos)
    decreases |data| - pos, 1
  {
    hide Read, Put, KeyOf, Reencodes, GoodEntry, PairOf, EntriesBytes;
    if n == 0 {
    } else {
      var k, v := Read(data, pos).value, Read(data, Read(data, pos).value.1).value;
      DecodedReencodes(data, pos);
      DecodedReencodes(data, k.1);
      KeyIsGood(k.0, v.0, k.1 - pos, v.1 - k.1);
      var key := KeyOf(k.0).value;
      PutSize(out, key, v.0);
      PutStaysGood(out, key, v.0);
      EntriesReencode(data, v.1, n - 1, Put(out, key, v.0));
    }
  }

  lemma ReencodesMeans(v: Value, room: int)
    requires Reencodes(v, room)
    ensures IsPython(v) && InRange(v) && Encode(v).Some?
  {
  }

  /** Main result: encoding what was decoded and decoding again gives its canonical form, a dict's order aside the same value. */
  lemma DecodedSurvives(data: Bytes, pos: nat)
    requires |data| <= MAX_32 && Read(data, pos).Got?
    ensures var v := Read(data, pos).value.0;
      && Encode(v).Some? && Read(Encode(v).value, 0) == Got((Canon(v), |Encode(v).value|))
      && Same(v, Canon(v))
  {
    hide *;
    DecodedReencodes(data, pos);
    var v := Read(data, pos).value.0;
    ReencodesMeans(v, Read(data, pos).value.1 - pos);
    RoundTripUnderSuffix(v, []);
    assert Encode(v).value + [] == Encode(v).value;
    CanonIsSame(v);
  }

  // ---- How decoding fails ----

  /** A number in a head overruns the input exactly when its bytes are cut off, and is refused for no other length class. */
  lemma ReadIntFails(data: Bytes, pos: nat, info: nat)
    requires pos <= |data| && info < 32
    ensures ReadInt(data, pos, info).Overrun? <==>
      || (info == 24 && pos + 1 > |data|) || (info == 25 && pos + 2 > |data|)
      || (info == 26 && pos + 4 > |data|) || (info == 27 && pos + 8 > |data|)
    ensures ReadInt(data, pos, info).Refused? <==> info >= 28
  {
  }

  /** Every length class is accepted, the shortest or not, and reads as its big-endian number. */
  lemma AnyWidthReads(data: Bytes, pos: nat, info: nat)
    requires pos <= |data| && 24 <= info <= 27
    ensures var width := Pow2(info - 24);
      pos + width <= |data| ==> ReadInt(data, pos, info) == Got((FromBe(data[pos..pos + width]), pos + width))
  {
    assert Pow2(1) == 2 && Pow2(2) == 4 && Pow2(3) == 8;
  }

  /** The bytes in front of a scalar's content. */
  function ScalarHead(v: Value): Bytes
    requires KeyOf(v).Some?
  {
    match v
    case Int(n) => if Encode(v).Some? then Encode(v).value else []
    case Blob(b) => if Head(2, |b|).Some? then Head(2, |b|).value else []
    case Text(t) => if Head(3, |t|).Some? then Head(3, |t|).value else []
    case _ => if Encode(v).Some? then Encode(v).value else []
  }

  lemma HeldAtStart(data: Bytes, head: Bytes)
    requires |head| <= |data| && data[0..|head|] == head
    ensures Holds(data, 0, head)
  {
  }

  lemma CutHead(major: nat, n: nat, content: Bytes, k: nat)
    requires major < 8 && Head(major, n).Some? && 0 < k < |Head(major, n).value| + |content|
    ensures var data := (Head(major, n).value + content)[..k];
      var head := Head(major, n).value;
      && head != [] && data[0] / 32 == major && data[0] % 32 < 32
      && (k < |head| ==> ReadInt(data, 1, data[0] % 32) == Overrun)
      && (k >= |head| ==> ReadInt(data, 1, data[0] % 32) == Got((n, |head|)))
  {
    hide Holds, FromBe, ToBe;
    var head := Head(major, n).value;
    var data := (head + content)[..k];
    if k >= |head| {
      assert data[0..|head|] == head;
      HeldAtStart(data, head);
      HeadRoundTrip(data, 0, major, n);
    }
  }

  /** Main result: an encoded scalar that is cut inside its head overruns; cut anywhere else it is refused. */
  lemma HowTruncationFails(v: Value, k: nat)
    requires KeyOf(v).Some? && IsPython(v) && InRange(v)
    ensures Encode(v).Some?
    ensures k < |Encode(v).value| ==>
      var r := Read(Encode(v).value[..k], 0);
      (r.Overrun? <==> 0 < k < |ScalarHead(v)|) && (r.Refused? <==> k == 0 || k >= |ScalarHead(v)|)
  {
    EncodesIffInRange(v);
    var code, head := Encode(v).value, ScalarHead(v);
    if 0 < k < |code| {
      var data := code[..k];
      assert data[0] == code[0];
      hide Head, ValidUtf8, ReadItems, ReadEntries;
      match v
      case Int(n) => CutHead(if n >= 0 then 0 else 1, if n >= 0 then n else -1 - n, [], k);
      case Blob(b) => CutHead(2, |b|, b, k);
      case Text(t) => CutHead(3, |t|, t, k);
      case Bool(_) =>
      case Null =>
    }
  }

  // ---- Which bytes are UTF-8 ----

  /** A Unicode scalar value: a code point that is no surrogate. */
  predicate IsScalar(c: int) {
    0 <= c <= 0xD7FF || 0xE000 <= c <= 0x10FFFF
  }

  /** The octets of a scalar value (section 3 of RFC 3629). */
  function Utf8Of(c: int): (b: Bytes)
    requires IsScalar(c)
    ensures 1 <= |b| <= 4
  {
    if c < 0x80 then [c]
    else if c < 0x800 then [0xC0 + c / 64, 0x80 + c % 64]
    else if c < 0x1_0000 then [0xE0 + c / 4096, 0x80 + c / 64 % 64, 0x80 + c % 64]
    else [0xF0 + c / 0x4_0000, 0x80 + c / 4096 % 64, 0x80 + c / 64 % 64, 0x80 + c % 64]
  }

  ghost predicate AllScalars(cs: seq<int>) {
    forall i :: 0 <= i < |cs| ==> IsScalar(cs[i])
  }

  function Utf8OfAll(cs: seq<int>): Bytes
    requires AllScalars(cs)
  {
    if cs == [] then [] else Utf8Of(cs[0]) + Utf8OfAll(cs[1..])
  }

  /** The base-64 digits of a scalar value, within their bounds. */
  lemma Digits64(c: int)
    requires IsScalar(c)
    ensures c < 0x800 ==> 0 <= c / 64 < 32
    ensures 0x800 <= c < 0x1_0000 ==> 0 <= c / 4096 < 16 && (c / 4096 == 13 ==> c / 64 % 64 < 32)
    ensures 0x800 <= c < 0x1000 ==> c / 4096 == 0 && c / 64 % 64 >= 32
    ensures c >= 0x1_0000 ==> 0 <= c / 0x4_0000 <= 4 && (c / 0x4_0000 == 0 ==> c / 4096 % 64 >= 16)
    ensures c >= 0x1_0000 && c / 0x4_0000 == 4 ==> c / 4096 % 64 < 16
    ensures c >= 0x1000 && c < 0x1_0000 ==> c / 4096 >= 1
  {
    assert c / 4096 == c / 64 / 64 && c / 0x4_0000 == c / 4096 / 64;
  }

  lemma LeadsOn(c: int, rest: Bytes)
    requires IsScalar(c)
    ensures ValidUtf8(Utf8Of(c) + rest) <==> ValidUtf8(rest)
  {
    var b := Utf8Of(c) + rest;
    assert b[|Utf8Of(c)|..] == rest;
    Digits64(c);
  }

  lemma Recompose(x: int, y: int, z: int, w: int)
    requires 0 <= x && 0 <= y < 64 && 0 <= z < 64 && 0 <= w < 64
    ensures var c := x * 0x4_0000 + y * 4096 + z * 64 + w;
      && c % 64 == w && c / 64 % 64 == z && c / 4096 % 64 == y && c / 0x4_0000 == x && c / 4096 == x * 64 + y
  {
    var c := x * 0x4_0000 + y * 4096 + z * 64 + w;
    var top := x * 4096 + y * 64 + z;
    assert c == top * 64 + w;
    assert c / 64 == top && c % 64 == w;
    var higher := x * 64 + y;
    assert top == higher * 64 + z;
    assert top / 64 == higher && top % 64 == z && c / 4096 == top / 64;
    assert higher / 64 == x && higher % 64 == y && c / 0x4_0000 == higher / 64;
  }

  lemma TwoOctets(x: int, y: int) returns (c: int)
    requires 0xC2 <= x <= 0xDF && 0x80 <= y <= 0xBF
    ensures IsScalar(c) && Utf8Of(c) == [x, y]
  {
    c := (x - 0xC0) * 64 + (y - 0x80);
  }

  lemma ThreeOctets(x: int, y: int, z: int) returns (c: int)
    requires 0xE0 <= x <= 0xEF && 0x80 <= y <= 0xBF && 0x80 <= z <= 0xBF
    requires (x == 0xE0 ==> y >= 0xA0) && (x == 0xED ==> y < 0xA0)
    ensures IsScalar(c) && Utf8Of(c) == [x, y, z]
  {
    c := (x - 0xE0) * 4096 + (y - 0x80) * 64 + (z - 0x80);
    Recompose(0, x - 0xE0, y - 0x80, z - 0x80);
  }

  lemma FourOctets(x: int, y: int, z: int, w: int) returns (c: int)
    requires 0xF0 <= x <= 0xF4 && 0x80 <= y <= 0xBF && 0x80 <= z <= 0xBF && 0x80 <= w <= 0xBF
    requires (x == 0xF0 ==> y >= 0x90) && (x == 0xF4 ==> y < 0x90)
    ensures IsScalar(c) && Utf8Of(c) == [x, y, z, w]
  {
    c := (x - 0xF0) * 0x4_0000 + (y - 0x80) * 4096 + (z - 0x80) * 64 + (w - 0x80);
    Recompose(x - 0xF0, y - 0x80, z - 0x80, w - 0x80);
  }

  /** A valid byte string begins with the octets of some scalar value. */
  lemma FirstScalar(b: Bytes) returns (c: int)
    requires b != [] && ValidUtf8(b)
    ensures IsScalar(c) && |Utf8Of(c)| <= |b| && b == Utf8Of(c) + b[|Utf8Of(c)|..] && ValidUtf8(b[|Utf8Of(c)|..])
  {
    if b[0] < 0x80 {
      c := b[0];
      assert Utf8Of(c) == b[..1];
    } else {
      hide Utf8Of;
      if b[0] <= 0xDF {
        c := TwoOctets(b[0], b[1]);
        assert Utf8Of(c) == b[..2];
      } else if b[0] <= 0xEF {
        c := ThreeOctets(b[0], b[1], b[2]);
        assert Utf8Of(c) == b[..3];
      } else {
        c := FourOctets(b[0], b[1], b[2], b[3]);
        assert Utf8Of(c) == b[..4];
      }
    }
  }

  lemma EmptyIsValid()
    ensures ValidUtf8([])
  {
  }

  lemma {:induction false} EncodedIsValid(cs: seq<int>)
    requires AllScalars(cs)
    ensures ValidUtf8(Utf8OfAll(cs))
  {
    hide Utf8Of, ValidUtf8;
    if cs == [] {
      EmptyIsValid();
    } else {
      EncodedIsValid(cs[1..]);
      LeadsOn(cs[0], Utf8OfAll(cs[1..]));
    }
  }

  lemma {:induction false} ValidIsEncoded(b: Bytes) returns (cs: seq<int>)
    requires ValidUtf8(b)
    ensures AllScalars(cs) && Utf8OfAll(cs) == b
    decreases |b|
  {
    hide Utf8Of, ValidUtf8;
    if b == [] {
      cs := [];
    } else {
      var c := FirstScalar(b);
      var rest := ValidIsEncoded(b[|Utf8Of(c)|..]);
      cs := [c] + rest;
      assert cs[1..] == rest;
    }
  }

  /** Main result: exactly the encodings of sequences of scalar values are accepted as text. */
  lemma ValidUtf8Iff(b: Bytes)
    ensures ValidUtf8(b) <==> exists cs :: AllScalars(cs) && Utf8OfAll(cs) == b
  {
    hide ValidUtf8, Utf8OfAll;
    if ValidUtf8(b) {
      var cs := ValidIsEncoded(b);
    }
    if cs :| AllScalars(cs) && Utf8OfAll(cs) == b {
      EncodedIsValid(cs);
    }
  }
}
