/** The hand-written CBOR encoder and decoder (dontlie/scitt.py). */
module Cbor {
  import opened Prelude

  /** A dict key. Python's True equals 1 and False equals 0 as keys. */
  datatype Key = KInt(n: int) | KText(utf8: Bytes) | KBytes(bytes: Bytes) | KBool(b: bool) | KNull

  /** A Python value. Text is held as its UTF-8 bytes, a dict as its items in insertion order. */
  datatype Value =
    | Int(n: int)
    | Blob(bytes: Bytes)
    | Text(utf8: Bytes)
    | List(items: seq<Value>)
    | Dict(entries: seq<Entry>)
    | Bool(b: bool)
    | Null

  datatype Entry = Entry(key: Key, value: Value)

  /** An encoded map item. */
  datatype Pair = Pair(key: Bytes, value: Bytes)

  // ---- Encoder ----

  function Initial(major: nat, info: nat): (b: Byte)
    requires major < 8 && info < 32
    ensures b / 32 == major && b % 32 == info
  {
    major * 32 + info
  }

  const MAX_32 := 0xFFFF_FFFF
  const MAX_64 := 0xFFFF_FFFF_FFFF_FFFF

  /** The head of a data item; only the integer majors 0 and 1 have the 8-byte class. */
  function Head(major: nat, n: nat): Option<Bytes>
    requires major < 8
  {
    if n <= 23 then Some([Initial(major, n)])
    else if n <= 0xFF then Some([Initial(major, 24), n])
    else if n <= 0xFFFF then Some([Initial(major, 25)] + ToBe(n, 2))
    else if n <= MAX_32 then Some([Initial(major, 26)] + ToBe(n, 4))
    else if n <= MAX_64 && major <= 1 then Some([Initial(major, 27)] + ToBe(n, 8))
    else None
  }

  function WithHead(head: Option<Bytes>, body: Option<Bytes>): Option<Bytes> {
    if head.None? || body.None? then None else Some(head.value + body.value)
  }

  function EncodeKey(k: Key): Option<Bytes> {
    match k
    case KInt(n) => if n >= 0 then Head(0, n) else Head(1, -1 - n)
    case KBytes(b) => WithHead(Head(2, |b|), Some(b))
    case KText(t) => WithHead(Head(3, |t|), Some(t))
    case KBool(b) => Some([if b then 0xF5 else 0xF4])
    case KNull => Some([0xF6])
  }

  predicate PairLe(p: Pair, q: Pair) {
    BytesLe(p.key, q.key)
  }

  function Flatten(pairs: seq<Pair>): Bytes {
    if pairs == [] then [] else pairs[0].key + pairs[0].value + Flatten(pairs[1..])
  }

  function PairFrom(key: Option<Bytes>, value: Option<Bytes>): Option<Pair> {
    if key.None? || value.None? then None else Some(Pair(key.value, value.value))
  }

  function Collect(pairs: seq<Option<Pair>>): Option<seq<Pair>> {
    if pairs == [] then Some([])
    else
      var first, rest := pairs[0], Collect(pairs[1..]);
      if first.None? || rest.None? then None else Some([first.value] + rest.value)
  }

  /** cbor_encode: None stands for ValueError. Map items go out sorted by their encoded key. */
  function Encode(v: Value): Option<Bytes>
    decreases v, 1
  {
    match v
    case Int(n) => EncodeKey(KInt(n))
    case Blob(b) => EncodeKey(KBytes(b))
    case Text(t) => EncodeKey(KText(t))
    case Bool(b) => EncodeKey(KBool(b))
    case Null => EncodeKey(KNull)
    case List(items) => WithHead(Head(4, |items|), EncodeAll(items))
    case Dict(entries) =>
      var pairs := Collect(seq(|entries|, i requires 0 <= i < |entries| =>
        PairFrom(EncodeKey(entries[i].key), Encode(entries[i].value))));
      if pairs.None? then None
      else WithHead(Head(5, |entries|), Some(Flatten(Sort(PairLe, pairs.value))))
  }

  function EncodeAll(items: seq<Value>): Option<Bytes>
    decreases items, 0
  {
    if items == [] then Some([]) else WithHead(Encode(items[0]), EncodeAll(items[1..]))
  }

  function EncodeEntry(e: Entry): Option<Pair> {
    PairFrom(EncodeKey(e.key), Encode(e.value))
  }

  /** The encoded items of a dict, in insertion order. */
  function EncodePairs(entries: seq<Entry>): Option<seq<Pair>> {
    Collect(Map(EncodeEntry, entries))
  }

  lemma DictEncoding(entries: seq<Entry>)
    ensures Encode(Dict(entries)) ==
      var pairs := EncodePairs(entries);
      if pairs.None? then None
      else WithHead(Head(5, |entries|), Some(Flatten(Sort(PairLe, pairs.value))))
  {
    hide Collect, EncodeKey, Head, Flatten, Sort;
    assert Map(EncodeEntry, entries) == seq(|entries|, i requires 0 <= i < |entries| =>
      PairFrom(EncodeKey(entries[i].key), Encode(entries[i].value)));
  }

  lemma EncodePairsCons(entries: seq<Entry>)
    requires entries != []
    ensures EncodePairs(entries) ==
      var first, rest := EncodeEntry(entries[0]), EncodePairs(entries[1..]);
      if first.None? || rest.None? then None else Some([first.value] + rest.value)
  {
    hide EncodeEntry;
    assert Map(EncodeEntry, entries)[1..] == Map(EncodeEntry, entries[1..]);
  }

  // ---- Decoder ----

  predicate Continuation(b: Byte) {
    0x80 <= b <= 0xBF
  }

  /** Well-formed UTF-8 (section 4 of RFC 3629). */
  predicate ValidUtf8(b: Bytes) {
    if b == [] then true
    else if b[0] < 0x80 then ValidUtf8(b[1..])
    else if 0xC2 <= b[0] <= 0xDF then |b| >= 2 && Continuation(b[1]) && ValidUtf8(b[2..])
    else if 0xE0 <= b[0] <= 0xEF then
      && |b| >= 3 && Continuation(b[1]) && Continuation(b[2])
      && (b[0] == 0xE0 ==> b[1] >= 0xA0) && (b[0] == 0xED ==> b[1] < 0xA0)
      && ValidUtf8(b[3..])
    else if 0xF0 <= b[0] <= 0xF4 then
      && |b| >= 4 && Continuation(b[1]) && Continuation(b[2]) && Continuation(b[3])
      && (b[0] == 0xF0 ==> b[1] >= 0x90) && (b[0] == 0xF4 ==> b[1] < 0x90)
      && ValidUtf8(b[4..])
    else false
  }

  predicate KeyEq(j: Key, k: Key) {
    || j == k
    || (j.KInt? && k.KBool? && j.n == if k.b then 1 else 0)
    || (j.KBool? && k.KInt? && k.n == if j.b then 1 else 0)
  }

  /** dict.get(key). */
  function Lookup(entries: seq<Entry>, k: Key): Option<Value> {
    if entries == [] then None
    else if KeyEq(entries[0].key, k) then Some(entries[0].value) else Lookup(entries[1..], k)
  }

  lemma KeyEqIsEquivalence(i: Key, j: Key, k: Key)
    ensures KeyEq(k, k) && (KeyEq(j, k) <==> KeyEq(k, j))
    ensures KeyEq(i, j) && KeyEq(j, k) ==> KeyEq(i, k)
  {
  }

  /** out[k] = v: an equal key keeps its place and its spelling. */
  function Put(out: seq<Entry>, k: Key, v: Value): seq<Entry> {
    if out == [] then [Entry(k, v)]
    else if KeyEq(out[0].key, k) then [Entry(out[0].key, v)] + out[1..]
    else [out[0]] + Put(out[1..], k, v)
  }

  /** Main result: after out[k] = v every key equal to k reads v, and every other key reads what it read before. */
  lemma {:induction false} PutLookup(out: seq<Entry>, k: Key, v: Value, other: Key)
    ensures Lookup(Put(out, k, v), other) == if KeyEq(k, other) then Some(v) else Lookup(out, other)
  {
    hide KeyEq;
    if out == [] {
      assert [Entry(k, v)][1..] == [];
    } else {
      KeyEqIsEquivalence(out[0].key, k, other);
      KeyEqIsEquivalence(k, out[0].key, other);
      KeyEqIsEquivalence(other, out[0].key, k);
      KeyEqIsEquivalence(out[0].key, other, k);
      if KeyEq(out[0].key, k) {
        assert ([Entry(out[0].key, v)] + out[1..])[1..] == out[1..];
      } else {
        PutLookup(out[1..], k, v, other);
        assert ([out[0]] + Put(out[1..], k, v))[1..] == Put(out[1..], k, v);
      }
    }
  }

  /** True and 1, and False and 0, are one key; all other keys are equal only to themselves. */
  lemma EqualKeys(j: Key, k: Key)
    ensures KeyEq(KBool(true), KInt(1)) && KeyEq(KInt(0), KBool(false))
    ensures j.KInt? == k.KInt? ==> (KeyEq(j, k) <==> j == k)
    ensures (j.KText? || j.KBytes? || j.KNull?) ==> (KeyEq(j, k) <==> j == k)
  {
  }

  /**
   * Decoding fails in two ways. Refused is CborDecodeError, UnicodeDecodeError or TypeError; Overrun
   * is the IndexError or struct.error of a number whose bytes are cut off.
   */
  datatype Decoded<+T> = Got(value: T) | Refused | Overrun {
    function Failure<U>(): Decoded<U>
      requires !Got?
    {
      if Refused? then Refused else Overrun
    }
  }

  function ReadBe(data: Bytes, pos: nat, width: nat): (r: Decoded<(nat, nat)>)
    ensures r.Got? ==> pos <= r.value.1 <= |data|
  {
    if pos + width > |data| then Overrun else Got((FromBe(data[pos..pos + width]), pos + width))
  }

  function ReadInt(data: Bytes, pos: nat, info: nat): (r: Decoded<(nat, nat)>)
    requires pos <= |data|
    ensures r.Got? ==> pos <= r.value.1 <= |data|
  {
    if info <= 23 then Got((info, pos))
    else if info == 24 then ReadBe(data, pos, 1)
    else if info == 25 then ReadBe(data, pos, 2)
    else if info == 26 then ReadBe(data, pos, 4)
    else if info == 27 then ReadBe(data, pos, 8)
    else Refused
  }

  function ReadBlob(data: Bytes, pos: nat, info: nat): (r: Decoded<(Bytes, nat)>)
    requires pos <= |data|
    ensures r.Got? ==> pos <= r.value.1 <= |data|
  {
    var n := ReadInt(data, pos, info);
    if !n.Got? then n.Failure()
    else if n.value.1 + n.value.0 > |data| then Refused
    else Got((data[n.value.1..n.value.1 + n.value.0], n.value.1 + n.value.0))
  }

  /** Only these decoded values are hashable. */
  function KeyOf(v: Value): Option<Key> {
    match v
    case Int(n) => Some(KInt(n))
    case Blob(b) => Some(KBytes(b))
    case Text(t) => Some(KText(t))
    case Bool(b) => Some(KBool(b))
    case Null => Some(KNull)
    case _ => None
  }

  function KeyValue(k: Key): Value {
    match k
    case KInt(n) => Int(n)
    case KBytes(b) => Blob(b)
    case KText(t) => Text(t)
    case KBool(b) => Bool(b)
    case KNull => Null
  }

  /** _cbor_read_any. */
  function Read(data: Bytes, pos: nat): (r: Decoded<(Value, nat)>)
    ensures r.Got? ==> pos < r.value.1 <= |data|
    decreases |data| - pos, 0
  {
    if pos >= |data| then Refused
    else
      var major, info := data[pos] / 32, data[pos] % 32;
      var next := pos + 1;
      if major <= 1 then
        var n := ReadInt(data, next, info);
        if !n.Got? then n.Failure()
        else Got((Int(if major == 1 then -1 - n.value.0 else n.value.0), n.value.1))
      else if major == 2 then
        var b := ReadBlob(data, next, info);
        if !b.Got? then b.Failure() else Got((Blob(b.value.0), b.value.1))
      else if major == 3 then
        var b := ReadBlob(data, next, info);
        if !b.Got? then b.Failure()
        else if !ValidUtf8(b.value.0) then Refused else Got((Text(b.value.0), b.value.1))
      else if major == 4 then
        var n := ReadInt(data, next, info);
        if !n.Got? then n.Failure()
        else
          var items := ReadItems(data, n.value.1, n.value.0);
          if !items.Got? then items.Failure() else Got((List(items.value.0), items.value.1))
      else if major == 5 then
        var n := ReadInt(data, next, info);
        if !n.Got? then n.Failure()
        else
          var entries := ReadEntries(data, n.value.1, n.value.0, []);
          if !entries.Got? then entries.Failure() else Got((Dict(entries.value.0), entries.value.1))
      else if major == 7 then
        if info == 0x14 || info == 0x15 then Got((Bool(info == 0x15), next))
        else if info == 0x16 then Got((Null, next))
        else Refused
      else Refused
  }

  function ReadItems(data: Bytes, pos: nat, n: nat): (r: Decoded<(seq<Value>, nat)>)
    requires pos <= |data|
    ensures r.Got? ==> pos <= r.value.1 <= |data| && |r.value.0| == n
    decreases |data| - pos, 1
  {
    if n == 0 then Got(([], pos))
    else
      var v := Read(data, pos);
      if !v.Got? then v.Failure()
      else
        var rest := ReadItems(data, v.value.1, n - 1);
        if !rest.Got? then rest.Failure() else Got(([v.value.0] + rest.value.0, rest.value.1))
  }

  /** A key that is a list or a map is refused after its value has been read. */
  function ReadEntries(data: Bytes, pos: nat, n: nat, out: seq<Entry>): (r: Decoded<(seq<Entry>, nat)>)
    requires pos <= |data|
    ensures r.Got? ==> pos <= r.value.1 <= |data|
    decreases |data| - pos, 1
  {
    if n == 0 then Got((out, pos))
    else
      var k := Read(data, pos);
      if !k.Got? then k.Failure()
      else
        var v := Read(data, k.value.1);
        if !v.Got? then v.Failure()
        else if KeyOf(k.value.0).None? then Refused
        else ReadEntries(data, v.value.1, n - 1, Put(out, KeyOf(k.value.0).value, v.value.0))
  }

  /** The decoder as written, with its two loops. */
  method ReadAny(data: Bytes, pos: nat) returns (r: Decoded<(Value, nat)>)
    ensures r == Read(data, pos)
    decreases |data| - pos, 0
  {
    if pos >= |data| {
      return Refused;
    }
    var major, info := data[pos] / 32, data[pos] % 32;
    var next := pos + 1;
    if major <= 1 {
      var n := ReadInt(data, next, info);
      if !n.Got? { return n.Failure(); }
      var value: int, end := n.value.0, n.value.1;
      if major == 1 { value := -1 - value; }
      return Got((Int(value), end));
    }
    if major == 2 || major == 3 {
      var b := ReadBlob(data, next, info);
      if !b.Got? { return b.Failure(); }
      if major == 2 { return Got((Blob(b.value.0), b.value.1)); }
      if !ValidUtf8(b.value.0) { return Refused; }
      return Got((Text(b.value.0), b.value.1));
    }
    if major == 4 || major == 5 {
      var n := ReadInt(data, next, info);
      if !n.Got? { return n.Failure(); }
      if major == 4 { r := ReadList(data, n.value.1, n.value.0); } else { r := ReadDict(data, n.value.1, n.value.0); }
      return r;
    }
    if major == 7 && (info == 0x14 || info == 0x15) { return Got((Bool(info == 0x15), next)); }
    if major == 7 && info == 0x16 { return Got((Null, next)); }
    return Refused;
  }

  method ReadList(data: Bytes, start: nat, n: nat) returns (r: Decoded<(Value, nat)>)
    requires start <= |data|
    ensures var spec := ReadItems(data, start, n);
      r == if !spec.Got? then spec.Failure() else Got((List(spec.value.0), spec.value.1))
    decreases |data| - start, 1
  {
    var items: seq<Value>, pos := [], start;
    var i := 0;
    ghost var whole := ReadItems(data, start, n);
    assert whole.Got? ==> [] + whole.value.0 == whole.value.0;
    while i < n
      invariant 0 <= i <= n && start <= pos <= |data|
      invariant var rest := ReadItems(data, pos, n - i);
        if !rest.Got? then whole == rest else whole == Got((items + rest.value.0, rest.value.1))
    {
      var v := ReadAny(data, pos);
      if !v.Got? { return v.Failure(); }
      ghost var rest := ReadItems(data, v.value.1, n - i - 1);
      assert rest.Got? ==> items + ([v.value.0] + rest.value.0) == (items + [v.value.0]) + rest.value.0;
      items, pos := items + [v.value.0], v.value.1;
      i := i + 1;
    }
    assert items + [] == items;
    return Got((List(items), pos));
  }

  lemma NoMoreEntries(data: Bytes, pos: nat, out: seq<Entry>)
    requires pos <= |data|
    ensures ReadEntries(data, pos, 0, out) == Got((out, pos))
  {
  }

  lemma NextEntry(data: Bytes, pos: nat, n: nat, out: seq<Entry>)
    requires pos <= |data| && n > 0
    ensures ReadEntries(data, pos, n, out) ==
      var k := Read(data, pos);
      if !k.Got? then k.Failure()
      else
        var v := Read(data, k.value.1);
        if !v.Got? then v.Failure()
        else if KeyOf(k.value.0).None? then Refused
        else ReadEntries(data, v.value.1, n - 1, Put(out, KeyOf(k.value.0).value, v.value.0))
  {
    hide Read, Put, KeyOf;
  }

  method ReadDict(data: Bytes, start: nat, n: nat) returns (r: Decoded<(Value, nat)>)
    requires start <= |data|
    ensures var spec := ReadEntries(data, start, n, []);
      r == if !spec.Got? then spec.Failure() else Got((Dict(spec.value.0), spec.value.1))
    decreases |data| - start, 1
  {
    hide Read, Put, KeyOf, ReadEntries;
    var out: seq<Entry>, pos := [], start;
    var i := 0;
    while i < n
      invariant 0 <= i <= n && start <= pos <= |data|
      invariant ReadEntries(data, pos, n - i, out) == ReadEntries(data, start, n, [])
    {
      NextEntry(data, pos, n - i, out);
      var k := ReadAny(data, pos);
      if !k.Got? { return k.Failure(); }
      var v := ReadAny(data, k.value.1);
      if !v.Got? { return v.Failure(); }
      if KeyOf(k.value.0).None? { return Refused; }
      out, pos := Put(out, KeyOf(k.value.0).value, v.value.0), v.value.1;
      i := i + 1;
    }
    NoMoreEntries(data, pos, out);
    return Got((Dict(out), pos));
  }

  // ---- The supported domain ----

  predicate IsPythonKey(k: Key) {
    k.KText? ==> ValidUtf8(k.utf8)
  }

  predicate DistinctKeys(entries: seq<Entry>) {
    forall i, j :: 0 <= i < j < |entries| ==> !KeyEq(entries[i].key, entries[j].key)
  }

  /** Texts are UTF-8 and no two keys of a dict are equal. */
  predicate IsPython(v: Value)
    decreases v, 1
  {
    match v
    case Text(t) => ValidUtf8(t)
    case List(items) => forall i :: 0 <= i < |items| ==> IsPython(items[i])
    case Dict(entries) =>
      && DistinctKeys(entries)
      && forall i :: 0 <= i < |entries| ==> IsPythonKey(entries[i].key) && IsPython(entries[i].value)
    case _ => true
  }

  /** Integers fit in 64 bits and a sign; strings, lists and dicts stay below 2^32. */
  predicate KeyInRange(k: Key) {
    match k
    case KInt(n) => -1 - MAX_64 <= n <= MAX_64
    case KBytes(b) => |b| <= MAX_32
    case KText(t) => |t| <= MAX_32
    case _ => true
  }

  predicate InRange(v: Value) {
    match v
    case List(items) => |items| <= MAX_32 && forall i :: 0 <= i < |items| ==> InRange(items[i])
    case Dict(entries) =>
      && |entries| <= MAX_32
      && forall i :: 0 <= i < |entries| ==> KeyInRange(entries[i].key) && InRange(entries[i].value)
    case _ => KeyInRange(KeyOf(v).value)
  }

  lemma ScalarEncodesIff(v: Value)
    requires KeyOf(v).Some?
    ensures Encode(v).Some? <==> InRange(v)
  {
  }

  lemma ListEncodesIff(items: seq<Value>)
    ensures Encode(List(items)).Some? <==> |items| <= MAX_32 && EncodeAll(items).Some?
  {
    hide EncodeAll;
  }

  lemma NoPairs()
    ensures EncodePairs([]) == Some([])
  {
    assert Map(EncodeEntry, []) == [];
  }

  lemma {:induction false} PairsEncodeIffEach(entries: seq<Entry>)
    ensures EncodePairs(entries).Some? <==>
      forall i :: 0 <= i < |entries| ==> EncodeKey(entries[i].key).Some? && Encode(entries[i].value).Some?
  {
    hide EncodeKey, Encode, EncodePairs;
    if entries != [] {
      EncodePairsCons(entries);
      PairsEncodeIffEach(entries[1..]);
      assert forall i :: 0 < i < |entries| ==> entries[i] == entries[1..][i - 1];
    } else {
      NoPairs();
    }
  }

  lemma DictEncodesIff(entries: seq<Entry>)
    requires forall i :: 0 <= i < |entries| ==> (Encode(entries[i].value).Some? <==> InRange(entries[i].value))
    ensures Encode(Dict(entries)).Some? <==> InRange(Dict(entries))
  {
    forall k ensures EncodeKey(k).Some? <==> KeyInRange(k) {
    }
    hide Encode, EncodeKey, KeyInRange, EncodePairs, Flatten, Sort;
    PairsEncodeIffEach(entries);
    DictEncoding(entries);
  }

  lemma {:induction false} EncodesIffInRange(v: Value)
    ensures Encode(v).Some? <==> InRange(v)
    decreases v, 1
  {
    hide Encode;
    match v
    case List(items) =>
      AllEncodeIffInRange(items);
      ListEncodesIff(items);
    case Dict(entries) =>
      forall i | 0 <= i < |entries| ensures Encode(entries[i].value).Some? <==> InRange(entries[i].value) {
        EncodesIffInRange(entries[i].value);
      }
      DictEncodesIff(entries);
    case _ => ScalarEncodesIff(v);
  }

  lemma {:induction false} AllEncodeIffInRange(items: seq<Value>)
    ensures EncodeAll(items).Some? <==> forall i :: 0 <= i < |items| ==> InRange(items[i])
    decreases items, 0
  {
    if items == [] {
    } else {
      EncodesIffInRange(items[0]);
      AllEncodeIffInRange(items[1..]);
      assert forall i :: 0 < i < |items| ==> items[i] == items[1..][i - 1];
    }
  }
}
