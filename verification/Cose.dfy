/** COSE_Sign1 envelopes around a receipt hash and their two wire forms (dontlie/scitt.py). */
module Cose {
  import opened Prelude
  import opened Cbor
  import opened CborRoundTrip
  import opened CborCanonical
  import CborDecoding
  import opened Base64
  import Chain
  import Json

  const ALG_LABEL := 1
  const CONTENT_TYPE_LABEL := 3
  const ALG_ED25519 := -8
  /** "Signature1". */
  const SIGNATURE_CONTEXT: Bytes := [83, 105, 103, 110, 97, 116, 117, 114, 101, 49]
  const EXTERNAL_AAD: Bytes := []

  datatype Envelope = Envelope(
    protectedText: string, unprotected: seq<Entry>, payloadText: string, signatureText: string)

  /** str() of an int and int() of a text, as UTF-8 bytes. */
  datatype Decimal = Decimal(show: int -> Bytes, parse: Bytes -> Option<int>)

  ghost predicate ParsesWhatItShows(d: Decimal) {
    forall n :: d.parse(d.show(n)) == Some(n)
  }

  // ---- The signed structure ----

  function SigItems(protectedBstr: Bytes, payloadBstr: Bytes): Value {
    List([Blob(SIGNATURE_CONTEXT), Blob(protectedBstr), Blob(EXTERNAL_AAD), Blob(payloadBstr)])
  }

  function BuildSigStructure(protectedBstr: Bytes, payloadBstr: Bytes): Option<Bytes> {
    Encode(SigItems(protectedBstr, payloadBstr))
  }

  /** Main result: the signed bytes determine the protected header and the payload. */
  lemma SigStructureInjective(p: Bytes, q: Bytes, p': Bytes, q': Bytes)
    requires BuildSigStructure(p, q).Some? && BuildSigStructure(p, q) == BuildSigStructure(p', q')
    ensures p == p' && q == q'
  {
    hide Encode, IsPythonKey;
    var v, w := SigItems(p, q), SigItems(p', q');
    PrefixFree(v, w);
    assert CanonAll(v.items) == CanonAll(w.items);
    CanonAt(v.items, 1);
    CanonAt(w.items, 1);
    CanonAt(v.items, 3);
    CanonAt(w.items, 3);
  }

  // ---- JSON form ----

  /** int(k) for a header label. */
  function LabelNumber(d: Decimal, k: Key): Option<int> {
    match k
    case KInt(n) => Some(n)
    case KBool(b) => Some(if b then 1 else 0)
    case KText(t) => d.parse(t)
    case KBytes(t) => d.parse(t)
    case KNull => None
  }

  /** {str(int(k)): v for k, v in unprotected.items()}; None when int() raises. */
  function Stringify(d: Decimal, unprotected: seq<Entry>): Option<seq<Entry>> {
    if unprotected == [] then Some([])
    else
      var last := unprotected[|unprotected| - 1];
      var done, n := Stringify(d, unprotected[..|unprotected| - 1]), LabelNumber(d, last.key);
      if done.None? || n.None? then None else Some(Put(done.value, KText(d.show(n.value)), last.value))
  }

  function Numeric(d: Decimal, k: Key): Key {
    if LabelNumber(d, k).Some? then KInt(LabelNumber(d, k).value) else k
  }

  /** Labels that read as integers become integers, others are kept. */
  function Unstringify(d: Decimal, unprotected: seq<Entry>): seq<Entry> {
    if unprotected == [] then []
    else
      var last := unprotected[|unprotected| - 1];
      Put(Unstringify(d, unprotected[..|unprotected| - 1]), Numeric(d, last.key), last.value)
  }

  function ToJson(d: Decimal, e: Envelope): Option<Envelope> {
    var labels := Stringify(d, e.unprotected);
    if labels.None? then None else Some(e.(unprotected := labels.value))
  }

  function FromJson(d: Decimal, e: Envelope): Envelope {
    e.(unprotected := Unstringify(d, e.unprotected))
  }

  // ---- CBOR form ----

  /** {int(k): v for k, v in unprotected.items()}. */
  function IntegerLabels(d: Decimal, unprotected: seq<Entry>): Option<seq<Entry>> {
    if unprotected == [] then Some([])
    else
      var last := unprotected[|unprotected| - 1];
      var done, n := IntegerLabels(d, unprotected[..|unprotected| - 1]), LabelNumber(d, last.key);
      if done.None? || n.None? then None else Some(Put(done.value, KInt(n.value), last.value))
  }

  function Bstr(b: Bytes): Option<Bytes> {
    EncodeKey(KBytes(b))
  }

  /** emit_envelope_cbor: the outer array is assembled by hand. */
  function Emit(d: Decimal, e: Envelope): Option<Bytes> {
    var p, q, s := DecodeUrl(e.protectedText), DecodeUrl(e.payloadText), DecodeUrl(e.signatureText);
    var labels := IntegerLabels(d, e.unprotected);
    if p.None? || q.None? || s.None? || labels.None? then None
    else
      var pb, u, qb, sb := Bstr(p.value), Encode(Dict(labels.value)), Bstr(q.value), Bstr(s.value);
      if pb.None? || u.None? || qb.None? || sb.None? then None
      else Some([Initial(4, 4)] + pb.value + u.value + qb.value + sb.value)
  }

  // ---- Laws ----

  ghost predicate IntegerLabelled(unprotected: seq<Entry>) {
    && (forall i :: 0 <= i < |unprotected| ==> unprotected[i].key.KInt?)
    && DistinctKeys(unprotected)
  }

  function Shown(d: Decimal, unprotected: seq<Entry>): (r: seq<Entry>)
    requires forall i :: 0 <= i < |unprotected| ==> unprotected[i].key.KInt?
    ensures |r| == |unprotected|
    ensures forall i :: 0 <= i < |r| ==> r[i] == Entry(KText(d.show(unprotected[i].key.n)), unprotected[i].value)
  {
    seq(|unprotected|, i requires 0 <= i < |unprotected| =>
      Entry(KText(d.show(unprotected[i].key.n)), unprotected[i].value))
  }

  lemma ShowsApart(d: Decimal, m: int, n: int)
    requires ParsesWhatItShows(d) && m != n
    ensures d.show(m) != d.show(n)
  {
    assert d.parse(d.show(m)) == Some(m);
  }

  lemma {:induction false} StringifyShows(d: Decimal, u: seq<Entry>)
    requires ParsesWhatItShows(d) && IntegerLabelled(u)
    ensures Stringify(d, u) == Some(Shown(d, u))
  {
    if u != [] {
      var before, last := u[..|u| - 1], u[|u| - 1];
      StringifyShows(d, before);
      hide ParsesWhatItShows, Put;
      var done, k := Shown(d, before), KText(d.show(last.key.n));
      forall i | 0 <= i < |done| ensures !KeyEq(done[i].key, k) {
        assert !KeyEq(u[i].key, last.key);
        ShowsApart(d, u[i].key.n, last.key.n);
      }
      PutAppends(done, k, last.value);
      assert Shown(d, u) == done + [Entry(k, last.value)];
    } else {
      assert Shown(d, u) == [];
    }
  }

  lemma NumericShown(d: Decimal, n: int)
    requires ParsesWhatItShows(d)
    ensures Numeric(d, KText(d.show(n))) == KInt(n)
  {
  }

  /** Reading back one more label. */
  lemma UnstringifyLast(d: Decimal, before: seq<Entry>, last: Entry)
    requires ParsesWhatItShows(d) && IntegerLabelled(before + [last])
    requires IntegerLabelled(before) && Unstringify(d, Shown(d, before)) == before
    ensures last.key.KInt? && Unstringify(d, Shown(d, before) + [Entry(KText(d.show(last.key.n)), last.value)])
      == before + [last]
  {
    hide Numeric, ParsesWhatItShows, Put, Shown, KeyEq;
    assert (before + [last])[|before|] == last;
    var shown := Entry(KText(d.show(last.key.n)), last.value);
    var texts := Shown(d, before) + [shown];
    assert texts[..|texts| - 1] == Shown(d, before);
    NumericShown(d, last.key.n);
    forall i | 0 <= i < |before| ensures !KeyEq(before[i].key, last.key) {
      assert (before + [last])[i] == before[i];
    }
    PutAppends(before, last.key, last.value);
  }

  lemma NothingShown(d: Decimal, u: seq<Entry>)
    requires u == []
    ensures Shown(d, u) == [] && Unstringify(d, []) == []
  {
  }

  lemma {:induction false} UnstringifyRestores(d: Decimal, u: seq<Entry>)
    requires ParsesWhatItShows(d) && IntegerLabelled(u)
    ensures Unstringify(d, Shown(d, u)) == u
  {
    hide ParsesWhatItShows, Unstringify, KeyEq;
    if u == [] {
      NothingShown(d, u);
    } else {
      var before, last := u[..|u| - 1], u[|u| - 1];
      assert u == before + [last];
      UnstringifyRestores(d, before);
      UnstringifyLast(d, before, last);
      assert Shown(d, u) == Shown(d, before) + [Entry(KText(d.show(last.key.n)), last.value)];
    }
  }

  lemma {:induction false} IntegerLabelsKept(d: Decimal, u: seq<Entry>)
    requires IntegerLabelled(u)
    ensures IntegerLabels(d, u) == Some(u)
  {
    if u == [] {
    } else {
      var before, last := u[..|u| - 1], u[|u| - 1];
      IntegerLabelsKept(d, before);
      PutAppends(before, last.key, last.value);
      assert u == before + [last];
    }
  }

  /** Main result: with integer labels, the JSON form loses nothing. */
  lemma JsonRoundTrip(d: Decimal, e: Envelope)
    requires ParsesWhatItShows(d) && IntegerLabelled(e.unprotected)
    ensures ToJson(d, e).Some? && FromJson(d, ToJson(d, e).value) == e
  {
    StringifyShows(d, e.unprotected);
    UnstringifyRestores(d, e.unprotected);
  }

  function Parts(p: Bytes, u: seq<Entry>, q: Bytes, s: Bytes): Value {
    List([Blob(p), Dict(u), Blob(q), Blob(s)])
  }

  lemma BlobEncoding(b: Bytes)
    ensures Encode(Blob(b)) == Bstr(b)
  {
  }

  lemma ListEncoding(items: seq<Value>)
    requires |items| == 4
    ensures Encode(List(items)) == WithHead(Some([Initial(4, 4)]), EncodeAll(items))
    ensures EncodeAll([]) == Some([])
  {
    hide EncodeKey, EncodePairs;
    assert Head(4, 4) == Some([Initial(4, 4)]);
  }

  lemma EncodeAllCons(v: Value, items: seq<Value>)
    ensures EncodeAll([v] + items) == WithHead(Encode(v), EncodeAll(items))
  {
    hide Encode;
    assert ([v] + items)[1..] == items;
  }

  lemma FourPieces(h: Bytes, w: Bytes, x: Bytes, y: Bytes, z: Bytes)
    ensures h + (w + (x + (y + (z + [])))) == h + w + x + y + z
  {
    assert z + [] == z;
  }

  lemma ListOfFour(a: Value, b: Value, c: Value, d: Value)
    ensures var w, x, y, z := Encode(a), Encode(b), Encode(c), Encode(d);
      Encode(List([a, b, c, d])) ==
        if w.None? || x.None? || y.None? || z.None? then None
        else Some([0x84] + w.value + x.value + y.value + z.value)
  {
    hide Encode, EncodeAll;
    ListEncoding([a, b, c, d]);
    EncodeAllCons(a, [b, c, d]);
    EncodeAllCons(b, [c, d]);
    EncodeAllCons(c, [d]);
    EncodeAllCons(d, []);
    assert [a] + [b, c, d] == [a, b, c, d] && [b] + [c, d] == [b, c, d];
    assert [c] + [d] == [c, d] && [d] + [] == [d];
    var w, x, y, z := Encode(a), Encode(b), Encode(c), Encode(d);
    if w.Some? && x.Some? && y.Some? && z.Some? {
      FourPieces([0x84], w.value, x.value, y.value, z.value);
    }
  }

  lemma HandAssembledArray(p: Bytes, u: seq<Entry>, q: Bytes, s: Bytes)
    ensures var pb, ub, qb, sb := Bstr(p), Encode(Dict(u)), Bstr(q), Bstr(s);
      Encode(Parts(p, u, q, s)) ==
        if pb.None? || ub.None? || qb.None? || sb.None? then None
        else Some([Initial(4, 4)] + pb.value + ub.value + qb.value + sb.value)
  {
    hide Encode, EncodeKey;
    BlobEncoding(p);
    BlobEncoding(q);
    BlobEncoding(s);
    ListOfFour(Blob(p), Dict(u), Blob(q), Blob(s));
  }

  lemma CanonOfParts(p: Bytes, u: seq<Entry>, q: Bytes, s: Bytes)
    ensures Canon(Parts(p, u, q, s)) == List([Blob(p), Canon(Dict(u)), Blob(q), Blob(s)])
  {
    hide CanonEntries, Sort;
    var v := Parts(p, u, q, s);
    CanonAt(v.items, 0);
    CanonAt(v.items, 1);
    CanonAt(v.items, 2);
    CanonAt(v.items, 3);
    assert CanonAll(v.items) == [Blob(p), Canon(Dict(u)), Blob(q), Blob(s)];
  }

  /**
   * Main result: after a JSON trip, the emitted CBOR is the encoding of the four-element array
   * and decodes back to the protected bytes, the header map, the payload and the signature.
   */
  lemma WireFormsAgree(d: Decimal, p: Bytes, u: seq<Entry>, q: Bytes, s: Bytes)
    requires ParsesWhatItShows(d) && IntegerLabelled(u)
    requires IsPython(Parts(p, u, q, s)) && InRange(Parts(p, u, q, s))
    ensures var e := Envelope(EncodeUrl(p), u, EncodeUrl(q), EncodeUrl(s));
      && ToJson(d, e).Some?
      && var bytes := Emit(d, FromJson(d, ToJson(d, e).value));
      && bytes.Some? && bytes == Encode(Parts(p, u, q, s))
      && Read(bytes.value, 0) == Got((List([Blob(p), Canon(Dict(u)), Blob(q), Blob(s)]), |bytes.value|))
  {
    hide Encode, EncodeUrl, DecodeUrl, IsPython, InRange, Read, EncodeKey;
    var e := Envelope(EncodeUrl(p), u, EncodeUrl(q), EncodeUrl(s));
    JsonRoundTrip(d, e);
    UrlRoundTrip(p);
    UrlRoundTrip(q);
    UrlRoundTrip(s);
    IntegerLabelsKept(d, u);
    HandAssembledArray(p, u, q, s);
    RoundTripUnderSuffix(Parts(p, u, q, s), []);
    var bytes := Encode(Parts(p, u, q, s)).value;
    assert bytes + [] == bytes;
    CanonOfParts(p, u, q, s);
  }

  // ---- Signing and verifying an envelope ----

  datatype KeyPair = KeyPair(secret: Bytes, public: Bytes)

  const SIGNATURE_SIZE := 64

  /** Ed25519 on raw keys and raw signatures. */
  datatype Signer = Signer(sign: (Bytes, Bytes) -> Bytes, verify: (Bytes, Bytes, Bytes) -> bool)

  ghost predicate SignsFor(s: Signer, key: KeyPair) {
    && (forall m :: s.verify(key.public, m, s.sign(key.secret, m)))
    && (forall m :: |s.sign(key.secret, m)| == SIGNATURE_SIZE)
  }

  /** "application/dontlie-receipt-sha256". */
  const CONTENT_TYPE: Bytes :=
    [97, 112, 112, 108, 105, 99, 97, 116, 105, 111, 110, 47, 100, 111, 110, 116, 108, 105, 101, 45, 114, 101,
     99, 101, 105, 112, 116, 45, 115, 104, 97, 50, 53, 54]

  const ALG_ENTRY := Entry(KInt(ALG_LABEL), Int(ALG_ED25519))
  const TYPE_ENTRY := Entry(KInt(CONTENT_TYPE_LABEL), Text(CONTENT_TYPE))
  const PROTECTED_MAP := Dict([ALG_ENTRY, TYPE_ENTRY])

  /** The bytes that are signed for a protected header and a payload. */
  function SignedBytes(protectedCbor: Bytes, payload: Bytes): Option<Bytes> {
    var p, q := Bstr(protectedCbor), Bstr(payload);
    if p.None? || q.None? then None else BuildSigStructure(p.value, q.value)
  }

  /** An envelope around a payload; None is ValueError or RuntimeError. */
  function EnvelopeFor(s: Signer, key: KeyPair, payload: Bytes, unprotected: seq<Entry>): Option<Envelope> {
    var header := Encode(PROTECTED_MAP);
    if |payload| != 32 || header.None? then None
    else
      var message := SignedBytes(header.value, payload);
      if message.None? || |s.sign(key.secret, message.value)| != SIGNATURE_SIZE then None
      else Some(Envelope(EncodeUrl(header.value), unprotected, EncodeUrl(payload),
                         EncodeUrl(s.sign(key.secret, message.value))))
  }

  // ---- The envelope of a receipt ----

  const LABEL_KID := 99999
  const LABEL_OPERATOR_KEY_ID := 99998
  const LABEL_CHAIN_VERSION := 99997
  const LABEL_RECEIPT_ID := 99996
  const LABEL_PAYLOAD_SHA256 := 99995
  const LABEL_PARENT_ID := 99994
  const LABEL_MODEL := 99993
  const LABEL_TIMESTAMP := 99992
  const LEGACY_CHAIN_VERSION := 2

  /** str.encode, bytes.fromhex and int(); None is ValueError or TypeError. */
  datatype Builtins = Builtins(
    utf8: string -> Bytes, fromHex: string -> Option<Bytes>, toInt: Json.Json -> Option<int>)

  function ChainVersionFor(b: Builtins, r: Chain.Receipt): int {
    var version := b.toInt(Chain.Version(r));
    if Chain.Version(r).Null? || version.None? then LEGACY_CHAIN_VERSION else version.value
  }

  function UnprotectedHeader(b: Builtins, r: Chain.Receipt): seq<Entry> {
    [Entry(KInt(LABEL_KID), Text(b.utf8(r.keyId))),
     Entry(KInt(LABEL_CHAIN_VERSION), Int(ChainVersionFor(b, r))),
     Entry(KInt(LABEL_RECEIPT_ID), Int(r.id)),
     Entry(KInt(LABEL_PAYLOAD_SHA256), Text(b.utf8(r.payloadSha256))),
     Entry(KInt(LABEL_PARENT_ID), Int(if r.parentId.None? then -1 else r.parentId.value)),
     Entry(KInt(LABEL_MODEL), Text(b.utf8(r.model))),
     Entry(KInt(LABEL_TIMESTAMP), Text(b.utf8(r.timestamp)))]
    + if r.operatorId.None? then []
      else [Entry(KInt(LABEL_OPERATOR_KEY_ID), Text(b.utf8(r.operatorId.value)))]
  }

  /** envelope_for_receipt. */
  function EnvelopeForReceipt(b: Builtins, s: Signer, key: KeyPair, r: Chain.Receipt): Option<Envelope> {
    var payload := b.fromHex(r.payloadSha256);
    if payload.None? then None else EnvelopeFor(s, key, payload.value, UnprotectedHeader(b, r))
  }

  /** Raised is an exception that escapes: a cut-off number in the header, or an overlong byte string. */
  datatype Verdict = Raised | InvalidPublicKey | Malformed | NotAMap | UnsupportedAlgorithm | SignatureMismatch | Valid(payload: Bytes)

  /** base64url decoding, which may also accept texts with characters outside the alphabet. */
  type Decoder = string -> Option<Bytes>

  ghost predicate ExtendsStrict(decode: Decoder) {
    forall text :: DecodeUrl(text).Some? ==> decode(text) == DecodeUrl(text)
  }

  /** verify_envelope_signature; None is a public key that does not load. */
  function VerifyEnvelope(s: Signer, decode: Decoder, public: Option<Bytes>, e: Envelope): Verdict {
    var header, payload, signature :=
      decode(e.protectedText), decode(e.payloadText), decode(e.signatureText);
    if public.None? then InvalidPublicKey
    else if header.None? then Malformed
    else
      var decoded := Read(header.value, 0);
      if decoded.Overrun? then Raised
      else if decoded.Refused? then Malformed
      else if !decoded.value.0.Dict? then NotAMap
      else if Lookup(decoded.value.0.entries, KInt(ALG_LABEL)) != Some(Int(ALG_ED25519)) then UnsupportedAlgorithm
      else if payload.None? || signature.None? then Malformed
      else
        var message := SignedBytes(header.value, payload.value);
        if message.None? then Raised
        else if s.verify(public.value, message.value, signature.value) then Valid(payload.value) else SignatureMismatch
  }

  lemma {:induction false} AsciiIsUtf8(b: Bytes)
    requires forall i :: 0 <= i < |b| ==> b[i] < 0x80
    ensures ValidUtf8(b)
  {
    if b == [] {
    } else {
      AsciiIsUtf8(b[1..]);
    }
  }

  lemma ContentTypeIsText()
    ensures ValidUtf8(CONTENT_TYPE) && |CONTENT_TYPE| == 34
  {
    hide ValidUtf8;
    AsciiIsUtf8(CONTENT_TYPE);
  }

  lemma ContentTypeSpelled()
    ensures |CONTENT_TYPE| == 34
    ensures forall i :: 0 <= i < 12 ==> CONTENT_TYPE[i] == "application/"[i] as int
    ensures forall i :: 0 <= i < 11 ==> CONTENT_TYPE[12 + i] == "dontlie-rec"[i] as int
    ensures forall i :: 0 <= i < 11 ==> CONTENT_TYPE[23 + i] == "eipt-sha256"[i] as int
  {
  }

  lemma HeaderIsPython(t: Bytes)
    requires ValidUtf8(t) && |t| <= 0x1000
    ensures var v := Dict([ALG_ENTRY, Entry(KInt(CONTENT_TYPE_LABEL), Text(t))]);
      IsPython(v) && InRange(v)
  {
    hide ValidUtf8;
  }

  lemma ProtectedIsPython()
    ensures IsPython(PROTECTED_MAP) && InRange(PROTECTED_MAP)
  {
    hide IsPython, InRange, ValidUtf8;
    ContentTypeIsText();
    HeaderIsPython(CONTENT_TYPE);
  }

  lemma ProtectedIsCanonical()
    ensures Canon(PROTECTED_MAP) == PROTECTED_MAP
  {
    assert PROTECTED_MAP.entries == [ALG_ENTRY, TYPE_ENTRY];
    assert KeyCode(ALG_ENTRY.key) == [1] && KeyCode(TYPE_ENTRY.key) == [3];
    assert EntryLe(ALG_ENTRY, TYPE_ENTRY);
    hide EntryLe, Sort;
    assert CanonEntry(ALG_ENTRY) == ALG_ENTRY && CanonEntry(TYPE_ENTRY) == TYPE_ENTRY;
    CanonOfDict([ALG_ENTRY, TYPE_ENTRY]);
    assert CanonEntries([ALG_ENTRY, TYPE_ENTRY]) == [ALG_ENTRY, TYPE_ENTRY];
    SortOfSorted(EntryLe, [ALG_ENTRY, TYPE_ENTRY]);
  }

  lemma PairsOfTwo(a: Entry, b: Entry, p: Pair, q: Pair)
    requires EncodeEntry(a) == Some(p) && EncodeEntry(b) == Some(q)
    ensures EncodePairs([a, b]) == Some([p, q])
  {
    hide EncodeEntry, EncodePairs;
    EncodePairsCons([a, b]);
    EncodePairsCons([b]);
    NoPairs();
    assert [a, b][1..] == [b] && [b][1..] == [];
    assert [p] + [q] == [p, q] && [q] + [] == [q];
  }

  lemma SortedPair(p: Pair, q: Pair)
    requires PairLe(p, q)
    ensures Flatten(Sort(PairLe, [p, q])) == p.key + p.value + (q.key + q.value)
    ensures Head(5, 2) == Some([Initial(5, 2)])
  {
    hide PairLe, Sort;
    SortOfSorted(PairLe, [p, q]);
    assert [p, q][1..] == [q] && [q][1..] == [];
    assert Flatten([q]) == q.key + q.value;
  }

  lemma TwoPairs(a: Entry, b: Entry, p: Pair, q: Pair)
    requires EncodeEntry(a) == Some(p) && EncodeEntry(b) == Some(q) && PairLe(p, q)
    ensures Encode(Dict([a, b])) == Some([Initial(5, 2)] + (p.key + p.value + (q.key + q.value)))
  {
    hide EncodeEntry, EncodePairs, PairLe, Encode, Head, Flatten, Sort;
    PairsOfTwo(a, b, p, q);
    DictEncoding([a, b]);
    SortedPair(p, q);
  }

  lemma HeaderPieces(p: Pair, q: Pair, text: Bytes)
    requires p == Pair([1], [0x27]) && q == Pair([3], [0x78, 34] + text)
    ensures p.key + p.value == [0x01, 0x27] && q.key + q.value == [0x03, 0x78, 34] + text
    ensures Initial(5, 2) == 0xA2
  {
    assert |p.key + p.value| == 2 && (p.key + p.value)[0] == 1 && (p.key + p.value)[1] == 0x27;
    var three: Bytes, head: Bytes, all: Bytes := [3], [0x78, 34], [0x03, 0x78, 34];
    assert three + head == all;
    assert q.key + q.value == three + (head + text) == (three + head) + text;
  }

  /** The protected header, byte by byte: a map of 1 to -8 and of 3 to a text of 34 bytes. */
  lemma ProtectedLength()
    ensures Encode(PROTECTED_MAP) == Some([0xA2] + ([0x01, 0x27] + ([0x03, 0x78, 34] + CONTENT_TYPE)))
    ensures |Encode(PROTECTED_MAP).value| <= 64
  {
    var p, q := Pair([1], [0x27]), Pair([3], [0x78, 34] + CONTENT_TYPE);
    assert EncodeEntry(ALG_ENTRY) == Some(p);
    OneByte(34);
    assert EncodeEntry(TYPE_ENTRY) == Some(q);
    assert BytesLe([1], [3]);
    hide EncodeEntry, BytesLe;
    assert PROTECTED_MAP == Dict([ALG_ENTRY, TYPE_ENTRY]);
    TwoPairs(ALG_ENTRY, TYPE_ENTRY, p, q);
    HeaderPieces(p, q, CONTENT_TYPE);
  }

  lemma ProtectedHeader()
    ensures IsPython(PROTECTED_MAP) && InRange(PROTECTED_MAP) && Canon(PROTECTED_MAP) == PROTECTED_MAP
    ensures Encode(PROTECTED_MAP).Some? && |Encode(PROTECTED_MAP).value| <= 64
  {
    hide *;
    ProtectedIsPython();
    ProtectedIsCanonical();
    EncodesIffInRange(PROTECTED_MAP);
    ProtectedLength();
  }

  lemma BstrShort(b: Bytes)
    requires |b| <= 0x1000
    ensures Bstr(b).Some? && |Bstr(b).value| <= |b| + 3
  {
  }

  lemma SignedBytesExist(p: Bytes, q: Bytes)
    requires |p| <= 0x1000 && |q| <= 0x1000
    ensures SignedBytes(p, q).Some?
  {
    BstrShort(p);
    BstrShort(q);
    EncodesIffInRange(SigItems(Bstr(p).value, Bstr(q).value));
  }

  lemma EnvelopeIs(s: Signer, key: KeyPair, payload: Bytes, unprotected: seq<Entry>)
    requires SignsFor(s, key) && |payload| == 32 && Encode(PROTECTED_MAP).Some?
    requires SignedBytes(Encode(PROTECTED_MAP).value, payload).Some?
    ensures var header := Encode(PROTECTED_MAP).value;
      EnvelopeFor(s, key, payload, unprotected) == Some(
        Envelope(EncodeUrl(header), unprotected, EncodeUrl(payload),
                 EncodeUrl(s.sign(key.secret, SignedBytes(header, payload).value))))
  {
    hide Encode, SignedBytes, EncodeUrl;
  }

  lemma HeaderReadsBack()
    ensures Encode(PROTECTED_MAP).Some?
    ensures Read(Encode(PROTECTED_MAP).value, 0) == Got((PROTECTED_MAP, |Encode(PROTECTED_MAP).value|))
    ensures Lookup(PROTECTED_MAP.entries, KInt(ALG_LABEL)) == Some(Int(ALG_ED25519))
  {
    hide Encode, Read, Canon, IsPython, InRange;
    ProtectedHeader();
    RoundTripUnderSuffix(PROTECTED_MAP, []);
    assert Encode(PROTECTED_MAP).value + [] == Encode(PROTECTED_MAP).value;
  }

  lemma Accepts(s: Signer, decode: Decoder, key: KeyPair, e: Envelope, header: Bytes, payload: Bytes)
    requires SignsFor(s, key)
    requires Read(header, 0).Got? && Read(header, 0).value.0 == PROTECTED_MAP
    requires Lookup(PROTECTED_MAP.entries, KInt(ALG_LABEL)) == Some(Int(ALG_ED25519))
    requires SignedBytes(header, payload).Some?
    requires decode(e.protectedText) == Some(header) && decode(e.payloadText) == Some(payload)
    requires decode(e.signatureText) == Some(s.sign(key.secret, SignedBytes(header, payload).value))
    ensures VerifyEnvelope(s, decode, Some(key.public), e) == Valid(payload)
  {
    hide Read, Lookup, SignedBytes;
  }

  lemma DecodesWhatWasEncoded(decode: Decoder, data: Bytes)
    requires ExtendsStrict(decode)
    ensures decode(EncodeUrl(data)) == Some(data)
  {
    hide DecodeUrl, EncodeUrl;
    UrlRoundTrip(data);
  }

  lemma EnvelopeVerifies(
    d: Decimal, s: Signer, decode: Decoder, key: KeyPair, payload: Bytes, unprotected: seq<Entry>)
    requires ExtendsStrict(decode)
    requires ParsesWhatItShows(d) && IntegerLabelled(unprotected) && SignsFor(s, key) && |payload| == 32
    ensures var e := EnvelopeFor(s, key, payload, unprotected);
      && e.Some? && e.value.unprotected == unprotected && ToJson(d, e.value).Some?
      && FromJson(d, ToJson(d, e.value).value) == e.value
      && VerifyEnvelope(s, decode, Some(key.public), e.value) == Valid(payload)
  {
    hide *;
    ProtectedHeader();
    var header := Encode(PROTECTED_MAP).value;
    SignedBytesExist(header, payload);
    var message := SignedBytes(header, payload).value;
    var e := Envelope(EncodeUrl(header), unprotected, EncodeUrl(payload), EncodeUrl(s.sign(key.secret, message)));
    EnvelopeIs(s, key, payload, unprotected);
    JsonRoundTrip(d, e);
    HeaderReadsBack();
    DecodesWhatWasEncoded(decode, header);
    DecodesWhatWasEncoded(decode, payload);
    DecodesWhatWasEncoded(decode, s.sign(key.secret, message));
    Accepts(s, decode, key, e, header, payload);
  }

  lemma HeaderAsList(b: Builtins, r: Chain.Receipt)
    ensures var u := UnprotectedHeader(b, r);
      && |u| == (if r.operatorId.None? then 7 else 8)
      && u[0] == Entry(KInt(99999), Text(b.utf8(r.keyId))) && u[1] == Entry(KInt(99997), Int(ChainVersionFor(b, r)))
      && u[2] == Entry(KInt(99996), Int(r.id)) && u[3] == Entry(KInt(99995), Text(b.utf8(r.payloadSha256)))
      && u[4] == Entry(KInt(99994), Int(if r.parentId.Some? then r.parentId.value else -1))
      && u[5] == Entry(KInt(99993), Text(b.utf8(r.model))) && u[6] == Entry(KInt(99992), Text(b.utf8(r.timestamp)))
      && (r.operatorId.Some? ==> u[7] == Entry(KInt(99998), Text(b.utf8(r.operatorId.value))))
  {
    hide ChainVersionFor;
  }

  lemma LabelsDiffer(b: Builtins, r: Chain.Receipt)
    ensures IntegerLabelled(UnprotectedHeader(b, r))
  {
    hide ChainVersionFor, UnprotectedHeader;
    HeaderAsList(b, r);
  }

  lemma {:induction false} LookupAt(u: seq<Entry>, i: nat)
    requires i < |u| && DistinctKeys(u)
    ensures Lookup(u, u[i].key) == Some(u[i].value)
  {
    if i == 0 {
      KeyEqIsEquivalence(u[0].key, u[0].key, u[0].key);
    } else {
      assert !KeyEq(u[0].key, u[i].key);
      LookupAt(u[1..], i - 1);
    }
  }

  lemma {:induction false} LookupNone(u: seq<Entry>, k: Key)
    requires forall i :: 0 <= i < |u| ==> !KeyEq(u[i].key, k)
    ensures Lookup(u, k).None?
  {
    if u == [] {
    } else {
      LookupNone(u[1..], k);
    }
  }

  /** What the unprotected header says under each label. */
  lemma HeaderLabels(b: Builtins, r: Chain.Receipt)
    ensures var u := UnprotectedHeader(b, r);
      && IntegerLabelled(u)
      && Lookup(u, KInt(99999)) == Some(Text(b.utf8(r.keyId)))
      && Lookup(u, KInt(99996)) == Some(Int(r.id))
      && Lookup(u, KInt(99995)) == Some(Text(b.utf8(r.payloadSha256)))
      && Lookup(u, KInt(99994)) == Some(Int(if r.parentId.Some? then r.parentId.value else -1))
      && Lookup(u, KInt(99993)) == Some(Text(b.utf8(r.model)))
      && Lookup(u, KInt(99992)) == Some(Text(b.utf8(r.timestamp)))
      && Lookup(u, KInt(99998)) == (if r.operatorId.Some? then Some(Text(b.utf8(r.operatorId.value))) else None)
  {
    hide ChainVersionFor, UnprotectedHeader, Lookup;
    var u := UnprotectedHeader(b, r);
    HeaderAsList(b, r);
    LabelsDiffer(b, r);
    forall i | 0 <= i < |u| ensures Lookup(u, u[i].key) == Some(u[i].value) {
      LookupAt(u, i);
    }
    if r.operatorId.None? { LookupNone(u, KInt(99998)); }
  }

  /** The chain version in the header: the receipt's own when it reads as an integer, else 2. */
  lemma HeaderVersion(b: Builtins, r: Chain.Receipt)
    ensures var version := Chain.Version(r);
      Lookup(UnprotectedHeader(b, r), KInt(99997)) ==
        Some(Int(if !version.Null? && b.toInt(version).Some? then b.toInt(version).value else 2))
  {
    HeaderAsList(b, r);
  }

  /**
   * Main result: the envelope of a receipt with a 32-byte hash verifies after a JSON trip, hands
   * that hash back, and names the receipt's key.
   */
  lemma ReceiptEnvelopeVerifies(
    d: Decimal, b: Builtins, s: Signer, decode: Decoder, key: KeyPair, r: Chain.Receipt, hash: Bytes)
    requires ExtendsStrict(decode) && ParsesWhatItShows(d) && SignsFor(s, key)
    requires b.fromHex(r.payloadSha256) == Some(hash) && |hash| == 32
    ensures var e := EnvelopeForReceipt(b, s, key, r);
      && e.Some? && ToJson(d, e.value).Some?
      && var back := FromJson(d, ToJson(d, e.value).value);
      && VerifyEnvelope(s, decode, Some(key.public), back) == Valid(hash)
      && Lookup(back.unprotected, KInt(LABEL_KID)) == Some(Text(b.utf8(r.keyId)))
  {
    hide ExtendsStrict, ParsesWhatItShows, SignsFor, IntegerLabelled, EnvelopeFor, VerifyEnvelope,
      UnprotectedHeader, ToJson, FromJson, Lookup;
    HeaderLabels(b, r);
    EnvelopeVerifies(d, s, decode, key, hash, UnprotectedHeader(b, r));
  }

  lemma BstrInjective(a: Bytes, b: Bytes)
    requires Bstr(a).Some? && Bstr(a) == Bstr(b)
    ensures a == b
  {
    hide EncodeKey;
    KeyCodeInjective(KBytes(a), KBytes(b));
  }

  lemma SignedBytesInjective(p: Bytes, q: Bytes, p': Bytes, q': Bytes)
    requires SignedBytes(p, q).Some? && SignedBytes(p, q) == SignedBytes(p', q')
    ensures p == p' && q == q'
  {
    hide Bstr, BuildSigStructure;
    SigStructureInjective(Bstr(p).value, Bstr(q).value, Bstr(p').value, Bstr(q').value);
    BstrInjective(p, p');
    BstrInjective(q, q');
  }

  lemma AcceptedSignature(s: Signer, decode: Decoder, public: Bytes, e: Envelope, payload: Bytes)
    requires VerifyEnvelope(s, decode, Some(public), e) == Valid(payload)
    ensures decode(e.protectedText).Some? && decode(e.signatureText).Some?
    ensures var message := SignedBytes(decode(e.protectedText).value, payload);
      message.Some? && s.verify(public, message.value, decode(e.signatureText).value)
  {
    hide SignedBytes, Read, Lookup;
  }

  /** The signature verifies on a message that was made for none of the payloads in `signed`. */
  ghost predicate Forgery(s: Signer, public: Bytes, message: Option<Bytes>, signature: Option<Bytes>, signed: set<Bytes>) {
    && message.Some? && signature.Some? && s.verify(public, message.value, signature.value)
    && forall q :: q in signed ==> Encode(PROTECTED_MAP).None? || SignedBytes(Encode(PROTECTED_MAP).value, q) != message
  }

  /**
   * Main result: for any set of payloads, an accepted envelope carries one of them under the standard
   * header, or else the envelope itself holds a forgery. Never both.
   */
  lemma AcceptedPayloadWasSigned(
    s: Signer, decode: Decoder, public: Bytes, e: Envelope, payload: Bytes, signed: set<Bytes>)
    requires VerifyEnvelope(s, decode, Some(public), e) == Valid(payload)
    ensures decode(e.protectedText).Some?
    ensures var header := decode(e.protectedText);
      Forgery(s, public, SignedBytes(header.value, payload), decode(e.signatureText), signed)
      <==> !(payload in signed && header == Encode(PROTECTED_MAP))
  {
    hide SignedBytes, Encode, VerifyEnvelope;
    AcceptedSignature(s, decode, public, e, payload);
    var header := decode(e.protectedText).value;
    forall q | q in signed && Encode(PROTECTED_MAP).Some?
        && SignedBytes(Encode(PROTECTED_MAP).value, q) == SignedBytes(header, payload)
      ensures q == payload && Encode(PROTECTED_MAP).value == header
    {
      SignedBytesInjective(Encode(PROTECTED_MAP).value, q, header, payload);
    }
  }

  // ---- The bytes that are signed, and exactly what is accepted ----

  lemma FixedItems()
    ensures Bstr(SIGNATURE_CONTEXT) == Some([0x4A] + SIGNATURE_CONTEXT)
    ensures Bstr(EXTERNAL_AAD) == Some([0x40])
  {
    assert [0x40] + EXTERNAL_AAD == [0x40];
  }

  /**
   * Main result: the signed bytes are an array of four byte strings: "Signature1", the protected
   * argument, nothing, and the payload argument.
   */
  lemma SigStructureBytes(p: Bytes, q: Bytes)
    ensures BuildSigStructure(p, q) ==
      if Bstr(p).None? || Bstr(q).None? then None
      else Some([0x84] + ([0x4A, 83, 105, 103, 110, 97, 116, 117, 114, 101, 49]) + Bstr(p).value + [0x40] + Bstr(q).value)
  {
    hide Encode;
    ListOfFour(Blob(SIGNATURE_CONTEXT), Blob(p), Blob(EXTERNAL_AAD), Blob(q));
    BlobEncoding(SIGNATURE_CONTEXT);
    BlobEncoding(p);
    BlobEncoding(EXTERNAL_AAD);
    BlobEncoding(q);
    FixedItems();
    hide Bstr;
    assert [0x4A] + SIGNATURE_CONTEXT == [0x4A, 83, 105, 103, 110, 97, 116, 117, 114, 101, 49];
  }

  /** The header bytes decode to a map that names Ed25519. */
  ghost predicate NamesEd25519(header: Bytes) {
    var decoded := Read(header, 0);
    decoded.Got? && decoded.value.0.Dict? && Lookup(decoded.value.0.entries, KInt(1)) == Some(Int(-8))
  }

  /** Main result: exactly when an envelope is accepted, and with which payload. */
  lemma AcceptedExactly(s: Signer, decode: Decoder, public: Option<Bytes>, e: Envelope, payload: Bytes)
    ensures VerifyEnvelope(s, decode, public, e) == Valid(payload) <==>
      var header, signature := decode(e.protectedText), decode(e.signatureText);
      && public.Some? && header.Some? && NamesEd25519(header.value)
      && decode(e.payloadText) == Some(payload) && signature.Some?
      && var message := SignedBytes(header.value, payload);
      && message.Some? && s.verify(public.value, message.value, signature.value)
  {
    hide Read, Lookup, SignedBytes;
  }

  /** Main result: which rejection is given for what. */
  lemma RejectedExactly(s: Signer, decode: Decoder, public: Option<Bytes>, e: Envelope)
    ensures var header, payload, signature := decode(e.protectedText), decode(e.payloadText), decode(e.signatureText);
      var verdict := VerifyEnvelope(s, decode, public, e);
      && (verdict == InvalidPublicKey <==> public.None?)
      && (verdict == NotAMap <==>
            public.Some? && header.Some? && Read(header.value, 0).Got? && !Read(header.value, 0).value.0.Dict?)
      && (verdict == UnsupportedAlgorithm <==>
            && public.Some? && header.Some? && Read(header.value, 0).Got? && Read(header.value, 0).value.0.Dict?
            && !NamesEd25519(header.value))
      && (verdict == Malformed <==>
            && public.Some?
            && (header.None? || Read(header.value, 0).Refused?
                || (NamesEd25519(header.value) && (payload.None? || signature.None?))))
      && (verdict == SignatureMismatch <==>
            && public.Some? && header.Some? && NamesEd25519(header.value) && payload.Some? && signature.Some?
            && SignedBytes(header.value, payload.value).Some?
            && !s.verify(public.value, SignedBytes(header.value, payload.value).value, signature.value))
  {
    hide Read, Lookup, SignedBytes;
  }

  // ---- Labels that are no integers ----

  /** A label counts as an integer when int() accepts it: an integer, a boolean, or digits as text or bytes. */
  lemma LabelsMean(d: Decimal, k: Key)
    ensures LabelNumber(d, KInt(5)) == Some(5) && LabelNumber(d, KNull).None?
    ensures LabelNumber(d, KBool(true)) == Some(1) && LabelNumber(d, KBool(false)) == Some(0)
    ensures k.KInt? ==> LabelNumber(d, k) == Some(k.n)
    ensures k.KText? ==> LabelNumber(d, k) == d.parse(k.utf8)
    ensures k.KBytes? ==> LabelNumber(d, k) == d.parse(k.bytes)
    ensures LabelNumber(d, k).None? ==> Numeric(d, k) == k
    ensures LabelNumber(d, k).Some? ==> Numeric(d, k) == KInt(LabelNumber(d, k).value)
  {
  }

  ghost predicate AllNumbered(d: Decimal, u: seq<Entry>) {
    forall i :: 0 <= i < |u| ==> LabelNumber(d, u[i].key).Some?
  }

  /** Main result: both wire forms exist exactly when every label reads as an integer. */
  lemma {:induction false} FormsExistIff(d: Decimal, u: seq<Entry>)
    ensures Stringify(d, u).Some? <==> AllNumbered(d, u)
    ensures IntegerLabels(d, u).Some? <==> AllNumbered(d, u)
  {
    hide LabelNumber;
    if u == [] {
    } else {
      FormsExistIff(d, u[..|u| - 1]);
    }
  }

  /**
   * Main result: the CBOR form is the encoding of the four-element array, and it exists exactly
   * when the three texts decode, every label reads as an integer and that array encodes.
   */
  lemma EmittedExactly(d: Decimal, e: Envelope)
    ensures IntegerLabels(d, e.unprotected).Some? <==> AllNumbered(d, e.unprotected)
    ensures var p, q, s := DecodeUrl(e.protectedText), DecodeUrl(e.payloadText), DecodeUrl(e.signatureText);
      Emit(d, e) ==
        if p.Some? && q.Some? && s.Some? && AllNumbered(d, e.unprotected)
        then Encode(Parts(p.value, IntegerLabels(d, e.unprotected).value, q.value, s.value)) else None
  {
    hide Encode, DecodeUrl, Bstr, AllNumbered, IntegerLabels, Parts;
    FormsExistIff(d, e.unprotected);
    var p, q, s := DecodeUrl(e.protectedText), DecodeUrl(e.payloadText), DecodeUrl(e.signatureText);
    var labels := IntegerLabels(d, e.unprotected);
    if p.Some? && q.Some? && s.Some? && labels.Some? {
      HandAssembledArray(p.value, labels.value, q.value, s.value);
    }
  }

  /** The value of the last entry whose renamed label is k. */
  ghost function LastUnder(rename: Key -> Key, u: seq<Entry>, k: Key): Option<Value> {
    if u == [] then None
    else
      var last := u[|u| - 1];
      if KeyEq(rename(last.key), k) then Some(last.value) else LastUnder(rename, u[..|u| - 1], k)
  }

  /** The dict comprehension {rename(k): v for k, v in u.items()}. */
  ghost predicate Relabelled(rename: Key -> Key, u: seq<Entry>, r: seq<Entry>) {
    DistinctKeys(r) && forall k :: Lookup(r, k) == LastUnder(rename, u, k)
  }

  ghost function AsNumber(d: Decimal): Key -> Key {
    k => Numeric(d, k)
  }

  ghost function AsDecimal(d: Decimal): Key -> Key {
    k => if LabelNumber(d, k).Some? then KText(d.show(LabelNumber(d, k).value)) else k
  }

  lemma RelabelledLast(rename: Key -> Key, u: seq<Entry>, out: seq<Entry>)
    requires u != [] && Relabelled(rename, u[..|u| - 1], out)
    ensures Relabelled(rename, u, Put(out, rename(u[|u| - 1].key), u[|u| - 1].value))
  {
    hide DistinctKeys, Put, Lookup, KeyEq;
    var last := u[|u| - 1];
    var r := Put(out, rename(last.key), last.value);
    CborDecoding.PutStaysDistinct(out, rename(last.key), last.value);
    forall k ensures Lookup(r, k) == LastUnder(rename, u, k) {
      PutLookup(out, rename(last.key), last.value, k);
    }
  }

  lemma NothingRelabelled(d: Decimal)
    ensures Relabelled(AsNumber(d), [], []) && Relabelled(AsDecimal(d), [], [])
  {
  }

  /** Main result: each form has every renamed label once, with the last of the values given for it. */
  lemma {:induction false} FormsRelabel(d: Decimal, u: seq<Entry>)
    ensures Relabelled(AsNumber(d), u, Unstringify(d, u))
    ensures IntegerLabels(d, u).Some? ==> Relabelled(AsNumber(d), u, IntegerLabels(d, u).value)
    ensures Stringify(d, u).Some? ==> Relabelled(AsDecimal(d), u, Stringify(d, u).value)
  {
    hide Relabelled, LabelNumber, Put;
    if u == [] {
      NothingRelabelled(d);
    } else {
      var before := u[..|u| - 1];
      FormsRelabel(d, before);
      RelabelledLast(AsNumber(d), u, Unstringify(d, before));
      if IntegerLabels(d, u).Some? {
        RelabelledLast(AsNumber(d), u, IntegerLabels(d, before).value);
      }
      if Stringify(d, u).Some? {
        RelabelledLast(AsDecimal(d), u, Stringify(d, before).value);
      }
    }
  }

  lemma ShownNumber(d: Decimal, n: int)
    requires ParsesWhatItShows(d)
    ensures LabelNumber(d, KText(d.show(n))) == Some(n)
  {
  }

  lemma LastLabelReads(d: Decimal, before: seq<Entry>, last: Entry)
    requires ParsesWhatItShows(d) && IntegerLabelled(before + [last])
    requires IntegerLabelled(before) && IntegerLabels(d, Shown(d, before)) == Some(before)
    ensures last.key.KInt?
    ensures IntegerLabels(d, Shown(d, before) + [Entry(KText(d.show(last.key.n)), last.value)]) == Some(before + [last])
  {
    hide ParsesWhatItShows, Put, Shown, KeyEq, Numeric, LabelNumber;
    assert (before + [last])[|before|] == last;
    var shown := Entry(KText(d.show(last.key.n)), last.value);
    var texts := Shown(d, before) + [shown];
    assert texts[..|texts| - 1] == Shown(d, before);
    ShownNumber(d, last.key.n);
    forall i | 0 <= i < |before| ensures !KeyEq(before[i].key, last.key) {
      assert (before + [last])[i] == before[i];
    }
    PutAppends(before, last.key, last.value);
  }

  lemma {:induction false} ShownLabelsRead(d: Decimal, u: seq<Entry>)
    requires ParsesWhatItShows(d) && IntegerLabelled(u)
    ensures IntegerLabels(d, Shown(d, u)) == Some(u)
  {
    hide ParsesWhatItShows, KeyEq;
    if u == [] {
      assert Shown(d, u) == [];
    } else {
      var before, last := u[..|u| - 1], u[|u| - 1];
      assert u == before + [last];
      ShownLabelsRead(d, before);
      LastLabelReads(d, before, last);
      assert Shown(d, u) == Shown(d, before) + [Entry(KText(d.show(last.key.n)), last.value)];
    }
  }

  /** Main result: the JSON form, text labels and all, is emitted as the same CBOR as the envelope itself. */
  lemma JsonFormEmitsTheSame(d: Decimal, e: Envelope)
    requires ParsesWhatItShows(d) && IntegerLabelled(e.unprotected)
    ensures ToJson(d, e).Some? && Emit(d, ToJson(d, e).value) == Emit(d, e)
  {
    hide IntegerLabels, Stringify, DecodeUrl, Bstr, Encode, Shown;
    StringifyShows(d, e.unprotected);
    IntegerLabelsKept(d, e.unprotected);
    ShownLabelsRead(d, e.unprotected);
  }

  /** Main result: a receipt gets an envelope exactly when its stored hash spells 32 bytes and the signature has 64. */
  lemma EnvelopeMadeIff(b: Builtins, s: Signer, key: KeyPair, r: Chain.Receipt)
    ensures Encode(PROTECTED_MAP).Some?
    ensures EnvelopeForReceipt(b, s, key, r).Some? <==>
      && b.fromHex(r.payloadSha256).Some? && |b.fromHex(r.payloadSha256).value| == 32
      && var message := SignedBytes(Encode(PROTECTED_MAP).value, b.fromHex(r.payloadSha256).value);
      && message.Some? && |s.sign(key.secret, message.value)| == 64
    ensures EnvelopeForReceipt(b, s, key, r).Some? ==>
      EnvelopeForReceipt(b, s, key, r).value.unprotected == UnprotectedHeader(b, r)
  {
    ProtectedHeader();
    hide Encode, SignedBytes, UnprotectedHeader, EncodeUrl;
  }
}
