/** The DER writer and reader behind timestamp requests (dontlie/anchor/rfc3161.py). */
module Der {
  import opened Prelude

  // ---- Base-256 and base-128 digits ----

  /** The octets of n, most significant first, none for 0. */
  function Octets(n: nat): (b: Bytes)
    ensures n > 0 ==> b != [] && b[0] != 0
  {
    if n == 0 then [] else Octets(n / 256) + [n % 256]
  }

  /** All but the last base-128 digit of an arc, with their continuation bits. */
  function Leading(n: nat): Bytes {
    if n == 0 then [] else Leading(n / 128) + [n % 128 + 128]
  }

  function Arc(n: nat): Bytes {
    Leading(n / 128) + [n % 128]
  }

  function Reversed(s: Bytes): (r: Bytes)
    ensures |r| == |s|
  {
    if s == [] then [] else Reversed(s[1..]) + [s[0]]
  }

  lemma LastOctet(n: nat)
    requires n > 0
    ensures Octets(n) == Octets(n / 256) + [n % 256]
  {
  }

  lemma {:induction false} ReversedSnoc(s: Bytes, x: Byte)
    ensures Reversed(s + [x]) == [x] + Reversed(s)
  {
    if s == [] {
    } else {
      assert (s + [x])[1..] == s[1..] + [x];
      ReversedSnoc(s[1..], x);
    }
  }

  method OctetsByLoop(n: nat) returns (octets: Bytes)
    ensures octets == Octets(n)
  {
    var little: Bytes, rest := [], n;
    assert Octets(n) + [] == Octets(n);
    while rest > 0
      invariant Octets(rest) + Reversed(little) == Octets(n)
    {
      hide *;
      ReversedSnoc(little, rest % 256);
      LastOctet(rest);
      assert Octets(rest / 256) + ([rest % 256] + Reversed(little)) == Octets(rest) + Reversed(little);
      little := little + [rest % 256];
      rest := rest / 256;
    }
    return Reversed(little);
  }

  // ---- Writer ----

  /** 0x80 | k in one octet. */
  function WithHighBit(k: nat): (b: Byte)
    ensures k < 128 ==> b == 128 + k
  {
    if k % 256 >= 128 then k % 256 else k % 256 + 128
  }

  function Length(n: nat): Bytes {
    if n < 0x80 then [n] else [WithHighBit(|Octets(n)|)] + Octets(n)
  }

  method DerLength(n: nat) returns (b: Bytes)
    ensures b == Length(n)
  {
    if n < 0x80 { return [n]; }
    var octets := OctetsByLoop(n);
    return [WithHighBit(|octets|)] + octets;
  }

  function Header(tag: Byte, content: Bytes): Bytes {
    [tag] + Length(|content|) + content
  }

  function Abs(v: int): nat {
    if v < 0 then -v else v
  }

  /** The content octets of _encode_integer: both tests look at the last octet. */
  function IntegerBody(v: int): (b: Bytes)
    ensures b != []
  {
    if v == 0 then [0]
    else
      var magnitude := Octets(Abs(v));
      var padded := if magnitude[|magnitude| - 1] >= 128 then magnitude + [0] else magnitude;
      if v < 0 then padded[|padded| - 1 := WithHighBit(padded[|padded| - 1])] else padded
  }

  method EncodeInteger(v: int) returns (b: Bytes)
    ensures b == Header(0x02, IntegerBody(v))
  {
    var body: Bytes := [0];
    if v != 0 {
      body := OctetsByLoop(Abs(v));
      if body[|body| - 1] >= 128 { body := body + [0]; }
      if v < 0 { body := body[|body| - 1 := WithHighBit(body[|body| - 1])]; }
    }
    var length := DerLength(|body|);
    return [0x02] + length + body;
  }

  /** The arcs from the third on; None is a negative arc. */
  function ArcsBody(arcs: seq<int>): Option<Bytes> {
    if arcs == [] then Some([])
    else
      var before := ArcsBody(arcs[..|arcs| - 1]);
      if before.None? || arcs[|arcs| - 1] < 0 then None else Some(before.value + Arc(arcs[|arcs| - 1]))
  }

  /** The content octets of _encode_oid; None is ASN1Error or ValueError. */
  function OidBody(arcs: seq<int>): Option<Bytes> {
    if |arcs| < 2 || !(0 <= 40 * arcs[0] + arcs[1] <= 255) then None
    else
      var rest := ArcsBody(arcs[2..]);
      if rest.None? then None else Some([40 * arcs[0] + arcs[1]] + rest.value)
  }

  lemma {:induction false} ArcsExistIff(arcs: seq<int>)
    ensures ArcsBody(arcs).Some? <==> forall k :: 0 <= k < |arcs| ==> arcs[k] >= 0
  {
    if arcs != [] { ArcsExistIff(arcs[..|arcs| - 1]); }
  }

  /** Main result: an identifier is written exactly when it has two arcs that share an octet and no negative one behind. */
  lemma OidWrittenIff(arcs: seq<int>)
    ensures OidBody(arcs).Some? <==>
      |arcs| >= 2 && 0 <= 40 * arcs[0] + arcs[1] <= 255 && forall k :: 2 <= k < |arcs| ==> arcs[k] >= 0
  {
    if |arcs| >= 2 {
      ArcsExistIff(arcs[2..]);
      assert forall k :: 2 <= k < |arcs| ==> arcs[k] == arcs[2..][k - 2];
    }
  }

  method EncodeOidBody(arcs: seq<int>) returns (r: Option<Bytes>)
    ensures r == OidBody(arcs)
  {
    if |arcs| < 2 || !(0 <= 40 * arcs[0] + arcs[1] <= 255) { return None; }
    var first: Byte := 40 * arcs[0] + arcs[1];
    var rest, k := arcs[2..], 0;
    var body: Bytes := [];
    while k < |rest|
      invariant 0 <= k <= |rest|
      invariant ArcsBody(rest[..k]) == Some(body)
    {
      assert rest[..k + 1][..k] == rest[..k];
      if rest[k] < 0 {
        ArcsExistIff(rest);
        return None;
      }
      var arc: Bytes, n: nat := [rest[k] % 128], rest[k] / 128;
      assert Leading(n) + arc == Arc(rest[k]);
      while n > 0
        invariant Leading(n) + arc == Arc(rest[k])
      {
        assert Leading(n) + arc == Leading(n / 128) + ([n % 128 + 128] + arc);
        arc, n := [n % 128 + 128] + arc, n / 128;
      }
      assert Leading(0) + arc == arc;
      assert rest[..k + 1][k] == rest[k];
      body := body + arc;
      k := k + 1;
    }
    assert rest[..k] == rest;
    return Some([first] + body);
  }

  // ---- Reader ----

  /** read_tag then read: tag, content and the position behind them; None is ASN1Error. */
  function ReadTlv(data: Bytes, pos: nat): (r: Option<(Byte, Bytes, nat)>)
    ensures r.Some? ==> pos + 2 <= r.value.2 <= |data|
  {
    if pos + 2 > |data| then None
    else
      var tag, first := data[pos], data[pos + 1];
      var width := if first < 0x80 then 0 else first - 0x80;
      if first == 0x80 || pos + 2 + width > |data| then None
      else
        var start := pos + 2 + width;
        var length := if first < 0x80 then first else FromBe(data[pos + 2..start]);
        if start + length > |data| then None else Some((tag, data[start..start + length], start + length))
  }

  class Reader {
    const data: Bytes
    var pos: nat

    constructor (data: Bytes)
      ensures this.data == data && pos == 0
    {
      this.data := data;
      pos := 0;
    }

    method Read(n: nat) returns (out: Option<Bytes>)
      modifies this`pos
      ensures out.Some? <==> old(pos) + n <= |data|
      ensures out.Some? ==> out.value == data[old(pos)..old(pos) + n] && pos == old(pos) + n
      ensures out.None? ==> pos == old(pos)
    {
      if pos + n > |data| { return None; }
      out := Some(data[pos..pos + n]);
      pos := pos + n;
    }

    method ReadTag() returns (r: Option<(Byte, nat)>)
      modifies this`pos
      ensures old(pos) <= pos
      ensures ReadTlv(data, old(pos)).Some? ==>
        r.Some? && r.value.0 == ReadTlv(data, old(pos)).value.0
        && r.value.1 == |ReadTlv(data, old(pos)).value.1|
        && pos + r.value.1 == ReadTlv(data, old(pos)).value.2 <= |data|
      ensures ReadTlv(data, old(pos)).None? ==> r.None? || pos + r.value.1 > |data|
      ensures r.Some? && pos + r.value.1 <= |data| ==>
        ReadTlv(data, old(pos)) == Some((r.value.0, data[pos..pos + r.value.1], pos + r.value.1))
    {
      var tag := Read(1);
      if tag.None? { return None; }
      var first := Read(1);
      if first.None? { return None; }
      if first.value[0] < 0x80 { return Some((tag.value[0], first.value[0])); }
      if first.value[0] == 0x80 { return None; }
      var lengthBytes := Read(first.value[0] - 0x80);
      if lengthBytes.None? { return None; }
      return Some((tag.value[0], FromBe(lengthBytes.value)));
    }

    method ReadOne() returns (r: Option<(Byte, Bytes)>)
      modifies this`pos
      ensures var spec := ReadTlv(data, old(pos));
        if spec.None? then r.None?
        else r == Some((spec.value.0, spec.value.1)) && pos == spec.value.2
    {
      var tag := ReadTag();
      if tag.None? { return None; }
      var content := Read(tag.value.1);
      if content.None? { return None; }
      return Some((tag.value.0, content.value));
    }
  }

  /** _decode_integer; None is an empty content. */
  function DecodeInteger(content: Bytes): Option<int> {
    if content == [] then None
    else if content[0] >= 0x80 then Some(FromBe(content) - Pow256(|content|))
    else Some(FromBe(content))
  }

  /** One arc from position i on, n being what has been read of it. */
  function ReadArc(body: Bytes, i: nat, n: nat): (r: Option<(nat, nat)>)
    ensures r.Some? ==> i < r.value.1 <= |body|
    decreases |body| - i
  {
    if i >= |body| then None
    else
      var n' := n * 128 + body[i] % 128;
      if body[i] >= 128 then ReadArc(body, i + 1, n') else Some((n', i + 1))
  }

  function ReadArcs(body: Bytes, i: nat): Option<seq<int>>
    decreases |body| - i
  {
    if i >= |body| then Some([])
    else
      var arc := ReadArc(body, i, 0);
      if arc.None? then None
      else
        var rest := ReadArcs(body, arc.value.1);
        if rest.None? then None else Some([arc.value.0] + rest.value)
  }

  function DecodeOid(content: Bytes): Option<seq<int>> {
    if content == [] then None
    else
      var rest := ReadArcs(content, 1);
      if rest.None? then None else Some([content[0] / 40, content[0] % 40] + rest.value)
  }

  method DecodeOidByLoop(content: Bytes) returns (r: Option<seq<int>>)
    ensures r == DecodeOid(content)
  {
    if content == [] { return None; }
    var parts: seq<int> := [content[0] / 40, content[0] % 40];
    ghost var firstTwo := parts;
    var i := 1;
    while i < |content|
      invariant 1 <= i <= |content|
      invariant var rest := ReadArcs(content, i);
        DecodeOid(content) == if rest.None? then None else Some(parts + rest.value)
    {
      ghost var start := i;
      var n: nat, more := 0, true;
      while more
        invariant start <= i <= |content|
        invariant more ==> ReadArc(content, start, 0) == ReadArc(content, i, n)
        invariant !more ==> ReadArc(content, start, 0) == Some((n, i))
        decreases |content| - i, more
      {
        if i >= |content| { return None; }
        n := n * 128 + content[i] % 128;
        more := content[i] >= 128;
        i := i + 1;
      }
      ghost var rest := ReadArcs(content, i);
      assert rest.Some? ==> parts + ([n] + rest.value) == (parts + [n]) + rest.value;
      parts := parts + [n];
    }
    assert parts + [] == parts;
    return Some(parts);
  }

  // ---- Laws of numbers ----

  lemma {:induction false} OctetsValue(n: nat)
    ensures FromBe(Octets(n)) == n
  {
    if n == 0 {
    } else {
      OctetsValue(n / 256);
      assert Octets(n)[..|Octets(n)| - 1] == Octets(n / 256);
    }
  }

  lemma {:induction false} OctetsFit(n: nat, k: nat)
    requires n < Pow256(k)
    ensures |Octets(n)| <= k
  {
    if n == 0 {
    } else {
      OctetsFit(n / 256, k - 1);
    }
  }

  /** The leading octet bounds a number from both sides. */
  lemma {:induction false} LeadingOctet(b: Bytes)
    requires b != []
    ensures FromBe(b) < Pow256(|b|) == 256 * Pow256(|b| - 1)
    ensures b[0] >= 128 <==> 2 * FromBe(b) >= Pow256(|b|)
  {
    FromBeBound(b);
    if |b| > 1 {
      LeadingOctet(b[..|b| - 1]);
      assert b[..|b| - 1][0] == b[0];
    } else {
      assert FromBe(b[..0]) == 0;
      assert Pow256(1) == 256;
    }
  }

  lemma FromBeSnoc(b: Bytes, x: Byte)
    ensures FromBe(b + [x]) == FromBe(b) * 256 + x
  {
    assert (b + [x])[..|b|] == b;
  }

  /** Powers of 256 are 1 or -1 modulo 257. */
  lemma {:induction false} PowersModulo257(k: nat) returns (q: nat)
    ensures Pow256(k) == 257 * q + 1 || Pow256(k) == 257 * q + 256
  {
    if k == 0 {
      q := 0;
    } else {
      var p := PowersModulo257(k - 1);
      if Pow256(k - 1) == 257 * p + 1 {
        q := 256 * p;
      } else {
        q := 256 * p + 255;
      }
    }
  }

  // ---- INTEGER: exactly which numbers survive ----

  /** The first and the last octet of the magnitude are both below 0x80. */
  predicate QuietEnds(v: int) {
    v > 0 && Octets(v)[0] < 128 && Octets(v)[|Octets(v)| - 1] < 128
  }

  lemma PositiveRoundTrip(v: int)
    requires v > 0
    ensures DecodeInteger(IntegerBody(v)) == Some(v) <==> QuietEnds(v)
  {
    var m, body := Octets(v), IntegerBody(v);
    hide Octets;
    OctetsValue(v);
    FromBeSnoc(m, 0);
    LeadingOctet(m);
    LeadingOctet(body);
    LeadingOctet(m + [0]);
  }

  lemma NotBothWays(magnitude: nat, power: nat, q: nat)
    requires power == 257 * q + 1 || power == 257 * q + 256
    ensures magnitude * 256 + 128 - power != 0 - magnitude
  {
    var d := magnitude - q;
    assert 257 * d + 127 != 0 && 257 * d - 128 != 0;
  }

  lemma PaddedNegative(m: Bytes)
    requires m != []
    ensures DecodeInteger(m + [128]) != Some(0 - FromBe(m))
  {
    FromBeSnoc(m, 128);
    var q := PowersModulo257(|m| + 1);
    NotBothWays(FromBe(m), Pow256(|m| + 1), q);
    LeadingOctet(m + [128]);
    LeadingOctet(m);
  }

  lemma MarkedNegative(front: Bytes, last: Byte)
    requires last < 128 && FromBe(front + [last]) > 0
    ensures DecodeInteger(front + [last + 128]) == Some(0 - FromBe(front + [last])) <==> front == [] && last == 64
  {
    FromBeSnoc(front, last);
    FromBeSnoc(front, last + 128);
    LeadingOctet(front + [last]);
    LeadingOctet(front + [last + 128]);
    if front == [] {
      assert FromBe(front) == 0 && Pow256(1) == 256;
    } else {
      assert (front + [last])[0] == (front + [last + 128])[0];
    }
  }

  lemma NoOctets(n: nat)
    ensures Octets(n) == [] <==> n == 0
  {
  }

  lemma OnlySixtyFour(n: nat)
    requires n > 0
    ensures n == 64 <==> Octets(n)[..|Octets(n)| - 1] == [] && Octets(n)[|Octets(n)| - 1] == 64
  {
    hide Octets;
    LastOctet(n);
    NoOctets(n / 256);
    assert (Octets(n / 256) + [n % 256])[..|Octets(n / 256)|] == Octets(n / 256);
  }

  lemma NegativeRoundTrip(v: int)
    requires v < 0
    ensures DecodeInteger(IntegerBody(v)) == Some(v) <==> v == -64
  {
    var m, body := Octets(-v), IntegerBody(v);
    OctetsValue(-v);
    var front, last := m[..|m| - 1], m[|m| - 1];
    assert m == front + [last];
    OnlySixtyFour(-v);
    hide Octets, DecodeInteger, FromBe;
    if last >= 128 {
      assert body == m + [128];
      PaddedNegative(m);
    } else {
      assert body == front + [last + 128];
      MarkedNegative(front, last);
    }
  }

  /** Main result: over all integers, what is written reads back exactly in these cases. */
  lemma IntegerRoundTripIff(v: int)
    ensures DecodeInteger(IntegerBody(v)) == Some(v) <==> v == 0 || v == -64 || QuietEnds(v)
  {
    if v > 0 {
      PositiveRoundTrip(v);
    } else if v < 0 {
      NegativeRoundTrip(v);
    } else {
      assert FromBe([0]) == 0;
    }
  }

  lemma OneOctet(v: nat)
    requires 0 < v < 256
    ensures Octets(v) == [v]
  {
    LastOctet(v);
    NoOctets(0);
  }

  lemma BrokenInteger()
    ensures IntegerBody(128) == [0x80, 0x00] && DecodeInteger([0x80, 0x00]) == Some(-32768)
  {
    OneOctet(128);
    FromBeSnoc([], 128);
    FromBeSnoc([128], 0);
    assert [128] + [0] == [128, 0] && [] + [128] == [128] && FromBe([]) == 0;
    hide Octets, FromBe;
    assert Pow256(1) == 256 && Pow256(2) == 65536;
  }

  /** 128 is written as 80 00 and read back as -32768. */
  lemma SmallestBrokenInteger()
    ensures IntegerBody(128) == [0x80, 0x00] && DecodeInteger(IntegerBody(128)) == Some(-32768)
    ensures forall v :: 0 <= v < 128 ==> DecodeInteger(IntegerBody(v)) == Some(v)
  {
    BrokenInteger();
    forall v | 0 <= v < 128 ensures DecodeInteger(IntegerBody(v)) == Some(v) {
      if v > 0 { OneOctet(v); }
      IntegerRoundTripIff(v);
    }
  }

  // ---- OBJECT IDENTIFIER ----

  lemma ReadContinued(body: Bytes, i: nat, n: nat, digit: nat)
    requires i < |body| && digit < 128 && body[i] == digit + 128
    ensures ReadArc(body, i, n) == ReadArc(body, i + 1, n * 128 + digit)
  {
  }

  lemma LastDigit(n: nat)
    requires n > 0
    ensures Leading(n) == Leading(n / 128) + [n % 128 + 128]
  {
  }

  lemma {:induction false} ArcReadsBack(body: Bytes, i: nat, n: nat, tail: Bytes)
    requires Holds(body, i, Leading(n) + tail)
    ensures i + |Leading(n)| <= |body| && Holds(body, i + |Leading(n)|, tail)
    ensures ReadArc(body, i, 0) == ReadArc(body, i + |Leading(n)|, n)
  {
    hide Holds, ReadArc;
    HoldsSplit(body, i, Leading(n), tail);
    HoldsFits(body, i, Leading(n));
    if n == 0 {
    } else {
      var digit := [n % 128 + 128];
      LastDigit(n);
      assert Leading(n) + tail == Leading(n / 128) + (digit + tail);
      ArcReadsBack(body, i, n / 128, digit + tail);
      FirstByte(body, i + |Leading(n / 128)|, digit + tail);
      ReadContinued(body, i + |Leading(n / 128)|, n / 128, n % 128);
    }
  }

  lemma OneArc(body: Bytes, i: nat, n: nat)
    requires Holds(body, i, Arc(n))
    ensures ReadArc(body, i, 0) == Some((n, i + |Arc(n)|))
  {
    ArcReadsBack(body, i, n / 128, [n % 128]);
    FirstByte(body, i + |Leading(n / 128)|, [n % 128]);
  }

  function ArcsForward(arcs: seq<int>): Bytes
    requires forall k :: 0 <= k < |arcs| ==> arcs[k] >= 0
  {
    if arcs == [] then [] else Arc(arcs[0]) + ArcsForward(arcs[1..])
  }

  lemma {:induction false} ArcsAppend(arcs: seq<int>, n: nat)
    requires forall k :: 0 <= k < |arcs| ==> arcs[k] >= 0
    ensures ArcsForward(arcs + [n]) == ArcsForward(arcs) + Arc(n)
  {
    hide Arc;
    if arcs == [] {
      assert arcs + [n] == [n];
      assert ArcsForward([n]) == Arc(n) + ArcsForward([]);
    } else {
      assert (arcs + [n])[1..] == arcs[1..] + [n];
      ArcsAppend(arcs[1..], n);
    }
  }

  lemma {:induction false} ArcsBodyIsForward(arcs: seq<int>)
    ensures ArcsBody(arcs).Some? <==> forall k :: 0 <= k < |arcs| ==> arcs[k] >= 0
    ensures ArcsBody(arcs).Some? ==> ArcsBody(arcs).value == ArcsForward(arcs)
  {
    hide Arc;
    if arcs == [] {
    } else {
      var before, last := arcs[..|arcs| - 1], arcs[|arcs| - 1];
      assert arcs == before + [last];
      ArcsBodyIsForward(before);
      if ArcsBody(arcs).Some? { ArcsAppend(before, last); }
    }
  }

  lemma {:induction false} ArcsReadBack(body: Bytes, i: nat, arcs: seq<int>)
    requires forall k :: 0 <= k < |arcs| ==> arcs[k] >= 0
    requires Holds(body, i, ArcsForward(arcs)) && i + |ArcsForward(arcs)| == |body|
    ensures ReadArcs(body, i) == Some(arcs)
    decreases |arcs|
  {
    hide Arc, ReadArc;
    if arcs == [] {
    } else {
      HoldsSplit(body, i, Arc(arcs[0]), ArcsForward(arcs[1..]));
      OneArc(body, i, arcs[0]);
      ArcsReadBack(body, i + |Arc(arcs[0])|, arcs[1..]);
      assert arcs == [arcs[0]] + arcs[1..];
      assert ReadArc(body, i, 0).Some?;
    }
  }

  /** Main result: an identifier that can be written reads back exactly when 0 <= p1 < 40. */
  lemma OidRoundTripIff(arcs: seq<int>)
    requires OidBody(arcs).Some?
    ensures DecodeOid(OidBody(arcs).value) == Some(arcs) <==> 0 <= arcs[1] < 40
  {
    hide ReadArcs, ArcsForward, ArcsBody;
    var rest := arcs[2..];
    ArcsBodyIsForward(rest);
    var first, body := 40 * arcs[0] + arcs[1], OidBody(arcs).value;
    assert body[1..] == ArcsForward(rest);
    ArcsReadBack(body, 1, rest);
    var back := [first / 40, first % 40] + rest;
    assert DecodeOid(body) == Some(back);
    assert arcs == [arcs[0], arcs[1]] + rest;
    assert back[0] == first / 40 && back[1] == first % 40;
  }

  // ---- Tag, length, value ----

  lemma LengthFits(n: nat)
    requires n < Pow256(127)
    ensures |Octets(n)| <= 127
  {
    OctetsFit(n, 127);
  }

  lemma HoldsSlice(data: Bytes, pos: nat, piece: Bytes)
    requires Holds(data, pos, piece)
    ensures pos + |piece| <= |data| && data[pos..pos + |piece|] == piece
  {
  }

  /** Main result: any content shorter than 256^127 octets is read back with its tag, in any context. */
  lemma TlvRoundTrip(data: Bytes, pos: nat, tag: Byte, content: Bytes)
    requires |content| < Pow256(127) && Holds(data, pos, Header(tag, content))
    ensures ReadTlv(data, pos) == Some((tag, content, pos + |Header(tag, content)|))
  {
    hide Octets, Holds, FromBe, Pow256;
    var n := |content|;
    var length := Length(n);
    assert Header(tag, content) == [tag] + (length + content);
    HoldsSplit(data, pos, [tag], length + content);
    HoldsSplit(data, pos + 1, length, content);
    FirstByte(data, pos, [tag]);
    FirstByte(data, pos + 1, length);
    HoldsFits(data, pos + 1 + |length|, content);
    HoldsSlice(data, pos + 1 + |length|, content);
    if n >= 0x80 {
      LengthFits(n);
      HoldsSplit(data, pos + 1, [length[0]], Octets(n));
      HoldsSlice(data, pos + 2, Octets(n));
      OctetsValue(n);
    }
  }

  // ---- Timestamp requests ----

  function HashOid(name: string): Option<seq<int>> {
    if name == "sha256" then Some([2, 16, 840, 1, 101, 3, 4, 2, 1])
    else if name == "sha384" then Some([2, 16, 840, 1, 101, 3, 4, 2, 2])
    else if name == "sha512" then Some([2, 16, 840, 1, 101, 3, 4, 2, 3])
    else if name == "sha1" then Some([1, 3, 14, 3, 2, 26])
    else None
  }

  const NULL_TLV: Bytes := [0x05, 0x00]

  function HashAlgorithm(oidBody: Bytes): Bytes {
    Header(0x06, oidBody) + NULL_TLV
  }

  function Imprint(oidBody: Bytes, digest: Bytes): Bytes {
    Header(0x30, HashAlgorithm(oidBody)) + Header(0x04, digest)
  }

  function NonceTlv(nonce: Option<Bytes>): Bytes {
    if nonce.None? then [] else Header(0x02, IntegerBody(FromBe(nonce.value)))
  }

  function RequestBody(oidBody: Bytes, digest: Bytes, nonce: Option<Bytes>): Bytes {
    Header(0x02, IntegerBody(1)) + Header(0x30, Header(0x30, Imprint(oidBody, digest)))
    + NonceTlv(nonce) + Header(0x01, [0])
  }

  /** build_timestamp_request, the digest name already lower-cased; None is ValueError. */
  function BuildRequest(digest: Bytes, name: string, nonce: Option<Bytes>): Option<Bytes> {
    if |digest| !in {20, 32, 48, 64} || HashOid(name).None? || (nonce.Some? && |nonce.value| > 8) then None
    else
      var oidBody := OidBody(HashOid(name).value);
      if oidBody.None? then None else Some(Header(0x30, RequestBody(oidBody.value, digest, nonce)))
  }

  ghost predicate RecoversImprint(imprint: Bytes, oid: seq<int>, digest: Bytes) {
    var algorithm := ReadTlv(imprint, 0);
    algorithm.Some? && algorithm.value.0 == 0x30 &&
    ReadTlv(imprint, algorithm.value.2) == Some((0x04, digest, |imprint|)) &&
    var id := ReadTlv(algorithm.value.1, 0);
    id.Some? && id.value.0 == 0x06 && DecodeOid(id.value.1) == Some(oid) &&
    ReadTlv(algorithm.value.1, id.value.2) == Some((0x05, [], |algorithm.value.1|))
  }

  /** Reading value by value, each level to its last octet, gives back what was written. */
  ghost predicate Recovers(der: Bytes, oid: seq<int>, digest: Bytes, nonce: Option<Bytes>) {
    var request := ReadTlv(der, 0);
    request.Some? && request.value.0 == 0x30 && request.value.2 == |der| &&
    var body := request.value.1;
    var version := ReadTlv(body, 0);
    version.Some? && version.value.0 == 0x02 && DecodeInteger(version.value.1) == Some(1) &&
    var imprints := ReadTlv(body, version.value.2);
    imprints.Some? && imprints.value.0 == 0x30 &&
    var imprint := ReadTlv(imprints.value.1, 0);
    imprint.Some? && imprint.value.0 == 0x30 && imprint.value.2 == |imprints.value.1| &&
    RecoversImprint(imprint.value.1, oid, digest) &&
    var certReq := ReadTlv(body, imprints.value.2 + |NonceTlv(nonce)|);
    (nonce.Some? ==>
      ReadTlv(body, imprints.value.2)
      == Some((0x02, IntegerBody(FromBe(nonce.value)), imprints.value.2 + |NonceTlv(nonce)|))) &&
    certReq == Some((0x01, [0], |body|))
  }

  lemma {:induction false} PowersGrow(j: nat, k: nat)
    requires j <= k
    ensures Pow256(j) <= Pow256(k)
    decreases k
  {
    if j < k { PowersGrow(j, k - 1); }
  }

  lemma ShortEnough(content: Bytes)
    requires |content| < 0x100_0000
    ensures |content| < Pow256(127)
  {
    assert Pow256(3) == 0x100_0000;
    PowersGrow(3, 127);
  }

  /** One value at the front of the input, followed by `rest`. */
  lemma FrontTlv(tag: Byte, content: Bytes, rest: Bytes)
    requires |content| < 0x100_0000
    ensures ReadTlv(Header(tag, content) + rest, 0) == Some((tag, content, |Header(tag, content)|))
  {
    hide Header, ReadTlv, Pow256;
    ShortEnough(content);
    HoldsAtFront(Header(tag, content), rest);
    TlvRoundTrip(Header(tag, content) + rest, 0, tag, content);
  }

  /** One value behind `before` and in front of `rest`. */
  lemma InnerTlv(before: Bytes, tag: Byte, content: Bytes, rest: Bytes)
    requires |content| < 0x100_0000
    ensures ReadTlv(before + Header(tag, content) + rest, |before|)
      == Some((tag, content, |before| + |Header(tag, content)|))
  {
    hide Header, ReadTlv, Pow256;
    ShortEnough(content);
    var data := before + Header(tag, content) + rest;
    assert data[|before|..|before| + |Header(tag, content)|] == Header(tag, content);
    TlvRoundTrip(data, |before|, tag, content);
  }

  lemma HeaderLength(tag: Byte, content: Bytes)
    requires |content| < 0x1_0000
    ensures |Header(tag, content)| <= |content| + 4
  {
    assert Pow256(2) == 0x1_0000;
    OctetsFit(|content|, 2);
  }

  lemma {:induction false} ArcLength(arcs: seq<int>)
    requires forall k :: 0 <= k < |arcs| ==> 0 <= arcs[k] < 16384
    ensures |ArcsForward(arcs)| <= 2 * |arcs|
  {
    if arcs == [] {
    } else {
      assert |Leading(arcs[0] / 128)| <= 1 by { assert Leading(0) == []; }
      ArcLength(arcs[1..]);
    }
  }

  lemma HashOidBody(name: string)
    requires HashOid(name).Some?
    ensures var oid := HashOid(name).value;
      OidBody(oid).Some? && |OidBody(oid).value| <= 32 && DecodeOid(OidBody(oid).value) == Some(oid)
  {
    hide DecodeOid, ArcsBody, ArcsForward;
    var oid := HashOid(name).value;
    ArcsBodyIsForward(oid[2..]);
    ArcLength(oid[2..]);
    OidRoundTripIff(oid);
  }

  lemma NullIsHeader()
    ensures Header(0x05, []) == NULL_TLV
  {
  }

  lemma ImprintReadsBack(oidBody: Bytes, oid: seq<int>, digest: Bytes)
    requires |oidBody| <= 32 && DecodeOid(oidBody) == Some(oid) && |digest| <= 64
    ensures RecoversImprint(Imprint(oidBody, digest), oid, digest)
    ensures |Imprint(oidBody, digest)| <= 200
  {
    hide Header, ReadTlv, DecodeOid;
    var algorithm := HashAlgorithm(oidBody);
    NullIsHeader();
    HeaderLength(0x06, oidBody);
    HeaderLength(0x30, algorithm);
    HeaderLength(0x04, digest);
    FrontTlv(0x30, algorithm, Header(0x04, digest));
    InnerTlv(Header(0x30, algorithm), 0x04, digest, []);
    FrontTlv(0x06, oidBody, NULL_TLV);
    InnerTlv(Header(0x06, oidBody), 0x05, [], []);
    assert Imprint(oidBody, digest) + [] == Imprint(oidBody, digest) && algorithm + [] == algorithm;
  }

  lemma SmallIntegers(nonce: Option<Bytes>)
    requires nonce.Some? ==> |nonce.value| <= 8
    ensures IntegerBody(1) == [1] && DecodeInteger([1]) == Some(1)
    ensures nonce.Some? ==> |IntegerBody(FromBe(nonce.value))| <= 9
  {
    assert Octets(0) == [] && Octets(1) == [1];
    assert FromBe([]) == 0 && FromBe([1]) == 1;
    if nonce.Some? {
      FromBeBound(nonce.value);
      OctetsFit(FromBe(nonce.value), |nonce.value|);
    }
  }

  /** Three or four values in a row are read one after the other. */
  lemma FieldsReadBack(version: Bytes, imprints: Bytes, nonce: Option<Bytes>, flag: Bytes)
    requires |version| < 0x100 && |imprints| < 0x1000 && |flag| < 0x100
    requires nonce.Some? ==> |nonce.value| < 0x100
    ensures var v, m, f := Header(0x02, version), Header(0x30, imprints), Header(0x01, flag);
      var n := if nonce.None? then [] else Header(0x02, nonce.value);
      var body := v + m + n + f;
      && ReadTlv(body, 0) == Some((0x02, version, |v|))
      && ReadTlv(body, |v|) == Some((0x30, imprints, |v| + |m|))
      && (nonce.Some? ==> ReadTlv(body, |v| + |m|) == Some((0x02, nonce.value, |v| + |m| + |n|)))
      && ReadTlv(body, |v| + |m| + |n|) == Some((0x01, flag, |body|))
      && |body| < 0x2000
  {
    hide *;
    var v, m, f := Header(0x02, version), Header(0x30, imprints), Header(0x01, flag);
    var n := if nonce.None? then [] else Header(0x02, nonce.value);
    var body := v + m + n + f;
    HeaderLength(0x02, version);
    HeaderLength(0x30, imprints);
    HeaderLength(0x01, flag);
    assert body == v + (m + n + f) == v + m + (n + f) == (v + m) + n + f == (v + m + n) + f + [];
    FrontTlv(0x02, version, m + n + f);
    InnerTlv(v, 0x30, imprints, n + f);
    if nonce.Some? {
      HeaderLength(0x02, nonce.value);
      InnerTlv(v + m, 0x02, nonce.value, f);
    }
    InnerTlv(v + m + n, 0x01, flag, []);
  }

  lemma WholeTlv(tag: Byte, content: Bytes)
    requires |content| < 0x100_0000
    ensures ReadTlv(Header(tag, content), 0) == Some((tag, content, |Header(tag, content)|))
  {
    hide *;
    FrontTlv(tag, content, []);
    assert Header(tag, content) + [] == Header(tag, content);
  }

  lemma WrittenReadsBack(oidBody: Bytes, oid: seq<int>, digest: Bytes, nonce: Option<Bytes>)
    requires |oidBody| <= 32 && DecodeOid(oidBody) == Some(oid) && |digest| <= 64
    requires nonce.Some? ==> |nonce.value| <= 8
    ensures Recovers(Header(0x30, RequestBody(oidBody, digest, nonce)), oid, digest, nonce)
  {
    hide Header, ReadTlv, DecodeOid, RecoversImprint, Imprint, IntegerBody, FromBe, DecodeInteger;
    var imprint := Imprint(oidBody, digest);
    ImprintReadsBack(oidBody, oid, digest);
    SmallIntegers(nonce);
    HeaderLength(0x30, imprint);
    FieldsReadBack(IntegerBody(1), Header(0x30, imprint),
                   if nonce.None? then None else Some(IntegerBody(FromBe(nonce.value))), [0]);
    WholeTlv(0x30, imprint);
    WholeTlv(0x30, RequestBody(oidBody, digest, nonce));
  }

  /** Main result: a request that is built reads back as written, with nothing left over. */
  lemma RequestReadsBack(digest: Bytes, name: string, nonce: Option<Bytes>)
    requires BuildRequest(digest, name, nonce).Some?
    ensures Recovers(BuildRequest(digest, name, nonce).value, HashOid(name).value, digest, nonce)
  {
    HashOidBody(name);
    hide Header, RequestBody, DecodeOid, HashOid, OidBody, Recovers;
    WrittenReadsBack(OidBody(HashOid(name).value).value, HashOid(name).value, digest, nonce);
  }

  // ---- Constants and forms, against the standards ----

  /** Main result: the short form up to 127, else the number of octets and the octets, none of them wasted (section 8.1.3 of ITU-T X.690). */
  lemma LengthForms(n: nat)
    ensures n < 128 ==> Length(n) == [n]
    ensures n >= 128 && n < Pow256(127) ==>
      var octets := Length(n)[1..];
      Length(n)[0] == 128 + |octets| && 0 < |octets| <= 127 && octets[0] != 0 && FromBe(octets) == n
  {
    hide Pow256, FromBe;
    if n >= 128 && n < Pow256(127) {
      LengthFits(n);
      OctetsValue(n);
      assert ([WithHighBit(|Octets(n)|)] + Octets(n))[1..] == Octets(n);
    }
  }

  /** The identifiers of the four hashes, from the registries that define them, and no others. */
  lemma HashIdentifiers(name: string)
    ensures HashOid("sha256") == Some([2, 16, 840, 1, 101, 3, 4, 2, 1])
    ensures HashOid("sha384") == Some([2, 16, 840, 1, 101, 3, 4, 2, 2])
    ensures HashOid("sha512") == Some([2, 16, 840, 1, 101, 3, 4, 2, 3])
    ensures HashOid("sha1") == Some([1, 3, 14, 3, 2, 26])
    ensures HashOid(name).Some? <==> name == "sha256" || name == "sha384" || name == "sha512" || name == "sha1"
  {
  }

  lemma SmallArc(n: nat)
    requires n < 128
    ensures Arc(n) == [n]
  {
    assert n / 128 == 0 && n % 128 == n;
  }

  lemma TwoDigitArc(n: nat)
    requires 128 <= n < 16384
    ensures Arc(n) == [n / 128 + 128, n % 128]
  {
    assert n / 128 / 128 == 0 && n / 128 % 128 == n / 128;
    assert Leading(n / 128) == Leading(0) + [n / 128 + 128];
  }

  lemma ForwardStep(first: int, rest: seq<int>)
    requires first >= 0 && forall k :: 0 <= k < |rest| ==> rest[k] >= 0
    ensures ArcsForward([first] + rest) == Arc(first) + ArcsForward(rest)
  {
    hide Arc;
    assert ([first] + rest)[1..] == rest;
  }

  /** Arcs below 128 are their own octets. */
  lemma {:induction false} ForwardChain(arcs: seq<int>)
    requires forall k :: 0 <= k < |arcs| ==> 0 <= arcs[k] < 128
    ensures |ArcsForward(arcs)| == |arcs| && forall k :: 0 <= k < |arcs| ==> ArcsForward(arcs)[k] == arcs[k]
  {
    hide Arc;
    if arcs == [] {
    } else {
      SmallArc(arcs[0]);
      ForwardChain(arcs[1..]);
    }
  }

  /** The content octets of SHA-256's identifier: 60 86 48 01 65 03 04 02 01. */
  lemma Sha256Octets()
    ensures HashOid("sha256").Some?
    ensures OidBody(HashOid("sha256").value) == Some([0x60, 0x86, 0x48, 0x01, 0x65, 0x03, 0x04, 0x02, 0x01])
  {
    hide Arc, ArcsBody, ArcsForward;
    var tail: seq<int> := [840, 1, 101, 3, 4, 2, 1];
    assert [2, 16, 840, 1, 101, 3, 4, 2, 1][2..] == tail;
    ArcsBodyIsForward(tail);
    TwoDigitArc(840);
    ForwardChain([1, 101, 3, 4, 2, 1]);
    ForwardStep(840, [1, 101, 3, 4, 2, 1]);
    assert [840] + [1, 101, 3, 4, 2, 1] == tail;
    var small: Bytes := [1, 101, 3, 4, 2, 1];
    assert ArcsForward([1, 101, 3, 4, 2, 1]) == small;
    assert [0x60] + ([134, 72] + small) == [0x60, 0x86, 0x48, 0x01, 0x65, 0x03, 0x04, 0x02, 0x01];
  }

  /** Main result: exactly when a request is built. */
  lemma BuildsIff(digest: Bytes, name: string, nonce: Option<Bytes>)
    ensures BuildRequest(digest, name, nonce).Some? <==>
      && (|digest| == 20 || |digest| == 32 || |digest| == 48 || |digest| == 64)
      && (name == "sha256" || name == "sha384" || name == "sha512" || name == "sha1")
      && (nonce.Some? ==> |nonce.value| <= 8)
  {
    HashIdentifiers(name);
    if HashOid(name).Some? { HashOidBody(name); }
    hide HashOid, OidBody, RequestBody, Header, DecodeOid;
  }

  // ---- What the reader accepts and refuses ----

  lemma FramedReads(data: Bytes, pos: nat, k: nat, content: Bytes)
    requires 1 <= k <= 127 && pos + 2 + k + |content| <= |data| && data[pos + 1] == 128 + k
    requires FromBe(data[pos + 2..pos + 2 + k]) == |content|
    requires data[pos + 2 + k..pos + 2 + k + |content|] == content
    ensures ReadTlv(data, pos) == Some((data[pos], content, pos + 2 + k + |content|))
  {
    hide FromBe;
  }

  /** Any definite long form is read, whether its length octets are the fewest or not. */
  lemma LongFormReads(data: Bytes, pos: nat, tag: Byte, octets: Bytes, content: Bytes)
    requires 1 <= |octets| <= 127 && FromBe(octets) == |content|
    requires Holds(data, pos, [tag, 128 + |octets|] + octets + content)
    ensures ReadTlv(data, pos) == Some((tag, content, pos + 2 + |octets| + |content|))
  {
    hide FromBe, Holds, ReadTlv;
    var front: Bytes := [tag, 128 + |octets|];
    HoldsSplit(data, pos, front + octets, content);
    HoldsSplit(data, pos, front, octets);
    HoldsSlice(data, pos, front);
    HoldsSlice(data, pos + 2, octets);
    HoldsSlice(data, pos + 2 + |octets|, content);
    assert data[pos] == data[pos..pos + 2][0] && data[pos + 1] == data[pos..pos + 2][1];
    FramedReads(data, pos, |octets|, content);
  }

  /** Main result: a value read is framed by its length, in short or long form, and the indefinite form is refused. */
  lemma ReadMeansFramed(data: Bytes, pos: nat)
    requires ReadTlv(data, pos).Some?
    ensures var (tag, content, end) := ReadTlv(data, pos).value;
      var first := data[pos + 1];
      && tag == data[pos] && first != 0x80 && end <= |data|
      && (first < 0x80 ==> |content| == first && end == pos + 2 + |content|)
      && (first > 0x80 ==>
            && end == pos + 2 + (first - 0x80) + |content|
            && |content| == FromBe(data[pos + 2..pos + 2 + (first - 0x80)]))
      && content == data[end - |content|..end]
  {
    hide FromBe;
  }

  lemma TlvStable(data: Bytes, more: Bytes)
    requires ReadTlv(data, 0).Some?
    ensures ReadTlv(data + more, 0) == ReadTlv(data, 0)
  {
    hide FromBe;
    var whole := data + more;
    assert whole[0] == data[0] && whole[1] == data[1];
    var width := if data[1] < 0x80 then 0 else data[1] - 0x80;
    assert whole[2..2 + width] == data[2..2 + width];
    var (tag, content, end) := ReadTlv(data, 0).value;
    assert whole[end - |content|..end] == data[end - |content|..end];
  }

  lemma HeldWhole(whole: Bytes)
    ensures Holds(whole, 0, whole)
  {
    assert whole[0..|whole|] == whole;
  }

  /** Main result: a value that is cut short is not read. */
  lemma TruncationIsRefused(tag: Byte, content: Bytes, k: nat)
    requires |content| < Pow256(127) && k < |Header(tag, content)|
    ensures ReadTlv(Header(tag, content)[..k], 0).None?
  {
    hide Pow256;
    var whole := Header(tag, content);
    HeldWhole(whole);
    TlvRoundTrip(whole, 0, tag, content);
    hide Header;
    assert whole[..k] + whole[k..] == whole;
    if ReadTlv(whole[..k], 0).Some? {
      TlvStable(whole[..k], whole[k..]);
    }
  }

  lemma {:induction false} ArcFailsIff(body: Bytes, i: nat, n: nat)
    requires i <= |body|
    ensures ReadArc(body, i, n).None? <==> forall k :: i <= k < |body| ==> body[k] >= 128
    decreases |body| - i
  {
    if i < |body| && body[i] >= 128 {
      ArcFailsIff(body, i + 1, n * 128 + body[i] % 128);
    }
  }

  /** The last octet of an arc has no continuation bit. */
  lemma {:induction false} ArcEndsLow(body: Bytes, i: nat, n: nat)
    requires ReadArc(body, i, n).Some?
    ensures body[ReadArc(body, i, n).value.1 - 1] < 128
    decreases |body| - i
  {
    if body[i] >= 128 {
      ArcEndsLow(body, i + 1, n * 128 + body[i] % 128);
    }
  }

  lemma {:induction false} ArcsFailIff(body: Bytes, i: nat)
    requires i <= |body|
    ensures ReadArcs(body, i).None? <==> i < |body| && body[|body| - 1] >= 128
    decreases |body| - i
  {
    if i < |body| {
      ArcFailsIff(body, i, 0);
      if ReadArc(body, i, 0).Some? {
        ArcsFailIff(body, ReadArc(body, i, 0).value.1);
        ArcEndsLow(body, i, 0);
      }
    }
  }

  /** Main result: an identifier fails to decode exactly when it is empty or its last arc is cut off. */
  lemma DecodeOidFailsIff(content: Bytes)
    ensures DecodeOid(content).None? <==> content == [] || (|content| > 1 && content[|content| - 1] >= 128)
  {
    if content != [] { ArcsFailIff(content, 1); }
  }
}
