/** Unpadded base64url as scitt.py builds it from the padded standard codec (section 5 of RFC 4648). */
module Base64 {
  import opened Prelude

  function ValueOf(c: char): (n: Option<nat>)
    ensures n.Some? ==> n.value < 64
  {
    if 'A' <= c <= 'Z' then Some(c as int - 'A' as int)
    else if 'a' <= c <= 'z' then Some(c as int - 'a' as int + 26)
    else if '0' <= c <= '9' then Some(c as int - '0' as int + 52)
    else if c == '-' then Some(62)
    else if c == '_' then Some(63)
    else None
  }

  function Symbol(n: nat): (c: char)
    requires n < 64
    ensures c != '=' && ValueOf(c) == Some(n)
  {
    if n < 26 then 'A' + n as char
    else if n < 52 then 'a' + (n - 26) as char
    else if n < 62 then '0' + (n - 52) as char
    else if n == 62 then '-' else '_'
  }

  /** The padded encoder: four symbols for three bytes. */
  function Padded(data: Bytes): string {
    if data == [] then ""
    else if |data| == 1 then [Symbol(data[0] / 4), Symbol(data[0] % 4 * 16), '=', '=']
    else if |data| == 2 then
      [Symbol(data[0] / 4), Symbol(data[0] % 4 * 16 + data[1] / 16), Symbol(data[1] % 16 * 4), '=']
    else
      [Symbol(data[0] / 4), Symbol(data[0] % 4 * 16 + data[1] / 16),
       Symbol(data[1] % 16 * 4 + data[2] / 64), Symbol(data[2] % 64)] + Padded(data[3..])
  }

  function Group(a: nat, b: nat, c: nat, d: nat): Bytes
    requires a < 64 && b < 64 && c < 64 && d < 64
  {
    [a * 4 + b / 16, b % 16 * 16 + c / 4, c % 4 * 64 + d]
  }

  /** The padded decoder on texts over the alphabet; None for a bad length or symbol. */
  function Unpadded(text: string): Option<Bytes> {
    if text == "" then Some([])
    else if |text| < 4 then None
    else
      var a, b, c, d := ValueOf(text[0]), ValueOf(text[1]), ValueOf(text[2]), ValueOf(text[3]);
      if a.None? || b.None? then None
      else if text[2..] == "==" then Some(Group(a.value, b.value, 0, 0)[..1])
      else if c.None? then None
      else if text[3..] == "=" then Some(Group(a.value, b.value, c.value, 0)[..2])
      else if d.None? then None
      else
        var rest := Unpadded(text[4..]);
        if rest.None? then None else Some(Group(a.value, b.value, c.value, d.value) + rest.value)
  }

  function StripPadding(text: string): string {
    if text != "" && text[|text| - 1] == '=' then StripPadding(text[..|text| - 1]) else text
  }

  function Repeat(c: char, n: nat): (s: string)
    ensures |s| == n
  {
    if n == 0 then "" else Repeat(c, n - 1) + [c]
  }

  /** '=' * (-length % 4). */
  function Signs(length: nat): string {
    Repeat('=', (4 - length % 4) % 4)
  }

  lemma SignsPeriod(n: nat)
    ensures Signs(4 + n) == Signs(n)
  {
    hide Repeat;
    assert (4 + n) % 4 == n % 4;
  }

  lemma ThreeSigns()
    ensures Signs(0) == "" && Signs(2) == "==" && Signs(3) == "="
  {
    assert Repeat('=', 0) == "" && Repeat('=', 1) == "=" && Repeat('=', 2) == "==";
  }

  lemma SignsByLength()
    ensures Signs(0) == "" && Signs(2) == "==" && Signs(3) == "="
    ensures forall n: nat {:trigger Signs(4 + n)} :: Signs(4 + n) == Signs(n)
  {
    ThreeSigns();
    hide Signs;
    forall n: nat {:trigger Signs(4 + n)} ensures Signs(4 + n) == Signs(n) {
      SignsPeriod(n);
    }
  }

  /** _b64u_encode. */
  function EncodeUrl(data: Bytes): string {
    StripPadding(Padded(data))
  }

  /** _b64u_decode: `-len(text) % 4` signs are put back before decoding. */
  function DecodeUrl(text: string): Option<Bytes> {
    Unpadded(text + Signs(|text|))
  }

  lemma GroupRestores(a: Byte, b: Byte, c: Byte)
    ensures Group(a / 4, a % 4 * 16 + b / 16, b % 16 * 4 + c / 64, c % 64) == [a, b, c]
  {
  }

  lemma ShortGroups(a: Byte, b: Byte)
    ensures Group(a / 4, a % 4 * 16, 0, 0)[..1] == [a]
    ensures Group(a / 4, a % 4 * 16 + b / 16, b % 16 * 4, 0)[..2] == [a, b]
  {
    var q, r := a / 4, a % 4;
    assert a == 4 * q + r && r * 16 / 16 == r;
    assert b == 16 * (b / 16) + b % 16 && (r * 16 + b / 16) / 16 == r && (r * 16 + b / 16) % 16 == b / 16;
  }

  lemma PaddedGroups(a: nat, b: nat, c: nat)
    requires a < 64 && b < 64 && c < 64
    ensures Unpadded([Symbol(a), Symbol(b), '=', '=']) == Some(Group(a, b, 0, 0)[..1])
    ensures Unpadded([Symbol(a), Symbol(b), Symbol(c), '=']) == Some(Group(a, b, c, 0)[..2])
  {
    hide Symbol, ValueOf, Group;
    var one, two := [Symbol(a), Symbol(b), '=', '='], [Symbol(a), Symbol(b), Symbol(c), '='];
    assert one[2..] == "==" && two[3..] == "=";
    assert two[2..][0] == two[2];
  }

  lemma OneByteRoundTrip(a: Byte)
    ensures Unpadded(Padded([a])) == Some([a])
  {
    hide Symbol, Unpadded, Group;
    ShortGroups(a, 0);
    PaddedGroups(a / 4, a % 4 * 16, 0);
  }

  lemma TwoBytesRoundTrip(a: Byte, b: Byte)
    ensures Unpadded(Padded([a, b])) == Some([a, b])
  {
    hide Symbol, Unpadded, Group;
    ShortGroups(a, b);
    PaddedGroups(a / 4, a % 4 * 16 + b / 16, b % 16 * 4);
  }

  lemma NothingToDecode()
    ensures Unpadded(Padded([])) == Some([])
  {
  }

  lemma ShortRoundTrip(data: Bytes)
    requires |data| < 3
    ensures Unpadded(Padded(data)) == Some(data)
  {
    hide Unpadded, Padded;
    if |data| == 1 {
      OneByteRoundTrip(data[0]);
      assert data == [data[0]];
    } else if |data| == 2 {
      TwoBytesRoundTrip(data[0], data[1]);
      assert data == [data[0], data[1]];
    } else {
      NothingToDecode();
    }
  }

  lemma FullGroup(a: nat, b: nat, c: nat, d: nat, tail: string)
    requires a < 64 && b < 64 && c < 64 && d < 64
    ensures var rest := Unpadded(tail);
      Unpadded([Symbol(a), Symbol(b), Symbol(c), Symbol(d)] + tail)
      == if rest.None? then None else Some(Group(a, b, c, d) + rest.value)
  {
    hide Symbol, ValueOf, Group;
    var text := [Symbol(a), Symbol(b), Symbol(c), Symbol(d)] + tail;
    assert text[4..] == tail;
    assert text[2..][0] == text[2] && text[3..][0] == text[3];
  }

  lemma {:induction false} PaddedRoundTrip(data: Bytes)
    ensures Unpadded(Padded(data)) == Some(data)
  {
    if |data| < 3 {
      ShortRoundTrip(data);
    } else {
      hide Symbol, Unpadded, Group;
      var a, b, c := data[0], data[1], data[2];
      PaddedRoundTrip(data[3..]);
      FullGroup(a / 4, a % 4 * 16 + b / 16, b % 16 * 4 + c / 64, c % 64, Padded(data[3..]));
      GroupRestores(a, b, c);
      assert data == [a, b, c] + data[3..];
    }
  }

  lemma {:induction false} StripAll(n: nat)
    ensures StripPadding(Repeat('=', n)) == ""
  {
    if n == 0 {
    } else {
      assert Repeat('=', n)[..n - 1] == Repeat('=', n - 1);
      StripAll(n - 1);
    }
  }

  lemma {:induction false} StripBehind(front: string, back: string)
    requires front != "" && front[|front| - 1] != '='
    ensures StripPadding(front + back) == front + StripPadding(back)
  {
    if back == "" {
      assert front + back == front;
    } else {
      assert (front + back)[..|front + back| - 1] == front + back[..|back| - 1];
      StripBehind(front, back[..|back| - 1]);
    }
  }

  /** The padding that is stripped is the padding the text's length calls for. */
  lemma StripSigns(core: string, n: nat)
    requires core != "" && core[|core| - 1] != '='
    ensures StripPadding(core + Repeat('=', n)) == core
  {
    StripBehind(core, Repeat('=', n));
    StripAll(n);
    assert core + "" == core;
  }

  /** How many symbols and how many signs an encoding has. */
  lemma {:induction false} PaddedShape(data: Bytes) returns (core: string)
    ensures Padded(data) == core + Signs(|core|)
    ensures core != "" ==> core[|core| - 1] != '='
    ensures core == "" <==> data == []
  {
    hide Symbol, Signs;
    SignsByLength();
    var text := Padded(data);
    if data == [] {
      core := "";
    } else if |data| == 1 {
      core := text[..2];
      assert text == core + "==";
    } else if |data| == 2 {
      core := text[..3];
      assert text == core + "=";
    } else {
      var rest := PaddedShape(data[3..]);
      assert text[4..] == Padded(data[3..]);
      hide Padded;
      core := text[..4] + rest;
      assert Signs(|core|) == Signs(4 + |rest|) == Signs(|rest|);
      assert text == text[..4] + text[4..];
    }
  }

  lemma StripThenPad(data: Bytes)
    ensures var core := StripPadding(Padded(data));
      core + Signs(|core|) == Padded(data)
  {
    hide Padded;
    var core := PaddedShape(data);
    if data == [] {
      SignsByLength();
    } else {
      StripSigns(core, (4 - |core| % 4) % 4);
    }
  }

  /** Main result: every byte string survives unpadded base64url. */
  lemma UrlRoundTrip(data: Bytes)
    ensures DecodeUrl(EncodeUrl(data)) == Some(data)
  {
    hide Padded, Unpadded, StripPadding;
    StripThenPad(data);
    PaddedRoundTrip(data);
  }

  lemma SomeSymbols()
    ensures Symbol(25) == 'Z' && Symbol(32) == 'g' && Symbol(38) == 'm' && Symbol(60) == '8' && Symbol(61) == '9'
    ensures Symbol(47) == 'v' && Symbol(62) == '-' && Symbol(63) == '_'
  {
  }

  lemma ShortGroupOf(a: Byte, b: Byte)
    ensures Padded([a]) == [Symbol(a / 4), Symbol(a % 4 * 16), '=', '=']
    ensures Padded([a, b]) == [Symbol(a / 4), Symbol(a % 4 * 16 + b / 16), Symbol(b % 16 * 4), '=']
  {
    hide Symbol;
  }

  lemma OneGroup(a: Byte, b: Byte, c: Byte)
    ensures Padded([a, b, c]) == [Symbol(a / 4), Symbol(a % 4 * 16 + b / 16), Symbol(b % 16 * 4 + c / 64), Symbol(c % 64)]
  {
    hide Symbol;
    var data: Bytes := [a, b, c];
    assert data[3..] == [];
  }

  /** Examples of section 10 of RFC 4648, and the two symbols of the URL-safe alphabet (section 5). */
  lemma KnownEncodings()
    ensures Padded([102]) == "Zg==" && Padded([102, 111]) == "Zm8=" && Padded([102, 111, 111]) == "Zm9v"
    ensures Padded([0xFB, 0xFF, 0xBF]) == "-_-_"
  {
    hide Padded, Symbol;
    SomeSymbols();
    OneGroup(102, 111, 111);
    OneGroup(0xFB, 0xFF, 0xBF);
    ShortGroupOf(102, 111);
  }
}
