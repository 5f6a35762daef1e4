/** The Luhn check behind card detection (dontlie/patterns.py). */
module Luhn {
  import opened Prelude

  type Digit = d: int | 0 <= d <= 9

  /** str.isdigit and int on one character; superscripts are digits that int refuses. */
  datatype Characters = Characters(isDigit: char -> bool, toInt: char -> Option<Digit>)

  function AsciiDigit(d: Digit): (c: char)
    ensures c == "0123456789"[d]
  {
    '0' + d as char
  }

  ghost predicate ReadsAscii(u: Characters) {
    forall d: Digit :: u.isDigit(AsciiDigit(d)) && u.toInt(AsciiDigit(d)) == Some(d)
  }

  /** The digits of a text whose other characters are separators; None is ValueError. */
  function DigitsOf(u: Characters, card: string): Option<seq<Digit>> {
    if card == "" then Some([])
    else
      var rest := DigitsOf(u, card[1..]);
      if !u.isDigit(card[0]) then rest
      else if rest.None? || u.toInt(card[0]).None? then None
      else Some([u.toInt(card[0]).value] + rest.value)
  }

  /** What a digit adds at a given distance from the right end. */
  function Weight(d: Digit, fromRight: nat): nat {
    if fromRight % 2 == 1 then (if 2 * d > 9 then 2 * d - 9 else 2 * d) else d
  }

  function Total(ds: seq<Digit>): nat {
    if ds == [] then 0 else Weight(ds[0], |ds| - 1) + Total(ds[1..])
  }

  predicate Passes(ds: seq<Digit>) {
    13 <= |ds| <= 19 && Total(ds) % 10 == 0
  }

  method LuhnCheck(u: Characters, card: string) returns (ok: Option<bool>)
    ensures ok.None? <==> DigitsOf(u, card).None?
    ensures ok.Some? ==> (ok.value <==> Passes(DigitsOf(u, card).value))
  {
    if DigitsOf(u, card).None? {
      return None;
    }
    var digits := DigitsOf(u, card).value;
    if !(13 <= |digits| <= 19) {
      return Some(false);
    }
    var total: nat := 0;
    var i := 0;
    assert digits[|digits|..] == [];
    while i < |digits|
      invariant 0 <= i <= |digits|
      invariant total == Total(digits[|digits| - i..])
    {
      var at := |digits| - 1 - i;
      var d: int := digits[at];
      assert digits[at..][0] == d && digits[at..][1..] == digits[at + 1..];
      if i % 2 == 1 {
        d := 2 * d;
        if d > 9 { d := d - 9; }
      }
      total := total + d;
      i := i + 1;
    }
    assert digits[0..] == digits;
    return Some(total % 10 == 0);
  }

  /** The check raises exactly when some character is a digit that int refuses. */
  lemma {:induction false} RaisesIff(u: Characters, card: string)
    ensures DigitsOf(u, card).None? <==>
      exists i :: 0 <= i < |card| && u.isDigit(card[i]) && u.toInt(card[i]).None?
  {
    if card == "" {
    } else {
      RaisesIff(u, card[1..]);
      assert forall i :: 0 < i < |card| ==> card[i] == card[1..][i - 1];
    }
  }

  function Spelled(ds: seq<Digit>): (card: string)
    ensures |card| == |ds|
  {
    if ds == [] then "" else [AsciiDigit(ds[0])] + Spelled(ds[1..])
  }

  /** An ASCII digit string is read as its digits. */
  lemma {:induction false} SpelledReadsBack(u: Characters, ds: seq<Digit>)
    requires ReadsAscii(u)
    ensures DigitsOf(u, Spelled(ds)) == Some(ds)
  {
    if ds == [] {
    } else {
      SpelledReadsBack(u, ds[1..]);
      var first: Digit := ds[0];
      assert u.isDigit(AsciiDigit(first)) && u.toInt(AsciiDigit(first)) == Some(first);
      assert Spelled(ds)[0] == AsciiDigit(first) && Spelled(ds)[1..] == Spelled(ds[1..]);
      assert ds == [first] + ds[1..];
    }
  }

  lemma {:induction false} TotalUpdate(ds: seq<Digit>, k: nat, x: Digit)
    requires k < |ds|
    ensures Total(ds[k := x]) - Weight(x, |ds| - 1 - k) == Total(ds) - Weight(ds[k], |ds| - 1 - k)
  {
    if k == 0 {
      assert ds[k := x][1..] == ds[1..];
    } else {
      assert ds[k := x][1..] == ds[1..][k - 1 := x];
      TotalUpdate(ds[1..], k - 1, x);
    }
  }

  lemma WeightsDiffer(x: Digit, y: Digit, fromRight: nat)
    ensures Weight(x, fromRight) <= 9
    ensures (Weight(x, fromRight) - Weight(y, fromRight)) % 10 == 0 <==> x == y
  {
  }

  lemma PassingShift(before: int, after: int, shift: int)
    requires before % 10 == 0 && after == before + shift
    ensures after % 10 == 0 <==> shift % 10 == 0
  {
  }

  /** Main result: changing one digit of a passing number makes it fail. */
  lemma SingleErrorDetected(ds: seq<Digit>, k: nat, x: Digit)
    requires Passes(ds) && k < |ds| && x != ds[k]
    ensures !Passes(ds[k := x])
  {
    hide Weight, Total;
    var p := |ds| - 1 - k;
    TotalUpdate(ds, k, x);
    WeightsDiffer(x, ds[k], p);
    PassingShift(Total(ds), Total(ds[k := x]), Weight(x, p) - Weight(ds[k], p));
  }

  lemma SwappedWeights(a: Digit, b: Digit, fromRight: nat)
    requires a != b
    ensures (Weight(b, fromRight + 1) + Weight(a, fromRight) - Weight(a, fromRight + 1) - Weight(b, fromRight)) % 10 == 0
      <==> {a, b} == {0, 9}
  {
    assert {a, b} == {0, 9} <==> (a == 0 && b == 9) || (a == 9 && b == 0) by {
      if {a, b} == {0, 9} {
        assert a in {0, 9} && b in {0, 9};
      }
    }
  }

  /** Main result: swapping adjacent unequal digits goes unnoticed exactly for 0 and 9. */
  lemma TranspositionDetectedIff(ds: seq<Digit>, k: nat)
    requires Passes(ds) && k + 1 < |ds| && ds[k] != ds[k + 1]
    ensures Passes(ds[k := ds[k + 1]][k + 1 := ds[k]]) <==> {ds[k], ds[k + 1]} == {0, 9}
  {
    var once := ds[k := ds[k + 1]];
    TotalUpdate(ds, k, ds[k + 1]);
    TotalUpdate(once, k + 1, ds[k]);
    hide Weight, Total;
    var a, b, p := ds[k], ds[k + 1], |ds| - 2 - k;
    SwappedWeights(a, b, p);
    PassingShift(Total(ds), Total(once[k + 1 := a]),
                 Weight(b, p + 1) + Weight(a, p) - Weight(a, p + 1) - Weight(b, p));
  }

  function CheckDigit(prefix: seq<Digit>): Digit {
    (10 - Total(prefix + [0]) % 10) % 10
  }

  lemma LastWeight(d: Digit)
    ensures Weight(d, 0) == d
  {
  }

  lemma UniqueComplement(total: nat, d: Digit)
    ensures (total + d) % 10 == 0 <==> d == (10 - total % 10) % 10
  {
  }

  /** Main result: each prefix of accepted length has exactly one passing final digit. */
  lemma OneCheckDigit(prefix: seq<Digit>, d: Digit)
    requires 12 <= |prefix| <= 18
    ensures Passes(prefix + [d]) <==> d == CheckDigit(prefix)
  {
    var zero := prefix + [0];
    assert zero[|prefix| := d] == prefix + [d];
    TotalUpdate(zero, |prefix|, d);
    LastWeight(d);
    LastWeight(0);
    hide Total, Weight;
    UniqueComplement(Total(zero), d);
  }

  // ---- What is read and what is added ----

  /** Every second digit from the right counts as the decimal digit sum of its double, the others as themselves. */
  lemma WeightMeans(d: Digit, fromRight: nat)
    ensures fromRight % 2 == 0 ==> Weight(d, fromRight) == d
    ensures fromRight % 2 == 1 ==> Weight(d, fromRight) == 2 * d / 10 + 2 * d % 10
  {
  }

  lemma {:induction false} ZerosWeighNothing(n: nat)
    ensures Total(seq(n, _ => 0)) == 0
  {
    if n == 0 {
    } else {
      ZerosWeighNothing(n - 1);
      var zeros: seq<Digit> := seq(n, _ => 0);
      assert zeros[1..] == seq(n - 1, _ => 0);
    }
  }

  /** Main result: 13 to 19 digits are accepted, no fewer and no more. */
  lemma AcceptedLengths(n: nat)
    ensures Passes(seq(n, _ => 0)) <==> 13 <= n <= 19
    ensures forall ds: seq<Digit> :: Passes(ds) ==> 13 <= |ds| <= 19
  {
    ZerosWeighNothing(n);
  }

  /** Main result: a text is read piece by piece. */
  lemma {:induction false} DigitsOfConcat(u: Characters, a: string, b: string)
    ensures DigitsOf(u, a + b) ==
      if DigitsOf(u, a).None? || DigitsOf(u, b).None? then None
      else Some(DigitsOf(u, a).value + DigitsOf(u, b).value)
  {
    if a == "" {
      assert a + b == b;
      assert DigitsOf(u, b).Some? ==> [] + DigitsOf(u, b).value == DigitsOf(u, b).value;
    } else {
      DigitsOfConcat(u, a[1..], b);
      assert (a + b)[1..] == a[1..] + b && (a + b)[0] == a[0];
      var x, y, z := u.toInt(a[0]), DigitsOf(u, a[1..]), DigitsOf(u, b);
      if x.Some? && y.Some? && z.Some? {
        assert [x.value] + (y.value + z.value) == ([x.value] + y.value) + z.value;
      }
    }
  }

  lemma {:induction false} NoDigits(u: Characters, separator: string)
    requires forall i :: 0 <= i < |separator| ==> !u.isDigit(separator[i])
    ensures DigitsOf(u, separator) == Some([])
  {
    if separator == "" {
    } else {
      NoDigits(u, separator[1..]);
    }
  }

  /** Main result: characters that are no digits, wherever they stand, change nothing. */
  lemma SeparatorsAreSkipped(u: Characters, a: string, separator: string, b: string)
    requires forall i :: 0 <= i < |separator| ==> !u.isDigit(separator[i])
    ensures DigitsOf(u, a + separator + b) == DigitsOf(u, a + b)
  {
    hide DigitsOf;
    NoDigits(u, separator);
    DigitsOfConcat(u, a, separator);
    DigitsOfConcat(u, a + separator, b);
    DigitsOfConcat(u, a, b);
    assert DigitsOf(u, a).Some? ==> DigitsOf(u, a).value + [] == DigitsOf(u, a).value;
  }
}
