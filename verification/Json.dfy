/** JSON documents as Python values: what json.loads returns and json.dumps accepts. */
module Json {
  import opened Prelude

  datatype Binary = Binary(num: int, scale: nat)

  /** num / 2^scale in lowest terms: the finite floats, and one zero. */
  type Dyadic = f: Binary | f.scale > 0 ==> f.num % 2 == 1 witness Binary(0, 0)

  lemma Pow2Doubles(k: nat)
    ensures Pow2(k + 1) == 2 * Pow2(k)
  {
  }

  lemma Rearranged(a: int, p: int, q: int)
    ensures a * (p * (2 * q)) == (2 * (a * q)) * p
  {
    var pq := p * q;
    assert p * (2 * q) == 2 * pq;
    assert a * (2 * pq) == 2 * (a * pq);
    assert a * pq == (a * q) * p;
  }

  lemma Pow2Cancels(a: int, b: int, k: nat)
    requires a * Pow2(k) == b * Pow2(k)
    ensures a == b
  {
    var p := Pow2(k);
    hide Pow2;
    assert (a - b) * p == 0;
  }

  lemma {:induction false} Pow2Adds(j: nat, k: nat)
    ensures Pow2(j + k) == Pow2(j) * Pow2(k)
  {
    if k == 0 {
    } else {
      Pow2Adds(j, k - 1);
    }
  }

  lemma EvenNumerator(a: int, b: int, j: nat, k: nat)
    requires a * Pow2(j + k + 1) == b * Pow2(j)
    ensures b % 2 == 0
  {
    Pow2Adds(j, k + 1);
    Pow2Doubles(k);
    hide Pow2;
    Rearranged(a, Pow2(j), Pow2(k));
    Pow2Cancels(2 * (a * Pow2(k)), b, j);
  }

  lemma LowestTerms(x: Dyadic, y: Dyadic)
    requires x.scale < y.scale
    ensures x.num * Pow2(y.scale) != y.num * Pow2(x.scale)
  {
    if x.num * Pow2(y.scale) == y.num * Pow2(x.scale) {
      EvenNumerator(x.num, y.num, x.scale, y.scale - x.scale - 1);
    }
  }

  /** Different floats denote different numbers. */
  lemma OneFloatPerNumber(x: Dyadic, y: Dyadic)
    requires x.num * Pow2(y.scale) == y.num * Pow2(x.scale)
    ensures x == y
  {
    if x.scale < y.scale {
      LowestTerms(x, y);
    } else if y.scale < x.scale {
      LowestTerms(y, x);
    } else {
      Pow2Cancels(x.num, y.num, x.scale);
    }
  }

  /** An object is a dict with text keys. */
  datatype Json =
    | Null
    | Bool(b: bool)
    | Int(n: int)
    | Float(f: Dyadic)
    | Str(s: string)
    | Arr(items: seq<Json>)
    | Obj(fields: map<string, Json>)

  type Fields = map<string, Json>

  /** dict.get(key): a missing key and a null value read alike. */
  function Get(fields: Fields, key: string): Json {
    if key in fields then fields[key] else Null
  }

  function StrArr(texts: seq<string>): Json {
    Arr(seq(|texts|, i requires 0 <= i < |texts| => Str(texts[i])))
  }

  predicate IsStrArr(j: Json) {
    j.Arr? && forall i :: 0 <= i < |j.items| ==> j.items[i].Str?
  }

  function Texts(j: Json): (texts: seq<string>)
    requires IsStrArr(j)
    ensures |texts| == |j.items|
    ensures forall i :: 0 <= i < |texts| ==> j.items[i] == Str(texts[i])
  {
    seq(|j.items|, i requires 0 <= i < |j.items| => j.items[i].s)
  }

  function OptStr(text: Option<string>): Json {
    match text
    case None => Null
    case Some(t) => Str(t)
  }
}
