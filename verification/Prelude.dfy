/** Shared vocabulary: options, bytes, a stable sort and big-endian numbers. */
module Prelude {
  datatype Option<+T> = None | Some(value: T)

  type Byte = b: int | 0 <= b < 256
  type Bytes = seq<Byte>

  // ---- A stable sort by a comparison, as Python's sorted and list.sort ----

  function Insert<T>(le: (T, T) -> bool, x: T, s: seq<T>): seq<T> {
    if s == [] || le(x, s[0]) then [x] + s else [s[0]] + Insert(le, x, s[1..])
  }

  function Sort<T>(le: (T, T) -> bool, s: seq<T>): seq<T> {
    if s == [] then [] else Insert(le, s[0], Sort(le, s[1..]))
  }

  ghost predicate Sorted<T>(le: (T, T) -> bool, s: seq<T>) {
    forall i, j :: 0 <= i < j < |s| ==> le(s[i], s[j])
  }

  ghost predicate TotalPreorder<T(!new)>(le: (T, T) -> bool) {
    && (forall x, y :: le(x, y) || le(y, x))
    && (forall x, y, z :: le(x, y) && le(y, z) ==> le(x, z))
  }

  lemma {:induction false} InsertPermutes<T>(le: (T, T) -> bool, x: T, s: seq<T>)
    ensures multiset(Insert(le, x, s)) == multiset(s) + multiset{x}
  {
    if s != [] && !le(x, s[0]) {
      InsertPermutes(le, x, s[1..]);
      assert s == [s[0]] + s[1..];
    }
  }

  lemma SameElements<T>(s: seq<T>, t: seq<T>)
    requires multiset(s) == multiset(t)
    ensures |s| == |t| && forall x :: x in s <==> x in t
  {
    assert |multiset(s)| == |multiset(t)|;
    forall x ensures x in s <==> x in t {
      assert x in s <==> x in multiset(s);
      assert x in t <==> x in multiset(t);
    }
  }

  lemma {:induction false} SortPermutes<T>(le: (T, T) -> bool, s: seq<T>)
    ensures multiset(Sort(le, s)) == multiset(s)
    ensures |Sort(le, s)| == |s|
    ensures forall x :: x in Sort(le, s) <==> x in s
  {
    if s == [] {
    } else {
      SortPermutes(le, s[1..]);
      InsertPermutes(le, s[0], Sort(le, s[1..]));
      assert s == [s[0]] + s[1..];
    }
    SameElements(Sort(le, s), s);
  }

  lemma {:induction false} InsertKeepsSorted<T(!new)>(le: (T, T) -> bool, x: T, s: seq<T>)
    requires TotalPreorder(le) && Sorted(le, s)
    ensures Sorted(le, Insert(le, x, s))
  {
    if s == [] {
    } else if le(x, s[0]) {
      forall j | 0 <= j < |s| ensures le(x, s[j]) {
        assert j == 0 || le(s[0], s[j]);
      }
    } else {
      InsertKeepsSorted(le, x, s[1..]);
      InsertPermutes(le, x, s[1..]);
      var t := Insert(le, x, s[1..]);
      forall j | 0 <= j < |t| ensures le(s[0], t[j]) {
        assert t[j] in multiset(t);
        assert t[j] == x || t[j] in s[1..];
      }
    }
  }

  lemma {:induction false} SortSorts<T(!new)>(le: (T, T) -> bool, s: seq<T>)
    requires TotalPreorder(le)
    ensures Sorted(le, Sort(le, s))
  {
    if s == [] {
    } else {
      SortSorts(le, s[1..]);
      InsertKeepsSorted(le, s[0], Sort(le, s[1..]));
    }
  }

  lemma {:induction false} SortOfSorted<T>(le: (T, T) -> bool, s: seq<T>)
    requires Sorted(le, s)
    ensures Sort(le, s) == s
  {
    if s == [] {
    } else {
      SortOfSorted(le, s[1..]);
      assert |s| > 1 ==> le(s[0], s[1]);
    }
  }

  ghost predicate Pairwise<T>(rel: (T, T) -> bool, s: seq<T>) {
    forall i, j :: 0 <= i < j < |s| ==> rel(s[i], s[j])
  }

  lemma {:induction false} InsertKeepsPairwise<T>(
    rel: (T, T) -> bool, le: (T, T) -> bool, x: T, s: seq<T>)
    requires Pairwise(rel, s)
    requires forall y :: y in s ==> rel(x, y) && rel(y, x)
    ensures Pairwise(rel, Insert(le, x, s))
  {
    if s != [] && !le(x, s[0]) {
      InsertKeepsPairwise(rel, le, x, s[1..]);
      InsertPermutes(le, x, s[1..]);
      var t := Insert(le, x, s[1..]);
      forall j | 0 <= j < |t| ensures rel(s[0], t[j]) {
        assert t[j] in multiset(t);
        assert t[j] == x || t[j] in s[1..];
      }
    }
  }

  /** What holds between any two elements, in both orders, survives sorting. */
  lemma {:induction false} SortKeepsPairwise<T>(
    rel: (T, T) -> bool, le: (T, T) -> bool, s: seq<T>)
    requires Pairwise(rel, s)
    requires forall x, y :: x in s && y in s && rel(x, y) ==> rel(y, x)
    ensures Pairwise(rel, Sort(le, s))
  {
    if s == [] {
    } else {
      SortKeepsPairwise(rel, le, s[1..]);
      SortPermutes(le, s[1..]);
      var tail, sorted := s[1..], Sort(le, s[1..]);
      forall y | y in sorted ensures rel(s[0], y) && rel(y, s[0]) {
        assert y in multiset(sorted) && multiset(sorted) == multiset(tail);
        var j :| 0 <= j < |tail| && tail[j] == y;
        assert s[j + 1] == y && s[0] in s;
      }
      InsertKeepsPairwise(rel, le, s[0], sorted);
    }
  }

  function Map<T, U>(f: T -> U, s: seq<T>): (r: seq<U>)
    ensures |r| == |s|
    ensures forall i :: 0 <= i < |s| ==> r[i] == f(s[i])
  {
    seq(|s|, i requires 0 <= i < |s| => f(s[i]))
  }

  lemma {:induction false} InsertCommutesWithMap<T, U>(
    f: T -> U, le: (T, T) -> bool, le': (U, U) -> bool, x: T, s: seq<T>)
    requires forall a, b :: (a == x || a in s) && (b == x || b in s) ==> le(a, b) == le'(f(a), f(b))
    ensures Map(f, Insert(le, x, s)) == Insert(le', f(x), Map(f, s))
  {
    if s != [] && !le(x, s[0]) {
      InsertCommutesWithMap(f, le, le', x, s[1..]);
      assert Map(f, s)[1..] == Map(f, s[1..]);
    }
  }

  /** Sorting after mapping is mapping after sorting, when the map respects the order. */
  lemma {:induction false} SortCommutesWithMap<T, U>(
    f: T -> U, le: (T, T) -> bool, le': (U, U) -> bool, s: seq<T>)
    requires forall a, b :: a in s && b in s ==> le(a, b) == le'(f(a), f(b))
    ensures Map(f, Sort(le, s)) == Sort(le', Map(f, s))
  {
    if s == [] {
    } else {
      SortCommutesWithMap(f, le, le', s[1..]);
      SortPermutes(le, s[1..]);
      InsertCommutesWithMap(f, le, le', s[0], Sort(le, s[1..]));
      assert Map(f, s)[1..] == Map(f, s[1..]);
    }
  }

  /** Two strictly sorted sequences with the same elements are equal. */
  lemma {:induction false} StrictlySortedUnique<T(!new)>(le: (T, T) -> bool, s: seq<T>, t: seq<T>)
    requires Sorted(le, s) && Sorted(le, t) && |s| == |t|
    requires forall x :: x in s <==> x in t
    requires forall x, y :: x in s && y in s && le(x, y) && le(y, x) ==> x == y
    requires forall i, j :: 0 <= i < j < |s| ==> s[i] != s[j]
    requires forall i, j :: 0 <= i < j < |t| ==> t[i] != t[j]
    ensures s == t
  {
    if s == [] {
    } else {
      assert s[0] in t && t[0] in s;
      var i :| 0 <= i < |t| && t[i] == s[0];
      var j :| 0 <= j < |s| && s[j] == t[0];
      assert s[0] == t[0];
      forall x ensures x in s[1..] <==> x in t[1..] {
        assert x in s[1..] <==> x in s && x != s[0];
        assert x in t[1..] <==> x in t && x != t[0];
      }
      StrictlySortedUnique(le, s[1..], t[1..]);
    }
  }

  lemma TailElements<T>(s: seq<T>)
    requires s != []
    ensures multiset(s[1..]) == multiset(s) - multiset{s[0]}
  {
    assert s == [s[0]] + s[1..];
  }

  lemma SameLeast<T(!new)>(le: (T, T) -> bool, s: seq<T>, t: seq<T>)
    requires Sorted(le, s) && Sorted(le, t) && s != [] && t != []
    requires forall x :: x in s <==> x in t
    requires forall x, y :: le(x, y) && le(y, x) ==> x == y
    ensures s[0] == t[0]
  {
    assert s[0] in t && t[0] in s;
    var i :| 0 <= i < |t| && t[i] == s[0];
    var j :| 0 <= j < |s| && s[j] == t[0];
  }

  /** What one sorted arrangement of some elements is, when no two different ones tie. */
  lemma {:induction false} SortedPermutationsEqual<T(!new)>(le: (T, T) -> bool, s: seq<T>, t: seq<T>)
    requires Sorted(le, s) && Sorted(le, t) && multiset(s) == multiset(t)
    requires forall x, y :: le(x, y) && le(y, x) ==> x == y
    ensures s == t
  {
    SameElements(s, t);
    if s == [] {
    } else {
      SameLeast(le, s, t);
      TailElements(s);
      TailElements(t);
      SortedPermutationsEqual(le, s[1..], t[1..]);
      assert s == [s[0]] + s[1..] && t == [t[0]] + t[1..];
    }
  }

  /** The elements that tie with x, in order. */
  function TiedWith<T>(le: (T, T) -> bool, x: T, s: seq<T>): seq<T> {
    if s == [] then []
    else (if le(x, s[0]) && le(s[0], x) then [s[0]] else []) + TiedWith(le, x, s[1..])
  }

  lemma NotBothTied<T(!new)>(le: (T, T) -> bool, x: T, y: T, z: T)
    requires TotalPreorder(le) && !le(y, z)
    ensures !(le(y, x) && le(x, z))
  {
  }

  lemma {:induction false} InsertIsStable<T(!new)>(le: (T, T) -> bool, x: T, y: T, s: seq<T>)
    requires TotalPreorder(le)
    ensures TiedWith(le, x, Insert(le, y, s)) == TiedWith(le, x, [y] + s)
  {
    assert ([y] + s)[1..] == s;
    if s == [] || le(y, s[0]) {
    } else {
      InsertIsStable(le, x, y, s[1..]);
      var rest := Insert(le, y, s[1..]);
      assert ([s[0]] + rest)[1..] == rest && ([y] + s[1..])[1..] == s[1..];
      NotBothTied(le, x, y, s[0]);
    }
  }

  /** Elements that tie stay in the order they came in. */
  lemma {:induction false} SortIsStable<T(!new)>(le: (T, T) -> bool, x: T, s: seq<T>)
    requires TotalPreorder(le)
    ensures TiedWith(le, x, Sort(le, s)) == TiedWith(le, x, s)
  {
    if s == [] {
    } else {
      SortIsStable(le, x, s[1..]);
      InsertIsStable(le, x, s[0], Sort(le, s[1..]));
      var sorted := Sort(le, s[1..]);
      assert ([s[0]] + sorted)[1..] == sorted;
    }
  }

  // ---- Lexicographic order on byte strings ----

  predicate BytesLe(a: Bytes, b: Bytes) {
    a == [] || (b != [] && (a[0] < b[0] || (a[0] == b[0] && BytesLe(a[1..], b[1..]))))
  }

  lemma {:induction false} BytesLeTotal(a: Bytes, b: Bytes)
    ensures BytesLe(a, b) || BytesLe(b, a)
  {
    if a != [] && b != [] { BytesLeTotal(a[1..], b[1..]); }
  }

  lemma {:induction false} BytesLeTransitive(a: Bytes, b: Bytes, c: Bytes)
    requires BytesLe(a, b) && BytesLe(b, c)
    ensures BytesLe(a, c)
  {
    if a != [] && a[0] == b[0] == c[0] { BytesLeTransitive(a[1..], b[1..], c[1..]); }
  }

  lemma {:induction false} BytesLeAntisymmetric(a: Bytes, b: Bytes)
    requires BytesLe(a, b) && BytesLe(b, a)
    ensures a == b
  {
    if a == [] {
    } else {
      BytesLeAntisymmetric(a[1..], b[1..]);
      assert a == [a[0]] + a[1..];
      assert b == [b[0]] + b[1..];
    }
  }

  // ---- Powers and fixed-width big-endian numbers ----

  function Pow2(k: nat): (p: nat)
    ensures p > 0
  {
    if k == 0 then 1 else 2 * Pow2(k - 1)
  }

  function Pow256(k: nat): nat {
    if k == 0 then 1 else 256 * Pow256(k - 1)
  }

  function ToBe(n: nat, k: nat): (b: Bytes)
    ensures |b| == k
  {
    if k == 0 then [] else ToBe(n / 256, k - 1) + [n % 256]
  }

  function FromBe(b: Bytes): nat {
    if b == [] then 0 else FromBe(b[..|b| - 1]) * 256 + b[|b| - 1]
  }

  lemma {:induction false} BeRoundTrip(n: nat, k: nat)
    requires n < Pow256(k)
    ensures FromBe(ToBe(n, k)) == n
  {
    if k == 0 {
    } else {
      BeRoundTrip(n / 256, k - 1);
      assert ToBe(n, k)[..k - 1] == ToBe(n / 256, k - 1);
    }
  }

  lemma {:induction false} FromBeBound(b: Bytes)
    ensures FromBe(b) < Pow256(|b|)
  {
    if b == [] {
    } else {
      FromBeBound(b[..|b| - 1]);
    }
  }

  // ---- Pieces of the input ----

  /** The input holds `piece` at position pos. */
  predicate Holds(data: Bytes, pos: nat, piece: Bytes) {
    pos + |piece| <= |data| && data[pos..pos + |piece|] == piece
  }

  lemma HoldsSplit(data: Bytes, pos: nat, a: Bytes, b: Bytes)
    requires Holds(data, pos, a + b)
    ensures Holds(data, pos, a) && Holds(data, pos + |a|, b)
  {
    var piece := data[pos..pos + |a + b|];
    assert data[pos..pos + |a|] == piece[..|a|];
    assert data[pos + |a|..pos + |a| + |b|] == piece[|a|..];
    assert (a + b)[..|a|] == a && (a + b)[|a|..] == b;
  }

  lemma FirstByte(data: Bytes, pos: nat, piece: Bytes)
    requires Holds(data, pos, piece) && piece != []
    ensures pos < |data| && data[pos] == piece[0]
  {
    assert data[pos..pos + |piece|][0] == piece[0];
  }

  lemma HoldsFits(data: Bytes, pos: nat, piece: Bytes)
    requires Holds(data, pos, piece)
    ensures pos + |piece| <= |data|
  {
  }

  lemma HoldsAtFront(code: Bytes, rest: Bytes)
    ensures Holds(code + rest, 0, code)
  {
    assert (code + rest)[0..|code|] == code;
  }
}
