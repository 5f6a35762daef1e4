/** Merkle roots, sibling paths and their check (dontlie/batch.py). */
module Merkle {
  import opened Prelude

  /** SHA-256 as any function. Only its digests' length is used, and only where a lemma says so. */
  type Hash = Bytes -> Bytes

  const DIGEST := 32

  datatype Result<+T> = Ok(value: T) | ValueError

  function HashPair(h: Hash, left: Bytes, right: Bytes): Bytes {
    h(left + right)
  }

  /** One step up: the last node is paired with itself when the level is odd. */
  function NextLevel(h: Hash, level: seq<Bytes>): (next: seq<Bytes>)
    ensures |next| == (|level| + 1) / 2
  {
    if level == [] then []
    else if |level| == 1 then [HashPair(h, level[0], level[0])]
    else [HashPair(h, level[0], level[1])] + NextLevel(h, level[2..])
  }

  lemma {:induction false} NextLevelAt(h: Hash, level: seq<Bytes>, j: nat)
    requires 2 * j < |level|
    ensures NextLevel(h, level)[j]
      == HashPair(h, level[2 * j], level[if 2 * j + 1 < |level| then 2 * j + 1 else 2 * j])
  {
    if j == 0 {
    } else {
      NextLevelAt(h, level[2..], j - 1);
    }
  }

  function Root(h: Hash, level: seq<Bytes>): Bytes
    requires level != []
    decreases |level|
  {
    if |level| == 1 then level[0] else Root(h, NextLevel(h, level))
  }

  function SiblingIndex(n: nat, i: nat): (j: nat)
    requires i < n
    ensures j < n
  {
    if i % 2 == 1 then i - 1 else if i + 1 < n then i + 1 else i
  }

  function Path(h: Hash, level: seq<Bytes>, i: nat): seq<Bytes>
    requires i < |level|
    decreases |level|
  {
    if |level| == 1 then []
    else [level[SiblingIndex(|level|, i)]] + Path(h, NextLevel(h, level), i / 2)
  }

  /** The bytes hashed at one step of a path check. */
  function Joined(node: Bytes, i: int, sibling: Bytes): Bytes {
    if i % 2 == 0 then node + sibling else sibling + node
  }

  /** Any integer index is accepted; halving and parity are those of floor division. */
  function Climb(h: Hash, leaf: Bytes, i: int, path: seq<Bytes>): Bytes
    decreases |path|
  {
    if path == [] then leaf else Climb(h, h(Joined(leaf, i, path[0])), i / 2, path[1..])
  }

  // ---- The loops ----

  predicate AllDigests(leaves: seq<Bytes>) {
    forall i :: 0 <= i < |leaves| ==> |leaves[i]| == DIGEST
  }

  /** The inner loop shared by root and path: pad an odd level, then hash pairs. */
  method PairUp(h: Hash, level: seq<Bytes>) returns (padded: seq<Bytes>, next: seq<Bytes>)
    requires |level| > 1
    ensures next == NextLevel(h, level)
    ensures |padded| == |level| + |level| % 2
    ensures forall i :: 0 <= i < |padded| ==> padded[i] == level[if i < |level| then i else i - 1]
  {
    padded := level;
    if |padded| % 2 == 1 {
      padded := padded + [padded[|padded| - 1]];
    }
    next := [];
    var i := 0;
    while i < |padded|
      invariant 0 <= i <= |padded| && i % 2 == 0 && |next| == i / 2
      invariant forall j :: 0 <= j < |next| ==> next[j] == HashPair(h, padded[2 * j], padded[2 * j + 1])
    {
      next := next + [HashPair(h, padded[i], padded[i + 1])];
      i := i + 2;
    }
    forall j | 0 <= j < |next| ensures next[j] == NextLevel(h, level)[j] {
      NextLevelAt(h, level, j);
    }
  }

  method MerkleRoot(h: Hash, leaves: seq<Bytes>) returns (result: Result<Bytes>)
    ensures result.Ok? <==> leaves != [] && AllDigests(leaves)
    ensures result.Ok? ==> result.value == Root(h, leaves)
  {
    if leaves == [] || !AllDigests(leaves) {
      return ValueError;
    }
    var level := leaves;
    while |level| > 1
      invariant level != [] && Root(h, level) == Root(h, leaves)
      decreases |level|
    {
      var _, next := PairUp(h, level);
      level := next;
    }
    return Ok(level[0]);
  }

  lemma SiblingInPadded(level: seq<Bytes>, padded: seq<Bytes>, i: nat)
    requires i < |level| && |padded| == |level| + |level| % 2
    requires forall k :: 0 <= k < |padded| ==> padded[k] == level[if k < |level| then k else k - 1]
    ensures 0 <= (if i % 2 == 0 then i + 1 else i - 1) < |padded|
    ensures padded[if i % 2 == 0 then i + 1 else i - 1] == level[SiblingIndex(|level|, i)]
  {
  }

  lemma PathOfOne(h: Hash, level: seq<Bytes>)
    requires |level| == 1
    ensures Path(h, level, 0) == []
  {
  }

  lemma PathCons(h: Hash, level: seq<Bytes>, i: nat)
    requires |level| > 1 && i < |level|
    ensures i / 2 < |NextLevel(h, level)|
    ensures Path(h, level, i) == [level[SiblingIndex(|level|, i)]] + Path(h, NextLevel(h, level), i / 2)
  {
  }

  lemma PathUnfolds(h: Hash, level: seq<Bytes>, i: nat, path: seq<Bytes>, sibling: Bytes)
    requires |level| > 1 && i < |level| && sibling == level[SiblingIndex(|level|, i)]
    ensures i / 2 < |NextLevel(h, level)|
    ensures path + Path(h, level, i) == (path + [sibling]) + Path(h, NextLevel(h, level), i / 2)
  {
    hide *;
    PathCons(h, level, i);
    var tail := Path(h, NextLevel(h, level), i / 2);
    assert path + ([sibling] + tail) == (path + [sibling]) + tail;
  }

  method MerklePath(h: Hash, leaves: seq<Bytes>, index: int) returns (result: Result<seq<Bytes>>)
    ensures result.Ok? <==> 0 <= index < |leaves|
    ensures result.Ok? ==> result.value == Path(h, leaves, index)
  {
    if leaves == [] || index < 0 || index >= |leaves| {
      return ValueError;
    }
    hide Path, NextLevel, SiblingIndex;
    var level, i: nat, path := leaves, index, [];
    while |level| > 1
      invariant 0 <= i < |level|
      invariant path + Path(h, level, i) == Path(h, leaves, index)
      decreases |level|
    {
      var padded, next := PairUp(h, level);
      SiblingInPadded(level, padded, i);
      var sibling := padded[if i % 2 == 0 then i + 1 else i - 1];
      PathUnfolds(h, level, i, path, sibling);
      path := path + [sibling];
      level, i := next, i / 2;
    }
    PathOfOne(h, level);
    assert path + [] == path;
    return Ok(path);
  }

  method VerifyMerklePath(h: Hash, leaf: Bytes, index: int, path: seq<Bytes>, root: Bytes)
    returns (ok: bool)
    ensures ok <==> Climb(h, leaf, index, path) == root
  {
    var node, i := leaf, index;
    var k := 0;
    while k < |path|
      invariant 0 <= k <= |path|
      invariant Climb(h, node, i, path[k..]) == Climb(h, leaf, index, path)
    {
      assert path[k..][1..] == path[k + 1..];
      node := if i % 2 == 0 then HashPair(h, node, path[k]) else HashPair(h, path[k], node);
      i := i / 2;
      k := k + 1;
    }
    return node == root;
  }

  // ---- Completeness and depth ----

  lemma ParentIsJoinedHash(h: Hash, level: seq<Bytes>, i: nat)
    requires |level| > 1 && i < |level|
    ensures i / 2 < |NextLevel(h, level)|
    ensures NextLevel(h, level)[i / 2] == h(Joined(level[i], i, level[SiblingIndex(|level|, i)]))
  {
    NextLevelAt(h, level, i / 2);
  }

  function Depth(n: nat): nat {
    if n <= 1 then 0 else 1 + Depth((n + 1) / 2)
  }

  /** Which of n leaves stands at position j of the complete tree that duplication amounts to. */
  function Shown(n: nat, depth: nat, j: int): (i: nat)
    requires n > 0
    ensures i < n
    decreases depth
  {
    if depth == 0 then 0
    else
      var pair := Shown((n + 1) / 2, depth - 1, j / 2);
      var q := 2 * pair + j % 2;
      if q < n then q else 2 * pair
  }

  /** The leaf that an index names: itself when in range. */
  function Position(n: nat, i: int): (p: nat)
    requires n > 0
    ensures p < n
  {
    Shown(n, Depth(n), i)
  }

  lemma {:induction false} PositionInRange(n: nat, i: nat)
    requires i < n
    ensures Position(n, i) == i
  {
    if n == 1 {
    } else {
      PositionInRange((n + 1) / 2, i / 2);
    }
  }

  /** An index and the position it names have the same parent and hash the same bytes. */
  lemma PositionAbove(level: seq<Bytes>, i: int)
    requires |level| > 1
    ensures var n, p := |level|, Position(|level|, i);
      && p / 2 == Position((n + 1) / 2, i / 2)
      && Joined(level[p], i, level[SiblingIndex(n, p)]) == Joined(level[p], p, level[SiblingIndex(n, p)])
  {
    var n, pair := |level|, Position((|level| + 1) / 2, i / 2);
    assert Depth(n) == 1 + Depth((n + 1) / 2);
    assert Position(n, i) == if 2 * pair + i % 2 < n then 2 * pair + i % 2 else 2 * pair;
  }

  /** Main result: at every index, the path of the leaf it names leads from that leaf to the root. */
  lemma {:induction false} PathLeadsToRoot(h: Hash, leaves: seq<Bytes>, i: int)
    requires leaves != []
    ensures var p := Position(|leaves|, i);
      Climb(h, leaves[p], i, Path(h, leaves, p)) == Root(h, leaves)
    ensures 0 <= i < |leaves| ==> Position(|leaves|, i) == i
    decreases |leaves|
  {
    hide Position, SiblingIndex, NextLevel, Joined;
    var p := Position(|leaves|, i);
    if 0 <= i < |leaves| { PositionInRange(|leaves|, i); }
    if |leaves| == 1 {
    } else {
      PositionAbove(leaves, i);
      ParentIsJoinedHash(h, leaves, p);
      PathLeadsToRoot(h, NextLevel(h, leaves), i / 2);
    }
  }

  lemma {:induction false} Pow2Monotone(j: nat, k: nat)
    requires j <= k
    ensures Pow2(j) <= Pow2(k)
    decreases k
  {
    if j < k { Pow2Monotone(j, k - 1); }
  }

  /** Depth(n) is the least k with n <= 2^k. */
  lemma {:induction false} DepthIsLeast(n: nat, k: nat)
    requires n > 0
    ensures Depth(n) <= k <==> n <= Pow2(k)
  {
    if n == 1 {
      Pow2Monotone(0, k);
    } else if k > 0 {
      DepthIsLeast((n + 1) / 2, k - 1);
    }
  }

  lemma {:induction false} PathLength(h: Hash, leaves: seq<Bytes>, i: nat)
    requires i < |leaves|
    ensures |Path(h, leaves, i)| == Depth(|leaves|)
    decreases |leaves|
  {
    if |leaves| == 1 {
    } else {
      PathLength(h, NextLevel(h, leaves), i / 2);
    }
  }

  // ---- Soundness and binding, against the byte strings actually hashed ----

  /** Every byte string hashed while the root is computed. */
  ghost function RootInputs(h: Hash, level: seq<Bytes>): set<Bytes>
    decreases |level|
  {
    if |level| <= 1 then {}
    else (set i | 0 <= i < |level| :: Joined(level[i], i, level[SiblingIndex(|level|, i)]))
         + RootInputs(h, NextLevel(h, level))
  }

  /** Every byte string hashed while a path is checked. */
  ghost function ClimbInputs(h: Hash, leaf: Bytes, i: int, path: seq<Bytes>): set<Bytes>
    decreases |path|
  {
    if path == [] then {}
    else var input := Joined(leaf, i, path[0]);
      {input} + ClimbInputs(h, h(input), i / 2, path[1..])
  }

  ghost predicate CollisionIn(h: Hash, xs: set<Bytes>, ys: set<Bytes>) {
    exists x, y :: x in xs && y in ys && x != y && h(x) == h(y)
  }

  lemma JoinedInjective(a: Bytes, b: Bytes, i: int, s: Bytes, t: Bytes)
    requires |a| == |b| && Joined(a, i, s) == Joined(b, i, t)
    ensures a == b && s == t
  {
    var x := Joined(a, i, s);
    if i % 2 == 0 {
      assert a == x[..|a|] && b == x[..|b|] && s == x[|a|..] && t == x[|b|..];
    } else {
      var n := |x| - |a|;
      assert a == x[n..] && b == x[n..] && s == x[..n] && t == x[..n];
    }
  }

  lemma NextLevelDigests(h: Hash, level: seq<Bytes>)
    requires forall x :: |h(x)| == DIGEST
    ensures AllDigests(NextLevel(h, level))
  {
    forall j | 0 <= j < |NextLevel(h, level)| ensures |NextLevel(h, level)[j]| == DIGEST {
      NextLevelAt(h, level, j);
    }
  }

  /**
   * Main result: at any index, a path of the tree's depth that reaches the root starts at the leaf
   * the index names and is that leaf's path, unless two of the strings hashed on the way collide.
   */
  lemma {:induction false} AcceptedPathIsGenuine(
    h: Hash, leaf: Bytes, i: int, path: seq<Bytes>, leaves: seq<Bytes>)
    requires forall x :: |h(x)| == DIGEST
    requires |leaf| == DIGEST && leaves != [] && AllDigests(leaves) && |path| == Depth(|leaves|)
    requires Climb(h, leaf, i, path) == Root(h, leaves)
    ensures var p := Position(|leaves|, i);
      CollisionIn(h, ClimbInputs(h, leaf, i, path), RootInputs(h, leaves))
      || (leaf == leaves[p] && path == Path(h, leaves, p))
    decreases |leaves|
  {
    hide Position, SiblingIndex, NextLevel, Joined;
    var p := Position(|leaves|, i);
    if |leaves| == 1 {
    } else {
      var next, input := NextLevel(h, leaves), Joined(leaf, i, path[0]);
      var genuine := leaves[SiblingIndex(|leaves|, p)];
      var expected := Joined(leaves[p], p, genuine);
      PositionAbove(leaves, i);
      ParentIsJoinedHash(h, leaves, p);
      NextLevelDigests(h, leaves);
      AcceptedPathIsGenuine(h, h(input), i / 2, path[1..], next);
      if input == expected {
        JoinedInjective(leaf, leaves[p], i, path[0], genuine);
        assert path == [path[0]] + path[1..];
      } else if h(input) == next[p / 2] {
        assert input in ClimbInputs(h, leaf, i, path) && expected in RootInputs(h, leaves);
      }
    }
  }

  /** Main result: at the tree's depth, exactly one leaf and path are accepted at each index. */
  lemma AcceptedIff(h: Hash, leaf: Bytes, i: int, path: seq<Bytes>, leaves: seq<Bytes>)
    requires forall x :: |h(x)| == DIGEST
    requires |leaf| == DIGEST && leaves != [] && AllDigests(leaves) && |path| == Depth(|leaves|)
    ensures var p := Position(|leaves|, i);
      CollisionIn(h, ClimbInputs(h, leaf, i, path), RootInputs(h, leaves))
      || (Climb(h, leaf, i, path) == Root(h, leaves) <==> leaf == leaves[p] && path == Path(h, leaves, p))
  {
    hide Position, Climb, Root, Path, ClimbInputs, RootInputs, CollisionIn;
    PathLeadsToRoot(h, leaves, i);
    if Climb(h, leaf, i, path) == Root(h, leaves) {
      AcceptedPathIsGenuine(h, leaf, i, path, leaves);
    }
  }

  /** Main result: equally many leaves and one root mean the same leaves, unless inputs collide. */
  lemma {:induction false} RootBindsLeaves(h: Hash, a: seq<Bytes>, b: seq<Bytes>)
    requires forall x :: |h(x)| == DIGEST
    requires AllDigests(a) && AllDigests(b) && |a| == |b| > 0
    requires Root(h, a) == Root(h, b)
    ensures CollisionIn(h, RootInputs(h, a), RootInputs(h, b)) || a == b
    decreases |a|
  {
    if |a| > 1 && !CollisionIn(h, RootInputs(h, a), RootInputs(h, b)) {
      var n := |a|;
      NextLevelDigests(h, a);
      NextLevelDigests(h, b);
      RootBindsLeaves(h, NextLevel(h, a), NextLevel(h, b));
      forall i | 0 <= i < n ensures a[i] == b[i] {
        var j := SiblingIndex(n, i);
        var x, y := Joined(a[i], i, a[j]), Joined(b[i], i, b[j]);
        ParentIsJoinedHash(h, a, i);
        ParentIsJoinedHash(h, b, i);
        assert x in RootInputs(h, a) && y in RootInputs(h, b);
        JoinedInjective(a[i], b[i], i, a[j], b[j]);
      }
    }
  }

  // ---- Which leaf lists share a root ----

  function At(leaves: seq<Bytes>, depth: nat, j: nat): Bytes
    requires leaves != []
  {
    leaves[Shown(|leaves|, depth, j)]
  }

  ghost predicate SameTree(a: seq<Bytes>, b: seq<Bytes>, depth: nat)
    requires a != [] && b != []
  {
    forall j: nat :: j < Pow2(depth) ==> At(a, depth, j) == At(b, depth, j)
  }

  lemma ShownPair(n: nat, depth: nat, k: nat)
    requires n > 0 && depth > 0
    ensures var pair := Shown((n + 1) / 2, depth - 1, k);
      && Shown(n, depth, 2 * k) == 2 * pair
      && Shown(n, depth, 2 * k + 1) == (if 2 * pair + 1 < n then 2 * pair + 1 else 2 * pair)
  {
    assert (2 * k) / 2 == k && (2 * k + 1) / 2 == k;
  }

  lemma EvenSibling(n: nat, pair: nat)
    requires 2 * pair < n
    ensures SiblingIndex(n, 2 * pair) == if 2 * pair + 1 < n then 2 * pair + 1 else 2 * pair
    ensures (2 * pair) % 2 == 0
  {
  }

  lemma IsRootInput(h: Hash, level: seq<Bytes>, i: nat)
    requires |level| > 1 && i < |level|
    ensures Joined(level[i], i, level[SiblingIndex(|level|, i)]) in RootInputs(h, level)
  {
  }

  lemma NodeAbovePair(h: Hash, level: seq<Bytes>, depth: nat, k: nat)
    requires |level| > 1 && depth > 0
    ensures At(NextLevel(h, level), depth - 1, k)
      == h(At(level, depth, 2 * k) + At(level, depth, 2 * k + 1))
    ensures At(level, depth, 2 * k) + At(level, depth, 2 * k + 1) in RootInputs(h, level)
  {
    hide Shown, RootInputs;
    var n := |level|;
    ShownPair(n, depth, k);
    var pair := Shown((n + 1) / 2, depth - 1, k);
    var i, j := 2 * pair, if 2 * pair + 1 < n then 2 * pair + 1 else 2 * pair;
    assert At(level, depth, 2 * k) == level[i] && At(level, depth, 2 * k + 1) == level[j];
    NextLevelAt(h, level, pair);
    EvenSibling(n, pair);
    IsRootInput(h, level, i);
  }

  lemma PairBinds(h: Hash, a: seq<Bytes>, b: seq<Bytes>, depth: nat, k: nat)
    requires AllDigests(a) && AllDigests(b) && |a| > 1 && |b| > 1 && depth > 0
    requires !CollisionIn(h, RootInputs(h, a), RootInputs(h, b))
    requires At(NextLevel(h, a), depth - 1, k) == At(NextLevel(h, b), depth - 1, k)
    ensures At(a, depth, 2 * k) == At(b, depth, 2 * k)
    ensures At(a, depth, 2 * k + 1) == At(b, depth, 2 * k + 1)
  {
    hide Shown, RootInputs, NextLevel;
    NodeAbovePair(h, a, depth, k);
    NodeAbovePair(h, b, depth, k);
    JoinedInjective(At(a, depth, 2 * k), At(b, depth, 2 * k), 0,
                    At(a, depth, 2 * k + 1), At(b, depth, 2 * k + 1));
  }

  lemma {:induction false} SameTreeSameRoot(h: Hash, a: seq<Bytes>, b: seq<Bytes>)
    requires a != [] && b != [] && Depth(|a|) == Depth(|b|) && SameTree(a, b, Depth(|a|))
    ensures Root(h, a) == Root(h, b)
    decreases |a|
  {
    var depth := Depth(|a|);
    if depth == 0 {
      assert At(a, 0, 0) == At(b, 0, 0);
    } else {
      hide Shown, RootInputs, NextLevel;
      var nextA, nextB := NextLevel(h, a), NextLevel(h, b);
      forall k: nat {:trigger At(nextA, depth - 1, k)} | k < Pow2(depth - 1)
        ensures At(nextA, depth - 1, k) == At(nextB, depth - 1, k)
      {
        NodeAbovePair(h, a, depth, k);
        NodeAbovePair(h, b, depth, k);
        assert At(a, depth, 2 * k) == At(b, depth, 2 * k);
        assert At(a, depth, 2 * k + 1) == At(b, depth, 2 * k + 1);
      }
      SameTreeSameRoot(h, nextA, nextB);
    }
  }

  lemma InputsBelow(h: Hash, level: seq<Bytes>)
    requires |level| > 1
    ensures RootInputs(h, NextLevel(h, level)) <= RootInputs(h, level)
  {
    hide Joined, NextLevel, SiblingIndex;
  }

  lemma CollisionMonotone(h: Hash, xs: set<Bytes>, ys: set<Bytes>, xs': set<Bytes>, ys': set<Bytes>)
    requires xs <= xs' && ys <= ys' && CollisionIn(h, xs, ys)
    ensures CollisionIn(h, xs', ys')
  {
  }

  lemma FewerCollisions(h: Hash, a: seq<Bytes>, b: seq<Bytes>)
    requires |a| > 1 && |b| > 1 && !CollisionIn(h, RootInputs(h, a), RootInputs(h, b))
    ensures !CollisionIn(h, RootInputs(h, NextLevel(h, a)), RootInputs(h, NextLevel(h, b)))
  {
    hide CollisionIn, Joined, NextLevel, SiblingIndex;
    InputsBelow(h, a);
    InputsBelow(h, b);
    var xs, ys := RootInputs(h, NextLevel(h, a)), RootInputs(h, NextLevel(h, b));
    if CollisionIn(h, xs, ys) {
      CollisionMonotone(h, xs, ys, RootInputs(h, a), RootInputs(h, b));
    }
  }

  /** When the trees agree one level up, and no inputs collide, they agree here. */
  lemma SameTreeBelow(h: Hash, a: seq<Bytes>, b: seq<Bytes>, depth: nat)
    requires AllDigests(a) && AllDigests(b) && |a| > 1 && |b| > 1 && depth > 0
    requires !CollisionIn(h, RootInputs(h, a), RootInputs(h, b))
    requires SameTree(NextLevel(h, a), NextLevel(h, b), depth - 1)
    ensures SameTree(a, b, depth)
  {
    hide RootInputs, At, NextLevel, CollisionIn, AllDigests;
    forall j: nat | j < Pow2(depth) ensures At(a, depth, j) == At(b, depth, j) {
      var k := j / 2;
      assert At(NextLevel(h, a), depth - 1, k) == At(NextLevel(h, b), depth - 1, k);
      PairBinds(h, a, b, depth, k);
      assert j == 2 * k || j == 2 * k + 1;
    }
  }

  lemma SingleLeaves(a: seq<Bytes>, b: seq<Bytes>)
    requires |a| == |b| == 1 && a[0] == b[0]
    ensures SameTree(a, b, 0)
  {
  }

  lemma {:induction false} SameRootSameTree(h: Hash, a: seq<Bytes>, b: seq<Bytes>)
    requires forall x :: |h(x)| == DIGEST
    requires AllDigests(a) && AllDigests(b)
    requires a != [] && b != [] && Depth(|a|) == Depth(|b|) && Root(h, a) == Root(h, b)
    requires !CollisionIn(h, RootInputs(h, a), RootInputs(h, b))
    ensures SameTree(a, b, Depth(|a|))
    decreases |a|
  {
    hide At, CollisionIn, SameTree, NextLevel, RootInputs, AllDigests;
    var depth := Depth(|a|);
    if depth == 0 {
      SingleLeaves(a, b);
    } else {
      NextLevelDigests(h, a);
      NextLevelDigests(h, b);
      FewerCollisions(h, a, b);
      SameRootSameTree(h, NextLevel(h, a), NextLevel(h, b));
      SameTreeBelow(h, a, b, depth);
    }
  }

  lemma SharedRootAtOneDepth(h: Hash, a: seq<Bytes>, b: seq<Bytes>)
    requires forall x :: |h(x)| == DIGEST
    requires AllDigests(a) && AllDigests(b)
    requires a != [] && b != [] && Depth(|a|) == Depth(|b|)
    ensures CollisionIn(h, RootInputs(h, a), RootInputs(h, b))
      || (Root(h, a) == Root(h, b) <==> SameTree(a, b, Depth(|a|)))
  {
    if !CollisionIn(h, RootInputs(h, a), RootInputs(h, b)) {
      if Root(h, a) == Root(h, b) {
        SameRootSameTree(h, a, b);
      } else if SameTree(a, b, Depth(|a|)) {
        SameTreeSameRoot(h, a, b);
      }
    }
  }

  /** The level of the tree that is at most `depth` below the root. */
  function Lifted(h: Hash, level: seq<Bytes>, depth: nat): (lifted: seq<Bytes>)
    requires level != []
    ensures lifted != []
    ensures Depth(|lifted|) == if Depth(|level|) <= depth then Depth(|level|) else depth
    decreases |level|
  {
    if Depth(|level|) <= depth then level else Lifted(h, NextLevel(h, level), depth)
  }

  /** Leaves and inner nodes are hashed alike, so every level of a tree has the tree's root. */
  lemma {:induction false} LiftedFacts(h: Hash, level: seq<Bytes>, depth: nat)
    requires level != []
    ensures Root(h, Lifted(h, level, depth)) == Root(h, level)
    ensures RootInputs(h, Lifted(h, level, depth)) <= RootInputs(h, level)
    ensures (forall x :: |h(x)| == DIGEST) && AllDigests(level) ==> AllDigests(Lifted(h, level, depth))
    decreases |level|
  {
    hide NextLevel, RootInputs, AllDigests;
    if Depth(|level|) <= depth {
    } else {
      if forall x :: |h(x)| == DIGEST { NextLevelDigests(h, level); }
      InputsBelow(h, level);
      LiftedFacts(h, NextLevel(h, level), depth);
    }
  }

  /**
   * Main result: a path shorter than the tree is deep is accepted exactly for the node that the index
   * names on the level at that depth, and for its own path, or hashed inputs collide.
   */
  lemma AcceptedInnerNodeIff(h: Hash, node: Bytes, i: int, path: seq<Bytes>, leaves: seq<Bytes>)
    requires forall x :: |h(x)| == DIGEST
    requires |node| == DIGEST && leaves != [] && AllDigests(leaves) && |path| <= Depth(|leaves|)
    ensures var level := Lifted(h, leaves, |path|);
      var p := Position(|level|, i);
      CollisionIn(h, ClimbInputs(h, node, i, path), RootInputs(h, leaves))
      || (Climb(h, node, i, path) == Root(h, leaves) <==> node == level[p] && path == Path(h, level, p))
  {
    hide Position, Climb, Root, Path, ClimbInputs, RootInputs, CollisionIn, Lifted, AllDigests;
    var level := Lifted(h, leaves, |path|);
    LiftedFacts(h, leaves, |path|);
    AcceptedIff(h, node, i, path, level);
    var inputs := ClimbInputs(h, node, i, path);
    if CollisionIn(h, inputs, RootInputs(h, level)) {
      CollisionMonotone(h, inputs, RootInputs(h, level), inputs, RootInputs(h, leaves));
    }
  }

  /** The index after n steps up. */
  function Above(i: int, n: nat): int
    decreases n
  {
    if n == 0 then i else Above(i / 2, n - 1)
  }

  lemma {:induction false} ClimbInTwoStages(h: Hash, leaf: Bytes, i: int, path: seq<Bytes>, n: nat)
    requires n <= |path|
    ensures Climb(h, leaf, i, path) == Climb(h, Climb(h, leaf, i, path[..n]), Above(i, n), path[n..])
    ensures ClimbInputs(h, Climb(h, leaf, i, path[..n]), Above(i, n), path[n..]) <= ClimbInputs(h, leaf, i, path)
    ensures (forall x :: |h(x)| == DIGEST) && |leaf| == DIGEST ==> |Climb(h, leaf, i, path[..n])| == DIGEST
    decreases n
  {
    hide Joined;
    if n == 0 {
      assert path[0..] == path;
    } else {
      assert path[..n][1..] == path[1..][..n - 1] && path[1..][n - 1..] == path[n..];
      ClimbInTwoStages(h, h(Joined(leaf, i, path[0])), i / 2, path[1..], n - 1);
    }
  }

  /**
   * Main result: a path longer than the tree is deep is accepted exactly when its first part climbs to
   * the leaf that the index then names and the rest is that leaf's path, or hashed inputs collide.
   */
  lemma AcceptedLongPathIff(h: Hash, node: Bytes, i: int, path: seq<Bytes>, leaves: seq<Bytes>)
    requires forall x :: |h(x)| == DIGEST
    requires |node| == DIGEST && leaves != [] && AllDigests(leaves) && |path| >= Depth(|leaves|)
    ensures var n := |path| - Depth(|leaves|);
      var p := Position(|leaves|, Above(i, n));
      CollisionIn(h, ClimbInputs(h, node, i, path), RootInputs(h, leaves))
      || (Climb(h, node, i, path) == Root(h, leaves)
          <==> Climb(h, node, i, path[..n]) == leaves[p] && path[n..] == Path(h, leaves, p))
  {
    hide Position, Climb, Root, Path, ClimbInputs, RootInputs, CollisionIn, Above;
    var n := |path| - Depth(|leaves|);
    ClimbInTwoStages(h, node, i, path, n);
    var middle := Climb(h, node, i, path[..n]);
    AcceptedIff(h, middle, Above(i, n), path[n..], leaves);
    var later := ClimbInputs(h, middle, Above(i, n), path[n..]);
    if CollisionIn(h, later, RootInputs(h, leaves)) {
      CollisionMonotone(h, later, RootInputs(h, leaves), ClimbInputs(h, node, i, path), RootInputs(h, leaves));
    }
  }

  function CommonDepth(a: seq<Bytes>, b: seq<Bytes>): nat {
    if Depth(|a|) <= Depth(|b|) then Depth(|a|) else Depth(|b|)
  }

  /**
   * Main result: any two leaf lists share a root exactly when, at the depth of the shallower tree,
   * they show the same nodes, unless two of the strings hashed collide.
   */
  lemma SharedRootIffSameTree(h: Hash, a: seq<Bytes>, b: seq<Bytes>)
    requires forall x :: |h(x)| == DIGEST
    requires a != [] && b != [] && AllDigests(a) && AllDigests(b)
    ensures var depth := CommonDepth(a, b);
      CollisionIn(h, RootInputs(h, a), RootInputs(h, b))
      || (Root(h, a) == Root(h, b) <==> SameTree(Lifted(h, a, depth), Lifted(h, b, depth), depth))
  {
    hide Root, RootInputs, SameTree, CollisionIn, AllDigests, Lifted;
    var depth := CommonDepth(a, b);
    var x, y := Lifted(h, a, depth), Lifted(h, b, depth);
    LiftedFacts(h, a, depth);
    LiftedFacts(h, b, depth);
    SharedRootAtOneDepth(h, x, y);
    if CollisionIn(h, RootInputs(h, x), RootInputs(h, y)) {
      CollisionMonotone(h, RootInputs(h, x), RootInputs(h, y), RootInputs(h, a), RootInputs(h, b));
    }
  }

  /** The tree does not see a repeated last leaf of an odd list. */
  lemma OddLevelDuplicationIsInvisible(h: Hash, leaves: seq<Bytes>)
    requires |leaves| >= 3 && |leaves| % 2 == 1
    ensures Root(h, leaves + [leaves[|leaves| - 1]]) == Root(h, leaves)
  {
    var more := leaves + [leaves[|leaves| - 1]];
    var a, b := NextLevel(h, leaves), NextLevel(h, more);
    assert |a| == |b|;
    forall j | 0 <= j < |a| ensures a[j] == b[j] {
      NextLevelAt(h, leaves, j);
      NextLevelAt(h, more, j);
    }
    assert a == b;
  }
}
