/** Batches of receipts under one signed Merkle root: create, verify and prove (dontlie/batch.py). */
module Batch {
  import opened Prelude
  import opened Merkle
  import Chain

  /** Receipt ids and the digest each stored payload_sha256 spells. */
  type Stored = map<int, Bytes>

  datatype Batch = Batch(
    timestamp: string, root: Bytes, leafCount: nat, firstId: int, lastId: int,
    keyId: string, signature: string, tags: seq<string>, receiptIds: seq<int>)

  /** The object that is serialised and signed: ids and tags go in sorted. */
  datatype CoveredBatch = CoveredBatch(
    timestamp: string, root: Bytes, leafCount: nat, firstId: int, lastId: int,
    keyId: string, tags: seq<string>, receiptIds: seq<int>)

  datatype Signing = Signing(
    json: CoveredBatch -> Bytes,
    publicOf: Chain.SecretKey -> Chain.PublicKey,
    sign: (Chain.SecretKey, Bytes) -> string,
    verify: (Chain.PublicKey, Bytes, string) -> bool)

  ghost predicate LawfulSigning(s: Signing) {
    && (forall x, y :: s.json(x) == s.json(y) ==> x == y)
    && (forall k, m :: s.verify(s.publicOf(k), m, s.sign(k, m)))
  }

  datatype Signer = Signer(secret: Chain.SecretKey, keyId: string)

  /** Raised is the ValueError of the root computation, which verify lets through. */
  datatype Verdict = Raised | Fails | Holds

  datatype Proof = Proof(position: nat, leaf: Bytes, path: seq<Bytes>)

  predicate IntLe(a: int, b: int) {
    a <= b
  }

  predicate TextLe(a: string, b: string) {
    a == "" || (b != "" && (a[0] < b[0] || (a[0] == b[0] && TextLe(a[1..], b[1..]))))
  }

  function Unique(ids: seq<int>): (r: seq<int>)
    ensures forall id :: id in r <==> id in ids
    ensures forall i, j :: 0 <= i < j < |r| ==> r[i] != r[j]
  {
    if ids == [] then []
    else
      var rest := Unique(ids[1..]);
      if ids[0] in rest then rest else [ids[0]] + rest
  }

  /** sorted({int(r) for r in receipt_ids}). */
  function SortedIds(ids: seq<int>): seq<int> {
    Sort(IntLe, Unique(ids))
  }

  predicate AllStored(stored: Stored, ids: seq<int>) {
    forall i :: 0 <= i < |ids| ==> ids[i] in stored
  }

  function Leaves(stored: Stored, ids: seq<int>): (leaves: seq<Bytes>)
    requires AllStored(stored, ids)
    ensures |leaves| == |ids| && forall i :: 0 <= i < |ids| ==> leaves[i] == stored[ids[i]]
  {
    seq(|ids|, i requires 0 <= i < |ids| => stored[ids[i]])
  }

  function CoveredOf(b: Batch): CoveredBatch {
    CoveredBatch(b.timestamp, b.root, b.leafCount, b.firstId, b.lastId, b.keyId,
                 Sort(TextLe, b.tags), Sort(IntLe, b.receiptIds))
  }

  /** create; None is ValueError. */
  function Create(
    h: Hash, s: Signing, key: Signer, stored: Stored, ids: seq<int>, tags: seq<string>, now: string): Option<Batch>
  {
    var sorted := SortedIds(ids);
    if sorted == [] || !AllStored(stored, sorted) || !AllDigests(Leaves(stored, sorted)) then None
    else
      var b := Batch(now, Root(h, Leaves(stored, sorted)), |sorted|, sorted[0], sorted[|sorted| - 1],
                     key.keyId, "", tags, sorted);
      Some(b.(signature := s.sign(key.secret, s.json(CoveredOf(b)))))
  }

  /** verify; `found` is the public key looked up under the batch's key id. */
  function Verify(h: Hash, s: Signing, found: Option<Chain.PublicKey>, stored: Stored, b: Batch): Verdict {
    if !AllStored(stored, b.receiptIds) then Fails
    else
      var leaves := Leaves(stored, b.receiptIds);
      if leaves == [] || !AllDigests(leaves) then Raised
      else if Root(h, leaves) != b.root then Fails
      else if found.Some? && s.verify(found.value, s.json(CoveredOf(b)), b.signature) then Holds else Fails
  }

  function IndexOf(ids: seq<int>, id: int): (i: nat)
    requires id in ids
    ensures i < |ids| && ids[i] == id
  {
    if ids[0] == id then 0 else 1 + IndexOf(ids[1..], id)
  }

  /** prove, for a receipt of the batch. */
  function Prove(h: Hash, stored: Stored, b: Batch, id: int): Proof
    requires id in b.receiptIds && AllStored(stored, b.receiptIds)
  {
    var position, leaves := IndexOf(b.receiptIds, id), Leaves(stored, b.receiptIds);
    Proof(position, leaves[position], Path(h, leaves, position))
  }

  // ---- Laws ----

  predicate Differ(a: int, b: int) {
    a != b
  }

  lemma SortedIdsAreTheIds(ids: seq<int>)
    ensures forall id :: id in SortedIds(ids) <==> id in ids
    ensures forall i, j :: 0 <= i < j < |SortedIds(ids)| ==> SortedIds(ids)[i] < SortedIds(ids)[j]
  {
    var unique := Unique(ids);
    SortPermutes(IntLe, unique);
    SortSorts(IntLe, unique);
    assert Pairwise(Differ, unique);
    SortKeepsPairwise(Differ, IntLe, unique);
    forall i, j | 0 <= i < j < |SortedIds(ids)| ensures SortedIds(ids)[i] < SortedIds(ids)[j] {
      assert IntLe(SortedIds(ids)[i], SortedIds(ids)[j]) && Differ(SortedIds(ids)[i], SortedIds(ids)[j]);
    }
  }

  /** What a created batch is made of. */
  lemma CreatedParts(
    h: Hash, s: Signing, key: Signer, stored: Stored, ids: seq<int>, tags: seq<string>, now: string)
    requires LawfulSigning(s) && Create(h, s, key, stored, ids, tags, now).Some?
    ensures var b := Create(h, s, key, stored, ids, tags, now).value;
      && b.receiptIds == SortedIds(ids) && b.receiptIds != [] && AllStored(stored, b.receiptIds)
      && AllDigests(Leaves(stored, b.receiptIds)) && b.root == Root(h, Leaves(stored, b.receiptIds))
      && s.verify(s.publicOf(key.secret), s.json(CoveredOf(b)), b.signature)
  {
    hide SortedIds, Root, AllDigests, Sort;
    var b := Create(h, s, key, stored, ids, tags, now).value;
    assert CoveredOf(b) == CoveredOf(b.(signature := ""));
  }

  /** Main result: a created batch verifies, and the proof of each of its receipts checks out. */
  lemma CreatedBatchProves(
    h: Hash, s: Signing, key: Signer, stored: Stored, ids: seq<int>, tags: seq<string>, now: string, id: int)
    requires LawfulSigning(s) && Create(h, s, key, stored, ids, tags, now).Some? && id in ids
    ensures var b := Create(h, s, key, stored, ids, tags, now).value;
      && Verify(h, s, Some(s.publicOf(key.secret)), stored, b) == Holds
      && id in b.receiptIds && AllStored(stored, b.receiptIds)
      && var proof := Prove(h, stored, b, id);
      && proof.leaf == stored[id]
      && Climb(h, proof.leaf, proof.position, proof.path) == b.root
  {
    hide Create, SortedIds, Root, Path, Climb, AllDigests, CoveredOf, Position;
    CreatedParts(h, s, key, stored, ids, tags, now);
    SortedIdsAreTheIds(ids);
    var b := Create(h, s, key, stored, ids, tags, now).value;
    PathLeadsToRoot(h, Leaves(stored, b.receiptIds), IndexOf(b.receiptIds, id));
  }

  lemma SameHashesSameLeaves(stored: Stored, later: Stored, ids: seq<int>)
    requires AllStored(stored, ids) && AllStored(later, ids)
    ensures Leaves(later, ids) == Leaves(stored, ids) <==> forall id :: id in ids ==> later[id] == stored[id]
  {
    var now, before := Leaves(later, ids), Leaves(stored, ids);
    if forall id :: id in ids ==> later[id] == stored[id] {
      forall i | 0 <= i < |ids| ensures now[i] == before[i] {
        var id := ids[i];
        assert id in ids && later[id] == stored[id];
        assert now[i] == later[id] && before[i] == stored[id];
      }
    }
    if now == before {
      forall id | id in ids ensures later[id] == stored[id] {
        assert now[IndexOf(ids, id)] == later[id];
      }
    }
  }

  /**
   * Main result: what verify says of a created batch in a later vault. A missing receipt makes it
   * fail and a hash that is no digest makes it raise; otherwise it holds exactly when every receipt
   * has the hash it had, unless two of the strings hashed collide.
   */
  lemma BatchHoldsIffUnchanged(
    h: Hash, s: Signing, key: Signer, stored: Stored, later: Stored, ids: seq<int>, tags: seq<string>, now: string)
    requires forall x :: |h(x)| == DIGEST
    requires LawfulSigning(s) && Create(h, s, key, stored, ids, tags, now).Some?
    ensures var b := Create(h, s, key, stored, ids, tags, now).value;
      var verdict := Verify(h, s, Some(s.publicOf(key.secret)), later, b);
      && AllStored(stored, b.receiptIds)
      && (!AllStored(later, b.receiptIds) ==> verdict == Fails)
      && (AllStored(later, b.receiptIds) && !AllDigests(Leaves(later, b.receiptIds)) ==> verdict == Raised)
      && (AllStored(later, b.receiptIds) && AllDigests(Leaves(later, b.receiptIds)) ==>
            || CollisionIn(h, RootInputs(h, Leaves(later, b.receiptIds)), RootInputs(h, Leaves(stored, b.receiptIds)))
            || (verdict == Holds <==> forall id :: id in b.receiptIds ==> later[id] == stored[id]))
  {
    hide Create, SortedIds, Root, RootInputs, CollisionIn, AllDigests, CoveredOf;
    CreatedParts(h, s, key, stored, ids, tags, now);
    var b := Create(h, s, key, stored, ids, tags, now).value;
    if AllStored(later, b.receiptIds) {
      var leaves, before := Leaves(later, b.receiptIds), Leaves(stored, b.receiptIds);
      SameHashesSameLeaves(stored, later, b.receiptIds);
      if AllDigests(leaves) && Root(h, leaves) == Root(h, before) {
        RootBindsLeaves(h, leaves, before);
      }
    }
  }

  // ---- What the signature covers ----

  lemma {:induction false} TextLeTotal(a: string, b: string)
    ensures TextLe(a, b) || TextLe(b, a)
  {
    if a == "" || b == "" {
    } else {
      TextLeTotal(a[1..], b[1..]);
    }
  }

  lemma {:induction false} TextLeTransitive(a: string, b: string, c: string)
    requires TextLe(a, b) && TextLe(b, c)
    ensures TextLe(a, c)
  {
    if a != "" && a[0] == b[0] == c[0] {
      TextLeTransitive(a[1..], b[1..], c[1..]);
    }
  }

  lemma {:induction false} TextLeAntisymmetric(a: string, b: string)
    requires TextLe(a, b) && TextLe(b, a)
    ensures a == b
  {
    if a == "" {
    } else {
      TextLeAntisymmetric(a[1..], b[1..]);
      assert a == [a[0]] + a[1..] && b == [b[0]] + b[1..];
    }
  }

  lemma TextOrder()
    ensures TotalPreorder(TextLe) && forall x, y :: TextLe(x, y) && TextLe(y, x) ==> x == y
  {
    forall x, y ensures TextLe(x, y) || TextLe(y, x) { TextLeTotal(x, y); }
    forall x, y, z | TextLe(x, y) && TextLe(y, z) ensures TextLe(x, z) { TextLeTransitive(x, y, z); }
    forall x, y | TextLe(x, y) && TextLe(y, x) ensures x == y { TextLeAntisymmetric(x, y); }
  }

  lemma SameSortIff<T(!new)>(le: (T, T) -> bool, s: seq<T>, t: seq<T>)
    requires TotalPreorder(le) && forall x, y :: le(x, y) && le(y, x) ==> x == y
    ensures Sort(le, s) == Sort(le, t) <==> multiset(s) == multiset(t)
  {
    hide Sort;
    SortPermutes(le, s);
    SortPermutes(le, t);
    SortSorts(le, s);
    SortSorts(le, t);
    if multiset(s) == multiset(t) {
      SortedPermutationsEqual(le, Sort(le, s), Sort(le, t));
    }
  }

  /** The batches agree on everything that is signed; the order of tags and ids is not. */
  ghost predicate AgreeOnSigned(a: Batch, b: Batch) {
    && a.timestamp == b.timestamp && a.root == b.root && a.leafCount == b.leafCount
    && a.firstId == b.firstId && a.lastId == b.lastId && a.keyId == b.keyId
    && multiset(a.tags) == multiset(b.tags) && multiset(a.receiptIds) == multiset(b.receiptIds)
  }

  /** Main result: two batches are signed as the same bytes exactly when they agree on everything signed. */
  lemma SameSignedBytesIff(s: Signing, a: Batch, b: Batch)
    requires LawfulSigning(s)
    ensures s.json(CoveredOf(a)) == s.json(CoveredOf(b)) <==> AgreeOnSigned(a, b)
  {
    TextOrder();
    SameSortIff(TextLe, a.tags, b.tags);
    SameSortIff(IntLe, a.receiptIds, b.receiptIds);
    hide Sort, TextLe;
  }

  /** Main result: what a created batch says about itself. */
  lemma CreatedFields(
    h: Hash, s: Signing, key: Signer, stored: Stored, ids: seq<int>, tags: seq<string>, now: string)
    requires Create(h, s, key, stored, ids, tags, now).Some?
    ensures var b := Create(h, s, key, stored, ids, tags, now).value;
      && b.timestamp == now && b.keyId == key.keyId && b.tags == tags
      && b.leafCount == |b.receiptIds| && (forall id :: id in b.receiptIds <==> id in ids)
      && b.firstId in ids && b.lastId in ids && forall id :: id in ids ==> b.firstId <= id <= b.lastId
  {
    SortedIdsAreTheIds(ids);
    hide SortedIds, Root, AllDigests, CoveredOf;
    var b := Create(h, s, key, stored, ids, tags, now).value;
    forall id | id in ids ensures b.firstId <= id <= b.lastId {
      var i := IndexOf(b.receiptIds, id);
      assert i > 0 ==> b.receiptIds[0] < b.receiptIds[i];
      assert i < |b.receiptIds| - 1 ==> b.receiptIds[i] < b.receiptIds[|b.receiptIds| - 1];
    }
  }

  lemma SameEmptiness(a: seq<int>, b: seq<int>)
    requires forall id :: id in a <==> id in b
    ensures a == [] <==> b == []
  {
    if a != [] {
      var id := a[0];
      assert id in a;
    }
    if b != [] {
      var id := b[0];
      assert id in b;
    }
  }

  /** When nothing is created: no ids, an id that is not stored, or a hash that is no digest. */
  lemma CreatesIff(
    h: Hash, s: Signing, key: Signer, stored: Stored, ids: seq<int>, tags: seq<string>, now: string)
    ensures Create(h, s, key, stored, ids, tags, now).Some? <==>
      ids != [] && forall id :: id in ids ==> id in stored && |stored[id]| == 32
  {
    SortedIdsAreTheIds(ids);
    hide SortedIds, Root, CoveredOf;
    var sorted := SortedIds(ids);
    SameEmptiness(ids, sorted);
    if forall id :: id in ids ==> id in stored && |stored[id]| == 32 {
      forall i | 0 <= i < |sorted| ensures sorted[i] in stored && |stored[sorted[i]]| == 32 {
        var id := sorted[i];
        assert id in sorted;
      }
    } else {
      var id :| id in ids && !(id in stored && |stored[id]| == 32);
      var i := IndexOf(sorted, id);
      assert AllStored(stored, sorted) ==> Leaves(stored, sorted)[i] == stored[id];
    }
  }

  /** The signature verifies on bytes that none of the batches in `signed` is signed as. */
  ghost predicate Forgery(s: Signing, public: Chain.PublicKey, b: Batch, signed: set<Batch>) {
    && s.verify(public, s.json(CoveredOf(b)), b.signature)
    && forall x :: x in signed ==> s.json(CoveredOf(x)) != s.json(CoveredOf(b))
  }

  /**
   * Main result: a batch verifies only under a key that was found. For any set of batches it agrees with
   * one of them on everything signed, or else it holds a forgery itself. Never both.
   */
  lemma VerifiedBatchWasSigned(
    h: Hash, s: Signing, found: Option<Chain.PublicKey>, stored: Stored, b: Batch, signed: set<Batch>)
    requires LawfulSigning(s) && Verify(h, s, found, stored, b) == Holds
    ensures found.Some?
    ensures Forgery(s, found.value, b, signed) <==> !exists x :: x in signed && AgreeOnSigned(x, b)
    ensures AllStored(stored, b.receiptIds) && b.receiptIds != [] && b.root == Root(h, Leaves(stored, b.receiptIds))
  {
    hide CoveredOf, Root, AllDigests, AgreeOnSigned;
    forall x ensures s.json(CoveredOf(x)) == s.json(CoveredOf(b)) <==> AgreeOnSigned(x, b) {
      SameSignedBytesIff(s, x, b);
    }
  }

  lemma StoredIff(stored: Stored, ids: seq<int>)
    ensures AllStored(stored, ids) <==> forall id :: id in ids ==> id in stored
  {
    if AllStored(stored, ids) {
      forall id | id in ids ensures id in stored {
        assert ids[IndexOf(ids, id)] == id;
      }
    }
    if forall id :: id in ids ==> id in stored {
      forall i | 0 <= i < |ids| ensures ids[i] in stored {
        var id := ids[i];
        assert id in ids;
      }
    }
  }

  lemma DigestsIff(stored: Stored, ids: seq<int>)
    requires AllStored(stored, ids)
    ensures AllDigests(Leaves(stored, ids)) <==> forall id :: id in ids ==> |stored[id]| == 32
  {
    if forall id :: id in ids ==> |stored[id]| == 32 {
      forall i | 0 <= i < |ids| ensures |Leaves(stored, ids)[i]| == 32 {
        var id := ids[i];
        assert id in ids && |stored[id]| == 32;
      }
    } else {
      var id :| id in ids && |stored[id]| != 32;
      assert Leaves(stored, ids)[IndexOf(ids, id)] == stored[id];
    }
  }

  /** Main result: exactly when verify says that a batch holds, and when it raises. */
  lemma HoldsIff(h: Hash, s: Signing, found: Option<Chain.PublicKey>, stored: Stored, b: Batch)
    ensures Verify(h, s, found, stored, b) == Raised <==>
      AllStored(stored, b.receiptIds)
      && (b.receiptIds == [] || exists id :: id in b.receiptIds && |stored[id]| != 32)
    ensures Verify(h, s, found, stored, b) == Holds <==>
      && b.receiptIds != [] && (forall id :: id in b.receiptIds ==> id in stored && |stored[id]| == 32)
      && Root(h, Leaves(stored, b.receiptIds)) == b.root
      && found.Some? && s.verify(found.value, s.json(CoveredOf(b)), b.signature)
  {
    hide Root, CoveredOf;
    StoredIff(stored, b.receiptIds);
    if AllStored(stored, b.receiptIds) {
      DigestsIff(stored, b.receiptIds);
    }
  }

  /**
   * Main result: against a batch that verifies, a proof of the tree's depth is accepted at an index
   * exactly when it is the stored hash and the path of the member the index names, or hashed inputs collide.
   */
  lemma AcceptedProofIsGenuine(
    h: Hash, s: Signing, found: Option<Chain.PublicKey>, stored: Stored, b: Batch,
    leaf: Bytes, index: int, path: seq<Bytes>)
    requires forall x :: |h(x)| == DIGEST
    requires Verify(h, s, found, stored, b) == Holds && |leaf| == DIGEST && |path| == Depth(|b.receiptIds|)
    ensures AllStored(stored, b.receiptIds) && b.receiptIds != []
    ensures var p, leaves := Position(|b.receiptIds|, index), Leaves(stored, b.receiptIds);
      || CollisionIn(h, ClimbInputs(h, leaf, index, path), RootInputs(h, leaves))
      || (Climb(h, leaf, index, path) == b.root
          <==> leaf == stored[b.receiptIds[p]] && path == Path(h, leaves, p))
  {
    hide CoveredOf, Root, Climb, Path, ClimbInputs, RootInputs, CollisionIn, Position, Depth;
    AcceptedIff(h, leaf, index, path, Leaves(stored, b.receiptIds));
  }
}
