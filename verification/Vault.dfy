/** The vault as a state machine: append, namespace deletion, key recording and revocation. */
module Vault {
  import opened Prelude
  import opened Json
  import opened Chain

  const OPERATOR_ID_KEY := "_dontlie_operator_id"
  const DEPLOYER_ID_KEY := "_dontlie_deployer_id"
  const SYSTEM_ID_KEY := "_dontlie_system_id"
  const RESERVED_CHAIN_KEYS: set<string> :=
    {CHAIN_VERSION_KEY, PARENT_HASH_KEY, OPERATOR_ID_KEY, DEPLOYER_ID_KEY, SYSTEM_ID_KEY}
  const DEFAULT_NAMESPACE := "default"
  const EPOCH := "1970-01-01T00:00:00+00:00"

  datatype Row = Row(receipt: Receipt, ns: string)

  datatype KeyRow = KeyRow(createdAt: string, revokedAt: Option<string>, pem: Option<string>)

  /** The tables. `sequence` is the AUTOINCREMENT counter, 0 while sqlite_sequence has no row. */
  datatype State = State(
    rows: seq<Row>, sequence: nat, keys: map<string, KeyRow>, namespaces: set<string>)

  const EMPTY_VAULT := State([], 0, map[], {})

  datatype KeyPair = KeyPair(secret: SecretKey, keyId: string)

  /** Arguments, environment and clock of one append. `fault` is any exception before COMMIT. */
  datatype Request = Request(
    ns: string, model: string, prompt: string, response: string, parentId: Option<int>,
    tags: seq<string>, extra: Fields, identity: Identity, key: KeyPair, now: string, fault: bool)

  datatype AppendResult =
    | Appended(receipt: Receipt)
    | ReservedKey
    | NotChainHead(expected: Option<int>)
    | RolledBack

  // ---- Queries ----

  /** SELECT ... WHERE namespace = ns ORDER BY id DESC LIMIT 1. */
  function Head(rows: seq<Row>, ns: string): Option<Receipt> {
    if rows == [] then None
    else
      var last := rows[|rows| - 1];
      var rest := Head(rows[..|rows| - 1], ns);
      if last.ns == ns && (rest.None? || rest.value.id < last.receipt.id)
      then Some(last.receipt) else rest
  }

  function HeadId(rows: seq<Row>, ns: string): Option<int> {
    match Head(rows, ns)
    case None => None
    case Some(r) => Some(r.id)
  }

  /** DELETE FROM receipts WHERE namespace = ns. */
  function Without(rows: seq<Row>, ns: string): seq<Row> {
    if rows == [] then []
    else
      var last := rows[|rows| - 1];
      Without(rows[..|rows| - 1], ns) + if last.ns == ns then [] else [last]
  }

  predicate IdLe(a: Row, b: Row) {
    a.receipt.id <= b.receipt.id
  }

  function Receipts(rows: seq<Row>): (rs: seq<Receipt>)
    ensures |rs| == |rows|
    ensures forall i :: 0 <= i < |rs| ==> rs[i] == rows[i].receipt
  {
    seq(|rows|, i requires 0 <= i < |rows| => rows[i].receipt)
  }

  /** SELECT * FROM receipts ORDER BY id ASC. */
  function SelectAll(rows: seq<Row>): seq<Receipt> {
    Receipts(Sort(IdLe, rows))
  }

  /** The rows come out by id, every one of them once. */
  lemma SelectAllById(rows: seq<Row>)
    ensures forall i, j :: 0 <= i < j < |SelectAll(rows)| ==> SelectAll(rows)[i].id <= SelectAll(rows)[j].id
    ensures exists sorted :: multiset(sorted) == multiset(rows) && SelectAll(rows) == Receipts(sorted)
  {
    var sorted := Sort(IdLe, rows);
    SortPermutes(IdLe, rows);
    SortSorts(IdLe, rows);
    hide Sort;
    forall i, j | 0 <= i < j < |sorted| ensures SelectAll(rows)[i].id <= SelectAll(rows)[j].id {
      assert IdLe(sorted[i], sorted[j]);
    }
  }

  predicate HasId(rows: seq<Row>, id: int) {
    exists i :: 0 <= i < |rows| && rows[i].receipt.id == id
  }

  // ---- Steps ----

  /** INSERT ... ON CONFLICT DO UPDATE SET public_key_pem = COALESCE(stored, new). */
  function RecordedKey(
    keys: map<string, KeyRow>, keyId: string, pem: Option<string>, now: string): map<string, KeyRow>
  {
    if keyId !in keys then keys[keyId := KeyRow(now, None, pem)]
    else if keys[keyId].pem.None? then keys[keyId := keys[keyId].(pem := pem)]
    else keys
  }

  function RevokedKey(keys: map<string, KeyRow>, keyId: string, at: string): map<string, KeyRow> {
    if keyId !in keys then keys[keyId := KeyRow(EPOCH, Some(at), None)]
    else keys[keyId := keys[keyId].(revokedAt := Some(at))]
  }

  function Max(a: int, b: int): int {
    if a >= b then a else b
  }

  function NextId(s: State, ns: string): int {
    var parent := HeadId(s.rows, ns);
    Max(if parent.Some? then parent.value else 0, s.sequence) + 1
  }

  function Unsigned(s: State, req: Request): Receipt {
    var chained := req.extra[CHAIN_VERSION_KEY := Int(CHAIN_VERSION)]
                            [PARENT_HASH_KEY := ExpectedParentHash(Head(s.rows, req.ns))];
    Receipt(NextId(s, req.ns), req.now, req.model, req.prompt, req.response,
            HeadId(s.rows, req.ns), req.key.keyId, "", "", req.tags, chained,
            req.identity.operatorId, req.identity.deployerId, req.identity.systemId)
  }

  function Signed(c: Suite, key: KeyPair, r: Receipt): Receipt
    requires Comparable(r)
  {
    var payload := Payload(c, r);
    r.(payloadSha256 := c.sha256(payload), signature := c.sign(key.secret, payload))
  }

  /** The transaction of one append, after the reserved-key check. */
  function AppendStep(c: Suite, s: State, req: Request): (State, AppendResult) {
    if RESERVED_CHAIN_KEYS * req.extra.Keys != {} then (s, ReservedKey)
    else if req.parentId.Some? && req.parentId != HeadId(s.rows, req.ns)
    then (s, NotChainHead(HeadId(s.rows, req.ns)))
    else
      var r := Signed(c, req.key, Unsigned(s, req));
      if req.fault || HasId(s.rows, r.id) then (s, RolledBack)
      else
        (s.(rows := s.rows + [Row(r, req.ns)],
            sequence := Max(s.sequence, r.id),
            keys := RecordedKey(s.keys, r.keyId, Some(c.toPem(c.publicOf(req.key.secret))), req.now)),
         Appended(r))
  }

  /** The atomic steps. Concurrent callers interleave them in any order. */
  datatype Step =
    | Append(req: Request)
    | DeleteRows(ns: string)
    | DropNamespace(ns: string)
    | AddNamespace(ns: string)
    | RecordKey(keyId: string, now: string)
    | RevokeKey(keyId: string, at: string)

  function Next(c: Suite, s: State, step: Step): State {
    match step
    case Append(req) => AppendStep(c, s, req).0
    case DeleteRows(ns) => s.(rows := Without(s.rows, ns))
    case DropNamespace(ns) => s.(namespaces := s.namespaces - {ns})
    case AddNamespace(ns) => s.(namespaces := s.namespaces + {ns})
    case RecordKey(keyId, now) => s.(keys := RecordedKey(s.keys, keyId, None, now))
    case RevokeKey(keyId, at) => s.(keys := RevokedKey(s.keys, keyId, at))
  }

  function Run(c: Suite, s: State, steps: seq<Step>): State
    decreases |steps|
  {
    if steps == [] then s else Run(c, Next(c, s, steps[0]), steps[1..])
  }

  // ---- Key material and local verification ----

  function StoredPems(keys: map<string, KeyRow>): map<string, string> {
    map id | id in keys && keys[id].pem.Some? && keys[id].pem.value != "" :: keys[id].pem.value
  }

  function RevokedIds(keys: map<string, KeyRow>): set<string> {
    set id | id in keys && keys[id].revokedAt.Some?
  }

  /** _key_material: stored PEMs, and the current key when none is stored for its id. */
  function KeyMaterial(c: Suite, s: State, current: Option<KeyPair>): map<string, string> {
    var stored := StoredPems(s.keys);
    if current.None? || current.value.keyId in stored then stored
    else stored[current.value.keyId := c.toPem(c.publicOf(current.value.secret))]
  }

  /** Stored key texts win; the current key only fills a gap. Empty texts count as missing. */
  lemma KeyMaterialMeans(c: Suite, s: State, current: Option<KeyPair>, id: string)
    ensures var stored := id in s.keys && s.keys[id].pem.Some? && s.keys[id].pem.value != "";
      var isCurrent := current.Some? && current.value.keyId == id;
      && (id in KeyMaterial(c, s, current) <==> stored || isCurrent)
      && (stored ==> KeyMaterial(c, s, current)[id] == s.keys[id].pem.value)
      && (!stored && isCurrent ==> KeyMaterial(c, s, current)[id] == c.toPem(c.publicOf(current.value.secret)))
  {
  }

  function LocalContext(c: Suite, s: State, current: Option<KeyPair>): Context {
    Context(c, KeyMaterial(c, s, current), RevokedIds(s.keys), true)
  }

  function ChainOutcome(c: Suite, s: State, current: Option<KeyPair>): Outcome {
    Verified(LocalContext(c, s, current), SelectAll(s.rows))
  }

  // ---- Invariants over runs ----

  ghost predicate IncreasingIds(rows: seq<Row>) {
    forall i, j :: 0 <= i < j < |rows| ==> rows[i].receipt.id < rows[j].receipt.id
  }

  /** Parent id and parent hash name `head`; a chain starts with neither. */
  ghost predicate LinksTo(head: Option<Receipt>, r: Receipt) {
    && r.parentId == (if head.Some? then Some(head.value.id) else None)
    && Get(r.extra, PARENT_HASH_KEY) == ExpectedParentHash(head)
  }

  /** Each row links to the newest earlier live row of its own namespace. */
  ghost predicate Linked(rows: seq<Row>) {
    rows == [] ||
    (var before, last := rows[..|rows| - 1], rows[|rows| - 1];
     Linked(before) && LinksTo(Head(before, last.ns), last.receipt))
  }

  /** The public key behind each key id, fixed for a whole run. */
  type KeyBook = map<string, PublicKey>

  ghost predicate Authentic(c: Suite, book: KeyBook, keys: map<string, KeyRow>, r: Receipt) {
    && Version(r) == Int(CHAIN_VERSION)
    && r.payloadSha256 == c.sha256(Payload(c, r))
    && r.keyId in book && c.verify(book[r.keyId], Payload(c, r), r.signature)
    && r.keyId in keys && keys[r.keyId].pem.Some?
  }

  ghost predicate PemsMatch(c: Suite, book: KeyBook, keys: map<string, KeyRow>) {
    forall id :: id in keys && keys[id].pem.Some? ==>
      && id in book && c.keyIdOf(book[id]) == id
      && keys[id].pem.value != "" && c.fromPem(keys[id].pem.value) == Some(book[id])
  }

  ghost predicate RowsInv(s: State) {
    && IncreasingIds(s.rows)
    && (forall i :: 0 <= i < |s.rows| ==> 1 <= s.rows[i].receipt.id <= s.sequence)
    && Linked(s.rows)
  }

  ghost predicate AllAuthentic(c: Suite, book: KeyBook, keys: map<string, KeyRow>, rows: seq<Row>) {
    forall row :: row in rows ==> Authentic(c, book, keys, row.receipt)
  }

  ghost predicate Inv(c: Suite, book: KeyBook, s: State) {
    RowsInv(s) && AllAuthentic(c, book, s.keys, s.rows) && PemsMatch(c, book, s.keys)
  }

  /** A signing key is listed in the book under its own id. */
  ghost predicate Admissible(c: Suite, book: KeyBook, step: Step) {
    step.Append? ==>
      var id, pk := step.req.key.keyId, c.publicOf(step.req.key.secret);
      id in book && book[id] == pk && c.keyIdOf(pk) == id
  }

  lemma {:induction false} WithoutSelects(rows: seq<Row>, ns: string)
    ensures |Without(rows, ns)| <= |rows|
    ensures forall row :: row in Without(rows, ns) <==> row in rows && row.ns != ns
  {
    if rows == [] {
    } else {
      assert rows == rows[..|rows| - 1] + [rows[|rows| - 1]];
      WithoutSelects(rows[..|rows| - 1], ns);
    }
  }

  lemma {:induction false} WithoutStaysIncreasing(rows: seq<Row>, ns: string)
    requires IncreasingIds(rows)
    ensures IncreasingIds(Without(rows, ns))
  {
    if rows == [] {
    } else {
      var before, last := rows[..|rows| - 1], rows[|rows| - 1];
      WithoutStaysIncreasing(before, ns);
      WithoutSelects(before, ns);
      var kept := Without(before, ns);
      assert Without(rows, ns) == kept + if last.ns == ns then [] else [last];
      hide Without;
      forall i | 0 <= i < |kept| ensures kept[i].receipt.id < last.receipt.id {
        assert kept[i] in before;
      }
    }
  }

  lemma WithoutKeepsTheRest(rows: seq<Row>, ns: string)
    ensures |Without(rows, ns)| <= |rows|
    ensures forall row :: row in Without(rows, ns) <==> row in rows && row.ns != ns
    ensures IncreasingIds(rows) ==> IncreasingIds(Without(rows, ns))
  {
    hide Without;
    WithoutSelects(rows, ns);
    if IncreasingIds(rows) { WithoutStaysIncreasing(rows, ns); }
  }

  lemma {:induction false} WithoutKeepsOtherChains(rows: seq<Row>, ns: string)
    ensures forall other :: other != ns ==> Head(Without(rows, ns), other) == Head(rows, other)
    ensures Linked(rows) ==> Linked(Without(rows, ns))
  {
    hide LinksTo;
    if rows == [] {
    } else {
      var before, last := rows[..|rows| - 1], rows[|rows| - 1];
      WithoutKeepsOtherChains(before, ns);
      var kept := Without(before, ns);
      if last.ns != ns {
        assert (kept + [last])[..|kept|] == kept;
      } else {
        assert Without(rows, ns) == kept;
      }
    }
  }

  lemma {:induction false} HeadPosition(rows: seq<Row>, ns: string) returns (i: nat)
    requires Head(rows, ns).Some?
    ensures i < |rows| && rows[i] == Row(Head(rows, ns).value, ns)
  {
    var before, last := rows[..|rows| - 1], rows[|rows| - 1];
    if Head(rows, ns) == Some(last.receipt) && last.ns == ns {
      return |rows| - 1;
    }
    i := HeadPosition(before, ns);
  }

  lemma LastIsHead(rows: seq<Row>)
    requires IncreasingIds(rows) && rows != []
    ensures Head(rows, rows[|rows| - 1].ns) == Some(rows[|rows| - 1].receipt)
  {
    var before, last := rows[..|rows| - 1], rows[|rows| - 1];
    if Head(before, last.ns).Some? {
      var i := HeadPosition(before, last.ns);
      assert rows[i].receipt.id < last.receipt.id;
    }
  }

  /** SELECT ... WHERE namespace = ns ORDER BY id ASC, on rows in id order. */
  function Only(rows: seq<Row>, ns: string): seq<Receipt> {
    if rows == [] then []
    else
      var last := rows[|rows| - 1];
      Only(rows[..|rows| - 1], ns) + if last.ns == ns then [last.receipt] else []
  }

  /** Each receipt names its predecessor's id and payload hash; the first names neither. */
  ghost predicate IsChain(rs: seq<Receipt>) {
    forall i :: 0 <= i < |rs| ==> LinksTo(Before(rs, i), rs[i])
  }

  lemma {:induction false} HeadIsNewest(rows: seq<Row>, ns: string)
    requires IncreasingIds(rows)
    ensures Head(rows, ns) == Before(Only(rows, ns), |Only(rows, ns)|)
    ensures forall r :: r in Only(rows, ns) ==> Row(r, ns) in rows
  {
    if rows == [] {
    } else {
      var before, last := rows[..|rows| - 1], rows[|rows| - 1];
      HeadIsNewest(before, ns);
      if last.ns == ns { LastIsHead(rows); }
    }
  }

  /** Main result: in a reached vault the live receipts of every namespace form one linked chain. */
  lemma {:induction false} NamespacesAreChains(rows: seq<Row>, ns: string)
    requires IncreasingIds(rows) && Linked(rows)
    ensures IsChain(Only(rows, ns))
  {
    hide LinksTo;
    if rows == [] {
    } else {
      var before, last := rows[..|rows| - 1], rows[|rows| - 1];
      NamespacesAreChains(before, ns);
      HeadIsNewest(before, ns);
      var rs := Only(before, ns);
      assert rs + [] == rs;
      forall i | 0 <= i < |Only(rows, ns)| ensures LinksTo(Before(Only(rows, ns), i), Only(rows, ns)[i]) {
        if i < |rs| { assert LinksTo(Before(rs, i), rs[i]); }
      }
    }
  }

  lemma SignedIsAuthentic(c: Suite, book: KeyBook, keys: map<string, KeyRow>, key: KeyPair, r: Receipt)
    requires Lawful(c) && Version(r) == Int(CHAIN_VERSION) && r.keyId == key.keyId
    requires key.keyId in book && book[key.keyId] == c.publicOf(key.secret)
    requires r.keyId in keys && keys[r.keyId].pem.Some?
    ensures Authentic(c, book, keys, Signed(c, key, r))
  {
    assert CoveredOf(Signed(c, key, r)) == CoveredOf(r);
  }

  lemma AppendedLinks(c: Suite, s: State, req: Request)
    requires AppendStep(c, s, req).1.Appended?
    ensures LinksTo(Head(s.rows, req.ns), AppendStep(c, s, req).1.receipt)
  {
    hide Head, Payload, RecordedKey, HasId, NextId;
  }

  lemma RejectedKeepsRows(c: Suite, s: State, req: Request)
    requires !AppendStep(c, s, req).1.Appended?
    ensures AppendStep(c, s, req).0 == s
  {
  }

  lemma NextIdFollowsSequence(s: State, ns: string)
    requires RowsInv(s)
    ensures NextId(s, ns) == s.sequence + 1
  {
    hide Head, Linked;
    if Head(s.rows, ns).Some? {
      var i := HeadPosition(s.rows, ns);
    }
  }

  lemma RecordingRevokesNothing(keys: map<string, KeyRow>, keyId: string, pem: Option<string>, now: string)
    ensures RevokedIds(RecordedKey(keys, keyId, pem, now)) == RevokedIds(keys)
  {
  }

  /** The tables after a successful append. */
  lemma AppendedTables(c: Suite, s: State, req: Request)
    requires RowsInv(s) && AppendStep(c, s, req).1.Appended?
    ensures var (t, result) := AppendStep(c, s, req);
      && t.rows == s.rows + [Row(result.receipt, req.ns)]
      && result.receipt.id == s.sequence + 1 == t.sequence && result.receipt.keyId == req.key.keyId
      && RevokedIds(t.keys) == RevokedIds(s.keys)
  {
    hide Head, Linked, RecordedKey, RevokedIds, HasId, Payload;
    NextIdFollowsSequence(s, req.ns);
    RecordingRevokesNothing(s.keys, req.key.keyId, Some(c.toPem(c.publicOf(req.key.secret))), req.now);
  }

  lemma AppendKeepsRowsInv(c: Suite, s: State, req: Request)
    requires RowsInv(s)
    ensures RowsInv(AppendStep(c, s, req).0)
  {
    if AppendStep(c, s, req).1.Appended? {
      AppendedTables(c, s, req);
      AppendedLinks(c, s, req);
      hide AppendStep, Head, LinksTo;
      var (t, result) := AppendStep(c, s, req);
      assert t.rows[..|s.rows|] == s.rows;
    } else {
      RejectedKeepsRows(c, s, req);
    }
  }

  lemma KeysOnlyGrow(
    c: Suite, book: KeyBook, keys: map<string, KeyRow>, later: map<string, KeyRow>, rows: seq<Row>)
    requires AllAuthentic(c, book, keys, rows)
    requires forall id :: id in keys && keys[id].pem.Some? ==> id in later && later[id].pem.Some?
    ensures AllAuthentic(c, book, later, rows)
  {
    forall row | row in rows ensures Authentic(c, book, later, row.receipt) {
      assert Authentic(c, book, keys, row.receipt);
    }
  }

  lemma AppendKeepsInv(c: Suite, book: KeyBook, s: State, req: Request)
    requires Lawful(c) && Inv(c, book, s) && Admissible(c, book, Append(req))
    ensures Inv(c, book, AppendStep(c, s, req).0)
  {
    hide Head, Linked;
    AppendKeepsRowsInv(c, s, req);
    var (t, result) := AppendStep(c, s, req);
    if result.Appended? {
      SignedIsAuthentic(c, book, t.keys, req.key, Unsigned(s, req));
      KeysOnlyGrow(c, book, s.keys, t.keys, s.rows);
    }
  }

  lemma DeletionKeepsInv(c: Suite, book: KeyBook, s: State, ns: string)
    requires Inv(c, book, s)
    ensures Inv(c, book, Next(c, s, DeleteRows(ns)))
  {
    hide Authentic, Head, Linked, Without, PemsMatch;
    WithoutKeepsTheRest(s.rows, ns);
    WithoutKeepsOtherChains(s.rows, ns);
    var kept := Without(s.rows, ns);
    forall i | 0 <= i < |kept| ensures 1 <= kept[i].receipt.id <= s.sequence {
      assert kept[i] in s.rows;
    }
  }

  lemma StepKeepsInv(c: Suite, book: KeyBook, s: State, step: Step)
    requires Lawful(c) && Inv(c, book, s) && Admissible(c, book, step)
    ensures Inv(c, book, Next(c, s, step))
  {
    hide AppendStep, Authentic, Head, Linked, Without;
    var t := Next(c, s, step);
    if step.Append? {
      AppendKeepsInv(c, book, s, step.req);
    } else if step.DeleteRows? {
      DeletionKeepsInv(c, book, s, step.ns);
    } else {
      hide RowsInv;
      KeysOnlyGrow(c, book, s.keys, t.keys, s.rows);
    }
  }

  /** Main result: every run, however interleaved, keeps the invariants. */
  lemma {:induction false} RunKeepsInv(c: Suite, book: KeyBook, s: State, steps: seq<Step>)
    requires Lawful(c) && Inv(c, book, s)
    requires forall i :: 0 <= i < |steps| ==> Admissible(c, book, steps[i])
    ensures Inv(c, book, Run(c, s, steps))
    decreases |steps|
  {
    if steps == [] {
    } else {
      StepKeepsInv(c, book, s, steps[0]);
      RunKeepsInv(c, book, Next(c, s, steps[0]), steps[1..]);
    }
  }

  /** What no step undoes: the counter, revocations, stored PEMs and creation times. */
  ghost predicate Extends(s: State, t: State) {
    && s.sequence <= t.sequence
    && forall id :: id in s.keys ==>
      && id in t.keys
      && t.keys[id].createdAt == s.keys[id].createdAt
      && (s.keys[id].revokedAt.Some? ==> t.keys[id].revokedAt.Some?)
      && (s.keys[id].pem.Some? ==> t.keys[id].pem == s.keys[id].pem)
  }

  /** A key's row is made once; later recordings only supply a PEM that was missing. */
  lemma RecordingAKey(keys: map<string, KeyRow>, keyId: string, pem: Option<string>, now: string)
    ensures var after := RecordedKey(keys, keyId, pem, now);
      && after.Keys == keys.Keys + {keyId}
      && (forall id :: id in keys && id != keyId ==> after[id] == keys[id])
      && (keyId !in keys ==> after[keyId].createdAt == now && after[keyId].revokedAt.None? && after[keyId].pem == pem)
      && (keyId in keys ==>
            && after[keyId].createdAt == keys[keyId].createdAt && after[keyId].revokedAt == keys[keyId].revokedAt
            && after[keyId].pem == if keys[keyId].pem.Some? then keys[keyId].pem else pem)
  {
  }

  /** Revoking sets the time and nothing else; an unknown key gets a row of its own. */
  lemma RevokingAKey(keys: map<string, KeyRow>, keyId: string, at: string)
    ensures var after := RevokedKey(keys, keyId, at);
      && after.Keys == keys.Keys + {keyId} && after[keyId].revokedAt == Some(at)
      && (forall id :: id in keys && id != keyId ==> after[id] == keys[id])
      && after[keyId].createdAt == (if keyId in keys then keys[keyId].createdAt else "1970-01-01T00:00:00+00:00")
      && after[keyId].pem == if keyId in keys then keys[keyId].pem else None
  {
  }

  lemma StepExtends(c: Suite, s: State, step: Step)
    ensures Extends(s, Next(c, s, step))
  {
    hide Head, Signed, Unsigned, HasId, Without;
  }

  /** Main result: what each step other than an append changes, and that it changes nothing else. */
  lemma StepsMean(c: Suite, s: State, step: Step)
    ensures var t := Next(c, s, step);
      match step
      case Append(_) => true
      case DeleteRows(ns) =>
        && t == s.(rows := t.rows) && forall row :: row in t.rows <==> row in s.rows && row.ns != ns
      case DropNamespace(ns) => t == s.(namespaces := t.namespaces) && t.namespaces == s.namespaces - {ns}
      case AddNamespace(ns) => t == s.(namespaces := t.namespaces) && t.namespaces == s.namespaces + {ns}
      case RecordKey(keyId, now) =>
        t == if keyId in s.keys then s else s.(keys := s.keys[keyId := KeyRow(now, None, None)])
      case RevokeKey(keyId, at) =>
        && t == s.(keys := t.keys) && t.keys.Keys == s.keys.Keys + {keyId} && t.keys[keyId].revokedAt == Some(at)
        && forall id :: id in s.keys && id != keyId ==> t.keys[id] == s.keys[id]
  {
    hide AppendStep, Without;
    if step.DeleteRows? { WithoutSelects(s.rows, step.ns); }
  }

  /** The names an append refuses in the caller's extra fields. */
  lemma ReservedNames(key: string)
    ensures key in RESERVED_CHAIN_KEYS <==>
      || key == "_dontlie_chain_version" || key == "_dontlie_parent_sha256" || key == "_dontlie_operator_id"
      || key == "_dontlie_deployer_id" || key == "_dontlie_system_id"
  {
  }

  lemma SelfExtends(s: State)
    ensures Extends(s, s)
  {
  }

  lemma ExtendsTwice(s: State, t: State, u: State)
    requires Extends(s, t) && Extends(t, u)
    ensures Extends(s, u)
  {
  }

  lemma {:induction false} RunExtends(c: Suite, s: State, steps: seq<Step>)
    ensures Extends(s, Run(c, s, steps))
    decreases |steps|
  {
    hide Extends, Next;
    if steps == [] {
      SelfExtends(s);
    } else {
      StepExtends(c, s, steps[0]);
      RunExtends(c, Next(c, s, steps[0]), steps[1..]);
      ExtendsTwice(s, Next(c, s, steps[0]), Run(c, s, steps));
    }
  }

  /** The ids handed out along a run, in order. */
  function Issued(c: Suite, s: State, steps: seq<Step>): seq<int>
    decreases |steps|
  {
    if steps == [] then []
    else
      var rest := Issued(c, Next(c, s, steps[0]), steps[1..]);
      if steps[0].Append? && AppendStep(c, s, steps[0].req).1.Appended?
      then [AppendStep(c, s, steps[0].req).1.receipt.id] + rest else rest
  }

  /** Main result: an id is never handed out twice, even after its receipt was deleted. */
  lemma {:induction false} IdsNeverReused(c: Suite, s: State, steps: seq<Step>)
    ensures forall k :: 0 <= k < |Issued(c, s, steps)| ==> Issued(c, s, steps)[k] > s.sequence
    ensures forall j, k :: 0 <= j < k < |Issued(c, s, steps)| ==>
      Issued(c, s, steps)[j] < Issued(c, s, steps)[k]
    decreases |steps|
  {
    if steps == [] {
    } else {
      var t := Next(c, s, steps[0]);
      IdsNeverReused(c, t, steps[1..]);
      StepExtends(c, s, steps[0]);
      hide Next, Head, Signed, HasId, RecordedKey;
    }
  }

  lemma InvRows(c: Suite, book: KeyBook, s: State)
    requires Inv(c, book, s)
    ensures RowsInv(s)
  {
    hide RowsInv, AllAuthentic, PemsMatch;
  }

  lemma FreshId(c: Suite, book: KeyBook, s: State, req: Request)
    requires Inv(c, book, s)
    ensures !HasId(s.rows, Signed(c, req.key, Unsigned(s, req)).id)
  {
    hide Payload, AllAuthentic, PemsMatch, Linked, Head;
  }

  lemma NewHeads(rows: seq<Row>, row: Row)
    requires IncreasingIds(rows + [row])
    ensures Head(rows + [row], row.ns) == Some(row.receipt)
    ensures forall ns :: ns != row.ns ==> Head(rows + [row], ns) == Head(rows, ns)
  {
    assert (rows + [row])[..|rows|] == rows;
    LastIsHead(rows + [row]);
  }

  /** In any state, reached or not: an append is rolled back exactly when something fails or its id is taken. */
  lemma RolledBackIff(c: Suite, s: State, req: Request)
    ensures AppendStep(c, s, req).1.RolledBack? <==>
      && RESERVED_CHAIN_KEYS * req.extra.Keys == {} && (req.parentId.None? || req.parentId == HeadId(s.rows, req.ns))
      && (req.fault || exists row :: row in s.rows && row.receipt.id == NextId(s, req.ns))
  {
    hide Payload, Head, HeadId, NextId, RecordedKey;
    assert Signed(c, req.key, Unsigned(s, req)).id == NextId(s, req.ns);
  }

  // ---- What an append stores ----

  /** The receipt says what the request asked for. */
  ghost predicate Carries(r: Receipt, req: Request) {
    && r.timestamp == req.now && r.model == req.model && r.prompt == req.prompt && r.response == req.response
    && r.tags == req.tags && r.keyId == req.key.keyId
    && r.operatorId == req.identity.operatorId && r.deployerId == req.identity.deployerId
    && r.systemId == req.identity.systemId
    && r.extra - {CHAIN_VERSION_KEY, PARENT_HASH_KEY} == req.extra && Version(r) == Int(3)
  }

  lemma ReservedAbsent(extra: Fields)
    requires RESERVED_CHAIN_KEYS * extra.Keys == {}
    ensures CHAIN_VERSION_KEY !in extra && PARENT_HASH_KEY !in extra
  {
    assert CHAIN_VERSION_KEY in RESERVED_CHAIN_KEYS && PARENT_HASH_KEY in RESERVED_CHAIN_KEYS;
    assert CHAIN_VERSION_KEY !in RESERVED_CHAIN_KEYS * extra.Keys && PARENT_HASH_KEY !in RESERVED_CHAIN_KEYS * extra.Keys;
  }

  lemma WithoutChainKeys(extra: Fields, version: Json, hash: Json)
    requires CHAIN_VERSION_KEY !in extra && PARENT_HASH_KEY !in extra
    ensures extra[CHAIN_VERSION_KEY := version][PARENT_HASH_KEY := hash] - {CHAIN_VERSION_KEY, PARENT_HASH_KEY} == extra
    ensures Get(extra[CHAIN_VERSION_KEY := version][PARENT_HASH_KEY := hash], CHAIN_VERSION_KEY) == version
  {
    assert CHAIN_VERSION_KEY != PARENT_HASH_KEY;
  }

  /** Main result: a successful append adds one receipt with the request's content and touches no earlier row. */
  lemma AppendedCarriesRequest(c: Suite, s: State, req: Request)
    requires AppendStep(c, s, req).1.Appended?
    ensures var (t, result) := AppendStep(c, s, req);
      && t.rows == s.rows + [Row(result.receipt, req.ns)] && Carries(result.receipt, req)
  {
    hide Payload, Head, HeadId, NextId, HasId, RecordedKey;
    ReservedAbsent(req.extra);
    WithoutChainKeys(req.extra, Int(CHAIN_VERSION), ExpectedParentHash(Head(s.rows, req.ns)));
  }

  /** The k-th step is the append that produced this row. */
  ghost predicate IssuedBy(c: Suite, s: State, steps: seq<Step>, k: nat, row: Row)
    requires k < |steps|
  {
    && steps[k].Append? && steps[k].req.ns == row.ns && Carries(row.receipt, steps[k].req)
    && AppendStep(c, Run(c, s, steps[..k]), steps[k].req).1 == Appended(row.receipt)
  }

  lemma IssuedLater(c: Suite, s: State, steps: seq<Step>, k: nat, row: Row)
    requires steps != [] && k < |steps[1..]| && IssuedBy(c, Next(c, s, steps[0]), steps[1..], k, row)
    ensures IssuedBy(c, s, steps, k + 1, row)
  {
    hide Next, AppendStep, Carries;
    assert steps[1..][k] == steps[k + 1];
    assert steps[..k + 1][1..] == steps[1..][..k] && steps[..k + 1][0] == steps[0];
  }

  lemma NextKeepsOrIssues(c: Suite, s: State, step: Step, row: Row)
    requires row in Next(c, s, step).rows
    ensures row in s.rows || (step.Append? && AppendStep(c, s, step.req).1 == Appended(row.receipt)
                              && step.req.ns == row.ns && Carries(row.receipt, step.req))
  {
    hide AppendStep, Carries, Without;
    if step.Append? {
      if AppendStep(c, s, step.req).1.Appended? {
        AppendedCarriesRequest(c, s, step.req);
      } else {
        RejectedKeepsRows(c, s, step.req);
      }
    } else if step.DeleteRows? {
      WithoutKeepsTheRest(s.rows, step.ns);
    }
  }

  /** Main result: every live row was there at the start or carries the content of the append that issued it. */
  lemma {:induction false} RowsComeFromAppends(c: Suite, s: State, steps: seq<Step>, row: Row)
    requires row in Run(c, s, steps).rows
    ensures row in s.rows || exists k :: 0 <= k < |steps| && IssuedBy(c, s, steps, k, row)
    decreases |steps|
  {
    hide Next, AppendStep, Carries;
    if steps == [] {
    } else {
      var t := Next(c, s, steps[0]);
      RowsComeFromAppends(c, t, steps[1..], row);
      if row in t.rows {
        NextKeepsOrIssues(c, s, steps[0], row);
        assert steps[..0] == [] && Run(c, s, []) == s;
        assert row !in s.rows ==> IssuedBy(c, s, steps, 0, row);
      } else {
        var k :| 0 <= k < |steps[1..]| && IssuedBy(c, t, steps[1..], k, row);
        IssuedLater(c, s, steps, k, row);
      }
    }
  }

  /** Main result: in a reached vault an append succeeds exactly under these conditions. */
  lemma AppendSucceedsIff(c: Suite, book: KeyBook, s: State, req: Request)
    requires Inv(c, book, s)
    ensures AppendStep(c, s, req).1.Appended? <==>
      && RESERVED_CHAIN_KEYS * req.extra.Keys == {}
      && (req.parentId.None? || req.parentId == HeadId(s.rows, req.ns))
      && !req.fault
    ensures !AppendStep(c, s, req).1.Appended? ==> AppendStep(c, s, req).0 == s
    ensures AppendStep(c, s, req).1.ReservedKey? <==> RESERVED_CHAIN_KEYS * req.extra.Keys != {}
    ensures AppendStep(c, s, req).1.NotChainHead? ==> AppendStep(c, s, req).1.expected == HeadId(s.rows, req.ns)
    ensures AppendStep(c, s, req).1.RolledBack? ==> req.fault
  {
    hide Signed, Unsigned, Head, RecordedKey, Inv;
    FreshId(c, book, s, req);
  }

  /** Main result: an appended receipt becomes its namespace's head and no other's. */
  lemma AppendedIsTheHead(c: Suite, book: KeyBook, s: State, req: Request)
    requires Inv(c, book, s) && AppendStep(c, s, req).1.Appended?
    ensures Head(AppendStep(c, s, req).0.rows, req.ns) == Some(AppendStep(c, s, req).1.receipt)
    ensures forall ns :: ns != req.ns ==> Head(AppendStep(c, s, req).0.rows, ns) == Head(s.rows, ns)
  {
    hide Signed, Unsigned, Head, RecordedKey, Inv, HasId;
    InvRows(c, book, s);
    AppendKeepsRowsInv(c, s, req);
    var row := Row(AppendStep(c, s, req).1.receipt, req.ns);
    assert AppendStep(c, s, req).0.rows == s.rows + [row];
    NewHeads(s.rows, row);
  }

  // ---- When local verification succeeds ----

  ghost predicate Contiguous(rows: seq<Row>) {
    forall i :: 0 <= i < |rows| ==> rows[i].receipt.id == i + 1
  }

  ghost predicate OneNamespace(rows: seq<Row>) {
    forall i, j :: 0 <= i < |rows| && 0 <= j < |rows| ==> rows[i].ns == rows[j].ns
  }

  ghost predicate NoneRevoked(s: State) {
    forall i :: 0 <= i < |s.rows| ==> s.rows[i].receipt.keyId !in RevokedIds(s.keys)
  }

  lemma {:induction false} LinkedAt(rows: seq<Row>, i: nat)
    requires Linked(rows) && i < |rows|
    ensures LinksTo(Head(rows[..i], rows[i].ns), rows[i].receipt)
  {
    if i < |rows| - 1 {
      LinkedAt(rows[..|rows| - 1], i);
      assert rows[..|rows| - 1][..i] == rows[..i];
    }
  }

  lemma SelectAllOfReached(c: Suite, book: KeyBook, s: State)
    requires Inv(c, book, s)
    ensures SelectAll(s.rows) == Receipts(s.rows)
  {
    SortOfSorted(IdLe, s.rows);
  }

  lemma ContentGoodIffNotRevoked(
    c: Suite, book: KeyBook, s: State, current: Option<KeyPair>, r: Receipt)
    requires PemsMatch(c, book, s.keys) && Authentic(c, book, s.keys, r)
    ensures ContentReasons(LocalContext(c, s, current), r) == [] <==> r.keyId !in RevokedIds(s.keys)
  {
    var ctx := LocalContext(c, s, current);
    assert ctx.keys[r.keyId] == s.keys[r.keyId].pem.value;
    assert StatusOf(ctx, r.keyId) == Loaded(book[r.keyId]);
  }

  lemma GoodParts(ctx: Context, rs: seq<Receipt>, i: nat)
    requires i < |rs| && Comparable(rs[i]) && Good(ctx, rs, i)
    ensures ContentReasons(ctx, rs[i]) == []
    ensures i > 0 ==> rs[i].parentId == Some(rs[i - 1].id)
  {
    hide ContentReasons, LinkReasons;
  }

  lemma ParentInSameNamespace(rows: seq<Row>, i: nat)
    requires IncreasingIds(rows) && Linked(rows) && 0 < i < |rows|
    requires rows[i].receipt.parentId == Some(rows[i - 1].receipt.id)
    ensures rows[i].ns == rows[i - 1].ns
  {
    hide Linked, Head;
    LinkedAt(rows, i);
    var j := HeadPosition(rows[..i], rows[i].ns);
    assert rows[j].receipt.id == rows[i - 1].receipt.id;
    assert !(j < i - 1);
  }

  lemma CleanImpliesShape(c: Suite, book: KeyBook, s: State, current: Option<KeyPair>)
    requires Inv(c, book, s) && Clean(LocalContext(c, s, current), Receipts(s.rows))
    ensures Contiguous(s.rows) && NoneRevoked(s)
    ensures forall i :: 0 <= i < |s.rows| ==> s.rows[i].ns == s.rows[0].ns
  {
    hide Good, Authentic, PemsMatch, Linked, RevokedIds;
    var ctx, rs := LocalContext(c, s, current), Receipts(s.rows);
    forall i | 0 <= i < |rs|
      ensures rs[i].id == i + 1 && rs[i].keyId !in RevokedIds(s.keys)
      ensures i > 0 ==> rs[i].parentId == Some(rs[i - 1].id)
    {
      assert Good(ctx, rs, i) && s.rows[i] in s.rows;
      CleanIds(ctx, rs, i);
      GoodParts(ctx, rs, i);
      ContentGoodIffNotRevoked(c, book, s, current, rs[i]);
    }
    var i := 0;
    while i < |rs|
      invariant 0 <= i <= |rs|
      invariant forall j :: 0 <= j < i ==> s.rows[j].ns == s.rows[0].ns
    {
      if i > 0 {
        ParentInSameNamespace(s.rows, i);
      }
      i := i + 1;
    }
  }

  lemma HeadIsPredecessor(rows: seq<Row>, i: nat)
    requires IncreasingIds(rows) && Linked(rows) && OneNamespace(rows) && i < |rows|
    ensures LinksTo(Before(Receipts(rows), i), rows[i].receipt)
  {
    hide Linked, LinksTo;
    LinkedAt(rows, i);
    if i > 0 { LastIsHead(rows[..i]); }
  }

  /** In id order, linked and authentic, a receipt has no reason against it but those of its content. */
  lemma LinkedMeansOrdered(
    c: Suite, book: KeyBook, s: State, ctx: Context, rs: seq<Receipt>, i: nat)
    requires i < |rs| && Authentic(c, book, s.keys, rs[i])
    requires forall j :: 0 <= j < |rs| ==> rs[j].id == j + 1
    requires LinksTo(Before(rs, i), rs[i])
    ensures Comparable(rs[i])
    ensures ContentReasons(ctx, rs[i]) == [] ==> Good(ctx, rs, i)
  {
    hide ContentReasons;
  }

  lemma ShapeImpliesClean(c: Suite, book: KeyBook, s: State, current: Option<KeyPair>)
    requires Inv(c, book, s) && Contiguous(s.rows) && OneNamespace(s.rows) && NoneRevoked(s)
    ensures Clean(LocalContext(c, s, current), Receipts(s.rows))
  {
    hide Authentic, RevokedIds, Linked, PemsMatch;
    var ctx, rs := LocalContext(c, s, current), Receipts(s.rows);
    forall i | 0 <= i < |rs| ensures Comparable(rs[i]) && Good(ctx, rs, i) {
      assert s.rows[i] in s.rows;
      ContentGoodIffNotRevoked(c, book, s, current, rs[i]);
      HeadIsPredecessor(s.rows, i);
      LinkedMeansOrdered(c, book, s, ctx, rs, i);
    }
  }

  /** Main result: exactly when a reached vault verifies. */
  lemma ValidIffContiguousSingleNamespaceUnrevoked(
    c: Suite, book: KeyBook, s: State, current: Option<KeyPair>)
    requires Inv(c, book, s)
    ensures Valid(LocalContext(c, s, current), SelectAll(s.rows))
      <==> Contiguous(s.rows) && OneNamespace(s.rows) && NoneRevoked(s)
  {
    SelectAllOfReached(c, book, s);
    ValidMeansClean(LocalContext(c, s, current), Receipts(s.rows));
    if Clean(LocalContext(c, s, current), Receipts(s.rows)) {
      CleanImpliesShape(c, book, s, current);
    } else if Contiguous(s.rows) && OneNamespace(s.rows) && NoneRevoked(s) {
      ShapeImpliesClean(c, book, s, current);
    }
  }

  /** The same, for every state reached from an empty vault. */
  lemma ReachedVaultValidity(
    c: Suite, book: KeyBook, steps: seq<Step>, current: Option<KeyPair>)
    requires Lawful(c)
    requires forall i :: 0 <= i < |steps| ==> Admissible(c, book, steps[i])
    ensures var s := Run(c, EMPTY_VAULT, steps);
      Valid(LocalContext(c, s, current), SelectAll(s.rows))
      <==> Contiguous(s.rows) && OneNamespace(s.rows) && NoneRevoked(s)
  {
    RunKeepsInv(c, book, EMPTY_VAULT, steps);
    ValidIffContiguousSingleNamespaceUnrevoked(c, book, Run(c, EMPTY_VAULT, steps), current);
  }

  // ---- What one append does to validity ----

  /** What holds of the rows when one more has been added. */
  lemma ShapeAfterOneMore(rows: seq<Row>, row: Row)
    ensures Contiguous(rows + [row]) <==> Contiguous(rows) && row.receipt.id == |rows| + 1
    ensures OneNamespace(rows + [row]) <==> forall i :: 0 <= i < |rows| ==> rows[i].ns == row.ns
  {
    var after := rows + [row];
    assert after[|rows|] == row;
    assert forall i :: 0 <= i < |rows| ==> after[i] == rows[i];
  }

  lemma RevokedAfterOneMore(s: State, t: State, row: Row)
    requires t.rows == s.rows + [row] && RevokedIds(t.keys) == RevokedIds(s.keys)
    ensures NoneRevoked(t) <==> NoneRevoked(s) && row.receipt.keyId !in RevokedIds(s.keys)
  {
    hide RevokedIds;
    assert t.rows[|s.rows|] == row;
    assert forall i :: 0 <= i < |s.rows| ==> t.rows[i] == s.rows[i];
  }

  /**
   * Main result: after a successful append a reached vault verifies exactly when before it no id was
   * missing, no other namespace had receipts, and no key in use, the signer's included, was revoked.
   */
  lemma ValidAfterAppendIff(c: Suite, book: KeyBook, s: State, req: Request, current: Option<KeyPair>)
    requires Lawful(c) && Inv(c, book, s) && Admissible(c, book, Append(req))
    requires AppendStep(c, s, req).1.Appended?
    ensures var t := AppendStep(c, s, req).0;
      Valid(LocalContext(c, t, current), SelectAll(t.rows)) <==>
        && Contiguous(s.rows) && s.sequence == |s.rows|
        && (forall i :: 0 <= i < |s.rows| ==> s.rows[i].ns == req.ns)
        && NoneRevoked(s) && req.key.keyId !in RevokedIds(s.keys)
  {
    InvRows(c, book, s);
    hide AppendStep, Inv, Valid, SelectAll, Contiguous, OneNamespace, NoneRevoked, RowsInv, RevokedIds, Admissible;
    var (t, result) := AppendStep(c, s, req);
    var row := Row(result.receipt, req.ns);
    AppendKeepsInv(c, book, s, req);
    AppendedTables(c, s, req);
    ValidIffContiguousSingleNamespaceUnrevoked(c, book, t, current);
    ShapeAfterOneMore(s.rows, row);
    RevokedAfterOneMore(s, t, row);
  }

  /** A request that is accepted in every reached vault. */
  ghost predicate Unobjectionable(req: Request) {
    RESERVED_CHAIN_KEYS * req.extra.Keys == {} && req.parentId.None? && !req.fault
  }

  lemma EmptyInv(c: Suite, book: KeyBook)
    ensures Inv(c, book, EMPTY_VAULT)
    ensures Contiguous(EMPTY_VAULT.rows) && NoneRevoked(EMPTY_VAULT) && RevokedIds(EMPTY_VAULT.keys) == {}
  {
  }

  /** The vault after a first receipt. */
  lemma FirstAppend(c: Suite, book: KeyBook, first: Request)
    requires Lawful(c) && Admissible(c, book, Append(first)) && Unobjectionable(first)
    ensures var (s, result) := AppendStep(c, EMPTY_VAULT, first);
      && Inv(c, book, s) && result.Appended? && result.receipt.id == 1
      && s.rows == [Row(result.receipt, first.ns)] && s.sequence == 1 && RevokedIds(s.keys) == {}
  {
    EmptyInv(c, book);
    InvRows(c, book, EMPTY_VAULT);
    AppendSucceedsIff(c, book, EMPTY_VAULT, first);
    hide AppendStep, Inv, RowsInv, RevokedIds, Admissible;
    AppendKeepsInv(c, book, EMPTY_VAULT, first);
    AppendedTables(c, EMPTY_VAULT, first);
  }

  lemma TwoSteps(c: Suite, s: State, first: Step, second: Step)
    ensures Run(c, s, [first]) == Next(c, s, first)
    ensures Run(c, s, [first, second]) == Next(c, Next(c, s, first), second)
  {
    hide Next;
    var t := Next(c, s, first);
    assert [first][1..] == [] && [first, second][1..] == [second] && [second][1..] == [];
    assert Run(c, t, [second]) == Next(c, t, second);
  }

  /** Two receipts in two namespaces: an untouched vault that does not verify. */
  lemma TwoNamespacesDoNotVerify(
    c: Suite, book: KeyBook, first: Request, second: Request, current: Option<KeyPair>)
    requires Lawful(c) && Admissible(c, book, Append(first)) && Admissible(c, book, Append(second))
    requires Unobjectionable(first) && Unobjectionable(second) && first.ns != second.ns
    ensures var s := Run(c, EMPTY_VAULT, [Append(first)]);
      && Valid(LocalContext(c, s, current), SelectAll(s.rows))
      && AppendStep(c, s, second).1.Appended?
    ensures var t := Run(c, EMPTY_VAULT, [Append(first), Append(second)]);
      !Valid(LocalContext(c, t, current), SelectAll(t.rows))
  {
    EmptyInv(c, book);
    FirstAppend(c, book, first);
    var s := AppendStep(c, EMPTY_VAULT, first).0;
    AppendSucceedsIff(c, book, s, second);
    TwoSteps(c, EMPTY_VAULT, Append(first), Append(second));
    hide AppendStep, Inv, Valid, SelectAll, Run, RevokedIds, Admissible;
    assert s.rows[0].ns == first.ns;
    ValidAfterAppendIff(c, book, EMPTY_VAULT, first, current);
    ValidAfterAppendIff(c, book, s, second, current);
  }

  lemma NothingLeft(row: Row)
    ensures Without([row], row.ns) == []
  {
    assert [row][..0] == [] && Without([], row.ns) == [];
  }

  /** After the only namespace was deleted, the next receipt gets id 2 and the vault does not verify. */
  lemma DeletionLeavesAGap(
    c: Suite, book: KeyBook, first: Request, second: Request, current: Option<KeyPair>)
    requires Lawful(c) && Admissible(c, book, Append(first)) && Admissible(c, book, Append(second))
    requires Unobjectionable(first) && Unobjectionable(second)
    ensures var s := Run(c, EMPTY_VAULT, [Append(first), DeleteRows(first.ns)]);
      && s.rows == [] && AppendStep(c, s, second).1.Appended?
      && var t := Next(c, s, Append(second));
      && |t.rows| == 1 && t.rows[0].receipt.id == 2
      && !Valid(LocalContext(c, t, current), SelectAll(t.rows))
  {
    FirstAppend(c, book, first);
    var one := AppendStep(c, EMPTY_VAULT, first).0;
    TwoSteps(c, EMPTY_VAULT, Append(first), DeleteRows(first.ns));
    DeletionKeepsInv(c, book, one, first.ns);
    var s := Next(c, one, DeleteRows(first.ns));
    NothingLeft(one.rows[0]);
    AppendSucceedsIff(c, book, s, second);
    InvRows(c, book, s);
    hide AppendStep, Inv, RowsInv, Valid, SelectAll, Run, RevokedIds, Admissible;
    AppendedTables(c, s, second);
    ValidAfterAppendIff(c, book, s, second, current);
  }

  // ---- The vault object ----

  datatype Deleted = Removed(count: nat) | DefaultIsPermanent | NotFound

  class VaultDb {
    const suite: Suite
    var rows: seq<Row>
    var sequence: nat
    var keys: map<string, KeyRow>
    var namespaces: set<string>

    constructor (suite: Suite)
      ensures this.suite == suite && Tables() == EMPTY_VAULT
    {
      this.suite := suite;
      rows, sequence, keys, namespaces := [], 0, map[], {};
    }

    function Tables(): State
      reads this
    {
      State(rows, sequence, keys, namespaces)
    }

    /** append: a fresh signing key is recorded first, best effort; then one transaction. */
    method AppendReceipt(req: Request, generated: bool, recorded: bool) returns (result: AppendResult)
      modifies this
      ensures
        var prepared := old(Tables())
          .(keys := if generated && recorded then RecordedKey(old(keys), req.key.keyId, None, req.now) else old(keys),
            namespaces := old(namespaces) + {DEFAULT_NAMESPACE});
        (Tables(), result) == AppendStep(suite, prepared, req)
    {
      hide Head, RecordedKey, HasId, Payload;
      if generated && recorded {
        keys := RecordedKey(keys, req.key.keyId, None, req.now);
      }
      namespaces := namespaces + {DEFAULT_NAMESPACE};
      if RESERVED_CHAIN_KEYS * req.extra.Keys != {} {
        return ReservedKey;
      }
      var savedRows, savedSequence, savedKeys := rows, sequence, keys;
      var last := Head(rows, req.ns);
      var expected := if last.Some? then Some(last.value.id) else None;
      if req.parentId.Some? && req.parentId != expected {
        return NotChainHead(expected);
      }
      var extra := req.extra[CHAIN_VERSION_KEY := Int(CHAIN_VERSION)];
      extra := extra[PARENT_HASH_KEY := if last.Some? then Str(last.value.payloadSha256) else Null];
      var nextId := Max(if expected.Some? then expected.value else 0, sequence) + 1;
      var r := Receipt(nextId, req.now, req.model, req.prompt, req.response, expected, req.key.keyId,
                       "", "", req.tags, extra,
                       req.identity.operatorId, req.identity.deployerId, req.identity.systemId);
      var payload := Payload(suite, r);
      r := r.(payloadSha256 := suite.sha256(payload), signature := suite.sign(req.key.secret, payload));
      keys := RecordedKey(keys, r.keyId, Some(suite.toPem(suite.publicOf(req.key.secret))), req.now);
      if HasId(rows, r.id) || req.fault {
        rows, sequence, keys := savedRows, savedSequence, savedKeys;
        return RolledBack;
      }
      rows := rows + [Row(r, req.ns)];
      sequence := Max(sequence, r.id);
      return Appended(r);
    }

    /** namespace.delete: everything stored under the name goes, nothing else does. */
    method DeleteNamespace(name: string) returns (result: Deleted)
      modifies this
      ensures result.Removed? <==> name != "default" && name in old(namespaces)
      ensures name == "default" <==> result.DefaultIsPermanent?
      ensures result.Removed? ==>
        && Tables() == Run(suite, old(Tables()).(namespaces := old(namespaces) + {"default"}),
                           [DeleteRows(name), DropNamespace(name)])
        && |rows| == |old(rows)| - result.count
        && namespaces == old(namespaces) + {"default"} - {name}
        && (forall row :: row in rows <==> row in old(rows) && row.ns != name)
        && sequence == old(sequence) && keys == old(keys)
      ensures result.DefaultIsPermanent? ==> Tables() == old(Tables())
      ensures result.NotFound? ==>
        Tables() == old(Tables()).(namespaces := old(namespaces) + {DEFAULT_NAMESPACE})
    {
      if name == DEFAULT_NAMESPACE {
        return DefaultIsPermanent;
      }
      namespaces := namespaces + {DEFAULT_NAMESPACE};
      if name !in namespaces {
        return NotFound;
      }
      var count := |rows| - |Without(rows, name)|;
      WithoutKeepsTheRest(rows, name);
      rows := Without(rows, name);
      namespaces := namespaces - {name};
      ghost var start := old(Tables()).(namespaces := old(namespaces) + {DEFAULT_NAMESPACE});
      var steps := [DeleteRows(name), DropNamespace(name)];
      assert steps[1..] == [DropNamespace(name)];
      assert Run(suite, Next(suite, start, steps[0]), steps[1..]) == Tables();
      return Removed(count);
    }

    method Revoke(keyId: string, at: string)
      modifies this`keys
      ensures Tables() == Next(suite, old(Tables()), RevokeKey(keyId, at))
      ensures keyId in keys && keys[keyId].revokedAt == Some(at)
      ensures forall id :: id in old(keys) && id != keyId ==> id in keys && keys[id] == old(keys)[id]
    {
      if keyId in keys {
        keys := keys[keyId := keys[keyId].(revokedAt := Some(at))];
      } else {
        keys := keys[keyId := KeyRow(EPOCH, Some(at), None)];
      }
    }

    /** verify_chain_report: the whole vault in id order against the stored key material. */
    method VerifyChainReport(current: Option<KeyPair>) returns (outcome: Outcome)
      ensures outcome == ChainOutcome(suite, Tables(), current)
    {
      outcome := VerifyReceipts(LocalContext(suite, Tables(), current), SelectAll(rows));
    }
  }
}
