/** The receipt log's verifier (dontlie/storage.py) and what a clean report means. */
module Chain {
  import opened Prelude
  import opened Json

  const CHAIN_VERSION_KEY := "_dontlie_chain_version"
  const PARENT_HASH_KEY := "_dontlie_parent_sha256"
  const CHAIN_VERSION := 3

  datatype Receipt = Receipt(
    id: int,
    timestamp: string,
    model: string,
    prompt: string,
    response: string,
    parentId: Option<int>,
    keyId: string,
    payloadSha256: string,
    signature: string,
    tags: seq<string>,
    extra: Fields,
    operatorId: Option<string>,
    deployerId: Option<string>,
    systemId: Option<string>)

  datatype Identity = Identity(
    operatorId: Option<string>, deployerId: Option<string>, systemId: Option<string>)

  /** The object that is serialised, hashed and signed. `identity` is present from version 3 on. */
  datatype Covered = Covered(
    id: int,
    timestamp: string,
    model: string,
    prompt: string,
    response: string,
    parentId: Option<int>,
    keyId: string,
    tags: seq<string>,
    extra: Fields,
    identity: Option<Identity>)

  datatype PublicKey = PublicKey(raw: Bytes)
  datatype SecretKey = SecretKey(seed: Bytes)

  /** The cryptographic and JSON primitives the log is built on. */
  datatype Suite = Suite(
    json: Covered -> Bytes,
    sha256: Bytes -> string,
    publicOf: SecretKey -> PublicKey,
    sign: (SecretKey, Bytes) -> string,
    verify: (PublicKey, Bytes, string) -> bool,
    keyIdOf: PublicKey -> string,
    toPem: PublicKey -> string,
    fromPem: string -> Option<PublicKey>)

  /** Canonical JSON is injective, signatures verify, PEM text loads back. Nothing is asked of sha256. */
  ghost predicate Lawful(c: Suite) {
    && (forall x, y :: c.json(x) == c.json(y) ==> x == y)
    && (forall k, m :: c.verify(c.publicOf(k), m, c.sign(k, m)))
    && (forall p :: c.fromPem(c.toPem(p)) == Some(p) && c.toPem(p) != "")
  }

  // ---- Canonical payload ----

  /** Whether Python can compare the value with an int (a bool counts as 0 or 1). */
  predicate IsNumber(j: Json) {
    j.Int? || j.Float? || j.Bool?
  }

  predicate AtLeast(j: Json, n: int)
    requires IsNumber(j)
  {
    match j
    case Int(v) => v >= n
    case Float(f) => f.num >= n * Pow2(f.scale)
    case Bool(b) => (if b then 1 else 0) >= n
  }

  /** The number a version entry denotes. */
  ghost function NumberOf(j: Json): real
    requires IsNumber(j)
  {
    match j
    case Int(v) => v as real
    case Float(f) => f.num as real / Pow2(f.scale) as real
    case Bool(b) => if b then 1.0 else 0.0
  }

  predicate Above(j: Json, n: int)
    requires IsNumber(j)
  {
    match j
    case Int(v) => v > n
    case Float(f) => f.num > n * Pow2(f.scale)
    case Bool(b) => (if b then 1 else 0) > n
  }

  lemma QuotientCompares(num: int, den: nat, n: int)
    requires den > 0
    ensures num >= n * den <==> num as real / den as real >= n as real
    ensures num > n * den <==> num as real / den as real > n as real
  {
    var q := num as real / den as real;
    assert q * den as real == num as real;
    assert (n * den) as real == n as real * den as real;
  }

  lemma ComparisonsCompareNumbers(j: Json, n: int)
    requires IsNumber(j)
    ensures AtLeast(j, n) <==> NumberOf(j) >= n as real
    ensures Above(j, n) <==> NumberOf(j) > n as real
  {
    if j.Float? {
      QuotientCompares(j.f.num, Pow2(j.f.scale), n);
    }
  }

  function Version(r: Receipt): Json {
    Get(r.extra, CHAIN_VERSION_KEY)
  }

  /** A version that is neither null nor a number makes the comparison raise TypeError. */
  predicate Comparable(r: Receipt) {
    Version(r).Null? || IsNumber(Version(r))
  }

  function CoveredOf(r: Receipt): Covered
    requires Comparable(r)
  {
    Covered(r.id, r.timestamp, r.model, r.prompt, r.response, r.parentId, r.keyId, r.tags, r.extra,
            if !Version(r).Null? && AtLeast(Version(r), 3)
            then Some(Identity(r.operatorId, r.deployerId, r.systemId)) else None)
  }

  function Payload(c: Suite, r: Receipt): Bytes
    requires Comparable(r)
  {
    c.json(CoveredOf(r))
  }

  // ---- The verifier ----

  datatype Reason =
    | MissingPrefix
    | GenesisHasParent
    | NotAfter(previous: int)
    | MissingIntermediate(previous: int)
    | ParentIdMismatch(previous: int)
    | UnsupportedVersion
    | ParentHashMismatch(expected: Json)
    | PayloadMismatch
    | KeyRevoked
    | InvalidKey
    | MissingKey
    | BadSignature
    | InvalidExport

  datatype Issue = Issue(receiptId: Option<int>, reason: Reason)

  datatype Report = Report(okCount: nat, badCount: nat, issues: seq<Issue>)

  /** A verification either returns a report or raises. */
  datatype Outcome = Raised | Done(report: Report)

  datatype Context = Context(
    suite: Suite, keys: map<string, string>, revoked: set<string>, requireGenesis: bool)

  datatype KeyStatus = Absent | Invalid | Loaded(key: PublicKey)

  function StatusOf(ctx: Context, keyId: string): KeyStatus {
    if keyId !in ctx.keys then Absent
    else match ctx.suite.fromPem(ctx.keys[keyId])
      case None => Invalid
      case Some(p) => if ctx.suite.keyIdOf(p) == keyId then Loaded(p) else Invalid
  }

  function OrderReasons(ctx: Context, previous: Option<Receipt>, r: Receipt): seq<Reason> {
    match previous
    case None =>
      (if ctx.requireGenesis && r.id != 1 then [MissingPrefix] else [])
      + (if ctx.requireGenesis && r.parentId.Some? then [GenesisHasParent] else [])
    case Some(p) =>
      (if r.id <= p.id then [NotAfter(p.id)]
       else if r.id != p.id + 1 then [MissingIntermediate(p.id)] else [])
      + (if r.parentId != Some(p.id) then [ParentIdMismatch(p.id)] else [])
  }

  function ExpectedParentHash(previous: Option<Receipt>): Json {
    match previous
    case None => Null
    case Some(p) => Str(p.payloadSha256)
  }

  function LinkReasons(ctx: Context, previous: Option<Receipt>, r: Receipt): seq<Reason>
    requires Comparable(r)
  {
    if Version(r).Null? then []
    else if Above(Version(r), CHAIN_VERSION) then [UnsupportedVersion]
    else if previous.None? && !ctx.requireGenesis && r.parentId.Some? then []
    else if Get(r.extra, PARENT_HASH_KEY) != ExpectedParentHash(previous)
    then [ParentHashMismatch(ExpectedParentHash(previous))] else []
  }

  function ContentReasons(ctx: Context, r: Receipt): seq<Reason>
    requires Comparable(r)
  {
    var payload := Payload(ctx.suite, r);
    (if ctx.suite.sha256(payload) != r.payloadSha256 then [PayloadMismatch] else [])
    + (if r.keyId in ctx.revoked then [KeyRevoked]
       else match StatusOf(ctx, r.keyId)
         case Invalid => [InvalidKey]
         case Absent => [MissingKey]
         case Loaded(p) => if ctx.suite.verify(p, payload, r.signature) then [] else [BadSignature])
  }

  function Reasons(ctx: Context, previous: Option<Receipt>, r: Receipt): seq<Reason>
    requires Comparable(r)
  {
    OrderReasons(ctx, previous, r) + LinkReasons(ctx, previous, r) + ContentReasons(ctx, r)
  }

  predicate AllComparable(rs: seq<Receipt>) {
    forall i :: 0 <= i < |rs| ==> Comparable(rs[i])
  }

  function Before(rs: seq<Receipt>, i: nat): Option<Receipt>
    requires i <= |rs|
  {
    if i == 0 then None else Some(rs[i - 1])
  }

  predicate Good(ctx: Context, rs: seq<Receipt>, i: nat)
    requires i < |rs| && Comparable(rs[i])
  {
    Reasons(ctx, Before(rs, i), rs[i]) == []
  }

  /** What the verifier finds out about one receipt. */
  datatype Finding = Finding(id: int, reasons: seq<Reason>)

  function FindingAt(ctx: Context, rs: seq<Receipt>, i: nat): Finding
    requires i < |rs| && Comparable(rs[i])
  {
    Finding(rs[i].id, Reasons(ctx, Before(rs, i), rs[i]))
  }

  function Findings(ctx: Context, rs: seq<Receipt>): seq<Finding>
    requires AllComparable(rs)
  {
    seq(|rs|, i requires 0 <= i < |rs| => FindingAt(ctx, rs, i))
  }

  function IssuesFor(f: Finding): seq<Issue> {
    seq(|f.reasons|, k requires 0 <= k < |f.reasons| => Issue(Some(f.id), f.reasons[k]))
  }

  function Extend(report: Report, f: Finding): Report {
    if f.reasons == [] then report.(okCount := report.okCount + 1)
    else report.(badCount := report.badCount + 1, issues := report.issues + IssuesFor(f))
  }

  function ReportOf(fs: seq<Finding>): Report {
    if fs == [] then Report(0, 0, []) else Extend(ReportOf(fs[..|fs| - 1]), fs[|fs| - 1])
  }

  function Verified(ctx: Context, rs: seq<Receipt>): Outcome {
    if AllComparable(rs) then Done(ReportOf(Findings(ctx, rs))) else Raised
  }

  lemma ReportGrows(fs: seq<Finding>, f: Finding)
    ensures ReportOf(fs + [f]) == Extend(ReportOf(fs), f)
  {
    assert (fs + [f])[..|fs|] == fs;
  }

  /** verify_receipts: one pass that carries the previous receipt, the counts and the issues. */
  method VerifyReceipts(ctx: Context, rs: seq<Receipt>) returns (outcome: Outcome)
    ensures outcome == Verified(ctx, rs)
  {
    hide Reasons;
    var previous: Option<Receipt> := None;
    var report := Report(0, 0, []);
    var i := 0;
    ghost var found: seq<Finding> := [];
    while i < |rs|
      invariant 0 <= i <= |rs|
      invariant forall j :: 0 <= j < i ==> Comparable(rs[j])
      invariant previous == Before(rs, i)
      invariant |found| == i && forall j :: 0 <= j < i ==> found[j] == FindingAt(ctx, rs, j)
      invariant report == ReportOf(found)
    {
      var r := rs[i];
      if !Comparable(r) {
        return Raised;
      }
      var finding := Finding(r.id, Reasons(ctx, previous, r));
      ReportGrows(found, finding);
      found, report := found + [finding], Extend(report, finding);
      previous := Some(r);
      i := i + 1;
    }
    assert AllComparable(rs) && found == Findings(ctx, rs);
    return Done(report);
  }

  // ---- What a report says, receipt by receipt ----

  /** The positions that some issue is about. */
  ghost function BadIn(fs: seq<Finding>): set<int> {
    set i | 0 <= i < |fs| && fs[i].reasons != []
  }

  ghost predicate IsAbout(issue: Issue, f: Finding) {
    issue.receiptId == Some(f.id) && issue.reason in f.reasons
  }

  lemma BadInGrows(fs: seq<Finding>)
    requires fs != []
    ensures var last := |fs| - 1;
      && last !in BadIn(fs[..last])
      && BadIn(fs) == BadIn(fs[..last]) + if fs[last].reasons == [] then {} else {last}
  {
  }

  lemma {:induction false} ReportCounts(fs: seq<Finding>)
    ensures ReportOf(fs).badCount == |BadIn(fs)|
    ensures ReportOf(fs).okCount + ReportOf(fs).badCount == |fs|
  {
    if fs == [] {
    } else {
      var last := |fs| - 1;
      ReportCounts(fs[..last]);
      BadInGrows(fs);
      hide BadIn;
    }
  }

  /** Every issue is a reason against some receipt, and every reason is reported. */
  lemma {:induction false} ReportIssues(fs: seq<Finding>, issue: Issue)
    ensures issue in ReportOf(fs).issues <==> exists f :: f in fs && IsAbout(issue, f)
  {
    if fs == [] {
    } else {
      var last := fs[|fs| - 1];
      ReportIssues(fs[..|fs| - 1], issue);
      assert fs == fs[..|fs| - 1] + [last];
      assert issue in IssuesFor(last) <==> IsAbout(issue, last) by {
        if IsAbout(issue, last) {
          var k :| 0 <= k < |last.reasons| && last.reasons[k] == issue.reason;
          assert IssuesFor(last)[k] == issue;
        }
      }
    }
  }

  ghost predicate Clean(ctx: Context, rs: seq<Receipt>) {
    AllComparable(rs) && forall i :: 0 <= i < |rs| ==> Good(ctx, rs, i)
  }

  ghost predicate Valid(ctx: Context, rs: seq<Receipt>) {
    Verified(ctx, rs).Done? && Verified(ctx, rs).report.badCount == 0
  }

  /** `valid` holds exactly when no receipt has a reason against it. */
  lemma ValidMeansClean(ctx: Context, rs: seq<Receipt>)
    ensures Valid(ctx, rs) <==> Clean(ctx, rs)
  {
    if AllComparable(rs) {
      var fs := Findings(ctx, rs);
      ReportCounts(fs);
      assert forall i :: 0 <= i < |rs| ==> (Good(ctx, rs, i) <==> fs[i].reasons == []);
      assert BadIn(fs) == {} <==> Clean(ctx, rs) by {
        if BadIn(fs) == {} {
          forall i | 0 <= i < |rs| ensures Good(ctx, rs, i) {
            assert i !in BadIn(fs);
          }
        }
      }
    }
  }

  // ---- What each reason says ----

  /** The key stored under an id, when its text loads and it has that id. */
  ghost function LoadedKey(ctx: Context, keyId: string): Option<PublicKey>
    requires keyId in ctx.keys
  {
    var key := ctx.suite.fromPem(ctx.keys[keyId]);
    if key.Some? && ctx.suite.keyIdOf(key.value) == keyId then key else None
  }

  /** The condition under which a reason is brought against a receipt. */
  ghost predicate Applies(ctx: Context, previous: Option<Receipt>, r: Receipt, reason: Reason)
    requires Comparable(r)
  {
    var version, attached := Version(r), previous.Some? || ctx.requireGenesis || r.parentId.None?;
    match reason
    case MissingPrefix => previous.None? && ctx.requireGenesis && r.id != 1
    case GenesisHasParent => previous.None? && ctx.requireGenesis && r.parentId.Some?
    case NotAfter(id) => previous.Some? && previous.value.id == id && r.id <= id
    case MissingIntermediate(id) => previous.Some? && previous.value.id == id && r.id > id + 1
    case ParentIdMismatch(id) => previous.Some? && previous.value.id == id && r.parentId != Some(id)
    case UnsupportedVersion => !version.Null? && Above(version, 3)
    case ParentHashMismatch(hash) =>
      && !version.Null? && !Above(version, 3) && attached && Get(r.extra, PARENT_HASH_KEY) != hash
      && hash == (if previous.Some? then Str(previous.value.payloadSha256) else Null)
    case PayloadMismatch => r.payloadSha256 != ctx.suite.sha256(Payload(ctx.suite, r))
    case KeyRevoked => r.keyId in ctx.revoked
    case MissingKey => r.keyId !in ctx.revoked && r.keyId !in ctx.keys
    case InvalidKey => r.keyId !in ctx.revoked && r.keyId in ctx.keys && LoadedKey(ctx, r.keyId).None?
    case BadSignature =>
      && r.keyId !in ctx.revoked && r.keyId in ctx.keys && LoadedKey(ctx, r.keyId).Some?
      && !ctx.suite.verify(LoadedKey(ctx, r.keyId).value, Payload(ctx.suite, r), r.signature)
    case InvalidExport => false
  }

  lemma OrderReasonIff(ctx: Context, previous: Option<Receipt>, r: Receipt, reason: Reason)
    requires Comparable(r)
    ensures reason in OrderReasons(ctx, previous, r) <==>
      && (reason.MissingPrefix? || reason.GenesisHasParent? || reason.NotAfter? || reason.MissingIntermediate?
          || reason.ParentIdMismatch?)
      && Applies(ctx, previous, r, reason)
  {
    hide Payload, Comparable;
  }

  lemma LinkReasonIff(ctx: Context, previous: Option<Receipt>, r: Receipt, reason: Reason)
    requires Comparable(r)
    ensures reason in LinkReasons(ctx, previous, r) <==>
      (reason.UnsupportedVersion? || reason.ParentHashMismatch?) && Applies(ctx, previous, r, reason)
  {
    hide Payload;
  }

  lemma ContentReasonIff(ctx: Context, previous: Option<Receipt>, r: Receipt, reason: Reason)
    requires Comparable(r)
    ensures reason in ContentReasons(ctx, r) <==>
      && (reason.PayloadMismatch? || reason.KeyRevoked? || reason.InvalidKey? || reason.MissingKey?
          || reason.BadSignature?)
      && Applies(ctx, previous, r, reason)
  {
    hide Payload, Comparable;
  }

  lemma NoInvalidExport(ctx: Context, previous: Option<Receipt>, r: Receipt)
    requires Comparable(r)
    ensures !Applies(ctx, previous, r, InvalidExport)
  {
  }

  /** Main result: a reason is brought against a receipt exactly when its condition holds. */
  lemma ReasonIff(ctx: Context, previous: Option<Receipt>, r: Receipt, reason: Reason)
    requires Comparable(r)
    ensures reason in Reasons(ctx, previous, r) <==> Applies(ctx, previous, r, reason)
  {
    hide OrderReasons, LinkReasons, ContentReasons, Applies, Comparable;
    OrderReasonIff(ctx, previous, r, reason);
    LinkReasonIff(ctx, previous, r, reason);
    ContentReasonIff(ctx, previous, r, reason);
    NoInvalidExport(ctx, previous, r);
  }

  /** How many issues the findings before the i-th make. */
  ghost function IssuesBefore(fs: seq<Finding>, i: nat): nat
    requires i <= |fs|
  {
    if i == 0 then 0 else IssuesBefore(fs, i - 1) + |fs[i - 1].reasons|
  }

  lemma {:induction false} IssuesBeforePrefix(fs: seq<Finding>, more: seq<Finding>, i: nat)
    requires i <= |fs|
    ensures IssuesBefore(fs + more, i) == IssuesBefore(fs, i)
  {
    if i == 0 {
    } else {
      IssuesBeforePrefix(fs, more, i - 1);
    }
  }

  lemma {:induction false} ReportLength(fs: seq<Finding>)
    ensures |ReportOf(fs).issues| == IssuesBefore(fs, |fs|)
  {
    if fs == [] {
    } else {
      var before, last := fs[..|fs| - 1], fs[|fs| - 1];
      ReportLength(before);
      assert fs == before + [last];
      IssuesBeforePrefix(before, [last], |before|);
    }
  }

  lemma {:induction false} IssuesBeforeGrows(fs: seq<Finding>, i: nat, j: nat)
    requires i <= j <= |fs|
    ensures IssuesBefore(fs, i) <= IssuesBefore(fs, j)
  {
    if i == j {
    } else {
      IssuesBeforeGrows(fs, i, j - 1);
    }
  }

  /** Main result: issues come in the order of the receipts, and for one receipt in the order of its reasons. */
  lemma {:induction false} IssueAt(fs: seq<Finding>, i: nat, k: nat)
    requires i < |fs| && k < |fs[i].reasons|
    ensures IssuesBefore(fs, i) + k < |ReportOf(fs).issues|
    ensures ReportOf(fs).issues[IssuesBefore(fs, i) + k] == Issue(Some(fs[i].id), fs[i].reasons[k])
  {
    var before, last := fs[..|fs| - 1], fs[|fs| - 1];
    assert fs == before + [last];
    ReportLength(before);
    IssuesBeforePrefix(before, [last], if i < |before| then i else |before|);
    ReportLength(fs);
    IssuesBeforeGrows(fs, i + 1, |fs|);
    if i < |before| {
      IssueAt(before, i, k);
    }
  }

  // ---- What a clean receipt is, without reference to the order of the checks ----

  /** The receipt stands right behind its predecessor; with no predecessor, at the start if one is required. */
  ghost predicate InPlace(ctx: Context, previous: Option<Receipt>, r: Receipt) {
    if previous.Some? then r.id == previous.value.id + 1 && r.parentId == Some(previous.value.id)
    else ctx.requireGenesis ==> r.id == 1 && r.parentId.None?
  }

  /** A versioned receipt names its predecessor's payload hash; only a fragment's first may name another. */
  ghost predicate NamesPredecessor(ctx: Context, previous: Option<Receipt>, r: Receipt)
    requires Comparable(r)
  {
    !Version(r).Null? ==>
      && !Above(Version(r), CHAIN_VERSION)
      && (Get(r.extra, PARENT_HASH_KEY) == ExpectedParentHash(previous)
          || (previous.None? && !ctx.requireGenesis && r.parentId.Some?))
  }

  /** The stored hash is that of the payload, and an unrevoked known key signed the payload. */
  ghost predicate Attested(ctx: Context, r: Receipt)
    requires Comparable(r)
  {
    var payload := Payload(ctx.suite, r);
    && r.payloadSha256 == ctx.suite.sha256(payload)
    && r.keyId in ctx.keys && r.keyId !in ctx.revoked
    && exists key :: ctx.suite.fromPem(ctx.keys[r.keyId]) == Some(key)
         && ctx.suite.keyIdOf(key) == r.keyId && ctx.suite.verify(key, payload, r.signature)
  }

  ghost predicate SoundChain(ctx: Context, rs: seq<Receipt>) {
    forall i :: 0 <= i < |rs| ==>
      && Comparable(rs[i])
      && InPlace(ctx, Before(rs, i), rs[i]) && NamesPredecessor(ctx, Before(rs, i), rs[i]) && Attested(ctx, rs[i])
  }

  lemma NoOrderReasons(ctx: Context, previous: Option<Receipt>, r: Receipt)
    ensures OrderReasons(ctx, previous, r) == [] <==> InPlace(ctx, previous, r)
  {
  }

  lemma NoLinkReasons(ctx: Context, previous: Option<Receipt>, r: Receipt)
    requires Comparable(r)
    ensures LinkReasons(ctx, previous, r) == [] <==> NamesPredecessor(ctx, previous, r)
  {
  }

  lemma NoContentReasons(ctx: Context, r: Receipt)
    requires Comparable(r)
    ensures ContentReasons(ctx, r) == [] <==> Attested(ctx, r)
  {
    hide Payload;
  }

  /** Main result: exactly which lists the verifier calls valid. */
  lemma ValidIffSoundChain(ctx: Context, rs: seq<Receipt>)
    ensures Valid(ctx, rs) <==> SoundChain(ctx, rs)
  {
    hide Valid, OrderReasons, LinkReasons, ContentReasons, InPlace, NamesPredecessor, Attested;
    ValidMeansClean(ctx, rs);
    forall i | 0 <= i < |rs| && Comparable(rs[i])
      ensures Good(ctx, rs, i) <==>
        InPlace(ctx, Before(rs, i), rs[i]) && NamesPredecessor(ctx, Before(rs, i), rs[i]) && Attested(ctx, rs[i])
    {
      NoOrderReasons(ctx, Before(rs, i), rs[i]);
      NoLinkReasons(ctx, Before(rs, i), rs[i]);
      NoContentReasons(ctx, rs[i]);
    }
  }

  /** Exactly the receipt at position k is reported bad. */
  ghost predicate FlagsOnly(ctx: Context, rs: seq<Receipt>, k: nat) {
    && AllComparable(rs)
    && BadIn(Findings(ctx, rs)) == {k}
    && Verified(ctx, rs).report.badCount == 1
    && Verified(ctx, rs).report.okCount == |rs| - 1
  }

  lemma OneBad(ctx: Context, rs: seq<Receipt>, k: nat)
    requires AllComparable(rs) && k < |rs| && !Good(ctx, rs, k)
    requires forall i :: 0 <= i < |rs| && i != k ==> Good(ctx, rs, i)
    ensures FlagsOnly(ctx, rs, k)
  {
    hide Reasons, ReportOf;
    var fs := Findings(ctx, rs);
    assert forall i :: 0 <= i < |rs| ==> (Good(ctx, rs, i) <==> fs[i].reasons == []);
    assert BadIn(fs) == {k};
    ReportCounts(fs);
  }

  // ---- The tip hash commits to the whole history ----

  ghost predicate Versioned(rs: seq<Receipt>) {
    forall i :: 0 <= i < |rs| ==> !Version(rs[i]).Null?
  }

  /** Different payload bytes with one SHA-256. */
  ghost predicate Collide(c: Suite, a: Receipt, b: Receipt) {
    && Comparable(a) && Comparable(b)
    && Payload(c, a) != Payload(c, b)
    && c.sha256(Payload(c, a)) == c.sha256(Payload(c, b))
  }

  /** Two receipts, one from each list, with different payload bytes and one SHA-256. */
  ghost predicate Collision(c: Suite, a: seq<Receipt>, b: seq<Receipt>) {
    exists i, j :: 0 <= i < |a| && 0 <= j < |b| && Collide(c, a[i], b[j])
  }

  /** The two receipts agree on every signed field; the identity fields are signed from version 3 on. */
  ghost predicate AgreeOnSigned(a: Receipt, b: Receipt) {
    && Comparable(a) && Comparable(b)
    && a.id == b.id && a.timestamp == b.timestamp && a.model == b.model
    && a.prompt == b.prompt && a.response == b.response
    && a.parentId == b.parentId && a.keyId == b.keyId && a.tags == b.tags && a.extra == b.extra
    && (!Version(a).Null? && AtLeast(Version(a), 3) ==>
          a.operatorId == b.operatorId && a.deployerId == b.deployerId && a.systemId == b.systemId)
  }

  /** Main result: two receipts are signed as the same bytes exactly when they agree on every signed field. */
  lemma SamePayloadIff(c: Suite, a: Receipt, b: Receipt)
    requires Lawful(c) && Comparable(a) && Comparable(b)
    ensures Payload(c, a) == Payload(c, b) <==> AgreeOnSigned(a, b)
  {
    hide AtLeast;
  }

  lemma {:induction false} CleanIds(ctx: Context, rs: seq<Receipt>, i: nat)
    requires ctx.requireGenesis && Clean(ctx, rs) && i < |rs|
    ensures rs[i].id == i + 1
  {
    assert Good(ctx, rs, i);
    if i == 0 {
    } else {
      CleanIds(ctx, rs, i - 1);
    }
  }

  lemma EqualHashMeansEqualCovered(
    c: Suite, ctxA: Context, ctxB: Context, a: seq<Receipt>, b: seq<Receipt>, i: nat, j: nat)
    requires Lawful(c) && ctxA.suite == c && ctxB.suite == c
    requires Clean(ctxA, a) && Clean(ctxB, b) && i < |a| && j < |b|
    requires a[i].payloadSha256 == b[j].payloadSha256
    requires !Collision(c, a, b)
    ensures AgreeOnSigned(a[i], b[j])
  {
    assert Good(ctxA, a, i) && Good(ctxB, b, j);
    assert c.sha256(Payload(c, a[i])) == c.sha256(Payload(c, b[j]));
    SamePayloadIff(c, a[i], b[j]);
  }

  lemma NamesPrevious(ctx: Context, rs: seq<Receipt>, n: nat)
    requires Clean(ctx, rs) && Versioned(rs) && 0 < n < |rs|
    ensures Get(rs[n].extra, PARENT_HASH_KEY) == Str(rs[n - 1].payloadSha256)
  {
    hide OrderReasons, ContentReasons;
    assert Good(ctx, rs, n);
  }

  lemma {:induction false} HistoriesAgreeUpTo(
    c: Suite, ctxA: Context, ctxB: Context, a: seq<Receipt>, b: seq<Receipt>, n: nat)
    requires Lawful(c) && ctxA.suite == c && ctxB.suite == c
    requires ctxA.requireGenesis && ctxB.requireGenesis
    requires Clean(ctxA, a) && Clean(ctxB, b) && Versioned(a) && Versioned(b)
    requires n < |a| && n < |b| && a[n].payloadSha256 == b[n].payloadSha256
    requires !Collision(c, a, b)
    ensures forall i :: 0 <= i <= n ==> AgreeOnSigned(a[i], b[i])
  {
    hide Good, Collision;
    EqualHashMeansEqualCovered(c, ctxA, ctxB, a, b, n, n);
    if n == 0 {
    } else {
      NamesPrevious(ctxA, a, n);
      NamesPrevious(ctxB, b, n);
      HistoriesAgreeUpTo(c, ctxA, ctxB, a, b, n - 1);
    }
  }

  lemma CleanHistoriesAgree(
    c: Suite, ctxA: Context, ctxB: Context, a: seq<Receipt>, b: seq<Receipt>)
    requires Lawful(c) && ctxA.suite == c && ctxB.suite == c
    requires ctxA.requireGenesis && ctxB.requireGenesis
    requires a != [] && b != [] && Clean(ctxA, a) && Clean(ctxB, b) && Versioned(a) && Versioned(b)
    requires a[|a| - 1].payloadSha256 == b[|b| - 1].payloadSha256
    requires !Collision(c, a, b)
    ensures |a| == |b| && forall i :: 0 <= i < |a| ==> AgreeOnSigned(a[i], b[i])
  {
    EqualHashMeansEqualCovered(c, ctxA, ctxB, a, b, |a| - 1, |b| - 1);
    CleanIds(ctxA, a, |a| - 1);
    CleanIds(ctxB, b, |b| - 1);
    HistoriesAgreeUpTo(c, ctxA, ctxB, a, b, |a| - 1);
  }

  /** Main result: one last payload hash, one history, unless SHA-256 collides inside the lists. */
  lemma TipHashCommitsToHistory(
    c: Suite, ctxA: Context, ctxB: Context, a: seq<Receipt>, b: seq<Receipt>)
    requires Lawful(c) && ctxA.suite == c && ctxB.suite == c
    requires ctxA.requireGenesis && ctxB.requireGenesis
    requires a != [] && b != [] && Valid(ctxA, a) && Valid(ctxB, b) && Versioned(a) && Versioned(b)
    requires a[|a| - 1].payloadSha256 == b[|b| - 1].payloadSha256
    ensures Collision(c, a, b)
      || (|a| == |b| && forall i :: 0 <= i < |a| ==> AgreeOnSigned(a[i], b[i]))
  {
    ValidMeansClean(ctxA, a);
    ValidMeansClean(ctxB, b);
    if !Collision(c, a, b) {
      CleanHistoriesAgree(c, ctxA, ctxB, a, b);
    }
  }

  // ---- Edits are localised ----

  /** Two predecessors that a successor cannot tell apart. */
  ghost predicate SameTip(a: Option<Receipt>, b: Option<Receipt>) {
    a == b || (a.Some? && b.Some? && a.value.id == b.value.id && a.value.payloadSha256 == b.value.payloadSha256)
  }

  lemma SameTipSameVerdict(ctx: Context, rs: seq<Receipt>, i: nat, ts: seq<Receipt>, j: nat)
    requires i < |rs| && j < |ts| && Comparable(rs[i]) && ts[j] == rs[i]
    requires SameTip(Before(rs, i), Before(ts, j))
    ensures Good(ctx, ts, j) <==> Good(ctx, rs, i)
  {
    hide ContentReasons;
  }

  lemma WrongHashIsBad(ctx: Context, rs: seq<Receipt>, i: nat)
    requires i < |rs| && Comparable(rs[i])
    requires ctx.suite.sha256(Payload(ctx.suite, rs[i])) != rs[i].payloadSha256
    ensures !Good(ctx, rs, i)
  {
    hide OrderReasons, LinkReasons, Payload;
    assert ContentReasons(ctx, rs[i])[0] == PayloadMismatch;
  }

  lemma GoodHash(ctx: Context, rs: seq<Receipt>, i: nat)
    requires i < |rs| && Comparable(rs[i]) && Good(ctx, rs, i)
    ensures ctx.suite.sha256(Payload(ctx.suite, rs[i])) == rs[i].payloadSha256
  {
    hide OrderReasons, LinkReasons, Payload;
  }

  lemma WrongOrderIsBad(ctx: Context, rs: seq<Receipt>, i: nat)
    requires i < |rs| && Comparable(rs[i]) && OrderReasons(ctx, Before(rs, i), rs[i]) != []
    ensures !Good(ctx, rs, i)
  {
    hide OrderReasons, LinkReasons, ContentReasons;
  }

  lemma NotComparableRaises(ctx: Context, rs: seq<Receipt>, k: nat)
    requires k < |rs| && !Comparable(rs[k])
    ensures Verified(ctx, rs) == Raised
  {
    assert !AllComparable(rs);
  }

  /**
   * Main result: changing a covered field of one receipt flags that receipt and no other. A version
   * entry that cannot be compared with a number makes the verifier raise instead.
   */
  lemma EditFlagsExactlyTheEdited(ctx: Context, rs: seq<Receipt>, k: nat, edited: Receipt)
    requires Lawful(ctx.suite) && Clean(ctx, rs) && k < |rs|
    requires edited.id == rs[k].id && edited.payloadSha256 == rs[k].payloadSha256
    requires !AgreeOnSigned(edited, rs[k])
    ensures if !Comparable(edited) then Verified(ctx, rs[k := edited]) == Raised
      else Collide(ctx.suite, edited, rs[k]) || FlagsOnly(ctx, rs[k := edited], k)
  {
    hide Good, AgreeOnSigned, Payload, Comparable, FlagsOnly, Verified;
    var after := rs[k := edited];
    if !Comparable(edited) {
      NotComparableRaises(ctx, after, k);
    } else if !Collide(ctx.suite, edited, rs[k]) {
      SamePayloadIff(ctx.suite, edited, rs[k]);
      GoodHash(ctx, rs, k);
      WrongHashIsBad(ctx, after, k);
      forall i | 0 <= i < |after| && i != k ensures Comparable(after[i]) && Good(ctx, after, i) {
        SameTipSameVerdict(ctx, rs, i, after, i);
      }
      OneBad(ctx, after, k);
    }
  }

  lemma GoodInPlace(ctx: Context, rs: seq<Receipt>, i: nat)
    requires i < |rs| && Comparable(rs[i]) && Good(ctx, rs, i)
    ensures InPlace(ctx, Before(rs, i), rs[i])
  {
    hide LinkReasons, ContentReasons;
  }

  /** In a fragment nothing is required of what the first receipt links to. */
  lemma FragmentMayStartAnywhere(ctx: Context, rs: seq<Receipt>, i: nat, ts: seq<Receipt>)
    requires !ctx.requireGenesis && 0 < i < |rs| && ts != [] && ts[0] == rs[i]
    requires Comparable(rs[i]) && Good(ctx, rs, i)
    ensures Good(ctx, ts, 0)
  {
    hide ContentReasons;
  }

  /**
   * Main result: removing a receipt that is not the last flags its successor and no other. Only the
   * first receipt of a fragment, where no genesis is required, can go unnoticed.
   */
  lemma RemovalFlagsExactlyTheSuccessor(ctx: Context, rs: seq<Receipt>, k: nat)
    requires Clean(ctx, rs) && k + 1 < |rs|
    ensures if ctx.requireGenesis || k > 0 then FlagsOnly(ctx, rs[..k] + rs[k + 1..], k)
      else Clean(ctx, rs[..k] + rs[k + 1..])
  {
    hide Good, Comparable, FlagsOnly;
    var after := rs[..k] + rs[k + 1..];
    forall i | 0 <= i < |after| ensures after[i] == rs[if i < k then i else i + 1] {
    }
    forall i | 0 <= i < |after| && i != k ensures Good(ctx, after, i) {
      SameTipSameVerdict(ctx, rs, if i < k then i else i + 1, after, i);
    }
    GoodInPlace(ctx, rs, k);
    GoodInPlace(ctx, rs, k + 1);
    if ctx.requireGenesis || k > 0 {
      WrongOrderIsBad(ctx, after, k);
      OneBad(ctx, after, k);
    } else {
      FragmentMayStartAnywhere(ctx, rs, 1, after);
    }
  }

  lemma PrefixStaysValid(ctx: Context, rs: seq<Receipt>, n: nat)
    requires Clean(ctx, rs) && n <= |rs|
    ensures Clean(ctx, rs[..n])
  {
    forall i | 0 <= i < n ensures Good(ctx, rs[..n], i) {
      assert Good(ctx, rs, i);
      assert Before(rs[..n], i) == Before(rs, i);
    }
  }
}
