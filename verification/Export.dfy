/** Verification bundles: writing one from a vault and verifying it elsewhere. */
module Export {
  import opened Prelude
  import opened Json
  import opened Chain
  import opened Vault

  const BUNDLE_FORMAT := "dontlie-verification-bundle"

  /** Python's str() on a JSON value and int() on a text. */
  datatype Builtins = Builtins(str: Json -> string, parseInt: string -> Option<int>)

  ghost predicate StrKeepsText(b: Builtins) {
    forall s :: b.str(Str(s)) == s
  }

  /** Malformed input is reported as an invalid export; anything else escapes as an exception. */
  datatype Parsed<+T> = Parsed(value: T) | Malformed | Crashed

  // ---- Writing ----

  /** dataclasses.asdict of a receipt. */
  function AsDict(r: Receipt): Json {
    Obj(map[
      "id" := Int(r.id),
      "timestamp" := Str(r.timestamp),
      "model" := Str(r.model),
      "prompt" := Str(r.prompt),
      "response" := Str(r.response),
      "parent_id" := (if r.parentId.Some? then Int(r.parentId.value) else Null),
      "key_id" := Str(r.keyId),
      "payload_sha256" := Str(r.payloadSha256),
      "signature" := Str(r.signature),
      "tags" := StrArr(r.tags),
      "extra" := Obj(r.extra),
      "operator_id" := OptStr(r.operatorId),
      "deployer_id" := OptStr(r.deployerId),
      "system_id" := OptStr(r.systemId)])
  }

  function AsDicts(rs: seq<Receipt>): (items: seq<Json>)
    ensures |items| == |rs|
  {
    if rs == [] then [] else [AsDict(rs[0])] + AsDicts(rs[1..])
  }

  ghost function Listed(ids: set<string>): (texts: seq<string>)
    ensures forall id :: id in texts <==> id in ids
  {
    if ids == {} then []
    else
      var id :| id in ids;
      [id] + Listed(ids - {id})
  }

  ghost function ExportBundle(c: Suite, s: State, current: Option<KeyPair>): Json {
    var keys := KeyMaterial(c, s, current);
    Obj(map[
      "format" := Str(BUNDLE_FORMAT),
      "version" := Int(1),
      "public_keys" := Obj(map id | id in keys :: Str(keys[id])),
      "revoked_key_ids" := StrArr(Listed(RevokedIds(s.keys))),
      "receipts" := Arr(AsDicts(SelectAll(s.rows)))])
  }

  // ---- Reading ----

  function ExportInt(b: Builtins, value: Json): Option<int> {
    match value
    case Int(n) => Some(n)
    case Str(text) => b.parseInt(text)
    case _ => None
  }

  const REQUIRED_FIELDS :=
    {"id", "timestamp", "model", "prompt", "response", "key_id", "payload_sha256", "signature"}

  /** _receipt_from_mapping: the three identity fields are not read back. */
  function ReceiptFromMapping(b: Builtins, value: Json): Parsed<Receipt> {
    if !value.Obj? then Crashed
    else
      var f := value.fields;
      var tags := if "tags" in f then f["tags"] else Arr([]);
      var extra := if "extra" in f then f["extra"] else Obj(map[]);
      if !IsStrArr(tags) || !extra.Obj? || !(REQUIRED_FIELDS <= f.Keys) then Malformed
      else
        var id := ExportInt(b, f["id"]);
        var parent := Get(f, "parent_id");
        var parentId := if parent.Null? then None else ExportInt(b, parent);
        if id.None? || (!parent.Null? && parentId.None?) then Malformed
        else Parsed(Receipt(
          id.value, b.str(f["timestamp"]), b.str(f["model"]), b.str(f["prompt"]), b.str(f["response"]),
          parentId, b.str(f["key_id"]), b.str(f["payload_sha256"]), b.str(f["signature"]),
          Texts(tags), extra.fields, None, None, None))
  }

  function ReceiptsFrom(b: Builtins, items: seq<Json>): Parsed<seq<Receipt>> {
    if items == [] then Parsed([])
    else match ReceiptFromMapping(b, items[0])
      case Malformed => Malformed
      case Crashed => Crashed
      case Parsed(r) =>
        match ReceiptsFrom(b, items[1..])
        case Malformed => Malformed
        case Crashed => Crashed
        case Parsed(rest) => Parsed([r] + rest)
  }

  predicate EqualsOne(j: Json) {
    match j
    case Int(n) => n == 1
    case Float(f) => f == Binary(1, 0)
    case Bool(b) => b
    case _ => false
  }

  const INVALID_EXPORT := Done(Report(0, 1, [Issue(None, InvalidExport)]))

  function VerifyParsed(
    c: Suite, parsed: Parsed<seq<Receipt>>, keys: map<string, string>, revoked: set<string>): Outcome
  {
    match parsed
    case Crashed => Raised
    case Malformed => INVALID_EXPORT
    case Parsed(rs) => Verified(Context(c, keys, revoked, true), rs)
  }

  /**
   * verify_export. `document` is the text parsed as one JSON value, `lines` its non-blank lines
   * parsed one by one; None stands for a JSON syntax error.
   */
  function VerifyExport(
    b: Builtins, c: Suite, document: Option<Json>, lines: Option<seq<Json>>,
    publicKeys: Option<map<string, string>>, revokedIds: set<string>): Outcome
  {
    if document.Some? && document.value.Obj? && Get(document.value.fields, "format") == Str(BUNDLE_FORMAT) then
      var f := document.value.fields;
      var receipts, keys := Get(f, "receipts"), Get(f, "public_keys");
      var revoked := if "revoked_key_ids" in f then f["revoked_key_ids"] else Arr([]);
      if !EqualsOne(Get(f, "version")) || !receipts.Arr? || !keys.Obj? || !revoked.Arr?
      then INVALID_EXPORT
      else
        var embedded := map id | id in keys.fields :: b.str(keys.fields[id]);
        VerifyParsed(c, ReceiptsFrom(b, receipts.items),
                     if publicKeys.Some? then publicKeys.value else embedded,
                     (set j | j in revoked.items :: b.str(j)) + revokedIds)
    else if lines.None? then INVALID_EXPORT
    else VerifyParsed(c, ReceiptsFrom(b, lines.value),
                      if publicKeys.Some? then publicKeys.value else map[], revokedIds)
  }

  // ---- The export against the vault ----

  function Strip(r: Receipt): Receipt {
    r.(operatorId := None, deployerId := None, systemId := None)
  }

  function StripAll(rs: seq<Receipt>): (stripped: seq<Receipt>)
    ensures |stripped| == |rs| && forall i :: 0 <= i < |rs| ==> stripped[i] == Strip(rs[i])
  {
    seq(|rs|, i requires 0 <= i < |rs| => Strip(rs[i]))
  }

  lemma DictEntries(r: Receipt)
    ensures AsDict(r).Obj? && REQUIRED_FIELDS <= AsDict(r).fields.Keys
    ensures var f := AsDict(r).fields;
      && f["id"] == Int(r.id) && f["timestamp"] == Str(r.timestamp) && f["model"] == Str(r.model)
      && f["prompt"] == Str(r.prompt) && f["response"] == Str(r.response)
  {
    hide StrArr, OptStr;
  }

  /** The identity ids are written, though they are not read back. */
  lemma IdentityEntries(r: Receipt)
    ensures AsDict(r).Obj? && AsDict(r).fields.Keys == {
      "id", "timestamp", "model", "prompt", "response", "parent_id", "key_id", "payload_sha256", "signature", "tags",
      "extra", "operator_id", "deployer_id", "system_id"}
    ensures var f := AsDict(r).fields;
      && f["operator_id"] == (if r.operatorId.Some? then Str(r.operatorId.value) else Null)
      && f["deployer_id"] == (if r.deployerId.Some? then Str(r.deployerId.value) else Null)
      && f["system_id"] == (if r.systemId.Some? then Str(r.systemId.value) else Null)
  {
  }

  lemma MoreDictEntries(r: Receipt)
    ensures AsDict(r).Obj? && {"key_id", "payload_sha256", "signature", "tags", "extra"} <= AsDict(r).fields.Keys
    ensures var f := AsDict(r).fields;
      && f["key_id"] == Str(r.keyId) && f["payload_sha256"] == Str(r.payloadSha256)
      && f["signature"] == Str(r.signature)
      && Get(f, "parent_id") == (if r.parentId.Some? then Int(r.parentId.value) else Null)
      && f["tags"] == StrArr(r.tags) && f["extra"] == Obj(r.extra)
  {
    hide StrArr, OptStr;
  }

  lemma MappingRoundTrip(b: Builtins, r: Receipt)
    requires StrKeepsText(b)
    ensures ReceiptFromMapping(b, AsDict(r)) == Parsed(Strip(r))
  {
    hide AsDict;
    DictEntries(r);
    MoreDictEntries(r);
    assert Texts(StrArr(r.tags)) == r.tags;
  }

  lemma {:induction false} MappingsRoundTrip(b: Builtins, rs: seq<Receipt>)
    requires StrKeepsText(b)
    ensures ReceiptsFrom(b, AsDicts(rs)) == Parsed(StripAll(rs))
  {
    hide AsDict, ReceiptFromMapping;
    if rs == [] {
      assert StripAll(rs) == [];
    } else {
      MappingRoundTrip(b, rs[0]);
      MappingsRoundTrip(b, rs[1..]);
      assert AsDicts(rs)[1..] == AsDicts(rs[1..]);
      assert StripAll(rs) == [Strip(rs[0])] + StripAll(rs[1..]);
    }
  }

  lemma KeysRoundTrip(b: Builtins, keys: map<string, string>)
    requires StrKeepsText(b)
    ensures var written := map id | id in keys :: Str(keys[id]);
      (map id | id in written :: b.str(written[id])) == keys
  {
  }

  lemma RevokedRoundTrip(b: Builtins, revoked: set<string>)
    requires StrKeepsText(b)
    ensures (set j | j in StrArr(Listed(revoked)).items :: b.str(j)) == revoked
  {
    var items := StrArr(Listed(revoked)).items;
    forall id ensures id in (set j | j in items :: b.str(j)) <==> id in revoked {
      if id in revoked {
        var k :| 0 <= k < |Listed(revoked)| && Listed(revoked)[k] == id;
        assert items[k] == Str(id);
      }
    }
  }

  /** The wire form of a bundle. */
  lemma BundleFields(c: Suite, s: State, current: Option<KeyPair>)
    ensures ExportBundle(c, s, current).Obj?
    ensures var f := ExportBundle(c, s, current).fields;
      && f.Keys == {"format", "version", "public_keys", "revoked_key_ids", "receipts"}
      && f["format"] == Str("dontlie-verification-bundle") && f["version"] == Int(1)
      && f["receipts"].Arr? && f["public_keys"].Obj? && IsStrArr(f["revoked_key_ids"])
      && f["public_keys"].fields.Keys == KeyMaterial(c, s, current).Keys
  {
    hide KeyMaterial, RevokedIds, SelectAll, AsDicts, Listed;
  }

  /**
   * A bundle verifies as the receipts without identity fields do: under the caller's keys when any
   * are given, under the embedded ones otherwise, the caller's revocations added to the bundle's.
   */
  lemma ExportVerifiesStripped(
    b: Builtins, c: Suite, s: State, current: Option<KeyPair>, lines: Option<seq<Json>>,
    publicKeys: Option<map<string, string>>, revoked: set<string>)
    requires StrKeepsText(b)
    ensures var keys := if publicKeys.Some? then publicKeys.value else KeyMaterial(c, s, current);
      VerifyExport(b, c, Some(ExportBundle(c, s, current)), lines, publicKeys, revoked)
      == Verified(Context(c, keys, RevokedIds(s.keys) + revoked, true), StripAll(SelectAll(s.rows)))
  {
    hide Verified, KeyMaterial, RevokedIds, SelectAll, AsDicts, ReceiptsFrom, Listed;
    MappingsRoundTrip(b, SelectAll(s.rows));
    KeysRoundTrip(b, KeyMaterial(c, s, current));
    RevokedRoundTrip(b, RevokedIds(s.keys));
  }

  /** Left to itself, a bundle verifies in the vault's own context. */
  lemma BundleInLocalContext(
    b: Builtins, c: Suite, s: State, current: Option<KeyPair>, lines: Option<seq<Json>>)
    requires StrKeepsText(b)
    ensures VerifyExport(b, c, Some(ExportBundle(c, s, current)), lines, None, {})
      == Verified(LocalContext(c, s, current), StripAll(SelectAll(s.rows)))
  {
    hide Verified, KeyMaterial, SelectAll, ExportBundle, VerifyExport;
    ExportVerifiesStripped(b, c, s, current, lines, None, {});
    assert RevokedIds(s.keys) + {} == RevokedIds(s.keys);
  }

  predicate Anonymous(r: Receipt) {
    r.operatorId.None? && r.deployerId.None? && r.systemId.None?
  }

  /** Main result: with no identity fields set, the bundle gives the local report, issue by issue. */
  lemma ExportRefinesLocalVerification(
    b: Builtins, c: Suite, s: State, current: Option<KeyPair>, lines: Option<seq<Json>>)
    requires StrKeepsText(b)
    requires forall i :: 0 <= i < |s.rows| ==> Anonymous(s.rows[i].receipt)
    ensures VerifyExport(b, c, Some(ExportBundle(c, s, current)), lines, None, {})
      == ChainOutcome(c, s, current)
  {
    BundleInLocalContext(b, c, s, current, lines);
    SortPermutes(IdLe, s.rows);
    var rs := SelectAll(s.rows);
    forall i | 0 <= i < |rs| ensures StripAll(rs)[i] == rs[i] {
      assert Sort(IdLe, s.rows)[i] in s.rows;
    }
    assert StripAll(rs) == rs;
  }

  lemma StrippedGoodness(ctx: Context, rs: seq<Receipt>, i: nat)
    requires Lawful(ctx.suite) && i < |rs| && Version(rs[i]) == Int(CHAIN_VERSION)
    requires rs[i].payloadSha256 == ctx.suite.sha256(Payload(ctx.suite, rs[i]))
    requires !Collide(ctx.suite, rs[i], Strip(rs[i]))
    ensures Good(ctx, StripAll(rs), i) <==> Good(ctx, rs, i) && Anonymous(rs[i])
  {
    var r := rs[i];
    assert OrderReasons(ctx, Before(StripAll(rs), i), Strip(r)) == OrderReasons(ctx, Before(rs, i), r);
    assert LinkReasons(ctx, Before(StripAll(rs), i), Strip(r)) == LinkReasons(ctx, Before(rs, i), r);
    if Anonymous(r) {
      assert Strip(r) == r;
    } else {
      assert CoveredOf(Strip(r)).identity != CoveredOf(r).identity;
      assert ContentReasons(ctx, Strip(r))[0] == PayloadMismatch;
    }
  }

  ghost predicate AllGood(outcome: Outcome) {
    outcome.Done? && outcome.report.badCount == 0
  }

  lemma AllGoodMeansNoneBad(fs: seq<Finding>)
    ensures AllGood(Done(ReportOf(fs))) <==> BadIn(fs) == {}
  {
    hide BadIn;
    ReportCounts(fs);
  }

  lemma VerifiedIsReport(ctx: Context, rs: seq<Receipt>)
    requires AllComparable(rs)
    ensures Verified(ctx, rs) == Done(ReportOf(Findings(ctx, rs)))
  {
  }

  lemma LocalOutcome(c: Suite, s: State, current: Option<KeyPair>)
    ensures ChainOutcome(c, s, current) == Verified(LocalContext(c, s, current), SelectAll(s.rows))
  {
  }

  lemma GoodAsFindings(ctx: Context, rs: seq<Receipt>)
    requires AllComparable(rs)
    ensures BadIn(Findings(ctx, rs)) == set i | 0 <= i < |rs| && !Good(ctx, rs, i)
  {
    assert forall i :: 0 <= i < |rs| ==> (Good(ctx, rs, i) <==> Findings(ctx, rs)[i].reasons == []);
  }

  /** No receipt collides with its own stripped form. */
  ghost predicate StripsApart(c: Suite, rows: seq<Row>) {
    forall i :: 0 <= i < |rows| ==> !Collide(c, rows[i].receipt, Strip(rows[i].receipt))
  }

  lemma IdentityReceiptsTurnBad(c: Suite, book: KeyBook, s: State, current: Option<KeyPair>)
    requires Lawful(c) && Inv(c, book, s)
    requires StripsApart(c, s.rows)
    ensures var ctx, rs := LocalContext(c, s, current), SelectAll(s.rows);
      && AllComparable(rs) && AllComparable(StripAll(rs))
      && BadIn(Findings(ctx, StripAll(rs)))
         == BadIn(Findings(ctx, rs)) + set i | 0 <= i < |rs| && !Anonymous(rs[i])
  {
    hide Good, Reasons;
    SelectAllOfReached(c, book, s);
    var ctx, rs := LocalContext(c, s, current), SelectAll(s.rows);
    forall i | 0 <= i < |rs|
      ensures Comparable(rs[i]) && Comparable(StripAll(rs)[i])
      ensures Good(ctx, StripAll(rs), i) <==> Good(ctx, rs, i) && Anonymous(rs[i])
    {
      assert s.rows[i] in s.rows && Authentic(c, book, s.keys, rs[i]);
      StrippedGoodness(ctx, rs, i);
    }
    GoodAsFindings(ctx, rs);
    GoodAsFindings(ctx, StripAll(rs));
  }

  /**
   * Main result: on a reached vault and barring a collision, the bundle's report is that of the
   * receipts without identity fields; it flags what the local report flags and, beyond that,
   * exactly the receipts that carry such a field.
   */
  lemma ExportFlagsIdentityReceipts(
    b: Builtins, c: Suite, book: KeyBook, s: State, current: Option<KeyPair>, lines: Option<seq<Json>>)
    requires StrKeepsText(b) && Lawful(c) && Inv(c, book, s)
    requires StripsApart(c, s.rows)
    ensures var ctx, rs := LocalContext(c, s, current), SelectAll(s.rows);
      && AllComparable(rs) && AllComparable(StripAll(rs))
      && ChainOutcome(c, s, current) == Done(ReportOf(Findings(ctx, rs)))
      && VerifyExport(b, c, Some(ExportBundle(c, s, current)), lines, None, {})
         == Done(ReportOf(Findings(ctx, StripAll(rs))))
      && BadIn(Findings(ctx, StripAll(rs)))
         == BadIn(Findings(ctx, rs)) + set i | 0 <= i < |rs| && !Anonymous(rs[i])
  {
    hide *;
    IdentityReceiptsTurnBad(c, book, s, current);
    BundleInLocalContext(b, c, s, current, lines);
    VerifiedIsReport(LocalContext(c, s, current), SelectAll(s.rows));
    VerifiedIsReport(LocalContext(c, s, current), StripAll(SelectAll(s.rows)));
    LocalOutcome(c, s, current);
  }

  lemma ValidIsAllGood(ctx: Context, rs: seq<Receipt>)
    ensures Valid(ctx, rs) <==> AllGood(Verified(ctx, rs))
  {
  }

  lemma NoneNamed(rs: seq<Receipt>)
    ensures (set i | 0 <= i < |rs| && !Anonymous(rs[i])) == {} <==> forall i :: 0 <= i < |rs| ==> Anonymous(rs[i])
  {
    var named := set i | 0 <= i < |rs| && !Anonymous(rs[i]);
    if named == {} {
      forall i | 0 <= i < |rs| ensures Anonymous(rs[i]) {
        assert i !in named;
      }
    }
  }

  /** The exported bundle verifies exactly when the vault does and no receipt carries an identity field. */
  lemma BundleVerifiesIff(
    b: Builtins, c: Suite, book: KeyBook, s: State, current: Option<KeyPair>, lines: Option<seq<Json>>)
    requires StrKeepsText(b) && Lawful(c) && Inv(c, book, s)
    requires StripsApart(c, s.rows)
    ensures var rs := SelectAll(s.rows);
      AllGood(VerifyExport(b, c, Some(ExportBundle(c, s, current)), lines, None, {})) <==>
        && Valid(LocalContext(c, s, current), rs)
        && forall i :: 0 <= i < |rs| ==> Anonymous(rs[i])
  {
    hide *;
    var ctx, rs := LocalContext(c, s, current), SelectAll(s.rows);
    ExportFlagsIdentityReceipts(b, c, book, s, current, lines);
    AllGoodMeansNoneBad(Findings(ctx, StripAll(rs)));
    AllGoodMeansNoneBad(Findings(ctx, rs));
    VerifiedIsReport(ctx, rs);
    ValidIsAllGood(ctx, rs);
    NoneNamed(rs);
  }

  /**
   * Main result: exactly when the bundle exported after a run from an empty vault verifies, barring
   * collisions of receipts with their own stripped form.
   */
  lemma ReachedBundleValidity(
    b: Builtins, c: Suite, book: KeyBook, steps: seq<Step>, current: Option<KeyPair>, lines: Option<seq<Json>>)
    requires StrKeepsText(b) && Lawful(c)
    requires forall i :: 0 <= i < |steps| ==> Admissible(c, book, steps[i])
    requires StripsApart(c, Run(c, EMPTY_VAULT, steps).rows)
    ensures var s := Run(c, EMPTY_VAULT, steps);
      AllGood(VerifyExport(b, c, Some(ExportBundle(c, s, current)), lines, None, {})) <==>
        && Contiguous(s.rows) && OneNamespace(s.rows) && NoneRevoked(s)
        && forall i :: 0 <= i < |s.rows| ==> Anonymous(s.rows[i].receipt)
  {
    hide Run, Inv, Admissible, StripsApart, VerifyExport, ExportBundle, Contiguous, OneNamespace, NoneRevoked,
      Anonymous, Valid, AllGood, SelectAll, LocalContext;
    var s := Run(c, EMPTY_VAULT, steps);
    EmptyInv(c, book);
    RunKeepsInv(c, book, EMPTY_VAULT, steps);
    SelectAllOfReached(c, book, s);
    BundleVerifiesIff(b, c, book, s, current, lines);
    ValidIffContiguousSingleNamespaceUnrevoked(c, book, s, current);
  }

  // ---- Keys the caller brings, and receipts as JSON lines ----

  lemma AllGoodIffSound(ctx: Context, rs: seq<Receipt>)
    ensures AllGood(Verified(ctx, rs)) <==> SoundChain(ctx, rs)
  {
    hide Verified, SoundChain;
    ValidIffSoundChain(ctx, rs);
    ValidIsAllGood(ctx, rs);
  }

  lemma UntrustedIsBad(ctx: Context, previous: Option<Receipt>, r: Receipt)
    requires Comparable(r) && (r.keyId !in ctx.keys || r.keyId in ctx.revoked)
    ensures Reasons(ctx, previous, r) != []
  {
    hide Reasons;
    ReasonIff(ctx, previous, r, if r.keyId in ctx.revoked then KeyRevoked else MissingKey);
  }

  /** Main result: with keys supplied by the caller, those and no embedded ones decide. */
  lemma SuppliedKeysDecide(
    b: Builtins, c: Suite, s: State, current: Option<KeyPair>, lines: Option<seq<Json>>,
    keys: map<string, string>, revoked: set<string>)
    requires StrKeepsText(b)
    ensures var ctx, rs := Context(c, keys, RevokedIds(s.keys) + revoked, true), StripAll(SelectAll(s.rows));
      var outcome := VerifyExport(b, c, Some(ExportBundle(c, s, current)), lines, Some(keys), revoked);
      && (AllGood(outcome) <==> SoundChain(ctx, rs))
      && (outcome.Done? ==>
            && AllComparable(rs)
            && forall i :: 0 <= i < |rs| && (rs[i].keyId !in keys || rs[i].keyId in revoked) ==>
              i in BadIn(Findings(ctx, rs)))
  {
    hide VerifyExport, ExportBundle, SelectAll, RevokedIds, SoundChain, Reasons;
    var ctx, rs := Context(c, keys, RevokedIds(s.keys) + revoked, true), StripAll(SelectAll(s.rows));
    ExportVerifiesStripped(b, c, s, current, lines, Some(keys), revoked);
    AllGoodIffSound(ctx, rs);
    if AllComparable(rs) {
      forall i | 0 <= i < |rs| && (rs[i].keyId !in keys || rs[i].keyId in revoked) ensures i in BadIn(Findings(ctx, rs)) {
        UntrustedIsBad(ctx, Before(rs, i), rs[i]);
      }
    }
  }

  /** The whole text is one bundle. */
  predicate IsBundle(document: Option<Json>) {
    document.Some? && document.value.Obj? && Get(document.value.fields, "format") == Str("dontlie-verification-bundle")
  }

  /** A single receipt on its line is not taken for a bundle. */
  lemma ReceiptIsNoBundle(r: Receipt)
    ensures !IsBundle(Some(AsDict(r)))
  {
    hide StrArr, OptStr;
    assert "format" !in AsDict(r).fields;
  }

  lemma NotAttested(ctx: Context, r: Receipt)
    requires ctx.keys == map[] && Comparable(r)
    ensures !Attested(ctx, r)
  {
  }

  lemma NoKeysNoSoundness(ctx: Context, rs: seq<Receipt>)
    requires ctx.keys == map[] && rs != []
    ensures !SoundChain(ctx, rs)
  {
    if Comparable(rs[0]) {
      NotAttested(ctx, rs[0]);
    }
  }

  /** Main result: receipts written as JSON lines verify under the caller's keys and revocations alone. */
  lemma LinesVerify(
    b: Builtins, c: Suite, document: Option<Json>, rs: seq<Receipt>,
    publicKeys: Option<map<string, string>>, revoked: set<string>)
    requires StrKeepsText(b) && !IsBundle(document)
    ensures var ctx := Context(c, if publicKeys.Some? then publicKeys.value else map[], revoked, true);
      var outcome := VerifyExport(b, c, document, Some(AsDicts(rs)), publicKeys, revoked);
      && outcome == Verified(ctx, StripAll(rs))
      && (AllGood(outcome) <==> SoundChain(ctx, StripAll(rs)))
      && (publicKeys.None? && rs != [] ==> !AllGood(outcome))
  {
    hide AsDicts, ReceiptsFrom, Verified, SoundChain, AllGood;
    MappingsRoundTrip(b, rs);
    var ctx := Context(c, if publicKeys.Some? then publicKeys.value else map[], revoked, true);
    AllGoodIffSound(ctx, StripAll(rs));
    if publicKeys.None? && rs != [] {
      NoKeysNoSoundness(ctx, StripAll(rs));
    }
  }

  // ---- What an invalid export is ----

  predicate IntegerLike(b: Builtins, j: Json) {
    j.Int? || (j.Str? && b.parseInt(j.s).Some?)
  }

  lemma TextsOfArr(j: Json)
    requires IsStrArr(j)
    ensures StrArr(Texts(j)) == j
  {
    assert StrArr(Texts(j)).items == j.items;
  }

  /** Main result: which JSON values are read as receipts, and what is read. */
  lemma ReceiptReadIff(b: Builtins, value: Json)
    ensures ReceiptFromMapping(b, value).Crashed? <==> !value.Obj?
    ensures value.Obj? ==>
      var f := value.fields;
      (ReceiptFromMapping(b, value).Parsed? <==>
        && ("tags" in f ==> IsStrArr(f["tags"])) && ("extra" in f ==> f["extra"].Obj?)
        && {"id", "timestamp", "model", "prompt", "response", "key_id", "payload_sha256", "signature"} <= f.Keys
        && IntegerLike(b, f["id"])
        && (Get(f, "parent_id").Null? || IntegerLike(b, Get(f, "parent_id"))))
    ensures ReceiptFromMapping(b, value).Parsed? ==>
      var f, r := value.fields, ReceiptFromMapping(b, value).value;
      && r.timestamp == b.str(f["timestamp"]) && r.model == b.str(f["model"])
      && r.prompt == b.str(f["prompt"]) && r.response == b.str(f["response"])
      && r.keyId == b.str(f["key_id"]) && r.payloadSha256 == b.str(f["payload_sha256"])
      && r.signature == b.str(f["signature"]) && Anonymous(r)
      && (f["id"].Int? ==> r.id == f["id"].n) && (f["id"].Str? ==> Some(r.id) == b.parseInt(f["id"].s))
      && (r.parentId.None? <==> Get(f, "parent_id").Null?)
      && StrArr(r.tags) == (if "tags" in f then f["tags"] else Arr([]))
      && Obj(r.extra) == (if "extra" in f then f["extra"] else Obj(map[]))
  {
    if ReceiptFromMapping(b, value).Parsed? {
      var f := value.fields;
      TextsOfArr(if "tags" in f then f["tags"] else Arr([]));
    }
  }

  /** The parts of a bundle document that must have the right shape. */
  predicate WellShaped(f: Fields) {
    && (Get(f, "version") == Int(1) || Get(f, "version") == Float(Binary(1, 0)) || Get(f, "version") == Bool(true))
    && Get(f, "receipts").Arr? && Get(f, "public_keys").Obj?
    && ("revoked_key_ids" in f ==> f["revoked_key_ids"].Arr?)
  }

  lemma {:induction false} ReceiptsReadIff(b: Builtins, items: seq<Json>)
    ensures ReceiptsFrom(b, items).Parsed? <==>
      forall i :: 0 <= i < |items| ==> ReceiptFromMapping(b, items[i]).Parsed?
    ensures ReceiptsFrom(b, items).Parsed? ==>
      && |ReceiptsFrom(b, items).value| == |items|
      && forall i :: 0 <= i < |items| ==> ReceiptFromMapping(b, items[i]) == Parsed(ReceiptsFrom(b, items).value[i])
  {
    hide ReceiptFromMapping;
    if items == [] {
    } else {
      ReceiptsReadIff(b, items[1..]);
      assert forall i :: 0 < i < |items| ==> items[i] == items[1..][i - 1];
    }
  }

  lemma VerifiedIsNoInvalidExport(ctx: Context, rs: seq<Receipt>)
    ensures Verified(ctx, rs) != Done(Report(0, 1, [Issue(None, InvalidExport)]))
  {
    if AllComparable(rs) {
      var fs := Findings(ctx, rs);
      hide Findings;
      ReportIssues(fs, Issue(None, InvalidExport));
      assert Issue(None, InvalidExport) in [Issue(None, InvalidExport)];
    }
  }

  /** Main result: when a text is called an invalid export, and that nothing else is. */
  lemma InvalidExportIff(
    b: Builtins, c: Suite, document: Option<Json>, lines: Option<seq<Json>>,
    publicKeys: Option<map<string, string>>, revoked: set<string>)
    ensures VerifyExport(b, c, document, lines, publicKeys, revoked) == Done(Report(0, 1, [Issue(None, InvalidExport)]))
      <==>
        if IsBundle(document) then
          var f := document.value.fields;
          !WellShaped(f) || ReceiptsFrom(b, Get(f, "receipts").items).Malformed?
        else lines.None? || ReceiptsFrom(b, lines.value).Malformed?
  {
    hide ReceiptsFrom, Verified;
    forall ctx: Context, rs ensures Verified(ctx, rs) != Done(Report(0, 1, [Issue(None, InvalidExport)])) {
      VerifiedIsNoInvalidExport(ctx, rs);
    }
  }
}
