# Verified model of Don't Lie

Don't Lie keeps a signed, hash-linked log of what was sent to and received from a language model.
This project models the parts of it that carry that promise and proves what they guarantee, for
every input, every run and every way of interleaving callers.

| module | subject |
|---|---|
| `Chain` | the log's verifier and what a clean report commits to |
| `Vault` | the tables as a state machine: append, namespace deletion, key recording, revocation |
| `Export` | verification bundles: written from a vault, verified without it |
| `Merkle`, `Batch` | Merkle roots, paths, path checks, and batches of receipts built on them |
| `Cbor`, `CborRoundTrip`, `CborCanonical`, `CborDecoding` | the hand-written CBOR encoder and decoder and their laws |
| `Base64`, `Cose` | unpadded base64url and the COSE_Sign1 envelope in its two wire forms |
| `Sse` | the incremental server-sent-event decoder against the one-shot one |
| `Convert` | the OpenAI and Anthropic request converters |
| `Der` | the DER writer and the cursor-based reader behind timestamp requests |
| `Privacy`, `Redaction` | the two span resolvers and text splicers |
| `Luhn` | the check-digit arithmetic |
| `Normalize` | normalisation of possibly cyclic object graphs |
| `Prelude`, `Json` | options, bytes, a stable sort, big-endian numbers, JSON values |

## How the model is set up

- Where the program works in place (the vault's connection, the SSE buffer, the DER cursor, the
  `seen` set, the loops over `level`, `path`, `out`, `hits`, `total`), the model has a class or a
  method with a loop, proved equal to a specification function. The laws are lemmas about those
  functions.
- SHA-256 is an arbitrary function. Binding results say "equal, or here is a collision", and the
  collision is always between byte strings actually hashed in the two objects compared. A statement
  over all byte strings would be worthless, since some collision always exists. Results about
  signatures are of the same shape: "it was signed, or the object holds this forgery".
- Ed25519, PEM and canonical JSON are functions with the laws of `Chain.Lawful`: signing then
  verifying succeeds, a written PEM loads back, and JSON serialisation is injective. JSON floats are
  finite binary fractions in lowest terms, so each number has one float (`Json.OneFloatPerNumber`);
  NaN, the infinities and the sign of zero are not modelled.
- JSON objects have text keys at every depth. The program also accepts a nested dict with integer
  keys in `extra`, such as `{"m": {10: 1, 2: 1}}`. Its keys are sorted as numbers when it is signed
  and as texts after it has been stored and reloaded, so its stored hash no longer matches. Results
  about vaults are for receipts whose `extra` serialises alike before and after storage.
- A run may use any signing keys, provided each is listed in one `KeyBook` under its own id. This
  excludes an on-disk key file whose recorded id differs from its key (`dontlie/sign.py:186-196`
  allows that).
- A namespace deletion is two autocommitted statements, hence two steps that others can interleave
  with. An append is one `BEGIN IMMEDIATE` transaction, hence one step; `fault` is any exception
  raised inside it. Prompts and responses enter an append as they are after redaction, and clock and
  environment are arguments.
- A version entry in `extra` that is neither null nor a number makes the verifier raise `TypeError`;
  this is the outcome `Raised`.
- CBOR text is held as UTF-8 bytes, dicts as their items in insertion order. Decoding fails in two
  ways: `Refused` (`CborDecodeError`, `UnicodeDecodeError`, `TypeError`), which the envelope verifier
  reports, and `Overrun` (`IndexError`, `struct.error`), which escapes it as `Raised`.

## Where the code differs from its documentation or from what one might expect

- `verify_chain_report` reads all namespaces in one id order while `append` links per namespace. So
  an untouched vault with receipts in two namespaces is reported invalid
  (`Vault.TwoNamespacesDoNotVerify`), and so is one where receipts were appended after a namespace
  with receipts was deleted (`Vault.DeletionLeavesAGap`). `Vault.ReachedVaultValidity` gives the exact
  condition, `Vault.ValidAfterAppendIff` the one for a single append.
- `_receipt_from_mapping` drops the operator, deployer and system ids, so a bundle flags every
  receipt that carries one (`Export.ExportFlagsIdentityReceipts`).
- `_encode_integer` tests and marks the last content octet, not the first. `Der.IntegerRoundTripIff`
  gives the exact set of integers that survive; 128 does not (`Der.SmallestBrokenInteger`).
- A list of leaves of odd length and the same list with its last leaf repeated have one root, and so
  have a list and the level above it, since leaves and nodes are hashed alike.
  `Merkle.SharedRootIffSameTree` says which lists share a root. A path is also accepted at indices
  outside the list, negative ones included; `Merkle.AcceptedIff` says for which leaf. A path shorter
  than the tree is deep is accepted for exactly the inner nodes at its depth, and a longer one for what
  climbs to a leaf (`Merkle.AcceptedInnerNodeIff`, `Merkle.AcceptedLongPathIff`).
- `forensic_diff_summary` compares redactions, so an original that is too short for a hit can pass
  although it is not the text: the redacted artifact of one long API key passes for the key itself
  (`Privacy.RedactedKeyPassesForOriginal`). `Privacy.ForensicCheckExactIff` has the exact condition,
  which can be read off the hits and the text's length; hits no longer than their tokens meet it.
- A mapping with the one entry `"_cycle"` and a text is written exactly like a cycle marker
  (`Normalize.WrittenMarkersAreExact`).
- An edit that makes a receipt's version entry a text, list or object does not get the receipt
  flagged: the verifier raises `TypeError` (`Chain.EditFlagsExactlyTheEdited`).
- CBOR map items are sorted bytewise by encoded key (section 4.2.1 of RFC 8949), not by length first
  as the docstring says.
- `stop_sequences` given as one text does not survive a conversion and back;
  `Convert.RoundTripIffPlain` has the exact condition for every request.
- `build_sig_structure` receives byte strings that are already wrapped and uses a byte-string
  context, so nothing is claimed about section 4.4 of RFC 9052. The timestamp request wraps the
  imprint in one more SEQUENCE, so nothing is claimed about section 2.4.1 of RFC 3161.

## Model
| member | source | states |
|---|---|---|
| `Chain.VerifyReceipts` | dontlie/storage.py:499-608 | the loop over previous receipt, counts and issues reports exactly the reasons each receipt earns against its predecessor, or raises |
| `Chain.ReportCounts` | dontlie/storage.py:594-608 | the bad count is the number of positions with some reason against them, and good and bad make up the list |
| `Chain.ReportIssues` | dontlie/storage.py:594-608 | an issue is reported iff it is a reason against some receipt |
| `Chain.IssueAt` | dontlie/storage.py:594-608 | issues come receipt by receipt, each named by its id, in the order of its reasons |
| `Chain.ComparisonsCompareNumbers` | dontlie/storage.py:559 | version tests compare numbers as numbers, booleans and floats included |
| `Chain.ReasonIff` | dontlie/storage.py:534-592 | each of the twelve reasons is given exactly when its condition on the two receipts, the keys and the revoked ids holds |
| `Chain.ValidMeansClean` | dontlie/storage.py:110-120 | a report is valid iff no receipt has a reason against it |
| `Chain.ValidIffSoundChain` | dontlie/storage.py:534-602 | a list is valid iff every receipt directly follows its predecessor by id, parent id and parent hash, and an unrevoked known key signed the payload its hash is of |
| `Chain.CleanIds` | dontlie/storage.py:534-556 | with genesis required, a clean list is numbered 1, 2, 3, … |
| `Chain.SamePayloadIff` | dontlie/storage.py:123-147 | two receipts have one signed payload iff id, time, model, prompt, response, parent, key, tags and extra agree, and from version 3 on the operator, deployer and system ids |
| `Chain.EqualHashMeansEqualCovered` | dontlie/storage.py:123-147 | in clean lists, equal stored hashes mean agreement on every signed field unless two payloads collide |
| `Chain.HistoriesAgreeUpTo` | dontlie/storage.py:534-602 | equal hashes at one position force agreement on every signed field at every earlier one |
| `Chain.TipHashCommitsToHistory` | dontlie/storage.py:123-147 | two valid versioned lists with one last hash have one length and agree on every signed field (id, time, model, prompt, response, parent, key, tags, extra, identity ids), or two of their payloads collide |
| `Chain.OneBad` | dontlie/storage.py:594-608 | if all but one receipt are good, the report flags exactly that position and counts accordingly |
| `Chain.EditFlagsExactlyTheEdited` | dontlie/storage.py:534-602 | changing any signed field of one receipt, id and stored hash kept, flags that receipt only, or the two payloads collide; a version entry that is no number makes the verifier raise |
| `Chain.RemovalFlagsExactlyTheSuccessor` | dontlie/storage.py:534-602 | removing a receipt that is not the last flags its successor and no other; only the first of a fragment, with no genesis required, goes unnoticed |
| `Chain.PrefixStaysValid` | dontlie/storage.py:534-602 | every prefix of a clean list is clean |
| `Vault.VaultDb.AppendReceipt` | dontlie/storage.py:306-422 | new tables and result of an append in all its outcomes: reserved key, stale parent, rollback, success |
| `Vault.AppendedCarriesRequest` | dontlie/storage.py:374-422 | the appended receipt has the time, model, prompt, response, tags and identity ids of the request and its extra beside the two chain entries; earlier rows are untouched |
| `Vault.RowsComeFromAppends` | dontlie/storage.py:306-422 | after any run, a row that was not there at the start carries the content of the append in that run that issued its id |
| `Vault.NextKeepsOrIssues` | dontlie/storage.py:306-422 | one step leaves a row as it was or is the append that issued it |
| `Vault.ReservedNames` | dontlie/storage.py:34-40 | the five entries a caller may not set in extra |
| `Vault.KeyMaterialMeans` | dontlie/storage.py:473-496 | the stored PEM of a key counts first, the current key only where none is stored |
| `Vault.SelectAllById` | dontlie/storage.py:615 | the verifier sees all rows, in id order |
| `Vault.StepsMean` | dontlie/storage.py:752-787 | what each step other than an append changes, and that it changes nothing else |
| `Vault.RecordingAKey` | dontlie/storage.py:765-787 | recording a key at an append adds it, fills in a missing PEM, and keeps time and revocation |
| `Vault.RevokingAKey` | dontlie/storage.py:752-763 | revoking keeps creation time and PEM, and leaves other keys alone |
| `Vault.WithoutSelects` | dontlie/namespace.py:154-156 | exactly the rows of the namespace are deleted |
| `Vault.VaultDb.DeleteNamespace` | dontlie/namespace.py:141-160 | refuses the default and unknown names, otherwise removes that namespace's rows and name, counts them, and touches nothing else |
| `Vault.VaultDb.Revoke` | dontlie/storage.py:752-763 | marks the key revoked, creating the row if needed, and keeps the other columns |
| `Vault.VaultDb.VerifyChainReport` | dontlie/storage.py:611-620 | the whole vault in id order is verified against the stored keys and the current one |
| `Vault.WithoutKeepsTheRest` | dontlie/namespace.py:154-156 | deletion keeps exactly the rows of other namespaces, in id order |
| `Vault.WithoutKeepsOtherChains` | dontlie/namespace.py:154-156 | deletion leaves every other namespace's head and links as they were |
| `Vault.HeadIsNewest` | dontlie/storage.py:352-357 | the head an append reads is the last receipt of its namespace in id order |
| `Vault.NamespacesAreChains` | dontlie/storage.py:352-372 | in a reached vault each namespace's receipts form one chain by parent id and parent hash from a null start |
| `Vault.SignedIsAuthentic` | dontlie/storage.py:374-405 | hash and signature of an appended receipt match its covered fields, the blank fields at signing time included |
| `Vault.AppendKeepsInv` | dontlie/storage.py:351-422 | append keeps increasing ids, links, authenticity and key material |
| `Vault.StepKeepsInv` | dontlie/storage.py:752-787 | so does every other step |
| `Vault.RunKeepsInv` | dontlie/storage.py:351-422 | so does every run, rejected and rolled-back appends included |
| `Vault.RunExtends` | dontlie/storage.py:752-787 | along every run the counter never falls, revocations stay, stored PEMs and creation times are never changed |
| `Vault.IdsNeverReused` | dontlie/storage.py:374-380 | the ids issued along any run strictly increase, whatever is deleted in between |
| `Vault.AppendSucceedsIff` | dontlie/storage.py:336-372 | in a reached vault an append succeeds iff no reserved key is given, the parent is absent or the head, and nothing fails; otherwise nothing changes, and the error names the reserved key or the head expected |
| `Vault.RolledBackIff` | dontlie/storage.py:378-422 | in any state, an append is rolled back iff something fails or the id is taken |
| `Vault.AppendedIsTheHead` | dontlie/storage.py:352-372 | an appended receipt becomes its namespace's head and leaves every other head alone |
| `Vault.LinkedAt` | dontlie/storage.py:352-372 | each row links to the newest earlier row of its namespace |
| `Vault.ContentGoodIffNotRevoked` | dontlie/storage.py:560-592 | for an authentic receipt, hash, key and signature checks pass iff its key is not revoked |
| `Vault.ParentInSameNamespace` | dontlie/storage.py:352-372 | a receipt whose parent is the row just before it shares that row's namespace |
| `Vault.CleanImpliesShape` | dontlie/storage.py:534-620 | a clean reached vault has ids 1..n, one namespace and no revoked key |
| `Vault.ShapeImpliesClean` | dontlie/storage.py:534-620 | and conversely |
| `Vault.ValidIffContiguousSingleNamespaceUnrevoked` | dontlie/storage.py:534-620 | the exact validity condition under the invariant |
| `Vault.ReachedVaultValidity` | dontlie/storage.py:611-620 | the same for the state after any run from an empty vault |
| `Vault.ValidAfterAppendIff` | dontlie/storage.py:351-422 | after a successful append a reached vault verifies iff before it no id was missing, no other namespace had receipts, and no key, the signer's included, was revoked |
| `Vault.TwoNamespacesDoNotVerify` | dontlie/storage.py:611-620 | two appends to two namespaces: valid after the first, not after the second |
| `Vault.DeletionLeavesAGap` | dontlie/storage.py:374-380 | append, delete the namespace, append again: the one receipt left has id 2 and the vault is not valid |
| `Export.MappingRoundTrip` | dontlie/storage.py:659-687 | reading back a written receipt gives it without its identity fields |
| `Export.MappingsRoundTrip` | dontlie/storage.py:659-687 | likewise for the whole list |
| `Export.RevokedRoundTrip` | dontlie/storage.py:629-647 | the revoked ids read from a bundle are the ones written |
| `Export.ExportVerifiesStripped` | dontlie/storage.py:690-741 | verifying an exported bundle is local verification of the receipts without identity fields, under the keys given or else the embedded ones, with the given revocations added |
| `Export.BundleInLocalContext` | dontlie/storage.py:690-741 | with no keys and no revocations given, the context is the local one |
| `Export.SuppliedKeysDecide` | dontlie/storage.py:720-741 | with keys given, a bundle verifies iff its receipts form a sound chain under those keys, and every receipt of another or revoked key is flagged whatever the bundle embeds |
| `Export.LinesVerify` | dontlie/storage.py:690-741 | receipts written as JSON lines verify iff they form a sound chain under the keys and revocations given; with no keys given, none but an empty list does |
| `Export.UntrustedIsBad` | dontlie/storage.py:566-592 | a receipt whose key is unknown or revoked has a reason against it in every context |
| `Export.BundleFields` | dontlie/storage.py:629-647 | the five entries of a written bundle |
| `Export.IdentityEntries` | dontlie/storage.py:634 | the fourteen entries of a written receipt, the identity ids that are not read back among them |
| `Export.ReceiptReadIff` | dontlie/storage.py:650-687 | which JSON values read as a receipt, and what each of its fields is read from |
| `Export.ReceiptsReadIff` | dontlie/storage.py:726-734 | a list reads iff each item does, one for one in order |
| `Export.InvalidExportIff` | dontlie/storage.py:690-734 | the export is called invalid iff the bundle is ill-shaped or holds, as a line may, a value that does not read |
| `Export.ExportRefinesLocalVerification` | dontlie/storage.py:629-741 | with no identity fields in the vault, the bundle's report equals the local one issue by issue |
| `Export.StrippedGoodness` | dontlie/storage.py:123-147 | barring a collision, a stripped version-3 receipt is good iff it was good and had no identity field |
| `Export.ExportFlagsIdentityReceipts` | dontlie/storage.py:659-741 | verifying the bundle reports on the receipts without identity fields, flagging what the local report flags plus exactly the receipts with such a field |
| `Export.BundleVerifiesIff` | dontlie/storage.py:629-741 | barring collisions, the exported bundle verifies iff the vault does and no receipt carries an identity field |
| `Export.ReachedBundleValidity` | dontlie/storage.py:611-741 | after any run from an empty vault the bundle verifies iff ids are 1..n, there is one namespace, no key is revoked and no identity field is set |
| `Merkle.PairUp` | dontlie/batch.py:115-120 | one level up, the odd last node paired with itself |
| `Merkle.MerkleRoot` | dontlie/batch.py:104-121 | fails iff there is no leaf or one is not 32 bytes, else returns the tree's root |
| `Merkle.MerklePath` | dontlie/batch.py:124-143 | fails iff the index is out of range, else returns the siblings up to the root |
| `Merkle.VerifyMerklePath` | dontlie/batch.py:146-156 | at any integer index, accepts iff climbing the path ends at the root |
| `Merkle.NextLevelAt` | dontlie/batch.py:115-120 | which two nodes are hashed into which |
| `Merkle.PathLeadsToRoot` | dontlie/batch.py:104-156 | completeness: at every integer index the path of the leaf it names is accepted, and an index in range names its own leaf |
| `Merkle.DepthIsLeast` | dontlie/batch.py:124-143 | the depth of n leaves is the least k with n ≤ 2^k |
| `Merkle.PathLength` | dontlie/batch.py:124-143 | every path is as long as the tree is deep |
| `Merkle.JoinedInjective` | dontlie/batch.py:146-156 | for nodes of one size the hashed bytes determine node and sibling |
| `Merkle.AcceptedPathIsGenuine` | dontlie/batch.py:146-156 | soundness: at any index, an accepted path of the tree's depth starts at the leaf the index names and is its own path, or hashed inputs collide |
| `Merkle.AcceptedIff` | dontlie/batch.py:146-156 | both: at the tree's depth exactly one leaf and path are accepted at each index, or hashed inputs collide |
| `Merkle.AcceptedInnerNodeIff` | dontlie/batch.py:146-156 | a path no longer than the tree is deep is accepted iff it is that of the node the index names at that depth, or hashed inputs collide |
| `Merkle.AcceptedLongPathIff` | dontlie/batch.py:146-156 | a path no shorter is accepted iff its first part climbs to the leaf the index then names and the rest is that leaf's path, or hashed inputs collide |
| `Merkle.RootBindsLeaves` | dontlie/batch.py:104-121 | equally many leaves with one root are the same leaves, or hashed inputs collide |
| `Merkle.SameTreeSameRoot` | dontlie/batch.py:104-121 | lists of one depth that show the same complete tree have one root |
| `Merkle.SameRootSameTree` | dontlie/batch.py:104-121 | and conversely when no hashed inputs collide |
| `Merkle.SharedRootAtOneDepth` | dontlie/batch.py:104-121 | lists of one depth, equally long or not, share a root iff they show the same tree, or inputs collide |
| `Merkle.LiftedFacts` | dontlie/batch.py:99-121 | every level of a tree has the tree's root |
| `Merkle.SharedRootIffSameTree` | dontlie/batch.py:99-121 | any two leaf lists share a root iff they show the same nodes at the depth of the shallower tree, or hashed inputs collide |
| `Merkle.OddLevelDuplicationIsInvisible` | dontlie/batch.py:113-116 | an odd list of three or more and the same with its last leaf repeated share a root |
| `Batch.SortedIdsAreTheIds` | dontlie/batch.py:183 | the batch holds exactly the given ids, once each and ascending |
| `Batch.CreatesIff` | dontlie/batch.py:175-229 | a batch is created iff ids are given and each has a stored 32-byte hash |
| `Batch.CreatedFields` | dontlie/batch.py:175-229 | time, key, tags, count, first and last id of a created batch |
| `Batch.CreatedBatchProves` | dontlie/batch.py:175-351 | a created batch verifies under its signer's key, and the proof of each member starts at its stored hash and reaches the batch root |
| `Batch.BatchHoldsIffUnchanged` | dontlie/batch.py:273-291 | in a later vault verify fails on a missing member, raises on a hash that is no digest, and otherwise holds iff every member has the hash it had, or hashed inputs collide |
| `Batch.SameSignedBytesIff` | dontlie/batch.py:161-172 | two batches have the same signed bytes iff every signed field agrees |
| `Batch.HoldsIff` | dontlie/batch.py:273-291 | for any batch, stored hashes and key found or not: when verification raises, and when it holds; with no key it never does |
| `Batch.VerifiedBatchWasSigned` | dontlie/batch.py:161-291 | a batch that verifies, whatever key is looked up, has a known key; it agrees in every signed field with a batch signed under that key iff it does not hold a forgery itself; its root is that of the stored hashes |
| `Batch.AcceptedProofIsGenuine` | dontlie/batch.py:273-351 | against a batch that verifies, a proof of the tree's depth is accepted at an index iff it is the stored hash and path of the member the index names, or hashed inputs collide |
| `Cbor.Read` | dontlie/scitt.py:280-319 | on any bytes decoding terminates; on success it advances and stays inside the input |
| `Cbor.ReadAny` | dontlie/scitt.py:280-319 | the decoder with its loops computes that function |
| `Cbor.ReadList` | dontlie/scitt.py:298-304 | the list loop reads exactly n items one after the other |
| `Cbor.ReadDict` | dontlie/scitt.py:305-312 | the map loop reads n pairs, a repeated key overwriting in place, an unhashable one refused after its value |
| `Cbor.PutLookup` | dontlie/scitt.py:304-310 | assigning under a key changes what is found under that key to the last value given and nothing else |
| `Cbor.EqualKeys` | dontlie/scitt.py:304-310 | a boolean and 0 or 1 are one key, a text and a byte string never are |
| `Cbor.EncodesIffInRange` | dontlie/scitt.py:122-252 | a value encodes iff its integers fit 64 bits and a sign and every string, list and map stays below 2^32 |
| `CborRoundTrip.HeadRoundTrip` | dontlie/scitt.py:122-158 | each of the five length classes reads back as its major type and number |
| `CborRoundTrip.HeadIsShortest` | dontlie/scitt.py:122-158 | no head the decoder accepts for a number is shorter than the one written (section 4.2.1 of RFC 8949) |
| `CborRoundTrip.KeyRoundTrip` | dontlie/scitt.py:280-318 | integers, strings, booleans and null read back at any position |
| `CborRoundTrip.ReadsBack` | dontlie/scitt.py:235-329 | wherever the input holds an encoding, reading there returns the value and stops at its end |
| `CborRoundTrip.ItemsReadBack` | dontlie/scitt.py:187-200 | list items read back in order |
| `CborRoundTrip.EntriesReadBack` | dontlie/scitt.py:203-232 | map items read back in the order written |
| `CborRoundTrip.SortedBytes` | dontlie/scitt.py:203-232 | sorting encoded pairs and sorting entries by encoded key give the same bytes |
| `CborCanonical.RoundTripUnderSuffix` | dontlie/scitt.py:122-329 | every supported value followed by any bytes decodes to itself and stops at the length of its encoding |
| `CborCanonical.PrefixFree` | dontlie/scitt.py:235-252 | no encoding is a proper prefix of another; equal bytes decode to one value |
| `CborCanonical.ReadIsStable` | dontlie/scitt.py:259-319 | what has been decoded stays the same whatever bytes follow |
| `CborCanonical.TruncationIsDetected` | dontlie/scitt.py:259-329 | an encoding that is cut short does not decode |
| `CborDecoding.HowTruncationFails` | dontlie/scitt.py:259-329 | a cut-off integer, text, byte string, boolean or null runs off the input inside its head and is refused behind it |
| `CborDecoding.ReadIntFails` | dontlie/scitt.py:259-270 | the two ways in which a length fails to read |
| `CborDecoding.AnyWidthReads` | dontlie/scitt.py:259-270 | a length of any width reads as the big-endian number it spells, shortest or not |
| `CborDecoding.ValidUtf8Iff` | dontlie/scitt.py:295-297 | the UTF-8 test accepts exactly the byte strings that encode some sequence of Unicode scalar values (section 3 of RFC 3629) |
| `CborCanonical.FirstByteIsMajor` | dontlie/scitt.py:235-252 | the first byte carries the major type of the value's kind (section 3.1 of RFC 8949) |
| `CborCanonical.KeyCodeInjective` | dontlie/scitt.py:203-232 | different keys have different encodings |
| `CborCanonical.MapKeysStrictlyIncrease` | dontlie/scitt.py:203-232 | a map's items are exactly its encoded entries, keys strictly increasing bytewise |
| `CborCanonical.CanonKeepsEncoding` | dontlie/scitt.py:203-252 | the decoded value has the bytes it was decoded from |
| `CborCanonical.CanonIsSame` | dontlie/scitt.py:235-329 | the decoded value equals the encoded one, dict order aside |
| `CborCanonical.SameImpliesEqualCanon` | dontlie/scitt.py:203-252 | values equal up to dict order, at any depth, have one canonical form |
| `CborCanonical.EqualCanonImpliesSame` | dontlie/scitt.py:203-252 | and conversely |
| `CborCanonical.SameBytesIffSameValue` | dontlie/scitt.py:235-252 | two supported values have the same bytes iff they are the same value, dict order aside |
| `CborCanonical.InsertionOrderIrrelevant` | dontlie/scitt.py:203-232 | permuting a dict's items does not change its bytes |
| `CborDecoding.DecodedIsPython` | dontlie/scitt.py:259-329 | whatever decodes, from any bytes, has UTF-8 texts only and no dict with two equal keys |
| `CborDecoding.DecodedReencodes` | dontlie/scitt.py:122-329 | on inputs below 4 GiB, whatever decodes encodes again, in no more bytes than were read |
| `CborDecoding.DecodedSurvives` | dontlie/scitt.py:122-329 | and decoding that encoding gives the same value, dict order aside |
| `CborDecoding.PutSize` | dontlie/scitt.py:305-312 | an item put into a dict adds at most its own encoded bytes |
| `Base64.PaddedRoundTrip` | dontlie/scitt.py:367-375 | padded base64url decodes to what was encoded |
| `Base64.StripThenPad` | dontlie/scitt.py:367-375 | the padding restored from the length is the padding that was stripped |
| `Base64.UrlRoundTrip` | dontlie/scitt.py:367-375 | every byte string survives unpadded base64url (section 5 of RFC 4648) |
| `Base64.KnownEncodings` | dontlie/scitt.py:367-375 | encodings known from section 10 of RFC 4648, and the two symbols that differ in base64url |
| `Cose.SigStructureInjective` | dontlie/scitt.py:410-425 | the signed bytes determine protected header and payload |
| `Cose.SigStructureBytes` | dontlie/scitt.py:410-425 | the signed bytes octet by octet: an array of four, "Signature1", header, no external data, payload |
| `Cose.StringifyShows` | dontlie/scitt.py:467-482 | the JSON form shows each integer label as its decimal text, in place |
| `Cose.UnstringifyRestores` | dontlie/scitt.py:485-498 | reading the JSON form restores the integer labels |
| `Cose.JsonRoundTrip` | dontlie/scitt.py:467-498 | with integer labels the JSON form loses nothing |
| `Cose.FormsExistIff` | dontlie/scitt.py:467-528 | both wire forms exist iff every label reads as an integer |
| `Cose.FormsRelabel` | dontlie/scitt.py:467-517 | in each form, every renamed label stands once, with the last of the values given for it |
| `Cose.JsonFormEmitsTheSame` | dontlie/scitt.py:467-528 | the JSON form with its text labels is emitted as the same CBOR |
| `Cose.EmittedExactly` | dontlie/scitt.py:501-528 | the CBOR form is the encoding of the four-element list and exists iff the three texts decode, every label reads as an integer and that list encodes |
| `Cose.HandAssembledArray` | dontlie/scitt.py:501-528 | the hand-assembled outer array is the encoding of the four-element list, failures included |
| `Cose.WireFormsAgree` | dontlie/scitt.py:467-528 | after a JSON trip the emitted CBOR is that encoding and decodes to protected bytes, header map, payload and signature |
| `Cose.ProtectedHeader` | dontlie/scitt.py:441-446 | the protected header encodes, is short, and is already in canonical order |
| `Cose.ProtectedLength` | dontlie/scitt.py:438-443 | its bytes: algorithm -8 under label 1 and the content type under label 3 |
| `Cose.ContentTypeSpelled` | dontlie/scitt.py:80 | the content type, letter by letter |
| `Cose.EnvelopeMadeIff` | dontlie/scitt.py:428-464 | a receipt gets an envelope iff its stored hash spells 32 bytes and the signature has 64 |
| `Cose.HeaderLabels` | dontlie/scitt.py:389-407 | what stands under each label of the unprotected header |
| `Cose.HeaderVersion` | dontlie/scitt.py:378-386 | the version label shows the version entry as a number, or 2 |
| `Cose.EnvelopeVerifies` | dontlie/scitt.py:428-623 | with any decoder that extends strict base64url, an envelope around a 32-byte payload survives a JSON trip, verifies and yields that payload |
| `Cose.ReceiptEnvelopeVerifies` | dontlie/scitt.py:378-623 | the envelope of a receipt with a 32-byte hash verifies after a JSON trip, yields that hash and names the receipt's key |
| `Cose.AcceptedExactly` | dontlie/scitt.py:555-623 | an envelope is accepted iff a key is known, the header names the algorithm, the texts decode and the key verifies the signature; its payload is returned |
| `Cose.RejectedExactly` | dontlie/scitt.py:555-623 | which refusal is reported in which case, the missing key and the wrong algorithm included |
| `Cose.SignedBytesInjective` | dontlie/scitt.py:410-449 | the signed bytes determine header and payload before wrapping too |
| `Cose.AcceptedPayloadWasSigned` | dontlie/scitt.py:555-623 | for any set of payloads, an accepted envelope hands back one of them under the standard header iff it does not hold a forgery itself, however texts are decoded |
| `Sse.NextBoundaryIsFirst` | dontlie/protocols.py:76-82 | the boundary found is a real one, no boundary starts before it, and none is missed |
| `Sse.BoundaryIsStable` | dontlie/protocols.py:76-82 | a boundary found stays the first one whatever arrives later |
| `Sse.StraddlingBoundary` | dontlie/protocols.py:76-82 | a delimiter cut off by the end of a chunk hides no complete boundary behind its start |
| `Sse.CutIsExact` | dontlie/protocols.py:50-65 | frames, delimiters and buffer concatenate to the bytes fed; no frame and not the buffer holds a boundary |
| `Sse.CutInTwoGoes` | dontlie/protocols.py:50-65 | feeding in two goes cuts as feeding at once |
| `Sse.LinesAreStandard` | dontlie/protocols.py:89-90 | replacing and splitting yields the lines that section 9.2.5 of the HTML Living Standard defines |
| `Sse.ParseFrame` | dontlie/protocols.py:85-105 | the line loop collects event, id and data fields; no field, no event |
| `Sse.FieldReadsBack` | dontlie/protocols.py:92-96 | name, colon, optional space and value read as that field; a line without a colon has an empty value; a leading colon makes a comment |
| `Sse.FieldsOfLines` | dontlie/protocols.py:90-102 | the last event and id lines count, data lines accumulate in order, other fields do nothing |
| `Sse.EventIsWhatIsSaid` | dontlie/protocols.py:85-105 | no event iff the frame has no event, id or data line; else type and id are the last ones said, and splitting the data at line feeds gives the values said, in order |
| `Sse.TypeAndData` | dontlie/protocols.py:85-105 | an event line and a data line give type and data of the event |
| `Sse.BlankBytes` | dontlie/protocols.py:67-73 | the six bytes that make a rest blank |
| `Sse.SseDecoder.Feed` | dontlie/protocols.py:50-65 | returns the events of the complete frames and keeps exactly the rest |
| `Sse.SseDecoder.Finish` | dontlie/protocols.py:67-73 | a blank rest is dropped, any other is one last frame; the buffer is empty after |
| `Sse.DecodeSse` | dontlie/protocols.py:108-110 | one feed and a finish |
| `Sse.DecodedAreTheFramesEvents` | dontlie/protocols.py:44-110 | the events are those of the frames of the whole input that have one, in order |
| `Sse.StreamedIsCut` | dontlie/protocols.py:50-65 | any sequence of feeds amounts to cutting the concatenation |
| `Sse.ChunkingDoesNotMatter` | dontlie/protocols.py:44-110 | for every chunking, the events fed and finished are those of decoding the whole at once |
| `Convert.SplitMessages` | dontlie/protocols.py:376-396 | fails iff some message is refused, else splits turns from system texts in order |
| `Convert.KindIff` | dontlie/protocols.py:376-396 | which messages are system texts, which are turns, what is kept of each, and that all others are refused |
| `Convert.JoinSystemMeans` | dontlie/protocols.py:412-414 | several system texts are joined in order by a blank line |
| `Convert.ToolsMean` | dontlie/protocols.py:492-526 | which tools each mapper takes, and every field of what it makes of them |
| `Convert.StopMeans` | dontlie/protocols.py:422-430 | one stop text becomes a list of one, a list of texts stays, anything else is refused |
| `Convert.MapTools` | dontlie/protocols.py:492-526 | a tool list converts iff each tool does, one for one in order |
| `Convert.OpenAiToAnthropic` | dontlie/protocols.py:362-437 | the conversion with its loops computes the specification |
| `Convert.ToAnthropicIff` | dontlie/protocols.py:362-437 | which requests convert, and each field of the result, the precedence of the token limits included |
| `Convert.AnthropicToOpenAi` | dontlie/protocols.py:440-485 | the conversion back with its loops computes the specification |
| `Convert.ToOpenAiIff` | dontlie/protocols.py:440-485 | which requests convert, and each field of the result |
| `Convert.ValidatorMeans` | dontlie/protocols.py:245-269 | the validator loop accepts exactly requests with a model, a positive limit, well-formed messages and a system text or blocks |
| `Convert.ConvertMessages` | dontlie/protocols.py:452-468 | the message loop converts one for one in order, or fails |
| `Convert.MessagesConvertIff` | dontlie/protocols.py:452-468 | the messages convert iff each does, one for one in order |
| `Convert.MessageMeans` | dontlie/protocols.py:452-468 | which messages convert; role and text are kept, text blocks are joined |
| `Convert.BlockTextsMean` | dontlie/protocols.py:452-468 | the text of joined block lists is the joined text |
| `Convert.TuningFacts` | dontlie/protocols.py:415-421 | exactly the tuning keys present are copied, nothing else is touched |
| `Convert.SystemFirst` | dontlie/protocols.py:376-396 | a leading system message becomes the first system text and leaves the turns alone |
| `Convert.PlainToolsKept` | dontlie/protocols.py:492-526 | tools with explicit schemas survive both mappers |
| `Convert.PlainToOpenAi` | dontlie/protocols.py:440-485 | what a plain request looks like key by key once converted |
| `Convert.OpenAiFormBack` | dontlie/protocols.py:362-437 | any request of that shape converts to the plain request |
| `Convert.RoundTripIsIdentity` | dontlie/protocols.py:362-526 | to OpenAI and back is the identity on plain requests |
| `Convert.ConvertedIsPlain` | dontlie/protocols.py:362-437 | every request converted from OpenAI is plain |
| `Convert.RoundTripIffPlain` | dontlie/protocols.py:362-526 | over all requests, exactly the plain ones come back unchanged |
| `Convert.ConvertingAgainChangesNothing` | dontlie/protocols.py:362-526 | OpenAI to Anthropic to OpenAI to Anthropic equals converting once |
| `Convert.ConvertedPassesTarget` | dontlie/protocols.py:154-269 | every converted request passes the target's validator, both ways |
| `Convert.TurnsKeepOrder` | dontlie/protocols.py:376-396 | converted messages are the non-system ones, in their order, role and text kept |
| `Der.OctetsByLoop` | dontlie/anchor/rfc3161.py:96-103 | collecting low octets and reversing gives the base-256 digits |
| `Der.DerLength` | dontlie/anchor/rfc3161.py:78-86 | short form below 0x80, else counted octets |
| `Der.LengthForms` | dontlie/anchor/rfc3161.py:78-86 | below 128 one octet; from there on the count of octets and the shortest octets that spell the length |
| `Der.EncodeInteger` | dontlie/anchor/rfc3161.py:93-109 | the written INTEGER with its last-octet tests |
| `Der.EncodeOidBody` | dontlie/anchor/rfc3161.py:112-134 | arcs in base 128 with continuation bits, or failure for short, oversized or negative ones |
| `Der.OidWrittenIff` | dontlie/anchor/rfc3161.py:112-134 | an identifier is written iff it has two arcs that fit one octet and no negative one behind |
| `Der.ReadTlv` | dontlie/anchor/rfc3161.py:193-222 | on any bytes, success means the cursor moved past at least two octets and stayed inside |
| `Der.Reader.Read` | dontlie/anchor/rfc3161.py:193-198 | returns the next n bytes and moves past them, or fails in place |
| `Der.Reader.ReadTag` | dontlie/anchor/rfc3161.py:205-218 | reads tag and length exactly when the value that follows fits |
| `Der.Reader.ReadOne` | dontlie/anchor/rfc3161.py:220-223 | tag, content and cursor of one value |
| `Der.DecodeOidByLoop` | dontlie/anchor/rfc3161.py:248-266 | the nested loops decode first octet and arcs, failing on a truncated arc |
| `Der.OctetsValue` | dontlie/anchor/rfc3161.py:96-103 | the octets written spell the number |
| `Der.PositiveRoundTrip` | dontlie/anchor/rfc3161.py:93-109 | a positive integer survives iff its first and last octets are below 0x80 |
| `Der.NegativeRoundTrip` | dontlie/anchor/rfc3161.py:93-109 | of the negative integers only -64 survives |
| `Der.IntegerRoundTripIff` | dontlie/anchor/rfc3161.py:93-246 | over all integers, exactly 0, -64 and those positive ones read back |
| `Der.SmallestBrokenInteger` | dontlie/anchor/rfc3161.py:104-105 | 128 is written 80 00 and read as -32768; everything from 0 to 127 survives |
| `Der.OneArc` | dontlie/anchor/rfc3161.py:122-134 | one arc reads back at any position and stops at its end |
| `Der.ArcsReadBack` | dontlie/anchor/rfc3161.py:248-266 | so does a list of arcs |
| `Der.OidRoundTripIff` | dontlie/anchor/rfc3161.py:112-266 | an identifier that can be written reads back iff its second arc is from 0 to 39 |
| `Der.DecodeOidFailsIff` | dontlie/anchor/rfc3161.py:248-266 | decoding fails iff there are no octets or the last of several has its continuation bit set |
| `Der.TlvRoundTrip` | dontlie/anchor/rfc3161.py:78-222 | any content shorter than 256^127 octets reads back with its tag in any context |
| `Der.LongFormReads` | dontlie/anchor/rfc3161.py:193-222 | a length in any number of octets reads back, shortest or not |
| `Der.ReadMeansFramed` | dontlie/anchor/rfc3161.py:193-222 | whatever is read, from any bytes, stands there framed by its tag and length |
| `Der.TruncationIsRefused` | dontlie/anchor/rfc3161.py:193-222 | a header that is cut short, or misses content, does not read |
| `Der.TlvStable` | dontlie/anchor/rfc3161.py:193-222 | what has been read stays the same whatever bytes follow |
| `Der.HashOidBody` | dontlie/anchor/rfc3161.py:297-317 | the four hash identifiers survive writing |
| `Der.HashIdentifiers` | dontlie/anchor/rfc3161.py:297-317 | which identifier belongs to which hash name, and that there are no others |
| `Der.Sha256Octets` | dontlie/anchor/rfc3161.py:297-317 | the nine octets of the identifier of SHA-256 |
| `Der.FieldsReadBack` | dontlie/anchor/rfc3161.py:346-354 | three or four values in a row read one after the other to the end |
| `Der.RequestReadsBack` | dontlie/anchor/rfc3161.py:324-354 | a built request reads back as version 1, hash identifier, digest and nonce field, nothing left over |
| `Der.BuildsIff` | dontlie/anchor/rfc3161.py:324-354 | a request is built iff digest size, hash name and nonce size are among those allowed |
| `Privacy.Detect` | dontlie/privacy.py:226-258 | the nested loops claim in registration order and sort in place |
| `Privacy.ClaimMatches` | dontlie/privacy.py:236-256 | the inner loop adds what one detector claims to what was claimed before |
| `Privacy.OverlapsIff` | dontlie/privacy.py:449-450 | two non-empty spans overlap iff they share a position |
| `Privacy.SortedBySpan` | dontlie/privacy.py:257-258 | the hits returned are those claimed, by start and then by end |
| `Privacy.ClaimedHits` | dontlie/privacy.py:226-258 | claimed hits never overlap and record text and digest of their span |
| `Privacy.DetectedAreSortedAndDisjoint` | dontlie/privacy.py:226-258 | hits come out in text order, disjoint, each recording what it covers |
| `Privacy.DroppedMatchesOverlapEarlierHits` | dontlie/privacy.py:226-258 | every match is reported unless a reported hit of an earlier match overlaps it |
| `Privacy.DetectedAreMatches` | dontlie/privacy.py:226-258 | nothing is reported that no detector matched |
| `Privacy.IsMatchIff` | dontlie/privacy.py:437-446 | what a match is: the span of the pattern, the text it covers, its digest and the detector’s names |
| `Privacy.RedactText` | dontlie/privacy.py:294-319 | the cursor loop computes the left-to-right splice |
| `Privacy.AppliedBounds` | dontlie/privacy.py:294-319 | for any detections at all, those applied are non-empty, in range and disjoint |
| `Privacy.DetectedHitsAreAllApplied` | dontlie/privacy.py:294-319 | redacting with what detect returned replaces exactly its non-empty hits |
| `Privacy.TokenStandsAt` | dontlie/privacy.py:294-319 | where the token of each applied hit stands in the redacted text, spelled out character by character |
| `Privacy.RestoreFrom` | dontlie/privacy.py:294-319 | from any cursor, putting hit texts back restores the rest of the text |
| `Privacy.RedactionIsReversible` | dontlie/privacy.py:294-319 | redacted text and recorded hits give the original back |
| `Privacy.SameRedactionFrom` | dontlie/privacy.py:294-319 | the next property from any cursor |
| `Privacy.SameRedactionIff` | dontlie/privacy.py:294-319 | equal-length texts redact alike iff they agree outside the applied spans |
| `Privacy.ForensicCheckIff` | dontlie/privacy.py:548-574 | among originals of any length that reach behind every redaction, exactly those of the text's length that agree with it outside the redactions pass |
| `Privacy.ForensicCheckExactIff` | dontlie/privacy.py:548-574 | over all originals, the check is exact iff from each hit on the redacted text reaches as far as the hit did |
| `Privacy.RedactedKeyPassesForOriginal` | dontlie/privacy.py:548-574 | the redacted text of a 100-character key passes in place of the key |
| `Privacy.ShorterTextIsTold` | dontlie/privacy.py:294-319 | when the reach is kept, a text too short for some hit never redacts to the same text |
| `Privacy.RedactedLength` | dontlie/privacy.py:294-319 | redaction changes the length by the differences between tokens and hits |
| `Privacy.SameRedactionAnyLength` | dontlie/privacy.py:294-319 | when every hit fits both texts, equal redactions mean equal lengths and equal gaps |
| `Privacy.ShortHitsKeepReach` | dontlie/privacy.py:122-124 | hits no longer than their tokens keep the reach |
| `Redaction.Merge` | dontlie/redaction.py:104-114 | the loop over `last_end` computes the greedy selection |
| `Redaction.MergeIsSound` | dontlie/redaction.py:104-114 | a sorted disjoint sub-multiset; whatever is dropped starts inside something kept |
| `Redaction.OneReplacement` | dontlie/redaction.py:96-100 | replacing span k leaves every earlier offset valid |
| `Redaction.Apply` | dontlie/redaction.py:93-101 | right-to-left replacement equals interleaving untouched gaps and tokens from left to right |
| `Luhn.LuhnCheck` | dontlie/patterns.py:8-20 | the loop accepts exactly the texts whose digits, of any script, are of accepted number and weigh a multiple of ten; it raises when a digit has no value |
| `Luhn.WeightMeans` | dontlie/patterns.py:12-20 | which digits are doubled, and that the two digits of a doubled one are added |
| `Luhn.AcceptedLengths` | dontlie/patterns.py:11 | from 13 to 19 digits, no more and no fewer |
| `Luhn.DigitsOfConcat` | dontlie/patterns.py:10 | the digits of two texts one after the other are the digits of both |
| `Luhn.SeparatorsAreSkipped` | dontlie/patterns.py:10 | characters that are no digits do not matter, wherever they stand |
| `Luhn.RaisesIff` | dontlie/patterns.py:10 | the check raises iff some character is a digit that int refuses |
| `Luhn.SpelledReadsBack` | dontlie/patterns.py:10 | an ASCII digit string is read as its digits |
| `Luhn.TotalUpdate` | dontlie/patterns.py:12-20 | changing one digit shifts the total by the difference of the two weights |
| `Luhn.SingleErrorDetected` | dontlie/patterns.py:8-20 | changing one digit of a passing number makes it fail |
| `Luhn.TranspositionDetectedIff` | dontlie/patterns.py:8-20 | swapping adjacent unequal digits goes unnoticed iff they are 0 and 9 |
| `Luhn.OneCheckDigit` | dontlie/patterns.py:8-20 | each prefix has exactly one passing final digit |
| `Normalize.Normalizer.Visit` | onboard/runtime.py:99-147 | terminates on cyclic graphs, returns the specified output, leaves `seen` as it found it |
| `Normalize.Normalizer.VisitItems` | onboard/runtime.py:116-127 | the mapping loop hides or visits each value, later keys overwriting earlier ones |
| `Normalize.Normalizer.VisitRefs` | onboard/runtime.py:128-129 | the sequence loop visits each element in order |
| `Normalize.FieldsAt` | onboard/runtime.py:116-127 | what stands under each key of the output |
| `Normalize.WhichKeysAreHidden` | onboard/runtime.py:116-126 | the eight secret and three transport names, compared in lower case with hyphens as underscores, and what replaces their values |
| `Normalize.SpelledWithHyphens` | onboard/runtime.py:116-125 | two headers as they are usually spelled are hidden |
| `Normalize.DownOneStep` | onboard/runtime.py:99-147 | one step down the output is one step down the graph with the parent added to `seen` |
| `Normalize.Descend` | onboard/runtime.py:99-147 | along a path without a repetition, the output is that of the node the path leads to |
| `Normalize.LeavesAreReached` | onboard/runtime.py:99-107 | a scalar at the end of such a path, at most twelve steps down, is output as it is and bytes as length and digest |
| `Normalize.TruncatedFrom` | onboard/runtime.py:108-109 | the depth marker stands exactly where such a path reaches a mapping or sequence at depth twelve |
| `Normalize.RenderedSummaries` | onboard/runtime.py:102-113 | what byte summaries and both markers look like in JSON |
| `Normalize.CycleMarkersFrom` | onboard/runtime.py:99-147 | the next property for any `seen` and depth |
| `Normalize.CycleMarkersAreExact` | onboard/runtime.py:99-147 | above the depth limit a cycle marker is emitted at a path iff the path first returns to one of its own nodes there |
| `Normalize.LookalikesFrom` | onboard/runtime.py:116-127 | where a mapping that holds just a text under "_cycle" is written out |
| `Normalize.WrittenMarkersAreExact` | onboard/runtime.py:99-147 | in the JSON written, a marker object stands at a path iff a cycle was cut there or such a mapping written out |
| `Normalize.HiddenValuesDoNotMatter` | onboard/runtime.py:116-127 | graphs that agree except under secret-named and transport-named keys normalise alike |

## Left out

- SQLite beyond transactional table state, files, network, environment and clock; CLI, TUI, web UI, HTML report, backup, witnesses, anchoring over the network, proxies and SDK patching.
- The cryptography itself: SHA-256, Ed25519, Argon2, AES-GCM and X.509 are abstract or absent.
- `namespace.create`: only its effect on the set of names; its check of the name's spelling is not modelled.
- `Chain.TipHashCommitsToHistory`: histories with receipts that carry no chain version, because the verifier does not check a parent hash for those.
- `Batch.CreatedBatchProves`: the two batch tables, and which batch `prove` picks when a receipt is in several; the result is for every batch created.
- `Batch.BatchHoldsIffUnchanged`: a stored hash that is not hexadecimal, on which the program raises as on one of the wrong size.
- `Vault.ReachedVaultValidity`: receipts whose `extra` holds a dict with keys that are not texts, whose serialisation changes when the row is reloaded.
- `Export.ExportVerifiesStripped`: the order of the revoked ids in the written file, which reading does not depend on.
- The error texts, and the lists of transformations and limitations the converters return beside the body: every refusal is `None`, and so is the `TypeError` for a role that is a list or an object.
- `Convert.TurnsKeepOrder`: content blocks are joined to text as in the code; the blocks themselves have no counterpart after conversion.
- `CborDecoding.DecodedReencodes`: inputs of 4 GiB and more, which can hold a list too long to be encoded.
- `Cbor.Read`: the recursion limit of the interpreter on deeply nested input.
- `Base64.UrlRoundTrip`: decoding of texts with characters outside the alphabet, some of which the library skips; the envelope verifier takes any decoder that agrees on strict texts.
- `Cose.ReceiptEnvelopeVerifies`: parsing of the public key's PEM text; the verifier takes a key, or none when it does not load.
- `Der.RequestReadsBack`: letter case of the hash name and the dotted text form of identifiers; arcs are integers. The nonce field reads back as the content octets written, since its integer need not survive.
- `Der.TlvRoundTrip`: contents of 256^127 octets and more, whose length of length does not fit its octet.
- `Privacy.Detect`: which spans a pattern matches; detectors bring arbitrary spans inside the text. Registering detectors and the fingerprint and forensic modes are left out.
- `Redaction.Apply`: the rule patterns and the Luhn filter in front of it; detections are arbitrary non-empty spans inside the text.
- `Normalize.Normalizer.Visit`: dataclass, `model_dump`, `to_dict`, `dict` and `repr` branches, whose results come from code of the objects' own classes; nodes are mappings, sequences, byte strings and scalars. The stream proxies around it are left out.
- `to_obsigna_compat` and the response-text extractors of the adapters.
