# A verified model of WasmAgent's evidence pipeline and its algorithms

The project models, in Dafny 4.11, the parts of the WasmAgent repository whose promises no finite set of
examples settles, and proves those promises for all inputs, all runs or all reachable states.

* **Agent evidence protocol** (`packages/aep`). The canonical JSON printer of RFC 8785 (sections 3.2.2.2 and
  3.2.3), record digests and validation, the emitter that links and signs records, DSSE pre-authentication encoding
  (DSSE 1.0.2, section 2), envelope binding, the chain verifier, the hash-chained ledger, the compressor and
  the evidence bundle. The results build on each other: canonical bytes determine a value's content, digests
  determine records, the last digest determines the whole chain.
* **Evidence mirror and publisher.** Two-way reconciliation of a local log and a remote store, and the
  store-watching loop under every interleaving.
* **Code-mode executor** (`packages/aisdk`). The pause, resolve, re-run loop against an interpreter that runs
  the script once.
* **Workflow engine** and **rate limiter** (`packages/cloudflare-worker`), the **arithmetic evaluator** of the
  basic agent example, **event-log replay** and the **Pareto report**.

Modules follow the source files. What the source computes step by step is a method, often of a class with the
source's fields, proved against a specification function; what the source promises is proved about that
function. Values of JavaScript are `JsonValue.Value`, with objects as members in insertion order and strings as
UTF-16 code units. A record is any such object with distinct keys, so results about records cover every field.

Two things are parameters. SHA-256 is an arbitrary function: a theorem that relies on collision resistance ends in
"or these inputs collide" and names them, so no false injectivity is assumed; only where digests are concatenated
must they be hexadecimal and equally long (`Hashes.HexHash`). Signature verification and base64 are functions with
the laws `verify(key, m, sign(m))` and `decode(encode(b)) == b`.

The emitter and the bundle are proved for any record schema with two properties, `Schema.Lawful` (validated fields
are fixed points, and the fields the emitter writes are accepted as they are) and `Schema.JsonStable` (a validated
field keeps its content through normal form). Both are theorems about the schema as it is declared
(`AepSchema.AepLawful`), because every schema built from its validators has the general part
(`Zod.CheckFixed`, `Zod.CheckSame`).

Where the code and its own prose disagree, or a promise holds only under a condition, the model follows the code:

* `evidenceMirror.ts:39-40` says a repeated sync reports no conflicts. It reports again exactly the conflicts the
  first push gave to the remote side (`Mirror.SyncIsIdempotent`, `Mirror.RepeatIsSilentIff`,
  `MirrorPolicies.RepeatCanConflict`).
* `evidenceMirror.ts:26-29` says the default key never conflicts. It leaves the signature out, which the comparison
  of records does not: a sync under it is free of conflicts exactly when the remote holds no local record signed
  differently, or else a digest collides (`MirrorPolicies.DefaultQuietIff`); one record under two signatures
  conflicts (`MirrorPolicies.ResigningConflicts`). "Pure set-union", and the same set of records on both sides
  (`evidenceMirror.ts:345-348`), hold in the same way: exactly when no two records of the two sides are one record
  signed differently (`MirrorPolicies.DefaultUnionIff`). A log that holds one record under two signatures keeps one
  that the remote never gets (`MirrorPolicies.SecondSignatureStaysLocal`).
* `emitter.ts:317-325` moves the chain head before the evidence store runs. When the store throws, the caller never
  gets that record, and the records it does get are an intact chain exactly when none was lost before a later
  one (`EmitterProofs.ReturnedIntactIff`).
* `ledger.ts:128-133` and `evidenceCompressor.ts:271-277` count labels in plain objects. A label is counted exactly
  unless it names a property every object inherits, such as "constructor" (`Rollups.LabelCountedIff`,
  `Rollups.InheritedLabelSpoils`).
* `rateLimit.ts:71-75` says a corrupt record may be overwritten by a later allowed call. No call is allowed while
  the record is corrupt, whatever the calls; only its expiry ends that (`RateLimit.CorruptStays`,
  `RateLimit.ExpiryRecovers`).
* `rateLimit.ts:84-90` answers a rejection with a time to retry. Under a quota of zero or less, which the code accepts,
  no call is ever allowed, at that time or any other (`RateLimit.NoQuotaNeverAllows`).
* `CloudflareWorkflowEngine.ts:50-65` resolves `$n` against whatever has run. Declaring the same steps in another
  order can therefore change the results, exactly when the workflow can be sorted and some tool step mentions another
  step while neither depends on the other, directly or through others (`WorkflowRun.OrderMattersIff`).
* `dsse.ts:24-25` says the canonical form is not RFC 8785; `canonical.ts` implements RFC 8785.
* The executor reports what a script throws by its message or, when that is empty, its text, so `new Error("")`
  becomes "Error"; only a thrown value without any text is lost, and one that starts with the executor's marker is
  replaced (`CodemodeProofs.ThrownAtOnce`, `CodemodeProofs.EmptyTextIff`, `CodemodeProofs.ReportIsPlainIff`). A tool
  error has no such fallback: with an empty message it arrives as a result, and a string result that is JSON text
  arrives as the value it denotes (`CodemodeProofs.ChannelLosses`, `CodemodeProofs.ChannelIsFaithfulIff`).

## Model

| member | source | states |
|---|---|---|
| KeyOrder.CompareUtf16 | packages/aep/src/canonical.ts:22-29 | the comparator's sign is exactly the lexicographic order of UTF-16 units; zero only for equal strings |
| KeyOrder.LessTotal | packages/aep/src/canonical.ts:22-29 | the key order is total |
| KeyOrder.LessTransitive | packages/aep/src/canonical.ts:22-29 | the key order is transitive |
| KeyOrder.AscendingUnique | packages/aep/src/canonical.ts:45 | there is only one strictly ascending arrangement of a set of keys, so key order in the output is forced |
| Serializer.SortWithComparator | packages/aep/src/canonical.ts:45 | sorting with the comparator gives the sorted keys |
| Serializer.SerializeValue | packages/aep/src/canonical.ts:31-52 | the recursive printer returns nothing for undefined and otherwise the canonical text, for every value |
| Serializer.SerializePairs | packages/aep/src/canonical.ts:43-51 | the object branch produces exactly the pair texts of the defined members in key order |
| Serializer.PairTextsPrint | packages/aep/src/canonical.ts:43-51 | the joined pair texts are the print of the normalised members sorted by key |
| Serializer.SerializeBytes | packages/aep/src/canonical.ts:61-64 | the bytes are the UTF-8 encoding of the canonical text, with `null` for undefined |
| NormalForm.NormalIffSameContent | packages/aep/src/canonical.ts:31-52 | two values have equal normal forms exactly when they have the same JSON content, defined without sorting or printing |
| NormalForm.ReorderedMembersSameContent | packages/aep/src/canonical.ts:31-52 | permuting an object's members does not change its content |
| JsonParser.ParsePrint | packages/aep/src/canonical.ts:31-52 | parsing the print of any clean value gives the value back |
| JsonParser.ReadValueWellFormed | packages/aep/src/exportAdapter.ts:295-297 | whatever the parser accepts is a value with distinct keys at every depth, later duplicates winning |
| RoundTrip.ParseCanonical | packages/aep/src/canonical.ts:31-64 | parsing canonical text recovers the normal form: undefined members dropped, undefined slots null, keys ascending |
| RoundTrip.ParseStringify | packages/aep/src/emitter.ts:277 | `JSON.parse(JSON.stringify(v))` keeps exactly the cleaned value |
| RoundTrip.CanonicalDecidesContent | packages/aep/src/canonical.ts:31-52 | equal canonical texts if and only if equal content, whatever the insertion order |
| RoundTrip.BytesDecideContent | packages/aep/src/canonical.ts:61-64 | equal canonical bytes if and only if equal content |
| RoundTrip.NormalIdempotent | packages/aep/src/canonical.ts:31-52 | normalising twice changes nothing |
| Utf8.DecodeEncode | packages/aep/src/canonical.ts:61-64 | UTF-8 decoding inverts encoding on text without lone surrogates |
| Utf8.EncodesAlikeIff | packages/aep/src/canonical.ts:61-64 | for all texts, two encode alike exactly when they agree once every lone surrogate is replaced |
| Utf8.WellFormedIffPaired | packages/aep/src/canonical.ts:61-64 | replacing changes exactly the texts with a lone surrogate |
| Utf8.EncodeInjective | packages/aep/src/canonical.ts:61-64 | encoding is injective on text without one |
| Utf8.LoneSurrogatesCollide | packages/aep/src/canonical.ts:61-64 | so any two lone surrogates encode alike |
| RoundTrip.PrintPaired | packages/aep/src/canonical.ts:31-52 | printed JSON never contains a lone surrogate, so the condition always holds where it is needed |
| Records.DigestFixesContent | packages/aep/src/evidenceCompressor.ts:393-397 | records of equal unsigned content have equal digests, and equal digests mean equal unsigned content or a collision between the two |
| Records.SameUnsignedGet | packages/aep/src/verify.ts:208-260 | records of equal unsigned content agree on every property except signature and envelope |
| Chain.VerifyAEPChain | packages/aep/src/verify.ts:208-260 | the verifier's result is the classification of the chain, with `brokenAt` the least bad index |
| Chain.ClassificationUnique | packages/aep/src/verify.ts:208-260 | a chain has exactly one classification |
| Chain.GenesisFixesHistory | packages/aep/src/verify.ts:208-260 | two linked chains from a first record, of any lengths, with equal last digests have equal length and pointwise equal unsigned content, or a collision |
| Chain.LastDigestFixesHistory | packages/aep/src/verify.ts:208-260 | two intact chains with equal last digests hold the same history, or two of their records collide |
| Chain.DigestsDistinct | packages/aep/src/verify.ts:208-260 | no digest repeats inside a linked chain, unless two of its records collide |
| Chain.OrderIsFixed | packages/aep/src/verify.ts:208-260 | an ordering of an intact chain's records that is intact too is the same sequence, unless two of them collide |
| Chain.DeletionBreaks | packages/aep/src/verify.ts:208-260 | removing an interior record of an intact chain is reported as broken at exactly that index, or a collision |
| Chain.KeptIsIntactIff | packages/aep/src/verify.ts:208-260 | two or more records of a chain, in its order, are an intact chain exactly when they are its first ones, or two records collide |
| Chain.LostPrefixOrphans | packages/aep/src/verify.ts:208-260 | losing a proper prefix leaves an orphaned chain |
| Chain.LostSuffixStaysIntact | packages/aep/src/verify.ts:208-260 | losing a suffix leaves an intact chain while two records remain |
| Dsse.PaeEncode | packages/aep/src/dsse.ts:65-76 | the buffer filled at computed offsets is exactly the specified concatenation |
| Dsse.PaeInjective | packages/aep/src/dsse.ts:65-76 | the pre-authentication encoding determines both the type and the body |
| Dsse.DecodeEncoded | packages/aep/src/dsse.ts:123-126 | the lenient base64 decoder decodes standard base64 |
| Dsse.BindingDigests | packages/aep/src/verify.ts:79-130 | a binding that is not invalid has digest agreement between predicate, record and statement subject |
| Dsse.EnvelopeFixesRecord | packages/aep/src/verify.ts:79-191 | any two records that verify with the same envelope payload have equal content apart from signature, envelope and timestamp proof, schema version included even across the v0.3/v0.4 window, or a compared hash collides |
| Dsse.ExactMeansSameContent | packages/aep/src/verify.ts:79-130 | an exact binding means the signed predicate has the record's content, or a collision |
| Schema.ParseRecordGet | packages/aep/src/types.ts:218-329 | a validated record holds exactly the normalised known fields and no unknown ones |
| Schema.ParseRecordIdempotent | packages/aep/src/types.ts:218-329 | under a lawful schema, validating a validated record again changes no property |
| Zod.CheckFixed | packages/aep/src/types.ts:44-329 | for every schema the validators can form and every value, what validation returns is well formed and a fixed point of it |
| Zod.CheckSame | packages/aep/src/types.ts:44-329 | for every such schema, values of equal JSON content are both refused, or give results of equal content |
| Zod.RecordIsObject | packages/aep/src/types.ts:218-329 | validating a record field by field is validating it by the object schema of those fields |
| Zod.SchemaKeeps | packages/aep/src/types.ts:218-329 | every record schema of this kind keeps validated properties and their content through normal form |
| AepSchema.AepLawful | packages/aep/src/types.ts:44-329 | the record schema, field by field as declared, satisfies every law the emitter and the bundle rely on |
| AepSchema.ProofFitsShape | packages/aep/src/timestamper.ts:27-36 | what a timestamper returns, log index given or not, is accepted by the schema unchanged |
| Emitter.ComputeSideEffectMax | packages/aep/src/emitter.ts:330-343 | the loop computes the run-level side-effect class |
| Emitter.SideEffectMaxIsMax | packages/aep/src/emitter.ts:330-343 | that class belongs to some action and no action is more severe |
| Emitter.FloorIsWeakest | packages/aep/src/emitter.ts:365-426 | a record's attribution floor is an observed grade, no observed grade is weaker, and a claimed floor is accepted only if it is that grade |
| Emitter.AEPEmitter.AddAction | packages/aep/src/emitter.ts:138-160 | one addition appends the completed action and, at most once per capability, subject and resource, its decision |
| Emitter.AEPEmitter.PushCapabilityDecision | packages/aep/src/emitter.ts:166-174 | a decision is recorded unless one for the same capability, subject and resource is there |
| Emitter.AEPEmitter.Emit | packages/aep/src/emitter.ts:231-328 | a call is one transition: a finished record moves the chain head to its digest and is returned if the evidence store takes it; a throw before the store changes nothing |
| EmitterProofs.EmitReturnsExactlyWhen | packages/aep/src/emitter.ts:231-317 | a record is finished exactly when there are actions (or empty ones are allowed), the floor rule and validation accept the record, and signer and timestamper do not throw |
| EmitterProofs.UnsignedCarriesEvidence | packages/aep/src/emitter.ts:428-456 | whatever the options spread before them, input and output references, decisions, actions, verifier results, budget, creation time and chain head each reach the record under their own name |
| EmitterProofs.BuildUnsignedBuilt | packages/aep/src/emitter.ts:345-456 | whatever the options spread over it, the unsigned record carries the current chain head, the actions so far and the run id, and no timestamp proof |
| EmitterProofs.StampGet | packages/aep/src/emitter.ts:244-266 | property by property, what survives both normalisations and the version stamp |
| EmitterProofs.SignKeeps | packages/aep/src/emitter.ts:277-307 | signing cannot fail validation and changes nothing but signature and envelope |
| EmitterProofs.StatementComesBack | packages/aep/src/emitter.ts:271-292 | the verifier reads back from the envelope exactly the statement that was signed |
| EmitterProofs.EmittedIsGood | packages/aep/src/emitter.ts:231-317 | every finished record verifies as `dsse-valid` with an exact binding and links to the chain head before it |
| EmitterProofs.EveryRun | packages/aep/src/emitter.ts:138-328 | an invariant of every run of adds, emissions and emissions that throw, at whichever step |
| EmitterProofs.EmittedChainIsIntact | packages/aep/src/emitter.ts:138-328 | after any run from a fresh emitter all finished records verify exactly, two or more are an intact chain, and each one's actions are a prefix of the next one's |
| EmitterProofs.ReturnedIntactIff | packages/aep/src/emitter.ts:317-328 | with an evidence store that may throw, two or more returned records are an intact chain exactly when no lost record was finished before a returned one, or two records collide |
| EmitterProofs.NothingLost | packages/aep/src/emitter.ts:317-328 | with a store that never throws, every finished record is returned |
| Rollups.BuildToolRollups | packages/aep/src/ledger.ts:104-147 | the nested loops, updating one entry field by field, give for each tool in order of first use the counts of its own calls, their class and outcome histograms, and the error rate |
| Rollups.CompressToolStats | packages/aep/src/evidenceCompressor.ts:222-328 | the compressor's own loop and counters give the same counts and histograms, and the total of actions |
| Rollups.HistogramSnoc | packages/aep/src/ledger.ts:128-133 | one counting step takes the histogram of the labels so far to that of one more, for every label |
| Rollups.LabelCountedIff | packages/aep/src/ledger.ts:128-133 | a label that was used is counted exactly if and only if it is not an inherited property name |
| Rollups.InheritedLabelSpoils | packages/aep/src/ledger.ts:128-133 | two calls with the outcome "constructor" leave an entry that is no number |
| Rollups.CallsConserve | packages/aep/src/ledger.ts:104-139 | the calls over all tools add up to the actions |
| Rollups.RollupBalances | packages/aep/src/ledger.ts:104-147 | the class buckets sum to the count exactly when no class is an inherited property name, the error count is the sum of the three failure labels, and the rate is their share |
| Rollups.BothSummaries | packages/aep/src/evidenceCompressor.ts:222-328 | the two summaries, each computed by its own loop, agree tool by tool, balance, and conserve the number of actions |
| Hashes.JoinInjective | packages/aep/src/evidenceCompressor.ts:404-410 | a concatenation of parts of one positive length determines the parts |
| Hashes.FromHexInjective | packages/aep/src/evidenceCompressor.ts:404-410 | decoding hexadecimal is injective |
| Ledgers.Ledger.Append | packages/aep/src/ledger.ts:295-318 | an unsigned record is refused and changes nothing; otherwise the next ledger record is appended and the ledger stays valid |
| Ledgers.AppendValid | packages/aep/src/ledger.ts:295-318 | appending keeps sequence numbers equal to positions and links equal to previous hashes |
| Ledgers.LedgerHashFixes | packages/aep/src/ledger.ts:215-219 | a ledger hash fixes sequence number, link and record content, or the two collide |
| Ledgers.HeadFixesLedger | packages/aep/src/ledger.ts:295-318 | two valid ledgers with equal last hashes are the same ledger, or two records collide |
| Ledgers.Ledger.Compact | packages/aep/src/ledger.ts:374-426 | which requests are refused and with which error, and that an accepted one proves and describes the prefix |
| Ledgers.Summarise | packages/aep/src/ledger.ts:391-425 | end points, proof, rollups, least and greatest times, and run ids in order of first appearance |
| Ledgers.TimeRange | packages/aep/src/ledger.ts:394-397 | the least and greatest creation times, each attained |
| Ledgers.DistinctRunIds | packages/aep/src/ledger.ts:399 | every run id once, in order of first appearance |
| Ledgers.CompactionStaysValid | packages/aep/src/ledger.ts:440-461 | a compaction verifies at once and after any later appends |
| Ledgers.AcceptedCompactionFixesRange | packages/aep/src/ledger.ts:440-461 | two ledgers that accept one compaction hold the same records in its range, or ledger records or proof inputs collide |
| Compressor.Compress | packages/aep/src/evidenceCompressor.ts:199-368 | only the empty chain is refused; fingerprint, end points, times, run ids, tool statistics, decision counts and budget totals of the summary |
| Compressor.CountDecisions | packages/aep/src/evidenceCompressor.ts:281-297 | each bucket counts the decisions of its kind; the total is the sum of the buckets and reaches the number of decisions exactly when every decision is of a known kind |
| Compressor.ValidatedAllCounted | packages/aep/src/evidenceCompressor.ts:77-78 | of records the schema returned every decision is counted: the total is the number of decisions |
| AepSchema.DecisionsKnown | packages/aep/src/types.ts:68-82 | validation leaves an array of decisions, each of one of the four kinds |
| Compressor.SumBudget | packages/aep/src/evidenceCompressor.ts:299-317 | a budget total is the sum over the records that report the dimension, absent when none does |
| Compressor.FingerprintFixesRecords | packages/aep/src/evidenceCompressor.ts:379-410 | an accepted fingerprint fixes the records, their order and their number, or a collision |
| Compressor.SummaryVerifies | packages/aep/src/evidenceCompressor.ts:379-386 | a summary's fingerprint verifies against its own records |
| Compressor.SpliceIffLinked | packages/aep/src/evidenceCompressor.ts:349-353 | for two or more records followed by at least one, the whole is intact exactly when the first part is intact, the second orphaned, and the second summary's previous hash is the first summary's last hash |
| Bundles.BuildEvidenceBundle | packages/aep/src/exportAdapter.ts:160-199 | building fails exactly when a record does not validate, and otherwise the manifest describes the normalised records |
| Bundles.DescribeRecords | packages/aep/src/exportAdapter.ts:166-192 | entries, digests, sorted run ids, time range, count and the digest over the manifest without itself |
| Bundles.VerifyEvidenceBundle | packages/aep/src/exportAdapter.ts:213-276 | every flag holds exactly when its condition does, and the first bad digest and link are reported |
| Bundles.ReparseSucceeds | packages/aep/src/exportAdapter.ts:160-199 | validating validated records again succeeds and keeps their content |
| BundleProofs.RecordSurvives | packages/aep/src/exportAdapter.ts:283-297 | a validated record printed, parsed and validated again has the same content |
| BundleProofs.ManifestSurvives | packages/aep/src/exportAdapter.ts:283-297 | a built manifest reads back unchanged |
| BundleProofs.BundleRoundTrip | packages/aep/src/exportAdapter.ts:283-297 | a built bundle serialised and parsed has the same manifest and records of equal content |
| BundleProofs.SameVerdict | packages/aep/src/verify.ts:159-191 | records of equal content get the same verdict with any key, whatever the order of their members |
| BundleProofs.BuiltBundleVerifiesIff | packages/aep/src/exportAdapter.ts:160-297 | it then verifies, with or without a key, exactly when its chain is intact or it holds at most one unlinked record, and with a key every record verifies |
| BundleProofs.DigestFixesBundle | packages/aep/src/exportAdapter.ts:130-140 | two verifying bundles with equal digests have equal manifests and the same unsigned records, or a collision |
| EmitterBundle.EmittedBundleVerifies | packages/aep/src/exportAdapter.ts:160-297 | in every run of an emitter, bundling what it finished cannot fail, and the bundle serialised and parsed back verifies with the public key, signatures included |
| EmitterBundle.AepEvidenceVerifies | packages/aep/src/exportAdapter.ts:160-297 | the same for the declared record schema, with nothing assumed of it |
| Mirror.EvidenceMirror.Push | packages/aep/src/evidenceMirror.ts:236-278 | the loop performs exactly the specified push, and reports nothing when the resolver throws |
| Mirror.EvidenceMirror.Pull | packages/aep/src/evidenceMirror.ts:288-343 | the loop with its growing buckets performs exactly the specified pull against the log as it was |
| Mirror.EvidenceMirror.Sync | packages/aep/src/evidenceMirror.ts:350-360 | push then pull, with merged results |
| Mirror.PushFinds | packages/aep/src/evidenceMirror.ts:236-278 | key by key, what the remote holds after a push: the decided one of the first local record and the remote one |
| Mirror.PushAbortsIff | packages/aep/src/evidenceMirror.ts:236-278 | a push throws exactly when the resolver throws on some key's representative |
| Mirror.SyncThrowsIff | packages/aep/src/evidenceMirror.ts:350-360 | a sync throws exactly when the resolver throws on a differing pair, and then leaves the log alone |
| Mirror.SyncConverges | packages/aep/src/evidenceMirror.ts:236-360 | from any log and coherent remote both sides end with the same keys, every remote record present locally, the log extended, no remote key dropped, coherence kept, and no pull conflict won by the local side |
| Mirror.SyncIsIdempotent | packages/aep/src/evidenceMirror.ts:236-360 | a second sync changes neither store, moves nothing, and reports exactly the conflicts the first push lost |
| Mirror.RepeatIsSilentIff | packages/aep/src/evidenceMirror.ts:39-40 | the repeated sync reports no conflict if and only if the first push gave none to the remote side |
| Mirror.SyncQuietIff | packages/aep/src/evidenceMirror.ts:236-360 | a sync completes without a conflict if and only if no key has a local representative and a remote record that differ |
| Mirror.SidesAgreeIff | packages/aep/src/evidenceMirror.ts:345-360 | after a completed sync the remote holds every record of the log if and only if the records the log had under each key are equal and the first of them does not lose to a different remote one |
| Mirror.UnionIff | packages/aep/src/evidenceMirror.ts:26-29 | a sync completes with every record of either side on both if and only if the records of the two sides that share a key are equal |
| MirrorPolicies.RepeatCanConflict | packages/aep/src/evidenceMirror.ts:39-40 | a concrete repeated sync that reports a conflict |
| MirrorPolicies.LastWriterIsKept | packages/aep/src/evidenceMirror.ts:163-181 | under last-writer-wins the remote ends with the later record, ties local |
| MirrorPolicies.PreferencesHold | packages/aep/src/evidenceMirror.ts:163-181 | prefer-remote never overwrites the remote; prefer-local repeats in silence |
| MirrorPolicies.FailReportsDifferences | packages/aep/src/evidenceMirror.ts:163-181 | the failing strategy throws exactly when some key differs on the two sides |
| MirrorPolicies.DefaultSyncCopiesRecords | packages/aep/src/evidenceMirror.ts:104-107 | under the default key every remote record is in the log with equal content, or collides |
| MirrorPolicies.DefaultQuietIff | packages/aep/src/evidenceMirror.ts:26-29 | under the default key a sync is free of conflicts if and only if under no key the remote holds the local representative signed differently, or a digest or fingerprint collides |
| MirrorPolicies.ResigningConflicts | packages/aep/src/evidenceMirror.ts:26-29 | syncing any record with itself under another signature reports a conflict, or their bytes collide |
| MirrorPolicies.DefaultUnionIff | packages/aep/src/evidenceMirror.ts:26-29 | under the default key a sync is a set-union if and only if no two records of the two sides are one record signed differently, or two of them collide |
| MirrorPolicies.SecondSignatureStaysLocal | packages/aep/src/evidenceMirror.ts:345-360 | syncing a log that holds one record under two signatures with an empty remote leaves a record the remote does not hold, or their bytes collide |
| Codemode.Kernel.Run | packages/aisdk/src/codemodeExecutor.ts:329-408 | one run of the wrapped script: its envelope, with the catch block's fallback for thrown values, its recorded calls and output |
| Codemode.Execute | packages/aisdk/src/codemodeExecutor.ts:174-259 | the host loop returns the verdict, the logs and the tool calls of the iterated step |
| Codemode.KeyFixesIndex | packages/aisdk/src/codemodeExecutor.ts:333 | a call key determines the position and the name of the call, so keys never clash |
| Codemode.OwnJsonIsLawful | packages/aisdk/src/codemodeExecutor.ts:190-206 | the JSON law assumed of the channel holds of the printer and parser modelled here |
| CodemodeProofs.RunAligned | packages/aisdk/src/codemodeExecutor.ts:329-408 | a rerun passes through the resolved calls with the replies of the direct run |
| CodemodeProofs.RunPauses | packages/aisdk/src/codemodeExecutor.ts:383-408 | with the first calls resolved a run pauses at the next one and reports it |
| CodemodeProofs.IterationsCall | packages/aisdk/src/codemodeExecutor.ts:180-254 | each iteration makes exactly the script's next call |
| CodemodeProofs.ReplayEqualsDirect | packages/aisdk/src/codemodeExecutor.ts:174-259 | a script with fewer calls than the limit gets the verdict of direct execution, runs once more than it has calls, and each tool call is made once, in program order, with the same arguments |
| CodemodeProofs.BudgetRunsOut | packages/aisdk/src/codemodeExecutor.ts:180-259 | at or above the limit exactly that many calls are made and neither result nor error is returned |
| CodemodeProofs.ChannelIsFaithfulIff | packages/aisdk/src/codemodeExecutor.ts:232-247 | the inject and parse channel delivers an outcome unchanged exactly when it is not JSON text, an error-marked object or a tool error with an empty message |
| CodemodeProofs.ChannelLosses | packages/aisdk/src/codemodeExecutor.ts:232-247 | a tool error with an empty message arrives as a result, and a string that is the JSON text of a number as that number |
| CodemodeProofs.ReplayIsIdeal | packages/aisdk/src/codemodeExecutor.ts:232-247 | when it does, the replay sees what an unmediated run sees |
| CodemodeProofs.ReportIsPlainIff | packages/aisdk/src/codemodeExecutor.ts:387-407 | a script's outcome is reported as it is exactly when it is not a thrown value whose text is empty or starts with the marker |
| CodemodeProofs.EmptyTextIff | packages/aisdk/src/codemodeExecutor.ts:394 | the text of a thrown value is empty only for an error with neither name nor message and for other values without text; `new Error("")` is reported as "Error" |
| CodemodeProofs.ThrownAtOnce | packages/aisdk/src/codemodeExecutor.ts:174-259 | what `execute` answers for each value a script can throw at once: its text, nothing, or the executor's own message |
| Workflow.Sorter.VisitStep | packages/cloudflare-worker/src/CloudflareWorkflowEngine.ts:253-265 | the recursive closure, with its shared path and visited set, refines the functional visit |
| Workflow.Sort | packages/cloudflare-worker/src/CloudflareWorkflowEngine.ts:249-268 | the sort returns the specified order of declared steps or the specified error |
| Workflow.TopoSortExactly | packages/cloudflare-worker/src/CloudflareWorkflowEngine.ts:249-268 | it succeeds if and only if every dependency is declared and the graph is acyclic; the order holds every id once with dependencies before dependents; a cycle error's path ends in a real cycle and an unknown id is a real dependency |
| Workflow.SortedIsPermutation | packages/cloudflare-worker/src/CloudflareWorkflowEngine.ts:249-268 | with unique ids the result is a permutation of the declared steps |
| WorkflowRun.ResolveAgrees | packages/cloudflare-worker/src/CloudflareWorkflowEngine.ts:50-65 | substitution depends only on the results a value mentions |
| WorkflowRun.CollectOutput | packages/cloudflare-worker/src/CloudflareWorkflowEngine.ts:270-281 | the loops compute the output members |
| WorkflowRun.OutputIsSinks | packages/cloudflare-worker/src/CloudflareWorkflowEngine.ts:270-281 | the output holds exactly the results of the steps nobody depends on |
| WorkflowRun.RunWorkflowEntrypoint | packages/cloudflare-worker/src/CloudflareWorkflowEngine.ts:160-247 | the runner's result is the specified one: invalid definition, failed step or output |
| WorkflowRun.RunIsSolution | packages/cloudflare-worker/src/CloudflareWorkflowEngine.ts:160-247 | where references are settled, the results solve one equation per step, each resolved against the results of the steps it depends on |
| WorkflowRun.SolvesAgainstAll | packages/cloudflare-worker/src/CloudflareWorkflowEngine.ts:50-65 | where a step's references are dependencies, its equation may as well be resolved against all results |
| WorkflowRun.SolutionIsRun | packages/cloudflare-worker/src/CloudflareWorkflowEngine.ts:160-247 | any solution is what every order computes, step by step |
| WorkflowRun.OrdersAgree | packages/cloudflare-worker/src/CloudflareWorkflowEngine.ts:160-247 | all orders of one graph with settled references give the same results, or none succeeds |
| WorkflowRun.DeclarationOrderDoesNotMatter | packages/cloudflare-worker/src/CloudflareWorkflowEngine.ts:160-281 | permuting the declared steps of a workflow with settled references gives the same result for every step, the same outcome and the same output map |
| WorkflowRun.OutputIsSolution | packages/cloudflare-worker/src/CloudflareWorkflowEngine.ts:160-281 | a successful output of a workflow with settled references is the solution restricted to the steps nobody depends on |
| WorkflowRun.UnsettledMatters | packages/cloudflare-worker/src/CloudflareWorkflowEngine.ts:50-65 | for any sortable workflow with a reference that is not settled there are tools under which one declaration order fails and another succeeds |
| WorkflowRun.OrderMattersIff | packages/cloudflare-worker/src/CloudflareWorkflowEngine.ts:160-281 | whatever the tools do, permuting the declared steps changes neither a step's result nor the outcome, if and only if the workflow cannot be sorted or every step a tool step mentions is itself, an ancestor or a descendant |
| Arithmetic.Evaluator.EvalExpr | examples/basic-agent/index.js:22-30 | from the shared cursor, the value of the derivation read, the cursor after it, or the error |
| Arithmetic.Evaluator.EvalTerm | examples/basic-agent/index.js:32-40 | the same for products |
| Arithmetic.Evaluator.EvalFactor | examples/basic-agent/index.js:42-57 | the same for signs and powers |
| Arithmetic.Evaluator.EvalAtom | examples/basic-agent/index.js:59-71 | the same for literals and parentheses |
| Arithmetic.EvaluateArithmetic | examples/basic-agent/index.js:15-77 | the whole evaluator: stripping, character check, parse, leftover and finiteness errors |
| ArithmeticProofs.ParsesIffDerivable | examples/basic-agent/index.js:22-71 | the parser consumes a whole text with a tree exactly when the tree derives the text |
| ArithmeticProofs.DerivationUnique | examples/basic-agent/index.js:22-71 | no text has two derivations |
| ArithmeticProofs.EvaluatesIffDerivable | examples/basic-agent/index.js:15-77 | an input evaluates to a number exactly when its stripped text has a derivation with that finite value |
| ArithmeticProofs.PrintEvaluates | examples/basic-agent/index.js:15-77 | for every expression tree, evaluating its print reads all of it and gives the tree's meaning |
| ArithmeticProofs.PrintIsShortest | examples/basic-agent/index.js:22-71 | no derivation of the same tree has a shorter text than the print, so its parentheses are the fewest |
| RateLimit.Backend.CheckRateLimit | packages/cloudflare-worker/src/rateLimit.ts:44-103 | one call's answer, what it stores and with which time to live |
| RateLimit.RunIsIdeal | packages/cloudflare-worker/src/rateLimit.ts:44-103 | in every run with a non-decreasing clock, whatever keys expire after their time to live, a call is allowed exactly when fewer than `rpm` allowed requests lie in the window that ends at it |
| RateLimit.QuotaHolds | packages/cloudflare-worker/src/rateLimit.ts:44-103 | at most `rpm` requests are allowed in any interval of the window's length |
| RateLimit.TooEarly | packages/cloudflare-worker/src/rateLimit.ts:84-90 | before `retryAtMs` an undisturbed retry is rejected |
| RateLimit.AtRetry | packages/cloudflare-worker/src/rateLimit.ts:84-90 | at `retryAtMs` it is allowed exactly when fewer than `rpm` stored stamps are later than the earliest, and always when the window held no more than `rpm` |
| RateLimit.RejectedRunRecovers | packages/cloudflare-worker/src/rateLimit.ts:44-124 | in a run a rejection means exactly `rpm` requests in the window, a retry is allowed exactly from `retryAtMs` on, and waiting `Retry-After` suffices |
| RateLimit.RetryAfterSuffices | packages/cloudflare-worker/src/rateLimit.ts:108-124 | the rounded header reaches `retryAtMs`, and one second less does not |
| RateLimit.CorruptStays | packages/cloudflare-worker/src/rateLimit.ts:56-81 | from a corrupt record every call of any run is rejected and nothing is written, until the key expires |
| RateLimit.ExpiryRecovers | packages/cloudflare-worker/src/rateLimit.ts:44-103 | the first call after that expiry starts afresh and is allowed exactly when the quota is positive |
| RateLimit.NoQuotaNeverAllows | packages/cloudflare-worker/src/rateLimit.ts:84-90 | with a quota of zero or less every call of any run is rejected and nothing is written |
| Publisher.Watcher.Tick | packages/aep/src/evidencePublisher.ts:253-287 | a tick during a poll does nothing, otherwise it starts one |
| Publisher.Watcher.QueryAnswered | packages/aep/src/evidencePublisher.ts:288-307 | the poll's segment after the query refines the step |
| Publisher.Watcher.RunLoop | packages/aep/src/evidencePublisher.ts:291-307 | the loop up to its next await refines the specified advance |
| Publisher.AdvanceKeeps | packages/aep/src/evidencePublisher.ts:291-307 | the loop keeps the invariant wherever it stops |
| Publisher.WatcherDelivers | packages/aep/src/evidencePublisher.ts:236-314 | in every interleaving the records offered are exactly the matching ones appended since the start, in order and once, and when idle every handled position was counted once |
| Publisher.PollCatchesUp | packages/aep/src/evidencePublisher.ts:283-314 | a poll that ends without a failed query has handled everything in the store at its tick |
| EventReplay.ComputeSteps | packages/devtools/src/EventLogReplay.ts:266-294 | the computed steps tile the log from the first step start on |
| EventReplay.TilesUnique | packages/devtools/src/EventLogReplay.ts:266-294 | a log has only one such tiling: numbers, ids and both ends of every step |
| EventReplay.SelectGrows | packages/devtools/src/EventLogReplay.ts:131-151 | each step's prefix extends the one before by exactly the step's events |
| EventReplay.SelectEnds | packages/devtools/src/EventLogReplay.ts:131-151 | prefix zero holds no step start and the last prefix is the whole log |
| EventReplay.Ancestors | packages/devtools/src/EventLogReplay.ts:222-250 | the breadth-first search finds exactly the ids reachable along provenance edges |
| EventReplay.SelectByDependency | packages/devtools/src/EventLogReplay.ts:199-262 | with an edge in the log the result is the ancestors in log order; without, the linear prefix or the pre-step prefix |
| Pareto.BuildParetoFront | packages/evals-runner/src/runner.ts:552-583 | per suite, exactly the unbeaten aggregates, in order |
| Pareto.FrontIsParetoFront | packages/evals-runner/src/runner.ts:552-583 | the front is an antichain, empty only for an empty suite, and every model left out is dominated by one in it |
| Pareto.FrontIgnoresOrder | packages/evals-runner/src/runner.ts:552-583 | the front does not depend on the order of the aggregates |
| Pareto.PercentileMonotone | packages/evals-runner/src/runner.ts:592-601 | on sorted data a higher percentile is never smaller, and percentiles stay between the extremes, reached at 0 and 100 |

## Left out

- JsonParser.ParsePrint: numbers are integers, the only ones canonical.ts:10-16 relies on; printing and reading fractions and exponents is not part of this model.
- Serializer.SerializeValue: functions, symbols, `toJSON`, `__proto__` keys and sparse arrays do not occur in values; an object's keys are distinct.
- Utf8.DecodeEncode: `TextDecoder`'s replacement of malformed bytes and its byte-order-mark handling are not modelled.
- Chain.VerifyAEPChain: missing elements of a sparse array are not modelled.
- Dsse.EnvelopeFixesRecord: Ed25519, SHA-256 and base64 are parameters with the laws stated above; the bare-signature record format is refused as the source refuses it.
- Zod.CheckFixed: a property present but undefined is dropped where zod may keep it as undefined, which JSON does not show; validation errors carry no messages.
- Emitter.AEPEmitter.AddAction: the class carries the adders with logic of their own; the one-line ones are steps of the state machine only. Calls are awaited one at a time.
- Emitter.AEPEmitter.Emit: whether signer, timestamper and evidence store throw is an input of each call; monitor hooks are I/O.
- Rollups.BuildToolRollups: what text an inherited label leaves is not modelled, nor that integer-like labels are enumerated first.
- Compressor.Compress: `label` and `compressedAtMs`, and the ledger's `label` and `compactedAtMs`, are copied inputs.
- Mirror.SyncConverges: the remote is the in-memory map, coherent at the start; S3, IPFS and PostgreSQL adapters and concurrent writers are I/O.
- Codemode.Kernel.Run: scripts are deterministic, await one call at a time and do not catch the pause; tool names have at most one dot; a name outside the providers is an error of the script itself, or the host's unknown-tool error when it reaches the host.
- Codemode.Execute: `flattenProviders` and the nested tools object are folded into a name-to-tool function, and `String(x)` of a tool error that is neither text, integer nor boolean is a fixed text; thrown objects whose `message` is not text, and a tool that throws null, are not modelled.
- WorkflowRun.RunWorkflowEntrypoint: retries, timeouts, sleeps and the state-store mirror are the platform's; a step's failure is reported without its error.
- Workflow.SortedIsPermutation: needs unique ids; with duplicates the last declared step counts, which Workflow.TopoSortExactly covers.
- Arithmetic.EvaluateArithmetic: numbers are a parameter, so rounding, overflow and `Number()` of a literal are not modelled.
- RateLimit.RunIsIdeal: calls are sequential because the store's get and put are not atomic; non-numeric array elements are dropped before the model begins.
- Publisher.WatcherDelivers: one `start()`; a repeated or concurrent start is not promised by the source.
- EventReplay.SelectByDependency: the cursor's final answer, step number and fork metadata are read-offs of the selected prefix.
- Pareto.FrontIsParetoFront: over real numbers, so without NaN.
- Filesystem and webhook stores, HTTP handlers, key/value adapters, kernels, agents' cancel and restart, command line, prompts and report rendering are I/O or plumbing.
