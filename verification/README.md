# Notary platform: from sealed evidence to Proof of Mitigation

A Dafny model of the path a decision takes through the platform: evidence is put in canonical form and
digested, sealed into a snapshot, ingested once, resolved to a decision identity and its context, promoted into
a Verification Record and an incident, replayed from recorded calls, fixed, and certified. The modules follow
the repository's files:

| module | what it models |
|---|---|
| `Json`, `CanonicalJson` | JSON values with ordered dictionaries, `json.dumps` with sorted keys in both escaping modes, and what printed text decides |
| `Digests` | unpadded base64url, `compute_digest`, `verify_digest` |
| `Snapshot` | the HMAC chain, the pairwise fold, `verify_snapshot` and the sealing loop |
| `SchemaRegistry`, `SchemaTermination` | inlining of `dep://schema/` references, and which registries and documents it ends on |
| `Cassette`, `Replay` | recorded calls, the signature index, strict order, replay of an arbitrary agent, fix verification |
| `RecordConversion` | SDK elements to Verification Record events and back to replay elements |
| `Workflow` | replay, labels, mutation tests and Proofs of Mitigation as runs over a store |
| `Identity`, `Context` | the tiers of decision identity with their write-back, and temporal context resolution |
| `Evidence`, `Ingress` | resources, and ingestion of evidence envelopes |
| `ProofBridge` | promotion of an assurance candidate, with a crash allowed between any two storage writes |
| `Texts` | when two pairs of texts joined by a separator give one text |
| `JsonReading` | a JSON reader written from RFC 8259, against which the printer is checked |
| `DigestRules`, `SnapshotRules`, `SchemaRules`, `CassetteRules`, `ReplayRules`, `ConversionRules`, `WorkflowRules`, `IdentityRules`, `ContextRules`, `IngressRules`, `PromotionRules` | what each operation decides, said a second time of stored fields, positions and literal texts, and proved to be what it does |
| `EvidencePath` | where the steps do not meet: ingestion and promotion, promotion and certification |

Code that updates state is a class or a method with the loops of the original, proved equal to a specification
function; what the system promises is then proved of those functions, over every input and every run.

**Second definitions.** The modules named `...Rules` say a second time, from stored fields and not from the functions
that decide, which review counts, which link answers, which binding wins, what a recorded payload replies, what an
expanded document holds, or which call stored what, and prove that the operations do exactly that.

**Hashes.** In `Snapshot` and `ProofBridge` a digest is the value it was computed from, so equal digests have
equal inputs by construction. In `Digests` and `Ingress` the hash is a parameter; a lemma that needs it
injective says so.

**Agents.** An agent is any function from the replies it has seen so far to its next action: make a call,
finish with a decision, or raise. Nothing but determinism is asked of it. A budget bounds the calls it may make;
`Replay.BudgetIrrelevant` says that a replay that ended is the same under every larger budget.

**Crashes.** A promotion carries the number of writes after which it stops; everything it only reads may change
arbitrarily between two promotions.

## What the code does against what is said of it

- `_compute_root_hash` is not injective on arbitrary lists (`Snapshot.PaddingIsAmbiguous`). It is on chained
  leaves, because chaining makes every leaf different, so a root does decide the elements.
- `verify_snapshot` raises instead of answering `False` when the chain holds and the root hash is text outside
  ASCII; `merkle_chain` is never looked at.
- Strict-mode answers are not always available out of order: a `|` in a URL can give two recorded calls one
  signature (`Cassette.SeparatorHidesAnEntry`). `Cassette.StrictImpliesLoose` gives the exact condition.
- The conversion to a record and back loses recorded calls of kind `tool_call` and `api_response` and invents one
  for kind `tool`. An element of such a kind alone is told apart by some agent in either mode
  (`RecordConversion.UnstableAloneDiffers`); next to each other they can cancel
  (`RecordConversion.UnstableKindsCanCancel`). For a whole snapshot there are two exact conditions.
  `RecordConversion.ConversionLooseAlikeIff` is about replay out of order, the only mode in which the services replay
  a record; `RecordConversion.ConversionAlikeIff` asks for strict order as well. They differ: a repeated call that is
  lost is noticed in strict order only (`RecordConversion.RepeatedCallIsLost`).
- A comment in `run_mutation` asks for an approved label. None is required: a proof can be issued for a record
  that never had one (`Workflow.ProofNeedsNoLabel`), since the blocking flag of `missing_label` is recomputed from
  its severity when the certificate is checked.
- A proof can report no change of decision: it does exactly when the recorded decision is the expected one already
  (`Workflow.ProofReportsChangeIff`, with a run in `Workflow.ProofCanReportNoChange`), since a fix is measured against
  an unfixed replay and not against the record. It also names the record's label when the expected outcome came from
  the call; the two agree exactly when the call named no outcome, or the label's (`Workflow.LabelAgreesIff`).
- The eligibility check for proofs also counts the limitations of the latest replay; issuing does not
  (`Workflow.EligibilityIff` against `Workflow.IssuedIff`). As long as nobody changes the replay runner the two agree
  in every run (`Workflow.EligibilityAgrees`). Clearing the runner and replaying once more divides them
  (`Workflow.ClearingTheRunnerDivides`, `Workflow.EligibilityDivides`).
- A replay with status `replayed` is one whose agent finished (`ReplayRules.LooseReplayedIff`,
  `WorkflowRules.EveryRunIsMade`), or whatever a configured runner answers; it need not reach the recorded decision.
- The identity precedence speaks of a confirmed mapping and of a system, version and environment key. The code
  asks whether a resource id is itself a recorded identity, and joins the sorted resource ids with `+`.
- A later record can move an identity, not only its tier: `Identity.MovesIff` says exactly which newly recorded texts
  do. It moves a match to an *earlier* tier, as designed, unless the empty identity is recorded beside another one;
  then it can move it to a later tier (`Identity.PromotesIff`, with a run in `Identity.EmptyIdentityDemotes`). Building
  a fixed family of records over and over settles all the same (`Identity.FamiliesSettle`).
- Context bindings are grouped by scope and type joined with `:`. Two of different scope fall into one group exactly
  when one scope continues the other after a `:` into its type (`Context.KeysMeetIff`), and then unrelated bindings can
  conflict (`Context.UnrelatedBindingsConflict`).
- Context resolution is described as preserving equal-authority disagreement. Customer-confirmed bindings never
  conflict, and a binding below that authority which is included twice and alone at the top of its key conflicts with
  itself and is dropped. These are the only two exceptions (`Context.FollowsDesignIff`). A binding is included twice
  exactly when it supersedes two candidates, or one and is a direct candidate itself (`Context.CandidatesTwice`).
- Ingestion stores resources without an environment, and promotion asks every supporting resource for the candidate's
  environment: resources stored by ingestion alone support no candidate
  (`EvidencePath.IngestedEvidenceSupportsNothing`).
- The record a promotion creates holds a decision and no recorded call, so no proof is ever issued for it
  (`EvidencePath.PromotedRecordIsNeverCertified`).
- Nothing stops the expansion of references that form a cycle. What counts is not which schema refers to which, but
  which key of a schema leads to which key of another, because what stands beside a `$ref` replaces the schema's own
  values: the schemas of a registry all expand if and only if every reference names a stored schema and no such place
  leads back to itself (`SchemaTermination.SchemasExpandIff`), and nothing that uses a place on a cycle ever expands
  (`SchemaTermination.CycleNeverDone`). A list schema with items of its own kind is out of reach, described or not
  (`SchemaTermination.RecursiveSchemaNeverDone`), unless the reference to itself sets the items anew
  (`SchemaTermination.OverrideEndsTheCycle`).
- Stored evidence is immutable for its own organization only: resources are keyed by id alone, so another
  organization's envelope under the same id replaces it (`Ingress.ReplacedIff`).
- A promotion that crashes after its record became visible and before its incident is linked can never be
  completed: every retry answers `BRIDGE_LINEAGE_INCOMPLETE` (`ProofBridge.RetryIff`, `ProofBridge.StuckForever`).
- Bridge keys join organization, environment and candidate with `|`. Two organizations can share a key exactly when
  the name of one continues the other's after a `|` (`ProofBridge.OrganizationsMeetIff`). For any such two there is a
  run in which the first promotion succeeds and the second one erases its record
  (`ProofBridge.MeetingOrganizationsLoseARecord`). Promotions of a set of organizations keep every stored record if and
  only if no two of them are such (`ProofBridge.RecordsStayIff`); the other results on promotion are about such sets.
- Within one organization environment and candidate can meet in the same way. The second of two such candidates is
  answered with the bundle of the first (`ProofBridge.MeetingCandidatesShareABundle`); each success names a bundle made
  for the promoted candidate, in every run, if and only if no two candidates meet (`ProofBridge.RightBundlesIff`).

## Model

| member | source | states |
|---|---|---|
| `CanonicalJson.EscapePrefixFree` | src/notary_platform/dep/canonical.py:27 | two characters whose escapes agree where both are defined are the same character, in both escaping modes |
| `CanonicalJson.StringUnique` | src/notary_platform/dep/canonical.py:27 | a printed string can be read back from the left in one way only, whatever follows it |
| `CanonicalJson.IntUnique` | src/notary_platform/dep/canonical.py:27 | two printed integers followed by something that ends a number are the same integer |
| `CanonicalJson.Unique` | src/notary_platform/dep/canonical.py:21-27 | reading from the left, two printed values continued alike mean the same and end at the same place |
| `CanonicalJson.SortSame` | src/notary_platform/dep/canonical.py:24 | sorting makes the order in which a dictionary was filled irrelevant |
| `CanonicalJson.TextDecidesMeaning` | src/notary_platform/dep/canonical.py:21-27 | two JSON values print the same canonical text if and only if they mean the same, insertion order aside; also without ASCII escaping |
| `Json.LessIff` | src/notary_platform/dep/canonical.py:27 | keys are ordered by the first place where they part: the one that ends there, or has the smaller code point, comes first |
| `JsonReading.ReadsBack` | src/notary_platform/dep/canonical.py:21-27 | a reader that follows the JSON grammar, and takes no white space, reads printed text back as a value of the same meaning, its keys in code point order at every depth |
| `JsonReading.EscapeShortest` | src/notary_platform/dep/canonical.py:27 | no text the grammar reads as a character is shorter than the printed one, or none in printable ASCII where that is asked for |
| `JsonReading.CanonicalPlain` | src/notary_platform/dep/canonical.py:27 | canonical text is printable ASCII throughout |
| `Digests.StripsToUnpadded` | src/notary_platform/dep/canonical.py:40 | stripping `=` from the base64url text removes the padding and nothing else |
| `Digests.UnpaddedUnique` | src/notary_platform/dep/canonical.py:40 | unpadded base64url loses no byte: equal texts come from equal bytes |
| `Digests.DigestDecidesContent` | src/notary_platform/dep/canonical.py:30-41 | under an injective hash two digests are equal if and only if the algorithm and the content apart from `digest` and `signature` are |
| `Digests.VerifiedSameDigestSameContent` | src/notary_platform/dep/canonical.py:44-49 | two envelopes that verify and declare one digest value hold the same content |
| `DigestRules.DecodesBack` | src/notary_platform/dep/canonical.py:40 | a base64url decoder reads the bytes back from the unpadded encoding |
| `DigestRules.DigestReads` | src/notary_platform/dep/canonical.py:30-41 | a digest is its algorithm, a colon, and a text that decodes to the hash of the canonical text of everything but `digest` and `signature` |
| `DigestRules.VerifiesIff` | src/notary_platform/dep/canonical.py:44-49 | an envelope verifies, if and only if its `digest` declares the digest of its content under the declared algorithm, or `sha256` where it declares none |
| `DigestRules.RefusesIff` | src/notary_platform/dep/canonical.py:44-49 | it is refused without an exception, if and only if the algorithm is known and the declared value is not that digest |
| `DigestRules.StampedVerifies` | src/notary_platform/dep/canonical.py:30-49 | an envelope given its own digest verifies |
| `Snapshot.FoldOnce` | src/notary_platform/snapshot.py:114-119 | one round hashes neighbours pairwise and pairs an odd last node with itself |
| `Snapshot.ComputeRootHash` | src/notary_platform/snapshot.py:108-120 | the loop computes the root of the rounds; an empty list is the error |
| `Snapshot.RecomputeChain` | src/notary_platform/snapshot.py:130-147 | the recomputed seals are returned exactly when every stored hash is the seal at its place |
| `Snapshot.VerifySnapshot` | src/notary_platform/snapshot.py:123-155 | a snapshot is valid if and only if its chain holds under the key and its root hash is the text of the root; it raises exactly for a root hash outside ASCII |
| `Snapshot.SealChain` | src/notary_platform/demo_scenarios.py:552-561 | the sealing loop keeps the elements and stores the chained seals |
| `Snapshot.SealElements` | src/notary_platform/demo_scenarios.py:552-571 | sealing fails only for no elements; its result holds the elements in order and verifies under the key |
| `Snapshot.SealThenVerify` | src/notary_platform/demo_scenarios.py:552-571 | sealing and then verifying under one key always succeeds |
| `Snapshot.NextRoundUnique` | src/notary_platform/snapshot.py:115-118 | without repeated nodes a round can be undone, padding included |
| `Snapshot.RootUnique` | src/notary_platform/snapshot.py:108-120 | the root decides a list of distinct nodes of one level, even among lists of different lengths |
| `Snapshot.PaddingIsAmbiguous` | src/notary_platform/snapshot.py:117 | with a repeated node two different lists have one root |
| `Snapshot.LeavesDistinct` | src/notary_platform/snapshot.py:103-105 | chained seals are pairwise different, equal elements included |
| `Snapshot.RootDecidesTexts` | src/notary_platform/snapshot.py:103-120 | under one key a root stands for one list of canonical texts |
| `Snapshot.RootDecidesElements` | src/notary_platform/snapshot.py:123-155 | two snapshots that verify under one key with one root hold the same kinds and payloads in the same order |
| `Snapshot.TamperingIsDetected` | src/notary_platform/snapshot.py:123-155 | a verified snapshot with one element's content changed no longer verifies, whatever hash is stored with it |
| `SnapshotRules.TextReads` | src/notary_platform/snapshot.py:32-39 | the sealed text of an element reads as a dictionary of its kind and its payload and nothing else |
| `SnapshotRules.SealCovers` | src/notary_platform/snapshot.py:103-105 | the i-th seal was computed under the key from the texts of the first i elements, in order, beginning with the zero bytes |
| `SnapshotRules.RootCovers` | src/notary_platform/snapshot.py:108-120 | under the root stand the seals of all elements, from left to right; what follows them repeats some of them |
| `SnapshotRules.VerifiesIs` | src/notary_platform/snapshot.py:123-155 | a snapshot verifies, if and only if there is a key and some element, each stored hash is a seal under the key of the texts up to its element, and the root hash is the text of the root of the stored hashes |
| `SchemaRegistry.MergeSiblings` | src/notary_platform/dep/registry.py:103-106 | the loop sets the siblings of `$ref` over a copy of the referenced schema |
| `SchemaRegistry.DepthIrrelevant` | src/notary_platform/dep/registry.py:99-111 | once expansion ends within a stack, a larger stack gives the same result |
| `SchemaRegistry.AcyclicTerminates` | src/notary_platform/dep/registry.py:99-111 | on a registry whose schemas do not refer to one another in a cycle every document ends, in a result or an error, and is settled from some depth on |
| `SchemaRegistry.ReferenceCycleNeverEnds` | src/notary_platform/dep/registry.py:99-111 | a cycle of schemas that refer to one another with their own `$ref` expands at no depth, whatever stands beside the references |
| `SchemaRegistry.ResultIsClosed` | src/notary_platform/dep/registry.py:99-111 | an expanded document has no `$ref` key at any depth, and expanding it again changes nothing |
| `SchemaRegistry.NearestDefinitionWins` | src/notary_platform/dep/registry.py:101-107 | an expanded dictionary holds exactly the keys with a nearest definition along the references, siblings before schemas, each expanded |
| `SchemaRules.RefNameIs` | src/notary_platform/dep/registry.py:18-72 | a reference names a schema, if and only if it is the prefix, that name of word characters, and a rest that does not continue the name |
| `SchemaRules.ListExpands` | src/notary_platform/dep/registry.py:109-110 | an expanded list has the same length, and its items are the items expanded |
| `SchemaRules.DictionaryExpands` | src/notary_platform/dep/registry.py:108 | a dictionary without a reference keeps its keys in order, and its values are the values expanded |
| `SchemaRules.WithoutReferences` | src/notary_platform/dep/registry.py:99-111 | a document without `$ref` at any depth expands to itself, every text, number and truth value of it |
| `SchemaRules.DefinitionHolds` | src/notary_platform/dep/registry.py:101-107 | along a chain of references the first dictionary that defines a key decides it: the expanded one holds that value expanded, and a scalar as it stands |
| `SchemaRules.HeldIff` | src/notary_platform/dep/registry.py:101-107 | an expanded dictionary holds a key, if and only if some chain of references from it leads to a dictionary that defines it |
| `SchemaTermination.SchemasExpandIff` | src/notary_platform/dep/registry.py:99-111 | on any registry of dictionaries every schema expands, if and only if every reference in them names a stored schema and no place, a key of a schema, leads back to itself |
| `SchemaTermination.DocumentExpandsIff` | src/notary_platform/dep/registry.py:99-111 | where the schemas expand, a document does if and only if every reference in it names a stored schema |
| `SchemaTermination.CycleNeverDone` | src/notary_platform/dep/registry.py:99-111 | a document that uses one of some places that each lead to another of them expands at no depth |
| `SchemaTermination.RecursiveSchemaNeverDone` | src/notary_platform/dep/registry.py:99-111 | a list schema whose items refer to it never expands, whatever stands beside the reference except `items` |
| `SchemaTermination.OverrideEndsTheCycle` | src/notary_platform/dep/registry.py:99-111 | with `items` set beside it the same schema refers to itself and expands |
| `Cassette.ResponseCassette.constructor` | src/notary_platform/replay_engine/cassette.py:27-64 | a new cassette holds the recorded entries in order with the index over them |
| `Cassette.ResponseCassette.Load` | src/notary_platform/replay_engine/cassette.py:42-64 | loading an element appends its entry, if it is of a recorded kind, and indexes it |
| `Cassette.ResponseCassette.Lookup` | src/notary_platform/replay_engine/cassette.py:66-99 | a lookup answers and changes the cursor and the misses as specified in both modes, and keeps the index |
| `Cassette.ResponseCassette.UnconsumedCount` | src/notary_platform/replay_engine/cassette.py:145-147 | the number of recorded entries from the cursor on |
| `Cassette.ExactLookupReturnsLast` | src/notary_platform/replay_engine/cassette.py:83-87 | an exact lookup returns the last recorded entry with that signature |
| `Cassette.LooseLookupAnswers` | src/notary_platform/replay_engine/cassette.py:83-99 | out of order a call is answered if and only if the last entry of some signature has its signature or, for a call without a body, its method and URL and a body |
| `Cassette.StrictImpliesLoose` | src/notary_platform/replay_engine/cassette.py:66-99 | every call that strict mode answers somewhere is answered out of order, if and only if each recorded method and URL survives in the index |
| `Cassette.PipeFreeSurvives` | src/notary_platform/replay_engine/cassette.py:11-17 | recordings without `\|` in methods and URLs meet that condition |
| `Cassette.SeparatorHidesAnEntry` | src/notary_platform/replay_engine/cassette.py:16 | a `\|` in a URL can hide an entry that strict mode would answer |
| `Cassette.SignatureUnique` | src/notary_platform/replay_engine/cassette.py:11-17 | without `\|` in methods and URLs a signature decides method, URL and body, an empty body counting as none |
| `Cassette.StrictRunCounts` | src/notary_platform/replay_engine/cassette.py:73-81 | over any strict run cursor plus misses is the number of lookups, and the i-th hit is the i-th recorded reply |
| `Cassette.StrictRunCleanIff` | src/notary_platform/replay_engine/cassette.py:128-147 | no miss and nothing left over, if and only if the calls are the recording in order, a missing body matching any |
| `CassetteRules.RecordingIs` | src/notary_platform/replay_engine/cassette.py:42-64 | the n-th element of kind http, tool_call or api_response is the n-th entry: the method, URL and body of its request, `GET` and no URL where they are absent, and its response and status, null where they are absent |
| `CassetteRules.UpperIff` | src/notary_platform/replay_engine/cassette.py:13-138 | methods are compared letter by letter, up to the case of ASCII letters |
| `CassetteRules.StrictAnswerIs` | src/notary_platform/replay_engine/cassette.py:73-81 | in order a call is answered, if and only if it asks for the next recorded element, and then with the response and status of that payload |
| `CassetteRules.StrictHitIs` | src/notary_platform/replay_engine/cassette.py:73-81 | the i-th hit of a run in order has the response and status of the i-th recorded payload |
| `CassetteRules.LooseAnswerIs` | src/notary_platform/replay_engine/cassette.py:83-87 | out of order a call is answered with the response and status of the last recorded payload whose request has its signature |
| `CassetteRules.OneElementAnswers` | src/notary_platform/replay_engine/cassette.py:42-99 | one recorded element answers its own call with its own response and status, in either mode |
| `CassetteRules.SignatureIs` | src/notary_platform/replay_engine/cassette.py:11-17 | a signature is the method in capitals, the URL and a body that is not empty, with `\|` between them |
| `CassetteRules.FallbackIs` | src/notary_platform/replay_engine/cassette.py:88-96 | a call without a body and without an exact match gets the last entry of the signature recorded first among those with its method and URL and a body |
| `CassetteRules.MissesAre` | src/notary_platform/replay_engine/cassette.py:79-98 | in both modes the misses are the unanswered calls in order, their methods in capitals |
| `Replay.ReplaySnapshot` | src/notary_platform/replay_engine/replay.py:61-168 | the engine's run over one mutable cassette gives the specified decision and status |
| `Replay.OnlyRecordedElementsMatter` | src/notary_platform/replay_engine/replay.py:91-98 | decision and status depend only on the settings and the ordered http, tool_call and api_response elements |
| `Replay.BudgetIrrelevant` | src/notary_platform/replay_engine/replay.py:125-127 | a replay that ended is the same under every larger budget |
| `ReplayRules.ReplayIs` | src/notary_platform/replay_engine/replay.py:61-168 | every replay is the verdict on the calls its agent makes: an exception is an error; out of order finishing is enough; in order unanswered calls come first, then what is left over |
| `ReplayRules.LooseReplayedIff` | src/notary_platform/replay_engine/replay.py:125-164 | out of order the status is `replayed` with a decision, if and only if the agent, handed the replies to its calls, finishes with it |
| `Replay.StrictReplayedIff` | src/notary_platform/replay_engine/replay.py:125-164 | in strict order the status is `replayed` if and only if the agent, handed the recorded replies, makes exactly the recorded calls and finishes |
| `Replay.LooseGivesTheEntry` | src/notary_platform/replay_engine/cassette.py:83-99 | with distinct targets and no separators the index gives the reply strict order would give |
| `Replay.StrictReplayHoldsOutOfOrder` | src/notary_platform/replay_engine/replay.py:61-168 | on such recordings a replay accepted in strict order ends alike out of order |
| `Replay.ReplayAlikeIff` | src/notary_platform/replay_engine/replay.py:61-168 | every agent ends alike on two snapshots, with every setting and in both modes, if and only if their recordings agree in length, replies and calls up to the case of the method |
| `Replay.LooseAlikeIff` | src/notary_platform/replay_engine/cassette.py:83-99 | out of order every agent ends alike on two snapshots, with every setting, if and only if the indexes hold the same signatures with the same replies and every body-less call to a recorded method and URL is answered alike |
| `Replay.IdleFixNeverMitigates` | src/notary_platform/replay_engine/mutation.py:22-32 | a fix that sets nothing new is never reported as mitigating |
| `Replay.MitigatedIff` | src/notary_platform/replay_engine/mutation.py:25-32 | mitigated, if and only if the fixed replay finishes with the expected decision and the unfixed one does not |
| `Replay.MitigatedAfterError` | src/notary_platform/replay_engine/mutation.py:28-32 | the unfixed replay may have failed: raising without the fix counts as mitigated by it |
| `RecordConversion.SnapshotFromRecord` | src/notary_platform/services/services.py:208-232 | the loop rebuilds the replay elements, giving tool calls without a request a matchable one |
| `RecordConversion.EntryPreservedIff` | src/notary_platform/models.py:646-672 | an element contributes the same cassette entry before and after the conversion, if and only if its kind is not tool, tool_call or api_response |
| `RecordConversion.EntriesPreserved` | src/notary_platform/services/services.py:208-257 | without those kinds the rebuilt snapshot has the same ordered entries |
| `RecordConversion.ConversionPreservesReplay` | src/notary_platform/services/services.py:208-257 | without those kinds every agent reaches the same decision and status after the conversion, in either mode |
| `RecordConversion.ConversionAlikeIff` | src/notary_platform/services/services.py:208-257 | for any snapshot all agents replay alike before and after the conversion, in order and out of order, if and only if the rebuilt recording agrees with the original in length, replies and calls up to the case of the method |
| `RecordConversion.ConversionLooseAlikeIff` | src/notary_platform/services/services.py:664-680 | out of order, as the services replay, all agents end alike before and after the conversion if and only if the rebuilt index holds the same signatures with the same replies and answers body-less calls alike |
| `RecordConversion.UnstableAloneDiffers` | src/notary_platform/services/services.py:208-257 | a snapshot of one element of those kinds is told apart by some agent in strict order, and by some agent out of order |
| `RecordConversion.UnstableKindsCanCancel` | src/notary_platform/services/services.py:208-257 | an api_response and a tool element of one request next to each other replay alike for every agent |
| `RecordConversion.RepeatedCallIsLost` | src/notary_platform/services/services.py:208-257 | an http element and a tool_call of the same request replay alike out of order after the conversion, and not in strict order |
| `ConversionRules.RebuiltIs` | src/notary_platform/models.py:646-672 | each SDK kind has its own kind in the rebuilt snapshot, unknown ones are model calls, and every payload stays, but for a tool element without a request, which is given one |
| `ConversionRules.ToolIsAnswered` | src/notary_platform/services/services.py:208-232 | such a tool element answers a `POST` of its own body to its own or the default URL, in either mode, with its response or an empty one and its status or 200 |
| `ConversionRules.SoundIff` | src/notary_platform/services/services.py:471-551 | a record can be certified, if and only if its snapshot had an http or tool element, a decision, and no unpinned element of a kind the conversion does not know, `llm` included |
| `ConversionRules.DecisionIs` | src/notary_platform/services/services.py:588-592 | the recorded decision is that of the first decision element |
| `Workflow.WorkflowServices.CreateFromSdkSnapshot` | src/notary_platform/services/services.py:245-296 | the new record has one event per element and no label, so it is not replayable and is flagged for it; other records stay as they are |
| `Workflow.WorkflowServices.CreateLabel` | src/notary_platform/services/services.py:911-944 | a label becomes the record's label, suggested or not, and the record is assessed again |
| `Workflow.WorkflowServices.ApproveSuggestedLabel` | src/notary_platform/services/services.py:946-961 | approving activates at most the record's own label, changes no expected outcome, and reassesses that record only |
| `Workflow.WorkflowServices.SetReplayRunner` | src/notary_platform/services/services.py:188-189 | the runner changes and nothing else does |
| `Workflow.WorkflowServices.ReplayRecord` | src/notary_platform/services/services.py:652-702 | decision, status and limitations of the configured runner, of the demo agent, or of a record without either |
| `Workflow.WorkflowServices.RunReplay` | src/notary_platform/services/services.py:614-745 | the stored run has the specified status, decisions and limitations, and is stored last |
| `Workflow.WorkflowServices.TestFix` | src/notary_platform/services/services.py:793-840 | the test holds the verdict of a replay with the fix and one without |
| `Workflow.WorkflowServices.RunMutation` | src/notary_platform/services/services.py:766-898 | a test is stored only after a run with status `replayed` and with an expected outcome |
| `Workflow.WorkflowServices.IssueProofOfMitigation` | src/notary_platform/services/services.py:1048-1126 | a certificate is stored only for a verified last test and no blocking limitation |
| `Workflow.StepKeeps` | src/notary_platform/services/services.py:614-1126 | every service call keeps the invariant on records, tests and certificates, and only adds to what is stored |
| `Workflow.EveryProofIsBacked` | src/notary_platform/services/services.py:777-1066 | in every run, changes of the replay runner included, each stored proof rests on an earlier verified test of its record, whose fixed replay gives the expected outcome and whose unfixed replay does not, after a stored run with status `replayed`, and has no blocking limitation |
| `WorkflowRules.EveryRunIsMade` | src/notary_platform/services/services.py:614-745 | in every run of the services each stored replay run was made by one call: without a runner its status is `replayed` exactly when the agent of a demo record finished and `error` exactly when it raised, with a runner status and decision are the answer of the runner configured then |
| `WorkflowRules.EveryTestIsMade` | src/notary_platform/services/services.py:766-880 | each stored test was made by one call after a latest run with status `replayed`, reports the decision with the fix, whether it changed, and is verified exactly when the fixed replay finishes as expected and the unfixed one does not |
| `WorkflowRules.EveryProofIsIssued` | src/notary_platform/services/services.py:1048-1126 | each proof was issued by one call from the latest test of a sound record, repeats that test, and admits exactly a missing label and model calls |
| `WorkflowRules.EveryProofRests` | src/notary_platform/services/services.py:614-1126 | behind each proof stand, in this order, the call that made its replay run, the call that made its test from that run, and the call that issued it |
| `WorkflowRules.LatestRunDecides` | src/notary_platform/services/services.py:777-782 | no test is stored when the last stored run of the record has another status than `replayed` |
| `WorkflowRules.LatestTestDecides` | src/notary_platform/services/services.py:1048-1066 | a proof is issued, if and only if the record is sound and its last stored test is verified |
| `WorkflowRules.EveryRecordIsMade` | src/notary_platform/services/services.py:245-296 | each record was made by one call and keeps the events of the elements given then |
| `WorkflowRules.EveryRecordIsAssessed` | src/notary_platform/services/services.py:430-460 | in every run each state of replayability stands for one combination of recorded calls, model calls, decision and label |
| `WorkflowRules.EveryRecordIsFlagged` | src/notary_platform/services/services.py:471-551 | in every run each code is flagged exactly when the recorded calls, decision, pinned model calls or label it is about are missing |
| `WorkflowRules.EveryLabelIsMade` | src/notary_platform/services/services.py:911-961 | in every run each label was made by one call and expects the outcome named then; it is active, if and only if it was not a suggestion or a later call approved it |
| `WorkflowRules.EveryRecordIsLabelled` | src/notary_platform/services/services.py:911-944 | in every run a record has the label of the last call that labelled it, and none if no call did |
| `Workflow.FlagsSound` | src/notary_platform/services/services.py:471-551 | the recomputed flags block nothing, if and only if calls and a decision were recorded and every model call was pinned |
| `Workflow.IssuedIff` | src/notary_platform/services/services.py:1048-1066 | a proof is issued, if and only if the record is sound in that sense and its last test is verified |
| `Workflow.EligibilityIff` | src/notary_platform/services/services.py:1576-1598 | in every state the services reach the eligibility check asks what issuing asks and that the latest replay has no blocking limitation |
| `Workflow.EligibilityAgrees` | src/notary_platform/services/services.py:1576-1598 | in every run that leaves the runner alone, whichever it is, the check says exactly whether a proof would be issued |
| `Workflow.ClearingTheRunnerDivides` | src/notary_platform/services/services.py:188-189 | for every provable record that is not a demo record, clearing the runner and replaying makes the check refuse while a proof is still issued |
| `Workflow.EligibilityDivides` | src/notary_platform/services/services.py:1576-1598 | a run from the empty store reaches such a state |
| `Workflow.ProofNeedsNoLabel` | src/notary_platform/services/services.py:785-791 | a run issues a proof for a record that never had a label |
| `Workflow.ProofReportsChangeIff` | src/notary_platform/services/services.py:1048-1103 | in every run a proof's original and mutated decisions are the record's recorded decision and the expected outcome, and so differ exactly when these do |
| `Workflow.ProofCanReportNoChange` | src/notary_platform/services/services.py:1075-1087 | a run issues a proof whose original and mutated decisions are the same |
| `Workflow.LabelAgreesIff` | src/notary_platform/services/services.py:785-807 | whatever is done later, the outcome of a test is that of the label it names, if and only if the call named no outcome, or the label's |
| `Identity.DiscoveryStore.ResolveIdentity` | src/notary_platform/discovery/identity.py:24-67 | the early-return search gives the first answer of the first tier that has one |
| `Identity.DiscoveryStore.BuildRecord` | src/notary_platform/discovery/evidence_records.py:26-60 | building stores the resolved identity and its tier, and nothing else changes |
| `Identity.DiscoveryStore.SuggestLink` | src/notary_platform/discovery/identity.py:111-129 | a suggested link is stored last, as inferred, and the confirmed links are the same as before |
| `Identity.DiscoveryStore.DecideLink` | src/notary_platform/discovery/identity.py:131-146 | the named link of the organization has the new status, every other link stays, and rejecting an unconfirmed link leaves the confirmed links alone |
| `Identity.TierIsFirst` | src/notary_platform/discovery/identity.py:40-67 | the method returned is the first tier of the precedence table that any resource satisfies |
| `IdentityRules.AnswerIs` | src/notary_platform/discovery/identity.py:24-109 | an answer is given, if and only if it is the first resource's at the first tier that has one: a recorded id, the other end of the first confirmed link that says so, the first recorded image, the sorted ids joined by `+`, the other end of any confirmed link, the first id |
| `IdentityRules.BuiltIdentityIs` | src/notary_platform/discovery/evidence_records.py:26-60 | a build adds one record with that answer from the identities recorded for the organization, and keeps the links |
| `IdentityRules.EveryLinkIsDecided` | src/notary_platform/discovery/identity.py:111-146 | in every run each link was suggested by one step, and has the status of the last confirmation or rejection of it since then, inferred if there is none |
| `Identity.TierIgnoresOrder` | src/notary_platform/discovery/identity.py:40-67 | permuting the resources never changes the method |
| `Identity.RecordsOnlyPromote` | src/notary_platform/discovery/identity.py:69-98 | new non-empty identities never move a match to a later tier |
| `Identity.PromotesIff` | src/notary_platform/discovery/identity.py:50-53 | for every resource list, mapping and earlier set of identities the recorded ones give no later tier, if and only if the empty identity is not among them or is the only one |
| `Identity.EmptyIdentityDemotes` | src/notary_platform/discovery/identity.py:50-53 | a run of two builds, the second from no resources, moves a match from the namespace tier to the inferred one |
| `Identity.OnlyConfirmedLinksMatter` | src/notary_platform/discovery/identity.py:75-109 | two stores with the same confirmed links resolve alike |
| `Identity.MovesIff` | src/notary_platform/discovery/identity.py:40-67 | recording a text changes an answer, if and only if it takes the exact tier, the namespace tier or the composite tier at a place before the present answer, or, being empty, blocks the namespace answer; the identity changes unless it was that text |
| `Identity.ForeignNeverMoves` | src/notary_platform/discovery/identity.py:69-98 | a text that is no resource id, no composite key and no image of a resource moves nothing |
| `Identity.AnswerIsStable` | src/notary_platform/discovery/identity.py:24-67 | writing the answer back as a recorded identity does not change the answer |
| `Identity.QuietStepKeeps` | src/notary_platform/discovery/evidence_records.py:26-60 | a suggestion, the rejection of an unconfirmed link, a rebuild, another organization's build, or any build whose identity does not move the answer keeps the identity |
| `Identity.RebuildsAgree` | src/notary_platform/discovery/evidence_records.py:26-60 | rebuilding a record any number of times among such steps always gives the first identity |
| `Identity.RebuildingIsQuiet` | src/notary_platform/discovery/evidence_records.py:26-60 | rebuilding one record alone, any number of times, is always such a run |
| `Identity.UnconfirmedLinksCarryNoWeight` | src/notary_platform/discovery/identity.py:111-146 | any run of suggestions and rejections of unconfirmed links changes neither identity nor method |
| `Identity.BuildMovesIff` | src/notary_platform/discovery/evidence_records.py:26-60 | a build of the organization changes another record's identity, if and only if it writes a different non-empty one that moves it, or writes the empty one for the first time and so blocks a mapping without which the answer is another |
| `Identity.OtherBuildsCanMoveIt` | src/notary_platform/discovery/evidence_records.py:26-60 | such a build, through two confirmed links |
| `Identity.FamiliesSettle` | src/notary_platform/discovery/evidence_records.py:26-60 | building a fixed family of records over and over reaches a point after which no answer changes, within as many passes as there are answers not yet recorded |
| `Context.TemporalContextResolver.Inspect` | src/notary_platform/discovery/context.py:69-101 | a candidate is too early or too late exactly outside its window, is superseded only by the stored binding it names, and is direct only with its artifact available |
| `Context.TemporalContextResolver.Classify` | src/notary_platform/discovery/context.py:56-101 | the first loop sorts the candidates into the five collections, in order |
| `Context.TemporalContextResolver.Group` | src/notary_platform/discovery/context.py:103-106 | the second loop groups by scope and type, keys in order of first appearance |
| `Context.TemporalContextResolver.Settle` | src/notary_platform/discovery/context.py:108-127 | the third loop picks a binding or stores a conflict for each key |
| `Context.TemporalContextResolver.Resolve` | src/notary_platform/discovery/context.py:37-143 | resolution stores the specified trace and conflicts and leaves the bindings alone |
| `Context.EveryCandidateCounted` | src/notary_platform/discovery/context.py:65-101 | each candidate is directly included, superseded or excluded, and included plus excluded is the number of candidates |
| `Context.KeysMeetIff` | src/notary_platform/discovery/context.py:105 | two bindings share a group, if and only if scope and type agree or one scope continues the other after a `:` into its type |
| `Context.IncludedOrigin` | src/notary_platform/discovery/context.py:69-101 | a binding is included, if and only if it is a direct candidate within its window or supersedes a candidate within its window |
| `ContextRules.CandidatesAre` | src/notary_platform/discovery/context.py:49-52 | the candidates are the organization's bindings of this scope and selector if there are any, else those of this scope and of none, each as often as stored |
| `ContextRules.FateIs` | src/notary_platform/discovery/context.py:69-101 | each fate of a candidate has its own condition on window, superseder, type and artifact |
| `Context.FinalPlusConflicts` | src/notary_platform/discovery/context.py:108-127 | final bindings plus conflicts are the distinct keys |
| `Context.DecideByAuthority` | src/notary_platform/discovery/context.py:110-127 | a group is settled by a member of highest rank, and disagrees exactly when that rank occurs twice and is not the customer's own |
| `Context.IncludedTwiceIff` | src/notary_platform/discovery/context.py:65-106 | a binding is included once for every candidate that is it or is superseded by it, and so twice exactly for two such candidates |
| `Context.CandidatesTwice` | src/notary_platform/discovery/context.py:79-86 | from a store with unique ids, twice means a direct candidate that supersedes another, or the superseder of two |
| `Context.DisagreementIff` | src/notary_platform/discovery/context.py:110-127 | a group conflicts, if and only if two different bindings tie at its top or a top one occurs twice, below the customer's authority |
| `Context.UnrelatedBindingsConflict` | src/notary_platform/discovery/context.py:103-127 | two bindings of different scopes that share a group and tie at its top below the customer's authority conflict, and neither is final |
| `Context.FollowsDesignIff` | src/notary_platform/discovery/context.py:103-127 | conflicts are raised exactly for the keys whose different bindings tie at the top, if and only if no customer-confirmed ones tie and no other binding is alone at the top of its key and included twice |
| `Context.SupersederConflictsWithItself` | src/notary_platform/discovery/context.py:79-86 | a direct candidate below the customer's authority that supersedes another and is top of its key raises a conflict, and no binding of the key is final |
| `Context.NothingIsSettled` | src/notary_platform/discovery/context.py:37-143 | in a store of a binding and its usable superseder of the same scope nothing is settled, and the one conflict is of the superseder with itself |
| `Context.SettlementIgnoresOrder` | src/notary_platform/discovery/context.py:103-127 | permuting the candidates changes neither the keys that get a binding nor those that raise a conflict |
| `Context.FinalIsHighest` | src/notary_platform/discovery/context.py:108-127 | each final binding has the highest authority among the included bindings of its key, with one binding per key |
| `ContextRules.OutranksIff` | src/notary_platform/discovery/context.py:30-35 | customer_confirmed comes before provider_declared, dep_relationship, inferred, and everything else |
| `ContextRules.FinalIs` | src/notary_platform/discovery/context.py:103-127 | a binding is final, if and only if no included one of its scope and type has an authority before its own, and none ties with it unless the customer confirmed both and it came first |
| `ContextRules.FinalDownTheList` | src/notary_platform/discovery/context.py:30-127 | a final binding has none of a better class under its key, class by class |
| `ContextRules.RivalsAreEquals` | src/notary_platform/discovery/context.py:110-127 | only bindings of one authority tie, those outside the list counting as one |
| `ContextRules.ConflictsAre` | src/notary_platform/discovery/context.py:113-125 | a conflict names the first two of several ties, in the order they were included |
| `ContextRules.TraceIs` | src/notary_platform/discovery/context.py:129-141 | the five lists of a trace hold the winners, and the candidates of each fate |
| `Ingress.IngressService.AdmitEnvelope` | src/notary_platform/discovery/ingress.py:68-127 | accepted exactly when valid, named and unknown to the organization, rejected exactly when invalid or unnamed, quarantined exactly when a conflict is added; nothing else in the store moves |
| `Ingress.IngressService.IngestEnvelope` | src/notary_platform/discovery/ingress.py:66-127 | rejected exactly when validation fails or the id is missing; an accepted envelope is stored as its resource's payload |
| `Ingress.IngestKeeps` | src/notary_platform/discovery/ingress.py:66-127 | whatever way envelopes are read, every ingestion keeps each resource made from its stored, valid payload |
| `IngressRules.RejectedIff` | src/notary_platform/discovery/ingress.py:66-83 | an envelope is rejected, if and only if it is malformed, does not declare its own digest or has no id, and then nothing is stored |
| `IngressRules.SoundIsIngested` | src/notary_platform/discovery/ingress.py:85-127 | any other envelope is stored under its id with its declared algorithm and digest, recognised as stored, or kept as a conflict of the stored digest with its own |
| `Ingress.ReplacedIff` | src/notary_platform/storage.py:1155-1163 | a step replaces a stored resource or payload, if and only if another organization ingests a valid envelope under its id |
| `Ingress.EvidenceIsImmutable` | src/notary_platform/discovery/ingress.py:85-121 | through any run of its own organization a stored resource and its payload never change |
| `Ingress.RunCounts` | src/notary_platform/discovery/ingress.py:95-117 | the conflicts added by a run are as many as its quarantined receipts |
| `Ingress.StoreIsFaithful` | src/notary_platform/discovery/ingress.py:66-127 | from an empty store every stored digest is the digest of the stored payload |
| `Ingress.ResubmissionIsDuplicate` | src/notary_platform/discovery/ingress.py:85-93 | an accepted envelope submitted again after any run of its organization is a duplicate |
| `Ingress.DuplicateIffSameContent` | src/notary_platform/discovery/ingress.py:85-117 | a valid envelope for a known resource is a duplicate, if and only if it has the stored content under the stored algorithm, and is quarantined otherwise |
| `ProofBridge.AuthoritySound` | src/notary_platform/sweep/bridge.py:544-581 | authority is an approval that no review in force postdates, or a matching delegation when no review is in force |
| `ProofBridge.AuthorityIff` | src/notary_platform/sweep/bridge.py:544-581 | with unique review ids there is authority, if and only if such an approval exists, or no review is in force and a delegation matches |
| `ProofBridge.LaterReviewRevokes` | src/notary_platform/sweep/bridge.py:551-560 | a later review in force that does not approve withdraws all authority, delegations included |
| `PromotionRules.AuthorityIs` | src/notary_platform/sweep/bridge.py:544-601 | authority is the review of greatest creation text and id in force, the first stored of equals, if it approves; or, when none is in force, the first delegation that matches in every condition it sets |
| `PromotionRules.LaterTextWithdraws` | src/notary_platform/sweep/bridge.py:551-560 | an approval is never the authority once a review in force has a creation text that parts from its own at a greater character or continues it, or the same text and such an id |
| `PromotionRules.RefusalDecides` | src/notary_platform/sweep/bridge.py:544-560 | where the deciding review does not approve nothing is promoted, whatever delegations there are |
| `PromotionRules.RefusedIff` | src/notary_platform/sweep/bridge.py:42-215 | a promotion is refused, if and only if the candidate, its records, evidence, context, level or authority are missing, or out of its organization or environment |
| `PromotionRules.FirstPromotionStores` | src/notary_platform/sweep/bridge.py:230-275 | a new success leaves the record, the incident and the bundle naming one another, and a manifest of the candidate with the digest of every supporting resource, every binding in order, the assessments and the authority |
| `ProofBridge.CollectFailures` | src/notary_platform/sweep/bridge.py:42-171 | each failure code is collected exactly when its prerequisite is missing, and none is exactly when the candidate is eligible |
| `PromotionRules.LineageCodes` | src/notary_platform/sweep/bridge.py:50-109 | which missing or foreign evidence record, sweep run or sweep definition each code is about |
| `PromotionRules.EvidenceCodes` | src/notary_platform/sweep/bridge.py:121-147 | which missing evidence or resource each code is about |
| `PromotionRules.LevelAndAuthorityCodes` | src/notary_platform/sweep/bridge.py:111-171 | the level code is collected exactly for a level other than E3 and E4, the authority code exactly when nothing authorises the promotion |
| `PromotionRules.EnvironmentCode` | src/notary_platform/sweep/bridge.py:65-158 | the environment code is collected, if and only if the evidence record, the run, its definition, a resource or a binding lies in another environment |
| `ProofBridge.BundleIsComplete` | src/notary_platform/sweep/bridge.py:413-458 | the bundle of an eligible candidate covers every supporting resource and every context binding |
| `ProofBridge.ProofBridgeService.CreateRecord` | src/notary_platform/sweep/bridge.py:232-234 | the bundle, the record and its key are written in that order, up to the crash |
| `ProofBridge.ProofBridgeService.RecordLineage` | src/notary_platform/sweep/bridge.py:237-259 | the incident, the record's link to it and its lineage are written in that order, up to the crash |
| `ProofBridge.ProofBridgeService.CreateLineage` | src/notary_platform/sweep/bridge.py:230-275 | a first promotion makes those six writes and answers with the identifiers of the key |
| `ProofBridge.ProofBridgeService.PromoteCandidate` | src/notary_platform/sweep/bridge.py:200-275 | a promotion, crashed or not, leaves the specified store and gives the specified answer |
| `ProofBridge.PromotionKeeps` | src/notary_platform/sweep/bridge.py:200-275 | every promotion keeps the invariant on records, incidents and bundles, and leaves alone everything stored under a key that has a record |
| `ProofBridge.SuccessIsBacked` | src/notary_platform/sweep/bridge.py:261-275 | a success leaves the record, the linked incident and the stored bundle it names, and is new exactly when the key had no record |
| `ProofBridge.DoneAnswers` | src/notary_platform/sweep/bridge.py:216-229 | a completed key stays completed, and answers every later success with the same identifiers |
| `ProofBridge.SuccessesAgree` | src/notary_platform/sweep/bridge.py:200-275 | in every run with crashes, each success names a bundle still stored at the end, and later successes of its key give the same record, incident and bundle |
| `ProofBridge.OneRecordOneIncident` | src/notary_platform/sweep/bridge.py:359-389 | in every run with crashes each key has at most one record, each incident belongs to a keyed record, and each bundle matches its reference |
| `ProofBridge.StuckForever` | src/notary_platform/sweep/bridge.py:216-228 | a key with a record but no linked incident stays so, and every promotion of it is refused |
| `ProofBridge.RetryIff` | src/notary_platform/sweep/bridge.py:216-259 | after a crash a retry succeeds, if and only if the crash came before the third write or after the sixth |
| `ProofBridge.KeysMeetIff` | src/notary_platform/sweep/bridge.py:614-617 | two candidates of one organization share a key, if and only if environment and id are equal or continue one another across a `\|` |
| `ProofBridge.OrganizationsMeetIff` | src/notary_platform/sweep/bridge.py:614-617 | two organizations have candidates with environments and ids that share a key, if and only if one name continues the other after a `\|` |
| `ProofBridge.OrganizationsOverwrite` | src/notary_platform/sweep/bridge.py:230-248 | promoting for a second organization under a shared key erases the record the first one has |
| `ProofBridge.MeetingOrganizationsLoseARecord` | src/notary_platform/sweep/bridge.py:200-275 | for any two organizations whose names meet, two promotions of eligible candidates from the empty store: the first succeeds, and its record is gone after the second |
| `ProofBridge.RecordsStayIff` | src/notary_platform/sweep/bridge.py:200-275 | promotions of a set of organizations keep every stored record, if and only if no name continues another after a `\|` |
| `ProofBridge.MeetingCandidatesShareABundle` | src/notary_platform/sweep/bridge.py:216-229 | of two eligible candidates of one organization whose names meet, promoting the second succeeds with the bundle of the first |
| `ProofBridge.RightBundlesIff` | src/notary_platform/sweep/bridge.py:200-275 | in every run over some candidates of an organization each success names a bundle made for the promoted candidate, if and only if no two of their names meet |
| `EvidencePath.IngestedEvidenceSupportsNothing` | src/notary_platform/sweep/bridge.py:122-149 | in a world whose resources ingestion alone stored, no candidate is eligible |
| `EvidencePath.PromotedRecordIsNeverCertified` | src/notary_platform/sweep/bridge.py:359-389 | whatever is done before and after, no proof is issued for the record a promotion creates |

## Left out

- CanonicalJson.TextDecidesMeaning: floating point numbers and lone surrogates are not JSON values here; text stands for its UTF-8 bytes.
- Digests.DigestDecidesContent: algorithm names with a colon are shut out, because no hash has such a name; real hash functions are only assumed injective.
- Snapshot.RootDecidesElements: compares snapshots under one key; keys that HMAC itself identifies (a long key and its hash, a short key and its zero padding) are different keys here.
- SchemaRegistry.AcyclicTerminates: the interpreter's stack is a depth; which of two errors is raised first on a registry that has both a bad reference and a cycle is not modelled. `\w` in a schema name is the ASCII class, where the program also takes letters and digits of other scripts.
- Cassette.ResponseCassette.Lookup: events sent to the callback and their sequence numbers are left out, since nothing reads them back; `has_entry` is a lookup; methods, URLs and bodies that are not text are left out, and `upper` is the ASCII one.
- Replay.ReplaySnapshot: the agent must be a function of the replies it has seen, and an agent that never stops calling is `StillRunning`, which the program would not return from.
- Workflow.WorkflowServices.CreateFromSdkSnapshot: record metadata (source, agent, model, policy, the submitted label source and outcome) and the snapshot evidence artifact are left out; whether a record is a demo record is a parameter, which this call cannot set: the demo catalogue and `create_manual` do.
- Workflow.WorkflowServices.RunReplay: a configured runner is any function from elements to a decision and one of the five statuses the services tell apart; incident status, custody entries and evidence artifacts are left out.
- Workflow.WorkflowServices.RunMutation: agents are configured per scenario as a parameter, so the keyword search for a scenario is left out, and so is the write-back of evidence level E4 to the candidate.
- Workflow.WorkflowServices.IssueProofOfMitigation: the claim's scenario, the signed dictionary and its signature are left out.
- Identity.DiscoveryStore.BuildRecord: the environment of the record and the context resolution it starts are left out here; resolution is modelled in `Context`.
- Identity.RebuildsAgree: builds of the organization that move the identity are left out of the run; `Identity.BuildMovesIff` says which those are.
- Context.TemporalContextResolver.Resolve: times are integers, so unparseable texts and the mixing of naive with aware times are left out; the reasons, the stale list (equal to the missing one) and the update of the record are left out; `conflicted_bindings`, always empty, is left out.
- Ingress.IngressService.IngestEnvelope: JSON Schema, version and type checks are one arbitrary predicate, taken to guarantee that the fields ingestion reads are texts; later mutation of an envelope by its sender is left out.
- ProofBridge.PromotionKeeps: organizations come from a set in which no name continues another after a `|`; for others the claim is false, see `ProofBridge.RecordsStayIff`. The same holds of every lemma about a set of organizations.
- ProofBridge.ProofBridgeService.PromoteCandidate: two promotions at the same time are left out, promotions follow one another; identifiers keep the whole key where the program keeps 96 bits of its hash; the answer of a refused promotion carries no failure list, error code or next action (`ProofBridge.CollectFailures` has the list) and a success no replay state; normalised algorithm names, custody events and `get_lineage` are left out.
- Loading schemas from disk, the demo catalogue and its mapping to elements, routers, authentication, command lines, PostgreSQL, S3 and file storage, KMS signing, the user interface, scenario runs, readiness checks and release gates: input and output or wiring, or members with little to prove.
