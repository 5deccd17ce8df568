# Verification of CloakPipe's evidence and privacy kernels

A Dafny model of the parts of CloakPipe that decide, encode, chain and rewrite:
the certification decision, pseudo-tokens and their vault, Merkle trees, the
canonical encodings and hash chains, the anchoring of the decision ledger, the
audit pack, exported bundles, the tool catalog, and the format-preserving
generators. Each file holds one module that follows one component:

| files | component |
|---|---|
| `Ordering`, `Lists`, `Text`, `HexText` | comparators and the stable sort, lists, decimals and hexadecimal, sorted sets |
| `CertificationModel`, `Certification`, `Decide`, `CertificationOrder` | evaluation runs and policies, the decision, its implementation, order independence |
| `CertificationTerms`, `CertificationAggregates`, `CertificationMeaning`, `CertificationContract`, `CertificationReports`, `CertificationListing` | the words of the contract, aggregates, summaries and new failures, when a release is certified, what is reported, in which order |
| `Tokens`, `Substitution`, `Rehydrator`, `Vault`, `Replacer`, `Replacements` | pseudo-tokens, their substitution, the streaming rewriter, the vault, pseudonymisation and its undoing, what it puts where |
| `Merkle`, `Rfc6962`, `TreeHash` | the tree builder with its proofs, the RFC 6962 recursion and the RFC 9162 verifier, both against the standard's definition |
| `CanonicalJson`, `JsonReader`, `HashLinks`, `DecisionChain`, `Epochs`, `EntryReading`, `Ledger` | canonical JSON, a reader of JSON, sealed objects, chains, decision entries, epochs, what their hashed texts say, the store |
| `Anchoring`, `AnchoringRuns`, `AnchoringTicks` | the anchoring scheduler, runs of it, what one tick or flush does |
| `AuditPack`, `Export`, `BundleRuns` | the audit pack, bundles and the auditor's proof check, runs of a bundle |
| `LedgerRecord`, `CanonicalRecord`, `RecordFields`, `RecordTwins`, `RecordReading`, `RecordChain` | ledger records, their canonical text, what it determines between two records and of one record, the auditor's reader of it, their chain |
| `EsNumber`, `EsNumberForm` | number formatting of RFC 8785, which form a number takes |
| `Catalog`, `CatalogRuns`, `CatalogHistory` | the tool router and drift detector, runs of it, what it shows told from the listings |
| `FormatPreserving` | fake Indian identifiers |

Methods with loops and classes with mutable fields stand where the original
works step by step; each is proved against a function, and the properties are
proved of that function over every input or every run. Where a function decides,
selects or prints, its properties are stated in words of their own, with every
comparison, order and bound spelled out, so that they do not follow the function
when it changes. `dafny verify dfyconfig.toml` checks everything.

## How the model is set up

- SHA-256 is an arbitrary function. A claim that rests on it reads "the claim
  holds, or two of the inputs actually hashed collide", with the set of hashed
  inputs named.
- Signatures, authorities' answers, clock readings, the wording of messages and
  the reading of timestamps are parameters.
- Text is a sequence of Unicode scalar values; sorting by scalar value is the
  byte order of UTF-8.
- A property that does not hold of the code is stated with the exact condition
  under which it does, for all inputs, and with inputs that break it:

| property | holds exactly when | fails for |
|---|---|---|
| an audit pack's epochs are whole | `AuditPack.WholeExactly` | `AuditPack.SealBetweenReadsCutsEpoch` |
| the Merkle root binds the list of leaves | `Merkle.RootsEqualExactly` | `Merkle.RootIgnoresRepeatedLast` |
| a shown tool routes back to itself | `CatalogRuns.ShownRoutesBack` | `CatalogRuns.LiteralNameMisroutes` |
| per-server names are distinct | `Catalog.NamespacedNamesClash` | the equal pairs it names |
| tokens are distinct and lead back | `Vault.InverseExactly` | `Vault.ManyPeopleClash` |
| a bundle's manifest is in step | `BundleRuns.InStepExactly` | `BundleRuns.UnknownBatchOutOfStep` |
| a record's canonical text determines it | `RecordTwins.DeterminedExactly` | `RecordTwins.TwoActionsHaveTwin` |
| the tip of a record chain determines every field | `RecordChain.TipDeterminesExactly` | `RecordChain.AmbiguousChainHasTwin` |
| a sealed bundle passes the auditor's check | `Export.SealedBundleChecks` | every later first seq |

The documentation of the canonical text promises that equal fields give equal
bytes (`crates/cloakpipe-ledger/src/canonical.rs:3-6`). The converse, on which a
chain as evidence rests, holds of seq, link and metadata for every accepted record
(`RecordChain.TipDetermines`) and of the other fields under the stated condition:
tuples follow each other as `)(` without escaping, so two actions or two
detections have the text of one merged one.

## Where code and documentation differ

- `crates/cloakpipe-verify/src/anchor.rs:638-642` looks up the head of a stored
  proof by the record's position, while heads carry seq ranges. A bundle sealed
  from a date range that starts after seq 0 is therefore refused although every
  proof folds to the root (`Export.SealedBundleChecks`).
- `crates/cloakpipe-ledger/src/audit_pack.rs:18-21` says every included epoch
  comes with all its entries. Entries and epochs are read one after the other,
  so an epoch sealed in between can be included with entries missing
  (`AuditPack.SealBetweenReadsCutsEpoch`). The promise holds exactly when every
  epoch around the selection ends among the entries read
  (`AuditPack.WholeExactly`), as it does in one consistent view
  (`AuditPack.PackIsWhole`).
- `crates/cloakpipe-verify/src/anchor.rs:657` indexes the records by the
  position of a stored proof: a proof past the last record whose head fits ends
  the check in a panic, not in an error (`Export.VerifyInclusionProofs`).
- `crates/cloakpipe-core/src/format_preserving.rs:62`: the factor 7 divides the
  modulus 89999, so Indian phone numbers repeat seven times sooner than the
  moduli suggest (`FormatPreserving.IndianPhonePeriod`).

## Model

| member | source | states |
|---|---|---|
| `Ordering.CompareStringMeans` | crates/cloakpipe-cert/src/policy.rs:325-356 | one text is less than another exactly when it is a proper prefix or smaller at the first difference |
| `Ordering.SortForgetsOrder` | crates/cloakpipe-cert/src/policy.rs:314-316 | a stable sort gives the same list for every order of its input when ties are equal items |
| `Ordering.SortedUnique` | crates/cloakpipe-cert/src/policy.rs:284 | there is only one sorted arrangement of a multiset whose ties are equal |
| `CertificationModel.ValidateRun` | crates/cloakpipe-cert/src/model.rs:180-220 | the loops report exactly the listed issues, in order |
| `CertificationModel.ValidatePolicy` | crates/cloakpipe-cert/src/model.rs:355-402 | the loops report exactly the listed issues, in order |
| `CertificationModel.NoRunIssues` | crates/cloakpipe-cert/src/model.rs:179-220 | no issue is reported exactly for runs with a known version, kind and release hash, known covers, distinct non-blank case ids and finite numbers |
| `CertificationModel.NoPolicyIssues` | crates/cloakpipe-cert/src/model.rs:355-402 | no issue is reported exactly for policies whose rates are in 0..=1, thresholds finite and boundary suites known and distinct |
| `CertificationModel.RunIssueIs` | crates/cloakpipe-cert/src/model.rs:179-220 | each issue of a run is reported exactly when what it says of the run is so |
| `CertificationModel.PolicyIssueIs` | crates/cloakpipe-cert/src/model.rs:355-402 | each issue of a policy likewise |
| `Decide.ValidRuns` | crates/cloakpipe-cert/src/policy.rs:358-380 | usable runs are kept in order and every issue of the others is pushed as a reason |
| `Decide.BindRelease` | crates/cloakpipe-cert/src/policy.rs:116-133 | runs of the release are kept in order, each other one gives one reason |
| `Decide.IndexBaselines` | crates/cloakpipe-cert/src/policy.rs:158-165 | the map holds, for every suite, the first baseline run of that suite and nothing else |
| `Decide.CheckRun` | crates/cloakpipe-cert/src/policy.rs:168-257 | pushes the reasons of one run in the contract's order and returns its new critical failures |
| `Decide.CheckRunBoundary` | crates/cloakpipe-cert/src/policy.rs:509-586 | pushes missing sides, then low deny and allow rates, of this run's labelled cases only |
| `Decide.CheckBoundary` | crates/cloakpipe-cert/src/policy.rs:475-505 | every listed suite once, in order; an uncovered one is incomplete unless it is required |
| `Decide.Decide` | crates/cloakpipe-cert/src/policy.rs:98-299 | the whole procedure returns the specified decision, field by field |
| `CertificationOrder.CaseOrderTotal` | crates/cloakpipe-cert/src/policy.rs:338-356 | the case comparator is a total order: only equal cases tie |
| `CertificationOrder.ReasonOrderTotal` | crates/cloakpipe-cert/src/policy.rs:687-698 | the reason comparator is a total order: only equal reasons tie |
| `CertificationOrder.CanonicalForgetsOrder` | crates/cloakpipe-cert/src/policy.rs:325-336 | canonical copies of rearranged runs are equal, duplicate case ids included |
| `CertificationOrder.ViewOfCanonical` | crates/cloakpipe-cert/src/model.rs:165-173 | on a canonical copy the hashed view re-sorts nothing |
| `CertificationOrder.DecisionSeesJson` | crates/cloakpipe-cert/src/policy.rs:301-323 | the decision depends on every run only through what its hashed JSON shows |
| `CertificationOrder.OrderIndependent` | crates/cloakpipe-cert/src/policy.rs:3-6 | the identical decision for every order of runs, baselines, cases, covers and evaluators, or two runs with different views and one hash |
| `CertificationOrder.ReasonsSorted` | crates/cloakpipe-cert/src/policy.rs:63-68 | the reasons are those found, in the only order the comparator allows |
| `CertificationListing.ReasonsListed` | crates/cloakpipe-cert/src/policy.rs:687-698 | reasons are listed by code in the contract's order, then suite, case, message and numbers |
| `CertificationListing.RunsListed` | crates/cloakpipe-cert/src/policy.rs:305-323 | runs are listed by suite, run id and hash |
| `CertificationListing.DecisionShows` | crates/cloakpipe-cert/src/policy.rs:271-299 | release, policy, required suites ascending, a reference to every run and a summary of every candidate |
| `CertificationListing.RefsAre` | crates/cloakpipe-cert/src/policy.rs:305-323 | a reference names its run and suite and carries the hash of what the run shows |
| `CertificationMeaning.SummaryIs` | crates/cloakpipe-cert/src/policy.rs:410-431 | cases are counted under their own status, and the rates are passed over run and run over all |
| `CertificationMeaning.PublishedIs` | crates/cloakpipe-cert/src/policy.rs:410-431 | the published summary shows these counts, capped to 32 bits |
| `CertificationMeaning.MetricJudged` | crates/cloakpipe-cert/src/policy.rs:433-470 | a metric rule gives its one reason exactly when the aggregate of its metric over the executed cases of the matching runs is above an upper or below a lower bound |
| `CertificationMeaning.NewFailuresAre` | crates/cloakpipe-cert/src/policy.rs:229-250 | as many new critical failures are found as critical cases fail that did not fail in the suite's first baseline |
| `CertificationAggregates.AggregateIs` | crates/cloakpipe-cert/src/policy.rs:611-653 | each aggregate is the mean, nearest-rank percentile, least or greatest of the values |
| `CertificationAggregates.AggregateUnique` | crates/cloakpipe-cert/src/policy.rs:611-653 | only one number is |
| `CertificationReports.ReportsExactly` | crates/cloakpipe-cert/src/policy.rs:98-299 | a finding, with its code, suite, case and numbers, is reported exactly when the runs and the policy give cause for it |
| `CertificationMeaning.SummaryConserves` | crates/cloakpipe-cert/src/policy.rs:410-431 | every case counts under exactly one status, executed is the rest, rates lie in 0..=1 |
| `CertificationContract.CertifiedExactly` | crates/cloakpipe-cert/src/policy.rs:8-68 | certified if and only if the contract of checks 1 to 6 holds, which is stated over the cases, values and runs with every comparison spelled out |
| `CertificationContract.MoreRunsKeepReasons` | crates/cloakpipe-cert/src/policy.rs:158-270 | adding candidate runs never removes a reason found on a single run, counted with multiplicity |
| `CertificationAggregates.NearestRankIs` | crates/cloakpipe-cert/src/policy.rs:649-653 | at least pct% of the values are at or below the result and fewer than pct% strictly below it |
| `CertificationAggregates.MeanIs` | crates/cloakpipe-cert/src/policy.rs:611-637 | the mean of finite values is sum over count and the clamp never changes it |
| `CertificationContract.IndexedRearranges` | crates/cloakpipe-cert/src/policy.rs:305-318 | the indexed runs are the canonical copies of the input, each a rearrangement |
| `Tokens.MatchLengthLongest` | crates/cloakpipe-core/src/rehydrator.rs:57 | the greedy matcher finds the longest match of the token expression |
| `Tokens.TailIsTokenPrefix` | crates/cloakpipe-core/src/rehydrator.rs:52 | a suffix matches the tail expression exactly when it can be continued to a token |
| `Substitution.NothingToReplace` | crates/cloakpipe-core/src/rehydrator.rs:57-70 | text without a token stays as it is |
| `Substitution.FirstReplaced` | crates/cloakpipe-core/src/rehydrator.rs:57-70 | the leftmost token, as long as possible, gives its original if known and else itself, text before it stays, and the rest is treated alike; the flag tells whether a known one was found |
| `Rehydrator.RehydrateChunk` | crates/cloakpipe-core/src/rehydrator.rs:37-73 | the buffer keeps exactly the held tail, the rest is substituted, and the flag says whether a known token was replaced |
| `Rehydrator.SubstituteAcrossHold` | crates/cloakpipe-core/src/rehydrator.rs:44-55 | whatever comes next, substitution splits at the hold point |
| `Rehydrator.StreamingRefinesOneShot` | crates/cloakpipe-core/src/rehydrator.rs:35-73 | for every chunking, what was sent plus the substituted rest is the substitution of the whole text |
| `Rehydrator.RehydrateStream` | crates/cloakpipe-core/src/rehydrator.rs:35-73 | the loop over a stream's chunks has that property |
| `Rehydrator.SentIsFinal` | crates/cloakpipe-core/src/rehydrator.rs:46-51 | nothing sent has to be retracted, whatever follows |
| `Rehydrator.HoldIsExact` | crates/cloakpipe-core/src/rehydrator.rs:46-53 | the held tail is the longest suffix that can still become a token |
| `Vault.Vault.GetOrCreate` | crates/cloakpipe-core/src/vault.rs:120-163 | all three maps and the token are exactly as specified for exact, alias and fresh cases |
| `Vault.TokenGiven` | crates/cloakpipe-core/src/vault.rs:120-163 | a known original gets its own token, another one shares that of the stored original the resolver picks, and otherwise one with the next number of its prefix |
| `Vault.TokenTextInjective` | crates/cloakpipe-core/src/vault.rs:150-154 | a token's text determines its prefix and its id, for every prefix |
| `Vault.FreshTokenIsNew` | crates/cloakpipe-core/src/vault.rs:145-154 | a counted token is not in the vault yet |
| `Vault.GetOrCreateKeeps` | crates/cloakpipe-core/src/vault.rs:115-163 | a call keeps every token leading back to its original and forgets nothing |
| `Vault.RunConsistent` | crates/cloakpipe-core/src/vault.rs:115-163 | after any run of fewer than 2^32 calls the maps are consistent, and without a resolver mutually inverse |
| `Vault.RunIssues` | crates/cloakpipe-core/src/vault.rs:145-163 | after a run of any length the new originals of a prefix hold the ids 1, 2, ... in order, wrapped to 32 bits, and every way through the vault leads back |
| `Vault.InverseExactly` | crates/cloakpipe-core/src/vault.rs:145-163 | without a resolver the maps are mutually inverse exactly when no prefix was asked for more than 2^32 different originals |
| `Vault.WrapReusesToken` | crates/cloakpipe-core/src/vault.rs:147-154 | the original that comes 2^32 after another one of its prefix gets the same token, so the two share it |
| `Vault.ManyPeopleClash` | crates/cloakpipe-core/src/vault.rs:147-154 | there is such a run: 2^32 + 1 numbered people |
| `Vault.InverseMeansDistinct` | crates/cloakpipe-core/src/vault.rs:23-25 | with inverse maps two originals share a token only if they are equal |
| `Replacer.PseudonymizeText` | crates/cloakpipe-core/src/replacer.rs:15-51 | the loop yields the specified text, mappings and vault, also for unsorted or overlapping spans |
| `Replacer.PseudonymizeKeeps` | crates/cloakpipe-core/src/replacer.rs:24-39 | a call leaves the vault consistent and only grown |
| `Replacer.SubstitutionUndoes` | crates/cloakpipe-core/src/replacer.rs:15-51 | from any consistent vault, substituting the pseudonymised text gives the original text |
| `Replacer.RoundTrip` | crates/cloakpipe-core/src/replacer.rs:15-51 | the same after any earlier calls, for faithful spans that no capital precedes and no digit follows and gaps without vault tokens |
| `Replacements.TextIs` | crates/cloakpipe-core/src/replacer.rs:15-51 | every span is replaced by the token its original has in the end, and nothing else of the text changes |
| `Replacements.MappingsAre` | crates/cloakpipe-core/src/replacer.rs:30-34 | the mappings hold exactly the tokens put into the text, each with the original it last stood for |
| `Replacements.VaultAfter` | crates/cloakpipe-core/src/replacer.rs:24-39 | exactly the originals listed are given tokens, and no token changes |
| `Replacements.CategoryKept` | crates/cloakpipe-core/src/replacer.rs:30-31 | without a resolver a new original's token has the category it was first listed with |
| `Merkle.MerkleTree.BuildLevel` | crates/cloakpipe-anchor/src/merkle.rs:103-111 | the inner loop pairs neighbours and duplicates an odd last node |
| `Merkle.MerkleTree.FromHashedLeaves` | crates/cloakpipe-anchor/src/merkle.rs:92-115 | the levels are the leaves and every level's pairing up to one node; the empty tree is one zero hash |
| `Merkle.MerkleTree.FromLeaves` | crates/cloakpipe-anchor/src/merkle.rs:79-82 | the same over prefixed leaf hashes |
| `Merkle.MerkleTree.InclusionProofFor` | crates/cloakpipe-anchor/src/merkle.rs:127-156 | the steps are the siblings on the way up, for every index and odd levels too |
| `Merkle.VerifyInclusion` | crates/cloakpipe-anchor/src/merkle.rs:162-171 | accepts exactly when folding the steps over the leaf hash gives the root |
| `Merkle.Completeness` | crates/cloakpipe-anchor/src/merkle.rs:92-156 | every leaf's own proof folds to the root |
| `Merkle.ProofLength` | crates/cloakpipe-anchor/src/merkle.rs:125-156 | a proof has exactly the least k with 2^k >= n steps |
| `Merkle.Soundness` | crates/cloakpipe-anchor/src/merkle.rs:159-171 | a proof of any shape is accepted only for one of the leaves, or hashed inputs collide |
| `Merkle.RootBindsLeaves` | crates/cloakpipe-anchor/src/merkle.rs:79-119 | for a fixed count equal roots mean equal leaves, or hashed inputs collide |
| `Merkle.CompletionKeepsRoot` | crates/cloakpipe-anchor/src/merkle.rs:103-111 | a list and its completion to a power of two, the last block doubled at every odd level, have one root |
| `Merkle.CompletionExtends` | crates/cloakpipe-anchor/src/merkle.rs:103-111 | the completion only adds leaves at the end |
| `Merkle.RootsEqualExactly` | crates/cloakpipe-anchor/src/merkle.rs:79-119 | two nonempty lists of any lengths have one root exactly when their completions are equal, or hashed inputs collide |
| `Merkle.RootIgnoresRepeatedLast` | crates/cloakpipe-anchor/src/merkle.rs:108 | the smallest instance: an odd list and the same list with its last leaf repeated have one root |
| `Rfc6962.MthFromBelow` | crates/cloakpipe-anchor/src/testkit.rs:433-440 | the top-down hash is also computed pair by pair from below |
| `Rfc6962.AuditPathFromBelow` | crates/cloakpipe-anchor/src/testkit.rs:442-457 | the audit path is the sibling, if any, and the path one level up |
| `Rfc6962.AuditPathLength` | crates/cloakpipe-anchor/src/testkit.rs:442-457 | a path has at most ceil(log2 n) hashes |
| `Rfc6962.VerifyInclusion` | crates/cloakpipe-verify/src/rekor.rs:316-342 | the bit-shifting loop of section 2.1.3.2 of RFC 9162 climbs level by level |
| `Rfc6962.AuditPathVerifies` | crates/cloakpipe-verify/src/rekor.rs:316-342 | the verifier accepts every leaf's audit path |
| `Rfc6962.VerifierExact` | crates/cloakpipe-verify/src/rekor.rs:316-342 | it accepts a leaf and path for an index exactly when they are that leaf and its audit path, unless hashed inputs collide |
| `Rfc6962.AgreeOnPowersOfTwo` | crates/cloakpipe-anchor/src/testkit.rs:433-457 | on 2^m leaves both constructions give the same root and the same proof hashes in order |
| `TreeHash.MthIs` | crates/cloakpipe-anchor/src/testkit.rs:433-440 | the log's hash is the one of section 2.1 of RFC 6962 over the entries' bytes: zero before an entry, one before the left and then the right subtree, split at the largest smaller power of two |
| `TreeHash.RootIsCompleted` | crates/cloakpipe-anchor/src/merkle.rs:92-119 | the exporter's root is that hash of the entries completed to a power of two, whatever their number |
| `TreeHash.ProofSides` | crates/cloakpipe-anchor/src/merkle.rs:127-156 | step k of a proof has its sibling on the left exactly when bit k of the leaf's index is set |
| `CanonicalJson.WriteCanonical` | crates/cloakpipe-ledger/src/decision.rs:250-279 | the writer appends the encoding to the buffer and changes nothing else |
| `CanonicalJson.EncodeUnique` | crates/cloakpipe-ledger/src/decision.rs:250-279 | no encoding continues another one: a value is found in one way at the start of a text |
| `CanonicalJson.EncodeInjective` | crates/cloakpipe-ledger/src/decision.rs:250-279 | equal texts come from equal values, objects being maps whatever their key order |
| `JsonReader.CanonicalReads` | crates/cloakpipe-ledger/src/decision.rs:250-279 | a JSON reader that shares no code with the writer reads the encoding of every value as that value |
| `JsonReader.KeysAscend` | crates/cloakpipe-ledger/src/decision.rs:254-255 | an object's members are written in the one strictly ascending order of its keys |
| `JsonReader.EscapeIsShortest` | crates/cloakpipe-ledger/src/decision.rs:261-276 | a character stands for itself unless it must be escaped, short escapes are used where there are any, and the others have lower-case digits |
| `HashLinks.SealedTextInjective` | crates/cloakpipe-ledger/src/decision.rs:237-248 | a hashed text determines its domain and everything covered, so kinds of objects never share a text |
| `HashLinks.TipCommits` | crates/cloakpipe-ledger/src/chain.rs:44-66 | a tip hash fixes the length and every item of a numbered chain when equal hashes mean equal items |
| `DecisionChain.Link` | crates/cloakpipe-ledger/src/decision.rs:190-223 | the fields come from the draft with their defaults, the hash is that of the finished entry |
| `DecisionChain.SealNotHashed` | crates/cloakpipe-ledger/src/decision.rs:239-248 | setting `entry_hash` and `sig` does not change what is hashed |
| `DecisionChain.HashCovers` | crates/cloakpipe-ledger/src/decision.rs:237-248 | entries with one hash agree on every other member, or their texts collide |
| `DecisionChain.AppendKeepsChain` | crates/cloakpipe-ledger/src/store.rs:212-230 | appending keeps the entries numbered, linked and hashed |
| `DecisionChain.HeadCommits` | crates/cloakpipe-ledger/src/decision.rs:190-248 | the head hash determines the length and every covered field of every entry, or hashed texts collide |
| `Epochs.EpochHashCovers` | crates/cloakpipe-ledger/src/epoch.rs:74-85 | heads with one epoch hash agree on every other member, or their texts collide |
| `Epochs.ReceiptsKept` | crates/cloakpipe-ledger/src/store.rs:350-356 | adding receipts loses none, doubles no kind, and holds exactly the old and offered kinds |
| `EntryReading.EntryReads` | crates/cloakpipe-ledger/src/decision.rs:13-36 | an entry is hashed over its domain line and a text that reads as an object with exactly the listed members and values |
| `EntryReading.DraftReads` | crates/cloakpipe-ledger/src/decision.rs:190-220 | an appended entry says what its draft says, with the time of the append and the release as defaults |
| `EntryReading.EpochReads` | crates/cloakpipe-ledger/src/epoch.rs:7-17 | an epoch head likewise |
| `Ledger.LedgerStore.AppendDecision` | crates/cloakpipe-ledger/src/store.rs:212-230 | the entry is linked after the head, signed and appended |
| `Ledger.LedgerStore.NextUnsealedSeq` | crates/cloakpipe-ledger/src/store.rs:264-268 | one more than the largest sealed seq |
| `Ledger.LedgerStore.SealEpoch` | crates/cloakpipe-ledger/src/store.rs:270-315 | one epoch over everything unsealed, or nothing when there is nothing new |
| `Ledger.LedgerStore.AddEpochAnchors` | crates/cloakpipe-ledger/src/store.rs:336-363 | only the named epoch changes; the first receipt of a kind stays |
| `Ledger.AppendKeepsValid` | crates/cloakpipe-ledger/src/store.rs:212-230 | appending keeps the ledger valid and its epochs as they are |
| `Ledger.SealKeepsValid` | crates/cloakpipe-ledger/src/store.rs:270-315 | sealing keeps the ledger valid |
| `Ledger.AnchorsKeepValid` | crates/cloakpipe-ledger/src/store.rs:336-363 | adding receipts keeps the ledger valid |
| `Ledger.EpochsPartition` | crates/cloakpipe-ledger/src/epoch.rs:4-6 | the epochs cover exactly the entries before the first unsealed one, each in one epoch |
| `Ledger.EpochCommits` | crates/cloakpipe-ledger/src/epoch.rs:10-17 | an epoch hash fixes number, range and every decision up to its end, or hashed texts collide |
| `Ledger.EpochHistoryCommits` | crates/cloakpipe-ledger/src/epoch.rs:12-13 | it also fixes every earlier epoch head |
| `Anchoring.Anchor` | crates/cloakpipe-ledger/src/anchoring.rs:51-75 | asks exactly the configured authorities without a receipt, the TSA first |
| `Anchoring.AnchorScheduler.Seal` | crates/cloakpipe-ledger/src/anchoring.rs:167-173 | seals, reports the new epoch if any, restarts the interval |
| `Anchoring.AnchorScheduler.AnchorMissing` | crates/cloakpipe-ledger/src/anchoring.rs:176-221 | visits the pending epochs in order with the specified effect on store, memory and events |
| `Anchoring.AnchorScheduler.Tick` | crates/cloakpipe-ledger/src/anchoring.rs:134-145 | the whole new state and the reported events, with appends arriving in between |
| `Anchoring.AnchorScheduler.Flush` | crates/cloakpipe-ledger/src/anchoring.rs:149-157 | the same without regard to retry times |
| `AnchoringRuns.AnchorPendingKeeps` | crates/cloakpipe-ledger/src/anchoring.rs:175-221 | exactly the missing epochs whose retry time has come are tried, each once, and nothing is lost |
| `AnchoringRuns.EveryRun` | crates/cloakpipe-ledger/src/anchoring.rs:3-11 | in every interleaving of appends, ticks, flushes, refusals and restarts: epochs partition a prefix, one receipt per kind, each epoch reported anchored at most once and then complete |
| `AnchoringRuns.NothingLost` | crates/cloakpipe-ledger/src/anchoring.rs:3-11 | no decision, head or receipt is lost or replaced later in a run |
| `AnchoringRuns.TickBoundsUnsealed` | crates/cloakpipe-ledger/src/anchoring.rs:136-142 | a tick with `every = n` leaves fewer than max(n, 1) entries unsealed, late arrivals aside |
| `AnchoringRuns.MissingAfter` | crates/cloakpipe-ledger/src/anchoring.rs:175-221 | after the pending epochs were asked about, an epoch misses a kind exactly when it did before and its retry time has not come or an authority refused |
| `AnchoringRuns.FlushCompletes` | crates/cloakpipe-ledger/src/anchoring.rs:146-157 | a flush leaves only late arrivals unsealed, and every epoch with all wanted receipts exactly when no missing one is refused |
| `AnchoringRuns.TickCompletes` | crates/cloakpipe-ledger/src/anchoring.rs:134-145 | a tick leaves every epoch with all wanted receipts exactly when for each that misses one the retry time has come and no authority refuses |
| `AnchoringRuns.TickTries` | crates/cloakpipe-ledger/src/anchoring.rs:187-193 | a tick tries an epoch only if its last try in this run did not fail less than `retry` ago |
| `AnchoringTicks.TickSeals` | crates/cloakpipe-ledger/src/anchoring.rs:134-145 | a tick adds one epoch over everything open and restarts the interval exactly when something was open and at least max(n, 1) entries were or at least d went by since the last seal; otherwise epochs and interval stay |
| `AnchoringTicks.FlushSeals` | crates/cloakpipe-ledger/src/anchoring.rs:149-157 | a flush does exactly when something was open |
| `AnchoringTicks.TickAsks` | crates/cloakpipe-ledger/src/anchoring.rs:175-221 | a tick tries exactly the epochs that lack a receipt and were not refused within the last `retry`; each then holds what it held and what the authorities still to be heard answer |
| `AnchoringTicks.FlushAsks` | crates/cloakpipe-ledger/src/anchoring.rs:149-157 | a flush tries every epoch that lacks a receipt |
| `AnchoringTicks.AsksExactly` | crates/cloakpipe-ledger/src/anchoring.rs:187-205 | each of these epochs is tried once, and the try succeeds exactly when every authority still to be heard answers |
| `AnchoringTicks.ReceiptsExactly` | crates/cloakpipe-ledger/src/anchoring.rs:194-197 | exactly their answers are added to the epoch's receipts |
| `AnchoringTicks.ReportsExactly` | crates/cloakpipe-ledger/src/anchoring.rs:198-221 | reported are exactly the epochs then complete, with the kinds they hold, and otherwise one failure for each authority that refused |
| `AnchoringTicks.SealReports` | crates/cloakpipe-ledger/src/anchoring.rs:167-173 | a seal reports the new epoch's number and its range, from the first open entry to the last arrival |
| `AuditPack.Widen` | crates/cloakpipe-ledger/src/audit_pack.rs:106-113 | the single pass computes the specified widening |
| `AuditPack.LeftOutExactly` | crates/cloakpipe-ledger/src/audit_pack.rs:97-102 | an entry with a readable time is left out exactly when it is before `since` or after `until` |
| `AuditPack.ExportPack` | crates/cloakpipe-ledger/src/audit_pack.rs:93-126 | selection, widening and inclusion, and exactly when it is empty or a time is unreadable |
| `AuditPack.WidenedIsLeast` | crates/cloakpipe-ledger/src/audit_pack.rs:104-115 | the single pass reaches the least interval of whole epochs and meets no further epoch |
| `AuditPack.PackIsWhole` | crates/cloakpipe-ledger/src/audit_pack.rs:18-21 | exported are exactly the entries of that interval, included exactly the epochs met, each with all its entries, for any order of times |
| `AuditPack.WholeExactly` | crates/cloakpipe-ledger/src/audit_pack.rs:93-126 | with entries and epochs read from any two valid states, every included epoch comes with all its entries exactly when each epoch around the selection ends among the entries read |
| `AuditPack.SealBetweenReadsCutsEpoch` | crates/cloakpipe-ledger/src/audit_pack.rs:94-95 | an instance where that condition fails: an append and a seal between the two reads |
| `Export.Bundle.constructor` | crates/cloakpipe-ledger/src/export.rs:225-330 | a fresh bundle's manifest describes it and is signed by its operator |
| `Export.Bundle.BuildManifest` | crates/cloakpipe-ledger/src/export.rs:483-567 | count, seq bounds, chain tip, heads and receipts are those of the bundle, and the signature covers them |
| `Export.Bundle.CheckOperator` | crates/cloakpipe-ledger/src/export.rs:441-453 | refuses exactly without a manifest, a declared operator key, or the matching signer |
| `Export.Bundle.ResealManifest` | crates/cloakpipe-ledger/src/export.rs:455-467 | the manifest is back in step, keeps id and range, and nothing else changes |
| `Export.Bundle.SealBatch` | crates/cloakpipe-ledger/src/export.rs:339-422 | refuses exactly in the listed cases and then changes nothing; otherwise one head, all proofs, records and ranges unchanged, manifest in step |
| `Export.SealsExactly` | crates/cloakpipe-ledger/src/export.rs:339-374 | sealing goes through exactly when the operator's first key is the signer's, nothing was sealed or anchored, and there are records numbered without a gap, stamped no later than the sealing, with 64 hexadecimal digits each |
| `Export.FirstErrorIs` | crates/cloakpipe-ledger/src/export.rs:358-374 | otherwise the error is that of the first record at fault |
| `Export.Bundle.AttachReceipts` | crates/cloakpipe-ledger/src/export.rs:424-439 | success leaves the manifest in step; an unknown batch keeps the receipts before it and the old manifest |
| `Export.StoredProofsFold` | crates/cloakpipe-ledger/src/export.rs:386-406 | every stored proof, read back, folds the record's raw hash to the head's root |
| `Export.VerifyMerkleProof` | crates/cloakpipe-verify/src/anchor.rs:227-248 | accepts exactly when every step reads and the fold is the root |
| `Export.VerifyInclusionProofs` | crates/cloakpipe-verify/src/anchor.rs:622-673 | for any number of proof slots: accepts exactly when heads are well formed and every stored proof checks, and counts them; panics exactly when the first proof that does not check lies past the records and its head fits |
| `Export.SealedBundleChecks` | crates/cloakpipe-verify/src/anchor.rs:638-649 | a sealed bundle passes exactly when its first record has seq 0 |
| `BundleRuns.OneCallInStep` | crates/cloakpipe-ledger/src/export.rs:424-439 | one call takes a bundle out of step exactly when the operator attaches a receipt for a known batch before one for an unknown batch; it then fails with that error |
| `BundleRuns.UnknownBatchOutOfStep` | crates/cloakpipe-ledger/src/export.rs:432-437 | for instance any two receipts, one for a batch of the bundle and one for none |
| `BundleRuns.GuardsExact` | crates/cloakpipe-ledger/src/export.rs:339-439 | whether a call succeeds, and whether it fails after pushing a receipt, can be read off its input |
| `BundleRuns.InStepExactly` | crates/cloakpipe-ledger/src/export.rs:339-467 | after any sequence of sealing and attaching the manifest describes the bundle and is signed with the key declared for its operator exactly when every call that attached a known batch before an unknown one was followed by a call whose checks pass |
| `BundleRuns.RunLags` | crates/cloakpipe-ledger/src/export.rs:424-439 | otherwise it describes the bundle without exactly the receipts pushed by failed calls since the last success |
| `BundleRuns.RunKeeps` | crates/cloakpipe-ledger/src/export.rs:339-467 | over any run records, range fields and keys are unchanged, receipts only appended, and a sealed bundle keeps its head and all its proofs |
| `HexText.HexReadsBack` | crates/cloakpipe-ledger/src/export.rs:606-613 | decoding undoes the hexadecimal encoding |
| `HexText.HexExactly` | crates/cloakpipe-ledger/src/export.rs:606-613 | the strict decoder reads exactly an even number of hexadecimal digits |
| `HexText.StrictIsLenient` | crates/cloakpipe-verify/src/anchor.rs:198-207 | what the producer's decoder reads the auditor's reads as the same bytes |
| `LedgerRecord.CheckMetadata` | crates/cloakpipe-ledger/src/record.rs:361-366 | no error exactly for valid metadata, otherwise the first error in key order |
| `LedgerRecord.OpaqueIdExactly` | crates/cloakpipe-ledger/src/record.rs:423-461 | an opaque id is accepted exactly with at most 128 bytes, none of the ten markers in any case, no white space and no delimiter, and which error it is otherwise |
| `LedgerRecord.Build` | crates/cloakpipe-ledger/src/record.rs:360-398 | a record with the staged or default fields exactly when the metadata is valid |
| `CanonicalRecord.Canonicalize` | crates/cloakpipe-ledger/src/canonical.rs:21-87 | the writing loops produce the eleven lines |
| `CanonicalRecord.ValueTextInjective` | crates/cloakpipe-ledger/src/canonical.rs:79-84 | a value's text determines its type and the value |
| `CanonicalRecord.MetadataInjective` | crates/cloakpipe-ledger/src/canonical.rs:77-85 | accepted metadata is determined by its text: no value can spell out another entry |
| `CanonicalRecord.CanonicalDetermines` | crates/cloakpipe-ledger/src/canonical.rs:21-87 | whatever the free strings hold, the text determines seq, link and accepted metadata |
| `RecordFields.CanonicalInjective` | crates/cloakpipe-ledger/src/canonical.rs:1-21 | between two records without delimiters in free strings equal texts mean equal records, and conversely, own hash and empty token references apart |
| `RecordTwins.OneSided` | crates/cloakpipe-ledger/src/canonical.rs:21-87 | an unambiguous record without newlines shows the same as any accepted record with its text, whatever the other's free strings hold |
| `RecordTwins.Twin` | crates/cloakpipe-ledger/src/canonical.rs:28-74 | any other record has an accepted twin: the same text, seq, link, metadata and hash, and different fields |
| `RecordTwins.DeterminedExactly` | crates/cloakpipe-ledger/src/canonical.rs:21-87 | a record without newlines is determined by its text exactly with at most one detection and one action, no end of a detection spelt out in its entity type, no other kind between bars in the action's strings, and no bar in the policy's, upstream and region strings |
| `RecordTwins.TwoActionsHaveTwin` | crates/cloakpipe-ledger/src/canonical.rs:40-49 | for instance any two actions, however plain, are written like one |
| `RecordFields.UnvalidatedMetadataMovesLink` | crates/cloakpipe-ledger/src/record.rs:455-459 | without validation, records with any two links can have one canonical text |
| `RecordReading.ParseMetadata` | crates/cloakpipe-verify/src/pack/check.rs:217-262 | the auditor's loop over metadata entries equals the recursion over them |
| `RecordReading.AuditorReads` | crates/cloakpipe-verify/src/pack/check.rs:196-262 | off every record the builder accepts the auditor reads exactly its hop, its time and the release it is bound to, and refuses exactly those with a newline in a text or bound to something that is not a hash |
| `RecordChain.OwnHashNotHashed` | crates/cloakpipe-ledger/src/chain.rs:33-42 | the record's own hash is not part of what is hashed |
| `RecordChain.OpenRecord.LinkAndHash` | crates/cloakpipe-ledger/src/chain.rs:24-31 | only the two hashes change, and the own hash is that of the finished record |
| `RecordChain.VerifyChain` | crates/cloakpipe-ledger/src/chain.rs:44-66 | accepts exactly the chains, with their tip; otherwise the first record that does not fit and why |
| `RecordChain.ChainsAreFolds` | crates/cloakpipe-ledger/src/chain.rs:24-66 | the accepted lists are exactly those made by linking records numbered 0, 1, 2, ... from the genesis hash |
| `RecordChain.TipDetermines` | crates/cloakpipe-ledger/src/chain.rs:1-14 | one tip means one length and the same text, seq, link and metadata record by record, or hashed texts collide |
| `RecordChain.TipDeterminesFields` | crates/cloakpipe-ledger/src/chain.rs:1-14 | the tip of a chain of unambiguous records without newlines determines every field against any accepted chain, or hashed texts collide |
| `RecordChain.AmbiguousChainHasTwin` | crates/cloakpipe-ledger/src/chain.rs:1-14 | with an ambiguous record another accepted chain has the same hash at every place and shows other fields |
| `RecordChain.TipDeterminesExactly` | crates/cloakpipe-ledger/src/chain.rs:1-14 | so the tip determines every field exactly of the chains of unambiguous records |
| `RecordChain.TipDeterminesPlainFields` | crates/cloakpipe-ledger/src/chain.rs:1-14 | between two chains without delimiters in free strings it does with any number of detections and actions |
| `EsNumber.LayoutExact` | tools/release_hash_reference.py:75-84 | in all four branches the layout denotes the number of the digits and the point |
| `EsNumber.Exact` | tools/release_hash_reference.py:61-85 | every finite double prints as text that denotes it |
| `EsNumber.Canonical` | tools/release_hash_reference.py:61-85 | two finite doubles print alike exactly when they are the same number |
| `EsNumberForm.FormBySize` | tools/release_hash_reference.py:75-85 | by value: an exponent exactly from 10^21 on and below 10^-6, otherwise a point exactly if the number is not whole; no needless zero at either end, a sign exactly below zero |
| `Catalog.Collisions` | crates/cloakpipe-mcp/src/servers.rs:59-88 | shared names are split exactly into those declared per server and those refused |
| `Catalog.NamespacedNamesClash` | crates/cloakpipe-mcp/src/servers.rs:44-57 | per-server names of two servers are equal exactly when one server's name is the other's with an underscore more |
| `Catalog.Routed` | crates/cloakpipe-mcp/src/catalog.rs:59-89 | starts exactly on distinct good names, declared collisions and no clash, with the state and drifts of observing every server |
| `Catalog.ToolCatalog.ObserveAll` | crates/cloakpipe-mcp/src/catalog.rs:114-161 | new state, shown tools, drifts and clashes of a listing |
| `CatalogRuns.RunKeeps` | crates/cloakpipe-mcp/src/catalog.rs:104-161 | over any run of listings blocked tools stay blocked, routes and first-seen hashes never change |
| `CatalogRuns.DriftsAreBlocked` | crates/cloakpipe-mcp/src/catalog.rs:150-154 | from start-up on as many drifts are reported as tools are blocked |
| `CatalogRuns.RefusedWithoutRoute` | crates/cloakpipe-mcp/src/catalog.rs:173-197 | refused as unavailable exactly without a route, and as drifted exactly when the route is blocked |
| `CatalogRuns.ShownMatches` | crates/cloakpipe-mcp/src/catalog.rs:3-8 | every shown tool matches its pin or its first-seen hash, now and after any further run |
| `CatalogRuns.AgentNamesAlike` | crates/cloakpipe-mcp/src/catalog.rs:163-169 | when two names of one server are shown alike |
| `CatalogRuns.RoutesToFirstListed` | crates/cloakpipe-mcp/src/catalog.rs:119-132 | after any run a name has a route exactly when some tool was listed under it, and the route is the first tool listed so |
| `CatalogRuns.ShownRoutesBack` | crates/cloakpipe-mcp/src/catalog.rs:106-179 | a shown tool routes back to its own server and name exactly when it was listed before every other tool of its server that goes by the same name; it is then not refused when names in the listing are distinct |
| `CatalogRuns.PlainRoutesBack` | crates/cloakpipe-mcp/src/catalog.rs:106-179 | in particular when no server lists one of its per-server names literally |
| `CatalogRuns.LiteralNameMisroutes` | crates/cloakpipe-mcp/src/catalog.rs:121-134 | an instance where that condition fails: a literal per-server name listed second is shown and routes to another tool |
| `CatalogHistory.BlockedExactly` | crates/cloakpipe-mcp/src/catalog.rs:114-161 | after any run a tool is blocked exactly when its name is not another server's and some listing gave it a hash other than its pin or, without a lock, other than its first one |
| `CatalogHistory.ListedExactly` | crates/cloakpipe-mcp/src/catalog.rs:114-161 | a listed tool is shown exactly when its name is not another server's and no hash it was given so far is wrong; the first wrong one is reported as a drift, and nothing else is |
| `FormatPreserving.PanShape` | crates/cloakpipe-core/src/format_preserving.rs:84-94 | five letters, four digits, one letter |
| `FormatPreserving.GstinShape` | crates/cloakpipe-core/src/format_preserving.rs:96-100 | two digits, a PAN and the fixed end, fifteen characters |
| `FormatPreserving.AadhaarShape` | crates/cloakpipe-core/src/format_preserving.rs:76-82 | three groups of four digits |
| `FormatPreserving.PanPeriod` | crates/cloakpipe-core/src/format_preserving.rs:84-94 | two ids give one PAN exactly when equal modulo 30000 |
| `FormatPreserving.GstinPeriod` | crates/cloakpipe-core/src/format_preserving.rs:96-100 | exactly when equal modulo 90000 |
| `FormatPreserving.AadhaarPeriod` | crates/cloakpipe-core/src/format_preserving.rs:76-82 | exactly when equal modulo 4444 * 8999 |
| `FormatPreserving.IndianPhonePeriod` | crates/cloakpipe-core/src/format_preserving.rs:57-63 | exactly when equal modulo 99999 * 12857 |

## Left out

- Floating point: numbers are exact reals with infinities and one NaN; rounding, signed zero, NaN payloads and the overflow branch of `mean` are not modelled.
- Wording: messages, event lines and reasons are structured data; `display_rate` and logging are not modelled.
- Cryptography: signatures, timestamps and log entries are opaque values; AES-GCM, Ed25519, CMS, X.509 and DSSE are not modelled.
- Input and output: HTTP, SQLite files, tar writing, threads and channels; a store transaction is one method, and failures of the database itself are not modelled.
- AnchoringRuns.EveryRun: one scheduler at a time, with any number of appenders; two concurrent schedulers of one ledger could each report an epoch.
- Anchoring.AnchorScheduler.AnchorMissing: the store error for a missing epoch row is not modelled, since pending epochs are read from the same table.
- Rehydrator.RehydrateStream: the caller's flush of the last held tail is substitution here, not the iterated replacement of `Rehydrator::rehydrate`, which is not modelled.
- Tokens: the digit class of `\d` is a parameter with the ASCII digits and neither capitals nor the underscore.
- Vault.RunConsistent: bounded by 2^32 calls, beyond which `Vault.InverseExactly` says without a resolver what still holds; release-build wrapping of the `u32` counters is modelled, not the debug-build panic.
- Vault: saving, loading and encryption are not modelled, and custom categories carry their upper-cased prefix.
- Replacer: detected spans are given, with character offsets instead of byte offsets; `pseudonymize_fp` is not modelled.
- RecordTwins.DeterminedExactly: for records with newlines in free strings only that ambiguity gives a twin (`RecordTwins.Twin`), not the exact condition, since lines themselves can then be split anew.
- LedgerRecord: UUIDs and timestamps are given by their rendered text; the builder's setters are a record of staged fields.
- CanonicalJson: a float is given by its printed text.
- JsonReader: reads texts without white space between tokens and `\u` escapes below the surrogates only; a text with white space never is canonical.
- RecordReading: of the auditor's errors only the kind and the entry, not the wording.
- AuditPack: file contents, digests and the signature of the manifest; only which entries and epochs are exported.
- Export: policy packs and bundle ids are carried along; the `ts` line of a canonical text is read by a parameter, and receipts keep what the manifest does not name as one opaque text.
- Export.VerifyInclusionProofs: heads are searched in stored order, which finds the same head because well-formed ranges are disjoint; format versions below 2 are not modelled.
- Catalog: tool definitions are a name and an opaque rest, their hash a parameter; the mutex and its poisoning are not modelled.
- FormatPreserving: e-mail, amounts, secrets and the other phone formats, whose collisions are known or trivial.
- Detection, entity resolution, sessions, profiles, `statement.rs`, the CLI and the leak scorer.
