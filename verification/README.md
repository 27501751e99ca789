# AgentFM: a verified model of the trust layer

AgentFM lets a boss node hand tasks to workers it does not control. What keeps that
honest is a trust layer: every node keeps a signed append-only ledger of ratings with
Merkle inclusion proofs, peers that sign two histories are marked for ever, a
reputation solver turns ratings into scores, and the dispatcher consults both. This
project models that layer, and the small machines around it, and proves what they
promise. `dafny verify dfyconfig.toml` checks everything.

| module | what it models |
|---|---|
| `Hashing`, `Envelopes` | hashes, ideal signatures, signing and checking of entries, heads, proofs and alerts |
| `Merkle`, `MerkleTree`, `MerkleShape` | the tree hash, audit paths and consistency proofs of RFC 6962, sections 2.1, 2.1.1 and 2.1.2 |
| `MerkleWords` | the verifiers on 64-bit words, where a loop may not end |
| `LedgerModel`, `LedgerTheorems`, `Ledger` | the ledger as a state machine with faults and crashes, its theorems, and the class that refines it |
| `LedgerAnswers` | every answer of the ledger, in the fields of entries, heads and alerts |
| `LedgerProcesses` | several processes over one store under one key |
| `EigenTrust`, `EigenTrustTheorems`, `Reputation` | the solver as a specification, its theorems, and the nested loops that compute it |
| `WeightedAverage` | what the solver computes, from the scheme's own definitions |
| `Dispatch` | the trust gate and the choice of a worker |
| `Wire`, `CatchUp` | the two fetch protocols, byte by byte, and the two catch-up walks over an untrusted source |
| `WireLayout`, `WalkOutcomes` | where every byte of a page stands; how the walks end, told by the pages |
| `Inbox`, `InboxTheorems` | accepting, queueing and promoting entries of other peers |
| `InboxAnswers` | which entries find room, and which of several waiting ones is taken |
| `InboxForks` | which entries an inbox can still accept, and which wait in it for ever |
| `EndToEnd` | what a catch-up from an honest log leaves accepted |
| `OffLog` | what a catch-up can leave accepted that is not in the log |
| `Ratings` | the hourly rating writer with its lock released during appends |
| `RatingWindows` | when a peer is rated, and when not yet |
| `Limiter` | the token bucket on failed authentications, its janitor and its eviction |
| `LimiterService` | who is served: what a refusal costs, and whom it never meets |
| `Sentinel` | the reader that strips control lines from a task stream |
| `Metrics`, `Scrapes`, `MetricsStore` | ring buffers, scrapes with carry-forward, the success-rate chart |
| `Pairing` | for which patterns of scrapes the chart is right |
| `Sizes`, `SizeGrammar`, `Text` | the size parser and printer, the grammar it accepts, ASCII text helpers |
| `Wrappers`, `Arithmetic` | shared helpers |

## Assumptions

- SHA-256 with the RFC 6962 prefixes is collision-free, leaf and node hashes never
  coincide, and canonical protobuf bytes are injective and disjoint between entries,
  heads and alerts. Hence entries are identified by their hash.
- Ed25519 signatures are ideal: one verifies exactly for the key and message it was
  made for. What a key has ever signed is a ghost set.
- SQLite writes are atomic and durable once they return; a crash may fall on either
  side of a commit. (The database runs with `synchronous=NORMAL`, which can lose the
  last commits on power loss: `agentfm-go/internal/ledger/store/sqlite.go:88-122`.)
- The no-framing theorem needs one key per database. The key is loaded independently
  of the ledger path, so `LedgerTheorems.TwoStoresFrameTheirOwner` shows what happens
  without it.
- It also needs one open process per database at a time. Nothing in the code enforces
  that: opening takes no lock (`agentfm-go/internal/ledger/store/sqlite.go:88-122`), and
  two sessions of one mode share key and ledger by default
  (`agentfm-go/cmd/agentfm/bossbootstrap.go:297-315`).
  `LedgerProcesses.TwoProcessesFrameTheirOwner` is the failing run, and
  `LedgerProcesses.ConflictsIff` says which runs of several processes are safe.
- Scores, tokens and metric values are exact reals; the age weight is an arbitrary
  function of age that is positive or not negative where a lemma says so.
- Go maps are walked in an arbitrary order, which the methods take as a parameter or
  choose nondeterministically. Clocks, faults, cancellations and what other goroutines
  do while a lock is free are parameters too.

## Where the code and its documentation disagree

The model follows the code.

- `acceptLocalAlert`'s comment (`agentfm-go/internal/ledger/impl.go:511-516`) also
  promises to mark heads of different sizes whose extension proof fails; the code
  (lines 581-595) marks only equal sizes with different roots.
- The formula at the head of `agentfm-go/internal/reputation/eigentrust.go:6-9` weighs
  every edge by its age; the code (lines 220-243) first reduces a rater's edges to one
  mean per subject, so age matters only among those.
- `docs/trust.md` says a catch-up verifies inclusion proofs; the code checks the head's
  signature and the index bound, and leaves the rest to the inbox. `OffLog.OffLogIff`
  says what a source can get accepted in place of what the signed head commits to, and
  `OffLog.OnlyLogIsAccepted` when it cannot.
- The inclusion verifier is to return false on any inconsistency in proofs from anyone
  (`agentfm-go/internal/ledger/merkle/proof.go:55-58`). It does not return where the head,
  whose signature is checked later, claims more than 2^63 entries:
  `Envelopes.CheckProofAnswersIff` and `Envelopes.HugeProofIsNeverAnswered`.
- The size printer says its output round-trips through the parser
  (`agentfm-go/internal/worker/limits.go:184-185`); it does so exactly on the sizes
  that `Sizes.RoundTripIff` names.
- The fetch handlers answer a failed read with a zero count so that a client can tell
  it from a transport failure (`agentfm-go/internal/ledger/inbox_fetch.go:44-46`); a
  client cannot tell it from the end of the log, which `CatchUp.CollapseLooksComplete`
  and the last clause of `CatchUp.HonestLogWalk` make precise.
- The store says a fork is surfaced as a mismatch, and promotion drops forks
  (`agentfm-go/internal/ledger/inbox/inbox.go:244-258`); a fork that arrives late is
  queued instead and occupies its rater's quota for ever.
  `InboxForks.SecondFirstEntryWaitsForEver` is the shortest such run,
  `InboxForks.ForkWaitsIff` says in which runs it happens to a fork, and
  `InboxForks.WaitsForEverIff` to which waiting entries at all, those that name a fork
  included.
- The rating writer promises one capped rating per peer and window
  (`agentfm-go/internal/boss/completion_rating.go:45-48`). An append may store its
  rating and still fail, and the next tick then rates the same outcomes again
  (`Ratings.HalfWrittenRepeats`). `Ratings.OncePerWindowIff` says when the promise holds
  of the ledger, and `Ratings.TicksAWindowApartSpace` that it always does with ticks at
  least a window apart; the outcomes are still counted twice then, exactly if
  `Ratings.LedgerCountsOnceIff` says so.

## Limits that the theorems make exact

- The server does not trim a page to the 32 MiB that a client reads
  (`agentfm-go/internal/ledger/fetch.go:91-117`), so a log with a larger page can never
  be caught up: `CatchUp.EndsNormallyIff`.
- Requests read the clock before they take the limiter's lock
  (`agentfm-go/internal/boss/auth.go:361`), so their times may go back. Up to 270
  seconds nobody can notice the janitor, beyond them somebody can:
  `Limiter.JanitorIsInvisibleIff`.

## Model

| member | source | states |
|---|---|---|
| Merkle.SplitIsLargestPowerOfTwo | agentfm-go/internal/ledger/merkle/tree.go:91-113 | the split point is the one and only largest power of two below n |
| Merkle.LargestPowerOfTwoLessThan | agentfm-go/internal/ledger/merkle/tree.go:99-113 | for every n from 2 up to 2^63 the doubling loop ends at that split point, in 64-bit arithmetic |
| Merkle.SplitLoopIsStuckAbove | agentfm-go/internal/ledger/merkle/tree.go:99-113 | the loop misses its exit for ever exactly when n exceeds 2^63 |
| Merkle.MthInjective | agentfm-go/internal/ledger/merkle/tree.go:77-96 | two leaf lists of any lengths have one tree hash only if they are the same list |
| Merkle.InclusionExact | agentfm-go/internal/ledger/merkle/proof.go:63-82 | against the root of a list of leaves, a proof is accepted if and only if the position exists, the leaf is the one there, and the proof is its audit path: completeness and soundness in one |
| Merkle.PathBindsSize | agentfm-go/internal/ledger/merkle/proof.go:33-82 | an honest audit path of a longer log differs from the one in a shorter prefix that contains the position, and the verifier rejects it there for every leaf |
| Merkle.ConsistencyExact | agentfm-go/internal/ledger/merkle/proof.go:137-204 | a consistency proof is accepted if and only if the old root is the root of the prefix and the proof is the generated one |
| MerkleShape.TreeHashIs | agentfm-go/internal/ledger/merkle/tree.go:66-96 | the tree hash of a list, for the largest power of two below its length, is the node hash of its two parts in order |
| MerkleShape.AuditPathIs | agentfm-go/internal/ledger/merkle/proof.go:15-53 | the audit path of a leaf is the path within its part followed by the hash of the other part |
| MerkleShape.ConsistencyProofIs | agentfm-go/internal/ledger/merkle/proof.go:104-123 | the consistency proof is that of RFC 6962, section 2.1.2, case by case |
| MerkleShape.SevenLeaves | agentfm-go/internal/ledger/merkle/tree.go:66-96 | root and audit paths of the seven-leaf example of RFC 6962, section 2.1.3 |
| MerkleWords.InclusionAnswersIff | agentfm-go/internal/ledger/merkle/proof.go:63-82 | on 64-bit words the inclusion verifier returns, and then with its verdict, if and only if the position is out of range or the size is at most 2^63 |
| MerkleWords.ConsistencyAnswersIff | agentfm-go/internal/ledger/merkle/proof.go:137-204 | the consistency verifier returns, and then with its verdict, if and only if the sizes are equal or out of order, the proof is empty, or the new size is at most 2^63 |
| MerkleTree.Tree.Append | agentfm-go/internal/ledger/merkle/tree.go:31-35 | appends in place: the leaves are the old ones followed by the new one, and the size is returned |
| MerkleTree.Tree.Root | agentfm-go/internal/ledger/merkle/tree.go:66-89 | the root of the leaves held, the empty-string hash for none |
| MerkleTree.Tree.InclusionProof | agentfm-go/internal/ledger/merkle/proof.go:15-53 | the audit path of the leaf at a position, or an error exactly for positions outside the tree |
| Envelopes.SignEntry | agentfm-go/internal/ledger/sign.go:30-73 | writes predecessor and signature into the entry in place; which error for which input, and what a failed signing leaves in the entry |
| Envelopes.SignThenVerify | agentfm-go/internal/ledger/sign.go:30-131 | what a key signed verifies exactly when the entry claims that key as its rater |
| Envelopes.SignatureBindsEntry | agentfm-go/internal/ledger/sign.go:80-176 | two verified entries share a signature if and only if they share the hash, and only if they are the same |
| Envelopes.VerifyInclusionProof | agentfm-go/internal/ledger/sign.go:181-244 | the loop over the audit path computes, with every error and its order, the answer of CheckProofWithin: the verdict of CheckProof, or nothing while a split loop is still running |
| Envelopes.ProofAcceptedIff | agentfm-go/internal/ledger/sign.go:181-244 | a proof is accepted if and only if its entry is signed by its rater, every hash has its length, the path leads from the entry to the root, and the head carries the signature of the peer it names |
| Envelopes.ProofErrorIff | agentfm-go/internal/ledger/sign.go:181-244 | each error, exactly: what is missing, of the wrong length, or names no key |
| Envelopes.CheckProofAnswersIff | agentfm-go/internal/ledger/sign.go:181-244 | the verification of a proof returns, and then with the verdict of CheckProof, if and only if an earlier check stops it, its position is out of range, or its head claims a size of at most 2^63 |
| Envelopes.HugeProofIsNeverAnswered | agentfm-go/internal/ledger/sign.go:181-244 | a proof that is never answered: an entry of one's own, position 0, no path, and an unsigned head of size 2^63 + 1 |
| Envelopes.JudgeAlert | agentfm-go/internal/ledger/impl.go:521-602 | an alert leads to a mark if and only if it is signed by its witness, both heads are signed by and name the accused, and they have one size and two roots |
| Envelopes.AlertMarksIff | agentfm-go/internal/ledger/impl.go:521-602 | the same in the fields of the alert: three signatures, one name, one size, two roots |
| LedgerAnswers.AlertVerdictIs | agentfm-go/internal/ledger/impl.go:521-602 | every verdict on an alert, by the first thing that is wrong with it |
| LedgerAnswers.AlertStateIs | agentfm-go/internal/ledger/impl.go:521-602 | only the marks change: the accused is added if the alert is proven and the write committed, and evidence already stored stays |
| LedgerTheorems.ChainIsDistinct | agentfm-go/internal/ledger/impl.go:279-317 | the entries of one log, each naming its predecessor, have pairwise different leaf hashes |
| LedgerTheorems.NextHashIsNew | agentfm-go/internal/ledger/store/sqlite.go:134-166 | the UNIQUE constraint never refuses the entry an intact ledger is about to append |
| LedgerTheorems.ReachableInv | agentfm-go/internal/ledger/impl.go:212-375 | every run of appends, alerts, failures, crashes before or after any commit, and restarts keeps the log chained and signed, the tree equal to the log, and every signed head a commitment to a prefix of it |
| LedgerTheorems.SignedHeadsExtend | agentfm-go/internal/ledger/impl.go:212-375 | any two heads such a node ever signed commit to two prefixes of its log, hence equal sizes mean equal roots |
| LedgerTheorems.NoFraming | agentfm-go/internal/ledger/impl.go:521-602 | no alert made of messages really signed makes anybody mark a node that uses one key with one store, one open process at a time |
| LedgerTheorems.HonestOwnerIsNeverMarked | agentfm-go/internal/ledger/impl.go:521-602 | over every run of a judging node that is shown such alerts, the honest owner is never among its marks |
| LedgerTheorems.MarksArePermanent | agentfm-go/internal/ledger/store/inbox.go:414-433 | a mark, with its first evidence, survives every later run |
| LedgerTheorems.SharedKeyConflictsIff | agentfm-go/internal/ledger/impl.go:521-602 | for two stores run under one key: two of their signed heads conflict if and only if they have one size and different prefixes |
| LedgerTheorems.TwoStoresFrameTheirOwner | agentfm-go/cmd/agentfm/bossbootstrap.go:61-76 | the precondition is needed: one key, two fresh stores and one append each already give an alert that marks the owner |
| LedgerProcesses.ConflictsIff | agentfm-go/internal/ledger/impl.go:279-351 | over every run of any number of processes that share a store and a key, two signed heads conflict if and only if some append signed a head over a tree that differs from the stored rows, at a size already signed |
| LedgerProcesses.FreshTreesNeverConflict | agentfm-go/internal/ledger/impl.go:279-351 | no heads conflict as long as every head is signed over a tree equal to the stored rows |
| LedgerProcesses.HeadedConflictsIff | agentfm-go/internal/ledger/impl.go:279-351 | when every stored entry gets its head signed, two heads conflict if and only if some head was signed over a tree that differs from the stored rows |
| LedgerProcesses.StaleHeadNeedNotConflict | agentfm-go/internal/ledger/impl.go:317-336 | without that premise a stale head may conflict with nothing: a run in which the other process stored its entry and failed to sign |
| LedgerProcesses.FramedIff | agentfm-go/internal/ledger/impl.go:521-602 | an alert made of messages really signed marks the owner, with whatever witness, if and only if two of its heads conflict |
| LedgerProcesses.TwoProcessesFrameTheirOwner | agentfm-go/cmd/agentfm/bossbootstrap.go:297-315 | two sessions that open one fresh store and append once each give an alert that marks the owner |
| LedgerTheorems.ProofVerifiesIff | agentfm-go/internal/ledger/impl.go:404-450 | in every reachable state, the proof for any logged entry is accepted if and only if the head is in step with the tree and the entry claims the owner as its rater |
| LedgerTheorems.ProofRefusedOutsideLog | agentfm-go/internal/ledger/impl.go:411-417 | a hash that is not in the own log is answered with the not-in-log error |
| LedgerTheorems.ProofIsSound | agentfm-go/internal/ledger/sign.go:181-244 | an inclusion proof that the public verifier accepts under the owner's name, made of anything but forged head signatures of the owner, shows an entry that is in the owner's log at that position |
| LedgerTheorems.SuccessfulAppendSyncs | agentfm-go/internal/ledger/impl.go:279-351 | a successful append leaves head and tree in step, wherever they were before |
| LedgerTheorems.AppendKeepsSyncIff | agentfm-go/internal/ledger/impl.go:317-336 | an append takes a node out of step if and only if its entry is stored and its head is not |
| LedgerTheorems.RunStaysAnchored | agentfm-go/internal/ledger/impl.go:212-351 | through any run in which no head fails to be signed, written or loaded, with crashes anywhere, a running node serves no head if none was ever stored and otherwise one in step |
| LedgerTheorems.ProofsKeepVerifying | agentfm-go/internal/ledger/impl.go:404-450 | hence, from a state in step on, every proof such a node gives for an entry of its own is accepted |
| LedgerTheorems.SuccessfulAppendAnchors | agentfm-go/internal/ledger/impl.go:279-351 | every successful append in a reachable state leads to such a state |
| LedgerTheorems.RestartRecovers | agentfm-go/internal/ledger/impl.go:212-272 | a restart without faults leaves no head, or one in step with the tree |
| LedgerTheorems.FailedResyncStaysBehind | agentfm-go/internal/ledger/impl.go:216-235 | when re-signing fails at restart the old head stays, behind the tree |
| Ledger.Ledger.Open | agentfm-go/internal/ledger/impl.go:82-251 | opening rebuilds the tree, loads the newest head and re-signs it if it is behind: the state is RestartOutcome |
| Ledger.Ledger.RebuildTree | agentfm-go/internal/ledger/impl.go:241-251 | the loop over the stored entries yields the tree over all their hashes |
| Ledger.Ledger.Append | agentfm-go/internal/ledger/impl.go:279-351 | result and new state, for every place a fault can fall on, are AppendOutcome |
| LedgerAnswers.AppendAnswerIs | agentfm-go/internal/ledger/impl.go:279-351 | each error and the returned hash, exactly, for every input and every way the key or the store may fail |
| LedgerAnswers.AppendStateIs | agentfm-go/internal/ledger/impl.go:279-351 | the rows gain exactly the owner's signed entry, bound to the last leaf, if its write committed; the tree gains its hash |
| LedgerAnswers.AppendHeadIs | agentfm-go/internal/ledger/impl.go:279-375 | a head over the grown tree is stored if that write committed, and served only if the append succeeds |
| LedgerAnswers.OpenIs | agentfm-go/internal/ledger/impl.go:212-275 | opening rebuilds the tree from the rows and serves the newest stored head, or a new one where that is behind |
| Ledger.Ledger.ProveEntry | agentfm-go/internal/ledger/impl.go:404-450 | returns the proof or error of Prove and changes nothing |
| LedgerAnswers.ProveIs | agentfm-go/internal/ledger/impl.go:404-460 | an answer holds the row with the hash, its audit path in the tree and the head served |
| Ledger.Ledger.AcceptLocalAlert | agentfm-go/internal/ledger/impl.go:521-602 | verdict and new state are those of JudgeAlert and AlertOutcome |
| EigenTrustTheorems.SybilIsolation | agentfm-go/internal/reputation/eigentrust.go:179-279 | peers without seed weight whom nobody outside rates score 0 after any number of passes, and removing all they said changes neither the number of passes nor any score |
| EigenTrustTheorems.SpamCollapse | agentfm-go/internal/reputation/eigentrust.go:220-273 | all edges of one rater to one subject may be replaced by one edge with their age-weighted mean, at any age: same table, same number of passes |
| EigenTrustTheorems.OrderOfEdgesIrrelevant | agentfm-go/internal/reputation/eigentrust.go:205-244 | permuting a rater's edges changes no score and no pass |
| EigenTrustTheorems.ScoresInUnit | agentfm-go/internal/reputation/eigentrust.go:245-279 | whatever finite ratings come in, with seeds in [-1, 1] the final table is within [-1, 1] |
| EigenTrustTheorems.ClampNeverActs | agentfm-go/internal/reputation/eigentrust.go:245-259 | with seeds and mixing in [0, 1] and ratings in [-1, 1] the value before the clamp is already within [-1, 1] |
| EigenTrustTheorems.ScoreFollowsVotes | agentfm-go/internal/reputation/eigentrust.go:200-259 | a peer about whom no vote counts gets its seed; otherwise its next score lies between the lowest and the highest opinion of it, mixed with its seed, whoever votes with whatever weights, so unanimous opinions fix it |
| EigenTrustTheorems.ChangeIsUnique | agentfm-go/internal/reputation/eigentrust.go:283-293 | the largest change is determined by the two tables, and is 0 when a table replaces itself |
| Reputation.BuildGraph | agentfm-go/internal/reputation/eigentrust.go:129-177 | the ingest loop builds the graph of honesty edges: no comments, other dimensions, self-ratings or non-finite scores, ages not below 0 |
| Reputation.GraphIsWhatWasSaid | agentfm-go/internal/reputation/eigentrust.go:129-177 | who has edges, and each edge as often as a stored honesty rating of another peer with a finite score says it, with its score and its age in days, never below 0 |
| Reputation.CountVotes | agentfm-go/internal/reputation/eigentrust.go:201-244 | for every order in which the maps are walked, the accumulators end up as the sum of one normalised vote per rater and subject |
| Reputation.RunPass | agentfm-go/internal/reputation/eigentrust.go:201-272 | one iteration yields NextTable and stops exactly when no peer moved by the tolerance or more |
| Reputation.Solve | agentfm-go/internal/reputation/eigentrust.go:179-273 | the bounded loop with its early exit computes Solution |
| Reputation.Engine.Recompute | agentfm-go/internal/reputation/eigentrust.go:123-294 | the new table is ScoresFor of what is stored, a failed read changes nothing, and the largest change is returned |
| WeightedAverage.RawIsWeightedAverage | agentfm-go/internal/reputation/eigentrust.go:205-252 | before the cut-off, a next score is the seed if no trust is behind any opinion, and otherwise the seed mixed with the average of the raters' age-weighted mean opinions, weighted by the magnitude of the rater's score or, where that is 0, its seed |
| WeightedAverage.TwoRatersWeigh | agentfm-go/internal/reputation/eigentrust.go:205-252 | where exactly two raters speak of a peer, its score is (w1 * m1 + w2 * m2) / (w1 + w2) mixed with its seed |
| WeightedAverage.NextScoreIs | agentfm-go/internal/reputation/eigentrust.go:245-260 | who has a next score, and that it is that value cut off at -1 and 1 |
| WeightedAverage.FirstScoreIs | agentfm-go/internal/reputation/eigentrust.go:179-195 | the first scores are the seeds, 0 for everybody else who rates or is rated |
| WeightedAverage.SolutionIs | agentfm-go/internal/reputation/eigentrust.go:197-273 | the solution is the table after the first pass that moved no score by the tolerance, or after the last one allowed |
| WeightedAverage.DefaultsAre | agentfm-go/internal/reputation/eigentrust.go:60-78 | what is configured counts, and what is 0 is replaced by its default |
| WeightedAverage.PublishedScoreIs | agentfm-go/internal/reputation/eigentrust.go:123-294 | a marked peer is published at -1, everybody else as solved with the engine's own seeds and configuration |
| Reputation.RecomputeTwice | agentfm-go/internal/reputation/eigentrust.go:123-294 | a second recomputation on the same store and clock reports a change of 0 |
| Dispatch.CheckTrust | agentfm-go/internal/boss/trust_gate.go:30-47 | allowed if and only if unmarked and not below the floor; a mark wins over any score |
| Dispatch.AllowedIff | agentfm-go/internal/boss/trust_gate.go:30-47 | refused are exactly the workers whose id, however spelled, names a marked peer, or whose score, 0 if there is none, is below the floor |
| Dispatch.CollectTiers | agentfm-go/internal/boss/openai.go:269-287 | sorts the workers into the three tiers by the first rule that matches |
| Dispatch.BestOf | agentfm-go/internal/boss/openai.go:288-304 | the least available worker of a tier by load, then CPU, or nothing if none is available |
| Dispatch.SelectWorkerForModel | agentfm-go/internal/boss/openai.go:260-308 | workers called by peer id go before those called by agent name and these before those that serve the model; among these hits the choice is not full and nobody else who is not full carries less of its limit, or as much with less CPU; overload if all are full, not found if there are none |
| Dispatch.PickWorker | agentfm-go/internal/boss/openai.go:317-332 | the same choice and errors, by the same fields, among the trusted workers only |
| Text.EqualFoldIff | agentfm-go/internal/boss/openai.go:279-283 | names agree exactly if each letter is the same or its other case |
| Dispatch.BrandedIsExcludedForever | agentfm-go/internal/boss/trust_gate.go:30-47 | once a peer is marked, after any further run of the ledger every recomputation gives it -1, the gate refuses it, and among no workers whatever can it be the pick |
| Wire.DecodeExact | agentfm-go/internal/ledger/fetch.go:185-217 | the client reads a list of entries from a stream if and only if it is within the caps and the stream starts with its encoding |
| Wire.RoundTripIff | agentfm-go/internal/ledger/fetch.go:121-142 | a page a server writes comes back whole if and only if it is within the count, entry and aggregate caps |
| WireLayout.PageLayout | agentfm-go/internal/ledger/fetch.go:121-142 | the place and value of every byte: an 8-byte count, then for each entry 8 bytes of id, 4 of length and the payload, numbers most significant byte first |
| WireLayout.CapsAre | agentfm-go/internal/ledger/fetch.go:185-212 | a thousand entries, 1 MiB each, 32 MiB together |
| WireLayout.DecodeErrorIs | agentfm-go/internal/ledger/fetch.go:185-217 | what is no page is refused for its count, or at its first entry that is cut short, too long, or too much with those before it |
| Wire.CutStreamIsRefused | agentfm-go/internal/ledger/fetch.go:185-217 | every strict prefix of a page is an error, never a shorter page |
| Wire.FetchClient | agentfm-go/internal/ledger/fetch.go:157-218 | the reading loop returns what DecodePage says of the bytes sent |
| Wire.CollectPage | agentfm-go/internal/ledger/fetch.go:91-97 | the iteration callback collects the first rows from an id on, up to the limit |
| Wire.WritePage | agentfm-go/internal/ledger/fetch.go:106-142 | writes the whole encoding, or on an oversized entry a prefix of it that no client accepts |
| Wire.HandleFetch | agentfm-go/internal/ledger/fetch.go:56-119 | what is sent for every request, and when the stream is reset |
| Wire.HandleInboxFetch | agentfm-go/internal/ledger/inbox_fetch.go:47-134 | the same for the inbox, whose cursor is the last rowid seen |
| WireLayout.EmptyAnswerIs | agentfm-go/internal/ledger/fetch.go:76-104 | a request for nothing, or one the store cannot serve, gets eight zero bytes and a clean end |
| WireLayout.FullAnswerIs | agentfm-go/internal/ledger/fetch.go:81-117 | any other gets the first rows from the id on, a thousand at most, cleanly exactly if none exceeds 1 MiB |
| WireLayout.PageIsRun | agentfm-go/internal/ledger/fetch.go:91-97 | those rows start with the first of at least the id asked for and leave none out |
| CatchUp.LogWalkIsBounded | agentfm-go/internal/ledger/catchup.go:218-261 | against any remote whatever: at most as many page fetches as the signed size, and nothing offered beyond it |
| CatchUp.HonestLogWalk | agentfm-go/internal/ledger/catchup.go:218-261 | against a source serving its own growing log, what is offered is the log from entry 1 without gaps or repeats, the walk is never called stalled, and a normal end means everything up to the signed size was offered if and only if the last page did not collapse |
| CatchUp.HonestLogWalkIsComplete | agentfm-go/internal/ledger/catchup.go:196-262 | without read failures at the source, a walk that ends normally, even by the past-head error, offered entries 1 to the signed size, once each and in order |
| CatchUp.CollapseLooksComplete | agentfm-go/internal/ledger/fetch.go:99-104 | a first page that collapses to a zero count ends the walk as a success with nothing offered |
| CatchUp.EndsNormallyIff | agentfm-go/internal/ledger/catchup.go:218-261 | without transport faults and cancellation, a walk over an honest log ends normally if and only if every page it asks for is within the count, entry and aggregate caps of the client |
| CatchUp.CappedPageIsReceived | agentfm-go/internal/ledger/fetch.go:88-217 | what the client makes of the bytes the server answers: the page if it is within the caps, an error otherwise |
| CatchUp.HonestPage | agentfm-go/internal/ledger/fetch.go:91-97 | the page the server collects is the one assumed of an honest source |
| CatchUp.CatchUpLog | agentfm-go/internal/ledger/catchup.go:196-262 | outcome and entries offered, for every head reply and every remote, are those of LogWalk |
| WalkOutcomes.LogWalkEnds | agentfm-go/internal/ledger/catchup.go:218-261 | told by the pages fetched: each asks behind the last id before; past the head if and only if the last page has an entry beyond the signed size, stalled if and only if it is within the head and does not move the cursor, and so on; offered is what precedes the first entry beyond |
| CatchUp.InboxWalkIsBounded | agentfm-go/internal/ledger/catchup.go:279-311 | against any remote the inbox walk ends: each full page moves the cursor up |
| CatchUp.HonestInboxWalk | agentfm-go/internal/ledger/catchup.go:279-311 | a normal end means every row of the table, among them all present at the start, was offered once in rowid order, unless the last page collapsed, and then exactly the full pages before it |
| CatchUp.HonestInboxPage | agentfm-go/internal/ledger/inbox_fetch.go:86-90 | the page the server collects is the one assumed of an honest source |
| CatchUp.CatchUpInbox | agentfm-go/internal/ledger/catchup.go:279-311 | outcome and rows offered are those of InboxWalk, for every remote |
| WalkOutcomes.InboxWalkEnds | agentfm-go/internal/ledger/catchup.go:279-311 | told by the pages fetched: the cursor is the largest rowid of the page before, a page of fewer than a thousand rows ends the walk, a full one that does not pass the cursor stalls it, and all rows are offered |
| Inbox.Store.InsertInboxEntry | agentfm-go/internal/ledger/store/inbox.go:85-156 | compare-and-extend in one step: taken, already there, or refused as a fork, with both tables as they become |
| Inbox.Store.Promote | agentfm-go/internal/ledger/inbox/inbox.go:224-272 | the breadth-first loop over waiting entries computes Walk |
| Inbox.Store.Accept | agentfm-go/internal/ledger/inbox/inbox.go:119-214 | answer and new tables are those of AcceptOrQueue; each answer, exactly, in the fields of the entry: the bounds on its payload, its signature, and no room exactly if the entry would have to wait and its own rater has its cap waiting or the queue is full |
| InboxAnswers.OthersDoNotDecide | agentfm-go/internal/ledger/inbox/inbox.go:276-302 | below the global cap, what other raters have waiting never decides whether an entry is taken |
| InboxAnswers.DefaultInboxHasRoom | agentfm-go/internal/ledger/inbox/inbox.go:276-302 | in the default inbox an entry that has to wait is refused if and only if 1000 of its own rater's or 10000 of all wait |
| InboxAnswers.CapsOfConfig | agentfm-go/internal/ledger/inbox/inbox.go:101-117 | what a rater may have waiting is 1000, or the whole of a smaller queue |
| InboxAnswers.WaitingGoesLast | agentfm-go/internal/ledger/inbox/inbox.go:161-302 | a refused or known entry changes nothing, one that has to wait goes last in the queue |
| InboxAnswers.ExtensionIsAccepted | agentfm-go/internal/ledger/inbox/inbox.go:178-191 | one that names its rater's head is accepted next |
| InboxAnswers.EarliestIsTaken | agentfm-go/internal/ledger/inbox/inbox.go:224-272 | and of those that waited for it the earliest to arrive is accepted with it |
| InboxTheorems.RunKeepsInv | agentfm-go/internal/ledger/inbox/inbox.go:119-302 | after any deliveries every rater's accepted entries are one chain from the zero hash, no waiting entry could be accepted, and both caps hold |
| InboxTheorems.NoForkIsAbsorbed | agentfm-go/internal/ledger/store/inbox.go:118-130 | no rater ever has two accepted entries at one position |
| InboxTheorems.WalkKeeps | agentfm-go/internal/ledger/inbox/inbox.go:224-272 | promotion ends with nothing left that extends a head, and changes nothing of other raters |
| InboxTheorems.HoldsWhatWasDelivered | agentfm-go/internal/ledger/inbox/inbox.go:119-302 | for a rater who never forks and with room to wait in, an entry is in the inbox if and only if it was delivered |
| InboxTheorems.AcceptedIsLongestPrefix | agentfm-go/internal/ledger/inbox/inbox.go:119-214 | the accepted entries are the longest beginning of the rater's chain of which every entry was delivered |
| InboxTheorems.OrderDoesNotMatter | agentfm-go/internal/ledger/inbox/inbox.go:119-214 | two inboxes to which the same entries came, in whatever orders, repeats and mixtures, accept the same |
| InboxForks.WaitsForEverIff | agentfm-go/internal/ledger/inbox/inbox.go:178-272 | a waiting entry stays in the queue through every later run if and only if, back from its predecessor along the hashes, the rater's head is not met through admissible entries that are each first in line |
| InboxForks.DeliveredWaitsForEverIff | agentfm-go/internal/ledger/inbox/inbox.go:178-302 | the same condition, read off the tables before an entry is delivered, decides whether it will wait for ever |
| InboxForks.CanBeAcceptedIff | agentfm-go/internal/ledger/inbox/inbox.go:119-272 | an admissible entry is accepted in some later run if and only if it is accepted already or that way to it is open |
| InboxForks.ForkWaitsIff | agentfm-go/internal/ledger/inbox/inbox.go:209-302 | of two forks of which one is accepted, the other is never accepted, and waits, then for ever, if and only if it was delivered and not refused after the first was accepted |
| InboxForks.SecondFirstEntryWaitsForEver | agentfm-go/internal/ledger/inbox/inbox.go:161-214 | two first entries of one rater, delivered to an empty inbox one after the other, leave the second waiting for ever |
| InboxForks.LateForkWaitsForEver | agentfm-go/internal/ledger/inbox/inbox.go:209-214 | an entry that waits for a place already taken waits through every later run |
| InboxTheorems.FewAreNotRefused | agentfm-go/internal/ledger/inbox/inbox.go:276-302 | with whatever cap the inbox was opened, the waiting queue refuses nothing while no more deliveries were made than one rater may have waiting |
| InboxTheorems.NextIsAccepted | agentfm-go/internal/ledger/inbox/inbox.go:178-191 | an entry that comes right after its predecessors is accepted even when the queue is full |
| EndToEnd.LogIsChain | agentfm-go/internal/ledger/impl.go:279-317 | an honest log is, up to its first entry that a receiver refuses, a chain that the inbox can accept |
| EndToEnd.CatchUpAcceptsIff | agentfm-go/internal/ledger/catchup.go:185-262 | whatever the inbox held, a catch-up that ends normally against an honest log leaves an entry of it accepted if and only if the way to it was open before, which it is not behind an entry the inbox refuses |
| EndToEnd.CatchUpFillsInbox | agentfm-go/internal/ledger/catchup.go:185-262 | if the inbox held nothing of the owner off its log, it leaves accepted, in order, exactly the longest beginning up to the signed size that contains no entry the inbox refuses |
| OffLog.AnythingCanBeServed | agentfm-go/internal/ledger/catchup.go:196-262 | whatever log its head commits to, a source can have any entries it knows offered to the inbox, in any order, up to the size of the head |
| OffLog.OffLogIff | agentfm-go/internal/ledger/catchup.go:196-262 | to an inbox that holds of an owner only entries of its log, a source that knows that log can get something else accepted at one of its places if and only if it knows another entry the owner signed for a place that the inbox has not accepted, whose own entry is not waiting, and before which it refuses none |
| OffLog.OnlyLogIsAccepted | agentfm-go/internal/ledger/catchup.go:196-262 | if the owner signed nothing that is not in its log, no source can |
| Ratings.ScoreIsCappedNet | agentfm-go/internal/boss/completion_rating.go:155-174 | a tenth per net outcome up to the cap, 0 if and only if the net is 0: the tolerance never swallows an outcome |
| Ratings.SnapshotOf | agentfm-go/internal/boss/completion_rating.go:105-136 | the snapshot holds one rating for each due peer with a net outcome, and no others |
| Ratings.RunKeeps | agentfm-go/internal/boss/completion_rating.go:73-152 | however outcomes and ticks interleave, counts are never negative, every queued rating is covered by the counts, and ratings about a peer stay a window apart |
| Ratings.NetIsConserved | agentfm-go/internal/boss/completion_rating.go:73-152 | net outcomes recorded equal net outcomes in successful ratings plus those pending, at every step, including while the lock is released |
| Ratings.ScoreInSpanIsCapped | agentfm-go/internal/boss/completion_rating.go:94-152 | the score given to a peer in successful ratings within any span T is at most 0.5 * (T / window + 1) |
| Ratings.HalfWrittenRepeats | agentfm-go/internal/boss/completion_rating.go:138-150 | where an append stores its entry and then fails, a tick at any later time, or the same, rates the same outcomes again: the ledger holds both, counts their net twice, and nothing is left pending |
| Ratings.OncePerWindowIff | agentfm-go/internal/boss/completion_rating.go:94-152 | over every run, all ratings about a peer in the ledger, acknowledged or not, are pairwise a window apart if and only if no half-written one is followed by another in a tick less than a window later |
| Ratings.LedgerScoreIsCapped | agentfm-go/internal/boss/completion_rating.go:94-174 | then the score the ledger gives a peer within any span T is at most 0.5 * (T / window + 1) |
| Ratings.SafeTicksSpace | agentfm-go/internal/boss/completion_rating.go:94-152 | it is so if each tick that starts finds no half-written rating of the peer less than a window old |
| Ratings.TicksAWindowApartSpace | agentfm-go/internal/boss/completion_rating.go:179-190 | and so always if the times that ticks read are at least a window apart |
| Ratings.LedgerCountsOnceIff | agentfm-go/internal/boss/completion_rating.go:94-152 | net outcomes in the ledger plus those pending exceed those recorded by exactly the net of the half-written ratings |
| Ratings.HalfWrittenIff | agentfm-go/internal/ledger/impl.go:313-335 | short of a crash, an append is half written if and only if its entry is stored and no head over it is |
| Ratings.TickDrainsDuePeers | agentfm-go/internal/boss/completion_rating.go:94-152 | an undisturbed tick empties the counts of exactly the due peers and restarts the window of those it rated |
| Ratings.DrainLogs | agentfm-go/internal/boss/completion_rating.go:138-150 | undisturbed appends empty the queue, and the ledger gains exactly the queued ratings, acknowledged and in order |
| Ratings.CompletionRatingWriter.RecordOutcome | agentfm-go/internal/boss/completion_rating.go:73-88 | the new state is one step of the machine |
| RatingWindows.WindowsStart | agentfm-go/internal/boss/completion_rating.go:73-152 | over every run a peer's window starts with its last settled rating, or with its first outcome |
| RatingWindows.TickRatesIff | agentfm-go/internal/boss/completion_rating.go:105-136 | a tick rates exactly the peers whose window started an hour ago or longer and whose successes and failures differ, by all of these |
| RatingWindows.FirstWindowIsWaited | agentfm-go/internal/boss/completion_rating.go:73-136 | every rating of a peer comes an hour or more after its first recorded outcome |
| RatingWindows.TooSoonIsSkipped | agentfm-go/internal/boss/completion_rating.go:105-136 | a tick that comes sooner queues nothing about it |
| RatingWindows.RatingSays | agentfm-go/internal/boss/completion_rating.go:94-174 | every rating in the ledger says a tenth for each net outcome it stands for, at most a half either way |
| RatingWindows.FailedAppendEndsTick | agentfm-go/internal/boss/completion_rating.go:138-150 | over every run, no append follows a failed one before the next tick has started |
| Ratings.CompletionRatingWriter.VisitBuckets | agentfm-go/internal/boss/completion_rating.go:105-136 | the locked loop clears the net-zero buckets and snapshots the rest, for every order the map is walked in |
| Ratings.CompletionRatingWriter.Tick | agentfm-go/internal/boss/completion_rating.go:94-152 | one tick, with reports arriving whenever the lock is free, is a legal run of the machine, and fails exactly when one of its appends does |
| Limiter.RunIsBounded | agentfm-go/internal/boss/auth.go:218-288 | in whatever order the times come, every run keeps at most 4096 buckets, none overfull |
| Limiter.RunKeeps | agentfm-go/internal/boss/auth.go:218-288 | with times at most a skew behind the latest, no bucket is ever overdrawn by more than what the skew restores |
| Limiter.JanitorIsInvisibleIff | agentfm-go/internal/boss/auth.go:218-288 | over runs with at most 4096 addresses, every request is answered as if the janitor never ran, for all runs whose times go back by at most a skew, if and only if the skew is at most 270 seconds |
| Limiter.BudgetHolds | agentfm-go/internal/boss/auth.go:218-241 | in any stretch of any run with times at most such a skew behind, an address gets at most one burst, plus what time restores, plus one burst and what the skew restores for each eviction of its own bucket |
| Limiter.BudgetInOrder | agentfm-go/internal/boss/auth.go:218-241 | with times in order: at most one burst, plus what time restores, plus one burst for each eviction |
| Limiter.EvictionResets | agentfm-go/internal/boss/auth.go:246-258 | an evicted address is back to a full burst |
| Limiter.BadAttemptLimiter.Allow | agentfm-go/internal/boss/auth.go:218-241 | answer and new map are one step of the machine, with the evicted bucket an oldest one |
| LimiterService.RequestCosts | agentfm-go/internal/boss/auth.go:218-258 | granted if the address holds a token, which it then costs; every other bucket stays, unless a new address finds 4096, when one goes that was seen no later than any other |
| LimiterService.RefusalCostsNothing | agentfm-go/internal/boss/auth.go:218-241 | a refused request changes what no address holds at any later time |
| LimiterService.PatientIsGranted | agentfm-go/internal/boss/auth.go:218-241 | with times in order, a request two seconds or more after the address's last one is granted |
| LimiterService.FirstThirtyAreGranted | agentfm-go/internal/boss/auth.go:218-241 | and so is each of its first thirty |
| LimiterService.TokensAreAccounted | agentfm-go/internal/boss/auth.go:218-241 | what an address holds is exactly thirty, plus half a token a second, less its permits, since some time it was full |
| LimiterService.RefusedHadItsDue | agentfm-go/internal/boss/auth.go:218-241 | since some time, a refused address was granted more than 29 requests and one for every two seconds |
| LimiterService.SweepDrops | agentfm-go/internal/boss/auth.go:280-288 | the janitor drops exactly what was not seen for more than ten minutes |
| Limiter.BadAttemptLimiter.EvictOldest | agentfm-go/internal/boss/auth.go:246-258 | removes one bucket that no other is older than, for every order the map is walked in |
| Limiter.BadAttemptLimiter.Gc | agentfm-go/internal/boss/auth.go:280-288 | removes exactly the buckets unseen for longer than the TTL |
| Sentinel.ReadAll | agentfm-go/internal/boss/openai.go:361-403 | for every input and all positive buffer sizes, what a caller receives is the joined non-sentinel lines, followed by the right end |
| Sentinel.SentinelFilter.Read | agentfm-go/internal/boss/openai.go:373-399 | each call delivers the next bytes of what remains, fills no byte it does not report, never delivers bytes and an end together, and always makes progress |
| Sentinel.SentinelFilter.Refill | agentfm-go/internal/boss/openai.go:374-391 | scans past sentinel lines to the next line or to the end, losing nothing |
| Sentinel.NoSentinelGetsThrough | agentfm-go/internal/boss/openai.go:401-403 | read back line by line, the output is the kept lines and contains no sentinel line |
| Sentinel.UntouchedIff | agentfm-go/internal/boss/openai.go:373-403 | the filter leaves a stream unchanged if and only if it consists of complete short lines without trailing carriage returns and sentinels |
| Sentinel.SentinelIff | agentfm-go/internal/boss/openai.go:401-403 | a control line has "[AGENTFM:" behind nothing but spaces and tabs |
| Sentinel.EndIs | agentfm-go/internal/boss/openai.go:361-391 | the stream ends with an error exactly if 8 MiB follow the start of a line without a newline, or the source failed |
| Metrics.RingBuffer.Push | agentfm-desktop/src/types/metrics.ts:31-36 | the buffer shows the samples pushed, the new one last |
| Metrics.RingBuffer.LatestValue | agentfm-desktop/src/types/metrics.ts:38-42 | the newest value, or nothing before the first push |
| Metrics.RingBuffer.ToArrays | agentfm-desktop/src/types/metrics.ts:44-54 | the last min(n, 150) samples pushed, oldest first |
| Scrapes.HistoryOf | agentfm-desktop/src/lib/metricsStore.ts:42-61 | under any run of scrapes with distinct keys, a series has one sample per scrape since its first, with that scrape's time and the value last reported |
| Scrapes.AlignedIff | agentfm-desktop/src/lib/metricsStore.ts:42-61 | two series show the same times if and only if they show equally many samples |
| Scrapes.FirstSeriesStayAligned | agentfm-desktop/src/lib/metricsStore.ts:42-61 | series of the first scrape show the same times for ever |
| Scrapes.LateStatusIsMissed | agentfm-desktop/src/lib/metricsDerive.ts:62-87 | a status first seen after "ok" counts as 0 in the newest point while it is shown shorter |
| Pairing.RatesAreOfOneTick | agentfm-desktop/src/lib/metricsDerive.ts:62-87 | when every status is shown as long as "ok" or was never seen, each point of the chart is the success rate of the counters as of one scrape |
| Pairing.RatesAreRightIff | agentfm-desktop/src/lib/metricsDerive.ts:62-87 | for a given pattern of reported keys, every point of the chart is right whatever the values if and only if "ok" was never seen or every other status was never seen, is shown as long as "ok", or is shown longer and not reported again after the first scrape it shows |
| Pairing.PairedRatesIff | agentfm-desktop/src/lib/metricsDerive.ts:62-87 | when what was reported once is in every later scrape and "ok" was seen, every point is right whatever the values if and only if every other status was never seen or is shown as long as "ok" |
| Pairing.RegisteredIsRight | agentfm-go/internal/metrics/metrics.go:178-184 | if all statuses are in the first scrape, as the exporter of this repository has it, every point is right |
| Pairing.ChartIs | agentfm-desktop/src/lib/metricsDerive.ts:62-87 | then the chart has a point for each of the last 150 scrapes, ok / (ok + error + rejected + timeout + oom_killed) of the counters reported by then, or 1 where that sum is 0 |
| MetricsStore.Store.PushBoss | agentfm-desktop/src/lib/metricsStore.ts:42-61 | the two in-place loops over separate buffers yield the histories of Scraped |
| MetricsStore.ComputeSuccessRateSeries | agentfm-desktop/src/lib/metricsDerive.ts:62-87 | the nested loops compute SuccessRates, 1 where nothing was counted |
| Sizes.RoundTripIff | agentfm-go/internal/worker/limits.go:135-197 | for every 64-bit b, parsing what was printed gives b back if and only if b is not negative and at most 2^62 or no multiple of 1024 |
| Sizes.SizeIsBounded | agentfm-go/internal/worker/limits.go:175-181 | a parsed size is never negative, fits 64 bits, and exceeds 2^62 only if written without a unit |
| Sizes.CaseDoesNotMatter | agentfm-go/internal/worker/limits.go:135-182 | texts that differ only in case parse alike |
| Sizes.BinarySpellingAgrees | agentfm-go/internal/worker/limits.go:149-156 | an "ib" in any case, written directly behind a text that does not end in "b", makes no difference |
| Sizes.ByteSpellingAgrees | agentfm-go/internal/worker/limits.go:149-156 | nor does a "b" in any case, unless it completes an "ib" |
| Sizes.SuffixAgreesIff | agentfm-go/internal/worker/limits.go:135-182 | behind any text that is a size, an "ib" or "b" in any case makes no difference if and only if the text is not blank and ends in no "b" or, when it ends in a space, its last character that is no space is a digit |
| Sizes.OnlyOneSuffix | agentfm-go/internal/worker/limits.go:149-156 | one such suffix may follow a size directly, and a second one changes the result |
| Sizes.SpaceBeforeSuffixMatters | agentfm-go/internal/worker/limits.go:149-182 | none may follow a unit behind a space: "1m " is a size and "1m ib" is not |
| Sizes.PaddingDoesNotMatter | agentfm-go/internal/worker/limits.go:135-141 | spaces around a text make no difference |
| Sizes.ParseSize | agentfm-go/internal/worker/limits.go:135-182 | the step-by-step parser computes Size, error for error |
| SizeGrammar.SizeIs | agentfm-go/internal/worker/limits.go:135-182 | every text: blank is 0, a suffix alone is an error, a sign, digits, unit and suffix with spaces only between number and unit and around it are judged by value and unit, and nothing else is a size |
| SizeGrammar.ValueIsPositional | agentfm-go/internal/worker/limits.go:168-171 | a digit counts as many times as the power of ten of what follows it, leading zeros included |
| SizeGrammar.FormatIs | agentfm-go/internal/worker/limits.go:186-197 | a size is printed in the largest unit that is in it a whole number of times, with no digit too many |

## Left out

- libp2p streams, deadlines, GossipSub and discovery: a remote is an arbitrary source of replies.
- Witness co-signing, Rekor anchoring and comment storage: `WitnessSigs` and `RekorAnchor` are fields that no signature covers.
- SQL and protobuf encodings; the `kind`, `sig`, `inserted_at` and `received_at` columns; the two accumulator maps `sumWeight` and `sumValue` are one map of pairs.
- Floating-point rounding, and `exp` underflowing to 0 for very old edges.
- uint64 wrap-around of log sizes and ids other than in the split loop; ids on the wire are bounded by 2^64, and the ledger theorems speak of logs that fit the memory of a process.
- Gossip publication after an append, HTTP handlers, webhooks, CLI flags, podman and telemetry: plumbing.
- `Ledger.Ledger.Append`: does not model that the store's own lock is separate from the ledger's, because every caller holds the latter.
- `Merkle.LargestPowerOfTwoLessThan`: asks for n between 2 and 2^63, because below 2 the source panics and above 2^63 its loop does not end (`Merkle.SplitLoopIsStuckAbove`).
- Store read errors other than those named in the contracts of `Open`, `Recompute`, `HandleFetch` and `HandleInboxFetch`.
- `Inbox.Store.Promote`: does not model failing reads and writes during promotion, after which the code logs and goes on, leaving an entry to wait for a restart of promotion.
- `Inbox.Store.Accept`: does not model two concurrent accepts of one rater, of which the code queues the loser; deliveries are taken one at a time.
- `InboxTheorems.OrderDoesNotMatter`: says nothing when a full waiting queue refused a delivery, because then the outcome does depend on the order.
- `Limiter.JanitorIsInvisibleIff`: does not cover runs with more addresses than buckets, because an eviction resets a bucket by design; `Limiter.BudgetHolds` covers them.
- `Limiter.BudgetHolds`: asks that times go back by at most 270 seconds, because beyond that the janitor gives bursts away too (`Limiter.JanitorIsNoticed`).
- `CatchUp.EndsNormallyIff`: takes transport faults and cancellation away, because either ends any walk.
- `Sentinel.ReadAll`: does not model a source that returns its last bytes together with its end when the last line exactly fills the scanner's buffer.
- `Scrapes.HistoryOf`: takes series keys as given; two label sets whose rendered keys coincide would be pushed twice in one scrape, which its precondition excludes.
- `computeP95FromBuckets`, `computeRate` and `pushPeer` of the desktop: easy members beside those modelled; also the store's `lastBossTick` field.
- `Text.EqualFold` and `Text.TrimSpace` are those of ASCII text; Unicode folding and spaces are not modelled.
- React components, Electron windows, the marketing site and example agents: user interface.
