# D-HotStuff: a Dafny model

A model of the D-HotStuff engine (chained HotStuff whose committee changes as it runs) and proofs about it:
the consensus step machine of one replica, agreement inside one configuration, the delivery of committed blocks
into the append-only log of configurations, quorum certificates, reputation-based leader selection, the state
transfer tallies, the byte encodings and the simulated network. `dafny verify dfyconfig.toml` checks all of it.

## How to read it

One module per component. Where the Go code changes things step by step, a class or a method with loops performs
the same steps and its contract ties the new state to a specification function of the old one; the theorems are
lemmas about those functions and about whole runs of them.

| module | what it holds |
|---|---|
| `Types`, `Encoding` | wire records, 8-byte integers, preimages, block hash, R-S signatures |
| `Committee`, `Quorum` | configurations, `Apply`, certificates |
| `Ancestry`, `Safety`, `Pipeline`, `Delivery` | ancestor walks, voting rule, commit window, delivery |
| `Engine`, `Handlers` | one replica's handlers as atomic steps, and what one call does |
| `VoteRuns`, `PendingRuns`, `NewViewRuns`, `LeaderRuns`, `PollRuns` | runs of votes, new views and timeouts: certificates, proposals, views |
| `ProposeRuns`, `GenericRuns` | runs of linked proposals: executor, generic certificate |
| `ViewRounds` | a view across replicas: from the votes or new-view messages sent to the leader's proposal |
| `Agreement`, `CommittedValues` | the agreement theorem, and what it means for values |
| `TotalOrder`, `ArrivalOrder` | the order in which commits are delivered |
| `Forks`, `ViewGaps`, `LyingParent`, `StaleLock`, `BackwardVote`, `RepeatedVote`, `MissingAncestors` | runs that show what agreement needs |
| `Reputation`, `Rotation` | scores and selection; the closed form of who leads |
| `BenchCore`, `BenchCluster`, `RepBench` | the two in-process clusters |
| `StateTransfer`, `NetSim` | history and update tallies; the simulated network |

SHA-256 is a parameter `sha` and never interpreted. Collision-freeness is a named hypothesis about the blocks at
hand (`Encoding.CollisionFree`), used only where a lemma lists it; a digest of fixed length collides somewhere, so
a global hypothesis would be contradictory. Signature verification, key parsing, random draws, clocks, the block
store handed to a handler, the adversary and the arrival order of responses are parameters. Views, heights and
configuration numbers are unbounded naturals except in `Encoding`, where 64 bits matter. Scores are reals with
weights 3/5 and 2/5.

## What agreement rests on

`Agreement.Agreement` holds on every run that satisfies `Agreement.Admissible` and whose commits have consecutive
views. The voting rule, the chain rules and certificate validation are the code's own. Proposals handled without a vote
may come in any view, and a vote may be cast in an earlier view than the justify's. What the code does not enforce, or
what lies outside it, is a named predicate on the run. Assumed of the surroundings:

- `FaultBound`: at most fc members are faulty.
- `IdealDigest` and `NoCycles`: no two headers of the run collide, no digest is empty, and no header is its own
  ancestor. The last follows from views that grow (`Agreement.GrowingViewsHaveNoCycles`) or from heights that grow
  (`CommittedValues.GrowingHeightsHaveNoCycles`).
- `JustifiesAreValid`: every justify passes `ValidateQC`; `HandlePropose` never calls it.
- `Unforgeable`: an honest signer of a certificate did vote for that hash in that view. Only this predicate binds a
  certificate's view to its signers: votes are signed over (block's configuration number, configuration, hash), and
  the verifier inside `ValidateQC` is handed the hash alone. `Engine.SignedIsVerified` says when the signed and the
  verified tuple are the same.
- `StoresAreSound`: stores hold received blocks under their own hashes.

And six hypotheses on what replicas do. Without any one of them, and with all the others met, two branches are committed:

- `ParentsAreJustified`: every received block, a faulty proposer's included, has as parent the block its justify
  certifies. `HandlePropose` never compares the two hashes, and the voting rule accepts a newer justify whatever the
  parent is. One block without it is enough (`LyingParent.LyingParentBreaksAgreement`).
- `LocksAreMonotone`: a lock never moves to an older view; `UpdateOnTwoChain` assigns without comparing.
  `StaleLock.LockFallsBackIff` says exactly when it falls back, `StaleLock.UnvotedStepIsAdmissibleIff` that nothing else
  about a proposal handled without a vote matters, and `StaleLock.StaleLockBreaksAgreement` that one old proposal
  handled a second time is enough.
- `VotesAreOrdered`: honest members vote in growing views. There is no such guard, and views do go back (see below).
  One vote cast after the view has gone back is enough, even if no two are cast in one view
  (`BackwardVote.BackwardVotesBreakAgreement`).
- `VotesAreSingle`: honest members vote for a header once. There is no such guard either, and the block hash does not
  cover the justify, so one header can carry certificates of two views (`RepeatedVote.RepeatedVotesBreakAgreement`).
- `AncestorsStored`: a voter holds the two certified ancestors of the block it votes for; otherwise the two-chain rule is
  skipped. One vote without them is enough (`MissingAncestors.MissingAncestorsBreakAgreement`).
- `ConsecutiveViews`: `CheckThreeChain` does not test views (`ViewGaps.ViewGapsBreakAgreement`).

These runs have one faulty proposer, P4, and no certificate needs its signature. They exist for every scheme that accepts
its own signatures (`LyingExists`, `RepeatedExists`, `BackwardExists`, `TwiceExists`, `BlindExists`, `GapsExist`), and so
show that the remaining hypotheses can be met together; `CommittedValues.TwoBatchesCommitted` has a run that meets them
all.

Agreement is about headers, because the block hash omits the batch. It is about values exactly when no received block
shares a committed header and differs (`CommittedValues.ValuesAgreeIffHeadersFixThem`), and then, with heights that
grow along the chain, about one value per height (`CommittedValues.OneValuePerHeight`).

## Where the code and its documentation differ

- Total order (Theorem 7 in docs/security_proof.md) speaks of the order of delivery at each replica. A replica
  delivers the bottom of a three-chain and not the undelivered blocks below it, so the order in which proposals arrive
  decides: `ArrivalOrder.ArrivalDecides`, and `ArrivalOrder.OppositeOrders` for an input. What a member delivers, over
  both commit routes, follows the branch if and only if the proposals that complete the chains are handled in the order
  of their certificates (`TotalOrder.FollowsBranchIff`), and two members that do so never deliver in opposite orders
  (`TotalOrder.TotalOrderOfDeliveries`).
- Agreement (Theorem 10 in docs/security_proof.md) speaks of the value delivered at a height. Under all the hypotheses
  above two different batches can still be committed at one height: `CommittedValues.BatchIsNotFixed` takes any
  admissible run with a commit to one that commits any other batch as well.
- The comment on `RequestHistory` promises an authentic history. Its header chain is authentic; the batches are those
  of whoever reported the winning hash first, a faulty member included (`StateTransfer.FirstReporterDecides`,
  `StateTransfer.ForgedBatchWins`), and `StateTransfer.BatchesAreFixedIff` has the exact condition.
- The 2fc+1 rule of `RequestHistory` has one winner if and only if 4fc+2 > nc, that is, in every committee of four or
  more except six (`StateTransfer.UniqueWithoutRoom`, `StateTransfer.SixIsTheException`). In six, two histories can
  both reach it and the order of arrival decides (`StateTransfer.SixSplit`).
- Integrity (Theorem 11) holds for delivery (`Delivery.DeliveredOnce`), but regular requests run before the
  membership step and are not undone when it fails, so a retried block runs them twice. The engine retries by itself:
  the window hands the block out again with the next proposal (`ProposeRuns.WindowReruns`).
  `ProposeRuns.WindowExecutesNothingIff` says exactly when that executes nothing, `Delivery.RedeliveryIsHarmless` when
  a second delivery does; `Delivery.ExecutedPerAttempt` and `ProposeRuns.ExecutorLog` say what is executed in any run.
- `ValidateMembershipRequest` lets a request type without a name through as regular; `Apply` rejects it.
  `Committee.ApplyOnValidBatch` has the exact condition.
- genericQC can go back too: `UpdateOnOneChain` assigns without comparing. `Handlers.GenericFallsBackIff` and
  `GenericRuns.GenericDropsIff` say exactly when; the other handlers never lower it (`VoteRuns.GenericNeverDrops`).
- The bench cluster drops the membership changes of a batch with an unnamed type, which the engine applies and takes for
  regular; on named types they agree (`BenchCluster.CommitsLikeTheEngine`).
- Views of one replica can go back: `HandleVote` advances a view that `HandleTimeout` later overwrites.
  `VoteRuns.TimeoutLowersView` says exactly when, `PollRuns.FourMembersGoBack` is such a run.
- The comment on `Send` promises the post-GST bound for honest senders only; the code gives it to every sender.

## Model

| member | source | states |
|---|---|---|
| Encoding.ValueOfBigEndian | internal/consensus/safety.go:54-71 | the n digits of a number below 256^n are n bytes that denote it |
| Encoding.EncodeLoop | internal/benchutil/cluster.go:32-43 | the digit loop writes the big-endian form, for every height |
| Encoding.EncodeUnrolled | internal/statetransfer/history.go:93-110 | the unrolled shifts write the same bytes as the loop |
| Encoding.ShiftsAreDigits | internal/consensus/safety.go:58-66 | each unrolled shift is the digit the loop reaches by repeated division |
| Encoding.BE8Injective | internal/consensus/safety.go:58-66 | different 64-bit numbers have different encodings |
| Encoding.HeaderPreimageInjective | internal/consensus/safety.go:53-71 | parent hash of any length followed by the height determines both |
| Encoding.HeaderLayout | internal/consensus/safety.go:54-71 | the parent hash comes first, then eight bytes that denote the height |
| Encoding.VotePreimageInjective | internal/crypto/signer.go:96-122 | view, configuration and block hash of any length are determined by what is signed |
| Encoding.VoteLayout | internal/crypto/signer.go:96-122 | eight bytes denote the view, the next eight the configuration, then comes the block hash |
| Encoding.HashTuple | internal/crypto/signer.go:96-122 | the two unrolled integers and the hash are digested in that order |
| Encoding.HashBlockUnrolled | internal/consensus/safety.go:54-71 | the unrolled block hash equals the common one |
| Encoding.HashBlockLoop | internal/repbench/cluster.go:24-35 | the looped block hash equals the common one |
| Encoding.EqualHashesEqualHeaders | internal/consensus/safety.go:53-71 | without collisions equal block hashes fix parent hash and height, nothing else |
| Encoding.MinimalBytesLength | internal/crypto/signer.go:125-132 | exactly the numbers below 256^n fit into n bytes |
| Encoding.EncodeRS | internal/crypto/signer.go:125-132 | 64 bytes from which `decodeRS` reads back r and s, for all below 2^256 (section 3.4 of RFC 7518) |
| Committee.QuorumArithmetic | internal/membership/committee.go:61-96 | q >= Qc if and only if 2q >= nc + fc + 1; 3fc+1 <= nc <= 3fc+3, and honest members alone make a quorum of two fc+1 or more |
| Committee.QuorumIsLeast | internal/membership/committee.go:79-96 | any two sets of q members share fc+1 of them if and only if q >= Qc |
| Committee.Find | internal/membership/committee.go:107-114 | found exactly when the id is a member's, and then that member |
| Committee.FindIsFirst | internal/membership/committee.go:107-114 | and where ids repeat it is the first one |
| Committee.PartsPartition | internal/membership/request.go:72-82 | the two parts hold every request of the batch once, membership ones apart |
| Committee.RegularInOrder | internal/membership/request.go:72-82 | the regular part keeps the order of the batch: the request at a position stands behind as many as there are regular ones before it |
| Committee.ClassifyBatch | internal/membership/request.go:72-82 | the loop computes the two parts in order |
| Committee.FilterInPlace | internal/membership/committee.go:169-184 | the slice reuse writes the survivors in order over the array it reads |
| Committee.AppendTo | internal/membership/committee.go:162-165 | append writes in place while the slice has spare capacity, else into a new array |
| Committee.ApplyToSlice | internal/membership/committee.go:126-203 | on shared arrays with spare capacity the loop computes the fold over requests, first error included; the original array never changes and the result never aliases it |
| Committee.Apply | internal/membership/committee.go:147-203 | the next committee's number, members and FaultCap, or the first error in batch order |
| Committee.FirstFailureDecides | internal/membership/committee.go:152-193 | in any batch and committee, repeated ids included: the first malformed payload, stranger or unnamed type decides the error, and a request that does not fail adds one member at the end, removes all of an id in order, or changes nothing |
| Committee.SurvivorsInOrder | internal/membership/committee.go:169-184 | everyone not removed stays, in the old order |
| Committee.ApplyOnValidBatch | internal/membership/request.go:105-136 | a validated batch with at most one change per id, whatever its regular requests, applies if and only if its types are named; then survivors in order, newcomers appended, ids distinct, size old + adds - removes, FaultCap in range |
| Committee.NextCommitteeIsValid | internal/membership/committee.go:209-217 | the next committee passes `Validate` exactly when four or more members are left |
| Committee.ApplyIgnoresRegular | internal/membership/committee.go:152-193 | applying a batch of named types is applying its membership part; an unnamed type fails the batch |
| Committee.UnknownKindFails | internal/membership/committee.go:190-192 | any unnamed type makes Apply fail |
| Committee.ValidIffApplies | internal/membership/request.go:105-136 | a request of a named type is valid if and only if applying it alone succeeds and leaves the ids distinct |
| Quorum.ValidateQC | internal/membership/quorum.go:69-107 | accepts exactly the valid certificates and reports the first error in order |
| Quorum.FirstErrorIs | internal/membership/quorum.go:84-107 | after good entries, a repeated signer is reported as such, then a stranger, then a bad signature |
| Quorum.QuorumsIntersect | internal/membership/committee.go:79-96 | two valid certificates of one committee share fc+1 signers, duplicate ids included |
| Quorum.HonestSigner | internal/membership/quorum.go:69-107 | with at most fc faulty, an honest member signed both |
| Quorum.ValidMeansSigned | internal/membership/quorum.go:69-107 | where only a key owner's signatures verify, a valid certificate's hash was signed by Qc different members, fc+1 honest ones among them |
| Quorum.FirstVotesFacts | internal/crypto/ecdsa_qc.go:17-57 | the reference keeps each signer once, loses none, and starts with the first vote |
| Quorum.HasQuorum | internal/crypto/ecdsa_qc.go:71-80 | true exactly when the distinct signers reach Qc |
| Quorum.QuorumOf | internal/membership/quorum.go:120-138 | the flag means Qc distinct signers; the votes are their first votes in order |
| Quorum.CreateQC | internal/crypto/ecdsa_qc.go:17-57 | succeeds on the same condition with the same signers, and takes view and hash from the first vote |
| Quorum.AggregateVotes | internal/crypto/ecdsa_qc.go:60-68 | appends unless the signer is there |
| Quorum.AggregatingKeepsFirstVotes | internal/crypto/ecdsa_qc.go:60-68 | folding a list through the aggregator leaves each signer's first vote |
| Quorum.AggregationIsTransparent | internal/crypto/ecdsa_qc.go:17-80 | the list folded through the aggregator yields the same certificate or none alike |
| Quorum.CertificateNeedsSigners | internal/crypto/ecdsa_qc.go:17-57 | a certificate is made exactly when Qc different signers voted |
| Quorum.CertificateContents | internal/crypto/ecdsa_qc.go:17-57 | the k-th signer and signature are those of the first vote with k different signers before it and not among them; view, configuration and hash are the first vote's |
| Quorum.CreatedCertificateIsValid | internal/crypto/ecdsa_qc.go:17-57 | from members' verifying votes for one hash, the certificate passes `ValidateQC` |
| Ancestry.ExtendsPlain | internal/repbench/cluster.go:60-79 | true exactly when the ancestor is at most 1023 parent hops away |
| Ancestry.ExtendsVisited | internal/benchutil/cluster.go:58-82 | the walk with a visited set gives the same answer on every store, cyclic ones included |
| Ancestry.ChainIsFoundIff | internal/benchutil/cluster.go:58-82 | on a chain of any length exactly the block and the 1023 below it are found |
| Ancestry.RevisitClosesTheWalk | internal/benchutil/cluster.go:58-82 | after a revisit every later hop repeats an earlier one |
| Safety.SafetyState.CheckSafeNode | internal/consensus/safety.go:26-34 | the vote is safe exactly by the liveness or the safety clause |
| Safety.SafetyState.UpdateOnOneChain | internal/consensus/safety.go:37-41 | genericQC becomes the justify exactly on a parent link, unconditionally newer or older |
| Safety.SafetyState.UpdateOnTwoChain | internal/consensus/safety.go:44-51 | lockedQC becomes the parent's justify exactly on two parent links |
| Agreement.CertsMatch | internal/membership/quorum.go:69-107 | two certificates are of one view if and only if they certify one header |
| Agreement.SameHeaderSameParent | internal/consensus/safety.go:53-71 | blocks of one hash carry certificates of the same hash and view |
| Agreement.LockIsCert | internal/consensus/safety.go:44-51 | an honest lock is a certificate of the run |
| Agreement.VoteLocks | internal/consensus/dhotstuff.go:164-169 | whoever voted for the top of a two-chain is locked on its bottom |
| Agreement.VoteRests | internal/consensus/safety.go:26-34 | a vote under a lock is for a descendant of a block with a certificate not older than the lock |
| Agreement.LaterCertsDescend | internal/consensus/safety.go:26-51 | every certificate at least as recent as a committed block's certifies a descendant of it |
| Agreement.Agreement | internal/consensus/deliver.go:88-92 | any two blocks committed in an admissible run lie on one branch of headers |
| Agreement.BranchViewsGrow | internal/consensus/dhotstuff.go:317-332 | where votes are later than justifies, the certificates' views grow strictly along a branch of any length |
| Agreement.GrowingViewsHaveNoCycles | internal/consensus/dhotstuff.go:317-332 | and then no header is its own ancestor |
| Agreement.CommitsFollowViews | internal/consensus/deliver.go:88-92 | of two committed blocks one descends from the other if and only if it was certified no earlier: a total order |
| TotalOrder.TraceMakesCalls | internal/consensus/dhotstuff.go:171-188 | over any trace of proposals and window resets the deliverer gets exactly the calls of the chain rule and of the window, in order |
| TotalOrder.CallsAreChains | internal/consensus/pipeline.go:18-40 | each of these calls, the window's too, is for the bottom of a three-chain of received blocks |
| TotalOrder.BranchIsProposalOrder | internal/consensus/deliver.go:88-92 | of two commits one descends from the other if and only if the proposal that makes it carries no older certificate |
| TotalOrder.FollowsBranchIff | internal/consensus/dhotstuff.go:171-188 | what a member's trace really delivers, duplicates and failures left out, follows the branch if and only if the proposals that complete the chains come in the order of their certificates |
| TotalOrder.TotalOrderOfDeliveries | internal/consensus/dhotstuff.go:171-188 | two members for which that holds never deliver two headers in opposite orders |
| ArrivalOrder.ArrivalDecides | internal/consensus/dhotstuff.go:171-188 | of two linked proposals handled in either order, the first one's block is delivered and executed first, whichever is the ancestor |
| ArrivalOrder.OppositeOrders | internal/consensus/dhotstuff.go:171-188 | five linked blocks, the last two arriving in either order: two replicas in one state execute two requests in opposite orders |
| ViewGaps.ViewGapsBreakAgreement | internal/consensus/deliver.go:88-92 | without consecutive views the rule commits two blocks on different branches, all other hypotheses met, one proposer faulty |
| ViewGaps.GapsExist | internal/consensus/deliver.go:88-92 | such blocks exist for every scheme that accepts its own signatures |
| LyingParent.LyingParentBreaksAgreement | internal/consensus/safety.go:26-34 | one block whose parent is not the block it certifies, and two branches are committed, all other hypotheses and consecutive views met |
| LyingParent.LyingExists | internal/consensus/safety.go:26-34 | such blocks exist for every scheme that accepts its own signatures |
| StaleLock.LockFallsBackIff | internal/consensus/safety.go:44-51 | handling a proposal lowers the lock's view if and only if two certified ancestors are stored, both parent links match, and the certificate assigned is older than the lock |
| StaleLock.UnvotedStepIsAdmissibleIff | internal/consensus/dhotstuff.go:159-169 | handling one more received proposal without a vote, in any view, keeps all hypotheses if and only if the lock does not fall back |
| StaleLock.StaleLockBreaksAgreement | internal/consensus/dhotstuff.go:159-182 | one old proposal handled a second time, and two branches are committed, all other hypotheses, justified parents and consecutive views met |
| StaleLock.RepeatedExists | internal/consensus/dhotstuff.go:159-182 | such blocks exist for every scheme that accepts its own signatures |
| BackwardVote.BackwardVotesBreakAgreement | internal/consensus/dhotstuff.go:141-159 | one vote cast after the view has gone back, and two branches are committed, all other hypotheses, one vote per view and consecutive views met |
| BackwardVote.BackwardExists | internal/consensus/dhotstuff.go:141-159 | such blocks exist for every scheme that accepts its own signatures |
| RepeatedVote.RepeatedVotesBreakAgreement | internal/consensus/dhotstuff.go:141-159 | two headers voted for twice in growing views, and two branches are committed, all other hypotheses and consecutive views met |
| RepeatedVote.TwiceExists | internal/consensus/safety.go:53-71 | such blocks exist for every scheme that accepts its own signatures |
| MissingAncestors.MissingAncestorsBreakAgreement | internal/consensus/dhotstuff.go:159-169 | one vote cast with an empty store, and two branches are committed, all other hypotheses and consecutive views met |
| MissingAncestors.BlindExists | internal/consensus/dhotstuff.go:159-169 | such blocks exist for every scheme that accepts its own signatures |
| Forks.ForkExists | internal/consensus/safety.go:53-71 | for every well-formed table of headers, parents and certificates, and every scheme that accepts its own signatures, there are such blocks and a digest without collisions on them |
| Forks.LockAfterStep | internal/consensus/dhotstuff.go:159-169 | handling a block moves the lock exactly on two parent links, even when parents and certificates disagree |
| CommittedValues.ValuesAgreeIffHeadersFixThem | internal/consensus/safety.go:53-71 | commits of one hash are one block if and only if no received block shares a committed header and differs |
| CommittedValues.BatchIsNotFixed | internal/consensus/safety.go:53-71 | any admissible run with a commit extends to one that commits any other batch under the same header |
| CommittedValues.TwoBatchesCommitted | internal/consensus/deliver.go:88-92 | an admissible run of nine blocks in which that happens |
| CommittedValues.LinesExist | internal/consensus/dhotstuff.go:317-332 | such a line of nine blocks exists for every scheme that accepts its own signatures |
| CommittedValues.GrowingHeightsHaveNoCycles | internal/consensus/dhotstuff.go:317-332 | where heights grow along parent links no header is its own ancestor |
| CommittedValues.OneValuePerHeight | internal/consensus/deliver.go:88-92 | with growing heights and headers that fix blocks, one height has one committed value |
| CommittedValues.LineHasOneValuePerHeight | internal/consensus/dhotstuff.go:317-332 | nine blocks as `propose` chains them meet the premises of that result |
| Pipeline.PipelineState.Advance | internal/consensus/pipeline.go:18-40 | the window is the last four slots fed since the reset; a block comes out exactly when fed four calls earlier and hash-linked through the next three |
| Pipeline.PipelineState.Reset | internal/consensus/pipeline.go:43-53 | the window forgets everything fed |
| Pipeline.GapsHoldBack | internal/consensus/pipeline.go:18-40 | nothing comes out unless each of the last five slots is filled |
| Pipeline.LinkedRunComesOut | internal/consensus/pipeline.go:18-40 | on a linked run of m blocks the outputs are the first m-4 in order, once each |
| Delivery.ConfigStore.Install | internal/membership/config_store.go:79-100 | appends exactly the next number, else refuses and changes nothing |
| Delivery.Deliverer.Deliver | internal/consensus/deliver.go:48-85 | delivered set, configurations and executions change as the specification says, error included |
| Delivery.RequestsRunInOrder | internal/consensus/deliver.go:64-70 | a delivery that finds its configuration logs exactly the requests that are neither ADD nor REMOVE, each at its place in the order of the batch, under the block's configuration number |
| Delivery.DeliverySucceedsIff | internal/consensus/deliver.go:48-85 | it succeeds if and only if its configuration exists and, with membership requests, is the latest and they apply; what it then marks and installs, and which error else |
| Delivery.DeliveredOnce | internal/consensus/deliver.go:48-85 | over every run of calls no hash is delivered twice, and the delivered set is what was delivered |
| Delivery.ConfigLogReplays | internal/membership/config_store.go:79-100 | numbers are positions; the log replays the delivered membership blocks, the k-th of which carried number k, one per configuration |
| Delivery.PrefixRelatedLogs | internal/consensus/deliver.go:48-85 | prefix-related deliveries give prefix-related configuration logs |
| Delivery.ExecutedPerAttempt | internal/consensus/deliver.go:48-85 | over every run, failures included, the executor sees the regular requests of the attempts that pass the configuration lookup, in order, once per attempt |
| Delivery.ExecutedExactly | internal/consensus/deliver.go:61-65 | without failures these are the delivered blocks |
| Delivery.RedeliveryIsHarmless | internal/consensus/deliver.go:61-83 | a second delivery executes nothing if and only if the first was a duplicate, its membership step succeeded, or nothing regular was in it |
| Delivery.RetryExecutesTwice | internal/consensus/deliver.go:61-83 | a block that removes a stranger runs its command again on retry |
| Engine.HighestQCIsHighest | internal/consensus/viewchange.go:98-114 | the certificate chosen is the first of the largest view among the messages |
| Engine.NoHighestQC | internal/consensus/viewchange.go:98-114 | none is chosen exactly when no message carries one |
| Engine.HighestViewQC | internal/consensus/viewchange.go:98-114 | the loop computes that choice |
| Engine.DHotStuff.constructor | internal/consensus/dhotstuff.go:48-87 | a new replica has empty buffers, no lock and nothing delivered |
| Engine.DHotStuff.SubmitRequest | internal/consensus/dhotstuff.go:99-101 | a request joins the queue in order while there is room, else the caller waits |
| Engine.DHotStuff.HandlePropose | internal/consensus/dhotstuff.go:104-189 | the whole new state: vote sent or not, both safety variables, both commit routes, early returns included |
| Engine.DHotStuff.Propose | internal/consensus/dhotstuff.go:298-337 | drains up to 100 requests and broadcasts the block justified by the given certificate |
| Engine.DHotStuff.BufferVote | internal/consensus/dhotstuff.go:220-234 | the vote joins its view's buffer; a completed buffer becomes a certificate and is deleted, and `CreateQC` cannot fail after `HasQuorum` |
| Engine.DHotStuff.CollectVote | internal/consensus/dhotstuff.go:198-234 | the buffer and the certificate after a vote; votes of strangers and bad signatures change nothing |
| Engine.DHotStuff.HandleVote | internal/consensus/dhotstuff.go:192-241 | the whole new state after a vote |
| Engine.DHotStuff.HandleNewView | internal/consensus/dhotstuff.go:244-266 | the whole new state after a new-view message |
| Engine.DHotStuff.HandleTimeout | internal/consensus/dhotstuff.go:269-288 | the whole new state after a timeout, the view-changer's own view written back |
| Engine.SignedIsVerified | internal/consensus/dhotstuff.go:141-153 | the tuple a vote is signed over is the one it is verified over if and only if the block's configuration number is the replica's view |
| Handlers.ProposalIsIgnoredIff | internal/consensus/dhotstuff.go:104-155 | a proposal leaves no trace if and only if it is of a later configuration or safe and cannot be signed; else the window gets it |
| Handlers.VoteIsSentIff | internal/consensus/dhotstuff.go:139-157 | exactly then one vote leaves, for the block's hash in the replica's view and configuration, to member view mod nc |
| Handlers.GenericAfterProposal | internal/consensus/safety.go:37-41 | genericQC becomes the proposal's own justify, which certifies its parent, if that names a stored block whose hash is the parent hash; else it stays |
| Handlers.GenericFallsBackIff | internal/consensus/dhotstuff.go:159-162 | so it moves to an older view if and only if a linked proposal carries an older certificate |
| Handlers.TimeoutSends | internal/consensus/viewchange.go:57-83 | the new-view message carries the view entered and genericQC, and goes to member view mod nc, unless cancelled |
| Handlers.TimeoutForgets | internal/consensus/dhotstuff.go:269-288 | the votes of the view left are forgotten and no others; safety, delivery, queue and new-view messages stay |
| Handlers.WindowRefills | internal/consensus/dhotstuff.go:283-287 | after a timeout nothing comes out of the window before the fifth proposal |
| VoteRuns.OneCertificatePerView | internal/consensus/dhotstuff.go:192-234 | with one valid vote per member and view, any run of votes, new views and timeouts forms at most one certificate per view, and buffers hold distinct signers below the quorum |
| VoteRuns.EveryViewSound | internal/crypto/ecdsa_qc.go:60-80 | the invariant behind it: buffered and certified votes never exceed those cast |
| VoteRuns.GenericNeverDrops | internal/consensus/dhotstuff.go:236-262 | across these steps genericQC never moves to an older view and the lock stays |
| VoteRuns.ViewLaw | internal/consensus/dhotstuff.go:233-286 | the view is the number of timeouts plus the certificates formed since the last one |
| VoteRuns.TimeoutLowersView | internal/consensus/dhotstuff.go:269-288 | a timeout lowers the view if and only if two or more certificates were formed since the last one |
| PendingRuns.CertificateIsFormedIff | internal/consensus/dhotstuff.go:192-241 | over any run a vote forms a certificate if and only if it is valid and with it Qc different members' votes of that view are pending; it is theirs, the view grows by one, the newer certificate is kept |
| PendingRuns.FormedIsBacked | internal/consensus/dhotstuff.go:192-227 | each of the Qc signers of a formed certificate did send a valid vote of that view with that signature |
| NewViewRuns.ProposesIff | internal/consensus/dhotstuff.go:244-266 | over any run a new-view message makes the replica propose if and only if it is the Qc-th of its view since the view's last proposal |
| NewViewRuns.ProposalsPerMessages | internal/consensus/viewchange.go:86-95 | the proposals of a view are its new-view messages divided by Qc |
| NewViewRuns.ProposalIsNewest | internal/consensus/viewchange.go:86-114 | such a proposal is justified by a certificate not older than the replica's and any among those Qc messages, and it is one of them |
| LeaderRuns.VoteProposes | internal/consensus/dhotstuff.go:298-337 | a vote that forms a certificate broadcasts one block on it: parent hash the certified hash, latest configuration, one higher than the stored parent, the first hundred requests of the queue; no other vote does |
| LeaderRuns.NewViewProposes | internal/consensus/dhotstuff.go:298-337 | the same for a new-view message that completes a quorum, on the generic certificate |
| LeaderRuns.RequestsAreProposedInOrder | internal/consensus/dhotstuff.go:305-315 | over any run the batches broadcast, of at most 100 each, and then the queue are the requests submitted, once each and in order |
| LeaderRuns.ProposalsAreChained | internal/consensus/dhotstuff.go:317-332 | where each proposal is certified and stored before the next, the blocks broadcast form one chain with heights growing by one |
| LeaderRuns.ChainedExtends | internal/consensus/dhotstuff.go:317-332 | and are linked proposals as `ProposeRuns` wants them |
| ViewRounds.ProposalIsCertified | internal/consensus/dhotstuff.go:104-241 | the votes of any Qc members that handle a proposal in one view go to one address, and once they arrive the leader broadcasts a child of it, justified by the certificate of exactly these votes |
| ViewRounds.ViewIsChanged | internal/consensus/dhotstuff.go:244-288 | the new-view messages of any Qc members that enter a view go to one address, and once they arrive the leader broadcasts a block on a certificate not older than any of theirs |
| PollRuns.ViewGoesBack | internal/consensus/dhotstuff.go:192-288 | in every committee with a quorum of distinct members whose votes in two views verify, those votes and a timeout lower the view by one |
| PollRuns.FourMembersGoBack | internal/consensus/dhotstuff.go:192-288 | with four members, six verifying votes and a timeout take the replica one view back |
| ProposeRuns.ExecutorSeesAllButThree | internal/consensus/dhotstuff.go:116-188 | when every delivery succeeds, after k linked proposals the executor has run exactly the regular requests of all but the last three, in order and once |
| ProposeRuns.WindowRouteIsIdle | internal/consensus/dhotstuff.go:184-188 | when every delivery succeeds, the commit route through the window never delivers or executes anything new |
| ProposeRuns.WindowExecutesNothingIff | internal/consensus/dhotstuff.go:184-188 | that route executes nothing if and only if nothing comes out, or it is delivered, of an unknown configuration, or without regular requests |
| ProposeRuns.ExecutorLog | internal/consensus/dhotstuff.go:171-188 | over every linked run, failures included, each block is delivered over the chain and one proposal later over the window, and the executor runs the regular requests of each attempt |
| ProposeRuns.WindowReruns | internal/consensus/dhotstuff.go:171-188 | a block whose membership step fails has its regular requests run again with the next proposal |
| GenericRuns.GenericCertifiesPrevious | internal/consensus/dhotstuff.go:159-162 | on every linked run the replica holds, after each proposal, its justify, which certifies the proposal before |
| GenericRuns.GenericDropsIff | internal/consensus/dhotstuff.go:159-162 | and its view drops if and only if the proposals' certificates do |
| Reputation.Select | internal/reputation/store.go:123-146 | returns a best-ranked member, none exactly for an empty committee |
| Reputation.RankCandidates | internal/reputation/store.go:123-146 | the ranking is a permutation of the candidates in descending order |
| Reputation.BestIsUnique | internal/reputation/store.go:136-145 | with distinct ids the best member is one |
| Reputation.HigherScoreIff | internal/reputation/store.go:20-36 | which of two replicas scores higher, in whole numbers: three parts commits of rounds and two parts heights missed of heights |
| Reputation.StringLessIff | internal/reputation/store.go:136-141 | ties go to the id that has the smaller character where they first differ, or is a proper prefix |
| Reputation.Store.RecordLeaderRound | internal/reputation/store.go:73-77 | one more round, entry made if missing |
| Reputation.Store.RecordCommit | internal/reputation/store.go:79-87 | one more commit, last-led height raised |
| Reputation.CommitsAddUp | internal/reputation/store.go:79-87 | over any commits in any order: counted one by one, and the greatest height is kept |
| Reputation.Store.RecordTimeout | internal/reputation/store.go:89-93 | one more timeout, the rest of the record kept |
| Rotation.HeadRanksFirst | internal/reputation/store.go:20-36 | the head of the queue outranks everyone else under the score 3/5 commit rate + 2/5 novelty |
| Rotation.BestIsHead | internal/reputation/store.go:123-146 | whatever selection may return is the head of the queue |
| Rotation.RoundMovesQueue | internal/repbench/cluster.go:249-364 | a round keeps the ledger a representation of the queue: an honest head goes to the back, a Byzantine one out |
| Rotation.RunFollowsQueue | internal/repbench/cluster.go:249-364 | every leader of every run is the one of the closed form |
| Rotation.RecordsAddUp | internal/repbench/cluster.go:249-364 | over every run a record is the rounds led, all committed or all timed out, and the height led last |
| Rotation.LeadersTakeTurns | internal/repbench/cluster.go:249-364 | n rounds in id order, once each; afterwards no Byzantine leader, and the leader is the honest one that last led lowest |
| Rotation.TurnsAreSpaced | internal/reputation/store.go:27-36 | between two turns of one honest replica the leaders are pairwise different |
| Rotation.EveryHonestReplicaLeads | internal/reputation/store.go:27-36 | within one turn every honest replica leads |
| Rotation.RoundsAddUp | internal/repbench/cluster.go:279-356 | curView is 1 + successes + view changes |
| Rotation.ViewChangesEarly | internal/repbench/cluster.go:258-289 | in the first n rounds view changes count the Byzantine replicas met so far |
| Rotation.ViewChangesExact | internal/repbench/cluster.go:258-289 | from round n on they are exactly the number of Byzantine replicas |
| Rotation.RoundRobinKeepsPaying | internal/membership/committee.go:98-104 | round-robin pays k times that number in k full turns and never less after one |
| BenchCore.ClusterCore.Certify | internal/benchutil/cluster.go:274-308 | signing, folding and `CreateQC` yield the round's certificate, always when enough keys sign |
| BenchCore.ClusterCore.UpdateSafety | internal/repbench/cluster.go:327-337 | every replica's lock and generic certificate after the round, accepting replicas only |
| BenchCore.ClusterCore.Round | internal/benchutil/cluster.go:257-340 | the whole new consensus state and the block handed out |
| BenchCore.EveryReplicaAccepts | internal/benchutil/cluster.go:91-99 | in a healthy cluster every replica's `safeNode` accepts the next block |
| BenchCore.RoundCertifies | internal/benchutil/cluster.go:301-308 | `CreateQC` never fails with distinct members and Qc keys |
| BenchCore.RoundStaysHealthy | internal/benchutil/cluster.go:257-340 | a round keeps: linked chain, genericQC certifies the last block, every lock certifies its parent with a smaller view |
| BenchCore.RoundProposes | internal/benchutil/cluster.go:264-272 | a round proposes a child of the last block that certifies it, one higher, of this configuration, with this batch |
| BenchCore.RoundFailsIff | internal/benchutil/cluster.go:274-306 | there is no certificate if and only if there are fewer keys than Qc |
| BenchCore.FailedRoundLeavesBlock | internal/benchutil/cluster.go:264-306 | a round without a certificate leaves its block in the store and nothing else, and a round that repeats it ends as if it had never been |
| BenchCore.RoundCertificateIsValid | internal/benchutil/cluster.go:274-308 | where the members' signatures verify, the certificate passes `ValidateQC` and names this view, configuration and hash |
| BenchCore.ReplicaAfterRound | internal/benchutil/cluster.go:311-321 | in any cluster a replica that refuses the block keeps its state, and one that accepts adopts the new certificate and locks on the justify if the parent is stored |
| BenchCore.NothingLost | internal/benchutil/cluster.go:106-128 | on a linked chain transactions handed out plus those in the four slots are all those proposed |
| BenchCluster.BenchCluster.constructor | internal/benchutil/cluster.go:194-243 | a new cluster of four or more starts at view 1 with the genesis configuration |
| BenchCluster.BenchCluster.Deliver | internal/benchutil/cluster.go:139-161 | transactions counted, non-regular requests applied and installed, errors swallowed |
| BenchCluster.CommitsLikeTheEngine | internal/benchutil/cluster.go:139-161 | a committed block of named types extends the configurations as the engine's deliverer does; one with an unnamed type leaves them |
| BenchCluster.BenchCluster.RunRound | internal/benchutil/cluster.go:257-340 | the whole new state whether or not a certificate is made, and success whenever enough keys sign |
| BenchCluster.BenchCluster.Reset | internal/benchutil/cluster.go:375-392 | back to genesis and view 1, installed configurations kept |
| BenchCluster.BenchStaysInOrder | internal/benchutil/cluster.go:257-340 | any number of regular rounds keeps the committee, the health of the chain and the counters |
| BenchCluster.BenchConserves | internal/benchutil/cluster.go:257-340 | delivered plus windowed transactions are all those proposed |
| BenchCluster.BenchCarries | internal/benchutil/cluster.go:257-340 | the blocks of a run carry its batches, in order, at heights 1, 2, 3 and so on |
| BenchCluster.FourCanCertify | internal/benchutil/cluster.go:194-243 | four or more distinct replicas meet the premise of these results |
| RepBench.RepBenchCluster.constructor | internal/repbench/cluster.go:167-227 | a new cluster, Byzantine indices out of range skipped |
| RepBench.RepBenchCluster.SelectLeader | internal/repbench/cluster.go:230-235 | a best-ranked member or the rotation's member, by mode |
| RepBench.RepBenchCluster.RunRound | internal/repbench/cluster.go:249-364 | the whole new state: a Byzantine leader costs a view change, an honest one makes a round, a missing certificate leaves only its block and the leader's record |
| RepBench.RepBenchCluster.Reset | internal/repbench/cluster.go:435-458 | the state of a fresh cluster |
| RepBench.ClusterStaysInOrder | internal/repbench/cluster.go:249-364 | every state of every run: chain healthy, counters in step, curView = 1 + successes + view changes |
| RepBench.TransactionsConserved | internal/repbench/cluster.go:339-345 | delivered plus windowed transactions are all those honest leaders proposed |
| RepBench.ClusterRunRotates | internal/repbench/cluster.go:249-364 | the cluster in reputation mode follows the rotation results above |
| RepBench.RoundRobinCosts | internal/repbench/cluster.go:249-364 | in round-robin mode t rounds cost what their t views cost |
| RepBench.ReputationNeverWorse | internal/repbench/cluster.go:249-364 | over one turn or more, reputation mode has exactly b view changes and never more than round-robin |
| RepBench.ClusterRecords | internal/repbench/cluster.go:249-364 | over every run, round-robin mode keeps no records, and reputation mode has each replica's rounds led, all committed or all timed out |
| RepBench.FailedRoundIsLed | internal/repbench/cluster.go:249-325 | a round without a certificate counts as led in reputation mode, and as nothing else |
| StateTransfer.ExecutionHistory.Append | internal/statetransfer/history.go:27-35 | accepts exactly the next height, so histories stay contiguous |
| StateTransfer.ExecutionHistory.Since | internal/statetransfer/history.go:38-43 | the blocks at or above a height, in order |
| StateTransfer.ExecutionHistory.LatestHeight | internal/statetransfer/history.go:51-56 | -1 when empty, else the greatest height of a contiguous history |
| StateTransfer.HistoryFromProto | internal/statetransfer/history.go:77-90 | accepts exactly the contiguous lists |
| StateTransfer.ComputeHistoryHash | internal/statetransfer/history.go:60-66 | the digest of the concatenated block digests |
| StateTransfer.DigestsInOrder | internal/statetransfer/history.go:60-66 | digest i of the hashed bytes is that of block i |
| StateTransfer.EqualHistoryHashes | internal/statetransfer/history.go:60-110 | without collisions equal hashes fix the whole header chain |
| StateTransfer.RequestHistory | internal/statetransfer/syncer.go:76-140 | the tally returns the first history whose hash reaches 2fc+1 |
| StateTransfer.TrustedHistoryIsAuthentic | internal/statetransfer/syncer.go:66-75 | for every arrival order it is contiguous, fc+1 honest responders reported its hash, and their header chain is its; batches are not covered |
| StateTransfer.HonestHistoryIsFound | internal/statetransfer/syncer.go:76-140 | if all honest members send one history, its header chain is found, whatever the faulty members send or do not send |
| StateTransfer.FirstReporterDecides | internal/statetransfer/syncer.go:114-133 | then the first response with those headers is the one returned, batches and all, whoever sent it |
| StateTransfer.ForgedBatchWins | internal/statetransfer/syncer.go:114-133 | in every fault-tolerant committee one faulty member that answers first has its own batches returned |
| StateTransfer.BatchesAreFixedIff | internal/statetransfer/history.go:93-110 | every reporter of the returned hash sent the returned blocks if and only if no response has their headers and differs |
| StateTransfer.ThresholdIsUnique | internal/statetransfer/syncer.go:80-134 | with 4fc+2 > nc at most one hash reaches the threshold |
| StateTransfer.TwoWinners | internal/statetransfer/syncer.go:80-134 | otherwise any two histories of different hash both can, and the order of arrival picks the winner |
| StateTransfer.UniqueWithoutRoom | internal/statetransfer/syncer.go:80-134 | over all response lists the winner is unique if and only if 4fc+2 > nc |
| StateTransfer.SixIsTheException | internal/statetransfer/syncer.go:80-134 | among committees of four or more that is every size but six |
| StateTransfer.SixSplit | internal/statetransfer/syncer.go:80-134 | six honest members, three of them one block behind: either history is returned, by order of arrival |
| StateTransfer.RequestUpdate | internal/statetransfer/syncer.go:215-251 | the loop returns the best block once nc-fc good answers and a block are in |
| StateTransfer.DiscoverUpdate | internal/discovery/discovery.go:132-157 | the other loop returns the same on every sequence |
| StateTransfer.BestIsFirst | internal/statetransfer/syncer.go:236-243 | the best block is the first of the highest |
| StateTransfer.UpdateIsFoundIff | internal/statetransfer/syncer.go:215-251 | a block is returned if and only if at some point needed answers without an error and a block are in, and it is the best at the first such point |
| StateTransfer.LatestIsHigh | internal/statetransfer/syncer.go:175-251 | the block was sent by someone and is as high as any sent by fc+1 or more honest replicas |
| NetSim.Simulator.constructor | tests/simulation/network_sim.go:138-161 | an empty queue and a stabilization time a year ahead |
| NetSim.Simulator.Send | tests/simulation/network_sim.go:192-223 | enqueued, delayed or dropped as phase, adversary and sender decide |
| NetSim.SendIsLostIff | tests/simulation/network_sim.go:192-223 | a message is lost if and only if an honest sender sends it before GST and the adversary drops it |
| NetSim.MessageWaits | tests/simulation/network_sim.go:192-248 | a message let through is handed out by the first tick from its time on and by none before: the adversary's delay before GST, its jitter from then on |
| NetSim.Simulator.Tick | tests/simulation/network_sim.go:227-248 | the in-place compaction delivers the due messages in order and keeps the others in order |
| NetSim.Simulator.SetGST | tests/simulation/network_sim.go:168-172 | only the stabilization time changes |
| NetSim.Simulator.PendingCount | tests/simulation/network_sim.go:250-255 | the length of the queue |
| NetSim.QueueIsOutstanding | tests/simulation/network_sim.go:227-248 | after any run the queue is exactly the accepted messages no later tick reached, once each, in sending order |
| NetSim.NothingLostOrDoubled | tests/simulation/network_sim.go:192-248 | accepted messages are the disjoint union of delivered and pending ones |
| NetSim.DeliveredWithinDelta | tests/simulation/network_sim.go:192-248 | a message sent at or after GST is never dropped, and a tick delta later finds it delivered |

## Left out

- Reputation inside the engine: `DHotStuff` is modelled without its optional store and selector; both are modelled through the rep-bench cluster.
- Interleavings: each handler is one atomic step. `HandleTimeout` releases the mutex around its send; that window is not modelled.
- Goroutine fan-out of the syncer and of discovery is an arbitrary order of responses; `RequestHistory` and `RequestUpdate` see a context that ends as responses that stop.
- SyncIfBehind past its collection loop, BroadcastHistory and HandleUpdateRequest.
- Cross-configuration agreement and liveness as claimed in docs/security_proof.md: the code does not determine them.
- ECDSA, X.509 and PEM parsing, key files, gRPC, connection pool, router, transport, metrics, timing, logging, configuration files and benchmarks. Failing network sends are only logged and change nothing.
- Error texts: errors are constructors with the data that decides them.
- Wrap-around of 64-bit views and heights, and rounding of floating-point scores.
- Subscribers of `ConfigStore`, its length, and `HasMembershipRequests`, `ReplicaFromRequest`, `ScoreTable`: nothing but easy members.
- Engine.DHotStuff.SubmitRequest: a send on the full channel blocks in the source; here it reports that the caller waits. A channel of size zero, which hands over directly, is not modelled.
- StateTransfer.TrustedHistoryIsAuthentic: it is authentic in headers only, because block digests omit batches; the lemmas beside it say what happens to batches.
- Signing in the bench clusters does not fail; `RunBenchmark` and `RunRounds` only average over rounds.
- Aliasing between the `*Replica`, `*Block` and certificate pointers that the source shares and treats as immutable: they are values here.
- Reputation.RankCandidates: `sort.Slice` is an insertion into a sorted sequence; what follows uses only that the result is a sorted permutation.
- RepBench.RepBenchCluster.Reset: empties the store where the source allocates a new one.
