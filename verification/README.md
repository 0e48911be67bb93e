# Shade Protocol: a verified model of committee matching and settlement

This project models, in Dafny 4.11, the parts of the Shade Protocol services that decide who trades
with whom and how often a trade may settle, and proves what those parts promise:

- the two matchers of the MPC committee (netting and priced crossing);
- the committee's session protocol, run in one process or over the network with nodes that fail, as a
  machine whose steps go from one `await` to the next;
- two-share reconstruction of amounts;
- the settlement pipeline: signed batches, the settler's jobs, and the RFQ lifecycle from intent to
  settlement row;
- the stream relayer's batching;
- the codecs and canonical forms around them: note-vault redaction and key wrapping, view-key report
  payloads, x402 voucher headers.

`dafny verify dfyconfig.toml` checks everything.

| files | what they hold |
|---|---|
| `Netting`, `NettingProofs`, `NettingOrder`, `NettingVolume`, `Pairings` | `matchIntents`: its soundness, maximality, which intents it joins in which order, and volume |
| `PricedCrossing`, `PricedGreedy` | `matchPricedPair`, `matchPricedIntents` |
| `Shamir` | splitting and reconstructing an amount |
| `JsMap`, `Sessions`, `Rounds`, `RoundProofs`, `RoundOutcomes` | a session's shares, both kinds of round, every exit with its exact condition and what it leaves behind, fault tolerance |
| `Committee`, `CommitteeProofs`, `CommitteeHygiene`, `CommitteeSafety`, `CommitteeClaims`, `CommitteeProgress`, `CommitteeState` | the protocol as a step machine, its invariant, where plaintext may be, who holds an intent and how lookups find it, at most one match per intent, what each step brings about, and the classes that refine it |
| `CommitteeExamples` | a committee and clients that show the committee's findings on actual inputs |
| `Settler`, `SettlerRouting` | the settler's polling, with crashes, and how polls are runs of the settlement steps |
| `Settlement`, `SettlementProofs`, `SettlementHistory`, `SettlementPaths` | the settlement tables, what every run keeps, who did what before a settlement, and when the two settlement paths can meet |
| `StreamBatching` | earliest-expiry batching |
| `Decimal`, `Json`, `StringOrder`, `ReportPayload`, `Redaction`, `Base64`, `VaultKeys`, `VoucherCodec` | text forms, redaction, wrapping and the codecs |

Imperative source code is modelled imperatively: loops are methods with invariants, the objects the
source updates are classes, and each is proved equal to a function on values about which the theorems
are stated.

## Findings

- **Settlement paths.** That no RFQ hash is submitted by the direct route is not enough to keep the two
  settlement paths apart. `intents.idempotency_key` is unique and the insert ignores conflicts, so posting
  a second intent under a used key inserts no row and yet sends the hash to the committee; the settler
  then takes it for a direct intent, and posting the same body again under another key lets the RFQ
  lifecycle settle it too (`NoDirectRfqIsNotEnough`). With unused keys the paths exclude each other
  (`PathsExcludeEachOther`), and `PathsMeetIffExposed` says exactly in which states they can still meet: an
  id whose session has ended without naming it is out of danger again (`EndedIsSafe`).
- **Malformed shares.** A share is opened to whatever JSON its submitter sealed, and the amounts are
  computed outside any handler of exceptions. One share that is not numbers makes the round throw; the
  session stays in `matching` for ever, with the plaintext shares of every intent in it
  (`OneMalformedShareStrands`, `StuckForEver`). `LocalEnds` and `RemoteEnds` say exactly when, and
  `ReachableSessions` that a session in `matching` holds plaintext exactly when this has happened.
- **Resubmission.** An intent submitted again after its session has been matched is matched a second time
  (`TwoAreMatchedTwice`). A session claims an intent it holds while it is open, while its round may still
  match it, and once its signed batch names it. At most one session claims each id exactly as long as no
  submission names an id claimed by a session that has left open (`ClaimedOnceIffUnclaimed`), and then each
  intent is matched at most once over all batches (`EveryIntentMatchedAtMostOnce`). Submitting an id again
  after its session failed, was stranded or was signed without naming it is safe in this respect; only the
  lookups by intent need the stronger demand of `HeldOnceIffFresh`.
- **Asset names containing `|`** make the grouping key ambiguous. A match, in any list of intents, joins
  complementary ones iff neither asset name of its first side contains a bar; those of its second side never
  do (`SoundIffBarFree`). Every intent with a bar has a bar-free stranger it is matched with
  (`BarsMatchStrangers`; `BarsBreakSoundness` is one input).
- **Receipts.** A settle request may carry a fill receipt, which the handler compares with the latest fill
  and then passes on to an insert into a table without such a column. A request with a receipt, even an
  empty one, therefore never succeeds (`SettleAcceptedIff`).
- **Marking.** An intent cannot be marked as matched with one that is not recorded yet, since `matched_with`
  refers to the table of intents: the update throws and the remaining marks of the batch are never made
  (`PersistSignedBatch`).
- **Smallest first.** Of the longer direction the matcher takes the smallest amounts, so the volume between
  two assets need not be the largest possible: 10 and 20 against 15 nets 10 (`SmallestFirstLosesVolume`). It
  is the largest iff at every place of the ascending orders the longer direction's amount covers the
  shorter's, or no larger one stands as many places further as the direction is longer
  (`VolumeLargestIff`); for directions of equal length always (`VolumeOptimal`).
- **Failed rounds** leave every share they had opened readable, whether a share was refused, too few were
  there or one was malformed (`RefusedLeaves`, `LocalLeaves`, `RemoteLeaves`).
- **Rounding.** Two limit prices whose product exceeds the squared scale can still cross when the floor
  loses a fraction (`RoundingCanCross`); `CrossingExact` is the exact condition, and with no loss crossing is
  exactly the comparison of limits.
- **Zero amounts.** `matchPricedPair` divides by the counterparty's amount and throws; `ThrowsExactly` says
  for which inputs.
- **A single remote node** can never produce a signed batch of two intents, since two shares are always
  needed (`SingleNodeNeverSigns`).
- **`__proto__`.** Redaction assigns object keys one by one, so a field of that name is not copied to the
  redacted tree; shape is kept exactly for trees without one (`RedactionKeepsShape`).

## Model

| member | source | states |
|---|---|---|
| Netting.BuildGroups | apps/mpc-committee/src/coordinator.ts:20-25 | the grouping loop yields, for every key in first-seen order, exactly the intents with that key, in input order |
| Netting.KeysComplete | apps/mpc-committee/src/coordinator.ts:20-25 | the keys are the non-empty groups, each once |
| Netting.NetPointers | apps/mpc-committee/src/coordinator.ts:40-66 | the two-pointer loop computes the netting function from any `used` set |
| Netting.NetGroup | apps/mpc-committee/src/coordinator.ts:30-66 | one group is netted against its reverse group, or skipped when there is none |
| Netting.MatchIntents | apps/mpc-committee/src/coordinator.ts:13-70 | the whole imperative matcher returns the rendered matching the theorems below are about |
| NettingProofs.KeyReadsBack | apps/mpc-committee/src/coordinator.ts:22-32 | splitting a joined key gives both asset names back iff neither contains a bar |
| NettingProofs.MatchingDisjoint | apps/mpc-committee/src/coordinator.ts:45-65 | for any input at all, no id occurs in two matches and none is matched with itself |
| NettingProofs.MatchingSound | apps/mpc-committee/src/coordinator.ts:27-61 | every match joins complementary intents and reports the first side's assets |
| NettingProofs.ReportsSound | apps/mpc-committee/src/coordinator.ts:54-61 | every reported match names two complementary intents of the input, the assets of the first, and the smaller of the two amounts |
| NettingProofs.BarsBreakSoundness | apps/mpc-committee/src/coordinator.ts:22-32 | with a bar in an asset name two intents that are not complementary are matched |
| NettingProofs.BarsMatchStrangers | apps/mpc-committee/src/coordinator.ts:22-52 | every intent with a bar in a name is matched with a bar-free intent it is not complementary to |
| NettingProofs.SoundIffBarFree | apps/mpc-committee/src/coordinator.ts:22-52 | for every match of any list: it joins complementary intents iff neither asset name of its first side contains a bar, and those of its second side never do |
| NettingProofs.NetExhausts | apps/mpc-committee/src/coordinator.ts:42-66 | when the pointers stop, of any two different ids on the two sides at least one is used |
| NettingProofs.MatchingMaximal | apps/mpc-committee/src/coordinator.ts:13-70 | no two unmatched intents are complementary |
| NettingProofs.CrossCount | apps/mpc-committee/src/coordinator.ts:13-70 | between two different assets there are exactly min of the two directions' counts matches |
| NettingProofs.SameCount | apps/mpc-committee/src/coordinator.ts:47-52 | within one asset there are exactly half the intents, rounded down |
| NettingProofs.MatchingMaximum | apps/mpc-committee/src/coordinator.ts:13-70 | no family of disjoint complementary pairs is larger than the matching |
| NettingOrder.CrossesInOrder | apps/mpc-committee/src/coordinator.ts:27-66 | between two assets the matches join the ascending amounts of one direction with those of the other, place by place, as long as both last, the direction seen first coming first |
| NettingOrder.NeighboursCross | apps/mpc-committee/src/coordinator.ts:36-66 | within one asset the matches join neighbours in ascending order of amount |
| NettingOrder.AscendingOnBothSides | apps/mpc-committee/src/coordinator.ts:36-66 | the matches of one asset pair come in ascending order of amount on both sides, all in one direction |
| NettingOrder.SmallestFirst | apps/mpc-committee/src/coordinator.ts:36-66 | a matched intent is at most as large as every unmatched one of its direction, within one asset too |
| NettingOrder.DirectionsInOrder | apps/mpc-committee/src/coordinator.ts:20-30 | matches of different groups come in the order in which the groups were first seen, whatever the names |
| NettingVolume.SortedPairingIsBest | apps/mpc-committee/src/coordinator.ts:36-66 | pairing two sorted lists of equal length in order nets at least as much as any one-to-one pairing |
| NettingVolume.VolumeOptimal | apps/mpc-committee/src/coordinator.ts:36-66 | for directions of equal length, the amounts the matcher reports between two assets add up to at least the total of every one-to-one pairing of the two groups |
| NettingVolume.ReportedSum | apps/mpc-committee/src/coordinator.ts:36-63 | between two assets exactly the smallest amounts of the longer direction are netted with all of the shorter, in ascending order |
| NettingVolume.VolumeLargestIff | apps/mpc-committee/src/coordinator.ts:36-66 | no pairing of the shorter direction with intents of the longer nets more iff the longer direction covers the shorter place by place, or has no larger amount as many places further as it is longer |
| NettingVolume.SmallestFirstLosesVolume | apps/mpc-committee/src/coordinator.ts:36-66 | 10 and 20 against 15: the reported volume is not the largest possible |
| PricedCrossing.MatchFillsBoth | apps/mpc-committee/src/coordinator.ts:109-140 | a match spends both amounts in full, hands each side the other's asset, and meets both minimum outputs |
| PricedCrossing.CrossingExact | apps/mpc-committee/src/coordinator.ts:115-127 | for opposite intents the pair crosses iff A gets within one unit below its limit, both minimums fit and B's limit holds without rounding loss |
| PricedCrossing.CrossingByLimits | apps/mpc-committee/src/coordinator.ts:115-127 | when nothing is lost to rounding, the pair crosses iff the product of the limits is at most the squared scale |
| PricedCrossing.RoundingCanCross | apps/mpc-committee/src/coordinator.ts:117-127 | with rounding loss a pair can cross although the product of its limits is larger |
| PricedCrossing.ThrowsExactly | apps/mpc-committee/src/coordinator.ts:117-126 | the division by zero happens exactly for opposite intents whose B amount and A output are zero and whose minimums fit |
| PricedCrossing.TruncDivExact | apps/mpc-committee/src/coordinator.ts:115-127 | the quotient leaves a rest smaller than the divisor and of the dividend's sign, for all signs |
| PricedCrossing.ScanLoop | apps/mpc-committee/src/coordinator.ts:149-158 | the inner loop finds the first unused counterparty that crosses, or throws at the first division by zero before it |
| PricedCrossing.MatchPricedIntents | apps/mpc-committee/src/coordinator.ts:144-161 | the imperative greedy matcher returns the matches of the greedy function, or throws exactly when it does |
| PricedGreedy.GreedySound | apps/mpc-committee/src/coordinator.ts:144-161 | every reported match is a crossing of two different positions, and no position is used twice |
| PricedGreedy.ScanFirst | apps/mpc-committee/src/coordinator.ts:150-158 | the first position not taken that does not simply fail to match decides: a match there, a throw there, or nothing |
| PricedGreedy.EachInTurn | apps/mpc-committee/src/coordinator.ts:144-161 | every intent in its turn, unless taken before, is matched with the first one not taken before that it crosses with, and left alone iff there is none |
| PricedGreedy.ThrowHasCause | apps/mpc-committee/src/coordinator.ts:144-161 | the matcher throws only where some pair does |
| PricedGreedy.NothingLeftCrosses | apps/mpc-committee/src/coordinator.ts:144-161 | no two unused intents cross, in either order |
| PricedGreedy.HalfOfOptimal | apps/mpc-committee/src/coordinator.ts:144-161 | twice the number of matches is at least the size of any set of disjoint crossing pairs |
| PricedGreedy.NonZeroReturns | apps/mpc-committee/src/coordinator.ts:126-161 | without zero amounts the matcher never throws |
| PricedGreedy.BatchConserves | apps/mpc-committee/src/coordinator.ts:109-161 | for every asset, what matched intents spend equals what they receive, each is filled in full and gets at least its minimum |
| Shamir.ModInvLoop | packages/mpc-crypto/src/shamir.ts:12-21 | the extended Euclid loop computes the inverse function |
| Shamir.ModInvCorrect | packages/mpc-crypto/src/shamir.ts:12-21 | it is an inverse modulo the field order for every value coprime to it |
| Shamir.ReconstructLoop | packages/mpc-crypto/src/shamir.ts:63-76 | the nested Lagrange loops compute the interpolation function |
| Shamir.TwoSharesReconstruct | packages/mpc-crypto/src/shamir.ts:63-76 | two points of one line, at positions whose difference is invertible, give its value at zero |
| Shamir.AnyTwoSharesReconstruct | packages/mpc-crypto/src/shamir.ts:44-76 | any two different shares of a split give the secret back, in either order |
| Shamir.SplitExact | packages/mpc-crypto/src/shamir.ts:44-58 | share i of a split stands at i + 1 and on the line through the secret |
| Shamir.PrimeSeparates | packages/mpc-crypto/src/shamir.ts:4-9 | a prime order makes any two of up to that many positions separable |
| Shamir.ThreeNodesSeparate | packages/mpc-crypto/src/shamir.ts:5-5 | for three nodes the actual field order does so, with no appeal to its primality |
| Rounds.OpenSlots | apps/mpc-committee/src/coordinator.ts:200-210 | a node's shares are opened in order up to the first that is refused; what counts as no share leaves the slot empty |
| Rounds.OpenAll | apps/mpc-committee/src/coordinator.ts:197-211 | every node's shares are opened in turn, stopping at the first failure |
| Rounds.ApplyAll | apps/mpc-committee/src/remote-coordinator.ts:74-81 | every answer is stored in the slots of the node it names, and only there |
| Rounds.GatherLoop | apps/mpc-committee/src/remote-coordinator.ts:87-92 | the first two decrypted shares of an intent in node order are gathered |
| Rounds.ReadIntent | packages/mpc-crypto/src/committee.ts:102-104 | an amount is computed from two gathered shares that are numbers, short of two it is refused, otherwise it throws |
| Rounds.ReconstructAll | apps/mpc-committee/src/remote-coordinator.ts:85-98 | amounts of all intents are computed iff each has two shares that are numbers; it throws iff the first intent that has not has two shares all the same |
| Rounds.ClearAll | apps/mpc-committee/src/remote-coordinator.ts:101-105 | the slots of every committee node are cleared of plaintext |
| RoundProofs.ProducedIsClean | apps/mpc-committee/src/coordinator.ts:230-237 | a round that produces or goes on to sign leaves no plaintext share anywhere in the session |
| RoundProofs.LocalMatchesPlaintext | apps/mpc-committee/src/coordinator.ts:196-240 | the in-process round matches exactly as if it were given the dealt amounts |
| RoundProofs.RemoteMatchesPlaintext | apps/mpc-committee/src/remote-coordinator.ts:62-108 | so does the remote round, whichever nodes did not answer |
| RoundProofs.RemoteRefinesLocal | apps/mpc-committee/src/remote-coordinator.ts:47-126 | for the same session a successful remote round has the same matches as the in-process round |
| RoundProofs.ThresholdIsAllButAThird | apps/mpc-committee/src/remote-coordinator.ts:43-45 | the threshold is n minus a third of n rounded down |
| RoundProofs.SignersOverlap | apps/mpc-committee/src/remote-coordinator.ts:111-125 | any two sets of enough signers share at least a third of the committee, rounded up |
| RoundProofs.RemoteEnds | apps/mpc-committee/src/remote-coordinator.ts:47-126 | for any answers under own node ids: signed iff enough nodes answer both requests and each intent's first two answers are numbers; left in matching iff enough answer and the first intent without two numbers has two answers |
| RoundProofs.SignedIffAThirdLost | apps/mpc-committee/src/remote-coordinator.ts:47-126 | with at least two nodes and intents and every answering node giving numeric shares, the round ends signed iff at most a third of the nodes, rounded down, are lost in each phase |
| RoundProofs.LocalEnds | apps/mpc-committee/src/coordinator.ts:196-256 | the in-process round ends signed iff every stored share opens and each intent's first two are numbers, so it tolerates no loss; it is left in matching iff all open and the first intent without two numbers has two shares |
| RoundProofs.ThrownKeepsPlaintext | apps/mpc-committee/src/coordinator.ts:226-237 | a reconstruction that throws leaves plaintext shares behind |
| RoundProofs.SingleNodeNeverSigns | apps/mpc-committee/src/remote-coordinator.ts:93-96 | one remote node can never complete a round of two intents |
| RoundOutcomes.LocalOutcomes | apps/mpc-committee/src/coordinator.ts:186-259 | each outcome of the in-process round iff its condition on the stored shares; the status it leaves, and that ids, intents and batch change no further |
| RoundOutcomes.LocalBatch | apps/mpc-committee/src/coordinator.ts:214-256 | a batch carries its own and its session's id, the matches of the amounts its first two shares per intent stand for, and every node's signature over just these, in node order |
| RoundOutcomes.RemoteOutcomes | apps/mpc-committee/src/remote-coordinator.ts:47-126 | each outcome of the remote round iff its condition on the answers; what a batch carries, the signatures being those that came back, in node order |
| RoundOutcomes.LocalLeaves | apps/mpc-committee/src/coordinator.ts:196-237 | when every share opens, a produced batch leaves none readable and any other end leaves all readable |
| RoundOutcomes.RefusedLeaves | apps/mpc-committee/src/coordinator.ts:196-212 | when a share is refused, exactly those opened before it, in node and slot order, stay readable |
| RoundOutcomes.RemoteLeaves | apps/mpc-committee/src/remote-coordinator.ts:69-108 | after too few or malformed shares exactly the answers stay readable, after any other end nothing |
| RoundOutcomes.RoundsKeepSealed | apps/mpc-committee/src/remote-coordinator.ts:69-108 | no round, however it ends, changes, adds or drops a sealed share |
| CommitteeProofs.MatchesAreGood | apps/mpc-committee/src/coordinator.ts:214-240 | whatever the shares, a round's matches join intents of its session, none with itself and none twice |
| CommitteeProofs.OpenSessionsAtMostOne | apps/mpc-committee/src/state.ts:79-81 | the timer's snapshot holds at most one session, which is why it need not look at the status again |
| CommitteeProofs.StepKeeps | apps/mpc-committee/src/coordinator-server.ts:98-136 | every submission, delivery, manual match, timer tick, set of answers and resumption keeps the whole invariant; sessions only evolve |
| CommitteeProofs.RunKeeps | apps/mpc-committee/src/state.ts:24-86 | from any state of a run to any later one, status only moves open, matching, signed or failed; intents are frozen once a session is no longer open; a batch, once there, stays |
| CommitteeProgress.SnapshotExact | apps/mpc-committee/src/state.ts:79-81 | the timer's snapshot holds exactly the open session, if there is one |
| CommitteeProgress.NetworkRoundStarts | apps/mpc-committee/src/coordinator-server.ts:98-136 | a tick, or a match request under the session's id, puts an open session of two intents or more in matching, with a task that waits for its shares; nothing else changes |
| CommitteeProgress.LocalRoundRuns | apps/mpc-committee/src/server.ts:139-155 | in process the session ends as the round leaves it, a produced batch is logged, and the activation lives on unless the round threw |
| CommitteeProgress.NothingStarts | apps/mpc-committee/src/coordinator-server.ts:98-136 | with fewer than two intents, no open session, or an id whose session is not open, nothing changes |
| CommitteeProgress.RemoteRoundRuns | apps/mpc-committee/src/remote-coordinator.ts:47-126 | the steps from the first answers to the last make up the remote round, whatever the nodes answer, and a produced batch is logged |
| CommitteeProgress.ResumeEnds | apps/mpc-committee/src/coordinator-server.ts:124-136 | an activation whose round is over ends, having nothing left in its snapshot |
| CommitteeProgress.DeliverExact | apps/mpc-committee/src/server.ts:59-86 | a delivery replaces the sealed share in the node's slot for the intent, in the session the intent is indexed under, and touches no plaintext and no other slot |
| CommitteeProgress.SubmitExact | apps/mpc-committee/src/state.ts:41-68 | the open session holds the intent under its id and each node's last sealed share in that node's slot; every other entry of every session stays; a session is created iff none is open |
| CommitteeProgress.LogExact | apps/mpc-committee/src/coordinator.ts:246-258 | after every run the batches ever produced are exactly those of the signed sessions, one each |
| CommitteeSafety.OnlySubmitAddsIntents | apps/mpc-committee/src/state.ts:49-68 | no step but a submission changes any session's intents or either index |
| CommitteeSafety.HeldOnceIffFresh | apps/mpc-committee/src/state.ts:41-68 | a step keeps every intent in at most one session iff it submits no id of a session that has left open |
| CommitteeClaims.OnlySubmitClaims | apps/mpc-committee/src/coordinator-server.ts:98-136 | no step but a submission makes a session claim an intent, that is, hold it while it is open, in a round that may still match it, or signed with a batch naming it |
| CommitteeClaims.SubmitClaims | apps/mpc-committee/src/state.ts:41-68 | a submission adds the open session's claim on its id and changes no other |
| CommitteeClaims.ClaimedOnceIffUnclaimed | apps/mpc-committee/src/state.ts:41-68 | a step keeps at most one claim on every id iff it submits no id claimed by a session that has left open |
| CommitteeClaims.ClaimedOnceMatchedOnce | apps/mpc-committee/src/coordinator.ts:239-256 | with at most one claim on every id, no id is in two matches of the signed batches |
| CommitteeClaims.EveryIntentMatchedAtMostOnce | apps/mpc-committee/src/coordinator-server.ts:77-136 | over every interleaving without resubmission of a claimed id, each intent is in at most one match of all batches ever signed, and never with itself |
| CommitteeSafety.ResubmissionMatchesTwice | apps/mpc-committee/src/state.ts:49-68 | any two intents that one round matches are matched again when both are submitted again afterwards |
| CommitteeExamples.TwoAreMatched | apps/mpc-committee/src/coordinator.ts:186-259 | for an actual committee of two nodes and two clients in opposite directions, a round produces a match |
| CommitteeExamples.TwoAreMatchedTwice | apps/mpc-committee/src/state.ts:49-68 | so for these an actual run matches the same two intents in two signed batches |
| CommitteeSafety.MalformedShareStrands | apps/mpc-committee/src/coordinator.ts:213-228 | whenever the round of two intents throws, submitting them and starting it leaves the session stuck with the shares as the round had opened them |
| CommitteeExamples.OneMalformedShareStrands | packages/mpc-crypto/src/committee.ts:83-104 | an actual run in which one client's malformed shares strand the session for good, with the other client's share readable in it |
| CommitteeHygiene.StepKeepsClean | apps/mpc-committee/src/server.ts:59-86 | every step, share redelivery included, keeps open and signed sessions free of plaintext, and a session in matching so exactly while a round works on it |
| CommitteeHygiene.StuckForEver | apps/mpc-committee/src/coordinator-server.ts:98-136 | a session left in matching by a round that threw stays so through every run: no manual match, timer or answer takes it on |
| CommitteeSafety.CreateIndexedIff | apps/mpc-committee/src/state.ts:28-47 | creating a session keeps lookups right iff no session has its id, which is taken from the clock |
| CommitteeSafety.StepKeepsIndexed | apps/mpc-committee/src/state.ts:41-77 | with fresh intent and session ids every step keeps the two indexes in agreement with a scan |
| CommitteeSafety.IndexedLookup | apps/mpc-committee/src/state.ts:74-77 | then looking an intent up gives a session iff that session holds it |
| CommitteeSafety.ReachableSessions | apps/mpc-committee/src/state.ts:24-86 | in every reachable state: one open session, a batch iff signed, no plaintext in open or signed sessions, plaintext in a session in matching iff its round threw, exact lookup |
| CommitteeObjects.SessionState.Accept | apps/mpc-committee/src/state.ts:51-65 | storing an intent and its sealed shares, slot by slot |
| CommitteeObjects.SessionState.RunMatchingRound | apps/mpc-committee/src/coordinator.ts:186-259 | the in-process round on the object leaves exactly the session and result of the round function, on every exit |
| CommitteeObjects.SessionState.StoreAnswers | apps/mpc-committee/src/remote-coordinator.ts:69-108 | the remote round from the answers to the matches, on every exit |
| CommitteeObjects.SessionState.RunMatchingRoundRemote | apps/mpc-committee/src/remote-coordinator.ts:47-126 | the whole remote round on the object, on every exit |
| CommitteeObjects.CommitteeState.constructor | apps/mpc-committee/src/state.ts:24-26 | a new committee has no sessions |
| CommitteeObjects.CommitteeState.CreateSession | apps/mpc-committee/src/state.ts:28-39 | a new open session, replacing the indexed one of the same id in its place |
| CommitteeObjects.CommitteeState.GetOrCreateOpenSession | apps/mpc-committee/src/state.ts:41-47 | the first open session in insertion order, else a new one; no other session changes |
| CommitteeObjects.CommitteeState.AddIntent | apps/mpc-committee/src/state.ts:49-68 | the intent joins the open session and is indexed under it; nothing else changes |
| CommitteeObjects.CommitteeState.GetSession | apps/mpc-committee/src/state.ts:70-72 | the session indexed under an id, or none |
| CommitteeObjects.CommitteeState.GetSessionForIntent | apps/mpc-committee/src/state.ts:74-77 | the session an intent was last indexed under, or none |
| Settler.SettlerTables.QueueSettlementJobs | apps/mpc-committee/src/settler.ts:61-131 | the loop over a batch's matches with what it reads for each, dying before any chosen enqueue or before the status update |
| Settler.SettlerTables.SettleOnce | apps/mpc-committee/src/settler.ts:134-146 | one poll: the oldest fifty pending batches in turn, and how many there were |
| Settler.KeyInjective | apps/mpc-committee/src/settler.ts:75-75 | idempotency keys of different batches or matches differ, whatever the batch ids contain |
| Settler.QueueBatchKeeps | apps/mpc-committee/src/settler.ts:61-131 | handling a batch, with or without dying, keeps the exactly-once invariant |
| Settler.PollKeeps | apps/mpc-committee/src/settler.ts:134-146 | so does a poll that dies anywhere |
| Settler.PersistKeeps | apps/mpc-committee/src/persist.ts:14-18 | and a newly persisted batch |
| Settler.RunsSettleExactlyOnce | apps/mpc-committee/src/settler.ts:61-146 | over any run of polls, each with its own lookups and dying anywhere, and new batches: a job is always that of a match some poll found not RFQ-routed, never two for one match; a batch no longer pending was finished by a poll that left a job for each match it found so, and is queued iff there was one |
| Settler.StableRoutingIsExact | apps/mpc-committee/src/settler.ts:77-129 | when the polls agree on the routing of a finished batch, it has a job for exactly the matches not RFQ-routed |
| Settler.JobsStay | packages/queue/src/index.ts:44-56 | a queued job is never changed by a later poll, whatever that reads |
| Settler.PollProgress | apps/mpc-committee/src/settler.ts:134-146 | a poll without errors lowers the pending count by min of fifty and itself |
| Settler.PollStatusExact | apps/mpc-committee/src/settler.ts:77-146 | a poll finishes the fifty oldest pending batches in order as far as it lives; a finished batch is queued iff some match had neither side read as RFQ-routed, else RFQ-routed; other batches stay |
| Settler.PollJobsExact | apps/mpc-committee/src/settler.ts:73-118 | a match gets a job iff the poll gets to it, it has none, and neither side is read as RFQ-routed; the job names batch, session, index, match, A's note and B's note; no other job appears or changes |
| SettlerRouting.PollIsARun | apps/mpc-committee/src/settler.ts:51-146 | a poll that reads the intents table, dying anywhere, is a run of settlement steps that changes nothing but the jobs and queues the same ones |
| SettlerRouting.QueuedIsNeverSettled | apps/mpc-committee/src/settler.ts:42-131 | with both guards, no side of a match a poll has queued is settled by the RFQ lifecycle, before or ever after |
| Settlement.Store.PostIntentRow | apps/api/src/routes.ts:502-512 | the row is inserted unless its hash or its idempotency key is there; nothing else changes |
| Settlement.Store.HandleAccept | apps/api/src/routes.ts:642-655 | every rejection in order, an intent without an owner being anybody's, else the acceptance row |
| Settlement.Store.HandleFill | apps/api/src/routes.ts:664-670 | a fill row of an existing quote, once per quote and receipt |
| Settlement.Store.HandleExecute | apps/api/src/db.ts:432-435 | exactly the named fill becomes executed; not found iff there is none |
| Settlement.Store.HandleSettle | apps/api/src/routes.ts:682-721 | every rejection in order, the root audit's first; then a failed insert if the request carries a receipt or names a fill that does not exist, else the settlement row, once per id |
| Settlement.Store.PersistSignedBatch | apps/mpc-committee/src/persist.ts:9-49 | the batch is kept if new; the marks are made in order up to the first whose partner is not recorded, where it throws, and it throws iff there is one |
| SettlementProofs.StepGrows | apps/api/src/db.ts:127-136 | no step deletes or changes a quote, acceptance, settlement, batch or job, deletes an intent, or undoes an execution |
| SettlementProofs.StepGrounded | apps/mpc-committee/src/persist.ts:14-48 | batches join two different ids the committee accepted, jobs are matches of batches, matched status comes from batches, sessions hold accepted ids, these were direct or posted with shares, settlements name intents and acceptances their quote's intent |
| SettlementProofs.PassedWasRowless | apps/mpc-committee/src/settler.ts:79-86 | the settler passes a side of a match only in a state in which that side is without an intent row |
| SettlementProofs.SettledTwiceWasRowless | apps/mpc-committee/src/settler.ts:42-57 | an id with both a job and a settlement row was, at an earlier moment, with the committee and without an intent row |
| SettlementProofs.PathsExcludeEachOther | apps/mpc-committee/src/settler.ts:42-131 | if no RFQ hash goes the direct way and idempotency keys are not reused, no id ever has both a job and a settlement row |
| SettlementProofs.RoutingIsStable | apps/mpc-committee/src/settler.ts:51-57 | under the same guards the answer of the routing lookup never changes once the id is in a batch |
| SettlementProofs.LatestFillExact | apps/api/src/db.ts:415-415 | the fill a settlement is judged by is the last one of its quote, and there is none iff the quote has no fill |
| SettlementProofs.SettleAcceptedIff | apps/api/src/routes.ts:685-716 | a settle request is accepted iff it has its whole support, on the latest fill, and its row can be inserted; it fails iff only the insert does, as for every request with a receipt; forbidden iff another user owns the intent; not found iff the intent, or the owner's quote, is missing |
| SettlementProofs.StepRows | apps/api/src/routes.ts:642-655 | every step keeps acceptances those of quotes for the very intent they name, and settlements those of existing intents |
| SettlementHistory.PostedIff | apps/api/src/routes.ts:664-670 | a fill is there after a run iff the run posted it for a quote that was there |
| SettlementHistory.ExecutedIff | apps/api/src/routes.ts:664-681 | a fill is executed after a run iff the run posted it and later asked for its execution |
| SettlementHistory.IntentsAfter | apps/api/src/routes.ts:502-512 | a row is made only by a post under an unused key, for the user who posts, and gets its session only by a link after acceptance |
| SettlementHistory.QuotesAfter | apps/api/src/routes.ts:626-641 | a quote is made only for an existing intent, under an id and a hash no quote has |
| SettlementHistory.AcceptAnswers | apps/api/src/routes.ts:642-655 | each answer of the accept handler iff its condition, and that only an accepted request changes anything |
| SettlementHistory.AcceptancesAfter | apps/api/src/routes.ts:642-655 | an acceptance is made only by the intent's owner, or anybody for an ownerless one, of a quote for that intent |
| SettlementHistory.SettlementsAfter | apps/api/src/routes.ts:682-721 | a settlement row is made exactly by a request with its whole support that can be inserted, and names its proof job |
| SettlementHistory.StatusesAfter | apps/mpc-committee/src/persist.ts:39-48 | a submission is recorded only after acceptance and matched exactly by its own mark with a recorded partner |
| SettlementHistory.RequestsAfter | apps/api/src/routes.ts:513-552 | a post with shares arrives once more, an arriving request is accepted and gone, a direct one is accepted at once |
| SettlementHistory.SessionsAfter | apps/mpc-committee/src/state.ts:41-68 | the open session gathers what comes with its direction, and a round takes over exactly when there are two ids or more |
| SettlementHistory.BatchesAfter | apps/mpc-committee/src/persist.ts:14-18 | a round's batch is persisted exactly when its id is new and its matches join different ids of the session whose keys meet, each id once |
| SettlementHistory.MeetIffOpposite | apps/mpc-committee/src/coordinator.ts:27-34 | without bars in the names, directions meet iff they are opposite |
| SettlementHistory.NewMarks | apps/mpc-committee/src/persist.ts:39-48 | the marks of a new batch are both sides of every match in turn, each with its partner |
| SettlementHistory.MarksAfter | db/migrations/007_mpc.sql:18-34 | a mark made is taken off, and a recorded id with an unrecorded partner ends the marking of its batch |
| SettlementHistory.EverySettlementHasItsHistory | apps/api/src/routes.ts:497-721 | behind every settlement of every run: its intent posted by a user, then a quote for it, then that user's acceptance, and a fill of the quote and then its execution, and after all that the same user's request |
| SettlementProofs.EverySettlementWasSupported | apps/api/src/routes.ts:689-716 | every settlement row was inserted in a state with its intent, its own quote, that quote's acceptance for that intent, an executed fill, its ready proof job, an unspent nullifier, and, with a session, a persisted batch naming the intent |
| SettlementProofs.SupportStays | apps/api/src/db.ts:406-435 | intent, quote, acceptance and an executed fill are there ever after |
| SettlementPaths.ExposedCanSettleTwice | apps/api/src/routes.ts:682-721 | from every exposed state of an id some run keeping both guards gives it a job and a settlement row, reposting the same body |
| SettlementPaths.PathsMeetIffExposed | apps/mpc-committee/src/settler.ts:42-131 | after any run, an id not submitted directly can still be settled on both paths by guarded steps iff it has a job, the settler is at a match of it and can still pass both sides, a batch has a match of it with both sides rowless, or it is rowless and arriving, in the open session, or in a running round beside another rowless id whose direction meets its own |
| SettlementPaths.EndedIsSafe | apps/mpc-committee/src/state.ts:41-68 | an id that waits in no session and is named by no batch can no longer be settled twice, even if the committee accepted it without a row |
| SettlementPaths.ReusedKeySettlesTwice | apps/api/src/routes.ts:497-552 | posting a new intent with shares under a used idempotency key always leads to such a state, and from it to settling twice |
| SettlementPaths.NoDirectRfqIsNotEnough | apps/api/src/routes.ts:497-593 | a run from empty tables in which no RFQ hash goes the direct way and one is settled on both paths |
| StreamBatching.FilterReady | apps/relayer/src/stream-relayer.ts:42-46 | the ready settlements, in order |
| StreamBatching.ReadyExact | apps/relayer/src/stream-relayer.ts:42-46 | exactly the settlements close to expiry or worth closing are chosen, each as often as it is pending |
| StreamBatching.CutIntoChunks | apps/relayer/src/stream-relayer.ts:50-53 | the slicing loop cuts into consecutive chunks |
| StreamBatching.SelectSettlementBatches | apps/relayer/src/stream-relayer.ts:37-55 | the whole selection returns the batches the theorems below are about, and keeps the promise of SelectionExact |
| StreamBatching.SelectionExact | apps/relayer/src/stream-relayer.ts:37-55 | the batches hold every settlement near expiry or worth closing as often as it is pending and no other, by expiry and then as they came; none is empty or over size, all but the last are full |
| StreamBatching.SelectionIff | apps/relayer/src/stream-relayer.ts:37-55 | these demands fix the batches: a list meets them iff it is the selection |
| StreamBatching.SortIsStable | apps/relayer/src/stream-relayer.ts:47-48 | the sort is an ascending permutation that keeps the order of equal expiries |
| StreamBatching.StableSortUnique | apps/relayer/src/stream-relayer.ts:47-48 | there is only one such order, so any stable sort gives it |
| StreamBatching.ChunksCover | apps/relayer/src/stream-relayer.ts:50-53 | the chunks together are the list; none is empty or too large, and all but the last are full |
| StreamBatching.EarliestExpiryOptimal | apps/relayer/src/stream-relayer.ts:37-55 | if any plan of one batch per block meets every expiry, so does submitting these batches in order |
| StreamBatching.FewestBatches | apps/relayer/src/stream-relayer.ts:50-54 | no division of the ready settlements into batches of that size has fewer batches |
| Json.ParseStringify | frontend/lib/note-vault.ts:146-153 | parsing the text of a well-formed value gives it back, at any depth |
| Json.StringifyInjective | apps/api/src/shade-view.ts:36-49 | different values have different texts |
| Json.Escapes | apps/api/src/shade-view.ts:36-49 | quotes, backslashes and control characters are written as section 7 of RFC 8259 has them |
| Json.WholeText | frontend/lib/note-vault.ts:146-153 | a value with more text behind it is refused |
| StringOrder.SortCanonical | apps/api/src/shade-view.ts:42-48 | two lists have the same sorted copy iff they are permutations of each other |
| StringOrder.LeqExact | apps/api/src/shade-view.ts:42-48 | strings are ordered by their first different characters, a beginning first |
| ReportPayload.PayloadCanonical | apps/api/src/shade-view.ts:35-50 | two reports have the same payload iff their scalar fields agree (absent is null), the disclosed amounts are equal, key order included (absent is empty), and the three lists are permutations |
| ReportPayload.PayloadReads | apps/api/src/shade-view.ts:35-50 | reading the payload back gives the twelve members in their order, each with the report's own value, absent ones null and the three lists sorted |
| ReportPayload.SignedVerifies | apps/api/src/shade-view.ts:54-71 | what the service signed verifies, also after its lists were reordered |
| ReportPayload.VerificationIgnoresOnlyOrder | apps/api/src/shade-view.ts:66-71 | reports with the same content verify alike under any scheme; others verify under one signature only if two texts share a digest or the signature is accepted for two digests |
| Redaction.GateExact | frontend/lib/note-vault.ts:183-195 | the gate passes iff no forbidden key occurs at any depth, and otherwise names one that does |
| Redaction.GateKeys | frontend/lib/note-vault.ts:182-195 | the gate passes iff none of the nine named keys occurs |
| Redaction.RedactionHides | frontend/lib/note-vault.ts:196-209 | trees that differ only under sensitive keys redact to the same tree, and, without `__proto__` keys, only such trees do |
| Redaction.RedactedField | frontend/lib/note-vault.ts:196-209 | the values of eleven named keys become the mask, all others are redacted in turn |
| Redaction.RedactionKeepsShape | frontend/lib/note-vault.ts:196-209 | the redacted tree differs from the tree only under sensitive keys iff there is no `__proto__` key outside them |
| Redaction.RedactionIdempotent | frontend/lib/note-vault.ts:196-209 | redacting again changes nothing |
| Redaction.RedactionAfterGate | frontend/lib/note-vault.ts:183-209 | for a tree the gate lets pass, only values under `wrapped_key` and `ciphertext` are masked |
| Base64.DecodeEncode | frontend/lib/note-vault.ts:19-29 | decoding an encoding gives the bytes back, for every length (section 4 of RFC 4648) |
| Base64.StandardGroups | frontend/lib/note-vault.ts:19-29 | the alphabet of table 1 of RFC 4648, and four values holding the 24 bits of three bytes |
| Base64.EncodeGroup | frontend/lib/note-vault.ts:19-23 | three bytes at a time are encoded on their own |
| Base64.TestVectors | frontend/lib/note-vault.ts:19-23 | the first test vectors of section 10 of RFC 4648, with and without padding |
| Base64.DecodeExact | frontend/lib/note-vault.ts:24-29 | decoding fails iff, white space and padding removed, a character is foreign or a single one is left over |
| Base64.ToB64 | frontend/lib/note-vault.ts:19-23 | the byte loop and btoa compute the encoding |
| Base64.FromB64 | frontend/lib/note-vault.ts:24-29 | atob and the character loop compute the decoding, or fail with it |
| VaultKeys.WrapBlob | frontend/lib/note-vault.ts:212-217 | the buffer copies lay out the IV and then the ciphertext |
| VaultKeys.UnwrapWrap | frontend/lib/note-vault.ts:212-221 | unwrapping gives the master key back through base64 and the 12-byte split, for every correct cipher |
| VaultKeys.RecoveryGivesKeyBack | frontend/lib/note-vault.ts:223-286 | so does each of the four wrappers with its own secret, salt and derivation |
| VaultKeys.WrapperExact | frontend/lib/note-vault.ts:212-286 | each wrapper derives its key under its own label, or by 310000 iterations, and stores the salt and, in one text, the vector and the sealed key |
| VaultKeys.VaultRoundTrip | frontend/lib/note-vault.ts:146-153 | decrypting an encrypted vault gives it back |
| VaultKeys.EnvelopeExact | frontend/lib/note-vault.ts:146-153 | the envelope is the vector and the vault's text sealed under the key and bound to the additional data, and opens with no other that the cipher refuses |
| VaultKeys.BrokenTextRefused | frontend/lib/note-vault.ts:24-29 | nothing is unwrapped or decrypted from texts that are not base64 |
| VaultKeys.RecoverVault | frontend/lib/note-vault.ts:146-286 | a vault can be read with the key recovered through any wrapper |
| VoucherCodec.ParseSerialize | apps/api/src/x402.ts:50-89 | parsing a serialized voucher gives it back, for all integers and every safe sequence number |
| VoucherCodec.HeaderText | apps/api/src/x402.ts:50-62 | the header is base64 of an object with the eight named members in order, integers in quotes but for the sequence number |
| VoucherCodec.ParsedFields | apps/api/src/x402.ts:64-89 | an accepted header is not empty and has every member under its own name, each read as the voucher's |
| VoucherCodec.SerializeInjective | apps/api/src/x402.ts:50-62 | different vouchers have different headers |

## Modelling decisions

- Sorting in the netting matcher is any function returning an ascending permutation, so nothing depends
  on the order of ties. The comparators in the source never return zero; that an engine's sort still
  returns an ascending permutation for them is taken for granted.
- Committee steps run from one `await` to the next. A node call returns a value or nothing. Clock
  readings, random ids and node answers are parameters of the steps.
- Opening a share is refused, gives a value that counts as no share, or gives a share that is two integers
  or other text; what text the conversion to integers takes is not spelled out.
- A proof job becoming ready and a nullifier being spent are steps of the environment. Posting an intent
  is two steps, inserting the row and reaching the committee; each of the settler's two routing lookups and
  its enqueue are steps of their own. Recording a submission and linking its session may come any time after
  the committee accepted it.
- In the settlement steps sessions hold each id's direction but no amounts, so a signed batch may join any
  two different ids of its session whose directions meet, each at most once. A hash stands for one body, so
  all posts of it carry shares or none, and have one direction.
- The settler model lets every poll read its own routing and notes for every match; `PollIsARun` is about polls whose readings are those of one state of the intents table.
- Ids that the source derives by hashing their parts are modelled by the parts themselves.

## Left out

- Session rows, signature rows, state transitions, activity logs and timestamps of the tables; column types and foreign keys other than the quote of a fill, the intent of a quote, the fill of a settlement and the partner of a matched intent.
- computeBatchHash, signature checks on batches and the endpoint that verifies them; signing is an abstract function.
- Sealing of shares, AES-GCM, HKDF, PBKDF2 and Ed25519: abstract functions, assumed only to open what they closed.
- Restarts of the committee's process in the session protocol, among them the one an exception out of a timed round can cause; the settlement steps include restarts.
- Node answers without the fields they promise, and ids that JavaScript objects treat specially.
- Shamir splits of degree above one: the committee only ever uses two-of-n. Randomness of the coefficient, and so secrecy, is not modelled.
- Shamir.PrimeSeparates: the primality of the field order is a hypothesis; for the three nodes the services run, ThreeNodesSeparate needs none.
- VoucherCodec.ParseSerialize: the platform's base64, UTF-8 and number readers are abstract and only assumed right on what the serializer writes; what they do with other headers is not modelled.
- JSON numbers are kept as text; floating point, lone surrogates, the order of integer-like keys and the UTF-16 order of characters beyond the basic plane are not modelled.
- Settlement.Store.HandleSettle: each handler is one step, though it awaits the database between its checks.
- Database errors, among them the nullifier lookup that answers "not spent" when its query fails.
- Matched amounts are integers rather than their decimal text; a settler job's batch hash and signatures, copies from its batch, are not in the model.
- Expiry of intents and quotes: the handlers do not check it either.
- evaluateRecoveryPolicy, the recovery file and the EVM wrapper, checkX402, view-key storage, authentication, wallets, servers, workers, contracts, circuits and the user interface: I/O, or members with little to prove.
