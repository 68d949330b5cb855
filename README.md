# ZeepinChain governance and its supporting cores, modelled in Dafny

This project models the governance native contract of ZeepinChain and proves
properties of the model. The contract elects consensus peers:

- candidates register with an initial stake (InitPos);
- an administrator approves them;
- voters deposit positions for peers;
- at each commit the peers are ranked by stake, and the top K become the consensus set.

Every handler is modelled as a method or function that either returns the new
store or fails. Because a failure leaves the caller's store untouched, a
failed call never makes a partial write.

The store holds:

- a peer pool per view;
- a vote record per (peer, voter) pair, with six position fields;
- a total stake per address;
- a penalty stake per black-listed peer;
- the black list, the peer indexes and the candidate index;
- the global parameters, the configuration, the split curve and the governance view.

Beside the contract, the project also models:

- the reward-unbinding schedule, as stated by its tests;
- the native-contract dispatcher (handler registry, and `Invoke`, which saves and restores the execution fields);
- the embedded VM's stack and push-data opcodes;
- the argument guards of the embedded syscalls;
- the emission of embedded-call parameters into VM instructions.

Modules:

| file | module | models |
|---|---|---|
| wrappers.dfy, ints.dfy | Wrappers, Ints | Option/Result types; uint32 and uint64 wrap-around written out |
| codec.dfy | Codec | a concrete stand-in for the varuint, varbytes and address primitives, with round trips |
| params.dfy | GovernanceParams | the parameter records and their Serialize/Deserialize |
| unbind.dfy | Unbind | `CalcUnbindGala` over an abstract 18-rate schedule |
| gov_state.dfy | GovernanceState | the store, peer statuses and vote-record measures |
| method.go helpers | GovernanceMethod (method.dfy) | registerCandidate, voteForPeer, normalQuit, blackQuit, the four epoch transitions, the stake helpers |
| ranking.dfy | Ranking | the commit's ordering and its sort |
| commit.dfy, commit_dpos.dfy | Commit, CommitDpos | executeSplit's integer part, the settle loop, the election loops, executeCommitDpos |
| governance.dfy | GovernanceHandlers | the public handlers of governance.go |
| native_service.dfy | NativeDispatch | Register, Invoke and NativeCall |
| vm_stack.dfy | Simulator | the stack opcodes and opPushData/getPushData |
| validators.dfy | Validators | the validator guards and peekBlock |
| wasm_params.dfy | EmbeddedParams | buildEmbeddedParamInter and the tag conversion of marshalEmbeddedParams |

Go's iteration over a map is modelled in one of two ways:

- as a loop that picks any remaining key (`var k :| k in todo`);
- as an explicit order parameter that lists every key once (`IsOrder`).

In executeCommitDpos, each Go map iteration becomes such an order. The
lemmas show that the next view's pool, the peers' statuses and ranks, and
their vote records do not depend on it; for stakes and failure this is shown
only when no peer is Black (see Left out).

## Model

| member | source | states |
|---|---|---|
| GovernanceParams.StringsRoundTrip | smartcontract/service/native/governance/param.go:261-288 | a run of strings written one after another reads back as the same list, leaving the rest of the input |
| GovernanceParams.DecodeUints | smartcontract/service/native/governance/param.go:368-379 | a decoded run of varuints has the requested length, and no entry exceeds the bound |
| GovernanceParams.UintsRoundTrip | smartcontract/service/native/governance/param.go:334-342 | varuints within the bound read back unchanged |
| GovernanceParams.UintsRejectAbove | smartcontract/service/native/governance/param.go:376-378 | one entry above the bound makes the whole list fail to decode |
| GovernanceParams.DecodeRegisterCandidate | smartcontract/service/native/governance/param.go:75-108 | a decoded RegisterCandidateParam has InitPos ≤ MaxInt64 and KeyNo ≤ MaxUint32 |
| GovernanceParams.RegisterCandidateRoundTrip | smartcontract/service/native/governance/param.go:56-108 | Deserialize(Serialize(p)) = p when InitPos fits in int64 |
| GovernanceParams.RegisterCandidateRejectsLargeInitPos | smartcontract/service/native/governance/param.go:56-108 | an InitPos above int64 is written by Serialize but refused by Deserialize |
| GovernanceParams.DecodePeerAddress | smartcontract/service/native/governance/param.go:125-137 | a decoded public key is a well-formed string, and it, its length prefix, the 20-byte address and the rest all come from the input |
| GovernanceParams.PeerAddressRoundTrip | smartcontract/service/native/governance/param.go:115-137 | the (public key, address) parameters of UnRegisterCandidate, GetVoteInfo and QuitNode round-trip |
| GovernanceParams.DecodeBlackNode | smartcontract/service/native/governance/param.go:273-288 | a decoded BlackNodeParam is a list of fewer than 2^64 well-formed strings, and reading it consumes input |
| GovernanceParams.BlackNodeRoundTrip | smartcontract/service/native/governance/param.go:261-288 | a BlackNodeParam round-trips for any count; there is no 1024 cap |
| GovernanceParams.EncodePosList | smartcontract/service/native/governance/param.go:316-343 | Serialize fails exactly when there are more than 1024 entries or the two lists differ in length |
| GovernanceParams.DecodePosList | smartcontract/service/native/governance/param.go:345-387 | a decoded VoteForPeerParam/WithdrawParam has at most 1024 entries, lists of equal length, and amounts ≤ MaxInt64 |
| GovernanceParams.PosListRoundTrip | smartcontract/service/native/governance/param.go:395-466 | in-bounds vote and withdraw lists with amounts in int64 round-trip |
| GovernanceParams.PosListRejectsLargeAmount | smartcontract/service/native/governance/param.go:370-372 | an amount above MaxInt64 is written by Serialize but refused by Deserialize |
| GovernanceParams.PosListRejectsBadShape | smartcontract/service/native/governance/param.go:353-384 | lists of unequal length, or with more than 1024 entries, never decode |
| GovernanceParams.ConfigurationFields | smartcontract/service/native/governance/param.go:479-505 | the eight Configuration fields in wire order |
| GovernanceParams.EncodeConfiguration | smartcontract/service/native/governance/param.go:479-505 | a Configuration is written as eight varuints, between 8 and 72 bytes |
| GovernanceParams.DecodeConfiguration | smartcontract/service/native/governance/param.go:507-573 | a decoded Configuration has every field within uint32 |
| GovernanceParams.ConfigurationRoundTrip | smartcontract/service/native/governance/param.go:479-573 | Configuration round-trips |
| GovernanceParams.ConfigurationRejectsWide | smartcontract/service/native/governance/param.go:539-562 | any field above MaxUint32 makes the decode fail, although all eight were read |
| GovernanceParams.GlobalParamFields | smartcontract/service/native/governance/param.go:586-612 | the eight GlobalParam fields in declaration order |
| GovernanceParams.EncodeGlobalParam | smartcontract/service/native/governance/param.go:586-612 | a GlobalParam is written as eight varuints, between 8 and 72 bytes |
| GovernanceParams.DecodeGlobalParam | smartcontract/service/native/governance/param.go:614-677 | a decoded GlobalParam has its six uint32 fields ≤ MaxUint32; the MinInitStake bound is MaxUint64, so that check can never fire |
| GovernanceParams.GlobalParamRoundTrip | smartcontract/service/native/governance/param.go:586-677 | GlobalParam round-trips |
| GovernanceParams.EncodeSplitCurve | smartcontract/service/native/governance/param.go:683-696 | Serialize succeeds exactly for a curve of 101 entries |
| GovernanceParams.DecodeSplitCurve | smartcontract/service/native/governance/param.go:698-716 | a decoded curve has every entry within uint32 |
| GovernanceParams.SplitCurveRoundTrip | smartcontract/service/native/governance/param.go:683-716 | a 101-entry curve round-trips |
| GovernanceParams.SplitCurveAcceptsAnyLength | smartcontract/service/native/governance/param.go:698-716 | Deserialize accepts a curve of any length that Serialize could not have written |
| Unbind.CalcUnbind | smartcontract/service/native/utils/unbind_gala_test.go:45-79 | nothing unbinds over an empty interval or for a zero stake |
| Unbind.Additive | smartcontract/service/native/utils/unbind_gala_test.go:52-64 | accrual over [t1,t3) is accrual over [t1,t2) plus over [t2,t3), for any t2 between |
| Unbind.Cumulative | smartcontract/service/native/utils/unbind_gala_test.go:53-64 | the test's identity: with a uint32 end point tstart + delta and their midpoint, the two halves add up to the whole |
| Unbind.FirstTicks | smartcontract/service/native/utils/unbind_gala_test.go:45-50 | one tick yields rate 0; one interval yields rate 0 times the interval; one tick more adds rate 1 |
| Unbind.WithinInterval | smartcontract/service/native/utils/unbind_gala_test.go:45-50 | inside the i-th interval accrual is the tick count times the i-th rate |
| Unbind.NothingAfterDeadline | smartcontract/service/native/utils/unbind_gala_test.go:66-79 | nothing accrues after the last interval |
| Unbind.Saturation | smartcontract/service/native/utils/unbind_gala_test.go:66-79 | from 0 to any time past the deadline, stake 1 unbinds exactly the total supply |
| Unbind.TotalSupplyReached | smartcontract/service/native/utils/unbind_gala_test.go:66-79 | the four end points of TestTotalGALA (deadline, 18 and 108 intervals, MaxUint32) all give the total supply |
| GovernanceState.PutVote | smartcontract/service/native/governance/method.go:294 | writing a vote record changes that record and no other |
| GovernanceState.SumOverRemove | smartcontract/service/native/governance/method.go:275-298 | a sum over a peer's records splits off any one record |
| GovernanceState.SumOverFrame | smartcontract/service/native/governance/method.go:275-298 | sums over the same voters agree when every record measures the same |
| GovernanceMethod.EpochStep | smartcontract/service/native/governance/method.go:383-541 | one record's transition fails exactly when FreezePos ≠ 0 (from consensus) or ConsensusPos ≠ 0 (otherwise); it keeps the six-field sum and the voting sum, zeroes NewPos and WithdrawPos, moves WithdrawPos to WithdrawFreezePos and WithdrawFreezePos into WithdrawUnfreezePos, and puts FreezePos = 0 going to consensus, ConsensusPos = 0 otherwise |
| GovernanceMethod.EpochOutcome | smartcontract/service/native/governance/method.go:383-541 | a transition over a peer fails exactly when some record's step fails; otherwise every record takes its step and no voter is added or lost |
| GovernanceMethod.EpochTransition | smartcontract/service/native/governance/method.go:383-541 | the loop over the peer's records computes EpochOutcome |
| GovernanceMethod.EpochTransitionConserves | smartcontract/service/native/governance/method.go:383-541 | over a whole peer, a transition keeps the total of all positions and the total of voting positions |
| GovernanceMethod.NormalQuitRecordReleases | smartcontract/service/native/governance/method.go:283-293 | a released record has no locked positions; its total grows by exactly the InitPos credited to the owner, all of it in WithdrawUnfreezePos |
| GovernanceMethod.NormalQuit | smartcontract/service/native/governance/method.go:263-311 | the loop releases every record of the peer and credits InitPos to the owner, creating the owner's record if it is missing |
| GovernanceMethod.NormalQuitConserves | smartcontract/service/native/governance/method.go:263-311 | after normalQuit, no record has locked positions, and the peer's total grows by exactly InitPos |
| GovernanceMethod.DepositTotalStake | smartcontract/service/native/governance/method.go:543-568 | Stake grows by the amount and TimeOffset becomes now; other addresses and the rest of the store are unchanged |
| GovernanceMethod.WithdrawTotalStake | smartcontract/service/native/governance/method.go:570-597 | fails exactly when Stake < amount; otherwise Stake shrinks by the amount, TimeOffset becomes now, and nothing else changes |
| GovernanceMethod.DepositWithdrawInverse | smartcontract/service/native/governance/method.go:543-597 | withdrawing what was just deposited succeeds and gives the stake back |
| GovernanceMethod.DepositPenaltyStake | smartcontract/service/native/governance/method.go:599-624 | InitPos grows by the forfeited InitPos and VotePos by the forfeited vote positions; Amount grows by the reward unbound so far and TimeOffset becomes now |
| GovernanceMethod.WithdrawPenaltyStake | smartcontract/service/native/governance/method.go:626-656 | all forfeited ZPT is paid out, the GALA paid is Amount plus the newly unbound reward, and the record is deleted |
| GovernanceMethod.UnboundReward | smartcontract/service/native/governance/method.go:548-554 | the reward paid on a stake change is nothing for a zero stake or when no time has passed since TimeOffset |
| GovernanceMethod.StakeRewardRestarts | smartcontract/service/native/governance/method.go:543-597 | after a deposit, or a withdrawal that succeeds, the address has no unbound reward yet: its clock restarts at now |
| GovernanceMethod.RewardAcrossDeposit | smartcontract/service/native/governance/method.go:543-568 | a deposit at `mid` pays the reward up to `mid` and restarts the clock at `mid`; that payment plus the next payment at now equals the old stake's reward over the whole span plus the deposited amount's reward from `mid`, so restarting loses and duplicates nothing |
| GovernanceMethod.BlackPenaltyBounds | smartcontract/service/native/governance/method.go:353-354 | the penalty is the ceiling of Penalty% of the locked positions, and is at most those positions when Penalty ≤ 100 |
| GovernanceMethod.BlackQuitRecord | smartcontract/service/native/governance/method.go:353-360 | a black-listed peer's record is left with no locked positions and at least its old WithdrawUnfreezePos |
| GovernanceMethod.BlackQuitRecordSettles | smartcontract/service/native/governance/method.go:353-360 | a settled record has no locked positions, and what it keeps plus the penalty is its old total |
| GovernanceMethod.PenaliseVoters | smartcontract/service/native/governance/method.go:344-373 | the voter loop fails exactly when some voter's stake is below its penalty; otherwise every record is settled, every voter's stake loses its penalty, and the sum of penalties is returned |
| GovernanceMethod.BlackQuitOutcome | smartcontract/service/native/governance/method.go:313-381 | blackQuit fails exactly when the owner's stake is below InitPos or some voter's stake is below its penalty; otherwise only votes, total stakes and penalty stakes change, only this peer's records change, and they are settled |
| GovernanceMethod.BlackQuit | smartcontract/service/native/governance/method.go:313-381 | the method computes BlackQuitOutcome |
| GovernanceMethod.BlackQuitConserves | smartcontract/service/native/governance/method.go:344-373 | what the voters keep plus the penalties equals what they had |
| GovernanceMethod.UnvoteRecord | smartcontract/service/native/governance/governance.go:894-936 | see the Findings table: the corrected unvote of one record fails exactly when pos exceeds NewPos plus ConsensusPos (for a Consensus peer) or plus FreezePos (otherwise) |
| GovernanceMethod.UnvoteConserves | smartcontract/service/native/governance/governance.go:894-936 | a corrected unvote moves exactly pos out of the voting positions and keeps the record's total |
| GovernanceMethod.UnvoteRecordAsWritten | smartcontract/service/native/governance/governance.go:894-936 | the unvote as written fails on exactly the same inputs as the corrected one |
| GovernanceMethod.UnvoteAsWrittenCreates | smartcontract/service/native/governance/governance.go:894-930 | as written, an unvote beyond NewPos grows the record's total by the old NewPos |
| GovernanceMethod.UnvoteAsWrittenExample | smartcontract/service/native/governance/governance.go:894-906 | for 5 new and 10 consensus positions, unvoting 8 gives a total of 20 as written, against 15 corrected |
| GovernanceMethod.TallyStep | smartcontract/service/native/governance/method.go:199-228 | one vote or unvote entry fails with NotFound on an unknown peer and with BadStatus on a status that cannot be voted for; a step that succeeds keeps the pool's keys; an unvote applies the corrected UnvoteRecord of the Findings table (see Left out) |
| GovernanceMethod.Tallied | smartcontract/service/native/governance/method.go:198-228 | a loop that succeeds names only peers of the pool and keeps the pool's keys; an unvote loop leaves the deposited total where it started |
| GovernanceMethod.ApplyVotes | smartcontract/service/native/governance/method.go:198-233 | the vote loop computes the fold of its entries in order, the first failure failing the call |
| GovernanceMethod.TalliedPoolFrame | smartcontract/service/native/governance/method.go:198-234 | a vote loop changes nothing in the pool except the TotalPos of the listed peers |
| GovernanceMethod.TalliedStoreFrame | smartcontract/service/native/governance/method.go:198-234 | a vote loop changes no record except the voter's records for the listed peers, and nothing outside the records; an unvote loop leaves the total unchanged |
| GovernanceMethod.TalliedTotals | smartcontract/service/native/governance/method.go:219-221 | after a successful loop each listed peer's TotalPos has moved by the sum of its entries (in wrapped uint64), whatever their order |
| GovernanceMethod.VotedRecords | smartcontract/service/native/governance/method.go:219 | each listed peer's NewPos for the voter grows by the sum of its entries |
| GovernanceMethod.UnvoteTwice | smartcontract/service/native/governance/governance.go:894-936 | two corrected unvotes of one record in a row are one unvote of their sum |
| GovernanceMethod.UnvotedRecords | smartcontract/service/native/governance/governance.go:877-943 | after an unvote loop that succeeds, each listed peer's record for the voter is the corrected unvote of the sum of that peer's entries, under the peer's unchanged status |
| GovernanceMethod.VotedTotal | smartcontract/service/native/governance/method.go:220 | the deposited total is the uint64 sum of all amounts |
| GovernanceMethod.VoteAccepted | smartcontract/service/native/governance/method.go:203-226 | when no bound or TotalPos exceeds int64 and no amount exceeds MaxInt64, voting fails exactly when some entry names a missing or non-votable peer, or a peer's summed amounts push its TotalPos past PosLimit × InitPos; reaching exactly the limit is accepted |
| GovernanceMethod.RegisterGuards | smartcontract/service/native/governance/method.go:66-106 | the guards pass exactly with the owner's witness, a current pool, a pubkey that is not black-listed and a pubkey not already in the pool |
| GovernanceMethod.RegisterCandidate | smartcontract/service/native/governance/method.go:52-162 | see the Findings table: the corrected registerCandidate succeeds exactly when the guards pass and InitPos ≥ MinInitStake, adding a RegisterCandidate item with TotalPos 0 and depositing InitPos |
| GovernanceMethod.RegisterCandidateAsWritten | smartcontract/service/native/governance/method.go:112-115 | as written, the outcome depends only on the guards |
| GovernanceMethod.RegisterAsWrittenIgnoresLowStake | smartcontract/service/native/governance/method.go:112-115 | a stake below MinInitStake returns success without registering anything, where the corrected version fails |
| GovernanceMethod.VoteForPeer | smartcontract/service/native/governance/method.go:164-261 | fails without the voter's witness or a pool; otherwise it fails exactly when the entry loop fails, and on success stores the new pool and records and deposits the total |
| Ranking.KeyGreaterIrreflexive | smartcontract/service/native/governance/method.go:733-740 | no key is greater than itself under Go's string comparison |
| Ranking.KeyGreaterAsymmetric | smartcontract/service/native/governance/method.go:733-740 | two keys are never greater than each other |
| Ranking.KeyGreaterTransitive | smartcontract/service/native/governance/method.go:733-740 | the comparison is transitive |
| Ranking.KeyGreaterTotal | smartcontract/service/native/governance/method.go:733-740 | of two distinct keys one is greater |
| Ranking.BetterStrict | smartcontract/service/native/governance/method.go:733-740 | the commit's comparison (stake descending, then pubkey descending) is a strict total order on peers with distinct keys |
| Ranking.Insert | smartcontract/service/native/governance/method.go:733-740 | inserting adds exactly one peer to the list's multiset |
| Ranking.InsertSorted | smartcontract/service/native/governance/method.go:733-740 | inserting a peer whose key is absent keeps the list strictly ordered |
| Ranking.Ranked | smartcontract/service/native/governance/method.go:733-740 | the sort returns a permutation of its input |
| Ranking.RankedSorted | smartcontract/service/native/governance/method.go:733-740 | for peers with distinct keys the sorted list is strictly ordered and keeps the keys distinct |
| Ranking.SortedUnique | smartcontract/service/native/governance/method.go:733-740 | two strictly ordered lists holding the same peers are equal, so the stable sort's result depends only on which peers there are |
| Ranking.CountBetterPermutation | smartcontract/service/native/governance/method.go:743-784 | how many peers rank before a given one depends only on the multiset of peers |
| Ranking.PositionIsCount | smartcontract/service/native/governance/method.go:743-784 | in a strictly ordered list, the peer at index i has exactly i peers ranking before it |
| Ranking.RankOfPosition | smartcontract/service/native/governance/method.go:743-784 | the i-th peer of the ranking is among the top k exactly when fewer than k peers of the input rank before it |
| Commit.ActiveStakesMembers | smartcontract/service/native/governance/method.go:719-726 | the collected list holds exactly the Candidate and Consensus peers, with stake TotalPos + InitPos in uint64 |
| Commit.ActiveStakesPermutation | smartcontract/service/native/governance/method.go:688-727 | any two iteration orders collect the same peers |
| Commit.RankingIndependent | smartcontract/service/native/governance/method.go:688-740 | the ranking does not depend on the map's iteration order |
| Commit.CollectActive | smartcontract/service/native/governance/method.go:826-836 | the collecting loop builds the list of active peers in iteration order |
| Commit.SumStakes | smartcontract/service/native/governance/method.go:855-858 | the summing loop computes the uint64 sum of the stakes in a range |
| Commit.CurveTier | smartcontract/service/native/governance/method.go:864-874 | the curve loop fails exactly when the curve fails for a top-K peer; otherwise it gives each top-K peer its curve value and the uint64 sum |
| Commit.CandidateTier | smartcontract/service/native/governance/method.go:897-944 | the candidate loop builds one share per peer below the top K, weighted by its stake from height 720000 on and zero before |
| Commit.CurveSharesAt | smartcontract/service/native/governance/method.go:865-871 | the i-th consensus payee is the i-th ranked peer's address, weighted by its curve value |
| Commit.CandidateSharesAt | smartcontract/service/native/governance/method.go:906-944 | before height 720000 every candidate's weight is zero; from then on it is the candidate's stake |
| Commit.SplitOf | smartcontract/service/native/governance/method.go:855-944 | a split that is paid has exactly K consensus payees and a non-zero curve total; a candidate tier that is paid has one payee per peer below the top K |
| Commit.SplitShares | smartcontract/service/native/governance/method.go:855-944 | the shares of every ranked peer in each tier, and each tier's total |
| Commit.SplitTiers | smartcontract/service/native/governance/method.go:864-944 | the tier loops compute SplitOf |
| Commit.ExecuteSplit | smartcontract/service/native/governance/method.go:813-947 | K = 0, or fewer ranked peers than K, panics; a top-K sum below K pays nothing; otherwise the result is SplitOf |
| Commit.SettledInvariant | smartcontract/service/native/governance/method.go:688-718 | the settle loop, in any order without repeats, fails only if some peer is Black; on success the pool loses its Quiting, QuitCandidate and Black peers and has QuitConsensus turned into Quiting, quitting peers' records are released by normalQuit and Black peers' records settled by blackQuit, nothing but records, stakes and penalty stakes changes, and stakes are untouched when no peer was Black |
| Commit.SettlePool | smartcontract/service/native/governance/method.go:688-727 | the settle loop computes the settle fold and, on success, the collected active peers |
| Commit.SettleOne | smartcontract/service/native/governance/method.go:690-717 | one peer of the settle loop: normalQuit or blackQuit and delete, or QuitConsensus turned into Quiting |
| Commit.SettledStops | smartcontract/service/native/governance/method.go:688-718 | once the settle loop fails it stays failed |
| Commit.ElectedInvariant | smartcontract/service/native/governance/method.go:743-784 | the election loops succeed exactly when every ranked peer can make its epoch transition, and then give the top K Consensus and the rest Candidate, with each one's records transitioned, the pool's keys kept and nothing outside the records changed |
| Commit.ElectPeers | smartcontract/service/native/governance/method.go:743-784 | the two election loops compute the election fold |
| Commit.ElectOne | smartcontract/service/native/governance/method.go:744-761 | one election step: look the peer up, run its transition, set its status |
| Commit.ElectedStops | smartcontract/service/native/governance/method.go:743-784 | once an election step fails the loops stay failed |
| CommitDpos.CommitOutcome | smartcontract/service/native/governance/method.go:658-811 | the commit fails with NotFound without a governance view or without the previous view's pool; on success both views' pools existed and the new governance view is View + 1 with the current height and transaction hash |
| CommitDpos.ExecuteCommitDpos | smartcontract/service/native/governance/method.go:658-811 | executeCommitDpos fails exactly when the commit outcome fails, and otherwise returns it; success needs both views' pools and a split that does not fail |
| CommitDpos.RankIndependent | smartcontract/service/native/governance/method.go:688-740 | a peer's rank does not depend on the iteration order |
| CommitDpos.ActivePlace | smartcontract/service/native/governance/method.go:719-740 | every active peer has a place in the ranking, holding its stake |
| CommitDpos.PlaceActive | smartcontract/service/native/governance/method.go:743-784 | every place of the ranking holds an active peer, and places below K are exactly the peers of rank below K |
| CommitDpos.CommitPool | smartcontract/service/native/governance/method.go:688-785 | the next view's pool drops the leaving peers, makes each active peer Consensus iff its rank is below K (Candidate otherwise), and keeps every other staying peer, with QuitConsensus turned into Quiting |
| CommitDpos.CommitBallots | smartcontract/service/native/governance/method.go:749-781 | an active peer's records go through the transition its old and new roles select |
| CommitDpos.CommitSettledBallots | smartcontract/service/native/governance/method.go:688-718 | a peer that is not active has its records as the settle loop left them |
| CommitDpos.CommitFrame | smartcontract/service/native/governance/method.go:785-808 | the next view's pool is written, the view before the current one is deleted, View advances by exactly one with the current height, and stakes change only when a Black peer was settled |
| CommitDpos.CommitFails | smartcontract/service/native/governance/method.go:728-730 | fewer than K active peers fails the commit; with no Black peer it succeeds exactly when every active peer can make its transition |
| CommitDpos.TransitionsAgree | smartcontract/service/native/governance/method.go:743-784 | the election's own success condition agrees with the rank-based one |
| GovernanceHandlers.CountActive | smartcontract/service/native/governance/governance.go:484-489 | the counting loop returns the number of Candidate and Consensus peers |
| GovernanceHandlers.ActiveCountMatches | smartcontract/service/native/governance/method.go:719-730 | the commit's peer list has that same number of entries |
| GovernanceHandlers.MaxIndexIsMax | smartcontract/service/native/governance/governance.go:208-211 | maxId is the largest genesis index, or 0 |
| GovernanceHandlers.GenesisPoolShape | smartcontract/service/native/governance/governance.go:217-224 | the genesis pool holds exactly the genesis pubkeys, each Consensus with TotalPos 0 and its own index, address and InitPos |
| GovernanceHandlers.GenesisIndexStored | smartcontract/service/native/governance/governance.go:230-235 | every genesis peer's index is stored, and other indexes are kept |
| GovernanceHandlers.GenesisDepositsStake | smartcontract/service/native/governance/governance.go:237-241 | each address's stake grows by the InitPos of the genesis peers it owns, and nothing else in the store changes |
| GovernanceHandlers.GenesisStore | smartcontract/service/native/governance/governance.go:186-301 | InitConfig's store: pools at views 0 and 1, View 1, candidate index maxId + 1 (uint32), a 101-entry split curve, and the genesis deposits |
| GovernanceHandlers.CollectGenesis | smartcontract/service/native/governance/governance.go:202-242 | the genesis loop computes maxId, the pool, the indexes and the deposits |
| GovernanceHandlers.InitConfig | smartcontract/service/native/governance/governance.go:160-310 | fails exactly when a governance view exists or the VBFT configuration is refused; otherwise stores GenesisStore |
| GovernanceHandlers.Approved | smartcontract/service/native/governance/governance.go:509-549 | the approved item is an active Candidate; below height 619000 its TotalPos is reset to 0, from then on it is kept; its index is the stored one, else the candidate index; no other field changes |
| GovernanceHandlers.ApprovedStore | smartcontract/service/native/governance/governance.go:509-551 | the approved peer becomes Candidate with the stored or next index (which is then incremented), the active count grows by one, and nothing else changes |
| GovernanceHandlers.ApproveCandidate | smartcontract/service/native/governance/governance.go:445-558 | with the admin's witness and a pool, succeeds exactly when fewer than CandidateNum peers are active, the peer exists, InitPos ≥ MinInitStake and the status is RegisterCandidate; the active count then stays at most CandidateNum |
| GovernanceHandlers.UnRegisterCandidate | smartcontract/service/native/governance/governance.go:377-441 | succeeds exactly when the owner signed and the peer is a RegisterCandidate peer of that owner; it sets QuitCandidate and overwrites the owner's record with zeros, keeping every other record and all stakes |
| GovernanceHandlers.RejectCandidate | smartcontract/service/native/governance/governance.go:562-624 | succeeds exactly for the admin on a RegisterCandidate peer; it sets QuitCandidate and leaves the records and stakes as they were |
| GovernanceHandlers.QuitNode | smartcontract/service/native/governance/governance.go:757-827 | succeeds exactly for the owner of an active peer while more than K peers are active; Consensus becomes QuitConsensus and Candidate becomes Quiting, and at least K active peers remain |
| GovernanceHandlers.MarkBlack | smartcontract/service/native/governance/governance.go:660-697 | every listed peer becomes Black and every other one is unchanged |
| GovernanceHandlers.ListBlack | smartcontract/service/native/governance/governance.go:659-698 | the loop fails exactly on an unknown peer, and otherwise marks, black-lists and reports whether a Consensus peer was hit |
| GovernanceHandlers.Blacklisted | smartcontract/service/native/governance/governance.go:659-698 | every listed peer is Black and on the black list, and only the pool and black list change |
| GovernanceHandlers.BlackNode | smartcontract/service/native/governance/governance.go:629-712 | fails without the admin or on an unknown peer; runs the commit exactly when a listed peer was Consensus |
| GovernanceHandlers.WhiteNode | smartcontract/service/native/governance/governance.go:715-753 | succeeds exactly for the admin on a black-listed peer, and removes only that entry |
| GovernanceHandlers.BlackThenWhite | smartcontract/service/native/governance/governance.go:629-753 | white-listing a peer just black-listed restores the black list |
| GovernanceHandlers.UnVoteForPeer | smartcontract/service/native/governance/governance.go:848-951 | fails exactly when the unvote loop fails; keeps total stakes, moves each listed peer's TotalPos down by its sum (wrapped), and changes no other record; each record follows the corrected UnvoteRecord of the Findings table (see Left out) |
| GovernanceHandlers.SumVoting | smartcontract/service/native/governance/governance.go:1004-1017 | the loop computes the uint64 sum of ConsensusPos + FreezePos + NewPos over the peer's records |
| GovernanceHandlers.CheckVoteInfo | smartcontract/service/native/governance/governance.go:953-1032 | succeeds exactly for the admin on a votable peer whose recomputed total is at most PosLimit × InitPos, and then stores that total as TotalPos |
| GovernanceHandlers.WithdrawStep | smartcontract/service/native/governance/governance.go:1061-1078 | one entry fails exactly when WithdrawUnfreezePos < pos, otherwise lowers it by pos, deleting a record left all zero |
| GovernanceHandlers.WithdrawnFrame | smartcontract/service/native/governance/governance.go:1052-1079 | the withdraw loop changes only vote records, only the listed peers' and only the voter's own |
| GovernanceHandlers.WithdrawEntries | smartcontract/service/native/governance/governance.go:1052-1079 | the entry loop computes the withdraw fold |
| GovernanceHandlers.WithdrawnRecords | smartcontract/service/native/governance/governance.go:1065-1069 | after the loop each listed peer's WithdrawUnfreezePos has dropped by the sum of its entries |
| GovernanceHandlers.WithdrawnSucceeds | smartcontract/service/native/governance/governance.go:1065-1066 | the loop succeeds when each peer's unfrozen positions cover its summed entries |
| GovernanceHandlers.WithdrawnClears | smartcontract/service/native/governance/governance.go:1075-1078 | every listed record left all zero is deleted |
| GovernanceHandlers.WithdrawnTotal | smartcontract/service/native/governance/governance.go:1069 | the total is the uint64 sum of all amounts |
| GovernanceHandlers.Withdraw | smartcontract/service/native/governance/governance.go:1035-1094 | fails without the voter's witness; with enough unfrozen positions it succeeds exactly when the stake covers the total; on success the stake drops by the total, each record by its sum, and zero records are deleted |
| GovernanceHandlers.WithdrawSucceedsIff | smartcontract/service/native/governance/governance.go:1065-1091 | with enough unfrozen positions everywhere, only the stake can fall short |
| GovernanceHandlers.WithdrawStake | smartcontract/service/native/governance/governance.go:1087-1091 | the stake drops by the uint64 total |
| GovernanceHandlers.WithdrawVotes | smartcontract/service/native/governance/governance.go:1065-1078 | each listed record loses its share, and zero records are deleted |
| GovernanceHandlers.CommitAllowed | smartcontract/service/native/governance/governance.go:1118-1125 | the administrator may always commit; when the current height is below the view's height, the uint32 difference wraps and anyone may commit once the wrapped difference reaches MaxBlockChangeView |
| GovernanceHandlers.CommitAllowedByAge | smartcontract/service/native/governance/governance.go:1119-1126 | with heights that only grow, anyone may commit exactly when MaxBlockChangeView blocks have passed |
| GovernanceHandlers.CommitNext | smartcontract/service/native/governance/governance.go:1097-1132 | fails without a view, or without the admin before the view is old enough; otherwise it is the commit with the stored K, and it records the current height |
| GovernanceHandlers.ConfigVerdict | smartcontract/service/native/governance/governance.go:1135-1212 | see the Findings table: the corrected checks accept exactly a sound configuration with K ≤ the active count, and panic exactly when C ≠ 0 and K = 0 |
| GovernanceHandlers.ConfigVerdictAsWritten | smartcontract/service/native/governance/governance.go:1179-1205 | the checks as written, in uint32, panic on the same inputs |
| GovernanceHandlers.ConfigVerdictAgrees | smartcontract/service/native/governance/governance.go:1179-1205 | when nothing wraps, the written and corrected checks agree |
| GovernanceHandlers.ConfigWrapAccepted | smartcontract/service/native/governance/governance.go:1188 | C = 2^31 with K = 9 passes the written checks although K < 2C + 1, and the corrected checks reject it |
| GovernanceHandlers.UpdateConfig | smartcontract/service/native/governance/governance.go:1135-1212 | fails without the admin or a pool; otherwise succeeds exactly when the corrected ConfigVerdict of the Findings table accepts (see Left out), and then stores the configuration |
| GovernanceHandlers.UpdateGlobalParam | smartcontract/service/native/governance/governance.go:1215-1266 | see the Findings table: succeeds exactly for the admin and a sound parameter set (A + B = 100, Yita ≠ 0, Penalty ≤ 100, PosLimit ≥ 1, CandidateNum ≥ 4K, a zero or large enough fee), and then stores it, with A, B ≤ 100 |
| GovernanceHandlers.UpdateGlobalParamAgrees | smartcontract/service/native/governance/governance.go:1242 | when A + B does not wrap, the written and corrected versions agree |
| GovernanceHandlers.UpdateGlobalParamAsWritten | smartcontract/service/native/governance/governance.go:1215-1266 | as written, a call that succeeds was signed by the administrator and stores exactly the new parameters |
| GovernanceHandlers.GlobalParamWrapAccepted | smartcontract/service/native/governance/governance.go:1242 | A = MaxUint32 and B = 101 pass the written check and store A > 100, while the corrected version rejects them |
| NativeDispatch.EncodeContract | smartcontract/service/native/native_service.go:110-116 | the serialized call holds the 20-byte address, the method name and the arguments, so it is at least 23 bytes longer than name and arguments together |
| NativeDispatch.DecodeContract | smartcontract/service/native/native_service.go:78-82 | a decoded call is one that can be serialized again |
| NativeDispatch.DecodeContractWithin | smartcontract/service/native/native_service.go:78-82 | a decoded call's method name, arguments and the 23 bytes of address and framing all come from the code |
| NativeDispatch.ContractRoundTrip | smartcontract/service/native/native_service.go:109-117 | the code NativeCall writes decodes to the same address, method and arguments |
| NativeDispatch.RegisteredMap | smartcontract/service/native/native_service.go:73-75 | registering adds exactly the registered names, the last registration of a name wins, and other names keep their handlers |
| NativeDispatch.NativeService.Register | smartcontract/service/native/native_service.go:73-75 | stores the handler under its name, replacing any earlier one, and changes no other field |
| NativeDispatch.NativeService.RunRegistration | smartcontract/service/native/native_service.go:87 | running a registration callback leaves the service map as the fold of its Register calls |
| NativeDispatch.NativeService.Invoke | smartcontract/service/native/native_service.go:77-107 | bad code or an unregistered address changes nothing; a missing method fails after registration; a failing handler leaves Input, Notifications and the pushed context in place; a successful one pops the context, pushes its notifications and restores Input and Notifications |
| NativeDispatch.NativeService.NativeCall | smartcontract/service/native/native_service.go:109-119 | sets Code to the serialized call and then behaves as Invoke on it |
| Simulator.ToAltStack | embed/simulator/func_stack_test.go:62-80 | the evaluation top moves onto the alt stack |
| Simulator.FromAltStack | embed/simulator/func_stack_test.go:82-99 | the alt top moves onto the evaluation stack |
| Simulator.DupFromAltStack | embed/simulator/func_stack_test.go:44-60 | a copy of the alt top is pushed on the evaluation stack |
| Simulator.AltRoundTrips | embed/simulator/func_stack_test.go:62-99 | moving to the alt stack and back, or back and forth, restores both stacks |
| Simulator.DupIsFromWithoutPop | embed/simulator/func_stack_test.go:44-99 | DupFromAltStack is FromAltStack without the pop |
| Simulator.XDrop | embed/simulator/func_stack_test.go:101-125 | pops n and removes the item at depth n, so the count drops by two |
| Simulator.XSwap | embed/simulator/func_stack_test.go:127-178 | pops n and swaps the top with the item at depth n |
| Simulator.XSwapInvolution | embed/simulator/func_stack_test.go:127-178 | XSwap by the same n twice restores the stack |
| Simulator.Depth | embed/simulator/func_stack_test.go:180-195 | pushes the previous count |
| Simulator.Drop | embed/simulator/func_stack_test.go:197-207 | removes the top |
| Simulator.Dup | embed/simulator/func_stack_test.go:209-230 | pushes a copy of the top |
| Simulator.Nip | embed/simulator/func_stack_test.go:232-249 | removes the second item |
| Simulator.Over | embed/simulator/func_stack_test.go:251-273 | pushes a copy of the second item |
| Simulator.Pick | embed/simulator/func_stack_test.go:275-301 | pops n and pushes a copy of the item at depth n; the count is unchanged |
| Simulator.Rot | embed/simulator/func_stack_test.go:303-331 | brings the third item to the top |
| Simulator.RotCycle | embed/simulator/func_stack_test.go:303-331 | three rotations restore the stack, and a rotation is a permutation |
| Simulator.Swap | embed/simulator/func_stack_test.go:333-355 | swaps the top two items |
| Simulator.SwapInvolution | embed/simulator/func_stack_test.go:333-355 | swapping twice restores the stack, and a swap is a permutation |
| Simulator.Tuck | embed/simulator/func_stack_test.go:357-384 | inserts a copy of the top below the second item |
| Simulator.Compositions | embed/simulator/func_stack_test.go:232-384 | Tuck is Over after Swap, and Nip is Drop after Swap |
| Simulator.IndexedSpecialCases | embed/simulator/func_stack_test.go:101-301 | XDrop 0 is Drop, Pick 0 is Dup, XSwap 1 is Swap and Pick 1 is Over |
| Simulator.StackTestVectors | embed/simulator/func_stack_test.go:101-384 | the before and after stacks of the tests |
| Simulator.ExecutionEngine.OpToAltStack | embed/simulator/func_stack_test.go:62-80 | the engine's stacks become ToAltStack of the old ones |
| Simulator.ExecutionEngine.OpFromAltStack | embed/simulator/func_stack_test.go:82-99 | the engine's stacks become FromAltStack of the old ones |
| Simulator.ExecutionEngine.OpToDupFromAltStack | embed/simulator/func_stack_test.go:44-60 | the engine's stacks become DupFromAltStack of the old ones |
| Simulator.ExecutionEngine.OpXDrop | embed/simulator/func_stack_test.go:101-125 | the evaluation stack becomes XDrop of the old one |
| Simulator.ExecutionEngine.OpXSwap | embed/simulator/func_stack_test.go:127-178 | the evaluation stack becomes XSwap of the old one |
| Simulator.ExecutionEngine.OpDepth | embed/simulator/func_stack_test.go:180-195 | the evaluation stack becomes Depth of the old one |
| Simulator.ExecutionEngine.OpDrop | embed/simulator/func_stack_test.go:197-207 | the evaluation stack becomes Drop of the old one |
| Simulator.ExecutionEngine.OpDup | embed/simulator/func_stack_test.go:209-230 | the evaluation stack becomes Dup of the old one |
| Simulator.ExecutionEngine.OpNip | embed/simulator/func_stack_test.go:232-249 | the evaluation stack becomes Nip of the old one |
| Simulator.ExecutionEngine.OpOver | embed/simulator/func_stack_test.go:251-273 | the evaluation stack becomes Over of the old one |
| Simulator.ExecutionEngine.OpPick | embed/simulator/func_stack_test.go:275-301 | the evaluation stack becomes Pick of the old one |
| Simulator.ExecutionEngine.OpRot | embed/simulator/func_stack_test.go:303-331 | the evaluation stack becomes Rot of the old one |
| Simulator.ExecutionEngine.OpSwap | embed/simulator/func_stack_test.go:333-355 | the evaluation stack becomes Swap of the old one |
| Simulator.ExecutionEngine.OpTuck | embed/simulator/func_stack_test.go:357-384 | the evaluation stack becomes Tuck of the old one |
| Simulator.Int8 | embed/simulator/func_pushdata.go:59-60 | the byte read as int8: in [-128, 128) and congruent to the byte mod 256 |
| Simulator.ReadBytes | embed/simulator/func_pushdata.go:46 | reading n bytes gives exactly code[pos..pos+n] and advances by n, or is a short read |
| Simulator.GetPushData | embed/simulator/func_pushdata.go:43-64 | PUSHBYTES1-75 read as many bytes as the opcode says; PUSH0 gives 0; PUSH1-16 give 1-16; PUSHM1 gives -1; any other opcode gives nothing and reads nothing |
| Simulator.PushBytesRoundTrip | embed/simulator/func_pushdata.go:45-58 | bytes encoded with PUSHBYTES, PUSHDATA1, PUSHDATA2 or PUSHDATA4 (by length) read back unchanged, advancing past the encoding |
| Simulator.SmallIntegers | embed/simulator/func_pushdata.go:59-60 | the small-integer opcodes give a non-zero value in [-1, 16], and -1 only for PUSHM1 |
| Simulator.ExecutionEngine.OpPushData | embed/simulator/func_pushdata.go:37-41 | pushes the datum and advances the reader; a short read faults and changes nothing |
| Validators.PeekInterop | smartcontract/service/native/embed/validators.go:44-60 | succeeds exactly when the top is an interop item, giving its object |
| Validators.PeekBlock | smartcontract/service/native/embed/validators.go:207-220 | succeeds exactly when the top wraps a block, giving its transaction count |
| Validators.Int64Of | smartcontract/service/native/embed/validators.go:84-88 | big.Int's Int64: in int64, congruent mod 2^64, and the identity on int64 values |
| Validators.PeekSecondInt | smartcontract/service/native/embed/validators.go:80-83 | succeeds exactly when the second item is an integer |
| Validators.Validate | smartcontract/service/native/embed/validators.go:44-205 | a guard that accepts has at least one argument; the block-transaction guard has two and a block on top |
| Validators.CountOnlyGuards | smartcontract/service/native/embed/validators.go:94-205 | each one-argument guard fails exactly on an empty stack |
| Validators.TypedGuards | smartcontract/service/native/embed/validators.go:44-170 | the attribute, transaction, code, header and block guards accept exactly a non-nil object of their kind on top |
| Validators.BlockTransactionGuard | smartcontract/service/native/embed/validators.go:72-92 | accepts exactly a block on top and, below it, an index with 0 ≤ index < the transaction count |
| Validators.OnlyPeeks | smartcontract/service/native/embed/validators.go:44-220 | stacks that agree on their top two items get the same verdict: the guards only count and peek |
| EmbeddedParams.Int64Cast | smartcontract/service/wasmvm/wasm_service.go:469-478 | Go's int64 conversion: the result is in int64, and values below 2^63 are kept |
| EmbeddedParams.UintWrapAsWritten | smartcontract/service/wasmvm/wasm_service.go:471-472 | see the Findings table: the written conversion differs from the parameter's value exactly for a uint of 2^63 or more, and 2^63 becomes −2^63 |
| EmbeddedParams.EmitOneOk | smartcontract/service/wasmvm/wasm_service.go:466-499 | one parameter is emitted without error exactly when it, and every nested parameter, is of a supported kind |
| EmbeddedParams.EmitAllOk | smartcontract/service/wasmvm/wasm_service.go:463-501 | a list is emitted without error exactly when every element is supported |
| EmbeddedParams.EmitConcat | smartcontract/service/wasmvm/wasm_service.go:464-465 | the list a + b is emitted as b's instructions, then a's: last to first |
| EmbeddedParams.RunConcat | smartcontract/service/wasmvm/wasm_service.go:490-496 | running two instruction lists one after the other is running their concatenation |
| EmbeddedParams.RunEmitOne | smartcontract/service/wasmvm/wasm_service.go:466-499 | running a supported parameter's instructions pushes exactly its value (a uint as itself), a nested list packed as an array |
| EmbeddedParams.RunEmitAll | smartcontract/service/wasmvm/wasm_service.go:463-501 | running a supported list's instructions pushes its values in order, so the VM loads them as given |
| EmbeddedParams.ParamsBuilder.BuildEmbeddedParamInter | smartcontract/service/wasmvm/wasm_service.go:463-502 | the downward loop appends EmitAll's instructions, and fails exactly when EmitAll does; a uint is pushed as its own value, the corrected conversion of the Findings table (see Left out) |
| EmbeddedParams.ParamsBuilder.EmitParam | smartcontract/service/wasmvm/wasm_service.go:466-499 | one element: appends EmitOne's instructions, recursing on nested lists; a uint is pushed as its own value, the corrected conversion (see Left out) |
| EmbeddedParams.ToLowerAscii | smartcontract/service/wasmvm/wasm_service.go:186 | upper-case ASCII letters are lowered and all other bytes are kept |
| EmbeddedParams.ToLowerIdempotent | smartcontract/service/wasmvm/wasm_service.go:186 | lowering twice is lowering once |
| EmbeddedParams.ParseDecimal | smartcontract/service/wasmvm/wasm_service.go:189-198 | a parsed decimal is within int64 |
| EmbeddedParams.DigitsRoundTrip | smartcontract/service/wasmvm/wasm_service.go:189-198 | a number's decimal digits read back as that number |
| EmbeddedParams.ParseFormat | smartcontract/service/wasmvm/wasm_service.go:189-198 | every int64 printed in decimal parses back to itself |
| EmbeddedParams.ConvertArg | smartcontract/service/wasmvm/wasm_service.go:186-201 | fails exactly for an "int" or "int64" tag whose value does not parse; every other tag keeps the value as a string |
| EmbeddedParams.ConvertFormatted | smartcontract/service/wasmvm/wasm_service.go:189-198 | an int64 printed in decimal under an integer tag converts to that integer |
| EmbeddedParams.MarshalEmbeddedParams | smartcontract/service/wasmvm/wasm_service.go:162-209 | needs exactly one env parameter; fails exactly when some argument fails to convert; otherwise emits the converted arguments as one packed list, which runs to a single array of their values |

## Left out

- Token transfers (appCallTransferZpt, appCallTransferGala, the TransferFrom variants) and getGalaBalance are calls into other contracts. They are not modelled: fees and payouts are not recorded. The GALA reward that DepositTotalStake and WithdrawTotalStake pay through appCallTransferFromGala (method.go:554-555 and 583-584) is neither returned nor recorded; GovernanceMethod.UnboundReward computes it, and StakeRewardRestarts shows that the clock restarts.
- executeSplit's floating-point payouts are not modelled. Commit.SplitOf gives each payee its weight and each tier its total, and stops there. The splitCurve function is not part of this model and is a parameter (`curve`).
- UpdateSplitCurve, CallSplit, TransferPenalty, WithdrawGala, GetPeerpoolInfo, GetVoteInfo, RegisterGovernanceContract and the TransferFrom entry points are not modelled. They read or write the modelled state only through transfers, or through the operations above.
- Storage is a set of maps (pools by view, records by peer and voter, stakes by address). Key encoding, GetUint32Bytes, hex decoding of public keys and validatePeerPubKeyFormat are left out. So is the difference between the cache and the committed store that `Find` reads: a peer's records are read as currently stored.
- getVoteInfo is not part of this model. An absent record reads as all zero.
- Witness checks (ValidateOwner) and the administrator lookup (GetStorageRole) become inputs: the set of witnesses and whether the administrator signed.
- InitConfig's CheckVBFTConfig is a boolean input. AddressFromBase58 is left out (genesis peers carry addresses). appCallInitContractAdmin and the admin GID are left out.
- UpdateGlobalParam takes MinCandidateFee as a parameter, because the GALA decimals constant is not part of this model.
- Each handler takes its decoded parameter. The parameter codecs are modelled separately, in GovernanceParams. Codec is an encoding of our own that stands in for the serialization primitives, which are not part of this model; its round trips are proved for that encoding only.
- GovernanceParams: a Deserialize that fails returns None and so leaves no partially filled record. This is structural, not a separate lemma.
- Positions are unbounded naturals. Each uint64 addition or subtraction that the model wraps mod 2^64 is listed here. On vote: TotalPos, NewPos and the vote total. On unvote: TotalPos, plus WithdrawUnfreezePos, WithdrawPos and WithdrawFreezePos (in both GovernanceMethod.UnvoteRecord and GovernanceMethod.UnvoteRecordAsWritten). In GovernanceMethod.BlackQuitRecord: the kept amount Locked − penalty. Also wrapped: the TotalPos sum in CheckVoteInfo, the withdraw total, PosLimit × InitPos, and the commit stake TotalPos + InitPos. In executeSplit: the top-K and candidate stake sums and the curve total. Every other addition is left unbounded. These are: the total-stake addition on deposit; the penalty stake's InitPos, VotePos and Amount sums; the epoch moves of NewPos and FreezePos into ConsensusPos or FreezePos and of WithdrawFreezePos into WithdrawUnfreezePos; the normal quit's Sum + InitPos bonus; BlackQuitRecord's addition of the old WithdrawUnfreezePos; and the penalty total summed in the black-quit loop. GovernanceState.BlackPenalty does not wrap the uint64 product `uint64(Penalty)*total` of method.go:354.
- Commit.ExecuteSplit: where Go panics, because K exceeds the number of ranked peers, the model returns Err(Panic) instead of taking the length as a precondition.
- Unbind: the CalcUnbindGala implementation, GENERATION_AMOUNT, TIME_INTERVAL, UNBOUND_DEADLINE and ZPT_TOTAL_SUPPLY are not part of this model. The schedule is a parameter: an interval and 18 rates. The deadline is 18 intervals, and the total supply is the sum of one interval at each rate. TestTotalGALA's end points are proved for every schedule whose 18 intervals fit in uint32.
- NativeDispatch: a handler's effect is given by a behaviour function (its reply and its notifications). Handler side effects on other fields, and re-entrant native calls, are not modelled. The Contract serialization is the Codec stand-in. ContextRef is modelled as a stack of contract addresses and a list of pushed notification batches.
- Simulator: the opcode implementations are not part of this model. Each opcode is modelled from its test's before and after stacks, and its precondition is what the test sets up. The numeric opcode values follow the NeoVM opcode table, which is outside the modelled files.
- Simulator.OpPushData: a short read from the code, and PUSHDATA4 with a negative length, are modelled as FAULT without a change. What the reader does in those cases is not part of this model. opPushData is only reached for push opcodes, so a nil datum is not pushed.
- Validators: big.Int's Int64 is written out. The items' GetBigInteger, for anything but an integer item, is not part of this model and fails the guard.
- EmbeddedParams: TrimBuffToString and the pointer-memory reads of marshalEmbeddedParams are left out, and the (tag, value) pairs are given. The model lowers ASCII letters only; Go's Unicode lowering (for example U+0130 to 'i', so a tag "İNT" converts as an integer) is not modelled. The PACK meaning used by Run (pop a count, then that many values into an array) is the NeoVM one, which is not part of this model. marshalNativeParams, Invoke and the other VM glue are left out.
- Logging is left out.
- CommitDpos: that the settle order does not matter is proved for the next pool, the statuses, the ranks and the records. For total stakes and penalty stakes after a Black peer is settled by blackQuit, and for whether a commit with a Black peer fails, no order-independence lemma is given: CommitFrame and CommitFails cover the case with no Black peer only.
- GovernanceMethod.TallyStep: models the corrected unvote of the Findings table (GovernanceMethod.UnvoteRecord); the record update as written is GovernanceMethod.UnvoteRecordAsWritten, which fails on the same inputs but grows the record's total by the old NewPos.
- GovernanceHandlers.UnVoteForPeer: built on TallyStep, so it models the corrected unvote; its as-written counterpart for each record is GovernanceMethod.UnvoteRecordAsWritten.
- GovernanceHandlers.UpdateConfig: models the corrected checks (GovernanceHandlers.ConfigVerdict); the uint32 checks as written are GovernanceHandlers.ConfigVerdictAsWritten, which accept C = 2^31 with K = 9 (ConfigWrapAccepted).
- EmbeddedParams.EmitOne: emits a uint as its own value (IntegerOf), the corrected conversion; the `int64(v)` of wasm_service.go:471-472 as written is EmbeddedParams.IntegerOfAsWritten, which differs from 2^63 on (UintWrapAsWritten).
- EmbeddedParams.ParamsBuilder.EmitParam: pushes a uint as IntegerOf, as EmitOne does, so it models the corrected conversion; the as-written counterpart is EmbeddedParams.IntegerOfAsWritten.
- EmbeddedParams.ParamsBuilder.BuildEmbeddedParamInter: built on EmitParam, so a uint of 2^63 or more is pushed as its own value rather than as `int64(v)`; the as-written counterpart is EmbeddedParams.IntegerOfAsWritten (UintWrapAsWritten).

## Findings

| source | as written | input that shows it | evidently intended | confidence | as-written member | corrected member |
|---|---|---|---|---|---|---|
| smartcontract/service/native/governance/governance.go:894-930 | when pos > NewPos, NewPos is set to 0 before `WithdrawPos + pos - NewPos` (and the same for WithdrawFreezePos) is computed, so the withdraw field grows by the full pos and the old NewPos is also credited to WithdrawUnfreezePos | a Consensus record with NewPos 5 and ConsensusPos 10, unvoting 8: the record's total goes from 15 to 20 | the withdraw field grows by pos − NewPos, keeping the record's total | not executed; read from the code | GovernanceMethod.UnvoteAsWrittenExample | GovernanceMethod.UnvoteConserves |
| smartcontract/service/native/governance/governance.go:1242 | `A + B != 100` is computed in uint32 | A = 4294967295, B = 101: the sum wraps to 100 and is accepted | A and B are percentages that add up to 100 | not executed; read from the code | GovernanceHandlers.GlobalParamWrapAccepted | GovernanceHandlers.UpdateGlobalParam |
| smartcontract/service/native/governance/method.go:113-115 | the InitPos < MinInitStake branch returns `NewDetailErr(err, …)` with the `err` of the last successful call, which is nil | InitPos below MinInitStake with every other guard passing: the call returns without registering | the call fails | not executed; the errors package is not part of this model, and the finding holds if NewDetailErr(nil, …) returns nil | GovernanceMethod.RegisterAsWrittenIgnoresLowStake | GovernanceMethod.RegisterCandidate |
| smartcontract/service/native/governance/governance.go:1185-1191 | `16*K`, `2*C+1` and `4*K` are computed in uint32 | C = 2^31, K = 9, N = 9, L = 144: 2C+1 wraps to 1, so K ≥ 2C+1 passes | K ≥ 2C + 1 over the full values | not executed; read from the code | GovernanceHandlers.ConfigWrapAccepted | GovernanceHandlers.ConfigVerdict |
| smartcontract/service/wasmvm/wasm_service.go:471-472 | a `uint` is converted with `int64(v)` | v = 2^63: the integer pushed is −2^63 | the value is kept, as for uint64, so the emitted instructions push the parameter's own value | not executed; read from the code | EmbeddedParams.UintWrapAsWritten | EmbeddedParams.RunEmitOne |
