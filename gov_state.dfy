/** The records the governance contract keeps in storage, as one value.
    Storage keys become map keys: the peer pool by view and then public key,
    vote records by peer and then voter address, total stakes by address,
    penalty stakes, black-list entries and peer indexes by public key. */
module GovernanceState {
  import opened Wrappers
  import opened Ints
  import opened Codec
  import opened GovernanceParams
  import Unbind

  /** Peer statuses, in declaration order. */
  datatype Status =
    | RegisterCandidate | Candidate | Consensus | QuitConsensus | Quiting | QuitCandidate | Black

  /** A peer of the pool; its public key is the map key. */
  datatype PeerPoolItem = PeerPoolItem(
    index: nat, address: Address, status: Status, initPos: nat, totalPos: nat)

  type PeerPool = map<Str, PeerPoolItem>

  /** Candidate and Consensus peers take part in the election. */
  predicate Active(item: PeerPoolItem)
  {
    item.status == Candidate || item.status == Consensus
  }

  /** Peers that may be voted for, unvoted and checked. */
  predicate VotableStatus(st: Status)
  {
    st == RegisterCandidate || st == Candidate || st == Consensus
  }

  predicate Votable(item: PeerPoolItem)
  {
    VotableStatus(item.status)
  }

  /** The six positions of one voter's record for one peer. */
  datatype VoteInfo = VoteInfo(
    consensusPos: nat, freezePos: nat, newPos: nat,
    withdrawPos: nat, withdrawFreezePos: nat, withdrawUnfreezePos: nat)

  const ZeroVote := VoteInfo(0, 0, 0, 0, 0, 0)

  /** All the stake a voter has in one record. */
  function Sum(v: VoteInfo): nat
  {
    v.consensusPos + v.freezePos + v.newPos + v.withdrawPos + v.withdrawFreezePos + v.withdrawUnfreezePos
  }

  /** The five positions that are not yet withdrawable. */
  function Locked(v: VoteInfo): nat
  {
    v.consensusPos + v.freezePos + v.newPos + v.withdrawPos + v.withdrawFreezePos
  }

  /** The positions that count toward a peer's TotalPos. */
  function Voting(v: VoteInfo): nat
  {
    v.consensusPos + v.freezePos + v.newPos
  }

  type Ballots = map<Address, VoteInfo>

  datatype TotalStake = TotalStake(stake: nat, timeOffset: nat)
  datatype PenaltyStake = PenaltyStake(initPos: nat, votePos: nat, timeOffset: nat, amount: nat)
  datatype BlackListItem = BlackListItem(address: Address, initPos: nat)
  datatype GovernanceView = GovernanceView(view: nat, height: nat, txHash: seq<byte>)

  datatype State = State(
    governanceView: Option<GovernanceView>,
    pools: map<nat, PeerPool>,
    votes: map<Str, Ballots>,
    totalStakes: map<Address, TotalStake>,
    penaltyStakes: map<Str, PenaltyStake>,
    blackList: map<Str, BlackListItem>,
    peerIndex: map<Str, nat>,
    candidateIndex: nat,
    globalParam: GlobalParam,
    config: Configuration,
    splitCurve: seq<nat>)

  /** What a handler learns from its environment: the block height, the
      time offset since genesis, the transaction hash, the addresses whose
      witness the transaction carries, the administrator's address and the
      reward schedule. */
  datatype Ctx = Ctx(
    height: nat, timeOffset: nat, txHash: seq<byte>, witnesses: set<Address>,
    admin: Address, schedule: Unbind.GoodSchedule)

  /** A peer's vote records (none yet reads as an empty map). */
  function BallotsOf(s: State, peer: Str): Ballots
  {
    if peer in s.votes then s.votes[peer] else map[]
  }

  /** A voter's record for a peer; an absent record reads as all zero. */
  function VoteOf(s: State, peer: Str, addr: Address): VoteInfo
  {
    if addr in BallotsOf(s, peer) then BallotsOf(s, peer)[addr] else ZeroVote
  }

  /** A total stake; an address that never staked reads as zero. */
  function StakeIn(m: map<Address, TotalStake>, addr: Address): TotalStake
  {
    if addr in m then m[addr] else TotalStake(0, 0)
  }

  function StakeOf(s: State, addr: Address): TotalStake
  {
    StakeIn(s.totalStakes, addr)
  }

  function PenaltyOf(s: State, peer: Str): PenaltyStake
  {
    if peer in s.penaltyStakes then s.penaltyStakes[peer] else PenaltyStake(0, 0, 0, 0)
  }

  function PutVote(s: State, peer: Str, addr: Address, v: VoteInfo): (r: State)
    ensures VoteOf(r, peer, addr) == v
    ensures forall p, a :: (p, a) != (peer, addr) ==> VoteOf(r, p, a) == VoteOf(s, p, a)
  {
    s.(votes := s.votes[peer := BallotsOf(s, peer)[addr := v]])
  }

  /** The contract is initialised once a governance view is stored. */
  predicate Initialised(s: State)
  {
    s.governanceView.Some?
  }

  function CurrentView(s: State): nat
    requires Initialised(s)
  {
    s.governanceView.value.view
  }

  // ---------------------------------------------- sums over vote records

  /** What a sum over vote records adds up. */
  datatype Measure = AllPos | VotingPos | Penalty(percent: nat)

  /** The black-list penalty on a record: Penalty percent of its locked
      positions, rounded up. */
  function BlackPenalty(percent: nat, v: VoteInfo): nat
  {
    (percent * Locked(v) + 99) / 100
  }

  function Measured(m: Measure, v: VoteInfo): nat
  {
    match m
    case AllPos => Sum(v)
    case VotingPos => Voting(v)
    case Penalty(p) => BlackPenalty(p, v)
  }

  /** The sum of measure `f` over the records of `b` whose voter is in `keys`. */
  ghost function SumOver(b: Ballots, keys: set<Address>, f: Measure): nat
    requires keys <= b.Keys
    decreases keys
  {
    if keys == {} then 0
    else
      var a :| a in keys;
      Measured(f, b[a]) + SumOver(b, keys - {a}, f)
  }

  /** Removing any one voter from the sum subtracts that voter's share,
      whichever voter the sum happened to pick first. */
  lemma {:induction false} SumOverRemove(b: Ballots, keys: set<Address>, f: Measure, x: Address)
    requires keys <= b.Keys && x in keys
    ensures SumOver(b, keys, f) == Measured(f, b[x]) + SumOver(b, keys - {x}, f)
    decreases keys
  {
    var a :| a in keys && SumOver(b, keys, f) == Measured(f, b[a]) + SumOver(b, keys - {a}, f);
    if a != x {
      SumOverRemove(b, keys - {a}, f, x);
      SumOverRemove(b, keys - {x}, f, a);
      assert keys - {a} - {x} == keys - {x} - {a};
    }
  }

  lemma SumOverAdd(b: Ballots, keys: set<Address>, f: Measure, x: Address)
    requires keys <= b.Keys && x in b && x !in keys
    ensures SumOver(b, keys + {x}, f) == SumOver(b, keys, f) + Measured(f, b[x])
  {
    SumOverRemove(b, keys + {x}, f, x);
    assert keys + {x} - {x} == keys;
  }

  /** Sums only look at the records they range over. */
  lemma {:induction false} SumOverFrame(b: Ballots, c: Ballots, keys: set<Address>, f: Measure, g: Measure)
    requires keys <= b.Keys && keys <= c.Keys
    requires forall a :: a in keys ==> Measured(f, b[a]) == Measured(g, c[a])
    ensures SumOver(b, keys, f) == SumOver(c, keys, g)
    decreases keys
  {
    if keys != {} {
      var a :| a in keys && SumOver(b, keys, f) == Measured(f, b[a]) + SumOver(b, keys - {a}, f);
      SumOverRemove(c, keys, g, a);
      SumOverFrame(b, c, keys - {a}, f, g);
    }
  }
}
