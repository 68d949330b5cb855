/** The internal procedures of the governance contract: candidate
    registration and voting, the per-record settlement when a peer leaves
    (normal quit and black-list quit), the four epoch transitions of a
    peer's vote records, the stake book-keeping, and the fee-split guards.
    The election itself is in module Commit. */
module GovernanceMethod {
  import opened Wrappers
  import opened Ints
  import opened Codec
  import opened GovernanceParams
  import opened GovernanceState
  import Unbind

  // ------------------------------------------------- epoch transitions

  /** The four transitions a peer's vote records go through at a commit,
      by the peer's old and new role. */
  datatype Epoch =
    | ConsensusToConsensus | UnConsensusToConsensus
    | ConsensusToUnConsensus | UnConsensusToUnConsensus

  predicate FromConsensus(e: Epoch)
  {
    e.ConsensusToConsensus? || e.ConsensusToUnConsensus?
  }

  predicate ToConsensus(e: Epoch)
  {
    e.ConsensusToConsensus? || e.UnConsensusToConsensus?
  }

  /** One record's transition. A peer that was in consensus must have no
      frozen positions, one that was not must have no consensus positions.
      The voting positions collapse into ConsensusPos (new role
      consensus) or FreezePos (otherwise); WithdrawPos moves to
      WithdrawFreezePos, whose old content becomes withdrawable. */
  function EpochStep(e: Epoch, v: VoteInfo): (r: Option<VoteInfo>)
    ensures r.None? <==> (if FromConsensus(e) then v.freezePos != 0 else v.consensusPos != 0)
    ensures r.Some? ==> Sum(r.value) == Sum(v) && Voting(r.value) == Voting(v)
    ensures r.Some? ==> r.value.newPos == 0 && r.value.withdrawPos == 0
    ensures r.Some? ==> r.value.withdrawFreezePos == v.withdrawPos
    ensures r.Some? ==> r.value.withdrawUnfreezePos == v.withdrawUnfreezePos + v.withdrawFreezePos
    ensures r.Some? && ToConsensus(e) ==> r.value.freezePos == 0 && r.value.consensusPos == Voting(v)
    ensures r.Some? && !ToConsensus(e) ==> r.value.consensusPos == 0 && r.value.freezePos == Voting(v)
  {
    match e
    case ConsensusToConsensus =>
      if v.freezePos != 0 then None
      else Some(VoteInfo(v.consensusPos + v.newPos, v.freezePos, 0,
                         0, v.withdrawPos, v.withdrawUnfreezePos + v.withdrawFreezePos))
    case UnConsensusToConsensus =>
      if v.consensusPos != 0 then None
      else Some(VoteInfo(v.consensusPos + v.freezePos + v.newPos, 0, 0,
                         0, v.withdrawPos, v.withdrawUnfreezePos + v.withdrawFreezePos))
    case ConsensusToUnConsensus =>
      if v.freezePos != 0 then None
      else Some(VoteInfo(0, v.consensusPos + v.newPos, 0,
                         0, v.withdrawPos, v.withdrawUnfreezePos + v.withdrawFreezePos))
    case UnConsensusToUnConsensus =>
      if v.consensusPos != 0 then None
      else Some(VoteInfo(v.consensusPos, v.newPos + v.freezePos, 0,
                         0, v.withdrawPos, v.withdrawUnfreezePos + v.withdrawFreezePos))
  }

  /** The epoch transition applied to every record of a peer; None when
      some record cannot make it. */
  function EpochOutcome(b: Ballots, e: Epoch): (r: Option<Ballots>)
    ensures r.None? <==> exists a :: a in b && EpochStep(e, b[a]).None?
    ensures r.Some? ==> r.value.Keys == b.Keys
    ensures r.Some? ==> forall a :: a in b ==> EpochStep(e, b[a]) == Some(r.value[a])
  {
    if exists a :: a in b && EpochStep(e, b[a]).None? then None
    else Some(map a | a in b :: EpochStep(e, b[a]).value)
  }

  /** The four `*To*Consensus` procedures: one pass over the peer's
      records, failing as soon as one record cannot make the transition. */
  method EpochTransition(b: Ballots, e: Epoch) returns (r: Option<Ballots>)
    ensures r == EpochOutcome(b, e)
  {
    var todo := b.Keys;
    var acc := b;
    while todo != {}
      invariant todo <= b.Keys && acc.Keys == b.Keys
      invariant forall a :: a in b && a !in todo ==> EpochStep(e, b[a]) == Some(acc[a])
      invariant forall a :: a in todo ==> acc[a] == b[a]
      decreases todo
    {
      var a :| a in todo;
      var step := EpochStep(e, acc[a]);
      if step.None? {
        return None;
      }
      acc := acc[a := step.value];
      todo := todo - {a};
    }
    assert acc == EpochOutcome(b, e).value;
    return Some(acc);
  }

  /** Over a whole peer, a transition keeps every voter's total stake. */
  lemma EpochTransitionConserves(b: Ballots, e: Epoch, c: Ballots)
    requires c.Keys == b.Keys && forall a :: a in b ==> EpochStep(e, b[a]) == Some(c[a])
    ensures SumOver(c, c.Keys, AllPos) == SumOver(b, b.Keys, AllPos)
    ensures SumOver(c, c.Keys, VotingPos) == SumOver(b, b.Keys, VotingPos)
  {
    SumOverFrame(c, b, c.Keys, AllPos, AllPos);
    SumOverFrame(c, b, c.Keys, VotingPos, VotingPos);
  }

  // -------------------------------------------------------- normal quit

  /** A record after its peer quits: everything becomes withdrawable, plus
      `bonus` (the peer's InitPos on the owner's record). */
  function NormalQuitRecord(v: VoteInfo, bonus: nat): VoteInfo
  {
    VoteInfo(0, 0, 0, 0, 0, Sum(v) + bonus)
  }

  /** A quitting peer's record keeps nothing locked: its whole total,
      plus the bonus, becomes withdrawable. */
  lemma NormalQuitRecordReleases(v: VoteInfo, bonus: nat)
    ensures Locked(NormalQuitRecord(v, bonus)) == 0
    ensures Sum(NormalQuitRecord(v, bonus)) == Sum(v) + bonus
    ensures NormalQuitRecord(v, bonus).withdrawUnfreezePos >= v.withdrawUnfreezePos + bonus
  {
  }

  function VoteOfBallots(b: Ballots, a: Address): VoteInfo
  {
    if a in b then b[a] else ZeroVote
  }

  /** Every record of the peer released, the owner's one (created if need
      be) also receiving the peer's InitPos. */
  function NormalQuitBallots(b: Ballots, owner: Address, initPos: nat): (r: Ballots)
  {
    map a | a in b.Keys + {owner} ::
      NormalQuitRecord(VoteOfBallots(b, a), if a == owner then initPos else 0)
  }

  /** normalQuit: one pass over the peer's records, then a fresh owner
      record when the pass did not meet one. */
  method NormalQuit(b: Ballots, owner: Address, initPos: nat) returns (r: Ballots)
    ensures r == NormalQuitBallots(b, owner, initPos)
  {
    var todo := b.Keys;
    r := b;
    var seen := false;
    while todo != {}
      invariant todo <= b.Keys && r.Keys == b.Keys
      invariant seen <==> owner in b && owner !in todo
      invariant forall a :: a in b && a !in todo ==>
                  r[a] == NormalQuitRecord(b[a], if a == owner then initPos else 0)
      invariant forall a :: a in todo ==> r[a] == b[a]
      decreases todo
    {
      var a :| a in todo;
      var bonus := 0;
      if a == owner {
        seen := true;
        bonus := initPos;
      }
      r := r[a := NormalQuitRecord(r[a], bonus)];
      todo := todo - {a};
    }
    if !seen {
      r := r[owner := VoteInfo(0, 0, 0, 0, 0, initPos)];
    }
  }

  /** Quitting releases all the peer's stake, and the owner's InitPos
      with it, and nothing else: the released total is the old total plus
      InitPos, and no position stays locked. */
  lemma NormalQuitConserves(b: Ballots, owner: Address, initPos: nat)
    ensures var r := NormalQuitBallots(b, owner, initPos);
            SumOver(r, r.Keys, AllPos) == SumOver(b, b.Keys, AllPos) + initPos
            && forall a :: a in r ==> Locked(r[a]) == 0
  {
    var r := NormalQuitBallots(b, owner, initPos);
    var rest := b.Keys - {owner};
    forall a | a in rest
      ensures Measured(AllPos, r[a]) == Measured(AllPos, b[a])
    {
    }
    assert Sum(r[owner]) == Sum(VoteOfBallots(b, owner)) + initPos;
    ReleasedSum(b, r, owner, initPos);
  }

  /** The sum step of NormalQuitConserves: every record but the owner's
      keeps its total, the owner's one gains `initPos`. */
  lemma ReleasedSum(b: Ballots, r: Ballots, owner: Address, initPos: nat)
    requires r.Keys == b.Keys + {owner}
    requires forall a :: a in b.Keys - {owner} ==> Measured(AllPos, r[a]) == Measured(AllPos, b[a])
    requires Sum(r[owner]) == Sum(VoteOfBallots(b, owner)) + initPos
    ensures SumOver(r, r.Keys, AllPos) == SumOver(b, b.Keys, AllPos) + initPos
  {
    var rest := b.Keys - {owner};
    SumOverFrame(r, b, rest, AllPos, AllPos);
    SumOverRemove(r, r.Keys, AllPos, owner);
    assert r.Keys - {owner} == rest;
    if owner in b {
      SumOverRemove(b, b.Keys, AllPos, owner);
    } else {
      assert b.Keys == rest;
    }
  }

  // ------------------------------------------------------------- stakes

  /** depositTotalStake: Stake grows by `amount`, TimeOffset moves to now.
      The reward for the old stake is paid out by a transfer. */
  function DepositTotalStake(s: State, addr: Address, amount: nat, ctx: Ctx): (r: State)
    ensures StakeOf(r, addr) == TotalStake(StakeOf(s, addr).stake + amount, ctx.timeOffset)
    ensures forall a :: a != addr ==> StakeOf(r, a) == StakeOf(s, a)
    ensures r == s.(totalStakes := r.totalStakes)
  {
    s.(totalStakes := s.totalStakes[addr := TotalStake(StakeOf(s, addr).stake + amount, ctx.timeOffset)])
  }

  /** withdrawTotalStake: fails when the stake is short, otherwise Stake
      shrinks by `amount` and TimeOffset moves to now. */
  function WithdrawTotalStake(s: State, addr: Address, amount: nat, ctx: Ctx): (r: Result<State>)
    ensures r.Err? <==> StakeOf(s, addr).stake < amount
    ensures r.Ok? ==> StakeOf(r.value, addr) == TotalStake(StakeOf(s, addr).stake - amount, ctx.timeOffset)
    ensures r.Ok? ==> forall a :: a != addr ==> StakeOf(r.value, a) == StakeOf(s, a)
    ensures r.Ok? ==> r.value == s.(totalStakes := r.value.totalStakes)
  {
    if StakeOf(s, addr).stake < amount then Err(Rejected)
    else Ok(s.(totalStakes := s.totalStakes[addr := TotalStake(StakeOf(s, addr).stake - amount, ctx.timeOffset)]))
  }

  /** The reward for holding `ts` up to now: what depositTotalStake and
      withdrawTotalStake pay out by transfer before they change the stake. */
  function UnboundReward(ts: TotalStake, ctx: Ctx): (r: nat)
    ensures ts.timeOffset >= ctx.timeOffset || ts.stake == 0 ==> r == 0
  {
    Unbind.CalcUnbind(ctx.schedule, ts.stake, ts.timeOffset, ctx.timeOffset)
  }

  /** Both stake helpers pay the reward up to now and restart its clock,
      so at the same time no reward is left to pay twice. */
  lemma StakeRewardRestarts(s: State, addr: Address, amount: nat, ctx: Ctx)
    ensures UnboundReward(StakeOf(DepositTotalStake(s, addr, amount, ctx), addr), ctx) == 0
    ensures var w := WithdrawTotalStake(s, addr, amount, ctx);
            w.Ok? ==> UnboundReward(StakeOf(w.value, addr), ctx) == 0
  {
  }

  /** A deposit at `mid` pays the reward up to then and restarts the clock.
      So what is paid over [TimeOffset, now), at the deposit plus at the next
      stake change, is what the old stake earns over the whole span plus
      what the deposited amount earns from `mid`: restarting loses nothing. */
  lemma RewardAcrossDeposit(s: State, addr: Address, amount: nat, ctx: Ctx, mid: nat)
    requires StakeOf(s, addr).timeOffset <= mid <= ctx.timeOffset
    ensures var early := ctx.(timeOffset := mid);
            UnboundReward(StakeOf(s, addr), early)
              + UnboundReward(StakeOf(DepositTotalStake(s, addr, amount, early), addr), ctx)
            == UnboundReward(StakeOf(s, addr), ctx) + Unbind.CalcUnbind(ctx.schedule, amount, mid, ctx.timeOffset)
  {
    var early := ctx.(timeOffset := mid);
    var sc, ts := ctx.schedule, StakeOf(s, addr);
    var a1, a2 := Unbind.Accrual(sc, ts.timeOffset, mid), Unbind.Accrual(sc, mid, ctx.timeOffset);
    assert StakeOf(DepositTotalStake(s, addr, amount, early), addr) == TotalStake(ts.stake + amount, mid);
    Unbind.Additive(sc, ts.timeOffset, mid, ctx.timeOffset);
    RewardSplit(ts.stake, amount, a1, a2);
  }

  lemma RewardSplit(k: nat, amount: nat, a1: nat, a2: nat)
    ensures k * a1 + (k + amount) * a2 == k * (a1 + a2) + amount * a2
  {
  }

  /** depositPenaltyStake: the forfeited InitPos and vote positions are
      added; the reward the old penalty stake earned so far is kept in
      Amount. */
  function DepositPenaltyStake(ps: PenaltyStake, initPos: nat, votePos: nat, ctx: Ctx): (r: PenaltyStake)
    ensures r.initPos == ps.initPos + initPos && r.votePos == ps.votePos + votePos
    ensures r.initPos + r.votePos == ps.initPos + ps.votePos + initPos + votePos
    ensures r.amount == ps.amount + Unbind.CalcUnbind(ctx.schedule, ps.initPos + ps.votePos, ps.timeOffset, ctx.timeOffset)
    ensures r.timeOffset == ctx.timeOffset
  {
    PenaltyStake(ps.initPos + initPos, ps.votePos + votePos, ctx.timeOffset,
                 ps.amount + Unbind.CalcUnbind(ctx.schedule, ps.initPos + ps.votePos, ps.timeOffset, ctx.timeOffset))
  }

  /** What withdrawPenaltyStake pays out: all forfeited ZPT, and the GALA
      the penalty stake earned (kept plus accrued since). */
  datatype PenaltyPayout = PenaltyPayout(zpt: nat, gala: nat)

  /** withdrawPenaltyStake: pays the whole penalty stake out and deletes it. */
  function WithdrawPenaltyStake(s: State, peer: Str, ctx: Ctx): (r: (State, PenaltyPayout))
    ensures peer !in r.0.penaltyStakes
    ensures r.1.zpt == PenaltyOf(s, peer).initPos + PenaltyOf(s, peer).votePos
    ensures r.1.gala == PenaltyOf(s, peer).amount
              + Unbind.CalcUnbind(ctx.schedule, r.1.zpt, PenaltyOf(s, peer).timeOffset, ctx.timeOffset)
    ensures r.0 == s.(penaltyStakes := s.penaltyStakes - {peer})
  {
    var ps := PenaltyOf(s, peer);
    var zpt := ps.initPos + ps.votePos;
    (s.(penaltyStakes := s.penaltyStakes - {peer}),
     PenaltyPayout(zpt, ps.amount + Unbind.CalcUnbind(ctx.schedule, zpt, ps.timeOffset, ctx.timeOffset)))
  }

  /** A deposit followed by a withdrawal of the same amount gives the stake back. */
  lemma DepositWithdrawInverse(s: State, addr: Address, amount: nat, ctx: Ctx)
    ensures var d := DepositTotalStake(s, addr, amount, ctx);
            var w := WithdrawTotalStake(d, addr, amount, ctx);
            w.Ok? && StakeOf(w.value, addr).stake == StakeOf(s, addr).stake
  {
  }

  // --------------------------------------------------------- black quit

  /** The penalty is the ceiling of Penalty percent of the locked
      positions, and never more than those positions while Penalty is at
      most 100. */
  lemma BlackPenaltyBounds(percent: nat, v: VoteInfo)
    ensures 100 * BlackPenalty(percent, v) >= percent * Locked(v)
    ensures 100 * BlackPenalty(percent, v) < percent * Locked(v) + 100
    ensures percent <= 100 ==> BlackPenalty(percent, v) <= Locked(v)
  {
    var t := Locked(v);
    var p := BlackPenalty(percent, v);
    if percent <= 100 {
      assert percent * t <= 100 * t;
    }
  }
  /** A record of a black-listed peer: the locked positions, less the
      penalty, become withdrawable. The subtraction is uint64 and wraps
      if the penalty exceeds them, which a Penalty of at most 100 rules out. */
  function BlackQuitRecord(percent: nat, v: VoteInfo): (r: VoteInfo)
    ensures Locked(r) == 0
    ensures r.withdrawUnfreezePos >= v.withdrawUnfreezePos
  {
    VoteInfo(0, 0, 0, 0, 0, (Locked(v) - BlackPenalty(percent, v)) % U64 + v.withdrawUnfreezePos)
  }

  /** With Penalty at most 100 and positions that fit in uint64, a settled
      record keeps exactly what the penalty does not take. */
  lemma BlackQuitRecordSettles(percent: nat, v: VoteInfo)
    requires percent <= 100 && Locked(v) < U64
    ensures Locked(BlackQuitRecord(percent, v)) == 0
    ensures Sum(BlackQuitRecord(percent, v)) + BlackPenalty(percent, v) == Sum(v)
  {
    BlackPenaltyBounds(percent, v);
  }

  function BlackQuitBallots(percent: nat, b: Ballots): (r: Ballots)
    ensures r.Keys == b.Keys
  {
    map a | a in b :: BlackQuitRecord(percent, b[a])
  }

  /** The total stakes after the voters in `keys` lose their penalty. */
  function PenalisedStakes(m: map<Address, TotalStake>, percent: nat, b: Ballots, keys: set<Address>, now: nat)
    : map<Address, TotalStake>
    requires keys <= b.Keys && forall a :: a in keys ==> BlackPenalty(percent, b[a]) <= StakeIn(m, a).stake
  {
    map a | a in m.Keys + keys ::
      if a in keys then TotalStake(StakeIn(m, a).stake - BlackPenalty(percent, b[a]), now)
      else m[a]
  }

  /** The records of `b`, those of the voters in `done` already settled. */
  function SettledUpTo(percent: nat, b: Ballots, done: set<Address>): Ballots
  {
    map a | a in b :: if a in done then BlackQuitRecord(percent, b[a]) else b[a]
  }

  lemma SettleStep(percent: nat, b: Ballots, done: set<Address>, a: Address)
    requires a in b
    ensures SettledUpTo(percent, b, done + {a}) == SettledUpTo(percent, b, done)[a := BlackQuitRecord(percent, b[a])]
  {
  }

  lemma SettleAll(percent: nat, b: Ballots)
    ensures SettledUpTo(percent, b, b.Keys) == BlackQuitBallots(percent, b)
    ensures SettledUpTo(percent, b, {}) == b
  {
  }

  lemma PenaliseStep(m: map<Address, TotalStake>, percent: nat, b: Ballots, done: set<Address>, a: Address, now: nat)
    requires done <= b.Keys && a in b && a !in done
    requires forall x :: x in done ==> BlackPenalty(percent, b[x]) <= StakeIn(m, x).stake
    requires BlackPenalty(percent, b[a]) <= StakeIn(m, a).stake
    ensures PenalisedStakes(m, percent, b, done + {a}, now)
            == PenalisedStakes(m, percent, b, done, now)[a := TotalStake(StakeIn(m, a).stake - BlackPenalty(percent, b[a]), now)]
  {
  }

  /** A voter not yet reached still has its old stake. */
  lemma PenaliseUntouched(m: map<Address, TotalStake>, percent: nat, b: Ballots, done: set<Address>, a: Address, now: nat)
    requires done <= b.Keys && a !in done
    requires forall x :: x in done ==> BlackPenalty(percent, b[x]) <= StakeIn(m, x).stake
    ensures StakeIn(PenalisedStakes(m, percent, b, done, now), a) == StakeIn(m, a)
  {
  }

  lemma PenaliseNone(m: map<Address, TotalStake>, percent: nat, b: Ballots, now: nat)
    ensures PenalisedStakes(m, percent, b, {}, now) == m
  {
  }

  /** The voter loop of blackQuit: each record is settled and its voter's
      stake loses the penalty; fails when some voter's stake is short.
      On success it also returns the penalties' total. */
  method PenaliseVoters(b: Ballots, percent: nat, m: map<Address, TotalStake>, now: nat)
    returns (r: Option<(Ballots, map<Address, TotalStake>, nat)>)
    ensures r.None? <==> exists a :: a in b && StakeIn(m, a).stake < BlackPenalty(percent, b[a])
    ensures r.Some? ==>
              (forall a :: a in b ==> BlackPenalty(percent, b[a]) <= StakeIn(m, a).stake)
              && r.value.0 == BlackQuitBallots(percent, b)
              && r.value.1 == PenalisedStakes(m, percent, b, b.Keys, now)
              && r.value.2 == SumOver(b, b.Keys, Penalty(percent))
  {
    var acc := b;
    var stakes := m;
    var todo := b.Keys;
    ghost var done: set<Address> := {};
    var votePos := 0;
    SettleAll(percent, b);
    PenaliseNone(m, percent, b, now);
    while todo != {}
      invariant todo <= b.Keys && done == b.Keys - todo
      invariant forall x :: x in done ==> BlackPenalty(percent, b[x]) <= StakeIn(m, x).stake
      invariant acc == SettledUpTo(percent, b, done)
      invariant stakes == PenalisedStakes(m, percent, b, done, now)
      invariant votePos == SumOver(b, done, Penalty(percent))
      decreases todo
    {
      var a :| a in todo;
      var penalty := BlackPenalty(percent, b[a]);
      SettleStep(percent, b, done, a);
      acc := acc[a := BlackQuitRecord(percent, b[a])];
      PenaliseUntouched(m, percent, b, done, a, now);
      var current := StakeIn(stakes, a).stake;
      if current < penalty {
        return None;
      }
      PenaliseStep(m, percent, b, done, a, now);
      stakes := stakes[a := TotalStake(current - penalty, now)];
      assert stakes == PenalisedStakes(m, percent, b, done + {a}, now);
      SumOverAdd(b, done, Penalty(percent), a);
      votePos := votePos + penalty;
      done := done + {a};
      todo := todo - {a};
    }
    assert done == b.Keys;
    return Some((acc, stakes, votePos));
  }

  /** blackQuit: the owner's stake loses InitPos, every voter record is
      settled less its penalty and the voter's stake loses that penalty,
      and the penalty stake of the peer receives InitPos and all
      penalties. Fails when some stake is short. */
  ghost function BlackQuitOutcome(s: State, peer: Str, item: PeerPoolItem, ctx: Ctx): (r: Result<State>)
    ensures var b := BallotsOf(s, peer);
            r.Err? <==> StakeOf(s, item.address).stake < item.initPos
                        || exists a :: a in b && StakeOf(WithdrawTotalStake(s, item.address, item.initPos, ctx).value, a).stake
                                                   < BlackPenalty(s.globalParam.penalty, b[a])
    ensures r.Ok? ==> r.value == s.(votes := r.value.votes, totalStakes := r.value.totalStakes,
                                     penaltyStakes := r.value.penaltyStakes)
    ensures r.Ok? ==> BallotsOf(r.value, peer) == BlackQuitBallots(s.globalParam.penalty, BallotsOf(s, peer))
                      && forall p :: p != peer ==> BallotsOf(r.value, p) == BallotsOf(s, p)
  {
    var w := WithdrawTotalStake(s, item.address, item.initPos, ctx);
    var b := BallotsOf(s, peer);
    var pc := s.globalParam.penalty;
    if w.Err? then Err(w.error)
    else if exists a :: a in b && StakeOf(w.value, a).stake < BlackPenalty(pc, b[a]) then Err(Rejected)
    else
      Ok(w.value.(
           votes := s.votes[peer := BlackQuitBallots(pc, b)],
           totalStakes := PenalisedStakes(w.value.totalStakes, pc, b, b.Keys, ctx.timeOffset),
           penaltyStakes := s.penaltyStakes[peer :=
             DepositPenaltyStake(PenaltyOf(s, peer), item.initPos, SumOver(b, b.Keys, Penalty(pc)), ctx)]))
  }

  /** blackQuit, with its loop over the voters. */
  method BlackQuit(s: State, peer: Str, item: PeerPoolItem, ctx: Ctx) returns (r: Result<State>)
    ensures r == BlackQuitOutcome(s, peer, item, ctx)
  {
    var w := WithdrawTotalStake(s, item.address, item.initPos, ctx);
    if w.Err? {
      return Err(w.error);
    }
    var b := BallotsOf(s, peer);
    var pc := s.globalParam.penalty;
    var settled := PenaliseVoters(b, pc, w.value.totalStakes, ctx.timeOffset);
    if settled.None? {
      return Err(Rejected);
    }
    var (ballots, stakes, votePos) := settled.value;
    r := Ok(w.value.(votes := s.votes[peer := ballots], totalStakes := stakes,
                     penaltyStakes := s.penaltyStakes[peer := DepositPenaltyStake(PenaltyOf(s, peer), item.initPos, votePos, ctx)]));
  }

  /** Nothing is lost in a black-list quit: what the voters keep plus what
      the penalty stake receives equals what they had. */
  lemma BlackQuitConserves(percent: nat, b: Ballots)
    requires percent <= 100 && forall a :: a in b ==> Locked(b[a]) < U64
    ensures var r := BlackQuitBallots(percent, b);
            SumOver(r, r.Keys, AllPos) + SumOver(b, b.Keys, Penalty(percent)) == SumOver(b, b.Keys, AllPos)
  {
    var r := BlackQuitBallots(percent, b);
    BlackQuitConservesOn(percent, b, r, b.Keys);
  }

  lemma {:induction false} BlackQuitConservesOn(percent: nat, b: Ballots, r: Ballots, keys: set<Address>)
    requires percent <= 100 && forall a :: a in b ==> Locked(b[a]) < U64
    requires r == BlackQuitBallots(percent, b) && keys <= b.Keys
    ensures SumOver(r, keys, AllPos) + SumOver(b, keys, Penalty(percent)) == SumOver(b, keys, AllPos)
    decreases keys
  {
    if keys != {} {
      var a :| a in keys;
      SumOverRemove(r, keys, AllPos, a);
      SumOverRemove(b, keys, Penalty(percent), a);
      SumOverRemove(b, keys, AllPos, a);
      BlackQuitRecordSettles(percent, b[a]);
      BlackQuitConservesOn(percent, b, r, keys - {a});
    }
  }

  // ------------------------------------------------------ vote, unvote

  /** One unvote on a record, with the peer's status. Positions not yet
      counted (NewPos) are released first; beyond them the request draws
      on ConsensusPos (a consensus peer) or FreezePos (a candidate), and
      fails if that is short. Released new positions become withdrawable
      at once, the rest only after the next epoch. This is the corrected
      accounting: the part beyond NewPos, and no more, moves to
      WithdrawPos or WithdrawFreezePos. */
  function UnvoteRecord(st: Status, v: VoteInfo, pos: nat): (r: Option<VoteInfo>)
    requires VotableStatus(st)
    ensures r.None? <==> v.newPos < pos && (if st == Consensus then v.consensusPos else v.freezePos) < pos - v.newPos
  {
    if pos <= v.newPos then
      Some(v.(newPos := v.newPos - pos, withdrawUnfreezePos := Add64(v.withdrawUnfreezePos, pos)))
    else if st == Consensus then
      if v.consensusPos < pos - v.newPos then None
      else Some(v.(consensusPos := v.consensusPos + v.newPos - pos, newPos := 0,
                   withdrawUnfreezePos := Add64(v.withdrawUnfreezePos, v.newPos),
                   withdrawPos := Add64(v.withdrawPos, pos - v.newPos)))
    else
      if v.freezePos < pos - v.newPos then None
      else Some(v.(freezePos := v.freezePos + v.newPos - pos, newPos := 0,
                   withdrawUnfreezePos := Add64(v.withdrawUnfreezePos, v.newPos),
                   withdrawFreezePos := Add64(v.withdrawFreezePos, pos - v.newPos)))
  }

  /** Unvoting moves stake out of the voting positions and keeps the
      record's total, as long as no uint64 position wraps. */
  lemma UnvoteConserves(st: Status, v: VoteInfo, pos: nat)
    requires VotableStatus(st)
    requires Sum(v) + pos < U64
    ensures var r := UnvoteRecord(st, v, pos);
            r.Some? ==> Sum(r.value) == Sum(v) && Voting(r.value) + pos == Voting(v)
  {
  }

  /** The unvote as the repository writes it: in the branch beyond NewPos,
      NewPos is cleared before WithdrawPos (or WithdrawFreezePos) grows by
      `pos` minus NewPos, so it grows by the whole `pos`. */
  function UnvoteRecordAsWritten(st: Status, v: VoteInfo, pos: nat): (r: Option<VoteInfo>)
    requires VotableStatus(st)
    ensures r.None? <==> UnvoteRecord(st, v, pos).None?
  {
    if pos <= v.newPos then
      Some(v.(newPos := v.newPos - pos, withdrawUnfreezePos := Add64(v.withdrawUnfreezePos, pos)))
    else if st == Consensus then
      if v.consensusPos < pos - v.newPos then None
      else
        var cleared := v.(consensusPos := v.consensusPos + v.newPos - pos, newPos := 0,
                          withdrawUnfreezePos := Add64(v.withdrawUnfreezePos, v.newPos));
        Some(cleared.(withdrawPos := Add64(cleared.withdrawPos, pos - cleared.newPos)))
    else
      if v.freezePos < pos - v.newPos then None
      else
        var cleared := v.(freezePos := v.freezePos + v.newPos - pos, newPos := 0,
                          withdrawUnfreezePos := Add64(v.withdrawUnfreezePos, v.newPos));
        Some(cleared.(withdrawFreezePos := Add64(cleared.withdrawFreezePos, pos - cleared.newPos)))
  }

  /** As written, an unvote that reaches past NewPos credits the voter
      with NewPos twice: the record's total grows by the old NewPos. */
  lemma UnvoteAsWrittenCreates(st: Status, v: VoteInfo, pos: nat)
    requires VotableStatus(st)
    requires Sum(v) + pos < U64 && v.newPos < pos
    ensures var r := UnvoteRecordAsWritten(st, v, pos);
            r.Some? ==> Sum(r.value) == Sum(v) + v.newPos
  {
  }

  /** A concrete case: 5 new and 10 consensus positions, unvote 8. */
  lemma UnvoteAsWrittenExample()
    ensures UnvoteRecordAsWritten(Consensus, VoteInfo(10, 0, 5, 0, 0, 0), 8) == Some(VoteInfo(7, 0, 0, 8, 0, 5))
    ensures UnvoteRecord(Consensus, VoteInfo(10, 0, 5, 0, 0, 0), 8) == Some(VoteInfo(7, 0, 0, 3, 0, 5))
    ensures Sum(VoteInfo(7, 0, 0, 8, 0, 5)) == 20 && Sum(VoteInfo(10, 0, 5, 0, 0, 0)) == 15
  {
  }

  /** Whether the entries vote or unvote. */
  datatype Direction = Vote | Unvote

  /** The working state of a vote loop: the peer pool, the store (for
      vote records) and the sum of the amounts voted. */
  datatype Tally = Tally(pool: PeerPool, store: State, total: nat)

  /** One entry of voteForPeer or unVoteForPeer. The peer must be in the
      pool and votable. A vote adds `pos` to the peer's TotalPos, which
      must stay within PosLimit times its InitPos, and to the voter's
      NewPos; an unvote takes `pos` off TotalPos and applies UnvoteRecord. */
  function TallyStep(dir: Direction, t: Tally, addr: Address, peer: Str, pos: nat, posLimit: nat): (r: Result<Tally>)
    ensures peer !in t.pool ==> r == Err(NotFound)
    ensures peer in t.pool && !Votable(t.pool[peer]) ==> r == Err(BadStatus)
    ensures r.Ok? ==> r.value.pool.Keys == t.pool.Keys
  {
    if peer !in t.pool then Err(NotFound)
    else
      var item := t.pool[peer];
      if !Votable(item) then Err(BadStatus)
      else
        var v := VoteOf(t.store, peer, addr);
        match dir
        case Vote =>
          var totalPos := Add64(item.totalPos, pos);
          if totalPos > Mul64(posLimit, item.initPos) then Err(Rejected)
          else Ok(Tally(t.pool[peer := item.(totalPos := totalPos)],
                        PutVote(t.store, peer, addr, v.(newPos := Add64(v.newPos, pos))),
                        Add64(t.total, pos)))
        case Unvote =>
          match UnvoteRecord(item.status, v, pos)
          case None => Err(Rejected)
          case Some(v') =>
            Ok(Tally(t.pool[peer := item.(totalPos := Sub64(item.totalPos, pos))],
                     PutVote(t.store, peer, addr, v'), t.total))
  }

  /** The entries taken in order; the first failing one fails the call. */
  function Tallied(dir: Direction, t: Tally, addr: Address, peers: seq<Str>, amounts: seq<nat>, posLimit: nat)
    : (r: Result<Tally>)
    requires |peers| == |amounts|
    ensures r.Ok? ==> r.value.pool.Keys == t.pool.Keys && forall p :: p in peers ==> p in t.pool
    ensures r.Ok? && dir == Unvote ==> r.value.total == t.total
    decreases |peers|
  {
    if peers == [] then Ok(t)
    else
      match TallyStep(dir, t, addr, peers[0], amounts[0], posLimit)
      case Err(e) => Err(e)
      case Ok(t') => Tallied(dir, t', addr, peers[1..], amounts[1..], posLimit)
  }

  /** The loop of voteForPeer and unVoteForPeer. */
  method ApplyVotes(dir: Direction, t: Tally, addr: Address, peers: seq<Str>, amounts: seq<nat>, posLimit: nat)
    returns (r: Result<Tally>)
    requires |peers| == |amounts|
    ensures r == Tallied(dir, t, addr, peers, amounts, posLimit)
  {
    var acc := t;
    var i := 0;
    while i < |peers|
      invariant 0 <= i <= |peers|
      invariant Tallied(dir, t, addr, peers, amounts, posLimit)
                == Tallied(dir, acc, addr, peers[i..], amounts[i..], posLimit)
    {
      var step := TallyStep(dir, acc, addr, peers[i], amounts[i], posLimit);
      if step.Err? {
        return Err(step.error);
      }
      assert peers[i..][1..] == peers[i + 1..] && amounts[i..][1..] == amounts[i + 1..];
      acc := step.value;
      i := i + 1;
    }
    assert peers[i..] == [];
    return Ok(acc);
  }

  /** The amounts the entries give `p`. */
  function SumFor(p: Str, peers: seq<Str>, amounts: seq<nat>): nat
    requires |peers| == |amounts|
    decreases |peers|
  {
    if peers == [] then 0 else (if peers[0] == p then amounts[0] else 0) + SumFor(p, peers[1..], amounts[1..])
  }

  function SumAll(amounts: seq<nat>): nat
  {
    if amounts == [] then 0 else amounts[0] + SumAll(amounts[1..])
  }

  lemma {:induction false} SumForAbsent(p: Str, peers: seq<Str>, amounts: seq<nat>)
    requires |peers| == |amounts| && p !in peers
    ensures SumFor(p, peers, amounts) == 0
    decreases |peers|
  {
    if peers != [] {
      assert p !in peers[1..];
      SumForAbsent(p, peers[1..], amounts[1..]);
    }
  }

  /** One entry changes only the entry peer's TotalPos and the voter's
      record for that peer. */
  lemma StepFrame(dir: Direction, t: Tally, addr: Address, peer: Str, pos: nat, posLimit: nat)
    ensures var r := TallyStep(dir, t, addr, peer, pos, posLimit);
            r.Ok? ==>
              peer in t.pool
              && r.value.pool == t.pool[peer := t.pool[peer].(totalPos := r.value.pool[peer].totalPos)]
              && r.value.store == t.store.(votes := r.value.store.votes)
              && (forall p, a :: a != addr || p != peer ==> VoteOf(r.value.store, p, a) == VoteOf(t.store, p, a))
              && (dir == Unvote ==> r.value.total == t.total)
  {
  }

  /** A vote loop changes nothing in the pool but TotalPos of the listed peers. */
  lemma {:induction false} TalliedPoolFrame(dir: Direction, t: Tally, addr: Address, peers: seq<Str>, amounts: seq<nat>, posLimit: nat)
    requires |peers| == |amounts|
    ensures var r := Tallied(dir, t, addr, peers, amounts, posLimit);
            r.Ok? ==>
              r.value.pool.Keys == t.pool.Keys
              && (forall p :: p in t.pool ==> r.value.pool[p] == t.pool[p].(totalPos := r.value.pool[p].totalPos))
              && (forall p :: p in t.pool && p !in peers ==> r.value.pool[p] == t.pool[p])
    decreases |peers|
  {
    if peers != [] {
      StepFrame(dir, t, addr, peers[0], amounts[0], posLimit);
      var step := TallyStep(dir, t, addr, peers[0], amounts[0], posLimit);
      if step.Ok? {
        TalliedPoolFrame(dir, step.value, addr, peers[1..], amounts[1..], posLimit);
        assert forall p :: p !in peers ==> p !in peers[1..] && p != peers[0];
      }
    }
  }

  /** A vote loop changes no record but the voter's records for the listed
      peers, nothing else in the store, and an unvote loop leaves the
      total alone. */
  lemma {:induction false} TalliedStoreFrame(dir: Direction, t: Tally, addr: Address, peers: seq<Str>, amounts: seq<nat>, posLimit: nat)
    requires |peers| == |amounts|
    ensures var r := Tallied(dir, t, addr, peers, amounts, posLimit);
            r.Ok? ==>
              r.value.store == t.store.(votes := r.value.store.votes)
              && (forall p, a :: a != addr || p !in peers ==> VoteOf(r.value.store, p, a) == VoteOf(t.store, p, a))
              && (dir == Unvote ==> r.value.total == t.total)
    decreases |peers|
  {
    if peers != [] {
      StepFrame(dir, t, addr, peers[0], amounts[0], posLimit);
      var step := TallyStep(dir, t, addr, peers[0], amounts[0], posLimit);
      if step.Ok? {
        TalliedStoreFrame(dir, step.value, addr, peers[1..], amounts[1..], posLimit);
        assert forall p :: p !in peers ==> p !in peers[1..] && p != peers[0];
      }
    }
  }

  /** The wrapped uint64 TotalPos after adding (vote) or taking off
      (unvote) `amount`. */
  function Shifted(dir: Direction, x: nat, amount: nat): nat
  {
    if dir == Vote then (x + amount) % U64 else (x - amount) % U64
  }

  lemma ShiftedTwice(dir: Direction, x: nat, a: nat, b: nat)
    ensures Shifted(dir, Shifted(dir, x, a), b) == Shifted(dir, x, a + b)
  {
    if dir == Vote {
      ModAdd64(x + a, b);
    } else {
      ModAdd64(x as int - a, -(b as int));
    }
  }

  /** The step case of TalliedTotals, for one listed peer `p`. */
  lemma TotalsStep(dir: Direction, q: Str, a: nat, rest: seq<Str>, amts: seq<nat>, p: Str, t0: nat, t1: nat, t2: nat)
    requires |rest| == |amts| && (p == q || p in rest)
    requires p == q ==> t1 == Shifted(dir, t0, a)
    requires p != q ==> t1 == t0
    requires p in rest ==> t2 == Shifted(dir, t1, SumFor(p, rest, amts))
    requires p !in rest ==> t2 == t1
    ensures t2 == Shifted(dir, t0, SumFor(p, [q] + rest, [a] + amts))
  {
    assert ([q] + rest)[1..] == rest && ([a] + amts)[1..] == amts;
    if p !in rest {
      SumForAbsent(p, rest, amts);
    } else if p == q {
      ShiftedTwice(dir, t0, a, SumFor(p, rest, amts));
    }
  }

  /** Whatever the order of the entries, a successful loop leaves each
      listed peer's TotalPos shifted by the sum of its amounts (in uint64). */
  lemma TalliedTotals(dir: Direction, t: Tally, addr: Address, peers: seq<Str>, amounts: seq<nat>, posLimit: nat)
    requires |peers| == |amounts|
    ensures var r := Tallied(dir, t, addr, peers, amounts, posLimit);
            r.Ok? ==> forall p :: p in peers ==>
              p in t.pool && p in r.value.pool
              && r.value.pool[p].totalPos == Shifted(dir, t.pool[p].totalPos, SumFor(p, peers, amounts))
  {
    TalliedShifts(dir, t, addr, peers, amounts, posLimit);
    var r := Tallied(dir, t, addr, peers, amounts, posLimit);
    if r.Ok? {
      forall p | p in peers
        ensures r.value.pool[p].totalPos == Shifted(dir, t.pool[p].totalPos, SumFor(p, peers, amounts))
      {
        ShiftedForSum(dir, t.pool[p].totalPos, p, peers, amounts);
      }
    }
  }

  /** A TotalPos after the entries for `p` are applied one by one. */
  function ShiftedFor(dir: Direction, x: nat, p: Str, peers: seq<Str>, amounts: seq<nat>): nat
    requires |peers| == |amounts|
    decreases |peers|
  {
    if peers == [] then x
    else ShiftedFor(dir, if peers[0] == p then Shifted(dir, x, amounts[0]) else x, p, peers[1..], amounts[1..])
  }

  /** One entry that succeeds shifts its peer's TotalPos by its amount. */
  lemma StepShift(dir: Direction, t: Tally, addr: Address, peer: Str, pos: nat, posLimit: nat)
    ensures var r := TallyStep(dir, t, addr, peer, pos, posLimit);
            r.Ok? ==> peer in t.pool && r.value.pool[peer].totalPos == Shifted(dir, t.pool[peer].totalPos, pos)
  {
  }

  lemma {:induction false} TalliedShifts(dir: Direction, t: Tally, addr: Address, peers: seq<Str>, amounts: seq<nat>, posLimit: nat)
    requires |peers| == |amounts|
    ensures var r := Tallied(dir, t, addr, peers, amounts, posLimit);
            r.Ok? ==> (forall p :: p in peers ==> p in t.pool)
                      && r.value.pool.Keys == t.pool.Keys
                      && forall p :: p in t.pool ==>
                           r.value.pool[p].totalPos == ShiftedFor(dir, t.pool[p].totalPos, p, peers, amounts)
    decreases |peers|
  {
    if peers != [] {
      var q, a := peers[0], amounts[0];
      TalliedCons(dir, t, addr, peers, amounts, posLimit);
      StepFrame(dir, t, addr, q, a, posLimit);
      StepShift(dir, t, addr, q, a, posLimit);
      var step := TallyStep(dir, t, addr, q, a, posLimit);
      if step.Ok? {
        TalliedShifts(dir, step.value, addr, peers[1..], amounts[1..], posLimit);
        var r := Tallied(dir, t, addr, peers, amounts, posLimit);
        if r.Ok? {
          forall p | p in peers ensures p in t.pool {
            if p != q {
              assert p in peers[1..];
            }
          }
          forall p | p in t.pool
            ensures r.value.pool[p].totalPos == ShiftedFor(dir, t.pool[p].totalPos, p, peers, amounts)
          {
            assert step.value.pool[p].totalPos == if q == p then Shifted(dir, t.pool[p].totalPos, a) else t.pool[p].totalPos;
          }
        }
      }
    }
  }

  lemma {:induction false} ShiftedForAbsent(dir: Direction, x: nat, p: Str, peers: seq<Str>, amounts: seq<nat>)
    requires |peers| == |amounts| && p !in peers
    ensures ShiftedFor(dir, x, p, peers, amounts) == x
    decreases |peers|
  {
    if peers != [] {
      ShiftedForAbsent(dir, x, p, peers[1..], amounts[1..]);
    }
  }

  lemma {:induction false} ShiftedForSum(dir: Direction, x: nat, p: Str, peers: seq<Str>, amounts: seq<nat>)
    requires |peers| == |amounts| && p in peers
    ensures ShiftedFor(dir, x, p, peers, amounts) == Shifted(dir, x, SumFor(p, peers, amounts))
    decreases |peers|
  {
    var q, a, rest, amts := peers[0], amounts[0], peers[1..], amounts[1..];
    assert peers == [q] + rest && amounts == [a] + amts;
    var x1 := if q == p then Shifted(dir, x, a) else x;
    if p in rest {
      ShiftedForSum(dir, x1, p, rest, amts);
      TotalsStep(dir, q, a, rest, amts, p, x, x1, ShiftedFor(dir, x1, p, rest, amts));
    } else {
      ShiftedForAbsent(dir, x1, p, rest, amts);
      TotalsStep(dir, q, a, rest, amts, p, x, x1, x1);
    }
  }

  /** A successful vote loop adds each listed peer's amounts to the
      voter's NewPos for that peer (in uint64), whatever their order. */
  lemma VotedRecords(t: Tally, addr: Address, peers: seq<Str>, amounts: seq<nat>, posLimit: nat)
    requires |peers| == |amounts|
    ensures var r := Tallied(Vote, t, addr, peers, amounts, posLimit);
            r.Ok? ==> forall p :: p in peers ==>
              VoteOf(r.value.store, p, addr)
              == VoteOf(t.store, p, addr).(newPos := Shifted(Vote, VoteOf(t.store, p, addr).newPos, SumFor(p, peers, amounts)))
  {
    VotedNewPos(t, addr, peers, amounts, posLimit);
    var r := Tallied(Vote, t, addr, peers, amounts, posLimit);
    if r.Ok? {
      forall p | p in peers
        ensures VoteOf(r.value.store, p, addr)
                == VoteOf(t.store, p, addr).(newPos := Shifted(Vote, VoteOf(t.store, p, addr).newPos, SumFor(p, peers, amounts)))
      {
        ShiftedForSum(Vote, VoteOf(t.store, p, addr).newPos, p, peers, amounts);
      }
    }
  }

  /** One vote entry that succeeds adds its amount to the voter's NewPos. */
  lemma VoteStepRecord(t: Tally, addr: Address, peer: Str, pos: nat, posLimit: nat)
    ensures var r := TallyStep(Vote, t, addr, peer, pos, posLimit);
            r.Ok? ==> VoteOf(r.value.store, peer, addr)
                      == VoteOf(t.store, peer, addr).(newPos := Shifted(Vote, VoteOf(t.store, peer, addr).newPos, pos))
  {
  }

  /** The vote loop applies each entry to the voter's NewPos in turn. */
  lemma {:induction false} VotedNewPos(t: Tally, addr: Address, peers: seq<Str>, amounts: seq<nat>, posLimit: nat)
    requires |peers| == |amounts|
    ensures var r := Tallied(Vote, t, addr, peers, amounts, posLimit);
            r.Ok? ==> forall p :: VoteOf(r.value.store, p, addr)
                        == VoteOf(t.store, p, addr).(newPos := ShiftedFor(Vote, VoteOf(t.store, p, addr).newPos, p, peers, amounts))
    decreases |peers|
  {
    if peers != [] {
      var q, a := peers[0], amounts[0];
      TalliedCons(Vote, t, addr, peers, amounts, posLimit);
      StepFrame(Vote, t, addr, q, a, posLimit);
      VoteStepRecord(t, addr, q, a, posLimit);
      var step := TallyStep(Vote, t, addr, q, a, posLimit);
      if step.Ok? {
        VotedNewPos(step.value, addr, peers[1..], amounts[1..], posLimit);
        var r := Tallied(Vote, t, addr, peers, amounts, posLimit);
        if r.Ok? {
          forall p
            ensures VoteOf(r.value.store, p, addr)
                    == VoteOf(t.store, p, addr).(newPos := ShiftedFor(Vote, VoteOf(t.store, p, addr).newPos, p, peers, amounts))
          {
            var v0 := VoteOf(t.store, p, addr);
            assert VoteOf(step.value.store, p, addr) == if q == p then v0.(newPos := Shifted(Vote, v0.newPos, a)) else v0;
          }
        }
      }
    }
  }

  /** Two unvotes of one record in a row are one unvote of their sum. */
  lemma UnvoteTwice(st: Status, v: VoteInfo, a: nat, b: nat)
    requires VotableStatus(st)
    ensures var r := UnvoteRecord(st, v, a);
            r.Some? ==> UnvoteRecord(st, r.value, b) == UnvoteRecord(st, v, a + b)
  {
    if a <= v.newPos {
      UnvoteTwiceWithin(st, v, a, b);
    } else if UnvoteRecord(st, v, a).Some? {
      if st == Consensus {
        UnvoteTwiceConsensus(v, a, b);
      } else {
        UnvoteTwiceFrozen(st, v, a, b);
      }
    }
  }

  lemma UnvoteTwiceWithin(st: Status, v: VoteInfo, a: nat, b: nat)
    requires VotableStatus(st) && a <= v.newPos
    ensures UnvoteRecord(st, UnvoteRecord(st, v, a).value, b) == UnvoteRecord(st, v, a + b)
  {
    ModAdd64(v.withdrawUnfreezePos + a, b);
    ModAdd64(v.withdrawUnfreezePos + a, v.newPos - a);
  }

  lemma UnvoteTwiceConsensus(v: VoteInfo, a: nat, b: nat)
    requires v.newPos < a && a - v.newPos <= v.consensusPos
    ensures UnvoteRecord(Consensus, UnvoteRecord(Consensus, v, a).value, b) == UnvoteRecord(Consensus, v, a + b)
  {
    ModAdd64(v.withdrawUnfreezePos + v.newPos, 0);
    ModAdd64(v.withdrawPos + a - v.newPos, b);
  }

  lemma UnvoteTwiceFrozen(st: Status, v: VoteInfo, a: nat, b: nat)
    requires VotableStatus(st) && st != Consensus
    requires v.newPos < a && a - v.newPos <= v.freezePos
    ensures UnvoteRecord(st, UnvoteRecord(st, v, a).value, b) == UnvoteRecord(st, v, a + b)
  {
    ModAdd64(v.withdrawUnfreezePos + v.newPos, 0);
    ModAdd64(v.withdrawFreezePos + a - v.newPos, b);
  }

  /** One unvote entry that succeeds applies UnvoteRecord to the voter's
      record and keeps the peer's status. */
  lemma UnvoteStepRecord(t: Tally, addr: Address, peer: Str, pos: nat, posLimit: nat)
    ensures var r := TallyStep(Unvote, t, addr, peer, pos, posLimit);
            r.Ok? ==> peer in t.pool && VotableStatus(t.pool[peer].status)
                      && UnvoteRecord(t.pool[peer].status, VoteOf(t.store, peer, addr), pos)
                         == Some(VoteOf(r.value.store, peer, addr))
  {
  }

  /** After a successful unvote loop, each listed peer's record for the
      voter is the corrected unvote of the sum of that peer's entries. */
  lemma UnvotedRecords(t: Tally, addr: Address, peers: seq<Str>, amounts: seq<nat>, posLimit: nat)
    requires |peers| == |amounts|
    ensures var r := Tallied(Unvote, t, addr, peers, amounts, posLimit);
            r.Ok? ==> forall p :: p in peers ==>
              p in t.pool && VotableStatus(t.pool[p].status)
              && UnvoteRecord(t.pool[p].status, VoteOf(t.store, p, addr), SumFor(p, peers, amounts))
                 == Some(VoteOf(r.value.store, p, addr))
  {
    var r := Tallied(Unvote, t, addr, peers, amounts, posLimit);
    if r.Ok? {
      forall p | p in peers
        ensures p in t.pool && VotableStatus(t.pool[p].status)
                && UnvoteRecord(t.pool[p].status, VoteOf(t.store, p, addr), SumFor(p, peers, amounts))
                   == Some(VoteOf(r.value.store, p, addr))
      {
        UnvotedFold(t, addr, peers, amounts, posLimit, p);
        UnvotedForSum(t.pool[p].status, VoteOf(t.store, p, addr), p, peers, amounts);
      }
    }
  }

  /** The entries for `p`, applied one after another to the record `v`
      of a peer with status `st`. */
  function UnvotedFor(st: Status, v: VoteInfo, p: Str, peers: seq<Str>, amounts: seq<nat>): Option<VoteInfo>
    requires |peers| == |amounts|
    decreases |peers|
  {
    if peers == [] then Some(v)
    else if peers[0] != p then UnvotedFor(st, v, p, peers[1..], amounts[1..])
    else if !VotableStatus(st) then None
    else
      match UnvoteRecord(st, v, amounts[0])
      case None => None
      case Some(w) => UnvotedFor(st, w, p, peers[1..], amounts[1..])
  }

  /** The unvote loop applies each entry for `p` to the voter's record in turn. */
  lemma {:induction false} UnvotedFold(t: Tally, addr: Address, peers: seq<Str>, amounts: seq<nat>, posLimit: nat, p: Str)
    requires |peers| == |amounts| && p in t.pool
    ensures var r := Tallied(Unvote, t, addr, peers, amounts, posLimit);
            r.Ok? ==> UnvotedFor(t.pool[p].status, VoteOf(t.store, p, addr), p, peers, amounts)
                      == Some(VoteOf(r.value.store, p, addr))
    decreases |peers|
  {
    if peers != [] {
      var q, a := peers[0], amounts[0];
      TalliedCons(Unvote, t, addr, peers, amounts, posLimit);
      var step := TallyStep(Unvote, t, addr, q, a, posLimit);
      if step.Ok? {
        UnvoteStepRecord(t, addr, q, a, posLimit);
        UnvoteStepKeeps(t, addr, q, a, posLimit, p);
        UnvotedFold(step.value, addr, peers[1..], amounts[1..], posLimit, p);
      }
    }
  }

  lemma {:induction false} UnvotedForAbsent(st: Status, v: VoteInfo, p: Str, peers: seq<Str>, amounts: seq<nat>)
    requires |peers| == |amounts| && p !in peers
    ensures UnvotedFor(st, v, p, peers, amounts) == Some(v)
    decreases |peers|
  {
    if peers != [] {
      assert p !in peers[1..];
      UnvotedForAbsent(st, v, p, peers[1..], amounts[1..]);
    }
  }

  /** Applying a peer's entries one by one is one unvote of their sum. */
  lemma {:induction false} UnvotedForSum(st: Status, v: VoteInfo, p: Str, peers: seq<Str>, amounts: seq<nat>)
    requires |peers| == |amounts| && p in peers
    ensures var u := UnvotedFor(st, v, p, peers, amounts);
            u.Some? ==> VotableStatus(st) && u == UnvoteRecord(st, v, SumFor(p, peers, amounts))
    decreases |peers|
  {
    var rest := SumFor(p, peers[1..], amounts[1..]);
    if peers[0] != p {
      UnvotedForSum(st, v, p, peers[1..], amounts[1..]);
    } else if VotableStatus(st) && UnvoteRecord(st, v, amounts[0]).Some? {
      var w := UnvoteRecord(st, v, amounts[0]).value;
      if p in peers[1..] {
        UnvotedForSum(st, w, p, peers[1..], amounts[1..]);
        UnvoteTwice(st, v, amounts[0], rest);
      } else {
        UnvotedForAbsent(st, w, p, peers[1..], amounts[1..]);
        SumForAbsent(p, peers[1..], amounts[1..]);
      }
    }
  }

  /** An unvote entry for `q` keeps every peer's status and every other
      peer's record. */
  lemma UnvoteStepKeeps(t: Tally, addr: Address, q: Str, pos: nat, posLimit: nat, p: Str)
    ensures var r := TallyStep(Unvote, t, addr, q, pos, posLimit);
            r.Ok? ==> (p in r.value.pool <==> p in t.pool)
                      && (p in t.pool ==> r.value.pool[p].status == t.pool[p].status)
                      && (p != q ==> VoteOf(r.value.store, p, addr) == VoteOf(t.store, p, addr))
  {
    StepFrame(Unvote, t, addr, q, pos, posLimit);
  }

  /** A successful vote loop adds all amounts to the total (in uint64). */
  lemma VotedTotal(t: Tally, addr: Address, peers: seq<Str>, amounts: seq<nat>, posLimit: nat)
    requires |peers| == |amounts| && IsU64(t.total)
    ensures var r := Tallied(Vote, t, addr, peers, amounts, posLimit);
            r.Ok? ==> r.value.total == (t.total + SumAll(amounts)) % U64
  {
    VotedRunningTotal(t, addr, peers, amounts, posLimit);
    TotalAfterSum(t.total, amounts);
  }

  /** The running uint64 total of the vote loop. */
  function TotalAfter(total: nat, amounts: seq<nat>): nat
    decreases |amounts|
  {
    if amounts == [] then total else TotalAfter(Add64(total, amounts[0]), amounts[1..])
  }

  lemma {:induction false} VotedRunningTotal(t: Tally, addr: Address, peers: seq<Str>, amounts: seq<nat>, posLimit: nat)
    requires |peers| == |amounts|
    ensures var r := Tallied(Vote, t, addr, peers, amounts, posLimit);
            r.Ok? ==> r.value.total == TotalAfter(t.total, amounts)
    decreases |peers|
  {
    if peers != [] {
      VoteStepTotal(t, addr, peers[0], amounts[0], posLimit);
      TalliedCons(Vote, t, addr, peers, amounts, posLimit);
      var step := TallyStep(Vote, t, addr, peers[0], amounts[0], posLimit);
      if step.Ok? {
        VotedRunningTotal(step.value, addr, peers[1..], amounts[1..], posLimit);
      }
    }
  }

  lemma {:induction false} TotalAfterSum(total: nat, amounts: seq<nat>)
    requires IsU64(total)
    ensures TotalAfter(total, amounts) == (total + SumAll(amounts)) % U64
    decreases |amounts|
  {
    if amounts != [] {
      var mid := Add64(total, amounts[0]);
      TotalAfterSum(mid, amounts[1..]);
      TotalStep(total, amounts[0], mid, SumAll(amounts[1..]), TotalAfter(total, amounts));
    }
  }

  /** A vote entry that succeeds adds its amount to the total (in uint64). */
  lemma VoteStepTotal(t: Tally, addr: Address, peer: Str, pos: nat, posLimit: nat)
    ensures var r := TallyStep(Vote, t, addr, peer, pos, posLimit);
            r.Ok? ==> r.value.total == Add64(t.total, pos)
  {
  }

  lemma TotalStep(total: nat, a: nat, mid: nat, rest: nat, final: nat)
    requires mid == (total + a) % U64 && final == (mid + rest) % U64
    ensures final == (total + (a + rest)) % U64
  {
    ModAdd64(total + a, rest);
    assert total + a + rest == total + (a + rest);
  }

  /** The vote loop after its first entry. */
  lemma TalliedCons(dir: Direction, t: Tally, addr: Address, peers: seq<Str>, amounts: seq<nat>, posLimit: nat)
    requires |peers| == |amounts| && peers != []
    ensures var step := TallyStep(dir, t, addr, peers[0], amounts[0], posLimit);
            (step.Err? ==> Tallied(dir, t, addr, peers, amounts, posLimit).Err?)
            && (step.Ok? ==> Tallied(dir, t, addr, peers, amounts, posLimit)
                             == Tallied(dir, step.value, addr, peers[1..], amounts[1..], posLimit))
  {
  }

  /** The entry's peer is missing from the pool or cannot be voted for. */
  predicate Unvotable(pool: PeerPool, p: Str)
  {
    p !in pool || !Votable(pool[p])
  }

  /** The amounts for `p` would push its TotalPos past PosLimit times its InitPos. */
  predicate Overfull(pool: PeerPool, p: Str, peers: seq<Str>, amounts: seq<nat>, posLimit: nat)
    requires |peers| == |amounts|
  {
    p in pool && pool[p].totalPos + SumFor(p, peers, amounts) > Mul64(posLimit, pool[p].initPos)
  }

  /** Every bound and TotalPos fits in int64, so no uint64 sum of them wraps. */
  predicate NoWrap(pool: PeerPool, posLimit: nat)
  {
    forall p :: p in pool ==> pool[p].totalPos <= MaxInt64 && Mul64(posLimit, pool[p].initPos) <= MaxInt64
  }

  predicate AllAtMost(amounts: seq<nat>, bound: nat)
  {
    forall i :: 0 <= i < |amounts| ==> amounts[i] <= bound
  }

  /** After an accepted entry (q, a), a peer is over its limit for the
      remaining entries exactly when it was over it for all of them. */
  lemma OverfullAfterStep(pool: PeerPool, pool': PeerPool, peers: seq<Str>, amounts: seq<nat>, posLimit: nat)
    requires |peers| == |amounts| && peers != [] && peers[0] in pool && peers[0] in pool'
    requires pool' == pool[peers[0] := pool[peers[0]].(totalPos := pool'[peers[0]].totalPos)]
    requires pool'[peers[0]].totalPos == pool[peers[0]].totalPos + amounts[0]
    ensures forall p :: Overfull(pool, p, peers, amounts, posLimit) <==> Overfull(pool', p, peers[1..], amounts[1..], posLimit)
  {
  }

  /** Under NoWrap, a vote call fails exactly when some entry names a peer
      that cannot be voted for, or some peer's amounts taken together
      exceed its limit, whatever the order of the entries. */
  lemma {:induction false} VoteAccepted(t: Tally, addr: Address, peers: seq<Str>, amounts: seq<nat>, posLimit: nat)
    requires |peers| == |amounts| && NoWrap(t.pool, posLimit) && AllAtMost(amounts, MaxInt64)
    ensures Tallied(Vote, t, addr, peers, amounts, posLimit).Err?
            <==> (exists i :: 0 <= i < |peers| && Unvotable(t.pool, peers[i]))
                 || (exists i :: 0 <= i < |peers| && Overfull(t.pool, peers[i], peers, amounts, posLimit))
    decreases |peers|
  {
    if peers != [] {
      var q, a := peers[0], amounts[0];
      var rest, amts := peers[1..], amounts[1..];
      assert peers == [q] + rest && amounts == [a] + amts;
      if Unvotable(t.pool, q) {
        assert Unvotable(t.pool, peers[0]);
      } else {
        var item := t.pool[q];
        assert item.totalPos + a < U64;
        if item.totalPos + a > Mul64(posLimit, item.initPos) {
          assert Overfull(t.pool, peers[0], peers, amounts, posLimit);
        } else {
          StepFrame(Vote, t, addr, q, a, posLimit);
          var step := TallyStep(Vote, t, addr, q, a, posLimit);
          var t' := step.value;
          assert t'.pool[q].totalPos == item.totalPos + a;
          StillNoWrap(t.pool, t'.pool, q, posLimit);
          AtMostTail(amounts, MaxInt64);
          VoteAccepted(t', addr, rest, amts, posLimit);
          UnvotableUnchanged(t.pool, t'.pool, q);
          OverfullAfterStep(t.pool, t'.pool, peers, amounts, posLimit);
          if Overfull(t'.pool, q, rest, amts, posLimit) {
            if q !in rest {
              SumForAbsent(q, rest, amts);
            }
            assert q in rest;
          }
          ExistsShift(t.pool, t'.pool, peers, amounts, rest, amts, posLimit);
        }
      }
    }
  }

  lemma StillNoWrap(pool: PeerPool, pool': PeerPool, q: Str, posLimit: nat)
    requires NoWrap(pool, posLimit) && q in pool
    requires q in pool' && pool' == pool[q := pool[q].(totalPos := pool'[q].totalPos)]
    requires pool'[q].totalPos <= Mul64(posLimit, pool[q].initPos)
    ensures NoWrap(pool', posLimit)
  {
  }

  lemma AtMostTail(amounts: seq<nat>, bound: nat)
    requires amounts != [] && AllAtMost(amounts, bound)
    ensures AllAtMost(amounts[1..], bound)
  {
    var tail := amounts[1..];
    forall i | 0 <= i < |tail| ensures tail[i] <= bound {
      assert tail[i] == amounts[i + 1];
    }
  }

  lemma UnvotableUnchanged(pool: PeerPool, pool': PeerPool, q: Str)
    requires q in pool && q in pool' && pool' == pool[q := pool[q].(totalPos := pool'[q].totalPos)]
    ensures forall p :: Unvotable(pool, p) <==> Unvotable(pool', p)
  {
  }

  /** The existential step of VoteAccepted: the first entry is accepted,
      and if its peer is over the limit for the rest it appears again. */
  lemma ExistsShift(pool: PeerPool, pool': PeerPool, peers: seq<Str>, amounts: seq<nat>,
                    rest: seq<Str>, amts: seq<nat>, posLimit: nat)
    requires |peers| == |amounts| && peers != [] && rest == peers[1..] && amts == amounts[1..]
    requires !Unvotable(pool, peers[0])
    requires forall p :: Unvotable(pool, p) <==> Unvotable(pool', p)
    requires forall p :: Overfull(pool, p, peers, amounts, posLimit) <==> Overfull(pool', p, rest, amts, posLimit)
    requires Overfull(pool', peers[0], rest, amts, posLimit) ==> peers[0] in rest
    ensures (exists i :: 0 <= i < |peers| && Unvotable(pool, peers[i]))
            <==> (exists i :: 0 <= i < |rest| && Unvotable(pool', rest[i]))
    ensures (exists i :: 0 <= i < |peers| && Overfull(pool, peers[i], peers, amounts, posLimit))
            <==> (exists i :: 0 <= i < |rest| && Overfull(pool', rest[i], rest, amts, posLimit))
  {
    if i :| 0 <= i < |peers| && Unvotable(pool, peers[i]) {
      assert i > 0 && Unvotable(pool', rest[i - 1]);
    }
    if i :| 0 <= i < |rest| && Unvotable(pool', rest[i]) {
      assert Unvotable(pool, peers[i + 1]);
    }
    if i :| 0 <= i < |peers| && Overfull(pool, peers[i], peers, amounts, posLimit) {
      if i == 0 {
        var j :| 0 <= j < |rest| && rest[j] == peers[0];
        assert Overfull(pool', rest[j], rest, amts, posLimit);
      } else {
        assert Overfull(pool', rest[i - 1], rest, amts, posLimit);
      }
    }
    if i :| 0 <= i < |rest| && Overfull(pool', rest[i], rest, amts, posLimit) {
      assert Overfull(pool, peers[i + 1], peers, amounts, posLimit);
    }
  }

  // ----------------------------------------------------- registration

  /** The current view's pool; a view whose pool was never stored reads
      as missing. */
  function CurrentPool(s: State): Option<PeerPool>
  {
    if Initialised(s) && CurrentView(s) in s.pools then Some(s.pools[CurrentView(s)]) else None
  }

  /** The guards registerCandidate applies before it looks at InitPos, in
      order: the address's witness, the view, the black list, the pool,
      and a pubkey not yet in the pool. */
  function RegisterGuards(s: State, ctx: Ctx, p: RegisterCandidateParam): (r: Option<Error>)
    ensures r.None? <==> p.address in ctx.witnesses && CurrentPool(s).Some?
                         && p.peerPubkey !in s.blackList && p.peerPubkey !in CurrentPool(s).value
  {
    if p.address !in ctx.witnesses then Some(Unauthorized)
    else if !Initialised(s) then Some(NotFound)
    else if p.peerPubkey in s.blackList then Some(Rejected)
    else if CurrentPool(s).None? then Some(NotFound)
    else if p.peerPubkey in CurrentPool(s).value then Some(Rejected)
    else None
  }

  /** The new peer in the pool, its InitPos deposited as the owner's stake. */
  function AddCandidate(s: State, ctx: Ctx, p: RegisterCandidateParam): State
    requires CurrentPool(s).Some?
  {
    var pool := CurrentPool(s).value[p.peerPubkey := PeerPoolItem(0, p.address, Status.RegisterCandidate, p.initPos, 0)];
    DepositTotalStake(s.(pools := s.pools[CurrentView(s) := pool]), p.address, p.initPos, ctx)
  }

  /** registerCandidate: a pubkey that is neither black-listed nor in the
      pool joins it as RegisterCandidate with the given InitPos and no
      votes; an InitPos below MinInitStake is refused. */
  function RegisterCandidate(s: State, ctx: Ctx, p: RegisterCandidateParam): (r: Result<State>)
    ensures r.Ok? <==> RegisterGuards(s, ctx, p).None? && p.initPos >= s.globalParam.minInitStake
    ensures r.Ok? ==>
              CurrentPool(r.value).Some?
              && CurrentPool(r.value).value == CurrentPool(s).value[p.peerPubkey := PeerPoolItem(0, p.address, Status.RegisterCandidate, p.initPos, 0)]
              && StakeOf(r.value, p.address).stake == StakeOf(s, p.address).stake + p.initPos
              && r.value.votes == s.votes && r.value.blackList == s.blackList
  {
    match RegisterGuards(s, ctx, p)
    case Some(e) => Err(e)
    case None =>
      if p.initPos < s.globalParam.minInitStake then Err(Rejected)
      else Ok(AddCandidate(s, ctx, p))
  }

  /** registerCandidate as the repository writes it: the MinInitStake
      branch wraps the error variable, which is nil at that point, so it
      returns no error and the call succeeds without registering. */
  function RegisterCandidateAsWritten(s: State, ctx: Ctx, p: RegisterCandidateParam): (r: Result<State>)
    ensures r.Ok? <==> RegisterGuards(s, ctx, p).None?
  {
    match RegisterGuards(s, ctx, p)
    case Some(e) => Err(e)
    case None =>
      if p.initPos < s.globalParam.minInitStake then Ok(s)
      else Ok(AddCandidate(s, ctx, p))
  }

  /** As written, a stake below MinInitStake is accepted: the call
      succeeds, nothing changes and the peer is not registered. */
  lemma RegisterAsWrittenIgnoresLowStake(s: State, ctx: Ctx, p: RegisterCandidateParam)
    requires RegisterGuards(s, ctx, p).None? && p.initPos < s.globalParam.minInitStake
    ensures RegisterCandidateAsWritten(s, ctx, p) == Ok(s)
    ensures p.peerPubkey !in CurrentPool(RegisterCandidateAsWritten(s, ctx, p).value).value
    ensures RegisterCandidate(s, ctx, p).Err?
  {
  }

  // ------------------------------------------------------------- voting

  /** voteForPeer: under the voter's witness, every entry is voted in
      order against the current pool; the pool is written back and the
      sum of the amounts is deposited as the voter's stake. */
  method VoteForPeer(s: State, ctx: Ctx, p: PosListParam) returns (r: Result<State>)
    requires |p.peers| == |p.amounts|
    ensures p.address !in ctx.witnesses ==> r == Err(Unauthorized)
    ensures p.address in ctx.witnesses && CurrentPool(s).None? ==> r == Err(NotFound)
    ensures p.address in ctx.witnesses && CurrentPool(s).Some? ==>
              var t := Tallied(Vote, Tally(CurrentPool(s).value, s, 0), p.address, p.peers, p.amounts, s.globalParam.posLimit);
              (r.Err? <==> t.Err?)
              && (r.Ok? ==> r.value == DepositTotalStake(t.value.store.(pools := s.pools[CurrentView(s) := t.value.pool]),
                                                         p.address, t.value.total, ctx))
  {
    if p.address !in ctx.witnesses {
      return Err(Unauthorized);
    }
    var pool := CurrentPool(s);
    if pool.None? {
      return Err(NotFound);
    }
    var t := ApplyVotes(Vote, Tally(pool.value, s, 0), p.address, p.peers, p.amounts, s.globalParam.posLimit);
    if t.Err? {
      return Err(t.error);
    }
    var store := t.value.store;
    r := Ok(DepositTotalStake(store.(pools := s.pools[CurrentView(s) := t.value.pool]), p.address, t.value.total, ctx));
  }
}
