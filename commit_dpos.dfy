/** executeCommitDpos put together: the fee split over the previous view's
    pool, the settle loop and the election over the current pool, the new
    pool stored under the next view, the previous view's pool deleted and
    the governance view moved on. */
module CommitDpos {
  import opened Wrappers
  import opened Ints
  import opened GovernanceParams
  import opened GovernanceState
  import opened GovernanceMethod
  import opened Ranking
  import opened Commit

  /** The split curve: a consensus peer's stake, the average stake of the
      top K and Yita to the peer's share of the fee. */
  type Curve = (nat, nat, nat) -> Result<nat>

  /** The views either side of the current one, as uint32 arithmetic. */
  function PrevView(s: State): nat
    requires Initialised(s)
  {
    Sub32(CurrentView(s), 1)
  }

  function NextView(s: State): nat
    requires Initialised(s)
  {
    Add32(CurrentView(s), 1)
  }

  /** `splitOrder` and `order` are orders Go may iterate the previous and
      the current pool in. */
  predicate CommitOrders(s: State, splitOrder: seq<Str>, order: seq<Str>)
  {
    Initialised(s) ==>
      (PrevView(s) in s.pools ==> IsOrder(splitOrder, s.pools[PrevView(s)]))
      && (CurrentView(s) in s.pools ==> IsOrder(order, s.pools[CurrentView(s)]))
  }

  /** executeSplit returns an error or panics. */
  predicate SplitFails(pool: PeerPool, order: seq<Str>, gp: GlobalParam, k: nat, height: nat, curve: Curve)
    requires forall key :: key in order ==> key in pool
  {
    var ranked := RankedPeers(pool, order);
    |ranked| < k || k == 0
    || (TopSum(ranked, k) >= k && SplitOf(pool, ranked, k, gp.yita, height, curve).None?)
  }

  /** The store once the election is over. */
  function Committed(s: State, el: Settlement, ctx: Ctx): State
    requires Initialised(s)
  {
    el.store.(pools := el.store.pools[NextView(s) := el.pool] - {PrevView(s)},
              governanceView := Some(GovernanceView(NextView(s), ctx.height, ctx.txHash)))
  }

  /** What executeCommitDpos does to the store, step by step. */
  ghost function CommitOutcome(s: State, k: nat, ctx: Ctx, splitOrder: seq<Str>, order: seq<Str>, curve: Curve)
    : (r: Result<State>)
    requires CommitOrders(s, splitOrder, order)
    ensures !Initialised(s) ==> r == Err(NotFound)
    ensures Initialised(s) && PrevView(s) !in s.pools ==> r == Err(NotFound)
    ensures r.Ok? ==> Initialised(s) && CurrentView(s) in s.pools
                      && r.value.governanceView == Some(GovernanceView(NextView(s), ctx.height, ctx.txHash))
  {
    if !Initialised(s) || PrevView(s) !in s.pools then Err(NotFound)
    else if SplitFails(s.pools[PrevView(s)], splitOrder, s.globalParam, k, ctx.height, curve) then Err(Rejected)
    else if CurrentView(s) !in s.pools then Err(NotFound)
    else PoolOutcome(s, s.pools[CurrentView(s)], k, ctx, order)
  }

  /** The commit once the split is paid: settle the current pool, then elect. */
  ghost function PoolOutcome(s: State, pool: PeerPool, k: nat, ctx: Ctx, order: seq<Str>): Result<State>
    requires Initialised(s) && forall key :: key in order ==> key in pool
  {
    match Settled(Settlement(s, pool), pool, order, ctx)
    case Err(e) => Err(e)
    case Ok(st) => ElectOutcome(s, st, ActiveStakes(pool, order), k, ctx)
  }

  /** The commit once the pool is settled: check K, rank, elect and store. */
  function ElectOutcome(s: State, st: Settlement, peers: seq<PeerStake>, k: nat, ctx: Ctx): Result<State>
    requires Initialised(s)
  {
    if |peers| < k then Err(Rejected)
    else
      match Elected(st, Ranked(peers), k, |peers|)
      case Err(e) => Err(e)
      case Ok(el) => Ok(Committed(s, el, ctx))
  }

  /** executeCommitDpos with K = `k`. Go wraps every error it passes up, so
      only whether the commit fails is stated, and on success the new store. */
  method ExecuteCommitDpos(s: State, k: nat, ctx: Ctx, splitOrder: seq<Str>, order: seq<Str>, curve: Curve)
    returns (r: Result<State>)
    requires CommitOrders(s, splitOrder, order)
    ensures r.Err? <==> CommitOutcome(s, k, ctx, splitOrder, order, curve).Err?
    ensures r.Ok? ==> r == CommitOutcome(s, k, ctx, splitOrder, order, curve)
    ensures r.Ok? ==> Initialised(s) && PrevView(s) in s.pools && CurrentView(s) in s.pools
                      && !SplitFails(s.pools[PrevView(s)], splitOrder, s.globalParam, k, ctx.height, curve)
                      && r == PoolOutcome(s, s.pools[CurrentView(s)], k, ctx, order)
  {
    if s.governanceView.None? {
      return Err(NotFound);
    }
    var view := s.governanceView.value.view;
    var newView := Add32(view, 1);
    if Sub32(view, 1) !in s.pools {
      return Err(NotFound);
    }
    var split := ExecuteSplit(s.pools[Sub32(view, 1)], splitOrder, s.globalParam, k, ctx.height, curve);
    if split.Err? {
      return Err(split.error);
    }
    if view !in s.pools {
      return Err(NotFound);
    }
    var pool := s.pools[view];
    var settled, peers := SettlePool(s, pool, order, ctx);
    if settled.Err? {
      return Err(settled.error);
    }
    if |peers| < k {
      return Err(Rejected);
    }
    var ranked := Ranked(peers);
    var elected := ElectPeers(settled.value, ranked, k);
    if elected.Err? {
      return Err(elected.error);
    }
    var st := elected.value;
    var store := st.store.(pools := st.store.pools[newView := st.pool]);
    store := store.(pools := store.pools - {Sub32(view, 1)});
    r := Ok(store.(governanceView := Some(GovernanceView(newView, ctx.height, ctx.txHash))));
  }

  // ------------------------------------------------------------- ranking

  /** How many active peers of the pool rank before `key`. */
  function Rank(pool: PeerPool, order: seq<Str>, key: Str): nat
    requires key in pool && forall k :: k in order ==> k in pool
  {
    CountBetter(StakeEntry(key, pool[key]), ActiveStakes(pool, order))
  }

  /** A peer's rank does not depend on the order the pool is iterated in. */
  lemma RankIndependent(pool: PeerPool, o1: seq<Str>, o2: seq<Str>, key: Str)
    requires key in pool && IsOrder(o1, pool) && IsOrder(o2, pool)
    ensures Rank(pool, o1, key) == Rank(pool, o2, key)
  {
    ActiveStakesPermutation(pool, o1, o2);
    CountBetterPermutation(StakeEntry(key, pool[key]), ActiveStakes(pool, o1), ActiveStakes(pool, o2));
  }

  /** Every active peer has a place in the ranking. */
  lemma ActivePlace(pool: PeerPool, order: seq<Str>, key: Str) returns (i: nat)
    requires IsOrder(order, pool) && key in pool && Active(pool[key])
    ensures i < |Ranked(ActiveStakes(pool, order))|
    ensures Ranked(ActiveStakes(pool, order))[i] == StakeEntry(key, pool[key])
  {
    var peers := ActiveStakes(pool, order);
    ActiveStakesMembers(pool, order, StakeEntry(key, pool[key]));
    assert StakeEntry(key, pool[key]) in multiset(Ranked(peers));
    i :| 0 <= i < |Ranked(peers)| && Ranked(peers)[i] == StakeEntry(key, pool[key]);
  }

  /** Every place of the ranking holds an active peer, with its stake, and
      the place is below K exactly when the peer's rank is. */
  lemma PlaceActive(pool: PeerPool, order: seq<Str>, i: nat, k: nat)
    requires IsOrder(order, pool) && i < |Ranked(ActiveStakes(pool, order))|
    ensures var x := Ranked(ActiveStakes(pool, order))[i];
            x.key in pool && Active(pool[x.key]) && x == StakeEntry(x.key, pool[x.key])
            && ((i < k) <==> Rank(pool, order, x.key) < k)
  {
    var peers := ActiveStakes(pool, order);
    var x := Ranked(peers)[i];
    assert x in multiset(peers);
    ActiveStakesMembers(pool, order, x);
    ActiveStakesDistinct(pool, order);
    RankOfPosition(peers, i, k);
  }

  // ---------------------------------------------------- a successful commit

  /** The transition the records of an active peer go through at a commit. */
  function RankedTransition(s: State, pool: PeerPool, order: seq<Str>, k: nat, key: Str): Option<Ballots>
    requires key in pool && forall o :: o in order ==> o in pool
  {
    EpochOutcome(BallotsOf(s, key), EpochFor(pool[key].status == Consensus, Rank(pool, order, key) < k))
  }

  /** After the settle loop an active peer is where it was, with the records
      it had, and its transition is the one its rank calls for. */
  lemma SettledPlace(s: State, pool: PeerPool, order: seq<Str>, k: nat, st: Settlement, i: nat)
    requires IsOrder(order, pool) && SettleInv(s, pool, pool.Keys, st)
    requires i < |Ranked(ActiveStakes(pool, order))|
    ensures var key := Ranked(ActiveStakes(pool, order))[i].key;
            key in pool && Active(pool[key]) && key in st.pool && st.pool[key] == pool[key]
            && Transitioned(st, key, i < k) == RankedTransition(s, pool, order, k, key)
  {
    PlaceActive(pool, order, i, k);
    var key := Ranked(ActiveStakes(pool, order))[i].key;
    assert BallotsOf(st.store, key) == SettledBallots(s, pool, key);
  }

  /** The ranking's keys are distinct and all still in the settled pool. */
  lemma RankedSettled(s: State, pool: PeerPool, order: seq<Str>, k: nat, st: Settlement)
    requires IsOrder(order, pool) && SettleInv(s, pool, pool.Keys, st)
    ensures var ranked := Ranked(ActiveStakes(pool, order));
            DistinctKeys(ranked) && forall i :: 0 <= i < |ranked| ==> ranked[i].key in st.pool
  {
    var ranked := Ranked(ActiveStakes(pool, order));
    ActiveStakesDistinct(pool, order);
    RankedSorted(ActiveStakes(pool, order));
    forall i | 0 <= i < |ranked| ensures ranked[i].key in st.pool {
      SettledPlace(s, pool, order, k, st, i);
    }
  }

  /** The intermediate results of a successful commit. */
  lemma PoolSteps(s: State, pool: PeerPool, k: nat, ctx: Ctx, order: seq<Str>)
    returns (st: Settlement, el: Settlement)
    requires Initialised(s) && IsOrder(order, pool)
    requires PoolOutcome(s, pool, k, ctx, order).Ok?
    ensures var ranked := Ranked(ActiveStakes(pool, order));
            SettleInv(s, pool, pool.Keys, st)
            && DistinctKeys(ranked)
            && (forall i :: 0 <= i < |ranked| ==> ranked[i].key in st.pool)
            && ElectInv(st, ranked, k, |ranked|, el)
            && PoolOutcome(s, pool, k, ctx, order) == Ok(Committed(s, el, ctx))
  {
    var peers := ActiveStakes(pool, order);
    var ranked := Ranked(peers);
    SettledInvariant(s, pool, order, ctx);
    st := Settled(Settlement(s, pool), pool, order, ctx).value;
    assert PoolOutcome(s, pool, k, ctx, order) == ElectOutcome(s, st, peers, k, ctx);
    assert KeySet(order) == pool.Keys;
    RankedSettled(s, pool, order, k, st);
    ElectedInvariant(st, ranked, k, |ranked|);
    el := Elected(st, ranked, k, |ranked|).value;
  }

  /** The election's effect on the pool. */
  lemma ElectedPool(s: State, pool: PeerPool, order: seq<Str>, k: nat, st: Settlement, el: Settlement)
    requires IsOrder(order, pool) && SettleInv(s, pool, pool.Keys, st)
    requires ElectInv(st, Ranked(ActiveStakes(pool, order)), k, |ActiveStakes(pool, order)|, el)
    ensures forall key :: key in el.pool ==> key in pool && !Leaves(pool[key].status)
    ensures forall key :: key in pool && Active(pool[key]) ==>
              key in el.pool && el.pool[key] == Elect(pool[key], Rank(pool, order, key) < k)
    ensures forall key :: key in pool && !Leaves(pool[key].status) && !Active(pool[key]) ==>
              key in el.pool && el.pool[key] == Kept(pool[key])
  {
    forall key | key in pool && Active(pool[key])
      ensures key in el.pool && el.pool[key] == Elect(pool[key], Rank(pool, order, key) < k)
    {
      ElectedActive(s, pool, order, k, st, el, key);
    }
    forall key | !(key in pool && Active(pool[key]))
      ensures key in pool && !Leaves(pool[key].status) ==> key in el.pool && el.pool[key] == Kept(pool[key])
    {
      ElectedOther(s, pool, order, k, st, el, key);
    }
  }

  /** A peer the election does not rank is as the settle loop left it. */
  lemma ElectedOther(s: State, pool: PeerPool, order: seq<Str>, k: nat, st: Settlement, el: Settlement, key: Str)
    requires IsOrder(order, pool) && SettleInv(s, pool, pool.Keys, st)
    requires ElectInv(st, Ranked(ActiveStakes(pool, order)), k, |ActiveStakes(pool, order)|, el)
    requires !(key in pool && Active(pool[key]))
    ensures key in pool && !Leaves(pool[key].status) ==> key in el.pool && el.pool[key] == Kept(pool[key])
    ensures BallotsOf(el.store, key) == SettledBallots(s, pool, key)
  {
    NotRanked(s, pool, order, k, st, key);
    assert ElectedOthers(st, Ranked(ActiveStakes(pool, order)), |ActiveStakes(pool, order)|, el);
    WholePrefix(Ranked(ActiveStakes(pool, order)));
  }

  /** An active peer after the election: its status by rank, its records
      through the transition its rank calls for. */
  lemma ElectedActive(s: State, pool: PeerPool, order: seq<Str>, k: nat, st: Settlement, el: Settlement, key: Str)
    requires IsOrder(order, pool) && SettleInv(s, pool, pool.Keys, st)
    requires ElectInv(st, Ranked(ActiveStakes(pool, order)), k, |ActiveStakes(pool, order)|, el)
    requires key in pool && Active(pool[key])
    ensures key in el.pool && el.pool[key] == Elect(pool[key], Rank(pool, order, key) < k)
    ensures RankedTransition(s, pool, order, k, key) == Some(BallotsOf(el.store, key))
  {
    var i := ActivePlace(pool, order, key);
    SettledPlace(s, pool, order, k, st, i);
    PlaceActive(pool, order, i, k);
    assert ElectedRanked(st, Ranked(ActiveStakes(pool, order)), k, |ActiveStakes(pool, order)|, el);
  }

  /** The election's effect on the vote records of peers it does not rank. */
  lemma ElectedOthersBallots(s: State, pool: PeerPool, order: seq<Str>, k: nat, st: Settlement, el: Settlement)
    requires IsOrder(order, pool) && SettleInv(s, pool, pool.Keys, st)
    requires ElectInv(st, Ranked(ActiveStakes(pool, order)), k, |ActiveStakes(pool, order)|, el)
    ensures forall key :: !(key in pool && Active(pool[key])) ==>
              BallotsOf(el.store, key) == SettledBallots(s, pool, key)
  {
    forall key | !(key in pool && Active(pool[key]))
      ensures BallotsOf(el.store, key) == SettledBallots(s, pool, key)
    {
      ElectedOther(s, pool, order, k, st, el, key);
    }
  }

  /** A peer that is not active has no place in the ranking. */
  lemma NotRanked(s: State, pool: PeerPool, order: seq<Str>, k: nat, st: Settlement, key: Str)
    requires IsOrder(order, pool) && SettleInv(s, pool, pool.Keys, st)
    requires !(key in pool && Active(pool[key]))
    ensures key !in StakeKeys(Ranked(ActiveStakes(pool, order)))
  {
    var ranked := Ranked(ActiveStakes(pool, order));
    forall i | 0 <= i < |ranked| ensures ranked[i].key != key {
      PlaceActive(pool, order, i, k);
    }
  }

  /** The pool of the next view after a commit of the current pool `pool`:
      peers that quit or are black-listed are gone, the active peers are
      elected by rank (Consensus exactly when fewer than K active peers
      rank before them, Candidate otherwise), a QuitConsensus peer is now
      Quiting and every other peer is kept. */
  lemma CommitPool(s: State, pool: PeerPool, k: nat, ctx: Ctx, order: seq<Str>)
    requires Initialised(s) && IsOrder(order, pool)
    requires PoolOutcome(s, pool, k, ctx, order).Ok?
    ensures var r := PoolOutcome(s, pool, k, ctx, order).value;
            NextView(s) in r.pools
            && (forall key :: key in r.pools[NextView(s)] ==> key in pool && !Leaves(pool[key].status))
            && (forall key :: key in pool && Active(pool[key]) ==>
                  key in r.pools[NextView(s)]
                  && r.pools[NextView(s)][key] == Elect(pool[key], Rank(pool, order, key) < k))
            && (forall key :: key in pool && !Leaves(pool[key].status) && !Active(pool[key]) ==>
                  key in r.pools[NextView(s)] && r.pools[NextView(s)][key] == Kept(pool[key]))
  {
    var st, el := PoolSteps(s, pool, k, ctx, order);
    ElectedPool(s, pool, order, k, st, el);
    assert NextView(s) != PrevView(s);
  }

  /** The records after a commit: an active peer's went through the
      transition its old role and its rank call for. */
  lemma CommitBallots(s: State, pool: PeerPool, k: nat, ctx: Ctx, order: seq<Str>, key: Str)
    requires Initialised(s) && IsOrder(order, pool)
    requires PoolOutcome(s, pool, k, ctx, order).Ok?
    requires key in pool && Active(pool[key])
    ensures RankedTransition(s, pool, order, k, key) == Some(BallotsOf(PoolOutcome(s, pool, k, ctx, order).value, key))
  {
    var st, el := PoolSteps(s, pool, k, ctx, order);
    ElectedActive(s, pool, order, k, st, el, key);
  }

  /** The records after a commit: a peer that left had its records
      settled, and no record of a peer outside the ranking changed. */
  lemma CommitSettledBallots(s: State, pool: PeerPool, k: nat, ctx: Ctx, order: seq<Str>)
    requires Initialised(s) && IsOrder(order, pool)
    requires PoolOutcome(s, pool, k, ctx, order).Ok?
    ensures forall key :: !(key in pool && Active(pool[key])) ==>
              BallotsOf(PoolOutcome(s, pool, k, ctx, order).value, key) == SettledBallots(s, pool, key)
  {
    var st, el := PoolSteps(s, pool, k, ctx, order);
    ElectedOthersBallots(s, pool, order, k, st, el);
  }

  /** Nothing else changes: the next view's pool is written and the
      previous view's deleted, the governance view moves to the next view
      at this height and transaction, and besides the vote records only
      the stakes of black-listed peers' voters move. */
  lemma CommitFrame(s: State, pool: PeerPool, k: nat, ctx: Ctx, order: seq<Str>)
    requires Initialised(s) && IsOrder(order, pool)
    requires PoolOutcome(s, pool, k, ctx, order).Ok?
    ensures var r := PoolOutcome(s, pool, k, ctx, order).value;
            NextView(s) in r.pools
            && r.pools == s.pools[NextView(s) := r.pools[NextView(s)]] - {PrevView(s)}
            && r.governanceView == Some(GovernanceView(NextView(s), ctx.height, ctx.txHash))
            && r == s.(pools := r.pools, governanceView := r.governanceView, votes := r.votes,
                       totalStakes := r.totalStakes, penaltyStakes := r.penaltyStakes)
            && ((forall key :: key in pool ==> pool[key].status != Black) ==>
                  r.totalStakes == s.totalStakes && r.penaltyStakes == s.penaltyStakes)
  {
    var st, el := PoolSteps(s, pool, k, ctx, order);
    assert NextView(s) != PrevView(s);
  }

  /** When the commit of the current pool fails: when fewer than K peers
      are active, and, with no black-listed peer to settle, exactly when
      some active peer's records cannot make the transition its rank calls
      for. */
  lemma CommitFails(s: State, pool: PeerPool, k: nat, ctx: Ctx, order: seq<Str>)
    requires Initialised(s) && IsOrder(order, pool)
    ensures |ActiveStakes(pool, order)| < k ==> PoolOutcome(s, pool, k, ctx, order).Err?
    ensures k <= |ActiveStakes(pool, order)| && (forall key :: key in pool ==> pool[key].status != Black) ==>
              (PoolOutcome(s, pool, k, ctx, order).Ok?
               <==> forall key :: key in pool && Active(pool[key]) ==> RankedTransition(s, pool, order, k, key).Some?)
  {
    var peers := ActiveStakes(pool, order);
    var ranked := Ranked(peers);
    SettledInvariant(s, pool, order, ctx);
    var r := Settled(Settlement(s, pool), pool, order, ctx);
    if r.Ok? {
      var st := r.value;
      assert PoolOutcome(s, pool, k, ctx, order) == ElectOutcome(s, st, peers, k, ctx);
      if k <= |peers| {
        assert KeySet(order) == pool.Keys;
        RankedSettled(s, pool, order, k, st);
        ElectedInvariant(st, ranked, k, |ranked|);
        TransitionsAgree(s, pool, order, k, st);
      }
    }
  }

  /** The election's own condition and the rank-based one agree. */
  lemma TransitionsAgree(s: State, pool: PeerPool, order: seq<Str>, k: nat, st: Settlement)
    requires IsOrder(order, pool) && SettleInv(s, pool, pool.Keys, st)
    requires var ranked := Ranked(ActiveStakes(pool, order));
             forall i :: 0 <= i < |ranked| ==> ranked[i].key in st.pool
    ensures AllTransition(st, Ranked(ActiveStakes(pool, order)), k, |ActiveStakes(pool, order)|)
        <==> forall key :: key in pool && Active(pool[key]) ==> RankedTransition(s, pool, order, k, key).Some?
  {
    var ranked := Ranked(ActiveStakes(pool, order));
    if AllTransition(st, ranked, k, |ranked|) {
      forall key | key in pool && Active(pool[key])
        ensures RankedTransition(s, pool, order, k, key).Some?
      {
        var i := ActivePlace(pool, order, key);
        SettledPlace(s, pool, order, k, st, i);
      }
    }
    if forall key :: key in pool && Active(pool[key]) ==> RankedTransition(s, pool, order, k, key).Some? {
      forall i | 0 <= i < |ranked|
        ensures Transitioned(st, ranked[i].key, i < k).Some?
      {
        SettledPlace(s, pool, order, k, st, i);
      }
    }
  }

  lemma WholePrefix(l: seq<PeerStake>)
    ensures l[..|l|] == l
  {
  }
}
