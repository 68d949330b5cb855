/** The handlers of the governance contract (governance.go): each reads
    the store, checks its guards and either fails, leaving the store as it
    was, or returns the whole new store. Witness checks read the
    transaction's witnesses and the administrator's address from `Ctx`. */
module GovernanceHandlers {
  import opened Wrappers
  import opened Ints
  import opened Codec
  import opened GovernanceParams
  import opened GovernanceState
  import opened GovernanceMethod
  import opened Commit
  import opened CommitDpos

  /** The transaction carries the administrator's witness. */
  predicate AdminSigned(ctx: Ctx)
  {
    ctx.admin in ctx.witnesses
  }

  // ------------------------------------------------------------ counting

  /** The Candidate and Consensus peers of a pool. */
  function ActiveKeys(pool: PeerPool): (r: set<Str>)
    ensures r <= pool.Keys
  {
    set k | k in pool && Active(pool[k])
  }

  /** The counting loop of approveCandidate, quitNode and updateConfig. */
  method CountActive(pool: PeerPool) returns (num: nat)
    ensures num == |ActiveKeys(pool)|
  {
    num := 0;
    var todo := pool.Keys;
    while todo != {}
      invariant todo <= pool.Keys
      invariant num == |ActiveKeys(pool) - todo|
      decreases todo
    {
      var k :| k in todo;
      CountedStep(pool, todo, k);
      if Active(pool[k]) {
        num := num + 1;
      }
      todo := todo - {k};
    }
    assert ActiveKeys(pool) - todo == ActiveKeys(pool);
  }

  /** Taking one key off the to-do set counts it when it is active. */
  lemma CountedStep(pool: PeerPool, todo: set<Str>, k: Str)
    requires todo <= pool.Keys && k in todo
    ensures |ActiveKeys(pool) - (todo - {k})| == |ActiveKeys(pool) - todo| + (if Active(pool[k]) then 1 else 0)
  {
    if Active(pool[k]) {
      assert ActiveKeys(pool) - (todo - {k}) == (ActiveKeys(pool) - todo) + {k};
    } else {
      assert ActiveKeys(pool) - (todo - {k}) == ActiveKeys(pool) - todo;
    }
  }

  /** The active peers of an order, as a set. */
  function ActiveOf(pool: PeerPool, order: seq<Str>): set<Str>
    requires forall k :: k in order ==> k in pool
  {
    set k | k in order && Active(pool[k])
  }

  lemma {:induction false} ActiveStakesCount(pool: PeerPool, order: seq<Str>)
    requires forall k :: k in order ==> k in pool
    requires forall i, j :: 0 <= i < j < |order| ==> order[i] != order[j]
    ensures |ActiveStakes(pool, order)| == |ActiveOf(pool, order)|
  {
    if order != [] {
      var init := order[..|order| - 1];
      ActiveStakesCount(pool, init);
      LastNotInInit(order);
      ActiveOfSnoc(pool, order);
    }
  }

  /** In a list without repeats the last key is not among the others. */
  lemma LastNotInInit(order: seq<Str>)
    requires order != []
    requires forall i, j :: 0 <= i < j < |order| ==> order[i] != order[j]
    ensures order[|order| - 1] !in order[..|order| - 1]
  {
    var init := order[..|order| - 1];
    forall i | 0 <= i < |init| ensures init[i] != order[|order| - 1] {
      assert init[i] == order[i];
    }
  }

  /** ActiveOf grows by the last key exactly when that peer is active. */
  lemma ActiveOfSnoc(pool: PeerPool, order: seq<Str>)
    requires order != [] && forall k :: k in order ==> k in pool
    ensures var init, last := order[..|order| - 1], order[|order| - 1];
            ActiveOf(pool, order) == ActiveOf(pool, init) + (if Active(pool[last]) then {last} else {})
  {
    var init, last := order[..|order| - 1], order[|order| - 1];
    assert order == init + [last];
  }

  /** The count the handlers make is the number of peers the commit
      elects from, whatever order the commit iterates the pool in. */
  lemma ActiveCountMatches(pool: PeerPool, order: seq<Str>)
    requires IsOrder(order, pool)
    ensures |ActiveStakes(pool, order)| == |ActiveKeys(pool)|
  {
    ActiveStakesCount(pool, order);
    assert ActiveOf(pool, order) == ActiveKeys(pool);
  }

  // ----------------------------------------------------------- InitConfig

  /** A genesis peer of the VBFT configuration. */
  datatype GenesisPeer = GenesisPeer(index: nat, peerPubkey: Str, address: Address, initPos: nat)

  /** The part of the VBFT configuration InitConfig reads. */
  datatype VbftConfig = VbftConfig(
    n: nat, c: nat, k: nat, l: nat, blockMsgDelay: nat, hashMsgDelay: nat,
    peerHandshakeTimeout: nat, maxBlockChangeView: nat, minInitStake: nat,
    peers: seq<GenesisPeer>)

  /** The pool item of a genesis peer: consensus, unvoted. */
  function GenesisItem(p: GenesisPeer): PeerPoolItem
  {
    PeerPoolItem(p.index, p.address, Consensus, p.initPos, 0)
  }

  /** The largest genesis index, 0 for no peers. */
  function MaxIndex(peers: seq<GenesisPeer>): nat
  {
    if peers == [] then 0
    else
      var m := MaxIndex(peers[..|peers| - 1]);
      if peers[|peers| - 1].index > m then peers[|peers| - 1].index else m
  }

  /** MaxIndex is the largest index, and one of them unless there are none. */
  lemma {:induction false} MaxIndexIsMax(peers: seq<GenesisPeer>)
    ensures forall i :: 0 <= i < |peers| ==> peers[i].index <= MaxIndex(peers)
    ensures MaxIndex(peers) == 0 || exists i :: 0 <= i < |peers| && peers[i].index == MaxIndex(peers)
  {
    if peers != [] {
      var init := peers[..|peers| - 1];
      MaxIndexIsMax(init);
      assert forall i :: 0 <= i < |init| ==> init[i] == peers[i];
    }
  }

  function PubkeysOf(peers: seq<GenesisPeer>): set<Str>
  {
    set i | 0 <= i < |peers| :: peers[i].peerPubkey
  }

  /** The genesis pool: every peer under its pubkey, a later entry for the
      same pubkey replacing an earlier one. */
  function GenesisPool(peers: seq<GenesisPeer>): PeerPool
  {
    if peers == [] then map[]
    else
      var last := peers[|peers| - 1];
      GenesisPool(peers[..|peers| - 1])[last.peerPubkey := GenesisItem(last)]
  }

  /** The genesis pool holds exactly the listed pubkeys, each a Consensus
      peer with no votes made from one of the entries for its pubkey. */
  lemma {:induction false} GenesisPoolShape(peers: seq<GenesisPeer>)
    ensures GenesisPool(peers).Keys == PubkeysOf(peers)
    ensures forall k :: k in GenesisPool(peers) ==>
              GenesisPool(peers)[k].status == Consensus && GenesisPool(peers)[k].totalPos == 0
    ensures forall k :: k in GenesisPool(peers) ==>
              exists i :: 0 <= i < |peers| && peers[i].peerPubkey == k && GenesisPool(peers)[k] == GenesisItem(peers[i])
  {
    if peers != [] {
      var init := peers[..|peers| - 1];
      var last := peers[|peers| - 1];
      GenesisPoolShape(init);
      assert forall i :: 0 <= i < |init| ==> init[i] == peers[i];
      assert PubkeysOf(peers) == PubkeysOf(init) + {last.peerPubkey};
    }
  }

  /** The peer indexes stored for the genesis peers. */
  function GenesisIndex(m: map<Str, nat>, peers: seq<GenesisPeer>): map<Str, nat>
  {
    if peers == [] then m
    else
      var last := peers[|peers| - 1];
      GenesisIndex(m, peers[..|peers| - 1])[last.peerPubkey := last.index]
  }

  /** Each genesis pubkey's index is the index of its pool item; other
      stored indexes stay. */
  lemma {:induction false} GenesisIndexStored(m: map<Str, nat>, peers: seq<GenesisPeer>)
    ensures forall k :: k in GenesisPool(peers) ==>
              k in GenesisIndex(m, peers) && GenesisIndex(m, peers)[k] == GenesisPool(peers)[k].index
    ensures forall k :: k !in GenesisPool(peers) ==>
              (k in GenesisIndex(m, peers) <==> k in m) && (k in m ==> GenesisIndex(m, peers)[k] == m[k])
  {
    if peers != [] {
      GenesisIndexStored(m, peers[..|peers| - 1]);
    }
  }

  /** The InitPos the genesis peers owned by `a` bring. */
  function GenesisStake(a: Address, peers: seq<GenesisPeer>): nat
  {
    if peers == [] then 0
    else
      var last := peers[|peers| - 1];
      GenesisStake(a, peers[..|peers| - 1]) + (if last.address == a then last.initPos else 0)
  }

  predicate OwnsGenesis(a: Address, peers: seq<GenesisPeer>)
  {
    exists i :: 0 <= i < |peers| && peers[i].address == a
  }

  /** Every genesis peer's InitPos deposited as its owner's stake. */
  function GenesisDeposits(s: State, peers: seq<GenesisPeer>, ctx: Ctx): State
  {
    if peers == [] then s
    else
      var last := peers[|peers| - 1];
      DepositTotalStake(GenesisDeposits(s, peers[..|peers| - 1], ctx), last.address, last.initPos, ctx)
  }

  /** Each owner's stake grows by the InitPos of all its genesis peers and
      is stamped with the current time; nothing else changes. */
  lemma {:induction false} GenesisDepositsStake(s: State, peers: seq<GenesisPeer>, ctx: Ctx)
    ensures GenesisDeposits(s, peers, ctx) == s.(totalStakes := GenesisDeposits(s, peers, ctx).totalStakes)
    ensures forall a :: StakeOf(GenesisDeposits(s, peers, ctx), a).stake == StakeOf(s, a).stake + GenesisStake(a, peers)
    ensures forall a :: StakeOf(GenesisDeposits(s, peers, ctx), a).timeOffset
                        == if OwnsGenesis(a, peers) then ctx.timeOffset else StakeOf(s, a).timeOffset
  {
    if peers != [] {
      var init := peers[..|peers| - 1];
      var last := peers[|peers| - 1];
      GenesisDepositsStake(s, init, ctx);
      assert forall i :: 0 <= i < |init| ==> init[i] == peers[i];
      assert forall a :: OwnsGenesis(a, peers) <==> OwnsGenesis(a, init) || last.address == a;
    }
  }

  /** The global parameters InitConfig stores. */
  function DefaultGlobalParam(minInitStake: nat): GlobalParam
  {
    GlobalParam(100000000, minInitStake, 51, 20, 40, 60, 5, 5)
  }

  /** The split curve InitConfig stores. */
  const InitialSplitCurve: seq<nat> := [
    0, 95123, 180968, 258213, 327493, 389401, 444491, 493282, 536257, 573866, 606531, 634645, 658574, 678660, 695220, 708550,
    718927, 726606, 731826, 734808, 735759, 734870, 732317, 728265, 722867, 716262, 708583, 699949, 690472, 680254, 669391,
    657969, 646069, 633765, 621124, 608209, 595076, 581778, 568361, 554869, 541342, 527814, 514317, 500882, 487534, 474297,
    461191, 448236, 435447, 422839, 410425, 398217, 386223, 374452, 362910, 351604, 340537, 329713, 319135, 308805, 298723,
    288890, 279306, 269969, 260879, 252033, 243429, 235066, 226939, 219045, 211382, 203945, 196731, 189736, 182955, 176384,
    170018, 163854, 157887, 152113, 146526, 141122, 135896, 130845, 125963, 121246, 116690, 112290, 108041, 103940, 99981,
    96162, 92477, 88923, 85496, 82192, 79006, 75936, 72977, 70126, 67380]

  /** Stored indexes are all below the next candidate index, so the index
      approveCandidate hands out is not yet taken. */
  predicate IndexesFresh(s: State)
  {
    forall p :: p in s.peerIndex ==> s.peerIndex[p] < s.candidateIndex
  }

  /** The store initConfig writes: the genesis pool at views 0 and 1, the
      genesis indexes and deposits, view 1, the default parameters, the
      configuration and the split curve. */
  function GenesisStore(s: State, ctx: Ctx, cfg: VbftConfig): (r: State)
    ensures Initialised(r) && CurrentView(r) == 1 && CurrentPool(r) == Some(GenesisPool(cfg.peers))
    ensures 0 in r.pools && r.pools[0] == GenesisPool(cfg.peers)
    ensures GenesisPool(cfg.peers).Keys == PubkeysOf(cfg.peers)
    ensures forall k :: k in GenesisPool(cfg.peers) ==>
              GenesisPool(cfg.peers)[k].status == Consensus && GenesisPool(cfg.peers)[k].totalPos == 0
    ensures forall a :: StakeOf(r, a).stake == StakeOf(s, a).stake + GenesisStake(a, cfg.peers)
    ensures forall v :: v != 0 && v != 1 ==> (v in r.pools <==> v in s.pools) && (v in s.pools ==> r.pools[v] == s.pools[v])
    ensures r.candidateIndex == Add32(MaxIndex(cfg.peers), 1)
    ensures |r.splitCurve| == SplitCurveLength
    ensures r.votes == s.votes && r.blackList == s.blackList && r.penaltyStakes == s.penaltyStakes
    ensures s.peerIndex == map[] && MaxIndex(cfg.peers) < MaxUint32 ==> IndexesFresh(r)
  {
    GenesisPoolShape(cfg.peers);
    GenesisIndexStored(s.peerIndex, cfg.peers);
    GenesisDepositsStake(s, cfg.peers, ctx);
    MaxIndexIsMax(cfg.peers);
    var pool := GenesisPool(cfg.peers);
    GenesisDeposits(s, cfg.peers, ctx).(
      globalParam := DefaultGlobalParam(cfg.minInitStake),
      pools := s.pools[0 := pool][1 := pool],
      peerIndex := GenesisIndex(s.peerIndex, cfg.peers),
      candidateIndex := Add32(MaxIndex(cfg.peers), 1),
      governanceView := Some(GovernanceView(1, ctx.height, ctx.txHash)),
      config := Configuration(cfg.n, cfg.c, cfg.k, cfg.l, cfg.blockMsgDelay, cfg.hashMsgDelay,
                              cfg.peerHandshakeTimeout, cfg.maxBlockChangeView),
      splitCurve := InitialSplitCurve)
  }

  /** The peer loop of initConfig. */
  method CollectGenesis(s: State, peers: seq<GenesisPeer>, ctx: Ctx)
    returns (maxId: nat, pool: PeerPool, index: map<Str, nat>, store: State)
    ensures maxId == MaxIndex(peers) && pool == GenesisPool(peers)
    ensures index == GenesisIndex(s.peerIndex, peers) && store == GenesisDeposits(s, peers, ctx)
  {
    maxId, pool, index, store := 0, map[], s.peerIndex, s;
    var i := 0;
    while i < |peers|
      invariant 0 <= i <= |peers|
      invariant maxId == MaxIndex(peers[..i])
      invariant pool == GenesisPool(peers[..i])
      invariant index == GenesisIndex(s.peerIndex, peers[..i])
      invariant store == GenesisDeposits(s, peers[..i], ctx)
    {
      var peer := peers[i];
      assert peers[..i + 1][..i] == peers[..i];
      if peer.index > maxId {
        maxId := peer.index;
      }
      pool := pool[peer.peerPubkey := GenesisItem(peer)];
      index := index[peer.peerPubkey := peer.index];
      store := DepositTotalStake(store, peer.address, peer.initPos, ctx);
      i := i + 1;
    }
    assert peers[..i] == peers;
  }

  /** initConfig: only once, and only for a configuration the VBFT check
      accepts (`vbftOk`); then the genesis store. */
  method InitConfig(s: State, ctx: Ctx, cfg: VbftConfig, vbftOk: bool) returns (r: Result<State>)
    ensures r.Err? <==> Initialised(s) || !vbftOk
    ensures r.Ok? ==> r.value == GenesisStore(s, ctx, cfg)
  {
    if s.governanceView.Some? {
      return Err(Rejected);
    }
    if !vbftOk {
      return Err(Rejected);
    }
    var maxId, pool, index, store := CollectGenesis(s, cfg.peers, ctx);
    store := store.(globalParam := DefaultGlobalParam(cfg.minInitStake));
    store := store.(pools := s.pools[0 := pool][1 := pool]);
    store := store.(peerIndex := index, candidateIndex := Add32(maxId, 1));
    store := store.(governanceView := Some(GovernanceView(1, ctx.height, ctx.txHash)));
    store := store.(config := Configuration(cfg.n, cfg.c, cfg.k, cfg.l, cfg.blockMsgDelay, cfg.hashMsgDelay,
                                            cfg.peerHandshakeTimeout, cfg.maxBlockChangeView));
    r := Ok(store.(splitCurve := InitialSplitCurve));
  }

  // ------------------------------------------------ candidate admission

  /** The current pool, with the view it belongs to. */
  predicate HasPool(s: State)
  {
    CurrentPool(s).Some?
  }

  /** The item approveCandidate stores: Candidate, TotalPos cleared below
      height 619000, and the stored index or else the next candidate index. */
  function Approved(s: State, ctx: Ctx, peer: Str, item: PeerPoolItem): (r: PeerPoolItem)
    ensures r.status == Candidate && Active(r)
    ensures ctx.height >= 619000 ==> r.totalPos == item.totalPos
    ensures ctx.height < 619000 ==> r.totalPos == 0
    ensures peer in s.peerIndex ==> r.index == s.peerIndex[peer]
    ensures peer !in s.peerIndex ==> r.index == s.candidateIndex
    ensures r == item.(status := r.status, totalPos := r.totalPos, index := r.index)
  {
    item.(status := Candidate,
          totalPos := if ctx.height < 619000 then 0 else item.totalPos,
          index := if peer in s.peerIndex then s.peerIndex[peer] else s.candidateIndex)
  }

  /** The store once a RegisterCandidate peer is approved: the approved
      item in the pool, its index stored, and the candidate index moved on
      when it was used. One more peer is active, and an index handed out
      is one no other peer holds. */
  function ApprovedStore(s: State, ctx: Ctx, peer: Str): (r: State)
    requires HasPool(s) && peer in CurrentPool(s).value
    requires CurrentPool(s).value[peer].status == Status.RegisterCandidate
    ensures HasPool(r)
    ensures CurrentPool(r).value == CurrentPool(s).value[peer := Approved(s, ctx, peer, CurrentPool(s).value[peer])]
    ensures |ActiveKeys(CurrentPool(r).value)| == |ActiveKeys(CurrentPool(s).value)| + 1
    ensures IndexesFresh(s) && s.candidateIndex < MaxUint32 ==> IndexesFresh(r)
    ensures r.peerIndex == s.peerIndex[peer := CurrentPool(r).value[peer].index]
    ensures r.candidateIndex == if peer in s.peerIndex then s.candidateIndex else Add32(s.candidateIndex, 1)
    ensures r == s.(pools := r.pools, peerIndex := r.peerIndex, candidateIndex := r.candidateIndex)
  {
    var pool := CurrentPool(s).value;
    var item := Approved(s, ctx, peer, pool[peer]);
    var pool' := pool[peer := item];
    assert ActiveKeys(pool') == ActiveKeys(pool) + {peer};
    s.(pools := s.pools[CurrentView(s) := pool'],
       peerIndex := s.peerIndex[peer := item.index],
       candidateIndex := if peer in s.peerIndex then s.candidateIndex else Add32(s.candidateIndex, 1))
  }

  /** approveCandidate, by the administrator: fails when the Candidate and
      Consensus peers already fill CandidateNum, when the peer is unknown,
      its InitPos is below MinInitStake or it is not RegisterCandidate. */
  method ApproveCandidate(s: State, ctx: Ctx, peer: Str) returns (r: Result<State>)
    ensures !AdminSigned(ctx) || !HasPool(s) ==> r.Err?
    ensures AdminSigned(ctx) && HasPool(s) ==>
              var pool := CurrentPool(s).value;
              (r.Ok? <==> |ActiveKeys(pool)| < s.globalParam.candidateNum && peer in pool
                          && pool[peer].initPos >= s.globalParam.minInitStake
                          && pool[peer].status == Status.RegisterCandidate)
              && (r.Ok? ==> r.value == ApprovedStore(s, ctx, peer))
    ensures r.Ok? ==> |ActiveKeys(CurrentPool(r.value).value)| <= s.globalParam.candidateNum
  {
    if !AdminSigned(ctx) {
      return Err(Unauthorized);
    }
    var current := CurrentPool(s);
    if current.None? {
      return Err(NotFound);
    }
    var pool := current.value;
    var num := CountActive(pool);
    if num >= s.globalParam.candidateNum {
      return Err(Rejected);
    }
    if peer !in pool {
      return Err(NotFound);
    }
    if pool[peer].initPos < s.globalParam.minInitStake {
      return Err(Rejected);
    }
    if pool[peer].status != Status.RegisterCandidate {
      return Err(BadStatus);
    }
    r := Ok(ApprovedStore(s, ctx, peer));
  }

  /** The pool with one peer's status changed. */
  function WithStatus(s: State, peer: Str, st: Status): (r: State)
    requires HasPool(s) && peer in CurrentPool(s).value
    ensures HasPool(r) && CurrentPool(r).value == CurrentPool(s).value[peer := CurrentPool(s).value[peer].(status := st)]
  {
    var pool := CurrentPool(s).value;
    s.(pools := s.pools[CurrentView(s) := pool[peer := pool[peer].(status := st)]])
  }

  /** unRegisterCandidate, by the owner: a RegisterCandidate peer becomes
      QuitCandidate (the next commit removes it and releases its InitPos)
      and the owner's record for it is reset to all zero. */
  function UnRegisterCandidate(s: State, ctx: Ctx, p: PeerAddressParam): (r: Result<State>)
    ensures r.Ok? <==> p.address in ctx.witnesses && HasPool(s) && p.peerPubkey in CurrentPool(s).value
                       && CurrentPool(s).value[p.peerPubkey].status == Status.RegisterCandidate
                       && CurrentPool(s).value[p.peerPubkey].address == p.address
    ensures r.Ok? ==>
              HasPool(r.value)
              && CurrentPool(r.value).value == CurrentPool(s).value[p.peerPubkey := CurrentPool(s).value[p.peerPubkey].(status := QuitCandidate)]
              && VoteOf(r.value, p.peerPubkey, p.address) == ZeroVote
              && (forall q, a :: (q, a) != (p.peerPubkey, p.address) ==> VoteOf(r.value, q, a) == VoteOf(s, q, a))
              && r.value.totalStakes == s.totalStakes
  {
    if p.address !in ctx.witnesses then Err(Unauthorized)
    else if !HasPool(s) then Err(NotFound)
    else
      var pool := CurrentPool(s).value;
      if p.peerPubkey !in pool then Err(NotFound)
      else if pool[p.peerPubkey].status != Status.RegisterCandidate then Err(BadStatus)
      else if pool[p.peerPubkey].address != p.address then Err(Unauthorized)
      else Ok(WithStatus(PutVote(s, p.peerPubkey, p.address, ZeroVote), p.peerPubkey, QuitCandidate))
  }

  /** rejectCandidate, by the administrator: a RegisterCandidate peer
      becomes QuitCandidate; the owner's record is read and stored back
      unchanged. */
  function RejectCandidate(s: State, ctx: Ctx, peer: Str): (r: Result<State>)
    ensures r.Ok? <==> AdminSigned(ctx) && HasPool(s) && peer in CurrentPool(s).value
                       && CurrentPool(s).value[peer].status == Status.RegisterCandidate
    ensures r.Ok? ==>
              HasPool(r.value)
              && CurrentPool(r.value).value == CurrentPool(s).value[peer := CurrentPool(s).value[peer].(status := QuitCandidate)]
              && (forall q, a :: VoteOf(r.value, q, a) == VoteOf(s, q, a))
              && r.value.totalStakes == s.totalStakes
  {
    if !AdminSigned(ctx) then Err(Unauthorized)
    else if !HasPool(s) then Err(NotFound)
    else
      var pool := CurrentPool(s).value;
      if peer !in pool then Err(NotFound)
      else if pool[peer].status != Status.RegisterCandidate then Err(BadStatus)
      else
        var owner := pool[peer].address;
        Ok(WithStatus(PutVote(s, peer, owner, VoteOf(s, peer, owner)), peer, QuitCandidate))
  }

  /** quitNode, by the owner: a Consensus peer becomes QuitConsensus and a
      Candidate peer Quiting, unless that would leave K or fewer active
      peers before the quit. */
  method QuitNode(s: State, ctx: Ctx, p: PeerAddressParam) returns (r: Result<State>)
    ensures r.Ok? <==> p.address in ctx.witnesses && HasPool(s) && p.peerPubkey in CurrentPool(s).value
                       && CurrentPool(s).value[p.peerPubkey].address == p.address
                       && Active(CurrentPool(s).value[p.peerPubkey])
                       && |ActiveKeys(CurrentPool(s).value)| > s.config.k
    ensures r.Ok? ==>
              var item := CurrentPool(s).value[p.peerPubkey];
              r.value == WithStatus(s, p.peerPubkey, if item.status == Consensus then QuitConsensus else Quiting)
    ensures r.Ok? ==> |ActiveKeys(CurrentPool(r.value).value)| + 1 == |ActiveKeys(CurrentPool(s).value)|
                      && |ActiveKeys(CurrentPool(r.value).value)| >= s.config.k
  {
    if p.address !in ctx.witnesses {
      return Err(Unauthorized);
    }
    var current := CurrentPool(s);
    if current.None? {
      return Err(NotFound);
    }
    var pool := current.value;
    if p.peerPubkey !in pool {
      return Err(NotFound);
    }
    var item := pool[p.peerPubkey];
    if p.address != item.address {
      return Err(Unauthorized);
    }
    if item.status != Consensus && item.status != Candidate {
      return Err(BadStatus);
    }
    var num := CountActive(pool);
    if num <= s.config.k {
      return Err(Rejected);
    }
    var st := if item.status == Consensus then QuitConsensus else Quiting;
    r := Ok(WithStatus(s, p.peerPubkey, st));
    assert ActiveKeys(CurrentPool(r.value).value) == ActiveKeys(pool) - {p.peerPubkey};
  }

  // ------------------------------------------------------ black and white

  /** The pool with every listed peer Black. */
  function MarkBlack(pool: PeerPool, peers: seq<Str>): (r: PeerPool)
    ensures r.Keys == pool.Keys
    ensures forall k :: k in pool && k in peers ==> r[k] == pool[k].(status := Black)
    ensures forall k :: k in pool && k !in peers ==> r[k] == pool[k]
  {
    map k | k in pool :: if k in peers then pool[k].(status := Black) else pool[k]
  }

  /** The black list with an entry (owner and InitPos) for every listed peer. */
  function BlackEntries(bl: map<Str, BlackListItem>, pool: PeerPool, peers: seq<Str>): map<Str, BlackListItem>
    requires forall k :: k in peers ==> k in pool
  {
    map k | k in bl.Keys + (set q | q in peers) ::
      if k in peers then BlackListItem(pool[k].address, pool[k].initPos) else bl[k]
  }

  /** Some listed peer is in the consensus. */
  predicate HitsConsensus(pool: PeerPool, peers: seq<Str>)
    requires forall k :: k in peers ==> k in pool
  {
    exists k :: k in peers && pool[k].status == Consensus
  }

  /** The listing loop of blackNode: every listed peer must be in the pool;
      each gets a black-list entry and becomes Black, and the commit flag
      is raised by one that was a Consensus peer. */
  method ListBlack(pool: PeerPool, bl: map<Str, BlackListItem>, peers: seq<Str>)
    returns (r: Option<(PeerPool, map<Str, BlackListItem>, bool)>)
    ensures r.None? <==> exists k :: k in peers && k !in pool
    ensures r.Some? ==> r.value == (MarkBlack(pool, peers), BlackEntries(bl, pool, peers), HitsConsensus(pool, peers))
  {
    var cur := pool;
    var list := bl;
    var commit := false;
    var i := 0;
    while i < |peers|
      invariant 0 <= i <= |peers|
      invariant forall k :: k in peers[..i] ==> k in pool
      invariant cur == MarkBlack(pool, peers[..i])
      invariant list == BlackEntries(bl, pool, peers[..i])
      invariant commit == HitsConsensus(pool, peers[..i])
    {
      var key := peers[i];
      assert peers[i] in peers;
      if key !in cur {
        return None;
      }
      var item := cur[key];
      ListStep(pool, peers, i);
      list := list[key := BlackListItem(item.address, item.initPos)];
      if item.status == Consensus {
        commit := true;
      }
      cur := cur[key := item.(status := Black)];
      i := i + 1;
    }
    assert peers[..i] == peers;
    return Some((cur, list, commit));
  }

  /** One step of the listing loop, as a change to the three results. */
  lemma ListStep(pool: PeerPool, peers: seq<Str>, i: nat)
    requires i < |peers| && peers[i] in pool && forall k :: k in peers[..i] ==> k in pool
    ensures forall k :: k in peers[..i + 1] ==> k in pool
    ensures var key, cur := peers[i], MarkBlack(pool, peers[..i]);
            MarkBlack(pool, peers[..i + 1]) == cur[key := cur[key].(status := Black)]
    ensures forall bl: map<Str, BlackListItem> :: var key, cur := peers[i], MarkBlack(pool, peers[..i]);
              BlackEntries(bl, pool, peers[..i + 1])
              == BlackEntries(bl, pool, peers[..i])[key := BlackListItem(cur[key].address, cur[key].initPos)]
    ensures var key, cur := peers[i], MarkBlack(pool, peers[..i]);
            HitsConsensus(pool, peers[..i + 1]) == (HitsConsensus(pool, peers[..i]) || cur[key].status == Consensus)
  {
    var key := peers[i];
    assert peers[..i + 1] == peers[..i] + [key];
    assert forall k :: k in peers[..i + 1] <==> k in peers[..i] || k == key;
    var cur := MarkBlack(pool, peers[..i]);
    if key in peers[..i] {
      assert cur[key].status == Black;
    } else {
      assert cur[key] == pool[key];
    }
  }

  /** The store with the listed peers Black and black-listed. */
  function Blacklisted(s: State, peers: seq<Str>): (r: State)
    requires HasPool(s) && forall k :: k in peers ==> k in CurrentPool(s).value
    ensures HasPool(r) && CurrentPool(r).value == MarkBlack(CurrentPool(s).value, peers)
    ensures r.blackList == BlackEntries(s.blackList, CurrentPool(s).value, peers)
    ensures forall k :: k in peers ==> k in r.blackList && CurrentPool(r).value[k].status == Black
    ensures r == s.(pools := r.pools, blackList := r.blackList)
    ensures forall splitOrder, order :: CommitOrders(s, splitOrder, order) ==> CommitOrders(r, splitOrder, order)
  {
    var pool := CurrentPool(s).value;
    var r := s.(pools := s.pools[CurrentView(s) := MarkBlack(pool, peers)],
                blackList := BlackEntries(s.blackList, pool, peers));
    assert forall v :: v in r.pools ==> v in s.pools && r.pools[v].Keys == s.pools[v].Keys;
    r
  }

  /** blackNode, by the administrator: fails on a peer not in the pool;
      otherwise every listed peer becomes Black with a black-list entry,
      and when one of them was a Consensus peer the commit runs at once
      (K from the stored configuration). */
  method BlackNode(s: State, ctx: Ctx, peers: seq<Str>, splitOrder: seq<Str>, order: seq<Str>, curve: Curve)
    returns (r: Result<State>)
    requires CommitOrders(s, splitOrder, order)
    ensures !AdminSigned(ctx) || !HasPool(s) ==> r.Err?
    ensures AdminSigned(ctx) && HasPool(s) && (exists k :: k in peers && k !in CurrentPool(s).value) ==> r.Err?
    ensures AdminSigned(ctx) && HasPool(s) && (forall k :: k in peers ==> k in CurrentPool(s).value) ==>
              var listed := Blacklisted(s, peers);
              if HitsConsensus(CurrentPool(s).value, peers) then
                (r.Err? <==> CommitOutcome(listed, s.config.k, ctx, splitOrder, order, curve).Err?)
                && (r.Ok? ==> r == CommitOutcome(listed, s.config.k, ctx, splitOrder, order, curve))
              else r == Ok(listed)
  {
    if !AdminSigned(ctx) {
      return Err(Unauthorized);
    }
    var current := CurrentPool(s);
    if current.None? {
      return Err(NotFound);
    }
    var listing := ListBlack(current.value, s.blackList, peers);
    if listing.None? {
      return Err(NotFound);
    }
    var (pool, list, commit) := listing.value;
    var listed := s.(pools := s.pools[CurrentView(s) := pool], blackList := list);
    assert listed == Blacklisted(s, peers);
    if !commit {
      return Ok(listed);
    }
    r := ExecuteCommitDpos(listed, listed.config.k, ctx, splitOrder, order, curve);
  }

  /** whiteNode, by the administrator: takes a black-listed pubkey off the
      list, so it may register again. */
  function WhiteNode(s: State, ctx: Ctx, peer: Str): (r: Result<State>)
    ensures r.Ok? <==> AdminSigned(ctx) && peer in s.blackList
    ensures r.Ok? ==> r.value == s.(blackList := s.blackList - {peer}) && peer !in r.value.blackList
  {
    if !AdminSigned(ctx) then Err(Unauthorized)
    else if peer !in s.blackList then Err(NotFound)
    else Ok(s.(blackList := s.blackList - {peer}))
  }

  /** Black-listing then white-listing a pubkey that was not listed before
      gives the black list back. */
  lemma BlackThenWhite(s: State, ctx: Ctx, peer: Str)
    requires HasPool(s) && peer in CurrentPool(s).value && peer !in s.blackList
    ensures var listed := Blacklisted(s, [peer]);
            WhiteNode(listed, ctx, peer).Ok? <==> AdminSigned(ctx)
    ensures AdminSigned(ctx) ==> WhiteNode(Blacklisted(s, [peer]), ctx, peer).value.blackList == s.blackList
  {
    var listed := Blacklisted(s, [peer]);
    assert peer in [peer];
    if AdminSigned(ctx) {
      assert listed.blackList - {peer} == s.blackList;
    }
  }

  // -------------------------------------------------------------- votes

  /** unVoteForPeer: under the voter's witness, every entry is unvoted in
      order against the current pool, and the pool is written back. No
      stake moves until the positions are withdrawn. */
  method UnVoteForPeer(s: State, ctx: Ctx, p: PosListParam) returns (r: Result<State>)
    requires |p.peers| == |p.amounts|
    ensures p.address !in ctx.witnesses || !HasPool(s) ==> r.Err?
    ensures p.address in ctx.witnesses && HasPool(s) ==>
              var t := Tallied(Unvote, Tally(CurrentPool(s).value, s, 0), p.address, p.peers, p.amounts, s.globalParam.posLimit);
              (r.Err? <==> t.Err?)
              && (r.Ok? ==> r.value == t.value.store.(pools := s.pools[CurrentView(s) := t.value.pool]))
    ensures r.Ok? ==>
              r.value.totalStakes == s.totalStakes && HasPool(r.value)
              && (forall q :: q in p.peers ==>
                    q in CurrentPool(s).value && q in CurrentPool(r.value).value
                    && CurrentPool(r.value).value[q].totalPos
                       == Shifted(Unvote, CurrentPool(s).value[q].totalPos, SumFor(q, p.peers, p.amounts)))
              && (forall q, a :: a != p.address || q !in p.peers ==> VoteOf(r.value, q, a) == VoteOf(s, q, a))
  {
    if p.address !in ctx.witnesses {
      return Err(Unauthorized);
    }
    var current := CurrentPool(s);
    if current.None? {
      return Err(NotFound);
    }
    var t0 := Tally(current.value, s, 0);
    var t := ApplyVotes(Unvote, t0, p.address, p.peers, p.amounts, s.globalParam.posLimit);
    if t.Err? {
      return Err(t.error);
    }
    TalliedTotals(Unvote, t0, p.address, p.peers, p.amounts, s.globalParam.posLimit);
    TalliedStoreFrame(Unvote, t0, p.address, p.peers, p.amounts, s.globalParam.posLimit);
    r := Ok(t.value.store.(pools := s.pools[CurrentView(s) := t.value.pool]));
  }

  /** The uint64 sum of the voting positions of a peer's records. */
  ghost function VotingTotal(b: Ballots): nat
  {
    SumOver(b, b.Keys, VotingPos) % U64
  }

  lemma AddVoting(sum: nat, v: VoteInfo)
    ensures Add64(sum % U64, Add64(Add64(v.consensusPos, v.freezePos), v.newPos)) == (sum + Voting(v)) % U64
  {
    var x := v.consensusPos + v.freezePos + v.newPos;
    ModAdd64(v.consensusPos + v.freezePos, v.newPos);
    ModAdd64(sum, x % U64);
    ModAdd64(x, sum);
  }

  /** The record loop of checkVoteInfo, summing in uint64 as Go does. */
  method SumVoting(b: Ballots) returns (total: nat)
    ensures total == VotingTotal(b)
  {
    total := 0;
    var todo := b.Keys;
    ghost var done: set<Address> := {};
    while todo != {}
      invariant todo <= b.Keys && done == b.Keys - todo
      invariant total == SumOver(b, done, VotingPos) % U64
      decreases todo
    {
      var a :| a in todo;
      var v := b[a];
      SumOverAdd(b, done, VotingPos, a);
      AddVoting(SumOver(b, done, VotingPos), v);
      total := Add64(total, Add64(Add64(v.consensusPos, v.freezePos), v.newPos));
      done := done + {a};
      todo := todo - {a};
    }
    assert done == b.Keys;
  }

  /** A peer whose TotalPos is the sum of its records' voting positions. */
  ghost predicate TotalPosAgrees(s: State, peer: Str)
  {
    HasPool(s) && peer in CurrentPool(s).value
    && CurrentPool(s).value[peer].totalPos == VotingTotal(BallotsOf(s, peer))
  }

  /** checkVoteInfo, by the administrator: recomputes a votable peer's
      TotalPos from its records and stores it, unless it exceeds PosLimit
      times InitPos. */
  method CheckVoteInfo(s: State, ctx: Ctx, peer: Str) returns (r: Result<State>)
    ensures r.Ok? <==> AdminSigned(ctx) && HasPool(s) && peer in CurrentPool(s).value
                       && Votable(CurrentPool(s).value[peer])
                       && VotingTotal(BallotsOf(s, peer))
                          <= Mul64(s.globalParam.posLimit, CurrentPool(s).value[peer].initPos)
    ensures r.Ok? ==>
              var pool := CurrentPool(s).value;
              r.value == s.(pools := s.pools[CurrentView(s) := pool[peer := pool[peer].(totalPos := VotingTotal(BallotsOf(s, peer)))]])
    ensures r.Ok? ==> TotalPosAgrees(r.value, peer)
  {
    if !AdminSigned(ctx) {
      return Err(Unauthorized);
    }
    var current := CurrentPool(s);
    if current.None? {
      return Err(NotFound);
    }
    var pool := current.value;
    if peer !in pool {
      return Err(NotFound);
    }
    var item := pool[peer];
    if !Votable(item) {
      return Err(BadStatus);
    }
    var total := SumVoting(BallotsOf(s, peer));
    if total > Mul64(s.globalParam.posLimit, item.initPos) {
      return Err(Rejected);
    }
    r := Ok(s.(pools := s.pools[CurrentView(s) := pool[peer := item.(totalPos := total)]]));
  }

  // ------------------------------------------------------------ withdraw

  /** One entry of withdraw: the voter's unfrozen positions for the peer
      pay out `pos`, failing when they are short; a record left all zero
      is deleted. */
  function WithdrawStep(store: State, addr: Address, peer: Str, pos: nat): (r: Option<State>)
    ensures r.None? <==> VoteOf(store, peer, addr).withdrawUnfreezePos < pos
    ensures r.Some? ==>
              var v := VoteOf(store, peer, addr);
              VoteOf(r.value, peer, addr) == v.(withdrawUnfreezePos := v.withdrawUnfreezePos - pos)
              && (forall a :: a != addr ==> VoteOf(r.value, peer, a) == VoteOf(store, peer, a))
              && (forall q :: q != peer ==> BallotsOf(r.value, q) == BallotsOf(store, q))
              && (VoteOf(r.value, peer, addr) == ZeroVote ==> addr !in BallotsOf(r.value, peer))
              && r.value == store.(votes := r.value.votes)
  {
    var v := VoteOf(store, peer, addr);
    if v.withdrawUnfreezePos < pos then None
    else
      var v' := v.(withdrawUnfreezePos := v.withdrawUnfreezePos - pos);
      var put := PutVote(store, peer, addr, v');
      if v' == ZeroVote then Some(put.(votes := put.votes[peer := BallotsOf(put, peer) - {addr}]))
      else Some(put)
  }

  /** The working state of the withdraw loop: the store and the uint64 total. */
  datatype Drawn = Drawn(store: State, total: nat)

  function Withdrawn(d: Drawn, addr: Address, peers: seq<Str>, amounts: seq<nat>): Option<Drawn>
    requires |peers| == |amounts|
    decreases |peers|
  {
    if peers == [] then Some(d)
    else
      match WithdrawStep(d.store, addr, peers[0], amounts[0])
      case None => None
      case Some(st) => Withdrawn(Drawn(st, Add64(d.total, amounts[0])), addr, peers[1..], amounts[1..])
  }

  /** The entry loop of withdraw. */
  method WithdrawEntries(d: Drawn, addr: Address, peers: seq<Str>, amounts: seq<nat>) returns (r: Option<Drawn>)
    requires |peers| == |amounts|
    ensures r == Withdrawn(d, addr, peers, amounts)
  {
    var acc := d;
    var i := 0;
    while i < |peers|
      invariant 0 <= i <= |peers|
      invariant Withdrawn(d, addr, peers, amounts) == Withdrawn(acc, addr, peers[i..], amounts[i..])
    {
      var step := WithdrawStep(acc.store, addr, peers[i], amounts[i]);
      if step.None? {
        return None;
      }
      assert peers[i..][1..] == peers[i + 1..] && amounts[i..][1..] == amounts[i + 1..];
      acc := Drawn(step.value, Add64(acc.total, amounts[i]));
      i := i + 1;
    }
    assert peers[i..] == [];
    return Some(acc);
  }

  /** A withdraw loop touches only the voter's records of the listed
      peers and nothing else in the store. */
  lemma {:induction false} WithdrawnFrame(d: Drawn, addr: Address, peers: seq<Str>, amounts: seq<nat>)
    requires |peers| == |amounts|
    ensures var r := Withdrawn(d, addr, peers, amounts);
            r.Some? ==>
              r.value.store == d.store.(votes := r.value.store.votes)
              && (forall q :: q !in peers ==> BallotsOf(r.value.store, q) == BallotsOf(d.store, q))
              && (forall q, a :: a != addr ==> VoteOf(r.value.store, q, a) == VoteOf(d.store, q, a))
    decreases |peers|
  {
    if peers != [] {
      var step := WithdrawStep(d.store, addr, peers[0], amounts[0]);
      if step.Some? {
        var d' := Drawn(step.value, Add64(d.total, amounts[0]));
        WithdrawnFrame(d', addr, peers[1..], amounts[1..]);
        assert forall q :: q !in peers ==> q !in peers[1..] && q != peers[0];
        forall q, a | a != addr ensures VoteOf(step.value, q, a) == VoteOf(d.store, q, a) {
          if q != peers[0] {
            assert BallotsOf(step.value, q) == BallotsOf(d.store, q);
          }
        }
      }
    }
  }

  /** Whatever their order, the entries take each listed peer's amounts off
      the voter's unfrozen positions for it, and no other field. */
  lemma {:induction false} WithdrawnRecords(d: Drawn, addr: Address, peers: seq<Str>, amounts: seq<nat>)
    requires |peers| == |amounts|
    ensures var r := Withdrawn(d, addr, peers, amounts);
            r.Some? ==> forall q :: q in peers ==>
              var v := VoteOf(d.store, q, addr);
              SumFor(q, peers, amounts) <= v.withdrawUnfreezePos
              && VoteOf(r.value.store, q, addr) == v.(withdrawUnfreezePos := v.withdrawUnfreezePos - SumFor(q, peers, amounts))
    decreases |peers|
  {
    if peers != [] {
      var q0, a0 := peers[0], amounts[0];
      var step := WithdrawStep(d.store, addr, q0, a0);
      if step.Some? {
        var rest, amts := peers[1..], amounts[1..];
        var d' := Drawn(step.value, Add64(d.total, a0));
        WithdrawnRecords(d', addr, rest, amts);
        WithdrawnFrame(d', addr, rest, amts);
        var r := Withdrawn(d', addr, rest, amts);
        if r.Some? {
          forall q | q in peers
            ensures var v := VoteOf(d.store, q, addr);
                    SumFor(q, peers, amounts) <= v.withdrawUnfreezePos
                    && VoteOf(r.value.store, q, addr) == v.(withdrawUnfreezePos := v.withdrawUnfreezePos - SumFor(q, peers, amounts))
          {
            if q !in rest {
              SumForAbsent(q, rest, amts);
              assert BallotsOf(r.value.store, q) == BallotsOf(step.value, q);
            } else if q != q0 {
              assert BallotsOf(step.value, q) == BallotsOf(d.store, q);
            }
          }
        }
      }
    }
  }

  /** The converse: when no listed peer is asked for more than the voter's
      unfrozen positions for it, the loop succeeds. */
  lemma {:induction false} WithdrawnSucceeds(d: Drawn, addr: Address, peers: seq<Str>, amounts: seq<nat>)
    requires |peers| == |amounts|
    requires forall q :: q in peers ==> SumFor(q, peers, amounts) <= VoteOf(d.store, q, addr).withdrawUnfreezePos
    ensures Withdrawn(d, addr, peers, amounts).Some?
    decreases |peers|
  {
    if peers != [] {
      var q0, a0 := peers[0], amounts[0];
      var rest, amts := peers[1..], amounts[1..];
      assert peers == [q0] + rest && amounts == [a0] + amts;
      assert q0 in peers;
      var step := WithdrawStep(d.store, addr, q0, a0);
      assert step.Some?;
      var d' := Drawn(step.value, Add64(d.total, a0));
      forall q | q in rest ensures SumFor(q, rest, amts) <= VoteOf(d'.store, q, addr).withdrawUnfreezePos {
        assert q in peers;
        if q != q0 {
          assert BallotsOf(step.value, q) == BallotsOf(d.store, q);
        }
      }
      WithdrawnSucceeds(d', addr, rest, amts);
    }
  }

  /** A listed peer's record that ends all zero is deleted. */
  lemma {:induction false} WithdrawnClears(d: Drawn, addr: Address, peers: seq<Str>, amounts: seq<nat>)
    requires |peers| == |amounts|
    ensures var r := Withdrawn(d, addr, peers, amounts);
            r.Some? ==> forall q :: q in peers && VoteOf(r.value.store, q, addr) == ZeroVote ==> addr !in BallotsOf(r.value.store, q)
    decreases |peers|
  {
    if peers != [] {
      var q0, a0 := peers[0], amounts[0];
      var step := WithdrawStep(d.store, addr, q0, a0);
      if step.Some? {
        var rest, amts := peers[1..], amounts[1..];
        var d' := Drawn(step.value, Add64(d.total, a0));
        WithdrawnClears(d', addr, rest, amts);
        WithdrawnFrame(d', addr, rest, amts);
        var r := Withdrawn(d', addr, rest, amts);
        if r.Some? {
          forall q | q in peers && VoteOf(r.value.store, q, addr) == ZeroVote ensures addr !in BallotsOf(r.value.store, q) {
            if q !in rest {
              assert BallotsOf(r.value.store, q) == BallotsOf(step.value, q);
            }
          }
        }
      }
    }
  }

  /** The loop adds up all amounts (in uint64). */
  lemma WithdrawnTotal(d: Drawn, addr: Address, peers: seq<Str>, amounts: seq<nat>)
    requires |peers| == |amounts| && IsU64(d.total)
    ensures var r := Withdrawn(d, addr, peers, amounts);
            r.Some? ==> r.value.total == (d.total + SumAll(amounts)) % U64
  {
    WithdrawnRunningTotal(d, addr, peers, amounts);
    TotalAfterSum(d.total, amounts);
  }

  /** The loop's total is the running uint64 sum of the amounts. */
  lemma {:induction false} WithdrawnRunningTotal(d: Drawn, addr: Address, peers: seq<Str>, amounts: seq<nat>)
    requires |peers| == |amounts|
    ensures var r := Withdrawn(d, addr, peers, amounts);
            r.Some? ==> r.value.total == TotalAfter(d.total, amounts)
    decreases |peers|
  {
    if peers != [] {
      var step := WithdrawStep(d.store, addr, peers[0], amounts[0]);
      if step.Some? {
        var d' := Drawn(step.value, Add64(d.total, amounts[0]));
        assert Withdrawn(d, addr, peers, amounts) == Withdrawn(d', addr, peers[1..], amounts[1..]);
        WithdrawnRunningTotal(d', addr, peers[1..], amounts[1..]);
      }
    }
  }

  /** withdraw: under the voter's witness, each entry pays out unfrozen
      positions; the voter's total stake then shrinks by the sum, failing
      when it is short. */
  method Withdraw(s: State, ctx: Ctx, p: PosListParam) returns (r: Result<State>)
    requires |p.peers| == |p.amounts|
    ensures p.address !in ctx.witnesses ==> r == Err(Unauthorized)
    ensures p.address in ctx.witnesses ==>
              var d := Withdrawn(Drawn(s, 0), p.address, p.peers, p.amounts);
              (d.None? ==> r.Err?) && (d.Some? ==> r == WithdrawTotalStake(d.value.store, p.address, d.value.total, ctx))
    ensures p.address in ctx.witnesses && (forall q :: q in p.peers ==>
              SumFor(q, p.peers, p.amounts) <= VoteOf(s, q, p.address).withdrawUnfreezePos)
            ==> (r.Ok? <==> SumAll(p.amounts) % U64 <= StakeOf(s, p.address).stake)
    ensures r.Ok? ==>
              StakeOf(r.value, p.address).stake + SumAll(p.amounts) % U64 == StakeOf(s, p.address).stake
              && (forall q :: q in p.peers ==>
                    VoteOf(r.value, q, p.address).withdrawUnfreezePos + SumFor(q, p.peers, p.amounts)
                    == VoteOf(s, q, p.address).withdrawUnfreezePos)
              && (forall q :: q in p.peers && VoteOf(r.value, q, p.address) == ZeroVote ==> p.address !in BallotsOf(r.value, q))
  {
    if p.address !in ctx.witnesses {
      return Err(Unauthorized);
    }
    var d := WithdrawEntries(Drawn(s, 0), p.address, p.peers, p.amounts);
    if d.None? {
      r := Err(Rejected);
    } else {
      r := WithdrawTotalStake(d.value.store, p.address, d.value.total, ctx);
    }
    assert WithdrawGives(s, ctx, p, r);
    if forall q :: q in p.peers ==> SumFor(q, p.peers, p.amounts) <= VoteOf(s, q, p.address).withdrawUnfreezePos {
      WithdrawSucceedsIff(s, ctx, p, r);
    }
    WithdrawStake(s, ctx, p, r);
    WithdrawVotes(s, ctx, p, r);
  }

  /** What Withdraw returns once the witness is checked. */
  predicate WithdrawGives(s: State, ctx: Ctx, p: PosListParam, r: Result<State>)
    requires |p.peers| == |p.amounts|
  {
    var d := Withdrawn(Drawn(s, 0), p.address, p.peers, p.amounts);
    r == if d.None? then Err(Rejected) else WithdrawTotalStake(d.value.store, p.address, d.value.total, ctx)
  }

  /** With enough unfrozen positions everywhere, only the stake can fall short. */
  lemma WithdrawSucceedsIff(s: State, ctx: Ctx, p: PosListParam, r: Result<State>)
    requires |p.peers| == |p.amounts| && WithdrawGives(s, ctx, p, r)
    requires forall q :: q in p.peers ==> SumFor(q, p.peers, p.amounts) <= VoteOf(s, q, p.address).withdrawUnfreezePos
    ensures r.Ok? <==> SumAll(p.amounts) % U64 <= StakeOf(s, p.address).stake
  {
    var d0 := Drawn(s, 0);
    WithdrawnSucceeds(d0, p.address, p.peers, p.amounts);
    WithdrawnFrame(d0, p.address, p.peers, p.amounts);
    WithdrawnTotal(d0, p.address, p.peers, p.amounts);
  }

  /** The stake shrinks by the uint64 sum of the amounts. */
  lemma WithdrawStake(s: State, ctx: Ctx, p: PosListParam, r: Result<State>)
    requires |p.peers| == |p.amounts| && WithdrawGives(s, ctx, p, r)
    ensures r.Ok? ==> StakeOf(r.value, p.address).stake + SumAll(p.amounts) % U64 == StakeOf(s, p.address).stake
  {
    var d0 := Drawn(s, 0);
    WithdrawnFrame(d0, p.address, p.peers, p.amounts);
    WithdrawnTotal(d0, p.address, p.peers, p.amounts);
  }

  /** Each listed record loses its share of unfrozen positions, and one
      left all zero is deleted. */
  lemma WithdrawVotes(s: State, ctx: Ctx, p: PosListParam, r: Result<State>)
    requires |p.peers| == |p.amounts| && WithdrawGives(s, ctx, p, r)
    ensures r.Ok? ==>
              (forall q :: q in p.peers ==>
                 VoteOf(r.value, q, p.address).withdrawUnfreezePos + SumFor(q, p.peers, p.amounts)
                 == VoteOf(s, q, p.address).withdrawUnfreezePos)
              && (forall q :: q in p.peers && VoteOf(r.value, q, p.address) == ZeroVote ==> p.address !in BallotsOf(r.value, q))
  {
    var d0 := Drawn(s, 0);
    WithdrawnRecords(d0, p.address, p.peers, p.amounts);
    WithdrawnClears(d0, p.address, p.peers, p.amounts);
  }

  // ---------------------------------------------------------- commitDpos

  /** commitDpos may run when the administrator signs, or when at least
      MaxBlockChangeView blocks (a uint32 difference) passed since the
      current view began. */
  function CommitAllowed(s: State, ctx: Ctx): (ok: bool)
    requires Initialised(s)
    ensures AdminSigned(ctx) ==> ok
    ensures var h := s.governanceView.value.height;
            IsU32(ctx.height) && IsU32(h) && ctx.height < h ==>
              (ok <==> AdminSigned(ctx) || U32 + ctx.height - h >= s.config.maxBlockChangeView)
  {
    AdminSigned(ctx) || Sub32(ctx.height, s.governanceView.value.height) >= s.config.maxBlockChangeView
  }

  /** With block heights that only grow, the difference does not wrap:
      anyone may commit exactly when the view is old enough. */
  lemma CommitAllowedByAge(s: State, ctx: Ctx)
    requires Initialised(s) && IsU32(ctx.height) && s.governanceView.value.height <= ctx.height
    ensures CommitAllowed(s, ctx) <==>
              AdminSigned(ctx) || ctx.height - s.governanceView.value.height >= s.config.maxBlockChangeView
  {
  }

  /** commitDpos: after the authorisation above, one epoch change with the
      stored K. */
  method CommitNext(s: State, ctx: Ctx, splitOrder: seq<Str>, order: seq<Str>, curve: Curve)
    returns (r: Result<State>)
    requires CommitOrders(s, splitOrder, order)
    ensures !Initialised(s) ==> r == Err(NotFound)
    ensures Initialised(s) && !CommitAllowed(s, ctx) ==> r == Err(Unauthorized)
    ensures Initialised(s) && CommitAllowed(s, ctx) ==>
              var o := CommitOutcome(s, s.config.k, ctx, splitOrder, order, curve);
              (r.Err? <==> o.Err?) && (r.Ok? ==> r == o)
    ensures r.Ok? ==> Initialised(r.value) && r.value.governanceView.value.height == ctx.height
  {
    if s.governanceView.None? {
      return Err(NotFound);
    }
    if !CommitAllowed(s, ctx) {
      return Err(Unauthorized);
    }
    r := ExecuteCommitDpos(s, s.config.k, ctx, splitOrder, order, curve);
  }

  // -------------------------------------------------------- updateConfig

  /** What a stored configuration promises: C faults tolerated among K
      consensus peers (K >= 2C + 1), N >= K >= 9, a block interval L of at
      least 16 K that K divides, at most a quarter of CandidateNum in
      consensus, and the delay and timeout floors. */
  predicate SoundConfig(c: Configuration, candidateNum: nat)
  {
    c.c != 0 && c.k != 0
    && c.l >= 16 * c.k && c.l % c.k == 0
    && c.k >= 2 * c.c + 1
    && 4 * c.k <= candidateNum
    && c.n >= c.k >= 9
    && c.blockMsgDelay >= 5000 && c.hashMsgDelay >= 5000 && c.peerHandshakeTimeout >= 10
  }

  /** updateConfig's checks, in their order, in full-width integers; `num`
      is the number of candidate and consensus peers. K = 0 reaches L % K,
      a division by zero. */
  function ConfigVerdict(c: Configuration, num: nat, candidateNum: nat): (r: Option<Error>)
    ensures r.None? <==> SoundConfig(c, candidateNum) && c.k <= num
    ensures r == Some(Panic) <==> c.c != 0 && c.k == 0
    ensures r.Some? ==> r.value in {Rejected, Panic}
  {
    if c.c == 0 then Some(Rejected)
    else if c.k > num then Some(Rejected)
    else if c.l < 16 * c.k then Some(Rejected)
    else if c.k == 0 then Some(Panic)
    else if c.l % c.k != 0 then Some(Rejected)
    else if c.k < 2 * c.c + 1 then Some(Rejected)
    else if 4 * c.k > candidateNum then Some(Rejected)
    else if c.n < c.k || c.k < 9 then Some(Rejected)
    else if c.blockMsgDelay < 5000 then Some(Rejected)
    else if c.hashMsgDelay < 5000 then Some(Rejected)
    else if c.peerHandshakeTimeout < 10 then Some(Rejected)
    else None
  }

  /** The same checks as written, with 16*K, 2*C+1 and 4*K in uint32. */
  function ConfigVerdictAsWritten(c: Configuration, num: nat, candidateNum: nat): (r: Option<Error>)
    ensures r == Some(Panic) <==> c.c != 0 && c.k == 0
  {
    if c.c == 0 then Some(Rejected)
    else if c.k > num then Some(Rejected)
    else if c.l < Mul32(16, c.k) then Some(Rejected)
    else if c.k == 0 then Some(Panic)
    else if c.l % c.k != 0 then Some(Rejected)
    else if c.k < Add32(Mul32(2, c.c), 1) then Some(Rejected)
    else if Mul32(4, c.k) > candidateNum then Some(Rejected)
    else if c.n < c.k || c.k < 9 then Some(Rejected)
    else if c.blockMsgDelay < 5000 then Some(Rejected)
    else if c.hashMsgDelay < 5000 then Some(Rejected)
    else if c.peerHandshakeTimeout < 10 then Some(Rejected)
    else None
  }

  /** Without wrap-around the two agree. */
  lemma ConfigVerdictAgrees(c: Configuration, num: nat, candidateNum: nat)
    requires ConfigurationOk(c) && c.k < 0x1000_0000 && c.c < 0x8000_0000
    ensures ConfigVerdictAsWritten(c, num, candidateNum) == ConfigVerdict(c, num, candidateNum)
  {
    var f := ConfigurationFields(c);
    assert f[1] == c.c && f[2] == c.k;
  }

  /** As written, C = 2^31 makes 2*C+1 wrap to 1, so a configuration whose
      fault bound exceeds its consensus size is accepted. */
  lemma ConfigWrapAccepted(candidateNum: nat)
    requires candidateNum >= 36
    ensures var c := Configuration(9, 0x8000_0000, 9, 144, 5000, 5000, 10, 100);
            ConfigurationOk(c)
            && ConfigVerdictAsWritten(c, 9, candidateNum).None?
            && ConfigVerdict(c, 9, candidateNum) == Some(Rejected)
            && c.c > c.k
  {
    var c := Configuration(9, 0x8000_0000, 9, 144, 5000, 5000, 10, 100);
    assert Mul32(2, c.c) == 0;
    assert ConfigurationFields(c) == [9, 0x8000_0000, 9, 144, 5000, 5000, 10, 100];
  }

  /** updateConfig, by the administrator: the checks run against the
      current pool's candidate and consensus peers and the stored
      CandidateNum; success stores the configuration and nothing else. */
  method UpdateConfig(s: State, ctx: Ctx, c: Configuration) returns (r: Result<State>)
    requires ConfigurationOk(c)
    ensures !AdminSigned(ctx) ==> r == Err(Unauthorized)
    ensures AdminSigned(ctx) && !HasPool(s) ==> r == Err(NotFound)
    ensures AdminSigned(ctx) && HasPool(s) ==>
              var v := ConfigVerdict(c, |ActiveKeys(CurrentPool(s).value)|, s.globalParam.candidateNum);
              (r.Ok? <==> v.None?) && (r.Err? ==> v == Some(r.error))
    ensures r.Ok? ==> r.value == s.(config := c) && SoundConfig(c, s.globalParam.candidateNum)
                      && c.k <= |ActiveKeys(CurrentPool(s).value)|
  {
    if !AdminSigned(ctx) {
      return Err(Unauthorized);
    }
    var current := CurrentPool(s);
    if current.None? {
      return Err(NotFound);
    }
    var num := CountActive(current.value);
    var v := ConfigVerdict(c, num, s.globalParam.candidateNum);
    if v.Some? {
      return Err(v.value);
    }
    r := Ok(s.(config := c));
  }

  // --------------------------------------------------- updateGlobalParam

  /** What stored global parameters promise: the two split shares A and B
      add up to 100 percent, Yita is positive, Penalty is a percentage,
      PosLimit is at least 1, CandidateNum is at least 4 K (uint32), and
      the candidate fee is zero or at least the floor. */
  predicate SoundGlobalParam(g: GlobalParam, k: nat, minCandidateFee: nat)
  {
    g.a + g.b == 100 && g.yita != 0 && g.penalty <= 100 && g.posLimit >= 1
    && g.candidateNum >= Mul32(4, k)
    && (g.candidateFee == 0 || g.candidateFee >= minCandidateFee)
  }

  /** updateGlobalParam, by the administrator, with A + B in full width. */
  function UpdateGlobalParam(s: State, ctx: Ctx, g: GlobalParam, minCandidateFee: nat): (r: Result<State>)
    ensures r.Ok? <==> AdminSigned(ctx) && SoundGlobalParam(g, s.config.k, minCandidateFee)
    ensures !AdminSigned(ctx) ==> r == Err(Unauthorized)
    ensures r.Ok? ==> r.value == s.(globalParam := g) && g.a <= 100 && g.b <= 100
    ensures r.Ok? && s.config.k < 0x4000_0000 ==> g.candidateNum >= 4 * s.config.k
  {
    if !AdminSigned(ctx) then Err(Unauthorized)
    else if g.a + g.b != 100 then Err(Rejected)
    else if g.yita == 0 then Err(Rejected)
    else if g.penalty > 100 then Err(Rejected)
    else if g.posLimit < 1 then Err(Rejected)
    else if g.candidateNum < Mul32(4, s.config.k) then Err(Rejected)
    else if g.candidateFee != 0 && g.candidateFee < minCandidateFee then Err(Rejected)
    else Ok(s.(globalParam := g))
  }

  /** The same as written, with A + B in uint32. */
  function UpdateGlobalParamAsWritten(s: State, ctx: Ctx, g: GlobalParam, minCandidateFee: nat): (r: Result<State>)
    ensures r.Ok? ==> AdminSigned(ctx) && r.value == s.(globalParam := g)
  {
    if !AdminSigned(ctx) then Err(Unauthorized)
    else if Add32(g.a, g.b) != 100 then Err(Rejected)
    else if g.yita == 0 then Err(Rejected)
    else if g.penalty > 100 then Err(Rejected)
    else if g.posLimit < 1 then Err(Rejected)
    else if g.candidateNum < Mul32(4, s.config.k) then Err(Rejected)
    else if g.candidateFee != 0 && g.candidateFee < minCandidateFee then Err(Rejected)
    else Ok(s.(globalParam := g))
  }

  /** Without wrap-around in A + B the two agree. */
  lemma UpdateGlobalParamAgrees(s: State, ctx: Ctx, g: GlobalParam, minCandidateFee: nat)
    requires g.a + g.b < U32
    ensures UpdateGlobalParamAsWritten(s, ctx, g, minCandidateFee) == UpdateGlobalParam(s, ctx, g, minCandidateFee)
  {
  }

  /** As written, A = 2^32 - 1 and B = 101 wrap to 100 and are stored. */
  lemma GlobalParamWrapAccepted(s: State, ctx: Ctx, g: GlobalParam, minCandidateFee: nat)
    requires AdminSigned(ctx) && g.a == MaxUint32 && g.b == 101
    requires g.yita != 0 && g.penalty <= 100 && g.posLimit >= 1 && g.candidateNum >= Mul32(4, s.config.k)
    requires g.candidateFee == 0
    ensures UpdateGlobalParamAsWritten(s, ctx, g, minCandidateFee) == Ok(s.(globalParam := g))
    ensures UpdateGlobalParam(s, ctx, g, minCandidateFee) == Err(Rejected)
    ensures g.a > 100
  {
    assert Add32(g.a, g.b) == 100;
  }
}
