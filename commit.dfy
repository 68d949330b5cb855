/** The election at the end of a consensus epoch (executeCommitDpos) and
    the fee split that precedes it (executeSplit). Go iterates the peer
    pool map in an unspecified order; that order is a parameter here, and
    the properties that must not depend on it are proved for every order. */
module Commit {
  import opened Wrappers
  import opened Ints
  import opened Codec
  import opened GovernanceParams
  import opened GovernanceState
  import opened GovernanceMethod
  import opened Ranking

  /** `order` lists every key of `pool` exactly once: an order Go may
      iterate the pool map in. */
  predicate IsOrder(order: seq<Str>, pool: PeerPool)
  {
    (forall i, j :: 0 <= i < j < |order| ==> order[i] != order[j])
    && (forall k :: k in pool ==> k in order) && (forall k :: k in order ==> k in pool)
  }

  /** What a peer is ranked by: TotalPos + InitPos, a uint64 sum. */
  function StakeEntry(key: Str, item: PeerPoolItem): PeerStake
  {
    PeerStake(key, Add64(item.totalPos, item.initPos))
  }

  /** The stakes of the active peers, in iteration order. */
  function ActiveStakes(pool: PeerPool, order: seq<Str>): seq<PeerStake>
    requires forall k :: k in order ==> k in pool
  {
    if order == [] then []
    else
      var last := order[|order| - 1];
      ActiveStakes(pool, order[..|order| - 1])
        + (if Active(pool[last]) then [StakeEntry(last, pool[last])] else [])
  }

  /** The collected list holds exactly the active peers of the order, each
      with its own stake. */
  lemma {:induction false} ActiveStakesMembers(pool: PeerPool, order: seq<Str>, x: PeerStake)
    requires forall k :: k in order ==> k in pool
    ensures x in ActiveStakes(pool, order) <==>
              x.key in order && Active(pool[x.key]) && x == StakeEntry(x.key, pool[x.key])
  {
    if order != [] {
      var init := order[..|order| - 1];
      assert order == init + [order[|order| - 1]];
      ActiveStakesMembers(pool, init, x);
    }
  }

  /** Distinct keys in the order give distinct keys in the list. */
  lemma {:induction false} ActiveStakesDistinct(pool: PeerPool, order: seq<Str>)
    requires forall k :: k in order ==> k in pool
    requires forall i, j :: 0 <= i < j < |order| ==> order[i] != order[j]
    ensures DistinctKeys(ActiveStakes(pool, order))
  {
    if order != [] {
      var init := order[..|order| - 1];
      var last := order[|order| - 1];
      assert order == init + [last];
      ActiveStakesDistinct(pool, init);
      var l := ActiveStakes(pool, init);
      forall i | 0 <= i < |l| ensures l[i].key != last {
        assert l[i] in l;
        ActiveStakesMembers(pool, init, l[i]);
      }
    }
  }

  lemma ActiveStakesAppend(pool: PeerPool, a: seq<Str>, b: seq<Str>)
    requires forall k :: k in a + b ==> k in pool
    ensures ActiveStakes(pool, a + b) == ActiveStakes(pool, a) + ActiveStakes(pool, b)
    decreases |b|
  {
    if b == [] {
      assert a + b == a;
    } else {
      var b' := b[..|b| - 1];
      assert (a + b)[..|a + b| - 1] == a + b';
      ActiveStakesAppend(pool, a, b');
    }
  }

  /** Any two iteration orders collect the same peers. */
  lemma {:induction false} ActiveStakesPermutation(pool: PeerPool, o1: seq<Str>, o2: seq<Str>)
    requires IsOrder(o1, pool) && IsOrder(o2, pool)
    ensures multiset(ActiveStakes(pool, o1)) == multiset(ActiveStakes(pool, o2))
  {
    var a := ActiveStakes(pool, o1);
    var b := ActiveStakes(pool, o2);
    ActiveStakesDistinct(pool, o1);
    ActiveStakesDistinct(pool, o2);
    forall x ensures x in a <==> x in b {
      ActiveStakesMembers(pool, o1, x);
      ActiveStakesMembers(pool, o2, x);
    }
    DistinctSameElements(a, b);
  }

  /** Sequences without repeated keys and with the same elements are
      permutations of each other. */
  lemma {:induction false} DistinctSameElements(a: seq<PeerStake>, b: seq<PeerStake>)
    requires DistinctKeys(a) && DistinctKeys(b)
    requires forall x :: x in a <==> x in b
    ensures multiset(a) == multiset(b)
    decreases |a|
  {
    if a == [] {
      NothingIn(b);
    } else {
      var x := a[0];
      assert x in b;
      var k :| 0 <= k < |b| && b[k] == x;
      var b' := b[..k] + b[k + 1..];
      DropDistinct(b, k);
      DistinctTail(a);
      SameElementsTail(a, b, k);
      DistinctSameElements(a[1..], b');
      MultisetSplit(b, k);
      assert x in multiset(b);
      MultisetCons(a);
    }
  }

  lemma NothingIn(b: seq<PeerStake>)
    requires forall x :: x !in b
    ensures b == []
  {
    forall x ensures multiset(b)[x] == 0 {
      assert x !in b;
    }
    assert multiset(b) == multiset{};
    assert |b| == |multiset(b)|;
  }

  lemma SameElementsTail(a: seq<PeerStake>, b: seq<PeerStake>, k: nat)
    requires DistinctKeys(a) && DistinctKeys(b) && a != [] && k < |b| && b[k] == a[0]
    requires forall x :: x in a <==> x in b
    ensures forall y :: y in a[1..] <==> y in b[..k] + b[k + 1..]
  {
    var b' := b[..k] + b[k + 1..];
    DropDistinct(b, k);
    forall y | y in a[1..] ensures y in b' {
      var i :| 0 <= i < |a[1..]| && a[1..][i] == y;
      assert a[i + 1] == y;
      assert y in b;
      var j :| 0 <= j < |b| && b[j] == y;
      if j < k {
        assert b'[j] == y;
      } else {
        assert j != k;
        assert b'[j - 1] == y;
      }
    }
    forall y | y in b' ensures y in a[1..] {
      assert y in a && y != a[0];
      var i :| 0 <= i < |a| && a[i] == y;
      assert a[1..][i - 1] == y;
    }
  }

  lemma DropDistinct(b: seq<PeerStake>, k: nat)
    requires DistinctKeys(b) && k < |b|
    ensures DistinctKeys(b[..k] + b[k + 1..])
    ensures forall y :: y in b[..k] + b[k + 1..] ==> y in b && y.key != b[k].key
  {
    var b' := b[..k] + b[k + 1..];
    forall i | 0 <= i < |b'| ensures b'[i] == b[if i < k then i else i + 1] {
    }
  }

  /** The ranking does not depend on the iteration order. */
  lemma RankingIndependent(pool: PeerPool, o1: seq<Str>, o2: seq<Str>)
    requires IsOrder(o1, pool) && IsOrder(o2, pool)
    ensures Ranked(ActiveStakes(pool, o1)) == Ranked(ActiveStakes(pool, o2))
  {
    ActiveStakesDistinct(pool, o1);
    ActiveStakesDistinct(pool, o2);
    RankedSorted(ActiveStakes(pool, o1));
    RankedSorted(ActiveStakes(pool, o2));
    ActiveStakesPermutation(pool, o1, o2);
    SortedUnique(Ranked(ActiveStakes(pool, o1)), Ranked(ActiveStakes(pool, o2)));
  }

  /** The active peers in ranking order. */
  function RankedPeers(pool: PeerPool, order: seq<Str>): seq<PeerStake>
    requires forall k :: k in order ==> k in pool
  {
    Ranked(ActiveStakes(pool, order))
  }

  /** The loop that builds the peer list. */
  method CollectActive(pool: PeerPool, order: seq<Str>) returns (peers: seq<PeerStake>)
    requires forall k :: k in order ==> k in pool
    ensures peers == ActiveStakes(pool, order)
  {
    peers := [];
    var i := 0;
    while i < |order|
      invariant i <= |order|
      invariant peers == ActiveStakes(pool, order[..i])
    {
      var key := order[i];
      assert order[..i + 1][..i] == order[..i];
      if Active(pool[key]) {
        peers := peers + [StakeEntry(key, pool[key])];
      }
      i := i + 1;
    }
    assert order[..i] == order;
  }

  // ------------------------------------------------------------ fee split

  /** The exact total of the stakes of `l`. */
  function StakeSum(l: seq<PeerStake>): nat
  {
    if l == [] then 0 else StakeSum(l[..|l| - 1]) + l[|l| - 1].stake
  }

  /** One payee of the fee split: it receives its weight's share of the
      tier's part of the balance. */
  datatype Share = Share(address: Address, weight: nat)

  function ShareSum(l: seq<Share>): nat
  {
    if l == [] then 0 else ShareSum(l[..|l| - 1]) + l[|l| - 1].weight
  }

  /** The outcome of executeSplit: no split at all, or the consensus tier
      (A percent of the balance, in proportion to weight over
      consensusTotal) and the candidate tier (B percent, weight over
      candidateTotal; no candidate transfers when the list is empty). */
  datatype SplitPlan =
    | NoSplit
    | Split(consensus: seq<Share>, consensusTotal: nat, candidates: seq<Share>, candidateTotal: nat)

  /** The height from which candidates are paid by stake. */
  const StakeShareHeight := 720000

  /** The pool item's address (the zero address for a key not in the pool,
      which the ranking never produces). */
  function AddressOf(pool: PeerPool, key: Str): Address
  {
    if key in pool then pool[key].address else seq(20, _ => 0)
  }

  /** The curve value of every one of the first `n` ranked peers is
      defined. */
  predicate CurveDefined(ranked: seq<PeerStake>, n: nat, avg: nat, yita: nat, curve: (nat, nat, nat) -> Result<nat>)
    requires n <= |ranked|
  {
    forall i :: 0 <= i < n ==> curve(ranked[i].stake, avg, yita).Ok?
  }

  /** The consensus tier: each of the top `n` peers weighted by the split
      curve at its stake. */
  function CurveShares(pool: PeerPool, ranked: seq<PeerStake>, n: nat, avg: nat, yita: nat,
                       curve: (nat, nat, nat) -> Result<nat>): seq<Share>
    requires n <= |ranked| && CurveDefined(ranked, n, avg, yita, curve)
  {
    if n == 0 then []
    else CurveShares(pool, ranked, n - 1, avg, yita, curve)
           + [Share(AddressOf(pool, ranked[n - 1].key), curve(ranked[n - 1].stake, avg, yita).value)]
  }

  /** The candidate tier: from height 720000 on every peer below the top
      `k` is weighted by its stake; before, by its curve value, which is
      never computed for candidates and so is zero. */
  function CandidateShares(pool: PeerPool, ranked: seq<PeerStake>, k: nat, n: nat, height: nat): seq<Share>
    requires k <= n <= |ranked|
  {
    if n == k then []
    else CandidateShares(pool, ranked, k, n - 1, height)
           + [Share(AddressOf(pool, ranked[n - 1].key), if height >= StakeShareHeight then ranked[n - 1].stake else 0)]
  }

  /** The consensus tier pays the i-th ranked peer's address by its curve value. */
  lemma {:induction false} CurveSharesAt(pool: PeerPool, ranked: seq<PeerStake>, n: nat, avg: nat, yita: nat,
                                         curve: (nat, nat, nat) -> Result<nat>, i: nat)
    requires n <= |ranked| && CurveDefined(ranked, n, avg, yita, curve) && i < n
    ensures |CurveShares(pool, ranked, n, avg, yita, curve)| == n
    ensures CurveShares(pool, ranked, n, avg, yita, curve)[i]
              == Share(AddressOf(pool, ranked[i].key), curve(ranked[i].stake, avg, yita).value)
  {
    if i < n - 1 {
      CurveSharesAt(pool, ranked, n - 1, avg, yita, curve, i);
    } else if n > 1 {
      CurveSharesAt(pool, ranked, n - 1, avg, yita, curve, 0);
    }
  }

  /** Before height 720000 every candidate's weight is zero; from then on
      it is its stake. */
  lemma {:induction false} CandidateSharesAt(pool: PeerPool, ranked: seq<PeerStake>, k: nat, n: nat, height: nat, i: nat)
    requires k <= i < n <= |ranked|
    ensures |CandidateShares(pool, ranked, k, n, height)| == n - k
    ensures CandidateShares(pool, ranked, k, n, height)[i - k]
              == Share(AddressOf(pool, ranked[i].key), if height >= StakeShareHeight then ranked[i].stake else 0)
  {
    if i < n - 1 {
      CandidateSharesAt(pool, ranked, k, n - 1, height, i);
    } else if n - 1 > k {
      CandidateSharesAt(pool, ranked, k, n - 1, height, k);
    }
  }

  lemma StakeSumStep(l: seq<PeerStake>, i: nat, j: nat)
    requires i <= j < |l|
    ensures StakeSum(l[i..j + 1]) == StakeSum(l[i..j]) + l[j].stake
  {
    assert l[i..j + 1][..j - i] == l[i..j];
  }

  /** The uint64 sum of the top `k` stakes. */
  function TopSum(ranked: seq<PeerStake>, k: nat): nat
  {
    if k <= |ranked| then StakeSum(ranked[..k]) % U64 else 0
  }

  /** The uint64 sum of the stakes below the top `k`. */
  function RestSum(ranked: seq<PeerStake>, k: nat): nat
  {
    if k <= |ranked| then StakeSum(ranked[k..]) % U64 else 0
  }

  /** The average stake of the top `k`, which the split curve is centred on. */
  function Average(ranked: seq<PeerStake>, k: nat): nat
  {
    if k == 0 then 0 else TopSum(ranked, k) / k
  }

  /** A summing loop of executeSplit: the uint64 sum of l[from..to]. */
  method SumStakes(l: seq<PeerStake>, from: nat, to: nat) returns (sum: nat)
    requires from <= to <= |l|
    ensures sum == StakeSum(l[from..to]) % U64
  {
    sum := 0;
    var i := from;
    while i < to
      invariant from <= i <= to && sum == StakeSum(l[from..i]) % U64
    {
      StakeSumStep(l, from, i);
      ModAdd64(StakeSum(l[from..i]), l[i].stake);
      sum := Add64(sum, l[i].stake);
      i := i + 1;
    }
  }

  /** One step of the curve loop's uint64 running sum. */
  lemma ShareSumStep(l: seq<Share>, x: Share, sum: nat)
    requires sum == ShareSum(l) % U64
    ensures Add64(sum, x.weight) == ShareSum(l + [x]) % U64
  {
    assert (l + [x])[..|l|] == l;
    ModAdd64(ShareSum(l), x.weight);
  }

  lemma CurveSharesStep(pool: PeerPool, ranked: seq<PeerStake>, i: nat, avg: nat, yita: nat,
                        curve: (nat, nat, nat) -> Result<nat>)
    requires i < |ranked| && CurveDefined(ranked, i, avg, yita, curve) && curve(ranked[i].stake, avg, yita).Ok?
    ensures CurveDefined(ranked, i + 1, avg, yita, curve)
    ensures CurveShares(pool, ranked, i + 1, avg, yita, curve)
            == CurveShares(pool, ranked, i, avg, yita, curve)
               + [Share(AddressOf(pool, ranked[i].key), curve(ranked[i].stake, avg, yita).value)]
  {
  }

  /** One iteration of the curve loop keeps its invariant. */
  lemma CurveTierStep(pool: PeerPool, ranked: seq<PeerStake>, i: nat, avg: nat, yita: nat,
                      curve: (nat, nat, nat) -> Result<nat>, shares: seq<Share>, sum: nat)
    requires i < |ranked| && CurveDefined(ranked, i, avg, yita, curve) && curve(ranked[i].stake, avg, yita).Ok?
    requires shares == CurveShares(pool, ranked, i, avg, yita, curve) && sum == ShareSum(shares) % U64
    ensures var share := Share(AddressOf(pool, ranked[i].key), curve(ranked[i].stake, avg, yita).value);
            CurveDefined(ranked, i + 1, avg, yita, curve)
            && shares + [share] == CurveShares(pool, ranked, i + 1, avg, yita, curve)
            && Add64(sum, share.weight) == ShareSum(shares + [share]) % U64
  {
    CurveSharesStep(pool, ranked, i, avg, yita, curve);
    ShareSumStep(shares, Share(AddressOf(pool, ranked[i].key), curve(ranked[i].stake, avg, yita).value), sum);
  }

  lemma CurveUndefined(ranked: seq<PeerStake>, k: nat, avg: nat, yita: nat,
                       curve: (nat, nat, nat) -> Result<nat>, i: nat)
    requires i < k <= |ranked| && curve(ranked[i].stake, avg, yita).Err?
    ensures !CurveDefined(ranked, k, avg, yita, curve)
  {
  }

  /** The curve loop: the consensus tier and the uint64 sum of its
      weights; fails with the first curve error. */
  method CurveTier(pool: PeerPool, ranked: seq<PeerStake>, k: nat, avg: nat, yita: nat,
                   curve: (nat, nat, nat) -> Result<nat>)
    returns (r: Result<(seq<Share>, nat)>)
    requires k <= |ranked|
    ensures r.Err? <==> !CurveDefined(ranked, k, avg, yita, curve)
    ensures r.Ok? ==> r.value.0 == CurveShares(pool, ranked, k, avg, yita, curve)
                      && r.value.1 == ShareSum(r.value.0) % U64
  {
    var shares: seq<Share> := [];
    var sumS := 0;
    var i := 0;
    while i < k
      invariant i <= k && CurveDefined(ranked, i, avg, yita, curve)
      invariant shares == CurveShares(pool, ranked, i, avg, yita, curve)
      invariant sumS == ShareSum(shares) % U64
    {
      var c := curve(ranked[i].stake, avg, yita);
      if c.Err? {
        CurveUndefined(ranked, k, avg, yita, curve, i);
        return Err(c.error);
      }
      var share := Share(AddressOf(pool, ranked[i].key), c.value);
      CurveTierStep(pool, ranked, i, avg, yita, curve, shares, sumS);
      shares := shares + [share];
      sumS := Add64(sumS, c.value);
      i := i + 1;
    }
    return Ok((shares, sumS));
  }

  /** The candidate loop. */
  method CandidateTier(pool: PeerPool, ranked: seq<PeerStake>, k: nat, height: nat) returns (cs: seq<Share>)
    requires k <= |ranked|
    ensures cs == CandidateShares(pool, ranked, k, |ranked|, height)
  {
    cs := [];
    var i := k;
    while i < |ranked|
      invariant k <= i <= |ranked| && cs == CandidateShares(pool, ranked, k, i, height)
    {
      var weight := if height >= StakeShareHeight then ranked[i].stake else 0;
      cs := cs + [Share(AddressOf(pool, ranked[i].key), weight)];
      i := i + 1;
    }
  }

  /** What executeSplit pays once the top `k` hold at least `k` units;
      None when the split curve fails for a consensus peer or its values
      sum to zero. */
  function SplitOf(pool: PeerPool, ranked: seq<PeerStake>, k: nat, yita: nat, height: nat,
                   curve: (nat, nat, nat) -> Result<nat>): (r: Option<SplitPlan>)
    requires 0 < k <= |ranked|
    ensures r.Some? ==> r.value.Split? && |r.value.consensus| == k && r.value.consensusTotal != 0
    ensures r.Some? && r.value.candidates != [] ==> |r.value.candidates| == |ranked| - k
  {
    var avg := Average(ranked, k);
    if !CurveDefined(ranked, k, avg, yita, curve) then None
    else
      var shares := CurveShares(pool, ranked, k, avg, yita, curve);
      var sumS := ShareSum(shares) % U64;
      CurveSharesAt(pool, ranked, k, avg, yita, curve, 0);
      if sumS == 0 then None
      else if RestSum(ranked, k) == 0 then Some(Split(shares, sumS, [], 0))
      else
        CandidateSharesLength(pool, ranked, k, |ranked|, height);
        Some(Split(shares, sumS, CandidateShares(pool, ranked, k, |ranked|, height),
                   if height >= StakeShareHeight then RestSum(ranked, k) else sumS))
  }

  lemma {:induction false} CandidateSharesLength(pool: PeerPool, ranked: seq<PeerStake>, k: nat, n: nat, height: nat)
    requires k <= n <= |ranked|
    ensures |CandidateShares(pool, ranked, k, n, height)| == n - k
  {
    if n > k {
      CandidateSharesLength(pool, ranked, k, n - 1, height);
    }
  }

  /** The split tiers: a consensus peer's weight is its curve value and the
      consensus total their uint64 sum; before height 720000 every
      candidate's weight is zero and the candidate total is the consensus
      total, from then on a candidate's weight is its stake and the total
      the uint64 sum of the candidates' stakes. */
  lemma SplitShares(pool: PeerPool, ranked: seq<PeerStake>, k: nat, yita: nat, height: nat,
                    curve: (nat, nat, nat) -> Result<nat>, i: nat)
    requires 0 < k <= |ranked| && i < |ranked|
    requires SplitOf(pool, ranked, k, yita, height, curve).Some?
    ensures var plan := SplitOf(pool, ranked, k, yita, height, curve).value;
            var avg := Average(ranked, k);
            plan.consensusTotal == ShareSum(plan.consensus) % U64
            && (i < k ==> plan.consensus[i]
                            == Share(AddressOf(pool, ranked[i].key), curve(ranked[i].stake, avg, yita).value))
            && (k <= i && plan.candidates != [] ==>
                  plan.candidates[i - k].address == AddressOf(pool, ranked[i].key)
                  && (height < StakeShareHeight ==> plan.candidates[i - k].weight == 0
                                                    && plan.candidateTotal == plan.consensusTotal)
                  && (height >= StakeShareHeight ==> plan.candidates[i - k].weight == ranked[i].stake
                                                     && plan.candidateTotal == RestSum(ranked, k)))
  {
    var avg := Average(ranked, k);
    if i < k {
      CurveSharesAt(pool, ranked, k, avg, yita, curve, i);
    } else {
      CandidateSharesAt(pool, ranked, k, |ranked|, height, i);
    }
  }

  /** The tiers as executeSplit computes them, loop by loop. */
  method SplitTiers(pool: PeerPool, ranked: seq<PeerStake>, k: nat, yita: nat, height: nat,
                    curve: (nat, nat, nat) -> Result<nat>)
    returns (r: Result<SplitPlan>)
    requires 0 < k <= |ranked|
    ensures r.Err? <==> SplitOf(pool, ranked, k, yita, height, curve).None?
    ensures r.Ok? ==> r.value == SplitOf(pool, ranked, k, yita, height, curve).value
  {
    var tier := CurveTier(pool, ranked, k, Average(ranked, k), yita, curve);
    if tier.Err? {
      return Err(tier.error);
    }
    var (shares, sumS) := tier.value;
    if sumS == 0 {
      return Err(Rejected);
    }
    var csum := SumStakes(ranked, k, |ranked|);
    assert ranked[k..|ranked|] == ranked[k..];
    if csum == 0 {
      return Ok(Split(shares, sumS, [], 0));
    }
    var cshares := CandidateTier(pool, ranked, k, height);
    var total := if height >= StakeShareHeight then csum else sumS;
    return Ok(Split(shares, sumS, cshares, total));
  }

  /** executeSplit on the pool of the previous view. The payable amounts
      are floating-point fractions of the balance and are not computed;
      the plan says who is paid and in what proportion. */
  method ExecuteSplit(pool: PeerPool, order: seq<Str>, gp: GlobalParam, k: nat, height: nat,
                      curve: (nat, nat, nat) -> Result<nat>)
    returns (r: Result<SplitPlan>)
    requires forall key :: key in order ==> key in pool
    ensures var ranked := RankedPeers(pool, order);
            |ranked| < k || k == 0 ==> r == Err(Panic)
    ensures var ranked := RankedPeers(pool, order);
            0 < k <= |ranked| && TopSum(ranked, k) < k ==> r == Ok(NoSplit)
    ensures var ranked := RankedPeers(pool, order);
            0 < k <= |ranked| && TopSum(ranked, k) >= k ==>
              (r.Err? <==> SplitOf(pool, ranked, k, gp.yita, height, curve).None?)
              && (r.Ok? ==> r.value == SplitOf(pool, ranked, k, gp.yita, height, curve).value)
  {
    var peers := CollectActive(pool, order);
    var ranked := Ranked(peers);
    assert ranked == RankedPeers(pool, order);
    if |ranked| < k {
      return Err(Panic);
    }
    var sum := SumStakes(ranked, 0, k);
    assert ranked[0..k] == ranked[..k];
    if sum < k {
      return Ok(NoSplit);
    }
    if k == 0 {
      return Err(Panic);
    }
    r := SplitTiers(pool, ranked, k, gp.yita, height, curve);
  }

  // ---------------------------------------------------------- settling

  /** Peers that leave the pool at a commit. */
  predicate Leaves(st: Status)
  {
    st == Quiting || st == QuitCandidate || st == Black
  }

  /** A peer that stays, after the settle loop: QuitConsensus becomes
      Quiting, everything else is kept as it is. */
  function Kept(item: PeerPoolItem): PeerPoolItem
  {
    if item.status == QuitConsensus then item.(status := Quiting) else item
  }

  /** The pool once the peers in `done` are settled. */
  function PartKept(pool: PeerPool, done: set<Str>): PeerPool
  {
    map k | k in pool && !(k in done && Leaves(pool[k].status)) :: if k in done then Kept(pool[k]) else pool[k]
  }

  /** A peer's vote records once it is settled: released by a normal quit,
      settled less the penalty by a black-list quit, untouched otherwise. */
  function SettledBallots(s: State, pool: PeerPool, k: Str): Ballots
  {
    if k !in pool then BallotsOf(s, k)
    else if pool[k].status == Quiting || pool[k].status == QuitCandidate then
      NormalQuitBallots(BallotsOf(s, k), pool[k].address, pool[k].initPos)
    else if pool[k].status == Black then BlackQuitBallots(s.globalParam.penalty, BallotsOf(s, k))
    else BallotsOf(s, k)
  }

  lemma PartKeptLeave(pool: PeerPool, done: set<Str>, key: Str)
    requires key in pool && key !in done && Leaves(pool[key].status)
    ensures PartKept(pool, done + {key}) == PartKept(pool, done) - {key}
  {
  }

  lemma PartKeptStay(pool: PeerPool, done: set<Str>, key: Str)
    requires key in pool && key !in done && !Leaves(pool[key].status)
    ensures PartKept(pool, done + {key}) == PartKept(pool, done)[key := Kept(pool[key])]
  {
  }

  datatype Settlement = Settlement(store: State, pool: PeerPool)

  /** One iteration of the settle loop, for the peer `key` of the pool. */
  ghost function SettleStep(st: Settlement, key: Str, item: PeerPoolItem, ctx: Ctx): Result<Settlement>
  {
    if item.status == Quiting || item.status == QuitCandidate then
      var b := NormalQuitBallots(BallotsOf(st.store, key), item.address, item.initPos);
      Ok(Settlement(st.store.(votes := st.store.votes[key := b]), st.pool - {key}))
    else if item.status == Black then
      match BlackQuitOutcome(st.store, key, item, ctx)
      case Err(e) => Err(e)
      case Ok(store) => Ok(Settlement(store, st.pool - {key}))
    else if item.status == QuitConsensus then
      Ok(Settlement(st.store, st.pool[key := item.(status := Quiting)]))
    else Ok(st)
  }

  /** The settle loop over the keys in `order`. */
  ghost function Settled(st0: Settlement, pool: PeerPool, order: seq<Str>, ctx: Ctx): Result<Settlement>
    requires forall k :: k in order ==> k in pool
  {
    if order == [] then Ok(st0)
    else
      var last := order[|order| - 1];
      match Settled(st0, pool, order[..|order| - 1], ctx)
      case Err(e) => Err(e)
      case Ok(st) => SettleStep(st, last, pool[last], ctx)
  }

  /** What holds once the peers in `done` are settled. */
  ghost predicate SettleInv(s: State, pool: PeerPool, done: set<Str>, st: Settlement)
  {
    st.pool == PartKept(pool, done)
    && (forall k :: BallotsOf(st.store, k) == if k in done then SettledBallots(s, pool, k) else BallotsOf(s, k))
    && st.store == s.(votes := st.store.votes, totalStakes := st.store.totalStakes,
                      penaltyStakes := st.store.penaltyStakes)
    && ((forall k :: k in done && k in pool ==> pool[k].status != Black) ==>
          st.store.totalStakes == s.totalStakes && st.store.penaltyStakes == s.penaltyStakes)
  }

  lemma SettleStepInv(s: State, pool: PeerPool, done: set<Str>, st: Settlement, key: Str, ctx: Ctx)
    requires done <= pool.Keys && key in pool && key !in done
    requires SettleInv(s, pool, done, st)
    ensures SettleStep(st, key, pool[key], ctx).Err? ==> pool[key].status == Black
    ensures SettleStep(st, key, pool[key], ctx).Ok? ==> SettleInv(s, pool, done + {key}, SettleStep(st, key, pool[key], ctx).value)
  {
    var item := pool[key];
    assert BallotsOf(st.store, key) == BallotsOf(s, key);
    if item.status == Quiting || item.status == QuitCandidate {
      SettleNormalInv(s, pool, done, st, key, ctx);
    } else if item.status == Black {
      SettleBlackInv(s, pool, done, st, key, ctx);
    } else {
      SettleStayInv(s, pool, done, st, key, ctx);
    }
  }

  lemma SettleNormalInv(s: State, pool: PeerPool, done: set<Str>, st: Settlement, key: Str, ctx: Ctx)
    requires done <= pool.Keys && key in pool && key !in done
    requires pool[key].status == Quiting || pool[key].status == QuitCandidate
    requires SettleInv(s, pool, done, st)
    ensures SettleStep(st, key, pool[key], ctx).Ok?
    ensures SettleInv(s, pool, done + {key}, SettleStep(st, key, pool[key], ctx).value)
  {
    var item := pool[key];
    var b := NormalQuitBallots(BallotsOf(st.store, key), item.address, item.initPos);
    var st' := Settlement(st.store.(votes := st.store.votes[key := b]), st.pool - {key});
    assert SettleStep(st, key, item, ctx) == Ok(st');
    PartKeptLeave(pool, done, key);
    forall k ensures BallotsOf(st'.store, k) == if k in done + {key} then SettledBallots(s, pool, k) else BallotsOf(s, k) {
      if k != key {
        assert BallotsOf(st'.store, k) == BallotsOf(st.store, k);
      }
    }
  }

  lemma SettleBlackInv(s: State, pool: PeerPool, done: set<Str>, st: Settlement, key: Str, ctx: Ctx)
    requires done <= pool.Keys && key in pool && key !in done
    requires pool[key].status == Black
    requires SettleInv(s, pool, done, st)
    ensures SettleStep(st, key, pool[key], ctx).Ok? ==> SettleInv(s, pool, done + {key}, SettleStep(st, key, pool[key], ctx).value)
  {
    var item := pool[key];
    var q := BlackQuitOutcome(st.store, key, item, ctx);
    if q.Ok? {
      var st' := Settlement(q.value, st.pool - {key});
      assert SettleStep(st, key, item, ctx) == Ok(st');
      PartKeptLeave(pool, done, key);
      assert st.store.globalParam == s.globalParam;
      forall k ensures BallotsOf(st'.store, k) == if k in done + {key} then SettledBallots(s, pool, k) else BallotsOf(s, k) {
        if k != key {
          assert BallotsOf(st'.store, k) == BallotsOf(st.store, k);
        }
      }
    }
  }

  lemma SettleStayInv(s: State, pool: PeerPool, done: set<Str>, st: Settlement, key: Str, ctx: Ctx)
    requires done <= pool.Keys && key in pool && key !in done
    requires !Leaves(pool[key].status)
    requires SettleInv(s, pool, done, st)
    ensures SettleStep(st, key, pool[key], ctx).Ok?
    ensures SettleInv(s, pool, done + {key}, SettleStep(st, key, pool[key], ctx).value)
  {
    var item := pool[key];
    var st' := SettleStep(st, key, item, ctx).value;
    assert st'.store == st.store;
    PartKeptStay(pool, done, key);
  }

  /** The keys of an order, as a set. */
  function KeySet(order: seq<Str>): (r: set<Str>)
    ensures forall k :: k in r <==> k in order
  {
    if order == [] then {} else KeySet(order[..|order| - 1]) + {order[|order| - 1]}
  }

  /** The settle loop: whatever the order, the pool keeps exactly the
      peers that do not leave, a QuitConsensus peer becomes Quiting, each
      leaving peer's records are settled and no other record changes. Only
      a black-listed peer can make it fail, and without one no stake
      changes. */
  lemma {:induction false} SettledInvariant(s: State, pool: PeerPool, order: seq<Str>, ctx: Ctx)
    requires forall k :: k in order ==> k in pool
    requires forall i, j :: 0 <= i < j < |order| ==> order[i] != order[j]
    ensures var r := Settled(Settlement(s, pool), pool, order, ctx);
            (r.Err? ==> exists i :: 0 <= i < |order| && pool[order[i]].status == Black)
            && (r.Ok? ==> SettleInv(s, pool, KeySet(order), r.value))
  {
    if order == [] {
      assert PartKept(pool, {}) == pool;
    } else {
      var init := order[..|order| - 1];
      assert forall k :: k in init ==> k in order;
      SettledInvariant(s, pool, init, ctx);
      SettledLast(s, pool, order, ctx);
    }
  }

  /** The induction step of SettledInvariant. */
  lemma SettledLast(s: State, pool: PeerPool, order: seq<Str>, ctx: Ctx)
    requires order != [] && forall k :: k in order ==> k in pool
    requires forall i, j :: 0 <= i < j < |order| ==> order[i] != order[j]
    requires var r0 := Settled(Settlement(s, pool), pool, order[..|order| - 1], ctx);
             (r0.Err? ==> exists i :: 0 <= i < |order| - 1 && pool[order[i]].status == Black)
             && (r0.Ok? ==> SettleInv(s, pool, KeySet(order[..|order| - 1]), r0.value))
    ensures var r := Settled(Settlement(s, pool), pool, order, ctx);
            (r.Err? ==> exists i :: 0 <= i < |order| && pool[order[i]].status == Black)
            && (r.Ok? ==> SettleInv(s, pool, KeySet(order), r.value))
  {
    var init := order[..|order| - 1];
    var last := order[|order| - 1];
    var r0 := Settled(Settlement(s, pool), pool, init, ctx);
    if r0.Ok? {
      SettleStepInv(s, pool, KeySet(init), r0.value, last, ctx);
    }
  }

  /** The settle loop as executeCommitDpos runs it, collecting the active
      peers on the way. */
  method SettlePool(s: State, pool: PeerPool, order: seq<Str>, ctx: Ctx)
    returns (r: Result<Settlement>, peers: seq<PeerStake>)
    requires forall k :: k in order ==> k in pool
    ensures r == Settled(Settlement(s, pool), pool, order, ctx)
    ensures r.Ok? ==> peers == ActiveStakes(pool, order)
  {
    var st := Settlement(s, pool);
    peers := [];
    var i := 0;
    while i < |order|
      invariant i <= |order|
      invariant Settled(Settlement(s, pool), pool, order[..i], ctx) == Ok(st)
      invariant peers == ActiveStakes(pool, order[..i])
    {
      var key := order[i];
      var item := pool[key];
      SettledNext(s, pool, order, ctx, i, st);
      var next := SettleOne(st, key, item, ctx);
      if next.Err? {
        r := next;
        SettledStops(s, pool, order, ctx, i + 1);
        return;
      }
      st := next.value;
      if Active(item) {
        peers := peers + [StakeEntry(key, item)];
      }
      i := i + 1;
    }
    assert order[..i] == order;
    r := Ok(st);
  }

  lemma SettledNext(s: State, pool: PeerPool, order: seq<Str>, ctx: Ctx, i: nat, st: Settlement)
    requires forall k :: k in order ==> k in pool
    requires i < |order| && Settled(Settlement(s, pool), pool, order[..i], ctx) == Ok(st)
    ensures Settled(Settlement(s, pool), pool, order[..i + 1], ctx) == SettleStep(st, order[i], pool[order[i]], ctx)
    ensures ActiveStakes(pool, order[..i + 1])
              == ActiveStakes(pool, order[..i]) + (if Active(pool[order[i]]) then [StakeEntry(order[i], pool[order[i]])] else [])
  {
    assert order[..i + 1][..i] == order[..i];
  }

  /** The body of the settle loop for one peer. */
  method SettleOne(st: Settlement, key: Str, item: PeerPoolItem, ctx: Ctx) returns (r: Result<Settlement>)
    ensures r == SettleStep(st, key, item, ctx)
  {
    if item.status == Quiting || item.status == QuitCandidate {
      var b := NormalQuit(BallotsOf(st.store, key), item.address, item.initPos);
      r := Ok(Settlement(st.store.(votes := st.store.votes[key := b]), st.pool - {key}));
    } else if item.status == Black {
      var q := BlackQuit(st.store, key, item, ctx);
      if q.Err? {
        return Err(q.error);
      }
      r := Ok(Settlement(q.value, st.pool - {key}));
    } else if item.status == QuitConsensus {
      r := Ok(Settlement(st.store, st.pool[key := item.(status := Quiting)]));
    } else {
      r := Ok(st);
    }
  }

  /** Once the loop fails it stays failed. */
  lemma {:induction false} SettledStops(s: State, pool: PeerPool, order: seq<Str>, ctx: Ctx, n: nat)
    requires forall k :: k in order ==> k in pool
    requires n <= |order| && Settled(Settlement(s, pool), pool, order[..n], ctx).Err?
    ensures Settled(Settlement(s, pool), pool, order, ctx) == Settled(Settlement(s, pool), pool, order[..n], ctx)
    decreases |order| - n
  {
    if n < |order| {
      assert order[..n + 1][..n] == order[..n];
      SettledStops(s, pool, order, ctx, n + 1);
    } else {
      assert order[..n] == order;
    }
  }

  // ----------------------------------------------------------- election

  /** The transition a ranked peer's records go through, by its old role
      and whether it is in the top K. */
  function EpochFor(wasConsensus: bool, top: bool): Epoch
  {
    if wasConsensus then (if top then ConsensusToConsensus else ConsensusToUnConsensus)
    else (if top then UnConsensusToConsensus else UnConsensusToUnConsensus)
  }

  /** A ranked peer's new status. */
  function Elect(item: PeerPoolItem, top: bool): PeerPoolItem
  {
    item.(status := if top then Consensus else Candidate)
  }

  /** The records of `key` after its transition, if it can make it. */
  function Transitioned(st: Settlement, key: Str, top: bool): Option<Ballots>
    requires key in st.pool
  {
    EpochOutcome(BallotsOf(st.store, key), EpochFor(st.pool[key].status == Consensus, top))
  }

  /** One iteration of the two election loops, for the ranked peer `key`. */
  function ElectStep(st: Settlement, key: Str, top: bool): Result<Settlement>
  {
    if key !in st.pool then Err(NotFound)
    else
      match Transitioned(st, key, top)
      case None => Err(Rejected)
      case Some(b) =>
        Ok(Settlement(st.store.(votes := st.store.votes[key := b]), st.pool[key := Elect(st.pool[key], top)]))
  }

  /** The first `n` iterations of the election loops over the ranking. */
  function Elected(st0: Settlement, ranked: seq<PeerStake>, k: nat, n: nat): Result<Settlement>
    requires n <= |ranked|
  {
    if n == 0 then Ok(st0)
    else
      match Elected(st0, ranked, k, n - 1)
      case Err(e) => Err(e)
      case Ok(st) => ElectStep(st, ranked[n - 1].key, n - 1 < k)
  }

  /** The keys of a list of stakes. */
  function StakeKeys(l: seq<PeerStake>): (r: set<Str>)
    ensures forall i :: 0 <= i < |l| ==> l[i].key in r
    ensures forall key :: key in r ==> exists i :: 0 <= i < |l| && l[i].key == key
  {
    if l == [] then {} else StakeKeys(l[..|l| - 1]) + {l[|l| - 1].key}
  }

  /** What holds after the first `n` ranked peers are elected. */
  ghost predicate ElectInv(st0: Settlement, ranked: seq<PeerStake>, k: nat, n: nat, st: Settlement)
    requires n <= |ranked|
  {
    st.pool.Keys == st0.pool.Keys
    && st.store == st0.store.(votes := st.store.votes)
    && ElectedRanked(st0, ranked, k, n, st)
    && ElectedOthers(st0, ranked, n, st)
  }

  /** The first `n` ranked peers have their new status and records. */
  ghost predicate ElectedRanked(st0: Settlement, ranked: seq<PeerStake>, k: nat, n: nat, st: Settlement)
    requires n <= |ranked|
  {
    forall i :: 0 <= i < n ==>
      ranked[i].key in st0.pool && ranked[i].key in st.pool
      && st.pool[ranked[i].key] == Elect(st0.pool[ranked[i].key], i < k)
      && Transitioned(st0, ranked[i].key, i < k) == Some(BallotsOf(st.store, ranked[i].key))
  }

  /** The peers not yet reached are as they were. */
  ghost predicate ElectedOthers(st0: Settlement, ranked: seq<PeerStake>, n: nat, st: Settlement)
    requires n <= |ranked|
  {
    forall key :: key !in StakeKeys(ranked[..n]) ==>
      (key in st0.pool ==> key in st.pool && st.pool[key] == st0.pool[key])
      && BallotsOf(st.store, key) == BallotsOf(st0.store, key)
  }

  /** Every one of the first `n` ranked peers can make its transition. */
  predicate AllTransition(st0: Settlement, ranked: seq<PeerStake>, k: nat, n: nat)
    requires n <= |ranked| && forall i :: 0 <= i < |ranked| ==> ranked[i].key in st0.pool
  {
    forall i :: 0 <= i < n ==> Transitioned(st0, ranked[i].key, i < k).Some?
  }

  /** No ranked peer is elected twice: the n-th key is not among the earlier ones. */
  lemma FreshKey(ranked: seq<PeerStake>, n: nat)
    requires n < |ranked| && DistinctKeys(ranked)
    ensures ranked[n].key !in StakeKeys(ranked[..n])
    ensures StakeKeys(ranked[..n + 1]) == StakeKeys(ranked[..n]) + {ranked[n].key}
  {
    forall i | 0 <= i < n
      ensures ranked[..n][i].key != ranked[n].key
    {
      assert ranked[..n][i] == ranked[i];
    }
    assert ranked[..n + 1][..n] == ranked[..n];
  }

  lemma ElectStepRanked(st0: Settlement, ranked: seq<PeerStake>, k: nat, n: nat, st: Settlement, b: Ballots, st': Settlement)
    requires n < |ranked| && DistinctKeys(ranked)
    requires ranked[n].key in st0.pool && ranked[n].key in st.pool
    requires ElectedRanked(st0, ranked, k, n, st)
    requires st.pool[ranked[n].key] == st0.pool[ranked[n].key]
    requires Transitioned(st0, ranked[n].key, n < k) == Some(b)
    requires st'.pool == st.pool[ranked[n].key := Elect(st.pool[ranked[n].key], n < k)]
    requires st'.store.votes == st.store.votes[ranked[n].key := b]
    ensures ElectedRanked(st0, ranked, k, n + 1, st')
  {
    var key := ranked[n].key;
    forall i | 0 <= i < n + 1
      ensures ranked[i].key in st0.pool && ranked[i].key in st'.pool
      ensures st'.pool[ranked[i].key] == Elect(st0.pool[ranked[i].key], i < k)
      ensures Transitioned(st0, ranked[i].key, i < k) == Some(BallotsOf(st'.store, ranked[i].key))
    {
      if i < n {
        assert ranked[i].key != key;
        assert BallotsOf(st'.store, ranked[i].key) == BallotsOf(st.store, ranked[i].key);
      }
    }
  }

  lemma ElectStepOthers(st0: Settlement, ranked: seq<PeerStake>, n: nat, st: Settlement, b: Ballots, item: PeerPoolItem, st': Settlement)
    requires n < |ranked|
    requires ElectedOthers(st0, ranked, n, st)
    requires StakeKeys(ranked[..n + 1]) == StakeKeys(ranked[..n]) + {ranked[n].key}
    requires st'.pool == st.pool[ranked[n].key := item]
    requires st'.store.votes == st.store.votes[ranked[n].key := b]
    ensures ElectedOthers(st0, ranked, n + 1, st')
  {
    forall key | key !in StakeKeys(ranked[..n + 1])
      ensures (key in st0.pool ==> key in st'.pool && st'.pool[key] == st0.pool[key])
      ensures BallotsOf(st'.store, key) == BallotsOf(st0.store, key)
    {
      assert key != ranked[n].key;
      assert BallotsOf(st'.store, key) == BallotsOf(st.store, key);
    }
  }

  lemma ElectStepKeeps(st0: Settlement, ranked: seq<PeerStake>, k: nat, n: nat, st: Settlement, b: Ballots, st': Settlement)
    requires n < |ranked| && DistinctKeys(ranked)
    requires forall i :: 0 <= i < |ranked| ==> ranked[i].key in st0.pool
    requires ElectInv(st0, ranked, k, n, st)
    requires ranked[n].key !in StakeKeys(ranked[..n])
    requires StakeKeys(ranked[..n + 1]) == StakeKeys(ranked[..n]) + {ranked[n].key}
    requires Transitioned(st0, ranked[n].key, n < k) == Some(b)
    requires st' == Settlement(st.store.(votes := st.store.votes[ranked[n].key := b]),
                               st.pool[ranked[n].key := Elect(st.pool[ranked[n].key], n < k)])
    ensures ElectInv(st0, ranked, k, n + 1, st')
  {
    ElectStepRanked(st0, ranked, k, n, st, b, st');
    ElectStepOthers(st0, ranked, n, st, b, Elect(st.pool[ranked[n].key], n < k), st');
  }

  lemma ElectStepInv(st0: Settlement, ranked: seq<PeerStake>, k: nat, n: nat, st: Settlement)
    requires n < |ranked| && DistinctKeys(ranked)
    requires forall i :: 0 <= i < |ranked| ==> ranked[i].key in st0.pool
    requires ElectInv(st0, ranked, k, n, st)
    ensures ElectStep(st, ranked[n].key, n < k).Ok? <==> Transitioned(st0, ranked[n].key, n < k).Some?
    ensures ElectStep(st, ranked[n].key, n < k).Ok? ==> ElectInv(st0, ranked, k, n + 1, ElectStep(st, ranked[n].key, n < k).value)
  {
    var key := ranked[n].key;
    FreshKey(ranked, n);
    assert Transitioned(st, key, n < k) == Transitioned(st0, key, n < k);
    var r := ElectStep(st, key, n < k);
    if r.Ok? {
      ElectStepKeeps(st0, ranked, k, n, st, Transitioned(st0, key, n < k).value, r.value);
    }
  }

  /** The election loops: whatever happened before, the pool keeps its
      keys, the i-th ranked peer becomes Consensus exactly when i < K and
      its records make the matching transition, nothing else changes, and
      the loops fail exactly when some ranked peer cannot make its
      transition. */
  lemma ElectedInvariant(st0: Settlement, ranked: seq<PeerStake>, k: nat, n: nat)
    requires n <= |ranked| && DistinctKeys(ranked)
    requires forall i :: 0 <= i < |ranked| ==> ranked[i].key in st0.pool
    ensures Elected(st0, ranked, k, n).Ok? <==> AllTransition(st0, ranked, k, n)
    ensures Elected(st0, ranked, k, n).Ok? ==> ElectInv(st0, ranked, k, n, Elected(st0, ranked, k, n).value)
  {
    ElectedHoldsUpTo(st0, ranked, k, n);
  }

  /** The two facts of ElectedInvariant after `n` iterations. */
  ghost predicate ElectedHolds(st0: Settlement, ranked: seq<PeerStake>, k: nat, n: nat)
    requires n <= |ranked| && forall i :: 0 <= i < |ranked| ==> ranked[i].key in st0.pool
  {
    (Elected(st0, ranked, k, n).Ok? <==> AllTransition(st0, ranked, k, n))
    && (Elected(st0, ranked, k, n).Ok? ==> ElectInv(st0, ranked, k, n, Elected(st0, ranked, k, n).value))
  }

  lemma ElectedHoldsUpTo(st0: Settlement, ranked: seq<PeerStake>, k: nat, n: nat)
    requires n <= |ranked| && DistinctKeys(ranked)
    requires forall i :: 0 <= i < |ranked| ==> ranked[i].key in st0.pool
    ensures ElectedHolds(st0, ranked, k, n)
  {
    ElectedHoldsZero(st0, ranked, k);
    ElectedHoldsFrom(st0, ranked, k, 0, n);
  }

  lemma ElectedHoldsZero(st0: Settlement, ranked: seq<PeerStake>, k: nat)
    requires forall i :: 0 <= i < |ranked| ==> ranked[i].key in st0.pool
    ensures ElectedHolds(st0, ranked, k, 0)
  {
    ElectStart(st0, ranked, k);
  }

  /** The invariant carries from iteration `n` on to iteration `m`. */
  lemma {:induction false} ElectedHoldsFrom(st0: Settlement, ranked: seq<PeerStake>, k: nat, n: nat, m: nat)
    requires n <= m <= |ranked| && DistinctKeys(ranked)
    requires forall i :: 0 <= i < |ranked| ==> ranked[i].key in st0.pool
    requires ElectedHolds(st0, ranked, k, n)
    ensures ElectedHolds(st0, ranked, k, m)
    decreases m - n
  {
    if n < m {
      ElectedNext(st0, ranked, k, n);
      ElectedHoldsFrom(st0, ranked, k, n + 1, m);
    }
  }

  /** One more iteration of the election loops keeps the invariant. */
  lemma ElectedNext(st0: Settlement, ranked: seq<PeerStake>, k: nat, n: nat)
    requires n < |ranked| && DistinctKeys(ranked)
    requires forall i :: 0 <= i < |ranked| ==> ranked[i].key in st0.pool
    requires ElectedHolds(st0, ranked, k, n)
    ensures ElectedHolds(st0, ranked, k, n + 1)
  {
    AllTransitionNext(st0, ranked, k, n);
    var r0 := Elected(st0, ranked, k, n);
    if r0.Ok? {
      ElectStepInv(st0, ranked, k, n, r0.value);
    }
  }

  lemma ElectStart(st0: Settlement, ranked: seq<PeerStake>, k: nat)
    requires forall i :: 0 <= i < |ranked| ==> ranked[i].key in st0.pool
    ensures ElectInv(st0, ranked, k, 0, st0)
  {
    assert ranked[..0] == [];
  }

  lemma AllTransitionNext(st0: Settlement, ranked: seq<PeerStake>, k: nat, n: nat)
    requires n < |ranked| && forall i :: 0 <= i < |ranked| ==> ranked[i].key in st0.pool
    ensures AllTransition(st0, ranked, k, n + 1)
        <==> AllTransition(st0, ranked, k, n) && Transitioned(st0, ranked[n].key, n < k).Some?
  {
  }

  /** The two election loops of executeCommitDpos: the top K, then the rest. */
  method ElectPeers(st0: Settlement, ranked: seq<PeerStake>, k: nat) returns (r: Result<Settlement>)
    requires k <= |ranked|
    ensures r == Elected(st0, ranked, k, |ranked|)
  {
    var st := st0;
    var i := 0;
    while i < k
      invariant i <= k && Elected(st0, ranked, k, i) == Ok(st)
    {
      var step := ElectOne(st, ranked[i].key, true);
      if step.Err? {
        ElectedStops(st0, ranked, k, i + 1);
        return step;
      }
      st := step.value;
      i := i + 1;
    }
    while i < |ranked|
      invariant k <= i <= |ranked| && Elected(st0, ranked, k, i) == Ok(st)
    {
      var step := ElectOne(st, ranked[i].key, false);
      if step.Err? {
        ElectedStops(st0, ranked, k, i + 1);
        return step;
      }
      st := step.value;
      i := i + 1;
    }
    return Ok(st);
  }

  /** One iteration: look the peer up, run its transition, set its status. */
  method ElectOne(st: Settlement, key: Str, top: bool) returns (r: Result<Settlement>)
    ensures r == ElectStep(st, key, top)
  {
    if key !in st.pool {
      return Err(NotFound);
    }
    var item := st.pool[key];
    var b := EpochTransition(BallotsOf(st.store, key), EpochFor(item.status == Consensus, top));
    if b.None? {
      return Err(Rejected);
    }
    r := Ok(Settlement(st.store.(votes := st.store.votes[key := b.value]), st.pool[key := Elect(item, top)]));
  }

  lemma {:induction false} ElectedStops(st0: Settlement, ranked: seq<PeerStake>, k: nat, n: nat)
    requires n <= |ranked| && Elected(st0, ranked, k, n).Err?
    ensures Elected(st0, ranked, k, |ranked|) == Elected(st0, ranked, k, n)
    decreases |ranked| - n
  {
    if n < |ranked| {
      ElectedStops(st0, ranked, k, n + 1);
    }
  }
}
