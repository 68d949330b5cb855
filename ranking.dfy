/** The order in which a commit ranks the active peers: by stake (TotalPos
    plus InitPos) descending, ties broken by public key descending, public
    keys compared as Go compares strings, byte by byte. Because public keys
    are distinct, this is a strict total order and the ranked list does not
    depend on the order the peers were collected in. */
module Ranking {
  import opened GovernanceParams

  datatype PeerStake = PeerStake(key: Str, stake: nat)

  /** Go's `a > b` on strings: lexicographic on bytes, a proper prefix
      being smaller. */
  function KeyGreater(a: Str, b: Str): bool
    decreases |a|
  {
    if b == [] then a != []
    else if a == [] then false
    else if a[0] != b[0] then a[0] > b[0]
    else KeyGreater(a[1..], b[1..])
  }

  lemma {:induction false} KeyGreaterIrreflexive(a: Str)
    ensures !KeyGreater(a, a)
    decreases |a|
  {
    if a != [] {
      KeyGreaterIrreflexive(a[1..]);
    }
  }

  lemma {:induction false} KeyGreaterAsymmetric(a: Str, b: Str)
    ensures KeyGreater(a, b) ==> !KeyGreater(b, a)
    decreases |a|
  {
    if a != [] && b != [] && a[0] == b[0] {
      KeyGreaterAsymmetric(a[1..], b[1..]);
    }
  }

  lemma {:induction false} KeyGreaterTransitive(a: Str, b: Str, c: Str)
    requires KeyGreater(a, b) && KeyGreater(b, c)
    ensures KeyGreater(a, c)
    decreases |a|
  {
    if c != [] && a[0] == b[0] && b[0] == c[0] {
      KeyGreaterTransitive(a[1..], b[1..], c[1..]);
    }
  }

  lemma {:induction false} KeyGreaterTotal(a: Str, b: Str)
    requires a != b
    ensures KeyGreater(a, b) || KeyGreater(b, a)
    decreases |a|
  {
    if a != [] && b != [] && a[0] == b[0] {
      assert a == [a[0]] + a[1..] && b == [b[0]] + b[1..];
      KeyGreaterTotal(a[1..], b[1..]);
    }
  }

  /** `x` ranks before `y`: the comparison the commit sorts by. */
  predicate Better(x: PeerStake, y: PeerStake)
  {
    x.stake > y.stake || (x.stake == y.stake && KeyGreater(x.key, y.key))
  }

  lemma BetterStrict(x: PeerStake, y: PeerStake, z: PeerStake)
    ensures !Better(x, x)
    ensures Better(x, y) ==> !Better(y, x)
    ensures Better(x, y) && Better(y, z) ==> Better(x, z)
    ensures x.key != y.key ==> Better(x, y) || Better(y, x)
  {
    KeyGreaterIrreflexive(x.key);
    KeyGreaterAsymmetric(x.key, y.key);
    if Better(x, y) && Better(y, z) && x.stake == y.stake && y.stake == z.stake {
      KeyGreaterTransitive(x.key, y.key, z.key);
    }
    if x.key != y.key {
      KeyGreaterTotal(x.key, y.key);
    }
  }

  predicate DistinctKeys(l: seq<PeerStake>)
  {
    forall i, j :: 0 <= i < j < |l| ==> l[i].key != l[j].key
  }

  /** Every peer ranks before every later one. */
  predicate Sorted(l: seq<PeerStake>)
  {
    forall i, j :: 0 <= i < j < |l| ==> Better(l[i], l[j])
  }

  /** `x` placed before the first element it does not rank after. */
  function Insert(x: PeerStake, l: seq<PeerStake>): (r: seq<PeerStake>)
    ensures multiset(r) == multiset(l) + multiset{x}
    ensures |r| == |l| + 1
  {
    if l == [] || !Better(l[0], x) then [x] + l
    else
      assert l == [l[0]] + l[1..];
      [l[0]] + Insert(x, l[1..])
  }

  /** The collected peers in ranking order (sort.SliceStable with the
      commit's comparison). */
  function Ranked(l: seq<PeerStake>): (r: seq<PeerStake>)
    ensures multiset(r) == multiset(l)
    ensures |r| == |l|
  {
    if l == [] then []
    else
      assert l == [l[0]] + l[1..];
      Insert(l[0], Ranked(l[1..]))
  }

  /** How many peers of `l` rank before `x`. */
  function CountBetter(x: PeerStake, l: seq<PeerStake>): nat
  {
    if l == [] then 0 else (if Better(l[0], x) then 1 else 0) + CountBetter(x, l[1..])
  }

  // ------------------------------------------------------------- sorting

  /** `y` ranks before every peer of `l`. */
  predicate AllBelow(y: PeerStake, l: seq<PeerStake>)
  {
    forall i :: 0 <= i < |l| ==> Better(y, l[i])
  }

  predicate KeyAbsent(key: Str, l: seq<PeerStake>)
  {
    forall i :: 0 <= i < |l| ==> l[i].key != key
  }

  lemma SortedCons(a: PeerStake, s: seq<PeerStake>)
    ensures Sorted([a] + s) <==> AllBelow(a, s) && Sorted(s)
  {
    var r := [a] + s;
    if AllBelow(a, s) && Sorted(s) {
      forall i, j | 0 <= i < j < |r| ensures Better(r[i], r[j]) {
        if i == 0 {
          assert r[j] == s[j - 1];
        } else {
          assert r[i] == s[i - 1] && r[j] == s[j - 1];
        }
      }
    }
    if Sorted(r) {
      forall i | 0 <= i < |s| ensures Better(a, s[i]) {
        assert r[0] == a && r[i + 1] == s[i];
      }
      forall i, j | 0 <= i < j < |s| ensures Better(s[i], s[j]) {
        assert r[i + 1] == s[i] && r[j + 1] == s[j];
      }
    }
  }

  lemma {:induction false} InsertBelow(y: PeerStake, x: PeerStake, l: seq<PeerStake>)
    requires Better(y, x) && AllBelow(y, l)
    ensures AllBelow(y, Insert(x, l))
  {
    if l == [] || !Better(l[0], x) {
      SortedConsBelow(y, x, l);
    } else {
      assert AllBelow(y, l[1..]) by {
        forall i | 0 <= i < |l[1..]| ensures Better(y, l[1..][i]) {
          assert l[1..][i] == l[i + 1];
        }
      }
      InsertBelow(y, x, l[1..]);
      SortedConsBelow(y, l[0], Insert(x, l[1..]));
    }
  }

  lemma SortedConsBelow(y: PeerStake, x: PeerStake, l: seq<PeerStake>)
    requires Better(y, x) && AllBelow(y, l)
    ensures AllBelow(y, [x] + l)
  {
    forall i | 0 <= i < |[x] + l| ensures Better(y, ([x] + l)[i]) {
      if i > 0 {
        assert ([x] + l)[i] == l[i - 1];
      }
    }
  }

  lemma {:induction false} InsertSorted(x: PeerStake, l: seq<PeerStake>)
    requires Sorted(l) && KeyAbsent(x.key, l)
    ensures Sorted(Insert(x, l))
  {
    if l == [] {
      SortedCons(x, l);
    } else {
      assert l == [l[0]] + l[1..];
      SortedCons(l[0], l[1..]);
      if Better(l[0], x) {
        assert KeyAbsent(x.key, l[1..]) by {
          forall i | 0 <= i < |l[1..]| ensures l[1..][i].key != x.key {
            assert l[1..][i] == l[i + 1];
          }
        }
        InsertSorted(x, l[1..]);
        InsertBelow(l[0], x, l[1..]);
        SortedCons(l[0], Insert(x, l[1..]));
      } else {
        BetterStrict(x, l[0], l[0]);
        assert Better(x, l[0]);
        forall i | 0 <= i < |l| ensures Better(x, l[i]) {
          if i > 0 {
            assert Better(l[0], l[1..][i - 1]);
            BetterStrict(x, l[0], l[i]);
          }
        }
        SortedCons(x, l);
      }
    }
  }

  lemma {:induction false} DistinctTail(l: seq<PeerStake>)
    requires l != [] && DistinctKeys(l)
    ensures DistinctKeys(l[1..])
    ensures forall i :: 0 <= i < |l[1..]| ==> l[1..][i].key != l[0].key
  {
    var tail := l[1..];
    forall i, j | 0 <= i < j < |tail| ensures tail[i].key != tail[j].key {
      assert tail[i] == l[i + 1] && tail[j] == l[j + 1];
    }
    forall i | 0 <= i < |tail| ensures tail[i].key != l[0].key {
      assert tail[i] == l[i + 1];
    }
  }

  /** Inserting a peer whose key is new keeps the keys distinct. */
  lemma {:induction false} InsertDistinct(x: PeerStake, l: seq<PeerStake>)
    requires DistinctKeys(l) && KeyAbsent(x.key, l)
    ensures DistinctKeys(Insert(x, l))
  {
    if l == [] || !Better(l[0], x) {
      var r := [x] + l;
      forall i, j | 0 <= i < j < |r| ensures r[i].key != r[j].key {
        assert r[j] == l[j - 1];
        if i > 0 {
          assert r[i] == l[i - 1];
        }
      }
    } else {
      DistinctTail(l);
      assert KeyAbsent(x.key, l[1..]) by {
        forall i | 0 <= i < |l[1..]| ensures l[1..][i].key != x.key {
          assert l[1..][i] == l[i + 1];
        }
      }
      InsertDistinct(x, l[1..]);
      var t := Insert(x, l[1..]);
      forall i | 0 <= i < |t| ensures t[i].key != l[0].key {
        assert t[i] in multiset(l[1..]) + multiset{x};
        if t[i] != x {
          var k :| 0 <= k < |l[1..]| && l[1..][k] == t[i];
        }
      }
      var r := [l[0]] + t;
      forall i, j | 0 <= i < j < |r| ensures r[i].key != r[j].key {
        assert r[j] == t[j - 1];
        if i > 0 {
          assert r[i] == t[i - 1];
        }
      }
    }
  }

  /** With distinct keys the ranked list is strictly sorted, and its keys
      stay distinct. */
  lemma {:induction false} RankedSorted(l: seq<PeerStake>)
    requires DistinctKeys(l)
    ensures Sorted(Ranked(l))
    ensures DistinctKeys(Ranked(l))
  {
    if l != [] {
      DistinctTail(l);
      RankedSorted(l[1..]);
      var r := Ranked(l[1..]);
      forall i | 0 <= i < |r| ensures r[i].key != l[0].key {
        assert r[i] in multiset(l[1..]);
        var k :| 0 <= k < |l[1..]| && l[1..][k] == r[i];
      }
      assert KeyAbsent(l[0].key, r);
      InsertSorted(l[0], r);
      InsertDistinct(l[0], r);
    }
  }

  // --------------------------------------------------------------- ranks

  lemma {:induction false} CountBetterAppend(x: PeerStake, a: seq<PeerStake>, b: seq<PeerStake>)
    ensures CountBetter(x, a + b) == CountBetter(x, a) + CountBetter(x, b)
  {
    if a != [] {
      assert (a + b)[1..] == a[1..] + b;
      assert (a + b)[0] == a[0];
      CountBetterAppend(x, a[1..], b);
    } else {
      assert a + b == b;
    }
  }

  /** The count depends only on which peers there are, not their order. */
  lemma {:induction false} CountBetterPermutation(x: PeerStake, a: seq<PeerStake>, b: seq<PeerStake>)
    requires multiset(a) == multiset(b)
    ensures CountBetter(x, a) == CountBetter(x, b)
    decreases |a|
  {
    if a == [] {
      assert |b| == |multiset(b)| == 0;
    } else {
      var y := a[0];
      assert y in multiset(b);
      var k :| 0 <= k < |b| && b[k] == y;
      var b' := b[..k] + b[k + 1..];
      calc {
        multiset(a[1..]);
        { assert a == [y] + a[1..]; }
        multiset(a) - multiset{y};
        { MultisetSplit(b, k); }
        multiset(b');
      }
      CountBetterPermutation(x, a[1..], b');
      CountBetterRemove(x, b, k);
    }
  }

  lemma CountBetterRemove(x: PeerStake, b: seq<PeerStake>, k: nat)
    requires k < |b|
    ensures CountBetter(x, b) == CountBetter(x, [b[k]]) + CountBetter(x, b[..k] + b[k + 1..])
  {
    assert b == (b[..k] + [b[k]]) + b[k + 1..];
    CountBetterAppend(x, b[..k] + [b[k]], b[k + 1..]);
    CountBetterAppend(x, b[..k], [b[k]]);
    CountBetterAppend(x, b[..k], b[k + 1..]);
  }

  /** In a strictly sorted list a peer's position is the number of peers
      ranking before it. */
  lemma {:induction false} PositionIsCount(l: seq<PeerStake>, i: nat)
    requires Sorted(l) && i < |l|
    ensures CountBetter(l[i], l) == i
  {
    if i == 0 {
      NoneBetterThanHead(l);
    } else {
      var tail := l[1..];
      assert Sorted(tail) by {
        forall a, b | 0 <= a < b < |tail| ensures Better(tail[a], tail[b]) {
          assert tail[a] == l[a + 1] && tail[b] == l[b + 1];
        }
      }
      assert tail[i - 1] == l[i];
      PositionIsCount(tail, i - 1);
      assert Better(l[0], l[i]);
    }
  }

  lemma {:induction false} NoneBetterThanHead(l: seq<PeerStake>)
    requires Sorted(l) && l != []
    ensures CountBetter(l[0], l) == 0
  {
    BetterStrict(l[0], l[0], l[0]);
    NoneBetterThanSuffix(l, 1);
    assert l[1..] == l[1..];
  }

  lemma {:induction false} NoneBetterThanSuffix(l: seq<PeerStake>, k: nat)
    requires Sorted(l) && 1 <= k <= |l|
    ensures CountBetter(l[0], l[k..]) == 0
    ensures k == 1 ==> CountBetter(l[0], l) == 0
    decreases |l| - k
  {
    if k < |l| {
      NoneBetterThanSuffix(l, k + 1);
      assert l[k..][1..] == l[k + 1..];
      BetterStrict(l[0], l[k], l[k]);
    }
    if k == 1 {
      BetterStrict(l[0], l[0], l[0]);
      assert l[1..] == l[k..];
    }
  }

  /** The commit's cut: the peer at position i of the ranking is in the
      top K exactly when fewer than K collected peers rank before it,
      whatever order they were collected in. */
  lemma RankOfPosition(l: seq<PeerStake>, i: nat, k: nat)
    requires DistinctKeys(l) && i < |l|
    ensures (i < k) <==> CountBetter(Ranked(l)[i], l) < k
  {
    RankedSorted(l);
    PositionIsCount(Ranked(l), i);
    CountBetterPermutation(Ranked(l)[i], Ranked(l), l);
  }

  /** Two strictly sorted lists with the same peers are the same list:
      the ranking does not depend on the collection order. */
  lemma {:induction false} SortedUnique(a: seq<PeerStake>, b: seq<PeerStake>)
    requires Sorted(a) && Sorted(b) && multiset(a) == multiset(b)
    ensures a == b
    decreases |a|
  {
    if a != [] {
      assert |b| == |a| by { assert |multiset(a)| == |multiset(b)|; }
      PositionIsCount(a, 0);
      PositionIsCount(b, 0);
      CountBetterPermutation(b[0], a, b);
      CountBetterPermutation(a[0], a, b);
      assert a[0] in multiset(b) && b[0] in multiset(a);
      var i :| 0 <= i < |a| && a[i] == b[0];
      PositionIsCount(a, i);
      assert a[0] == b[0];
      assert a == [a[0]] + a[1..] && b == [b[0]] + b[1..];
      calc {
        multiset(a[1..]);
        multiset(a) - multiset{a[0]};
        multiset(b) - multiset{b[0]};
        multiset(b[1..]);
      }
      SortedTail(a);
      SortedTail(b);
      SortedUnique(a[1..], b[1..]);
    }
  }

  lemma MultisetSplit(s: seq<PeerStake>, k: nat)
    requires k < |s|
    ensures multiset(s) - multiset{s[k]} == multiset(s[..k] + s[k + 1..])
  {
    assert s == s[..k] + [s[k]] + s[k + 1..];
  }

  lemma MultisetCons(s: seq<PeerStake>)
    requires s != []
    ensures multiset(s) == multiset{s[0]} + multiset(s[1..])
  {
    assert s == [s[0]] + s[1..];
  }

  lemma SortedTail(l: seq<PeerStake>)
    requires Sorted(l) && l != []
    ensures Sorted(l[1..])
  {
    var tail := l[1..];
    forall i, j | 0 <= i < j < |tail| ensures Better(tail[i], tail[j]) {
      assert tail[i] == l[i + 1] && tail[j] == l[j + 1];
    }
  }
}
