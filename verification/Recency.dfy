/** The recency list against the history of operations that produced it. */
module Recency {
  import opened Collections
  import opened LruSpec

  datatype Op = Add(index: int, size: nat) | Touch(index: int) | Remove(index: int)

  /** A tracker that was filled once by recovery and then used. */
  datatype History = History(pieces: map<int, nat>, visit: seq<int>, oldTime: int, budget: int,
                             ops: seq<Op>, clock: seq<int>)
  {
    /** One clock reading per operation. */
    ghost predicate Valid() {
      Visits(visit, pieces) && |clock| == |ops|
    }

    /** The clock never runs backwards, and starts no earlier than the back-dated time given to
        recovered pieces. */
    ghost predicate ClockAdvances() {
      && (forall j, k :: 0 <= j <= k < |clock| ==> clock[j] <= clock[k])
      && (forall k :: 0 <= k < |clock| ==> oldTime <= clock[k])
    }
  }

  function Step(l: Lru, op: Op, now: int): Lru {
    match op
    case Add(i, size) => Added(l, i, size, now)
    case Touch(i) => Touched(l, i, now)
    case Remove(i) => Removed(l, i)
  }

  ghost function After(h: History, k: nat): Lru
    requires h.Valid() && k <= |h.ops|
  {
    if k == 0 then Recovered(Lru(map[], [], 0, h.budget), h.pieces, h.visit, h.oldTime)
    else Step(After(h, k - 1), h.ops[k - 1], h.clock[k - 1])
  }

  // ---- the independent reading of a history ----

  /** The number of the last `Add` or `Touch` of `i` among the first `k` operations, or -1. */
  function LastAccess(h: History, k: nat, i: int): (r: int)
    requires k <= |h.ops|
    ensures -1 <= r < k
  {
    if k == 0 then -1
    else if h.ops[k - 1].index == i && !h.ops[k - 1].Remove? then k - 1
    else LastAccess(h, k - 1, i)
  }

  /** Whether the last `Add` or `Remove` of `i` was an `Add`; recovery counts as an `Add`. */
  predicate IsTracked(h: History, k: nat, i: int)
    requires k <= |h.ops|
  {
    if k == 0 then i in h.visit
    else match h.ops[k - 1]
      case Add(j, _) => i == j || IsTracked(h, k - 1, i)
      case Touch(_) => IsTracked(h, k - 1, i)
      case Remove(j) => i != j && IsTracked(h, k - 1, i)
  }

  /** Accessed pieces rank by their last access; pieces never accessed since recovery rank below
      all of them, in the order recovery met them. */
  function Rank(h: History, k: nat, i: int): (r: int)
    requires k <= |h.ops|
    ensures r < k
  {
    var a := LastAccess(h, k, i);
    if a >= 0 then a else -1 - Position(h.visit, i)
  }

  ghost predicate Decreasing(q: seq<int>, rank: int -> int) {
    forall a, b :: 0 <= a < b < |q| ==> rank(q[a]) > rank(q[b])
  }

  ghost function RankAt(h: History, k: nat): int -> int
    requires k <= |h.ops|
  {
    i => Rank(h, k, i)
  }

  /** Taking one element out keeps the others in order. */
  lemma {:induction false} WithoutDecreasing(q: seq<int>, i: int, rank: int -> int)
    requires Decreasing(q, rank) && NoDup(q)
    ensures Decreasing(Without(q, i), rank)
  {
    if q != [] && q[0] != i {
      var w := Without(q[1..], i);
      WithoutDecreasing(q[1..], i, rank);
      WithoutProperties(q[1..], i);
      forall b | 0 <= b < |w|
        ensures rank(q[0]) > rank(w[b])
      {
        assert w[b] in Elems(w);
        var c :| 0 <= c < |q[1..]| && q[1..][c] == w[b];
        assert q[c + 1] == w[b];
      }
    }
  }

  lemma InFront(i: int, q: seq<int>, rank: int -> int)
    requires Decreasing(q, rank) && forall a :: 0 <= a < |q| ==> rank(i) > rank(q[a])
    ensures Decreasing([i] + q, rank)
  {
  }

  /** The list is what the history says: it holds each tracked piece once, and it is strictly
      ordered by rank, which leaves no freedom at all. */
  ghost predicate Agrees(h: History, k: nat, l: Lru)
    requires k <= |h.ops|
  {
    && l.Valid()
    && (forall i :: i in l.entries <==> IsTracked(h, k, i))
    && Decreasing(l.order, RankAt(h, k))
  }

  lemma {:induction false} ListFollowsHistory(h: History, k: nat)
    requires h.Valid() && k <= |h.ops|
    ensures Agrees(h, k, After(h, k))
  {
    if k == 0 {
      var l0 := Lru(map[], [], 0, h.budget);
      RecoveredValid(l0, h.pieces, h.visit, h.oldTime);
      RecoveredOrder(l0, h.pieces, h.visit, h.oldTime);
      forall a | 0 <= a < |h.visit|
        ensures Rank(h, 0, h.visit[a]) == -1 - a
      {
        PositionAt(h.visit, a);
      }
      assert forall i :: i in Elems(h.visit) <==> i in h.visit;
    } else {
      ListFollowsHistory(h, k - 1);
      StepTracks(h, k, After(h, k - 1), h.clock[k - 1]);
      StepOrders(h, k, After(h, k - 1), h.clock[k - 1]);
    }
  }

  lemma StepTracks(h: History, k: nat, l: Lru, now: int)
    requires 0 < k <= |h.ops| && Agrees(h, k - 1, l)
    ensures Step(l, h.ops[k - 1], now).Valid()
    ensures forall i :: i in Step(l, h.ops[k - 1], now).entries.Keys <==> IsTracked(h, k, i)
  {
    match h.ops[k - 1] {
      case Add(i, size) => AddedValid(l, i, size, now);
      case Touch(i) => TouchedValid(l, i, now);
      case Remove(i) => RemovedValid(l, i);
    }
  }

  lemma StepOrders(h: History, k: nat, l: Lru, now: int)
    requires 0 < k <= |h.ops| && Agrees(h, k - 1, l)
    ensures Decreasing(Step(l, h.ops[k - 1], now).order, RankAt(h, k))
  {
    var i := h.ops[k - 1].index;
    if i in l.entries {
      var rest := Without(l.order, i);
      WithoutDecreasing(l.order, i, RankAt(h, k - 1));
      WithoutProperties(l.order, i);
      SameRank(h, k, rest);
      AccessedInFront(h, k, rest);
    } else {
      SameRank(h, k, l.order);
      AccessedInFront(h, k, l.order);
    }
  }

  /** A piece accessed now ranks above all others. */
  lemma AccessedInFront(h: History, k: nat, q: seq<int>)
    requires 0 < k <= |h.ops| && Decreasing(q, RankAt(h, k)) && h.ops[k - 1].index !in Elems(q)
    ensures !h.ops[k - 1].Remove? ==> Decreasing([h.ops[k - 1].index] + q, RankAt(h, k))
  {
    var i := h.ops[k - 1].index;
    if !h.ops[k - 1].Remove? {
      forall a | 0 <= a < |q|
        ensures RankAt(h, k)(i) > RankAt(h, k)(q[a])
      {
        assert q[a] in Elems(q);
        LowerRank(h, k, q[a]);
      }
      InFront(i, q, RankAt(h, k));
    }
  }

  lemma LowerRank(h: History, k: nat, i: int)
    requires 0 < k <= |h.ops| && h.ops[k - 1].index != i
    ensures Rank(h, k, i) < k - 1
  {
  }

  /** An operation does not change the rank of the pieces it does not name. */
  lemma SameRank(h: History, k: nat, q: seq<int>)
    requires 0 < k <= |h.ops| && h.ops[k - 1].index !in Elems(q)
    requires Decreasing(q, RankAt(h, k - 1))
    ensures Decreasing(q, RankAt(h, k))
  {
    forall a | 0 <= a < |q|
      ensures RankAt(h, k)(q[a]) == RankAt(h, k - 1)(q[a])
    {
      assert q[a] in Elems(q);
    }
  }

  /** Timestamps are the clock readings of last accesses. */
  lemma {:induction false} StampsFollowHistory(h: History, k: nat, i: int)
    requires h.Valid() && k <= |h.ops|
    requires i in After(h, k).entries
    ensures After(h, k).entries[i].lastAccess ==
            if LastAccess(h, k, i) >= 0 then h.clock[LastAccess(h, k, i)] else h.oldTime
  {
    if k == 0 {
      RecoveredValid(Lru(map[], [], 0, h.budget), h.pieces, h.visit, h.oldTime);
      assert i in Elems(h.visit) - {};
    } else if i in After(h, k - 1).entries {
      StampsFollowHistory(h, k - 1, i);
    }
  }

  /** So, with a clock that advances, stamps never increase along the list. */
  lemma StampsNeverIncrease(h: History, k: nat, a: nat, b: nat)
    requires h.Valid() && h.ClockAdvances() && k <= |h.ops|
    requires a <= b < |After(h, k).order|
    ensures var l := After(h, k);
            && l.order[a] in l.entries && l.order[b] in l.entries
            && l.entries[l.order[a]].lastAccess >= l.entries[l.order[b]].lastAccess
  {
    ListFollowsHistory(h, k);
    var l := After(h, k);
    assert l.order[a] in Elems(l.order) && l.order[b] in Elems(l.order);
    StampsFollowHistory(h, k, l.order[a]);
    StampsFollowHistory(h, k, l.order[b]);
    if a < b {
      assert RankAt(h, k)(l.order[a]) > RankAt(h, k)(l.order[b]);
    }
  }
}
