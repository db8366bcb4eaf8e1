/** Victim selection: the specification, and what follows from it. */
module VictimSelection {
  import opened Collections
  import opened LruSpec

  /** The pieces of `order` whose protection is `want`, least recently used first. */
  function Pick(order: seq<int>, prot: set<int>, want: bool): seq<int> {
    if order == [] then []
    else
      var n := |order| - 1;
      if (order[n] in prot) == want then [order[n]] + Pick(order[..n], prot, want) else Pick(order[..n], prot, want)
  }

  /** The order in which pieces are given up: unprotected ones first, oldest first in each group. */
  function Queue(order: seq<int>, prot: set<int>): seq<int> {
    Pick(order, prot, false) + Pick(order, prot, true)
  }

  /** The shortest prefix of `q` whose removal brings `used` within `budget` (all of `q` if none does). */
  function TakeUntil(m: map<int, Entry>, q: seq<int>, used: int, budget: int): seq<int>
    requires Elems(q) <= m.Keys
  {
    if used <= budget || q == [] then []
    else assert q[0] in q; [q[0]] + TakeUntil(m, q[1..], used - m[q[0]].size, budget)
  }

  function Victims(l: Lru, prot: set<int>): seq<int>
    requires Elems(l.order) <= l.entries.Keys
  {
    if l.budget <= 0 || l.used <= l.budget then []
    else
      QueueElems(l.order, prot);
      TakeUntil(l.entries, Queue(l.order, prot), l.used, l.budget)
  }

  lemma {:induction false} PickElems(order: seq<int>, prot: set<int>, want: bool)
    ensures Elems(Pick(order, prot, want)) == if want then Elems(order) * prot else Elems(order) - prot
    ensures NoDup(order) ==> NoDup(Pick(order, prot, want))
  {
    if order != [] {
      var n := |order| - 1;
      PickElems(order[..n], prot, want);
      ElemsSnoc(order[..n], order[n]);
      assert order == order[..n] + [order[n]];
      ElemsCons(order[n], Pick(order[..n], prot, want));
    }
  }

  /** The queue is a rearrangement of the list. */
  lemma QueueElems(order: seq<int>, prot: set<int>)
    ensures Elems(Queue(order, prot)) == Elems(order)
    ensures NoDup(order) ==> NoDup(Queue(order, prot))
  {
    PickElems(order, prot, false);
    PickElems(order, prot, true);
    assert Elems(Queue(order, prot)) == Elems(Pick(order, prot, false)) + Elems(Pick(order, prot, true));
    if NoDup(order) {
      NoDupAppend(Pick(order, prot, false), Pick(order, prot, true));
    }
  }

  /** Within a group, pieces nearer the old end of the list come first. */
  lemma {:induction false} PickOldestFirst(order: seq<int>, prot: set<int>, want: bool, j: nat, k: nat)
    requires NoDup(order) && j < k < |Pick(order, prot, want)|
    ensures Position(order, Pick(order, prot, want)[j]) > Position(order, Pick(order, prot, want)[k])
  {
    var n := |order| - 1;
    var later, p := Pick(order[..n], prot, want), Pick(order, prot, want);
    PickElems(order[..n], prot, want);
    forall m | 0 <= m < |later|
      ensures later[m] in order[..n] && Position(order, later[m]) == Position(order[..n], later[m]) < n
    {
      assert later[m] in Elems(later);
      PositionInPrefix(order, n, later[m]);
    }
    PositionAt(order, n);
    if (order[n] in prot) != want {
      PickOldestFirst(order[..n], prot, want, j, k);
    } else if j > 0 {
      PickOldestFirst(order[..n], prot, want, j - 1, k - 1);
    }
  }

  /** In the queue no protected piece comes before an unprotected one, and pieces of equal standing
      come least recently used first. */
  lemma QueueInOrder(order: seq<int>, prot: set<int>, j: nat, k: nat)
    requires NoDup(order) && j < k < |Queue(order, prot)|
    ensures var a, b := Queue(order, prot)[j], Queue(order, prot)[k];
            && (a in prot ==> b in prot)
            && ((a in prot <==> b in prot) ==> Position(order, a) > Position(order, b))
  {
    var free, held := Pick(order, prot, false), Pick(order, prot, true);
    PickElems(order, prot, false);
    PickElems(order, prot, true);
    assert forall m :: 0 <= m < |free| ==> free[m] in Elems(free);
    assert forall m :: 0 <= m < |held| ==> held[m] in Elems(held);
    if k < |free| {
      PickOldestFirst(order, prot, false, j, k);
    } else if j >= |free| {
      PickOldestFirst(order, prot, true, j - |free|, k - |free|);
    }
  }

  // ---- properties of the shortest prefix ----

  /** Removing the first `j` pieces of `q` is enough. */
  ghost predicate Enough(m: map<int, Entry>, q: seq<int>, used: int, budget: int, j: nat)
    requires Elems(q) <= m.Keys && j <= |q|
  {
    ElemsTake(q, j);
    used - SeqBytes(m, q[..j]) <= budget
  }

  lemma {:induction false} TakeUntilIsShortest(m: map<int, Entry>, q: seq<int>, used: int, budget: int)
    requires Elems(q) <= m.Keys
    ensures var k := |TakeUntil(m, q, used, budget)|;
            && k <= |q| && TakeUntil(m, q, used, budget) == q[..k]
            && (k == |q| || Enough(m, q, used, budget, k))
            && forall j: nat :: j < k ==> !Enough(m, q, used, budget, j)
  {
    if used > budget && q != [] {
      assert q[0] in q;
      var used' := used - m[q[0]].size;
      TakeUntilIsShortest(m, q[1..], used', budget);
      var k := |TakeUntil(m, q, used, budget)|;
      forall j: nat | j <= |q|
        ensures j == 0 ==> !Enough(m, q, used, budget, j)
        ensures j > 0 ==> (Enough(m, q, used, budget, j) <==> Enough(m, q[1..], used', budget, j - 1))
      {
        ElemsTake(q, j);
        if j > 0 {
          assert q[..j][1..] == q[1..][..j - 1];
        }
      }
    }
  }

  lemma {:induction false} TakeUntilElems(m: map<int, Entry>, q: seq<int>, used: int, budget: int)
    requires Elems(q) <= m.Keys
    ensures Elems(TakeUntil(m, q, used, budget)) <= m.Keys
  {
    if used > budget && q != [] {
      assert q[0] in q;
      TakeUntilElems(m, q[1..], used - m[q[0]].size, budget);
      ElemsCons(q[0], TakeUntil(m, q[1..], used - m[q[0]].size, budget));
    } else {
      ElemsEmpty<int>();
    }
  }

  /** What is taken from `a + b`: first from `a`, then from `b` with what is left. */
  ghost function TakeInTurn(m: map<int, Entry>, a: seq<int>, b: seq<int>, used: int, budget: int): seq<int>
    requires Elems(a) <= m.Keys && Elems(b) <= m.Keys
  {
    TakeUntilElems(m, a, used, budget);
    var first := TakeUntil(m, a, used, budget);
    first + TakeUntil(m, b, used - SeqBytes(m, first), budget)
  }

  lemma {:induction false} TakeUntilAppend(m: map<int, Entry>, a: seq<int>, b: seq<int>, used: int, budget: int)
    requires Elems(a) <= m.Keys && Elems(b) <= m.Keys
    ensures Elems(a + b) <= m.Keys
    ensures TakeUntil(m, a + b, used, budget) == TakeInTurn(m, a, b, used, budget)
  {
    SeqBytesAppend(m, a, b);
    if a == [] {
      assert a + b == b;
    } else if used > budget {
      var x, rest := a[0], a[1..];
      assert x in a && a == [x] + rest && a + b == [x] + (rest + b);
      TakeUntilAppend(m, rest, b, used - m[x].size, budget);
      TakeUntilCons(m, x, rest + b, used, budget);
      TakeInTurnCons(m, x, rest, b, used, budget);
    }
  }

  lemma TakeInTurnCons(m: map<int, Entry>, x: int, rest: seq<int>, b: seq<int>, used: int, budget: int)
    requires x in m && Elems(rest) <= m.Keys && Elems(b) <= m.Keys && used > budget
    ensures Elems([x] + rest) <= m.Keys
    ensures TakeInTurn(m, [x] + rest, b, used, budget) == [x] + TakeInTurn(m, rest, b, used - m[x].size, budget)
  {
    var used' := used - m[x].size;
    TakeUntilCons(m, x, rest, used, budget);
    TakeUntilElems(m, rest, used', budget);
    SeqBytesCons(m, x, TakeUntil(m, rest, used', budget));
  }

  lemma TakeUntilCons(m: map<int, Entry>, x: int, q: seq<int>, used: int, budget: int)
    requires x in m && Elems(q) <= m.Keys && used > budget
    ensures Elems([x] + q) <= m.Keys
    ensures TakeUntil(m, [x] + q, used, budget) == [x] + TakeUntil(m, q, used - m[x].size, budget)
  {
    ElemsCons(x, q);
    assert ([x] + q)[1..] == q;
  }

  lemma SeqBytesCons(m: map<int, Entry>, x: int, q: seq<int>)
    requires x in m && Elems(q) <= m.Keys
    ensures Elems([x] + q) <= m.Keys && SeqBytes(m, [x] + q) == m[x].size + SeqBytes(m, q)
  {
    ElemsCons(x, q);
    assert ([x] + q)[1..] == q;
  }

  /** Everything the caller of victim selection needs: the victims are the shortest prefix of the
      queue that brings the tracker within budget; each is tracked and named once. */
  lemma VictimsAreShortest(l: Lru, prot: set<int>)
    requires l.Valid() && l.budget > 0
    ensures Elems(Queue(l.order, prot)) <= l.entries.Keys && Elems(Victims(l, prot)) <= l.entries.Keys
    ensures NoDup(Victims(l, prot))
    ensures var q, k := Queue(l.order, prot), |Victims(l, prot)|;
            && k <= |q| && Victims(l, prot) == q[..k]
            && Enough(l.entries, q, l.used, l.budget, k)
            && forall j: nat :: j < k ==> !Enough(l.entries, q, l.used, l.budget, j)
    ensures l.used - SeqBytes(l.entries, Victims(l, prot)) <= l.budget
  {
    var q := Queue(l.order, prot);
    QueueElems(l.order, prot);
    TakeUntilIsShortest(l.entries, q, l.used, l.budget);
    var k := |Victims(l, prot)|;
    ElemsTake(q, k);
    assert q[..|q|] == q;
    SeqBytesIsBytes(l.entries, q);
    if l.used <= l.budget {
      assert Enough(l.entries, q, l.used, l.budget, 0);
    }
  }

  /** No budget, or nothing over it: nobody goes. */
  lemma NoVictims(l: Lru, prot: set<int>)
    requires l.Valid() && (l.budget <= 0 || l.used <= l.budget)
    ensures Victims(l, prot) == []
  {
  }

  /** Where a piece stands in the queue, and that whoever stands before a victim is a victim. */
  lemma EarlierIsVictim(l: Lru, prot: set<int>, a: nat, b: nat)
    requires l.Valid() && b <= a < |Queue(l.order, prot)| && Queue(l.order, prot)[a] in Victims(l, prot)
    ensures Queue(l.order, prot)[b] in Victims(l, prot)
  {
    if l.budget > 0 {
      var q, k := Queue(l.order, prot), |Victims(l, prot)|;
      QueueElems(l.order, prot);
      VictimsAreShortest(l, prot);
      assert a < k;
      assert q[..k][b] == q[b];
    }
  }

  /** A protected piece is a victim only when every unprotected piece is one. */
  lemma UnprotectedGoFirst(l: Lru, prot: set<int>, i: int, j: int)
    requires l.Valid() && i in Victims(l, prot) && i in prot && j in l.entries && j !in prot
    ensures j in Victims(l, prot)
  {
    var a, b := InQueue(l, prot, i, j);
    if a < b {
      QueueInOrder(l.order, prot, a, b);
    }
    EarlierIsVictim(l, prot, a, b);
  }

  /** Of two pieces of equal standing the less recently used one goes first. */
  lemma OlderGoFirst(l: Lru, prot: set<int>, i: int, j: int)
    requires l.Valid() && i in Victims(l, prot) && (i in prot <==> j in prot) && Before(l.order, i, j)
    ensures j in Victims(l, prot)
  {
    var m, n :| 0 <= m < n < |l.order| && l.order[m] == i && l.order[n] == j;
    PositionAt(l.order, m);
    PositionAt(l.order, n);
    assert j in Elems(l.order);
    var a, b := InQueue(l, prot, i, j);
    if a < b {
      QueueInOrder(l.order, prot, a, b);
    }
    EarlierIsVictim(l, prot, a, b);
  }

  lemma InQueue(l: Lru, prot: set<int>, i: int, j: int) returns (a: nat, b: nat)
    requires l.Valid() && i in Victims(l, prot) && j in l.entries
    ensures a < |Queue(l.order, prot)| && Queue(l.order, prot)[a] == i
    ensures b < |Queue(l.order, prot)| && Queue(l.order, prot)[b] == j
  {
    QueueElems(l.order, prot);
    if l.budget > 0 {
      VictimsAreShortest(l, prot);
    }
    assert i in Elems(Victims(l, prot)) && i in l.entries.Keys;
    assert i in Elems(Queue(l.order, prot)) && j in Elems(Queue(l.order, prot));
    a :| 0 <= a < |Queue(l.order, prot)| && Queue(l.order, prot)[a] == i;
    b :| 0 <= b < |Queue(l.order, prot)| && Queue(l.order, prot)[b] == j;
  }

  /** Selecting in two passes, the second only if the first was not enough. */
  lemma VictimsInTwoPasses(l: Lru, prot: set<int>)
    requires l.Valid() && l.used > l.budget > 0
    ensures Elems(Pick(l.order, prot, false)) <= l.entries.Keys && Elems(Pick(l.order, prot, true)) <= l.entries.Keys
    ensures Victims(l, prot) ==
            TakeInTurn(l.entries, Pick(l.order, prot, false), Pick(l.order, prot, true), l.used, l.budget)
  {
    PickElems(l.order, prot, false);
    PickElems(l.order, prot, true);
    TakeUntilAppend(l.entries, Pick(l.order, prot, false), Pick(l.order, prot, true), l.used, l.budget);
  }

  /** The same, for passes carried out one after the other. */
  lemma TwoPassesMakeVictims(l: Lru, prot: set<int>, first: seq<int>, held: seq<int>, sim: int)
    requires l.Valid() && l.used > l.budget > 0
    requires Elems(Pick(l.order, prot, false)) <= l.entries.Keys
    requires first == TakeUntil(l.entries, Pick(l.order, prot, false), l.used, l.budget)
    requires Elems(first) <= l.entries.Keys && sim == l.used - SeqBytes(l.entries, first)
    requires sim > l.budget ==> held == Pick(l.order, prot, true)
    ensures sim <= l.budget ==> Victims(l, prot) == first
    ensures sim > l.budget ==> Elems(held) <= l.entries.Keys &&
                               Victims(l, prot) == first + TakeUntil(l.entries, held, sim, l.budget)
  {
    VictimsInTwoPasses(l, prot);
    NothingMore(l.entries, Pick(l.order, prot, false), Pick(l.order, prot, true), l.used, l.budget);
  }

  lemma NothingMore(m: map<int, Entry>, a: seq<int>, b: seq<int>, used: int, budget: int)
    requires Elems(a) <= m.Keys && Elems(b) <= m.Keys
    ensures var first := TakeUntil(m, a, used, budget);
            && Elems(first) <= m.Keys
            && (used - SeqBytes(m, first) <= budget ==> TakeInTurn(m, a, b, used, budget) == first)
  {
    TakeUntilElems(m, a, used, budget);
    var none: seq<int> := [];
    assert TakeUntil(m, a, used, budget) + none == TakeUntil(m, a, used, budget);
  }

  // ---- carrying the victims out ----

  function RemovedAll(l: Lru, q: seq<int>): Lru
    decreases q
  {
    if q == [] then l else RemovedAll(Removed(l, q[0]), q[1..])
  }

  lemma {:induction false} RemovedAllUsed(l: Lru, q: seq<int>)
    requires l.Valid() && NoDup(q) && Elems(q) <= l.entries.Keys
    ensures RemovedAll(l, q).Valid() && RemovedAll(l, q).budget == l.budget
    ensures RemovedAll(l, q).entries.Keys == l.entries.Keys - Elems(q)
    ensures RemovedAll(l, q).used == l.used - SeqBytes(l.entries, q)
    decreases q
  {
    if q != [] {
      assert q == [q[0]] + q[1..];
      ElemsCons(q[0], q[1..]);
      RemovedValid(l, q[0]);
      var l' := Removed(l, q[0]);
      RemovedAllUsed(l', q[1..]);
      SeqBytesFrame(l.entries, l'.entries, q[1..]);
    }
  }

  lemma {:induction false} SeqBytesFrame(m: map<int, Entry>, m': map<int, Entry>, q: seq<int>)
    requires Elems(q) <= m.Keys && Elems(q) <= m'.Keys
    requires forall k :: 0 <= k < |q| ==> q[k] in Elems(q) && m[q[k]].size == m'[q[k]].size
    ensures SeqBytes(m, q) == SeqBytes(m', q)
  {
    if q != [] {
      assert forall k :: 0 <= k < |q[1..]| ==> q[1..][k] == q[k + 1];
      SeqBytesFrame(m, m', q[1..]);
    }
  }

  /** Removing all victims does reach the budget, and not by more than necessary: when anything
      is evicted, usage ends within one maximal piece of the budget. */
  lemma EvictionIsTight(l: Lru, prot: set<int>, pieceLength: nat)
    requires l.Valid() && l.budget > 0
    requires forall i :: i in l.entries ==> l.entries[i].size <= pieceLength
    ensures var after := RemovedAll(l, Victims(l, prot)).used;
            && after <= l.budget
            && (Victims(l, prot) != [] ==> l.budget - pieceLength < after)
  {
    var v := Victims(l, prot);
    VictimsAreShortest(l, prot);
    RemovedAllUsed(l, v);
    if v != [] {
      var q, k := Queue(l.order, prot), |v| - 1;
      assert !Enough(l.entries, q, l.used, l.budget, k);
      ElemsTake(q, k);
      assert v == q[..k] + [v[k]] && v[k] in v;
      ElemsCons(v[k], []);
      SeqBytesAppend(l.entries, q[..k], [v[k]]);
    }
  }

  /** An `Add` made while within budget never has more than two victims, when at most one tracked
      piece is shorter than the piece length. */
  lemma AddHasAtMostTwoVictims(l: Lru, i: int, size: nat, now: int, prot: set<int>, pieceLength: nat, short: int)
    requires l.Valid() && l.budget > 0 && l.used <= l.budget && size <= pieceLength
    requires forall j :: j in Added(l, i, size, now).entries && j != short ==>
               Added(l, i, size, now).entries[j].size == pieceLength
    ensures Added(l, i, size, now).Valid()
    ensures |Victims(Added(l, i, size, now), prot)| <= 2
  {
    var l' := Added(l, i, size, now);
    AddedValid(l, i, size, now);
    VictimsAreShortest(l', prot);
    var q, v := Queue(l'.order, prot), Victims(l', prot);
    QueueElems(l'.order, prot);
    if |q| >= 2 {
      TwoAreEnough(l'.entries, q, l'.used, l'.budget, pieceLength, short);
    }
  }

  lemma TwoAreEnough(m: map<int, Entry>, q: seq<int>, used: int, budget: int, pieceLength: nat, short: int)
    requires Elems(q) <= m.Keys && NoDup(q) && |q| >= 2 && used - pieceLength <= budget
    requires forall j :: j in m && j != short ==> m[j].size == pieceLength
    ensures Enough(m, q, used, budget, 2)
  {
    ElemsTake(q, 2);
    assert q[0] in q && q[1] in q;
    assert q[..2][1..] == [q[1]] && [q[1]][1..] == [];
    assert SeqBytes(m, [q[1]]) == m[q[1]].size;
    assert SeqBytes(m, q[..2]) == m[q[0]].size + m[q[1]].size;
  }
}
