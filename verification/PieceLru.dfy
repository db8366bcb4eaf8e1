/** The recency tracker: an index map, a recency list and a byte counter, updated in place. */
module PieceLru {
  import opened Geometry
  import opened Collections
  import opened LruSpec
  import opened VictimSelection
  import opened Completion

  const SECOND: int := 1_000_000_000
  const EVICTION_PROTECTION_WINDOW: int := 30 * SECOND
  const MINUTE: int := 60 * SECOND

  /** The protected pieces among `pieces`. */
  ghost function ProtectedSet(info: Info, memo: set<string>, pieces: set<int>): set<int>
    requires info.pieceLength > 0
  {
    set i | i in pieces && Protected(info, memo, i)
  }

  class PieceLRU {
    var entries: map<int, Entry>
    var lruList: seq<int>      // front = most recently used
    var used: int
    const budget: int          // 0 = unlimited
    var protector: Completions? // who answers "is this piece in a completed file?", if anyone

    ghost function View(): Lru
      reads this
    {
      Lru(entries, lruList, used, budget)
    }

    ghost predicate Valid()
      reads this
    {
      View().Valid()
    }

    /** The tracked pieces that are protected right now. */
    ghost function ProtectedNow(): set<int>
      requires protector != null ==> protector.Valid()
      reads this, protector, if protector == null then {} else {protector.pieces}
    {
      if protector == null then {} else ProtectedSet(protector.info, protector.completedFiles, entries.Keys)
    }

    constructor (budget: int)
      ensures Valid() && View() == Lru(map[], [], 0, budget) && protector == null
    {
      this.entries := map[];
      this.lruList := [];
      this.used := 0;
      this.budget := budget;
      this.protector := null;
    }

    method SetProtector(c: Completions)
      modifies this
      ensures View() == old(View()) && protector == c
    {
      protector := c;
    }

    method Touch(index: int, now: int)
      requires Valid()
      modifies this
      ensures Valid() && View() == Touched(old(View()), index, now) && protector == old(protector)
      ensures index !in old(entries) ==> View() == old(View())
      ensures index in old(entries) ==>
                && entries == old(entries)[index := Entry(old(entries)[index].size, now)] && used == old(used)
                && lruList != [] && lruList[0] == index
                && forall i, j :: i != index && j != index ==> (Before(lruList, i, j) <==> Before(old(lruList), i, j))
    {
      PutInFront(lruList, index);
      TouchedValid(View(), index, now);
      if index !in entries {
        return;
      }
      entries := entries[index := entries[index].(lastAccess := now)];
      lruList := [index] + Without(lruList, index);
    }

    /** Registers a completed piece and returns the pieces to evict; carrying the eviction out is
        the caller's business. */
    method Add(index: int, size: nat, now: int) returns (toEvict: seq<int>)
      requires Valid() && (protector != null ==> protector.Valid())
      modifies this
      ensures Valid() && View() == Added(old(View()), index, size, now) && protector == old(protector)
      ensures protector != null ==> protector.Valid()
      ensures toEvict == if index in old(entries) then [] else Victims(View(), ProtectedNow())
      ensures index in entries && entries[index].lastAccess == now && lruList != [] && lruList[0] == index
      ensures entries - {index} == old(entries) - {index}
      ensures index in old(entries) ==> entries[index].size == old(entries)[index].size && used == old(used)
      ensures index !in old(entries) ==> entries[index].size == size && used == old(used) + size
      ensures forall i, j :: i != index && j != index ==> (Before(lruList, i, j) <==> Before(old(lruList), i, j))
    {
      AddedInFront(View(), index, size, now);
      AddedValid(View(), index, size, now);
      if index in entries {
        entries := entries[index := entries[index].(lastAccess := now)];
        lruList := [index] + Without(lruList, index);
        return [];
      }
      lruList := [index] + lruList;
      entries := entries[index := Entry(size, now)];
      used := used + size;
      toEvict := ComputeEvictions();
    }

    method Remove(index: int)
      requires Valid()
      modifies this
      ensures Valid() && View() == Removed(old(View()), index) && protector == old(protector)
      ensures entries == old(entries) - {index}
      ensures used == if index in old(entries) then old(used) - old(entries)[index].size else old(used)
      ensures forall i, j :: i != index && j != index ==> (Before(lruList, i, j) <==> Before(old(lruList), i, j))
    {
      PutInFront(lruList, index);
      RemovedValid(View(), index);
      if index !in entries {
        return;
      }
      lruList := Without(lruList, index);
      used := used - entries[index].size;
      entries := entries - {index};
    }

    /** Restores tracked pieces, met in some order of the map, with a back-dated access time. */
    method Recover(completePieces: map<int, nat>, now: int) returns (ghost visit: seq<int>)
      requires Valid()
      modifies this
      ensures Visits(visit, completePieces)
      ensures Valid() && protector == old(protector)
      ensures View() == Recovered(old(View()), completePieces, visit, now - EVICTION_PROTECTION_WINDOW - MINUTE)
      ensures entries.Keys == old(entries).Keys + completePieces.Keys
      ensures forall i :: i in entries ==>
                entries[i] == if i in old(entries) then old(entries)[i]
                              else Entry(completePieces[i], now - EVICTION_PROTECTION_WINDOW - MINUTE)
      ensures old(lruList) <= lruList
    {
      var oldTime := now - EVICTION_PROTECTION_WINDOW - MINUTE;
      var rest := completePieces.Keys;
      visit := [];
      while rest != {}
        invariant rest <= completePieces.Keys
        invariant NoDup(visit) && Elems(visit) == completePieces.Keys - rest
        invariant Valid() && protector == old(protector)
        invariant View() == Recovered(old(View()), completePieces, visit, oldTime)
        decreases |rest|
      {
        var index := PickOne(rest);
        RecoveredSnoc(old(View()), completePieces, visit, index, oldTime);
        visit := visit + [index];
        rest := rest - {index};
        RecoverEntry(index, completePieces[index], oldTime);
      }
      RecoveredAll(old(View()), completePieces, visit, oldTime);
    }

    /** The body of the recovery loop. */
    method RecoverEntry(index: int, size: nat, oldTime: int)
      requires Valid()
      modifies this
      ensures Valid() && View() == RecoveredOne(old(View()), index, size, oldTime) && protector == old(protector)
    {
      RecoveredOneValid(View(), index, size, oldTime);
      if index !in entries {
        entries := entries[index := Entry(size, oldTime)];
        lruList := lruList + [index];
        used := used + size;
      }
    }

    /** The two passes: unprotected pieces from the old end of the list, then protected ones. */
    method ComputeEvictions() returns (toEvict: seq<int>)
      requires Valid() && (protector != null ==> protector.Valid())
      ensures toEvict == Victims(View(), ProtectedNow())
      ensures (budget <= 0 || used <= budget) ==> toEvict == []
      ensures protector != null ==>
                forall i, j | i in toEvict && j in entries && j !in toEvict ::
                  (exists f :: 0 <= f < protector.info.NumFiles() && protector.info.Affects(f, i)
                               && protector.info.Path(f) in protector.completedFiles) ==>
                  (exists f :: 0 <= f < protector.info.NumFiles() && protector.info.Affects(f, j)
                               && protector.info.Path(f) in protector.completedFiles)
    {
      if protector != null {
        SparedFirst(View(), protector.info, protector.completedFiles);
      }
      if budget <= 0 || used <= budget {
        return [];
      }
      ghost var prot := ProtectedNow();
      PickElems(lruList, prot, false);
      var protectedCandidates, simUsed;
      toEvict, protectedCandidates, simUsed := FirstPass(prot);
      TwoPassesMakeVictims(View(), prot, toEvict, protectedCandidates, simUsed);
      if simUsed > budget {
        var more := SecondPass(protectedCandidates, simUsed);
        toEvict := toEvict + more;
      }
    }

    /** Asks the protector, if there is one. */
    method IsProtected(index: int, ghost prot: set<int>) returns (r: bool)
      requires protector != null ==> protector.Valid()
      requires index in entries && prot == ProtectedNow()
      ensures r <==> index in prot
    {
      r := false;
      if protector != null {
        r := protector.IsPieceInCompletedFile(index);
      }
    }

    method FirstPass(ghost prot: set<int>) returns (toEvict: seq<int>, protectedCandidates: seq<int>, simUsed: int)
      requires Valid() && (protector != null ==> protector.Valid())
      requires prot == ProtectedNow()
      requires Elems(Pick(lruList, prot, false)) <= entries.Keys
      ensures toEvict == TakeUntil(entries, Pick(lruList, prot, false), used, budget)
      ensures Elems(toEvict) <= entries.Keys && simUsed == used - SeqBytes(entries, toEvict)
      ensures simUsed > budget ==> protectedCandidates == Pick(lruList, prot, true)
    {
      toEvict := [];
      protectedCandidates := [];
      simUsed := used;
      var el := |lruList|;
      PassStart(View(), prot);
      while el > 0 && simUsed > budget
        invariant 0 <= el <= |lruList|
        invariant PassAt(View(), prot, el, toEvict, protectedCandidates, simUsed)
      {
        el := el - 1;
        var e := lruList[el];
        assert e in Elems(lruList);
        PassNext(View(), prot, el, toEvict, protectedCandidates, simUsed);
        var isProtected := IsProtected(e, prot);
        if isProtected {
          protectedCandidates := protectedCandidates + [e];
        } else {
          toEvict := toEvict + [e];
          simUsed := simUsed - entries[e].size;
        }
      }
      PassEnd(View(), prot, el, toEvict, protectedCandidates, simUsed);
    }

    method SecondPass(protectedCandidates: seq<int>, simUsed: int) returns (toEvict: seq<int>)
      requires Elems(protectedCandidates) <= entries.Keys
      ensures toEvict == TakeUntil(entries, protectedCandidates, simUsed, budget)
    {
      toEvict := [];
      var sim := simUsed;
      var k := 0;
      assert protectedCandidates[0..] == protectedCandidates;
      while k < |protectedCandidates|
        invariant 0 <= k <= |protectedCandidates|
        invariant Elems(protectedCandidates[k..]) <= entries.Keys
        invariant TakeUntil(entries, protectedCandidates, simUsed, budget) ==
                  toEvict + TakeUntil(entries, protectedCandidates[k..], sim, budget)
      {
        if sim <= budget {
          break;
        }
        var e := protectedCandidates[k];
        assert e in Elems(protectedCandidates[k..]) && protectedCandidates[k..][1..] == protectedCandidates[k + 1..];
        toEvict := toEvict + [e];
        sim := sim - entries[e].size;
        k := k + 1;
      }
    }
  }

  lemma PutInFront(q: seq<int>, index: int)
    requires NoDup(q)
    ensures forall i, j :: i != index && j != index ==>
              && (Before(Without(q, index), i, j) <==> Before(q, i, j))
              && (Before([index] + Without(q, index), i, j) <==> Before(q, i, j))
              && (Before([index] + q, i, j) <==> Before(q, i, j))
  {
    forall i, j | i != index && j != index
      ensures Before(Without(q, index), i, j) <==> Before(q, i, j)
      ensures Before([index] + Without(q, index), i, j) <==> Before(q, i, j)
      ensures Before([index] + q, i, j) <==> Before(q, i, j)
    {
      WithoutKeepsOrder(q, index, i, j);
      BeforeCons(index, Without(q, index), i, j);
      BeforeCons(index, q, i, j);
    }
  }

  /** The first pass has dealt with all but the first `el` pieces of the list. */
  ghost predicate PassAt(l: Lru, prot: set<int>, el: nat, toEvict: seq<int>, cands: seq<int>, sim: int)
    requires l.Valid() && el <= |l.order|
  {
    var open := Pick(l.order[..el], prot, false);
    && Elems(open) <= l.entries.Keys && Elems(toEvict) <= l.entries.Keys && Elems(Pick(l.order, prot, false)) <= l.entries.Keys
    && TakeUntil(l.entries, Pick(l.order, prot, false), l.used, l.budget) == toEvict + TakeUntil(l.entries, open, sim, l.budget)
    && sim == l.used - SeqBytes(l.entries, toEvict)
    && Pick(l.order, prot, true) == cands + Pick(l.order[..el], prot, true)
  }

  lemma PassStart(l: Lru, prot: set<int>)
    requires l.Valid()
    ensures PassAt(l, prot, |l.order|, [], [], l.used)
  {
    assert l.order[..|l.order|] == l.order;
    PickElems(l.order, prot, false);
  }

  lemma PassNext(l: Lru, prot: set<int>, el: nat, toEvict: seq<int>, cands: seq<int>, sim: int)
    requires l.Valid() && el < |l.order| && PassAt(l, prot, el + 1, toEvict, cands, sim) && sim > l.budget
    ensures l.order[el] in l.entries
    ensures if l.order[el] in prot then PassAt(l, prot, el, toEvict, cands + [l.order[el]], sim)
            else PassAt(l, prot, el, toEvict + [l.order[el]], cands, sim - l.entries[l.order[el]].size)
  {
    var e := l.order[el];
    assert e in Elems(l.order);
    PickStep(l.order, el, prot);
    if e in prot {
      assert cands + ([e] + Pick(l.order[..el], prot, true)) == cands + [e] + Pick(l.order[..el], prot, true);
    } else {
      TakeStep(l.entries, toEvict, e, Pick(l.order[..el], prot, false), sim, l.budget);
    }
  }

  lemma PassEnd(l: Lru, prot: set<int>, el: nat, toEvict: seq<int>, cands: seq<int>, sim: int)
    requires l.Valid() && el <= |l.order| && PassAt(l, prot, el, toEvict, cands, sim) && (el == 0 || sim <= l.budget)
    ensures Elems(toEvict) <= l.entries.Keys && sim == l.used - SeqBytes(l.entries, toEvict)
    ensures Elems(Pick(l.order, prot, false)) <= l.entries.Keys
    ensures toEvict == TakeUntil(l.entries, Pick(l.order, prot, false), l.used, l.budget)
    ensures sim > l.budget ==> cands == Pick(l.order, prot, true)
  {
  }

  /** Adding a piece puts it in front with the time of the addition, and leaves the others as they were. */
  lemma AddedInFront(l: Lru, index: int, size: nat, now: int)
    requires l.Valid()
    ensures var r := Added(l, index, size, now);
            && index in r.entries && r.entries[index].lastAccess == now && r.order != [] && r.order[0] == index
            && r.entries - {index} == l.entries - {index}
            && (index in l.entries ==> r.entries[index].size == l.entries[index].size && r.used == l.used)
            && (index !in l.entries ==> r.entries[index].size == size && r.used == l.used + size)
            && forall i, j :: i != index && j != index ==> (Before(r.order, i, j) <==> Before(l.order, i, j))
  {
    PutInFront(l.order, index);
  }

  /** While some piece of no memoised file is spared, no piece of a memoised file is a victim. */
  lemma SparedFirst(l: Lru, info: Info, memo: set<string>)
    requires l.Valid() && info.pieceLength > 0
    ensures forall i, j | i in Victims(l, ProtectedSet(info, memo, l.entries.Keys)) && j in l.entries
                          && j !in Victims(l, ProtectedSet(info, memo, l.entries.Keys)) ::
              (exists f :: 0 <= f < info.NumFiles() && info.Affects(f, i) && info.Path(f) in memo) ==>
              (exists f :: 0 <= f < info.NumFiles() && info.Affects(f, j) && info.Path(f) in memo)
  {
    var prot := ProtectedSet(info, memo, l.entries.Keys);
    var v := Victims(l, prot);
    forall i, j | i in v && j in l.entries && j !in v && (exists f :: 0 <= f < info.NumFiles() && info.Affects(f, i) && info.Path(f) in memo)
      ensures exists f :: 0 <= f < info.NumFiles() && info.Affects(f, j) && info.Path(f) in memo
    {
      QueueElems(l.order, prot);
      if l.budget > 0 {
        VictimsAreShortest(l, prot);
      }
      assert i in Elems(v) && i in l.entries.Keys;
      assert Protected(info, memo, i) && i in prot;
      if j !in prot {
        UnprotectedGoFirst(l, prot, i, j);
      }
      assert Protected(info, memo, j);
    }
  }

  lemma PickStep(order: seq<int>, el: nat, prot: set<int>)
    requires el < |order|
    ensures order[el] in prot ==>
              && Pick(order[..el + 1], prot, false) == Pick(order[..el], prot, false)
              && Pick(order[..el + 1], prot, true) == [order[el]] + Pick(order[..el], prot, true)
    ensures order[el] !in prot ==>
              && Pick(order[..el + 1], prot, false) == [order[el]] + Pick(order[..el], prot, false)
              && Pick(order[..el + 1], prot, true) == Pick(order[..el], prot, true)
    ensures Elems(Pick(order[..el], prot, false)) <= Elems(order)
  {
    assert order[..el + 1][..el] == order[..el];
    PickElems(order[..el], prot, false);
    ElemsTake(order, el);
  }

  lemma TakeStep(m: map<int, Entry>, done: seq<int>, e: int, later: seq<int>, sim: int, budget: int)
    requires Elems(done) <= m.Keys && e in m && Elems(later) <= m.Keys && sim > budget
    ensures Elems([e] + later) <= m.Keys && Elems(done + [e]) <= m.Keys
    ensures done + TakeUntil(m, [e] + later, sim, budget) ==
            done + [e] + TakeUntil(m, later, sim - m[e].size, budget)
    ensures SeqBytes(m, done + [e]) == SeqBytes(m, done) + m[e].size
  {
    assert ([e] + later)[1..] == later;
    ElemsCons(e, later);
    ElemsCons(e, []);
    SeqBytesAppend(m, done, [e]);
    assert SeqBytes(m, [e]) == m[e].size;
  }

  /** Recovered pieces go behind those listed already. */
  lemma {:induction false} RecoveredBehind(l: Lru, pieces: map<int, nat>, visit: seq<int>, oldTime: int)
    requires Elems(visit) <= pieces.Keys
    ensures l.order <= Recovered(l, pieces, visit, oldTime).order
  {
    if visit != [] {
      ElemsTake(visit, |visit| - 1);
      RecoveredBehind(l, pieces, visit[..|visit| - 1], oldTime);
    }
  }

  lemma RecoveredAll(l: Lru, pieces: map<int, nat>, visit: seq<int>, oldTime: int)
    requires l.Valid() && Visits(visit, pieces)
    ensures var r := Recovered(l, pieces, visit, oldTime);
            && r.entries.Keys == l.entries.Keys + pieces.Keys && l.order <= r.order
            && forall i :: i in r.entries ==>
                 r.entries[i] == if i in l.entries then l.entries[i] else Entry(pieces[i], oldTime)
  {
    RecoveredValid(l, pieces, visit, oldTime);
    RecoveredBehind(l, pieces, visit, oldTime);
  }

  lemma RecoveredSnoc(l: Lru, pieces: map<int, nat>, visit: seq<int>, i: int, oldTime: int)
    requires Elems(visit) <= pieces.Keys && i in pieces
    ensures Elems(visit + [i]) == Elems(visit) + {i}
    ensures NoDup(visit) && i !in Elems(visit) ==> NoDup(visit + [i])
    ensures Recovered(l, pieces, visit + [i], oldTime) ==
            RecoveredOne(Recovered(l, pieces, visit, oldTime), i, pieces[i], oldTime)
  {
    ElemsSnoc(visit, i);
    assert (visit + [i])[..|visit|] == visit;
  }
}
