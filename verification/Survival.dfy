/** How much an eviction costs: completed files are spared when they can be, and no more is
    evicted than needed. */
module Survival {
  import opened Geometry
  import opened Collections
  import opened LruSpec
  import opened VictimSelection
  import opened Completion
  import opened CacheModel

  /** Giving up every unprotected piece would be enough. */
  ghost predicate UnprotectedSuffice(l: Lru, prot: set<int>)
    requires l.Valid()
  {
    PickElems(l.order, prot, false);
    l.used - SeqBytes(l.entries, Pick(l.order, prot, false)) <= l.budget
  }

  /** Victims are all unprotected exactly when giving up the unprotected pieces is enough: completed
      files are spared whenever they can be, and touched only when they must. */
  lemma OnlyUnprotectedVictims(l: Lru, prot: set<int>)
    requires l.Valid() && l.budget > 0
    ensures Elems(Victims(l, prot)) !! prot <==> UnprotectedSuffice(l, prot)
  {
    ElemsEmpty<int>();
    var a, v := Pick(l.order, prot, false), Victims(l, prot);
    PickElems(l.order, prot, false);
    VictimsAreShortest(l, prot);
    if UnprotectedSuffice(l, prot) {
      if l.used > l.budget {
        VictimsInTwoPasses(l, prot);
        NothingMore(l.entries, a, Pick(l.order, prot, true), l.used, l.budget);
        TakeUntilIsShortest(l.entries, a, l.used, l.budget);
        ElemsTake(a, |TakeUntil(l.entries, a, l.used, l.budget)|);
        assert a[..|a|] == a;
      }
    } else if Elems(v) !! prot {
      SeqBytesIsBytes(l.entries, a);
      SeqBytesIsBytes(l.entries, v);
      BytesSplit(l.entries, Elems(a), Elems(v));
      assert false;
    }
  }

  /** Evicting an unprotected piece leaves the memo and every file in it alone. */
  lemma EvictSparesMemo(info: Info, c: Cache, p: nat)
    requires Well(info, c) && p < |c.bits| && c.lru.Some? && !Protected(info, c.memo, p)
    ensures Evict(info, c, p).memo == c.memo
    ensures forall f, x: nat | 0 <= f < info.NumFiles() && info.Path(f) in c.memo && x < |c.bytes| && info.InFile(f, x) ::
              Evict(info, c, p).bytes[x] == c.bytes[x]
  {
    forall path | path in c.memo
      ensures path !in AffectedPaths(info, p)
    {
    }
    forall f, x: nat | 0 <= f < info.NumFiles() && info.Path(f) in c.memo && x < |c.bytes| && info.InFile(f, x)
      ensures !info.InPiece(p, x)
    {
      if info.InPiece(p, x) {
        SharedBytesAffect(info, f, p);
        assert false;
      }
    }
  }

  lemma {:induction false} EvictAllSparesMemo(info: Info, c: Cache, ps: seq<int>)
    requires Well(info, c) && PiecesOf(info, ps) && c.lru.Some?
    requires forall k :: 0 <= k < |ps| ==> !Protected(info, c.memo, ps[k])
    ensures EvictAll(info, c, ps).memo == c.memo
    ensures forall f, x: nat | 0 <= f < info.NumFiles() && info.Path(f) in c.memo && x < |c.bytes| && info.InFile(f, x) ::
              EvictAll(info, c, ps).bytes[x] == c.bytes[x]
    decreases ps
  {
    if ps != [] {
      assert info.ValidPiece(ps[0]);
      EvictSparesMemo(info, c, ps[0]);
      var c' := Evict(info, c, ps[0]);
      forall k | 0 <= k < |ps[1..]|
        ensures !Protected(info, c'.memo, ps[1..][k])
      {
        assert ps[1..][k] == ps[k + 1];
      }
      EvictAllSparesMemo(info, c', ps[1..]);
    }
  }

  lemma FreePieces(info: Info, c: Cache)
    requires Well(info, c) && c.lru.Some? && TrackerFits(info, c.lru.value)
    ensures var l, prot := c.lru.value, ProtectedIn(info, c);
            && (forall i :: i in prot <==>
                  i in l.entries && exists f :: 0 <= f < info.NumFiles() && info.Affects(f, i) && info.Path(f) in c.memo)
            && (set i | i in l.entries.Keys && forall f :: 0 <= f < info.NumFiles() && info.Path(f) in c.memo ==> !info.Affects(f, i))
               == l.entries.Keys - prot
            && (UnprotectedSuffice(l, prot) <==> l.used - Bytes(l.entries, l.entries.Keys - prot) <= l.budget)
  {
    var l, prot := c.lru.value, ProtectedIn(info, c);
    forall i | i in l.entries
      ensures i in prot <==> exists f :: 0 <= f < info.NumFiles() && info.Affects(f, i) && info.Path(f) in c.memo
    {
      assert i in prot <==> Protected(info, c.memo, i);
    }
    PickElems(l.order, prot, false);
    SeqBytesIsBytes(l.entries, Pick(l.order, prot, false));
  }

  /** Completed files are spared exactly when they can be: no victim is a piece some memoised file depends
      on if and only if the tracked pieces no memoised file depends on have enough bytes. */
  lemma SparedExactly(info: Info, c: Cache)
    requires Well(info, c) && c.lru.Some? && TrackerFits(info, c.lru.value) && c.lru.value.budget > 0
    ensures (forall i :: i in VictimsIn(info, c) ==>
               forall f :: 0 <= f < info.NumFiles() && info.Path(f) in c.memo ==> !info.Affects(f, i)) <==>
            c.lru.value.used - Bytes(c.lru.value.entries,
              set i | i in c.lru.value.entries.Keys &&
                      forall f :: 0 <= f < info.NumFiles() && info.Path(f) in c.memo ==> !info.Affects(f, i)) <= c.lru.value.budget
  {
    var l, v, prot := c.lru.value, VictimsIn(info, c), ProtectedIn(info, c);
    FreePieces(info, c);
    OnlyUnprotectedVictims(l, prot);
    VictimsTracked(l, prot);
    assert forall i :: i in v ==> i in Elems(v) && i in l.entries.Keys;
    forall i | i in v
      ensures i !in prot <==> forall f :: 0 <= f < info.NumFiles() && info.Path(f) in c.memo ==> !info.Affects(f, i)
    {
    }
  }

  /** A piece of a memoised file is a victim only when every tracked piece of no memoised file is one. */
  lemma CompletedFilesGoLast(info: Info, c: Cache, i: int, f: nat, j: int)
    requires Well(info, c) && c.lru.Some? && TrackerFits(info, c.lru.value)
    requires i in VictimsIn(info, c) && f < info.NumFiles() && info.Path(f) in c.memo && info.Affects(f, i)
    requires j in c.lru.value.entries && forall g :: 0 <= g < info.NumFiles() && info.Path(g) in c.memo ==> !info.Affects(g, j)
    ensures j in VictimsIn(info, c)
  {
    var l, v, prot := c.lru.value, VictimsIn(info, c), ProtectedIn(info, c);
    FreePieces(info, c);
    assert i in Elems(v) && i in l.entries.Keys;
    UnprotectedGoFirst(l, prot, i, j);
  }

  /** Where memoised files make no difference, the less recently used piece goes first. */
  lemma LessRecentlyUsedGoFirst(info: Info, c: Cache, i: int, j: int)
    requires Well(info, c) && c.lru.Some? && TrackerFits(info, c.lru.value)
    requires i in VictimsIn(info, c) && Before(c.lru.value.order, i, j)
    requires (exists f :: 0 <= f < info.NumFiles() && info.Affects(f, i) && info.Path(f) in c.memo) <==>
             (exists f :: 0 <= f < info.NumFiles() && info.Affects(f, j) && info.Path(f) in c.memo)
    ensures j in VictimsIn(info, c)
  {
    var l, v, prot := c.lru.value, VictimsIn(info, c), ProtectedIn(info, c);
    FreePieces(info, c);
    assert i in Elems(v) && i in l.entries.Keys;
    var m, n :| 0 <= m < n < |l.order| && l.order[m] == i && l.order[n] == j;
    assert j in Elems(l.order);
    OlderGoFirst(l, prot, i, j);
  }

  /** Completed files survive when they can: if the tracked pieces no memoised file depends on have enough
      bytes, carrying out the whole victim list changes neither the memo nor any byte of a file in it. */
  lemma CompletedFilesSurvive(info: Info, c: Cache)
    requires Well(info, c) && c.lru.Some? && TrackerFits(info, c.lru.value) && c.lru.value.budget > 0
    requires c.lru.value.used - Bytes(c.lru.value.entries,
               set i | i in c.lru.value.entries.Keys &&
                       forall f :: 0 <= f < info.NumFiles() && info.Path(f) in c.memo ==> !info.Affects(f, i)) <= c.lru.value.budget
    ensures EvictAll(info, c, VictimsIn(info, c)).memo == c.memo
    ensures forall f, x: nat | 0 <= f < info.NumFiles() && info.Path(f) in c.memo && x < |c.bytes| && info.InFile(f, x) ::
              EvictAll(info, c, VictimsIn(info, c)).bytes[x] == c.bytes[x]
  {
    var v := VictimsIn(info, c);
    SparedExactly(info, c);
    forall k | 0 <= k < |v|
      ensures !Protected(info, c.memo, v[k])
    {
      assert v[k] in v;
    }
    EvictAllSparesMemo(info, c, v);
  }

  /** When a sweep evicts anything, it stops within one piece length of the budget. */
  lemma SweepIsTight(info: Info, c: Cache)
    requires Well(info, c) && c.lru.Some? && TrackerFits(info, c.lru.value) && c.lru.value.used > c.lru.value.budget > 0
    ensures var after := AfterSweep(info, c).lru.value;
            after.budget - info.pieceLength < after.used <= after.budget
  {
    var l := c.lru.value;
    var v := VictimsIn(info, c);
    forall i | i in l.entries ensures l.entries[i].size <= info.pieceLength {
      PieceShape(info, i);
    }
    EvictAllTracker(info, c, v);
    VictimsAreShortest(l, ProtectedIn(info, c));
    RemovedAllUsed(l, v);
    EvictionIsTight(l, ProtectedIn(info, c), info.pieceLength);
  }

  /** Completing one piece while within budget evicts at most two: only the last piece of a torrent
      can be short. */
  lemma CompletingEvictsAtMostTwo(info: Info, c: Cache, p: nat, now: int)
    requires Well(info, c) && p < |c.bits| && c.lru.Some? && TrackerFits(info, c.lru.value)
    requires c.lru.value.used <= c.lru.value.budget && c.lru.value.budget > 0
    ensures |VictimsIn(info, Tracked(info, c, p, now))| <= 2
  {
    PieceShape(info, p);
    var c2 := Tracked(info, c, p, now);
    AddHasAtMostTwoVictims(c.lru.value, p, info.PieceLen(p), now, ProtectedIn(info, c2), info.pieceLength, info.NumPieces() - 1);
  }
}
