/** What each operation of the cache does, said in bits, bytes, rows and the recency list. */
module Effects {
  import opened Geometry
  import opened Collections
  import opened LruSpec
  import opened VictimSelection
  import opened Completion
  import opened PieceCompletion
  import opened PieceLru
  import opened CacheModel
  import opened Runs

  /** The memo has forgotten exactly the files that depend on a complete piece of `gone`. */
  ghost predicate MemoLost(info: Info, c: Cache, r: Cache, gone: set<int>)
    requires info.pieceLength > 0
  {
    forall path :: path in r.memo <==>
      && path in c.memo
      && forall f, q :: 0 <= f < info.NumFiles() && info.Path(f) == path && 0 <= q < |c.bits| && q in gone && c.bits[q] ==>
           !info.Affects(f, q)
  }

  lemma MemoLostJoin(info: Info, a: Cache, b: Cache, c: Cache, gone: set<int>, more: set<int>)
    requires info.pieceLength > 0 && |a.bits| == |b.bits| && MemoLost(info, a, b, gone) && MemoLost(info, b, c, more)
    requires forall q :: 0 <= q < |a.bits| ==> (b.bits[q] <==> a.bits[q] && q !in gone)
    ensures MemoLost(info, a, c, gone + more)
  {
  }

  /** Exactly the pieces of `gone` have been evicted between `c` and `r`: they are incomplete in memory and
      in the table, their bytes are zero, their files are unpublished, and they are not tracked; everything
      else is as it was, and the tracked pieces left are in the same order. */
  ghost predicate Evicted(info: Info, c: Cache, r: Cache, gone: set<int>)
    requires Well(info, c) && Well(info, r) && c.lru.Some? && r.lru.Some?
  {
    && (forall q :: 0 <= q < |c.bits| ==> (r.bits[q] <==> c.bits[q] && q !in gone))
    && (forall q :: 0 <= q < |c.bits| ==> (TableSays(r.table, q) <==> TableSays(c.table, q) && q !in gone))
    && (forall x :: 0 <= x < |c.bytes| ==> r.bytes[x] == if x / info.pieceLength in gone then 0 else c.bytes[x])
    && r.rows <= c.rows
    && (forall f :: 0 <= f < info.NumFiles() && info.Path(f) in c.rows ==>
          (info.Path(f) in r.rows <==> forall q :: q in gone ==> !info.Affects(f, q)))
    && MemoLost(info, c, r, gone)
    && r.lru.value.budget == c.lru.value.budget
    && r.lru.value.entries == c.lru.value.entries - gone
    && (forall i, j :: i !in gone && j !in gone ==> (Before(r.lru.value.order, i, j) <==> Before(c.lru.value.order, i, j)))
  }

  lemma EvictExactly(info: Info, c: Cache, p: nat)
    requires Well(info, c) && p < |c.bits| && c.lru.Some?
    ensures Evicted(info, c, Evict(info, c, p), {p as int})
  {
    var r := Evict(info, c, p);
    forall x | 0 <= x < |c.bytes|
      ensures r.bytes[x] == if x / info.pieceLength == p then 0 else c.bytes[x]
    {
      PieceOfByte(info, x, p);
    }
    forall f | 0 <= f < info.NumFiles()
      ensures info.Path(f) in AffectedPaths(info, p) <==> info.Affects(f, p)
    {
      PathInAffected(info, f, p);
    }
    OrderWithout(c.lru.value, p);
  }

  lemma OrderWithout(l: Lru, p: int)
    requires l.Valid()
    ensures Removed(l, p).budget == l.budget && Removed(l, p).entries == l.entries - {p}
    ensures forall i, j :: i !in {p} && j !in {p} ==> (Before(Removed(l, p).order, i, j) <==> Before(l.order, i, j))
  {
    forall i, j | i !in {p} && j !in {p}
      ensures Before(Removed(l, p).order, i, j) <==> Before(l.order, i, j)
    {
      WithoutKeepsOrder(l.order, p, i, j);
    }
  }

  lemma EvictedJoin(info: Info, a: Cache, b: Cache, c: Cache, gone: set<int>, more: set<int>)
    requires Well(info, a) && Well(info, b) && Well(info, c) && a.lru.Some? && b.lru.Some? && c.lru.Some?
    requires Evicted(info, a, b, gone) && Evicted(info, b, c, more)
    ensures Evicted(info, a, c, gone + more)
  {
    MemoLostJoin(info, a, b, c, gone, more);
    forall f | 0 <= f < info.NumFiles() && info.Path(f) in a.rows
      ensures info.Path(f) in c.rows <==> forall q :: q in gone + more ==> !info.Affects(f, q)
    {
      assert (forall q :: q in gone + more ==> !info.Affects(f, q)) <==>
             (forall q :: q in gone ==> !info.Affects(f, q)) && (forall q :: q in more ==> !info.Affects(f, q));
    }
  }

  /** A list of evictions evicts exactly the pieces on it. */
  lemma {:induction false} EvictAllExactly(info: Info, c: Cache, ps: seq<int>)
    requires Well(info, c) && PiecesOf(info, ps) && c.lru.Some?
    ensures Evicted(info, c, EvictAll(info, c, ps), Elems(ps))
    decreases ps
  {
    if ps == [] {
      ElemsEmpty<int>();
    } else {
      assert info.ValidPiece(ps[0]);
      var c' := Evict(info, c, ps[0]);
      EvictExactly(info, c, ps[0]);
      EvictAllExactly(info, c', ps[1..]);
      EvictedJoin(info, c, c', EvictAll(info, c', ps[1..]), {ps[0]}, Elems(ps[1..]));
      assert ps == [ps[0]] + ps[1..];
      ElemsCons(ps[0], ps[1..]);
    }
  }

  // ---- one operation at a time ----

  /** Reading moves the piece to the front of the list, with the time of the read, and does nothing else. */
  lemma ReadExactly(info: Info, budget: int, c: Cache, p: nat, now: int)
    requires Well(info, c) && p < |c.bits|
    ensures var r := Apply(info, budget, c, Read(p, now));
            && r == c.(lru := r.lru) && (r.lru.Some? <==> c.lru.Some?)
            && (c.lru.Some? && p !in c.lru.value.entries ==> r.lru == c.lru)
            && (c.lru.Some? && p in c.lru.value.entries ==>
                  && InFront(c.lru.value, r.lru.value, p, c.lru.value.entries[p].size, now)
                  && r.lru.value.used == c.lru.value.used)
  {
    if c.lru.Some? && p in c.lru.value.entries {
      AddedInFront(c.lru.value, p, 0, now);
      assert Added(c.lru.value, p, 0, now) == Touched(c.lru.value, p, now);
    }
  }

  /** Piece `p` is first, with this size and time; everything else is as it was, in the same order. */
  ghost predicate InFront(l: Lru, r: Lru, p: int, size: nat, now: int) {
    && r.budget == l.budget && r.order != [] && r.order[0] == p
    && p in r.entries && r.entries[p] == Entry(size, now) && r.entries - {p} == l.entries - {p}
    && forall i, j :: i != p && j != p ==> (Before(r.order, i, j) <==> Before(l.order, i, j))
  }

  lemma WriteExactly(info: Info, budget: int, c: Cache, p: nat, at: nat, data: seq<byte>)
    requires Well(info, c) && Allowed(info, c, Write(p, at, data))
    ensures var r := Apply(info, budget, c, Write(p, at, data));
            && r == c.(bytes := r.bytes) && at + |data| <= |c.bytes|
            && forall x :: 0 <= x < |c.bytes| ==> r.bytes[x] == if at <= x < at + |data| then data[x - at] else c.bytes[x]
  {
    PieceShape(info, p);
  }

  lemma MarkNotCompleteExactly(info: Info, budget: int, c: Cache, p: nat)
    requires Well(info, c) && p < |c.bits|
    ensures var r := Apply(info, budget, c, MarkNotComplete(p));
            && r == c.(bits := c.bits[p := false], table := c.table[p := false], memo := r.memo)
            && forall path :: path in r.memo <==>
                 path in c.memo && !(c.bits[p] && exists f :: 0 <= f < info.NumFiles() && info.Path(f) == path && info.Affects(f, p))
  {
  }

  /** A scan publishes, and in a multi-file torrent memoises, exactly the files all of whose pieces are
      complete. */
  lemma ScanExactly(info: Info, budget: int, c: Cache)
    requires Well(info, c)
    ensures var r := Apply(info, budget, c, Scan);
            && r == c.(rows := r.rows, memo := r.memo) && c.rows <= r.rows && (info.Single() ==> r.memo == c.memo)
            && forall f :: 0 <= f < info.NumFiles() ==>
                 && (info.Path(f) in r.rows <==>
                       info.Path(f) in c.rows || forall q :: 0 <= q < |c.bits| && info.Affects(f, q) ==> c.bits[q])
                 && (!info.Single() ==>
                      (info.Path(f) in r.memo <==>
                         info.Path(f) in c.memo || forall q :: 0 <= q < |c.bits| && info.Affects(f, q) ==> c.bits[q]))
  {
    forall f | 0 <= f < info.NumFiles()
      ensures info.Path(f) in DoneSet(info, c.bits) <==> forall q :: 0 <= q < |c.bits| && info.Affects(f, q) ==> c.bits[q]
    {
      PathInDoneSet(info, c.bits, f);
    }
  }

  /** A sweep evicts only when over budget, and then just enough of the tracked pieces. */
  lemma SweepExactly(info: Info, c: Cache) returns (gone: set<int>)
    requires Well(info, c) && c.lru.Some? && TrackerFits(info, c.lru.value)
    ensures AfterSweep(info, c).lru.Some? && Evicted(info, c, AfterSweep(info, c), gone) && gone <= c.lru.value.entries.Keys
    ensures c.lru.value.budget <= 0 || c.lru.value.used <= c.lru.value.budget ==> gone == {} && AfterSweep(info, c) == c
    ensures c.lru.value.budget > 0 ==> AfterSweep(info, c).lru.value.used <= c.lru.value.budget
  {
    gone := {};
    if c.lru.value.used > c.lru.value.budget && c.lru.value.budget > 0 {
      gone := EvictsVictims(info, c);
    }
  }

  lemma EvictsVictims(info: Info, c: Cache) returns (gone: set<int>)
    requires Well(info, c) && c.lru.Some? && TrackerFits(info, c.lru.value)
    ensures gone == Elems(VictimsIn(info, c)) <= c.lru.value.entries.Keys
    ensures Evicted(info, c, EvictAll(info, c, VictimsIn(info, c)), gone)
    ensures c.lru.value.budget <= 0 || c.lru.value.used <= c.lru.value.budget ==> gone == {}
    ensures c.lru.value.budget > 0 ==> EvictAll(info, c, VictimsIn(info, c)).lru.value.used <= c.lru.value.budget
  {
    var l, v := c.lru.value, VictimsIn(info, c);
    gone := Elems(v);
    EvictAllExactly(info, c, v);
    if l.budget > 0 {
      VictimsAreShortest(l, ProtectedIn(info, c));
      EvictAllTracker(info, c, v);
      RemovedAllUsed(l, v);
    } else {
      NoVictims(l, ProtectedIn(info, c));
    }
    if l.used <= l.budget {
      NoVictims(l, ProtectedIn(info, c));
    }
  }

  /** Marking a piece complete sets its bit in memory and table.  With a tracker it then goes to the front;
      a piece tracked before evicts nothing, a new one just enough to be within budget. */
  lemma MarkCompleteExactly(info: Info, budget: int, c: Cache, p: nat, now: int) returns (mid: Cache, gone: set<int>)
    requires Well(info, c) && Allowed(info, c, MarkComplete(p, now))
    ensures Well(info, mid) && info.PieceLen(p) >= 0
    ensures mid == c.(bits := c.bits[p := true], table := c.table[p := true], lru := mid.lru)
    ensures c.lru.None? ==> Apply(info, budget, c, MarkComplete(p, now)) == mid && mid.lru.None?
    ensures c.lru.Some? ==>
              var r, l := Apply(info, budget, c, MarkComplete(p, now)), c.lru.value;
              && mid.lru.Some? && r.lru.Some?
              && InFront(l, mid.lru.value, p, if p in l.entries then l.entries[p].size else info.PieceLen(p), now)
              && mid.lru.value.used == (if p in l.entries then l.used else l.used + info.PieceLen(p))
              && Evicted(info, mid, r, gone) && gone <= mid.lru.value.entries.Keys
              && (p in l.entries || l.budget <= 0 || l.used + info.PieceLen(p) <= l.budget ==> gone == {})
              && (p !in l.entries && l.budget > 0 ==> r.lru.value.used <= l.budget)
  {
    PieceShape(info, p);
    mid, gone := Put(info, c, p, true), {};
    if c.lru.Some? {
      var l := c.lru.value;
      AddedInFront(l, p, info.PieceLen(p), now);
      mid := Tracked(info, mid, p, now);
      if p !in l.entries {
        gone := EvictsVictims(info, mid);
      }
    }
  }

  /** A fresh process takes the bits from the table, and publishes what a first scan round finds. */
  lemma ReloadedExactly(info: Info, c: Cache, scanFirst: bool)
    requires Well(info, c)
    ensures var r := Reloaded(info, c, scanFirst);
            && r.table == c.table && r.bytes == c.bytes && c.rows <= r.rows && r.lru.None?
            && (forall q :: 0 <= q < |r.bits| ==> (r.bits[q] <==> q in c.table && c.table[q]))
            && forall f :: 0 <= f < info.NumFiles() ==>
                 (info.Path(f) in r.rows <==>
                    || info.Path(f) in c.rows
                    || (scanFirst && forall q :: 0 <= q < |r.bits| && info.Affects(f, q) ==> r.bits[q]))
  {
    var r := Reloaded(info, c, scanFirst);
    forall f | 0 <= f < info.NumFiles()
      ensures info.Path(f) in DoneSet(info, r.bits) <==> forall q :: 0 <= q < |r.bits| && info.Affects(f, q) ==> r.bits[q]
    {
      PathInDoneSet(info, r.bits, f);
    }
  }

  /** With a budget the torrent exceeds, opening tracks exactly the complete pieces, all at one time in the
      past, and evicts just enough of them; otherwise there is no tracker, and nothing is evicted. */
  lemma ReopenExactly(info: Info, budget: int, c: Cache, visit: seq<int>, now: int, scanFirst: bool)
    returns (mid: Cache, gone: set<int>)
    requires Well(info, c) && Allowed(info, c, Reopen(visit, now, scanFirst))
    ensures Well(info, mid) && mid == Reloaded(info, c, scanFirst).(lru := mid.lru)
    ensures mid.lru.Some? <==> budget > 0 && info.Total() > budget
    ensures mid.lru.None? ==> Apply(info, budget, c, Reopen(visit, now, scanFirst)) == mid
    ensures mid.lru.Some? ==>
              var r := Apply(info, budget, c, Reopen(visit, now, scanFirst));
              && r.lru.Some? && mid.lru.value.budget == budget
              && (forall q :: q in mid.lru.value.entries <==> 0 <= q < |mid.bits| && mid.bits[q])
              && (forall q :: q in mid.lru.value.entries ==>
                    && mid.lru.value.entries[q].size == info.PieceLen(q)
                    && mid.lru.value.entries[q].lastAccess == now - EVICTION_PROTECTION_WINDOW - MINUTE)
              && Evicted(info, mid, r, gone) && r.lru.value.used <= budget
              && (mid.lru.value.used <= budget ==> r == mid)
  {
    mid, gone := Reloaded(info, c, scanFirst), {};
    if budget > 0 && info.Total() > budget {
      RecoveredFits(info, budget, c.table, visit, OldTime(now));
      RecoveredAll(Lru(map[], [], 0, budget), CompletePieces(info, c.table), visit, OldTime(now));
      mid := Rebuilt(info, budget, mid, visit, now);
      gone := SweepExactly(info, mid);
    }
  }

  // ---- a torrent that fits ----

  /** A torrent that fits its budget, or has none, never has a tracker; no operation on it withdraws a row,
      and only writing changes a byte. */
  lemma {:induction false} FittingTorrentIsLeftAlone(info: Info, budget: int, cs: seq<Cache>, ops: seq<Op>, k: nat)
    requires IsRun(info, budget, cs, ops) && |ops| > 0 && ops[0].Reopen? && k < |ops|
    requires budget <= 0 || info.Total() <= budget
    ensures cs[k + 1].lru.None? && cs[k].rows <= cs[k + 1].rows && (!ops[k].Write? ==> cs[k + 1].bytes == cs[k].bytes)
  {
    if ops[k].Reopen? {
      var mid, gone := ReopenExactly(info, budget, cs[k], ops[k].visit, ops[k].now, ops[k].scanFirst);
      ReloadedExactly(info, cs[k], ops[k].scanFirst);
    } else {
      FittingTorrentIsLeftAlone(info, budget, cs, ops, k - 1);
    }
  }

  // ---- table accesses that fail ----

  /** The pieces of `gone` have been given up between `c` and `r`, over a database that fails for some.  All
      are incomplete in memory.  Those whose table write failed (`kept`) are otherwise as they were: complete
      in the table, tracked, with their bytes.  The others are incomplete in the table, untracked and zero. */
  ghost predicate EvictedWith(info: Info, c: Cache, r: Cache, gone: set<int>, kept: set<int>)
    requires Well(info, c) && Well(info, r) && c.lru.Some? && r.lru.Some?
  {
    && (forall q :: 0 <= q < |c.bits| ==> (r.bits[q] <==> c.bits[q] && q !in gone))
    && (forall q :: 0 <= q < |c.bits| ==> (TableSays(r.table, q) <==> TableSays(c.table, q) && q !in gone - kept))
    && (forall x :: 0 <= x < |c.bytes| ==> r.bytes[x] == if x / info.pieceLength in gone - kept then 0 else c.bytes[x])
    && MemoLost(info, c, r, gone)
    && r.lru.value.budget == c.lru.value.budget
    && r.lru.value.entries == c.lru.value.entries - (gone - kept)
    && forall i, j :: i !in gone - kept && j !in gone - kept ==>
         (Before(r.lru.value.order, i, j) <==> Before(c.lru.value.order, i, j))
  }

  /** The rows lost are those the evictions got to delete: all of a piece's files, none when its table write
      failed, the first few in file order when a delete failed. */
  ghost predicate WithdrawnWith(info: Info, c: Cache, r: Cache, gone: set<int>, fault: int -> Fault)
    requires info.pieceLength > 0
  {
    forall path :: path in r.rows <==>
      path in c.rows && forall q :: q in gone ==> path !in Withdrawn(info, q, fault(q))
  }

  lemma WithdrawnExactly(info: Info, p: int, fault: Fault)
    requires info.WellFormed()
    ensures fault.SetFails? ==> Withdrawn(info, p, fault) == {}
    ensures fault.NoFault? ==> forall f :: 0 <= f < info.NumFiles() ==> (info.Path(f) in Withdrawn(info, p, fault) <==> info.Affects(f, p))
    ensures fault.DeleteFails? ==>
              exists q :: && InFileOrder(info, q) && Elems(q) == Withdrawn(info, p, NoFault)
                          && Withdrawn(info, p, fault) == Elems(Upto(q, fault.after))
  {
    var q := AffectedList(info, info.NumFiles(), p);
    AffectedListInOrder(info, info.NumFiles(), p);
    AffectedListElems(info, info.NumFiles(), p);
    AffectedBounds(info, p);
    forall f | 0 <= f < info.NumFiles()
      ensures info.Path(f) in AffectedPaths(info, p) <==> info.Affects(f, p)
    {
      PathInAffected(info, f, p);
    }
    assert Elems(q) == Withdrawn(info, p, NoFault);
  }

  lemma EvictWithExactly(info: Info, c: Cache, p: nat, db: Db)
    requires Well(info, c) && p < |c.bits| && c.lru.Some?
    ensures db.closed ==> EvictWith(info, c, p, db) == c
    ensures !db.closed ==>
              && EvictedWith(info, c, EvictWith(info, c, p, db), {p as int}, if db.fault(p) == SetFails then {p as int} else {})
              && WithdrawnWith(info, c, EvictWith(info, c, p, db), {p as int}, db.fault)
  {
    EvictExactly(info, c, p);
    assert {p as int} - {} == {p as int} && {p as int} - {p as int} == {};
  }

  lemma EvictedWithJoin(info: Info, a: Cache, b: Cache, c: Cache, gone: set<int>, kept: set<int>, more: set<int>, held: set<int>)
    requires Well(info, a) && Well(info, b) && Well(info, c) && a.lru.Some? && b.lru.Some? && c.lru.Some?
    requires EvictedWith(info, a, b, gone, kept) && EvictedWith(info, b, c, more, held)
    requires kept <= gone && held <= more && kept * more <= held && held * gone <= kept
    ensures EvictedWith(info, a, c, gone + more, kept + held)
  {
    MemoLostJoin(info, a, b, c, gone, more);
    assert gone + more - (kept + held) == (gone - kept) + (more - held);
  }

  /** Those of a list whose table write fails. */
  ghost function Kept(ps: seq<int>, fault: int -> Fault): set<int> {
    set q | q in Elems(ps) && fault(q) == SetFails
  }

  lemma EvictedWithCons(info: Info, a: Cache, b: Cache, c: Cache, p: int, ps: seq<int>, fault: int -> Fault)
    requires Well(info, a) && Well(info, b) && Well(info, c) && a.lru.Some? && b.lru.Some? && c.lru.Some?
    requires EvictedWith(info, a, b, {p}, if fault(p) == SetFails then {p} else {})
    requires EvictedWith(info, b, c, Elems(ps), Kept(ps, fault))
    ensures EvictedWith(info, a, c, Elems([p] + ps), Kept([p] + ps, fault))
  {
    ElemsCons(p, ps);
    var kept := if fault(p) == SetFails then {p} else {};
    EvictedWithJoin(info, a, b, c, {p}, kept, Elems(ps), Kept(ps, fault));
    assert Kept([p] + ps, fault) == kept + Kept(ps, fault);
  }

  lemma WithdrawnCons(info: Info, a: Cache, b: Cache, c: Cache, p: int, ps: seq<int>, fault: int -> Fault)
    requires info.pieceLength > 0 && WithdrawnWith(info, a, b, {p}, fault) && WithdrawnWith(info, b, c, Elems(ps), fault)
    ensures WithdrawnWith(info, a, c, Elems([p] + ps), fault)
  {
    ElemsCons(p, ps);
  }

  /** What a list of evictions does whatever fails: one failure does not keep the others from happening. */
  lemma {:induction false} EvictAllWithExactly(info: Info, c: Cache, ps: seq<int>, db: Db)
    requires Well(info, c) && PiecesOf(info, ps) && c.lru.Some? && !db.closed
    ensures EvictedWith(info, c, EvictAllWith(info, c, ps, db), Elems(ps), Kept(ps, db.fault))
    ensures WithdrawnWith(info, c, EvictAllWith(info, c, ps, db), Elems(ps), db.fault)
    decreases ps
  {
    if ps == [] {
      ElemsEmpty<int>();
    } else {
      assert info.ValidPiece(ps[0]) && [ps[0]] + ps[1..] == ps;
      var c' := EvictWith(info, c, ps[0], db);
      EvictWithExactly(info, c, ps[0], db);
      EvictAllWithExactly(info, c', ps[1..], db);
      EvictedWithCons(info, c, c', EvictAllWith(info, c', ps[1..], db), ps[0], ps[1..], db.fault);
      WithdrawnCons(info, c, c', EvictAllWith(info, c', ps[1..], db), ps[0], ps[1..], db.fault);
    }
  }

  lemma ClosedEvictsNothing(info: Info, c: Cache, ps: seq<int>, db: Db)
    requires Well(info, c) && PiecesOf(info, ps) && c.lru.Some? && db.closed
    ensures EvictAllWith(info, c, ps, db) == c
    decreases ps
  {
    if ps != [] {
      assert info.ValidPiece(ps[0]);
      ClosedEvictsNothing(info, c, ps[1..], db);
    }
  }

  /** A sweep over a database that may fail tries every victim. */
  lemma SweepWithExactly(info: Info, c: Cache, db: Db)
    requires Well(info, c) && c.lru.Some? && TrackerFits(info, c.lru.value)
    ensures db.closed || c.lru.value.budget <= 0 || c.lru.value.used <= c.lru.value.budget ==> AfterSweepWith(info, c, db) == c
    ensures !db.closed && c.lru.value.used > c.lru.value.budget > 0 ==>
              && AfterSweepWith(info, c, db).lru.Some?
              && EvictedWith(info, c, AfterSweepWith(info, c, db), Elems(VictimsIn(info, c)), Kept(VictimsIn(info, c), db.fault))
              && WithdrawnWith(info, c, AfterSweepWith(info, c, db), Elems(VictimsIn(info, c)), db.fault)
  {
    if c.lru.value.used > c.lru.value.budget > 0 {
      if db.closed {
        ClosedEvictsNothing(info, c, VictimsIn(info, c), db);
      } else {
        EvictAllWithExactly(info, c, VictimsIn(info, c), db);
      }
    }
  }

  /** Marking complete tries every victim, too, whatever fails for the others. */
  lemma MarkCompleteWithExactly(info: Info, c: Cache, p: nat, now: int, db: Db)
    requires Well(info, c) && p < |c.bits| && c.lru.Some? && TrackerFits(info, c.lru.value) && !db.closed
    ensures var mid := Tracked(info, c.(bits := c.bits[p := true], table := c.table[p := true]), p, now);
            var r := AfterMarkCompleteWith(info, c, p, now, true, db);
            var vs := if p in c.lru.value.entries then [] else VictimsIn(info, mid);
            r.lru.Some? && EvictedWith(info, mid, r, Elems(vs), Kept(vs, db.fault)) && WithdrawnWith(info, mid, r, Elems(vs), db.fault)
  {
    var mid := Tracked(info, Put(info, c, p, true), p, now);
    EvictAllWithExactly(info, mid, if p in c.lru.value.entries then [] else VictimsIn(info, mid), db);
  }

  /** Marking complete when the table cannot be written: the bit is set in memory and nothing else happens;
      on a closed database nothing happens at all. */
  lemma FailedMarkCompleteExactly(info: Info, c: Cache, p: nat, now: int, setOk: bool, db: Db)
    requires Well(info, c) && p < |c.bits| && (c.lru.Some? ==> TrackerFits(info, c.lru.value)) && (db.closed || !setOk)
    ensures AfterMarkCompleteWith(info, c, p, now, setOk, db) == if db.closed then c else c.(bits := c.bits[p := true])
  {
  }

  /** Opening with failures: a first scan round publishes the first files in file order only, and pieces
      whose query fails are not tracked. */
  lemma OpeningExactly(info: Info, budget: int, c: Cache, visit: seq<int>, now: int, how: Opening)
    requires Well(info, c) && Visits(visit, Recoverable(info, c.table, how.unreadable))
    ensures var r := ReloadedWith(info, c, how);
            && r == Reloaded(info, c, false).(memo := r.memo, rows := r.rows)
            && (!how.scanFirst ==> r.rows == c.rows)
            && (how.scanFirst ==>
                  exists done :: && InFileOrder(info, done)
                                 && (forall path :: path in done <==> path in DoneSet(info, r.bits))
                                 && r.rows == c.rows + Elems(Upto(done, how.inserts)))
    ensures var c1 := ReloadedWith(info, c, how);
            var r := RebuiltWith(info, budget, c1, how.unreadable, visit, now);
            && r == c1.(lru := r.lru) && r.lru.value.budget == budget
            && (forall q :: q in r.lru.value.entries <==>
                  0 <= q < |c.bits| && q in c.table && c.table[q] && q !in how.unreadable)
            && (forall q :: q in r.lru.value.entries ==>
                  && r.lru.value.entries[q].size == info.PieceLen(q)
                  && r.lru.value.entries[q].lastAccess == now - EVICTION_PROTECTION_WINDOW - MINUTE)
  {
    var r := ReloadedWith(info, c, how);
    var done := FreshScan(info, r.bits, info.NumFiles());
    FreshScanInOrder(info, r.bits, info.NumFiles());
    ScanIsDoneSet(info, r.bits, info.NumFiles());
    assert forall path :: path in done <==> path in Elems(done);
    RecoveredFits(info, budget, c.table - how.unreadable, visit, OldTime(now));
    RecoveredAll(Lru(map[], [], 0, budget), Recoverable(info, c.table, how.unreadable), visit, OldTime(now));
  }

  /** So opening is reloading, and with a budget the torrent exceeds rebuilding the tracker and one sweep. */
  lemma ReopenWithExactly(info: Info, budget: int, c: Cache, visit: seq<int>, now: int, how: Opening)
    requires Well(info, c) && Visits(visit, Recoverable(info, c.table, how.unreadable))
    ensures var c1 := ReloadedWith(info, c, how);
            var r := AfterReopenWith(info, budget, c, visit, now, how);
            && (budget <= 0 || info.Total() <= budget ==> r == c1 && r.lru.None?)
            && (budget > 0 && info.Total() > budget ==>
                  r == AfterSweepWith(info, RebuiltWith(info, budget, c1, how.unreadable, visit, now), Db(false, how.fault)))
  {
  }
}
