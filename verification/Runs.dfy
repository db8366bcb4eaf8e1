/** What holds over whole runs of the cache, with operations taken one at a time. */
module Runs {
  import opened Geometry
  import opened Collections
  import opened LruSpec
  import opened VictimSelection
  import opened Completion
  import opened PieceCompletion
  import opened CacheModel

  // ---- invariants ----

  /** Memory and table agree, the memo is sound, there is a tracker exactly when eviction is
      enabled, and it tracks every complete piece under its own length. */
  ghost predicate Consistent(info: Info, budget: int, c: Cache) {
    && Well(info, c)
    && c.bits == BitsOf(c.table, info.NumPieces())
    && MemoSound(info, c.bits, c.memo)
    && (c.lru.Some? <==> EvictionEnabled(info, budget))
    && (c.lru.Some? ==>
          && c.lru.value.budget == budget
          && TrackerFits(info, c.lru.value)
          && forall p :: 0 <= p < |c.bits| && c.bits[p] ==> p in c.lru.value.entries)
  }

  ghost predicate WithinBudget(c: Cache) {
    c.lru.Some? ==> c.lru.value.used <= c.lru.value.budget
  }

  /** Every published file has all its pieces. */
  ghost predicate RowsSound(info: Info, c: Cache)
    requires info.pieceLength > 0
  {
    c.rows <= DoneSet(info, c.bits)
  }

  /** The bytes of piece `p` are those of `content`. */
  ghost predicate PieceHolds(info: Info, bytes: seq<byte>, p: nat, content: seq<byte>)
    requires info.pieceLength > 0 && |bytes| == |content|
  {
    forall x: nat :: x < |bytes| && info.InPiece(p, x) ==> bytes[x] == content[x]
  }

  /** Every complete piece holds the torrent's content. */
  ghost predicate Intact(info: Info, c: Cache, content: seq<byte>)
    requires info.pieceLength > 0
  {
    && |c.bytes| == |content|
    && forall p :: 0 <= p < |c.bits| && c.bits[p] ==> PieceHolds(info, c.bytes, p, content)
  }

  // ---- evictions ----

  lemma EvictConsistent(info: Info, budget: int, c: Cache, p: nat)
    requires Consistent(info, budget, c) && p < |c.bits| && c.lru.Some?
    ensures Consistent(info, budget, Evict(info, c, p))
  {
    AgreementAfterSet(c.bits, c.table, p, false, true);
    UncompleteKeepsMemo(info, c.bits, c.memo, p);
  }

  lemma {:induction false} EvictAllConsistent(info: Info, budget: int, c: Cache, ps: seq<int>)
    requires Consistent(info, budget, c) && PiecesOf(info, ps) && c.lru.Some?
    ensures Consistent(info, budget, EvictAll(info, c, ps))
    decreases ps
  {
    if ps != [] {
      assert info.ValidPiece(ps[0]);
      EvictConsistent(info, budget, c, ps[0]);
      EvictAllConsistent(info, budget, Evict(info, c, ps[0]), ps[1..]);
    }
  }

  /** Evicting the victims the tracker names brings it within budget. */
  lemma VictimsReachBudget(info: Info, budget: int, c: Cache)
    requires Consistent(info, budget, c) && c.lru.Some?
    ensures var c' := EvictAll(info, c, VictimsIn(info, c));
            Consistent(info, budget, c') && WithinBudget(c')
  {
    var v := VictimsIn(info, c);
    EvictAllConsistent(info, budget, c, v);
    EvictAllTracker(info, c, v);
    VictimsAreShortest(c.lru.value, ProtectedIn(info, c));
    RemovedAllUsed(c.lru.value, v);
  }

  lemma SweepConsistent(info: Info, budget: int, c: Cache)
    requires Consistent(info, budget, c)
    ensures Consistent(info, budget, AfterSweep(info, c)) && WithinBudget(AfterSweep(info, c))
  {
    if c.lru.Some? {
      VictimsReachBudget(info, budget, c);
    }
  }

  /** What a fresh process finds is consistent, and stays so when it gets a tracker. */
  lemma RebuiltConsistent(info: Info, budget: int, c: Cache, visit: seq<int>, now: int, scanFirst: bool)
    requires Well(info, c) && Visits(visit, CompletePieces(info, c.table)) && EvictionEnabled(info, budget)
    ensures Consistent(info, budget, Rebuilt(info, budget, Reloaded(info, c, scanFirst), visit, now))
  {
    ScanKeepsMemo(info, Reloaded(info, c, scanFirst).bits, {});
    RecoveredFits(info, budget, c.table, visit, OldTime(now));
  }

  /** Opening establishes everything, whatever the tables and files hold. */
  lemma ReopenConsistent(info: Info, budget: int, c: Cache, visit: seq<int>, now: int, scanFirst: bool)
    requires Well(info, c) && Visits(visit, CompletePieces(info, c.table))
    ensures var c' := AfterReopen(info, budget, c, visit, now, scanFirst);
            Consistent(info, budget, c') && WithinBudget(c')
  {
    if EvictionEnabled(info, budget) {
      RebuiltConsistent(info, budget, c, visit, now, scanFirst);
      SweepConsistent(info, budget, Rebuilt(info, budget, Reloaded(info, c, scanFirst), visit, now));
    } else {
      ScanKeepsMemo(info, Reloaded(info, c, scanFirst).bits, {});
    }
  }

  lemma PutConsistent(info: Info, budget: int, c: Cache, p: nat, b: bool)
    requires Consistent(info, budget, c) && p < |c.bits|
    requires b && c.lru.Some? ==> p in c.lru.value.entries
    ensures Consistent(info, budget, Put(info, c, p, b))
  {
    AgreementAfterSet(c.bits, c.table, p, b, true);
    if b {
      CompleteKeepsMemo(info, c.bits, c.memo, p);
    } else {
      UncompleteKeepsMemo(info, c.bits, c.memo, p);
    }
  }

  lemma MarkCompleteConsistent(info: Info, budget: int, c: Cache, p: nat, now: int)
    requires Consistent(info, budget, c) && WithinBudget(c) && p < |c.bits|
    ensures var c' := AfterMarkComplete(info, c, p, now);
            Consistent(info, budget, c') && WithinBudget(c')
  {
    if c.lru.None? {
      PutConsistent(info, budget, c, p, true);
    } else {
      var c2 := Tracked(info, c, p, now);
      AddedValid(c.lru.value, p, info.PieceLen(p), now);
      PutConsistent(info, budget, c2, p, true);
      var c3 := Tracked(info, Put(info, c, p, true), p, now);
      assert c3 == Put(info, c2, p, true);
      VictimsReachBudget(info, budget, c3);
    }
  }

  /** Every operation keeps the cache consistent and within budget. */
  lemma StepConsistent(info: Info, budget: int, c: Cache, op: Op)
    requires Consistent(info, budget, c) && WithinBudget(c) && Allowed(info, c, op)
    ensures Consistent(info, budget, Apply(info, budget, c, op)) && WithinBudget(Apply(info, budget, c, op))
  {
    match op
    case Write(_, _, _) =>
    case MarkComplete(p, now) => MarkCompleteConsistent(info, budget, c, p, now);
    case MarkNotComplete(p) => PutConsistent(info, budget, c, p, false);
    case Read(p, now) =>
    case Sweep => SweepConsistent(info, budget, c);
    case Scan => ScanKeepsMemo(info, c.bits, c.memo);
    case Reopen(visit, now, scanFirst) => ReopenConsistent(info, budget, c, visit, now, scanFirst);
  }

  // ---- the disk bound ----

  /** The bytes of complete pieces among the first `n`. */
  ghost function CompleteBytes(info: Info, bits: seq<bool>, n: nat): int
    requires info.pieceLength > 0 && n <= |bits|
  {
    if n == 0 then 0
    else CompleteBytes(info, bits, n - 1) + if bits[n - 1] then info.PieceLen(n - 1) else 0
  }

  /** Complete pieces that all lie in a set `s` of tracked ones take no more bytes than `s`. */
  lemma {:induction false} CompleteBytesTracked(info: Info, bits: seq<bool>, n: nat, l: Lru, s: set<int>)
    requires info.pieceLength > 0 && n <= |bits| == info.NumPieces() && TrackerFits(info, l) && s <= l.entries.Keys
    requires forall p :: 0 <= p < |bits| && bits[p] ==> p in s
    ensures CompleteBytes(info, bits, n) <= Bytes(l.entries, set p | p in s && p < n)
  {
    if n > 0 {
      CompleteBytesTracked(info, bits, n - 1, l, s);
      var below := set p | p in s && p < n;
      var rest := set p | p in s && p < n - 1;
      if n - 1 in s {
        BytesPick(l.entries, below, n - 1);
        assert below - {n - 1} == rest;
      } else {
        assert below == rest;
      }
    }
  }

  lemma {:induction false} CompleteBytesTotal(info: Info, bits: seq<bool>, n: nat)
    requires info.pieceLength > 0 && n <= |bits| == info.NumPieces()
    ensures CompleteBytes(info, bits, n) <= if n == 0 then 0 else info.PieceEnd(n - 1)
  {
    if n > 0 {
      PieceShape(info, n - 1);
      CompleteBytesTotal(info, bits, n - 1);
      if n > 1 {
        PieceShape(info, n - 2);
      }
    }
  }

  /** For every positive budget, tracked or not, complete pieces never take more than the budget. */
  lemma DiskBound(info: Info, budget: int, c: Cache)
    requires Consistent(info, budget, c) && WithinBudget(c) && budget > 0
    ensures CompleteBytes(info, c.bits, |c.bits|) <= budget
  {
    if c.lru.Some? {
      var l := c.lru.value;
      CompleteBytesTracked(info, c.bits, |c.bits|, l, l.entries.Keys);
      assert (set p | p in l.entries.Keys && p < |c.bits|) == l.entries.Keys;
    } else {
      CompleteBytesTotal(info, c.bits, |c.bits|);
      if |c.bits| > 0 {
        PieceShape(info, |c.bits| - 1);
      }
    }
  }

  // ---- bytes of complete pieces ----

  /** An eviction disturbs no piece that is complete afterwards. */
  lemma EvictKeepsPiece(info: Info, c: Cache, p: nat, q: nat)
    requires Well(info, c) && p < |c.bits| && q < |c.bits| && c.lru.Some?
    requires Evict(info, c, p).bits[q]
    ensures c.bits[q] && PieceHolds(info, Evict(info, c, p).bytes, q, c.bytes)
  {
    forall x: nat | x < |c.bytes| && info.InPiece(q, x)
      ensures Evict(info, c, p).bytes[x] == c.bytes[x]
    {
      PieceOfByte(info, x, p);
      PieceOfByte(info, x, q);
    }
  }

  lemma {:induction false} EvictAllKeepsPiece(info: Info, c: Cache, ps: seq<int>, q: nat)
    requires Well(info, c) && PiecesOf(info, ps) && q < |c.bits| && c.lru.Some?
    requires EvictAll(info, c, ps).bits[q]
    ensures c.bits[q] && PieceHolds(info, EvictAll(info, c, ps).bytes, q, c.bytes)
    decreases ps
  {
    if ps != [] {
      assert info.ValidPiece(ps[0]);
      EvictAllKeepsPiece(info, Evict(info, c, ps[0]), ps[1..], q);
      EvictKeepsPiece(info, c, ps[0], q);
    }
  }

  /** No operation disturbs the bytes of a piece that is complete before and after it. */
  lemma StepKeepsPiece(info: Info, budget: int, c: Cache, op: Op, q: nat)
    requires Well(info, c) && Allowed(info, c, op) && q < |c.bits|
    requires Apply(info, budget, c, op).bits[q]
    requires op.Write? ==> c.bits[q]
    ensures PieceHolds(info, Apply(info, budget, c, op).bytes, q, c.bytes)
  {
    match op
    case Write(p, at, data) =>
      forall x: nat | x < |c.bytes| && info.InPiece(q, x)
        ensures Apply(info, budget, c, op).bytes[x] == c.bytes[x]
      {
        PieceOfByte(info, x, p);
        PieceOfByte(info, x, q);
      }
    case MarkComplete(p, now) =>
      if c.lru.Some? {
        var c2 := Tracked(info, Put(info, c, p, true), p, now);
        EvictAllKeepsPiece(info, c2, if p in c.lru.value.entries then [] else VictimsIn(info, c2), q);
      }
    case MarkNotComplete(p) =>
    case Read(p, now) =>
    case Sweep =>
      if c.lru.Some? { EvictAllKeepsPiece(info, c, VictimsIn(info, c), q); }
    case Scan =>
    case Reopen(visit, now, scanFirst) =>
      if EvictionEnabled(info, budget) {
        var c1 := Rebuilt(info, budget, Reloaded(info, c, scanFirst), visit, now);
        if c1.lru.value.used > budget { EvictAllKeepsPiece(info, c1, VictimsIn(info, c1), q); }
      }
  }

  // ---- soundness of published rows ----

  lemma EvictRowsSound(info: Info, c: Cache, p: nat)
    requires Well(info, c) && p < |c.bits| && c.lru.Some? && RowsSound(info, c)
    ensures RowsSound(info, Evict(info, c, p))
  {
    UncompleteKeepsMemo(info, c.bits, {}, p);
  }

  lemma {:induction false} EvictAllRowsSound(info: Info, c: Cache, ps: seq<int>)
    requires Well(info, c) && PiecesOf(info, ps) && c.lru.Some? && RowsSound(info, c)
    ensures RowsSound(info, EvictAll(info, c, ps))
    decreases ps
  {
    if ps != [] {
      assert info.ValidPiece(ps[0]);
      EvictRowsSound(info, c, ps[0]);
      EvictAllRowsSound(info, Evict(info, c, ps[0]), ps[1..]);
    }
  }

  lemma SweepRowsSound(info: Info, c: Cache)
    requires Well(info, c) && (c.lru.Some? ==> TrackerFits(info, c.lru.value)) && RowsSound(info, c)
    ensures RowsSound(info, AfterSweep(info, c))
  {
    if c.lru.Some? {
      EvictAllRowsSound(info, c, VictimsIn(info, c));
    }
  }

  /** The one operation with a guard: marking a piece incomplete, which withdraws nothing. */
  ghost predicate RowsGuard(info: Info, c: Cache, op: Op)
    requires info.pieceLength > 0
  {
    op.MarkNotComplete? ==> c.rows !! AffectedPaths(info, op.piece)
  }

  /** An operation keeps published rows sound exactly when its guard holds; all but
      `MarkNotComplete` need none. */
  lemma StepRowsSound(info: Info, budget: int, c: Cache, op: Op)
    requires Consistent(info, budget, c) && Allowed(info, c, op) && RowsSound(info, c)
    ensures RowsSound(info, Apply(info, budget, c, op)) <==> RowsGuard(info, c, op)
  {
    match op
    case Write(_, _, _) =>
    case MarkComplete(p, now) =>
      SetKeepsDone(info, c.bits, p);
      if c.lru.Some? {
        var c2 := Tracked(info, Put(info, c, p, true), p, now);
        EvictAllRowsSound(info, c2, if p in c.lru.value.entries then [] else VictimsIn(info, c2));
      }
    case MarkNotComplete(p) => MarkNotCompleteRows(info, c, p);
    case Read(_, _) =>
    case Sweep => SweepRowsSound(info, c);
    case Scan =>
    case Reopen(visit, now, scanFirst) =>
      if EvictionEnabled(info, budget) {
        SweepRowsSound(info, Rebuilt(info, budget, Reloaded(info, c, scanFirst), visit, now));
      }
  }

  lemma SetKeepsDone(info: Info, bits: seq<bool>, p: nat)
    requires info.pieceLength > 0 && p < |bits|
    ensures DoneSet(info, bits) <= DoneSet(info, bits[p := true])
  {
    forall f | 0 <= f < info.NumFiles() && FileDone(info, bits, f)
      ensures FileDone(info, bits[p := true], f)
    {
    }
  }

  /** `MarkNotComplete` keeps rows sound exactly when no published file depends on the piece. */
  lemma MarkNotCompleteRows(info: Info, c: Cache, p: nat)
    requires Well(info, c) && p < |c.bits| && RowsSound(info, c)
    ensures RowsSound(info, Put(info, c, p, false)) <==> c.rows !! AffectedPaths(info, p)
  {
    UncompleteKeepsMemo(info, c.bits, {}, p);
    var c' := Put(info, c, p, false);
    assert DoneSet(info, c'.bits) == DoneSet(info, c.bits) - AffectedPaths(info, p);
  }

  /** An eviction keeps rows sound exactly when no file of the piece stays published: always, unless
      a table access fails. */
  lemma EvictWithRows(info: Info, c: Cache, p: nat, db: Db)
    requires Well(info, c) && p < |c.bits| && c.lru.Some? && RowsSound(info, c)
    ensures RowsSound(info, EvictWith(info, c, p, db)) <==>
            db.closed || c.rows !! AffectedPaths(info, p) - Withdrawn(info, p, db.fault(p))
  {
    UncompleteKeepsMemo(info, c.bits, {}, p);
    AffectedListElems(info, info.NumFiles(), p);
    AffectedBounds(info, p);
    var c' := EvictWith(info, c, p, db);
    if !db.closed {
      assert DoneSet(info, c'.bits) == DoneSet(info, c.bits) - AffectedPaths(info, p);
    }
  }

  /** A published file of one piece, and the piece marked incomplete: the row stays. */
  lemma MarkNotCompleteLeavesRow()
    ensures var info := Info("f", 1, 1, []);
            var c := Cache([true], {}, map[0 := true], {"f"}, None, [7]);
            && Consistent(info, 0, c) && RowsSound(info, c) && Allowed(info, c, MarkNotComplete(0))
            && !RowsSound(info, Apply(info, 0, c, MarkNotComplete(0)))
  {
    var info := Info("f", 1, 1, []);
    var c := Cache([true], {}, map[0 := true], {"f"}, None, [7]);
    assert info.Lens() == [1];
    assert FileStart([1], 1) == 1;
    assert info.NumPieces() == 1;
    assert BitsOf(c.table, 1) == [true];
    PathInDoneSet(info, c.bits, 0);
    PathInAffected(info, 0, 0);
    MarkNotCompleteRows(info, c, 0);
  }

  // ---- published files hold the content ----

  /** A published file holds the torrent's content, byte for byte. */
  ghost predicate FileHolds(info: Info, bytes: seq<byte>, f: nat, content: seq<byte>)
    requires f < info.NumFiles() && |bytes| == |content| == info.Total()
  {
    forall x: nat :: x < |bytes| && info.InFile(f, x) ==> bytes[x] == content[x]
  }

  lemma DoneFileHolds(info: Info, c: Cache, content: seq<byte>, f: nat)
    requires Well(info, c) && Intact(info, c, content) && f < info.NumFiles() && FileDone(info, c.bits, f)
    ensures FileHolds(info, c.bytes, f, content)
  {
    forall x: nat | x < |c.bytes| && info.InFile(f, x)
      ensures c.bytes[x] == content[x]
    {
      var p := x / info.pieceLength;
      QuotientBounds(x, info.pieceLength);
      ValidPieceIff(info, p);
      PieceOfByte(info, x, p);
      SharedBytesAffect(info, f, p);
      assert c.bits[p];
    }
  }

  // ---- whole runs ----

  ghost predicate IsRun(info: Info, budget: int, cs: seq<Cache>, ops: seq<Op>) {
    && |cs| == |ops| + 1
    && forall k :: 0 <= k < |ops| ==>
         Well(info, cs[k]) && Allowed(info, cs[k], ops[k]) && cs[k + 1] == Apply(info, budget, cs[k], ops[k])
  }

  /** A torrent never seen before: empty tables and arbitrary bytes on disk. */
  ghost predicate NeverSeen(info: Info, c: Cache) {
    Well(info, c) && c.table == map[] && c.rows == {}
  }

  /** End-to-end disk bound: from the moment a torrent is opened, over any tables, every state of
      every run is consistent, tracks every complete piece when eviction is enabled, and keeps the
      bytes of complete pieces within the budget. */
  lemma {:induction false} RunDiskBound(info: Info, budget: int, cs: seq<Cache>, ops: seq<Op>, k: nat)
    requires IsRun(info, budget, cs, ops) && |ops| > 0 && ops[0].Reopen? && 1 <= k < |cs|
    ensures Consistent(info, budget, cs[k]) && WithinBudget(cs[k])
    ensures budget > 0 ==> CompleteBytes(info, cs[k].bits, |cs[k].bits|) <= budget
  {
    if k == 1 {
      ReopenConsistent(info, budget, cs[0], ops[0].visit, ops[0].now, ops[0].scanFirst);
    } else {
      RunDiskBound(info, budget, cs, ops, k - 1);
      StepConsistent(info, budget, cs[k - 1], ops[k - 1]);
    }
    if budget > 0 {
      DiskBound(info, budget, cs[k]);
    }
  }

  /** Piece `p` is complete in the states from `j` to `k`. */
  ghost predicate StaysComplete(info: Info, cs: seq<Cache>, p: nat, j: nat, k: nat)
    requires j <= k < |cs|
  {
    forall i :: j <= i <= k ==> Well(info, cs[i]) && p < |cs[i].bits| && cs[i].bits[p]
  }

  lemma PieceHoldsTrans(info: Info, a: seq<byte>, b: seq<byte>, c: seq<byte>, p: nat)
    requires info.pieceLength > 0 && |a| == |b| == |c|
    requires PieceHolds(info, a, p, b) && PieceHolds(info, b, p, c)
    ensures PieceHolds(info, a, p, c)
  {
  }

  /** A piece that has stayed complete since it was marked still holds the bytes it held then. */
  lemma {:induction false} StillHoldsItsBytes(info: Info, budget: int, cs: seq<Cache>, ops: seq<Op>, j: nat, k: nat, p: nat)
    requires IsRun(info, budget, cs, ops) && j <= k < |cs| && StaysComplete(info, cs, p, j, k)
    ensures Well(info, cs[k]) && Well(info, cs[j]) && PieceHolds(info, cs[k].bytes, p, cs[j].bytes)
  {
    assert Well(info, cs[k]) && Well(info, cs[j]);
    if j < k {
      assert StaysComplete(info, cs, p, j, k - 1);
      StillHoldsItsBytes(info, budget, cs, ops, j, k - 1, p);
      StepKeepsPiece(info, budget, cs[k - 1], ops[k - 1], p);
      PieceHoldsTrans(info, cs[k].bytes, cs[k - 1].bytes, cs[j].bytes, p);
    }
  }

  /** Pieces are marked complete only once their bytes have been verified against the content. */
  ghost predicate Verified(info: Info, c: Cache, op: Op, content: seq<byte>)
    requires info.pieceLength > 0 && |c.bytes| == |content|
  {
    op.MarkComplete? ==> PieceHolds(info, c.bytes, op.piece, content)
  }

  lemma StepIntact(info: Info, budget: int, c: Cache, op: Op, content: seq<byte>)
    requires Consistent(info, budget, c) && Allowed(info, c, op) && Intact(info, c, content) && Verified(info, c, op, content)
    ensures Intact(info, Apply(info, budget, c, op), content)
  {
    var c' := Apply(info, budget, c, op);
    forall q | 0 <= q < |c'.bits| && c'.bits[q]
      ensures PieceHolds(info, c'.bytes, q, content)
    {
      StepKeepsPiece(info, budget, c, op, q);
      StepMarks(info, budget, c, op, q);
    }
  }

  /** Only `MarkComplete` makes a piece complete. */
  lemma StepMarks(info: Info, budget: int, c: Cache, op: Op, q: nat)
    requires Consistent(info, budget, c) && Allowed(info, c, op) && q < |c.bits|
    requires Apply(info, budget, c, op).bits[q]
    ensures c.bits[q] || (op.MarkComplete? && op.piece == q)
  {
    match op
    case MarkComplete(p, now) =>
      if c.lru.Some? {
        var c2 := Tracked(info, Put(info, c, p, true), p, now);
        EvictAllKeepsPiece(info, c2, if p in c.lru.value.entries then [] else VictimsIn(info, c2), q);
      }
    case Sweep =>
      if c.lru.Some? { EvictAllKeepsPiece(info, c, VictimsIn(info, c), q); }
    case Reopen(visit, now, scanFirst) =>
      if EvictionEnabled(info, budget) {
        var c1 := Rebuilt(info, budget, Reloaded(info, c, scanFirst), visit, now);
        if c1.lru.value.used > budget { EvictAllKeepsPiece(info, c1, VictimsIn(info, c1), q); }
      }
    case _ =>
  }

  /** Data integrity: in every state of every run of a torrent opened for the first time, with
      verified completions and no piece of a published file marked incomplete, every complete piece
      and every published file holds exactly the torrent's content. */
  lemma {:induction false} RunIntegrity(info: Info, budget: int, cs: seq<Cache>, ops: seq<Op>, content: seq<byte>, k: nat)
    requires IsRun(info, budget, cs, ops) && |ops| > 0 && ops[0].Reopen? && NeverSeen(info, cs[0])
    requires |content| == info.Total() && 1 <= k < |cs|
    requires forall i :: 1 <= i < |ops| ==> RowsGuard(info, cs[i], ops[i]) && Verified(info, cs[i], ops[i], content)
    ensures Well(info, cs[k]) && Intact(info, cs[k], content) && RowsSound(info, cs[k])
    ensures forall f :: 0 <= f < info.NumFiles() && info.Path(f) in cs[k].rows ==> FileHolds(info, cs[k].bytes, f, content)
  {
    RunDiskBound(info, budget, cs, ops, k);
    if k == 1 {
      FirstOpen(info, budget, cs[0], ops[0], content);
    } else {
      RunIntegrity(info, budget, cs, ops, content, k - 1);
      RunDiskBound(info, budget, cs, ops, k - 1);
      StepIntact(info, budget, cs[k - 1], ops[k - 1], content);
      StepRowsSound(info, budget, cs[k - 1], ops[k - 1]);
    }
    forall f | 0 <= f < info.NumFiles() && info.Path(f) in cs[k].rows
      ensures FileHolds(info, cs[k].bytes, f, content)
    {
      PathInDoneSet(info, cs[k].bits, f);
      DoneFileHolds(info, cs[k], content, f);
    }
  }

  /** Opening a torrent never seen before finds nothing complete and publishes nothing untrue. */
  lemma FirstOpen(info: Info, budget: int, c: Cache, op: Op, content: seq<byte>)
    requires NeverSeen(info, c) && op.Reopen? && Allowed(info, c, op) && |content| == info.Total()
    ensures Intact(info, Apply(info, budget, c, op), content) && RowsSound(info, Apply(info, budget, c, op))
  {
    var c0 := c.(bits := BitsOf(c.table, info.NumPieces()), memo := {}, lru := None);
    var c1 := Reloaded(info, c, op.scanFirst);
    assert RowsSound(info, c1);
    if EvictionEnabled(info, budget) {
      var c2 := Rebuilt(info, budget, c1, op.visit, op.now);
      SweepRowsSound(info, c2);
      forall q | 0 <= q < |c2.bits|
        ensures !AfterSweep(info, c2).bits[q]
      {
        if c2.lru.value.used > budget && AfterSweep(info, c2).bits[q] {
          EvictAllKeepsPiece(info, c2, VictimsIn(info, c2), q);
        }
      }
    }
  }
}
