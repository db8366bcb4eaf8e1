/** The recency list of the cache against the run that led to it: reading a piece or marking it complete
    counts as a use, and the piece used later outlives the one used earlier. */
module UseOrder {
  import opened Geometry
  import opened Collections
  import opened LruSpec
  import opened CacheModel
  import opened Runs
  import opened Survival
  import opened Effects

  /** Piece `p` is tracked. */
  ghost predicate IsTracked(c: Cache, p: int) {
    c.lru.Some? && p in c.lru.value.entries
  }

  lemma FrontIsBefore(l: Lru, p: int, q: int)
    requires l.Valid() && l.order != [] && l.order[0] == p && q in l.entries && q != p
    ensures Before(l.order, p, q)
  {
    assert q in Elems(l.order);
    var b :| 0 <= b < |l.order| && l.order[b] == q;
  }

  /** `p` is before `q`, if both are tracked. */
  ghost predicate InOrder(c: Cache, p: int, q: int) {
    IsTracked(c, p) && IsTracked(c, q) ==> Before(c.lru.value.order, p, q)
  }

  /** Reading a piece and marking it complete are its uses. */
  ghost predicate Uses(op: Op, p: int) {
    (op.Read? || op.MarkComplete?) && op.piece == p
  }

  lemma EvictedKeepsOrder(info: Info, c: Cache, r: Cache, gone: set<int>, p: nat, q: nat)
    requires Well(info, c) && Well(info, r) && c.lru.Some? && r.lru.Some? && Evicted(info, c, r, gone)
    requires InOrder(c, p, q)
    ensures InOrder(r, p, q)
  {
  }

  lemma FrontKeepsOrder(c: Cache, r: Cache, x: nat, size: nat, now: int, p: nat, q: nat)
    requires c.lru.Some? && r.lru.Some? && r.lru.value.Valid() && p != q && x != q
    requires InFront(c.lru.value, r.lru.value, x, size, now) && (x == p || InOrder(c, p, q))
    ensures InOrder(r, p, q)
  {
    if x == p && IsTracked(r, q) {
      FrontIsBefore(r.lru.value, p, q);
    }
    if x != p && IsTracked(r, p) && IsTracked(r, q) {
      assert p in r.lru.value.entries - {x as int} && q in r.lru.value.entries - {x as int};
    }
  }

  lemma CompletingKeepsOrder(info: Info, budget: int, c: Cache, x: nat, now: int, p: nat, q: nat)
    requires Well(info, c) && Allowed(info, c, MarkComplete(x, now)) && p != q && x != q && (x == p || InOrder(c, p, q))
    ensures InOrder(Apply(info, budget, c, MarkComplete(x, now)), p, q)
  {
    var mid, gone := MarkCompleteExactly(info, budget, c, x, now);
    if c.lru.Some? {
      FrontKeepsOrder(c, mid, x, mid.lru.value.entries[x].size, now, p, q);
      EvictedKeepsOrder(info, mid, Apply(info, budget, c, MarkComplete(x, now)), gone, p, q);
    }
  }

  lemma ReadingKeepsOrder(info: Info, budget: int, c: Cache, x: nat, now: int, p: nat, q: nat)
    requires Well(info, c) && x < |c.bits| && p != q && x != q && (x == p || InOrder(c, p, q))
    ensures InOrder(Apply(info, budget, c, Read(x, now)), p, q)
  {
    ReadExactly(info, budget, c, x, now);
    if IsTracked(c, x) {
      FrontKeepsOrder(c, Apply(info, budget, c, Read(x, now)), x, c.lru.value.entries[x].size, now, p, q);
    }
  }

  /** One operation that does not use `q`: afterwards `p` is before `q` if it was before or is used now. */
  lemma StepKeepsOrder(info: Info, budget: int, c: Cache, op: Op, p: nat, q: nat)
    requires Well(info, c) && Allowed(info, c, op) && !op.Reopen? && p != q && !Uses(op, q)
    requires Uses(op, p) || InOrder(c, p, q)
    ensures InOrder(Apply(info, budget, c, op), p, q)
  {
    match op
    case Read(x, now) => ReadingKeepsOrder(info, budget, c, x, now, p, q);
    case MarkComplete(x, now) => CompletingKeepsOrder(info, budget, c, x, now, p, q);
    case Sweep =>
      if c.lru.Some? {
        var gone := SweepExactly(info, c);
        EvictedKeepsOrder(info, c, AfterSweep(info, c), gone, p, q);
      }
    case _ =>
  }

  lemma StepOfRunKeepsOrder(info: Info, budget: int, cs: seq<Cache>, ops: seq<Op>, k: nat, p: nat, q: nat)
    requires IsRun(info, budget, cs, ops) && k < |ops| && !ops[k].Reopen? && p != q && !Uses(ops[k], q)
    requires Uses(ops[k], p) || InOrder(cs[k], p, q)
    ensures InOrder(cs[k + 1], p, q)
  {
    StepKeepsOrder(info, budget, cs[k], ops[k], p, q);
  }

  ghost predicate Spares(op: Op, q: int) {
    !op.Reopen? && !Uses(op, q)
  }

  lemma {:induction false} RunKeepsOrder(info: Info, budget: int, cs: seq<Cache>, ops: seq<Op>, j: nat, k: nat, p: nat, q: nat)
    requires IsRun(info, budget, cs, ops) && j < k < |cs| && p != q && Uses(ops[j], p)
    requires forall i :: j <= i < k ==> Spares(ops[i], q)
    ensures InOrder(cs[k], p, q)
  {
    if j < k - 1 {
      RunKeepsOrder(info, budget, cs, ops, j, k - 1, p, q);
    }
    StepOfRunKeepsOrder(info, budget, cs, ops, k - 1, p, q);
  }

  /** Of two tracked pieces the one used later is nearer the front of the list. */
  lemma UsedLaterIsNearer(info: Info, budget: int, cs: seq<Cache>, ops: seq<Op>, j: nat, k: nat, p: nat, q: nat)
    requires IsRun(info, budget, cs, ops) && j < k < |cs| && p != q
    requires (ops[j].Read? || ops[j].MarkComplete?) && ops[j].piece == p
    requires forall i :: j <= i < k ==>
               !ops[i].Reopen? && (ops[i].Read? || ops[i].MarkComplete? ==> ops[i].piece != q)
    ensures cs[k].lru.Some? && p in cs[k].lru.value.entries && q in cs[k].lru.value.entries ==>
              Before(cs[k].lru.value.order, p, q)
  {
    RunKeepsOrder(info, budget, cs, ops, j, k, p, q);
  }

  // ---- stamps ----

  ghost predicate Stamped(c: Cache, p: int, stamp: int) {
    IsTracked(c, p) ==> c.lru.value.entries[p].lastAccess == stamp
  }

  lemma FrontKeepsStamp(c: Cache, r: Cache, x: nat, size: nat, now: int, p: nat, stamp: int)
    requires c.lru.Some? && r.lru.Some? && InFront(c.lru.value, r.lru.value, x, size, now)
    requires if x == p then now == stamp else Stamped(c, p, stamp)
    ensures Stamped(r, p, stamp)
  {
    assert x != p && IsTracked(r, p) ==> p in r.lru.value.entries - {x as int};
  }

  lemma StepKeepsStamp(info: Info, budget: int, c: Cache, op: Op, p: nat, stamp: int)
    requires Well(info, c) && Allowed(info, c, op) && !op.Reopen?
    requires if Uses(op, p) then op.now == stamp else Stamped(c, p, stamp)
    ensures Stamped(Apply(info, budget, c, op), p, stamp)
  {
    match op
    case Read(x, now) =>
      ReadExactly(info, budget, c, x, now);
      if IsTracked(c, x) {
        FrontKeepsStamp(c, Apply(info, budget, c, op), x, c.lru.value.entries[x].size, now, p, stamp);
      }
    case MarkComplete(x, now) =>
      var mid, gone := MarkCompleteExactly(info, budget, c, x, now);
      if c.lru.Some? {
        FrontKeepsStamp(c, mid, x, mid.lru.value.entries[x].size, now, p, stamp);
      }
    case Sweep =>
      if c.lru.Some? {
        var gone := SweepExactly(info, c);
      }
    case _ =>
  }

  lemma StepOfRunKeepsStamp(info: Info, budget: int, cs: seq<Cache>, ops: seq<Op>, k: nat, p: nat, stamp: int)
    requires IsRun(info, budget, cs, ops) && k < |ops| && !ops[k].Reopen?
    requires if Uses(ops[k], p) then ops[k].now == stamp else Stamped(cs[k], p, stamp)
    ensures Stamped(cs[k + 1], p, stamp)
  {
    StepKeepsStamp(info, budget, cs[k], ops[k], p, stamp);
  }

  /** A tracked piece bears the time of its last use. */
  lemma {:induction false} StampIsLastUse(info: Info, budget: int, cs: seq<Cache>, ops: seq<Op>, j: nat, k: nat, p: nat)
    requires IsRun(info, budget, cs, ops) && j < k < |cs|
    requires (ops[j].Read? || ops[j].MarkComplete?) && ops[j].piece == p
    requires forall i :: j <= i < k ==>
               !ops[i].Reopen? && (i > j && (ops[i].Read? || ops[i].MarkComplete?) ==> ops[i].piece != p)
    ensures cs[k].lru.Some? && p in cs[k].lru.value.entries ==> cs[k].lru.value.entries[p].lastAccess == ops[j].now
  {
    if j < k - 1 {
      StampIsLastUse(info, budget, cs, ops, j, k - 1, p);
    }
    StepOfRunKeepsStamp(info, budget, cs, ops, k - 1, p, ops[j].now);
  }

  // ---- so the piece used later outlives the one used earlier ----

  /** Memoised files apart, a piece used later is evicted only together with those used earlier. */
  lemma UsedLaterOutlives(info: Info, budget: int, cs: seq<Cache>, ops: seq<Op>, j: nat, k: nat, p: nat, q: nat)
    requires IsRun(info, budget, cs, ops) && j < k < |cs| && p != q
    requires (ops[j].Read? || ops[j].MarkComplete?) && ops[j].piece == p
    requires forall i :: j <= i < k ==>
               !ops[i].Reopen? && (ops[i].Read? || ops[i].MarkComplete? ==> ops[i].piece != q)
    requires Well(info, cs[k]) && cs[k].lru.Some? && TrackerFits(info, cs[k].lru.value) && q in cs[k].lru.value.entries
    requires (exists f :: 0 <= f < info.NumFiles() && info.Affects(f, p) && info.Path(f) in cs[k].memo) <==>
             (exists f :: 0 <= f < info.NumFiles() && info.Affects(f, q) && info.Path(f) in cs[k].memo)
    ensures p in VictimsIn(info, cs[k]) ==> q in VictimsIn(info, cs[k])
  {
    if p in VictimsIn(info, cs[k]) {
      assert p as int in Elems(VictimsIn(info, cs[k]));
      UsedLaterIsNearer(info, budget, cs, ops, j, k, p, q);
      LessRecentlyUsedGoFirst(info, cs[k], p, q);
    }
  }
}
