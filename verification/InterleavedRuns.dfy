/** Whole interleaved runs: where they start, how they reach and keep the budget, and how they relate to
    atomic operations. */
module InterleavedRuns {
  import opened Geometry
  import opened HolePunch
  import opened Collections
  import opened LruSpec
  import opened Completion
  import opened CacheModel
  import opened Runs
  import opened Interleaving
  import opened Publication
  import opened Integrity
  import opened Tracking

  // ---- where runs start ----

  /** An atomic state with eviction enabled, seen as the start of an interleaved run. */
  ghost function Opened(c: Cache): State
    requires c.lru.Some?
  {
    State(c.bits, c.rows, c.lru.value, map[], map[], Waiting, {}, c.bytes)
  }

  lemma OpenedIsTracked(info: Info, budget: int, c: Cache)
    requires Consistent(info, budget, c) && c.lru.Some?
    ensures TrackSafe(info, Opened(c))
    ensures WithinBudget(c) ==> BudgetInv(info, Opened(c))
  {
    var s := Opened(c);
    assert Outstanding(s.jobs) == {};
    assert Settled(s) == s.lru.entries.Keys;
  }

  lemma OpenedIsIntact(info: Info, budget: int, c: Cache, content: seq<byte>)
    requires Consistent(info, budget, c) && c.lru.Some? && |content| == info.Total()
    requires RowsSound(info, c) && Intact(info, c, content)
    ensures PublishedInv(info, Opened(c)) && SafeInv(info, Opened(c), content)
  {
    var s := Opened(c);
    forall f, p | 0 <= f < info.NumFiles() && info.Path(f) in s.rows && 0 <= p < |s.bits| && info.Affects(f, p)
      ensures s.bits[p]
    {
      PathInDoneSet(info, s.bits, f);
    }
    forall f | 0 <= f < info.NumFiles() && info.Path(f) in s.rows
      ensures FileHolds(info, s.bytes, f, content)
    {
      PathInDoneSet(info, s.bits, f);
      DoneFileHolds(info, c, content, f);
    }
  }

  /** Where a session starts: the tracker has been rebuilt from the table, and neither the opening
      eviction nor the first scan round has begun.  Both are steps of the run. */
  ghost function Resumed(info: Info, budget: int, c: Cache, visit: seq<int>, now: int): (r: Cache)
    requires Well(info, c) && Visits(visit, CompletePieces(info, c.table))
    ensures r.lru.Some?
  {
    Rebuilt(info, budget, Reloaded(info, c, false), visit, now)
  }

  /** Over any tables and files the tracker then knows every complete piece; with the counter within
      budget the budget invariant holds too (otherwise from the opening eviction on, as
      `RunReachesBudget` says); and of a torrent whose rows and complete pieces are sound all other
      invariants hold as well. */
  lemma ResumedIsGood(info: Info, budget: int, c: Cache, visit: seq<int>, now: int, content: seq<byte>)
    requires Well(info, c) && Visits(visit, CompletePieces(info, c.table)) && EvictionEnabled(info, budget)
    ensures var r := Resumed(info, budget, c, visit, now);
            && TrackSafe(info, Opened(r))
            && (r.lru.value.used <= budget ==> BudgetInv(info, Opened(r)))
            && (RowsSound(info, r) && Intact(info, r, content) ==>
                  PublishedInv(info, Opened(r)) && SafeInv(info, Opened(r), content))
  {
    var r := Resumed(info, budget, c, visit, now);
    RebuiltConsistent(info, budget, c, visit, now, false);
    OpenedIsTracked(info, budget, r);
    if RowsSound(info, r) && Intact(info, r, content) {
      OpenedIsIntact(info, budget, r, content);
    }
  }

  // ---- what runs keep ----

  /** Interleaved budget safety: once the invariant holds, in every later state of the run `used` less
      the bytes of tracked pieces some list still names (or an eviction gave up on) is within budget;
      and when no list is outstanding and none was given up, so is `used`. */
  lemma {:induction false} RunKeepsBudget(info: Info, ss: seq<State>, steps: seq<Step>, j: nat, k: nat)
    requires IsTrace(info, ss, steps) && j <= k < |ss| && BudgetInv(info, ss[j])
    ensures BudgetInv(info, ss[k])
    ensures var s := ss[k];
            && s.lru.used - Bytes(s.lru.entries, s.lru.entries.Keys * (Outstanding(s.jobs) + s.failed)) <= s.lru.budget
            && (s.jobs == map[] && s.failed == {} ==> s.lru.used <= s.lru.budget)
  {
    if k > j {
      RunKeepsBudget(info, ss, steps, j, k - 1);
      assert IsStep(info, ss, steps, k - 1);
      StepKeepsBudget(info, ss[k - 1], steps[k - 1]);
    }
    UsedLessOutstanding(info, ss[k]);
    if ss[k].jobs == map[] && ss[k].failed == {} {
      QuietMeansWithinBudget(info, ss[k]);
    }
  }

  /** It holds from the first choice of victims on, whatever state the run started in. */
  lemma RunReachesBudget(info: Info, ss: seq<State>, steps: seq<Step>, m: nat, k: nat)
    requires IsTrace(info, ss, steps) && m < k < |ss| && steps[m].ChooseVictims?
    ensures BudgetInv(info, ss[k])
  {
    assert IsStep(info, ss, steps, m);
    ChooseEstablishes(info, ss[m], steps[m].thread, steps[m].prot);
    RunKeepsBudget(info, ss, steps, m + 1, k);
  }

  /** Where rows are accounted for, a write meets its guard unless an eviction has just cleared the
      piece: no published file has bytes in it. */
  lemma WritingIsSafeUnlessCleared(info: Info, s: State, p: nat, at: nat, data: seq<byte>, content: seq<byte>)
    requires PublishedInv(info, s) && |content| == info.Total() && Enabled(info, s, WriteBytes(p, at, data))
    requires !ClearedBy(s, p)
    ensures IntactGuard(info, s, WriteBytes(p, at, data), content)
  {
    forall f, x | 0 <= f < info.NumFiles() && info.Path(f) in s.rows && at <= x < at + |data|
      ensures !info.InFile(f, x)
    {
      assert Accounted(info, s, f) && info.InPiece(p, x);
      if info.InFile(f, x) {
        SharedBytesAffect(info, f, p);
      }
    }
  }

  // ---- atomic operations are runs nobody gets in the way of ----

  /** The atomic state and the interleaved one agree on what both have. */
  ghost predicate Matches(c: Cache, s: State) {
    c == c.(lru := Some(s.lru), bits := s.bits, rows := s.rows, bytes := s.bytes)
  }

  /** Nothing is going on. */
  ghost predicate Quiet(s: State) {
    s == s.(jobs := map[], adding := map[], failed := {})
  }

  lemma TwoSteps(info: Info, s: State, step: Step, step': Step) returns (ss: seq<State>, steps: seq<Step>)
    requires WellState(info, s) && Enabled(info, s, step)
    requires WellState(info, Next(info, s, step)) && Enabled(info, Next(info, s, step), step')
    ensures steps == [step, step'] && IsTrace(info, ss, steps)
    ensures ss[0] == s && ss[2] == Next(info, Next(info, s, step), step')
  {
    var s1 := Next(info, s, step);
    ss, steps := TraceCons(info, s1, step', [Next(info, s1, step')], []);
    ss, steps := TraceCons(info, s, step, ss, steps);
  }

  /** The first half of an eviction: the piece is cleared and its files withdrawn. */
  lemma Withdraw(info: Info, s: State, t: nat) returns (ss: seq<State>, steps: seq<Step>)
    requires WellState(info, s) && AtPhase(s, t, Pending)
    ensures steps == [Clear(t), Unpublish(t)] && IsTrace(info, ss, steps) && ss[0] == s && WellState(info, ss[2])
    ensures var p := Head(info, s, t);
            ss[2] == s.(bits := s.bits[p := false], rows := s.rows - AffectedPaths(info, p),
                        jobs := s.jobs[t := Job(s.jobs[t].todo, Punching(info.PieceStart(p)), false)])
  {
    NextWell(info, s, Clear(t));
    var s1 := Next(info, s, Clear(t));
    NextWell(info, s1, Unpublish(t));
    ss, steps := TwoSteps(info, s, Clear(t), Unpublish(t));
  }

  lemma AdvanceRephased(jobs: map<nat, Job>, t: nat, job: Job)
    requires t in jobs && jobs[t].todo != [] && job.todo == jobs[t].todo
    ensures Advance(jobs[t := job], t) == Advance(jobs, t)
  {
    if |jobs[t].todo| == 1 {
      assert jobs[t := job] - {t} == jobs - {t};
    }
  }

  /** The second half: all bytes are punched, the piece is no longer tracked. */
  lemma Destroy(info: Info, s: State, t: nat) returns (ss: seq<State>, steps: seq<Step>)
    requires WellState(info, s) && t in s.jobs && s.jobs[t].phase == Punching(info.PieceStart(Head(info, s, t)))
    ensures 0 < info.PieceLen(Head(info, s, t)) && info.PieceEnd(Head(info, s, t)) <= |s.bytes|
    ensures steps == [Punch(t, info.PieceLen(Head(info, s, t))), Untrack(t)]
    ensures IsTrace(info, ss, steps) && ss[0] == s && WellState(info, ss[2])
    ensures var p := Head(info, s, t);
            ss[2] == s.(bytes := Zeroed(s.bytes, info.PieceStart(p), info.PieceEnd(p)),
                        lru := Removed(s.lru, p), jobs := Advance(s.jobs, t))
  {
    var p := Head(info, s, t);
    PieceShape(info, p);
    var step := Punch(t, info.PieceLen(p));
    NextWell(info, s, step);
    var s1 := Next(info, s, step);
    NextWell(info, s1, Untrack(t));
    AdvanceRephased(s.jobs, t, s1.jobs[t]);
    ss, steps := TwoSteps(info, s, step, Untrack(t));
  }

  /** An eviction nobody gets in the way of is the atomic one. */
  lemma UndisturbedEviction(info: Info, s: State, t: nat, c: Cache) returns (ss: seq<State>, steps: seq<Step>)
    requires WellState(info, s) && AtPhase(s, t, Pending) && Well(info, c) && Matches(c, s)
    ensures 0 < info.PieceLen(Head(info, s, t))
    ensures steps == [Clear(t), Unpublish(t), Punch(t, info.PieceLen(Head(info, s, t))), Untrack(t)]
    ensures IsTrace(info, ss, steps) && ss[0] == s && WellState(info, ss[4])
    ensures Matches(Evict(info, c, Head(info, s, t)), ss[4])
    ensures ss[4] == ss[4].(jobs := Advance(s.jobs, t), failed := s.failed, adding := s.adding)
  {
    var ss1, steps1 := Withdraw(info, s, t);
    var ss2, steps2 := Destroy(info, ss1[2], t);
    TraceAppend(info, ss1, steps1, ss2, steps2);
    ss, steps := ss1 + ss2[1..], steps1 + steps2;
    AdvanceRephased(s.jobs, t, ss1[2].jobs[t]);
  }

  lemma AdvanceShape(jobs: map<nat, Job>, t: nat)
    requires t in jobs && jobs[t].todo != []
    ensures Advance(jobs, t) - {t} == jobs - {t}
    ensures if |jobs[t].todo| == 1 then Advance(jobs, t) == jobs - {t} && jobs[t].todo[1..] == []
            else t in Advance(jobs, t) && Advance(jobs, t)[t] == Job(jobs[t].todo[1..], Pending, false)
  {
  }

  /** The steps of thread `t` evicting the pieces of a list in turn, each in one punch. */
  ghost function EvictionSteps(info: Info, t: nat, ps: seq<int>): seq<Step>
    requires PiecesFit(info, ps)
  {
    if ps == [] then []
    else
      assert info.ValidPiece(ps[0]);
      PieceShape(info, ps[0]);
      [Clear(t), Unpublish(t), Punch(t, info.PieceLen(ps[0])), Untrack(t)] + EvictionSteps(info, t, ps[1..])
  }

  ghost predicate PiecesFit(info: Info, ps: seq<int>) {
    info.pieceLength > 0 && PiecesOf(info, ps)
  }

  /** A thread left alone carries out its list as the atomic evictions, one after another. */
  lemma {:induction false} UndisturbedList(info: Info, s: State, t: nat, c: Cache) returns (ss: seq<State>, steps: seq<Step>)
    requires WellState(info, s) && AtPhase(s, t, Pending) && Well(info, c) && Matches(c, s)
    ensures PiecesFit(info, s.jobs[t].todo) && steps == EvictionSteps(info, t, s.jobs[t].todo)
    ensures IsTrace(info, ss, steps) && ss[0] == s
    ensures var s' := ss[|steps|]; s' == s'.(jobs := s.jobs - {t}, failed := s.failed, adding := s.adding)
    ensures Matches(EvictAll(info, c, s.jobs[t].todo), ss[|steps|])
    decreases |s.jobs[t].todo|
  {
    var p := Head(info, s, t);
    ss, steps := UndisturbedEviction(info, s, t, c);
    var s4 := ss[4];
    AdvanceShape(s.jobs, t);
    if |s.jobs[t].todo| > 1 {
      var ss', steps' := UndisturbedList(info, s4, t, Evict(info, c, p));
      TraceAppend(info, ss, steps, ss', steps');
      ss, steps := ss + ss'[1..], steps + steps';
    }
  }

  /** Thread `t` has this list to carry out, if it is not empty, and nothing else is going on. */
  ghost predicate OnlyList(s: State, t: nat, ps: seq<int>) {
    s == s.(jobs := Start(map[], t, ps), adding := map[], failed := {})
  }

  lemma UndisturbedRest(info: Info, s: State, t: nat, c: Cache, ps: seq<int>) returns (ss: seq<State>, steps: seq<Step>)
    requires WellState(info, s) && OnlyList(s, t, ps) && Well(info, c) && Matches(c, s) && PiecesFit(info, ps)
    ensures steps == EvictionSteps(info, t, ps) && IsTrace(info, ss, steps) && ss[0] == s
    ensures Quiet(ss[|steps|]) && Matches(EvictAll(info, c, ps), ss[|steps|])
  {
    if ps == [] {
      ss, steps := [s], [];
    } else {
      ss, steps := UndisturbedList(info, s, t, c);
      assert s.jobs - {t} == map[];
    }
  }

  /** The two steps of `MarkComplete` that come before its evictions. */
  lemma MarkAndAdd(info: Info, s: State, c: Cache, p: nat, now: int, t: nat) returns (ss: seq<State>, steps: seq<Step>)
    requires WellState(info, s) && Quiet(s) && p < |s.bits|
    requires Well(info, c) && Matches(c, s)
    ensures steps == [SetComplete(t, p), AddPiece(t, now, ProtectedIn(info, Tracked(info, Put(info, c, p, true), p, now)))]
    ensures IsTrace(info, ss, steps) && ss[0] == s && WellState(info, ss[2])
    ensures var c2 := Tracked(info, Put(info, c, p, true), p, now);
            Matches(c2, ss[2]) && OnlyList(ss[2], t, if p in c.lru.value.entries then [] else VictimsIn(info, c2))
  {
    var c2 := Tracked(info, Put(info, c, p, true), p, now);
    var prot := ProtectedIn(info, c2);
    var s1 := Next(info, s, SetComplete(t, p));
    NextWell(info, s, SetComplete(t, p));
    assert s1.jobs == map[];
    NextWell(info, s1, AddPiece(t, now, prot));
    assert s1.adding - {t} == map[];
    ss, steps := TwoSteps(info, s, SetComplete(t, p), AddPiece(t, now, prot));
  }

  /** So an atomic `MarkComplete` in a quiet state is one of the interleaved runs. */
  lemma UndisturbedMarkComplete(info: Info, s: State, c: Cache, p: nat, now: int, t: nat)
    returns (ss: seq<State>, steps: seq<Step>)
    requires WellState(info, s) && Quiet(s) && p < |s.bits|
    requires Well(info, c) && Matches(c, s)
    ensures IsTrace(info, ss, steps) && ss[0] == s
    ensures Quiet(ss[|steps|])
    ensures Matches(AfterMarkComplete(info, c, p, now), ss[|steps|])
    ensures var c2 := Tracked(info, Put(info, c, p, true), p, now);
            steps == [SetComplete(t, p), AddPiece(t, now, ProtectedIn(info, c2))]
                     + EvictionSteps(info, t, if p in c.lru.value.entries then [] else VictimsIn(info, c2))
  {
    var c2 := Tracked(info, Put(info, c, p, true), p, now);
    ss, steps := MarkAndAdd(info, s, c, p, now, t);
    var ss', steps' := UndisturbedRest(info, ss[2], t, c2, if p in c.lru.value.entries then [] else VictimsIn(info, c2));
    TraceAppend(info, ss, steps, ss', steps');
    ss, steps := ss + ss'[1..], steps + steps';
  }

  /** The operations that are a single step. */
  lemma UndisturbedStep(info: Info, s: State, c: Cache, op: Op, budget: int)
    requires WellState(info, s) && Well(info, c) && Matches(c, s) && Allowed(info, c, op)
    ensures op.Read? ==> Matches(Apply(info, budget, c, op), Next(info, s, Touch(op.piece, op.now)))
    ensures op.Write? ==> Matches(Apply(info, budget, c, op), Next(info, s, WriteBytes(op.piece, op.at, op.data)))
    ensures op.MarkNotComplete? ==> Matches(Apply(info, budget, c, op), Next(info, s, SetIncomplete(op.piece)))
    ensures op.Scan? && s.scan == Waiting ==> Matches(Apply(info, budget, c, op), Next(info, s, Publish))
  {
  }

  /** An eviction that fails to write the table is a step, too: it gives up with the piece forgotten, or
      not even that if the database is closed. */
  lemma FailedEvictionGivesUp(info: Info, s: State, t: nat, c: Cache, db: Db)
    requires WellState(info, s) && AtPhase(s, t, Pending) && Well(info, c) && Matches(c, s)
    requires db.closed || db.fault(Head(info, s, t)) == SetFails
    ensures Matches(EvictWith(info, c, Head(info, s, t), db), Next(info, s, GiveUp(t, !db.closed)))
  {
  }

  /** The opening eviction of a thread left alone. */
  lemma UndisturbedSweep(info: Info, s: State, t: nat, c: Cache) returns (ss: seq<State>, steps: seq<Step>)
    requires WellState(info, s) && Quiet(s)
    requires Well(info, c) && Matches(c, s)
    ensures IsTrace(info, ss, steps) && ss[0] == s
    ensures Matches(AfterSweep(info, c), ss[|steps|])
    ensures Quiet(ss[|steps|])
    ensures steps == if s.lru.used > s.lru.budget
                     then [ChooseVictims(t, ProtectedIn(info, c))] + EvictionSteps(info, t, VictimsIn(info, c)) else []
  {
    ss, steps := [s], [];
    if s.lru.used > s.lru.budget {
      ss, steps := UndisturbedChoice(info, s, t, c, VictimsIn(info, c));
    }
  }

  lemma UndisturbedChoice(info: Info, s: State, t: nat, c: Cache, ps: seq<int>) returns (ss: seq<State>, steps: seq<Step>)
    requires WellState(info, s) && Quiet(s)
    requires Well(info, c) && Matches(c, s) && ps == VictimsIn(info, c)
    ensures IsTrace(info, ss, steps) && ss[0] == s
    ensures Quiet(ss[|steps|]) && Matches(EvictAll(info, c, ps), ss[|steps|])
    ensures steps == [ChooseVictims(t, ProtectedIn(info, c))] + EvictionSteps(info, t, ps)
  {
    ss, steps := ChooseAll(info, s, t, c);
    var ss', steps' := UndisturbedRest(info, ss[1], t, c, ps);
    TraceAppend(info, ss, steps, ss', steps');
    ss, steps := ss + ss'[1..], steps + steps';
  }

  lemma ChooseAll(info: Info, s: State, t: nat, c: Cache) returns (ss: seq<State>, steps: seq<Step>)
    requires WellState(info, s) && Quiet(s)
    requires Well(info, c) && Matches(c, s)
    ensures steps == [ChooseVictims(t, ProtectedIn(info, c))]
    ensures IsTrace(info, ss, steps) && ss[0] == s && WellState(info, ss[1])
    ensures OnlyList(ss[1], t, VictimsIn(info, c)) && Matches(c, ss[1])
  {
    var step := ChooseVictims(t, ProtectedIn(info, c));
    NextWell(info, s, step);
    ss, steps := TraceCons(info, s, step, [Next(info, s, step)], []);
  }

  /** And so is opening over existing tables, with or without an early scan round. */
  lemma UndisturbedOpening(info: Info, budget: int, c: Cache, visit: seq<int>, now: int, scanFirst: bool, t: nat)
    returns (ss: seq<State>, steps: seq<Step>)
    requires Well(info, c) && Visits(visit, CompletePieces(info, c.table)) && EvictionEnabled(info, budget)
    ensures IsTrace(info, ss, steps) && ss[0] == Opened(Resumed(info, budget, c, visit, now))
    ensures Matches(AfterReopen(info, budget, c, visit, now, scanFirst), ss[|steps|])
    ensures Quiet(ss[|steps|])
  {
    var s := Opened(Resumed(info, budget, c, visit, now));
    RebuiltConsistent(info, budget, c, visit, now, false);
    RebuiltConsistent(info, budget, c, visit, now, scanFirst);
    if scanFirst {
      NextWell(info, s, Publish);
      ss, steps := UndisturbedSweep(info, Next(info, s, Publish), t, Rebuilt(info, budget, Reloaded(info, c, true), visit, now));
      ss, steps := TraceCons(info, s, Publish, ss, steps);
    } else {
      ss, steps := UndisturbedSweep(info, s, t, Resumed(info, budget, c, visit, now));
    }
  }
}
