/** The cache with its operations split into the steps other threads can get between.  Victims are
    chosen under the tracker's lock but evicted outside it, each eviction in several steps, so lists
    may overlap, pieces may be added back meanwhile, and scans may publish in between. */
module Interleaving {
  import opened Geometry
  import opened HolePunch
  import opened Collections
  import opened LruSpec
  import opened VictimSelection
  import opened Completion
  import opened CacheModel

  /** How far the eviction of the first piece of a list has got.  While punching, bytes from the
      piece's start up to `at` have been zeroed. */
  datatype Phase = Pending | Cleared | Punching(at: nat) | Punched

  /** A thread carrying out a list of victims.  `again` records that the piece being evicted has been
      marked complete since the eviction cleared it. */
  datatype Job = Job(todo: seq<int>, phase: Phase, again: bool)

  /** The background scan: between rounds, in a round with these files found complete and yet to be
      published, or over for good. */
  datatype Scan = Waiting | Publishing(paths: set<string>) | Ended

  /** `adding` holds the threads half-way through `MarkComplete`, with their pieces; `failed` the pieces
      whose eviction gave up since victims were last chosen. */
  datatype State = State(bits: seq<bool>, rows: set<string>, lru: Lru, jobs: map<nat, Job>, adding: map<nat, nat>,
                         scan: Scan, failed: set<int>, bytes: seq<byte>)

  datatype Step =
    | SetComplete(thread: nat, piece: nat)                 // MarkComplete, first half
    | AddPiece(thread: nat, now: int, prot: set<int>)      // MarkComplete, second half, under the lock
    | ChooseVictims(thread: nat, prot: set<int>)           // the sweep, under the lock
    | Touch(piece: nat, now: int)
    | Clear(thread: nat)                                   // the eviction's own steps
    | GiveUp(thread: nat, cleared: bool)
    | Unpublish(thread: nat)
    | Punch(thread: nat, n: nat)                           // the next `n` bytes
    | Untrack(thread: nat)
    | Publish                                              // a scan round nobody gets in the way of
    | Snapshot                                             // a scan round in its parts
    | Insert(path: string)
    | InsertFails
    | EndRound
    | SetIncomplete(piece: nat)                            // MarkNotComplete
    | WriteBytes(piece: nat, at: nat, data: seq<byte>)

  // ---- the steps ----

  ghost predicate JobFits(info: Info, job: Job)
    requires info.pieceLength > 0
  {
    && job.todo != [] && PiecesOf(info, job.todo)
    && info.ValidPiece(job.todo[0])
    && (job.phase.Punching? ==> info.PieceStart(job.todo[0]) <= job.phase.at < info.PieceEnd(job.todo[0]))
  }

  ghost predicate WellState(info: Info, s: State) {
    && info.WellFormed()
    && |s.bits| == info.NumPieces()
    && |s.bytes| == info.Total()
    && s.lru.Valid() && s.lru.budget > 0
    && TrackerFits(info, s.lru)
    && (forall t :: t in s.jobs ==> JobFits(info, s.jobs[t]))
    && (forall t :: t in s.adding ==> s.adding[t] < |s.bits| && t !in s.jobs)
  }

  predicate Idle(s: State, t: nat) {
    t !in s.jobs && t !in s.adding
  }

  ghost predicate AtPhase(s: State, t: nat, phase: Phase) {
    t in s.jobs && s.jobs[t].phase == phase
  }

  ghost predicate IsPunching(s: State, t: nat) {
    t in s.jobs && s.jobs[t].phase.Punching?
  }

  ghost function Head(info: Info, s: State, t: nat): (p: nat)
    requires WellState(info, s) && t in s.jobs
    ensures p < info.NumPieces() && p == s.jobs[t].todo[0]
  {
    assert JobFits(info, s.jobs[t]);
    s.jobs[t].todo[0]
  }

  ghost predicate Enabled(info: Info, s: State, step: Step)
    requires WellState(info, s)
  {
    match step
    case SetComplete(t, p) => p < |s.bits| && Idle(s, t)
    case AddPiece(t, _, _) => t in s.adding
    case ChooseVictims(t, _) => Idle(s, t)
    case Touch(p, _) => p < |s.bits|
    case Clear(t) => AtPhase(s, t, Pending)
    case GiveUp(t, _) => AtPhase(s, t, Pending)
    case Unpublish(t) => AtPhase(s, t, Cleared)
    case Punch(t, n) => IsPunching(s, t) && 0 < n && s.jobs[t].phase.at + n <= info.PieceEnd(Head(info, s, t))
    case Untrack(t) => AtPhase(s, t, Punched)
    case Publish => s.scan == Waiting
    case Snapshot => s.scan == Waiting
    case Insert(path) => s.scan.Publishing? && path in s.scan.paths
    case InsertFails => s.scan.Publishing? && s.scan.paths != {}
    case EndRound => s.scan == Publishing({})
    case SetIncomplete(p) => p < |s.bits|
    case WriteBytes(p, at, data) =>
      p < |s.bits| && !s.bits[p] && info.PieceStart(p) <= at && at + |data| <= info.PieceEnd(p)
  }

  /** A new list of victims for thread `t`, unless it is empty. */
  ghost function Start(jobs: map<nat, Job>, t: nat, victims: seq<int>): map<nat, Job> {
    if victims == [] then jobs else jobs[t := Job(victims, Pending, false)]
  }

  /** Thread `t` is done with the first piece of its list. */
  ghost function Advance(jobs: map<nat, Job>, t: nat): map<nat, Job>
    requires t in jobs && jobs[t].todo != []
  {
    if |jobs[t].todo| == 1 then jobs - {t} else jobs[t := Job(jobs[t].todo[1..], Pending, false)]
  }

  ghost function Noted(job: Job, p: nat): Job {
    if job.todo != [] && job.todo[0] == p && job.phase != Pending then job.(again := true) else job
  }

  ghost function Choose(s: State, t: nat, prot: set<int>): State
    requires s.lru.Valid()
  {
    s.(jobs := Start(s.jobs, t, Victims(s.lru, prot)), failed := {})
  }

  /** Thread `t` has the lock and adds its piece. */
  ghost function WithPiece(info: Info, s: State, t: nat, now: int): (s': State)
    requires WellState(info, s) && t in s.adding
    ensures WellState(info, s')
    ensures s'.lru.entries.Keys == s.lru.entries.Keys + {s.adding[t] as int}
  {
    var p := s.adding[t];
    PieceShape(info, p);
    AddedValid(s.lru, p, info.PieceLen(p), now);
    s.(lru := Added(s.lru, p, info.PieceLen(p), now), adding := s.adding - {t})
  }

  /** Where a punch of `n` more bytes leaves its job. */
  ghost function AfterPunch(info: Info, s: State, t: nat, n: nat): Phase
    requires WellState(info, s) && IsPunching(s, t)
  {
    var next := s.jobs[t].phase.at + n;
    if next == info.PieceEnd(Head(info, s, t)) then Punched else Punching(next)
  }

  ghost predicate AllComplete(bits: seq<bool>) {
    forall p :: 0 <= p < |bits| ==> bits[p]
  }

  /** The loop of scan rounds ends for good after a round that ends with every piece complete. */
  ghost function AfterRound(bits: seq<bool>): Scan {
    if AllComplete(bits) then Ended else Waiting
  }

  ghost function Next(info: Info, s: State, step: Step): (s': State)
    requires WellState(info, s) && Enabled(info, s, step)
  {
    match step
    case SetComplete(t, p) =>
      s.(bits := s.bits[p := true], adding := s.adding[t := p], jobs := map u | u in s.jobs :: Noted(s.jobs[u], p))
    case AddPiece(t, now, prot) =>
      var s1 := WithPiece(info, s, t, now);
      if s.adding[t] in s.lru.entries then s1 else Choose(s1, t, prot)
    case ChooseVictims(t, prot) => Choose(s, t, prot)
    case Touch(p, now) => s.(lru := Touched(s.lru, p, now))
    case Clear(t) =>
      s.(bits := s.bits[Head(info, s, t) := false], jobs := s.jobs[t := Job(s.jobs[t].todo, Cleared, false)])
    case GiveUp(t, cleared) =>
      var p := Head(info, s, t);
      s.(bits := if cleared then s.bits[p := false] else s.bits, jobs := Advance(s.jobs, t), failed := s.failed + {p})
    case Unpublish(t) =>
      var p := Head(info, s, t);
      s.(rows := s.rows - AffectedPaths(info, p), jobs := s.jobs[t := s.jobs[t].(phase := Punching(info.PieceStart(p)))])
    case Punch(t, n) =>
      PieceShape(info, Head(info, s, t));
      s.(bytes := Zeroed(s.bytes, s.jobs[t].phase.at, s.jobs[t].phase.at + n),
         jobs := s.jobs[t := s.jobs[t].(phase := AfterPunch(info, s, t, n))])
    case Untrack(t) => s.(lru := Removed(s.lru, Head(info, s, t)), jobs := Advance(s.jobs, t))
    case Publish => s.(rows := s.rows + DoneSet(info, s.bits), scan := AfterRound(s.bits))
    case Snapshot => s.(scan := Publishing(DoneSet(info, s.bits)))
    case Insert(path) => s.(rows := s.rows + {path}, scan := Publishing(s.scan.paths - {path}))
    case InsertFails => s.(scan := Ended)
    case EndRound => s.(scan := AfterRound(s.bits))
    case SetIncomplete(p) => s.(bits := s.bits[p := false])
    case WriteBytes(p, at, data) => PieceShape(info, p); s.(bytes := Overwritten(s.bytes, at, data))
  }

  lemma AdvanceFits(info: Info, jobs: map<nat, Job>, t: nat)
    requires info.pieceLength > 0 && t in jobs && jobs[t].todo != [] && forall u :: u in jobs ==> JobFits(info, jobs[u])
    ensures forall u :: u in Advance(jobs, t) ==> u in jobs && JobFits(info, Advance(jobs, t)[u])
  {
    var rest := jobs[t].todo[1..];
    assert JobFits(info, jobs[t]);
    forall k | 0 <= k < |rest|
      ensures info.ValidPiece(rest[k])
    {
      assert rest[k] == jobs[t].todo[k + 1];
    }
  }

  lemma ChooseFits(info: Info, s: State, t: nat, prot: set<int>)
    requires WellState(info, s) && Idle(s, t)
    ensures WellState(info, Choose(s, t, prot))
  {
    var v := Victims(s.lru, prot);
    VictimsAreShortest(s.lru, prot);
    forall k | 0 <= k < |v|
      ensures info.ValidPiece(v[k])
    {
      assert v[k] in Elems(v);
    }
  }

  lemma NextWell(info: Info, s: State, step: Step)
    requires WellState(info, s) && Enabled(info, s, step)
    ensures WellState(info, Next(info, s, step))
  {
    match step
    case AddPiece(t, now, prot) => ChooseFits(info, WithPiece(info, s, t, now), t, prot);
    case ChooseVictims(t, prot) => ChooseFits(info, s, t, prot);
    case Touch(p, now) => TouchedValid(s.lru, p, now);
    case GiveUp(t, _) => AdvanceFits(info, s.jobs, t);
    case Unpublish(t) => PieceShape(info, Head(info, s, t));
    case Untrack(t) => AdvanceFits(info, s.jobs, t); RemovedValid(s.lru, Head(info, s, t));
    case _ =>
  }

  /** Steps that begin or end evictions. */
  ghost predicate Schedules(step: Step) {
    step.AddPiece? || step.ChooseVictims? || step.GiveUp? || step.Untrack?
  }

  /** Evictions that are under way are left alone; others may begin, or end, and no piece is completed. */
  ghost predicate FlightsLeftAlone(s: State, s': State) {
    && s'.rows == s.rows && s'.bytes == s.bytes && |s'.bits| == |s.bits|
    && (forall p :: 0 <= p < |s.bits| && s'.bits[p] ==> s.bits[p])
    && (forall u :: u in s'.jobs && s'.jobs[u].phase != Pending ==> u in s.jobs && s'.jobs[u] == s.jobs[u])
    && (forall u :: u in s.jobs && s.jobs[u].phase != Pending && s.jobs[u].phase != Punched ==>
          u in s'.jobs && s'.jobs[u] == s.jobs[u])
  }

  lemma ChoosingJobs(s: State, t: nat, prot: set<int>)
    requires s.lru.Valid() && Idle(s, t)
    ensures FlightsLeftAlone(s, Choose(s, t, prot))
  {
  }

  lemma AddingJobs(info: Info, s: State, t: nat, now: int, prot: set<int>)
    requires WellState(info, s) && t in s.adding
    ensures FlightsLeftAlone(s, Next(info, s, AddPiece(t, now, prot)))
  {
    ChoosingJobs(WithPiece(info, s, t, now), t, prot);
  }

  lemma SchedulingJobs(info: Info, s: State, step: Step)
    requires WellState(info, s) && Enabled(info, s, step) && Schedules(step)
    ensures FlightsLeftAlone(s, Next(info, s, step))
  {
    if step.AddPiece? {
      AddingJobs(info, s, step.thread, step.now, step.prot);
    } else if step.ChooseVictims? {
      ChoosingJobs(s, step.thread, step.prot);
    }
  }

  // ---- runs ----

  ghost predicate IsStep(info: Info, ss: seq<State>, steps: seq<Step>, k: nat)
    requires |ss| == |steps| + 1 && k < |steps|
  {
    WellState(info, ss[k]) && Enabled(info, ss[k], steps[k]) && ss[k + 1] == Next(info, ss[k], steps[k])
  }

  ghost predicate IsTrace(info: Info, ss: seq<State>, steps: seq<Step>) {
    && |ss| == |steps| + 1
    && forall k :: 0 <= k < |steps| ==> IsStep(info, ss, steps, k)
  }

  /** One more step at the end of a run. */
  lemma TraceStep(info: Info, ss: seq<State>, steps: seq<Step>, step: Step)
    requires IsTrace(info, ss, steps) && WellState(info, ss[|steps|]) && Enabled(info, ss[|steps|], step)
    ensures IsTrace(info, ss + [Next(info, ss[|steps|], step)], steps + [step])
  {
    var ss', steps' := ss + [Next(info, ss[|steps|], step)], steps + [step];
    forall k | 0 <= k < |steps'|
      ensures IsStep(info, ss', steps', k)
    {
      if k < |steps| {
        assert IsStep(info, ss, steps, k);
      }
    }
  }

  /** One more step at the start of a run. */
  lemma TraceCons(info: Info, s: State, step: Step, ss: seq<State>, steps: seq<Step>) returns (ss': seq<State>, steps': seq<Step>)
    requires WellState(info, s) && Enabled(info, s, step) && IsTrace(info, ss, steps) && ss[0] == Next(info, s, step)
    ensures ss' == [s] + ss && steps' == [step] + steps && IsTrace(info, ss', steps')
    ensures ss'[0] == s && ss'[|steps'|] == ss[|steps|]
  {
    ss', steps' := [s] + ss, [step] + steps;
    forall k | 0 <= k < |steps'|
      ensures IsStep(info, ss', steps', k)
    {
      if k > 0 {
        assert IsStep(info, ss, steps, k - 1);
      }
    }
  }

  lemma TraceAppend(info: Info, ss: seq<State>, steps: seq<Step>, ss': seq<State>, steps': seq<Step>)
    requires IsTrace(info, ss, steps) && IsTrace(info, ss', steps') && ss[|steps|] == ss'[0]
    ensures IsTrace(info, ss + ss'[1..], steps + steps')
    ensures (ss + ss'[1..])[0] == ss[0] && (ss + ss'[1..])[|steps| + |steps'|] == ss'[|steps'|]
  {
    var all, allSteps := ss + ss'[1..], steps + steps';
    forall k | 0 <= k < |allSteps|
      ensures IsStep(info, all, allSteps, k)
    {
      if k < |steps| {
        assert IsStep(info, ss, steps, k);
      } else {
        assert IsStep(info, ss', steps', k - |steps|);
      }
    }
  }

  // ---- the budget ----

  /** The pieces some thread still has to evict. */
  ghost function Outstanding(jobs: map<nat, Job>): set<int> {
    set t, p | t in jobs && p in jobs[t].todo :: p
  }

  /** Tracked pieces nobody is about to remove. */
  ghost function Settled(s: State): set<int> {
    s.lru.entries.Keys - Outstanding(s.jobs) - s.failed
  }

  ghost predicate BudgetInv(info: Info, s: State) {
    WellState(info, s) && Bytes(s.lru.entries, Settled(s)) <= s.lru.budget
  }

  lemma FewerBytes(m: map<int, Entry>, s: set<int>, t: set<int>)
    requires t <= s <= m.Keys
    ensures Bytes(m, t) <= Bytes(m, s)
  {
    BytesSplit(m, s, t);
  }

  /** In the form of the counter: `used` less the tracked bytes that are still to go. */
  lemma UsedLessOutstanding(info: Info, s: State)
    requires BudgetInv(info, s)
    ensures s.lru.used - Bytes(s.lru.entries, s.lru.entries.Keys * (Outstanding(s.jobs) + s.failed)) <= s.lru.budget
  {
    var keys := s.lru.entries.Keys;
    BytesSplit(s.lru.entries, keys, Settled(s));
    assert keys - Settled(s) == keys * (Outstanding(s.jobs) + s.failed);
  }

  /** No list outstanding and no eviction given up: within budget. */
  lemma QuietMeansWithinBudget(info: Info, s: State)
    requires BudgetInv(info, s) && s.jobs == map[] && s.failed == {}
    ensures s.lru.used <= s.lru.budget
  {
    assert Outstanding(s.jobs) == {};
    assert Settled(s) == s.lru.entries.Keys;
  }

  /** Choosing victims establishes the invariant from any state, such as one just recovered. */
  lemma ChooseEstablishes(info: Info, s: State, t: nat, prot: set<int>)
    requires WellState(info, s) && Idle(s, t)
    ensures BudgetInv(info, Choose(s, t, prot))
  {
    ChooseFits(info, s, t, prot);
    var s', v, m := Choose(s, t, prot), Victims(s.lru, prot), s.lru.entries;
    VictimsAreShortest(s.lru, prot);
    BytesSplit(m, m.Keys, Elems(v));
    SeqBytesIsBytes(m, v);
    StartOutstanding(s.jobs, t, v);
    FewerBytes(m, m.Keys - Elems(v), Settled(s'));
  }

  lemma StartOutstanding(jobs: map<nat, Job>, t: nat, v: seq<int>)
    requires t !in jobs
    ensures Elems(v) <= Outstanding(Start(jobs, t, v))
  {
    ElemsEmpty<int>();
    var jobs' := Start(jobs, t, v);
    forall p | p in v
      ensures p in Outstanding(jobs')
    {
      assert t in jobs' && p in jobs'[t].todo;
    }
  }

  /** Dropping the first piece of one list leaves all others outstanding. */
  lemma AdvanceOutstanding(jobs: map<nat, Job>, t: nat)
    requires t in jobs && jobs[t].todo != []
    ensures Outstanding(jobs) <= Outstanding(Advance(jobs, t)) + {jobs[t].todo[0]}
  {
    var jobs' := Advance(jobs, t);
    forall u, p | u in jobs && p in jobs[u].todo && p != jobs[t].todo[0]
      ensures p in Outstanding(jobs')
    {
      if u == t {
        assert p in jobs[t].todo[1..];
        assert t in jobs' && p in jobs'[t].todo;
      } else {
        assert u in jobs' && p in jobs'[u].todo;
      }
    }
  }

  lemma NotedOutstanding(jobs: map<nat, Job>, p: nat)
    ensures Outstanding(map t | t in jobs :: Noted(jobs[t], p)) == Outstanding(jobs)
  {
    var jobs' := map t | t in jobs :: Noted(jobs[t], p);
    assert forall t :: t in jobs ==> t in jobs' && jobs'[t].todo == jobs[t].todo;
    assert forall t :: t in jobs' ==> t in jobs;
  }

  lemma RephaseOutstanding(jobs: map<nat, Job>, t: nat, job: Job)
    requires t in jobs && job.todo == jobs[t].todo
    ensures Outstanding(jobs[t := job]) == Outstanding(jobs)
  {
    var jobs' := jobs[t := job];
    assert forall u :: u in jobs <==> u in jobs';
    assert forall u :: u in jobs ==> jobs'[u].todo == jobs[u].todo;
  }

  /** Budget safety: every step of every thread keeps the invariant. */
  lemma StepKeepsBudget(info: Info, s: State, step: Step)
    requires BudgetInv(info, s) && Enabled(info, s, step)
    ensures BudgetInv(info, Next(info, s, step))
  {
    var s' := Next(info, s, step);
    NextWell(info, s, step);
    match step
    case SetComplete(_, p) => NotedOutstanding(s.jobs, p);
    case AddPiece(t, now, prot) =>
      var s1 := WithPiece(info, s, t, now);
      if s.adding[t] in s.lru.entries {
        assert s'.lru.entries.Keys == s.lru.entries.Keys;
        BytesFrame(s.lru.entries, s'.lru.entries, Settled(s));
      } else {
        ChooseEstablishes(info, s1, t, prot);
      }
    case ChooseVictims(t, prot) => ChooseEstablishes(info, s, t, prot);
    case Touch(p, now) =>
      assert s'.lru.entries.Keys == s.lru.entries.Keys;
      BytesFrame(s.lru.entries, s'.lru.entries, Settled(s));
    case Clear(t) => RephaseOutstanding(s.jobs, t, s'.jobs[t]);
    case GiveUp(t, cleared) =>
      AdvanceOutstanding(s.jobs, t);
      FewerBytes(s.lru.entries, Settled(s), Settled(s'));
    case Unpublish(t) => RephaseOutstanding(s.jobs, t, s'.jobs[t]);
    case Punch(t, n) => RephaseOutstanding(s.jobs, t, s'.jobs[t]);
    case Untrack(t) =>
      AdvanceOutstanding(s.jobs, t);
      RemovedValid(s.lru, Head(info, s, t));
      assert Settled(s') <= Settled(s);
      FewerBytes(s.lru.entries, Settled(s), Settled(s'));
      BytesFrame(s.lru.entries, s'.lru.entries, Settled(s'));
    case _ =>
  }
}
