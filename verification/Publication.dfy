/** What published rows are worth while evictions are under way: a file is withdrawn before any of
    its bytes is destroyed, in every interleaving. */
module Publication {
  import opened Geometry
  import opened Completion
  import opened Interleaving

  /** Some eviction has cleared piece `p` and not yet withdrawn its files. */
  ghost predicate ClearedBy(s: State, p: int) {
    exists t :: AtPhase(s, t, Cleared) && s.jobs[t].todo != [] && s.jobs[t].todo[0] == p
  }

  /** Every piece of file `f` is complete, or an eviction is about to withdraw the file. */
  ghost predicate Accounted(info: Info, s: State, f: nat)
    requires WellState(info, s) && f < info.NumFiles()
  {
    forall p :: 0 <= p < |s.bits| && info.Affects(f, p) ==> s.bits[p] || ClearedBy(s, p)
  }

  ghost predicate RowsInv(info: Info, s: State)
    requires WellState(info, s)
  {
    forall f :: 0 <= f < info.NumFiles() && info.Path(f) in s.rows ==> Accounted(info, s, f)
  }

  /** An eviction past its second step whose piece has not been marked complete again. */
  ghost predicate Withdrawing(s: State, t: nat) {
    t in s.jobs && s.jobs[t].phase != Pending && s.jobs[t].phase != Cleared && !s.jobs[t].again
  }

  /** An eviction past its first step whose piece has not been marked complete again: the piece is
      incomplete and, once past the second step, none of its files is published. */
  ghost predicate JobInv(info: Info, s: State, t: nat)
    requires WellState(info, s)
  {
    && (t in s.jobs && s.jobs[t].phase != Pending && !s.jobs[t].again ==> !s.bits[Head(info, s, t)])
    && (Withdrawing(s, t) ==> s.rows !! AffectedPaths(info, Head(info, s, t)))
  }

  ghost predicate PublishedInv(info: Info, s: State) {
    && WellState(info, s)
    && RowsInv(info, s)
    && forall t :: JobInv(info, s, t)
  }

  /** The files of piece `p` are unpublished, or an eviction is about to withdraw them anyway. */
  ghost predicate MayLose(info: Info, s: State, p: nat)
    requires WellState(info, s)
  {
    s.rows !! AffectedPaths(info, p) || ClearedBy(s, p)
  }

  /** Publishing `path` now is justified: its file is accounted for, and no eviction past the
      withdrawal of its files is still to come. */
  ghost predicate MayPublish(info: Info, s: State, path: string)
    requires WellState(info, s)
  {
    && (forall f :: 0 <= f < info.NumFiles() && info.Path(f) == path ==> Accounted(info, s, f))
    && (forall t :: Withdrawing(s, t) ==> path !in AffectedPaths(info, Head(info, s, t)))
  }

  /** What keeps the account of published rows.  Three steps need a guard: `MarkNotComplete`, an
      eviction that fails after clearing its piece, and publishing from an old snapshot. */
  ghost predicate PublishGuard(info: Info, s: State, step: Step)
    requires WellState(info, s) && Enabled(info, s, step)
  {
    match step
    case SetIncomplete(p) => MayLose(info, s, p)
    case GiveUp(t, cleared) => cleared ==> MayLose(info, s, Head(info, s, t))
    case Insert(path) => MayPublish(info, s, path)
    case _ => true
  }

  /** An incomplete piece's files are not among the completed ones. */
  lemma DoneAvoidsIncomplete(info: Info, bits: seq<bool>, p: nat)
    requires info.WellFormed() && p < |bits| && !bits[p]
    ensures DoneSet(info, bits) !! AffectedPaths(info, p)
  {
    UncompleteKeepsMemo(info, bits, {}, p);
    assert bits[p := false] == bits;
  }

  /** Jobs that were in phase `Cleared` still are, with the same piece. */
  ghost predicate ClearedStay(s: State, s': State) {
    forall t :: AtPhase(s, t, Cleared) ==> AtPhase(s', t, Cleared) && s'.jobs[t].todo == s.jobs[t].todo
  }

  lemma ClearedFrame(s: State, s': State, p: int)
    requires ClearedBy(s, p) && ClearedStay(s, s')
    ensures ClearedBy(s', p)
  {
    var t :| AtPhase(s, t, Cleared) && s.jobs[t].todo != [] && s.jobs[t].todo[0] == p;
    assert AtPhase(s', t, Cleared) && s'.jobs[t].todo[0] == p;
  }

  /** A step that loses no complete piece unaccounted for keeps files accounted for. */
  lemma AccountedFrame(info: Info, s: State, s': State, f: nat)
    requires WellState(info, s) && WellState(info, s') && f < info.NumFiles() && Accounted(info, s, f)
    requires ClearedStay(s, s')
    requires forall p :: 0 <= p < |s.bits| && info.Affects(f, p) && s.bits[p] ==> s'.bits[p] || ClearedBy(s', p)
    ensures Accounted(info, s', f)
  {
    forall p | 0 <= p < |s'.bits| && info.Affects(f, p)
      ensures s'.bits[p] || ClearedBy(s', p)
    {
      if !s.bits[p] {
        ClearedFrame(s, s', p);
      }
    }
  }

  /** An eviction that withdraws now takes with it the rows that counted on it. */
  lemma UnpublishKeepsRows(info: Info, s: State, t: nat)
    requires PublishedInv(info, s) && AtPhase(s, t, Cleared)
    requires WellState(info, Next(info, s, Unpublish(t)))
    ensures RowsInv(info, Next(info, s, Unpublish(t)))
  {
    var s' := Next(info, s, Unpublish(t));
    forall f, p | 0 <= f < info.NumFiles() && info.Path(f) in s'.rows && 0 <= p < |s'.bits| && info.Affects(f, p)
      ensures s'.bits[p] || ClearedBy(s', p)
    {
      PathInAffected(info, f, Head(info, s, t));
      assert Accounted(info, s, f) && p != Head(info, s, t);
      if !s.bits[p] {
        var u :| AtPhase(s, u, Cleared) && s.jobs[u].todo != [] && s.jobs[u].todo[0] == p;
        assert AtPhase(s', u, Cleared) && s'.jobs[u].todo[0] == p;
      }
    }
  }

  /** Losing piece `p` without an eviction of its own. */
  lemma LosingKeepsRows(info: Info, s: State, s': State, p: nat)
    requires PublishedInv(info, s) && WellState(info, s') && p < |s.bits| && MayLose(info, s, p)
    requires s'.rows == s.rows && s'.bits == s.bits[p := false] && ClearedStay(s, s')
    ensures RowsInv(info, s')
  {
    forall f | 0 <= f < info.NumFiles() && info.Path(f) in s'.rows
      ensures Accounted(info, s', f)
    {
      PathInAffected(info, f, p);
      if ClearedBy(s, p) {
        ClearedFrame(s, s', p);
      }
      AccountedFrame(info, s, s', f);
    }
  }

  /** What every step but a few does: rows are added for complete files only, and no piece is lost. */
  ghost predicate RowsStay(info: Info, s: State, s': State)
    requires WellState(info, s)
  {
    && |s'.bits| == |s.bits| && s'.rows <= s.rows + DoneSet(info, s.bits) && ClearedStay(s, s')
    && forall p :: 0 <= p < |s.bits| && s.bits[p] ==> s'.bits[p] || ClearedBy(s', p)
  }

  lemma RowsStaySound(info: Info, s: State, s': State)
    requires PublishedInv(info, s) && WellState(info, s') && RowsStay(info, s, s')
    ensures RowsInv(info, s')
  {
    forall f | 0 <= f < info.NumFiles() && info.Path(f) in s'.rows
      ensures Accounted(info, s', f)
    {
      PathInDoneSet(info, s.bits, f);
      assert Accounted(info, s, f);
      AccountedFrame(info, s, s', f);
    }
  }

  lemma ClearKeepsRows(info: Info, s: State, t: nat)
    requires PublishedInv(info, s) && AtPhase(s, t, Pending)
    requires WellState(info, Next(info, s, Clear(t)))
    ensures RowsInv(info, Next(info, s, Clear(t)))
  {
    var s' := Next(info, s, Clear(t));
    assert AtPhase(s', t, Cleared) && s'.jobs[t].todo[0] == Head(info, s, t);
    assert ClearedBy(s', Head(info, s, t));
    RowsStaySound(info, s, s');
  }

  lemma InsertKeepsRows(info: Info, s: State, path: string)
    requires PublishedInv(info, s) && Enabled(info, s, Insert(path)) && MayPublish(info, s, path)
    requires WellState(info, Next(info, s, Insert(path)))
    ensures RowsInv(info, Next(info, s, Insert(path)))
  {
    var s' := Next(info, s, Insert(path));
    forall f | 0 <= f < info.NumFiles() && info.Path(f) in s'.rows
      ensures Accounted(info, s', f)
    {
      assert Accounted(info, s, f);
      AccountedFrame(info, s, s', f);
    }
  }

  lemma SchedulingStays(info: Info, s: State, step: Step)
    requires WellState(info, s) && Enabled(info, s, step) && Schedules(step) && (step.GiveUp? ==> !step.cleared)
    ensures RowsStay(info, s, Next(info, s, step))
  {
    SchedulingJobs(info, s, step);
  }

  lemma MostStepsStay(info: Info, s: State, step: Step)
    requires WellState(info, s) && Enabled(info, s, step)
    requires !step.Unpublish? && !step.Clear? && !step.Insert? && !step.SetIncomplete? && (step.GiveUp? ==> !step.cleared)
    ensures RowsStay(info, s, Next(info, s, step))
  {
    if Schedules(step) {
      SchedulingStays(info, s, step);
    }
  }

  lemma GivingUpKeepsRows(info: Info, s: State, t: nat)
    requires PublishedInv(info, s) && AtPhase(s, t, Pending) && MayLose(info, s, Head(info, s, t))
    requires WellState(info, Next(info, s, GiveUp(t, true)))
    ensures RowsInv(info, Next(info, s, GiveUp(t, true)))
  {
    LosingKeepsRows(info, s, Next(info, s, GiveUp(t, true)), Head(info, s, t));
  }

  lemma StepKeepsRows(info: Info, s: State, step: Step)
    requires PublishedInv(info, s) && Enabled(info, s, step) && PublishGuard(info, s, step)
    requires WellState(info, Next(info, s, step))
    ensures RowsInv(info, Next(info, s, step))
  {
    if step.Unpublish? {
      UnpublishKeepsRows(info, s, step.thread);
    } else if step.Clear? {
      ClearKeepsRows(info, s, step.thread);
    } else if step.Insert? {
      InsertKeepsRows(info, s, step.path);
    } else if step.GiveUp? && step.cleared {
      GivingUpKeepsRows(info, s, step.thread);
    } else if step.SetIncomplete? {
      LosingKeepsRows(info, s, Next(info, s, step), step.piece);
    } else {
      MostStepsStay(info, s, step);
      RowsStaySound(info, s, Next(info, s, step));
    }
  }

  /** Evictions keep their phase and piece, and a piece that was incomplete stays so. */
  ghost predicate JobsStay(info: Info, s: State, s': State, u: nat)
    requires WellState(info, s) && WellState(info, s')
  {
    u in s'.jobs && s'.jobs[u].phase != Pending && !s'.jobs[u].again ==>
      && u in s.jobs && s.jobs[u].phase != Pending && !s.jobs[u].again
      && Head(info, s', u) == Head(info, s, u)
      && !s'.bits[Head(info, s, u)]
      && (Withdrawing(s', u) ==> Withdrawing(s, u))
  }

  lemma JobsStaySound(info: Info, s: State, s': State, u: nat)
    requires WellState(info, s) && WellState(info, s') && JobInv(info, s, u) && JobsStay(info, s, s', u)
    requires Withdrawing(s', u) ==> s'.rows !! AffectedPaths(info, Head(info, s', u)) || s'.rows <= s.rows
    ensures JobInv(info, s', u)
  {
  }

  lemma SetKeepsJobs(info: Info, s: State, t: nat, p: nat, u: nat)
    requires PublishedInv(info, s) && Enabled(info, s, SetComplete(t, p)) && WellState(info, Next(info, s, SetComplete(t, p)))
    ensures JobInv(info, Next(info, s, SetComplete(t, p)), u)
  {
    assert JobInv(info, s, u);
    JobsStaySound(info, s, Next(info, s, SetComplete(t, p)), u);
  }

  lemma EvictionKeepsJobs(info: Info, s: State, step: Step, u: nat)
    requires PublishedInv(info, s) && Enabled(info, s, step) && WellState(info, Next(info, s, step))
    requires step.Clear? || step.Unpublish? || step.Punch?
    ensures JobInv(info, Next(info, s, step), u)
  {
    assert JobInv(info, s, u);
    var s' := Next(info, s, step);
    if u != step.thread {
      JobsStaySound(info, s, s', u);
    } else if step.Punch? {
      JobsStaySound(info, s, s', u);
    }
  }

  lemma PublishingKeepsJobs(info: Info, s: State, step: Step, u: nat)
    requires PublishedInv(info, s) && Enabled(info, s, step) && PublishGuard(info, s, step)
    requires WellState(info, Next(info, s, step)) && (step.Publish? || step.Insert?)
    ensures JobInv(info, Next(info, s, step), u)
  {
    assert JobInv(info, s, u);
    if Withdrawing(s, u) {
      DoneAvoidsIncomplete(info, s.bits, Head(info, s, u));
    }
    JobsStaySound(info, s, Next(info, s, step), u);
  }

  lemma SchedulingKeepsJobs(info: Info, s: State, step: Step, u: nat)
    requires PublishedInv(info, s) && Enabled(info, s, step) && WellState(info, Next(info, s, step)) && Schedules(step)
    ensures JobInv(info, Next(info, s, step), u)
  {
    assert JobInv(info, s, u);
    SchedulingJobs(info, s, step);
  }

  lemma StepKeepsJobs(info: Info, s: State, step: Step, u: nat)
    requires PublishedInv(info, s) && Enabled(info, s, step) && PublishGuard(info, s, step)
    requires WellState(info, Next(info, s, step))
    ensures JobInv(info, Next(info, s, step), u)
  {
    if step.SetComplete? {
      SetKeepsJobs(info, s, step.thread, step.piece, u);
    } else if step.Clear? || step.Unpublish? || step.Punch? {
      EvictionKeepsJobs(info, s, step, u);
    } else if step.Publish? || step.Insert? {
      PublishingKeepsJobs(info, s, step, u);
    } else if Schedules(step) {
      SchedulingKeepsJobs(info, s, step, u);
    } else {
      assert JobInv(info, s, u);
      JobsStaySound(info, s, Next(info, s, step), u);
    }
  }

  /** The guards are necessary, one step at a time. */
  lemma LosingNeedsGuard(info: Info, s: State, s': State, p: nat)
    requires PublishedInv(info, s) && PublishedInv(info, s') && p < |s.bits|
    requires s'.rows == s.rows && s'.bits == s.bits[p := false] && ClearedStay(s', s)
    ensures MayLose(info, s, p)
  {
    if !ClearedBy(s, p) {
      if ClearedBy(s', p) {
        ClearedFrame(s', s, p);
      }
      forall f | 0 <= f < info.NumFiles() && info.Path(f) in s.rows
        ensures info.Path(f) !in AffectedPaths(info, p)
      {
        assert Accounted(info, s', f);
        PathInAffected(info, f, p);
      }
    }
  }

  lemma InsertNeedsGuard(info: Info, s: State, path: string)
    requires PublishedInv(info, s) && Enabled(info, s, Insert(path)) && PublishedInv(info, Next(info, s, Insert(path)))
    ensures MayPublish(info, s, path)
  {
    var s' := Next(info, s, Insert(path));
    forall f | 0 <= f < info.NumFiles() && info.Path(f) == path
      ensures Accounted(info, s, f)
    {
      assert Accounted(info, s', f);
      AccountedFrame(info, s', s, f);
    }
    forall t | Withdrawing(s, t)
      ensures path !in AffectedPaths(info, Head(info, s, t))
    {
      assert JobInv(info, s', t) && Withdrawing(s', t);
    }
  }

  /** Unpublish before destroy: a step of any thread keeps the account of published rows exactly when
      its guard holds; all but three kinds of steps need none. */
  lemma StepKeepsPublished(info: Info, s: State, step: Step)
    requires PublishedInv(info, s) && Enabled(info, s, step)
    ensures PublishedInv(info, Next(info, s, step)) <==> PublishGuard(info, s, step)
  {
    var s' := Next(info, s, step);
    NextWell(info, s, step);
    if PublishGuard(info, s, step) {
      StepKeepsRows(info, s, step);
      forall u
        ensures JobInv(info, s', u)
      {
        StepKeepsJobs(info, s, step, u);
      }
    }
    if PublishedInv(info, s') {
      match step
      case SetIncomplete(p) => LosingNeedsGuard(info, s, s', p);
      case GiveUp(t, cleared) => if cleared { LosingNeedsGuard(info, s, s', Head(info, s, t)); }
      case Insert(path) => InsertNeedsGuard(info, s, path);
      case _ =>
    }
  }

  /** At the moment bytes are destroyed, no file they belong to is published, unless the piece was
      marked complete again meanwhile. */
  lemma PunchedFilesAreWithdrawn(info: Info, s: State, t: nat, n: nat, f: nat, x: nat)
    requires PublishedInv(info, s) && Enabled(info, s, Punch(t, n)) && !s.jobs[t].again
    requires f < info.NumFiles() && s.jobs[t].phase.at <= x < s.jobs[t].phase.at + n && info.InFile(f, x)
    ensures info.Path(f) !in s.rows
  {
    var p := Head(info, s, t);
    assert JobInv(info, s, t) && JobFits(info, s.jobs[t]);
    assert info.InPiece(p, x);
    SharedBytesAffect(info, f, p);
    PathInAffected(info, f, p);
  }

  /** A step of a run that meets its guard. */
  ghost predicate AccountedStep(info: Info, ss: seq<State>, steps: seq<Step>, k: nat)
    requires |ss| == |steps| + 1 && k < |steps|
  {
    IsStep(info, ss, steps, k) && PublishGuard(info, ss[k], steps[k])
  }

  lemma AccountedStepKeeps(info: Info, ss: seq<State>, steps: seq<Step>, k: nat)
    requires |ss| == |steps| + 1 && k < |steps| && PublishedInv(info, ss[k]) && AccountedStep(info, ss, steps, k)
    ensures PublishedInv(info, ss[k + 1])
  {
    StepKeepsPublished(info, ss[k], steps[k]);
  }

  /** Over whole runs: as long as the guarded steps meet their guards, a published file's incomplete
      pieces are all being evicted, between the clearing and the withdrawal. */
  lemma {:induction false} RunKeepsPublished(info: Info, ss: seq<State>, steps: seq<Step>, k: nat)
    requires IsTrace(info, ss, steps) && k < |ss| && PublishedInv(info, ss[0])
    requires forall i :: 0 <= i < |steps| ==> AccountedStep(info, ss, steps, i)
    ensures PublishedInv(info, ss[k])
  {
    if k > 0 {
      RunKeepsPublished(info, ss, steps, k - 1);
      AccountedStepKeeps(info, ss, steps, k - 1);
    }
  }

  // ---- a scan that other threads get between ----

  /** Whether the last of the steps `i` to `j` that changed the bit of piece `p` cleared it. */
  ghost predicate Lost(info: Info, ss: seq<State>, steps: seq<Step>, i: nat, j: nat, p: nat)
    requires IsTrace(info, ss, steps) && i <= j <= |steps|
  {
    j > i && match Change(info, ss, steps, j - 1, p) {
      case Sets => false
      case Clears => true
      case Leaves => Lost(info, ss, steps, i, j - 1, p)
    }
  }

  datatype Effect = Sets | Clears | Leaves

  /** What step `k` of a run does to the bit of piece `p`. */
  ghost function Change(info: Info, ss: seq<State>, steps: seq<Step>, k: nat, p: nat): Effect
    requires IsTrace(info, ss, steps) && k < |steps|
  {
    assert IsStep(info, ss, steps, k);
    match steps[k]
    case SetComplete(_, q) => if q == p then Sets else Leaves
    case SetIncomplete(q) => if q == p then Clears else Leaves
    case Clear(t) => if Head(info, ss[k], t) == p then Clears else Leaves
    case GiveUp(t, cleared) => if cleared && Head(info, ss[k], t) == p then Clears else Leaves
    case _ => Leaves
  }

  lemma {:induction false} CompleteUnlessLost(info: Info, ss: seq<State>, steps: seq<Step>, i: nat, j: nat, p: nat)
    requires IsTrace(info, ss, steps) && i <= j <= |steps|
    requires p < |ss[i].bits| && ss[i].bits[p]
    ensures p < |ss[j].bits| && (ss[j].bits[p] <==> !Lost(info, ss, steps, i, j, p))
  {
    if i < j {
      CompleteUnlessLost(info, ss, steps, i, j - 1, p);
      assert IsStep(info, ss, steps, j - 1);
    }
  }

  /** Exactly when a snapshot has gone stale: a file that was complete at step `i` is no longer so at
      step `j` if and only if one of its pieces was cleared in between and not marked complete since. */
  lemma StaleExactlyWhenLost(info: Info, ss: seq<State>, steps: seq<Step>, i: nat, j: nat, f: nat)
    requires IsTrace(info, ss, steps) && i <= j <= |steps| && WellState(info, ss[i]) && WellState(info, ss[j])
    requires f < info.NumFiles() && FileDone(info, ss[i].bits, f)
    ensures !FileDone(info, ss[j].bits, f) <==>
            exists p: nat :: p < |ss[i].bits| && info.Affects(f, p) && Lost(info, ss, steps, i, j, p)
  {
    forall p: nat | p < |ss[i].bits| && info.Affects(f, p)
      ensures ss[j].bits[p] <==> !Lost(info, ss, steps, i, j, p)
    {
      CompleteUnlessLost(info, ss, steps, i, j, p);
    }
  }

  /** A file that is still complete may always be published, so only stale rows do harm. */
  lemma FreshMayBePublished(info: Info, s: State, f: nat)
    requires PublishedInv(info, s) && f < info.NumFiles() && FileDone(info, s.bits, f)
    ensures MayPublish(info, s, info.Path(f))
  {
    forall g | 0 <= g < info.NumFiles() && info.Path(g) == info.Path(f)
      ensures Accounted(info, s, g)
    {
      assert g == f;
    }
    forall t | Withdrawing(s, t)
      ensures info.Path(f) !in AffectedPaths(info, Head(info, s, t))
    {
      assert JobInv(info, s, t);
      DoneAvoidsIncomplete(info, s.bits, Head(info, s, t));
      PathInDoneSet(info, s.bits, f);
    }
  }

  /** Publishing a snapshot path by path. */
  lemma {:induction false} InsertAll(info: Info, s: State) returns (ss: seq<State>, steps: seq<Step>)
    requires WellState(info, s) && s.scan.Publishing?
    ensures IsTrace(info, ss, steps) && ss[0] == s && forall k :: 0 <= k < |steps| ==> steps[k].Insert?
    ensures ss[|steps|] == s.(rows := s.rows + s.scan.paths, scan := Publishing({}))
    decreases |s.scan.paths|
  {
    if s.scan.paths == {} {
      ss, steps := [s], [];
      assert s.rows + s.scan.paths == s.rows;
    } else {
      var path :| path in s.scan.paths;
      var s' := s.(rows := s.rows + {path}, scan := Publishing(s.scan.paths - {path}));
      ss, steps := InsertAll(info, s');
      assert s'.rows + s'.scan.paths == s.rows + s.scan.paths;
      ss, steps := InsertFirst(info, s, path, ss, steps);
    }
  }

  lemma InsertFirst(info: Info, s: State, path: string, ss: seq<State>, steps: seq<Step>)
    returns (ss': seq<State>, steps': seq<Step>)
    requires WellState(info, s) && s.scan.Publishing? && path in s.scan.paths && IsTrace(info, ss, steps)
    requires ss[0] == s.(rows := s.rows + {path}, scan := Publishing(s.scan.paths - {path}))
    ensures steps' == [Insert(path)] + steps && IsTrace(info, ss', steps')
    ensures ss'[0] == s && ss'[|steps'|] == ss[|steps|]
  {
    ss', steps' := TraceCons(info, s, Insert(path), ss, steps);
  }

  /** The rest of a round nobody gets in the way of. */
  lemma FinishRound(info: Info, s: State) returns (ss: seq<State>, steps: seq<Step>)
    requires WellState(info, s) && s.scan.Publishing?
    ensures IsTrace(info, ss, steps) && ss[0] == s
    ensures |steps| > 0 && steps[|steps| - 1] == EndRound && forall k :: 0 <= k < |steps| - 1 ==> steps[k].Insert?
    ensures ss[|steps|] == s.(rows := s.rows + s.scan.paths, scan := AfterRound(s.bits))
  {
    ss, steps := InsertAll(info, s);
    var last := s.(rows := s.rows + s.scan.paths, scan := Publishing({}));
    TraceStep(info, ss, steps, EndRound);
    ss, steps := ss + [Next(info, last, EndRound)], steps + [EndRound];
  }

  /** A scan round nobody gets in the way of, a snapshot, its insertions and the end of the round, is
      `Publish`. */
  lemma UndisturbedScan(info: Info, s: State) returns (ss: seq<State>, steps: seq<Step>)
    requires WellState(info, s) && s.scan == Waiting
    ensures IsTrace(info, ss, steps) && ss[0] == s
    ensures |steps| > 1 && steps[0] == Snapshot && steps[|steps| - 1] == EndRound
    ensures forall k :: 1 <= k < |steps| - 1 ==> steps[k].Insert?
    ensures ss[|steps|] == Next(info, s, Publish)
  {
    var s' := Next(info, s, Snapshot);
    NextWell(info, s, Snapshot);
    ss, steps := FinishRound(info, s');
    ss, steps := TraceCons(info, s, Snapshot, ss, steps);
  }
}
