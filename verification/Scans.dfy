/** Scan rounds that other threads get between: exactly when publishing a file from a snapshot does
    harm, and exactly when a completed file is never published. */
module Scans {
  import opened Geometry
  import opened Completion
  import opened Runs
  import opened Interleaving
  import opened Publication
  import opened Integrity

  // ---- what makes a file lose its content ----

  /** Destroying piece `p` costs file `f` bytes that matter. */
  ghost predicate Damages(info: Info, p: nat, f: nat, content: seq<byte>)
    requires info.pieceLength > 0 && f < info.NumFiles()
  {
    exists x :: 0 <= x < |content| && info.InPiece(p, x) && info.InFile(f, x) && content[x] != 0
  }

  /** The step is the withdrawal that precedes such a destruction. */
  ghost predicate Withdraws(info: Info, s: State, step: Step, f: nat, content: seq<byte>)
    requires WellState(info, s) && Enabled(info, s, step) && f < info.NumFiles()
  {
    step.Unpublish? && Damages(info, Head(info, s, step.thread), f, content)
  }

  /** The step writes to file `f`. */
  ghost predicate Reaches(info: Info, step: Step, f: nat)
    requires f < info.NumFiles()
  {
    step.WriteBytes? && exists x :: step.at <= x < step.at + |step.data| && info.InFile(f, x)
  }

  /** What the step writes to file `f`, if anything, is the content. */
  ghost predicate Agreeing(info: Info, step: Step, f: nat, content: seq<byte>)
    requires f < info.NumFiles()
  {
    step.WriteBytes? ==>
      forall x :: step.at <= x < step.at + |step.data| && x < |content| && info.InFile(f, x) ==>
        step.data[x - step.at] == content[x]
  }

  /** Punches under way were under way before, at most as far. */
  ghost predicate NoNewPunch(info: Info, s: State, s': State)
    requires WellState(info, s) && WellState(info, s')
  {
    forall t :: IsPunching(s', t) ==>
      IsPunching(s, t) && Head(info, s', t) == Head(info, s, t) && s.jobs[t].phase.at <= s'.jobs[t].phase.at
  }

  lemma FileKept(info: Info, s: State, s': State, f: nat, content: seq<byte>)
    requires WellState(info, s) && WellState(info, s') && |content| == info.Total() && f < info.NumFiles()
    requires NoNewPunch(info, s, s') && FileSafe(info, s, f, content) && FileHolds(info, s'.bytes, f, content)
    ensures FileSafe(info, s', f, content)
  {
    forall t, x | IsPunching(s', t) && 0 <= x < |content| && info.InFile(f, x)
                  && s'.jobs[t].phase.at <= x < info.PieceEnd(Head(info, s', t))
      ensures content[x] == 0
    {
      assert !Crosses(info, s, t, f, content);
    }
  }

  lemma UnpublishKeepsFile(info: Info, s: State, t: nat, f: nat, content: seq<byte>)
    requires WellState(info, s) && |content| == info.Total() && f < info.NumFiles() && FileSafe(info, s, f, content)
    requires AtPhase(s, t, Cleared) && !Damages(info, Head(info, s, t), f, content)
    requires WellState(info, Next(info, s, Unpublish(t)))
    ensures FileSafe(info, Next(info, s, Unpublish(t)), f, content)
  {
    var s' := Next(info, s, Unpublish(t));
    forall u, x | IsPunching(s', u) && 0 <= x < |content| && info.InFile(f, x)
                  && s'.jobs[u].phase.at <= x < info.PieceEnd(Head(info, s', u))
      ensures content[x] == 0
    {
      if u == t {
        assert info.InPiece(Head(info, s, t), x);
      } else {
        assert !Crosses(info, s, u, f, content);
      }
    }
  }

  lemma PunchKeepsFile(info: Info, s: State, t: nat, n: nat, f: nat, content: seq<byte>)
    requires WellState(info, s) && |content| == info.Total() && f < info.NumFiles() && FileSafe(info, s, f, content)
    requires Enabled(info, s, Punch(t, n)) && WellState(info, Next(info, s, Punch(t, n)))
    ensures FileSafe(info, Next(info, s, Punch(t, n)), f, content)
  {
    var s' := Next(info, s, Punch(t, n));
    PieceShape(info, Head(info, s, t));
    assert !Crosses(info, s, t, f, content);
    FileKept(info, s, s', f, content);
  }

  lemma SchedulingKeepsFile(info: Info, s: State, step: Step, f: nat, content: seq<byte>)
    requires WellState(info, s) && |content| == info.Total() && f < info.NumFiles() && FileSafe(info, s, f, content)
    requires Enabled(info, s, step) && WellState(info, Next(info, s, step)) && Schedules(step)
    ensures FileSafe(info, Next(info, s, step), f, content)
  {
    SchedulingJobs(info, s, step);
    FileKept(info, s, Next(info, s, step), f, content);
  }

  lemma OthersKeepFile(info: Info, s: State, step: Step, f: nat, content: seq<byte>)
    requires WellState(info, s) && |content| == info.Total() && f < info.NumFiles() && FileSafe(info, s, f, content)
    requires Enabled(info, s, step) && WellState(info, Next(info, s, step)) && Agreeing(info, step, f, content)
    requires !step.Unpublish? && !step.Punch? && !Schedules(step)
    ensures FileSafe(info, Next(info, s, step), f, content)
  {
    FileKept(info, s, Next(info, s, step), f, content);
  }

  /** A file keeps its content, out of reach of punches under way, through every step that neither
      writes something else to it nor withdraws it for a destruction that matters. */
  lemma StepKeepsFile(info: Info, s: State, step: Step, f: nat, content: seq<byte>)
    requires WellState(info, s) && |content| == info.Total() && f < info.NumFiles() && FileSafe(info, s, f, content)
    requires Enabled(info, s, step) && Agreeing(info, step, f, content) && !Withdraws(info, s, step, f, content)
    requires WellState(info, Next(info, s, step))
    ensures FileSafe(info, Next(info, s, step), f, content)
  {
    if step.Unpublish? {
      UnpublishKeepsFile(info, s, step.thread, f, content);
    } else if step.Punch? {
      PunchKeepsFile(info, s, step.thread, step.n, f, content);
    } else if Schedules(step) {
      SchedulingKeepsFile(info, s, step, f, content);
    } else {
      OthersKeepFile(info, s, step, f, content);
    }
  }

  // ---- and what keeps it from regaining it ----

  /** Byte `x` is still to be punched. */
  ghost predicate Ahead(info: Info, s: State, x: nat)
    requires WellState(info, s)
  {
    exists t :: IsPunching(s, t) && s.jobs[t].phase.at <= x < info.PieceEnd(Head(info, s, t))
  }

  ghost predicate Doomed(info: Info, s: State, x: nat)
    requires WellState(info, s) && x < info.Total()
  {
    s.bytes[x] == 0 || Ahead(info, s, x)
  }

  lemma PunchDooms(info: Info, s: State, t: nat, n: nat, x: nat)
    requires WellState(info, s) && x < info.Total() && Doomed(info, s, x)
    requires Enabled(info, s, Punch(t, n)) && WellState(info, Next(info, s, Punch(t, n)))
    ensures Doomed(info, Next(info, s, Punch(t, n)), x)
  {
    var s' := Next(info, s, Punch(t, n));
    if s.bytes[x] != 0 {
      var u :| IsPunching(s, u) && s.jobs[u].phase.at <= x < info.PieceEnd(Head(info, s, u));
      if u != t || s.jobs[t].phase.at + n <= x {
        assert IsPunching(s', u) && s'.jobs[u].phase.at <= x < info.PieceEnd(Head(info, s', u));
      }
    }
  }

  lemma OthersDoom(info: Info, s: State, step: Step, x: nat)
    requires WellState(info, s) && x < info.Total() && Doomed(info, s, x)
    requires Enabled(info, s, step) && WellState(info, Next(info, s, step)) && !step.Punch?
    requires !(step.WriteBytes? && step.at <= x < step.at + |step.data|)
    ensures Doomed(info, Next(info, s, step), x)
  {
    var s' := Next(info, s, step);
    if Schedules(step) {
      SchedulingJobs(info, s, step);
    }
    if s.bytes[x] != 0 {
      var u :| IsPunching(s, u) && s.jobs[u].phase.at <= x < info.PieceEnd(Head(info, s, u));
      assert IsPunching(s', u) && s'.jobs[u].phase.at <= x < info.PieceEnd(Head(info, s', u));
    }
  }

  /** File `f` is going to miss a byte, or does so already. */
  ghost predicate FileDoomed(info: Info, s: State, f: nat, content: seq<byte>)
    requires WellState(info, s) && |content| == info.Total() && f < info.NumFiles()
  {
    exists x :: 0 <= x < |content| && info.InFile(f, x) && content[x] != 0 && Doomed(info, s, x)
  }

  lemma StepKeepsDoomed(info: Info, s: State, step: Step, f: nat, content: seq<byte>)
    requires WellState(info, s) && |content| == info.Total() && f < info.NumFiles() && FileDoomed(info, s, f, content)
    requires Enabled(info, s, step) && !Reaches(info, step, f) && WellState(info, Next(info, s, step))
    ensures FileDoomed(info, Next(info, s, step), f, content)
  {
    var x :| 0 <= x < |content| && info.InFile(f, x) && content[x] != 0 && Doomed(info, s, x);
    if step.Punch? {
      PunchDooms(info, s, step.thread, step.n, x);
    } else {
      OthersDoom(info, s, step, x);
    }
  }

  lemma WithdrawalDooms(info: Info, s: State, step: Step, f: nat, content: seq<byte>)
    requires WellState(info, s) && |content| == info.Total() && f < info.NumFiles()
    requires Enabled(info, s, step) && Withdraws(info, s, step, f, content) && WellState(info, Next(info, s, step))
    ensures FileDoomed(info, Next(info, s, step), f, content)
  {
    var s', t := Next(info, s, step), step.thread;
    var x :| 0 <= x < |content| && info.InPiece(Head(info, s, t), x) && info.InFile(f, x) && content[x] != 0;
    assert IsPunching(s', t) && s'.jobs[t].phase.at <= x < info.PieceEnd(Head(info, s', t));
    assert Doomed(info, s', x);
  }

  lemma DoomedIsUnsafe(info: Info, s: State, f: nat, content: seq<byte>)
    requires WellState(info, s) && |content| == info.Total() && f < info.NumFiles() && FileDoomed(info, s, f, content)
    ensures !FileSafe(info, s, f, content)
  {
    var x :| 0 <= x < |content| && info.InFile(f, x) && content[x] != 0 && Doomed(info, s, x);
    if s.bytes[x] != 0 {
      var t :| IsPunching(s, t) && s.jobs[t].phase.at <= x < info.PieceEnd(Head(info, s, t));
      assert Crosses(info, s, t, f, content);
    }
  }

  // ---- over runs ----

  ghost predicate WithdrawsAt(info: Info, ss: seq<State>, steps: seq<Step>, k: nat, f: nat, content: seq<byte>)
    requires |ss| == |steps| + 1 && k < |steps| && f < info.NumFiles()
  {
    IsStep(info, ss, steps, k) && Withdraws(info, ss[k], steps[k], f, content)
  }

  /** One of the steps `i` to `j` withdraws file `f` for a destruction that matters. */
  ghost predicate Withdrawn(info: Info, ss: seq<State>, steps: seq<Step>, i: nat, j: nat, f: nat, content: seq<byte>)
    requires |ss| == |steps| + 1 && i <= j <= |steps| && f < info.NumFiles()
  {
    exists k :: i <= k < j && WithdrawsAt(info, ss, steps, k, f, content)
  }

  /** None of the steps `i` to `j` writes to file `f`. */
  ghost predicate Unwritten(info: Info, steps: seq<Step>, i: nat, j: nat, f: nat)
    requires i <= j <= |steps| && f < info.NumFiles()
  {
    forall k :: i <= k < j ==> !Reaches(info, steps[k], f)
  }

  /** Step `k` writes nothing but its content to file `f`, and does not withdraw it for a destruction that
      matters. */
  ghost predicate Spares(info: Info, ss: seq<State>, steps: seq<Step>, k: nat, f: nat, content: seq<byte>)
    requires |ss| == |steps| + 1 && k < |steps| && f < info.NumFiles()
  {
    Agreeing(info, steps[k], f, content) && !WithdrawsAt(info, ss, steps, k, f, content)
  }

  lemma StepOfRunKeepsFile(info: Info, ss: seq<State>, steps: seq<Step>, k: nat, f: nat, content: seq<byte>)
    requires |ss| == |steps| + 1 && k < |steps| && IsStep(info, ss, steps, k) && f < info.NumFiles()
    requires |content| == info.Total() && FileSafe(info, ss[k], f, content)
    requires Spares(info, ss, steps, k, f, content) && WellState(info, ss[k + 1])
    ensures FileSafe(info, ss[k + 1], f, content)
  {
    StepKeepsFile(info, ss[k], steps[k], f, content);
  }

  /** A file stays safe while nothing else is written to it and no withdrawal matters. */
  lemma {:induction false} RunKeepsFile(info: Info, ss: seq<State>, steps: seq<Step>, i: nat, j: nat, f: nat, content: seq<byte>)
    requires IsTrace(info, ss, steps) && i <= j <= |steps| && f < info.NumFiles() && |content| == info.Total()
    requires WellState(info, ss[i]) && FileSafe(info, ss[i], f, content)
    requires WellState(info, ss[j]) && forall k :: i <= k < j ==> Spares(info, ss, steps, k, f, content)
    ensures FileSafe(info, ss[j], f, content)
  {
    if i < j {
      assert IsStep(info, ss, steps, j - 1);
      RunKeepsFile(info, ss, steps, i, j - 1, f, content);
      StepOfRunKeepsFile(info, ss, steps, j - 1, f, content);
    }
  }

  lemma StepOfRunDooms(info: Info, ss: seq<State>, steps: seq<Step>, k: nat, f: nat, content: seq<byte>)
    requires |ss| == |steps| + 1 && k < |steps| && IsStep(info, ss, steps, k) && f < info.NumFiles()
    requires |content| == info.Total() && !Reaches(info, steps[k], f)
    requires FileDoomed(info, ss[k], f, content) || WithdrawsAt(info, ss, steps, k, f, content)
    requires WellState(info, ss[k + 1])
    ensures FileDoomed(info, ss[k + 1], f, content)
  {
    if FileDoomed(info, ss[k], f, content) {
      StepKeepsDoomed(info, ss[k], steps[k], f, content);
    } else {
      WithdrawalDooms(info, ss[k], steps[k], f, content);
    }
  }

  lemma {:induction false} RunDooms(info: Info, ss: seq<State>, steps: seq<Step>, i: nat, j: nat, f: nat, content: seq<byte>)
    requires IsTrace(info, ss, steps) && i <= j <= |steps| && f < info.NumFiles() && |content| == info.Total()
    requires Unwritten(info, steps, i, j, f) && Withdrawn(info, ss, steps, i, j, f, content) && WellState(info, ss[j])
    ensures FileDoomed(info, ss[j], f, content)
  {
    assert IsStep(info, ss, steps, j - 1);
    if !WithdrawsAt(info, ss, steps, j - 1, f, content) {
      RunDooms(info, ss, steps, i, j - 1, f, content);
    }
    StepOfRunDooms(info, ss, steps, j - 1, f, content);
  }

  /** Exactly when a file that was complete at step `i`, and has not been written since, no longer holds
      its content at step `j` or is about to lose it: one of its pieces was withdrawn in between for a
      destruction that matters. */
  lemma FileSafeExactly(info: Info, ss: seq<State>, steps: seq<Step>, i: nat, j: nat, f: nat, content: seq<byte>)
    requires IsTrace(info, ss, steps) && i <= j <= |steps| && f < info.NumFiles() && SafeInv(info, ss[i], content)
    requires FileDone(info, ss[i].bits, f) && Unwritten(info, steps, i, j, f)
    ensures WellState(info, ss[j])
    ensures FileSafe(info, ss[j], f, content) <==> !Withdrawn(info, ss, steps, i, j, f, content)
  {
    WellAt(info, ss, steps, i, j);
    DoneFileSafe(info, ss[i], f, content);
    if Withdrawn(info, ss, steps, i, j, f, content) {
      RunDooms(info, ss, steps, i, j, f, content);
      DoomedIsUnsafe(info, ss[j], f, content);
    } else {
      forall k | i <= k < j
        ensures Spares(info, ss, steps, k, f, content)
      {
        assert !Reaches(info, steps[k], f);
      }
      RunKeepsFile(info, ss, steps, i, j, f, content);
    }
  }

  // ---- files that are written to meanwhile ----

  predicate WritesByte(step: Step, x: nat) {
    step.WriteBytes? && step.at <= x < step.at + |step.data|
  }

  ghost predicate PunchesByte(info: Info, ss: seq<State>, steps: seq<Step>, k: nat, x: nat)
    requires |ss| == |steps| + 1 && k < |steps|
  {
    && IsStep(info, ss, steps, k) && steps[k].Punch?
    && var at := ss[k].jobs[steps[k].thread].phase.at; at <= x < at + steps[k].n
  }

  /** Whether the last of the steps `i` to `j` that touched byte `x` punched it. */
  ghost predicate Destroyed(info: Info, ss: seq<State>, steps: seq<Step>, i: nat, j: nat, x: nat)
    requires |ss| == |steps| + 1 && i <= j <= |steps|
  {
    i < j && (|| PunchesByte(info, ss, steps, j - 1, x)
              || (!WritesByte(steps[j - 1], x) && Destroyed(info, ss, steps, i, j - 1, x)))
  }

  lemma StepOnByte(info: Info, ss: seq<State>, steps: seq<Step>, k: nat, f: nat, x: nat, content: seq<byte>)
    requires IsTrace(info, ss, steps) && k < |steps|
    requires |content| == info.Total() && f < info.NumFiles() && x < |content| && info.InFile(f, x)
    requires Agreeing(info, steps[k], f, content)
    ensures x < |ss[k].bytes| == |ss[k + 1].bytes|
    ensures ss[k + 1].bytes[x] == if PunchesByte(info, ss, steps, k, x) then 0
                                  else if WritesByte(steps[k], x) then content[x] else ss[k].bytes[x]
  {
    assert IsStep(info, ss, steps, k);
    NextWell(info, ss[k], steps[k]);
  }

  lemma {:induction false} ByteExactly(info: Info, ss: seq<State>, steps: seq<Step>, i: nat, j: nat, f: nat, x: nat,
                                       content: seq<byte>)
    requires IsTrace(info, ss, steps) && i <= j <= |steps| && WellState(info, ss[i])
    requires |content| == info.Total() && f < info.NumFiles() && x < |content| && info.InFile(f, x)
    requires ss[i].bytes[x] == content[x] && forall k :: i <= k < j ==> Agreeing(info, steps[k], f, content)
    ensures x < |ss[j].bytes| && ss[j].bytes[x] == if Destroyed(info, ss, steps, i, j, x) then 0 else content[x]
  {
    if i < j {
      ByteExactly(info, ss, steps, i, j - 1, f, x, content);
      StepOnByte(info, ss, steps, j - 1, f, x, content);
    }
  }

  /** A byte of the file that matters has been punched and not written since, or is about to be. */
  ghost predicate Missing(info: Info, ss: seq<State>, steps: seq<Step>, i: nat, j: nat, f: nat, content: seq<byte>)
    requires |ss| == |steps| + 1 && i <= j <= |steps| && WellState(info, ss[j]) && f < info.NumFiles()
  {
    exists x :: 0 <= x < |content| && info.InFile(f, x) && content[x] != 0 &&
                (Destroyed(info, ss, steps, i, j, x) || Ahead(info, ss[j], x))
  }

  /** The same when the file has been written to meanwhile, with its content: exactly when it no longer
      holds its content at step `j`, or is about to lose it. */
  lemma RewrittenFileSafeExactly(info: Info, ss: seq<State>, steps: seq<Step>, i: nat, j: nat, f: nat, content: seq<byte>)
    requires IsTrace(info, ss, steps) && i <= j <= |steps| && f < info.NumFiles() && SafeInv(info, ss[i], content)
    requires FileDone(info, ss[i].bits, f) && forall k :: i <= k < j ==> Agreeing(info, steps[k], f, content)
    ensures WellState(info, ss[j])
    ensures FileSafe(info, ss[j], f, content) <==> !Missing(info, ss, steps, i, j, f, content)
  {
    WellAt(info, ss, steps, i, j);
    DoneFileSafe(info, ss[i], f, content);
    forall x | 0 <= x < |content| && info.InFile(f, x)
      ensures ss[j].bytes[x] == if Destroyed(info, ss, steps, i, j, x) then 0 else content[x]
    {
      ByteExactly(info, ss, steps, i, j, f, x, content);
    }
    CrossedExactly(info, ss[j], f, content);
  }

  lemma CrossedExactly(info: Info, s: State, f: nat, content: seq<byte>)
    requires WellState(info, s) && f < info.NumFiles()
    ensures (exists t :: Crosses(info, s, t, f, content)) <==>
            exists x :: 0 <= x < |content| && info.InFile(f, x) && content[x] != 0 && Ahead(info, s, x)
  {
    if x :| 0 <= x < |content| && info.InFile(f, x) && content[x] != 0 && Ahead(info, s, x) {
      var t :| IsPunching(s, t) && s.jobs[t].phase.at <= x < info.PieceEnd(Head(info, s, t));
      assert Crosses(info, s, t, f, content);
    }
    if t :| Crosses(info, s, t, f, content) {
      var x :| 0 <= x < |content| && info.InFile(f, x) && s.jobs[t].phase.at <= x < info.PieceEnd(Head(info, s, t)) && content[x] != 0;
      assert Ahead(info, s, x);
    }
  }

  lemma WellAt(info: Info, ss: seq<State>, steps: seq<Step>, i: nat, j: nat)
    requires IsTrace(info, ss, steps) && i <= j <= |steps| && WellState(info, ss[i])
    ensures WellState(info, ss[j])
  {
    if i < j {
      assert IsStep(info, ss, steps, j - 1);
      NextWell(info, ss[j - 1], steps[j - 1]);
    }
  }

  // ---- publishing from a snapshot ----

  /** The last snapshot among the first `k` steps, or -1. */
  ghost function LastSnapshot(steps: seq<Step>, k: nat): (i: int)
    requires k <= |steps|
    ensures -1 <= i < k && (i >= 0 ==> steps[i].Snapshot?)
  {
    if k == 0 then -1 else if steps[k - 1].Snapshot? then k - 1 else LastSnapshot(steps, k - 1)
  }

  /** A round goes on only by the steps of the scan itself. */
  lemma RoundGoesOn(info: Info, s: State, step: Step)
    requires WellState(info, s) && Enabled(info, s, step) && Next(info, s, step).scan.Publishing?
    ensures step.Snapshot? || (s.scan.Publishing? && Next(info, s, step).scan.paths <= s.scan.paths)
  {
  }

  /** What a round has yet to publish was complete at its snapshot. */
  lemma {:induction false} CompleteAtSnapshot(info: Info, ss: seq<State>, steps: seq<Step>, k: nat)
    requires IsTrace(info, ss, steps) && k <= |steps| && !ss[0].scan.Publishing? && ss[k].scan.Publishing?
    requires info.pieceLength > 0
    ensures var i := LastSnapshot(steps, k); i >= 0 && ss[k].scan.paths <= DoneSet(info, ss[i].bits)
  {
    assert IsStep(info, ss, steps, k - 1);
    RoundGoesOn(info, ss[k - 1], steps[k - 1]);
    if !steps[k - 1].Snapshot? {
      CompleteAtSnapshot(info, ss, steps, k - 1);
    }
  }

  /** What is published at step `k` was complete at its snapshot, and publishing it does harm, now or
      later, exactly when it is not safe. */
  lemma InsertionNeedsSafe(info: Info, ss: seq<State>, steps: seq<Step>, k: nat, f: nat, content: seq<byte>)
    requires IsTrace(info, ss, steps) && k < |steps| && !ss[0].scan.Publishing?
    requires f < info.NumFiles() && steps[k] == Insert(info.Path(f)) && SafeInv(info, ss[k], content)
    ensures var i := LastSnapshot(steps, k); i >= 0 && FileDone(info, ss[i].bits, f)
    ensures StaysGood(info, ss[k + 1], content) <==> FileSafe(info, ss[k], f, content)
  {
    assert IsStep(info, ss, steps, k);
    CompleteAtSnapshot(info, ss, steps, k);
    PathInDoneSet(info, ss[LastSnapshot(steps, k)].bits, f);
    StepExactly(info, ss[k], steps[k], content);
    assert forall g :: 0 <= g < info.NumFiles() && info.Path(g) == info.Path(f) ==> g == f;
  }

  /** Exactly when publishing a file from a snapshot does harm, now or later, if nothing was written to
      it since: when one of its pieces was withdrawn since, for a destruction that matters. */
  lemma InsertionExactly(info: Info, ss: seq<State>, steps: seq<Step>, k: nat, f: nat, content: seq<byte>)
    requires IsTrace(info, ss, steps) && k < |steps| && !ss[0].scan.Publishing?
    requires f < info.NumFiles() && steps[k] == Insert(info.Path(f)) && SafeInv(info, ss[k], content)
    requires var i := LastSnapshot(steps, k);
             i >= 0 ==> SafeInv(info, ss[i], content) && Unwritten(info, steps, i, k, f)
    ensures LastSnapshot(steps, k) >= 0
    ensures StaysGood(info, ss[k + 1], content) <==>
            !Withdrawn(info, ss, steps, LastSnapshot(steps, k), k, f, content)
  {
    InsertionNeedsSafe(info, ss, steps, k, f, content);
    FileSafeExactly(info, ss, steps, LastSnapshot(steps, k), k, f, content);
  }

  /** And if it was written to since, with its content: when a byte of it was punched since and not
      written again, or a punch under way is still to reach one. */
  lemma RewrittenInsertionExactly(info: Info, ss: seq<State>, steps: seq<Step>, k: nat, f: nat, content: seq<byte>)
    requires IsTrace(info, ss, steps) && k < |steps| && !ss[0].scan.Publishing?
    requires f < info.NumFiles() && steps[k] == Insert(info.Path(f)) && SafeInv(info, ss[k], content)
    requires var i := LastSnapshot(steps, k);
             i >= 0 ==> SafeInv(info, ss[i], content) && forall m :: i <= m < k ==> Agreeing(info, steps[m], f, content)
    ensures LastSnapshot(steps, k) >= 0
    ensures StaysGood(info, ss[k + 1], content) <==>
            !Missing(info, ss, steps, LastSnapshot(steps, k), k, f, content)
  {
    InsertionNeedsSafe(info, ss, steps, k, f, content);
    RewrittenFileSafeExactly(info, ss, steps, LastSnapshot(steps, k), k, f, content);
  }

  /** File `f` was complete at step `m` (such as its snapshot, or now); since then nothing but its
      content was written to it, and none of its pieces was withdrawn for a destruction that matters. */
  ghost predicate UntouchedSince(info: Info, ss: seq<State>, steps: seq<Step>, m: nat, k: nat, f: nat, content: seq<byte>)
    requires |ss| == |steps| + 1 && m <= k <= |steps| && info.pieceLength > 0 && f < info.NumFiles()
  {
    FileDone(info, ss[m].bits, f) && forall i :: m <= i < k ==> Spares(info, ss, steps, i, f, content)
  }

  /** The guard of a step in a run: for publishing from a snapshot, that the file was complete at some
      moment and untouched since. */
  ghost predicate GuardedStep(info: Info, ss: seq<State>, steps: seq<Step>, content: seq<byte>, k: nat)
    requires |ss| == |steps| + 1 && k < |steps| && |content| == info.Total() && info.pieceLength > 0
  {
    && IsStep(info, ss, steps, k)
    && if steps[k].Insert? then
         forall f :: 0 <= f < info.NumFiles() && info.Path(f) == steps[k].path ==>
           exists m :: 0 <= m <= k && UntouchedSince(info, ss, steps, m, k, f, content)
       else IntactGuard(info, ss[k], steps[k], content)
  }

  lemma GuardedInsertSafe(info: Info, ss: seq<State>, steps: seq<Step>, content: seq<byte>, k: nat)
    requires IsTrace(info, ss, steps) && k < |steps| && steps[k].Insert? && |content| == info.Total() && info.pieceLength > 0
    requires forall m :: 0 <= m <= k ==> SafeInv(info, ss[m], content)
    requires GuardedStep(info, ss, steps, content, k)
    ensures SafeInv(info, ss[k + 1], content)
  {
    forall f | 0 <= f < info.NumFiles() && info.Path(f) == steps[k].path
      ensures FileSafe(info, ss[k], f, content)
    {
      var m :| 0 <= m <= k && UntouchedSince(info, ss, steps, m, k, f, content);
      DoneFileSafe(info, ss[m], f, content);
      RunKeepsFile(info, ss, steps, m, k, f, content);
    }
    StepKeepsSafe(info, ss[k], steps[k], content);
  }

  lemma GuardedStepSafe(info: Info, ss: seq<State>, steps: seq<Step>, content: seq<byte>, k: nat)
    requires IsTrace(info, ss, steps) && k < |steps| && |content| == info.Total() && info.pieceLength > 0
    requires forall m :: 0 <= m <= k ==> SafeInv(info, ss[m], content)
    requires GuardedStep(info, ss, steps, content, k)
    ensures SafeInv(info, ss[k + 1], content)
  {
    if steps[k].Insert? {
      GuardedInsertSafe(info, ss, steps, content, k);
    } else {
      StepKeepsSafe(info, ss[k], steps[k], content);
    }
  }

  lemma {:induction false} GuardedRunSafe(info: Info, ss: seq<State>, steps: seq<Step>, content: seq<byte>, k: nat)
    requires IsTrace(info, ss, steps) && k < |ss| && SafeInv(info, ss[0], content)
    requires forall i :: 0 <= i < |steps| ==> GuardedStep(info, ss, steps, content, i)
    ensures forall m :: 0 <= m <= k ==> SafeInv(info, ss[m], content)
  {
    if k > 0 {
      GuardedRunSafe(info, ss, steps, content, k - 1);
      GuardedStepSafe(info, ss, steps, content, k - 1);
    }
  }

  /** Over whole runs: as long as the guarded steps meet their guards, in every state complete pieces
      and published files hold the content. */
  lemma RunKeepsIntact(info: Info, ss: seq<State>, steps: seq<Step>, content: seq<byte>, k: nat)
    requires IsTrace(info, ss, steps) && k < |ss| && SafeInv(info, ss[0], content)
    requires forall i :: 0 <= i < |steps| ==> GuardedStep(info, ss, steps, content, i)
    ensures SafeInv(info, ss[k], content) && Good(info, ss[k], content)
  {
    GuardedRunSafe(info, ss, steps, content, k);
    SafeIsGood(info, ss[k], content);
  }

  // ---- completed files that are never published ----

  /** Steps after which the scan is over: a failing insert, or the end of a round with every piece
      complete. */
  ghost predicate EndsScan(s: State, step: Step) {
    step.InsertFails? || ((step.Publish? || step.EndRound?) && AllComplete(s.bits))
  }

  lemma ScanEndsExactly(info: Info, s: State, step: Step)
    requires WellState(info, s) && Enabled(info, s, step)
    ensures Next(info, s, step).scan.Ended? <==> s.scan.Ended? || EndsScan(s, step)
    ensures s.scan.Ended? ==> Next(info, s, step).rows <= s.rows
  {
  }

  /** Once the scan is over it stays so, and rows only ever go. */
  lemma {:induction false} EndedForGood(info: Info, ss: seq<State>, steps: seq<Step>, k: nat)
    requires IsTrace(info, ss, steps) && k < |ss| && ss[0].scan.Ended?
    ensures ss[k].scan.Ended? && ss[k].rows <= ss[0].rows
  {
    if k > 0 {
      EndedForGood(info, ss, steps, k - 1);
      assert IsStep(info, ss, steps, k - 1);
      ScanEndsExactly(info, ss[k - 1], steps[k - 1]);
    }
  }

  lemma {:induction false} EndedExactly(info: Info, ss: seq<State>, steps: seq<Step>, k: nat)
    requires IsTrace(info, ss, steps) && k < |ss| && !ss[0].scan.Ended?
    ensures ss[k].scan.Ended? <==> exists m :: 0 <= m < k && EndsScan(ss[m], steps[m])
  {
    if k > 0 {
      EndedExactly(info, ss, steps, k - 1);
      assert IsStep(info, ss, steps, k - 1);
      ScanEndsExactly(info, ss[k - 1], steps[k - 1]);
    }
  }

  /** Whatever happens from now on in this session, by anyone, `path` is not published. */
  ghost predicate NeverPublished(info: Info, s: State, path: string) {
    forall ss: seq<State>, steps: seq<Step> :: IsTrace(info, ss, steps) && ss[0] == s ==> path !in ss[|steps|].rows
  }

  lemma PublishFrom(info: Info, s: State, f: nat) returns (ss: seq<State>, steps: seq<Step>)
    requires WellState(info, s) && s.scan == Waiting && f < info.NumFiles() && FileDone(info, s.bits, f)
    ensures IsTrace(info, ss, steps) && ss[0] == s && info.Path(f) in ss[|steps|].rows
  {
    ss, steps := TraceCons(info, s, Publish, [Next(info, s, Publish)], []);
  }

  /** With some piece incomplete, the round under way is not the last. */
  lemma PublishAfterRound(info: Info, s: State, f: nat) returns (ss: seq<State>, steps: seq<Step>)
    requires WellState(info, s) && s.scan.Publishing? && !AllComplete(s.bits)
    requires f < info.NumFiles() && FileDone(info, s.bits, f)
    ensures IsTrace(info, ss, steps) && ss[0] == s && info.Path(f) in ss[|steps|].rows
  {
    ss, steps := FinishRound(info, s);
    var ss', steps' := PublishFrom(info, s.(rows := s.rows + s.scan.paths, scan := Waiting), f);
    TraceAppend(info, ss, steps, ss', steps');
    ss, steps := ss + ss'[1..], steps + steps';
  }

  /** Otherwise losing a piece until the round is over makes it not the last. */
  lemma PublishAfterLoss(info: Info, s: State, f: nat) returns (ss: seq<State>, steps: seq<Step>)
    requires WellState(info, s) && s.scan.Publishing? && AllComplete(s.bits) && |s.bits| > 0
    requires f < info.NumFiles()
    ensures IsTrace(info, ss, steps) && ss[0] == s && info.Path(f) in ss[|steps|].rows
  {
    var s1 := s.(bits := s.bits[0 := false]);
    assert !s1.bits[0];
    ss, steps := FinishRound(info, s1);
    var s2 := s1.(rows := s1.rows + s1.scan.paths, scan := Waiting);
    var t := FreshThread(s2);
    var s3 := Next(info, s2, SetComplete(t, 0));
    NextWell(info, s2, SetComplete(t, 0));
    assert s3.bits == s.bits;
    var ss', steps' := PublishFrom(info, s3, f);
    ss', steps' := TraceCons(info, s2, SetComplete(t, 0), ss', steps');
    TraceAppend(info, ss, steps, ss', steps');
    ss, steps := TraceCons(info, s, SetIncomplete(0), ss + ss'[1..], steps + steps');
  }

  lemma FreshThread(s: State) returns (t: nat)
    ensures Idle(s, t)
  {
    t := Unused(s.jobs.Keys + s.adding.Keys);
  }

  lemma {:induction false} Unused(used: set<nat>) returns (t: nat)
    ensures forall u :: u in used ==> u < t
    decreases |used|
  {
    t := 0;
    if used != {} {
      var u :| u in used;
      var rest := Unused(used - {u});
      t := if u < rest then rest else u + 1;
      assert forall v :: v in used ==> v == u || v in used - {u};
    }
  }

  /** Exactly when a completed file is never published in a session: when it is not published now and
      some round has ended with every piece complete, or some insert failed, before. */
  lemma NeverPublishedExactly(info: Info, ss: seq<State>, steps: seq<Step>, k: nat, f: nat)
    requires IsTrace(info, ss, steps) && k < |ss| && !ss[0].scan.Ended? && WellState(info, ss[k])
    requires f < info.NumFiles() && FileDone(info, ss[k].bits, f) && |ss[k].bits| > 0
    ensures NeverPublished(info, ss[k], info.Path(f)) <==>
            info.Path(f) !in ss[k].rows && exists m :: 0 <= m < k && EndsScan(ss[m], steps[m])
  {
    EndedExactly(info, ss, steps, k);
    NeverPublishedIff(info, ss[k], f);
  }

  lemma NeverPublishedIff(info: Info, s: State, f: nat)
    requires WellState(info, s) && f < info.NumFiles() && FileDone(info, s.bits, f) && |s.bits| > 0
    ensures NeverPublished(info, s, info.Path(f)) <==> info.Path(f) !in s.rows && s.scan.Ended?
  {
    assert IsTrace(info, [s], []);
    if s.scan.Ended? {
      forall ss: seq<State>, steps: seq<Step> | IsTrace(info, ss, steps) && ss[0] == s
        ensures ss[|steps|].rows <= s.rows
      {
        EndedForGood(info, ss, steps, |steps|);
      }
    } else if s.scan.Publishing? {
      var ss, steps;
      if AllComplete(s.bits) {
        ss, steps := PublishAfterLoss(info, s, f);
      } else {
        ss, steps := PublishAfterRound(info, s, f);
      }
      assert ss[0] == s;
    } else {
      var ss, steps := PublishFrom(info, s, f);
      assert ss[0] == s;
    }
  }
}
