/** When complete pieces and published files keep the torrent's content.  The answer is an invariant,
    and it is the weakest one: it holds exactly in the states from which the cache, left to itself,
    never damages a complete piece or a published file. */
module Integrity {
  import opened Geometry
  import opened Completion
  import opened Runs
  import opened Interleaving

  // ---- what is promised, and what an eviction still threatens ----

  /** Complete pieces and published files hold the content. */
  ghost predicate Good(info: Info, s: State, content: seq<byte>)
    requires WellState(info, s) && |content| == info.Total()
  {
    && (forall p :: 0 <= p < |s.bits| && s.bits[p] ==> PieceHolds(info, s.bytes, p, content))
    && (forall f :: 0 <= f < info.NumFiles() && info.Path(f) in s.rows ==> FileHolds(info, s.bytes, f, content))
  }

  /** Thread `t` has cleared a piece and not yet punched all of it. */
  ghost predicate InWindow(s: State, t: nat) {
    AtPhase(s, t, Cleared) || IsPunching(s, t)
  }

  /** Where the bytes still to be punched start. */
  ghost function RestStart(info: Info, s: State, t: nat): (r: nat)
    requires WellState(info, s) && InWindow(s, t)
    ensures info.PieceStart(Head(info, s, t)) <= r < info.PieceEnd(Head(info, s, t))
  {
    PieceShape(info, Head(info, s, t));
    if IsPunching(s, t) then s.jobs[t].phase.at else info.PieceStart(Head(info, s, t))
  }

  /** Punching the rest loses nothing: the content is zero there. */
  ghost predicate Harmless(info: Info, s: State, t: nat, content: seq<byte>)
    requires WellState(info, s) && InWindow(s, t)
  {
    forall x :: 0 <= x < |content| && RestStart(info, s, t) <= x < info.PieceEnd(Head(info, s, t)) ==> content[x] == 0
  }

  /** Some eviction of piece `p` has yet to punch bytes that matter. */
  ghost predicate Endangered(info: Info, s: State, p: int, content: seq<byte>)
    requires WellState(info, s)
  {
    exists t :: InWindow(s, t) && Head(info, s, t) == p && !Harmless(info, s, t, content)
  }

  /** File `f` has bytes that matter among those thread `t` is about to punch. */
  ghost predicate Crosses(info: Info, s: State, t: nat, f: nat, content: seq<byte>)
    requires WellState(info, s) && f < info.NumFiles()
  {
    IsPunching(s, t) && exists x :: 0 <= x < |content| && info.InFile(f, x)
                                    && s.jobs[t].phase.at <= x < info.PieceEnd(Head(info, s, t)) && content[x] != 0
  }

  ghost predicate PieceSafe(info: Info, s: State, p: nat, content: seq<byte>)
    requires WellState(info, s) && |content| == info.Total()
  {
    PieceHolds(info, s.bytes, p, content) && !Endangered(info, s, p, content)
  }

  ghost predicate FileSafe(info: Info, s: State, f: nat, content: seq<byte>)
    requires WellState(info, s) && |content| == info.Total() && f < info.NumFiles()
  {
    FileHolds(info, s.bytes, f, content) && forall t :: !Crosses(info, s, t, f, content)
  }

  ghost predicate SafeInv(info: Info, s: State, content: seq<byte>) {
    && WellState(info, s) && |content| == info.Total()
    && (forall p :: 0 <= p < |s.bits| && s.bits[p] ==> PieceSafe(info, s, p, content))
    && (forall f :: 0 <= f < info.NumFiles() && info.Path(f) in s.rows ==> FileSafe(info, s, f, content))
  }

  /** A write leaves every published file as it should be. */
  ghost predicate WriteAgrees(info: Info, s: State, at: nat, data: seq<byte>, content: seq<byte>)
    requires WellState(info, s) && |content| == info.Total() && at + |data| <= |content|
  {
    forall f, x :: 0 <= f < info.NumFiles() && info.Path(f) in s.rows && at <= x < at + |data| && info.InFile(f, x) ==>
      data[x - at] == content[x]
  }

  /** What keeps the invariant.  Three steps need a guard: marking a piece complete, writing, and
      publishing from an old snapshot. */
  ghost predicate IntactGuard(info: Info, s: State, step: Step, content: seq<byte>)
    requires WellState(info, s) && Enabled(info, s, step) && |content| == info.Total()
  {
    match step
    case SetComplete(_, p) => PieceSafe(info, s, p, content)
    case WriteBytes(p, at, data) => PieceShape(info, p); WriteAgrees(info, s, at, data, content)
    case Insert(path) =>
      forall f :: 0 <= f < info.NumFiles() && info.Path(f) == path ==> FileSafe(info, s, f, content)
    case _ => true
  }

  // ---- each step keeps the invariant exactly when its guard holds ----

  /** The threats that were there before are all there is. */
  ghost predicate NoNewThreat(info: Info, s: State, s': State)
    requires WellState(info, s) && WellState(info, s')
  {
    forall t :: InWindow(s', t) ==>
      && InWindow(s, t) && Head(info, s', t) == Head(info, s, t) && RestStart(info, s, t) <= RestStart(info, s', t)
      && (IsPunching(s', t) ==> IsPunching(s, t))
  }

  lemma PieceStaysSafe(info: Info, s: State, s': State, p: nat, content: seq<byte>)
    requires WellState(info, s) && WellState(info, s') && |content| == info.Total() && p < |s.bits|
    requires NoNewThreat(info, s, s') && PieceSafe(info, s, p, content)
    requires PieceHolds(info, s'.bytes, p, content)
    ensures PieceSafe(info, s', p, content)
  {
    forall t | InWindow(s', t) && Head(info, s', t) == p
      ensures Harmless(info, s', t, content)
    {
      assert Harmless(info, s, t, content);
    }
  }

  lemma FileStaysSafe(info: Info, s: State, s': State, f: nat, content: seq<byte>)
    requires WellState(info, s) && WellState(info, s') && |content| == info.Total() && f < info.NumFiles()
    requires NoNewThreat(info, s, s') && FileSafe(info, s, f, content)
    requires FileHolds(info, s'.bytes, f, content)
    ensures FileSafe(info, s', f, content)
  {
    forall t | Crosses(info, s', t, f, content)
      ensures false
    {
      assert Crosses(info, s, t, f, content);
    }
  }

  /** Bytes, and threats, as they were; no piece newly complete, no file newly published. */
  lemma QuietKeepsSafe(info: Info, s: State, s': State, content: seq<byte>)
    requires SafeInv(info, s, content) && WellState(info, s') && NoNewThreat(info, s, s')
    requires s'.bytes == s.bytes && s'.rows <= s.rows
    requires forall p :: 0 <= p < |s.bits| && s'.bits[p] ==> s.bits[p]
    ensures SafeInv(info, s', content)
  {
    forall p | 0 <= p < |s'.bits| && s'.bits[p]
      ensures PieceSafe(info, s', p, content)
    {
      PieceStaysSafe(info, s, s', p, content);
    }
    forall f | 0 <= f < info.NumFiles() && info.Path(f) in s'.rows
      ensures FileSafe(info, s', f, content)
    {
      FileStaysSafe(info, s, s', f, content);
    }
  }

  lemma SetSafe(info: Info, s: State, t: nat, p: nat, content: seq<byte>)
    requires SafeInv(info, s, content) && p < |s.bits| && Idle(s, t)
    ensures SafeInv(info, Next(info, s, SetComplete(t, p)), content) <==> PieceSafe(info, s, p, content)
  {
    var s' := Next(info, s, SetComplete(t, p));
    NextWell(info, s, SetComplete(t, p));
    assert NoNewThreat(info, s, s') && NoNewThreat(info, s', s);
    if PieceSafe(info, s, p, content) {
      OneMoreKeepsSafe(info, s, s', p, content);
    }
    if SafeInv(info, s', content) {
      assert s'.bits[p];
      PieceStaysSafe(info, s', s, p, content);
    }
  }

  lemma OneMoreKeepsSafe(info: Info, s: State, s': State, p: nat, content: seq<byte>)
    requires SafeInv(info, s, content) && WellState(info, s') && NoNewThreat(info, s, s')
    requires s'.bytes == s.bytes && s'.rows == s.rows && p < |s.bits| && s'.bits == s.bits[p := true]
    requires PieceSafe(info, s, p, content)
    ensures SafeInv(info, s', content)
  {
    forall q | 0 <= q < |s'.bits| && s'.bits[q]
      ensures PieceSafe(info, s', q, content)
    {
      PieceStaysSafe(info, s, s', q, content);
    }
    forall f | 0 <= f < info.NumFiles() && info.Path(f) in s'.rows
      ensures FileSafe(info, s', f, content)
    {
      FileStaysSafe(info, s, s', f, content);
    }
  }

  /** A change inside piece `p` leaves the other pieces alone. */
  lemma OtherPiecesHold(info: Info, s: State, s': State, p: nat, q: nat, content: seq<byte>)
    requires WellState(info, s) && WellState(info, s') && |content| == info.Total()
    requires p < |s.bits| && q < |s.bits| && p != q
    requires forall x: nat :: x < |s.bytes| && !info.InPiece(p, x) ==> s'.bytes[x] == s.bytes[x]
    requires PieceHolds(info, s.bytes, q, content)
    ensures PieceHolds(info, s'.bytes, q, content)
  {
    forall x: nat | x < |s.bytes| && info.InPiece(q, x)
      ensures !info.InPiece(p, x)
    {
      PieceOfByte(info, x, p);
      PieceOfByte(info, x, q);
    }
  }

  lemma WriteSafe(info: Info, s: State, p: nat, at: nat, data: seq<byte>, content: seq<byte>)
    requires SafeInv(info, s, content) && Enabled(info, s, WriteBytes(p, at, data))
    requires at + |data| <= |content|
    ensures SafeInv(info, Next(info, s, WriteBytes(p, at, data)), content) <==> WriteAgrees(info, s, at, data, content)
  {
    var s' := Next(info, s, WriteBytes(p, at, data));
    NextWell(info, s, WriteBytes(p, at, data));
    assert NoNewThreat(info, s, s');
    if WriteAgrees(info, s, at, data, content) {
      forall q | 0 <= q < |s'.bits| && s'.bits[q]
        ensures PieceSafe(info, s', q, content)
      {
        OtherPiecesHold(info, s, s', p, q, content);
        PieceStaysSafe(info, s, s', q, content);
      }
      forall f | 0 <= f < info.NumFiles() && info.Path(f) in s'.rows
        ensures FileSafe(info, s', f, content)
      {
        assert FileHolds(info, s.bytes, f, content);
        FileStaysSafe(info, s, s', f, content);
      }
    }
    if SafeInv(info, s', content) {
      forall f, x | 0 <= f < info.NumFiles() && info.Path(f) in s.rows && at <= x < at + |data| && info.InFile(f, x)
        ensures data[x - at] == content[x]
      {
        assert FileSafe(info, s', f, content);
        assert s'.bytes[x] == content[x];
      }
    }
  }

  lemma InsertSafe(info: Info, s: State, path: string, content: seq<byte>)
    requires SafeInv(info, s, content) && Enabled(info, s, Insert(path))
    ensures SafeInv(info, Next(info, s, Insert(path)), content) <==> IntactGuard(info, s, Insert(path), content)
  {
    var s' := Next(info, s, Insert(path));
    NextWell(info, s, Insert(path));
    assert NoNewThreat(info, s, s') && NoNewThreat(info, s', s);
    if IntactGuard(info, s, Insert(path), content) {
      forall q | 0 <= q < |s'.bits| && s'.bits[q]
        ensures PieceSafe(info, s', q, content)
      {
        PieceStaysSafe(info, s, s', q, content);
      }
      forall f | 0 <= f < info.NumFiles() && info.Path(f) in s'.rows
        ensures FileSafe(info, s', f, content)
      {
        assert FileSafe(info, s, f, content);
        FileStaysSafe(info, s, s', f, content);
      }
    }
    if SafeInv(info, s', content) {
      forall f | 0 <= f < info.NumFiles() && info.Path(f) == path
        ensures FileSafe(info, s, f, content)
      {
        FileStaysSafe(info, s', s, f, content);
      }
    }
  }

  /** A file all of whose pieces are complete is safe. */
  lemma DoneFileSafe(info: Info, s: State, f: nat, content: seq<byte>)
    requires SafeInv(info, s, content) && f < info.NumFiles() && FileDone(info, s.bits, f)
    ensures FileSafe(info, s, f, content)
  {
    forall x: nat | x < |content| && info.InFile(f, x)
      ensures s.bytes[x] == content[x] && s.bits[PieceOf(info, x)] && info.InPiece(PieceOf(info, x), x)
    {
      var p := PieceOf(info, x);
      SharedBytesAffect(info, f, p);
      assert PieceSafe(info, s, p, content);
    }
    forall t, x | IsPunching(s, t) && 0 <= x < |content| && info.InFile(f, x)
                  && s.jobs[t].phase.at <= x < info.PieceEnd(Head(info, s, t))
      ensures content[x] == 0
    {
      var p := Head(info, s, t);
      assert JobFits(info, s.jobs[t]);
      PieceOfByte(info, x, p);
      assert PieceSafe(info, s, p, content) && InWindow(s, t) && Harmless(info, s, t, content);
    }
  }

  /** The piece a byte of the content lies in. */
  ghost function PieceOf(info: Info, x: nat): (p: nat)
    requires info.pieceLength > 0 && x < info.Total()
    ensures p < info.NumPieces() && info.InPiece(p, x)
  {
    var p := x / info.pieceLength;
    QuotientBounds(x, info.pieceLength);
    ValidPieceIff(info, p);
    PieceOfByte(info, x, p);
    p
  }

  lemma PublishSafe(info: Info, s: State, content: seq<byte>)
    requires SafeInv(info, s, content) && s.scan == Waiting
    ensures SafeInv(info, Next(info, s, Publish), content)
  {
    var s' := Next(info, s, Publish);
    forall q | 0 <= q < |s'.bits| && s'.bits[q]
      ensures PieceSafe(info, s', q, content)
    {
      PieceStaysSafe(info, s, s', q, content);
    }
    forall f | 0 <= f < info.NumFiles() && info.Path(f) in s'.rows
      ensures FileSafe(info, s', f, content)
    {
      PathInDoneSet(info, s.bits, f);
      if info.Path(f) !in s.rows {
        DoneFileSafe(info, s, f, content);
      }
      FileStaysSafe(info, s, s', f, content);
    }
  }

  lemma ClearSafe(info: Info, s: State, t: nat, content: seq<byte>)
    requires SafeInv(info, s, content) && AtPhase(s, t, Pending)
    ensures SafeInv(info, Next(info, s, Clear(t)), content)
  {
    var s' := Next(info, s, Clear(t));
    NextWell(info, s, Clear(t));
    forall q, u | 0 <= q < |s'.bits| && s'.bits[q] && InWindow(s', u) && Head(info, s', u) == q
      ensures Harmless(info, s', u, content)
    {
      assert u != t && PieceSafe(info, s, q, content);
      assert InWindow(s, u) && Harmless(info, s, u, content);
    }
    forall f, u | 0 <= f < info.NumFiles() && info.Path(f) in s'.rows
      ensures !Crosses(info, s', u, f, content)
    {
      assert FileSafe(info, s, f, content) && !Crosses(info, s, u, f, content);
    }
  }

  lemma UnpublishSafe(info: Info, s: State, t: nat, content: seq<byte>)
    requires SafeInv(info, s, content) && AtPhase(s, t, Cleared)
    ensures SafeInv(info, Next(info, s, Unpublish(t)), content)
  {
    var s' := Next(info, s, Unpublish(t));
    NextWell(info, s, Unpublish(t));
    var p := Head(info, s, t);
    forall q, u | 0 <= q < |s'.bits| && s'.bits[q] && InWindow(s', u) && Head(info, s', u) == q
      ensures Harmless(info, s', u, content)
    {
      assert PieceSafe(info, s, q, content) && InWindow(s, u) && Harmless(info, s, u, content);
    }
    forall f, u | 0 <= f < info.NumFiles() && info.Path(f) in s'.rows
      ensures !Crosses(info, s', u, f, content)
    {
      assert FileSafe(info, s, f, content) && !Crosses(info, s, u, f, content);
      PathInAffected(info, f, p);
      UnaffectedFileAvoids(info, f, p);
    }
  }

  lemma UnaffectedFileAvoids(info: Info, f: nat, p: nat)
    requires info.pieceLength > 0 && f < info.NumFiles() && p < info.NumPieces() && !info.Affects(f, p)
    ensures forall x :: 0 <= x && info.InFile(f, x) ==> !info.InPiece(p, x)
  {
    if info.ShareBytes(f, p) {
      SharedBytesAffect(info, f, p);
    }
  }

  lemma PunchSafe(info: Info, s: State, t: nat, n: nat, content: seq<byte>)
    requires SafeInv(info, s, content) && Enabled(info, s, Punch(t, n))
    ensures SafeInv(info, Next(info, s, Punch(t, n)), content)
  {
    var s' := Next(info, s, Punch(t, n));
    NextWell(info, s, Punch(t, n));
    var p := Head(info, s, t);
    PieceShape(info, p);
    assert NoNewThreat(info, s, s');
    forall q | 0 <= q < |s'.bits| && s'.bits[q]
      ensures PieceSafe(info, s', q, content)
    {
      assert PieceSafe(info, s, q, content);
      if q == p {
        assert InWindow(s, t) && Harmless(info, s, t, content);
      } else {
        OtherPiecesHold(info, s, s', p, q, content);
      }
      PieceStaysSafe(info, s, s', q, content);
    }
    forall f | 0 <= f < info.NumFiles() && info.Path(f) in s'.rows
      ensures FileSafe(info, s', f, content)
    {
      assert FileSafe(info, s, f, content) && !Crosses(info, s, t, f, content);
      FileStaysSafe(info, s, s', f, content);
    }
  }

  /** The steps that change neither bytes nor rows, and make no piece complete. */
  lemma SchedulingSafe(info: Info, s: State, step: Step, content: seq<byte>)
    requires SafeInv(info, s, content) && Enabled(info, s, step)
    requires Schedules(step)
    ensures SafeInv(info, Next(info, s, step), content)
  {
    NextWell(info, s, step);
    SchedulingJobs(info, s, step);
    LessIsSafe(info, s, Next(info, s, step), content);
  }

  /** Evictions under way are among those before, unchanged. */
  lemma LessIsSafe(info: Info, s: State, s': State, content: seq<byte>)
    requires SafeInv(info, s, content) && WellState(info, s') && s'.bytes == s.bytes && s'.rows == s.rows
    requires forall p :: 0 <= p < |s.bits| && s'.bits[p] ==> s.bits[p]
    requires forall u :: u in s'.jobs && s'.jobs[u].phase != Pending ==> u in s.jobs && s'.jobs[u] == s.jobs[u]
    ensures SafeInv(info, s', content)
  {
    QuietKeepsSafe(info, s, s', content);
  }

  lemma OthersSafe(info: Info, s: State, step: Step, content: seq<byte>)
    requires SafeInv(info, s, content) && Enabled(info, s, step)
    requires step.Touch? || step.Snapshot? || step.InsertFails? || step.EndRound? || step.SetIncomplete?
    ensures SafeInv(info, Next(info, s, step), content)
  {
    NextWell(info, s, step);
    var s' := Next(info, s, step);
    assert NoNewThreat(info, s, s');
    QuietKeepsSafe(info, s, s', content);
  }

  /** A step of any thread keeps complete pieces and published files safe exactly when its guard
      holds; all but three kinds of steps need none. */
  lemma StepKeepsSafe(info: Info, s: State, step: Step, content: seq<byte>)
    requires SafeInv(info, s, content) && Enabled(info, s, step)
    ensures SafeInv(info, Next(info, s, step), content) <==> IntactGuard(info, s, step, content)
  {
    match step
    case SetComplete(t, p) => SetSafe(info, s, t, p, content);
    case WriteBytes(p, at, data) => PieceShape(info, p); WriteSafe(info, s, p, at, data, content);
    case Insert(path) => InsertSafe(info, s, path, content);
    case Publish => PublishSafe(info, s, content);
    case Clear(t) => ClearSafe(info, s, t, content);
    case Unpublish(t) => UnpublishSafe(info, s, t, content);
    case Punch(t, n) => PunchSafe(info, s, t, n, content);
    case Touch(_, _) => OthersSafe(info, s, step, content);
    case Snapshot => OthersSafe(info, s, step, content);
    case InsertFails => OthersSafe(info, s, step, content);
    case EndRound => OthersSafe(info, s, step, content);
    case SetIncomplete(_) => OthersSafe(info, s, step, content);
    case _ => SchedulingSafe(info, s, step, content);
  }

  // ---- the invariant is the weakest one ----

  /** A step of the cache itself: nobody marks a piece complete or writes, and only files that are
      complete at that moment are published. */
  ghost predicate OnItsOwn(info: Info, s: State, step: Step)
    requires WellState(info, s)
  {
    match step
    case SetComplete(_, _) => false
    case WriteBytes(_, _, _) => false
    case Insert(path) => path in DoneSet(info, s.bits)
    case _ => true
  }

  /** One step of a run. */
  ghost predicate OwnStep(info: Info, ss: seq<State>, steps: seq<Step>, k: nat)
    requires |ss| == |steps| + 1 && k < |steps|
  {
    IsStep(info, ss, steps, k) && OnItsOwn(info, ss[k], steps[k])
  }

  ghost predicate IsOwnRun(info: Info, ss: seq<State>, steps: seq<Step>) {
    && IsTrace(info, ss, steps)
    && forall k :: 0 <= k < |steps| ==> OwnStep(info, ss, steps, k)
  }

  /** Whatever the cache does by itself from now on, complete pieces and published files hold. */
  ghost predicate StaysGood(info: Info, s: State, content: seq<byte>)
    requires |content| == info.Total()
  {
    forall ss, steps :: IsOwnRun(info, ss, steps) && ss[0] == s ==>
      WellState(info, ss[|steps|]) && Good(info, ss[|steps|], content)
  }

  lemma OwnStepSafe(info: Info, s: State, step: Step, content: seq<byte>)
    requires SafeInv(info, s, content) && Enabled(info, s, step) && OnItsOwn(info, s, step)
    ensures SafeInv(info, Next(info, s, step), content)
  {
    StepKeepsSafe(info, s, step, content);
    if step.Insert? {
      forall f | 0 <= f < info.NumFiles() && info.Path(f) == step.path
        ensures FileSafe(info, s, f, content)
      {
        PathInDoneSet(info, s.bits, f);
        DoneFileSafe(info, s, f, content);
      }
    }
  }

  lemma OwnStepOfRunSafe(info: Info, ss: seq<State>, steps: seq<Step>, content: seq<byte>, k: nat)
    requires |ss| == |steps| + 1 && k < |steps| && OwnStep(info, ss, steps, k) && SafeInv(info, ss[k], content)
    ensures SafeInv(info, ss[k + 1], content)
  {
    OwnStepSafe(info, ss[k], steps[k], content);
  }

  lemma {:induction false} OwnRunSafe(info: Info, ss: seq<State>, steps: seq<Step>, content: seq<byte>, k: nat)
    requires IsOwnRun(info, ss, steps) && SafeInv(info, ss[0], content) && k < |ss|
    ensures SafeInv(info, ss[k], content)
  {
    if k > 0 {
      OwnRunSafe(info, ss, steps, content, k - 1);
      OwnStepOfRunSafe(info, ss, steps, content, k - 1);
    }
  }

  lemma OwnRunCons(info: Info, s: State, step: Step, ss: seq<State>, steps: seq<Step>)
    returns (ss': seq<State>, steps': seq<Step>)
    requires WellState(info, s) && Enabled(info, s, step) && OnItsOwn(info, s, step)
    requires IsOwnRun(info, ss, steps) && ss[0] == Next(info, s, step)
    ensures IsOwnRun(info, ss', steps') && ss'[0] == s && ss'[|steps'|] == ss[|steps|]
  {
    ss', steps' := TraceCons(info, s, step, ss, steps);
    forall k | 0 <= k < |steps'|
      ensures OwnStep(info, ss', steps', k)
    {
      assert IsStep(info, ss', steps', k);
      if k > 0 {
        assert OwnStep(info, ss, steps, k - 1);
      }
    }
  }

  lemma PunchRest(info: Info, s: State, t: nat) returns (ss: seq<State>, steps: seq<Step>)
    requires WellState(info, s) && IsPunching(s, t)
    ensures IsOwnRun(info, ss, steps) && ss[0] == s
    ensures var s', p := ss[|steps|], Head(info, s, t);
            && WellState(info, s') && s'.bits == s.bits && s'.rows == s.rows
            && (forall x :: 0 <= x < info.Total() && s.jobs[t].phase.at <= x < info.PieceEnd(p) ==> s'.bytes[x] == 0)
  {
    assert JobFits(info, s.jobs[t]);
    PieceShape(info, Head(info, s, t));
    var step := Punch(t, info.PieceEnd(Head(info, s, t)) - s.jobs[t].phase.at);
    NextWell(info, s, step);
    ss, steps := OwnRunCons(info, s, step, [Next(info, s, step)], []);
  }

  /** The rest of an eviction: from the state it is in to the end of its punch. */
  lemma PunchOut(info: Info, s: State, t: nat) returns (ss: seq<State>, steps: seq<Step>)
    requires WellState(info, s) && InWindow(s, t)
    ensures IsOwnRun(info, ss, steps) && ss[0] == s
    ensures var s', p := ss[|steps|], Head(info, s, t);
            && WellState(info, s') && s'.bits == s.bits
            && (IsPunching(s, t) ==> s'.rows == s.rows)
            && (forall x :: 0 <= x < info.Total() && RestStart(info, s, t) <= x < info.PieceEnd(p) ==> s'.bytes[x] == 0)
  {
    if IsPunching(s, t) {
      ss, steps := PunchRest(info, s, t);
    } else {
      var s1 := Next(info, s, Unpublish(t));
      NextWell(info, s, Unpublish(t));
      ss, steps := PunchRest(info, s1, t);
      ss, steps := OwnRunCons(info, s, Unpublish(t), ss, steps);
    }
  }

  lemma GoodMeansPieceSafe(info: Info, s: State, p: nat, content: seq<byte>)
    requires WellState(info, s) && |content| == info.Total() && StaysGood(info, s, content)
    requires p < |s.bits| && s.bits[p] && Good(info, s, content)
    ensures PieceSafe(info, s, p, content)
  {
    forall t | InWindow(s, t) && Head(info, s, t) == p
      ensures Harmless(info, s, t, content)
    {
      var ss, steps := PunchOut(info, s, t);
      assert PieceHolds(info, ss[|steps|].bytes, p, content);
    }
  }

  lemma GoodMeansFileSafe(info: Info, s: State, f: nat, content: seq<byte>)
    requires WellState(info, s) && |content| == info.Total() && StaysGood(info, s, content)
    requires f < info.NumFiles() && info.Path(f) in s.rows && Good(info, s, content)
    ensures FileSafe(info, s, f, content)
  {
    forall t, x | IsPunching(s, t) && 0 <= x < |content| && info.InFile(f, x)
                  && s.jobs[t].phase.at <= x < info.PieceEnd(Head(info, s, t))
      ensures content[x] == 0
    {
      var ss, steps := PunchOut(info, s, t);
      assert FileHolds(info, ss[|steps|].bytes, f, content);
    }
  }

  /** The invariant holds exactly in the states from which the cache, left to itself, never damages
      a complete piece or a published file. */
  lemma SafeExactlyWhenStaysGood(info: Info, s: State, content: seq<byte>)
    requires WellState(info, s) && |content| == info.Total()
    ensures SafeInv(info, s, content) <==> StaysGood(info, s, content)
  {
    if SafeInv(info, s, content) {
      forall ss, steps | IsOwnRun(info, ss, steps) && ss[0] == s
        ensures SafeInv(info, ss[|steps|], content)
      {
        OwnRunSafe(info, ss, steps, content, |steps|);
      }
    }
    if StaysGood(info, s, content) {
      assert IsOwnRun(info, [s], []);
      forall p | 0 <= p < |s.bits| && s.bits[p]
        ensures PieceSafe(info, s, p, content)
      {
        GoodMeansPieceSafe(info, s, p, content);
      }
      forall f | 0 <= f < info.NumFiles() && info.Path(f) in s.rows
        ensures FileSafe(info, s, f, content)
      {
        GoodMeansFileSafe(info, s, f, content);
      }
    }
  }

  // ---- exactly when a step is safe ----

  /** Exactly when a step does no harm, now or later. */
  lemma StepExactly(info: Info, s: State, step: Step, content: seq<byte>)
    requires SafeInv(info, s, content) && Enabled(info, s, step)
    ensures StaysGood(info, Next(info, s, step), content) <==> IntactGuard(info, s, step, content)
  {
    NextWell(info, s, step);
    StepKeepsSafe(info, s, step, content);
    SafeExactlyWhenStaysGood(info, Next(info, s, step), content);
  }

  /** Marking a verified piece complete does no harm exactly when no eviction of it is between its
      clearing and the end of its punch, if the piece's last byte is not zero. */
  lemma MarkingExactly(info: Info, s: State, t: nat, p: nat, content: seq<byte>)
    requires SafeInv(info, s, content) && Enabled(info, s, SetComplete(t, p))
    requires PieceHolds(info, s.bytes, p, content)
    ensures p < info.NumPieces() && info.PieceStart(p) < info.PieceEnd(p) <= |content|
    ensures content[info.PieceEnd(p) - 1] != 0 ==>
              (StaysGood(info, Next(info, s, SetComplete(t, p)), content) <==>
               !exists u :: InWindow(s, u) && Head(info, s, u) == p)
  {
    PieceShape(info, p);
    StepExactly(info, s, SetComplete(t, p), content);
  }

  /** The same for any content that is not all zero, when no punch of the piece has begun. */
  lemma MarkingBeforePunchExactly(info: Info, s: State, t: nat, p: nat, x: nat, content: seq<byte>)
    requires SafeInv(info, s, content) && Enabled(info, s, SetComplete(t, p))
    requires PieceHolds(info, s.bytes, p, content) && x < |content| && info.InPiece(p, x) && content[x] != 0
    requires forall u :: IsPunching(s, u) && Head(info, s, u) == p ==> s.jobs[u].phase.at == info.PieceStart(p)
    ensures StaysGood(info, Next(info, s, SetComplete(t, p)), content) <==>
            !exists u :: InWindow(s, u) && Head(info, s, u) == p
  {
    StepExactly(info, s, SetComplete(t, p), content);
    forall u | InWindow(s, u) && Head(info, s, u) == p
      ensures !Harmless(info, s, u, content)
    {
      assert RestStart(info, s, u) <= x < info.PieceEnd(p);
    }
  }

  lemma SafeIsGood(info: Info, s: State, content: seq<byte>)
    requires SafeInv(info, s, content)
    ensures Good(info, s, content)
  {
    assert forall p :: 0 <= p < |s.bits| && s.bits[p] ==> PieceSafe(info, s, p, content);
  }
}
