/** The process may die at any step of any thread.  What it leaves is the table, the rows and the bytes;
    a new process starts a new session from them. */
module Crashes {
  import opened Geometry
  import opened Completion
  import opened PieceCompletion
  import opened LruSpec
  import opened CacheModel
  import opened Runs
  import opened Interleaving
  import opened Publication
  import opened Integrity
  import opened Tracking
  import opened Scans
  import opened InterleavedRuns

  /** What a process that dies in state `s` leaves behind; of the rows some may be gone, if it dies while
      withdrawing them one by one. */
  ghost predicate LeftBy(info: Info, s: State, c: Cache)
    requires WellState(info, s)
  {
    Well(info, c) && BitsOf(c.table, info.NumPieces()) == s.bits && c.rows <= s.rows && c.bytes == s.bytes
  }

  /** A process that dies between changing a bit in memory and in the table leaves what the state before
      that step would have left. */
  lemma TornStep(info: Info, s: State, step: Step, c: Cache)
    requires WellState(info, s) && Enabled(info, s, step)
    requires step.SetComplete? || step.SetIncomplete? || step.Clear? || step.GiveUp?
    requires Well(info, c) && BitsOf(c.table, info.NumPieces()) == s.bits
    requires c.rows == Next(info, s, step).rows && c.bytes == Next(info, s, step).bytes
    ensures LeftBy(info, s, c)
  {
  }

  /** A crash loses nothing: whatever the evictions, the scan and the clients were doing, the next session
      starts with every complete piece and every published file intact, out of reach of any eviction, and
      known to the tracker. */
  lemma CrashLosesNothing(info: Info, budget: int, s: State, c: Cache, visit: seq<int>, now: int, content: seq<byte>)
    requires SafeInv(info, s, content) && LeftBy(info, s, c)
    requires Visits(visit, CompletePieces(info, c.table)) && EvictionEnabled(info, budget)
    ensures var r := Resumed(info, budget, c, visit, now);
            Intact(info, r, content) && SafeInv(info, Opened(r), content) && TrackSafe(info, Opened(r))
  {
    var r := Resumed(info, budget, c, visit, now);
    RebuiltConsistent(info, budget, c, visit, now, false);
    OpenedIsTracked(info, budget, r);
    SafeIsGood(info, s, content);
  }

  /** No eviction is between clearing a piece and withdrawing its published files, unless the piece has
      been marked complete again. */
  ghost predicate NoneHalfWithdrawn(info: Info, s: State)
    requires WellState(info, s)
  {
    forall t :: AtPhase(s, t, Cleared) && !s.bits[Head(info, s, t)] ==> s.rows !! AffectedPaths(info, Head(info, s, t))
  }

  /** Exactly when the rows survive a crash as well: every file still published is complete for the next
      session if and only if no eviction had cleared a piece and not yet withdrawn its files. */
  lemma RowsSurviveExactly(info: Info, budget: int, s: State, c: Cache, visit: seq<int>, now: int)
    requires PublishedInv(info, s) && s.rows <= AllPaths(info) && LeftBy(info, s, c) && c.rows == s.rows
    requires Visits(visit, CompletePieces(info, c.table))
    ensures RowsSound(info, Resumed(info, budget, c, visit, now)) <==> NoneHalfWithdrawn(info, s)
  {
    if NoneHalfWithdrawn(info, s) {
      forall f | 0 <= f < info.NumFiles() && info.Path(f) in s.rows
        ensures FileDone(info, s.bits, f)
      {
        WholeUnlessHalfWithdrawn(info, s, f);
      }
    }
    if RowsSound(info, Resumed(info, budget, c, visit, now)) {
      forall t | AtPhase(s, t, Cleared) && !s.bits[Head(info, s, t)]
        ensures s.rows !! AffectedPaths(info, Head(info, s, t))
      {
        DoneAvoidsIncomplete(info, s.bits, Head(info, s, t));
      }
    }
  }

  lemma WholeUnlessHalfWithdrawn(info: Info, s: State, f: nat)
    requires PublishedInv(info, s) && NoneHalfWithdrawn(info, s) && f < info.NumFiles() && info.Path(f) in s.rows
    ensures FileDone(info, s.bits, f)
  {
    assert Accounted(info, s, f);
    forall p | 0 <= p < |s.bits| && info.Affects(f, p)
      ensures s.bits[p]
    {
      PathInAffected(info, f, p);
      assert forall t :: AtPhase(s, t, Cleared) && Head(info, s, t) == p ==> s.bits[p];
    }
  }

  /** Rows, and what a round has yet to publish, are about files of the torrent. */
  ghost predicate KnownRows(info: Info, s: State) {
    s.rows <= AllPaths(info) && (s.scan.Publishing? ==> s.scan.paths <= AllPaths(info))
  }

  lemma StepKeepsKnownRows(info: Info, s: State, step: Step)
    requires WellState(info, s) && Enabled(info, s, step) && KnownRows(info, s)
    ensures KnownRows(info, Next(info, s, step))
  {
    assert DoneSet(info, s.bits) <= AllPaths(info);
  }

  lemma {:induction false} RunKeepsKnownRows(info: Info, ss: seq<State>, steps: seq<Step>, k: nat)
    requires IsTrace(info, ss, steps) && k < |ss| && KnownRows(info, ss[0])
    ensures KnownRows(info, ss[k])
  {
    if k > 0 {
      RunKeepsKnownRows(info, ss, steps, k - 1);
      assert IsStep(info, ss, steps, k - 1);
      StepKeepsKnownRows(info, ss[k - 1], steps[k - 1]);
    }
  }

  // ---- sessions ----

  datatype Session = Session(ss: seq<State>, steps: seq<Step>)

  /** A run whose guarded steps meet their guards. */
  ghost predicate IsSession(info: Info, x: Session, content: seq<byte>)
    requires |content| == info.Total() && info.pieceLength > 0
  {
    IsTrace(info, x.ss, x.steps) && forall i :: 0 <= i < |x.steps| ==> GuardedStep(info, x.ss, x.steps, content, i)
  }

  /** Session `y` starts from what a crash at the end of session `x` leaves. */
  ghost predicate Follows(info: Info, budget: int, x: Session, y: Session)
    requires x.ss != [] && y.ss != []
  {
    var s := x.ss[|x.ss| - 1];
    exists c, visit, now ::
      && WellState(info, s) && LeftBy(info, s, c) && Visits(visit, CompletePieces(info, c.table))
      && y.ss[0] == Opened(Resumed(info, budget, c, visit, now))
  }

  ghost predicate IsHistory(info: Info, budget: int, xs: seq<Session>, content: seq<byte>)
    requires |content| == info.Total() && info.pieceLength > 0
  {
    && (forall n :: 0 <= n < |xs| ==> IsSession(info, xs[n], content))
    && (forall n :: 0 <= n < |xs| - 1 ==> Follows(info, budget, xs[n], xs[n + 1]))
  }

  lemma FollowerIsSafe(info: Info, budget: int, x: Session, y: Session, content: seq<byte>)
    requires x.ss != [] && y.ss != [] && Follows(info, budget, x, y) && EvictionEnabled(info, budget)
    requires SafeInv(info, x.ss[|x.ss| - 1], content)
    ensures SafeInv(info, y.ss[0], content)
  {
    var s := x.ss[|x.ss| - 1];
    var c, visit, now :|
      && WellState(info, s) && LeftBy(info, s, c) && Visits(visit, CompletePieces(info, c.table))
      && y.ss[0] == Opened(Resumed(info, budget, c, visit, now));
    CrashLosesNothing(info, budget, s, c, visit, now, content);
  }

  /** Data integrity over sessions, each ended by a crash at any step: in every state of every session
      complete pieces and published files hold the content. */
  lemma {:induction false} SessionsKeepIntact(info: Info, budget: int, xs: seq<Session>, content: seq<byte>, n: nat, k: nat)
    requires |content| == info.Total() && info.WellFormed() && EvictionEnabled(info, budget)
    requires IsHistory(info, budget, xs, content) && n < |xs| && k < |xs[n].ss|
    requires xs[0].ss != [] && SafeInv(info, xs[0].ss[0], content)
    ensures SafeInv(info, xs[n].ss[k], content) && Good(info, xs[n].ss[k], content)
  {
    if n > 0 {
      var x := xs[n - 1];
      assert IsSession(info, x, content);
      SessionsKeepIntact(info, budget, xs, content, n - 1, |x.ss| - 1);
      assert Follows(info, budget, x, xs[n - 1 + 1]);
      FollowerIsSafe(info, budget, x, xs[n], content);
    }
    assert IsSession(info, xs[n], content);
    RunKeepsIntact(info, xs[n].ss, xs[n].steps, content, k);
  }
}
