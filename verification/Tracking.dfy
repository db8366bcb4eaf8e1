/** When the tracker knows every complete piece.  A complete piece it does not know can never be
    evicted and its bytes are not counted, so the bound on the tracker's counter bounds the disk only
    as far as this holds. */
module Tracking {
  import opened Geometry
  import opened LruSpec
  import opened Runs
  import opened Interleaving

  /** Every complete piece is tracked, or the thread that completed it is about to add it. */
  ghost predicate TrackedInv(info: Info, s: State) {
    WellState(info, s) && forall p :: 0 <= p < |s.bits| && s.bits[p] ==> p in s.lru.entries || p in s.adding.Values
  }

  /** Some eviction of piece `p` is past its first step. */
  ghost predicate InFlight(s: State, p: int) {
    exists t :: t in s.jobs && s.jobs[t].phase != Pending && s.jobs[t].todo != [] && s.jobs[t].todo[0] == p
  }

  ghost predicate TrackSafe(info: Info, s: State) {
    TrackedInv(info, s) && forall p :: 0 <= p < |s.bits| && s.bits[p] ==> !InFlight(s, p)
  }

  /** The one guard: a piece is not marked complete while an eviction of it is under way. */
  ghost predicate TrackGuard(s: State, step: Step) {
    step.SetComplete? ==> !InFlight(s, step.piece)
  }

  /** Evictions under way are those that were before, or of the piece `p`. */
  ghost predicate FlightsStay(s: State, s': State, p: int) {
    forall q :: InFlight(s', q) ==> InFlight(s, q) || q == p
  }

  lemma SchedulingFlights(info: Info, s: State, step: Step)
    requires WellState(info, s) && Enabled(info, s, step) && Schedules(step)
    ensures FlightsStay(s, Next(info, s, step), -1)
  {
    SchedulingJobs(info, s, step);
  }

  lemma SchedulingTracked(info: Info, s: State, step: Step)
    requires TrackSafe(info, s) && Enabled(info, s, step) && Schedules(step)
    ensures TrackSafe(info, Next(info, s, step))
  {
    var s' := Next(info, s, step);
    NextWell(info, s, step);
    SchedulingJobs(info, s, step);
    SchedulingFlights(info, s, step);
    match step
    case AddPiece(t, now, _) =>
      forall p | p in s.adding.Values
        ensures p in s'.lru.entries || p in s'.adding.Values
      {
        var u :| u in s.adding && s.adding[u] == p;
        if u != t {
          assert u in s'.adding && s'.adding[u] == p;
        } else {
          assert p in WithPiece(info, s, t, now).lru.entries;
        }
      }
    case Untrack(t) =>
      assert InFlight(s, Head(info, s, t));
      RemovedValid(s.lru, Head(info, s, t));
    case _ =>
  }

  /** Every job that is past its first step in `s'` was so in `s`, with the same piece. */
  ghost predicate JobsWere(s: State, s': State) {
    forall u :: u in s'.jobs && s'.jobs[u].phase != Pending ==>
      u in s.jobs && s.jobs[u].phase != Pending && s.jobs[u].todo == s'.jobs[u].todo
  }

  lemma JobsWereFlights(s: State, s': State)
    requires JobsWere(s, s')
    ensures FlightsStay(s, s', -1)
  {
    forall q | InFlight(s', q)
      ensures InFlight(s, q)
    {
      var u :| u in s'.jobs && s'.jobs[u].phase != Pending && s'.jobs[u].todo != [] && s'.jobs[u].todo[0] == q;
      assert u in s.jobs && s.jobs[u].todo[0] == q;
    }
  }

  lemma SetFlights(info: Info, s: State, t: nat, p: nat)
    requires WellState(info, s) && Enabled(info, s, SetComplete(t, p))
    ensures FlightsStay(s, Next(info, s, SetComplete(t, p)), -1) && FlightsStay(Next(info, s, SetComplete(t, p)), s, -1)
  {
    var s' := Next(info, s, SetComplete(t, p));
    JobsWereFlights(s, s');
    JobsWereFlights(s', s);
  }

  lemma FreshValue(m: map<nat, nat>, t: nat, p: nat)
    requires t !in m
    ensures m[t := p].Values == m.Values + {p}
  {
    var m' := m[t := p];
    assert t in m' && m'[t] == p;
    forall q | q in m.Values
      ensures q in m'.Values
    {
      var u :| u in m && m[u] == q;
      assert u in m' && m'[u] == q;
    }
  }

  lemma SetTracked(info: Info, s: State, t: nat, p: nat)
    requires TrackSafe(info, s) && Enabled(info, s, SetComplete(t, p))
    ensures TrackSafe(info, Next(info, s, SetComplete(t, p))) <==> !InFlight(s, p)
  {
    var s' := Next(info, s, SetComplete(t, p));
    NextWell(info, s, SetComplete(t, p));
    SetFlights(info, s, t, p);
    FreshValue(s.adding, t, p);
    assert s'.bits[p];
  }

  lemma EvictionTracked(info: Info, s: State, step: Step)
    requires TrackSafe(info, s) && Enabled(info, s, step) && (step.Clear? || step.Unpublish? || step.Punch?)
    ensures TrackSafe(info, Next(info, s, step))
  {
    var s' := Next(info, s, step);
    NextWell(info, s, step);
    if step.Clear? {
      assert FlightsStay(s, s', Head(info, s, step.thread));
    } else {
      assert FlightsStay(s, s', -1);
    }
  }

  /** A step of any thread keeps every complete piece known to the tracker, and out of reach of
      evictions under way, exactly when its guard holds. */
  lemma StepKeepsTracked(info: Info, s: State, step: Step)
    requires TrackSafe(info, s) && Enabled(info, s, step)
    ensures TrackSafe(info, Next(info, s, step)) <==> TrackGuard(s, step)
  {
    if step.SetComplete? {
      SetTracked(info, s, step.thread, step.piece);
    } else if Schedules(step) {
      SchedulingTracked(info, s, step);
    } else if step.Clear? || step.Unpublish? || step.Punch? {
      EvictionTracked(info, s, step);
    } else {
      NextWell(info, s, step);
      assert FlightsStay(s, Next(info, s, step), -1);
    }
  }

  // ---- the guard is exact ----

  ghost predicate NoMarking(steps: seq<Step>) {
    forall k :: 0 <= k < |steps| ==> !steps[k].SetComplete?
  }

  /** As long as no further piece is marked complete, every complete piece stays known. */
  ghost predicate StaysTracked(info: Info, s: State) {
    forall ss, steps :: IsTrace(info, ss, steps) && NoMarking(steps) && ss[0] == s ==> TrackedInv(info, ss[|steps|])
  }

  lemma {:induction false} UnmarkedRunTracked(info: Info, ss: seq<State>, steps: seq<Step>, k: nat)
    requires IsTrace(info, ss, steps) && NoMarking(steps) && TrackSafe(info, ss[0]) && k < |ss|
    ensures TrackSafe(info, ss[k])
  {
    if k > 0 {
      UnmarkedRunTracked(info, ss, steps, k - 1);
      assert IsStep(info, ss, steps, k - 1);
      StepKeepsTracked(info, ss[k - 1], steps[k - 1]);
    }
  }

  /** Every thread that is about to add its piece does so. */
  lemma {:induction false} DrainAdders(info: Info, s: State) returns (ss: seq<State>, steps: seq<Step>)
    requires WellState(info, s)
    ensures IsTrace(info, ss, steps) && NoMarking(steps) && ss[0] == s
    ensures var s' := ss[|steps|];
            WellState(info, s') && s'.adding == map[] && s'.bits == s.bits && JobsRemain(s, s')
    decreases |s.adding|
  {
    if s.adding == map[] {
      ss, steps := [s], [];
    } else {
      var t :| t in s.adding;
      var s1 := AddOne(info, s, t);
      ss, steps := DrainAdders(info, s1);
      TraceAppend(info, [s, s1], [AddPiece(t, 0, {})], ss, steps);
      ss, steps := [s, s1] + ss[1..], [AddPiece(t, 0, {})] + steps;
    }
  }

  ghost predicate JobsRemain(s: State, s': State) {
    forall u :: u in s.jobs ==> u in s'.jobs && s'.jobs[u] == s.jobs[u]
  }

  lemma AddOne(info: Info, s: State, t: nat) returns (s': State)
    requires WellState(info, s) && t in s.adding
    ensures IsTrace(info, [s, s'], [AddPiece(t, 0, {})]) && WellState(info, s')
    ensures |s'.adding| < |s.adding| && s'.bits == s.bits && JobsRemain(s, s')
  {
    s' := Next(info, s, AddPiece(t, 0, {}));
    NextWell(info, s, AddPiece(t, 0, {}));
    FewerKeys(s.adding, t);
    AddOneEffect(info, s, t);
    TraceStep(info, [s], [], AddPiece(t, 0, {}));
    assert [s] + [s'] == [s, s'] && [] + [AddPiece(t, 0, {})] == [AddPiece(t, 0, {})];
  }

  lemma AddOneEffect(info: Info, s: State, t: nat)
    requires WellState(info, s) && t in s.adding
    ensures var s' := Next(info, s, AddPiece(t, 0, {}));
            s'.adding == s.adding - {t} && s'.bits == s.bits && JobsRemain(s, s')
  {
  }

  lemma FewerKeys(m: map<nat, nat>, t: nat)
    requires t in m
    ensures |m - {t}| < |m|
  {
    assert (m - {t}).Keys == m.Keys - {t};
    assert |m - {t}| == |(m - {t}).Keys| && |m| == |m.Keys|;
  }

  /** Thread `t` finishes the eviction it has begun. */
  lemma FinishEviction(info: Info, s: State, t: nat) returns (ss: seq<State>, steps: seq<Step>)
    requires WellState(info, s) && t in s.jobs && s.jobs[t].phase != Pending
    ensures IsTrace(info, ss, steps) && NoMarking(steps) && ss[0] == s
    ensures var s' := ss[|steps|]; s'.bits == s.bits && s'.adding == s.adding && Head(info, s, t) !in s'.lru.entries
    decreases match s.jobs[t].phase { case Pending => 0 case Cleared => 3 case Punching(_) => 2 case Punched => 1 }
  {
    var step := NextOf(info, s, t);
    var s' := Next(info, s, step);
    NextWell(info, s, step);
    if step.Untrack? {
      ss, steps := [s'], [];
    } else {
      ss, steps := FinishEviction(info, s', t);
    }
    ss, steps := TraceCons(info, s, step, ss, steps);
  }

  /** The step with which an eviction goes on; the punch in one go. */
  ghost function NextOf(info: Info, s: State, t: nat): (step: Step)
    requires WellState(info, s) && t in s.jobs && s.jobs[t].phase != Pending
    ensures Enabled(info, s, step) && !step.SetComplete?
  {
    match s.jobs[t].phase
    case Cleared => Unpublish(t)
    case Punching(at) => assert JobFits(info, s.jobs[t]); Punch(t, info.PieceEnd(Head(info, s, t)) - at)
    case Punched => Untrack(t)
  }

  /** A complete piece escapes the tracker for good, in some continuation, whenever an eviction of it
      is under way. */
  lemma InFlightEscapes(info: Info, s: State, p: nat)
    requires WellState(info, s) && p < |s.bits| && s.bits[p] && InFlight(s, p)
    ensures !StaysTracked(info, s)
  {
    var t :| t in s.jobs && s.jobs[t].phase != Pending && s.jobs[t].todo != [] && s.jobs[t].todo[0] == p;
    var ss, steps := DrainAdders(info, s);
    var ss', steps' := FinishEviction(info, ss[|steps|], t);
    TraceAppend(info, ss, steps, ss', steps');
    assert !TrackedInv(info, ss'[|steps'|]);
  }

  /** The invariant is the weakest: it holds exactly in the states from which, with no further piece
      marked complete, every complete piece stays known to the tracker. */
  lemma TrackSafeExactlyWhenStaysTracked(info: Info, s: State)
    requires WellState(info, s)
    ensures TrackSafe(info, s) <==> StaysTracked(info, s)
  {
    if TrackSafe(info, s) {
      forall ss, steps | IsTrace(info, ss, steps) && NoMarking(steps) && ss[0] == s
        ensures TrackedInv(info, ss[|steps|])
      {
        UnmarkedRunTracked(info, ss, steps, |steps|);
      }
    }
    if StaysTracked(info, s) {
      assert IsTrace(info, [s], []) && NoMarking([]);
      forall p | 0 <= p < |s.bits| && s.bits[p]
        ensures !InFlight(s, p)
      {
        if InFlight(s, p) {
          InFlightEscapes(info, s, p);
        }
      }
    }
  }

  /** Exactly when marking a piece complete may let a piece escape the tracker. */
  lemma EscapesExactly(info: Info, s: State, t: nat, p: nat)
    requires TrackSafe(info, s) && Enabled(info, s, SetComplete(t, p))
    ensures StaysTracked(info, Next(info, s, SetComplete(t, p))) <==> !InFlight(s, p)
  {
    NextWell(info, s, SetComplete(t, p));
    StepKeepsTracked(info, s, SetComplete(t, p));
    TrackSafeExactlyWhenStaysTracked(info, Next(info, s, SetComplete(t, p)));
  }

  // ---- so the budget bounds the disk ----

  /** The complete pieces no thread is concerned with and no eviction gave up on. */
  ghost function Resting(s: State): (r: seq<bool>)
    ensures |r| == |s.bits|
  {
    seq(|s.bits|, p requires 0 <= p < |s.bits| =>
      s.bits[p] && p !in Outstanding(s.jobs) && p !in s.failed && p !in s.adding.Values)
  }

  /** The bytes of such pieces are within budget; with no list outstanding, no piece being added and
      no eviction given up, so are the bytes of all complete pieces. */
  lemma RestingWithinBudget(info: Info, s: State)
    requires TrackedInv(info, s) && BudgetInv(info, s)
    ensures CompleteBytes(info, Resting(s), |s.bits|) <= s.lru.budget
    ensures s.jobs == map[] && s.adding == map[] && s.failed == {} ==>
              CompleteBytes(info, s.bits, |s.bits|) <= s.lru.budget
  {
    var keys := Settled(s);
    CompleteBytesTracked(info, Resting(s), |s.bits|, s.lru, keys);
    assert (set p | p in keys && p < |s.bits|) == keys;
    if s.jobs == map[] && s.adding == map[] && s.failed == {} {
      assert Resting(s) == s.bits;
    }
  }

  /** Disk bound over whole interleaved runs: if no piece is marked complete while an eviction of it
      is under way, then in every state every complete piece is tracked or about to be, and the bytes
      of complete pieces nobody is concerned with are within budget. */
  lemma {:induction false} RunKeepsTracked(info: Info, ss: seq<State>, steps: seq<Step>, k: nat)
    requires IsTrace(info, ss, steps) && k < |ss| && TrackSafe(info, ss[0]) && BudgetInv(info, ss[0])
    requires forall i :: 0 <= i < |steps| ==> TrackGuard(ss[i], steps[i])
    ensures TrackSafe(info, ss[k]) && BudgetInv(info, ss[k])
    ensures CompleteBytes(info, Resting(ss[k]), |ss[k].bits|) <= ss[k].lru.budget
    ensures ss[k].jobs == map[] && ss[k].adding == map[] && ss[k].failed == {} ==>
              CompleteBytes(info, ss[k].bits, |ss[k].bits|) <= ss[k].lru.budget
  {
    if k > 0 {
      RunKeepsTracked(info, ss, steps, k - 1);
      assert IsStep(info, ss, steps, k - 1);
      StepKeepsTracked(info, ss[k - 1], steps[k - 1]);
      StepKeepsBudget(info, ss[k - 1], steps[k - 1]);
    }
    RestingWithinBudget(info, ss[k]);
  }
}
