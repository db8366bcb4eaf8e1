/** Runs in which the cache does not do what it is meant to, each from a freshly opened torrent. */
module LosingRuns {
  import opened Geometry
  import opened HolePunch
  import opened Collections
  import opened LruSpec
  import opened VictimSelection
  import opened Completion
  import opened PieceCompletion
  import opened CacheModel
  import opened Runs
  import opened Interleaving
  import opened Tracking
  import opened Scans
  import opened InterleavedRuns

  /** A file of two one-byte pieces, and a budget of one byte. */
  const EXAMPLE := Info("f", 1, 2, [])
  const CONTENT: seq<byte> := [7, 9]

  /** The torrent was never seen before; its bytes happen to lie on the disk. */
  const FRESH := Cache([false, false], {}, map[], {}, None, CONTENT)

  /** Pieces are verified before they are marked complete, what is written is the content, nothing is
      marked incomplete by hand, and no table access fails. */
  ghost predicate Careful(s: State, step: Step) {
    && !step.SetIncomplete? && !step.GiveUp? && !step.InsertFails?
    && (step.SetComplete? ==> |s.bytes| == 2 && PieceHolds(EXAMPLE, s.bytes, step.piece, CONTENT))
    && (step.WriteBytes? ==> step.at + |step.data| <= 2 && step.data == CONTENT[step.at..step.at + |step.data|])
  }

  /** A run through the states `ss`. */
  ghost predicate CarefulRun(ss: seq<State>, steps: seq<Step>) {
    && IsTrace(EXAMPLE, ss, steps) && WellState(EXAMPLE, ss[|steps|])
    && forall k :: 0 <= k < |steps| ==> Careful(ss[k], steps[k])
  }

  ghost predicate Leads(s: State, steps: seq<Step>, s': State) {
    exists ss :: CarefulRun(ss, steps) && ss[0] == s && ss[|steps|] == s'
  }

  /** The state opening the torrent leaves. */
  ghost predicate JustOpened(s: State) {
    && NeverSeen(EXAMPLE, FRESH) && Visits([], CompletePieces(EXAMPLE, map[])) && EvictionEnabled(EXAMPLE, 1)
    && s == Opened(Resumed(EXAMPLE, 1, FRESH, [], 0))
  }

  /** From the opened torrent the steps lead to state `s`. */
  ghost predicate Happens(steps: seq<Step>, s: State) {
    exists s0 :: JustOpened(s0) && Leads(s0, steps, s)
  }

  lemma LeadsWell(s: State, steps: seq<Step>, s': State)
    requires Leads(s, steps, s')
    ensures WellState(EXAMPLE, s')
  {
  }

  lemma OneStep(s: State, step: Step)
    requires WellState(EXAMPLE, s) && Enabled(EXAMPLE, s, step) && Careful(s, step)
    ensures Leads(s, [step], Next(EXAMPLE, s, step))
  {
    NextWell(EXAMPLE, s, step);
    var ss, steps := TraceCons(EXAMPLE, s, step, [Next(EXAMPLE, s, step)], []);
    assert steps == [step] && CarefulRun(ss, [step]);
  }

  lemma Continues(s: State, steps: seq<Step>, s1: State, steps': seq<Step>, s2: State)
    requires Leads(s, steps, s1) && Leads(s1, steps', s2)
    ensures Leads(s, steps + steps', s2)
  {
    var ss :| CarefulRun(ss, steps) && ss[0] == s && ss[|steps|] == s1;
    var ss' :| CarefulRun(ss', steps') && ss'[0] == s1 && ss'[|steps'|] == s2;
    TraceAppend(EXAMPLE, ss, steps, ss', steps');
    var all, allSteps := ss + ss'[1..], steps + steps';
    forall k | 0 <= k < |allSteps|
      ensures Careful(all[k], allSteps[k])
    {
      assert k >= |steps| ==> Careful(ss'[k - |steps|], steps'[k - |steps|]);
    }
    assert CarefulRun(all, allSteps);
  }

  lemma HappensNext(steps: seq<Step>, s1: State, steps': seq<Step>, s2: State)
    requires Happens(steps, s1) && Leads(s1, steps', s2)
    ensures Happens(steps + steps', s2)
  {
    var s0 :| JustOpened(s0) && Leads(s0, steps, s1);
    Continues(s0, steps, s1, steps', s2);
  }

  lemma ExampleGeometry()
    ensures EXAMPLE.WellFormed() && EXAMPLE.NumFiles() == 1 && EXAMPLE.Path(0) == "f"
    ensures EXAMPLE.Total() == 2 && EXAMPLE.NumPieces() == 2
    ensures EXAMPLE.PieceLen(0) == 1 && EXAMPLE.PieceLen(1) == 1
  {
    assert EXAMPLE.Lens() == [2];
    assert FileStart([2], 1) == 2;
  }

  // ---- the beginning the runs share ----

  ghost function TrackerOf(pieces: nat): Lru {
    if pieces == 0 then Lru(map[], [], 0, 1)
    else if pieces == 1 then Lru(map[0 := Entry(1, 0)], [0], 1, 1)
    else Lru(map[0 := Entry(1, 0), 1 := Entry(1, 1)], [1, 0], 2, 1)
  }

  ghost function NothingTaken(): State {
    State([false, false], {}, TrackerOf(0), map[], map[], Waiting, {}, CONTENT)
  }

  /** The first piece is complete and tracked. */
  ghost function OneTaken(): State {
    State([true, false], {}, TrackerOf(1), map[], map[], Waiting, {}, CONTENT)
  }

  /** The second piece has pushed the first out, which thread 0 is going to evict. */
  ghost function TwoTaken(): State {
    State([true, true], {}, TrackerOf(2), map[0 := Job([0], Pending, false)], map[], Waiting, {}, CONTENT)
  }

  /** The first piece has been cleared and at once marked complete again by thread 1. */
  ghost function MarkedAgain(): State {
    TwoTaken().(jobs := map[0 := Job([0], Cleared, true)], adding := map[1 := 0])
  }

  lemma Opens()
    ensures Happens([], NothingTaken())
  {
    ExampleGeometry();
    assert CompletePieces(EXAMPLE, map[]) == map[];
    ElemsEmpty<int>();
    assert BitsOf(map[], 2) == [false, false];
    RebuiltConsistent(EXAMPLE, 1, FRESH, [], 0, false);
    assert JustOpened(NothingTaken()) && CarefulRun([NothingTaken()], []);
  }

  lemma TakesFirst()
    ensures Happens([SetComplete(0, 0)] + [AddPiece(0, 0, {})], OneTaken())
  {
    Opens();
    HappensWell([], NothingTaken());
    ExampleGeometry();
    var s1 := NothingTaken().(bits := [true, false], adding := map[0 := 0]);
    OneStep(NothingTaken(), SetComplete(0, 0));
    assert Next(EXAMPLE, NothingTaken(), SetComplete(0, 0)) == s1;
    AddsFirst(s1);
    Continues(NothingTaken(), [SetComplete(0, 0)], s1, [AddPiece(0, 0, {})], OneTaken());
    var steps := [SetComplete(0, 0)] + [AddPiece(0, 0, {})];
    HappensNext([], NothingTaken(), steps, OneTaken());
    assert [] + steps == steps;
  }

  lemma AddsFirst(s: State)
    requires WellState(EXAMPLE, s) && s == NothingTaken().(bits := [true, false], adding := map[0 := 0])
    ensures Leads(s, [AddPiece(0, 0, {})], OneTaken())
  {
    ExampleGeometry();
    OneStep(s, AddPiece(0, 0, {}));
  }

  lemma FirstVictim()
    requires TrackerOf(2).Valid()
    ensures Victims(TrackerOf(2), {}) == [0]
  {
    var l := TrackerOf(2);
    assert Pick([1], {}, false) == [1] && Pick([1], {}, true) == [];
    assert Pick([1, 0], {}, false) == [0, 1] && Pick([1, 0], {}, true) == [];
    assert Queue(l.order, {}) == [0, 1];
    assert 0 in l.entries && 1 in l.entries;
    assert TakeUntil(l.entries, [1], 1, 1) == [];
    assert TakeUntil(l.entries, [0, 1], 2, 1) == [0];
  }

  lemma AddsSecond(s: State)
    requires WellState(EXAMPLE, s) && s == OneTaken().(bits := [true, true], adding := map[0 := 1])
    ensures Leads(s, [AddPiece(0, 1, {})], TwoTaken())
  {
    ExampleGeometry();
    assert WithPiece(EXAMPLE, s, 0, 1) == s.(lru := TrackerOf(2), adding := map[]);
    FirstVictim();
    OneStep(s, AddPiece(0, 1, {}));
  }

  lemma TakesSecond()
    requires WellState(EXAMPLE, OneTaken())
    ensures Leads(OneTaken(), [SetComplete(0, 1)] + [AddPiece(0, 1, {})], TwoTaken())
  {
    ExampleGeometry();
    var s1 := OneTaken().(bits := [true, true], adding := map[0 := 1]);
    OneStep(OneTaken(), SetComplete(0, 1));
    assert Next(EXAMPLE, OneTaken(), SetComplete(0, 1)) == s1;
    AddsSecond(s1);
    Continues(OneTaken(), [SetComplete(0, 1)], s1, [AddPiece(0, 1, {})], TwoTaken());
  }

  function StepsToTwo(): seq<Step> {
    [SetComplete(0, 0), AddPiece(0, 0, {}), SetComplete(0, 1), AddPiece(0, 1, {})]
  }

  lemma TakesBoth()
    ensures Happens(StepsToTwo(), TwoTaken())
  {
    TakesFirst();
    var first, second := [SetComplete(0, 0)] + [AddPiece(0, 0, {})], [SetComplete(0, 1)] + [AddPiece(0, 1, {})];
    HappensWell(first, OneTaken());
    TakesSecond();
    HappensNext(first, OneTaken(), second, TwoTaken());
    assert first + second == StepsToTwo();
  }

  lemma HappensWell(steps: seq<Step>, s: State)
    requires Happens(steps, s)
    ensures WellState(EXAMPLE, s)
  {
    var s0 :| JustOpened(s0) && Leads(s0, steps, s);
    LeadsWell(s0, steps, s);
  }

  lemma ClearsFirst()
    requires WellState(EXAMPLE, TwoTaken())
    ensures Leads(TwoTaken(), [Clear(0)], TwoTaken().(bits := [false, true], jobs := map[0 := Job([0], Cleared, false)]))
  {
    ExampleGeometry();
    OneStep(TwoTaken(), Clear(0));
    assert [true, true][0 := false] == [false, true];
  }

  lemma MarksAgain(s: State)
    requires WellState(EXAMPLE, s)
    requires s == TwoTaken().(bits := [false, true], jobs := map[0 := Job([0], Cleared, false)])
    ensures Leads(s, [SetComplete(1, 0)], MarkedAgain())
  {
    ExampleGeometry();
    OneStep(s, SetComplete(1, 0));
    assert [false, true][0 := true] == [true, true];
  }

  /** The first piece is cleared and at once marked complete again. */
  lemma BothMarksAgain()
    ensures Happens(StepsToTwo() + [Clear(0)] + [SetComplete(1, 0)], MarkedAgain())
  {
    TakesBoth();
    HappensWell(StepsToTwo(), TwoTaken());
    ClearsFirst();
    var s1 := TwoTaken().(bits := [false, true], jobs := map[0 := Job([0], Cleared, false)]);
    LeadsWell(TwoTaken(), [Clear(0)], s1);
    MarksAgain(s1);
    HappensNext(StepsToTwo(), TwoTaken(), [Clear(0)], s1);
    HappensNext(StepsToTwo() + [Clear(0)], s1, [SetComplete(1, 0)], MarkedAgain());
  }

  lemma Unpublishes(s: State)
    requires WellState(EXAMPLE, s) && s == MarkedAgain().(lru := s.lru, adding := s.adding)
    ensures Leads(s, [Unpublish(0)], s.(jobs := map[0 := Job([0], Punching(0), true)]))
  {
    ExampleGeometry();
    OneStep(s, Unpublish(0));
  }

  // ---- a published file loses a byte ----

  /** The file is published, and a byte of it is gone. */
  ghost predicate Damaged(s: State) {
    && EXAMPLE.NumFiles() == 1 && |s.bytes| == |CONTENT| == EXAMPLE.Total()
    && EXAMPLE.Path(0) in s.rows && !FileHolds(EXAMPLE, s.bytes, 0, CONTENT)
  }

  lemma PunchDamages(s: State) returns (s': State)
    requires WellState(EXAMPLE, s) && s.rows == {"f"} && s.bytes == CONTENT
    requires 0 in s.jobs && s.jobs[0].todo == [0] && s.jobs[0].phase == Punching(0)
    ensures Leads(s, [Punch(0, 1)], s') && Damaged(s')
  {
    ExampleGeometry();
    s' := Next(EXAMPLE, s, Punch(0, 1));
    OneStep(s, Punch(0, 1));
    assert EXAMPLE.InFile(0, 0) && s'.bytes[0] != CONTENT[0];
  }

  lemma ScanPublishes(s: State)
    requires WellState(EXAMPLE, s) && s.bits == [true, true] && s.rows == {} && s.scan == Waiting
    ensures Leads(s, [Publish], s.(rows := {"f"}, scan := Ended))
  {
    ExampleGeometry();
    PathInDoneSet(EXAMPLE, s.bits, 0);
    assert DoneSet(EXAMPLE, s.bits) == {"f"};
    OneStep(s, Publish);
  }

  /** With every piece verified before it is marked complete, a piece marked complete during its own
      eviction leaves a published file damaged: the scan publishes the file after its withdrawal, and
      then a byte is destroyed. */
  lemma RemarkedPieceIsLost() returns (s: State)
    ensures Happens(StepsToTwo() + [Clear(0)] + [SetComplete(1, 0)] + [Unpublish(0)] + [Publish] + [Punch(0, 1)], s)
    ensures Damaged(s)
  {
    BothMarksAgain();
    var steps := StepsToTwo() + [Clear(0)] + [SetComplete(1, 0)];
    HappensWell(steps, MarkedAgain());
    var s1 := MarkedAgain().(jobs := map[0 := Job([0], Punching(0), true)]);
    Unpublishes(MarkedAgain());
    HappensNext(steps, MarkedAgain(), [Unpublish(0)], s1);
    LeadsWell(MarkedAgain(), [Unpublish(0)], s1);
    var s2 := s1.(rows := {"f"}, scan := Ended);
    ScanPublishes(s1);
    HappensNext(steps + [Unpublish(0)], s1, [Publish], s2);
    LeadsWell(s1, [Publish], s2);
    s := PunchDamages(s2);
    HappensNext(steps + [Unpublish(0)] + [Publish], s2, [Punch(0, 1)], s);
  }

  /** A scan takes its snapshot just before the eviction. */
  ghost function Snapped(): State { TwoTaken().(scan := Publishing({"f"})) }

  lemma TakesSnapshot()
    requires WellState(EXAMPLE, TwoTaken())
    ensures Leads(TwoTaken(), [Snapshot], Snapped())
  {
    ExampleGeometry();
    PathInDoneSet(EXAMPLE, [true, true], 0);
    assert DoneSet(EXAMPLE, [true, true]) == {"f"};
    OneStep(TwoTaken(), Snapshot);
  }

  /** The eviction of the first piece clears it and withdraws its file. */
  lemma Withdraws(s: State)
    requires WellState(EXAMPLE, s) && s.bits == [true, true] && s.jobs == map[0 := Job([0], Pending, false)]
    ensures Leads(s, [Clear(0)] + [Unpublish(0)],
                  s.(bits := [false, true], rows := s.rows - {"f"}, jobs := map[0 := Job([0], Punching(0), false)]))
  {
    ExampleGeometry();
    PathInAffected(EXAMPLE, 0, 0);
    assert AffectedPaths(EXAMPLE, 0) == {"f"};
    var ss, steps := Withdraw(EXAMPLE, s, 0);
    assert CarefulRun(ss, steps);
    assert [true, true][0 := false] == [false, true];
    assert steps == [Clear(0)] + [Unpublish(0)];
  }

  lemma Inserts(s: State)
    requires WellState(EXAMPLE, s) && s.scan == Publishing({"f"}) && s.rows == {}
    ensures Leads(s, [Insert("f")], s.(rows := {"f"}, scan := Publishing({})))
  {
    assert s.rows + {"f"} == {"f"} && s.scan.paths - {"f"} == {};
    OneStep(s, Insert("f"));
  }

  /** Each piece marked complete only once, and verified: a scan whose snapshot was taken before an
      eviction publishes the file after its withdrawal, and then a byte is destroyed. */
  lemma StaleInsertionIsLost() returns (s: State)
    ensures Happens(StepsToTwo() + [Snapshot] + ([Clear(0)] + [Unpublish(0)]) + [Insert("f")] + [Punch(0, 1)], s)
    ensures Damaged(s)
  {
    TakesBoth();
    HappensWell(StepsToTwo(), TwoTaken());
    TakesSnapshot();
    HappensNext(StepsToTwo(), TwoTaken(), [Snapshot], Snapped());
    LeadsWell(TwoTaken(), [Snapshot], Snapped());
    var withdrawal := [Clear(0)] + [Unpublish(0)];
    var s1 := Snapped().(bits := [false, true], rows := Snapped().rows - {"f"}, jobs := map[0 := Job([0], Punching(0), false)]);
    Withdraws(Snapped());
    HappensNext(StepsToTwo() + [Snapshot], Snapped(), withdrawal, s1);
    LeadsWell(Snapped(), withdrawal, s1);
    assert s1.rows == {};
    var s2 := s1.(rows := {"f"}, scan := Publishing({}));
    Inserts(s1);
    HappensNext(StepsToTwo() + [Snapshot] + withdrawal, s1, [Insert("f")], s2);
    LeadsWell(s1, [Insert("f")], s2);
    s := PunchDamages(s2);
    HappensNext(StepsToTwo() + [Snapshot] + withdrawal + [Insert("f")], s2, [Punch(0, 1)], s);
  }

  // ---- a complete piece escapes the tracker ----

  /** Nothing is going on, the complete pieces take two bytes, and the budget is one. */
  ghost predicate OverTheBudget(s: State) {
    && Quiet(s) && s.bits == [true, true] && 0 !in s.lru.entries
    && CompleteBytes(EXAMPLE, s.bits, 2) == 2 && s.lru.budget == 1
  }

  lemma AddsAgain() returns (s: State)
    requires WellState(EXAMPLE, MarkedAgain())
    ensures Leads(MarkedAgain(), [AddPiece(1, 2, {})], s)
    ensures s.lru.budget == 1 && s == MarkedAgain().(lru := s.lru, adding := map[])
  {
    ExampleGeometry();
    s := Next(EXAMPLE, MarkedAgain(), AddPiece(1, 2, {}));
    assert 0 in MarkedAgain().lru.entries;
    assert s.jobs == MarkedAgain().jobs && s.adding == map[] && s.lru.budget == 1;
    OneStep(MarkedAgain(), AddPiece(1, 2, {}));
  }

  /** The eviction of the first piece destroys it and forgets it. */
  lemma Destroys(s: State, again: bool) returns (s': State)
    requires WellState(EXAMPLE, s) && s.jobs == map[0 := Job([0], Punching(0), again)]
    ensures |s.bytes| == 2 && Leads(s, [Punch(0, 1)] + [Untrack(0)], s')
    ensures s' == s.(bytes := Zeroed(s.bytes, 0, 1), lru := Removed(s.lru, 0), jobs := map[])
  {
    ExampleGeometry();
    var ss, steps := Destroy(EXAMPLE, s, 0);
    assert CarefulRun(ss, steps);
    assert steps == [Punch(0, 1)] + [Untrack(0)];
    s' := ss[2];
  }

  /** A piece marked complete during its own eviction stays complete and untracked, and the disk bound
      is broken in a quiet state. */
  lemma PieceEscapes() returns (s: State)
    ensures Happens(StepsToTwo() + [Clear(0)] + [SetComplete(1, 0)] + [AddPiece(1, 2, {})] + [Unpublish(0)]
                    + ([Punch(0, 1)] + [Untrack(0)]), s)
    ensures OverTheBudget(s) && !TrackedInv(EXAMPLE, s)
  {
    BothMarksAgain();
    var steps := StepsToTwo() + [Clear(0)] + [SetComplete(1, 0)];
    HappensWell(steps, MarkedAgain());
    var s1 := AddsAgain();
    HappensNext(steps, MarkedAgain(), [AddPiece(1, 2, {})], s1);
    LeadsWell(MarkedAgain(), [AddPiece(1, 2, {})], s1);
    var s2 := s1.(jobs := map[0 := Job([0], Punching(0), true)]);
    Unpublishes(s1);
    HappensNext(steps + [AddPiece(1, 2, {})], s1, [Unpublish(0)], s2);
    LeadsWell(s1, [Unpublish(0)], s2);
    s := Destroys(s2, true);
    HappensNext(steps + [AddPiece(1, 2, {})] + [Unpublish(0)], s2, [Punch(0, 1)] + [Untrack(0)], s);
    ForgottenIsOver(s2.lru, s);
  }

  lemma ForgottenIsOver(l: Lru, s: State)
    requires l.Valid() && l.budget == 1 && s.lru == Removed(l, 0) && Quiet(s) && s.bits == [true, true]
    ensures OverTheBudget(s) && !TrackedInv(EXAMPLE, s)
  {
    RemovedValid(l, 0);
    ExampleGeometry();
    assert CompleteBytes(EXAMPLE, [true, true], 1) == 1;
  }

  // ---- a completed file is never published ----

  /** The file is complete and holds its content, and will not be published in this session. */
  ghost predicate Forgotten(s: State) {
    && WellState(EXAMPLE, s) && EXAMPLE.NumFiles() == 1 && |s.bytes| == |CONTENT| == EXAMPLE.Total()
    && FileDone(EXAMPLE, s.bits, 0) && FileHolds(EXAMPLE, s.bytes, 0, CONTENT)
    && NeverPublished(EXAMPLE, s, EXAMPLE.Path(0))
  }

  lemma EndedIsForgotten(s: State)
    requires WellState(EXAMPLE, s) && s.bits == [true, true] && s.rows == {} && s.bytes == CONTENT && s.scan == Ended
    ensures Forgotten(s)
  {
    ExampleGeometry();
    NeverPublishedIff(EXAMPLE, s, 0);
  }

  lemma SnapshotMissesLast()
    requires WellState(EXAMPLE, OneTaken())
    ensures Leads(OneTaken(), [Snapshot], OneTaken().(scan := Publishing({})))
  {
    ExampleGeometry();
    assert EXAMPLE.Affects(0, 1) && ![true, false][1];
    assert DoneSet(EXAMPLE, [true, false]) == {};
    OneStep(OneTaken(), Snapshot);
  }

  /** The last piece completes just then. */
  ghost function AllTaken(scan: Scan): State {
    OneTaken().(bits := [true, true], adding := map[0 := 1], scan := scan)
  }

  lemma LastCompletes(s: State)
    requires WellState(EXAMPLE, s) && s == OneTaken().(scan := Publishing({}))
    ensures Leads(s, [SetComplete(0, 1)], AllTaken(Publishing({})))
  {
    ExampleGeometry();
    OneStep(s, SetComplete(0, 1));
  }

  lemma RoundEnds()
    requires WellState(EXAMPLE, AllTaken(Publishing({})))
    ensures Leads(AllTaken(Publishing({})), [EndRound], AllTaken(Ended))
  {
    OneStep(AllTaken(Publishing({})), EndRound);
  }

  /** The last piece completes between a round's snapshot and its end: the loop of rounds ends, and the
      file it makes complete is never published. */
  lemma LastFileIsForgotten() returns (s: State)
    ensures Happens([SetComplete(0, 0)] + [AddPiece(0, 0, {})] + [Snapshot] + [SetComplete(0, 1)] + [EndRound], s)
    ensures Forgotten(s)
  {
    TakesFirst();
    var steps := [SetComplete(0, 0)] + [AddPiece(0, 0, {})];
    HappensWell(steps, OneTaken());
    var s1 := OneTaken().(scan := Publishing({}));
    SnapshotMissesLast();
    HappensNext(steps, OneTaken(), [Snapshot], s1);
    LeadsWell(OneTaken(), [Snapshot], s1);
    var s2 := AllTaken(Publishing({}));
    LastCompletes(s1);
    HappensNext(steps + [Snapshot], s1, [SetComplete(0, 1)], s2);
    LeadsWell(s1, [SetComplete(0, 1)], s2);
    s := AllTaken(Ended);
    RoundEnds();
    HappensNext(steps + [Snapshot] + [SetComplete(0, 1)], s2, [EndRound], s);
    LeadsWell(s2, [EndRound], s);
    EndedIsForgotten(s);
  }

  lemma FetchesAgain(s: State) returns (s': State)
    requires WellState(EXAMPLE, s) && s.bytes == [0, 9] && s.bits == [false, true]
    requires s.jobs == map[] && s.adding == map[]
    ensures Leads(s, [WriteBytes(0, 0, [7])] + [SetComplete(0, 0)], s')
    ensures s' == s.(bytes := CONTENT, bits := [true, true], adding := map[0 := 0])
  {
    ExampleGeometry();
    assert CONTENT[0..1] == [7];
    var s1 := s.(bytes := CONTENT);
    OneStep(s, WriteBytes(0, 0, [7]));
    assert Next(EXAMPLE, s, WriteBytes(0, 0, [7])) == s1;
    LeadsWell(s, [WriteBytes(0, 0, [7])], s1);
    assert [false, true][0 := true] == [true, true];
    s' := s.(bytes := CONTENT, bits := [true, true], adding := map[0 := 0]);
    OneStep(s1, SetComplete(0, 0));
    Continues(s, [WriteBytes(0, 0, [7])], s1, [SetComplete(0, 0)], s');
  }

  /** A file published, withdrawn by an eviction, and fetched again once the loop of rounds has ended is
      never published again. */
  lemma RefetchedFileIsForgotten() returns (s: State)
    ensures Happens(StepsToTwo() + [Publish] + ([Clear(0)] + [Unpublish(0)]) + ([Punch(0, 1)] + [Untrack(0)])
                    + ([WriteBytes(0, 0, [7])] + [SetComplete(0, 0)]), s)
    ensures Forgotten(s)
  {
    TakesBoth();
    HappensWell(StepsToTwo(), TwoTaken());
    var s1 := TwoTaken().(rows := {"f"}, scan := Ended);
    ScanPublishes(TwoTaken());
    HappensNext(StepsToTwo(), TwoTaken(), [Publish], s1);
    LeadsWell(TwoTaken(), [Publish], s1);
    var withdrawal, destruction := [Clear(0)] + [Unpublish(0)], [Punch(0, 1)] + [Untrack(0)];
    var s2 := s1.(bits := [false, true], rows := s1.rows - {"f"}, jobs := map[0 := Job([0], Punching(0), false)]);
    Withdraws(s1);
    HappensNext(StepsToTwo() + [Publish], s1, withdrawal, s2);
    LeadsWell(s1, withdrawal, s2);
    var s3 := Destroys(s2, false);
    assert Zeroed(CONTENT, 0, 1) == [0, 9];
    HappensNext(StepsToTwo() + [Publish] + withdrawal, s2, destruction, s3);
    LeadsWell(s2, destruction, s3);
    s := FetchesAgain(s3);
    HappensNext(StepsToTwo() + [Publish] + withdrawal + destruction, s3, [WriteBytes(0, 0, [7])] + [SetComplete(0, 0)], s);
    LeadsWell(s3, [WriteBytes(0, 0, [7])] + [SetComplete(0, 0)], s);
    assert s.rows == {};
    EndedIsForgotten(s);
  }

  // ---- table accesses that fail ----

  /** The file is published and its two pieces are complete, one more than the budget allows. */
  const PUBLISHED := Cache([true, true], {}, map[0 := true, 1 := true], {"f"}, Some(TwoEntries()), CONTENT)

  function TwoEntries(): Lru { Lru(map[0 := Entry(1, 0), 1 := Entry(1, 1)], [1, 0], 2, 1) }

  lemma PublishedIsConsistent()
    ensures Consistent(EXAMPLE, 1, PUBLISHED) && RowsSound(EXAMPLE, PUBLISHED)
  {
    ExampleGeometry();
    TakesBoth();
    HappensWell(StepsToTwo(), TwoTaken());
    assert TwoEntries() == TwoTaken().lru;
    assert BitsOf(PUBLISHED.table, 2) == [true, true];
    PathInDoneSet(EXAMPLE, [true, true], 0);
  }

  /** When the table cannot be written, or no row be deleted, the evicted piece's file stays published;
      in the second case its bytes are gone. */
  lemma FailedEvictionLeavesRow()
    ensures Consistent(EXAMPLE, 1, PUBLISHED) && RowsSound(EXAMPLE, PUBLISHED)
    ensures !RowsSound(EXAMPLE, EvictWith(EXAMPLE, PUBLISHED, 0, Db(false, _ => SetFails)))
    ensures var c := EvictWith(EXAMPLE, PUBLISHED, 0, Db(false, _ => DeleteFails(0)));
            && !RowsSound(EXAMPLE, c)
            && EXAMPLE.NumFiles() == 1 && |c.bytes| == |CONTENT| == EXAMPLE.Total()
            && EXAMPLE.Path(0) in c.rows && !FileHolds(EXAMPLE, c.bytes, 0, CONTENT)
  {
    PublishedIsConsistent();
    ExampleGeometry();
    ElemsEmpty<string>();
    PathInAffected(EXAMPLE, 0, 0);
    var db := Db(false, _ => SetFails);
    EvictWithRows(EXAMPLE, PUBLISHED, 0, db);
    var db' := Db(false, _ => DeleteFails(0));
    EvictWithRows(EXAMPLE, PUBLISHED, 0, db');
    var c := EvictWith(EXAMPLE, PUBLISHED, 0, db');
    assert EXAMPLE.InFile(0, 0) && c.bytes[0] != CONTENT[0];
  }
}
