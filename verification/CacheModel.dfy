/** The whole cache of one torrent as a value, and what each operation does to it.  Storage.dfy
    shows that the program's objects do exactly this; Runs.dfy and Interleaving.dfy reason about
    sequences of such operations. */
module CacheModel {
  import opened Geometry
  import opened HolePunch
  import opened Collections
  import opened LruSpec
  import opened VictimSelection
  import opened Completion
  import opened PieceCompletion
  import opened PieceLru

  /** `bits` and `memo` live in memory, `table` and `rows` in the database, `bytes` in the files.
      `lru` is absent when eviction is disabled. */
  datatype Cache = Cache(bits: seq<bool>, memo: set<string>, table: map<int, bool>, rows: set<string>,
                         lru: Option<Lru>, bytes: seq<byte>)

  predicate EvictionEnabled(info: Info, budget: int) {
    budget > 0 && info.Total() > budget
  }

  /** Sizes fit the torrent and the recency tracker is well formed. */
  ghost predicate Well(info: Info, c: Cache) {
    && info.WellFormed()
    && |c.bits| == info.NumPieces()
    && |c.bytes| == info.Total()
    && (c.lru.Some? ==> c.lru.value.Valid())
  }

  ghost function Put(info: Info, c: Cache, p: nat, b: bool): (r: Cache)
    requires Well(info, c) && p < |c.bits|
    ensures Well(info, r)
  {
    c.(bits := c.bits[p := b], table := c.table[p := b],
       memo := if b then c.memo else MemoAfterUncomplete(info, c.bits, c.memo, p))
  }

  /** Mark incomplete, unpublish the affected files, zero the bytes, stop tracking. */
  ghost function Evict(info: Info, c: Cache, p: nat): (r: Cache)
    requires Well(info, c) && p < |c.bits| && c.lru.Some?
    ensures Well(info, r) && r.lru.Some?
  {
    PieceShape(info, p);
    RemovedValid(c.lru.value, p);
    Put(info, c, p, false).(
      rows := c.rows - AffectedPaths(info, p),
      bytes := Zeroed(c.bytes, info.PieceStart(p), info.PieceEnd(p)),
      lru := Some(Removed(c.lru.value, p)))
  }

  ghost predicate PiecesOf(info: Info, ps: seq<int>)
    requires info.pieceLength > 0
  {
    forall k :: 0 <= k < |ps| ==> info.ValidPiece(ps[k])
  }

  ghost function EvictAll(info: Info, c: Cache, ps: seq<int>): (r: Cache)
    requires Well(info, c) && PiecesOf(info, ps) && c.lru.Some?
    ensures Well(info, r) && r.lru.Some?
    decreases ps
  {
    if ps == [] then c
    else
      assert info.ValidPiece(ps[0]);
      EvictAll(info, Evict(info, c, ps[0]), ps[1..])
  }

  /** What a list of evictions does to the tracker. */
  lemma {:induction false} EvictAllTracker(info: Info, c: Cache, ps: seq<int>)
    requires Well(info, c) && PiecesOf(info, ps) && c.lru.Some?
    ensures EvictAll(info, c, ps).lru.value == RemovedAll(c.lru.value, ps)
    decreases ps
  {
    if ps != [] {
      assert info.ValidPiece(ps[0]);
      EvictAllTracker(info, Evict(info, c, ps[0]), ps[1..]);
    }
  }

  /** The tracker holds pieces of this torrent, with their lengths. */
  ghost predicate TrackerFits(info: Info, l: Lru)
    requires info.pieceLength > 0
  {
    forall i :: i in l.entries ==> info.ValidPiece(i) && l.entries[i].size == info.PieceLen(i)
  }

  ghost function ProtectedIn(info: Info, c: Cache): set<int>
    requires Well(info, c) && c.lru.Some?
  {
    ProtectedSet(info, c.memo, c.lru.value.entries.Keys)
  }

  /** The victims the tracker would name now. */
  ghost function VictimsIn(info: Info, c: Cache): (r: seq<int>)
    requires Well(info, c) && c.lru.Some? && TrackerFits(info, c.lru.value)
    ensures PiecesOf(info, r) && NoDup(r) && Elems(r) <= c.lru.value.entries.Keys
  {
    var l := c.lru.value;
    var v := Victims(l, ProtectedIn(info, c));
    VictimsTracked(l, ProtectedIn(info, c));
    assert forall k :: 0 <= k < |v| ==> v[k] in Elems(v);
    v
  }

  lemma VictimsTracked(l: Lru, prot: set<int>)
    requires l.Valid()
    ensures NoDup(Victims(l, prot)) && Elems(Victims(l, prot)) <= l.entries.Keys
  {
    if l.budget > 0 {
      VictimsAreShortest(l, prot);
    }
  }

  function Overwritten(s: seq<byte>, at: nat, data: seq<byte>): (r: seq<byte>)
    requires at + |data| <= |s|
    ensures |r| == |s|
    ensures forall x :: 0 <= x < |s| ==> r[x] == if at <= x < at + |data| then data[x - at] else s[x]
  {
    s[..at] + data + s[at + |data|..]
  }

  // ---- the operations of a run ----

  datatype Op =
    | Write(piece: nat, at: nat, data: seq<byte>) // at an offset in the span
    | MarkComplete(piece: nat, now: int)
    | MarkNotComplete(piece: nat)
    | Read(piece: nat, now: int)                 // reading touches the piece
    | Sweep
    | Scan
    | Reopen(visit: seq<int>, now: int, scanFirst: bool)

  ghost function Tracked(info: Info, c: Cache, p: nat, now: int): (r: Cache)
    requires Well(info, c) && p < |c.bits| && c.lru.Some? && TrackerFits(info, c.lru.value)
    ensures Well(info, r) && r.lru.Some? && TrackerFits(info, r.lru.value)
  {
    PieceShape(info, p);
    AddedValid(c.lru.value, p, info.PieceLen(p), now);
    c.(lru := Some(Added(c.lru.value, p, info.PieceLen(p), now)))
  }

  ghost function AfterMarkComplete(info: Info, c: Cache, p: nat, now: int): (r: Cache)
    requires Well(info, c) && p < |c.bits| && (c.lru.Some? ==> TrackerFits(info, c.lru.value))
    ensures Well(info, r)
  {
    var c1 := Put(info, c, p, true);
    if c.lru.None? then c1 else AfterTrack(info, c1, p, now)
  }

  /** Adding a piece to the tracker, and evicting what a new piece pushes out. */
  ghost function AfterTrack(info: Info, c: Cache, p: nat, now: int): (r: Cache)
    requires Well(info, c) && p < |c.bits| && c.lru.Some? && TrackerFits(info, c.lru.value)
    ensures Well(info, r)
  {
    var c2 := Tracked(info, c, p, now);
    EvictAll(info, c2, if p in c.lru.value.entries then [] else VictimsIn(info, c2))
  }

  ghost function AfterRead(info: Info, c: Cache, p: nat, now: int): (r: Cache)
    requires Well(info, c)
    ensures Well(info, r)
  {
    if c.lru.None? then c
    else
      TouchedValid(c.lru.value, p, now);
      c.(lru := Some(Touched(c.lru.value, p, now)))
  }

  ghost function AfterSweep(info: Info, c: Cache): (r: Cache)
    requires Well(info, c) && (c.lru.Some? ==> TrackerFits(info, c.lru.value))
    ensures Well(info, r)
  {
    if c.lru.Some? && c.lru.value.used > c.lru.value.budget && c.lru.value.budget > 0
    then EvictAll(info, c, VictimsIn(info, c))
    else c
  }

  ghost function AfterScan(info: Info, c: Cache): (r: Cache)
    requires Well(info, c)
    ensures Well(info, r)
  {
    c.(memo := MemoAfterScan(info, c.bits, c.memo), rows := c.rows + DoneSet(info, c.bits))
  }

  /** The complete pieces the table reports, with their lengths. */
  ghost function CompletePieces(info: Info, table: map<int, bool>): (m: map<int, nat>)
    requires info.pieceLength > 0
    ensures forall p :: p in m <==> info.ValidPiece(p) && TableSays(table, p)
    ensures forall p :: p in m ==> m[p] == info.PieceLen(p)
  {
    forall p: nat | p < info.NumPieces() ensures info.PieceLen(p) >= 0 { PieceShape(info, p); }
    map p: int | 0 <= p < info.NumPieces() && TableSays(table, p) :: info.PieceLen(p)
  }

  /** What a fresh process finds: tables and files as they were, memory rebuilt from them.  The
      background scan may or may not have completed its first round by then. */
  ghost function Reloaded(info: Info, c: Cache, scanFirst: bool): (r: Cache)
    requires Well(info, c)
    ensures Well(info, r)
  {
    var c1 := c.(bits := BitsOf(c.table, info.NumPieces()), memo := {}, lru := None);
    if scanFirst then AfterScan(info, c1) else c1
  }

  /** Opening: rebuild the tracker from the table, then evict once if over budget. */
  ghost function AfterReopen(info: Info, budget: int, c: Cache, visit: seq<int>, now: int, scanFirst: bool): (r: Cache)
    requires Well(info, c) && Visits(visit, CompletePieces(info, c.table))
    ensures Well(info, r)
  {
    var c1 := Reloaded(info, c, scanFirst);
    if !EvictionEnabled(info, budget) then c1
    else AfterSweep(info, Rebuilt(info, budget, c1, visit, now))
  }

  /** A state without a tracker, given one rebuilt from its table. */
  ghost function Rebuilt(info: Info, budget: int, c: Cache, visit: seq<int>, now: int): (r: Cache)
    requires Well(info, c) && Visits(visit, CompletePieces(info, c.table))
    ensures Well(info, r) && r.lru.Some? && TrackerFits(info, r.lru.value) && r.lru.value.budget == budget
  {
    RecoveredFits(info, budget, c.table, visit, OldTime(now));
    c.(lru := Some(RecoveredLru(info, budget, c.table, visit, OldTime(now))))
  }

  function OldTime(now: int): int { now - EVICTION_PROTECTION_WINDOW - MINUTE }

  ghost function RecoveredLru(info: Info, budget: int, table: map<int, bool>, visit: seq<int>, oldTime: int): Lru
    requires info.pieceLength > 0 && Visits(visit, CompletePieces(info, table))
  {
    Recovered(Lru(map[], [], 0, budget), CompletePieces(info, table), visit, oldTime)
  }

  /** A recovered tracker holds exactly the complete pieces, with their lengths. */
  lemma RecoveredFits(info: Info, budget: int, table: map<int, bool>, visit: seq<int>, oldTime: int)
    requires info.pieceLength > 0 && Visits(visit, CompletePieces(info, table))
    ensures var l := RecoveredLru(info, budget, table, visit, oldTime);
            && l.Valid() && l.budget == budget && TrackerFits(info, l)
            && forall p :: p in l.entries <==> info.ValidPiece(p) && TableSays(table, p)
  {
    var m := CompletePieces(info, table);
    var l0 := Lru(map[], [], 0, budget);
    RecoveredValid(l0, m, visit, oldTime);
    assert l0.entries.Keys + Elems(visit) == m.Keys;
    assert Elems(visit) - l0.entries.Keys == m.Keys;
    var l := RecoveredLru(info, budget, table, visit, oldTime);
    assert forall p :: p in l.entries <==> p in m;
  }

  /** What the program, or its caller, guarantees about an operation before it happens. */
  ghost predicate Allowed(info: Info, c: Cache, op: Op)
    requires Well(info, c)
  {
    match op
    case Write(p, at, data) =>
      p < |c.bits| && !c.bits[p] && info.PieceStart(p) <= at && at + |data| <= info.PieceEnd(p)
    case MarkComplete(p, _) => p < |c.bits| && (c.lru.Some? ==> TrackerFits(info, c.lru.value))
    case MarkNotComplete(p) => p < |c.bits|
    case Read(p, _) => p < |c.bits|
    case Sweep => c.lru.Some? ==> TrackerFits(info, c.lru.value)
    case Scan => true
    case Reopen(visit, _, _) => Visits(visit, CompletePieces(info, c.table))
  }

  ghost function Apply(info: Info, budget: int, c: Cache, op: Op): (r: Cache)
    requires Well(info, c) && Allowed(info, c, op)
    ensures Well(info, r)
  {
    match op
    case Write(p, at, data) => PieceShape(info, p); c.(bytes := Overwritten(c.bytes, at, data))
    case MarkComplete(p, now) => AfterMarkComplete(info, c, p, now)
    case MarkNotComplete(p) => Put(info, c, p, false)
    case Read(p, now) => AfterRead(info, c, p, now)
    case Sweep => AfterSweep(info, c)
    case Scan => AfterScan(info, c)
    case Reopen(visit, now, scanFirst) => AfterReopen(info, budget, c, visit, now, scanFirst)
  }

  // ---- table accesses that fail ----

  /** What goes wrong with the table accesses of one eviction: nothing; the write that marks the piece
      incomplete; or the withdrawal of its files, once `after` rows are deleted. */
  datatype Fault = NoFault | SetFails | DeleteFails(after: nat)

  /** The database as the evictions find it. */
  datatype Db = Db(closed: bool, fault: int -> Fault)

  ghost predicate Works(db: Db) {
    !db.closed && forall p :: db.fault(p) == NoFault
  }

  /** The rows an eviction of piece `p` deletes. */
  ghost function Withdrawn(info: Info, p: int, fault: Fault): set<string>
    requires info.pieceLength > 0
  {
    match fault
    case NoFault => AffectedPaths(info, p)
    case SetFails => {}
    case DeleteFails(after) => Elems(Upto(AffectedList(info, info.NumFiles(), p), after))
  }

  /** An eviction that gets as far as the database lets it.  When the piece cannot be marked incomplete
      in the table it has been forgotten in memory only, and nothing else happens; when a file cannot be
      withdrawn the eviction goes on regardless. */
  ghost function EvictWith(info: Info, c: Cache, p: nat, db: Db): (r: Cache)
    requires Well(info, c) && p < |c.bits| && c.lru.Some?
    ensures Well(info, r) && r.lru.Some?
  {
    if db.closed then c
    else if db.fault(p).SetFails? then Put(info, c, p, false).(table := c.table)
    else Evict(info, c, p).(rows := c.rows - Withdrawn(info, p, db.fault(p)))
  }

  ghost function EvictAllWith(info: Info, c: Cache, ps: seq<int>, db: Db): (r: Cache)
    requires Well(info, c) && PiecesOf(info, ps) && c.lru.Some?
    ensures Well(info, r) && r.lru.Some?
    decreases ps
  {
    if ps == [] then c
    else
      assert info.ValidPiece(ps[0]);
      EvictAllWith(info, EvictWith(info, c, ps[0], db), ps[1..], db)
  }

  ghost function AfterTrackWith(info: Info, c: Cache, p: nat, now: int, db: Db): (r: Cache)
    requires Well(info, c) && p < |c.bits| && c.lru.Some? && TrackerFits(info, c.lru.value)
    ensures Well(info, r)
  {
    var c2 := Tracked(info, c, p, now);
    EvictAllWith(info, c2, if p in c.lru.value.entries then [] else VictimsIn(info, c2), db)
  }

  /** When the table write fails the piece is complete in memory only, and is not tracked. */
  ghost function AfterMarkCompleteWith(info: Info, c: Cache, p: nat, now: int, setOk: bool, db: Db): (r: Cache)
    requires Well(info, c) && p < |c.bits| && (c.lru.Some? ==> TrackerFits(info, c.lru.value))
    ensures Well(info, r)
  {
    var c1 := Put(info, c, p, true);
    if db.closed then c
    else if !setOk then c1.(table := c.table)
    else if c.lru.None? then c1
    else AfterTrackWith(info, c1, p, now, db)
  }

  ghost function AfterSweepWith(info: Info, c: Cache, db: Db): (r: Cache)
    requires Well(info, c) && (c.lru.Some? ==> TrackerFits(info, c.lru.value))
    ensures Well(info, r)
  {
    if c.lru.Some? && c.lru.value.used > c.lru.value.budget && c.lru.value.budget > 0
    then EvictAllWith(info, c, VictimsIn(info, c), db)
    else c
  }

  /** With a database that works these are the operations above. */
  lemma {:induction false} EvictAllWorks(info: Info, c: Cache, ps: seq<int>, db: Db)
    requires Well(info, c) && PiecesOf(info, ps) && c.lru.Some? && Works(db)
    ensures EvictAllWith(info, c, ps, db) == EvictAll(info, c, ps)
    decreases ps
  {
    if ps != [] {
      assert info.ValidPiece(ps[0]);
      assert db.fault(ps[0]) == NoFault;
      EvictAllWorks(info, Evict(info, c, ps[0]), ps[1..], db);
    }
  }

  lemma MarkCompleteWorks(info: Info, c: Cache, p: nat, now: int, db: Db)
    requires Well(info, c) && p < |c.bits| && (c.lru.Some? ==> TrackerFits(info, c.lru.value)) && Works(db)
    ensures AfterMarkCompleteWith(info, c, p, now, true, db) == AfterMarkComplete(info, c, p, now)
  {
    if c.lru.Some? {
      var c2 := Tracked(info, Put(info, c, p, true), p, now);
      EvictAllWorks(info, c2, if p in c.lru.value.entries then [] else VictimsIn(info, c2), db);
    }
  }

  lemma SweepWorks(info: Info, c: Cache, db: Db)
    requires Well(info, c) && (c.lru.Some? ==> TrackerFits(info, c.lru.value)) && Works(db)
    ensures AfterSweepWith(info, c, db) == AfterSweep(info, c)
  {
    if c.lru.Some? {
      EvictAllWorks(info, c, VictimsIn(info, c), db);
    }
  }

  // ---- opening with failures ----

  /** How opening goes: whether the background scan gets its first round in before the tracker is rebuilt,
      how many files it then publishes before an insert fails, which pieces' queries fail, and what goes
      wrong in the evictions. */
  datatype Opening = Opening(scanFirst: bool, inserts: nat, unreadable: set<int>, fault: int -> Fault)

  ghost predicate OpensWell(info: Info, how: Opening) {
    how.inserts >= info.NumFiles() && how.unreadable == {} && Works(Db(false, how.fault))
  }

  /** What a fresh process finds, when its first scan round may stop half-way. */
  ghost function ReloadedWith(info: Info, c: Cache, how: Opening): (r: Cache)
    requires Well(info, c)
    ensures Well(info, r) && r.table == c.table
  {
    var c1 := Reloaded(info, c, false);
    if how.scanFirst then
      c1.(memo := MemoAfterScan(info, c1.bits, {}),
          rows := c1.rows + Elems(Upto(FreshScan(info, c1.bits, info.NumFiles()), how.inserts)))
    else c1
  }

  /** The complete pieces among those whose query succeeds. */
  ghost function Recoverable(info: Info, table: map<int, bool>, unreadable: set<int>): map<int, nat>
    requires info.pieceLength > 0
  {
    CompletePieces(info, table - unreadable)
  }

  /** The tracker rebuilt from the rows that can be read. */
  ghost function RebuiltWith(info: Info, budget: int, c: Cache, unreadable: set<int>, visit: seq<int>, now: int): (r: Cache)
    requires Well(info, c) && Visits(visit, Recoverable(info, c.table, unreadable))
    ensures Well(info, r) && r.lru.Some? && TrackerFits(info, r.lru.value) && r.lru.value.budget == budget
  {
    Rebuilt(info, budget, c.(table := c.table - unreadable), visit, now).(table := c.table)
  }

  ghost function AfterReopenWith(info: Info, budget: int, c: Cache, visit: seq<int>, now: int, how: Opening): (r: Cache)
    requires Well(info, c) && Visits(visit, Recoverable(info, c.table, how.unreadable))
    ensures Well(info, r)
  {
    var c1 := ReloadedWith(info, c, how);
    if !EvictionEnabled(info, budget) then c1
    else AfterSweepWith(info, RebuiltWith(info, budget, c1, how.unreadable, visit, now), Db(false, how.fault))
  }

  lemma ReloadedWell(info: Info, c: Cache, how: Opening)
    requires Well(info, c) && OpensWell(info, how)
    ensures ReloadedWith(info, c, how) == Reloaded(info, c, how.scanFirst)
  {
    var bits := BitsOf(c.table, info.NumPieces());
    ScanIsDoneSet(info, bits, info.NumFiles());
    FreshScanLength(info, bits, info.NumFiles());
  }

  /** Opening over a database that works is the plain operation. */
  lemma ReopenWorks(info: Info, budget: int, c: Cache, visit: seq<int>, now: int, how: Opening)
    requires Well(info, c) && Visits(visit, CompletePieces(info, c.table)) && OpensWell(info, how)
    ensures Recoverable(info, c.table, how.unreadable) == CompletePieces(info, c.table)
    ensures AfterReopenWith(info, budget, c, visit, now, how) == AfterReopen(info, budget, c, visit, now, how.scanFirst)
  {
    assert c.table - how.unreadable == c.table;
    ReloadedWell(info, c, how);
    if EvictionEnabled(info, budget) {
      SweepWorks(info, Rebuilt(info, budget, Reloaded(info, c, how.scanFirst), visit, now), Db(false, how.fault));
    }
  }
}
