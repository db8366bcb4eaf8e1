/** The storage object of one torrent, with its tables, tracker and files, updated in place.
    Each operation is shown to do exactly what CacheModel says. */
module Storage {
  import opened Geometry
  import opened Regions
  import opened HolePunch
  import opened Collections
  import opened LruSpec
  import opened Completion
  import opened PieceCompletion
  import opened PieceLru
  import opened CacheModel
  import opened Effects

  class MmapTorrentStorage {
    const info: Info
    const files: seq<array<byte>>
    const pc: PieceCompletion
    const lru: PieceLRU? // null when eviction is disabled

    constructor (info: Info, files: seq<array<byte>>, pc: PieceCompletion, lru: PieceLRU?)
      ensures this.info == info && this.files == files && this.pc == pc && this.lru == lru
    {
      this.info := info;
      this.files := files;
      this.pc := pc;
      this.lru := lru;
    }

    /** Everything but the files that an operation may write to. */
    ghost function Objects(): set<object> {
      {pc, pc.completions, pc.completions.pieces} + if lru == null then {} else {lru}
    }

    ghost function View(): Cache
      reads Objects(), files
    {
      Cache(pc.Bits(), pc.Memo(), pc.pieceTable, pc.fileRows,
            if lru == null then None else Some(lru.View()), Span(files))
    }

    ghost predicate Valid()
      reads Objects(), files
    {
      && pc.Valid() && pc.info == info
      && FilesFit(files, info.Lens())
      && (lru != null ==> lru.protector == pc.completions && TrackerFits(info, lru.View()))
      && Well(info, View())
    }

    /** Withdraws the files of a piece; a failure (after `deletes` rows) is logged and forgotten. */
    method UncompleteAffectedFiles(pieceIndex: nat, deletes: nat)
      requires info.WellFormed()
      modifies pc`fileRows
      ensures pc.fileRows == if pc.closed then old(pc.fileRows)
                             else old(pc.fileRows) - Elems(Upto(AffectedList(info, info.NumFiles(), pieceIndex), deletes))
    {
      var affectedFiles := [];
      if info.Single() {
        affectedFiles := [info.name];
        assert AffectedList(info, 1, pieceIndex) == AffectedList(info, 0, pieceIndex) + [info.Path(0)];
      } else {
        var offset := 0;
        for f := 0 to |info.files|
          invariant pc.fileRows == old(pc.fileRows)
          invariant offset == info.Start(f)
          invariant affectedFiles == AffectedList(info, f, pieceIndex)
        {
          var path := info.Path(f);
          var startPiece := info.PieceAt(offset);
          var endPiece := info.PieceAt(offset + info.files[f].length);
          assert startPiece == info.FirstPiece(f) && endPiece == info.LastPiece(f);
          offset := offset + info.files[f].length;
          if startPiece <= pieceIndex <= endPiece {
            affectedFiles := affectedFiles + [path];
          }
        }
      }
      if affectedFiles == [] {
        ElemsEmpty<string>();
        return;
      }
      var _ := pc.UncompleteFiles(affectedFiles, deletes);
    }

    /** Steps 1 and 2 of an eviction: mark incomplete, then unpublish.  The eviction ends here, with
        an error, if the first of these fails. */
    method ForgetPiece(idx: nat, fault: Fault) returns (err: Status)
      requires Valid() && idx < info.NumPieces()
      modifies pc, pc.completions, pc.completions.pieces
      ensures pc.Valid() && pc.closed == old(pc.closed)
      ensures err == if pc.closed || fault.SetFails? then Error else Ok
      ensures pc.closed ==> pc.Bits() == old(pc.Bits()) && pc.Memo() == old(pc.Memo())
      ensures !pc.closed ==> pc.Bits() == old(pc.Bits())[idx := false]
                             && pc.Memo() == MemoAfterUncomplete(info, old(pc.Bits()), old(pc.Memo()), idx)
      ensures pc.pieceTable == if err == Ok then old(pc.pieceTable)[idx := false] else old(pc.pieceTable)
      ensures pc.fileRows == if err == Ok then old(pc.fileRows) - Withdrawn(info, idx, fault) else old(pc.fileRows)
    {
      err := pc.Set(idx, false, !fault.SetFails?);
      if err == Error {
        return;
      }
      AffectedListElems(info, info.NumFiles(), idx);
      AffectedBounds(info, idx);
      UncompleteAffectedFiles(idx, if fault.DeleteFails? then fault.after else info.NumFiles());
      AffectedListLength(info, info.NumFiles(), idx);
    }

    /** Step 3: punch holes in the files.  By then the piece is incomplete and, unless a delete failed, none
        of its files is published. */
    method PunchPiece(idx: nat, ghost fault: Fault)
      requires info.pieceLength > 0 && idx < info.NumPieces()
      requires FilesFit(files, info.Lens())
      requires idx < |pc.Bits()| && !pc.Bits()[idx]
      requires !fault.DeleteFails? ==>
                 forall f :: 0 <= f < info.NumFiles() && info.Affects(f, idx) ==> info.Path(f) !in pc.fileRows
      modifies files
      ensures info.PieceStart(idx) <= info.PieceEnd(idx) <= |old(Span(files))|
      ensures Span(files) == Zeroed(old(Span(files)), info.PieceStart(idx), info.PieceEnd(idx))
    {
      PieceShape(info, idx);
      var regions := PieceFileRegions(info, idx);
      PieceRegionsTile(info, idx);
      PunchRegions(files, info.Lens(), regions, info.PieceStart(idx), info.PieceEnd(idx));
    }

    method EvictPiece(idx: nat, fault: Fault)
      requires Valid() && idx < info.NumPieces() && lru != null
      modifies Objects(), files
      ensures Valid() && pc.closed == old(pc.closed)
      ensures View() == EvictWith(info, old(View()), idx, Db(pc.closed, _ => fault))
      ensures pc.closed ==> View() == old(View())
      ensures !pc.closed && fault.SetFails? ==>
                View() == old(View()).(bits := old(pc.Bits())[idx := false], memo := pc.Memo())
      ensures !pc.closed && !fault.SetFails? ==> EvictedWith(info, old(View()), View(), {idx as int}, {})
      ensures !pc.closed && fault.NoFault? ==> Evicted(info, old(View()), View(), {idx as int})
    {
      ghost var before := View();
      var err := ForgetPiece(idx, fault);
      if err == Error {
        return;
      }
      NoneOf(info, idx);
      PunchPiece(idx, fault);
      RemovedFits(info, lru.View(), idx);
      lru.Remove(idx);
      assert View() == EvictWith(info, before, idx, Db(pc.closed, _ => fault));
      EvictWithExactly(info, before, idx, Db(pc.closed, _ => fault));
      EvictExactly(info, before, idx);
    }

    /** Carrying out a list of victims, one after another. */
    method EvictEach(toEvict: seq<int>, fault: int -> Fault)
      requires Valid() && PiecesOf(info, toEvict) && lru != null
      modifies Objects(), files
      ensures Valid() && pc.closed == old(pc.closed)
      ensures View() == EvictAllWith(info, old(View()), toEvict, Db(pc.closed, fault))
    {
      ghost var db := Db(pc.closed, fault);
      assert toEvict[0..] == toEvict;
      for k := 0 to |toEvict|
        invariant Valid() && pc.closed == db.closed && PiecesOf(info, toEvict[k..])
        invariant EvictAllWith(info, old(View()), toEvict, db) == EvictAllWith(info, View(), toEvict[k..], db)
      {
        assert info.ValidPiece(toEvict[k..][0]);
        assert toEvict[k..][1..] == toEvict[k + 1..];
        EvictPiece(toEvict[k], fault(toEvict[k]));
      }
    }

    method EvictOverBudget(fault: int -> Fault)
      requires Valid() && lru != null
      modifies Objects(), files
      ensures Valid() && pc.closed == old(pc.closed)
      ensures View() == EvictAllWith(info, old(View()), VictimsIn(info, old(View())), Db(pc.closed, fault))
    {
      var toEvict := lru.ComputeEvictions();
      assert toEvict == VictimsIn(info, View());
      EvictEach(toEvict, fault);
    }

    /** One round of eviction after recovery, if needed. */
    method EvictIfOver(budget: int, fault: int -> Fault)
      requires Valid() && lru != null && budget == lru.budget && budget > 0
      modifies Objects(), files
      ensures Valid() && pc.closed == old(pc.closed)
      ensures View() == AfterSweepWith(info, old(View()), Db(pc.closed, fault))
    {
      if lru.used > budget {
        EvictOverBudget(fault);
      }
    }

    /** One tick of the background sweep. */
    method SweepTick(fault: int -> Fault)
      requires Valid() && lru != null
      modifies Objects(), files
      ensures Valid() && pc.closed == old(pc.closed)
      ensures View() == AfterSweepWith(info, old(View()), Db(pc.closed, fault))
    {
      if lru.used > lru.budget && lru.budget > 0 {
        EvictOverBudget(fault);
      }
    }

    /** `setOk` says whether the table write succeeds, `fault` what goes wrong in the evictions. */
    method MarkComplete(p: nat, now: int, setOk: bool, fault: int -> Fault) returns (err: Status)
      requires Valid() && p < info.NumPieces()
      modifies Objects(), files
      ensures Valid() && pc.closed == old(pc.closed)
      ensures err == if pc.closed || !setOk then Error else Ok
      ensures View() == AfterMarkCompleteWith(info, old(View()), p, now, setOk, Db(pc.closed, fault))
    {
      ghost var before := View();
      PieceShape(info, p);
      err := pc.Set(p, true, setOk);
      if err == Error {
        return;
      }
      assert View() == Put(info, before, p, true);
      if lru != null {
        var _ := MadviseSpanRange(info.Lens(), info.PieceStart(p), info.PieceLen(p));
        Track(p, now, fault);
      }
    }

    /** The tracker's half of `MarkComplete`: add the piece, then evict what that pushes out. */
    method Track(p: nat, now: int, fault: int -> Fault)
      requires Valid() && p < info.NumPieces() && lru != null
      modifies Objects(), files
      ensures Valid() && pc.closed == old(pc.closed)
      ensures View() == AfterTrackWith(info, old(View()), p, now, Db(pc.closed, fault))
    {
      ghost var before := View();
      AddedFits(info, lru.View(), p, now);
      var toEvict := lru.Add(p, info.PieceLen(p), now);
      ghost var tracked := Tracked(info, before, p, now);
      assert View() == tracked;
      assert toEvict == if p in before.lru.value.entries then [] else VictimsIn(info, tracked);
      EvictEach(toEvict, fault);
    }

    method MarkNotComplete(p: nat, setOk: bool) returns (err: Status)
      requires Valid() && p < info.NumPieces()
      modifies Objects(), files
      ensures Valid() && pc.closed == old(pc.closed)
      ensures err == if pc.closed || !setOk then Error else Ok
      ensures var c := old(View());
              View() == if pc.closed then c
                        else if setOk then Put(info, c, p, false)
                        else Put(info, c, p, false).(table := c.table)
    {
      err := pc.Set(p, false, setOk);
    }

    /** Reading touches the piece, whatever the read then yields: nothing outside the piece, otherwise
        the bytes from `off` on, as many of the `n` asked for as the piece has. */
    method ReadAt(p: nat, off: int, n: nat, now: int) returns (data: seq<byte>, eof: bool)
      requires Valid() && p < info.NumPieces()
      modifies Objects(), files
      ensures Valid() && pc.closed == old(pc.closed)
      ensures View() == AfterRead(info, old(View()), p, now)
      ensures info.PieceEnd(p) <= |View().bytes|
      ensures var len := info.PieceLen(p);
              && (eof <==> off < 0 || off >= len || n > len - off)
              && |data| == (if 0 <= off < len then Min(n, len - off) else 0)
              && forall k :: 0 <= k < |data| ==> data[k] == View().bytes[info.PieceStart(p) + off + k]
      ensures View() == old(View()).(lru := View().lru)
      ensures lru != null && p !in old(lru.entries) ==> lru.View() == old(lru.View())
      ensures lru != null && p in old(lru.entries) ==>
                && lru.lruList != [] && lru.lruList[0] == p && lru.used == old(lru.used)
                && lru.entries == old(lru.entries)[p := Entry(old(lru.entries)[p].size, now)]
                && forall i, j :: i != p && j != p ==> (Before(lru.lruList, i, j) <==> Before(old(lru.lruList), i, j))
    {
      if lru != null {
        TouchedFits(info, lru.View(), p, now);
        lru.Touch(p, now);
      }
      data, eof := ReadSection(p, off, n);
      if |data| > 0 && lru != null {
        var _ := MadviseSpanRange(info.Lens(), info.PieceStart(p) + off, |data|);
      }
    }

    /** Reading within the section of the span that is piece `p`. */
    method ReadSection(p: nat, off: int, n: nat) returns (data: seq<byte>, eof: bool)
      requires info.pieceLength > 0 && p < info.NumPieces() && FilesFit(files, info.Lens())
      ensures info.PieceEnd(p) <= |Span(files)|
      ensures var len := info.PieceLen(p);
              && (eof <==> off < 0 || off >= len || n > len - off)
              && |data| == (if 0 <= off < len then Min(n, len - off) else 0)
              && forall k :: 0 <= k < |data| ==> data[k] == Span(files)[info.PieceStart(p) + off + k]
    {
      PieceShape(info, p);
      SpanLength(files, info.Lens());
      var len := info.PieceLen(p);
      if off < 0 || off >= len {
        return [], true;
      }
      eof := n > len - off;
      var from := info.PieceStart(p) + off;
      data := ReadSpan(files, info.Lens(), from, from + Min(n, len - off));
    }
  }

  lemma NoneOf(info: Info, p: nat)
    requires info.WellFormed()
    ensures forall f :: 0 <= f < info.NumFiles() && info.Affects(f, p) ==> info.Path(f) in AffectedPaths(info, p)
    ensures Withdrawn(info, p, NoFault) == AffectedPaths(info, p)
  {
  }

  lemma {:induction false} AffectedListLength(info: Info, n: nat, p: int)
    requires info.pieceLength > 0 && n <= info.NumFiles()
    ensures |AffectedList(info, n, p)| <= n
  {
    if n > 0 {
      AffectedListLength(info, n - 1, p);
    }
  }

  lemma RemovedFits(info: Info, l: Lru, p: int)
    requires info.pieceLength > 0 && TrackerFits(info, l)
    ensures TrackerFits(info, Removed(l, p))
  {
  }

  lemma TouchedFits(info: Info, l: Lru, p: int, now: int)
    requires info.pieceLength > 0 && TrackerFits(info, l)
    ensures TrackerFits(info, Touched(l, p, now))
  {
  }

  lemma AddedFits(info: Info, l: Lru, p: nat, now: int)
    requires info.pieceLength > 0 && TrackerFits(info, l) && p < info.NumPieces()
    ensures info.PieceLen(p) >= 0 && TrackerFits(info, Added(l, p, info.PieceLen(p), now))
  {
    PieceShape(info, p);
  }

  /** What the queries answer, `unreadable` being the pieces whose query fails. */
  ghost function Readable(pc: PieceCompletion, unreadable: set<int>): map<int, bool>
    reads pc
  {
    if pc.closed then map[] else pc.pieceTable - unreadable
  }

  /** Rebuilding the tracker from the table; pieces whose query fails are passed over. */
  method RecoverLRU(lru: PieceLRU, pc: PieceCompletion, info: Info, now: int, unreadable: set<int>)
    returns (ghost visit: seq<int>)
    requires lru.Valid() && lru.View() == Lru(map[], [], 0, lru.budget) && info.pieceLength > 0
    modifies lru
    ensures Visits(visit, CompletePieces(info, Readable(pc, unreadable)))
    ensures lru.Valid() && lru.protector == old(lru.protector)
    ensures lru.View() == RecoveredLru(info, lru.budget, Readable(pc, unreadable), visit, OldTime(now))
  {
    var completePieces: map<int, nat> := map[];
    for i := 0 to info.NumPieces()
      invariant unchanged(lru)
      invariant forall p :: p in completePieces <==> 0 <= p < i && TableSays(Readable(pc, unreadable), p)
      invariant forall p :: p in completePieces ==> completePieces[p] == info.PieceLen(p)
    {
      var complete, ok, err := pc.Get(i, i !in unreadable);
      if err == Ok && ok && complete {
        PieceShape(info, i);
        completePieces := completePieces[i := info.PieceLen(i)];
      }
    }
    assert completePieces == CompletePieces(info, Readable(pc, unreadable));
    visit := [];
    if completePieces != map[] {
      visit := lru.Recover(completePieces, now);
    } else {
      ElemsEmpty<int>();
    }
  }

  /** The branch of opening in which the torrent is larger than the budget: rebuild the tracker,
      then evict once if it starts over budget. */
  method OpenWithEviction(info: Info, budget: int, files: seq<array<byte>>, pc: PieceCompletion, now: int,
                          unreadable: set<int>, fault: int -> Fault)
    returns (t: MmapTorrentStorage, ghost visit: seq<int>)
    requires pc.Valid() && pc.info == info && !pc.closed && budget > 0
    requires FilesFit(files, info.Lens()) && Well(info, Found(pc, files))
    modifies pc, pc.completions, pc.completions.pieces, files
    ensures t.info == info && t.files == files && t.Valid()
    ensures Visits(visit, Recoverable(info, old(pc.pieceTable), unreadable))
    ensures t.View() == AfterSweepWith(info, RebuiltWith(info, budget, old(Found(pc, files)), unreadable, visit, now),
                                       Db(false, fault))
  {
    ghost var found := Found(pc, files);
    var lru := new PieceLRU(budget);
    lru.SetProtector(pc.completions);
    visit := RecoverLRU(lru, pc, info, now, unreadable);
    assert Span(files) == found.bytes;
    t := new MmapTorrentStorage(info, files, pc, lru);
    assert t.View() == RebuiltWith(info, budget, found, unreadable, visit, now);
    assert t.Objects() == {pc, pc.completions, pc.completions.pieces, lru};
    t.EvictIfOver(budget, fault);
  }

  /** The state of a torrent before it has a tracker. */
  ghost function Found(pc: PieceCompletion, files: seq<array<byte>>): Cache
    reads pc, pc.completions, pc.completions.pieces, files
  {
    Cache(pc.Bits(), pc.Memo(), pc.pieceTable, pc.fileRows, None, Span(files))
  }

  /** What lies in the database and the files before a process opens them. */
  ghost function Stored(info: Info, pieceTable: map<int, bool>, fileRows: set<string>, bytes: seq<byte>): Cache
    requires info.pieceLength > 0
  {
    Cache(BitsOf(pieceTable, info.NumPieces()), {}, pieceTable, fileRows, None, bytes)
  }

  /** Opening a torrent over existing tables and files; `how` says what the scheduler and the database
      make of it. */
  method OpenTorrent(info: Info, budget: int, files: seq<array<byte>>, pieceTable: map<int, bool>, fileRows: set<string>,
                     now: int, how: Opening)
    returns (t: MmapTorrentStorage, ghost visit: seq<int>)
    requires info.WellFormed() && FilesFit(files, info.Lens())
    requires TableFits(pieceTable, info.NumPieces())
    modifies files
    ensures t.info == info && t.files == files && t.Valid()
    ensures t.lru == null <==> budget <= 0 || info.Total() <= budget
    ensures |old(Span(files))| == info.Total()
    ensures Visits(visit, Recoverable(info, pieceTable, how.unreadable))
    ensures t.View() == AfterReopenWith(info, budget, Stored(info, pieceTable, fileRows, old(Span(files))), visit, now, how)
  {
    SpanLength(files, info.Lens());
    ghost var stored := Stored(info, pieceTable, fileRows, Span(files));
    var pc := new PieceCompletion(info, pieceTable, fileRows);
    if how.scanFirst {
      var _ := pc.ScanOnce(how.inserts);
    }
    assert Found(pc, files) == ReloadedWith(info, stored, how);
    if budget > 0 && info.Total() > budget {
      t, visit := OpenWithEviction(info, budget, files, pc, now, how.unreadable, how.fault);
    } else {
      visit := Listing(Recoverable(info, pieceTable, how.unreadable).Keys); // of no consequence without a tracker
      t := new MmapTorrentStorage(info, files, pc, null);
    }
  }
}
