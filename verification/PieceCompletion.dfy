/** Completion state backed by two tables: `piece_completion` (index to flag) and
    `file_completion` (a set of paths).  The tables outlive the object. */
module PieceCompletion {
  import opened Geometry
  import opened Collections
  import opened Completion

  datatype Status = Ok | Error

  /** What `select complete ... where index = p` answers, no row counting as incomplete. */
  predicate TableSays(table: map<int, bool>, p: int) {
    p in table && table[p]
  }

  function BitsOf(table: map<int, bool>, n: nat): (bits: seq<bool>)
    ensures |bits| == n
  {
    seq(n, p requires 0 <= p < n => TableSays(table, p))
  }

  /** The rows of the table are about pieces of this torrent. */
  ghost predicate TableFits(table: map<int, bool>, n: nat) {
    forall p :: p in table ==> 0 <= p < n
  }

  /** Memory and table agree after a `Set` exactly when the table write went through or there was
      nothing to change. */
  lemma AgreementAfterSet(bits: seq<bool>, table: map<int, bool>, p: nat, b: bool, dbOk: bool)
    requires p < |bits| && bits == BitsOf(table, |bits|)
    ensures bits[p := b] == BitsOf(if dbOk then table[p := b] else table, |bits|) <==> dbOk || bits[p] == b
  {
    var table' := if dbOk then table[p := b] else table;
    assert bits[p := b][p] == b;
    assert BitsOf(table', |bits|)[p] == TableSays(table', p);
    assert bits[p] == TableSays(table, p);
  }

  // ---- runs of calls, then a restart ----

  datatype Call = SetPiece(p: nat, b: bool) | ScanFiles

  datatype Memory = Memory(bits: seq<bool>, memo: set<string>, table: map<int, bool>)

  ghost function AfterCall(info: Info, m: Memory, call: Call): Memory
    requires info.pieceLength > 0
  {
    match call
    case SetPiece(p, b) =>
      if p < |m.bits| then
        Memory(m.bits[p := b], if b then m.memo else MemoAfterUncomplete(info, m.bits, m.memo, p), m.table[p := b])
      else m
    case ScanFiles => m.(memo := MemoAfterScan(info, m.bits, m.memo))
  }

  ghost function AfterCalls(info: Info, table: map<int, bool>, calls: seq<Call>): Memory
    requires info.pieceLength > 0
  {
    if calls == [] then Memory(BitsOf(table, info.NumPieces()), {}, table)
    else AfterCall(info, AfterCalls(info, table, calls[..|calls| - 1]), calls[|calls| - 1])
  }

  /** After any run of successful calls on an opened database, the vector is what the table says, so
      a restart restores it; and one scan then recovers at least every file memoised before, in a
      multi-file torrent all completed ones. */
  lemma {:induction false} RunThenRestart(info: Info, table: map<int, bool>, calls: seq<Call>)
    requires info.WellFormed()
    ensures var m, restored := AfterCalls(info, table, calls), AfterCalls(info, AfterCalls(info, table, calls).table, []);
            && MemoSound(info, m.bits, m.memo)
            && restored.bits == m.bits
            && m.memo <= AfterCall(info, restored, ScanFiles).memo
            && (!info.Single() ==> AfterCall(info, restored, ScanFiles).memo == DoneSet(info, m.bits))
  {
    if calls != [] {
      var before, call := AfterCalls(info, table, calls[..|calls| - 1]), calls[|calls| - 1];
      RunThenRestart(info, table, calls[..|calls| - 1]);
      match call {
        case SetPiece(p, b) =>
          if p < |before.bits| {
            AgreementAfterSet(before.bits, before.table, p, b, true);
            if b {
              CompleteKeepsMemo(info, before.bits, before.memo, p);
            } else {
              UncompleteKeepsMemo(info, before.bits, before.memo, p);
            }
          }
        case ScanFiles => ScanKeepsMemo(info, before.bits, before.memo);
      }
    }
  }

  class PieceCompletion {
    const info: Info
    const completions: Completions
    var pieceTable: map<int, bool>
    var fileRows: set<string>
    var closed: bool

    ghost predicate Valid()
      reads this, completions, completions.pieces
    {
      && completions.Valid()
      && completions.info == info
    }

    ghost function Bits(): seq<bool>
      reads this, completions, completions.pieces
    {
      completions.pieces[..]
    }

    ghost function Memo(): set<string>
      reads this, completions
    {
      completions.completedFiles
    }

    /** Memory and table agree. */
    ghost predicate Agrees()
      reads this, completions, completions.pieces
    {
      Valid() && Bits() == BitsOf(pieceTable, info.NumPieces())
    }

    /** Opens existing tables (empty ones for a new torrent) and reads the vector back. */
    constructor (info: Info, pieceTable: map<int, bool>, fileRows: set<string>)
      requires info.WellFormed() && TableFits(pieceTable, info.NumPieces())
      ensures Agrees() && this.info == info && Memo() == {} && !closed
      ensures this.pieceTable == pieceTable && this.fileRows == fileRows
      ensures fresh(completions) && fresh(completions.pieces)
    {
      var pieces := new bool[info.NumPieces()](_ => false);
      var completedCount := ReadRows(pieceTable, pieces);
      this.info := info;
      this.completions := new Completions(info, pieces, completedCount);
      this.pieceTable := pieceTable;
      this.fileRows := fileRows;
      this.closed := false;
    }

    /** A query may fail (`dbOk` says whether it does), as it does on a closed database; it may then
        still have delivered its row. */
    method Get(p: nat, dbOk: bool) returns (complete: bool, ok: bool, err: Status)
      ensures err == if closed || !dbOk then Error else Ok
      ensures err == Ok ==> ok == (p in pieceTable) && complete == TableSays(pieceTable, p)
      ensures ok ==> p in pieceTable && complete == pieceTable[p]
    {
      complete, ok, err := false, false, Ok;
      if closed || !dbOk {
        return complete, ok, Error;
      }
      if p in pieceTable {
        complete := pieceTable[p];
        ok := true;
      }
    }

    /** Memory is updated first; the table write may then fail (`dbOk` says whether it does). */
    method Set(p: nat, b: bool, dbOk: bool) returns (err: Status)
      requires Valid() && p < info.NumPieces()
      modifies this, completions, completions.pieces
      ensures Valid() && fileRows == old(fileRows) && closed == old(closed)
      ensures closed ==> err == Error && Bits() == old(Bits()) && Memo() == old(Memo()) && pieceTable == old(pieceTable)
      ensures !closed ==>
                && err == (if dbOk then Ok else Error)
                && Bits() == old(Bits())[p := b]
                && Memo() == (if b then old(Memo()) else MemoAfterUncomplete(info, old(Bits()), old(Memo()), p))
                && pieceTable == if dbOk then old(pieceTable)[p := b] else old(pieceTable)
      ensures !closed && dbOk && old(Agrees()) ==> Agrees()
    {
      if closed {
        return Error;
      }
      ghost var bits, table := Bits(), pieceTable;
      if b {
        completions.Complete(p);
      } else {
        var _ := completions.Uncomplete(p);
      }
      if !dbOk {
        return Error;
      }
      pieceTable := pieceTable[p := b];
      if bits == BitsOf(table, info.NumPieces()) {
        AgreementAfterSet(bits, table, p, b, true);
      }
      return Ok;
    }

    /** One delete per path, giving up at the first that fails: after `deletes` successful ones. */
    method UncompleteFiles(paths: seq<string>, deletes: nat) returns (err: Status)
      modifies this`fileRows
      ensures fileRows == if closed then old(fileRows) else old(fileRows) - Elems(Upto(paths, deletes))
      ensures err == if closed || deletes < |paths| then Error else Ok
    {
      if closed {
        return Error;
      }
      for k := 0 to |paths|
        invariant k <= deletes && fileRows == old(fileRows) - Elems(paths[..k])
      {
        if k == deletes {
          return Error;
        }
        assert paths[..k + 1] == paths[..k] + [paths[k]];
        ElemsSnoc(paths[..k], paths[k]);
        fileRows := fileRows - {paths[k]};
      }
      assert paths[..|paths|] == paths;
      return Ok;
    }

    method CompleteFile(path: string, dbOk: bool) returns (err: Status)
      modifies this`fileRows
      ensures fileRows == if closed || !dbOk then old(fileRows) else old(fileRows) + {path}
      ensures err == if closed || !dbOk then Error else Ok
    {
      if closed || !dbOk {
        return Error;
      }
      fileRows := fileRows + {path};
      return Ok;
    }

    /** One round of the background loop: take the completed files, then publish each, giving up at
        the first that fails: after `inserts` successful ones.  Says whether the loop ends here: it
        does exactly when publishing failed, everything is complete, or the database is closed. */
    method ScanOnce(inserts: nat) returns (stop: bool)
      requires Valid()
      modifies this`fileRows, completions
      ensures Valid() && Bits() == old(Bits())
      ensures Memo() == MemoAfterScan(info, Bits(), old(Memo()))
      ensures var done := FreshScan(info, Bits(), info.NumFiles());
              && fileRows == (if closed then old(fileRows) else old(fileRows) + Elems(Upto(done, inserts)))
              && (inserts >= |done| && !closed ==> fileRows == old(fileRows) + DoneSet(info, Bits()))
              && (stop <==> closed || inserts < |done| || forall p :: 0 <= p < |Bits()| ==> Bits()[p])
    {
      var files := completions.GetCompletedFiles();
      ScanIsDoneSet(info, Bits(), info.NumFiles());
      CountTrueFull(Bits());
      for k := 0 to |files|
        invariant Valid() && Bits() == old(Bits()) && Memo() == MemoAfterScan(info, Bits(), old(Memo()))
        invariant closed ==> fileRows == old(fileRows)
        invariant !closed ==> k <= inserts && fileRows == old(fileRows) + Elems(files[..k])
      {
        assert files[..k + 1] == files[..k] + [files[k]];
        ElemsSnoc(files[..k], files[k]);
        var err := CompleteFile(files[k], k < inserts);
        if err == Error {
          return true;
        }
      }
      assert files[..|files|] == files;
      return completions.completed || closed;
    }
  }

  /** Setting the bits of a fresh vector from the table's rows, met in some order, and counting them. */
  method ReadRows(table: map<int, bool>, pieces: array<bool>) returns (completedCount: nat)
    requires TableFits(table, pieces.Length)
    requires forall p :: 0 <= p < pieces.Length ==> !pieces[p]
    modifies pieces
    ensures pieces[..] == BitsOf(table, pieces.Length)
    ensures completedCount == CountTrue(pieces[..])
  {
    completedCount := 0;
    AllFalse(pieces[..]);
    var rest := table.Keys;
    while rest != {}
      invariant rest <= table.Keys
      invariant forall p :: 0 <= p < pieces.Length ==> pieces[p] == (p !in rest && TableSays(table, p))
      invariant completedCount == CountTrue(pieces[..])
      decreases |rest|
    {
      var index := PickOne(rest);
      rest := rest - {index};
      if table[index] {
        CountTrueUpdate(pieces[..], index, true);
        assert pieces[..][index := true][index];
        pieces[index] := true;
        completedCount := completedCount + 1;
      }
    }
  }

  lemma {:induction false} AllFalse(bits: seq<bool>)
    requires forall p :: 0 <= p < |bits| ==> !bits[p]
    ensures CountTrue(bits) == 0
  {
    if bits != [] {
      AllFalse(bits[..|bits| - 1]);
    }
  }
}
