/** In-memory completion state: a bit vector with a count, a whole-torrent flag and a memo of
    completed files, the last two being shortcuts for scanning the vector. */
module Completion {
  import opened Geometry
  import opened Collections

  // ---- what the shortcuts must agree with ----

  /** Every piece the completion code relates to file `f` is complete. */
  predicate FileDone(info: Info, bits: seq<bool>, f: nat)
    requires info.pieceLength > 0 && f < info.NumFiles()
  {
    forall p :: 0 <= p < |bits| && info.Affects(f, p) ==> bits[p]
  }

  /** Paths of the completed files among the first `n`, by looking at the bit vector only. */
  function FreshScan(info: Info, bits: seq<bool>, n: nat): seq<string>
    requires info.pieceLength > 0 && n <= info.NumFiles()
  {
    if n == 0 then []
    else if FileDone(info, bits, n - 1) then FreshScan(info, bits, n - 1) + [info.Path(n - 1)]
    else FreshScan(info, bits, n - 1)
  }

  ghost function DoneSet(info: Info, bits: seq<bool>): set<string>
    requires info.pieceLength > 0
  {
    set f | 0 <= f < info.NumFiles() && FileDone(info, bits, f) :: info.Path(f)
  }

  ghost function AffectedPaths(info: Info, p: int): set<string>
    requires info.pieceLength > 0
  {
    set f | 0 <= f < info.NumFiles() && info.Affects(f, p) :: info.Path(f)
  }

  /** Paths of the torrent's files. */
  ghost function PathsUpTo(info: Info, n: nat): set<string>
    requires n <= info.NumFiles()
  {
    set f | 0 <= f < n :: info.Path(f)
  }

  ghost function AllPaths(info: Info): set<string> { PathsUpTo(info, info.NumFiles()) }

  /** Piece `p` belongs to a file named in `memo`. */
  ghost predicate Protected(info: Info, memo: set<string>, p: int)
    requires info.pieceLength > 0
  {
    exists f :: 0 <= f < info.NumFiles() && info.Affects(f, p) && info.Path(f) in memo
  }

  /** The memo names completed files only, and in a single-file torrent it stays empty. */
  ghost predicate MemoSound(info: Info, bits: seq<bool>, memo: set<string>)
    requires info.pieceLength > 0
  {
    memo <= DoneSet(info, bits) && (info.Single() ==> memo == {})
  }

  /** The memo after a piece is marked incomplete. */
  ghost function MemoAfterUncomplete(info: Info, bits: seq<bool>, memo: set<string>, p: int): set<string>
    requires info.pieceLength > 0 && 0 <= p < |bits|
  {
    if bits[p] then memo - AffectedPaths(info, p) else memo
  }

  /** The memo after a scan. */
  ghost function MemoAfterScan(info: Info, bits: seq<bool>, memo: set<string>): set<string>
    requires info.pieceLength > 0
  {
    if info.Single() then memo else memo + DoneSet(info, bits)
  }

  function CountTrue(bits: seq<bool>): nat {
    if bits == [] then 0 else CountTrue(bits[..|bits| - 1]) + if bits[|bits| - 1] then 1 else 0
  }

  lemma {:induction false} CountTrueUpdate(bits: seq<bool>, p: nat, b: bool)
    requires p < |bits|
    ensures CountTrue(bits[p := b]) ==
            CountTrue(bits) - (if bits[p] then 1 else 0) + if b then 1 else 0
  {
    var n := |bits| - 1;
    var bits' := bits[p := b];
    if p < n {
      assert bits'[..n] == bits[..n][p := b];
      CountTrueUpdate(bits[..n], p, b);
    } else {
      assert bits'[..n] == bits[..n];
    }
  }

  /** The count reaches the length exactly when every bit is set. */
  lemma {:induction false} CountTrueFull(bits: seq<bool>)
    ensures CountTrue(bits) <= |bits|
    ensures CountTrue(bits) == |bits| <==> forall p :: 0 <= p < |bits| ==> bits[p]
  {
    if bits != [] {
      var n := |bits| - 1;
      CountTrueFull(bits[..n]);
      assert forall p :: 0 <= p < n ==> bits[..n][p] == bits[p];
    }
  }

  /** Paths identify files. */
  lemma PathInDoneSet(info: Info, bits: seq<bool>, f: nat)
    requires info.WellFormed() && f < info.NumFiles()
    ensures info.Path(f) in DoneSet(info, bits) <==> FileDone(info, bits, f)
  {
    if info.Path(f) in DoneSet(info, bits) {
      var g :| 0 <= g < info.NumFiles() && FileDone(info, bits, g) && info.Path(g) == info.Path(f);
      assert g == f;
    }
  }

  lemma PathInAffected(info: Info, f: nat, p: int)
    requires info.WellFormed() && f < info.NumFiles()
    ensures info.Path(f) in AffectedPaths(info, p) <==> info.Affects(f, p)
  {
    if info.Path(f) in AffectedPaths(info, p) {
      var g :| 0 <= g < info.NumFiles() && info.Affects(g, p) && info.Path(g) == info.Path(f);
      assert g == f;
    }
  }

  lemma {:induction false} ScanIsDoneSet(info: Info, bits: seq<bool>, n: nat)
    requires info.pieceLength > 0 && n <= info.NumFiles()
    ensures Elems(FreshScan(info, bits, n)) ==
            set f | 0 <= f < n && FileDone(info, bits, f) :: info.Path(f)
  {
    if n > 0 {
      ScanIsDoneSet(info, bits, n - 1);
      var s := FreshScan(info, bits, n - 1);
      if FileDone(info, bits, n - 1) {
        assert Elems(s + [info.Path(n - 1)]) == Elems(s) + {info.Path(n - 1)};
      }
    }
  }

  /** Completing a piece can only complete more files; the memo stays sound. */
  lemma CompleteKeepsMemo(info: Info, bits: seq<bool>, memo: set<string>, p: nat)
    requires info.WellFormed() && p < |bits| && MemoSound(info, bits, memo)
    ensures MemoSound(info, bits[p := true], memo)
  {
    forall f | 0 <= f < info.NumFiles() && FileDone(info, bits, f)
      ensures info.Path(f) in DoneSet(info, bits[p := true])
    {
      assert FileDone(info, bits[p := true], f);
    }
  }

  /** Losing a piece takes exactly the files it belongs to out of the completed ones; the memo forgets
      those, and no others, and stays sound. */
  lemma UncompleteKeepsMemo(info: Info, bits: seq<bool>, memo: set<string>, p: nat)
    requires info.WellFormed() && p < |bits| && MemoSound(info, bits, memo)
    ensures DoneSet(info, bits[p := false]) == DoneSet(info, bits) - AffectedPaths(info, p)
    ensures MemoSound(info, bits[p := false], MemoAfterUncomplete(info, bits, memo, p))
    ensures forall path :: path in MemoAfterUncomplete(info, bits, memo, p) <==>
              path in memo && !(bits[p] && exists f :: 0 <= f < info.NumFiles() && info.Path(f) == path && info.Affects(f, p))
  {
    var bits' := bits[p := false];
    forall f | 0 <= f < info.NumFiles()
      ensures info.Path(f) in DoneSet(info, bits') <==> info.Path(f) in DoneSet(info, bits) - AffectedPaths(info, p)
    {
      PathInDoneSet(info, bits', f);
      PathInDoneSet(info, bits, f);
      PathInAffected(info, f, p);
      if FileDone(info, bits', f) {
        assert bits'[p] == false;
      }
    }
    assert bits' == bits || bits[p];
  }

  lemma ScanKeepsMemo(info: Info, bits: seq<bool>, memo: set<string>)
    requires info.WellFormed() && MemoSound(info, bits, memo)
    ensures MemoSound(info, bits, MemoAfterScan(info, bits, memo))
    ensures memo <= MemoAfterScan(info, bits, memo)
    ensures !info.Single() ==> MemoAfterScan(info, bits, memo) == DoneSet(info, bits)
  {
  }

  class Completions {
    const info: Info
    const pieces: array<bool>
    var completedCount: int
    var completedFiles: set<string>
    var completed: bool

    ghost predicate Valid()
      reads this, pieces
    {
      && info.WellFormed()
      && pieces.Length == info.NumPieces()
      && completedCount == CountTrue(pieces[..])
      && (completed <==> completedCount == pieces.Length)
      && MemoSound(info, pieces[..], completedFiles)
    }

    /** Starts from the bits read back from the table, with their number and an empty memo. */
    constructor (info: Info, pieces: array<bool>, completedCount: int)
      requires info.WellFormed() && pieces.Length == info.NumPieces() && completedCount == CountTrue(pieces[..])
      ensures Valid() && this.info == info && this.pieces == pieces && completedFiles == {}
    {
      this.info := info;
      this.pieces := pieces;
      this.completedCount := completedCount;
      this.completed := completedCount == pieces.Length;
      this.completedFiles := {};
    }

    method Complete(index: nat)
      requires Valid() && index < pieces.Length
      modifies this, pieces
      ensures Valid() && pieces[..] == old(pieces[..])[index := true]
      ensures completedFiles == old(completedFiles)
    {
      if pieces[index] {
        return;
      }
      CountTrueUpdate(pieces[..], index, true);
      CompleteKeepsMemo(info, pieces[..], completedFiles, index);
      completedCount := completedCount + 1;
      pieces[index] := true;
      completed := completedCount == pieces.Length;
    }

    method Uncomplete(index: nat) returns (affectedFiles: seq<string>)
      requires Valid() && index < pieces.Length
      modifies this, pieces
      ensures Valid() && pieces[..] == old(pieces[..])[index := false]
      ensures completedFiles == MemoAfterUncomplete(info, old(pieces[..]), old(completedFiles), index)
      ensures forall path :: path in completedFiles <==>
                && path in old(completedFiles)
                && !(old(pieces[index]) && exists f :: 0 <= f < info.NumFiles() && info.Path(f) == path && info.Affects(f, index))
      ensures Elems(affectedFiles) == if !old(pieces[index]) then {}
                                      else if info.Single() then {info.name}
                                      else old(completedFiles) * AffectedPaths(info, index)
    {
      affectedFiles := [];
      if !pieces[index] {
        return;
      }
      ghost var bits, memo := pieces[..], completedFiles;
      CountTrueUpdate(bits, index, false);
      CountTrueFull(bits[index := false]);
      UncompleteKeepsMemo(info, bits, memo, index);
      completedCount := completedCount - 1;
      pieces[index] := false;
      completed := false;
      if info.Single() {
        completedFiles := completedFiles - {info.name};
        affectedFiles := [info.name];
      } else {
        affectedFiles := ForgetFiles(index);
      }
    }

    /** The multi-file half of `Uncomplete`. */
    method ForgetFiles(index: nat) returns (affectedFiles: seq<string>)
      requires info.WellFormed() && !info.Single()
      modifies this`completedFiles
      ensures completedFiles == old(completedFiles) - AffectedPaths(info, index)
      ensures Elems(affectedFiles) == old(completedFiles) * AffectedPaths(info, index)
    {
      affectedFiles := [];
      var offset := 0;
      AffectedBounds(info, index);
      for f := 0 to |info.files|
        invariant offset == info.Start(f)
        invariant completedFiles == old(completedFiles) - AffectedUpTo(info, f, index)
        invariant Elems(affectedFiles) == old(completedFiles) * AffectedUpTo(info, f, index)
      {
        var path := info.Path(f);
        var startPiece := info.PieceAt(offset);
        var endPiece := info.PieceAt(offset + info.files[f].length);
        offset := offset + info.files[f].length;
        AffectedStep(info, f, index);
        if startPiece <= index <= endPiece {
          if path in completedFiles {
            completedFiles := completedFiles - {path};
            assert Elems(affectedFiles + [path]) == Elems(affectedFiles) + {path};
            affectedFiles := affectedFiles + [path];
          }
        }
      }
    }

    method IsPieceInCompletedFile(index: int) returns (r: bool)
      requires Valid()
      ensures r <==> exists f :: 0 <= f < info.NumFiles() && info.Affects(f, index) && info.Path(f) in completedFiles
    {
      if completedFiles == {} {
        return false;
      }
      if info.Single() {
        return info.name in completedFiles;
      }
      var offset := 0;
      for f := 0 to |info.files|
        invariant offset == info.Start(f)
        invariant forall g :: 0 <= g < f && info.Affects(g, index) ==> info.Path(g) !in completedFiles
      {
        var path := info.Path(f);
        var startPiece := info.PieceAt(offset);
        var endPiece := info.PieceAt(offset + info.files[f].length);
        offset := offset + info.files[f].length;
        if startPiece <= index <= endPiece {
          if path in completedFiles {
            return true;
          }
        }
      }
      return false;
    }

    /** With its two shortcuts, returns exactly the files a scan of the bit vector would. */
    method GetCompletedFiles() returns (files: seq<string>)
      requires Valid()
      modifies this
      ensures Valid() && files == FreshScan(info, pieces[..], info.NumFiles())
      ensures completedFiles == MemoAfterScan(info, pieces[..], old(completedFiles))
      ensures forall f :: 0 <= f < info.NumFiles() ==>
                (info.Path(f) in files <==> forall p :: 0 <= p < pieces.Length && info.Affects(f, p) ==> pieces[..][p])
      ensures completedFiles == if info.Single() then old(completedFiles) else Elems(files)
    {
      ScanIsDoneSet(info, pieces[..], info.NumFiles());
      forall f | 0 <= f < info.NumFiles()
        ensures info.Path(f) in FreshScan(info, pieces[..], info.NumFiles()) <==> FileDone(info, pieces[..], f)
      {
        PathInDoneSet(info, pieces[..], f);
        assert info.Path(f) in Elems(FreshScan(info, pieces[..], info.NumFiles())) <==> info.Path(f) in DoneSet(info, pieces[..]);
      }
      if info.Single() {
        files := ScanSingle();
      } else {
        files := ScanMulti();
        ScanKeepsMemo(info, pieces[..], old(completedFiles));
      }
    }

    method ScanSingle() returns (files: seq<string>)
      requires Valid() && info.Single()
      ensures files == FreshScan(info, pieces[..], info.NumFiles())
    {
      CountTrueFull(pieces[..]);
      files := [];
      var done := true;
      if !completed {
        done := ScanRange(0, pieces.Length);
      }
      if done {
        files := [info.name];
      }
      assert done == FileDone(info, pieces[..], 0);
      assert FreshScan(info, pieces[..], 0) == [];
    }

    method ScanMulti() returns (files: seq<string>)
      requires Valid() && !info.Single()
      modifies this`completedFiles
      ensures files == FreshScan(info, pieces[..], info.NumFiles())
      ensures completedFiles == old(completedFiles) + DoneSet(info, pieces[..])
    {
      ghost var bits := pieces[..];
      CountTrueFull(bits);
      files := [];
      var offset := 0;
      for f := 0 to |info.files|
        invariant offset == info.Start(f)
        invariant files == FreshScan(info, bits, f)
        invariant completedFiles == old(completedFiles) + Elems(files)
        invariant completedFiles <= DoneSet(info, bits)
      {
        var path := info.Path(f);
        var done := true;
        var startPiece := info.PieceAt(offset);
        var endPiece := info.PieceAt(offset + info.files[f].length);
        assert startPiece == info.FirstPiece(f) && endPiece == info.LastPiece(f);
        offset := offset + info.files[f].length;
        ShortcutsAgree(info, bits, completedFiles, f);
        FreshScanStep(info, bits, f);
        if !completed && path !in completedFiles {
          done := ScanRange(startPiece, endPiece);
        }
        if done {
          ElemsSnoc(files, path);
          files := files + [path];
          completedFiles := completedFiles + {path};
        }
      }
      ScanIsDoneSet(info, bits, |info.files|);
    }

    /** The inner loop of the scan: the range may overshoot the vector by one piece. */
    method ScanRange(startPiece: nat, endPiece: nat) returns (done: bool)
      ensures done <==> forall p :: 0 <= p < pieces.Length && startPiece <= p <= endPiece ==> pieces[..][p]
    {
      done := true;
      var i := startPiece;
      while i <= endPiece
        invariant startPiece <= i
        invariant forall p :: startPiece <= p < i && p < pieces.Length ==> pieces[p]
      {
        if i >= pieces.Length {
          break;
        }
        if !pieces[i] {
          assert !pieces[..][i];
          done := false;
          break;
        }
        i := i + 1;
      }
    }
  }

  /** The file called `a` comes before the one called `b`. */
  ghost predicate FileBefore(info: Info, a: string, b: string) {
    exists f, g :: 0 <= f < g < info.NumFiles() && info.Path(f) == a && info.Path(g) == b
  }

  /** `q` lists paths in file order. */
  ghost predicate InFileOrder(info: Info, q: seq<string>) {
    forall j, k :: 0 <= j < k < |q| ==> FileBefore(info, q[j], q[k])
  }

  /** `q` lists paths of the first `n` files. */
  ghost predicate AmongFirst(info: Info, q: seq<string>, n: nat)
    requires n <= info.NumFiles()
  {
    forall path :: path in q ==> exists g :: 0 <= g < n && info.Path(g) == path
  }

  lemma AmongMore(info: Info, q: seq<string>, n: nat)
    requires n < info.NumFiles() && AmongFirst(info, q, n)
    ensures AmongFirst(info, q, n + 1)
  {
    forall path | path in q
      ensures exists g :: 0 <= g < n + 1 && info.Path(g) == path
    {
      var g :| 0 <= g < n && info.Path(g) == path;
      assert 0 <= g < n + 1 && info.Path(g) == path;
    }
  }

  lemma NextInFileOrder(info: Info, q: seq<string>, f: nat)
    requires f < info.NumFiles() && InFileOrder(info, q) && AmongFirst(info, q, f)
    ensures InFileOrder(info, q + [info.Path(f)]) && AmongFirst(info, q + [info.Path(f)], f + 1)
  {
    var r := q + [info.Path(f)];
    forall j, k | 0 <= j < k < |r|
      ensures FileBefore(info, r[j], r[k])
    {
      if k == |q| {
        assert q[j] in q;
        var g :| 0 <= g < f && info.Path(g) == q[j];
      } else {
        assert FileBefore(info, q[j], q[k]);
      }
    }
    forall path | path in r
      ensures exists g :: 0 <= g < f + 1 && info.Path(g) == path
    {
      if path in q {
        var g :| 0 <= g < f && info.Path(g) == path;
        assert 0 <= g < f + 1 && info.Path(g) == path;
      } else {
        assert info.Path(f) == path;
      }
    }
  }

  lemma {:induction false} FreshScanInOrder(info: Info, bits: seq<bool>, n: nat)
    requires info.pieceLength > 0 && n <= info.NumFiles()
    ensures InFileOrder(info, FreshScan(info, bits, n))
    ensures AmongFirst(info, FreshScan(info, bits, n), n)
  {
    if n > 0 {
      FreshScanInOrder(info, bits, n - 1);
      var q := FreshScan(info, bits, n - 1);
      if FileDone(info, bits, n - 1) {
        NextInFileOrder(info, q, n - 1);
      } else {
        AmongMore(info, q, n - 1);
      }
    }
  }

  lemma {:induction false} FreshScanLength(info: Info, bits: seq<bool>, n: nat)
    requires info.pieceLength > 0 && n <= info.NumFiles()
    ensures |FreshScan(info, bits, n)| <= n
  {
    if n > 0 {
      FreshScanLength(info, bits, n - 1);
    }
  }

  lemma FreshScanStep(info: Info, bits: seq<bool>, f: nat)
    requires info.pieceLength > 0 && f < info.NumFiles()
    ensures FreshScan(info, bits, f + 1) ==
            if FileDone(info, bits, f) then FreshScan(info, bits, f) + [info.Path(f)] else FreshScan(info, bits, f)
  {
  }

  /** The memo and the whole-torrent flag answer as looking at the file's range of pieces would. */
  lemma ShortcutsAgree(info: Info, bits: seq<bool>, memo: set<string>, f: nat)
    requires info.WellFormed() && !info.Single() && f < info.NumFiles() && memo <= DoneSet(info, bits)
    ensures info.Path(f) in memo ==> FileDone(info, bits, f)
    ensures CountTrue(bits) == |bits| ==> FileDone(info, bits, f)
    ensures FileDone(info, bits, f) <==>
            forall p :: 0 <= p < |bits| && info.FirstPiece(f) <= p <= info.LastPiece(f) ==> bits[p]
  {
    PathInDoneSet(info, bits, f);
    CountTrueFull(bits);
  }

  /** The paths a piece affects among the first `n` files, in file order. */
  function AffectedList(info: Info, n: nat, p: int): seq<string>
    requires info.pieceLength > 0 && n <= info.NumFiles()
  {
    if n == 0 then []
    else if info.Affects(n - 1, p) then AffectedList(info, n - 1, p) + [info.Path(n - 1)]
    else AffectedList(info, n - 1, p)
  }

  lemma {:induction false} AffectedListInOrder(info: Info, n: nat, p: int)
    requires info.pieceLength > 0 && n <= info.NumFiles()
    ensures InFileOrder(info, AffectedList(info, n, p))
    ensures AmongFirst(info, AffectedList(info, n, p), n)
  {
    if n > 0 {
      AffectedListInOrder(info, n - 1, p);
      var q := AffectedList(info, n - 1, p);
      if info.Affects(n - 1, p) {
        NextInFileOrder(info, q, n - 1);
      } else {
        AmongMore(info, q, n - 1);
      }
    }
  }

  lemma {:induction false} AffectedListElems(info: Info, n: nat, p: int)
    requires info.pieceLength > 0 && n <= info.NumFiles()
    ensures Elems(AffectedList(info, n, p)) == AffectedUpTo(info, n, p)
  {
    ElemsEmpty<string>();
    if n > 0 {
      AffectedListElems(info, n - 1, p);
      AffectedStep(info, n - 1, p);
      if info.Affects(n - 1, p) {
        ElemsSnoc(AffectedList(info, n - 1, p), info.Path(n - 1));
      }
    }
  }

  ghost function AffectedUpTo(info: Info, n: nat, p: int): set<string>
    requires info.pieceLength > 0 && n <= info.NumFiles()
  {
    set f | 0 <= f < n && info.Affects(f, p) :: info.Path(f)
  }

  lemma AffectedStep(info: Info, f: nat, p: int)
    requires info.pieceLength > 0 && f < info.NumFiles()
    ensures AffectedUpTo(info, f + 1, p) ==
            AffectedUpTo(info, f, p) + if info.Affects(f, p) then {info.Path(f)} else {}
  {
  }

  lemma AffectedBounds(info: Info, p: int)
    requires info.pieceLength > 0
    ensures AffectedUpTo(info, 0, p) == {}
    ensures AffectedUpTo(info, info.NumFiles(), p) == AffectedPaths(info, p)
  {
  }
}
