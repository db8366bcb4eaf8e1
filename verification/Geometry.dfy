/** The layout of a torrent: files concatenated into one span of bytes, and the span cut
    into pieces of a fixed length.  Two independent ways of relating pieces and files live
    side by side in the program, and this module defines both:
      - interval overlap in bytes, used when bytes are punched out;
      - a division-based inclusive range of piece numbers, used by the completion code.
 */
module Geometry {

  newtype byte = b: int | 0 <= b < 256

  datatype FileInfo = FileInfo(path: seq<string>, length: nat)

  /** The part of the info dictionary the cache reads.  As in BEP 3, a torrent without a
      `files` list is a single file called `name` of `length` bytes. */
  datatype Info = Info(name: string, pieceLength: nat, length: nat, files: seq<FileInfo>)
  {
    predicate Single() { files == [] }

    function NumFiles(): nat { if Single() then 1 else |files| }

    /** The length of file `f`, counting a single-file torrent as having file 0. */
    function FileLength(f: nat): nat
      requires f < NumFiles()
    {
      if Single() then length else files[f].length
    }

    function Lens(): (r: seq<nat>)
      ensures |r| == NumFiles()
    {
      seq(NumFiles(), f requires 0 <= f < NumFiles() => FileLength(f))
    }

    function Path(f: nat): string
      requires f < NumFiles()
    {
      if Single() then name else name + "/" + Join(files[f].path)
    }

    function Start(f: nat): nat
      requires f <= NumFiles()
    {
      FileStart(Lens(), f)
    }

    function Total(): nat { Start(NumFiles()) }

    /** BEP 3: as many pieces as are needed to cover the content. */
    function NumPieces(): nat
      requires pieceLength > 0
    {
      (Total() + pieceLength - 1) / pieceLength
    }

    function PieceStart(p: nat): nat { p * pieceLength }

    function PieceLen(p: nat): int
      requires pieceLength > 0
    {
      if p == NumPieces() - 1 then Total() - p * pieceLength else pieceLength
    }

    function PieceEnd(p: nat): int
      requires pieceLength > 0
    {
      PieceStart(p) + PieceLen(p)
    }

    /** What the cache relies on and the format guarantees: a positive piece length and
        files with distinct joined paths. */
    ghost predicate WellFormed() {
      && pieceLength > 0
      && forall f, g :: 0 <= f < g < NumFiles() ==> Path(f) != Path(g)
    }

    // ---- relation 1: bytes in common ----

    predicate InFile(f: nat, x: nat)
      requires f < NumFiles()
    {
      Start(f) <= x < Start(f) + FileLength(f)
    }

    predicate InPiece(p: nat, x: nat)
      requires pieceLength > 0
    {
      PieceStart(p) <= x < PieceEnd(p)
    }

    /** Piece `p` and file `f` have at least one byte in common. */
    ghost predicate ShareBytes(f: nat, p: nat)
      requires pieceLength > 0 && f < NumFiles()
    {
      exists x: nat :: InFile(f, x) && InPiece(p, x)
    }

    // ---- relation 2: the division-based range of piece numbers ----

    function PieceAt(offset: nat): nat
      requires pieceLength > 0
    {
      offset / pieceLength
    }

    function FirstPiece(f: nat): nat
      requires pieceLength > 0 && f < NumFiles()
    {
      PieceAt(Start(f))
    }

    /** Inclusive, and one past the real last piece when the file ends on a piece boundary. */
    function LastPiece(f: nat): nat
      requires pieceLength > 0 && f < NumFiles()
    {
      PieceAt(Start(f) + FileLength(f))
    }

    /** Whether the completion code considers file `f` to depend on piece `p`. */
    predicate Affects(f: nat, p: int)
      requires pieceLength > 0 && f < NumFiles()
    {
      Single() || FirstPiece(f) <= p <= LastPiece(f)
    }

    ghost predicate ValidPiece(p: int)
      requires pieceLength > 0
    {
      0 <= p < NumPieces()
    }
  }

  /** Joining path components with slashes. */
  function Join(path: seq<string>): string {
    if path == [] then ""
    else if |path| == 1 then path[0]
    else path[0] + "/" + Join(path[1..])
  }

  /** Joining puts one slash between any two neighbours. */
  lemma {:induction false} JoinAppend(a: seq<string>, b: seq<string>)
    requires a != [] && b != []
    ensures Join(a + b) == Join(a) + "/" + Join(b)
    ensures |a| == 1 ==> Join(a) == a[0]
  {
    assert (a + b)[1..] == a[1..] + b;
    if |a| == 1 {
      assert a[1..] + b == b;
    } else {
      JoinAppend(a[1..], b);
      assert Join(a + b) == a[0] + "/" + Join(a[1..] + b);
    }
  }

  /** The offset at which file `f` starts when files are laid end to end. */
  function FileStart(lens: seq<nat>, f: nat): nat
    requires f <= |lens|
  {
    if f == 0 then 0 else FileStart(lens, f - 1) + lens[f - 1]
  }

  lemma {:induction false} FileStartMonotone(lens: seq<nat>, f: nat, g: nat)
    requires f <= g <= |lens|
    ensures FileStart(lens, f) <= FileStart(lens, g)
  {
    if f < g {
      FileStartMonotone(lens, f, g - 1);
    }
  }

  lemma StartNext(info: Info, f: nat)
    requires f < info.NumFiles()
    ensures info.Start(f + 1) == info.Start(f) + info.FileLength(f) <= info.Total()
  {
    FileStartMonotone(info.Lens(), f + 1, info.NumFiles());
  }

  /** Every offset in the span belongs to a file. */
  lemma {:induction false} LocateFile(lens: seq<nat>, n: nat, x: nat) returns (f: nat)
    requires n <= |lens| && x < FileStart(lens, n)
    ensures f < n && FileStart(lens, f) <= x < FileStart(lens, f) + lens[f]
  {
    if x >= FileStart(lens, n - 1) {
      f := n - 1;
    } else {
      f := LocateFile(lens, n - 1, x);
    }
  }

  // ---- arithmetic of division by the piece length ----

  lemma QuotientBounds(x: nat, d: nat)
    requires d > 0
    ensures x / d * d <= x < (x / d + 1) * d
  {
    assert x == x / d * d + x % d;
  }

  lemma MulMonotone(i: int, j: int, d: nat)
    requires i <= j
    ensures i * d <= j * d
  {
  }

  /** Comparing a quotient with a number is comparing products. */
  lemma QuotientAtLeast(x: nat, d: nat, p: nat)
    requires d > 0
    ensures p <= x / d <==> p * d <= x
    ensures x / d <= p <==> x < (p + 1) * d
  {
    QuotientBounds(x, d);
    if p <= x / d { MulMonotone(p, x / d, d); } else { MulMonotone(x / d + 1, p, d); }
    if x / d <= p { MulMonotone(x / d + 1, p + 1, d); } else { MulMonotone(p + 1, x / d, d); }
  }

  /** A piece number is valid exactly when the piece starts inside the content. */
  lemma ValidPieceIff(info: Info, p: nat)
    requires info.pieceLength > 0
    ensures p < info.NumPieces() <==> p * info.pieceLength < info.Total()
  {
    var d, t := info.pieceLength, info.Total();
    QuotientAtLeast(t + d - 1, d, p + 1);
    assert (p + 1) * d == p * d + d;
  }

  /** Where piece `p` ends: a full piece length further, cut off at the end of the content. */
  lemma PieceShape(info: Info, p: nat)
    requires info.pieceLength > 0 && p < info.NumPieces()
    ensures 0 < info.PieceLen(p) <= info.pieceLength
    ensures info.PieceEnd(p) <= info.Total()
    ensures info.PieceEnd(p) <= (p + 1) * info.pieceLength
    ensures info.PieceEnd(p) == info.Total() || info.PieceEnd(p) == (p + 1) * info.pieceLength
    ensures p + 1 < info.NumPieces() ==> info.PieceEnd(p) == info.PieceStart(p + 1)
    ensures p + 1 == info.NumPieces() ==> info.PieceEnd(p) == info.Total()
  {
    ValidPieceIff(info, p);
    ValidPieceIff(info, p + 1);
    assert (p + 1) * info.pieceLength == p * info.pieceLength + info.pieceLength;
  }

  /** Each byte of the content lies in exactly one piece, the one division names. */
  lemma PieceOfByte(info: Info, x: nat, p: nat)
    requires info.pieceLength > 0 && x < info.Total() && p < info.NumPieces()
    ensures x / info.pieceLength < info.NumPieces()
    ensures info.InPiece(p, x) <==> p == x / info.pieceLength
  {
    var d := info.pieceLength;
    QuotientBounds(x, d);
    ValidPieceIff(info, x / d);
    PieceShape(info, p);
    QuotientAtLeast(x, d, p);
  }

  /** The two relations agree soundly, and this is exactly how far the division-based one
      overshoots: it adds files that end where the piece starts, and empty files that sit
      inside the piece. */
  lemma AffectsExactly(info: Info, f: nat, p: nat)
    requires info.pieceLength > 0 && !info.Single() && f < info.NumFiles() && p < info.NumPieces()
    ensures info.Affects(f, p) <==>
              || info.ShareBytes(f, p)
              || info.Start(f) + info.FileLength(f) == info.PieceStart(p)
              || (info.FileLength(f) == 0 && info.PieceStart(p) <= info.Start(f) < (p + 1) * info.pieceLength)
  {
    var d, lo, hi := info.pieceLength, info.Start(f), info.Start(f) + info.FileLength(f);
    QuotientAtLeast(lo, d, p);
    QuotientAtLeast(hi, d, p);
    PieceShape(info, p);
    StartNext(info, f);
    assert (p + 1) * d == p * d + d;
    if info.Affects(f, p) && lo < hi && hi != info.PieceStart(p) {
      var x := if lo < info.PieceStart(p) then info.PieceStart(p) else lo;
      assert info.InFile(f, x) && info.InPiece(p, x);
    }
  }

  /** In particular, destroying a piece can only damage files the completion code knows about. */
  lemma SharedBytesAffect(info: Info, f: nat, p: nat)
    requires info.pieceLength > 0 && f < info.NumFiles() && p < info.NumPieces()
    requires info.ShareBytes(f, p)
    ensures info.Affects(f, p)
  {
    if !info.Single() {
      AffectsExactly(info, f, p);
    }
  }
}
