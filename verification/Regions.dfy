/** Which stretches of which files a range of the span covers. */
module Regions {
  import opened Geometry

  datatype FileRegion = FileRegion(fileIndex: nat, offset: nat, length: nat)
  {
    /** Where the region lies in the span. */
    function SpanStart(lens: seq<nat>): nat
      requires fileIndex <= |lens|
    {
      FileStart(lens, fileIndex) + offset
    }

    function SpanEnd(lens: seq<nat>): nat
      requires fileIndex <= |lens|
    {
      SpanStart(lens) + length
    }

    predicate Inside(lens: seq<nat>) {
      fileIndex < |lens| && offset + length <= lens[fileIndex]
    }

    predicate Contains(f: nat, x: nat) {
      fileIndex == f && offset <= x < offset + length
    }
  }

  function Max(a: int, b: int): int { if a < b then b else a }
  function Min(a: int, b: int): int { if a < b then a else b }

  predicate Meets(lens: seq<nat>, f: nat, lo: nat, hi: nat)
    requires f < |lens|
  {
    hi > FileStart(lens, f) && lo < FileStart(lens, f) + lens[f]
  }

  function RegionOf(lens: seq<nat>, f: nat, lo: nat, hi: nat): FileRegion
    requires f < |lens| && lo <= hi && Meets(lens, f, lo, hi)
  {
    var fileOff, fEnd := FileStart(lens, f), FileStart(lens, f) + lens[f];
    FileRegion(f, Max(lo, fileOff) - fileOff, Min(hi, fEnd) - Max(lo, fileOff))
  }

  /** The regions of `[lo, hi)` in the first `n` files. */
  function Regions(lens: seq<nat>, n: nat, lo: nat, hi: nat): seq<FileRegion>
    requires n <= |lens| && lo <= hi
  {
    if n == 0 then []
    else if Meets(lens, n - 1, lo, hi) then Regions(lens, n - 1, lo, hi) + [RegionOf(lens, n - 1, lo, hi)]
    else Regions(lens, n - 1, lo, hi)
  }

  function PieceRegions(info: Info, p: nat): seq<FileRegion>
    requires info.pieceLength > 0 && info.PieceLen(p) >= 0
  {
    Regions(info.Lens(), info.NumFiles(), info.PieceStart(p), info.PieceEnd(p))
  }

  function WithBytes(rs: seq<FileRegion>): seq<FileRegion> {
    if rs == [] then []
    else if rs[|rs| - 1].length > 0 then WithBytes(rs[..|rs| - 1]) + [rs[|rs| - 1]]
    else WithBytes(rs[..|rs| - 1])
  }

  /** The mapped part of `Regions`: a file of length 0 has no mapping. */
  ghost function Advised(lens: seq<nat>, n: nat, lo: nat, hi: nat): seq<FileRegion>
    requires n <= |lens| && lo <= hi
  {
    if n == 0 then []
    else if Meets(lens, n - 1, lo, hi) && lens[n - 1] > 0 then
      Advised(lens, n - 1, lo, hi) + [RegionOf(lens, n - 1, lo, hi)]
    else Advised(lens, n - 1, lo, hi)
  }

  // ---- the loops of the program ----

  method PieceFileRegions(info: Info, p: nat) returns (regions: seq<FileRegion>)
    requires info.pieceLength > 0 && p < info.NumPieces()
    ensures info.PieceLen(p) > 0 && regions == PieceRegions(info, p)
  {
    PieceShape(info, p);
    var lens := info.Lens();
    var pieceOff, pEnd := info.PieceStart(p), info.PieceEnd(p);
    regions := [];
    var fileOff := 0;
    for i := 0 to |lens|
      invariant fileOff == FileStart(lens, i)
      invariant regions == Regions(lens, i, pieceOff, pEnd)
    {
      var fEnd := fileOff + lens[i];
      if pEnd > fileOff && pieceOff < fEnd {
        var regStart := Max(pieceOff, fileOff) - fileOff;
        var regLen := Min(pEnd, fEnd) - Max(pieceOff, fileOff);
        regions := regions + [FileRegion(i, regStart, regLen)];
      }
      fileOff := fEnd;
    }
  }

  /** The ranges handed to `madvise`, with the early exit of the original loop.  A file of
      length 0 has no mapping, so it is never advised. */
  method MadviseSpanRange(lens: seq<nat>, spanOff: nat, length: nat) returns (advised: seq<FileRegion>)
    ensures advised == Advised(lens, |lens|, spanOff, spanOff + length)
  {
    var end := spanOff + length;
    advised := [];
    var fileOff := 0;
    var i := 0;
    while i < |lens|
      invariant 0 <= i <= |lens| && fileOff == FileStart(lens, i)
      invariant advised == Advised(lens, i, spanOff, end)
    {
      var fEnd := fileOff + lens[i];
      if end > fileOff && spanOff < fEnd {
        var regStart := Max(spanOff, fileOff) - fileOff;
        var regEnd := Min(end, fEnd) - fileOff;
        if lens[i] > 0 && regEnd <= lens[i] {
          advised := advised + [FileRegion(i, regStart, regEnd - regStart)];
        }
      }
      if fileOff >= end {
        NoneBeyond(lens, i + 1, |lens|, spanOff, end);
        return;
      }
      fileOff := fEnd;
      i := i + 1;
    }
  }

  lemma {:induction false} NoneBeyond(lens: seq<nat>, m: nat, n: nat, lo: nat, hi: nat)
    requires 0 < m <= n <= |lens| && lo <= hi <= FileStart(lens, m - 1)
    ensures Regions(lens, n, lo, hi) == Regions(lens, m, lo, hi)
    ensures Advised(lens, n, lo, hi) == Advised(lens, m, lo, hi)
  {
    if m < n {
      NoneBeyond(lens, m, n - 1, lo, hi);
      FileStartMonotone(lens, m - 1, n - 1);
    }
  }

  lemma WithBytesSnoc(rs: seq<FileRegion>, r: FileRegion)
    ensures WithBytes(rs + [r]) == if r.length > 0 then WithBytes(rs) + [r] else WithBytes(rs)
  {
    assert (rs + [r])[..|rs|] == rs;
  }

  /** A region is empty exactly when the file or the range is. */
  lemma RegionLength(lens: seq<nat>, f: nat, lo: nat, hi: nat)
    requires f < |lens| && lo <= hi && Meets(lens, f, lo, hi)
    ensures RegionOf(lens, f, lo, hi).length > 0 <==> lens[f] > 0 && lo < hi
  {
  }

  /** Skipping unmapped files, and stopping early, loses no byte of the range: what is advised
      is exactly the nonempty regions. */
  lemma {:induction false} AdvisedWithBytes(lens: seq<nat>, n: nat, lo: nat, hi: nat)
    requires n <= |lens| && lo <= hi
    ensures WithBytes(Advised(lens, n, lo, hi)) == WithBytes(Regions(lens, n, lo, hi))
    ensures lo < hi ==> Advised(lens, n, lo, hi) == WithBytes(Regions(lens, n, lo, hi))
  {
    if n > 0 {
      AdvisedWithBytes(lens, n - 1, lo, hi);
      if Meets(lens, n - 1, lo, hi) {
        var r := RegionOf(lens, n - 1, lo, hi);
        RegionLength(lens, n - 1, lo, hi);
        WithBytesSnoc(Regions(lens, n - 1, lo, hi), r);
        WithBytesSnoc(Advised(lens, n - 1, lo, hi), r);
      }
    }
  }

  // ---- the regions of a range tile it ----

  /** `rs` lists stretches, each inside its file and in file order, that abut one another
      and together run from `lo` to `hi` in the span. */
  ghost predicate Tiles(lens: seq<nat>, rs: seq<FileRegion>, lo: nat, hi: nat) {
    && (forall k :: 0 <= k < |rs| ==> rs[k].Inside(lens))
    && (forall k, m :: 0 <= k < m < |rs| ==> rs[k].fileIndex < rs[m].fileIndex)
    && (forall k :: 0 <= k < |rs| - 1 ==> rs[k].SpanEnd(lens) == rs[k + 1].SpanStart(lens))
    && if rs == [] then lo == hi
       else rs[0].SpanStart(lens) == lo && rs[|rs| - 1].SpanEnd(lens) == hi
  }

  lemma TilesSnoc(lens: seq<nat>, rs: seq<FileRegion>, r: FileRegion, lo: nat, mid: nat, hi: nat)
    requires Tiles(lens, rs, lo, mid) && r.Inside(lens)
    requires forall k :: 0 <= k < |rs| ==> rs[k].fileIndex < r.fileIndex
    requires r.SpanStart(lens) == mid && r.SpanEnd(lens) == hi
    ensures Tiles(lens, rs + [r], lo, hi)
  {
  }

  lemma {:induction false} RegionsTile(lens: seq<nat>, n: nat, lo: nat, hi: nat)
    requires n <= |lens| && lo < hi
    ensures forall k :: 0 <= k < |Regions(lens, n, lo, hi)| ==> Regions(lens, n, lo, hi)[k].fileIndex < n
    ensures FileStart(lens, n) <= lo ==> Regions(lens, n, lo, hi) == []
    ensures FileStart(lens, n) > lo ==> Tiles(lens, Regions(lens, n, lo, hi), lo, Min(hi, FileStart(lens, n)))
  {
    if n > 0 {
      RegionsTile(lens, n - 1, lo, hi);
      var rs := Regions(lens, n - 1, lo, hi);
      if Meets(lens, n - 1, lo, hi) {
        var r := RegionOf(lens, n - 1, lo, hi);
        assert Tiles(lens, rs, lo, r.SpanStart(lens));
        TilesSnoc(lens, rs, r, lo, r.SpanStart(lens), Min(hi, FileStart(lens, n)));
      }
    }
  }

  /** The regions of a piece concatenate to precisely its interval. */
  lemma PieceRegionsTile(info: Info, p: nat)
    requires info.pieceLength > 0 && p < info.NumPieces()
    ensures info.PieceLen(p) > 0
    ensures Tiles(info.Lens(), PieceRegions(info, p), info.PieceStart(p), info.PieceEnd(p))
  {
    PieceShape(info, p);
    RegionsTile(info.Lens(), info.NumFiles(), info.PieceStart(p), info.PieceEnd(p));
  }

  /** A region for every file that meets the range, found at position `k`. */
  lemma {:induction false} FindRegion(lens: seq<nat>, n: nat, lo: nat, hi: nat, f: nat) returns (k: nat)
    requires f < n <= |lens| && lo <= hi && Meets(lens, f, lo, hi)
    ensures k < |Regions(lens, n, lo, hi)| && Regions(lens, n, lo, hi)[k] == RegionOf(lens, f, lo, hi)
  {
    if f == n - 1 {
      k := |Regions(lens, n - 1, lo, hi)|;
    } else {
      k := FindRegion(lens, n - 1, lo, hi, f);
    }
  }

  /** No byte of any file is missed and none is covered twice: byte `x` of file `f` lies in
      exactly one region of exactly one piece. */
  lemma CoveredExactlyOnce(info: Info, f: nat, x: nat) returns (p: nat, k: nat)
    requires info.pieceLength > 0 && f < info.NumFiles() && x < info.FileLength(f)
    ensures p < info.NumPieces() && info.PieceLen(p) >= 0
    ensures k < |PieceRegions(info, p)| && PieceRegions(info, p)[k].Contains(f, x)
    ensures forall q: nat, m: nat | q < info.NumPieces() && info.PieceLen(q) >= 0 && m < |PieceRegions(info, q)| ::
              PieceRegions(info, q)[m].Contains(f, x) ==> q == p && m == k
  {
    var lens, y := info.Lens(), info.Start(f) + x;
    StartNext(info, f);
    p := y / info.pieceLength;
    QuotientBounds(y, info.pieceLength);
    ValidPieceIff(info, p);
    PieceShape(info, p);
    PieceOfByte(info, y, p);
    k := FindRegion(lens, info.NumFiles(), info.PieceStart(p), info.PieceEnd(p), f);
    PieceRegionsTile(info, p);
    forall q: nat, m: nat | q < info.NumPieces() && info.PieceLen(q) >= 0 && m < |PieceRegions(info, q)| &&
                            PieceRegions(info, q)[m].Contains(f, x)
      ensures q == p && m == k
    {
      PieceRegionsTile(info, q);
      TilesBounds(lens, PieceRegions(info, q), info.PieceStart(q), info.PieceEnd(q), m);
      PieceOfByte(info, y, q);
    }
  }

  /** Every tile lies within the range. */
  lemma {:induction false} TilesBounds(lens: seq<nat>, rs: seq<FileRegion>, lo: nat, hi: nat, k: nat)
    requires Tiles(lens, rs, lo, hi) && k < |rs|
    ensures lo <= rs[k].SpanStart(lens) && rs[k].SpanEnd(lens) <= hi
    decreases |rs|
  {
    if |rs| > 1 {
      var n := |rs| - 1;
      assert rs[n - 1].SpanEnd(lens) == rs[n].SpanStart(lens);
      if k < n {
        TilesBounds(lens, rs[..n], lo, rs[n].SpanStart(lens), k);
      } else {
        TilesBounds(lens, rs[..n], lo, rs[n].SpanStart(lens), n - 1);
      }
    }
  }
}
