/** Zeroing a stretch of one file in chunks, and what that means for the span of all files. */
module HolePunch {
  import opened Geometry
  import opened Regions

  const CHUNK: nat := 32 * 1024

  function Zeroed(s: seq<byte>, lo: nat, hi: nat): (r: seq<byte>)
    requires lo <= hi <= |s|
    ensures |r| == |s|
    ensures forall x :: 0 <= x < |s| ==> r[x] == if lo <= x < hi then 0 else s[x]
  {
    s[..lo] + seq(hi - lo, _ => 0) + s[hi..]
  }

  lemma ZeroedJoin(s: seq<byte>, lo: nat, mid: nat, hi: nat)
    requires lo <= mid <= hi <= |s|
    ensures Zeroed(Zeroed(s, lo, mid), mid, hi) == Zeroed(s, lo, hi)
  {
  }

  /** The chunked loop zeroes the stretch, all of it and nothing else. */
  method PunchHole(f: array<byte>, offset: nat, length: nat)
    requires offset + length <= f.Length
    modifies f
    ensures f[..] == Zeroed(old(f[..]), offset, offset + length)
  {
    var off, len := offset, length;
    while len > 0
      invariant offset <= off && off + len == offset + length
      invariant f[..] == Zeroed(old(f[..]), offset, off)
    {
      var n := CHUNK;
      if n > len {
        n := len;
      }
      forall x | off <= x < off + n {
        f[x] := 0;
      }
      off := off + n;
      len := len - n;
    }
  }

  // ---- files laid end to end ----

  ghost predicate Fits(contents: seq<seq<byte>>, lens: seq<nat>) {
    |contents| == |lens| && forall f :: 0 <= f < |lens| ==> |contents[f]| == lens[f]
  }

  function Flat(contents: seq<seq<byte>>, n: nat): seq<byte>
    requires n <= |contents|
  {
    if n == 0 then [] else Flat(contents, n - 1) + contents[n - 1]
  }

  lemma {:induction false} FlatLength(contents: seq<seq<byte>>, lens: seq<nat>, n: nat)
    requires Fits(contents, lens) && n <= |lens|
    ensures |Flat(contents, n)| == FileStart(lens, n)
  {
    if n > 0 {
      FlatLength(contents, lens, n - 1);
    }
  }

  /** Byte `x` of file `f` is byte `start of f + x` of the span. */
  lemma {:induction false} FlatAt(contents: seq<seq<byte>>, lens: seq<nat>, n: nat, f: nat, x: nat)
    requires Fits(contents, lens) && f < n <= |lens| && x < lens[f]
    ensures FileStart(lens, f) + x < |Flat(contents, n)|
    ensures Flat(contents, n)[FileStart(lens, f) + x] == contents[f][x]
  {
    FlatLength(contents, lens, n - 1);
    if f < n - 1 {
      FlatAt(contents, lens, n - 1, f, x);
    }
  }

  /** Zeroing inside one file is zeroing the corresponding stretch of the span. */
  lemma {:induction false} ZeroInFile(contents: seq<seq<byte>>, lens: seq<nat>, n: nat, r: FileRegion)
    requires Fits(contents, lens) && r.Inside(lens) && r.fileIndex < n <= |lens|
    ensures var after := contents[r.fileIndex := Zeroed(contents[r.fileIndex], r.offset, r.offset + r.length)];
            && r.SpanEnd(lens) <= |Flat(contents, n)|
            && Flat(after, n) == Zeroed(Flat(contents, n), r.SpanStart(lens), r.SpanEnd(lens))
  {
    var f := r.fileIndex;
    var after := contents[f := Zeroed(contents[f], r.offset, r.offset + r.length)];
    FlatLength(contents, lens, n - 1);
    if f < n - 1 {
      ZeroInFile(contents, lens, n - 1, r);
      ZeroedLeft(Flat(contents, n - 1), contents[n - 1], r.SpanStart(lens), r.SpanEnd(lens));
    } else {
      FlatFrame(contents, after, n - 1);
      ZeroedRight(Flat(contents, n - 1), contents[n - 1], r.offset, r.offset + r.length);
    }
  }

  lemma ZeroedLeft(a: seq<byte>, b: seq<byte>, lo: nat, hi: nat)
    requires lo <= hi <= |a|
    ensures Zeroed(a + b, lo, hi) == Zeroed(a, lo, hi) + b
  {
  }

  lemma ZeroedRight(a: seq<byte>, b: seq<byte>, lo: nat, hi: nat)
    requires lo <= hi <= |b|
    ensures Zeroed(a + b, |a| + lo, |a| + hi) == a + Zeroed(b, lo, hi)
  {
  }

  lemma {:induction false} FlatFrame(a: seq<seq<byte>>, b: seq<seq<byte>>, n: nat)
    requires n <= |a| && n <= |b| && a[..n] == b[..n]
    ensures Flat(a, n) == Flat(b, n)
  {
    if n > 0 {
      assert a[..n - 1] == a[..n][..n - 1] && b[..n - 1] == b[..n][..n - 1];
      assert a[n - 1] == a[..n][n - 1] && b[n - 1] == b[..n][n - 1];
      FlatFrame(a, b, n - 1);
    }
  }

  ghost function Contents(files: seq<array<byte>>): (r: seq<seq<byte>>)
    reads files
    ensures |r| == |files|
    ensures forall f :: 0 <= f < |files| ==> r[f] == files[f][..]
  {
    seq(|files|, f requires 0 <= f < |files| reads files => files[f][..])
  }

  /** The concatenation of all files. */
  ghost function Span(files: seq<array<byte>>): seq<byte>
    reads files
  {
    Flat(Contents(files), |files|)
  }

  /** The files of a torrent: one per entry of `lens`, of that length, no two the same. */
  ghost predicate FilesFit(files: seq<array<byte>>, lens: seq<nat>) {
    && |files| == |lens|
    && (forall f :: 0 <= f < |lens| ==> files[f].Length == lens[f])
    && (forall f, g :: 0 <= f < g < |files| ==> files[f] != files[g])
  }

  lemma SpanLength(files: seq<array<byte>>, lens: seq<nat>)
    requires FilesFit(files, lens)
    ensures |Span(files)| == FileStart(lens, |lens|)
  {
    FlatLength(Contents(files), lens, |lens|);
  }

  /** Punching one region zeroes one stretch of the span. */
  method PunchRegion(files: seq<array<byte>>, ghost lens: seq<nat>, r: FileRegion)
    requires FilesFit(files, lens) && r.Inside(lens)
    modifies files[r.fileIndex]
    ensures r.SpanEnd(lens) <= |old(Span(files))|
    ensures Span(files) == Zeroed(old(Span(files)), r.SpanStart(lens), r.SpanEnd(lens))
  {
    ghost var before := Contents(files);
    PunchHole(files[r.fileIndex], r.offset, r.length);
    assert Contents(files) == before[r.fileIndex := Zeroed(before[r.fileIndex], r.offset, r.offset + r.length)];
    ZeroInFile(before, lens, |files|, r);
  }

  /** Region by region and chunk by chunk over separate files, punching the regions of a range
      is one flat operation: in the span, the range becomes zero and nothing else changes. */
  method PunchRegions(files: seq<array<byte>>, ghost lens: seq<nat>, regions: seq<FileRegion>, ghost lo: nat, ghost hi: nat)
    requires FilesFit(files, lens) && Tiles(lens, regions, lo, hi) && lo <= hi <= FileStart(lens, |lens|)
    modifies files
    ensures hi <= |old(Span(files))|
    ensures Span(files) == Zeroed(old(Span(files)), lo, hi)
  {
    SpanLength(files, lens);
    ghost var at := lo;
    for k := 0 to |regions|
      invariant at == if k < |regions| then regions[k].SpanStart(lens) else hi
      invariant lo <= at <= hi
      invariant Span(files) == Zeroed(old(Span(files)), lo, at)
    {
      ghost var next := if k + 1 < |regions| then regions[k + 1].SpanStart(lens) else hi;
      assert regions[k].SpanEnd(lens) == next;
      TilesBounds(lens, regions, lo, hi, k);
      PunchRegion(files, lens, regions[k]);
      ZeroedJoin(old(Span(files)), lo, at, next);
      at := next;
    }
  }

  function Slice(s: seq<byte>, lo: nat, hi: nat): seq<byte>
    requires lo <= hi
  {
    s[Min(lo, |s|)..Min(hi, |s|)]
  }

  lemma SliceAppend(a: seq<byte>, b: seq<byte>, lo: nat, hi: nat)
    requires lo <= hi
    ensures hi <= |a| || |a| + |b| <= lo ==> Slice(a + b, lo, hi) == Slice(a, lo, hi)
    ensures |a| < hi && lo < |a| + |b| ==>
              Slice(a + b, lo, hi) == Slice(a, lo, hi) + b[Max(lo, |a|) - |a|..Min(hi, |a| + |b|) - |a|]
  {
    if |a| < hi && lo < |a| + |b| {
      var from, to := Max(lo, |a|), Min(hi, |a| + |b|);
      assert (a + b)[from..to] == b[from - |a|..to - |a|];
      if lo <= |a| {
        assert (a + b)[lo..to] == a[lo..] + b[..to - |a|];
      }
    }
  }

  /** Reading a range across files, file by file. */
  method ReadSpan(files: seq<array<byte>>, lens: seq<nat>, lo: nat, hi: nat) returns (data: seq<byte>)
    requires FilesFit(files, lens) && lo <= hi <= FileStart(lens, |lens|)
    ensures hi <= |Span(files)| && data == Span(files)[lo..hi]
  {
    ghost var contents := Contents(files);
    SpanLength(files, lens);
    data := [];
    var fileOff := 0;
    for i := 0 to |files|
      invariant fileOff == |Flat(contents, i)| == FileStart(lens, i)
      invariant data == Slice(Flat(contents, i), lo, hi)
    {
      var fEnd := fileOff + files[i].Length;
      SliceAppend(Flat(contents, i), contents[i], lo, hi);
      assert Flat(contents, i + 1) == Flat(contents, i) + contents[i];
      if hi > fileOff && lo < fEnd {
        data := data + files[i][Max(lo, fileOff) - fileOff..Min(hi, fEnd) - fileOff];
      }
      fileOff := fEnd;
    }
  }
}
