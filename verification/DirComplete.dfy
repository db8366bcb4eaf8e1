/** Deciding that a directory, or the whole torrent, is complete by counting rows. */
module DirComplete {
  import opened Geometry
  import opened Collections
  import opened Completion
  import opened PieceCompletion
  import opened CacheModel
  import opened Runs

  // ---- the LIKE operator of SQLite, without an escape character ----

  /** LIKE ignores the case of ASCII letters. */
  function Lower(c: char): char {
    if 'A' <= c <= 'Z' then c - 'A' + 'a' else c
  }

  predicate Like(pattern: string, s: string)
    decreases |pattern| + |s|
  {
    if pattern == [] then s == []
    else if pattern[0] == '%' then Like(pattern[1..], s) || (s != [] && Like(pattern, s[1..]))
    else s != [] && (pattern[0] == '_' || Lower(pattern[0]) == Lower(s[0])) && Like(pattern[1..], s[1..])
  }

  predicate HasPrefix(s: string, prefix: string) {
    |s| >= |prefix| && s[..|prefix|] == prefix
  }

  /** The strings with a prefix are those that continue it. */
  lemma PrefixExactly(s: string, prefix: string)
    ensures HasPrefix(s, prefix) <==> exists t :: s == prefix + t
    ensures HasPrefix(prefix + s, prefix)
  {
    assert (prefix + s)[..|prefix|] == prefix;
    if HasPrefix(s, prefix) {
      assert s == prefix + s[|prefix|..];
    }
    if t :| s == prefix + t {
      assert s[..|prefix|] == prefix;
    }
  }

  /** Only ASCII letters have another case. */
  lemma LowerExactly(c: char, d: char)
    ensures Lower(c) == Lower(d) <==>
            || c == d
            || ('A' <= c <= 'Z' && d as int == c as int + 32)
            || ('A' <= d <= 'Z' && c as int == d as int + 32)
  {
  }

  predicate HasPrefixIgnoringCase(s: string, prefix: string) {
    |s| >= |prefix| && forall k :: 0 <= k < |prefix| ==> Lower(s[k]) == Lower(prefix[k])
  }

  predicate NoWildcards(s: string) {
    forall k :: 0 <= k < |s| ==> s[k] != '%' && s[k] != '_'
  }

  lemma {:induction false} LikeAnything(s: string)
    ensures Like("%", s)
  {
    if s == [] {
      assert "%"[1..] == "";
    } else {
      LikeAnything(s[1..]);
    }
  }

  /** A path under a directory always matches the directory's pattern, wildcards or not. */
  lemma {:induction false} PrefixMatches(s: string, prefix: string)
    requires HasPrefix(s, prefix)
    ensures Like(prefix + "%", s)
    decreases |prefix|
  {
    var pattern := prefix + "%";
    if prefix == [] {
      assert pattern == "%";
      LikeAnything(s);
    } else {
      assert s[0] == s[..|prefix|][0] && s[1..][..|prefix| - 1] == s[..|prefix|][1..];
      assert pattern[1..] == prefix[1..] + "%";
      PrefixMatches(s[1..], prefix[1..]);
      if prefix[0] == '%' {
        DropStep(pattern, s);
      }
    }
  }

  /** `%` may stand for one character. */
  lemma DropStep(pattern: string, s: string)
    requires pattern != [] && pattern[0] == '%' && s != [] && Like(pattern[1..], s[1..])
    ensures Like(pattern, s)
  {
    assert Like(pattern, s[1..]);
  }

  /** Without wildcards the pattern matches exactly the paths with the prefix, up to case. */
  lemma LikeIsPrefix(s: string, prefix: string)
    requires NoWildcards(prefix)
    ensures Like(prefix + "%", s) <==> HasPrefixIgnoringCase(s, prefix)
  {
    LikeMatches(s, prefix);
  }

  /** An underscore in the prefix stands for any one character. */
  lemma {:induction false} LikeMatches(s: string, prefix: string)
    requires forall k :: 0 <= k < |prefix| ==> prefix[k] != '%'
    ensures Like(prefix + "%", s) <==>
            |s| >= |prefix| && forall k :: 0 <= k < |prefix| ==> prefix[k] == '_' || Lower(s[k]) == Lower(prefix[k])
    decreases |prefix|
  {
    var pattern := prefix + "%";
    if prefix == [] {
      assert pattern == "%";
      LikeAnything(s);
    } else if s != [] {
      assert pattern[1..] == prefix[1..] + "%";
      LikeMatches(s[1..], prefix[1..]);
      assert forall k :: 0 < k < |prefix| ==> prefix[k] == prefix[1..][k - 1];
      assert forall k :: 0 < k < |s| ==> s[k] == s[1..][k - 1];
      assert forall k :: 0 <= k < |prefix| - 1 ==> prefix[1..][k] == prefix[k + 1];
      assert forall k :: 0 <= k < |s| - 1 ==> s[1..][k] == s[k + 1];
    }
  }

  // ---- the program ----

  /** What the directory's database turns out to be: out of reach, missing, impossible to open, without
      the table, failing the query, or answering it. */
  datatype Database = NoDir | NoFile | Unopenable | NoTable | QueryFails | Rows(rows: set<string>)

  function CountLike(rows: set<string>, pattern: string): nat {
    |set r | r in rows && Like(pattern, r)|
  }

  lemma CountLikeExactly(rows: set<string>, dirPath: string)
    ensures CountLike(rows, dirPath + "/%") == |set r | r in rows && Like(dirPath + "/%", r)|
  {
    var pattern := dirPath + "/%";
    var matching := set r | r in rows && Like(pattern, r);
    assert matching == set r | r in rows && Like(dirPath + "/%", r);
  }

  /** A missing file or table means that nothing is complete yet; anything else that goes wrong is an
      error. */
  method IsDirComplete(db: Database, dirPath: string, expectedFiles: int) returns (complete: bool, err: Status)
    ensures err == Error <==> expectedFiles > 0 && (db.NoDir? || db.Unopenable? || db.QueryFails?)
    ensures complete == Answer(db, dirPath, expectedFiles)
    ensures complete ==> db.Rows? && expectedFiles > 0
    ensures db.Rows? && expectedFiles > 0 ==>
              (complete <==> expectedFiles <= if dirPath == "" then |db.rows|
                                              else |set r | r in db.rows && Like(dirPath + "/%", r)|)
    ensures forall info: Info :: IsRoot(info, db, dirPath, expectedFiles) ==> (complete <==> AllPaths(info) <= db.rows)
    ensures forall info: Info :: IsPlainDir(info, db, dirPath, expectedFiles) ==>
              (complete <==> DirIsComplete(info, dirPath, db.rows))
  {
    complete, err := false, Ok;
    if expectedFiles <= 0 {
      NothingExpected(db, dirPath, expectedFiles);
      return;
    }
    if db.NoDir? {
      return false, Error;
    }
    if db.NoFile? {
      return;
    }
    if db.Unopenable? {
      return false, Error;
    }
    if !db.Rows? {
      return false, if db.NoTable? then Ok else Error;
    }
    var completedCount := 0;
    if dirPath == "" {
      completedCount := |db.rows|;
    } else {
      completedCount := CountLike(db.rows, dirPath + "/%");
    }
    complete := completedCount >= expectedFiles;
    CountLikeExactly(db.rows, dirPath);
    CountMeans(db, dirPath, expectedFiles);
  }

  function Answer(db: Database, dirPath: string, expectedFiles: int): bool {
    && expectedFiles > 0 && db.Rows?
    && (if dirPath == "" then |db.rows| else CountLike(db.rows, dirPath + "/%")) >= expectedFiles
  }

  /** The question is about the whole torrent, and the rows and the number expected are the torrent's. */
  ghost predicate IsRoot(info: Info, db: Database, dirPath: string, expectedFiles: int) {
    && dirPath == "" && info.WellFormed() && expectedFiles == info.NumFiles()
    && db.Rows? && db.rows <= AllPaths(info)
  }

  /** The question is about a directory whose pattern matches no path outside it. */
  ghost predicate IsPlainDir(info: Info, db: Database, dirPath: string, expectedFiles: int) {
    && dirPath != "" && info.WellFormed() && !info.Single() && expectedFiles == |Under(info, dirPath)|
    && db.Rows? && db.rows <= AllPaths(info) && Matched(info, dirPath) == Under(info, dirPath)
  }

  lemma NothingExpected(db: Database, dirPath: string, expectedFiles: int)
    requires expectedFiles <= 0
    ensures forall info: Info :: !IsRoot(info, db, dirPath, expectedFiles)
    ensures forall info: Info :: IsPlainDir(info, db, dirPath, expectedFiles) ==> !DirIsComplete(info, dirPath, db.rows)
  {
    forall info: Info
      ensures info.NumFiles() > 0
    {
      if !info.Single() {
        assert |info.files| > 0;
      }
    }
    forall info: Info | IsPlainDir(info, db, dirPath, expectedFiles)
      ensures Under(info, dirPath) == {}
    {
    }
  }

  /** What the answer means. */
  lemma CountMeans(db: Database, dirPath: string, expectedFiles: int)
    requires expectedFiles > 0 && db.Rows?
    ensures forall info: Info :: IsRoot(info, db, dirPath, expectedFiles) ==>
              (Answer(db, dirPath, expectedFiles) <==> AllPaths(info) <= db.rows)
    ensures forall info: Info :: IsPlainDir(info, db, dirPath, expectedFiles) ==>
              (Answer(db, dirPath, expectedFiles) <==> DirIsComplete(info, dirPath, db.rows))
  {
    forall info: Info | IsRoot(info, db, dirPath, expectedFiles)
      ensures Answer(db, dirPath, expectedFiles) <==> AllPaths(info) <= db.rows
    {
      RootCountDecides(info, db.rows);
    }
    forall info: Info | IsPlainDir(info, db, dirPath, expectedFiles)
      ensures Answer(db, dirPath, expectedFiles) <==> DirIsComplete(info, dirPath, db.rows)
    {
      CountRightWhenExact(info, dirPath, db.rows);
      assert CountIsRight(info, dirPath, db.rows);
    }
  }

  /** What looking up a torrent's info dictionary yields. */
  datatype Lookup = Failed | Unknown | Found(info: Info)

  /** The number of paths a complete torrent has rows for. */
  method TotalFiles(lookup: Lookup) returns (count: nat, err: Status)
    ensures err == if lookup.Failed? then Error else Ok
    ensures !lookup.Found? ==> count == 0
    ensures lookup.Found? ==> count == lookup.info.NumFiles() > 0
    ensures lookup.Found? && lookup.info.WellFormed() ==> count == |AllPaths(lookup.info)|
  {
    if lookup.Failed? {
      return 0, Error;
    }
    if lookup.Unknown? {
      return 0, Ok;
    }
    if lookup.info.WellFormed() {
      PathsCount(lookup.info, lookup.info.NumFiles());
    }
    if lookup.info.Single() {
      return 1, Ok;
    }
    return |lookup.info.files|, Ok;
  }

  /** Files of a multi-file torrent below a directory, and their paths. */
  ghost function FilesUnder(info: Info, dirPath: string, n: nat): set<nat>
    requires n <= |info.files|
  {
    set f: nat | 0 <= f < n && HasPrefix(info.Path(f), dirPath + "/")
  }

  ghost function PathsUnder(info: Info, dirPath: string, n: nat): set<string>
    requires n <= |info.files|
  {
    set f | 0 <= f < n && HasPrefix(info.Path(f), dirPath + "/") :: info.Path(f)
  }

  /** A single-file torrent has no directories, so nothing is below one. */
  method DirFileCount(lookup: Lookup, dirPath: string) returns (count: nat, err: Status)
    ensures err == if lookup.Failed? then Error else Ok
    ensures !lookup.Found? || lookup.info.Single() ==> count == 0
    ensures lookup.Found? ==> count == |FilesUnder(lookup.info, dirPath, |lookup.info.files|)|
    ensures lookup.Found? && !lookup.info.Single() && lookup.info.WellFormed() ==> count == |Under(lookup.info, dirPath)|
  {
    if lookup.Failed? {
      return 0, Error;
    }
    if lookup.Unknown? {
      return 0, Ok;
    }
    count, err := 0, Ok;
    NoneUnder(lookup.info, dirPath);
    var files := lookup.info.files;
    for f := 0 to |files|
      invariant count == |FilesUnder(lookup.info, dirPath, f)|
    {
      var path := lookup.info.name + "/" + Join(files[f].path);
      FilesUnderCount(lookup.info, dirPath, f);
      if HasPrefix(path, dirPath + "/") {
        count := count + 1;
      }
    }
    if lookup.info.WellFormed() {
      PathsPerFile(lookup.info, dirPath, |files|);
    }
  }

  lemma FilesUnderStep(info: Info, dirPath: string, f: nat)
    requires f < |info.files|
    ensures FilesUnder(info, dirPath, f + 1) ==
            if HasPrefix(info.Path(f), dirPath + "/") then FilesUnder(info, dirPath, f) + {f} else FilesUnder(info, dirPath, f)
    ensures f !in FilesUnder(info, dirPath, f)
  {
  }

  lemma PathsUnderStep(info: Info, dirPath: string, f: nat)
    requires info.WellFormed() && f < |info.files|
    ensures PathsUnder(info, dirPath, f + 1) ==
            if HasPrefix(info.Path(f), dirPath + "/") then PathsUnder(info, dirPath, f) + {info.Path(f)}
            else PathsUnder(info, dirPath, f)
    ensures info.Path(f) !in PathsUnder(info, dirPath, f)
  {
  }

  lemma OneMore<T>(s: set<T>, s': set<T>, x: T, more: bool)
    requires x !in s && s' == if more then s + {x} else s
    ensures |s'| == |s| + if more then 1 else 0
  {
  }

  lemma FilesUnderCount(info: Info, dirPath: string, f: nat)
    requires f < |info.files|
    ensures |FilesUnder(info, dirPath, f + 1)| ==
            |FilesUnder(info, dirPath, f)| + if HasPrefix(info.Path(f), dirPath + "/") then 1 else 0
  {
    FilesUnderStep(info, dirPath, f);
    OneMore(FilesUnder(info, dirPath, f), FilesUnder(info, dirPath, f + 1), f, HasPrefix(info.Path(f), dirPath + "/"));
  }

  lemma PathsUnderCount(info: Info, dirPath: string, f: nat)
    requires info.WellFormed() && f < |info.files|
    ensures |PathsUnder(info, dirPath, f + 1)| ==
            |PathsUnder(info, dirPath, f)| + if HasPrefix(info.Path(f), dirPath + "/") then 1 else 0
  {
    PathsUnderStep(info, dirPath, f);
    OneMore(PathsUnder(info, dirPath, f), PathsUnder(info, dirPath, f + 1), info.Path(f), HasPrefix(info.Path(f), dirPath + "/"));
  }

  lemma NoneUnder(info: Info, dirPath: string)
    ensures |PathsUnder(info, dirPath, 0)| == |FilesUnder(info, dirPath, 0)| == 0
  {
    assert PathsUnder(info, dirPath, 0) == {} && FilesUnder(info, dirPath, 0) == {};
  }

  /** Distinct files have distinct paths. */
  lemma {:induction false} PathsPerFile(info: Info, dirPath: string, n: nat)
    requires info.WellFormed() && n <= |info.files|
    ensures |PathsUnder(info, dirPath, n)| == |FilesUnder(info, dirPath, n)|
  {
    if n == 0 {
      NoneUnder(info, dirPath);
    } else {
      PathsPerFile(info, dirPath, n - 1);
      FilesUnderCount(info, dirPath, n - 1);
      PathsUnderCount(info, dirPath, n - 1);
    }
  }

  // ---- what the count decides ----

  lemma {:induction false} PathsCount(info: Info, n: nat)
    requires info.WellFormed() && n <= info.NumFiles()
    ensures |PathsUpTo(info, n)| == n
  {
    if n > 0 {
      PathsCount(info, n - 1);
      assert PathsUpTo(info, n) == PathsUpTo(info, n - 1) + {info.Path(n - 1)};
    }
  }

  /** The root test holds exactly when every file of the torrent has a row. */
  lemma RootCountDecides(info: Info, rows: set<string>)
    requires info.WellFormed() && rows <= AllPaths(info)
    ensures Answer(Rows(rows), "", info.NumFiles()) <==> AllPaths(info) <= rows
  {
    PathsCount(info, info.NumFiles());
    SubsetSize(rows, AllPaths(info));
  }

  /** With sound rows, that means every piece is complete. */
  lemma AllFilesMeanAllPieces(info: Info, c: Cache)
    requires Well(info, c) && RowsSound(info, c) && AllPaths(info) <= c.rows
    ensures forall p :: 0 <= p < |c.bits| ==> c.bits[p]
  {
    forall p | 0 <= p < |c.bits|
      ensures c.bits[p]
    {
      ValidPieceIff(info, p);
      PieceShape(info, p);
      var f := LocateFile(info.Lens(), info.NumFiles(), info.PieceStart(p));
      assert info.InFile(f, info.PieceStart(p)) && info.InPiece(p, info.PieceStart(p));
      SharedBytesAffect(info, f, p);
      assert info.Path(f) in AllPaths(info);
      PathInDoneSet(info, c.bits, f);
    }
  }

  ghost function Under(info: Info, dirPath: string): set<string>
    requires !info.Single()
  {
    PathsUnder(info, dirPath, |info.files|)
  }

  /** The files below a directory are those whose path continues its name after a slash, at any depth. */
  lemma UnderExactly(info: Info, dirPath: string, f: nat)
    requires !info.Single() && f < |info.files|
    ensures f in FilesUnder(info, dirPath, |info.files|) <==> exists t :: info.Path(f) == dirPath + "/" + t
    ensures info.WellFormed() ==>
              (info.Path(f) in Under(info, dirPath) <==> exists t :: info.Path(f) == dirPath + "/" + t)
    ensures Under(info, dirPath) <= AllPaths(info)
  {
    PrefixExactly(info.Path(f), dirPath + "/");
    if info.WellFormed() && info.Path(f) in Under(info, dirPath) {
      var g :| 0 <= g < |info.files| && HasPrefix(info.Path(g), dirPath + "/") && info.Path(g) == info.Path(f);
    }
  }

  /** The torrent's paths that the directory's pattern matches. */
  ghost function Matched(info: Info, dirPath: string): set<string> {
    set r | r in AllPaths(info) && Like(dirPath + "/%", r)
  }

  lemma UnderIsMatched(info: Info, dirPath: string)
    requires !info.Single()
    ensures Under(info, dirPath) <= Matched(info, dirPath)
  {
    forall f | 0 <= f < |info.files| && HasPrefix(info.Path(f), dirPath + "/")
      ensures Like(dirPath + "/%", info.Path(f))
    {
      PrefixMatches(info.Path(f), dirPath + "/");
      assert dirPath + "/" + "%" == dirPath + "/%";
    }
  }

  /** What the directory test ought to say. */
  ghost predicate DirIsComplete(info: Info, dirPath: string, rows: set<string>)
    requires !info.Single()
  {
    Under(info, dirPath) != {} && Under(info, dirPath) <= rows
  }

  ghost predicate CountIsRight(info: Info, dirPath: string, rows: set<string>)
    requires !info.Single()
  {
    Answer(Rows(rows), dirPath, |Under(info, dirPath)|) <==> DirIsComplete(info, dirPath, rows)
  }

  /** The directory test is right for every possible set of rows exactly when the pattern matches no
      path outside the directory (or the directory has no files). */
  lemma DirCountDecides(info: Info, dirPath: string)
    requires info.WellFormed() && !info.Single() && dirPath != ""
    ensures (forall rows :: rows <= AllPaths(info) ==> CountIsRight(info, dirPath, rows)) <==>
            Under(info, dirPath) == {} || Matched(info, dirPath) == Under(info, dirPath)
  {
    if Under(info, dirPath) == {} || Matched(info, dirPath) == Under(info, dirPath) {
      forall rows | rows <= AllPaths(info)
        ensures CountIsRight(info, dirPath, rows)
      {
        CountRightWhenExact(info, dirPath, rows);
      }
    } else {
      var rows := CountWrongOtherwise(info, dirPath);
    }
  }

  lemma CountRightWhenExact(info: Info, dirPath: string, rows: set<string>)
    requires info.WellFormed() && !info.Single() && dirPath != "" && rows <= AllPaths(info)
    requires Under(info, dirPath) == {} || Matched(info, dirPath) == Under(info, dirPath)
    ensures CountIsRight(info, dirPath, rows)
  {
    var under, matched := Under(info, dirPath), Matched(info, dirPath);
    var hits := set r | r in rows && Like(dirPath + "/%", r);
    assert hits == rows * matched;
    if matched == under {
      SubsetSize(hits, under);
      assert hits == under <==> under <= rows;
    }
  }

  /** Otherwise every row the pattern matches, less one that matters, is a set of rows that fools it. */
  lemma CountWrongOtherwise(info: Info, dirPath: string) returns (rows: set<string>)
    requires info.WellFormed() && !info.Single() && dirPath != ""
    requires Under(info, dirPath) != {} && Matched(info, dirPath) != Under(info, dirPath)
    ensures rows <= AllPaths(info) && !CountIsRight(info, dirPath, rows)
  {
    var under, matched := Under(info, dirPath), Matched(info, dirPath);
    UnderIsMatched(info, dirPath);
    var u :| u in under;
    rows := matched - {u};
    SubsetSize(under, matched);
    SubsetSize({u}, under);
    assert (set r | r in rows && Like(dirPath + "/%", r)) == rows;
    assert u !in rows;
  }

  /** In particular it is right when the directory's name has no wildcard characters and no path
      differs from it only by case. */
  lemma PlainNamesAreRight(info: Info, dirPath: string)
    requires info.WellFormed() && !info.Single() && NoWildcards(dirPath)
    requires forall f :: 0 <= f < |info.files| && HasPrefixIgnoringCase(info.Path(f), dirPath + "/") ==>
               HasPrefix(info.Path(f), dirPath + "/")
    ensures Matched(info, dirPath) == Under(info, dirPath)
  {
    UnderIsMatched(info, dirPath);
    assert dirPath + "/" + "%" == dirPath + "/%";
    forall f | 0 <= f < |info.files| && Like(dirPath + "/%", info.Path(f))
      ensures HasPrefix(info.Path(f), dirPath + "/")
    {
      LikeIsPrefix(info.Path(f), dirPath + "/");
    }
  }

  const EXAMPLE := Info("t", 1, 0, [FileInfo(["a_b", "x"], 1), FileInfo(["acb", "x"], 1)])

  /** A wildcard in a directory's name can make the test wrong: an underscore lets a neighbouring
      directory's row stand in for a missing one. */
  lemma UnderscoreMisleads()
    ensures EXAMPLE.WellFormed() && !EXAMPLE.Single() && !CountIsRight(EXAMPLE, "t/a_b", {"t/acb/x"})
  {
    ExamplePaths();
    UnderscoreMatches();
    assert Under(EXAMPLE, "t/a_b") == {"t/a_b/x"};
    assert "t/a_b" + "/%" == "t/a_b/%";
    var rows := {"t/acb/x"};
    assert (set r | r in rows && Like("t/a_b" + "/%", r)) == rows;
    assert CountLike(rows, "t/a_b" + "/%") == 1;
    assert Answer(Rows(rows), "t/a_b", |Under(EXAMPLE, "t/a_b")|);
    assert "t/a_b/x" in Under(EXAMPLE, "t/a_b") && "t/a_b/x" !in rows;
  }

  lemma ExamplePaths()
    ensures EXAMPLE.NumFiles() == 2 && EXAMPLE.Path(0) == "t/a_b/x" && EXAMPLE.Path(1) == "t/acb/x"
    ensures "t/a_b/x" != "t/acb/x"
    ensures HasPrefix("t/a_b/x", "t/a_b" + "/") && !HasPrefix("t/acb/x", "t/a_b" + "/")
  {
    assert Join(["x"]) == "x" && ["a_b", "x"][1..] == ["x"] && ["acb", "x"][1..] == ["x"];
    assert "t/a_b/x"[3] != "t/acb/x"[3];
    assert "t/a_b" + "/" == "t/a_b/" && "t/a_b/x"[..6] == "t/a_b/";
    assert "t/acb/x"[..6][3] != "t/a_b/"[3];
  }

  lemma UnderscoreMatches()
    ensures Like("t/a_b/%", "t/acb/x")
  {
    LikeAnything("x");
    assert Like("/%", "/x") by { assert "/%"[1..] == "%" && "/x"[1..] == "x"; }
    assert Like("b/%", "b/x") by { assert "b/%"[1..] == "/%" && "b/x"[1..] == "/x"; }
    assert Like("_b/%", "cb/x") by { assert "_b/%"[1..] == "b/%" && "cb/x"[1..] == "b/x"; }
    assert Like("a_b/%", "acb/x") by { assert "a_b/%"[1..] == "_b/%" && "acb/x"[1..] == "cb/x"; }
    assert Like("/a_b/%", "/acb/x") by { assert "/a_b/%"[1..] == "a_b/%" && "/acb/x"[1..] == "acb/x"; }
    assert "t/a_b/%"[1..] == "/a_b/%" && "t/acb/x"[1..] == "/acb/x";
  }

  /** End to end: a directory the test calls complete holds the torrent's content in every file. */
  lemma CompleteDirectoryHolds(info: Info, c: Cache, content: seq<byte>, dirPath: string, f: nat)
    requires Well(info, c) && RowsSound(info, c) && Intact(info, c, content) && !info.Single() && dirPath != ""
    requires Matched(info, dirPath) == Under(info, dirPath) && c.rows <= AllPaths(info)
    requires Answer(Rows(c.rows), dirPath, |Under(info, dirPath)|)
    requires f < |info.files| && HasPrefix(info.Path(f), dirPath + "/")
    ensures |c.bytes| == |content| == info.Total() && FileHolds(info, c.bytes, f, content)
  {
    DirCountDecides(info, dirPath);
    assert CountIsRight(info, dirPath, c.rows);
    PathInDoneSet(info, c.bits, f);
    DoneFileHolds(info, c, content, f);
  }
}
