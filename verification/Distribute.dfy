/** Choosing a data directory from the first five hexadecimal digits of a hash. */
module Distribute {
  import opened Geometry
  import opened Collections

  const TOTAL: nat := 1048575 * 1000
  const PREFIXES: nat := 0x100000 // five hexadecimal digits

  // ---- sorting strings ----

  predicate Leq(a: string, b: string) {
    a == [] || (b != [] && (a[0] < b[0] || (a[0] == b[0] && Leq(a[1..], b[1..]))))
  }

  lemma {:induction false} LeqTotal(a: string, b: string)
    ensures Leq(a, b) || Leq(b, a)
    ensures Leq(a, b) && Leq(b, a) ==> a == b
  {
    if a != [] && b != [] {
      LeqTotal(a[1..], b[1..]);
      assert a == [a[0]] + a[1..] && b == [b[0]] + b[1..];
    }
  }

  lemma {:induction false} LeqTransitive(a: string, b: string, c: string)
    requires Leq(a, b) && Leq(b, c)
    ensures Leq(a, c)
  {
    if a != [] && a[0] == b[0] && b[0] == c[0] {
      LeqTransitive(a[1..], b[1..], c[1..]);
    }
  }

  /** A string comes before its extensions, and otherwise the first difference decides. */
  lemma {:induction false} LeqExactly(a: string, b: string)
    ensures Leq(a, b) <==> a <= b || exists k :: 0 <= k < |a| && k < |b| && a[..k] == b[..k] && a[k] < b[k]
  {
    if a != [] && b != [] {
      LeqExactly(a[1..], b[1..]);
      assert a == [a[0]] + a[1..] && b == [b[0]] + b[1..];
      if a[0] < b[0] {
        assert a[..0] == b[..0];
      } else if a[0] == b[0] {
        SameHead(a, b);
      } else {
        forall k | 0 < k < |a| && k < |b|
          ensures a[..k] != b[..k]
        {
          assert a[..k][0] == a[0] && b[..k][0] == b[0];
        }
      }
    }
  }

  lemma SameHead(a: string, b: string)
    requires a != [] && b != [] && a[0] == b[0]
    ensures a <= b <==> a[1..] <= b[1..]
    ensures (exists k :: 0 <= k < |a| && k < |b| && a[..k] == b[..k] && a[k] < b[k]) <==>
            (exists k :: 0 <= k < |a[1..]| && k < |b[1..]| && a[1..][..k] == b[1..][..k] && a[1..][k] < b[1..][k])
  {
    assert a == [a[0]] + a[1..] && b == [b[0]] + b[1..];
    if k :| 0 <= k < |a[1..]| && k < |b[1..]| && a[1..][..k] == b[1..][..k] && a[1..][k] < b[1..][k] {
      assert a[..k + 1] == [a[0]] + a[1..][..k] && b[..k + 1] == [b[0]] + b[1..][..k];
      assert a[k + 1] < b[k + 1];
    }
    if k :| 0 <= k < |a| && k < |b| && a[..k] == b[..k] && a[k] < b[k] {
      assert k > 0 && a[1..][..k - 1] == a[..k][1..] && b[1..][..k - 1] == b[..k][1..];
      assert a[1..][k - 1] < b[1..][k - 1];
    }
  }

  ghost predicate Sorted(q: seq<string>) {
    forall i, j :: 0 <= i < j < |q| ==> Leq(q[i], q[j])
  }

  function Inserted(x: string, q: seq<string>): seq<string> {
    if q == [] || Leq(x, q[0]) then [x] + q else [q[0]] + Inserted(x, q[1..])
  }

  function Sort(q: seq<string>): seq<string> {
    if q == [] then [] else Inserted(q[0], Sort(q[1..]))
  }

  lemma SortedCons(x: string, q: seq<string>)
    requires Sorted(q) && (q != [] ==> Leq(x, q[0]))
    ensures Sorted([x] + q)
  {
    forall j | 0 < j < |q| ensures Leq(x, q[j]) {
      LeqTransitive(x, q[0], q[j]);
    }
  }

  lemma {:induction false} InsertedProperties(x: string, q: seq<string>)
    requires Sorted(q)
    ensures Sorted(Inserted(x, q)) && multiset(Inserted(x, q)) == multiset(q) + multiset{x}
    ensures Inserted(x, q) != [] && (Inserted(x, q)[0] == x || (q != [] && Inserted(x, q)[0] == q[0]))
  {
    if q == [] || Leq(x, q[0]) {
      SortedCons(x, q);
    } else {
      assert q == [q[0]] + q[1..];
      LeqTotal(x, q[0]);
      InsertedProperties(x, q[1..]);
      SortedCons(q[0], Inserted(x, q[1..]));
    }
  }

  lemma {:induction false} SortProperties(q: seq<string>)
    ensures Sorted(Sort(q)) && multiset(Sort(q)) == multiset(q) && |Sort(q)| == |q|
  {
    if q != [] {
      SortProperties(q[1..]);
      InsertedProperties(q[0], Sort(q[1..]));
      assert q == [q[0]] + q[1..];
    }
    assert |multiset(Sort(q))| == |Sort(q)| && |multiset(q)| == |q|;
  }

  /** A sorted arrangement is unique. */
  lemma {:induction false} SortedUnique(a: seq<string>, b: seq<string>)
    requires Sorted(a) && Sorted(b) && multiset(a) == multiset(b)
    ensures a == b
  {
    assert |a| == |multiset(a)| == |b|;
    if a != [] {
      assert a == [a[0]] + a[1..] && b == [b[0]] + b[1..];
      FirstIsLeast(a, b);
      FirstIsLeast(b, a);
      LeqTotal(a[0], b[0]);
      assert multiset(a[1..]) == multiset(a) - multiset{a[0]};
      assert multiset(b[1..]) == multiset(b) - multiset{b[0]};
      SortedUnique(a[1..], b[1..]);
    }
  }

  lemma FirstIsLeast(a: seq<string>, b: seq<string>)
    requires Sorted(a) && multiset(a) == multiset(b) && a != [] && b != []
    ensures Leq(a[0], b[0])
  {
    assert b[0] in multiset(b);
    var j :| 0 <= j < |a| && a[j] == b[0];
    if j == 0 {
      LeqTotal(a[0], a[0]);
    }
  }

  /** The library's in-place sort. */
  method SortStrings(dirs: array<string>)
    modifies dirs
    ensures dirs[..] == Sort(old(dirs[..]))
  {
    var sorted := Sort(dirs[..]);
    SortProperties(dirs[..]);
    forall i | 0 <= i < dirs.Length {
      dirs[i] := sorted[i];
    }
  }

  // ---- the choice ----

  /** The width of each directory's share, in thousandths of a prefix. */
  function Interval(n: nat): nat
    requires n > 0
  {
    TOTAL / n
  }

  /** The closed form: the number of the chosen directory among `n`, if there is one. */
  function Slot(n: nat, prefix: nat): Option<nat>
    requires n > 0
  {
    var interval := Interval(n);
    if interval == 0 || prefix * 1000 / interval >= n then None else Some(prefix * 1000 / interval)
  }

  /** Sorts the directories in place and scans them for the one, number `slot`, in whose interval the scaled
      prefix lies.  When the scan falls off the end the original returns an empty name, and no error either:
      wrapping a nil error gives nil. */
  method DistributeByHash(dirs: array<string>, prefix: nat) returns (dir: Option<string>, ghost slot: nat)
    requires dirs.Length > 0
    modifies dirs
    ensures Sorted(dirs[..]) && multiset(dirs[..]) == multiset(old(dirs[..]))
    ensures slot <= dirs.Length && slot * Interval(dirs.Length) <= prefix * 1000
    ensures slot < dirs.Length ==> prefix * 1000 < (slot + 1) * Interval(dirs.Length) && dir == Some(dirs[slot])
    ensures slot == dirs.Length ==> dir == None
    ensures dirs[..] == Sort(old(dirs[..]))
    ensures dir == Choice(old(dirs[..]), prefix)
  {
    SortProperties(dirs[..]);
    SortStrings(dirs);
    var interval := Interval(dirs.Length);
    var i := FirstBelow(dirs.Length, prefix * 1000, interval);
    slot := i;
    if i < dirs.Length {
      SlotIs(dirs.Length, interval, prefix, i);
      return Some(dirs[i]), i;
    }
    NoSlot(dirs.Length, interval, prefix);
    return None, i;
  }

  /** The intervals are as wide as they can be. */
  lemma IntervalExactly(n: nat)
    requires n > 0
    ensures n * Interval(n) <= 1048575 * 1000 < n * (Interval(n) + 1)
  {
    QuotientBounds(TOTAL, n);
  }

  /** A scaled prefix lies in at most one interval, and in none exactly when it lies beyond the last. */
  lemma IntervalsPartition(n: nat, width: nat, num: nat, i: nat, j: nat)
    requires i < n && j < n && i * width <= num < (i + 1) * width
    ensures j * width <= num < (j + 1) * width <==> i == j
    ensures num < n * width
  {
    if j < i { MulMonotone(j + 1, i, width); }
    if i < j { MulMonotone(i + 1, j, width); }
    MulMonotone(i + 1, n, width);
  }

  /** The scan: the first directory whose upper bound lies above `num`. */
  method FirstBelow(n: nat, num: nat, interval: nat) returns (i: nat)
    ensures i <= n && i * interval <= num
    ensures i < n ==> num < (i + 1) * interval
  {
    i := 0;
    while i < n
      invariant i <= n && i * interval <= num
    {
      if num < (i + 1) * interval {
        return;
      }
      i := i + 1;
    }
  }

  lemma SlotIs(n: nat, interval: nat, prefix: nat, i: nat)
    requires i < n && interval == Interval(n) && i * interval <= prefix * 1000 < (i + 1) * interval
    ensures Slot(n, prefix) == Some(i)
  {
    assert (i + 1) * interval == i * interval + interval;
    QuotientAtLeast(prefix * 1000, interval, i);
  }

  lemma NoSlot(n: nat, interval: nat, prefix: nat)
    requires n > 0 && interval == Interval(n) && n * interval <= prefix * 1000
    ensures Slot(n, prefix) == None
  {
    if interval > 0 {
      QuotientAtLeast(prefix * 1000, interval, n);
    }
  }

  /** The answer as a function of the directories and the prefix. */
  ghost function Choice(dirs: seq<string>, prefix: nat): Option<string>
    requires dirs != []
  {
    SortProperties(dirs);
    match Slot(|dirs|, prefix)
    case None => None
    case Some(i) => if i < |dirs| then Some(Sort(dirs)[i]) else None
  }

  /** The order in which the directories are listed does not matter. */
  lemma OrderDoesNotMatter(a: seq<string>, b: seq<string>, prefix: nat)
    requires a != [] && b != [] && multiset(a) == multiset(b)
    ensures Choice(a, prefix) == Choice(b, prefix)
  {
    SortProperties(a);
    SortProperties(b);
    SortedUnique(Sort(a), Sort(b));
    assert |a| == |multiset(a)| == |b|;
  }

  /** Exactly when the scan falls off the end. */
  lemma FallsOffWhen(n: nat, prefix: nat)
    requires n > 0 && prefix < PREFIXES
    ensures Slot(n, prefix).None? <==> 1000 * (1048575 - prefix) <= TOTAL % n
  {
    var interval := TOTAL / n;
    assert TOTAL == n * interval + TOTAL % n;
    if interval > 0 {
      QuotientAtLeast(prefix * 1000, interval, n);
    } else {
      assert n * interval == 0;
    }
  }

  /** With up to a thousand directories only the very last prefix has no directory. */
  lemma OnlyTheLastPrefixFallsOff(n: nat, prefix: nat)
    requires 1 <= n <= 1000 && prefix < PREFIXES
    ensures Slot(n, prefix).None? <==> prefix == 1048575
  {
    FallsOffWhen(n, prefix);
  }

  // ---- shares ----

  /** How many of the first `m` prefixes go to directory `i`. */
  function Share(n: nat, i: nat, m: nat): nat
    requires n > 0
  {
    if m == 0 then 0 else Share(n, i, m - 1) + if Slot(n, m - 1) == Some(i) then 1 else 0
  }

  /** The first prefix whose scaled value reaches `x`. */
  function FirstAt(x: nat): nat { (x + 999) / 1000 }

  lemma FirstAtIs(x: nat, prefix: nat)
    ensures FirstAt(x) <= prefix <==> x <= prefix * 1000
  {
  }

  /** Directory `i` gets the prefixes from `FirstAt(i * interval)` to `FirstAt((i + 1) * interval)`. */
  lemma {:induction false} ShareIsInterval(n: nat, i: nat, m: nat)
    requires i < n <= TOTAL
    ensures var lo, hi := FirstAt(i * (TOTAL / n)), FirstAt((i + 1) * (TOTAL / n));
            lo <= hi && Share(n, i, m) == if m <= lo then 0 else if m <= hi then m - lo else hi - lo
  {
    var interval := TOTAL / n;
    QuotientAtLeast(TOTAL, n, 1);
    assert (i + 1) * interval == i * interval + interval;
    if m > 0 {
      ShareIsInterval(n, i, m - 1);
      var num := (m - 1) * 1000;
      FirstAtIs(i * interval, m - 1);
      FirstAtIs((i + 1) * interval, m - 1);
      QuotientAtLeast(num, interval, i);
      assert Slot(n, m - 1) == Some(i) <==> i * interval <= num < (i + 1) * interval;
    }
  }

  /** Any two directories receive shares of all prefixes that differ by at most one. */
  lemma SharesAreEven(n: nat, i: nat, j: nat)
    requires i < n <= TOTAL && j < n
    ensures -1 <= Share(n, i, PREFIXES) - Share(n, j, PREFIXES) <= 1
  {
    ShareSize(n, i);
    ShareSize(n, j);
  }

  /** How many of the first `m` prefixes are answered with directory `d`. */
  ghost function Answered(dirs: seq<string>, d: string, m: nat): nat
    requires dirs != []
  {
    if m == 0 then 0
    else if Choice(dirs, m - 1) == Some(d) then Answered(dirs, d, m - 1) + 1
    else Answered(dirs, d, m - 1)
  }

  lemma {:induction false} AnsweredIsShare(dirs: seq<string>, i: nat, m: nat)
    requires dirs != [] && NoDup(dirs) && i < |dirs| == |Sort(dirs)|
    ensures Answered(dirs, Sort(dirs)[i], m) == Share(|dirs|, i, m)
  {
    if m > 0 {
      AnsweredIsShare(dirs, i, m - 1);
      SortNoDup(dirs);
    }
  }

  lemma {:induction false} InsertedNoDup(x: string, q: seq<string>)
    requires NoDup(q) && x !in Elems(q)
    ensures NoDup(Inserted(x, q)) && Elems(Inserted(x, q)) == {x} + Elems(q)
  {
    ElemsCons(x, q);
    if q != [] && !Leq(x, q[0]) {
      assert q == [q[0]] + q[1..];
      ElemsCons(q[0], q[1..]);
      InsertedNoDup(x, q[1..]);
      ElemsCons(q[0], Inserted(x, q[1..]));
    }
  }

  lemma {:induction false} SortNoDup(q: seq<string>)
    requires NoDup(q)
    ensures NoDup(Sort(q)) && Elems(Sort(q)) == Elems(q)
  {
    if q != [] {
      assert q == [q[0]] + q[1..];
      ElemsCons(q[0], q[1..]);
      SortNoDup(q[1..]);
      InsertedNoDup(q[0], Sort(q[1..]));
    }
  }

  /** Any two of distinct directories are the answer for numbers of prefixes that differ by at most one. */
  lemma AnswersAreEven(dirs: seq<string>, d: string, e: string)
    requires dirs != [] && NoDup(dirs) && |dirs| <= TOTAL && d in dirs && e in dirs
    ensures -1 <= Answered(dirs, d, PREFIXES) - Answered(dirs, e, PREFIXES) <= 1
  {
    SortProperties(dirs);
    SortNoDup(dirs);
    assert d in Elems(dirs) && e in Elems(dirs);
    var i :| 0 <= i < |Sort(dirs)| && Sort(dirs)[i] == d;
    var j :| 0 <= j < |Sort(dirs)| && Sort(dirs)[j] == e;
    AnsweredIsShare(dirs, i, PREFIXES);
    AnsweredIsShare(dirs, j, PREFIXES);
    SharesAreEven(|dirs|, i, j);
  }

  lemma ShareSize(n: nat, i: nat)
    requires i < n <= TOTAL
    ensures Share(n, i, PREFIXES) == TOTAL / n / 1000 || Share(n, i, PREFIXES) == TOTAL / n / 1000 + 1
  {
    var interval := TOTAL / n;
    ShareIsInterval(n, i, PREFIXES);
    MulMonotone(i + 1, n, interval);
    QuotientBounds(TOTAL, n);
    assert n * interval == interval * n;
    assert (i + 1) * interval == i * interval + interval;
    assert FirstAt((i + 1) * interval) <= PREFIXES;
  }
}
