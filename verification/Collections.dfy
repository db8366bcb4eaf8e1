/** Optional values, lists as sets of their elements, duplicate-free lists, sizes of sets. */
module Collections {

  datatype Option<T> = None | Some(value: T)

  ghost predicate NoDup<K>(q: seq<K>) {
    forall j, k :: 0 <= j < k < |q| ==> q[j] != q[k]
  }

  function Elems<K(==)>(q: seq<K>): set<K> { set i | i in q }

  /** Taking `i` out of a list. */
  function Without<K(==)>(q: seq<K>, i: K): seq<K> {
    if q == [] then []
    else if q[0] == i then q[1..]
    else [q[0]] + Without(q[1..], i)
  }

  lemma ElemsEmpty<K>()
    ensures Elems<K>([]) == {}
  {
  }

  lemma ElemsCons<K>(x: K, q: seq<K>)
    ensures Elems([x] + q) == {x} + Elems(q)
    ensures NoDup(q) && x !in Elems(q) <==> NoDup([x] + q)
  {
    var r := [x] + q;
    assert r[0] == x && r[1..] == q;
    if NoDup(q) && x !in Elems(q) {
      assert forall k :: 0 <= k < |q| ==> q[k] in Elems(q);
    }
    if NoDup(r) {
      assert forall k :: 0 <= k < |q| ==> q[k] == r[k + 1];
    }
  }

  lemma {:induction false} WithoutProperties<K>(q: seq<K>, i: K)
    requires NoDup(q)
    ensures NoDup(Without(q, i))
    ensures Elems(Without(q, i)) == Elems(q) - {i}
  {
    if q != [] {
      assert q == [q[0]] + q[1..];
      ElemsCons(q[0], q[1..]);
      if q[0] != i {
        WithoutProperties(q[1..], i);
        ElemsCons(q[0], Without(q[1..], i));
      }
    }
  }

  /** `i` comes somewhere before `j`. */
  ghost predicate Before<K(!new)>(q: seq<K>, i: K, j: K) {
    exists a, b :: 0 <= a < b < |q| && q[a] == i && q[b] == j
  }

  lemma BeforeCons<K(!new)>(x: K, q: seq<K>, i: K, j: K)
    ensures Before([x] + q, i, j) <==> (x == i && j in q) || Before(q, i, j)
  {
    var r := [x] + q;
    assert forall k :: 0 <= k < |q| ==> r[k + 1] == q[k];
    if a, b :| 0 <= a < b < |r| && r[a] == i && r[b] == j {
      assert q[b - 1] == j && (a > 0 ==> q[a - 1] == i);
    }
    if a, b :| 0 <= a < b < |q| && q[a] == i && q[b] == j {
      assert r[a + 1] == i && r[b + 1] == j;
    }
    if x == i && j in q {
      var b :| 0 <= b < |q| && q[b] == j;
      assert r[0] == i && r[b + 1] == j;
    }
  }

  /** Taking an element out leaves the others in order. */
  lemma {:induction false} WithoutKeepsOrder<K(!new)>(q: seq<K>, x: K, i: K, j: K)
    requires NoDup(q) && i != x && j != x
    ensures Before(Without(q, x), i, j) <==> Before(q, i, j)
  {
    if q != [] {
      assert q == [q[0]] + q[1..];
      BeforeCons(q[0], q[1..], i, j);
      if q[0] != x {
        ElemsCons(q[0], q[1..]);
        WithoutKeepsOrder(q[1..], x, i, j);
        WithoutProperties(q[1..], x);
        assert j in Elems(Without(q[1..], x)) <==> j in Elems(q[1..]);
        BeforeCons(q[0], Without(q[1..], x), i, j);
      }
    }
  }

  lemma ElemsSnoc<K>(q: seq<K>, x: K)
    ensures Elems(q + [x]) == Elems(q) + {x}
    ensures NoDup(q) && x !in Elems(q) <==> NoDup(q + [x])
  {
    var r := q + [x];
    assert r[|q|] == x && r[..|q|] == q;
    if NoDup(q) && x !in Elems(q) {
      assert forall k :: 0 <= k < |q| ==> q[k] in Elems(q);
    }
    if NoDup(r) {
      assert forall k :: 0 <= k < |q| ==> q[k] == r[k];
    }
  }

  /** Two duplicate-free lists with nothing in common. */
  lemma NoDupAppend<K>(a: seq<K>, b: seq<K>)
    requires NoDup(a) && NoDup(b) && Elems(a) !! Elems(b)
    ensures NoDup(a + b) && Elems(a + b) == Elems(a) + Elems(b)
  {
    assert forall k :: 0 <= k < |a| ==> a[k] in Elems(a);
    assert forall k :: 0 <= k < |b| ==> b[k] in Elems(b);
  }

  lemma ElemsTake<K>(q: seq<K>, j: nat)
    requires j <= |q|
    ensures Elems(q[..j]) <= Elems(q)
    ensures NoDup(q) ==> NoDup(q[..j])
  {
  }

  /** At most the first `n` elements. */
  function Upto<K(==)>(q: seq<K>, n: nat): (r: seq<K>)
    ensures r <= q && |r| <= n && (|r| < n ==> r == q)
  {
    if n < |q| then q[..n] else q
  }

  /** Where `i` first occurs in `q`. */
  function Position<K(==)>(q: seq<K>, i: K): nat {
    if q == [] || q[0] == i then 0 else 1 + Position(q[1..], i)
  }

  lemma {:induction false} PositionAt<K>(q: seq<K>, a: nat)
    requires NoDup(q) && a < |q|
    ensures Position(q, q[a]) == a
  {
    if a > 0 {
      PositionAt(q[1..], a - 1);
    }
  }

  lemma {:induction false} PositionInPrefix<K>(q: seq<K>, n: nat, i: K)
    requires n <= |q| && i in q[..n]
    ensures Position(q, i) == Position(q[..n], i) < n
  {
    if q[0] != i {
      assert q[..n][1..] == q[1..][..n - 1];
      PositionInPrefix(q[1..], n - 1, i);
    }
  }

  /** An arbitrary element: the iteration order of a map or a table is not specified. */
  method PickOne(s: set<int>) returns (i: int)
    requires s != {}
    ensures i in s
  {
    ghost var j := Inhabited(s);
    i :| i in s;
  }

  lemma Inhabited<T>(s: set<T>) returns (i: T)
    requires s != {}
    ensures i in s
  {
    i :| i in s;
  }

  /** Every set can be listed. */
  lemma {:induction false} Listing<T>(s: set<T>) returns (q: seq<T>)
    ensures NoDup(q) && Elems(q) == s
    decreases |s|
  {
    q := [];
    ElemsEmpty<T>();
    if s != {} {
      var x :| x in s;
      var rest := Listing(s - {x});
      ElemsCons(x, rest);
      q := [x] + rest;
    }
  }

  /** A subset is no larger, and as large only if it is the whole. */
  lemma {:induction false} SubsetSize<T>(a: set<T>, b: set<T>)
    requires a <= b
    ensures |a| <= |b|
    ensures |a| == |b| <==> a == b
    decreases |a|
  {
    if a != {} {
      var x :| x in a;
      SubsetSize(a - {x}, b - {x});
      assert a == (a - {x}) + {x} && b == (b - {x}) + {x};
    } else if |b| == 0 {
      assert b == {};
    }
  }
}
