/** The recency tracker as a value: what each operation does to it, and which pieces are
    chosen as victims when the byte budget is exceeded. */
module LruSpec {
  import opened Collections

  datatype Entry = Entry(size: nat, lastAccess: int)

  /** `order` runs from the most to the least recently used piece. */
  datatype Lru = Lru(entries: map<int, Entry>, order: seq<int>, used: int, budget: int)
  {
    ghost predicate Valid() {
      && NoDup(order)
      && Elems(order) == entries.Keys
      && used == Bytes(entries, entries.Keys)
    }
  }

  // ---- counting bytes ----

  ghost function Bytes<K>(m: map<K, Entry>, s: set<K>): nat
    requires s <= m.Keys
  {
    if s == {} then 0 else var i :| i in s; m[i].size + Bytes(m, s - {i})
  }

  lemma {:induction false} BytesPick<K>(m: map<K, Entry>, s: set<K>, i: K)
    requires i in s && s <= m.Keys
    ensures Bytes(m, s) == m[i].size + Bytes(m, s - {i})
    decreases |s|
  {
    var j :| j in s && Bytes(m, s) == m[j].size + Bytes(m, s - {j});
    if j != i {
      BytesPick(m, s - {j}, i);
      BytesPick(m, s - {i}, j);
      assert s - {j} - {i} == s - {i} - {j};
    }
  }

  lemma {:induction false} BytesFrame<K>(m: map<K, Entry>, m': map<K, Entry>, s: set<K>)
    requires s <= m.Keys && s <= m'.Keys
    requires forall i :: i in s ==> m[i].size == m'[i].size
    ensures Bytes(m, s) == Bytes(m', s)
    decreases |s|
  {
    if s != {} {
      var i :| i in s;
      BytesPick(m, s, i);
      BytesPick(m', s, i);
      BytesFrame(m, m', s - {i});
    }
  }

  lemma {:induction false} BytesSplit<K>(m: map<K, Entry>, s: set<K>, t: set<K>)
    requires t <= s <= m.Keys
    ensures Bytes(m, s) == Bytes(m, t) + Bytes(m, s - t)
    decreases |t|
  {
    if t == {} {
      assert s - t == s;
    } else {
      var i :| i in t;
      BytesPick(m, s, i);
      BytesPick(m, t, i);
      BytesSplit(m, s - {i}, t - {i});
      assert s - {i} - (t - {i}) == s - t;
    }
  }

  function SeqBytes<K>(m: map<K, Entry>, q: seq<K>): nat
    requires Elems(q) <= m.Keys
  {
    if q == [] then 0 else assert q[0] in q; m[q[0]].size + SeqBytes(m, q[1..])
  }

  lemma {:induction false} SeqBytesIsBytes<K>(m: map<K, Entry>, q: seq<K>)
    requires Elems(q) <= m.Keys && NoDup(q)
    ensures SeqBytes(m, q) == Bytes(m, Elems(q))
  {
    if q != [] {
      SeqBytesIsBytes(m, q[1..]);
      assert q[0] in q;
      BytesPick(m, Elems(q), q[0]);
      assert Elems(q) - {q[0]} == Elems(q[1..]);
    }
  }

  lemma {:induction false} SeqBytesAppend<K>(m: map<K, Entry>, a: seq<K>, b: seq<K>)
    requires Elems(a) <= m.Keys && Elems(b) <= m.Keys
    ensures Elems(a + b) <= m.Keys
    ensures SeqBytes(m, a + b) == SeqBytes(m, a) + SeqBytes(m, b)
  {
    assert Elems(a + b) == Elems(a) + Elems(b);
    if a == [] {
      assert a + b == b;
    } else {
      assert (a + b)[1..] == a[1..] + b;
      assert a[0] in a;
      SeqBytesAppend(m, a[1..], b);
    }
  }

  // ---- the operations ----

  function Touched(l: Lru, i: int, now: int): Lru {
    if i !in l.entries then l
    else l.(entries := l.entries[i := l.entries[i].(lastAccess := now)],
            order := [i] + Without(l.order, i))
  }

  function Added(l: Lru, i: int, size: nat, now: int): Lru {
    if i in l.entries then Touched(l, i, now)
    else l.(entries := l.entries[i := Entry(size, now)], order := [i] + l.order, used := l.used + size)
  }

  function Removed(l: Lru, i: int): Lru {
    if i !in l.entries then l
    else l.(entries := l.entries - {i}, order := Without(l.order, i), used := l.used - l.entries[i].size)
  }

  /** Recovering one piece: it goes behind everything already listed. */
  function RecoveredOne(l: Lru, i: int, size: nat, oldTime: int): Lru {
    if i in l.entries then l
    else l.(entries := l.entries[i := Entry(size, oldTime)], order := l.order + [i], used := l.used + size)
  }

  /** Recovering the pieces of a map, visited in the order `visit`. */
  function Recovered(l: Lru, pieces: map<int, nat>, visit: seq<int>, oldTime: int): Lru
    requires Elems(visit) <= pieces.Keys
  {
    if visit == [] then l
    else var n := |visit| - 1;
         assert visit[n] in visit;
         RecoveredOne(Recovered(l, pieces, visit[..n], oldTime), visit[n], pieces[visit[n]], oldTime)
  }

  /** A visiting order of a map: each key once. */
  ghost predicate Visits<V>(visit: seq<int>, pieces: map<int, V>) {
    NoDup(visit) && Elems(visit) == pieces.Keys
  }

  lemma TouchedValid(l: Lru, i: int, now: int)
    requires l.Valid()
    ensures Touched(l, i, now).Valid()
  {
    WithoutProperties(l.order, i);
    var l' := Touched(l, i, now);
    if i in l.entries {
      assert l'.entries.Keys == l.entries.Keys;
      ElemsCons(i, Without(l.order, i));
      BytesFrame(l.entries, l'.entries, l.entries.Keys);
    }
  }

  lemma AddedValid(l: Lru, i: int, size: nat, now: int)
    requires l.Valid()
    ensures Added(l, i, size, now).Valid()
    ensures Added(l, i, size, now).entries.Keys == l.entries.Keys + {i}
  {
    if i in l.entries {
      TouchedValid(l, i, now);
    } else {
      FreshEntry(l.entries, i, Entry(size, now));
    }
  }

  lemma FreshEntry(m: map<int, Entry>, i: int, e: Entry)
    requires i !in m
    ensures m[i := e].Keys == m.Keys + {i}
    ensures Bytes(m[i := e], m[i := e].Keys) == Bytes(m, m.Keys) + e.size
  {
    var m' := m[i := e];
    assert m'.Keys == m.Keys + {i} && m'.Keys - {i} == m.Keys;
    BytesPick(m', m'.Keys, i);
    BytesFrame(m, m', m.Keys);
  }

  lemma RemovedValid(l: Lru, i: int)
    requires l.Valid()
    ensures Removed(l, i).Valid()
    ensures Removed(l, i).entries.Keys == l.entries.Keys - {i}
  {
    if i in l.entries {
      WithoutProperties(l.order, i);
      var m' := l.entries - {i};
      BytesPick(l.entries, l.entries.Keys, i);
      BytesFrame(l.entries, m', m'.Keys);
    }
  }

  lemma RecoveredOneValid(l: Lru, i: int, size: nat, oldTime: int)
    requires l.Valid()
    ensures RecoveredOne(l, i, size, oldTime).Valid()
    ensures RecoveredOne(l, i, size, oldTime).entries.Keys == l.entries.Keys + {i}
  {
    if i !in l.entries {
      FreshEntry(l.entries, i, Entry(size, oldTime));
    }
  }

  lemma {:induction false} RecoveredValid(l: Lru, pieces: map<int, nat>, visit: seq<int>, oldTime: int)
    requires l.Valid() && Elems(visit) <= pieces.Keys
    ensures Recovered(l, pieces, visit, oldTime).Valid()
    ensures Recovered(l, pieces, visit, oldTime).entries.Keys == l.entries.Keys + Elems(visit)
    ensures forall i :: i in Elems(visit) - l.entries.Keys ==>
              Recovered(l, pieces, visit, oldTime).entries[i] == Entry(pieces[i], oldTime)
    ensures forall i :: i in l.entries ==> Recovered(l, pieces, visit, oldTime).entries[i] == l.entries[i]
    ensures Recovered(l, pieces, visit, oldTime).budget == l.budget
  {
    if visit != [] {
      var n := |visit| - 1;
      assert Elems(visit) == Elems(visit[..n]) + {visit[n]};
      RecoveredValid(l, pieces, visit[..n], oldTime);
      RecoveredOneValid(Recovered(l, pieces, visit[..n], oldTime), visit[n], pieces[visit[n]], oldTime);
    }
  }

  /** Starting from an empty tracker, recovery lists the pieces in visiting order. */
  lemma {:induction false} RecoveredOrder(l: Lru, pieces: map<int, nat>, visit: seq<int>, oldTime: int)
    requires l.Valid() && l.order == [] && NoDup(visit) && Elems(visit) <= pieces.Keys
    ensures Recovered(l, pieces, visit, oldTime).order == visit
  {
    if visit != [] {
      var n := |visit| - 1;
      RecoveredOrder(l, pieces, visit[..n], oldTime);
      RecoveredValid(l, pieces, visit[..n], oldTime);
      assert visit == visit[..n] + [visit[n]];
    }
  }
}
