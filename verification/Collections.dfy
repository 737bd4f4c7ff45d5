/** What the other modules share: optional values, filtering, stable sorting,
    and sums over finite maps whose iteration order is unknown. */
module Collections {

  datatype Option<+T> = None | Some(value: T)

  /** Every earlier element is related to every later one. */
  ghost predicate Chain<T>(rel: (T, T) -> bool, s: seq<T>) {
    forall i, j :: 0 <= i < j < |s| ==> rel(s[i], s[j])
  }

  ghost predicate TotalPreorder<T(!new)>(le: (T, T) -> bool) {
    && (forall x, y :: le(x, y) || le(y, x))
    && (forall x, y, z :: le(x, y) && le(y, z) ==> le(x, z))
  }

  function Filter<T(!new)>(keep: T -> bool, s: seq<T>): (r: seq<T>)
    ensures forall x :: x in r <==> x in s && keep(x)
  {
    if s == [] then []
    else if keep(s[0]) then [s[0]] + Filter(keep, s[1..])
    else Filter(keep, s[1..])
  }

  lemma {:induction false} FilterNone<T(!new)>(keep: T -> bool, s: seq<T>)
    requires forall x :: x in s ==> !keep(x)
    ensures Filter(keep, s) == []
  {
    if s != [] {
      FilterNone(keep, s[1..]);
    }
  }

  lemma {:induction false} FilterAll<T(!new)>(keep: T -> bool, s: seq<T>)
    requires forall x :: x in s ==> keep(x)
    ensures Filter(keep, s) == s
  {
    if s != [] {
      FilterAll(keep, s[1..]);
    }
  }

  lemma {:induction false} FilterAgree<T(!new)>(p: T -> bool, q: T -> bool, s: seq<T>)
    requires forall x :: x in s ==> p(x) == q(x)
    ensures Filter(p, s) == Filter(q, s)
  {
    if s != [] {
      FilterAgree(p, q, s[1..]);
    }
  }

  lemma {:induction false} FilterCommutes<T(!new)>(p: T -> bool, q: T -> bool, s: seq<T>)
    ensures Filter(p, Filter(q, s)) == Filter(q, Filter(p, s))
  {
    if s != [] {
      FilterCommutes(p, q, s[1..]);
      FilterConcat(p, [s[0]], Filter(q, s[1..]));
      FilterConcat(q, [s[0]], Filter(p, s[1..]));
    }
  }

  lemma {:induction false} FilterSnoc<T(!new)>(keep: T -> bool, s: seq<T>, x: T)
    ensures Filter(keep, s + [x]) == Filter(keep, s) + if keep(x) then [x] else []
  {
    if s != [] {
      assert (s + [x])[1..] == s[1..] + [x];
      FilterSnoc(keep, s[1..], x);
    }
  }

  lemma {:induction false} FilterConcat<T(!new)>(keep: T -> bool, a: seq<T>, b: seq<T>)
    ensures Filter(keep, a + b) == Filter(keep, a) + Filter(keep, b)
  {
    if a == [] {
      assert a + b == b;
    } else {
      assert (a + b)[1..] == a[1..] + b;
      FilterConcat(keep, a[1..], b);
    }
  }

  lemma {:induction false} FilterChain<T(!new)>(keep: T -> bool, rel: (T, T) -> bool, s: seq<T>)
    requires Chain(rel, s)
    ensures Chain(rel, Filter(keep, s))
  {
    if s != [] {
      assert forall i, j :: 0 <= i < j < |s[1..]| ==> s[1..][i] == s[i + 1] && s[1..][j] == s[j + 1];
      FilterChain(keep, rel, s[1..]);
      var r := Filter(keep, s[1..]);
      forall y | y in r ensures rel(s[0], y) {
        var j :| 0 <= j < |s[1..]| && s[1..][j] == y;
        assert s[j + 1] == y;
      }
    }
  }

  lemma ChainWeaken<T>(rel: (T, T) -> bool, weaker: (T, T) -> bool, s: seq<T>)
    requires Chain(rel, s)
    requires forall i, j :: 0 <= i < j < |s| && rel(s[i], s[j]) ==> weaker(s[i], s[j])
    ensures Chain(weaker, s)
  {
  }

  lemma ChainConcat<T>(rel: (T, T) -> bool, a: seq<T>, b: seq<T>)
    requires Chain(rel, a) && Chain(rel, b)
    requires forall x, y :: x in a && y in b ==> rel(x, y)
    ensures Chain(rel, a + b)
  {
    forall i, j | 0 <= i < j < |a + b| ensures rel((a + b)[i], (a + b)[j]) {
      if j < |a| {
        assert rel(a[i], a[j]);
      } else if |a| <= i {
        assert rel(b[i - |a|], b[j - |a|]);
      } else {
        assert a[i] in a && b[j - |a|] in b;
      }
    }
  }

  // ---------- Duplicates ----------

  ghost predicate Distinct<T>(s: seq<T>) {
    forall i, j :: 0 <= i < j < |s| ==> s[i] != s[j]
  }

  /** `len(set(s)) == len(s)` */
  predicate SetKeepsSize<T(==)>(s: seq<T>) {
    |set x | x in s| == |s|
  }

  lemma {:induction false} SetSize<T>(s: seq<T>)
    ensures |set x | x in s| <= |s|
    ensures |set x | x in s| == |s| <==> Distinct(s)
  {
    if s != [] {
      var rest := s[..|s| - 1];
      var last := s[|s| - 1];
      SetSize(rest);
      assert forall x :: x in s <==> x in rest || x == last;
      assert (set x | x in s) == (set x | x in rest) + {last};
      if last in rest {
        assert (set x | x in s) == set x | x in rest;
        var i :| 0 <= i < |rest| && rest[i] == last;
        assert s[i] == s[|s| - 1];
      }
    }
  }

  // ---------- Stable sorting ----------

  function Insert<T>(le: (T, T) -> bool, x: T, s: seq<T>): seq<T> {
    if s == [] then [x]
    else if le(x, s[0]) then [x] + s
    else [s[0]] + Insert(le, x, s[1..])
  }

  /** The list `sorted` returns: elements that compare equal keep their order. */
  function Sort<T>(le: (T, T) -> bool, s: seq<T>): seq<T> {
    if s == [] then [] else Insert(le, s[0], Sort(le, s[1..]))
  }

  /** In order, and in the order `before` wherever `le` does not decide. */
  function Ordered<T>(le: (T, T) -> bool, before: (T, T) -> bool): (T, T) -> bool {
    (x: T, y: T) => le(x, y) && (le(y, x) ==> before(x, y))
  }

  lemma {:induction false} InsertContents<T>(le: (T, T) -> bool, x: T, s: seq<T>)
    ensures multiset(Insert(le, x, s)) == multiset{x} + multiset(s)
  {
    if s != [] && !le(x, s[0]) {
      InsertContents(le, x, s[1..]);
      assert s == [s[0]] + s[1..];
    }
  }

  lemma {:induction false} SortContents<T(!new)>(le: (T, T) -> bool, s: seq<T>)
    ensures multiset(Sort(le, s)) == multiset(s)
    ensures |Sort(le, s)| == |s|
    ensures forall x :: x in Sort(le, s) <==> x in s
  {
    if s != [] {
      SortContents(le, s[1..]);
      InsertContents(le, s[0], Sort(le, s[1..]));
      assert s == [s[0]] + s[1..];
    }
    var r := Sort(le, s);
    assert |multiset(r)| == |r| && |multiset(s)| == |s|;
    forall x ensures x in r <==> x in s {
      assert x in r <==> x in multiset(r);
    }
  }

  lemma {:induction false} InsertOrdered<T(!new)>(le: (T, T) -> bool, before: (T, T) -> bool, x: T, s: seq<T>)
    requires TotalPreorder(le)
    requires Chain(Ordered(le, before), s)
    requires forall y :: y in s ==> before(x, y)
    ensures Chain(Ordered(le, before), Insert(le, x, s))
  {
    if s == [] {
    } else if le(x, s[0]) {
      forall y | y in s ensures Ordered(le, before)(x, y) {
        var j :| 0 <= j < |s| && s[j] == y;
      }
    } else {
      var rest := Insert(le, x, s[1..]);
      assert forall i, j :: 0 <= i < j < |s[1..]| ==> s[1..][i] == s[i + 1] && s[1..][j] == s[j + 1];
      InsertOrdered(le, before, x, s[1..]);
      InsertContents(le, x, s[1..]);
      forall y | y in rest ensures Ordered(le, before)(s[0], y) {
        assert y in multiset(rest);
        if y != x {
          assert y in s[1..];
          var j :| 0 <= j < |s[1..]| && s[1..][j] == y;
          assert s[j + 1] == y;
        }
      }
    }
  }

  /** Sorting a list that is already in the order `before` leaves ties in that order. */
  lemma {:induction false} SortOrdered<T(!new)>(le: (T, T) -> bool, before: (T, T) -> bool, s: seq<T>)
    requires TotalPreorder(le)
    requires Chain(before, s)
    ensures Chain(Ordered(le, before), Sort(le, s))
  {
    if s != [] {
      assert forall i, j :: 0 <= i < j < |s[1..]| ==> s[1..][i] == s[i + 1] && s[1..][j] == s[j + 1];
      SortOrdered(le, before, s[1..]);
      SortContents(le, s[1..]);
      forall y | y in Sort(le, s[1..]) ensures before(s[0], y) {
        var j :| 0 <= j < |s[1..]| && s[1..][j] == y;
        assert s[j + 1] == y;
      }
      InsertOrdered(le, before, s[0], Sort(le, s[1..]));
    }
  }

  lemma {:induction false} InsertKeepsChain<T(!new)>(le: (T, T) -> bool, rel: (T, T) -> bool, x: T, s: seq<T>)
    requires Chain(rel, s)
    requires forall y :: y in s ==> rel(x, y) && rel(y, x)
    ensures Chain(rel, Insert(le, x, s))
  {
    if s != [] && !le(x, s[0]) {
      assert forall i, j :: 0 <= i < j < |s[1..]| ==> s[1..][i] == s[i + 1] && s[1..][j] == s[j + 1];
      InsertKeepsChain(le, rel, x, s[1..]);
      InsertContents(le, x, s[1..]);
      forall y | y in Insert(le, x, s[1..]) ensures rel(s[0], y) {
        assert y in multiset(Insert(le, x, s[1..]));
        if y != x {
          var j :| 0 <= j < |s[1..]| && s[1..][j] == y;
          assert s[j + 1] == y;
        }
      }
    }
  }

  /** A symmetric relation between all pairs survives sorting. */
  lemma {:induction false} SortKeepsChain<T(!new)>(le: (T, T) -> bool, rel: (T, T) -> bool, s: seq<T>)
    requires forall x, y :: rel(x, y) ==> rel(y, x)
    requires Chain(rel, s)
    ensures Chain(rel, Sort(le, s))
  {
    if s != [] {
      assert forall i, j :: 0 <= i < j < |s[1..]| ==> s[1..][i] == s[i + 1] && s[1..][j] == s[j + 1];
      SortKeepsChain(le, rel, s[1..]);
      SortContents(le, s[1..]);
      forall y | y in Sort(le, s[1..]) ensures rel(s[0], y) {
        var j :| 0 <= j < |s[1..]| && s[1..][j] == y;
        assert s[j + 1] == y;
      }
      InsertKeepsChain(le, rel, s[0], Sort(le, s[1..]));
    }
  }

  // ---------- Sums over a dictionary ----------

  lemma Pick<T>(s: set<T>) returns (x: T)
    requires s != {}
    ensures x in s
  {
    x :| x in s;
  }

  lemma NoneIn<T>(s: set<T>)
    requires forall x :: x !in s
    ensures s == {}
  {
  }

  lemma AtMostOne<T>(s: set<T>)
    requires forall x, y :: x in s && y in s ==> x == y
    ensures |s| <= 1
  {
    if s != {} {
      var x := Pick(s);
      assert s == {x};
    }
  }

  /** The next element in whatever order a hash set or dictionary iterates. */
  method AnyOf<T>(s: set<T>) returns (x: T)
    requires s != {}
    ensures x in s
  {
    x :| x in s;
  }

  ghost function SumMap<K>(m: map<K, real>): real
    decreases |m.Keys|
  {
    if m == map[] then 0.0
    else
      var k :| k in m.Keys;
      assert (m - {k}).Keys == m.Keys - {k};
      m[k] + SumMap(m - {k})
  }

  /** The sum does not depend on which key is taken first. */
  lemma {:induction false} SumMapRemove<K>(m: map<K, real>, k: K)
    requires k in m
    ensures SumMap(m) == m[k] + SumMap(m - {k})
    decreases |m.Keys|
  {
    var first :| first in m.Keys && SumMap(m) == m[first] + SumMap(m - {first});
    if first != k {
      assert (m - {first}).Keys == m.Keys - {first};
      assert (m - {k}).Keys == m.Keys - {k};
      SumMapRemove(m - {first}, k);
      SumMapRemove(m - {k}, first);
      assert m - {first} - {k} == m - {k} - {first};
    }
  }
}
