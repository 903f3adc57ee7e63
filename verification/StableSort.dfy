// The theory of std::list::sort: a stable sort by an integer rank, and why successive
// stable sorts amount to one lexicographic sort.
module StableSort {
  function Insert<T>(x: T, s: seq<T>, rank: T -> int): seq<T> {
    if s == [] || rank(x) <= rank(s[0]) then [x] + s else [s[0]] + Insert(x, s[1..], rank)
  }

  function Sort<T>(s: seq<T>, rank: T -> int): seq<T> {
    if s == [] then [] else Insert(s[0], Sort(s[1..], rank), rank)
  }

  ghost predicate Ordered<T(!new)>(s: seq<T>, before: (T, T) -> bool) {
    forall i, j | 0 <= i < j < |s| :: before(s[i], s[j])
  }

  ghost predicate Asymmetric<T(!new)>(before: (T, T) -> bool) {
    forall a, b :: !(before(a, b) && before(b, a))
  }

  // Lexicographic order: rank first, then whatever order there was before.
  ghost function ByRank<T(!new)>(rank: T -> int, before: (T, T) -> bool): (T, T) -> bool {
    (a, b) => rank(a) < rank(b) || (rank(a) == rank(b) && before(a, b))
  }

  lemma {:induction false} InsertPermutes<T>(x: T, s: seq<T>, rank: T -> int)
    ensures multiset(Insert(x, s, rank)) == multiset{x} + multiset(s)
  {
    if s != [] && rank(x) > rank(s[0]) {
      InsertPermutes(x, s[1..], rank);
      assert s == [s[0]] + s[1..];
    }
  }

  lemma {:induction false} SortPermutes<T>(s: seq<T>, rank: T -> int)
    ensures multiset(Sort(s, rank)) == multiset(s)
  {
    if s != [] {
      SortPermutes(s[1..], rank);
      InsertPermutes(s[0], Sort(s[1..], rank), rank);
      assert s == [s[0]] + s[1..];
    }
  }

  lemma {:induction false} InsertOrders<T(!new)>(x: T, s: seq<T>, rank: T -> int, before: (T, T) -> bool)
    requires Ordered(s, ByRank(rank, before))
    requires forall y | y in s :: before(x, y)
    ensures Ordered(Insert(x, s, rank), ByRank(rank, before))
  {
    if s != [] && rank(x) > rank(s[0]) {
      var rest := Insert(x, s[1..], rank);
      InsertOrders(x, s[1..], rank, before);
      InsertPermutes(x, s[1..], rank);
      forall y | y in rest ensures ByRank(rank, before)(s[0], y) {
        assert y in multiset(rest);
      }
    }
  }

  // A stable sort refines the order it is given.
  lemma {:induction false} SortRefines<T(!new)>(s: seq<T>, rank: T -> int, before: (T, T) -> bool)
    requires Ordered(s, before)
    ensures Ordered(Sort(s, rank), ByRank(rank, before))
  {
    if s != [] {
      var rest := Sort(s[1..], rank);
      SortRefines(s[1..], rank, before);
      SortPermutes(s[1..], rank);
      forall y | y in rest ensures before(s[0], y) {
        assert y in multiset(rest);
        var k :| 0 <= k < |s[1..]| && s[1..][k] == y;
        assert s[k + 1] == y;
      }
      InsertOrders(s[0], rest, rank, before);
    }
  }

  // Two arrangements of the same elements that follow the same asymmetric order are equal.
  lemma {:induction false} OrderedUnique<T(!new)>(s: seq<T>, t: seq<T>, before: (T, T) -> bool)
    requires Ordered(s, before) && Ordered(t, before)
    requires multiset(s) == multiset(t)
    requires Asymmetric(before)
    ensures s == t
  {
    assert |multiset(s)| == |s| && |multiset(t)| == |t|;
    if s != [] {
      SameHead(s, t, before);
      assert s == [s[0]] + s[1..] && t == [t[0]] + t[1..];
      assert multiset(s[1..]) == multiset(s) - multiset{s[0]};
      assert multiset(t[1..]) == multiset(t) - multiset{t[0]};
      OrderedUnique(s[1..], t[1..], before);
    }
  }

  lemma SameHead<T(!new)>(s: seq<T>, t: seq<T>, before: (T, T) -> bool)
    requires Ordered(s, before) && Ordered(t, before)
    requires s != [] && t != [] && multiset(s) == multiset(t)
    requires Asymmetric(before)
    ensures s[0] == t[0]
  {
    assert t[0] in multiset(t) && s[0] in multiset(s);
    var i :| 0 <= i < |s| && s[i] == t[0];
    var j :| 0 <= j < |t| && t[j] == s[0];
  }

  // ---- filtering ------------------------------------------------------------------------------

  function Filter<T>(s: seq<T>, keep: T -> bool): seq<T> {
    if s == [] then [] else (if keep(s[0]) then [s[0]] else []) + Filter(s[1..], keep)
  }

  lemma {:induction false} FilterMembers<T>(s: seq<T>, keep: T -> bool, x: T)
    ensures multiset(Filter(s, keep))[x] == if keep(x) then multiset(s)[x] else 0
    ensures x in Filter(s, keep) <==> x in s && keep(x)
  {
    if s != [] {
      assert s == [s[0]] + s[1..];
      FilterMembers(s[1..], keep, x);
    }
  }

  lemma {:induction false} FilterSplits<T>(s: seq<T>, p: T -> bool, q: T -> bool)
    requires forall x | x in s :: p(x) != q(x)
    ensures multiset(Filter(s, p)) + multiset(Filter(s, q)) == multiset(s)
  {
    if s != [] {
      assert s == [s[0]] + s[1..] && s[0] in s;
      FilterSplits(s[1..], p, q);
    }
  }

  lemma {:induction false} FilterConcat<T>(s: seq<T>, t: seq<T>, keep: T -> bool)
    ensures Filter(s + t, keep) == Filter(s, keep) + Filter(t, keep)
  {
    if s == [] {
      assert s + t == t;
    } else {
      var head := if keep(s[0]) then [s[0]] else [];
      assert (s + t)[0] == s[0] && (s + t)[1..] == s[1..] + t;
      FilterConcat(s[1..], t, keep);
      assert head + (Filter(s[1..], keep) + Filter(t, keep)) == (head + Filter(s[1..], keep)) + Filter(t, keep);
    }
  }

  lemma FilterSnoc<T>(s: seq<T>, x: T, keep: T -> bool)
    ensures Filter(s + [x], keep) == Filter(s, keep) + (if keep(x) then [x] else [])
  {
    FilterConcat(s, [x], keep);
  }

  lemma FilterNone<T>(keep: T -> bool)
    ensures Filter([], keep) == []
  {}

  lemma {:induction false} FilterOrdered<T(!new)>(s: seq<T>, keep: T -> bool, before: (T, T) -> bool)
    requires Ordered(s, before)
    ensures Ordered(Filter(s, keep), before)
  {
    if s != [] {
      FilterOrdered(s[1..], keep, before);
      forall y | y in Filter(s[1..], keep) ensures before(s[0], y) {
        FilterMembers(s[1..], keep, y);
        var k :| 0 <= k < |s[1..]| && s[1..][k] == y;
        assert s[k + 1] == y;
      }
    }
  }

  lemma FilterHead<T>(x: T, s: seq<T>, keep: T -> bool)
    ensures Filter([x] + s, keep) == (if keep(x) then [x] else []) + Filter(s, keep)
  {
    assert ([x] + s)[1..] == s;
  }

  // Keeping what satisfies keep commutes with a stable sort.
  lemma {:induction false} InsertFilter<T>(x: T, s: seq<T>, rank: T -> int, keep: T -> bool)
    requires forall i, j | 0 <= i < j < |s| :: rank(s[i]) <= rank(s[j])
    ensures Filter(Insert(x, s, rank), keep) ==
            if keep(x) then Insert(x, Filter(s, keep), rank) else Filter(s, keep)
  {
    hide Filter;
    if s != [] && rank(x) > rank(s[0]) {
      var y, rest := s[0], Filter(s[1..], keep);
      InsertFilter(x, s[1..], rank, keep);
      FilterHead(y, Insert(x, s[1..], rank), keep);
      FilterHead(y, s[1..], keep);
      assert s == [y] + s[1..];
      if keep(y) { assert ([y] + rest)[1..] == rest; } else { assert [] + rest == rest; }
    } else {
      FilterHead(x, s, keep);
      var kept := Filter(s, keep);
      assert [] + kept == kept;
      if kept != [] { FilterMembers(s, keep, kept[0]); }
    }
  }

  lemma {:induction false} SortFilter<T(!new)>(s: seq<T>, rank: T -> int, keep: T -> bool)
    ensures Filter(Sort(s, rank), keep) == Sort(Filter(s, keep), rank)
  {
    if s != [] {
      var rest := Sort(s[1..], rank);
      SortFilter(s[1..], rank, keep);
      SortRefines(s[1..], rank, (a, b) => true);
      assert forall i, j | 0 <= i < j < |rest| :: ByRank<T>(rank, (a, b) => true)(rest[i], rest[j]);
      InsertFilter(s[0], rest, rank, keep);
      var kept := Filter(s, keep);
      if keep(s[0]) { assert kept[1..] == Filter(s[1..], keep); } else { assert kept == Filter(s[1..], keep); }
    }
  }

  // ---- mapping ----------------------------------------------------------------------------------

  function Map<T, U>(s: seq<T>, f: T ~> U): (r: seq<U>)
    requires forall x | x in s :: f.requires(x)
    reads set x, o | x in s && o in f.reads(x) :: o
    ensures |r| == |s| && forall i | 0 <= i < |s| :: r[i] == f(s[i])
  {
    if s == [] then [] else [f(s[0])] + Map(s[1..], f)
  }

  lemma {:induction false} InsertMap<T, U>(x: T, s: seq<T>, f: T ~> U, rank: T -> int, rank': U -> int)
    requires f.requires(x) && rank'(f(x)) == rank(x)
    requires forall y | y in s :: f.requires(y) && rank'(f(y)) == rank(y)
    ensures forall y | y in Insert(x, s, rank) :: f.requires(y) && rank'(f(y)) == rank(y)
    ensures Map(Insert(x, s, rank), f) == Insert(f(x), Map(s, f), rank')
  {
    if s != [] {
      assert s[0] in s && Map(s, f)[1..] == Map(s[1..], f);
      if rank(x) > rank(s[0]) {
        InsertMap(x, s[1..], f, rank, rank');
        assert Insert(x, s, rank)[1..] == Insert(x, s[1..], rank);
      } else {
        assert ([x] + s)[1..] == s;
      }
    }
  }

  // Sorting looks at the ranks only, so it commutes with any change that keeps them.
  lemma {:induction false} SortMap<T, U>(s: seq<T>, f: T ~> U, rank: T -> int, rank': U -> int)
    requires forall y | y in s :: f.requires(y) && rank'(f(y)) == rank(y)
    ensures forall y | y in Sort(s, rank) :: f.requires(y) && rank'(f(y)) == rank(y)
    ensures Map(Sort(s, rank), f) == Sort(Map(s, f), rank')
  {
    if s != [] {
      SortMap(s[1..], f, rank, rank');
      InsertMap(s[0], Sort(s[1..], rank), f, rank, rank');
      assert Map(s, f)[1..] == Map(s[1..], f);
    }
  }

  lemma {:induction false} FilterMap<T, U>(s: seq<T>, f: T ~> U, keep: T -> bool, keep': U -> bool)
    requires forall y | y in s :: f.requires(y) && keep'(f(y)) == keep(y)
    ensures forall y | y in Filter(s, keep) :: y in s
    ensures Map(Filter(s, keep), f) == Filter(Map(s, f), keep')
  {
    if s != [] {
      FilterMap(s[1..], f, keep, keep');
      assert Map(s, f)[1..] == Map(s[1..], f);
      assert s[0] in s;
      var rest := Filter(s[1..], keep);
      if keep(s[0]) {
        assert ([s[0]] + rest)[1..] == rest;
      } else {
        assert [] + rest == rest;
      }
    }
  }

  lemma MapConcat<T, U>(s: seq<T>, t: seq<T>, f: T ~> U)
    requires forall y | y in s + t :: f.requires(y)
    ensures Map(s + t, f) == Map(s, f) + Map(t, f)
  {
    assert forall i | 0 <= i < |s| :: s[i] in s + t;
    assert forall i | 0 <= i < |t| :: t[i] in s + t;
  }
}
