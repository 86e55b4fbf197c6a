/** A stable sort by a total preorder, standing for Python's sorted(). */
module Sorting {
  import opened Common

  ghost predicate TotalPreorder<T(!new)>(leq: (T, T) -> bool) {
    && (forall x, y :: leq(x, y) || leq(y, x))
    && (forall x, y, z :: leq(x, y) && leq(y, z) ==> leq(x, z))
  }

  ghost predicate SortedBy<T>(leq: (T, T) -> bool, s: seq<T>) {
    forall i, j :: 0 <= i < j < |s| ==> leq(s[i], s[j])
  }

  /** Put x behind every element it does not have to precede, so that equal elements keep their order. */
  function Insert<T>(leq: (T, T) -> bool, s: seq<T>, x: T): seq<T> {
    if s == [] || leq(Last(s), x) then s + [x] else Insert(leq, s[..|s| - 1], x) + [Last(s)]
  }

  function Sort<T>(leq: (T, T) -> bool, s: seq<T>): seq<T> {
    if s == [] then [] else Insert(leq, Sort(leq, s[..|s| - 1]), Last(s))
  }

  lemma {:induction false} InsertPermutes<T>(leq: (T, T) -> bool, s: seq<T>, x: T)
    ensures multiset(Insert(leq, s, x)) == multiset(s) + multiset{x}
  {
    if s == [] || leq(Last(s), x) {
    } else {
      InsertPermutes(leq, s[..|s| - 1], x);
      assert s == s[..|s| - 1] + [Last(s)];
    }
  }

  lemma {:induction false} SortPermutes<T>(leq: (T, T) -> bool, s: seq<T>)
    ensures multiset(Sort(leq, s)) == multiset(s)
  {
    if s == [] {
    } else {
      SortPermutes(leq, s[..|s| - 1]);
      InsertPermutes(leq, Sort(leq, s[..|s| - 1]), Last(s));
      assert s == s[..|s| - 1] + [Last(s)];
    }
  }

  lemma {:induction false} InsertSorted<T(!new)>(leq: (T, T) -> bool, s: seq<T>, x: T)
    requires TotalPreorder(leq) && SortedBy(leq, s)
    ensures SortedBy(leq, Insert(leq, s, x))
  {
    if s == [] || leq(Last(s), x) {
    } else {
      var front := s[..|s| - 1];
      InsertSorted(leq, front, x);
      InsertPermutes(leq, front, x);
      var t := Insert(leq, front, x);
      forall i | 0 <= i < |t| ensures leq(t[i], Last(s)) {
        assert t[i] in multiset(t);
      }
    }
  }

  lemma {:induction false} SortSorted<T(!new)>(leq: (T, T) -> bool, s: seq<T>)
    requires TotalPreorder(leq)
    ensures SortedBy(leq, Sort(leq, s))
  {
    if s == [] {
    } else {
      SortSorted(leq, s[..|s| - 1]);
      InsertSorted(leq, Sort(leq, s[..|s| - 1]), Last(s));
    }
  }

  /** What a caller needs of a sort: the same elements, as often as before, in order. */
  lemma SortSpec<T(!new)>(leq: (T, T) -> bool, s: seq<T>)
    requires TotalPreorder(leq)
    ensures SortedBy(leq, Sort(leq, s)) && |Sort(leq, s)| == |s|
    ensures forall x :: x in Sort(leq, s) <==> x in s
    ensures Distinct(s) ==> Distinct(Sort(leq, s))
  {
    SortSorted(leq, s);
    SortPermutes(leq, s);
    var t := Sort(leq, s);
    assert |multiset(t)| == |t| && |multiset(s)| == |s|;
    forall x ensures x in t <==> x in s {
      assert x in t <==> x in multiset(t);
      assert x in s <==> x in multiset(s);
    }
    if Distinct(s) {
      DistinctIffOnce(s);
      DistinctIffOnce(t);
    }
  }

  lemma {:induction false} DistinctIffOnce<T(!new)>(s: seq<T>)
    ensures Distinct(s) <==> forall x :: multiset(s)[x] <= 1
  {
    if s == [] {
    } else {
      var front := s[..|s| - 1];
      assert s == front + [Last(s)];
      DistinctIffOnce(front);
      if Distinct(s) {
        assert Last(s) !in front;
        assert Last(s) !in multiset(front);
      } else {
        var i, j :| 0 <= i < j < |s| && s[i] == s[j];
        if j == |s| - 1 {
          assert front[i] in multiset(front);
          assert multiset(s)[s[j]] >= 2;
        } else {
          assert front[i] == front[j];
          var x :| multiset(front)[x] > 1;
          assert multiset(s)[x] > 1;
        }
      }
    }
  }

  lemma HasElement<T>(s: seq<T>)
    ensures s != [] ==> exists x :: x in s
  {
    if s != [] {
      assert s[0] in s;
    }
  }

  /** Distinct elements have only one order when no two of them tie. */
  lemma {:induction false} SortedUnique<T(!new)>(leq: (T, T) -> bool, s: seq<T>, t: seq<T>)
    requires SortedBy(leq, s) && SortedBy(leq, t) && Distinct(s) && Distinct(t)
    requires forall x :: x in s <==> x in t
    requires forall x, y :: x in s && y in s && leq(x, y) && leq(y, x) ==> x == y
    ensures s == t
  {
    HasElement(s);
    HasElement(t);
    if s == [] {
    } else {
      assert s[0] in t;
      assert t[0] in s;
      assert s[0] == t[0];
      forall x ensures x in s[1..] <==> x in t[1..] {
        assert x in s <==> x == s[0] || x in s[1..];
        assert x in t <==> x == t[0] || x in t[1..];
        assert s[0] !in s[1..] && t[0] !in t[1..];
      }
      SortedUnique(leq, s[1..], t[1..]);
      assert s == [s[0]] + s[1..] && t == [t[0]] + t[1..];
    }
  }

  // ---------------------------------------------------------------------------------------------
  // Stability

  function Filter<T>(p: T -> bool, s: seq<T>): seq<T> {
    if s == [] then [] else Filter(p, s[..|s| - 1]) + if p(Last(s)) then [Last(s)] else []
  }

  lemma FilterSnoc<T>(p: T -> bool, s: seq<T>, x: T)
    ensures Filter(p, s + [x]) == Filter(p, s) + if p(x) then [x] else []
  {
    assert (s + [x])[..|s|] == s;
  }

  lemma {:induction false} FilterConcat<T>(p: T -> bool, s: seq<T>, t: seq<T>)
    ensures Filter(p, s + t) == Filter(p, s) + Filter(p, t)
  {
    if t == [] {
      assert s + t == s;
    } else {
      FilterConcat(p, s, t[..|t| - 1]);
      assert s + t == s + t[..|t| - 1] + [Last(t)];
      FilterSnoc(p, s + t[..|t| - 1], Last(t));
    }
  }

  /** Among elements that tie with one another, the inserted one comes last. */
  lemma {:induction false} InsertStable<T(!new)>(leq: (T, T) -> bool, tied: T -> bool, s: seq<T>, x: T)
    requires forall a, b :: tied(a) && tied(b) ==> leq(a, b)
    ensures Filter(tied, Insert(leq, s, x)) == Filter(tied, s + [x])
  {
    FilterSnoc(tied, s, x);
    if s == [] || leq(Last(s), x) {
    } else {
      var front := s[..|s| - 1];
      InsertStable(leq, tied, front, x);
      FilterSnoc(tied, front, x);
      FilterSnoc(tied, Insert(leq, front, x), Last(s));
    }
  }

  /** Elements that tie with one another keep their order. */
  lemma {:induction false} SortStable<T(!new)>(leq: (T, T) -> bool, tied: T -> bool, s: seq<T>)
    requires forall a, b :: tied(a) && tied(b) ==> leq(a, b)
    ensures Filter(tied, Sort(leq, s)) == Filter(tied, s)
  {
    if s == [] {
    } else {
      var front := s[..|s| - 1];
      SortStable(leq, tied, front);
      InsertStable(leq, tied, Sort(leq, front), Last(s));
      FilterSnoc(tied, Sort(leq, front), Last(s));
    }
  }

  /** Filtering keeps what it keeps in order. */
  lemma {:induction false} FilterKeepsOrder<T>(p: T -> bool, s: seq<T>, i: nat, j: nat) returns (k: nat, l: nat)
    requires i < j < |Filter(p, s)|
    ensures k < l < |s| && s[k] == Filter(p, s)[i] && s[l] == Filter(p, s)[j]
  {
    var front := s[..|s| - 1];
    if j < |Filter(p, front)| {
      k, l := FilterKeepsOrder(p, front, i, j);
    } else {
      k := FilterTakes(p, front, i);
      l := |s| - 1;
    }
  }

  /** Two elements that tie and come first keep their order in the sorted whole. */
  lemma FirstTwoStay<T(!new)>(leq: (T, T) -> bool, tied: T -> bool, m: T, n: T, more: seq<T>) returns (k: nat, l: nat)
    requires forall a, b :: tied(a) && tied(b) ==> leq(a, b)
    requires tied(m) && tied(n)
    ensures var t := Sort(leq, [m, n] + more); k < l < |t| && t[k] == m && t[l] == n
  {
    FilterConcat(tied, [m, n], more);
    assert [m, n] == [] + [m] + [n];
    FilterSnoc(tied, [] + [m], n);
    FilterSnoc(tied, [], m);
    SortStable(leq, tied, [m, n] + more);
    k, l := FilterKeepsOrder(tied, Sort(leq, [m, n] + more), 0, 1);
  }

  lemma {:induction false} FilterTakes<T>(p: T -> bool, s: seq<T>, i: nat) returns (k: nat)
    requires i < |Filter(p, s)|
    ensures k < |s| && s[k] == Filter(p, s)[i]
  {
    var front := s[..|s| - 1];
    if i < |Filter(p, front)| {
      k := FilterTakes(p, front, i);
    } else {
      k := |s| - 1;
    }
  }
}
