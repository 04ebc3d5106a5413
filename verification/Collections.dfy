/** Facts about sets, maps and sorting that no one component owns. */
module Collections {
  import opened Wrappers

  lemma {:induction false} SubsetIsNoLarger<T>(a: set<T>, b: set<T>)
    requires a <= b
    ensures |a| <= |b| && (|a| == |b| <==> a == b)
  {
    if x :| x in a {
      SubsetIsNoLarger(a - {x}, b - {x});
      assert a == a - {x} + {x} && b == b - {x} + {x};
    }
  }

  // ----- insertion sort, by any order -----

  function Insert<A>(s: seq<A>, x: A, le: (A, A) -> bool): seq<A> {
    if s == [] then [x]
    else if le(s[|s| - 1], x) then s + [x]
    else Insert(s[..|s| - 1], x, le) + [s[|s| - 1]]
  }

  function Sort<A>(s: seq<A>, le: (A, A) -> bool): seq<A> {
    if s == [] then [] else Insert(Sort(s[..|s| - 1], le), s[|s| - 1], le)
  }

  ghost predicate Ordered<A>(s: seq<A>, le: (A, A) -> bool) { forall i, j :: 0 <= i < j < |s| ==> le(s[i], s[j]) }

  ghost predicate Transitive<A(!new)>(le: (A, A) -> bool) { forall x, y, z :: le(x, y) && le(y, z) ==> le(x, z) }

  ghost predicate AllBelow<A>(s: seq<A>, x: A, le: (A, A) -> bool) { forall i :: 0 <= i < |s| ==> le(s[i], x) }

  lemma MultisetSnoc<A>(s: seq<A>)
    requires s != []
    ensures multiset(s) == multiset(s[..|s| - 1]) + multiset{s[|s| - 1]}
  {
    assert s == s[..|s| - 1] + [s[|s| - 1]];
  }

  lemma {:induction false} InsertKeepsElements<A>(s: seq<A>, x: A, le: (A, A) -> bool)
    ensures multiset(Insert(s, x, le)) == multiset(s) + multiset{x}
  {
    if s != [] {
      MultisetSnoc(s);
      InsertKeepsElements(s[..|s| - 1], x, le);
    }
  }

  lemma {:induction false} InsertStaysBelow<A>(s: seq<A>, x: A, y: A, le: (A, A) -> bool)
    requires AllBelow(s, y, le) && le(x, y)
    ensures AllBelow(Insert(s, x, le), y, le)
  {
    if s != [] { InsertStaysBelow(s[..|s| - 1], x, y, le); }
  }

  /** Inserting into an ordered sequence keeps it ordered, if the new element compares with every old one. */
  lemma {:induction false} InsertOrders<A(!new)>(s: seq<A>, x: A, le: (A, A) -> bool)
    requires Ordered(s, le) && Transitive(le)
    requires forall y :: y in s ==> le(y, x) || le(x, y)
    ensures Ordered(Insert(s, x, le), le)
  {
    if s != [] {
      var init, last := s[..|s| - 1], s[|s| - 1];
      assert last in s && forall y :: y in init ==> y in s;
      if !le(last, x) {
        InsertOrders(init, x, le);
        InsertStaysBelow(init, x, last, le);
      }
    }
  }

  lemma {:induction false} SortKeepsElements<A>(s: seq<A>, le: (A, A) -> bool)
    ensures multiset(Sort(s, le)) == multiset(s)
  {
    if s != [] {
      MultisetSnoc(s);
      SortKeepsElements(s[..|s| - 1], le);
      InsertKeepsElements(Sort(s[..|s| - 1], le), s[|s| - 1], le);
    }
  }

  lemma SortHas<A>(s: seq<A>, le: (A, A) -> bool)
    ensures forall x :: x in Sort(s, le) <==> x in s
  {
    SortKeepsElements(s, le);
    forall x ensures x in Sort(s, le) <==> x in s {
      assert x in Sort(s, le) <==> x in multiset(Sort(s, le));
      assert x in s <==> x in multiset(s);
    }
  }

  /** Sorting orders whatever the order can compare. */
  lemma {:induction false} SortOrders<A(!new)>(s: seq<A>, le: (A, A) -> bool)
    requires Transitive(le) && forall i, j :: 0 <= i < j < |s| ==> le(s[i], s[j]) || le(s[j], s[i])
    ensures Ordered(Sort(s, le), le)
  {
    if s != [] {
      var init, last := s[..|s| - 1], s[|s| - 1];
      SortOrders(init, le);
      SortHas(init, le);
      forall y | y in Sort(init, le) ensures le(y, last) || le(last, y) {
        var i :| 0 <= i < |init| && init[i] == y;
        assert s[i] == y;
      }
      InsertOrders(Sort(init, le), last, le);
    }
  }

  // ----- filtering and mapping at once -----

  function FilterMap<A, B>(s: seq<A>, h: A -> Option<B>): seq<B> {
    if s == [] then []
    else FilterMap(s[..|s| - 1], h) + (match h(s[|s| - 1]) case None => [] case Some(b) => [b])
  }

  lemma {:induction false} FilterMapConcat<A, B>(a: seq<A>, b: seq<A>, h: A -> Option<B>)
    ensures FilterMap(a + b, h) == FilterMap(a, h) + FilterMap(b, h)
  {
    if b == [] {
      assert a + b == a;
    } else {
      var init, last := b[..|b| - 1], b[|b| - 1];
      FilterMapConcat(a, init, h);
      assert (a + b)[..|a + b| - 1] == a + init && (a + b)[|a + b| - 1] == last;
    }
  }

  lemma {:induction false} FilterMapHas<A, B>(s: seq<A>, h: A -> Option<B>)
    ensures forall b :: b in FilterMap(s, h) <==> exists a :: a in s && h(a) == Some(b)
  {
    if s != [] {
      FilterMapHas(s[..|s| - 1], h);
      assert s == s[..|s| - 1] + [s[|s| - 1]];
    }
  }

  /** Two passes are one. */
  lemma {:induction false} FilterMapTwice<A, B, C>(s: seq<A>, f: A -> Option<B>, g: B -> Option<C>,
                                                  both: A -> Option<C>)
    requires forall a :: a in s ==> both(a) == match f(a) case None => None case Some(b) => g(b)
    ensures FilterMap(FilterMap(s, f), g) == FilterMap(s, both)
  {
    if s != [] {
      var init, last := s[..|s| - 1], s[|s| - 1];
      assert last in s && both(last) == match f(last) case None => None case Some(b) => g(b);
      FilterMapTwice(init, f, g, both);
      if f(last).None? {
        assert FilterMap(s, f) == FilterMap(init, f);
      } else {
        var before, b := FilterMap(init, f), f(last).value;
        FilterMapConcat(before, [b], g);
        assert [b][..0] == [] && FilterMap([b], g) == match both(last) case None => [] case Some(c) => [c];
      }
    }
  }

  lemma {:induction false} FilterMapSame<A, B>(s: seq<A>, f: A -> Option<B>, g: A -> Option<B>)
    requires forall a :: a in s ==> f(a) == g(a)
    ensures FilterMap(s, f) == FilterMap(s, g)
  {
    if s != [] { FilterMapSame(s[..|s| - 1], f, g); }
  }
}
