/** Sorting under a total order whose only ties are equal elements. Every sorting
    algorithm then gives the same result, so `sort.Strings` and `sort.Slice` are
    the one function `Sort`. */
module Sorting {
  import opened Strings

  ghost predicate TotalOrder<T(!new)>(le: (T, T) -> bool) {
    && (forall x, y :: le(x, y) || le(y, x))
    && (forall x, y :: le(x, y) && le(y, x) ==> x == y)
    && (forall x, y, z :: le(x, y) && le(y, z) ==> le(x, z))
  }

  ghost predicate SortedBy<T>(s: seq<T>, le: (T, T) -> bool) {
    forall i, j :: 0 <= i < j < |s| ==> le(s[i], s[j])
  }

  function Insert<T>(x: T, s: seq<T>, le: (T, T) -> bool): seq<T> {
    if s == [] || le(x, s[0]) then [x] + s else [s[0]] + Insert(x, s[1..], le)
  }

  function Sort<T>(s: seq<T>, le: (T, T) -> bool): seq<T> {
    if s == [] then [] else Insert(s[0], Sort(s[1..], le), le)
  }

  lemma InsertInFront<T(!new)>(x: T, s: seq<T>, le: (T, T) -> bool)
    requires TotalOrder(le) && SortedBy(s, le)
    ensures s == [] || le(x, s[0]) ==> SortedBy([x] + s, le)
    ensures s != [] && !le(x, s[0]) ==> le(s[0], x)
  {
    if s != [] && le(x, s[0]) {
      forall i | 0 <= i < |s| ensures le(x, s[i]) { assert le(s[0], s[0]); }
    }
  }

  lemma {:induction false} InsertPermutes<T>(x: T, s: seq<T>, le: (T, T) -> bool)
    ensures multiset(Insert(x, s, le)) == multiset(s) + multiset{x}
  {
    if s != [] && !le(x, s[0]) {
      InsertPermutes(x, s[1..], le);
      assert s == [s[0]] + s[1..];
    }
  }

  lemma {:induction false} InsertKeepsOrder<T(!new)>(x: T, s: seq<T>, le: (T, T) -> bool)
    requires TotalOrder(le) && SortedBy(s, le)
    ensures SortedBy(Insert(x, s, le), le)
    ensures multiset(Insert(x, s, le)) == multiset(s) + multiset{x}
  {
    InsertPermutes(x, s, le);
    InsertInFront(x, s, le);
    hide TotalOrder;
    if s != [] && !le(x, s[0]) {
      InsertKeepsOrder(x, s[1..], le);
      InsertPermutes(x, s[1..], le);
      var rest := Insert(x, s[1..], le);
      forall i | 0 <= i < |rest| ensures le(s[0], rest[i]) {
        assert rest[i] in multiset(s[1..]) + multiset{x};
      }
    }
  }

  lemma {:induction false} SortSorts<T(!new)>(s: seq<T>, le: (T, T) -> bool)
    requires TotalOrder(le)
    ensures SortedBy(Sort(s, le), le)
    ensures multiset(Sort(s, le)) == multiset(s)
  {
    if s != [] {
      SortSorts(s[1..], le);
      InsertKeepsOrder(s[0], Sort(s[1..], le), le);
      assert s == [s[0]] + s[1..];
    }
  }

  lemma LeastComesFirst<T(!new)>(s: seq<T>, t: seq<T>, le: (T, T) -> bool)
    requires TotalOrder(le) && SortedBy(s, le) && SortedBy(t, le)
    requires s != [] && t != [] && s[0] in t && t[0] in s
    ensures s[0] == t[0]
  {
    assert le(s[0], s[0]) && le(t[0], t[0]);
    assert le(s[0], t[0]) && le(t[0], s[0]);
  }

  lemma HeadAndTail<T>(s: seq<T>)
    requires s != []
    ensures s == [s[0]] + s[1..] && s[0] in multiset(s) && multiset(s[1..]) == multiset(s) - multiset{s[0]}
  {
    assert s == [s[0]] + s[1..];
  }

  /** There is one sorted arrangement of a multiset. */
  lemma {:induction false} SortedIsUnique<T(!new)>(s: seq<T>, t: seq<T>, le: (T, T) -> bool)
    requires TotalOrder(le) && SortedBy(s, le) && SortedBy(t, le)
    requires multiset(s) == multiset(t)
    ensures s == t
  {
    hide TotalOrder;
    assert |s| == |multiset(s)| && |t| == |multiset(t)|;
    if s != [] {
      HeadAndTail(s);
      HeadAndTail(t);
      LeastComesFirst(s, t, le);
      SortedIsUnique(s[1..], t[1..], le);
    }
  }

  /** The result depends on the elements only, not on their order. */
  lemma SortIgnoresOrder<T(!new)>(s: seq<T>, t: seq<T>, le: (T, T) -> bool)
    requires TotalOrder(le) && multiset(s) == multiset(t)
    ensures Sort(s, le) == Sort(t, le)
  {
    SortSorts(s, le);
    SortSorts(t, le);
    SortedIsUnique(Sort(s, le), Sort(t, le), le);
  }

  lemma SortOfSorted<T(!new)>(s: seq<T>, le: (T, T) -> bool)
    requires TotalOrder(le) && SortedBy(s, le)
    ensures Sort(s, le) == s
  {
    SortSorts(s, le);
    SortedIsUnique(Sort(s, le), s, le);
  }

  // ---------------------------------------------------------------------------
  // Rearranging and mapping
  // ---------------------------------------------------------------------------

  function Mapped<A, B>(s: seq<A>, f: A -> B): (r: seq<B>)
    ensures |r| == |s|
    ensures forall i :: 0 <= i < |s| ==> r[i] == f(s[i])
  {
    if s == [] then [] else [f(s[0])] + Mapped(s[1..], f)
  }

  function Without<A>(s: seq<A>, j: nat): seq<A>
    requires j < |s|
  {
    s[..j] + s[j + 1..]
  }

  lemma WithoutOne<A>(s: seq<A>, j: nat)
    requires j < |s|
    ensures multiset(Without(s, j)) == multiset(s) - multiset{s[j]}
    ensures multiset(s) == multiset(Without(s, j)) + multiset{s[j]}
  {
    assert s == s[..j] + [s[j]] + s[j + 1..];
  }

  lemma MappedWithout<A, B>(s: seq<A>, f: A -> B, j: nat)
    requires j < |s|
    ensures Mapped(Without(s, j), f) == Without(Mapped(s, f), j)
  {
    hide Mapped;
    var a, b := Mapped(Without(s, j), f), Without(Mapped(s, f), j);
    assert |a| == |b| == |s| - 1;
    forall i | 0 <= i < |a| ensures a[i] == b[i] {
      assert Without(s, j)[i] == s[if i < j then i else i + 1];
    }
  }

  /** Mapping the same elements in another order gives the same elements. */
  lemma {:induction false} MappedRearranged<A, B>(s: seq<A>, t: seq<A>, f: A -> B)
    requires multiset(s) == multiset(t)
    ensures multiset(Mapped(s, f)) == multiset(Mapped(t, f))
    decreases |s|
  {
    hide Mapped, Without;
    assert |s| == |multiset(s)| && |t| == |multiset(t)|;
    if s == [] {
      assert s == t;
    } else {
      assert s[0] in multiset(t);
      var j :| 0 <= j < |t| && t[j] == s[0];
      WithoutOne(s, 0);
      WithoutOne(t, j);
      assert |Without(s, 0)| == |multiset(Without(s, 0))|;
      MappedRearranged(Without(s, 0), Without(t, j), f);
      MappedWithout(s, f, 0);
      MappedWithout(t, f, j);
      WithoutOne(Mapped(s, f), 0);
      WithoutOne(Mapped(t, f), j);
      assert Mapped(s, f)[0] == Mapped(t, f)[j];
    }
  }

  lemma StringOrderIsTotal()
    ensures TotalOrder(AtMost)
  {
    forall x, y ensures AtMost(x, y) || AtMost(y, x) { LessTotal(x, y); }
    forall x, y | AtMost(x, y) && AtMost(y, x) ensures x == y {
      if x != y { LessAsymmetric(x, y); }
    }
    forall x, y, z | AtMost(x, y) && AtMost(y, z) ensures AtMost(x, z) {
      if x != y && y != z { LessTransitive(x, y, z); }
    }
  }
}
