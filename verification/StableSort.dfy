// Stable sorting by a comparator, and why its result is a normal form.

module StableSort {

  function Insert<T>(cmp: (T, T) -> int, s: seq<T>, x: T): seq<T> {
    if s == [] then [x]
    else if cmp(s[|s| - 1], x) <= 0 then s + [x]
    else Insert(cmp, s[..|s| - 1], x) + [s[|s| - 1]]
  }

  /** The library sort: stable, elements comparing equal keep their order. */
  function Sort<T>(cmp: (T, T) -> int, s: seq<T>): seq<T> {
    if s == [] then [] else Insert(cmp, Sort(cmp, s[..|s| - 1]), s[|s| - 1])
  }

  /** The comparator orders these elements: reflexive, sign-symmetric, transitive. */
  ghost predicate Consistent<T(!new)>(cmp: (T, T) -> int, dom: T -> bool) {
    && (forall x :: dom(x) ==> cmp(x, x) == 0)
    && (forall x, y :: dom(x) && dom(y) ==> (cmp(x, y) <= 0 <==> cmp(y, x) >= 0))
    && (forall x, y, z :: dom(x) && dom(y) && dom(z) && cmp(x, y) <= 0 && cmp(y, z) <= 0 ==> cmp(x, z) <= 0)
  }

  ghost predicate Within<T(!new)>(dom: T -> bool, s: seq<T>) { forall x :: x in s ==> dom(x) }

  ghost predicate Sorted<T>(cmp: (T, T) -> int, s: seq<T>) {
    forall i, j :: 0 <= i < j < |s| ==> cmp(s[i], s[j]) <= 0
  }

  /** The elements comparing equal to `r`, in order. */
  function Class<T>(cmp: (T, T) -> int, s: seq<T>, r: T): seq<T> {
    if s == [] then [] else (if cmp(s[0], r) == 0 then [s[0]] else []) + Class(cmp, s[1..], r)
  }

  lemma {:induction false} ClassAppend<T>(cmp: (T, T) -> int, a: seq<T>, b: seq<T>, r: T)
    ensures Class(cmp, a + b, r) == Class(cmp, a, r) + Class(cmp, b, r)
  {
    if a == [] {
      assert a + b == b;
    } else {
      assert (a + b)[0] == a[0] && (a + b)[1..] == a[1..] + b;
      ClassAppend(cmp, a[1..], b, r);
    }
  }

  lemma ClassSnoc<T>(cmp: (T, T) -> int, s: seq<T>, x: T, r: T)
    ensures Class(cmp, s + [x], r) == Class(cmp, s, r) + (if cmp(x, r) == 0 then [x] else [])
  {
    ClassAppend(cmp, s, [x], r);
    assert Class(cmp, [x][1..], r) == [];
  }

  lemma FrontLast<T>(s: seq<T>)
    requires s != []
    ensures s == s[..|s| - 1] + [s[|s| - 1]]
  {
  }

  lemma {:induction false} InsertPermutes<T>(cmp: (T, T) -> int, s: seq<T>, x: T)
    ensures multiset(Insert(cmp, s, x)) == multiset(s) + multiset{x}
  {
    if s != [] && cmp(s[|s| - 1], x) > 0 {
      InsertPermutes(cmp, s[..|s| - 1], x);
      assert s == s[..|s| - 1] + [s[|s| - 1]];
    }
  }

  lemma SameElements<T>(a: seq<T>, b: seq<T>)
    requires multiset(a) == multiset(b)
    ensures forall x :: x in a <==> x in b
  {
    forall x ensures x in a <==> x in b {
      assert x in a <==> x in multiset(a);
      assert x in b <==> x in multiset(b);
    }
  }

  lemma {:induction false} SortPermutes<T>(cmp: (T, T) -> int, s: seq<T>)
    ensures multiset(Sort(cmp, s)) == multiset(s)
    ensures forall x :: x in Sort(cmp, s) <==> x in s
  {
    if s != [] {
      var front, last := s[..|s| - 1], s[|s| - 1];
      SortPermutes(cmp, front);
      InsertPermutes(cmp, Sort(cmp, front), last);
      assert multiset(s) == multiset(front) + multiset{last} by { FrontLast(s); }
    }
    SameElements(Sort(cmp, s), s);
  }

  lemma {:induction false} InsertSorts<T(!new)>(cmp: (T, T) -> int, dom: T -> bool, s: seq<T>, x: T)
    requires Consistent(cmp, dom) && Within(dom, s) && dom(x) && Sorted(cmp, s)
    ensures Sorted(cmp, Insert(cmp, s, x))
  {
    if s != [] {
      var front, last := s[..|s| - 1], s[|s| - 1];
      if cmp(last, x) <= 0 {
        forall i | 0 <= i < |s| ensures cmp(s[i], x) <= 0 {
          assert dom(s[i]) && dom(last) && cmp(s[i], last) <= 0;
        }
      } else {
        InsertSorts(cmp, dom, front, x);
        forall y | y in Insert(cmp, front, x) ensures cmp(y, last) <= 0 {
          InsertedElement(cmp, front, x, y);
          if y in front {
            var k :| 0 <= k < |front| && front[k] == y;
            assert cmp(s[k], s[|s| - 1]) <= 0;
          }
        }
      }
    }
  }

  lemma {:induction false} InsertedElement<T>(cmp: (T, T) -> int, s: seq<T>, x: T, y: T)
    requires y in Insert(cmp, s, x)
    ensures y in s || y == x
  {
    if s != [] && cmp(s[|s| - 1], x) > 0 && y != s[|s| - 1] {
      assert y in Insert(cmp, s[..|s| - 1], x);
      InsertedElement(cmp, s[..|s| - 1], x, y);
    }
  }

  lemma SwapTails<T>(a: seq<T>, x: seq<T>, y: seq<T>)
    requires x == [] || y == []
    ensures (a + x) + y == (a + y) + x
  {
  }

  /** One element of the class moves past another: no class has both. */
  lemma DifferentClasses<T(!new)>(cmp: (T, T) -> int, dom: T -> bool, x: T, y: T, r: T)
    requires Consistent(cmp, dom) && dom(x) && dom(y) && dom(r) && cmp(x, y) > 0
    ensures cmp(x, r) != 0 || cmp(y, r) != 0
  {
  }

  lemma InsertBefore<T>(cmp: (T, T) -> int, front: seq<T>, last: T, x: T, r: T)
    requires cmp(last, r) != 0 || cmp(x, r) != 0
    requires Class(cmp, Insert(cmp, front, x), r) == Class(cmp, front, r) + (if cmp(x, r) == 0 then [x] else [])
    ensures Class(cmp, Insert(cmp, front, x) + [last], r) == Class(cmp, front + [last], r) +
      (if cmp(x, r) == 0 then [x] else [])
  {
    ClassSnoc(cmp, Insert(cmp, front, x), last, r);
    ClassSnoc(cmp, front, last, r);
    SwapTails(Class(cmp, front, r), if cmp(x, r) == 0 then [x] else [], if cmp(last, r) == 0 then [last] else []);
  }

  /** Insertion goes after everything equal, so no class is reordered. */
  lemma {:induction false} InsertStable<T(!new)>(cmp: (T, T) -> int, dom: T -> bool, s: seq<T>, x: T, r: T)
    requires Consistent(cmp, dom) && Within(dom, s) && dom(x) && dom(r)
    ensures Class(cmp, Insert(cmp, s, x), r) == Class(cmp, s, r) + (if cmp(x, r) == 0 then [x] else [])
  {
    if s == [] || cmp(s[|s| - 1], x) <= 0 {
      ClassSnoc(cmp, s, x, r);
      assert [] + [x] == [x];
    } else {
      var front, last := s[..|s| - 1], s[|s| - 1];
      InsertStable(cmp, dom, front, x, r);
      DifferentClasses(cmp, dom, last, x, r);
      InsertBefore(cmp, front, last, x, r);
      FrontLast(s);
    }
  }

  lemma {:induction false} SortIsSorted<T(!new)>(cmp: (T, T) -> int, dom: T -> bool, s: seq<T>)
    requires Consistent(cmp, dom) && Within(dom, s)
    ensures Sorted(cmp, Sort(cmp, s)) && Within(dom, Sort(cmp, s))
  {
    SortPermutes(cmp, s);
    if s != [] {
      var front := s[..|s| - 1];
      SortIsSorted(cmp, dom, front);
      InsertSorts(cmp, dom, Sort(cmp, front), s[|s| - 1]);
    }
  }

  lemma {:induction false} SortKeepsClass<T(!new)>(cmp: (T, T) -> int, dom: T -> bool, s: seq<T>, r: T)
    requires Consistent(cmp, dom) && Within(dom, s) && dom(r)
    ensures Class(cmp, Sort(cmp, s), r) == Class(cmp, s, r)
  {
    if s != [] {
      var front, last := s[..|s| - 1], s[|s| - 1];
      SortKeepsClass(cmp, dom, front, r);
      SortIsSorted(cmp, dom, front);
      InsertStable(cmp, dom, Sort(cmp, front), last, r);
      FrontLast(s);
      ClassSnoc(cmp, front, last, r);
    }
  }

  /** The sort is sorted, a permutation, and stable. */
  lemma SortIsStableSort<T(!new)>(cmp: (T, T) -> int, dom: T -> bool, s: seq<T>)
    requires Consistent(cmp, dom) && Within(dom, s)
    ensures Sorted(cmp, Sort(cmp, s)) && Within(dom, Sort(cmp, s)) && multiset(Sort(cmp, s)) == multiset(s)
    ensures forall r :: dom(r) ==> Class(cmp, Sort(cmp, s), r) == Class(cmp, s, r)
  {
    SortPermutes(cmp, s);
    SortIsSorted(cmp, dom, s);
    forall r | dom(r) ensures Class(cmp, Sort(cmp, s), r) == Class(cmp, s, r) {
      SortKeepsClass(cmp, dom, s, r);
    }
  }

  lemma {:induction false} ClassMember<T>(cmp: (T, T) -> int, s: seq<T>, r: T)
    ensures Class(cmp, s, r) != [] ==> exists i :: 0 <= i < |s| && cmp(s[i], r) == 0
  {
    if s != [] && cmp(s[0], r) != 0 {
      ClassMember(cmp, s[1..], r);
      if Class(cmp, s, r) != [] {
        var i :| 0 <= i < |s[1..]| && cmp(s[1..][i], r) == 0;
        assert cmp(s[i + 1], r) == 0;
      }
    }
  }

  /** The head of a sorted sequence is below every class the sequence has. */
  lemma HeadBelow<T(!new)>(cmp: (T, T) -> int, dom: T -> bool, s: seq<T>, r: T)
    requires Consistent(cmp, dom) && Within(dom, s) && Sorted(cmp, s) && dom(r) && Class(cmp, s, r) != []
    ensures s != [] && cmp(s[0], r) <= 0
  {
  }

  lemma ClassTails<T>(cmp: (T, T) -> int, a: seq<T>, b: seq<T>, r: T)
    requires a != [] && b != [] && a[0] == b[0] && Class(cmp, a, r) == Class(cmp, b, r)
    ensures Class(cmp, a[1..], r) == Class(cmp, b[1..], r)
  {
    var head := if cmp(a[0], r) == 0 then [a[0]] else [];
    assert Class(cmp, a[1..], r) == Class(cmp, a, r)[|head|..];
    assert Class(cmp, b[1..], r) == Class(cmp, b, r)[|head|..];
  }

  lemma SameHead<T(!new)>(cmp: (T, T) -> int, dom: T -> bool, a: seq<T>, b: seq<T>)
    requires Consistent(cmp, dom) && Within(dom, a) && Within(dom, b) && Sorted(cmp, a) && Sorted(cmp, b) && a != []
    requires forall r :: dom(r) ==> Class(cmp, a, r) == Class(cmp, b, r)
    ensures b != [] && a[0] == b[0]
  {
    assert dom(a[0]) && Class(cmp, a, a[0])[0] == a[0];
    HeadBelow(cmp, dom, b, a[0]);
    assert dom(b[0]) && Class(cmp, b, b[0])[0] == b[0];
    HeadBelow(cmp, dom, a, b[0]);
    assert cmp(b[0], a[0]) == 0 && Class(cmp, b, a[0])[0] == b[0];
  }

  /** A sorted sequence is determined by its classes. */
  lemma {:induction false} SortedDetermined<T(!new)>(cmp: (T, T) -> int, dom: T -> bool, a: seq<T>, b: seq<T>)
    requires Consistent(cmp, dom) && Within(dom, a) && Within(dom, b) && Sorted(cmp, a) && Sorted(cmp, b)
    requires forall r :: dom(r) ==> Class(cmp, a, r) == Class(cmp, b, r)
    ensures a == b
  {
    if a == [] {
      if b != [] {
        SameHead(cmp, dom, b, a);
      }
    } else {
      SameHead(cmp, dom, a, b);
      forall r | dom(r) ensures Class(cmp, a[1..], r) == Class(cmp, b[1..], r) {
        ClassTails(cmp, a, b, r);
      }
      SortedDetermined(cmp, dom, a[1..], b[1..]);
      assert a == [a[0]] + a[1..] && b == [b[0]] + b[1..];
    }
  }

  /** Two sequences sort alike exactly when each class holds the same elements in the same order. */
  lemma SortEqualIffClassesEqual<T(!new)>(cmp: (T, T) -> int, dom: T -> bool, a: seq<T>, b: seq<T>)
    requires Consistent(cmp, dom) && Within(dom, a) && Within(dom, b)
    ensures Sort(cmp, a) == Sort(cmp, b) <==> forall r :: dom(r) ==> Class(cmp, a, r) == Class(cmp, b, r)
  {
    SortIsStableSort(cmp, dom, a);
    SortIsStableSort(cmp, dom, b);
    if forall r :: dom(r) ==> Class(cmp, a, r) == Class(cmp, b, r) {
      SortedDetermined(cmp, dom, Sort(cmp, a), Sort(cmp, b));
    } else {
      var r :| dom(r) && Class(cmp, a, r) != Class(cmp, b, r);
      assert Class(cmp, Sort(cmp, a), r) != Class(cmp, Sort(cmp, b), r);
    }
  }

  /** A sorted sequence is left as it is. */
  lemma SortOfSorted<T(!new)>(cmp: (T, T) -> int, dom: T -> bool, s: seq<T>)
    requires Consistent(cmp, dom) && Within(dom, s) && Sorted(cmp, s)
    ensures Sort(cmp, s) == s
  {
  }

  /** Sorting twice is sorting once. */
  lemma SortIdempotent<T(!new)>(cmp: (T, T) -> int, dom: T -> bool, s: seq<T>)
    requires Consistent(cmp, dom) && Within(dom, s)
    ensures Sort(cmp, Sort(cmp, s)) == Sort(cmp, s)
  {
    SortIsStableSort(cmp, dom, s);
    SortOfSorted(cmp, dom, Sort(cmp, s));
  }

  // ---- When equal keys mean equal elements ----

  ghost predicate KeysDetermine<T(!new)>(cmp: (T, T) -> int, s: seq<T>) {
    forall x, y :: x in s && y in s && cmp(x, y) == 0 ==> x == y
  }

  /** Then sorting forgets exactly the order: it is a normal form for multisets. */
  lemma SortEqualIffSameMultiset<T(!new)>(cmp: (T, T) -> int, dom: T -> bool, a: seq<T>, b: seq<T>)
    requires Consistent(cmp, dom) && Within(dom, a) && Within(dom, b) && KeysDetermine(cmp, a) && KeysDetermine(cmp, b)
    ensures Sort(cmp, a) == Sort(cmp, b) <==> multiset(a) == multiset(b)
  {
    SortPermutes(cmp, a);
    SortPermutes(cmp, b);
    if multiset(a) == multiset(b) {
      SameElements(a, b);
      assert forall x :: x in a + b ==> x in a;
      assert KeysDetermine(cmp, a + b);
      forall r | dom(r) ensures Class(cmp, a, r) == Class(cmp, b, r) {
        EqualClassFromMultiset(cmp, dom, a, b, r);
      }
      SortEqualIffClassesEqual(cmp, dom, a, b);
    }
  }

  /** So sorting any permutation of a sorted sequence restores it. */
  lemma SortRestores<T(!new)>(cmp: (T, T) -> int, dom: T -> bool, sorted: seq<T>, shuffled: seq<T>)
    requires Consistent(cmp, dom) && Within(dom, sorted) && Sorted(cmp, sorted) && KeysDetermine(cmp, sorted)
    requires multiset(shuffled) == multiset(sorted)
    ensures Sort(cmp, shuffled) == sorted
  {
    SortOfSorted(cmp, dom, sorted);
    SameElements(shuffled, sorted);
    SortEqualIffSameMultiset(cmp, dom, shuffled, sorted);
  }

  lemma {:induction false} ClassIsCopies<T>(cmp: (T, T) -> int, s: seq<T>, r: T, c: T)
    requires forall x :: x in s ==> (cmp(x, r) == 0 <==> x == c)
    ensures |Class(cmp, s, r)| == multiset(s)[c]
    ensures forall i :: 0 <= i < |Class(cmp, s, r)| ==> Class(cmp, s, r)[i] == c
  {
    if s != [] {
      ClassIsCopies(cmp, s[1..], r, c);
      assert s == [s[0]] + s[1..];
    }
  }

  lemma EqualClassFromMultiset<T(!new)>(cmp: (T, T) -> int, dom: T -> bool, a: seq<T>, b: seq<T>, r: T)
    requires Consistent(cmp, dom) && Within(dom, a) && Within(dom, b) && KeysDetermine(cmp, a + b) && dom(r)
    requires multiset(a) == multiset(b)
    ensures Class(cmp, a, r) == Class(cmp, b, r)
  {
    assert forall x :: x in a <==> x in multiset(a);
    assert forall x :: x in b <==> x in multiset(b);
    if Class(cmp, a, r) == [] && Class(cmp, b, r) == [] {
      return;
    }
    ClassMember(cmp, a, r);
    ClassMember(cmp, b, r);
    var c :| (c in a || c in b) && cmp(c, r) == 0;
    forall x | x in a || x in b ensures cmp(x, r) == 0 <==> x == c {
      assert x in a + b && c in a + b && dom(x) && dom(c);
      if cmp(x, r) == 0 {
        assert cmp(r, c) == 0 && cmp(x, c) == 0;
      }
    }
    ClassIsCopies(cmp, a, r, c);
    ClassIsCopies(cmp, b, r, c);
  }

  // ---- Comparators that are not orders ----

  /** The comparator answers consistently when asked the other way round. */
  ghost predicate SignSymmetric<T(!new)>(cmp: (T, T) -> int, dom: T -> bool) {
    forall x, y :: dom(x) && dom(y) ==> (cmp(x, y) <= 0 <==> cmp(y, x) >= 0)
  }
  ghost predicate Transitive<T(!new)>(cmp: (T, T) -> int, dom: T -> bool) {
    forall x, y, z :: dom(x) && dom(y) && dom(z) && cmp(x, y) <= 0 && cmp(y, z) <= 0 ==> cmp(x, z) <= 0
  }
  ghost predicate ZeroMeansEqual<T(!new)>(cmp: (T, T) -> int, dom: T -> bool) {
    forall x, y :: dom(x) && dom(y) && cmp(x, y) == 0 ==> x == y
  }
  ghost predicate ForgetsOrder<T(!new)>(cmp: (T, T) -> int, dom: T -> bool) {
    forall a: seq<T>, b: seq<T> :: Within(dom, a) && Within(dom, b) && multiset(a) == multiset(b) ==>
      Sort(cmp, a) == Sort(cmp, b)
  }

  /** A pair or triple whose neighbours look sorted is left as it is. */
  lemma PairStays<T>(cmp: (T, T) -> int, x: T, y: T)
    requires cmp(x, y) <= 0
    ensures Sort(cmp, [x, y]) == [x, y]
  {
    assert [x, y][..1] == [x] && [x][..0] == [];
    assert Sort(cmp, [x]) == [x];
  }
  lemma TripleStays<T>(cmp: (T, T) -> int, x: T, y: T, z: T)
    requires cmp(x, y) <= 0 && cmp(y, z) <= 0
    ensures Sort(cmp, [x, y, z]) == [x, y, z]
  {
    PairStays(cmp, x, y);
    assert [x, y, z][..2] == [x, y];
  }

  /** A tie shows: two different elements comparing equal keep the order they came in. */
  lemma TieRemembersOrder<T>(cmp: (T, T) -> int, x: T, y: T)
    requires cmp(x, y) <= 0 && cmp(y, x) <= 0 && x != y
    ensures multiset([x, y]) == multiset([y, x]) && Sort(cmp, [x, y]) != Sort(cmp, [y, x])
  {
    PairStays(cmp, x, y);
    PairStays(cmp, y, x);
    assert [x, y][0] != [y, x][0];
  }

  /** A cycle shows: the same three elements sort to two different results. */
  lemma CycleRemembersOrder<T>(cmp: (T, T) -> int, x: T, y: T, z: T)
    requires cmp(x, y) <= 0 && cmp(y, z) <= 0 && cmp(z, x) <= 0 && x != z
    ensures multiset([x, y, z]) == multiset([z, x, y]) && Sort(cmp, [x, y, z]) != Sort(cmp, [z, x, y])
  {
    TripleStays(cmp, x, y, z);
    TripleStays(cmp, z, x, y);
    assert [x, y, z][0] != [z, x, y][0];
  }

  lemma TransitiveForgetsOrder<T(!new)>(cmp: (T, T) -> int, dom: T -> bool)
    requires SignSymmetric(cmp, dom) && Transitive(cmp, dom) && ZeroMeansEqual(cmp, dom)
    ensures ForgetsOrder(cmp, dom)
  {
    forall a: seq<T>, b: seq<T> | Within(dom, a) && Within(dom, b) && multiset(a) == multiset(b)
      ensures Sort(cmp, a) == Sort(cmp, b)
    {
      SortEqualIffSameMultiset(cmp, dom, a, b);
    }
  }

  lemma ForgettingMeansEqual<T(!new)>(cmp: (T, T) -> int, dom: T -> bool, x: T, y: T)
    requires SignSymmetric(cmp, dom) && ForgetsOrder(cmp, dom) && dom(x) && dom(y) && cmp(x, y) == 0
    ensures x == y
  {
    if x != y {
      TieRemembersOrder(cmp, x, y);
      assert Within(dom, [x, y]) && Within(dom, [y, x]);
    }
  }

  lemma ForgettingMeansTransitive<T(!new)>(cmp: (T, T) -> int, dom: T -> bool, x: T, y: T, z: T)
    requires SignSymmetric(cmp, dom) && ForgetsOrder(cmp, dom) && dom(x) && dom(y) && dom(z)
    requires cmp(x, y) <= 0 && cmp(y, z) <= 0
    ensures cmp(x, z) <= 0
  {
    if cmp(x, z) > 0 {
      CycleRemembersOrder(cmp, x, y, z);
      assert Within(dom, [x, y, z]) && Within(dom, [z, x, y]);
    }
  }

  /** Sorting forgets the order of its input exactly when the comparator is transitive and only equal
      elements compare equal. */
  lemma ForgetsOrderExactly<T(!new)>(cmp: (T, T) -> int, dom: T -> bool)
    requires SignSymmetric(cmp, dom)
    ensures ForgetsOrder(cmp, dom) <==> Transitive(cmp, dom) && ZeroMeansEqual(cmp, dom)
  {
    if ForgetsOrder(cmp, dom) {
      forall x, y | dom(x) && dom(y) && cmp(x, y) == 0 ensures x == y { ForgettingMeansEqual(cmp, dom, x, y); }
      forall x, y, z | dom(x) && dom(y) && dom(z) && cmp(x, y) <= 0 && cmp(y, z) <= 0 ensures cmp(x, z) <= 0 {
        ForgettingMeansTransitive(cmp, dom, x, y, z);
      }
    } else if Transitive(cmp, dom) && ZeroMeansEqual(cmp, dom) {
      TransitiveForgetsOrder(cmp, dom);
    }
  }

  // ---- Part of a sorted list ----

  function Filter<T>(p: T -> bool, s: seq<T>): seq<T> {
    if s == [] then [] else Filter(p, s[..|s| - 1]) + (if p(s[|s| - 1]) then [s[|s| - 1]] else [])
  }

  lemma {:induction false} FilterCounts<T>(p: T -> bool, s: seq<T>, x: T)
    ensures multiset(Filter(p, s))[x] == if p(x) then multiset(s)[x] else 0
  {
    if s != [] {
      FilterCounts(p, s[..|s| - 1], x);
      FrontLast(s);
    }
  }

  lemma FilterMember<T>(p: T -> bool, s: seq<T>, x: T)
    ensures x in Filter(p, s) <==> p(x) && x in s
  {
    FilterCounts(p, s, x);
    assert x in Filter(p, s) <==> x in multiset(Filter(p, s));
    assert x in s <==> x in multiset(s);
  }

  /** A part of a sorted list is sorted. */
  lemma {:induction false} FilterSorted<T>(cmp: (T, T) -> int, p: T -> bool, s: seq<T>)
    requires Sorted(cmp, s)
    ensures Sorted(cmp, Filter(p, s))
  {
    if s != [] {
      var front, last := s[..|s| - 1], s[|s| - 1];
      FilterSorted(cmp, p, front);
      forall x | x in Filter(p, front) ensures cmp(x, last) <= 0 {
        FilterMember(p, front, x);
        var i :| 0 <= i < |front| && front[i] == x;
        assert cmp(s[i], s[|s| - 1]) <= 0;
      }
    }
  }

  /** The selected part of a sorted permutation is the sorted list of the selected elements. */
  lemma SelectionSorted<T(!new)>(cmp: (T, T) -> int, dom: T -> bool, p: T -> bool, s: seq<T>, wanted: seq<T>)
    requires Consistent(cmp, dom) && Within(dom, s) && Sorted(cmp, wanted) && KeysDetermine(cmp, wanted)
    requires forall x :: multiset(wanted)[x] == if p(x) then multiset(s)[x] else 0
    ensures Filter(p, Sort(cmp, s)) == wanted
  {
    var selected := Filter(p, Sort(cmp, s));
    SortIsStableSort(cmp, dom, s);
    FilterSorted(cmp, p, Sort(cmp, s));
    forall x ensures multiset(selected)[x] == multiset(wanted)[x] { FilterCounts(p, Sort(cmp, s), x); }
    assert multiset(selected) == multiset(wanted);
    SameElements(selected, wanted);
    forall x | x in selected ensures dom(x) {
      FilterMember(p, Sort(cmp, s), x);
    }
    SortOfSorted(cmp, dom, selected);
    SortRestores(cmp, dom, wanted, selected);
  }
}
