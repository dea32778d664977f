/** List pipelines: map, filter and the stable sort by an ordinal string key. */
module Sequences {

  lemma ConcatAssociates<A>(a: seq<A>, b: seq<A>, c: seq<A>)
    ensures a + (b + c) == a + b + c
  {
  }

  function Map<A(!new), B(!new)>(f: A -> B, xs: seq<A>): (ys: seq<B>)
    ensures |ys| == |xs|
    ensures forall i :: 0 <= i < |xs| ==> ys[i] == f(xs[i])
  {
    seq(|xs|, i requires 0 <= i < |xs| => f(xs[i]))
  }

  function Filter<A(!new)>(p: A -> bool, xs: seq<A>): (ys: seq<A>)
    ensures forall x :: x in ys <==> x in xs && p(x)
  {
    if xs == [] then []
    else if p(xs[0]) then [xs[0]] + Filter(p, xs[1..])
    else Filter(p, xs[1..])
  }

  // Ordinal string order.
  predicate Le(a: string, b: string) {
    a == [] || (b != [] && (a[0] < b[0] || (a[0] == b[0] && Le(a[1..], b[1..]))))
  }

  lemma {:induction false} LeTotal(a: string, b: string)
    ensures Le(a, b) || Le(b, a)
    ensures Le(a, b) && Le(b, a) ==> a == b
  {
    if a != [] && b != [] && a[0] == b[0] {
      LeTotal(a[1..], b[1..]);
      assert a == [a[0]] + a[1..] && b == [b[0]] + b[1..];
    }
  }

  lemma {:induction false} LeTransitive(a: string, b: string, c: string)
    requires Le(a, b) && Le(b, c)
    ensures Le(a, c)
  {
    if a != [] && a[0] == b[0] == c[0] {
      LeTransitive(a[1..], b[1..], c[1..]);
    }
  }

  function Insert<A(!new)>(x: A, xs: seq<A>, key: A -> string): seq<A> {
    if xs == [] || Le(key(x), key(xs[0])) then [x] + xs else [xs[0]] + Insert(x, xs[1..], key)
  }

  lemma {:induction false} InsertPermutes<A(!new)>(x: A, xs: seq<A>, key: A -> string)
    ensures multiset(Insert(x, xs, key)) == multiset{x} + multiset(xs)
  {
    if xs != [] && !Le(key(x), key(xs[0])) {
      InsertPermutes(x, xs[1..], key);
      assert xs == [xs[0]] + xs[1..];
    }
  }

  // Equal keys keep their order.
  function SortBy<A(!new)>(xs: seq<A>, key: A -> string): (ys: seq<A>)
    ensures multiset(ys) == multiset(xs)
    ensures |ys| == |xs|
    ensures forall x :: x in ys <==> x in xs
  {
    if xs == [] then []
    else
      assert xs == [xs[0]] + xs[1..];
      var ys := Insert(xs[0], SortBy(xs[1..], key), key);
      InsertPermutes(xs[0], SortBy(xs[1..], key), key);
      assert multiset(ys) == multiset(xs);
      assert |multiset(ys)| == |ys| && |multiset(xs)| == |xs|;
      assert forall x :: x in ys <==> x in multiset(ys);
      assert forall x :: x in xs <==> x in multiset(xs);
      ys
  }

  ghost predicate Sorted<A(!new)>(xs: seq<A>, key: A -> string) {
    forall i, j :: 0 <= i < j < |xs| ==> Le(key(xs[i]), key(xs[j]))
  }

  lemma {:induction false} InsertSorts<A(!new)>(x: A, xs: seq<A>, key: A -> string)
    requires Sorted(xs, key)
    ensures Sorted(Insert(x, xs, key), key)
  {
    if xs != [] {
      LeTotal(key(x), key(xs[0]));
      if Le(key(x), key(xs[0])) {
        forall j | 0 <= j < |xs| ensures Le(key(x), key(xs[j])) {
          if j > 0 { LeTransitive(key(x), key(xs[0]), key(xs[j])); }
        }
      } else {
        var rest := Insert(x, xs[1..], key);
        InsertSorts(x, xs[1..], key);
        InsertPermutes(x, xs[1..], key);
        forall y | y in rest ensures Le(key(xs[0]), key(y)) {
          assert y in multiset(rest);
          assert y == x || y in xs[1..];
        }
      }
    }
  }

  lemma {:induction false} SortBySorts<A(!new)>(xs: seq<A>, key: A -> string)
    ensures Sorted(SortBy(xs, key), key)
  {
    if xs != [] {
      SortBySorts(xs[1..], key);
      InsertSorts(xs[0], SortBy(xs[1..], key), key);
    }
  }

  // A change that keeps every key can be made before or after sorting.
  lemma {:induction false} InsertMap<A(!new), B(!new)>(f: A -> B, x: A, xs: seq<A>, key: A -> string, key': B -> string)
    requires forall a :: a == x || a in xs ==> key'(f(a)) == key(a)
    ensures Insert(f(x), Map(f, xs), key') == Map(f, Insert(x, xs, key))
  {
    if xs != [] && !Le(key(x), key(xs[0])) {
      InsertMap(f, x, xs[1..], key, key');
      assert Map(f, xs)[1..] == Map(f, xs[1..]);
    }
  }

  lemma {:induction false} SortMap<A(!new), B(!new)>(f: A -> B, xs: seq<A>, key: A -> string, key': B -> string)
    requires forall a :: a in xs ==> key'(f(a)) == key(a)
    ensures SortBy(Map(f, xs), key') == Map(f, SortBy(xs, key))
  {
    if xs != [] {
      SortMap(f, xs[1..], key, key');
      assert Map(f, xs)[1..] == Map(f, xs[1..]);
      InsertMap(f, xs[0], SortBy(xs[1..], key), key, key');
    }
  }

  lemma {:induction false} FilterMap<A(!new), B(!new)>(f: A -> B, p: A -> bool, q: B -> bool, xs: seq<A>)
    requires forall a :: a in xs ==> q(f(a)) == p(a)
    ensures Filter(q, Map(f, xs)) == Map(f, Filter(p, xs))
  {
    if xs != [] {
      FilterMap(f, p, q, xs[1..]);
      assert Map(f, xs)[1..] == Map(f, xs[1..]);
    }
  }

  lemma {:induction false} FilterSame<A(!new)>(p: A -> bool, q: A -> bool, xs: seq<A>)
    requires forall a :: a in xs ==> p(a) == q(a)
    ensures Filter(p, xs) == Filter(q, xs)
  {
    if xs != [] {
      FilterSame(p, q, xs[1..]);
    }
  }

  lemma MapConcat<A(!new), B(!new)>(f: A -> B, xs: seq<A>, ys: seq<A>)
    ensures Map(f, xs + ys) == Map(f, xs) + Map(f, ys)
  {
  }

  lemma {:induction false} FilterConcat<A(!new)>(p: A -> bool, xs: seq<A>, ys: seq<A>)
    ensures Filter(p, xs + ys) == Filter(p, xs) + Filter(p, ys)
  {
    if xs == [] {
      assert xs + ys == ys;
    } else {
      FilterConcat(p, xs[1..], ys);
      assert (xs + ys)[1..] == xs[1..] + ys;
    }
  }

  // What passes is kept as often as it was there, and nothing else is.
  lemma {:induction false} FilterCounts<A(!new)>(p: A -> bool, xs: seq<A>, x: A)
    ensures multiset(Filter(p, xs))[x] == if p(x) then multiset(xs)[x] else 0
  {
    if xs != [] {
      FilterCounts(p, xs[1..], x);
      assert xs == [xs[0]] + xs[1..];
    }
  }

  // A filter changes nothing exactly when everything passes it.
  lemma {:induction false} FilterKeepsAll<A(!new)>(p: A -> bool, xs: seq<A>)
    ensures |Filter(p, xs)| <= |xs|
    ensures Filter(p, xs) == xs <==> forall x :: x in xs ==> p(x)
  {
    if xs != [] {
      FilterKeepsAll(p, xs[1..]);
      assert xs == [xs[0]] + xs[1..];
      if p(xs[0]) {
        assert Filter(p, xs)[1..] == Filter(p, xs[1..]);
      }
    }
  }

  // No two entries share a key.
  ghost predicate UniqueBy<A>(xs: seq<A>, key: A -> string) {
    xs == [] || ((forall x <- xs[1..] :: key(x) != key(xs[0])) && UniqueBy(xs[1..], key))
  }

  lemma {:induction false} UniqueFilter<A(!new)>(p: A -> bool, xs: seq<A>, key: A -> string)
    requires UniqueBy(xs, key)
    ensures UniqueBy(Filter(p, xs), key)
  {
    if xs != [] {
      UniqueFilter(p, xs[1..], key);
      if p(xs[0]) {
        assert Filter(p, xs)[1..] == Filter(p, xs[1..]);
      }
    }
  }

  lemma {:induction false} UniqueAppend<A>(xs: seq<A>, x: A, key: A -> string)
    ensures UniqueBy(xs + [x], key) <==> UniqueBy(xs, key) && forall y <- xs :: key(y) != key(x)
  {
    if xs == [] {
      assert xs + [x] == [x];
    } else {
      UniqueAppend(xs[1..], x, key);
      assert (xs + [x])[1..] == xs[1..] + [x];
      assert x in xs[1..] + [x];
    }
  }

  lemma {:induction false} UniqueMap<A(!new)>(f: A -> A, xs: seq<A>, key: A -> string)
    requires UniqueBy(xs, key) && forall x :: x in xs ==> key(f(x)) == key(x)
    ensures UniqueBy(Map(f, xs), key)
  {
    if xs != [] {
      UniqueMap(f, xs[1..], key);
      assert Map(f, xs)[1..] == Map(f, xs[1..]);
    }
  }

  lemma SameKeyOnce<A>(xs: seq<A>, key: A -> string, k: string)
    requires UniqueBy(xs, key)
    ensures (forall x <- xs :: key(x) == k) ==> |xs| <= 1
  {
    if |xs| > 1 {
      assert xs[1] == xs[1..][0] && xs[1] in xs[1..];
      assert xs[0] in xs && xs[1] in xs && key(xs[1]) != key(xs[0]);
    }
  }

  // ----- Lists sorted by distinct keys -----

  ghost predicate DistinctBy<A>(xs: seq<A>, key: A -> string) {
    forall j, k :: 0 <= j < k < |xs| ==> key(xs[j]) != key(xs[k])
  }

  lemma TailOfMultiset<A>(xs: seq<A>)
    requires xs != []
    ensures xs == [xs[0]] + xs[1..] && multiset(xs[1..]) == multiset(xs) - multiset{xs[0]}
  {
    assert xs == [xs[0]] + xs[1..];
  }

  lemma HasFirst<A>(xs: seq<A>)
    ensures xs != [] ==> xs[0] in xs && xs[0] in multiset(xs)
  {
  }

  lemma SameFirst<A(!new)>(a: seq<A>, b: seq<A>, key: A -> string)
    requires Sorted(a, key) && Sorted(b, key) && DistinctBy(a, key)
    requires a != [] && b != [] && a[0] in b && b[0] in a
    ensures a[0] == b[0]
  {
    LeTotal(key(a[0]), key(b[0]));
    LeTotal(key(b[0]), key(b[0]));
    LeTotal(key(a[0]), key(a[0]));
    var j :| 0 <= j < |a| && a[j] == b[0];
    var k :| 0 <= k < |b| && b[k] == a[0];
    assert Le(key(a[0]), key(a[j])) && Le(key(b[0]), key(b[k]));
  }

  // Sorted lists of distinct keys with the same elements are the same list, ...
  lemma {:induction false} SortedOnce<A(!new)>(a: seq<A>, b: seq<A>, key: A -> string)
    requires Sorted(a, key) && Sorted(b, key) && DistinctBy(a, key) && DistinctBy(b, key)
    requires forall e :: e in a <==> e in b
    ensures a == b
    decreases |a|
  {
    HasFirst(a);
    HasFirst(b);
    if a != [] && b != [] {
      SameFirst(a, b, key);
      assert a == [a[0]] + a[1..] && b == [b[0]] + b[1..];
      forall e ensures e in a[1..] <==> e in b[1..] {
        assert e in a[1..] ==> e != a[0] && e in b;
        assert e in b[1..] ==> e != b[0] && e in a;
      }
      SortedOnce(a[1..], b[1..], key);
    }
  }

  // ... and so are sorted permutations of each other, when the keys of one are distinct.
  lemma {:induction false} SortedPermutation<A(!new)>(a: seq<A>, b: seq<A>, key: A -> string)
    requires multiset(a) == multiset(b) && DistinctBy(a, key) && Sorted(a, key) && Sorted(b, key)
    ensures a == b
    decreases |a|
  {
    HasFirst(a);
    HasFirst(b);
    assert a == [] ==> |multiset(b)| == 0;
    if a != [] && b != [] {
      SameFirst(a, b, key);
      TailOfMultiset(a);
      TailOfMultiset(b);
      SortedPermutation(a[1..], b[1..], key);
    }
  }
}
