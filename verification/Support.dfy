/** Shared helpers: optional values, results, and the stable sort of the host language. */
module Support {

  datatype Option<+T> = None | Some(value: T)

  datatype Result<+T, +E> = Ok(value: T) | Err(error: E)

  function Min(a: int, b: int): int {
    if a <= b then a else b
  }

  function Max(a: int, b: int): int {
    if a <= b then b else a
  }

  // ---- Stable sort by a numeric key, smallest key first ----

  ghost predicate SortedBy<T>(s: seq<T>, key: T -> real) {
    forall i, j | 0 <= i < j < |s| :: key(s[i]) <= key(s[j])
  }

  /** Puts x in front of the first element whose key is not smaller. */
  function InsertBy<T>(x: T, s: seq<T>, key: T -> real): seq<T> {
    if s == [] || key(x) <= key(s[0]) then [x] + s else [s[0]] + InsertBy(x, s[1..], key)
  }

  function SortBy<T>(s: seq<T>, key: T -> real): seq<T> {
    if s == [] then [] else InsertBy(s[0], SortBy(s[1..], key), key)
  }

  /** The elements of s whose key is k, in the order of s. */
  ghost function WithKey<T>(s: seq<T>, key: T -> real, k: real): seq<T> {
    if s == [] then [] else (if key(s[0]) == k then [s[0]] else []) + WithKey(s[1..], key, k)
  }

  lemma {:induction false} InsertByMultiset<T>(x: T, s: seq<T>, key: T -> real)
    ensures multiset(InsertBy(x, s, key)) == multiset{x} + multiset(s)
  {
    if s == [] || key(x) <= key(s[0]) {
    } else {
      InsertByMultiset(x, s[1..], key);
      assert s == [s[0]] + s[1..];
    }
  }

  lemma {:induction false} InsertBySorted<T>(x: T, s: seq<T>, key: T -> real)
    requires SortedBy(s, key)
    ensures SortedBy(InsertBy(x, s, key), key)
  {
    if s == [] || key(x) <= key(s[0]) {
    } else {
      var rest := InsertBy(x, s[1..], key);
      InsertBySorted(x, s[1..], key);
      InsertByMultiset(x, s[1..], key);
      forall j | 0 <= j < |rest| ensures key(s[0]) <= key(rest[j]) {
        assert rest[j] in multiset(rest);
        assert rest[j] == x || rest[j] in multiset(s[1..]);
      }
    }
  }

  lemma {:induction false} InsertByStable<T>(x: T, s: seq<T>, key: T -> real, k: real)
    ensures WithKey(InsertBy(x, s, key), key, k) == WithKey([x] + s, key, k)
  {
    assert ([x] + s)[1..] == s;
    if s == [] || key(x) <= key(s[0]) {
    } else {
      var rest := InsertBy(x, s[1..], key);
      InsertByStable(x, s[1..], key, k);
      assert ([s[0]] + rest)[1..] == rest;
      assert ([x] + s[1..])[1..] == s[1..];
    }
  }

  /** The sort is a sorted permutation and keeps elements with equal keys in their order. */
  lemma {:induction false} SortByFacts<T>(s: seq<T>, key: T -> real, k: real)
    ensures SortedBy(SortBy(s, key), key)
    ensures multiset(SortBy(s, key)) == multiset(s)
    ensures WithKey(SortBy(s, key), key, k) == WithKey(s, key, k)
  {
    if s == [] {
    } else {
      var rest := SortBy(s[1..], key);
      SortByFacts(s[1..], key, k);
      InsertByMultiset(s[0], rest, key);
      InsertBySorted(s[0], rest, key);
      InsertByStable(s[0], rest, key, k);
      assert s == [s[0]] + s[1..];
      assert ([s[0]] + rest)[1..] == rest;
    }
  }

  /** Sorting a sorted sequence changes nothing. */
  lemma {:induction false} SortByIdentity<T>(s: seq<T>, key: T -> real)
    requires SortedBy(s, key)
    ensures SortBy(s, key) == s
  {
    if s == [] {
    } else {
      SortByIdentity(s[1..], key);
      assert s == [s[0]] + s[1..];
    }
  }

  /** A sort has exactly the elements of its input. */
  lemma {:induction false} SortByMembers<T>(s: seq<T>, key: T -> real)
    ensures |SortBy(s, key)| == |s|
    ensures forall x :: x in SortBy(s, key) <==> x in s
  {
    SortByFacts(s, key, 0.0);
    assert |multiset(SortBy(s, key))| == |SortBy(s, key)|;
    assert |multiset(s)| == |s|;
    forall x ensures x in SortBy(s, key) <==> x in s {
      assert x in multiset(SortBy(s, key)) <==> x in multiset(s);
    }
  }

  ghost predicate NoDuplicates<T>(s: seq<T>) {
    forall i, j | 0 <= i < j < |s| :: s[i] != s[j]
  }

  lemma {:induction false} InsertByDistinct<T>(x: T, s: seq<T>, key: T -> real)
    requires NoDuplicates(s) && x !in s
    ensures NoDuplicates(InsertBy(x, s, key))
    ensures forall y :: y in InsertBy(x, s, key) <==> y == x || y in s
  {
    if s == [] || key(x) <= key(s[0]) {
    } else {
      InsertByDistinct(x, s[1..], key);
      assert forall y :: y in s <==> y == s[0] || y in s[1..];
      assert s[0] !in s[1..];
    }
  }

  /** Sorting keeps elements distinct. */
  lemma {:induction false} SortByDistinct<T>(s: seq<T>, key: T -> real)
    requires NoDuplicates(s)
    ensures NoDuplicates(SortBy(s, key))
  {
    if s != [] {
      SortByDistinct(s[1..], key);
      SortByMembers(s[1..], key);
      InsertByDistinct(s[0], SortBy(s[1..], key), key);
    }
  }

  /** Without duplicates, a sequence has as many elements as its set. */
  lemma {:induction false} DistinctLength<T>(s: seq<T>)
    requires NoDuplicates(s)
    ensures |set x | x in s| == |s|
  {
    var elements := set x | x in s;
    if s == [] {
      assert elements == {};
    } else {
      DistinctLength(s[1..]);
      var rest := set x | x in s[1..];
      assert s[0] !in rest;
      assert elements == rest + {s[0]};
    }
  }

  // ---- Mapping every element to a sequence and joining the results ----

  function FlatMap<T, U>(s: seq<T>, f: T -> seq<U>): seq<U> {
    if s == [] then [] else f(s[0]) + FlatMap(s[1..], f)
  }

  lemma {:induction false} Associate<T>(a: seq<T>, b: seq<T>, c: seq<T>)
    ensures a + (b + c) == (a + b) + c
  {
  }

  lemma {:induction false} FlatMapJoin<T, U>(a: seq<T>, b: seq<T>, f: T -> seq<U>)
    ensures FlatMap(a + b, f) == FlatMap(a, f) + FlatMap(b, f)
  {
    if a == [] {
      assert a + b == b;
    } else {
      FlatMapJoin(a[1..], b, f);
      assert (a + b)[1..] == a[1..] + b;
      Associate(f(a[0]), FlatMap(a[1..], f), FlatMap(b, f));
    }
  }

  lemma {:induction false} FlatMapOne<T, U>(x: T, f: T -> seq<U>)
    ensures FlatMap([x], f) == f(x)
  {
    assert [x][1..] == [];
    assert FlatMap([x], f) == f(x) + [];
  }

  lemma {:induction false} FlatMapUnfold<T, U>(s: seq<T>, f: T -> seq<U>)
    ensures FlatMap(s, f) == if s == [] then [] else f(s[0]) + FlatMap(s[1..], f)
  {
  }

  /** Two functions with the same values map alike. */
  lemma {:induction false} FlatMapSame<T, U>(s: seq<T>, f: T -> seq<U>, g: T -> seq<U>)
    requires forall x | x in s :: f(x) == g(x)
    ensures FlatMap(s, f) == FlatMap(s, g)
  {
    if s != [] {
      FlatMapSame(s[1..], f, g);
    }
  }

  lemma {:induction false} FlatMapEmpty<T, U>(s: seq<T>, f: T -> seq<U>)
    requires forall x | x in s :: f(x) == []
    ensures FlatMap(s, f) == []
  {
    if s != [] {
      FlatMapEmpty(s[1..], f);
    }
  }

  // ---- Sizes of finite sets ----

  /** An injective image has as many elements as the set. */
  lemma {:induction false} ImageSize<A, B>(s: set<A>, image: set<B>, f: A -> B)
    requires forall x | x in s :: f(x) in image
    requires forall y | y in image :: exists x :: x in s && f(x) == y
    requires forall x, y | x in s && y in s && f(x) == f(y) :: x == y
    ensures |image| == |s|
  {
    if s == {} {
      assert image == {};
    } else {
      var x :| x in s;
      forall y | y in image - {f(x)} ensures exists z :: z in s - {x} && f(z) == y {
        var z :| z in s && f(z) == y;
        assert z in s - {x};
      }
      ImageSize(s - {x}, image - {f(x)}, f);
    }
  }
}
