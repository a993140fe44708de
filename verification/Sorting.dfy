/** Stable sorting by a caller's order, and the order in which a JSON object yields its keys. */
module Sorting {

  ghost predicate TotalPreorder<T(!new)>(leq: (T, T) -> bool) {
    && (forall a, b :: leq(a, b) || leq(b, a))
    && (forall a, b, c :: leq(a, b) && leq(b, c) ==> leq(a, c))
  }

  ghost predicate SortedBy<T>(leq: (T, T) -> bool, xs: seq<T>) {
    forall i, j | 0 <= i < j < |xs| :: leq(xs[i], xs[j])
  }

  /** `x` goes before everything it may precede, so equals keep their order. */
  function Insert<T>(leq: (T, T) -> bool, x: T, xs: seq<T>): seq<T> {
    if xs == [] || leq(x, xs[0]) then [x] + xs else [xs[0]] + Insert(leq, x, xs[1..])
  }

  function Sort<T>(leq: (T, T) -> bool, xs: seq<T>): seq<T> {
    if xs == [] then [] else Insert(leq, xs[0], Sort(leq, xs[1..]))
  }

  lemma {:induction false} InsertKeeps<T>(leq: (T, T) -> bool, x: T, xs: seq<T>)
    ensures multiset(Insert(leq, x, xs)) == multiset(xs) + multiset{x}
    ensures |Insert(leq, x, xs)| == |xs| + 1
    decreases xs
  {
    if xs != [] && !leq(x, xs[0]) {
      InsertKeeps(leq, x, xs[1..]);
      assert xs == [xs[0]] + xs[1..];
    }
  }

  lemma {:induction false} InsertSorted<T(!new)>(leq: (T, T) -> bool, x: T, xs: seq<T>)
    requires TotalPreorder(leq) && SortedBy(leq, xs)
    ensures SortedBy(leq, Insert(leq, x, xs))
    decreases xs
  {
    if xs != [] && !leq(x, xs[0]) {
      var rest := Insert(leq, x, xs[1..]);
      InsertSorted(leq, x, xs[1..]);
      InsertKeeps(leq, x, xs[1..]);
      forall j | 0 <= j < |rest|
        ensures leq(xs[0], rest[j])
      {
        assert rest[j] in multiset(rest);
        assert rest[j] == x || rest[j] in xs[1..];
      }
    } else if xs != [] {
      forall j | 0 <= j < |xs|
        ensures leq(x, xs[j])
      {
        assert j > 0 ==> leq(xs[0], xs[j]);
      }
    }
  }

  lemma {:induction false} SortSame<T>(leq: (T, T) -> bool, xs: seq<T>)
    ensures multiset(Sort(leq, xs)) == multiset(xs) && |Sort(leq, xs)| == |xs|
    decreases xs
  {
    if xs != [] {
      SortSame(leq, xs[1..]);
      InsertKeeps(leq, xs[0], Sort(leq, xs[1..]));
      assert xs == [xs[0]] + xs[1..];
    }
  }

  lemma {:induction false} SortKeeps<T>(leq: (T, T) -> bool, xs: seq<T>)
    ensures multiset(Sort(leq, xs)) == multiset(xs) && |Sort(leq, xs)| == |xs|
    ensures forall x :: x in Sort(leq, xs) <==> x in xs
  {
    hide Sort;
    SortSame(leq, xs);
    forall x
      ensures x in Sort(leq, xs) <==> x in xs
    {
      assert x in multiset(Sort(leq, xs)) <==> x in multiset(xs);
    }
  }

  lemma {:induction false} SortSorts<T(!new)>(leq: (T, T) -> bool, xs: seq<T>)
    requires TotalPreorder(leq)
    ensures SortedBy(leq, Sort(leq, xs))
    decreases xs
  {
    if xs != [] {
      SortSorts(leq, xs[1..]);
      InsertSorted(leq, xs[0], Sort(leq, xs[1..]));
    }
  }

  function Map<T, U>(f: T -> U, xs: seq<T>): (ys: seq<U>)
    ensures |ys| == |xs| && forall i | 0 <= i < |xs| :: ys[i] == f(xs[i])
  {
    if xs == [] then [] else [f(xs[0])] + Map(f, xs[1..])
  }

  lemma {:induction false} InsertMaps<T, U>(leq: (T, T) -> bool, f: T -> U, x: T, xs: seq<T>)
    ensures multiset(Map(f, Insert(leq, x, xs))) == multiset(Map(f, xs)) + multiset{f(x)}
    decreases xs
  {
    if xs == [] || leq(x, xs[0]) {
      assert ([x] + xs)[1..] == xs;
    } else {
      InsertMaps(leq, f, x, xs[1..]);
      assert Insert(leq, x, xs)[1..] == Insert(leq, x, xs[1..]);
    }
  }

  /** Sorting keeps the multiset of any attribute of the items. */
  lemma {:induction false} SortMaps<T, U>(leq: (T, T) -> bool, f: T -> U, xs: seq<T>)
    ensures multiset(Map(f, Sort(leq, xs))) == multiset(Map(f, xs))
    decreases xs
  {
    if xs != [] {
      SortMaps(leq, f, xs[1..]);
      InsertMaps(leq, f, xs[0], Sort(leq, xs[1..]));
    }
  }

  // ── key order ──────────────────────────────────────────────────────────────

  predicate TextLeq(a: string, b: string) {
    a == "" || (b != "" && (a[0] < b[0] || (a[0] == b[0] && TextLeq(a[1..], b[1..]))))
  }

  lemma {:induction false} TextTotal(a: string, b: string)
    ensures TextLeq(a, b) || TextLeq(b, a)
    ensures TextLeq(a, b) && TextLeq(b, a) ==> a == b
    decreases |a|
  {
    if a != "" && b != "" && a[0] == b[0] {
      TextTotal(a[1..], b[1..]);
      assert a == [a[0]] + a[1..] && b == [b[0]] + b[1..];
    }
  }

  lemma {:induction false} TextTransitive(a: string, b: string, c: string)
    requires TextLeq(a, b) && TextLeq(b, c)
    ensures TextLeq(a, c)
    decreases |a|
  {
    if a != "" && a[0] == b[0] && b[0] == c[0] {
      TextTransitive(a[1..], b[1..], c[1..]);
    }
  }

  predicate Least(k: string, keys: set<string>) {
    k in keys && forall j | j in keys :: TextLeq(k, j)
  }

  lemma {:induction false} HasLeast(keys: set<string>)
    requires keys != {}
    ensures exists k :: Least(k, keys)
    decreases keys
  {
    var k :| k in keys;
    var rest := keys - {k};
    TextTotal(k, k);
    if rest == {} {
      assert keys == {k};
      assert Least(k, keys);
    } else {
      HasLeast(rest);
      var m :| Least(m, rest);
      TextTotal(k, m);
      if TextLeq(m, k) {
        assert Least(m, keys);
      } else {
        forall j | j in keys
          ensures TextLeq(k, j)
        {
          if j != k {
            TextTransitive(k, m, j);
          }
        }
        assert Least(k, keys);
      }
    }
  }

  lemma LeastUnique(keys: set<string>)
    ensures forall a, b | Least(a, keys) && Least(b, keys) :: a == b
  {
    forall a, b | Least(a, keys) && Least(b, keys)
      ensures a == b
    {
      TextTotal(a, b);
    }
  }

  function LeastKey(keys: set<string>): (k: string)
    requires keys != {}
    ensures Least(k, keys)
  {
    HasLeast(keys);
    LeastUnique(keys);
    var k :| k in keys && Least(k, keys);
    k
  }

  /** The keys of an object in the order iteration yields them. */
  function SortedKeys(keys: set<string>): (ks: seq<string>)
    ensures multiset(ks) == multiset(keys)
    decreases keys
  {
    if keys == {} then []
    else
      var k := LeastKey(keys);
      assert multiset(keys) == multiset{k} + multiset(keys - {k});
      [k] + SortedKeys(keys - {k})
  }

  lemma SortedKeysAre(keys: set<string>)
    ensures forall k :: k in SortedKeys(keys) <==> k in keys
  {
    forall k
      ensures k in SortedKeys(keys) <==> k in keys
    {
      assert k in multiset(SortedKeys(keys)) <==> k in multiset(keys);
    }
  }

  lemma {:induction false} SortedKeysOrder(keys: set<string>)
    ensures SortedBy(TextLeq, SortedKeys(keys))
    decreases keys
  {
    if keys != {} {
      var k, ks := LeastKey(keys), SortedKeys(keys);
      SortedKeysOrder(keys - {k});
      SortedKeysAre(keys);
      forall i, j | 0 <= i < j < |ks|
        ensures TextLeq(ks[i], ks[j])
      {
        if i == 0 {
          assert ks[j] in ks;
        } else {
          assert TextLeq(ks[1..][i - 1], ks[1..][j - 1]);
        }
      }
    }
  }
}
