/** Python's `sorted(xs, key=key)`: a stable sort. Stability is stated per key:
    the elements sharing a key appear in the output exactly as they appear in
    the input. Together with sortedness this determines the output completely
    (`SortUnique`). */
module StableSort {

  ghost predicate SortedBy<T>(xs: seq<T>, key: T -> int)
  {
    forall i, j :: 0 <= i < j < |xs| ==> key(xs[i]) <= key(xs[j])
  }

  /** The elements of `xs` whose key is `k`, in their order in `xs`. */
  function WithKey<T>(xs: seq<T>, key: T -> int, k: int): seq<T>
    decreases |xs|
  {
    if |xs| == 0 then [] else (if key(xs[0]) == k then [xs[0]] else []) + WithKey(xs[1..], key, k)
  }

  /** `ys` holds the elements of `xs`, and elements with equal keys keep their relative order. */
  ghost predicate StablePermutation<T>(ys: seq<T>, xs: seq<T>, key: T -> int)
  {
    forall k :: WithKey(ys, key, k) == WithKey(xs, key, k)
  }

  lemma WithKeyCons<T>(x: T, xs: seq<T>, key: T -> int, k: int)
    ensures WithKey([x] + xs, key, k) == (if key(x) == k then [x] else []) + WithKey(xs, key, k)
  {
    assert ([x] + xs)[0] == x;
    assert ([x] + xs)[1..] == xs;
  }

  lemma {:induction false} WithKeyMember<T>(xs: seq<T>, key: T -> int, y: T)
    requires y in xs
    ensures y in WithKey(xs, key, key(y))
    decreases |xs|
  {
    if xs[0] != y {
      assert y in xs[1..];
      WithKeyMember(xs[1..], key, y);
    }
  }

  lemma {:induction false} WithKeyOnly<T>(xs: seq<T>, key: T -> int, k: int, y: T)
    requires y in WithKey(xs, key, k)
    ensures y in xs && key(y) == k
    decreases |xs|
  {
    if |xs| > 0 && !(key(xs[0]) == k && y == xs[0]) {
      WithKeyOnly(xs[1..], key, k, y);
    }
  }

  lemma SortedCons<T>(y: T, ys: seq<T>, key: T -> int)
    requires SortedBy(ys, key)
    requires forall i :: 0 <= i < |ys| ==> key(y) <= key(ys[i])
    ensures SortedBy([y] + ys, key)
  {
    var r := [y] + ys;
    forall i, j | 0 <= i < j < |r|
      ensures key(r[i]) <= key(r[j])
    {
      assert r[j] == ys[j - 1];
      if i > 0 {
        assert r[i] == ys[i - 1];
      }
    }
  }

  /** Inserts `x` in front of the first element whose key is not smaller. */
  function Insert<T>(x: T, xs: seq<T>, key: T -> int): (r: seq<T>)
    requires SortedBy(xs, key)
    ensures SortedBy(r, key)
    ensures multiset(r) == multiset(xs) + multiset{x}
    decreases |xs|
  {
    if |xs| == 0 || key(x) <= key(xs[0]) then
      SortedCons(x, xs, key);
      [x] + xs
    else
      var rest := Insert(x, xs[1..], key);
      assert xs == [xs[0]] + xs[1..];
      assert forall i :: 0 <= i < |rest| ==> key(xs[0]) <= key(rest[i]) by {
        forall i | 0 <= i < |rest|
          ensures key(xs[0]) <= key(rest[i])
        {
          assert rest[i] in multiset(rest);
          if rest[i] != x {
            assert rest[i] in multiset(xs[1..]);
            var j :| 0 <= j < |xs[1..]| && xs[1..][j] == rest[i];
            assert xs[j + 1] == rest[i];
          }
        }
      }
      SortedCons(xs[0], rest, key);
      [xs[0]] + rest
  }

  /** Inserting `x` puts it before every element of its own key. */
  lemma {:induction false} InsertWithKey<T>(x: T, xs: seq<T>, key: T -> int, k: int)
    requires SortedBy(xs, key)
    ensures WithKey(Insert(x, xs, key), key, k) == (if key(x) == k then [x] else []) + WithKey(xs, key, k)
    decreases |xs|
  {
    if |xs| == 0 || key(x) <= key(xs[0]) {
      WithKeyCons(x, xs, key, k);
    } else {
      var rest := Insert(x, xs[1..], key);
      InsertWithKey(x, xs[1..], key, k);
      WithKeyCons(xs[0], rest, key, k);
      WithKeyCons(xs[0], xs[1..], key, k);
      assert xs == [xs[0]] + xs[1..];
    }
  }

  /** Insertion sort; ties keep their input order. */
  function Sort<T>(xs: seq<T>, key: T -> int): (r: seq<T>)
    ensures |r| == |xs|
    ensures SortedBy(r, key)
    ensures multiset(r) == multiset(xs)
    ensures StablePermutation(r, xs, key)
    decreases |xs|
  {
    if |xs| == 0 then []
    else
      var r := Insert(xs[0], Sort(xs[1..], key), key);
      assert xs == [xs[0]] + xs[1..];
      assert StablePermutation(r, xs, key) by {
        forall k
          ensures WithKey(r, key, k) == WithKey(xs, key, k)
        {
          InsertWithKey(xs[0], Sort(xs[1..], key), key, k);
          WithKeyCons(xs[0], xs[1..], key, k);
        }
      }
      assert |r| == |multiset(r)| == |xs|;
      r
  }

  /** Two sorted sequences that agree key by key are equal: sortedness plus
      stability is a complete specification of the sort. */
  lemma {:induction false} SortUnique<T>(a: seq<T>, b: seq<T>, key: T -> int)
    requires |a| == |b|
    requires SortedBy(a, key) && SortedBy(b, key)
    requires StablePermutation(a, b, key)
    ensures a == b
    decreases |a|
  {
    if |a| > 0 && |b| > 0 {
      var ka, kb := key(a[0]), key(b[0]);
      WithKeyMember(b, key, b[0]);
      WithKeyOnly(a, key, kb, b[0]);
      var i :| 0 <= i < |a| && a[i] == b[0];
      assert ka <= key(a[i]);
      WithKeyMember(a, key, a[0]);
      WithKeyOnly(b, key, ka, a[0]);
      var j :| 0 <= j < |b| && b[j] == a[0];
      assert kb <= key(b[j]);
      assert ka == kb;
      WithKeyCons(a[0], a[1..], key, ka);
      WithKeyCons(b[0], b[1..], key, ka);
      assert a == [a[0]] + a[1..];
      assert b == [b[0]] + b[1..];
      assert WithKey(a, key, ka)[0] == a[0];
      assert WithKey(b, key, ka)[0] == b[0];
      assert a[0] == b[0];
      forall k
        ensures WithKey(a[1..], key, k) == WithKey(b[1..], key, k)
      {
        WithKeyCons(a[0], a[1..], key, k);
        WithKeyCons(b[0], b[1..], key, k);
        assert WithKey(a, key, k) == WithKey(b, key, k);
        var p := if key(a[0]) == k then [a[0]] else [];
        assert WithKey(a[1..], key, k) == WithKey(a, key, k)[|p|..];
        assert WithKey(b[1..], key, k) == WithKey(b, key, k)[|p|..];
      }
      SortUnique(a[1..], b[1..], key);
    }
  }

  /** Any stable ascending arrangement of `xs` is the sort of `xs`. */
  lemma {:induction false} SortIsTheStableOrder<T>(xs: seq<T>, ys: seq<T>, key: T -> int)
    requires multiset(ys) == multiset(xs)
    requires SortedBy(ys, key) && StablePermutation(ys, xs, key)
    ensures ys == Sort(xs, key)
  {
    var r := Sort(xs, key);
    assert |ys| == |multiset(ys)| == |xs|;
    SortUnique(ys, r, key);
  }
}
