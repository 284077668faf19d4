/** Python's `sorted(xs, key=f)`: the stable ascending sort by a key. It is
    defined here as an insertion sort and characterised independently. The
    result is ascending, it is a permutation of the input, elements with
    equal keys keep their input order, and it is the only arrangement with
    all three properties. `sorted(xs, key=f, reverse=True)` is also stable,
    so it is the same sort with key `-f`. */
module StableSort {

  /** `s` is in ascending key order. */
  predicate Ascending<T>(s: seq<T>, key: T -> real) {
    forall i, j :: 0 <= i < j < |s| ==> key(s[i]) <= key(s[j])
  }

  /** Puts `x` before the first element whose key is not smaller. */
  function Insert<T>(x: T, t: seq<T>, key: T -> real): (r: seq<T>)
    requires Ascending(t, key)
    ensures Ascending(r, key)
    ensures multiset(r) == multiset(t) + multiset{x}
    ensures |r| == |t| + 1
  {
    if t == [] || key(x) <= key(t[0]) then
      [x] + t
    else
      var r' := Insert(x, t[1..], key);
      InsertAbove(x, t, r', key);
      assert t == [t[0]] + t[1..];
      [t[0]] + r'
  }

  /** Every element of the inserted tail sits above the head it follows. */
  lemma InsertAbove<T>(x: T, t: seq<T>, r': seq<T>, key: T -> real)
    requires t != [] && Ascending(t, key) && key(t[0]) < key(x)
    requires Ascending(r', key) && multiset(r') == multiset(t[1..]) + multiset{x}
    ensures Ascending([t[0]] + r', key)
  {
    forall i | 0 <= i < |r'|
      ensures key(t[0]) <= key(r'[i])
    {
      assert r'[i] in multiset(r');
      if r'[i] != x {
        assert r'[i] in multiset(t[1..]);
        assert r'[i] in t[1..];
      }
    }
    var u := [t[0]] + r';
    forall i, j | 0 <= i < j < |u|
      ensures key(u[i]) <= key(u[j])
    {
      if i == 0 {
        assert u[j] == r'[j - 1];
      } else {
        assert u[i] == r'[i - 1] && u[j] == r'[j - 1];
      }
    }
  }

  /** `sorted(s, key=key)`. */
  function SortBy<T>(s: seq<T>, key: T -> real): (r: seq<T>)
    ensures Ascending(r, key)
    ensures multiset(r) == multiset(s)
    ensures |r| == |s|
  {
    if s == [] then []
    else
      assert s == [s[0]] + s[1..];
      Insert(s[0], SortBy(s[1..], key), key)
  }

  /** The elements of `s` whose key is `k`, in order. */
  function WithKey<T>(s: seq<T>, key: T -> real, k: real): (r: seq<T>)
    ensures |r| <= |s|
    ensures forall i :: 0 <= i < |r| ==> key(r[i]) == k && r[i] in s
  {
    if s == [] then []
    else (if key(s[0]) == k then [s[0]] else []) + WithKey(s[1..], key, k)
  }

  lemma {:induction false} WithKeyAppend<T>(a: seq<T>, b: seq<T>, key: T -> real, k: real)
    ensures WithKey(a + b, key, k) == WithKey(a, key, k) + WithKey(b, key, k)
    decreases |a|
  {
    if a == [] {
      assert a + b == b;
    } else {
      assert (a + b)[1..] == a[1..] + b;
      WithKeyAppend(a[1..], b, key, k);
    }
  }

  lemma {:induction false} WithKeyInsert<T>(x: T, t: seq<T>, key: T -> real, k: real)
    requires Ascending(t, key)
    ensures WithKey(Insert(x, t, key), key, k) == (if key(x) == k then [x] else []) + WithKey(t, key, k)
    decreases |t|
  {
    if t == [] || key(x) <= key(t[0]) {
      assert Insert(x, t, key) == [x] + t;
      WithKeyCons(x, t, key, k);
    } else {
      var r' := Insert(x, t[1..], key);
      assert Insert(x, t, key) == [t[0]] + r';
      WithKeyInsert(x, t[1..], key, k);
      WithKeyCons(t[0], r', key, k);
      assert t == [t[0]] + t[1..];
      WithKeyCons(t[0], t[1..], key, k);
      if key(x) == k {
        assert key(t[0]) != k;
      }
    }
  }

  lemma WithKeyCons<T>(y: T, s: seq<T>, key: T -> real, k: real)
    ensures WithKey([y] + s, key, k) == (if key(y) == k then [y] else []) + WithKey(s, key, k)
  {
    assert ([y] + s)[0] == y && ([y] + s)[1..] == s;
  }

  /** Stability: among elements with equal keys, the sorted order is the
      input order. */
  lemma {:induction false} SortByStable<T>(s: seq<T>, key: T -> real, k: real)
    ensures WithKey(SortBy(s, key), key, k) == WithKey(s, key, k)
    decreases |s|
  {
    if s != [] {
      SortByStable(s[1..], key, k);
      WithKeyInsert(s[0], SortBy(s[1..], key), key, k);
    }
  }

  lemma WithKeyHead<T>(s: seq<T>, key: T -> real)
    requires s != []
    ensures WithKey(s, key, key(s[0])) == [s[0]] + WithKey(s[1..], key, key(s[0]))
  {
  }

  /** Two ascending sequences that agree on every key class are equal. */
  lemma {:induction false} AscendingUnique<T>(a: seq<T>, b: seq<T>, key: T -> real)
    requires Ascending(a, key) && Ascending(b, key)
    requires forall k :: WithKey(a, key, k) == WithKey(b, key, k)
    ensures a == b
    decreases |a|
  {
    if a == [] {
      if b != [] {
        WithKeyHead(b, key);
      }
    } else if b == [] {
      WithKeyHead(a, key);
    } else {
      WithKeyHead(a, key);
      WithKeyHead(b, key);
      KeyNotBelowHead(a, b, key);
      KeyNotBelowHead(b, a, key);
      var k0 := key(a[0]);
      assert WithKey(a, key, k0)[0] == a[0];
      assert WithKey(b, key, k0)[0] == b[0];
      forall k
        ensures WithKey(a[1..], key, k) == WithKey(b[1..], key, k)
      {
        assert WithKey(a, key, k) == WithKey(b, key, k);
        if k != k0 {
          assert WithKey(a, key, k) == WithKey(a[1..], key, k);
          assert WithKey(b, key, k) == WithKey(b[1..], key, k);
        } else {
          assert WithKey(a[1..], key, k) == WithKey(a, key, k)[1..];
          assert WithKey(b[1..], key, k) == WithKey(b, key, k)[1..];
        }
      }
      AscendingUnique(a[1..], b[1..], key);
      assert a == [a[0]] + a[1..] && b == [b[0]] + b[1..];
    }
  }

  /** The head of `b` cannot have a key smaller than the head of `a`: its
      key class would be empty in `a`. */
  lemma KeyNotBelowHead<T>(a: seq<T>, b: seq<T>, key: T -> real)
    requires a != [] && b != []
    requires Ascending(a, key)
    requires forall k :: WithKey(a, key, k) == WithKey(b, key, k)
    ensures key(a[0]) <= key(b[0])
  {
    var kb := key(b[0]);
    WithKeyHead(b, key);
    var w := WithKey(a, key, kb);
    assert w != [];
    assert key(w[0]) == kb && w[0] in a;
  }

  /** `SortBy` is the stable sort: any ascending sequence that keeps each
      key class of `s` in input order is `SortBy(s)`. */
  lemma SortByUnique<T>(s: seq<T>, t: seq<T>, key: T -> real)
    requires Ascending(t, key)
    requires forall k :: WithKey(t, key, k) == WithKey(s, key, k)
    ensures t == SortBy(s, key)
  {
    forall k
      ensures WithKey(t, key, k) == WithKey(SortBy(s, key), key, k)
    {
      SortByStable(s, key, k);
    }
    AscendingUnique(t, SortBy(s, key), key);
  }

  /** A prefix keeps a prefix of every key class. */
  lemma WithKeyPrefix<T>(s: seq<T>, m: nat, key: T -> real, k: real)
    requires m <= |s|
    ensures WithKey(s, key, k) == WithKey(s[..m], key, k) + WithKey(s[m..], key, k)
  {
    assert s == s[..m] + s[m..];
    WithKeyAppend(s[..m], s[m..], key, k);
  }

  /** `s` is in strictly ascending key order. */
  predicate StrictlyAscending<T>(s: seq<T>, key: T -> real) {
    forall i, j :: 0 <= i < j < |s| ==> key(s[i]) < key(s[j])
  }

  /** Every element of `s` lies in its own key class. */
  lemma {:induction false} WithKeyContains<T>(s: seq<T>, key: T -> real, x: T)
    requires x in s
    ensures x in WithKey(s, key, key(x))
    decreases |s|
  {
    if s[0] != x {
      assert x in s[1..];
      WithKeyContains(s[1..], key, x);
    }
  }

  /** A key class of a strictly ordered sequence is strictly ordered too. */
  lemma {:induction false} WithKeyKeepsStrict<T>(s: seq<T>, key: T -> real, k: real, order: T -> real)
    requires StrictlyAscending(s, order)
    ensures StrictlyAscending(WithKey(s, key, k), order)
    decreases |s|
  {
    if s != [] {
      WithKeyKeepsStrict(s[1..], key, k, order);
      var w := WithKey(s[1..], key, k);
      forall i | 0 <= i < |w|
        ensures order(s[0]) < order(w[i])
      {
        var j :| 0 <= j < |s[1..]| && s[1..][j] == w[i];
        assert s[j + 1] == w[i];
      }
    }
  }

  /** Two positions with the same key put two elements in its class. */
  lemma TwoInClass<T>(s: seq<T>, key: T -> real, i: nat, j: nat)
    requires i < j < |s| && key(s[i]) == key(s[j])
    ensures |WithKey(s, key, key(s[i]))| >= 2
  {
    var k := key(s[i]);
    WithKeyPrefix(s, j, key, k);
    assert s[i] in s[..j];
    WithKeyContains(s[..j], key, s[i]);
    WithKeyHead(s[j..], key);
  }

  /** An ascending sequence whose key classes are singletons is strictly
      ascending. */
  lemma StrictWhenClassesSmall<T>(s: seq<T>, key: T -> real)
    requires Ascending(s, key)
    requires forall k :: |WithKey(s, key, k)| <= 1
    ensures StrictlyAscending(s, key)
  {
    forall i, j | 0 <= i < j < |s|
      ensures key(s[i]) < key(s[j])
    {
      if key(s[i]) == key(s[j]) {
        TwoInClass(s, key, i, j);
      }
    }
  }

  lemma MultisetCancel<T>(p: multiset<T>, q: multiset<T>, x: T)
    requires p + multiset{x} == q + multiset{x}
    ensures p == q
  {
    assert p == p + multiset{x} - multiset{x};
    assert q == q + multiset{x} - multiset{x};
  }

  /** Rearranging a sequence does not change the size of a key class. */
  lemma {:induction false} WithKeyCountPermutation<T>(a: seq<T>, b: seq<T>, key: T -> real, k: real)
    requires multiset(a) == multiset(b)
    ensures |WithKey(a, key, k)| == |WithKey(b, key, k)|
    decreases |a|
  {
    if a == [] {
      assert |b| == |multiset(b)| == 0;
    } else {
      var n := |a| - 1;
      var x := a[n];
      assert a == a[..n] + [x];
      assert x in multiset(b) by {
        assert x in multiset(a);
      }
      var j :| 0 <= j < |b| && b[j] == x;
      var rest := b[..j] + b[j + 1..];
      assert b == b[..j] + [x] + b[j + 1..];
      assert multiset(b) == multiset(rest) + multiset{x};
      MultisetCancel(multiset(a[..n]), multiset(rest), x);
      WithKeyCountPermutation(a[..n], rest, key, k);
      WithKeyAppend(a[..n], [x], key, k);
      WithKeyAppend(b[..j], [x], key, k);
      WithKeyAppend(b[..j] + [x], b[j + 1..], key, k);
      WithKeyAppend(b[..j], b[j + 1..], key, k);
    }
  }

  /** A sequence whose keys all exceed `k` has an empty class `k`. */
  lemma {:induction false} ClassEmptyBelow<T>(s: seq<T>, key: T -> real, k: real)
    requires forall i :: 0 <= i < |s| ==> k < key(s[i])
    ensures WithKey(s, key, k) == []
    decreases |s|
  {
    if s != [] {
      ClassEmptyBelow(s[1..], key, k);
    }
  }

  /** In a strictly ordered sequence no key repeats. */
  lemma {:induction false} StrictClassesSmall<T>(s: seq<T>, key: T -> real, k: real)
    requires StrictlyAscending(s, key)
    ensures |WithKey(s, key, k)| <= 1
    decreases |s|
  {
    if s != [] {
      StrictClassesSmall(s[1..], key, k);
      if key(s[0]) == k {
        ClassEmptyBelow(s[1..], key, k);
      }
    }
  }

  /** In a strictly ordered concatenation the left part comes first. */
  lemma LeftBeforeRight<T>(a: seq<T>, b: seq<T>, order: T -> real, x: T, y: T)
    requires StrictlyAscending(a + b, order)
    requires x in a && y in b
    ensures order(x) < order(y)
  {
    var p :| 0 <= p < |a| && a[p] == x;
    var q :| 0 <= q < |b| && b[q] == y;
    assert (a + b)[p] == x && (a + b)[|a| + q] == y;
  }

  /** Cutting a stably sorted sequence: of two elements with the same key,
      the one before the cut came earlier in the input. */
  lemma StableCutKeepsEarlier<T>(s: seq<T>, key: T -> real, m: nat, order: T -> real, x: T, y: T)
    requires m <= |s| && StrictlyAscending(s, order)
    requires x in SortBy(s, key)[..m] && y in SortBy(s, key)[m..]
    requires key(x) == key(y)
    ensures order(x) < order(y)
  {
    var r := SortBy(s, key);
    var k := key(x);
    WithKeyPrefix(r, m, key, k);
    SortByStable(s, key, k);
    WithKeyKeepsStrict(s, key, k, order);
    WithKeyContains(r[..m], key, x);
    WithKeyContains(r[m..], key, y);
    LeftBeforeRight(WithKey(r[..m], key, k), WithKey(r[m..], key, k), order, x, y);
  }
}
