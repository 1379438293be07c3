/**
 * The stable sort that `[...items].sort(comparator)` performs
 * (src/shared/infra/db/in-memory/in-memory-repository.ts:95-109).
 * `Array.prototype.sort` has been stable since ECMAScript 2019 (section
 * 23.1.3.30 of the 2023 edition); with a consistent comparator a stable sort
 * has exactly one possible result, so insertion sort stands for the engine's
 * algorithm (see SortIsUnique).
 */
module StableSort {
  import opened SortKeys

  /** No element of `s` compares after an element that follows it. */
  predicate SortedBy<E>(s: seq<E>, key: E -> Key, dir: SortDirection) {
    forall i, j :: 0 <= i < j < |s| ==> Compare(dir, key(s[i]), key(s[j])) <= 0
  }

  /** The elements of `s` whose key is `k`, in their order in `s`. */
  function WithKey<E>(s: seq<E>, key: E -> Key, k: Key): seq<E> {
    if s == [] then []
    else (if key(s[0]) == k then [s[0]] else []) + WithKey(s[1..], key, k)
  }

  /** Puts `x` into the sorted `t` after every element that does not compare after it. */
  function Insert<E>(x: E, t: seq<E>, key: E -> Key, dir: SortDirection): seq<E> {
    if t == [] then [x]
    else if Compare(dir, key(x), key(t[0])) < 0 then [x] + t
    else [t[0]] + Insert(x, t[1..], key, dir)
  }

  /** Insertion sort: each element, in input order, goes into the sorted prefix. */
  function Sort<E>(s: seq<E>, key: E -> Key, dir: SortDirection): seq<E> {
    if s == [] then []
    else Insert(s[|s| - 1], Sort(s[..|s| - 1], key, dir), key, dir)
  }

  /** WithKey unfolded once, on a sequence written as head and tail. */
  lemma WithKeyCons<E>(x: E, s: seq<E>, key: E -> Key, k: Key)
    ensures WithKey([x] + s, key, k) == (if key(x) == k then [x] else []) + WithKey(s, key, k)
  {
    assert ([x] + s)[0] == x && ([x] + s)[1..] == s;
  }

  lemma {:induction false} WithKeyAppend<E>(a: seq<E>, b: seq<E>, key: E -> Key, k: Key)
    ensures WithKey(a + b, key, k) == WithKey(a, key, k) + WithKey(b, key, k)
    decreases |a|
  {
    if a == [] {
      assert a + b == b;
    } else {
      WithKeyAppend(a[1..], b, key, k);
      assert a + b == [a[0]] + (a[1..] + b);
      WithKeyCons(a[0], a[1..] + b, key, k);
      assert a == [a[0]] + a[1..];
      WithKeyCons(a[0], a[1..], key, k);
    }
  }

  lemma {:induction false} WithKeyAbsent<E>(s: seq<E>, key: E -> Key, k: Key)
    requires forall j :: 0 <= j < |s| ==> key(s[j]) != k
    ensures WithKey(s, key, k) == []
    decreases |s|
  {
    if s != [] {
      WithKeyAbsent(s[1..], key, k);
    }
  }

  lemma {:induction false} WithKeyPresent<E>(s: seq<E>, key: E -> Key, j: nat)
    requires j < |s|
    ensures WithKey(s, key, key(s[j])) != []
    decreases j
  {
    if j > 0 && key(s[0]) != key(s[j]) {
      WithKeyPresent(s[1..], key, j - 1);
    }
  }

  /** A non-empty sequence holds its head's key. */
  lemma HeadKeyPresent<E>(s: seq<E>, key: E -> Key)
    ensures s != [] ==> WithKey(s, key, key(s[0])) != []
  {
  }

  lemma {:induction false} InsertIsPermutation<E>(x: E, t: seq<E>, key: E -> Key, dir: SortDirection)
    ensures multiset(Insert(x, t, key, dir)) == multiset(t) + multiset{x}
    decreases |t|
  {
    if t != [] && Compare(dir, key(x), key(t[0])) >= 0 {
      InsertIsPermutation(x, t[1..], key, dir);
      assert t == [t[0]] + t[1..];
    }
  }

  lemma {:induction false} InsertKeepsSorted<E>(x: E, t: seq<E>, key: E -> Key, dir: SortDirection)
    requires SortedBy(t, key, dir)
    ensures SortedBy(Insert(x, t, key, dir), key, dir)
    decreases |t|
  {
    if t == [] {
    } else if Compare(dir, key(x), key(t[0])) < 0 {
      forall j | 0 <= j < |t|
        ensures Compare(dir, key(x), key(t[j])) <= 0
      {
        CompareIsConsistent(dir, key(x), key(t[0]), key(t[j]));
      }
    } else {
      var rest := Insert(x, t[1..], key, dir);
      InsertKeepsSorted(x, t[1..], key, dir);
      InsertIsPermutation(x, t[1..], key, dir);
      forall j | 0 <= j < |rest|
        ensures Compare(dir, key(t[0]), key(rest[j])) <= 0
      {
        assert rest[j] in multiset(rest);
        if rest[j] == x {
          CompareIsConsistent(dir, key(x), key(t[0]), key(x));
        } else {
          assert rest[j] in t[1..];
        }
      }
    }
  }

  lemma {:induction false} InsertIsStable<E>(x: E, t: seq<E>, key: E -> Key, dir: SortDirection, k: Key)
    requires SortedBy(t, key, dir)
    ensures WithKey(Insert(x, t, key, dir), key, k)
         == WithKey(t, key, k) + (if key(x) == k then [x] else [])
    decreases |t|
  {
    if t == [] {
      WithKeyCons(x, [], key, k);
    } else if Compare(dir, key(x), key(t[0])) < 0 {
      WithKeyCons(x, t, key, k);
      if key(x) == k {
        forall j | 0 <= j < |t|
          ensures key(t[j]) != k
        {
          CompareIsConsistent(dir, key(x), key(t[0]), key(t[j]));
          CompareIsConsistent(dir, key(x), key(x), key(x));
        }
        WithKeyAbsent(t, key, k);
      }
    } else {
      InsertIsStable(x, t[1..], key, dir, k);
      WithKeyCons(t[0], Insert(x, t[1..], key, dir), key, k);
      assert t == [t[0]] + t[1..];
      WithKeyCons(t[0], t[1..], key, k);
    }
  }

  /** The sort returns a permutation of its input. */
  lemma {:induction false} SortIsPermutation<E>(s: seq<E>, key: E -> Key, dir: SortDirection)
    ensures multiset(Sort(s, key, dir)) == multiset(s)
    decreases |s|
  {
    if s != [] {
      var prefix := s[..|s| - 1];
      SortIsPermutation(prefix, key, dir);
      InsertIsPermutation(s[|s| - 1], Sort(prefix, key, dir), key, dir);
      assert s == prefix + [s[|s| - 1]];
    }
  }

  /** The result never puts an element after one that compares after it. */
  lemma {:induction false} SortIsSorted<E>(s: seq<E>, key: E -> Key, dir: SortDirection)
    ensures SortedBy(Sort(s, key, dir), key, dir)
    decreases |s|
  {
    if s != [] {
      SortIsSorted(s[..|s| - 1], key, dir);
      InsertKeepsSorted(s[|s| - 1], Sort(s[..|s| - 1], key, dir), key, dir);
    }
  }

  /** Elements with equal keys keep their input order. */
  lemma {:induction false} SortIsStable<E>(s: seq<E>, key: E -> Key, dir: SortDirection, k: Key)
    ensures WithKey(Sort(s, key, dir), key, k) == WithKey(s, key, k)
    decreases |s|
  {
    if s != [] {
      var prefix, last := s[..|s| - 1], s[|s| - 1];
      SortIsStable(prefix, key, dir, k);
      SortIsSorted(prefix, key, dir);
      InsertIsStable(last, Sort(prefix, key, dir), key, dir, k);
      assert s == prefix + [last];
      WithKeyAppend(prefix, [last], key, k);
      WithKeyCons(last, [], key, k);
    }
  }

  /**
   * Two sorted sequences that hold, key by key, the same elements in the same
   * order are equal.
   */
  lemma {:induction false} SortedWithSameKeysAreEqual<E>(r1: seq<E>, r2: seq<E>, key: E -> Key, dir: SortDirection)
    requires SortedBy(r1, key, dir) && SortedBy(r2, key, dir)
    requires forall k :: WithKey(r1, key, k) == WithKey(r2, key, k)
    ensures r1 == r2
    decreases |r1| + |r2|
  {
    HeadKeyPresent(r1, key);
    HeadKeyPresent(r2, key);
    if r1 != [] && r2 != [] {
      var k1, k2 := key(r1[0]), key(r2[0]);
      // Each head's key occurs in the other sequence, whose head is not after it.
      WithKeyPresent(r1, key, 0);
      WithKeyPresent(r2, key, 0);
      FirstWithKeyIsNotBeforeHead(r2, key, dir, k1);
      FirstWithKeyIsNotBeforeHead(r1, key, dir, k2);
      CompareIsConsistent(dir, k1, k2, k1);
      assert k1 == k2;
      assert r1 == [r1[0]] + r1[1..] && r2 == [r2[0]] + r2[1..];
      WithKeyCons(r1[0], r1[1..], key, k1);
      WithKeyCons(r2[0], r2[1..], key, k1);
      assert r1[0] == WithKey(r1, key, k1)[0] == WithKey(r2, key, k1)[0] == r2[0];
      forall k
        ensures WithKey(r1[1..], key, k) == WithKey(r2[1..], key, k)
      {
        var head := if k1 == k then [r1[0]] else [];
        WithKeyCons(r1[0], r1[1..], key, k);
        WithKeyCons(r2[0], r2[1..], key, k);
        assert WithKey(r1[1..], key, k) == (head + WithKey(r1[1..], key, k))[|head|..];
        assert WithKey(r2[1..], key, k) == (head + WithKey(r2[1..], key, k))[|head|..];
      }
      SortedWithSameKeysAreEqual(r1[1..], r2[1..], key, dir);
      assert r1 == [r1[0]] + r1[1..] && r2 == [r2[0]] + r2[1..];
    }
  }

  /** In a sorted sequence that holds key `k`, the head does not compare after `k`. */
  lemma {:induction false} FirstWithKeyIsNotBeforeHead<E>(r: seq<E>, key: E -> Key, dir: SortDirection, k: Key)
    requires SortedBy(r, key, dir)
    requires WithKey(r, key, k) != []
    ensures r != [] && Compare(dir, key(r[0]), k) <= 0
    decreases |r|
  {
    if key(r[0]) != k {
      FirstWithKeyIsNotBeforeHead(r[1..], key, dir, k);
      CompareIsConsistent(dir, key(r[0]), key(r[1]), k);
    } else {
      CompareIsConsistent(dir, k, k, k);
    }
  }

  /**
   * Any result a stable sort may give with this comparator (a sorted sequence
   * keeping, key by key, the input order) is the result of Sort.
   */
  lemma SortIsUnique<E>(s: seq<E>, r: seq<E>, key: E -> Key, dir: SortDirection)
    requires SortedBy(r, key, dir)
    requires forall k :: WithKey(r, key, k) == WithKey(s, key, k)
    ensures r == Sort(s, key, dir)
  {
    SortIsSorted(s, key, dir);
    forall k
      ensures WithKey(r, key, k) == WithKey(Sort(s, key, dir), key, k)
    {
      SortIsStable(s, key, dir, k);
    }
    SortedWithSameKeysAreEqual(r, Sort(s, key, dir), key, dir);
  }
}
