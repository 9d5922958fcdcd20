/** Stable sorting by a string key: what `list.sort(key=...)` produces. Python's
    sort is stable and compares keys with `<`; the result is defined here by
    insertion sort, and `SortByUnique` shows that any stable sort agrees with it. */
module Sorting {
  import opened PyStrings
  import opened Sequences

  /** No element of `s` has a smaller key than an element before it. */
  predicate SortedBy<T>(s: seq<T>, key: T -> string) {
    forall i, j :: 0 <= i < j < |s| ==> !StrLt(key(s[j]), key(s[i]))
  }

  /** No element of `s` has a larger key than an element before it. */
  predicate SortedDescendingBy<T>(s: seq<T>, key: T -> string) {
    forall i, j :: 0 <= i < j < |s| ==> !StrLt(key(s[i]), key(s[j]))
  }

  /** The elements of `s` whose key is `k`, in their order in `s`. */
  function WithKey<T>(s: seq<T>, key: T -> string, k: string): seq<T>
  {
    if s == [] then []
    else (if key(s[0]) == k then [s[0]] else []) + WithKey(s[1..], key, k)
  }

  /** A sort is stable when, for every key, the elements with that key keep the
      order they had in the input. */
  ghost predicate SameOrderPerKey<T>(r: seq<T>, s: seq<T>, key: T -> string) {
    forall k :: WithKey(r, key, k) == WithKey(s, key, k)
  }

  /** `x` placed in front of the first element of `s` whose key is not smaller. */
  function Insert<T>(x: T, s: seq<T>, key: T -> string): (r: seq<T>)
    ensures |r| == |s| + 1
  {
    if s == [] then [x]
    else if StrLt(key(s[0]), key(x)) then [s[0]] + Insert(x, s[1..], key)
    else [x] + s
  }

  /** The stable ascending sort of `s` by `key`. */
  function SortBy<T>(s: seq<T>, key: T -> string): (r: seq<T>)
    ensures |r| == |s|
  {
    if s == [] then [] else Insert(s[0], SortBy(s[1..], key), key)
  }

  lemma {:induction false} InsertPermutes<T>(x: T, s: seq<T>, key: T -> string)
    ensures multiset(Insert(x, s, key)) == multiset(s) + multiset{x}
  {
    if s != [] && StrLt(key(s[0]), key(x)) {
      InsertPermutes(x, s[1..], key);
      assert s == [s[0]] + s[1..];
    }
  }

  /** Inserting `x` adds it in front of the elements with its key, and changes
      nothing for the other keys. */
  lemma {:induction false} InsertWithKey<T>(x: T, s: seq<T>, key: T -> string, k: string)
    ensures WithKey(Insert(x, s, key), key, k) == (if key(x) == k then [x] else []) + WithKey(s, key, k)
  {
    if s == [] {
    } else if StrLt(key(s[0]), key(x)) {
      var rest := Insert(x, s[1..], key);
      InsertWithKey(x, s[1..], key, k);
      WithKeyCons(s[0], rest, key, k);
      WithKeyCons(s[0], s[1..], key, k);
      assert s == [s[0]] + s[1..];
      if key(x) == k {
        StrLtIrreflexive(k);
      }
    } else {
      WithKeyCons(x, s, key, k);
    }
  }

  /** `WithKey` on a sequence with a given first element. */
  lemma WithKeyCons<T>(y: T, t: seq<T>, key: T -> string, k: string)
    ensures WithKey([y] + t, key, k) == (if key(y) == k then [y] else []) + WithKey(t, key, k)
  {
    assert ([y] + t)[0] == y && ([y] + t)[1..] == t;
  }

  lemma {:induction false} InsertSorted<T>(x: T, s: seq<T>, key: T -> string)
    requires SortedBy(s, key)
    ensures SortedBy(Insert(x, s, key), key)
  {
    var r := Insert(x, s, key);
    if s == [] {
    } else if StrLt(key(s[0]), key(x)) {
      var rest := Insert(x, s[1..], key);
      InsertSorted(x, s[1..], key);
      InsertPermutes(x, s[1..], key);
      assert r[1..] == rest;
      forall j | 0 < j < |r|
        ensures !StrLt(key(r[j]), key(r[0]))
      {
        var y := r[j];
        assert y in multiset(rest);
        if y == x {
          StrLtTotal(key(s[0]), key(x));
        } else {
          assert y in multiset(s[1..]);
          var m :| 0 <= m < |s[1..]| && s[1..][m] == y;
          assert y == s[m + 1];
        }
      }
      forall i, j | 0 < i < j < |r|
        ensures !StrLt(key(r[j]), key(r[i]))
      {
        assert r[i] == rest[i - 1] && r[j] == rest[j - 1];
      }
    } else {
      forall j | 1 < j < |r|
        ensures !StrLt(key(r[j]), key(r[0]))
      {
        assert r[j] == s[j - 1];
        assert !StrLt(key(s[j - 1]), key(s[0]));
        StrLtTotal(key(s[j - 1]), key(s[0]));
        StrLtTotal(key(s[0]), key(x));
        if StrLt(key(s[j - 1]), key(x)) && StrLt(key(s[0]), key(s[j - 1])) {
          StrLtTransitive(key(s[0]), key(s[j - 1]), key(x));
        }
      }
      forall i, j | 0 < i < j < |r|
        ensures !StrLt(key(r[j]), key(r[i]))
      {
        assert r[i] == s[i - 1] && r[j] == s[j - 1];
      }
    }
  }

  /** The sorted sequence is in ascending key order, a permutation of the input,
      and stable. */
  lemma {:induction false} SortByProperties<T>(s: seq<T>, key: T -> string)
    ensures SortedBy(SortBy(s, key), key)
    ensures multiset(SortBy(s, key)) == multiset(s)
    ensures SameOrderPerKey(SortBy(s, key), s, key)
  {
    if s != [] {
      var rest := SortBy(s[1..], key);
      SortByProperties(s[1..], key);
      InsertSorted(s[0], rest, key);
      InsertPermutes(s[0], rest, key);
      assert s == [s[0]] + s[1..];
      forall k
        ensures WithKey(SortBy(s, key), key, k) == WithKey(s, key, k)
      {
        InsertWithKey(s[0], rest, key, k);
      }
    }
  }

  lemma {:induction false} WithKeyMember<T>(s: seq<T>, key: T -> string, k: string, x: T)
    requires x in WithKey(s, key, k)
    ensures x in s && key(x) == k
  {
    if s != [] && x != s[0] {
      WithKeyMember(s[1..], key, k, x);
    } else if s != [] && key(s[0]) != k {
      WithKeyMember(s[1..], key, k, x);
    }
  }

  lemma SameOrderPerKeyEmpty<T>(r: seq<T>, t: seq<T>, key: T -> string)
    requires SameOrderPerKey(r, t, key)
    ensures r == [] <==> t == []
  {
    if r != [] { assert WithKey(r, key, key(r[0])) != []; }
    if t != [] { assert WithKey(t, key, key(t[0])) != []; }
  }

  /** Two sequences in ascending key order that agree on the order of the elements
      of each key are equal. */
  lemma {:induction false} SortedStableUnique<T>(r: seq<T>, t: seq<T>, key: T -> string)
    requires SortedBy(r, key) && SortedBy(t, key)
    requires SameOrderPerKey(r, t, key)
    decreases |r|
    ensures r == t
  {
    SameOrderPerKeyEmpty(r, t, key);
    if r != [] {
      var k0, k1 := key(r[0]), key(t[0]);
      assert WithKey(r, key, k0)[0] == r[0];
      assert r[0] in WithKey(t, key, k0);
      WithKeyMember(t, key, k0, r[0]);
      var i :| 0 <= i < |t| && t[i] == r[0];
      assert i == 0 || !StrLt(k0, k1);
      assert WithKey(t, key, k1)[0] == t[0];
      assert t[0] in WithKey(r, key, k1);
      WithKeyMember(r, key, k1, t[0]);
      var j :| 0 <= j < |r| && r[j] == t[0];
      assert j == 0 || !StrLt(k1, k0);
      StrLtTotal(k0, k1);
      assert k0 == k1;
      assert r[0] == t[0];
      forall k
        ensures WithKey(r[1..], key, k) == WithKey(t[1..], key, k)
      {
        var wr, wt := WithKey(r, key, k), WithKey(t, key, k);
        assert wr == wt;
        assert wr == (if k0 == k then [r[0]] else []) + WithKey(r[1..], key, k);
        assert wt == (if k0 == k then [t[0]] else []) + WithKey(t[1..], key, k);
        if k == k0 {
          assert WithKey(r[1..], key, k) == wr[1..];
          assert WithKey(t[1..], key, k) == wt[1..];
        } else {
          assert WithKey(r[1..], key, k) == wr;
          assert WithKey(t[1..], key, k) == wt;
        }
      }
      SortedStableUnique(r[1..], t[1..], key);
      assert r == [r[0]] + r[1..];
      assert t == [t[0]] + t[1..];
    }
  }

  /** Any stable ascending sort of `s` by `key` gives `SortBy(s, key)`, whatever
      algorithm finds it. */
  lemma SortByUnique<T>(s: seq<T>, r: seq<T>, key: T -> string)
    requires SortedBy(r, key) && SameOrderPerKey(r, s, key)
    ensures r == SortBy(s, key)
  {
    SortByProperties(s, key);
    SortedStableUnique(r, SortBy(s, key), key);
  }

  /** Reversing an ascending sequence gives a descending one with the same elements. */
  lemma ReverseOfSorted<T>(s: seq<T>, key: T -> string)
    requires SortedBy(s, key)
    ensures SortedDescendingBy(Reverse(s), key)
    ensures multiset(Reverse(s)) == multiset(s)
  {
    ReverseProperties(s);
    var r := Reverse(s);
    forall i, j | 0 <= i < j < |r|
      ensures !StrLt(key(r[i]), key(r[j]))
    {
      assert r[i] == s[|s| - 1 - i] && r[j] == s[|s| - 1 - j];
    }
  }
}
