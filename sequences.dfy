/** Order-preserving de-duplication and reversal of sequences: the list
    operations `x not in files; files.append(x)` and `list.reverse()`. */
module Sequences {
  import opened Wrappers

  predicate NoDuplicates<T(==)>(s: seq<T>) {
    forall i, j :: 0 <= i < j < |s| ==> s[i] != s[j]
  }

  /** The index of the first occurrence of `x` in `s`: `s.index(x)`. */
  function IndexOf<T(==)>(s: seq<T>, x: T): (k: nat)
    requires x in s
    ensures k < |s| && s[k] == x && x !in s[..k]
  {
    if s[0] == x then 0
    else
      var k := 1 + IndexOf(s[1..], x);
      assert s[..k] == [s[0]] + s[1..][..k - 1];
      k
  }

  /** `s` with every element after its first occurrence dropped, built as the
      loop `if x not in out: out.append(x)` builds it. */
  function Dedup<T(==)>(s: seq<T>): (r: seq<T>)
    ensures |r| <= |s|
  {
    if s == [] then []
    else
      var out := Dedup(s[..|s| - 1]);
      if s[|s| - 1] in out then out else out + [s[|s| - 1]]
  }

  /** Appending one element to the input extends the de-duplicated output by that
      element exactly when the element is new: one step of the loop. */
  lemma DedupAppend<T>(s: seq<T>, x: T)
    ensures Dedup(s + [x]) == if x in Dedup(s) then Dedup(s) else Dedup(s) + [x]
  {
    assert (s + [x])[..|s + [x]| - 1] == s;
  }

  /** The de-duplicated sequence holds exactly the elements of the input, each once,
      and is no longer than the input. */
  lemma {:induction false} DedupContents<T>(s: seq<T>)
    ensures NoDuplicates(Dedup(s))
    ensures forall x :: x in Dedup(s) <==> x in s
    ensures |Dedup(s)| <= |s|
  {
    if s != [] {
      var init := s[..|s| - 1];
      DedupContents(init);
      assert s == init + [s[|s| - 1]];
    }
  }

  /** The elements of the de-duplicated sequence stand in the order of their first
      occurrences in the input. */
  lemma {:induction false} DedupFirstOccurrenceOrder<T>(s: seq<T>)
    ensures forall x :: x in Dedup(s) ==> x in s
    ensures forall i, j :: 0 <= i < j < |Dedup(s)| ==> IndexOf(s, Dedup(s)[i]) < IndexOf(s, Dedup(s)[j])
  {
    DedupContents(s);
    if s != [] {
      var init, x := s[..|s| - 1], s[|s| - 1];
      var d := Dedup(init);
      DedupFirstOccurrenceOrder(init);
      DedupContents(init);
      assert s == init + [x];
      forall y | y in init
        ensures IndexOf(s, y) == IndexOf(init, y)
      {
        IndexOfAppend(init, x, y);
      }
      if x !in d {
        assert x !in init;
        IndexOfAppendNew(init, x);
        forall i, j | 0 <= i < j < |Dedup(s)|
          ensures IndexOf(s, Dedup(s)[i]) < IndexOf(s, Dedup(s)[j])
        {
          assert Dedup(s)[i] == d[i] && Dedup(s)[i] in init;
          if j == |d| {
            assert Dedup(s)[j] == x;
          } else {
            assert Dedup(s)[j] == d[j] && Dedup(s)[j] in init;
          }
        }
      }
    }
  }

  lemma IndexOfAppend<T>(s: seq<T>, x: T, y: T)
    requires y in s
    ensures IndexOf(s + [x], y) == IndexOf(s, y)
  {
    var k := IndexOf(s, y);
    assert (s + [x])[k] == y;
    assert (s + [x])[..k] == s[..k];
    var k' := IndexOf(s + [x], y);
    assert (s + [x])[..k'] == s[..k'] || k' == |s|;
  }

  lemma IndexOfAppendNew<T>(s: seq<T>, x: T)
    requires x !in s
    ensures IndexOf(s + [x], x) == |s|
  {
    assert (s + [x])[|s|] == x;
  }

  /** The values `f` yields on the elements of `s`, in the order of `s`. */
  function FilterMap<T, U>(s: seq<T>, f: T -> Option<U>): seq<U>
  {
    if s == [] then []
    else
      var before := FilterMap(s[..|s| - 1], f);
      match f(s[|s| - 1])
      case None => before
      case Some(y) => before + [y]
  }

  /** `FilterMap` holds what `f` yields on some element, and nothing else; at most
      one value per element. */
  lemma {:induction false} FilterMapMembers<T, U>(s: seq<T>, f: T -> Option<U>, y: U)
    ensures y in FilterMap(s, f) <==> exists i :: 0 <= i < |s| && f(s[i]) == Some(y)
    ensures |FilterMap(s, f)| <= |s|
  {
    if s != [] {
      var init := s[..|s| - 1];
      FilterMapMembers(init, f, y);
      if exists i :: 0 <= i < |s| && f(s[i]) == Some(y) {
        var i :| 0 <= i < |s| && f(s[i]) == Some(y);
        if i < |init| { assert init[i] == s[i]; }
      }
      if exists i :: 0 <= i < |init| && f(init[i]) == Some(y) {
        var i :| 0 <= i < |init| && f(init[i]) == Some(y);
        assert init[i] == s[i];
      }
    }
  }

  /** `[f(x) for x in s]` where `f` may raise: all the values, or the first error. */
  function MapAll<T, U, E>(s: seq<T>, f: T -> Result<U, E>): (r: Result<seq<U>, E>)
    ensures r.Ok? ==> |r.value| == |s|
  {
    if s == [] then Ok([])
    else match f(s[0])
      case Err(e) => Err(e)
      case Ok(y) =>
        match MapAll(s[1..], f)
        case Err(e) => Err(e)
        case Ok(ys) => Ok([y] + ys)
  }

  /** `MapAll` succeeds exactly when `f` succeeds on every element, and then holds
      the values in order; otherwise it fails with the error of the first failure. */
  lemma {:induction false} MapAllResult<T, U, E>(s: seq<T>, f: T -> Result<U, E>)
    ensures MapAll(s, f).Ok? <==> forall i :: 0 <= i < |s| ==> f(s[i]).Ok?
    ensures MapAll(s, f).Ok? ==> |MapAll(s, f).value| == |s|
    ensures MapAll(s, f).Ok? ==> forall i :: 0 <= i < |s| ==> MapAll(s, f).value[i] == f(s[i]).value
    ensures MapAll(s, f).Err? ==> exists i :: 0 <= i < |s| && f(s[i]) == Err(MapAll(s, f).error)
                                   && forall j :: 0 <= j < i ==> f(s[j]).Ok?
  {
    if s != [] && f(s[0]).Ok? {
      var rest := s[1..];
      MapAllResult(rest, f);
      assert forall i :: 1 <= i < |s| ==> s[i] == rest[i - 1];
      if MapAll(rest, f).Err? {
        var i :| 0 <= i < |rest| && f(rest[i]) == Err(MapAll(rest, f).error)
                 && forall j :: 0 <= j < i ==> f(rest[j]).Ok?;
        assert f(s[i + 1]) == Err(MapAll(s, f).error);
        assert forall j :: 0 <= j < i + 1 ==> f(s[j]).Ok? by {
          assert forall j :: 1 <= j < i + 1 ==> s[j] == rest[j - 1];
        }
      } else {
        assert f(s[0]).Ok?;
      }
    }
  }

  /** `s` back to front: the effect of `list.reverse()`. */
  function Reverse<T>(s: seq<T>): (r: seq<T>)
    ensures |r| == |s|
  {
    if s == [] then [] else Reverse(s[1..]) + [s[0]]
  }

  /** Reversal keeps the elements and their multiplicities, and puts element `k`
      at index `|s| - 1 - k`. */
  lemma {:induction false} ReverseProperties<T>(s: seq<T>)
    ensures |Reverse(s)| == |s|
    ensures forall k :: 0 <= k < |s| ==> Reverse(s)[k] == s[|s| - 1 - k]
    ensures multiset(Reverse(s)) == multiset(s)
  {
    if s != [] {
      ReverseProperties(s[1..]);
      assert s == [s[0]] + s[1..];
    }
  }
}
