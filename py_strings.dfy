/** The Python `str` operations the EDL parser is built from: `isspace`/`strip`,
    `split`, `startswith`, `zfill` and the ordering `<` of strings. */
module PyStrings {
  import opened Wrappers

  /** `c.isspace()`: exactly the characters that `str.strip()` removes. */
  predicate IsSpace(c: char) {
    || ('\t' <= c <= '\r')
    || ('\U{1C}' <= c <= '\U{1F}')
    || c == ' ' || c == '\U{85}' || c == '\U{A0}' || c == '\U{1680}'
    || ('\U{2000}' <= c <= '\U{200A}')
    || c == '\U{2028}' || c == '\U{2029}' || c == '\U{202F}' || c == '\U{205F}' || c == '\U{3000}'
  }

  predicate AllSpace(s: string) {
    forall i :: 0 <= i < |s| ==> IsSpace(s[i])
  }

  /** `s.strip()`: `s` with the white space at both ends removed. */
  function Strip(s: string): (r: string)
    decreases |s|
    ensures |r| <= |s|
    ensures r == [] || (!IsSpace(r[0]) && !IsSpace(r[|r| - 1]))
  {
    if s != [] && IsSpace(s[0]) then Strip(s[1..])
    else if s != [] && IsSpace(s[|s| - 1]) then Strip(s[..|s| - 1])
    else s
  }

  /** The number of white-space characters at the start of `s`. */
  function LeadingSpaces(s: string): (n: nat)
    ensures n <= |s|
  {
    if s != [] && IsSpace(s[0]) then 1 + LeadingSpaces(s[1..]) else 0
  }

  /** `s.strip()` removes white space only, and only at the two ends: `s` is its
      result with the leading white space before it and the rest, all white
      space, after it. */
  lemma StripRemovesOnlyOuterSpace(s: string)
    ensures LeadingSpaces(s) + |Strip(s)| <= |s|
    ensures Strip(s) == s[LeadingSpaces(s)..LeadingSpaces(s) + |Strip(s)|]
    ensures AllSpace(s[..LeadingSpaces(s)]) && AllSpace(s[LeadingSpaces(s) + |Strip(s)|..])
  {
    StripIsSlice(s);
    StripDropsSpace(s);
  }

  lemma {:induction false} StripIsSlice(s: string)
    decreases |s|
    ensures LeadingSpaces(s) + |Strip(s)| <= |s|
    ensures Strip(s) == s[LeadingSpaces(s)..LeadingSpaces(s) + |Strip(s)|]
  {
    var r, i := Strip(s), LeadingSpaces(s);
    if s != [] && IsSpace(s[0]) {
      StripIsSlice(s[1..]);
      SliceOfSuffix(s, 1, i - 1, i - 1 + |r|);
    } else if s != [] && IsSpace(s[|s| - 1]) {
      var t := s[..|s| - 1];
      StripIsSlice(t);
      assert i == 0 && LeadingSpaces(t) == 0 by {
        assert t != [] ==> t[0] == s[0];
      }
      SliceOfPrefix(s, |s| - 1, 0, |r|);
    } else {
      assert s[0..|s|] == s;
    }
  }

  lemma SliceOfSuffix<T>(s: seq<T>, d: nat, a: nat, b: nat)
    requires a <= b && d + b <= |s|
    ensures s[d..][a..b] == s[d + a..d + b]
  {
  }

  lemma SliceOfSlice<T>(s: seq<T>, a: nat, b: nat, i: nat, j: nat)
    requires a <= b <= |s| && i <= j <= b - a
    ensures s[a..b][i..j] == s[a + i..a + j]
  {
    var t := s[a..b];
    forall k | 0 <= k < j - i
      ensures t[i..j][k] == s[a + i..a + j][k]
    {
      assert t[i..j][k] == t[i + k] == s[a + i + k];
    }
  }

  lemma SliceOfPrefix<T>(s: seq<T>, n: nat, a: nat, b: nat)
    requires a <= b <= n <= |s|
    ensures s[..n][a..b] == s[a..b]
  {
  }

  lemma {:induction false} StripDropsSpace(s: string)
    decreases |s|
    requires LeadingSpaces(s) + |Strip(s)| <= |s|
    ensures AllSpace(s[..LeadingSpaces(s)]) && AllSpace(s[LeadingSpaces(s) + |Strip(s)|..])
  {
    var n, i := |Strip(s)|, LeadingSpaces(s);
    if s != [] && IsSpace(s[0]) {
      var t := s[1..];
      StripIsSlice(t);
      StripDropsSpace(t);
      SpaceBeforeSpace(s, i - 1, n);
    } else if s != [] && IsSpace(s[|s| - 1]) {
      var t := s[..|s| - 1];
      StripIsSlice(t);
      StripDropsSpace(t);
      assert i == 0 && LeadingSpaces(t) == 0 by {
        assert t != [] ==> t[0] == s[0];
      }
      SpaceAfterSpace(s, n);
    } else {
      assert s[..0] == [] && s[|s|..] == [];
    }
  }

  /** A white-space character in front keeps both white-space ends white space. */
  lemma SpaceBeforeSpace(s: string, i: nat, n: nat)
    requires s != [] && IsSpace(s[0]) && i + n <= |s| - 1
    requires AllSpace(s[1..][..i]) && AllSpace(s[1..][i + n..])
    ensures AllSpace(s[..i + 1]) && AllSpace(s[i + 1 + n..])
  {
    assert s[i + 1 + n..] == s[1..][i + n..];
    var front := s[..i + 1];
    forall k | 0 <= k < |front| ensures IsSpace(front[k]) {
      if k > 0 { assert front[k] == s[1..][..i][k - 1]; }
    }
  }

  /** A white-space character at the back keeps the trailing end white space. */
  lemma SpaceAfterSpace(s: string, n: nat)
    requires s != [] && IsSpace(s[|s| - 1]) && n <= |s| - 1
    requires AllSpace(s[..|s| - 1][n..])
    ensures AllSpace(s[n..])
  {
    var back := s[n..];
    forall k | 0 <= k < |back| ensures IsSpace(back[k]) {
      if k < |back| - 1 { assert back[k] == s[..|s| - 1][n..][k]; }
    }
  }

  /** `s.startswith(p)`. */
  predicate StartsWith(s: string, p: string) {
    |p| <= |s| && s[..|p|] == p
  }

  /** `sep` occurs in `s` at index `k`. */
  predicate OccursAt(s: string, sep: string, k: nat) {
    k + |sep| <= |s| && s[k..k + |sep|] == sep
  }

  /** `sep in s`. */
  predicate Contains(s: string, sep: string) {
    exists k: nat :: k <= |s| && OccursAt(s, sep, k)
  }

  /** The first index at or after `from` where `sep` occurs in `s`: the search
      `str.split` makes for each separator. */
  function FindFrom(s: string, sep: string, from: nat): (r: Option<nat>)
    decreases |s| - from
    ensures r.Some? ==> from <= r.value && OccursAt(s, sep, r.value)
  {
    if from + |sep| > |s| then None
    else if OccursAt(s, sep, from) then Some(from)
    else FindFrom(s, sep, from + 1)
  }

  /** `FindFrom` finds the first occurrence: there is none before it, and none
      at all when it finds nothing. */
  lemma {:induction false} FindFromIsFirst(s: string, sep: string, from: nat)
    decreases |s| - from
    ensures forall k: nat :: from <= k && (FindFrom(s, sep, from).None? || k < FindFrom(s, sep, from).value)
              ==> !OccursAt(s, sep, k)
  {
    if from + |sep| <= |s| && !OccursAt(s, sep, from) {
      FindFromIsFirst(s, sep, from + 1);
    }
  }

  /** Concatenation of `parts` with `sep` between neighbours: `sep.join(parts)`. */
  function Join(parts: seq<string>, sep: string): string
  {
    if |parts| <= 1 then (if parts == [] then "" else parts[0])
    else parts[0] + sep + Join(parts[1..], sep)
  }

  /** The parts of `s[start..]` cut at every occurrence of `sep` found from
      `start` on, left to right and without overlap. */
  function SplitFrom(s: string, sep: string, start: nat): (parts: seq<string>)
    requires |sep| > 0 && start <= |s|
    decreases |s| - start
    ensures |parts| >= 1
  {
    match FindFrom(s, sep, start)
    case None => [s[start..]]
    case Some(k) => [s[start..k]] + SplitFrom(s, sep, k + |sep|)
  }

  /** `s.split(sep)` for a non-empty separator. */
  function Split(s: string, sep: string): (parts: seq<string>)
    requires |sep| > 0
    ensures |parts| >= 1
  {
    SplitFrom(s, sep, 0)
  }

  /** Joining the parts of `s.split(sep)` with `sep` gives back `s`, and no part holds `sep`. */
  lemma SplitJoin(s: string, sep: string)
    requires |sep| > 0
    ensures Join(Split(s, sep), sep) == s
    ensures forall i :: 0 <= i < |Split(s, sep)| ==> !Contains(Split(s, sep)[i], sep)
  {
    SplitFromJoin(s, sep, 0);
    assert s[0..] == s;
  }

  lemma {:induction false} SplitFromJoin(s: string, sep: string, start: nat)
    requires |sep| > 0 && start <= |s|
    decreases |s| - start
    ensures Join(SplitFrom(s, sep, start), sep) == s[start..]
    ensures forall i :: 0 <= i < |SplitFrom(s, sep, start)| ==> !Contains(SplitFrom(s, sep, start)[i], sep)
  {
    SplitFromJoinsBack(s, sep, start);
    SplitFromPartsLackSep(s, sep, start);
  }

  lemma {:induction false} SplitFromJoinsBack(s: string, sep: string, start: nat)
    requires |sep| > 0 && start <= |s|
    decreases |s| - start
    ensures Join(SplitFrom(s, sep, start), sep) == s[start..]
  {
    match FindFrom(s, sep, start)
    case None =>
    case Some(k) =>
      var next := k + |sep|;
      SplitFromJoinsBack(s, sep, next);
      JoinCons(s[start..k], SplitFrom(s, sep, next), sep);
      Glue(s, start, k, next, sep);
  }

  lemma {:induction false} SplitFromPartsLackSep(s: string, sep: string, start: nat)
    requires |sep| > 0 && start <= |s|
    decreases |s| - start
    ensures forall i :: 0 <= i < |SplitFrom(s, sep, start)| ==> !Contains(SplitFrom(s, sep, start)[i], sep)
  {
    FindFromIsFirst(s, sep, start);
    var parts := SplitFrom(s, sep, start);
    match FindFrom(s, sep, start)
    case None =>
      NoOccurrenceBetween(s, sep, start, |s|);
      assert parts[0] == s[start..|s|];
    case Some(k) =>
      var rest := SplitFrom(s, sep, k + |sep|);
      SplitFromPartsLackSep(s, sep, k + |sep|);
      NoOccurrenceBetween(s, sep, start, k);
      forall i | 0 <= i < |parts|
        ensures !Contains(parts[i], sep)
      {
        if i > 0 { assert parts[i] == rest[i - 1]; }
      }
  }

  lemma JoinCons(x: string, rest: seq<string>, sep: string)
    requires |rest| >= 1
    ensures Join([x] + rest, sep) == x + sep + Join(rest, sep)
  {
    assert ([x] + rest)[1..] == rest;
  }

  lemma Glue<T>(s: seq<T>, a: nat, b: nat, c: nat, middle: seq<T>)
    requires a <= b <= c <= |s| && s[b..c] == middle
    ensures s[a..b] + middle + s[c..] == s[a..]
  {
  }

  /** A slice `s[a..b]` that has no occurrence of `sep` starting in it and ending
      by `b` does not contain `sep`. */
  lemma NoOccurrenceBetween(s: string, sep: string, a: nat, b: nat)
    requires a <= b <= |s|
    requires forall k: nat :: a <= k && k + |sep| <= b ==> !OccursAt(s, sep, k)
    ensures !Contains(s[a..b], sep)
  {
    forall k: nat | OccursAt(s[a..b], sep, k)
      ensures false
    {
      SliceOfSlice(s, a, b, k, k + |sep|);
      assert OccursAt(s, sep, a + k);
    }
  }

  /** `s.split(sep)` has a second part exactly when `sep` occurs in `s`: indexing
      `[1]` raises IndexError otherwise. */
  lemma SplitHasSecondPart(s: string, sep: string)
    requires |sep| > 0
    ensures |Split(s, sep)| >= 2 <==> Contains(s, sep)
  {
    FindFromIsFirst(s, sep, 0);
    match FindFrom(s, sep, 0)
    case None =>
    case Some(k) =>
  }

  /** `s.split(sep)[1]`: the text between the first occurrence of `sep` and the next
      one (or the end), or None when `sep` does not occur and indexing raises. */
  function SecondField(s: string, sep: string): (r: Option<string>)
    requires |sep| > 0
    ensures r.None? <==> !Contains(s, sep)
  {
    FindFromIsFirst(s, sep, 0);
    match FindFrom(s, sep, 0)
    case None => None
    case Some(k) =>
      var start := k + |sep|;
      var end := match FindFrom(s, sep, start) case None => |s| case Some(e) => e;
      Some(s[start..end])
  }

  /** `SecondField` is the part that `s.split(sep)[1]` selects. */
  lemma SecondFieldIsSplit(s: string, sep: string)
    requires |sep| > 0
    ensures SecondField(s, sep).Some? <==> |Split(s, sep)| >= 2
    ensures SecondField(s, sep).Some? ==> SecondField(s, sep).value == Split(s, sep)[1]
  {
    SplitHasSecondPart(s, sep);
    match FindFrom(s, sep, 0)
    case None =>
    case Some(k) =>
      var start := k + |sep|;
      assert Split(s, sep)[1] == SplitFrom(s, sep, start)[0];
      match FindFrom(s, sep, start)
      case None =>
        assert s[start..] == s[start..|s|];
      case Some(e) =>
  }

  /** The first part of `s.split(sep)`, which is also `s.split(sep, 1)[0]`, is the
      text before the first occurrence of `sep`, or all of `s`. */
  lemma SplitHead(s: string, sep: string)
    requires |sep| > 0
    ensures StartsWith(s, Split(s, sep)[0])
    ensures !Contains(Split(s, sep)[0], sep)
    ensures |Split(s, sep)[0]| < |s| ==> OccursAt(s, sep, |Split(s, sep)[0]|)
  {
    SplitJoin(s, sep);
    match FindFrom(s, sep, 0)
    case None =>
      assert s[0..] == s;
    case Some(k) =>
      assert s[0..k] == s[..k];
  }

  /** n copies of the character '0'. */
  function Zeros(n: nat): (r: string)
    ensures |r| == n && forall i :: 0 <= i < n ==> r[i] == '0'
  {
    if n == 0 then "" else "0" + Zeros(n - 1)
  }

  /** `s.zfill(width)`: pad on the left with '0' up to `width` characters, keeping
      a leading sign in front of the padding. */
  function ZFill(s: string, width: nat): (r: string)
    ensures |r| == if |s| >= width then |s| else width
  {
    if |s| >= width then s
    else if |s| > 0 && (s[0] == '+' || s[0] == '-') then [s[0]] + Zeros(width - |s|) + s[1..]
    else Zeros(width - |s|) + s
  }

  predicate IsDigit(c: char) {
    '0' <= c <= '9'
  }

  predicate AllDigits(s: string) {
    forall i :: 0 <= i < |s| ==> IsDigit(s[i])
  }

  function Pow10(n: nat): (p: nat)
    ensures p >= 1
  {
    if n == 0 then 1 else 10 * Pow10(n - 1)
  }

  /** The number a string of decimal digits denotes. */
  function DigitsValue(s: string): nat
    requires AllDigits(s)
  {
    if s == [] then 0 else DigitValue(s[0]) * Pow10(|s| - 1) + DigitsValue(s[1..])
  }

  /** The value of a digit, '0' to '9'. */
  function DigitValue(c: char): (d: nat)
    requires IsDigit(c)
    ensures d <= 9
  {
    c as int - '0' as int
  }

  lemma MulLe(x: nat, y: nat, p: nat)
    requires x <= y
    ensures x * p <= y * p
  {
  }

  lemma LeadingDigitBound(d: nat, p: nat, rest: nat)
    requires d <= 9 && rest < p
    ensures d * p + rest < 10 * p
  {
    MulLe(d + 1, 10, p);
    assert (d + 1) * p == d * p + p;
  }

  /** A smaller leading digit makes a smaller number, whatever the lower digits are. */
  lemma LeadingDigitDecides(x: nat, y: nat, p: nat, u: nat, v: nat)
    requires x < y && u < p
    ensures x * p + u < y * p + v
  {
    MulLe(x + 1, y, p);
    assert (x + 1) * p == x * p + p;
  }

  lemma {:induction false} DigitsValueBound(s: string)
    requires AllDigits(s)
    ensures DigitsValue(s) < Pow10(|s|)
  {
    if s != [] {
      DigitsValueBound(s[1..]);
      var p, d, rest := Pow10(|s| - 1), DigitValue(s[0]), DigitsValue(s[1..]);
      LeadingDigitBound(d, p, rest);
    }
  }

  /** Padding a digit string with zeros keeps it a digit string with the same value:
      `zfill` never changes the number. */
  lemma {:induction false} ZFillKeepsValue(s: string, width: nat)
    requires AllDigits(s)
    ensures AllDigits(ZFill(s, width))
    ensures DigitsValue(ZFill(s, width)) == DigitsValue(s)
  {
    if |s| < width {
      if s != [] { assert s[0] != '+' && s[0] != '-'; }
      ZerosPrefixKeepsValue(width - |s|, s);
    }
  }

  lemma {:induction false} ZerosPrefixKeepsValue(n: nat, s: string)
    requires AllDigits(s)
    ensures AllDigits(Zeros(n) + s)
    ensures DigitsValue(Zeros(n) + s) == DigitsValue(s)
  {
    if n > 0 {
      ZerosPrefixKeepsValue(n - 1, s);
      var t := Zeros(n) + s;
      assert t[0] == '0' && DigitValue(t[0]) == 0;
      assert t[1..] == Zeros(n - 1) + s;
      assert DigitsValue(t) == DigitsValue(t[1..]);
    } else {
      assert Zeros(n) + s == s;
    }
  }

  /** Python's `a < b` on `str`: lexicographic by code point, a proper prefix first. */
  predicate StrLt(a: string, b: string) {
    if a == [] then b != []
    else if b == [] then false
    else if a[0] != b[0] then a[0] < b[0]
    else StrLt(a[1..], b[1..])
  }

  lemma {:induction false} StrLtIrreflexive(a: string)
    ensures !StrLt(a, a)
  {
    if a != [] { StrLtIrreflexive(a[1..]); }
  }

  lemma {:induction false} StrLtTransitive(a: string, b: string, c: string)
    requires StrLt(a, b) && StrLt(b, c)
    ensures StrLt(a, c)
  {
    if a != [] && b != [] && c != [] && a[0] == b[0] && b[0] == c[0] {
      StrLtTransitive(a[1..], b[1..], c[1..]);
    }
  }

  /** `<` on strings is a strict total order: of two different strings one is smaller. */
  lemma {:induction false} StrLtTotal(a: string, b: string)
    ensures a == b || StrLt(a, b) || StrLt(b, a)
    ensures !(StrLt(a, b) && StrLt(b, a))
  {
    if a != [] && b != [] && a[0] == b[0] {
      StrLtTotal(a[1..], b[1..]);
      if a[1..] == b[1..] { assert a == [a[0]] + a[1..]; assert b == [b[0]] + b[1..]; }
    }
  }

  /** On digit strings of one width, `<` on the strings is `<` on the numbers they
      denote: zero-padded fields sort numerically. */
  lemma {:induction false} DigitStringOrder(a: string, b: string)
    requires |a| == |b| && AllDigits(a) && AllDigits(b)
    ensures StrLt(a, b) <==> DigitsValue(a) < DigitsValue(b)
  {
    if a != [] {
      var p := Pow10(|a| - 1);
      var da, db := DigitValue(a[0]), DigitValue(b[0]);
      assert DigitsValue(a) == da * p + DigitsValue(a[1..]);
      assert DigitsValue(b) == db * p + DigitsValue(b[1..]);
      if da < db {
        DigitsValueBound(a[1..]);
        LeadingDigitDecides(da, db, p, DigitsValue(a[1..]), DigitsValue(b[1..]));
        assert a[0] < b[0];
      } else if db < da {
        DigitsValueBound(b[1..]);
        LeadingDigitDecides(db, da, p, DigitsValue(b[1..]), DigitsValue(a[1..]));
        assert b[0] < a[0];
      } else {
        assert a[0] == b[0];
        DigitStringOrder(a[1..], b[1..]);
      }
    }
  }

  /** A common first character does not change how two strings compare. */
  lemma StrLtCommonHead(c: char, a: string, b: string)
    ensures StrLt([c] + a, [c] + b) <==> StrLt(a, b)
  {
    assert ([c] + a)[1..] == a;
    assert ([c] + b)[1..] == b;
  }
}
