/** Small value-level helpers shared by every module: optional values, results,
    and the sequence and string operations the JavaScript code gets from its
    built-ins (Array.prototype.filter and join, Set, String.prototype.trim,
    toLowerCase and includes). */
module Common {

  /** `None` stands for a JavaScript `undefined` or `null`; the code never
      distinguishes the two. */
  datatype Option<+T> = None | Some(value: T) {
    function GetOr(default: T): T {
      match this
      case Some(v) => v
      case None => default
    }
  }

  /** The outcome of an operation that throws in the source: `Err` carries the
      message of the thrown `Error`. */
  datatype Result<+T> = Ok(value: T) | Err(message: string)

  predicate NoDups<T(==,!new)>(xs: seq<T>) {
    forall i, j :: 0 <= i < j < |xs| ==> xs[i] != xs[j]
  }

  // ---------------------------------------------------------------------------
  // Array.prototype.filter

  /** The elements of `xs` that satisfy `p`, in their original order, each as
      often as it occurs in `xs`. */
  function Filter<T(!new)>(xs: seq<T>, p: T -> bool): (r: seq<T>)
    ensures |r| <= |xs|
    ensures forall x :: x in r <==> x in xs && p(x)
  {
    if xs == [] then []
    else
      var rest := Filter(xs[1..], p);
      assert xs == [xs[0]] + xs[1..];
      if p(xs[0]) then [xs[0]] + rest else rest
  }

  /** Each kept value occurs as often as in the input; a dropped one not at all. */
  lemma {:induction false} FilterCount<T(!new)>(xs: seq<T>, p: T -> bool, x: T)
    ensures multiset(Filter(xs, p))[x] == if p(x) then multiset(xs)[x] else 0
  {
    if xs != [] {
      FilterCount(xs[1..], p, x);
      assert xs == [xs[0]] + xs[1..];
    }
  }

  /** Filtering distributes over concatenation, so it never reorders what it keeps. */
  lemma {:induction false} FilterAppend<T(!new)>(a: seq<T>, b: seq<T>, p: T -> bool)
    ensures Filter(a + b, p) == Filter(a, p) + Filter(b, p)
  {
    if a == [] {
      assert a + b == b;
    } else {
      assert (a + b)[0] == a[0];
      assert (a + b)[1..] == a[1..] + b;
      FilterAppend(a[1..], b, p);
      if p(a[0]) {
        calc {
          Filter(a + b, p);
          [a[0]] + Filter(a[1..] + b, p);
          [a[0]] + (Filter(a[1..], p) + Filter(b, p));
          ([a[0]] + Filter(a[1..], p)) + Filter(b, p);
        }
      }
    }
  }

  /** A filter that keeps every element returns its input. */
  lemma {:induction false} FilterKeepsAll<T(!new)>(xs: seq<T>, p: T -> bool)
    requires forall x :: x in xs ==> p(x)
    ensures Filter(xs, p) == xs
  {
    if xs != [] {
      FilterKeepsAll(xs[1..], p);
    }
  }

  /** `xs.filter(t => t !== x)`: every occurrence of `x` removed. */
  function RemoveAll<T(==,!new)>(xs: seq<T>, x: T): (r: seq<T>)
    ensures forall y :: y in r <==> y in xs && y != x
  {
    Filter(xs, (t: T) => t != x)
  }

  /** Every other value keeps its number of occurrences. */
  lemma RemoveAllCount<T(!new)>(xs: seq<T>, x: T, y: T)
    ensures multiset(RemoveAll(xs, x))[y] == if y == x then 0 else multiset(xs)[y]
  {
    FilterCount(xs, (t: T) => t != x, y);
  }

  /** Removing an element that does not occur changes nothing. */
  lemma RemoveAbsent<T(!new)>(xs: seq<T>, x: T)
    requires x !in xs
    ensures RemoveAll(xs, x) == xs
  {
    FilterKeepsAll(xs, (t: T) => t != x);
  }

  /** Removing from a concatenation removes from each part, keeping the order. */
  lemma RemoveAllAppend<T(!new)>(a: seq<T>, b: seq<T>, x: T)
    ensures RemoveAll(a + b, x) == RemoveAll(a, x) + RemoveAll(b, x)
  {
    FilterAppend(a, b, (t: T) => t != x);
  }

  /** Removing from a duplicate-free sequence leaves it duplicate-free. */
  lemma RemoveAllNoDups<T(!new)>(xs: seq<T>, x: T)
    requires NoDups(xs)
    ensures NoDups(RemoveAll(xs, x))
  {
    FilterNoDups(xs, (t: T) => t != x);
  }

  /** Filtering a duplicate-free sequence leaves it duplicate-free. */
  lemma {:induction false} FilterNoDups<T(!new)>(xs: seq<T>, p: T -> bool)
    requires NoDups(xs)
    ensures NoDups(Filter(xs, p))
  {
    var r := Filter(xs, p);
    forall i, j | 0 <= i < j < |r| ensures r[i] != r[j] {
      if r[i] == r[j] {
        assert r[i] in r;
        var m := multiset(r)[r[i]];
        assert multiset(r[..i + 1])[r[i]] >= 1;
        assert r == r[..i + 1] + r[i + 1..];
        assert r[j] in r[i + 1..];
        assert multiset(r[i + 1..])[r[i]] >= 1;
        assert m >= 2;
        FilterCount(xs, p, r[i]);
        NoDupsCountAtMostOne(xs, r[i]);
        assert false;
      }
    }
  }

  /** A filter keeps the relative order of what it keeps: a sequence strictly
      increasing under `rank` stays so. */
  lemma {:induction false} FilterOrdered<T(!new)>(xs: seq<T>, p: T -> bool, rank: T -> int)
    requires forall i, j :: 0 <= i < j < |xs| ==> rank(xs[i]) < rank(xs[j])
    ensures forall i, j :: 0 <= i < j < |Filter(xs, p)| ==> rank(Filter(xs, p)[i]) < rank(Filter(xs, p)[j])
  {
    if xs != [] {
      var tail := xs[1..];
      assert forall i, j :: 0 <= i < j < |tail| ==> rank(tail[i]) < rank(tail[j]) by {
        forall i, j | 0 <= i < j < |tail| ensures rank(tail[i]) < rank(tail[j]) {
          assert tail[i] == xs[i + 1] && tail[j] == xs[j + 1];
        }
      }
      FilterOrdered(tail, p, rank);
      var r, rest := Filter(xs, p), Filter(tail, p);
      forall i, j | 0 <= i < j < |r| ensures rank(r[i]) < rank(r[j]) {
        if p(xs[0]) {
          if i == 0 {
            assert r[j] == rest[j - 1] && r[j] in tail;
            var k :| 0 <= k < |tail| && tail[k] == r[j];
            assert xs[k + 1] == r[j];
          } else {
            assert r[i] == rest[i - 1] && r[j] == rest[j - 1];
          }
        }
      }
    }
  }

  /** In a duplicate-free sequence every value occurs at most once. */
  lemma {:induction false} NoDupsCountAtMostOne<T(!new)>(xs: seq<T>, x: T)
    requires NoDups(xs)
    ensures multiset(xs)[x] <= 1
  {
    if xs != [] {
      assert xs == [xs[0]] + xs[1..];
      assert NoDups(xs[1..]) by {
        forall i, j | 0 <= i < j < |xs[1..]| ensures xs[1..][i] != xs[1..][j] {
          assert xs[1..][i] == xs[i + 1] && xs[1..][j] == xs[j + 1];
        }
      }
      NoDupsCountAtMostOne(xs[1..], x);
      if xs[0] == x {
        assert x !in xs[1..] by {
          forall k | 0 <= k < |xs[1..]| ensures xs[1..][k] != x {
            assert xs[1..][k] == xs[k + 1];
          }
        }
      }
    }
  }

  // ---------------------------------------------------------------------------
  // [...new Set(xs)]

  /** The distinct elements of `xs`, each at the place of its first occurrence:
      a JavaScript `Set` keeps insertion order and ignores repeated inserts. */
  function Distinct<T(==,!new)>(xs: seq<T>): (r: seq<T>)
    ensures NoDups(r)
    ensures forall x :: x in r <==> x in xs
    ensures |r| <= |xs|
  {
    if xs == [] then []
    else
      var init := Distinct(xs[..|xs| - 1]);
      var last := xs[|xs| - 1];
      assert xs == xs[..|xs| - 1] + [last];
      if last in init then init else init + [last]
  }

  lemma DistinctPair<T(!new)>(x: T, y: T)
    requires x != y
    ensures Distinct([x, y]) == [x, y]
  {
    assert [x, y][..1] == [x];
    assert Distinct([x]) == [x];
  }

  /** Index of the first occurrence of `x` in `xs`. */
  function FirstIndex<T(==,!new)>(xs: seq<T>, x: T): (k: nat)
    requires x in xs
    ensures k < |xs| && xs[k] == x && x !in xs[..k]
  {
    if xs[0] == x then 0
    else
      assert x in xs[1..];
      var k := FirstIndex(xs[1..], x);
      assert xs[..k + 1] == [xs[0]] + xs[1..][..k];
      k + 1
  }

  lemma FirstIndexOfPrefix<T(!new)>(xs: seq<T>, n: nat, x: T)
    requires n <= |xs| && x in xs[..n]
    ensures x in xs && FirstIndex(xs, x) == FirstIndex(xs[..n], x)
  {
    var k := FirstIndex(xs[..n], x);
    assert xs[..n][..k] == xs[..k];
    var k' := FirstIndex(xs, x);
    assert xs[k] == x;
  }

  /** The elements of `Distinct(xs)` are ordered by their first occurrence in `xs`. */
  lemma {:induction false} DistinctFirstOccurrenceOrder<T(!new)>(xs: seq<T>)
    ensures forall i, j :: 0 <= i < j < |Distinct(xs)| ==>
      FirstIndex(xs, Distinct(xs)[i]) < FirstIndex(xs, Distinct(xs)[j])
  {
    if xs != [] {
      var n := |xs| - 1;
      var init := xs[..n];
      var last := xs[n];
      DistinctFirstOccurrenceOrder(init);
      var r := Distinct(xs);
      var d := Distinct(init);
      forall i, j | 0 <= i < j < |r| ensures FirstIndex(xs, r[i]) < FirstIndex(xs, r[j]) {
        assert r[i] == d[i] && r[i] in init;
        FirstIndexOfPrefix(xs, n, r[i]);
        if j < |d| {
          assert r[j] == d[j] && r[j] in init;
          FirstIndexOfPrefix(xs, n, r[j]);
        } else {
          assert r[j] == last && last !in init;
          assert FirstIndex(xs, last) == n;
        }
      }
    }
  }

  /** The concatenation of the lists, in order (`flat()`). */
  function Flatten<T(!new)>(xss: seq<seq<T>>): (r: seq<T>)
    ensures forall x :: x in r <==> exists i :: 0 <= i < |xss| && x in xss[i]
  {
    if xss == [] then []
    else
      var rest := Flatten(xss[1..]);
      assert forall i :: 0 <= i < |xss| - 1 ==> xss[1..][i] == xss[i + 1];
      xss[0] + rest
  }

  // ---------------------------------------------------------------------------
  // Array.prototype.join and String.prototype.includes

  /** `parts.join(sep)`. */
  function Join(parts: seq<string>, sep: string): string {
    if parts == [] then ""
    else if |parts| == 1 then parts[0]
    else parts[0] + sep + Join(parts[1..], sep)
  }

  /** `s.includes(t)`: `t` occurs in `s` at some position. */
  predicate Contains(s: string, t: string) {
    exists i | 0 <= i <= |s| - |t| :: OccursAt(s, t, i)
  }

  /** `t` occurs in `s` starting at index `i`. */
  predicate OccursAt(s: string, t: string, i: int) {
    0 <= i <= |s| - |t| && s[i..i + |t|] == t
  }

  lemma ContainsItself(s: string)
    ensures Contains(s, s) && Contains(s, "")
  {
    assert OccursAt(s, s, 0);
    assert OccursAt(s, "", 0);
  }

  /** Regrouping a five-part concatenation to the right. */
  lemma Assoc5(a: string, b: string, c: string, d: string, e: string)
    ensures a + b + c + d + e == a + (b + (c + (d + e)))
  {
  }

  /** Regrouping a six-part concatenation to the right. */
  lemma Assoc6(a: string, b: string, c: string, d: string, e: string, f: string)
    ensures a + b + c + d + e + f == a + (b + (c + (d + (e + f))))
  {
  }

  /** Moving to a suffix shifts every occurrence by the length cut off. */
  lemma OccursAtSuffix(s: string, m: nat, t: string, k: int)
    requires m <= |s| && 0 <= k
    ensures OccursAt(s[m..], t, k) <==> OccursAt(s, t, k + m)
  {
    if k <= |s| - m - |t| {
      assert s[m..][k..k + |t|] == s[k + m..k + m + |t|];
    }
  }

  /** An occurrence in a suffix is an occurrence in the whole. */
  lemma ContainsSuffix(s: string, m: nat, t: string)
    requires m <= |s| && Contains(s[m..], t)
    ensures Contains(s, t)
  {
    var k :| 0 <= k <= |s[m..]| - |t| && OccursAt(s[m..], t, k);
    OccursAtSuffix(s, m, t, k);
  }

  /** An occurrence inside a part is an occurrence in the whole. */
  lemma ContainsInConcat(a: string, t: string, b: string, x: string)
    requires Contains(t, x)
    ensures Contains(a + t + b, x)
  {
    var i :| 0 <= i <= |t| - |x| && OccursAt(t, x, i);
    var s := a + t + b;
    assert s[|a| + i..|a| + i + |x|] == t[i..i + |x|];
    assert OccursAt(s, x, |a| + i);
  }

  // ---------------------------------------------------------------------------
  // String.prototype.trim and toLowerCase

  /** The white space and line terminators that ECMAScript's `trim` removes
      (sections "White Space" and "Line Terminators" of ECMA-262). */
  predicate IsSpace(c: char) {
    c == '\t' || c == '\n' || c == '\U{000B}' || c == '\U{000C}' || c == '\r' || c == ' '
    || c == '\U{00A0}' || c == '\U{1680}' || ('\U{2000}' <= c <= '\U{200A}')
    || c == '\U{2028}' || c == '\U{2029}' || c == '\U{202F}' || c == '\U{205F}'
    || c == '\U{3000}' || c == '\U{FEFF}'
  }

  function TrimStart(s: string): (r: string)
    ensures |r| <= |s| && r == s[|s| - |r|..]
    ensures r == [] || !IsSpace(r[0])
    ensures forall i :: 0 <= i < |s| - |r| ==> IsSpace(s[i])
  {
    if s != [] && IsSpace(s[0]) then TrimStart(s[1..]) else s
  }

  function TrimEnd(s: string): (r: string)
    ensures |r| <= |s| && r == s[..|r|]
    ensures r == [] || !IsSpace(r[|r| - 1])
    ensures forall i :: |r| <= i < |s| ==> IsSpace(s[i])
  {
    if s != [] && IsSpace(s[|s| - 1]) then TrimEnd(s[..|s| - 1]) else s
  }

  /** `s.trim()`. */
  function Trim(s: string): string {
    TrimEnd(TrimStart(s))
  }

  /** A string trims to nothing exactly when it is all white space. */
  lemma TrimEmptyIff(s: string)
    ensures Trim(s) == "" <==> forall i :: 0 <= i < |s| ==> IsSpace(s[i])
  {
    var t := TrimStart(s);
    if Trim(s) == "" {
      assert |t| == 0;
    }
  }

  /** The trimmed string is a slice of the input with no white space at either end. */
  lemma TrimShape(s: string)
    ensures exists i, j :: 0 <= i <= j <= |s| && Trim(s) == s[i..j]
    ensures Trim(s) == [] || (!IsSpace(Trim(s)[0]) && !IsSpace(Trim(s)[|Trim(s)| - 1]))
  {
    var t := TrimStart(s);
    var r := TrimEnd(t);
    assert r == s[|s| - |t|..][..|r|] == s[|s| - |t|..|s| - |t| + |r|];
    if r != [] {
      assert r[0] == t[0];
    }
  }

  function LowerChar(c: char): char {
    if 'A' <= c <= 'Z' then (c as int + 32) as char else c
  }

  /** `s.toLowerCase()` on ASCII letters, character by character. */
  function Lower(s: string): string {
    if s == [] then [] else [LowerChar(s[0])] + Lower(s[1..])
  }

  /** Lower-casing keeps the length and maps every character on its own. */
  lemma {:induction false} LowerAt(s: string)
    ensures |Lower(s)| == |s|
    ensures forall i :: 0 <= i < |s| ==> Lower(s)[i] == LowerChar(s[i])
  {
    if s != [] {
      LowerAt(s[1..]);
      forall i | 1 <= i < |s| ensures Lower(s)[i] == LowerChar(s[i]) {
        assert Lower(s)[i] == Lower(s[1..])[i - 1];
      }
    }
  }
}
