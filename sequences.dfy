/** Generic sequence operations shared by the dashboard: the order-preserving
    filter that `Array.prototype.filter` performs, the subsequence relation it
    establishes, and duplicate-freedom. */
module Sequences {

  /** Keeps the elements of `s` that satisfy `p`, in their original order. */
  function Select<T>(s: seq<T>, p: T -> bool): (r: seq<T>)
    ensures |r| <= |s|
    decreases |s|
  {
    if s == [] then []
    else if p(s[0]) then [s[0]] + Select(s[1..], p)
    else Select(s[1..], p)
  }

  /** `r` can be obtained from `s` by deleting elements (order kept). */
  predicate Subsequence<T(==)>(r: seq<T>, s: seq<T>)
    decreases |s|
  {
    r == [] || (s != [] && ((r[0] == s[0] && Subsequence(r[1..], s[1..])) || Subsequence(r, s[1..])))
  }

  predicate NoDup<T(==)>(s: seq<T>) {
    forall i, j :: 0 <= i < j < |s| ==> s[i] != s[j]
  }

  /** An element survives the filter exactly when it was there and passes `p`. */
  lemma {:induction false} SelectMembership<T>(s: seq<T>, p: T -> bool, x: T)
    ensures x in Select(s, p) <==> x in s && p(x)
    decreases |s|
  {
    if s != [] {
      SelectMembership(s[1..], p, x);
      assert s == [s[0]] + s[1..];
    }
  }

  lemma SelectMembershipAll<T>(s: seq<T>, p: T -> bool)
    ensures forall x :: x in Select(s, p) <==> x in s && p(x)
  {
    forall x ensures x in Select(s, p) <==> x in s && p(x) {
      SelectMembership(s, p, x);
    }
  }

  /** The filter's result is a subsequence of its input: nothing is reordered. */
  lemma {:induction false} SelectIsSubsequence<T>(s: seq<T>, p: T -> bool)
    ensures Subsequence(Select(s, p), s)
    decreases |s|
  {
    if s != [] {
      SelectIsSubsequence(s[1..], p);
      if p(s[0]) {
        var r := Select(s, p);
        assert r[0] == s[0] && r[1..] == Select(s[1..], p);
      }
    }
  }

  /** Filtering distributes over concatenation. */
  lemma {:induction false} SelectAppend<T>(a: seq<T>, b: seq<T>, p: T -> bool)
    ensures Select(a + b, p) == Select(a, p) + Select(b, p)
    decreases |a|
  {
    if a == [] {
      assert a + b == b;
    } else {
      SelectAppend(a[1..], b, p);
      assert (a + b)[1..] == a[1..] + b;
    }
  }

  /** When every element passes, the filter returns its input unchanged. */
  lemma {:induction false} SelectAll<T>(s: seq<T>, p: T -> bool)
    requires forall i :: 0 <= i < |s| ==> p(s[i])
    ensures Select(s, p) == s
    decreases |s|
  {
    if s != [] {
      SelectAll(s[1..], p);
      assert s == [s[0]] + s[1..];
    }
  }

  /** Filtering twice with the same predicate is filtering once. */
  lemma {:induction false} SelectIdempotent<T>(s: seq<T>, p: T -> bool)
    ensures Select(Select(s, p), p) == Select(s, p)
    decreases |s|
  {
    if s != [] {
      SelectIdempotent(s[1..], p);
      if p(s[0]) {
        var r := Select(s, p);
        assert r[0] == s[0] && r[1..] == Select(s[1..], p);
      }
    }
  }

  /** Filtering cannot introduce duplicates. */
  lemma {:induction false} SelectNoDup<T>(s: seq<T>, p: T -> bool)
    requires NoDup(s)
    ensures NoDup(Select(s, p))
    decreases |s|
  {
    if s != [] {
      assert NoDup(s[1..]) by {
        forall i, j | 0 <= i < j < |s[1..]| ensures s[1..][i] != s[1..][j] {
          assert s[1..][i] == s[i + 1] && s[1..][j] == s[j + 1];
        }
      }
      SelectNoDup(s[1..], p);
      if p(s[0]) {
        var t := Select(s[1..], p);
        SelectMembership(s[1..], p, s[0]);
        assert s[0] !in s[1..] by {
          forall k | 0 <= k < |s[1..]| ensures s[1..][k] != s[0] {
            assert s[1..][k] == s[k + 1];
          }
        }
        ConsNoDup(s[0], t);
      }
    }
  }

  lemma ConsNoDup<T>(x: T, t: seq<T>)
    requires NoDup(t) && x !in t
    ensures NoDup([x] + t)
  {
    var r := [x] + t;
    forall i, j | 0 <= i < j < |r| ensures r[i] != r[j] {
      assert r[j] == t[j - 1];
      if i > 0 {
        assert r[i] == t[i - 1];
      }
    }
  }

  /** Appending an element that is not yet present keeps a sequence duplicate-free. */
  lemma SnocNoDup<T>(t: seq<T>, x: T)
    requires NoDup(t) && x !in t
    ensures NoDup(t + [x])
  {
    var r := t + [x];
    forall i, j | 0 <= i < j < |r| ensures r[i] != r[j] {
      assert r[i] == t[i];
      if j < |t| {
        assert r[j] == t[j];
      }
    }
  }

  /** Equal filters of two sequences whose last elements pass or fail together
      stay equal once the last elements are dropped, and the last elements agree
      when they pass. */
  lemma {:induction false} SelectDropLast<T>(a: seq<T>, x: T, b: seq<T>, y: T, p: T -> bool)
    requires Select(a + [x], p) == Select(b + [y], p)
    requires p(x) == p(y)
    ensures Select(a, p) == Select(b, p)
    ensures p(x) ==> x == y
  {
    SelectAppend(a, [x], p);
    SelectAppend(b, [y], p);
    var sa, sb := Select(a, p), Select(b, p);
    assert [x][1..] == [] && [y][1..] == [];
    if p(x) {
      assert Select([x], p) == [x] + Select([x][1..], p) == [x];
      assert Select([y], p) == [y] + Select([y][1..], p) == [y];
      assert sa + [x] == sb + [y];
      assert sa == (sa + [x])[..|sa|] && sb == (sb + [y])[..|sb|];
    } else {
      assert Select([x], p) == [] && Select([y], p) == [];
      assert sa + [] == sa && sb + [] == sb;
    }
  }
}
