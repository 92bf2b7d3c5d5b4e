/** Order-preserving list operations shared by every filter in the model (`Array.prototype.filter` and friends). */
module Seqs {
  import opened Wrappers

  /** `a` is obtained from `b` by deleting elements, without reordering the rest. */
  ghost predicate IsSubsequence<T>(a: seq<T>, b: seq<T>)
    decreases |b|
  {
    if |a| == 0 then true
    else if |b| == 0 then false
    else (a[0] == b[0] && IsSubsequence(a[1..], b[1..])) || IsSubsequence(a, b[1..])
  }

  /** `Array.prototype.filter`: the elements satisfying `f`, in their original order. */
  function Filter<T(!new)>(f: T -> bool, s: seq<T>): (r: seq<T>)
    ensures |r| <= |s|
    ensures forall x :: x in r <==> x in s && f(x)
    ensures IsSubsequence(r, s)
  {
    if |s| == 0 then []
    else if f(s[0]) then [s[0]] + Filter(f, s[1..])
    else Filter(f, s[1..])
  }

  /** Filtering a concatenation filters each half: the output keeps the input's order. */
  lemma {:induction false} FilterAppend<T(!new)>(f: T -> bool, a: seq<T>, b: seq<T>)
    ensures Filter(f, a + b) == Filter(f, a) + Filter(f, b)
    decreases |a|
  {
    if |a| == 0 {
      assert a + b == b;
    } else {
      assert (a + b)[1..] == a[1..] + b;
      FilterAppend(f, a[1..], b);
    }
  }

  /** A filter that keeps every element is the identity. */
  lemma {:induction false} FilterKeepsAll<T(!new)>(f: T -> bool, s: seq<T>)
    requires forall i :: 0 <= i < |s| ==> f(s[i])
    ensures Filter(f, s) == s
    decreases |s|
  {
    if |s| > 0 {
      FilterKeepsAll(f, s[1..]);
    }
  }

  /** Every occurrence of `x` removed (`s.filter(y => y !== x)`). */
  function RemoveAll<T(==,!new)>(s: seq<T>, x: T): (r: seq<T>)
    ensures x !in r
    ensures forall y :: y != x ==> (y in r <==> y in s)
    ensures IsSubsequence(r, s)
  {
    Filter(y => y != x, s)
  }

  /** Removing an absent element changes nothing. */
  lemma RemoveAllAbsent<T(!new)>(s: seq<T>, x: T)
    requires x !in s
    ensures RemoveAll(s, x) == s
  {
    FilterKeepsAll(y => y != x, s);
  }

  /** Every sequence is a subsequence of itself. */
  lemma {:induction false} SubsequenceOfItself<T>(s: seq<T>)
    ensures IsSubsequence(s, s)
    decreases |s|
  {
    if |s| > 0 {
      SubsequenceOfItself(s[1..]);
    }
  }

  /** Number of occurrences of `x` in `s`. */
  function Count<T(==)>(s: seq<T>, x: T): nat
  {
    if |s| == 0 then 0 else (if s[0] == x then 1 else 0) + Count(s[1..], x)
  }

  lemma {:induction false} CountAppend<T>(a: seq<T>, b: seq<T>, x: T)
    ensures Count(a + b, x) == Count(a, x) + Count(b, x)
    decreases |a|
  {
    if |a| == 0 {
      assert a + b == b;
    } else {
      assert (a + b)[1..] == a[1..] + b;
      CountAppend(a[1..], b, x);
    }
  }

  /** No value occurs twice. */
  predicate NoDuplicates<T(==)>(s: seq<T>)
  {
    forall i, j :: 0 <= i < j < |s| ==> s[i] != s[j]
  }

  /** Map and drop the failures in one pass, keeping order. */
  function FilterMap<A, B>(f: A -> Option<B>, s: seq<A>): (r: seq<B>)
    ensures |r| <= |s|
    ensures forall y :: y in r ==> exists x :: x in s && f(x) == Some(y)
  {
    if |s| == 0 then []
    else
      var rest := FilterMap(f, s[1..]);
      assert forall y :: y in rest ==> exists x :: x in s && f(x) == Some(y) by {
        forall y | y in rest ensures exists x :: x in s && f(x) == Some(y) {
          var x :| x in s[1..] && f(x) == Some(y);
          assert x in s;
        }
      }
      match f(s[0])
      case Some(y) => [y] + rest
      case None => rest
  }

  /** Nothing is lost: every element `f` accepts contributes its value. */
  lemma {:induction false} FilterMapComplete<A, B>(f: A -> Option<B>, s: seq<A>)
    ensures forall x :: x in s && f(x).Some? ==> f(x).value in FilterMap(f, s)
    decreases |s|
  {
    if |s| > 0 {
      FilterMapComplete(f, s[1..]);
      assert forall x :: x in s ==> x == s[0] || x in s[1..];
    }
  }

  /** One element: its value when `f` accepts it, nothing otherwise. */
  lemma FilterMapSingle<A, B>(f: A -> Option<B>, x: A)
    ensures FilterMap(f, [x]) == if f(x).Some? then [f(x).value] else []
  {
    assert [x][1..] == [];
  }

  /** FilterMap of a concatenation is the concatenation of the FilterMaps: results follow input order. */
  lemma {:induction false} FilterMapAppend<A, B>(f: A -> Option<B>, a: seq<A>, b: seq<A>)
    ensures FilterMap(f, a + b) == FilterMap(f, a) + FilterMap(f, b)
    decreases |a|
  {
    if |a| == 0 {
      assert a + b == b;
    } else {
      assert (a + b)[1..] == a[1..] + b;
      FilterMapAppend(f, a[1..], b);
    }
  }

  /** Appending one element adds one result exactly when `f` accepts it. */
  lemma FilterMapSnocLength<A, B>(f: A -> Option<B>, init: seq<A>, last: A)
    ensures |FilterMap(f, init + [last])| == |FilterMap(f, init)| + (if f(last).Some? then 1 else 0)
  {
    FilterMapAppend(f, init, [last]);
    FilterMapSingle(f, last);
  }

  /** When every element maps to a value, FilterMap is the plain map. */
  lemma {:induction false} FilterMapAllSome<A, B>(f: A -> Option<B>, s: seq<A>, t: seq<B>)
    requires |s| == |t|
    requires forall i :: 0 <= i < |s| ==> f(s[i]) == Some(t[i])
    ensures FilterMap(f, s) == t
    decreases |s|
  {
    if |s| > 0 {
      FilterMapAllSome(f, s[1..], t[1..]);
    }
  }

  /** When every element fails, FilterMap is empty. */
  lemma {:induction false} FilterMapAllNone<A, B>(f: A -> Option<B>, s: seq<A>)
    requires forall i :: 0 <= i < |s| ==> f(s[i]).None?
    ensures FilterMap(f, s) == []
    decreases |s|
  {
    if |s| > 0 {
      FilterMapAllNone(f, s[1..]);
    }
  }

  /** Filtering by a conjunction is filtering twice. */
  lemma {:induction false} FilterNarrow<T(!new)>(f: T -> bool, g: T -> bool, h: T -> bool, s: seq<T>)
    requires forall x :: g(x) == (f(x) && h(x))
    ensures Filter(g, s) == Filter(h, Filter(f, s))
    decreases |s|
  {
    if |s| > 0 {
      FilterNarrow(f, g, h, s[1..]);
    }
  }

  /** Filtering never introduces a duplicate. */
  lemma {:induction false} FilterNoDuplicates<T(!new)>(f: T -> bool, s: seq<T>)
    requires NoDuplicates(s)
    ensures NoDuplicates(Filter(f, s))
    decreases |s|
  {
    if |s| > 0 {
      FilterNoDuplicates(f, s[1..]);
      var rest := Filter(f, s[1..]);
      assert s[0] !in rest;
    }
  }

  /** Removing the element just appended restores a list that did not hold it. */
  lemma RemoveAllAppended<T(!new)>(s: seq<T>, x: T)
    requires x !in s
    ensures RemoveAll(s + [x], x) == s
  {
    FilterAppend(y => y != x, s, [x]);
    RemoveAllAbsent(s, x);
    assert Filter(y => y != x, [x]) == [];
  }

  lemma RemoveAllNoDuplicates<T(!new)>(s: seq<T>, x: T)
    requires NoDuplicates(s)
    ensures NoDuplicates(RemoveAll(s, x))
  {
    FilterNoDuplicates(y => y != x, s);
  }
}
