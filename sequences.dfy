/**
 * List operations used by `aggregateByCountry`, `buildTimeSeries` and
 * `getMinMaxDates`: `Array.prototype.filter`, and
 * applying a parser that may throw to every element of a list, in order, where
 * the first element that throws ends the traversal with its error (a `for`
 * loop or a `map` over `parseApiDate` calls).
 */
module Sequences {
  import opened Wrappers

  /** No element occurs twice. */
  predicate Distinct<T(==)>(s: seq<T>) {
    forall i, j :: 0 <= i < j < |s| ==> s[i] != s[j]
  }

  lemma DistinctSnoc<T>(s: seq<T>, x: T)
    requires Distinct(s) && x !in s
    ensures Distinct(s + [x])
  {
  }

  lemma DistinctInit<T>(s: seq<T>)
    requires Distinct(s) && s != []
    ensures Distinct(s[..|s| - 1]) && s[|s| - 1] !in s[..|s| - 1]
  {
  }

  /** An element of a list without repeats occurs in it at most once. */
  lemma {:induction false} DistinctCountAtMostOne<T>(s: seq<T>, v: T)
    requires Distinct(s)
    ensures multiset(s)[v] <= 1
  {
    if s != [] {
      var init, last := s[..|s| - 1], s[|s| - 1];
      assert s == init + [last];
      DistinctInit(s);
      DistinctCountAtMostOne(init, v);
      if last == v {
        assert v !in multiset(init);
      }
    }
  }

  /** A rearrangement of a list without repeats has no repeats. */
  lemma PermutationKeepsDistinct<T>(a: seq<T>, b: seq<T>)
    requires multiset(a) == multiset(b) && Distinct(a)
    ensures Distinct(b)
  {
    forall i, j | 0 <= i < j < |b|
      ensures b[i] != b[j]
    {
      if b[i] == b[j] {
        var v := b[j];
        assert b == b[..j] + [v] + b[j + 1..];
        assert b[..j][i] == v;
        assert multiset(b)[v] >= 2 by {
          assert multiset(b) == multiset(b[..j]) + multiset{v} + multiset(b[j + 1..]);
          assert v in multiset(b[..j]);
        }
        DistinctCountAtMostOne(a, v);
        assert false;
      }
    }
  }

  /** Two rearrangements of each other hold the same elements. */
  lemma PermutationSameMembers<T>(a: seq<T>, b: seq<T>)
    requires multiset(a) == multiset(b)
    ensures forall v :: v in a <==> v in b
  {
    forall v
      ensures v in a <==> v in b
    {
      assert v in a <==> v in multiset(a);
      assert v in b <==> v in multiset(b);
    }
  }

  /** A prefix one longer is the shorter prefix with the next element. */
  lemma PrefixSnoc<T>(s: seq<T>, i: int)
    requires 0 <= i < |s|
    ensures s[..i + 1] == s[..i] + [s[i]]
  {
  }

  /** The sum of `f` over the elements of a list. */
  function SumOf<T>(f: T -> int, s: seq<T>): int {
    if s == [] then 0 else SumOf(f, s[..|s| - 1]) + f(s[|s| - 1])
  }

  lemma {:induction false} SumOfAppend<T>(f: T -> int, a: seq<T>, b: seq<T>)
    ensures SumOf(f, a + b) == SumOf(f, a) + SumOf(f, b)
  {
    if b == [] {
      assert a + b == a;
    } else {
      var init, last := b[..|b| - 1], b[|b| - 1];
      assert a + b == (a + init) + [last];
      assert (a + b)[..|a + b| - 1] == a + init;
      SumOfAppend(f, a, init);
    }
  }

  /** Taking element `j` out of a list takes its value out of the sum. */
  lemma SumOfRemove<T>(f: T -> int, b: seq<T>, j: int)
    requires 0 <= j < |b|
    ensures SumOf(f, b) == SumOf(f, b[..j] + b[j + 1..]) + f(b[j])
  {
    var pre, x, post := b[..j], b[j], b[j + 1..];
    assert b == pre + ([x] + post);
    SumOfAppend(f, pre, [x] + post);
    SumOfAppend(f, [x], post);
    SumOfAppend(f, pre, post);
    assert [x][..0] == [];
    assert SumOf(f, [x]) == f(x);
  }

  /** Taking element `j` out of a list takes one copy of it out of the multiset. */
  lemma MultisetRemove<T>(b: seq<T>, j: int)
    requires 0 <= j < |b|
    ensures multiset(b[..j] + b[j + 1..]) == multiset(b) - multiset{b[j]}
  {
    assert b == b[..j] + [b[j]] + b[j + 1..];
  }

  /** The sum over a list does not depend on the order of its elements. */
  lemma {:induction false} SumOfPermutation<T>(f: T -> int, a: seq<T>, b: seq<T>)
    requires multiset(a) == multiset(b)
    ensures SumOf(f, a) == SumOf(f, b)
    decreases |a|
  {
    if a == [] {
      assert |b| == |multiset(b)| == 0;
    } else {
      var init, last := a[..|a| - 1], a[|a| - 1];
      assert a == init + [last];
      assert last in multiset(b);
      var j :| 0 <= j < |b| && b[j] == last;
      MultisetRemove(b, j);
      MultisetRemove(a, |a| - 1);
      SumOfPermutation(f, init, b[..j] + b[j + 1..]);
      SumOfRemove(f, b, j);
    }
  }

  /** `xs.filter(p)`: the elements satisfying `p`, in their order. */
  function Filter<T>(p: T -> bool, xs: seq<T>): (r: seq<T>)
    ensures |r| <= |xs|
  {
    if xs == [] then []
    else
      var init, last := xs[..|xs| - 1], xs[|xs| - 1];
      assert xs == init + [last];
      Filter(p, init) + (if p(last) then [last] else [])
  }

  /** The filtered list holds exactly the elements that pass, each no more often than before. */
  lemma {:induction false} FilterSpec<T(!new)>(p: T -> bool, xs: seq<T>)
    ensures forall x :: x in Filter(p, xs) <==> x in xs && p(x)
    ensures multiset(Filter(p, xs)) <= multiset(xs)
  {
    if xs != [] {
      var init, last := xs[..|xs| - 1], xs[|xs| - 1];
      assert xs == init + [last];
      FilterSpec(p, init);
    }
  }

  /** Appending an element appends it to the filtered list exactly when it passes. */
  lemma FilterSnoc<T>(p: T -> bool, xs: seq<T>, x: T)
    ensures Filter(p, xs + [x]) == Filter(p, xs) + (if p(x) then [x] else [])
  {
    assert (xs + [x])[..|xs|] == xs;
  }

  /** Two filters give the same list in either order. */
  lemma {:induction false} FilterCommutes<T>(p: T -> bool, q: T -> bool, xs: seq<T>)
    ensures Filter(p, Filter(q, xs)) == Filter(q, Filter(p, xs))
  {
    if xs != [] {
      var init, last := xs[..|xs| - 1], xs[|xs| - 1];
      assert xs == init + [last];
      FilterCommutes(p, q, init);
      FilterSnoc(p, init, last);
      FilterSnoc(q, init, last);
      if q(last) {
        FilterSnoc(p, Filter(q, init), last);
      } else {
        assert Filter(q, init) + [] == Filter(q, init);
      }
      if p(last) {
        FilterSnoc(q, Filter(p, init), last);
      } else {
        assert Filter(p, init) + [] == Filter(p, init);
      }
    }
  }

  /** A filter that every element passes returns the list unchanged. */
  lemma {:induction false} FilterKeepsAll<T(!new)>(p: T -> bool, xs: seq<T>)
    requires forall x :: x in xs ==> p(x)
    ensures Filter(p, xs) == xs
  {
    if xs != [] {
      var init, last := xs[..|xs| - 1], xs[|xs| - 1];
      assert xs == init + [last];
      assert forall k :: 0 <= k < |init| ==> init[k] == xs[k];
      FilterKeepsAll(p, init);
      FilterSnoc(p, init, last);
    }
  }

  /** All results of `f` over `s`, or the error of the first element it rejects. */
  function MapResult<A, B, E>(f: A -> Result<B, E>, s: seq<A>): (r: Result<seq<B>, E>)
    ensures r.Success? ==> |r.value| == |s|
  {
    if s == [] then Success([])
    else
      match f(s[0])
      case Failure(e) => Failure(e)
      case Success(b) =>
        match MapResult(f, s[1..])
        case Failure(e) => Failure(e)
        case Success(bs) => Success([b] + bs)
  }

  /** `s[i]` is the first element that `f` rejects. */
  predicate FirstFailure<A, B, E>(f: A -> Result<B, E>, s: seq<A>, i: int) {
    && 0 <= i < |s|
    && f(s[i]).Failure?
    && forall j :: 0 <= j < i ==> f(s[j]).Success?
  }

  /** A one-element list succeeds or fails as its element does. */
  lemma MapResultSingleton<A, B, E>(f: A -> Result<B, E>, x: A)
    ensures MapResult(f, [x]) ==
      if f(x).Success? then Success([f(x).value]) else Failure(f(x).error)
  {
    var s := [x];
    assert s[0] == x && s[1..] == [];
    match f(x)
    case Success(b) => assert [b] + [] == [b];
    case Failure(_) =>
  }

  /** On a concatenation a failure of the first part is the failure of the whole. */
  lemma {:induction false} MapResultAppendFirstFails<A, B, E>(f: A -> Result<B, E>, a: seq<A>, b: seq<A>)
    requires MapResult(f, a).Failure?
    ensures MapResult(f, a + b) == MapResult(f, a)
  {
    assert (a + b)[0] == a[0];
    if f(a[0]).Success? {
      assert (a + b)[1..] == a[1..] + b;
      MapResultAppendFirstFails(f, a[1..], b);
    }
  }

  /** When the first part succeeds, a failure of the second part is the failure of the whole. */
  lemma {:induction false} MapResultAppendSecondFails<A, B, E>(f: A -> Result<B, E>, a: seq<A>, b: seq<A>)
    requires MapResult(f, a).Success? && MapResult(f, b).Failure?
    ensures MapResult(f, a + b) == MapResult(f, b)
  {
    if a == [] {
      assert a + b == b;
    } else {
      assert (a + b)[0] == a[0];
      assert (a + b)[1..] == a[1..] + b;
      MapResultAppendSecondFails(f, a[1..], b);
    }
  }

  /** When both parts succeed, the whole succeeds with the results joined. */
  lemma {:induction false} MapResultAppendSucceeds<A, B, E>(f: A -> Result<B, E>, a: seq<A>, b: seq<A>)
    requires MapResult(f, a).Success? && MapResult(f, b).Success?
    ensures MapResult(f, a + b) == Success(MapResult(f, a).value + MapResult(f, b).value)
  {
    var ys := MapResult(f, b).value;
    if a == [] {
      assert a + b == b;
      assert [] + ys == ys;
    } else {
      assert (a + b)[0] == a[0];
      assert (a + b)[1..] == a[1..] + b;
      MapResultAppendSucceeds(f, a[1..], b);
      var x, xs := f(a[0]).value, MapResult(f, a[1..]).value;
      assert [x] + (xs + ys) == ([x] + xs) + ys;
    }
  }

  /**
   * One step of a loop over `s`: after a successful prefix `s[..i]`, element
   * `i` either fails the whole traversal or extends the prefix's results.
   */
  lemma MapResultPrefixStep<A, B, E>(f: A -> Result<B, E>, s: seq<A>, i: int, bs: seq<B>)
    requires 0 <= i < |s| && MapResult(f, s[..i]) == Success(bs)
    ensures f(s[i]).Failure? ==> MapResult(f, s) == Failure(f(s[i]).error)
    ensures f(s[i]).Success? ==> MapResult(f, s[..i + 1]) == Success(bs + [f(s[i]).value])
  {
    MapResultSingleton(f, s[i]);
    assert s[..i] + [s[i]] == s[..i + 1];
    if f(s[i]).Failure? {
      MapResultAppendSecondFails(f, s[..i], [s[i]]);
      MapResultAppendFirstFails(f, s[..i + 1], s[i + 1..]);
      assert s[..i + 1] + s[i + 1..] == s;
    } else {
      MapResultAppendSucceeds(f, s[..i], [s[i]]);
    }
  }

  /** The traversal fails with the error of the first rejected element. */
  lemma {:induction false} FailsAtFirstFailure<A, B, E>(f: A -> Result<B, E>, s: seq<A>, i: int)
    requires FirstFailure(f, s, i)
    ensures MapResult(f, s) == Failure(f(s[i]).error)
  {
    if i > 0 {
      assert f(s[0]).Success?;
      assert FirstFailure(f, s[1..], i - 1);
      FailsAtFirstFailure(f, s[1..], i - 1);
    }
  }

  /** When `f` accepts every element, the traversal succeeds. */
  lemma {:induction false} SucceedsWhenAllSucceed<A, B, E>(f: A -> Result<B, E>, s: seq<A>)
    requires forall k :: 0 <= k < |s| ==> f(s[k]).Success?
    ensures MapResult(f, s).Success?
  {
    if s != [] {
      assert f(s[0]).Success?;
      assert forall k :: 0 <= k < |s| - 1 ==> s[1..][k] == s[k + 1];
      SucceedsWhenAllSucceed(f, s[1..]);
    }
  }

  /** A successful traversal holds, position by position, what `f` gave. */
  lemma {:induction false} MapResultElements<A, B, E>(f: A -> Result<B, E>, s: seq<A>, i: int)
    requires MapResult(f, s).Success? && 0 <= i < |s|
    ensures f(s[i]) == Success(MapResult(f, s).value[i])
  {
    if i > 0 {
      MapResultElements(f, s[1..], i - 1);
    }
  }

  /** A failed traversal has a first rejected element, and carries its error. */
  lemma {:induction false} FailureHasFirstFailure<A, B, E>(f: A -> Result<B, E>, s: seq<A>)
    requires MapResult(f, s).Failure?
    ensures exists i :: FirstFailure(f, s, i) && f(s[i]) == Failure(MapResult(f, s).error)
  {
    if f(s[0]).Failure? {
      assert FirstFailure(f, s, 0);
    } else {
      FailureHasFirstFailure(f, s[1..]);
      var i :| FirstFailure(f, s[1..], i) && f(s[1..][i]) == Failure(MapResult(f, s[1..]).error);
      assert FirstFailure(f, s, i + 1);
    }
  }
}
