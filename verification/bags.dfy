/** Facts about sequences read as bags (multisets), sums and orderings. */
module Bags {

  function Map<A, B>(f: A -> B, s: seq<A>): (r: seq<B>)
    ensures |r| == |s|
    ensures forall i :: 0 <= i < |s| ==> r[i] == f(s[i])
  {
    seq(|s|, i requires 0 <= i < |s| => f(s[i]))
  }

  function Sum(s: seq<int>): int {
    if s == [] then 0 else Sum(s[..|s| - 1]) + s[|s| - 1]
  }

  /** `s` without the element at `i`. */
  function Drop<T>(s: seq<T>, i: nat): seq<T>
    requires i < |s|
  {
    s[..i] + s[i + 1..]
  }

  lemma DropBag<T>(s: seq<T>, i: nat)
    requires i < |s|
    ensures multiset(s) == multiset(Drop(s, i)) + multiset{s[i]}
  {
    assert s == s[..i] + [s[i]] + s[i + 1..];
  }

  lemma HeadBag<T>(s: seq<T>)
    requires s != []
    ensures multiset(s) == multiset{s[0]} + multiset(s[1..])
  {
    assert s == [s[0]] + s[1..];
  }

  lemma CancelOne<T>(a: multiset<T>, b: multiset<T>, x: T)
    requires multiset{x} + a == multiset{x} + b
    ensures a == b
  {
    assert a == multiset{x} + a - multiset{x};
    assert b == multiset{x} + b - multiset{x};
  }

  lemma CancelOneWithin<T>(a: multiset<T>, b: multiset<T>, x: T)
    requires multiset{x} + a <= multiset{x} + b
    ensures a <= b
  {
    assert a == multiset{x} + a - multiset{x};
    assert b == multiset{x} + b - multiset{x};
  }

  /** Removing one element on both sides keeps equality and inclusion of bags. */
  lemma RemoveBoth<T>(a: seq<T>, b: seq<T>, i: nat)
    requires a != [] && i < |b| && a[0] == b[i]
    ensures multiset(a) == multiset(b) ==> multiset(a[1..]) == multiset(Drop(b, i))
    ensures multiset(a) <= multiset(b) ==> multiset(a[1..]) <= multiset(Drop(b, i))
  {
    hide Drop;
    HeadBag(a);
    DropBag(b, i);
    if multiset(a) == multiset(b) { CancelOne(multiset(a[1..]), multiset(Drop(b, i)), a[0]); }
    if multiset(a) <= multiset(b) { CancelOneWithin(multiset(a[1..]), multiset(Drop(b, i)), a[0]); }
  }

  /** Mapping a function over two sequences keeps bag inclusion. */
  lemma {:induction false} MapSubBag<A, B>(f: A -> B, a: seq<A>, b: seq<A>)
    requires multiset(a) <= multiset(b)
    ensures multiset(Map(f, a)) <= multiset(Map(f, b))
    decreases |a|
  {
    if a != [] {
      assert a[0] in multiset(b);
      var i :| 0 <= i < |b| && b[i] == a[0];
      RemoveBoth(a, b, i);
      MapSubBag(f, a[1..], Drop(b, i));
      assert Map(f, a)[1..] == Map(f, a[1..]);
      assert Drop(Map(f, b), i) == Map(f, Drop(b, i));
      AddBoth(Map(f, a), Map(f, b), i);
    }
  }

  lemma AddBoth<T>(a: seq<T>, b: seq<T>, i: nat)
    requires a != [] && i < |b| && a[0] == b[i]
    requires multiset(a[1..]) <= multiset(Drop(b, i))
    ensures multiset(a) <= multiset(b)
  {
    HeadBag(a);
    DropBag(b, i);
  }

  lemma MapSameBag<A, B>(f: A -> B, a: seq<A>, b: seq<A>)
    requires multiset(a) == multiset(b)
    ensures multiset(Map(f, a)) == multiset(Map(f, b))
  {
    MapSubBag(f, a, b);
    MapSubBag(f, b, a);
  }

  ghost predicate Descending(s: seq<int>) {
    forall i, j :: 0 <= i < j < |s| ==> s[i] >= s[j]
  }

  ghost predicate StrictlyDescending(s: seq<int>) {
    forall i, j :: 0 <= i < j < |s| ==> s[i] > s[j]
  }

  lemma SameHead(a: seq<int>, b: seq<int>)
    requires Descending(a) && Descending(b) && a != []
    requires multiset(a) == multiset(b)
    ensures b != [] && a[0] == b[0]
  {
    assert |multiset(a)| == |multiset(b)|;
    assert a[0] in multiset(b) && b[0] in multiset(a);
    assert a[0] in b && b[0] in a;
  }

  /** A bag of integers has one descending arrangement. */
  lemma {:induction false} DescendingUnique(a: seq<int>, b: seq<int>)
    requires Descending(a) && Descending(b)
    requires multiset(a) == multiset(b)
    ensures a == b
    decreases |a|
  {
    hide Descending;
    if a == [] {
      assert |multiset(b)| == 0;
    } else {
      SameHead(a, b);
      TailDescends(a);
      TailDescends(b);
      RemoveBoth(a, b, 0);
      assert Drop(b, 0) == b[1..];
      DescendingUnique(a[1..], b[1..]);
      assert a == [a[0]] + a[1..] && b == [b[0]] + b[1..];
    }
  }

  lemma TailDescends(a: seq<int>)
    requires a != [] && Descending(a)
    ensures Descending(a[1..])
  {
  }

  /** A set of integers has one strictly descending arrangement. */
  lemma {:induction false} StrictlyDescendingUnique(a: seq<int>, b: seq<int>)
    requires StrictlyDescending(a) && StrictlyDescending(b)
    requires forall x :: x in a <==> x in b
    ensures a == b
    decreases |a|
  {
    if a == [] {
      assert forall i :: 0 <= i < |b| ==> b[i] in a;
    } else {
      assert a[0] in a;
      assert b != [];
      assert a[0] in b && b[0] in b && b[0] in a;
      assert a[0] == b[0];
      forall x ensures x in a[1..] <==> x in b[1..] {
        if x in a[1..] { assert x in a; assert x in b; }
        if x in b[1..] { assert x in b; assert x in a; }
      }
      StrictlyDescendingUnique(a[1..], b[1..]);
      assert a == [a[0]] + a[1..] && b == [b[0]] + b[1..];
    }
  }

  lemma {:induction false} StrictlyDescendingCountsOne(s: seq<int>, x: int)
    requires StrictlyDescending(s)
    ensures multiset(s)[x] <= 1
    decreases |s|
  {
    if s != [] {
      HeadBag(s);
      StrictlyDescendingCountsOne(s[1..], x);
      assert s[0] !in s[1..];
    }
  }

  ghost predicate Distinct<T>(s: seq<T>) {
    forall i, j :: 0 <= i < j < |s| ==> s[i] != s[j]
  }

  lemma {:induction false} DistinctCountsOne<T>(s: seq<T>, x: T)
    requires Distinct(s)
    ensures multiset(s)[x] <= 1
    decreases |s|
  {
    if s != [] {
      HeadBag(s);
      DistinctCountsOne(s[1..], x);
      assert s[0] !in s[1..];
    }
  }

  lemma RepeatCountsTwo<T>(s: seq<T>, i: nat, j: nat)
    requires i < j < |s| && s[i] == s[j]
    ensures multiset(s)[s[i]] >= 2
  {
    assert s == s[..j] + [s[j]] + s[j + 1..];
    assert s[i] in s[..j];
  }

  /** Two different values together occur at most |bag| times. */
  lemma TwoCountsFit<T>(bag: multiset<T>, x: T, y: T)
    requires x != y
    ensures bag[x] + bag[y] <= |bag|
  {
    var rest := bag[x := 0];
    assert |rest| == |bag| - bag[x];
    assert |rest[y := 0]| == |rest| - rest[y];
  }

  lemma {:induction false} FewerElementsShorter<T>(a: seq<T>, b: seq<T>)
    requires Distinct(a)
    requires forall x :: x in a ==> x in b
    ensures |a| <= |b|
    decreases |a|
  {
    if a != [] {
      assert a[0] in a;
      var i :| 0 <= i < |b| && b[i] == a[0];
      forall x | x in a[1..] ensures x in Drop(b, i) {
        assert x in a && x in b && x != a[0];
      }
      FewerElementsShorter(a[1..], Drop(b, i));
    }
  }

  /** Lists of different elements with the same elements are equally long. */
  lemma SameElementsSameLength<T>(a: seq<T>, b: seq<T>)
    requires Distinct(a) && Distinct(b)
    requires forall x :: x in a <==> x in b
    ensures |a| == |b|
  {
    FewerElementsShorter(a, b);
    FewerElementsShorter(b, a);
  }

  /** The next element of an unordered container: any of those left. */
  method AnyOf<T(==)>(s: set<T>) returns (x: T)
    requires s != {}
    ensures x in s
  {
    x :| x in s;
  }
}
