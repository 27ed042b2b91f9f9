/** The choices of k indices below n, in the order the in-place "next combination" step visits them. */
module Selections {

  datatype Option<+T> = None | Some(value: T)

  /** `s` lists indices from `lo` up to `n`, strictly increasing. */
  ghost predicate IsSelection(s: seq<int>, lo: int, n: int) {
    && (forall i :: 0 <= i < |s| ==> lo <= s[i] < n)
    && (forall i, j :: 0 <= i < j < |s| ==> s[i] < s[j])
  }

  ghost predicate LexLess(a: seq<int>, b: seq<int>) {
    a != [] && b != [] && (a[0] < b[0] || (a[0] == b[0] && LexLess(a[1..], b[1..])))
  }

  ghost function Prepend(x: int, ss: seq<seq<int>>): (r: seq<seq<int>>) {
    seq(|ss|, i requires 0 <= i < |ss| => [x] + ss[i])
  }

  /** All selections of `k` indices from `lo..n`: first those that use `lo`, then the others. */
  ghost function All(lo: int, n: int, k: nat): seq<seq<int>>
    decreases if n > lo then n - lo else 0
  {
    if k == 0 then [[]]
    else if n - lo < k then []
    else Prepend(lo, All(lo + 1, n, k - 1)) + All(lo + 1, n, k)
  }

  /** The consecutive indices x, x+1, ..., x+k-1. */
  ghost function Consecutive(x: int, k: nat): (r: seq<int>) {
    seq(k, i => x + i)
  }

  lemma {:induction false} AllAreSelections(lo: int, n: int, k: nat)
    ensures forall m :: 0 <= m < |All(lo, n, k)| ==> IsSelection(All(lo, n, k)[m], lo, n) && |All(lo, n, k)[m]| == k
    decreases if n > lo then n - lo else 0
  {
    if 0 < k <= n - lo {
      AllAreSelections(lo + 1, n, k - 1);
      AllAreSelections(lo + 1, n, k);
      var with, without := All(lo + 1, n, k - 1), All(lo + 1, n, k);
      forall m | 0 <= m < |All(lo, n, k)|
        ensures IsSelection(All(lo, n, k)[m], lo, n) && |All(lo, n, k)[m]| == k
      {
        if m < |with| {
          assert All(lo, n, k)[m] == [lo] + with[m];
        } else {
          assert All(lo, n, k)[m] == without[m - |with|];
        }
      }
    }
  }

  /** Every strictly increasing choice is listed. */
  lemma {:induction false} AllComplete(s: seq<int>, lo: int, n: int)
    requires IsSelection(s, lo, n)
    ensures s in All(lo, n, |s|)
    decreases if n > lo then n - lo else 0
  {
    hide IsSelection, Prepend;
    var k := |s|;
    if k > 0 {
      SelectionFits(s, lo, n);
      TailIsSelection(s, lo, n);
      if s[0] == lo {
        AllComplete(s[1..], lo + 1, n);
        PrependMember(lo, All(lo + 1, n, k - 1), s[1..]);
        assert s == [lo] + s[1..];
      } else {
        SkipFirst(s, lo, n);
        AllComplete(s, lo + 1, n);
      }
      InEitherPart(Prepend(lo, All(lo + 1, n, k - 1)), All(lo + 1, n, k), s);
    }
  }

  lemma SkipFirst(s: seq<int>, lo: int, n: int)
    requires s != [] && IsSelection(s, lo, n) && s[0] != lo
    ensures IsSelection(s, lo + 1, n) && lo < n
  {
  }

  lemma PrependMember(x: int, ss: seq<seq<int>>, t: seq<int>)
    requires t in ss
    ensures [x] + t in Prepend(x, ss)
  {
    var i :| 0 <= i < |ss| && ss[i] == t;
    assert Prepend(x, ss)[i] == [x] + t;
  }

  lemma InEitherPart<T>(a: seq<T>, b: seq<T>, x: T)
    ensures x in a + b <==> x in a || x in b
  {
  }

  lemma TailIsSelection(s: seq<int>, lo: int, n: int)
    requires s != [] && IsSelection(s, lo, n)
    ensures IsSelection(s[1..], s[0] + 1, n)
  {
  }

  lemma {:induction false} SelectionFits(s: seq<int>, lo: int, n: int)
    requires s != [] && IsSelection(s, lo, n)
    ensures |s| <= n - lo
    decreases |s|
  {
    assert lo <= s[0] < n;
    if |s| > 1 {
      TailIsSelection(s, lo, n);
      SelectionFits(s[1..], s[0] + 1, n);
    }
  }

  /** The list is strictly increasing in lexicographic order, so nothing is listed twice. */
  lemma {:induction false} AllIncreasing(lo: int, n: int, k: nat, i: nat, j: nat)
    requires i < j < |All(lo, n, k)|
    ensures LexLess(All(lo, n, k)[i], All(lo, n, k)[j])
    ensures All(lo, n, k)[i] != All(lo, n, k)[j]
    decreases if n > lo then n - lo else 0
  {
    var with, without := All(lo + 1, n, k - 1), All(lo + 1, n, k);
    if j < |with| {
      AllIncreasing(lo + 1, n, k - 1, i, j);
      PrependKeepsOrder(lo, with[i], with[j]);
      assert All(lo, n, k)[i] == [lo] + with[i] && All(lo, n, k)[j] == [lo] + with[j];
    } else if |with| <= i {
      AllIncreasing(lo + 1, n, k, i - |with|, j - |with|);
    } else {
      var t := without[j - |with|];
      assert t != [] && t[0] > lo by { AllAreSelections(lo + 1, n, k); }
      assert All(lo, n, k)[i] == [lo] + with[i] && All(lo, n, k)[j] == t;
    }
  }

  lemma PrependKeepsOrder(x: int, a: seq<int>, b: seq<int>)
    requires LexLess(a, b) && a != b
    ensures LexLess([x] + a, [x] + b) && [x] + a != [x] + b
  {
  }

  /** n choose k. */
  ghost function Choose(n: nat, k: nat): nat {
    if k == 0 then 1 else if n == 0 then 0 else Choose(n - 1, k - 1) + Choose(n - 1, k)
  }

  ghost function Factorial(n: nat): nat {
    if n == 0 then 1 else n * Factorial(n - 1)
  }

  lemma {:induction false} ChooseNone(n: nat, k: nat)
    requires n < k
    ensures Choose(n, k) == 0
    decreases n
  {
    if n > 0 { ChooseNone(n - 1, k - 1); ChooseNone(n - 1, k); }
  }

  lemma {:induction false} ChooseFactorial(n: nat, k: nat)
    requires k <= n
    ensures Choose(n, k) * Factorial(k) * Factorial(n - k) == Factorial(n)
    decreases n
  {
    if k == 0 {
    } else if k == n {
      ChooseFactorial(n - 1, k - 1);
      ChooseNone(n - 1, k);
      PullOut(Choose(n - 1, k - 1), k, Factorial(k - 1), 1);
    } else {
      ChooseFactorial(n - 1, k - 1);
      ChooseFactorial(n - 1, k);
      var a, b, m := Choose(n - 1, k - 1), Choose(n - 1, k), n - k;
      assert Factorial(m) == m * Factorial(m - 1);
      PascalProduct(a, b, k, m, Factorial(k - 1), Factorial(m - 1), Factorial(n - 1));
    }
  }

  lemma PullOut(a: int, k: int, f: int, g: int)
    ensures a * (k * f) * g == k * (a * f * g)
  {
  }

  lemma PascalProduct(a: int, b: int, k: int, m: int, f: int, g: int, total: int)
    requires a * f * (m * g) == total
    requires b * (k * f) * g == total
    ensures (a + b) * (k * f) * (m * g) == (k + m) * total
  {
  }

  lemma {:induction false} AllCount(lo: int, n: int, k: nat)
    requires lo <= n
    ensures |All(lo, n, k)| == Choose(n - lo, k)
    decreases n - lo
  {
    if k > 0 {
      if n - lo < k {
        ChooseNone(n - lo, k);
      } else {
        AllCount(lo + 1, n, k - 1);
        AllCount(lo + 1, n, k);
      }
    }
  }

  /** The selection after `s`, if there is one: bump the rightmost index that still has room. */
  ghost function Next(s: seq<int>, n: int): Option<seq<int>> {
    if s == [] then None
    else match Next(s[1..], n)
      case Some(t) => Some([s[0]] + t)
      case None => if s[0] < n - |s| then Some(Consecutive(s[0] + 1, |s|)) else None
  }

  lemma {:induction false} FirstIsConsecutive(lo: int, n: int, k: nat)
    requires k <= n - lo
    ensures |All(lo, n, k)| > 0 && All(lo, n, k)[0] == Consecutive(lo, k)
    decreases k
  {
    if k > 0 {
      FirstIsConsecutive(lo + 1, n, k - 1);
      assert [lo] + Consecutive(lo + 1, k - 1) == Consecutive(lo, k);
    }
  }

  /** Stepping from one listed selection reaches the next listed one, and stops exactly at the last. */
  lemma {:induction false} NextIsSuccessor(lo: int, n: int, k: nat, m: nat)
    requires m < |All(lo, n, k)|
    ensures Next(All(lo, n, k)[m], n) == if m + 1 < |All(lo, n, k)| then Some(All(lo, n, k)[m + 1]) else None
    decreases if n > lo then n - lo else 0
  {
    hide IsSelection, Consecutive;
    if k > 0 {
      var with, without := All(lo + 1, n, k - 1), All(lo + 1, n, k);
      if m < |with| {
        var s := All(lo, n, k)[m];
        assert s == [lo] + with[m] && s[1..] == with[m];
        assert |s| == k by { AllAreSelections(lo, n, k); }
        NextIsSuccessor(lo + 1, n, k - 1, m);
        if m + 1 < |with| {
          assert All(lo, n, k)[m + 1] == [lo] + with[m + 1];
        } else if k <= n - (lo + 1) {
          FirstIsConsecutive(lo + 1, n, k);
        }
      } else {
        NextIsSuccessor(lo + 1, n, k, m - |with|);
      }
    }
  }

  /** `i` is the rightmost index of `s` that can still grow below `n`. */
  ghost predicate IsPivot(s: seq<int>, n: int, i: int) {
    && 0 <= i < |s|
    && s[i] != n - |s| + i
    && forall j :: i < j < |s| ==> s[j] == n - |s| + j
  }

  /** What the in-place loops compute is `Next`. */
  lemma {:induction false} NextAtPivot(s: seq<int>, n: int, i: int)
    requires IsSelection(s, 0, n)
    requires IsPivot(s, n, i)
    ensures Next(s, n) == Some(s[..i] + Consecutive(s[i] + 1, |s| - i))
    decreases |s|
  {
    hide IsSelection;
    if i == 0 {
      NoPivot(s[1..], n);
      FirstHasRoom(s, n);
      assert s[..0] + Consecutive(s[0] + 1, |s|) == Consecutive(s[0] + 1, |s|);
    } else {
      TailFromZero(s, n);
      NextAtPivot(s[1..], n, i - 1);
      assert [s[0]] + (s[1..][..i - 1] + Consecutive(s[i] + 1, |s| - i)) == s[..i] + Consecutive(s[i] + 1, |s| - i);
    }
  }

  lemma FirstHasRoom(s: seq<int>, n: int)
    requires IsSelection(s, 0, n) && IsPivot(s, n, 0)
    ensures s[0] < n - |s|
  {
    SelectionFits(s, s[0], n);
  }

  lemma TailFromZero(s: seq<int>, n: int)
    requires s != [] && IsSelection(s, 0, n)
    ensures IsSelection(s[1..], 0, n)
  {
    TailIsSelection(s, 0, n);
  }

  lemma {:induction false} NoPivot(s: seq<int>, n: int)
    requires forall j :: 0 <= j < |s| ==> s[j] == n - |s| + j
    ensures Next(s, n) == None
    decreases |s|
  {
    if s != [] { NoPivot(s[1..], n); }
  }
}
