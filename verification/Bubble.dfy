/** Bubble sort in its two forms, and the version that counts comparisons and swaps. */
module Bubble {
  ghost predicate Sorted(s: seq<int>) {
    forall i, j :: 0 <= i < j < |s| ==> s[i] <= s[j]
  }

  // ----- Inversions -----

  /** The elements of s smaller than x. */
  ghost function Smaller(s: seq<int>, x: int): nat {
    if s == [] then 0 else (if s[0] < x then 1 else 0) + Smaller(s[1..], x)
  }

  /** The pairs of positions that are out of order. */
  ghost function Inversions(s: seq<int>): nat {
    if s == [] then 0 else Smaller(s[1..], s[0]) + Inversions(s[1..])
  }

  function Swap(s: seq<int>, j: nat): seq<int>
    requires j + 1 < |s|
  {
    s[j := s[j + 1]][j + 1 := s[j]]
  }

  lemma SwapPermutes(s: seq<int>, j: nat)
    requires j + 1 < |s|
    ensures multiset(Swap(s, j)) == multiset(s)
  {
  }

  lemma {:induction false} SmallerAfterSwap(s: seq<int>, j: nat, x: int)
    requires j + 1 < |s|
    ensures Smaller(Swap(s, j), x) == Smaller(s, x)
  {
    var t := Swap(s, j);
    if j == 0 {
      assert t[1..][1..] == s[1..][1..];
      assert Smaller(s[1..], x) == (if s[1] < x then 1 else 0) + Smaller(s[1..][1..], x);
      assert Smaller(t[1..], x) == (if t[1] < x then 1 else 0) + Smaller(t[1..][1..], x);
    } else {
      assert t[1..] == Swap(s[1..], j - 1);
      SmallerAfterSwap(s[1..], j - 1, x);
    }
  }

  /** Swapping two neighbours that are out of order removes exactly one inversion. */
  lemma {:induction false} SwapRemovesOne(s: seq<int>, j: nat)
    requires j + 1 < |s| && s[j] > s[j + 1]
    ensures Inversions(Swap(s, j)) == Inversions(s) - 1
  {
    var t := Swap(s, j);
    if j == 0 {
      var rest := s[1..][1..];
      assert t[1..][1..] == rest;
      assert Inversions(s[1..]) == Smaller(rest, s[1]) + Inversions(rest);
      assert Inversions(t[1..]) == Smaller(rest, s[0]) + Inversions(rest);
      assert Smaller(s[1..], s[0]) == 1 + Smaller(rest, s[0]);
      assert Smaller(t[1..], t[0]) == Smaller(rest, s[1]);
    } else {
      assert t[1..] == Swap(s[1..], j - 1);
      SmallerAfterSwap(s[1..], j - 1, s[0]);
      SwapRemovesOne(s[1..], j - 1);
    }
  }

  lemma {:induction false} NoneSmaller(s: seq<int>, x: int)
    requires forall i :: 0 <= i < |s| ==> x <= s[i]
    ensures Smaller(s, x) == 0
  {
    if s != [] {
      NoneSmaller(s[1..], x);
    }
  }

  lemma {:induction false} SortedHasNone(s: seq<int>)
    requires Sorted(s)
    ensures Inversions(s) == 0
  {
    if s != [] {
      NoneSmaller(s[1..], s[0]);
      SortedHasNone(s[1..]);
    }
  }

  /** A sorted arrangement of given elements is unique. */
  lemma {:induction false} SortedIsUnique(s: seq<int>, t: seq<int>)
    requires Sorted(s) && Sorted(t) && multiset(s) == multiset(t)
    ensures s == t
    decreases |s|
  {
    assert |s| == |multiset(s)| == |multiset(t)| == |t|;
    if s != [] {
      assert s[0] in multiset(t) && t[0] in multiset(s);
      assert s[0] == t[0];
      assert s == [s[0]] + s[1..] && t == [t[0]] + t[1..];
      assert multiset(s[1..]) == multiset(s) - multiset{s[0]};
      assert multiset(t[1..]) == multiset(t) - multiset{t[0]};
      SortedIsUnique(s[1..], t[1..]);
      assert s == t;
    }
  }

  // ----- The loops -----

  /** The part after i is in its final place: sorted, and nothing before it is larger. */
  ghost predicate Settled(s: seq<int>, i: int) {
    forall k, l :: 0 <= k < l < |s| && i < l ==> s[k] <= s[l]
  }

  /** Within a pass, position j holds the largest element up to j. */
  ghost predicate Bubbling(s: seq<int>, i: int, j: int) {
    && Settled(s, i)
    && 0 <= j <= i < |s|
    && forall k :: 0 <= k < j ==> s[k] <= s[j]
  }

  /** One step of a pass, on values: compare and, if out of order, swap. */
  function Exchange(s: seq<int>, j: nat): (r: seq<int>)
    requires j + 1 < |s|
    ensures |r| == |s|
  {
    if s[j] > s[j + 1] then Swap(s, j) else s
  }

  lemma ExchangeKeepsBubbling(s: seq<int>, i: int, j: nat)
    requires Bubbling(s, i, j) && j < i
    ensures Bubbling(Exchange(s, j), i, j + 1)
    ensures multiset(Exchange(s, j)) == multiset(s)
    ensures Inversions(Exchange(s, j)) == Inversions(s) - if s[j] > s[j + 1] then 1 else 0
  {
    if s[j] > s[j + 1] {
      SwapPermutes(s, j);
      SwapRemovesOne(s, j);
    }
  }

  /** The loop body of bubble1 and bubcnt: swaps under a condition. */
  method SwapIfGreater(a: array<int>, n: nat, j: nat) returns (swapped: bool)
    requires j + 1 < n <= a.Length
    modifies a
    ensures a[..n] == Exchange(old(a[..n]), j) && a[n..] == old(a[n..])
    ensures swapped == (old(a[j]) > old(a[j + 1]))
  {
    swapped := a[j] > a[j + 1];
    if swapped {
      var t := a[j];
      a[j] := a[j + 1];
      a[j + 1] := t;
    }
  }

  /** The loop body of bubble2: always writes both elements, the smaller first. */
  method WriteInOrder(a: array<int>, n: nat, j: nat)
    requires j + 1 < n <= a.Length
    modifies a
    ensures a[..n] == Exchange(old(a[..n]), j) && a[n..] == old(a[n..])
  {
    var naj := if a[j] > a[j + 1] then a[j + 1] else a[j];
    var naj1 := if a[j] > a[j + 1] then a[j] else a[j + 1];
    a[j] := naj;
    a[j + 1] := naj1;
  }

  /** The inner loop of bubble1. */
  method Bubble1Pass(a: array<int>, n: nat, i: nat, ghost s: seq<int>) returns (ghost t: seq<int>)
    requires 0 < i < n <= a.Length && s == a[..n] && Settled(s, i)
    modifies a
    ensures t == a[..n] && a[n..] == old(a[n..])
    ensures Settled(t, i - 1) && multiset(t) == multiset(s)
  {
    t := s;
    var j := 0;
    while j < i
      invariant t == a[..n] && a[n..] == old(a[n..])
      invariant Bubbling(t, i, j) && multiset(t) == multiset(s)
    {
      var _ := SwapIfGreater(a, n, j);
      ExchangeKeepsBubbling(t, i, j);
      t := Exchange(t, j);
      j := j + 1;
    }
  }

  /** bubble1. */
  method Bubble1(a: array<int>, n: nat)
    requires n <= a.Length
    modifies a
    ensures Sorted(a[..n]) && multiset(a[..n]) == multiset(old(a[..n]))
    ensures a[n..] == old(a[n..])
  {
    ghost var s := a[..n];
    var i := n - 1;
    while i > 0
      invariant s == a[..n] && a[n..] == old(a[n..]) && multiset(s) == multiset(old(a[..n]))
      invariant i < n && (n > 0 ==> i >= 0) && Settled(s, i)
    {
      s := Bubble1Pass(a, n, i, s);
      i := i - 1;
    }
  }

  /** The inner loop of bubble2. */
  method Bubble2Pass(a: array<int>, n: nat, i: nat, ghost s: seq<int>) returns (ghost t: seq<int>)
    requires 0 < i < n <= a.Length && s == a[..n] && Settled(s, i)
    modifies a
    ensures t == a[..n] && a[n..] == old(a[n..])
    ensures Settled(t, i - 1) && multiset(t) == multiset(s)
  {
    t := s;
    var j := 0;
    while j < i
      invariant t == a[..n] && a[n..] == old(a[n..])
      invariant Bubbling(t, i, j) && multiset(t) == multiset(s)
    {
      WriteInOrder(a, n, j);
      ExchangeKeepsBubbling(t, i, j);
      t := Exchange(t, j);
      j := j + 1;
    }
  }

  /** bubble2. */
  method Bubble2(a: array<int>, n: nat)
    requires n <= a.Length
    modifies a
    ensures Sorted(a[..n]) && multiset(a[..n]) == multiset(old(a[..n]))
    ensures a[n..] == old(a[n..])
  {
    ghost var s := a[..n];
    var i := n - 1;
    while i > 0
      invariant s == a[..n] && a[n..] == old(a[n..]) && multiset(s) == multiset(old(a[..n]))
      invariant i < n && (n > 0 ==> i >= 0) && Settled(s, i)
    {
      s := Bubble2Pass(a, n, i, s);
      i := i - 1;
    }
  }

  /** The inner loop of bubcnt. */
  method CountPass(a: array<int>, n: nat, i: nat, ghost s: seq<int>)
    returns (comparisons: int, swaps: int, ghost t: seq<int>)
    requires 0 < i < n <= a.Length && s == a[..n] && Settled(s, i)
    modifies a
    ensures t == a[..n] && a[n..] == old(a[n..])
    ensures Settled(t, i - 1) && multiset(t) == multiset(s)
    ensures comparisons == i && swaps + Inversions(t) == Inversions(s)
  {
    comparisons, swaps, t := 0, 0, s;
    var j := 0;
    while j < i
      invariant t == a[..n] && a[n..] == old(a[n..])
      invariant Bubbling(t, i, j) && multiset(t) == multiset(s)
      invariant comparisons == j && swaps + Inversions(t) == Inversions(s)
    {
      comparisons := comparisons + 1;
      var swapped := SwapIfGreater(a, n, j);
      if swapped {
        swaps := swaps + 1;
      }
      ExchangeKeepsBubbling(t, i, j);
      t := Exchange(t, j);
      j := j + 1;
    }
  }

  /** bubcnt: the number of comparisons depends on n alone; the number of swaps is the number of
      inversions of the original array. */
  method BubbleCount(a: array<int>, n: nat) returns (comparisons: int, swaps: int)
    requires n <= a.Length
    modifies a
    ensures comparisons == n * (n - 1) / 2
    ensures swaps == Inversions(old(a[..n]))
    ensures Sorted(a[..n]) && multiset(a[..n]) == multiset(old(a[..n]))
    ensures a[n..] == old(a[n..])
  {
    comparisons, swaps := 0, 0;
    ghost var s := a[..n];
    var i := n - 1;
    while i > 0
      invariant s == a[..n] && a[n..] == old(a[n..]) && multiset(s) == multiset(old(a[..n]))
      invariant i < n && (n > 0 ==> i >= 0) && Settled(s, i)
      invariant swaps + Inversions(s) == Inversions(old(a[..n]))
      invariant 2 * comparisons == n * (n - 1) - (i + 1) * i
    {
      var compared, swapped;
      compared, swapped, s := CountPass(a, n, i, s);
      comparisons, swaps := comparisons + compared, swaps + swapped;
      assert (i + 1) * i == i * (i - 1) + 2 * i;
      i := i - 1;
    }
    SortedHasNone(s);
  }

  /** Both forms leave the same array. */
  method BothFormsAgree(a: array<int>, b: array<int>, n: nat)
    requires a != b && a.Length == b.Length && n <= a.Length && a[..] == b[..]
    modifies a, b
    ensures a[..] == b[..]
  {
    Bubble1(a, n);
    Bubble2(b, n);
    SortedIsUnique(a[..n], b[..n]);
    assert a[..] == a[..n] + a[n..] && b[..] == b[..n] + b[n..];
  }
}
