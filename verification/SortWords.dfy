/** Insertion sort by falling frequency, on positions instead of elements. */
module FrequencyOrder {
  function InsertAt(p: seq<nat>, j: nat, x: nat): (q: seq<nat>)
    requires j <= |p|
    ensures |q| == |p| + 1 && q[j] == x
    ensures forall k {:trigger q[k]} :: 0 <= k < j ==> q[k] == p[k]
    ensures forall k {:trigger q[k]} :: j < k < |q| ==> q[k] == p[k - 1]
  {
    p[..j] + [x] + p[j..]
  }

  /** How many of the first n frequencies are 1. */
  function Ones(f: seq<int>, n: nat): nat
    requires n <= |f|
  {
    if n == 0 then 0 else Ones(f, n - 1) + if f[n - 1] == 1 then 1 else 0
  }

  /** Higher frequencies first, and among equal ones the earlier element. */
  predicate Before(f: seq<int>, a: nat, b: nat)
    requires a < |f| && b < |f|
  {
    f[a] > f[b] || (f[a] == f[b] && a < b)
  }

  /** p lists the positions before n, stably sorted. */
  ghost predicate IsOrder(f: seq<int>, n: nat, p: seq<nat>) {
    && |p| == n <= |f|
    && (forall k :: 0 <= k < n ==> p[k] < n)
    && (forall k, l :: 0 <= k < l < n ==> Before(f, p[k], p[l]))
  }

  /** The next element moves past those with a lower frequency. */
  lemma InsertKeepsOrder(f: seq<int>, p: seq<nat>, j: nat)
    requires IsOrder(f, |p|, p) && |p| < |f| && j <= |p|
    requires forall l :: j <= l < |p| ==> f[|p|] > f[p[l]]
    requires j > 0 ==> f[|p|] <= f[p[j - 1]]
    ensures IsOrder(f, |p| + 1, InsertAt(p, j, |p|))
  {
    var q := InsertAt(p, j, |p|);
    forall k, l | 0 <= k < l < |q| ensures Before(f, q[k], q[l]) {
      if l == j && k < j - 1 {
        assert Before(f, p[k], p[j - 1]);
      }
    }
  }

  /** An order of n positions leaves none of them out. */
  lemma OrderHasAll(f: seq<int>, n: nat, p: seq<nat>, x: nat)
    requires IsOrder(f, n, p) && x < n
    ensures x in p
  {
    Distinct(f, n, p, n);
    SubsetOfSameSize(set k | 0 <= k < n :: p[k], Below(n));
    assert x in Below(n);
  }

  ghost function Below(n: nat): (s: set<nat>)
    ensures |s| == n && forall x: nat :: x in s <==> x < n
  {
    if n == 0 then {} else Below(n - 1) + {n - 1}
  }

  lemma {:induction false} Distinct(f: seq<int>, n: nat, p: seq<nat>, m: nat)
    requires IsOrder(f, n, p) && m <= n
    ensures |set k | 0 <= k < m :: p[k]| == m
  {
    if m > 0 {
      Distinct(f, n, p, m - 1);
      var before := set k | 0 <= k < m - 1 :: p[k];
      assert (set k | 0 <= k < m :: p[k]) == before + {p[m - 1]};
      assert forall k :: 0 <= k < m - 1 ==> Before(f, p[k], p[m - 1]);
      assert p[m - 1] !in before;
    }
  }

  lemma SubsetOfSameSize<T>(a: set<T>, b: set<T>)
    requires a <= b && |a| == |b|
    ensures a == b
  {
    assert b == a + (b - a) && |b - a| == 0;
  }
}

/** sort_words: the nodes of a table, relinked into one list by frequency. */
module WordSort {
  import opened FrequencyOrder
  import opened HashTable
  import opened Sums
  import opened WordTable

  /** The frequencies of the nodes do not change while they are sorted. */
  ghost predicate HaveFreqs(list: seq<Node>, f: seq<int>)
    reads list
  {
    |f| == |list| && forall k :: 0 <= k < |list| ==> list[k].freq == f[k]
  }

  /** The array begins with the nodes at the positions p. */
  ghost predicate Arranged(a: seq<Node?>, list: seq<Node>, p: seq<nat>) {
    && |p| <= |list| == |a|
    && forall k :: 0 <= k < |p| ==> p[k] < |list| && a[k] == list[p[k]]
  }

  lemma Placed(a: seq<Node?>, list: seq<Node>, p: seq<nat>, j: nat, x: nat)
    requires j <= |p| == x < |list| == |a| && forall k :: 0 <= k < |p| ==> p[k] < |list|
    requires forall k :: 0 <= k < j ==> a[k] == list[p[k]]
    requires a[j] == list[x] && forall k :: j < k <= |p| ==> a[k] == list[p[k - 1]]
    ensures Arranged(a, list, InsertAt(p, j, x))
  {
  }

  /** The inner loop for one node: those with a lower frequency move up. */
  method InsertSorted(arr: array<Node?>, cnt: nat, ele: Node, ghost list: seq<Node>, ghost f: seq<int>,
      ghost p: seq<nat>)
    returns (ghost q: seq<nat>)
    requires HaveFreqs(list, f) && Arranged(arr[..], list, p) && IsOrder(f, cnt, p)
    requires cnt < |list| && ele == list[cnt]
    modifies arr
    ensures Arranged(arr[..], list, q) && IsOrder(f, cnt + 1, q)
  {
    assert forall k :: 0 <= k < cnt ==> arr[k] == list[p[k]];
    var j: nat := cnt;
    while j > 0 && ele.freq > arr[j - 1].freq
      invariant j <= cnt && forall k :: j <= k < cnt ==> f[cnt] > f[p[k]]
      invariant forall k :: 0 <= k < j ==> arr[k] == list[p[k]]
      invariant forall k :: j < k <= cnt ==> arr[k] == list[p[k - 1]]
    {
      arr[j] := arr[j - 1];
      j := j - 1;
    }
    arr[j] := ele;
    q := InsertAt(p, j, cnt);
    Placed(arr[..], list, p, j, cnt);
    InsertKeepsOrder(f, p, j);
  }

  /** The first cnt nodes stand in the array in order p, and the singletons among them are counted. */
  ghost predicate Sorted(a: seq<Node?>, cnt: nat, scnt: int, list: seq<Node>, f: seq<int>, p: seq<nat>) {
    IsOrder(f, cnt, p) && Arranged(a, list, p) && scnt == Ones(f, cnt)
  }

  /** The body of the loop over the nodes. */
  method SortOne(d: Dictionary, arr: array<Node?>, cnt: nat, ele: Node, ghost list: seq<Node>, ghost f: seq<int>,
            ghost p: seq<nat>)
    returns (ghost q: seq<nat>)
    requires HaveFreqs(list, f) && Sorted(arr[..], cnt, d.scnt, list, f, p)
    requires cnt < |list| && ele == list[cnt]
    modifies arr, d`scnt
    ensures Sorted(arr[..], cnt + 1, d.scnt, list, f, q)
  {
    if ele.freq == 1 {
      d.scnt := d.scnt + 1;
    }
    q := InsertSorted(arr, cnt, ele, list, f, p);
  }

  /** The loop over the chain of one bucket, whose nodes come next in the list. */
  method SortChain(d: Dictionary, arr: array<Node?>, start: nat, head: Node?, ghost chain: seq<Node>,
            ghost list: seq<Node>, ghost f: seq<int>, ghost p: seq<nat>)
    returns (cnt: nat, ghost q: seq<nat>)
    requires HaveFreqs(list, f) && Sorted(arr[..], start, d.scnt, list, f, p)
    requires Linked(head, chain) && start + |chain| <= |list|
    requires forall k :: 0 <= k < |chain| ==> chain[k] == list[start + k]
    modifies arr, d`scnt
    ensures cnt == start + |chain| && Sorted(arr[..], cnt, d.scnt, list, f, q)
  {
    cnt, q := start, p;
    var ele := head;
    ghost var k := 0;
    while ele != null
      invariant 0 <= k <= |chain| && cnt == start + k && ele == if k < |chain| then chain[k] else null
      invariant Sorted(arr[..], cnt, d.scnt, list, f, q)
      decreases |chain| - k
    {
      assert ele == list[cnt] && ele.next == if k + 1 < |chain| then chain[k + 1] else null;
      q := SortOne(d, arr, cnt, ele, list, f, q);
      cnt := cnt + 1;
      ele := ele.next;
      k := k + 1;
    }
  }

  // ----- All buckets -----

  /** The elements of the first n buckets, in bucket order. */
  function Flatten<T>(ss: seq<seq<T>>, n: nat): seq<T>
    requires n <= |ss|
  {
    if n == 0 then [] else Flatten(ss, n - 1) + ss[n - 1]
  }

  lemma {:induction false} FlattenAt<T>(ss: seq<seq<T>>, i: nat, k: nat, n: nat)
    requires i < n <= |ss| && k < |ss[i]|
    ensures |Flatten(ss, i)| + k < |Flatten(ss, n)| && Flatten(ss, n)[|Flatten(ss, i)| + k] == ss[i][k]
    ensures |Flatten(ss, i)| + |ss[i]| <= |Flatten(ss, n)|
  {
    if i < n - 1 {
      FlattenAt(ss, i, k, n - 1);
    }
  }

  lemma {:induction false} FlattenOrigin<T>(ss: seq<seq<T>>, n: nat, x: nat) returns (i: nat, k: nat)
    requires n <= |ss| && x < |Flatten(ss, n)|
    ensures i < n && k < |ss[i]| && x == |Flatten(ss, i)| + k && Flatten(ss, n)[x] == ss[i][k]
  {
    var before := |Flatten(ss, n - 1)|;
    if x < before {
      i, k := FlattenOrigin(ss, n - 1, x);
    } else {
      i, k := n - 1, x - before;
    }
  }

  lemma {:induction false} FlattenLength(spine: seq<seq<Node>>, buckets: seq<seq<Entry>>, n: nat)
    requires |spine| == |buckets| && n <= |spine|
    requires forall i :: 0 <= i < |spine| ==> |spine[i]| == |buckets[i]|
    ensures |Flatten(spine, n)| == Sum(buckets[..n], Length)
  {
    if n > 0 {
      FlattenLength(spine, buckets, n - 1);
      SumSplit(buckets[..n - 1], [buckets[n - 1]], Length);
      assert buckets[..n] == buckets[..n - 1] + [buckets[n - 1]];
    }
  }

  lemma FlattenDistinct(spine: seq<seq<Node>>)
    requires forall i, k :: 0 <= i < |spine| && 0 <= k < |spine[i]| ==> spine[i][k].bucket == i
    requires forall i :: 0 <= i < |spine| ==> NoDuplicates(spine[i])
    ensures NoDuplicates(Flatten(spine, |spine|))
  {
    var list := Flatten(spine, |spine|);
    forall x, y | 0 <= x < y < |list| ensures list[x] != list[y] {
      var i, k := FlattenOrigin(spine, |spine|, x);
      var j, l := FlattenOrigin(spine, |spine|, y);
      if i == j {
        assert spine[i][k] != spine[i][l];
      }
    }
  }

  /** What a stable sort of the nodes by falling frequency is: p says where each came from. */
  ghost predicate IsStableSort(sorted: seq<Node>, list: seq<Node>, p: seq<nat>)
    reads sorted
  {
    && |p| == |sorted| == |list|
    && (forall k :: 0 <= k < |p| ==> p[k] < |list| && sorted[k] == list[p[k]])
    && (forall x: nat :: x < |list| ==> x in p)
    && (forall k, l :: 0 <= k < l < |p| ==>
          sorted[k].freq > sorted[l].freq || (sorted[k].freq == sorted[l].freq && p[k] < p[l]))
  }

  lemma OrderSorts(sorted: seq<Node>, list: seq<Node>, f: seq<int>, p: seq<nat>)
    requires HaveFreqs(list, f) && NoDuplicates(list) && IsOrder(f, |list|, p)
    requires |sorted| == |list| && forall k :: 0 <= k < |list| ==> sorted[k] == list[p[k]]
    ensures IsStableSort(sorted, list, p) && NoDuplicates(sorted)
  {
    forall x: nat | x < |list| ensures x in p {
      OrderHasAll(f, |list|, p, x);
    }
    assert forall k, l :: 0 <= k < l < |p| ==> Before(f, p[k], p[l]);
  }

  /** The loops at the end: the nodes become a list in the order of the array. */
  method Relink(arr: array<Node?>, ghost sorted: seq<Node>, ghost nodes: set<Node>)
    requires 0 < arr.Length == |sorted| && NoDuplicates(sorted)
    requires forall k :: 0 <= k < |sorted| ==> arr[k] == sorted[k]
    requires forall k :: 0 <= k < |sorted| ==> sorted[k] in nodes
    modifies nodes`next
    ensures Linked(arr[0], sorted)
  {
    var cnt := arr.Length;
    var j := 0;
    while j < cnt - 1
      invariant 0 <= j <= cnt - 1
      invariant forall k {:trigger sorted[k].next} :: 0 <= k < j ==> sorted[k].next == sorted[k + 1]
    {
      assert arr[j] == sorted[j] && arr[j + 1] == sorted[j + 1];
      arr[j].next := arr[j + 1];
      j := j + 1;
    }
    assert arr[cnt - 1] == sorted[cnt - 1];
    arr[cnt - 1].next := null;
  }

  /** Where each bucket lies in the list of all nodes. */
  ghost predicate Laid(spine: seq<seq<Node>>, list: seq<Node>, starts: seq<int>) {
    && |starts| == |spine| + 1 && starts[0] == 0 && starts[|spine|] == |list|
    && forall i :: 0 <= i < |spine| ==> LaidAt(spine[i], list, starts[i], starts[i + 1])
  }

  ghost predicate LaidAt(chain: seq<Node>, list: seq<Node>, start: int, end: int) {
    && 0 <= start && start + |chain| == end <= |list|
    && forall k :: 0 <= k < |chain| ==> chain[k] == list[start + k]
  }

  /** The loop over the buckets. */
  method SortBuckets(d: Dictionary, arr: array<Node?>, ghost spine: seq<seq<Node>>, ghost list: seq<Node>,
            ghost f: seq<int>, ghost starts: seq<int>)
    returns (ghost p: seq<nat>)
    requires |spine| == d.htable.Length && forall j :: 0 <= j < |spine| ==> Linked(d.htable[j], spine[j])
    requires Laid(spine, list, starts) && HaveFreqs(list, f)
    requires arr.Length == |list| && arr != d.htable
    modifies arr, d`scnt
    ensures Sorted(arr[..], |list|, d.scnt, list, f, p)
  {
    d.scnt := 0;
    p := [];
    var cnt, i := 0, 0;
    while i < d.htable.Length
      invariant 0 <= i <= d.htable.Length
      invariant cnt == starts[i] && Sorted(arr[..], cnt, d.scnt, list, f, p)
    {
      assert Linked(d.htable[i], spine[i]);
      assert LaidAt(spine[i], list, starts[i], starts[i + 1]);
      cnt, p := SortChain(d, arr, cnt, d.htable[i], spine[i], list, f, p);
      i := i + 1;
    }
  }

  lemma FlattenLays(spine: seq<seq<Node>>) returns (starts: seq<int>)
    ensures Laid(spine, Flatten(spine, |spine|), starts)
  {
    var list := Flatten(spine, |spine|);
    starts := seq(|spine| + 1, i requires 0 <= i <= |spine| => |Flatten(spine, i)|);
    forall i | 0 <= i < |spine| ensures LaidAt(spine[i], list, starts[i], starts[i + 1]) {
      PrefixLength(spine, i + 1, |spine|);
      forall k | 0 <= k < |spine[i]| ensures spine[i][k] == list[starts[i] + k] {
        FlattenAt(spine, i, k, |spine|);
      }
    }
  }

  lemma {:induction false} PrefixLength<T>(ss: seq<seq<T>>, i: nat, n: nat)
    requires i <= n <= |ss|
    ensures |Flatten(ss, i)| <= |Flatten(ss, n)|
  {
    if i < n {
      PrefixLength(ss, i, n - 1);
    }
  }

  ghost function Singletons(list: seq<Node>): set<Node>
    reads list
  {
    set n | n in list && n.freq == 1
  }

  lemma OneMoreNode(list: seq<Node>, n: Node)
    requires n !in list
    ensures |Singletons(list + [n])| == |Singletons(list)| + if n.freq == 1 then 1 else 0
  {
    if n.freq == 1 {
      assert Singletons(list + [n]) == Singletons(list) + {n};
    } else {
      assert Singletons(list + [n]) == Singletons(list);
    }
  }

  lemma {:induction false} OnesIsCount(list: seq<Node>, f: seq<int>, n: nat)
    requires HaveFreqs(list, f) && NoDuplicates(list) && n <= |f|
    ensures Ones(f, n) == |Singletons(list[..n])|
  {
    if n > 0 {
      OnesIsCount(list, f, n - 1);
      assert list[..n] == list[..n - 1] + [list[n - 1]];
      OneMoreNode(list[..n - 1], list[n - 1]);
    }
  }

  lemma FromTable(d: Dictionary, n: Node)
    requires d.Valid() && n in Flatten(d.spine, |d.spine|)
    ensures n in d.nodes
  {
    var x :| 0 <= x < |Flatten(d.spine, |d.spine|)| && Flatten(d.spine, |d.spine|)[x] == n;
    var i, k := FlattenOrigin(d.spine, |d.spine|, x);
  }

  ghost function Freqs(list: seq<Node>): (f: seq<int>)
    reads list
    ensures HaveFreqs(list, f)
  {
    if list == [] then [] else Freqs(list[..|list| - 1]) + [list[|list| - 1].freq]
  }

  ghost function Gather(list: seq<Node>, p: seq<nat>): (sorted: seq<Node>)
    requires forall k :: 0 <= k < |p| ==> p[k] < |list|
    ensures |sorted| == |p| && forall k :: 0 <= k < |p| ==> sorted[k] == list[p[k]]
  {
    seq(|p|, k requires 0 <= k < |p| => list[p[k]])
  }

  lemma ArrayIsSorted(a: seq<Node?>, scnt: int, list: seq<Node>, f: seq<int>, p: seq<nat>)
    requires HaveFreqs(list, f) && NoDuplicates(list) && Sorted(a, |list|, scnt, list, f, p)
    ensures a == Gather(list, p) && NoDuplicates(Gather(list, p)) && IsStableSort(Gather(list, p), list, p)
    ensures scnt == |Singletons(list)|
  {
    OrderSorts(Gather(list, p), list, f, p);
    OnesIsCount(list, f, |f|);
    assert list[..|f|] == list;
  }

  /** The loops of sort_words: the array of nodes, sorted. */
  method SortToArray(d: Dictionary) returns (arr: array<Node?>, ghost sorted: seq<Node>, ghost p: seq<nat>)
    requires d.Valid() && d.ucnt == |Flatten(d.spine, |d.spine|)|
    modifies d`scnt
    ensures fresh(arr) && arr[..] == sorted && NoDuplicates(sorted)
    ensures IsStableSort(sorted, Flatten(d.spine, |d.spine|), p)
    ensures d.scnt == |Singletons(Flatten(d.spine, |d.spine|))|
  {
    ghost var list := Flatten(d.spine, |d.spine|);
    ghost var f := Freqs(list);
    arr := new Node?[d.ucnt](_ => null);
    assert HaveFreqs(list, f);
    ghost var starts := FlattenLays(d.spine);
    p := SortBuckets(d, arr, d.spine, list, f, starts);
    assert HaveFreqs(list, f);
    FlattenDistinct(d.spine);
    sorted := Gather(list, p);
    ArrayIsSorted(arr[..], d.scnt, list, f, p);
  }

  /** What sort_words does: it returns a list, or leaves the bounds of its array. */
  datatype Listing = Listed(ls: Node?) | OutOfBounds

  /** sort_words with quick = 0: every node of the table once, in one list that ends.  On an empty
      table, and only there, the assignment to array[cnt - 1] is out of bounds. */
  method SortWords(d: Dictionary) returns (r: Listing, ghost sorted: seq<Node>, ghost p: seq<nat>)
    requires d.Valid() && d.ucnt == |Flatten(d.spine, |d.spine|)|
    modifies d`scnt, d.nodes`next
    ensures r.OutOfBounds? <==> d.ucnt == 0
    ensures r.Listed? ==> Linked(r.ls, sorted)
    ensures NoDuplicates(sorted) && IsStableSort(sorted, Flatten(d.spine, |d.spine|), p)
    ensures d.scnt == |Singletons(Flatten(d.spine, |d.spine|))|
  {
    var arr;
    ghost var list := Flatten(d.spine, |d.spine|);
    arr, sorted, p := SortToArray(d);
    if arr.Length == 0 {
      return OutOfBounds, sorted, p;
    }
    forall n | n in sorted ensures n in d.nodes {
      FromTable(d, n);
    }
    ghost var singletons := Singletons(list);
    Relink(arr, sorted, d.nodes);
    assert Singletons(list) == singletons;
    r := Listed(arr[0]);
  }
}
