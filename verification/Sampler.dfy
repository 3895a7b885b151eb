/** The K-best timing scheme: samples are kept sorted, only the kbest smallest of them, until they
    agree within a factor of 1 + epsilon or too many have been taken. */
module Sampler {
  ghost predicate Sorted(s: seq<real>) {
    forall i, j :: 0 <= i < j < |s| ==> s[i] <= s[j]
  }

  // ----- Sorting by insertion, on values -----

  function Insert(s: seq<real>, v: real): (r: seq<real>)
    ensures |r| == |s| + 1
  {
    if s == [] || s[|s| - 1] <= v then s + [v] else Insert(s[..|s| - 1], v) + [s[|s| - 1]]
  }

  function Sort(seen: seq<real>): (r: seq<real>)
    ensures |r| == |seen|
  {
    if seen == [] then [] else Insert(Sort(seen[..|seen| - 1]), seen[|seen| - 1])
  }

  /** The min(k, |seen|) smallest samples, in order. */
  function KBest(seen: seq<real>, k: nat): seq<real> {
    Sort(seen)[..if |seen| < k then |seen| else k]
  }

  lemma {:induction false} InsertSorts(s: seq<real>, v: real)
    requires Sorted(s)
    ensures Sorted(Insert(s, v)) && multiset(Insert(s, v)) == multiset(s) + multiset{v}
    ensures forall x :: x in Insert(s, v) ==> x in s || x == v
  {
    if s != [] && s[|s| - 1] > v {
      var front, last := s[..|s| - 1], s[|s| - 1];
      InsertSorts(front, v);
      assert s == front + [last];
      LargestLast(Insert(front, v), last);
    } else {
      LargestLast(s, v);
    }
  }

  lemma LargestLast(s: seq<real>, last: real)
    requires Sorted(s) && forall x :: x in s ==> x <= last
    ensures Sorted(s + [last]) && forall x :: x in s + [last] ==> x in s || x == last
  {
    assert forall i :: 0 <= i < |s| ==> s[i] in s;
  }

  lemma {:induction false} SortSorts(seen: seq<real>)
    ensures Sorted(Sort(seen)) && multiset(Sort(seen)) == multiset(seen)
  {
    if seen != [] {
      SortSorts(seen[..|seen| - 1]);
      InsertSorts(Sort(seen[..|seen| - 1]), seen[|seen| - 1]);
      assert seen == seen[..|seen| - 1] + [seen[|seen| - 1]];
    }
  }

  /** The best k samples are sorted, together with the others they are all the samples, and none
      of the others is smaller. */
  lemma KBestIsSmallest(seen: seq<real>, k: nat)
    ensures var best := KBest(seen, k); var others := Sort(seen)[|best|..];
      && |best| == (if |seen| < k then |seen| else k)
      && Sorted(best)
      && multiset(best) + multiset(others) == multiset(seen)
      && forall i, j :: 0 <= i < |best| && 0 <= j < |others| ==> best[i] <= others[j]
  {
    SortSorts(seen);
    SortedSplit(Sort(seen), if |seen| < k then |seen| else k);
  }

  lemma SortedSplit(s: seq<real>, k: nat)
    requires Sorted(s) && k <= |s|
    ensures Sorted(s[..k]) && multiset(s[..k]) + multiset(s[k..]) == multiset(s)
    ensures forall i, j :: 0 <= i < k && 0 <= j < |s| - k ==> s[..k][i] <= s[k..][j]
  {
    assert s == s[..k] + s[k..];
  }

  /** Where an element goes: after everything not larger, before everything larger. */
  lemma {:induction false} InsertAt(s: seq<real>, v: real, pos: nat)
    requires pos <= |s|
    requires pos > 0 ==> s[pos - 1] <= v
    requires forall i :: pos <= i < |s| ==> s[i] > v
    ensures Insert(s, v) == s[..pos] + [v] + s[pos..]
  {
    if pos < |s| {
      var front, last := s[..|s| - 1], s[|s| - 1];
      InsertAt(front, v, pos);
      assert front[..pos] == s[..pos] && front[pos..] + [last] == s[pos..];
      assert front[..pos] + [v] + front[pos..] + [last] == s[..pos] + [v] + s[pos..];
    }
  }

  /** Inserting beyond the k smallest does not change them; inserting among them pushes the
      largest of them out. */
  lemma {:induction false} InsertTake(s: seq<real>, v: real, k: nat)
    requires Sorted(s) && 1 <= k <= |s|
    ensures Insert(s, v)[..k] == if v < s[k - 1] then Insert(s[..k - 1], v) else s[..k]
  {
    var front := s[..|s| - 1];
    if k < |s| {
      if s[|s| - 1] > v {
        InsertTake(front, v, k);
        assert front[..k] == s[..k] && front[..k - 1] == s[..k - 1];
      }
    } else if s[|s| - 1] > v {
      assert s[..k - 1] == front;
    }
  }

  /** What one more sample does to the k best. */
  lemma OneMoreSample(seen: seq<real>, val: real, k: nat)
    requires k >= 1
    ensures KBest(seen + [val], k) ==
              if |seen| < k then Insert(KBest(seen, k), val)
              else if val < KBest(seen, k)[k - 1] then Insert(KBest(seen, k)[..k - 1], val)
              else KBest(seen, k)
  {
    var more := seen + [val];
    assert more[..|more| - 1] == seen;
    SortSorts(seen);
    if |seen| < k {
      assert Sort(more)[..|more|] == Sort(more) && KBest(seen, k) == Sort(seen);
    } else {
      InsertTake(Sort(seen), val, k);
      assert KBest(seen, k)[..k - 1] == Sort(seen)[..k - 1];
    }
  }

  function Positive(timings: seq<real>): seq<real> {
    if timings == [] then []
    else Positive(timings[..|timings| - 1]) + if timings[|timings| - 1] > 0.0 then [timings[|timings| - 1]] else []
  }

  ghost predicate IsMinimum(x: real, s: seq<real>) {
    x in s && forall i :: 0 <= i < |s| ==> x <= s[i]
  }

  lemma FirstIsMinimum(seen: seq<real>)
    requires seen != []
    ensures IsMinimum(Sort(seen)[0], seen)
  {
    SortSorts(seen);
    assert Sort(seen)[0] in multiset(seen);
    forall i | 0 <= i < |seen| ensures Sort(seen)[0] <= seen[i] {
      assert seen[i] in multiset(Sort(seen));
      var j :| 0 <= j < |Sort(seen)| && Sort(seen)[j] == seen[i];
    }
  }

  /** The samples are done: the k smallest agree within the tolerance, or enough were taken. */
  ghost predicate Done(seen: seq<real>, kbest: nat, epsilon: real, maxsamples: int)
    requires kbest >= 1
  {
    Converged(seen, kbest, epsilon) || |seen| >= maxsamples
  }

  ghost predicate Converged(seen: seq<real>, kbest: nat, epsilon: real)
    requires kbest >= 1
  {
    |seen| >= kbest && (1.0 + epsilon) * Sort(seen)[0] >= Sort(seen)[kbest - 1]
  }

  ghost predicate Within(x: real, y: real, factor: real) { y <= factor * x }

  lemma WithinMore(x: real, x': real, y: real, y': real, factor: real)
    requires Within(x, y, factor) && x <= x' && y' <= y && factor >= 0.0
    ensures Within(x', y', factor)
  {
    assert factor * (x' - x) >= 0.0;
  }

  lemma ExtremesDecide(best: seq<real>, factor: real)
    requires Sorted(best) && best != [] && factor >= 0.0
    ensures Within(best[0], best[|best| - 1], factor) <==>
        forall i, j :: 0 <= i < |best| && 0 <= j < |best| ==> Within(best[i], best[j], factor)
  {
    if Within(best[0], best[|best| - 1], factor) {
      forall i, j | 0 <= i < |best| && 0 <= j < |best| ensures Within(best[i], best[j], factor) {
        WithinMore(best[0], best[i], best[|best| - 1], best[j], factor);
      }
    }
  }

  /** The samples have converged exactly if no two of the k best differ by more than the factor. */
  lemma ConvergedExactly(seen: seq<real>, kbest: nat, epsilon: real)
    requires kbest >= 1 && 1.0 + epsilon >= 0.0
    ensures var best := KBest(seen, kbest);
      Converged(seen, kbest, epsilon) <==>
        |seen| >= kbest &&
        forall i, j :: 0 <= i < |best| && 0 <= j < |best| ==> Within(best[i], best[j], 1.0 + epsilon)
  {
    KBestIsSmallest(seen, kbest);
    if |seen| >= kbest {
      ExtremesDecide(KBest(seen, kbest), 1.0 + epsilon);
    }
  }

  /** The static variables of the sampler. */
  class Samples {
    const kbest: nat
    const values: array<real>
    var samplecount: nat
    ghost var seen: seq<real>

    ghost predicate Valid()
      reads this, values
    {
      && kbest >= 1 && values.Length == kbest && samplecount == |seen|
      && var m := if samplecount < kbest then samplecount else kbest;
      && values[..m] == KBest(seen, kbest)
      && forall i :: m <= i < kbest ==> values[i] == 0.0
    }

    /** init_sampler. */
    constructor (kbest: nat)
      requires kbest >= 1
      ensures Valid() && seen == [] && this.kbest == kbest && fresh(values)
    {
      this.kbest := kbest;
      this.values := new real[kbest](_ => 0.0);
      this.samplecount := 0;
      this.seen := [];
    }

    /** The insertion loop: moves the value at `last` down to its place. */
    method Settle(last: nat)
      requires last < values.Length
      modifies values
      ensures values[..last + 1] == Insert(old(values[..last]), old(values[last]))
      ensures values[last + 1..] == old(values[last + 1..])
    {
      ghost var s, v := values[..last], values[last];
      var pos := last;
      while pos > 0 && values[pos - 1] > values[pos]
        invariant 0 <= pos <= last
        invariant values[..last + 1] == s[..pos] + [v] + s[pos..]
        invariant forall i :: pos <= i < last ==> s[i] > v
        invariant values[last + 1..] == old(values[last + 1..])
      {
        assert values[pos - 1] == values[..last + 1][pos - 1] == s[pos - 1];
        assert values[pos] == values[..last + 1][pos] == v;
        var temp := values[pos - 1];
        values[pos - 1] := values[pos];
        values[pos] := temp;
        pos := pos - 1;
      }
      if pos > 0 {
        assert values[pos - 1] == values[..last + 1][pos - 1] == s[pos - 1];
        assert values[pos] == values[..last + 1][pos] == v;
      }
      InsertAt(s, v, pos);
    }

    /** add_sample. */
    method AddSample(val: real)
      requires Valid()
      modifies this`samplecount, this`seen, values
      ensures Valid() && seen == old(seen) + [val]
    {
      OneMoreSample(seen, val, kbest);
      ghost var best := KBest(seen, kbest);
      seen := seen + [val];
      if samplecount < kbest {
        values[samplecount] := val;
        assert values[..samplecount] == best;
        Settle(samplecount);
      } else {
        assert values[kbest - 1] == values[..kbest][kbest - 1];
        if val < values[kbest - 1] {
          values[kbest - 1] := val;
          assert values[..kbest - 1] == best[..kbest - 1];
          Settle(kbest - 1);
        }
      }
      samplecount := samplecount + 1;
    }

    /** has_converged. */
    method HasConverged(epsilon: real) returns (yes: bool)
      requires Valid()
      ensures yes <==> Converged(seen, kbest, epsilon)
    {
      if samplecount >= kbest {
        assert values[0] == values[..kbest][0] && values[kbest - 1] == values[..kbest][kbest - 1];
        yes := (1.0 + epsilon) * values[0] >= values[kbest - 1];
      } else {
        yes := false;
      }
    }

    /** One turn of the sampling loop: only positive timings count. */
    method Measure(cyc: real, epsilon: real, maxsamples: int) returns (done: bool)
      requires Valid()
      modifies this`samplecount, this`seen, values
      ensures Valid() && seen == old(seen) + (if cyc > 0.0 then [cyc] else [])
      ensures done <==> Done(seen, kbest, epsilon, maxsamples)
    {
      if cyc > 0.0 {
        AddSample(cyc);
      } else {
        assert seen + [] == seen;
      }
      done := HasConverged(epsilon);
      done := done || samplecount >= maxsamples;
    }

    /** The result: values[0]. */
    method Best() returns (result: real)
      requires Valid()
      ensures if seen == [] then result == 0.0 else IsMinimum(result, seen)
    {
      result := values[0];
      if seen != [] {
        FirstIsMinimum(seen);
        assert values[0] == KBest(seen, kbest)[0];
      }
    }
  }

  ghost predicate DoneAfter(timings: seq<real>, q: nat, kbest: nat, epsilon: real, maxsamples: int)
    requires kbest >= 1 && q <= |timings|
  {
    Done(Positive(timings[..q]), kbest, epsilon, maxsamples)
  }

  /** fcyc: `timings` are what the clock would measure, call after call.  If it finishes, it has used
      exactly as many of them as it takes to be done, and returns the smallest positive one - or
      the 0.0 that calloc left, if it was told to take no samples and measured nothing positive. */
  method Fcyc(timings: seq<real>, kbest: nat, epsilon: real, maxsamples: int)
    returns (finished: bool, used: nat, result: real)
    requires kbest >= 1
    ensures used <= |timings| && (finished ==> used >= 1) && (!finished ==> used == |timings|)
    ensures forall q :: 1 <= q < used ==> !DoneAfter(timings, q, kbest, epsilon, maxsamples)
    ensures used >= 1 ==> (finished <==> DoneAfter(timings, used, kbest, epsilon, maxsamples))
    ensures finished && Positive(timings[..used]) != [] ==> IsMinimum(result, Positive(timings[..used]))
    ensures finished && Positive(timings[..used]) == [] ==> result == 0.0 && maxsamples <= 0
  {
    var samples := new Samples(kbest);
    used, finished := 0, false;
    while used < |timings| && !finished
      invariant 0 <= used <= |timings| && fresh(samples) && fresh(samples.values)
      invariant samples.Valid() && samples.kbest == kbest && samples.seen == Positive(timings[..used])
      invariant finished ==> used >= 1
      invariant forall q :: 1 <= q < used ==> !DoneAfter(timings, q, kbest, epsilon, maxsamples)
      invariant used >= 1 ==> (finished <==> DoneAfter(timings, used, kbest, epsilon, maxsamples))
      decreases |timings| - used, !finished
    {
      assert timings[..used + 1][..used] == timings[..used];
      finished := samples.Measure(timings[used], epsilon, maxsamples);
      used := used + 1;
    }
    result := samples.Best();
  }
}
