/** The end of word_freq: what the sorted list says about the words of the document. */
module WordReport {
  import opened HashTable
  import opened Ngrams
  import opened Strings
  import opened Sums
  import opened WordFreq
  import opened WordSort
  import opened WordTable

  /** Entries that name each word once, with its number of occurrences. */
  ghost predicate Lists(es: seq<Entry>, words: seq<string>) {
    && (forall k :: 0 <= k < |es| ==> es[k].word in words && es[k].freq == Count(words, es[k].word))
    && (forall w :: w in words ==> exists k :: 0 <= k < |es| && es[k].word == w)
    && (forall k, l :: 0 <= k < l < |es| ==> es[k].word != es[l].word)
  }

  lemma {:induction false} FlattenEntries(spine: seq<seq<Node>>, buckets: seq<seq<Entry>>, n: nat)
    requires |spine| == |buckets| && forall i :: 0 <= i < |spine| ==> buckets[i] == Entries(spine[i])
    requires n <= |spine|
    ensures Entries(Flatten(spine, n)) == Flatten(buckets, n)
  {
    if n > 0 {
      FlattenEntries(spine, buckets, n - 1);
    }
  }

  /** A right table lists the words it counts. */
  lemma TableLists(t: Table, words: seq<string>, hash: HashFunction)
    requires |t.buckets| > 0 && IsRight(t, words, hash)
    ensures Lists(Flatten(t.buckets, |t.buckets|), words)
  {
    var bs := t.buckets;
    var es := Flatten(bs, |bs|);
    forall x | 0 <= x < |es| ensures es[x].word in words && es[x].freq == Count(words, es[x].word) {
      var i, k := FlattenOrigin(bs, |bs|, x);
      assert BucketOk(bs[i], i, words, Hasher(hash, |bs|));
    }
    forall w | w in words ensures exists x :: 0 <= x < |es| && es[x].word == w {
      var i := Hash(hash, w, |bs|);
      assert Has(bs[i], w);
      FlattenAt(bs, i, Find(bs[i], w), |bs|);
    }
    forall x, y | 0 <= x < y < |es| ensures es[x].word != es[y].word {
      var i, k := FlattenOrigin(bs, |bs|, x);
      var j, l := FlattenOrigin(bs, |bs|, y);
      assert BucketOk(bs[i], i, words, Hasher(hash, |bs|)) && BucketOk(bs[j], j, words, Hasher(hash, |bs|));
    }
  }

  /** The words that occur once. */
  ghost function Once(words: seq<string>): set<string> { set w | w in words && Count(words, w) == 1 }

  ghost function OnceIn(es: seq<Entry>): set<string> {
    if es == [] then {} else OnceIn(es[..|es| - 1]) + if es[|es| - 1].freq == 1 then {es[|es| - 1].word} else {}
  }

  lemma {:induction false} OnceInHas(es: seq<Entry>, w: string)
    ensures w in OnceIn(es) <==> exists k :: 0 <= k < |es| && es[k] == Entry(w, 1)
  {
    if es != [] {
      var n := |es| - 1;
      OnceInHas(es[..n], w);
      if exists k :: 0 <= k < |es| && es[k] == Entry(w, 1) {
        var k :| 0 <= k < |es| && es[k] == Entry(w, 1);
        assert k < n ==> es[..n][k] == Entry(w, 1);
      }
    }
  }

  lemma {:induction false} SingletonsByWord(list: seq<Node>, es: seq<Entry>)
    requires NoDuplicates(list) && es == Entries(list)
    requires forall x, y :: 0 <= x < y < |es| ==> es[x].word != es[y].word
    ensures |Singletons(list)| == |OnceIn(es)|
  {
    if list != [] {
      var n := |list| - 1;
      var less := list[..n];
      SingletonsByWord(less, es[..n]);
      OnceInHas(es[..n], es[n].word);
      assert list == less + [list[n]];
      OneMoreNode(less, list[n]);
    }
  }

  lemma SingletonsAreOnce(list: seq<Node>, es: seq<Entry>, words: seq<string>)
    requires NoDuplicates(list) && es == Entries(list) && Lists(es, words)
    ensures |Singletons(list)| == |Once(words)|
  {
    SingletonsByWord(list, es);
    forall w ensures w in OnceIn(es) <==> w in Once(words) {
      OnceInHas(es, w);
    }
    assert OnceIn(es) == Once(words);
  }

  /** The counted words, the most frequent first. */
  ghost predicate ListsByFrequency(es: seq<Entry>, words: seq<string>) {
    Lists(es, words) && forall k, l :: 0 <= k < l < |es| ==> es[k].freq >= es[l].freq
  }

  lemma SortKeepsListing(sorted: seq<Node>, list: seq<Node>, p: seq<nat>, words: seq<string>)
    requires IsStableSort(sorted, list, p) && Lists(Entries(list), words)
    ensures ListsByFrequency(Entries(sorted), words)
  {
    var es, es' := Entries(list), Entries(sorted);
    forall k | 0 <= k < |p| ensures es'[k] == es[p[k]] {
      assert sorted[k] == list[p[k]];
    }
    PermutedLists(es', es, p, words);
  }

  lemma PermutedLists(es': seq<Entry>, es: seq<Entry>, p: seq<nat>, words: seq<string>)
    requires |p| == |es'| == |es| && Lists(es, words)
    requires forall k :: 0 <= k < |p| ==> p[k] < |es| && es'[k] == es[p[k]]
    requires forall x: nat :: x < |es| ==> x in p
    requires forall k, l :: 0 <= k < l < |p| ==> p[k] != p[l]
    ensures Lists(es', words)
  {
    forall w | w in words ensures exists k :: 0 <= k < |es'| && es'[k].word == w {
      var x: nat :| x < |es| && es[x].word == w;
      assert x in p;
      var k :| 0 <= k < |p| && p[k] == x;
      assert es'[k].word == w;
    }
    forall k, l | 0 <= k < l < |es'| ensures es'[k].word != es'[l].word {
      assert p[k] != p[l];
    }
  }

  twostate lemma EntriesKept(list: seq<Node>)
    requires forall k :: 0 <= k < |list| ==> list[k].freq == old(list[k].freq)
    ensures Entries(list) == old(Entries(list))
  {
  }

  lemma TableEntries(d: Dictionary, t: Table)
    requires Holds(d, t)
    ensures var list := Flatten(d.spine, |d.spine|);
      Entries(list) == Flatten(t.buckets, |t.buckets|) && |list| == Sum(t.buckets, Length) && NoDuplicates(list)
  {
    assert forall i :: 0 <= i < |d.spine| ==> d.Contents()[i] == Entries(d.spine[i]);
    FlattenEntries(d.spine, t.buckets, |d.spine|);
    FlattenLength(d.spine, t.buckets, |d.spine|);
    FlattenDistinct(d.spine);
    assert t.buckets[..|d.spine|] == t.buckets;
  }

  lemma TableNodes(d: Dictionary, t: Table, words: seq<string>, hash: HashFunction)
    requires Holds(d, t) && |t.buckets| > 0 && IsRight(t, words, hash)
    ensures var list := Flatten(d.spine, |d.spine|);
      Lists(Entries(list), words) && NoDuplicates(list) && d.ucnt == |list|
  {
    TableEntries(d, t);
    TableLists(t, words, hash);
    assert TotalsOk(t.buckets, t.stats, words);
  }

  method SortListed(d: Dictionary, ghost list: seq<Node>, ghost es: seq<Entry>, ghost words: seq<string>)
    returns (r: Listing, ghost sorted: seq<Node>)
    requires d.Valid() && list == Flatten(d.spine, |d.spine|) && d.ucnt == |list|
    requires es == Entries(list) && Lists(es, words)
    modifies d`scnt, d.nodes`next
    ensures r.OutOfBounds? <==> d.ucnt == 0
    ensures r.Listed? ==> Linked(r.ls, sorted)
    ensures NoDuplicates(sorted) && ListsByFrequency(Entries(sorted), words)
    ensures d.scnt == |Singletons(list)| && Entries(list) == es
  {
    ghost var p;
    r, sorted, p := SortWords(d);
    EntriesKept(list);
    SortKeepsListing(sorted, list, p, words);
  }

  /** The call of sort_words in word_freq: it goes wrong exactly if no words were counted. */
  method Report(d: Dictionary, ghost t: Table, ghost words: seq<string>, ghost hash: HashFunction)
    returns (r: Listing, ghost sorted: seq<Node>)
    requires Holds(d, t) && |t.buckets| > 0 && IsRight(t, words, hash)
    modifies d`scnt, d.nodes`next
    ensures r.OutOfBounds? <==> words == []
    ensures r.Listed? ==> Linked(r.ls, sorted)
    ensures NoDuplicates(sorted) && ListsByFrequency(Entries(sorted), words)
    ensures d.scnt == |Once(words)|
  {
    ghost var list := Flatten(d.spine, |d.spine|);
    TableNodes(d, t, words, hash);
    EmptyExactly(t, words, hash);
    ghost var es := Entries(list);
    r, sorted := SortListed(d, list, es, words);
    SingletonsAreOnce(list, es, words);
  }

  /** The loop that prints the first `verbose` entries of the list. */
  method PrintFirst(ls: Node?, verbose: nat, ghost sorted: seq<Node>) returns (lines: seq<Entry>)
    requires Linked(ls, sorted)
    ensures lines == First(Entries(sorted), verbose)
    ensures |lines| == if verbose < |sorted| then verbose else |sorted|
    ensures forall k :: 0 <= k < |lines| ==> lines[k] == Entry(sorted[k].word, sorted[k].freq)
  {
    var ele, left := ls, verbose;
    lines := [];
    while ele != null && left != 0
      invariant |lines| + left == verbose && |lines| <= |sorted|
      invariant ele == if |lines| < |sorted| then sorted[|lines|] else null
      invariant lines == Entries(sorted)[..|lines|]
      decreases left
    {
      lines := lines + [Entry(ele.word, ele.freq)];
      ele := ele.next;
      left := left - 1;
    }
  }

  function First(es: seq<Entry>, verbose: int): seq<Entry> {
    if verbose < 0 then [] else if verbose < |es| then es[..verbose] else es
  }

  /** What word_freq prints of its list, or that it leaves the bounds of an array. */
  datatype Output = Printed(lines: seq<Entry>) | Overrun

  /** The listing part of word_freq. */
  method PrintList(d: Dictionary, verbose: nat, ghost t: Table, ghost words: seq<string>, ghost hash: HashFunction)
    returns (r: Output, ghost listing: seq<Entry>)
    requires Holds(d, t) && |t.buckets| > 0 && IsRight(t, words, hash)
    modifies d`scnt, d.nodes`next
    ensures r == Overrun <==> words == []
    ensures r.Printed? ==> r.lines == First(listing, verbose) <= listing
    ensures r.Printed? ==> |r.lines| == if verbose < |listing| then verbose else |listing|
    ensures ListsByFrequency(listing, words) && d.scnt == |Once(words)|
  {
    var l;
    ghost var sorted;
    l, sorted := Report(d, t, words, hash);
    listing := Entries(sorted);
    match l {
      case OutOfBounds =>
        r := Overrun;
      case Listed(ls) =>
        var lines := PrintFirst(ls, verbose, sorted);
        r := Printed(lines);
    }
  }

  /** word_freq.  Without a listing it prints no line and the 0 that scnt began with.  With one it
      leaves its array exactly if the document has fewer than n words. */
  method CountAndReport(words: seq<string>, n: nat, size: nat, hash: HashFunction, lower: LowerFunction, front: bool,
                        verbose: int)
    returns (r: Output, scnt: int, ghost listing: seq<Entry>)
    requires 1 <= n <= MAXNG && size > 0
    requires forall k :: 0 <= k < |words| ==> NUL !in words[k]
    ensures r == Overrun <==> verbose > 0 && |words| < n
    ensures r.Printed? ==> r.lines == First(listing, verbose) <= listing
    ensures r.Printed? ==> |r.lines| == if verbose <= 0 then 0 else if verbose < |listing| then verbose else |listing|
    ensures verbose > 0 ==> ListsByFrequency(listing, LowerAll(Windows(words, n)))
    ensures scnt == if verbose > 0 then |Once(LowerAll(Windows(words, n)))| else 0
  {
    var d, tokens;
    ghost var t;
    d, tokens, t := CountNgrams(words, n, size, hash, lower, front);
    r, scnt, listing := Printed([]), d.scnt, [];
    if verbose > 0 {
      r, listing := PrintList(d, verbose, t, LowerAll(Windows(words, n)), hash);
      scnt := d.scnt;
    }
  }
}
