/** What the word counter computes, on values: buckets of entries, and statistics. */
module WordTable {
  import opened Sums

  datatype Entry = Entry(word: string, freq: int)

  /** ucnt: distinct words; mcnt, mstring: the highest frequency above 1 and a word that has it;
      llen, lstring, lcnt: the greatest length, a word that has it, and how many do. */
  datatype Stats = Stats(ucnt: int, mcnt: int, mstring: string, llen: int, lstring: string, lcnt: int)

  const NOTHING := Stats(0, 0, "", 0, "", 0)

  // ----- One insertion -----

  /** The first position of a word in a bucket, or the length of the bucket. */
  function Find(b: seq<Entry>, w: string): (k: nat)
    ensures k <= |b|
    ensures k < |b| ==> b[k].word == w
    ensures forall j :: 0 <= j < k ==> b[j].word != w
  {
    if b == [] then 0 else if b[0].word == w then 0 else 1 + Find(b[1..], w)
  }

  predicate Has(b: seq<Entry>, w: string) { Find(b, w) < |b| }

  /** Counts one more occurrence: a new word goes to the front or to the end of its bucket. */
  function AddWord(b: seq<Entry>, w: string, front: bool): seq<Entry> {
    var k := Find(b, w);
    if k < |b| then b[k := Entry(w, b[k].freq + 1)]
    else if front then [Entry(w, 1)] + b
    else b + [Entry(w, 1)]
  }

  /** A new word takes the first or the last place and moves no other; a known one stays where it is. */
  lemma AddWordPlaces(b: seq<Entry>, w: string, front: bool)
    ensures var b' := AddWord(b, w, front);
      if Has(b, w) then
        |b'| == |b| && forall k :: 0 <= k < |b| ==> b'[k].word == b[k].word
      else
        && |b'| == |b| + 1 && b'[if front then 0 else |b|] == Entry(w, 1)
        && forall k :: 0 <= k < |b| ==> b[k] == b'[if front then k + 1 else k]
  {
  }

  function AddToStats(st: Stats, b: seq<Entry>, w: string): Stats {
    var k := Find(b, w);
    if k < |b| then
      if b[k].freq + 1 > st.mcnt then st.(mcnt := b[k].freq + 1, mstring := w) else st
    else if |w| > st.llen then st.(ucnt := st.ucnt + 1, llen := |w|, lstring := w, lcnt := 1)
    else if |w| == st.llen then st.(ucnt := st.ucnt + 1, lcnt := st.lcnt + 1)
    else st.(ucnt := st.ucnt + 1)
  }

  // ----- What the table means -----

  ghost function Count(words: seq<string>, w: string): nat { multiset(words)[w] }

  ghost function Distinct(words: seq<string>): set<string> { set w | w in words }

  ghost function Longest(words: seq<string>, n: int): set<string> { set w | w in words && |w| == n }

  /** A bucket holds each of its words once, with its number of occurrences, and only words that
      hash to it. */
  ghost predicate BucketOk(b: seq<Entry>, i: int, words: seq<string>, hash: string -> nat) {
    && (forall k :: 0 <= k < |b| ==> hash(b[k].word) == i && b[k].freq == Count(words, b[k].word) >= 1)
    && (forall k, l :: 0 <= k < l < |b| ==> b[k].word != b[l].word)
  }

  /** The table counts the words: every bucket is right, and every word is in its bucket. */
  ghost predicate Counts(buckets: seq<seq<Entry>>, words: seq<string>, hash: string -> nat) {
    && (forall i :: 0 <= i < |buckets| ==> BucketOk(buckets[i], i, words, hash))
    && (forall w :: w in words ==> hash(w) < |buckets| && Has(buckets[hash(w)], w))
  }

  ghost predicate StatsOk(st: Stats, words: seq<string>) {
    && st.ucnt == |Distinct(words)|
    && (forall w :: w in words ==> Count(words, w) == 1 || Count(words, w) <= st.mcnt)
    && (st.mcnt == 0 || (st.mcnt >= 2 && Count(words, st.mstring) == st.mcnt))
    && (forall w :: w in words ==> |w| <= st.llen)
    && st.llen >= 0 && st.lcnt == |Longest(words, st.llen)|
    && (st.lstring in words || (words == [] && st.lstring == "")) && |st.lstring| == st.llen
  }

  ghost function Length(b: seq<Entry>): int { |b| }
  ghost function Occurrences(b: seq<Entry>): int { if b == [] then 0 else b[0].freq + Occurrences(b[1..]) }

  /** The number of nodes is the number of distinct words, and the frequencies add up to the number
      of insertions. */
  ghost predicate TotalsOk(buckets: seq<seq<Entry>>, st: Stats, words: seq<string>) {
    && Sum(buckets, Length) == st.ucnt
    && Sum(buckets, Occurrences) == |words|
  }

  lemma FindsOnly(b: seq<Entry>, w: string, k: nat)
    requires k < |b| && b[k].word == w && forall j :: 0 <= j < k ==> b[j].word != w
    ensures Find(b, w) == k
  {
  }

  lemma {:induction false} HasExactly(b: seq<Entry>, w: string)
    ensures Has(b, w) <==> exists k :: 0 <= k < |b| && b[k].word == w
  {
  }

  lemma CountAfter(words: seq<string>, w: string, x: string)
    ensures Count(words + [w], x) == Count(words, x) + if x == w then 1 else 0
  {
  }

  lemma HasAfter(b: seq<Entry>, w: string, front: bool, x: string)
    ensures Has(AddWord(b, w, front), x) <==> x == w || Has(b, x)
  {
    var k, b' := Find(b, w), AddWord(b, w, front);
    HasExactly(b, x);
    HasExactly(b', x);
    if k < |b| {
      assert forall j :: 0 <= j < |b| ==> b'[j].word == b[j].word;
    } else if front {
      assert forall j :: 0 <= j < |b| ==> b'[j + 1] == b[j];
      assert b'[0].word == w;
    } else {
      assert forall j :: 0 <= j < |b| ==> b'[j] == b[j];
      assert b'[|b|].word == w;
    }
  }

  /** One entry of the bucket after an insertion. */
  lemma EntryAfter(b: seq<Entry>, i: int, words: seq<string>, hash: string -> nat, w: string, front: bool, j: nat)
    requires BucketOk(b, i, words, hash)
    requires hash(w) == i && (w in words ==> Has(b, w)) && j < |AddWord(b, w, front)|
    ensures var e := AddWord(b, w, front)[j]; hash(e.word) == i && e.freq == Count(words + [w], e.word) >= 1
  {
    var k, b' := Find(b, w), AddWord(b, w, front);
    CountAfter(words, w, b'[j].word);
    if k < |b| {
      if j != k {
        assert b'[j] == b[j] && b[j].word != b[k].word;
      }
    } else {
      assert Count(words, w) == 0;
      var origin := if front then j - 1 else j;
      if 0 <= origin < |b| {
        assert b'[j] == b[origin] && b[origin].word != w;
      }
    }
  }

  /** In its own bucket a word gains one occurrence. */
  lemma AddKeepsBucket(b: seq<Entry>, i: int, words: seq<string>, hash: string -> nat, w: string, front: bool)
    requires BucketOk(b, i, words, hash)
    requires hash(w) == i && (w in words ==> Has(b, w))
    ensures BucketOk(AddWord(b, w, front), i, words + [w], hash)
  {
    var b' := AddWord(b, w, front);
    forall j | 0 <= j < |b'| ensures hash(b'[j].word) == i && b'[j].freq == Count(words + [w], b'[j].word) >= 1 {
      EntryAfter(b, i, words, hash, w, front, j);
    }
  }

  lemma OtherBucketKept(b: seq<Entry>, i: int, words: seq<string>, hash: string -> nat, w: string)
    requires BucketOk(b, i, words, hash) && hash(w) != i
    ensures BucketOk(b, i, words + [w], hash)
  {
    forall k | 0 <= k < |b| ensures b[k].freq == Count(words + [w], b[k].word) {
      CountAfter(words, w, b[k].word);
    }
  }

  /** One insertion counts one more word. */
  lemma AddKeepsCounts(buckets: seq<seq<Entry>>, words: seq<string>, hash: string -> nat, w: string, front: bool)
    requires Counts(buckets, words, hash) && hash(w) < |buckets|
    ensures Counts(buckets[hash(w) := AddWord(buckets[hash(w)], w, front)], words + [w], hash)
  {
    var i := hash(w);
    var after := buckets[i := AddWord(buckets[i], w, front)];
    AddKeepsBucket(buckets[i], i, words, hash, w, front);
    forall j | 0 <= j < |after| && j != i ensures BucketOk(after[j], j, words + [w], hash) {
      OtherBucketKept(buckets[j], j, words, hash, w);
    }
    forall x | x in words + [w] ensures hash(x) < |after| && Has(after[hash(x)], x) {
      HasAfter(buckets[i], w, front, x);
    }
  }

  // ----- Statistics -----

  lemma DistinctAfter(words: seq<string>, w: string)
    ensures |Distinct(words + [w])| == |Distinct(words)| + if w in words then 0 else 1
  {
    assert Distinct(words + [w]) == Distinct(words) + {w};
  }

  lemma LongestAfter(words: seq<string>, w: string, n: int)
    ensures |Longest(words + [w], n)| == |Longest(words, n)| + if w !in words && |w| == n then 1 else 0
  {
    assert Longest(words + [w], n) == Longest(words, n) + if |w| == n then {w} else {};
  }

  /** A word seen before can only move the greatest frequency. */
  lemma RepeatKeepsStats(st: Stats, b: seq<Entry>, words: seq<string>, w: string)
    requires StatsOk(st, words) && w in words
    requires Has(b, w) && b[Find(b, w)].freq == Count(words, w)
    ensures StatsOk(AddToStats(st, b, w), words + [w])
  {
    var st' := AddToStats(st, b, w);
    DistinctAfter(words, w);
    LongestAfter(words, w, st.llen);
    forall x | x in words + [w] ensures Count(words + [w], x) == 1 || Count(words + [w], x) <= st'.mcnt {
      CountAfter(words, w, x);
    }
    CountAfter(words, w, st'.mstring);
  }

  /** A new word moves the lengths and the number of distinct words. */
  lemma NewKeepsStats(st: Stats, b: seq<Entry>, words: seq<string>, w: string)
    requires StatsOk(st, words) && w !in words && !Has(b, w)
    ensures StatsOk(AddToStats(st, b, w), words + [w])
  {
    var st' := AddToStats(st, b, w);
    DistinctAfter(words, w);
    LongestAfter(words, w, st'.llen);
    if |w| > st.llen {
      assert Longest(words, |w|) == {};
    }
    forall x | x in words + [w] ensures Count(words + [w], x) == 1 || Count(words + [w], x) <= st'.mcnt {
      CountAfter(words, w, x);
    }
    CountAfter(words, w, st.mstring);
  }

  // ----- Ties -----

  /** No word before this place is as long. */
  ghost predicate FirstLongest(st: Stats, words: seq<string>, i: nat) {
    i < |words| && words[i] == st.lstring && forall j :: 0 <= j < i ==> |words[j]| < st.llen
  }

  /** The first i words bring the word to the greatest frequency, which no word has before. */
  ghost predicate FirstThere(st: Stats, words: seq<string>, i: nat) {
    && i < |words| && Count(words[..i + 1], st.mstring) == st.mcnt
    && forall w :: Count(words[..i], w) < st.mcnt
  }

  /** Among words of the greatest length lstring is the first, and among words of the greatest
      frequency mstring is the one that came to it first. */
  ghost predicate TiesOk(st: Stats, words: seq<string>) {
    && (words != [] ==> exists i: nat :: FirstLongest(st, words, i))
    && (st.mcnt > 0 ==> exists i: nat :: FirstThere(st, words, i))
  }

  lemma LongestStays(st: Stats, st': Stats, words: seq<string>, w: string)
    requires TiesOk(st, words) && words != [] && st'.lstring == st.lstring && st'.llen == st.llen
    ensures exists i: nat :: FirstLongest(st', words + [w], i)
  {
    var i: nat :| FirstLongest(st, words, i);
    assert FirstLongest(st', words + [w], i);
  }

  lemma MostFrequentStays(st: Stats, st': Stats, words: seq<string>, w: string)
    requires TiesOk(st, words) && st.mcnt > 0 && st'.mstring == st.mstring && st'.mcnt == st.mcnt
    ensures exists i: nat :: FirstThere(st', words + [w], i)
  {
    var i: nat :| FirstThere(st, words, i);
    assert (words + [w])[..i + 1] == words[..i + 1] && (words + [w])[..i] == words[..i];
    assert FirstThere(st', words + [w], i);
  }

  lemma NewMostFrequent(st: Stats, st': Stats, words: seq<string>, w: string)
    requires StatsOk(st, words) && st'.mstring == w && st'.mcnt == Count(words, w) + 1 > st.mcnt && w in words
    ensures FirstThere(st', words + [w], |words|)
  {
    assert (words + [w])[..|words| + 1] == words + [w] && (words + [w])[..|words|] == words;
    CountAfter(words, w, w);
    assert w in multiset(words);
    forall x ensures Count(words, x) < st'.mcnt {
      assert x !in words ==> x !in multiset(words);
    }
  }

  lemma RepeatKeepsTies(st: Stats, b: seq<Entry>, words: seq<string>, w: string)
    requires StatsOk(st, words) && TiesOk(st, words) && w in words
    requires Has(b, w) && b[Find(b, w)].freq == Count(words, w)
    ensures TiesOk(AddToStats(st, b, w), words + [w])
  {
    var st' := AddToStats(st, b, w);
    LongestStays(st, st', words, w);
    if st'.mcnt > st.mcnt {
      NewMostFrequent(st, st', words, w);
    } else if st.mcnt > 0 {
      MostFrequentStays(st, st', words, w);
    }
  }

  lemma NewKeepsTies(st: Stats, b: seq<Entry>, words: seq<string>, w: string)
    requires StatsOk(st, words) && TiesOk(st, words) && !Has(b, w)
    ensures TiesOk(AddToStats(st, b, w), words + [w])
  {
    var st' := AddToStats(st, b, w);
    if |w| > st.llen || words == [] {
      assert FirstLongest(st', words + [w], |words|);
    } else {
      LongestStays(st, st', words, w);
    }
    if st.mcnt > 0 {
      MostFrequentStays(st, st', words, w);
    }
  }

  lemma HasMeansSeen(buckets: seq<seq<Entry>>, words: seq<string>, hash: string -> nat, w: string)
    requires Counts(buckets, words, hash) && hash(w) < |buckets|
    ensures Has(buckets[hash(w)], w) <==> w in words
    ensures w in words ==> buckets[hash(w)][Find(buckets[hash(w)], w)].freq == Count(words, w)
  {
    var b := buckets[hash(w)];
    assert BucketOk(b, hash(w), words, hash);
    if Has(b, w) {
      assert w in multiset(words);
    }
  }

  /** Past another word an insertion is one in the rest of the bucket. */
  lemma AddWordTail(b: seq<Entry>, w: string, front: bool)
    requires b != [] && b[0].word != w && (Has(b, w) || !front)
    ensures AddWord(b, w, front) == [b[0]] + AddWord(b[1..], w, front)
  {
    var k := Find(b, w);
    assert Find(b[1..], w) == k - 1;
    if k < |b| {
      assert b == [b[0]] + b[1..];
    }
  }

  lemma {:induction false} OccurrencesAfter(b: seq<Entry>, w: string, front: bool)
    ensures Occurrences(AddWord(b, w, front)) == Occurrences(b) + 1
  {
    var b' := AddWord(b, w, front);
    if !Has(b, w) && front {
      assert b'[1..] == b;
    } else if b == [] {
      assert b'[1..] == [];
    } else if b[0].word == w {
      assert b'[1..] == b[1..];
    } else {
      OccurrencesAfter(b[1..], w, front);
      AddWordTail(b, w, front);
      assert b'[1..] == AddWord(b[1..], w, front);
    }
  }

  /** What a series of insertions computes, from an empty table. */
  ghost predicate TableOk(buckets: seq<seq<Entry>>, st: Stats, words: seq<string>, hash: string -> nat) {
    Counts(buckets, words, hash) && StatsOk(st, words) && TiesOk(st, words) && TotalsOk(buckets, st, words)
  }

  ghost function EmptyBuckets(size: nat): (buckets: seq<seq<Entry>>)
    ensures |buckets| == size && forall i :: 0 <= i < size ==> buckets[i] == []
  {
    if size == 0 then [] else EmptyBuckets(size - 1) + [[]]
  }

  lemma EmptyTableOk(size: nat, hash: string -> nat)
    ensures TableOk(EmptyBuckets(size), NOTHING, [], hash)
  {
    var buckets := EmptyBuckets(size);
    SumZero(buckets, Length);
    SumZero(buckets, Occurrences);
    assert Distinct([]) == {} && Longest([], 0) == {};
  }

  lemma AddKeepsTotals(buckets: seq<seq<Entry>>, st: Stats, words: seq<string>, i: nat, w: string, front: bool)
    requires TotalsOk(buckets, st, words) && i < |buckets|
    ensures TotalsOk(buckets[i := AddWord(buckets[i], w, front)], AddToStats(st, buckets[i], w), words + [w])
  {
    SumUpdate(buckets, i, AddWord(buckets[i], w, front), Length);
    SumUpdate(buckets, i, AddWord(buckets[i], w, front), Occurrences);
    OccurrencesAfter(buckets[i], w, front);
  }

  /** Every insertion, with either way of finding, keeps the table right. */
  lemma AddKeepsTable(buckets: seq<seq<Entry>>, st: Stats, words: seq<string>, hash: string -> nat, w: string,
      front: bool)
    requires TableOk(buckets, st, words, hash) && hash(w) < |buckets|
    ensures var b := buckets[hash(w)];
      TableOk(buckets[hash(w) := AddWord(b, w, front)], AddToStats(st, b, w), words + [w], hash)
  {
    var b := buckets[hash(w)];
    AddKeepsCounts(buckets, words, hash, w, front);
    HasMeansSeen(buckets, words, hash, w);
    if w in words {
      RepeatKeepsStats(st, b, words, w);
      RepeatKeepsTies(st, b, words, w);
    } else {
      NewKeepsStats(st, b, words, w);
      NewKeepsTies(st, b, words, w);
    }
    AddKeepsTotals(buckets, st, words, hash(w), w, front);
  }

  predicate HoldsAt(buckets: seq<seq<Entry>>, i: int, k: int, w: string) {
    0 <= i < |buckets| && 0 <= k < |buckets[i]| && buckets[i][k].word == w
  }

  /** Each word of the text has exactly one entry in the whole table, with its exact count. */
  lemma OneEntryEach(buckets: seq<seq<Entry>>, words: seq<string>, hash: string -> nat, w: string)
    requires Counts(buckets, words, hash) && w in words
    ensures hash(w) < |buckets|
    ensures exists k :: 0 <= k < |buckets[hash(w)]| && buckets[hash(w)][k] == Entry(w, Count(words, w))
    ensures forall i, k, j, l :: HoldsAt(buckets, i, k, w) && HoldsAt(buckets, j, l, w) ==> i == j && k == l
  {
    HasMeansSeen(buckets, words, hash, w);
    assert buckets[hash(w)][Find(buckets[hash(w)], w)] == Entry(w, Count(words, w));
    forall i, k | HoldsAt(buckets, i, k, w) ensures i == hash(w) {
      assert BucketOk(buckets[i], i, words, hash);
    }
    assert BucketOk(buckets[hash(w)], hash(w), words, hash);
  }
}
