/** word_freq: n-grams of a document, counted in the hash table and listed by frequency. */
module WordFreq {
  import opened HashTable
  import opened Ngrams
  import opened Strings
  import opened WordSort
  import opened WordTable

  function Hasher(f: HashFunction, size: nat): string -> nat
    requires size > 0
  {
    w => Hash(f, w, size)
  }

  /** The words that the table counts. */
  function LowerAll(ts: seq<string>): (ws: seq<string>)
    ensures |ws| == |ts| && forall k :: 0 <= k < |ts| ==> ws[k] == Lower(ts[k])
  {
    if ts == [] then [] else LowerAll(ts[..|ts| - 1]) + [Lower(ts[|ts| - 1])]
  }

  lemma TakeOneMore<T>(s: seq<T>, k: nat)
    requires 0 < k <= |s|
    ensures s[..k] == s[..k - 1] + [s[k - 1]]
  {
  }

  lemma {:induction false} JoinHasNoNul(words: seq<string>)
    requires forall k :: 0 <= k < |words| ==> NUL !in words[k]
    ensures NUL !in Join(words)
  {
    if |words| > 1 {
      JoinHasNoNul(words[..|words| - 1]);
    }
  }

  lemma NgramHasNoNul(words: seq<string>, n: nat, k: nat)
    requires k < WindowCount(words, n) && forall j :: 0 <= j < |words| ==> NUL !in words[j]
    ensures NUL !in Windows(words, n)[k]
  {
    JoinHasNoNul(words[k..k + n]);
  }

  datatype Table = Table(buckets: seq<seq<Entry>>, stats: Stats)

  ghost function CountOne(t: Table, w: string, hash: HashFunction, front: bool): Table
    requires |t.buckets| > 0
  {
    var i := Hash(hash, w, |t.buckets|);
    Table(t.buckets[i := AddWord(t.buckets[i], w, front)], AddToStats(t.stats, t.buckets[i], w))
  }

  ghost predicate IsRight(t: Table, words: seq<string>, hash: HashFunction)
    requires |t.buckets| > 0
  {
    TableOk(t.buckets, t.stats, words, Hasher(hash, |t.buckets|))
  }

  lemma EmptyIsRight(size: nat, hash: HashFunction)
    requires size > 0
    ensures IsRight(Table(EmptyBuckets(size), NOTHING), [], hash)
  {
    EmptyTableOk(size, Hasher(hash, size));
  }

  /** A right table has no entries exactly if it has counted no words. */
  lemma EmptyExactly(t: Table, words: seq<string>, hash: HashFunction)
    requires |t.buckets| > 0 && IsRight(t, words, hash)
    ensures t.stats.ucnt == 0 <==> words == []
  {
    if words != [] {
      assert words[0] in Distinct(words);
    } else {
      assert Distinct(words) == {};
    }
  }

  lemma CountOneIsRight(t: Table, words: seq<string>, w: string, hash: HashFunction, front: bool)
    requires |t.buckets| > 0 && IsRight(t, words, hash)
    ensures IsRight(CountOne(t, w, hash, front), words + [w], hash)
  {
    AddKeepsTable(t.buckets, t.stats, words, Hasher(hash, |t.buckets|), w, front);
  }

  /** What one insertion keeps. */
  ghost predicate KeptByInsertion(right: (Table, seq<string>) -> bool, size: nat, hash: HashFunction, front: bool)
    requires size > 0
  {
    forall t: Table, words: seq<string>, w: string {:trigger right(t, words), CountOne(t, w, hash, front)} ::
      |t.buckets| == size && right(t, words) ==> right(CountOne(t, w, hash, front), words + [w])
  }

  ghost function RightFor(size: nat, hash: HashFunction): (Table, seq<string>) -> bool
    requires size > 0
  {
    (t: Table, words: seq<string>) => |t.buckets| == size && IsRight(t, words, hash)
  }

  /** Every insertion keeps the table right, whatever the words, the hash function and the way of finding. */
  lemma RightIsKept(size: nat, hash: HashFunction, front: bool)
    requires size > 0
    ensures KeptByInsertion(RightFor(size, hash), size, hash, front)
  {
    var right := RightFor(size, hash);
    forall t: Table, words: seq<string>, w: string | |t.buckets| == size && right(t, words)
      ensures right(CountOne(t, w, hash, front), words + [w])
    {
      CountOneIsRight(t, words, w, hash, front);
    }
  }

  ghost predicate Holds(d: Dictionary, t: Table)
    reads d, d.htable, d.nodes
  {
    d.Valid() && d.Contents() == t.buckets && d.Statistics() == t.stats
  }

  /** A token is put into a buffer and inserted. */
  method CountToken(d: Dictionary, text: string, hash: HashFunction, lower: LowerFunction, front: bool, ghost t: Table)
    requires Holds(d, t) && d.htable.Length == |t.buckets| > 0 && NUL !in text
    modifies d, d.htable, d.nodes
    ensures Holds(d, CountOne(t, Lower(text), hash, front)) && fresh(d.nodes - old(d.nodes)) && d.scnt == old(d.scnt)
  {
    var sbuf := new char[|text| + 1](i requires 0 <= i <= |text| => if i < |text| then text[i] else NUL);
    assert sbuf[..|text|] == text && sbuf[|text|] == NUL;
    TerminatorIsUnique(sbuf[..], |text|);
    d.InsertString(sbuf, hash, lower, front);
  }

  /** The tokens after the first k have yet to be given out; s is the next one. */
  ghost predicate Ahead(tokens: Tokenizer, n: nat, k: nat, s: Token)
    reads tokens, tokens.tokenBuf
  {
    && tokens.Valid(n) && tokens.wcnt == tokens.pos && k <= WindowCount(tokens.words, n)
    && s == (if k < WindowCount(tokens.words, n) then Some(Windows(tokens.words, n)[k]) else None)
    && tokens.Given(n) == k + (if s.Some? then 1 else 0)
    && (s.None? ==> tokens.pos == |tokens.words|)
  }

  /** What the loop of word_freq keeps: the table is right for the words before the first k tokens. */
  ghost predicate Progress(d: Dictionary, tokens: Tokenizer, n: nat, k: nat, s: Token, t: Table, size: nat,
            right: (Table, seq<string>) -> bool, ws: seq<string>)
    reads d, d.htable, d.nodes, tokens, tokens.tokenBuf
  {
    && Ahead(tokens, n, k, s) && k <= |ws|
    && Holds(d, t) && d.htable.Length == |t.buckets| == size && right(t, ws[..k])
  }

  /** One turn of the loop of word_freq. */
  method CountAndGet(d: Dictionary, tokens: Tokenizer, n: nat, text: string, hash: HashFunction,
            lower: LowerFunction, front: bool,
                     ghost k: nat, ghost t: Table, ghost right: (Table, seq<string>) -> bool, ghost ws: seq<string>)
    returns (s: Token, ghost t': Table)
    requires 1 <= n <= MAXNG && NUL !in text && d.htable.Length > 0 && k < |ws| && ws[k] == Lower(text)
    requires Progress(d, tokens, n, k, Some(text), t, d.htable.Length, right, ws)
    requires KeptByInsertion(right, d.htable.Length, hash, front)
    modifies d, d.htable, d.nodes, tokens, tokens.tokenBuf
    ensures Progress(d, tokens, n, k + 1, s, t', d.htable.Length, right, ws)
    ensures fresh(d.nodes - old(d.nodes)) && d.scnt == old(d.scnt)
  {
    CountToken(d, text, hash, lower, front, t);
    s := tokens.GetToken(n);
    t' := CountOne(t, ws[k], hash, front);
    TakeOneMore(ws, k + 1);
  }

  /** The loop of word_freq, for any property of tables that insertions keep. */
  method CountTokens(d: Dictionary, tokens: Tokenizer, n: nat, first: Token, hash: HashFunction,
            lower: LowerFunction, front: bool,
                     ghost start: Table, ghost right: (Table, seq<string>) -> bool, ghost ws: seq<string>)
    returns (ghost t: Table)
    requires 1 <= n <= MAXNG && d.htable.Length > 0
    requires forall k :: 0 <= k < |tokens.words| ==> NUL !in tokens.words[k]
    requires ws == LowerAll(Windows(tokens.words, n))
    requires Progress(d, tokens, n, 0, first, start, d.htable.Length, right, ws)
    requires KeptByInsertion(right, d.htable.Length, hash, front)
    modifies d, d.htable, d.nodes, tokens, tokens.tokenBuf
    ensures Progress(d, tokens, n, |ws|, None, t, d.htable.Length, right, ws)
    ensures fresh(d.nodes - old(d.nodes)) && d.scnt == old(d.scnt)
  {
    ghost var g := 0;
    t := start;
    var s := first;
    while s.Some?
      invariant Progress(d, tokens, n, g, s, t, d.htable.Length, right, ws)
      invariant fresh(d.nodes - old(d.nodes)) && d.scnt == old(d.scnt)
      decreases |ws| - g
    {
      NgramHasNoNul(tokens.words, n, g);
      s, t := CountAndGet(d, tokens, n, s.text, hash, lower, front, g, t, right, ws);
      g := g + 1;
    }
  }

  /** The start of word_freq, and the first token. */
  method Start(words: seq<string>, n: nat, size: nat, ghost right: (Table, seq<string>) -> bool, ghost ws: seq<string>)
    returns (d: Dictionary, tokens: Tokenizer, s: Token)
    requires 1 <= n <= MAXNG && size > 0 && right(Table(EmptyBuckets(size), NOTHING), [])
    ensures fresh(d) && fresh(d.htable) && fresh(d.nodes) && fresh(tokens) && fresh(tokens.tokenBuf) &&
        tokens.words == words
    ensures Progress(d, tokens, n, 0, s, Table(EmptyBuckets(size), NOTHING), size, right, ws) && d.scnt == 0
  {
    assert ws[..0] == [];
    tokens := new Tokenizer(words);
    s := tokens.GetToken(n);
    d := new Dictionary(size);
  }

  method CountWith(words: seq<string>, n: nat, size: nat, hash: HashFunction, lower: LowerFunction, front: bool,
            ghost right: (Table, seq<string>) -> bool)
    returns (d: Dictionary, tokens: Tokenizer, ghost t: Table)
    requires 1 <= n <= MAXNG && size > 0
    requires forall k :: 0 <= k < |words| ==> NUL !in words[k]
    requires right(Table(EmptyBuckets(size), NOTHING), []) && KeptByInsertion(right, size, hash, front)
    ensures fresh(d) && fresh(d.htable) && fresh(d.nodes)
    ensures Holds(d, t) && |t.buckets| == size && right(t, LowerAll(Windows(words, n)))
    ensures tokens.wcnt == |words| && d.scnt == 0
  {
    ghost var ws := LowerAll(Windows(words, n));
    var s;
    d, tokens, s := Start(words, n, size, right, ws);
    t := CountTokens(d, tokens, n, s, hash, lower, front, Table(EmptyBuckets(size), NOTHING), right, ws);
    assert ws[..|ws|] == ws;
  }

  /** word_freq up to the report, for words as get_word delivers them.  It prints wcnt as its number
      of n-grams, which is their number only when n is 1 or there are no words. */
  method CountNgrams(words: seq<string>, n: nat, size: nat, hash: HashFunction, lower: LowerFunction, front: bool)
    returns (d: Dictionary, tokens: Tokenizer, ghost t: Table)
    requires 1 <= n <= MAXNG && size > 0
    requires forall k :: 0 <= k < |words| ==> NUL !in words[k]
    ensures fresh(d) && fresh(d.htable) && fresh(d.nodes)
    ensures Holds(d, t) && |t.buckets| == size && IsRight(t, LowerAll(Windows(words, n)), hash)
    ensures tokens.wcnt == |words| && (tokens.wcnt == |Windows(words, n)| <==> n == 1 || words == [])
    ensures d.scnt == 0 && (d.ucnt == 0 <==> |words| < n)
  {
    EmptyIsRight(size, hash);
    RightIsKept(size, hash, front);
    d, tokens, t := CountWith(words, n, size, hash, lower, front, RightFor(size, hash));
    EmptyExactly(t, LowerAll(Windows(words, n)), hash);
  }
}
