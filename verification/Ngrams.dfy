/** get_token: a ring of ten slots turns the words of a document into its n-grams. */
module Ngrams {
  import opened Arithmetic

  const MAXNG := 10

  datatype Token = Some(text: string) | None

  /** Words with one space between them. */
  function Join(words: seq<string>): string {
    if words == [] then ""
    else if |words| == 1 then words[0]
    else Join(words[..|words| - 1]) + " " + words[|words| - 1]
  }

  /** Where word k begins: after the words before it and a space for each. */
  function Offset(words: seq<string>, k: nat): nat
    requires k <= |words|
  {
    if k == 0 then 0 else Offset(words, k - 1) + |words[k - 1]| + 1
  }

  /** Word k stands at its place in the text, after a space unless it is the first. */
  ghost predicate StandsAt(text: string, words: seq<string>, k: nat)
    requires k < |words|
  {
    var o := Offset(words, k);
    o + |words[k]| <= |text| && text[o..o + |words[k]|] == words[k] && (k > 0 ==> text[o - 1] == ' ')
  }

  /** The text is the words in order, one space between them, and nothing else. */
  ghost predicate Spells(text: string, words: seq<string>) {
    && |text| == (if words == [] then 0 else Offset(words, |words|) - 1)
    && forall k: nat :: k < |words| ==> StandsAt(text, words, k)
  }

  lemma {:induction false} OffsetOfFront(words: seq<string>, k: nat)
    requires words != [] && k < |words|
    ensures Offset(words[..|words| - 1], k) == Offset(words, k)
  {
    if k > 0 {
      OffsetOfFront(words, k - 1);
    }
  }

  /** The last word, after a space, makes the text of one more word. */
  lemma OneMoreWord(text: string, words: seq<string>, front: string)
    requires |words| > 1 && text == front + " " + words[|words| - 1]
    ensures Spells(front, words[..|words| - 1]) ==> Spells(text, words)
  {
    var n := |words| - 1;
    if Spells(front, words[..n]) {
      OffsetOfFront(words, n);
      forall k: nat | k < |words| ensures StandsAt(text, words, k) {
        if k < n {
          OffsetOfFront(words, k);
          assert StandsAt(front, words[..n], k);
          var o := Offset(words, k);
          assert text[o..o + |words[k]|] == front[o..o + |words[k]|];
        }
      }
    }
  }

  /** Joining spells the words. */
  lemma {:induction false} JoinSpells(words: seq<string>)
    ensures Spells(Join(words), words)
  {
    var n := |words| - 1;
    if n == 0 {
      assert Offset(words, 1) == |words[0]| + 1;
      assert StandsAt(Join(words), words, 0);
    } else if n > 0 {
      JoinSpells(words[..n]);
      OneMoreWord(Join(words), words, Join(words[..n]));
    }
  }

  lemma LastWord(text: string, words: seq<string>, n: nat, o: nat)
    requires |words| == n + 1 > 1 && o == Offset(words, n) && Spells(text, words)
    ensures 1 <= o <= |text| && text == text[..o - 1] + " " + words[n]
  {
    assert StandsAt(text, words, n);
    assert Offset(words, |words|) == o + |words[n]| + 1;
    assert text == text[..o - 1] + [text[o - 1]] + text[o..];
  }

  lemma {:induction false} OffsetGrows(words: seq<string>, k: nat, l: nat)
    requires k <= l <= |words|
    ensures Offset(words, k) <= Offset(words, l)
  {
    if k < l {
      OffsetGrows(words, k, l - 1);
    }
  }

  /** A word that stands in a text stands in any leading part that reaches beyond it. */
  lemma StandsInFront(text: string, words: seq<string>, front: string, before: seq<string>, k: nat)
    requires k < |before| <= |words| && before[k] == words[k] && Offset(before, k) == Offset(words, k)
    requires |front| <= |text| && front == text[..|front|] && Offset(words, k) + |words[k]| <= |front|
    requires StandsAt(text, words, k)
    ensures StandsAt(front, before, k)
  {
    var o, w := Offset(words, k), words[k];
    assert front[o..o + |w|] == text[o..o + |w|];
  }

  lemma WordsBefore(text: string, words: seq<string>, n: nat, o: nat)
    requires |words| == n + 1 > 1 && o == Offset(words, n) && 1 <= o <= |text| && Spells(text, words)
    ensures Spells(text[..o - 1], words[..n])
  {
    OffsetOfFront(words, n - 1);
    assert Offset(words[..n], n) == o;
    var front, before := text[..o - 1], words[..n];
    forall k: nat | k < n ensures StandsAt(front, before, k) {
      assert StandsAt(text, words, k);
      OffsetOfFront(words, k);
      OffsetGrows(words, k + 1, n);
      StandsInFront(text, words, front, before, k);
    }
  }

  /** And it is the only text that does. */
  lemma {:induction false} SpellsOnly(text: string, words: seq<string>)
    requires Spells(text, words)
    ensures text == Join(words)
  {
    var n := |words| - 1;
    if n == 0 {
      assert StandsAt(text, words, 0);
      assert Offset(words, 1) == |words[0]| + 1;
    } else if n > 0 {
      LastWord(text, words, n, Offset(words, n));
      WordsBefore(text, words, n, Offset(words, n));
      SpellsOnly(text[..Offset(words, n) - 1], words[..n]);
    }
  }

  function WindowCount(words: seq<string>, n: nat): nat
  {
    if |words| < n then 0 else |words| - n + 1
  }

  /** Every run of n consecutive words, in order. */
  function Windows(words: seq<string>, n: nat): (ts: seq<string>)
    ensures |ts| == WindowCount(words, n)
  {
    seq(WindowCount(words, n), k requires 0 <= k < WindowCount(words, n) => Join(words[k..k + n]))
  }

  /** There are as many n-grams as positions at which n words begin, and the k-th is the text of the
      words from k on. */
  lemma WindowsSpell(words: seq<string>, n: nat, k: nat)
    ensures k < |Windows(words, n)| <==> k + n <= |words|
    ensures k + n <= |words| ==> Spells(Windows(words, n)[k], words[k..k + n])
  {
    if k + n <= |words| {
      JoinSpells(words[k..k + n]);
    }
  }

  /** When words hold no spaces, different n-grams have different texts: counting the texts counts the n-grams. */
  lemma {:induction false} JoinIsInjective(a: seq<string>, b: seq<string>)
    requires |a| == |b| && Join(a) == Join(b)
    requires forall k :: 0 <= k < |a| ==> ' ' !in a[k] && ' ' !in b[k]
    ensures a == b
  {
    if |a| > 1 {
      var n := |a| - 1;
      SplitAtLastSpace(Join(a[..n]), a[n], Join(b[..n]), b[n]);
      JoinIsInjective(a[..n], b[..n]);
      assert a == a[..n] + [a[n]] && b == b[..n] + [b[n]];
    }
  }

  lemma SplitAtLastSpace(s: string, u: string, t: string, v: string)
    requires s + " " + u == t + " " + v && ' ' !in u && ' ' !in v
    ensures s == t && u == v
  {
    SpaceBound(s, u, t, v);
    SpaceBound(t, v, s, u);
    var whole := s + " " + u;
    assert s == whole[..|s|] && t == whole[..|t|];
    assert u == whole[|s| + 1..] && v == whole[|t| + 1..];
  }

  lemma SpaceBound(s: string, u: string, t: string, v: string)
    requires s + " " + u == t + " " + v && ' ' !in v
    ensures |s| <= |t|
  {
    var whole := s + " " + u;
    assert whole[|s|] == ' ';
    assert forall k :: |t| < k < |whole| ==> whole[k] == v[k - |t| - 1];
  }

  lemma RingNext(x: nat)
    ensures (x + 1) % MAXNG == if x % MAXNG + 1 >= MAXNG then 0 else x % MAXNG + 1
  {
  }

  lemma RingBack(x: nat, n: nat)
    requires n <= x && n <= MAXNG
    ensures (x - n) % MAXNG == if x % MAXNG < n then x % MAXNG - n + MAXNG else x % MAXNG - n
  {
  }

  class Tokenizer {
    const words: seq<string>
    const tokenBuf: array<string>
    var pos: nat
    var wcnt: nat
    var first: bool
    var bindex: nat

    constructor (words: seq<string>)
      ensures this.words == words && fresh(tokenBuf)
      ensures forall n :: 1 <= n <= MAXNG ==> Valid(n) && Given(n) == 0
      ensures wcnt == pos
    {
      this.words := words;
      tokenBuf := new string[MAXNG](_ => "");
      pos, wcnt, first, bindex := 0, 0, true, 0;
    }

    /** While the ring fills its slots are the first words; afterwards it holds the last ten, each at
        its position modulo ten. */
    ghost predicate Valid(n: nat)
      reads this, tokenBuf
    {
      && tokenBuf.Length == MAXNG && pos <= |words|
      && (n > 1 && first ==> bindex == pos < n && forall j :: 0 <= j < pos && j < MAXNG ==> tokenBuf[j] == words[j])
      && (n > 1 && !first ==> n - 1 <= pos && RingEndsAt(pos))
    }

    /** The ring holds the last ten of the first `end` words. */
    ghost predicate RingEndsAt(end: nat)
      reads this, tokenBuf
    {
      && tokenBuf.Length == MAXNG && end <= |words| && bindex == end % MAXNG
      && forall j :: 0 <= j < end && end - MAXNG <= j ==> tokenBuf[j % MAXNG] == words[j]
    }

    /** How many n-grams have been given out. */
    ghost function Given(n: nat): int
      reads this
    {
      if n == 1 then pos else if first then 0 else pos - (n - 1)
    }

    /** The next word of the document, or None at its end. */
    method GetWord() returns (t: Token)
      requires pos <= |words|
      modifies this`pos, this`wcnt
      ensures t == if old(pos) < |words| then Some(words[old(pos)]) else None
      ensures pos == old(pos) + (if t.Some? then 1 else 0) && wcnt - pos == old(wcnt - pos)
    {
      if pos == |words| {
        return None;
      }
      t := Some(words[pos]);
      pos := pos + 1;
      wcnt := wcnt + 1;
    }

    /** The loop that gets the first n - 1 words. */
    method Fill(n: nat) returns (enough: bool)
      requires 1 < n <= MAXNG && Valid(n) && first
      modifies this, tokenBuf
      ensures Valid(n) && enough == !first == (n - 1 <= |words|)
      ensures pos == (if enough then n - 1 else |words|) && wcnt - pos == old(wcnt - pos)
    {
      while bindex < n - 1
        invariant Valid(n) && first && wcnt - pos == old(wcnt - pos)
        decreases n - bindex
      {
        var word := GetWord();
        if word.None? {
          return false;
        }
        tokenBuf[bindex] := word.text;
        bindex := bindex + 1;
      }
      first := false;
      enough := true;
    }

    /** A new word takes the slot of the oldest. */
    method Store(word: string, ghost end: nat)
      requires RingEndsAt(end) && end < |words| && word == words[end]
      modifies this`bindex, tokenBuf
      ensures RingEndsAt(end + 1)
    {
      tokenBuf[bindex] := word;
      forall j | 0 <= j < end && end + 1 - MAXNG <= j ensures j % MAXNG != bindex {
        ModuloDistinct(j, end, MAXNG);
      }
      bindex := bindex + 1;
      if bindex >= MAXNG {
        bindex := 0;
      }
    }

    /** The last n words, read from the ring. */
    method Collect(n: nat) returns (sbuf: string)
      requires 1 < n <= MAXNG && Valid(n) && !first && n <= pos
      ensures sbuf == Join(words[pos - n..pos]) && Spells(sbuf, words[pos - n..pos])
    {
      ghost var window := words[pos - n..pos];
      RingBack(pos, n);
      var index := bindex - n;
      if index < 0 {
        index := index + MAXNG;
      }
      sbuf := "";
      var i := 0;
      while i < n
        invariant 0 <= i <= n && index == (pos - n + i) % MAXNG && sbuf == Join(window[..i])
      {
        if i != 0 {
          sbuf := sbuf + " ";
        }
        var word := tokenBuf[index];
        assert word == window[i];
        sbuf := sbuf + word;
        assert window[..i + 1][..i] == window[..i];
        RingNext(pos - n + i);
        index := index + 1;
        if index >= MAXNG {
          index := 0;
        }
        i := i + 1;
      }
      assert window[..i] == window;
      JoinSpells(window);
    }

    /** get_token. */
    method GetToken(n: nat) returns (t: Token)
      requires 1 <= n <= MAXNG && Valid(n)
      modifies this, tokenBuf
      ensures Valid(n)
      ensures t == if old(Given(n)) < WindowCount(words, n) then Some(Windows(words, n)[old(Given(n))]) else None
      ensures t.Some? <==> old(Given(n)) + n <= |words|
      ensures t.Some? ==> Spells(t.text, words[old(Given(n))..old(Given(n)) + n])
      ensures Given(n) == old(Given(n)) + if t.Some? then 1 else 0
      ensures wcnt - pos == old(wcnt - pos) && (t.None? ==> pos == |words|)
    {
      if n == 1 {
        t := GetWord();
        assert forall k :: 0 <= k < |words| ==> words[k..k + 1] == [words[k]];
        if t.Some? {
          JoinSpells([t.text]);
        }
        return;
      }
      if first {
        var enough := Fill(n);
        if !enough {
          return None;
        }
      }
      t := GetWord();
      if t.None? {
        return;
      }
      Store(t.text, pos - 1);
      var sbuf := Collect(n);
      t := Some(sbuf);
    }
  }
}
