/** The strings of the word counter: character arrays that end at their first NUL. */
module Strings {
  import opened Remainders

  const NUL: char := 0 as char

  /** The position of the first NUL, or the length of the buffer. */
  function Terminator(buf: seq<char>): (n: nat)
    ensures n <= |buf| && (n < |buf| <==> NUL in buf)
    ensures n < |buf| ==> buf[n] == NUL
    ensures NUL !in buf[..n]
  {
    if buf == [] || buf[0] == NUL then 0 else 1 + Terminator(buf[1..])
  }

  /** The string that a buffer holds. */
  function Text(buf: seq<char>): string { buf[..Terminator(buf)] }

  lemma {:induction false} TerminatorIsUnique(buf: seq<char>, n: nat)
    requires n < |buf| && buf[n] == NUL && NUL !in buf[..n]
    ensures Terminator(buf) == n
  {
    if n > 0 {
      assert buf[0] == buf[..n][0];
      assert buf[1..][..n - 1] == buf[..n][1..];
      TerminatorIsUnique(buf[1..], n - 1);
    }
  }

  // ----- Lower case -----

  predicate IsUpper(c: char) { 'A' <= c <= 'Z' }

  function LowerChar(c: char): (l: char)
    ensures !IsUpper(l) && (l == NUL <==> c == NUL)
    ensures if IsUpper(c) then 'a' <= l <= 'z' && l as int - 'a' as int == c as int - 'A' as int else l == c
  {
    if IsUpper(c) then (c as int - ('A' as int - 'a' as int)) as char else c
  }

  function Lower(s: string): (l: string)
    ensures |l| == |s|
    ensures forall k :: 0 <= k < |s| ==> !('A' <= l[k] <= 'Z')
    ensures forall k :: 0 <= k < |s| ==> l[k] == s[k] || ('A' <= s[k] <= 'Z' && l[k] as int == s[k] as int + 32)
  {
    seq(|s|, k requires 0 <= k < |s| => LowerChar(s[k]))
  }

  /** A word that is in lower case already stays as it is, so words are counted without regard to case. */
  lemma LowerTwice(s: string)
    ensures Lower(Lower(s)) == Lower(s) && (NUL in Lower(s) <==> NUL in s)
  {
    if NUL in s {
      var k :| 0 <= k < |s| && s[k] == NUL;
      assert Lower(s)[k] == NUL;
    }
  }

  method Strlen(s: array<char>) returns (length: nat)
    requires NUL in s[..]
    ensures length == Terminator(s[..]) < s.Length
  {
    length := 0;
    while s[length] != NUL
      invariant length < s.Length && NUL !in s[..length] && NUL in s[length..]
      decreases s.Length - length
    {
      length := length + 1;
      assert NUL in s[length..] by {
        assert s[length - 1..] == [s[length - 1]] + s[length..];
      }
    }
    TerminatorIsUnique(s[..], length);
  }

  /** A buffer in which only the characters before `i` have been converted. */
  ghost predicate LowerUpTo(now: seq<char>, before: seq<char>, i: nat)
    requires i <= Terminator(before)
  {
    && |now| == |before|
    && (forall k :: 0 <= k < i ==> now[k] == LowerChar(before[k]))
    && (forall k :: i <= k < |now| ==> now[k] == before[k])
  }

  /** Converting never moves the end of the string, so lower1 may look for it again at every turn. */
  lemma LengthIsKept(now: seq<char>, before: seq<char>, i: nat)
    requires NUL in before && i <= Terminator(before) && LowerUpTo(now, before, i)
    ensures NUL in now && Terminator(now) == Terminator(before)
    ensures i == Terminator(before) ==> Text(now) == Lower(Text(before))
  {
    var n := Terminator(before);
    forall k | 0 <= k < n ensures now[k] != NUL {
      assert before[..n][k] != NUL;
    }
    assert NUL !in now[..n];
    TerminatorIsUnique(now, n);
  }

  method LowerAt(s: array<char>, i: nat)
    requires i < s.Length
    modifies s
    ensures s[..] == old(s[..])[i := LowerChar(old(s[i]))]
  {
    if s[i] >= 'A' && s[i] <= 'Z' {
      s[i] := (s[i] as int - ('A' as int - 'a' as int)) as char;
    }
  }

  method Lower1(s: array<char>)
    requires NUL in s[..]
    modifies s
    ensures NUL in s[..] && Text(s[..]) == Lower(old(Text(s[..])))
    ensures s[Terminator(s[..])..] == old(s[Terminator(s[..])..])
  {
    ghost var before := s[..];
    var i := 0;
    LengthIsKept(s[..], before, 0);
    var n := Strlen(s);
    while i < n
      invariant i <= Terminator(before) == n && LowerUpTo(s[..], before, i) && NUL in s[..]
    {
      LowerAt(s, i);
      i := i + 1;
      LengthIsKept(s[..], before, i);
      n := Strlen(s);
    }
    LengthIsKept(s[..], before, i);
  }

  method Lower2(s: array<char>)
    requires NUL in s[..]
    modifies s
    ensures NUL in s[..] && Text(s[..]) == Lower(old(Text(s[..])))
    ensures s[Terminator(s[..])..] == old(s[Terminator(s[..])..])
  {
    ghost var before := s[..];
    var len := Strlen(s);
    var i := 0;
    while i < len
      invariant i <= len && LowerUpTo(s[..], before, i)
    {
      LowerAt(s, i);
      i := i + 1;
    }
    LengthIsKept(s[..], before, i);
  }

  /** lower_fun_set. */
  datatype LowerFunction = Rescanning | Scanning

  method MakeLower(f: LowerFunction, s: array<char>)
    requires NUL in s[..]
    modifies s
    ensures NUL in s[..] && Text(s[..]) == Lower(old(Text(s[..])))
  {
    match f {
      case Rescanning => Lower1(s);
      case Scanning => Lower2(s);
    }
  }

  /** save_string: the characters of the string as a value. */
  method SaveString(s: array<char>) returns (result: string)
    requires NUL in s[..]
    ensures result == Text(s[..])
  {
    var n := Strlen(s);
    result := s[..n];
  }

  // ----- Hash functions -----

  const WORD := 0x1_0000_0000

  /** `int c = *s++` for a signed char. */
  function Widen(c: char): int { if c as int < 128 then c as int else c as int - 256 }

  datatype HashFunction = Mod | Add | Xor

  function ModStep(val: int, c: char, tsize: int): int requires tsize > 0 { ((val * 128 + Widen(c)) % WORD) % tsize }
  function AddStep(val: int, c: char): int { (val + Widen(c)) % WORD }
  function XorMix(val: bv32, c: bv32): bv32 { ((val ^ c) << 4) | ((val >> 28) & 0xF) }
  function XorStep(val: bv32, c: char): bv32 { XorMix(val, (Widen(c) % WORD) as bv32) }

  function ModFold(s: string, tsize: int): (val: int)
    requires tsize > 0
    ensures 0 <= val < tsize
  {
    if s == [] then 0 else ModStep(ModFold(s[..|s| - 1], tsize), s[|s| - 1], tsize)
  }
  function AddFold(s: string): int { if s == [] then 0 else AddStep(AddFold(s[..|s| - 1]), s[|s| - 1]) }
  function XorFold(s: string): bv32 { FoldChars(XorStep, 0, s) }

  function FoldChars<T>(step: (T, char) -> T, zero: T, s: string): T {
    if s == [] then zero else step(FoldChars(step, zero, s[..|s| - 1]), s[|s| - 1])
  }

  function Hash(h: HashFunction, s: string, tsize: int): (index: nat)
    requires tsize > 0
    ensures index < tsize
  {
    match h
    case Mod => ModFold(s, tsize)
    case Add => AddFold(s) % tsize
    case Xor => (XorFold(s) as int) % tsize
  }

  /** The string read as a number in base 128. */
  function Number(s: string): int { if s == [] then 0 else Number(s[..|s| - 1]) * 128 + s[|s| - 1] as int }

  lemma StepFits(r: int, c: int, m: int)
    requires 0 <= r < m <= 0x200_0000 && 0 <= c < 128
    ensures (r * 128 + c) % WORD == r * 128 + c
  {
  }

  lemma ReduceEarly(a: int, d: int, c: int, m: int)
    requires m >= 1
    ensures (a % m * d + c) % m == (a * d + c) % m
  {
    var x, y := a % m * d, a * d;
    RemainderOfProduct(a, d, m);
    assert x % m == y % m;
    RemainderOfSum(x, c, m);
    RemainderOfSum(y, c, m);
  }

  lemma HornerStep(a: int, r: int, c: int, m: int)
    requires 0 < m <= 0x200_0000 && 0 <= c < 128 && r == a % m
    ensures ((r * 128 + c) % WORD) % m == (a * 128 + c) % m
  {
    StepFits(r, c, m);
    ReduceEarly(a, 128, c, m);
  }

  /** Division hashing: reducing at every character gives the remainder of the whole number, for
      7-bit characters and every table size for which no step can exceed 32 bits. */
  lemma {:induction false} ModIsDivisionHashing(s: string, tsize: int)
    requires 0 < tsize <= 0x200_0000 && forall k :: 0 <= k < |s| ==> s[k] as int < 128
    ensures ModFold(s, tsize) == Number(s) % tsize
  {
    if s != [] {
      var t, c := s[..|s| - 1], s[|s| - 1];
      ModIsDivisionHashing(t, tsize);
      HornerStep(Number(t), ModFold(t, tsize), c as int, tsize);
      var number := Number(t) * 128 + c as int;
      assert ModStep(ModFold(t, tsize), c, tsize) == number % tsize;
      assert Number(s) == number;
    }
  }

  /** The sum of the characters, as C widens them. */
  function CharSum(s: string): int {
    if s == [] then 0 else CharSum(s[..|s| - 1]) + Widen(s[|s| - 1])
  }

  /** h_add reduces at every character, and so gives the sum of all modulo 2^32. */
  lemma {:induction false} AddIsSum(s: string)
    ensures AddFold(s) == CharSum(s) % WORD
  {
    if s != [] {
      AddIsSum(s[..|s| - 1]);
      RemainderOfSum(CharSum(s[..|s| - 1]), Widen(s[|s| - 1]), WORD);
    }
  }

  /** For characters whose bits all lie below the top four, a step of h_xor is a rotation: no bit of
      the hash is lost. */
  lemma XorMixRotates(val: bv32, c: bv32)
    requires c & 0xF000_0000 == 0
    ensures XorMix(val, c) == (val ^ c).RotateLeft(4)
  {
  }

  // ----- h_xor: a sum of turned characters -----

  function Turned<T>(turn: T -> T, x: T, n: nat): T { if n == 0 then x else turn(Turned(turn, x, n - 1)) }

  /** All values together, each turned once for every value after it; `ahead` more follow. */
  function TurnedSum<T>(turn: T -> T, add: (T, T) -> T, zero: T, cs: seq<T>, ahead: nat): T {
    if cs == [] then zero
    else add(TurnedSum(turn, add, zero, cs[..|cs| - 1], ahead + 1), Turned(turn, cs[|cs| - 1], ahead))
  }

  /** One value after the other: what is there is turned, then the next is added. */
  function Steps<T>(turn: T -> T, add: (T, T) -> T, zero: T, cs: seq<T>): T {
    if cs == [] then zero else add(turn(Steps(turn, add, zero, cs[..|cs| - 1])), cs[|cs| - 1])
  }

  ghost predicate Distributes<T(!new)>(turn: T -> T, add: (T, T) -> T, zero: T) {
    turn(zero) == zero && forall x, y :: turn(add(x, y)) == add(turn(x), turn(y))
  }

  lemma {:induction false} SumTurns<T(!new)>(turn: T -> T, add: (T, T) -> T, zero: T, cs: seq<T>, ahead: nat)
    requires Distributes(turn, add, zero)
    ensures turn(TurnedSum(turn, add, zero, cs, ahead)) == TurnedSum(turn, add, zero, cs, ahead + 1)
  {
    if cs != [] {
      SumTurns(turn, add, zero, cs[..|cs| - 1], ahead + 1);
    }
  }

  lemma {:induction false} StepsAreSum<T(!new)>(turn: T -> T, add: (T, T) -> T, zero: T, cs: seq<T>)
    requires Distributes(turn, add, zero)
    ensures Steps(turn, add, zero, cs) == TurnedSum(turn, add, zero, cs, 0)
  {
    if cs != [] {
      StepsAreSum(turn, add, zero, cs[..|cs| - 1]);
      SumTurns(turn, add, zero, cs[..|cs| - 1], 0);
    }
  }

  /** A rotation by four bits. */
  function TurnLeft(x: bv32): bv32 { x.RotateLeft(4) }
  function ExclusiveOr(x: bv32, y: bv32): bv32 { x ^ y }

  lemma XorDistributes()
    ensures Distributes(TurnLeft, ExclusiveOr, 0)
  {
  }

  /** Eight turns are none. */
  lemma TurnedRound(x: bv32)
    ensures Turned(TurnLeft, x, 8) == x
  {
    var y := TurnLeft(TurnLeft(TurnLeft(TurnLeft(x))));
    assert Turned(TurnLeft, x, 4) == y;
    assert TurnLeft(TurnLeft(TurnLeft(TurnLeft(y)))) == x;
  }

  /** A character without the topmost of its eight hexadecimal digits. */
  function ShiftedChar(c: char): bv32 {
    var word := (Widen(c) % WORD) as bv32;
    word << 4
  }

  function Each<T>(f: char -> T, s: string): (cs: seq<T>)
    ensures |cs| == |s| && forall k :: 0 <= k < |s| ==> cs[k] == f(s[k])
  {
    seq(|s|, k requires 0 <= k < |s| => f(s[k]))
  }

  /** All characters as h_xor sees them. */
  function Shifted(s: string): seq<bv32> { Each(ShiftedChar, s) }

  lemma XorMixTurns(val: bv32, c: bv32)
    ensures XorMix(val, c) == val.RotateLeft(4) ^ (c << 4)
  {
  }

  ghost predicate TurnsAndAdds<T(!new)>(step: (T, char) -> T, turn: T -> T, add: (T, T) -> T, shift: char -> T) {
    forall val, c :: step(val, c) == add(turn(val), shift(c))
  }

  lemma XorStepTurns()
    ensures TurnsAndAdds(XorStep, TurnLeft, ExclusiveOr, ShiftedChar)
  {
    forall val: bv32, c: char ensures XorStep(val, c) == ExclusiveOr(TurnLeft(val), ShiftedChar(c)) {
      XorMixTurns(val, (Widen(c) % WORD) as bv32);
    }
  }

  lemma {:induction false} FoldSteps<T(!new)>(step: (T, char) -> T, turn: T -> T, add: (T, T) -> T, shift: char -> T,
            zero: T, s: string)
    requires TurnsAndAdds(step, turn, add, shift)
    ensures FoldChars(step, zero, s) == Steps(turn, add, zero, Each(shift, s))
  {
    if s != [] {
      var front := s[..|s| - 1];
      FoldSteps(step, turn, add, shift, zero, front);
      assert Each(shift, s)[..|front|] == Each(shift, front);
    }
  }

  /** h_xor gives the exclusive or of all shifted characters, each turned by its distance from the
      end. */
  lemma XorIsTurnedSum(s: string)
    ensures XorFold(s) == TurnedSum(TurnLeft, ExclusiveOr, 0, Shifted(s), 0)
  {
    XorDistributes();
    XorStepTurns();
    FoldSteps(XorStep, TurnLeft, ExclusiveOr, ShiftedChar, 0, s);
    StepsAreSum(TurnLeft, ExclusiveOr, 0, Shifted(s));
  }

  /** What each of the three functions computes from the characters. */
  lemma HashMeans(s: string, tsize: int)
    requires tsize > 0
    ensures Hash(Add, s, tsize) == CharSum(s) % WORD % tsize
    ensures Hash(Xor, s, tsize) == (TurnedSum(TurnLeft, ExclusiveOr, 0, Shifted(s), 0) as int) % tsize
    ensures tsize <= 0x200_0000 && (forall k :: 0 <= k < |s| ==> s[k] as int < 128) ==>
        Hash(Mod, s, tsize) == Number(s) % tsize
  {
    AddIsSum(s);
    XorIsTurnedSum(s);
    if tsize <= 0x200_0000 && forall k :: 0 <= k < |s| ==> s[k] as int < 128 {
      ModIsDivisionHashing(s, tsize);
    }
  }

  method HMod(s: array<char>, tsize: int) returns (h: nat)
    requires tsize > 0 && NUL in s[..]
    ensures h == Hash(Mod, Text(s[..]), tsize)
  {
    ghost var text := Text(s[..]);
    var val := 0;
    var i := 0;
    while s[i] != NUL
      invariant 0 <= i <= |text| && val == ModFold(text[..i], tsize)
      decreases |text| - i
    {
      val := ((val * 128 + Widen(s[i])) % WORD) % tsize;
      i := i + 1;
      assert text[..i][..i - 1] == text[..i - 1];
    }
    assert text[..i] == text;
    h := val;
  }

  method HAdd(s: array<char>, tsize: int) returns (h: nat)
    requires tsize > 0 && NUL in s[..]
    ensures h == Hash(Add, Text(s[..]), tsize)
  {
    ghost var text := Text(s[..]);
    var val := 0;
    var i := 0;
    while s[i] != NUL
      invariant 0 <= i <= |text| && val == AddFold(text[..i])
      decreases |text| - i
    {
      val := (val + Widen(s[i])) % WORD;
      i := i + 1;
      assert text[..i][..i - 1] == text[..i - 1];
    }
    assert text[..i] == text;
    h := val % tsize;
  }

  method HXor(s: array<char>, tsize: int) returns (h: nat)
    requires tsize > 0 && NUL in s[..]
    ensures h == Hash(Xor, Text(s[..]), tsize)
  {
    ghost var text := Text(s[..]);
    var val: bv32 := 0;
    var i := 0;
    while s[i] != NUL
      invariant 0 <= i <= |text| && val == XorFold(text[..i])
      decreases |text| - i
    {
      val := XorStep(val, s[i]);
      i := i + 1;
      assert text[..i][..i - 1] == text[..i - 1];
    }
    assert text[..i] == text;
    h := (val as int) % tsize;
  }

  /** hash_fun_set: the functions by number. */
  method ComputeHash(f: HashFunction, s: array<char>, tsize: int) returns (h: nat)
    requires tsize > 0 && NUL in s[..]
    ensures h == Hash(f, Text(s[..]), tsize)
    ensures f == Add ==> h == CharSum(Text(s[..])) % WORD % tsize
    ensures f == Xor ==> h == (TurnedSum(TurnLeft, ExclusiveOr, 0, Shifted(Text(s[..])), 0) as int) % tsize
    ensures f == Mod && tsize <= 0x200_0000 && (forall k :: 0 <= k < |Text(s[..])| ==> Text(s[..])[k] as int < 128) ==>
        h == Number(Text(s[..])) % tsize
  {
    HashMeans(Text(s[..]), tsize);
    match f {
      case Mod => h := HMod(s, tsize);
      case Add => h := HAdd(s, tsize);
      case Xor => h := HXor(s, tsize);
    }
  }
}
