/** simd_v1 with the loops it is written with.  It keeps the number of elements in an int and
    compares it with unsigned sizes, so it is right for exactly the lengths that an int can hold. */
module SimdForm {
  import opened Combine
  import opened CombineTable
  import opened Combiners
  import opened PlanSteps
  import opened Vectors

  const INT_MAX := 0x7FFF_FFFF

  /** `int cnt = vec_length(v)`: the low 32 bits, as a signed number. */
  function ToInt(length: int): (cnt: int)
    ensures -INT_MAX - 1 <= cnt <= INT_MAX
    ensures (cnt - length) % 0x1_0000_0000 == 0
    ensures 0 <= length <= INT_MAX ==> cnt == length
  {
    var low := length % 0x1_0000_0000;
    if low <= INT_MAX then low else low - 0x1_0000_0000
  }

  /** `cnt >= VSIZE`, where the int is converted to the unsigned type of the other side. */
  predicate AtLeast(cnt: int, size: nat) { cnt < 0 || cnt >= size }

  /** What the function does: it stores a value, or it leaves the vector.  (With a negative count it
      may leave the range of int before that.) */
  datatype Outcome<T> = Stored(dest: T) | Overrun

  /** result OP accum[0] OP accum[1] ... */
  lemma LanesInOrder<T>(op: (T, T) -> T, width: nat, i: nat, accs: seq<T>)
    requires 0 < i <= width && |accs| == width + 1
    requires Bounded(LaneByLane(X, width, i, width), width + 1) &&
        Bounded(LaneByLane(X, width, i - 1, width), width + 1)
    ensures Eval(op, LaneByLane(X, width, i, width), accs) ==
              op(Eval(op, LaneByLane(X, width, i - 1, width), accs), accs[i - 1])
  {
    assert InLane(Number(X, 0), width, i - 1) == Leaf(i - 1);
  }

  /** accum = accum OP chunk, lane by lane, leaves the scalar alone. */
  function Lanewise<T>(op: (T, T) -> T, accum: seq<T>, chunk: seq<T>): (r: seq<T>)
    requires |accum| == |chunk|
    ensures |r| == |accum| && forall l :: 0 <= l < |r| ==> r[l] == op(accum[l], chunk[l])
  {
    seq(|accum|, l requires 0 <= l < |accum| => op(accum[l], chunk[l]))
  }

  lemma {:induction false} LanewiseApply<T>(op: (T, T) -> T, accum: seq<T>, result: T, chunk: seq<T>, l: nat)
    requires l <= |accum| == |chunk|
    ensures Apply(op, OwnUpdates(|chunk|)[..l], accum + [result], chunk) ==
              Lanewise(op, accum, chunk)[..l] + accum[l..] + [result]
  {
    var us := OwnUpdates(|chunk|)[..l];
    if l > 0 {
      LanewiseApply(op, accum, result, chunk, l - 1);
      assert us[..l - 1] == OwnUpdates(|chunk|)[..l - 1];
      assert us[l - 1] == Update(l - 1, Leaf(l - 1));
    }
  }

  ghost predicate IsPlanV1(p: Plan, width: nat) {
    && width >= 1 && WellFormed(p) && p.stride == p.tail == width && p.accs == width + 1
    && p.updates == OwnUpdates(width) && p.result == LaneByLane(X, width, width, width)
  }

  lemma OneVector(width: nat, skip: nat)
    requires width >= 1
    ensures Simd(width, X, skip).skip == skip && IsPlanV1(Simd(width, X, skip), width)
  {
    SimdIsFair(width, X, skip);
    assert Size(X) * width == width;
  }

  lemma PlanV1(width: nat, skip: nat) returns (p: Plan)
    requires width >= 1
    ensures p == PlanFor(FamilyOf(Function.SimdV1), width, skip) && p.skip == skip && IsPlanV1(p, width)
  {
    p := Simd(width, X, skip);
    OneVector(width, skip);
  }

  lemma VectorStep<T>(op: (T, T) -> T, p: Plan, accum: seq<T>, result: T, all: seq<T>, i: nat)
    requires WellFormed(p) && |accum| == p.stride && p.accs == p.stride + 1 && p.updates == OwnUpdates(p.stride)
    requires i + p.stride <= |all|
    ensures Strides(op, p, accum + [result], all[i..]) ==
              Strides(op, p, Lanewise(op, accum, all[i..i + p.stride]) + [result], all[i + p.stride..])
  {
    var chunk := all[i..i + p.stride];
    var after := Lanewise(op, accum, chunk);
    LanewiseApply(op, accum, result, chunk, p.stride);
    assert OwnUpdates(p.stride)[..p.stride] == OwnUpdates(p.stride);
    assert after[..p.stride] + accum[p.stride..] + [result] == after + [result];
    OneStride(op, p, accum + [result], all, i, after + [result]);
  }

  /** The last loop: the lanes are combined with the scalar, in order. */
  method CombineLanes<T>(op: (T, T) -> T, result: T, accum: seq<T>, width: nat) returns (dest: T)
    requires width == |accum| && Bounded(LaneByLane(X, width, width, width), width + 1)
    ensures dest == Eval(op, LaneByLane(X, width, width, width), accum + [result])
  {
    dest := result;
    ghost var accs := accum + [result];
    LanesBounded(width, 0);
    for i := 0 to width
      invariant Bounded(LaneByLane(X, width, i, width), width + 1)
      invariant dest == Eval(op, LaneByLane(X, width, i, width), accs)
    {
      LanesBounded(width, i + 1);
      LanesInOrder(op, width, i + 1, accs);
      dest := op(dest, accum[i]);
    }
  }

  lemma {:induction false} LanesBounded(width: nat, i: nat)
    requires i <= width
    ensures Bounded(LaneByLane(X, width, i, width), width + 1)
  {
    if i > 0 {
      LanesBounded(width, i - 1);
      assert InLane(Number(X, 0), width, i - 1) == Leaf(i - 1);
    }
  }

  /** What the loops have done to the first i elements of `all`: the single elements before the data
      is aligned, then full vectors. */
  ghost predicate Done<T>(op: (T, T) -> T, ident: T, p: Plan, all: seq<T>, i: nat, accum: seq<T>, result: T)
    requires WellFormed(p) && p.accs >= 1
  {
    && i <= |all| && |accum| + 1 == p.accs
    && var s := if p.skip < |all| then p.skip else |all|;
      Strides(op, p, accum + [result], all[i..]) ==
      Strides(op, p, Single(op, p, seq(p.accs, k => ident), all[..s]), all[s..])
  }

  lemma AfterSingles<T>(op: (T, T) -> T, ident: T, p: Plan, all: seq<T>, i: nat, result: T)
    requires WellFormed(p) && p.accs == p.tail + 1 && i == if p.skip < |all| then p.skip else |all|
    requires result == Fold(op, ident, all[0..i])
    ensures Done(op, ident, p, all, i, seq(p.tail, k => ident), result)
  {
    assert all[0..i] == all[..i];
    assert Single(op, p, seq(p.accs, k => ident), all[..i]) == seq(p.tail, k => ident) + [result];
  }

  lemma AfterVectors<T>(op: (T, T) -> T, ident: T, p: Plan, all: seq<T>, i: nat, accum: seq<T>, result: T, last: T)
    requires WellFormed(p) && p.accs == p.tail + 1 && Done(op, ident, p, all, i, accum, result)
    requires |all| - i < p.stride && last == Fold(op, result, all[i..])
    ensures Result(op, ident, p, all) == Eval(op, p.result, accum + [last])
  {
    assert Strides(op, p, accum + [result], all[i..]) == (accum + [result], all[i..]);
    assert Single(op, p, accum + [result], all[i..]) == accum + [last];
  }

  /** A loop over single elements: `left` of them, or until cnt is 0; inside is false if it leaves the
      vector. */
  method Singles<T>(op: (T, T) -> T, data: seq<T>, from: nat, cnt: int, left: nat, result: T)
    returns (inside: bool, i: nat, rest: int, r: T)
    requires from <= |data|
    ensures !inside ==> cnt < 0 || from + cnt > |data|
    ensures inside ==> from <= i <= |data| && i + rest == from + cnt && r == Fold(op, result, data[from..i])
    ensures inside ==> i - from == if 0 <= cnt < left then cnt else left
  {
    i, rest, r := from, cnt, result;
    var k := left;
    while k != 0 && rest != 0
      invariant from <= i <= |data| && i + rest == from + cnt && i + k == from + left &&
          r == Fold(op, result, data[from..i])
      invariant if cnt >= 0 then rest >= 0 else rest < 0
      decreases k
    {
      if i >= |data| {
        return false, i, rest, r;
      }
      FoldMore(op, result, data, from, i);
      i, rest, r, k := i + 1, rest - 1, op(r, data[i]), k - 1;
    }
    inside := true;
  }

  /** The loop over vectors. */
  method VectorLoop<T>(op: (T, T) -> T, data: seq<T>, from: nat, cnt: int, width: nat, accum: seq<T>, ghost p: Plan,
                       ghost all: seq<T>, result: T)
    returns (inside: bool, i: nat, rest: nat, r: seq<T>)
    requires from <= |data| && |accum| == width >= 1
    requires WellFormed(p) && p.stride == width && p.accs == width + 1 && p.updates == OwnUpdates(width)
    requires 0 <= from + cnt <= |data| ==> all == data[..from + cnt]
    ensures !inside ==> cnt < 0 || from + cnt > |data|
    ensures inside ==> cnt >= 0 && from <= i <= |data| && i + rest == from + cnt && rest < width && |r| == width
    ensures inside && from + cnt <= |data| ==>
      Strides(op, p, accum + [result], all[from..]) == Strides(op, p, r + [result], all[i..])
  {
    var c := cnt;
    i, rest, r := from, 0, accum;
    while AtLeast(c, width)
      invariant from <= i <= |data| && i + c == from + cnt && (if cnt >= 0 then c >= 0 else c < 0) && |r| == width
      invariant 0 <= cnt && from + cnt <= |data| ==>
        Strides(op, p, accum + [result], all[from..]) == Strides(op, p, r + [result], all[i..])
      decreases |data| - i
    {
      if i + width > |data| {
        return false, i, 0, r;
      }
      var chunk := data[i..i + width];
      if 0 <= cnt && from + cnt <= |data| {
        assert chunk == all[i..i + width];
        VectorStep(op, p, r, result, all, i);
      }
      i, c, r := i + width, c - width, Lanewise(op, r, chunk);
    }
    inside, rest := true, c;
  }

  /** The loops of simd_v1. */
  method Loops<T>(data: seq<T>, total: int, op: (T, T) -> T, ident: T, width: nat, skip: nat,
                  ghost p: Plan)
    returns (r: Outcome<T>)
    requires IsPlanV1(p, width) && p.skip == skip
    ensures r == if 0 <= total <= |data| then Stored(Result(op, ident, p, data[..total])) else Overrun
  {
    ghost var all := if 0 <= total <= |data| then data[..total] else [];
    var inside, i, cnt, result := Singles(op, data, 0, total, skip, ident);
    if !inside {
      return Overrun;
    }
    var accum := seq(width, k => ident);
    ghost var start := i;
    if 0 <= total <= |data| {
      assert data[0..i] == all[0..i];
      AfterSingles(op, ident, p, all, i, result);
    }
    inside, i, cnt, accum := VectorLoop(op, data, i, cnt, width, accum, p, all, result);
    if !inside {
      return Overrun;
    }
    ghost var from, before := i, result;
    inside, i, cnt, result := Singles(op, data, i, cnt, cnt, result);
    if !inside {
      return Overrun;
    }
    assert data[from..i] == all[from..];
    AfterVectors(op, ident, p, all, from, accum, before, result);
    var dest := CombineLanes(op, result, accum, width);
    r := Stored(dest);
  }

  /** simd_v1: if the int count is neither negative nor more than there are elements, it stores the
      value of its plan for that many elements, and otherwise it leaves the vector. */
  method SimdV1<T>(v: Vec<T>, op: (T, T) -> T, ident: T, width: nat, skip: nat) returns (r: Outcome<T>)
    requires v.Valid() && width >= 1
    ensures WellFormed(PlanFor(FamilyOf(Function.SimdV1), width, skip))
    ensures var cnt, p := ToInt(v.len), PlanFor(FamilyOf(Function.SimdV1), width, skip);
      r == if 0 <= cnt <= |v.Elements()| then Stored(Result(op, ident, p, v.Elements()[..cnt])) else Overrun
    ensures 0 <= v.len <= INT_MAX ==>
        r == Stored(Result(op, ident, PlanFor(FamilyOf(Function.SimdV1), width, skip), v.Elements()))
  {
    ghost var p := PlanV1(width, skip);
    var data, total := v.Elements(), ToInt(v.len);
    assert 0 <= v.len ==> data[..v.len] == data;
    r := Loops(data, total, op, ident, width, skip, p);
  }
}
