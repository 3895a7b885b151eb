/** How the loops of a plan go on, one pass at a time. */
module PlanSteps {
  import opened Combine

  /** What a plan without skipping computes from the accumulators its unrolled loop leaves. */
  lemma ResultAfterStrides<T>(op: (T, T) -> T, ident: T, p: Plan, data: seq<T>, accs: seq<T>, rest: seq<T>)
    requires WellFormed(p) && p.skip == 0 && |accs| == p.accs
    requires Strides(op, p, seq(p.accs, i => ident), data) == (accs, rest)
    ensures Result(op, ident, p, data) == Eval(op, p.result, Single(op, p, accs, rest))
  {
    var idents := seq(p.accs, i => ident);
    assert data[..0] == [] && data[0..] == data;
    assert Single(op, p, idents, []) == idents;
  }

  /** One pass of the unrolled loop. */
  lemma OneStride<T>(op: (T, T) -> T, p: Plan, accs: seq<T>, data: seq<T>, i: nat, after: seq<T>)
    requires WellFormed(p) && |accs| == p.accs && i + p.stride <= |data|
    requires after == Apply(op, p.updates, accs, data[i..i + p.stride])
    ensures |after| == p.accs && Strides(op, p, accs, data[i..]) == Strides(op, p, after, data[i + p.stride..])
  {
    assert data[i..][..p.stride] == data[i..i + p.stride];
    assert data[i..][p.stride..] == data[i + p.stride..];
  }

  lemma ApplyOne<T>(op: (T, T) -> T, u: Update, accs: seq<T>, chunk: seq<T>)
    requires u.target < |accs| && Bounded(u.e, |chunk|)
    ensures Apply(op, [u], accs, chunk) == accs[u.target := op(accs[u.target], Eval(op, u.e, chunk))]
  {
    assert [u][..0] == [];
    assert Apply(op, [], accs, chunk) == accs;
  }

  lemma ApplyTwo<T>(op: (T, T) -> T, u: Update, w: Update, accs: seq<T>, chunk: seq<T>)
    requires u.target < |accs| && Bounded(u.e, |chunk|) && w.target < |accs| && Bounded(w.e, |chunk|)
    ensures var between := accs[u.target := op(accs[u.target], Eval(op, u.e, chunk))];
      Apply(op, [u, w], accs, chunk) == between[w.target := op(between[w.target], Eval(op, w.e, chunk))]
  {
    assert [u, w][..1] == [u];
    ApplyOne(op, u, accs, chunk);
  }
}

/** Four of the combining functions with the loops and accumulators they are written with, each
    tied to its entry in the table. */
module CombineForms {
  import opened Combine
  import opened CombineLaws
  import opened CombineTable
  import opened Combiners
  import opened PlanSteps
  import opened Vectors

  /** combine4: an accumulator in a local variable. */
  method Combine4<T(!new)>(v: Vec<T>, op: (T, T) -> T, ident: T) returns (dest: T)
    requires v.Valid()
    ensures WellFormed(PlanFor(FamilyOf(Function.Combine4), 1, 0))
    ensures dest == Result(op, ident, PlanFor(FamilyOf(Function.Combine4), 1, 0), v.Elements()) ==
        Fold(op, ident, v.Elements())
  {
    LeftNestedIsFold(op, ident, 1, v.Elements());
    var data := v.Elements();
    var length := |data|;
    var acc := ident;
    for i := 0 to length
      invariant acc == Fold(op, ident, data[0..i])
    {
      FoldMore(op, ident, data, 0, i);
      acc := op(acc, data[i]);
    }
    assert data[0..length] == data;
    dest := acc;
  }

  /** combine5: unrolled by two, left to right. */
  method Combine5<T(!new)>(v: Vec<T>, op: (T, T) -> T, ident: T) returns (dest: T)
    requires v.Valid()
    ensures WellFormed(PlanFor(FamilyOf(Function.Combine5), 1, 0))
    ensures dest == Result(op, ident, PlanFor(FamilyOf(Function.Combine5), 1, 0), v.Elements()) ==
        Fold(op, ident, v.Elements())
  {
    var data := v.Elements();
    ghost var p := LeftNested(2);
    assert p.updates == [Update(0, Leaf(0)), Update(0, Leaf(1))];
    ghost var start := seq(p.accs, i => ident);
    var length := |data|;
    var limit := length - 1;
    var acc := ident;
    var i := 0;
    assert [acc] == start && data[0..] == data;
    while i < limit
      invariant 0 <= i <= length && Strides(op, p, [acc], data[i..]) == Strides(op, p, start, data)
    {
      ghost var after := [op(op(acc, data[i]), data[i + 1])];
      ApplyTwo(op, Update(0, Leaf(0)), Update(0, Leaf(1)), [acc], data[i..i + 2]);
      OneStride(op, p, [acc], data, i, after);
      acc := op(op(acc, data[i]), data[i + 1]);
      i := i + 2;
    }
    ghost var done := acc;
    acc := Leftover(op, acc, data, i);
    ResultAfterStrides(op, ident, p, data, [done], data[i..]);
    LeftNestedIsFold(op, ident, 2, data);
    dest := acc;
  }

  lemma TwoAccumulatorsStep<T>(op: (T, T) -> T, p: Plan, acc0: T, acc1: T, data: seq<T>, i: nat)
    requires WellFormed(p) && p.accs == p.stride == 2 && p.updates == [Update(0, Leaf(0)), Update(1, Leaf(1))]
    requires i + 2 <= |data|
    ensures Strides(op, p, [acc0, acc1], data[i..]) ==
        Strides(op, p, [op(acc0, data[i]), op(acc1, data[i + 1])], data[i + 2..])
  {
    ApplyTwo(op, Update(0, Leaf(0)), Update(1, Leaf(1)), [acc0, acc1], data[i..i + 2]);
    OneStride(op, p, [acc0, acc1], data, i, [op(acc0, data[i]), op(acc1, data[i + 1])]);
  }

  /** The loops of combine6. */
  method TwoAtATime<T>(v: Vec<T>, op: (T, T) -> T, ident: T, ghost p: Plan) returns (dest: T)
    requires v.Valid() && IsTwoAtATime(p)
    ensures dest == Result(op, ident, p, v.Elements())
  {
    var data := v.Elements();
    ghost var start := seq(p.accs, i => ident);
    var length := |data|;
    var limit := length - 1;
    var acc0, acc1 := ident, ident;
    var i := 0;
    assert [acc0, acc1] == start && data[0..] == data;
    while i < limit
      invariant 0 <= i <= length && Strides(op, p, [acc0, acc1], data[i..]) == Strides(op, p, start, data)
    {
      TwoAccumulatorsStep(op, p, acc0, acc1, data, i);
      acc0 := op(acc0, data[i]);
      acc1 := op(acc1, data[i + 1]);
      i := i + 2;
    }
    ghost var done := acc0;
    acc0 := Leftover(op, acc0, data, i);
    ResultAfterStrides(op, ident, p, data, [done, acc1], data[i..]);
    assert Single(op, p, [done, acc1], data[i..]) == [acc0, acc1];
    dest := op(acc0, acc1);
  }

  lemma Combine6Plan()
    ensures PlanFor(FamilyOf(Function.Combine6), 1, 0) == Multi(2, X2)
  {
  }

  /** combine6: two accumulators. */
  method Combine6<T>(v: Vec<T>, op: (T, T) -> T, ident: T) returns (dest: T)
    requires v.Valid()
    ensures WellFormed(PlanFor(FamilyOf(Function.Combine6), 1, 0))
    ensures dest == Result(op, ident, PlanFor(FamilyOf(Function.Combine6), 1, 0), v.Elements())
  {
    Combine6Plan();
    TwoAccumulators();
    dest := TwoAtATime(v, op, ident, Multi(2, X2));
  }

  ghost predicate IsPairFirst(p: Plan) {
    && WellFormed(p) && p.skip == 0 && p.stride == 2 && p.accs == 1 && p.tail == 0
    && p.result == Leaf(0) && p.updates == [Update(0, Node(Leaf(0), Leaf(1)))]
  }

  /** The loops of combine7. */
  method PairFirst<T>(v: Vec<T>, op: (T, T) -> T, ident: T, ghost p: Plan) returns (dest: T)
    requires v.Valid() && IsPairFirst(p)
    ensures dest == Result(op, ident, p, v.Elements())
  {
    var data := v.Elements();
    ghost var start := seq(p.accs, i => ident);
    var length := |data|;
    var limit := length - 1;
    var acc := ident;
    var i := 0;
    assert [acc] == start && data[0..] == data;
    while i < limit
      invariant 0 <= i <= length && Strides(op, p, [acc], data[i..]) == Strides(op, p, start, data)
    {
      ghost var after := [op(acc, op(data[i], data[i + 1]))];
      ApplyOne(op, p.updates[0], [acc], data[i..i + 2]);
      OneStride(op, p, [acc], data, i, after);
      acc := op(acc, op(data[i], data[i + 1]));
      i := i + 2;
    }
    ghost var done := acc;
    acc := Leftover(op, acc, data, i);
    ResultAfterStrides(op, ident, p, data, [done], data[i..]);
    dest := acc;
  }

  lemma PairAccumulated()
    ensures IsPairFirst(Reassociated(X2))
  {
    NumberIsIota(X2);
    assert Number(X2, 0) == Node(Leaf(0), Leaf(1));
  }

  lemma Combine7Plan()
    ensures PlanFor(FamilyOf(Function.Combine7), 1, 0) == Reassociated(X2)
  {
  }

  /** combine7: one accumulator, the two elements of a step combined first. */
  method Combine7<T>(v: Vec<T>, op: (T, T) -> T, ident: T) returns (dest: T)
    requires v.Valid()
    ensures WellFormed(PlanFor(FamilyOf(Function.Combine7), 1, 0))
    ensures dest == Result(op, ident, PlanFor(FamilyOf(Function.Combine7), 1, 0), v.Elements())
  {
    Combine7Plan();
    PairAccumulated();
    dest := PairFirst(v, op, ident, Reassociated(X2));
  }
}
