/** Which combining functions are right when OP is defined as division, where 1 is an identity on the
    right only. */
module Division {
  import opened Arithmetic
  import opened Combine
  import opened CombineLaws
  import opened CombineTable
  import opened Combiners
  import opened WrittenLoops

  /** One element other than the identity, met first by e. */
  lemma {:induction false} EvalLeftmost<T(!new)>(op: (T, T) -> T, ident: T, e: Expr, env: seq<T>, k: nat, x: T)
    requires RightIdentity(op, ident) && Bounded(e, |env|)
    requires |Leaves(e)| > 0 && Leaves(e)[0] == k && multiset(Leaves(e))[k] == 1
    requires k < |env| && env[k] == x && forall i :: i in Leaves(e) && i < |env| && i != k ==> env[i] == ident
    ensures Eval(op, e, env) == x
  {
    if e.Node? {
      var i := SomeLeaf(e.left);
      assert k in multiset(Leaves(e.left));
      EvalLeftmost(op, ident, e.left, env, k, x);
      EvalOfIdents(op, ident, e.right, env);
      assert RightIdentityAt(op, ident, x);
    }
  }

  /** The same, met first on the right of e. */
  lemma EvalRightFirst<T(!new)>(op: (T, T) -> T, ident: T, e: Expr, env: seq<T>, k: nat, x: T)
    requires RightIdentity(op, ident) && Bounded(e, |env|) && e.Node?
    requires |Leaves(e.right)| > 0 && Leaves(e.right)[0] == k && multiset(Leaves(e))[k] == 1
    requires k < |env| && env[k] == x && forall i :: i in Leaves(e) && i < |env| && i != k ==> env[i] == ident
    ensures Eval(op, e, env) == op(ident, x)
  {
    assert k in multiset(Leaves(e.right));
    EvalOfIdents(op, ident, e.left, env);
    EvalLeftmost(op, ident, e.right, env, k, x);
  }

  /** One full step, after the identity in all the elements before it. */
  lemma OneStepResult<T(!new)>(op: (T, T) -> T, ident: T, p: Plan, chunk: seq<T>)
    requires RightIdentity(op, ident) && WellFormed(p) && |chunk| == p.stride
    ensures Result(op, ident, p, Idents(ident, p.skip) + chunk) ==
              Eval(op, p.result, Apply(op, p.updates, Idents(ident, p.accs), chunk))
  {
    var data, idents := Idents(ident, p.skip) + chunk, Idents(ident, p.accs);
    var accs := Apply(op, p.updates, idents, chunk);
    assert data[..p.skip] == Idents(ident, p.skip) && data[p.skip..] == chunk;
    FullStride(op, p, idents, chunk, []);
    assert chunk + [] == chunk;
    FoldOfIdents(op, ident, ident, data[..p.skip]);
    assert seq(p.accs, i => ident) == idents;
    assert Single(op, p, idents, data[..p.skip]) == idents;
    assert Strides(op, p, accs, []) == (accs, []);
    assert Single(op, p, accs, []) == accs;
  }

  /** A single accumulator turns x over twice. */
  lemma RegroupedTurnsOver<T(!new)>(op: (T, T) -> T, ident: T, p: Plan, u: nat, x: T) returns (data: seq<T>)
    requires RightIdentity(op, ident) && OneAccumulator(p) && p.skip == 0 && AllLeaves(p.updates) == Iota(p.stride)
    requires u < |p.updates| && p.updates[u].e.Node?
    ensures Result(op, ident, p, data) == op(ident, op(ident, x)) && Fold(op, ident, data) == op(ident, x)
  {
    var e := p.updates[u].e;
    var k := SomeLeaf(e.right);
    assert Leaves(e)[|Leaves(e.left)|] == k;
    OwnLeaf(p.updates, p.stride, u, k);
    data := Idents(ident, p.stride)[k := x];
    EvalRightFirst(op, ident, e, data, k, x);
    ApplyAt(op, ident, p.updates, u, Idents(ident, 1), data);
    OneStepResult(op, ident, p, data);
    assert Idents(ident, p.skip) + data == data;
    FoldOfOne(op, ident, ident, data, k, x);
  }

  /** Update u goes to the accumulator that is met first on the right at the end. */
  ghost predicate RightFirst(p: Plan, u: nat) {
    && u < |p.updates| && p.result.Node? && |Leaves(p.result.right)| > 0
    && p.updates[u].target == Leaves(p.result.right)[0]
  }

  lemma OnceAtTheEnd(p: Plan, t: nat)
    requires Fair(p) && p.result.Node? && t in Leaves(p.result.right)
    ensures multiset(Leaves(p.result))[t] == 1 && t < p.accs
  {
    IotaOnce(p.accs, t);
    assert t in multiset(Leaves(p.result.right));
  }

  lemma TurnedAtTheEnd<T(!new)>(op: (T, T) -> T, ident: T, p: Plan, t: nat, y: T)
    requires RightIdentity(op, ident) && Fair(p) && p.result.Node?
    requires |Leaves(p.result.right)| > 0 && t == Leaves(p.result.right)[0] && t < p.accs
    ensures Eval(op, p.result, Idents(ident, p.accs)[t := y]) == op(ident, y)
  {
    OnceAtTheEnd(p, t);
    EvalRightFirst(op, ident, p.result, Idents(ident, p.accs)[t := y], t, y);
  }

  /** And so do several accumulators. */
  lemma SeveralTurnOver<T(!new)>(op: (T, T) -> T, ident: T, p: Plan, u: nat, x: T) returns (data: seq<T>)
    requires RightIdentity(op, ident) && Fair(p) && RightFirst(p, u)
    ensures Result(op, ident, p, data) == op(ident, op(ident, x)) && Fold(op, ident, data) == op(ident, x)
  {
    var e, t := p.updates[u].e, p.updates[u].target;
    var k := SomeLeaf(e);
    OwnLeaf(p.updates, p.stride, u, k);
    var chunk, idents := Idents(ident, p.stride)[k := x], Idents(ident, p.accs);
    data := Idents(ident, p.skip) + chunk;
    EvalLeftmost(op, ident, e, chunk, k, x);
    ApplyAt(op, ident, p.updates, u, idents, chunk);
    OneStepResult(op, ident, p, chunk);
    TurnedAtTheEnd(op, ident, p, t, op(ident, x));
    FoldOfOne(op, ident, ident, data, p.skip + k, x);
  }

  /** With several accumulators, element Size(s.left) goes to the accumulator met first on the right. */
  lemma InterleavedTurnOver<T(!new)>(op: (T, T) -> T, ident: T, order: seq<nat>, s: Shape, u: nat, x: T)
    returns (data: seq<T>)
    requires RightIdentity(op, ident) && s.S? && |order| >= Size(s) && multiset(order) == multiset(Iota(|order|))
    requires u < |order| && order[u] == Size(s.left)
    ensures var p := Interleaved(order, Size(s), 0, Number(s, 0));
      WellFormed(p) && Result(op, ident, p, data) == op(ident, op(ident, x)) && Fold(op, ident, data) == op(ident, x)
  {
    var p := Interleaved(order, Size(s), 0, Number(s, 0));
    ShapedIsFair(order, s);
    NumberLeaves(s.right, Size(s.left));
    SmallRemainder(Size(s.left), Size(s));
    data := SeveralTurnOver(op, ident, p, u, x);
  }

  /** The lane combined last is the last lane, and its first element is element width - 1 of a step. */
  lemma LastLane(s: Shape, width: nat, n: nat)
    requires width >= 1
    ensures var e := LaneByLane(s, width, width, n);
      e.Node? && |Leaves(e.right)| > 0 && Leaves(e.right)[0] == width - 1
  {
    NumberInLane(s, width, width - 1);
    assert Column(Size(s), width, width - 1)[0] == width - 1;
  }

  lemma SimdRightFirst(width: nat, s: Shape, skip: nat, n: nat)
    requires width >= 1 && n == Size(s) * width
    ensures RightFirst(Simd(width, s, skip), width - 1)
  {
    LastLane(s, width, n);
    AtLeastWidth(Size(s), width, n);
    var p := Simd(width, s, skip);
    assert p.updates == OwnUpdates(n) && p.result == LaneByLane(s, width, width, n);
  }

  lemma SimdTurnsOver<T(!new)>(op: (T, T) -> T, ident: T, width: nat, s: Shape, skip: nat, x: T) returns (data: seq<T>)
    requires RightIdentity(op, ident) && width >= 2
    ensures var p := Simd(width, s, skip);
      WellFormed(p) && Result(op, ident, p, data) == op(ident, op(ident, x)) && Fold(op, ident, data) == op(ident, x)
  {
    SimdIsFair(width, s, skip);
    SimdRightFirst(width, s, skip, Size(s) * width);
    data := SeveralTurnOver(op, ident, Simd(width, s, skip), width - 1, x);
  }

  lemma SimdReassociatedTurnsOver<T(!new)>(op: (T, T) -> T, ident: T, width: nat, s: Shape, skip: nat, x: T)
    returns (data: seq<T>)
    requires RightIdentity(op, ident) && width >= 2
    ensures var p := SimdReassociated(width, s, skip);
      WellFormed(p) && Result(op, ident, p, data) == op(ident, op(ident, x)) && Fold(op, ident, data) == op(ident, x)
  {
    var p := SimdReassociated(width, s, skip);
    SimdReassociatedIsFair(width, s, skip);
    LastLane(X, width, width);
    data := SeveralTurnOver(op, ident, p, width - 1, x);
  }

  lemma FamilyTurnsOver<T(!new)>(op: (T, T) -> T, ident: T, fam: Family, width: nat, skip: nat, x: T)
    returns (data: seq<T>)
    requires RightIdentity(op, ident) && width >= 2 && Sensible(fam) && !fam.Nested?
    ensures WellFormed(PlanFor(fam, width, skip))
    ensures Result(op, ident, PlanFor(fam, width, skip), data) == op(ident, op(ident, x)) &&
        Fold(op, ident, data) == op(ident, x)
  {
    match fam
    case Regrouped(s) =>
      NumberIsIota(s);
      LeavesOfOne(Update(0, Number(s, 0)));
      data := RegroupedTurnsOver(op, ident, Reassociated(s), 0, x);
    case Several(stride, s) =>
      data := InterleavedTurnOver(op, ident, Iota(stride), s, Size(s.left), x);
    case Alternating(stride, s) =>
      ZigzagIsPermutation(6, stride);
      IotaOnce(stride, Size(s.left));
      assert Size(s.left) in multiset(Zigzag(6, stride));
      var u :| 0 <= u < stride && Zigzag(6, stride)[u] == Size(s.left);
      data := InterleavedTurnOver(op, ident, Zigzag(6, stride), s, u, x);
    case EightByFour =>
      Unroll8x4IsFair();
      data := SeveralTurnOver(op, ident, UNROLL8X4, 2, x);
    case Vectors(s) =>
      data := SimdTurnsOver(op, ident, width, s, skip, x);
    case VectorsRegrouped(s) =>
      data := SimdReassociatedTurnsOver(op, ident, width, s, skip, x);
  }

  // ----- Division -----

  /** OP defined as division, with identity 1; its value for a zero divisor plays no part below. */
  function Divide(x: real, y: real): real { if y == 0.0 then 0.0 else x / y }

  /** 1 is an identity on the right, and turning 2 over twice is not turning it over once. */
  lemma DivisionTurnsOver()
    ensures RightIdentity(Divide, 1.0)
    ensures Divide(1.0, Divide(1.0, 2.0)) == 2.0 && Divide(1.0, 2.0) == 0.5
  {
    forall x: real ensures RightIdentityAt(Divide, 1.0, x) {
    }
  }

  /** Neither do the split halves store what combine1 stores. */
  lemma SplitHalvesDoNotDivide()
    ensures var data := [1.0, 2.0]; var h := |data| / 2;
      Divide(Fold(Divide, 1.0, data[..h]), Fold(Divide, 1.0, data[h..])) == 2.0 && Fold(Divide, 1.0, data) == 0.5
  {
    FoldOfFew(Divide, 1.0, 1.0, 2.0, 1.0);
    assert [1.0, 2.0][..1] == [1.0] && [1.0, 2.0][1..] == [2.0] && [1.0][..0] == [] && [2.0][..0] == [];
    assert Fold(Divide, 1.0, [1.0]) == 1.0 && Fold(Divide, 1.0, [2.0]) == 0.5;
  }

  lemma FamilyDivides(fam: Family, width: nat, skip: nat)
    requires width >= 2 && Sensible(fam)
    ensures WellFormed(PlanFor(fam, width, skip))
    ensures Agrees(Divide, 1.0, PlanFor(fam, width, skip)) <==> fam.Nested?
  {
    if fam.Nested? {
      forall data: seq<real> ensures Result(Divide, 1.0, LeftNested(fam.stride), data) == Fold(Divide, 1.0, data) {
        LeftNestedIsFold(Divide, 1.0, fam.stride, data);
      }
    } else {
      DivisionTurnsOver();
      var data := FamilyTurnsOver(Divide, 1.0, fam, width, skip, 2.0);
      assert Result(Divide, 1.0, PlanFor(fam, width, skip), data) != Fold(Divide, 1.0, data);
    }
  }

  /** With OP defined as division, over the reals, exactly the functions that take the elements one
      at a time into one accumulator store what combine1 stores. */
  lemma DivisionExactly(f: Function, width: nat, skip: nat)
    requires width >= 2
    ensures WellFormed(NamedPlan(f, width, skip))
    ensures Agrees(Divide, 1.0, NamedPlan(f, width, skip)) <==> LeftToRight(NamedPlan(f, width, skip))
  {
    TableDescribes(f, width, skip);
    FamilyOfPlan(FamilyOf(f), width, skip);
    FamilyDivides(FamilyOf(f), width, skip);
  }
}
