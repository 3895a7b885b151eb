/** The combining functions of combine.c by name, each with its plan and the laws it needs. */
module CombineTable {
  import opened Combine
  import opened CombineLaws
  import opened Combiners

  /** All but the two that work on halves, which are not plans. */
  datatype Function =
    | Combine1 | Combine2 | Combine3 | Combine3w | Combine4 | Combine4b | Combine4p | Combine5 | Combine5p
    | Unroll2aw | Unroll3a | Unroll4a | Unroll5a | Unroll6a | Unroll7a | Unroll8a | Unroll9a | Unroll10a
    | Unroll16a | Unroll2 | Unroll3 | Unroll4 | Unroll8 | Unroll16 | Combine6 | Unroll4x2a | Unroll8x2a
    | Unroll3x3a | Unroll4x4a | Unroll8x4a | Unroll5x5a | Unroll6x6a | Unroll7x7a | Unroll8x8a | Unroll9x9a
    | Unroll10x10a | Unroll8x2 | Unroll9x3 | Unroll8x8 | Unroll12x6a | Unroll12x12a | Unroll16x16a
    | Unroll20x20a | Unroll8x4 | Combine7 | Unroll3aa | Unroll4aa | Unroll5aa | Unroll6aa | Unroll7aa
    | Unroll8aa | Unroll9aa | Unroll10aa | Unroll12aa | SimdV1 | SimdV2 | SimdV4 | SimdV8 | SimdV10 | SimdV12
    | SimdV2a | SimdV4a | SimdV8a

  /** The ways in which they differ from combine1. */
  datatype Family =
    | Nested(stride: nat)                   // one accumulator, left to right
    | Regrouped(shape: Shape)               // one accumulator, the elements of a step combined first
    | Several(stride: nat, shape: Shape)    // several accumulators
    | Alternating(stride: nat, shape: Shape)
    | EightByFour
    | Vectors(shape: Shape)                 // vector accumulators
    | VectorsRegrouped(shape: Shape)

  /** Steps and accumulators are enough for the description to make sense. */
  predicate Sensible(fam: Family) {
    match fam
    case Nested(stride) => stride >= 1
    case Regrouped(s) => s.S?
    case Several(stride, s) => stride >= Size(s) && s.S?
    case Alternating(stride, s) => stride >= 12 && stride >= Size(s) && s.S?
    case _ => true
  }

  function FamilyOf(f: Function): (fam: Family)
    ensures Sensible(fam)
  {
    match f
    case Combine1 | Combine2 | Combine3 | Combine3w | Combine4 | Combine4b | Combine4p => Nested(1)
    case Combine5 | Combine5p | Unroll2aw | Unroll2 => Nested(2)
    case Unroll3a | Unroll3 => Nested(3)
    case Unroll4a | Unroll4 => Nested(4)
    case Unroll5a => Nested(5)
    case Unroll6a => Nested(6)
    case Unroll7a => Nested(7)
    case Unroll8a | Unroll8 => Nested(8)
    case Unroll9a => Nested(9)
    case Unroll10a => Nested(10)
    case Unroll16a | Unroll16 => Nested(16)
    case Combine6 => Several(2, X2)
    case Unroll4x2a => Several(4, X2)
    case Unroll8x2a | Unroll8x2 => Several(8, X2)
    case Unroll3x3a => Several(3, X3)
    case Unroll4x4a => Several(4, X4)
    case Unroll8x4a => Several(8, X4Left)
    case Unroll5x5a => Several(5, X5)
    case Unroll6x6a => Several(6, X6)
    case Unroll7x7a => Several(7, X7)
    case Unroll8x8a => Several(8, X8)
    case Unroll9x9a => Several(9, X9)
    case Unroll10x10a => Several(10, X10)
    case Unroll9x3 => Several(9, X3)
    case Unroll8x8 => Several(8, X8Left)
    case Unroll12x6a => Alternating(12, X6)
    case Unroll12x12a => Alternating(12, X12)
    case Unroll16x16a => Alternating(16, X16)
    case Unroll20x20a => Alternating(20, X20)
    case Unroll8x4 => EightByFour
    case Combine7 => Regrouped(X2)
    case Unroll3aa => Regrouped(X3)
    case Unroll4aa => Regrouped(X4)
    case Unroll5aa => Regrouped(X5Pairs)
    case Unroll6aa => Regrouped(X6)
    case Unroll7aa => Regrouped(X7)
    case Unroll8aa => Regrouped(X8)
    case Unroll9aa => Regrouped(X9)
    case Unroll10aa => Regrouped(X10Pairs)
    case Unroll12aa => Regrouped(X12Fours)
    case SimdV1 => Vectors(X)
    case SimdV2 => Vectors(X2)
    case SimdV4 => Vectors(X4)
    case SimdV8 => Vectors(X8Chain)
    case SimdV10 => Vectors(X10Chain)
    case SimdV12 => Vectors(X12)
    case SimdV2a => VectorsRegrouped(X2)
    case SimdV4a => VectorsRegrouped(X4)
    case SimdV8a => VectorsRegrouped(X8)
  }

  /** `width` is the number of lanes of a vector, `skip` the number of elements before alignment. */
  function PlanFor(fam: Family, width: nat, skip: nat): Plan
    requires Sensible(fam)
  {
    match fam
    case Nested(stride) => LeftNested(stride)
    case Regrouped(s) => Reassociated(s)
    case Several(stride, s) => Multi(stride, s)
    case Alternating(stride, s) => MultiZigzag(stride, s)
    case EightByFour => UNROLL8X4
    case Vectors(s) => Simd(width, s, skip)
    case VectorsRegrouped(s) => SimdReassociated(width, s, skip)
  }

  /** The laws a family needs. */
  ghost predicate Lawful<T(!new)>(op: (T, T) -> T, ident: T, fam: Family) {
    match fam
    case Nested(_) => true
    case Regrouped(_) => Associative(op)
    case _ => CommutativeMonoid(op, ident)
  }

  lemma FamilyAgrees<T(!new)>(op: (T, T) -> T, ident: T, fam: Family, width: nat, skip: nat, data: seq<T>)
    requires Sensible(fam) && width >= 1 && Lawful(op, ident, fam)
    ensures WellFormed(PlanFor(fam, width, skip))
    ensures Result(op, ident, PlanFor(fam, width, skip), data) == Fold(op, ident, data)
  {
    match fam
    case Nested(stride) => LeftNestedIsFold(op, ident, stride, data);
    case Regrouped(s) => ReassociatedAgrees(op, ident, s, data);
    case Several(stride, s) => MultiAgrees(op, ident, stride, s, data);
    case Alternating(stride, s) => MultiAgrees(op, ident, stride, s, data);
    case EightByFour => MultiAgrees(op, ident, 1, X, data);
    case Vectors(s) => SimdAgrees(op, ident, width, s, skip, data);
    case VectorsRegrouped(s) => SimdAgrees(op, ident, width, s, skip, data);
  }

  lemma FamilyExactly<T(!new)>(op: (T, T) -> T, ident: T, fam: Family, width: nat, skip: nat)
    requires Sensible(fam) && width >= 2 && Unital(op, ident)
    ensures WellFormed(PlanFor(fam, width, skip))
    ensures Agrees(op, ident, PlanFor(fam, width, skip)) <==> Lawful(op, ident, fam)
  {
    match fam
    case Nested(stride) =>
      forall data: seq<T> ensures Result(op, ident, LeftNested(stride), data) == Fold(op, ident, data) {
        LeftNestedIsFold(op, ident, stride, data);
      }
    case Regrouped(s) => ReassociatedExactly(op, ident, s);
    case Several(stride, s) => MultiExactly(op, ident, stride, s);
    case Alternating(stride, s) => MultiZigzagExactly(op, ident, stride, s);
    case EightByFour => Unroll8x4Exactly(op, ident);
    case Vectors(s) => SimdExactly(op, ident, width, s, skip);
    case VectorsRegrouped(s) => SimdReassociatedExactly(op, ident, width, s, skip);
  }

  // ----- The laws, read off a plan -----

  /** One accumulator, which takes the elements one at a time. */
  predicate LeftToRight(p: Plan) {
    p.accs == 1 && forall u :: 0 <= u < |p.updates| ==> p.updates[u].e.Leaf?
  }

  /** No law if the elements are taken one at a time into one accumulator; associativity if some are
      combined with each other first; a commutative monoid if there is more than one accumulator. */
  ghost predicate Laws<T(!new)>(op: (T, T) -> T, ident: T, p: Plan) {
    if LeftToRight(p) then true else if p.accs == 1 then Associative(op) else CommutativeMonoid(op, ident)
  }

  lemma FamilyOfPlan(fam: Family, width: nat, skip: nat)
    requires Sensible(fam) && width >= 1
    ensures var p := PlanFor(fam, width, skip);
      (LeftToRight(p) <==> fam.Nested?) && (p.accs == 1 <==> fam.Nested? || fam.Regrouped?)
  {
    var p := PlanFor(fam, width, skip);
    match fam
    case Nested(_) =>
    case Regrouped(s) => assert p.updates[0].e.Node?;
    case Several(_, s) =>
    case Alternating(_, s) =>
    case EightByFour =>
    case Vectors(s) => AtLeastWidth(Size(s), width, Size(s) * width);
    case VectorsRegrouped(_) =>
  }

  lemma AtLeastWidth(vectors: nat, width: nat, n: nat)
    requires vectors >= 1 && n == vectors * width
    ensures n >= width
  {
    assert n == width + (vectors - 1) * width;
  }
}
