/** The loops of combine.c, one by one, as they are written; and the proof that the table of families
    describes each of them. */
module WrittenLoops {
  import opened Arithmetic
  import opened Combine
  import opened CombineLaws
  import opened CombineTable
  import opened Combiners

  /** The unrolled loop of a function, what finishes it, and what is stored.

      Scalars: `stride` elements per turn and `accs` accumulators.  An assignment acc_t = acc_t OP data[i + j]
      is listed as (t, j), in the order of the text; (acc OP a) OP b is two assignments.  The remaining
      elements go to accumulator `tail`, and `final`, over the accumulators, is stored.
      Grouped: one assignment acc = acc OP step per turn, where `step` is over the elements of the turn.
      InVectors, GroupedInVectors: the same over whole vectors, lane by lane.  Single elements go to a scalar of
      their own, before the data is aligned and after the last full turn, and at the end the scalar takes
      in every lane of `final`, in order. */
  datatype Loop =
    | Scalars(stride: nat, accs: nat, assignments: seq<(nat, nat)>, tail: nat, final: Expr)
    | Grouped(stride: nat, step: Expr)
    | InVectors(stride: nat, accs: nat, assignments: seq<(nat, nat)>, final: Expr)
    | GroupedInVectors(stride: nat, step: Expr)

  function Two(i: nat, j: nat): Expr { Node(Leaf(i), Leaf(j)) }

  /** One accumulator, left to right. */
  function OneByOne(f: Function): Loop
    requires f.Combine1? || f.Combine2? || f.Combine3? || f.Combine3w? || f.Combine4? || f.Combine4b? ||
        f.Combine4p? || f.Combine5? || f.Combine5p? || f.Unroll2aw? || f.Unroll2? || f.Unroll3a? || f.Unroll3? ||
        f.Unroll4a? || f.Unroll4? || f.Unroll5a? || f.Unroll6a? || f.Unroll7a? || f.Unroll8a? || f.Unroll8? ||
        f.Unroll9a? || f.Unroll10a? || f.Unroll16a? || f.Unroll16?
  {
    match f
    case Combine1 | Combine2 | Combine3 | Combine3w | Combine4 | Combine4b | Combine4p =>
      Scalars(1, 1, [(0, 0)], 0, Leaf(0))
    case Combine5 | Combine5p | Unroll2aw | Unroll2 => Scalars(2, 1, [(0, 0), (0, 1)], 0, Leaf(0))
    case Unroll3a | Unroll3 => Scalars(3, 1, [(0, 0), (0, 1), (0, 2)], 0, Leaf(0))
    case Unroll4a | Unroll4 => Scalars(4, 1, [(0, 0), (0, 1), (0, 2), (0, 3)], 0, Leaf(0))
    case Unroll5a => Scalars(5, 1, [(0, 0), (0, 1), (0, 2), (0, 3), (0, 4)], 0, Leaf(0))
    case Unroll6a => Scalars(6, 1, [(0, 0), (0, 1), (0, 2), (0, 3), (0, 4), (0, 5)], 0, Leaf(0))
    case Unroll7a => Scalars(7, 1, [(0, 0), (0, 1), (0, 2), (0, 3), (0, 4), (0, 5), (0, 6)], 0, Leaf(0))
    case Unroll8a | Unroll8 =>
      Scalars(8, 1, [(0, 0), (0, 1), (0, 2), (0, 3), (0, 4), (0, 5), (0, 6), (0, 7)], 0, Leaf(0))
    case Unroll9a =>
      Scalars(9, 1, [(0, 0), (0, 1), (0, 2), (0, 3), (0, 4), (0, 5), (0, 6), (0, 7), (0, 8)], 0, Leaf(0))
    case Unroll10a =>
      Scalars(10, 1, [(0, 0), (0, 1), (0, 2), (0, 3), (0, 4), (0, 5), (0, 6), (0, 7), (0, 8), (0, 9)], 0, Leaf(0))
    case Unroll16a | Unroll16 =>
      Scalars(16, 1, [(0, 0), (0, 1), (0, 2), (0, 3), (0, 4), (0, 5), (0, 6), (0, 7), (0, 8), (0, 9), (0, 10),
        (0, 11), (0, 12), (0, 13), (0, 14), (0, 15)], 0, Leaf(0))
  }

  /** Several accumulators, the elements in order. */
  function SeveralAccumulators(f: Function): Loop
    requires f.Combine6? || f.Unroll4x2a? || f.Unroll8x2a? || f.Unroll8x2? || f.Unroll3x3a? || f.Unroll4x4a? ||
        f.Unroll8x4a? || f.Unroll5x5a? || f.Unroll6x6a? || f.Unroll7x7a? || f.Unroll8x8a? || f.Unroll9x9a? ||
        f.Unroll10x10a? || f.Unroll9x3? || f.Unroll8x4? || f.Unroll8x8?
  {
    match f
    case Combine6 => Scalars(2, 2, [(0, 0), (1, 1)], 0, Two(0, 1))
    case Unroll4x2a => Scalars(4, 2, [(0, 0), (1, 1), (0, 2), (1, 3)], 0, Two(0, 1))
    case Unroll8x2a | Unroll8x2 =>
      Scalars(8, 2, [(0, 0), (1, 1), (0, 2), (1, 3), (0, 4), (1, 5), (0, 6), (1, 7)], 0, Two(0, 1))
    case Unroll3x3a => Scalars(3, 3, [(0, 0), (1, 1), (2, 2)], 0, Node(Two(0, 1), Leaf(2)))
    case Unroll4x4a => Scalars(4, 4, [(0, 0), (1, 1), (2, 2), (3, 3)], 0, Node(Two(0, 1), Two(2, 3)))
    case Unroll8x4a =>
      Scalars(8, 4, [(0, 0), (1, 1), (2, 2), (3, 3), (0, 4), (1, 5), (2, 6), (3, 7)], 0, Node(Node(Two(0, 1),
        Leaf(2)), Leaf(3)))
    case Unroll5x5a =>
      Scalars(5, 5, [(0, 0), (1, 1), (2, 2), (3, 3), (4, 4)], 0, Node(Two(0, 1), Node(Two(2, 3), Leaf(4))))
    case Unroll6x6a =>
      Scalars(6, 6, [(0, 0), (1, 1), (2, 2), (3, 3), (4, 4), (5, 5)], 0, Node(Node(Two(0, 1), Two(2, 3)),
        Two(4, 5)))
    case Unroll7x7a =>
      Scalars(7, 7, [(0, 0), (1, 1), (2, 2), (3, 3), (4, 4), (5, 5), (6, 6)], 0, Node(Node(Two(0, 1), Two(2, 3)),
        Node(Two(4, 5), Leaf(6))))
    case Unroll8x8a =>
      Scalars(8, 8, [(0, 0), (1, 1), (2, 2), (3, 3), (4, 4), (5, 5), (6, 6), (7, 7)], 0, Node(Node(Two(0, 1),
        Two(2, 3)), Node(Two(4, 5), Two(6, 7))))
    case Unroll9x9a =>
      Scalars(9, 9, [(0, 0), (1, 1), (2, 2), (3, 3), (4, 4), (5, 5), (6, 6), (7, 7), (8, 8)], 0,
        Node(Node(Two(0, 1), Two(2, 3)), Node(Node(Two(4, 5), Two(6, 7)), Leaf(8))))
    case Unroll10x10a =>
      Scalars(10, 10, [(0, 0), (1, 1), (2, 2), (3, 3), (4, 4), (5, 5), (6, 6), (7, 7), (8, 8), (9, 9)], 0,
        Node(Node(Node(Two(0, 1), Two(2, 3)), Node(Two(4, 5), Two(6, 7))), Two(8, 9)))
    case Unroll9x3 =>
      Scalars(9, 3, [(0, 0), (1, 1), (2, 2), (0, 3), (1, 4), (2, 5), (0, 6), (1, 7), (2, 8)], 0, Node(Two(0, 1),
        Leaf(2)))
    case Unroll8x4 =>
      Scalars(8, 4, [(0, 0), (1, 1), (2, 2), (3, 3), (0, 4), (1, 5), (2, 6), (3, 7)], 3, Node(Node(Two(3, 0),
        Leaf(1)), Leaf(2)))
    case Unroll8x8 =>
      Scalars(8, 8, [(0, 0), (1, 1), (2, 2), (3, 3), (4, 4), (5, 5), (6, 6), (7, 7)], 0,
        Node(Node(Node(Node(Node(Node(Two(0, 1), Leaf(2)), Leaf(3)), Leaf(4)), Leaf(5)), Leaf(6)), Leaf(7)))
  }

  /** Several accumulators, the elements not in order. */
  function OutOfOrder(f: Function): Loop
    requires f.Unroll12x6a? || f.Unroll12x12a? || f.Unroll16x16a? || f.Unroll20x20a?
  {
    match f
    case Unroll12x6a =>
      Scalars(12, 6, [(0, 0), (0, 6), (1, 1), (1, 7), (2, 2), (2, 8), (3, 3), (3, 9), (4, 4), (4, 10), (5, 5),
        (5, 11)], 0, Node(Node(Two(0, 1), Two(2, 3)), Two(4, 5)))
    case Unroll12x12a =>
      Scalars(12, 12, [(0, 0), (6, 6), (1, 1), (7, 7), (2, 2), (8, 8), (3, 3), (9, 9), (4, 4), (10, 10), (5, 5),
        (11, 11)], 0, Node(Node(Node(Node(Node(Two(0, 1), Two(2, 3)), Two(4, 5)), Two(6, 7)), Two(8, 9)),
        Two(10, 11)))
    case Unroll16x16a =>
      Scalars(16, 16, [(0, 0), (6, 6), (1, 1), (7, 7), (2, 2), (8, 8), (3, 3), (9, 9), (4, 4), (10, 10), (5, 5),
        (11, 11), (12, 12), (13, 13), (14, 14), (15, 15)], 0, Node(Node(Node(Node(Two(0, 1), Two(2, 3)), Two(4, 5)),
        Node(Node(Two(6, 7), Two(8, 9)), Two(10, 11))), Node(Two(12, 13), Two(14, 15))))
    case Unroll20x20a =>
      Scalars(20, 20, [(0, 0), (6, 6), (1, 1), (7, 7), (2, 2), (8, 8), (3, 3), (9, 9), (4, 4), (10, 10), (5, 5),
        (11, 11), (12, 12), (13, 13), (14, 14), (15, 15), (16, 16), (17, 17), (18, 18), (19, 19)], 0,
        Node(Node(Node(Node(Two(0, 1), Two(2, 3)), Two(4, 5)), Node(Node(Two(6, 7), Two(8, 9)), Two(10, 11))),
        Node(Node(Two(12, 13), Two(14, 15)), Node(Two(16, 17), Two(18, 19)))))
  }

  /** One accumulator, the elements of a turn combined first. */
  function StepFirst(f: Function): Loop
    requires f.Combine7? || f.Unroll3aa? || f.Unroll4aa? || f.Unroll5aa? || f.Unroll6aa? || f.Unroll7aa? ||
        f.Unroll8aa? || f.Unroll9aa? || f.Unroll10aa? || f.Unroll12aa?
  {
    match f
    case Combine7 => Grouped(2, Two(0, 1))
    case Unroll3aa => Grouped(3, Node(Two(0, 1), Leaf(2)))
    case Unroll4aa => Grouped(4, Node(Two(0, 1), Two(2, 3)))
    case Unroll5aa => Grouped(5, Node(Node(Two(0, 1), Two(2, 3)), Leaf(4)))
    case Unroll6aa => Grouped(6, Node(Node(Two(0, 1), Two(2, 3)), Two(4, 5)))
    case Unroll7aa => Grouped(7, Node(Node(Two(0, 1), Two(2, 3)), Node(Two(4, 5), Leaf(6))))
    case Unroll8aa => Grouped(8, Node(Node(Two(0, 1), Two(2, 3)), Node(Two(4, 5), Two(6, 7))))
    case Unroll9aa => Grouped(9, Node(Node(Two(0, 1), Two(2, 3)), Node(Node(Two(4, 5), Two(6, 7)), Leaf(8))))
    case Unroll10aa => Grouped(10, Node(Node(Two(0, 1), Two(2, 3)), Node(Node(Two(4, 5), Two(6, 7)), Two(8, 9))))
    case Unroll12aa =>
      Grouped(12, Node(Node(Node(Two(0, 1), Two(2, 3)), Node(Two(4, 5), Two(6, 7))), Node(Two(8, 9), Two(10, 11))))
  }

  /** Vector accumulators. */
  function OfVectors(f: Function): Loop
    requires f.SimdV1? || f.SimdV2? || f.SimdV4? || f.SimdV8? || f.SimdV10? || f.SimdV12?
  {
    match f
    case SimdV1 => InVectors(1, 1, [(0, 0)], Leaf(0))
    case SimdV2 => InVectors(2, 2, [(0, 0), (1, 1)], Two(0, 1))
    case SimdV4 => InVectors(4, 4, [(0, 0), (1, 1), (2, 2), (3, 3)], Node(Two(0, 1), Two(2, 3)))
    case SimdV8 =>
      InVectors(8, 8, [(0, 0), (1, 1), (2, 2), (3, 3), (4, 4), (5, 5), (6, 6), (7, 7)], Node(Node(Node(Two(0, 1),
        Two(2, 3)), Two(4, 5)), Two(6, 7)))
    case SimdV10 =>
      InVectors(10, 10, [(0, 0), (1, 1), (2, 2), (3, 3), (4, 4), (5, 5), (6, 6), (7, 7), (8, 8), (9, 9)],
        Node(Node(Node(Node(Two(0, 1), Two(2, 3)), Two(4, 5)), Two(6, 7)), Two(8, 9)))
    case SimdV12 =>
      InVectors(12, 12, [(0, 0), (1, 1), (2, 2), (3, 3), (4, 4), (5, 5), (6, 6), (7, 7), (8, 8), (9, 9), (10, 10),
        (11, 11)], Node(Node(Node(Node(Node(Two(0, 1), Two(2, 3)), Two(4, 5)), Two(6, 7)), Two(8, 9)), Two(10, 11)))
  }

  /** One vector accumulator, the vectors of a turn combined first. */
  function VectorsFirst(f: Function): Loop
    requires f.SimdV2a? || f.SimdV4a? || f.SimdV8a?
  {
    match f
    case SimdV2a => GroupedInVectors(2, Two(0, 1))
    case SimdV4a => GroupedInVectors(4, Node(Two(0, 1), Two(2, 3)))
    case SimdV8a => GroupedInVectors(8, Node(Node(Two(0, 1), Two(2, 3)), Node(Two(4, 5), Two(6, 7))))
  }

  /** The loop of a function. */
  function Written(f: Function): Loop {
    match f
    case Combine1 | Combine2 | Combine3 | Combine3w | Combine4 | Combine4b | Combine4p | Combine5 | Combine5p |
        Unroll2aw | Unroll2 | Unroll3a | Unroll3 | Unroll4a | Unroll4 | Unroll5a | Unroll6a | Unroll7a | Unroll8a |
        Unroll8 | Unroll9a | Unroll10a | Unroll16a | Unroll16 => OneByOne(f)
    case Combine6 | Unroll4x2a | Unroll8x2a | Unroll8x2 | Unroll3x3a | Unroll4x4a | Unroll8x4a | Unroll5x5a |
        Unroll6x6a | Unroll7x7a | Unroll8x8a | Unroll9x9a | Unroll10x10a | Unroll9x3 | Unroll8x4 | Unroll8x8 =>
      SeveralAccumulators(f)
    case Unroll12x6a | Unroll12x12a | Unroll16x16a | Unroll20x20a => OutOfOrder(f)
    case Combine7 | Unroll3aa | Unroll4aa | Unroll5aa | Unroll6aa | Unroll7aa | Unroll8aa | Unroll9aa | Unroll10aa |
        Unroll12aa => StepFirst(f)
    case SimdV1 | SimdV2 | SimdV4 | SimdV8 | SimdV10 | SimdV12 => OfVectors(f)
    case SimdV2a | SimdV4a | SimdV8a => VectorsFirst(f)
  }

  // ----- A loop as a plan -----

  function Assigned(ps: seq<(nat, nat)>): (us: seq<Update>)
    ensures |us| == |ps| && forall k :: 0 <= k < |us| ==> us[k] == Update(ps[k].0, Leaf(ps[k].1))
  {
    seq(|ps|, k requires 0 <= k < |ps| => Update(ps[k].0, Leaf(ps[k].1)))
  }

  /** An assignment of vectors is one for each lane. */
  function InLanes(us: seq<Update>, width: nat): seq<Update> {
    if us == [] then []
    else
      var u := us[|us| - 1];
      InLanes(us[..|us| - 1], width) + seq(width, (l: nat) => Update(u.target * width + l, InLane(u.e, width, l)))
  }

  /** scalar OP v[0] OP v[1] ... for the lanes below `lanes` of the vector v. */
  function TakeLanes(v: Expr, width: nat, lanes: nat, scalar: nat): Expr {
    if lanes == 0 then Leaf(scalar) else Node(TakeLanes(v, width, lanes - 1, scalar), InLane(v, width, lanes - 1))
  }

  function VectorPlan(stride: nat, accs: nat, us: seq<Update>, final: Expr, width: nat, skip: nat): Plan {
    Plan(skip, stride * width, accs * width + 1, InLanes(us, width), accs * width,
         TakeLanes(final, width, width, accs * width))
  }

  /** What a loop does, for vectors of `width` lanes and `skip` elements before the data is aligned. */
  function PlanOf(loop: Loop, width: nat, skip: nat): Plan {
    match loop
    case Scalars(stride, accs, ps, tail, final) => Plan(0, stride, accs, Assigned(ps), tail, final)
    case Grouped(stride, step) => Plan(0, stride, 1, [Update(0, step)], 0, Leaf(0))
    case InVectors(stride, accs, ps, final) => VectorPlan(stride, accs, Assigned(ps), final, width, skip)
    case GroupedInVectors(stride, step) => VectorPlan(stride, 1, [Update(0, step)], Leaf(0), width, skip)
  }

  // ----- The table -----

  lemma NestedLoop(ps: seq<(nat, nat)>, n: nat)
    requires |ps| == n >= 1 && forall k :: 0 <= k < n ==> ps[k] == (0, k)
    ensures Assigned(ps) == LeftNested(n).updates
  {
  }

  /** Assignment k is to accumulator order[k] modulo their number, and takes element order[k]. */
  lemma SeveralLoop(ps: seq<(nat, nat)>, order: seq<nat>, accs: nat)
    requires accs >= 1 && |ps| == |order| && forall k :: 0 <= k < |ps| ==> ps[k] == (order[k] % accs, order[k])
    ensures Assigned(ps) == InterleavedUpdates(order, accs)
  {
  }

  /** The same with an accumulator for every element of a turn. */
  lemma OwnLoop(ps: seq<(nat, nat)>, order: seq<nat>, accs: nat)
    requires accs >= 1 && |ps| == |order|
    requires forall k :: 0 <= k < |ps| ==> ps[k] == (order[k], order[k]) && order[k] < accs
    ensures Assigned(ps) == InterleavedUpdates(order, accs)
  {
  }

  /** `ok` holds of every loop with a family that describes it.  The lemmas below speak of such an `ok`
      so that their proofs need not look into plans. */
  ghost predicate HoldsOfPlans(ok: (Loop, Family) -> bool, width: nat, skip: nat) {
    forall loop: Loop, fam: Family {:trigger PlanOf(loop, width, skip), PlanFor(fam, width, skip)} ::
      Sensible(fam) && PlanOf(loop, width, skip) == PlanFor(fam, width, skip) ==> ok(loop, fam)
  }

  // ----- One accumulator -----

  lemma ByOne(f: Function, width: nat, skip: nat, ok: (Loop, Family) -> bool)
    requires f.Combine1? || f.Combine2? || f.Combine3? || f.Combine3w? || f.Combine4? || f.Combine4b? || f.Combine4p?
    requires HoldsOfPlans(ok, width, skip)
    ensures ok(Written(f), FamilyOf(f))
  {
    NestedLoop(OneByOne(f).assignments, OneByOne(f).stride);
    assert PlanOf(OneByOne(f), width, skip) == PlanFor(FamilyOf(f), width, skip);
  }

  lemma ByTwoOrThree(f: Function, width: nat, skip: nat, ok: (Loop, Family) -> bool)
    requires f.Combine5? || f.Combine5p? || f.Unroll2aw? || f.Unroll2? || f.Unroll3a? || f.Unroll3?
    requires HoldsOfPlans(ok, width, skip)
    ensures ok(Written(f), FamilyOf(f))
  {
    NestedLoop(OneByOne(f).assignments, OneByOne(f).stride);
    assert PlanOf(OneByOne(f), width, skip) == PlanFor(FamilyOf(f), width, skip);
  }

  lemma ByFourToSix(f: Function, width: nat, skip: nat, ok: (Loop, Family) -> bool)
    requires f.Unroll4a? || f.Unroll4? || f.Unroll5a? || f.Unroll6a?
    requires HoldsOfPlans(ok, width, skip)
    ensures ok(Written(f), FamilyOf(f))
  {
    NestedLoop(OneByOne(f).assignments, OneByOne(f).stride);
    assert PlanOf(OneByOne(f), width, skip) == PlanFor(FamilyOf(f), width, skip);
  }

  lemma BySevenOrEight(f: Function, width: nat, skip: nat, ok: (Loop, Family) -> bool)
    requires f.Unroll7a? || f.Unroll8a? || f.Unroll8?
    requires HoldsOfPlans(ok, width, skip)
    ensures ok(Written(f), FamilyOf(f))
  {
    NestedLoop(OneByOne(f).assignments, OneByOne(f).stride);
    assert PlanOf(OneByOne(f), width, skip) == PlanFor(FamilyOf(f), width, skip);
  }

  lemma ByNineOrTen(f: Function, width: nat, skip: nat, ok: (Loop, Family) -> bool)
    requires f.Unroll9a? || f.Unroll10a?
    requires HoldsOfPlans(ok, width, skip)
    ensures ok(Written(f), FamilyOf(f))
  {
    NestedLoop(OneByOne(f).assignments, OneByOne(f).stride);
    assert PlanOf(OneByOne(f), width, skip) == PlanFor(FamilyOf(f), width, skip);
  }

  lemma BySixteen(f: Function, width: nat, skip: nat, ok: (Loop, Family) -> bool)
    requires f.Unroll16a? || f.Unroll16?
    requires HoldsOfPlans(ok, width, skip)
    ensures ok(Written(f), FamilyOf(f))
  {
    NestedLoop(OneByOne(f).assignments, OneByOne(f).stride);
    assert PlanOf(OneByOne(f), width, skip) == PlanFor(FamilyOf(f), width, skip);
  }

  lemma OneByOneDescribed(f: Function, width: nat, skip: nat, ok: (Loop, Family) -> bool)
    requires FamilyOf(f).Nested?
    requires HoldsOfPlans(ok, width, skip)
    ensures ok(Written(f), FamilyOf(f))
  {
    match f
    case Unroll16a | Unroll16 => BySixteen(f, width, skip, ok);
    case Unroll9a | Unroll10a => ByNineOrTen(f, width, skip, ok);
    case Unroll7a | Unroll8a | Unroll8 => BySevenOrEight(f, width, skip, ok);
    case Unroll4a | Unroll4 | Unroll5a | Unroll6a => ByFourToSix(f, width, skip, ok);
    case Combine5 | Combine5p | Unroll2aw | Unroll2 | Unroll3a | Unroll3 => ByTwoOrThree(f, width, skip, ok);
    case _ => ByOne(f, width, skip, ok);
  }

  // ----- Several accumulators -----

  lemma OwnUpToFive(f: Function, width: nat, skip: nat, ok: (Loop, Family) -> bool)
    requires f.Combine6? || f.Unroll3x3a? || f.Unroll4x4a? || f.Unroll5x5a?
    requires HoldsOfPlans(ok, width, skip)
    ensures ok(Written(f), FamilyOf(f))
  {
    OwnLoop(SeveralAccumulators(f).assignments, Iota(FamilyOf(f).stride), Size(FamilyOf(f).shape));
    assert PlanOf(SeveralAccumulators(f), width, skip) == PlanFor(FamilyOf(f), width, skip);
  }

  lemma OwnSixOrSeven(f: Function, width: nat, skip: nat, ok: (Loop, Family) -> bool)
    requires f.Unroll6x6a? || f.Unroll7x7a?
    requires HoldsOfPlans(ok, width, skip)
    ensures ok(Written(f), FamilyOf(f))
  {
    OwnLoop(SeveralAccumulators(f).assignments, Iota(FamilyOf(f).stride), Size(FamilyOf(f).shape));
    assert PlanOf(SeveralAccumulators(f), width, skip) == PlanFor(FamilyOf(f), width, skip);
  }

  lemma OwnEight(f: Function, width: nat, skip: nat, ok: (Loop, Family) -> bool)
    requires f.Unroll8x8a? || f.Unroll8x8?
    requires HoldsOfPlans(ok, width, skip)
    ensures ok(Written(f), FamilyOf(f))
  {
    OwnLoop(SeveralAccumulators(f).assignments, Iota(FamilyOf(f).stride), Size(FamilyOf(f).shape));
    assert PlanOf(SeveralAccumulators(f), width, skip) == PlanFor(FamilyOf(f), width, skip);
  }

  lemma OwnNineOrTen(f: Function, width: nat, skip: nat, ok: (Loop, Family) -> bool)
    requires f.Unroll9x9a? || f.Unroll10x10a?
    requires HoldsOfPlans(ok, width, skip)
    ensures ok(Written(f), FamilyOf(f))
  {
    OwnLoop(SeveralAccumulators(f).assignments, Iota(FamilyOf(f).stride), Size(FamilyOf(f).shape));
    assert PlanOf(SeveralAccumulators(f), width, skip) == PlanFor(FamilyOf(f), width, skip);
  }

  lemma InTwos(f: Function, width: nat, skip: nat, ok: (Loop, Family) -> bool)
    requires f.Unroll4x2a? || f.Unroll8x2a? || f.Unroll8x2?
    requires HoldsOfPlans(ok, width, skip)
    ensures ok(Written(f), FamilyOf(f))
  {
    SeveralLoop(SeveralAccumulators(f).assignments, Iota(FamilyOf(f).stride), Size(FamilyOf(f).shape));
    assert PlanOf(SeveralAccumulators(f), width, skip) == PlanFor(FamilyOf(f), width, skip);
  }

  lemma EightInFours(width: nat, skip: nat, ok: (Loop, Family) -> bool)
    requires HoldsOfPlans(ok, width, skip)
    ensures ok(Written(Unroll8x4a), FamilyOf(Unroll8x4a))
  {
    SeveralLoop(SeveralAccumulators(Unroll8x4a).assignments, Iota(8), 4);
    assert PlanOf(SeveralAccumulators(Unroll8x4a), width, skip) == PlanFor(Several(8, X4Left), width, skip);
  }

  lemma NineInThrees(width: nat, skip: nat, ok: (Loop, Family) -> bool)
    requires HoldsOfPlans(ok, width, skip)
    ensures ok(Written(Unroll9x3), FamilyOf(Unroll9x3))
  {
    SeveralLoop(SeveralAccumulators(Unroll9x3).assignments, Iota(9), 3);
    assert PlanOf(SeveralAccumulators(Unroll9x3), width, skip) == PlanFor(Several(9, X3), width, skip);
  }

  lemma EightInFoursFromThree(width: nat, skip: nat, ok: (Loop, Family) -> bool)
    requires HoldsOfPlans(ok, width, skip)
    ensures ok(Written(Unroll8x4), FamilyOf(Unroll8x4))
  {
    SeveralLoop(SeveralAccumulators(Unroll8x4).assignments, Iota(8), 4);
    assert PlanOf(SeveralAccumulators(Unroll8x4), width, skip) == PlanFor(EightByFour, width, skip);
  }

  lemma OwnDescribed(f: Function, width: nat, skip: nat, ok: (Loop, Family) -> bool)
    requires f.Combine6? || f.Unroll3x3a? || f.Unroll4x4a? || f.Unroll5x5a? || f.Unroll6x6a? || f.Unroll7x7a? ||
        f.Unroll8x8a? || f.Unroll8x8? || f.Unroll9x9a? || f.Unroll10x10a?
    requires HoldsOfPlans(ok, width, skip)
    ensures ok(Written(f), FamilyOf(f))
  {
    match f
    case Unroll9x9a | Unroll10x10a => OwnNineOrTen(f, width, skip, ok);
    case Unroll8x8a | Unroll8x8 => OwnEight(f, width, skip, ok);
    case Unroll6x6a | Unroll7x7a => OwnSixOrSeven(f, width, skip, ok);
    case _ => OwnUpToFive(f, width, skip, ok);
  }

  lemma SharedDescribed(f: Function, width: nat, skip: nat, ok: (Loop, Family) -> bool)
    requires f.Unroll4x2a? || f.Unroll8x2a? || f.Unroll8x2? || f.Unroll8x4a? || f.Unroll9x3? || f.Unroll8x4?
    requires HoldsOfPlans(ok, width, skip)
    ensures ok(Written(f), FamilyOf(f))
  {
    match f
    case Unroll8x4 => EightInFoursFromThree(width, skip, ok);
    case Unroll9x3 => NineInThrees(width, skip, ok);
    case Unroll8x4a => EightInFours(width, skip, ok);
    case _ => InTwos(f, width, skip, ok);
  }

  lemma SeveralAccumulatorsDescribed(f: Function, width: nat, skip: nat, ok: (Loop, Family) -> bool)
    requires FamilyOf(f).Several? || FamilyOf(f).EightByFour?
    requires HoldsOfPlans(ok, width, skip)
    ensures ok(Written(f), FamilyOf(f))
  {
    match f
    case Unroll4x2a | Unroll8x2a | Unroll8x2 | Unroll8x4a | Unroll9x3 | Unroll8x4 =>
      SharedDescribed(f, width, skip, ok);
    case _ => OwnDescribed(f, width, skip, ok);
  }

  lemma TwelveInSixesLoop(width: nat, skip: nat)
    ensures PlanOf(OutOfOrder(Unroll12x6a), width, skip) == PlanFor(Alternating(12, X6), width, skip)
  {
    SeveralLoop(OutOfOrder(Unroll12x6a).assignments, Zigzag(6, 12), 6);
    assert OutOfOrder(Unroll12x6a).final == Number(X6, 0) && Size(X6) == 6;
  }

  lemma TwelveInSixes(width: nat, skip: nat, ok: (Loop, Family) -> bool)
    requires HoldsOfPlans(ok, width, skip)
    ensures ok(Written(Unroll12x6a), FamilyOf(Unroll12x6a))
  {
    TwelveInSixesLoop(width, skip);
  }

  lemma OwnTwelveLoop(width: nat, skip: nat)
    ensures PlanOf(OutOfOrder(Unroll12x12a), width, skip) == PlanFor(Alternating(12, X12), width, skip)
  {
    OwnLoop(OutOfOrder(Unroll12x12a).assignments, Zigzag(6, 12), 12);
    assert OutOfOrder(Unroll12x12a).final == Number(X12, 0) && Size(X12) == 12;
  }

  lemma OwnTwelve(width: nat, skip: nat, ok: (Loop, Family) -> bool)
    requires HoldsOfPlans(ok, width, skip)
    ensures ok(Written(Unroll12x12a), FamilyOf(Unroll12x12a))
  {
    OwnTwelveLoop(width, skip);
  }

  lemma SixteenAssignments()
    ensures Assigned(OutOfOrder(Unroll16x16a).assignments) == InterleavedUpdates(Zigzag(6, 16), 16)
  {
    OwnLoop(OutOfOrder(Unroll16x16a).assignments, Zigzag(6, 16), 16);
  }

  lemma OwnSixteenLoop(width: nat, skip: nat)
    ensures PlanOf(OutOfOrder(Unroll16x16a), width, skip) == PlanFor(Alternating(16, X16), width, skip)
  {
    SixteenAssignments();
    assert OutOfOrder(Unroll16x16a).final == Number(X16, 0) && Size(X16) == 16;
  }

  lemma OwnSixteen(width: nat, skip: nat, ok: (Loop, Family) -> bool)
    requires HoldsOfPlans(ok, width, skip)
    ensures ok(Written(Unroll16x16a), FamilyOf(Unroll16x16a))
  {
    OwnSixteenLoop(width, skip);
  }

  lemma TwentyAssignments()
    ensures Assigned(OutOfOrder(Unroll20x20a).assignments) == InterleavedUpdates(Zigzag(6, 20), 20)
  {
    OwnLoop(OutOfOrder(Unroll20x20a).assignments, Zigzag(6, 20), 20);
  }

  lemma OwnTwentyLoop(width: nat, skip: nat)
    ensures PlanOf(OutOfOrder(Unroll20x20a), width, skip) == PlanFor(Alternating(20, X20), width, skip)
  {
    TwentyAssignments();
    assert OutOfOrder(Unroll20x20a).final == Number(X20, 0) && Size(X20) == 20;
  }

  lemma OwnTwenty(width: nat, skip: nat, ok: (Loop, Family) -> bool)
    requires HoldsOfPlans(ok, width, skip)
    ensures ok(Written(Unroll20x20a), FamilyOf(Unroll20x20a))
  {
    OwnTwentyLoop(width, skip);
  }

  lemma OutOfOrderDescribed(f: Function, width: nat, skip: nat, ok: (Loop, Family) -> bool)
    requires FamilyOf(f).Alternating?
    requires HoldsOfPlans(ok, width, skip)
    ensures ok(Written(f), FamilyOf(f))
  {
    match f
    case Unroll12x6a => TwelveInSixes(width, skip, ok);
    case Unroll12x12a => OwnTwelve(width, skip, ok);
    case Unroll16x16a => OwnSixteen(width, skip, ok);
    case Unroll20x20a => OwnTwenty(width, skip, ok);
  }

  // ----- The elements of a turn combined first -----

  lemma GroupedDescribed(loop: Loop, s: Shape, width: nat, skip: nat, ok: (Loop, Family) -> bool)
    requires s.S? && loop == Grouped(Size(s), Number(s, 0)) && HoldsOfPlans(ok, width, skip)
    ensures ok(loop, Regrouped(s))
  {
    assert PlanOf(loop, width, skip) == PlanFor(Regrouped(s), width, skip);
  }

  lemma Combine7Step()
    ensures StepFirst(Combine7) == Grouped(2, Number(X2, 0)) && Size(X2) == 2
  {
  }

  lemma Combine7Described(width: nat, skip: nat, ok: (Loop, Family) -> bool)
    requires HoldsOfPlans(ok, width, skip)
    ensures ok(Written(Combine7), FamilyOf(Combine7))
  {
    Combine7Step();
    GroupedDescribed(StepFirst(Combine7), X2, width, skip, ok);
  }

  lemma Unroll3aaStep()
    ensures StepFirst(Unroll3aa) == Grouped(3, Number(X3, 0)) && Size(X3) == 3
  {
  }

  lemma Unroll3aaDescribed(width: nat, skip: nat, ok: (Loop, Family) -> bool)
    requires HoldsOfPlans(ok, width, skip)
    ensures ok(Written(Unroll3aa), FamilyOf(Unroll3aa))
  {
    Unroll3aaStep();
    GroupedDescribed(StepFirst(Unroll3aa), X3, width, skip, ok);
  }

  lemma Unroll4aaStep()
    ensures StepFirst(Unroll4aa) == Grouped(4, Number(X4, 0)) && Size(X4) == 4
  {
  }

  lemma Unroll4aaDescribed(width: nat, skip: nat, ok: (Loop, Family) -> bool)
    requires HoldsOfPlans(ok, width, skip)
    ensures ok(Written(Unroll4aa), FamilyOf(Unroll4aa))
  {
    Unroll4aaStep();
    GroupedDescribed(StepFirst(Unroll4aa), X4, width, skip, ok);
  }

  lemma Unroll5aaStep()
    ensures StepFirst(Unroll5aa) == Grouped(5, Number(X5Pairs, 0)) && Size(X5Pairs) == 5
  {
  }

  lemma Unroll5aaDescribed(width: nat, skip: nat, ok: (Loop, Family) -> bool)
    requires HoldsOfPlans(ok, width, skip)
    ensures ok(Written(Unroll5aa), FamilyOf(Unroll5aa))
  {
    Unroll5aaStep();
    GroupedDescribed(StepFirst(Unroll5aa), X5Pairs, width, skip, ok);
  }

  lemma Unroll6aaStep()
    ensures StepFirst(Unroll6aa) == Grouped(6, Number(X6, 0)) && Size(X6) == 6
  {
  }

  lemma Unroll6aaDescribed(width: nat, skip: nat, ok: (Loop, Family) -> bool)
    requires HoldsOfPlans(ok, width, skip)
    ensures ok(Written(Unroll6aa), FamilyOf(Unroll6aa))
  {
    Unroll6aaStep();
    GroupedDescribed(StepFirst(Unroll6aa), X6, width, skip, ok);
  }

  lemma Unroll7aaStep()
    ensures StepFirst(Unroll7aa) == Grouped(7, Number(X7, 0)) && Size(X7) == 7
  {
  }

  lemma Unroll7aaDescribed(width: nat, skip: nat, ok: (Loop, Family) -> bool)
    requires HoldsOfPlans(ok, width, skip)
    ensures ok(Written(Unroll7aa), FamilyOf(Unroll7aa))
  {
    Unroll7aaStep();
    GroupedDescribed(StepFirst(Unroll7aa), X7, width, skip, ok);
  }

  lemma Unroll8aaStep()
    ensures StepFirst(Unroll8aa) == Grouped(8, Number(X8, 0)) && Size(X8) == 8
  {
  }

  lemma Unroll8aaDescribed(width: nat, skip: nat, ok: (Loop, Family) -> bool)
    requires HoldsOfPlans(ok, width, skip)
    ensures ok(Written(Unroll8aa), FamilyOf(Unroll8aa))
  {
    Unroll8aaStep();
    GroupedDescribed(StepFirst(Unroll8aa), X8, width, skip, ok);
  }

  lemma Unroll9aaStep()
    ensures StepFirst(Unroll9aa) == Grouped(9, Number(X9, 0)) && Size(X9) == 9
  {
  }

  lemma Unroll9aaDescribed(width: nat, skip: nat, ok: (Loop, Family) -> bool)
    requires HoldsOfPlans(ok, width, skip)
    ensures ok(Written(Unroll9aa), FamilyOf(Unroll9aa))
  {
    Unroll9aaStep();
    GroupedDescribed(StepFirst(Unroll9aa), X9, width, skip, ok);
  }

  lemma Unroll10aaStep()
    ensures StepFirst(Unroll10aa) == Grouped(10, Number(X10Pairs, 0)) && Size(X10Pairs) == 10
  {
  }

  lemma Unroll10aaDescribed(width: nat, skip: nat, ok: (Loop, Family) -> bool)
    requires HoldsOfPlans(ok, width, skip)
    ensures ok(Written(Unroll10aa), FamilyOf(Unroll10aa))
  {
    Unroll10aaStep();
    GroupedDescribed(StepFirst(Unroll10aa), X10Pairs, width, skip, ok);
  }

  lemma Unroll12aaStep()
    ensures StepFirst(Unroll12aa) == Grouped(12, Number(X12Fours, 0)) && Size(X12Fours) == 12
  {
  }

  lemma Unroll12aaDescribed(width: nat, skip: nat, ok: (Loop, Family) -> bool)
    requires HoldsOfPlans(ok, width, skip)
    ensures ok(Written(Unroll12aa), FamilyOf(Unroll12aa))
  {
    Unroll12aaStep();
    GroupedDescribed(StepFirst(Unroll12aa), X12Fours, width, skip, ok);
  }

  lemma ShortStepsDescribed(f: Function, width: nat, skip: nat, ok: (Loop, Family) -> bool)
    requires f.Combine7? || f.Unroll3aa? || f.Unroll4aa? || f.Unroll5aa? || f.Unroll6aa?
    requires HoldsOfPlans(ok, width, skip)
    ensures ok(Written(f), FamilyOf(f))
  {
    match f
    case Combine7 => Combine7Described(width, skip, ok);
    case Unroll3aa => Unroll3aaDescribed(width, skip, ok);
    case Unroll4aa => Unroll4aaDescribed(width, skip, ok);
    case Unroll5aa => Unroll5aaDescribed(width, skip, ok);
    case Unroll6aa => Unroll6aaDescribed(width, skip, ok);
  }

  lemma LongStepsDescribed(f: Function, width: nat, skip: nat, ok: (Loop, Family) -> bool)
    requires f.Unroll7aa? || f.Unroll8aa? || f.Unroll9aa? || f.Unroll10aa? || f.Unroll12aa?
    requires HoldsOfPlans(ok, width, skip)
    ensures ok(Written(f), FamilyOf(f))
  {
    match f
    case Unroll7aa => Unroll7aaDescribed(width, skip, ok);
    case Unroll8aa => Unroll8aaDescribed(width, skip, ok);
    case Unroll9aa => Unroll9aaDescribed(width, skip, ok);
    case Unroll10aa => Unroll10aaDescribed(width, skip, ok);
    case Unroll12aa => Unroll12aaDescribed(width, skip, ok);
  }

  lemma StepFirstDescribed(f: Function, width: nat, skip: nat, ok: (Loop, Family) -> bool)
    requires FamilyOf(f).Regrouped?
    requires HoldsOfPlans(ok, width, skip)
    ensures ok(Written(f), FamilyOf(f))
  {
    match f
    case Combine7 | Unroll3aa | Unroll4aa | Unroll5aa | Unroll6aa => ShortStepsDescribed(f, width, skip, ok);
    case _ => LongStepsDescribed(f, width, skip, ok);
  }

  // ----- Vectors -----

  lemma {:induction false} OwnInLanes(n: nat, width: nat)
    ensures InLanes(OwnUpdates(n), width) == OwnUpdates(n * width)
  {
    if n > 0 {
      OwnInLanes(n - 1, width);
      var us, last := OwnUpdates(n), seq(width, (l: nat) => Update((n - 1) * width + l, Leaf((n - 1) * width + l)));
      assert us[..n - 1] == OwnUpdates(n - 1) && us[n - 1] == Update(n - 1, Leaf(n - 1));
      assert n * width == (n - 1) * width + width;
      assert OwnUpdates(n * width) == OwnUpdates((n - 1) * width) + last;
      assert seq(width, (l: nat) => Update(us[n - 1].target * width + l, InLane(us[n - 1].e, width, l))) == last;
    } else {
      assert n * width == 0;
    }
  }

  lemma {:induction false} LanesTaken(s: Shape, width: nat, lanes: nat, scalar: nat)
    ensures TakeLanes(Number(s, 0), width, lanes, scalar) == LaneByLane(s, width, lanes, scalar)
  {
    if lanes > 0 {
      LanesTaken(s, width, lanes - 1, scalar);
    }
  }

  lemma VectorLoop(ps: seq<(nat, nat)>, s: Shape, width: nat, skip: nat)
    requires |ps| == Size(s) && forall k :: 0 <= k < |ps| ==> ps[k] == (k, k)
    ensures PlanOf(InVectors(Size(s), Size(s), ps, Number(s, 0)), width, skip) == Simd(width, s, skip)
  {
    assert Assigned(ps) == OwnUpdates(Size(s));
    OwnInLanes(Size(s), width);
    LanesTaken(s, width, width, Size(s) * width);
  }

  lemma OneInLanes(s: Shape, width: nat)
    ensures InLanes([Update(0, Number(s, 0))], width) == LaneUpdates(width, s)
  {
    var u := Update(0, Number(s, 0));
    assert [u][..0] == [] && InLanes([], width) == [];
    assert InLanes([u], width) == seq(width, (l: nat) => Update(0 * width + l, InLane(u.e, width, l)));
  }

  lemma GroupedVectorLoop(s: Shape, width: nat, skip: nat)
    ensures PlanOf(GroupedInVectors(Size(s), Number(s, 0)), width, skip) == SimdReassociated(width, s, skip)
  {
    OneInLanes(s, width);
    LanesTaken(X, width, width, width);
    assert Number(X, 0) == Leaf(0);
  }

  /** Vector k of a turn goes to accumulator k. */
  ghost predicate OneVectorEach(loop: Loop, s: Shape) {
    && loop.InVectors? && loop.stride == loop.accs == |loop.assignments| == Size(s)
    && forall k :: 0 <= k < |loop.assignments| ==> loop.assignments[k] == (k, k)
  }

  lemma OneVectorEachDescribed(loop: Loop, s: Shape, width: nat, skip: nat, ok: (Loop, Family) -> bool)
    requires OneVectorEach(loop, s) && loop.final == Number(s, 0) && HoldsOfPlans(ok, width, skip)
    ensures ok(loop, Vectors(s))
  {
    VectorLoop(loop.assignments, s, width, skip);
    assert PlanOf(loop, width, skip) == PlanFor(Vectors(s), width, skip);
  }

  lemma GroupedVectorsDescribed(loop: Loop, s: Shape, width: nat, skip: nat, ok: (Loop, Family) -> bool)
    requires loop == GroupedInVectors(Size(s), Number(s, 0)) && HoldsOfPlans(ok, width, skip)
    ensures ok(loop, VectorsRegrouped(s))
  {
    GroupedVectorLoop(s, width, skip);
    assert PlanOf(loop, width, skip) == PlanFor(VectorsRegrouped(s), width, skip);
  }

  lemma FewVectors()
    ensures OneVectorEach(OfVectors(SimdV1), X) && OfVectors(SimdV1).final == Number(X, 0)
    ensures OneVectorEach(OfVectors(SimdV2), X2) && OfVectors(SimdV2).final == Number(X2, 0)
    ensures OneVectorEach(OfVectors(SimdV4), X4) && OfVectors(SimdV4).final == Number(X4, 0)
  {
  }

  lemma EightVectorsNamed()
    ensures Written(SimdV8) == OfVectors(SimdV8) && FamilyOf(SimdV8) == Vectors(X8Chain)
  {
  }

  lemma TenVectorsNamed()
    ensures Written(SimdV10) == OfVectors(SimdV10) && FamilyOf(SimdV10) == Vectors(X10Chain)
  {
  }

  lemma TwelveVectorsNamed()
    ensures Written(SimdV12) == OfVectors(SimdV12) && FamilyOf(SimdV12) == Vectors(X12)
  {
  }

  lemma EightVectors()
    ensures OneVectorEach(OfVectors(SimdV8), X8Chain)
  {
  }

  lemma EightVectorsCombined()
    ensures OfVectors(SimdV8).final == Number(X8Chain, 0)
  {
  }

  lemma TenVectors()
    ensures OneVectorEach(OfVectors(SimdV10), X10Chain)
  {
  }

  lemma TenVectorsCombined()
    ensures OfVectors(SimdV10).final == Number(X10Chain, 0)
  {
  }

  lemma TwelveVectors()
    ensures OneVectorEach(OfVectors(SimdV12), X12)
  {
  }

  lemma TwelveVectorsCombined()
    ensures OfVectors(SimdV12).final == Number(X12, 0)
  {
  }

  lemma SimdV1Described(width: nat, skip: nat, ok: (Loop, Family) -> bool)
    requires HoldsOfPlans(ok, width, skip)
    ensures ok(Written(SimdV1), FamilyOf(SimdV1))
  {
    FewVectors();
    OneVectorEachDescribed(OfVectors(SimdV1), X, width, skip, ok);
  }

  lemma SimdV2Described(width: nat, skip: nat, ok: (Loop, Family) -> bool)
    requires HoldsOfPlans(ok, width, skip)
    ensures ok(Written(SimdV2), FamilyOf(SimdV2))
  {
    FewVectors();
    OneVectorEachDescribed(OfVectors(SimdV2), X2, width, skip, ok);
  }

  lemma SimdV4Described(width: nat, skip: nat, ok: (Loop, Family) -> bool)
    requires HoldsOfPlans(ok, width, skip)
    ensures ok(Written(SimdV4), FamilyOf(SimdV4))
  {
    FewVectors();
    OneVectorEachDescribed(OfVectors(SimdV4), X4, width, skip, ok);
  }

  lemma SimdV8Described(width: nat, skip: nat, ok: (Loop, Family) -> bool)
    requires HoldsOfPlans(ok, width, skip)
    ensures ok(Written(SimdV8), FamilyOf(SimdV8))
  {
    EightVectorsNamed();
    EightVectors();
    EightVectorsCombined();
    OneVectorEachDescribed(OfVectors(SimdV8), X8Chain, width, skip, ok);
  }

  lemma SimdV10Described(width: nat, skip: nat, ok: (Loop, Family) -> bool)
    requires HoldsOfPlans(ok, width, skip)
    ensures ok(Written(SimdV10), FamilyOf(SimdV10))
  {
    TenVectorsNamed();
    TenVectors();
    TenVectorsCombined();
    OneVectorEachDescribed(OfVectors(SimdV10), X10Chain, width, skip, ok);
  }

  lemma SimdV12Described(width: nat, skip: nat, ok: (Loop, Family) -> bool)
    requires HoldsOfPlans(ok, width, skip)
    ensures ok(Written(SimdV12), FamilyOf(SimdV12))
  {
    TwelveVectorsNamed();
    TwelveVectors();
    TwelveVectorsCombined();
    OneVectorEachDescribed(OfVectors(SimdV12), X12, width, skip, ok);
  }

  lemma OfVectorsDescribed(f: Function, width: nat, skip: nat, ok: (Loop, Family) -> bool)
    requires FamilyOf(f).Vectors?
    requires HoldsOfPlans(ok, width, skip)
    ensures ok(Written(f), FamilyOf(f))
  {
    match f
    case SimdV1 => SimdV1Described(width, skip, ok);
    case SimdV2 => SimdV2Described(width, skip, ok);
    case SimdV4 => SimdV4Described(width, skip, ok);
    case SimdV8 => SimdV8Described(width, skip, ok);
    case SimdV10 => SimdV10Described(width, skip, ok);
    case SimdV12 => SimdV12Described(width, skip, ok);
  }

  lemma VectorGroups()
    ensures VectorsFirst(SimdV2a) == GroupedInVectors(2, Number(X2, 0)) && Size(X2) == 2
    ensures VectorsFirst(SimdV4a) == GroupedInVectors(4, Number(X4, 0)) && Size(X4) == 4
    ensures VectorsFirst(SimdV8a) == GroupedInVectors(8, Number(X8, 0)) && Size(X8) == 8
  {
  }

  lemma VectorsFirstDescribed(f: Function, width: nat, skip: nat, ok: (Loop, Family) -> bool)
    requires FamilyOf(f).VectorsRegrouped?
    requires HoldsOfPlans(ok, width, skip)
    ensures ok(Written(f), FamilyOf(f))
  {
    VectorGroups();
    match f
    case SimdV2a => GroupedVectorsDescribed(VectorsFirst(f), X2, width, skip, ok);
    case SimdV4a => GroupedVectorsDescribed(VectorsFirst(f), X4, width, skip, ok);
    case SimdV8a => GroupedVectorsDescribed(VectorsFirst(f), X8, width, skip, ok);
  }

  lemma AllDescribed(f: Function, fam: Family, width: nat, skip: nat, ok: (Loop, Family) -> bool)
    requires fam == FamilyOf(f)
    requires HoldsOfPlans(ok, width, skip)
    ensures ok(Written(f), FamilyOf(f))
  {
    match fam
    case Nested(_) => OneByOneDescribed(f, width, skip, ok);
    case Regrouped(_) => StepFirstDescribed(f, width, skip, ok);
    case Several(_, _) => SeveralAccumulatorsDescribed(f, width, skip, ok);
    case EightByFour => SeveralAccumulatorsDescribed(f, width, skip, ok);
    case Alternating(_, _) => OutOfOrderDescribed(f, width, skip, ok);
    case Vectors(_) => OfVectorsDescribed(f, width, skip, ok);
    case VectorsRegrouped(_) => VectorsFirstDescribed(f, width, skip, ok);
  }

  /** For every function of combine.c, what the table says of it is what its loop does: the same
      stride, the same accumulators, the same assignments in the same order, the same accumulator for
      the remaining elements, and the same final expression. */
  lemma TableDescribes(f: Function, width: nat, skip: nat)
    ensures PlanOf(Written(f), width, skip) == PlanFor(FamilyOf(f), width, skip)
  {
    var ok := (loop: Loop, fam: Family) => Sensible(fam) ==> PlanOf(loop, width, skip) == PlanFor(fam, width, skip);
    AllDescribed(f, FamilyOf(f), width, skip, ok);
  }

  // ----- What the functions compute -----

  /** The plan of a function, from its loop as it is written. */
  function NamedPlan(f: Function, width: nat, skip: nat): Plan { PlanOf(Written(f), width, skip) }

  /** Every function stores what combine1 stores, for every vector, under the laws of its loop. */
  lemma NamedAgrees<T(!new)>(op: (T, T) -> T, ident: T, f: Function, width: nat, skip: nat, data: seq<T>)
    requires width >= 1 && Laws(op, ident, NamedPlan(f, width, skip))
    ensures WellFormed(NamedPlan(f, width, skip))
    ensures Result(op, ident, NamedPlan(f, width, skip), data) == Fold(op, ident, data)
  {
    TableDescribes(f, width, skip);
    FamilyOfPlan(FamilyOf(f), width, skip);
    FamilyAgrees(op, ident, FamilyOf(f), width, skip, data);
  }

  /** And these laws are exactly what it needs: over an operator with an identity it stores what
      combine1 stores, for every vector, if and only if the laws of its loop hold. */
  lemma NamedExactly<T(!new)>(op: (T, T) -> T, ident: T, f: Function, width: nat, skip: nat)
    requires width >= 2 && Unital(op, ident)
    ensures WellFormed(NamedPlan(f, width, skip))
    ensures Agrees(op, ident, NamedPlan(f, width, skip)) <==> Laws(op, ident, NamedPlan(f, width, skip))
  {
    TableDescribes(f, width, skip);
    FamilyOfPlan(FamilyOf(f), width, skip);
    FamilyExactly(op, ident, FamilyOf(f), width, skip);
  }
}
