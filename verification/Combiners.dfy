/** The families of combining functions, as plans, and the laws each family needs. */
module Combiners {
  import opened Arithmetic
  import opened Combine
  import opened Vectors

  // ----- Parenthesizations -----

  /** How an expression over consecutive operands is parenthesized. */
  datatype Shape = X | S(left: Shape, right: Shape)

  function Size(s: Shape): (n: nat)
    ensures n >= 1
  {
    match s case X => 1 case S(l, r) => Size(l) + Size(r)
  }

  /** The expression of shape s over the operands lo, lo + 1, ... */
  function Number(s: Shape, lo: nat): Expr {
    match s case X => Leaf(lo) case S(l, r) => Node(Number(l, lo), Number(r, lo + Size(l)))
  }

  lemma {:induction false} NumberLeaves(s: Shape, lo: nat)
    ensures Leaves(Number(s, lo)) == seq(Size(s), (i: nat) => lo + i)
    ensures Bounded(Number(s, lo), lo + Size(s))
  {
    if s.S? {
      NumberLeaves(s.left, lo);
      NumberLeaves(s.right, lo + Size(s.left));
      BoundedMore(Number(s.left, lo), lo + Size(s.left), lo + Size(s));
    }
  }

  lemma NumberIsIota(s: Shape)
    ensures Leaves(Number(s, 0)) == Iota(Size(s)) && Bounded(Number(s, 0), Size(s))
  {
    NumberLeaves(s, 0);
  }

  lemma {:induction false} BoundedMore(e: Expr, n: nat, m: nat)
    requires Bounded(e, n) && n <= m
    ensures Bounded(e, m)
  {
    if e.Node? {
      BoundedMore(e.left, n, m);
      BoundedMore(e.right, n, m);
    }
  }

  // The shapes that occur in the source.
  const X2 := S(X, X)
  const X3 := S(X2, X)
  const X4 := S(X2, X2)
  const X4Left := S(X3, X)
  const X5 := S(X2, X3)
  const X5Pairs := S(X4, X)
  const X6 := S(X4, X2)
  const X7 := S(X4, X3)
  const X8 := S(X4, X4)
  const X8Left := S(S(S(S(X4Left, X), X), X), X)
  const X9 := S(X4, S(X4, X))
  const X10 := S(X8, X2)
  const X10Pairs := S(X4, X6)
  const X8Chain := S(X6, X2)
  const X10Chain := S(X8Chain, X2)
  const X12 := S(X10Chain, X2)
  const X12Fours := S(X8, X4)
  const X16 := S(S(X6, X6), X4)
  const X20 := S(S(X6, X6), S(X4, X4))

  // ----- One accumulator, reassociated -----

  /** acc = acc OP (data[i] OP data[i+1] ...), the step parenthesized by s. */
  function Reassociated(s: Shape): Plan { Plan(0, Size(s), 1, [Update(0, Number(s, 0))], 0, Leaf(0)) }

  /** Whatever the parenthesization of a step, associativity is enough. */
  lemma ReassociatedAgrees<T(!new)>(op: (T, T) -> T, ident: T, s: Shape, data: seq<T>)
    requires Associative(op)
    ensures WellFormed(Reassociated(s))
    ensures Result(op, ident, Reassociated(s), data) == Fold(op, ident, data)
  {
    NumberIsIota(s);
    LeavesOfOne(Update(0, Number(s, 0)));
    ReassociatedIsFold(op, ident, Reassociated(s), data);
  }

  lemma LeavesOfOne(u: Update)
    ensures AllLeaves([u]) == Leaves(u.e)
  {
    assert [u][..0] == [];
    assert AllLeaves([u]) == AllLeaves([]) + Leaves(u.e);
  }

  // ----- Several accumulators -----

  function InterleavedUpdates(order: seq<nat>, accs: nat): (us: seq<Update>)
    requires accs >= 1
    ensures |us| == |order| && forall j :: 0 <= j < |us| ==> us[j] == Update(order[j] % accs, Leaf(order[j]))
  {
    seq(|order|, (j: nat) requires j < |order| => Update(order[j] % accs, Leaf(order[j])))
  }

  /** Element j of a step goes to accumulator j mod the number of accumulators, the updates being
      performed in the given order; the accumulators are combined by `result`. */
  function Interleaved(order: seq<nat>, accs: nat, tail: nat, result: Expr): Plan
    requires accs >= 1
  {
    Plan(0, |order|, accs, InterleavedUpdates(order, accs), tail, result)
  }

  lemma {:induction false} SingleLeaves(updates: seq<Update>, order: seq<nat>)
    requires |updates| == |order| && forall j :: 0 <= j < |order| ==> updates[j].e == Leaf(order[j])
    ensures AllLeaves(updates) == order
  {
    if order != [] {
      SingleLeaves(updates[..|updates| - 1], order[..|order| - 1]);
    }
  }

  lemma InterleavedIsWellFormed(order: seq<nat>, accs: nat, tail: nat, result: Expr)
    requires |order| >= 1 && multiset(order) == multiset(Iota(|order|))
    requires accs >= 1 && tail < accs && Bounded(result, accs)
    ensures WellFormed(Interleaved(order, accs, tail, result))
  {
    forall j | 0 <= j < |order| ensures order[j] < |order| {
      assert order[j] in multiset(Iota(|order|));
    }
  }

  lemma InterleavedIsFair(order: seq<nat>, accs: nat, tail: nat, result: Expr)
    requires |order| >= 1 && multiset(order) == multiset(Iota(|order|))
    requires accs >= 1 && tail < accs
    requires Bounded(result, accs) && multiset(Leaves(result)) == multiset(Iota(accs))
    ensures Fair(Interleaved(order, accs, tail, result))
  {
    InterleavedIsWellFormed(order, accs, tail, result);
    SingleLeaves(InterleavedUpdates(order, accs), order);
  }

  /** The functions whose updates are in order of the elements. */
  function Multi(stride: nat, s: Shape): Plan { Interleaved(Iota(stride), Size(s), 0, Number(s, 0)) }

  /** The order 0, h, 1, h + 1, ... of the first 2h elements of a step of n. */
  function Zigzag(h: nat, n: nat): seq<nat>
    requires 2 * h <= n
  {
    seq(n, (k: nat) => if k >= 2 * h then k else if k % 2 == 0 then k / 2 else h + k / 2)
  }

  lemma ZigzagIsPermutation(h: nat, n: nat)
    requires 2 * h <= n
    ensures multiset(Zigzag(h, n)) == multiset(Iota(n))
  {
    var s := Zigzag(h, n);
    forall j: nat | j < n ensures j in s {
      assert s[if j >= 2 * h then j else if j < h then 2 * j else 2 * (j - h) + 1] == j;
    }
    CoveringIsPermutation(s, n);
  }

  /** The functions that alternate between elements six apart. */
  function MultiZigzag(stride: nat, s: Shape): Plan
    requires stride >= 12
  {
    Interleaved(Zigzag(6, stride), Size(s), 0, Number(s, 0))
  }

  /** unroll8x4 finishes into accumulator 3 and combines it first. */
  const UNROLL8X4 := Interleaved(Iota(8), 4, 3, Node(Node(Node(Leaf(3), Leaf(0)), Leaf(1)), Leaf(2)))

  lemma ShapedIsFair(order: seq<nat>, s: Shape)
    requires |order| >= 1 && multiset(order) == multiset(Iota(|order|))
    ensures Fair(Interleaved(order, Size(s), 0, Number(s, 0)))
  {
    NumberIsIota(s);
    InterleavedIsFair(order, Size(s), 0, Number(s, 0));
  }

  lemma MultiIsFair(stride: nat, s: Shape)
    requires stride >= 1
    ensures Fair(Multi(stride, s))
  {
    ShapedIsFair(Iota(stride), s);
  }

  lemma MultiZigzagIsFair(stride: nat, s: Shape)
    requires stride >= 12
    ensures Fair(MultiZigzag(stride, s))
  {
    ZigzagIsPermutation(6, stride);
    ShapedIsFair(Zigzag(6, stride), s);
  }

  lemma Unroll8x4IsFair()
    ensures Fair(UNROLL8X4)
  {
    var last: seq<nat> := [3, 0, 1, 2];
    CoveringIsPermutation(last, 4);
    assert Leaves(UNROLL8X4.result) == last;
    InterleavedIsFair(Iota(8), 4, 3, UNROLL8X4.result);
  }

  /** Every multi-accumulator function agrees with combine1 over every commutative monoid. */
  lemma MultiAgrees<T(!new)>(op: (T, T) -> T, ident: T, stride: nat, s: Shape, data: seq<T>)
    requires CommutativeMonoid(op, ident) && stride >= 1
    ensures Fair(Multi(stride, s)) && Result(op, ident, Multi(stride, s), data) == Fold(op, ident, data)
    ensures stride >= 12 ==>
              Fair(MultiZigzag(stride, s)) && Result(op, ident, MultiZigzag(stride, s), data) == Fold(op, ident, data)
    ensures Fair(UNROLL8X4) && Result(op, ident, UNROLL8X4, data) == Fold(op, ident, data)
  {
    MultiIsFair(stride, s);
    FairIsFold(op, ident, Multi(stride, s), data);
    if stride >= 12 {
      MultiZigzagIsFair(stride, s);
      FairIsFold(op, ident, MultiZigzag(stride, s), data);
    }
    Unroll8x4IsFair();
    FairIsFold(op, ident, UNROLL8X4, data);
  }

  // ----- SIMD -----

  /** A vector expression, taken at one lane of vectors of the given width. */
  function InLane(e: Expr, width: nat, lane: nat): Expr {
    match e case Leaf(a) => Leaf(a * width + lane)
        case Node(l, r) => Node(InLane(l, width, lane), InLane(r, width, lane))
  }

  /** result OP v[0] OP v[1] ... for the lanes below `lanes` of the vector expression s; the scalar
      accumulator has index `scalar`. */
  function LaneByLane(s: Shape, width: nat, lanes: nat, scalar: nat): Expr {
    if lanes == 0 then Leaf(scalar)
    else Node(LaneByLane(s, width, lanes - 1, scalar), InLane(Number(s, 0), width, lanes - 1))
  }

  /** One vector accumulator per vector of a step, one scalar for what is left; `skip` elements come
      before the data is aligned, and `width` is the number of lanes of a vector. */
  function Simd(width: nat, s: Shape, skip: nat): Plan {
    var n := Size(s) * width;
    Plan(skip, n, n + 1, OwnUpdates(n), n, LaneByLane(s, width, width, n))
  }

  /** Element j goes to accumulator j. */
  function OwnUpdates(n: nat): (us: seq<Update>)
    ensures |us| == n && forall j :: 0 <= j < n ==> us[j] == Update(j, Leaf(j))
  {
    seq(n, (j: nat) => Update(j, Leaf(j)))
  }

  /** One vector accumulator, the vectors of a step combined first. */
  function SimdReassociated(width: nat, s: Shape, skip: nat): Plan {
    Plan(skip, Size(s) * width, width + 1, LaneUpdates(width, s), width, LaneByLane(X, width, width, width))
  }

  function LaneUpdates(width: nat, s: Shape): (us: seq<Update>)
    ensures |us| == width && forall l :: 0 <= l < width ==> us[l] == Update(l, InLane(Number(s, 0), width, l))
  {
    seq(width, (l: nat) => Update(l, InLane(Number(s, 0), width, l)))
  }

  /** One lane of n vectors. */
  function Column(n: nat, width: nat, lane: nat): (c: seq<nat>)
    ensures |c| == n && forall a :: 0 <= a < n ==> c[a] == a * width + lane
  {
    seq(n, (a: nat) => a * width + lane)
  }

  /** The operands of a vector expression over n vectors, lane by lane. */
  function Columns(n: nat, width: nat, lanes: nat): seq<nat> {
    if lanes == 0 then [] else Columns(n, width, lanes - 1) + Column(n, width, lanes - 1)
  }

  lemma Position(n: nat, width: nat, a: nat, lane: nat)
    requires a < n && lane < width
    ensures a * width + lane < n * width
  {
    assert (a + 1) * width <= n * width;
  }

  lemma {:induction false} ColumnsCover(n: nat, width: nat, lanes: nat)
    requires width >= 1 && lanes <= width
    ensures |Columns(n, width, lanes)| == lanes * n
    ensures forall j: nat :: j < n * width && j % width < lanes ==> j in Columns(n, width, lanes)
  {
    if lanes > 0 {
      ColumnsCover(n, width, lanes - 1);
      var column := Column(n, width, lanes - 1);
      forall j: nat | j < n * width && j % width < lanes ensures j in Columns(n, width, lanes) {
        if j % width == lanes - 1 {
          Quotient(n, width, j);
          assert column[j / width] == j;
        } else {
          assert j in Columns(n, width, lanes - 1);
        }
      }
    }
  }

  lemma Quotient(n: nat, width: nat, j: nat)
    requires width >= 1 && j < n * width
    ensures 0 <= j / width < n && j == (j / width) * width + j % width
  {
    MultipleBounds(width, n - j / width);
    assert width * (n - j / width) == width * n - width * (j / width);
  }

  lemma ColumnsArePermutation(n: nat, width: nat)
    requires width >= 1
    ensures multiset(Columns(n, width, width)) == multiset(Iota(n * width))
  {
    var s, total := Columns(n, width, width), n * width;
    ColumnsCover(n, width, width);
    assert |s| == total;
    forall j: nat | j < total ensures j in s {
      assert j % width < width;
    }
    CoveringIsPermutation(s, total);
  }

  function Positions(vectors: seq<nat>, width: nat, lane: nat): (ps: seq<nat>)
    ensures |ps| == |vectors| && forall i :: 0 <= i < |ps| ==> ps[i] == vectors[i] * width + lane
  {
    seq(|vectors|, i requires 0 <= i < |vectors| => vectors[i] * width + lane)
  }

  lemma {:induction false} InLaneLeaves(e: Expr, n: nat, width: nat, lane: nat)
    requires Bounded(e, n) && lane < width
    ensures Bounded(InLane(e, width, lane), n * width)
    ensures Leaves(InLane(e, width, lane)) == Positions(Leaves(e), width, lane)
  {
    match e
    case Leaf(a) => Position(n, width, a, lane);
    case Node(l, r) =>
      InLaneLeaves(l, n, width, lane);
      InLaneLeaves(r, n, width, lane);
      PositionsOfBoth(Leaves(l), Leaves(r), width, lane);
  }

  lemma PositionsOfBoth(s: seq<nat>, t: seq<nat>, width: nat, lane: nat)
    ensures Positions(s + t, width, lane) == Positions(s, width, lane) + Positions(t, width, lane)
  {
  }

  lemma IotaInLane(n: nat, width: nat, lane: nat)
    ensures Positions(Iota(n), width, lane) == Column(n, width, lane)
  {
    forall i | 0 <= i < n ensures Positions(Iota(n), width, lane)[i] == Column(n, width, lane)[i] {
      assert Iota(n)[i] == i;
    }
  }

  lemma NumberInLane(s: Shape, width: nat, lane: nat)
    requires lane < width
    ensures Bounded(InLane(Number(s, 0), width, lane), Size(s) * width)
    ensures Leaves(InLane(Number(s, 0), width, lane)) == Column(Size(s), width, lane)
  {
    NumberIsIota(s);
    InLaneLeaves(Number(s, 0), Size(s), width, lane);
    IotaInLane(Size(s), width, lane);
  }

  lemma {:induction false} LaneByLaneLeaves(s: Shape, width: nat, lanes: nat, scalar: nat)
    requires lanes <= width && scalar == Size(s) * width
    ensures Bounded(LaneByLane(s, width, lanes, scalar), scalar + 1)
    ensures Leaves(LaneByLane(s, width, lanes, scalar)) == [scalar] + Columns(Size(s), width, lanes)
  {
    if lanes > 0 {
      LaneByLaneLeaves(s, width, lanes - 1, scalar);
      NumberInLane(s, width, lanes - 1);
      BoundedMore(InLane(Number(s, 0), width, lanes - 1), scalar, scalar + 1);
    }
  }

  lemma LaneByLaneIsPermutation(s: Shape, width: nat, n: nat)
    requires width >= 1 && n == Size(s) * width
    ensures var e := LaneByLane(s, width, width, n);
      Bounded(e, n + 1) && multiset(Leaves(e)) == multiset(Iota(n + 1))
  {
    LaneByLaneLeaves(s, width, width, n);
    ColumnsArePermutation(Size(s), width);
    assert Iota(n + 1) == Iota(n) + [n];
  }

  lemma SimdIsFair(width: nat, s: Shape, skip: nat)
    requires width >= 1
    ensures Fair(Simd(width, s, skip))
  {
    var n := Size(s) * width;
    MultipleBounds(width, Size(s));
    assert n >= 1;
    SingleLeaves(OwnUpdates(n), Iota(n));
    LaneByLaneIsPermutation(s, width, n);
  }

  lemma {:induction false} LaneUpdatesLeaves(width: nat, s: Shape, l: nat)
    requires l <= width
    ensures AllLeaves(LaneUpdates(width, s)[..l]) == Columns(Size(s), width, l)
  {
    if l > 0 {
      var updates := LaneUpdates(width, s);
      LaneUpdatesLeaves(width, s, l - 1);
      assert updates[..l][..l - 1] == updates[..l - 1];
      NumberInLane(s, width, l - 1);
    }
  }

  lemma LaneUpdatesAreFair(width: nat, s: Shape)
    requires width >= 1
    ensures var n := Size(s) * width; var us := LaneUpdates(width, s);
      && n >= 1 && multiset(AllLeaves(us)) == multiset(Iota(n))
      && forall l :: 0 <= l < width ==> Bounded(us[l].e, n)
  {
    var us := LaneUpdates(width, s);
    MultipleBounds(width, Size(s));
    LaneUpdatesLeaves(width, s, width);
    assert us[..width] == us;
    ColumnsArePermutation(Size(s), width);
    forall l | 0 <= l < width ensures Bounded(us[l].e, Size(s) * width) {
      NumberInLane(s, width, l);
    }
  }

  lemma SimdReassociatedIsFair(width: nat, s: Shape, skip: nat)
    requires width >= 1
    ensures Fair(SimdReassociated(width, s, skip))
  {
    var p := SimdReassociated(width, s, skip);
    LaneUpdatesAreFair(width, s);
    assert Size(X) == 1;
    LaneByLaneIsPermutation(X, width, width);
    assert forall u :: 0 <= u < |p.updates| ==> p.updates[u].target == u && Bounded(p.updates[u].e, p.stride);
    PartsAreFair(p);
  }

  lemma PartsAreFair(p: Plan)
    requires p.stride >= 1 && p.tail < p.accs
    requires forall u :: 0 <= u < |p.updates| ==> p.updates[u].target < p.accs && Bounded(p.updates[u].e, p.stride)
    requires multiset(AllLeaves(p.updates)) == multiset(Iota(p.stride))
    requires Bounded(p.result, p.accs) && multiset(Leaves(p.result)) == multiset(Iota(p.accs))
    ensures Fair(p)
  {
  }

  /** For every vector width, every starting alignment and every length, the SIMD functions agree
      with combine1 over every commutative monoid. */
  lemma SimdAgrees<T(!new)>(op: (T, T) -> T, ident: T, width: nat, s: Shape, skip: nat, data: seq<T>)
    requires CommutativeMonoid(op, ident) && width >= 1
    ensures Fair(Simd(width, s, skip)) && Result(op, ident, Simd(width, s, skip), data) == Fold(op, ident, data)
    ensures Fair(SimdReassociated(width, s, skip))
    ensures Result(op, ident, SimdReassociated(width, s, skip), data) == Fold(op, ident, data)
  {
    SimdIsFair(width, s, skip);
    FairIsFold(op, ident, Simd(width, s, skip), data);
    SimdReassociatedIsFair(width, s, skip);
    FairIsFold(op, ident, SimdReassociated(width, s, skip), data);
  }

  // ----- Split halves -----

  /** unrollx2as and unroll4x2as: one accumulator for each half of the vector, the odd element
      going to the second. */
  method SplitHalves<T>(v: Vec<T>, op: (T, T) -> T, ident: T) returns (dest: T)
    requires v.Valid()
    ensures var data := v.Elements(); var h := |data| / 2;
      dest == op(Fold(op, ident, data[..h]), Fold(op, ident, data[h..]))
  {
    var data := v.Elements();
    var limit := |data| / 2;
    var acc0, acc1 := ident, ident;
    for i := 0 to limit
      invariant acc0 == Fold(op, ident, data[0..i])
      invariant acc1 == Fold(op, ident, data[limit..limit + i])
    {
      FoldMore(op, ident, data, 0, i);
      FoldMore(op, ident, data, limit, limit + i);
      acc0, acc1 := op(acc0, data[i]), op(acc1, data[limit + i]);
    }
    acc1 := Leftover(op, acc1, data, limit * 2);
    FoldOfRest(op, ident, data, limit, limit * 2);
    assert data[0..limit] == data[..limit];
    dest := op(acc0, acc1);
  }

  lemma FoldOfRest<T>(op: (T, T) -> T, a: T, data: seq<T>, from: nat, i: nat)
    requires from <= i <= |data|
    ensures Fold(op, Fold(op, a, data[from..i]), data[i..]) == Fold(op, a, data[from..])
  {
    FoldConcat(op, a, data[from..i], data[i..]);
    assert data[from..i] + data[i..] == data[from..];
  }

  lemma {:induction false} FoldAfter<T(!new)>(op: (T, T) -> T, ident: T, a: T, t: seq<T>)
    requires Associative(op) && LeftIdentity(op, ident) && t != []
    ensures op(a, Fold(op, ident, t)) == Fold(op, a, t)
  {
    var front, last := t[..|t| - 1], t[|t| - 1];
    if front == [] {
      assert IdentityAt(op, ident, last);
    } else {
      FoldAfter(op, ident, a, front);
      assert AssociativeAt(op, a, Fold(op, ident, front), last);
    }
  }

  /** Splitting in halves agrees with combine1 for every associative operator with a left identity;
      commutativity is not needed. */
  lemma SplitHalvesAgrees<T(!new)>(op: (T, T) -> T, ident: T, data: seq<T>)
    requires Associative(op) && LeftIdentity(op, ident)
    ensures var h := |data| / 2;
      op(Fold(op, ident, data[..h]), Fold(op, ident, data[h..])) == Fold(op, ident, data)
  {
    var h := |data| / 2;
    var front, back := data[..h], data[h..];
    assert data == front + back;
    FoldConcat(op, ident, front, back);
    if back == [] {
      assert front == [] && IdentityAt(op, ident, ident);
    } else {
      FoldAfter(op, ident, Fold(op, ident, front), back);
    }
  }
}
