/** Exactly which laws of OP each family of combining functions needs. */
module CombineLaws {
  import opened Arithmetic
  import opened Combine
  import opened Combiners
  import opened PlanSteps

  /** The function described by p stores what combine1 stores, for every vector. */
  ghost predicate Agrees<T(!new)>(op: (T, T) -> T, ident: T, p: Plan)
    requires WellFormed(p)
  {
    forall data: seq<T> :: Result(op, ident, p, data) == Fold(op, ident, data)
  }

  ghost predicate RightIdentityAt<T>(op: (T, T) -> T, ident: T, x: T) { op(x, ident) == x }

  ghost predicate RightIdentity<T(!new)>(op: (T, T) -> T, ident: T) {
    forall x :: RightIdentityAt(op, ident, x)
  }

  ghost predicate Unital<T(!new)>(op: (T, T) -> T, ident: T) {
    LeftIdentity(op, ident) && RightIdentity(op, ident)
  }

  // ----- Sequences that hold little but the identity -----

  function Idents<T>(ident: T, n: nat): (s: seq<T>)
    ensures |s| == n && forall k :: 0 <= k < n ==> s[k] == ident
  {
    seq(n, k => ident)
  }

  lemma {:induction false} FoldOfIdents<T(!new)>(op: (T, T) -> T, ident: T, a: T, s: seq<T>)
    requires RightIdentity(op, ident) && forall k :: 0 <= k < |s| ==> s[k] == ident
    ensures Fold(op, a, s) == a
  {
    if s != [] {
      FoldOfIdents(op, ident, a, s[..|s| - 1]);
      assert RightIdentityAt(op, ident, a);
    }
  }

  /** s is the identity everywhere but at i. */
  ghost predicate OnlyAt<T>(s: seq<T>, ident: T, i: nat, x: T) {
    i < |s| && s[i] == x && forall k :: 0 <= k < |s| && k != i ==> s[k] == ident
  }

  lemma {:induction false} FoldOfOne<T(!new)>(op: (T, T) -> T, ident: T, a: T, s: seq<T>, i: nat, x: T)
    requires RightIdentity(op, ident) && OnlyAt(s, ident, i, x)
    ensures Fold(op, a, s) == op(a, x)
  {
    var last := |s| - 1;
    if i == last {
      FoldOfIdents(op, ident, a, s[..last]);
    } else {
      FoldOfOne(op, ident, a, s[..last], i, x);
      assert RightIdentityAt(op, ident, op(a, x));
    }
  }

  lemma {:induction false} FoldOfTwo<T(!new)>(op: (T, T) -> T, ident: T, a: T, s: seq<T>, i: nat, x: T, j: nat, y: T)
    requires RightIdentity(op, ident) && i < j < |s| && s[i] == x && s[j] == y
    requires forall k :: 0 <= k < |s| && k != i && k != j ==> s[k] == ident
    ensures Fold(op, a, s) == op(op(a, x), y)
  {
    FoldConcat(op, a, s[..j], s[j..]);
    assert s == s[..j] + s[j..];
    FoldOfOne(op, ident, a, s[..j], i, x);
    FoldOfOne(op, ident, op(a, x), s[j..], 0, y);
  }

  // ----- One step over such a sequence -----

  lemma {:induction false} EvalOfIdents<T(!new)>(op: (T, T) -> T, ident: T, e: Expr, env: seq<T>)
    requires RightIdentity(op, ident) && Bounded(e, |env|) && forall k :: k in Leaves(e) && k < |env| ==>
        env[k] == ident
    ensures Eval(op, e, env) == ident
  {
    match e
    case Leaf(k) => assert k in Leaves(e);
    case Node(l, r) =>
      EvalOfIdents(op, ident, l, env);
      EvalOfIdents(op, ident, r, env);
      assert RightIdentityAt(op, ident, ident);
  }

  lemma {:induction false} EvalOfOne<T(!new)>(op: (T, T) -> T, ident: T, e: Expr, env: seq<T>, i: nat, x: T)
    requires Unital(op, ident) && Bounded(e, |env|) && multiset(Leaves(e))[i] == 1
    requires i < |env| && env[i] == x && forall k :: k in Leaves(e) && k < |env| && k != i ==> env[k] == ident
    ensures Eval(op, e, env) == x
  {
    match e
    case Leaf(k) => assert k in Leaves(e);
    case Node(l, r) =>
      assert IdentityAt(op, ident, x) && RightIdentityAt(op, ident, x);
      if i in Leaves(l) {
        EvalOfOne(op, ident, l, env, i, x);
        EvalOfIdents(op, ident, r, env);
      } else {
        EvalOfIdents(op, ident, l, env);
        EvalOfOne(op, ident, r, env, i, x);
      }
  }

  ghost predicate Runnable(updates: seq<Update>, accs: nat, n: nat) {
    forall w :: 0 <= w < |updates| ==> updates[w].target < accs && Bounded(updates[w].e, n)
  }

  ghost predicate Quiet<T>(u: Update, chunk: seq<T>, ident: T) {
    forall k :: k in Leaves(u.e) && k < |chunk| ==> chunk[k] == ident
  }

  lemma {:induction false} ApplyQuiet<T(!new)>(op: (T, T) -> T, ident: T, updates: seq<Update>, accs: seq<T>,
      chunk: seq<T>)
    requires RightIdentity(op, ident) && Runnable(updates, |accs|, |chunk|)
    requires forall w :: 0 <= w < |updates| ==> Quiet(updates[w], chunk, ident)
    ensures Apply(op, updates, accs, chunk) == accs
  {
    if updates != [] {
      var u := updates[|updates| - 1];
      ApplyQuiet(op, ident, updates[..|updates| - 1], accs, chunk);
      EvalOfIdents(op, ident, u.e, chunk);
      assert RightIdentityAt(op, ident, accs[u.target]);
    }
  }

  /** If only update u of a step meets anything but the identity, only its accumulator changes. */
  lemma {:induction false} ApplyAt<T(!new)>(op: (T, T) -> T, ident: T, updates: seq<Update>, u: nat, accs: seq<T>,
                                            chunk: seq<T>)
    requires RightIdentity(op, ident) && Runnable(updates, |accs|, |chunk|) && u < |updates|
    requires forall w :: 0 <= w < |updates| && w != u ==> Quiet(updates[w], chunk, ident)
    ensures var t := updates[u].target;
      Apply(op, updates, accs, chunk) == accs[t := op(accs[t], Eval(op, updates[u].e, chunk))]
  {
    var front, last := updates[..|updates| - 1], updates[|updates| - 1];
    if u == |front| {
      ApplyQuiet(op, ident, front, accs, chunk);
    } else {
      ApplyAt(op, ident, front, u, accs, chunk);
      EvalOfIdents(op, ident, last.e, chunk);
      assert RightIdentityAt(op, ident, Apply(op, front, accs, chunk)[last.target]);
    }
  }

  // ----- Every element of a step belongs to one update -----

  lemma {:induction false} IotaOnce(n: nat, i: nat)
    ensures multiset(Iota(n))[i] == if i < n then 1 else 0
  {
    if n > 0 {
      IotaOnce(n - 1, i);
      assert Iota(n) == Iota(n - 1) + [n - 1];
    }
  }

  lemma LeavesOfLast(updates: seq<Update>, i: nat)
    requires updates != []
    ensures multiset(AllLeaves(updates))[i] ==
              multiset(AllLeaves(updates[..|updates| - 1]))[i] + multiset(Leaves(updates[|updates| - 1].e))[i]
  {
    assert AllLeaves(updates) == AllLeaves(updates[..|updates| - 1]) + Leaves(updates[|updates| - 1].e);
  }

  lemma {:induction false} LeavesOfEach(updates: seq<Update>, u: nat, i: nat)
    requires u < |updates|
    ensures multiset(AllLeaves(updates))[i] >= multiset(Leaves(updates[u].e))[i]
  {
    LeavesOfLast(updates, i);
    if u < |updates| - 1 {
      LeavesOfEach(updates[..|updates| - 1], u, i);
    }
  }

  lemma {:induction false} LeavesOfTwo(updates: seq<Update>, u: nat, w: nat, i: nat)
    requires u < w < |updates|
    ensures multiset(AllLeaves(updates))[i] >= multiset(Leaves(updates[u].e))[i] + multiset(Leaves(updates[w].e))[i]
  {
    LeavesOfLast(updates, i);
    if w < |updates| - 1 {
      LeavesOfTwo(updates[..|updates| - 1], u, w, i);
    } else {
      LeavesOfEach(updates[..|updates| - 1], u, i);
    }
  }

  lemma OwnLeaf(updates: seq<Update>, n: nat, u: nat, i: nat)
    requires multiset(AllLeaves(updates)) == multiset(Iota(n)) && u < |updates| && i in Leaves(updates[u].e)
    ensures i < n && multiset(Leaves(updates[u].e))[i] == 1
    ensures forall w :: 0 <= w < |updates| && w != u ==> i !in Leaves(updates[w].e)
  {
    IotaOnce(n, i);
    assert i in multiset(Leaves(updates[u].e));
    LeavesOfEach(updates, u, i);
    forall w | 0 <= w < |updates| && w != u ensures i !in Leaves(updates[w].e) {
      if u < w {
        LeavesOfTwo(updates, u, w, i);
      } else {
        LeavesOfTwo(updates, w, u, i);
      }
    }
  }

  lemma {:induction false} SomeLeaf(e: Expr) returns (i: nat)
    ensures |Leaves(e)| > 0 && i == Leaves(e)[0]
  {
    if e.Node? {
      var _ := SomeLeaf(e.left);
    }
    i := Leaves(e)[0];
  }

  // ----- Several accumulators -----

  /** One step that holds x at i. */
  function StepWith<T>(ident: T, n: nat, i: nat, x: T): (chunk: seq<T>)
    requires i < n
    ensures OnlyAt(chunk, ident, i, x) && |chunk| == n
  {
    Idents(ident, n)[i := x]
  }

  /** Three steps, the identity everywhere but in one element of each. */
  function Probe<T>(ident: T, p: Plan, i: nat, j: nat, x: T, y: T, z: T): seq<T>
    requires i < p.stride && j < p.stride
  {
    var n := p.stride;
    Idents(ident, p.skip) + (StepWith(ident, n, i, x) + (StepWith(ident, n, j, y) + StepWith(ident, n, i, z)))
  }

  lemma ProbeFold<T(!new)>(op: (T, T) -> T, ident: T, p: Plan, i: nat, j: nat, x: T, y: T, z: T)
    requires Unital(op, ident) && i < p.stride && j < p.stride
    ensures Fold(op, ident, Probe(ident, p, i, j, x, y, z)) == op(op(x, y), z)
  {
    var n := p.stride;
    var a, b, c := StepWith(ident, n, i, x), StepWith(ident, n, j, y), StepWith(ident, n, i, z);
    FoldConcat(op, ident, Idents(ident, p.skip), a + (b + c));
    FoldOfIdents(op, ident, ident, Idents(ident, p.skip));
    FoldConcat(op, ident, a, b + c);
    FoldOfOne(op, ident, ident, a, i, x);
    assert IdentityAt(op, ident, x);
    FoldConcat(op, x, b, c);
    FoldOfOne(op, ident, x, b, j, y);
    FoldOfOne(op, ident, op(x, y), c, i, z);
  }

  /** A step that holds x where update u finds it. */
  lemma OneElement<T(!new)>(op: (T, T) -> T, ident: T, p: Plan, u: nat, i: nat, accs: seq<T>, x: T)
    requires Unital(op, ident) && Fair(p) && u < |p.updates| && i in Leaves(p.updates[u].e) && |accs| == p.accs
    ensures i < p.stride
    ensures var t := p.updates[u].target;
      Apply(op, p.updates, accs, StepWith(ident, p.stride, i, x)) == accs[t := op(accs[t], x)]
  {
    OwnLeaf(p.updates, p.stride, u, i);
    var chunk := StepWith(ident, p.stride, i, x);
    EvalOfOne(op, ident, p.updates[u].e, chunk, i, x);
    ApplyAt(op, ident, p.updates, u, accs, chunk);
  }

  lemma ThreeSteps<T(!new)>(op: (T, T) -> T, ident: T, p: Plan, a: seq<T>, b: seq<T>, c: seq<T>, after: seq<T>)
    requires RightIdentity(op, ident) && WellFormed(p) && |a| == |b| == |c| == p.stride
    requires after == Apply(op, p.updates, Apply(op, p.updates, Apply(op, p.updates, Idents(ident, p.accs), a), b), c)
    ensures Result(op, ident, p, Idents(ident, p.skip) + (a + (b + c))) == Eval(op, p.result, after)
  {
    var data, idents := Idents(ident, p.skip) + (a + (b + c)), Idents(ident, p.accs);
    assert data[..p.skip] == Idents(ident, p.skip) && data[p.skip..] == a + (b + c);
    FoldOfIdents(op, ident, ident, data[..p.skip]);
    assert seq(p.accs, k => ident) == idents;
    assert Single(op, p, idents, data[..p.skip]) == idents;
    FullStride(op, p, idents, a, b + c);
    FullStride(op, p, Apply(op, p.updates, idents, a), b, c);
    FullStride(op, p, Apply(op, p.updates, Apply(op, p.updates, idents, a), b), c, []);
    assert c + [] == c && Strides(op, p, after, []) == (after, []);
    assert Single(op, p, after, []) == after;
  }

  /** The result depends on x and z only through x OP z, which is in the accumulator of update u; y is
      in that of update w. */
  lemma ProbeResult<T(!new)>(op: (T, T) -> T, ident: T, p: Plan, u: nat, w: nat, i: nat, j: nat, x: T, y: T, z: T)
    requires Unital(op, ident) && Fair(p) && u < |p.updates| && w < |p.updates|
    requires p.updates[u].target != p.updates[w].target
    requires i in Leaves(p.updates[u].e) && j in Leaves(p.updates[w].e)
    ensures i < p.stride && j < p.stride
    ensures Result(op, ident, p, Probe(ident, p, i, j, x, y, z)) ==
              Eval(op, p.result, Idents(ident, p.accs)[p.updates[u].target := op(x, z)][p.updates[w].target := y])
  {
    var idents, s, t := Idents(ident, p.accs), p.updates[u].target, p.updates[w].target;
    OneElement(op, ident, p, u, i, idents, x);
    OneElement(op, ident, p, w, j, idents[s := x], y);
    OneElement(op, ident, p, u, i, idents[s := x][t := y], z);
    assert IdentityAt(op, ident, x) && IdentityAt(op, ident, y);
    var after := idents[s := op(x, z)][t := y];
    assert idents[s := x][t := y][s := op(x, z)] == after;
    var n := p.stride;
    ThreeSteps(op, ident, p, StepWith(ident, n, i, x), StepWith(ident, n, j, y), StepWith(ident, n, i, z), after);
  }

  /** What agreement on two probes says: elements that reach the same accumulators in the same order
      have the same fold. */
  lemma SameAccumulators<T(!new)>(op: (T, T) -> T, ident: T, p: Plan, u: nat, w: nat, i: nat, j: nat, x: T, y: T, z: T,
                                  x': T, z': T)
    requires Unital(op, ident) && Fair(p) && u < |p.updates| && w < |p.updates|
    requires p.updates[u].target != p.updates[w].target
    requires i in Leaves(p.updates[u].e) && j in Leaves(p.updates[w].e)
    requires Agrees(op, ident, p) && op(x, z) == op(x', z')
    ensures op(op(x, y), z) == op(op(x', y), z')
  {
    ProbeResult(op, ident, p, u, w, i, j, x, y, z);
    ProbeResult(op, ident, p, u, w, i, j, x', y, z');
    ProbeFold(op, ident, p, i, j, x, y, z);
    ProbeFold(op, ident, p, i, j, x', y, z');
  }

  lemma {:induction false} LawsFromSwaps<T(!new)>(op: (T, T) -> T, ident: T)
    requires Unital(op, ident)
    requires forall x, y, z, x', z' :: op(x, z) == op(x', z') ==> op(op(x, y), z) == op(op(x', y), z')
    ensures Associative(op) && Commutative(op)
  {
    forall x, y ensures CommutativeAt(op, x, y) {
      assert IdentityAt(op, ident, x) && RightIdentityAt(op, ident, x) && IdentityAt(op, ident, y) &&
          RightIdentityAt(op, ident, op(x, y));
      assert op(op(x, y), ident) == op(op(ident, y), x);
    }
    forall x, y, z ensures AssociativeAt(op, x, y, z) {
      assert RightIdentityAt(op, ident, op(y, z)) && RightIdentityAt(op, ident, op(op(y, z), x));
      assert op(op(y, x), z) == op(op(op(y, z), x), ident);
      assert CommutativeAt(op, x, y) && CommutativeAt(op, op(y, z), x);
    }
  }

  /** Over an operator with an identity, a function that uses more than one accumulator stores what
      combine1 stores if and only if OP associates and commutes. */
  lemma SeveralExactly<T(!new)>(op: (T, T) -> T, ident: T, p: Plan, u: nat, w: nat)
    requires Unital(op, ident) && Fair(p) && u < |p.updates| && w < |p.updates|
    requires p.updates[u].target != p.updates[w].target
    ensures Agrees(op, ident, p) <==> Associative(op) && Commutative(op)
  {
    if Agrees(op, ident, p) {
      var i := SomeLeaf(p.updates[u].e);
      var j := SomeLeaf(p.updates[w].e);
      forall x, y, z, x', z' | op(x, z) == op(x', z') ensures op(op(x, y), z) == op(op(x', y), z') {
        SameAccumulators(op, ident, p, u, w, i, j, x, y, z, x', z');
      }
      LawsFromSwaps(op, ident);
    }
    if Associative(op) && Commutative(op) {
      forall data: seq<T> ensures Result(op, ident, p, data) == Fold(op, ident, data) {
        FairIsFold(op, ident, p, data);
      }
    }
  }

  // ----- Associativity -----

  /** Where the operands of update u begin among all the operands of a step. */
  lemma {:induction false} LeavesOffset(updates: seq<Update>, u: nat) returns (o: nat)
    requires u < |updates|
    ensures var ls := Leaves(updates[u].e); o + |ls| <= |AllLeaves(updates)| && AllLeaves(updates)[o..o + |ls|] == ls
  {
    var front, last := updates[..|updates| - 1], updates[|updates| - 1];
    var before := AllLeaves(front);
    if u == |front| {
      o := |before|;
    } else {
      o := LeavesOffset(front, u);
      var end := o + |Leaves(updates[u].e)|;
      assert (before + Leaves(last.e))[o..end] == before[o..end];
    }
  }

  /** Update u combines two operands i < j of the step with each other before it uses them. */
  ghost predicate Pairs(updates: seq<Update>, u: nat, i: nat, j: nat) {
    u < |updates| && updates[u].e.Node? && i < j && i in Leaves(updates[u].e.left) && j in Leaves(updates[u].e.right)
  }

  lemma PairOf(updates: seq<Update>, n: nat, u: nat) returns (i: nat, j: nat)
    requires AllLeaves(updates) == Iota(n) && u < |updates| && updates[u].e.Node?
    ensures Pairs(updates, u, i, j) && j < n
  {
    var e := updates[u].e;
    var o := LeavesOffset(updates, u);
    i := SomeLeaf(e.left);
    j := SomeLeaf(e.right);
    var m := |Leaves(e.left)|;
    assert Leaves(e)[0] == i && Leaves(e)[m] == j;
    assert AllLeaves(updates)[o] == Leaves(e)[0] && AllLeaves(updates)[o + m] == Leaves(e)[m];
  }

  lemma PairLeaves(updates: seq<Update>, n: nat, u: nat, i: nat, j: nat)
    requires multiset(AllLeaves(updates)) == multiset(Iota(n)) && Pairs(updates, u, i, j)
    ensures var l, r := Leaves(updates[u].e.left), Leaves(updates[u].e.right);
      multiset(l)[i] == 1 && multiset(r)[j] == 1 && i !in r && j !in l
    ensures forall w :: 0 <= w < |updates| && w != u ==> i !in Leaves(updates[w].e) && j !in Leaves(updates[w].e)
  {
    var e := updates[u].e;
    OwnLeaf(updates, n, u, i);
    OwnLeaf(updates, n, u, j);
    assert multiset(Leaves(e)) == multiset(Leaves(e.left)) + multiset(Leaves(e.right));
    assert i in multiset(Leaves(e.left)) && j in multiset(Leaves(e.right));
  }

  lemma PairEval<T(!new)>(op: (T, T) -> T, ident: T, e: Expr, env: seq<T>, i: nat, j: nat, x: T, y: T)
    requires Unital(op, ident) && e.Node? && Bounded(e, |env|)
    requires multiset(Leaves(e.left))[i] == 1 && multiset(Leaves(e.right))[j] == 1
    requires i !in Leaves(e.right) && j !in Leaves(e.left)
    requires i < |env| && j < |env| && env[i] == x && env[j] == y
    requires forall k :: 0 <= k < |env| && k != i && k != j ==> env[k] == ident
    ensures Eval(op, e, env) == op(x, y)
  {
    EvalOfOne(op, ident, e.left, env, i, x);
    EvalOfOne(op, ident, e.right, env, j, y);
  }

  /** A step that holds x at i and y at j: update u adds x OP y to the accumulator. */
  lemma PairStep<T(!new)>(op: (T, T) -> T, ident: T, p: Plan, u: nat, i: nat, j: nat, a: T, x: T, y: T)
    requires Unital(op, ident) && OneAccumulator(p) && AllLeaves(p.updates) == Iota(p.stride)
    requires Pairs(p.updates, u, i, j) && j < p.stride
    ensures Apply(op, p.updates, [a], Idents(ident, p.stride)[i := x][j := y]) == [op(a, op(x, y))]
  {
    var chunk := Idents(ident, p.stride)[i := x][j := y];
    PairLeaves(p.updates, p.stride, u, i, j);
    PairEval(op, ident, p.updates[u].e, chunk, i, j, x, y);
    ApplyAt(op, ident, p.updates, u, [a], chunk);
  }

  lemma FullStride<T>(op: (T, T) -> T, p: Plan, accs: seq<T>, chunk: seq<T>, rest: seq<T>)
    requires WellFormed(p) && |accs| == p.accs && |chunk| == p.stride
    ensures Strides(op, p, accs, chunk + rest) == Strides(op, p, Apply(op, p.updates, accs, chunk), rest)
  {
    assert (chunk + rest)[..p.stride] == chunk && (chunk + rest)[p.stride..] == rest;
  }

  /** Two steps of n elements: a, then x and y, and the identity everywhere else. */
  function Pair<T>(ident: T, n: nat, i: nat, j: nat, a: T, x: T, y: T): seq<T>
    requires i < n && j < n
  {
    Idents(ident, n)[i := a] + Idents(ident, n)[i := x][j := y]
  }

  /** Two steps: the first brings a into the accumulator, the second x and y. */
  lemma PairResult<T(!new)>(op: (T, T) -> T, ident: T, p: Plan, u: nat, i: nat, j: nat, a: T, x: T, y: T)
    requires Unital(op, ident) && OneAccumulator(p) && p.skip == 0 && AllLeaves(p.updates) == Iota(p.stride)
    requires Pairs(p.updates, u, i, j) && j < p.stride
    ensures Result(op, ident, p, Pair(ident, p.stride, i, j, a, x, y)) == op(a, op(x, y))
  {
    var first, second := Idents(ident, p.stride)[i := a], Idents(ident, p.stride)[i := x][j := y];
    var data := first + second;
    assert first == Idents(ident, p.stride)[i := a][j := ident];
    PairStep(op, ident, p, u, i, j, ident, a, ident);
    PairStep(op, ident, p, u, i, j, a, x, y);
    assert IdentityAt(op, ident, a) && RightIdentityAt(op, ident, a);
    assert seq(p.accs, k => ident) == [ident];
    FullStride(op, p, [ident], first, second);
    FullStride(op, p, [a], second, []);
    assert second + [] == second;
    ResultAfterStrides(op, ident, p, data, [op(a, op(x, y))], []);
  }

  lemma PairFold<T(!new)>(op: (T, T) -> T, ident: T, n: nat, i: nat, j: nat, a: T, x: T, y: T)
    requires Unital(op, ident) && i < j < n
    ensures Fold(op, ident, Pair(ident, n, i, j, a, x, y)) == op(op(a, x), y)
  {
    var first, second := Idents(ident, n)[i := a], Idents(ident, n)[i := x][j := y];
    FoldConcat(op, ident, first, second);
    FoldOfOne(op, ident, ident, first, i, a);
    assert IdentityAt(op, ident, a);
    FoldOfTwo(op, ident, a, second, i, x, j, y);
  }

  /** Over an operator with an identity, a single-accumulator function that combines some elements
      with each other first stores what combine1 stores if and only if OP associates. */
  lemma AssociativityExactly<T(!new)>(op: (T, T) -> T, ident: T, p: Plan, u: nat)
    requires Unital(op, ident) && OneAccumulator(p) && p.skip == 0 && AllLeaves(p.updates) == Iota(p.stride)
    requires u < |p.updates| && p.updates[u].e.Node?
    ensures Agrees(op, ident, p) <==> Associative(op)
  {
    if Agrees(op, ident, p) {
      var i, j := PairOf(p.updates, p.stride, u);
      forall a, x, y ensures AssociativeAt(op, a, x, y) {
        PairResult(op, ident, p, u, i, j, a, x, y);
        PairFold(op, ident, p.stride, i, j, a, x, y);
      }
    }
    if Associative(op) {
      forall data: seq<T> ensures Result(op, ident, p, data) == Fold(op, ident, data) {
        ReassociatedIsFold(op, ident, p, data);
      }
    }
  }

  // ----- The families of the source -----

  /** combine7 and the unroll*aa functions need associativity, and a shape of one element nothing. */
  lemma ReassociatedExactly<T(!new)>(op: (T, T) -> T, ident: T, s: Shape)
    requires Unital(op, ident) && s.S?
    ensures WellFormed(Reassociated(s)) && (Agrees(op, ident, Reassociated(s)) <==> Associative(op))
  {
    var p := Reassociated(s);
    NumberIsIota(s);
    LeavesOfOne(p.updates[0]);
    assert p.updates == [p.updates[0]];
    AssociativityExactly(op, ident, p, 0);
  }

  lemma SmallRemainder(a: nat, m: nat)
    requires a < m
    ensures a % m == a
  {
  }

  /** Elements 0 and 1 go to accumulators 0 and 1. */
  lemma InterleavedExactly<T(!new)>(op: (T, T) -> T, ident: T, order: seq<nat>, s: Shape, u: nat, w: nat)
    requires Unital(op, ident) && s.S? && multiset(order) == multiset(Iota(|order|))
    requires u < |order| && w < |order| && order[u] == 0 && order[w] == 1
    ensures var p := Interleaved(order, Size(s), 0, Number(s, 0));
      WellFormed(p) && (Agrees(op, ident, p) <==> Associative(op) && Commutative(op))
  {
    var p := Interleaved(order, Size(s), 0, Number(s, 0));
    ShapedIsFair(order, s);
    SmallRemainder(0, Size(s));
    SmallRemainder(1, Size(s));
    SeveralExactly(op, ident, p, u, w);
  }

  /** The multi-accumulator functions need both laws. */
  lemma MultiExactly<T(!new)>(op: (T, T) -> T, ident: T, stride: nat, s: Shape)
    requires Unital(op, ident) && stride >= 2 && s.S?
    ensures WellFormed(Multi(stride, s))
    ensures Agrees(op, ident, Multi(stride, s)) <==> Associative(op) && Commutative(op)
  {
    InterleavedExactly(op, ident, Iota(stride), s, 0, 1);
  }

  lemma MultiZigzagExactly<T(!new)>(op: (T, T) -> T, ident: T, stride: nat, s: Shape)
    requires Unital(op, ident) && stride >= 12 && s.S?
    ensures WellFormed(MultiZigzag(stride, s))
    ensures Agrees(op, ident, MultiZigzag(stride, s)) <==> Associative(op) && Commutative(op)
  {
    ZigzagIsPermutation(6, stride);
    InterleavedExactly(op, ident, Zigzag(6, stride), s, 0, 2);
  }

  lemma Unroll8x4Exactly<T(!new)>(op: (T, T) -> T, ident: T)
    requires Unital(op, ident)
    ensures WellFormed(UNROLL8X4) && (Agrees(op, ident, UNROLL8X4) <==> Associative(op) && Commutative(op))
  {
    Unroll8x4IsFair();
    SeveralExactly(op, ident, UNROLL8X4, 0, 1);
  }

  /** So do the SIMD functions, whatever is left before the data is aligned. */
  lemma SimdExactly<T(!new)>(op: (T, T) -> T, ident: T, width: nat, s: Shape, skip: nat)
    requires Unital(op, ident) && width >= 2
    ensures WellFormed(Simd(width, s, skip))
    ensures Agrees(op, ident, Simd(width, s, skip)) <==> Associative(op) && Commutative(op)
  {
    SimdIsFair(width, s, skip);
    MultipleBounds(width, Size(s));
    SeveralExactly(op, ident, Simd(width, s, skip), 0, 1);
  }

  lemma SimdReassociatedExactly<T(!new)>(op: (T, T) -> T, ident: T, width: nat, s: Shape, skip: nat)
    requires Unital(op, ident) && width >= 2
    ensures WellFormed(SimdReassociated(width, s, skip))
    ensures Agrees(op, ident, SimdReassociated(width, s, skip)) <==> Associative(op) && Commutative(op)
  {
    SimdReassociatedIsFair(width, s, skip);
    SeveralExactly(op, ident, SimdReassociated(width, s, skip), 0, 1);
  }

  // ----- combine7 and combine6 with an identity on the left only -----

  lemma FoldOfFew<T>(op: (T, T) -> T, ident: T, a: T, b: T, c: T)
    ensures Fold(op, ident, [a, b]) == op(op(ident, a), b)
    ensures Fold(op, ident, [a, b, c]) == op(op(op(ident, a), b), c)
  {
    assert [a][..0] == [] && [a, b][..1] == [a] && [a, b, c][..2] == [a, b];
    assert Fold(op, ident, [a]) == op(ident, a);
    assert Fold(op, ident, [a, b]) == op(op(ident, a), b);
  }

  /** On two elements combine7 agrees with combine1 exactly if OP associates there, so the law
      cannot be dropped. */
  lemma Combine7OnTwo<T>(op: (T, T) -> T, ident: T, a: T, b: T)
    ensures WellFormed(Reassociated(X2))
    ensures Result(op, ident, Reassociated(X2), [a, b]) == op(ident, op(a, b))
    ensures Result(op, ident, Reassociated(X2), [a, b]) == Fold(op, ident, [a, b]) <==> AssociativeAt(op, ident, a, b)
  {
    var p, data := Reassociated(X2), [a, b];
    var start := Single(op, p, seq(1, i => ident), data[..0]);
    assert start == [ident] && data[0..] == data && p.stride == 2;
    assert data[..2] == data && data[2..] == [];
    assert p.updates[..0] == [] && Apply(op, p.updates[..0], [ident], data) == [ident];
    assert Number(X2, 0) == Node(Leaf(0), Leaf(1));
    assert Eval(op, Number(X2, 0), data) == op(a, b);
    assert Apply(op, p.updates, [ident], data) == [op(ident, op(a, b))];
    assert Strides(op, p, [op(ident, op(a, b))], data[2..]) == ([op(ident, op(a, b))], []);
    assert Single(op, p, [op(ident, op(a, b))], []) == [op(ident, op(a, b))];
    FoldOfFew(op, ident, a, b, a);
  }

  ghost predicate IsTwoAtATime(p: Plan) {
    && WellFormed(p) && p.skip == 0 && p.stride == p.accs == 2 && p.tail == 0
    && p.updates == [Update(0, Leaf(0)), Update(1, Leaf(1))] && p.result == Node(Leaf(0), Leaf(1))
  }

  lemma TwoAccumulators()
    ensures IsTwoAtATime(Multi(2, X2))
  {
    MultiIsFair(2, X2);
  }

  /** On three elements combine6 takes the third before the second. */
  lemma Combine6OnThree<T>(op: (T, T) -> T, ident: T, a: T, b: T, c: T)
    ensures WellFormed(Multi(2, X2))
    ensures Result(op, ident, Multi(2, X2), [a, b, c]) == op(op(op(ident, a), c), op(ident, b))
  {
    TwoAccumulators();
    OneTurnOfTwo(op, ident, Multi(2, X2), a, b, c);
  }

  lemma OneTurnOfTwo<T>(op: (T, T) -> T, ident: T, p: Plan, a: T, b: T, c: T)
    requires IsTwoAtATime(p)
    ensures Result(op, ident, p, [a, b, c]) == op(op(op(ident, a), c), op(ident, b))
  {
    var data, start, accs := [a, b, c], [ident, ident], [op(ident, a), op(ident, b)];
    assert seq(p.accs, i => ident) == start && data[0..] == data && data[2..] == [c];
    ApplyTwo(op, Update(0, Leaf(0)), Update(1, Leaf(1)), start, data[0..2]);
    OneStride(op, p, start, data, 0, accs);
    ResultAfterStrides(op, ident, p, data, accs, [c]);
    assert [c][..0] == [] && Fold(op, accs[0], [c]) == op(accs[0], c);
    assert Single(op, p, accs, [c]) == [op(accs[0], c), accs[1]];
  }

  /** combine6 over concatenation, which is associative and has an identity, gives the wrong order:
      commutativity cannot be dropped. */
  lemma Combine6NeedsCommutativity()
    ensures var op := (x: seq<int>, y: seq<int>) => x + y;
      Associative(op) && LeftIdentity(op, [])
      && Result(op, [], Multi(2, X2), [[0], [1], [2]]) == [0, 2, 1] && Fold(op, [], [[0], [1], [2]]) == [0, 1, 2]
  {
    var op := (x: seq<int>, y: seq<int>) => x + y;
    forall x: seq<int>, y: seq<int>, z: seq<int> ensures AssociativeAt(op, x, y, z) {
      assert x + y + z == x + (y + z);
    }
    forall x: seq<int> ensures IdentityAt(op, [], x) {
      assert [] + x == x;
    }
    Combine6OnThree(op, [], [0], [1], [2]);
    FoldOfFew(op, [], [0], [1], [2]);
  }

  lemma FoldOfFour<T>(op: (T, T) -> T, ident: T, a: T, b: T, c: T, d: T)
    ensures Fold(op, ident, [a, b, c, d]) == op(op(op(op(ident, a), b), c), d)
  {
    FoldOfFew(op, ident, a, b, c);
    assert [a, b, c, d][..3] == [a, b, c];
  }

  /** On four elements combine7 combines the first two, then the last two. */
  lemma Combine7OnFour<T>(op: (T, T) -> T, ident: T, a: T, b: T, c: T, d: T)
    ensures WellFormed(Reassociated(X2))
    ensures Result(op, ident, Reassociated(X2), [a, b, c, d]) == op(op(ident, op(a, b)), op(c, d))
  {
    NumberIsIota(X2);
    var p, data, pair := Reassociated(X2), [a, b, c, d], Update(0, Number(X2, 0));
    assert p.updates == [pair] && pair.e == Node(Leaf(0), Leaf(1)) && seq(p.accs, i => ident) == [ident];
    var one := op(ident, op(a, b));
    ApplyOne(op, pair, [ident], data[0..2]);
    OneStride(op, p, [ident], data, 0, [one]);
    ApplyOne(op, pair, [one], data[2..4]);
    OneStride(op, p, [one], data, 2, [op(one, op(c, d))]);
    assert data[0..] == data && data[4..] == [];
    ResultAfterStrides(op, ident, p, data, [op(one, op(c, d))], []);
  }

  /** For every operator with a left identity, combine7 stores what combine1 stores if and only if
      OP associates. */
  lemma Combine7Exactly<T(!new)>(op: (T, T) -> T, ident: T)
    requires LeftIdentity(op, ident)
    ensures WellFormed(Reassociated(X2)) && (Agrees(op, ident, Reassociated(X2)) <==> Associative(op))
  {
    NumberIsIota(X2);
    if Agrees(op, ident, Reassociated(X2)) {
      forall x, y, z ensures AssociativeAt(op, x, y, z) {
        Combine7OnFour(op, ident, ident, x, y, z);
        FoldOfFour(op, ident, ident, x, y, z);
        assert IdentityAt(op, ident, ident) && IdentityAt(op, ident, x);
      }
    }
    if Associative(op) {
      forall data: seq<T> ensures Result(op, ident, Reassociated(X2), data) == Fold(op, ident, data) {
        ReassociatedAgrees(op, ident, X2, data);
      }
    }
  }

  /** For every operator with a left identity, combine6 stores what combine1 stores if and only if OP
      associates and commutes. */
  lemma Combine6Exactly<T(!new)>(op: (T, T) -> T, ident: T)
    requires LeftIdentity(op, ident)
    ensures WellFormed(Multi(2, X2))
    ensures Agrees(op, ident, Multi(2, X2)) <==> Associative(op) && Commutative(op)
  {
    MultiIsFair(2, X2);
    if Agrees(op, ident, Multi(2, X2)) {
      forall x, y ensures CommutativeAt(op, x, y) {
        Combine6OnThree(op, ident, ident, x, y);
        FoldOfFew(op, ident, ident, x, y);
        assert IdentityAt(op, ident, ident) && IdentityAt(op, ident, x) && IdentityAt(op, ident, y);
      }
      forall x, y, z ensures AssociativeAt(op, x, y, z) {
        Combine6OnThree(op, ident, y, x, z);
        FoldOfFew(op, ident, y, x, z);
        assert IdentityAt(op, ident, x) && IdentityAt(op, ident, y);
        assert CommutativeAt(op, x, y) && CommutativeAt(op, op(y, z), x);
      }
    }
    if Associative(op) && Commutative(op) {
      forall data: seq<T> ensures Result(op, ident, Multi(2, X2), data) == Fold(op, ident, data) {
        FairIsFold(op, ident, Multi(2, X2), data);
      }
    }
  }

  /** The split halves store what combine1 stores if and only if OP associates. */
  lemma SplitHalvesExactly<T(!new)>(op: (T, T) -> T, ident: T)
    requires LeftIdentity(op, ident)
    ensures (forall data: seq<T> :: HalvesAgree(op, ident, data)) <==> Associative(op)
  {
    if forall data: seq<T> :: HalvesAgree(op, ident, data) {
      forall x, y, z ensures AssociativeAt(op, x, y, z) {
        var data := [ident, x, y, z];
        assert HalvesAgree(op, ident, data);
        assert data[..2] == [ident, x] && data[2..] == [y, z];
        FoldOfFew(op, ident, ident, x, y);
        FoldOfFew(op, ident, y, z, z);
        FoldOfFour(op, ident, ident, x, y, z);
        assert IdentityAt(op, ident, ident) && IdentityAt(op, ident, x) && IdentityAt(op, ident, y);
      }
    }
    if Associative(op) {
      forall data: seq<T> ensures HalvesAgree(op, ident, data) {
        SplitHalvesAgrees(op, ident, data);
      }
    }
  }

  ghost predicate HalvesAgree<T>(op: (T, T) -> T, ident: T, data: seq<T>) {
    var h := |data| / 2;
    op(Fold(op, ident, data[..h]), Fold(op, ident, data[h..])) == Fold(op, ident, data)
  }
}
