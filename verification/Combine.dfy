/** Loop-transformed reductions.  Each combining function is described by a plan: how far it
    steps, which accumulator each element of a step goes to and in which association, where left-
    over elements go, and how the accumulators are put together at the end.  `Combine` executes a
    plan; the theorems say for which plans, and under which laws of OP, the value stored is that
    of the plain left fold `combine1`. */
module Combine {
  import opened Vectors

  // ----- The operator and its laws -----

  // Each law is stated through a predicate on its instances, so that proofs name the instances
  // they use.
  ghost predicate AssociativeAt<T>(op: (T, T) -> T, x: T, y: T, z: T) { op(op(x, y), z) == op(x, op(y, z)) }
  ghost predicate CommutativeAt<T>(op: (T, T) -> T, x: T, y: T) { op(x, y) == op(y, x) }
  ghost predicate IdentityAt<T>(op: (T, T) -> T, ident: T, x: T) { op(ident, x) == x }

  ghost predicate Associative<T(!new)>(op: (T, T) -> T) {
    forall x, y, z :: AssociativeAt(op, x, y, z)
  }

  ghost predicate Commutative<T(!new)>(op: (T, T) -> T) {
    forall x, y :: CommutativeAt(op, x, y)
  }

  ghost predicate LeftIdentity<T(!new)>(op: (T, T) -> T, ident: T) {
    forall x :: IdentityAt(op, ident, x)
  }

  ghost predicate CommutativeMonoid<T(!new)>(op: (T, T) -> T, ident: T) {
    Associative(op) && Commutative(op) && LeftIdentity(op, ident)
  }

  /** The left fold from a: ((a OP s[0]) OP s[1]) OP ... */
  function Fold<T>(op: (T, T) -> T, a: T, s: seq<T>): T {
    if s == [] then a else op(Fold(op, a, s[..|s| - 1]), s[|s| - 1])
  }

  lemma {:induction false} FoldConcat<T>(op: (T, T) -> T, a: T, s: seq<T>, t: seq<T>)
    ensures Fold(op, a, s + t) == Fold(op, Fold(op, a, s), t)
  {
    if t == [] {
      assert s + t == s;
    } else {
      assert (s + t)[..|s + t| - 1] == s + t[..|t| - 1];
      FoldConcat(op, a, s, t[..|t| - 1]);
    }
  }

  /** acc = acc OP data[i], for the elements from `from` on. */
  lemma FoldMore<T>(op: (T, T) -> T, a: T, data: seq<T>, from: nat, i: nat)
    requires from <= i < |data|
    ensures Fold(op, a, data[from..i + 1]) == op(Fold(op, a, data[from..i]), data[i])
  {
    assert data[from..i + 1][..i - from] == data[from..i];
  }

  /** The loop that finishes the remaining elements. */
  method Leftover<T>(op: (T, T) -> T, acc: T, data: seq<T>, from: nat) returns (r: T)
    requires from <= |data|
    ensures r == Fold(op, acc, data[from..])
  {
    r := acc;
    var i := from;
    while i < |data|
      invariant from <= i <= |data| && r == Fold(op, acc, data[from..i])
    {
      FoldMore(op, acc, data, from, i);
      r := op(r, data[i]);
      i := i + 1;
    }
    assert data[from..i] == data[from..];
  }

  /** combine1: bounds-checked access to every element, accumulating in the destination. */
  method Combine1<T>(v: Vec<T>, op: (T, T) -> T, ident: T) returns (dest: T)
    requires v.Valid()
    ensures dest == Fold(op, ident, v.Elements())
  {
    dest := ident;
    var i := 0;
    var n := v.Length();
    while i < n
      invariant 0 <= i && i <= |v.Elements()|
      invariant n == v.len && dest == Fold(op, ident, v.Elements()[..i])
      decreases n - i
    {
      var ok, val := v.Get(i, ident);
      dest := op(dest, val);
      assert v.Elements()[..i + 1][..i] == v.Elements()[..i];
      i := i + 1;
      n := v.Length();
    }
    assert v.Elements()[..i] == v.Elements();
  }

  // ----- Plans -----

  datatype Expr = Leaf(i: nat) | Node(left: Expr, right: Expr)

  /** acc[target] = acc[target] OP e, where e is over the elements of the current step. */
  datatype Update = Update(target: nat, e: Expr)

  /** First `skip` single elements go to accumulator `tail`; then `stride` elements at a time are
      combined by `updates`; then the remaining elements go to `tail`; `result` combines the
      accumulators.  Only the SIMD functions skip. */
  datatype Plan = Plan(skip: nat, stride: nat, accs: nat, updates: seq<Update>, tail: nat, result: Expr)

  predicate Bounded(e: Expr, n: nat) {
    match e
    case Leaf(i) => i < n
    case Node(l, r) => Bounded(l, n) && Bounded(r, n)
  }

  predicate WellFormed(p: Plan) {
    && p.stride >= 1 && p.tail < p.accs && Bounded(p.result, p.accs)
    && forall u :: 0 <= u < |p.updates| ==> p.updates[u].target < p.accs && Bounded(p.updates[u].e, p.stride)
  }

  function Eval<T>(op: (T, T) -> T, e: Expr, env: seq<T>): T
    requires Bounded(e, |env|)
  {
    match e
    case Leaf(i) => env[i]
    case Node(l, r) => op(Eval(op, l, env), Eval(op, r, env))
  }

  /** The accumulators after some updates of one step. */
  function Apply<T>(op: (T, T) -> T, updates: seq<Update>, accs: seq<T>, chunk: seq<T>): (r: seq<T>)
    requires forall u :: 0 <= u < |updates| ==> updates[u].target < |accs| && Bounded(updates[u].e, |chunk|)
    ensures |r| == |accs|
  {
    if updates == [] then accs
    else
      var before := Apply(op, updates[..|updates| - 1], accs, chunk);
      var u := updates[|updates| - 1];
      before[u.target := op(before[u.target], Eval(op, u.e, chunk))]
  }

  /** The accumulators after all full steps over `data`, and the elements left over. */
  function Strides<T>(op: (T, T) -> T, p: Plan, accs: seq<T>, data: seq<T>): (r: (seq<T>, seq<T>))
    requires WellFormed(p) && |accs| == p.accs
    ensures |r.0| == p.accs
    decreases |data|
  {
    if |data| < p.stride then (accs, data)
    else Strides(op, p, Apply(op, p.updates, accs, data[..p.stride]), data[p.stride..])
  }

  function Single<T>(op: (T, T) -> T, p: Plan, accs: seq<T>, data: seq<T>): (r: seq<T>)
    requires WellFormed(p) && |accs| == p.accs
    ensures |r| == p.accs
  {
    accs[p.tail := Fold(op, accs[p.tail], data)]
  }

  /** The value a plan computes. */
  function Result<T>(op: (T, T) -> T, ident: T, p: Plan, data: seq<T>): T
    requires WellFormed(p)
  {
    var skip := if p.skip < |data| then p.skip else |data|;
    var start := Single(op, p, seq(p.accs, i => ident), data[..skip]);
    var (accs, rest) := Strides(op, p, start, data[skip..]);
    Eval(op, p.result, Single(op, p, accs, rest))
  }

  /** Executes a plan: the three loops of every combining function, and the final combination. */
  method Combine<T>(p: Plan, v: Vec<T>, op: (T, T) -> T, ident: T) returns (dest: T)
    requires v.Valid() && WellFormed(p)
    ensures dest == Result(op, ident, p, v.Elements())
  {
    var data := v.Elements();
    var skip := if p.skip < |data| then p.skip else |data|;
    var accs := Singly(p, op, seq(p.accs, i => ident), data, 0, skip);
    assert data[0..skip] == data[..skip];
    ghost var start := accs;
    var i := skip;
    while i + p.stride <= |data|
      invariant skip <= i <= |data| && |accs| == p.accs
      invariant Strides(op, p, accs, data[i..]) == Strides(op, p, start, data[skip..])
    {
      accs := Step(p, op, accs, data[i..][..p.stride]);
      assert data[i..][p.stride..] == data[i + p.stride..];
      i := i + p.stride;
    }
    accs := Singly(p, op, accs, data, i, |data|);
    assert data[i..|data|] == data[i..];
    dest := Eval(op, p.result, accs);
  }

  /** The loops over single elements, before and after the unrolled one. */
  method Singly<T>(p: Plan, op: (T, T) -> T, accs: seq<T>, data: seq<T>, from: nat, end: nat) returns (r: seq<T>)
    requires WellFormed(p) && |accs| == p.accs && from <= end <= |data|
    ensures r == Single(op, p, accs, data[from..end])
  {
    r := accs;
    var i := from;
    while i < end
      invariant from <= i <= end && r == Single(op, p, accs, data[from..i])
    {
      assert data[from..i + 1][..i - from] == data[from..i];
      r := r[p.tail := op(r[p.tail], data[i])];
      i := i + 1;
    }
  }

  /** One pass through the unrolled loop body. */
  method Step<T>(p: Plan, op: (T, T) -> T, accs: seq<T>, chunk: seq<T>) returns (r: seq<T>)
    requires WellFormed(p) && |accs| == p.accs && |chunk| == p.stride
    ensures r == Apply(op, p.updates, accs, chunk)
  {
    r := accs;
    for u := 0 to |p.updates|
      invariant |r| == p.accs && r == Apply(op, p.updates[..u], accs, chunk)
    {
      assert p.updates[..u + 1][..u] == p.updates[..u];
      var upd := p.updates[u];
      r := r[upd.target := op(r[upd.target], Eval(op, upd.e, chunk))];
    }
    assert p.updates[..|p.updates|] == p.updates;
  }

  // ----- Leaves and their order -----

  function Leaves(e: Expr): seq<nat> {
    match e
    case Leaf(i) => [i]
    case Node(l, r) => Leaves(l) + Leaves(r)
  }

  function AllLeaves(updates: seq<Update>): seq<nat> {
    if updates == [] then []
    else AllLeaves(updates[..|updates| - 1]) + Leaves(updates[|updates| - 1].e)
  }

  function Iota(n: nat): seq<nat> { seq(n, i => i) }

  function Pick<T>(env: seq<T>, indices: seq<nat>): seq<T>
    requires forall k :: 0 <= k < |indices| ==> indices[k] < |env|
  {
    seq(|indices|, k requires 0 <= k < |indices| => env[indices[k]])
  }

  lemma {:induction false} LeavesInRange(e: Expr, n: nat)
    requires Bounded(e, n)
    ensures forall k :: 0 <= k < |Leaves(e)| ==> Leaves(e)[k] < n
  {
    if e.Node? {
      LeavesInRange(e.left, n);
      LeavesInRange(e.right, n);
    }
  }

  lemma {:induction false} AllLeavesInRange(updates: seq<Update>, n: nat)
    requires forall u :: 0 <= u < |updates| ==> Bounded(updates[u].e, n)
    ensures forall k :: 0 <= k < |AllLeaves(updates)| ==> AllLeaves(updates)[k] < n
  {
    if updates != [] {
      AllLeavesInRange(updates[..|updates| - 1], n);
      LeavesInRange(updates[|updates| - 1].e, n);
    }
  }

  /** Associativity alone turns any expression into left-nested form. */
  lemma {:induction false} EvalIsFold<T(!new)>(op: (T, T) -> T, a: T, e: Expr, env: seq<T>)
    requires Associative(op) && Bounded(e, |env|)
    requires forall k :: 0 <= k < |Leaves(e)| ==> Leaves(e)[k] < |env|
    ensures op(a, Eval(op, e, env)) == Fold(op, a, Pick(env, Leaves(e)))
  {
    match e
    case Leaf(i) =>
      assert Pick(env, [i]) == [env[i]] && [env[i]][..0] == [];
    case Node(l, r) =>
      LeavesInRange(l, |env|);
      LeavesInRange(r, |env|);
      assert AssociativeAt(op, a, Eval(op, l, env), Eval(op, r, env));
      EvalIsFold(op, a, l, env);
      EvalIsFold(op, op(a, Eval(op, l, env)), r, env);
      FoldConcat(op, a, Pick(env, Leaves(l)), Pick(env, Leaves(r)));
      assert Pick(env, Leaves(e)) == Pick(env, Leaves(l)) + Pick(env, Leaves(r));
  }

  // ----- One accumulator -----

  predicate OneAccumulator(p: Plan) {
    && WellFormed(p) && p.accs == 1 && p.tail == 0 && p.result == Leaf(0)
  }

  /** The unrolled body has the effect of `stride` iterations of the plain loop. */
  ghost predicate BodyIsFold<T(!new)>(op: (T, T) -> T, p: Plan)
    requires OneAccumulator(p)
  {
    forall a: T, chunk: seq<T> :: |chunk| == p.stride ==> Apply(op, p.updates, [a], chunk) == [Fold(op, a, chunk)]
  }

  lemma {:induction false} StridesAreFold<T(!new)>(op: (T, T) -> T, p: Plan, a: T, data: seq<T>)
    requires OneAccumulator(p) && BodyIsFold(op, p)
    ensures var (accs, rest) := Strides(op, p, [a], data); Fold(op, accs[0], rest) == Fold(op, a, data)
    decreases |data|
  {
    if |data| >= p.stride {
      var chunk := data[..p.stride];
      assert Apply(op, p.updates, [a], chunk) == [Fold(op, a, chunk)];
      StridesAreFold(op, p, Fold(op, a, chunk), data[p.stride..]);
      FoldConcat(op, a, chunk, data[p.stride..]);
      assert data == chunk + data[p.stride..];
    }
  }

  lemma OneAccumulatorResult<T(!new)>(op: (T, T) -> T, ident: T, p: Plan, data: seq<T>)
    requires OneAccumulator(p) && BodyIsFold(op, p)
    ensures Result(op, ident, p, data) == Fold(op, ident, data)
  {
    var skip := if p.skip < |data| then p.skip else |data|;
    var a := Fold(op, ident, data[..skip]);
    assert Single(op, p, seq(p.accs, i => ident), data[..skip]) == [a];
    StridesAreFold(op, p, a, data[skip..]);
    FoldConcat(op, ident, data[..skip], data[skip..]);
    assert data == data[..skip] + data[skip..];
  }

  /** acc = acc OP data[i]; acc = acc OP data[i+1]; ... as in combine5 and the unroll*a functions. */
  function LeftNested(stride: nat): Plan
    requires stride >= 1
  {
    Plan(0, stride, 1, seq(stride, (j: nat) => Update(0, Leaf(j))), 0, Leaf(0))
  }

  lemma {:induction false} LeftNestedPrefix<T>(op: (T, T) -> T, stride: nat, j: nat, a: T, chunk: seq<T>)
    requires stride >= 1 && j <= stride && |chunk| == stride
    ensures var updates := LeftNested(stride).updates[..j];
      Apply(op, updates, [a], chunk) == [Fold(op, a, chunk[..j])]
  {
    if j > 0 {
      LeftNestedPrefix(op, stride, j - 1, a, chunk);
      assert LeftNested(stride).updates[..j][..j - 1] == LeftNested(stride).updates[..j - 1];
      assert chunk[..j][..j - 1] == chunk[..j - 1];
    }
  }

  /** Single-accumulator, left-nested unrolling by any factor computes the plain left fold for any
      operator whatsoever: no law is needed. */
  lemma LeftNestedIsFold<T(!new)>(op: (T, T) -> T, ident: T, stride: nat, data: seq<T>)
    requires stride >= 1
    ensures Result(op, ident, LeftNested(stride), data) == Fold(op, ident, data)
  {
    var p := LeftNested(stride);
    forall a: T, chunk: seq<T> | |chunk| == stride ensures Apply(op, p.updates, [a], chunk) == [Fold(op, a, chunk)] {
      LeftNestedPrefix(op, stride, stride, a, chunk);
      assert p.updates[..stride] == p.updates && chunk[..stride] == chunk;
    }
    OneAccumulatorResult(op, ident, p, data);
  }

  /** Reassociating within one accumulator needs associativity, and nothing else, provided each
      step uses its elements in order. */
  lemma ReassociatedIsFold<T(!new)>(op: (T, T) -> T, ident: T, p: Plan, data: seq<T>)
    requires OneAccumulator(p) && AllLeaves(p.updates) == Iota(p.stride)
    requires Associative(op)
    ensures Result(op, ident, p, data) == Fold(op, ident, data)
  {
    forall a: T, chunk: seq<T> | |chunk| == p.stride
      ensures Apply(op, p.updates, [a], chunk) == [Fold(op, a, chunk)]
    {
      AllLeavesInRange(p.updates, p.stride);
      ApplyToOne(op, p.updates, a, chunk);
      assert Pick(chunk, Iota(p.stride)) == chunk;
    }
    OneAccumulatorResult(op, ident, p, data);
  }

  lemma {:induction false} ApplyToOne<T(!new)>(op: (T, T) -> T, updates: seq<Update>, a: T, chunk: seq<T>)
    requires Associative(op)
    requires forall u :: 0 <= u < |updates| ==> updates[u].target == 0 && Bounded(updates[u].e, |chunk|)
    requires forall k :: 0 <= k < |AllLeaves(updates)| ==> AllLeaves(updates)[k] < |chunk|
    ensures Apply(op, updates, [a], chunk) == [Fold(op, a, Pick(chunk, AllLeaves(updates)))]
  {
    if updates != [] {
      var before, e := updates[..|updates| - 1], updates[|updates| - 1].e;
      AllLeavesInRange(before, |chunk|);
      LeavesInRange(e, |chunk|);
      ApplyToOne(op, before, a, chunk);
      EvalIsFold(op, Fold(op, a, Pick(chunk, AllLeaves(before))), e, chunk);
      FoldConcat(op, a, Pick(chunk, AllLeaves(before)), Pick(chunk, Leaves(e)));
      assert Pick(chunk, AllLeaves(updates)) == Pick(chunk, AllLeaves(before)) + Pick(chunk, Leaves(e));
    }
  }

  // ----- Several accumulators -----

  function Remove<T>(s: seq<T>, i: nat): seq<T>
    requires i < |s|
  {
    s[..i] + s[i + 1..]
  }

  lemma RemoveOne<T>(s: seq<T>, i: nat)
    requires i < |s|
    ensures multiset(s) == multiset(Remove(s, i)) + multiset{s[i]}
    ensures multiset(Remove(s, i)) == multiset(s) - multiset{s[i]}
  {
    assert s == s[..i] + [s[i]] + s[i + 1..];
  }

  /** In a commutative setting any element can be folded in last. */
  lemma {:induction false} FoldLast<T(!new)>(op: (T, T) -> T, a: T, s: seq<T>, i: nat)
    requires Associative(op) && Commutative(op) && i < |s|
    ensures Fold(op, a, s) == op(Fold(op, a, Remove(s, i)), s[i])
  {
    var front, last := s[..|s| - 1], s[|s| - 1];
    if i == |s| - 1 {
      assert Remove(s, i) == front;
    } else {
      FoldLast(op, a, front, i);
      var rest := Remove(s, i);
      assert rest[..|rest| - 1] == Remove(front, i) && rest[|rest| - 1] == last;
      var b := Fold(op, a, Remove(front, i));
      assert AssociativeAt(op, b, s[i], last) && AssociativeAt(op, b, last, s[i]) && CommutativeAt(op, last, s[i]);
    }
  }

  lemma {:induction false} FoldPermuted<T(!new)>(op: (T, T) -> T, a: T, s: seq<T>, t: seq<T>)
    requires Associative(op) && Commutative(op) && multiset(s) == multiset(t)
    ensures Fold(op, a, s) == Fold(op, a, t)
    decreases |s|
  {
    if s == [] {
      assert |multiset(t)| == 0;
    } else {
      var x := s[|s| - 1];
      assert Remove(s, |s| - 1) == s[..|s| - 1];
      RemoveOne(s, |s| - 1);
      assert x in multiset(t);
      var i :| 0 <= i < |t| && t[i] == x;
      RemoveOne(t, i);
      FoldLast(op, a, t, i);
      FoldPermuted(op, a, s[..|s| - 1], Remove(t, i));
    }
  }

  /** A sequence of the right length that mentions every index below n is a permutation of them. */
  lemma {:induction false} CoveringIsPermutation(s: seq<nat>, n: nat)
    requires |s| == n && forall j: nat :: j < n ==> j in s
    ensures multiset(s) == multiset(Iota(n))
  {
    if n > 0 {
      var last: nat := n - 1;
      assert last in s;
      var i :| 0 <= i < n && s[i] == last;
      var rest := Remove(s, i);
      forall j: nat | j < n - 1 ensures j in rest {
        assert j in s;
        var k :| 0 <= k < n && s[k] == j;
        assert rest[if k < i then k else k - 1] == j;
      }
      CoveringIsPermutation(rest, n - 1);
      RemoveOne(s, i);
      assert Iota(n) == Iota(n - 1) + [n - 1];
    }
  }

  lemma {:induction false} PickPermuted<T>(env: seq<T>, s: seq<nat>, t: seq<nat>)
    requires multiset(s) == multiset(t)
    requires forall k :: 0 <= k < |s| ==> s[k] < |env|
    requires forall k :: 0 <= k < |t| ==> t[k] < |env|
    ensures multiset(Pick(env, s)) == multiset(Pick(env, t))
    decreases |s|
  {
    if s == [] {
      assert |multiset(t)| == 0;
    } else {
      var x := s[|s| - 1];
      assert Remove(s, |s| - 1) == s[..|s| - 1];
      RemoveOne(s, |s| - 1);
      assert x in multiset(t);
      var i :| 0 <= i < |t| && t[i] == x;
      RemoveOne(t, i);
      PickPermuted(env, s[..|s| - 1], Remove(t, i));
      PickRemove(env, s, |s| - 1);
      PickRemove(env, t, i);
    }
  }

  lemma PickRemove<T>(env: seq<T>, t: seq<nat>, i: nat)
    requires i < |t| && forall k :: 0 <= k < |t| ==> t[k] < |env|
    ensures multiset(Pick(env, t)) == multiset(Pick(env, Remove(t, i))) + multiset{env[t[i]]}
  {
    RemoveOne(Pick(env, t), i);
    assert Pick(env, Remove(t, i)) == Remove(Pick(env, t), i);
  }

  /** Every element of a step is used exactly once, and so is every accumulator at the end. */
  predicate Fair(p: Plan) {
    && WellFormed(p)
    && multiset(AllLeaves(p.updates)) == multiset(Iota(p.stride))
    && multiset(Leaves(p.result)) == multiset(Iota(p.accs))
  }

  /** Adding into one accumulator adds into their combination. */
  lemma UpdateTotal<T(!new)>(op: (T, T) -> T, ident: T, accs: seq<T>, i: nat, x: T)
    requires Associative(op) && Commutative(op) && i < |accs|
    ensures Fold(op, ident, accs[i := op(accs[i], x)]) == op(Fold(op, ident, accs), x)
  {
    var after := accs[i := op(accs[i], x)];
    FoldLast(op, ident, accs, i);
    FoldLast(op, ident, after, i);
    assert Remove(accs, i) == Remove(after, i);
    assert AssociativeAt(op, Fold(op, ident, Remove(accs, i)), accs[i], x);
  }

  lemma {:induction false} SingleTotal<T(!new)>(op: (T, T) -> T, ident: T, p: Plan, accs: seq<T>, data: seq<T>)
    requires Associative(op) && Commutative(op) && WellFormed(p) && |accs| == p.accs
    ensures Fold(op, ident, Single(op, p, accs, data)) == Fold(op, Fold(op, ident, accs), data)
  {
    if data == [] {
      assert Single(op, p, accs, data) == accs;
    } else {
      var front, x := data[..|data| - 1], data[|data| - 1];
      var before := Single(op, p, accs, front);
      SingleTotal(op, ident, p, accs, front);
      UpdateTotal(op, ident, before, p.tail, x);
      assert Single(op, p, accs, data) == before[p.tail := op(before[p.tail], x)];
    }
  }

  lemma {:induction false} ApplyTotal<T(!new)>(op: (T, T) -> T, ident: T, updates: seq<Update>, accs: seq<T>,
      chunk: seq<T>)
    requires Associative(op) && Commutative(op)
    requires forall u :: 0 <= u < |updates| ==> updates[u].target < |accs| && Bounded(updates[u].e, |chunk|)
    requires forall k :: 0 <= k < |AllLeaves(updates)| ==> AllLeaves(updates)[k] < |chunk|
    ensures Fold(op, ident, Apply(op, updates, accs, chunk)) ==
        Fold(op, Fold(op, ident, accs), Pick(chunk, AllLeaves(updates)))
  {
    if updates != [] {
      var front, u := updates[..|updates| - 1], updates[|updates| - 1];
      AllLeavesInRange(front, |chunk|);
      LeavesInRange(u.e, |chunk|);
      ApplyTotal(op, ident, front, accs, chunk);
      var before := Apply(op, front, accs, chunk);
      UpdateTotal(op, ident, before, u.target, Eval(op, u.e, chunk));
      EvalIsFold(op, Fold(op, ident, before), u.e, chunk);
      FoldConcat(op, Fold(op, ident, accs), Pick(chunk, AllLeaves(front)), Pick(chunk, Leaves(u.e)));
      assert Pick(chunk, AllLeaves(updates)) == Pick(chunk, AllLeaves(front)) + Pick(chunk, Leaves(u.e));
    }
  }

  /** A step of a fair plan adds its elements into the combination of the accumulators. */
  lemma StepTotal<T(!new)>(op: (T, T) -> T, ident: T, p: Plan, accs: seq<T>, chunk: seq<T>)
    requires Associative(op) && Commutative(op) && Fair(p) && |accs| == p.accs && |chunk| == p.stride
    ensures Fold(op, ident, Apply(op, p.updates, accs, chunk)) == Fold(op, Fold(op, ident, accs), chunk)
  {
    AllLeavesInRange(p.updates, p.stride);
    ApplyTotal(op, ident, p.updates, accs, chunk);
    PickPermuted(chunk, AllLeaves(p.updates), Iota(p.stride));
    assert Pick(chunk, Iota(p.stride)) == chunk;
    FoldPermuted(op, Fold(op, ident, accs), Pick(chunk, AllLeaves(p.updates)), chunk);
  }

  lemma {:induction false} StridesTotal<T(!new)>(op: (T, T) -> T, ident: T, p: Plan, accs: seq<T>, data: seq<T>)
    requires Associative(op) && Commutative(op) && Fair(p) && |accs| == p.accs
    ensures var (r, rest) := Strides(op, p, accs, data);
      Fold(op, Fold(op, ident, r), rest) == Fold(op, Fold(op, ident, accs), data)
    decreases |data|
  {
    if |data| >= p.stride {
      var chunk := data[..p.stride];
      var total := Fold(op, ident, accs);
      StepTotal(op, ident, p, accs, chunk);
      StridesTotal(op, ident, p, Apply(op, p.updates, accs, chunk), data[p.stride..]);
      FoldConcat(op, total, chunk, data[p.stride..]);
      assert data == chunk + data[p.stride..];
    }
  }

  lemma {:induction false} FoldIdents<T(!new)>(op: (T, T) -> T, ident: T, n: nat)
    requires LeftIdentity(op, ident)
    ensures Fold(op, ident, seq(n, i => ident)) == ident
  {
    if n > 0 {
      assert IdentityAt(op, ident, ident);
      FoldIdents(op, ident, n - 1);
      assert seq(n, i => ident)[..n - 1] == seq(n - 1, i => ident);
    }
  }

  /** The final combination of the accumulators has the value of their fold. */
  lemma FinalCombination<T(!new)>(op: (T, T) -> T, ident: T, p: Plan, accs: seq<T>)
    requires CommutativeMonoid(op, ident) && Fair(p) && |accs| == p.accs
    ensures Eval(op, p.result, accs) == Fold(op, ident, accs)
  {
    LeavesInRange(p.result, p.accs);
    EvalIsFold(op, ident, p.result, accs);
    PickPermuted(accs, Leaves(p.result), Iota(p.accs));
    assert Pick(accs, Iota(p.accs)) == accs;
    FoldPermuted(op, ident, Pick(accs, Leaves(p.result)), accs);
    assert IdentityAt(op, ident, Eval(op, p.result, accs));
  }

  /** Any fair plan - any number of accumulators, any assignment of elements to them, any final
      combination, any number of elements skipped first - computes the plain left fold over every
      commutative monoid. */
  lemma FairIsFold<T(!new)>(op: (T, T) -> T, ident: T, p: Plan, data: seq<T>)
    requires CommutativeMonoid(op, ident) && Fair(p)
    ensures Result(op, ident, p, data) == Fold(op, ident, data)
  {
    var skip := if p.skip < |data| then p.skip else |data|;
    var idents := seq(p.accs, i => ident);
    var start := Single(op, p, idents, data[..skip]);
    var (accs, rest) := Strides(op, p, start, data[skip..]);
    FoldIdents(op, ident, p.accs);
    SingleTotal(op, ident, p, idents, data[..skip]);
    StridesTotal(op, ident, p, start, data[skip..]);
    SingleTotal(op, ident, p, accs, rest);
    FoldConcat(op, ident, data[..skip], data[skip..]);
    assert data == data[..skip] + data[skip..];
    FinalCombination(op, ident, p, Single(op, p, accs, rest));
  }
}
