/** Converting a directed graph, given as a flattened adjacency matrix, to its undirected
    counterpart in place. */
module GraphConvert {
  import opened Arithmetic

  /** Where element (row, col) of a dim x dim matrix is stored. */
  function At(dim: nat, row: nat, col: nat): (k: nat)
    requires row < dim && col < dim
    ensures k < dim * dim
  {
    assert (row + 1) * dim <= dim * dim;
    row * dim + col
  }

  lemma AtInjective(dim: nat, r: nat, c: nat, r': nat, c': nat)
    requires r < dim && c < dim && r' < dim && c' < dim
    requires At(dim, r, c) == At(dim, r', c')
    ensures r == r' && c == c'
  {
    assert dim * (r - r') == c' - c;
    MultipleBounds(dim, r - r');
    MultipleBounds(dim, r' - r);
    assert dim * (r' - r) == c - c';
  }

  /** Element k lies in row k / dim and column k % dim. */
  lemma RowAndColumn(dim: nat, k: nat)
    requires k < dim * dim
    ensures dim >= 1 && k / dim < dim && k % dim < dim && At(dim, k / dim, k % dim) == k
  {
    if dim == 0 {
      assert false;
    }
    assert k == dim * (k / dim) + k % dim;
    MultipleBounds(dim, k / dim - dim + 1);
    assert dim * (k / dim - dim + 1) == dim * (k / dim) - dim * dim + dim;
  }

  /** The index of the mirrored element: row and column change places. */
  function Mirror(dim: nat, k: nat): (m: nat)
    requires k < dim * dim
    ensures m < dim * dim
  {
    RowAndColumn(dim, k);
    At(dim, k % dim, k / dim)
  }

  /** C's logical or. */
  function Or(x: int, y: int): int { if x != 0 || y != 0 then 1 else 0 }

  /** Element (row, col) of the undirected graph. */
  function Joined(g: seq<int>, dim: nat, row: nat, col: nat): int
    requires |g| == dim * dim && row < dim && col < dim
  {
    Or(g[At(dim, row, col)], g[At(dim, col, row)])
  }

  /** The iterations run through the columns i, and the rows j of each. */
  predicate Passed(row: nat, col: nat, i: nat, j: nat) {
    col < i || (col == i && row < j)
  }

  /** Before iteration (i, j): the elements passed are converted, the others are as they were. */
  ghost predicate Halfway(g: seq<int>, original: seq<int>, dim: nat, i: nat, j: nat) {
    && |g| == |original| == dim * dim
    && forall r: nat, c: nat {:trigger At(dim, r, c)} :: r < dim && c < dim ==>
         g[At(dim, r, c)] == if Passed(r, c, i, j) then Joined(original, dim, r, c) else original[At(dim, r, c)]
  }

  /** The element an iteration reads may already have been overwritten by an earlier one - with the
      value this iteration would compute anyway. */
  lemma OneIteration(g: seq<int>, original: seq<int>, dim: nat, i: nat, j: nat)
    requires Halfway(g, original, dim, i, j) && i < dim && j < dim
    ensures Halfway(g[At(dim, j, i) := Or(g[At(dim, j, i)], g[At(dim, i, j)])], original, dim, i, j + 1)
  {
    var here := At(dim, j, i);
    var g' := g[here := Or(g[here], g[At(dim, i, j)])];
    forall r: nat, c: nat {:trigger At(dim, r, c)} | r < dim && c < dim
      ensures g'[At(dim, r, c)] == if Passed(r, c, i, j + 1)
          then Joined(original, dim, r, c) else original[At(dim, r, c)]
    {
      if At(dim, r, c) == here {
        AtInjective(dim, r, c, j, i);
      }
    }
  }

  lemma JoinedByIndex(h: seq<int>, g: seq<int>, dim: nat)
    requires |g| == |h| == dim * dim
    requires forall a: nat, b: nat :: a < dim && b < dim ==> h[At(dim, a, b)] == Joined(g, dim, a, b)
    ensures forall k: nat :: k < dim * dim ==> h[k] == if g[k] != 0 || g[Mirror(dim, k)] != 0 then 1 else 0
  {
    forall k: nat | k < dim * dim ensures h[k] == if g[k] != 0 || g[Mirror(dim, k)] != 0 then 1 else 0 {
      RowAndColumn(dim, k);
      assert h[At(dim, k / dim, k % dim)] == Joined(g, dim, k / dim, k % dim);
    }
  }

  lemma MirroredByIndex(h: seq<int>, g: seq<int>, dim: nat)
    requires |g| == |h| == dim * dim
    requires forall a: nat, b: nat :: a < dim && b < dim ==> h[At(dim, a, b)] == g[At(dim, b, a)]
    ensures forall k: nat :: k < dim * dim ==> h[k] == g[Mirror(dim, k)]
  {
    forall k: nat | k < dim * dim ensures h[k] == g[Mirror(dim, k)] {
      RowAndColumn(dim, k);
      assert h[At(dim, k / dim, k % dim)] == g[At(dim, k % dim, k / dim)];
    }
  }

  /** col_convert. */
  method ColConvert(g: array<int>, dim: nat)
    requires g.Length == dim * dim
    modifies g
    ensures forall a: nat, b: nat :: a < dim && b < dim ==> g[At(dim, a, b)] == old(Joined(g[..], dim, a, b))
    ensures forall k: nat :: k < dim * dim ==>
        g[k] == if old(g[k]) != 0 || old(g[Mirror(dim, k)]) != 0 then 1 else 0
  {
    ghost var original := g[..];
    for i := 0 to dim
      invariant Halfway(g[..], original, dim, i, 0)
    {
      for j := 0 to dim
        invariant Halfway(g[..], original, dim, i, j)
      {
        ghost var before := g[..];
        OneIteration(before, original, dim, i, j);
        var here, there := At(dim, j, i), At(dim, i, j);
        g[here] := Or(g[here], g[there]);
        assert g[..] == before[here := Or(before[here], before[there])];
      }
    }
    assert forall a: nat, b: nat :: a < dim && b < dim ==> g[At(dim, a, b)] == g[..][At(dim, a, b)];
    JoinedByIndex(g[..], original, dim);
  }

  /** Converting twice is converting once, and the result is symmetric with entries 0 and 1. */
  lemma JoinedIsSymmetric(g: seq<int>, h: seq<int>, dim: nat, a: nat, b: nat)
    requires |g| == |h| == dim * dim && a < dim && b < dim
    requires forall r: nat, c: nat :: r < dim && c < dim ==> h[At(dim, r, c)] == Joined(g, dim, r, c)
    ensures h[At(dim, a, b)] == h[At(dim, b, a)]
    ensures Joined(h, dim, a, b) == h[At(dim, a, b)]
  {
    assert h[At(dim, a, b)] == Joined(g, dim, a, b) && h[At(dim, b, a)] == Joined(g, dim, b, a);
  }

  /** transpose, into a matrix that does not overlap the source. */
  method Transpose(dst: array<int>, src: array<int>, dim: nat)
    requires dst != src && dst.Length == src.Length == dim * dim
    modifies dst
    ensures forall a: nat, b: nat :: a < dim && b < dim ==> dst[At(dim, a, b)] == src[At(dim, b, a)]
    ensures forall k: nat :: k < dim * dim ==> dst[k] == src[Mirror(dim, k)]
  {
    for i := 0 to dim
      invariant forall r: nat, c: nat :: r < dim && c < i ==> dst[At(dim, r, c)] == src[At(dim, c, r)]
    {
      for j := 0 to dim
        invariant forall r: nat, c: nat :: r < dim && c < i ==> dst[At(dim, r, c)] == src[At(dim, c, r)]
        invariant forall r: nat :: r < j ==> dst[At(dim, r, i)] == src[At(dim, i, r)]
      {
        forall r: nat, c: nat | r < dim && c < dim && At(dim, r, c) == At(dim, j, i) ensures r == j && c == i {
          AtInjective(dim, r, c, j, i);
        }
        dst[At(dim, j, i)] := src[At(dim, i, j)];
      }
    }
    MirroredByIndex(dst[..], src[..], dim);
  }
}
