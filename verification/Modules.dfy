/** One module of a symbol is a byte of flags; a symbol is a flat array of them, row by row. */
module Modules {

  // QR_MM_DATA, QR_MM_BLACK and QR_MM_FUNC.

  predicate IsData(m: bv8) { m & 1 != 0 }

  predicate IsBlack(m: bv8) { m & 2 != 0 }

  predicate IsFunc(m: bv8) { m & 4 != 0 }

  function SetData(m: bv8): (r: bv8)
    ensures IsData(r) && IsBlack(r) == IsBlack(m) && IsFunc(r) == IsFunc(m)
  {
    m | 1
  }

  function SetBlack(m: bv8): (r: bv8)
    ensures IsBlack(r) && IsData(r) == IsData(m) && IsFunc(r) == IsFunc(m)
  {
    m | 2
  }

  function ClearBlack(m: bv8): (r: bv8)
    ensures !IsBlack(r) && IsData(r) == IsData(m) && IsFunc(r) == IsFunc(m)
  {
    m & !2
  }

  function FlipBlack(m: bv8): (r: bv8)
    ensures IsBlack(r) == !IsBlack(m) && IsData(r) == IsData(m) && IsFunc(r) == IsFunc(m)
  {
    m ^ 2
  }

  function SetFunc(m: bv8): (r: bv8)
    ensures IsFunc(r) && IsData(r) == IsData(m) && IsBlack(r) == IsBlack(m)
  {
    m | 4
  }

  // ---- Cells ----

  function Index(dim: nat, y: int, x: int): int {
    y * dim + x
  }

  predicate Inside(dim: nat, y: int, x: int) {
    0 <= y < dim && 0 <= x < dim
  }

  lemma IndexInside(dim: nat, y: int, x: int)
    requires Inside(dim, y, x)
    ensures 0 <= Index(dim, y, x) < dim * dim
  {
    assert 0 <= y * dim <= (dim - 1) * dim;
  }

  lemma {:induction false} RowsApart(dim: nat, a: nat, b: nat)
    requires a <= b
    ensures b * dim == a * dim + (b - a) * dim
    ensures a < b ==> a * dim + dim <= b * dim
  {
    if a < b {
      RowsApart(dim, a, b - 1);
      assert b * dim == (b - 1) * dim + dim;
    }
  }

  lemma IndexInjective(dim: nat, y: int, x: int, v: int, u: int)
    requires Inside(dim, y, x) && Inside(dim, v, u)
    ensures Index(dim, y, x) == Index(dim, v, u) <==> y == v && x == u
  {
    if y < v {
      RowsApart(dim, y, v);
    } else {
      RowsApart(dim, v, y);
    }
  }

  lemma {:induction false} CellBelowRow(dim: nat, rows: nat, i: nat) returns (y: nat, x: nat)
    requires i < rows * dim
    ensures y < rows && x < dim && Index(dim, y, x) == i
  {
    if i >= (rows - 1) * dim {
      y, x := rows - 1, i - (rows - 1) * dim;
    } else {
      y, x := CellBelowRow(dim, rows - 1, i);
    }
  }

  lemma CellOfIndex(dim: nat, i: nat) returns (y: nat, x: nat)
    requires i < dim * dim
    ensures Inside(dim, y, x) && Index(dim, y, x) == i
  {
    y, x := CellBelowRow(dim, dim, i);
  }

  type Grid = seq<bv8>

  predicate IsGrid(g: Grid, dim: nat) {
    |g| == dim * dim
  }

  function At(g: Grid, dim: nat, y: int, x: int): bv8
    requires IsGrid(g, dim) && Inside(dim, y, x)
  {
    IndexInside(dim, y, x);
    g[Index(dim, y, x)]
  }

  function Put(g: Grid, dim: nat, y: int, x: int, m: bv8): (r: Grid)
    requires IsGrid(g, dim) && Inside(dim, y, x)
    ensures IsGrid(r, dim)
  {
    IndexInside(dim, y, x);
    g[Index(dim, y, x) := m]
  }

  lemma PutAt(g: Grid, dim: nat, y: int, x: int, m: bv8, v: int, u: int)
    requires IsGrid(g, dim) && Inside(dim, y, x) && Inside(dim, v, u)
    ensures At(Put(g, dim, y, x, m), dim, v, u) == if v == y && u == x then m else At(g, dim, v, u)
  {
    IndexInside(dim, y, x);
    IndexInside(dim, v, u);
    IndexInjective(dim, y, x, v, u);
  }
}
