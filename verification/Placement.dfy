/**
 Codeword placement (ISO/IEC 18004:2015, section 7.7.3): the walk over the symbol in columns of two modules, from the
 lower right corner, alternately upwards and downwards, around the vertical timing pattern and function modules.
 */
module Placement {
  import opened Bits
  import opened Modules

  const TIMING := 6

  /** A place on the walk: which pair of columns, how many rows into it, and its left or right module. */
  datatype Cursor = Cursor(pair: nat, row: nat, left: bool)

  predicate IsDimension(dim: nat) {
    dim >= 9 && dim % 4 == 1
  }

  function Pairs(dim: nat): nat {
    dim / 2
  }

  /** Right column of a pair; pairs beyond the vertical timing pattern lie one column further left. */
  function RightColumn(dim: nat, pair: nat): int {
    if dim - 1 - 2 * pair > TIMING then dim - 1 - 2 * pair else dim - 2 - 2 * pair
  }

  function X(dim: nat, c: Cursor): int {
    RightColumn(dim, c.pair) - (if c.left then 1 else 0)
  }

  /** Pairs are walked upwards and downwards in turn. */
  function Y(dim: nat, c: Cursor): int {
    if c.pair % 2 == 0 then dim - 1 - c.row else c.row
  }

  predicate OnWalk(dim: nat, c: Cursor) {
    c.pair < Pairs(dim) && c.row < dim
  }

  function Next(dim: nat, c: Cursor): Cursor {
    if !c.left then c.(left := true)
    else if c.row + 1 < dim then Cursor(c.pair, c.row + 1, false)
    else Cursor(c.pair + 1, 0, false)
  }

  lemma WalkInside(dim: nat, c: Cursor)
    requires IsDimension(dim) && OnWalk(dim, c)
    ensures Inside(dim, Y(dim, c), X(dim, c)) && X(dim, c) != TIMING
  {
  }

  lemma WalkInjective(dim: nat, c: Cursor, e: Cursor)
    requires IsDimension(dim) && OnWalk(dim, c) && OnWalk(dim, e)
    requires Y(dim, c) == Y(dim, e) && X(dim, c) == X(dim, e)
    ensures c == e
  {
    PairOfColumn(dim, c);
    PairOfColumn(dim, e);
  }

  lemma PairOfColumn(dim: nat, c: Cursor)
    requires IsDimension(dim) && OnWalk(dim, c)
    ensures var k := if X(dim, c) > TIMING then dim - 1 - X(dim, c) else dim - 2 - X(dim, c);
            c.pair == k / 2 && c.left == (k % 2 == 1)
  {
  }

  lemma CursorIs(dim: nat, half: nat, y: int, x: int, pair: nat, left: nat, c: Cursor)
    requires dim == 2 * half + 1 && half >= 4 && Inside(dim, y, x) && x != TIMING && left < 2
    requires x == (if x > TIMING then dim - 1 else dim - 2) - 2 * pair - left
    requires c == Cursor(pair, if pair % 2 == 0 then dim - 1 - y else y, left == 1)
    ensures OnWalk(dim, c) && Y(dim, c) == y && X(dim, c) == x
  {
  }

  /** Every module outside the timing column is on the walk, and only once. */
  lemma WalkCovers(dim: nat, y: int, x: int) returns (c: Cursor)
    requires IsDimension(dim) && Inside(dim, y, x) && x != TIMING
    ensures OnWalk(dim, c) && Y(dim, c) == y && X(dim, c) == x
    ensures forall e :: OnWalk(dim, e) && Y(dim, e) == y && X(dim, e) == x ==> e == c
  {
    var k: nat := if x > TIMING then dim - 1 - x else dim - 2 - x;
    c := Cursor(k / 2, if (k / 2) % 2 == 0 then dim - 1 - y else y, k % 2 == 1);
    CursorIs(dim, dim / 2, y, x, k / 2, k % 2, c);
    hide *;
    forall e | OnWalk(dim, e) && Y(dim, e) == y && X(dim, e) == x ensures e == c {
      WalkInjective(dim, e, c);
    }
  }

  /** The walk starts in the lower right corner and goes up, to the left module first. */
  lemma WalkBegins(dim: nat)
    requires IsDimension(dim)
    ensures var a := Cursor(0, 0, false); var b := Next(dim, a); var c := Next(dim, b);
            Y(dim, a) == X(dim, a) == dim - 1 && (Y(dim, b), X(dim, b)) == (dim - 1, dim - 2)
            && (Y(dim, c), X(dim, c)) == (dim - 2, dim - 1)
  {
  }

  // ---- The free modules in order of the walk ----

  predicate FreeAt(g: Grid, dim: nat, c: Cursor)
    requires IsDimension(dim) && IsGrid(g, dim) && OnWalk(dim, c)
  {
    WalkInside(dim, c);
    !IsFunc(At(g, dim, Y(dim, c), X(dim, c)))
  }

  /** The free modules from c on. */
  function FreeFrom(g: Grid, dim: nat, c: Cursor): (cs: seq<Cursor>)
    requires IsDimension(dim) && IsGrid(g, dim) && c.row < dim
    ensures forall i :: 0 <= i < |cs| ==> OnWalk(dim, cs[i]) && FreeAt(g, dim, cs[i])
    decreases Pairs(dim) - c.pair, dim - c.row, !c.left
  {
    if c.pair >= Pairs(dim) then []
    else (if FreeAt(g, dim, c) then [c] else []) + FreeFrom(g, dim, Next(dim, c))
  }

  function FreeOrder(g: Grid, dim: nat): (cs: seq<Cursor>)
    requires IsDimension(dim) && IsGrid(g, dim)
    ensures forall i :: 0 <= i < |cs| ==> OnWalk(dim, cs[i]) && FreeAt(g, dim, cs[i])
  {
    FreeFrom(g, dim, Cursor(0, 0, false))
  }

  /** c comes before e on the walk. */
  predicate Before(c: Cursor, e: Cursor) {
    c.pair < e.pair || (c.pair == e.pair && (c.row < e.row || (c.row == e.row && !c.left && e.left)))
  }

  lemma {:induction false} FreeFromOrdered(g: Grid, dim: nat, c: Cursor)
    requires IsDimension(dim) && IsGrid(g, dim) && c.row < dim
    ensures forall i :: 0 <= i < |FreeFrom(g, dim, c)| ==> FreeFrom(g, dim, c)[i] == c || Before(c, FreeFrom(g, dim, c)[i])
    ensures forall i, j :: 0 <= i < j < |FreeFrom(g, dim, c)| ==> Before(FreeFrom(g, dim, c)[i], FreeFrom(g, dim, c)[j])
    decreases Pairs(dim) - c.pair, dim - c.row, !c.left
  {
    if c.pair < Pairs(dim) {
      FreeFromOrdered(g, dim, Next(dim, c));
    }
  }

  /** No module is visited twice. */
  lemma FreeOrderDistinct(g: Grid, dim: nat, i: nat, j: nat)
    requires IsDimension(dim) && IsGrid(g, dim)
    requires i < |FreeOrder(g, dim)| && j < |FreeOrder(g, dim)|
    ensures var a, b := FreeOrder(g, dim)[i], FreeOrder(g, dim)[j];
            Y(dim, a) == Y(dim, b) && X(dim, a) == X(dim, b) <==> i == j
  {
    FreeFromOrdered(g, dim, Cursor(0, 0, false));
    var a, b := FreeOrder(g, dim)[i], FreeOrder(g, dim)[j];
    if Y(dim, a) == Y(dim, b) && X(dim, a) == X(dim, b) {
      WalkInside(dim, a);
      var c := WalkCovers(dim, Y(dim, a), X(dim, a));
    }
  }

  lemma {:induction false} FreeFromComplete(g: Grid, dim: nat, c: Cursor, e: Cursor)
    requires IsDimension(dim) && IsGrid(g, dim) && c.row < dim && OnWalk(dim, e) && FreeAt(g, dim, e)
    requires e == c || Before(c, e)
    ensures e in FreeFrom(g, dim, c)
    decreases Pairs(dim) - c.pair, dim - c.row, !c.left
  {
    if e != c {
      FreeFromComplete(g, dim, Next(dim, c), e);
    }
  }

  /** Every free module outside the timing column is visited. */
  lemma FreeOrderComplete(g: Grid, dim: nat, y: int, x: int) returns (k: nat)
    requires IsDimension(dim) && IsGrid(g, dim) && Inside(dim, y, x) && x != TIMING
    requires !IsFunc(At(g, dim, y, x))
    ensures k < |FreeOrder(g, dim)| && Y(dim, FreeOrder(g, dim)[k]) == y && X(dim, FreeOrder(g, dim)[k]) == x
  {
    var c := WalkCovers(dim, y, x);
    FreeFromComplete(g, dim, Cursor(0, 0, false), c);
    k :| k < |FreeOrder(g, dim)| && FreeOrder(g, dim)[k] == c;
  }

  /** The walk depends on function modules only. */
  ghost predicate SameFunction(g: Grid, h: Grid, dim: nat)
    requires IsGrid(g, dim) && IsGrid(h, dim)
  {
    forall y, x :: Inside(dim, y, x) ==> IsFunc(At(g, dim, y, x)) == IsFunc(At(h, dim, y, x))
  }

  lemma {:induction false} SameFunctionSameWalk(g: Grid, h: Grid, dim: nat, c: Cursor)
    requires IsDimension(dim) && IsGrid(g, dim) && IsGrid(h, dim) && c.row < dim
    requires SameFunction(g, h, dim)
    ensures FreeFrom(g, dim, c) == FreeFrom(h, dim, c)
    decreases Pairs(dim) - c.pair, dim - c.row, !c.left
  {
    if c.pair < Pairs(dim) {
      WalkInside(dim, c);
      SameFunctionSameWalk(g, h, dim, Next(dim, c));
    }
  }

  // ---- Writing bits along the walk, and reading them ----

  /** The first k bits are written to the first k free modules; nothing else changes. */
  ghost predicate Placed(g: Grid, dim: nat, bits: seq<bool>, k: nat, h: Grid)
    requires IsDimension(dim) && IsGrid(g, dim) && IsGrid(h, dim) && k <= |bits| && k <= |FreeOrder(g, dim)|
  {
    && (forall i :: 0 <= i < k ==>
         var c := FreeOrder(g, dim)[i];
         WalkInside(dim, c);
         At(h, dim, Y(dim, c), X(dim, c)) ==
         if bits[i] then SetData(At(g, dim, Y(dim, c), X(dim, c))) else At(g, dim, Y(dim, c), X(dim, c)))
    && (forall y, x :: Inside(dim, y, x) ==>
         At(h, dim, y, x) == At(g, dim, y, x)
         || exists i :: 0 <= i < k && Y(dim, FreeOrder(g, dim)[i]) == y && X(dim, FreeOrder(g, dim)[i]) == x)
  }

  /** The module flags that a reader sees along the walk. */
  function ReadData(h: Grid, dim: nat, n: nat): (bits: seq<bool>)
    requires IsDimension(dim) && IsGrid(h, dim) && n <= |FreeOrder(h, dim)|
    ensures |bits| == n
  {
    seq(n, i requires 0 <= i < n =>
      var c := FreeOrder(h, dim)[i];
      WalkInside(dim, c);
      IsData(At(h, dim, Y(dim, c), X(dim, c))))
  }

  predicate NoData(g: Grid) {
    forall i :: 0 <= i < |g| ==> !IsData(g[i])
  }

  lemma PlacedKeepsFunction(g: Grid, dim: nat, bits: seq<bool>, k: nat, h: Grid)
    requires IsDimension(dim) && IsGrid(g, dim) && IsGrid(h, dim) && k <= |bits| && k <= |FreeOrder(g, dim)|
    requires Placed(g, dim, bits, k, h)
    ensures SameFunction(g, h, dim) && FreeOrder(h, dim) == FreeOrder(g, dim)
  {
    hide IsFunc, IsData, IsBlack, SetData, FreeOrder;
    forall y, x | Inside(dim, y, x) ensures IsFunc(At(g, dim, y, x)) == IsFunc(At(h, dim, y, x)) {
      if At(h, dim, y, x) != At(g, dim, y, x) {
        var i :| 0 <= i < k && Y(dim, FreeOrder(g, dim)[i]) == y && X(dim, FreeOrder(g, dim)[i]) == x;
      }
    }
    FreeOrderSame(g, h, dim);
  }

  lemma FreeOrderSame(g: Grid, h: Grid, dim: nat)
    requires IsDimension(dim) && IsGrid(g, dim) && IsGrid(h, dim) && SameFunction(g, h, dim)
    ensures FreeOrder(g, dim) == FreeOrder(h, dim)
  {
    SameFunctionSameWalk(g, h, dim, Cursor(0, 0, false));
  }

  /** What is written along the walk is what is read along it. */
  lemma ReadPlaced(g: Grid, dim: nat, bits: seq<bool>, h: Grid)
    requires IsDimension(dim) && IsGrid(g, dim) && IsGrid(h, dim) && |bits| <= |FreeOrder(g, dim)|
    requires NoData(g) && Placed(g, dim, bits, |bits|, h)
    ensures FreeOrder(h, dim) == FreeOrder(g, dim) && ReadData(h, dim, |bits|) == bits
  {
    PlacedKeepsFunction(g, dim, bits, |bits|, h);
    hide IsFunc, IsData, IsBlack, SetData, FreeOrder;
    forall i | 0 <= i < |bits| ensures ReadData(h, dim, |bits|)[i] == bits[i] {
      var c := FreeOrder(g, dim)[i];
      WalkInside(dim, c);
      IndexInside(dim, Y(dim, c), X(dim, c));
      assert !IsData(At(g, dim, Y(dim, c), X(dim, c)));
    }
  }

  /** Beyond the last pair of columns. */
  function End(dim: nat): Cursor {
    Cursor(Pairs(dim), 0, false)
  }

  /** Writing bit k to the k-th free module. */
  lemma PlacedOneMore(g: Grid, dim: nat, bits: seq<bool>, k: nat, h: Grid, h': Grid)
    requires IsDimension(dim) && IsGrid(g, dim) && IsGrid(h, dim) && k < |bits| && k < |FreeOrder(g, dim)|
    requires Placed(g, dim, bits, k, h) && Inside(dim, Y(dim, FreeOrder(g, dim)[k]), X(dim, FreeOrder(g, dim)[k]))
    requires var c := FreeOrder(g, dim)[k];
             h' == if bits[k] then Put(h, dim, Y(dim, c), X(dim, c), SetData(At(h, dim, Y(dim, c), X(dim, c)))) else h
    ensures Placed(g, dim, bits, k + 1, h')
  {
    hide IsFunc, IsData, IsBlack, SetData, FreeOrder, Put, At;
    var order := FreeOrder(g, dim);
    var y, x := Y(dim, order[k]), X(dim, order[k]);
    var m := SetData(At(h, dim, y, x));
    UntouchedYet(g, dim, bits, k, h);
    forall i | 0 <= i < k + 1
      ensures Inside(dim, Y(dim, order[i]), X(dim, order[i]))
      ensures At(h', dim, Y(dim, order[i]), X(dim, order[i])) ==
              if bits[i] then SetData(At(g, dim, Y(dim, order[i]), X(dim, order[i]))) else At(g, dim, Y(dim, order[i]), X(dim, order[i]))
    {
      WalkInside(dim, order[i]);
      PutAt(h, dim, y, x, m, Y(dim, order[i]), X(dim, order[i]));
      FreeOrderDistinct(g, dim, i, k);
    }
    forall v, u | Inside(dim, v, u)
      ensures At(h', dim, v, u) == At(g, dim, v, u)
              || exists i :: 0 <= i < k + 1 && Y(dim, order[i]) == v && X(dim, order[i]) == u
    {
      PutAt(h, dim, y, x, m, v, u);
    }
  }

  lemma UntouchedYet(g: Grid, dim: nat, bits: seq<bool>, k: nat, h: Grid)
    requires IsDimension(dim) && IsGrid(g, dim) && IsGrid(h, dim) && k < |bits| && k < |FreeOrder(g, dim)|
    requires Placed(g, dim, bits, k, h) && Inside(dim, Y(dim, FreeOrder(g, dim)[k]), X(dim, FreeOrder(g, dim)[k]))
    ensures var c := FreeOrder(g, dim)[k];
            At(h, dim, Y(dim, c), X(dim, c)) == At(g, dim, Y(dim, c), X(dim, c))
  {
    hide IsFunc, IsData, IsBlack, SetData, FreeOrder, At;
    var c := FreeOrder(g, dim)[k];
    if At(h, dim, Y(dim, c), X(dim, c)) != At(g, dim, Y(dim, c), X(dim, c)) {
      var i :| 0 <= i < k && Y(dim, FreeOrder(g, dim)[i]) == Y(dim, c) && X(dim, FreeOrder(g, dim)[i]) == X(dim, c);
      FreeOrderDistinct(g, dim, i, k);
      assert false;
    }
  }

  /** One step of the walk as the encoder takes it: sideways and back, up or down, and over to the next pair. */
  lemma StepIsNext(dim: nat, c: Cursor)
    requires IsDimension(dim) && OnWalk(dim, c)
    ensures !c.left ==> X(dim, Next(dim, c)) == X(dim, c) - 1 && Y(dim, Next(dim, c)) == Y(dim, c)
    ensures c.left ==>
              var down := if c.pair % 2 == 0 then -1 else 1;
              var y, x := Y(dim, c) + down, X(dim, c) + 1;
              if 0 <= y < dim then Next(dim, c).pair == c.pair && Y(dim, Next(dim, c)) == y && X(dim, Next(dim, c)) == x
              else
                && Next(dim, c).pair == c.pair + 1 && Y(dim, Next(dim, c)) == y - down
                && X(dim, Next(dim, c)) == if x - 2 == TIMING then x - 3 else x - 2
    ensures OnWalk(dim, Next(dim, c)) || Next(dim, c) == End(dim)
    ensures Y(dim, End(dim)) == dim - 1 && X(dim, End(dim)) == -1
  {
  }

  lemma FreeFromStep(g: Grid, dim: nat, c: Cursor)
    requires IsDimension(dim) && IsGrid(g, dim) && OnWalk(dim, c)
    ensures FreeFrom(g, dim, c) == if FreeAt(g, dim, c) then [c] + FreeFrom(g, dim, Next(dim, c)) else FreeFrom(g, dim, Next(dim, c))
    ensures FreeFrom(g, dim, End(dim)) == []
  {
    hide FreeAt;
  }
}
