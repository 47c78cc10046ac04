/**
 Evaluation of a masked symbol (ISO/IEC 18004:2015, section 7.8.3). The penalty is stated over the lines of the symbol:
 maximal runs of one colour, 2 x 2 blocks, finder-like patterns, and the share of dark modules.
 */
module Penalty {
  import opened Modules

  type Line = seq<bool>

  predicate Dark(g: Grid, dim: nat, y: int, x: int)
    requires IsGrid(g, dim) && Inside(dim, y, x)
  {
    IsBlack(At(g, dim, y, x))
  }

  function RowLine(g: Grid, dim: nat, y: nat): (line: Line)
    requires IsGrid(g, dim) && y < dim
    ensures |line| == dim && forall x :: 0 <= x < dim ==> line[x] == Dark(g, dim, y, x)
  {
    seq(dim, x requires 0 <= x < dim => Dark(g, dim, y, x))
  }

  function ColumnLine(g: Grid, dim: nat, x: nat): (line: Line)
    requires IsGrid(g, dim) && x < dim
    ensures |line| == dim && forall y :: 0 <= y < dim ==> line[y] == Dark(g, dim, y, x)
  {
    seq(dim, y requires 0 <= y < dim => Dark(g, dim, y, x))
  }

  // ---- Runs ----

  predicate RunStartsAt(line: Line, a: nat)
    requires a < |line|
  {
    a == 0 || line[a - 1] != line[a]
  }

  /** Length of the stretch of one colour from a on. */
  function RunLength(line: Line, a: nat): (n: nat)
    requires a < |line|
    ensures 1 <= n <= |line| - a
    ensures forall k :: a <= k < a + n ==> line[k] == line[a]
    ensures a + n < |line| ==> line[a + n] != line[a]
    decreases |line| - a
  {
    if a + 1 < |line| && line[a + 1] == line[a] then 1 + RunLength(line, a + 1) else 1
  }

  function RunScore(n: nat): nat {
    if n >= 5 then 3 + (n - 5) else 0
  }

  /** Scores of the maximal runs that start before place n. */
  function RunScores(line: Line, n: nat): nat
    requires n <= |line|
  {
    if n == 0 then 0
    else RunScores(line, n - 1) + (if RunStartsAt(line, n - 1) then RunScore(RunLength(line, n - 1)) else 0)
  }

  lemma {:induction false} NoStartsNoScores(line: Line, a: nat, n: nat)
    requires a <= n <= |line| && forall k :: a <= k < n ==> !RunStartsAt(line, k)
    ensures RunScores(line, n) == RunScores(line, a)
  {
    if a < n {
      NoStartsNoScores(line, a, n - 1);
    }
  }

  lemma {:induction false} RunLengthUnique(line: Line, a: nat, n: nat)
    requires a < |line| && 1 <= n <= |line| - a
    requires forall k :: a <= k < a + n ==> line[k] == line[a]
    requires a + n < |line| ==> line[a + n] != line[a]
    ensures RunLength(line, a) == n
    decreases n
  {
    if n > 1 {
      assert line[a + 1] == line[a];
      RunLengthUnique(line, a + 1, n - 1);
    }
  }

  /** A run of n that ends at j adds its score to those before it. */
  lemma RunEnds(line: Line, j: nat, n: nat)
    requires 0 < n <= j <= |line| && RunStartsAt(line, j - n)
    requires forall k :: j - n <= k < j ==> line[k] == line[j - n]
    requires j < |line| ==> line[j] != line[j - n]
    ensures RunScores(line, j) == RunScores(line, j - n) + RunScore(n)
  {
    RunLengthUnique(line, j - n, n);
    NoStartsNoScores(line, j - n + 1, j);
  }

  /** One pass of the encoder's run counter along a line. */
  method ScoreRuns(line: Line) returns (penalty: nat)
    ensures penalty == RunScores(line, |line|)
  {
    penalty := 0;
    var n := 0;
    for j := 0 to |line|
      invariant n <= j && (j > 0 ==> n > 0)
      invariant n > 0 ==> RunStartsAt(line, j - n) && forall k :: j - n <= k < j ==> line[k] == line[j - n]
      invariant penalty == RunScores(line, j - n)
    {
      if j > 0 && line[j] == line[j - 1] {
        n := n + 1;
      } else {
        if j > 0 {
          RunEnds(line, j, n);
        }
        if n >= 5 {
          penalty := penalty + 3 + (n - 5);
        }
        n := 1;
      }
    }
    if |line| > 0 {
      RunEnds(line, |line|, n);
    }
    if n >= 5 {
      penalty := penalty + 3 + (n - 5);
    }
  }

  // ---- Finder-like patterns ----

  /** Dark, light, three dark, light, dark, with light or the edge before, and at least four light or the edge after. */
  predicate FinderLike(line: Line, j: nat)
    requires j + 7 <= |line|
  {
    && (j == 0 || !line[j - 1])
    && line[j] && !line[j + 1] && line[j + 2] && line[j + 3] && line[j + 4] && !line[j + 5] && line[j + 6]
    && forall k :: j + 7 <= k < j + 11 && k < |line| ==> !line[k]
  }

  function FinderCount(line: Line, n: nat): nat
    requires n + 6 <= |line| || n == 0
  {
    if n == 0 then 0 else FinderCount(line, n - 1) + (if FinderLike(line, n - 1) then 1 else 0)
  }

  function FinderPlaces(line: Line): nat {
    if |line| < 7 then 0 else |line| - 6
  }

  /** The scan along a line; the scan along columns also asks for light, or the edge, right after the pattern. */
  method ScoreFinders(line: Line, checkNext: bool) returns (penalty: nat)
    ensures penalty == 40 * FinderCount(line, FinderPlaces(line))
  {
    penalty := 0;
    for j := 0 to FinderPlaces(line)
      invariant penalty == 40 * FinderCount(line, j)
    {
      if (j == 0 || !line[j - 1]) && line[j] && !line[j + 1] && line[j + 2] && line[j + 3] && line[j + 4]
         && !line[j + 5] && line[j + 6] && (!checkNext || j == |line| - 7 || !line[j + 7]) {
        var light := true;
        var k := 0;
        while k < |line| - j - 7 && k < 4
          invariant 0 <= k <= 4 && k <= |line| - j - 7
          invariant light && forall i :: j + 7 <= i < j + 7 + k ==> !line[i]
        {
          if line[j + k + 7] {
            light := false;
            break;
          }
          k := k + 1;
        }
        assert light == FinderLike(line, j);
        if light {
          penalty := penalty + 40;
        }
      } else {
        assert !FinderLike(line, j);
      }
    }
  }

  // ---- Sums over the symbol ----

  /** f(0) + ... + f(n - 1) */
  function Sum(n: nat, f: nat -> int): int {
    if n == 0 then 0 else Sum(n - 1, f) + f(n - 1)
  }

  lemma {:induction false} SumsEqual(n: nat, f: nat -> int, h: nat -> int)
    requires forall i: nat :: i < n ==> f(i) == h(i)
    ensures Sum(n, f) == Sum(n, h)
  {
    if n > 0 {
      SumsEqual(n - 1, f, h);
    }
  }

  function Rows(m: nat, f: (nat, nat) -> int): nat -> int {
    (y: nat) => Sum(m, (x: nat) => f(y, x))
  }

  function Swap(f: (nat, nat) -> int): (nat, nat) -> int {
    (x: nat, y: nat) => f(y, x)
  }

  lemma {:induction false} SumOfSums(n: nat, m: nat, f: (nat, nat) -> int, last: nat -> int)
    requires m > 0 && forall y: nat :: last(y) == f(y, m - 1)
    ensures Sum(n, Rows(m, f)) == Sum(n, Rows(m - 1, f)) + Sum(n, last)
  {
    if n > 0 {
      SumOfSums(n - 1, m, f, last);
    }
  }

  /** The order of summation does not matter. */
  lemma {:induction false} SumsCommute(n: nat, m: nat, f: (nat, nat) -> int)
    ensures Sum(n, Rows(m, f)) == Sum(m, Rows(n, Swap(f)))
    decreases m
  {
    if m == 0 {
      SumOfNothing(n, Rows(0, f));
    } else {
      var last := (y: nat) => f(y, m - 1);
      SumOfSums(n, m, f, last);
      SumsCommute(n, m - 1, f);
      SumsEqual(n, last, (y: nat) => Swap(f)(m - 1, y));
    }
  }

  lemma {:induction false} SumOfNothing(n: nat, f: nat -> int)
    requires forall i: nat :: f(i) == 0
    ensures Sum(n, f) == 0
  {
    if n > 0 {
      SumOfNothing(n - 1, f);
    }
  }

  // ---- The whole penalty ----

  function LineScore(line: Line): nat {
    RunScores(line, |line|) + 40 * FinderCount(line, FinderPlaces(line))
  }

  function RowScores(g: Grid, dim: nat): nat -> int
    requires IsGrid(g, dim)
  {
    (y: nat) => if y < dim then LineScore(RowLine(g, dim, y)) else 0
  }

  function ColumnScores(g: Grid, dim: nat): nat -> int
    requires IsGrid(g, dim)
  {
    (x: nat) => if x < dim then LineScore(ColumnLine(g, dim, x)) else 0
  }

  /** The 2 x 2 modules with this upper left corner have one colour. */
  predicate IsBlock(g: Grid, dim: nat, y: nat, x: nat)
    requires IsGrid(g, dim) && y + 1 < dim && x + 1 < dim
  {
    Dark(g, dim, y, x) == Dark(g, dim, y, x + 1) == Dark(g, dim, y + 1, x) == Dark(g, dim, y + 1, x + 1)
  }

  function BlockScore(g: Grid, dim: nat): (nat, nat) -> int
    requires IsGrid(g, dim)
  {
    (y: nat, x: nat) => if y + 1 < dim && x + 1 < dim && IsBlock(g, dim, y, x) then 3 else 0
  }

  function DarkCell(g: Grid, dim: nat): (nat, nat) -> int
    requires IsGrid(g, dim)
  {
    (y: nat, x: nat) => if y < dim && x < dim && Dark(g, dim, y, x) then 1 else 0
  }

  function DarkCount(g: Grid, dim: nat): int
    requires IsGrid(g, dim)
  {
    Sum(dim, Rows(dim, DarkCell(g, dim)))
  }

  /** Ten for every full five per cent that the share of dark modules, rounded down, is off one half. */
  function ShareScore(dark: int, all: nat): int
    requires dark >= 0 && all > 0
  {
    var off := dark * 100 / all - 50;
    (if off < 0 then -off else off) / 5 * 10
  }

  lemma {:induction false} SumNonNegative(n: nat, f: nat -> int)
    requires forall i: nat :: i < n ==> f(i) >= 0
    ensures Sum(n, f) >= 0
  {
    if n > 0 {
      SumNonNegative(n - 1, f);
    }
  }

  lemma DarkCountNonNegative(g: Grid, dim: nat)
    requires IsGrid(g, dim)
    ensures DarkCount(g, dim) >= 0
  {
    DoubleSumNonNegative(dim, DarkCell(g, dim));
  }

  lemma DoubleSumNonNegative(n: nat, f: (nat, nat) -> int)
    requires forall y: nat, x: nat :: f(y, x) >= 0
    ensures Sum(n, Rows(n, f)) >= 0
  {
    var rows := Rows(n, f);
    forall y: nat ensures rows(y) >= 0 {
      SumNonNegative(n, (x: nat) => f(y, x));
    }
    SumNonNegative(n, rows);
  }

  function BlockScores(g: Grid, dim: nat): int
    requires IsGrid(g, dim) && dim > 0
  {
    Sum(dim - 1, Rows(dim - 1, BlockScore(g, dim)))
  }

  function TotalPenalty(g: Grid, dim: nat): int
    requires IsGrid(g, dim) && dim > 0
  {
    DarkCountNonNegative(g, dim);
    Sum(dim, RowScores(g, dim)) + Sum(dim, ColumnScores(g, dim)) + BlockScores(g, dim)
    + ShareScore(DarkCount(g, dim), dim * dim)
  }

  /** The smallest line that has a finder-like pattern, edge to edge. */
  lemma FinderScore()
    ensures LineScore([true, false, true, true, true, false, true]) == 40
  {
    var line := [true, false, true, true, true, false, true];
    NoLongRuns(line, 7);
    assert FinderLike(line, 0);
    assert FinderPlaces(line) == 1;
  }

  lemma {:induction false} NoLongRuns(line: Line, n: nat)
    requires n <= |line| == 7 && line == [true, false, true, true, true, false, true]
    ensures RunScores(line, n) == 0
  {
    if n > 0 {
      NoLongRuns(line, n - 1);
      assert RunLength(line, n - 1) < 5 by {
        assert line[0] != line[1] && line[4] != line[5];
      }
    }
  }

  /** What a symbol without a dark module is charged: one run in every line, all its blocks, and the whole share. */
  lemma LightPenalty(g: Grid, dim: nat)
    requires dim >= 5 && IsGrid(g, dim) && IsLight(g, dim)
    ensures TotalPenalty(g, dim) == 2 * (dim * (dim - 2)) + 3 * ((dim - 1) * (dim - 1)) + 100
  {
    hide *;
    LightRows(g, dim);
    LightBlocks(g, dim);
    LightCells(g, dim);
    NoShare(dim * dim);
    TotalIs(g, dim);
    assert (dim - 1) * ((dim - 1) * 3) == 3 * ((dim - 1) * (dim - 1));
  }

  ghost predicate IsLight(g: Grid, dim: nat)
    requires IsGrid(g, dim)
  {
    forall y, x :: Inside(dim, y, x) ==> !Dark(g, dim, y, x)
  }

  lemma TotalIs(g: Grid, dim: nat)
    requires dim > 0 && IsGrid(g, dim) && DarkCount(g, dim) == 0
    ensures TotalPenalty(g, dim) ==
            Sum(dim, RowScores(g, dim)) + Sum(dim, ColumnScores(g, dim)) + BlockScores(g, dim) + ShareScore(0, dim * dim)
  {
    hide Dark, Sum, RowScores, ColumnScores, BlockScores, DarkCount, ShareScore;
  }

  lemma LightRows(g: Grid, dim: nat)
    requires dim >= 5 && IsGrid(g, dim) && IsLight(g, dim)
    ensures Sum(dim, RowScores(g, dim)) == dim * (dim - 2) && Sum(dim, ColumnScores(g, dim)) == dim * (dim - 2)
  {
    hide Dark, LineScore, Sum;
    forall k: nat | k < dim ensures RowScores(g, dim)(k) == dim - 2 && ColumnScores(g, dim)(k) == dim - 2 {
      LightLine(RowLine(g, dim, k));
      LightLine(ColumnLine(g, dim, k));
    }
    SumConstant(dim, RowScores(g, dim), dim - 2);
    SumConstant(dim, ColumnScores(g, dim), dim - 2);
  }

  lemma LightBlocks(g: Grid, dim: nat)
    requires dim >= 5 && IsGrid(g, dim) && IsLight(g, dim)
    ensures BlockScores(g, dim) == (dim - 1) * ((dim - 1) * 3)
  {
    hide Dark, Sum, Rows;
    SumsConstant(dim - 1, BlockScore(g, dim), 3);
  }

  lemma LightCells(g: Grid, dim: nat)
    requires IsGrid(g, dim) && IsLight(g, dim)
    ensures DarkCount(g, dim) == 0
  {
    hide Dark, Sum, Rows;
    SumsConstant(dim, DarkCell(g, dim), 0);
  }

  lemma SumsConstant(n: nat, f: (nat, nat) -> int, c: int)
    requires forall y: nat, x: nat :: y < n && x < n ==> f(y, x) == c
    ensures Sum(n, Rows(n, f)) == n * (n * c)
  {
    var rows := Rows(n, f);
    forall y: nat | y < n ensures rows(y) == n * c {
      SumConstant(n, (x: nat) => f(y, x), c);
    }
    SumConstant(n, rows, n * c);
  }

  lemma NoShare(all: nat)
    requires all > 0
    ensures ShareScore(0, all) == 100
  {
  }

  lemma {:induction false} SumConstant(n: nat, f: nat -> int, c: int)
    requires forall i: nat :: i < n ==> f(i) == c
    ensures Sum(n, f) == n * c
  {
    if n > 0 {
      SumConstant(n - 1, f, c);
    }
  }

  lemma LightLine(line: Line)
    requires |line| >= 5 && forall i :: 0 <= i < |line| ==> !line[i]
    ensures LineScore(line) == |line| - 2
  {
    RunLengthUnique(line, 0, |line|);
    NoStartsNoScores(line, 1, |line|);
    NoFinders(line, FinderPlaces(line));
    assert RunScores(line, 1) == RunScore(|line|);
  }

  lemma {:induction false} NoFinders(line: Line, n: nat)
    requires (n + 6 <= |line| || n == 0) && forall i :: 0 <= i < |line| ==> !line[i]
    ensures FinderCount(line, n) == 0
  {
    if n > 0 {
      NoFinders(line, n - 1);
    }
  }

  lemma LineScoresNonNegative(g: Grid, dim: nat)
    requires IsGrid(g, dim)
    ensures Sum(dim, RowScores(g, dim)) >= 0 && Sum(dim, ColumnScores(g, dim)) >= 0
  {
    hide Dark, LineScore, RowLine, ColumnLine;
    SumNonNegative(dim, RowScores(g, dim));
    SumNonNegative(dim, ColumnScores(g, dim));
  }

  lemma TotalPenaltyNonNegative(g: Grid, dim: nat)
    requires dim > 0 && IsGrid(g, dim)
    ensures TotalPenalty(g, dim) >= 0
  {
    LineScoresNonNegative(g, dim);
    hide Dark, IsBlock, Sum, Rows, RowScores, ColumnScores, DarkCount;
    DoubleSumNonNegative(dim - 1, BlockScore(g, dim));
  }

  // ---- Transposing the symbol does not change the penalty ----

  ghost predicate IsTransposed(g: Grid, h: Grid, dim: nat)
    requires IsGrid(g, dim) && IsGrid(h, dim)
  {
    forall y, x :: Inside(dim, y, x) ==> Dark(h, dim, y, x) == Dark(g, dim, x, y)
  }

  lemma PenaltyOfTransposed(g: Grid, h: Grid, dim: nat)
    requires dim > 0 && IsGrid(g, dim) && IsGrid(h, dim) && IsTransposed(g, h, dim)
    ensures TotalPenalty(h, dim) == TotalPenalty(g, dim)
  {
    hide Dark;
    forall i: nat | i < dim
      ensures RowScores(h, dim)(i) == ColumnScores(g, dim)(i) && ColumnScores(h, dim)(i) == RowScores(g, dim)(i)
    {
      assert RowLine(h, dim, i) == ColumnLine(g, dim, i) && ColumnLine(h, dim, i) == RowLine(g, dim, i);
    }
    SumsEqual(dim, RowScores(h, dim), ColumnScores(g, dim));
    SumsEqual(dim, ColumnScores(h, dim), RowScores(g, dim));
    DoubleSumTransposed(dim, DarkCell(g, dim), DarkCell(h, dim));
    DoubleSumTransposed(dim - 1, BlockScore(g, dim), BlockScore(h, dim));
  }

  lemma DoubleSumTransposed(n: nat, f: (nat, nat) -> int, h: (nat, nat) -> int)
    requires forall y: nat, x: nat :: y < n && x < n ==> h(y, x) == f(x, y)
    ensures Sum(n, Rows(n, h)) == Sum(n, Rows(n, f))
  {
    SumsCommute(n, n, f);
    forall y: nat | y < n ensures Rows(n, h)(y) == Rows(n, Swap(f))(y) {
      SumsEqual(n, (x: nat) => h(y, x), (x: nat) => Swap(f)(y, x));
    }
    SumsEqual(n, Rows(n, h), Rows(n, Swap(f)));
  }

  // ---- The encoder's scan ----

  method Evaluate(symbol: array<bv8>, dim: nat) returns (penalty: int)
    requires dim > 0 && symbol.Length == dim * dim
    ensures penalty == TotalPenalty(symbol[..], dim)
  {
    hide Sum, RowScores, ColumnScores, BlockScores, DarkCount;
    var rows := ScoreLines(symbol, dim, false);
    var columns := ScoreLines(symbol, dim, true);
    var blocks := ScoreBlocks(symbol, dim);
    var n := CountDark(symbol, dim);
    var m := dim * dim;
    assert m > 0;
    var off := n * 100 / m - 50;
    penalty := rows + columns + blocks + (if off < 0 then -off else off) / 5 * 10;
  }

  /** Runs and finder-like patterns along all rows, or all columns. */
  method ScoreLines(symbol: array<bv8>, dim: nat, columns: bool) returns (penalty: int)
    requires symbol.Length == dim * dim
    ensures penalty == Sum(dim, if columns then ColumnScores(symbol[..], dim) else RowScores(symbol[..], dim))
  {
    ghost var g := symbol[..];
    ghost var scores := if columns then ColumnScores(g, dim) else RowScores(g, dim);
    penalty := 0;
    for i := 0 to dim
      invariant penalty == Sum(i, scores)
    {
      var line := if columns then ColumnLine(symbol[..], dim, i) else RowLine(symbol[..], dim, i);
      var runs := ScoreRuns(line);
      var finders := ScoreFinders(line, columns);
      penalty := penalty + runs + finders;
      assert scores(i) == LineScore(line);
    }
  }

  method ScoreBlocks(symbol: array<bv8>, dim: nat) returns (penalty: int)
    requires dim > 0 && symbol.Length == dim * dim
    ensures penalty == BlockScores(symbol[..], dim)
  {
    ghost var g := symbol[..];
    ghost var f := BlockScore(g, dim);
    penalty := 0;
    for i := 0 to dim - 1
      invariant penalty == Sum(i, Rows(dim - 1, f))
    {
      ghost var row := (x: nat) => f(i, x);
      ghost var before := penalty;
      for j := 0 to dim - 1
        invariant penalty == before + Sum(j, row)
      {
        var same := IsBlock(symbol[..], dim, i, j);
        if same {
          penalty := penalty + 3;
        }
        assert row(j) == f(i, j);
      }
      assert Rows(dim - 1, f)(i) == Sum(dim - 1, (x: nat) => f(i, x));
      SumsEqual(dim - 1, row, (x: nat) => f(i, x));
    }
  }

  method CountDark(symbol: array<bv8>, dim: nat) returns (n: int)
    requires symbol.Length == dim * dim
    ensures n == DarkCount(symbol[..], dim) && n >= 0
  {
    ghost var g := symbol[..];
    ghost var f := DarkCell(g, dim);
    n := 0;
    for i := 0 to dim
      invariant n >= 0 && n == Sum(i, Rows(dim, f))
    {
      ghost var row := (x: nat) => f(i, x);
      ghost var before := n;
      for j := 0 to dim
        invariant n >= before && n == before + Sum(j, row)
      {
        if Dark(symbol[..], dim, i, j) {
          n := n + 1;
        }
        assert row(j) == f(i, j);
      }
      assert Rows(dim, f)(i) == Sum(dim, (x: nat) => f(i, x));
      SumsEqual(dim, row, (x: nat) => f(i, x));
    }
  }
}
