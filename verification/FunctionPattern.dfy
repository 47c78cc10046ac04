/**
 The function modules of a version: finder patterns with their separators, timing and alignment patterns, and the areas
 of format and version information. What they leave free is exactly room for the code words and the remainder bits.
 */
module FunctionPattern {
  import opened Bits
  import opened Modules
  import opened Placement
  import opened VersionTable

  type Cell = (int, int)

  /** Alignment patterns that would cover a finder pattern are left out. */
  predicate IsPlaced(n: nat, i: int, j: int) {
    !(i == 0 && j == 0) && !(i == 0 && j == n - 1) && !(i == n - 1 && j == 0)
  }

  predicate Near(a: int, b: int) {
    b - 2 <= a <= b + 2
  }

  predicate InAlignment(cs: seq<int>, y: int, x: int) {
    exists i, j :: 0 <= i < |cs| && 0 <= j < |cs| && IsPlaced(|cs|, i, j) && Near(y, cs[i]) && Near(x, cs[j])
  }

  /** Finder patterns, their separators and the format information around them. */
  predicate InCorner(dim: nat, y: int, x: int) {
    (y < 9 && x < 9) || (y < 9 && x >= dim - 8) || (y >= dim - 8 && x < 9)
  }

  predicate InTiming(y: int, x: int) {
    y == TIMING || x == TIMING
  }

  predicate InVersionInfo(v: int, dim: nat, y: int, x: int) {
    v >= 7 && ((x < 6 && dim - 11 <= y < dim - 8) || (y < 6 && dim - 11 <= x < dim - 8))
  }

  predicate IsFunctionModule(v: int, y: int, x: int)
    requires IsVersion(v)
  {
    InCorner(Dimension(v), y, x) || InTiming(y, x) || InAlignment(AlignmentCentres(v), y, x) || InVersionInfo(v, Dimension(v), y, x)
  }

  // ---- Counting cells ----

  function Rect(top: int, left: int, height: nat, width: nat): set<Cell> {
    set y, x | top <= y < top + height && left <= x < left + width :: (y, x)
  }

  lemma {:induction false} RectSize(top: int, left: int, height: nat, width: nat)
    ensures |Rect(top, left, height, width)| == height * width
  {
    if height == 0 {
      assert Rect(top, left, height, width) == {};
    } else {
      RectSize(top, left, height - 1, width);
      StripSize(top + height - 1, left, width);
      var a, b := Rect(top, left, height - 1, width), Rect(top + height - 1, left, 1, width);
      assert Rect(top, left, height, width) == a + b && a !! b;
      assert height * width == (height - 1) * width + width;
    }
  }

  lemma {:induction false} StripSize(top: int, left: int, width: nat)
    ensures |Rect(top, left, 1, width)| == width
  {
    if width == 0 {
      assert Rect(top, left, 1, width) == {};
    } else {
      StripSize(top, left, width - 1);
      assert Rect(top, left, 1, width) == Rect(top, left, 1, width - 1) + {(top, left + width - 1)};
    }
  }

  /** Centres run from 6 to dim - 7, well apart. */
  predicate Spaced(cs: seq<int>, dim: nat) {
    && (|cs| > 0 ==> |cs| >= 2 && cs[0] == 6 && cs[|cs| - 1] == dim - 7)
    && forall i :: 0 <= i < |cs| - 1 ==> cs[i] + 12 <= cs[i + 1]
  }

  lemma {:induction false} SpacedApart(cs: seq<int>, dim: nat, i: nat, j: nat)
    requires Spaced(cs, dim) && i < j < |cs|
    ensures cs[i] + 12 <= cs[j]
    decreases j
  {
    if i + 1 < j {
      SpacedApart(cs, dim, i, j - 1);
    }
  }

  /** The modules of alignment pattern (i, j) that are not on a timing pattern. */
  function AlignmentCells(cs: seq<int>, i: int, j: int): set<Cell>
    requires 0 <= i < |cs| && 0 <= j < |cs|
  {
    set y, x | cs[i] - 2 <= y < cs[i] + 3 && cs[j] - 2 <= x < cs[j] + 3 && !InTiming(y, x) && IsPlaced(|cs|, i, j) :: (y, x)
  }

  function AlignmentSize(n: nat, i: int, j: int): nat {
    if !IsPlaced(n, i, j) then 0 else if i == 0 || j == 0 then 20 else 25
  }

  lemma TopRowCells(cs: seq<int>, j: nat)
    requires 0 < j < |cs| && cs[0] == 6 && cs[j] >= 18 && IsPlaced(|cs|, 0, j)
    ensures |AlignmentCells(cs, 0, j)| == 20
  {
    var b, c := Rect(4, cs[j] - 2, 2, 5), Rect(7, cs[j] - 2, 2, 5);
    RectSize(4, cs[j] - 2, 2, 5);
    RectSize(7, cs[j] - 2, 2, 5);
    assert AlignmentCells(cs, 0, j) == b + c && b !! c;
  }

  lemma LeftColumnCells(cs: seq<int>, i: nat)
    requires 0 < i < |cs| && cs[0] == 6 && cs[i] >= 18 && IsPlaced(|cs|, i, 0)
    ensures |AlignmentCells(cs, i, 0)| == 20
  {
    var b, c := Rect(cs[i] - 2, 4, 5, 2), Rect(cs[i] - 2, 7, 5, 2);
    RectSize(cs[i] - 2, 4, 5, 2);
    RectSize(cs[i] - 2, 7, 5, 2);
    assert AlignmentCells(cs, i, 0) == b + c && b !! c;
  }

  lemma InnerCells(cs: seq<int>, i: nat, j: nat)
    requires 0 < i < |cs| && 0 < j < |cs| && cs[i] >= 18 && cs[j] >= 18
    ensures |AlignmentCells(cs, i, j)| == 25
  {
    RectSize(cs[i] - 2, cs[j] - 2, 5, 5);
    assert AlignmentCells(cs, i, j) == Rect(cs[i] - 2, cs[j] - 2, 5, 5);
  }

  lemma AlignmentCellsSize(cs: seq<int>, dim: nat, i: nat, j: nat)
    requires Spaced(cs, dim) && i < |cs| && j < |cs|
    ensures |AlignmentCells(cs, i, j)| == AlignmentSize(|cs|, i, j)
  {
    hide AlignmentCells;
    if i > 0 { SpacedApart(cs, dim, 0, i); }
    if j > 0 { SpacedApart(cs, dim, 0, j); }
    if !IsPlaced(|cs|, i, j) {
      NotPlacedCells(cs, i, j);
    } else if i == 0 {
      TopRowCells(cs, j);
    } else if j == 0 {
      LeftColumnCells(cs, i);
    } else {
      InnerCells(cs, i, j);
    }
  }

  lemma NotPlacedCells(cs: seq<int>, i: nat, j: nat)
    requires i < |cs| && j < |cs| && !IsPlaced(|cs|, i, j)
    ensures AlignmentCells(cs, i, j) == {}
  {
  }

  /** Cells of the alignment patterns before (i, j), row by row of patterns. */
  function AlignmentUpTo(cs: seq<int>, i: nat, j: nat): set<Cell>
    requires i < |cs| && j <= |cs|
    decreases i, j
  {
    if j > 0 then AlignmentUpTo(cs, i, j - 1) + AlignmentCells(cs, i, j - 1)
    else if i > 0 then AlignmentUpTo(cs, i - 1, |cs|)
    else {}
  }

  function AlignmentCount(n: nat, i: nat, j: nat): nat
    decreases i, j
  {
    if j > 0 then AlignmentCount(n, i, j - 1) + AlignmentSize(n, i, j - 1)
    else if i > 0 then AlignmentCount(n, i - 1, n)
    else 0
  }

  lemma {:induction false} AlignmentUpToMeaning(cs: seq<int>, i: nat, j: nat, y: int, x: int)
    requires i < |cs| && j <= |cs|
    ensures (y, x) in AlignmentUpTo(cs, i, j) <==>
            exists k, l :: 0 <= k <= i && 0 <= l < |cs| && (k == i ==> l < j) && (y, x) in AlignmentCells(cs, k, l)
    decreases i, j
  {
    if j > 0 {
      AlignmentUpToMeaning(cs, i, j - 1, y, x);
    } else if i > 0 {
      AlignmentUpToMeaning(cs, i - 1, |cs|, y, x);
    }
  }

  lemma {:induction false} AlignmentUpToSize(cs: seq<int>, dim: nat, i: nat, j: nat)
    requires Spaced(cs, dim) && i < |cs| && j <= |cs|
    ensures |AlignmentUpTo(cs, i, j)| == AlignmentCount(|cs|, i, j)
    decreases i, j
  {
    if j > 0 {
      AlignmentUpToSize(cs, dim, i, j - 1);
      AlignmentCellsSize(cs, dim, i, j - 1);
      var a, b := AlignmentUpTo(cs, i, j - 1), AlignmentCells(cs, i, j - 1);
      forall c | c in a ensures c !in b {
        AlignmentUpToMeaning(cs, i, j - 1, c.0, c.1);
        var k, l :| 0 <= k <= i && 0 <= l < |cs| && (k == i ==> l < j - 1) && c in AlignmentCells(cs, k, l);
        if k < i {
          SpacedApart(cs, dim, k, i);
        } else {
          SpacedApart(cs, dim, l, j - 1);
        }
      }
      assert a !! b;
    } else if i > 0 {
      AlignmentUpToSize(cs, dim, i - 1, |cs|);
    }
  }

  // ---- What is left free ----

  function FunctionCells(v: int): set<Cell>
    requires IsVersion(v)
  {
    set y, x | 0 <= y < Dimension(v) && 0 <= x < Dimension(v) && IsFunctionModule(v, y, x) :: (y, x)
  }

  /** All function modules but the alignment patterns. */
  function FixedCells(v: int): set<Cell>
    requires IsVersion(v)
  {
    set y, x | 0 <= y < Dimension(v) && 0 <= x < Dimension(v)
               && (InCorner(Dimension(v), y, x) || InTiming(y, x) || InVersionInfo(v, Dimension(v), y, x)) :: (y, x)
  }

  /** Corners and timing patterns as rectangles that do not overlap. */
  function BaseCells(d: nat): set<Cell>
    requires d >= 17
  {
    Rect(0, 0, 9, 9) + Rect(0, d - 8, 9, 8) + Rect(d - 8, 0, 8, 9) + Rect(TIMING, 9, 1, d - 17) + Rect(9, TIMING, d - 17, 1)
  }

  lemma BaseCellsMeaning(d: nat, y: int, x: int)
    requires d >= 21
    ensures (y, x) in BaseCells(d) <==> Inside(d, y, x) && (InCorner(d, y, x) || InTiming(y, x))
  {
  }

  lemma BaseCellsSize(d: nat)
    requires d >= 21
    ensures |BaseCells(d)| == 225 + 2 * (d - 17)
  {
    var a, b, c := Rect(0, 0, 9, 9), Rect(0, d - 8, 9, 8), Rect(d - 8, 0, 8, 9);
    var e, f := Rect(TIMING, 9, 1, d - 17), Rect(9, TIMING, d - 17, 1);
    RectSize(0, 0, 9, 9);
    RectSize(0, d - 8, 9, 8);
    RectSize(d - 8, 0, 8, 9);
    RectSize(TIMING, 9, 1, d - 17);
    RectSize(9, TIMING, d - 17, 1);
    assert a !! b && (a + b) !! c && (a + b + c) !! e && (a + b + c + e) !! f;
    hide Rect;
  }

  /** The two areas of version information. */
  function VersionCells(d: nat): set<Cell> {
    Rect(d - 11, 0, 3, 6) + Rect(0, d - 11, 6, 3)
  }

  lemma VersionCellsMeaning(d: nat, y: int, x: int)
    requires d >= 21
    ensures (y, x) in VersionCells(d) <==> InVersionInfo(7, d, y, x) && Inside(d, y, x)
    ensures (y, x) in VersionCells(d) && d >= 45 ==> (y, x) !in BaseCells(d)
  {
    BaseCellsMeaning(d, y, x);
    hide BaseCells;
  }

  lemma VersionCellsSize(d: nat)
    requires d >= 45
    ensures |VersionCells(d)| == 36
  {
    RectSize(d - 11, 0, 3, 6);
    RectSize(0, d - 11, 6, 3);
    assert Rect(d - 11, 0, 3, 6) !! Rect(0, d - 11, 6, 3);
  }

  lemma FixedCellsSplit(v: int)
    requires IsVersion(v)
    ensures FixedCells(v) == BaseCells(Dimension(v)) + (if v >= 7 then VersionCells(Dimension(v)) else {})
  {
    hide BaseCells, VersionCells;
    var d := Dimension(v);
    forall c: Cell
      ensures c in FixedCells(v) <==> c in BaseCells(d) || (v >= 7 && c in VersionCells(d))
    {
      BaseCellsMeaning(d, c.0, c.1);
      VersionCellsMeaning(d, c.0, c.1);
      assert c == (c.0, c.1);
    }
  }

  lemma FixedCellsSize(v: int)
    requires IsVersion(v)
    ensures |FixedCells(v)| == 225 + 2 * (Dimension(v) - 17) + (if v >= 7 then 36 else 0)
  {
    hide BaseCells, VersionCells, FixedCells;
    var d := Dimension(v);
    FixedCellsSplit(v);
    BaseCellsSize(d);
    if v >= 7 {
      VersionCellsSize(d);
      forall c | c in VersionCells(d) ensures c !in BaseCells(d) {
        VersionCellsMeaning(d, c.0, c.1);
      }
      assert BaseCells(d) !! VersionCells(d);
    }
  }

  lemma AlignmentApartFromFixed(v: int, cs: seq<int>, i: nat, j: nat)
    requires IsVersion(v) && Spaced(cs, Dimension(v)) && i < |cs| && j < |cs|
    ensures AlignmentCells(cs, i, j) !! FixedCells(v)
    ensures forall c :: c in AlignmentCells(cs, i, j) ==> Inside(Dimension(v), c.0, c.1)
  {
    var n := |cs|;
    if i > 0 { SpacedApart(cs, Dimension(v), 0, i); }
    if j > 0 { SpacedApart(cs, Dimension(v), 0, j); }
    if i < n - 1 { SpacedApart(cs, Dimension(v), i, n - 1); }
    if j < n - 1 { SpacedApart(cs, Dimension(v), j, n - 1); }
  }

  lemma SizeOfBoth(a: set<Cell>, b: set<Cell>, all: set<Cell>)
    requires (forall c :: c in b ==> c !in a) && forall c: Cell :: c in all <==> c in a + b
    ensures |all| == |a| + |b|
  {
    assert all == a + b && a !! b;
  }

  lemma FunctionCellsSize(v: int, cs: seq<int>)
    requires IsVersion(v) && cs == AlignmentCentres(v) && Spaced(cs, Dimension(v))
    ensures |FunctionCells(v)| == |FixedCells(v)| + (if cs == [] then 0 else AlignmentCount(|cs|, |cs| - 1, |cs|))
  {
    if cs == [] {
      assert FunctionCells(v) == FixedCells(v);
    } else {
      var a := AlignmentUpTo(cs, |cs| - 1, |cs|);
      hide FunctionCells, FixedCells, AlignmentUpTo, AlignmentCells, AlignmentCentres, Spaced, Dimension;
      AlignmentUpToSize(cs, Dimension(v), |cs| - 1, |cs|);
      forall c | c in a ensures c !in FixedCells(v) {
        AlignmentUpToMeaning(cs, |cs| - 1, |cs|, c.0, c.1);
        var k, l :| 0 <= k < |cs| && 0 <= l < |cs| && c in AlignmentCells(cs, k, l);
        AlignmentApartFromFixed(v, cs, k, l);
      }
      forall c: Cell ensures c in FunctionCells(v) <==> c in FixedCells(v) + a {
        FunctionCellSplits(v, cs, c.0, c.1);
      }
      SizeOfBoth(FixedCells(v), a, FunctionCells(v));
    }
  }

  lemma FunctionCellSplits(v: int, cs: seq<int>, y: int, x: int)
    requires IsVersion(v) && cs == AlignmentCentres(v) && Spaced(cs, Dimension(v)) && cs != []
    ensures (y, x) in FunctionCells(v) <==> (y, x) in FixedCells(v) || (y, x) in AlignmentUpTo(cs, |cs| - 1, |cs|)
  {
    hide AlignmentCentres, Dimension, AlignmentUpTo;
    if (y, x) in AlignmentUpTo(cs, |cs| - 1, |cs|) {
      AlignmentUpToMeaning(cs, |cs| - 1, |cs|, y, x);
      var k, l :| 0 <= k < |cs| && 0 <= l < |cs| && (y, x) in AlignmentCells(cs, k, l);
      AlignmentApartFromFixed(v, cs, k, l);
      assert Near(y, cs[k]) && Near(x, cs[l]);
    }
    if (y, x) in FunctionCells(v) && (y, x) !in FixedCells(v) {
      var k, l :| 0 <= k < |cs| && 0 <= l < |cs| && IsPlaced(|cs|, k, l) && Near(y, cs[k]) && Near(x, cs[l]);
      assert (y, x) in AlignmentCells(cs, k, l);
      AlignmentUpToMeaning(cs, |cs| - 1, |cs|, y, x);
    }
  }

  // ---- Counting alignment patterns ----

  function PatternRow(n: nat, i: nat): int {
    if i == 0 then 20 * n - 40 else if i == n - 1 then 25 * n - 25 else 25 * n - 5
  }

  function PatternRows(n: nat, i: nat): int {
    PatternRow(n, i) + (if i == 0 then 0 else PatternRows(n, i - 1))
  }

  lemma {:induction false} AlignmentCountClosed(n: nat, i: nat, j: nat)
    requires 2 <= n && i < n && j <= n
    ensures var before := if i == 0 then 0 else PatternRows(n, i - 1);
            AlignmentCount(n, i, j) == before +
            if i == 0 then (if j <= 1 then 0 else if j < n then 20 * j - 20 else 20 * n - 40)
            else if j == 0 then 0
            else if i == n - 1 then 25 * j - 25
            else 25 * j - 5
    decreases i, j
  {
    if j > 0 {
      AlignmentCountClosed(n, i, j - 1);
    } else if i > 0 {
      AlignmentCountClosed(n, i - 1, n);
    }
  }

  // ---- The table's capacities ----

  /** Alignment centres are well placed, and the code words and remainder bits fill what the function modules leave. */
  predicate CapacityExact(v: int, cs: seq<int>, words: nat, remainder: nat)
    requires IsVersion(v)
  {
    && Spaced(cs, Dimension(v))
    && Dimension(v) * Dimension(v) ==
       8 * words + remainder + 225 + 2 * (Dimension(v) - 17) + (if v >= 7 then 36 else 0)
       + (if |cs| == 0 then 0 else PatternRows(|cs|, |cs| - 1))
  }

  lemma CapacitiesFrom1(v: int)
    requires 1 <= v <= 3
    ensures CapacityExact(v, AlignmentCentres(v), TotalWords(v), RemainderBits(v))
  {
    if v == 1 {} else if v == 2 {} else {}
  }

  lemma CapacitiesFrom4(v: int)
    requires 4 <= v <= 5
    ensures CapacityExact(v, AlignmentCentres(v), TotalWords(v), RemainderBits(v))
  {
    if v == 4 {} else {}
  }

  lemma CapacitiesFrom6(v: int)
    requires 6 <= v <= 8
    ensures CapacityExact(v, AlignmentCentres(v), TotalWords(v), RemainderBits(v))
  {
    if v == 6 {} else if v == 7 {} else {}
  }

  lemma CapacitiesFrom9(v: int)
    requires 9 <= v <= 10
    ensures CapacityExact(v, AlignmentCentres(v), TotalWords(v), RemainderBits(v))
  {
    if v == 9 {} else {}
  }

  lemma CapacitiesFrom11(v: int)
    requires 11 <= v <= 13
    ensures CapacityExact(v, AlignmentCentres(v), TotalWords(v), RemainderBits(v))
  {
    if v == 11 {} else if v == 12 {} else {}
  }

  lemma CapacitiesFrom14(v: int)
    requires 14 <= v <= 15
    ensures CapacityExact(v, AlignmentCentres(v), TotalWords(v), RemainderBits(v))
  {
    if v == 14 {} else {}
  }

  lemma CapacitiesFrom16(v: int)
    requires 16 <= v <= 18
    ensures CapacityExact(v, AlignmentCentres(v), TotalWords(v), RemainderBits(v))
  {
    if v == 16 {} else if v == 17 {} else {}
  }

  lemma CapacitiesFrom19(v: int)
    requires 19 <= v <= 20
    ensures CapacityExact(v, AlignmentCentres(v), TotalWords(v), RemainderBits(v))
  {
    if v == 19 {} else {}
  }

  lemma CapacitiesFrom21(v: int)
    requires 21 <= v <= 23
    ensures CapacityExact(v, AlignmentCentres(v), TotalWords(v), RemainderBits(v))
  {
    if v == 21 {} else if v == 22 {} else {}
  }

  lemma CapacitiesFrom24(v: int)
    requires 24 <= v <= 25
    ensures CapacityExact(v, AlignmentCentres(v), TotalWords(v), RemainderBits(v))
  {
    if v == 24 {} else {}
  }

  lemma CapacitiesFrom26(v: int)
    requires 26 <= v <= 28
    ensures CapacityExact(v, AlignmentCentres(v), TotalWords(v), RemainderBits(v))
  {
    if v == 26 {} else if v == 27 {} else {}
  }

  lemma CapacitiesFrom29(v: int)
    requires 29 <= v <= 30
    ensures CapacityExact(v, AlignmentCentres(v), TotalWords(v), RemainderBits(v))
  {
    if v == 29 {} else {}
  }

  lemma CapacitiesFrom31(v: int)
    requires 31 <= v <= 33
    ensures CapacityExact(v, AlignmentCentres(v), TotalWords(v), RemainderBits(v))
  {
    if v == 31 {} else if v == 32 {} else {}
  }

  lemma CapacitiesFrom34(v: int)
    requires 34 <= v <= 35
    ensures CapacityExact(v, AlignmentCentres(v), TotalWords(v), RemainderBits(v))
  {
    if v == 34 {} else {}
  }

  lemma CapacitiesFrom36(v: int)
    requires 36 <= v <= 38
    ensures CapacityExact(v, AlignmentCentres(v), TotalWords(v), RemainderBits(v))
  {
    if v == 36 {} else if v == 37 {} else {}
  }

  lemma CapacitiesFrom39(v: int)
    requires 39 <= v <= 40
    ensures CapacityExact(v, AlignmentCentres(v), TotalWords(v), RemainderBits(v))
  {
    if v == 39 {} else {}
  }

  lemma CapacitiesExact(v: int)
    requires IsVersion(v)
    ensures CapacityExact(v, AlignmentCentres(v), TotalWords(v), RemainderBits(v))
  {
    hide CapacityExact, AlignmentCentres, TotalWords, RemainderBits;
    if v <= 3 { CapacitiesFrom1(v); } else if v <= 5 { CapacitiesFrom4(v); }
    else if v <= 8 { CapacitiesFrom6(v); } else if v <= 10 { CapacitiesFrom9(v); }
    else if v <= 13 { CapacitiesFrom11(v); } else if v <= 15 { CapacitiesFrom14(v); }
    else if v <= 18 { CapacitiesFrom16(v); } else if v <= 20 { CapacitiesFrom19(v); }
    else if v <= 23 { CapacitiesFrom21(v); } else if v <= 25 { CapacitiesFrom24(v); }
    else if v <= 28 { CapacitiesFrom26(v); } else if v <= 30 { CapacitiesFrom29(v); }
    else if v <= 33 { CapacitiesFrom31(v); } else if v <= 35 { CapacitiesFrom34(v); }
    else if v <= 38 { CapacitiesFrom36(v); } else { CapacitiesFrom39(v); }
  }

  predicate AllEven(cs: seq<int>) {
    forall i :: 0 <= i < |cs| ==> cs[i] % 2 == 0
  }

  lemma LowCentresEven(v: int)
    requires 1 <= v <= 24
    ensures AllEven(AlignmentCentres(v))
  {
  }

  lemma HighCentresEven(v: int)
    requires 25 <= v <= 40
    ensures AllEven(AlignmentCentres(v))
  {
  }

  lemma CentresEven(v: int)
    requires IsVersion(v)
    ensures AllEven(AlignmentCentres(v))
  {
    hide AlignmentCentres, AllEven;
    if v <= 24 { LowCentresEven(v); } else { HighCentresEven(v); }
  }

  /** Function modules and code bits together make up the whole symbol, for every version of the table. */
  lemma FunctionCellsFill(v: int)
    requires IsVersion(v)
    ensures |FunctionCells(v)| + 8 * TotalWords(v) + RemainderBits(v) == Dimension(v) * Dimension(v)
  {
    CapacitiesExact(v);
    var cs := AlignmentCentres(v);
    hide AlignmentCentres, TotalWords, RemainderBits, FunctionCells;
    FunctionCellsSize(v, cs);
    FixedCellsSize(v);
    if cs != [] {
      AlignmentCountClosed(|cs|, |cs| - 1, |cs|);
    }
  }

  // ---- The walk has room for every bit ----

  /** The function flags of g are those of version v. */
  ghost predicate HasFunctionPattern(g: Grid, v: int)
    requires IsVersion(v)
  {
    IsGrid(g, Dimension(v))
    && forall y, x :: Inside(Dimension(v), y, x) ==> IsFunc(At(g, Dimension(v), y, x)) == IsFunctionModule(v, y, x)
  }

  function CellOf(dim: nat, c: Cursor): Cell {
    (Y(dim, c), X(dim, c))
  }

  function CellsOf(dim: nat, cs: seq<Cursor>): set<Cell> {
    if cs == [] then {} else CellsOf(dim, cs[..|cs| - 1]) + {CellOf(dim, cs[|cs| - 1])}
  }

  lemma {:induction false} CellsOfMeaning(dim: nat, cs: seq<Cursor>, cell: Cell)
    ensures cell in CellsOf(dim, cs) <==> exists k :: 0 <= k < |cs| && CellOf(dim, cs[k]) == cell
  {
    if cs != [] {
      CellsOfMeaning(dim, cs[..|cs| - 1], cell);
    }
  }

  lemma {:induction false} CellsOfSize(dim: nat, cs: seq<Cursor>)
    requires forall i, j :: 0 <= i < j < |cs| ==> CellOf(dim, cs[i]) != CellOf(dim, cs[j])
    ensures |CellsOf(dim, cs)| == |cs|
  {
    if cs != [] {
      CellsOfSize(dim, cs[..|cs| - 1]);
      CellsOfMeaning(dim, cs[..|cs| - 1], CellOf(dim, cs[|cs| - 1]));
    }
  }

  lemma FreeCell(g: Grid, v: int, cell: Cell)
    requires IsVersion(v) && HasFunctionPattern(g, v)
    ensures cell in CellsOf(Dimension(v), FreeOrder(g, Dimension(v))) <==>
            cell in Rect(0, 0, Dimension(v), Dimension(v)) - FunctionCells(v)
  {
    var d := Dimension(v);
    var order := FreeOrder(g, d);
    hide FreeOrder, IsFunctionModule;
    CellsOfMeaning(d, order, cell);
    assert cell == (cell.0, cell.1);
    if cell in CellsOf(d, order) {
      var k :| 0 <= k < |order| && CellOf(d, order[k]) == cell;
      WalkInside(d, order[k]);
      assert FreeAt(g, d, order[k]);
    }
    if cell in Rect(0, 0, d, d) - FunctionCells(v) {
      assert cell.1 != TIMING by { TimingIsFunction(v, cell.0, cell.1); }
      var k := FreeOrderComplete(g, d, cell.0, cell.1);
      assert CellOf(d, order[k]) == cell;
    }
  }

  lemma TimingIsFunction(v: int, y: int, x: int)
    requires IsVersion(v)
    ensures x == TIMING ==> IsFunctionModule(v, y, x)
  {
  }

  /** The free modules of a version are exactly enough for its code words and remainder bits. */
  lemma FreeModulesFit(g: Grid, v: int)
    requires IsVersion(v) && HasFunctionPattern(g, v)
    ensures |FreeOrder(g, Dimension(v))| == 8 * TotalWords(v) + RemainderBits(v)
  {
    var d := Dimension(v);
    var order := FreeOrder(g, d);
    hide FreeOrder, FunctionCells, Rect, CellsOf, HasFunctionPattern, TotalWords, RemainderBits;
    forall i, j | 0 <= i < j < |order| ensures CellOf(d, order[i]) != CellOf(d, order[j]) {
      FreeOrderDistinct(g, d, i, j);
    }
    CellsOfSize(d, order);
    forall c: Cell ensures c in CellsOf(d, order) <==> c in Rect(0, 0, d, d) - FunctionCells(v) {
      FreeCell(g, v, c);
    }
    assert CellsOf(d, order) == Rect(0, 0, d, d) - FunctionCells(v);
    RectSize(0, 0, d, d);
    FunctionCellsInside(v);
    FunctionCellsFill(v);
  }

  lemma FunctionCellsInside(v: int)
    requires IsVersion(v)
    ensures FunctionCells(v) <= Rect(0, 0, Dimension(v), Dimension(v))
  {
    hide IsFunctionModule;
  }

  /** Where the walk starts, and what lies before the last row in memory, is free. */
  lemma StartIsFree(v: int)
    requires IsVersion(v)
    ensures var d := Dimension(v); !IsFunctionModule(v, d - 1, d - 1) && !IsFunctionModule(v, d - 2, d - 1)
  {
    CapacitiesExact(v);
    var cs, d := AlignmentCentres(v), Dimension(v);
    hide AlignmentCentres, Dimension, TotalWords, RemainderBits;
    forall j | 0 <= j < |cs| ensures cs[j] <= d - 7 {
      if j < |cs| - 1 {
        SpacedApart(cs, d, j, |cs| - 1);
      }
    }
  }
}
